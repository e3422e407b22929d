/** `WebServer.splitQuery`: a query string `k1=v1&k2=v2&...` becomes a
    `LinkedHashMap` from decoded key to decoded value. The query is cut at every '&'
    and each pair at its first '='; unlike a form parser, a pair without '=' makes
    `substring` throw, and empty pairs are not skipped. */
module Query {
  import opened JavaLang
  import opened UrlDecoder

  /** A `LinkedHashMap<String, String>`: its entries in first-insertion order. */
  datatype LinkedMap = LinkedMap(entries: seq<(string, string)>)

  const Empty := LinkedMap([])

  /** Every key is held by one entry only. */
  predicate Valid(m: LinkedMap) {
    forall i, j :: 0 <= i < j < |m.entries| ==> m.entries[i].0 != m.entries[j].0
  }

  /** The keys in iteration order. */
  function Keys(m: LinkedMap): (ks: seq<string>)
    ensures |ks| == |m.entries|
    ensures forall i :: 0 <= i < |ks| ==> ks[i] == m.entries[i].0
  {
    seq(|m.entries|, i requires 0 <= i < |m.entries| => m.entries[i].0)
  }

  /** The position of the first entry with key `k`, or -1. */
  function Position(entries: seq<(string, string)>, k: string): (i: int)
    ensures i == -1 ==> forall j :: 0 <= j < |entries| ==> entries[j].0 != k
    ensures i != -1 ==> 0 <= i < |entries| && entries[i].0 == k
    ensures i != -1 ==> forall j :: 0 <= j < i ==> entries[j].0 != k
  {
    if entries == [] then -1
    else if entries[0].0 == k then 0
    else
      var i := Position(entries[1..], k);
      if i == -1 then -1 else i + 1
  }

  /** `m.get(k)`, with `None` for Java's `null`. */
  function Get(m: LinkedMap, k: string): Option<string> {
    var i := Position(m.entries, k);
    if i == -1 then None else Some(m.entries[i].1)
  }

  /** `m.containsKey(k)` */
  predicate ContainsKey(m: LinkedMap, k: string) {
    Get(m, k).Some?
  }

  /** `m.put(k, v)`: a key already present keeps its position and takes the new
      value; a new key goes last. */
  function Put(m: LinkedMap, k: string, v: string): LinkedMap {
    var i := Position(m.entries, k);
    if i == -1 then LinkedMap(m.entries + [(k, v)]) else LinkedMap(m.entries[i := (k, v)])
  }

  /** After `m.put(k, v)`, `k` maps to `v`, every other key keeps its value, the keys
      stay distinct, and the key order is that of `m` with a new key last. */
  lemma PutSpec(m: LinkedMap, k: string, v: string)
    requires Valid(m)
    ensures Valid(Put(m, k, v))
    ensures Get(Put(m, k, v), k) == Some(v)
    ensures forall k' :: k' != k ==> Get(Put(m, k, v), k') == Get(m, k')
    ensures Keys(Put(m, k, v)) == if k in Keys(m) then Keys(m) else Keys(m) + [k]
  {
    var i := Position(m.entries, k);
    var r := Put(m, k, v);
    assert forall j :: 0 <= j < |m.entries| ==> r.entries[j].0 == m.entries[j].0;
    assert k in Keys(m) <==> i != -1;
    var p := Position(r.entries, k);
    assert r.entries[if i == -1 then |m.entries| else i].0 == k;
    assert p == if i == -1 then |m.entries| else i;
    forall k' | k' != k
      ensures Get(r, k') == Get(m, k')
    {
      var p, q := Position(r.entries, k'), Position(m.entries, k');
      if p != -1 && q != -1 {
        assert !(p < q) && !(q < p);
      }
    }
  }

  /** Why `splitQuery` throws. */
  datatype QueryError =
    | MissingEquals(pair: string)   // StringIndexOutOfBoundsException from substring(0, -1)
    | BadEscape(error: DecodeError)  // IllegalArgumentException from URLDecoder.decode

  /** One pair: cut at its first '=' and decode the key, then the value. */
  function DecodePair(pair: string): Result<(string, string), QueryError> {
    var idx := IndexOf(pair, '=', 0);
    if idx == -1 then Err(MissingEquals(pair))
    else
      match Decode(pair[..idx])
      case Err(e) => Err(BadEscape(e))
      case Ok(k) =>
        match Decode(pair[idx + 1..])
        case Err(e) => Err(BadEscape(e))
        case Ok(v) => Ok((k, v))
  }

  /** The pairs decoded and put into `m` one after another. */
  function PutAll(m: LinkedMap, pairs: seq<string>): Result<LinkedMap, QueryError>
    decreases |pairs|
  {
    if pairs == [] then Ok(m)
    else
      match DecodePair(pairs[0])
      case Err(e) => Err(e)
      case Ok(kv) => PutAll(Put(m, kv.0, kv.1), pairs[1..])
  }

  /** What `splitQuery(query)` returns, or the exception it throws. */
  function SplitQueryOf(query: string): Result<LinkedMap, QueryError> {
    PutAll(Empty, Split(query, '&'))
  }

  /** `splitQuery(query)`: the loop over the '&'-separated pairs filling a
      `LinkedHashMap`. */
  method SplitQuery(query: string) returns (r: Result<LinkedMap, QueryError>)
    ensures r == SplitQueryOf(query)
  {
    var queryPairs := Empty;
    var pairs := Split(query, '&');
    for i := 0 to |pairs|
      invariant PutAll(queryPairs, pairs[i..]) == SplitQueryOf(query)
    {
      assert pairs[i..] == [pairs[i]] + pairs[i + 1..];
      var pair := pairs[i];
      var idx := IndexOf(pair, '=', 0);
      if idx == -1 {
        return Err(MissingEquals(pair));
      }
      var key := Decode(pair[..idx]);
      if key.Err? {
        return Err(BadEscape(key.error));
      }
      var value := Decode(pair[idx + 1..]);
      if value.Err? {
        return Err(BadEscape(value.error));
      }
      queryPairs := Put(queryPairs, key.value, value.value);
    }
    return Ok(queryPairs);
  }

  // ----------------------------------------------------------------------------
  // What splitQuery computes, stated without the map
  // ----------------------------------------------------------------------------

  predicate AllDecode(pairs: seq<string>) {
    forall i :: 0 <= i < |pairs| ==> DecodePair(pairs[i]).Ok?
  }

  /** The decoded (key, value) pairs in query order. */
  function Decoded(pairs: seq<string>): (kvs: seq<(string, string)>)
    requires AllDecode(pairs)
    ensures |kvs| == |pairs|
    ensures forall i :: 0 <= i < |pairs| ==> kvs[i] == DecodePair(pairs[i]).value
  {
    if pairs == [] then [] else [DecodePair(pairs[0]).value] + Decoded(pairs[1..])
  }

  /** The value of the last pair whose key is `k`. */
  function LastValue(kvs: seq<(string, string)>, k: string): (r: Option<string>)
    ensures r.None? <==> forall i :: 0 <= i < |kvs| ==> kvs[i].0 != k
    ensures r.Some? ==> exists i :: 0 <= i < |kvs| && kvs[i] == (k, r.value) &&
                                    forall j :: i < j < |kvs| ==> kvs[j].0 != k
  {
    if kvs == [] then None
    else
      match LastValue(kvs[1..], k)
      case Some(v) =>
        var i :| 0 <= i < |kvs[1..]| && kvs[1..][i] == (k, v) && forall j :: i < j < |kvs[1..]| ==> kvs[1..][j].0 != k;
        assert kvs[i + 1] == (k, v);
        Some(v)
      case None => if kvs[0].0 == k then Some(kvs[0].1) else None
  }

  /** `ks` followed by the keys of `kvs` not seen before, in order of first appearance. */
  function AddKeys(ks: seq<string>, kvs: seq<(string, string)>): seq<string>
    decreases |kvs|
  {
    if kvs == [] then ks
    else AddKeys(if kvs[0].0 in ks then ks else ks + [kvs[0].0], kvs[1..])
  }

  /** Putting the pairs into `m` succeeds exactly when every pair decodes. */
  lemma {:induction false} PutAllOk(m: LinkedMap, pairs: seq<string>)
    ensures PutAll(m, pairs).Ok? <==> AllDecode(pairs)
    decreases |pairs|
  {
    if pairs != [] {
      match DecodePair(pairs[0])
      case Err(e) =>
      case Ok(kv) =>
        PutAllOk(Put(m, kv.0, kv.1), pairs[1..]);
        assert forall i :: 0 < i < |pairs| ==> pairs[i] == pairs[1..][i - 1];
    }
  }

  /** The puts keep the keys distinct. */
  lemma {:induction false} PutAllValid(m: LinkedMap, pairs: seq<string>)
    requires Valid(m)
    ensures PutAll(m, pairs).Ok? ==> Valid(PutAll(m, pairs).value)
    decreases |pairs|
  {
    if pairs != [] && DecodePair(pairs[0]).Ok? {
      var kv := DecodePair(pairs[0]).value;
      PutSpec(m, kv.0, kv.1);
      PutAllValid(Put(m, kv.0, kv.1), pairs[1..]);
    }
  }

  /** Decoding distributes over the first pair. */
  lemma DecodedCons(pairs: seq<string>)
    requires pairs != [] && AllDecode(pairs)
    ensures AllDecode(pairs[1..])
    ensures Decoded(pairs) == [DecodePair(pairs[0]).value] + Decoded(pairs[1..])
  {
    assert forall i :: 0 <= i < |pairs[1..]| ==> pairs[1..][i] == pairs[i + 1];
  }

  /** After the puts, each key maps to the value of its last pair, and a key that no
      pair names keeps its value in `m`. */
  lemma {:induction false} PutAllGet(m: LinkedMap, pairs: seq<string>, k: string)
    requires Valid(m) && AllDecode(pairs)
    ensures PutAll(m, pairs).Ok?
    ensures Get(PutAll(m, pairs).value, k) ==
      (if LastValue(Decoded(pairs), k).Some? then LastValue(Decoded(pairs), k) else Get(m, k))
    decreases |pairs|
  {
    PutAllOk(m, pairs);
    if pairs != [] {
      var kv := DecodePair(pairs[0]).value;
      DecodedCons(pairs);
      PutSpec(m, kv.0, kv.1);
      PutAllGet(Put(m, kv.0, kv.1), pairs[1..], k);
      assert Decoded(pairs)[1..] == Decoded(pairs[1..]);
    }
  }

  /** After the puts, the keys are those of `m` followed by the new ones in order of
      first appearance. */
  lemma {:induction false} PutAllKeys(m: LinkedMap, pairs: seq<string>)
    requires Valid(m) && AllDecode(pairs)
    ensures PutAll(m, pairs).Ok?
    ensures Keys(PutAll(m, pairs).value) == AddKeys(Keys(m), Decoded(pairs))
    decreases |pairs|
  {
    PutAllOk(m, pairs);
    if pairs != [] {
      var kv := DecodePair(pairs[0]).value;
      DecodedCons(pairs);
      PutSpec(m, kv.0, kv.1);
      PutAllKeys(Put(m, kv.0, kv.1), pairs[1..]);
      assert Decoded(pairs)[1..] == Decoded(pairs[1..]);
    }
  }

  /** `splitQuery` returns normally exactly when every '&'-separated pair has a '=' and
      decodes. Then each key maps to the value of its LAST pair, and the keys iterate in
      the order of their FIRST appearance; otherwise the exception is that of the first
      pair that fails. */
  lemma SplitQuerySpec(query: string)
    ensures SplitQueryOf(query).Ok? <==> AllDecode(Split(query, '&'))
    ensures SplitQueryOf(query).Ok? ==> Valid(SplitQueryOf(query).value)
    ensures SplitQueryOf(query).Ok? ==>
      var kvs := Decoded(Split(query, '&'));
      var r := SplitQueryOf(query).value;
      Keys(r) == AddKeys([], kvs) && forall k :: Get(r, k) == LastValue(kvs, k)
    ensures SplitQueryOf(query).Err? ==>
      var pairs := Split(query, '&');
      exists i :: 0 <= i < |pairs| && DecodePair(pairs[i]) == Err(SplitQueryOf(query).error) &&
                  forall j :: 0 <= j < i ==> DecodePair(pairs[j]).Ok?
  {
    var pairs := Split(query, '&');
    PutAllOk(Empty, pairs);
    PutAllValid(Empty, pairs);
    if AllDecode(pairs) {
      PutAllKeys(Empty, pairs);
      assert Keys(Empty) == [];
      forall k ensures Get(SplitQueryOf(query).value, k) == LastValue(Decoded(pairs), k) {
        PutAllGet(Empty, pairs, k);
      }
    } else {
      FirstError(Empty, pairs);
    }
  }

  /** A failing `PutAll` fails with the error of its first failing pair. */
  lemma {:induction false} FirstError(m: LinkedMap, pairs: seq<string>)
    requires PutAll(m, pairs).Err?
    ensures exists i :: 0 <= i < |pairs| && DecodePair(pairs[i]) == Err(PutAll(m, pairs).error) &&
                        forall j :: 0 <= j < i ==> DecodePair(pairs[j]).Ok?
    decreases |pairs|
  {
    match DecodePair(pairs[0])
    case Err(e) =>
      assert DecodePair(pairs[0]) == Err(PutAll(m, pairs).error);
    case Ok(kv) =>
      FirstError(Put(m, kv.0, kv.1), pairs[1..]);
      var i :| 0 <= i < |pairs[1..]| && DecodePair(pairs[1..][i]) == Err(PutAll(m, pairs).error) &&
               forall j :: 0 <= j < i ==> DecodePair(pairs[1..][j]).Ok?;
      assert DecodePair(pairs[i + 1]) == Err(PutAll(m, pairs).error);
      assert forall j :: 0 < j < i + 1 ==> pairs[j] == pairs[1..][j - 1];
  }

  // ----------------------------------------------------------------------------
  // The round trip: a query written by an encoder is read back by splitQuery
  // ----------------------------------------------------------------------------

  predicate AsciiPairs(kvs: seq<(string, string)>) {
    forall i :: 0 <= i < |kvs| ==> IsAscii(kvs[i].0) && IsAscii(kvs[i].1)
  }

  /** A pair as a form encoder writes it: both halves encoded, joined by '='. */
  function EncodePair(kv: (string, string)): string
    requires IsAscii(kv.0) && IsAscii(kv.1)
  {
    Encode(kv.0) + "=" + Encode(kv.1)
  }

  function EncodePairs(kvs: seq<(string, string)>): (ps: seq<string>)
    requires AsciiPairs(kvs)
    ensures |ps| == |kvs|
    ensures forall i :: 0 <= i < |kvs| ==> ps[i] == EncodePair(kvs[i])
  {
    if kvs == [] then [] else [EncodePair(kvs[0])] + EncodePairs(kvs[1..])
  }

  /** The query string `k1=v1&k2=v2&...` for these pairs. */
  function EncodeQuery(kvs: seq<(string, string)>): string
    requires AsciiPairs(kvs)
  {
    Join(EncodePairs(kvs), '&')
  }

  /** An encoded pair is cut at the '=' between its halves and decodes to itself. */
  lemma DecodeEncodedPair(kv: (string, string))
    requires IsAscii(kv.0) && IsAscii(kv.1)
    ensures DecodePair(EncodePair(kv)) == Ok(kv)
  {
    var key, value := Encode(kv.0), Encode(kv.1);
    var pair := EncodePair(kv);
    assert forall k :: 0 <= k < |key| ==> pair[k] == key[k];
    assert pair[|key|] == '=';
    EncodeLacks(kv.0, '=');
    IndexOfAt(pair, '=', 0, |key|);
    assert pair[..|key|] == key;
    assert pair[|key| + 1..] == value;
    DecodeEncode(kv.0);
    DecodeEncode(kv.1);
  }

  /** No encoded pair holds '&'. */
  lemma EncodedPairsLackAmpersand(kvs: seq<(string, string)>)
    requires AsciiPairs(kvs)
    ensures forall i :: 0 <= i < |EncodePairs(kvs)| ==> '&' !in EncodePairs(kvs)[i]
  {
    var ps := EncodePairs(kvs);
    forall i | 0 <= i < |ps|
      ensures '&' !in ps[i]
    {
      var key, value := Encode(kvs[i].0), Encode(kvs[i].1);
      assert ps[i] == key + "=" + value;
      EncodeLacks(kvs[i].0, '&');
      EncodeLacks(kvs[i].1, '&');
    }
  }

  /** The encoded pairs come back from splitting the encoded query on '&'. */
  lemma SplitEncodedQuery(kvs: seq<(string, string)>)
    requires |kvs| >= 1 && AsciiPairs(kvs)
    ensures Split(EncodeQuery(kvs), '&') == EncodePairs(kvs)
  {
    var ps := EncodePairs(kvs);
    EncodedPairsLackAmpersand(kvs);
    assert ps[|ps| - 1][|Encode(kvs[|ps| - 1].0)|] == '=';
    SplitJoin(ps, '&');
  }

  /** `splitQuery` reads back what a form encoder wrote: each key maps to the value of
      its last pair, and the keys iterate in order of first appearance. */
  lemma SplitQueryEncode(kvs: seq<(string, string)>)
    requires |kvs| >= 1 && AsciiPairs(kvs)
    ensures SplitQueryOf(EncodeQuery(kvs)).Ok?
    ensures forall k :: Get(SplitQueryOf(EncodeQuery(kvs)).value, k) == LastValue(kvs, k)
    ensures Keys(SplitQueryOf(EncodeQuery(kvs)).value) == AddKeys([], kvs)
  {
    var q := EncodeQuery(kvs);
    var ps := EncodePairs(kvs);
    SplitEncodedQuery(kvs);
    forall i | 0 <= i < |ps|
      ensures DecodePair(ps[i]) == Ok(kvs[i])
    {
      DecodeEncodedPair(kvs[i]);
    }
    assert AllDecode(ps);
    assert Decoded(ps) == kvs;
    SplitQuerySpec(q);
  }
}
