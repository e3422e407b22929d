/** What `createResponse` answers to whole requests: route priority, the decision
    trees of the parameter routes on queries written by a form encoder, the header
    loop in front of them, and the helpers' own laws. */
module Properties {
  import opened JavaLang
  import opened UrlDecoder
  import opened Query
  import opened Header
  import opened Routes

  // ----------------------------------------------------------------------------
  // Characters of paths
  // ----------------------------------------------------------------------------

  /** A string that contains `t` holds every character of `t`. */
  lemma ContainsChar(s: string, t: string, j: nat)
    requires Contains(s, t) && j < |t|
    ensures t[j] in s
  {
    var k :| 0 <= k <= |s| - |t| && OccursAt(s, t, k);
    assert s[k..k + |t|][j] == s[k + j];
  }

  /** A path holding a character that is no letter differs, in any case, from a word
      of lower-case letters. */
  lemma NotAWord(path: string, c: char, word: string)
    requires c in path && !('A' <= c <= 'Z') && !('a' <= c <= 'z')
    requires forall k :: 0 <= k < |word| ==> 'a' <= word[k] <= 'z'
    ensures !EqualsIgnoreCase(path, word)
  {
    var k :| 0 <= k < |path| && path[k] == c;
    if k < |word| {
      assert ToLowerAscii(path[k]) != ToLowerAscii(word[k]);
    }
  }

  /** Neither of the exact routes takes a path holding '?' or '/'. */
  lemma NotExact(path: string, c: char)
    requires c in path && (c == '?' || c == '/')
    ensures !EqualsIgnoreCase(path, "json") && !EqualsIgnoreCase(path, "random")
  {
    NotAWord(path, c, "json");
    NotAWord(path, c, "random");
  }

  /** The chain is first-match: the empty path is the root, `json` and `random` are
      compared ignoring case, a path goes to a substring route exactly when its token
      occurs and no token tested before it does, and everything else is unrecognised. */
  lemma RoutePriority(path: string)
    ensures RouteOf(path) == Root <==> |path| == 0
    ensures RouteOf(path) == RandomJson <==> EqualsIgnoreCase(path, "json")
    ensures RouteOf(path) == RandomPage <==> EqualsIgnoreCase(path, "random")
    ensures RouteOf(path) == Cat <==> Contains(path, "cat?")
    ensures RouteOf(path) == FtToCm <==> !Contains(path, "cat?") && Contains(path, "ft_to_cm?")
    ensures RouteOf(path) == File <==>
              !Contains(path, "cat?") && !Contains(path, "ft_to_cm?") && Contains(path, "file/")
    ensures RouteOf(path) == Multiply <==>
              (!Contains(path, "cat?") && !Contains(path, "ft_to_cm?") && !Contains(path, "file/") &&
               Contains(path, "multiply?"))
    ensures RouteOf(path) == Github <==>
              (!Contains(path, "cat?") && !Contains(path, "ft_to_cm?") && !Contains(path, "file/") &&
               !Contains(path, "multiply?") && Contains(path, "github?"))
    ensures RouteOf(path) == Unrecognized <==>
              (|path| > 0 && !EqualsIgnoreCase(path, "json") && !EqualsIgnoreCase(path, "random") &&
               !Contains(path, "cat?") && !Contains(path, "ft_to_cm?") && !Contains(path, "file/") &&
               !Contains(path, "multiply?") && !Contains(path, "github?"))
  {
    if Contains(path, "cat?") {
      ContainsChar(path, "cat?", 3);
      NotExact(path, '?');
    } else if Contains(path, "ft_to_cm?") {
      ContainsChar(path, "ft_to_cm?", 8);
      NotExact(path, '?');
    } else if Contains(path, "file/") {
      ContainsChar(path, "file/", 4);
      NotExact(path, '/');
    } else if Contains(path, "multiply?") {
      ContainsChar(path, "multiply?", 8);
      NotExact(path, '?');
    } else if Contains(path, "github?") {
      ContainsChar(path, "github?", 6);
      NotExact(path, '?');
    }
  }

  // ----------------------------------------------------------------------------
  // Paths `<token><query>` with a query written by a form encoder
  // ----------------------------------------------------------------------------

  /** Joined pieces hold only the separator and the pieces' characters. */
  lemma {:induction false} JoinLacks(ps: seq<string>, sep: char, c: char)
    requires c != sep && forall i :: 0 <= i < |ps| ==> c !in ps[i]
    ensures c !in Join(ps, sep)
  {
    if |ps| > 1 {
      JoinLacks(ps[1..], sep, c);
    }
  }

  /** An encoded query holds only unreserved characters, '+', '%', '=' and '&'. */
  lemma QueryLacks(kvs: seq<(string, string)>, c: char)
    requires AsciiPairs(kvs)
    requires !Unreserved(c) && c != '+' && c != '%' && c != '=' && c != '&'
    ensures c !in EncodeQuery(kvs)
  {
    var ps := EncodePairs(kvs);
    forall i | 0 <= i < |ps|
      ensures c !in ps[i]
    {
      var key, value := Encode(kvs[i].0), Encode(kvs[i].1);
      assert ps[i] == key + "=" + value;
      EncodeLacks(kvs[i].0, c);
      EncodeLacks(kvs[i].1, c);
    }
    JoinLacks(ps, '&', c);
  }

  /** A non-empty encoded query has a '=', so trimming leaves something. */
  lemma QueryNotBlank(kvs: seq<(string, string)>)
    requires |kvs| >= 1 && AsciiPairs(kvs)
    ensures Trim(EncodeQuery(kvs)) != ""
  {
    var ps := EncodePairs(kvs);
    var n := |Encode(kvs[0].0)|;
    assert ps[0][n] == '=';
    var q := EncodeQuery(kvs);
    if |ps| == 1 {
      assert q == ps[0];
    } else {
      assert q == ps[0] + ['&'] + Join(ps[1..], '&');
    }
    assert q[n] == '=';
    assert !IsTrimmed(q[n]);
    TrimEmpty(q);
  }

  /** When '?' ends `token` and occurs nowhere else in `token + q`, a token ending in
      '?' that occurs in `token + q` is a suffix of `token`. */
  lemma QuestionMarkTokens(token: string, q: string)
    requires |token| >= 1 && token[|token| - 1] == '?'
    requires forall j :: 0 <= j < |token| - 1 ==> token[j] != '?'
    requires '?' !in q
    ensures forall t :: |t| >= 1 && t[|t| - 1] == '?' && Contains(token + q, t) ==>
              |t| <= |token| && token[|token| - |t|..] == t
  {
    var path := token + q;
    forall t | |t| >= 1 && t[|t| - 1] == '?' && Contains(path, t)
      ensures |t| <= |token| && token[|token| - |t|..] == t
    {
      var k :| 0 <= k <= |path| - |t| && OccursAt(path, t, k);
      var last := k + |t| - 1;
      assert path[k..k + |t|][|t| - 1] == path[last];
      assert path[last] == '?';
      assert forall j :: |token| <= j < |path| ==> path[j] == q[j - |token|];
      assert last == |token| - 1;
      assert path[k..k + |t|] == token[k..];
    }
  }

  /** A parameter route's token: it ends in its only '?' and holds no '/'. */
  predicate QueryToken(token: string) {
    && |token| >= 1 && token[|token| - 1] == '?'
    && (forall j :: 0 <= j < |token| - 1 ==> token[j] != '?')
    && '/' !in token
  }

  /** The tokens of the parameter routes that take a query. */
  lemma QueryTokens()
    ensures QueryToken("cat?") && QueryToken("ft_to_cm?") && QueryToken("multiply?") && QueryToken("github?")
  {
  }

  /** In `<token><query>` no '/' occurs, and removing the token leaves the query,
      which is not blank. */
  lemma QueryPath(token: string, kvs: seq<(string, string)>)
    requires QueryToken(token)
    requires |kvs| >= 1 && AsciiPairs(kvs)
    ensures Contains(token + EncodeQuery(kvs), token)
    ensures '/' !in token + EncodeQuery(kvs)
    ensures !EqualsIgnoreCase(token + EncodeQuery(kvs), "json")
    ensures !EqualsIgnoreCase(token + EncodeQuery(kvs), "random")
    ensures Replace(token + EncodeQuery(kvs), token, "") == EncodeQuery(kvs)
    ensures Trim(EncodeQuery(kvs)) != ""
  {
    var q := EncodeQuery(kvs);
    var path := token + q;
    QueryLacks(kvs, '?');
    QueryLacks(kvs, '/');
    QueryNotBlank(kvs);
    assert OccursAt(path, token, 0);
    assert path[|token| - 1] == '?';
    NotExact(path, '?');
    MissingCharNotContains(q, token, '?');
    ReplaceAbsent(q, token, "");
    ReplaceLeading(token, q, "");
  }

  /** Another route's token ending in '?' occurs in `<token><query>` only as a
      suffix of `token`. */
  lemma OtherToken(token: string, kvs: seq<(string, string)>, t: string)
    requires QueryToken(token) && |kvs| >= 1 && AsciiPairs(kvs)
    requires |t| >= 1 && t[|t| - 1] == '?'
    requires |t| > |token| || token[|token| - |t|..] != t
    ensures !Contains(token + EncodeQuery(kvs), t)
  {
    QueryLacks(kvs, '?');
    QuestionMarkTokens(token, EncodeQuery(kvs));
  }

  /** A query path that reaches a parameter route hands it the map `splitQuery` reads
      back from the encoded pairs. */
  lemma QueryMap(kvs: seq<(string, string)>, key: string) returns (m: LinkedMap)
    requires |kvs| >= 1 && AsciiPairs(kvs)
    ensures SplitQueryOf(EncodeQuery(kvs)) == Ok(m)
    ensures Get(m, key) == LastValue(kvs, key)
    ensures m.entries != []
  {
    SplitQueryEncode(kvs);
    m := SplitQueryOf(EncodeQuery(kvs)).value;
    assert LastValue(kvs, kvs[0].0).Some?;
    assert Get(m, kvs[0].0).Some?;
  }

  // ----------------------------------------------------------------------------
  // cat
  // ----------------------------------------------------------------------------

  /** `cat?` and a query go to cat, which reads the query back. */
  lemma CatRouted(kvs: seq<(string, string)>)
    requires |kvs| >= 1 && AsciiPairs(kvs)
    ensures RouteOf("cat?" + EncodeQuery(kvs)) == Cat
    ensures Replace("cat?" + EncodeQuery(kvs), "cat?", "") == EncodeQuery(kvs)
    ensures Trim(EncodeQuery(kvs)) != ""
  {
    QueryTokens();
    QueryPath("cat?", kvs);
    RoutePriority("cat?" + EncodeQuery(kvs));
  }

  /** A path routed to cat whose rest splits into `q` is answered by what cat
      decides on `q`. */
  lemma CatHandles(path: string, q: LinkedMap, env: Env)
    requires RouteOf(path) == Cat
    requires Trim(Replace(path, "cat?", "")) != "" && SplitQueryOf(Replace(path, "cat?", "")) == Ok(q)
    ensures Handle(path, env) == CatQuery(q, env)
  {
  }

  /** A query path that reaches cat: the answer is what the `kitty` lookup decides
      on the map `splitQuery` reads back. */
  lemma CatPath(kvs: seq<(string, string)>, env: Env) returns (m: LinkedMap)
    requires |kvs| >= 1 && AsciiPairs(kvs)
    ensures Get(m, "kitty") == LastValue(kvs, "kitty")
    ensures Handle("cat?" + EncodeQuery(kvs), env) == CatQuery(m, env)
  {
    var path := "cat?" + EncodeQuery(kvs);
    CatRouted(kvs);
    m := QueryMap(kvs, "kitty");
    CatHandles(path, m, env);
  }

  /** `cat?` with a query: the LAST `kitty` value decides; "1" and "2" send their
      pages, any other value is the range error and no `kitty` is the spelling error. */
  lemma CatRequest(kvs: seq<(string, string)>, env: Env)
    requires |kvs| >= 1 && AsciiPairs(kvs)
    ensures Handle("cat?" + EncodeQuery(kvs), env) ==
      match LastValue(kvs, "kitty")
      case None => Replied([Error400(KittyMissing)])
      case Some(v) =>
        if v == "1" then Page(env.kitty1)
        else if v == "2" then Page(env.kitty2)
        else Replied([Error400(KittyOutOfRange)])
  {
    var m := CatPath(kvs, env);
  }

  /** `cat?` followed by nothing but blanks is the 406 of the missing argument. */
  lemma CatBlank(blanks: string, env: Env)
    requires forall k :: 0 <= k < |blanks| ==> IsTrimmed(blanks[k])
    ensures Handle("cat?" + blanks, env) == Replied([Error406(CatNoArgument)])
  {
    var path := "cat?" + blanks;
    assert OccursAt(path, "cat?", 0);
    RoutePriority(path);
    assert 'c' !in blanks;
    MissingCharNotContains(blanks, "cat?", 'c');
    ReplaceAbsent(blanks, "cat?", "");
    ReplaceLeading("cat?", blanks, "");
  }

  // ----------------------------------------------------------------------------
  // integerChecker and ft_to_cm
  // ----------------------------------------------------------------------------

  /** Every rendered integer passes `integerChecker`. */
  lemma IntegerCheckerAccepts(x: int)
    ensures IntegerChecker(IntToString(x))
  {
    if x < 0 {
      NatToStringValue(-x);
      assert IntToString(x)[1..] == NatToString(-x);
    } else {
      NatToStringValue(x);
    }
  }

  /** On what `integerChecker` accepts, `parseInt` fails only by overflow. */
  lemma IntegerCheckerParse(s: string)
    requires IntegerChecker(s)
    ensures ParseInt(s) == if IsInt32(SignedValue(s)) then Some(SignedValue(s)) else None
  {
  }

  /** `integerChecker` is stricter than `parseInt`: a leading '+' parses but is refused. */
  lemma IntegerCheckerRefusesPlus()
    ensures ParseInt("+7") == Some(7) && !IntegerChecker("+7")
  {
    assert "+7"[1..] == "7";
    assert "7"[..0] == "";
  }

  /** A rendered number is plain ASCII, so a form encoder can write it. */
  lemma IntToStringAscii(x: int)
    ensures IsAscii(IntToString(x))
  {
    IntegerCheckerAccepts(x);
    var s := IntToString(x);
    forall k | 0 <= k < |s|
      ensures s[k] as int < 128
    {
      if k > 0 || s[0] != '-' {
        assert s[k] == (if s[0] == '-' then s[1..][k - 1] else s[k]);
      }
    }
  }

  /** ft_to_cm reaches 200 exactly when both keys are present, pass `integerChecker`
      and parse; the total is ft*12 + in with Java's wrap-around at each step. */
  lemma FtToCmAccepts(q: LinkedMap)
    ensures FtToCmQuery(q).Inches? <==>
      Get(q, "ft").Some? && IntegerChecker(Get(q, "ft").value) && ParseInt(Get(q, "ft").value).Some? &&
      Get(q, "in").Some? && IntegerChecker(Get(q, "in").value) && ParseInt(Get(q, "in").value).Some?
    ensures FtToCmQuery(q).Inches? ==>
      FtToCmQuery(q).total == Wrap32(ParseInt(Get(q, "in").value).value + Wrap32(ParseInt(Get(q, "ft").value).value * 12))
  {
  }

  /** Both values present, well-formed and in range: the total is ft*12 + in. */
  lemma FtToCmTotal(q: LinkedMap, ftText: string, inText: string, ft: int, inches: int)
    requires Get(q, "ft") == Some(ftText) && IntegerChecker(ftText) && ParseInt(ftText) == Some(ft)
    requires Get(q, "in") == Some(inText) && IntegerChecker(inText) && ParseInt(inText) == Some(inches)
    ensures FtToCmQuery(q) == Inches(Wrap32(inches + Wrap32(ft * 12)))
  {
  }

  /** ft is checked before in: without `ft` the answer names ft, whatever `in` holds. */
  lemma FtCheckedFirst(q: LinkedMap)
    ensures Get(q, "ft").None? ==> FtToCmQuery(q) == Refused(FtMissing)
    ensures Get(q, "ft").Some? && !IntegerChecker(Get(q, "ft").value) ==> FtToCmQuery(q) == Refused(FtNotInteger)
  {
  }

  /** The ft_to_cm token holds no "cat?", so cat does not take its paths. */
  lemma NoCatInFtToCm(kvs: seq<(string, string)>)
    requires |kvs| >= 1 && AsciiPairs(kvs)
    ensures !Contains("ft_to_cm?" + EncodeQuery(kvs), "cat?")
  {
    QueryTokens();
    assert "ft_to_cm?"[5..] != "cat?";
    OtherToken("ft_to_cm?", kvs, "cat?");
  }

  /** `ft_to_cm?` and a query go to ft_to_cm, which reads the query back. */
  lemma FtToCmRouted(kvs: seq<(string, string)>)
    requires |kvs| >= 1 && AsciiPairs(kvs)
    ensures RouteOf("ft_to_cm?" + EncodeQuery(kvs)) == FtToCm
    ensures Replace("ft_to_cm?" + EncodeQuery(kvs), "ft_to_cm?", "") == EncodeQuery(kvs)
    ensures Trim(EncodeQuery(kvs)) != ""
  {
    QueryTokens();
    QueryPath("ft_to_cm?", kvs);
    NoCatInFtToCm(kvs);
  }

  /** A path routed to ft_to_cm whose rest splits into `q` is answered by what the
      checks decide on `q`. */
  lemma FtToCmHandles(path: string, q: LinkedMap, env: Env)
    requires RouteOf(path) == FtToCm
    requires Trim(Replace(path, "ft_to_cm?", "")) != "" && SplitQueryOf(Replace(path, "ft_to_cm?", "")) == Ok(q)
    ensures Handle(path, env) ==
      match FtToCmQuery(q)
      case Refused(message) => Replied([Error400(message)])
      case Inches(total) => Replied([Reply(Ok200, Html, "This height in centimeters is " + env.centimeters(total))])
  {
  }

  /** A query path that reaches ft_to_cm: the answer is what the checks decide on
      the map `splitQuery` reads back. */
  lemma FtToCmPath(kvs: seq<(string, string)>, env: Env) returns (m: LinkedMap)
    requires |kvs| >= 1 && AsciiPairs(kvs)
    ensures Get(m, "ft") == LastValue(kvs, "ft") && Get(m, "in") == LastValue(kvs, "in")
    ensures Handle("ft_to_cm?" + EncodeQuery(kvs), env) ==
      match FtToCmQuery(m)
      case Refused(message) => Replied([Error400(message)])
      case Inches(total) => Replied([Reply(Ok200, Html, "This height in centimeters is " + env.centimeters(total))])
  {
    var path := "ft_to_cm?" + EncodeQuery(kvs);
    FtToCmRouted(kvs);
    m := QueryMap(kvs, "ft");
    var m' := QueryMap(kvs, "in");
    FtToCmHandles(path, m, env);
  }

  /** The query `ft=<ft>&in=<in>` as a form would send it. */
  function FtInQuery(ft: string, inches: string): (kvs: seq<(string, string)>)
    ensures LastValue(kvs, "ft") == Some(ft) && LastValue(kvs, "in") == Some(inches)
  {
    [("ft", ft), ("in", inches)]
  }

  /** An ft_to_cm request whose two values pass `integerChecker` and parse sends 200
      with the rendering of ft*12 + in, wrapped as Java's `int` arithmetic wraps. */
  lemma FtToCmNumbers(ftText: string, inText: string, ft: int, inches: int, env: Env)
    requires AsciiPairs(FtInQuery(ftText, inText))
    requires IntegerChecker(ftText) && ParseInt(ftText) == Some(ft)
    requires IntegerChecker(inText) && ParseInt(inText) == Some(inches)
    ensures Handle("ft_to_cm?" + EncodeQuery(FtInQuery(ftText, inText)), env) ==
      Replied([Reply(Ok200, Html, "This height in centimeters is " + env.centimeters(Wrap32(inches + Wrap32(ft * 12))))])
  {
    var m := FtToCmPath(FtInQuery(ftText, inText), env);
    assert Get(m, "ft") == Some(ftText) && Get(m, "in") == Some(inText);
    FtToCmTotal(m, ftText, inText, ft, inches);
  }

  /** Any two `int`s, rendered and sent by a form, convert. */
  lemma FtToCmRequest(ft: int, inches: int, env: Env)
    requires IsInt32(ft) && IsInt32(inches)
    ensures AsciiPairs(FtInQuery(IntToString(ft), IntToString(inches)))
    ensures Handle("ft_to_cm?" + EncodeQuery(FtInQuery(IntToString(ft), IntToString(inches))), env) ==
      Replied([Reply(Ok200, Html, "This height in centimeters is " + env.centimeters(Wrap32(inches + Wrap32(ft * 12))))])
  {
    IntToStringAscii(ft);
    IntToStringAscii(inches);
    IntegerCheckerAccepts(ft);
    IntegerCheckerAccepts(inches);
    ParseIntToString(ft);
    ParseIntToString(inches);
    FtToCmNumbers(IntToString(ft), IntToString(inches), ft, inches, env);
  }

  /** "9999999999" passes `integerChecker` but does not fit an `int`. */
  lemma Overflows()
    ensures IntegerChecker("9999999999") && ParseInt("9999999999") == None
  {
    var s := "9999999999";
    assert AllDigits(s);
    assert DecimalValue(s[..1]) == 9;
    assert s[..2][..1] == s[..1];
    assert DecimalValue(s[..2]) == 99;
    assert s[..3][..2] == s[..2];
    assert DecimalValue(s[..3]) == 999;
    assert s[..4][..3] == s[..3];
    assert DecimalValue(s[..4]) == 9999;
    assert s[..5][..4] == s[..4];
    assert DecimalValue(s[..5]) == 99999;
    assert s[..6][..5] == s[..5];
    assert DecimalValue(s[..6]) == 999999;
    assert s[..7][..6] == s[..6];
    assert DecimalValue(s[..7]) == 9999999;
    assert s[..8][..7] == s[..7];
    assert DecimalValue(s[..8]) == 99999999;
    assert s[..9][..8] == s[..8];
    assert DecimalValue(s[..9]) == 999999999;
    assert s[..10][..9] == s[..9];
    assert s[..10] == s;
  }

  /** An ft that passes `integerChecker` but overflows an `int` is answered with the
      400 carrying the NumberFormatException's message. */
  lemma FtOverflow(env: Env)
    ensures AsciiPairs(FtInQuery("9999999999", "0"))
    ensures Handle("ft_to_cm?" + EncodeQuery(FtInQuery("9999999999", "0")), env) ==
      Replied([Error400(NumberFormatMessage("9999999999"))])
  {
    var kvs := FtInQuery("9999999999", "0");
    assert AsciiPairs(kvs);
    var m := FtToCmPath(kvs, env);
    FtOverflowQuery(m);
  }

  /** A query whose ft overflows is refused with the NumberFormatException's message. */
  lemma FtOverflowQuery(q: LinkedMap)
    requires Get(q, "ft") == Some("9999999999")
    ensures FtToCmQuery(q) == Refused(NumberFormatMessage("9999999999"))
  {
    Overflows();
  }

  // ----------------------------------------------------------------------------
  // multiply
  // ----------------------------------------------------------------------------

  /** No earlier route's token occurs in `multiply?<query>`. */
  lemma MultiplyNotEarlier(kvs: seq<(string, string)>)
    requires |kvs| >= 1 && AsciiPairs(kvs)
    ensures !Contains("multiply?" + EncodeQuery(kvs), "cat?")
    ensures !Contains("multiply?" + EncodeQuery(kvs), "ft_to_cm?")
    ensures !Contains("multiply?" + EncodeQuery(kvs), "file/")
  {
    QueryTokens();
    assert "multiply?"[5..] != "cat?";
    OtherToken("multiply?", kvs, "cat?");
    assert "multiply?"[0..] != "ft_to_cm?";
    OtherToken("multiply?", kvs, "ft_to_cm?");
    QueryPath("multiply?", kvs);
    MissingCharNotContains("multiply?" + EncodeQuery(kvs), "file/", '/');
  }

  /** `multiply?` and a query go to multiply, which reads the query back. */
  lemma MultiplyRouted(kvs: seq<(string, string)>)
    requires |kvs| >= 1 && AsciiPairs(kvs)
    ensures RouteOf("multiply?" + EncodeQuery(kvs)) == Multiply
    ensures Replace("multiply?" + EncodeQuery(kvs), "multiply?", "") == EncodeQuery(kvs)
    ensures Trim(EncodeQuery(kvs)) != ""
  {
    QueryTokens();
    QueryPath("multiply?", kvs);
    MultiplyNotEarlier(kvs);
    RoutePriority("multiply?" + EncodeQuery(kvs));
  }

  /** A path routed to multiply whose rest splits into `q` is answered by what
      multiply decides on `q`. */
  lemma MultiplyHandles(path: string, q: LinkedMap, env: Env)
    requires RouteOf(path) == Multiply
    requires Trim(Replace(path, "multiply?", "")) != "" && SplitQueryOf(Replace(path, "multiply?", "")) == Ok(q)
    ensures Handle(path, env) == MultiplyQuery(q)
  {
  }

  /** A query path that reaches multiply: the answer is what the factor lookups
      decide on the non-empty map `splitQuery` reads back. */
  lemma MultiplyPath(kvs: seq<(string, string)>, env: Env) returns (m: LinkedMap)
    requires |kvs| >= 1 && AsciiPairs(kvs)
    ensures m.entries != []
    ensures Get(m, "num1") == LastValue(kvs, "num1") && Get(m, "num2") == LastValue(kvs, "num2")
    ensures Handle("multiply?" + EncodeQuery(kvs), env) == MultiplyQuery(m)
  {
    var path := "multiply?" + EncodeQuery(kvs);
    MultiplyRouted(kvs);
    m := QueryMap(kvs, "num1");
    var m' := QueryMap(kvs, "num2");
    MultiplyHandles(path, m, env);
  }

  /** Both factors present and numeric: 200 with their product, wrapped to an `int`. */
  lemma MultiplyBothQuery(q: LinkedMap, a: string, b: string, x: int, y: int)
    requires Get(q, "num1") == Some(a) && ParseInt(a) == Some(x)
    requires Get(q, "num2") == Some(b) && ParseInt(b) == Some(y)
    ensures MultiplyQuery(q) == Replied([Reply(Ok200, Html, ResultText(Wrap32(x * y)))])
  {
  }

  /** Only num1, numeric: it is multiplied by the default 5. */
  lemma MultiplyFirstQuery(q: LinkedMap, a: string, x: int)
    requires Get(q, "num1") == Some(a) && ParseInt(a) == Some(x) && Get(q, "num2") == None
    ensures MultiplyQuery(q) == Replied([Reply(Ok200, Html, ResultText(Wrap32(x * 5)))])
  {
  }

  /** Only num2, numeric: the default 5 is multiplied by it. */
  lemma MultiplySecondQuery(q: LinkedMap, b: string, y: int)
    requires Get(q, "num1") == None && Get(q, "num2") == Some(b) && ParseInt(b) == Some(y)
    ensures MultiplyQuery(q) == Replied([Reply(Ok200, Html, ResultText(Wrap32(5 * y)))])
  {
  }

  /** A non-empty query naming neither factor: 400 with an empty body. */
  lemma MultiplyNeitherQuery(q: LinkedMap)
    requires q.entries != [] && Get(q, "num1") == None && Get(q, "num2") == None
    ensures MultiplyQuery(q) == Replied([Reply(BadRequest400, Html, "")])
  {
  }

  /** A num1 that does not parse escapes, whether or not num2 is there. */
  lemma MultiplyNotANumberQuery(q: LinkedMap, a: string)
    requires Get(q, "num1") == Some(a) && ParseInt(a) == None
    ensures MultiplyQuery(q) == Crashed(NotAnInteger(a))
  {
  }

  /** A request naming both factors answers their product; either one alone is
      multiplied by 5. */
  lemma MultiplyRequest(kvs: seq<(string, string)>, a: string, b: string, x: int, y: int, env: Env)
    requires |kvs| >= 1 && AsciiPairs(kvs)
    requires LastValue(kvs, "num1") == Some(a) && ParseInt(a) == Some(x)
    requires LastValue(kvs, "num2") == Some(b) && ParseInt(b) == Some(y)
    ensures Handle("multiply?" + EncodeQuery(kvs), env) == Replied([Reply(Ok200, Html, ResultText(Wrap32(x * y)))])
  {
    var m := MultiplyPath(kvs, env);
    MultiplyBothQuery(m, a, b, x, y);
  }

  /** num1 alone is multiplied by the default 5. */
  lemma MultiplyFirstOnly(kvs: seq<(string, string)>, a: string, x: int, env: Env)
    requires |kvs| >= 1 && AsciiPairs(kvs)
    requires LastValue(kvs, "num1") == Some(a) && ParseInt(a) == Some(x) && LastValue(kvs, "num2") == None
    ensures Handle("multiply?" + EncodeQuery(kvs), env) == Replied([Reply(Ok200, Html, ResultText(Wrap32(x * 5)))])
  {
    var m := MultiplyPath(kvs, env);
    MultiplyFirstQuery(m, a, x);
  }

  /** num2 alone multiplies the default 5. */
  lemma MultiplySecondOnly(kvs: seq<(string, string)>, b: string, y: int, env: Env)
    requires |kvs| >= 1 && AsciiPairs(kvs)
    requires LastValue(kvs, "num1") == None && LastValue(kvs, "num2") == Some(b) && ParseInt(b) == Some(y)
    ensures Handle("multiply?" + EncodeQuery(kvs), env) == Replied([Reply(Ok200, Html, ResultText(Wrap32(5 * y)))])
  {
    var m := MultiplyPath(kvs, env);
    MultiplySecondQuery(m, b, y);
  }

  /** A query naming neither factor is a 400 with an empty body. */
  lemma MultiplyNeither(kvs: seq<(string, string)>, env: Env)
    requires |kvs| >= 1 && AsciiPairs(kvs)
    requires LastValue(kvs, "num1") == None && LastValue(kvs, "num2") == None
    ensures Handle("multiply?" + EncodeQuery(kvs), env) == Replied([Reply(BadRequest400, Html, "")])
  {
    var m := MultiplyPath(kvs, env);
    MultiplyNeitherQuery(m);
  }

  /** A num1 that `parseInt` refuses escapes as an uncaught NumberFormatException,
      whatever num2 holds. */
  lemma MultiplyNotANumber(kvs: seq<(string, string)>, a: string, env: Env)
    requires |kvs| >= 1 && AsciiPairs(kvs)
    requires LastValue(kvs, "num1") == Some(a) && ParseInt(a) == None
    ensures Handle("multiply?" + EncodeQuery(kvs), env) == Crashed(NotAnInteger(a))
  {
    var m := MultiplyPath(kvs, env);
    MultiplyNotANumberQuery(m, a);
  }

  /** A path routed to multiply whose rest is blank multiplies the defaults. */
  lemma MultiplyHandlesBlank(path: string, env: Env)
    requires RouteOf(path) == Multiply && Trim(Replace(path, "multiply?", "")) == ""
    ensures Handle(path, env) == MultiplyQuery(Empty)
  {
  }

  /** With no query at all the defaults 5 and 5 are multiplied: "Default Result is: 25". */
  lemma MultiplyDefaultQuery()
    ensures MultiplyQuery(Empty) == Replied([Reply(Ok200, Html, "Default Result is: 25")])
  {
    Wrap32Wraps(5 * 5);
    assert NatToString(25) == NatToString(2) + [DigitChar(5)];
    assert IntToString(Wrap32(5 * 5)) == "25";
    assert "Default Result is: " + "25" == "Default Result is: 25";
    assert Empty.entries == [];
  }

  /** No earlier route's token occurs in `multiply?` followed by blanks. */
  lemma MultiplyBlankNotEarlier(blanks: string)
    requires forall k :: 0 <= k < |blanks| ==> IsTrimmed(blanks[k])
    ensures !Contains("multiply?" + blanks, "cat?")
    ensures !Contains("multiply?" + blanks, "ft_to_cm?")
    ensures !Contains("multiply?" + blanks, "file/")
  {
    assert '?' !in blanks && '/' !in blanks;
    QuestionMarkTokens("multiply?", blanks);
    assert "multiply?"[5..] != "cat?";
    assert "multiply?"[0..] != "ft_to_cm?";
    MissingCharNotContains("multiply?" + blanks, "file/", '/');
  }

  /** `multiply?` followed by blanks goes to multiply, and removing the token leaves
      the blanks. */
  lemma MultiplyBlankRouted(blanks: string)
    requires forall k :: 0 <= k < |blanks| ==> IsTrimmed(blanks[k])
    ensures RouteOf("multiply?" + blanks) == Multiply
    ensures Replace("multiply?" + blanks, "multiply?", "") == blanks
  {
    var path := "multiply?" + blanks;
    MultiplyBlankNotEarlier(blanks);
    assert OccursAt(path, "multiply?", 0);
    RoutePriority(path);
    assert path[8] == '?';
    NotExact(path, '?');
    assert '?' !in blanks;
    MissingCharNotContains(blanks, "multiply?", '?');
    ReplaceAbsent(blanks, "multiply?", "");
    ReplaceLeading("multiply?", blanks, "");
  }

  /** `multiply?` followed by nothing but blanks answers the default product. */
  lemma MultiplyDefault(blanks: string, env: Env)
    requires forall k :: 0 <= k < |blanks| ==> IsTrimmed(blanks[k])
    ensures Handle("multiply?" + blanks, env) == Replied([Reply(Ok200, Html, "Default Result is: 25")])
  {
    MultiplyBlankRouted(blanks);
    TrimEmpty(blanks);
    MultiplyHandlesBlank("multiply?" + blanks, env);
    MultiplyDefaultQuery();
  }

  // ----------------------------------------------------------------------------
  // github
  // ----------------------------------------------------------------------------

  /** No earlier route's token occurs in `github?<query>`. */
  lemma GithubNotEarlier(kvs: seq<(string, string)>)
    requires |kvs| >= 1 && AsciiPairs(kvs)
    ensures !Contains("github?" + EncodeQuery(kvs), "cat?")
    ensures !Contains("github?" + EncodeQuery(kvs), "ft_to_cm?")
    ensures !Contains("github?" + EncodeQuery(kvs), "file/")
    ensures !Contains("github?" + EncodeQuery(kvs), "multiply?")
  {
    QueryTokens();
    assert "github?"[3..] != "cat?";
    OtherToken("github?", kvs, "cat?");
    OtherToken("github?", kvs, "ft_to_cm?");
    OtherToken("github?", kvs, "multiply?");
    QueryPath("github?", kvs);
    MissingCharNotContains("github?" + EncodeQuery(kvs), "file/", '/');
  }

  /** `github?` and a query go to github, which reads the query back. */
  lemma GithubRouted(kvs: seq<(string, string)>)
    requires |kvs| >= 1 && AsciiPairs(kvs)
    ensures RouteOf("github?" + EncodeQuery(kvs)) == Github
    ensures Replace("github?" + EncodeQuery(kvs), "github?", "") == EncodeQuery(kvs)
  {
    QueryTokens();
    QueryPath("github?", kvs);
    GithubNotEarlier(kvs);
    RoutePriority("github?" + EncodeQuery(kvs));
  }

  /** A path routed to github whose rest splits into `q` is answered by what the
      fetch of the URL built from `q` delivers. */
  lemma GithubHandles(path: string, q: LinkedMap, env: Env)
    requires RouteOf(path) == Github && SplitQueryOf(Replace(path, "github?", "")) == Ok(q)
    ensures Handle(path, env) == Fetched(env.github(GithubUrl(q)))
  {
  }

  /** `github?` with a query fetches the API URL ending in the LAST `query` value, or
      in "null" when there is none, and answers with what that fetch delivers. */
  lemma GithubRequest(kvs: seq<(string, string)>, env: Env)
    requires |kvs| >= 1 && AsciiPairs(kvs)
    ensures Handle("github?" + EncodeQuery(kvs), env) ==
      Fetched(env.github(GithubApi + match LastValue(kvs, "query") case Some(v) => v case None => "null"))
  {
    GithubRouted(kvs);
    var m := QueryMap(kvs, "query");
    GithubHandles("github?" + EncodeQuery(kvs), m, env);
  }

  /** A fetch that delivers the whole array answers 200 with three lines per
      repository, in array order. */
  lemma GithubListing(a: seq<Repo>, b: seq<Repo>)
    ensures Fetched(Repos(a + b, None)) == Replied([Reply(Ok200, Html, RepoBlocks(a) + RepoBlocks(b))])
  {
    RepoBlocksAppend(a, b);
  }

  // ----------------------------------------------------------------------------
  // file
  // ----------------------------------------------------------------------------

  /** A path routed to file is answered by whether the normalised rest exists. */
  lemma FileHandles(path: string, env: Env)
    requires RouteOf(path) == File
    ensures Handle(path, env) == FileRoute(path, env)
  {
  }

  /** `file/<p>` without an earlier token tests the path `java.io.File` keeps for `p`
      with every "file/" removed: 200 with the placeholder when it exists, 404 naming it
      otherwise; when `p` holds no further "file/", that path is `p` normalised. */
  lemma FileRequest(p: string, env: Env)
    requires !Contains("file/" + p, "cat?") && !Contains("file/" + p, "ft_to_cm?")
    ensures var file := NormalizePath(Replace(p, "file/", ""));
      Handle("file/" + p, env) ==
        if env.fileExists(file) then Replied([Reply(Ok200, Html, FilePlaceholder)])
        else Replied([Reply(NotFound404, Html, "File not found: " + file)])
    ensures !Contains(p, "file/") ==> Replace(p, "file/", "") == p
  {
    var path := "file/" + p;
    assert OccursAt(path, "file/", 0);
    RoutePriority(path);
    FileHandles(path, env);
    ReplaceLeading("file/", p, "");
    assert "" + Replace(p, "file/", "") == Replace(p, "file/", "");
    if !Contains(p, "file/") {
      ReplaceAbsent(p, "file/", "");
    }
  }

  // ----------------------------------------------------------------------------
  // The fallback
  // ----------------------------------------------------------------------------

  /** A non-empty path that is neither `json` nor `random` and holds none of the five
      tokens is answered with the 400 of the fallback. */
  lemma Unrecognised(path: string, env: Env)
    requires |path| > 0 && !EqualsIgnoreCase(path, "json") && !EqualsIgnoreCase(path, "random")
    requires !Contains(path, "cat?") && !Contains(path, "ft_to_cm?") && !Contains(path, "file/")
    requires !Contains(path, "multiply?") && !Contains(path, "github?")
    ensures Handle(path, env) == Replied([Reply(BadRequest400, Html, Fallback)])
  {
  }

  // ----------------------------------------------------------------------------
  // Whole requests
  // ----------------------------------------------------------------------------

  /** A request line `GET /<path> <version>`, header fields without GET lines and the
      empty line: the answer is the route of `path`, and nothing after the empty line
      is read. */
  lemma GetRequest(path: string, version: string, fields: seq<string>, body: seq<string>, end: StreamEnd, env: Env)
    requires ' ' !in path
    requires forall k :: 0 <= k < |fields| ==> fields[k] != "" && !IsGetLine(fields[k])
    ensures Respond(ReadHeader(Stream(["GET /" + path + " " + version] + fields + [""] + body, end)), env) ==
            Conclude(Handle(path, env))
  {
    var line := "GET /" + path + " " + version;
    assert line == "GET" + [' ', '/'] + path + [' '] + version;
    ExtractPathOf("GET", '/', path, version);
    assert line[..3] == "GET";
    var lines := [line] + fields;
    assert forall k :: 0 < k < |lines| ==> lines[k] == fields[k - 1];
    StopsAtBlank(lines, body, end, None);
    LastGetWins(lines, 0, None);
  }

  /** A header without a GET line is answered with the "no GET" page. */
  lemma NoGetRequest(fields: seq<string>, body: seq<string>, end: StreamEnd, env: Env)
    requires forall k :: 0 <= k < |fields| ==> fields[k] != "" && !IsGetLine(fields[k])
    ensures Respond(ReadHeader(Stream(fields + [""] + body, end)), env) == Sent(NoGetPage)
  {
    StopsAtBlank(fields, body, end, None);
    NoGetLine(fields);
  }
}
