/** The parts of java.lang.String and java.lang.Integer that the web server relies on,
    with Java's semantics written out: strings are sequences of Unicode scalar values
    (`char`), which for well-formed text agree with Java's UTF-16 strings on every
    operation modelled here, and `int` arithmetic wraps at 32 bits. */
module JavaLang {

  datatype Option<T> = None | Some(value: T)

  datatype Result<T, E> = Ok(value: T) | Err(error: E)

  // ----------------------------------------------------------------------------
  // Strings
  // ----------------------------------------------------------------------------

  /** `s.startsWith(prefix)` */
  predicate StartsWith(s: string, prefix: string) {
    |prefix| <= |s| && s[..|prefix|] == prefix
  }

  /** `t` occurs in `s` starting at index `k`. */
  predicate OccursAt(s: string, t: string, k: int) {
    0 <= k && k + |t| <= |s| && s[k..k + |t|] == t
  }

  /** `s.contains(t)` */
  predicate Contains(s: string, t: string) {
    exists k | 0 <= k <= |s| - |t| :: OccursAt(s, t, k)
  }

  /** `s.indexOf(c, from)` for a one-character pattern: the first index at or after
      `from` that holds `c`, or -1 when there is none. */
  function IndexOf(s: string, c: char, from: nat): (r: int)
    ensures r != -1 ==> from <= r < |s| && s[r] == c
    decreases |s| - from
  {
    if from >= |s| then -1
    else if s[from] == c then from
    else IndexOf(s, c, from + 1)
  }

  /** `IndexOf` finds the first `c` at or after `from`: none lies before its answer,
      and -1 means there is none at all. */
  lemma {:induction false} IndexOfFirst(s: string, c: char, from: nat)
    ensures IndexOf(s, c, from) == -1 ==> forall k :: from <= k < |s| ==> s[k] != c
    ensures IndexOf(s, c, from) != -1 ==> forall k :: from <= k < IndexOf(s, c, from) ==> s[k] != c
    decreases |s| - from
  {
    if from < |s| && s[from] != c {
      IndexOfFirst(s, c, from + 1);
    }
  }

  /** The first `c` at or after `from` is what `IndexOf` finds. */
  lemma {:induction false} IndexOfAt(s: string, c: char, from: nat, i: nat)
    requires from <= i < |s| && s[i] == c
    requires forall k :: from <= k < i ==> s[k] != c
    ensures IndexOf(s, c, from) == i
    decreases i - from
  {
    if from < i {
      IndexOfAt(s, c, from + 1, i);
    }
  }

  /** If `t` does not occur in `s`, it does not occur in any suffix of `s` either. */
  lemma {:induction false} NotContainsSuffix(s: string, t: string, i: nat)
    requires i <= |s| && !Contains(s, t)
    ensures !Contains(s[i..], t)
  {
    if Contains(s[i..], t) {
      var k :| 0 <= k <= |s[i..]| - |t| && OccursAt(s[i..], t, k);
      assert s[i..][k..k + |t|] == s[i + k..i + k + |t|];
      assert OccursAt(s, t, i + k);
    }
  }

  /** A string lacking some character of `t` cannot contain `t`. */
  lemma MissingCharNotContains(s: string, t: string, c: char)
    requires c in t && c !in s
    ensures !Contains(s, t)
  {
    forall k | 0 <= k <= |s| - |t|
      ensures !OccursAt(s, t, k)
    {
      var j :| 0 <= j < |t| && t[j] == c;
      assert s[k..k + |t|][j] == s[k + j];
    }
  }

  /** `s.replace(target, replacement)`: every occurrence of `target`, found scanning
      left to right without overlap, is replaced. */
  function Replace(s: string, target: string, replacement: string): (r: string)
    requires target != []
    decreases |s|
  {
    if |s| < |target| then s
    else if s[..|target|] == target then replacement + Replace(s[|target|..], target, replacement)
    else [s[0]] + Replace(s[1..], target, replacement)
  }

  /** Replacing a target that does not occur leaves the string as it is. */
  lemma {:induction false} ReplaceAbsent(s: string, target: string, replacement: string)
    requires target != [] && !Contains(s, target)
    ensures Replace(s, target, replacement) == s
    decreases |s|
  {
    if |s| >= |target| {
      assert !OccursAt(s, target, 0);
      NotContainsSuffix(s, target, 1);
      ReplaceAbsent(s[1..], target, replacement);
    }
  }

  /** An occurrence at the very start is replaced and the scan resumes after it. */
  lemma ReplaceLeading(target: string, rest: string, replacement: string)
    requires target != []
    ensures Replace(target + rest, target, replacement) == replacement + Replace(rest, target, replacement)
  {
    assert (target + rest)[..|target|] == target;
    assert (target + rest)[|target|..] == rest;
  }

  /** String concatenation regroups freely. */
  lemma Associative(a: string, b: string, c: string)
    ensures a + b + c == a + (b + c)
  {
  }

  /** The characters `String.trim` removes: every code unit up to U+0020. */
  predicate IsTrimmed(c: char) {
    c <= ' '
  }

  /** `s` with its leading trimmed characters removed. */
  function TrimStart(s: string): (r: string)
    ensures |r| <= |s| && r == s[|s| - |r|..]
    ensures r != [] ==> !IsTrimmed(r[0])
    decreases |s|
  {
    if s != [] && IsTrimmed(s[0]) then TrimStart(s[1..]) else s
  }

  /** Everything `TrimStart` drops is a trimmed character. */
  lemma {:induction false} TrimStartDrops(s: string)
    ensures forall k :: 0 <= k < |s| - |TrimStart(s)| ==> IsTrimmed(s[k])
    decreases |s|
  {
    if s != [] && IsTrimmed(s[0]) {
      TrimStartDrops(s[1..]);
      assert forall k :: 1 <= k < |s| ==> s[k] == s[1..][k - 1];
    }
  }

  /** `s` with its trailing trimmed characters removed. */
  function TrimEnd(s: string): (r: string)
    ensures |r| <= |s| && r == s[..|r|]
    ensures r != [] ==> !IsTrimmed(r[|r| - 1])
    decreases |s|
  {
    if s != [] && IsTrimmed(s[|s| - 1]) then TrimEnd(s[..|s| - 1]) else s
  }

  /** Everything `TrimEnd` drops is a trimmed character. */
  lemma {:induction false} TrimEndDrops(s: string)
    ensures forall k :: |TrimEnd(s)| <= k < |s| ==> IsTrimmed(s[k])
    decreases |s|
  {
    if s != [] && IsTrimmed(s[|s| - 1]) {
      TrimEndDrops(s[..|s| - 1]);
    }
  }

  /** `s.trim()` */
  function Trim(s: string): (r: string)
    ensures r != [] ==> !IsTrimmed(r[0]) && !IsTrimmed(r[|r| - 1])
  {
    var t := TrimStart(s);
    TrimEnd(t)
  }

  /** `s.trim()` is empty exactly when every character of `s` is trimmed. */
  lemma TrimEmpty(s: string)
    ensures Trim(s) == [] <==> forall k :: 0 <= k < |s| ==> IsTrimmed(s[k])
  {
    var t := TrimStart(s);
    TrimStartDrops(s);
    TrimEndDrops(t);
    assert forall k :: |s| - |t| <= k < |s| ==> s[k] == t[k - (|s| - |t|)];
  }

  /** Java's `Character.toLowerCase` restricted to the ASCII letters. */
  function ToLowerAscii(c: char): char {
    if 'A' <= c <= 'Z' then (c as int + 32) as char else c
  }

  /** `a.equalsIgnoreCase(b)`, with ASCII case folding. */
  predicate EqualsIgnoreCase(a: string, b: string) {
    |a| == |b| && forall k :: 0 <= k < |a| ==> ToLowerAscii(a[k]) == ToLowerAscii(b[k])
  }

  /** The pieces of `s` between occurrences of `sep`, empty pieces included. */
  function Pieces(s: string, sep: char): (ps: seq<string>)
    ensures |ps| >= 1
    decreases |s|
  {
    var i := IndexOf(s, sep, 0);
    if i == -1 then [s] else [s[..i]] + Pieces(s[i + 1..], sep)
  }

  /** No piece holds the separator. */
  lemma {:induction false} PiecesLackSeparator(s: string, sep: char)
    ensures forall i :: 0 <= i < |Pieces(s, sep)| ==> sep !in Pieces(s, sep)[i]
    decreases |s|
  {
    var i := IndexOf(s, sep, 0);
    IndexOfFirst(s, sep, 0);
    if i != -1 {
      PiecesLackSeparator(s[i + 1..], sep);
      var ps := Pieces(s, sep);
      assert ps == [s[..i]] + Pieces(s[i + 1..], sep);
      assert forall j :: 1 <= j < |ps| ==> ps[j] == Pieces(s[i + 1..], sep)[j - 1];
    }
  }

  /** `String.join`: the pieces with `sep` between each two neighbours. */
  function Join(ps: seq<string>, sep: char): string {
    if |ps| == 0 then ""
    else if |ps| == 1 then ps[0]
    else ps[0] + [sep] + Join(ps[1..], sep)
  }

  /** `ps` without its trailing empty strings: only empty strings are dropped, and
      the last one kept is not empty. */
  function DropTrailingEmpty(ps: seq<string>): (r: seq<string>)
    ensures |r| <= |ps| && r == ps[..|r|]
    ensures forall k :: |r| <= k < |ps| ==> ps[k] == ""
    ensures r != [] ==> r[|r| - 1] != ""
  {
    if |ps| > 0 && ps[|ps| - 1] == "" then DropTrailingEmpty(ps[..|ps| - 1]) else ps
  }

  /** `s.split(sep)` for a separator that is one literal character: `[s]` when `sep`
      does not occur, otherwise the pieces without the trailing empty ones. */
  function Split(s: string, sep: char): seq<string> {
    if sep !in s then [s] else DropTrailingEmpty(Pieces(s, sep))
  }

  /** No element of `s.split(sep)` holds the separator. */
  lemma SplitLacksSeparator(s: string, sep: char)
    ensures forall i :: 0 <= i < |Split(s, sep)| ==> sep !in Split(s, sep)[i]
  {
    if sep in s {
      PiecesLackSeparator(s, sep);
    }
  }

  /** Joining the pieces gives back the string. */
  lemma {:induction false} JoinPieces(s: string, sep: char)
    ensures Join(Pieces(s, sep), sep) == s
    decreases |s|
  {
    var i := IndexOf(s, sep, 0);
    if i != -1 {
      JoinPieces(s[i + 1..], sep);
      assert s == s[..i] + [sep] + s[i + 1..];
    }
  }

  /** Pieces free of the separator come back from `Pieces` of their join. */
  lemma {:induction false} PiecesJoin(ps: seq<string>, sep: char)
    requires |ps| >= 1
    requires forall i :: 0 <= i < |ps| ==> sep !in ps[i]
    ensures Pieces(Join(ps, sep), sep) == ps
  {
    if |ps| > 1 {
      var s := Join(ps, sep);
      assert s == ps[0] + [sep] + Join(ps[1..], sep);
      assert s[|ps[0]|] == sep;
      assert forall k :: 0 <= k < |ps[0]| ==> s[k] == ps[0][k];
      IndexOfAt(s, sep, 0, |ps[0]|);
      assert s[..|ps[0]|] == ps[0];
      assert s[|ps[0]| + 1..] == Join(ps[1..], sep);
      PiecesJoin(ps[1..], sep);
    }
  }

  /** `split` undoes `join` for non-empty pieces free of the separator whose last
      piece is not empty (the only shape `split` itself can produce besides `[""]`). */
  lemma SplitJoin(ps: seq<string>, sep: char)
    requires |ps| >= 1
    requires forall i :: 0 <= i < |ps| ==> sep !in ps[i]
    requires |ps| == 1 || ps[|ps| - 1] != ""
    ensures Split(Join(ps, sep), sep) == ps
  {
    if |ps| > 1 {
      var s := Join(ps, sep);
      assert s == ps[0] + [sep] + Join(ps[1..], sep);
      assert s[|ps[0]|] == sep;
      PiecesJoin(ps, sep);
    }
  }

  // ----------------------------------------------------------------------------
  // Integers
  // ----------------------------------------------------------------------------

  const IntMin: int := -0x8000_0000
  const IntMax: int := 0x7fff_ffff

  /** The values of a Java `int`. */
  predicate IsInt32(x: int) {
    IntMin <= x <= IntMax
  }

  /** Java `int` arithmetic: the value congruent to `x` modulo 2^32 in the `int` range. */
  function Wrap32(x: int): int {
    (x - IntMin) % 0x1_0000_0000 + IntMin
  }

  /** `Wrap32` lands in the `int` range, differs from its argument by a multiple of
      2^32 and leaves an `int` as it is. */
  lemma Wrap32Wraps(x: int)
    ensures IsInt32(Wrap32(x))
    ensures (x - Wrap32(x)) % 0x1_0000_0000 == 0
    ensures IsInt32(x) ==> Wrap32(x) == x
  {
  }

  predicate IsDigit(c: char) {
    '0' <= c <= '9'
  }

  predicate AllDigits(s: string) {
    forall k :: 0 <= k < |s| ==> IsDigit(s[k])
  }

  /** The value of a string of decimal digits. */
  function DecimalValue(s: string): nat
    requires AllDigits(s)
  {
    if s == [] then 0 else DecimalValue(s[..|s| - 1]) * 10 + (s[|s| - 1] as int - '0' as int)
  }

  /** `Integer.parseInt(s)`: `None` stands for the NumberFormatException it throws on
      an empty string, a lone sign, a non-digit or a value outside the `int` range. */
  function ParseInt(s: string): (r: Option<int>)
    ensures r.Some? ==> IsInt32(r.value)
  {
    if |s| == 0 then None
    else
      var digits := if s[0] == '-' || s[0] == '+' then s[1..] else s;
      if |digits| == 0 || !AllDigits(digits) then None
      else
        var v: int := if s[0] == '-' then -(DecimalValue(digits) as int) else DecimalValue(digits);
        if IsInt32(v) then Some(v) else None
  }

  function DigitChar(d: nat): char
    requires d < 10
  {
    ('0' as int + d) as char
  }

  /** The decimal rendering of a natural number. */
  function NatToString(n: nat): (s: string)
    ensures |s| >= 1
  {
    if n < 10 then [DigitChar(n)] else NatToString(n / 10) + [DigitChar(n % 10)]
  }

  /** The rendering is a string of digits without leading zeros whose value is `n`. */
  lemma {:induction false} NatToStringValue(n: nat)
    ensures AllDigits(NatToString(n)) && DecimalValue(NatToString(n)) == n
    ensures |NatToString(n)| > 1 ==> NatToString(n)[0] != '0'
  {
    if n >= 10 {
      NatToStringValue(n / 10);
      var s := NatToString(n);
      assert s[..|s| - 1] == NatToString(n / 10);
    }
  }

  /** `Integer.toString(x)` (also `Long.toString`, and `"" + x`): a minus sign for a
      negative value, then the digits of its magnitude. */
  function IntToString(x: int): (s: string)
    ensures |s| >= 1
  {
    if x < 0 then "-" + NatToString(-x) else NatToString(x)
  }

  /** `parseInt` reads back every `int` that `toString` renders. */
  lemma ParseIntToString(x: int)
    requires IsInt32(x)
    ensures ParseInt(IntToString(x)) == Some(x)
  {
    var s := IntToString(x);
    if x < 0 {
      NatToStringValue(-x);
      assert s[1..] == NatToString(-x);
    } else {
      NatToStringValue(x);
    }
  }
}
