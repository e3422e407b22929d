/** The header reader at the start of `createResponse`: it reads lines until an
    empty line or the end of the stream, and keeps the path of the GET line. */
module Header {
  import opened JavaLang

  /** What `readLine` gives once the lines run out: `null`, or an IOException. */
  datatype StreamEnd = EndOfStream | ReadFailure(message: string)

  /** The request as `BufferedReader.readLine` delivers it. */
  datatype Stream = Stream(lines: seq<string>, end: StreamEnd)

  /** What the header reader leaves behind. */
  datatype HeaderResult =
    | NoGet                       // `request` is still null
    | Path(path: string)          // `request` holds this path
    | MalformedGet(line: string)  // substring threw StringIndexOutOfBoundsException on this line
    | ReadError(message: string)  // readLine threw IOException

  predicate IsGetLine(line: string) {
    StartsWith(line, "GET")
  }

  /** `line.substring(firstSpace + 2, secondSpace)` with `firstSpace` the first space and
      `secondSpace` the next space after it; `None` stands for the exception substring
      throws when there is no such space or it directly follows the first. The path
      itself never holds a space. */
  function ExtractPath(line: string): (r: Option<string>)
    ensures r.Some? ==> ' ' !in r.value
  {
    var firstSpace := IndexOf(line, ' ', 0);
    var secondSpace := IndexOf(line, ' ', firstSpace + 1);
    if secondSpace < firstSpace + 2 then None
    else
      IndexOfFirst(line, ' ', firstSpace + 1);
      Some(line[firstSpace + 2..secondSpace])
  }

  /** A request line `<verb> <c><path> <rest>` yields `<path>`: the character after the
      first space (the leading '/') is dropped, so `GET / HTTP/1.1` yields "". */
  lemma ExtractPathOf(verb: string, c: char, path: string, rest: string)
    requires ' ' !in verb && c != ' ' && ' ' !in path
    ensures ExtractPath(verb + [' ', c] + path + [' '] + rest) == Some(path)
  {
    var line := verb + [' ', c] + path + [' '] + rest;
    var n := |verb|;
    assert line[n] == ' ' && line[n + 1] == c && line[n + 2 + |path|] == ' ';
    assert forall k :: 0 <= k < n ==> line[k] == verb[k];
    assert forall k :: n + 2 <= k < n + 2 + |path| ==> line[k] == path[k - n - 2];
    IndexOfAt(line, ' ', 0, n);
    IndexOfAt(line, ' ', n + 1, n + 2 + |path|);
    assert line[n + 2..n + 2 + |path|] == path;
  }

  /** A line without a space, or whose first space is the last character, or is
      followed by another space, or has no second space after it, makes substring throw. */
  lemma ExtractPathFails(line: string)
    requires var i := IndexOf(line, ' ', 0);
             i == -1 || i + 1 == |line| || line[i + 1] == ' ' || ' ' !in line[i + 2..]
    ensures ExtractPath(line).None?
  {
    var i := IndexOf(line, ' ', 0);
    var j := IndexOf(line, ' ', i + 1);
    assert j != -1 ==> line[j] == ' ';
    assert forall k :: i + 2 <= k < |line| ==> line[k] == line[i + 2..][k - i - 2];
  }

  /** `request` as the loop ends. */
  function Finish(request: Option<string>): HeaderResult {
    match request
    case None => NoGet
    case Some(p) => Path(p)
  }

  /** The header loop from some point on, with `request` as it stands there. */
  function Scan(lines: seq<string>, end: StreamEnd, request: Option<string>): HeaderResult
    decreases |lines|
  {
    if lines == [] then
      match end
      case EndOfStream => Finish(request)
      case ReadFailure(message) => ReadError(message)
    else if lines[0] == "" then Finish(request)
    else if IsGetLine(lines[0]) then
      match ExtractPath(lines[0])
      case None => MalformedGet(lines[0])
      case Some(p) => Scan(lines[1..], end, Some(p))
    else Scan(lines[1..], end, request)
  }

  /** What the header loop of `createResponse` leaves behind for this input. */
  function ReadHeader(input: Stream): HeaderResult {
    Scan(input.lines, input.end, None)
  }

  /** The `while (!done)` loop of `createResponse`: read a line, stop at `null` or "",
      and let every GET line overwrite `request`. */
  method ReadRequest(input: Stream) returns (r: HeaderResult)
    ensures r == ReadHeader(input)
  {
    var request: Option<string> := None;
    var done := false;
    var i := 0;
    while !done
      invariant 0 <= i <= |input.lines|
      invariant !done ==> Scan(input.lines[i..], input.end, request) == ReadHeader(input)
      invariant done ==> Finish(request) == ReadHeader(input)
      decreases |input.lines| - i + (if done then 0 else 1)
    {
      if i == |input.lines| {
        // readLine() past the last line: null, or the IOException
        if input.end.ReadFailure? {
          return ReadError(input.end.message);
        }
        done := true;
      } else {
        var line := input.lines[i];
        assert input.lines[i..] == [line] + input.lines[i + 1..];
        i := i + 1;
        if line == "" {
          done := true;
        } else if StartsWith(line, "GET") {
          var firstSpace := IndexOf(line, ' ', 0);
          var secondSpace := IndexOf(line, ' ', firstSpace + 1);
          if secondSpace < firstSpace + 2 {
            return MalformedGet(line);
          }
          request := Some(line[firstSpace + 2..secondSpace]);
        }
      }
    }
    return Finish(request);
  }

  // ----------------------------------------------------------------------------
  // Properties of the header loop
  // ----------------------------------------------------------------------------

  /** The first empty line ends the header: the lines after it, and how the stream
      ends, make no difference. */
  lemma {:induction false} StopsAtBlank(lines: seq<string>, more: seq<string>, end: StreamEnd, request: Option<string>)
    requires forall k :: 0 <= k < |lines| ==> lines[k] != ""
    ensures Scan(lines + [""] + more, end, request) == Scan(lines, EndOfStream, request)
    decreases |lines|
  {
    var all := lines + [""] + more;
    if lines != [] {
      assert all[0] == lines[0];
      assert all[1..] == lines[1..] + [""] + more;
      if IsGetLine(lines[0]) && ExtractPath(lines[0]).Some? {
        StopsAtBlank(lines[1..], more, end, ExtractPath(lines[0]));
      } else if !IsGetLine(lines[0]) {
        StopsAtBlank(lines[1..], more, end, request);
      }
    } else {
      assert all[0] == "";
    }
  }

  /** Without GET lines and blank lines, `request` keeps its value to the end. */
  lemma {:induction false} NoGetKeeps(lines: seq<string>, request: Option<string>)
    requires forall k :: 0 <= k < |lines| ==> lines[k] != "" && !IsGetLine(lines[k])
    ensures Scan(lines, EndOfStream, request) == Finish(request)
    decreases |lines|
  {
    if lines != [] {
      NoGetKeeps(lines[1..], request);
    }
  }

  /** A header without any GET line leaves `request` null. */
  lemma NoGetLine(lines: seq<string>)
    requires forall k :: 0 <= k < |lines| ==> lines[k] != "" && !IsGetLine(lines[k])
    ensures ReadHeader(Stream(lines, EndOfStream)) == NoGet
  {
    NoGetKeeps(lines, None);
  }

  /** Every GET line overwrites `request`, so the path of the LAST GET line is kept;
      lines that do not start with "GET" are ignored. */
  lemma {:induction false} LastGetWins(lines: seq<string>, j: nat, request: Option<string>)
    requires forall k :: 0 <= k < |lines| ==> lines[k] != ""
    requires forall k :: 0 <= k < |lines| && IsGetLine(lines[k]) ==> ExtractPath(lines[k]).Some?
    requires j < |lines| && IsGetLine(lines[j])
    requires forall k :: j < k < |lines| ==> !IsGetLine(lines[k])
    ensures Scan(lines, EndOfStream, request) == Path(ExtractPath(lines[j]).value)
    decreases |lines|
  {
    if j == 0 {
      NoGetKeeps(lines[1..], ExtractPath(lines[0]));
    } else if IsGetLine(lines[0]) {
      LastGetWins(lines[1..], j - 1, ExtractPath(lines[0]));
    } else {
      LastGetWins(lines[1..], j - 1, request);
    }
  }

  /** A GET line without a usable second space aborts the request, whatever follows it,
      as long as no empty line came before it. */
  lemma {:induction false} MalformedGetAborts(lines: seq<string>, j: nat, end: StreamEnd, request: Option<string>)
    requires j < |lines| && IsGetLine(lines[j]) && ExtractPath(lines[j]).None?
    requires forall k :: 0 <= k < j ==> lines[k] != ""
    requires forall k :: 0 <= k < j && IsGetLine(lines[k]) ==> ExtractPath(lines[k]).Some?
    ensures Scan(lines, end, request) == MalformedGet(lines[j])
    decreases |lines|
  {
    if j > 0 {
      if IsGetLine(lines[0]) {
        MalformedGetAborts(lines[1..], j - 1, end, ExtractPath(lines[0]));
      } else {
        MalformedGetAborts(lines[1..], j - 1, end, request);
      }
    } else {
      assert lines[0] != "";
    }
  }
}
