/** The route chain of `createResponse` as pure functions of the request path: which
    route a path selects, and the status, content type and body each route answers with. */
module Routes {
  import opened JavaLang
  import opened UrlDecoder
  import opened Query
  import opened Header

  // ----------------------------------------------------------------------------
  // Responses
  // ----------------------------------------------------------------------------

  datatype Status = Ok200 | BadRequest400 | NotFound404 | NoDefault406

  function StatusLine(s: Status): string {
    match s
    case Ok200 => "HTTP/1.1 200 OK\n"
    case BadRequest400 => "HTTP/1.1 400 Bad Request\n"
    case NotFound404 => "HTTP/1.1 404 Not Found\n"
    case NoDefault406 => "HTTP/1.1 406 Wrong Values: No default\n"
  }

  datatype ContentType = Html | Json

  function ContentTypeLine(t: ContentType): string {
    match t
    case Html => "Content-Type: text/html; charset=utf-8\n"
    case Json => "Content-Type: application/json; charset=utf-8\n"
  }

  /** One frame appended to the response builder: status line, content type, blank
      line, body. */
  datatype Reply = Reply(status: Status, contentType: ContentType, body: string)

  /** Status line, content type and the blank line that ends the headers. */
  function Head(status: Status, contentType: ContentType): string {
    StatusLine(status) + ContentTypeLine(contentType) + "\n"
  }

  function Render(r: Reply): string {
    Head(r.status, r.contentType) + r.body
  }

  function RenderAll(rs: seq<Reply>): string {
    if rs == [] then "" else Render(rs[0]) + RenderAll(rs[1..])
  }

  lemma RenderOne(r: Reply)
    ensures RenderAll([r]) == Render(r)
  {
    assert [r][1..] == [];
  }

  lemma RenderTwo(r: Reply, s: Reply)
    ensures RenderAll([r, s]) == Render(r) + Render(s)
  {
    assert [r, s][1..] == [s];
    RenderOne(s);
  }

  // ----------------------------------------------------------------------------
  // Collaborators: files, directory listing, randomness, floating point, GitHub
  // ----------------------------------------------------------------------------

  /** `readFileInBytes` of one file: its text, or the IOException's message. */
  datatype FileRead = Contents(text: string) | ReadFailed(message: string)

  /** The fields the github route reads from one element of the decoded JSON array. */
  datatype Repo = Repo(fullName: string, id: int, login: string)

  /** `fetchURL` followed by the org.json decoding: a failure before the first
      element (fetch or `new JSONArray`), or the elements decoded up to the end or up
      to the one whose decoding threw. */
  datatype GithubReply =
    | FetchFailed(message: string)
    | Repos(repos: seq<Repo>, failure: Option<string>)

  /** `random.nextInt(_images.size())`; the table's iteration order is unspecified, so
      each index may name either entry. */
  type ImageIndex = i: int | 0 <= i < 2

  datatype Env = Env(
    rootPage: FileRead,              // www/root.html
    wwwFiles: seq<string>,           // new File("www/").list()
    indexPage: FileRead,             // www/index.html
    kitty1: FileRead,                // images/kitty1.html
    kitty2: FileRead,                // images/kitty2.html
    image: ImageIndex,               // the random pick in the json route
    fileExists: string -> bool,      // File.exists
    centimeters: int -> string,      // the text of (double) inches * 2.54
    github: string -> GithubReply)   // fetchURL + JSONArray

  /** The `_images` table. */
  const Images: seq<(string, string)> :=
    [("streets", "https://iili.io/JV1pSV.jpg"), ("bread", "https://iili.io/Jj9MWG.jpg")]

  // ----------------------------------------------------------------------------
  // Outcomes
  // ----------------------------------------------------------------------------

  /** An unchecked exception that escapes `createResponse`. Its caller catches only
      IOException, so the server loop ends with it. */
  datatype Crash =
    | MalformedRequestLine(line: string)       // substring in the header loop
    | PairWithoutEquals(pair: string)          // substring(0, -1) in splitQuery
    | UncaughtDecodeError(error: DecodeError)  // URLDecoder outside any try
    | NotAnInteger(text: string)               // Integer.parseInt in multiply

  /** What a route leaves behind: the frames appended to the builder, an IOException
      from reading a file, or an escaping exception. */
  datatype Handled =
    | Replied(replies: seq<Reply>)
    | FileFailure(message: string)
    | Crashed(cause: Crash)

  /** What `createResponse` does: returns these bytes, or throws. */
  datatype Outcome = Sent(text: string) | Aborted(cause: Crash)

  /** The bytes a route's outcome becomes: the builder's text, the page the
      IOException handler substitutes, or the exception that escapes. */
  function Conclude(h: Handled): Outcome {
    match h
    case Replied(rs) => Sent(RenderAll(rs))
    case FileFailure(message) => Sent(ErrorPage(message))
    case Crashed(cause) => Aborted(cause)
  }

  const NoGetPage := "<html>Illegal request: no GET</html>"

  /** The response that replaces everything when an IOException is caught. */
  function ErrorPage(message: string): string {
    "<html>ERROR: " + message + "</html>"
  }

  // ----------------------------------------------------------------------------
  // Route selection
  // ----------------------------------------------------------------------------

  datatype Route = Root | RandomJson | RandomPage | Cat | FtToCm | File | Multiply | Github | Unrecognized

  /** The if-else chain: exact tests first, then the substring tests in a fixed order. */
  function RouteOf(path: string): Route {
    if |path| == 0 then Root
    else if EqualsIgnoreCase(path, "json") then RandomJson
    else if EqualsIgnoreCase(path, "random") then RandomPage
    else if Contains(path, "cat?") then Cat
    else if Contains(path, "ft_to_cm?") then FtToCm
    else if Contains(path, "file/") then File
    else if Contains(path, "multiply?") then Multiply
    else if Contains(path, "github?") then Github
    else Unrecognized
  }

  // ----------------------------------------------------------------------------
  // The routes
  // ----------------------------------------------------------------------------

  function Error400(message: string): Reply {
    Reply(BadRequest400, Html, "Error code 400: " + message)
  }

  function Error406(message: string): Reply {
    Reply(NoDefault406, Html, "Error code 406: " + message)
  }

  /** A page read from a file and sent with 200. */
  function Page(file: FileRead): Handled {
    match file
    case Contents(text) => Replied([Reply(Ok200, Html, text)])
    case ReadFailed(message) => FileFailure(message)
  }

  /** One `<li>` item per file name. */
  function Items(names: seq<string>): string {
    if names == [] then "" else "<li>" + names[0] + "</li>" + Items(names[1..])
  }

  /** Appending a name appends its item. */
  lemma {:induction false} ItemsAppend(names: seq<string>, n: string)
    ensures Items(names + [n]) == Items(names) + "<li>" + n + "</li>"
  {
    if names != [] {
      assert (names + [n])[1..] == names[1..] + [n];
      ItemsAppend(names[1..], n);
    }
  }

  /** What `buildFileList` returns for these directory entries. */
  function FileList(names: seq<string>): string {
    if |names| > 0 then "<ul>\n" + Items(names) + "</ul>\n" else "No files in directory"
  }

  /** The root page with its `${links}` placeholders replaced by the file list. */
  function RootRoute(env: Env): Handled {
    match env.rootPage
    case ReadFailed(message) => FileFailure(message)
    case Contents(page) => Replied([Reply(Ok200, Html, Replace(page, "${links}", FileList(env.wwwFiles)))])
  }

  function ImageJson(header: string, url: string): string {
    "{" + "\"header\":\"" + header + "\"," + "\"image\":\"" + url + "\"" + "}"
  }

  function JsonRoute(env: Env): Handled {
    var (header, url) := Images[env.image];
    Replied([Reply(Ok200, Json, ImageJson(header, url))])
  }

  const CatNoArgument := "Please put a argument for cat\n"
  const KittyOutOfRange := "Does not have a number in the correct range of pictures. Please try either 1 or 2."
  const KittyMissing := "Does not contain correct query argument. Check if you spelled kitty correctly.\n"

  /** The cat route once its query has been split. */
  function CatQuery(q: LinkedMap, env: Env): Handled {
    match Get(q, "kitty")
    case None => Replied([Error400(KittyMissing)])
    case Some(v) =>
      if v == "1" then Page(env.kitty1)
      else if v == "2" then Page(env.kitty2)
      else Replied([Error400(KittyOutOfRange)])
  }

  function CatRoute(path: string, env: Env): Handled {
    var rest := Replace(path, "cat?", "");
    if Trim(rest) == "" then Replied([Error406(CatNoArgument)])
    else
      match SplitQueryOf(rest)
      case Err(MissingEquals(pair)) => Crashed(PairWithoutEquals(pair))
      case Err(BadEscape(e)) => Replied([Error400(Message(e))])
      case Ok(q) => CatQuery(q, env)
  }

  /** `integerChecker(str)`: `str.matches("-?\\d+")`, where `\d` is an ASCII digit. */
  predicate IntegerChecker(s: string) {
    if |s| > 0 && s[0] == '-' then |s| > 1 && AllDigits(s[1..]) else |s| > 0 && AllDigits(s)
  }

  /** The value of a string that `integerChecker` accepts. */
  function SignedValue(s: string): int
    requires IntegerChecker(s)
  {
    if s[0] == '-' then -(DecimalValue(s[1..]) as int) else DecimalValue(s)
  }

  const FtToCmNoArgument := "Please put a argument for ft_to_cm\n"
  const FtNotInteger := "Does not contain an integer for the argument: ft\n"
  const InNotInteger := "Does not contain an integer for the argument: in\n"
  const FtMissing := "Does not contain correct query argument. Check if you inputted ft correctly.\n"
  const InMissing := "Does not contain correct query argument. Check if you inputted in correctly.\n"

  /** The message of the NumberFormatException `Integer.parseInt(s)` throws. */
  function NumberFormatMessage(s: string): string {
    "For input string: \"" + s + "\""
  }

  /** The checks of the ft_to_cm route: the total in inches, or the message of the
      IllegalArgumentException that ends in a 400. */
  datatype Conversion = Inches(total: int) | Refused(message: string)

  function FtToCmQuery(q: LinkedMap): Conversion {
    match Get(q, "ft")
    case None => Refused(FtMissing)
    case Some(ft) =>
      if !IntegerChecker(ft) then Refused(FtNotInteger)
      else
        match ParseInt(ft)
        case None => Refused(NumberFormatMessage(ft))
        case Some(foot) =>
          var feetInInches := Wrap32(foot * 12);
          match Get(q, "in")
          case None => Refused(InMissing)
          case Some(inch) =>
            if !IntegerChecker(inch) then Refused(InNotInteger)
            else
              match ParseInt(inch)
              case None => Refused(NumberFormatMessage(inch))
              case Some(inches) => Inches(Wrap32(inches + feetInInches))
  }

  function FtToCmRoute(path: string, env: Env): Handled {
    var rest := Replace(path, "ft_to_cm?", "");
    if Trim(rest) == "" then Replied([Error406(FtToCmNoArgument)])
    else
      match SplitQueryOf(rest)
      case Err(MissingEquals(pair)) => Crashed(PairWithoutEquals(pair))
      case Err(BadEscape(e)) => Replied([Error400(Message(e))])
      case Ok(q) =>
        match FtToCmQuery(q)
        case Refused(message) => Replied([Error400(message)])
        case Inches(total) => Replied([Reply(Ok200, Html, "This height in centimeters is " + env.centimeters(total))])
  }

  /** No two neighbouring slashes. */
  predicate NoDoubleSlash(p: string) {
    forall k :: 0 <= k < |p| - 1 ==> !(p[k] == '/' && p[k + 1] == '/')
  }

  /** Every run of slashes collapsed into one. */
  function CollapseSlashes(p: string): (r: string)
    ensures NoDoubleSlash(r)
    ensures |p| > 0 ==> |r| > 0 && r[0] == p[0]
    ensures NoDoubleSlash(p) ==> r == p
    decreases |p|
  {
    if |p| < 2 then p
    else if p[0] == '/' && p[1] == '/' then CollapseSlashes(p[1..])
    else [p[0]] + CollapseSlashes(p[1..])
  }

  /** The path `new File(p)` keeps on Unix: slashes collapsed, a trailing slash dropped
      unless the path is "/" itself. */
  function NormalizePath(p: string): (r: string)
    ensures NoDoubleSlash(r)
    ensures |r| > 1 ==> r[|r| - 1] != '/'
    ensures CollapseSlashes(p) == r || CollapseSlashes(p) == r + "/"
    ensures NoDoubleSlash(p) && (|p| <= 1 || p[|p| - 1] != '/') ==> r == p
  {
    var c := CollapseSlashes(p);
    if |c| > 1 && c[|c| - 1] == '/' then c[..|c| - 1] else c
  }

  const FilePlaceholder :=
    "Would theoretically be a file but removed this part, you do not have to do anything with it for the assignment"

  /** `p` without its slashes. */
  function WithoutSlashes(p: string): string {
    if p == [] then [] else (if p[0] == '/' then [] else [p[0]]) + WithoutSlashes(p[1..])
  }

  /** Collapsing removes slashes only: every other character stays, in order. */
  lemma {:induction false} CollapseKeepsText(p: string)
    ensures WithoutSlashes(CollapseSlashes(p)) == WithoutSlashes(p)
    decreases |p|
  {
    if |p| >= 2 {
      CollapseKeepsText(p[1..]);
      if !(p[0] == '/' && p[1] == '/') {
        var r := [p[0]] + CollapseSlashes(p[1..]);
        assert r[1..] == CollapseSlashes(p[1..]);
      }
    }
  }

  /** Normalising a normalised path changes nothing. */
  lemma NormalizeIdempotent(p: string)
    ensures NormalizePath(NormalizePath(p)) == NormalizePath(p)
  {
  }

  function FileRoute(path: string, env: Env): Handled {
    var file := NormalizePath(Replace(path, "file/", ""));
    if env.fileExists(file) then Replied([Reply(Ok200, Html, FilePlaceholder)])
    else Replied([Reply(NotFound404, Html, "File not found: " + file)])
  }

  function ResultText(n: int): string {
    "Result is: " + IntToString(n)
  }

  /** The multiply route once its query has been split: missing factors default to 5,
      products wrap at 32 bits, and a query with neither key is a bare 400. */
  function MultiplyQuery(q: LinkedMap): Handled {
    var hasNum1, hasNum2 := ContainsKey(q, "num1"), ContainsKey(q, "num2");
    if q.entries == [] then
      Replied([Reply(Ok200, Html, "Default Result is: " + IntToString(Wrap32(5 * 5)))])
    else if hasNum1 && !hasNum2 then
      match ParseInt(Get(q, "num1").value)
      case None => Crashed(NotAnInteger(Get(q, "num1").value))
      case Some(num1) => Replied([Reply(Ok200, Html, ResultText(Wrap32(num1 * 5)))])
    else if !hasNum1 && hasNum2 then
      match ParseInt(Get(q, "num2").value)
      case None => Crashed(NotAnInteger(Get(q, "num2").value))
      case Some(num2) => Replied([Reply(Ok200, Html, ResultText(Wrap32(5 * num2)))])
    else if hasNum1 && hasNum2 then
      match ParseInt(Get(q, "num1").value)
      case None => Crashed(NotAnInteger(Get(q, "num1").value))
      case Some(num1) =>
        match ParseInt(Get(q, "num2").value)
        case None => Crashed(NotAnInteger(Get(q, "num2").value))
        case Some(num2) => Replied([Reply(Ok200, Html, ResultText(Wrap32(num1 * num2)))])
    else Replied([Reply(BadRequest400, Html, "")])
  }

  function MultiplyRoute(path: string): Handled {
    var rest := Replace(path, "multiply?", "");
    var parsed: Result<LinkedMap, QueryError> := if Trim(rest) == "" then Ok(Empty) else SplitQueryOf(rest);
    match parsed
    case Err(MissingEquals(pair)) => Crashed(PairWithoutEquals(pair))
    case Err(BadEscape(e)) => Crashed(UncaughtDecodeError(e))
    case Ok(q) => MultiplyQuery(q)
  }

  const GithubApi := "https://api.github.com/"

  /** The text appended for one repository. */
  function RepoBlock(r: Repo): string {
    FullNameLine(r) + IdLine(r) + LoginLine(r)
  }

  function FullNameLine(r: Repo): string { "Full Name: " + r.fullName + "\n\n" }
  function IdLine(r: Repo): string { "ID: " + IntToString(r.id) + "\n\n" }
  function LoginLine(r: Repo): string { "Login: " + r.login + "\n\n" }

  function RepoBlocks(rs: seq<Repo>): string {
    if rs == [] then "" else RepoBlocks(rs[..|rs| - 1]) + RepoBlock(rs[|rs| - 1])
  }

  /** One more repository appends its block. */
  lemma RepoBlocksStep(rs: seq<Repo>, i: nat)
    requires i < |rs|
    ensures RepoBlocks(rs[..i + 1]) == RepoBlocks(rs[..i]) + RepoBlock(rs[i])
  {
    assert rs[..i + 1][..i] == rs[..i];
  }

  /** The listing of two arrays one after the other is the two listings concatenated. */
  lemma {:induction false} RepoBlocksAppend(a: seq<Repo>, b: seq<Repo>)
    ensures RepoBlocks(a + b) == RepoBlocks(a) + RepoBlocks(b)
    decreases |b|
  {
    if b == [] {
      assert a + b == a;
    } else {
      var front, last := b[..|b| - 1], b[|b| - 1];
      assert (a + b)[..|a + b| - 1] == a + front;
      assert (a + b)[|a + b| - 1] == last;
      RepoBlocksAppend(a, front);
      var x, y, z := RepoBlocks(a), RepoBlocks(front), RepoBlock(last);
      assert RepoBlocks(a + b) == x + y + z;
      Associative(x, y, z);
    }
  }

  /** Appending the three lines one by one appends the block. */
  lemma RepoBlockLines(before: string, r: Repo)
    ensures before + FullNameLine(r) + IdLine(r) + LoginLine(r) == before + RepoBlock(r)
  {
  }

  function Exception400(message: string): Reply {
    Reply(BadRequest400, Html, "An exception was thrown: " + message + "\n")
  }

  /** The URL handed to `fetchURL`: a missing `query` key concatenates as "null". */
  function GithubUrl(q: LinkedMap): string {
    GithubApi + match Get(q, "query") case Some(v) => v case None => "null"
  }

  /** The frames for what the fetch delivered. */
  function Fetched(reply: GithubReply): Handled {
    match reply
    case FetchFailed(message) => Replied([Exception400(message)])
    case Repos(rs, None) => Replied([Reply(Ok200, Html, RepoBlocks(rs))])
    case Repos(rs, Some(message)) => Replied([Reply(Ok200, Html, RepoBlocks(rs)), Exception400(message)])
  }

  /** The github route: the 200 frame goes into the builder before the elements are
      read, so an element that fails to decode leaves both frames in the response. */
  function GithubRoute(path: string, env: Env): Handled {
    match SplitQueryOf(Replace(path, "github?", ""))
    case Err(MissingEquals(pair)) => Crashed(PairWithoutEquals(pair))
    case Err(BadEscape(e)) => Crashed(UncaughtDecodeError(e))
    case Ok(q) => Fetched(env.github(GithubUrl(q)))
  }

  const Fallback := "I am not sure what you want me to do..."

  /** The route the path selects, and what it answers. */
  function Handle(path: string, env: Env): Handled {
    match RouteOf(path)
    case Root => RootRoute(env)
    case RandomJson => JsonRoute(env)
    case RandomPage => Page(env.indexPage)
    case Cat => CatRoute(path, env)
    case FtToCm => FtToCmRoute(path, env)
    case File => FileRoute(path, env)
    case Multiply => MultiplyRoute(path)
    case Github => GithubRoute(path, env)
    case Unrecognized => Replied([Reply(BadRequest400, Html, Fallback)])
  }

  /** What `createResponse` returns or throws once the header has been read. */
  function Respond(header: HeaderResult, env: Env): Outcome {
    match header
    case NoGet => Sent(NoGetPage)
    case ReadError(message) => Sent(ErrorPage(message))
    case MalformedGet(line) => Aborted(MalformedRequestLine(line))
    case Path(p) => Conclude(Handle(p, env))
  }
}
