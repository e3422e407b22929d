# funHttpServer's `createResponse` in Dafny

This project models how the small teaching web server `funHttpServer.WebServer` answers one
connection, and proves properties of that model. `createResponse` works in three stages:

1. It reads the request header line by line until an empty line or the end of the stream.
   Every line that starts with `GET` overwrites the requested path.
2. It sends the path down a first-match chain of routes:
   - the empty path (root page with a file list)
   - `json` and `random`, compared ignoring case
   - then by substring: `cat?`, `ft_to_cm?`, `file/`, `multiply?`, `github?`
   - a fallback 400
3. Each route appends a status line, a content type, a blank line and a body to a
   `StringBuilder`, and the builder's text becomes the response.

The parameter routes split their query with `splitQuery`. That method cuts the query at
`&` and then at the first `=`, URL-decodes both halves, and puts them into a
`LinkedHashMap`. `ft_to_cm` validates its numbers with `integerChecker`.

Modules:

- `JavaLang` (java_lang.dfy) gives the `String` and `Integer` operations the code relies on, with Java's semantics written out:
  - `indexOf`, `contains`, `replace`, `trim`, ASCII `equalsIgnoreCase`
  - `split` on one character, which drops trailing empty strings
  - `parseInt`, `toString`
  - 32-bit `int` wrap-around
- `UrlDecoder` (url_decoder.dfy) models `URLDecoder.decode`. It includes an encoder for ASCII text, used for the round trip.
- `Query` (query.dfy) models the `LinkedHashMap` and `splitQuery`:
  - a specification function
  - the loop as a method proved equal to that function
  - lemmas on what the map holds
- `Header` (header.dfy) has the header `while` loop as a method, proved against a recursive specification, and lemmas on which path the loop keeps.
- `Routes` (routes.dfy) describes route selection and each route's answer as pure functions. The collaborators are the fields of an `Env` value:
  - file contents, the `www/` listing, `File.exists`
  - the random image index
  - the rendering of the `double` centimetre value
  - the GitHub fetch and its JSON decoding
- `WebServer` (web_server.dfy) is `createResponse` as the source runs it. One method per branch appends to a builder string, and each method is proved to send exactly what the route functions describe.
- `Properties` (properties.dfy) covers whole requests:
  - route priority
  - each parameter route's answer to a query written by a form encoder
  - the header loop in front of the routes

An exception that `createResponse` does not catch is modelled as the outcome `Aborted(cause)`. The method catches only `IOException`, so such an exception ends the server loop. There are four causes:

- a GET line without a space, whose first space ends the line, whose first space is followed by another space, or with no space after the path
- a query pair without `=`
- a bad `%` escape in `multiply` or `github`
- a non-numeric factor in `multiply`

An `IOException` from reading a file or a header line is modelled as `Sent("<html>ERROR: …</html>")`.

Behaviour worth noting:

- A request without a GET line is answered with the bare text `<html>Illegal request: no GET</html>`, without a status line or headers.
- Some validation failures escape instead of becoming responses. A query pair without `=` throws `StringIndexOutOfBoundsException` in every parameter route. A bad escape throws `IllegalArgumentException` in `multiply` and `github`, whose `splitQuery` call is outside any `try`.
- Inside `cat` and `ft_to_cm`, a bad escape is an `IllegalArgumentException` and becomes a 400.
- In `ft_to_cm`, a value that passes `integerChecker` but does not fit an `int` makes `parseInt` throw `NumberFormatException`. That exception is also an `IllegalArgumentException`, so it becomes a 400 carrying `For input string: "…"`.
- The `file` route tests the path as `java.io.File` normalises it: runs of `/` collapse, and a trailing `/` is dropped.
- In `github`, the 200 frame is appended before the array elements are read. An element that fails to decode therefore leaves the 200 frame, the blocks so far and a 400 frame in one response.

## Model

| member | source | states |
|---|---|---|
| Header.ExtractPath | Sockets/WebServer/src/main/java/funHttpServer/WebServer.java:121-126 | the path cut from a GET line never holds a space; `None` where `substring` would throw |
| Header.ExtractPathOf | Sockets/WebServer/src/main/java/funHttpServer/WebServer.java:122-126 | the line `<verb> <c><path> <rest>` yields exactly `<path>`: the character after the first space is dropped and the path ends at the next space |
| Header.ExtractPathFails | Sockets/WebServer/src/main/java/funHttpServer/WebServer.java:122-126 | a line without a space, or whose first space ends the line, is followed by another space, or has no space after it, makes `substring` throw |
| Header.ReadRequest | Sockets/WebServer/src/main/java/funHttpServer/WebServer.java:109-129 | the `while (!done)` loop leaves exactly what the recursive specification `ReadHeader` gives: it stops at `null` or "", every GET line overwrites the path, and a read failure or a malformed GET line ends it |
| Header.StopsAtBlank | Sockets/WebServer/src/main/java/funHttpServer/WebServer.java:118-119 | the lines after the first empty line, and how the stream ends, change nothing |
| Header.NoGetKeeps | Sockets/WebServer/src/main/java/funHttpServer/WebServer.java:112-129 | lines that are neither empty nor GET lines leave `request` as it was |
| Header.NoGetLine | Sockets/WebServer/src/main/java/funHttpServer/WebServer.java:109-134 | a header without a GET line leaves `request` null |
| Header.LastGetWins | Sockets/WebServer/src/main/java/funHttpServer/WebServer.java:121-126 | the path of the last GET line is the one kept |
| Header.MalformedGetAborts | Sockets/WebServer/src/main/java/funHttpServer/WebServer.java:126 | a GET line whose `substring` throws aborts the request whatever follows it, if no empty line came first |
| JavaLang.IndexOf | Sockets/WebServer/src/main/java/funHttpServer/WebServer.java:122-123 | a found index lies at or after `from` and holds the character |
| JavaLang.IndexOfFirst | Sockets/WebServer/src/main/java/funHttpServer/WebServer.java:122-123 | no index before the found one holds the character, and -1 means none at all |
| JavaLang.IndexOfAt | Sockets/WebServer/src/main/java/funHttpServer/WebServer.java:439 | the first occurrence at or after `from` is the index `indexOf` returns |
| JavaLang.MissingCharNotContains | Sockets/WebServer/src/main/java/funHttpServer/WebServer.java:185 | a string lacking some character of `t` does not contain `t` |
| JavaLang.NotContainsSuffix | Sockets/WebServer/src/main/java/funHttpServer/WebServer.java:185 | a string without `t` has no suffix containing `t` |
| JavaLang.ReplaceAbsent | Sockets/WebServer/src/main/java/funHttpServer/WebServer.java:189 | `replace` of a target that does not occur changes nothing |
| JavaLang.ReplaceLeading | Sockets/WebServer/src/main/java/funHttpServer/WebServer.java:189 | a target at the front is replaced, and the scan goes on right after it |
| JavaLang.TrimStart | Sockets/WebServer/src/main/java/funHttpServer/WebServer.java:189 | the result is a suffix of the input and does not start with a character up to U+0020 |
| JavaLang.TrimStartDrops | Sockets/WebServer/src/main/java/funHttpServer/WebServer.java:189 | every character dropped from the front is at most U+0020 |
| JavaLang.TrimEnd | Sockets/WebServer/src/main/java/funHttpServer/WebServer.java:189 | the result is a prefix of the input and does not end with a character up to U+0020 |
| JavaLang.TrimEndDrops | Sockets/WebServer/src/main/java/funHttpServer/WebServer.java:189 | every character dropped from the end is at most U+0020 |
| JavaLang.Trim | Sockets/WebServer/src/main/java/funHttpServer/WebServer.java:189 | a non-empty result starts and ends with characters above U+0020 |
| JavaLang.TrimEmpty | Sockets/WebServer/src/main/java/funHttpServer/WebServer.java:189 | `trim().isEmpty()` holds exactly when every character is at most U+0020 |
| JavaLang.Pieces | Sockets/WebServer/src/main/java/funHttpServer/WebServer.java:436 | cutting at the separator always gives at least one piece |
| JavaLang.PiecesLackSeparator | Sockets/WebServer/src/main/java/funHttpServer/WebServer.java:436 | no piece holds the separator |
| JavaLang.DropTrailingEmpty | Sockets/WebServer/src/main/java/funHttpServer/WebServer.java:436 | the result is a prefix of the pieces, every dropped piece is empty, and the last kept piece is not empty |
| JavaLang.SplitLacksSeparator | Sockets/WebServer/src/main/java/funHttpServer/WebServer.java:436 | no element of `split("&")` holds a `&` |
| JavaLang.JoinPieces | Sockets/WebServer/src/main/java/funHttpServer/WebServer.java:436 | joining the pieces with the separator gives the string back |
| JavaLang.PiecesJoin | Sockets/WebServer/src/main/java/funHttpServer/WebServer.java:436 | pieces free of the separator come back from cutting their join |
| JavaLang.SplitJoin | Sockets/WebServer/src/main/java/funHttpServer/WebServer.java:436 | `split` undoes the join of pieces free of the separator whose last piece is not empty |
| JavaLang.Wrap32Wraps | Sockets/WebServer/src/main/java/funHttpServer/WebServer.java:248-256 | `int` arithmetic lands in the `int` range, differs from the exact value by a multiple of 2^32, and leaves an `int` result as it is |
| JavaLang.ParseInt | Sockets/WebServer/src/main/java/funHttpServer/WebServer.java:247 | a value `parseInt` accepts fits an `int` |
| JavaLang.NatToString | Sockets/WebServer/src/main/java/funHttpServer/WebServer.java:320 | a rendered number is never empty |
| JavaLang.NatToStringValue | Sockets/WebServer/src/main/java/funHttpServer/WebServer.java:320 | the rendering is digits without a leading zero whose value is the number |
| JavaLang.IntToString | Sockets/WebServer/src/main/java/funHttpServer/WebServer.java:320 | a rendered `int` is never empty |
| JavaLang.ParseIntToString | Sockets/WebServer/src/main/java/funHttpServer/WebServer.java:247 | `parseInt` reads back every `int` that `toString` renders |
| UrlDecoder.HexValue | Sockets/WebServer/src/main/java/funHttpServer/WebServer.java:440-441 | a hex digit's value is below 16 |
| UrlDecoder.EscapeValue | Sockets/WebServer/src/main/java/funHttpServer/WebServer.java:440-441 | an accepted `%XX` escape is a byte value, and with a hex first digit it is 16 times the first digit's value plus the second's |
| UrlDecoder.Decode | Sockets/WebServer/src/main/java/funHttpServer/WebServer.java:440-441 | text without `%` and `+` decodes to itself, and decoding never lengthens |
| UrlDecoder.HexDigit | Sockets/WebServer/src/main/java/funHttpServer/WebServer.java:440-441 | the digit written for a value reads back as that value and is unreserved |
| UrlDecoder.EncodeAlphabet | Sockets/WebServer/src/main/java/funHttpServer/WebServer.java:440-441 | encoded text holds only unreserved characters, `+` and `%` |
| UrlDecoder.EncodeLacks | Sockets/WebServer/src/main/java/funHttpServer/WebServer.java:440-441 | a character outside that alphabet (such as `&`, `=`, `?`, `/`) never occurs in encoded text |
| UrlDecoder.DecodeEncodedChar | Sockets/WebServer/src/main/java/funHttpServer/WebServer.java:440-441 | decoding one encoded character in front of `rest` gives the character in front of the decoded `rest` |
| UrlDecoder.DecodeEncode | Sockets/WebServer/src/main/java/funHttpServer/WebServer.java:440-441 | decoding undoes encoding for ASCII text |
| Query.PutSpec | Sockets/WebServer/src/main/java/funHttpServer/WebServer.java:440-441 | after `put(k, v)`, `k` maps to `v`, every other key keeps its value, keys stay distinct, an existing key keeps its place and a new one goes last |
| Query.SplitQuery | Sockets/WebServer/src/main/java/funHttpServer/WebServer.java:433-445 | the loop over the pairs returns what the specification `SplitQueryOf` gives, including the exception |
| Query.LastValue | Sockets/WebServer/src/main/java/funHttpServer/WebServer.java:438-442 | the reference definition: `None` exactly when no pair has the key, otherwise the value of the last pair with that key |
| Query.PutAllOk | Sockets/WebServer/src/main/java/funHttpServer/WebServer.java:438-442 | the puts complete exactly when every pair has a `=` and both halves decode |
| Query.PutAllValid | Sockets/WebServer/src/main/java/funHttpServer/WebServer.java:438-442 | the puts keep the keys distinct |
| Query.PutAllGet | Sockets/WebServer/src/main/java/funHttpServer/WebServer.java:438-442 | after the puts, each key maps to the value of its last pair, and a key no pair names keeps its old value |
| Query.PutAllKeys | Sockets/WebServer/src/main/java/funHttpServer/WebServer.java:438-442 | after the puts, the keys iterate in order of first appearance |
| Query.SplitQuerySpec | Sockets/WebServer/src/main/java/funHttpServer/WebServer.java:433-445 | `splitQuery` returns normally exactly when every pair decodes; the map then has distinct keys in order of first appearance, each mapped to its last value; otherwise it throws the error of the first failing pair |
| Query.FirstError | Sockets/WebServer/src/main/java/funHttpServer/WebServer.java:438-442 | a failing run of puts fails with the error of its first failing pair |
| Query.DecodeEncodedPair | Sockets/WebServer/src/main/java/funHttpServer/WebServer.java:439-441 | an encoded pair is cut at the `=` between its halves and decodes to itself |
| Query.EncodedPairsLackAmpersand | Sockets/WebServer/src/main/java/funHttpServer/WebServer.java:436 | no encoded pair holds the `&` that `split` cuts at, so every pair survives the split whole |
| Query.SplitEncodedQuery | Sockets/WebServer/src/main/java/funHttpServer/WebServer.java:436 | splitting an encoded query at `&` gives back the encoded pairs |
| Query.SplitQueryEncode | Sockets/WebServer/src/main/java/funHttpServer/WebServer.java:433-445 | `splitQuery` reads back what a form encoder wrote: each key maps to its last value, and keys iterate in order of first appearance |
| Routes.ItemsAppend | Sockets/WebServer/src/main/java/funHttpServer/WebServer.java:461-463 | one more file name appends exactly its `<li>` item |
| Routes.CollapseSlashes | Sockets/WebServer/src/main/java/funHttpServer/WebServer.java:285 | no two neighbouring slashes remain, the first character is kept, and a path without double slashes is unchanged |
| Routes.NormalizePath | Sockets/WebServer/src/main/java/funHttpServer/WebServer.java:285 | the path `new File` keeps is the input with slash runs collapsed and one trailing slash dropped (unless the result would be "/"): it has no double or trailing slash, collapsing gives it back or it plus "/", and an already normal path is kept as it is |
| Routes.CollapseKeepsText | Sockets/WebServer/src/main/java/funHttpServer/WebServer.java:285 | collapsing removes slashes only: all other characters stay, in order |
| Routes.NormalizeIdempotent | Sockets/WebServer/src/main/java/funHttpServer/WebServer.java:285 | normalising a normalised path changes nothing |
| Routes.RepoBlocksAppend | Sockets/WebServer/src/main/java/funHttpServer/WebServer.java:386-396 | the listing of two arrays one after the other is the two listings concatenated |
| WebServer.AppendHead | Sockets/WebServer/src/main/java/funHttpServer/WebServer.java:149-151 | the three appends add the status line, the content type and the blank line |
| WebServer.BuildFileList | Sockets/WebServer/src/main/java/funHttpServer/WebServer.java:451-469 | the result is `<ul>`, one `<li>` per directory entry in listing order, `</ul>`; it is "No files in directory" for an empty listing |
| WebServer.RootResponse | Sockets/WebServer/src/main/java/funHttpServer/WebServer.java:140-152 | the empty path sends root.html with `${links}` replaced by the file list, or the IOException page |
| WebServer.JsonResponse | Sockets/WebServer/src/main/java/funHttpServer/WebServer.java:154-171 | `json` sends 200 `application/json` with the picked image's header and URL as a JSON object |
| WebServer.RandomResponse | Sockets/WebServer/src/main/java/funHttpServer/WebServer.java:173-183 | `random` sends index.html, or the IOException page |
| WebServer.CatResponse | Sockets/WebServer/src/main/java/funHttpServer/WebServer.java:185-231 | cat behaves as `CatRoute` says: 406 for a blank query, the kitty page for "1" or "2", a 400 otherwise, and an abort on a pair without `=` |
| WebServer.FtToCmResponse | Sockets/WebServer/src/main/java/funHttpServer/WebServer.java:232-279 | ft_to_cm behaves as `FtToCmRoute` says: 406 for a blank query, 400 for the first failed check, otherwise 200 with the total in inches rendered |
| WebServer.FileResponse | Sockets/WebServer/src/main/java/funHttpServer/WebServer.java:281-298 | `file/` sends 200 with the placeholder text when the normalised path exists, and 404 naming it otherwise |
| WebServer.MultiplyResponse | Sockets/WebServer/src/main/java/funHttpServer/WebServer.java:299-359 | multiply behaves as `MultiplyRoute` says: defaults of 5, wrapped products, a bare 400 for a query naming neither factor, and an abort on a bad number |
| WebServer.AppendRepos | Sockets/WebServer/src/main/java/funHttpServer/WebServer.java:386-396 | the element loop appends the Full Name, ID and Login lines of every repository, in array order |
| WebServer.GithubResponse | Sockets/WebServer/src/main/java/funHttpServer/WebServer.java:366-402 | github fetches the URL built from `query` and sends the listing; a failure sends a 400 after whatever was already appended |
| WebServer.FallbackResponse | Sockets/WebServer/src/main/java/funHttpServer/WebServer.java:407-414 | an unrecognised path sends 400 "I am not sure what you want me to do..." |
| WebServer.CreateResponse | Sockets/WebServer/src/main/java/funHttpServer/WebServer.java:95-424 | the whole method returns or throws what `Respond(ReadHeader(input), env)` gives: the no-GET page, the IOException page, an abort, or the answer of the first matching route |
| Properties.NotExact | Sockets/WebServer/src/main/java/funHttpServer/WebServer.java:154-173 | a path holding `?` or `/` equals neither `json` nor `random`, in any case |
| Properties.RoutePriority | Sockets/WebServer/src/main/java/funHttpServer/WebServer.java:140-414 | each route is chosen exactly when its test holds and no earlier test does: the empty path is the root, `json` and `random` match ignoring case, a substring route needs its token and none of the tokens tested before it, and every other path is unrecognised (both directions for every route) |
| Properties.QueryPath | Sockets/WebServer/src/main/java/funHttpServer/WebServer.java:189-193 | in `<token><query>`, removing the token leaves the query, which is not blank, and the path is neither `json` nor `random` |
| Properties.OtherToken | Sockets/WebServer/src/main/java/funHttpServer/WebServer.java:185-366 | another route's token occurs in `<token><query>` only as a suffix of `token` |
| Properties.QueryMap | Sockets/WebServer/src/main/java/funHttpServer/WebServer.java:193 | the map a parameter route gets back maps each key to its last value and is not empty |
| Properties.CatRouted | Sockets/WebServer/src/main/java/funHttpServer/WebServer.java:185-193 | `cat?<query>` goes to cat, which gets the query back |
| Properties.CatPath | Sockets/WebServer/src/main/java/funHttpServer/WebServer.java:185-231 | a `cat?<query>` request is answered by the `kitty` decision on the map read back |
| Properties.CatRequest | Sockets/WebServer/src/main/java/funHttpServer/WebServer.java:196-219 | the last `kitty` value decides: "1" and "2" send their pages, another value gets the range 400, and no `kitty` gets the spelling 400 |
| Properties.CatBlank | Sockets/WebServer/src/main/java/funHttpServer/WebServer.java:189-190 | `cat?` followed only by blanks gets the 406 of the missing argument |
| Properties.IntegerCheckerAccepts | Sockets/WebServer/src/main/java/funHttpServer/WebServer.java:86-88 | every rendered integer matches `-?\d+` |
| Properties.IntegerCheckerParse | Sockets/WebServer/src/main/java/funHttpServer/WebServer.java:86-88 | on text `integerChecker` accepts, `parseInt` fails only by overflow |
| Properties.IntegerCheckerRefusesPlus | Sockets/WebServer/src/main/java/funHttpServer/WebServer.java:86-88 | `integerChecker` is stricter than `parseInt`: "+7" parses but is refused |
| Properties.IntToStringAscii | Sockets/WebServer/src/main/java/funHttpServer/WebServer.java:86-88 | a rendered number is plain ASCII |
| Properties.FtToCmAccepts | Sockets/WebServer/src/main/java/funHttpServer/WebServer.java:243-267 | ft_to_cm reaches 200 exactly when both keys are present, pass `integerChecker` and parse; the total is then ft*12 + in with `int` wrap-around |
| Properties.FtToCmTotal | Sockets/WebServer/src/main/java/funHttpServer/WebServer.java:247-256 | two well-formed values in range give the total ft*12 + in |
| Properties.FtCheckedFirst | Sockets/WebServer/src/main/java/funHttpServer/WebServer.java:243-245 | `ft` is checked before `in`: a missing or malformed `ft` is reported whatever `in` holds |
| Properties.NoCatInFtToCm | Sockets/WebServer/src/main/java/funHttpServer/WebServer.java:185-232 | an ft_to_cm path holds no `cat?`, so cat does not take it |
| Properties.FtToCmRouted | Sockets/WebServer/src/main/java/funHttpServer/WebServer.java:232-242 | `ft_to_cm?<query>` goes to ft_to_cm, which gets the query back |
| Properties.FtToCmPath | Sockets/WebServer/src/main/java/funHttpServer/WebServer.java:232-279 | an `ft_to_cm?<query>` request is answered by the checks on the map read back |
| Properties.FtToCmNumbers | Sockets/WebServer/src/main/java/funHttpServer/WebServer.java:243-262 | `ft=<a>&in=<b>` with well-formed values in range sends 200 with the rendering of a*12 + b |
| Properties.FtToCmRequest | Sockets/WebServer/src/main/java/funHttpServer/WebServer.java:232-262 | any two rendered `int`s convert, with Java's wrap-around |
| Properties.Overflows | Sockets/WebServer/src/main/java/funHttpServer/WebServer.java:86-88 | "9999999999" passes `integerChecker` but does not fit an `int` |
| Properties.FtOverflowQuery | Sockets/WebServer/src/main/java/funHttpServer/WebServer.java:247 | an `ft` that overflows is refused with the NumberFormatException's message |
| Properties.FtOverflow | Sockets/WebServer/src/main/java/funHttpServer/WebServer.java:269-273 | `ft_to_cm?ft=9999999999&in=0` gets a 400 carrying `For input string: "9999999999"` |
| Properties.MultiplyNotEarlier | Sockets/WebServer/src/main/java/funHttpServer/WebServer.java:185-299 | no earlier route's token occurs in `multiply?<query>` |
| Properties.MultiplyRouted | Sockets/WebServer/src/main/java/funHttpServer/WebServer.java:299-307 | `multiply?<query>` goes to multiply, which gets the query back |
| Properties.MultiplyPath | Sockets/WebServer/src/main/java/funHttpServer/WebServer.java:299-359 | a `multiply?<query>` request is answered by the factor decision on the non-empty map read back |
| Properties.MultiplyBothQuery | Sockets/WebServer/src/main/java/funHttpServer/WebServer.java:344-354 | both factors numeric: 200 with their product wrapped to an `int` |
| Properties.MultiplyFirstQuery | Sockets/WebServer/src/main/java/funHttpServer/WebServer.java:322-332 | num1 alone: it is multiplied by 5 |
| Properties.MultiplySecondQuery | Sockets/WebServer/src/main/java/funHttpServer/WebServer.java:333-343 | num2 alone: 5 is multiplied by it |
| Properties.MultiplyNeitherQuery | Sockets/WebServer/src/main/java/funHttpServer/WebServer.java:355-359 | a non-empty map naming neither factor: 400 with an empty body |
| Properties.MultiplyNotANumberQuery | Sockets/WebServer/src/main/java/funHttpServer/WebServer.java:322-346 | a num1 that does not parse escapes as NumberFormatException |
| Properties.MultiplyRequest | Sockets/WebServer/src/main/java/funHttpServer/WebServer.java:344-354 | a request naming two numeric factors sends their wrapped product |
| Properties.MultiplyFirstOnly | Sockets/WebServer/src/main/java/funHttpServer/WebServer.java:322-332 | a request naming only num1 sends num1*5 |
| Properties.MultiplySecondOnly | Sockets/WebServer/src/main/java/funHttpServer/WebServer.java:333-343 | a request naming only num2 sends 5*num2 |
| Properties.MultiplyNeither | Sockets/WebServer/src/main/java/funHttpServer/WebServer.java:355-359 | a request naming neither factor gets a 400 with an empty body |
| Properties.MultiplyNotANumber | Sockets/WebServer/src/main/java/funHttpServer/WebServer.java:322-346 | a request whose num1 does not parse aborts, whatever num2 holds |
| Properties.MultiplyDefaultQuery | Sockets/WebServer/src/main/java/funHttpServer/WebServer.java:310-320 | the empty map sends "Default Result is: 25" |
| Properties.MultiplyBlankNotEarlier | Sockets/WebServer/src/main/java/funHttpServer/WebServer.java:185-299 | no earlier route's token occurs in `multiply?` followed by blanks |
| Properties.MultiplyBlankRouted | Sockets/WebServer/src/main/java/funHttpServer/WebServer.java:299-305 | `multiply?` followed by blanks goes to multiply, and removing the token leaves the blanks |
| Properties.MultiplyDefault | Sockets/WebServer/src/main/java/funHttpServer/WebServer.java:299-320 | `multiply?` with nothing but blanks after it sends "Default Result is: 25" |
| Properties.GithubNotEarlier | Sockets/WebServer/src/main/java/funHttpServer/WebServer.java:185-366 | no earlier route's token occurs in `github?<query>` |
| Properties.GithubRouted | Sockets/WebServer/src/main/java/funHttpServer/WebServer.java:366-376 | `github?<query>` goes to github, which gets the query back |
| Properties.GithubRequest | Sockets/WebServer/src/main/java/funHttpServer/WebServer.java:376-378 | the fetched URL is `https://api.github.com/` followed by the last `query` value, or by "null" when there is none |
| Properties.GithubListing | Sockets/WebServer/src/main/java/funHttpServer/WebServer.java:382-396 | a complete array sends 200 with the blocks of its elements in order |
| Properties.FileRequest | Sockets/WebServer/src/main/java/funHttpServer/WebServer.java:281-298 | `file/<p>` without an earlier token sends 200 with the placeholder when the normalised rest (every "file/" removed) exists and 404 naming it otherwise; without a further "file/" that rest is `p` itself |
| Properties.Unrecognised | Sockets/WebServer/src/main/java/funHttpServer/WebServer.java:407-414 | a non-empty path that is neither `json` nor `random` and holds none of the five tokens gets the fallback 400 |
| Properties.GetRequest | Sockets/WebServer/src/main/java/funHttpServer/WebServer.java:109-140 | `GET /<path> <version>`, then header fields, then an empty line: the answer is the route of `<path>`, and nothing after the empty line is read |
| Properties.NoGetRequest | Sockets/WebServer/src/main/java/funHttpServer/WebServer.java:133-134 | a header without a GET line is answered with the "no GET" page |

## Left out

- The server loop in `main` (socket accept, writing and closing) is not part of this model. Each connection is one call of `CreateResponse`.
- These collaborators are not modelled; they are fields of `Env`:
  - `readFileInBytes` and `fetchURL` (file and network I/O)
  - the org.json decoding of the GitHub reply, as a list of repositories plus an optional failure message
  - `File.exists`
  - the `www/` listing
  - the `Random` pick of an image
- The order of `HashMap` keys in `_images` is unspecified, so the random index may name either image.
- The double `inches * 2.54` and its `Double.toString` rendering are floating point. The model passes the exact `int` total to `env.centimeters`.
- UTF-8 decoding of multi-byte `%XX` sequences in `URLDecoder` is not modelled. Each escaped byte becomes the character with that value.
- Case folding beyond ASCII in `equalsIgnoreCase` is not modelled.
- Unicode digits are not modelled.
- The `System.out` logging and `printStackTrace` have no effect on the response and are not modelled.
- `getBytes()` with the platform charset is not modelled. A response is its `String` text.
- A `null` directory listing (a missing `www/`) is not modelled; the listing is always a sequence.
- The GitHub `id`, a Java `long`, is an unbounded integer.
- The message texts of `Integer.parseInt` in `ft_to_cm` are the same in every JDK the source compiles on (Java 10 or later).
- UrlDecoder.Message: the `IllegalHex` text uses JDK 8's `NumberFormatException` wording (`For input string: "xy"`). Later JDKs word the radix-16 failure differently, so the exact body of that 400 in `cat` and `ft_to_cm` depends on the JDK.
- An escaping exception is recorded by its cause (the offending line, pair, escape or number), not by its message or stack trace.
