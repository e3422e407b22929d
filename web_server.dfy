/** `createResponse` as the source runs it: the header loop, then one branch of the
    route chain appending to a string builder; each method is proved to produce what
    the route functions of `Routes` describe. */
module WebServer {
  import opened JavaLang
  import opened UrlDecoder
  import opened Query
  import opened Header
  import opened Routes

  /** The three `append` calls that open a frame: status line, content type, blank line. */
  method AppendHead(builder: string, status: Status, contentType: ContentType) returns (b: string)
    ensures b == builder + Head(status, contentType)
  {
    b := builder + StatusLine(status);
    b := b + ContentTypeLine(contentType);
    b := b + "\n";
  }

  /** A builder holding exactly one rendered frame is what a route answering with
      that frame sends. */
  lemma Sends(builder: string, h: Handled, reply: Reply)
    requires builder == "" + Head(reply.status, reply.contentType) + reply.body
    requires h == Replied([reply])
    ensures Conclude(h) == Sent(builder)
  {
    var head := Head(reply.status, reply.contentType);
    assert "" + head == head;
    RenderOne(reply);
  }

  /** A builder holding two frames, one after the other. */
  lemma SendsTwo(first: string, builder: string, h: Handled, r: Reply, t: Reply)
    requires first == "" + Head(r.status, r.contentType) + r.body
    requires builder == first + Head(t.status, t.contentType) + t.body
    requires h == Replied([r, t])
    ensures Conclude(h) == Sent(builder)
  {
    var head := Head(r.status, r.contentType);
    assert "" + head == head;
    assert first == Render(r);
    var second := Head(t.status, t.contentType);
    assert builder == first + (second + t.body);
    RenderTwo(r, t);
  }

  /** `buildFileList`: one `<li>` per directory entry, in listing order. */
  method BuildFileList(names: seq<string>) returns (html: string)
    ensures html == FileList(names)
  {
    if |names| > 0 {
      var builder := "<ul>\n";
      for i := 0 to |names|
        invariant builder == "<ul>\n" + Items(names[..i])
      {
        ItemsAppend(names[..i], names[i]);
        assert names[..i + 1] == names[..i] + [names[i]];
        builder := builder + ("<li>" + names[i] + "</li>");
      }
      assert names[..|names|] == names;
      return builder + "</ul>\n";
    }
    return "No files in directory";
  }

  /** The empty path: root.html with its `${links}` replaced by the file list. */
  method RootResponse(env: Env) returns (out: Outcome)
    ensures out == Conclude(RootRoute(env))
  {
    if env.rootPage.ReadFailed? {
      return Sent(ErrorPage(env.rootPage.message));
    }
    var page := env.rootPage.text;
    var links := BuildFileList(env.wwwFiles);
    page := Replace(page, "${links}", links);
    var builder := AppendHead("", Ok200, Html);
    builder := builder + page;
    Sends(builder, RootRoute(env), Reply(Ok200, Html, page));
    return Sent(builder);
  }

  /** `json`: the header and URL of the picked image as a JSON object. */
  method JsonResponse(env: Env) returns (out: Outcome)
    ensures out == Conclude(JsonRoute(env))
  {
    var (header, url) := Images[env.image];
    var builder := AppendHead("", Ok200, Json);
    ghost var head := builder;
    builder := builder + "{";
    builder := builder + "\"header\":\"" + header + "\",";
    builder := builder + "\"image\":\"" + url + "\"";
    builder := builder + "}";
    JsonAppended(head, header, url);
    Sends(builder, JsonRoute(env), Reply(Ok200, Json, ImageJson(header, url)));
    return Sent(builder);
  }

  /** The four appends of the json branch write `ImageJson` after the head. */
  lemma JsonAppended(head: string, header: string, url: string)
    ensures head + "{" + "\"header\":\"" + header + "\"," + "\"image\":\"" + url + "\"" + "}" ==
            head + ImageJson(header, url)
  {
  }

  /** `random`: index.html as it is. */
  method RandomResponse(env: Env) returns (out: Outcome)
    ensures out == Conclude(Page(env.indexPage))
  {
    var builder := AppendHead("", Ok200, Html);
    if env.indexPage.ReadFailed? {
      return Sent(ErrorPage(env.indexPage.message));
    }
    builder := builder + env.indexPage.text;
    Sends(builder, Page(env.indexPage), Reply(Ok200, Html, env.indexPage.text));
    return Sent(builder);
  }

  /** `cat?`: 406 for a blank query, the kitty page for "1" or "2", 400 otherwise. */
  method CatResponse(request: string, env: Env) returns (out: Outcome)
    ensures out == Conclude(CatRoute(request, env))
  {
    var builder := "";
    var rest := Replace(request, "cat?", "");
    if Trim(rest) == "" {
      // the IllegalStateException handler
      builder := AppendHead(builder, NoDefault406, Html);
      builder := builder + ("Error code 406: " + CatNoArgument);
      Sends(builder, CatRoute(request, env), Error406(CatNoArgument));
      return Sent(builder);
    }
    var parsed := SplitQuery(rest);
    var message: string;
    match parsed {
      case Err(MissingEquals(pair)) =>
        return Aborted(PairWithoutEquals(pair));
      case Err(BadEscape(e)) =>
        message := Message(e);
      case Ok(q) =>
        var kitty := Get(q, "kitty");
        if kitty == Some("1") || kitty == Some("2") {
          var file := if kitty == Some("1") then env.kitty1 else env.kitty2;
          if file.ReadFailed? {
            return Sent(ErrorPage(file.message));
          }
          builder := AppendHead(builder, Ok200, Html);
          builder := builder + file.text;
          Sends(builder, CatRoute(request, env), Reply(Ok200, Html, file.text));
          return Sent(builder);
        }
        message := if kitty.None? then KittyMissing else KittyOutOfRange;
    }
    // the IllegalArgumentException handler
    builder := AppendHead(builder, BadRequest400, Html);
    builder := builder + ("Error code 400: " + message);
    Sends(builder, CatRoute(request, env), Error400(message));
    return Sent(builder);
  }

  /** `ft_to_cm?`: 406 for a blank query, 400 for the first failed check, and
      otherwise 200 with the rendering of the total in inches. */
  method FtToCmResponse(request: string, env: Env) returns (out: Outcome)
    ensures out == Conclude(FtToCmRoute(request, env))
  {
    var builder := "";
    var rest := Replace(request, "ft_to_cm?", "");
    if Trim(rest) == "" {
      builder := AppendHead(builder, NoDefault406, Html);
      builder := builder + ("Error code 406: " + FtToCmNoArgument);
      Sends(builder, FtToCmRoute(request, env), Error406(FtToCmNoArgument));
      return Sent(builder);
    }
    var parsed := SplitQuery(rest);
    var message: string;
    match parsed {
      case Err(MissingEquals(pair)) =>
        return Aborted(PairWithoutEquals(pair));
      case Err(BadEscape(e)) =>
        message := Message(e);
      case Ok(q) =>
        match FtToCmQuery(q) {
          case Refused(m) =>
            message := m;
          case Inches(total) =>
            var text := "This height in centimeters is " + env.centimeters(total);
            builder := AppendHead(builder, Ok200, Html);
            builder := builder + text;
            Sends(builder, FtToCmRoute(request, env), Reply(Ok200, Html, text));
            return Sent(builder);
        }
    }
    builder := AppendHead(builder, BadRequest400, Html);
    builder := builder + ("Error code 400: " + message);
    Sends(builder, FtToCmRoute(request, env), Error400(message));
    return Sent(builder);
  }

  /** `file/`: 200 with a fixed text when the normalised path exists, 404 naming it
      otherwise. */
  method FileResponse(request: string, env: Env) returns (out: Outcome)
    ensures out == Conclude(FileRoute(request, env))
  {
    var file := NormalizePath(Replace(request, "file/", ""));
    var builder := "";
    if env.fileExists(file) {
      builder := AppendHead(builder, Ok200, Html);
      builder := builder + FilePlaceholder;
      Sends(builder, FileRoute(request, env), Reply(Ok200, Html, FilePlaceholder));
    } else {
      builder := AppendHead(builder, NotFound404, Html);
      builder := builder + ("File not found: " + file);
      Sends(builder, FileRoute(request, env), Reply(NotFound404, Html, "File not found: " + file));
    }
    return Sent(builder);
  }

  /** `multiply?`: factors default to 5, a bad number escapes as NumberFormatException,
      and a query naming neither factor is a bare 400. */
  method MultiplyResponse(request: string) returns (out: Outcome)
    ensures out == Conclude(MultiplyRoute(request))
  {
    var queryString := Trim(Replace(request, "multiply?", ""));
    var q := Empty;
    if queryString != "" {
      var parsed := SplitQuery(Replace(request, "multiply?", ""));
      match parsed {
        case Err(MissingEquals(pair)) =>
          return Aborted(PairWithoutEquals(pair));
        case Err(BadEscape(e)) =>
          return Aborted(UncaughtDecodeError(e));
        case Ok(m) =>
          q := m;
      }
    }
    assert MultiplyRoute(request) == MultiplyQuery(q);
    var builder := "";
    if q.entries == [] {
      var result := Wrap32(5 * 5);
      builder := AppendHead(builder, Ok200, Html);
      builder := builder + ("Default Result is: " + IntToString(result));
      Sends(builder, MultiplyQuery(q), Reply(Ok200, Html, "Default Result is: " + IntToString(result)));
    } else if ContainsKey(q, "num1") && !ContainsKey(q, "num2") {
      var num1 := ParseInt(Get(q, "num1").value);
      if num1.None? {
        return Aborted(NotAnInteger(Get(q, "num1").value));
      }
      var result := Wrap32(num1.value * 5);
      builder := AppendHead(builder, Ok200, Html);
      builder := builder + ResultText(result);
      Sends(builder, MultiplyQuery(q), Reply(Ok200, Html, ResultText(result)));
    } else if !ContainsKey(q, "num1") && ContainsKey(q, "num2") {
      var num2 := ParseInt(Get(q, "num2").value);
      if num2.None? {
        return Aborted(NotAnInteger(Get(q, "num2").value));
      }
      var result := Wrap32(5 * num2.value);
      builder := AppendHead(builder, Ok200, Html);
      builder := builder + ResultText(result);
      Sends(builder, MultiplyQuery(q), Reply(Ok200, Html, ResultText(result)));
    } else if ContainsKey(q, "num1") && ContainsKey(q, "num2") {
      var num1 := ParseInt(Get(q, "num1").value);
      if num1.None? {
        return Aborted(NotAnInteger(Get(q, "num1").value));
      }
      var num2 := ParseInt(Get(q, "num2").value);
      if num2.None? {
        return Aborted(NotAnInteger(Get(q, "num2").value));
      }
      var result := Wrap32(num1.value * num2.value);
      builder := AppendHead(builder, Ok200, Html);
      builder := builder + ResultText(result);
      Sends(builder, MultiplyQuery(q), Reply(Ok200, Html, ResultText(result)));
    } else {
      builder := AppendHead(builder, BadRequest400, Html);
      Sends(builder, MultiplyQuery(q), Reply(BadRequest400, Html, ""));
    }
    return Sent(builder);
  }

  /** The loop over the decoded array: three lines per repository, in array order. */
  method AppendRepos(builder: string, rs: seq<Repo>) returns (b: string)
    ensures b == builder + RepoBlocks(rs)
  {
    b := builder;
    for i := 0 to |rs|
      invariant b == builder + RepoBlocks(rs[..i])
    {
      RepoAppended(builder, rs, i, b);
      b := b + FullNameLine(rs[i]);
      b := b + IdLine(rs[i]);
      b := b + LoginLine(rs[i]);
    }
    assert rs[..|rs|] == rs;
  }

  /** One round of the repository loop extends the blocks by the next repository. */
  lemma RepoAppended(builder: string, rs: seq<Repo>, i: nat, b: string)
    requires i < |rs| && b == builder + RepoBlocks(rs[..i])
    ensures b + FullNameLine(rs[i]) + IdLine(rs[i]) + LoginLine(rs[i]) == builder + RepoBlocks(rs[..i + 1])
  {
    var r := rs[i];
    RepoBlocksStep(rs, i);
    RepoBlockLines(b, r);
    Associative(builder, RepoBlocks(rs[..i]), RepoBlock(r));
  }

  /** `github?`: the 200 frame, then three lines per repository; a failure appends a
      400 frame after whatever was already written. */
  method GithubResponse(request: string, env: Env) returns (out: Outcome)
    ensures out == Conclude(GithubRoute(request, env))
  {
    var parsed := SplitQuery(Replace(request, "github?", ""));
    var q: LinkedMap;
    match parsed {
      case Err(MissingEquals(pair)) =>
        return Aborted(PairWithoutEquals(pair));
      case Err(BadEscape(e)) =>
        return Aborted(UncaughtDecodeError(e));
      case Ok(m) =>
        q := m;
    }
    assert GithubRoute(request, env) == Fetched(env.github(GithubUrl(q)));
    var builder := "";
    match env.github(GithubUrl(q)) {
      case FetchFailed(m) =>
        builder := AppendHead(builder, BadRequest400, Html);
        builder := builder + ("An exception was thrown: " + m + "\n");
        Sends(builder, Fetched(env.github(GithubUrl(q))), Exception400(m));
      case Repos(rs, failure) =>
        builder := AppendHead(builder, Ok200, Html);
        builder := AppendRepos(builder, rs);
        var listing := builder;
        if failure.Some? {
          // the catch block appends its frame after the listing
          builder := AppendHead(builder, BadRequest400, Html);
          builder := builder + ("An exception was thrown: " + failure.value + "\n");
          SendsTwo(listing, builder, Fetched(env.github(GithubUrl(q))),
                   Reply(Ok200, Html, RepoBlocks(rs)), Exception400(failure.value));
        } else {
          Sends(builder, Fetched(env.github(GithubUrl(q))), Reply(Ok200, Html, RepoBlocks(rs)));
        }
    }
    return Sent(builder);
  }

  /** A path no route recognises. */
  method FallbackResponse() returns (out: Outcome)
    ensures out == Conclude(Replied([Reply(BadRequest400, Html, Fallback)]))
  {
    var builder := AppendHead("", BadRequest400, Html);
    builder := builder + Fallback;
    Sends(builder, Replied([Reply(BadRequest400, Html, Fallback)]), Reply(BadRequest400, Html, Fallback));
    return Sent(builder);
  }

  /** `createResponse`: read the header, then answer through the first route that
      matches the path. */
  method CreateResponse(input: Stream, env: Env) returns (out: Outcome)
    ensures out == Respond(ReadHeader(input), env)
  {
    var header := ReadRequest(input);
    match header {
      case NoGet =>
        return Sent(NoGetPage);
      case ReadError(message) =>
        return Sent(ErrorPage(message));
      case MalformedGet(line) =>
        return Aborted(MalformedRequestLine(line));
      case Path(request) =>
        assert Respond(header, env) == Conclude(Handle(request, env));
        HandleCases(request, env);
        if |request| == 0 {
          out := RootResponse(env);
        } else if EqualsIgnoreCase(request, "json") {
          out := JsonResponse(env);
        } else if EqualsIgnoreCase(request, "random") {
          out := RandomResponse(env);
        } else if Contains(request, "cat?") {
          assert RouteOf(request) == Cat;
          out := CatResponse(request, env);
        } else if Contains(request, "ft_to_cm?") {
          assert RouteOf(request) == FtToCm;
          out := FtToCmResponse(request, env);
        } else if Contains(request, "file/") {
          assert RouteOf(request) == File;
          out := FileResponse(request, env);
        } else if Contains(request, "multiply?") {
          assert RouteOf(request) == Multiply;
          out := MultiplyResponse(request);
        } else if Contains(request, "github?") {
          assert RouteOf(request) == Github;
          out := GithubResponse(request, env);
        } else {
          assert RouteOf(request) == Unrecognized;
          out := FallbackResponse();
        }
    }
  }

  /** The route functions each branch of the chain is proved against. */
  lemma HandleCases(path: string, env: Env)
    ensures RouteOf(path) == Root ==> Handle(path, env) == RootRoute(env)
    ensures RouteOf(path) == RandomJson ==> Handle(path, env) == JsonRoute(env)
    ensures RouteOf(path) == RandomPage ==> Handle(path, env) == Page(env.indexPage)
    ensures RouteOf(path) == Cat ==> Handle(path, env) == CatRoute(path, env)
    ensures RouteOf(path) == FtToCm ==> Handle(path, env) == FtToCmRoute(path, env)
    ensures RouteOf(path) == File ==> Handle(path, env) == FileRoute(path, env)
    ensures RouteOf(path) == Multiply ==> Handle(path, env) == MultiplyRoute(path)
    ensures RouteOf(path) == Github ==> Handle(path, env) == GithubRoute(path, env)
    ensures RouteOf(path) == Unrecognized ==> Handle(path, env) == Replied([Reply(BadRequest400, Html, Fallback)])
  {
  }
}
