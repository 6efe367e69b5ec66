/**
 * The batch generator (generate-batch.go): reads the post manifest and a
 * prompt template and writes one OpenAI Batch API request per post, as one
 * JSON line each, asking for SEO metadata for the post's HTML body.
 *
 * The prompt file, the exported post bodies, JSON encoding and the buffered
 * writer are parameters: `Env` carries them.
 */
module GenerateBatch {
  import opened Wrappers
  import opened GoStrings
  import opened Csv

  /** A chat message. */
  datatype Message = Message(role: string, content: string)

  /** The body of a chat-completion request. */
  datatype Body = Body(model: string, messages: seq<Message>, maxTokens: int)

  /** One line of the batch input file. */
  datatype BatchRequest = BatchRequest(customId: string, httpMethod: string, url: string, body: Body)

  /** Only the id of each manifest row is used. */
  datatype Post = Post(postId: string)

  // ---------------------------------------------------------------------
  // The manifest
  // ---------------------------------------------------------------------

  datatype CsvError = ManifestUnopenable | HeaderUnreadable | PostIdColumnMissing

  /**
   * What reading the manifest yields: the id column is the first header
   * named "post_id", and rows are read until the reader reports an error.
   */
  function Manifest(file: Option<seq<ReadResult>>): (r: Result<seq<Post>, CsvError>)
    ensures r == Failure(ManifestUnopenable) <==> file.None?
    ensures r == Failure(HeaderUnreadable) <==> file.Some? && (file.value == [] || file.value[0].ReadError?)
    ensures r == Failure(PostIdColumnMissing) <==>
              file.Some? && file.value != [] && file.value[0].Record? && "post_id" !in file.value[0].fields
    ensures r.Success? ==>
      var headers := file.value[0].fields;
      var rows := file.value[1..];
      var k := FirstIndex(headers, "post_id");
      && 0 <= k
      && |r.value| == AcceptedCount(rows, |headers|)
      && forall i :: 0 <= i < |r.value| ==> r.value[i] == Post(rows[i].fields[k])
  {
    match file
    case None => Failure(ManifestUnopenable)
    case Some(stream) =>
      if stream == [] || stream[0].ReadError? then Failure(HeaderUnreadable)
      else
        var headers := stream[0].fields;
        var k := FirstIndex(headers, "post_id");
        if k < 0 then Failure(PostIdColumnMissing)
        else
          var rows := stream[1..];
          var n := AcceptedCount(rows, |headers|);
          Success(seq(n, i requires 0 <= i < n => Post(rows[i].fields[k])))
  }

  /** The header search: stops at the first column named "post_id". */
  method FindPostIdColumn(headers: seq<string>) returns (postIdIdx: int)
    ensures postIdIdx == FirstIndex(headers, "post_id")
  {
    postIdIdx := -1;
    var i := 0;
    while i < |headers|
      invariant 0 <= i <= |headers|
      invariant postIdIdx == -1
      invariant forall j :: 0 <= j < i ==> headers[j] != "post_id"
    {
      if headers[i] == "post_id" {
        postIdIdx := i;
        break;
      }
      i := i + 1;
    }
    if postIdIdx == -1 {
      assert "post_id" !in headers;
    }
  }

  /** `readPostsCSV`: finds the id column, then takes one id per row until the reader reports an error. */
  method ReadPostsCsv(file: Option<seq<ReadResult>>) returns (r: Result<seq<Post>, CsvError>)
    ensures r == Manifest(file)
  {
    if file.None? {
      return Failure(ManifestUnopenable);
    }
    var stream := file.value;
    if |stream| == 0 || stream[0].ReadError? {
      return Failure(HeaderUnreadable);
    }
    var headers := stream[0].fields;
    var postIdIdx := FindPostIdColumn(headers);
    if postIdIdx == -1 {
      return Failure(PostIdColumnMissing);
    }
    var rows := stream[1..];
    var posts: seq<Post> := [];
    var n := 0;
    while n < |rows| && Accepted(rows[n], |headers|)
      invariant 0 <= n <= |rows|
      invariant forall j :: 0 <= j < n ==> Accepted(rows[j], |headers|)
      invariant |posts| == n
      invariant forall j :: 0 <= j < n ==> posts[j] == Post(rows[j].fields[postIdIdx])
    {
      posts := posts + [Post(rows[n].fields[postIdIdx])];
      n := n + 1;
    }
    AcceptedCountIs(rows, |headers|, n);
    ghost var expected := Manifest(file).value;
    assert |expected| == |posts|;
    assert forall j :: 0 <= j < |posts| ==> expected[j] == posts[j];
    assert expected == posts;
    return Success(posts);
  }

  // ---------------------------------------------------------------------
  // One request
  // ---------------------------------------------------------------------

  function HtmlPath(postId: string): (p: string)
    ensures |p| == |postId| + 11 && p[6..|p| - 5] == postId
  {
    "posts/" + postId + ".html"
  }

  /** The prompt: template, a blank line, the post body, with outer white space removed. */
  function BuildPrompt(template: string, html: string): (prompt: string)
    ensures NoOuterSpace(prompt)
    ensures var text := template + "\n\n" + html;
      exists i, j :: 0 <= i <= j <= |text| && prompt == text[i..j] && AllSpace(text[..i]) && AllSpace(text[j..])
  {
    TrimSpace(template + "\n\n" + html)
  }

  /** Trimming changes nothing when the template does not start, and the body does not end, with white space. */
  lemma BuildPromptKeepsCleanText(template: string, html: string)
    requires template != [] && !IsSpace(template[0])
    requires html != [] && !IsSpace(html[|html| - 1])
    ensures BuildPrompt(template, html) == template + "\n\n" + html
  {
    var s := template + "\n\n" + html;
    assert s[0] == template[0] && s[|s| - 1] == html[|html| - 1];
    TrimSpaceKeepsClean(s);
  }

  /** The request record for one post: a single user message to the fixed model and endpoint. */
  function NewRequest(postId: string, prompt: string): (req: BatchRequest)
    ensures req.customId == postId && req.httpMethod == "POST" && req.url == "/v1/chat/completions"
    ensures req.body.model == "gpt-4.1" && req.body.maxTokens == 2048
    ensures req.body.messages == [Message("user", prompt)]
  {
    BatchRequest(postId, "POST", "/v1/chat/completions", Body("gpt-4.1", [Message("user", prompt)], 2048))
  }

  // ---------------------------------------------------------------------
  // The generation loop
  // ---------------------------------------------------------------------

  /**
   * What the loop sees: the prompt template, the exported post bodies (path
   * to HTML; a path that is absent cannot be read), JSON encoding (`None`
   * when it fails) and whether the writer accepts a line while it is healthy.
   */
  datatype Env = Env(template: string, html: map<string, string>,
                     marshal: BatchRequest -> Option<string>, writeOk: string -> bool)

  /**
   * The loop's state: the lines written so far, in order, the two counters,
   * and whether the buffered writer has failed (a failed writer refuses every
   * later write).
   */
  datatype Tally = Tally(lines: seq<string>, successCount: nat, errorCount: nat, writeFailed: bool)

  /** The request a post would be sent as, when its body can be read. */
  function RequestFor(env: Env, post: Post): (r: Option<BatchRequest>)
    ensures r.Some? <==> HtmlPath(post.postId) in env.html
    ensures r.Some? ==> r.value.customId == post.postId
                        && r.value.body.messages == [Message("user", BuildPrompt(env.template, env.html[HtmlPath(post.postId)]))]
  {
    var path := HtmlPath(post.postId);
    if path in env.html then Some(NewRequest(post.postId, BuildPrompt(env.template, env.html[path]))) else None
  }

  predicate EndsWithNewline(s: string) {
    |s| > 0 && s[|s| - 1] == '\n'
  }

  /** One line per success, each ending with a newline. */
  predicate LinesCounted(t: Tally) {
    |t.lines| == t.successCount && forall i :: 0 <= i < |t.lines| ==> EndsWithNewline(t.lines[i])
  }

  /** One pass of the loop. */
  function Step(env: Env, t: Tally, post: Post): (t': Tally)
    ensures t'.successCount + t'.errorCount == t.successCount + t.errorCount + 1
    ensures LinesCounted(t) ==> LinesCounted(t')
    ensures t.lines <= t'.lines && t.successCount <= t'.successCount && t.errorCount <= t'.errorCount
    ensures t.writeFailed ==> t'.writeFailed && t'.lines == t.lines
    ensures RequestFor(env, post).None? ==> t' == t.(errorCount := t.errorCount + 1)
  {
    match RequestFor(env, post)
    case None => t.(errorCount := t.errorCount + 1)
    case Some(req) =>
      match env.marshal(req)
      case None => t.(errorCount := t.errorCount + 1)
      case Some(json) =>
        var line := json + "\n";
        if t.writeFailed || !env.writeOk(line) then t.(errorCount := t.errorCount + 1, writeFailed := true)
        else t.(lines := t.lines + [line], successCount := t.successCount + 1)
  }

  /** The loop over the posts, from a fresh writer. */
  function Generate(env: Env, posts: seq<Post>): (t: Tally)
    ensures t.successCount + t.errorCount == |posts|
    ensures LinesCounted(t)
  {
    if posts == [] then Tally([], 0, 0, false)
    else Step(env, Generate(env, posts[..|posts| - 1]), posts[|posts| - 1])
  }

  /**
   * The body of `main`'s loop for one post: read the body, build and encode
   * the request, and write it as one line, counting a success or an error.
   */
  method HandlePost(env: Env, post: Post, lines: seq<string>, successCount: nat, errorCount: nat, writeFailed: bool)
    returns (lines': seq<string>, successCount': nat, errorCount': nat, writeFailed': bool)
    ensures Tally(lines', successCount', errorCount', writeFailed')
            == Step(env, Tally(lines, successCount, errorCount, writeFailed), post)
  {
    lines', successCount', errorCount', writeFailed' := lines, successCount, errorCount, writeFailed;
    var htmlPath := HtmlPath(post.postId);
    if htmlPath !in env.html {
      errorCount' := errorCount + 1;
      return;
    }
    var htmlContent := env.html[htmlPath];
    var fullPrompt := env.template + "\n\n" + htmlContent;
    fullPrompt := TrimSpace(fullPrompt);
    var req := NewRequest(post.postId, fullPrompt);
    assert RequestFor(env, post) == Some(req);
    var jsonLine := env.marshal(req);
    if jsonLine.None? {
      errorCount' := errorCount + 1;
      return;
    }
    var line := jsonLine.value + "\n";
    if writeFailed || !env.writeOk(line) {
      writeFailed' := true;
      errorCount' := errorCount + 1;
      return;
    }
    lines' := lines + [line];
    successCount' := successCount + 1;
  }

  /** `main`'s loop over the posts. */
  method GenerateLines(env: Env, posts: seq<Post>) returns (lines: seq<string>, successCount: nat, errorCount: nat)
    ensures var t := Generate(env, posts);
      lines == t.lines && successCount == t.successCount && errorCount == t.errorCount
  {
    lines, successCount, errorCount := [], 0, 0;
    var writeFailed := false;
    for i := 0 to |posts|
      invariant Tally(lines, successCount, errorCount, writeFailed) == Generate(env, posts[..i])
    {
      assert posts[..i + 1][..i] == posts[..i];
      lines, successCount, errorCount, writeFailed := HandlePost(env, posts[i], lines, successCount, errorCount, writeFailed);
    }
    assert posts[..|posts|] == posts;
  }

  /** Lines already written stay first: later posts only append. */
  lemma {:induction false} GenerateExtends(env: Env, posts: seq<Post>, more: seq<Post>)
    ensures Generate(env, posts).lines <= Generate(env, posts + more).lines
    ensures Generate(env, posts).successCount <= Generate(env, posts + more).successCount
    ensures Generate(env, posts).errorCount <= Generate(env, posts + more).errorCount
    decreases |more|
  {
    if more == [] {
      assert posts + more == posts;
    } else {
      var init := more[..|more| - 1];
      GenerateExtends(env, posts, init);
      assert (posts + more)[..|posts + more| - 1] == posts + init;
    }
  }

  /** Once a write has failed, no later post is written. */
  lemma {:induction false} WriteFailureSticks(env: Env, posts: seq<Post>, more: seq<Post>)
    requires Generate(env, posts).writeFailed
    ensures Generate(env, posts + more).writeFailed
    ensures Generate(env, posts + more).lines == Generate(env, posts).lines
    decreases |more|
  {
    if more == [] {
      assert posts + more == posts;
    } else {
      var init := more[..|more| - 1];
      WriteFailureSticks(env, posts, init);
      assert (posts + more)[..|posts + more| - 1] == posts + init;
    }
  }

  /** Encoding and writing never fail. */
  ghost predicate Healthy(env: Env) {
    (forall req :: env.marshal(req).Some?) && (forall line :: env.writeOk(line))
  }

  /** The posts whose body cannot be read. */
  function MissingCount(env: Env, posts: seq<Post>): (n: nat)
    ensures n <= |posts|
    ensures n == 0 <==> forall i :: 0 <= i < |posts| ==> HtmlPath(posts[i].postId) in env.html
  {
    if posts == [] then 0
    else MissingCount(env, posts[..|posts| - 1]) + (if HtmlPath(posts[|posts| - 1].postId) in env.html then 0 else 1)
  }

  /** The line a post is written as when encoding succeeds. */
  ghost function LineFor(env: Env, post: Post): string
    requires Healthy(env) && RequestFor(env, post).Some?
  {
    env.marshal(RequestFor(env, post).value).value + "\n"
  }

  /** The lines a healthy run writes: those of the posts whose body can be read, in manifest order. */
  ghost function HealthyLines(env: Env, posts: seq<Post>): seq<string>
    requires Healthy(env)
  {
    if posts == [] then []
    else
      var last := posts[|posts| - 1];
      HealthyLines(env, posts[..|posts| - 1]) + if HtmlPath(last.postId) in env.html then [LineFor(env, last)] else []
  }

  /**
   * When encoding and writing never fail, each post with a missing body adds
   * one error and no line, and every other post adds its line, in manifest
   * order.
   */
  lemma {:induction false} HealthyRunCountsMissingBodies(env: Env, posts: seq<Post>)
    requires Healthy(env)
    ensures !Generate(env, posts).writeFailed
    ensures Generate(env, posts).errorCount == MissingCount(env, posts)
    ensures Generate(env, posts).successCount == |posts| - MissingCount(env, posts)
    ensures Generate(env, posts).lines == HealthyLines(env, posts)
    decreases |posts|
  {
    if posts != [] {
      var n := |posts| - 1;
      var init := posts[..n];
      HealthyRunCountsMissingBodies(env, init);
      var t := Generate(env, init);
      GenerateUnfold(env, posts);
      if HtmlPath(posts[n].postId) in env.html {
        StepHealthy(env, t, posts[n]);
      } else {
        assert RequestFor(env, posts[n]).None?;
      }
    }
  }

  /** When every body is present and encoding and writing never fail, there is one line per post, in order. */
  lemma {:induction false} HealthyRunWritesEveryPost(env: Env, posts: seq<Post>)
    requires Healthy(env)
    requires forall i :: 0 <= i < |posts| ==> HtmlPath(posts[i].postId) in env.html
    ensures !Generate(env, posts).writeFailed && Generate(env, posts).errorCount == 0
    ensures |Generate(env, posts).lines| == |posts|
    ensures forall i :: 0 <= i < |posts| ==> Generate(env, posts).lines[i] == LineFor(env, posts[i])
    decreases |posts|
  {
    if posts != [] {
      var n := |posts| - 1;
      var init := posts[..n];
      HealthyRunWritesEveryPost(env, init);
      var t := Generate(env, init);
      StepHealthy(env, t, posts[n]);
      GenerateUnfold(env, posts);
      var lines := Generate(env, posts).lines;
      assert lines == t.lines + [LineFor(env, posts[n])];
      forall i | 0 <= i < |posts|
        ensures lines[i] == LineFor(env, posts[i])
      {
        if i < n {
          assert lines[i] == t.lines[i];
          assert init[i] == posts[i];
          assert t.lines[i] == LineFor(env, init[i]);
        } else {
          assert i == n;
          assert lines[i] == LineFor(env, posts[n]);
        }
      }
    }
  }

  lemma GenerateUnfold(env: Env, posts: seq<Post>)
    requires posts != []
    ensures Generate(env, posts) == Step(env, Generate(env, posts[..|posts| - 1]), posts[|posts| - 1])
  {
  }

  /** A healthy step on a readable post appends that post's line. */
  lemma StepHealthy(env: Env, t: Tally, post: Post)
    requires Healthy(env) && !t.writeFailed && HtmlPath(post.postId) in env.html
    ensures Step(env, t, post) == t.(lines := t.lines + [LineFor(env, post)], successCount := t.successCount + 1)
  {
  }

  // ---------------------------------------------------------------------
  // The whole run
  // ---------------------------------------------------------------------

  /** Why the run stops before generating anything. */
  datatype RunError = TemplateUnreadable | ManifestFailed(csvError: CsvError) | OutputUncreatable

  /**
   * `main`: reads the template, then the manifest, then creates the output
   * file, each failure ending the run; then writes one line per post.
   */
  method Run(template: Option<string>, manifest: Option<seq<ReadResult>>, outputCreatable: bool,
             html: map<string, string>, marshal: BatchRequest -> Option<string>, writeOk: string -> bool)
    returns (r: Result<(seq<string>, nat, nat), RunError>)
    ensures template.None? ==> r == Failure(TemplateUnreadable)
    ensures template.Some? && Manifest(manifest).Failure? ==> r == Failure(ManifestFailed(Manifest(manifest).error))
    ensures template.Some? && Manifest(manifest).Success? && !outputCreatable ==> r == Failure(OutputUncreatable)
    ensures template.Some? && Manifest(manifest).Success? && outputCreatable ==>
      var t := Generate(Env(template.value, html, marshal, writeOk), Manifest(manifest).value);
      r == Success((t.lines, t.successCount, t.errorCount))
  {
    if template.None? {
      return Failure(TemplateUnreadable);
    }
    var posts := ReadPostsCsv(manifest);
    if posts.Failure? {
      return Failure(ManifestFailed(posts.error));
    }
    if !outputCreatable {
      return Failure(OutputUncreatable);
    }
    var lines, successCount, errorCount := GenerateLines(Env(template.value, html, marshal, writeOk), posts.value);
    return Success((lines, successCount, errorCount));
  }
}
