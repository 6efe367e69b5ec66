/**
 * The converter (substack2hugo.go): reads the post manifest and the SEO
 * responses of an LLM batch, and writes one Hugo content file per post:
 * TOML front matter followed by the post's HTML body.
 *
 * The file system is a map from path to content; the output folder starts
 * empty because it is cleared (or created) before the posts are converted.
 */
module Substack2Hugo {
  import opened Wrappers
  import opened GoStrings
  import opened Csv
  import LastWins

  /** One manifest row; every field is kept as text. */
  datatype Post = Post(postId: string, postDate: string, isPublished: string, title: string)

  /** The three parts of one SEO response. */
  datatype SEOContent = SEOContent(title: string, description: string, keywords: string)

  /** One decoded line of the batch output file. */
  datatype OutputRecord = OutputRecord(customId: string, response: Response)
  datatype Response = Response(body: Body)
  datatype Body = Body(choices: seq<Choice>)
  datatype Choice = Choice(index: int, message: Message)
  datatype Message = Message(content: string)

  // ---------------------------------------------------------------------
  // The manifest
  // ---------------------------------------------------------------------

  datatype CsvError = ManifestUnopenable | HeaderUnreadable | MissingField(name: string)

  /** The columns the manifest must have, in the order they are checked. */
  const RequiredFields: seq<string> := ["post_id", "post_date", "is_published", "title"]

  predicate HasRequiredFields(headers: seq<string>) {
    forall i :: 0 <= i < |RequiredFields| ==> RequiredFields[i] in headers
  }

  /** The first of `required` that is not a header, if any. */
  function FirstMissing(required: seq<string>, headers: seq<string>): (m: Option<string>)
    ensures m.None? <==> forall i :: 0 <= i < |required| ==> required[i] in headers
    ensures m.Some? ==> exists k :: 0 <= k < |required| && required[k] == m.value && m.value !in headers
                                    && forall j :: 0 <= j < k ==> required[j] in headers
  {
    if required == [] then None
    else if required[0] !in headers then Some(required[0])
    else
      var m := FirstMissing(required[1..], headers);
      assert forall i :: 1 <= i < |required| ==> required[i] == required[1..][i - 1];
      if m.Some? then
        var k :| 0 <= k < |required[1..]| && required[1..][k] == m.value && m.value !in headers
                 && forall j :: 0 <= j < k ==> required[1..][j] in headers;
        assert required[k + 1] == m.value;
        m
      else m
  }

  /** The required name at position `k` is reported when it is absent and every earlier one is present. */
  lemma {:induction false} FirstMissingIs(required: seq<string>, headers: seq<string>, k: nat)
    requires k < |required| && required[k] !in headers
    requires forall j :: 0 <= j < k ==> required[j] in headers
    ensures FirstMissing(required, headers) == Some(required[k])
    decreases k
  {
    if k > 0 {
      FirstMissingIs(required[1..], headers, k - 1);
    }
  }

  /** The header map of the source: each name goes to the position of its last occurrence. */
  method IndexHeaders(headers: seq<string>) returns (fieldIdx: map<string, nat>)
    ensures forall h :: h in fieldIdx <==> h in headers
    ensures forall h :: h in fieldIdx ==> fieldIdx[h] == LastIndex(headers, h)
  {
    fieldIdx := map[];
    var i := 0;
    while i < |headers|
      invariant 0 <= i <= |headers|
      invariant forall h :: h in fieldIdx <==> h in headers[..i]
      invariant forall h :: h in fieldIdx ==> fieldIdx[h] == LastIndex(headers[..i], h)
    {
      assert headers[..i + 1][..i] == headers[..i];
      fieldIdx := fieldIdx[headers[i] := i];
      i := i + 1;
    }
    assert headers[..i] == headers;
  }

  /** `v` is the row's value in the last column named `name`. */
  ghost predicate InLastColumn(headers: seq<string>, record: seq<string>, name: string, v: string)
    requires |record| == |headers|
  {
    exists j :: 0 <= j < |headers| && headers[j] == name && record[j] == v
                && forall k :: j < k < |headers| ==> headers[k] != name
  }

  /** A data row projected onto a post through the last column bearing each required name. */
  function Project(headers: seq<string>, record: seq<string>): Post
    requires |record| == |headers| && HasRequiredFields(headers)
  {
    assert RequiredFields[0] in headers && RequiredFields[1] in headers;
    assert RequiredFields[2] in headers && RequiredFields[3] in headers;
    Post(record[LastIndex(headers, "post_id")],
         record[LastIndex(headers, "post_date")],
         record[LastIndex(headers, "is_published")],
         record[LastIndex(headers, "title")])
  }

  /** Each field of the post is the row's value in the last column of that field's name. */
  lemma ProjectTakesLastColumns(headers: seq<string>, record: seq<string>)
    requires |record| == |headers| && HasRequiredFields(headers)
    ensures var p := Project(headers, record);
      && InLastColumn(headers, record, "post_id", p.postId)
      && InLastColumn(headers, record, "post_date", p.postDate)
      && InLastColumn(headers, record, "is_published", p.isPublished)
      && InLastColumn(headers, record, "title", p.title)
  {
    forall name | name in RequiredFields
      ensures InLastColumn(headers, record, name, record[LastIndex(headers, name)])
    {
      var j := LastIndex(headers, name);
      assert headers[j] == name;
    }
    assert RequiredFields == ["post_id", "post_date", "is_published", "title"];
  }

  /**
   * What reading the manifest yields. `None` is a file that cannot be
   * opened; otherwise the stream's first entry is the header row.
   */
  function Manifest(file: Option<seq<ReadResult>>): (r: Result<seq<Post>, CsvError>)
    ensures r == Failure(ManifestUnopenable) <==> file.None?
    ensures r == Failure(HeaderUnreadable) <==> file.Some? && (file.value == [] || file.value[0].ReadError?)
    ensures r.Failure? && r.error.MissingField? ==>
      var headers := file.value[0].fields;
      exists k :: 0 <= k < |RequiredFields| && r.error.name == RequiredFields[k] && RequiredFields[k] !in headers
        && forall j :: 0 <= j < k ==> RequiredFields[j] in headers
    ensures r.Success? ==>
      var headers := file.value[0].fields;
      var rows := file.value[1..];
      && HasRequiredFields(headers)
      && |r.value| == AcceptedCount(rows, |headers|)
      && forall i :: 0 <= i < |r.value| ==> r.value[i] == Project(headers, rows[i].fields)
  {
    match file
    case None => Failure(ManifestUnopenable)
    case Some(stream) =>
      if stream == [] || stream[0].ReadError? then Failure(HeaderUnreadable)
      else
        var headers := stream[0].fields;
        match FirstMissing(RequiredFields, headers)
        case Some(name) => Failure(MissingField(name))
        case None =>
          var rows := stream[1..];
          var n := AcceptedCount(rows, |headers|);
          Success(seq(n, i requires 0 <= i < n => Project(headers, rows[i].fields)))
  }

  /** The data-row loop of `readPostsCSV`: one post per row until the reader reports an error. */
  method ReadRows(rows: seq<ReadResult>, headers: seq<string>, fieldIdx: map<string, nat>) returns (posts: seq<Post>)
    requires HasRequiredFields(headers)
    requires forall h :: h in fieldIdx <==> h in headers
    requires forall h :: h in fieldIdx ==> fieldIdx[h] == LastIndex(headers, h)
    ensures |posts| == AcceptedCount(rows, |headers|)
    ensures forall j :: 0 <= j < |posts| ==> posts[j] == Project(headers, rows[j].fields)
  {
    assert RequiredFields[0] in headers && RequiredFields[1] in headers;
    assert RequiredFields[2] in headers && RequiredFields[3] in headers;
    posts := [];
    var n := 0;
    while n < |rows| && Accepted(rows[n], |headers|)
      invariant 0 <= n <= |rows|
      invariant forall j :: 0 <= j < n ==> Accepted(rows[j], |headers|)
      invariant |posts| == n
      invariant forall j :: 0 <= j < n ==> posts[j] == Project(headers, rows[j].fields)
    {
      var record := rows[n].fields;
      var post := Post(record[fieldIdx["post_id"]], record[fieldIdx["post_date"]],
                       record[fieldIdx["is_published"]], record[fieldIdx["title"]]);
      posts := posts + [post];
      n := n + 1;
    }
    AcceptedCountIs(rows, |headers|, n);
  }

  /** `readPostsCSV`: header map, required-field check, then one post per row until the reader reports an error. */
  method ReadPostsCsv(file: Option<seq<ReadResult>>) returns (r: Result<seq<Post>, CsvError>)
    ensures r == Manifest(file)
  {
    if file.None? {
      return Failure(ManifestUnopenable);
    }
    var stream := file.value;
    if |stream| == 0 || stream[0].ReadError? {
      return Failure(HeaderUnreadable);
    }
    var headers := stream[0].fields;
    var fieldIdx := IndexHeaders(headers);
    for k := 0 to |RequiredFields|
      invariant forall j :: 0 <= j < k ==> RequiredFields[j] in headers
    {
      var key := RequiredFields[k];
      if key !in fieldIdx {
        FirstMissingIs(RequiredFields, headers, k);
        return Failure(MissingField(key));
      }
    }
    assert RequiredFields[0] in headers && RequiredFields[1] in headers;
    assert RequiredFields[2] in headers && RequiredFields[3] in headers;
    var posts := ReadRows(stream[1..], headers, fieldIdx);
    assert FirstMissing(RequiredFields, headers).None?;
    ghost var expected := Manifest(file).value;
    assert |expected| == |posts|;
    assert forall j :: 0 <= j < |posts| ==> expected[j] == posts[j];
    assert expected == posts;
    assert Manifest(file) == Success(expected);
    return Success(posts);
  }

  /** The columns listed by `order` (a reordering when `order` is a permutation of the positions). */
  function Reorder<T>(s: seq<T>, order: seq<nat>): (r: seq<T>)
    requires forall i :: 0 <= i < |order| ==> order[i] < |s|
    ensures |r| == |order| && forall i :: 0 <= i < |order| ==> r[i] == s[order[i]]
  {
    seq(|order|, i requires 0 <= i < |order| => s[order[i]])
  }

  /** After reordering, the last column bearing `name` holds the same value as before. */
  lemma SameColumnAfterReorder(headers: seq<string>, record: seq<string>, order: seq<nat>, name: string)
    requires |record| == |headers|
    requires forall a, b :: 0 <= a < b < |headers| ==> headers[a] != headers[b]
    requires forall i :: 0 <= i < |order| ==> order[i] < |headers|
    requires name in Reorder(headers, order)
    ensures name in headers
    ensures Reorder(record, order)[LastIndex(Reorder(headers, order), name)] == record[LastIndex(headers, name)]
  {
    var j := LastIndex(Reorder(headers, order), name);
    assert headers[order[j]] == name;
    LastIndexOfDistinct(headers, name, order[j]);
  }

  /**
   * Fields are found by header name, not by position: rearranging the
   * columns of a manifest without repeated header names leaves every post
   * unchanged.
   */
  lemma ProjectionIgnoresColumnOrder(headers: seq<string>, record: seq<string>, order: seq<nat>)
    requires |record| == |headers| && HasRequiredFields(headers)
    requires forall a, b :: 0 <= a < b < |headers| ==> headers[a] != headers[b]
    requires forall i :: 0 <= i < |order| ==> order[i] < |headers|
    requires HasRequiredFields(Reorder(headers, order))
    ensures Project(Reorder(headers, order), Reorder(record, order)) == Project(headers, record)
  {
    var headers' := Reorder(headers, order);
    assert RequiredFields[0] in headers' && RequiredFields[1] in headers';
    assert RequiredFields[2] in headers' && RequiredFields[3] in headers';
    SameColumnAfterReorder(headers, record, order, "post_id");
    SameColumnAfterReorder(headers, record, order, "post_date");
    SameColumnAfterReorder(headers, record, order, "is_published");
    SameColumnAfterReorder(headers, record, order, "title");
  }

  /** Nothing after the first row the reader rejects reaches the posts. */
  lemma ManifestStopsAtRejectedRow(stream: seq<ReadResult>, more: seq<ReadResult>)
    requires stream != [] && stream[0].Record?
    requires AcceptedCount(stream[1..], |stream[0].fields|) < |stream| - 1
    ensures Manifest(Some(stream + more)) == Manifest(Some(stream))
  {
    var width := |stream[0].fields|;
    assert (stream + more)[1..] == stream[1..] + more;
    assert (stream + more)[0] == stream[0];
    AcceptedCountIgnoresTail(stream[1..], more, width);
    var n := AcceptedCount(stream[1..], width);
    var longer, shorter := Manifest(Some(stream + more)), Manifest(Some(stream));
    if shorter.Success? {
      assert longer.Success?;
      assert |longer.value| == n == |shorter.value|;
      forall i | 0 <= i < n ensures longer.value[i] == shorter.value[i] {
        assert (stream + more)[1..][i] == stream[1..][i];
      }
      assert longer.value == shorter.value;
    }
  }

  // ---------------------------------------------------------------------
  // The SEO responses
  // ---------------------------------------------------------------------

  /** The separator between title, description and keywords in a response. */
  const Delimiter: string := "----"

  /** A response text split on the delimiter; usable only when it has exactly three parts, each trimmed. */
  function ParseSeo(content: string): (seo: Option<SEOContent>)
    ensures seo.Some? ==> NoOuterSpace(seo.value.title) && NoOuterSpace(seo.value.description)
                          && NoOuterSpace(seo.value.keywords)
    ensures Index(content, Delimiter) == -1 ==> seo.None?
  {
    var parts := Split(content, Delimiter);
    if |parts| != 3 then None
    else Some(SEOContent(TrimSpace(parts[0]), TrimSpace(parts[1]), TrimSpace(parts[2])))
  }

  /** A response made of three delimited parts gives back those parts, trimmed. */
  lemma ParseSeoOfThreeParts(title: string, description: string, keywords: string)
    requires Index(title + Delimiter, Delimiter) == |title|
    requires Index(description + Delimiter, Delimiter) == |description|
    requires Index(keywords, Delimiter) == -1
    ensures ParseSeo(title + Delimiter + description + Delimiter + keywords)
         == Some(SEOContent(TrimSpace(title), TrimSpace(description), TrimSpace(keywords)))
  {
    SplitThree(title, description, keywords, Delimiter);
  }

  lemma AppendAssoc(x: string, y: string, z: string)
    ensures x + y + z == x + (y + z)
  {
  }

  /** Two delimiters, each the first occurrence after the text before it, split a text into three parts. */
  lemma SplitThree(a: string, b: string, c: string, sep: string)
    requires sep != []
    requires Index(a + sep, sep) == |a| && Index(b + sep, sep) == |b| && Index(c, sep) == -1
    ensures Split(a + sep + b + sep + c, sep) == [a, b, c]
  {
    var rest := b + sep + c;
    AppendAssoc(a + sep + b, sep, c);
    AppendAssoc(a + sep, b, sep + c);
    AppendAssoc(b, sep, c);
    assert Split(c, sep) == [c];
    SplitDelimited(b, sep, c);
    SplitDelimited(a, sep, rest);
  }

  /** A response with only two delimited parts is not usable. */
  lemma ParseSeoRejectsTwoParts(first: string, second: string)
    requires Index(first + Delimiter, Delimiter) == |first|
    requires Index(second, Delimiter) == -1
    ensures ParseSeo(first + Delimiter + second).None?
  {
    SplitDelimited(first, Delimiter, second);
  }

  /** A response with three or more delimiters, whatever follows the third, is not usable either. */
  lemma ParseSeoRejectsFourOrMoreParts(a: string, b: string, c: string, rest: string)
    requires Index(a + Delimiter, Delimiter) == |a|
    requires Index(b + Delimiter, Delimiter) == |b|
    requires Index(c + Delimiter, Delimiter) == |c|
    ensures ParseSeo(a + Delimiter + b + Delimiter + c + Delimiter + rest).None?
  {
    var d := Delimiter;
    var r3 := c + d + rest;
    var r2 := b + d + r3;
    AppendAssoc(a + d + b + d + c, d, rest);
    AppendAssoc(a + d + b + d, c, d + rest);
    AppendAssoc(c, d, rest);
    AppendAssoc(a + d + b, d, r3);
    AppendAssoc(a + d, b, d + r3);
    AppendAssoc(b, d, r3);
    assert a + d + b + d + c + d + rest == a + d + r2;
    SplitDelimited(c, d, rest);
    SplitDelimited(b, d, r3);
    SplitDelimited(a, d, r2);
    assert |Split(a + d + r2, d)| == 3 + |Split(rest, d)|;
  }

  /** The response content can be read from every decoded line. */
  predicate ChoicesPresent(lines: seq<Option<OutputRecord>>) {
    forall i :: 0 <= i < |lines| && lines[i].Some? ==> |lines[i].value.response.body.choices| > 0
  }

  /** What one line contributes to the SEO table: nothing, or an id with its parsed content. */
  function Entry(line: Option<OutputRecord>): (e: Option<(string, SEOContent)>)
    requires line.Some? ==> |line.value.response.body.choices| > 0
    ensures e.Some? <==> line.Some? && ParseSeo(line.value.response.body.choices[0].message.content).Some?
    ensures e.Some? ==> e.value.0 == line.value.customId
                        && Some(e.value.1) == ParseSeo(line.value.response.body.choices[0].message.content)
  {
    match line
    case None => None
    case Some(record) =>
      match ParseSeo(record.response.body.choices[0].message.content)
      case None => None
      case Some(seo) => Some((record.customId, seo))
  }

  function Entries(lines: seq<Option<OutputRecord>>): seq<Option<(string, SEOContent)>>
    requires ChoicesPresent(lines)
  {
    seq(|lines|, i requires 0 <= i < |lines| && ChoicesPresent(lines) => Entry(lines[i]))
  }

  /** The SEO table the batch output yields: each line's entry in turn, a later one replacing an earlier one. */
  function SeoTable(lines: seq<Option<OutputRecord>>): (table: map<string, SEOContent>)
    requires ChoicesPresent(lines)
    ensures |table| <= |lines|
  {
    LastWins.FillSize(Entries(lines));
    LastWins.Fill(Entries(lines))
  }

  /** Line `line` yields a usable entry for `id`. */
  predicate Supplies(line: Option<OutputRecord>, id: string)
    requires line.Some? ==> |line.value.response.body.choices| > 0
  {
    Entry(line).Some? && Entry(line).value.0 == id
  }

  /** An id is in the table exactly when some line supplies it. */
  lemma SeoTableHasSupplied(lines: seq<Option<OutputRecord>>, id: string)
    requires ChoicesPresent(lines)
    ensures id in SeoTable(lines) <==> exists i :: 0 <= i < |lines| && Supplies(lines[i], id)
  {
    var es := Entries(lines);
    assert SeoTable(lines) == LastWins.Fill(es);
    LastWins.FillLastWriteWins(es, id);
    if id in SeoTable(lines) {
      var i :| LastWins.Writes(es, i, id);
      assert es[i] == Entry(lines[i]);
      assert Supplies(lines[i], id);
    } else {
      forall i | 0 <= i < |lines| ensures !Supplies(lines[i], id) {
        assert es[i] == Entry(lines[i]);
        assert !LastWins.Writes(es, i, id);
      }
    }
  }

  /** The table holds, for an id, the content of the last line that supplies it. */
  lemma SeoTableLastLineWins(lines: seq<Option<OutputRecord>>, id: string, i: nat)
    requires ChoicesPresent(lines)
    requires i < |lines| && Supplies(lines[i], id)
    requires forall j :: i < j < |lines| ==> !Supplies(lines[j], id)
    ensures id in SeoTable(lines) && SeoTable(lines)[id] == Entry(lines[i]).value.1
  {
    var es := Entries(lines);
    LastWins.FillLastWriteWins(es, id);
    assert es[i] == Entry(lines[i]);
    assert LastWins.Writes(es, i, id);
    forall j | i < j < |es| ensures !LastWins.Writes(es, j, id) {
      assert es[j] == Entry(lines[j]);
    }
  }

  /** Adding line `i` to the lines before it changes the table only by that line's entry. */
  lemma SeoTableStep(lines: seq<Option<OutputRecord>>, i: nat)
    requires ChoicesPresent(lines) && i < |lines|
    ensures ChoicesPresent(lines[..i]) && ChoicesPresent(lines[..i + 1])
    ensures SeoTable(lines[..i + 1]) == match Entry(lines[i])
                                         case None => SeoTable(lines[..i])
                                         case Some((id, seo)) => SeoTable(lines[..i])[id := seo]
  {
    var prefix := lines[..i + 1];
    assert prefix[..i] == lines[..i];
    var es := Entries(prefix);
    assert es[..i] == Entries(lines[..i]);
    assert es[i] == Entry(lines[i]);
    assert SeoTable(prefix) == LastWins.Fill(es);
  }

  /** A line that does not decode, or whose content does not split into three parts, leaves the table as it was. */
  lemma SkippedLineLeavesTable(lines: seq<Option<OutputRecord>>, line: Option<OutputRecord>)
    requires ChoicesPresent(lines)
    requires line.Some? ==> |line.value.response.body.choices| > 0
    requires Entry(line).None?
    ensures ChoicesPresent(lines + [line]) && SeoTable(lines + [line]) == SeoTable(lines)
  {
    var all := lines + [line];
    assert ChoicesPresent(all);
    SeoTableStep(all, |lines|);
    assert all[..|lines|] == lines && all[..|lines| + 1] == all;
  }

  /** The batch output file: the lines the scanner delivered, and whether it then stopped on an error. */
  datatype BatchOutput = BatchOutput(lines: seq<Option<OutputRecord>>, scanFailed: bool)

  datatype LoadError = BatchFileUnopenable | ScanFailed

  /** `loadBatchOutput`: fills the SEO table line by line, skipping lines that do not decode or split into three. */
  method LoadBatchOutput(file: Option<BatchOutput>) returns (r: Result<map<string, SEOContent>, LoadError>)
    requires file.Some? ==> ChoicesPresent(file.value.lines)
    ensures file.None? ==> r == Failure(BatchFileUnopenable)
    ensures file.Some? ==> r == if file.value.scanFailed then Failure(ScanFailed) else Success(SeoTable(file.value.lines))
  {
    if file.None? {
      return Failure(BatchFileUnopenable);
    }
    var lines := file.value.lines;
    var seoData: map<string, SEOContent> := map[];
    for i := 0 to |lines|
      invariant ChoicesPresent(lines[..i])
      invariant seoData == SeoTable(lines[..i])
    {
      SeoTableStep(lines, i);
      match lines[i]
      case None =>
      case Some(record) =>
        var parts := Split(record.response.body.choices[0].message.content, Delimiter);
        if |parts| == 3 {
          seoData := seoData[record.customId := SEOContent(TrimSpace(parts[0]), TrimSpace(parts[1]), TrimSpace(parts[2]))];
        }
    }
    assert lines[..|lines|] == lines;
    if file.value.scanFailed {
      return Failure(ScanFailed);
    }
    return Success(seoData);
  }

  // ---------------------------------------------------------------------
  // Field transforms
  // ---------------------------------------------------------------------

  /** `invertBoolean`: false exactly for "true" spelled in any mix of cases. */
  function InvertBoolean(val: string): (b: bool)
    ensures !b <==> |val| == 4 && (val[0] == 't' || val[0] == 'T') && (val[1] == 'r' || val[1] == 'R')
                               && (val[2] == 'u' || val[2] == 'U') && (val[3] == 'e' || val[3] == 'E')
  {
    ToLowerEqualsWord(val, "true");
    ToLower(val) != "true"
  }

  lemma InvertBooleanExamples()
    ensures !InvertBoolean("true") && !InvertBoolean("TRUE") && !InvertBoolean("True")
    ensures InvertBoolean("false") && InvertBoolean("FALSE") && InvertBoolean("") && InvertBoolean("yes")
  {
  }

  /** `extractSlug`: the text after the first '.', or the whole id when it has none. */
  function ExtractSlug(postId: string): (slug: string)
    ensures |slug| <= |postId|
    ensures '.' !in postId ==> slug == postId
    ensures '.' in postId ==> exists k :: 0 <= k < |postId| && postId[k] == '.' && '.' !in postId[..k]
                                         && slug == postId[k + 1..]
  {
    var parts := SplitFirst(postId, ".");
    IndexOfRune(postId, '.');
    if |parts| == 2 then
      IndexOfDelimited(parts[0], ".", parts[1]);
      assert postId[|parts[0]| + 1..] == parts[1];
      parts[1]
    else postId
  }

  /** The slug of an id is what follows its first '.'. */
  lemma ExtractSlugAfterFirstDot(prefix: string, rest: string)
    requires '.' !in prefix
    ensures ExtractSlug(prefix + "." + rest) == rest
  {
    IndexAfterFreePrefix(prefix, ".");
    IndexOfDelimited(prefix, ".", rest);
    var id := prefix + "." + rest;
    assert id[|prefix| + 1..] == rest;
  }

  // ---------------------------------------------------------------------
  // Front matter
  // ---------------------------------------------------------------------

  /** The values substituted into the front-matter template. */
  datatype FrontMatter = FrontMatter(date: string, draft: bool, title: string, slug: string,
                                     description: string, keywords: string)

  /** `%t` */
  function FormatBool(b: bool): string {
    if b then "true" else "false"
  }

  /**
   * The fixed TOML template, one entry per line, with the values substituted
   * as they are (no quoting or escaping). The template ends with the closing
   * "+++" line and one empty line.
   */
  function TemplateLines(fm: FrontMatter): (ls: seq<string>)
    ensures |ls| == 14 && ls[0] == "+++" && ls[11] == "+++" && ls[12] == "" && ls[13] == ""
  {
    ["+++",
     "date = " + fm.date,
     "draft = " + FormatBool(fm.draft),
     "title = '" + fm.title + "'",
     "weight = 10",
     "markup = 'text/html'",
     "slug = '" + fm.slug + "'",
     "description = '" + fm.description + "'",
     "keywords = '" + fm.keywords + "'",
     "[params]",
     "  author = 'Manuel Delgado Tenorio'",
     "+++",
     "",
     ""]
  }

  /** The rendered front matter. */
  function Render(fm: FrontMatter): (s: string)
    ensures "+++\n" <= s
  {
    Join(TemplateLines(fm), "\n")
  }

  predicate SingleLine(s: string) {
    '\n' !in s
  }

  /** The fixed lines of the template hold no line break. */
  lemma FixedLinesSingle()
    ensures SingleLine("+++") && SingleLine("") && SingleLine("[params]") && SingleLine("weight = 10")
    ensures SingleLine("markup = 'text/html'")
    ensures SingleLine("  author = 'Manuel Delgado Tenorio'")
  {
    var author := "  author = 'Manuel Delgado Tenorio'";
    forall i | 0 <= i < |author| ensures author[i] != '\n' {
    }
  }

  /** Line `i` of the template stays a single line when the substituted values do. */
  lemma TemplateLineSingle(fm: FrontMatter, i: nat)
    requires SingleLine(fm.date) && SingleLine(fm.title) && SingleLine(fm.slug)
    requires SingleLine(fm.description) && SingleLine(fm.keywords)
    requires i < |TemplateLines(fm)|
    ensures SingleLine(TemplateLines(fm)[i])
  {
    var ls := TemplateLines(fm);
    FixedLinesSingle();
    if i == 0 { assert ls[0] == "+++"; }
    else if i == 1 { assert ls[1] == "date = " + fm.date; }
    else if i == 2 { assert ls[2] == "draft = " + FormatBool(fm.draft); }
    else if i == 3 { assert ls[3] == "title = '" + fm.title + "'"; }
    else if i == 4 { assert ls[4] == "weight = 10"; }
    else if i == 5 { assert ls[5] == "markup = 'text/html'"; }
    else if i == 6 { assert ls[6] == "slug = '" + fm.slug + "'"; }
    else if i == 7 { assert ls[7] == "description = '" + fm.description + "'"; }
    else if i == 8 { assert ls[8] == "keywords = '" + fm.keywords + "'"; }
    else if i == 9 { assert ls[9] == "[params]"; }
    else if i == 10 { assert ls[10] == "  author = 'Manuel Delgado Tenorio'"; }
    else if i == 11 { assert ls[11] == "+++"; }
    else { assert ls[i] == ""; }
  }

  /** Each substituted value stays on its own line when it has no line break. */
  lemma RenderReadsBack(fm: FrontMatter)
    requires SingleLine(fm.date) && SingleLine(fm.title) && SingleLine(fm.slug)
    requires SingleLine(fm.description) && SingleLine(fm.keywords)
    ensures Split(Render(fm), "\n") == TemplateLines(fm)
  {
    var ls := TemplateLines(fm);
    forall i | 0 <= i < |ls| ensures "\n"[0] !in ls[i] {
      TemplateLineSingle(fm, i);
    }
    SplitJoin(ls, "\n");
  }

  // ---------------------------------------------------------------------
  // Converting the posts
  // ---------------------------------------------------------------------

  /** The two command-line flags. */
  datatype Options = Options(ignoreDrafts: bool, useSeoTitle: bool)

  /**
   * What one conversion run sees: the flags, the loaded SEO table, the
   * exported post bodies (path to HTML; a path that is absent cannot be
   * read) and the output paths whose write fails.
   */
  datatype Env = Env(opts: Options, seo: map<string, SEOContent>, html: map<string, string>, unwritable: set<string>)

  datatype ConvertError = ReadFailed(path: string) | WriteFailed(path: string)

  /** What happened to one post. */
  datatype Outcome = Skipped | Failed(error: ConvertError) | Written(path: string, content: string)

  function InputPath(postId: string): (p: string)
    ensures |p| == |postId| + 11 && p[6..|p| - 5] == postId
  {
    "posts/" + postId + ".html"
  }

  function OutputPath(slug: string): (p: string)
    ensures |p| == |slug| + 14 && p[9..|p| - 5] == slug
  {
    "hugohtml/" + slug + ".html"
  }

  /** A missing id reads as the zero value: every SEO field empty. */
  function SeoFor(seo: map<string, SEOContent>, postId: string): (s: SEOContent)
    ensures postId in seo ==> s == seo[postId]
    ensures postId !in seo ==> s.title == "" && s.description == "" && s.keywords == ""
  {
    if postId in seo then seo[postId] else SEOContent("", "", "")
  }

  /** The post is left out because drafts are ignored and it is marked unpublished. */
  predicate SkipsAsDraft(opts: Options, post: Post)
    ensures SkipsAsDraft(opts, post) ==> opts.ignoreDrafts && |post.isPublished| == 5
  {
    opts.ignoreDrafts && ToLower(post.isPublished) == "false"
  }

  /** The values the template receives for one post. */
  function FrontMatterOf(opts: Options, seo: SEOContent, post: Post): (fm: FrontMatter)
    ensures fm.date == post.postDate && fm.slug == ExtractSlug(post.postId)
    ensures fm.draft <==> ToLower(post.isPublished) != "true"
    ensures fm.title == seo.title || fm.title == post.title
    ensures fm.description == seo.description && fm.keywords == seo.keywords
  {
    var title := if opts.useSeoTitle && seo.title != "" then seo.title else post.title;
    FrontMatter(post.postDate, InvertBoolean(post.isPublished), title, ExtractSlug(post.postId),
                seo.description, seo.keywords)
  }

  /** One pass of the main loop. */
  function ProcessPost(env: Env, post: Post): (o: Outcome)
    ensures o.Skipped? <==> SkipsAsDraft(env.opts, post)
    ensures o.Failed? && o.error.ReadFailed? <==> !SkipsAsDraft(env.opts, post) && InputPath(post.postId) !in env.html
    ensures o.Written? <==> !SkipsAsDraft(env.opts, post) && InputPath(post.postId) in env.html
                            && OutputPath(ExtractSlug(post.postId)) !in env.unwritable
    ensures o.Failed? ==> o.error.path == if o.error.ReadFailed? then InputPath(post.postId)
                                         else OutputPath(ExtractSlug(post.postId))
    ensures o.Written? ==> o.path == OutputPath(ExtractSlug(post.postId)) && o.path !in env.unwritable
                           && o.content == Render(FrontMatterOf(env.opts, SeoFor(env.seo, post.postId), post))
                                           + env.html[InputPath(post.postId)]
  {
    if SkipsAsDraft(env.opts, post) then Skipped
    else
      var inputPath := InputPath(post.postId);
      var outputPath := OutputPath(ExtractSlug(post.postId));
      if inputPath !in env.html then Failed(ReadFailed(inputPath))
      else
        var content := Render(FrontMatterOf(env.opts, SeoFor(env.seo, post.postId), post)) + env.html[inputPath];
        if outputPath in env.unwritable then Failed(WriteFailed(outputPath))
        else Written(outputPath, content)
  }

  /** With drafts ignored, exactly the posts whose `is_published` reads "false" in any mix of cases are skipped. */
  lemma SkipsExactlyUnpublished(opts: Options, post: Post)
    requires opts.ignoreDrafts
    ensures SkipsAsDraft(opts, post) <==>
      var v := post.isPublished;
      |v| == 5 && (v[0] == 'f' || v[0] == 'F') && (v[1] == 'a' || v[1] == 'A') && (v[2] == 'l' || v[2] == 'L')
               && (v[3] == 's' || v[3] == 'S') && (v[4] == 'e' || v[4] == 'E')
  {
    var w := "false";
    assert w[0] == 'f' && w[1] == 'a' && w[2] == 'l' && w[3] == 's' && w[4] == 'e';
    ToLowerEqualsWord(post.isPublished, w);
  }

  /** A skipped post is one that would have been written as a draft. */
  lemma SkippedWouldBeDraft(env: Env, post: Post)
    requires ProcessPost(env, post).Skipped?
    ensures FrontMatterOf(env.opts, SeoFor(env.seo, post.postId), post).draft
  {
    ToLowerEqualsWord(post.isPublished, "false");
    ToLowerEqualsWord(post.isPublished, "true");
  }

  /** Without the flag every post is attempted. */
  lemma NothingSkippedWithoutFlag(env: Env, post: Post)
    requires !env.opts.ignoreDrafts
    ensures !ProcessPost(env, post).Skipped?
  {
  }

  /**
   * The title in the front matter is the SEO title exactly when the flag asks
   * for it and the table holds a non-empty title for the post; otherwise it is
   * the manifest title.
   */
  lemma TitleChoice(opts: Options, seo: map<string, SEOContent>, post: Post)
    ensures var t := FrontMatterOf(opts, SeoFor(seo, post.postId), post).title;
      if opts.useSeoTitle && post.postId in seo && seo[post.postId].title != "" then t == seo[post.postId].title
      else t == post.title
  {
  }

  /** The outcomes of the posts, in order. */
  function Outcomes(env: Env, posts: seq<Post>): (os: seq<Outcome>)
    ensures |os| == |posts|
  {
    seq(|posts|, i requires 0 <= i < |posts| => ProcessPost(env, posts[i]))
  }

  /** The file writes the outcomes perform, in order. */
  function FileWrites(os: seq<Outcome>): (ws: seq<Option<(string, string)>>)
    ensures |ws| == |os|
  {
    seq(|os|, i requires 0 <= i < |os| => if os[i].Written? then Some((os[i].path, os[i].content)) else None)
  }

  function Successes(os: seq<Outcome>): nat {
    if os == [] then 0 else Successes(os[..|os| - 1]) + (if os[|os| - 1].Written? then 1 else 0)
  }

  function Skips(os: seq<Outcome>): nat {
    if os == [] then 0 else Skips(os[..|os| - 1]) + (if os[|os| - 1].Skipped? then 1 else 0)
  }

  function Errors(os: seq<Outcome>): seq<ConvertError> {
    if os == [] then []
    else Errors(os[..|os| - 1]) + (if os[|os| - 1].Failed? then [os[|os| - 1].error] else [])
  }

  /** What the run reports: the output folder, the success count and the error list. */
  datatype Summary = Summary(folder: map<string, string>, successCount: nat, errors: seq<ConvertError>)

  /** The converter's effect on a list of posts; the output folder starts empty. */
  function Convert(env: Env, posts: seq<Post>): (s: Summary)
    ensures s.successCount + |s.errors| <= |posts|
  {
    var os := Outcomes(env, posts);
    OutcomesAccounted(os);
    Summary(LastWins.Fill(FileWrites(os)), Successes(os), Errors(os))
  }

  /** How one outcome changes the summary. */
  function Record(s: Summary, o: Outcome): Summary {
    match o
    case Skipped => s
    case Failed(e) => Summary(s.folder, s.successCount, s.errors + [e])
    case Written(p, c) => Summary(s.folder[p := c], s.successCount + 1, s.errors)
  }

  /** The summary the main loop builds, one recorded outcome at a time. */
  function Replay(env: Env, posts: seq<Post>): Summary {
    if posts == [] then Summary(map[], 0, [])
    else Record(Replay(env, posts[..|posts| - 1]), ProcessPost(env, posts[|posts| - 1]))
  }

  lemma RecordWrite(s: Summary, path: string, content: string)
    ensures Record(s, Written(path, content)) == Summary(s.folder[path := content], s.successCount + 1, s.errors)
  {
  }

  /** Converting one more post records its outcome on top of the earlier ones. */
  lemma ConvertStep(env: Env, posts: seq<Post>, i: nat)
    requires i < |posts|
    ensures Convert(env, posts[..i + 1]) == Record(Convert(env, posts[..i]), ProcessPost(env, posts[i]))
  {
    var os := Outcomes(env, posts[..i]);
    var o := ProcessPost(env, posts[i]);
    assert Outcomes(env, posts[..i + 1]) == os + [o];
    SummaryStep(os, o);
  }

  /** The summary of outcomes, one more outcome recorded at the end. */
  lemma SummaryStep(os: seq<Outcome>, o: Outcome)
    ensures var all := os + [o];
      Summary(LastWins.Fill(FileWrites(all)), Successes(all), Errors(all))
      == Record(Summary(LastWins.Fill(FileWrites(os)), Successes(os), Errors(os)), o)
  {
    var all := os + [o];
    assert all[..|os|] == os;
    assert FileWrites(all)[..|os|] == FileWrites(os);
  }

  /** Recording the outcomes one by one yields the declarative summary. */
  lemma {:induction false} ReplayIsConvert(env: Env, posts: seq<Post>)
    ensures Replay(env, posts) == Convert(env, posts)
    decreases |posts|
  {
    if posts != [] {
      var n := |posts| - 1;
      ReplayIsConvert(env, posts[..n]);
      ConvertStep(env, posts, n);
      assert posts[..n + 1] == posts;
    }
  }

  /**
   * The body of the main loop for one post: skip a draft, report an unreadable
   * body or an unwritable output file, or write the file and count it.
   */
  method HandlePost(env: Env, post: Post, folder: map<string, string>, successCount: nat, errors: seq<ConvertError>)
    returns (folder': map<string, string>, successCount': nat, errors': seq<ConvertError>)
    ensures Summary(folder', successCount', errors')
            == Record(Summary(folder, successCount, errors), ProcessPost(env, post))
  {
    folder', successCount', errors' := folder, successCount, errors;
    if SkipsAsDraft(env.opts, post) {
      assert ProcessPost(env, post) == Skipped;
      return;
    }
    var slug := ExtractSlug(post.postId);
    var inputPath := InputPath(post.postId);
    var outputPath := OutputPath(slug);
    if inputPath !in env.html {
      assert ProcessPost(env, post) == Failed(ReadFailed(inputPath));
      errors' := errors + [ReadFailed(inputPath)];
      return;
    }
    var htmlContent := env.html[inputPath];
    var seo := SeoFor(env.seo, post.postId);
    var title := post.title;
    if env.opts.useSeoTitle && seo.title != "" {
      title := seo.title;
    }
    var frontMatter := FrontMatter(post.postDate, InvertBoolean(post.isPublished), title, slug,
                                   seo.description, seo.keywords);
    assert frontMatter == FrontMatterOf(env.opts, seo, post);
    var finalContent := Render(frontMatter) + htmlContent;
    if outputPath in env.unwritable {
      assert ProcessPost(env, post) == Failed(WriteFailed(outputPath));
      errors' := errors + [WriteFailed(outputPath)];
      return;
    }
    assert ProcessPost(env, post) == Written(outputPath, finalContent);
    RecordWrite(Summary(folder, successCount, errors), outputPath, finalContent);
    folder' := folder[outputPath := finalContent];
    successCount' := successCount + 1;
  }

  /** The main loop. */
  method ConvertPosts(env: Env, posts: seq<Post>) returns (folder: map<string, string>, successCount: nat, errors: seq<ConvertError>)
    ensures Summary(folder, successCount, errors) == Convert(env, posts)
  {
    folder, successCount, errors := map[], 0, [];
    for i := 0 to |posts|
      invariant Summary(folder, successCount, errors) == Replay(env, posts[..i])
    {
      assert posts[..i + 1][..i] == posts[..i];
      folder, successCount, errors := HandlePost(env, posts[i], folder, successCount, errors);
    }
    assert posts[..|posts|] == posts;
    ReplayIsConvert(env, posts);
  }

  /** Every post is written, skipped or reported as an error, exactly once. */
  lemma {:induction false} OutcomesAccounted(os: seq<Outcome>)
    ensures Successes(os) + |Errors(os)| + Skips(os) == |os|
    decreases |os|
  {
    if os != [] {
      OutcomesAccounted(os[..|os| - 1]);
    }
  }

  lemma ConvertAccounted(env: Env, posts: seq<Post>)
    ensures Convert(env, posts).successCount + |Convert(env, posts).errors| + Skips(Outcomes(env, posts)) == |posts|
  {
    OutcomesAccounted(Outcomes(env, posts));
  }

  /** The success count is the number of file writes. */
  lemma {:induction false} SuccessesAreWrites(os: seq<Outcome>)
    ensures LastWins.CountWrites(FileWrites(os)) == Successes(os)
    decreases |os|
  {
    if os != [] {
      SuccessesAreWrites(os[..|os| - 1]);
      assert FileWrites(os)[..|os| - 1] == FileWrites(os[..|os| - 1]);
    }
  }

  /** Two posts with the same slug share one output file, so the folder never holds more files than successes. */
  lemma FolderNoLargerThanSuccesses(env: Env, posts: seq<Post>)
    ensures |Convert(env, posts).folder| <= Convert(env, posts).successCount
  {
    var os := Outcomes(env, posts);
    LastWins.FillSize(FileWrites(os));
    SuccessesAreWrites(os);
  }

  /** The outcome writes the file at `path`. */
  predicate WritesTo(o: Outcome, path: string) {
    o.Written? && o.path == path
  }

  /** The folder after a run of outcomes holds, for each path written, the content of the last write. */
  lemma FolderOfOutcomes(os: seq<Outcome>, path: string)
    ensures path in LastWins.Fill(FileWrites(os)) <==> exists i :: 0 <= i < |os| && WritesTo(os[i], path)
    ensures forall i :: 0 <= i < |os| && WritesTo(os[i], path) && (forall j :: i < j < |os| ==> !WritesTo(os[j], path))
                        ==> path in LastWins.Fill(FileWrites(os)) && LastWins.Fill(FileWrites(os))[path] == os[i].content
  {
    var ws := FileWrites(os);
    LastWins.FillLastWriteWins(ws, path);
    assert forall i :: 0 <= i < |os| ==> (LastWins.Writes(ws, i, path) <==> WritesTo(os[i], path));
  }

  /** A file is in the output folder exactly when some post was written to it. */
  lemma FolderHasWritten(env: Env, posts: seq<Post>, path: string)
    ensures path in Convert(env, posts).folder <==> exists i :: 0 <= i < |posts| && WritesTo(ProcessPost(env, posts[i]), path)
  {
    var os := Outcomes(env, posts);
    FolderOfOutcomes(os, path);
    if path in Convert(env, posts).folder {
      var i :| 0 <= i < |os| && WritesTo(os[i], path);
      assert os[i] == ProcessPost(env, posts[i]);
    } else {
      forall i | 0 <= i < |posts| ensures !WritesTo(ProcessPost(env, posts[i]), path) {
        assert os[i] == ProcessPost(env, posts[i]);
      }
    }
  }

  /** A file written by some post holds what the last post written to it wrote. */
  lemma FolderHoldsLastWrite(env: Env, posts: seq<Post>, path: string, i: nat)
    requires i < |posts| && WritesTo(ProcessPost(env, posts[i]), path)
    requires forall j :: i < j < |posts| ==> !WritesTo(ProcessPost(env, posts[j]), path)
    ensures path in Convert(env, posts).folder && Convert(env, posts).folder[path] == ProcessPost(env, posts[i]).content
  {
    var os := Outcomes(env, posts);
    FolderOfOutcomes(os, path);
    assert os[i] == ProcessPost(env, posts[i]);
    forall j | i < j < |os| ensures !WritesTo(os[j], path) {
      assert os[j] == ProcessPost(env, posts[j]);
    }
  }

  /** A post that is not skipped, whose body is readable and whose output path is writable, has its file in the folder. */
  lemma WritablePostWritten(env: Env, posts: seq<Post>, i: nat)
    requires i < |posts| && !SkipsAsDraft(env.opts, posts[i]) && InputPath(posts[i].postId) in env.html
    requires OutputPath(ExtractSlug(posts[i].postId)) !in env.unwritable
    ensures OutputPath(ExtractSlug(posts[i].postId)) in Convert(env, posts).folder
  {
    var path := OutputPath(ExtractSlug(posts[i].postId));
    assert WritesTo(ProcessPost(env, posts[i]), path);
    FolderHasWritten(env, posts, path);
  }

  /** Every file in the output folder is `hugohtml/<slug>.html` for the slug of some manifest post. */
  lemma FolderPathsFromSlugs(env: Env, posts: seq<Post>, path: string)
    requires path in Convert(env, posts).folder
    ensures exists i :: 0 <= i < |posts| && path == OutputPath(ExtractSlug(posts[i].postId))
  {
    FolderHasWritten(env, posts, path);
    var i :| 0 <= i < |posts| && WritesTo(ProcessPost(env, posts[i]), path);
  }

  /** An error is listed for every failed outcome. */
  lemma {:induction false} ErrorsListFailures(os: seq<Outcome>, i: nat)
    requires i < |os| && os[i].Failed?
    ensures os[i].error in Errors(os)
    decreases |os|
  {
    if i < |os| - 1 {
      ErrorsListFailures(os[..|os| - 1], i);
    }
  }

  /** A post that is not skipped and whose body was not exported is reported as unreadable. */
  lemma MissingBodyReported(env: Env, posts: seq<Post>, i: nat)
    requires i < |posts| && !SkipsAsDraft(env.opts, posts[i]) && InputPath(posts[i].postId) !in env.html
    ensures ReadFailed(InputPath(posts[i].postId)) in Convert(env, posts).errors
  {
    ErrorsListFailures(Outcomes(env, posts), i);
  }

  // ---------------------------------------------------------------------
  // The whole run
  // ---------------------------------------------------------------------

  /** Why the run stops before converting anything. */
  datatype RunError = SeoLoadFailed(loadError: LoadError) | ManifestFailed(csvError: CsvError) | FolderUnprepared

  /**
   * `main`: loads the SEO table, then the manifest, then prepares the output
   * folder, each failure ending the run; then converts every post.
   */
  method Run(opts: Options, batch: Option<BatchOutput>, manifest: Option<seq<ReadResult>>, folderReady: bool,
             html: map<string, string>, unwritable: set<string>) returns (r: Result<Summary, RunError>)
    requires batch.Some? ==> ChoicesPresent(batch.value.lines)
    ensures batch.None? ==> r == Failure(SeoLoadFailed(BatchFileUnopenable))
    ensures batch.Some? && batch.value.scanFailed ==> r == Failure(SeoLoadFailed(ScanFailed))
    ensures batch.Some? && !batch.value.scanFailed && Manifest(manifest).Failure? ==>
              r == Failure(ManifestFailed(Manifest(manifest).error))
    ensures batch.Some? && !batch.value.scanFailed && Manifest(manifest).Success? && !folderReady ==>
              r == Failure(FolderUnprepared)
    ensures batch.Some? && !batch.value.scanFailed && Manifest(manifest).Success? && folderReady ==>
              r == Success(Convert(Env(opts, SeoTable(batch.value.lines), html, unwritable), Manifest(manifest).value))
  {
    var seoMap := LoadBatchOutput(batch);
    if seoMap.Failure? {
      return Failure(SeoLoadFailed(seoMap.error));
    }
    var posts := ReadPostsCsv(manifest);
    if posts.Failure? {
      return Failure(ManifestFailed(posts.error));
    }
    if !folderReady {
      return Failure(FolderUnprepared);
    }
    var folder, successCount, errors := ConvertPosts(Env(opts, seoMap.value, html, unwritable), posts.value);
    return Success(Summary(folder, successCount, errors));
  }
}
