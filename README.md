# substack2hugo, modelled in Dafny

substack2hugo moves a Substack export into a Hugo site. It has two Go programs:

- `generate-batch.go` reads the export manifest `posts.csv` and a prompt template `prompt.txt`. For each post it writes one OpenAI Batch API request to `posts2upload.jsonl`. Each request asks a model for an SEO title, description and keywords for the post's HTML body.
- `substack2hugo.go` reads the batch results in `batch_output.jsonl` and the same manifest. For each post it writes `hugohtml/<slug>.html`: TOML front matter followed by the post's HTML. Drafts can be skipped, and the SEO title can replace the original title.

The model follows the two programs function by function:

| file | module | models |
|---|---|---|
| `wrappers.dfy` | `Wrappers` | `Option` and `Result` |
| `gostrings.dfy` | `GoStrings` | the parts of Go's `strings` package the programs use: `ToLower`, `TrimSpace` (the white space of `unicode.IsSpace`), `Index`, `Split`, `SplitN(s, sep, 2)` and a `Join` used to state round trips |
| `csv.dfy` | `Csv` | `encoding/csv` as both readers see it: a stream of `Read` results. The header fixes the field count; a record with another count is an error. Also the first and last column bearing a name. |
| `lastwins.dfy` | `LastWins` | a map filled by successive writes where the later write wins. Both the SEO table and the output folder are built this way. |
| `substack2hugo.dfy` | `Substack2Hugo` | `readPostsCSV`, `loadBatchOutput`, `invertBoolean`, `extractSlug`, the front-matter template and the conversion loop of `main` |
| `generate_batch.dfy` | `GenerateBatch` | `readPostsCSV`, the prompt, the request record and the generation loop of `main` |
| `manifests.dfy` | `ManifestAgreement` | how the two manifest readers relate |

The reading and conversion loops are methods with loop invariants. Each loop is proved equal to a specification function: `Manifest`, `SeoTable`, `Convert` or `Generate`. The lemmas about those functions state what the programs promise:

- every post is counted exactly once;
- lines and files follow manifest order, and a later write wins;
- a missing HTML body is reported;
- each front-matter value stays on its own line;
- the slug is the text after the first dot.

Files, the network, JSON and the buffered writer become parameters:

- a file that cannot be opened is `None`;
- the exported HTML bodies are a map from path to content;
- `Env.unwritable` is the set of output paths whose write fails;
- `GenerateBatch.Env.marshal` is a JSON encoding that may fail;
- `GenerateBatch.Env.writeOk` says whether the writer accepts a line.

## Model

| member | source | states |
|---|---|---|
| GoStrings.ToLower | substack2hugo.go:119 | the result has the input's length and each rune is the ASCII lower case of the input's rune |
| GoStrings.ToLowerEqualsWord | substack2hugo.go:119 | lower-casing gives a lower-case word exactly when the input spells that word letter by letter in either case |
| GoStrings.IsSpaceListed | substack2hugo.go:156-158 | the range test used for white space accepts exactly the runes of Go's `unicode.IsSpace`, listed one by one |
| GoStrings.TrimLeft | substack2hugo.go:156-158 | removes exactly the leading white-space runes: what remains is a suffix that starts with a non-space rune, or is empty |
| GoStrings.TrimRight | substack2hugo.go:156-158 | removes exactly the trailing white-space runes |
| GoStrings.TrimSpace | generate-batch.go:129 | the result has no leading or trailing white space, and the input is white space, then the result, then white space |
| GoStrings.TrimSpaceKeepsClean | generate-batch.go:129 | a text that neither starts nor ends with white space is unchanged |
| GoStrings.TrimSpaceIdempotent | substack2hugo.go:156-158 | trimming twice is trimming once |
| GoStrings.Index | substack2hugo.go:149 | -1 when the separator does not occur; otherwise the first position where it occurs |
| GoStrings.IndexIs | substack2hugo.go:149 | a position where the separator occurs, with no occurrence before it, is the index |
| GoStrings.Split | substack2hugo.go:149 | splitting gives at least one part |
| GoStrings.JoinSplit | substack2hugo.go:149 | joining the parts with the separator gives back the input |
| GoStrings.SplitPartsAreFree | substack2hugo.go:149 | no part contains the separator |
| GoStrings.SplitDelimited | substack2hugo.go:149 | a text whose first separator ends the first part splits into that part followed by the split of the rest |
| GoStrings.SplitJoin | substack2hugo.go:218-238 | parts that do not contain the separator's first rune are recovered by splitting their join |
| GoStrings.IndexOfRune | substack2hugo.go:124 | for a one-rune separator, -1 exactly when the rune is absent; otherwise the position of its first occurrence |
| GoStrings.SplitFirst | substack2hugo.go:124 | one part exactly when the separator is absent; otherwise two parts around the separator's first occurrence |
| Csv.AcceptedCount | substack2hugo.go:81-85 | the rows before the first row the reader rejects are all accepted, and the next row is rejected |
| Csv.AcceptedCountIs | substack2hugo.go:81-85 | "all earlier rows accepted, this one rejected" fixes the count |
| Csv.AcceptedCountIgnoresTail | substack2hugo.go:82-85 | rows after a rejected row are never read |
| Csv.FirstIndex | generate-batch.go:57-63 | -1 exactly when the name is no header; otherwise the first column bearing it |
| Csv.LastIndex | substack2hugo.go:69-72 | -1 exactly when the name is no header; otherwise the last column bearing it |
| Csv.LastIndexOfDistinct | substack2hugo.go:69-72 | without repeated header names, a name's last column is its only column |
| LastWins.FillLastWriteWins | substack2hugo.go:155-159 | a key is present exactly when some write sets it, and it holds the value of the last such write |
| LastWins.FillSize | substack2hugo.go:155-159 | the map has no more keys than there were writes |
| Substack2Hugo.FirstMissing | substack2hugo.go:74-79 | no required field is missing exactly when all are headers; otherwise the first missing one in checking order |
| Substack2Hugo.FirstMissingIs | substack2hugo.go:74-79 | the required field at position k is reported when it is absent and all earlier ones are present |
| Substack2Hugo.IndexHeaders | substack2hugo.go:69-72 | the header map's keys are the header names, and each maps to its last column |
| Substack2Hugo.ProjectTakesLastColumns | substack2hugo.go:87-92 | each field of the post read from a row is the row's value in the last column of that field's name |
| Substack2Hugo.Manifest | substack2hugo.go:54-96 | the error cases: unopenable file, unreadable header, first missing required field. On success, one post per data row up to the first rejected row, each field taken from the last column of that name |
| Substack2Hugo.ReadRows | substack2hugo.go:81-95 | the row loop yields one post per accepted row, in order, and stops at the first rejected row |
| Substack2Hugo.ReadPostsCsv | substack2hugo.go:54-96 | the reader returns exactly `Manifest` of its input |
| Substack2Hugo.SameColumnAfterReorder | substack2hugo.go:69-72 | with distinct header names, permuting the columns of header and record leaves the value found under each name unchanged |
| Substack2Hugo.ProjectionIgnoresColumnOrder | substack2hugo.go:81-95 | with distinct header names, column order does not change the post read from a row |
| Substack2Hugo.ManifestStopsAtRejectedRow | substack2hugo.go:82-85 | once a row is rejected, nothing appended after it changes the posts read |
| Substack2Hugo.ParseSeo | substack2hugo.go:149-159 | no entry unless the content contains the delimiter. An entry's three fields carry no outer white space. |
| Substack2Hugo.ParseSeoOfThreeParts | substack2hugo.go:149-159 | three parts joined by the delimiter, where only the joining delimiters occur, give back their trimmed values |
| Substack2Hugo.SplitThree | substack2hugo.go:149 | two delimiters, each the first one after the text before it, split a text into exactly those three parts |
| Substack2Hugo.ParseSeoRejectsTwoParts | substack2hugo.go:150-154 | content with one delimiter gives no entry |
| Substack2Hugo.ParseSeoRejectsFourOrMoreParts | substack2hugo.go:149-154 | content with three or more delimiters gives no entry, whatever follows the third |
| Substack2Hugo.Entry | substack2hugo.go:143-159 | a line gives an entry exactly when it decodes and its content splits into three parts; the entry is keyed by the line's custom id and holds the parsed fields |
| Substack2Hugo.SeoTable | substack2hugo.go:141-160 | the table never has more ids than there are lines |
| Substack2Hugo.SeoTableHasSupplied | substack2hugo.go:141-160 | an id is in the table exactly when some line supplies it |
| Substack2Hugo.SeoTableLastLineWins | substack2hugo.go:141-160 | an id supplied by a line and by no later line holds that line's fields |
| Substack2Hugo.SeoTableStep | substack2hugo.go:141-160 | the table after one more line is the table before it, with that line's entry written over it |
| Substack2Hugo.SkippedLineLeavesTable | substack2hugo.go:143-154 | a line that does not decode, or does not split into three, leaves the table as it was |
| Substack2Hugo.LoadBatchOutput | substack2hugo.go:132-165 | an unopenable file and a scanner error are errors; otherwise the result is the SEO table of the lines |
| Substack2Hugo.InvertBoolean | substack2hugo.go:118-120 | false exactly for "true" spelled in any mix of cases |
| Substack2Hugo.InvertBooleanExamples | substack2hugo.go:118-120 | "true", "TRUE" and "True" give false; "false", "FALSE", "" and "yes" give true |
| Substack2Hugo.ExtractSlug | substack2hugo.go:123-129 | never longer than the id. The whole id when it has no '.'; otherwise exactly the text after the first '.' |
| Substack2Hugo.ExtractSlugAfterFirstDot | substack2hugo.go:123-129 | for an id built as dot-free prefix, '.', rest, the slug is the rest, even when the rest contains dots |
| Substack2Hugo.TemplateLines | substack2hugo.go:218-231 | the template has fourteen lines, opening and closing with a "+++" line and ending with a blank line |
| Substack2Hugo.Render | substack2hugo.go:218-238 | the rendered front matter starts with the "+++" line |
| Substack2Hugo.InputPath | substack2hugo.go:203 | the path is `posts/`, the id and `.html`, and the id can be read back from it, so different ids give different paths |
| Substack2Hugo.OutputPath | substack2hugo.go:204 | the path is `hugohtml/`, the slug and `.html`, and the slug can be read back from it, so different slugs give different files |
| Substack2Hugo.SeoFor | substack2hugo.go:212 | the table's fields for an id in the table; otherwise the zero value, every field empty |
| Substack2Hugo.SkipsAsDraft | substack2hugo.go:198 | a post is skipped only when drafts are ignored, and only when its `is_published` has the five runes of "false" |
| Substack2Hugo.FrontMatterOf | substack2hugo.go:212-237 | the date, slug, description and keywords come from the post and the SEO entry; draft is set exactly when `is_published` is not "true" in any case; the title is the SEO title or the manifest title |
| Substack2Hugo.TemplateLineSingle | substack2hugo.go:218-238 | each line of the front-matter template holds no line break when the substituted values hold none |
| Substack2Hugo.RenderReadsBack | substack2hugo.go:218-238 | with single-line values, splitting the rendered front matter on newlines gives back the template lines, each value on its own line |
| Substack2Hugo.ProcessPost | substack2hugo.go:197-247 | the outcome of one post: skipped exactly for a draft under the flag; a read error exactly for a missing body; written exactly when the post is not skipped, its body is present and its output path is writable; the error path is the input or the output path. A written file is at the slug's output path and is the front matter followed by the body. |
| Substack2Hugo.SkipsExactlyUnpublished | substack2hugo.go:198-200 | with the flag, exactly the posts whose `is_published` spells "false" in any mix of cases are skipped |
| Substack2Hugo.SkippedWouldBeDraft | substack2hugo.go:198-200 | a skipped post would have been marked a draft |
| Substack2Hugo.NothingSkippedWithoutFlag | substack2hugo.go:198 | without the flag no post is skipped |
| Substack2Hugo.TitleChoice | substack2hugo.go:212-216 | the SEO title is used exactly when the flag is set and the table holds a non-empty title for the post; otherwise the manifest title |
| Substack2Hugo.Convert | substack2hugo.go:197-247 | the run's summary from an empty folder: successes and errors together never exceed the number of posts |
| Substack2Hugo.ConvertStep | substack2hugo.go:197-247 | converting one more post adds that post's outcome to the summary |
| Substack2Hugo.ReplayIsConvert | substack2hugo.go:197-247 | recording the outcomes one by one, in manifest order, gives the folder, count and error list of `Convert` |
| Substack2Hugo.HandlePost | substack2hugo.go:198-246 | one pass of the loop records exactly that post's outcome: skipped, one error appended, or the file written and one success counted |
| Substack2Hugo.ConvertPosts | substack2hugo.go:197-247 | the loop's folder, success count and error list are those of `Convert` |
| Substack2Hugo.OutcomesAccounted | substack2hugo.go:197-247 | successes, errors and skips add up to the number of outcomes |
| Substack2Hugo.ConvertAccounted | substack2hugo.go:197-247 | every post is written, skipped or reported, exactly once |
| Substack2Hugo.SuccessesAreWrites | substack2hugo.go:242-246 | the success count is the number of file writes |
| Substack2Hugo.FolderNoLargerThanSuccesses | substack2hugo.go:242-246 | the folder never holds more files than successes; posts sharing a slug share a file |
| Substack2Hugo.FolderOfOutcomes | substack2hugo.go:242-246 | a path is in the folder exactly when some outcome writes it, and it holds the last such content |
| Substack2Hugo.FolderHasWritten | substack2hugo.go:202-246 | a file exists exactly when some post was written to it |
| Substack2Hugo.FolderHoldsLastWrite | substack2hugo.go:202-246 | a file written by a post and by no later post holds what that post wrote |
| Substack2Hugo.WritablePostWritten | substack2hugo.go:198-246 | a post that is not skipped, whose body is present and whose output path is writable, has its file in the folder |
| Substack2Hugo.FolderPathsFromSlugs | substack2hugo.go:202-204 | every file in the folder is `hugohtml/<slug>.html` for some post's slug |
| Substack2Hugo.ErrorsListFailures | substack2hugo.go:206-245 | every failed outcome's error is listed |
| Substack2Hugo.MissingBodyReported | substack2hugo.go:206-210 | a post that is not skipped and whose body is missing is reported with its input path |
| Substack2Hugo.Run | substack2hugo.go:167-259 | the SEO load, the manifest and the folder preparation are fatal, in that order. Otherwise the run's summary is `Convert` of the manifest posts with the loaded table. |
| GenerateBatch.Manifest | generate-batch.go:41-80 | the error cases: unopenable file, unreadable header, no "post_id" column. On success, one id per data row up to the first rejected row, taken from the first "post_id" column |
| GenerateBatch.FindPostIdColumn | generate-batch.go:57-66 | the search stops at the first column named "post_id", or gives -1 |
| GenerateBatch.ReadPostsCsv | generate-batch.go:41-80 | the reader returns exactly `Manifest` of its input |
| GenerateBatch.HtmlPath | generate-batch.go:117 | the path is `posts/`, the id and `.html`, and the id can be read back from it |
| GenerateBatch.BuildPrompt | generate-batch.go:126-129 | the prompt has no outer white space, and the untrimmed text is white space, then the prompt, then white space |
| GenerateBatch.BuildPromptKeepsCleanText | generate-batch.go:126-129 | when the template does not start, and the body does not end, with white space, the prompt is template, blank line, body, unchanged |
| GenerateBatch.NewRequest | generate-batch.go:132-146 | the request carries the post id, method POST, the chat-completions URL, model gpt-4.1, 2048 max tokens and one user message holding the prompt |
| GenerateBatch.RequestFor | generate-batch.go:116-146 | a request exists exactly when the post's body can be read; it carries the post id and one user message holding the prompt built from the template and that body |
| GenerateBatch.Step | generate-batch.go:115-165 | each post adds exactly one to one counter. Lines and counters never shrink, and a failed writer stays failed and adds no line. A missing body adds one error and nothing else. |
| GenerateBatch.Generate | generate-batch.go:115-165 | successes and errors add up to the number of posts; there is one line per success, each ending in a newline |
| GenerateBatch.HandlePost | generate-batch.go:116-164 | one pass of the loop is one `Step`: the line and counters afterwards are those `Step` gives for that post |
| GenerateBatch.GenerateLines | generate-batch.go:115-165 | the loop's lines and counters are those of `Generate` |
| GenerateBatch.GenerateExtends | generate-batch.go:157-164 | lines already written stay first: more posts only append lines and raise counters |
| GenerateBatch.WriteFailureSticks | generate-batch.go:157-162 | after the writer fails, no later post adds a line |
| GenerateBatch.MissingCount | generate-batch.go:117-123 | no body is missing exactly when every post's body can be read |
| GenerateBatch.HealthyRunCountsMissingBodies | generate-batch.go:115-165 | when encoding and writing succeed, the error count is the number of missing bodies, every other post succeeds, and the lines are those of the readable posts, in manifest order |
| GenerateBatch.HealthyRunWritesEveryPost | generate-batch.go:115-165 | when all bodies are present and encoding and writing succeed, there are no errors and the i-th line is the i-th post's request |
| GenerateBatch.StepHealthy | generate-batch.go:149-164 | a readable post with healthy encoding and writer appends its line and one success |
| GenerateBatch.Run | generate-batch.go:91-176 | the template, the manifest and the output file are fatal, in that order. Otherwise the lines and counters are `Generate` of the manifest posts. |
| ManifestAgreement.SameIdsFromSameManifest | generate-batch.go:57-79 | when "post_id" names one column and the converter accepts the manifest, the generator reads the same ids, row for row |
| ManifestAgreement.BothRejectMissingPostId | generate-batch.go:64-66 | a manifest the generator rejects for lacking "post_id" makes the converter fail on that same field |

## Left out

- File-system effects are not modelled. Opening, reading, creating and writing files are inputs: `Option` values, the body map, the unwritable set and booleans.
- `cleanOrCreateFolder` (substack2hugo.go:99-115) is modelled only as `folderReady`. After it succeeds, the output folder is taken to be empty, so `Convert` starts from the empty map. Its removal loop is not modelled.
- `os.WriteFile` is taken to write nothing when it fails; partial writes are not modelled.
- CSV tokenising is not modelled. The reader is a stream of already-split records or errors. Quoting and `TrimLeadingSpace` are not modelled.
- JSON decoding of `batch_output.jsonl` is not modelled. Each line is `Some(record)` or `None` for a line that does not decode. `Choice.index` is carried but never used, as in the source.
- JSON encoding of requests is not modelled. It is the `marshal` parameter.
- Substack2Hugo.LoadBatchOutput: an empty `choices` list would make the source panic at substack2hugo.go:149. The model requires every decoded line to have a choice (`ChoicesPresent`) instead of modelling the panic.
- GoStrings.ToLower: maps ASCII letters only, where Go's `strings.ToLower` maps all of Unicode. No non-ASCII rune lower-cases to a letter of "true" or "false", so `InvertBoolean` and the draft skip are exact.
- Substack2Hugo.InputPath: `filepath.Join` cleans paths; the model concatenates. Ids containing "/", "." or ".." segments would give other paths in the source.
- GenerateBatch.HtmlPath: the same difference as `InputPath`.
- Substack2Hugo.OutputPath: `filepath.Join` cleans paths; the model concatenates. Slugs such as `a`, `./a` and `/a` name one file in the source, and a slug with `..` segments names a file outside the output folder. For such slugs, `FolderOfOutcomes`, `FolderHasWritten`, `FolderHoldsLastWrite` and `FolderPathsFromSlugs` describe the uncleaned paths, not the files the source writes.
- GenerateBatch.Run: the buffered writer is modelled only as far as `WriteString` goes. `writeOk` decides a line while the writer is healthy, and a failed writer refuses every later line. Buffering, the final `Flush` and its ignored error are not modelled. So `lines` are the lines the writer accepted, not necessarily what reaches the disk.
- Log messages, printed summaries, the absolute output path and the exact error texts are not modelled. The converter's errors keep the failing path; the generator only counts its failures.
- The `bufio.Scanner` line limit is not modelled. Any scanner error is the `scanFailed` flag.
- Flag parsing is not modelled; the two flags are `Options`.
- Counters are unbounded; the source's `int` cannot overflow at any realistic number of posts.
- TOML validity of the front matter is not modelled. Values are substituted without escaping, and `RenderReadsBack` states only the line structure. A value containing a quote or a newline is written as it is, as in the source.
