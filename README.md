# codemention in Dafny

codemention is a GitHub Action. It mentions users and teams on a pull request
when the request changes files that match configured glob patterns. One run
has three stages:

1. **Evaluate the rules** (src/runner.ts). Each configured rule
   (`patterns`, `mentions`) becomes a *matched rule*:
   - the pull request's author is dropped from `mentions`;
   - `matchedFiles` receives the changed files that match the patterns;
   - a rule left without files or without mentions is dropped.
2. **Render the comment** (src/comment-renderer.ts).
   - `createMentionsList` groups the matched files by mentioned name and sorts them.
   - `render` chooses the custom template or the default one.
   - It fills in the context (rules, mentions, preamble, epilogue) and appends the
     sentinel `FOOTER` (`<!-- codemention header -->`).
3. **Upsert the comment** (src/comment-upserter.ts). `upsert` looks for the
   first comment on the pull request whose body starts or ends with `FOOTER`.
   It then does one of four things:
   - creates the comment, when none exists and some rule matched;
   - updates that comment, when its body differs;
   - skips, when no comment exists and no rule matched;
   - skips, when the body is unchanged.

## Modules

- **Wrappers:** `Option` and `Result`.
- **Strings:** `LexLe`, lexicographic order by Unicode code point, which stands for JavaScript's string order; `Join` for `Array.prototype.join`; `StartsWith`/`EndsWith`.
- **Sorting:** `Array.prototype.sort` as an insertion sort that places each element after those with an equal key, so it is stable. It is a method, proved sorted and a permutation, and strictly ascending when keys are distinct. Two strictly ascending lists with the same keys are equal key by key.
- **GitHubTypes, Configuration, TemplateTypes:** the records of src/github-types.ts, src/configuration.ts and src/template-types.ts, plus `Mention` (`{name, matchedFiles}`).
- **CommentRenderer:** the escaping helper, the default template and `createMentionsList`.
  - The default template is written out as the string Handlebars produces from it.
  - `createMentionsList` is imperative. A `map<string, seq<string>>` stands for the `Map` of `Set`s, and a `seq` of keys for the `Map`'s insertion order.
  - `render` is a method. `RenderSpec` is its specification function.
- **CommentUpserter:** the comment search and the upsert decision as functions.
  - `IssuesApi` is a class holding every comment thread. It also holds the id the next comment gets and the record of write requests it received.
  - `IssuesApi.ListComments` answers with the first page of a thread, as the unpaginated call in the source does. `IssuesApi.ListAllComments` answers with every page.
  - `Upserter.UpsertAsWritten` is `upsert` as written, on the first page. `Upserter.Upsert` is the corrected `upsert`, on every page, and `Runner.Run` uses it (see "## Findings").
- **Runner:**
  - the rule evaluation as functions;
  - the two readers as classes that record the requests they receive;
  - `Runner.Run` as the method that sequences the stages.
- **Scenarios:** the concrete examples of __tests__/comment-renderer.test.ts and __tests__/comment-upserter.test.ts, stated on the model.

Collaborators the model cannot see are parameters:
- the glob library (`Runner.Glob`, uninterpreted);
- the evaluation of a custom Handlebars template (`CommentRenderer.Handlebars`, an uninterpreted function of template and context);
- the stored configuration file and the changed-file list (functions held by the reader classes).

The only assumption about the glob library is `GlobSound`: it returns changed files, each matching one of the patterns. It appears only as the precondition of `Runner.MatchedFilesAreChanged`.

Two points where the model follows the code:
- **No deprecation warning.** The code emits no warning when `preamble` or `epilogue` is configured, although __tests__/comment-renderer.test.ts:59,124-131 expect one.
- **Slashes are not escaped.** The code passes `['slashes']` to `markdownEscape`, which leaves `/` alone. The tests at __tests__/comment-renderer.test.ts:36-37 agree with the code.

## Model

| member | source | states |
|---|---|---|
| Runner.Filter | src/runner.ts:51-56 | `xs.filter(p)`: never longer than `xs`, and every element kept satisfies `p` |
| Runner.KeptIndices | src/runner.ts:51-56 | the positions `filter` keeps ascend strictly, carry the kept elements in order, and a position is kept if and only if its element satisfies the predicate |
| Runner.KeptFromComplete | src/runner.ts:51-56 | from a given offset on, a position is among the kept ones exactly when its element satisfies the predicate |
| Runner.FilterMultiset | src/runner.ts:51-53 | filtering keeps every occurrence of a satisfying element and none of the others |
| Runner.WithoutAuthorSpec | src/runner.ts:50-53 | the author never remains among the mentions; every other mention keeps its multiplicity and its relative order |
| Runner.WithoutAuthor | src/runner.ts:51-53 | the author is not among the remaining mentions; every remaining mention was listed, and the list never grows |
| Runner.EvaluateRule | src/runner.ts:48-55 | a configured rule keeps its patterns, gets the glob's files from the changed files, and keeps only mentions it had, the author excluded |
| Runner.Applies | src/runner.ts:56 | a rule is kept when it has at least one matched file and one mention |
| Runner.EvaluateAll | src/runner.ts:47-55 | the `map` step: one evaluated rule per configured rule, in order, each keeping its patterns and not mentioning the author |
| Runner.EvaluateRules | src/runner.ts:47-56 | no more matched rules than configured rules; each has files and mentions and none mentions the author |
| Runner.EvaluateRulesSpec | src/runner.ts:47-56 | the matched rules are the configured rules, in configuration order and no more numerous, that are kept if and only if the glob returns files and mentions remain without the author; each keeps its patterns, drops the author and holds the glob's files |
| Runner.MatchedFilesAreChanged | src/runner.ts:54 | when the glob library returns matching changed files, every matched file is a changed file matching one of its rule's patterns |
| Runner.ConfigurationReader.constructor | src/configuration-reader.ts:26 | holds the stored configuration files and has recorded no request yet |
| Runner.ConfigurationReader.Read | src/configuration-reader.ts:29-42 | records the request (repository and ref); returns the stored configuration, or the error "No content for .github/codemention.yml" when the repository-content response has no `content` field (the path is not a file) |
| Runner.FilesChangedReader.constructor | src/files-changed-reader.ts:24 | holds the changed files of every pull request and has recorded no request yet |
| Runner.FilesChangedReader.Read | src/files-changed-reader.ts:27-40 | records the request (repository and pull number) and returns the changed files of the pull request |
| Runner.Runner.constructor | src/runner.ts:21-26 | holds the injected collaborators |
| Runner.Runner.Run | src/runner.ts:33-69 | a draft reads nothing and writes nothing; otherwise both readers are called with the base sha and the pull number; a missing configuration fails the run with the API unchanged; otherwise the evaluated rules go to the renderer, and the same rules and the rendered comment go to `upsert`, with the thread, the write log, the next id and all other threads as the corrected `Upsert` states |
| CommentRenderer.IsSpecial | src/comment-renderer.ts:12-16 | the characters markdown-escape replaces once slashes are skipped |
| CommentRenderer.EscapeChar | src/comment-renderer.ts:12-16 | a character that is not special is kept as it is; each character becomes one to four characters |
| CommentRenderer.MarkdownEscape | src/comment-renderer.ts:12-16 | the escaped text is never shorter than the text and at most four times as long |
| CommentRenderer.MarkdownEscapeConcat | src/comment-renderer.ts:12-16 | escaping a concatenation is the concatenation of the escaped parts |
| CommentRenderer.MarkdownEscapePlain | src/comment-renderer.ts:12-16 | text without special characters, slashes and dots included, is left unchanged |
| CommentRenderer.MarkdownEscapeCharacters | src/comment-renderer.ts:12-16 | `*` and `_` are backslash-escaped; `/` and `.` are not |
| CommentRenderer.Truthy | src/comment-renderer.ts:25 | `{{#if epilogue}}` holds for a defined, non-empty string |
| CommentRenderer.TextOf | src/comment-renderer.ts:18 | `{{preamble}}` renders an undefined value as nothing |
| CommentRenderer.EscapedPatterns | src/comment-renderer.ts:22 | the patterns cell's items: one per pattern, in order, each no shorter than its pattern |
| CommentRenderer.AtMentions | src/comment-renderer.ts:22 | the mentions cell's items: one per mention, in order, each the mention behind an `@`; this transcribes `@{{this}}`, and Scenarios.MigrationsRow and Scenarios.WorkflowsRow check it against the test's text |
| CommentRenderer.RowLine | src/comment-renderer.ts:22 | a rule's row starts with `\| ` and ends with ` \|` |
| CommentRenderer.RowLines | src/comment-renderer.ts:21-23 | one row per matched rule, in order, each delimited by `\| ` and ` \|` |
| CommentRenderer.Rows | src/comment-renderer.ts:21-23 | the `{{#each matchedRules}}` block is empty exactly when there are no rules, and otherwise ends with a line break |
| CommentRenderer.DefaultTemplate | src/comment-renderer.ts:18-28 | the default template starts with the preamble line and the header row, and ends with a line break |
| CommentRenderer.TerminatedJoin | src/comment-renderer.ts:21-23 | rows each followed by a line break, followed by joined lines, are all of them joined by line breaks |
| CommentRenderer.DefaultTemplateLayout | src/comment-renderer.ts:18-28 | the default template followed by FOOTER is the lines preamble, header row, separator row, one row per rule in order, a blank line, the epilogue when truthy, and FOOTER, joined by line breaks |
| CommentRenderer.LinesLayout | src/comment-renderer.ts:18-28 | the same layout stated on arbitrary head lines, rows, at most one epilogue line and last line |
| CommentRenderer.MentionsOf | src/comment-renderer.ts:66-85 | the mentions list built directly from its specification meets it: names strictly ascending, exactly the mentioned names, and for each name the strictly ascending union of the files of the rules that mention it |
| CommentRenderer.MentionsListUnique | src/comment-renderer.ts:66-85 | at most one list meets that specification |
| CommentRenderer.SortedElements | src/comment-renderer.ts:82 | the members of a set of strings, strictly ascending |
| CommentRenderer.AddAll | src/comment-renderer.ts:75-77 | adding the files to a JavaScript Set: still duplicate-free, holds the old and the new files, and the old ones stay first in their order |
| CommentRenderer.KeysListedAdd | src/comment-renderer.ts:70-74 | a name enters the key list exactly when it is new to the map, keeping the list duplicate-free and in step with the map's keys |
| CommentRenderer.FilesGroupedAdd | src/comment-renderer.ts:70-77 | after the name's set receives the rule's files, every name's set still holds exactly the files of the rules seen so far that mention it |
| CommentRenderer.AddMention | src/comment-renderer.ts:69-78 | one mention: after it, the map is grouped for the earlier rules and the first j+1 mentions of the current rule |
| CommentRenderer.AddRule | src/comment-renderer.ts:68-79 | one rule: the map and its key list are grouped for one more rule |
| CommentRenderer.GroupFilesByName | src/comment-renderer.ts:67-79 | the key list holds each mentioned name once; each name's set holds, without duplicates, the files of the rules that mention it |
| CommentRenderer.NamesStep | src/comment-renderer.ts:68-69 | the names mentioned by one more rule add that rule's mentions |
| CommentRenderer.FilesForStep | src/comment-renderer.ts:68-77 | a name's files after one more rule add that rule's files when it mentions the name |
| CommentRenderer.FilesForUnmentioned | src/comment-renderer.ts:71-73 | a name no rule mentions has no files |
| CommentRenderer.SortedEntries | src/comment-renderer.ts:80-83 | one entry per key, in key order, each with its files sorted strictly ascending and holding exactly that name's files |
| CommentRenderer.CreateMentionsList | src/comment-renderer.ts:66-85 | each mentioned name appears exactly once, the names ascend, and each name's files are the duplicate-free ascending union over its rules; a name whose rules match no files gets an empty list; the result equals `MentionsOf` |
| CommentRenderer.SelectTemplate | src/comment-renderer.ts:53 | the custom template is chosen exactly when a configuration defines one |
| CommentRenderer.PreambleOf | src/comment-renderer.ts:57 | the configured preamble, or DEFAULT_COMMENT_PREAMBLE when none is defined |
| CommentRenderer.EpilogueOf | src/comment-renderer.ts:58 | the configured epilogue, undefined without a configuration |
| CommentRenderer.RenderContext | src/comment-renderer.ts:54-59 | the template context carries the rules unchanged, a mentions list meeting its specification, a defined preamble and the configured epilogue |
| CommentRenderer.Evaluate | src/comment-renderer.ts:60-62 | evaluating the default template starts with the preamble line and the header row; a custom template is left to the uninterpreted Handlebars function |
| CommentRenderer.RenderSpec | src/comment-renderer.ts:53-63 | the rendered comment ends with FOOTER |
| CommentRenderer.Render | src/comment-renderer.ts:49-64 | returns `RenderSpec`: the selected template evaluated on the context, followed by FOOTER; the comment always ends with FOOTER |
| CommentRenderer.RenderTemplateChoice | src/comment-renderer.ts:53-63 | the configured template is used when defined, the default one otherwise; the context carries the rules, the specified mentions list, the configured preamble or DEFAULT_COMMENT_PREAMBLE when undefined, and the epilogue unchanged |
| CommentRenderer.DefaultRenderLayout | src/comment-renderer.ts:53-63 | with no custom template the comment is the preamble line, header row, separator row, one escaped row per rule in order, a blank line, the epilogue when truthy, and FOOTER |
| Sorting.Insert | src/comment-renderer.ts:82-84 | one insertion step of the sort: the result is the input plus the new element, as a multiset |
| Sorting.InsertAfterEqual | src/comment-renderer.ts:82-84 | stability: an element inserted among elements of its own key goes after them all |
| Sorting.InsertKeys | src/comment-renderer.ts:82-84 | the keys after an insertion are the old keys plus the new one |
| Sorting.InsertBounded | src/comment-renderer.ts:82-84 | a lower bound of the new element and of the list bounds the result |
| Sorting.InsertSorted | src/comment-renderer.ts:82-84 | insertion keeps a sorted list sorted |
| Sorting.InsertDistinct | src/comment-renderer.ts:82-84 | insertion of a new key keeps keys distinct |
| Sorting.SortBy | src/comment-renderer.ts:82-84 | `sort`: the result is ascending by key, a permutation of the input, and strictly ascending when the keys are distinct |
| Sorting.StrictlySortedUnique | src/comment-renderer.ts:82-84 | two strictly ascending lists with the same keys agree key by key |
| Sorting.StrictlySortedByAdjacent | src/comment-renderer.ts:84 | keys strictly ascending from each element to the next ascend strictly throughout |
| Sorting.StrictlySortedTail | src/comment-renderer.ts:84 | dropping the first element keeps a list strictly ascending |
| Sorting.IdKeys | src/comment-renderer.ts:82 | a string list keyed by itself: its keys are its elements, and distinct keys mean no duplicates |
| Strings.LexLeRefl | src/comment-renderer.ts:84 | the string order is reflexive |
| Strings.LexLeTotal | src/comment-renderer.ts:84 | the string order is total |
| Strings.LexLeTrans | src/comment-renderer.ts:84 | the string order is transitive |
| Strings.LexLeAntisym | src/comment-renderer.ts:84 | the string order is antisymmetric |
| Strings.LexLeStrict | src/comment-renderer.ts:84 | a string strictly below another is not above it |
| Strings.JoinAppend | src/comment-renderer.ts:22 | joining two non-empty lists puts exactly one separator between their joins |
| CommentUpserter.IsCodeMention | src/comment-upserter.ts:49-51 | a comment is the action's when its body is defined and starts or ends with FOOTER |
| CommentUpserter.FindExisting | src/comment-upserter.ts:47-52 | returns the first comment whose body is defined and starts or ends with FOOTER, and none exactly when no comment qualifies |
| CommentUpserter.Decide | src/comment-upserter.ts:53-75 | create exactly when no comment qualifies and some rule matched; skip-no-rules exactly when none qualifies and no rule matched; update, of the found comment's id, exactly when the found body differs, whatever the rule count; skip-unchanged exactly when it is equal |
| CommentUpserter.SetBody | src/comment-upserter.ts:67-72 | `updateComment` on one thread: same length and ids; the comment with that id gets the body; every other comment is unchanged |
| CommentUpserter.AfterWrite | src/comment-upserter.ts:53-75 | the thread after an action: one more comment exactly on a create, placed last with the next id and the body; every earlier comment keeps its id |
| CommentUpserter.UpdateInRepo | src/comment-upserter.ts:67-72 | `updateComment` across a repository: the same pull requests, each thread the same length, and the threads of other repositories unchanged |
| CommentUpserter.ThreadIdsDistinct | src/comment-upserter.ts:42-46 | the ids of one thread are distinct and below the next id |
| CommentUpserter.FirstPage | src/comment-upserter.ts:42-46 | one page of `listComments`: the first 30 comments of the thread, or all of them when fewer, in order |
| CommentUpserter.FirstPageRecreates | src/comment-upserter.ts:42-61 | as written: on a thread of at least 30 comments with no sentinel comment among the first 30, a run with rules creates a comment, and the next run creates another |
| CommentUpserter.WritesOf | src/comment-upserter.ts:53-75 | at most one write request per call |
| CommentUpserter.AtMostOneWrite | src/comment-upserter.ts:53-75 | each call sends at most one write, and only an update when a sentinel comment exists |
| CommentUpserter.UpdateOnlyTouchesFound | src/comment-upserter.ts:65-72 | an update gives the found comment the new body and leaves every other comment of the thread as it was |
| CommentUpserter.UpsertIdempotent | src/comment-upserter.ts:47-75 | reading every page, a second upsert with the same rules and the same comment ending in FOOTER sends no write (the first creation or update makes the comment the one found, with the same body) |
| CommentUpserter.FirstCodeMention | src/comment-upserter.ts:47-52 | a sentinel comment with none before it is the one found |
| CommentUpserter.AppendKeepsIdsUnique | src/comment-upserter.ts:56-61 | appending a comment with a fresh id keeps comment ids unique across all threads and below the next id |
| CommentUpserter.SetBodyAbsent | src/comment-upserter.ts:67-72 | an update leaves a thread without that id unchanged |
| CommentUpserter.IssuesApi.constructor | src/comment-upserter.ts:32 | starts from the given threads and next id with an empty write log |
| CommentUpserter.IssuesApi.ListComments | src/comment-upserter.ts:42-46 | `listComments` as called, without paging: the first page of the pull request's thread |
| CommentUpserter.IssuesApi.ListAllComments | src/comment-upserter.ts:42-46 | `listComments` through `paginate`: the whole thread, whose ids are distinct and below the next id |
| CommentUpserter.IssuesApi.CreateComment | src/comment-upserter.ts:56-61 | appends a comment with a fresh id and the body to the pull request's thread only, records the request and keeps ids unique |
| CommentUpserter.IssuesApi.UpdateComment | src/comment-upserter.ts:67-72 | the comment with that id in the repository gets the body, nothing else changes, and the request is recorded |
| CommentUpserter.Upserter.constructor | src/comment-upserter.ts:32 | holds the API it writes through |
| CommentUpserter.Upserter.Carry | src/comment-upserter.ts:47-75 | on listed comments that start the thread: the action is `Decide` on them, carried out through the API as `AfterWrite` and `WritesOf` state; the next id advances only on a create; no other thread changes |
| CommentUpserter.Upserter.UpsertAsWritten | src/comment-upserter.ts:35-76 | `upsert` as written: the action is `Decide` on the first page of the thread; the thread, the write log and the next id change as that action states; no other thread changes |
| CommentUpserter.Upserter.RepeatUpsertAsWritten | src/comment-upserter.ts:35-76 | as written, two runs on a thread whose first 30 comments hold no sentinel both create a comment |
| CommentUpserter.Upserter.RepeatUpsert | src/comment-upserter.ts:35-76 | corrected: a second run with the same rules and rendered comment writes nothing, so the write log holds the first run's write only |
| CommentUpserter.Upserter.Upsert | src/comment-upserter.ts:35-76 | corrected `upsert`: the action is `Decide` on the whole thread, read page by page; the thread becomes the thread after that action (one appended comment, one rewritten comment, or none); the write log grows by that action's writes; the next id advances only on a create; no other thread changes |
| Scenarios.ExpectedIsCodeMention | __tests__/comment-upserter.test.ts:244-252 | the expected default comment ends with FOOTER |
| Scenarios.EscapeDoubleStar | __tests__/comment-renderer.test.ts:36-37 | a directory free of special characters followed by `**` escapes to the directory followed by `\*\*` |
| Scenarios.EscapeDirPatterns | __tests__/comment-renderer.test.ts:36-37 | `db/migrate/**` escapes to `db/migrate/\*\*` and `.github/**` to `.github/\*\*` |
| Scenarios.EscapeSpecs | __tests__/comment-renderer.test.ts:37 | `spec/*.rb` escapes to `spec/\*.rb` |
| Scenarios.MigrationsRow | __tests__/comment-renderer.test.ts:36 | the migrations rule renders as the row `\| db/migrate/\*\* \| @cto, @dba \|` |
| Scenarios.WorkflowsRow | __tests__/comment-renderer.test.ts:37 | the CI rule renders as the row `\| .github/\*\*<br>spec/\*.rb \| @ci \|` |
| Scenarios.ExampleRowLines | __tests__/comment-renderer.test.ts:36-37 | the two example rules render as those two rows, in order |
| Scenarios.DefaultCommentExample | __tests__/comment-renderer.test.ts:31-43 | with no configuration the example rules render as the expected default comment |
| Scenarios.PreambleEpilogueExample | __tests__/comment-renderer.test.ts:45-64 | the configured preamble replaces the default one and the epilogue gets its own line before FOOTER; there is no warning line |
| Scenarios.MentionRulesNames | __tests__/comment-renderer.test.ts:90-106 | the three rules mention ci, cto, dba and infra |
| Scenarios.ExpectedNamesSorted | __tests__/comment-renderer.test.ts:113-118 | the expected names ascend strictly |
| Scenarios.ExpectedFilesSorted | __tests__/comment-renderer.test.ts:113-118 | every expected file list ascends strictly |
| Scenarios.MentionsExample | __tests__/comment-renderer.test.ts:89-122 | the mentions list of the three rules is ci, cto, dba, infra, with cto's files merged from two rules and sorted |
| Scenarios.Listed | __tests__/comment-upserter.test.ts:42-53 | the stubbed comments get ids 1, 2, … and the given bodies |
| Scenarios.NoRulesExample | __tests__/comment-upserter.test.ts:60-66 | no sentinel comment and no rules: skip, with no write |
| Scenarios.CreateExample | __tests__/comment-upserter.test.ts:68-87 | no sentinel comment and the example rules: create, with the expected default comment as body |
| Scenarios.LeadingSentinelExample | __tests__/comment-upserter.test.ts:188-213 | a comment beginning with FOOTER is found and comment 2 is updated |
| Scenarios.TrailingSentinelExample | __tests__/comment-upserter.test.ts:215-239 | a comment ending with FOOTER and a different body: comment 2 is updated |
| Scenarios.UnchangedExample | __tests__/comment-upserter.test.ts:242-259 | a sentinel comment with the rendered body already: skip, with no write |

## Left out

- Logging (`core.info`, `core.debug`) is left out. The model has no output channel.
- No deprecation warning is modelled for `preamble` or `epilogue`. The code of src/comment-renderer.ts emits none, although __tests__/comment-renderer.test.ts:59,124-131 expects one.
- `Promise.all` at src/runner.ts:42-45 is modelled as two sequential calls. Both reads are issued before the configuration is checked. How the concurrent reads interleave is not modelled.
- Errors thrown by the files-changed reader and by the API calls are not modelled: the action fails on them with no logic of its own. The only error the model fails on is "No content for .github/codemention.yml", which src/configuration-reader.ts:37-41 throws when the repository-content response has no `content` field (the path is not a file).
- An empty .github/codemention.yml, or one without `rules`, is not modelled: `yaml.load` then yields no rule list and `run` fails with a TypeError at `configuration.rules` (src/runner.ts:47). The stored configuration of the model is always a parsed `Configuration`.
- The configuration reader's REST call, base64 decoding and `yaml.load` are left out. They are foreign I/O and parsing, so `ConfigurationReader` holds the already-parsed file per repository and ref.
- The files-changed reader's pagination is left out. `FilesChangedReader` holds the full list per pull request.
- GitHub's paging of `listComments` is modelled by its default page size of 30 only; `per_page` and the page links are not modelled.
- Glob semantics are not modelled. `micromatch(files, patterns, {dot: true})` is an uninterpreted function, and its soundness is an explicit precondition.
- Custom Handlebars templates are not interpreted: a custom template is an uninterpreted function of the template and the context. Only `DEFAULT_TEMPLATE` is written out, as the string Handlebars produces from it.
- The escaping table is only partly evidenced. The markdown-escape package is not part of this model, so `EscapeChar` writes out its replacements: `*`, `#`, `(`, `)`, `[`, `]`, `_` and the backtick get a backslash, `<` becomes `&lt;` and `>` becomes `&gt;`; the skipped slashes are left alone. Only the behaviour on `*`, `_`, `/` and `.` is backed by the tests.
- `localeCompare` (src/comment-renderer.ts:84) and the default `sort()` (line 82) are both modelled as lexicographic order by Unicode code point. For `localeCompare` this is an approximation: locale collation orders `"B"` and `"a"`, or `"_"` and `"-"`, differently even in ASCII, and locale rules are not modelled.
- Strings.LexLe: JavaScript compares UTF-16 code units, so it orders differently from the model for strings holding characters above U+FFFF (a surrogate pair sorts below U+E000 to U+FFFF). The model does not capture that difference.
- `Array.prototype.sort` is modelled as a stable insertion sort. Nothing depends on which stable algorithm the engine uses; every sort in the source has distinct keys.
- The upserter test file still calls an older `upsert(repo, pullNumber, rules, customContent)` and expects it to render. In the source the comment is rendered by `render` and passed in. The model follows the current `upsert`, so the upserter examples use the renderer's output as the comment.
- `Upserter.Upsert` takes the rules only for their count, which is all `upsert` uses them for.
- src/main.ts is not part of this model: it reads inputs, builds the clients and calls `run` without awaiting it.
- Runner.Run: the comment is `RenderSpec` of the rules, whose custom-template case depends on the uninterpreted `Handlebars` function. Its contract describes the corrected upsert, which reads every page of comments; on a thread of more than 30 comments the shipped `upsert` (`Upserter.UpsertAsWritten`) decides on the first 30 only and can act differently (see "## Findings").

## Findings

| source | as written | input that shows it | evidently intended | confidence | as-written member | corrected member |
|---|---|---|---|---|---|---|
| src/comment-upserter.ts:42-46 | `issues.listComments` is called once, without `paginate`, so only the first page of comments (30 by default) is searched for the sentinel comment | a pull request whose first 30 comments do not carry FOOTER, with some rule matched: each run creates a new comment after them, which the next run does not see, so every run adds a duplicate | search every comment, reading all pages with `paginate` as src/files-changed-reader.ts:28-37 does for changed files | medium, not executed | CommentUpserter.FirstPageRecreates | CommentUpserter.UpsertIdempotent |
