# yamlcmt core in Dafny

yamlcmt compares the YAML files a branch changed against their versions on
a base branch. It then posts a plan-style summary as a GitHub pull-request
comment and can label the pull request. This project models two parts of it
as pure functions and short loop methods over strings, sequences and maps,
and proves their properties.

- The git side (`internal/git/git.go`):
  - `cleanYAMLContent` strips leading blank, comment and bare `---` lines.
  - `GetChangedYAMLFiles` filters the output of `git diff --name-only`.
  - `CombineFilesForComparison` assembles the two YAML streams it writes to temporary files.
  - `ParseFilesWithSourceTracking` decodes every file's branch version and current version into documents tagged with their file.
- The GitHub side (`internal/github/github.go`):
  - `parseRepo` splits `owner/repo`.
  - `AddLabel` and `AddLabels` decide whether the API is contacted and with which labels.
  - `PrepareTemplateData` computes the counts, the `Plan: <A> to add, <D> to delete, <M> to modify` line and the sorted key lists.

Everything the code asks of the outside world is a parameter:
- `git show` and `os.ReadFile` answer `Option<string>`;
- `git diff` answers its output or `None`;
- `os.Stat` is a predicate on names;
- the YAML decoder answers the documents of a stream, or `None`;
- `yaml.Marshal` is a function;
- the `GITHUB_TOKEN` value is a string.

Modules and files:

| module | file | models |
|---|---|---|
| `Results` | results.dfy | `Option` and `Result` |
| `Seqs` | seqs.dfy | generic facts about sequence concatenation used by the proofs |
| `Text` | text.dfy | `bytes.TrimSpace`, `HasPrefix`, `HasSuffix`, `Split` and `Join` on one separator character |
| `GitClean` | git_clean.dfy | `cleanYAMLContent`, and the `branch:file` revision argument of `git show` that both file loops use |
| `GitChangedFiles` | git_changed.dfy | `GetChangedYAMLFiles` |
| `GitCombine` | git_combine.dfy | `CombineFilesForComparison` |
| `GitSourceTracking` | git_tracking.dfy | `ParseFilesWithSourceTracking` |
| `GitHubRepo` | github_repo.dfy | `parseRepo` |
| `GitHubLabels` | github_labels.dfy | `AddLabel` and `AddLabels` |
| `Decimal` | decimal.dfy | `%d` formatting and its reading back |
| `ByteOrder` | byte_order.dfy | the order of `sort.Strings` and sorted key extraction |
| `GitHubTemplate` | github_template.dfy | `PrepareTemplateData` |

The source's loops are modelled in three ways:
- The two file loops are methods. `CombineWith` and `ParseWith` write to buffers as the source does, and their `ensures` equate the result with a recursive definition (`AssembleFrom`, `CollectFrom`); the lemmas are stated about that definition. The assembly and collection rules take the cleaner as a parameter (`clean`), which the entry points instantiate with `CleanYAMLContent`, so the stream rules are stated apart from the cleaning rules.
- The key loops of `PrepareTemplateData` are the method `SortedKeys`, whose `ensures` state its result directly: strictly ascending, and exactly the map's keys.
- The line loops of `cleanYAMLContent` and `GetChangedYAMLFiles` and the label loop of `AddLabels` are recursive functions (`FirstContentLine`, `FilterChangedLines`, `NonEmptyLabels`), described by the lemmas about them.

Bytes are modelled as characters. The byte-wise order of `sort.Strings` is modelled as code-point order on characters, which agrees with byte order on valid UTF-8.

## Model

| member | source | states |
|---|---|---|
| Text.TrimSpace | internal/git/git.go:152 | `bytes.TrimSpace`, used here and at line 30: the left trim, then the right trim, of the ASCII white-space set |
| Text.Split | internal/git/git.go:147 | `bytes.Split`, used here and at line 28 (and `strings.Split` in `parseRepo`), on one separator: the text before the first separator, then the pieces of the rest; one piece when there is no separator |
| Text.Join | internal/git/git.go:179 | `bytes.Join`: the pieces with one separator between neighbours; empty for no pieces |
| Text.TrimSpaceEmptyIff | internal/git/git.go:30-31 | a trimmed line is empty exactly when every character is white space; otherwise it neither starts nor ends with white space |
| Text.TrimSpaceKeepsSolidSuffix | internal/git/git.go:30-36 | trimming a line that ends in a space-free suffix keeps that suffix, and the trimmed text is a suffix of the line |
| Text.TrimLeftSpec | internal/git/git.go:152 | left trimming removes exactly the leading white space |
| Text.TrimRightSpec | internal/git/git.go:152 | right trimming removes exactly the trailing white space |
| Text.JoinSplit | internal/git/git.go:147-179 | joining the `\n`-split lines with `\n` gives back the input |
| Text.SplitJoin | internal/git/git.go:147-179 | splitting a join of separator-free pieces gives back the pieces |
| Text.SplitCount | internal/github/github.go:48-49 | splitting yields one more piece than there are separators |
| Text.SplitPiecesFree | internal/git/git.go:147 | no split piece contains the separator |
| Text.JoinAppend | internal/git/git.go:179 | joining a concatenation puts one separator between the two joins |
| GitClean.IsLeadingNoise | internal/git/git.go:152-166 | a line whose trimmed form starts with `#`, is empty, or is `---` |
| GitClean.FirstContentLine | internal/git/git.go:151-169 | the number of leading noise lines the loop skips before it stops skipping |
| GitClean.CleanYAMLContent | internal/git/git.go:146-180 | the `\n`-split lines from the first non-noise line on, re-joined with `\n`; empty when there is none |
| GitClean.Revision | internal/git/git.go:75 | the `<branch>:<file>` argument of `git show`, the same here and at line 189 |
| GitClean.FirstContentLineIsFirst | internal/git/git.go:151-169 | every line before the index is leading noise (comment, blank or `---`) and the line at it is not |
| GitClean.CleanIsSuffix | internal/git/git.go:146-180 | the cleaned text is a suffix of the input: only whole leading lines are removed |
| GitClean.CleanEmptyIff | internal/git/git.go:154-177 | the cleaned text is empty exactly when every input line is leading noise |
| GitClean.CleanKeepsTail | internal/git/git.go:151-179 | the cleaned lines are the input's last lines, verbatim and in order; every dropped line is noise and the first kept line is not |
| GitClean.CleanIdempotent | internal/git/git.go:146-180 | cleaning a cleaned text changes nothing |
| GitClean.CleanNeverStartsWithSeparator | internal/git/git.go:164-168 | a cleaned text never starts with a bare `---` line |
| GitChangedFiles.Accepted | internal/git/git.go:30-38 | a line is kept when its trimmed form is non-empty, the untrimmed line ends in `.yaml` or `.yml`, and the trimmed name exists |
| GitChangedFiles.FilterChangedLines | internal/git/git.go:27-42 | the trimmed names of the accepted lines, in input order, repeats kept |
| GitChangedFiles.GetChangedYAMLFiles | internal/git/git.go:17-44 | an error when `git diff` fails; otherwise the filter applied to its output split on `\n` |
| GitChangedFiles.FilterAppend | internal/git/git.go:27-42 | the line filter distributes over concatenation, so it keeps input order and repeats |
| GitChangedFiles.FilterMembership | internal/git/git.go:29-41 | a name is returned exactly when some line trims to it, is non-empty, ends in `.yaml` or `.yml` untrimmed, and the name exists |
| GitChangedFiles.AcceptedName | internal/git/git.go:30-39 | an accepted line yields a non-empty existing name that ends in `.yaml` or `.yml`, starts with no white space and ends the raw line |
| GitChangedFiles.FilterYieldsYAMLNames | internal/git/git.go:27-44 | every returned name is non-empty, exists, and ends in `.yaml` or `.yml` |
| GitChangedFiles.GetChangedYAMLFilesErrIff | internal/git/git.go:18-25 | a failing `git diff` is the only error |
| GitCombine.Chunk | internal/git/git.go:113-130 | what one file adds to a stream: nothing for empty cleaned text; otherwise `---\n` unless it is the first file, the text, and `\n` if the text lacks one |
| GitCombine.AnswerChunk | internal/git/git.go:75-100 | nothing when `git show` failed (for the current file the read succeeded, lines 103-110); otherwise the chunk of the cleaned answer |
| GitCombine.AssembleFrom | internal/git/git.go:71-131 | the streams of the files from index `i` on: the first unreadable file is the error; otherwise each file's two chunks, in file order |
| GitCombine.WriteChunk | internal/git/git.go:80-95 | the writes for one file append exactly its chunk to the buffer |
| GitCombine.CombineWith | internal/git/git.go:71-131 | the loop builds exactly the assembled streams, or stops at the first unreadable file |
| GitCombine.CombineFilesForComparison | internal/git/git.go:54-142 | the two stream texts equal the assembly with `cleanYAMLContent` |
| GitCombine.ChunkShape | internal/git/git.go:80-95 | a chunk is empty exactly when the cleaned text is; otherwise it holds the text verbatim, ends in a newline, gains one exactly when the text lacked one, and starts with `---` for every file but the first |
| GitCombine.ChunkSeparatorIff | internal/git/git.go:113-118 | a chunk of cleaned text starts with a `---` line exactly when its file is not the first |
| GitCombine.AssembleOkIff | internal/git/git.go:97-110 | assembly succeeds exactly when every current file can be read; a failed `git show` is never an error |
| GitCombine.AssembleFirstError | internal/git/git.go:103-110 | the error names the first unreadable file |
| GitCombine.AssembleEndsInNewline | internal/git/git.go:92-95 | both streams are empty or end in a newline |
| GitCombine.AssembleEmptyIff | internal/git/git.go:77-130 | a stream is empty exactly when no file contributes non-empty cleaned text to it |
| GitSourceTracking.OldDocsOf | internal/git/git.go:189-212 | no documents when `git show` fails; an error when the cleaned text fails to decode; otherwise the decoded documents tagged with the file |
| GitSourceTracking.NewDocsOf | internal/git/git.go:215-236 | an error when the file cannot be read or its cleaned text fails to decode; otherwise the decoded documents tagged with the file |
| GitSourceTracking.FileDocs | internal/git/git.go:189-236 | one file's branch documents, then its current documents; the branch version's error comes first |
| GitSourceTracking.CollectFrom | internal/git/git.go:185-239 | every file's documents, appended in file order, or the first error |
| GitSourceTracking.ParseWith | internal/git/git.go:185-239 | the loop yields exactly the collected documents, or the first error |
| GitSourceTracking.ParseFilesWithSourceTracking | internal/git/git.go:184-240 | the result equals the collection with `cleanYAMLContent` |
| GitSourceTracking.ThenAssoc | internal/git/git.go:204-235 | combining per-file results is associative, so document order does not depend on grouping |
| GitSourceTracking.CollectAppend | internal/git/git.go:185-237 | collecting over two groups of files is collecting over the first, then over the second |
| GitSourceTracking.CollectOkIff | internal/git/git.go:191-229 | collection succeeds exactly when every file's branch version is absent or decodes, and its current version can be read and decodes |
| GitSourceTracking.CollectTags | internal/git/git.go:203-235 | every document is tagged with an input file and carries its own marshalled text; branch documents only come from files `git show` found |
| GitHubRepo.ParseRepo | internal/github/github.go:47-53 | an error unless the `/`-split gives exactly two parts; otherwise those parts as owner and name |
| GitHubRepo.ParseRepoOkIff | internal/github/github.go:47-51 | parsing succeeds exactly when the input holds one `/` |
| GitHubRepo.ParseRepoJoins | internal/github/github.go:48-52 | owner, `/` and name give back the input, and neither part holds `/` |
| GitHubRepo.ParseRepoOfJoined | internal/github/github.go:47-53 | any `/`-free owner and name, empty ones included, parse back from `owner/name` |
| GitHubLabels.NonEmptyLabels | internal/github/github.go:113-119 | the non-empty labels in input order |
| GitHubLabels.Request | internal/github/github.go:125-136 | a missing token fails first, then a malformed repository; otherwise the labels are sent to the parsed owner and name |
| GitHubLabels.AddLabels | internal/github/github.go:108-143 | nil for an empty list or an all-empty list; otherwise the request with the non-empty labels |
| GitHubLabels.AddLabel | internal/github/github.go:82-105 | nil for an empty label; otherwise the request with that one label |
| GitHubLabels.NonEmptyLabelsAppend | internal/github/github.go:113-119 | the filter distributes over concatenation: order and repeats are kept |
| GitHubLabels.NonEmptyLabelsMembership | internal/github/github.go:115-118 | a label survives exactly when it is in the input and non-empty |
| GitHubLabels.NonEmptyLabelsEmptyIff | internal/github/github.go:121-123 | nothing survives exactly when every label is empty |
| GitHubLabels.AddLabelsSkipIff | internal/github/github.go:108-123 | `AddLabels` returns nil without the API exactly when every label is empty, the empty list included |
| GitHubLabels.AddLabelsSend | internal/github/github.go:125-136 | the API receives exactly the non-empty labels in order, for the owner and name that join to the repository, and only with a token |
| GitHubLabels.AddLabelsNeedsToken | internal/github/github.go:125-134 | without a token the API is never contacted, even for a malformed repository |
| GitHubLabels.AddLabelIsSingleton | internal/github/github.go:82-98 | `AddLabel` behaves as `AddLabels` on the one-label list |
| Decimal.FormatNat | internal/github/github.go:166 | `%d` of a count: its decimal digits, most significant first |
| Decimal.FormatNatShape | internal/github/github.go:166 | `%d` of a count is a non-empty digit string with no leading zero unless it is 0 |
| Decimal.FormatNatRoundTrip | internal/github/github.go:166 | reading the digits of `%d` back gives the count |
| Decimal.ReadFormatted | internal/github/github.go:166 | a formatted count followed by a non-digit reads back as the count and the rest |
| ByteOrder.Less | internal/github/github.go:173 | the order of `sort.Strings`: the first differing character decides, and a proper prefix sorts first |
| ByteOrder.LessIrreflexive | internal/github/github.go:173 | no string sorts before itself |
| ByteOrder.LessTransitive | internal/github/github.go:173 | the sort order is transitive |
| ByteOrder.LessTotal | internal/github/github.go:173 | any two different strings are ordered |
| ByteOrder.Insert | internal/github/github.go:169-173 | inserting a new key into a strictly sorted list keeps it strictly sorted and adds exactly that key |
| ByteOrder.SortedKeys | internal/github/github.go:169-185 | the list is strictly ascending and holds exactly the map's keys, each once |
| ByteOrder.SortedUnique | internal/github/github.go:169-185 | a strictly sorted list is determined by its elements, so the key lists do not depend on map iteration order |
| GitHubTemplate.Summary | internal/github/github.go:166 | `Plan: <A> to add, <D> to delete, <M> to modify` with the three counts in `%d` notation |
| GitHubTemplate.SummaryRoundTrip | internal/github/github.go:166 | the summary line parses back to its three counts |
| GitHubTemplate.SummaryInjective | internal/github/github.go:166 | different counts never give the same summary line |
| GitHubTemplate.PrepareTemplateData | internal/github/github.go:160-200 | the counts are the map sizes and the summary parses back to them; each list is strictly ascending and holds exactly its map's keys; details, link and vars pass through; HasChanges is the result's own answer |

## Left out

- Process and file-system effects are oracle parameters: running `git`, `os.Stat`, `os.ReadFile`, and creating, writing, closing and removing the temporary files. Their error paths for temp-file creation and writes (internal/git/git.go:56-67, 85-91, 119-125) are not modelled.
- The progress messages on standard error are not modelled.
- YAML decoding is an all-or-nothing oracle. The source appends the documents decoded before a failing one, but then returns no documents at all, so nothing of them is observable.
- The marshal error that the source ignores is not modelled. Neither is the `map[string]interface{}` content type, which is the type parameter `V`.
- `bytes.TrimSpace` also strips Unicode white space in valid UTF-8 text. The model strips only the ASCII set (space, `\t`, `\n`, `\v`, `\f`, `\r`).
- Byte order is modelled as code-point order on characters. It differs from byte order only for invalid UTF-8 or unpaired surrogates.
- `getClient`'s construction of an OAuth client is out of scope; only its empty-token check is kept. Also out of scope: the API calls `AddLabelsToIssue` and `CreateComment`, and their responses. `PostComment` and `RenderTemplate`, which wraps Go's `text/template`, are not part of this model.
- `IsGitRepository`, `BranchExists` and `cmd/yamlcmt/main.go` are command plumbing and not part of this model.
- The diff engine (`internal/diff`) is not part of this model. Its result is three maps plus the caller-supplied value of `HasDifferences`.
- The `tmpOld != nil` and `tmpNew != nil` guards (internal/git/git.go:82, 116) always hold and are not modelled.
