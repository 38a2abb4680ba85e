# gocmt command driver, modelled in Dafny

`gocmt` adds a placeholder doc comment above every exported Go declaration
that lacks one and re-emits the file in `gofmt` form. This project models
the part of the tool that lives in `main.go`:

- the test-file filter (`_test.go` files are skipped before any I/O);
- the two textual clean-ups applied to the formatter's output: the
  multi-line regular expression `\t+$` replaced by nothing (trailing tabs),
  then `\n{3,}` replaced by two line feeds (excess blank lines);
- the decision of `processFile`: report "no changes", write the file back
  through `ioutil.WriteFile` with permission argument 0644 (used only if the
  file has to be created; an existing file keeps its permissions), or print
  the new text to standard output;
- the argument loop of `gocmtRun` and the exit status it returns;
- the two format strings a synthesized comment starts with.

File contents are byte strings (`Bytes.Byte`, a newtype over 0..255); file
names and declaration names are `string`. Each regular-expression
replacement is a left-to-right recursive scan that treats a whole run of
tabs or line feeds at once, which is how a leftmost regular-expression
search proceeds: no match can start inside a run whose first byte failed.
The scans are tied to independent readings: the tab pass is proved equal to
"trim the tab suffix of each line" (`TrailingTabs.StripMatchesLines`), and
the line-feed pass is proved to rewrite each maximal run of line feeds on
its own (`Newlines.CollapseRun`).

Modules: `Bytes` (byte strings and run lengths), `TrailingTabs`,
`Newlines`, `Cleanup` (both passes in the code's order), `Process`
(`processFile`), `Run` (`gocmtRun`), `Comments` (the comment prefixes).

Behaviour worth knowing, as the code has it:

- Only tabs are stripped, never spaces, and a tab before `\r\n` stays,
  because `$` in multi-line mode matches only before `\n` and at the end.
- `\n{3,}` counts line feeds, not blank lines: two or more blank lines in a
  row become one, and a single blank line is kept.
- The order of the passes matters: on `"\n\t\n\n"` stripping first gives
  `"\n\n"`, collapsing first and stripping second leaves `"\n\n\n"`
  (`Cleanup.CleanOrderMatters`).
- The "no changes" test compares the original bytes with the formatter's
  raw output, before the clean-up. A file can therefore be written back
  with the bytes it already had: an original `A\n` whose formatted output
  is `A\t\n` is rewritten as `A\n` (`Process.DecideMayRewriteSameBytes`).

## Model

| member | source | states |
|---|---|---|
| `TrailingTabs.StripTrailingTabs` | main.go:23 | the `\t+$` replacement as a scan; the result is never longer than the input (its meaning is stated by the lemmas below) |
| `TrailingTabs.StripLeavesNoTrailingTab` | main.go:109 | after the pass no tab is followed by a line feed or by the end of the text |
| `TrailingTabs.StripDeletesOnlyTabs` | main.go:109 | only tabs are removed: the bytes other than tabs are the same, in the same order |
| `TrailingTabs.StripKeepsCleanText` | main.go:23 | a text with no trailing tab is returned unchanged, so tabs inside a line are kept |
| `TrailingTabs.StripIdempotent` | main.go:109 | stripping twice gives the same text as stripping once |
| `TrailingTabs.StripKeepsTabsBeforeOther` | main.go:23 | a run of tabs followed by any byte other than a line feed (such as the `\r` of `\r\n`) is kept, whatever follows |
| `TrailingTabs.StripKeepsTabBeforeCarriageReturn` | main.go:23 | a tab before a `\r\n` line ending is kept, whatever follows |
| `TrailingTabs.StripOneLine` | main.go:23 | on one line followed by a line feed or the end, the pass removes exactly that line's final run of tabs |
| `TrailingTabs.StripMatchesLines` | main.go:23 | the scan equals the per-line reference: every line loses its trailing tabs and line feeds stay |
| `Newlines.CollapseNewlines` | main.go:24 | the `\n{3,}` to `\n\n` replacement as a scan; the result is never longer than the input |
| `Newlines.CollapseLeavesNoTriple` | main.go:110 | after the pass no three line feeds follow each other |
| `Newlines.CollapseDeletesOnlyNewlines` | main.go:110 | only line feeds are removed: the other bytes are the same, in the same order |
| `Newlines.CollapseKeepsCleanText` | main.go:24 | a text without three line feeds in a row is returned unchanged (runs of one or two stay) |
| `Newlines.CollapseIdempotent` | main.go:110 | collapsing twice gives the same text as collapsing once |
| `Newlines.CollapseAppend` | main.go:24 | the pass works independently on each side of a boundary that no run of line feeds crosses |
| `Newlines.CollapseRun` | main.go:24 | a maximal run of k line feeds becomes exactly two when k is three or more and stays as it is otherwise, the text around it handled on its own |
| `Cleanup.Clean` | main.go:109-110 | strip, then collapse: the result has neither a trailing tab nor three line feeds in a row |
| `Cleanup.CollapseKeepsNoTrailingTab` | main.go:109-110 | collapsing keeps a text free of trailing tabs, so the second pass does not undo the first |
| `Cleanup.CleanKeepsCleanText` | main.go:109-110 | text that is already clean passes through both passes unchanged |
| `Cleanup.CleanIdempotent` | main.go:109-110 | cleaning twice is cleaning once |
| `Cleanup.CleanOrderMatters` | main.go:109-110 | on `\n\t\n\n` the code's order gives `\n\n` while the other order would give `\n\n\n` |
| `Process.IsTestFile` | main.go:77 | a name is a test file exactly when its last eight characters are `_test.go`, as `strings.HasSuffix` tests |
| `Process.TestFileOfStem` | main.go:77 | every name ending in `_test.go` is a test file |
| `Process.TestFileHasStem` | main.go:77 | every test file is a stem followed by `_test.go` |
| `Process.Decide` | main.go:107-122 | "no changes" exactly when the original equals the raw formatted bytes, in either mode; otherwise write (with permission argument 0644, which takes effect only if the file has to be created) when in place and print otherwise, never both, and the emitted bytes are the cleaned formatted bytes, which are clean |
| `Process.DecideMayRewriteSameBytes` | main.go:108-113 | a file can be written back with the bytes it already had: original `A\n` against formatted `A\t\n`, in place, writes `A\n` |
| `Process.DecideEmitsCleanOutputAsIs` | main.go:108-117 | formatted output that is already clean is written or printed exactly as produced |
| `Process.ProcessFile` | main.go:75-123 | a test file is skipped with no I/O and no error; otherwise an open, read or parse failure is returned as an error with no action, a successful rewrite takes the `Decide` action, and a failed write in place is the only other error |
| `Process.UnchangedIsNoChange` | main.go:107-122 | when formatting reproduces the file, the result is "no changes" and no error, whatever the mode |
| `Run.Classify` | main.go:59-69 | every argument that stats and is not a directory (a regular file, but also a pipe, device or socket) reaches `processFile`, and only its error makes the argument a failing one |
| `Run.TestFileNeverFails` | main.go:65-68 | a test file named on the command line never stops the loop |
| `Run.Examined` | main.go:57-70 | the loop looks at the arguments up to and including the first failing one, or at all of them when none fails |
| `Run.ExitCode` | main.go:45-72 | in directory mode the status is 1 exactly when the walk fails; otherwise 1 exactly when some argument's processing fails |
| `Run.GocmtRun` | main.go:42-73 | the loop stats each argument and calls `processFile` itself; it returns `ExitCode` of the arguments' fates; prints usage exactly when no file argument is given; hands to `processFile`, in order, exactly the non-directories up to the first failure, and reports exactly the stat errors, directories and the failure among them |
| `Run.PositionsMeaning` | main.go:57-70 | a position list holds exactly the positions among the first n arguments whose fate is of the chosen kind, each once, in increasing order (with `Examined` as n, what `GocmtRun` processes and reports) |
| `Comments.Sprintf` | main.go:18-20 | `fmt.Sprintf` with one argument on a format whose verbs are `%s`: a format without `%` is returned followed by `%!(EXTRA string=`, the argument no verb took, and `)` (the verbs are covered by `SprintfOneVerb` and `SprintfMissingArgument`) |
| `Comments.SprintfOneVerb` | main.go:18-20 | filling a format whose only `%` is one `%s` verb copies the text around the verb and puts the argument in its place |
| `Comments.SprintfMissingArgument` | main.go:18-20 | in a format with two `%s` verbs and no other `%`, the first verb takes the argument and the second finds none and prints `%!s(MISSING)`, the text around both copied, as `fmt.Sprintf` does |
| `Comments.CommentPrefix` | main.go:16-20 | the file-scope prefix is `"\n// " + name + " "` and the indented one `"// " + name + " "` |
| `Comments.FileScopeAddsLineFeed` | main.go:17-20 | the file-scope prefix is the indented prefix after one leading line feed |

## Left out

- Declaration scanning and comment insertion: `parseFile`, `walkFunc` and `printError` are not part of this model (they are not in `main.go`). Where the comment prefixes are filled in is therefore not modelled; `Comments.CommentPrefix` assumes one `fmt.Sprintf` with the name, the only verb the format strings hold.
- Parsing and formatting (`go/parser`, `go/format`, `token.FileSet`): the formatter's output is an input (`Process.Env.rendered`); a parse error is its absence. The panic when `format.Node` fails is not modelled.
- File I/O (`os.Open`, `ioutil.ReadAll`, `ioutil.WriteFile`, `os.Stat`): their outcomes are inputs (`Process.Env`, `Run.Stat`); only which action is chosen is modelled. The deferred `Close` that panics on failure is not modelled.
- The error ignored when printing to standard output, and the wording of all messages.
- Flag parsing, the usage text and the directory traversal of `filepath.Walk`: directory mode is reduced to whether the walk returned an error.
- Run.GocmtRun: in directory mode the message printed for a failed walk is not part of `reported`, which lists positional arguments only.
- Comments.Sprintf: handles only the `%s` verb, the only one in the two format strings; other verbs and `%%` are copied as text rather than formatted.
- File names are compared as characters rather than as UTF-8 bytes; for the ASCII suffix `_test.go` both comparisons agree.
