# csv2map: a Dafny model of the driver

csv2map reads a CSV file (or stdin) and generates a Go source file that
declares a `map[string]string` built from two columns of that file. This
project models the command's core in `csv2map.go`:

- `process`, the driver. It validates the flags and opens the input. It
  then configures the CSV reader. In inspect mode (`-test`) it dumps the
  rows. Otherwise it collects the entries, derives the output path, opens
  the writer and renders. Every failing step returns its error at once.
  The deferred `Close` calls release whatever was opened.
- `dumpFile`, inspect mode's loop. It prints each row's fields separated by
  tabs, stopping at end of input or at the first read error.
- `CSVReader` and `GetSeparator`, which turn the delimiter flag into the
  reader's field separator. The flag is unquoted as a Go rune literal.
- `getOutputPath`, which puts `csv2map_<map>.go` next to the input file.

Modules, one per file:

- `Wrappers` (`wrappers.dfy`): `Option` and `Result`.
- `Text` (`text.dfy`): joining fields on a separator character, and splitting them apart again.
- `Config` (`config.dfy`): the flags as one record, the four validation
  guards, and the text of their errors.
- `Separator` (`separator.dfy`): `strconv.Unquote` of a single-quoted
  literal, `GetSeparator`, and the separator `CSVReader` installs.
- `OutputPath` (`output_path.dfy`): `filepath.Split`, `filepath.Clean`, `filepath.Join` and `getOutputPath`.
- `Inspect` (`inspect.dfy`): `dumpFile`, both as the specification
  function `Dump` and as the method `DumpFile` with its loops, plus
  reading the dump back.
- `Process` (`process.dfy`): `process` as a state machine (`Step`, `Run`,
  `Execute`), and as the early-return method `Process` proved equal to it.

Some of `process`'s steps act outside the shown code: opening files,
reading rows, `processFile` and `render`. Their results are given as a
`World` value, which is an input of the run. A run's observable behaviour
is its `Outcome` together with the sequence of `Call`s it makes. An
`Outcome` is success, an error, or the panic that `GetSeparator` raises.
The calls are the opens, the dump, the collecting, the rendering and the
closes.

`GetSeparator` unquotes the flag as a rune literal and takes the first
rune of the result. `strconv.Unquote` rejects a single-quoted literal that
holds more than one character, and that error is discarded. So a flag that
does not unquote to exactly one rune, such as the empty flag or `ab`,
leaves the rune slice empty and makes `[0]` panic. Such a flag is never cut
down to its first rune. Escapes such as `\t`, `\x2c` or `\u00e9` are
several characters long and still select one rune
(`Separator.AtMostOneRune`, `Separator.UnquotableDelimiters`,
`Separator.TabAndSemicolon`, `Process.BadDelimiterPanics`).

`getOutputPath` passes the map name to `filepath.Join`, which cleans the
whole joined path, the map name included. A map name holding separators
can therefore move the output elsewhere: `/../x` gives `x.go`, and `a//b`
gives `csv2map_a/b.go` (`OutputPath.ClimbingMapName`,
`OutputPath.DoubledSeparatorMapName`).

## Model

| member | source | states |
|---|---|---|
| Config.Validate | csv2map.go:79-94 | The first failing guard is reported: key index, then value index, then map name, then package name. The run is accepted exactly when key and value index are at least 1 and both names are non-empty. The reported error is the first of all violations. |
| Config.ValidateReadsOnlyRequiredFlags | csv2map.go:79-94 | Validation depends only on the two indices and the two names. The input path, the delimiter and the modes play no part. |
| Config.DefaultsRejectKeyIndex | csv2map.go:39-61 | With no flags given, the key index 0 is what is reported, although all four checks fail. |
| Config.MessageIdentifiesError | csv2map.go:80-93 | No two validation errors have the same text. The text names the failed check and, for an index, prints its value. |
| Separator.UnquoteRuneLiteral | csv2map.go:180-182 | Unquoting `'` + flag + `'` yields at most one rune, or fails. |
| Separator.AtMostOneRune | csv2map.go:182-183 | The rune slice that `GetSeparator` indexes holds at most one rune, so `[0]` truncates nothing. |
| Separator.GetSeparator | csv2map.go:179-184 | Where `[0]` does not panic, the separator is the whole unquoted flag. |
| Separator.ReaderSeparator | csv2map.go:171-177 | `CSVReader` gives the reader a separator exactly when the flag unquotes to one rune, and that rune is the separator. The default "," short-cut yields the comma, which agrees with unquoting. |
| Separator.PlainCharacter | csv2map.go:171-184 | A plain character other than a quote, a backslash or a newline is installed as the reader's `Comma`. |
| Separator.TabAndSemicolon | csv2map.go:179-184 | The flag `\t` selects a tab, and `;` a semicolon. |
| Separator.UnquotableDelimiters | csv2map.go:179-184 | The empty flag gives no separator. So does a flag of two or more characters that does not start with a backslash. |
| Separator.EscapedRuneRoundTrip | csv2map.go:171-184 | Every rune is installed as the reader's `Comma` by its escaped spelling. |
| Separator.UnicodeEscapeRoundTrip | csv2map.go:171-184 | Every rune is installed as the reader's `Comma` by its `\U` escape of eight hexadecimal digits. |
| OutputPath.Split | csv2map.go:187 | `filepath.Split`: the directory and file parts concatenate to the path. The file part holds no separator, and the directory part is empty or ends in one. |
| OutputPath.SplitUnique | csv2map.go:187 | That decomposition is the only one: any directory part followed by a separator-free file part splits back into exactly those two. |
| OutputPath.SplitWithoutSeparator | csv2map.go:187 | A path without separators has an empty directory part. |
| OutputPath.ResolveAppend | csv2map.go:188 | `filepath.Clean` processes a path's elements left to right: resolving two runs of elements one after the other is resolving them together. |
| OutputPath.Clean | csv2map.go:188 | `filepath.Clean` never returns the empty path. |
| OutputPath.Join | csv2map.go:188 | `filepath.Join` of a directory and a file name never returns the empty path. |
| OutputPath.JoinPlainElement | csv2map.go:188 | Joining a directory with a name that is one plain element gives the cleaned directory, written with one trailing separator unless it is the current directory, followed by that name. |
| OutputPath.OutputFileNameIsElement | csv2map.go:188 | For a map name without separators, `csv2map_<map>.go` is one plain path element. |
| OutputPath.GetOutputPath | csv2map.go:186-189 | The output path is never empty. For a map name without separators, it is the input's cleaned directory followed by `csv2map_<map>.go`, and just that name when the input path has no directory, stdin included. |
| OutputPath.OutputIsSibling | csv2map.go:186-189 | For a map name without separators, splitting the output path gives the input's cleaned directory and the generated file's name. |
| OutputPath.OutputForStdin | csv2map.go:186-189 | With input from stdin (path ""), the output path is the generated name, cleaned. |
| OutputPath.ClimbingMapName | csv2map.go:186-189 | The map name is cleaned along with the rest: with input from stdin and map name `/../x`, the output path is `x.go`. |
| OutputPath.DoubledSeparatorMapName | csv2map.go:186-189 | With input from stdin and map name `a//b`, the output path is `csv2map_a/b.go`. |
| Text.JoinSnoc | csv2map.go:144-149 | Printing one more field adds a tab and that field after what was printed. |
| Text.SplitConcat | csv2map.go:144-149 | Text joined around one separator splits into the pieces of each side. |
| Text.JoinAvoids | csv2map.go:144-149 | A character in no field, other than the tab, does not occur in the printed fields. |
| Text.SplitJoin | csv2map.go:144-149 | Fields without tabs, printed tab-separated, split back into the same fields. |
| Text.JoinSplit | csv2map.go:144-149 | Splitting a line on tabs and printing the parts gives the line back. |
| Inspect.FormatRow | csv2map.go:144-150 | A printed row always ends in a newline. The empty row prints as a newline alone. |
| Inspect.PrintFields | csv2map.go:144-149 | The field-by-field loop prints the fields joined by single tabs. |
| Inspect.DumpRowStep | csv2map.go:134-151 | A row read in the loop is printed before whatever the later reads produce. |
| Inspect.DumpFile | csv2map.go:133-153 | The read loop returns the error and prints the text that the specification `Dump` gives for the reader's answers. |
| Inspect.DumpRowsThen | csv2map.go:134-151 | A run of rows is printed in full and in order, followed by what the later reads produce. |
| Inspect.StopsAtEof | csv2map.go:136-138 | End of input ends the dump with nil. Every row before it is printed, and nothing after it is read. |
| Inspect.StopsAtError | csv2map.go:140-142 | The first read error is returned. Every row before it is printed, and nothing after it is read. |
| Inspect.FormatRowRoundTrip | csv2map.go:144-150 | The printed line of a row that has fields, none holding a tab or newline, reads back as that row. |
| Inspect.PrintRowsRoundTrip | csv2map.go:133-153 | The dump of such rows reads back as exactly those rows, in order. |
| Inspect.EmptyRowsLookAlike | csv2map.go:144-150 | An empty row and a row of one empty field print the same line. |
| Process.Step | csv2map.go:79-131 | Each transition of the driver moves strictly forward through the phases, so every run ends. |
| Process.Process | csv2map.go:79-131 | The early-return driver, with its deferred closes, has the outcome and makes the calls of the state machine's run `Execute`. |
| Process.ValidationPrecedesInput | csv2map.go:79-94 | An invalid configuration fails with its first failing check before any call, whatever the input and the world. |
| Process.MissingInputFails | csv2map.go:95-99 | After validation, an input file that does not open fails the run. The only call is the attempt to open it, and nothing is closed. |
| Process.ReachReaderOpen | csv2map.go:95-100 | A valid configuration whose input opens gets to the open reader with that one call. |
| Process.ReachParsing | csv2map.go:95-102 | With a delimiter that unquotes to a rune, the run then parses with that rune as the separator. |
| Process.BadDelimiterPanics | csv2map.go:100-102 | A delimiter that does not unquote to one rune panics once the input is open. The deferred close still runs. |
| Process.InspectStopsAfterDump | csv2map.go:102-108 | Inspect mode opens the input, dumps its rows and closes it. It succeeds exactly when the dump ends at end of input, and fails with the read error otherwise. |
| Process.InspectNeverGenerates | csv2map.go:103-108 | No call of an inspect-mode run collects, opens a writer or renders. |
| Process.GenerateSteps | csv2map.go:110-130 | In generate mode each failing step ends the run with that step's error, and no later step happens: collecting, then opening the output file, then rendering. The run succeeds only when all three do. |
| Process.AfterParsing | csv2map.go:110-130 | From parsing on, a generate-mode run makes exactly the calls `GenerateCalls` lists after those made so far, and ends with the error of the first failing step: collecting, opening the output file, rendering. |
| Process.CollectFails | csv2map.go:110-113 | A collecting step that fails ends the run with its error; only the deferred close of the reader follows. |
| Process.CollectSucceeds | csv2map.go:110-113 | A collecting step that succeeds moves on with the collected entries, after that one call. |
| Process.WriterFails | csv2map.go:115-123 | An output file that does not open fails the run; the writer is not closed, the reader is. |
| Process.Renders | csv2map.go:120-130 | An output file that opens is rendered into; the run fails exactly when rendering does, and closes the writer before the reader. |
| Process.CollectThenWriterFails | csv2map.go:114-124 | After collecting, an output file that does not open fails the run; the writer attempt is followed only by closing the reader. |
| Process.CollectThenRenders | csv2map.go:114-130 | After collecting, an output file that opens is rendered into; the run fails exactly when rendering does, and closes the writer, then the reader. |
| Process.NeverWritesStdout | csv2map.go:114-124 | Every writer a run opens is a file, never stdout, because the derived output path is never empty. |
| Process.SuccessIffEveryStepSucceeds | csv2map.go:79-131 | A run succeeds exactly when the flags are valid, the input opens and the delimiter gives a separator. In inspect mode the dump must also end without a read error. In generate mode collecting, opening the output and rendering must all succeed. |
| Process.ResourcesReleased | csv2map.go:95-130 | Unless the input failed to open, a run that made calls ends by closing the reader. A writer is closed exactly when one was opened successfully, and just before the reader. |
| Process.GeneratedResourcesReleased | csv2map.go:110-130 | The same close discipline for a generate-mode run that gets past the separator. |

## Left out

- `init`, `main`, flag parsing, `log` output and `os.Exit`: the flags arrive as a `Config`. What `main` does with the error is not modelled.
- `OpenFileOrStdInReader` and `OpenFileOrStdOutWriter`: the file system is not modelled. Each open becomes a call, and whether it fails is given in the `World`. Stdin and stdout always open. The "Reading from STDIN" log lines are not modelled.
- The `encoding/csv` tokenizer (quoting, line breaks, field counts): the reader's answers are given in the `World` as rows, end of input or an error.
- `processFile` and `render` are not part of this model. Their results are given in the `World`, and `collected` is not tied to the reader's answers.
- Process.Process: the "Invalid output path" branch is left out, because `getOutputPath` always returns a nil error.
- Process.Process: an error passed through from `render`, `processFile`, the reader or the input open is kept as its text. The "Unable to open output file: " prefix is named only in a comment.
- Process.Process: a panic is an `Outcome`, and the exit status it leads to is not modelled.
- OutputPath.Clean: paths are Unix paths with the separator `/`. Windows volume names and the `\` separator are not modelled.
- OutputPath.GetOutputPath: for a map name holding separators, the contract promises only a non-empty path. Two such names are worked through as lemmas (`ClimbingMapName`, `DoubledSeparatorMapName`).
- Separator.ReaderSeparator: `encoding/csv` rejects a `Comma` of 0, `"`, `\r`, `\n` or U+FFFD when the first row is read. The escapes `\x80` to `\xff` unquote to U+FFFD and so meet that error. The tokenizer is not modelled, so that error is not either; the model installs such a `Comma` as `CSVReader` does.
- Separator.UnquoteRuneLiteral: strings are sequences of Unicode scalar values, so a command-line argument that is not valid UTF-8 is not modelled.
- Inspect.DumpFile: printing to stdout is modelled as the string printed. Write errors from `fmt.Print` are ignored, as in the source.
