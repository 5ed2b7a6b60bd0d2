# Screenshot output paths and error records, in Dafny

This project models the pure core of a Go tool that takes screenshots of URLs
with a headless browser. It covers two parts:

- `makeFilepath` maps a request URL and an output prefix to the path,
  without `.png`, where the screenshot is saved. The path goes through two
  sanitising passes:
  1. An escaped path of exactly `/` becomes `/index`.
  2. Every rune of the path outside `[a-zA-Z0-9_.%-]` becomes `-`.
  3. The path is joined as `prefix/hostname` followed by the result.
  4. Every rune outside `[a-zA-Z0-9_.%/-]` becomes `-`.
  5. Runs of `-` collapse to one, then runs of `/` collapse to one.
  6. One trailing `/` is trimmed.
- `handleError` formats `run error: <err> ------ <url>` and a newline, and
  writes it to standard error. It also appends the same line to
  `errorLog.txt` through `writeDataFile` in append mode. `writeDataFile`
  adds one more newline, so each record in the log is followed by a blank
  line.

Files:

- `text.dfy` (module `Text`): the three rewriting primitives, generic over
  the rune involved. These are a negated-class replacement (Go's
  `regexp.ReplaceAllString` with `[^...]`), run collapsing
  (`ReplaceAllString` with `c+`) and `strings.TrimSuffix` with a one-rune
  suffix. The module also holds their lemmas.
- `filepath.dfy` (module `Filepath`): the path pipeline, its normal form
  and its properties.
- `errorlog.dfy` (module `ErrorLog`): error records over the contents of the
  log file and of standard error, held as strings.
- `errors.dfy` (module `Errors`): Go's `error` value, either `nil` or a
  message.

Strings are sequences of runes (`seq<char>`). Go's regexp engine decodes
UTF-8 before it matches a character class, and each rune outside the class is
replaced by a single `-`.

The URL parser is not part of the model. `MakeFilepath` takes the parse as a
function parameter `parse` from the request URL to either `ParseFailed(err)`
or the parsed URL's parts. Those parts are what `URL.Hostname()` and
`URL.EscapedPath()` return, plus the scheme, user information, port, query
and fragment. Opening the log file is also external. Its outcome is a
parameter `openErr`.

Two consequences of the first pass rewriting every `/` of the URL's path:

- A root URL on `example.com` under `out` yields `out/example.com-index`.
  The root path becomes `/index`, and the first pass rewrites its `/` to `-`.
- The escaped path `/a//b` yields `out/example.com-a-b`. The first pass gives
  `-a--b`, and the `--` collapses to one `-`.

`RootURL`, `ExampleRootURL` and `ExampleDoubleSlash` state these results.

Since the URL's path holds no `/` after the first pass, the `/` collapse and
the trailing-`/` trim of the second pass act only on slashes from the prefix,
the join and the hostname:

- A prefix ending in `/` forms `//` at the join, which collapses to one `/`.
  A root URL on `example.com` under `out/` also yields
  `out/example.com-index` (`NormalizeSlashRun`, `ExampleRootURLSlashPrefix`).
- A URL with an empty hostname and an empty escaped path joins to
  `prefix/`, and the trim leaves just the prefix. `url.Parse` gives such a
  URL for `about:blank` or a `data:` URL. Under `out` its screenshot is
  saved as `out.png`, beside the output directory rather than inside it
  (`NormalizeTrailingSlash`, `EmptyHostAndPath`).

## Model

| member | source | states |
|---|---|---|
| Text.ReplaceOutside | main.go:159-165 | Length is kept. Every rune inside the class stays at its position, and every rune outside it becomes `-`. |
| Text.ReplaceOutsideAll | main.go:164-165 | When the class holds `-`, every rune of the result lies in the class. |
| Text.ReplaceOutsideFixpoint | main.go:164-165 | When the class holds `-`, replacement leaves a string unchanged if and only if every rune of the string is in the class. |
| Text.ReplaceOutsideCount | main.go:164-165 | Replacement neither adds nor removes any rune of the class other than `-`, such as `/`. |
| Text.ReplaceOutsideConcat | main.go:159-165 | Replacement distributes over concatenation. |
| Text.CollapseRuns | main.go:166-171 | The result is never longer than the input and ends with the input's last rune. It never holds two adjacent copies of the collapsed rune. |
| Text.CollapseRunsKeepsNoPair | main.go:166-171 | Collapsing creates no adjacent pair that was absent from the input. So collapsing `/` runs after `-` runs cannot bring back a `--`. |
| Text.CollapseRunsKeepsAll | main.go:166-171 | Collapsing keeps a string inside any class of runes. |
| Text.CollapseRunsErase | main.go:166-171 | Erasing the collapsed rune gives the same string before and after collapsing. Every other rune is kept, in order. |
| Text.CollapseRunsCount | main.go:166-171 | Every other rune keeps its count, and the collapsed rune never gains occurrences. |
| Text.CollapseRunsFixpoint | main.go:166-171 | Collapsing leaves a string unchanged if and only if it has no two adjacent copies of the rune. |
| Text.CollapseRunsIdempotent | main.go:166-171 | Collapsing twice gives the same result as collapsing once. |
| Text.CollapseRunsDropDouble | main.go:167-168 | A run of two copies collapses exactly like one copy, wherever it stands, so a run of any length ends up as a single rune. |
| Text.TrimSuffix | main.go:172 | Exactly one trailing copy of the rune is removed when present. Otherwise the string is unchanged. |
| Text.TrimSuffixNoTrailing | main.go:170-172 | A string with no doubled rune has no trailing copy left after trimming. |
| Text.TrimSuffixKeeps | main.go:172 | Trimming keeps every absent pair and every class, and never adds a rune. |
| Text.CollapseSplit | main.go:166-171 | When the seam between two strings is not inside a run of the rune, collapsing the joined string equals collapsing each part and joining the results. |
| Text.CollapseAround | main.go:166-171 | A middle part that neither starts nor ends with the rune, and that collapsing leaves unchanged, collapses the two sides independently. |
| Text.AllConcat | main.go:162 | A joined string lies in a class if and only if both parts do. |
| Text.NoPairConcat | main.go:162 | A joined string avoids a pair if and only if both parts avoid it and the join does not form it. |
| Filepath.SanitizePath | main.go:153-160 | The sanitised path contains only runes of `[a-zA-Z0-9_.%-]` and holds no `/`. |
| Filepath.Normalize | main.go:164-172 | The second pass outputs a normal string: only runes of `[a-zA-Z0-9_.%/-]`, no `--`, no `//` and no trailing `/`. It never adds a `/`. |
| Filepath.MakeFilepath | main.go:148-174 | A failed parse gives `""` and the parse error. Otherwise there is no error and the path is normal. Its `/` count is at most the prefix's, plus one for the join, plus the hostname's, so the URL's path contributes none. |
| Filepath.NormalizeFixpoint | main.go:164-172 | The second pass leaves a string unchanged if and only if the string is normal. |
| Filepath.NormalizeIdempotent | main.go:164-172 | Running the second pass a second time changes nothing. |
| Filepath.MakeFilepathNormalized | main.go:148-174 | Every path `makeFilepath` returns is a fixed point of the second pass. |
| Filepath.OnlyHostnameAndPathMatter | main.go:149-162 | URLs with the same hostname and escaped path get the same result, whatever their scheme, user information, port, query or fragment. |
| Filepath.PathsCollide | main.go:159-162 | Distinct paths `/a/b` and `/a-b` on one host give the same output path. |
| Filepath.SanitizeRoot | main.go:155-160 | A root path is sanitised to `-index`, not `/index`. |
| Filepath.RootURL | main.go:155-172 | A root URL gives `prefix/hostname-index` whenever that string is already normal. |
| Filepath.RootURLUnderOut | main.go:155-172 | Under prefix `out`, a root URL gives `out/<hostname>-index`. This holds when the hostname has only first-pass runes, no `--` and no trailing `-`. |
| Filepath.ExampleRootURL | main.go:155-172 | A root URL on host `example.com` under `out` gives `out/example.com-index` with no error. |
| Filepath.NormalizeDisallowed | main.go:164-165 | In the second pass, a rune outside `[a-zA-Z0-9_.%/-]` acts exactly like `-`. |
| Filepath.NormalizeDashRun | main.go:167-168 | In the second pass, `--` gives the same result as `-`. |
| Filepath.NormalizeSlashRun | main.go:169-171 | In the second pass, `//` gives the same result as `/` in every context, so a run of `/` of any length ends up as one `/`. |
| Filepath.NormalizeTrailingSlash | main.go:164-172 | A normal string with one `/` appended normalises back to itself: the trailing `/` is trimmed and nothing else changes. |
| Filepath.EmptyHostAndPath | main.go:148-174 | Under a normal prefix, a URL with an empty hostname and an empty escaped path gives the prefix itself and no error. Under `out` that is `out`. |
| Filepath.RootURLUnderOutSlash | main.go:155-172 | Under prefix `out/`, a root URL gives `out/<hostname>-index`, the same path as under `out`. This holds when the hostname has only first-pass runes, no `--` and no trailing `-`. |
| Filepath.ExampleRootURLSlashPrefix | main.go:155-172 | A root URL on host `example.com` under `out/` gives `out/example.com-index` with no error. |
| Filepath.OutJoinNormal | main.go:162 | `out/` joined to a non-empty tail of first-pass runes without `--` is already normal. |
| Filepath.ExampleDoubleSlash | main.go:153-172 | Escaped path `/a//b` on host `example.com` under `out` gives `out/example.com-a-b`. |
| Filepath.ExampleBangRun | main.go:153-172 | Escaped path `/a!!!b` on host `example.com` under `out` gives `out/example.com-a-b`. |
| ErrorLog.DataBlock | main.go:215-218 | The block holds at least one newline per string and ends with a newline when non-empty. |
| ErrorLog.DataBlockSingle | main.go:216-218 | One string is written followed by exactly one newline. |
| ErrorLog.DataBlockAppend | main.go:215-218 | The block of `a + b` is the block of `a` followed by the block of `b`. With `DataBlockSingle`, the block is the strings in order, each followed by its own newline. |
| ErrorLog.WriteDataFile | main.go:205-222 | If the append-mode open fails, its error is returned and the contents are unchanged. Otherwise there is no error and the contents become the old contents followed by every string, each with its own newline. |
| ErrorLog.HandleError | main.go:140-146 | Standard error gets `run error: <err> ------ <url>` and a newline. The log becomes the old log, that line, and one more newline when the open succeeded. It stays unchanged when the open failed. The failure is never reported. |
| ErrorLog.RecordAllKeepsPrefix | main.go:140-146 | Reporting any sequence of failures keeps the earlier contents of both outputs as a prefix. |
| ErrorLog.FormatRecordOneLine | main.go:143 | If the error text and the URL hold no newline, the formatted record holds exactly one. |
| ErrorLog.HandleErrorLineCount | main.go:140-146 | One single-line failure adds exactly one newline to standard error. It adds two to the log when the log could be opened, and none otherwise. |
| ErrorLog.RecordAllLineCount | main.go:140-146 | N single-line failures add exactly N lines to standard error. They add two newlines (the record and a blank line) to the log for each failure whose log could be opened. |

## Left out

- `url.Parse`, `URL.Hostname()` and `URL.EscapedPath()` are Go standard-library code. They are the `parse` parameter, which either fails or yields the parsed parts.
- The capture pipeline (`fullScreenshot`, `chromedp.Run`, the viewport override and the screenshot call) is a foreign browser protocol.
- The worker pool is left out: its goroutines, the unbuffered `jobs` channel, the `sync.WaitGroup` and the 20-second context timeouts. It exists for concurrency. Concurrent reports are modelled as one sequence in some order (`RecordAll`). That gives standard error and the log the same order of reports. In the program, the write to standard error (main.go:141) and the append to the log (main.go:145) are separate steps, so two workers can interleave them differently on the two outputs. The prefix and line-count lemmas hold whatever the order, so only the order within each output is arbitrary.
- Startup is left out: flag parsing, CPU profiling, launching the browser, `createOutputDir`, reading the input, and echoing each URL to standard output. So are the `ioutil.WriteFile` call that stores `path + ".png"` and the `overwrite` flag, which is parsed but never read.
- `saveMeta` is never called. It reads browser-protocol event types and ranges over a Go map, whose order is not fixed.
- `writeDataFile` in non-append mode has no caller. The extra non-append `os.OpenFile` it performs first, whose handle is never closed, writes nothing and does not change the contents.
- ErrorLog.WriteDataFile: assumes every buffered write and the final flush succeed once the file is open. The Go code ignores the errors of `WriteString`, `Flush` and `Close`, so a short write would go unreported.
- ErrorLog.HandleError: writing to standard error is assumed to succeed. `fmt.Fprintf`'s error is ignored in the code.
- Filepath.MakeFilepath: bounds the number of `/` in the result rather than stating where each one sits. The hostname is an arbitrary string here, so its own `/` count enters the bound. `url.Parse` never puts a `/` into a hostname.
- A string holding invalid UTF-8 is not modelled. Go's regexp treats each invalid byte as one rune outside both classes, so it becomes one `-`.
