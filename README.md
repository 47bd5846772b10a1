# Organizer pipeline: analyzer and copier

This project models two stages of the organizer, a pipeline that sorts
scanned magazine pages into a folder tree, and proves properties of that model.

- **Analyzer.** It takes the ordered page sets of the scanned magazines. For
  each set it asks an inference backend to describe the cover page. When the
  answer decodes, it sends one `Magazine` on. It then searches the pages after
  the cover for a usable table of contents. Finally it asks the backend about
  every game-test page that the table refers to.
- **Copier.** It takes the described magazines. For each one it creates
  `<workingDirectory>/test-<Title>/Numéro <NN> | <Month[ - Month…]> <Year>/`
  and copies every page there as `<NNN><.ext>`. It stops at the first failure.

Files:

- `entities.dfy`: the records passed between stages (`MagazinePage`,
  `MagazinePages`, `MagazineMetadata`, `Magazine`, `TableContent`,
  `TableContentEntry`, `Game`). Go's `uint8` and `int32` keep their bounds.
- `format.dfy`: the parts of `fmt`, `strings` and `path/filepath` that the
  copier's names use. These are `%d`, `%0Nd`, `filepath.Ext`,
  `strings.ToLower` and `strings.Join`.
- `filesystem.dfy`: the disk as a set of directories plus a map from file
  paths to bytes. It has the `os`/`io` calls the copier makes, as methods of a
  `FileSystem` class. Which calls fail is fixed in advance by a `Faults` value.
- `inference.dfy`: the inference backend as an `InferenceClient` class. Its
  answers are fixed in advance, per prompt and file, and it logs every
  request it is asked to send. A request whose image file cannot be read to its end (a
  directory, a broken read) fails before the backend is asked.
- `copier.dfy`, `analyzer.dfy`: the two services as classes. Each loop of the
  source is a method with loop invariants. Each method is proved against a
  specification function (`RenameOutcome`, `MonitorOutcome`, `CoverPass`,
  `TocSearch`, `GameQueries`, `TocPass`, `MonitorSpec`).
- `copier_properties.dfy`, `analyzer_properties.dfy`: lemmas about those
  specification functions.

Inputs the model takes as parameters: the disk and its faults, the backend's
answers, and the three JSON decoders. JSON decoding is a partial function
`string -> Option<T>`. Channels are sequences. The analyzer's inbound channel
is a `pending` sequence and its outbound channel is a `magazines` sequence plus
a `closed` flag. The copier's inbound channel is a `magazines` sequence.

Where the intended behaviour and the code disagree, the model follows the code:

- The copier's `monitor` returns at the first magazine whose transfer fails.
  It takes no later magazine (copier_service.go:65-70). The intended
  behaviour is that the copier goes on with the next publication.
- The publication folder is `test-<Title>`, not `<Title>` (copier_service.go:17, 84).
- Suppose the table-of-contents search finds no usable table. The game queries
  still run over the last table that decoded, even if it reports an error
  (analyzer_service.go:232-241). The intended behaviour is that queries
  start only once a usable index is found.
- An empty backend answer on a candidate page ends the whole table-of-contents
  pass. It does not move on to the next page (analyzer_service.go:212-218).
- A page number that matches no page makes `IndexFunc` return -1. The code
  then indexes `Pages[-1]`, which panics (analyzer_service.go:244-248). The
  model makes this an explicit `Panicked` outcome. Nothing recovers the
  panic, so in Go it ends the whole process, the copier included. In the
  model it ends the analyzer's monitor only, and the output channel is never
  closed. The model invents no recovery.

## Model

| member | source | states |
|---|---|---|
| `Copier.MonthNames` | internal/copier/copier_service.go:139-154 | The month names are never more than the inputs, and each one is one of the twelve French calendar names. |
| `Copier.ToNames` | internal/copier/copier_service.go:145-153 | The `append` loop over the month numbers returns exactly `MonthNames(nums)`. |
| `CopierProperties.MonthNamesReadBack` | internal/copier/copier_service.go:147-151 | Reading the names back as calendar positions gives exactly the inputs in 1..12, in input order, duplicates kept. So each kept `n` is named by the n-th month and every other value is dropped. |
| `CopierProperties.MonthNamesAppend` | internal/copier/copier_service.go:147-151 | `toNames` works element by element: the names of `a + b` are the names of `a` followed by those of `b`. |
| `CopierProperties.MonthNamesExamples` | internal/copier/copier_service.go:140-151 | `[6]` gives `["Juin"]`, `[1, 12]` joined with `" - "` gives `"Janvier - Décembre"`, and `[0, 13]` gives `[]`. |
| `CopierProperties.NoValidMonthNoName` | internal/copier/copier_service.go:148 | Month numbers none of which is in 1..12 give no names, and no error. |
| `CopierProperties.IssueFolderNameWithoutMonths` | internal/copier/copier_service.go:94-98 | With no valid month, the issue folder name is `"Numéro " + %02d(Number) + " \|  " + Year`, with two spaces after the bar. |
| `CopierProperties.IssueFolderNameExample` | internal/copier/copier_service.go:94-98 | Tilt number 42 of June 1991 gets the issue folder `Numéro 42 \| Juin 1991`. |
| `CopierProperties.NoMonthExample` | internal/copier/copier_service.go:94-98 | With the month list `[0]`, the issue folder of Tilt 42 (1991) is `Numéro 42 \|  1991`. |
| `CopierProperties.IssueFolderPlacement` | internal/copier/copier_service.go:84-98 | The publication folder is `test-<Title>` directly in the working directory, and the issue folder sits directly inside the publication folder. |
| `CopierProperties.PageFileNameReadsBack` | internal/copier/copier_service.go:111 | A page file name is three characters that read back as the page number, followed by the lower-cased extension of the source file. |
| `CopierProperties.PageFileNameInjective` | internal/copier/copier_service.go:111 | Two pages that get the same destination name have the same number. |
| `CopierProperties.PageFileNameExample` | internal/copier/copier_service.go:111 | Page 1 in file `p1.JPG` becomes `001.jpg`. |
| `CopierProperties.JpgPageNames` | internal/copier/copier_service.go:111 | Pages 1, 2 and 3 in files `p1.jpg`, `p2.jpg` and `p3.jpg` become `001.jpg`, `002.jpg` and `003.jpg`. |
| `CopierProperties.TwoDigitExamples` | internal/copier/copier_service.go:98 | `%02d` keeps 42, pads 7 to `07` and does not truncate 123. |
| `CopierProperties.ThreeDigitExamples` | internal/copier/copier_service.go:111 | `%03d` writes 1 as `001` and -5 as `-05`, so the sign counts in the width. |
| `CopierProperties.YearExample` | internal/copier/copier_service.go:96 | `%d` writes 1991 as `1991`. |
| `CopierProperties.ExtExamples` | internal/copier/copier_service.go:111 | The extension of `p1.JPG` is `.JPG` and that of `p.` is `.`. `scan` and `a.b/c` have none. |
| `CopierProperties.ToLowerExample` | internal/copier/copier_service.go:111 | `.JPG` lower-cases to `.jpg`. |
| `Format.DecimalRoundTrip` | internal/copier/copier_service.go:96 | `%d` of a natural number writes only digits, with no leading zero, and they read back as the number. |
| `Format.ZeroPadShape` | internal/copier/copier_service.go:98 | Zero padding ends with the original digits and has only '0' before them. |
| `Format.FormatIntRoundTrip` | internal/copier/copier_service.go:98 | `%0Nd` loses nothing: its text reads back as the number it was given, for any sign and width. |
| `Format.FormatIntInjective` | internal/copier/copier_service.go:111 | Two numbers with the same `%0Nd` text are equal. |
| `Format.PaddedLength` | internal/copier/copier_service.go:111 | `%0Nd` of a number below 10^N is exactly N characters long. |
| `Format.ExtShape` | internal/copier/copier_service.go:111 | `filepath.Ext` is empty or a suffix starting at a '.', with no further '.' or '/' in it. It is empty exactly when no '.' follows the last '/'. |
| `Format.ToLowerIdempotent` | internal/copier/copier_service.go:111 | Lower-casing leaves no ASCII capital, so lower-casing twice changes nothing. |
| `FileSystem.CopyEffect` | internal/copier/copier_service.go:128-131 | `io.Copy` changes no directory and writes only the destination file. Every other file keeps its bytes. It reports success exactly when the source is a file whose read does not break off. On success the destination holds the source's bytes; after a broken read, a prefix of them; a directory as source writes nothing. |
| `FileSystem.FileSystem.Stat` | internal/copier/copier_service.go:86 | `os.Stat` finds a path exactly when it names a directory or a file. |
| `FileSystem.FileSystem.Mkdir` | internal/copier/copier_service.go:87-91 | `os.Mkdir` succeeds exactly when the parent is a directory, nothing is at the path and the environment allows it. Only then does it add the directory. |
| `FileSystem.FileSystem.Open` | internal/copier/copier_service.go:114-118 | `os.Open` succeeds exactly on an existing path, file or directory, that the environment lets it open. A directory fails only later, when it is read. |
| `FileSystem.FileSystem.Read` | internal/ai/ai_proxy.go:78-80 | Reading an opened path to its end succeeds exactly when it is a file whose read does not break off; a directory cannot be read. |
| `FileSystem.FileSystem.Create` | internal/copier/copier_service.go:121-125 | `os.Create` succeeds exactly when the parent is a directory and the path is not a directory. It truncates: afterwards the file exists and is empty. |
| `FileSystem.FileSystem.Copy` | internal/copier/copier_service.go:128 | The copy changes the disk as `CopyEffect` says and reports its success. |
| `Copier.PublicationFolder` | internal/copier/copier_service.go:84 | The publication folder is `test-<Title>` joined to the working directory. |
| `Copier.IssueFolderName` | internal/copier/copier_service.go:94-98 | The issue folder name is `Numéro <%02d number> \| <month names joined with " - "> <%d year>`. |
| `Copier.PageFileName` | internal/copier/copier_service.go:111 | A page's file name is its number as `%03d` followed by the lower-cased extension of its source file. |
| `Copier.EnsureDir` | internal/copier/copier_service.go:86-92 | `os.Stat` and, only when the path is absent, `os.Mkdir`, whose refusal is the run's error. |
| `Copier.CopyPage` | internal/copier/copier_service.go:114-131 | One page: open the source, create (truncate) the destination, copy; each refusal stops with its own error. |
| `Copier.PageCopies` | internal/copier/copier_service.go:108-112 | The transfers of the page loop: for each page in order, its source path and its destination path. |
| `Copier.CopyAll` | internal/copier/copier_service.go:108-134 | The page loop: the transfers in order, returning at the first failing one. |
| `Copier.RenameAt` | internal/copier/copier_service.go:84-134 | The publication folder, then the issue folder, then the page loop, each run only if the one before succeeded. |
| `Copier.RenameOutcome` | internal/copier/copier_service.go:80-137 | `renameFiles` for one magazine: its folders and transfers fed to `RenameAt`. |
| `Copier.MonitorOutcome` | internal/copier/copier_service.go:61-78 | `monitor`: the magazines in order, stopping at and returning the first error. |
| `Format.FormatInt` | internal/copier/copier_service.go:98 | Go's `%0Nd`: the decimal digits, zero-padded after the sign to width N. |
| `Format.Ext` | internal/copier/copier_service.go:111 | `filepath.Ext`: the suffix from the last '.' of the last path element, or empty. |
| `Format.ToLower` | internal/copier/copier_service.go:111 | `strings.ToLower` on ASCII capitals, every other character kept. |
| `Format.Join` | internal/copier/copier_service.go:95 | `strings.Join`: the strings with the separator between consecutive ones. |
| `Copier.CopierService.constructor` | internal/copier/copier_service.go:27-41 | The service holds the working directory, the file system and the inbound magazines. |
| `Copier.CopierService.RenameFiles` | internal/copier/copier_service.go:80-137 | The new disk and the error are exactly `RenameOutcome`: make each folder if absent, then copy the pages in order, stopping at the first failure. |
| `Copier.CopierService.CopyAllPages` | internal/copier/copier_service.go:108-134 | The page loop leaves the disk and the error that `CopyAll` gives for the pages' transfers in list order. |
| `Copier.CopierService.Monitor` | internal/copier/copier_service.go:61-78 | It takes magazines in order. The disk, the error and the magazines left in the channel are those of `MonitorOutcome`. |
| `CopierProperties.CopyPageFrame` | internal/copier/copier_service.go:114-131 | One page's transfer changes no directory and no file other than its destination. A failure names the transfer's own source or destination. |
| `CopierProperties.CopyAllFrame` | internal/copier/copier_service.go:108-134 | The page loop changes no directory and no file outside its destinations. |
| `CopierProperties.CopyAllSplit` | internal/copier/copier_service.go:108-134 | The loop over `a + b` is the loop over `a` and then, only if that did not fail, the loop over `b`. |
| `CopierProperties.CopyAllStopsAtFailure` | internal/copier/copier_service.go:114-131 | A failing loop fails at some transfer `k`. Every transfer before `k` succeeded, and the result is transfer `k`'s failed attempt. |
| `CopierProperties.CopyAllContents` | internal/copier/copier_service.go:108-134 | Take transfers that write different files and read none of them. If the loop goes through, every destination holds its source's original bytes. |
| `CopierProperties.CopyAllLastWriter` | internal/copier/copier_service.go:108-134 | When no source is also a destination and the loop goes through, a destination holds the original bytes of the source of the last transfer that writes it; earlier writes to it are overwritten. |
| `CopierProperties.CopyAllSucceedsAgain` | internal/copier/copier_service.go:108-134 | A loop that went through goes through again on a disk with the same directories that has at least the source files the first disk had. No condition on how the transfers overlap. |
| `CopierProperties.PageCopiesAt` | internal/copier/copier_service.go:108-112 | Transfer `i` reads `<Folder>/<File>` of page `i` and writes `<issue>/<NNN><.ext>` of page `i`. |
| `CopierProperties.PageCopiesSeparate` | internal/copier/copier_service.go:108-112 | Suppose the page numbers are distinct and the source folder is not the issue folder. Then no page overwrites another and no page reads a file that another writes. |
| `CopierProperties.RenameFilesCopiesEveryPage` | internal/copier/copier_service.go:84-134 | A successful run adds exactly the folders that were missing and changes no file other than the destinations. When the transfers are separate (distinct destinations, no source that is also a destination), every destination holds its source's bytes. |
| `CopierProperties.RenameFilesMkdirFailure` | internal/copier/copier_service.go:86-106 | A run that cannot make a folder names that folder. The folder was absent, and the run wrote no file. |
| `CopierProperties.RenameFilesStopsAtFirstFailingPage` | internal/copier/copier_service.go:114-131 | A run that fails on a page fails at some page `k` and names its paths. When the transfers are separate (distinct destinations, no source that is also a destination), every earlier page's destination holds its source's bytes and no later page's destination was touched. |
| `CopierProperties.RenameFilesTwice` | internal/copier/copier_service.go:86-128 | Running again leaves the directory set unchanged. After a successful run, a second run also succeeds, with no condition. When the transfers are separate (distinct destinations, no source that is also a destination), it also leaves the same disk, overwriting each page with the same bytes. |
| `CopierProperties.RenameOutcomeCopiesEveryPage` | internal/copier/copier_service.go:80-137 | Take a magazine with distinct page numbers, whose page folder is not its issue folder, that went through. Each page's source bytes are at `<issue folder>/<NNN><.ext>`. |
| `CopierProperties.CopyAllSucceeds` | internal/copier/copier_service.go:108-134 | When nothing fails, the page loop goes through if every source is a file, every destination's folder exists and no destination is a directory, even when one transfer overwrites another's source or destination. |
| `CopierProperties.RenameAtSucceeds` | internal/copier/copier_service.go:84-134 | When nothing fails, `renameFiles` goes through if the working directory exists, no file stands where a folder should be, every source is a file and no directory stands where a page file should be. |
| `CopierProperties.RenameOutcomeSucceeds` | internal/copier/copier_service.go:80-137 | The same condition in the copier's terms: pages, working directory and metadata. Pages sharing a number still go through; what their shared page file holds is stated by `CopyAllLastWriter`. |
| `CopierProperties.CopyPageFromDirectory` | internal/copier/copier_service.go:114-131 | A page whose file is a directory opens and its destination is created, then the copy fails: the run names both paths and leaves an empty destination file. |
| `CopierProperties.TiltScenario` | internal/copier/copier_service.go:80-137 | Tilt 42 of June 1991 with pages `p1.jpg`..`p3.jpg` lands its bytes at `out/test-Tilt/Numéro 42 \| Juin 1991/001.jpg`..`003.jpg`. |
| `CopierProperties.MonitorStopsAtFirstFailure` | internal/copier/copier_service.go:63-77 | `monitor` takes magazines in order. It stops at the first failing one and returns that magazine's error; every earlier magazine succeeded and none later is taken. If none fails, it takes them all and returns no error. |
| `Inference.InferenceClient.SendRequestWithImage` | internal/ai/ai_proxy.go:71-80 | When the image could not be read into the encoder the call fails; otherwise the answer is the backend's answer for the prompt and file. Either way the request is appended to the log. |
| `Analyzer.FirstIndex` | internal/analyzer/analyzer_service.go:244-246 | `slices.IndexFunc` gives the position of the first page with the number, or -1 exactly when no page has it. |
| `Analyzer.AnalyzerService.constructor` | internal/analyzer/analyzer_service.go:33-50 | The service starts with an empty, open output channel. |
| `Analyzer.AnalyzerService.AnalyzePages` | internal/analyzer/analyzer_service.go:84-164 | It sends on exactly what `CoverPass` emits and sends exactly `CoverPass`'s requests. The input channel and the closed flag do not change. |
| `Analyzer.AnalyzerService.AnalyzeTableOfContent` | internal/analyzer/analyzer_service.go:166-304 | Its requests, its panic and the games it keeps are those of `TocPass`. |
| `Analyzer.AnalyzerService.SearchTableOfContent` | internal/analyzer/analyzer_service.go:176-237 | The loop over `Pages[1:]` sends `TocSearch`'s requests. It returns whether the pass was cut short, and the table variable as `TocSearch` leaves it. |
| `Analyzer.AnalyzerService.ReadTableOfContent` | internal/analyzer/analyzer_service.go:180-236 | One candidate page ends the pass, is skipped, or is accepted, as `TocPage` says. It sends a request exactly when the page can be opened. |
| `Analyzer.AnalyzerService.QueryGames` | internal/analyzer/analyzer_service.go:239-303 | The entry loop sends `GameQueries`'s requests over the flattened page numbers, and returns its panic and games. |
| `Analyzer.AnalyzerService.QueryNumbers` | internal/analyzer/analyzer_service.go:242-302 | The inner loop over one entry's numbers agrees with `GameQueries` on those numbers followed by the later entries' numbers. |
| `Analyzer.AnalyzerService.ReadGame` | internal/analyzer/analyzer_service.go:248-301 | One referenced page ends the pass, is dropped or is kept, as `GamePage` says. |
| `Analyzer.AnalyzerService.Monitor` | internal/analyzer/analyzer_service.go:70-82 | Its output, requests and remaining input are those of `MonitorSpec`. The output is closed exactly when no pass panicked. |
| `Analyzer.Reply` | internal/ai/ai_proxy.go:71-80 | The result of `SendRequestWithImage` on an opened path: an error when the image cannot be read to its end, the backend's answer otherwise. |
| `Analyzer.CoverPass` | internal/analyzer/analyzer_service.go:84-164 | `analyzePages`: the cover request sent, if any, and the magazine sent on, if any, with each early return of the code. |
| `Analyzer.TocPage` | internal/analyzer/analyzer_service.go:180-236 | One candidate page of the search: a return out of the pass, a `continue` (with the table decoded, if any) or a `break` with a usable table. |
| `Analyzer.TocSearch` | internal/analyzer/analyzer_service.go:176-237 | The loop over `Pages[1:]`: its requests, whether it returned, and the table variable it leaves. |
| `Analyzer.Flatten` | internal/analyzer/analyzer_service.go:241-242 | The page numbers the nested loops visit: entry by entry, each entry's in order. |
| `Analyzer.GamePage` | internal/analyzer/analyzer_service.go:248-301 | One referenced page: a return out of the pass, a `continue` on a decode error, or the decoded game. |
| `Analyzer.GameQueries` | internal/analyzer/analyzer_service.go:241-302 | The game loops over the page numbers: requests, the panic of an unmatched number, a return, and the games kept. |
| `Analyzer.TocPass` | internal/analyzer/analyzer_service.go:166-303 | `analyzeTableOfContent`: the search, then, unless it returned, the game queries over the table it left. |
| `Analyzer.MonitorSpec` | internal/analyzer/analyzer_service.go:70-82 | `monitor`: both passes for each page set in order, until the input ends or a pass panics. |
| `AnalyzerProperties.EmptyPageSet` | internal/analyzer/analyzer_service.go:86-92 | A page set without pages makes no request, emits nothing and cannot panic, in either pass (also lines 168-174). |
| `AnalyzerProperties.CoverPassQueriesTheCover` | internal/analyzer/analyzer_service.go:94-123 | The cover pass sends at most one request: with the cover prompt, about `Pages[0]`. It sends it exactly when the cover can be opened. |
| `AnalyzerProperties.CoverPassFailures` | internal/analyzer/analyzer_service.go:103-152 | Nothing is emitted when the cover cannot be opened, the request fails, the answer is `""` or `"Unknown"`, or the answer does not decode. |
| `AnalyzerProperties.CoverFromDirectory` | internal/analyzer/analyzer_service.go:103-131 | A cover that is a directory passes `os.Stat` and `os.Open`; `SendRequestWithImage` is called, reading the image fails before any request leaves, and nothing is emitted. |
| `AnalyzerProperties.PageFromDirectory` | internal/analyzer/analyzer_service.go:180-208 | For a candidate or referenced page that is a directory, `SendRequestWithImage` is called, reading the image fails before any request leaves, and the pass ends there. |
| `AnalyzerProperties.CoverPassEmits` | internal/analyzer/analyzer_service.go:133-163 | A magazine is emitted exactly when the cover is readable and its answer is a decodable description other than a sentinel. It carries the decoded metadata and the page set's own pages and folder. At most one is emitted. |
| `AnalyzerProperties.TocPageCalls` | internal/analyzer/analyzer_service.go:180-236 | A candidate page that ends the pass does so before its request (it cannot be opened) or right after it. An accepted table is usable, and a skipped table that decoded is not usable. |
| `AnalyzerProperties.TocSearchInOrder` | internal/analyzer/analyzer_service.go:178-237 | The search asks about `Pages[1:]` strictly in order up to a page `k`. Every earlier page was skipped. Page `k` either ends the pass or is the first usable table, and no later page is asked about. If every page is skipped, every page was asked about. |
| `AnalyzerProperties.ExhaustedSearchTable` | internal/analyzer/analyzer_service.go:176-237 | When every page is skipped, the table passed on is the last one that decoded, or the zero value if none decoded. |
| `AnalyzerProperties.SearchWithoutEntries` | internal/analyzer/analyzer_service.go:178-237 | When every candidate is skipped with no entries, the search asks about every candidate and leaves a table without entries. |
| `AnalyzerProperties.NoSummaryFound` | internal/analyzer/analyzer_service.go:166-303 | If no page after the cover yields entries (for instance every answer is `{"error":"no summary found","entries":[]}`), the pass asks about each page once and sends no game request. It keeps no game and does not panic. |
| `AnalyzerProperties.SearchPrompts` | internal/analyzer/analyzer_service.go:178-202 | Every request of the search uses the table-of-contents prompt and is about one of the candidate pages. |
| `AnalyzerProperties.GameQueriesInOrder` | internal/analyzer/analyzer_service.go:241-302 | Game queries go number by number, in order, up to a number `k`. Every earlier number resolved to its first matching page and was answered; a decode failure skips only that number. At `k`, either no page matches, which panics, or the query ends the pass. If nothing stops them, every number is asked about and every decoded game is kept. |
| `AnalyzerProperties.GamePrompts` | internal/analyzer/analyzer_service.go:270 | Every request of the game queries uses the game prompt. |
| `AnalyzerProperties.TocPassPrompts` | internal/analyzer/analyzer_service.go:166-303 | The table-of-contents requests come first and the game requests after them. A search that ends the pass sends no game request and cannot panic. |
| `AnalyzerProperties.TocPassFiles` | internal/analyzer/analyzer_service.go:166-303 | The search only ever asks about pages after the cover, and the whole pass only about pages of its own set. |
| `AnalyzerProperties.GameQueryFiles` | internal/analyzer/analyzer_service.go:241-270 | The game queries only ask about pages of the set whose number is one of the numbers queried. |
| `AnalyzerProperties.MonitorOutput` | internal/analyzer/analyzer_service.go:70-82 | The monitor handles page sets in order until the input runs out or a pass panics. Its output is exactly what the cover passes of the handled sets emit; table-of-contents results do not change it. Its requests are both passes' requests, set by set. |
| `AnalyzerProperties.EmittedAppend` | internal/analyzer/analyzer_service.go:72-75 | What earlier page sets emit comes before what later ones emit. |
| `AnalyzerProperties.EmittedFromInput` | internal/analyzer/analyzer_service.go:72-75 | At most one magazine is emitted per page set, and each one has the pages and folder of an input page set. |

## Left out

- The scanner stage is not part of this model. Neither is the inference
  proxy (`internal/ai/ai_proxy.go`) beyond the read of the image file, nor
  the standalone program `main.go`, nor the wiring in `cmd/organizer/main.go`.
- The process-wide crash: an unrecovered panic in the analyzer's goroutine
  ends the program, and with it the copier, possibly in the middle of a page.
  The model's `Panicked` outcome stops only the analyzer; the copier stage
  still transfers every magazine it was given.
- Concurrency: the goroutines and `sync.WaitGroup` handling of both `Run`
  methods, and the cancellation context. Channels are sequences. The copier's
  `Run` ignores the error that `monitor` returns.
- Blocking: the analyzer's output channel is unbuffered
  (analyzer_service.go:44). Once the copier's `monitor` has returned at its
  first failure nobody receives, and the analyzer blocks for ever on its next
  send. With channels as sequences the model sends on regardless and cannot
  show the deadlock.
- The network call and the image upload: the backend is an oracle giving an
  error or a text for each (prompt, file). Building the base64 data URI is not
  modelled. The prompt texts are the three `Prompt` values.
- JSON decoding: each decoder is an abstract partial function. Go's
  `json.Unmarshal` merges into the reused `tableContent` variable (fields
  missing from the JSON keep their old values). The model instead replaces the
  table with each successful decode.
- Partial decodes: on a type error `json.Unmarshal` still fills in the fields
  it decoded before the error. For the metadata and the game the code discards
  that value, so nothing changes. For the reused `tableContent` the partly
  filled value survives into the next candidate page and the game loops; the
  model keeps the previous table on any decode error.
- Audit events, log lines, timestamps and `fmt` printing. This includes the
  `%s` verb used for a number in the copier's error message.
- `defer Close` inside the loops, and other file-handle lifetimes.
- Why a file system call fails: a `Faults` value fixed in advance says which
  calls fail. `os.Stat` is reduced to "the path exists". A `Stat` failing
  for another reason than absence is not modelled. This matters when a file
  stands at the publication folder: Go's `Stat` of the issue folder then fails
  with ENOTDIR, which `os.IsNotExist` does not match, so Go skips `Mkdir` and
  fails at the first `Create` (or succeeds when there are no pages), whereas
  the model reports `MkdirFailed` for the issue folder.
- Path semantics: `filepath.Join` appends one segment, with no cleaning.
  Titles containing `/` are out of scope.
- `Format.ToLowerIdempotent`: `strings.ToLower` is modelled on ASCII letters
  only. Go's Unicode case mapping is not modelled.
- `MagazineMetadata.number` and `year` are unbounded integers. The Go
  declarations of `MagazineMetadata`, `MagazinePage`, `MagazinePages` and
  `Magazine` are not part of this model. Their fields follow what the two
  services use. A page's number is a `uint8` because it is compared with a
  `uint8` page number.
- `gamesTested` is returned by `AnalyzeTableOfContent` so that properties
  can be stated about it. The source discards it.
- An `io.Copy` that fails leaves a prefix of the source's bytes at the
  destination. The fault says where the read breaks off.
