# Titrate: models and proofs of its tools

Titrate ships a modified ns-3.34 and the scripts that drive and evaluate it. This project models eight of
its programs in Dafny 4.11 and proves what they are for, on all inputs, all runs or all interleavings.
`dafny verify dfyconfig.toml` checks everything. Where a promise does not hold of the code as it stands, the
exact condition under which it holds is proved instead, as an if-and-only-if.

| part | files | main results |
|---|---|---|
| Parallel test runner (`ns-3.34/test.py`) | `RunnerProtocol`, `RunnerSafety`, `RunnerProgress`, `RunnerTally`, `RunnerOrder`, `TestRunner` | A transition system over every interleaving and every SIGINT timing: conservation of jobs, no deadlock exactly when there is a worker or nothing to run, bounded runs, schedule-independent counts, what a SIGINT stops and what it does not; and the threaded program, run against it. |
| Configuration path gatherer (`ns-3.34/utils/print-introspected-doxygen.cc`) | `TypeGraph`, `StaticInformation` | The backtracking search records the simple walks, once each, in depth-first preorder; a type gets a path exactly when any walk reaches it. |
| Shell pipelines (`ns-3.34/waf-tools/shellcmd.py`) | `ShellSyntax`, `ShellRoundTrip`, `ShellGrammar`, `ShellPaths`, `ShellEval`, `ShellPosix`, `ShellPipeline` | The parser accepts exactly the words of a grammar and gives what they say; its image is exactly the well-formed pipelines, and it inverts the writer on them; the executor's meaning, its file discipline, and exactly when it starts and reports what a POSIX shell would for the parsed pipeline. |
| Patches (`ns-3.34/utils/check-style.py`) | `PatchText`, `PatchRoundTrip`, `PatchGrammar`, `Whitespace`, `PatchObjects`, `PatchPrograms`, `PatchParser`, `PatchWriter`, `PatchFilter` | Printing and parsing are inverse exactly without look-alike lines; the in-place white space rewrite over shared line objects, what it gives back to each line, exactly when it spares the source side, and exactly when the result can be read back. |
| Timelines and legend (`ns-3.34/utils/grid.py`) | `Timeline`, `Legend` | Binary-search windows against a linear filter, with exact conditions; where every legend cell stands, disjoint from the others and inside the height of the separate layout pass. |
| BurstV3 configuration (`ns-3.34/scratch/star-buffer-mp.cc`) | `Decimal`, `AppConf` | Digit slicing against arithmetic, and exactly when the two decoders agree. |
| Burst grouping (`detailed_ae/multiburst/process_data.py`) | `WebTraces` | Nothing lost or moved, bursts filled in turn; burst sizes as configured exactly when the configuration adds up. |
| Scheduler benchmark (`ns-3.34/utils/bench-simulator.cc`) | `BenchSimulator` | Exactly population plus total callbacks, in time order, each after the delay drawn for it, in every run. |

How the outside world enters: the exit code of a test that is left alone is a field of the test, and once
a SIGINT has arrived a subprocess may return any code; the exit code of a shell process is an arbitrary
function of every process started so far; random delays are an arbitrary sequence;
text extents are arbitrary non-negative numbers; scheduling and SIGINT are nondeterministic. A result of
`None` or `false` stands for an exception or a failed assertion of the program.

The runner's conserved quantities and its termination measure are all sums of one kind: a charge for every
job at the stage it is in. One lemma (`RunnerProtocol.StepSum`) says how any such sum changes in a step.

What the code does and its documentation or names would not suggest:

- A negative `--jobs` starts no worker thread, and the runner then waits for ever for its first result
  (`RunnerProgress.HangsIffNegativeLimit`).
- `&&` and `||` nest to the right, so `a && b || c` never starts `c` when `a` fails
  (`ShellPosix.AgreesWithPosixIff`).
- A `cd` at the end of a piped group hands its pipe to the command after the next `&&`, and moves it to the
  new directory; a shell would do neither (`ShellPosix.UnlikeParts`).
- Behind a pipe an input file is ignored, and after a `cd` a relative redirection is still opened in the
  directory the program was started in (`ShellPosix.InputFileIgnored`, `ShellPosix.RedirectionStaysBehind`).
- A `cd` without a directory, or at the end, is accepted by the parser and raises an exception in the
  executor unless the run ends before it (`ShellEval.ReturnsStatusIff`).
- The sign of a redirection at the end of the words, with no file after it, is accepted and ignored
  (`ShellGrammar.ParsesIff`).
- A removed line that starts with two dashes and a blank is printed as the start of another patch
  (`PatchRoundTrip.RoundTripIff`).
- The white space rewrite can add a blank to a context line, which then no longer matches the file the patch
  is for, and it stops at the first chunk whose destination side is the shorter (`Whitespace.SourceCanChange`).
- The rewrite can also turn an added line into one that is printed as a file name (`PatchFilter.RewriteCanForge`).
- A view whose two ends fall between ranges gets an empty window even when ranges lie inside it
  (`Timeline.WindowInsideIff`); and where two ranges share an end the search may stop at the wrong one of
  them, so that the window misses the other (`Timeline.SharedEndMissed`).
- The newer BurstV3 decoder throws an exception for numbers below one million, which the older one accepts
  (`AppConf.AgreesWithOldIff`).

## Model

| member | source | states |
|---|---|---|
| RunnerProtocol.StepSum | ns-3.34/test.py:984-1052 | How every atomic action of a worker, of the main thread or of the signal handler moves jobs between the queues, the workers' hands and the results. |
| RunnerSafety.ReachableInv | ns-3.34/test.py:1701-1726 | The protocol invariant holds in every state of every interleaving, with SIGINT at any time. |
| RunnerSafety.ExactlyOnePlace | ns-3.34/test.py:984-1052 | Every job dispatched and every stop token put is in exactly one of input queue, a worker's hands, output queue and results. |
| RunnerSafety.ExitedMeansDrained | ns-3.34/test.py:986-992 | Once a worker has exited no job of a test is in the input queue and all have been dispatched. |
| RunnerSafety.FinalState | ns-3.34/test.py:1723-1863 | After the joins both queues are empty, every test was collected exactly once, every worker consumed its own stop token. |
| RunnerProgress.NeverStuckIff | ns-3.34/test.py:1701-1863 | No reachable unfinished state is blocked, exactly when there is a worker or no job. |
| RunnerProgress.HangsIffNegativeLimit | ns-3.34/test.py:1404-1431 | The runner can hang exactly when `--jobs` is negative and there is a test. |
| RunnerProgress.RunsAreBounded | ns-3.34/test.py:984-1052 | Every interleaving has at most five steps per test, four per worker and two for SIGINT, its arrival and its handling. |
| RunnerTally.CountsSum | ns-3.34/test.py:1716-1757 | The passed, failed, valgrind, crashed, skipped and interrupted counts add up to the results collected. |
| RunnerTally.CountsByCode | ns-3.34/test.py:1738-1757 | The counts of a list of results are the numbers of its positions neither given up nor skipped that came with code 0, 1, 2 or any other, of those skipped, and of those given up. |
| RunnerTally.ExpectedByCode | ns-3.34/test.py:1738-1757 | The same of the list of tests, by exit code and skip mark. |
| RunnerTally.ScheduleIndependent | ns-3.34/test.py:1716-1757 | Two complete runs without SIGINT end with the same counts, those of the list of tests. |
| RunnerTally.ReturnsZeroIff | ns-3.34/test.py:1946-1949 | The value returned is 0 exactly when the result of every test was not given up and was skipped or came with code 0, whatever codes the subprocesses returned. |
| RunnerTally.CleanIffTestsGood | ns-3.34/test.py:1716-1757 | Without SIGINT that depends on the list of tests alone: each is skipped or exits with 0. |
| RunnerOrder.QueuesInOrder | ns-3.34/test.py:984-1052 | Along every run jobs leave the input queue in the order in which they entered it, and results are collected in the order in which they were put on the output queue. |
| RunnerOrder.CodesAreReturned | ns-3.34/test.py:984-1052 | Every result neither given up nor skipped carries the code that some subprocess returned in the run. |
| RunnerOrder.GivenUpIffNotUnderWay | ns-3.34/test.py:984-1026 | After a SIGINT has been handled, whatever the schedule, exactly the tests are given up that had at that time not been started, nor been found to be skipped by a worker. |
| RunnerOrder.ThreadsStarted | ns-3.34/test.py:1419-1431 | One thread for each processor, fewer if `--jobs` asks for fewer, none for a negative number. |
| TestRunner.Runner.WorkerTurn | ns-3.34/test.py:984-1052 | The body of a worker thread, one atomic action at a time, takes the steps of the protocol. |
| TestRunner.Runner.CollectOne | ns-3.34/test.py:1723-1757 | The blocking get returns the oldest result, and the counter of its code, or of skipped tests, and no other goes up by one. |
| TestRunner.Runner.RunTests | ns-3.34/test.py:1450-1949 | Dispatch, stop tokens, collection and joins terminate, with any number of actions of the workers and of SIGINT before each of them; each final counter is the number of results with its code, without SIGINT the number of such tests; and the value returned. |
| TypeGraph.GatherEnumeratesSimpleWalks | ns-3.34/utils/print-introspected-doxygen.cc:420-503 | The search records exactly the simple walks that avoid the stack, each once, in preorder, with the type reached and the path taken. |
| TypeGraph.WalkToSimpleWalk | ns-3.34/utils/print-introspected-doxygen.cc:349-361 | Every walk can be cut down to a simple one with the same end, so skipping types on the stack loses no type. |
| TypeGraph.RecordedIffReachableFromRoots | ns-3.34/utils/print-introspected-doxygen.cc:411-503 | After a search from every root a type has a record exactly when some walk reaches it from some root. |
| TypeGraph.RootsInTurn | ns-3.34/utils/print-introspected-doxygen.cc:558-562 | The records of a list of roots are those of its parts, one after the other. |
| TypeGraph.RenderLast | ns-3.34/utils/print-introspected-doxygen.cc:328-338 | The path of one more item is the path so far, a slash and the item. |
| StaticInformation.GraphIsFaithful | ns-3.34/utils/print-introspected-doxygen.cc:429-502 | The graph has the edges of the attribute, child and aggregate loops, in their order, and no others. |
| StaticInformation.EdgesInOrder | ns-3.34/utils/print-introspected-doxygen.cc:429-502 | Every edge of a type comes from one attribute, child or aggregation pair that gives it, and the edges follow the order of those: attributes, then children, then pairs. |
| StaticInformation.EdgeIff | ns-3.34/utils/print-introspected-doxygen.cc:429-502 | An edge leaves a type exactly when it has a pointer to anything but Object or a container that gives it, or a registered child, or an aggregation partner. |
| StaticInformation.PathsInOrder | ns-3.34/utils/print-introspected-doxygen.cc:364-377 | The paths given for a type are those of its records, in the order of recording. |
| StaticInformation.Gatherer.GetCurrentPath | ns-3.34/utils/print-introspected-doxygen.cc:328-338 | The loop renders the current path, a slash before every item. |
| StaticInformation.Gatherer.HasAlreadyBeenProcessed | ns-3.34/utils/print-introspected-doxygen.cc:349-361 | The loop finds a type exactly when it is on the stack. |
| StaticInformation.Gatherer.Get | ns-3.34/utils/print-introspected-doxygen.cc:364-377 | The recorded paths of a type in order; there is one exactly when the type was reached. |
| StaticInformation.Gatherer.Descend | ns-3.34/utils/print-introspected-doxygen.cc:448-453 | Push, search and pop restore both stacks; the stack of types never repeats one and stays as long as the path. |
| StaticInformation.Gatherer.DoGather | ns-3.34/utils/print-introspected-doxygen.cc:420-503 | The three loops terminate on every graph, restore both stacks and append exactly the records of the specification. |
| StaticInformation.Gatherer.GatherAll | ns-3.34/utils/print-introspected-doxygen.cc:558-562 | The caller's loop over the roots; recorded exactly when reachable, cycles included. |
| ShellSyntax.ParsedIsWellFormed | ns-3.34/waf-tools/shellcmd.py:121-201 | Accepted tokens give alternating operands and operators ending in an operand, PIPE exactly before a Pipe, a Chdir last or before And. |
| ShellRoundTrip.ParseUnparse | ns-3.34/waf-tools/shellcmd.py:121-201 | Parsing the canonical words of any well-formed pipeline gives the pipeline back. |
| ShellRoundTrip.RoundTripIff | ns-3.34/waf-tools/shellcmd.py:24-201 | The pipelines that survive the round trip are exactly the well-formed ones, and exactly what the parser can produce. |
| ShellGrammar.ParsesIff | ns-3.34/waf-tools/shellcmd.py:121-201 | The parser accepts exactly the words of operands and operators in turn that end in an operand, and gives what they say, arguments and redirections standing in any order; a sign left open at the end is ignored. |
| ShellGrammar.StreamsOf | ns-3.34/waf-tools/shellcmd.py:157-200 | The input, output and errors of a command are what its redirections say, wherever among its words they stand. |
| ShellGrammar.ArgsConcat | ns-3.34/waf-tools/shellcmd.py:157-200 | The arguments are the words that belong to no redirection, in order. |
| ShellGrammar.AssignmentIff | ns-3.34/waf-tools/shellcmd.py:24 | The words taken for assignments: a name, an equals sign and a value without white space, perhaps before a line end. |
| ShellGrammar.EnvIff | ns-3.34/waf-tools/shellcmd.py:147-160 | The environment of a command holds each variable with the value that the words before the name set last. |
| ShellEval.ReturnsStatusIff | ns-3.34/waf-tools/shellcmd.py:214-346 | A parsed pipeline runs to a status whatever the exit codes, exactly when every cd has a directory and none is last. |
| ShellEval.RunEndsAtFirst | ns-3.34/waf-tools/shellcmd.py:214-346 | A run ends at the first operand from which it cannot go on, with an exception at a cd and with the exit code at a command, all commands before it started. |
| ShellEval.DirectoriesFollow | ns-3.34/waf-tools/shellcmd.py:226-232 | The directory of an operand follows from the changes before it, one after the other. |
| ShellEval.RunStartsPrefix | ns-3.34/waf-tools/shellcmd.py:214-346 | A run starts the commands of a prefix, all of them and in order, each in its accumulated directory, joined by pipes as listed and connected to the files it asks for; its status is the last exit code. |
| ShellPaths.SameFileIff | ns-3.34/waf-tools/shellcmd.py:230-264 | A name stands for the same path in a directory as at the start exactly when it is absolute or the directory is still the first one; hence the executor and a shell open the same file. |
| ShellPaths.JoinedPath | ns-3.34/waf-tools/shellcmd.py:229 | A joined path is the name if that is absolute, and else the parts of both, as absolute as the directory. |
| ShellPosix.AgreesWithPosixIff | ns-3.34/waf-tools/shellcmd.py:214-346 | For all exit codes a run starts the processes, with the directories and streams, and ends with the status of the reading of POSIX sections 2.7, 2.9.2 and 2.9.3, exactly when every cd has a directory and none is last or reads a pipe, no command that reads a pipe has an input file, no relative redirection follows a cd that took effect, none writes to `NUL:`, and the connectors after leading cds are of one kind. |
| ShellPosix.UnlikeParts | ns-3.34/waf-tools/shellcmd.py:223-264 | A cd that reads a pipe, or a command whose streams a shell would connect otherwise, makes the two start different processes under exit codes that always go on. |
| ShellPosix.InputFileIgnored | ns-3.34/waf-tools/shellcmd.py:242-245 | Any piped pair whose second command has an input file: the executor disagrees with a shell. |
| ShellPosix.RedirectionStaysBehind | ns-3.34/waf-tools/shellcmd.py:230-259 | Any command with a relative redirection after a cd that takes effect: the executor disagrees with a shell. |
| ShellPosix.RedirectionOrderLost | ns-3.34/waf-tools/shellcmd.py:163-197 | The parser gives one and the same result for `2>&1` before and after `>`, which a shell tells apart. |
| ShellPipeline.Pipeline.ParseTokens | ns-3.34/waf-tools/shellcmd.py:121-201 | The parsing loop accepts what the token machine accepts and builds the same pipeline. |
| ShellPipeline.Pipeline.ExecPipedCommands | ns-3.34/waf-tools/shellcmd.py:203-212 | The status of a piped group is its last exit code, as in POSIX section 2.9.2, despite the scan. |
| ShellPipeline.Pipeline.OpenFiles | ns-3.34/waf-tools/shellcmd.py:242-274 | Input is opened only outside a pipe; outputs are opened or are the shared null file. |
| ShellPipeline.RunOpensStreams | ns-3.34/waf-tools/shellcmd.py:242-274 | The files opened in a run are those that the streams of its processes are connected to, process by process. |
| ShellPipeline.Pipeline.Run | ns-3.34/waf-tools/shellcmd.py:214-346 | The executor computes the meaning of the run, opens the files of what it starts and no others, and closes each exactly once, never the null file. |
| PatchRoundTrip.RoundTripIff | ns-3.34/utils/check-style.py:215-414 | Parsing the printed form gives the same patches back exactly when no removed or added line looks like a file name. |
| PatchRoundTrip.PrintedCounts | ns-3.34/utils/check-style.py:297-306 | The printed header holds the positions and the numbers of lines that are on the two sides. |
| PatchGrammar.HeaderIff | ns-3.34/utils/check-style.py:370-414 | A line is the header of a chunk exactly when it is four numbers between fixed signs, with any text after them. |
| PatchGrammar.LineMeans | ns-3.34/utils/check-style.py:370-414 | What a line is: a file name, a header, a removed, added or context line, told by its form. |
| PatchGrammar.RefusedIff | ns-3.34/utils/check-style.py:411-412 | The lines that make the parser raise an exception. |
| PatchGrammar.ParsedFromTheEnd | ns-3.34/utils/check-style.py:370-414 | The patches of a list of lines are those of a reading from the last line to the first, and it fails exactly where a line comes before the patch or chunk it belongs to. |
| Whitespace.RewriteKeepsShape | ns-3.34/utils/check-style.py:416-432 | The rewrite keeps names, positions, chunk and line counts, kinds and printed headers. |
| Whitespace.SourceKeptIff | ns-3.34/utils/check-style.py:416-432 | Over a whole list of patches, up to the first failure, every source side is unchanged exactly when in no chunk visited a pair visited matches a context line with a source line one blank longer. |
| Whitespace.AlignedRewrite | ns-3.34/utils/check-style.py:416-432 | With context lines at equal indices in every chunk visited, every source side is unchanged, each visited destination line equals its source line if that is one blank or tab longer and is unchanged otherwise, and later chunks stay as they are. |
| PatchFilter.RewriteGivesBack | ns-3.34/utils/check-style.py:416-432 | Over a list of patches: every destination line compared reads as its source line by then if that is one blank or tab longer, and every other line of the list is unchanged. |
| PatchFilter.VisitedIff | ns-3.34/utils/check-style.py:416-432 | The chunks the rewrite gets to: those with no chunk before them whose destination side is the shorter. |
| Whitespace.SourceCanChange | ns-3.34/utils/check-style.py:424-431 | A concrete family of patches whose source side the rewrite changes. |
| PatchObjects.PatchChunk.SrcLines | ns-3.34/utils/check-style.py:265-274 | The source view holds the same line objects, in order. |
| PatchObjects.PatchChunk.VisitPair | ns-3.34/utils/check-style.py:425-429 | One pair of lines, in place: a shared context line changes on both sides. |
| PatchObjects.PatchChunk.TakeBack | ns-3.34/utils/check-style.py:421-431 | The loop over one chunk rewrites its line objects to the specified texts and fails exactly when the destination side is the shorter. |
| PatchPrograms.TakeBackPatches | ns-3.34/utils/check-style.py:419-432 | The loops over patches and chunks, up to the first failure. |
| PatchParser.ParsePatchset | ns-3.34/utils/check-style.py:370-414 | The parser builds fresh, unshared objects for exactly what the line classifier and the grammar of patches say. |
| PatchParser.RemoveTrailingWhitespaceChanges | ns-3.34/utils/check-style.py:416-432 | Parse and rewrite together. |
| PatchWriter.WritePatch | ns-3.34/utils/check-style.py:359-368 | Writing patch objects gives the printed form of the patch they stand for. |
| PatchFilter.ParsedIsPrintable | ns-3.34/utils/check-style.py:370-414 | No name and no text that the parser produces contains a line end, whatever it reads. |
| PatchFilter.RewriteRoundTripIff | ns-3.34/utils/check-style.py:359-432 | The rewritten patches, printed, read back as themselves exactly when the patches did before and the rewrite compares no added `++` with a source line that reads `++ ` by then. |
| PatchFilter.QuietForges | ns-3.34/utils/check-style.py:425-429 | In a chunk whose context lines the rewrite leaves alone, that is a comparison of the lines as they were parsed. |
| PatchFilter.RewriteCanForge | ns-3.34/utils/check-style.py:425-429 | In any list that reads back, a visited chunk that removes `++ ` and adds `++` ends this. |
| PatchFilter.FilterDifference | ns-3.34/utils/check-style.py:467-470 | Parse, rewrite and write: the file is the printed form of the first rewritten patch. |
| Timeline.WindowInsideIff | ns-3.34/utils/grid.py:153-169 | On sorted ranges, which may touch, the window misses no range that meets the view exactly when an end is found, and each end found at the outermost range that holds it, or no range meets the view. |
| Timeline.WindowExactIff | ns-3.34/utils/grid.py:153-169 | The window is exact exactly when, besides, no range lies beyond an end that is not found. |
| Timeline.AlwaysInsideIff | ns-3.34/utils/grid.py:153-169 | Whichever of two ranges that share an end the searches stop at, the window misses nothing exactly when an end is a hit or no range meets the view, and no end is shared. |
| Timeline.AlwaysExactIff | ns-3.34/utils/grid.py:153-169 | Whichever it is, the window is exact exactly when no end is a hit and no range meets the view, or some end is a hit, none is shared and no range lies beyond an end that is not a hit. |
| Timeline.DisjointWindows | ns-3.34/utils/grid.py:153-169 | The same two equivalences on ranges that do not touch, where no end can be shared. |
| Timeline.SharedEndMissed | ns-3.34/utils/grid.py:105-122 | The search finds the middle one of three adjacent ranges for its own start, and the window misses the first. |
| Timeline.MiddleIsFirst | ns-3.34/utils/grid.py:105-122 | Whatever the order of the ranges, a middle range that holds the key is the one found. |
| Timeline.WindowHolds | ns-3.34/utils/grid.py:136-169 | The indices in the window of two search results: between the two, up to the end of the list on a side where only that search missed, none when both did. |
| Timeline.TimelineDataRange.Search | ns-3.34/utils/grid.py:105-122 | The binary search returns a range that holds the key, and finds one exactly when one exists. |
| Timeline.TimelineDataRange.GetRangesBounds | ns-3.34/utils/grid.py:153-169 | The bounds are those of the window for the two search results, on any list and view; on sorted ranges they satisfy both equivalences. |
| Timeline.TimelineDataRange.GetRanges | ns-3.34/utils/grid.py:136-152 | The slice between those bounds on any list and view, which on sorted ranges is the list of a linear filter exactly under the exact condition. |
| Timeline.TimelineEvent.Search | ns-3.34/utils/grid.py:201-218 | On increasing events the search returns the number of events before the key. |
| Timeline.TimelineEvent.GetEvents | ns-3.34/utils/grid.py:226-235 | The window is the slice between the two search results on any list; on increasing events it is the filtered events plus the next one when there is one and the end is not an event. |
| Legend.CellsDisjoint | ns-3.34/utils/grid.py:566-599 | No two item cells overlap, for every list of sizes and every width. |
| Legend.CellsInside | ns-3.34/utils/grid.py:533-558 | Every cell lies within the height of the layout pass and within the width unless it starts its row. |
| Legend.CellsFollow | ns-3.34/utils/grid.py:566-599 | Each cell follows the one before it on its row exactly when it fits there, and otherwise starts a row below by the greatest item height so far; its size is that of its text and paddings. |
| Legend.LayoutHeightIs | ns-3.34/utils/grid.py:533-558 | The height of the layout pass is the top of the last row and the greatest item height together. |
| Legend.TopLegendRenderer.Layout | ns-3.34/utils/grid.py:533-558 | The layout loop computes the height. |
| Legend.TopLegendRenderer.Draw | ns-3.34/utils/grid.py:566-599 | The boxes and captions are drawn at the positions of the cells and inside them, and the cells are pairwise disjoint and within the height of the layout pass. |
| Decimal.CutDigits | ns-3.34/scratch/star-buffer-mp.cc:703-705 | Cutting k digits off a decimal string divides by a power of ten; the digits cut off are the remainder. |
| AppConf.DecodeIff | ns-3.34/scratch/star-buffer-mp.cc:703-706 | Slicing succeeds exactly from one million on while the packet count fits an int; the fields are quotients and remainders; the flow size is 1500 times the packets up to a multiple of the 32-bit range, and when it is exact. |
| AppConf.OldDecodeIff | ns-3.34/scratch/star-buffer.cc:644-646 | The older decoder gives the burst that the last nine digits of the number spell, three for each field. |
| AppConf.AgreesWithOldIff | ns-3.34/scratch/star-buffer.cc:644-646 | The exact numbers on which the digit decoder and the arithmetic decoder agree. |
| WebTraces.GroupKeepsAll | detailed_ae/multiburst/process_data.py:73-101 | The bursts in order are the flows in order, and their drops add up. |
| WebTraces.FilledInTurn | detailed_ae/multiburst/process_data.py:73-101 | Every burst but the last is configured and holds as many flows as that says, though at least one after the first; the last holds no more: the flows fill the bursts in turn. |
| WebTraces.GroupFailsIff | detailed_ae/multiburst/process_data.py:81-98 | The grouping fails exactly when, after the bursts configured without a gap are full, at least two flows are left, or one if none is configured. |
| WebTraces.SizesAsConfiguredIff | detailed_ae/multiburst/process_data.py:81-98 | Every burst has its configured size exactly when the sizes are positive (the first may be zero) and add up. |
| WebTraces.LoadWebtrace | detailed_ae/multiburst/process_data.py:65-103 | The loop fills three parallel lists of bursts; it fails exactly on a missing flow or burst; joined, the lists are the first transmission, the last reception and the losses in both directions of flow after flow. |
| BenchSimulator.NextExists | ns-3.34/utils/bench-simulator.cc:119 | The event loop always has a least event to take. |
| BenchSimulator.Bench.Cb | ns-3.34/utils/bench-simulator.cc:133-145 | The callback reschedules itself once, after the next delay drawn, and counts, until the total is reached. |
| BenchSimulator.Bench.RunBench | ns-3.34/utils/bench-simulator.cc:97-131 | Every run executes population plus total callbacks in time order and ends with no event and the counter at the total; the events scheduled are the ones executed, and their times follow from the delays drawn in turn. |
| BenchSimulator.Bench.RunAll | ns-3.34/utils/bench-simulator.cc:303-315 | The priming run and all later runs do the same work. |

## Left out

- TestRunner.Runner.RunTests: requires a worker or an empty list of tests; without either the program does not end (`RunnerProgress.NeverStuckIff`).
- ShellPosix.AgreesWithPosixIff: compares readings of the parsed pipeline, with its redirections in the order input, output, errors; where a shell would take the words otherwise (quoting and expansion, operators and names of variables that only one of the two knows, `RedirectionOrderLost`) is not compared.
- ShellPosix.AgreesWithPosixIff: a cd that is run is taken to succeed and to work on the text of the path, as `cd -P` does; `cd -` is not given its shell meaning, nor are CDPATH and the logical treatment of dot-dot.
- ShellPosix.AgreesWithPosixIff: a process reports the same code to both, although a shell gives a number of its own to a process ended by a signal; two paths are taken to differ if some file system tells them apart.
- TypeGraph.GatherEnumeratesSimpleWalks: claims no removal of duplicate paths, because `Uniquefy` takes its container by value and so leaves the output as it is.
- AppConf.DecodeIff: numbers beyond 64 bits in the configuration file, on which stream extraction fails, are not modelled.
- Legend.CellsDisjoint: requires non-negative padding and extents; real numbers stand for floating-point ones, as in `Timeline`.
- Timeline.WindowInsideIff: requires sorted ranges that do not overlap (they may touch) and a view whose start is not after its end; the data file may hold overlapping ranges, which sorting by start does not exclude.
- PatchRoundTrip.RoundTripIff: requires names and texts without line ends, which is all the parser produces (`PatchFilter.ParsedIsPrintable`).
- Jobs move through the runner's queues as values with a number; the objects behind them, their output files, times and printed reports are not modelled, and neither is a missing result file.
- The subprocess of a test and the processes of a pipeline always start and return; redirected files and directories exist. Errors of the operating system are not modelled.
- The verbose mode of the shell executor, whose messages for `&&` and `||` use a variable that is not set at that point; and the abbreviated command text.
- Splitting a command string into words: the shell parser starts from a list of words.
- Regular expressions are direct predicates on strings; a word's white space is that of Python 3's Unicode strings. The path join is that of POSIX systems.
- The type system of ns-3 is a table of attributes, registered names and ancestors; registering aggregation pairs and their missing names is not modelled.
- Running uncrustify, patch and git, and copying files, around the patch programs.
- Parsing the flow monitor's XML: the grouping starts from lists of numbers. Negative flow identifiers, which would count from the end of the list, are not modelled.
- Wrap-around of simulated time and of 32-bit counters in the benchmark; the wall-clock figures it prints.
- The Titrate threshold algorithm, the shared buffer, queue disciplines, TCP and the simulator's network models, of which the programs above show only calls; and the plotting scripts.
