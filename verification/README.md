# GCodeUtil rewriter, modelled in Dafny

GCodeUtil reads a G-code file line by line and writes a copy in which a block
of extra commands follows the first rapid move with X and Y after every tool
change. This project models that single pass and proves what it does.

- **Line classification.** A line is trimmed with `String.Trim()`. It is a
  *tool change* when the trimmed line starts with `M6` or `M98`, ignoring case.
  It is a *sync line* when `IsG0XyLine` holds: the trimmed line starts with
  `G0` (or `G00`) and contains an `X` and a `Y` somewhere, ignoring case.
- **The pass.** The only state is the `insertPending` flag. Every input line is
  written unchanged. A tool change sets the flag. A sync line read while the
  flag is set is followed by the trimmed insert commands, in order, and clears
  the flag.
- **The insert list.** With a second command-line argument, the list is that
  argument split on `,`. Without one, it is the single string `"M8\nG4 P1"`.

Modules, following the program's structure:

- `Text` (`text.dfy`): the .NET string operations the program uses.
  - `Trim`, with the exact set of characters `char.IsWhiteSpace` accepts.
  - `StartsWith` and `IndexOf` under `OrdinalIgnoreCase`.
  - `Split` on one character, with `Join` as its inverse.
- `GCode` (`gcode.dfy`): the two line tests, the three-way `Classify` the loop
  performs, and the insert-list choice.
- `Rewriter` (`rewriter.dfy`): the pass as a fold `Run` of one-line `Step`s.
  - The fold is stated for any classifier, which keeps its proofs separate
    from the string matching.
  - A declarative description sits beside it. A *window* is open after a tool
    change until a sync line follows. `ClosesWindow`, `Insertions` and `Offset`
    are defined from windows alone.
  - Lemmas connect the fold to that description.
- `Program` (`program.dfy`): the read loop written as the source writes it,
  `RewriteLines` and the inner `WriteInserts` loop, proved equal to the fold.
  Also `RewriteFile`, which picks the insert list from the arguments.

What the code does, as opposed to what its help text says:

- The block goes **after** the sync line. The help text says "before".
- Without an argument, the default block is `"M8\nG4 P1"`: one string that
  writes two lines. The help text says the default is `M8`.
- Matching is by prefix, not by token:
  - `M60` and `M6x` count as tool changes;
  - the common zero-padded `M06 T2` is not a tool change, since it does not
    start with `M6`;
  - `G01 X.. Y..` (a feed move) and `G02 X.. Y..` (an arc) count as sync lines;
  - `T2 M6` and `N10 G0 X1 Y1` are not recognised.
  The lemmas `GCode.ToolChangeByPrefix`, `GCode.SyncByPrefix` and
  `GCode.NotSync` record these cases.
- The tool has no dwell queue, coolant suppression, `N`-number renumbering,
  settings file or separate "before" and "after" lists.

## Model

| member | source | states |
|---|---|---|
| Text.Trim | GCodeUtil/Program.cs:35 | The result is the line with a whitespace-only prefix and a whitespace-only suffix removed, and neither end of the result is whitespace; whitespace is exactly what `char.IsWhiteSpace` accepts |
| Text.TrimUnique | GCodeUtil/Program.cs:35 | Those two properties fix the result: any trimmed string that the line strips to is `Trim` of the line |
| Text.TrimWindow | GCodeUtil/Program.cs:35 | `Trim` keeps exactly the span from the first to the last non-whitespace character |
| Text.TrimIdempotent | GCodeUtil/Program.cs:35 | A property of `Trim` itself: trimming an already trimmed string changes nothing |
| Text.StartsWithIgnoreCase | GCodeUtil/Program.cs:37-38 | True exactly when the prefix is no longer than the string and matches it position by position, ignoring case |
| Text.LongerPrefixImpliesShorter | GCodeUtil/Program.cs:63-64 | A string starting with `p + q` starts with `p` |
| Text.IndexOfIgnoreCase | GCodeUtil/Program.cs:67-68 | -1 exactly when no position matches the letter ignoring case; otherwise the first matching position |
| Text.SplitSpec | GCodeUtil/Program.cs:15 | No piece of `Split` contains the separator, and joining the pieces with it gives back the string |
| Text.SplitJoin | GCodeUtil/Program.cs:15 | Splitting undoes joining when no piece contains the separator |
| Text.SplitWithoutSeparator | GCodeUtil/Program.cs:15 | A string without the separator splits into itself alone |
| Text.SplitAppend | GCodeUtil/Program.cs:15 | Appending a separator and a separator-free tail adds exactly that tail as one more piece |
| GCode.IsToolChange | GCodeUtil/Program.cs:37-38 | True exactly when the trimmed line starts with `M` or `m` followed by `6`, or by `98` |
| GCode.IsG0XyLine | GCodeUtil/Program.cs:61-69 | True exactly when the line starts with `G0` (ignoring case) and some character is `X` and some character is `Y` (ignoring case) |
| GCode.G00Subsumed | GCodeUtil/Program.cs:63-64 | The `G00` alternative is implied by the `G0` test, so it never changes the outcome |
| GCode.ToolChangeIsNeverG0Xy | GCodeUtil/Program.cs:37-47 | No trimmed line is both a tool change and a sync line, so testing the tool change first hides nothing |
| GCode.ToolChangeByPrefix | GCodeUtil/Program.cs:37-38 | `M60`, `m6 T2` and `M98 P100` are tool changes; `T2 M6`, `M9` and the zero-padded `M06 T2` are not |
| GCode.SyncByPrefix | GCodeUtil/Program.cs:61-69 | `G01 X1 Y2`, `G02 X1 Y2` and `g0 y5 x3` are sync lines |
| GCode.NotSync | GCodeUtil/Program.cs:61-69 | `G0 X1`, `G1 X1 Y1` and `N10 G0 X1 Y1` are not sync lines |
| GCode.Classify | GCodeUtil/Program.cs:35-47 | The kind is ToolChange exactly when the trimmed line is a tool change, and G0Xy exactly when it is a sync line |
| GCode.InsertCodes | GCodeUtil/Program.cs:15 | Without a second argument the list is the one default string; with one, the list is non-empty, its pieces hold no comma, and joining them with commas gives back the argument |
| GCode.InsertCodesRoundTrip | GCodeUtil/Program.cs:15 | Any non-empty list of comma-free commands passed comma-joined as the second argument comes back unchanged |
| GCode.DefaultInsertIsTrimmed | GCodeUtil/Program.cs:15 | Trimming leaves the default insert string unchanged |
| Rewriter.TrimAll | GCodeUtil/Program.cs:49-52 | The written block has one entry per insert command, each the trimmed command, in order |
| Rewriter.StepSpec | GCodeUtil/Program.cs:35-54 | One line is written first and unchanged; a tool change sets the flag and writes nothing else; the block follows the line exactly when the flag was set and the line is a sync line, which clears the flag; every other line, including a sync line read with the flag clear, keeps the flag |
| Rewriter.WindowStep | GCodeUtil/Program.cs:37-54 | After one more line a window is open exactly when that line is a tool change, or a window was open and the line is not a sync line |
| Rewriter.PendingIffWindowOpen | GCodeUtil/Program.cs:28-54 | After any prefix of the input, `insertPending` is set exactly when some tool change has no sync line after it |
| Rewriter.RunAppend | GCodeUtil/Program.cs:41-54 | Reading line `i` appends the line and then, exactly when it closes a window, the block |
| Rewriter.RunLength | GCodeUtil/Program.cs:28-56 | The output has as many lines as the input plus one block per window closed |
| Rewriter.InsertionsBounded | GCodeUtil/Program.cs:40-53 | Closed windows plus a still-open one never outnumber the tool-change lines |
| Rewriter.RunExtends | GCodeUtil/Program.cs:33-56 | Reading further lines never changes what has already been written |
| Rewriter.WrittenUpToOffset | GCodeUtil/Program.cs:33-56 | What is written before line `i` ends exactly at the declaratively defined offset of line `i` |
| Rewriter.OffsetIncreasing | GCodeUtil/Program.cs:33-56 | Line offsets strictly increase along the input |
| Rewriter.Placement | GCodeUtil/Program.cs:41-54 | Line `i` is written unchanged at its offset; when it closes a window the block follows it immediately; the next line starts right after that |
| Rewriter.OutputEndsAtLastOffset | GCodeUtil/Program.cs:33-56 | Nothing is written after the last line and its block |
| Rewriter.InputIsSubsequence | GCodeUtil/Program.cs:33-45 | The input is a subsequence of the output: every line appears unchanged, in order, at its offset |
| Rewriter.NoToolChangeNoChange | GCodeUtil/Program.cs:28-56 | Without a tool-change line the output is the input and the flag stays clear |
| Rewriter.FirstSyncClosesWindow | GCodeUtil/Program.cs:40-54 | The first sync line after a tool change closes a window, whatever lines, tool changes included, come between |
| Rewriter.ToolChangeBetweenInsertions | GCodeUtil/Program.cs:40-53 | Between any two insertions there is a tool-change line, so repeated tool changes insert once and later sync lines insert nothing |
| Rewriter.ToolChangeOpensWindow | GCodeUtil/Program.cs:37-43 | A tool-change line is never followed by the block, writes only itself, and leaves a window open |
| Rewriter.ClosingShutsWindow | GCodeUtil/Program.cs:47-53 | After a line that closes a window no window is open |
| Rewriter.TwoToolChangesOneInsertion | GCodeUtil/Program.cs:33-56 | Two tool changes, another line and two sync lines give the input with the block after the first sync line only |
| Program.WriteInserts | GCodeUtil/Program.cs:49-52 | The inner loop appends exactly the trimmed insert commands, in order |
| Program.RewriteLines | GCodeUtil/Program.cs:28-56 | The read loop, with its flag and writer, produces exactly the output of the fold |
| Program.RewriteFile | GCodeUtil/Program.cs:15-56 | Without a second argument the block is the default string as given; with one, it is the argument's pieces, trimmed |
| Program.DefaultBlock | GCodeUtil/Program.cs:15 | The default list is written without change |
| Program.NoToolChangeIsIdentity | GCodeUtil/Program.cs:28-56 | A file without tool-change lines is copied unchanged |
| Program.TransformLength | GCodeUtil/Program.cs:28-56 | The output has the input's lines plus one insert list per window closed, and no more windows close than there are tool-change lines |

## Left out

- Argument dispatch and help output (lines 7-11, 71-100): console text only. `Program.RewriteFile` does not model that an empty argument list, `--help` or `-h` prints the help instead of rewriting.
- The file existence check, the output path built with `Path.*`, the reader, the writer and the final console message (lines 17-31, 58): these are I/O. The input file is a sequence of lines already read, and the output is the sequence of strings passed to `WriteLine`.
- Line breaks: how `ReadLine` splits on `\n`, `\r` and `\r\n`, and the newline `WriteLine` appends, belong to the I/O above. An insert command that contains a line feed, such as the default `"M8\nG4 P1"`, is one output entry that becomes two lines in the file.
- String encoding: a `string` here is a sequence of Unicode scalar values rather than UTF-16 code units. The program only ever tests for characters outside the surrogate range, so results do not change.
- Text.Upper: only ASCII letters are folded to upper case, while `OrdinalIgnoreCase` folds all of Unicode. No character other than `m`, `g`, `x` and `y` folds to `M`, `G`, `X` or `Y`, and the digits fold to themselves, so every comparison the program makes comes out the same.
- I/O failures (unreadable input, unwritable output) raise exceptions in the program; the model has no such path.
