# A verified model of the command line, the help formatter and the monitors of the statistics backend

The Fast DDS Statistics Backend watches DDS domains.  Its example program reads
its command line with a one-header option parser that also prints the help
texts, and its core keeps one monitor per domain: a bundle of DDS objects,
user listeners and discovery counters.  This project models both in Dafny and
proves what they promise.

**The command line** (`examples/cpp/HelloWorldExample/optionparser.h`).
`Grammar` says what an argument vector means, as a recursive function over
strings.  `ElementMeaning` and `VectorMeaning` say the same a second time, by
rules about single letters and elements, and prove that it is the same.  `Workhorse`
is the parser's loop over the vector, with its in-place shifting of arguments;
`Workhorse.Run` proves that it refines the grammar.
`OptionList`, `OptionTables` and `Actions` are the circular lists with tagged
links and the two arrays through which they run, and `Parsing` is the two entry
points.  `Reordering` and `CheckFunctions` are about what GNU mode does to the
vector: it is a stable partition, and the documented claim that a later POSIX
parse means the same is false in general.  `x -n` is reordered to `-n x`, which
changes the meaning if the check function of `-n` takes an argument when there
is one but does not insist on it.  The exact condition is proved, for a vector
and for a table: no option element that left its successor alone takes the one
that reordering puts behind it.  All check functions of the library meet it.

**The help formatter** (the same header).  `Utf8Width` measures text in screen
columns, `GreedyWrap` says what greedy wrapping is, and `LineWrapper` is the
wrapper with its ring buffer.  `HelpGrid` says how a help text is a grid of
parts, and `LineParts` is the iterator that walks it with one pointer and a
handful of counters.  `UsageLayout` is the loop that determines column widths:
it ends with the largest threshold at which the columns fit.  `UsageScreen`
says what is put on the screen, as a function of the layout and the rows:
table after table and row after row, the texts of each of the three ways of
printing in their order, none lost or repeated.  `UsageColumns` proves that
every text begins at the tab stop of its column, `UsageEdge` that every line
does and when nothing goes past the right edge, `UsageLines` where lines are
broken, and `UsagePrinter` is the printing loop.  `UsageOddities` are two help texts that come out badly.

**The monitors** (`src/cpp/StatisticsBackend.cpp`,
`src/cpp/StatisticsBackendData.cpp`, `src/cpp/Monitor.hpp`).  `DdsStore` is the
set of DDS objects that exist: creation may fail, deletion is refused while
something depends on the object, a listener may be freed only when nobody calls
it.  `MonitorEntities`, `MonitorRelease` and `MonitorSpies` say when the objects
of a monitor are in order and why the steps keep it so; `Monitors` is the class
with its creation and scope guards, its release and its spies; `MonitorOrder`
and `Backend` put several monitors side by side, and account for every object
that exists: it existed beforehand, one monitor points at it, or it is a spy
listener that has leaked.  A handle is never used again and refused deletions
are counted, so that "the same objects exist, and no deletion was refused"
means that everything created in between was deleted exactly once; as long as
no reader could not be created, that is what the destructor leaves.
`DiscoveryStatus` and the first half of `Backend` are the discovery counters
and who is told of them; a history of all events, kind by kind and domain by
domain, says what each counter should be.

What the code does and its documentation does not say:

- A spy reader that cannot be created leaves its listener behind, and the next
  attempt overwrites the pointer to it, so that the listener is never freed: a
  call leaks a listener if and only if one is entered for the topic and no
  reader.  A topic that could not be created stays recorded as a null pointer, and can
  never be spied on as long as the monitor lives.
- The documentation of `total_count_change` allows for negative values; the
  counter never takes one.
- An abbreviation is tested by the longest common prefix, where the
  documentation speaks of some common prefix.  The two differ exactly if the
  strings still agree on a `=` behind enough characters: `a=bc` for the long
  name `a=b` is documented to match, and does not.
- With GNU mode for the statistics and POSIX mode for the parser, an illegal
  argument behind a non-option goes unnoticed.
- The printer loses track of the cursor when a line break takes it back to
  column 0.  That can cost a needless line break, and nothing else.
- Texts that are too wide are not measured, but wrapped all the same.  So the
  last column can be left with a single screen column, while its wrapper uses at
  least two, and then goes past the right edge.

Definitions of the form `forall k {:trigger Key(k)} :: Key(k) ==> ...` are kept
folded in proofs that do not mention the key.

## Model

| member | source | states |
|---|---|---|
| `Descriptors.Streq` | examples/cpp/HelloWorldExample/optionparser.h:1445-1457 | The loop decides whether the first string is a prefix of the second that ends there or at `=` |
| `Descriptors.StreqAbbr` | examples/cpp/HelloWorldExample/optionparser.h:1483-1496 | The loop decides the abbreviation test, stated over the longest common prefix of the two strings |
| `Descriptors.MatchingByNamePart` | examples/cpp/HelloWorldExample/optionparser.h:1432-1481 | For long names without `=`, both tests depend on the part of the argument in front of `=` alone: it is the name, or a prefix of it of at least `min` characters |
| `Descriptors.DocumentedExactly` | examples/cpp/HelloWorldExample/optionparser.h:1459-1496 | The documented test, by some common prefix, accepts what the code accepts, and besides exactly the strings that agree on a `=` behind at least `min` characters and in front of where they begin to differ |
| `Descriptors.DocumentedButRefused` | examples/cpp/HelloWorldExample/optionparser.h:1459-1496 | The long name `a=b` and the string `a=bc`: accepted by the documented test, refused by the code |
| `Descriptors.DocumentedWithoutEquals` | examples/cpp/HelloWorldExample/optionparser.h:1459-1496 | For long names without `=`, the code's abbreviation test is the documented one |
| `Descriptors.Instr` | examples/cpp/HelloWorldExample/optionparser.h:1504-1513 | The loop decides membership of a character in a string, and accepts NUL |
| `Descriptors.LongLookupMeaning` | examples/cpp/HelloWorldExample/optionparser.h:1811-1838 | An entry is selected if and only if it is the first exact match, or there is no exact match and it is the only entry that the abbreviation matches |
| `Descriptors.FindLong` | examples/cpp/HelloWorldExample/optionparser.h:1811-1838 | The three scans over the table compute that lookup |
| `Grammar.TakesOnlyWhatIsThere` | examples/cpp/HelloWorldExample/optionparser.h:1799-1919 | An option takes a detached argument only if there is a next element |
| `ElementMeaning.ReadMeaning` | examples/cpp/HelloWorldExample/optionparser.h:1786-1936 | What an element means, without the grammar: behind `--` a long option, behind `-` one if that is allowed and its name finds an entry, else a group of letters |
| `ElementMeaning.GroupMeaning` | examples/cpp/HelloWorldExample/optionparser.h:1866-1919 | The options of a group are, in order and none left out, the letters that are reached and select an entry: the first with that letter, or else the first dummy; the argument is what follows the letter, or the next element behind the last letter, and is kept if it is accepted; behind an accepted argument or a refusal no letter is reached |
| `ElementMeaning.LongMeaning` | examples/cpp/HelloWorldExample/optionparser.h:1807-1862 | The entry is the first exact match, or else the only abbreviation, or else the first dummy; the argument on offer is what follows the first `=`, or the next element |
| `VectorMeaning.ParseMeaning` | examples/cpp/HelloWorldExample/optionparser.h:1748-1945 | What a vector means, by one rule about each element and its neighbours: options, arguments, non-options, terminator and what is not read are told apart by it, the options are those of the elements in order, and the vector is these parts in order, for legal and illegal vectors in both modes |
| `VectorMeaning.RolesAreUnique` | examples/cpp/HelloWorldExample/optionparser.h:1748-1945 | There is one way only to follow these rules |
| `Reordering.PosixKeepsTheVector` | examples/cpp/HelloWorldExample/optionparser.h:1748-1784 | In POSIX mode the vector is unchanged, whether the parse succeeds or not |
| `Reordering.StablePartition` | examples/cpp/HelloWorldExample/optionparser.h:1748-1784 | A successful GNU run is a stable partition: options, their detached arguments and the terminating `--` first, non-options and everything behind that `--` after them, each block in original order |
| `Reordering.ParsePermutes` | examples/cpp/HelloWorldExample/optionparser.h:1520-1530 | On every exit, error exits included, the vector is a permutation of the input |
| `Reordering.ReorderedOnceForAll` | examples/cpp/HelloWorldExample/optionparser.h:1225-1230 | For a table that is blind to reordering, parsing the reordered vector again, in either mode, finds the same options with the same arguments and the same non-options, and changes the vector no more |
| `Reordering.GnuThenPosix` | examples/cpp/HelloWorldExample/optionparser.h:1225-1230 | For a reader, the documented equivalence of a GNU run and a later POSIX run holds for all vectors if and only if no element that left its successor alone changes its mind over one that reordering can bring |
| `Reordering.GnuThenPosixHere` | examples/cpp/HelloWorldExample/optionparser.h:1225-1230 | For one vector, it holds if and only if no option element that left its successor alone takes, or refuses, the element that the reordered vector has behind it |
| `Reordering.GnuThenPosixAnyway` | examples/cpp/HelloWorldExample/optionparser.h:1225-1230 | Also for vectors that the GNU run refuses, what a POSIX parse makes of what it left: if non-options are in front of the refused element, the parse ends at them and is legal |
| `CheckFunctions.LibraryChecksArePredictable` | examples/cpp/HelloWorldExample/optionparser.h:916-941 | The library's check functions, and those of the example program, either ignore a detached argument or insist on one |
| `CheckFunctions.ReaderIsCoherent` | examples/cpp/HelloWorldExample/optionparser.h:1786-1936 | What one element reads as in front of two different successors differs only by the argument of its last option |
| `CheckFunctions.GnuReorderingPreservesMeaning` | examples/cpp/HelloWorldExample/optionparser.h:1225-1230 | For every table of such check functions, a second parse of the reordered vector means the same |
| `CheckFunctions.GnuThenPosixExactly` | examples/cpp/HelloWorldExample/optionparser.h:1225-1230 | For every table, the documented claim holds for all vectors if and only if the table is blind to reordering |
| `CheckFunctions.GnuThenPosixForVector` | examples/cpp/HelloWorldExample/optionparser.h:1225-1230 | For every table, vector and second mode, the documented claim holds if and only if the vector is undisturbed, which a caller can compute |
| `CheckFunctions.PosixParseAfterGnu` | examples/cpp/HelloWorldExample/optionparser.h:1225-1230 | For every table of predictable check functions and every vector, legal or not, the POSIX parse finds no option that the GNU run did not, and reports an illegal argument if and only if the GNU run did and met no non-option before |
| `CheckFunctions.ReorderingCanChangeMeaning` | examples/cpp/HelloWorldExample/optionparser.h:1225-1230 | A concrete table and the vector `x -n` for which the documented claim fails |
| `CheckFunctions.RefusalCanGoUnnoticed` | examples/cpp/HelloWorldExample/optionparser.h:1225-1230 | A concrete table and the vector `x -b`, which the GNU run refuses and the POSIX parse accepts |
| `Workhorse.Shift` | examples/cpp/HelloWorldExample/optionparser.h:1520-1530 | The exchanges rotate the slots in front of an element by one, and permute the vector |
| `Workhorse.ReadElement` | examples/cpp/HelloWorldExample/optionparser.h:1786-1936 | The inner loop over one element hands the action exactly the options that the grammar reads in it, shifting the element and its argument to the front |
| `Workhorse.Walk` | examples/cpp/HelloWorldExample/optionparser.h:1748-1945 | The outer loop, which ends because the arguments that remain decrease, sees the options of the grammar and leaves the vector in the grammar's order |
| `Workhorse.CountRest` | examples/cpp/HelloWorldExample/optionparser.h:1947-1961 | Counts what is left of a null-terminated vector |
| `Workhorse.Run` | examples/cpp/HelloWorldExample/optionparser.h:1732-1964 | The parser refines the grammar: same options in the same order, same verdict, the vector in the grammar's order, the non-options reported where they are; for counted, null-terminated and null vectors |
| `Workhorse.ReportedAreTheNonOptions` | examples/cpp/HelloWorldExample/optionparser.h:1947-1961 | For null-terminated vectors and exact counts, what is reported is all the non-options and nothing else |
| `OptionList.Option.First` | examples/cpp/HelloWorldExample/optionparser.h:608-616 | From any node of a ring, the first node |
| `OptionList.Option.Last` | examples/cpp/HelloWorldExample/optionparser.h:634-637 | From any node of a ring, the last node |
| `OptionList.Option.Prev` | examples/cpp/HelloWorldExample/optionparser.h:647-650 | The node in front, or null at the first one |
| `OptionList.Option.PrevWrap` | examples/cpp/HelloWorldExample/optionparser.h:660-663 | The node in front, the last one in front of the first |
| `OptionList.Option.Next` | examples/cpp/HelloWorldExample/optionparser.h:673-676 | The node behind, or null at the last one |
| `OptionList.Option.NextWrap` | examples/cpp/HelloWorldExample/optionparser.h:686-689 | The node behind, the first one behind the last |
| `OptionList.Option.Count` | examples/cpp/HelloWorldExample/optionparser.h:559-569 | The size of the ring, from any node of it; 0 for an unused option |
| `OptionList.Option.Append` | examples/cpp/HelloWorldExample/optionparser.h:701-710 | Called on any node, makes the new node the last of the ring |
| `OptionTables.Store` | examples/cpp/HelloWorldExample/optionparser.h:1650-1673 | One more option: the buffer holds all options in order, and the ring of each index exactly its own, in order |
| `OptionTables.ListOfItsIndex` | examples/cpp/HelloWorldExample/optionparser.h:1650-1673 | Place by place: the ring that starts in a slot holds, in the order of storing, exactly the options whose table entry has the index of the slot, each node with its option, the later ones in the buffer; without such an option the slot is unused |
| `OptionTables.ListsAreDisjoint` | examples/cpp/HelloWorldExample/optionparser.h:1650-1673 | Rings of different indices share no node |
| `OptionTables.Occurrences` | examples/cpp/HelloWorldExample/optionparser.h:559-569 | The count asked of a slot is the number of stored options of its index |
| `Actions.CountOptionsAction.Perform` | examples/cpp/HelloWorldExample/optionparser.h:1595-1604 | Counts up to the greatest signed int, and then refuses |
| `Actions.StoreOptionAction.constructor` | examples/cpp/HelloWorldExample/optionparser.h:1629-1648 | The scan finds the number of options that earlier parses have stored |
| `Actions.StoreOptionAction.Perform` | examples/cpp/HelloWorldExample/optionparser.h:1650-1673 | Stores the option as long as the buffer has room, discards it otherwise, refuses at the greatest signed int |
| `Parsing.ParseIgnoresMessages` | examples/cpp/HelloWorldExample/optionparser.h:1693-1730 | Check functions that only print on demand give measuring and parsing the same options |
| `Parsing.Add` | examples/cpp/HelloWorldExample/optionparser.h:1708-1730 | The statistics cover every index of the table and every option of the vector, plus sentinels |
| `Parsing.ParseInto` | examples/cpp/HelloWorldExample/optionparser.h:1693-1706 | After a parse the arrays hold the earlier options and the new ones that fit, the error flag and the non-options are the grammar's |
| `Parsing.FittingIsLongest` | examples/cpp/HelloWorldExample/optionparser.h:1650-1673 | The options kept are as many as there is room for, and no fewer |
| `Parsing.MeasureThenParse` | examples/cpp/HelloWorldExample/main.cpp:97-100 | Sizing by the statistics is enough: exactly the options counted are stored, and both last slots stay unused, if and only if there are fewer options than the greatest signed int |
| `Parsing.ReorderThenParse` | examples/cpp/HelloWorldExample/optionparser.h:1225-1230 | The documented use, GNU mode to measure and POSIX mode to parse: the arrays are large enough, the vector is left as the GNU run left it, legal vectors give the options of the GNU run, and an illegal argument is reported exactly if it is not behind a non-option |
| `Parsing.SentinelSlots` | examples/cpp/HelloWorldExample/optionparser.h:1639-1673 | Slots behind the stored options, and those of indices that did not occur, are unused |
| `Utf8Width.DecodeChar` | examples/cpp/HelloWorldExample/optionparser.h:2257-2277 | The byte-by-byte decoder finds the end of a character and whether it is wide |
| `Utf8Width.DecodesUtf8` | examples/cpp/HelloWorldExample/optionparser.h:2257-2277 | A code point that is encoded as section 3 of RFC 3629 says is read back: the decoder finds its end, and takes two columns for it exactly if it is wide |
| `Utf8Width.ColumnsAtMostBytes` | examples/cpp/HelloWorldExample/optionparser.h:2183-2195 | Whole characters never take more columns than bytes |
| `GreedyWrap.FitEndIsLongest` | examples/cpp/HelloWorldExample/optionparser.h:2690-2722 | The longest run of whole characters that fits, and nothing longer does |
| `GreedyWrap.LinesAreGreedy` | examples/cpp/HelloWorldExample/optionparser.h:2673-2760 | Every line fits the width, starts and ends between characters, and is cut at the last space that fits or else at the largest boundary that fits |
| `GreedyWrap.LinesAreTheText` | examples/cpp/HelloWorldExample/optionparser.h:2673-2760 | The lines in order, with exactly one space at each cut made at a space, are the text |
| `GreedyWrap.PiecesFit` | examples/cpp/HelloWorldExample/optionparser.h:2673-2760 | Each queued piece takes at most the width in screen columns |
| `GreedyWrap.WrapIsGreedy` | examples/cpp/HelloWorldExample/optionparser.h:2673-2760 | The pieces queued are the texts of consecutive greedy lines from the beginning of the text to its end, and nothing else is |
| `LineWrapper.LineWrapper.BufNext` | examples/cpp/HelloWorldExample/optionparser.h:2567-2590 | The ring buffer gives the pieces back in the order in which they were stored |
| `LineWrapper.LineWrapper.Output` | examples/cpp/HelloWorldExample/optionparser.h:2596-2606 | A full buffer of 15 pieces writes its oldest one to make room |
| `LineWrapper.LineWrapper.WriteOneLine` | examples/cpp/HelloWorldExample/optionparser.h:2612-2630 | Writes the oldest piece, on a new indented line if it is not the first |
| `LineWrapper.LineWrapper.Flush` | examples/cpp/HelloWorldExample/optionparser.h:2638-2653 | Writes everything queued, each piece on an indented line of its own, with a line break behind |
| `LineWrapper.LineWrapper.CutLine` | examples/cpp/HelloWorldExample/optionparser.h:2673-2760 | The search for a cut, byte test, column test and search for a space, finds the greedy line |
| `LineWrapper.LineWrapper.Process` | examples/cpp/HelloWorldExample/optionparser.h:2673-2761 | Queues exactly the greedy wrap of the text, consuming at least a byte per piece, and writes the oldest pieces: those for which there is no room, and at least one |
| `LineWrapper.DueIsLeast` | examples/cpp/HelloWorldExample/optionparser.h:2655-2761 | What is written at once is the least that leaves at most 15 pieces queued, and at least one piece if there is one |
| `LineWrapper.NothingIsLost` | examples/cpp/HelloWorldExample/optionparser.h:2655-2761 | What is written and queued after that is what was written and queued before, and then the pieces, in order |
| `LineWrapper.Indent` | examples/cpp/HelloWorldExample/optionparser.h:2142-2162 | Reaches the wanted column, on a new line if it lies behind; the cursor position returned is the wanted one if and only if it did not go back to column 0 |
| `LineWrapper.WriteColumn` | examples/cpp/HelloWorldExample/optionparser.h:2638-2782 | Over any sequence of texts and a final flush, the payload written is the pieces queued, in order, none lost or repeated |
| `HelpGrid.SplitJoins` | examples/cpp/HelloWorldExample/optionparser.h:2199-2231 | Joining its pieces gives a help text back, and none of them holds a separator |
| `HelpGrid.JoinSplits` | examples/cpp/HelloWorldExample/optionparser.h:2199-2231 | Splitting joined pieces gives the pieces back, if none of them holds a separator |
| `HelpGrid.RowsAreTheLines` | examples/cpp/HelloWorldExample/optionparser.h:2338-2368 | The rows of a table, joined by line feeds, are the help texts of its descriptors, joined by line feeds |
| `HelpGrid.GridLine` | examples/cpp/HelloWorldExample/optionparser.h:2199-2231 | The grid is line after line, each with a part for every column |
| `HelpGrid.GridHasEveryPart` | examples/cpp/HelloWorldExample/optionparser.h:2199-2231 | Every line of every cell is in the grid |
| `HelpGrid.TablesCover` | examples/cpp/HelloWorldExample/optionparser.h:2301-2321 | Every descriptor with a help text belongs to a table |
| `LineParts.MeasurePart` | examples/cpp/HelloWorldExample/optionparser.h:2251-2278 | The bytes and the screen columns of the part at the pointer |
| `LineParts.LinePartIterator.Seek` | examples/cpp/HelloWorldExample/optionparser.h:2406-2461 | The inner loop reaches the next part of the grid or the end of the row, and terminates because it passes the end of the row at most once |
| `LineParts.LinePartIterator.Next` | examples/cpp/HelloWorldExample/optionparser.h:2392-2477 | Yields the parts of the row's grid one by one, with their column and line, inserting empty parts, and then nothing more |
| `LineParts.LinePartIterator.NextRow` | examples/cpp/HelloWorldExample/optionparser.h:2338-2368 | Moves through the rows of a table, over help texts, up to the table break |
| `LineParts.LinePartIterator.NextTable` | examples/cpp/HelloWorldExample/optionparser.h:2301-2331 | Moves to the next table behind the current one |
| `LineParts.LinePartIterator.BeginAgain` | examples/cpp/HelloWorldExample/optionparser.h:2373-2383 | Back at the start of the row, the whole grid is still to come |
| `UsageLayout.ColumnWidthIsLeast` | examples/cpp/HelloWorldExample/optionparser.h:2837-2851 | A column is as wide as its widest part below the threshold, and narrower than the threshold |
| `UsageLayout.LastColumnIsGreatest` | examples/cpp/HelloWorldExample/optionparser.h:2836-2840 | The last column is the greatest that is laid out and has a part |
| `UsageLayout.InterjectionTest` | examples/cpp/HelloWorldExample/optionparser.h:2842-2848 | The test on column, line and next character recognises exactly the rows without separators |
| `UsageLayout.MeasureTable` | examples/cpp/HelloWorldExample/optionparser.h:2826-2853 | The loops over rows and parts compute the widths of all columns and the last column |
| `UsageLayout.NothingBetween` | examples/cpp/HelloWorldExample/optionparser.h:2866-2874 | If the columns do not fit, neither do they for any threshold above the widest of them |
| `UsageLayout.FitColumns` | examples/cpp/HelloWorldExample/optionparser.h:2823-2874 | The loop terminates, because the threshold decreases, with the largest threshold at which the columns to the left of the last one fit |
| `UsageLayout.LayOut` | examples/cpp/HelloWorldExample/optionparser.h:2796-2908 | Tab stops are the sums of the widths, nondecreasing and within the line up to the last column, room for the last column is not negative, and it goes on its own line exactly if it lacks both room and fit |
| `UsageLayout.PercentIsRounded` | examples/cpp/HelloWorldExample/optionparser.h:2806-2807 | A percentage of the width is rounded to the nearest column |
| `UsageLayout.LastColumnIsWithinTheLine` | examples/cpp/HelloWorldExample/optionparser.h:2885-2908 | With percentages up to 100 the last column stays within the line, and a single column is never put on its own line |
| `UsageScreen.RowIsPrinted` | examples/cpp/HelloWorldExample/optionparser.h:2917-2979 | The texts printed of a row are, as pieces, those of the parts written directly, of the last column and of interjections, each of the three in the order of the grid, whatever the wrappers hold back in between |
| `UsageScreen.EveryPartIsPrinted` | examples/cpp/HelloWorldExample/optionparser.h:2917-2961 | Together they are, as a multiset, the pieces of all parts in the columns laid out: each is printed once, and none of an excess column |
| `UsageScreen.ShuffledKeepsAll` | examples/cpp/HelloWorldExample/optionparser.h:2917-2979 | Such an order loses and repeats no piece |
| `UsageScreen.TableIsPrinted` | examples/cpp/HelloWorldExample/optionparser.h:2917-2979 | The texts of a table are those of its rows, row after row |
| `UsageScreen.OneWrapperOnly` | examples/cpp/HelloWorldExample/optionparser.h:2948-2979 | Of one row, never more than one of the two wrappers has something to print, so that it does not matter which of them is flushed first |
| `UsageColumns.BelievedIsReal` | examples/cpp/HelloWorldExample/optionparser.h:2142-2162 | Believed and real cursor position stay the same if and only if no line break leads to a tab stop at column 0 |
| `UsageColumns.EveryTextAtItsTabStop` | examples/cpp/HelloWorldExample/optionparser.h:2917-2961 | In a table that is laid out, every text of the first pass begins at the tab stop of its column, also when the believed cursor position is wrong |
| `UsageEdge.EveryLineInItsPlace` | examples/cpp/HelloWorldExample/optionparser.h:2917-2979 | In a table that is laid out with a margin, everything written begins where it belongs, in both passes, in the further lines of wrapped texts and in what is flushed: texts left of the last column at their tab stops, all lines of the last column at its margin, those of interjections in column 0 |
| `UsageEdge.NothingPastTheEdge` | examples/cpp/HelloWorldExample/optionparser.h:2638-2782 | If at least two screen columns are left for the last column, nothing in the table ends past the right edge but a text left of the last column that is too wide to be measured |
| `UsageOddities.StopsOfOverlong` | examples/cpp/HelloWorldExample/optionparser.h:2823-2882 | A row of three cells of 90, 10 and 1 letters: every layout of it in a line of 80 gives the first column no width, and the last one the tab stop 10 |
| `UsageOddities.NeedlessBreak` | examples/cpp/HelloWorldExample/optionparser.h:2917-2961 | When that row is printed in such a layout, the cursor is at the tab stop of the last column, and the line is broken nevertheless |
| `UsageOddities.PastTheEdge` | examples/cpp/HelloWorldExample/optionparser.h:2885-2950 | Two rows whose every layout in a line of 80 leaves the last column a width of 1: a piece of it, which is narrow enough to be measured, ends in column 81 |
| `UsagePrinter.Printer.PrintRow` | examples/cpp/HelloWorldExample/optionparser.h:2917-2979 | A row adds to the screen what `UsageScreen.RowShown` says, and nothing stays queued; what that is, is said by `UsageScreen`, `UsageEdge` and `UsageLines` |
| `UsageLines.BreaksBeforePart` | examples/cpp/HelloWorldExample/optionparser.h:2921-2936 | In front of a part, the line is broken once if it begins another line of the grid, or if the texts in front of it reach beyond its tab stop, and in no other case; a row begins on the line where the one before it has left the cursor |
| `UsageLines.BreaksWithinPart` | examples/cpp/HelloWorldExample/optionparser.h:2938-2961 | A text left of the last column breaks no line; wrapped texts break it between the pieces that are written |
| `UsageLines.BreaksInSecondPass` | examples/cpp/HelloWorldExample/optionparser.h:2966-2979 | In the second pass each text of the last column begins a line of its own |
| `UsageLines.BreaksBehindRow` | examples/cpp/HelloWorldExample/optionparser.h:2962-2979 | At the end of a row the line is broken once, and once more for each piece that is still queued |
| `UsageLines.TextsHoldNoBreak` | examples/cpp/HelloWorldExample/optionparser.h:2199-2231 | No text that is printed of a row holds a line feed |
| `UsagePrinter.PrintTable` | examples/cpp/HelloWorldExample/optionparser.h:2816-2980 | Lays a table out, and shows its rows one after the other in that format |
| `UsagePrinter.TextsAtTabStops` | examples/cpp/HelloWorldExample/optionparser.h:2876-2961 | In the format that its layout gives it, every text of a table begins at its tab stop |
| `UsagePrinter.LinesStayWithin` | examples/cpp/HelloWorldExample/optionparser.h:2876-2979 | In the format that its layout gives it, with the one best threshold, every line of a table begins where it belongs, and if two screen columns are left for the last one, nothing measured goes past the edge |
| `UsagePrinter.GridLinesStayTogether` | examples/cpp/HelloWorldExample/optionparser.h:2876-2961 | In the format that its layout gives it, a part begins on the screen line of the first part of its grid line, as long as the texts between them are narrow enough to be measured |
| `UsagePrinter.PrintUsage` | examples/cpp/HelloWorldExample/optionparser.h:2789-2981 | All tables are shown in order, each in the format of its own layout |
| `UsagePrinter.UsageIsPrinted` | examples/cpp/HelloWorldExample/optionparser.h:2789-2981 | The texts of the whole usage are those of all tables, table after table and row after row |
| `DiscoveryStatus.PresentIsLargestSuffix` | include/fastdds_statistics_backend/listener/DomainListener.hpp:69-84 | The clamped counter is the largest balance of discoveries over undiscoveries in any suffix of the events, the empty one included |
| `DiscoveryStatus.PresentIsPlainDifference` | include/fastdds_statistics_backend/listener/DomainListener.hpp:69-84 | It is the plain difference if and only if no prefix has more undiscoveries than discoveries |
| `DiscoveryStatus.Status.OnInstanceDiscovered` | include/fastdds_statistics_backend/listener/DomainListener.hpp:69-75 | One more of everything |
| `DiscoveryStatus.Status.OnInstanceUndiscovered` | include/fastdds_statistics_backend/listener/DomainListener.hpp:77-84 | One less that is there, if there is one |
| `DiscoveryStatus.Status.OnStatusRead` | include/fastdds_statistics_backend/listener/DomainListener.hpp:86-91 | The changes count from 0 again, and what has been told is kept |
| `Backend.StatisticsBackendData.Conservation` | src/cpp/StatisticsBackendData.cpp:315-490 | Over any run, for each kind of entity in each domain and each physical kind: the total is the number of discoveries of that kind, the current count is what is there of it, and the changes that listeners have been told of it and those still pending add up to both |
| `Backend.StatisticsBackendData.OnDomainEntityDiscovery` | src/cpp/StatisticsBackendData.cpp:329-422 | The event goes down in the history of its kind and domain, the status of that kind is updated, whoever listens, and told to the domain's listener or else to the physical one; the statuses of all other kinds, of all other domains and the physical ones are untouched |
| `Backend.StatisticsBackendData.OnPhysicalEntityDiscovery` | src/cpp/StatisticsBackendData.cpp:424-490 | The same for physical entities, which are never updated |
| `Backend.StatisticsBackendData.OnDataAvailable` | src/cpp/StatisticsBackendData.cpp:131-151 | Data is announced to the domain's listener or else to the physical one, unless its kind is masked |
| `Backend.StatisticsBackendData.SetDomainListener` | src/cpp/StatisticsBackend.cpp:389-405 | Replaces listener and masks of one monitor, if there is one: from then on that listener is called for exactly the callbacks and kinds of data in the masks, and the physical listener, if it wants them, for the others |
| `DdsStore.FindOrCreateTopic` | src/cpp/StatisticsBackend.cpp:96-132 | Finds the participant's topic of that name, or creates it; an existing topic is an error exactly if it has another type, a topic that cannot be created is a null pointer |
| `MonitorEntities.PushedBelow` | src/cpp/StatisticsBackend.cpp:294-361 | A topic or reader created after the later guard is still undone in the right place |
| `Monitors.Monitor.Undo` | src/cpp/StatisticsBackend.cpp:227-327 | A scope guard deletes what it guards, which exists and is not in use when its turn comes |
| `Monitors.Monitor.Unwind` | src/cpp/detail/ScopeExit.hpp:59-70 | Running all guards from the last to the first leads back to the objects that existed before, without a refused deletion |
| `Monitors.Monitor.Build` | src/cpp/StatisticsBackend.cpp:134-371 | If creation fails at any step, every object created is deleted once, dependents first; on success nothing is deleted, the monitor is complete, and every topic has the type that belongs to its name |
| `Monitors.Monitor.Release` | src/cpp/StatisticsBackendData.cpp:514-556 | Taking a monitor down deletes exactly its objects, each once, and none that is still in use |
| `Monitors.Monitor.StartTopicSpy` | src/cpp/StatisticsBackendData.cpp:668-718 | Which answer is given when, and what is entered under the topic, newly created with the type given; no other topic changes, no object is deleted, a failed reader leaves the listener, the next attempt abandons exactly that listener, and a topic that could not be created can never be spied on |
| `Monitors.Monitor.StopTopicSpy` | src/cpp/StatisticsBackendData.cpp:734-753 | Deletes exactly the reader, the topic and the listener of the spied topic |
| `Backend.StatisticsBackendData.SpiesAreNested` | src/cpp/StatisticsBackendData.cpp:616-754 | In every state spying readers are among spy listeners, those among spy topics; as long as no reader of the monitor failed the three are equal |
| `Backend.StatisticsBackendData.NoListenerIsLost` | src/cpp/StatisticsBackendData.cpp:616-754 | In every state a spy listener created for a monitor that exists is entered under its topic in exactly one monitor, or has leaked; as long as no attempt was answered by a reader error, none has leaked |
| `Backend.StatisticsBackendData.LeaksAreUnused` | src/cpp/StatisticsBackendData.cpp:696-718 | Whatever has leaked is a listener that nothing calls |
| `Backend.StatisticsBackendData.CreateAndRegisterMonitor` | src/cpp/StatisticsBackend.cpp:188-373 | A failed creation leaves monitors and objects as they were, and only the database's entity; a successful one adds a complete monitor under its own id, with topics of the right types and a listener that is called as its masks say, and touches no other |
| `Backend.StatisticsBackendData.StopMonitor` | src/cpp/StatisticsBackendData.cpp:501-565 | Removes the monitor and exactly its objects; an unknown id is an error and changes nothing |
| `Backend.StatisticsBackendData.StartTopicSpy` | src/cpp/StatisticsBackendData.cpp:655-719 | An unknown monitor is an error; otherwise the answer and the entries are those of the monitor, and all other monitors stay as they are; a listener leaks if and only if, before the call, one is entered for the topic and no reader, and it is that listener |
| `Backend.StatisticsBackendData.FailedAttemptLeaks` | src/cpp/StatisticsBackendData.cpp:696-718 | After an attempt that was answered by a reader error, its listener is entered and has not leaked, and the next attempt for the topic leaks it and nothing else |
| `Backend.StatisticsBackendData.StopTopicSpy` | src/cpp/StatisticsBackendData.cpp:721-754 | Exactly the reader, the topic and the listener of a topic that is spied on are deleted, the monitor forgets them, and nothing leaks; otherwise nothing changes |
| `Backend.StatisticsBackendData.Destroy` | src/cpp/StatisticsBackendData.cpp:66-75 | The destructor's loop terminates and releases exactly the objects of all monitors, because every monitor knows its own key; what remains is what existed before the first monitor and what has leaked, and exactly the former if no reader ever failed |
| `MonitorOrder.OtherOwned` | src/cpp/StatisticsBackendData.cpp:501-565 | What is done to one monitor's objects leaves every other monitor complete and on its own |

## Left out

- Workhorse.Run: argument strings are not in memory at addresses, so a detached argument is recognised as the next element of the vector rather than by comparing pointers; a descriptor's index is a natural number below the size of the array, and counters are not bounded except where the code compares them with the greatest signed int.
- Workhorse.Run: a GNU run that the action cuts short, because there are more options than a signed int counts, is shown to permute the vector only.
- Workhorse.Run: when the count given exceeds the vector, the reported number of non-options is the code's (`Workhorse.Leftover`): it is corrected only if the walk comes to the end of the vector.
- Utf8Width.DecodeChar: text is required to have no byte 0xFF, for which the builtin that counts leading zeros is undefined; the replacement for compilers without the builtin is not modelled.
- UsageLayout.LayOut: the percentages are unbounded integers, so the overflow of their product with the width is not modelled.
- UsageEdge.EveryLineInItsPlace: requires that the last column is not given more than the line (percentages up to 100 never do); a negative margin, which costs a line break each time, is in `UsageScreen` but nothing is said of where its lines land.
- Parsing.ReorderThenParse: requires fewer options than the greatest signed int, because a GNU run that is cut short there is only shown to permute the vector.
- DiscoveryStatus.Status.OnInstanceDiscovered: counters are integers without bound, where the code has 32 bits.
- Monitors.Monitor.Build: which steps fail is left open, and the order in which a map is iterated too; a topic description that is not a topic cannot arise in the model; the names of the statistics topics are a parameter and required to be different.
- Monitors.Monitor.StartTopicSpy: a reader for a topic that is a null pointer is assumed to be refused; the source passes the null pointer on to the middleware, which is not part of this model.
- Monitors.Monitor.EnterReader: the same is assumed of the readers of the statistics topics.
- Monitors.Monitor.Release: the null tests of the source are not repeated, because a complete monitor has no null pointers; the database is not told that the domain has become inactive.
- The output functors, `fprintf`, the terminal's width and the Windows branches: what is written is a sequence of chunks.
- `examples/cpp/ROS2Prometheus/optionparser.h`: a second copy of the same library.
- The check functions that print messages: whether a message is printed is not modelled.
- The database, its queues, data aggregation, `get_data` and everything that forwards to them.
- Alerts and their watcher thread, monitor service data, GUID text, masks as bit sets (they are sets here), and exceptions as a mechanism (they are results here).
- Threads and locks: every public operation is one step.
- Quality of service settings, locators, XML profiles, environment variables and the network.
