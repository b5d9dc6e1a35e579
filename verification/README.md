# A Dafny model of the RISC-V system, its monitor, its memory path and its CoreMark

The repository holds a pipelined RV32 processor with a cache hierarchy, the RVFI retirement monitor that
checks it, and the CoreMark benchmark it runs. This project models the parts with the most state and the
most intricate promises, and proves what they keep over whole runs and on all inputs.

| part | files |
|---|---|
| CoreMark list kernel | `ListCells`, `ListOrder`, `ListCompare`, `ListMerge`, `ListSort`, `ListFind`, `ListBench`, `ListValue`, `ListRestore`, `ListInit`, `ListInitBits` |
| CoreMark state machine | `Scanner`, `ScannerTheory`, `StateInit`, `StateBench`, `ScannerCounts` |
| CoreMark CRC, numbers, matrices | `Crc`, `CrcTheory`, `NumberText`, `NumberLayout`, `NumberRoundTrip`, `Matrix`, `MatrixLaws` |
| RVFI monitor | `Rvfi`, `ReorderBuffer`, `ReorderTheory`, `RvfiMonitor`, `MonitorCodes`, `MonitorTheory`, `InsnSpecs`, `CompressedSpecs`, `FullSpecs`, `MonitoredIsa`, `InsnLaws`, `InsnFormats`, `InsnCodes` |
| memory path | `LineMemory`, `StoreLoad`, `Cache`, `CacheLru`, `Arbiter`, `MemorySystem`, `MemoryProgress`, `LineAdaptor`, `ReadOnlyCache`, `WholeMemory`, `WholeProgress`, `Coherence` |
| barrier of the multi-core port | `Barrier` |
| shared | `MachineTypes`, `Bitwise`, `BitPlaces`, `Division`, `Sequences` |

## How it is modelled

List cells are heap objects whose `next` and `info` the methods reassign; the order of a list is a ghost
sequence of its cells. The merge sort keeps ghost positions instead of copies of cells, and a ghost map
of the keys that are already fixed: both comparators change what they compare, so a key is only known
once an item has been looked at, and it stays. `data16` is kept as its three parts (backup byte, cached
bit, low seven bits); `ListCells.LayoutIsExact` says that this is the 16-bit word.

Clocked modules are classes whose `Clock` method follows the always blocks, each proved equal to a step
function; properties of runs are lemmas about sequences of steps. The barrier is a step relation over
any number of threads under sequential consistency. A method that is proved equal to a function says no more
than that function, so what those functions compute is stated once more in other terms, in the modules named
`..Laws`, `..Formats`, `..Codes`, `..Counts`, `..Layout`, `..Value` and `..Bits`: by algebraic laws, bit by bit,
by one encoded instruction for each module, as counts over the bytes of the input, or as one message whose CRC
it is. Widths and wrap-around are explicit wherever the source has them (`U16`, `U32`, `S16`, `% 2^32`); machine
words of the CRC are bit sequences.

## What the code does, where that differs from what is said about it

* The benchmark step is described as putting the list back in its original state. The two calls that
  `iterate` makes of it, with `finder_idx` 1 and -1, bring its order back for every `seed3` if and only if
  idx strictly ascends along the list (`ListRestore.OrderAlwaysRestored`), and then any number of iterations
  does (`ListRestore.Iterate`, `ListRestore.IterationsKeepOrder`). For given values the order comes back
  exactly when idx ascends and the search and the sort by value have not exchanged cells of equal idx
  (`ListBench.BenchList`, with `ListBench.MayPrecede` for what they make of the order). Its data come back
  if and only if every low byte agreed with its backup. For a list from `core_list_init` the first
  condition says that all generated idx differ (`ListInit.InitOrderRestored`), which they need not: the list
  of 31 elements and seed 2 is not put back (`ListInit.IdxCanCollide`, `ListInit.InitListNotRestored`).
* The variable that `core_bench_list` later searches for is not initialised when `seed3 <= 0`; it is the
  parameter `data0` here.
* The comment in `core_bench_state` says that equal seeds undo the corruption. A byte that the first pass
  turns into a comma is skipped by the second: `StateBench.Restoration` has the exact condition.
* The third scientific pattern, `-87e+832`, has no dot and is classified invalid
  (`StateInit.PatternVerdict`).
* Check 133 of the monitor, an interrupt expected after a trap, can never fire, whatever came before
  (`MonitorTheory.TrapCheckIsDead`), and registers may be read inconsistently before their first write:
  two instructions that do so pass the monitor (`MonitorTheory.EarlyReadsNeedNotAgree`,
  `MonitoredIsa.EarlyReadsPass`).
* The div and rem modules of the monitor cast their operands to signed, but the other branches of the
  conditional expression are unsigned, and so, by section 11.8.1 of IEEE Std 1800-2017, is the whole: they
  divide unsigned. `FullSpecs.DivAgrees` and `FullSpecs.RemAgrees` say for which operands that is what the
  ISA prescribes; of a negative dividend and a positive divisor, say, only for the quotient by 1.
* In the first cycle after a write-back the cache asks to read the line it has just written back, because
  the dirty bit that selects the address is cleared one cycle late. The arbiter grants nothing in that
  cycle, so the system is still right (`MemoryProgress.FirstReadIsMisaddressed`,
  `MemorySystem.Transparent`).
* The arbiter prefers data requests always, so a held fetch is granted if and only if the data client
  pauses in some cycle in which the arbiter is free (`CacheArbiter.FetchNeedsAGap`). The data cache does
  pause, after each refill: above it a fetch waits behind at most one write-back and one refill
  (`MemoryProgress.FetchAnsweredInTime`).
* Nothing keeps the two caches coherent. A fetch gets some version of its line
  (`Coherence.FetchesAreVersions`), and for every line that a processor may store to there is a run on which
  a fetch after the store gets the old one (`Coherence.StaleFetch`): fetches from a line are exact on all
  runs if and only if it is not stored to (`Coherence.ExactIffNotStored`).
* The loop that finds the matrix dimension compares a square that wraps in 32 bits. For an empty block it
  gives 2^32-1, for blocks above 8*23170*23170 bytes a dimension that does not fit, and above 2^32-56
  bytes it never ends (`Matrix.Dimension`, `Matrix.NeverMore`).
* The seed of the matrices is multiplied by 1, 2, 3, ... and kept to 16 bits, so it decides only the first
  17 elements of each (`Matrix.SeedDoesNotMatter`); and the clip value of `matrix_sum` is always negative,
  so that a result without negative elements scores ten for each, whatever they are
  (`Matrix.NonnegativeScoresTen`).
* `parseval` does not read everything that `number` prints: padding on the left, a plus sign or a space
  for it, capital letters and hexadecimal numbers without their prefix give something else.
  `NumberRoundTrip.RoundTrip` has the exact condition, for every number and all flags.

## Model

| member | source | states |
|---|---|---|
| ListCells.LayoutIsExact | testcode/coremark/source/coremark/core_list_join.c:41-46 | backup byte, cached bit and seven data bits are the 16-bit data word, nothing lost |
| ListCells.Find | testcode/coremark/source/coremark/core_list_join.c:369-379 | returns the first cell that matches by idx, or by data byte when idx is negative, or null when none does |
| ListCells.Reverse | testcode/coremark/source/coremark/core_list_join.c:394-403 | in place, the same cells follow each other in the opposite order |
| ListCells.Remove | testcode/coremark/source/coremark/core_list_join.c:315-326 | the next cell leaves the list with the removed item, the given cell takes over the next item |
| ListCells.UndoRemove | testcode/coremark/source/coremark/core_list_join.c:344-354 | the removed cell is linked in again behind the modified one and the two items change back |
| ListCompare.CalcFunc | testcode/coremark/source/coremark/core_list_join.c:62-94 | a cached item gives its cached value and nothing changes; otherwise operation 0 of its data runs the state benchmark with step max(0x22, 17*d), operation 1 the matrix benchmark with 17*d and the others neither; the value is cached, the backup byte stays, the running CRC takes in the result once, and crcstate and crcmatrix take the result of their benchmark if they are still 0 |
| ListCompare.CalcCounted | testcode/coremark/source/coremark/core_list_join.c:62-94 | over any set of items, the log of evaluations has every item at most once, with the run that its data told, and exactly the formerly uncached ones among the cached; the running CRC is the fold of that log, and crcstate and crcmatrix are their old values if not 0, else the first non-zero result of their benchmark in it |
| ListCompare.CompareComplex | testcode/coremark/source/coremark/core_list_join.c:100-104 | comparing by value fixes the keys of both items, leaves all fixed keys as they are, and the result orders the keys |
| ListCompare.CompareIdx | testcode/coremark/source/coremark/core_list_join.c:111-117 | comparing by idx orders the idx; without a results block both items get their low byte back from the backup |
| ListCompare.Compare | testcode/coremark/source/coremark/core_list_join.c:462 | both comparators are consistent orders over the whole sort although they change the data; each call is counted once |
| ListMerge.StepAlong | testcode/coremark/source/coremark/core_list_join.c:441-447 | finds the start of the second run, or the end of the list |
| ListMerge.MergeStep | testcode/coremark/source/coremark/core_list_join.c:453-477 | one element moves to the merged list, and the comparator is called exactly when both runs have something left |
| ListMerge.MergeRuns | testcode/coremark/source/coremark/core_list_join.c:453-477 | merges two adjacent runs stably into the list built so far, with fewer calls of the comparator than elements |
| ListSort.MergePass | testcode/coremark/source/coremark/core_list_join.c:431-483 | turns runs of insize into runs of twice that over the same cells; one merge or none happened just when insize covers half of the list |
| ListSort.MergeSort | testcode/coremark/source/coremark/core_list_join.c:425-495 | for every non-empty list terminates with exactly the same cells and items, sorted and stable; with two or more cells all are evaluated, each uncached one once; the comparator is called at most n * ceil(log2 n) times |
| ListFind.MoveNext | testcode/coremark/source/coremark/core_list_join.c:157-161 | four assignments move the cell behind the found one to just behind the head |
| ListFind.FindRound | testcode/coremark/source/coremark/core_list_join.c:143-168 | one find, reverse and move step is the step on order and counts; the cells stay one list |
| ListFind.FindMany | testcode/coremark/source/coremark/core_list_join.c:143-168 | any number of steps keeps a permutation of the cells and counts every search as found or missed |
| ListBench.MidCheck | testcode/coremark/source/coremark/core_list_join.c:173-185 | remove, search, checksum and undo leave links and items as they were, and the checksum covers the found position |
| ListBench.SortRestores | testcode/coremark/source/coremark/core_list_join.c:187-191 | a stable idx sort gives back the original order if and only if idx ascended and ties were kept |
| ListBench.StrictIdxRestores | testcode/coremark/source/coremark/core_list_join.c:187-191 | with distinct ascending idx the order comes back whatever happened before |
| ListBench.BackInOrder | testcode/coremark/source/coremark/core_list_join.c:187-191 | the heap list is the original one exactly under that condition |
| ListBench.SortByValue | testcode/coremark/source/coremark/core_list_join.c:170-172 | the sort by value leaves the order of the search sorted stably by the values, which only a sub-benchmark can have changed, and evaluates each uncached item once, with the run that its data told |
| ListBench.BenchList | testcode/coremark/source/coremark/core_list_join.c:131-198 | the whole benchmark step: same cells, same items, the orders before and after the last sort, the return value, the evaluations and the three CRCs; the original order back exactly when idx ascends with ties kept, and the original data exactly when every low byte equalled its backup |
| ListValue.FoundIsFirst | testcode/coremark/source/coremark/core_list_join.c:144-145 | round i finds the first item whose idx is looked for or, when that is negative, whose low byte is i modulo 256 |
| ListValue.NothingYet | testcode/coremark/source/coremark/core_list_join.c:131-143 | the accumulated value starts at 0 |
| ListValue.HitAdds | testcode/coremark/source/coremark/core_list_join.c:151-169 | a search that finds adds 4 modulo 2^16, and bit 9 of the found item if its bit 0 is set |
| ListValue.MissAdds | testcode/coremark/source/coremark/core_list_join.c:145-169 | one that does not adds bit 8 of the second item of the reversed list, and takes off 1 |
| ListValue.MissesAdd | testcode/coremark/source/coremark/core_list_join.c:143-169 | n searches that all miss add the sum of those bits minus n |
| ListValue.IdxAfter | testcode/coremark/source/coremark/core_list_join.c:163-164 | an idx that is looked for counts up once a round, and a negative one stays |
| ListValue.CheckedCells | testcode/coremark/source/coremark/core_list_join.c:173-181 | the first check runs from the first item that matches in the list without its second item, or else from the one behind the head |
| ListValue.ValueIsCrc | testcode/coremark/source/coremark/core_list_join.c:169-197 | the result is the CRC, begun with the accumulated value, of the word of the head once for each cell that the first check meets, and of the word of the final head once for each cell behind it |
| ListRestore.OrderAlwaysRestored | testcode/coremark/source/coremark/core_main.c:48-54 | the two calls of an iteration leave the list in its original order for every seed3 if and only if idx strictly ascends along it, and then so does every finder_idx |
| ListRestore.FourSearchesLoseTies | testcode/coremark/source/coremark/core_list_join.c:143-168 | of one to four searches for data one number exchanges any two given cells of equal idx |
| ListRestore.OneSearchTurns | testcode/coremark/source/coremark/core_list_join.c:143-168 | one search exchanges any two cells of equal idx, unless the first of them is the one it moves |
| ListRestore.OneCall | testcode/coremark/source/coremark/core_main.c:49-52 | one call that keeps the order: links as before, data restored, each evaluation run as the data told, the CRC fed with what the sort evaluated and what the call returned, and crcstate and crcmatrix given the first results of their benchmark |
| ListRestore.Iterate | testcode/coremark/source/coremark/core_main.c:38-57 | any number of iterations whose calls keep the order leave the list as it was with all data restored; crc covers all calls and crclist the first two, and crcstate and crcmatrix are the first non-zero results of their benchmark over all calls |
| ListRestore.IterationsKeepOrder | testcode/coremark/source/coremark/core_main.c:48-54 | every call of every iteration keeps the order for every seed3 if and only if idx strictly ascends |
| ListInit.InsertNew | testcode/coremark/source/coremark/core_list_join.c:281-300 | takes the next cell and item inside both regions and links it behind the head, or refuses and changes nothing |
| ListInit.NumberCells | testcode/coremark/source/coremark/core_list_join.c:243-253 | numbers all cells but the first and the last |
| ListInit.Build | testcode/coremark/source/coremark/core_list_join.c:212-253 | exactly size-1 cells and items of the block are used, in the expected chain and with the expected data |
| ListInit.Init | testcode/coremark/source/coremark/core_list_join.c:212-265 | the returned list is that chain sorted by idx, inside the block, sentinel last, head first if and only if the in-order idx fit 16 bits |
| ListInit.HeadAndTail | testcode/coremark/source/coremark/core_list_join.c:254-264 | head first and sentinel last even when generated idx collide |
| ListInit.SeedZeroIsDistinct | testcode/coremark/source/coremark/core_list_join.c:243-253 | with seed 0 and up to 256 elements all idx are distinct |
| ListInit.IdxCanCollide | testcode/coremark/source/coremark/core_list_join.c:243-253 | with seed 2 and 31 elements two idx are equal |
| ListInit.InitOrderRestored | testcode/coremark/source/coremark/core_main.c:48-54 | the two calls of an iteration put a list from core_list_init back in its order for every seed3 if and only if its idx are pairwise different |
| ListInit.InitAndBench | testcode/coremark/source/coremark/core_main.c:44-56 | core_list_init and one core_bench_list on its list: every item has its data again, and the cells their order exactly under the condition of the benchmark step |
| ListInit.InitAndIterate | testcode/coremark/source/coremark/core_main.c:38-57 | with pairwise different idx the list from core_list_init is, after any number of iterations and for any seed3, as core_list_init made it |
| ListInit.InitListNotRestored | testcode/coremark/source/coremark/core_main.c:49-51 | the list of seed 2 and 31 elements is not put back by core_bench_list(res,-1) with seed3 1 |
| ListInitBits.ItemByBits | testcode/coremark/source/coremark/core_list_join.c:236-239 | bits 0 to 2 of an item are those of its number, bits 3 to 6 those of number and seed exclusively ored, bit 7 is 0, and the upper byte repeats the lower |
| ListInitBits.EndWords | testcode/coremark/source/coremark/core_list_join.c:222-233 | the words of the head and of the last item are 0x8080 and 0xffff |
| ListInitBits.IdxByBits | testcode/coremark/source/coremark/core_list_join.c:246-250 | the first fifth is numbered in order; any later idx has 14 bits, those of number and seed exclusively ored, with the low three of the next number ored in at bit 8 |
| Scanner.Transition | testcode/coremark/source/coremark/core_state.c:184-277 | the loop stops at the end of the token and returns its kind, counting every transition on the way |
| ScannerTheory.Verdict | testcode/coremark/source/coremark/core_state.c:194-273 | the final state decides a grammar: [+-]?d+, [+-]?d*.d*, [+-]?d*.d*[eE][+-]d+, and the cut-off forms, both directions |
| ScannerTheory.TokenVerdict | testcode/coremark/source/coremark/core_state.c:184-277 | at least one byte is consumed and never the NUL; INT, FLOAT and SCIENTIFIC exactly when the field up to comma or NUL has that form; an invalid token ends with the byte that spoils it |
| ScannerTheory.Partition | testcode/coremark/source/coremark/core_state.c:59-61 | repeated calls cover the text up to its NUL exactly once, in order |
| ScannerTheory.CountersFlow | testcode/coremark/source/coremark/core_state.c:194-273 | the counters obey the inequalities of the transition graph: all tokens leave START or end there, and from each state no more leave or end than its predecessors passed on |
| ScannerCounts.CountersAre | testcode/coremark/source/coremark/core_state.c:184-277 | the equations: of any tokens, what left S1 or ended in it is the number of tokens that begin with a sign; of INT, with a digit behind at most a sign; of FLOAT, S2 and EXPONENT, with a beginning of that form; and as INVALID count exactly the tokens spoilt at the first byte or in the digits of the exponent |
| ScannerCounts.MetOnce | testcode/coremark/source/coremark/core_state.c:194-273 | a token meets each state at most once: it is still there, or was counted once on leaving it |
| ScannerTheory.CountersFit | testcode/coremark/source/coremark/core_state.c:55-61 | no counter exceeds the number of bytes scanned |
| StateInit.InitState | testcode/coremark/source/coremark/core_state.c:116-166 | fills the block with the fields the seed chooses, comma-separated, and zeros, at least two of them |
| StateInit.InitTextIsFields | testcode/coremark/source/coremark/core_state.c:116-166 | field j is the pattern of the seed plus j + 1 with a comma behind it, the fields follow each other from the first byte on, no further one would leave two bytes over, and the rest is zeros |
| StateInit.PatternsRepeat | testcode/coremark/source/coremark/core_state.c:132-155 | the pattern depends on the low five bits of its seed, and has four bytes for three seeds out of eight and eight for the others |
| StateInit.PatternVerdict | testcode/coremark/source/coremark/core_state.c:101-105 | every default pattern gets the verdict it is meant for, except the scientific one without a dot |
| StateBench.ScanBlock | testcode/coremark/source/coremark/core_state.c:59-68 | one scan adds the tokens of the block, by kind, and their transitions to the counters |
| StateBench.Corrupt | testcode/coremark/source/coremark/core_state.c:69-74 | every step-th byte but commas is flipped by the seed |
| StateBench.CorruptedByBits | testcode/coremark/source/coremark/core_state.c:69-74 | bit by bit, the visited bytes but commas are exclusively ored with the seed and the others stay |
| StateBench.Restoration | testcode/coremark/source/coremark/core_state.c:69-92 | the second pass restores the block if and only if each visited byte was a comma, or the seeds agree in the low byte and flipping made no comma |
| StateBench.NulSurvives | testcode/coremark/source/coremark/core_state.c:69-74 | of two adjacent NULs one survives any corruption with step 2 or more |
| StateBench.InitialBlockIsScannable | testcode/coremark/source/coremark/core_state.c:116-166 | an initial block of two bytes or more can be scanned before and after corruption with any step from 0x22 on |
| StateBench.BenchState | testcode/coremark/source/coremark/core_state.c:43-99 | stays in the block, leaves it twice corrupted, and returns the CRC of the counters of both scans |
| StateBench.BenchFlow | testcode/coremark/source/coremark/core_state.c:55-93 | the counters over both scans obey the flow inequalities |
| ScannerCounts.BenchCounts | testcode/coremark/source/coremark/core_state.c:55-93 | over both scans the counters are those numbers of tokens |
| ScannerCounts.ResultIsCrc | testcode/coremark/source/coremark/core_state.c:93-98 | the result is the CRC of 64 bytes: for each state in the order of the enumeration the tokens that ended in it, then the transitions out of it, low byte first |
| StateBench.BenchCountersFit | testcode/coremark/source/coremark/core_state.c:55-97 | in a block of at most 2^31 bytes no 32-bit counter wraps |
| Crc.Crcu8 | testcode/coremark/source/coremark/core_util.c:142-165 | the loop over a byte is eight shifts of the CRC register |
| Crc.Crcu16 | testcode/coremark/source/coremark/core_util.c:166-170 | a 16-bit value is fed low byte first |
| Crc.Crcu32 | testcode/coremark/source/coremark/core_util.c:171-178 | a 32-bit value is fed low half first |
| CrcTheory.CrcBytesIsFeed | testcode/coremark/source/coremark/core_util.c:142-165 | byte by byte is bit by bit over the whole message |
| CrcTheory.WordIsFeed | testcode/coremark/source/coremark/core_util.c:166-170 | crcu16 feeds the 16 bits of its argument, lowest first |
| CrcTheory.LongIsFeed | testcode/coremark/source/coremark/core_util.c:171-178 | crcu32 feeds the 32 bits of its argument, lowest first |
| CrcTheory.WordAbsorbs | testcode/coremark/source/coremark/core_util.c:166-170 | crcu16(v, c) is crcu16(0, c ^ v) |
| CrcTheory.CrcIsRemainder | testcode/coremark/source/coremark/core_util.c:142-165 | the running CRC is the remainder of the message modulo x^16+x^15+x^2+1 over GF(2), and the only one |
| CrcTheory.FeedIsLinear | testcode/coremark/source/coremark/core_util.c:142-165 | the CRC is linear in message and start value |
| CrcTheory.FeedAbsorbs | testcode/coremark/source/coremark/core_util.c:142-165 | up to 16 message bits can be added to the register instead of fed |
| CrcTheory.FeedIsInjective | testcode/coremark/source/coremark/core_util.c:142-165 | different registers stay different under the same message |
| CrcTheory.Unshift | testcode/coremark/source/coremark/core_util.c:148-163 | one shift is undone: every register value has a predecessor |
| CrcTheory.BurstsAreDetected | testcode/coremark/source/coremark/core_util.c:142-178 | messages that differ only inside one 16-bit window have different CRCs |
| NumberText.Number | testcode/coremark/source/coremark/barebones/ee_printf.c:48-123 | the loops write exactly the formatted field; a base outside 2..36 is refused |
| NumberText.FillDigits | testcode/coremark/source/coremark/barebones/ee_printf.c:87-98 | the digits of a 32-bit long fit the 66-character buffer and are those of the number, last first |
| NumberText.FormatLength | testcode/coremark/source/coremark/barebones/ee_printf.c:48-123 | the field is as long as the larger of its width and sign, prefix and max(digits, precision) |
| NumberLayout.FieldLayout | testcode/coremark/source/coremark/barebones/ee_printf.c:48-123 | in every base a field is spaces, one sign, prefix, zeros, digits, spaces: which sign and prefix the flags choose, digits without a zero in front whose value is the magnitude, or the 32-bit pattern without SIGN, and where width and precision put spaces and zeros |
| NumberLayout.DigitsInBase | testcode/coremark/source/coremark/barebones/ee_printf.c:94-98 | in every base up to 36 and either case the digits have the number as value and begin with none that is 0 |
| NumberText.ParseVal | testcode/coremark/source/coremark/core_util.c:64-102 | reads sign, prefix, digits and qualifier of a NUL-terminated string, in two's complement; the number itself when its size fits 31 bits |
| NumberText.ValueGrows | testcode/coremark/source/coremark/core_util.c:76-93 | the value never falls as digits are read, so no step overflows when the whole fits |
| NumberRoundTrip.QualifierScales | testcode/coremark/source/coremark/core_util.c:94-100 | a K behind the digits gives 2^10 times the number without it, an M 2^20 times |
| NumberRoundTrip.DigitsValue | testcode/coremark/source/coremark/barebones/ee_printf.c:94-98 | the digits printed for a number have that number as value |
| NumberRoundTrip.RoundTrip | testcode/coremark/source/coremark/core_util.c:64-102 | for every number below 2^31 in size, decimal or prefixed hexadecimal, parseval reads the printed field back if and only if it is 0 or has neither padding spaces nor plus sign nor space in front |
| Matrix.AddConst | testcode/coremark/source/coremark/core_matrix.c:252-259 | adds a constant to every element, in 16 bits |
| MatrixLaws.PlusLaws | testcode/coremark/source/coremark/core_matrix.c:252-259 | added to a zero a constant gives itself, and two constants one after the other their sum |
| MatrixLaws.ScaledLaws | testcode/coremark/source/coremark/core_matrix.c:240-247 | scaling by 1 keeps the elements, and is additive in the scale |
| Matrix.ConstGoesAway | testcode/coremark/source/coremark/core_matrix.c:117-148 | adding val and then -val gives the matrix back for every val, wrap-around included |
| Matrix.MulMatrix | testcode/coremark/source/coremark/core_matrix.c:279-309 | both triple loops leave the row-by-column products in C, in two's complement; which those are, MatrixLaws says |
| MatrixLaws.OneIsNeutral | testcode/coremark/source/coremark/core_matrix.c:279-290 | the unit matrix times B is B, and A times the unit matrix is A |
| MatrixLaws.SinglesMeet | testcode/coremark/source/coremark/core_matrix.c:279-290 | E(p,q) times E(r,s) is E(p,s) if q = r, and 0 if not |
| MatrixLaws.ProductAdds | testcode/coremark/source/coremark/core_matrix.c:279-290 | the plain product is additive in each factor, in two's complement |
| MatrixLaws.SinglePicks | testcode/coremark/source/coremark/core_matrix.c:296-308 | a matrix with one element x at (p,q) puts into row p the products of bits 2 to 5 and 5 to 11 of x times each element of row q, bit by bit, and 0 elsewhere |
| MatrixLaws.PartsAdd | testcode/coremark/source/coremark/core_matrix.c:279-309 | of either product, parts of A that share no non-zero element add up |
| Matrix.MulVect | testcode/coremark/source/coremark/core_matrix.c:265-273 | the product of the matrix with a vector |
| MatrixLaws.VectIsProduct | testcode/coremark/source/coremark/core_matrix.c:265-273 | it is the matrix product with the first row of B as a column |
| MatrixLaws.VectUnits | testcode/coremark/source/coremark/core_matrix.c:265-273 | the unit matrix gives the first row of B, and a unit vector a column of A |
| Matrix.ProductIsExact | testcode/coremark/source/coremark/core_matrix.c:279-309 | for elements up to 510 and dimensions up to 128 no 32-bit sum overflows |
| Matrix.VectIsExact | testcode/coremark/source/coremark/core_matrix.c:265-273 | the same for the vector product |
| Matrix.Sum | testcode/coremark/source/coremark/core_matrix.c:216-237 | both loops give the score of the elements in row order, in two's complement |
| MatrixLaws.ScoredInParts | testcode/coremark/source/coremark/core_matrix.c:216-234 | the score of more elements goes on from the sum, the element before and the score reached |
| MatrixLaws.BelowScores | testcode/coremark/source/coremark/core_matrix.c:223-230 | while the running sum does not come above the clip value, each element larger than the one before scores one and no other does |
| MatrixLaws.AboveScores | testcode/coremark/source/coremark/core_matrix.c:223-230 | the element that brings it above scores ten, and the sum starts again at 0 |
| Matrix.NonnegativeScoresTen | testcode/coremark/source/coremark/core_matrix.c:216-237 | with the clip values of matrix_test a matrix without negative elements scores ten for each element |
| Matrix.Test | testcode/coremark/source/coremark/core_matrix.c:117-148 | A and B are unchanged in the end, C holds the last product over A + val, and the CRC is over the scores of all four results |
| MatrixLaws.TestIsCrc | testcode/coremark/source/coremark/core_matrix.c:117-147 | the result is the CRC of four 16-bit scores, in the order of the operations |
| MatrixLaws.BigByBits | testcode/coremark/source/coremark/core_matrix.c:117-119 | the clip value has bits 12 to 15 set and the others of val |
| Matrix.Dimension | testcode/coremark/source/coremark/core_matrix.c:165-178 | N with 8*N*N < blksize <= 8*(N+1)*(N+1) up to 8*23170*23170 bytes; 2^32-1 for an empty block; one that does not fit for larger blocks up to 2^32-56 bytes |
| Matrix.NeverMore | testcode/coremark/source/coremark/core_matrix.c:174-177 | in blocks above 2^32-56 bytes no i ends the loop |
| Matrix.MatricesFit | testcode/coremark/source/coremark/core_matrix.c:179-200 | A, B and C follow each other, and end inside the block exactly when the alignment fits, as it does in an aligned one |
| Matrix.FillMatrices | testcode/coremark/source/coremark/core_matrix.c:182-195 | each element of B and A is what its number and the running seed give; those of A are between 0 and 255 |
| MatrixLaws.SeedIsFactorial | testcode/coremark/source/coremark/core_matrix.c:182-191 | the running seed is the seed times t factorial, less multiples of 2^16 |
| MatrixLaws.ElementsInClosedForm | testcode/coremark/source/coremark/core_matrix.c:182-191 | element t of B is that of t + 1 plus t + 1 in 16 bits, and of A plus 2 * (t + 1) in 8 |
| Matrix.SeedsDoNotOverflow | testcode/coremark/source/coremark/core_matrix.c:184 | up to dimension 181 no product of order and seed overflows |
| Matrix.SeedDoesNotMatter | testcode/coremark/source/coremark/core_matrix.c:182-195 | from the 18th element on the running seed is 0 and the elements depend on their number alone |
| ReorderBuffers.ReorderBuffer.Clock | hvl/rvfimon.v:400-431 | one clock of the 256-slot buffer with its non-blocking assignments |
| ReorderTheory.StepInWindow | hvl/rvfimon.v:400-431 | a record that arrives in the window is stored at its index, and the next one in turn leaves if it is there |
| ReorderTheory.Reserializes | hvl/rvfimon.v:389-432 | distinct orders arriving within 256 of the cursor come out as 0, 1, 2, ... with their own data, no error |
| ReorderTheory.Drains | hvl/rvfimon.v:389-432 | everything up to the first missing order comes out |
| ReorderTheory.SilenceIsExact | hvl/rvfimon.v:389-432 | conversely, without an error every output order equals the cursor and what came in is what came out and what is still buffered |
| RvfiMonitor.CheckRecord | hvl/rvfimon.v:126-180 | the code of the last failing check on a record |
| RvfiMonitor.CodeZeroIsAgreement | hvl/rvfimon.v:126-180 | no check fails exactly when the record agrees with its specification |
| MonitorCodes.FieldFaults | hvl/rvfimon.v:126-180 | one wrong field of a record that agrees otherwise draws its own code, 101 to 106 |
| MonitorCodes.AddressFault | hvl/rvfimon.v:126-180 | an access to another word draws 107 |
| MonitorCodes.MissingAccess | hvl/rvfimon.v:126-180 | a store that is missing draws 108, a load 110 plus the highest lane it should have read |
| MonitorCodes.DataFault | hvl/rvfimon.v:126-180 | wrong stored data draw 120 plus the highest wrong lane |
| RvfiMonitor.Monitor.ClockPc | hvl/rvfimon.v:281-304 | the shadow program counter and its errors |
| RvfiMonitor.Monitor.ClockRegs | hvl/rvfimon.v:342-376 | the shadow registers and their errors |
| RvfiMonitor.Monitor.Clock | hvl/rvfimon.v:378-386 | all always blocks together, each reading the registers as they were |
| MonitorCodes.SecondRecord | hvl/rvfimon.v:281-376 | of two records in consecutive clocks the second draws 130 for its pc, 132 for its second operand, or else 131 for its first, when it differs from what the first left |
| MonitorCodes.Reported | hvl/rvfimon.v:378-386 | the output is 0 exactly when all four error registers are, and else that of the registers before that of the pc before that of the buffer |
| MonitorCodes.SecondForSlot | hvl/rvfimon.v:400-431 | a second record for an occupied slot k draws 60000 + k |
| MonitorCodes.WrongTurn | hvl/rvfimon.v:400-431 | a record in the slot of the next order with another one draws 61000 |
| MonitorTheory.ErrorsShow | hvl/rvfimon.v:378-386 | an error reaches the output one clock later |
| MonitorTheory.QuietRun | hvl/rvfimon.v:342-386 | without errors the shadow state is that of the stream consumed so far, which is sequential |
| MonitorTheory.MonitorIsExact | hvl/rvfimon.v:126-431 | no error register is ever set if and only if the buffer reports nothing, the stream passed on is sequential, and every record agrees with the ISA |
| MonitorTheory.MonitorSound | hvl/rvfimon.v:126-431 | from a reset in any state, if the error output stays 0 the reordered stream is gap-free, each pc follows the one before, each read sees the latest write, and every record agrees with the ISA |
| MonitorTheory.NoFalseAlarm | hvl/rvfimon.v:126-431 | conversely a sequential program that agrees with the ISA, retired in any order within 256 of the next one due, never shows an error |
| MonitorTheory.X0StaysZero | hvl/rvfimon.v:342-376 | register 0 keeps the value 0 in such a stream |
| MonitorTheory.SequentialExecutes | hvl/rvfimon.v:126-180 | such a stream is an execution of the ISA function |
| MonitorTheory.TrapCheckIsDead | hvl/rvfimon.v:281-304 | on no run from reset, with errors or without, does check 133 fire; after a trap the next pc is not checked |
| MonitorTheory.InitialFileExists | hvl/rvfimon.v:342-376 | the stream starts from some register file if and only if reads before the first write agree |
| MonitorTheory.EarlyReadsNeedNotAgree | hvl/rvfimon.v:342-386 | two records with such reads that disagree run through the monitor, and its output stays 0 for ever |
| MonitoredIsa.IsaSpecIs | hvl/rvfimon.v:2697-2767 | the muxes over all 70 modules give what the one module that accepts the word specifies; what the modules compute, the next rows say without naming their cases |
| InsnLaws.SltOfZero | hvl/rvfimon.v:6402-6452 | slt with 0 is the top bit |
| InsnLaws.SltIsOrder | hvl/rvfimon.v:6402-6452 | slt is irreflexive and transitive, and of two different words exactly one is below the other |
| InsnLaws.SltuIsBorrow | hvl/rvfimon.v:6553-6603 | sltu is the borrow of sub, and slt is sltu once both top bits are flipped |
| InsnLaws.BranchesCompare | hvl/rvfimon.v:3782-3989 | blt, bge, bltu and bgeu are taken exactly when slt or sltu gives 1, 0, 1, 0 |
| InsnLaws.EqualityBranches | hvl/rvfimon.v:3730-4041 | beq and bne are taken exactly when sub gives 0, or not |
| InsnLaws.AddUndoesSub | hvl/rvfimon.v:6810-6860 | add undoes sub and sub add |
| InsnLaws.AddCounts | hvl/rvfimon.v:3481-3531 | add is commutative, 0 is neutral, and one more on a side is one more in 32 bits |
| InsnLaws.ImmediateForms | hvl/rvfimon.v:3532-6551 | addi, andi, ori, xori, slti and sltiu are their register forms on the immediate |
| InsnLaws.ImmediateShifts | hvl/rvfimon.v:6351-6809 | slli, srli and srai are the shifts by that many places |
| InsnLaws.ProductsAreWhole | hvl/rvfimon.v:5787-5992 | mulh, mulhu and mulhsu times 2^32 plus mul are the products of the operands read with and without sign |
| InsnLaws.QuotientsAreWhole | hvl/rvfimon.v:5333-6198 | divu times the divisor plus remu is the dividend, with remu below the divisor; divided by 0, all ones and the dividend |
| InsnLaws.ShiftsByBits | hvl/rvfimon.v:6299-6758 | sll, srl and sra place by place |
| InsnLaws.LogicByBits | hvl/rvfimon.v:3582-6961 | and, or and xor place by place |
| InsnLaws.UpperImmediates | hvl/rvfimon.v:3683-5735 | lui gives its immediate, and auipc the sum of that and the pc |
| InsnLaws.JumpsLink | hvl/rvfimon.v:5385-5484 | jal and jalr link to the pc plus 4, and go to the pc or the register plus the immediate, even for jalr |
| InsnLaws.NextWord | hvl/rvfimon.v:3481-7009 | all other 32-bit instructions but the branches go on with the next word |
| InsnLaws.AccessAddresses | hvl/rvfimon.v:5485-6910 | loads and stores access the word that holds the sum of register and immediate |
| InsnLaws.RegistersNamed | hvl/rvfimon.v:3481-7009 | which registers each 32-bit instruction reads and writes |
| InsnLaws.CompressedLogic | hvl/rvfimon.v:4238-5279 | the compressed sub, and, or and xor are the 32-bit ones |
| InsnLaws.CompressedSums | hvl/rvfimon.v:4042-4881 | and so the compressed sums, copies and immediates |
| InsnLaws.CompressedShifts | hvl/rvfimon.v:4932-5080 | and the compressed shifts |
| InsnLaws.CompressedJumps | hvl/rvfimon.v:4338-4633 | where the compressed jumps and branches go and what they link to |
| InsnLaws.CompressedNext | hvl/rvfimon.v:4042-5279 | all other compressed instructions go on 2 bytes later |
| InsnLaws.CompressedAddresses | hvl/rvfimon.v:4732-5229 | which words the compressed loads and stores access |
| InsnCodes.RegisterWords | hvl/rvfimon.v:3481-7009 | a word is that of a register form or of a shift by an immediate exactly if its opcode, funct3 and funct7 bits are those of one encoded instruction, such as 0x0020A1B3 for slt x3,x1,x2 |
| InsnCodes.FullWords | hvl/rvfimon.v:3481-7009 | so are all other 32-bit words by opcode and funct3, and lui, auipc and jal by opcode alone |
| InsnCodes.ShortLogicWords | hvl/rvfimon.v:4238-5279 | and the compressed logic by five code fields |
| InsnCodes.ShortShiftWords | hvl/rvfimon.v:4288-5080 | c.srli, c.srai and c.andi, with shifts by less than 32 |
| InsnCodes.ShortMoveWords | hvl/rvfimon.v:4042-4881 | c.jr, c.jalr, c.mv and c.add, with the fields that must or must not be 0 |
| InsnCodes.LimitedWords | hvl/rvfimon.v:4140-4981 | c.addi16sp, c.lui, c.addi4spn, c.lwsp and c.slli, with what they demand of register and immediate |
| InsnCodes.ShortWords | hvl/rvfimon.v:4091-5229 | and all other compressed words by quadrant and funct3 |
| InsnFormats.Fields | hvl/rvfimon.v:3481-7009 | registers and codes are bits 6:0, 11:7, 14:12, 19:15, 24:20 and 31:25 |
| InsnFormats.CompressedFields | hvl/rvfimon.v:4042-5279 | and those of compressed words |
| InsnFormats.ImmediateI | hvl/rvfimon.v:3532-3581 | bits 30:20, and bit 31 as sign |
| InsnFormats.ImmediateS | hvl/rvfimon.v:6861-6910 | bits 11:7 and 30:25, and bit 31 as sign |
| InsnFormats.ImmediateB | hvl/rvfimon.v:3730-3781 | the even offset of a branch from bits 11:8, 30:25, 7 and 31 |
| InsnFormats.ImmediateU | hvl/rvfimon.v:5689-5735 | bits 31:12 in place |
| InsnFormats.ImmediateJ | hvl/rvfimon.v:5385-5433 | the even offset of a jump from bits 30:21, 20, 19:12 and 31 |
| InsnFormats.CompressedSixBits | hvl/rvfimon.v:4091-4139 | the six bits of compressed immediates and shift amounts |
| InsnFormats.CompressedStack | hvl/rvfimon.v:4140-4237 | the scaled stack immediates |
| InsnFormats.CompressedBranch | hvl/rvfimon.v:4338-4437 | the offset of a compressed branch |
| InsnFormats.CompressedJump | hvl/rvfimon.v:4438-4535 | the offset of a compressed jump |
| InsnFormats.CompressedAccess | hvl/rvfimon.v:4732-5229 | the scaled offsets of compressed loads and stores |
| MonitoredIsa.NoModule | hvl/rvfimon.v:2697-2767 | a word is valid if and only if some module accepts it |
| MonitoredIsa.IsaKeepsX0 | hvl/rvfimon.v:3481-7009 | all instruction modules leave x0 at 0 |
| MonitoredIsa.MonitoredExecution | hvl/rvfimon.v:126-431 | with those modules as the ISA, a silent monitor has seen an execution of them |
| FullSpecs.DivAgrees | hvl/rvfimon.v:5280-5332 | the div module gives the quotient of the ISA exactly when the divisor is 0, the operands are equal or overflow, neither is negative, the divisor is negative and larger in size than a dividend that is not, or the dividend is negative and the divisor 1 |
| FullSpecs.RemAgrees | hvl/rvfimon.v:6094-6146 | the rem module gives the remainder exactly in those cases, but of a negative dividend and a positive divisor when neither its unsigned value nor its size leaves a rest |
| MonitoredIsa.EarlyReadsPass | hvl/rvfimon.v:342-386 | two addi that read 0 and then 1 from a register nothing has written show no error |
| MonitoredIsa.LoadWordAgrees | hvl/rvfimon.v:5736-5786 | the load of a word on numbers is the load on bytes |
| MonitoredIsa.StoreWordAgrees | hvl/rvfimon.v:6861-6910 | and so is the store |
| MonitoredIsa.LoadPartAgrees | hvl/rvfimon.v:5485-5688 | so are the loads of a byte and a halfword, signed or not |
| MonitoredIsa.StorePartAgrees | hvl/rvfimon.v:6199-6298 | and their stores |
| InsnSpecs.OnlyOneValid | hvl/rvfimon.v:2697-2767 | at most one instruction module accepts a word, so the order of the muxes does not matter |
| InsnSpecs.LengthBits | hvl/rvfimon.v:3481-7009 | the compressed modules accept exactly words whose low two bits are not both set |
| CompressedSpecs.ExpansionAgrees | hvl/rvfimon.v:4042-5276 | every valid compressed instruction specifies the same trap, registers, result, memory access and target as its 32-bit expansion, with 2 for 4 |
| LineMemory.ReadAgrees | hdl/cache/line_adapter.sv:11-13 | the word selected from a line is made of the addressed bytes |
| LineMemory.WriteAgrees | hdl/cache/line_adapter.sv:11-13 | replicated data under shifted byte enables write exactly the enabled bytes of the addressed word |
| LineMemory.ShadowMemory.Read | hvl/shadow_memory.sv:22-28 | reads the bytes of any byte memory the lines stand for |
| LineMemory.ShadowMemory.Write | hvl/shadow_memory.sv:30-39 | writes a line as the adapter does, and so the same bytes |
| StoreLoad.StoreSetsBytes | hvl/rvfimon.v:6231-6241 | a store of 1, 2 or 4 bytes sets exactly those bytes |
| StoreLoad.LoadSeesBytes | hvl/rvfimon.v:5517-5526 | a load delivers exactly those bytes, extended |
| StoreLoad.StoreThenLoad | hvl/rvfimon.v:6231-6241 | a load after a store of the same size at the same address returns the extended low bytes of rs2, through lines, too |
| CacheArbiter.Arbiter.Clock | hdl/cache/arbiter.sv:52-125 | outputs and next grant |
| CacheArbiter.OneMemory | hdl/cache/arbiter.sv:52-125 | on every run with any delays and resets the memory is the completed data writes applied once each, and each read of either client returns the latest |
| CacheArbiter.Routed | hdl/cache/arbiter.sv:52-79 | a response goes only to the client that asks and holds the grant, and never read and write together |
| CacheArbiter.SteadyCommand | hdl/cache/arbiter.sv:52-125 | address and command are constant during a grant |
| CacheArbiter.DataWaitsOnce | hdl/cache/arbiter.sv:81-112 | a data request waits behind at most one fetch and is answered by the third time the memory is ready |
| CacheArbiter.FetchNeedsAGap | hdl/cache/arbiter.sv:81-112 | a held fetch is granted if and only if the data client asks for nothing in some cycle in which the arbiter is free |
| CacheArbiter.FetchCanStarve | hdl/cache/arbiter.sv:84-94 | the failing side: a data client that never pauses keeps every fetch waiting |
| Cache.GetIndex | hdl/cache/param_cache/param_cache_datapath.sv:48-68 | the way that hits, else a free one, else the least recently used |
| Cache.Control | hdl/cache/param_cache/param_cache_control.sv:43-122 | what the controller drives, and its next state |
| Cache.Touch | hdl/cache/param_cache/param_cache_control.sv:67-75 | ages the more recent ways and makes the hit one most recent |
| Cache.L1Cache.Clock | hdl/cache/param_cache/l1_param_cache.sv:30-61 | one clock of controller, arrays and adapter |
| MemorySystem.StepInv | hdl/cache/param_cache/param_cache_datapath.sv:70-120 | every cycle keeps cached and uncached lines standing for one plain memory, misses and refills included |
| MemorySystem.Transparent | hdl/mp4.sv:94-176 | above any line memory and beside any instruction client, data cache and arbiter are a plain memory: every answer is that of the writes answered before, for any sets, ways, delays and fetches |
| MemorySystem.ProcessorSeesBytes | hdl/mp4.sv:94-176 | in bytes: each word read consists of the bytes last written |
| MemoryProgress.RankStep | hdl/cache/param_cache/param_cache_control.sv:99-122 | every cycle with the memory ready brings a waiting request closer to its answer |
| MemoryProgress.AnsweredInTime | hdl/mp4.sv:94-176 | while a request waits the memory is ready at most five times |
| MemoryProgress.PauseAfterRefill | hdl/cache/param_cache/param_cache_control.sv:99-122 | after a refill the cache asks the free arbiter for nothing |
| MemoryProgress.FetchAnsweredInTime | hdl/mp4.sv:94-176 | while a fetch waits the data cache is answered at most twice and the memory is ready at most five times |
| MemoryProgress.SteadyDownstream | hdl/cache/arbiter.sv:66-77 | the command on behalf of the data cache stays until it is answered, and a read is for the missing line |
| MemoryProgress.FirstReadIsMisaddressed | hdl/cache/param_cache/param_cache_datapath.sv:91 | after a write-back the cache first asks for the line just written, while nothing is granted |
| CacheLru.LeastRecentlyUsed | hdl/cache/param_cache/param_cache_control.sv:67-75 | on every run a miss gives up a free way, or the one hit longest ago |
| CacheLru.HitRanks | hdl/cache/param_cache/param_cache_control.sv:67-75 | after a hit the counters still rank the ways by recency |
| LineAdaptor.CachelineAdaptor.Clock | hdl/cache/cacheline_adaptor.sv:44-96 | one clock of the burst machine |
| LineAdaptor.IsLineMemory | hdl/cache/cacheline_adaptor.sv:35-96 | above a burst memory it is a line memory: each response answers the held command, reads get the last whole line written, each write counts once |
| ReadOnlyCache.HoldsCommand | hdl/cache/param_cache/param_cache_control.sv:99-122 | the instruction cache goes on asking for the line of the fetch until it is answered |
| ReadOnlyCache.GoesOn | hdl/cache/param_cache/param_cache_datapath.sv:70-120 | a line that does not change below is never anything else in its ways |
| WholeMemory.Simulates | hdl/mp4.sv:50-217 | a clock of both caches, arbiter, adaptor and bursts is a clock of the memory system over a line memory |
| WholeMemory.CommandHolds | hdl/mp4.sv:132-217 | the command that the adaptor sees stays until it is answered, for either cache |
| WholeMemory.Transparent | hdl/mp4.sv:50-217 | the whole path down to the bursts is a plain memory to the data port, for any sets, ways, fetches and delays |
| WholeMemory.ProcessorSeesBytes | hdl/mp4.sv:50-217 | in bytes: each word read consists of the bytes last written |
| WholeMemory.Refines | hdl/mp4.sv:50-217 | every run is a run of the memory system over the line memory |
| WholeMemory.AnswersWhileWaiting | hdl/mp4.sv:50-217 | while a data request or a fetch waits the adaptor answers at most five times; that it does answer is the next two |
| WholeProgress.DataAnsweredInTime | hdl/mp4.sv:50-217 | on every run a data request waits for at most 35 clocks in which the adaptor is not stalled by the burst memory, and so for at most 35 in which that is ready |
| WholeProgress.FetchAnsweredInTime | hdl/mp4.sv:50-217 | and a fetch, at the port of the processor, for at most 37 |
| WholeProgress.AdaptorStep | hdl/cache/cacheline_adaptor.sv:44-96 | every clock of a held command that is not stalled brings its answer closer |
| Coherence.FetchesAreVersions | hdl/mp4.sv:50-217 | on every run each fetch gets its line as the plain memory had it then or at some earlier clock |
| Coherence.FetchesAreExact | hdl/mp4.sv:50-217 | from a line not stored to so far, what is in memory |
| Coherence.StaleFetch | hdl/mp4.sv:50-217 | from every start and for every line there is a run that stores to it, and to no other line, and then fetches the old line |
| Coherence.ExactIffNotStored | hdl/mp4.sv:50-217 | fetches from a line are exact on every run that stores only to certain lines if and only if it is not one of them |
| Barrier.Safety | testcode/coremark/source/riscv-baremetal/util.h:44-62 | for any threads and schedule, no thread leaves an episode before all have arrived in it, and none is more than one episode ahead |
| Barrier.CountIsClear | testcode/coremark/source/riscv-baremetal/util.h:52-56 | sense flips only while count is 0 |
| Barrier.NoDeadlock | testcode/coremark/source/riscv-baremetal/util.h:44-62 | when no thread inside can move, some thread is outside and all others inside wait for it |
| Barrier.MovesRunOut | testcode/coremark/source/riscv-baremetal/util.h:52-59 | every move brings the threads closer to being outside |
| Barrier.EpisodeCompletes | testcode/coremark/source/riscv-baremetal/util.h:44-62 | once all have entered, the episode ends with all threads outside and one release |
| Barrier.FiveMovesRelease | testcode/coremark/source/riscv-baremetal/util.h:44-62 | from any reachable state, five moves of each thread in any order release an episode, also while fast threads enter the next and slow ones leave the last |
| Barrier.ReleasedForEver | testcode/coremark/source/riscv-baremetal/util.h:44-62 | on every schedule the number of releases grows with the stretches in which all threads move five times, without end |
| Barrier.LeavesWhenReleased | testcode/coremark/source/riscv-baremetal/util.h:58-59 | a thread whose episode is released leaves with its next own move, whatever the others do before |

## Left out

- ListSort.MergeSort: does not take the empty list, for which the source writes through a null tail.
- ListCompare.CalcFunc: says which of the state and matrix benchmarks runs and with which step, but not what it returns; inside the sort that is any 16-bit value, computed without touching the list.
- ListBench.BenchList: does not take lists of fewer than three cells, on which the source follows null links.
- ListInit.Init: does not model the addresses of cells and items, only that both regions fit the block and do not overlap.
- StateInit.InitState: does not take blocks within 8 bytes of 2^32, where the sum in the loop condition wraps, nor size 0, where the source counts down from 2^32.
- StateBench.BenchState: does not take a block whose last NUL the corruption destroys, where the source reads on behind it.
- NumberText.Number: negates the most negative long in two's complement, where C leaves signed overflow undefined.
- NumberText.ParseVal: reads in two's complement, where C leaves signed overflow undefined.
- NumberRoundTrip.RoundTrip: covers bases 10 and 16, the two that parseval reads.
- Matrix.Sum: sums and scores in two's complement, where C leaves signed overflow undefined.
- RvfiMonitor.Monitor.Clock: passes whole records through the buffer instead of the 177 bits of each that are reassembled, and takes the ISA as a function.
- WholeMemory.Transparent: takes runs from reset without a further reset, of a processor that holds each request until it is answered; MemorySystem.Transparent does, too.
- ListRestore.Iterate: is about iterations whose calls all keep the order; after another call the source goes on from a cell inside its list. It returns crclist instead of writing it to the results block.
- Barrier.Safety: assumes sequential consistency and an atomic fetch-and-add; weak memory effects are left out.
- The processor datapath, the branch predictors, the prefetchers and the second-level cache, which the top level does not connect.
- Test benches, scripts, port layers, timing, floating point formatting, and the printing of reports.
