# PulsePins host software: a Dafny model

PulsePins turns pulse programs into run-length streams for an FPGA. Its host side is a small
language of pulse elements, several compilers and codecs for it, and a few stateful protocols.
This project models that logic and proves what it is for. `dafny verify dfyconfig.toml` checks all
of it.

| files | what they model |
|---|---|
| `ZipAggregator.dfy`, `ZipHandover.dfy` | the two-queue zipper: the lock-protected regions as a class, every interleaving of producers, stop callers, worker and notifications as a transition system, and what becomes of every item handed in |
| `VcdTime.dfy`, `VcdReader.dfy`, `VcdWriter.dfy`, `VcdRoundTrip.dfy`, `VcdScalar.dfy`, `VcdSyntax.dfy` | the VCD codec, from 64-bit timestamp scaling to the characters of the file, and what each kind of line means |
| `Timeline.dfy`, `Csv.dfy` | the browser's timeline compiler and its CSV printer and reader |
| `Elements.dfy`, `ElementUpdates.dfy`, `Updates.dfy`, `PulseSequence.dfy`, `Workflow.dfy`, `Superposition.dfy`, `NetEffect.dfy` | elements with their cached state, what their words make the hardware do, which updates make an earlier one irrelevant, why 33 words decide what a run of updates does, what a sequence means clock by clock, normalisation, merging, and the inferred final output |
| `Chars.dfy`, `Literals.dfy`, `NumberSyntax.dfy`, `TextFormat.dfy`, `TextFile.dfy`, `TextSyntax.dfy` | number syntax and the text form of sequences |
| `Ppbf.dfy`, `BinaryLayout.dfy` | the binary form of sequences, also byte by byte |
| `Spi.dfy`, `SpiBuilder.dfy`, `SpiTiming.dfy` | an SPI receiver written on its own, the waveform builder proved against it, and how long everything takes |
| `PllCalc.dfy` | the PLL counter search |
| `Readback.dfy`, `ReadbackCheck.dfy`, `EndToEnd.dfy` | bit fields out of the readback FIFO, the comparison with a reference, and what a passed comparison means |
| `Dma.dfy`, `StagingBuffer.dfy` | the descriptor scheduler and the staging buffer of the DMA transport |
| `Combiner.dfy`, `Controller.dfy` | the combiner register file and the web controller with its rollback |
| `Scpi.dfy` | the asynchronous reply queue of an SCPI session |
| `Scan.dfy`, `Bits.dfy`, `Wrappers.dfy` | shared definitions |

Code that changes fields or loops over variables is a class or a method, proved equal to a
specification function; the theorems are about those functions and about whole runs. An exception
is `Err`, `None`, a false result or an outcome of its own.

Findings about the code, each with its exact condition or a concrete input:

- `merge` alone is not meaning-preserving. Joining two neighbours keeps the stream for every
  previous output if and only if their update is idempotent (`PulseSequence.JoinKeepsWaveformIff`).
- `merge` throws if and only if a run of joinable neighbours exceeds 2^32-1 clocks
  (`PulseSequence.MergeFailure`).
- The text form keeps a sequence if and only if every element is expressible and any final element
  comes last (`TextFile.TextRoundTrip`). The binary form keeps it if and only if every element is
  canonical and any final element comes last (`Ppbf.BinaryRoundTrip`). A regular or final element
  built from a trigger condition is a trigger to the hardware; it is canonical only with count 0,
  so a final one never is (`Ppbf.RegularIsCanonicalIff`, `Ppbf.FinalIsCanonicalIff`).
- A sequence without any clock is exported to VCD as a single zero and comes back as one element of
  no length (`VcdRoundTrip.LoadsForm`).
- A sized Verilog literal is its value modulo 2^width if and only if the value has a word for every
  64-bit word of the width, or the width is a multiple of 64, or the value fits the bits kept of its
  own last word (`Literals.SizedLiteralIff`). So it holds up to 64 bits, and it fails for `65'h5`,
  which reads as 1 (`Literals.WideLiteralLosesBits`).
- Zero-count updates count for the stream but not for the inferred final output. The two disagree
  for a zero-count load of 1 followed by an OR with 0 (`Workflow.ZeroCountsDisagree`). A zero-count
  update can be left out, for every previous output, if and only if the next update absorbs it
  (`PulseSequence.DropKeepsWaveformIff`, `Workflow.DropFirstIff`), and then the two agree
  (`Workflow.InferredIsLastOutput`); sequences of loads always do (`Workflow.LoadsAreHarmless`).
  For any sequence the two agree for every initial output if and only if they agree for all zeros
  and the 32 single bits; without shifts, if and only if the sequence without its zero counts keeps
  and flips the same bits as the sequence up to its last clock (`NetEffect.InferredIff`).
- A CSV table is read back exactly if and only if none of its rows is blank, whichever line ends it
  has (`Csv.CsvRoundTrip`).
- The readback check passes if and only if the final element follows the last pulse directly, the
  delivered elements begin with the reference's pulses, and the FIFO is seen empty right after them
  (`ReadbackCheck.Check`). A trigger or zero-count element before the final one makes it time out.
  Elements read back carry no control word, so a reference can pass at all if and only if no pulse
  in it has one either (`ReadbackCheck.CanPassIff`), and a normalised sequence only if no pulse of
  the original suppresses its strobe or is stored (`EndToEnd.CanPassNormalised`).
- An SPI transfer fails if and only if one run of equal pin states exceeds 2^32-1 ticks. A
  transaction without bytes, setup and hold ticks never activates chip select, so the receiver sees
  no frame for it (`SpiBuilder.SendAll`).
- After a rollback the clock, trigger, combiner and override settings are the previous ones, but the
  tracked streamer output is the configured initial value (`Controller.Web.ResetHardware`).

## Model

| member | source | states |
|---|---|---|
| `ZipAggregator.Aggregator.constructor` | c++/zip_aggregator.hh:142-146 | a new zipper is empty, running and set to drain |
| `ZipAggregator.Aggregator.SubmitA` | c++/zip_aggregator.hh:39-47 | blocks exactly on a full queue of a running zipper, refuses exactly if stopping, appends otherwise, and changes nothing else |
| `ZipAggregator.Aggregator.SubmitB` | c++/zip_aggregator.hh:50-58 | the same for the other queue |
| `ZipAggregator.Aggregator.Stop` | c++/zip_aggregator.hh:62-76 | only the first stop sets the drain choice and owes notifications |
| `ZipAggregator.Aggregator.WorkerTurn` | c++/zip_aggregator.hh:93-107 | sleeps, exits or takes one pair from both fronts |
| `ZipAggregator.Aggregator.TaskThrew` | c++/zip_aggregator.hh:117-123 | the first failure is kept, and the zipper stops without draining |
| `ZipProtocol.StepKeepsInv` | c++/zip_aggregator.hh:39-131 | every step of every thread, and every notification, keeps the invariant of queues, pairs, worker and blocked producers |
| `ZipProtocol.RunInv` | c++/zip_aggregator.hh:39-131 | the invariant holds in every state of every run |
| `ZipProtocol.ZipsInOrder` | c++/zip_aggregator.hh:39-58 | in every state the i-th task call got the i-th accepted A and B, queues are within bounds, and accepted items are the taken ones followed by the queued ones |
| `ZipProtocol.StoppingIsFinal` | c++/zip_aggregator.hh:62-78 | once stopping begins nothing is accepted any more and the drain choice can only be cancelled by a failure; without drain no pair is taken any more |
| `ZipProtocol.ExitOutcome` | c++/zip_aggregator.hh:99-103 | a worker that exited with drain has processed exactly min(accepted A, accepted B) pairs; after a failure every call but the last returned |
| `ZipProtocol.DrainProcessesEverything` | c++/zip_aggregator.hh:60-78 | if the first stop asks for draining and no task throws, an exited worker has processed all accepted pairs |
| `ZipProtocol.QuiescentMeansIdle` | c++/zip_aggregator.hh:94-97 | no lost wake-up: with no internal step left, the worker sleeps only for lack of a pair and producers block only on a full queue of a running zipper |
| `ZipProtocol.StopTerminates` | c++/zip_aggregator.hh:62-78 | once stopping has begun, every continuation contains at most a fixed number of worker steps, however the other threads interleave |
| `ZipHandover.AttemptA` | c++/zip_aggregator.hh:37-47 | in every run a submit call with the lock blocks exactly if running and full, is turned away exactly if stopping, and has its item accepted otherwise |
| `ZipHandover.AttemptB` | c++/zip_aggregator.hh:49-58 | the same for the other queue |
| `ZipHandover.HandedInA` | c++/zip_aggregator.hh:37-47 | an item handed in is still with its thread, or was accepted, or was turned away by a zipper that was already stopping |
| `ZipHandover.HandedInB` | c++/zip_aggregator.hh:49-58 | the same for the other queue |
| `ZipHandover.NoneLostA` | c++/zip_aggregator.hh:37-47 | while the zipper runs, every item handed in is with its thread or accepted |
| `ZipHandover.NoneLostB` | c++/zip_aggregator.hh:49-58 | the same for the other queue |
| `ZipHandover.StopWithoutDrain` | c++/zip_aggregator.hh:60-78 | after a first stop without draining no pair is taken any more |
| `VcdTime.CheckedMul` | c++/vcd_parser.hh:78-82 | succeeds exactly when the product fits 64 bits |
| `VcdTime.MulDivFloorCapped` | c++/vcd_parser.hh:129-185 | exactly floor(a*b/d) when it is at most the limit, and an exception exactly when it is larger or the arguments are rejected; no intermediate exceeds 64 bits |
| `VcdTime.Accumulate` | c++/vcd_parser.hh:145-163 | one addition keeps quotient and remainder exact or saturated |
| `VcdTime.DoubleTerm` | c++/vcd_parser.hh:169-181 | doubling the term keeps it exact or saturated |
| `VcdTime.ScaleTimestamp` | c++/vcd_parser.hh:201-230 | equals the exact scaled time with unbounded integers, with the same refusals |
| `VcdTime.MatchedScaleIsIdentity` | c++/vcd_parser.hh:222-229 | with numerator = scale * denominator, file time and stream position coincide up to 2^32-1 |
| `VcdTime.ScalingIsMonotone` | c++/vcd_parser.hh:222-229 | scaling keeps the order of timestamps |
| `VcdReader.ParseTimestamp` | c++/vcd_parser.hh:201-230 | the number after # in strtoull syntax, scaled |
| `VcdReader.HandleLine` | c++/vcd_parser.hh:246-318 | one line of the file changes the reader as the step function says, with all its refusals |
| `VcdReader.ParseVcdUpdates` | c++/vcd_parser.hh:234-330 | the updates are the fold of the step function over the lines, closed by the last timestamp |
| `VcdReader.LoadVcd` | c++/sequence.hh:237-248 | the elements between consecutive updates, or a failure |
| `VcdScalar.ScalarIsVector` | c++/vcd_parser.hh:298-319 | a scalar line leads to the same reader as the one-bit vector line, or they fail together; what both do is said outright |
| `VcdScalar.LoadsBits` | c++/sequence.hh:237-248 | a file whose changes are written as scalars loads as the zeros and ones it spells |
| `VcdSyntax.ReadsVector` | c++/vcd_parser.hh:298-307 | a vector line for the signal records the number its binary digits spell if it fits 32 bits, and lines for others say nothing |
| `VcdSyntax.RefusedVector` | c++/vcd_parser.hh:298-307 | any other digits are refused |
| `VcdSyntax.ReadsMoment` | c++/vcd_parser.hh:282-288 | a time is accepted exactly if its decimal digits scale to 32 bits and it is not earlier than the last one |
| `VcdSyntax.CommandsIgnored` | c++/vcd_parser.hh:290-296 | commands among the changes, and changes while the signal is unknown, say nothing |
| `VcdSyntax.TimescaleText` | c++/vcd_parser.hh:67-119 | number and unit, in one word or two and in any case, are refused exactly for zero, no unit or overflow, and otherwise their ratio is the unit in nanoseconds |
| `VcdSyntax.TimescaleLines` | c++/vcd_parser.hh:249-264 | a timescale spread over lines is the one written on a single line |
| `VcdSyntax.DeclaresSignal` | c++/vcd_parser.hh:265-276 | a declaration of at least six words names the signal in its fifth word and gives its identifier in the fourth |
| `VcdSyntax.ClosesChanges` | c++/vcd_parser.hh:323-329 | a file without the signal or without a change of it is refused; otherwise the changes are closed at the last time |
| `VcdSyntax.OrderedTimes` | c++/sequence.hh:237-248 | changes give elements exactly if their times never go back |
| `VcdSyntax.ElementsBetween` | c++/sequence.hh:237-248 | each element lasts from its change to the next |
| `VcdWriter.WriteVcd` | c++/sequence.hh:250-311 | the written text is the declarations and the changes of the normal form, or a failure |
| `VcdWriter.WriteChanges` | c++/sequence.hh:291-310 | every change is written exactly once, and time overflow is detected |
| `VcdWriter.WriteFailure` | c++/sequence.hh:250-311 | writing fails exactly on elements that are not regular, on runs too long to merge and on time overflow |
| `VcdWriter.FormShape` | c++/sequence.hh:254-268 | the normal form consists of plain loads with different neighbours and has the length and the stream of the original |
| `VcdRoundTrip.LoadsForm` | c++/sequence.hh:237-311 | loading a written file with the matching scale gives exactly the written form, refused exactly beyond 2^32-1 clocks |
| `VcdRoundTrip.VcdRoundTrip` | c++/sequence.hh:237-311 | every regular sequence with clocks and at most 2^32-1 of them survives as its normal form, with the same output stream |
| `VcdRoundTrip.DefaultScaleMatches` | c++/vcd_parser.hh:28-29 | the defaults 10ns and 10 match |
| `VcdRoundTrip.ReadsTimescale` | c++/vcd_parser.hh:121-127 | the timescale line is read back as the timescale that was passed, however it is spaced |
| `Chars.PrintRoundTrip` | tidbit/misc.hh:124-154 | reading a number as printed gives it back, in any base from 2 to 16 |
| `Chars.LinesRoundTrip` | c++/vcd_parser.hh:243-244 | splitting a file into lines undoes joining them |
| `Chars.WriteLines` | c++/sequence.hh:387-397 | one line per item, or a failure at the first item without one |
| `Literals.SizedLiteralIff` | tidbit/parseVerilog.hh:169-185 | masking to a width is the value modulo 2^width exactly when all words of the width are present, or the width ends at a word, or the value fits the bits kept |
| `Literals.SizedDigitsIff` | tidbit/parseVerilog.hh:320-341 | the same for the digits of a based literal without unknown bits |
| `Literals.NarrowLiteral` | tidbit/parseVerilog.hh:169-185 | so up to 64 bits every sized literal is truncated to its width |
| `Literals.WideLiteralLosesBits` | tidbit/parseVerilog.hh:177-183 | the text 65'h5 is read as 1 although 5 fits its width |
| `NumberSyntax.NumberIsPositional` | tidbit/parseVerilog.hh:241-273 | reading digits from the left gives the sum of the digits times the powers of their places |
| `NumberSyntax.ParseUnsignedIff` | tidbit/misc.hh:124-154 | a plain text is accepted exactly if it spells a decimal, octal, hexadecimal or binary number in range, and then it is that number |
| `NumberSyntax.ParseStrictIff` | tidbit/misc.hh:124-154 | the strict parser accepts the same up to 64 bits, with or without a plus sign |
| `NumberSyntax.SignedText` | c++/vcd_parser.hh:201-221 | blanks and a plus sign in front change nothing, and a minus sign wraps around at 2^64 |
| `NumberSyntax.UnsizedLiteralIff` | tidbit/parseVerilog.hh:284-340 | a literal without width is accepted exactly if its digits belong to its base and fit 64 bits, signed or not, in either case of the letters |
| `NumberSyntax.SizedLiteral` | tidbit/parseVerilog.hh:284-340 | a width in front of the apostrophe masks the digits |
| `NumberSyntax.LiteralRefused` | tidbit/parseVerilog.hh:294-308 | a second apostrophe and a width that is no positive number are refused |
| `NumberSyntax.UnbasedBit` | tidbit/parseVerilog.hh:220-239 | an apostrophe and one character is 0 or 1, or refused |
| `NumberSyntax.UnknownDigits` | tidbit/parseVerilog.hh:164-167 | exactly x, z and the question mark are unknown digits, dropped above the width, and never allowed in base ten |
| `Literals.DecParses` | tidbit/misc.hh:124-154 | decimal numbers as written are parsed to themselves |
| `Literals.HexParses` | tidbit/misc.hh:124-154 | hexadecimal numbers as written are parsed to themselves |
| `PllCalc.Calculate` | c++/pll_calc.hh:167-191 | no result exactly outside the band; otherwise the strict setting with an error within 1e-9 Hz of the minimum and, among those, the smallest N, the VCO nearest 1 GHz, the smallest M and the smallest C; its figures are right by multiplication |
| `PllCalc.SearchM` | c++/pll_calc.hh:174-188 | skipping and breaking on the VCO limits loses no strict candidate |
| `PllCalc.SearchRow` | c++/pll_calc.hh:176-188 | one M: skipped below the VCO range, the last one above it, searched otherwise |
| `PllCalc.SearchC` | c++/pll_calc.hh:182-187 | the innermost loop keeps the winner of all candidates so far |
| `PllCalc.NothingAbove` | c++/pll_calc.hh:180 | beyond the VCO limit no larger M is strict |
| `PllCalc.BeatsIff` | c++/pll_calc.hh:149-165 | which of two settings wins, said without the comparison's own steps |
| `PllCalc.StrictIff` | c++/pll_calc.hh:138-147 | the limits on a setting as inequalities between whole numbers |
| `PllCalc.FrequenciesSeparated` | c++/pll_calc.hh:125-137 | two different achievable frequencies are more than 1 Hz apart |
| `PllCalc.TieIsTransitive` | c++/pll_calc.hh:149-154 | because of that separation the epsilon tie is transitive on achievable settings |
| `PllCalc.VcoDistanceExact` | c++/pll_calc.hh:158-161 | the epsilon comparison of VCO distances is exact |
| `PllCalc.BeatsIsTotal` | c++/pll_calc.hh:149-165 | of two different settings exactly one is better |
| `PllCalc.BeatsIsTransitive` | c++/pll_calc.hh:149-165 | the comparison is transitive on strict settings |
| `Timeline.CompileTimeline` | c++/ppwebgui_assets.cc:1396-1448 | refuses exactly malformed timelines and a missing status; otherwise bit b of an owned channel is in the output at cycle t exactly if some pulse on the channel with that bit covers t, other bits are as they were, records are positive and differ from their neighbours, and the total is the largest start + duration |
| `Timeline.Compile` | c++/ppwebgui_assets.cc:1406-1447 | the event sweep produces the ideal output, and nothing is active after the last event |
| `Timeline.Validate` | c++/ppwebgui_assets.cc:1322-1394 | accepts exactly the well-formed timelines, said without the sorting procedure |
| `Timeline.CheckChannels` | c++/ppwebgui_assets.cc:1330-1357 | names, bit range and distinct bits, and the mask of owned bits |
| `Timeline.ResolvePulses` | c++/ppwebgui_assets.cc:1359-1375 | every pulse gets the bit of its channel, its start, and start + duration as its end; refused exactly if some pulse is incomplete |
| `Timeline.TimelineOkIff` | c++/ppwebgui_assets.cc:1351-1391 | with distinct bits, being well-formed by the form's fields is having disjoint resolved pulses |
| `Timeline.ActiveIffWanted` | c++/ppwebgui_assets.cc:1359-1375 | a bit is active at a cycle exactly if some pulse of the form asks for it |
| `Timeline.LookupIff` | c++/ppwebgui_assets.cc:1352-1353 | an id means the bit of the last channel that has it |
| `Timeline.SortedCheckIsExact` | c++/ppwebgui_assets.cc:1377-1391 | sorting each channel and comparing neighbours accepts exactly the timelines without overlap |
| `Timeline.MinimalIsFewest` | c++/ppwebgui_assets.cc:1439-1444 | no other records with the same output are fewer than the compiled ones |
| `Timeline.CollectEvents` | c++/ppwebgui_assets.cc:1406-1421 | the events hold at each cycle the bits that start and end there |
| `Timeline.SortKeys` | c++/ppwebgui_assets.cc:1423 | the event cycles in increasing order |
| `Timeline.SweepStep` | c++/ppwebgui_assets.cc:1429-1433 | clearing the ending and then setting the starting bits gives the bits active from there on |
| `Timeline.Emit` | c++/ppwebgui_assets.cc:1434-1444 | appending or extending a record adds exactly its cycles and keeps neighbours different |
| `Csv.ParseCsvRows` | c++/ppwebgui_assets.cc:1948-1996 | the character machine reads the rows its specification says and drops blank ones |
| `Csv.CsvRoundTrip` | c++/ppwebgui_assets.cc:1940-1996 | reading a table gives its rows that are not blank, whatever their cells hold, for line feeds, carriage returns or both, and with or without a last line end; the table itself exactly if no row is blank |
| `Csv.StrayQuote` | c++/ppwebgui_assets.cc:1968-1972 | a quote inside a cell that did not start with one is refused |
| `Csv.UnclosedQuote` | c++/ppwebgui_assets.cc:1988-1990 | a cell whose closing quote is missing is refused |
| `Elements.El.Sync` | c++/elements.hh:260-269 | the cached kinds agree with the control word afterwards, and the three words are unchanged |
| `Elements.El.StoredIn` | c++/elements.hh:454-460 | storing changes only the control word, keeps the cache coherent and fails exactly on a slot out of range |
| `Elements.El.WithControl` | c++/elements.hh:467-474 | the result is coherent and differs only in its control word |
| `Elements.El.WithCount` | c++/elements.hh:476-480 | coherence is kept, and only the count changes |
| `Elements.El.WithCounter` | c++/elements.hh:482-489 | the result is coherent, with the new count and the old value |
| `Elements.El.WithRegularValue` | c++/elements.hh:491-500 | the result is coherent, with the new value and the old count; only regular elements are accepted |
| `Elements.El.AsBitLoadAfter` | c++/elements.hh:502-506 | a regular element becomes a load, of the same count, of the output it leads to; others are unchanged; coherence is kept |
| `Elements.El.SetValue` | c++/elements.hh:515-528 | the result is coherent, also when the kind of element changes |
| `ElementUpdates.RegularActs` | c++/elements.hh:353-355 | the words of a regular element make the hardware do what its value asks for, and so does its cache, unless the value is a trigger; the strobe is as the counter says |
| `ElementUpdates.WithRegularValueActs` | c++/elements.hh:491-500 | the same after the value of a regular element was replaced, with count and strobe kept |
| `ElementUpdates.SetValueActs` | c++/elements.hh:515-528 | the same after `set_value`, on regular and on final elements |
| `ElementUpdates.FinalActs` | c++/elements.hh:340-346 | the words of a final element end with what its value asks for, unless it is a trigger |
| `ElementUpdates.WithCounterActs` | c++/elements.hh:482-489 | replacing the counter keeps what a regular element does and sets the strobe as the counter says |
| `ElementUpdates.JoinKind` | c++/elements.hh:212-231 | the mode bits of a kind decode to that kind, whatever else is in the control word |
| `Elements.Make` | c++/elements.hh:325-334 | every constructed element is coherent and has the given words |
| `Elements.FromRaw` | c++/elements.hh:412-429 | every rebuilt element is coherent and has the given control word |
| `Elements.StoringKeepsFields` | c++/elements.hh:454-460 | storing changes neither mode nor strobe, and the slot can be read back if no slot bits were set |
| `Elements.SameElementsActAlike` | c++/elements.hh:611-613 | regular elements that compare equal act the same on every previous value |
| `Elements.RawRoundTrip` | c++/elements.hh:412-429 | a coherent regular element rebuilt from its words is equal, with the same kind |
| `Elements.NormalisedElement` | c++/elements.hh:502-506 | normalising never fails and loads the output the element produces |
| `PulseSequence.ConvertToBitLoad` | c++/sequence.hh:212-224 | equals the recursive normal form |
| `PulseSequence.BitLoadsKeepWaveform` | c++/sequence.hh:212-224 | normalising keeps the stream and the length, and the result no longer depends on the previous output |
| `PulseSequence.Merge` | c++/sequence.hh:227-233 | the in-place erase and insert loop equals joining from the left |
| `PulseSequence.MergeShape` | c++/sequence.hh:227-233 | nothing joinable is left and no clock is lost |
| `PulseSequence.MergeIsIdempotent` | c++/sequence.hh:227-233 | merging twice is merging once |
| `PulseSequence.MergeFailure` | c++/sequence.hh:151-156 | merging throws exactly if some run of joinable neighbours exceeds 2^32-1 clocks |
| `Updates.AbsorbsIff` | c++/elements.hh:26-54 | an update is lost in the next one, whatever the output was before, exactly if the bits it may change and the bits the next one reads are disjoint, for all eleven modes |
| `Updates.ReadsExactly` | c++/elements.hh:26-54 | the new output is determined by the bits read and determines them |
| `Updates.ChangesExactly` | c++/elements.hh:26-54 | masked bits stay as they were exactly if none of them may change |
| `Updates.IdempotentIff` | c++/elements.hh:26-54 | the table of idempotent updates is exact |
| `PulseSequence.JoinKeepsWaveformIff` | c++/sequence.hh:229-231 | joining two neighbours keeps the stream for every previous output exactly when the update is idempotent |
| `PulseSequence.DropKeepsWaveformIff` | c++/ppworkflow.hh:148-150 | leaving out a zero-count update keeps the stream for every previous output exactly when the next one absorbs it |
| `PulseSequence.MergeKeepsWaveform` | c++/sequence.hh:227-233 | merging keeps the stream if every update that is joined with a neighbour is idempotent; the others may be anything |
| `PulseSequence.WaveformLength` | c++/sequence.hh:173-179 | the stream has as many clocks as `length` says |
| `Workflow.InferFinalOutput` | c++/ppworkflow.hh:143-160 | the inferred output for every kind of sequence, and the failure exactly on a misplaced final |
| `Workflow.InferredWithoutZeros` | c++/ppworkflow.hh:143-160 | the inferred output is always the last output of the sequence without its zero counts |
| `Workflow.DropZeroKeepsWaveform` | c++/ppworkflow.hh:148-150 | if every zero-count update is absorbed by the next one or followed by no clock, leaving them out keeps the stream |
| `Workflow.InferredIsLastOutput` | c++/ppworkflow.hh:143-160 | and then the inferred output is the last output of the stream |
| `NetEffect.InferredIff` | c++/ppworkflow.hh:143-160 | for any sequence, inferred and last output agree for every initial output exactly if they agree for all zeros and the 32 single bits; without shifts also exactly if the net effects, as masks of kept and flipped bits, are equal |
| `NetEffect.SameEffectIff` | c++/sequence.hh:212-224 | two sequences lead from every output to the same output exactly if they do so from all zeros and the 32 single bits |
| `Superposition.ActAdditive` | c++/elements.hh:26-54 | each of the update modes maps the exclusive or of three outputs to the exclusive or of the three results |
| `Workflow.DropFirstIff` | c++/ppworkflow.hh:148-150 | in front of elements that last, a zero-count update may be left out exactly if it is absorbed |
| `Workflow.LoadsAreHarmless` | c++/ppworkflow.hh:148-150 | in a sequence of loads every zero count is harmless |
| `Workflow.PositiveIsHarmless` | c++/ppworkflow.hh:148-150 | and so it is when all counts are positive |
| `Workflow.ZeroCountsDisagree` | c++/ppworkflow.hh:148-150 | a sequence whose last output is 1 and whose inferred output is 0 |
| `Workflow.ConvertForReadbackCheck` | c++/ppworkflow.hh:64-67 | normalisation followed by merging |
| `Workflow.NormalisedStream` | c++/ppworkflow.hh:64-67 | the normalised and merged sequence has the same stream and length, is fully merged, and fails exactly on too long a run |
| `Workflow.NoModifyFinal` | c++/ppworkflow.hh:138-141 | the words of the default final element keep whatever is on the outputs |
| `Workflow.AppendFinalOutput` | c++/ppworkflow.hh:162-191 | a final element is added if there is none, exactly conflicting policies and misplaced final elements fail, and the reported value is what the words of the final element make of the output, or nothing exactly if none was asked for and an opaque element comes before |
| `TextFormat.SurvivesIff` | c++/elements.hh:569-603 | an element written and parsed again is equal exactly when it is expressible |
| `TextFormat.TokenOfControl` | c++/elements.hh:385-408 | the token of an expressible control word names exactly that word |
| `TextFormat.StoredSurvives` | c++/elements.hh:572-577 | stored elements keep their slot |
| `TextSyntax.RegularRecordMeans` | c++/sequence.hh:438-456 | each of the twelve tokens with a count and a value, in any number syntax, is the update it names, with or without strobe |
| `TextSyntax.RegularRefused` | c++/sequence.hh:438-448 | a count or value that is no 32-bit number is refused |
| `TextSyntax.StoreRecordMeans` | c++/sequence.hh:457-462 | the same kept in one of eight slots; another slot is refused |
| `TextSyntax.ReplayRecordMeans` | c++/sequence.hh:463-467 | a replay of at most eight elements, refused beyond that |
| `TextSyntax.SingleWordsMean` | c++/sequence.hh:468-495 | `rt` retriggers with the default value, `f` asks to force the trigger |
| `TextSyntax.PrngRecordMeans` | c++/sequence.hh:470-474 | pseudo-random values for a number of cycles |
| `TextSyntax.FinalRecordMeans` | c++/sequence.hh:475-479 | the words of the final element leave the given value on the outputs |
| `TextSyntax.ConditionRecordMeans` | c++/sequence.hh:480-493 | eight-bit pattern and mask of a last or not last trigger condition; anything larger is refused |
| `TextSyntax.Arities` | c++/sequence.hh:455-498 | which tokens there are and how many words follow each |
| `TextSyntax.FileMeans` | c++/sequence.hh:450-501 | whole records one after another are their elements in order, a request to force the trigger counts anywhere, and one refused record refuses the file |
| `TextSyntax.FileRefused` | c++/sequence.hh:450-499 | an unknown token or an incomplete record refuses the file |
| `TextFile.WriteSequence` | c++/sequence.hh:387-397 | the text, or a failure exactly if some element has no text form |
| `TextFile.ParseSequence` | c++/sequence.hh:414-502 | the meaning of the words of the text, or a failure |
| `TextFile.ParsedText` | c++/sequence.hh:387-502 | the words of a written text are parsed record by record |
| `TextFile.TextRoundTrip` | c++/sequence.hh:387-502 | sequence and force flag survive exactly when every element is expressible and any final comes last |
| `Ppbf.LeRoundTrip` | c++/sequence.hh:62-82 | little-endian writing and reading are inverse for every number that fits |
| `Ppbf.ElRoundTrip` | c++/sequence.hh:329-333 | the twelve bytes of an element decode to its three words |
| `Ppbf.CanonicalIff` | c++/elements.hh:412-429 | rebuilding an element from its words gives an equal one exactly if its fields are canonical, kind by kind |
| `BinaryLayout.ReadIsSum` | c++/sequence.hh:72-82 | reading little-endian bytes gives the sum of the bytes times the weights of their positions |
| `BinaryLayout.ElementLayout` | c++/sequence.hh:329-333 | an element is its control word, count and value, four bytes each, lowest byte first |
| `BinaryLayout.HeaderBytes` | c++/sequence.hh:132-149 | what is checked of the header, byte by byte; the two counts must agree |
| `BinaryLayout.AcceptedIff` | c++/sequence.hh:346-361 | a byte string is accepted exactly if its header is right, its length is as announced, every record is an element and a final element comes last; then it means those elements |
| `BinaryLayout.RawIsElement` | c++/elements.hh:412-429 | three words are refused exactly for too long a replay or an unknown mode |
| `BinaryLayout.StagedBytes` | c++/streamer_dma.hh:70-98 | the staging buffer holds, byte for byte, the elements of the binary format |
| `Ppbf.HeaderRoundTrip` | c++/sequence.hh:84-149 | a written header passes validation and gives back count and flag |
| `Ppbf.WriteBinary` | c++/sequence.hh:325-334 | header and elements of the sequence |
| `Records.ReadRecords` | c++/sequence.hh:349-355 | reads the announced records, failing exactly if one is rejected or missing |
| `Ppbf.ReadBinary` | c++/sequence.hh:346-361 | equals the meaning of the byte string, with all its refusals |
| `Ppbf.BinaryRoundTrip` | c++/sequence.hh:325-361 | a sequence is read back with its flag exactly if every element is canonical and any final element is last |
| `Ppbf.AcceptedLength` | c++/sequence.hh:346-361 | an accepted file has exactly 48 + 12 * count bytes |
| `Ppbf.PrefixFree` | c++/sequence.hh:346-361 | no proper prefix or extension of an accepted file is accepted |
| `Ppbf.SimpleAreCanonical` | c++/elements.hh:348-371 | loads, triggers, retriggers and PRNG elements are canonical |
| `Ppbf.ReplayIsCanonical` | c++/elements.hh:364-365 | a replay is refused exactly if it is too long, and canonical otherwise |
| `Ppbf.RegularIsCanonicalIff` | c++/elements.hh:353-355 | canonical exactly unless it is built from a trigger condition with a nonzero count |
| `Ppbf.FinalIsCanonicalIff` | c++/elements.hh:338-346 | canonical exactly unless it is built from a trigger condition |
| `Spi.HalfPeriodIsNearest` | c++/SPI.hh:45-52 | r ticks exactly if the decoder clock is (2r - 1) to (2r + 1) times the SPI clock, one tick also below that, and a failure exactly beyond 2^32-1 ticks |
| `Spi.PinsDecode` | c++/SPI.hh:172-183 | each pin of a composed word reads back as its level, for any distinct pins |
| `Spi.WordBits` | c++/SPI.hh:124-132 | a 16-bit word goes out from bit 15 down or from bit 0 up |
| `SpiTiming.PinsAre` | c++/SPI.hh:172-183 | four pins show their levels, the auxiliary one too, and all others are low |
| `SpiTiming.BitWave` | c++/SPI.hh:198-211 | a bit is one half period at each clock level, first the level its mode asks for |
| `SpiTiming.TransactionTicks` | c++/SPI.hh:102-106 | a transaction takes setup, sixteen half periods per byte, hold, and at least one idle tick |
| `SpiTiming.SentTicks` | c++/SPI.hh:58-138 | the sequence that is sent lasts exactly that long |
| `SpiTiming.TransactionQuiet` | c++/SPI.hh:102-106 | through a transaction the auxiliary pin keeps its level and unwired pins stay low |
| `Spi.BytesRoundTrip` | c++/SPI.hh:114-122 | grouping the bits of bytes gives the bytes back, in either bit order |
| `SpiBuilder.SequenceBuilder.constructor` | c++/SPI.hh:43-64 | a new builder is deselected and has emitted one idle tick |
| `SpiBuilder.SequenceBuilder.AppendRun` | c++/SPI.hh:189-194 | a run is extended or begun; fails exactly if extending the last run overflows its count |
| `SpiBuilder.SequenceBuilder.EmitState` | c++/SPI.hh:185-196 | exactly the given levels for the given ticks are emitted, or a run overflows |
| `SpiBuilder.SequenceBuilder.Select` | c++/SPI.hh:77-82 | emits the setup ticks; no bit is received, and the receiver sees chip select exactly if there are any |
| `SpiBuilder.SequenceBuilder.Deselect` | c++/SPI.hh:84-90 | emits hold and idle ticks; the receiver has finished the frame and seen at least one idle tick |
| `SpiBuilder.SequenceBuilder.WriteBit` | c++/SPI.hh:198-211 | emits the two half periods; the receiver samples exactly that bit, cleanly; fails exactly when not selected or a run overflows |
| `SpiBuilder.SequenceBuilder.WriteByte` | c++/SPI.hh:114-122 | emits the eight bits in order, and the receiver samples them |
| `SpiBuilder.SequenceBuilder.WriteBytes` | c++/SPI.hh:92-95 | emits the states of all bits of all bytes, failing exactly if a run overflows or it is not selected |
| `SpiBuilder.SequenceBuilder.WriteWord16` | c++/SPI.hh:124-132 | two bytes in the bit order's own order |
| `SpiBuilder.SequenceBuilder.WriteTransaction` | c++/SPI.hh:102-106 | emits exactly the states of one transaction, failing exactly if a run overflows |
| `SpiBuilder.TwoHalves` | c++/SPI.hh:202-210 | the two half periods of a bit give one clean sample in every mode |
| `SpiBuilder.SentIsReceived` | c++/SPI.hh:198-211 | whatever bits were emitted, the receiver has clocked in exactly those |
| `SpiBuilder.HearTransaction` | c++/SPI.hh:102-106 | from the states of a transaction the receiver gets one more frame with exactly these bits |
| `SpiBuilder.EmittedIsHeard` | c++/SPI.hh:185-196 | what a receiver sees of the run-length sequence is what it hears of the states |
| `Spi.PushAllIsMerge` | c++/SPI.hh:189-194 | appending states one by one is merging the list of all of them |
| `SpiBuilder.SendAll` | c++/SPI.hh:58-138 | for every configuration, list of transactions and auxiliary level, an independent receiver recovers exactly the bytes; it fails exactly if some run of equal pin states exceeds 2^32-1 ticks |
| `FifoFields.FieldReader.ReadField` | c++/readback.hh:66-91 | the next bits of the stream, most significant first, fetching only the words they need |
| `FifoFields.FieldReader.ReadFields` | c++/readback.hh:66-91 | any series of widths gives consecutive slices and consumes exactly ceil(total / 32) words |
| `FifoFields.FieldReader.ReadElement` | c++/readback.hh:292-303 | three words are consumed, the first is ignored and the others are count and value of a load; fails exactly if there are fewer |
| `FifoFields.MaskedValue` | c++/readback.hh:55-64 | masking to the low bits is the value of those bits |
| `FifoFields.ShiftDivides` | c++/readback.hh:55-91 | shifting divides by a power of two and masking takes the remainder |
| `ReadbackCheck.Check` | c++/readback.hh:379-443 | true exactly if the run passes, for every batching, and then the elements read are exactly the reference's pulses |
| `ReadbackCheck.NextPulse` | c++/readback.hh:405-412 | removes up to and including the next element that encodes a pulse |
| `ReadbackCheck.CanPassIff` | c++/readback.hh:292-443 | some words and some answers let a reference pass exactly if its final element follows its last pulse directly and no pulse has a control bit set |
| `EndToEnd.PassedCheckMeansStream` | c++/ppworkflow.hh:64-67 | if the check passes against the normalised reference, the elements made up by the words read are, as a stream, what the original sequence means |
| `EndToEnd.CanPassNormalised` | c++/ppworkflow.hh:64-67 | a sequence can pass against its own normalised form exactly if that form's final element follows its last pulse directly and no pulse of the sequence has a control bit other than its mode |
| `Dma.Engine.Run` | c++/streamer_dma.hh:181-190 | a started engine consumes from the front, a stopped one nothing |
| `Dma.Engine.Enqueue` | tidbit/dma.hh:197-206 | one descriptor is added, refused exactly for an address over 32 bits |
| `Dma.Engine.AwaitSpace` | c++/streamer_dma.hh:181-190 | returns with fewer than 30 descriptors or on a stall, and never polls a stopped engine in vain if there was space |
| `Dma.EnqueueRange` | c++/streamer_dma.hh:45-54 | refused exactly for empty, outside or unaddressable ranges |
| `Dma.RangeOkIff` | c++/streamer_dma.hh:45-54 | what is accepted lies in the buffer and below 4 GiB |
| `Dma.Round` | c++/streamer_dma.hh:173-191 | one more copy, with the engine started in the 29th round |
| `Dma.TransferMultipleTimes` | c++/streamer_dma.hh:164-208 | for every engine behaviour the consumed descriptors are that many copies and the optional terminator, the FIFO never holds more than 30, and space is never awaited from a stopped engine |
| `StagingBuffer.Buffer.Prepare` | c++/streamer_dma.hh:90-98 | the buffer holds the sequence and the rest is untouched, or a failure exactly if it does not fit |
| `StagingBuffer.Buffer.WriteElement` | c++/streamer_dma.hh:70-87 | three words are written, nothing else changes |
| `StagingBuffer.Buffer.Verify` | c++/streamer_dma.hh:116-146 | true exactly if the buffer holds the sequence |
| `StagingBuffer.HeldIsUnique` | c++/streamer_dma.hh:116-146 | a buffer that verifies against two sequences of one length shows they are equal |
| `Combiner.Block.WriteCfg` | c++/combiner.hh:164-167 | the shadow is set before the register, so a fault leaves them different |
| `Combiner.Block.GetForce` | c++/combiner.hh:338-361 | selects the stored value rather than the live one and returns what is read |
| `Combiner.Block.Force` | c++/combiner.hh:323-336 | stores the value and then sets the force flag of the port; a fault may come in between |
| `Combiner.Block.Mode` | c++/combiner.hh:153-157 | replaces the mode bits of the shadow and writes it |
| `Combiner.Block.ResetPassthrough` | c++/combiner.hh:175-183 | all registers as after a hardware reset |
| `Combiner.Block.SelfTest` | c++/combiner.hh:418-467 | for arbitrary readings every register ends as it was read, also after an early break, and the result is 0 exactly if every readback matched |
| `Combiner.TrueReadings` | c++/combiner.hh:420-440 | with true readings the registers end as they began |
| `Controller.RealisesIff` | c++/ppwebgui_service.cc:545-563 | being in step, register by register: the override forces its value on the output, everything else is the base configuration |
| `Controller.ApplyPort` | c++/ppwebgui_service.cc:520-529 | after success the port is realised and no other port or mode bit changes; a fault at any register write may leave it half done |
| `Controller.ApplyEffective` | c++/ppwebgui_service.cc:555-559 | after success the registers realise the configuration, whatever they held before |
| `Controller.Web.ApplyCombiner` | c++/ppwebgui_service.cc:545-563 | after success the registers realise the request overlaid with the override, whatever the shadow was |
| `Controller.Web.ApplyOverride` | c++/ppwebgui_service.cc:531-543 | after success the override is tracked and the output combiner is in step |
| `Controller.Web.ApplyTrigger` | c++/ppwebgui_service.cc:565-578 | tracked only if every register was written |
| `Controller.Web.ResetHardware` | c++/ppwebgui_service.cc:409-428 | after success everything given is tracked and realised; it fails only on a fault or an invalid clock |
| `Controller.Web.ApplyOrRestore` | c++/ppwebgui_service.cc:430-446 | after a failed attempt and a successful restore all tracked settings are the previous ones |
| `Controller.Web.ApplyClockConfig` | c++/ppwebgui_service.cc:219-242 | refused with nothing touched, applied, or rolled back to exactly the previous settings; only a second fault can lose them |
| `Controller.Web.Reset` | c++/ppwebgui_service.cc:268-292 | tracked settings survive a reset that fails once |
| `Controller.Web.ApplyCombinerConfig` | c++/ppwebgui_service.cc:256-260 | after success the output is in step with the new base configuration |
| `Controller.Web.ApplyTriggerConfig` | c++/ppwebgui_service.cc:262-266 | the output combiner stays in step, even after a failure |
| `Controller.RealisedIsUnique` | c++/ppwebgui_service.cc:520-563 | registers realise at most one configuration |
| `Scpi.Session.Write` | c++/scpi_server.hh:309-315 | the message is queued, and written at once if nothing is under way |
| `Scpi.Session.StartNextWrite` | c++/scpi_server.hh:321-333 | starts the front message, or closes if a close is pending |
| `Scpi.Session.WriteDone` | c++/scpi_server.hh:334-347 | pops the message, then starts the next one or closes on an error |
| `Scpi.Session.CloseAfterWrites` | c++/scpi_server.hh:296-302 | closes at once or remembers to |
| `Scpi.StepKeepsInv` | c++/scpi_server.hh:296-347 | every callback finds the message it needs and keeps the invariant |
| `Scpi.WritesInOrder` | c++/scpi_server.hh:309-347 | in every run at most one write is outstanding and the delivered messages are a prefix of the enqueued ones |
| `Scpi.RepliesInOrder` | c++/scpi_server.hh:309-347 | what has been delivered are the first messages written, one per successful completion; without write errors the others are still queued in order |
| `Scpi.EofTakesEffect` | c++/scpi_server.hh:296-333 | after the end of input the socket is closed whenever nothing is left to write |
| `Scpi.StaysOpen` | c++/scpi_server.hh:290-347 | nothing but the end of input, a forced close or a failed write closes the socket |
| `Scpi.EofClosesWhenDrained` | c++/scpi_server.hh:296-330 | without write errors the close after end of input happens only when everything has been delivered |
| `Scpi.CloseIsNotForgotten` | c++/scpi_server.hh:321-330 | a postponed close never stays pending on an idle open socket |
| `Scpi.DrainingCloses` | c++/scpi_server.hh:321-347 | as many completions as there are queued messages deliver them all and close the socket |

## Left out

- Doubles are replaced by reals in the PLL search and in the SPI half period, so rounding is not modelled.
- Bit masks of the timeline and the configuration word of the combiner are sets of bit positions.
- Parsing of the timeline's text fields and time units: pulses come with start and duration as numbers.
- Concurrent calls of `stop` that race in `join`, and the destructor of the zipper: the protocol ends with the worker's exit.
- What replay, retrigger, PRNG and stored elements make the hardware do: they are opaque except in the codecs.
- The mutating members of `el` (`store`, `set_control`, `set_count`, `set_value`) are modelled by the values they leave behind; aliasing plays no part.
- Wall-clock timeouts are running out of polls in the readback check and in the DMA waits; the rest of `readback` is not modelled.
- Dma.TransferMultipleTimes: an engine that stalls may end it with a time-out, which is all that can be promised of it.
- Dma.Engine.Run: the internal states of the DMA engine and its error flags are not modelled.
- The VCD round trip takes names without blanks or line breaks, timescales without `$`, and dates that do not look like a keyword.
- `strtoull` is modelled for the C locale and without the binary prefixes of later C standards.
- Workflow.InferredIsLastOutput: needs every zero-count update to be absorbed by the next one or followed by no clock; the exact condition for all initial outputs is `NetEffect.InferredIff`.
- Ppbf.BinaryRoundTrip: stream write errors are not modelled.
- Elements of the web controller other than clock, trigger, combiner and override settings, such as streaming and status reports.
- Controller.Web.constructor: the configuration it applies at the end is the separate method `ApplyCombiner`, and nothing is said about the trigger combiner.
- `handle_command`, command matching and the read side of SCPI sessions: they would add case tables.
- Import of timelines from CSV or JSON beyond splitting the text into cells.
- RTL, register maps, I2C, PLL reconfiguration, HTTP routes, JSON, frequency formatting and control loops.
