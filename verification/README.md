# QR symbols, output ancestry and block storage

This project models three parts of the program and proves what they are for.

**The QR encoder** (`external/qrcodegen/QrCode.cpp`). Field arithmetic, Reed-Solomon division,
block splitting and interleaving, segments, version and level choice, drawing, masking and
penalties, up to the finished symbol. The main results:

- Every emitted block is a Reed-Solomon codeword, its error correction bytes are the only ones that
  make it one, and a symbol damaged in at most half of these bytes per block determines its data
  (`EncodedIsCodeword`, `EccIsUnique`, `DamageIsRepairable`, `DamagedSymbol`).
- A reader that follows ISO/IEC 18004:2015, and sees only the modules, finds in every finished symbol
  the fixed patterns, the version, level and mask, blocks without errors, and what the segment
  factories were given, for every list that fits (`SymbolRoundTrip`, `EncodeSegments`, `EncodeText`).
  The reader (`StandardReader`, `Decoder`) uses the tables and rules of `Standard.dfy`, which state the
  standard on their own and share nothing with the encoder; `Conformance`, `StandardTables`,
  `FormatWords`, `VersionWords`, `CodewordOrder` and `FieldNumbers` prove that the encoder follows them.
- The finished symbol is the candidate that was scored for the chosen mask (`Create`), and the score,
  computed from a history of runs, is the number of points that the standard gives for the modules
  (`ScoreIsStandard`).
- None of the internal assertions and range checks of the encoder can fail.

**The ancestry tool** (`src/blockchain_utilities/blockchain_ancestry.cpp`). The caches, the forward
pass with stopping and resuming, and the backward search. The main results: caches are invisible;
any number of interrupted sessions over a growing chain ends in the transitive closure of the ring
references (`RunSessions`); the search without visited set ends exactly when the references can be
put in order (`SearchEndsIff`), as they are on a well-formed chain, where it counts all reference
paths (`Search`); its reported total is their number exactly when no counter wraps and the number
fits 64 bits (`SearchReport`), which fails on a chain of 34 blocks (`CounterWraps`).

**Block storage** (`src/blockchain_db/blockchain_db.cpp`, over the LMDB primitives). Adding and
popping blocks. The main results: after every run the tables hold the current chain and the spent
keys are the disjoint union of its key images (`EveryRun`); popping undoes adding exactly when both
sides agree on all output amounts of the block (`BlockUndoIff`), and then popped blocks leave no
trace (`RunIsBuild`); the output tables describe exactly the outputs of the chain (`EveryRunDescribed`).

## Where the code does less than it seems

- Adding stores outputs under amount 0 for a version 2 transaction with some coinbase input;
  removing looks there only if the coinbase input is the only one. A block whose miner transaction
  has a second input can be added and then not be popped (`UnpoppableBlock`). `AmountsAgree` is the
  exact condition, for transactions in `TxUndoIff` and for blocks in `BlockUndoIff`.
- The reported number of RingCT outputs can be less than the stored number (`UnreportedOutput`);
  `RctAccount` is the exact balance, and `ReportedIsStored` gives equality for well-formed inputs.
- The counters of the backward search have 32 bits and wrap silently, and its total has 64;
  `ReportedTotal` is the exact condition for a correct total.
- The backward search does not end on a cycle of references (`CycleNeverEnds`,
  `SelfReferenceNeverEnds`); `SearchEndsIff` is the exact condition, on every database.

## Form of the model

Loops and objects of the program are methods and classes (`QrCode`, `BitBuffer`, `State`,
`BlockchainDb`) that are proved against functions on values; the laws are lemmas about these
functions. Exceptions are `None`, `false` or an error constructor. Bytes are datatypes of eight bits,
grids are sequences of rows. Hashes, keys and commitments are identifiers. The primitives of the
database are taken from `src/blockchain_db/lmdb/db_lmdb.cpp`.

Where section 7.8.3 of ISO/IEC 18004:2015 leaves the evaluation of masks open, `Standard.dfy` follows the
code: what lies outside a symbol is light, a finder-like pattern may have any unit and needs light of one
unit on the side that lacks four, and counts twice with four units on both sides.

A chain is well-formed for the ancestry tool when transactions are distinct and readable, miner
transactions are coinbase transactions, and every ring reference resolves to an output of an earlier
transaction.

## Model

| member | source | states |
|---|---|---|
| Gf256.XTimeIsReducedShift | external/qrcodegen/QrCode.cpp:774-781 | doubling in the field is the shift of the multiplication loop, reduced by 0x11D |
| Gf256.Multiply | external/qrcodegen/QrCode.cpp:772-782 | the Russian peasant loop computes the product in GF(2^8/0x11D), and its range check never fails |
| Gf256.MulXorLeft | external/qrcodegen/QrCode.cpp:772-782 | the product distributes over sums on the left, for all bytes |
| Gf256.MulXorRight | external/qrcodegen/QrCode.cpp:772-782 | the product distributes over sums on the right, for all bytes |
| Gf256.MulCommutes | external/qrcodegen/QrCode.cpp:772-782 | the product is commutative |
| Gf256.MulAssociates | external/qrcodegen/QrCode.cpp:772-782 | the product is associative |
| FieldNumbers.ValueOfXTime | external/qrcodegen/QrCode.cpp:774-781 | on the numbers of bytes, doubling is doubling modulo 100011101 |
| FieldNumbers.ValueOfMul | external/qrcodegen/QrCode.cpp:772-782 | the product is the product of the standard, stated on numbers with their own sum and doubling |
| ReedSolomon.MultiplyRound | external/qrcodegen/QrCode.cpp:748-753 | one in-place round of the generator loop, byte by byte |
| ReedSolomon.RoundStep | external/qrcodegen/QrCode.cpp:745-754 | a round takes the array from the product of i factors (x - 2^j) to the product of i + 1, dropping the leading term in the last round only |
| ReedSolomon.ComputeDivisor | external/qrcodegen/QrCode.cpp:734-756 | succeeds exactly for degrees 1..255 and returns the product of all factors without its leading coefficient |
| ReedSolomon.GeneratorIsProduct | external/qrcodegen/QrCode.cpp:739-756 | the generator evaluates to the product of the factors at every point |
| ReedSolomon.GeneratorIsMonic | external/qrcodegen/QrCode.cpp:739-756 | its leading coefficient, which the program does not store, is 1 |
| ReedSolomon.ComputeRemainder | external/qrcodegen/QrCode.cpp:759-769 | the shifting loop computes the remainder; the only failure is an empty divisor with data to divide |
| ReedSolomon.RemainderAtRoot | external/qrcodegen/QrCode.cpp:759-769 | at every root of the divisor, the shifted data and the remainder have the same value |
| ReedSolomon.EncodedIsCodeword | external/qrcodegen/QrCode.cpp:734-782 | data followed by its remainder vanishes at 2^0 .. 2^(degree-1), for all data and degrees |
| FieldNumbers.ValueOfRoot | external/qrcodegen/QrCode.cpp:745-754 | the roots of the generator are the powers 1, 2, 4, ... of the standard, as numbers |
| FieldNumbers.VanishesAsNumbers | external/qrcodegen/QrCode.cpp:734-782 | what vanishes at a root vanishes, as numbers, at the power of 2 by the arithmetic of the standard |
| ReedSolomonDistance.DifferenceCancels | external/qrcodegen/QrCode.cpp:772-782 | 2 has order 255: differences of distinct powers cancel in products |
| ReedSolomonDistance.MinimumWeight | external/qrcodegen/QrCode.cpp:734-782 | a codeword of at most 255 bytes that is not zero has more than degree bytes that are not zero |
| ReedSolomonDistance.MinimumDistance | external/qrcodegen/QrCode.cpp:734-782 | two codewords of the same length differ in more than degree bytes |
| ReedSolomonDistance.ErrorsAreCorrectable | external/qrcodegen/QrCode.cpp:734-782 | a received word is within degree/2 byte errors of at most one codeword |
| ReedSolomonDistance.EccIsUnique | external/qrcodegen/QrCode.cpp:759-769 | a tail completes the data to a codeword if and only if it is the computed remainder |
| Interleaver.Layout.DataExhausted | external/qrcodegen/QrCode.cpp:540-545 | the block lengths add up to the data length, for every block count, ECC length and raw length |
| Interleaver.Layout.RowsAddUp | external/qrcodegen/QrCode.cpp:553-561 | the rows without padding bytes add up to the raw length |
| Interleaver.SplitIntoBlocks | external/qrcodegen/QrCode.cpp:540-551 | the blocks are consecutive parts of the data with their remainders, padded in short blocks |
| Interleaver.SplitIsComplete | external/qrcodegen/QrCode.cpp:540-551 | the data parts of the blocks, joined, are the data: nothing lost or repeated |
| Interleaver.BlocksAreCodewords | external/qrcodegen/QrCode.cpp:542-550 | every emitted block vanishes at all roots of the generator: it is a Reed-Solomon codeword |
| Interleaver.InterleaveBlocks | external/qrcodegen/QrCode.cpp:553-561 | the nested loops emit the rows in order and skip exactly the padding bytes |
| Interleaver.AddEccAndInterleave | external/qrcodegen/QrCode.cpp:529-565 | fails exactly on a wrong data length; otherwise emits the raw length, and de-interleaving returns every block |
| Interleaver.DeinterleaveIsInjective | external/qrcodegen/QrCode.cpp:553-561 | two streams with the same blocks are equal, so the de-interleaver loses nothing |
| CodewordOrder.PlacesAgree | external/qrcodegen/QrCode.cpp:553-561 | the data codewords of every block lie in the places that section 7.6 of ISO/IEC 18004:2015 gives by formula, for every layout and stream |
| CodewordOrder.CheckPlaceAgrees | external/qrcodegen/QrCode.cpp:553-561 | the error correction codewords follow all data codewords, in turns of the blocks |
| CodewordOrder.InterleavedVanishes | external/qrcodegen/QrCode.cpp:529-565 | taken from these places as numbers, every block vanishes at as many powers of 2 as it has error correction codewords |
| ErrorCorrection.DamageIsRepairable | external/qrcodegen/QrCode.cpp:529-565 | in every version and level, a stream damaged in at most half the ECC bytes of each block determines the data |
| ErrorCorrection.SymbolCodewords | external/qrcodegen/QrCode.cpp:320-360 | the codewords read from a finished symbol are the interleaved blocks |
| ErrorCorrection.DamagedSymbol | external/qrcodegen/QrCode.cpp:320-360 | at most one symbol of a version, level and mask differs from a grid in at most half the ECC bytes of each block |
| BitBuffers.BitBuffer.AppendBits | external/qrcodegen/QrCode.cpp:855-860 | accepts exactly lengths 0..31 with values that fit, and appends the bits most significant first |
| BitBuffers.NumberOfBits | external/qrcodegen/QrCode.cpp:855-860 | reading a written field returns the number |
| BitBuffers.BitsOfNumber | external/qrcodegen/QrCode.cpp:855-860 | writing a read field returns the bits |
| BitBuffers.Pack | external/qrcodegen/QrCode.cpp:310-313 | packing into bytes is undone by unpacking |
| Segments.MakeBytes | external/qrcodegen/QrCode.cpp:67-74 | fails exactly beyond the integer range, else makes the byte segment |
| Segments.MakeNumeric | external/qrcodegen/QrCode.cpp:77-97 | fails exactly on a character that is not a digit, else groups by three digits |
| Segments.MakeAlphanumeric | external/qrcodegen/QrCode.cpp:100-120 | fails exactly on a character outside the charset, else groups in pairs |
| Segments.MakeSegments | external/qrcodegen/QrCode.cpp:123-138 | no segment for the empty text, else one numeric, alphanumeric or byte segment, the first that can carry the text |
| Segments.ChoiceIsDensest | external/qrcodegen/QrCode.cpp:123-138 | the chosen segment carries the text in at most as many data bits as any other single segment |
| Segments.MakeEci | external/qrcodegen/QrCode.cpp:141-156 | one, two or three bytes by value, failing outside 0..999999 |
| Segments.IsAlphanumeric | external/qrcodegen/QrCode.cpp:194-200 | true exactly if all characters are in the charset |
| Segments.IsNumeric | external/qrcodegen/QrCode.cpp:203-210 | true exactly if all characters are digits |
| Segments.FindIsFirst | external/qrcodegen/QrCode.cpp:100-120 | the charset index is the first position of the character |
| Decoder.CountWidthsAgree | external/qrcodegen/QrCode.cpp:42-64 | for every mode and version the count field has the width of table 3 of ISO/IEC 18004:2015, by ranges of versions |
| Decoder.CharRoundTrip | external/qrcodegen/QrCode.cpp:100-120 | the index of a character is its value in table 5 of ISO/IEC 18004:2015 |
| Decoder.FieldIsNumber | external/qrcodegen/QrCode.cpp:855-860 | the first bit of a field is the most significant, as the standard reads it |
| Decoder.NumericRoundTrip | external/qrcodegen/QrCode.cpp:77-97 | a reader by section 7.4 of ISO/IEC 18004:2015 returns the digits and leaves the rest of the stream |
| Decoder.AlphanumericRoundTrip | external/qrcodegen/QrCode.cpp:100-120 | the same for alphanumeric text |
| Decoder.BytesRoundTrip | external/qrcodegen/QrCode.cpp:67-74 | the same for bytes |
| Decoder.EciRoundTrip | external/qrcodegen/QrCode.cpp:141-156 | the same for ECI designators |
| Versions.TablesFit | external/qrcodegen/QrCode.cpp:827-843 | all table entries give usable block structures |
| Versions.CapacityFalls | external/qrcodegen/QrCode.cpp:727-731 | in each version a higher level has strictly less capacity |
| StandardTables.TablesAgree | external/qrcodegen/QrCode.cpp:711-731 | for every version and level, the formula and the tables give the total, data and error correction codewords and the blocks that tables 1, 7 and 9 of ISO/IEC 18004:2015 list |
| Versions.LayoutOf | external/qrcodegen/QrCode.cpp:711-731 | every version and level has a valid layout whose data length is the number of data codewords |
| Encoder.GetTotalBits | external/qrcodegen/QrCode.cpp:177-191 | -1 exactly if a count does not fit or the total exceeds the integer range, else the length of the concatenated segments |
| Encoder.ChooseVersion | external/qrcodegen/QrCode.cpp:260-277 | the smallest version in range that fits, or none if none fits |
| Encoder.BoostLevel | external/qrcodegen/QrCode.cpp:281-285 | the highest level that fits this version, never below the requested one |
| Encoder.AppendSegments | external/qrcodegen/QrCode.cpp:287-295 | the buffer holds exactly the concatenated segments, and the reader of the standard reads back from it what the factories were given; no range check fails |
| Encoder.Terminate | external/qrcodegen/QrCode.cpp:297-308 | terminator, byte boundary and pad bytes fill the buffer exactly; no range check fails |
| Encoder.EncodeData | external/qrcodegen/QrCode.cpp:255-313 | error conditions, smallest version, highest level, and the packed stream of exactly the capacity |
| Encoder.SegmentRoundTrip | external/qrcodegen/QrCode.cpp:287-295 | a written segment reads back, whatever follows it |
| Encoder.StreamRoundTrip | external/qrcodegen/QrCode.cpp:287-295 | a written list of segments reads back from any stream that stops after it |
| Encoder.FillerStops | external/qrcodegen/QrCode.cpp:297-308 | the reader stops at the terminator for every fill level, also with fewer than four bits left |
| Encoder.FillerZeros | external/qrcodegen/QrCode.cpp:297-304 | after the segments come zeros, as terminator and up to the next codeword |
| Encoder.FillerPads | external/qrcodegen/QrCode.cpp:306-308 | then 11101100 and 00010001 in turn, up to the last codeword |
| Encoder.DataRoundTrip | external/qrcodegen/QrCode.cpp:255-313 | decoding the whole data stream returns the payloads, for every list that fits |
| Encoder.PayloadsCarryText | external/qrcodegen/QrCode.cpp:123-138 | the payloads of a text carry exactly its characters |
| Zigzag.ScanIsPermutation | external/qrcodegen/QrCode.cpp:568-593 | for every odd size the zigzag visits each module outside column 6 exactly once, and no other |
| Zigzag.FreeIsFiltered | external/qrcodegen/QrCode.cpp:580-585 | the modules written are exactly those visited that are not function modules, each once |
| Zigzag.PlacedAt | external/qrcodegen/QrCode.cpp:568-593 | a written module has its own bit, and all others are unchanged, including remainder modules |
| Zigzag.PlacedReadBack | external/qrcodegen/QrCode.cpp:568-593 | reading in the same order returns the bits |
| Conformance.OrderAgrees | external/qrcodegen/QrCode.cpp:572-592 | from every pair of columns on, the scan visits the modules in the order of section 7.7.3 of ISO/IEC 18004:2015, stated by pair number without directions |
| Conformance.DataCellsAgree | external/qrcodegen/QrCode.cpp:568-593 | for every version the modules that get bits are, in order, the data modules of the standard |
| QrCodes.QrCode.DrawCodewords | external/qrcodegen/QrCode.cpp:568-593 | succeeds exactly if the length is right and the bits fit, and places the bits on the free modules in the order of the standard: pairs of columns from the right, upwards and downwards in turn, without column 6 |
| Capacity.FunctionGridAt | external/qrcodegen/QrCode.cpp:416-442 | which modules the drawing marks as function modules, by position |
| Conformance.FunctionCellsAgree | external/qrcodegen/QrCode.cpp:416-442 | a module is marked exactly if section 6.3 and annex E of ISO/IEC 18004:2015 make it a function module |
| Capacity.FreeModules | external/qrcodegen/QrCode.cpp:711-724 | in each version the number of free modules equals the formula, so that the final check of the placement passes |
| QrCodes.QrCode.DrawFinderPattern | external/qrcodegen/QrCode.cpp:496-505 | a finder pattern with separator, clipped to the symbol |
| QrCodes.QrCode.DrawAlignmentPattern | external/qrcodegen/QrCode.cpp:508-513 | an alignment pattern around its centre |
| QrCodes.QrCode.DrawTimingPatterns | external/qrcodegen/QrCode.cpp:417-421 | both timing patterns |
| QrCodes.QrCode.GetAlignmentPatternPositions | external/qrcodegen/QrCode.cpp:695-708 | the inserting loop gives the positions in increasing order |
| FunctionPatterns.AlignmentSpacing | external/qrcodegen/QrCode.cpp:695-708 | steps of at least 12, ending 7 modules before the border |
| StandardTables.CentreIs | external/qrcodegen/QrCode.cpp:695-708 | for every version the computed positions are those listed in annex E of ISO/IEC 18004:2015 |
| QrCodes.QrCode.DrawAlignmentPatterns | external/qrcodegen/QrCode.cpp:428-437 | all alignment patterns except on the three corners |
| Bch.StepFits | external/qrcodegen/QrCode.cpp:449-450 | a step clears the bit it shifts out and changes the register only by a multiple of the generator, for every generator |
| Bch.DivisionIsRemainder | external/qrcodegen/QrCode.cpp:448-450 | after n steps the register is the remainder of data * x^n: the only number of its size that completes the shifted data to a multiple of the generator |
| QrCodes.QrCode.ComputeFormatBits | external/qrcodegen/QrCode.cpp:445-453 | the loop on numbers computes the format value, and its 15-bit check never fails |
| FunctionPatterns.FormatRemainder | external/qrcodegen/QrCode.cpp:446-451 | without the mask, the ten bits after level and mask are their remainder by 0x537, and no other ten bits are |
| FormatWords.FormatAgrees | external/qrcodegen/QrCode.cpp:445-453 | the 15 bits of every level and mask, as a number, are the word that annex C of ISO/IEC 18004:2015 lists for them |
| QrCodes.QrCode.DrawFormatBits | external/qrcodegen/QrCode.cpp:445-470 | both copies of the format bits and the dark module, and their marks |
| QrCodes.QrCode.ComputeVersionBits | external/qrcodegen/QrCode.cpp:477-482 | the loop on numbers computes the version value, and its 18-bit check never fails |
| FunctionPatterns.VersionRemainder | external/qrcodegen/QrCode.cpp:477-480 | the twelve bits after the version are its remainder by 0x1F25, and no other twelve bits are |
| VersionWords.VersionAgrees | external/qrcodegen/QrCode.cpp:473-482 | the 18 bits of every version from 7 on, as a number, are the word that annex D of ISO/IEC 18004:2015 lists for it |
| QrCodes.QrCode.DrawVersion | external/qrcodegen/QrCode.cpp:473-493 | nothing below version 7, else both copies of the version bits |
| QrCodes.QrCode.DrawFunctionPatterns | external/qrcodegen/QrCode.cpp:416-442 | the complete function patterns and marks of a version |
| FixedPatterns.PatternsAreDrawn | external/qrcodegen/QrCode.cpp:416-442 | in every finished symbol: three finder patterns with separators as frames around squares, alternating timing patterns, a frame and a point at every centre of annex E, and the dark module |
| FixedPatterns.AlignmentColour | external/qrcodegen/QrCode.cpp:428-437 | alignment patterns do not overlap, so that each keeps its colours |
| FixedPatterns.FunctionModuleKept | external/qrcodegen/QrCode.cpp:568-617 | placing codewords and masking change no function module |
| QrCodes.QrCode.ApplyMask | external/qrcodegen/QrCode.cpp:596-617 | fails exactly outside 0..7, else inverts, by row and column, exactly the data modules that table 10 of ISO/IEC 18004:2015 selects |
| Conformance.MasksAgree | external/qrcodegen/QrCode.cpp:596-617 | the eight masks select the modules of the eight conditions of the standard, in another form, for all rows and columns |
| FunctionPatterns.MaskIsInvolution | external/qrcodegen/QrCode.cpp:596-617 | applying a mask twice changes nothing, for every grid and marking |
| FunctionPatterns.FormatUnmasked | external/qrcodegen/QrCode.cpp:344-351 | masking around a format drawing leaves the format bits alone |
| FunctionPatterns.FormatOverwritten | external/qrcodegen/QrCode.cpp:354-356 | format bits of earlier candidates do not survive |
| MaskChoice.FormatMarksAgain | external/qrcodegen/QrCode.cpp:445-470 | drawing format bits again does not change the marks |
| QrCodes.QrCode.ChooseMask | external/qrcodegen/QrCode.cpp:338-351 | the lowest index of least penalty; marks unchanged; only the last candidate's format bits remain |
| MaskChoice.ScoreBound | external/qrcodegen/QrCode.cpp:339-347 | every score is below the initial minimum, so that some mask is chosen |
| QrCodes.QrCode.Create | external/qrcodegen/QrCode.cpp:320-360 | error conditions exactly; the symbol is the candidate that was scored for the chosen index, with one mask applied |
| Penalty.RunsAreMaximal | external/qrcodegen/QrCode.cpp:623-644 | the runs of the scan expand to the line, and none can be joined to its neighbour |
| Penalty.RunsAreUnique | external/qrcodegen/QrCode.cpp:623-644 | they are the only such runs |
| Penalty.AddHistoryIs | external/qrcodegen/QrCode.cpp:806-811 | the history always holds the latest seven runs, with the white border added to the first |
| Penalty.CountPatternsIs | external/qrcodegen/QrCode.cpp:785-792 | on such a history the count is that of the finder-like patterns, and the assertion cannot fail |
| Penalty.TerminateAndCount | external/qrcodegen/QrCode.cpp:795-803 | ending a line adds the white border and counts the last patterns |
| Penalty.LinePenalty | external/qrcodegen/QrCode.cpp:620-666 | a line scores L - 2 for each maximal run of length L >= 5 and 40 for each finder-like pattern |
| Penalty.CountBlocks | external/qrcodegen/QrCode.cpp:668-677 | the number of 2*2 blocks of one colour |
| Penalty.CountBlack | external/qrcodegen/QrCode.cpp:679-686 | the number of black modules |
| Penalty.BalanceIsLeast | external/qrcodegen/QrCode.cpp:687-690 | for an odd total the term is the least k >= 0 with (45-5k)% <= black/total <= (55+5k)% |
| Penalty.GetPenaltyScore | external/qrcodegen/QrCode.cpp:620-692 | the sum of the line scores, blocks and balance |
| PenaltyRules.AdjacentAre | external/qrcodegen/QrCode.cpp:628-635 | the score of runs is 3 for every fifth and 1 for every further module of one colour |
| PenaltyRules.PatternsAre | external/qrcodegen/QrCode.cpp:785-803 | the patterns counted on runs are exactly the areas of modules in the ratio 1:1:3:1:1 with light areas of four units and one unit beside them |
| PenaltyRules.LineScoreIs | external/qrcodegen/QrCode.cpp:620-666 | run history and border together: the score of a line is its points by modules, with light surroundings |
| PenaltyRules.ScoreIsStandard | external/qrcodegen/QrCode.cpp:620-692 | the score of a symbol is the number of points of section 7.8.3 of ISO/IEC 18004:2015, with the weights 3, 3, 40 and 10, and no other number is |
| Reader.BestMaskHasFewestPoints | external/qrcodegen/QrCode.cpp:338-347 | the automatic mask has no more of these points than any other, and fewer than each mask before it |
| Reader.FormatIsRead | external/qrcodegen/QrCode.cpp:445-469 | both copies in the symbol, at the places of the standard, hold the listed word of level and mask |
| Reader.VersionReadBack | external/qrcodegen/QrCode.cpp:473-493 | both copies in a finished symbol of version 7 or later hold the listed word of the version |
| Reader.CodewordsReadBack | external/qrcodegen/QrCode.cpp:320-360 | unmasking and reading the free modules of a finished symbol returns the codewords |
| Reader.StreamIsRead | external/qrcodegen/QrCode.cpp:320-360 | the reader of the standard finds the interleaved codewords |
| Reader.BlocksAreIntact | external/qrcodegen/QrCode.cpp:320-360 | it finds no error in any block |
| Reader.DataIsRead | external/qrcodegen/QrCode.cpp:320-360 | it finds the data codewords |
| Reader.SymbolRoundTrip | external/qrcodegen/QrCode.cpp:255-360 | a reader that knows the standard, and of the symbol only its modules, finds version, level, mask and payloads, for every list, version, level and mask |
| Reader.EncodeSegments | external/qrcodegen/QrCode.cpp:255-317 | error conditions, smallest version, highest level, best mask, and a symbol in which the reader of the standard finds its version, level, mask and what the factories were given |
| Reader.EncodeText | external/qrcodegen/QrCode.cpp:243-246 | the symbol of a text reads back to the text |
| Reader.EncodeBinary | external/qrcodegen/QrCode.cpp:249-252 | the symbol of bytes reads back to one segment with these bytes |
| ChainDb.ParseTx | src/blockchain_utilities/blockchain_ancestry.cpp:90-124 | every ring with its amount and offsets and every output key, in order; fails exactly on an input that is neither a ring nor the only, coinbase input, or an unknown output type |
| ChainDb.OwnerIsCreator | src/blockchain_utilities/blockchain_ancestry.cpp:278-331 | in a readable block the owner of an output is the miner transaction if that has the key, else the first transaction of the block that has it, found whenever there is one |
| ChainDb.OwnerIsOnlyCreator | src/blockchain_utilities/blockchain_ancestry.cpp:278-331 | when one transaction of the block has the key, the owner is that one and no other |
| ChainDb.AnswersExtend | src/blockchain_utilities/blockchain_ancestry.cpp:226-331 | what the database answers, it still answers when the chain has grown |
| AncestryGraph.RefsAreMentions | src/blockchain_utilities/blockchain_ancestry.cpp:90-124 | a readable transaction refers to an output as many times as its inputs have it as a ring member under its amount |
| AncestryGraph.RefsAreMembers | src/blockchain_utilities/blockchain_ancestry.cpp:90-124 | it refers to an output if and only if some input has it as a ring member under its amount |
| AncestryGraph.ClosureIsReachability | src/blockchain_utilities/blockchain_ancestry.cpp:198-224 | the ancestor set of a transaction is what chains of ring references reach |
| AncestryGraph.BagCountsPaths | src/blockchain_utilities/blockchain_ancestry.cpp:662-711 | the multiplicity of an ancestor is the number of reference paths to it, and its support is the ancestor set |
| AncestryPass.RecordedIs | src/blockchain_utilities/blockchain_ancestry.cpp:198-224 | recording references one by one adds exactly the ancestors through them |
| AncestryPass.TxStep | src/blockchain_utilities/blockchain_ancestry.cpp:535-592 | processing a transaction makes its record exact and changes no other |
| AncestryPass.MinerIsExact | src/blockchain_utilities/blockchain_ancestry.cpp:530-532 | a coinbase that was skipped reads as exact, since a missing record reads as empty |
| AncestryPass.RecordsExtend | src/blockchain_utilities/blockchain_ancestry.cpp:507-512 | exact records stay exact when the chain has grown |
| AncestryPass.ExactIsUnique | src/blockchain_utilities/blockchain_ancestry.cpp:198-224 | two exact states answer alike for every transaction: the transitive closure |
| AncestryTool.State.CacheBlock | src/blockchain_utilities/blockchain_ancestry.cpp:524-528 | the cache ends at the stored block, earlier entries are kept or filled, and the caches stay coherent, also when truncated |
| AncestryTool.State.GetBlockFromHeight | src/blockchain_utilities/blockchain_ancestry.cpp:226-247 | the answer of the database for every cache setting and coherent state |
| AncestryTool.State.GetTransaction | src/blockchain_utilities/blockchain_ancestry.cpp:249-276 | the same for transactions |
| AncestryTool.State.GetOutputTxid | src/blockchain_utilities/blockchain_ancestry.cpp:278-331 | the same for output owners |
| AncestryTool.State.ProcessTx | src/blockchain_utilities/blockchain_ancestry.cpp:535-592 | fails exactly if a reference cannot be resolved, else records all references |
| AncestryTool.State.ProcessBlock | src/blockchain_utilities/blockchain_ancestry.cpp:513-597 | after a block all its transactions are exact, with or without coinbase |
| AncestryTool.State.Refresh | src/blockchain_utilities/blockchain_ancestry.cpp:507-601 | a pass stopped after any block, or finished, leaves a state to resume from; finished, all records are exact |
| AncestryTool.State.CarriesOver | src/blockchain_utilities/blockchain_ancestry.cpp:480-505 | a state kept between sessions is coherent and in progress for the longer chain |
| AncestryTool.State.RunSessions | src/blockchain_utilities/blockchain_ancestry.cpp:480-627 | any number of stopped and resumed sessions over growing chains ends in the transitive closure for every transaction |
| AncestryTool.State.VisitTx | src/blockchain_utilities/blockchain_ancestry.cpp:678-708 | fails exactly if the transaction or an owner cannot be found, on every chain; else counts the references, queues their owners, and keeps exact records |
| AncestryTool.State.Search | src/blockchain_utilities/blockchain_ancestry.cpp:662-711 | the worklist without visited set terminates on every well-formed chain and counts every reference path, modulo the counter |
| SearchTermination.SearchEndsIff | src/blockchain_utilities/blockchain_ancestry.cpp:670-709 | on every database: the worklist from a transaction empties if and only if that transaction is in an order in which each can be processed and refers only to outputs of those before |
| SearchTermination.OrderedEmpties | src/blockchain_utilities/blockchain_ancestry.cpp:670-709 | with such an order the worklist is empty after exactly the computed number of visits |
| SearchTermination.ChainIsOrdered | src/blockchain_utilities/blockchain_ancestry.cpp:670-709 | a well-formed chain is such an order |
| SearchTermination.CycleNeverEnds | src/blockchain_utilities/blockchain_ancestry.cpp:670-709 | once a cycle of references is on the worklist, it is not empty after any number of visits |
| SearchTermination.SelfReferenceNeverEnds | src/blockchain_utilities/blockchain_ancestry.cpp:670-709 | a block with a transaction that refers to its own output: the search visits it for ever |
| AncestryTool.AddCountIs | src/blockchain_utilities/blockchain_ancestry.cpp:176-183 | adding an ancestor counts it once more, modulo 2^32 |
| AncestryTool.GetFullAncestry | src/blockchain_utilities/blockchain_ancestry.cpp:185-191 | the sum of the counts modulo 2^64 |
| AncestryTool.TotalIsPathCount | src/blockchain_utilities/blockchain_ancestry.cpp:185-191 | the sum of the counters is the number of all paths if and only if no counter wrapped |
| AncestryTool.ReportedTotal | src/blockchain_utilities/blockchain_ancestry.cpp:185-191 | the reported 64-bit total is the number of all paths if and only if no counter wrapped and the number is below 2^64 |
| AncestryTool.SearchReport | src/blockchain_utilities/blockchain_ancestry.cpp:185-196 | the deduplicated number is that of the forward pass; each count is the path count modulo 2^32; the reported total is the number of paths if and only if no path count reaches 2^32 and the number is below 2^64 |
| WrappingChain.IsWellFormed | src/blockchain_utilities/blockchain_ancestry.cpp:662-711 | a chain in which each transaction refers to both outputs of the one before is well-formed, for every length |
| WrappingChain.PathsDouble | src/blockchain_utilities/blockchain_ancestry.cpp:176-183 | on it the paths to the first output double with every transaction |
| WrappingChain.CounterWraps | src/blockchain_utilities/blockchain_ancestry.cpp:176-191 | with 34 blocks a counter wraps to 0 and the reported total is wrong |
| AncestryTool.KeptExact | src/blockchain_utilities/blockchain_ancestry.cpp:662-711 | the search does not change what an up-to-date state answers |
| BlockUndo.SpendInputsIs | src/blockchain_db/blockchain_db.cpp:206-223 | adding the inputs succeeds exactly if all have a known type and the key images are distinct and fresh, which then become spent |
| BlockUndo.AddTransactionSucceeds | src/blockchain_db/blockchain_db.cpp:182-249 | when adding a transaction succeeds, including its version, exactly so in a store without gaps, and what it spends |
| BlockUndo.AddTransactionSpends | src/blockchain_db/blockchain_db.cpp:206-223 | no input of a stored transaction has an unknown type, its key images are new and distinct, and exactly they become spent |
| BlockUndo.TxStored | src/blockchain_db/blockchain_db.cpp:225-248 | the transaction is found under its hash with the next number; blocks and earlier entries stay |
| BlockUndo.OutputsUndoIff | src/blockchain_db/lmdb/db_lmdb.cpp:1120-1141 | removing the outputs from last to first undoes adding them if and only if both sides agree on the amounts |
| BlockUndo.TxUndoIff | src/blockchain_db/blockchain_db.cpp:337-351 | removing a transaction right after adding it restores the store if and only if the amounts agree |
| BlockUndo.AgreeingTransactions | src/blockchain_db/lmdb/db_lmdb.cpp:1135-1140 | which transactions disagree: exactly those of version 2 that have a coinbase input among several inputs, and an output with a positive amount |
| BlockUndo.NotSought | src/blockchain_db/lmdb/db_lmdb.cpp:1120-1141 | under amount 0 a removal looks only for slots of its own transaction |
| BlockUndo.LeftBehind | src/blockchain_db/blockchain_db.cpp:315-330 | a slot that no transaction of the block looks for survives popping the block |
| BlockUndo.BlockUndoIff | src/blockchain_db/blockchain_db.cpp:315-330 | popping a block right after adding it restores the store and returns the block with its transactions in reverse, if and only if all its transactions agree on their amounts |
| BlockUndo.UnpoppableBlock | src/blockchain_db/blockchain_db.cpp:235-247 | a block whose miner transaction has a second input and a positive amount: it can be added and then not be popped |
| BlockRuns.Push | src/blockchain_db/blockchain_db.cpp:182-249 | adding a transaction pushes it on the list of stored transactions |
| BlockRuns.PopTop | src/blockchain_db/blockchain_db.cpp:337-351 | removing the latest transaction pops it, whether or not amounts agree |
| BlockRuns.HoldsAdd | src/blockchain_db/blockchain_db.cpp:251-308 | adding a block extends the chain that the tables hold |
| BlockRuns.HoldsPop | src/blockchain_db/blockchain_db.cpp:315-330 | a successful pop returns the latest block with its transactions in reverse, and the tables hold the rest of the chain |
| BlockRuns.EveryRun | src/blockchain_db/blockchain_db.cpp:251-351 | after every run of adds and pops the tables hold exactly the current chain, and the spent keys are the disjoint union of its key images |
| BlockCounts.RunIsBuild | src/blockchain_db/blockchain_db.cpp:251-351 | after every run with agreeing amounts the store is the one built from the current chain alone |
| BlockCounts.PopFailsOnlyWhenEmpty | src/blockchain_db/blockchain_db.cpp:315-330 | in such runs a pop fails only on the empty chain |
| BlockCounts.RctAccount | src/blockchain_db/blockchain_db.cpp:276-293 | in such runs, the RingCT outputs that the current blocks report, with those stored under amount 0 and not reported, are those stored under amount 0, with those reported and not stored there |
| BlockCounts.ReportedAgainstStored | src/blockchain_db/blockchain_db.cpp:276-293 | with coinbase inputs in all miner transactions, at most as many are reported as stored, and as many if and only if no ordinary transaction with positive amounts is stored like a coinbase |
| BlockCounts.ReportedIsStored | src/blockchain_db/blockchain_db.cpp:276-293 | when exactly the miner transactions have coinbase inputs, reported and stored are equal |
| BlockCounts.UnreportedOutput | src/blockchain_db/blockchain_db.cpp:276-293 | a block with an agreeing ordinary transaction that has a coinbase input: it reports one output and stores two |
| BlockOutputs.AddOutputsDescribes | src/blockchain_db/blockchain_db.cpp:227-247 | each output is found under its amount, or 0 when it is minted, and its index, with its own key, unlock time, height and origin, and the commitment to its amount, the one of the signature, or none; nothing else changes |
| BlockOutputs.StorableMeans | src/blockchain_db/blockchain_db.cpp:227-247 | which outputs can be stored: those with a key and, when their amount is hidden and they are not minted, a commitment |
| BlockOutputs.EveryRunDescribed | src/blockchain_db/blockchain_db.cpp:227-247 | after every run with agreeing amounts the output tables describe every output of the current chain, and every slot belongs to one of them |
| BlockchainDbs.BlockchainDb.AddSpentKey | src/blockchain_db/lmdb/db_lmdb.cpp:1235-1250 | rejects exactly a key image that is present |
| BlockchainDbs.BlockchainDb.SpendAll | src/blockchain_db/blockchain_db.cpp:206-223 | the loop over the inputs spends their key images and finds a coinbase input |
| BlockchainDbs.BlockchainDb.AddTransactionData | src/blockchain_db/lmdb/db_lmdb.cpp:868-951 | rejects exactly a known hash or a version that cannot be serialized, else stores the transaction under the next number |
| BlockchainDbs.BlockchainDb.AddOutput | src/blockchain_db/lmdb/db_lmdb.cpp:1031-1095 | rejects a wrong target, a missing commitment or an index that is not beyond all others, else appends to the outputs of the amount and to the global list |
| BlockchainDbs.BlockchainDb.StoreOutputs | src/blockchain_db/blockchain_db.cpp:227-247 | the loop over the outputs: the tables then describe each output of the transaction, those of version 2 coinbase transactions under amount 0 with a commitment to their amounts |
| BlockchainDbs.BlockchainDb.AddTransaction | src/blockchain_db/blockchain_db.cpp:182-249 | the whole new store, or failure, as specified by the value-level operation |
| BlockchainDbs.BlockchainDb.RemoveOutput | src/blockchain_db/lmdb/db_lmdb.cpp:1143-1179 | rejects an unknown slot, else removes it and its global entry |
| BlockchainDbs.BlockchainDb.RemoveTxOutputs | src/blockchain_db/lmdb/db_lmdb.cpp:1120-1141 | the loop over the outputs from last to first |
| BlockchainDbs.BlockchainDb.RemoveTransaction | src/blockchain_db/blockchain_db.cpp:337-351 | the whole new store, or failure |
| BlockchainDbs.BlockchainDb.AddBlockData | src/blockchain_db/lmdb/db_lmdb.cpp:753-829 | rejects exactly a known block, a wrong parent, or a first block of major version 4 or later, else appends |
| BlockchainDbs.BlockchainDb.AddBlock | src/blockchain_db/blockchain_db.cpp:251-308 | the height and the whole new store, or failure |
| BlockchainDbs.BlockchainDb.PopBlock | src/blockchain_db/blockchain_db.cpp:315-330 | the block, its transactions in order of removal and the whole new store, or failure |

## Left out

- SVG output, getters and the texts of exceptions in the QR encoder: string output without a law.
- The Kanji mode has no factory in the program; segments are those of the other four factories.
- The character counter of the numeric and alphanumeric factories, which overflows beyond 2^31 - 1 characters, is unbounded in the model; the byte factory refuses such lists, as in the program.
- The distance of the codes of the format and version bits: the bits are computed, proved to be remainders and read back, not corrected.
- The list of function modules that the constructor clears at its end: it is not observable afterwards.
- Command line, logging, serialization and cache hit counters of the ancestry tool; a session keeps the state as a value.
- Stop requests inside the backward search, which only abandon it.
- Parsing of blobs, hashing, relative ring offsets and the commitment arithmetic: identifiers stand for them.
- LMDB pages, cursors and the rollback of write transactions: a failed operation is taken to leave the store unchanged, as its write transaction is aborted.
- Pruned and prunable blobs, block weights, difficulties, coins and the hard fork state: they are not read by the operations modelled. Of the sum of RingCT outputs that blocks of major version 4 or later keep, only the need for a block below is modelled.
- A version 2 transaction with fewer masks than outputs is refused when a mask is needed, where the program would read past the list.
- Relay flags, transaction pool tables and locked transactions of the database: small flag logic.
