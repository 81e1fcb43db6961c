# PicoShare: verified models

A Dafny model of the parts of PicoShare in which a mistake would be hard to see,
with proofs of what those parts promise.

**The QR encoder** (`handlers/static/third-party/qrcode-generator@2.0.4/qrcode.js`).
`Galois`, `QrMath`, `Coefficients`, `Polynomial` and `Generators` hold the field
of 256 elements, its tables and polynomial division; `Codewords`, `Interleave`
and `BlockTable` the codewords, `Distance` and `Correction` how far apart they and
the format and version words are; `Bits`, `Bch`, `BitBuffer`, `Segments` and
`SymbolData` the bit strings; `Patterns`, `ZigZag`, `FreeCount`, `SymbolRoom` and
`Symbol` the drawing, and `MaskChoice` the whole of `make`. `Route`, `Pictures`,
`PublishedWords` and `SegmentShape` tell the same bits and modules from outside: cell
by cell, as pictures, and as the standard prints them. The main result,
`Symbol.SymbolDecodes`, is that a finished symbol reads back from its modules
alone: side length and format word give version, level and mask; unmask the free
cells, de-interleave, parse, and the segments are the ones it was made from, for
all 40 versions, four levels and eight masks. `BitStream` and `Lzw` hold the GIF
coder of the same file with a decoder for it, and `LzwRaster` the coder over the
source's table, which takes the names every object inherits for known strings:
`LzwRaster.RasterExact` says exactly when that loses pixels.

**The chunked file store** (`store/sqlite/file`). `Chunks`, `ChunkWriter` and
`ChunkReader`: a writer that may fail at any insert and be resumed, a reader that
is a cursor over the file's bytes, and the round trip between them.

**The store as a transition system** (`store/sqlite`, `handlers/upload.go`).
`Tables` gives each statement or transaction as a function on the tables, `Store`
the operations as methods proved against those functions, and `Runs` the system:
uploads in several steps, everything else one step at a time, in any
interleaving. `StoreLaws` says what one operation does for later queries,
`RunLaws` what they answer at the end of any run; `Credits`, `Admission` and `Logins`
tell from the events alone whose an entry is, which uploads are let in, and what the
users table shows. `UploadSafety`, `EntryLookup`,
`GuestLimit`, `Ownership` and `Purging` prove what every run keeps. Where a
property needs a condition on the interleaving, the condition is shown to be
exact or the failure is exhibited.

**Smaller pieces.** `Calendar` and `Timestamps` (the stored text of a moment),
`Lifetimes` (the expiration choices against the server's cap), `Fingerprints` and
`ProviderCache` and `ProviderLaws` (the OIDC provider against the current settings).

Each loop or update of the source is a method proved against a specification
function; the lemmas are about those functions. `SeqLaws`, `SetLaws`, `NumberLaws`
and `Wrappers` hold a few general facts.

Where the code departs from what its names or documents suggest, the model
follows the code: `SeekEnd` subtracts its argument, `SeekCurrent` counts from the
buffered end, `FileLifetime.LessThan` tests equality, and the fingerprint of the
OIDC settings is a join that is not one to one.

## Model

| member | source | states |
|---|---|---|
| `Galois.ExpStep` | handlers/static/third-party/qrcode-generator@2.0.4/qrcode.js:1138-1146 | each entry of the power table is the previous one doubled in the field: the recurrence over entries i-4, i-5, i-6, i-8 is repeated doubling modulo x^8+x^4+x^3+x^2+1 |
| `Galois.NoSmallerPeriod` | handlers/static/third-party/qrcode-generator@2.0.4/qrcode.js:1132-1149 | no exponent strictly between 0 and 255 gives 1: the generator has order exactly 255 |
| `Galois.PowersDistinct` | handlers/static/third-party/qrcode-generator@2.0.4/qrcode.js:1147-1149 | no two of the 255 exponents write the same slot of the log table |
| `Galois.EveryByteIsPower` | handlers/static/third-party/qrcode-generator@2.0.4/qrcode.js:1147-1149 | every nonzero byte is some power, so every slot but 0 of the log table is written |
| `Galois.LogOfPower` | handlers/static/third-party/qrcode-generator@2.0.4/qrcode.js:1138-1160 | the log table inverts the power table |
| `Galois.ScalePeriod` | handlers/static/third-party/qrcode-generator@2.0.4/qrcode.js:1162-1173 | multiplying 255 times by the generator changes no byte, so reducing an exponent by 255 is sound |
| `Galois.ScaleByLog` | handlers/static/third-party/qrcode-generator@2.0.4/qrcode.js:1153-1173 | gexp(glog(a) + k) is a multiplied by the k-th power, for k of either sign |
| `QrMath.Tables.constructor` | handlers/static/third-party/qrcode-generator@2.0.4/qrcode.js:1132-1149 | after construction both tables hold the powers and the discrete logarithms |
| `QrMath.Tables.FillLog` | handlers/static/third-party/qrcode-generator@2.0.4/qrcode.js:1147-1149 | the log loop fills every slot from 1 to 255 with the discrete logarithm |
| `QrMath.Tables.Glog` | handlers/static/third-party/qrcode-generator@2.0.4/qrcode.js:1153-1160 | throws exactly for 0, otherwise returns the discrete logarithm |
| `QrMath.Tables.Gexp` | handlers/static/third-party/qrcode-generator@2.0.4/qrcode.js:1162-1173 | the two stepping loops end and return the power for the exponent modulo 255 |
| `Coefficients.RootOfProduct` | handlers/static/third-party/qrcode-generator@2.0.4/qrcode.js:1210-1221 | a root of a polynomial is a root of all its multiples |
| `Coefficients.EvalProductByMonic` | handlers/static/third-party/qrcode-generator@2.0.4/qrcode.js:966-972 | multiplying by x + b multiplies every value by (point + b) |
| `Polynomial.NewPolynomial` | handlers/static/third-party/qrcode-generator@2.0.4/qrcode.js:1188-1198 | strips exactly the leading written zeros and appends unwritten slots |
| `Polynomial.Multiply` | handlers/static/third-party/qrcode-generator@2.0.4/qrcode.js:1210-1221 | throws exactly when a coefficient of either factor is zero; otherwise returns the field product, its coefficients the convolution |
| `Polynomial.Mod` | handlers/static/third-party/qrcode-generator@2.0.4/qrcode.js:1223-1242 | the recursive division ends and returns the remainder, for dividends with unwritten trailing slots |
| `Polynomial.CancelledReducible` | handlers/static/third-party/qrcode-generator@2.0.4/qrcode.js:1229-1241 | one round cancels the leading coefficient, so the polynomial gets strictly shorter and may be divided again |
| `Polynomial.RemainderShort` | handlers/static/third-party/qrcode-generator@2.0.4/qrcode.js:1223-1242 | the remainder is shorter than the divisor |
| `Polynomial.RemainderCongruent` | handlers/static/third-party/qrcode-generator@2.0.4/qrcode.js:1223-1242 | dividend plus remainder is a multiple of the divisor, for every divisor without a zero coefficient |
| `Generators.GeneratorRoots` | handlers/static/third-party/qrcode-generator@2.0.4/qrcode.js:966-972 | the first n powers of the field generator are roots of the n-th generator polynomial |
| `Generators.CoefficientRatio` | handlers/static/third-party/qrcode-generator@2.0.4/qrcode.js:966-972 | neighbouring coefficients of a generator polynomial determine each other |
| `Generators.GeneratorNonzeroBelow` | handlers/static/third-party/qrcode-generator@2.0.4/qrcode.js:966-972 | below degree 255 no coefficient of a generator polynomial is zero, so glog never throws on one |
| `Generators.GeneratorVanishesAt255` | handlers/static/third-party/qrcode-generator@2.0.4/qrcode.js:966-972 | the generator of degree 255 has a zero coefficient: the bound is exact |
| `Generators.ErrorCorrectPolynomial` | handlers/static/third-party/qrcode-generator@2.0.4/qrcode.js:966-972 | throws exactly above 255 factors, otherwise returns the generator polynomial |
| `Codewords.CheckedWord` | handlers/static/third-party/qrcode-generator@2.0.4/qrcode.js:285-301 | for any data bytes and fewer than 255 check bytes, data followed by the right-aligned remainder is a multiple of the generator and vanishes at all its roots: section 7.5.2 of ISO/IEC 18004:2015 |
| `Codewords.CheckSlots` | handlers/static/third-party/qrcode-generator@2.0.4/qrcode.js:292-300 | the check slots computed for a block are those of the codeword, zeros in front included |
| `Codewords.ComputeBlocks` | handlers/static/third-party/qrcode-generator@2.0.4/qrcode.js:267-301 | the first loop cuts the buffer into the data blocks in order, computes each block's check bytes, and finds the two largest counts |
| `Codewords.CreateBytes` | handlers/static/third-party/qrcode-generator@2.0.4/qrcode.js:267-330 | fills the array exactly, once per slot, with the interleaved data and check columns |
| `Codewords.CodewordsReadBack` | handlers/static/third-party/qrcode-generator@2.0.4/qrcode.js:267-330 | undoing the interleaving gives back every block's data and check bytes, and each block is a codeword |
| `Codewords.DataPlace` | handlers/static/third-party/qrcode-generator@2.0.4/qrcode.js:280-318 | byte i of block r is byte i of the buffer after those of the blocks before, and stands among the data bytes at its place in the order |
| `Codewords.CheckPlace` | handlers/static/third-party/qrcode-generator@2.0.4/qrcode.js:320-327 | the check bytes stand behind all data bytes, in the same order |
| `Distance.DroppedSupport` | handlers/static/third-party/qrcode-generator@2.0.4/qrcode.js:966-972 | multiplying each coefficient by the difference of its power to another drops that place and no other nonzero byte |
| `Distance.FewNonzero` | handlers/static/third-party/qrcode-generator@2.0.4/qrcode.js:966-972 | a word of at most 255 bytes that vanishes at the first n powers of the generator and has at most n nonzero bytes has none |
| `Distance.FarApart` | handlers/static/third-party/qrcode-generator@2.0.4/qrcode.js:285-301 | two different words with n check bytes differ in more than n places |
| `Distance.OneNearest` | handlers/static/third-party/qrcode-generator@2.0.4/qrcode.js:285-301 | with at most half as many wrong bytes as check bytes, what is received belongs to one word only: section 7.5 of ISO/IEC 18004:2015 |
| `Correction.BlockCorrectable` | handlers/static/third-party/qrcode-generator@2.0.4/qrcode.js:267-330 | in every version and at every level, a block read back with at most half as many wrong bytes as it has check bytes determines its word |
| `Interleave.PositionInjective` | handlers/static/third-party/qrcode-generator@2.0.4/qrcode.js:311-327 | no output slot is written twice |
| `Interleave.PositionOrder` | handlers/static/third-party/qrcode-generator@2.0.4/qrcode.js:311-327 | the output is in the order of the element numbers, and for the same number of the blocks |
| `Interleave.PositionSurjective` | handlers/static/third-party/qrcode-generator@2.0.4/qrcode.js:311-327 | no output slot is left out |
| `Interleave.TotalLength` | handlers/static/third-party/qrcode-generator@2.0.4/qrcode.js:303-327 | the final index equals the sum of the block lengths, whatever they are |
| `Interleave.RoundTrip` | handlers/static/third-party/qrcode-generator@2.0.4/qrcode.js:311-327 | de-interleaving by the lengths alone returns every block: section 7.6 of ISO/IEC 18004:2015 |
| `Interleave.Spread` | handlers/static/third-party/qrcode-generator@2.0.4/qrcode.js:311-318 | the column-wise double loop writes the columns from the start index on and nothing else |
| `BlockTable.GetRsBlocks` | handlers/static/third-party/qrcode-generator@2.0.4/qrcode.js:1510-1551 | fails exactly for an unknown version, otherwise lists the blocks group by group |
| `BlockTable.BlocksOk` | handlers/static/third-party/qrcode-generator@2.0.4/qrcode.js:1253-1551 | for every version and level: counts are consistent, every generator can be divided by, and the capacity is within the bound of its version class |
| `BlockTable.LevelsOrdered` | handlers/static/third-party/qrcode-generator@2.0.4/qrcode.js:1253-1551 | in every version the levels L, M, Q and H hold less and less data, in this order |
| `Bch.Reduce` | handlers/static/third-party/qrcode-generator@2.0.4/qrcode.js:920-926 | the reduction ends for any number and any generator: the remainder is shorter than the generator and differs from the dividend by a multiple of it |
| `Bch.CheckBitsUnique` | handlers/static/third-party/qrcode-generator@2.0.4/qrcode.js:920-934 | among words with the same data bits at most one is a multiple of the generator: the check bits are determined |
| `Bch.BchTypeInfo` | handlers/static/third-party/qrcode-generator@2.0.4/qrcode.js:920-926 | the format word without its mask is a multiple of the generator with the data in its high bits, and has fifteen bits: section 7.9 of ISO/IEC 18004:2015 |
| `Bch.BchTypeNumber` | handlers/static/third-party/qrcode-generator@2.0.4/qrcode.js:928-934 | the version word is a multiple of its generator with the data in its high bits: section 7.10 of ISO/IEC 18004:2015 |
| `Correction.TimesBit` | handlers/static/third-party/qrcode-generator@2.0.4/qrcode.js:920-934 | each bit of a product of binary polynomials, from the bits of its factors |
| `Correction.FormatsApart` | handlers/static/third-party/qrcode-generator@2.0.4/qrcode.js:920-926 | two different format words differ in at least seven of their fifteen bits |
| `Correction.VersionsApart` | handlers/static/third-party/qrcode-generator@2.0.4/qrcode.js:928-934 | two different version words differ in at least eight of their eighteen bits |
| `Correction.FormatCorrectable` | handlers/static/third-party/qrcode-generator@2.0.4/qrcode.js:179-182 | a format word read with at most three wrong bits determines level and mask |
| `Correction.VersionCorrectable` | handlers/static/third-party/qrcode-generator@2.0.4/qrcode.js:164-166 | a version word read with at most three wrong bits determines the version |
| `BitBuffer.Buffer.PutBit` | handlers/static/third-party/qrcode-generator@2.0.4/qrcode.js:1586-1598 | appends one bit to the bit string the bytes stand for |
| `BitBuffer.Buffer.Put` | handlers/static/third-party/qrcode-generator@2.0.4/qrcode.js:1576-1580 | appends a number, high bit first |
| `BitBuffer.Buffer.GetAt` | handlers/static/third-party/qrcode-generator@2.0.4/qrcode.js:1571-1574 | returns the bit that was put at that position |
| `BitBuffer.UnpackedPacked` | handlers/static/third-party/qrcode-generator@2.0.4/qrcode.js:1571-1598 | whole bytes of bits survive packing |
| `BitBuffer.PackedUnpacked` | handlers/static/third-party/qrcode-generator@2.0.4/qrcode.js:1571-1598 | bytes survive unpacking |
| `Segments.WriteNumeric` | handlers/static/third-party/qrcode-generator@2.0.4/qrcode.js:1622-1655 | fails exactly on a character that is no digit, otherwise appends the groups of three, two or one digits |
| `Segments.WriteAlpha` | handlers/static/third-party/qrcode-generator@2.0.4/qrcode.js:1679-1718 | fails exactly on a character outside the alphabet, otherwise appends pairs and the odd last character |
| `Segments.WriteBytes` | handlers/static/third-party/qrcode-generator@2.0.4/qrcode.js:1743-1747 | appends every byte |
| `Segments.AlphaInverse` | handlers/static/third-party/qrcode-generator@2.0.4/qrcode.js:1697-1718 | the 45-character alphabet is coded one to one |
| `Segments.NumericRoundTrip` | handlers/static/third-party/qrcode-generator@2.0.4/qrcode.js:1622-1655 | reading the groups back gives the digits, leading zeros included |
| `Segments.AlphaRoundTrip` | handlers/static/third-party/qrcode-generator@2.0.4/qrcode.js:1679-1718 | reading the pairs back gives the characters |
| `Segments.SegmentRoundTrip` | handlers/static/third-party/qrcode-generator@2.0.4/qrcode.js:338-343 | reading mode, count and payload gives back the segment |
| `Segments.ParseEncoded` | handlers/static/third-party/qrcode-generator@2.0.4/qrcode.js:338-362 | reading segments up to the terminator, or to where fewer than four bits remain, gives back the list: section 7.4 of ISO/IEC 18004:2015 |
| `SegmentShape.SegmentShown` | handlers/static/third-party/qrcode-generator@2.0.4/qrcode.js:338-343 | mode, count and payload stand one after the other, the count in the width of its mode and version class, the payload in ten bits for three digits, eleven for two characters, eight for a byte |
| `SymbolData.FillBuffer` | handlers/static/third-party/qrcode-generator@2.0.4/qrcode.js:359-381 | the buffer is padded to exactly the capacity: terminator where it fits, zero bits to the byte, alternating pad bytes |
| `SymbolData.FilledEndsParse` | handlers/static/third-party/qrcode-generator@2.0.4/qrcode.js:359-381 | what is appended always ends the parse |
| `SegmentShape.PadAt` | handlers/static/third-party/qrcode-generator@2.0.4/qrcode.js:370-381 | the pad bytes alternate, bit by bit |
| `SegmentShape.FilledShown` | handlers/static/third-party/qrcode-generator@2.0.4/qrcode.js:359-381 | every bit behind the segments: zero to where the pad bytes start, then the two in turn to the end |
| `SymbolData.CreateData` | handlers/static/third-party/qrcode-generator@2.0.4/qrcode.js:332-384 | the outcome for every input: unknown version, illegal character, overflow, or the codewords of the filled buffer |
| `SymbolData.SegmentFits` | handlers/static/third-party/qrcode-generator@2.0.4/qrcode.js:974-1018 | a segment that fits the largest capacity of its version has a count that fits its length field, for every version |
| `SegmentShape.FitsByLength` | handlers/static/third-party/qrcode-generator@2.0.4/qrcode.js:424-447 | segments fit a version and level if and only if mode, count and payload bits together are no more than the bits of its data bytes |
| `SymbolData.SymbolReadsBack` | handlers/static/third-party/qrcode-generator@2.0.4/qrcode.js:332-384 | whatever segments are accepted, de-interleaving the codewords and parsing gives exactly those segments; nothing is assumed about the counts |
| `SymbolData.ChooseVersion` | handlers/static/third-party/qrcode-generator@2.0.4/qrcode.js:424-450 | the search stops at the first version that fits, or at 40 |
| `ZigZag.EveryCellVisited` | handlers/static/third-party/qrcode-generator@2.0.4/qrcode.js:216-265 | every cell outside column 6 is visited, for every module count 4v+17 |
| `ZigZag.EachVisitOnce` | handlers/static/third-party/qrcode-generator@2.0.4/qrcode.js:216-265 | no cell is visited twice, and column 6 never |
| `Route.PathWalked` | handlers/static/third-party/qrcode-generator@2.0.4/qrcode.js:224-263 | the visits are those of a walker that starts in the lower right corner, goes from the right column of a pair to the left, on to the next row, and at the border to the next pair on the left, past column 6, and back |
| `Route.FirstVisit` | handlers/static/third-party/qrcode-generator@2.0.4/qrcode.js:219-224 | the first cell visited is the lower right corner, and there are as many visits as cells off column 6 |
| `Route.StepLeft` | handlers/static/third-party/qrcode-generator@2.0.4/qrcode.js:230-232 | every second visit is to the left neighbour of the one before |
| `Route.RightFirst` | handlers/static/third-party/qrcode-generator@2.0.4/qrcode.js:224-226 | a cell two or more columns further right is visited first |
| `ZigZag.MapData` | handlers/static/third-party/qrcode-generator@2.0.4/qrcode.js:216-265 | each undecided cell on the path gets the next data bit, false past the end, inverted where the mask holds; every other cell keeps its value; which path that is, is said by the rows of Route |
| `ZigZag.RecoveredData` | handlers/static/third-party/qrcode-generator@2.0.4/qrcode.js:216-265 | reading the free cells in visiting order and unmasking returns the data: section 7.7.3 of ISO/IEC 18004:2015 |
| `ZigZag.AllDecided` | handlers/static/third-party/qrcode-generator@2.0.4/qrcode.js:216-265 | no cell stays undecided if and only if column 6 was drawn before |
| `Patterns.SetupPositionProbePattern` | handlers/static/third-party/qrcode-generator@2.0.4/qrcode.js:75-94 | the finder pattern with its separator is drawn where it lies inside the symbol; every other cell is untouched |
| `Patterns.SetupPositionAdjustPattern` | handlers/static/third-party/qrcode-generator@2.0.4/qrcode.js:133-162 | an alignment pattern is drawn exactly where its centre was undecided before the loops; every other cell is untouched |
| `Patterns.SetupTimingPattern` | handlers/static/third-party/qrcode-generator@2.0.4/qrcode.js:116-131 | the two timing lines alternate where nothing was drawn before |
| `Patterns.SetupTypeInfo` | handlers/static/third-party/qrcode-generator@2.0.4/qrcode.js:179-214 | both copies of the format word and the fixed module stand in their places; trial symbols show none |
| `Patterns.SetupTypeNumber` | handlers/static/third-party/qrcode-generator@2.0.4/qrcode.js:164-177 | both copies of the version word stand in their places |
| `Patterns.PositionsSpaced` | handlers/static/third-party/qrcode-generator@2.0.4/qrcode.js:863-904 | in every version the alignment patterns are apart from each other and from the border |
| `Patterns.DrawPatterns` | handlers/static/third-party/qrcode-generator@2.0.4/qrcode.js:57-66 | all patterns together: each cell of the grid before the data |
| `Patterns.SameFree` | handlers/static/third-party/qrcode-generator@2.0.4/qrcode.js:57-66 | which cells are decided does not depend on the words drawn |
| `Patterns.ColumnSixDecided` | handlers/static/third-party/qrcode-generator@2.0.4/qrcode.js:116-131 | column 6 is complete before the data is placed |
| `Pictures.FinderSquares` | handlers/static/third-party/qrcode-generator@2.0.4/qrcode.js:75-94 | the finder pattern is nested squares of side 7 and 3 around one centre, with light rings between and around, and has their symmetries |
| `Pictures.AlignmentSquares` | handlers/static/third-party/qrcode-generator@2.0.4/qrcode.js:147-158 | the alignment pattern is a square of side 5, a light ring and a dark centre |
| `Pictures.TimingAlternates` | handlers/static/third-party/qrcode-generator@2.0.4/qrcode.js:116-131 | the timing lines alternate and are dark at both ends |
| `Pictures.MaskDrawn` | handlers/static/third-party/qrcode-generator@2.0.4/qrcode.js:940-965 | each of the eight masks is a tile of six columns and at most six rows, drawn module by module, repeated in both directions |
| `FreeCount.FreeAndDecided` | handlers/static/third-party/qrcode-generator@2.0.4/qrcode.js:216-265 | every visit finds a free cell or one decided cell more |
| `FreeCount.DecidedIsCovered` | handlers/static/third-party/qrcode-generator@2.0.4/qrcode.js:57-66 | the decided cells are exactly those of the finder, alignment and timing patterns and the words |
| `FreeCount.AlignmentApart` | handlers/static/third-party/qrcode-generator@2.0.4/qrcode.js:133-162 | outside the timing row and column no alignment pattern overlaps a finder pattern or a word |
| `FreeCount.FreeExact` | handlers/static/third-party/qrcode-generator@2.0.4/qrcode.js:57-66 | the patterns leave exactly as many cells of the path free as their sizes say, in every version and whatever words are drawn: section 6.3 of ISO/IEC 18004:2015 |
| `SymbolRoom.TotalIs` | handlers/static/third-party/qrcode-generator@2.0.4/qrcode.js:1253-1551 | in every version the blocks of each of the four levels add up to the same number of codewords |
| `SymbolRoom.CodewordsFill` | handlers/static/third-party/qrcode-generator@2.0.4/qrcode.js:1253-1551 | eight times that number and the remainder bits of the version, 0, 3, 4 or 7, are exactly the free cells |
| `SymbolRoom.EveryCodewordFits` | handlers/static/third-party/qrcode-generator@2.0.4/qrcode.js:43-73 | in every version, at every level, the free cells hold every codeword and the remainder bits and no more |
| `Symbol.PlaceSegments` | handlers/static/third-party/qrcode-generator@2.0.4/qrcode.js:68-73 | creating the data and placing it: the grid is the placed grid, and untouched when creating the data fails |
| `Symbol.SymbolRoundTrip` | handlers/static/third-party/qrcode-generator@2.0.4/qrcode.js:68-73 | a reader that knows version, level, mask and reserved cells gets the segments back, whatever cells were reserved, as soon as the free ones suffice |
| `Symbol.TypeWords` | handlers/static/third-party/qrcode-generator@2.0.4/qrcode.js:164-182 | the format word carries level and mask, the version word the version, each the one multiple of its generator with these bits in front |
| `Symbol.MakeImpl` | handlers/static/third-party/qrcode-generator@2.0.4/qrcode.js:43-73 | the symbol is the patterns of its version with the data placed in the cells left free |
| `Symbol.InfoRead` | handlers/static/third-party/qrcode-generator@2.0.4/qrcode.js:179-214 | the finished symbol still shows its format word, twice |
| `Symbol.NumberRead` | handlers/static/third-party/qrcode-generator@2.0.4/qrcode.js:164-177 | from version 7 on the finished symbol still shows its version word, twice |
| `PublishedWords.FormatPublished` | handlers/static/third-party/qrcode-generator@2.0.4/qrcode.js:179-182 | the format words of mask 0 are the four that the standard prints: table C.1 of ISO/IEC 18004:2015 |
| `PublishedWords.VersionPublished` | handlers/static/third-party/qrcode-generator@2.0.4/qrcode.js:164-166 | the version word of version 7 is the one the standard prints: table D.1 of ISO/IEC 18004:2015 |
| `PublishedWords.FormatDown` | handlers/static/third-party/qrcode-generator@2.0.4/qrcode.js:185-196 | down column 8 the bits of the format word ascend, in fifteen rows and no other |
| `PublishedWords.FormatAlong` | handlers/static/third-party/qrcode-generator@2.0.4/qrcode.js:199-210 | along row 8 they descend |
| `PublishedWords.VersionRows` | handlers/static/third-party/qrcode-generator@2.0.4/qrcode.js:164-177 | the bits of the version word ascend row by row in six rows of three, and mirrored |
| `Symbol.StillShown` | handlers/static/third-party/qrcode-generator@2.0.4/qrcode.js:232-253 | placing the data changes no cell that was decided |
| `Symbol.RecoveredSame` | handlers/static/third-party/qrcode-generator@2.0.4/qrcode.js:216-265 | what is read depends on which cells are reserved, not on what they show |
| `Symbol.SymbolDecodes` | handlers/static/third-party/qrcode-generator@2.0.4/qrcode.js:43-73 | the modules alone give the segments back, for every version, level and mask: the side gives the version, which the version word confirms, and the format word level and mask |
| `MaskChoice.TrialIs` | handlers/static/third-party/qrcode-generator@2.0.4/qrcode.js:96-104 | a trial symbol is determined by version, data and mask: its words are left light |
| `MaskChoice.GetBestMaskPattern` | handlers/static/third-party/qrcode-generator@2.0.4/qrcode.js:96-114 | of the eight trial symbols the first that loses fewest points gives the mask, however they are scored; when the data cannot be encoded there is no trial |
| `MaskChoice.SymbolReads` | handlers/static/third-party/qrcode-generator@2.0.4/qrcode.js:43-73 | a symbol drawn under any mask is complete and reads back as the segments |
| `MaskChoice.Make` | handlers/static/third-party/qrcode-generator@2.0.4/qrcode.js:424-453 | for every version asked for, all outcomes told apart; on success the smallest version that fits or the one given, drawn under the best mask, complete, and reading back as the segments |
| `BitStream.BitOutputStream.Write` | handlers/static/third-party/qrcode-generator@2.0.4/qrcode.js:2100-2116 | throws exactly when the number needs more bits than given, otherwise appends its bits, low bit first |
| `BitStream.BitOutputStream.Flush` | handlers/static/third-party/qrcode-generator@2.0.4/qrcode.js:2118-2122 | the bytes are the bits padded with zeros to the byte |
| `Lzw.CodeRead` | handlers/static/third-party/qrcode-generator@2.0.4/qrcode.js:2153-2177 | coder and decoder in step: the code written fits its width, is neither clear nor end, and the decoder knows it, the code about to be made included |
| `Lzw.NextInStep` | handlers/static/third-party/qrcode-generator@2.0.4/qrcode.js:2164-2175 | after every code they are in step again, at the width of the next pixel code, through the stop at 4095 entries |
| `Lzw.Lossless` | handlers/static/third-party/qrcode-generator@2.0.4/qrcode.js:2127-2187 | with a table that knows the pixel values and what was added, every non-empty pixel sequence is recovered by a decoder that builds its own table one entry behind; the end code is missed exactly when the table size has just reached a power of two and the bits fill their last byte: Appendix F of the GIF89a specification |
| `Lzw.EndCodeLost` | handlers/static/third-party/qrcode-generator@2.0.4/qrcode.js:2179-2184 | 66 zero pixels are such an image |
| `LzwRaster.LzwTable.Add` | handlers/static/third-party/qrcode-generator@2.0.4/qrcode.js:2196-2202 | throws exactly for a key that is known or a name every object inherits, otherwise the key gets the next code |
| `LzwRaster.LzwTable.Find` | handlers/static/third-party/qrcode-generator@2.0.4/qrcode.js:2208-2210 | the code of a key that was added; an inherited name finds no number and is written as 0 |
| `LzwRaster.MetIsLost` | handlers/static/third-party/qrcode-generator@2.0.4/qrcode.js:2153-2177 | once the coder goes on from an inherited name, pixels are lost |
| `LzwRaster.RasterExact` | handlers/static/third-party/qrcode-generator@2.0.4/qrcode.js:2127-2187 | for pixels of 2 to 8 bits: every pixel comes back if and only if no string met while coding is an inherited name, and with up to 6 bits none ever is |
| `LzwRaster.GetLzwRaster` | handlers/static/third-party/qrcode-generator@2.0.4/qrcode.js:2127-2187 | the loop writes the coded bits, padded, throws nothing, and the decoder gets every pixel back exactly when no inherited name is met |
| `LzwRaster.Framed` | handlers/static/third-party/qrcode-generator@2.0.4/qrcode.js:2129-2184 | the raster starts with the number one past the pixel values and ends with the one after it, low bit first, at the first and the last width |
| `LzwRaster.NameLost` | handlers/static/third-party/qrcode-generator@2.0.4/qrcode.js:2204-2214 | 27 pixels of seven bits that meet such a name and do not come back |
| `ChunkWriter.Table.Insert` | store/sqlite/file/writer.go:67-84 | a row is added or, on a taken key or a fault outside the program, nothing is and the fault is counted |
| `ChunkWriter.Writer.Write` | store/sqlite/file/writer.go:29-57 | without a fault everything is accepted, with one the bytes counted are exactly those accepted; the rows stay the full slices of the bytes accepted, and other files' rows are untouched |
| `ChunkWriter.Writer.WritePiece` | store/sqlite/file/writer.go:43-53 | one round copies what the buffer holds, and adds a row exactly when a chunk is complete |
| `ChunkWriter.Writer.Close` | store/sqlite/file/writer.go:59-65 | without a fault the rows are all slices, numbered from 0; with one nothing changed, so it can be repeated |
| `ChunkWriter.WriteResuming` | store/sqlite/file/writer.go:39-84 | offering the rest again after failures gets everything in unless every attempt met a fault, and leaves the writer where a run without failures would be |
| `ChunkWriter.StoreFile` | store/sqlite/entries.go:217-225 | any split of a file, written and closed, leaves exactly its slices as rows, and succeeds exactly when no insert met a fault |
| `ChunkWriter.OthersUntouched` | store/sqlite/file/writer.go:67-84 | the rows of every other file are the same before and after |
| `Chunks.SizesAgree` | store/sqlite/file/reader.go:119-164 | the size the reader derives from the first and last row, the sum of the chunk lengths and the bytes written are equal, below one chunk too |
| `ChunkReader.NewReader` | store/sqlite/file/reader.go:23-42 | fails exactly for a file without rows; otherwise starts at 0 over the whole file |
| `ChunkReader.Reader.PopulateBuffer` | store/sqlite/file/reader.go:85-117 | loads the rest of the chunk at the offset, or reports the end exactly at the file length |
| `ChunkReader.Reader.Read` | store/sqlite/file/reader.go:44-68 | ends, returns the next min(len(p), len(D)-pos) bytes, reports the end exactly when pos+len(p) exceeds len(D), and leaves the offset at the end of the last chunk touched |
| `ChunkReader.Reader.Seek` | store/sqlite/file/reader.go:70-83 | SeekStart sets the position to o, SeekEnd to len(D)-o, SeekCurrent to the buffered end plus o |
| `ChunkReader.SeekCurrentExact` | store/sqlite/file/reader.go:44-83 | after any run, a seek from the current position is relative to what was consumed if and only if no byte was read since the last seek, or the position is at a chunk boundary or at the end |
| `ChunkReader.SeekByZeroMoves` | store/sqlite/file/reader.go:77-78 | one byte read from a chunk of two, then a seek by zero: the position reported is 2 |
| `ChunkReader.Drain` | store/sqlite/file/reader.go:44-68 | reads of any sizes deliver the rest of the file |
| `ChunkReader.RoundTrip` | store/sqlite/file/writer.go:29-84 | a file written in any split and read with any read sizes comes back unchanged, and is stored exactly when no insert met a fault |
| `ChunkReader.PerformAll` | store/sqlite/file/reader.go:44-117 | under any run of reads and in-range seeks the reader shows what a two-number cursor over the bytes shows |
| `Store.Store.InsertEntryRow` | store/sqlite/entries.go:227-281 | fails exactly on a known ID; a guest upload takes its owner from the link, whatever the caller passed; whose an entry is after any run, is said by Credits.OwnerExact |
| `Credits.OwnerExact` | store/sqlite/entries.go:227-281 | in every run, told from the events: a direct upload is its uploader's, a guest's the link's owner's as long as the link is there, and the first user takes what is nobody's; the time and the link are those of the insert |
| `Credits.LinkOwnerExact` | store/sqlite/users.go:113-127 | in every run a link belongs to whoever created it, or to the first user |
| `Store.Store.DeleteExpiredEntries` | store/sqlite/cleanup.go:49-108 | the three statements, each selecting the expired entries anew, remove the expired entries with all that belongs to them |
| `Store.Store.DeleteOrphanedRows` | store/sqlite/cleanup.go:110-141 | exactly the chunks with an entry are kept |
| `Store.Store.Purge` | store/sqlite/cleanup.go:11-34 | the four steps in order |
| `Store.Store.InsertGuestLink` | store/sqlite/guest_links.go:70-107 | fails exactly on a known ID |
| `Store.Store.RecordUserLogin` | store/sqlite/users.go:16-127 | a known subject is updated; a new one gets a row, as administrator exactly when it is the first, and then takes over what has no owner |
| `Store.Store.InsertSession` | store/sqlite/sessions.go:11-24 | fails exactly on a known token hash |
| `Store.DropIsKeep` | store/sqlite/cleanup.go:115-128 | deleting the rows whose entry is missing is keeping the rows whose entry exists |
| `StoreLaws.DeleteForgets` | store/sqlite/entries.go:348-390 | after a delete the entry is not found and none of its chunks and downloads is left; every other entry is found as before, with its chunks and each download as often as it was recorded |
| `StoreLaws.EditShown` | store/sqlite/entries.go:316-346 | an edit shows in the lookup of its entry, with the size it had, and in no other |
| `Store.Store.DeleteEntry` | store/sqlite/entries.go:348-390 | the three statements leave the deleted entry unfound and every other lookup as it was |
| `Store.Store.RevokeAdmin` | store/sqlite/users.go:174-207 | the conditional update and the two look-ups after it tell the three outcomes apart, and take the role from this user only |
| `StoreLaws.OlderDropped` | store/sqlite/cleanup.go:143-163 | every download from before the cutoff goes, every other stays as often as it was recorded |
| `StoreLaws.UnlinkedFound` | store/sqlite/guest_links.go:109-144 | deleting a link leaves every entry findable that was, with its size, and makes those on the link findable |
| `StoreLaws.SwitchedOff` | store/sqlite/guest_links.go:146-182 | a link switched off takes no upload at any time, switching it back restores the tables, and no other link is affected |
| `StoreLaws.RevokeExact` | store/sqlite/users.go:174-207 | refused as last administrator exactly when this user is the only one, as unknown exactly when there is no such user; otherwise the administrators are the others, and nothing else about any user changes |
| `StoreLaws.GrantRevoke` | store/sqlite/users.go:152-207 | granting and revoking undo each other whenever both are allowed |
| `RunLaws.DeletedForGood` | store/sqlite/entries.go:348-390 | in every run, a deleted entry is never found again |
| `RunLaws.LastEditHolds` | store/sqlite/entries.go:316-346 | in every run, an entry has the name, note, passphrase and expiration of its last edit, or of its insert if it was never edited |
| `RunLaws.HistoryExact` | store/sqlite/cleanup.go:143-163 | in every run, between two moments at which its entry exists, a download still to be kept is added once for each time it was recorded and never taken away |
| `RunLaws.LoggedIn` | store/sqlite/sessions.go:11-77 | in every run, a token hash gives the user of the session opened last under it, from then until it is closed or expires; purges make no difference |
| `RunLaws.CountMoves` | store/sqlite/guest_links.go:22-37 | which steps change the uploads counted against a link, and how; no other step does |
| `RunLaws.StaysOff` | store/sqlite/guest_links.go:146-182 | in every run, a link switched off accepts no upload until it is switched on |
| `RunLaws.RemovedForGood` | store/sqlite/guest_links.go:109-144 | in every run, a deleted link accepts no upload again, and unless one was under way on it no entry ever counts as its own |
| `Admission.LetInExactly` | picoshare/guest_link.go:46-62 | after every run, told from the events: a guest's upload under a fresh ID is let in if and only if the link was created and not removed, is on, has not expired, and has fewer entries than its limit |
| `Admission.ExpiredForGood` | picoshare/guest_link.go:53-58 | in every run a link past the expiration it was created with accepts no upload |
| `Purging.PurgeComposes` | store/sqlite/cleanup.go:11-163 | a purge at t1 and another at t2 >= t1 leave the same tables as the one at t2 alone |
| `Purging.PurgeKeeps` | store/sqlite/cleanup.go:49-163 | an entry goes exactly when it expired; otherwise it keeps its row, all its chunks and exactly its retained downloads |
| `Purging.PurgeLeavesNoOrphan` | store/sqlite/cleanup.go:110-141 | after a purge every chunk has an entry |
| `Purging.PurgeKeepsSessions` | store/sqlite/sessions.go:30-77 | a purge changes no answer of GetSessionUser, then or later |
| `Purging.ExpiredByText` | store/sqlite/cleanup.go:63-103 | the entries selected by comparing stored texts are those that expire in an earlier second |
| `UploadSafety.FileStep` | store/sqlite/entries.go:210-282 | every step keeps, for every file: an upload has exactly its full chunks as rows, an entry exactly all slices of its file, unless orphan deletion falls between its first flush and its insert |
| `UploadSafety.LostStep` | store/sqlite/entries.go:210-282 | once orphan deletion has taken rows of an upload its first chunk is missing for good, whatever happens |
| `UploadSafety.CompleteExactly` | store/sqlite/entries.go:210-282 | in every run an entry has exactly the chunk sequence of its whole file if and only if no orphan deletion fell between its first flush and its insert |
| `UploadSafety.EveryEntryComplete` | store/sqlite/entries.go:210-282 | in every run such an entry is visible and its reported size is its file's |
| `UploadSafety.NoPartialVisible` | store/sqlite/entries.go:31-40 | in every run, ill-timed purges included, no upload in progress is visible |
| `UploadSafety.QuietPurgeCleans` | store/sqlite/cleanup.go:110-141 | with no upload in flight orphan deletion is harmless and leaves no chunk without an entry |
| `UploadSafety.OrphanDeletionExact` | store/sqlite/cleanup.go:110-141 | orphan deletion is safe if and only if no upload in flight has flushed a chunk |
| `UploadSafety.IllTimedPurge` | store/sqlite/cleanup.go:110-141 | for any times the tables accept: the first user's two-byte upload with the purge in between becomes a visible entry whose first byte is gone |
| `EntryLookup.StepExact` | store/sqlite/entries.go:256-264 | every step keeps every entry's link present, except the insert of a guest's entry whose link is gone |
| `EntryLookup.EveryEntryFound` | store/sqlite/entries.go:118-208 | in every run in which guests' entries find their link, looking up an entry that no ill-timed purge harmed finds it with its file's size |
| `EntryLookup.DeletedLinkHidesEntry` | store/sqlite/entries.go:163-169 | an entry inserted after its link was deleted cannot be looked up, and only such an entry |
| `EntryLookup.LinkLost` | store/sqlite/entries.go:256-264 | a run that gets there, for any times the tables accept: a link is deleted while an upload on it is under way, and the entry belongs to nobody and cannot be looked up |
| `GuestLimit.StepKeeps` | handlers/upload.go:121-150 | every step keeps entries plus pending requests of a link within its limit - 1 + k, with at most k requests between check and insert |
| `GuestLimit.LimitNeverExceeded` | picoshare/guest_link.go:46-62 | in every run a link of limit m has at most m - 1 + k entries, so at most m when requests do not overlap |
| `GuestLimit.BoundReached` | handlers/upload.go:121-150 | for every limit m and every k a run, of non-empty files on a user's link, with at most k requests overlapping that leaves m - 1 + k entries |
| `GuestLimit.LimitKeptExactly` | handlers/upload.go:121-150 | every run with at most k requests overlapping keeps every limit if and only if k is at most one |
| `Runs.EarliestIs` | store/sqlite/migrations/015-convert-to-strict-tables.sql:39-48 | the earliest time the tables accept is the first second of 20 February 2022 |
| `Ownership.StepKeeps` | store/sqlite/users.go:16-207 | every step keeps: an administrator once there are users, distinct subjects, an existing owner for every entry and link |
| `Ownership.AlwaysAdministered` | store/sqlite/users.go:16-207 | the same over every run from the empty store |
| `Ownership.OnlyFirstIsAdmin` | store/sqlite/users.go:40-65 | a login makes an administrator exactly when there was no user before |
| `Logins.LastLoginShown` | store/sqlite/users.go:16-104 | in every run a subject has a user exactly when it has logged in, and then one, with the name and time of its last login |
| `Ownership.GuestInsertExact` | store/sqlite/entries.go:256-264 | once there are users, the insert of a guest's entry keeps ownership if and only if the link is still there |
| `Calendar.CivilOf` | store/sqlite/sqlite.go:112-114 | every second since the start of year 0 has a valid date and time that stands for it |
| `Calendar.Monotone` | store/sqlite/sqlite.go:112-114 | dates and times in calendar order are in time order |
| `Calendar.OneToOne` | store/sqlite/sqlite.go:112-122 | seconds and valid dates and times correspond one to one, in order |
| `Calendar.DaysBeforeYearIs` | store/sqlite/sqlite.go:112-114 | the days before a year: 365 each and one for every fourth, less every hundredth, and every four hundredth |
| `Calendar.DaysBeforeMonthIs` | store/sqlite/sqlite.go:112-114 | the days before a month: from March on, 153 every five months |
| `Timestamps.PaddedOrder` | store/sqlite/sqlite.go:112-114 | numbers padded to a width compare as texts the way they compare as numbers |
| `Timestamps.TextOrder` | store/sqlite/sqlite.go:112-114 | texts of the same layout compare as their fields do, first field first |
| `Timestamps.FormatSpelled` | store/sqlite/sqlite.go:112-114 | a stored time is year, month, day, hour, minute and second, padded, with dashes, a T, colons and a Z: section 5.6 of RFC 3339 |
| `Timestamps.TextOrderIsTimeOrder` | store/sqlite/sqlite.go:108-114 | up to the year 9999 the stored texts compare exactly as the moments do, cut to the second: section 5.1 of RFC 3339 |
| `Timestamps.TextOrderExact` | store/sqlite/sqlite.go:112-114 | the text order of any two moments: by time when their years take equally many digits, otherwise by the leading digits of the longer year |
| `Timestamps.LaterTextExact` | store/sqlite/sqlite.go:112-114 | the later of two moments has the later text if and only if the years take equally many digits or the earlier year is at most the leading digits of the later one |
| `Timestamps.ParseFormat` | store/sqlite/sqlite.go:112-122 | reading a stored time gives it back cut to the second, exactly when its year has four digits |
| `Timestamps.FormatParse` | store/sqlite/sqlite.go:112-122 | a text that can be read is the text of the time it stands for: section 5.6 of RFC 3339 |
| `Timestamps.OrderBreaks` | store/sqlite/sqlite.go:112-114 | the first day of the year 10000 sorts before the last day of 9999 |
| `Lifetimes.DenseChoices` | handlers/views.go:592-595 | below the threshold every day up to the cap is offered, once |
| `Lifetimes.SparseChoices` | handlers/views.go:596-614 | above it the built-in lifetimes within the cap and the cap itself are offered, once each |
| `Lifetimes.MarkDefault` | handlers/views.go:618-637 | exactly the choice with the default lifetime is marked, and added when it is missing |
| `Lifetimes.SortSlice` | handlers/views.go:634-636 | the sort with a comparison that holds only between equals loses nothing; no order is claimed |
| `Lifetimes.BuildChoices` | handlers/views.go:570-637 | the choices are distinct and are exactly the lifetimes on offer and the default, for every cap and default the settings accept |
| `Lifetimes.CappedChoices` | handlers/views.go:570-637 | under a cap none is above it, the cap is offered, and exactly one is the default: the smaller of default and cap |
| `Lifetimes.EveryDayOffered` | handlers/views.go:592-595 | under a cap of at most 30 days the page offers exactly the days up to it |
| `Lifetimes.FewOffered` | handlers/views.go:596-614 | under a longer cap it offers a day, a week, a month and a year as far as they are within it, the cap, and the default if that is within it |
| `Lifetimes.AllOffered` | handlers/views.go:570-591 | without a cap it offers these, forever, and the default |
| `Lifetimes.MarkedIsSmaller` | handlers/views.go:618-637 | the choice marked is the smaller of the settings' default and the cap, and no other |
| `Lifetimes.BuildExpirations` | handlers/views.go:639-658 | each choice carries its time from the clock at that moment, or the sentinel; the custom date comes last |
| `Lifetimes.OfferAccepted` | handlers/upload.go:344-364 | whatever was offered, sent back at any later time, is accepted exactly when it is still an hour ahead and, under a cap, not the sentinel |
| `Lifetimes.CapEnforced` | handlers/upload.go:344-364 | under a cap an accepted time is not the sentinel, and no later than some offered choice, and so the cap, allows |
| `Lifetimes.DaysAccepted` | handlers/upload.go:344-364 | a whole number of days ahead is accepted exactly from one day to the cap |
| `Lifetimes.Uncapped` | handlers/upload.go:344-357 | administrators, and everybody without a cap, may use any time from an hour ahead on, and the sentinel |
| `Fingerprints.FingerprintInjective` | handlers/auth/oidcauth/client.go:308-311 | settings whose first five fields have no bar have different fingerprints when they differ |
| `Fingerprints.NoTwin` | handlers/auth/oidcauth/client.go:308-311 | settings without a bar that could be taken for one between two fields share their fingerprint with no other settings the store accepts |
| `Fingerprints.Twin` | handlers/auth/oidcauth/client.go:308-311 | all others share it with some other settings the store accepts |
| `Fingerprints.FingerprintUnique` | handlers/auth/oidcauth/client.go:308-311 | so a fingerprint belongs to one value of the settings if and only if no bar in them could be taken for one between two fields |
| `Fingerprints.UsableTwinExact` | handlers/auth/oidcauth/client.go:284-311 | no other settings the store accepts, under which a provider can be built, share the fingerprint: an exact condition on where bars stand and what a certificate behind one parses as |
| `Fingerprints.SharedUnusable` | handlers/auth/oidcauth/client.go:284-311 | settings whose fingerprint is shared, but only with settings whose certificate cannot be parsed |
| `Fingerprints.BarsCollide` | picoshare/oidc_settings.go:71-132 | two settings the store accepts that differ and share a fingerprint |
| `ProviderCache.Client.EnsureProvider` | handlers/auth/oidcauth/client.go:203-259 | the outcome and the new cache for every combination of settings, cache and discovery; a failed discovery leaves the cache alone |
| `ProviderLaws.OutcomeExact` | handlers/auth/oidcauth/client.go:203-259 | over every history, told from the logins: a login is ready if and only if its settings were read, are configured, and share the fingerprint of the provider in use or lead to one being discovered; each failure has its own cause; and the provider is the one in use, or the one just discovered |
| `ProviderLaws.FailureForgotten` | handlers/auth/oidcauth/client.go:221-235 | a login that fails changes no later outcome |
| `ProviderCache.CacheMatches` | handlers/auth/oidcauth/client.go:203-259 | over every history, a provider returned was built at this or an earlier login whose settings have the same fingerprint |
| `ProviderCache.CurrentSettingsOnly` | handlers/auth/oidcauth/client.go:203-259 | over every history of settings without a bar in their first five fields, each login gets a provider built from the settings it read |
| `ProviderCache.StaleProvider` | handlers/auth/oidcauth/client.go:217-219 | for any two settings that share a fingerprint, the second login gets the provider of the first, whatever discovery would find |
| `ProviderCache.OwnProviderExact` | handlers/auth/oidcauth/client.go:203-311 | over every history of settings the store accepts, logins under these settings get a provider built from them if and only if no settings under which one can be built could be taken for them |

## Left out

- MaskChoice.Make: holds for every way of scoring trial symbols; the one the source uses is not modelled.
- Symbol.SymbolDecodes: the reader corrects no errors; it reads a symbol as it was drawn. What could be corrected is said by the lemmas of `Correction`; a decoder that does it is not modelled.
- ProviderCache.OwnProviderExact: an identity provider may answer discovery under any stored issuer URL, except where the certificate cannot be parsed.
- ChunkReader.Reader.Seek: says where any seek lands, but reading on from a position outside the file is not modelled.
- ChunkReader.Reader.Read: a chunk row that disappears between opening the file and reading it is not modelled; the error path of the query is, and is shown unreachable while the rows stay.
- Lzw.Lossless: the end code itself is not always seen; the lemma says exactly when it is missed, and LzwRaster.RasterExact what inherited names change.
- LzwRaster.RasterExact: the inherited names are those of the objects of a current JavaScript engine.
- Fingerprints.FingerprintUnique: the library's test for an absolute URL is a parameter with two properties: a URL does not start with a bar, and what stands before a bar in one is a URL.
- Bch.BchTypeInfo: numbers are unbounded here, so the data is bounded to where 32-bit shifts agree with them.
- Bch.BchTypeNumber: bounded for the same reason.
- Codewords.CreateBytes: asks for blocks whose generator can be divided by; every row of the block table has such blocks, and beyond them the source throws.
- Timestamps.ParseFormat: reads the one layout the store writes; the fractional seconds, offsets and one-digit hours the library also accepts are not modelled.
- Lifetimes.SortSlice: no order of the choices is claimed, because the source's comparison does not order them.
- GuestLimit.LimitNeverExceeded: the link's limit on bytes per file is not modelled.
- Kanji segments, the text encoding in front of byte segments, mask scoring and every drawing of the finished symbol (SVG, table, ASCII, canvas), and the GIF header and base64 around the raster.
- HTTP routing, cookies, templates, page scripts and translation.
- OIDC discovery, token exchange, TLS, hashing and random generation: discovery is a parameter that may fail, and IDs and token hashes are taken as never drawn twice.
- SQLite itself: each statement or transaction is one atomic step, keys are unique, and foreign keys are not relied on; vacuum and migrations are not modelled.
- Content types, labels, e-mail addresses, languages and the listing of many entries at once: columns that no property here depends on.
- Validation of file names, notes, labels, user names and settings other than the OIDC ones, and the disk-usage checks are not modelled.
