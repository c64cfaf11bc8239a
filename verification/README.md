# libbson, modelled and proved in Dafny

libbson serialises, decodes and converts BSON documents. This project models its core and proves what the
code is for. The code that changes things in place is modelled as classes, arrays and loops, each proved
against a specification function; the theorems are about those specifications, for every input and every run.
`dafny verify dfyconfig.toml` checks everything.

The parts, one module per file:

- **Builder** (`Bytes`, `BsonTree`, `BsonLayout`, `RegexOptions`, `Builder`, `BuilderRuns`, `BuilderCalls`). A document and its
  open descendants share one growing buffer. While a child is open, the length prefix of every ancestor is stale and no ancestor has its
  final NUL. `Builder.Image` says which bytes those are at every moment, and `Builder.Buffer.Valid` ties the
  array, each open document's offset, depth and length, and the reserved capacity to the tree built so far.
  Every operation keeps it. `BsonLayout` reads the bytes of every element off as the BSON specification lists them. `BuilderRuns` says what a run of calls means, and `BuilderCalls` makes the calls on
  real documents: after any balanced run the buffer is the tree's serialisation.
- **Iterator** (`BsonDecode`, `BsonSteps`, `BsonFind`, `Iter`). `Decode` specifies one bounds-checked step over arbitrary
  bytes, and `Cursor` is proved to take exactly that step; `BsonSteps` says for each type on which bytes it succeeds and where it reports damage. Walks tile the document; decoding undoes encoding;
  searching the bytes is searching the tree.
- **decimal128 text** (`DecimalBits`, `DecimalDigits`, `DecimalText`, `DecimalSyntax`, `DecimalGrammar`, `DecimalPrinter`,
  `DecimalRange`, `DecimalParser`, `DecimalRoundTrip`). Printer and parser, down to the 128-bit division, multiplication, carry
  and bit packing. `DecimalText.Read` and `Render` are the meaning of a text; `DecimalSyntax` is the grammar of what is
  read, and `DecimalGrammar` that of what is printed.
- **Civil time** (`Calendar`, `CivilTime`, `CivilInverse`). The year-guessing loop of `timesub` and the binary
  search of `time2sub`, against counting days in the proleptic Gregorian calendar, and that against a day number
  that needs no table of months.
- **JSON lexer** (`LexerStep`, `Lexer`, `LexerNesting`, `LexerTokens`, `LexerClient`, `LexerPlaces`, `JsonEscapes`,
  `JsonGrammar`, `JsonTokens`, `JsonLexing`, `JsonDepth`). `LexerStep.Step` is one byte; `Lexer.Parser.Feed` is the loop
  with the two fast scans. `JsonGrammar` has the texts of RFC 8259, with any spacing, any escapes and any numbers, and the
  events each stands for; the lexer is proved to turn the one into the other, up to its nesting limit. `LexerPlaces` lists
  for each place in a text the bytes with which the lexer goes on.
- **JSON reader** (`JsonMachine`, `JsonKeywords`, `JsonNotations`, `JsonTexts`, `JsonNesting`, `JsonUnion`, `JsonReader`). The
  Extended JSON reader as a state machine over lexer events, what every run of it keeps, and the callbacks that implement
  it; a callback that runs no loop is the machine's step stored back into the fields.
- **What a JSON text means** (`JsonMeaning`, `JsonDenotation`, `JsonWrappers`, `JsonReading`, `JsonAccepted`). `JsonMeaning`
  reads a document off the tree of a text: bare numbers, canonical, relaxed and legacy wrappers, DBRefs, and what is an error.
  The reader is proved to come to the same, and lexer and reader together to accept a text exactly if it means a document.
- **JSON writer and round trip** (`JsonRoundTrip`, `JsonSyntax`, `JsonText`, `JsonBridge`, `JsonForms`, `JsonPipeline`,
  `JsonWriter`, `JsonChunks`, `JsonDocument`). The canonical writer's visitors, the text of each type letter by letter, when
  they give up, and why the text read back by lexer, reader and builder gives the document's own bytes.
- **Text codecs** (`Utf8`, `JsonString`, `Base64`) and **streaming** (`Md5`, `Reader`, `ReaderStreams`).

Where the code and its documentation disagree, the model follows the code:

- The comment above `bson_decimal128_from_string` (src/bson/bson-decimal128.c:418-440) speaks of rounding and of
  infinity on overflow; the code refuses what it cannot store exactly, and so does the model.
- The rounding test there (src/bson/bson-decimal128.c:658-674)
  does not skip the decimal point. A number that is written with a point, has exponent field -6177 and needs
  zeros cut is therefore refused although it is representable. `DecimalRange.AcceptsIff` states exactly when.
- A negative decimal128 with a 35-digit coefficient, which IEEE 754-2008 does not count as canonical, loses its
  last digit in scientific format, and at exponent -40 fills the caller's 43 bytes without leaving room for the
  NUL. `DecimalPrinter.ToString` says that exactly these do, and `DigitIsLost` and `BufferIsFilled` show one of each.
- `bson_append_regex` (src/bson/bson.c:1573-1588) declares one byte fewer than it copies. The room that the open
  documents need for their NULs is lost exactly when the declared bytes fill the buffer;
  `Builder.Doc.RegexKeepsRoomIff` states this and `BuilderCalls.RegexOverfills` shows an input.
- `bson_utf8_from_unichar` documents no limit, but its form of six bytes (src/bson/bson-utf8.c:467-474) shifts by one
  bit too many, so that code points from 2^26 on do not read back. `Utf8.FromUnichar` states the exact range.
- The reader over memory casts what is left to `int32_t` (src/bson/bson-reader.c:577) and so may refuse a document
  when 2^31 bytes or more are left; `Reader.DataReader.Read` says which.
- UTF-8 validation admits the two-byte NUL C0 80, but the JSON writer gives up on it (src/bson/bson.c:2480-2500).
  `JsonWriter.AsCanonicalExtendedJson` says which documents have a text, and the round trip is about documents that
  have one.
- Of a bare JSON number the lexer keeps 64 bits without a test (src/jsonsl/jsonsl.c:205), so that 2^64 + 5 is read as 5;
  `JsonAccepted.BareNumber` and `KeptIff` say when the number read is the number written. Behind `-0` it lets more digits
  follow, which count for nothing (`LexerPlaces.BehindMinusZero`), and in a list it wants no comma in front of a string
  (`LexerPlaces.BehindItem`); a word that begins with `n` and is neither `null` nor NaN becomes a token of no type, of which the
  reader hears nothing (`LexerPlaces.BehindN`). RFC 8259 has none of these.
- `{ "$date" : { } }` is read as the epoch (src/bson/bson-json.c:1507-1516), though no documented form lacks its number;
  `JsonMeaning.Nested` has it.
- At a truncated last document the reader over a callback reports the end of file and the reader over memory
  does not; `Reader.HandleReader.Read` and `Reader.DataReader.Read` say so.

## Model

| member | source | states |
|---|---|---|
| `Builder.GrownSizeFits` | src/bson/bson-types.h:518-533 | rounding a size up to a power of two stays below the 2^31-1 byte limit exactly for sizes up to 2^30, so that is how far a buffer grows |
| `Builder.Buffer.Reallocate` | src/bson/bson.c:168-193 | the new array is as long as asked and keeps the used bytes |
| `Builder.CopyInto` | src/bson/bson.c:332-344 | a copy into the buffer changes exactly the bytes it covers |
| `Builder.Doc.Init` | src/bson/bson.c:1934-1948 | a new document is the five bytes of the empty document in the inline buffer |
| `Builder.Doc.Grow` | src/bson/bson.c:115-222 | it succeeds exactly when the bytes asked for, and one NUL for every open ancestor, fit the buffer now or 2^30 bytes; the documents in the buffer and their extents are kept, and an inline document that grows out of 120 bytes moves to the heap |
| `Builder.Doc.EncodeLength` | src/bson/bson.c:272-281 | the four length bytes of this document, and no others, take the value of `len` |
| `Builder.Doc.CopyPairs` | src/bson/bson.c:329-344 | the pairs stand where the old final NUL stood, in order, and `len` grows by their total |
| `Builder.Doc.WritePairs` | src/bson/bson.c:310-351 | in this document's part of the buffer: new length, old body, the pairs, one NUL |
| `Builder.Doc.Commit` | src/bson/bson.c:310-351 | bytes in the buffer and elements in the tree change together: only the innermost document gains the elements, no ancestor moves |
| `Builder.Doc.AppendPairs` | src/bson/bson.c:379-408 | it succeeds exactly when the declared total fits under the size limits; on success the innermost document gains those elements, on failure no document changes; the capacity invariant (room for all open ancestors' NULs) holds after either |
| `Builder.ValueParts` | src/bson/bson.c:726-1267 | for each type, the pairs spell the payload that the BSON specification gives for the value, and the declared total is its length |
| `Builder.Doc.AppendValue` | src/bson/bson.c:726-1804 | any scalar but a regex, copied document or copied array becomes the last element of the innermost document, or nothing changes |
| `Builder.Doc.AppendRegex` | src/bson/bson.c:1543-1592 | a regex, its options put in order, becomes the last element of the innermost document, or nothing changes; the source declares one byte fewer than it copies, so this asks that the declared bytes do not fill the buffer exactly |
| `Builder.Doc.RegexKeepsRoomIff` | src/bson/bson.c:1543-1592 | that condition is exact: after the copy the open documents still have room for their NULs if and only if the declared bytes do not fill the buffer |
| `Builder.Doc.AppendDocument` | src/bson/bson.c:3465-3477 | `bson_concat`: all elements of the other document follow those of this one; an empty document always succeeds |
| `Builder.Doc.AppendChildBegin` | src/bson/bson.c:433-518 | on success a new empty child is open innermost and shares the buffer; on failure nothing is open that was not |
| `Builder.Doc.LinkChild` | src/bson/bson.c:487-517 | the appended empty document turns into an open child: offset, depth and parent agree with the tree, and every ancestor's length is now the stale one |
| `Builder.Doc.AbsorbChild` | src/bson/bson.c:551-564 | the parent's length takes in the child and its final NUL is written, all inside the buffer as it is |
| `Builder.Doc.AppendChildEnd` | src/bson/bson.c:538-565 | the child becomes the last element of its parent in place; the buffer never grows, because the invariant kept room |
| `Builder.ImageOfOpen` | src/bson/bson.c:433-518 | while a child is open, only its parent's length prefix and final NUL differ from the closed form |
| `Builder.ImageOfClose` | src/bson/bson.c:538-565 | putting the true length over the stale one and a NUL at the end gives the serialisation with the child included |
| `Builder.ExtentsOfPut` | src/bson/bson.c:310-351 | an append to the innermost document moves no document and makes no other ancestor's stale length wrong |
| `Builder.FirstByte` | src/bson/bson.c:3465-3477 | a document is empty exactly when its fifth byte is NUL, which is what concatenation tests |
| `BuilderRuns.ScriptBuilds` | src/bson/bson.c:310-565 | whatever is open, the begin/append/end calls that spell out a list of trees append exactly those trees |
| `BuilderRuns.RunConcat` | src/bson/bson.c:310-565 | a run of calls is the run of its two halves, misuse included |
| `BuilderRuns.RunIsLocal` | src/bson/bson.c:433-565 | calls made inside a child never touch the documents around it |
| `BuilderRuns.InPlaceEqualsCopy` | src/bson/bson.c:1118-1145 | building a child in place gives the same buffer as building it apart and appending a copy |
| `BuilderRuns.ClosingSize` | src/bson/bson.c:433-565 | closing all open documents adds one NUL for each ancestor and nothing else, which is the capacity the invariant reserves |
| `BuilderRuns.BalancedRunIsScript` | src/bson/bson.c:310-565 | any run of calls that ends with only the root open does what the script of the tree it built does |
| `BuilderCalls.Execute` | src/bson/bson.c:310-565 | a run of calls made on real documents that share one buffer: at every moment the open documents are those of the run so far, bytes included; `Progress` says exactly how far the run gets, and the call that stops it is misuse, or asks for more than 2^30 bytes, or is a regex that would fill the buffer |
| `BuilderCalls.Build` | src/bson/bson.c:310-565 | a run made on a new document gets exactly as far as `Progress` says, and a balanced run that gets to its end leaves the serialisation of the tree it spells in the buffer |
| `BuilderCalls.ProgressStops` | src/bson/bson.c:115-222 | where a run stops, the next call is a regex, or misuse, or leads to a document of more than 2^30 bytes |
| `BuilderCalls.ProgressReaches` | src/bson/bson.c:115-222 | without regexes a run gets to its end if and only if it never misuses the builder and its document, once closed, has at most 2^30 bytes |
| `BuilderCalls.BuildReaches` | src/bson/bson.c:115-222 | a balanced run without regexes on a new document gets to its end if and only if the serialisation of its tree has at most 2^30 bytes |
| `BuilderCalls.RegexOverfills` | src/bson/bson.c:1543-1592 | in a new document, a regex with a pattern of 112 bytes under an empty key asks for the 120 bytes there are, and needs 121 |
| `RegexOptions.SortOptions` | src/bson/bson.c:1529-1540 | the options come out each once, in the order i, l, m, s, u, x, and no others |
| `RegexOptions.SortedAgain` | src/bson/bson.c:1529-1540 | the same letters remain, and sorting again changes nothing |
| `RegexOptions.KeepsKnownInOrder` | src/bson/bson.c:1529-1540 | of any options exactly the letters i, l, m, s, u, x are kept, and they come in the order of the alphabet |
| `BsonTree.BodyConcat` | src/bson/bson.c:3465-3477 | the bytes of two element lists, joined, are the bytes of the joined list |
| `BsonLayout.EightBytes` | src/bson/bson.c:1390-1420 | numbers of 64 bits are stored low byte first: the bytes, weighted by powers of 256, add up to the number |
| `BsonLayout.DocumentLayout` | src/bson/bson.c:310-351 | a document is its own size in four bytes, its elements and a NUL |
| `BsonLayout.Layout` | src/bson/bson.c:726-1804 | for every value of every type: the element is the type byte of the BSON specification, the key with its NUL, and a payload whose lengths, numbers and texts are where and what the specification says |
| `BsonDecode.DecodeStaysInside` | src/bson/bson-iter.c:518-794 | over arbitrary bytes, a successful step moves strictly forward and every field it leaves for the element's type, payload included, lies inside the document |
| `BsonDecode.EndIsLastByte` | src/bson/bson-iter.c:500-516 | with a NUL last byte, a walk ends cleanly only on that byte |
| `BsonDecode.WalkTiles` | src/bson/bson-iter.c:477-794 | every walk is finite and strictly increasing, each element ends where the next begins, and it ends without damage if and only if it stops on the last byte |
| `BsonDecode.PayloadRoundTrip` | src/bson/bson-iter.c:855-1822 | for each type, one step over the value's bytes is exactly as wide as the value, and the typed accessor returns it |
| `BsonDecode.ElementsRoundTrip` | src/bson/bson-iter.c:477-794 | stepping through the bytes of an element list gives back its keys and values, in order, and then ends |
| `BsonDecode.RoundTrip` | src/bson/bson-iter.c:477-794 | decoding undoes encoding for whole trees, all the way down |
| `BsonDecode.EncodeInjective` | src/bson/bson.c:310-351 | no two trees have the same bytes |
| `BsonSteps.StringIff` | src/bson/bson-iter.c:530-565 | a string, symbol or code is taken if and only if a length of at least one fits in front of the last byte and ends in a NUL; a byte that should be that NUL is where the damage is, else the payload's start |
| `BsonSteps.BinaryIff` | src/bson/bson-iter.c:567-606 | binary: a length that fits, and for subtype 2 an inner length of four less |
| `BsonSteps.DocumentIff` | src/bson/bson-iter.c:608-625 | documents and arrays: just a length that fits |
| `BsonSteps.FixedIff` | src/bson/bson-iter.c:518-645 | types of fixed width: they end in front of the last byte, or there is damage at the payload |
| `BsonSteps.RegexIff` | src/bson/bson-iter.c:646-675 | regex: two NULs in front of the last byte; without them the damage is at the element |
| `BsonSteps.PointerIff` | src/bson/bson-iter.c:677-702 | DBPointer: a text as above and twelve bytes |
| `BsonSteps.ScopeIff` | src/bson/bson-iter.c:704-751 | code with scope: a total of at least 14, a text and a scope whose lengths add up to it |
| `BsonFind.FoundIsStep` | src/bson/bson-iter.c:255-279 | what a search by key returns is a place a step decodes, with that key |
| `BsonFind.FindsFirst` | src/bson/bson-iter.c:255-279 | on a serialised document the search finds the first element with the key, and fails exactly when there is none |
| `BsonFind.DescendIsLookup` | src/bson/bson-iter.c:364-397 | a dotted path on the bytes finds exactly what the path means on the tree, or nothing when the tree has nothing there |
| `BsonFind.PathOfTwo` | src/bson/bson-iter.c:364-397 | `a.b` is the element `b` of the first element `a` if that is a document or array, and nothing otherwise; a key without a dot is a key |
| `BsonFind.ChildBytes` | src/bson/bson-iter.c:146-177 | the child iterator over a document or array value sees exactly that value's own serialisation |
| `Iter.DamageIsNonzero` | src/bson/bson-iter.c:477-794 | damage is always reported at a nonzero offset, so `err_off` = 0 after a walk means it ended cleanly |
| `Iter.Cursor.InitFromData` | src/bson/bson-iter.c:86-126 | it accepts exactly the byte strings whose length field is their length and whose last byte is NUL |
| `Iter.Cursor.ScanNul` | src/bson/bson-iter.c:507-516 | it stops on the first NUL at or after its start, or at the end |
| `Iter.Cursor.FillString` | src/bson/bson-iter.c:530-565 | strings: the step equals the specified decoding, error offset included |
| `Iter.Cursor.FillBinary` | src/bson/bson-iter.c:567-606 | binary: the same, including the nested length of subtype 2 |
| `Iter.Cursor.FillDocument` | src/bson/bson-iter.c:608-625 | documents and arrays: the same |
| `Iter.Cursor.FillRegex` | src/bson/bson-iter.c:646-675 | regex: both strings end inside the document |
| `Iter.Cursor.FillDbPointer` | src/bson/bson-iter.c:677-702 | DBPointer: the same |
| `Iter.Cursor.FillCodeWithScope` | src/bson/bson-iter.c:704-751 | code with scope: both lengths, the NUL and the scope lie inside the declared total |
| `Iter.Cursor.Fill` | src/bson/bson-iter.c:518-782 | every type byte is decoded as specified; unknown ones are reported as unsupported |
| `Iter.Cursor.Next` | src/bson/bson-iter.c:477-794 | one step over any bytes: fields, next offset, success, error offset and the unsupported flag are those of the specification; `err_off` is 0 exactly at a clean end |
| `Iter.Cursor.FindWithLen` | src/bson/bson-iter.c:255-279 | it stops on the first match from the current place, and says so exactly when there is one |
| `Iter.Cursor.Recurse` | src/bson/bson-iter.c:146-177 | a child cursor exists exactly for documents and arrays and starts at the beginning of the value's own bytes |
| `Iter.Cursor.FindDescendant` | src/bson/bson-iter.c:364-397 | the recursive search stops where the specification of a dotted path says, in a cursor over the right document |
| `Iter.DotOrEnd` | src/bson/bson-iter.c:377-381 | the first dot of the path, or its end |
| `DecimalBits.PackMeaning` | src/bson/bson-decimal128.c:717-735 | packing a sign, exponent and coefficient below 2^113 and reading the fields gives them back |
| `DecimalBits.MeaningPack` | src/bson/bson-decimal128.c:163-201 | a number without the special prefix is stored in exactly one way: packing its fields gives its two words |
| `DecimalBits.KnownWords` | src/bson/bson-decimal128.c:717-735 | the words of 1, of 1000 as 1E+3, of the least negative zero, of the greatest number, of the infinities and of NaN |
| `DecimalDigits.DigitsOfValue` | src/bson/bson-decimal128.c:203-246 | a digit string without leading zeros is the digits of its value |
| `DecimalDigits.TrailingZeros` | src/bson/bson-decimal128.c:601-656 | the last k digits are zero exactly when cutting them divides the value by 10^k |
| `DecimalText.ReadRender` | src/bson/bson-decimal128.c:125-307 | the text of a decimal, in any of the three formats, reads as the same sign, digits (leading zeros aside) and exponent |
| `DecimalSyntax.ReadIff` | src/bson/bson-decimal128.c:441-561 | a text is a number if and only if it is an optional sign, digits with at most one point and at least one digit, and optionally `e` or `E`, blanks, a sign and digits; and it is then the number these parts write |
| `DecimalSyntax.WordsIff` | src/bson/bson-decimal128.c:470-495 | behind an optional sign, `inf` and `infinity` in any case are an infinity of that sign, `nan` in any case is NaN, and no other text is one of them |
| `DecimalGrammar.RenderIsNotation` | src/bson/bson-decimal128.c:248-306 | the printed text: an optional minus, digits with at most one point and no needless leading zero, and exactly if the adjusted exponent is below -6 or the exponent positive, one digit before the point, `E`, a sign and the adjusted exponent's digits |
| `DecimalPrinter.DivideByBillion` | src/bson/bson-decimal128.c:76-102 | four-word division by 10^9: quotient times 10^9 plus remainder is the dividend, and the remainder is below 10^9 |
| `DecimalPrinter.StoreNine` | src/bson/bson-decimal128.c:226-229 | nine digits with the value of the remainder; the others stay |
| `DecimalPrinter.SplitDigits` | src/bson/bson-decimal128.c:214-232 | 36 digits whose value is the 113-bit coefficient |
| `DecimalPrinter.Significand` | src/bson/bson-decimal128.c:198-246 | the significant digits are the decimal digits of the coefficient, zero for the non-canonical words the source replaces |
| `DecimalPrinter.CopyDigits` | src/bson/bson-decimal128.c:267-269 | the digits are appended whole if they end within the limit; otherwise the text is the first digits up to the limit |
| `DecimalPrinter.PadZeros` | src/bson/bson-decimal128.c:294-296 | exactly the missing zeros are written |
| `DecimalPrinter.FormatScientific` | src/bson/bson-decimal128.c:258-272 | mantissa, `E`, a plus or minus sign and the exponent, within the buffer; a negative 35-digit number loses its last digit |
| `DecimalPrinter.FormatPointed` | src/bson/bson-decimal128.c:281-304 | leading zeros and point are placed so that the text denotes the digits times the power of ten; it fills the buffer only for a negative 35-digit number at exponent -40 |
| `DecimalPrinter.Format` | src/bson/bson-decimal128.c:248-306 | the choice among the three formats |
| `DecimalPrinter.ToString` | src/bson/bson-decimal128.c:125-307 | for every bit pattern: `NaN`, `Infinity` or `-Infinity` for the special ones; for a number the notation of the decimal arithmetic specification, digit for digit, if and only if it does not lose a digit, and room for the NUL in 43 bytes if and only if it does not fill them; each exception is one named family of negative numbers with a non-canonical 35-digit coefficient |
| `DecimalPrinter.DigitIsLost` | src/bson/bson-decimal128.c:258-272 | the words of -10^34 times 10 are printed without their last digit, as -10^33 times 10^2 |
| `DecimalPrinter.BufferIsFilled` | src/bson/bson-decimal128.c:281-304 | the text of -10^34 times 10^-40 has 43 characters and fills the buffer |
| `DecimalRange.ReduceBounds` | src/bson/bson-decimal128.c:585-656 | what is stored has a coefficient below 10^34 and an exponent in range |
| `DecimalRange.ReduceIsExact` | src/bson/bson-decimal128.c:585-656 | normalisation keeps coefficient times 10^exponent |
| `DecimalRange.AcceptsIff` | src/bson/bson-decimal128.c:598-674 | a number is accepted if and only if it has an exact 34-digit representation and is not of the one family that is refused by mistake: a point is present, the exponent field is -6177, and zeros must be cut |
| `DecimalParser.ScanBody` | src/bson/bson-decimal128.c:498-532 | the digit loop: digits without leading zeros, their count, the digits after the point, and where the first nonzero one stands; it fails exactly at a second point |
| `DecimalParser.CountSignificant` | src/bson/bson-decimal128.c:575-582 | everything after the significant digits is zero, and counting stops early only at the point |
| `DecimalParser.CorrectedExponent` | src/bson/bson-decimal128.c:590-595 | the exponent field less the digits after the point |
| `DecimalParser.ShiftUp` | src/bson/bson-decimal128.c:598-616 | an exponent that is too large moves into the coefficient if 35 places are enough, and is clamped for zero |
| `DecimalParser.ShiftDown` | src/bson/bson-decimal128.c:618-656 | an exponent that is too small succeeds exactly when enough trailing digits exist and are zero, and is clamped for zero |
| `DecimalParser.RoundsAway` | src/bson/bson-decimal128.c:658-674 | the rounding test reads one character without skipping the point; this says which |
| `DecimalParser.Normalised` | src/bson/bson-decimal128.c:585-674 | the two loops and the rounding test together accept and store what the specification says |
| `DecimalParser.RoundingAtPoint` | src/bson/bson-decimal128.c:658-674 | the rounding test trips over the point exactly in the family named above |
| `DecimalParser.Mul64x64` | src/bson/bson-decimal128.c:329-362 | the 128-bit product is exact |
| `DecimalParser.Fold` | src/bson/bson-decimal128.c:684-707 | multiply-and-add over a run of digits gives their value without wrapping |
| `DecimalParser.Accumulate` | src/bson/bson-decimal128.c:676-707 | high half times 10^17 plus low half is the coefficient |
| `DecimalParser.StoreDigits` | src/bson/bson-decimal128.c:676-737 | product, carry and packing give the coefficient and exponent bit for bit |
| `DecimalParser.PackWords` | src/bson/bson-decimal128.c:717-735 | the words for a coefficient whose high part is below 2^49 are the packed form |
| `DecimalParser.Istreq` | src/bson/bson-decimal128.c:375-415 | equality without regard to ASCII case |
| `DecimalParser.ScanNumber` | src/bson/bson-decimal128.c:497-561 | the number is well formed exactly when the scan, the exponent and the end of text are accepted |
| `DecimalParser.StoreNumber` | src/bson/bson-decimal128.c:563-737 | from scanned digits to the stored number, or NaN and failure |
| `DecimalParser.FromString` | src/bson/bson-decimal128.c:441-738 | every string: refused with NaN, or accepted with exactly the specified words |
| `DecimalRoundTrip.RoundTrip` | src/bson/bson-decimal128.c:125-738 | parsing the text of any finite decimal128 with a coefficient below 10^34, signed zeros and trailing zeros included, or of an infinity gives it back bit for bit |
| `DecimalRoundTrip.FiniteRoundTrip` | src/bson/bson-decimal128.c:125-738 | and that text with its NUL has at most 43 bytes |
| `DecimalRoundTrip.ParsesExactly` | src/bson/bson-decimal128.c:441-738 | an accepted nonzero number is exactly the rational the text denotes; it is accepted if and only if representable and outside the refused family; otherwise the result is failure |
| `DecimalRoundTrip.ZeroIsClamped` | src/bson/bson-decimal128.c:585-656 | a zero is always accepted, its sign kept and its exponent clamped |
| `DecimalRoundTrip.RejectedThoughRepresentable` | src/bson/bson-decimal128.c:658-674 | `10.00E-6177` is refused although it is 1E-6176, which the format holds |
| `Calendar.LeapsStep` | src/bson/bson-timegm.c:319-324 | leaps(y) - leaps(y-1) is 1 exactly in leap years, for every integer year |
| `Calendar.LeapsAsFloors` | src/bson/bson-timegm.c:319-324 | the recursive leap count is floor(y/4) - floor(y/100) + floor(y/400), negative years included |
| `Calendar.YearsApart` | src/bson/bson-timegm.c:379-381 | the jump between two guessed years is the number of days between them |
| `Calendar.FewLeapDays` | src/bson/bson-timegm.c:379-381 | no run of years has more leap days than one in four and one more, which is why a jump of two years or more always falls short of a year before 1970 |
| `Calendar.DayIsGregorian` | src/bson/bson-timegm.c:270-324 | the day number counted with the table of month lengths is that of the Gregorian formula that counts from March, 153 days in five months, for every year and month |
| `Calendar.DaysInMonth` | src/bson/bson-timegm.c:270-272 | April, June, September and November have 30 days, February 28 or 29, the others 31 |
| `CivilTime.IncrementOverflow` | src/bson/bson-timegm.c:464-479 | the sum, or the old value and a flag when it leaves the range of `int` |
| `CivilTime.Jump` | src/bson/bson-timegm.c:366-383 | one guess never passes the year sought and strictly shrinks the distance, so the loop ends |
| `CivilTime.FindYear` | src/bson/bson-timegm.c:363-383 | the year-guessing loop finds the year and the day in it if the day lies in a year of the range of `int`, and fails otherwise |
| `CivilTime.Settle` | src/bson/bson-timegm.c:384-413 | the adjustment loops keep the instant and bring day and second into range, failing only for instants that have no date |
| `CivilTime.FindMonth` | src/bson/bson-timegm.c:436-439 | a day of the year becomes its month and day of month |
| `CivilTime.FindWeekday` | src/bson/bson-timegm.c:421-427 | (4 + days since the epoch) mod 7, without overflow |
| `CivilTime.WriteFields` | src/bson/bson-timegm.c:414-444 | all fields are in range and denote the instant |
| `CivilTime.Timesub` | src/bson/bson-timegm.c:326-445 | it returns a date if and only if the year fits an `int`; then the fields are in range, weekday and day of year are right, and the date's second count is the input |
| `CivilInverse.TmcompOrders` | src/bson/bson-timegm.c:516-530 | comparing dates field by field orders them exactly as their second counts |
| `CivilInverse.CivilMonotone` | src/bson/bson-timegm.c:326-530 | `timesub` is strictly monotone and a second has one date only |
| `CivilInverse.PosixFormula` | src/bson/bson-timegm.c:326-445 | from 1970 on the fields satisfy the "Seconds Since the Epoch" formula of section 4.16 of POSIX.1-2017 |
| `CivilInverse.IncrementOverflow32` | src/bson/bson-timegm.c:481-490 | the sum, or the old value and a flag when it overflows |
| `CivilInverse.NormalizeOverflow` | src/bson/bson-timegm.c:492-501 | units end in range and carry by floor division |
| `CivilInverse.NormalizeOverflow32` | src/bson/bson-timegm.c:503-514 | the same for months and years |
| `CivilInverse.NormalizeDay` | src/bson/bson-timegm.c:570-592 | the three loops bring the day of the month into its month and keep the day number |
| `CivilInverse.NormalizeClock` | src/bson/bson-timegm.c:551-560 | clock fields end in range and carry into the day, keeping the second count |
| `CivilInverse.Normalize` | src/bson/bson-timegm.c:551-597 | the normalised fields denote the same instant as the given ones |
| `CivilInverse.SetAside` | src/bson/bson-timegm.c:598-616 | seconds outside a minute are put aside without loss |
| `CivilInverse.Compare` | src/bson/bson-timegm.c:629-637 | a guess is compared correctly with the date sought even when it has no date itself |
| `CivilInverse.Search` | src/bson/bson-timegm.c:617-657 | the binary search over all of int64 keeps the answer between its bounds, ends, and finds it |
| `CivilInverse.Time2sub` | src/bson/bson-timegm.c:532-699 | with fields up to 10^9 in size it succeeds with the second asked for and rewrites the fields to that second's date |
| `CivilInverse.Time2` | src/bson/bson-timegm.c:701-716 | the same, whichever of the two attempts succeeds |
| `CivilInverse.Timegm` | src/bson/bson-timegm.c:788-794 | `_bson_timegm` returns the second the fields ask for, whatever mixture of fields asks for it, and never its error value instead |
| `CivilInverse.RequestedIsGregorian` | src/bson/bson-timegm.c:788-794 | that second is 86400 times the proleptic Gregorian day number, by a formula that uses no table, plus 3600h + 60m + s, the day of the month running on into later months |
| `CivilInverse.CivilIsGregorian` | src/bson/bson-timegm.c:326-445 | the fields of a second are those of the Gregorian calendar by the same formula: the day lies in its month, the day of the year and the weekday are right |
| `Lexer.StepKeeps` | src/jsonsl/jsonsl.c:221-743 | every branch on one byte keeps the stack's size and, while the lexer runs, its level inside the stack |
| `Lexer.RunConcat` | src/jsonsl/jsonsl.c:221-743 | feeding chunk a then chunk b is feeding a+b, since a run is the fold of one-byte steps; that the real loop with its fast scans is that fold is `Lexer.Parser.Feed` |
| `Lexer.Parser.constructor` | src/jsonsl/jsonsl.c:102-136 | a new lexer is at the starting state |
| `Lexer.Parser.StrFastparse` | src/jsonsl/jsonsl.c:161-187 | the fast scan over string bytes equals the one-byte step repeated, and stops at the first byte that is not plain |
| `Lexer.Parser.NumFastparse` | src/jsonsl/jsonsl.c:191-218 | the same for digits, the accumulated value included |
| `Lexer.Parser.Feed` | src/jsonsl/jsonsl.c:221-743 | feeding a buffer with both fast scans equals the one-byte step over it |
| `LexerNesting.StepNests` | src/jsonsl/jsonsl.c:221-743 | one byte keeps pushes and pops matched and the stack equal to the open pushes |
| `LexerNesting.RunNests` | src/jsonsl/jsonsl.c:221-743 | every run, also one that fails or is stopped, makes calls that nest: matched pairs have equal types, keys and values alternate in objects with an even count at the pop, and the level is the number of open pushes and below the number of levels |
| `LexerNesting.ClosedDocument` | src/jsonsl/jsonsl.c:221-743 | when the document is closed its pushes and pops balance |
| `LexerTokens.StepTaken` | src/jsonsl/jsonsl.c:221-743 | in every branch, a call that opens a key, string or literal is made at the byte where it begins, when none is open, and the call that closes it is made at the byte after its last one, with the beginning it was opened with |
| `LexerTokens.RunPlaced` | src/jsonsl/jsonsl.c:221-743 | so it is for every buffer fed, from whatever state: each such call is made at a position inside that buffer |
| `LexerClient.RunAgrees` | src/jsonsl/jsonsl.c:221-743 | a client that objects to none of the calls of an unhindered run gets exactly that run |
| `LexerPlaces.BehindBrace` | src/jsonsl/jsonsl.c:600-743 | behind an opening brace only space, a quote or the closing brace may follow |
| `LexerPlaces.BehindMembersComma` | src/jsonsl/jsonsl.c:600-743 | behind a comma in an object only space or a quote: no trailing comma |
| `LexerPlaces.BehindKey` | src/jsonsl/jsonsl.c:600-743 | behind a key only space or a colon |
| `LexerPlaces.BehindColon` | src/jsonsl/jsonsl.c:600-743 | behind a colon only space or the beginning of a value |
| `LexerPlaces.BehindMember` | src/jsonsl/jsonsl.c:600-743 | behind a value in an object only space, a comma or the closing brace |
| `LexerPlaces.BehindItemsComma` | src/jsonsl/jsonsl.c:600-743 | behind a comma in a list only space or the beginning of a value |
| `LexerPlaces.BehindItem` | src/jsonsl/jsonsl.c:559-743 | behind an item only space, a comma, the closing bracket, or a quote: the source lets a string follow without a comma |
| `LexerPlaces.InString` | src/jsonsl/jsonsl.c:221-344 | inside quotes every byte from 0x14 on, and a quote ends the string |
| `LexerPlaces.BehindBackslash` | src/jsonsl/jsonsl.c:221-344 | behind a backslash only the nine letters and marks of RFC 8259 |
| `LexerPlaces.BehindZero` | src/jsonsl/jsonsl.c:345-430 | behind a leading zero no digit |
| `LexerPlaces.BehindMinusZero` | src/jsonsl/jsonsl.c:345-430 | behind `-0` digits are skipped over and change nothing but the position |
| `LexerPlaces.InFraction` | src/jsonsl/jsonsl.c:438-510 | in a fraction no second point, no second exponent mark, and a sign only behind the mark |
| `LexerPlaces.FractionEnds` | src/jsonsl/jsonsl.c:438-510 | a fraction that ends in its point, mark or sign is an error |
| `LexerPlaces.InWord` | src/jsonsl/jsonsl.c:395-437 | a word goes on with its own next letter only |
| `LexerPlaces.InLongWord` | src/jsonsl/jsonsl.c:395-437 | so do NaN and the infinities, in any case |
| `LexerPlaces.BehindN` | src/jsonsl/jsonsl.c:395-437 | behind an `n` comes `null`, NaN, or a token that has no type |
| `LexerPlaces.BehindDocument` | src/jsonsl/jsonsl.c:600-743 | behind the document only space and commas; a brace is reported as one that cannot be inserted |
| `JsonTokens.LexString` | src/jsonsl/jsonsl.c:245-600 | any quoted text, however its characters are escaped, is lexed as one key or string whose token unescapes to what it means, and the container then awaits colon or comma |
| `JsonTokens.LexKey` | src/jsonsl/jsonsl.c:245-600 | a key with its colon and any space |
| `JsonTokens.LexInteger` | src/jsonsl/jsonsl.c:345-510 | the digits of a whole number, with or without a minus, become one token with its value modulo 2^64 and its sign |
| `JsonTokens.LexFraction` | src/jsonsl/jsonsl.c:345-510 | a number with a point or an exponent, signed or not, becomes one token that is a double |
| `JsonTokens.LexWord` | src/jsonsl/jsonsl.c:438-510 | `true`, `false` and `null` become one token with that meaning |
| `JsonLexing.LexValue` | src/jsonsl/jsonsl.c:221-743 | any JSON value of RFC 8259 in any spelling, nested to the depth the stack allows, is lexed as the events of its tree |
| `JsonLexing.LexMap` | src/jsonsl/jsonsl.c:221-743 | an object's text, with any space between its tokens, gives its start, keys, values and end in order, and the surroundings are as before but for one element more |
| `JsonLexing.LexArray` | src/jsonsl/jsonsl.c:221-743 | the same for an array |
| `JsonLexing.LexMembers` | src/jsonsl/jsonsl.c:221-743 | the members of an object, separated by commas, in order |
| `JsonLexing.LexText` | src/jsonsl/jsonsl.c:221-743 | a whole text, with space before and behind, is lexed to its end as the events of its tree |
| `JsonDepth.AcceptsIffShallow` | src/jsonsl/jsonsl.c:221-743 | the lexer takes the text of an object, in any spelling, if and only if the object is nested less deep than there are levels, and reports the level error otherwise |
| `Utf8.PieceFirst` | src/bson/bson-utf8.c:117-237 | the encoding is a prefix code: a character is recognised whatever follows it |
| `Utf8.FirstBytes` | src/bson/bson-utf8.c:117-237 | what is recognised is present, in its shortest form |
| `Utf8.PiecesAreUnique` | src/bson/bson-utf8.c:356-408 | a valid string is one sequence of characters only |
| `Utf8.GetSequence` | src/bson/bson-utf8.c:44-87 | the length and mask of a first byte |
| `Utf8.CheckPiece` | src/bson/bson-utf8.c:128-233 | one round accepts exactly the shortest encoding of a scalar value, or a NUL where NULs are allowed |
| `Utf8.Validate` | src/bson/bson-utf8.c:117-237 | it holds if and only if the string is a concatenation of encodings of nonzero scalar values, and of 00 or C0 80 when NULs are allowed |
| `Utf8.GetChar` | src/bson/bson-utf8.c:356-408 | on any string that holds as many bytes as its first one asks for: the code point these bytes add up to and the distance to the next character |
| `Utf8.CharOfValid` | src/bson/bson-utf8.c:356-408 | at the start of a valid string that is its first character, and the distance is the length of its encoding |
| `Utf8.Walk` | src/bson/bson-utf8.c:356-408 | walking a valid string without NULs from character to character gives nonzero scalar values whose encodings make up the string, the only sequence of characters that does, and ends on its last byte |
| `Utf8.FromUnichar` | src/bson/bson-utf8.c:434-478 | every 32-bit number: scalar values get the encoding of section 3 of RFC 3629, and the bytes read back as the number if and only if it is below 2^26; from there on the six bytes written lose bits, and from 2^31 on nothing is written |
| `Utf8.Encodings` | src/bson/bson-utf8.c:434-478 | examples of section 7 of RFC 3629 |
| `JsonString.EscapeForJson` | src/bson/bson-utf8.c:266-334 | the escaped text of a valid string; it gives up exactly at a two-byte NUL |
| `JsonString.EscapeChar` | src/bson/bson-utf8.c:285-327 | one character's escape |
| `JsonString.EscapeRoundTrip` | src/jsonsl/jsonsl.c:1321-1442 | unescaping undoes escaping for every strictly valid string, NULs included |
| `JsonString.EscapedIsOneToken` | src/jsonsl/jsonsl.c:245-600 | the lexer scans the escaped text inside one string: it neither ends it nor objects, and makes only escape calls |
| `JsonString.QuotedIsOneToken` | src/jsonsl/jsonsl.c:245-600 | the escaped text between quotes is exactly one push and one pop of type string (or key, where a key is due), at the positions of the quotes |
| `JsonEscapes.Understood` | src/jsonsl/jsonsl.c:1321-1442 | every text of characters, backslash letters, `\u` escapes in either case and surrogate pairs is unescaped to what section 7 of RFC 8259 makes of it |
| `JsonEscapes.UnescapesIff` | src/jsonsl/jsonsl.c:1321-1442 | a text is unescaped to a given result if and only if it is made of such parts that mean the result |
| `JsonString.NeverLonger` | src/bson/bson-json.c:1796-1801 | for every input, unescaping gives no more bytes than it reads, as the reader's buffer assumes |
| `JsonString.Unescape` | src/jsonsl/jsonsl.c:1321-1442 | for every input, the specified text or the specified error, within a buffer as long as the input |
| `JsonString.UnescapeU` | src/jsonsl/jsonsl.c:1387-1428 | one `\u` escape: surrogate halves pair up or fail as specified; `JsonEscapes.UnescapesIff` says what it is worth |
| `JsonString.WriteUtf8` | src/jsonsl/jsonsl.c:1256-1278 | the character's encoding is written after what was there |
| `Base64.TextFits` | src/bson/bson.c:2663-2665 | the writer's buffer of (n/3+1)*4+1 bytes always holds the text and its NUL |
| `Base64.Ntop` | src/bson/b64_ntop.h:117-183 | it succeeds exactly when text and NUL fit, and then writes the base64 text of section 4 of RFC 4648 |
| `Base64.InitializeRmap` | src/bson/b64_pton.h:133-160 | the reverse map classifies every byte as RFC 4648 does |
| `Base64.LetterIs` | src/bson/b64_ntop.h:51-53 | the alphabet and the padding, character by character |
| `Base64.QuadIsNumber` | src/bson/b64_ntop.h:117-183 | three bytes and their four digits are the same 24-bit number |
| `Base64.ClassIs` | src/bson/b64_pton.h:133-160 | exactly the letters stand for digits; the equals sign and the NUL end them, and six blanks are skipped |
| `Base64.TestVectors` | src/bson/b64_ntop.h:117-183 | test vectors of section 10 of RFC 4648 |
| `Base64.CheckTail` | src/bson/b64_pton.h:221-272 | what follows the digits is accepted exactly when it is the right padding and whitespace |
| `Base64.PtonLen` | src/bson/b64_pton.h:278-369 | the decoded length of any ASCII text, or -1 when it is malformed |
| `Base64.StoreDigit` | src/bson/b64_pton.h:186-218 | one digit: stored in bounds, with the bits of the next byte kept, or failure exactly when the target is full |
| `Base64.PtonDo` | src/bson/b64_pton.h:162-275 | for any ASCII text, if the length is n >= 0, a target of n+1 bytes is enough, the decoded bytes are written, and n is returned unless leftover bits are nonzero |
| `Base64.DigitsDecode` | src/bson/b64_pton.h:162-275 | decoding the digits of a byte string gives it back with no bits over |
| `Base64.TextScans` | src/bson/b64_pton.h:278-369 | the text of a byte string scans to its digits, its padding and its length |
| `Base64.RoundTrip` | src/bson/b64_pton.h:372-382 | every byte string comes back from its text |
| `Md5.State.constructor` | src/bson/bson-md5.c:330-338 | the state of the empty message |
| `Md5.State.Count` | src/bson/bson-md5.c:351-355 | the two-word counter gains eight times the byte count modulo 2^64 |
| `Md5.State.FillPartial` | src/bson/bson-md5.c:357-367 | a partial block is filled and compressed exactly when it becomes full |
| `Md5.State.Blocks` | src/bson/bson-md5.c:369-371 | the full blocks are folded in order and less than one block remains |
| `Md5.State.Append` | src/bson/bson-md5.c:340-376 | after any sequence of appends the counter is the bit length modulo 2^64, the words are the fold over the full blocks of the whole message, and the buffer holds the rest |
| `Md5.State.Finish` | src/bson/bson-md5.c:378-397 | the digest equals padding and hashing the whole message once, as sections 3.1 to 3.5 of RFC 1321 have it |
| `Md5.FoldIgnoresTail` | src/bson/bson-md5.c:340-376 | bytes short of a block do not change the folded words |
| `Md5.PaddedLength` | src/bson/bson-md5.c:378-397 | padding always ends on a block boundary |
| `Md5.FirstWords` | src/bson/bson-md5.c:330-338 | the initial words are the sixteen bytes of section 3.3 of RFC 1321 |
| `Md5.PaddingIs` | src/bson/bson-md5.c:378-397 | what follows the message is 0x80, zeros, and the number of bits in eight bytes, low byte first |
| `Reader.InitsFromField` | src/bson/bson.c:1970-2006 | bytes cut out by their length field are accepted exactly when the last one is NUL |
| `Reader.DataReader.Read` | src/bson/bson-reader.c:563-601 | the document at the offset, the end, or damage; the offset moves by the document's length only; a document is refused exactly where what is left, cast to `int32_t`, is less than its length |
| `Reader.HandleReader.constructor` | src/bson/bson-reader.c:161-187 | a new reader has a 1024-byte buffer filled from the stream's start |
| `Reader.HandleReader.FillFirst` | src/bson/bson-reader.c:94-108 | the first read puts stream bytes into the buffer, or the reader is done |
| `Reader.HandleReader.MoveToHead` | src/bson/bson-reader.c:110-117 | the unread bytes move to the front |
| `Reader.HandleReader.FillMore` | src/bson/bson-reader.c:110-134 | a later read adds the next stream bytes, or the reader is done |
| `Reader.HandleReader.FillBuffer` | src/bson/bson-reader.c:89-135 | buffer and stream still agree and `tell` has not moved; if the reader is done the stream has no complete document left or has failed |
| `Reader.HandleReader.GrowBuffer` | src/bson/bson-reader.c:395-403 | the buffer doubles and keeps its contents |
| `Reader.HandleReader.Read` | src/bson/bson-reader.c:455-503 | however the stream is cut, the document the reader over memory would return, and `tell` moves by its length only; capacity stays at most max(1024, twice the largest length field met); it ends |
| `Reader.ReadAll` | src/bson/bson-reader.c:702-723 | reading until NULL gives the first documents of the stream in order, all of them if the stream does not fail, and `tell` is then their total length |
| `Reader.OneDocument` | src/bson/bson-reader.c:563-601 | reading one document and then the rest is reading all |
| `ReaderStreams.StreamHolds` | src/bson/bson-reader.c:563-601 | in a stream of serialised documents, one behind the other, exactly these documents are found, in order |
| `JsonKeywords.KeywordOfLiteral` | src/bson/bson-json.c:1079-1100 | every key of the extended syntax is recognised as itself and no other |
| `JsonKeywords.ParseDecimal` | src/bson/bson-json.c:788-812 | a 64-bit number written by the writer is read back |
| `JsonKeywords.HexTextReads` | src/bson/bson-json.c:930-938 | hexadecimal text of an ObjectId is read back |
| `JsonNotations.KeyIsName` | src/bson/bson-json.c:1079-1100 | a text is taken for a key of the extended syntax if and only if it is spelled like it, for all 28 keys |
| `JsonNotations.ParsesIff` | src/bson/bson-json.c:788-812 | a text is read as a 64-bit number if and only if it is blanks, an optional sign and digits that write that number |
| `JsonNotations.OidAt` | src/bson/bson-oid.c:229-237 | each byte of an ObjectId is the value of its two digits, in either case, the high half first; other characters count as zero |
| `JsonNotations.ScansIff` | src/bson/bson-json.c:844-849 | a subtype is read if and only if behind the blanks there are two hexadecimal digits, one alone, or a sign and one, and is the byte they write |
| `JsonTexts.FindKeyword` | src/bson/bson-json.c:1079-1100 | comparing the key with each entry in turn finds the keyword it is, or none |
| `JsonTexts.ParseOid` | src/bson/bson-oid.c:229-237 | the twelve bytes of 24 hexadecimal digits, two digits a byte |
| `JsonTexts.Strtoll` | src/bson/bson-string.c:700-807 | after blanks and a sign, the value of the longest run of digits and where it ends; out of range only if some prefix of the digits is too large |
| `JsonTexts.ReadInt64` | src/bson/bson-json.c:788-812 | a text is a 64-bit number exactly when after blanks and a sign it is all digits and their value is in range |
| `JsonTexts.ScanSubtype` | src/bson/bson-json.c:844-849 | what `sscanf` reads for `%02x`: blanks, then two hexadecimal digits or a sign and one |
| `JsonNesting.FixupMirrors` | src/bson/bson-json.c:544-555 | naming an array item changes neither what is open nor the builder calls made |
| `JsonNesting.AppendMirrors` | src/bson/bson-json.c:357-377 | an append leaves the builder with the same open documents as the reader |
| `JsonNesting.PushMirrors` | src/bson/bson-json.c:277-301 | a pushed level and the document begun for it correspond, and there are never more than a hundred |
| `JsonNesting.PopMirrors` | src/bson/bson-json.c:325-350 | a popped level ends exactly its own document; only the root ends the reading |
| `JsonNesting.ReactSound` | src/bson/bson-json.c:544-1780 | every callback, in every state, keeps the builder's open documents equal to the reader's levels |
| `JsonNesting.EveryRunNests` | src/bson/bson-json.c:1854-1949 | for every run of lexer events, whatever their order: at most a hundred levels, the builder calls begin and end in matched pairs and are never misuse, and a finished reader has closed everything but the root |
| `JsonUnion.ReactSeparate` | src/bson/bson-json.c:121-166 | no callback writes to another member of the union than that of the wrapper being read |
| `JsonUnion.MembersNeverMix` | src/bson/bson-json.c:121-166 | on every text, at every moment, only the member that belongs to the current type has been written since the union was cleared; this is why the model may keep the members in separate fields |
| `JsonReader.Callbacks.ParseBinaryElem` | src/bson/bson-json.c:816-870 | base64 text and subtype, in either order: the bytes collected are those the text denotes, decoded by the base64 loops, or an error |
| `JsonReader.Callbacks.ReadString` | src/bson/bson-json.c:873-1039 | a string is checked for UTF-8 by the validating loop, and a text inside a wrapper read by the number, hexadecimal, base64 and decimal128 loops, as the machine specifies |
| `JsonReader.Callbacks.ReadDecimal` | src/bson/bson-json.c:995-1004 | a decimal128 wrapper holds what the decimal parser stores for the text up to its first NUL; the parser's verdict is ignored, so a refused text becomes NaN |
| `JsonReader.Callbacks.ReadMapKey` | src/bson/bson-json.c:1165-1304 | the key is looked up and checked by loops, and moves the reader as the machine specifies |
| `JsonReader.Callbacks.ReadEvents` | src/bson/bson-json.c:1854-1949 | a whole run of events drives the callbacks, which change the reader in place, as it drives the machine, and an error stops it; so what is proved of every run of the machine holds of them |
| `JsonDenotation.ScalarMeans` | src/bson/bson-json.c:873-1039 | a wrapper of one text, number or truth value: the value, an error, or where the model stops, as `JsonMeaning.Scalar` reads it off the text |
| `JsonDenotation.RegexPairMeans` | src/bson/bson-json.c:873-1039 | the legacy regular expression, in either order |
| `JsonDenotation.BinaryTypeMeans` | src/bson/bson-json.c:816-870 | the legacy binary value, data first |
| `JsonDenotation.TypeAloneMeans` | src/bson/bson-json.c:816-870 | a `$type` alone: a query operator, which stays a document, or a subtype without data, which is an error |
| `JsonDenotation.NestedTime` | src/bson/bson-json.c:1165-1733 | the canonical timestamp |
| `JsonDenotation.NestedHalf` | src/bson/bson-json.c:1165-1733 | a second map with one part of two is an error |
| `JsonWrappers.LeafMeans` | src/bson/bson-json.c:558-720 | bare numbers, texts, truth values and null; a number becomes the smallest integer type that holds it |
| `JsonWrappers.BrokenMeans` | src/bson/bson-json.c:1165-1304 | a wrapper with a member that is part of none is an error |
| `JsonWrappers.WrapperReads` | src/bson/bson-json.c:1165-1733 | every wrapper in every form that `JsonMeaning.IsForm` lists comes to what it means |
| `JsonReading.ValueMeans` | src/bson/bson-json.c:558-1780 | so does every value, nested to any depth the stack allows |
| `JsonReading.ObjectMeans` | src/bson/bson-json.c:1042-1733 | an object that is no wrapper is a document, or an error if just one of `$ref` and `$id` is among its keys |
| `JsonReading.FieldsMean` | src/bson/bson-json.c:1165-1304 | the members of a document in order, each under its key; `$ref` and `$db` below the root want a text |
| `JsonReading.ItemsMean` | src/bson/bson-json.c:544-555 | the items of an array in order, under the keys 0, 1, 2, ... |
| `JsonReading.RootMeans` | src/bson/bson-json.c:1042-1780 | a whole document: a new reader ends in DONE with no level open and the builder calls that spell the fields, or in an error, or where the model stops, as the tree means |
| `JsonReading.TreeAgrees` | src/bson/bson-json.c:1854-1949 | the tree of a text has the events the lexer makes of the text |
| `JsonRoundTrip.FeedConcat` | src/bson/bson-json.c:1854-1949 | a run of events is the run of its halves |
| `JsonRoundTrip.ScalarReads` | src/bson/bson-json.c:873-1733 | reading the canonical form of any covered scalar appends exactly that scalar under the pending key and leaves the reader ready |
| `JsonRoundTrip.ValueReads` | src/bson/bson-json.c:873-1780 | the same for any value, nested to any depth the stack allows |
| `JsonRoundTrip.FieldsRead` | src/bson/bson.c:3087-3140 | the fields of a document, read in order, are appended in order |
| `JsonRoundTrip.ItemsRead` | src/bson/bson.c:3055-3084 | the items of an array get the keys 0, 1, 2, ... |
| `JsonRoundTrip.DocumentReads` | src/bson/bson-json.c:1042-1733 | an object that is no wrapper opens a child at its first key and closes it at its brace |
| `JsonRoundTrip.ArrayReads` | src/bson/bson-json.c:1736-1780 | an array opens and closes a child |
| `JsonRoundTrip.BinaryReads` | src/bson/bson.c:2651-2685 | binary: base64 and hexadecimal subtype come back |
| `JsonRoundTrip.RegexReads` | src/bson/bson.c:2729-2763 | regex: a pattern that the writer can write and its sorted options come back |
| `JsonRoundTrip.DecimalReads` | src/bson/bson.c:2542-2557 | decimal128: its text comes back bit for bit |
| `JsonRoundTrip.DocumentRoundTrip` | src/bson/bson-json.c:1548-1780 | from the canonical writer's events for a tree it can write, a new reader ends in DONE with no level open, having made exactly the builder calls that spell out the tree |
| `JsonWriter.State.AppendEscaped` | src/bson/bson.c:2480-2500 | a text is appended quoted and escaped if it is strict UTF-8, and the writer gives up if it holds a two-byte NUL |
| `JsonWriter.State.VisitBefore` | src/bson/bson.c:2863-2890 | comma and key before each element but the first comma |
| `JsonWriter.State.VisitBinary` | src/bson/bson.c:2651-2685 | the text of a binary is that of its JSON tree, through the base64 loop |
| `JsonWriter.State.VisitRegex` | src/bson/bson.c:2729-2763 | the same for a regex, or the writer gives up exactly at a pattern it cannot write |
| `JsonWriter.State.VisitScalar` | src/bson/bson.c:2480-2945 | the same for every scalar type that the round trip covers |
| `JsonWriter.State.VisitAll` | src/bson/bson.c:3087-3140 | the elements of a document or array are appended in order, separated by commas; the writer gives up if and only if some text in them, at any depth, cannot be written |
| `JsonWriter.AsCanonicalExtendedJson` | src/bson/bson.c:3143-3147 | the writer produces a text if and only if every string, symbol, pattern and key is strict UTF-8 and every key free of NULs, and the text is then the rendering of the document's JSON tree |
| `JsonWriter.TwoByteNulIsNotWritten` | src/bson/bson.c:2480-2500 | C0 80 passes validation, yet a string of these two bytes has no JSON text |
| `JsonForms.Int32Form` | src/bson/bson.c:2505-2520 | `{ "$numberInt" : "5" }`, for every int32 |
| `JsonForms.Int64Form` | src/bson/bson.c:2524-2540 | `{ "$numberLong" : "5"}`, without a space in front of the brace |
| `JsonForms.OidForm` | src/bson/bson.c:2634-2650 | `{ "$oid" : "..." }` with 24 hexadecimal digits |
| `JsonForms.DecimalForm` | src/bson/bson.c:2543-2557 | `{ "$numberDecimal" : "..." }` with the printed text |
| `JsonForms.DateForm` | src/bson/bson.c:2703-2726 | `{ "$date" : { "$numberLong" : "..." } }` |
| `JsonForms.BinaryForm` | src/bson/bson.c:2652-2685 | `{ "$binary" : { "base64": "...", "subType" : "00" } }` |
| `JsonForms.TimestampForm` | src/bson/bson.c:2767-2785 | `{ "$timestamp" : { "t" : 1, "i" : 2 } }` |
| `JsonForms.RegexForm` | src/bson/bson.c:2730-2763 | `{ "$regularExpression" : { "pattern" : "...", "options" : "..." } }` |
| `JsonForms.SymbolForm` | src/bson/bson.c:2925-2945 | `{ "$symbol" : "..." }` |
| `JsonForms.LeastForm` | src/bson/bson.c:2838-2848 | `{ "$minKey" : 1 }` |
| `JsonForms.GreatestForm` | src/bson/bson.c:2851-2861 | `{ "$maxKey" : 1 }` |
| `JsonForms.UndefinedForm` | src/bson/bson.c:2610-2620 | `{ "$undefined" : true }` |
| `JsonForms.WordForms` | src/bson/bson.c:2623-2700 | `null`, `true` and `false` |
| `JsonForms.EscapeForm` | src/bson/bson-utf8.c:285-327 | each character of a string: quote, backslash, five letters, `\u00..` for the other control characters, and itself else |
| `JsonWriter.ContainerText` | src/bson/bson.c:3055-3140 | documents and arrays: a brace or bracket with a space on its inner side around the elements' texts |
| `JsonWriter.SeparatedSnoc` | src/bson/bson.c:2863-2890 | the elements' texts behind one another with a comma and a space between them, in documents each behind its quoted key, a space, a colon and a space |
| `JsonText.TreeEvents` | src/bson/bson.c:2480-3140 | the tree of a value's canonical JSON has exactly the events the reader is specified on |
| `JsonBridge.NodeAgrees` | src/bson/bson.c:2480-3140 | the writer's text of a tree is one spelling of it among those of RFC 8259, with the same events |
| `JsonPipeline.TextRoundTrip` | src/bson/bson-json.c:2003-2097 | the lexer, with the reader as the client that may stop it, run over the writer's text of a document reaches its end with no level open, and the reader is done, having made the builder calls that spell out the document |
| `JsonChunks.TokenText` | src/bson/bson-json.c:1785-1816 | the text of a token is unescaped into a buffer of its own length |
| `JsonChunks.Dispatch` | src/bson/bson-json.c:1854-1949 | a lexer call becomes the reader event of its type, with the token's text or value |
| `JsonChunks.ChunkReader.GetJsonText` | src/bson/bson-json.c:1818-1850 | the text of a token that ends in this buffer, whether it began there or in an earlier one |
| `JsonChunks.ChunkReader.ReadChunk` | src/bson/bson-json.c:2028-2085 | after each buffer the lexer is where the text so far puts it, all its calls have reached the reader with their texts, and what there is of an open token has been saved |
| `JsonChunks.LexText` | src/bson/bson-json.c:2028-2085 | however long the buffers are, the lexer runs as on the whole text and every token reaches the reader with its own text |
| `JsonDocument.CanonicalTextSpells` | src/bson/bson-json.c:2211-2246 | the canonical text of a document is accepted and spells this document and no other |
| `JsonAccepted.AcceptedIff` | src/bson/bson-json.c:2211-2246 | any text of RFC 8259, however spaced and escaped, whose wrappers are of the forms listed: lexer and reader accept it if and only if it means a document and is nested less than a hundred levels deep, and the document it means is the only one it spells |
| `JsonAccepted.FirstOfSeveral` | src/bson/bson-json.c:1955-1985 | of several documents in a row the first one is read by the same rule, and what follows its end, from the next opening brace on, is not looked at |
| `JsonAccepted.BareNumber` | src/bson/bson-json.c:558-625 | a document of one bare number: an int32 if the 64 bits the lexer keeps are within its range, an int64 if within that, and refused otherwise |
| `JsonAccepted.KeptIff` | src/jsonsl/jsonsl.c:191-218 | what the lexer keeps is the number that is written if and only if it is below 2^64 in size |
| `JsonAccepted.NumberWraps` | src/jsonsl/jsonsl.c:191-218 | 2^64 + 5 is read as 5 |
| `JsonDocument.BsonNewFromJson` | src/bson/bson-json.c:2211-2246 | of every text that the model covers it says which it is: a document, if and only if lexer and reader accept the text, and its buffer then holds the serialisation of the one tree that the text spells; or none. Of the others, those for which the reader comes to a place that is not modelled or the builder does not make all its calls, it says nothing |
| `JsonDocument.CoversIff` | src/bson/bson-json.c:2211-2246 | an accepted text without regexes is covered if and only if its document has at most 2^30 bytes |
| `JsonDocument.ThroughText` | src/bson/bson-json.c:2211-2246 | writing a document as canonical Extended JSON and reading the text back is never refused and gives a buffer with the document's own bytes, exactly if the builder makes all the calls that spell it |
| `JsonDocument.ThroughReaches` | src/bson/bson-json.c:2211-2246 | which without regexes it does if and only if the document has at most 2^30 bytes |

## Left out

Deliberately weaker, or restricted, statements:

- Builder.Doc.AppendValue: does not append regexes, which have their own call. Byte counts are unbounded numbers, so wrap-around of the 32-bit running totals before the size test is not captured.
- Builder.Doc.AppendPairs: totals are unbounded numbers, so wrap-around of the 32-bit declared total before the size test is not captured.
- Builder.Doc.AppendRegex: asks that the declared bytes do not fill the buffer exactly, because what is copied and the NULs that are owed then need one byte more than there is (src/bson/bson.c:1573-1588). `BuilderCalls.Execute` stops in front of such a call.
- Builder.Doc.AppendDocument: the source document is a serialised tree; `bson_concat` copies its bytes unread, so damage in it would be copied too.
- Builder.GrownSizeFits: the power of two is found by doubling, not by the source's shifts and ors.
- Iter.Cursor.FillBinary: the source reads the inner length of subtype 2 before checking that it lies inside the document; when it does not, the model lets the value be anything.
- Iter.Cursor.Recurse: the child works on a copy of the value's bytes, so sharing between parent and child cursor is not captured.
- DecimalParser.FromString: says nothing about numbers with more than 34 digits after leading zeros, texts longer than 2^14 characters, exponent fields of 2^30 and more, and numbers whose leading digit has exponent 6145, on which the source reads one place past its digit array. `sscanf` is modelled on unbounded integers.
- DecimalRoundTrip.RoundTrip: NaN comes back as the one canonical NaN; other NaN payloads are not kept by the source.
- CivilInverse.Timegm: fields are bounded by 10^9 in absolute value, offset zero, an empty leap-second table and one zone type, as `gmtload` sets them up; `int_fast32_t` has 64 bits.
- Lexer.Parser.Feed: the loop and the two fast scans update fields in place; what one byte does in each labelled branch is a function on a record of the registers. A NUL inside a word can lead the source to compare bytes behind the literal; there the model stops with the status PastLiteral. All callbacks are enabled, the error callback stops the lexer, and a client can only stop it. `max_callback_level`, `ignore_callback`, JSON pointers and metrics are not modelled; the option that accepts NaN and Infinity, which the build turns on, is.
- LexerNesting.RunNests: at least two levels, as the reader allocates.
- Utf8.GetChar: on strings that hold the bytes their first one asks for; the source would read on.
- JsonString.EscapeForJson: on valid strings, NULs included; callers validate first.
- Base64.PtonDo: ASCII text, because the source indexes its map with a plain `char`.
- Md5.State.Append: each append below 2^31 bytes; the compression function of a block is a parameter.
- Reader.HandleReader.Read: length fields below 2^30, above which the casts to `int32_t` make the buffer double without need. A first read that fails does not set the failure flag, as in the source; error streams are covered only as far as no wrong document is returned.
- JsonReader.Callbacks.ReadMapKey: `$code`, `$scope` and `$dbPointer` lead to a state called UNMODELLED; there the source copies a saved key from a buffer that small array indexes do not fill (src/bson/bson-json.c:551, 1133, 1241). So does a wrapper in which `$timestamp` or `$regularExpression` replaces another type, because the source then reads one member of a union as another (src/bson/bson-json.c:121-166), and a brace that closes an array, where it compares marks left by an earlier document.
- JsonReader.Callbacks.ReadString: doubles (`strtod`), ISO 8601 dates and decimal texts on which `DecimalParser.FromString` says nothing lead to UNMODELLED; so does an append under a key that holds a NUL. The number text in `bson_uint32_to_string` is a function.
- JsonReader.Callbacks.ParseBinaryElem: base64 text that is not ASCII, and a subtype that starts like `0x`, on which C libraries differ, lead to UNMODELLED.
- JsonReader.Callbacks.ReadEvents: builder appends are taken to succeed here; `JsonDocument.BsonNewFromJson` makes them on a real buffer afterwards and says nothing of a text for which one does not. The source's collected data is a union, here separate fields; `JsonUnion.MembersNeverMix` is why that is the same.
- JsonRoundTrip.DocumentRoundTrip: keys must be strict UTF-8, free of NULs and outside the extended syntax, texts strict UTF-8, array keys 0, 1, 2, ..., regex options sorted, decimal128 values canonical, nesting below 100; doubles, code, code with scope and DBPointer values are not covered.
- JsonWriter.AsCanonicalExtendedJson: for nesting up to 200, beyond which the source stops with what it has, and for values of the covered types. The visitors walk the tree rather than its bytes; that stepping through the bytes gives the tree is `BsonDecode.ElementsRoundTrip`.
- JsonDocument.BsonNewFromJson: the lexer runs first and its calls are handed on buffer by buffer; `LexerClient.RunAgrees` is why this is the same. Of a text that leads to UNMODELLED or PastLiteral, or whose builder calls do not all go through, it says nothing.
- JsonAccepted.AcceptedIff: texts of RFC 8259 in which, besides, strings may hold control characters from 0x14 on and a low surrogate need not follow at once; keys free of NULs; of wrappers the forms of `JsonMeaning.IsForm`: the documented ones, those without a part, and those with a member that is part of none. Wrappers with a repeated part, with parts of two kinds, or with an object where a text is due are left to `JsonNesting.EveryRunNests` and `JsonUnion.MembersNeverMix`, which hold of every text. Doubles, `$code`, `$scope`, `$dbPointer` and ISO 8601 dates mean nothing here, as the reader's model stops at them.
- BsonSteps.ScopeIff: where in a damaged code with scope the damage is reported is in the step function only.

Parts of the repository that are not modelled:

- File descriptors, opening files, Windows branches, allocators, atomics, clocks, threads and OID generation: input, output and platform calls.
- Big-endian machines: the model is little-endian. Bit masks and shifts are written as division and remainder.
- `bcon.c`, `bson-writer.c`, `bson-value.c`, `bson-oid.c`, `bson-keys.c`, `bson-string.c`: thin layers over what is modelled, but for reading ObjectId texts and numbers.
- `bson_validate` and the general visitor table (src/bson/bson-iter.c:1888-2151), relaxed and legacy JSON output, `bson_copy_to_excluding` and the overwriting accessors: they would add easy members, or, for validation, no exact statement.
- Doubles as text (`%.20g`) and date formatting through the C library: a double is eight opaque bytes.
- Error message texts.
