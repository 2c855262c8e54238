# Verification of the decoders and filters of SDR-J

This project models the parts of the receiver that decide something: what a block of received bits means, what a
text or tree prints to, whether a fast filter is the filter it stands for, and whether a buffer between two threads
loses anything.  It proves their laws with Dafny 4.11; `dafny verify dfyconfig.toml` checks all of it.

## What is modelled

* **ACARS** (`SyndromeTable`, `PairTable`, `LinearCode`, `Crc`, `Recovery`, `BlockRecovery`, `PairErrors`, `TableUse`,
  `Framing`, `AirLine`, `Signal`, `Reception`, `AcarsDecoder`, `Acars`, `AcarsPairs`, `AcarsSender`). The theory of the
  check word, of the repair and of the framing is written once over any byte and word type with the laws it needs;
  `Crc` and `AirLine` show that 8 and 16 bits with the tables of `syndrom.h` obey them. `AcarsDecoder.Decoder` is the
  decoder with its fields.
* **cJSON** (`JsonString`, `Json`, `JsonRoundTrip`, `JsonGrammar`, `JsonLayout`, `JsonParser`, `JsonPrinter`,
  `JsonMinify`, `JsonLexemes`, `JsonMinifier`, `SiblingList`). `Json` is the parser and the printed form as functions,
  `JsonGrammar` and `JsonLayout` say what is accepted and how it is printed; parser, printer, minifier and list
  operations work on buffers and links and are proved against them. Number text is a pair of functions of which only
  that reading undoes showing, and what `parse_number` demands, is known.
* **Filters** (`Convolution`, `ComplexFilters`, `FirFilters`, `FftFilter`).  Exact numbers of any field with the laws
  of addition and multiplication; transform, multiplication and inverse transform are circular convolution.
* **Ring buffer** (`Bits`, `Modulo`, `RingBuffer`, `RingProtocol`): the class used by one thread, and the protocol of
  one writer and one reader in single steps.
* **AMTOR** (`AmtorClock`, `AmtorWords`, `AmtorReceiver`, `AmtorPhasing`, `AmtorLine`, `AmtorText`, `Ita2`,
  `AmtorDecoder`): fragments, bits, words, phasing, time diversity and the characters on the screen.
* **Spool** of the ACARS printer (`Spool`): two threads and two semaphores in single steps.
* **CW** (`MovingAverage`, `CwTracking`, `CwMachine`, `CwLetters`, `CwDecoder`) and **AGC** (`AgcHandler`).

## What the proofs found

* With `verbose` false, `processBlock` calls `fixdberr` for blocks that `fixprerr` has just repaired, with the check
  word from before the repair, and so drops every block of at most 240 bytes with one wrong text bit that the forcing
  of byte 12 does not mend (`Acars.QuietDecoderDropsAll`); with it true, `fixdberr` is never called.
* One wrong bit in each of two bytes, neither of them byte 12, is corrected by a verbose decoder, except for ten pairs
  of bits at byte distances 142, 144 and 208, for which two other bits are flipped and a wrong text is printed
  (`AcarsPairs.TwoBitsAreCorrected`, `AcarsPairs.TwoBitsAreTaken`).
* A block without bytes of even parity is printed whatever its check word, so two wrong bits in one byte go unnoticed
  (`BlockRecovery.DoubleErrorIsPrinted`).
* A block can have 241 bytes, and the table has 242 rows.  Row 242 is read exactly if one to ten bytes are of even
  parity and either the first byte is one of them, or the decoder is quiet, the repair of a check word other than 0
  succeeds and that word is not the syndrome of a check bit (`TableUse.AskedBeyondIff`).
  `Acars.LongFrameAsksBeyond` is a frame that is received and does it.  A sent block with one wrong bit does it exactly
  if it has 241 bytes and the wrong byte is the first or the decoder is quiet (`Acars.HitIsCovered`).  What is proved
  about correction is proved of the other blocks, and the methods of `AcarsDecoder.Decoder` demand such a block.
* The overlap-add filter is exact if and only if the kernel has at most one tap more than a block has samples
  (`Convolution.Field.StreamedIsDirect`).
* An AMTOR message of one or two words is lost: the phasing signals in its free slots read as the end.  In strict mode
  a word whose copies differ is handed on as a phasing signal, which prints a blank (`AmtorReceiver.MessageIsHeard`).
* An end of message behind a phasing signal that was received twice is not seen (`AmtorPhasing.EndMayBeHidden`).
* The five elements in the middle of an AMTOR word do not name its letter: two words with the same three ones there
  differ in which of the outer elements is set, and only one of them is the letter (`Ita2.LetterIsIta2`).
* `skipDataInBuffer` looks at the fill twice and may skip more than it was asked to, exactly if that is more than there
  is and less than the buffer holds (`RingProtocol.SkipMayOvershoot`, `RingProtocol.SkipOvershootsFromStart`).
* An element count of 0 passes the power of two test of the ring buffer, which is then of no use
  (`RingBuffer.RingBuffer.constructor`).
* `cJSON_Minify` reads past the end of a text exactly if a comment or a string in it is left open
  (`JsonLexemes.InsideIff`); of other texts a second pass changes something exactly if a lone slash is followed, across
  blanks and comments, by a slash or a star (`JsonLexemes.StableIff`).
* `cJSON_PrintPreallocated` needs two characters more than the text (`JsonPrinter.PrintPreallocated`).
* Appending an item that still has a `next` leaves a broken list (`SiblingList.AddItemToArray`).
* `parse_hex4` returns 0 exactly for four zeros and for text that is no hexadecimal number (`JsonString.HexIsZero`), so
  a bad escape is accepted and read as a NUL (`JsonRoundTrip.BadEscapeIsAccepted`).
* The CW decoder divides by the speed that the user sets, and the spin box for it starts at 0, the only speed for which
  a division fails (`CwMachine.OnlyZeroFails`); dots under 37 microseconds make the 16-bit speed wrap around
  (`CwTracking.SpeedFits`); a tone too short to count is read as an element in the end exactly if `cwPreviousState` is
  a tone (`CwMachine.SpikesStick`), which happens in runs from the start (`CwMachine.SpikesAreMet`).
* The hang interval of the AGC is a 16-bit number; it wraps around exactly for rates above 65535 in the slow mode and
  above 262143 in the fast one (`AgcHandler.HangIntervalFits`).

## Model

| member | source | states |
|---|---|---|
| `SyndromeTable.CrcCcittIsDivision` | decoders/acars-decoder/syndrom.h:26-59 | every entry of the CRC table is what eight division steps make of its index |
| `SyndromeTable.Syndrom` | decoders/acars-decoder/syndrom.h:63-306 | the entry of row d, column i is a single bit after 8 * (d + 1) - i division steps, for all 242 rows as they are written out |
| `SyndromeTable.PowersDiffer` | decoders/acars-decoder/syndrom.h:63-306 | no entry of the table occurs twice: no two of the first 1936 division steps of a single bit give the same word |
| `Crc.AcarsIsLawful` | decoders/acars-decoder/syndrom.h:26-64 | the words and bytes of ACARS with the generator x^16 + x^12 + x^5 + 1 satisfy every law that the theory of LinearCode uses |
| `Crc.UpdateCrc` | decoders/acars-decoder/syndrom.h:26-60 | the table look-up equals the bitwise reflected division of one byte |
| `Crc.SyndromAt` | decoders/acars-decoder/syndrom.h:63-306 | the entry at 8 * d + i is what bit i of a byte with d bytes behind it adds to the check word |
| `Crc.TextBitIsNoCheckBit` | decoders/acars-decoder/syndrom.h:63-306 | in the table no bit of a text has the syndrome of a bit of the check bytes |
| `Crc.OneTailFits` | decoders/acars-decoder/syndrom.h:26-60 | behind every message exactly two check bytes make the check word 0: the low and the high byte of the register |
| `PairTable.TwinsAreTwoBits` | decoders/acars-decoder/syndrom.h:63-306 | the entries of two bits of one row add up to two bits of the low byte exactly in five cases, in the rows 141, 143 and 207 |
| `LinearCode.Code.CheckIsLinear` | decoders/acars-decoder/syndrom.h:26-60 | the check word of a bytewise sum of two messages of one length is the sum of their check words |
| `LinearCode.Code.CheckKeepsParity` | decoders/acars-decoder/syndrom.h:26-60 | the register ends with odd weight exactly if it started odd or ran over a message of odd weight, not both |
| `LinearCode.Code.SyndromeIsCheck` | decoders/acars-decoder/syndrom.h:63-306 | a syndrome is the check word of that bit followed by d zero bytes |
| `LinearCode.Code.FlipAddsSyndrome` | decoders/acars-decoder/syndrom.h:63-306 | flipping one bit of a message adds the syndrome of its place to the check word |
| `LinearCode.Code.SyndromesDiffer` | decoders/acars-decoder/syndrom.h:63-306 | two bits of one byte have different syndromes, wherever the byte stands |
| `LinearCode.Code.SyndromeIsOdd` | decoders/acars-decoder/syndrom.h:63-306 | every syndrome of one bit has odd weight |
| `LinearCode.Code.OnesParity` | decoders/acars-decoder/syndrom.h:15-24 | the lowest bit of the count of ones says whether a byte has odd parity |
| `Recovery.FlipAllAt` | decoders/acars-decoder/acars-decoder.cpp:253-261 | the repair flips the chosen bit of every listed byte and leaves every other byte alone |
| `Recovery.ResidueIsCheck` | decoders/acars-decoder/acars-decoder.cpp:256-258 | the running check word of the recursion is the check word of the text with the chosen bits flipped |
| `Recovery.RepairIsComplete` | decoders/acars-decoder/acars-decoder.cpp:249-275 | the search returns a choice that leaves an acceptable residue, and returns one whenever any choice does |
| `Recovery.RepairIsFirst` | decoders/acars-decoder/acars-decoder.cpp:249-275 | of all choices that leave an acceptable residue it returns the first in lexicographic order |
| `AcarsDecoder.Decoder.FixPrErr` | decoders/acars-decoder/acars-decoder.cpp:249-275 | fixprerr on the array: true flips exactly the found choice, false means that there is none and leaves the text untouched |
| `AcarsDecoder.Decoder.IsCheckBit` | decoders/acars-decoder/acars-decoder.cpp:269-273 | the loop over syndrom finds exactly the residues of a single check bit |
| `AcarsDecoder.Decoder.FixDbErr` | decoders/acars-decoder/acars-decoder.cpp:277-302 | fixdberr: a check bit, or else the first pair of distinct bits of one byte with this residue, which is flipped |
| `AcarsDecoder.Decoder.TryPairs` | decoders/acars-decoder/acars-decoder.cpp:290-298 | the innermost loop finds the first partner of a bit, in order |
| `AcarsDecoder.Decoder.CheckWord` | decoders/acars-decoder/acars-decoder.cpp:334-340 | the loop computes the check word of the text and the two check bytes |
| `AcarsDecoder.Decoder.CountEven` | decoders/acars-decoder/acars-decoder.cpp:319-332 | the loop lists exactly the places of even parity, or finds that they are more than MAXPERR |
| `AcarsDecoder.Decoder.FinishBlock` | decoders/acars-decoder/acars-decoder.cpp:368-383 | second parity count, stripping of parity and printing, in place |
| `AcarsDecoder.Decoder.CorrectBlock` | decoders/acars-decoder/acars-decoder.cpp:344-366 | the else chain as it is compiled: fixdberr is reached only if verbose is false |
| `AcarsDecoder.Decoder.ProcessBlock` | decoders/acars-decoder/acars-decoder.cpp:304-384 | processBlock prints exactly what the specification gives for the received block |
| `BlockRecovery.RepairedTextIsOdd` | decoders/acars-decoder/acars-decoder.cpp:345-346 | one bit flipped in every byte of even parity leaves none of even parity |
| `BlockRecovery.ParityProblemNeverHappens` | decoders/acars-decoder/acars-decoder.cpp:368-380 | the second parity count never finds anything, verbose or not |
| `BlockRecovery.PrintedExactlyWhen` | decoders/acars-decoder/acars-decoder.cpp:304-384 | as long as it reads no row behind the table, a verbose decoder prints a block exactly if it has no byte of even parity, or at most ten and a choice of one bit in each that leaves a residue of zero or of one check bit; and what it then prints |
| `BlockRecovery.TextBitIsCorrected` | decoders/acars-decoder/acars-decoder.cpp:304-384 | one text bit wrong, but not in the first byte of a block of 241: exactly the transmitted text is printed |
| `BlockRecovery.TailDoesNotMatter` | decoders/acars-decoder/acars-decoder.cpp:334-366 | check bytes of any value, text intact: the text is printed |
| `BlockRecovery.DoubleErrorIsPrinted` | decoders/acars-decoder/acars-decoder.cpp:344-366 | two bits of one byte wrong: the check word is not asked and the wrong text is printed |
| `BlockRecovery.QuietDecoderDropsRepairs` | decoders/acars-decoder/acars-decoder.cpp:351-361 | without verbose, a block of at most 240 bytes with one wrong text bit goes through fixdberr with the old check word once it is repaired, and is printed exactly if that is the syndrome of a check bit |
| `Acars.QuietDecoderDropsAll` | decoders/acars-decoder/acars-decoder.cpp:351-361 | which for ACARS it never is: every such block of at most 240 bytes is dropped |
| `TableUse.AskedBeyondIff` | decoders/acars-decoder/acars-decoder.cpp:249-302 | a block of at most 241 bytes makes fixprerr or fixdberr ask for a row behind the table exactly if AsksBeyond holds, and then for row 242 |
| `TableUse.HitAsksBeyondIff` | decoders/acars-decoder/acars-decoder.cpp:249-302 | a sent block with one wrong text bit makes it so exactly if it has 241 bytes and the wrong byte is the first, or the decoder is quiet and the syndrome is not that of a check bit |
| `Acars.HitIsCovered` | decoders/acars-decoder/acars-decoder.cpp:249-302 | for ACARS: exactly if it has 241 bytes and the wrong byte is the first or the decoder is quiet |
| `Acars.LongFrameAsksBeyond` | decoders/acars-decoder/acars-decoder.cpp:126-302 | a frame of 240 bytes and ETX, all of odd parity but the first, is handed to processBlock, in either polarity and with any check bytes, and makes it ask for row 242 |
| `Acars.MarksSurvive` | decoders/acars-decoder/acars-decoder.cpp:315-317 | STX and ETX at byte 12 survive the forcing, which mends every wrong bit in them but the first and the last |
| `Acars.SingleBitIsCorrected` | decoders/acars-decoder/acars-decoder.cpp:249-384 | the correction theorem for the polynomial, tables and masks of ACARS, for every text bit whose syndrome the table has |
| `PairErrors.FirstPair` | decoders/acars-decoder/acars-decoder.cpp:249-275 | two bytes with one wrong bit each: the search takes the first two bits with the same sum of syndromes, which are the wrong ones or have a lower first bit |
| `PairErrors.OnlyDistanceCounts` | decoders/acars-decoder/acars-decoder.cpp:249-275 | whether two bits can be taken for two others depends only on how far apart the bytes are |
| `AcarsPairs.TwoBitsAreTaken` | decoders/acars-decoder/acars-decoder.cpp:249-384 | what a verbose decoder prints of a sent block with one wrong bit in each of two bytes, neither of them byte 12: the text with the two bits flipped back, or with two others |
| `AcarsPairs.TwoBitsAreCorrected` | decoders/acars-decoder/acars-decoder.cpp:249-384 | the sent text is printed exactly unless the bytes are 142, 144 or 208 apart and the bits one of ten pairs |
| `AcarsSender.TextIsSent` | decoders/acars-decoder/acars-decoder.cpp:304-340 | every text of seven-bit characters with STX or ETX at byte 12, given its parity bits, makes a proper frame, with exactly one pair of check bytes, and is printed without parity |
| `Framing.Line.FirstSynAligns` | decoders/acars-decoder/acars-decoder.cpp:138-153 | whatever bits come before it, if no window that is looked at is SYN or its complement, the first SYN in either polarity gives the byte boundary and the polarity |
| `Framing.Line.StartIsFound` | decoders/acars-decoder/acars-decoder.cpp:138-171 | and so does a SYN that is followed by SYN bytes each with its bits turned against the one before: the last one counts |
| `Framing.Line.StrayIsDropped` | decoders/acars-decoder/acars-decoder.cpp:155-225 | a SYN that only looked like one costs the bytes up to the one that shows it, and no more: a byte that is no SYN, a SYN without SOH, a twelfth byte of even parity, or byte 241 without an end |
| `Framing.Line.StraysAreDropped` | decoders/acars-decoder/acars-decoder.cpp:126-225 | behind any number of these, between bits of any kind, the decoder waits for the next frame and has handed on nothing |
| `Framing.Line.FrameIsRecovered` | decoders/acars-decoder/acars-decoder.cpp:126-247 | behind such bits SYN SYN SOH T terminator C0 C1, or its complement, hands processBlock exactly T with terminator and C0 C1 |
| `Framing.Line.FrameEndedByDle` | decoders/acars-decoder/acars-decoder.cpp:208-215 | a text without terminator is ended by DLE after byte 20, its check bytes taken out of the text |
| `Framing.Line.StreamIsRecovered` | decoders/acars-decoder/acars-decoder.cpp:126-247 | frame after frame, each in its own polarity and with any such bits before it, every block comes out in order |
| `Framing.Line.WholeStreamIsRecovered` | decoders/acars-decoder/acars-decoder.cpp:126-247 | frames without any bits between them, from the first bit of a fresh decoder |
| `Framing.Line.BlocksAreShort` | decoders/acars-decoder/acars-decoder.cpp:188-225 | whatever bits arrive, blk_txt is never written past byte 240 and no block is longer than 241 bytes |
| `AirLine.AirIsLawful` | decoders/acars-decoder/acars-decoder.cpp:126-151 | the eight bit window, the bytes SYN, SOH, ETX, ETB and DLE and the complement satisfy the laws that framing uses |
| `AirLine.PrekeyIsUnnoticed` | decoders/acars-decoder/acars-decoder.cpp:126-153 | eight or more bits of one kind before a frame are taken for no SYN |
| `Signal.TogglingNegates` | decoders/acars-decoder/acars-decoder.cpp:95-120 | MskS ^ 2 negates the decision about every later point that is not on the border |
| `Signal.TogglingIsInversion` | decoders/acars-decoder/acars-decoder.cpp:95-120 | the decisions with toggling are the untoggled ones, inverted as often as the framer has toggled |
| `Signal.TurnsDecide` | decoders/acars-decoder/acars-decoder.cpp:95-120 | of points that turn by quarters, the first on the real axis, none is decided on the border, the first decision is the sign of the real part, and two in a row agree exactly if the turn between them was to the left |
| `Signal.CarriedBitsAreDecided` | decoders/acars-decoder/acars-decoder.cpp:95-120 | so of points that turn left for a bit like the one before and right for another, these bits are decided |
| `AcarsDecoder.Decoder.PutBit` | decoders/acars-decoder/acars-decoder.cpp:126-136 | putbit updates the window and the counters like the framer |
| `AcarsDecoder.Decoder.DecodeText` | decoders/acars-decoder/acars-decoder.cpp:188-225 | state TXT: parity count, terminators, DLE and the length limit |
| `AcarsDecoder.Decoder.DecodeOpening` | decoders/acars-decoder/acars-decoder.cpp:140-186 | the states before the text, with the toggling of MskS |
| `AcarsDecoder.Decoder.DecodeClosing` | decoders/acars-decoder/acars-decoder.cpp:227-245 | the states after the text |
| `AcarsDecoder.Decoder.PutMessage` | decoders/acars-decoder/acars-decoder.cpp:233-239 | a complete block is processed and its output appended |
| `AcarsDecoder.Decoder.Process` | decoders/acars-decoder/acars-decoder.cpp:95-120 | the four cases of MskS & 3 |
| `Reception.ReceptionIsFaithful` | decoders/acars-decoder/acars-decoder.cpp:126-384 | proper frames in either polarity, with any bits between them that are taken for no more than strays, each with at most one text bit wrong whose syndrome the table has, or with any check bytes: exactly the sent messages are printed, in order |
| `Acars.AcarsIsFaithful` | decoders/acars-decoder/acars-decoder.cpp:126-384 | the same for the bytes, tables and masks of ACARS |
| `Acars.PointsAreRead` | decoders/acars-decoder/acars-decoder.cpp:95-384 | the same from the points of the matched filter on, with the toggling of MskS, as long as no point lies on the border |
| `Acars.TurnsAreRead` | decoders/acars-decoder/acars-decoder.cpp:95-384 | and from points that turn by quarters for the bits of these frames |
| `Acars.Receive` | decoders/acars-decoder/acars-decoder.cpp:95-384 | the decoder with its fields and buffers, given all these points, prints exactly the sent messages; no block of theirs leaves the table |
| `Acars.NewDecoder` | decoders/acars-decoder/acars-decoder.cpp:24-48 | a decoder over the real tables, ready for the first bit |
| `JsonString.DigitsAreRead` | decoders/acars-decoder/cJSON.c:541-572 | parse_hex4 reads four hexadecimal digits of either case |
| `JsonString.HexIsZero` | decoders/acars-decoder/cJSON.c:541-572 | it returns 0 exactly for four zeros and for text with a character that is no hexadecimal digit |
| `JsonString.BadEscapeIsNul` | decoders/acars-decoder/cJSON.c:578-696 | an escape that parse_hex4 reads as 0 becomes a NUL |
| `JsonRoundTrip.BadEscapeIsAccepted` | decoders/acars-decoder/cJSON.c:699-825 | a string that consists of an escape with any bad digit is accepted, and is empty |
| `JsonString.LiteralOfCodePoint` | decoders/acars-decoder/cJSON.c:578-696 | every code point, written as one escape or a surrogate pair, becomes its UTF-8 bytes |
| `JsonString.SurrogatesMustPair` | decoders/acars-decoder/cJSON.c:578-637 | a surrogate is accepted exactly as the first half of a pair |
| `JsonString.Utf8IsDecoded` | decoders/acars-decoder/cJSON.c:639-690 | the bytes written for a code point are its UTF-8 form by section 3 of RFC 3629 |
| `JsonString.UnescapeOfEscape` | decoders/acars-decoder/cJSON.c:699-947 | what print_string_ptr writes between the quotes parse_string reads back |
| `JsonString.EscapesAreStandard` | decoders/acars-decoder/cJSON.c:755-800 | what each escape of two characters stands for, by section 7 of RFC 8259; every other is refused |
| `JsonString.EscapesAreShort` | decoders/acars-decoder/cJSON.c:854-945 | which characters print_string_ptr escapes, and how |
| `JsonString.FirstPassIsRight` | decoders/acars-decoder/cJSON.c:854-880 | the length counted in the first pass of print_string_ptr is the number of bytes that the second writes |
| `JsonString.EstimateIsEnough` | decoders/acars-decoder/cJSON.c:711-744 | the allocation estimate of parse_string is never exceeded, surrogate pairs and bad literals included |
| `JsonParser.ReadHex4` | decoders/acars-decoder/cJSON.c:541-572 | the loop computes the value, and 0 for text that is no hexadecimal number |
| `JsonParser.WriteUtf8` | decoders/acars-decoder/cJSON.c:639-690 | the bytes of a code point, written last byte first |
| `JsonParser.WriteLiteral` | decoders/acars-decoder/cJSON.c:578-696 | utf16_literal_to_utf8 on the buffer: length of the literal, bytes written, and failure |
| `JsonParser.Scan` | decoders/acars-decoder/cJSON.c:711-737 | the first pass finds the closing quote and counts the backslashes |
| `JsonParser.UnescapeInto` | decoders/acars-decoder/cJSON.c:746-806 | the second pass writes the unescaped string and stays inside the buffer |
| `JsonParser.ReadString` | decoders/acars-decoder/cJSON.c:699-825 | parse_string: the string and the place behind it, or failure, as the grammar says |
| `JsonRoundTrip.RoundTrip` | decoders/acars-decoder/cJSON.c:1001-1722 | parsing the printed text gives the tree back, formatted or not, exactly for trees nested no deeper than the limit, and is refused for all others |
| `JsonGrammar.AcceptedExactly` | decoders/acars-decoder/cJSON.c:985-1722 | the parser accepts exactly the texts that are written by the grammar: a byte order mark or none, values with any white space around them, numbers of up to 63 characters, strings that can be unescaped, no more than 1000 containers in each other; and makes of them the trees that they mean |
| `JsonGrammar.ValueIsRead` | decoders/acars-decoder/cJSON.c:1213-1608 | every value so written is read, with the text behind it left over |
| `JsonGrammar.ValueIsSpelled` | decoders/acars-decoder/cJSON.c:1213-1608 | every value that is read was so written |
| `JsonLayout.PrintIsMinified` | decoders/acars-decoder/cJSON.c:1268-1722 | the print without format holds nothing that cJSON_Minify could take away, and the one with format nothing else beyond it |
| `JsonLayout.ObjectIsLaidOut` | decoders/acars-decoder/cJSON.c:1611-1722 | with format every member stands on a line of its own behind as many tabs as it is deep, its value behind a colon and a tab, the closing brace on the next line behind one tab less |
| `JsonLayout.ObjectIsJoined` | decoders/acars-decoder/cJSON.c:1611-1722 | without, there is nothing but commas between the members |
| `JsonLayout.ArrayIsJoined` | decoders/acars-decoder/cJSON.c:1440-1499 | the elements stand on one line, behind commas, with format with a blank behind each |
| `JsonRoundTrip.ValueRoundTrip` | decoders/acars-decoder/cJSON.c:1213-1342 | the same for any value in any context, with the text behind it left over |
| `JsonRoundTrip.ItemsRoundTrip` | decoders/acars-decoder/cJSON.c:1346-1499 | the elements of an array, with their separators |
| `JsonRoundTrip.MembersRoundTrip` | decoders/acars-decoder/cJSON.c:1502-1722 | the members of an object, with names, colons and indentation |
| `JsonRoundTrip.StringIsRead` | decoders/acars-decoder/cJSON.c:699-947 | a printed string is read back with the text behind it |
| `JsonRoundTrip.SkipsSpace` | decoders/acars-decoder/cJSON.c:964-982 | white space is skipped, whatever does not begin with any is not |
| `JsonParser.ParseBuffer.SkipWhitespace` | decoders/acars-decoder/cJSON.c:964-982 | the loop, with its step back from the end |
| `JsonParser.ParseBuffer.ParseValue` | decoders/acars-decoder/cJSON.c:1213-1265 | parse_value on offset and depth gives what the grammar gives, and moves the offset behind it |
| `JsonParser.ParseBuffer.ParseArray` | decoders/acars-decoder/cJSON.c:1346-1437 | parse_array, with the step back of the offset and the nesting limit |
| `JsonParser.ParseBuffer.ParseItems` | decoders/acars-decoder/cJSON.c:1378-1413 | the do loop over the elements |
| `JsonParser.ParseBuffer.ParseObject` | decoders/acars-decoder/cJSON.c:1502-1608 | parse_object |
| `JsonParser.ParseBuffer.ParseMembers` | decoders/acars-decoder/cJSON.c:1532-1585 | the do loop over the members |
| `JsonParser.ParseBuffer.ParseString` | decoders/acars-decoder/cJSON.c:699-825 | parse_string on the parse buffer |
| `JsonParser.ParseBuffer.ParseNumber` | decoders/acars-decoder/cJSON.c:267-341 | which characters are handed to strtod, and how far the offset moves |
| `JsonParser.ParseBuffer.Parse` | decoders/acars-decoder/cJSON.c:985-1078 | cJSON_ParseWithOpts: byte order mark, white space, the value and the demanded end |
| `JsonPrinter.PrintBuffer.Ensure` | decoders/acars-decoder/cJSON.c:374-459 | room for the demanded characters or failure, and what is printed already stays |
| `JsonPrinter.PrintBuffer.UpdateOffset` | decoders/acars-decoder/cJSON.c:462-472 | the offset moves to the NUL |
| `JsonPrinter.PrintBuffer.PrintValue` | decoders/acars-decoder/cJSON.c:1268-1342 | print_value appends exactly the text of the value, or fails for want of room |
| `JsonPrinter.PrintBuffer.PrintArray` | decoders/acars-decoder/cJSON.c:1440-1499 | print_array |
| `JsonPrinter.PrintBuffer.PrintObject` | decoders/acars-decoder/cJSON.c:1611-1722 | print_object |
| `JsonPrinter.PrintBuffer.PrintString` | decoders/acars-decoder/cJSON.c:828-947 | print_string_ptr: quotes, escapes and NUL |
| `JsonPrinter.CountEscapes` | decoders/acars-decoder/cJSON.c:854-880 | the first pass counts the extra characters |
| `JsonPrinter.WriteEscaped` | decoders/acars-decoder/cJSON.c:897-945 | the second pass writes the escapes in place |
| `JsonPrinter.PrintTree` | decoders/acars-decoder/cJSON.c:1088-1161 | growing never changes the text; it fails exactly if the text and two characters exceed INT_MAX |
| `JsonPrinter.PrintPreallocated` | decoders/acars-decoder/cJSON.c:1193-1210 | succeeds exactly if the buffer has two characters more than the text |
| `JsonMinify.MinifyKeepsMeaning` | decoders/acars-decoder/cJSON.c:2629-2697 | a text accepted to its end is minified to one with the same tree, without reading past its end, and minifying again changes nothing |
| `JsonMinify.CopyInert` | decoders/acars-decoder/cJSON.c:2688-2692 | characters that are neither white space, slash nor quote are copied |
| `JsonMinify.EndIsLocal` | decoders/acars-decoder/cJSON.c:2674-2687 | where a string ends does not depend on what follows |
| `JsonLexemes.MinIsKept` | decoders/acars-decoder/cJSON.c:2629-2697 | a text made of blanks, comments, strings and single characters is left with its strings and single characters |
| `JsonLexemes.NothingIsLeftBetween` | decoders/acars-decoder/cJSON.c:2629-2696 | no blank, tab, carriage return or line feed is left outside the strings, whatever the text |
| `JsonLexemes.InsideIff` | decoders/acars-decoder/cJSON.c:2629-2697 | cJSON_Minify stays inside a text exactly if that is made of these, so that no comment and no string is left open |
| `JsonLexemes.StableIff` | decoders/acars-decoder/cJSON.c:2629-2697 | and a second pass changes nothing exactly if no lone slash is followed, across blanks and comments, by a slash or a star |
| `JsonLexemes.OpenEndsOverrun` | decoders/acars-decoder/cJSON.c:2665-2687 | a comment or a string left open is read past the end of the text |
| `JsonLexemes.SlashesMayJoin` | decoders/acars-decoder/cJSON.c:2657-2664 | a text that a first pass turns into a comment and a second one deletes |
| `JsonMinifier.Minify` | decoders/acars-decoder/cJSON.c:2629-2697 | the loop in place, on one array with two places in it |
| `JsonMinifier.SkipLine` | decoders/acars-decoder/cJSON.c:2657-2664 | a comment to the end of its line |
| `JsonMinifier.SkipComment` | decoders/acars-decoder/cJSON.c:2665-2673 | a comment to its star and slash |
| `JsonMinifier.CopyString` | decoders/acars-decoder/cJSON.c:2674-2687 | a string literal is copied unchanged to its new place |
| `SiblingList.GetArrayItem` | decoders/acars-decoder/cJSON.c:1748-1765 | the item with this index, or null |
| `SiblingList.AddItemToArray` | decoders/acars-decoder/cJSON.c:1821-1876 | append: the children are the old ones and the new one, all links right, exactly if the new one brings no next (and, as first child, no prev) of its own; false for null arguments |
| `SiblingList.InsertItemInArray` | decoders/acars-decoder/cJSON.c:2141-2168 | insertion at an index, before the first child included; behind the last it appends; nothing for a negative index |
| `SiblingList.DetachItemViaPointer` | decoders/acars-decoder/cJSON.c:2071-2099 | the children without the detached one, whose links are cleared; null for null arguments; only links are written |
| `SiblingList.ReplaceItemViaPointer` | decoders/acars-decoder/cJSON.c:2170-2203 | the children with the replacement in the same place, the replaced one without links; true if it is its own replacement, false for null arguments |
| `SiblingList.RemovedUndoesInserted` | decoders/acars-decoder/cJSON.c:2071-2168 | detaching undoes inserting, and inserting again undoes detaching |
| `Convolution.Field.CircularIsLinear` | filters/fft-filters.cpp:128-140 | circular convolution of a padded block is linear convolution, as long as both fit |
| `Convolution.Field.OverlapAddIsDirect` | filters/fft-filters.cpp:121-174 | a block with the tail of the block before is the direct convolution, if the kernel reaches back no further than one block |
| `Convolution.Field.StreamedIsDirect` | filters/fft-filters.cpp:121-174 | the stream equals the direct filter one block later, for every kernel of length k and every stream, if and only if k <= N + 1 |
| `Convolution.Field.FastFollowsDirect` | filters/fft-filters.cpp:121-174 | on one stream the fast filter, given sample t + N, answers what the direct filter answered to sample t |
| `Convolution.Field.LongKernelsFail` | filters/fft-filters.cpp:141-144 | for any longer kernel length there are a kernel and a stream for which a sample is lost |
| `ComplexFilters.ComplexIsLawful` | filters/fft-filters.cpp:150-174 | the complex numbers are an instance |
| `ComplexFilters.AmplifiedIsLawful` | filters/fft-filters.cpp:134-138 | so they are with the factor 10 of the real overload |
| `ComplexFilters.FastFilterApplies` | filters/fft-filters.cpp:150-174 | the condition of the theorem holds of complex numbers |
| `ComplexFilters.RealFastFilterIsDirect` | filters/fft-filters.cpp:121-148 | on one stream of real samples the real overload answers sample t + N with ten times what Basic_FIR::Pass answered to sample t |
| `FftFilter.FftFilter.constructor` | filters/fft-filters.cpp:30-61 | the buffers start silent |
| `FftFilter.FftFilter.Pass` | filters/fft-filters.cpp:121-174 | every output is the streamed overlap-add value of the samples before it |
| `FftFilter.FftFilter.AddOverlap` | filters/fft-filters.cpp:141-144 | the loop adds the kept tail and keeps the new one, in place |
| `FftFilter.FftFilter.Transform` | filters/fft-filters.cpp:129-140 | padding, transforms and gain: the circular convolution of the block |
| `FirFilters.BasicFir.Pass` | filters/fir-filters.h:59-89 | the wrap-around loop computes the plain convolution of the last filterSize samples |
| `FirFilters.DecimatingFir.Pass` | filters/fir-filters.cpp:409-438 | true exactly on every Dm-th sample, and then the value of the plain convolution, by two loops that do not wrap |
| `FirFilters.DecimatingFir.PassReal` | filters/fir-filters.cpp:440-450 | the same by way of Basic_FIR::Pass |
| `Bits.PowerTest` | various/ringbuffer.h:138-139 | the test of the constructor passes exactly powers of two, among counts of at least one |
| `Bits.MaskIsRemainder` | various/ringbuffer.h:145-146 | a mask of ones takes the remainder |
| `Bits.MaskedDifference` | various/ringbuffer.h:157-159 | the 32-bit difference, masked, is the difference modulo twice the size |
| `RingBuffer.SmallMaskIsSlot` | various/ringbuffer.h:208-210 | index & smallMask is the index modulo n |
| `RingBuffer.BigMaskIsWrap` | various/ringbuffer.h:180-192 | index & bigMask is the index modulo 2 n |
| `RingBuffer.MaskedFill` | various/ringbuffer.h:157-167 | the fill is computed right although the subtraction may wrap around |
| `RingBuffer.RingBuffer.constructor` | various/ringbuffer.h:137-147 | for every 32-bit count: an empty buffer of that size, or of 32768 if it is no power of two; usable exactly if the count is not 0 |
| `RingBuffer.RingBuffer.PutDataIntoBuffer` | various/ringbuffer.h:270-288 | as much of the data as there is room for is appended |
| `RingBuffer.RingBuffer.GetDataFromBuffer` | various/ringbuffer.h:290-308 | the oldest elements are taken out, in order |
| `RingBuffer.RingBuffer.PeekBuffer` | various/ringbuffer.h:310-327 | they are delivered and stay |
| `RingBuffer.RingBuffer.SkipDataInBuffer` | various/ringbuffer.h:329-336 | called by the only thread: the oldest elements are dropped, as many as asked or as there are; for two threads see RingProtocol.SkipMayOvershoot |
| `RingBuffer.RingBuffer.CopyIn` | various/ringbuffer.h:199-229 | the two regions to write |
| `RingBuffer.RingBuffer.CopyOut` | various/ringbuffer.h:237-266 | the two regions to read |
| `RingBuffer.RingBuffer.FlushRingBuffer` | various/ringbuffer.h:173-176 | empties the buffer |
| `RingProtocol.AvailableIsFill` | various/ringbuffer.h:157-167 | in every reachable state either side computes the true fill |
| `RingProtocol.NothingIsHeldBack` | various/ringbuffer.h:200-336 | in every reachable state a write takes all of its data or fills the buffer, and a read all that was asked for or empties it, whatever the other side is doing meanwhile |
| `RingProtocol.NothingUnreadIsOverwritten` | various/ringbuffer.h:270-288 | no element is copied over one that has not been read, whatever the reader is doing |
| `RingProtocol.NextIsFine` | various/ringbuffer.h:180-308 | every step of writer and reader keeps the invariant |
| `RingProtocol.DeliveredIsPrefix` | various/ringbuffer.h:290-308 | what has been got, put together, is a prefix of what was written |
| `RingProtocol.FifoAlways` | various/ringbuffer.h:157-336 | in every interleaving of one writer and one reader: FIFO, and the fill stays between 0 and the size |
| `RingProtocol.SkipMayOvershoot` | various/ringbuffer.h:329-336 | a skip begun in a state can drop more than it is asked to exactly if it is asked for more than there is and less than the buffer holds |
| `RingProtocol.SkipOvershootsFromStart` | various/ringbuffer.h:329-336 | and for each such number there is a run from the start in which it does |
| `AmtorClock.RunIsCounted` | decoders/amtor-decoder/amtor-decoder.cpp:255-266 | a run of L fragments begun by a transition gives (L + 4) div 10 bits |
| `AmtorClock.RightIffInTime` | decoders/amtor-decoder/amtor-decoder.cpp:255-266 | which is right exactly if L lies in 10 k - 4 .. 10 k + 5 |
| `AmtorClock.BitsAreRecovered` | decoders/amtor-decoder/amtor-decoder.cpp:255-266 | any sequence of such runs is recovered as the bits sent |
| `AmtorWords.ValueOfBits` | decoders/amtor-decoder/amtor-decoder.cpp:273-275 | shifting in the bits of a word gives the word, and its ones are counted right |
| `AmtorLine.FirstWord` | decoders/amtor-decoder/amtor-decoder.cpp:277-287 | the register slides over bits that make no word and takes the first seven that do |
| `AmtorLine.WordsAreRead` | decoders/amtor-decoder/amtor-decoder.cpp:273-288 | from a word boundary on every word is read |
| `AmtorLine.NoFalseWord` | decoders/amtor-decoder/amtor-decoder.cpp:293-303 | no seven bits across two different phasing signals have four ones |
| `AmtorLine.JoinsPhasing` | decoders/amtor-decoder/amtor-decoder.cpp:273-288 | wherever in the phasing the receiver comes in, it reads every word from the next boundary on |
| `AmtorReceiver.FirstCopiesAreFresh` | decoders/amtor-decoder/amtor-decoder.cpp:374-407 | the queue hands on exactly the words in the first slots, once |
| `AmtorReceiver.PhasingIsSeen` | decoders/amtor-decoder/amtor-decoder.cpp:313-335 | phasing brings the receiver to the point where a message may begin |
| `AmtorReceiver.LongMessage` | decoders/amtor-decoder/amtor-decoder.cpp:311-407 | a message of three words or more is handed on as a whole, marks included, and the receiver is ready for another |
| `AmtorReceiver.OneWord` | decoders/amtor-decoder/amtor-decoder.cpp:345-364 | a message of one word is lost |
| `AmtorReceiver.TwoWords` | decoders/amtor-decoder/amtor-decoder.cpp:345-364 | so is one of two words |
| `AmtorReceiver.MessageIsHeard` | decoders/amtor-decoder/amtor-decoder.cpp:311-407 | exactly what HandleChar and flushBuffer get of a message, whatever the second copies have become: in strict mode 0x78 for a word whose copies differ |
| `AmtorPhasing.BeginsExactly` | decoders/amtor-decoder/amtor-decoder.cpp:313-335 | in any stream of words a message begins exactly at the first word that follows ALPHA and is not BETA, with that word |
| `AmtorPhasing.EndsExactly` | decoders/amtor-decoder/amtor-decoder.cpp:337-368 | and ends exactly with the first phasing signal that is met with the other one behind it, a phasing signal and the word behind it being looked at together: all words up to there go into the queue, the next one flushes the screen |
| `AmtorPhasing.EndMayBeHidden` | decoders/amtor-decoder/amtor-decoder.cpp:337-368 | so a phasing signal that is received twice hides the end behind it |
| `AmtorLine.BroadcastIsHeard` | decoders/amtor-decoder/amtor-decoder.cpp:255-407 | from fragments with jitter, joined anywhere in the phasing, to the words of all messages, once and in order |
| `AmtorText.KeysDiffer` | decoders/amtor-decoder/amtor-decoder.cpp:29-64 | no two rows of the code table have the same key |
| `AmtorText.KeyIsWord` | decoders/amtor-decoder/amtor-decoder.cpp:29-64 | every key has four ones |
| `Ita2.LetterIsIta2` | decoders/amtor-decoder/amtor-decoder.cpp:29-64 | four ones among seven elements show a letter other than E and T exactly if the five in the middle are its combination in International Telegraph Alphabet No. 2, and the ones around them stand as they should; in figure shift they show the figure of that letter |
| `Ita2.LettersOfOneElement` | decoders/amtor-decoder/amtor-decoder.cpp:29-64 | the words of E and T, whose combinations have one element only |
| `Ita2.OtherWords` | decoders/amtor-decoder/amtor-decoder.cpp:29-64 | the words of carriage return, line feed, the blank, the shifts and the phasing signals |
| `Ita2.UnusedWords` | decoders/amtor-decoder/amtor-decoder.cpp:29-64 | of the words with four ones two stand for nothing |
| `Ita2.ShiftsHold` | decoders/amtor-decoder/amtor-decoder.cpp:409-441 | the word 0x2D brings letters and 0x36 figures, which hold for all words up to the next of the two |
| `AmtorText.TextIsShown` | decoders/amtor-decoder/amtor-decoder.cpp:409-441 | a text spelled with the table and the shifts is shown as it was |
| `AmtorText.TextsAreRead` | decoders/amtor-decoder/amtor-decoder.cpp:255-549 | from the texts sent to the text on the screen, in strict mode if the copies agree |
| `AmtorText.TelegramIsProper` | decoders/amtor-decoder/amtor-decoder.cpp:29-64 | any text of the code can be sent this way |
| `AmtorDecoder.Decoder.AddBitFragment` | decoders/amtor-decoder/amtor-decoder.cpp:255-266 | after any fragments the screen is what the specification gives for them |
| `AmtorDecoder.Decoder.AddFullBit` | decoders/amtor-decoder/amtor-decoder.cpp:273-288 | the register with its count and its mask is the sliding window |
| `AmtorDecoder.Decoder.Validate` | decoders/amtor-decoder/amtor-decoder.cpp:293-303 | the loop counts the ones among seven bits |
| `AmtorDecoder.Decoder.Decode` | decoders/amtor-decoder/amtor-decoder.cpp:311-368 | the state machine |
| `AmtorDecoder.Decoder.AddByteToMessage` | decoders/amtor-decoder/amtor-decoder.cpp:374-407 | the circular queue with its scrapped marks hands on what the history says |
| `AmtorDecoder.WordEnters` | decoders/amtor-decoder/amtor-decoder.cpp:376-406 | the queue holds the last six words, first copies unmarked and used second copies scrapped |
| `AmtorDecoder.Decoder.HandleChar` | decoders/amtor-decoder/amtor-decoder.cpp:409-441 | shifts, look-up and the question mark |
| `AmtorDecoder.Decoder.InitMessage` | decoders/amtor-decoder/amtor-decoder.cpp:519-526 | a queue full of phasing signals holds an empty history |
| `Spool.NoSlotIsShared` | decoders/acars-decoder/printer.cpp:156-189 | the slot that is being filled is none that waits or is being processed |
| `Spool.TakeIsFine` | decoders/acars-decoder/printer.cpp:156-189 | every step of either thread keeps the invariant |
| `Spool.NeverStuck` | decoders/acars-decoder/printer.cpp:159-188 | while a message waits for a slot a step of the printer thread is enabled |
| `Spool.SpoolInOrder` | decoders/acars-decoder/printer.cpp:156-189 | in every interleaving the messages are processed unchanged and in order of submission, and free, used and held slots add up |
| `Spool.EverythingIsPrinted` | decoders/acars-decoder/printer.cpp:156-189 | after any run, once nothing more is submitted: every schedule of the two threads ends after the same number of steps, is never stuck before, and then everything submitted has been processed and every slot is free |
| `Spool.PlaceIsRemainder` | decoders/acars-decoder/printer.cpp:170-186 | the index arithmetic is the remainder modulo theSlots |
| `MovingAverage.SumBetween` | various/utilities.cpp:58-69 | a sum of values from a range lies in the range times their number |
| `MovingAverage.Average.Filter` | various/utilities.cpp:58-69 | the average of the last size values, the oldest dropped |
| `MovingAverage.Average.Clear` | various/utilities.cpp:71-77 | the window is filled with the constant |
| `CwTracking.StartIsInBand` | decoders/cw-decoder/cw-decoder.cpp:207-231 | after speedAdjust dot, dash and threshold lie in the band |
| `CwTracking.TrackStaysInBand` | decoders/cw-decoder/cw-decoder.cpp:386-395 | tracking keeps them there |
| `CwTracking.SpeedFits` | decoders/cw-decoder/cw-decoder.cpp:392 | the 16-bit speed is right exactly if dots last 37 microseconds or more |
| `CwTracking.SpeedIsInBand` | decoders/cw-decoder/cw-decoder.cpp:207-231 | the speed does not fall below the lower bound |
| `CwTracking.LocksOn` | decoders/cw-decoder/cw-decoder.cpp:386-494 | a regular sender within the band is followed exactly from the ninth alternating tone on, whatever the state before |
| `CwTracking.LocksOnWithinHalf` | decoders/cw-decoder/cw-decoder.cpp:207-494 | so is one that is slower or faster than the speed that was set by up to half of it |
| `CwTracking.PairIsAccepted` | decoders/cw-decoder/cw-decoder.cpp:460-520 | two tones set a threshold exactly if one is between two and four times as long as the other, and it is their mean if both are within the band |
| `CwTracking.LockedStays` | decoders/cw-decoder/cw-decoder.cpp:386-494 | once it is, the tones of that sender change nothing any more but the speed that is shown |
| `CwMachine.StepFits` | decoders/cw-decoder/cw-decoder.cpp:328-454 | every sample keeps band and buffer bounds |
| `CwMachine.AlwaysInBand` | decoders/cw-decoder/cw-decoder.cpp:207-494 | the same over every run of samples and settings, with no division by zero |
| `CwMachine.AlwaysInBandFromStart` | decoders/cw-decoder/cw-decoder.cpp:106-494 | and so for every run of a decoder just set up |
| `CwMachine.OnlyZeroFails` | decoders/cw-decoder/cw-decoder.cpp:207-231 | the divisions of speedAdjust are defined exactly for speeds other than 0 |
| `CwMachine.SpikesStick` | decoders/cw-decoder/cw-decoder.cpp:328-454 | silence after a tone that is shorter than a spike leaves a symbol in the end exactly if cwPreviousState is a tone, which it is after every tone but one out of silence, for it is set after cwState |
| `CwMachine.SpikeIsForgotten` | decoders/cw-decoder/cw-decoder.cpp:328-454 | and if it was not, the decoder is idle again from the first sample on and has read nothing |
| `CwMachine.SpikesAreMet` | decoders/cw-decoder/cw-decoder.cpp:328-454 | at every speed whose spikes are longer than a sample there is a run from the start to such a tone |
| `CwLetters.LetterIsRead` | decoders/cw-decoder/cw-decoder.cpp:328-454 | a letter that is keyed, tones told apart by the threshold and gaps within bounds, is shown once, with its dots and dashes, with a blank behind it if a word ends |
| `CwLetters.MessageIsRead` | decoders/cw-decoder/cw-decoder.cpp:328-454 | so is every message, from the amplitudes of the samples to the letters |
| `CwLetters.SenderIsRead` | decoders/cw-decoder/cw-decoder.cpp:106-454 | a decoder just set up with tracking off reads every sender that keeps time and whose dots are between two and four thirds as long as its own, give or take a sample |
| `CwLetters.LockedSenderIsRead` | decoders/cw-decoder/cw-decoder.cpp:328-494 | a decoder that has locked on to a sender reads all that is sent from the next letter on |
| `CwLetters.TrackedSenderIsRead` | decoders/cw-decoder/cw-decoder.cpp:106-494 | a decoder just set up with tracking on reads a sender at the speed that is set |
| `CwLetters.SampleIsWeighed` | decoders/cw-decoder/cw-decoder.cpp:282-346 | by which share peak and noise move, and at which samples a tone begins and lasts |
| `CwLetters.SettingStartsAnew` | decoders/cw-decoder/cw-decoder.cpp:177-234 | a change of the speed or of tracking drops what was shown and begun, and the pace is that of the speed |
| `CwLetters.GapIsLearnt` | decoders/cw-decoder/cw-decoder.cpp:405-412 | sixteen gaps alike are the space that the decoder reckons with, and nothing but a gap within a letter changes it |
| `CwDecoder.Decoder.ProcessSample` | decoders/cw-decoder/cw-decoder.cpp:328-455 | the fields follow the state machine |
| `CwDecoder.Decoder.FollowSender` | decoders/cw-decoder/cw-decoder.cpp:386-395 | the fields follow the tracking |
| `CwDecoder.Decoder.SpeedAdjust` | decoders/cw-decoder/cw-decoder.cpp:207-234 | the fields after a change of speed |
| `CwTracking.ThresholdFits` | decoders/cw-decoder/cw-decoder.cpp:460-474 | an accepted threshold lies between two of the shortest and two of the longest dots |
| `CwDecoder.Decoder.Setup` | decoders/cw-decoder/cw-decoder.cpp:106-170 | the fields at the start; previous tone and time are whatever the memory held |
| `AgcHandler.PeakIsGreatest` | various/agchandler.cpp:99-115 | one step: the peak is the greatest magnitude although the window is searched only when its oldest was the peak |
| `AgcHandler.PeakAlways` | various/agchandler.cpp:75-137 | on every run that starts so and is never off, changes of mode included, the peak is the greatest of the last bufferSize magnitudes |
| `AgcHandler.AveragesStay` | various/agchandler.cpp:75-137 | both averages stay within the range of their start and the magnitudes seen, changes of mode included |
| `AgcHandler.AveragesFollow` | various/agchandler.cpp:116-134 | rising, the averages cover a five-hundredth and a two-hundredth of the rate of the way to the peak, falling a hundredth; a rise of the decay average begins the hang time |
| `AgcHandler.HangHolds` | various/agchandler.cpp:124-134 | after that the decay average stays as it is for exactly as many samples without a higher peak as the hang interval holds, and falls towards the peak with every further one |
| `AgcHandler.SwitchHolds` | various/agchandler.cpp:75-134 | setting the mode begins the hang time anew |
| `AgcHandler.HangIntervalFits` | various/agchandler.cpp:75-79 | the 16-bit hang interval is half of the rate exactly up to a rate of 65535, and an eighth of it exactly up to 262143 |
| `AgcHandler.AverageBetween` | various/agchandler.cpp:166-172 | the decaying average lies between its arguments |
| `AgcHandler.Handler.DoAgc` | various/agchandler.cpp:93-145 | the fields follow the specification, and the greater average decides the gain |
| `AgcHandler.Handler.Search` | various/agchandler.cpp:111-114 | the loop finds the greatest magnitude of the window |
| `AgcHandler.Handler.SetMode` | various/agchandler.cpp:75-79 | mode, hang time and its 16-bit interval |

## Left out

- Number text of cJSON (`sprintf`, `strtod`), allocation failure, hooks, raw items, references and error positions.
- User interface, settings, scopes, audio and network I/O, clocks and log output.
- Floating point rounding: reals are exact.  The kernels, windows, matched filter, phase loop and power laws are
  parameters or absent; the transforms are assumed to give circular convolution.
- Changing the kernel of a filter, or mixing its real and complex overloads, in the middle of a stream.
- Memory ordering: the steps of two threads are interleaved, as with sequential consistency; barriers are no steps.
- 32-bit wrap-around of times and counters that would take half an hour or more without a tone to show.
- The contents of `numbits` (a byte's ones are counted instead), the received level and time, and the output formats.
- AcarsDecoder.Decoder.ProcessBlock: demands InTable, the negation of the condition of `TableUse.AskedBeyondIff`, since
  what stands behind the table is not known.
- JsonParser.ParseBuffer.ParseNumber: over an abstract pair of number functions, because number text is left out.
- AmtorText.TextsAreRead: in strict mode for copies that agree; of others `AmtorReceiver.MessageIsHeard` gives the
  words, but a lost shift changes what the words after it show.
- The filter that shows only messages between ZCZC and NNNN, and the display's limit of 70 characters.
- The table of Morse letters: the letter is shown as its dots and dashes.
- AGC while it is off: the window moves on and the peak is not kept up.
