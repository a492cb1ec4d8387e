# Verified models of cpph

cpph is a C++17 utility library with a few single-file components built in.
This project models eight of its parts in Dafny and proves what they are
for. `dafny verify dfyconfig.toml` checks everything.

* **Image writers** (`src/import/stb_image_write.h`). `Bits`, `BitOutput`,
  `Deflate`, `Stored`, `Adler32` and `ZlibCompress` are the zlib compressor:
  hash buckets, lazy matching, fixed Huffman codes through a 32-bit bit buffer,
  the stored-block fallback, the checksum. `Inflate` is an independent decoder
  written from RFC 1951 and RFC 1950. `PngFilter` and `PngImage` are the scanline
  filters and the choice between them, against section 9 of the PNG
  specification, up to the compressed image data; `HdrRle` and `TgaRle` the two
  run-length encoders. Each encoder is undone by the decoder beside it.
* **JSON** (`jsmn.h`, `json-reader.hxx`). `Jsmn` describes the tokenizer one
  character at a time; `JsmnParser` is the parser object, proved to do the same.
  `JsmnTree` holds the shape every state has, `JsmnText` what one more character
  can change, `JsmnValues` that every JSON value is tokenized to its tree,
  `JsonCursor` the moves of the reader, `JsonReader` the reader object that calls
  the tokenizer on growing text, `JsonReading` what it takes of a stream,
  `JsonTrees` what a caller gets from a value's text by these moves. `JsonGrammar`
  is the grammar of RFC 8259, written out by characters.
* **Ring allocator** (`ring_allocator.hxx`). `RingGeometry` is the circular
  tiling of the buffer by blocks, `RingAllocator` the allocator over the array of
  header words.
* **Event queue** (`event_queue.hxx`, `event_wait.hxx`). `EventQueue` is a step
  system for any number of threads; `EventQueueSafety` and `EventQueueWakeups`
  prove safety and the absence of lost wake-ups over all runs, `EventQueueReturns`
  why a consumer returns.
* **Matrix inversion** (`matrix.hxx`). `LinearAlgebra` is the theory, `Matrix`
  the in-place elimination.
* **Plane clipping** (`plane.hxx`). `PlaneClip` compares the two-state loop with
  the edge-by-edge clip.
* **Circular queue** (`circular_queue.hxx`). `CircularQueue` refines a FIFO that
  drops its oldest elements.
* **MessagePack** (`msgpack-writer.hxx`, `msgpack-reader.hxx`,
  `context_helper.hxx`). `MsgPackFormat` is the encoding, `MsgPackWriter` the
  writer object, `MsgPackReader` the reader's calls as functions,
  `MsgPackStream` the reader object, `MsgPackTrees` the theorems about trees,
  `MsgPackWire` all formats of the MessagePack specification, `MsgPackCalls` when
  the reader's calls throw.

Objects that update their fields are classes; each method is tied to a function
of the old state, and the theorems are about those functions. Exceptions are
`None`, `Thrown`, an error code or a `false` result; `Dangling` is a look through
a reference that is no longer valid.

Where the code does not do what it seems meant to do, the model follows the code:

* `stbi_zlib_compress` of empty input takes the fallback and writes no block, so
  the stream cannot be inflated (`ZlibCompress.Compress`, `NoBodyFails`).
* `plane.hxx:54` says that clipping does not expand the number of vertices; it
  does when more edges cross the plane than vertices lie below
  (`PlaneClip.DoesNotExpand`, `TriangleExpands`).
* With parent links the tokenizer accepts a stray closing bracket after a colon
  (`JsmnTree.BuildsDiffer`, `StrayBracketAccepted`).
* A JSON string or primitive at the root is not left behind when it is read: with no
  scope open `step` does nothing (`json-reader.hxx:134`), so the next read gives it
  again (`JsonTrees.ReadsRoot`, `ReadsRootWord`).
* The ring allocator's rounding of sizes wraps around for requests within seven
  bytes of 2^64 (`RingAllocator.WordsCover`).
* The TGA encoder compares pixels two apart when it looks for the end of a raw
  packet, so that a raw packet ends exactly before the first pixel that equals the
  one two before it (`TgaRle.PacketExact`, `SinglePixel`). The result is not wrong;
  it is longest exactly for a row of two alternating pixels, and then, from three
  pixels on, longer than full raw packets (`LongestRow`, `AlternatingRow`).
* `reserve_shrink(0)` keeps the old head and tail
  (`CircularQueue.Queue.ReserveShrink`).
* The MessagePack reader keeps a reference into its vector of scopes while it skips
  what is left of a scope (`msgpack-reader.hxx:372-377`). A container inside that
  opens one more scope than the vector has room for moves the vector, and the next
  look at the count is a look at freed memory. So `[[1]]` cannot be skipped by a
  reader that reserves no depth, where the vector grows to one scope at first; it
  can exactly where the nesting fits (`MsgPackTrees.SkipTree`, `NestedSkip`,
  `ReserveSuffices`, `EndSkipsRest`).
* The MessagePack reader leaves a map waiting for a key after a nil key, cannot
  skip a map whose value is a container, counts the elements of a map with 2^31
  or more entries modulo 2^32 and then reads or skips too few, and accepts three
  foreign codes, and no others, as container or binary heads
  (`MsgPackTrees.ReadableMeans`, `SkipTree`, `OpenedCounts`, `RoundTrip`,
  `CodesMistaken`).

## Model

| member | source | states |
|---|---|---|
| ZlibCompress.Compress | src/import/stb_image_write.h:895-1017 | for every byte string, quality and hash function the output inflates back to the input if and only if the input is not empty; it is the block of exactly the tokens that the search picks, or the stored blocks where that block is longer |
| ZlibCompress.CompressFixed | src/import/stb_image_write.h:913-978 | the body before the fallback is one fixed-Huffman block of codes whose expansion is the input, padded with fewer than 8 bits |
| ZlibCompress.CompressBlock | src/import/stb_image_write.h:920-975 | the tokens of both loops are those the search picks at each position, by the table that the positions before it make, and literals at the last three; they expand byte by byte to the input |
| ZlibCompress.SlotShared | src/import/stb_image_write.h:867-875 | two positions share a bucket whatever the hash function exactly if their next three bytes are equal |
| ZlibCompress.GreedyOnce | src/import/stb_image_write.h:920-975 | these tokens are determined by the data, the quality and the hash function |
| ZlibCompress.EqualBytes | src/import/stb_image_write.h:920-975 | n >= 4 equal bytes are one literal, at most (n + 256) / 258 matches and at most three literals |
| ZlibCompress.Choose | src/import/stb_image_write.h:922-971 | the whole new hash table (the position entered, a full bucket halved); the token is the last longest match of the bucket, or a literal if there is none of three bytes or the next position matches longer |
| ZlibCompress.PicksOne | src/import/stb_image_write.h:922-971 | no other token is allowed at the position |
| ZlibCompress.EnteredKeeps | src/import/stb_image_write.h:934-939 | a position is entered behind the newest entries of its bucket: all of them, or half if it was full |
| ZlibCompress.FindMatch | src/import/stb_image_write.h:928-933 | the match found is the last of the longest ones inside the 32 KB window, of at least 3 and at most 258 bytes; there is none if no entry in the window matches three bytes |
| ZlibCompress.NextIsBetter | src/import/stb_image_write.h:941-955 | lazy matching is taken exactly if some entry in the window matches longer one byte later |
| ZlibCompress.CountMatch | src/import/stb_image_write.h:859-865 | the length of the common stretch, at most 258 and inside the data |
| ZlibCompress.CommonMeans | src/import/stb_image_write.h:859-865 | the stretch ends at 258, at the end of the data or where the bytes differ |
| ZlibCompress.Append | src/import/stb_image_write.h:957-971 | a token that says what the data says at a position extends the expansion by exactly the bytes it stands for |
| ZlibCompress.Emit | src/import/stb_image_write.h:960-970 | the bits of a token are appended: symbol, extra length bits, distance code, extra distance bits |
| ZlibCompress.StoreInstead | src/import/stb_image_write.h:985-999 | the fallback writes the stored blocks of the input, every copy staying inside the capacity the longer body had already reached |
| ZlibCompress.StoreOne | src/import/stb_image_write.h:987-998 | each round of the fallback writes exactly the next stored block and advances |
| ZlibCompress.FixedBodyOk | src/import/stb_image_write.h:913-978 | header, fixed block, padding and checksum make a stream that inflates to the data |
| ZlibCompress.StoredBodyOk | src/import/stb_image_write.h:985-999 | header, stored blocks and checksum make a stream that inflates to the data |
| ZlibCompress.NoBodyFails | src/import/stb_image_write.h:985-999 | the stream for empty input, which has no block at all, does not inflate |
| Stored.StoredSize | src/import/stb_image_write.h:985 | the stored blocks of nonempty data have exactly the length that the guard of the fallback compares with |
| Stored.ReadStored | src/import/stb_image_write.h:988-997 | a stored block is read back, its two length fields being complements |
| Stored.ReadAllStored | src/import/stb_image_write.h:987-998 | the sequence of stored blocks, the last one marked, is read back as the data |
| Deflate.ReadTokens | src/import/stb_image_write.h:957-975 | inflating the bits of any list of legal literals and matches and the end-of-block code gives its expansion and leaves the rest of the bits |
| Deflate.ReadToken | src/import/stb_image_write.h:957-970 | the bits of one literal or match are read back whatever follows |
| Deflate.LengthTable | src/import/stb_image_write.h:901-902 | every entry of the two length tables is the base and the number of extra bits of section 3.2.5 of RFC 1951, and lengths up to the next entry fit the extra bits |
| Deflate.DistanceTable | src/import/stb_image_write.h:903-904 | the same for the two distance tables |
| Deflate.CopyFromData | src/import/stb_image_write.h:939-970 | copying byte by byte from an equal earlier stretch continues the data, overlapping matches included |
| BitOutput.Output.Add | src/import/stb_image_write.h:880-881 | the low bits of the code follow the bits written so far, and fewer than 8 bits stay in the buffer |
| BitOutput.Output.Flush | src/import/stb_image_write.h:839-847 | whole bytes leave the bit buffer without changing the bit stream |
| BitOutput.Output.AddSymbol | src/import/stb_image_write.h:884-888 | a literal/length symbol is written with the fixed code of section 3.2.6 of RFC 1951, most significant bit first |
| BitOutput.Output.Pad | src/import/stb_image_write.h:977-978 | fewer than 8 zero bits complete the last byte |
| BitOutput.Output.Push | src/import/stb_image_write.h:818-822 | one byte is appended and the capacity never shrinks |
| BitOutput.Output.CopyIn | src/import/stb_image_write.h:995-996 | a block copied without growing needs free capacity, and is appended |
| BitOutput.BitReverse | src/import/stb_image_write.h:849-857 | the bits of the code in the opposite order |
| BitOutput.AddFits | src/import/stb_image_write.h:880-881 | the shifted code added to fewer than 8 held bits stays below 2^32, and or-ing is adding |
| Adler32.Checksum | src/import/stb_image_write.h:1001-1011 | reducing once a block gives the sums of section 8.2 of RFC 1950, which reduces every byte |
| Adler32.AdlerMeans | src/import/stb_image_write.h:1001-1011 | the two sums without reductions: one more than the sum of the bytes, and the sum of these sums, modulo 65521 |
| Adler32.TrailerMeans | src/import/stb_image_write.h:1012-1015 | the trailer is the checksum, most significant byte first |
| Adler32.InBlockStep | src/import/stb_image_write.h:1007 | no addition inside a block of at most 5552 bytes leaves 32 bits, and the residues follow the definition |
| Adler32.BoundedFits | src/import/stb_image_write.h:1004-1010 | the bounds on the unreduced sums stay below 2^32 for a whole block |
| PngFilter.RoundTrip | src/import/stb_image_write.h:1083-1126 | for every row, pixel size, prior row and filter, reconstruction by section 9 of the PNG specification gives the row back |
| PngFilter.EncodePngLine | src/import/stb_image_write.h:1092-1126 | the line written, first-pixel cases and remapped first row included, is the filtered line of the specification for the stored filter byte |
| PngFilter.EncodeByte | src/import/stb_image_write.h:1106-1125 | each byte subtracts exactly what the specification predicts there |
| PngFilter.Specials | src/import/stb_image_write.h:1094-1125 | codes 5 and 6 and the first-pixel formulas are the five filters with zeros where there is no neighbour |
| PngFilter.Paeth | src/import/stb_image_write.h:1083-1089 | the predictor is the nearest of the three neighbours to the estimate, ties in the order left, above, upper left |
| PngFilter.Predicts | src/import/stb_image_write.h:1112-1126 | what each of the five filter types predicts, the average as the integer at or just below half the sum |
| PngFilter.RowStartFits | src/import/stb_image_write.h:1099-1100 | rows stay inside the pixels, flipped or not, and the row above lies one signed stride before |
| PngImage.ChooseFilter | src/import/stb_image_write.h:1146-1163 | the filter chosen is the first with the least sum of signed magnitudes among the five |
| PngImage.WeightMeans | src/import/stb_image_write.h:1156-1159 | a byte of a line counts by its distance from the nearest multiple of 256 |
| PngImage.EncodeRow | src/import/stb_image_write.h:1141-1169 | a forced filter is used, otherwise the best one; the line left in the buffer is that filter's |
| PngImage.FilterImage | src/import/stb_image_write.h:1139-1174 | each row stands behind the filter that is forced or else the first of least cost, and unfiltering gives the rows |
| PngImage.UnfilterOneMore | src/import/stb_image_write.h:1171-1173 | one more filter byte and line add exactly one more row |
| PngImage.ImageData | src/import/stb_image_write.h:1132-1176 | inflating and unfiltering the image data gives exactly the rows, which follow one another when no stride is given, if and only if there is a row |
| PngImage.PackedRows | src/import/stb_image_write.h:1132-1133 | without a stride the rows follow one another; with one it is taken as it is |
| HdrRle.EncodeComponent | src/import/stb_image_write.h:720-756 | the bytes are exactly the packets: what stands in front of three equal bytes as it is, then the whole run; they unpack to the component within the growth bound |
| HdrRle.ConstantCoded | src/import/stb_image_write.h:720-756 | a component of equal bytes is one run |
| HdrRle.FirstRun | src/import/stb_image_write.h:729-738 | the first place where three equal bytes follow each other, or the end |
| HdrRle.DumpTo | src/import/stb_image_write.h:740-745 | bytes up to the run are dumped 128 at a time; exact length of what is written |
| HdrRle.RunTo | src/import/stb_image_write.h:750-755 | a run is written 127 at a time; exact length of what is written |
| HdrRle.ReadUnpacked | src/import/stb_image_write.h:653-668 | packets that unpack to a component are read back from in front of anything else, stopping at its width |
| HdrRle.WriteScanline | src/import/stb_image_write.h:670-758 | a scanline of any width decodes to its pixels and leaves what follows: header and four coded components for widths 8 to 32767, flat pixels otherwise |
| HdrRle.DecodesOnce | src/import/stb_image_write.h:670-758 | the bytes of a scanline stand for one row of pixels only |
| TgaRle.EncodeRow | src/import/stb_image_write.h:559-604 | the bytes of a row are exactly its packets, one after the other, and are read back as the row wherever they stand |
| TgaRle.NextPacket | src/import/stb_image_write.h:560-588 | the packet chosen: a longest run of at most 128 equal pixels, or a raw packet that ends before a pixel equal to the one two before it |
| TgaRle.PacketBack | src/import/stb_image_write.h:590-602 | a packet, its count in the low seven bits of the header, is read back with its pixels |
| TgaRle.PacketExact | src/import/stb_image_write.h:560-588 | at each pixel there is one packet: a run up to the first other pixel or 128, else a raw one that ends one pixel before the first pixel equal to the one two before it, or at 128 or the end of the row |
| TgaRle.SinglePixel | src/import/stb_image_write.h:569-580 | between unequal neighbours a packet has one pixel if and only if the pixel after them equals the first |
| TgaRle.LongestRow | src/import/stb_image_write.h:559-604 | a row of n pixels grows by at most n - 1 bytes, and by that many if and only if two different pixels alternate in it |
| TgaRle.AlternatingRow | src/import/stb_image_write.h:569-580 | an alternating row of three pixels or more is longer than in raw packets of 128 pixels |
| TgaRle.EncodeImage | src/import/stb_image_write.h:545-605 | all rows in the order bottom up, or top down when flipped, are read back |
| JsmnParser.Parser.Parse | include/cpph/third/jsmn.h:276-461 | the parser object over its token array computes the run of single-character steps: same result, position, superior token and tokens |
| JsmnParser.Parser.ParseString | include/cpph/third/jsmn.h:184-271 | finds the closing quote, or restores the position on a bad escape, the end of the text or a full array |
| JsmnParser.Parser.ParsePrimitive | include/cpph/third/jsmn.h:126-179 | finds the delimiter, or restores the position in the three failing cases |
| JsmnParser.Parser.CloseContainer | include/cpph/third/jsmn.h:316-343 | the climb over parent links closes the container the step closes, or refuses |
| JsmnParser.Parser.OpenContainer | include/cpph/third/jsmn.h:289-315 | a token is allocated under the superior token and becomes it, or the call fails |
| Jsmn.Resume | include/cpph/third/jsmn.h:276-461 | a call on any prefix with any capacity, unless it refuses, followed by a call on longer text with more tokens, ends as one call on all of it |
| Jsmn.RefusalExtends | include/cpph/third/jsmn.h:276-461 | a refused prefix stays refused with more text and room |
| Jsmn.SessionIsOneRun | include/cpph/third/jsmn.h:276-461 | any number of calls on growing text and token arrays is one run on the last ones |
| Jsmn.SessionWhen | include/cpph/third/jsmn.h:276-461 | a session breaks off before its last call exactly if one of the earlier texts would be refused on its own |
| JsmnText.NeverOverflows | include/cpph/third/jsmn.h:97-112 | no call uses more tokens than the array has, and a lack of room is reported only with all of them used |
| JsmnTree.StepKeeps | include/cpph/third/jsmn.h:283-449 | every character keeps the shape: starts increase, open containers are above everything after them and above the superior token, closed ones enclose theirs, sizes count children |
| JsmnTree.RunKeeps | include/cpph/third/jsmn.h:276-461 | on every text, valid or not, every call that does not refuse keeps that shape |
| JsmnTree.ClimbIsScan | include/cpph/third/jsmn.h:326-366 | whenever a container is open, the climb ends at the token the backward scan of the other build finds |
| JsmnTree.BuildsDiffer | include/cpph/third/jsmn.h:316-367 | the build with parent links accepts a closing bracket if and only if the scan does, or nothing is open, a colon left a superior token, and the root above the last token has the bracket's kind |
| JsmnTree.StrayBracketAccepted | include/cpph/third/jsmn.h:336-341 | the text "[]:]" reaches that case: the stray bracket is accepted |
| JsmnText.BoundaryAtClose | include/cpph/third/jsmn.h:97-121 | the first token starting at or after the end of a closed container is, however much is tokenized later, the number of tokens there were when it closed |
| JsmnText.BoundaryEncloses | include/cpph/third/jsmn.h:97-121 | the tokens before that boundary lie inside the container, the others behind it |
| JsmnText.RootClosedByLast | include/cpph/refl/archive/json-reader.hxx:395-438 | an open root is completed only by its own closing bracket, and then nothing is open and the result is the number of tokens |
| JsmnText.FirstToken | include/cpph/refl/archive/json-reader.hxx:381-407 | the first token to appear is a finished string or primitive, or a container just opened |
| JsmnText.RunLater | include/cpph/third/jsmn.h:276-461 | a call keeps kind, start and parent of every token and the end of closed ones; new tokens start behind |
| JsmnValues.RunValue | include/cpph/third/jsmn.h:276-461 | for every JSON value, with any white space, in any state where a value may stand: the run comes out behind it with exactly its tokens added, one more child counted and the same superior token |
| JsmnValues.WholeValue | include/cpph/third/jsmn.h:276-461 | a text that is one array, object or string, white space in front of it or not, gives exactly one token for each value in it, with its extent, number of children and parent, and the number of tokens as result |
| JsmnValues.WholePrimitive | include/cpph/third/jsmn.h:157-161 | a primitive alone is never finished in strict mode: the call gives no token and stays where the primitive begins |
| JsmnValues.WholeWord | include/cpph/third/jsmn.h:123-180 | a primitive with its delimiter gives its token and comes out behind a blank or a comma; behind a closing bracket the call refuses |
| JsmnValues.BodyEnd | include/cpph/third/jsmn.h:194-268 | the scan of a string ends at the quote behind any characters and complete escapes |
| JsonReading.ReadsExactly | include/cpph/refl/archive/json-reader.hxx:362-440 | whatever follows an array, an object or a string on the stream and whatever white space stands in front, the reader takes exactly the text up to its end, and holds exactly its tokens |
| JsonReading.ReadsWord | include/cpph/refl/archive/json-reader.hxx:362-403 | a primitive root is read with exactly the blank or comma behind it; one with a closing bracket or the end of the stream behind it never is |
| JsonReading.StepOverValue | include/cpph/refl/archive/json-reader.hxx:186-194 | stepping over a container anywhere among the tokens lands behind exactly its own tokens |
| JsonTrees.ReadsRoot | include/cpph/refl/archive/json-reader.hxx:111-184 | a caller that asks for the next type, enters containers, announces keys and reads until it is told to break gets exactly the value of the text, and no other tree, with no scope left open |
| JsonTrees.ReadsRootWord | include/cpph/refl/archive/json-reader.hxx:132-155 | the same for a primitive at the root and its delimiter |
| JsonTrees.ReadsValue | include/cpph/refl/archive/json-reader.hxx:111-184 | the same for a value anywhere among the tokens and in any scope that has an element left: the cursor comes out at the token behind the value, with one element consumed |
| JsonTrees.ReadsItems | include/cpph/refl/archive/json-reader.hxx:330-355 | the elements left of a scope, keys announced, are read up to the break, and use up exactly that scope |
| JsonTrees.OneTree | include/cpph/refl/archive/json-reader.hxx:330-336 | the caller gets at most one tree |
| JsonGrammar.RunsGrammar | include/cpph/third/jsmn.h:276-461 | every value of the grammar of RFC 8259, numbers, names and strings by their characters, gives exactly its tokens wherever a value may stand |
| JsonGrammar.ReadsGrammar | include/cpph/refl/archive/json-reader.hxx:111-184 | from the text of such an array, object or string a caller gets exactly that value |
| JsonGrammar.OthersRefused | include/cpph/third/jsmn.h:441-446 | any character that begins no value and is no white space, closing bracket, colon or comma is refused |
| JsonGrammar.KeyExpected | include/cpph/third/jsmn.h:301-306 | where an object expects a key a primitive or container is refused, and so is a second primitive behind a key |
| JsonGrammar.RoomExpected | include/cpph/third/jsmn.h:295-298 | with every token used, the next container, or ended string or primitive, stops the call without a change |
| JsonGrammar.EscapeRefused | include/cpph/third/jsmn.h:215-262 | a backslash with any other letter than those of the grammar and x is refused |
| JsonGrammar.DigitRefused | include/cpph/third/jsmn.h:230-257 | so is a character that is no hexadecimal digit where one is due |
| JsonGrammar.PrimitiveGoes | include/cpph/third/jsmn.h:134-155 | a primitive ends at white space, a comma or a closing bracket, and nothing else; characters that are not printable are refused |
| JsonGrammar.StringGoes | include/cpph/third/jsmn.h:194-214 | a string ends at its closing quote, and at no other character but a backslash is there anything to look at |
| JsonReader.Reader.Prepare | include/cpph/refl/archive/json-reader.hxx:362-440 | reads exactly up to the close of the first root value and tokenizes exactly that text; fails only if no prefix of the input completes a root |
| JsonReader.Reader.Tokenize | include/cpph/refl/archive/json-reader.hxx:419-433 | each call resumes the last one, with more text or a larger token array, as one call on the whole buffer |
| JsonReader.LowerBound | include/cpph/refl/archive/json-reader.hxx:186-194 | the binary search returns the first token from the given one on that starts at or after the given end |
| JsonReader.Reader.StepIn | include/cpph/refl/archive/json-reader.hxx:111-130 | a scope with a fresh key on the container at the cursor, or the error |
| JsonReader.Reader.Step | include/cpph/refl/archive/json-reader.hxx:132-155 | one element is consumed; a container is stepped over as a whole |
| JsonReader.Reader.StepOut | include/cpph/refl/archive/json-reader.hxx:157-184 | the scope with the key and all inside it are left |
| JsonCursor.StepOutAnywhere | include/cpph/refl/archive/json-reader.hxx:157-184 | leaving a scope by its key reaches the same cursor and scopes whatever was read, entered or left in between |
| JsonCursor.StepOutThrows | include/cpph/refl/archive/json-reader.hxx:159-166 | leaving throws exactly if no scope has the key or the innermost that has it awaits a key |
| JsonCursor.StepInWhen | include/cpph/refl/archive/json-reader.hxx:111-130 | a container is entered exactly if it is of the kind asked for; its scope counts the elements, two for each member of an object |
| JsonCursor.StepWhen | include/cpph/refl/archive/json-reader.hxx:132-155 | exactly when a step throws, and where it leads otherwise: one element less, no key announced, the next token, behind a container |
| JsonCursor.KeyNextWhen | include/cpph/refl/archive/json-reader.hxx:348-355 | a key is announced exactly in an object where none is announced yet |
| JsonReader.Reader.KeyNext | include/cpph/refl/archive/json-reader.hxx:348-355 | the announcement of a key, or the error |
| RingAllocator.Ring.Allocate | include/cpph/memory/ring_allocator.hxx:282-350 | succeeds if and only if some stretch of the buffer free of blocks is long enough; then exactly one live block is added, else the live blocks are unchanged |
| RingAllocator.Ring.Deallocate | include/cpph/memory/ring_allocator.hxx:352-361 | for any order of deallocation exactly the given block leaves the live ones |
| RingAllocator.Ring.Flush | include/cpph/memory/ring_allocator.hxx:363-380 | dead blocks are collected, live ones never passed, and the tail ends null or on the oldest live block |
| RingAllocator.Ring.Front | include/cpph/memory/ring_allocator.hxx:256-259 | the payload of the oldest live allocation |
| RingAllocator.Ring.Empty | include/cpph/memory/ring_allocator.hxx:251-254 | true exactly when nothing is live, fillers from wrapping included |
| RingAllocator.Ring.WritePayload | include/cpph/memory/ring_allocator.hxx:119 | a word of a payload is written and no header, and no other word, changes |
| RingAllocator.NextNodeVisits | include/cpph/memory/ring_allocator.hxx:110-120 | following next_node from the tail, wrapping at the end, visits the blocks in order and ends at the head |
| RingAllocator.AllocationsDisjoint | include/cpph/memory/ring_allocator.hxx:282-350 | no two live allocations share a word, and all are in bounds |
| RingAllocator.WordsCover | include/cpph/memory/ring_allocator.hxx:383 | the words are the fewest that hold the bytes, if and only if the addition does not wrap around; else there are none |
| RingGeometry.FitsIsFree | include/cpph/memory/ring_allocator.hxx:299-342 | the two places the allocator looks at have room exactly if there is room anywhere |
| RingGeometry.OccupiedIs | include/cpph/memory/ring_allocator.hxx:282-350 | the blocks tile exactly the used region between tail and head |
| RingGeometry.BlocksDisjoint | include/cpph/memory/ring_allocator.hxx:282-350 | no two blocks of the ring share a word |
| EventQueueSafety.RunSafe | include/cpph/thread/event_queue.hxx:103-278 | every interleaving of any number of threads keeps the invariant: one well-formed chain, every node in one place, one holder of the mutex |
| EventQueueSafety.StepKeeps | include/cpph/thread/event_queue.hxx:103-278 | every single step of every thread keeps it |
| EventQueueSafety.NothingDangles | include/cpph/thread/event_queue.hxx:122-144 | front_ and back_ are null together, name queued nodes otherwise, and no thread, posting, clearing, executing or releasing, refers to a released node |
| EventQueueSafety.OnceInOrder | include/cpph/thread/event_queue.hxx:103-156 | messages leave in push order; none runs twice, none is released twice, only popped ones run |
| EventQueueSafety.NothingLeaks | include/cpph/thread/event_queue.hxx:146-156 | when the queue is empty and no thread holds a node, both stores are empty and every posted message was released |
| EventQueueSafety.ReleaseStores | include/cpph/thread/event_queue.hxx:146-156 | after it ran, a node is released exactly to the store it came from |
| EventQueueSafety.ClearStores | include/cpph/thread/event_queue.hxx:241-252 | the same for a node released by clear without having run |
| EventQueueReturns.ReturnsForReason | include/cpph/thread/event_queue.hxx:164-227 | over all runs, in terms of the steps: a consumer that has returned since it entered has run a message or found the queue stopped; a timed one may have given up, a flushing one found the queue empty |
| EventQueueReturns.StoppedIs | include/cpph/thread/event_queue.hxx:229-237 | the flag is set exactly if the last step that set or reset it set it |
| EventQueueReturns.FlushNeverSleeps | include/cpph/thread/event_queue.hxx:196-206 | in every reachable state no flushing thread sleeps or is about to |
| EventQueueReturns.PoppedIsRun | include/cpph/thread/event_queue.hxx:103-118 | a message that a consumer took from the queue is in its hands or has been run; it is never released unrun |
| EventQueueReturns.PostThenExec | include/cpph/thread/event_queue.hxx:103-171 | posting a message and then executing one, by any of the calls, is a run: the message is run and released |
| EventQueueReturns.ThreadMoves | include/cpph/thread/event_wait.hxx:64-78 | a thread that does not sleep can take a step unless another holds the mutex it is about to take |
| EventQueueReturns.IdleBegins | include/cpph/thread/event_queue.hxx:229-278 | an idle thread can begin any call |
| EventQueueWakeups.NoLostWakeup | include/cpph/thread/event_wait.hxx:64-78 | with messages waiting and no thread in a critical region, nobody sleeps un-notified or the notified threads are at least as many as the messages |
| EventQueueWakeups.StepWakes | include/cpph/thread/event_queue.hxx:164-252 | post, exec, stop, restart and clear keep that balance, the wake-up in progress counted |
| EventQueueWakeups.HolderMoves | include/cpph/thread/event_wait.hxx:64-78 | the holder of the mutex can always take its next step |
| EventQueueWakeups.SomeoneMoves | include/cpph/thread/event_wait.hxx:172-179 | while messages wait and someone sleeps, the mutex holder or a notified thread can move |
| Matrix.SquareMatrix.Inv | include/cpph/math/matrix.hxx:623-663 | over exact reals and any size: the result is the inverse from both sides, and nothing is returned exactly if some nonzero vector is sent to zero |
| Matrix.SquareMatrix.Pivot | include/cpph/math/matrix.hxx:630-647 | a nonzero entry is brought to the diagonal and scaled to one on both matrices, or the matrix is singular |
| Matrix.SquareMatrix.EliminateColumn | include/cpph/math/matrix.hxx:649-657 | the column is cleared and the left matrix stays the right one times the input |
| Matrix.SquareMatrix.SwapRow | include/cpph/math/matrix.hxx:593-600 | two rows exchanged, the others unchanged |
| Matrix.SquareMatrix.ScaleAdd | include/cpph/math/matrix.hxx:609-614 | a multiple of a vector added to one row, the others unchanged |
| LinearAlgebra.ReducedAll | include/cpph/math/matrix.hxx:629-662 | when all columns are reduced, the companion matrix is a left and a right inverse |
| LinearAlgebra.NoPivot | include/cpph/math/matrix.hxx:634-635 | a column without pivot gives a nonzero vector the input sends to zero |
| LinearAlgebra.InverseNotSingular | include/cpph/math/matrix.hxx:662 | a matrix with a left inverse sends no nonzero vector to zero |
| LinearAlgebra.EliminatedAdd | include/cpph/math/matrix.hxx:649-657 | adding a multiple of one row to another on both matrices keeps their relation and their kernels |
| PlaneClip.Cull | include/cpph/math/plane.hxx:57-200 | for every above/below pattern, open or closed: the outputs are those of the edge-by-edge clip from the first vertex below on, each expected output exactly once and no other, cut by the fences into consecutive pieces of at least two that are as long as can be |
| PlaneClip.EachOnce | include/cpph/math/plane.hxx:57-200 | each vertex above and each crossed edge, the closing edge only when closed, is written once wherever the clip starts |
| PlaneClip.Lower | include/cpph/math/plane.hxx:166-198 | one round below the plane: the next segment begins with the cut, or all is written |
| PlaneClip.Upper | include/cpph/math/plane.hxx:118-165 | one round above the plane: the segment is closed by its cut and fenced, or all is written |
| PlaneClip.UpperEnd | include/cpph/math/plane.hxx:126-155 | the deferred first vertices, or the closing cut, join the last segment of a polygon; an open line gets a segment of its own |
| PlaneClip.FencedGrows | include/cpph/math/plane.hxx:74-79 | a further fence around a piece keeps the fences consecutive and covering |
| PlaneClip.DoesNotExpand | include/cpph/math/plane.hxx:53-56 | there are no more outputs than vertices if and only if no more edges cross the plane than vertices lie below it |
| PlaneClip.TriangleExpands | include/cpph/math/plane.hxx:53-56 | a triangle with one corner below, begun at that corner as the loop does, has four outputs, against the comment |
| CircularQueue.Queue.EnqueueN | include/cpph/container/circular_queue.hxx:338-371 | the contents become the last capacity() elements of old contents and input, across wrap-around and for over-long input |
| CircularQueue.Queue.DequeueN | include/cpph/container/circular_queue.hxx:250-271 | the n oldest elements in order; the others stay |
| CircularQueue.Queue.Rotate | include/cpph/container/circular_queue.hxx:201-225 | one element in, the oldest dropped if full |
| CircularQueue.Queue.Push | include/cpph/container/circular_queue.hxx:189-199 | appends behind the newest |
| CircularQueue.Queue.Pop | include/cpph/container/circular_queue.hxx:227-248 | removes and returns the oldest |
| CircularQueue.Queue.ReserveShrink | include/cpph/container/circular_queue.hxx:162-187 | the oldest elements that fit survive; shrinking to 0 leaves a valid queue exactly if head was 0 |
| CircularQueue.Queue.IsFull | include/cpph/container/circular_queue.hxx:301 | head before tail means the contents have the capacity |
| CircularQueue.Queue.Size | include/cpph/container/circular_queue.hxx:273-276 | the number of elements, wrapped or not |
| CircularQueue.OneByOne | include/cpph/container/circular_queue.hxx:338-371 | enqueuing one by one leaves the last n of old and new elements |
| CircularQueue.LiveCopied | include/cpph/container/circular_queue.hxx:360-370 | a copy in one or two stretches appends to what is live |
| CircularQueue.IteratorsCount | include/cpph/container/circular_queue.hxx:394-404 | differences of iterators count elements in both layouts, and a step back undoes a step ahead |
| MsgPackWriter.Writer.WriteTree | include/cpph/refl/archive/msgpack-writer.hxx:85-270 | the push, write and pop calls for a value append exactly its bytes and leave the scopes with one element more |
| MsgPackWriter.Writer.ContainerPush | include/cpph/refl/archive/msgpack-writer.hxx:221-259 | succeeds exactly if the count is below the limit and a value may come here; appends the head and opens the scope |
| MsgPackWriter.Writer.WriteNext | include/cpph/refl/archive/detail/context_helper.hxx:125-150 | throws exactly if the scope is full or a key has not been announced |
| MsgPackWriter.WrittenFills | include/cpph/refl/archive/detail/context_helper.hxx:125-150 | a write fills one more place of the innermost scope, uses up the announced key and touches nothing else |
| MsgPackWriter.AcceptsWhen | include/cpph/refl/archive/detail/context_helper.hxx:125-150 | outside a map a write needs a free place; in a map an announced key, or a free place behind a key |
| MsgPackWriter.Writer.WriteKeyNext | include/cpph/refl/archive/detail/context_helper.hxx:102-115 | succeeds exactly in a map that is not full and awaits a key |
| MsgPackWriter.Writer.PutBin | include/cpph/refl/archive/msgpack-writer.hxx:41-50 | the bytes of a number in big-endian order |
| MsgPackWriter.Writer.PutSize | include/cpph/refl/archive/msgpack-writer.hxx:58-71 | a size in as few bytes as hold it |
| MsgPackTrees.BeginHead | include/cpph/refl/archive/msgpack-reader.hxx:237-246 | what begin_object and begin_array make of a head: one element of the enclosing scope is taken and a scope with the count is opened behind the head, or the call throws, and exactly when |
| MsgPackTrees.RoundTrip | include/cpph/refl/archive/msgpack-reader.hxx:85-314 | what the writer writes is read back whole with no scope left open, if and only if nil keys occur only last and before a scalar and no map has 2^31 entries or more; where only nil keys stand against it, the reader throws |
| MsgPackTrees.ReadTree | include/cpph/refl/archive/msgpack-reader.hxx:85-314 | the same for a value anywhere in a stream and in any scope that awaits it: same value, the byte after it, the scopes restored |
| MsgPackTrees.ElemsKeep | include/cpph/refl/archive/msgpack-reader.hxx:229-235 | whatever the input, reading a scope to its end gives exactly as many elements as it counts, and uses up that scope and no other |
| MsgPackTrees.ReadableMeans | include/cpph/refl/archive/msgpack-reader.hxx:304-314 | the condition on nil keys in terms of the entries |
| MsgPackTrees.SkipTree | include/cpph/refl/archive/msgpack-reader.hxx:370-459 | in any scope with elements left, for any growth of the scope vector: a value is skipped to the byte after it if and only if its maps are counted right and have no container for a value, it may stand there, and its nesting fits the vector once its first scope is open; which failing condition throws, dangles or stops short |
| MsgPackTrees.ReserveSuffices | include/cpph/refl/archive/msgpack-reader.hxx:65-69 | a skippable value is skipped whatever the growth if and only if it opens no scope inside another or the capacity is at least the open scopes and its nesting; what a caller can reserve |
| MsgPackTrees.NestedSkip | include/cpph/refl/archive/msgpack-reader.hxx:370-380 | the bytes 91 91 01 on a reader that reserves nothing: the reference dangles if and only if the first growth gives fewer than two places |
| MsgPackTrees.SkipElems | include/cpph/refl/archive/msgpack-reader.hxx:370-380 | what is left of an array is skipped if and only if every element is skippable and the nesting fits the present capacity |
| MsgPackTrees.SkipEntries | include/cpph/refl/archive/msgpack-reader.hxx:370-380 | what is left of a map, between entries, after a key was announced or after it was read, is skipped if and only if only scalars are left, but for a value whose key was read: that may be a container if it is skippable and its nesting fits |
| MsgPackTrees.BreakForest | include/cpph/refl/archive/msgpack-reader.hxx:370-380 | closing a scope that a miscounted map fills leaves more values unread than it should |
| MsgPackTrees.EndSkipsRest | include/cpph/refl/archive/msgpack-reader.hxx:298-302 | ending a partly read array skips the others under the conditions of SkipElems, and stops short if one is miscounted |
| MsgPackTrees.EndSkipsEntries | include/cpph/refl/archive/msgpack-reader.hxx:248-252 | ending a partly read map, also right after a key, skips the rest under the conditions of SkipEntries, and stops short if a map in it is miscounted |
| MsgPackTrees.EndRestores | include/cpph/refl/archive/msgpack-reader.hxx:461-473 | whatever the input, ending a scope by its key, if it ends well, leaves exactly the scopes around it |
| MsgPackTrees.CallsKeepKeys | include/cpph/refl/archive/msgpack-reader.hxx:475-485 | every call keeps the keys of the open scopes apart: each holds its depth |
| MsgPackTrees.OpenedKeys | include/cpph/refl/archive/msgpack-reader.hxx:475-485 | a new key holds the depth and the number after the last one given out |
| MsgPackTrees.KeysDiffer | include/cpph/refl/archive/msgpack-reader.hxx:475-485 | no two open scopes have the same key |
| MsgPackCalls.ScalarsWhen | include/cpph/refl/archive/msgpack-reader.hxx:190-264 | numbers, strings and binaries are taken exactly if the head fits and the innermost scope awaits an element; one element is taken, and the announcement of a key with it |
| MsgPackCalls.OpensWhen | include/cpph/refl/archive/msgpack-reader.hxx:237-296 | arrays and maps besides never in the place of a key |
| MsgPackCalls.KeyWhen | include/cpph/refl/archive/msgpack-reader.hxx:304-314 | a key is announced exactly in a map, between two entries, once |
| MsgPackCalls.StringIs | include/cpph/refl/archive/msgpack-reader.hxx:216-227 | each character of a string read: from the stream, or where that is short what the caller had, or zero |
| MsgPackCalls.WindowIs | include/cpph/refl/archive/msgpack-reader.hxx:75-83 | each byte of a number, all ones where the stream is short |
| MsgPackCalls.SomeWhen | include/cpph/refl/archive/msgpack-reader.hxx:266-277 | a piece of a binary has as many bytes as are asked for and left, and is taken from the stream and the scope |
| MsgPackCalls.EndBinaryWhen | include/cpph/refl/archive/msgpack-reader.hxx:279-285 | ending a binary leads behind all of it |
| MsgPackCalls.BreaksWhen | include/cpph/refl/archive/msgpack-reader.hxx:461-473 | a scope can be ended exactly if the innermost one with the key is of the right kind |
| MsgPackTrees.BreakCloses | include/cpph/refl/archive/msgpack-reader.hxx:370-380 | whatever the input, closing a scope that ends well removes that scope alone, and the vector has not moved |
| MsgPackTrees.SkipKeeps | include/cpph/refl/archive/msgpack-reader.hxx:382-459 | whatever the input, a skip that ends well takes one element of the innermost scope and changes no other |
| MsgPackTrees.OpenedCounts | include/cpph/refl/archive/msgpack-reader.hxx:475-485 | a map opens with the right number of elements if and only if twice its entries fit 32 bits |
| MsgPackTrees.CodesMistaken | include/cpph/refl/archive/msgpack-reader.hxx:97-117 | for every byte: which are accepted as the head of a map, an array, a binary, a string and a number; exactly one foreign code each for the first three |
| MsgPackTrees.IntRead | include/cpph/refl/archive/msgpack-reader.hxx:144-178 | a signed number of any size is read back from its shortest form |
| MsgPackWire.WireNumber | include/cpph/refl/archive/msgpack-reader.hxx:144-178 | every number format of the specification, whoever wrote it: each integer code of each width and sign, both floats, booleans |
| MsgPackWire.WireRead | include/cpph/refl/archive/msgpack-reader.hxx:144-227 | every format but the extensions is read as the value it stands for, wherever that is awaited; extensions are refused |
| MsgPackWire.WireSkip | include/cpph/refl/archive/msgpack-reader.hxx:382-459 | every format, extensions included, is skipped to its end, but the extension of 2^32 - 1 bytes |
| MsgPackWire.WireOpens | include/cpph/refl/archive/msgpack-reader.hxx:237-296 | heads of arrays and maps of every width are taken for what they are |
| MsgPackWire.WritesWire | include/cpph/refl/archive/msgpack-writer.hxx:41-219 | what the writer writes for a scalar is a format of the specification that stands for it |
| MsgPackWire.WritesNumbers | include/cpph/refl/archive/msgpack-writer.hxx:85-126 | every signed or unsigned number of 64 bits can be written; an unsigned one below 128 is written like the signed one and so comes back signed |
| MsgPackWire.WritesHead | include/cpph/refl/archive/msgpack-writer.hxx:221-259 | the same for the heads of arrays and maps |
| MsgPackTrees.CountRead | include/cpph/refl/archive/msgpack-reader.hxx:97-117 | array and map counts are read back |
| MsgPackFormat.SignedBack | include/cpph/refl/archive/msgpack-writer.hxx:85-109 | a number in range is read back from its two's complement bytes |
| MsgPackStream.Reader.SkipOne | include/cpph/refl/archive/msgpack-reader.hxx:382-459 | the step-by-step reader does what the skipping function says, outcome and state, and terminates on the input left |
| MsgPackStream.Reader.BreakTop | include/cpph/refl/archive/msgpack-reader.hxx:370-380 | the loop, which takes its reference to the scope once, closes the scope, throws or dangles as the function says |
| MsgPackStream.Reader.EndContainer | include/cpph/refl/archive/msgpack-reader.hxx:298-302 | finds the scope from the top and closes it and those inside, with the outcome of the function |
| MsgPackStream.Reader.NewScope | include/cpph/refl/archive/msgpack-reader.hxx:475-485 | a scope is opened with a fresh key; the capacity grows exactly if the vector is full |
| MsgPackStream.Reader.ReserveDepth | include/cpph/refl/archive/msgpack-reader.hxx:69 | the capacity is at least the depth asked for and never shrinks |
| MsgPackStream.Reader.ReadStr | include/cpph/refl/archive/msgpack-reader.hxx:216-227 | the string read; what the stream is short of stays as the caller had it |
| MsgPackStream.Reader.GetBig | include/cpph/refl/archive/msgpack-reader.hxx:75-83 | bytes in big-endian order, all ones past the end of the stream |
| MsgPackStream.Reader.Discard | include/cpph/refl/archive/msgpack-reader.hxx:557-566 | skips exactly n bytes in chunks, or fails if the stream is shorter |

## Left out

- Inflate.ReadBlocks: blocks with dynamic Huffman codes are not decoded, because the compressor writes none; they count as undecodable.
- ZlibCompress.Compress: lengths are unbounded where the source uses int; failed allocation is not modelled; the hash is any function of the three bytes the source hashes.
- ZlibCompress.Choose: a match location is an index into the data, not a pointer.
- Adler32.Checksum: data is a sequence; a length above the range of int is not excluded.
- PngFilter.EncodePngLine: a width of zero is excluded, because the source then writes the first pixel past its line buffer; the pass over the first pixel and the one over the others are one loop.
- PngImage.ChooseFilter: the estimate is unbounded where the source sums in int.
- PngImage.ImageData: the signature, the chunks and their CRC around the image data are not part of this model.
- HdrRle.WriteScanline: the conversion of floats to mantissas and exponent is not part of this model; pixels are given in that form.
- TgaRle.EncodeImage: the file header and the uncompressed format are not part of this model.
- JPEG and BMP writing, the file and callback plumbing of the image writers.
- Jsmn.Run: the counting mode without a token array is not part of this model; the token array is the allocated prefix and a capacity; positions are unbounded.
- JsonReader.Reader: a token keeps no type from an earlier use of its slot; conversion of token text to values, base64 and goto_key are not part of this model.
- JsonCursor.StepIn: the public calls run the preparation first, which clears the scopes and reads another root when the cursor is past its tokens with scopes still open; the moves alone throw OutOfRange there.
- JsonCursor.KeyNext: without an open scope the source looks at the top of an empty vector; the model throws.
- JsonCursor.StepOutAnywhere: for the same reason, moves past the end of the tokens throw OutOfRange and end the run.
- JsonReader.Reader.Step: what a call that throws leaves behind is not stated.
- JsonTrees.Reads: a leaf is read as the characters of its token; unescaping and conversion to numbers are not part of this model. Each move of this caller stands on a token, so the preparation does nothing there.
- JsmnValues.ValidJson: escapes are those the tokenizer accepts; a primitive is any word of printable characters that starts like one.
- JsmnTree.ClimbIsScan: the other build is compared on the token it closes, not run.
- RingAllocator.Ring: the instance with a fallback allocator and the cleanup of moved-from allocators are not part of this model; a word of payload is any header-like value; the caller of Deallocate names its block.
- EventQueue.Execute: locks and atomic accesses are sequentially consistent steps; time-outs are free choices; a message that calls the queue while it runs is another thread; the ring's own state is the set of nodes it has handed out, and whether an allocation comes from the ring or the heap is a free choice.
- EventQueueWakeups.SomeoneMoves: progress is one enabled step, not fairness over infinite runs.
- Matrix.SquareMatrix.Inv: exact reals instead of floats, square matrices only, a two-dimensional array instead of a flat one.
- PlaneClip.Cull: the signed distance of a vertex is reduced to above or not; the coordinates of a cut are the edge it cuts; the assertion on the cut's parameter is not part of this model.
- CircularQueue.Queue: construction and destruction of elements, copying and moving of whole queues and reverse iterators are not part of this model; the branch of DequeueN for elements that are not trivially copyable is the same as popping n times.
- MsgPackReader.ReadAny: numbers are read before their conversion to the caller's type; after an exception or a dangling reference the reader's state is not modelled; scope identifiers wrap but are compared with the innermost scope first.
- MsgPackTrees.SkipTree: where several conditions fail at once, which failure comes first is not stated, only that the skip does not end well; extension types are skipped by the reader's functions but never written.
- MsgPackReader.Enlarged: how a full vector grows is an arbitrary function of its capacity, and an allocation never fails.
- MsgPackWriter.Writer.WriteTree: values are trees, so a scope is never popped early; what a call that throws leaves in the scopes is not stated, only that it writes nothing.
- MsgPackFormat.Value: a float is its bits.
- dispatch, run_until and the temporary payloads of the event queue, wait_pp and notify_all_at_thread_exit.
- String utilities, flat_map, pools, ndarray, reflection, localization, spinlocks, timers and the network code: they would add easier members only.
