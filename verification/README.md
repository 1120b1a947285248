# Verified models of the decoders, the action batch collector and the weight exporter

This project models four parts of the repository and proves what they are for. Everything is stated for all
inputs; where the code rejects or fails, the exact condition is part of the statement.

1. **DEFLATE and zlib** (`3rdParty/stb/stb_image.h`). The decoder is a class with the bit buffer, the tables
   and the output buffer of the original. Two independent references stand beside it: RFC 1951 as a bit-by-bit
   decoder (`Deflate`), and RFC 1951 as the format of a list of blocks (`DeflateFormat`). `Lookahead` adds to
   the decoder which bits the buffer holds; the class does exactly what it says, and it agrees with the
   decoder wherever the input does not run out. `PastEnd` bounds how far past the end an accepted stream can
   reach. Decoder and format are proved equivalent in both directions (`DeflateFormat`, `DeflateInverse`,
   `ZeroExtension`); `Zlib` puts all of it together. `DeflateTables` says what the constants of the format are
   for. `Canonical`, `HuffmanTable` and `SwapNetworks` hold the theory of canonical Huffman codes and the
   tables that speed up decoding.
2. **PNG and GIF images** (same file). `PngFilter`, `PngSamples`, `PngRow` and `PngImage` go from filtered
   scanlines to samples; `Adam7` and `PngInterlace` put the passes together, and `PngPicture` follows a
   picture through all of it; `PngPixels` says what the samples are in terms of the bits of the scanlines.
   `Lzw` is LZW over a dictionary of strings, `GifRaster` and `GifOrder` say where pixels go, and `Gif` is the
   decoder over linked prefixes. `GifFormat` is GIF's code as a format, without a dictionary, and equivalent
   to `Lzw` in both directions; `GifPicture` goes from written codes to pixels.
3. **The action KV batch collector** (`cpp/action/actionKvBatch.cpp`). The collector's state is proved to be a
   function of the history of what its captures saw, and that history a function of the arguments of the first
   capture that shows each request finished, over whole runs.
4. **Weight externalisation and trajectory tokens** (`tensorrt_edgellm/external_weights.py`,
   `cpp/action/actionUtils.cpp`). `ExternalWeights` proves that moving initializers into files keeps the
   meaning of a graph, `LmHead` and `LogitsHead` that the search for the LM head's weight is sound and
   complete, `WeightFile` and `WeightCodec` that the bytes of a file read back as the tensors, and
   `Trajectory` that the quantiser is optimal and its error bounded.

`Shifts`, `BitStream`, `Collecting`, `OnnxGraph` and `Wrappers` hold shared definitions. Code that updates objects
or buffers is modelled by classes and methods with loops; what they compute is stated through functions, about
which the lemmas speak.

The input is read as bits in the order of section 3.1.1 of RFC 1951; past its end the bits are all zero, which is
what the decoder sees. `Overruns` says of a decoding that it fails or ends past the input.

`dafny verify dfyconfig.toml` checks the project.

## Model

| member | source | states |
|---|---|---|
| SwapNetworks.BitReverseCorrect | 3rdParty/stb/stb_image.h:4125-4140 | The four mask-and-shift exchanges, shifted down, reverse the low `bits` bits of every value that fits them, for all widths up to 16. |
| SwapNetworks.NetworkAt | 3rdParty/stb/stb_image.h:4125-4132 | Bit i of the swap network is bit 15 - i of its input, for every 16-bit word. |
| HuffmanTable.ZHuffman.Build | 3rdParty/stb/stb_image.h:4143-4188 | Accepts a list of up to 288 lengths of 0 to 15 if and only if its Kraft sum is at most 1; an accepted list leaves first codes, pre-shifted ceilings, the sorted symbol table and the fast table all as canonical coding determines them; every index is in range. |
| HuffmanTable.ZHuffman.AssignRanges | 3rdParty/stb/stb_image.h:4148-4169 | The two rejecting checks fail exactly when the Kraft sum exceeds 1; otherwise every length has its first code, first symbol and ceiling. |
| HuffmanTable.ZHuffman.CountSizes | 3rdParty/stb/stb_image.h:4149-4153 | The histogram of lengths, with length 0 not counted. |
| HuffmanTable.ZHuffman.CheckSizes | 3rdParty/stb/stb_image.h:4154-4156 | The early check passes exactly when no length has more codes than it can have, and it never rejects a list the Kraft inequality admits. |
| HuffmanTable.ZHuffman.LayOut | 3rdParty/stb/stb_image.h:4157-4169 | The running code and symbol counters give each length its range; the check fails exactly on a range that overflows. |
| HuffmanTable.ZHuffman.InsertSymbols | 3rdParty/stb/stb_image.h:4170-4186 | Every symbol is put at its rank among the codes and into all its fast slots, none of which another symbol takes. |
| HuffmanTable.ZHuffman.InsertFast | 3rdParty/stb/stb_image.h:4177-4183 | The strided loop writes exactly the slots whose low bits are the reversed code. |
| HuffmanTable.FastHitUnique | 3rdParty/stb/stb_image.h:4177-4183 | No two symbols of an accepted list have a fast slot in common. |
| Canonical.EndIsKraft | 3rdParty/stb/stb_image.h:4157-4168 | The code counter after length s, scaled, is the Kraft sum of the codes of up to s bits. |
| Canonical.OverflowPersists | 3rdParty/stb/stb_image.h:4163-4164 | Once the code counter overflows its length it overflows all longer ones, so checking only lengths in use misses nothing. |
| Canonical.CodeFits | 3rdParty/stb/stb_image.h:4159-4166 | Under the Kraft inequality every code fits its own length. |
| Canonical.PrefixFree | 3rdParty/stb/stb_image.h:4143-4188 | No assigned code is a prefix of another, for every length list with Kraft sum at most 1. |
| Canonical.IntervalFilled | 3rdParty/stb/stb_image.h:4165-4169 | A left-aligned 16-bit window starts with a code of at most s bits if and only if it is below maxcode[s]. |
| Canonical.ReadsUnique | 3rdParty/stb/stb_image.h:4243-4260 | At any place of any bit stream at most one code comes next. |
| Canonical.ReadSymbolCorrect | 3rdParty/stb/stb_image.h:4243-4289 | Bit-by-bit canonical decoding (section 3.2.2 of RFC 1951) returns the one symbol whose code comes next and fails exactly when there is none. |
| Canonical.PlaceInjective | 3rdParty/stb/stb_image.h:4173-4176 | Symbols have different ranks, so no entry of `size` and `value` is written twice. |
| Canonical.PlaceBound | 3rdParty/stb/stb_image.h:4173-4176 | Every rank is less than the number of symbols. |
| Inflate.FastFound | 3rdParty/stb/stb_image.h:4275-4287 | A non-empty fast entry names the symbol and the length that canonical decoding gives, for every bit stream. |
| Inflate.FastMissed | 3rdParty/stb/stb_image.h:4284-4288 | An empty fast entry means that no code of up to nine bits comes next. |
| Inflate.SlowFound | 3rdParty/stb/stb_image.h:4243-4260 | The first ceiling above the window is that of the length of the next code, and the index computed from it is the rank of its symbol, so the two defensive checks cannot fire. |
| Inflate.SlowMissed | 3rdParty/stb/stb_image.h:4252-4253 | Running past length 15 means that no code comes next. |
| Inflate.ZBuf.SlowPath | 3rdParty/stb/stb_image.h:4243-4260 | For every accepted table and every buffer of at least 16 bits for which the fast table has no entry: the symbol and length of canonical decoding, or -1 exactly when no code matches. |
| Inflate.ZBuf.FillBits | 3rdParty/stb/stb_image.h:4221-4231 | Keeps the buffer equal to the next bits of the stream, extended by zeros, and fills it to more than 24 bits; the bail-out for stray high bits is never taken. |
| Inflate.ZBuf.Zreceive | 3rdParty/stb/stb_image.h:4233-4241 | Returns the next n bits, least significant first, and moves on by n. |
| Inflate.ZBuf.Ensure16 | 3rdParty/stb/stb_image.h:4262-4282 | Succeeds exactly when 16 bits are there, can be taken from the input, or are made up by the one padding that is allowed; the bits at hand afterwards are exact. |
| Inflate.ZBuf.Decode | 3rdParty/stb/stb_image.h:4262-4289 | Returns the symbol canonical decoding reads at this place, and -1 exactly when it reads none there or the padding is used up. |
| Zlib.DecodeSymbols | 3rdParty/stb/stb_image.h:4221-4289 | n calls in a row, over all refills, give the n symbols canonical decoding reads, whenever they lie inside the input. |
| Zlib.DecodeMessage | 3rdParty/stb/stb_image.h:4221-4289 | Any sequence of symbols whose codes are packed least significant bit first into bytes, with any bytes after, is decoded to itself. |
| DeflateFormat.MessageRoundTrip | 3rdParty/stb/stb_image.h:4243-4289 | The same round trip for the bit-by-bit decoder. |
| BitStream.PackUnpack | 3rdParty/stb/stb_image.h:4216-4231 | Bits packed into bytes are the first bits of those bytes. |
| Deflate.CopyPeriodic | 3rdParty/stb/stb_image.h:4367-4373 | An overlapping match is the periodic extension of the last `dist` bytes. |
| Inflate.ZBuf.Expand | 3rdParty/stb/stb_image.h:4292-4312 | Succeeds exactly when the doublings that fit 32 bits reach the space needed; every byte already written is kept. |
| Inflate.DoublingReaches | 3rdParty/stb/stb_image.h:4301-4304 | Over unbounded integers, doubling a limit reaches a need if and only if the limit is positive or already large enough; doubling zero stays at zero. |
| Inflate.CapacityIs | 3rdParty/stb/stb_image.h:4298-4304 | A buffer grows to its last doubling below 2^32. |
| Inflate.ZBuf.CopyMatch | 3rdParty/stb/stb_image.h:4367-4373 | Both the run loop for distance 1 and the byte loop append exactly the match. |
| Inflate.ZBuf.PutLiteral | 3rdParty/stb/stb_image.h:4333-4339 | Appends one byte, growing the buffer if it is full; fails only when the output cannot grow. |
| Inflate.ZBuf.PutMatch | 3rdParty/stb/stb_image.h:4362-4373 | Appends the match; fails exactly when it reaches back too far or the output cannot grow enough. |
| Inflate.LengthTables | 3rdParty/stb/stb_image.h:4314-4320 | The length tables are the ones section 3.2.5 of RFC 1951 determines: each base is the one before plus the span of its extra bits, with 258 alone at the end. |
| Inflate.DistTables | 3rdParty/stb/stb_image.h:4322-4326 | The distance tables likewise. |
| DeflateTables.LengthsCovered | 3rdParty/stb/stb_image.h:4314-4320 | Every length from 3 to 258 belongs to exactly one code below 285 with exactly one value of its extra bits. |
| DeflateTables.LongestLength | 3rdParty/stb/stb_image.h:4314-4320 | The code with no extra bits for 258 repeats the largest length of the code before it. |
| DeflateTables.LengthExtraSteps | 3rdParty/stb/stb_image.h:4318-4320 | After the first eight codes the extra bits grow by one every four codes. |
| DeflateTables.DistancesCovered | 3rdParty/stb/stb_image.h:4322-4326 | Every distance from 1 to 32768 belongs to exactly one code with exactly one value of its extra bits. |
| DeflateTables.DistExtraSteps | 3rdParty/stb/stb_image.h:4325-4326 | After the first four codes the extra bits grow by one every two codes. |
| Inflate.ZBuf.ReadRun | 3rdParty/stb/stb_image.h:4354-4361 | The length and distance of a match, or failure, as the format says. |
| Inflate.ZBuf.ParseSymbol | 3rdParty/stb/stb_image.h:4332-4374 | One turn of the loop is one step of the block decoding of section 3.2.3 of RFC 1951. |
| Inflate.ZBuf.ParseHuffmanBlock | 3rdParty/stb/stb_image.h:4328-4376 | The block is decoded to the output the specification gives it, and is refused exactly when the specification fails, the output runs over capacity, or a code or the end of the block needs more padding than there is. |
| Inflate.ZBuf.ReadCodeLengthSizes | 3rdParty/stb/stb_image.h:4391-4395 | The 3-bit lengths land in the order of section 3.2.7 of RFC 1951. |
| DeflateTables.ZigzagOrder | 3rdParty/stb/stb_image.h:4380-4395 | The lengths come as 16, 17, 18, 0, and then outward from 8. |
| Inflate.ZBuf.ReadRepeat | 3rdParty/stb/stb_image.h:4404-4416 | Repeat instructions 16, 17 and 18 as the format defines them; a repeat with nothing before it fails. |
| DeflateTables.ZeroRuns | 3rdParty/stb/stb_image.h:4408-4416 | Runs of 3 to 138 zeros are written by exactly one of the instructions 17 and 18. |
| DeflateTables.SameRuns | 3rdParty/stb/stb_image.h:4404-4407 | The length before is repeated 3 to 6 times, by exactly one instruction 16. |
| Inflate.ZBuf.ReadLengthCode | 3rdParty/stb/stb_image.h:4400-4420 | One instruction of the run-length coded list; a run that overshoots the list fails. |
| Inflate.ZBuf.ReadLengthCodes | 3rdParty/stb/stb_image.h:4398-4422 | The whole list of code lengths. |
| Inflate.ZBuf.ComputeHuffmanCodes | 3rdParty/stb/stb_image.h:4378-4426 | Both tables are built for exactly the lengths the block header describes; it fails when the header is malformed or one of the three lists is over-subscribed. |
| Inflate.FixedAccepted | 3rdParty/stb/stb_image.h:4471-4496 | The lengths of the fixed codes satisfy the Kraft inequality, so building their tables never fails. |
| DeflateTables.FixedLitCodes | 3rdParty/stb/stb_image.h:4471-4496 | Symbols 0 to 287 have the lengths and the codes that the table of section 3.2.6 of RFC 1951 lists. |
| DeflateTables.FixedDistCodes | 3rdParty/stb/stb_image.h:4471-4496 | Fixed distance codes are the numbers themselves, in five bits. |
| Inflate.ZBuf.DrainBuffer | 3rdParty/stb/stb_image.h:4432-4441 | At most 3 of the 4 header bytes come from the bit buffer, which is empty afterwards and was never negative. |
| Inflate.ZBuf.ReadStoredHeader | 3rdParty/stb/stb_image.h:4432-4447 | Length and complement are read from the next byte boundary; it fails exactly when they do not match. |
| Inflate.ZBuf.ParseUncompressedBlock | 3rdParty/stb/stb_image.h:4428-4455 | Agrees with section 3.2.4 of RFC 1951 on every input, in success and in failure, past the end of the input too. |
| Inflate.ZBuf.ParseZlibHeader | 3rdParty/stb/stb_image.h:4457-4469 | Accepts exactly the data that start with a written header, compression method 8, no preset dictionary and check bits that make both bytes a multiple of 31, and go on after it. |
| DeflateFormat.HeaderByBits | 3rdParty/stb/stb_image.h:4459-4466 | Two bytes pass the tests on their bits if and only if they are the header of some window size, level and check bits that section 2.2 of RFC 1950 lays out. |
| Inflate.ZBuf.ParseBlock | 3rdParty/stb/stb_image.h:4511-4524 | Each block type is decoded as specified; type 3 fails. |
| Inflate.ZBuf.ParseZlib | 3rdParty/stb/stb_image.h:4500-4527 | Succeeds exactly when `BlocksAhead` has something, with that output: the buffer, the padding and its end are all as that function says, past the end of the input too. |
| Lookahead.ReadyOk | 3rdParty/stb/stb_image.h:4262-4282 | Making 16 bits ready is refused only past the end of the input, and otherwise leaves 16 bits. |
| Lookahead.SymbolAgrees | 3rdParty/stb/stb_image.h:4262-4289 | With the bits at hand, a symbol is the one canonical decoding reads; none is had only where there is none or its code ends past the input. |
| Lookahead.SymbolsAgree | 3rdParty/stb/stb_image.h:4328-4376 | The same for a compressed block, with its end test on the padding. |
| Lookahead.LengthsAgree | 3rdParty/stb/stb_image.h:4398-4422 | The same for the run-length coded list of lengths. |
| Lookahead.BlocksAgree | 3rdParty/stb/stb_image.h:4500-4527 | What the decoder with its buffer accepts, the bit-by-bit decoder accepts with the same output and the same end; what that accepts inside the input, the one with the buffer accepts. |
| PastEnd.EndsAtOnce | 3rdParty/stb/stb_image.h:4328-4376 | A compressed block that goes on past the end of the input ends with the first symbol read there. |
| PastEnd.BlocksEnd | 3rdParty/stb/stb_image.h:4500-4527 | Reading on with zeros, no stream ends more than 4568 bits past the input. |
| PastEnd.LengthsRoom | 3rdParty/stb/stb_image.h:4398-4422 | Past the end, the code lengths of a dynamic header never reach further than the buffer did, padding included. |
| PastEnd.SymbolsRoom | 3rdParty/stb/stb_image.h:4328-4376 | An accepted compressed block ends at most 62 bits past the input or inside what the buffer held before the padding. |
| PastEnd.AcceptedEnds | 3rdParty/stb/stb_image.h:4500-4527 | No stream is accepted that ends more than 105 bits past the input. |
| PastEnd.OverrunAccepted | 3rdParty/stb/stb_image.h:4328-4345 | The byte 0x03, a last fixed block that ends two bits past the input, is accepted. |
| PastEnd.OverrunRefused | 3rdParty/stb/stb_image.h:4328-4345 | The bytes 99, 96, 96, 0, a last fixed block of three literals that also ends two bits past the input, are refused, although they decode when zeros follow. |
| DeflateFormat.SymbolRead | 3rdParty/stb/stb_image.h:4262-4289 | The code of a symbol reads as that symbol. |
| DeflateFormat.TokensRead | 3rdParty/stb/stb_image.h:4328-4376 | The coded form of any list of literals and matches decodes to what the list denotes. |
| DeflateFormat.InstrsRead | 3rdParty/stb/stb_image.h:4398-4422 | The coded form of any run-length instructions decodes to the lengths they denote. |
| DeflateFormat.HeaderRead | 3rdParty/stb/stb_image.h:4386-4424 | The header of a dynamic block decodes to the tables it was written for. |
| DeflateFormat.DynamicRead | 3rdParty/stb/stb_image.h:4520-4523 | A dynamic block decodes to what it denotes. |
| DeflateFormat.StoredRead | 3rdParty/stb/stb_image.h:4428-4455 | A stored block, from any bit position, decodes to its bytes. |
| DeflateFormat.BlocksRead | 3rdParty/stb/stb_image.h:4508-4526 | Any list of stored, fixed and dynamic blocks laid out as sections 3.2.3 to 3.2.7 of RFC 1951 say decodes to the bytes the blocks denote. |
| DeflateInverse.SymbolFound | 3rdParty/stb/stb_image.h:4262-4289 | What reads as a symbol is the code of that symbol. |
| DeflateInverse.TokensFound | 3rdParty/stb/stb_image.h:4328-4376 | Whatever decodes as a block body is the coded form of some list of literals and matches. |
| DeflateInverse.HeaderFound | 3rdParty/stb/stb_image.h:4386-4424 | Whatever decodes as a dynamic header is the coded form of one. |
| DeflateInverse.BlocksFound | 3rdParty/stb/stb_image.h:4508-4526 | Whatever decodes as a stream is a well-formed list of blocks that denotes the decoded bytes. |
| DeflateInverse.MeaningUnique | 3rdParty/stb/stb_image.h:4500-4527 | Two ways of reading the same bytes as well-formed blocks denote the same output and end at the same place. |
| ZeroExtension.BlocksExtends | 3rdParty/stb/stb_image.h:4216-4231 | Bits appended where the decoder saw zeros past the end change nothing it decodes. |
| ZeroExtension.ZerosExtend | 3rdParty/stb/stb_image.h:4216-4219 | Reading zeros past the end is the same as appending zero bytes to the input. |
| Zlib.StreamRead | 3rdParty/stb/stb_image.h:4500-4527 | A well-formed stream inside the input reads as what it denotes, without reading past the end. |
| Zlib.StreamFound | 3rdParty/stb/stb_image.h:4500-4527 | What decodes is a well-formed stream once zero bytes are appended: exactly as many as its end needs, at most 571, and none if it ends inside the input. |
| Zlib.OutcomeRead | 3rdParty/stb/stb_image.h:4500-4537 | Every well-formed stream inside the input whose output fits has that output as its outcome. |
| Zlib.OutcomeFound | 3rdParty/stb/stb_image.h:4500-4537 | An outcome is what a well-formed stream denotes: the input with at most 14 zero bytes after it. |
| Zlib.FarOverrunRefused | 3rdParty/stb/stb_image.h:4500-4537 | A stream whose end is more than 105 bits past the input is refused, whatever it denotes. |
| Zlib.OverrunDecides | 3rdParty/stb/stb_image.h:4328-4345 | For whole inputs: of two raw streams that both end two bits past the input, one is accepted and one refused. |
| Zlib.DoZlib | 3rdParty/stb/stb_image.h:4529-4537 | The result is the outcome, on every input; both directions against the format follow for it. |
| Zlib.DecodeMallocGuesssize | 3rdParty/stb/stb_image.h:4560-4574 | The result is the outcome, on every input. So every well-formed stream whose output fits what the buffer can grow to decodes to exactly that output; and whatever is returned is what a well-formed stream denotes, namely the input followed by at most 14 zero bytes. |
| Zlib.DecodeBuffer | 3rdParty/stb/stb_image.h:4576-4585 | The same for a fixed output buffer. |
| PngFilter.Paeth | 3rdParty/stb/stb_image.h:4676-4687 | The rewritten predictor equals the one section 9.4 of the PNG specification defines, on all integers. |
| PngFilter.UnfilterFilter | 3rdParty/stb/stb_image.h:4774-4806 | Unfiltering inverts filtering, for every filter type, row, prior row and pixel size. |
| PngFilter.FilterUnfilter | 3rdParty/stb/stb_image.h:4774-4806 | Filtering inverts unfiltering. |
| PngFilter.FilterMeans | 3rdParty/stb/stb_image.h:4774-4801 | Types 0 to 4: a filtered byte is the one that gives the original when 0, the byte to the left, the byte above, their mean, or the neighbour nearest to left plus above minus above left is added. |
| PngFilter.DecodeFirst | 3rdParty/stb/stb_image.h:4664-4672 | In the first row the substituted filter, whatever the unused buffer contains, recovers what the named filter recovers with zeros above. |
| PngFilter.DecodeLater | 3rdParty/stb/stb_image.h:4774-4801 | In later rows the decoder recurrence is the one of the specification. |
| PngFilter.UndoFilter | 3rdParty/stb/stb_image.h:4774-4806 | The filter loops, in place over one workspace, write the decoded row and leave the row above as it was. |
| PngSamples.TopIsPacked | 3rdParty/stb/stb_image.h:4817-4840 | Shifting a byte left sample by sample brings up the packed samples of section 7.2 of the PNG specification, for 1, 2 and 4 bits. |
| PngSamples.ExpandBits | 3rdParty/stb/stb_image.h:4810-4840 | The expansion loops write every sample of the row, scaled to 0..255 for grayscale, and nothing else. |
| PngPixels.SampleIsBits | 3rdParty/stb/stb_image.h:4808-4873 | At every depth, sample s of a scanline is the number that its bits write, from the left, the most significant first (section 7.2 of the PNG specification). |
| PngPixels.SampleMeans | 3rdParty/stb/stb_image.h:4808-4840 | Gray samples of fewer than 8 bits are stretched evenly, 0 to 0 and the largest to 255; all others are what the scanline says. |
| PngPixels.RowBytesLeast | 3rdParty/stb/stb_image.h:4737 | A scanline has exactly as many bytes as its bits need. |
| PngSamples.AlphaExpand1 | 3rdParty/stb/stb_image.h:4699-4704 | Running backwards, also when the source is the start of the destination, each gray sample is followed by 255. |
| PngSamples.AlphaExpand3 | 3rdParty/stb/stb_image.h:4705-4713 | Likewise for three channels. |
| PngRow.AlphaExpand8 | 3rdParty/stb/stb_image.h:4694-4714 | The added alpha channel, in place or not, for one and three channels. |
| PngRow.Join16 | 3rdParty/stb/stb_image.h:4853-4857 | Big-endian pairs become samples. |
| PngRow.Join16Alpha1 | 3rdParty/stb/stb_image.h:4858-4864 | Big-endian pairs with an opaque 16-bit alpha after each. |
| PngRow.Join16Alpha3 | 3rdParty/stb/stb_image.h:4865-4873 | Likewise for three channels. |
| PngRow.ExpandRow | 3rdParty/stb/stb_image.h:4808-4873 | A scanline of any depth, with or without an added alpha channel, becomes its row of output samples; nothing outside the row is written. |
| PngImage.Mad3Fits | 3rdParty/stb/stb_image.h:1033-1054 | The overflow check holds exactly when the exact value fits an int. |
| PngImage.RowsRecovered | 3rdParty/stb/stb_image.h:4756-4806 | For every list of scanlines and every choice of filter per row, reconstruction of the filtered rows, whatever follows them, gives the rows and the filter types back. |
| PngImage.RowsFilterBack | 3rdParty/stb/stb_image.h:4756-4806 | Filtering the reconstructed rows gives the input back, so they are the only rows that do. |
| PngImage.FilteredDecodes | 3rdParty/stb/stb_image.h:4756-4806 | Rows filtered with the five filters are accepted and recovered. |
| PngImage.UndoRow | 3rdParty/stb/stb_image.h:4757-4806 | With the two alternating buffers, row j is reconstructed from row j - 1, or from nothing when j is 0 whatever the memory contained. |
| PngImage.DecodeRow | 3rdParty/stb/stb_image.h:4756-4873 | One turn of the row loop reconstructs the row in the workspace and writes its samples, keeping all earlier rows of the image. |
| PngImage.DecodeRows | 3rdParty/stb/stb_image.h:4756-4878 | The row loop fails exactly when some row names no filter; otherwise the output is the image of the reconstructed rows. |
| PngImage.CreatePngImageRaw | 3rdParty/stb/stb_image.h:4717-4878 | Succeeds if and only if all sizes fit, there is enough data and every row names one of the five filters; the output is then the image of the scanlines the data is the filtered form of. |
| PngPixels.ImagePixel | 3rdParty/stb/stb_image.h:4756-4873 | Every channel of every pixel of the image, for all depths and with or without an added alpha channel, in terms of the bits of its scanline. |
| PngImage.SizesMean | 3rdParty/stb/stb_image.h:4731-4738 | The size checks hold exactly when four byte counts fit an int. |
| Adam7.Covered | 3rdParty/stb/stb_image.h:4894-4914 | Every pixel is in a pass, and within the size of that pass exactly when it is within the image. |
| Adam7.InPass | 3rdParty/stb/stb_image.h:4902-4903 | The pass sizes are exact: the target of (i, j) is inside the image if and only if (i, j) is inside the pass. |
| Adam7.Once | 3rdParty/stb/stb_image.h:4911-4912 | No pixel is the target of two passes, or of two places of one. |
| Adam7.PatternIs | 3rdParty/stb/stb_image.h:4893-4896 | The pass of each pixel is the one in the 8 by 8 pattern of section 8.2 of the PNG specification. |
| Adam7.PassesAddUp | 3rdParty/stb/stb_image.h:4902-4903 | The seven pass areas sum to width times height, for every size. |
| PngInterlace.PutPixel | 3rdParty/stb/stb_image.h:4913-4914 | Copying a pixel changes no other pixel. |
| PngInterlace.DoneStep | 3rdParty/stb/stb_image.h:4909-4916 | Copying a pixel of a pass where it belongs disturbs no pixel copied before. |
| PngInterlace.CopyPass | 3rdParty/stb/stb_image.h:4909-4916 | After the inner loops all pixels of this pass and the earlier ones are in place. |
| PngInterlace.DecodePass | 3rdParty/stb/stb_image.h:4902-4920 | An empty pass is skipped and takes no data; any other decodes from the data the earlier ones left. |
| PngInterlace.CreatePngImage | 3rdParty/stb/stb_image.h:4880-4925 | An interlaced image decodes if and only if its size fits and all non-empty passes decode; then every pixel is the pixel of its pass. |
| PngInterlace.FinalMeans | 3rdParty/stb/stb_image.h:4890 | The size check of an interlaced image holds exactly when its byte count fits an int. |
| PngInterlace.Deinterlaced | 3rdParty/stb/stb_image.h:4880-4925 | De-interlacing the seven passes of any picture gives the picture. |
| PngPicture.RestIsStored | 3rdParty/stb/stb_image.h:4905-4920 | With passes stored one after the other and empty ones left out, each pass is looked for where it was stored. |
| PngPicture.PassDecodes | 3rdParty/stb/stb_image.h:4902-4920 | Each stored pass, its rows filtered with any of the five types, decodes to its samples. |
| PngPicture.DecodePicture | 3rdParty/stb/stb_image.h:4880-4925 | A picture taken apart into the seven passes, filtered row by row in any way and stored, is accepted and comes back. |
| Lzw.OnCodeOk | 3rdParty/stb/stb_image.h:6743-6786 | Every code keeps the dictionary well formed: its strings are non-empty and its size bounded. |
| Lzw.DictPrefixes | 3rdParty/stb/stb_image.h:6758-6768 | Between clear codes the dictionary grows by at most one string, the previous one plus the first symbol of the current one, and the current string is what is emitted. |
| Lzw.NextEntryCode | 3rdParty/stb/stb_image.h:6767 | A code equal to the next free entry stands for the previous string plus its own first symbol (Appendix F of GIF89a). |
| GifFormat.WidthIsBits | 3rdParty/stb/stb_image.h:6782-6785 | For code sizes 2 to 11, in every state that codes lead to, the next code has as many bits as the number of strings has, at most twelve. |
| GifFormat.StepStands | 3rdParty/stb/stb_image.h:6743-6786 | One code against the format: the decoder stops at the end code, fails exactly at a code that may not come there, and else draws the string that two codes in a row formed before. |
| GifFormat.StreamRead | 3rdParty/stb/stb_image.h:6729-6790 | Any codes that may follow one another, each written with its number of bits and ended by the end code or the end of the data, decode to what they stand for. |
| GifFormat.StreamFound | 3rdParty/stb/stb_image.h:6729-6790 | Whatever bits are decoded, they are such codes up to some place; decoding succeeds exactly if they are over there. |
| GifPicture.PayloadRead | 3rdParty/stb/stb_image.h:6738-6745 | Sub-blocks of any sizes are read as one, and the file position afterwards is after the empty one. |
| GifPicture.RasterRead | 3rdParty/stb/stb_image.h:6710-6790 | A raster written as codes, packed into bytes and cut into sub-blocks in any way, denotes what the codes stand for. |
| GifPicture.RasterFound | 3rdParty/stb/stb_image.h:6710-6790 | Every raster with a code size of 2 to 11 is such codes up to some place, and is accepted exactly if they are over there. |
| GifRaster.AdvanceDraws | 3rdParty/stb/stb_image.h:6695-6707 | In every reachable cursor state, drawing one pixel adds exactly that pixel to those drawn. |
| GifRaster.AllDrawn | 3rdParty/stb/stb_image.h:6695-6707 | When the cursor leaves the frame, every pixel has been drawn. |
| GifRaster.PassResidue | 3rdParty/stb/stb_image.h:6702-6706 | The four interlace passes are the residue classes 0 and 4 modulo 8, 2 modulo 4, and 1 modulo 2. |
| GifRaster.PutAllAppend | 3rdParty/stb/stb_image.h:6673-6708 | Drawing two strings one after the other is drawing their concatenation. |
| GifOrder.SymbolPlace | 3rdParty/stb/stb_image.h:6673-6708 | From the start of a frame, symbol k lands on the pixel of rank k of the drawing order, and once there were as many symbols as pixels the frame is full; interlaced or not, for every size. |
| GifOrder.PixelRankUnique | 3rdParty/stb/stb_image.h:6695-6707 | No two pixels of a frame have the same rank. |
| GifOrder.PixelSymbol | 3rdParty/stb/stb_image.h:6673-6708 | Every pixel of the frame is the place of exactly one of the first width times height symbols. |
| GifOrder.RunDraws | 3rdParty/stb/stb_image.h:6673-6708 | After a whole run every pixel shows the symbol of its rank, or what was there if that is transparent, and is marked as touched; symbols after the frame is full change nothing. |
| GifOrder.RunKeeps | 3rdParty/stb/stb_image.h:6673-6708 | A pixel of the canvas on which no symbol of the run lands keeps its colour and its mark. |
| Gif.GifDecoder.PutSymbol | 3rdParty/stb/stb_image.h:6683-6707 | One symbol: its pixel is drawn unless transparent, marked as touched, and the cursor moves on. |
| Gif.GifDecoder.MoveOn | 3rdParty/stb/stb_image.h:6695-6707 | The byte-offset cursor does what the pixel cursor does. |
| Gif.GifDecoder.OutGifCode | 3rdParty/stb/stb_image.h:6673-6708 | The recursion ends, since each prefix index is smaller than its entry, and draws exactly the string of the code, first symbol first. |
| Gif.GifDecoder.AddEntry | 3rdParty/stb/stb_image.h:6758-6767 | The new entry denotes the previous string plus the first symbol of the current one, also when the code is the new entry itself; its prefix index is smaller and its first symbol right. |
| Gif.GifDecoder.HandleCode | 3rdParty/stb/stb_image.h:6738-6790 | One code has exactly the effect the dictionary-of-strings decoder gives it, in every case, errors included. |
| Gif.GifDecoder.DecodeCodes | 3rdParty/stb/stb_image.h:6729-6790 | The bit loop over sub-blocks draws what the codes of the payload denote, and on success leaves the file after the last sub-block. |
| Gif.GifDecoder.ProcessGifRaster | 3rdParty/stb/stb_image.h:6710-6790 | For every byte sequence: code sizes above 12 are refused and change nothing; otherwise the canvas is what the decoded symbols draw, success agrees, and the file position after a success is the end of the sub-blocks. |
| GifPicture.DrawFrame | 3rdParty/stb/stb_image.h:6710-6790 | A frame whose raster was written in this way is accepted, and every pixel shows the colour of its symbol, the blue and red of the colour table exchanged, or what was there if that colour is transparent. |
| Gif.GifDecoder.SkipBlocks | 3rdParty/stb/stb_image.h:6758-6762 | After the end code the rest of the sub-blocks is skipped, up to and including the empty one. |
| ActionKv.ActionKvBatchCollector.BeginRequest | cpp/action/actionKvBatch.cpp:42-59 | Accepts exactly matching, non-empty requests with an action slot; the state then belongs to an empty history. |
| ActionKv.ActionKvBatchCollector.CaptureFinished | cpp/action/actionKvBatch.cpp:61-107 | Succeeds if and only if the mapping is injective and in range, the table compatible and every newly finished action slot resident; the history then grows by what was seen, for any renumbering of the active batch. |
| ActionKv.ActionKvBatchCollector.CaptureSlot | cpp/action/actionKvBatch.cpp:90-105 | One slot: a snapshot and a queued copy only for an action request first seen finished; no two pending copies share a host cell. |
| ActionKv.ActionKvBatchCollector.SynchronizeValid | cpp/action/actionKvBatch.cpp:104-105 | Landing the queued copies, in order, keeps the state the one its history determines. |
| ActionKv.ActionKvBatchCollector.CompleteCapture | cpp/action/actionKvBatch.cpp:109-132 | Succeeds exactly when every pending request has a complete terminal state; the check for a missing snapshot never fails. |
| ActionKv.ActionKvBatchCollector.CompleteOne | cpp/action/actionKvBatch.cpp:119-130 | The snapshot becomes the live page prefix and the length seen at the first finished capture. |
| ActionKv.ActionKvBatchCollector.GatherRows | cpp/action/actionKvBatch.cpp:144-166 | Dense lengths overwrite the host buffer without harm; rows, lengths and deltas come out for exactly the action requests; the check on other requests never fails. |
| ActionKv.ActionKvBatchCollector.CountActions | cpp/action/actionKvBatch.cpp:141 | The number of action requests. |
| ActionKv.ActionKvBatchCollector.Materialize | cpp/action/actionKvBatch.cpp:134-176 | Succeeds exactly when nothing is pending and every action request is finished; the dense batch is then a function of the request and the history alone. |
| ActionKv.ActionKvBatchCollector.SetRows | cpp/action/actionKvBatch.cpp:170 | Rows hold their page ids and nothing after them; other rows stay. |
| ActionKv.RunRequest | cpp/action/actionKvBatch.cpp:42-176 | For every list of captures and completions in any order: the run succeeds if and only if every step is well formed, newly finished requests have rows, whatever was captured is complete when captures are completed, and at the last completion every action request had finished; the batch is then determined by the first finished observation of each request. |
| ActionKv.HistoryShown | cpp/action/actionKvBatch.cpp:90-105 | What the history has of a request is the length and the page row, in the arguments of the first capture with a slot that shows it finished, of that slot. |
| ActionKv.HistoryUnseen | cpp/action/actionKvBatch.cpp:90-94 | The history has nothing of a request that no capture shows finished. |
| ActionKv.ShownResident | cpp/action/actionKvBatch.cpp:95-99 | In a successful run that slot has a row of the page table. |
| ActionKv.DenseShown | cpp/action/actionKvBatch.cpp:144-170 | Row k of the batch: the length, the live pages and nothing after them, and the delta of the k-th action request, as the arguments of that capture give them. |
| ActionKv.FinishedShown | cpp/action/actionKvBatch.cpp:120-130 | A request can be materialised exactly if its length is positive, at most 128 tokens for each entry of its row, and every page it takes is there. |
| ActionKv.Step | cpp/action/actionKvBatch.cpp:61-132 | One event succeeds exactly when it should, and leaves the collector where the events say. |
| ActionKv.StepCapture | cpp/action/actionKvBatch.cpp:61-107 | The same for a capture, after any earlier captures that are not completed yet. |
| ActionKv.StepCompletion | cpp/action/actionKvBatch.cpp:109-132 | The same for waiting and completing: it needs a complete terminal state of every request seen finished, pending or not. |
| ActionKv.EndIs | cpp/action/actionKvBatch.cpp:134-150 | Nothing is pending and all is finished exactly if all was finished when captures were last completed. |
| ActionKv.CompletedFirst | cpp/action/actionKvBatch.cpp:90-94 | What was first seen finished before the last completion stays that for the whole run. |
| ActionKv.EventsPrefix | cpp/action/actionKvBatch.cpp:42-176 | Every part of a successful run from its start is successful. |
| ActionKv.FirstFinishedAppend | cpp/action/actionKvBatch.cpp:90-94 | Later captures cannot change what was first seen finished. |
| ActionKv.HistoryPrefix | cpp/action/actionKvBatch.cpp:90-94 | What a part of a run has recorded of a request is what the whole run has. |
| ActionKv.ActionIndicesExact | cpp/action/actionKvBatch.cpp:151-166 | The dense numbering is an order-preserving bijection onto the action requests. |
| ActionKv.DenseRowBelongs | cpp/action/actionKvBatch.cpp:161-165 | Row k of lengths, pages and deltas all belong to the k-th action request. |
| ActionKv.LivePages | cpp/action/actionKvBatch.cpp:123 | The page count p satisfies (p - 1) * T < length <= p * T. |
| ActionKv.LandedAppend | cpp/action/actionKvBatch.cpp:104-105 | A copy queued last decides its cell once all have landed. |
| ExternalWeights.ResolveExternalizeWeights | tensorrt_edgellm/external_weights.py:38-57 | The first value that is not a kind decides: `all` gives every kind, anything else an error; without one the result is the values, each once, in order of first occurrence. |
| ExternalWeights.KindsAsked | tensorrt_edgellm/external_weights.py:24-57 | `all` asks for the four kinds in order, each kind for itself, and anything else is refused. |
| ExternalWeights.FindWeightInitializers | tensorrt_edgellm/external_weights.py:134-189 | Each of the three scans collects its candidates in order, each once. |
| ExternalWeights.ScanExact | tensorrt_edgellm/external_weights.py:134-189 | A name is found if and only if it is an initializer that some node of the kind takes as a weight. |
| ExternalWeights.FoundWhere | tensorrt_edgellm/external_weights.py:134-189 | Where each kind looks: inputs 1 and 2 of a groupwise GEMM with a dense FFN name, inputs 2 and 4 of an integer mixture of experts, all inputs of an NVFP4 one. |
| ExternalWeights.ScanOrder | tensorrt_edgellm/external_weights.py:134-189 | Weights come in the order of the nodes. |
| ExternalWeights.PickedInputs | tensorrt_edgellm/external_weights.py:134-189 | Those of one node come in the order of its inputs. |
| Collecting.CollectExact | tensorrt_edgellm/external_weights.py:139-154 | The list and the set kept side by side hold each wanted candidate exactly once. |
| Collecting.CollectOrder | tensorrt_edgellm/external_weights.py:139-154 | The names come in the order in which they first occur. |
| WeightNames.FirstMixer | tensorrt_edgellm/external_weights.py:122-128 | The leftmost match of the pattern, or none. |
| WeightNames.GatedFfn | tensorrt_edgellm/external_weights.py:118-121 | A gate, up or down projection under `mlp` is a dense FFN weight. |
| WeightNames.SlashedFfn | tensorrt_edgellm/external_weights.py:118-121 | With slashes for dots as well. |
| WeightNames.MixerFfn | tensorrt_edgellm/external_weights.py:123-131 | A Nemotron-H name with layer number n is one exactly if layer n is of type `mlp`. |
| WeightNames.LmHeadNamed | tensorrt_edgellm/external_weights.py:256-259 | A name is that of an LM head exactly if `lm_head` is in it, each letter in either case. |
| ExternalWeights.PlanPartitions | tensorrt_edgellm/external_weights.py:542-605 | The names of all manifest entries are distinct, are initializers, and are exactly the names found for some requested kind. |
| ExternalWeights.EntriesDisjoint | tensorrt_edgellm/external_weights.py:545-560 | Distinct names put any two manifest entries apart. |
| ExternalWeights.UntakenAppend | tensorrt_edgellm/external_weights.py:545-547 | The names of an entry that no earlier file has keep their order. |
| ExternalWeights.FileUnused | tensorrt_edgellm/external_weights.py:542-605 | A kind that was not handled yet has a file that no earlier entry uses. |
| ExternalWeights.PlanWhere | tensorrt_edgellm/external_weights.py:564-605 | Which file and which manifest entry each kind has. |
| ExternalWeights.Directory.WriteWeights | tensorrt_edgellm/external_weights.py:436-461 | Streams when every tensor has a reference and a named type, else lets the library write; succeeds exactly when the way taken can, and the bytes written then load as exactly the tensors of the names; no other file changes. |
| ExternalWeights.Externalizer.AddExternalWeightFile | tensorrt_edgellm/external_weights.py:542-562 | Writes one file that loads as exactly the names no earlier file has, and only if there are any; fails exactly when they cannot be written; other files stay as they are. |
| ExternalWeights.Externalizer.AddExternalWeightInputs | tensorrt_edgellm/external_weights.py:464-479 | The inputs become the old ones followed by one for each new name, declared as its initializer is. |
| ExternalWeights.Externalizer.RemoveExternalizedInitializers | tensorrt_edgellm/external_weights.py:482-491 | Exactly the named initializers go; the order of the others stays. |
| ExternalWeights.InputsAdded | tensorrt_edgellm/external_weights.py:464-479 | Old inputs stay in front, a name that was not an input becomes one exactly once, and no other name does. |
| ExternalWeights.InputDeclared | tensorrt_edgellm/external_weights.py:471-478 | A name that becomes an input has exactly one, declared with the element type and the shape of its initializer. |
| ExternalWeights.WithInputsAppend | tensorrt_edgellm/external_weights.py:464-479 | New inputs are added name by name. |
| ExternalWeights.WithInput | tensorrt_edgellm/external_weights.py:471-479 | One name more that is not an input is added at the end. |
| ExternalWeights.DeclaredAsLoaded | tensorrt_edgellm/external_weights.py:464-479 | That is the type and the shape of the tensor that is loaded for it from the written files. |
| ExternalWeights.RetainedMap | tensorrt_edgellm/external_weights.py:482-491 | Taking initializers out takes exactly their names out of the scope. |
| ExternalWeights.RetainedAppend | tensorrt_edgellm/external_weights.py:482-491 | Taking initializers out of a list takes them out of its parts, so the others stay in order. |
| ExternalWeights.NamesMove | tensorrt_edgellm/external_weights.py:464-491 | An externalised name is no longer an initializer and occurs once among the inputs if it was none before. |
| ExternalWeights.MeaningKept | tensorrt_edgellm/external_weights.py:464-491 | For every graph, every meaning of its operators and everything bound to its inputs, the rewritten graph with the written tensors bound gives the same outputs. |
| ExternalWeights.LoadedIsChosen | tensorrt_edgellm/external_weights.py:545-560 | Loading the bytes of every file of the manifest gives the initial value of every externalised name. |
| ExternalWeights.ExportKeepsMeaning | tensorrt_edgellm/external_weights.py:523-615 | With the bytes of the files of its manifest loaded and bound, the exported graph gives the outputs of the original. |
| ExternalWeights.ExternalizeKinds | tensorrt_edgellm/external_weights.py:564-615 | For distinct kinds it succeeds exactly when every file of the plan can be written; the manifest is then the plan, with the LM-head weight that the search returns, its files load as the initial values, and the graph is rewritten for its names. |
| ExternalWeights.ExternalizeKind | tensorrt_edgellm/external_weights.py:564-605 | One kind extends manifest and files as the plan says, and fails exactly when its file cannot be written. |
| ExternalWeights.PlanPrefix | tensorrt_edgellm/external_weights.py:564-605 | What is planned for the first kinds is the start of what is planned for all. |
| ExternalWeights.ExternalizeModelWeights | tensorrt_edgellm/external_weights.py:523-615 | The same for every request, and every new input is declared with the type and the shape of its initializer; an unsupported request changes nothing. |
| LmHead.FindInitializerTraces | tensorrt_edgellm/external_weights.py:221-242 | The name found is one the value traces to through views and casts, and when none is found there is none with a name. |
| LmHead.RankIrrelevant | tensorrt_edgellm/external_weights.py:221-242 | What is found does not depend on the order of values by which the recursion is shown to end. |
| LmHead.HeadOf | tensorrt_edgellm/external_weights.py:303-310 | A projection gives the weight of the first of its later inputs that traces to one, and none exactly when none does. |
| LmHead.Walk | tensorrt_edgellm/external_weights.py:280-319 | Ends on every graph; takes the values in the order of the worklist, so it returns the weight of the first projection with one, which can be reached from the outputs; nothing only when no reachable projection has one. |
| LmHead.ReachableInside | tensorrt_edgellm/external_weights.py:280-319 | A set of seen values that is closed under steps holds every reachable value. |
| LmHead.FindLmHeadWeight | tensorrt_edgellm/external_weights.py:245-326 | Returns exactly what `LmHeadWeight` says: the only initializer of candidate shape named for the head, else the only one of such shape, else the weight the walk comes to first. |
| LmHead.LmHeadWeightIsCandidate | tensorrt_edgellm/external_weights.py:245-326 | Whatever is returned is an initializer of candidate shape. |
| LogitsHead.FoundByName | tensorrt_edgellm/external_weights.py:252-262 | The only initializer of candidate shape with `lm_head` in its name is the weight. |
| LogitsHead.FoundByShape | tensorrt_edgellm/external_weights.py:252-264 | So is the only one of candidate shape. |
| LogitsHead.FoundFromLogits | tensorrt_edgellm/external_weights.py:266-319 | Otherwise, from logits that come from a projection through casts, views, a logarithmic softmax or the sum with an initializer, the weight is the one that the projection takes, directly or through a cast or a view. |
| LogitsHead.FoundBehindSum | tensorrt_edgellm/external_weights.py:292-319 | If the logits are the sum of what two projections give, the weight is that of the second. |
| WeightFile.CopyRange | tensorrt_edgellm/external_weights.py:424-432 | The chunk loop copies exactly the range, for any chunk sizes the reads return, and fails exactly when the file ends first. |
| WeightFile.WriteWeightFile | tensorrt_edgellm/external_weights.py:388-433 | Succeeds exactly when every tensor has complete data; the file is then the length, the padded header and all data in order. |
| WeightFile.Padded | tensorrt_edgellm/external_weights.py:415-417 | At most seven spaces make the header a multiple of 8 long. |
| WeightFile.ValueLittleEndian | tensorrt_edgellm/external_weights.py:421 | Eight bytes, low byte first, give the length back. |
| WeightFile.HeaderLists | tensorrt_edgellm/external_weights.py:402-413 | For distinct names the header lists the tensors in order with their running offsets. |
| WeightFile.RangesTile | tensorrt_edgellm/external_weights.py:402-413 | The ranges start at 0, follow one another without gap or overlap, and end with the data. |
| WeightFile.ReadBack | tensorrt_edgellm/external_weights.py:415-432 | The data section starts at a multiple of 8, and the range of each tensor reads back as exactly the source bytes. |
| WeightFile.HeaderBack | tensorrt_edgellm/external_weights.py:415-422 | The header text, with its padding, is found again by its length. |
| WeightCodec.DtypeRoundTrip | tensorrt_edgellm/external_weights.py:350-368 | No two element types that have a name in the file share it. |
| WeightCodec.DtypeName | tensorrt_edgellm/external_weights.py:350-368 | The name of an element type is the letters for its kind and its number of bits. |
| WeightCodec.EntryLoads | tensorrt_edgellm/external_weights.py:388-433 | In a streamed file the entry of each tensor reads back as its type, its shape and its bytes. |
| WeightCodec.StreamLoads | tensorrt_edgellm/external_weights.py:388-433 | The bytes of a streamed file load as exactly the tensors of the names. |
| Trajectory.TrajectoryToTokenIds | cpp/action/actionUtils.cpp:29-75 | Three tokens a point, those of the differences between points; with at least one bin all of them lie in the token range. |
| Trajectory.TokensInOrder | cpp/action/actionUtils.cpp:57-72 | Tokens 3i to 3i + 2 are those of the x, y and z differences of point i; the first point counts from the origin. |
| Trajectory.TokenNearest | cpp/action/actionUtils.cpp:37-55 | Every difference, inside its range or not, gets a token whose value no other token is nearer to. |
| Trajectory.TokenOfCentre | cpp/action/actionUtils.cpp:37-55 | The value of a token is encoded as that token. |
| Trajectory.EndTokens | cpp/action/actionUtils.cpp:34-55 | The first and the last token stand for -4 and 4 along x and y, and for -10 and 10 along z. |
| Trajectory.TokenTie | cpp/action/actionUtils.cpp:40-50 | Halfway between the values of two tokens the upper one is taken. |
| Trajectory.HalfBin | cpp/action/actionUtils.cpp:37-55 | The error is at most half a bin if and only if the difference is within half a bin of its range. |
| Trajectory.AccumulatedError | cpp/action/actionUtils.cpp:57-72 | Adding up the values of the first i + 1 tokens of an axis lands within (i + 1) half bins of point i. |

## Left out

- Zlib: the Adler-32 trailer is not read by the decoder, and window sizes above 7, which section 2.2 of RFC 1950 rules out, are accepted. A truncated stream is not always rejected, since zero bytes are supplied past the end. What is accepted is stated exactly by `Zlib.Outcome`, which follows the bits in the buffer and the one padding; an accepted stream ends at most 105 bits past the input, and two streams that both end two bits past it show that either can happen.
- Zlib.DoZlib: an expandable output buffer must not be empty to start with. The original doubles its size and never ends when it needs room and the size is zero (`Inflate.DoublingReaches`); all its callers pass a positive size.
- Zlib.DecodeMallocGuesssize: the same for an initial size of zero.
- Inflate.ZBuf.Expand: the same for the buffer it doubles.
- Memory: allocation is taken to succeed. Sizes that the code itself checks for overflow are checked.
- Inflate: bits are put into the 32-bit buffer by addition instead of bitwise or, which is the same since they do not overlap; the complement of a stored length is 0xFFFF - len instead of an exclusive or.
- Inflate: an output position is an index into the buffer. Forming an address past the end of the buffer, as the check of a stored block does, is not modelled.
- PNG: chunk reading, palettes, transparency colours, the iPhone variant and conversion to the requested channel count or bit depth; only scanlines to samples is covered. A sample is one entry of the output array, so the byte order of 16-bit samples in memory is not modelled.
- PNG: width and height are at most 2^24, as the reader of the header guarantees, so the 32-bit byte counts do not wrap.
- GIF: canvas disposal, delays, palettes and headers. The format side (`GifFormat`, `GifPicture`) is for code sizes 2 to 11, which include all that GIF89a allows; with 0, 1 and 12, which the decoder takes too, its first codes are wider or narrower than the number of strings calls for, and only `Lzw` says what is drawn. The test for a code equal to the entry just added (line 6767) can never hold, because the count has been raised by then; the case it is meant for works because the new entry is read after its `first` field is set, and this is what is proved.
- JPEG, BMP, TGA, PSD, PIC, HDR, PNM, reading through callbacks and files, failure strings.
- ActionKv: CUDA, tensors and streams. The stream is a queue of copies that a synchronise step performs in order; device lengths are arguments; the page table is a list of rows. `int32` overflow of length + 127 is not modelled. After a failed call the state promises only its shape, and only the start of a new request is proved to work from it. A run waits for the stream before it completes captures, as the header file demands; completing without waiting is not modelled.
- ExternalWeights: parsing and saving ONNX files and logging. Turning a header into JSON text and back, and the writer that goes through numpy and torch, are parameters (`WeightCodec.Codec`), of which it is taken that what they write loads as what it was written for, a header also with spaces after it. The reader of a file, which is not in this file of the repository, is modelled after the layout that is written. The references into external data hold the bytes of the initializers, and the data files are not among the files written. Graphs have distinct initializer names, as ONNX demands. Nodes with subgraphs are covered in so far as an operator may read every value in scope. The candidate shapes of the LM head, which come from a torch model, are an argument.
- LmHead: tracing one value assumes that views and casts do not form a cycle, as ONNX demands; the walk over the graph does not.
- WeightNames: letters are lowered and digits read as in ASCII.
- WeightFile: offsets and lengths are not negative.
- Trajectory: arithmetic is exact; rounding of floats and casts of out-of-range values to int are not modelled.
- config.py, the model loaders, the builders, the command line and the packaging: lookups and library calls.
