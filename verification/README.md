# Verified model of the console server's core

These Dafny modules model the parts of the server whose correctness is hardest to see from the code:
the streaming JPEG transcoder, the JSON path of a request (the scanner that diverts an upload's
content, the tokenizer and its accessors, base64), the mDNS responder, the tool-definition compressor
with its expander, the sleep/wake protocol of the server loop, and three small algorithms (decimal
formatting, the zlib stream of stored blocks, the search of a growing file).

Code that changes state step by step is written as classes and methods with loops over fields and
arrays. Each is proved against a function on sequences, and the main results are about those functions:

- **JPEG** (`Bits`, `Huffman`, `ByteStuffing`, `BitReader`, `BitWriter`, `Zigzag`, `BlockCodec`,
  `BlockCoding`, `StandardTables`, `FrameGeometry`, `Planes`, `ScanSpec`, `StripSpec`, `McuDecoder`,
  `RowSink`, `FrameHeader`, `HeaderForms`, `HeaderWriter`, `JpegScale`, `PlaneCover`, `Transcoder`,
  `OutputDecodes`, `Pictures`, `PictureScaling`, `OutputPictures`, `PictureFiles`).
  A bit stream is a sequence of booleans; `BitReader.rest` is what is still to be read and
  `BitWriter.sent` what has been written, whatever the two 32-bit buffers hold. Huffman codes are
  prefix-free and decoding inverts them; any sequence of in-range blocks is read back as it was
  written; `dec_run` delivers every output row once, in order, from the one band that holds its
  source rows, and what the planes held before never shows; `jpeg_scale` writes exactly the specified
  file, or reports that it did not fit, also when it overwrites the buffer it reads: where the decoder
  stands when each byte is put follows from the input, so which of the two it is does; and the file
  written is accepted by the same decoder, which finds in it exactly the blocks encoded. `HeaderForms`
  and `Pictures` write headers and scans as ITU T.81 lays them out, for any sampling factors, tables and
  restart interval; the last result is about them: on the file of any picture `jpeg_scale` makes the file
  of the picture whose samples are the means of those that meet their boxes. The DCT and
  the quantisation are two parameters (`ScanSpec.Transforms`), required only to deliver coefficients
  in the baseline ranges (`ScanSpec.Sound`).
- **JSON** (`JsonStream`, `JsonDiversion`, `JsonRedaction`, `Upload`, `Jstream`, `Spellings`, `Base64`,
  `Base64Coding`, `Base64Standard`, `Slices`, `Jsmn`, `JsmnTokens`, `JsonWalk`,
  `JsmnSound`, `JsonDoc`, `JsonText`). `JsonStream.Value` is a JSON text
  with its layout. The scanner's flags are shown to walk that tree; the end result says, for every
  body, which bytes an upload saves and what document is left; `Spellings` has the writer of a string in
  all its spellings. The tokenizer is shown to deliver the
  tree's tokens in preorder, and the accessors to find the member or element asked for.
- **mDNS** (`DnsNames`, `MdnsMessages`, `Mdns`). `DnsNames.DecodeName` and
  `MdnsMessages.ReadResponse` are readers after RFC 1035; matching, skipping and every response are
  stated in terms of them, and which records answer which questions in terms of names and type numbers.
- **Tool definitions** (`ToolDefs`, `ToolSharing`, `ToolTracing`, `ToolGrower`, `ToolHeads`, `ToolPieces`,
  `ToolJson`, `ToolWriter`, `ToolPublishing`, `ToolRefusals`, `CLiterals`). The rewriting ends, keeps every tool's text, and stops
  only when nothing more can be shared; the arrays it makes are expanded by the server to the full
  definitions, with the announced length; what is sent is a JSON text (RFC 8259) of the definition's own
  entries. It can move a tool's head out of its text, and the
  generator then stops: `ToolHeads` says when.
- **Power** (`PowerSpec`, `ServerLoop`). The loop runs against an environment that chooses every
  event; a trace records what it did, and `PowerSpec.SleepsQuietly` and `PowerSpec.InOrder` say what holds
  of it, position by position.
- **Small algorithms** (`FixedDecimal`, `StoredZlib`, `FileSearch`).

`Wrappers` holds the option type.

## Model

| member | source | states |
|---|---|---|
| Huffman.DecodeInverts | source/util/jpeg.c:277-285 | Decoding a symbol's assigned code gives that symbol and consumes exactly its bits, for every table whose codes fit their lengths. |
| Huffman.PrefixFree | source/util/jpeg.c:491-500 | No assigned code is a prefix of another. |
| Huffman.DecodeSound | source/util/jpeg.c:277-285 | Whatever bits are decoded, they begin with the code of the symbol returned. |
| Huffman.IndexInTable | source/util/jpeg.c:84-95 | The symbol index of any code in a length's range stays inside the symbols given, Kraft or not. |
| Huffman.Huff.Build | source/util/jpeg.c:84-95 | The first-code and first-index arrays hold the values of T.81 section C.2 for the counts, and looking codes up in them is looking them up in the table. |
| Huffman.HuffCodes | source/util/jpeg.c:491-500 | Every symbol gets the code and length the decoder expects; symbols not in the table get length 0. |
| Huffman.SymbolRoundTrip | source/util/jpeg.c:491-500 | What the encoder's book writes for a symbol, the decoder reads back. |
| ByteStuffing.UnstuffStuff | source/util/jpeg.c:478-489 | Removing the stuffed zeros undoes stuffing, up to the marker that follows. |
| BitReading.BitReader.FillByte | source/util/jpeg.c:242-261 | One more byte in the buffer changes neither the bits still to be read nor the place of the next marker, and never moves the input pointer back. |
| BitReading.BitReader.Fill | source/util/jpeg.c:242-261 | After a fill more than 24 bits are buffered; the stream is unchanged. |
| BitReading.BitReader.GetBits | source/util/jpeg.c:263-271 | Delivers the value of the next n bits of the unstuffed stream, zeros past its end, and consumes them. |
| BitReading.BitReader.HuffDecode | source/util/jpeg.c:277-285 | The loop over lengths decodes the stream's next symbol, or reports bits that start no code. |
| BitReading.BitReader.LeftToRead | source/util/jpeg.c:242-271 | How much of the data is still unread follows from the bits not delivered yet and the size of the last read: each fill stops at the first byte that makes more than 24 bits. |
| BitReading.BitReader.Restart | source/util/jpeg.c:288-300 | Goes on just past the next RSTn marker, and fails exactly if there is none. |
| BitWriting.BitWriter.PutByte | source/util/jpeg.c:457-466 | Stores the byte exactly if its place is below the capacity and, in place, below the reader; else latches overflow. No other byte of the buffer changes. Overflow so far means exactly that some byte was put too late. |
| BitWriting.BitWriter.PutBits | source/util/jpeg.c:478-489 | The bits written so far, stuffed bytes and pending ones together, are extended by exactly the code's bits. |
| BlockCodec.ExtendInverts | source/util/jpeg.c:273-275 | The extra bits of every nonzero value are extended to that value. |
| BlockCodec.DcRoundTrip | source/util/jpeg.c:304-334 | The DC value is read back from its difference and consumes exactly its bits. |
| BlockCodec.AcRoundTrip | source/util/jpeg.c:568-625 | Runs, ZRL codes and the optional EOB are read back to the same coefficients, from any position in the block. |
| BlockCodec.BlockRoundTrip | source/util/jpeg.c:304-334 | Decoding an encoded block gives back all 64 coefficients and leaves what follows, for any tables that have the symbols the block needs. |
| Zigzag.ZigWalks | source/util/jpeg.c:14-24 | The order of the coefficients is the walk along the anti-diagonals of figure A.6 of T.81, from the top left corner. |
| BlockCoding.DecodeInto | source/util/jpeg.c:304-334 | decode_block consumes exactly one block, fails exactly on corrupt data, and stores the dequantised coefficients in natural order. |
| BlockCoding.PutValue | source/util/jpeg.c:568-578 | Writes the run/size symbol and the extra bits. |
| BlockCoding.EncodeZz | source/util/jpeg.c:604-625 | Writes exactly the bits of the block's coefficients. |
| StandardTables.StandardCoders | source/util/jpeg.c:389-456 | The standard tables (T.81 section K.3) give four books that hold every symbol the encoder writes. |
| FrameGeometry.SinkGeometry | source/util/jpeg.c:733-755 | An accepted crop covers the requested part of the image, its origin moved out by less than the scale; the two refusals occur exactly for a wrong scale and for a crop outside the image. |
| FrameGeometry.RowInBand | source/util/jpeg.c:675-696 | All the source rows of an output row lie in one band of the image. |
| FrameGeometry.BoxInPlane | source/util/jpeg.c:657-672 | Every sample box_avg reads lies inside the band's plane and stride, and its box is not empty. |
| FrameGeometry.BoxesPart | source/util/jpeg.c:657-696 | The boxes of the output's columns and rows part the crop: each of its columns and rows is in exactly one. |
| Planes.AverageBox | source/util/jpeg.c:657-672 | The loops compute the rounded mean of the box. |
| Planes.StoreAt | source/util/jpeg.c:336-364 | Storing a block changes its 64 samples and no others. |
| Planes.StoreBlock | source/util/jpeg.c:336-364 | The copy loop stores the block. |
| McuDecoding.Decoder.DecodeMcu | source/util/jpeg.c:698-730 | One MCU: each component's blocks decoded in order and, if the band is needed, stored at their places; nothing else in the planes changes. |
| McuDecoding.Decoder.RestartIfDue | source/util/jpeg.c:698-730 | Exactly at the restart interval the predictors are cleared and the reader goes past the marker. |
| McuDecoding.Decoder.McuStep | source/util/jpeg.c:698-730 | An MCU with the restart due before it is one step of the scan. |
| McuDecoding.Decoder.DecodeBand | source/util/jpeg.c:698-730 | A band of MCUs: the state of the scan after it, and its samples in the planes. |
| RowSinks.RowSink.EncodeStrip | source/util/jpeg.c:638-655 | A strip, full or partial, is encoded as three blocks for every 8 columns, its last row and column repeated. |
| RowSinks.RowSink.EmitRow | source/util/jpeg.c:675-696 | One output row appended, each sample the mean of its box; a full strip is encoded at once. |
| RowSinks.RowSink.EmitRows | source/util/jpeg.c:675-696 | Emits exactly the rows whose source rows lie in this band, in order, after those emitted before. |
| RowSinks.RowSink.EmitTimed | source/util/jpeg.c:675-696 | The bytes a row completes are put with the decoder where the row finds it; so the places for all bytes put follow from those for the rows. |
| RowSinks.RowSink.FlushStrip | source/util/jpeg.c:786-787 | With the partial strip encoded, the blocks written are those of all rows. |
| StripSpec.UnitsRoundTrip | source/util/jpeg.c:581-625 | Any sequence of in-range blocks of the three components is decoded to the same coefficients and predictors. |
| StripSpec.ImageUnitsCount | source/util/jpeg.c:638-655 | An image makes three blocks for every 8x8 square of samples, partial ones included: what its header implies. |
| JpegScaling.RunBand | source/util/jpeg.c:698-730 | A turn of the loop advances the scan by a band and the rows by those it completes; it fails exactly on corrupt data. |
| JpegScaling.DecRun | source/util/jpeg.c:698-730 | Succeeds exactly if the MCUs needed decode; every output row is then emitted once, in order, with the decoder just past the row's band. |
| PlaneCover.BandIndependent | source/util/jpeg.c:698-730 | A decoded band covers its planes: they do not depend on what they held before. |
| PlaneCover.BandFilled | source/util/jpeg.c:698-730 | Every sample of a band's planes is that of the block that holds its place. |
| Transcoding.RowPlanesIndependent | source/util/jpeg.c:698-730 | Neither does any output row, including those after skipped bands. |
| Transcoding.RowsAreImage | source/util/jpeg.c:698-730 | The rows emitted are the image's, whatever the planes held at first. |
| FrameHeader.ParseHeaders | source/util/jpeg.c:159-240 | Headers are accepted only with a valid frame and valid tables; a Huffman table the file does not hold is the all-zero one. Which headers, and as what: the next three rows. |
| HeaderForms.WrittenAccepted | source/util/jpeg.c:98-240 | Any sequence of segments as section B.2 of T.81 writes them (8- and 16-bit quantisers and Huffman tables, several to a segment, frames with any factors from 1 to 4, restart intervals, markers and segments of other kinds, fill bytes) and a scan header: accepted exactly if they have the form, with what follows left, and as the header that was last defined. |
| HeaderForms.AcceptedIff | source/util/jpeg.c:159-240 | parse_headers accepts exactly the texts of that form. |
| HeaderForms.EveryHeader | source/util/jpeg.c:98-240 | Every header whose fields fit, with distinct identifiers, has a text that is read back as it: the same frame, restart interval and quantisers, and tables of the same codes. |
| FrameHeader.HeadersRest | source/util/jpeg.c:159-240 | The entropy-coded data is a suffix of the input. |
| FrameHeader.HeaderRoundTrip | source/util/jpeg.c:533-566 | parse_headers accepts what enc_header writes and recovers size, quantisers, Huffman tables and components, for all sizes up to 4096. |
| HeaderWriting.PutDht | source/util/jpeg.c:502-509 | Writes the table as the parser reads it. |
| HeaderWriting.EncHeader | source/util/jpeg.c:533-566 | Writes exactly the header of this size, these quantisers and tables. |
| Transcoding.Finish | source/util/jpeg.c:784-791 | The file ends with the last strip, one bits up to a whole byte, and EOI. |
| Transcoding.Transcode | source/util/jpeg.c:757-798 | From the headers on, the file written is that of the scaled image. |
| Transcoding.ScaleScan | source/util/jpeg.c:757-798 | The same with the encoder, decoder and sink set up, in either buffer layout; too small exactly if some byte is put at the capacity or, in place, where the decoder stands by then, which the scan decides. |
| Transcoding.JpegScale | source/util/jpeg.c:757-798 | The outcome is a function of the input bytes, the options and the place of the buffers alone: an error, or exactly this file, or an overflow report exactly if some byte would be put at the capacity or, in place, on input that is still unread when it is put. |
| Transcoding.WhenTooSmall | source/util/jpeg.c:457-466 | With buffers apart, overflow is reported exactly if the file exceeds the capacity. In place, a file that ends below the entropy-coded data is delivered, and one that would end past the input is not. |
| Transcoding.AllLeft | source/util/jpeg.c:770-782 | When the header is written the whole entropy-coded data is still unread. |
| OutputDecoding.ScanDecodes | source/util/jpeg.c:304-334 | Each MCU of an encoded scan decodes to its three blocks, and only the padding is left. |
| OutputDecoding.OutputDecodes | source/util/jpeg.c:757-798 | The decoder accepts the transcoded file, recovers its size, quantisers and tables, and reads exactly the blocks encoded in exactly the MCUs the header implies. |
| Pictures.ScanReads | source/util/jpeg.c:698-730 | The scan of any picture of coefficients, its MCUs laid out as section A.2.3 of T.81 says for any sampling factors, with any restart interval and any tables that have the symbols needed: every MCU is decoded to its blocks of the picture, and what follows the scan is left. |
| PictureScaling.SampleAverages | source/util/jpeg.c:657-696 | Each output sample is the mean, a half rounded up, of the samples of the whole component that meet its box, wherever the bands end; 128 for a component that is not there. |
| PictureScaling.RowAverages | source/util/jpeg.c:675-730 | So is every sample of the image a scan of the picture makes. |
| OutputPictures.FileIsText | source/util/jpeg.c:757-798 | The file written is the encoder's header and the scan of a picture whose blocks are the transforms of the rows' 8x8 squares, their last row and column repeated. |
| OutputPictures.ScalesPictures | source/util/jpeg.c:757-798 | On any file whose headers fit a picture and whose scan is its, the file made is that of the picture scaled and cropped. |
| PictureFiles.PictureScaled | source/util/jpeg.c:757-798 | Every header and picture have such a file, and jpeg_scale makes the file of the scaled picture from it. |
| Base64.ReadShape | source/util/base64.c:63-94 | A text read without error is its symbols and padding, line breaks aside. |
| Base64.ReadEncoding | source/util/base64.c:8-34 | Reading an encoding gives the bits of the bytes encoded and zero fill. |
| Base64.DecodeIff | source/util/base64.c:63-106 | The decoder accepts exactly the encodings, padded or not, with any line breaks, and gives back the bytes encoded (RFC 4648 sections 3.5 and 4). |
| Base64.EncodeChunks | source/features/mcp/mcp_server.c:200-214 | Chunks of a multiple of three bytes encode to the encoding of the whole. |
| Base64Standard.EncodeIsStandard | source/util/base64.c:5-34 | The encoding is that of RFC 4648 section 4, the alphabet written out. |
| Base64Coding.B64Encode | source/util/base64.c:8-34 | Fills the buffer with the encoding and returns its length. |
| Base64Coding.EncodeLength | source/util/base64.c:8-34 | The announced length is the encoding's. |
| Base64Coding.WriteBase64 | source/features/mcp/mcp_server.c:200-214 | The chunks sent make the encoding of the whole image; a connection that stops has got the encoding of the chunks it took. |
| Base64Coding.B64Decoder.Update | source/util/base64.c:63-94 | However the text is cut, the bytes produced so far are those of the text so far; an error latches; the output fits (n/4+1)*3 bytes. |
| Base64Coding.B64Decoder.Finish | source/util/base64.c:96-106 | True exactly if the whole text is complete. |
| Base64Coding.B64Decode | source/util/base64.c:108-119 | Whole-string decoding: the bytes and a final NUL, or 0 on any error or a small buffer. |
| JsonStream.RunConcat | source/features/mcp/jstream.c:46-185 | However the body is cut, the scanner ends in the same state. |
| JsonDiversion.KeyReadMatches | source/features/mcp/jstream.c:31-44 | The key buffer holds the wanted key exactly if the key is written plainly and is that key. |
| JsonDiversion.KeyRun | source/features/mcp/jstream.c:31-44 | After a key the flags say whether its value is on the path, is the content, or neither. |
| JsonDiversion.ContentRun | source/features/mcp/jstream.c:46-185 | The content string is replaced by the placeholder and its unescaped bytes reach the sink; a second one is refused. |
| JsonDiversion.ValueAgrees | source/features/mcp/jstream.c:46-185 | On the text of any value the flag-driven scanner does what a walk of the value does. |
| JsonRedaction.ValueMade | source/features/mcp/jstream.c:46-185 | The walk succeeds exactly within the depth and document limits and leaves the reduced text; otherwise the error it reports names a limit that is broken. |
| JsonRedaction.BodyScanned | source/features/mcp/jstream.c:46-194 | For every JSON body: success exactly if depth at most 15, the reduced text fits, there is at most one content string and it has only escapes base64 can carry; then the document is the reduced text. Otherwise EDEPTH, EDOC, EDUP or ECONTENT is reported, and only one whose limit is broken. |
| Jstreams.Jstream.AppendDoc | source/features/mcp/jstream.c:17-23 | Appends the whole text or fails without appending any. |
| Jstreams.Jstream.CompleteKey | source/features/mcp/jstream.c:31-44 | Sets the two flags from depth, path and key. |
| Jstreams.Jstream.Feed | source/features/mcp/jstream.c:46-185 | The state after a chunk, with its batched writes to document and sink, is that of its bytes one by one. |
| Jstreams.Jstream.End | source/features/mcp/jstream.c:187-194 | Fails inside a string or at nonzero depth. |
| Uploads.UploadSink.Sink | source/features/mcp/mcp_server.c:68-98 | Keeps file bytes, decoder and the latched failure a function of all content received so far. |
| Uploads.UploadSink.Take | source/features/mcp/mcp_server.c:110-123 | Hands out the file exactly if all the content decoded and was written. |
| Uploads.SavedIff | source/features/mcp/mcp_server.c:68-123 | Content is saved as x exactly if it is non-empty text encoding x, line breaks aside, and memory, card and room allow. |
| Jstreams.ReceiveBody | source/features/mcp/mcp_server.c:385-405 | The loop over reads of any sizes, the connection failing after any of them: document, file and error depend on the bytes read alone. |
| Jstreams.UploadIff | source/features/mcp/mcp_server.c:385-405 | For every JSON body: x is saved exactly if the limits are kept and the one content string, unescaped, encodes x; the document is then the body with that string replaced. |
| Spellings.StreamedIff | source/features/mcp/jstream.c:46-110 | A string is streamed as a text exactly if it is one of its spellings: any of its slashes and line breaks escaped, any others as they are. |
| Spellings.UploadSpelled | source/features/mcp/mcp_server.c:385-405 | For every JSON body: x is saved exactly if the depth is at most 15, the document fits, and the one content string spells a text that encodes x. |
| Spellings.PathIs | source/features/mcp/jstream.c:5-6 | The content is at $.params.arguments.content and "<streamed>" takes its place. |
| Spellings.StreamedReads | source/util/json.c:73-126 | What the scanner streams of a string is what json_get_string reads of it. |
| JsmnTokens.ScanStringFinds | lib/jsmn/jsmn.h:193-263 | A JSON string is scanned up to its closing quote. |
| JsmnTokens.ScannedIsString | lib/jsmn/jsmn.h:193-263 | Whatever the scan accepts is a JSON string's text: its escapes are complete. |
| JsmnTokens.ValueReaches | lib/jsmn/jsmn.h:268-453 | From any state, parsing a value's text appends its tokens, or runs out of tokens. |
| JsmnTokens.ParseDelivers | lib/jsmn/jsmn.h:268-453 | For every JSON text: the value's tokens in preorder with spans and child counts, or NOMEM exactly if they are too many. |
| JsmnSound.AcceptedSound | lib/jsmn/jsmn.h:268-453 | For every text that is accepted, JSON or not: its strings can be read back, and json_skip reaches every element an array's token counts. |
| JsonDocs.JsmnParser.StringEnd | lib/jsmn/jsmn.h:193-263 | The scan finds the closing quote, or resets the position and reports PART or INVAL. |
| JsonDocs.JsmnParser.PrimitiveEnd | lib/jsmn/jsmn.h:135-188 | The scan ends at a delimiter or the end of input, or resets the position. |
| JsonDocs.JsmnParser.TurnOnce | lib/jsmn/jsmn.h:276-440 | One turn of the loop on the token array, with jsmn_alloc_token and the superior token. |
| JsonDocs.JsmnParser.ParseAll | lib/jsmn/jsmn.h:268-453 | The whole parse over the array. |
| JsonDocs.JsonDoc.Load | source/util/json.c:9-18 | json_parse with its 1024 tokens. |
| JsonWalk.ValueSpans | lib/jsmn/jsmn.h:268-453 | The tokens' spans are laminar, in preorder, inside the value's text. |
| JsonWalk.RootStands | lib/jsmn/jsmn.h:268-453 | The tokens of a whole text are those of its value, at index 0, and laminar. |
| JsonWalk.SkipPasses | source/util/json.c:35-41 | json_skip passes exactly a value's tokens. |
| JsonWalk.ObjGetFinds | source/util/json.c:43-56 | json_obj_get returns the value of the first member with that raw key, or -1 if there is none. |
| JsonWalk.ArrGetFinds | source/util/json.c:64-71 | json_arr_get returns element idx, or -1 past the end. |
| JsonWalk.ArrayCounted | source/util/json.c:58-71 | The element count of an array token is that of its elements' tokens. |
| JsonDocs.JsonDoc.SkipToken | source/util/json.c:35-41 | The loop passes every token that starts before the end. |
| JsonDocs.JsonDoc.Get | source/util/json.c:43-56 | The loop over members. |
| JsonDocs.JsonDoc.Element | source/util/json.c:64-71 | The loop over elements, on the tokens of any accepted text: it stays inside them. |
| JsonDocs.JsonDoc.Text | source/util/json.c:73-126 | Reads a string token of any accepted text; false for other tokens or for want of room. |
| JsonText.EscapeRoundTrip | source/util/json.c:267-311 | Escaped text is a valid string body and unescapes to the original, for every byte string (RFC 8259 section 7). |
| Spellings.NumberedRead | source/util/json.c:73-126 | Every \uXXXX, with capital or small digits, is read as the UTF-8 of its character (RFC 3629 section 3), a surrogate as a question mark. |
| JsonText.EscapedScans | source/util/json.c:299-311 | Between quotes it is scanned as one token that spans it. |
| JsonText.EscapeRoomy | source/util/json.c:73-126 | Reading an escaped string back needs exactly its length and four more bytes, unless it is empty. |
| JsonText.SpareIsRoomy | source/util/json.c:73-126 | Any string fits with four bytes to spare. |
| JsonText.EscapedLen | source/util/json.c:292-297 | Exactly the length json_escape returns. |
| JsonText.EscapeInto | source/util/json.c:299-311 | The escaped text and its NUL, or -1 exactly if they do not fit. |
| JsonText.GetString | source/util/json.c:73-126 | The unescaped bytes and a NUL, or failure exactly if the room check fails at some piece. |
| DnsNames.NameEquals | source/core/mdns.c:264-299 | True exactly if the name RFC 1035 section 4.1.4 reads at the offset, within 16 pointers, is the dotted name label by label, ignoring ASCII case; it ends on every packet. |
| DnsNames.SkipName | source/core/mdns.c:303-315 | The offset past the name: after the root, after a pointer, or 0 for a malformed one. |
| DnsNames.EncodedDecodes | source/core/mdns.c:171-183 | Labels written uncompressed decode to themselves and are skipped exactly. |
| DnsNames.PointerDecodes | source/core/mdns.c:264-315 | Labels and then a pointer to another name are those labels and that name, and are skipped to just past the pointer. |
| DnsNames.LoopFails | source/core/mdns.c:264-299 | A pointer to itself is refused, however many may be followed. |
| DnsNames.WrittenNameMatches | source/core/mdns.c:264-315 | A name written by w_name matches itself, and skip_name returns the offset just past it. |
| MdnsMessages.RecordReads | source/core/mdns.c:187-204 | A record with its patched length is read back, to its last byte. |
| MdnsMessages.MessageReads | source/core/mdns.c:360-367 | A reader finds exactly the announced records and nothing after them. |
| Mdns.Writer.Name | source/core/mdns.c:171-183 | Appends the labels, or latches failure on a label that cannot be encoded or a full buffer. |
| Mdns.Writer.RrHead | source/core/mdns.c:187-196 | Appends name, type, class, TTL and a length to patch, and returns its offset. |
| Mdns.Writer.RrPatch | source/core/mdns.c:199-204 | With the length patched, what was written is one whole record. |
| Mdns.Writer.EmitA | source/core/mdns.c:208-215 | The A record of the host. |
| Mdns.Writer.EmitNsec | source/core/mdns.c:223-231 | The NSEC record that denies all but A. |
| Mdns.Writer.EmitPtr | source/core/mdns.c:233-237 | The PTR record, without the cache-flush bit. |
| Mdns.Writer.EmitSrv | source/core/mdns.c:239-247 | The SRV record. |
| Mdns.Writer.EmitTxt | source/core/mdns.c:249-258 | The TXT record. |
| Mdns.GatherIff | source/core/mdns.c:326-357 | A want is set exactly if some question asks for it; unicast exactly if some matched question has the QU bit. |
| Mdns.WantedIs | source/core/mdns.c:326-357 | In type numbers and decoded names: an address, pointer, service or text record is wanted exactly if some question of that type or of type 255 is for its owner; unicast exactly if such a question has the top bit of its class set. |
| Mdns.QuestionsRead | source/core/mdns.c:326-357 | The questions of a query as it is written are found, each with its name, type and class. |
| Mdns.ScanQuestions | source/core/mdns.c:326-357 | The loop over questions gathers them up to the first malformed one. |
| Mdns.EmitAnswers | source/core/mdns.c:369-410 | Writes exactly the records of the closure, as many as announced. |
| Mdns.BuildResponse | source/core/mdns.c:369-410 | Nothing for a response or for no wanted record; else the message of the closure, or 0 exactly if it does not fit. What is sent answers the query, and unicast is set exactly if a matched question asks for it. |
| Mdns.Answered | source/core/mdns.c:369-410 | Read as RFC 1035 says, the message has exactly the records asked for or brought by those, each once, with its owner, class, time to live and data (priority, port and target; address; denial of all but A). |
| Mdns.BuildAnnouncement | source/core/mdns.c:412-422 | All five records, unsolicited. |
| Mdns.ResponseReads | source/core/mdns.c:369-410 | A response sent reads back, to the last byte, as the records of the closure. |
| ToolDefs.BeforeKeeps | scripts/generate_resource.py:154-160 | Moving the common character before every use of a def into its text changes no expansion. |
| ToolDefs.AfterKeeps | scripts/generate_resource.py:161-167 | Nor does moving the common character after every use. |
| ToolDefs.MergeKeeps | scripts/generate_resource.py:168-177 | Nor does merging a def that always and only follows another. |
| ToolDefs.FollowedCounts | scripts/generate_resource.py:168-177 | Equal numbers of uses suffice: a def that follows every use of another as often as it occurs occurs nowhere else. |
| ToolSharing.SettledAfterBefore | scripts/generate_resource.py:154-160 | A move before the uses of one def gives no other def anything new to share. |
| ToolSharing.SettledAfterAfter | scripts/generate_resource.py:161-167 | Nor does a move after them. |
| ToolSharing.UnmergeableBefore | scripts/generate_resource.py:154-177 | No merge becomes possible that way: the text between would have moved into the first def before. |
| ToolGrowing.Grower.MoveBefore | scripts/generate_resource.py:154-160 | All common characters before the uses have moved; only this def's text has grown, at its front. |
| ToolGrowing.Grower.MoveAfter | scripts/generate_resource.py:161-167 | The same after the uses, at its end. |
| ToolGrowing.Grower.TryMerge | scripts/generate_resource.py:168-177 | Merges exactly when some def follows every use and is used nowhere else. |
| ToolGrowing.Grower.Pass | scripts/generate_resource.py:147-177 | A pass either merges two defs or leaves nothing more to share. |
| ToolGrowing.Grower.Grow | scripts/generate_resource.py:141-177 | Terminates; every tool expands to what it did; no character and no def can be shared any more. |
| ToolTracing.TracedMerge | scripts/generate_resource.py:168-177 | Through every merge each remaining text is what is left of one original text, after what moved into the defs on either side. |
| ToolHeads.HeadKept | scripts/generate_resource.py:231-237 | The head survives if some use of the first def has other text before it than the head's end and what follows. |
| ToolHeads.HeadCut | scripts/generate_resource.py:231-237 | Otherwise the head is cut, where no other move reaches the text before the other uses. |
| ToolHeads.HeadIff | scripts/generate_resource.py:231-237 | Both directions, judged from the pieces before the rewriting. |
| ToolHeads.OrderDecides | scripts/generate_resource.py:152-177 | Where another move does reach it the pieces alone do not decide: the same pieces are rewritten, in two orders of the defs, with the head kept and with the head cut. |
| ToolPieces.PiecesExpand | scripts/generate_resource.py:114-138 | Whatever defs are kept, a tool's pieces expand to its fully inlined minified text. |
| ToolPieces.PiecesHead | scripts/generate_resource.py:133-138 | The first piece starts with the tool's head: its name comes first. |
| ToolJson.StringSpelled | scripts/generate_resource.py:114-138 | What json.dumps writes for a string is a string of RFC 8259 section 7 for it. |
| ToolJson.MinifiedSpells | scripts/generate_resource.py:114-138 | The minified text of a definition is a JSON text of its tree, every reference replaced. |
| ToolJson.DefinitionSpelled | scripts/generate_resource.py:133-138 | The object published has the name first and then every other entry of the definition, resolved, in the original order, and no more. |
| ToolWriting.ArrayExpands | scripts/generate_resource.py:225-246 | Markers 1 to 31 and the shared texts in order of use expand to the tool's text. |
| ToolWriting.MarkedHead | scripts/generate_resource.py:230-237 | The marked text starts with the head exactly if the first piece does. |
| ToolWriting.GenerateArrays | scripts/generate_resource.py:215-246 | A tool is refused exactly if it needs more than 31 shared texts or its text no longer starts with its head after the rewriting; otherwise every array expands to its definition and starts with its head. |
| ToolPublishing.ChooseShared | scripts/generate_resource.py:206-213 | Shares exactly the defs whose names a placeholder can carry and whose uses save more than their pointers cost, in the order of their first uses. |
| ToolPublishing.StillUsed | scripts/generate_resource.py:206-214 | A def that is used when all are kept is used when only some are. |
| ToolPublishing.GenerateTools | scripts/generate_resource.py:206-246 | From the definitions: the arrays expand to them, every reference inlined, and start with their heads. The generator stops at a tool only if that one uses more than 31 shared defs or its head is not safe in the pieces; a head that is not safe does stop it where no other move disturbs that. |
| ToolPublishing.HeadJudged | scripts/generate_resource.py:231-237 | Whether a head is kept, judged from the pieces with the defs chosen shared, before the rewriting. |
| ToolRefusals.Refused | scripts/generate_resource.py:206-237 | A definition with its own name, description and schema repeated in a nested object: its head is safe exactly if the schema has at most 18 characters, so that it is not shared; otherwise it is not, and nothing disturbs that. |
| ToolRefusals.Generate | scripts/generate_resource.py:206-237 | The generator refuses that definition, though it is valid and needs at most one shared text, exactly if its schema has more than 18 characters; it makes the arrays for it otherwise. |
| ToolRefusals.LongSchema | scripts/generate_resource.py:213 | There are such schemas: the object with one description of one letter. |
| ToolPublishing.Publish | source/features/mcp/mcp_server.c:294-312 | From the definitions to the bytes sent: if no tool uses more than 31 shared defs and every head is safe, the server sends the full definition and returns its length; if it sends anything it sends that, a JSON text of its name and every other entry in order, and it finds the tool by its name. |
| ToolWriting.WriteTool | source/features/mcp/mcp_server.c:294-312 | Sends the array's expansion and returns its length, also when it only measures. |
| ToolWriting.ToolIs | source/features/mcp/mcp_server.c:338-343 | True exactly if the name and a quote follow the opening of the text. |
| ToolWriting.FoundByName | source/features/mcp/mcp_server.c:338-343 | A tool with its head is found by a name without quotes exactly if it is its own. |
| ToolWriting.FoundByOther | source/features/mcp/mcp_server.c:338-343 | A name with a quote in it can be taken for a tool's that it is not. |
| ToolWriting.ToolsList | source/features/mcp/mcp_server.c:316-335 | The length announced is that of the body sent. |
| ToolPublishing.ListSpelled | source/features/mcp/mcp_server.c:316-335 | The result in that body is a JSON text of an object with the array of all definitions. |
| CLiterals.EscapesOne | scripts/generate_resource.py:43-45 | The four substitutions in turn treat each character on its own. |
| CLiterals.EscapeReads | scripts/generate_resource.py:43-45 | The C literal stands for the text escaped. |
| CLiterals.LinesRead | scripts/generate_resource.py:48-50 | However the lines cut the payload, the adjacent literals make it up again. |
| PowerSpec.StaysQuiet | source/core/http_server.c:248-289 | From the acknowledgement of a request to sleep or shut down on, no socket is open and the log is suspended until a wake is handed over. |
| PowerSpec.SleepIsQuiet | source/core/http_server.c:248-289 | In that time nothing is opened, sent, logged or pinged. |
| PowerSpec.QuietSleeps | source/core/http_server.c:248-289 | The same of the requests themselves, position by position: from the acknowledgement of ReadySleep, ReadySleepCritical or ReadyShutdown until one of the others is handed over, no socket is open, the log is silent, and nothing is opened, used, logged or pinged. |
| PowerSpec.KindsInOrder | source/platform/power.c:56-98 | The n-th event handed over is Sleep exactly if the n-th request read is one of those three, and the n-th acknowledgement is its. |
| PowerSpec.PingsApart | source/core/http_server.c:185-193 | Two pings with no wake between them are at least five seconds of ticks apart. |
| ServerLoop.Power.PowerPoll | source/platform/power.c:80-87 | Returns a deferred request first, each once, and otherwise what the controller has: Sleep for its three requests to sleep or shut down and Wake for the others. |
| ServerLoop.Power.SleepRequested | source/platform/power.c:89-93 | True exactly if the deferred request is a sleep; a request already deferred is not replaced. |
| ServerLoop.Power.PowerAck | source/platform/power.c:95-98 | Acknowledges the request handed over, with its own state. |
| ServerLoop.Server.WaitIdle | source/core/http_server.c:197-204 | Ends a wait exactly if a sleep is deferred. |
| ServerLoop.Server.KeepAwakeMaybe | source/core/http_server.c:185-193 | A ping is sent exactly if it is enabled, due and available, and the deadline moves on exactly if it is enabled and due; nothing else is done. |
| ServerLoop.Server.GoToSleep | source/core/http_server.c:248-266 | The log is silent, the sockets are closed and the features' hooks have run before the acknowledgement. |
| ServerLoop.Server.Transitions | source/core/http_server.c:248-283 | One poll: the request deferred, or else the one ready, is acknowledged, and the loop is suspended afterwards exactly if it was one to sleep or shut down; keeps the invariant between socket variables, suspension and the trace. |
| ServerLoop.Server.Serve | source/core/http_server.c:370-390 | The client is served and closed, and exactly the power action scheduled by then is performed after that; nothing stays scheduled. |
| ServerLoop.Server.Turn | source/core/http_server.c:243-394 | A turn keeps the invariant, whatever the environment does. |
| ServerLoop.RunServer | source/core/http_server.c:221-395 | In every run, position by position: after a request to sleep is acknowledged nothing happens and nothing is open until a wake is handed over; every request read is handed over as what it is and acknowledged once, in order, with its own state, but for at most one still deferred. |
| FixedDecimal.RoundsUnique | source/util/json.c:202-240 | Round half to even determines the integer. |
| FixedDecimal.RoundShift | source/util/json.c:223-233 | Shift, remainder and tie make the rounding. |
| FixedDecimal.ScaledInteger | source/util/json.c:202-240 | Through all shift cases the integer is mantissa times scale times 2^-shift, rounded half to even; beyond 64 bits its low 64 bits, and all ones where the shift reaches 64. |
| FixedDecimal.FixedSpells | source/util/json.c:234-239 | Sign, integer digits and exactly the zero-padded fraction digits spell the integer. |
| FixedDecimal.WholeScales | source/util/json.c:202-240 | A whole number up to 53 bits, laid out as IEEE 754 section 3.4 says, gives itself times the scale cut to 64 bits: the right number exactly if that product is below 2^64. |
| FixedDecimal.WholeCut | source/util/json.c:202-240 | It is not for 2^52 with six decimals. |
| FixedDecimal.WholePrints | source/util/json.c:234-239 | A whole number is then printed as its digits, the point, and noughts. |
| FixedDecimal.FmtFixed | source/util/json.c:202-240 | What the buffer holds, for every double: that integer's text, cut to its size. |
| StoredZlib.AdlerStep | source/features/nro/nro.c:119-161 | The running sums follow the closed form modulo 65521. |
| StoredZlib.AdlerIs | source/features/nro/nro.c:119-161 | The closed form: the sums modulo 65521. |
| StoredZlib.UpdateAdler | source/features/nro/nro.c:119-161 | The inner loop's sums are those of all the data so far. |
| StoredZlib.BlocksInflate | source/features/nro/nro.c:119-161 | The stored blocks inflate to the rest of the file, only the last being final. |
| StoredZlib.StreamInflates | source/features/nro/nro.c:119-161 | The payloads make one zlib stream that inflates to the file and carries its checksum (RFC 1950 section 2.2, RFC 1951 section 3.2.4). |
| StoredZlib.ChunksFit | source/features/nro/nro.c:36-41 | Every chunk is at most 16 KiB and not empty. |
| StoredZlib.FramedReads | source/features/nro/nro.c:119-161 | The receiver finds the chunks in the framed stream. |
| StoredZlib.SendStream | source/features/nro/nro.c:119-161 | Succeeds exactly if the file is at least as long as announced and the connection takes all chunks; they are then what was sent, of the announced part. |
| StoredZlib.SentIsFile | source/features/nro/nro.c:119-161 | What the receiver unframes and inflates is the file. |
| FileSearch.MemFind | source/features/files/files.c:247-254 | True exactly if the needle occurs in the window. |
| FileSearch.WindowFinds | source/features/files/files.c:258-282 | A window overlapping the searched part by the needle's length less one finds exactly the new occurrences. |
| FileSearch.SearchFile | source/features/files/files.c:258-282 | For any read sizes: true exactly if an occurrence ends past the start mark. |
| FileSearch.PollOnce | source/features/files/files.c:293-313 | One poll: met exactly if the file can be opened and new text completes an occurrence; a file that shrank is searched from its start. |
| FileSearch.FilesWait | source/features/files/files.c:284-322 | Met at the first poll that finds the needle in what is new to it; on a growing file that is the first poll with an occurrence ending past the mark, and none for text wholly before it. |
| FileSearch.UnopenedMissed | source/features/files/files.c:293-313 | Text first measured at a poll that cannot open the file is never found. |

## Left out

JPEG:
- BlockCoding.DecodeInto: does not model 32-bit overflow of predictor sums or of coefficient times quantiser, which only corrupt input can reach.
- FrameHeader.ParseHeaders: the parser is modelled on the input's bytes as a value, not with its moving pointer.
- Transcoding.JpegScale: does not cover an output region that starts at or above the input inside the same buffer, which the code does not guard either.
- ScanSpec.SoundExists: the DCT, the inverse DCT and quantisation are abstract; the quantiser tables are given, not computed from the quality.
- Pictures.ScanReads: for coefficients in the baseline ranges of T.81; what is made of other data is in JpegScale's contract only.
- jpeg_luma_thumbnail, jpeg_get_size and allocation failure.

JSON and upload:
- Jstreams.ReceiveBody: everything handle_post does after the document is complete is not modelled; a partly written file that is deleted is not tracked.
- JsonRedaction.BodyScanned: for bodies that are JSON texts whose keys have no NUL; for other bodies the scanner is specified byte by byte (JsonStream.Step) only. Where several limits are broken it does not say which is met first.
- jsmn's counting mode without tokens; json_get_int, json_get_double, json_get_bool, json_raw, json_parse_double; base64url.

mDNS:
- Mdns.BuildResponse: the configuration is given, its service name without NUL and its TXT data already built; sockets, the local address and the choice between unicast and multicast sends are not modelled.

Tool definitions:
- ToolPieces.PiecesExpand: splitting on placeholders is modelled as building the pieces directly. A string or a key of a definition that is itself of a placeholder's form, a name between two NUL characters, is plain text here; the generator would take it for a reference. Text is a sequence of characters, so UTF-8 lengths are not modelled.
- ToolPublishing.ChooseShared: the names a placeholder can carry are taken to be those of ASCII letters, digits and underscores; Python also counts other alphabets' letters.
- ToolHeads.HeadIff: where another move reaches the text before the other uses, whether the head is cut depends on the order of the defs too (ToolHeads.OrderDecides); there only the sufficient condition is proved (ToolHeads.HeadKept).
- ToolPublishing.GenerateTools: the checks of a tool's fields are left out, but for what they leave of its name; so are the symbols' names.
- HTML resources.

Power:
- ServerLoop.Server.Turn: network checks beyond their outcome and the waits between turns are left out.
- power_spsm, opening idle:sys and the actions performed.

Small algorithms:
- StoredZlib.SendStream: the conversation around the stream is left out.
- FileSearch.SearchFile: asks for a buffer at least as long as the needle, as its callers provide.
- FileSearch.FilesWait: the timeout is a number of polls.

Also left out: routing, the `*_http.c` and `*_mcp.c` handlers, settings, titles, install, process, sha256 and configuration.
