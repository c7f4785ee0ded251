# Models of three vendored C libraries

This project models the hard parts of three C libraries that are vendored under `3rdparty/` — the DEFLATE inflater, the
lock-free lists, the lazy publication of debug information and the LEB128 readers of libbacktrace, the JSON parser,
printer, patch and pointer code of cJSON, and the HTTP/1.x push parser — and proves what they promise. Another set of
files holds the reference definitions that the code is compared with: a DEFLATE and zlib decoder written from RFC 1951
and RFC 1950, Adler-32, canonical Huffman codes, merge patches of RFC 7396, and equality of documents up to the order of
members.

## How the files go together

**DEFLATE.** `bits` has the C bit operators on natural numbers, defined by halving and doubling. `canonical_code` has
the codes of RFC 1951, section 3.2.2, and `deflate` a decoder that reads bits by position and knows no tables or
buffers. `huffman_table` says when a two-level table decodes a code; `huffman_build` builds one as
`elf_zlib_inflate_table` does, with `huffman_room` for where the secondary tables begin, `huffman_complete` for what a
complete code needs and `huffman_cells` for whose each cell is; `fixed_tables` has the two tables for fixed codes, by
formula. `inflate` is `elf_zlib_inflate` with its refillable bit buffer, match copier and output array, `inflate_fits`
says what its limits are, and `adler32` is the checksum with its postponed remainders. `bit_strings`, `deflate_encode`
and `deflate_stream` write the format, from single symbols up to whole streams, with the permutation of the code lengths
written out once more. The main results: a successful build decodes every code, and the build succeeds for every
complete code, and for an incomplete one exactly if its secondary tables begin at offsets that an entry can hold
(`HuffmanBuild.BuildTable`), the three ways of copying a match are bytewise LZ77 (`Inflate.CopyMatch`), and a stream
that the reference decodes is inflated to the same output exactly if the output buffer has its size and the stream is
within the limits (`Inflate.Inflate`). Below 4 GiB the limits are 30 distances, room in the tables, and, where the last
byte before the checksum is at an address divisible by four, that the last end-of-block code begins at least seven bits
before the checksum (`InflateFits.StreamLimitsIff`); from 4 GiB on the source's conversions to `unsigned int` refuse
more (`InflateFits.MatchFits`, `InflateFits.StoredFits`). Whatever is written by the RFC is decoded to what was written
(`DeflateStream.StreamIsRead`) and inflated under these limits (`DeflateStream.InflateWritten`). The source looks for
the data of a stored block one byte too far when the block's header ends on a byte boundary; the reference decoder has
both rules, `Deflate.StoredAgreesIff` says exactly when they agree on a block and
`StoredBoundary.BoundaryCounterexample` gives a whole stream that the standard decodes and the source's rule does not;
`StoredBoundary.InflateBoundary` proves that `elf_zlib_inflate` refuses it.

**HTTP.** `http_machine` is the state machine of `http_parser_execute`, one byte at a time (strict mode), with the
callbacks it asks for. `http_safety` has the invariant that keeps every assertion of the source from failing;
`http_actions` shows that data callbacks never overlap; `http_run` joins the events of a run; `http_scan` has the inner
scanning loops and proves each a refinement of single bytes; `http_execute` is the whole call on a buffer, with its mark
variables and left-over callbacks. The main result is that cutting the input into any pieces changes nothing
(`HttpExecute.SplitChangesNothing`). `http_methods` and `http_names` prove that the matching of methods and header names
is comparison with the whole word, `http_lists` and `http_encodings` which options of a Connection header and which
transfer encodings are heard in a list, `http_request` that a request without a body is reported exactly as it stands,
`http_chunks` and `http_trailers` add the round trip of chunked bodies and exact lengths. `http_head` has all kinds of
header lines and what the parser remembers of them, `http_status` the status line and a parser for both kinds of
message, and `http_message` whole messages, with the body that section 3.3.3 of RFC 7230 gives them, one after another
on a connection (`HttpMessage.MessageRoundTrip`, `HttpMessage.MessagesReported`). `http_url` is the URL splitter,
`http_url_grammar` a grammar of URLs whose parts it finds, and `http_url_parts` proves that it accepts nothing else
(`HttpUrlParts.UrlReadIff`). `http_tolerance` has the other forms that are accepted: bare line feeds, more blanks,
folded lines and requests without a version. `http_classes` checks the character classes against lists of characters.
The parser notices a transfer encoding already when a header's name only begins with `transfer-encoding`:
`HttpNames.NameMeaning` gives the exact condition and `HttpNames.EncodingCounterexample` such a name. It also does not
hear every option in a list: `HttpLists.Heard` and `HttpEncodings.LastChunked` say, element by element, which it does,
and the counterexamples beside them show options that it misses.

**JSON.** Documents are trees with lists of members (`json_tree`); `Matches` is equality up to the order of members,
with numbers compared as the source compares them. `child_list`, `child_sort` and `child_tree` keep the linked nodes
themselves: insertion, removal and replacement as sequence operations, the merge sort in place, and copies of whole
trees. `json_sort` has the same sort on sequences, `json_compare` proves that `compare_json` decides `Matches`,
`json_reorder` has what it leaves of the objects that it sorts, `json_pointer` has JSON Pointer both ways, `json_patch`
is `apply_patch`, `json_diff` and `json_create` are `create_patches`, `json_rfc6902` has the operations as RFC 6902
defines them, and `json_edit`, `json_patchable` and `json_diff_apply` prove that applying a difference gives the target.
`json_move` does the same for `move` and `copy` between any two places, `json_failures` says what is left when an
operation fails, and `json_index` which tokens are taken for array indices. `json_merge` has merge patches in both
directions. `json_strings`, `json_literals`, `json_numbers`, `json_text`, `json_print` and `json_parse` have the text:
escapes, what every literal of RFC 8259 means, printer, buffers and the parser, which builds a tree of linked nodes.
Where the patch code mishandles keys, the condition is exact: `JsonEdit.RemovesItselfIff` and `JsonEdit.AddsItselfIff`
say for which keys an operation reaches the member that it names, and `JsonEdit.CaseCounterexample` and
`JsonEdit.TildeCounterexample` give keys for which it does not. A difference is always right by RFC 6902
(`JsonDiffApply.DiffIsRight`), and apply_patch does what the RFC asks for in every step exactly if the keys that its
operations name are good when it is their turn (`JsonDiffApply.FollowsIff`). A member with the value null cannot be
produced by a merge patch; `JsonMerge.MergeIntoNothing` makes that an equivalence. The generator of merge patches sorts
ignoring case below the root but compares with strcmp, and what it sorts there has already been sorted in place by
`compare_json`, which is not the same as sorting once when two keys differ only in case (`JsonMerge.SortTwice`):
`JsonMerge.GenerateInverts` says exactly for which documents its patch is right, and `JsonMerge.OrderCounterexample`
gives a family of documents for which it is not, among them those with nested members `a` and `A`
(`JsonMerge.NestedCounterexample`).

**Threads.** `lock_free_list` and `publication` are state machines whose steps are single atomic loads, stores and
compare-and-swaps of any number of threads, on sequentially consistent memory. `Publication.LinesLastIff` says that
storing `lines` last is both enough and needed. `Publication.TableMayChangeHands` shows that a thread which reads the
function table pointer twice may get two blocks with the same contents.

**LEB128.** `leb128` has the readers of variable-length numbers.

## Conventions

Machine integers are natural numbers; every place where a width matters says so (`InflateFits.Unsigned`,
`Adler32.Add32`, `JsonPointer.Wrap`, `HttpMachine.Increment`, `JsonText.Saturate`). Memory that is only read is a
sequence, and an index stands for a pointer, so that alignment is alignment of the index. A C string is a sequence of
characters without its terminator. Allocation succeeds.

## Model

| member | source | states |
|---|---|---|
| `CanonicalCode.CodesFit` | 3rdparty/libbacktrace/elf.c:1278-1305 | With a Kraft sum of at most 1 the codes of each length fit that many bits. |
| `CanonicalCode.PrefixFree` | 3rdparty/libbacktrace/elf.c:1213-1217 | At one bit position at most one symbol's canonical code can stand. |
| `HuffmanTable.FieldsAreMasks` | 3rdparty/libbacktrace/elf.c:1098-1163 | The value, bits and secondary fields of a table entry are what the C masks and shifts select. |
| `HuffmanTable.EntryIsOr` | 3rdparty/libbacktrace/elf.c:1247-1256 | An entry put together with shifts and `or` has the symbol and the bit count as its fields. |
| `HuffmanTable.PresentDecodes` | 3rdparty/libbacktrace/elf.c:2142-2159 | If the cells for a symbol are present, then on every bit buffer that starts with its reversed code the primary or secondary lookup returns that symbol and its length. |
| `HuffmanBuild.CountLengths` | 3rdparty/libbacktrace/elf.c:1184-1211 | The counts and the chains of symbols of each length, from a code length table; refuses a length above 15. |
| `HuffmanBuild.NextCode` | 3rdparty/libbacktrace/elf.c:1278-1310 | Incrementing a code in reversed bit order gives the reversal of the next canonical code. |
| `HuffmanBuild.FillPrimary` | 3rdparty/libbacktrace/elf.c:1218-1311 | The primary table after all lengths up to 8 holds every symbol of these lengths, and the code that follows. |
| `HuffmanBuild.ReverseAdd` | 3rdparty/libbacktrace/elf.c:1333-1358 | Adding to a code in reversed bit order is the reversal of adding to the code. |
| `HuffmanBuild.FirstCodes` | 3rdparty/libbacktrace/elf.c:1315-1360 | The reversed first code of each length from 9 to 15. |
| `HuffmanBuild.FillSecondary` | 3rdparty/libbacktrace/elf.c:1361-1460 | The secondary tables hold every symbol of the lengths from 9, and nothing of the primary symbols is lost. |
| `HuffmanBuild.BuildTable` | 3rdparty/libbacktrace/elf.c:1170-1478 | On lengths with a Kraft sum of at most 1 the build succeeds exactly if every secondary table begins at an offset that fits its entry, so that the collision tests never fire, and always if the sum is 1; then the lookup decodes every symbol's code to that symbol and consumes exactly its length. Every lookup stays inside the table. |
| `HuffmanRoom.CodesApart` | 3rdparty/libbacktrace/elf.c:1243-1275 | No number ends in the reversed codes of two symbols, so that no cell is wanted twice. |
| `HuffmanComplete.TakenByLength` | 3rdparty/libbacktrace/elf.c:1387-1424 | The secondary tables for the codes of one length have as many cells as there are codes, but for what the ends of their range leave open in a table. |
| `HuffmanComplete.CompleteHasRoom` | 3rdparty/libbacktrace/elf.c:1387-1424 | The secondary tables of a complete code with at most 390 symbols all begin at offsets that fit. |
| `FixedTables.FixedTablesDecode` | 3rdparty/libbacktrace/elf.c:1553-1637 | The two fixed tables decode the fixed codes of RFC 1951, section 3.2.6. |
| `Deflate.StoredAgreesIff` | 3rdparty/libbacktrace/elf.c:1733-1781 | A stored block that the standard decodes is decoded alike by the source exactly if the block's header does not end on a byte boundary; there, whatever bytes it takes for the length, it ends elsewhere or has another output. |
| `StoredBoundary.BoundaryCounterexample` | 3rdparty/libbacktrace/elf.c:1733-1743 | A whole zlib stream that the standard decodes, and that cannot be decoded with the source's rule for stored data. |
| `StoredBoundary.InflateBoundary` | 3rdparty/libbacktrace/elf.c:1643-2334 | Whatever the output buffer, `elf_zlib_inflate` fails on that stream. |
| `Deflate.ZlibAgrees` | 3rdparty/libbacktrace/elf.c:1733-1743 | On a stream in which no stored header ends on a byte boundary the two rules decode alike. |
| `DeflateEncode.ItemsAreRead` | 3rdparty/libbacktrace/elf.c:1962-2110 | Code lengths that were written as lengths, repeats and runs of zeros are decoded to the same lengths. |
| `DeflateEncode.AllReceived` | 3rdparty/libbacktrace/elf.c:1827-1960 | The lengths of the code for code lengths, written in the order 16, 17, 18, 0, 8, 7, 9, 6, 10, 5, 11, 4, 12, 3, 13, 2, 14, 1, 15 and without zeros at the end, are received as the lengths of each symbol. |
| `DeflateEncode.HeaderIsRead` | 3rdparty/libbacktrace/elf.c:1788-2128 | A dynamic header written by RFC 1951, section 3.2.7, is decoded to exactly the code lengths that were written. |
| `DeflateEncode.TokensAreRead` | 3rdparty/libbacktrace/elf.c:2134-2322 | Literals and copies of any length from 3 to 258 and distance from 1 to 32768, written with their symbols and extra bits, are decoded to the output that they stand for. |
| `DeflateStream.StreamIsRead` | 3rdparty/libbacktrace/elf.c:1643-2334 | Any list of stored, fixed and dynamic blocks, written as one zlib stream with either rule for stored data, is decoded to its contents. |
| `DeflateStream.WrittenEitherWay` | 3rdparty/libbacktrace/elf.c:1733-1743 | If no header of a stored block ends on a byte boundary, what is written by the standard is what is written by the rule of the source. |
| `DeflateStream.InflateWritten` | 3rdparty/libbacktrace/elf.c:1643-2334 | A stream so written, shorter than 4 GiB like its contents, is inflated to its contents exactly if the output buffer has their size, every dynamic block has at most 30 distances and room in its tables, and, with the last byte before the checksum at an address divisible by four, the last end-of-block code begins at least seven bits before the checksum. |
| `InflateFits.RefillsIff` | 3rdparty/libbacktrace/elf.c:1048-1092 | With four bytes of checksum at the end, a refill at any position before them succeeds but for the last six bits, and these only if the last byte before the checksum is at an address divisible by four. |
| `InflateFits.LimitsIff` | 3rdparty/libbacktrace/elf.c:1690-2322 | Below 4 GiB blocks are within the limits exactly if the output fits, dynamic blocks have at most 30 distances and room in their tables, and the last end-of-block code begins in time. |
| `InflateFits.StreamLimitsIff` | 3rdparty/libbacktrace/elf.c:1643-2334 | The same for a whole stream that the reference decodes. |
| `InflateFits.CompleteFits` | 3rdparty/libbacktrace/elf.c:1812-1817 | Complete codes for at most 30 distances are within the limits. |
| `InflateFits.LongEndCode` | 3rdparty/libbacktrace/elf.c:2134-2166 | An end-of-block code of seven bits or more before the checksum begins in time. |
| `Inflate.Input.Fetch` | 3rdparty/libbacktrace/elf.c:1048-1092 | Refilling keeps the bit position and the meaning of the buffer; it succeeds exactly if 15 bits are there or four more bytes are left, which for an aligned pointer depends on the bit position alone. |
| `Inflate.Input.Take` | 3rdparty/libbacktrace/elf.c:1804-1810 | Masking and shifting the buffer reads the next bits of the stream and moves past them. |
| `Inflate.Input.Align` | 3rdparty/libbacktrace/elf.c:1694-1701 | Buffering single bytes up to an aligned pointer does not change the bit position. |
| `Inflate.Input.Decode` | 3rdparty/libbacktrace/elf.c:2142-2159 | With a table that decodes a code, the symbol of the reference is returned and exactly its code is consumed. |
| `Inflate.CopyMatch` | 3rdparty/libbacktrace/elf.c:2238-2320 | The memset, the single memcpy and the chunked memcpy of a match all give bytewise LZ77 copying and leave earlier output alone; they are done exactly if the distance and the length pass the tests on `unsigned int` differences. |
| `Inflate.LzCopyAt` | 3rdparty/libbacktrace/elf.c:2238-2320 | Every copied byte equals the byte `dist` places before it, in the output that is being written. |
| `Inflate.LengthTable` | 3rdparty/libbacktrace/elf.c:2178-2210 | The arithmetic for length symbols gives the base and extra bits of the table of RFC 1951, section 3.2.5. |
| `Inflate.DistanceTable` | 3rdparty/libbacktrace/elf.c:2235-2296 | The arithmetic for distance symbols gives the base and extra bits of the same table. |
| `Inflate.InflateSymbol` | 3rdparty/libbacktrace/elf.c:2134-2322 | One literal, match or end of block does to output and position what the reference does; it is refused only if the output does not fit or the end-of-block code is begun too late, and the end of block never in that case. |
| `Inflate.InflateStored` | 3rdparty/libbacktrace/elf.c:1727-1781 | A stored block is checked against its complement and copied; one that the reference decodes succeeds exactly if its length passes the tests on both buffers. |
| `Inflate.ReadLengthCode` | 3rdparty/libbacktrace/elf.c:1827-1960 | The lengths of the code for code lengths are read into the places that the reference gives them, which are those of RFC 1951 by `DeflateEncode.AllReceived`; with the refills it succeeds. |
| `Inflate.ReadCodeLengths` | 3rdparty/libbacktrace/elf.c:1962-2110 | The run-length coded code lengths are those of the reference; with lengths of at most 7 bits and the refills, every list that the reference decodes is read. |
| `Inflate.ReadDynamicHeader` | 3rdparty/libbacktrace/elf.c:1788-2128 | After a dynamic header both tables decode the codes that the header describes; a header that the reference decodes is accepted if it has at most 30 distances, an end-of-block symbol, room in both tables, and the refills, and never without the room or with more distances. |
| `Inflate.InflateBlock` | 3rdparty/libbacktrace/elf.c:1703-2322 | A block of any kind that the reference decodes is inflated to what the reference gives, exactly if it is within the limits. |
| `Inflate.CheckHeader` | 3rdparty/libbacktrace/elf.c:1661-1688 | The header test accepts exactly the headers of RFC 1950 without a preset dictionary. |
| `Inflate.Inflate` | 3rdparty/libbacktrace/elf.c:1643-2334 | A zlib stream that the reference decodes with the source's rule for stored data is inflated exactly if the output buffer has the size of its output and it is within the limits, and then to that output; without a stored header on a byte boundary that is the stream and the output of the standard. A stream with a stored block that the rule refuses never succeeds. |
| `Adler32.UnreducedStep` | 3rdparty/libbacktrace/elf.c:2363-2400 | Up to 5552 bytes after a reduction one more byte overflows neither 32-bit sum and keeps both congruent to the reduced sums. |
| `Adler32.Compute` | 3rdparty/libbacktrace/elf.c:2363-2455 | The sums with postponed remainders are the sums that are reduced after every byte. |
| `Adler32.VerifyChecksum` | 3rdparty/libbacktrace/elf.c:2340-2461 | The test succeeds exactly if the Adler-32 checksum of the data is the one in the four bytes. |
| `Adler32.InflateAndVerify` | 3rdparty/libbacktrace/elf.c:2466-2479 | Success means that the output has the checksum at the end of the input. A zlib stream that the reference decodes succeeds exactly if the output buffer has the size of its output, it is within the limits, and its output has that checksum. |
| `HttpSafety.StepSafe` | 3rdparty/http-parser/http_parser.c:703-2114 | One byte in any state keeps an invariant (chunked flag, counted bytes, lengths, header states, method index) under which none of the source's assertions can fail. |
| `HttpSafety.OnMethodSafe` | 3rdparty/http-parser/http_parser.c:971-1022 | Matching a method name never reads outside the name, also after switching to another method. |
| `HttpActions.DispatchOrderly` | 3rdparty/http-parser/http_parser.c:703-2114 | In every state the marks and callbacks of one byte come in a legal order: at most one data callback is open, and none when another callback is made. |
| `HttpScan.ScanField` | 3rdparty/http-parser/http_parser.c:1256-1385 | The loop over a header name, with its inner loop for names of no interest, leaves the parser that single characters leave. |
| `HttpScan.ScanValue` | 3rdparty/http-parser/http_parser.c:1482-1706 | The loop over a header value does so too, unless it has gone past the size limit, where it skips a byte unseen. |
| `HttpScan.FieldRun` | 3rdparty/http-parser/http_parser.c:1256-1388 | Counting the bytes of a name after the scan is counting each of them. |
| `HttpScan.ValueRun` | 3rdparty/http-parser/http_parser.c:1482-1706 | The same for the bytes of a value. |
| `HttpScan.BodyRun` | 3rdparty/http-parser/http_parser.c:1944-2097 | Passing over many body bytes at once is taking them one by one, and their data is reported as one piece. |
| `HttpRun.RunSplits` | 3rdparty/http-parser/http_parser.c:641-2155 | A run of the byte machine over two buffers is a run over the first and then, if that goes on, over the second. |
| `HttpExecute.HttpParser.Perform` | 3rdparty/http-parser/http_parser.c:80-143 | Setting marks and making callbacks for one byte reports what the byte machine reports, up to data that is still marked. |
| `HttpExecute.HttpParser.SkipField` | 3rdparty/http-parser/http_parser.c:1256-1388 | Scanning a name in the buffer reaches a state of the byte machine's run, or that run fails as well. |
| `HttpExecute.HttpParser.SkipValue` | 3rdparty/http-parser/http_parser.c:1482-1706 | The same for a value, also when the scan goes past the size limit. |
| `HttpExecute.HttpParser.SkipBody` | 3rdparty/http-parser/http_parser.c:1944-2097 | The same for the bytes of a body. |
| `HttpExecute.HttpParser.Leftovers` | 3rdparty/http-parser/http_parser.c:2122-2146 | At most one mark is set at the end of a call, and its data is delivered. |
| `HttpExecute.HttpParser.ExecuteEnd` | 3rdparty/http-parser/http_parser.c:664-683 | What an empty buffer, the end of the input, does in each state. |
| `HttpExecute.HttpParser.Execute` | 3rdparty/http-parser/http_parser.c:641-2155 | A call succeeds exactly if the byte machine does; then the parser, the bytes used and the joined events are those of the machine. If it fails, the events are those of the machine up to the byte that it refuses, but for data that is still marked, and no fewer bytes are used than came before that byte. The invariant is kept, so no assertion fails. |
| `HttpExecute.SplitChangesNothing` | 3rdparty/http-parser/http_parser.c:641-2155 | Without an upgrade, handing over the input in any non-empty pieces succeeds exactly if one call does, and leaves the same parser fields and the same events once adjacent data of a kind is joined. |
| `HttpMethods.MethodExact` | 3rdparty/http-parser/http_parser.c:927-1022 | Although only a method and an index are kept, a word at the start of a request is accepted exactly if it is the name of a method, and that is the method reported. |
| `HttpClasses.Classes` | 3rdparty/http-parser/http_parser.c:193-290 | The tables and macros for letters, token characters, characters of URLs, user information and hosts, and header values hold exactly the characters in their lists. |
| `HttpClasses.Lowering` | 3rdparty/http-parser/http_parser.c:193-222 | Each of the 26 capital letters of a name is taken for the small letter at the same place of the alphabet. |
| `HttpClasses.TokenItself` | 3rdparty/http-parser/http_parser.c:193-222 | Every other token character stands for itself. |
| `HttpClasses.NoHexDigit` | 3rdparty/http-parser/http_parser.c:224-233 | Exactly the sixteen hexadecimal digits, with letters of either case, have a value. |
| `HttpNames.NameRecognised` | 3rdparty/http-parser/http_parser.c:1206-1373 | Matching a header name character by character gives what comparing the whole name, ignoring case, with the special names gives. |
| `HttpNames.NameMeaning` | 3rdparty/http-parser/http_parser.c:1206-1373 | A name is special exactly if it is one of the special names; the second way of noticing a transfer encoding agrees with the first exactly if the name does not go on after `transfer-encoding`. |
| `HttpNames.EncodingCounterexample` | 3rdparty/http-parser/http_parser.c:1339-1367 | A name that goes on after `transfer-encoding`, and marks the message all the same. |
| `HttpLists.ListHeard` | 3rdparty/http-parser/http_parser.c:1611-1690 | Reading the value of a Connection header character by character, from any element on, sets the flags of exactly the options that are heard, in terms of the elements between commas. |
| `HttpLists.ConnectionHeard` | 3rdparty/http-parser/http_parser.c:1408-1794 | For every value that is a list, however its elements look, the flags afterwards are those before and those of the options heard. |
| `HttpLists.PlainListHeard` | 3rdparty/http-parser/http_parser.c:1611-1690 | Of a list in which no element is blank, starts with no token character or is only the beginning of an option, exactly the options in it are heard. |
| `HttpLists.BegunCounterexample` | 3rdparty/http-parser/http_parser.c:1632-1665 | An option after an element that only begins another option is not heard. |
| `HttpLists.EmptyCounterexample` | 3rdparty/http-parser/http_parser.c:1455-1466 | An option after an empty first element is not heard. |
| `HttpEncodings.EncodingHeard` | 3rdparty/http-parser/http_parser.c:1408-1794 | For every value of Transfer-Encoding that is a list, the message is chunked afterwards exactly if the last element is heard as `chunked`. |
| `HttpEncodings.PlainEncodingHeard` | 3rdparty/http-parser/http_parser.c:1578-1610 | With `chunked` only at the end, and nothing blank or begun before it, it is heard exactly if the last element is `chunked`. |
| `HttpEncodings.ChunkCounterexample` | 3rdparty/http-parser/http_parser.c:1598-1610 | `chunked` after an element that only begins it is not heard. |
| `HttpRequest.UrlRead` | 3rdparty/http-parser/http_parser.c:1024-1095 | An accepted URL is reported as one piece. |
| `HttpRequest.LineReported` | 3rdparty/http-parser/http_parser.c:1206-1794 | A header line with an ordinary name is reported as exactly its name and its value, which may be empty. |
| `HttpRequest.RequestRoundTrip` | 3rdparty/http-parser/http_parser.c:927-1942 | For any method, accepted URL, version and lines with ordinary names, the text of the request is reported as exactly these, then the end of the headers and of the message; the parser refuses the request exactly if it is no CONNECT and some name goes on after `transfer-encoding`. |
| `HttpHead.HeadLineReported` | 3rdparty/http-parser/http_parser.c:1206-1794 | Any header line, ordinary or one of Content-Length, Transfer-Encoding, Connection, Proxy-Connection and Upgrade, is reported as its name and value, and the parser remembers its length, encoding and options. |
| `HttpHead.HeadReported` | 3rdparty/http-parser/http_parser.c:1206-1794 | The same for any lines with at most one length. |
| `HttpStatus.StatusLineRead` | 3rdparty/http-parser/http_parser.c:715-925 | A status line is reported as the beginning of a message and its reason, and leaves its version and status in the parser. |
| `HttpStatus.RequestStarts` | 3rdparty/http-parser/http_parser.c:729-770 | A parser for both kinds of message goes on as one for requests after any first byte but `H`. |
| `HttpStatus.EitherStarts` | 3rdparty/http-parser/http_parser.c:729-770 | After `H` a `T` leads it where it leads a parser for responses, and an `E` where it leads one for requests, with the same callbacks. |
| `HttpMessage.FramingIff` | 3rdparty/http-parser/http_parser.c:1795-1990 | The parser frames a message as section 3.3.3 of RFC 7230 does exactly if it is not a response with a status 1xx, 204 or 304 that tells of a body all the same. |
| `HttpMessage.KeepAliveIff` | 3rdparty/http-parser/http_parser.c:2159-2204 | When the headers are over, the connection stays open exactly if version and Connection header allow it and the body does not run to the end of the connection. |
| `HttpMessage.MessageRoundTrip` | 3rdparty/http-parser/http_parser.c:703-2116 | A request or response, with any header lines and with the body that its headers frame — none, of a given length, in chunks, or to the end of the connection — is reported as its start, its lines, the end of the headers, its body and the end of the message once, taking exactly its bytes, and leaves the parser at the next message; one whose framing is contradictory or refused fails. |
| `HttpMessage.MessagesReported` | 3rdparty/http-parser/http_parser.c:703-2116 | Messages that follow each other on a connection are reported one after another, no byte of one being taken for another. |
| `HttpTolerance.BareLineFeed` | 3rdparty/http-parser/http_parser.c:889-1942 | In every place where a line of a head may end, a line feed alone does what CR and LF do, with the same callbacks. |
| `HttpTolerance.PassesOver` | 3rdparty/http-parser/http_parser.c:703-2048 | Empty lines before a message, more blanks in its first line and before a value, and what follows the size of a chunk, change nothing but the counter. |
| `HttpTolerance.SimpleRequest` | 3rdparty/http-parser/http_parser.c:1059-1083 | A request line that ends after its URL is one of HTTP/0.9. |
| `HttpTolerance.IceForHttp` | 3rdparty/http-parser/http_parser.c:1097-1145 | `ICE/` is taken for `HTTP/` in a SOURCE request, and in no other. |
| `HttpTolerance.FoldedReported` | 3rdparty/http-parser/http_parser.c:1695-1794 | A line that begins with a blank goes on with the value of the ordinary line before: what is reported is both without the line end. |
| `HttpTolerance.FoldedEmpty` | 3rdparty/http-parser/http_parser.c:1754-1794 | After a value without characters so far such a line begins the value. |
| `HttpChunks.ContentLengthExact` | 3rdparty/http-parser/http_parser.c:1542-1570 | After any digits of a Content-Length the length is exactly their value or has been refused, and never the value that means no length. |
| `HttpChunks.ChunkSizeExact` | 3rdparty/http-parser/http_parser.c:1996-2048 | After any hexadecimal digits of a chunk size the length is exactly their value, or the run ends in an error; it ends in none while the limits are kept. |
| `HttpChunks.ChunksReported` | 3rdparty/http-parser/http_parser.c:1996-2116 | Chunks of any sizes and data, with any extensions, are reported one by one with exact sizes and data. |
| `HttpTrailers.ChunksRoundTrip` | 3rdparty/http-parser/http_parser.c:1795-2116 | A body cut into any chunks and encoded by section 4.1 of RFC 7230, with extensions and a trailer, is reported chunk by chunk, then trailer line by trailer line, then as the end of the message once. |
| `HttpUrl.ReadPort` | 3rdparty/http-parser/http_parser.c:2516-2538 | The port is the exact value of its digits, given up as soon as it passes 65535. |
| `HttpUrl.FieldsTile` | 3rdparty/http-parser/http_parser.c:2422-2543 | The fields of an accepted URL are in bounds, disjoint and in the order schema, userinfo, host, port, path, query, fragment; every byte outside them is one of the delimiters; the port is the value of its digits. |
| `HttpUrlGrammar.PartsAreRead` | 3rdparty/http-parser/http_parser.c:2422-2543 | A URL put together from parts over their own character classes, with any part left out that may be absent, is accepted with exactly the ranges of its parts and the value of its port, unless that is above 65535 or a CONNECT has more than host and port. |
| `HttpUrlParts.AcceptedIsUrl` | 3rdparty/http-parser/http_parser.c:2422-2543 | Every URL that is accepted is the text of such parts: `://` after the schema, `@` after the user information, `:` before the port, `?` before the query and `#` before the fragment. |
| `HttpUrlParts.UrlReadIff` | 3rdparty/http-parser/http_parser.c:2422-2543 | So exactly the texts of the grammar are accepted, with the places of their parts. |
| `HttpUrl.ParseHost` | 3rdparty/http-parser/http_parser.c:2335-2415 | The loop over the host sets userinfo, host and port as the state machine says. |
| `HttpUrl.ParseUrl` | 3rdparty/http-parser/http_parser.c:2422-2543 | The loop with its current field gives exactly what the passes of the two machines define, and accepts exactly when they do. |
| `ChildList.Parent.GetItem` | 3rdparty/cJSON/cJSON.c:1845-1862 | Walking along the list gives the item at an index, or null past the end. |
| `ChildList.Parent.Add` | 3rdparty/cJSON/cJSON.c:1950-1981 | On a list in order, appends to the sequence of children and keeps the links, the last next null and the head's prev at the tail. With a head whose prev is stale: nothing is added if it is null, and if it is an item, the new item follows that one and all behind it are lost. |
| `ChildList.Parent.Insert` | 3rdparty/cJSON/cJSON.c:2257-2284 | Inserts at an index, or appends past the end, and keeps the links. |
| `ChildList.Parent.Detach` | 3rdparty/cJSON/cJSON.c:2181-2215 | Removes exactly that item from the sequence, keeps the links and clears those of the item. |
| `ChildList.Parent.ReplaceItem` | 3rdparty/cJSON/cJSON.c:2286-2333 | Replaces exactly that item, keeps the links and clears those of the old item. |
| `ChildList.LinkLast` | 3rdparty/cJSON/cJSON.c:1479-1491 | One more node at the end of a list that is being built keeps its links. |
| `ChildTree.GrowNew` | 3rdparty/cJSON/cJSON.c:1468-1500 | A new node with the list of its own children goes to the end of a list that is being built; no other node is touched. |
| `ChildTree.Duplicate` | 3rdparty/cJSON/cJSON.c:2682-2763 | A duplicate consists of new nodes only, none of them in two places, with every list at every depth correctly linked, and stands for the same document; without recursion it has no children. Nothing of the original changes. |
| `ChildSort.TestSorted` | 3rdparty/cJSON/cJSON_Utils.c:491-506 | The walk over neighbours tells whether the list is in strictly increasing order. |
| `ChildSort.FindMiddle` | 3rdparty/cJSON/cJSON_Utils.c:508-521 | The two pointers end at the middle of the list. |
| `ChildSort.MergeLists` | 3rdparty/cJSON/cJSON_Utils.c:533-590 | Relinks the items of two lists into the merge of their keys, without losing or adding one. |
| `ChildSort.SortItems` | 3rdparty/cJSON/cJSON_Utils.c:484-593 | Relinks exactly the items of the list, in the order of the merge sort; the prev of the first item is as it was if that was the first one before, and otherwise null. |
| `ChildSort.SortObject` | 3rdparty/cJSON/cJSON_Utils.c:595-602 | The object's children are the sorted items, properly linked but for the prev of the first one. |
| `ChildSort.SortThenAdd` | 3rdparty/cJSON/cJSON.c:1950-1981 | Appending an item after sorting gives the sorted items and the new one exactly if the first and the last item have kept their places. |
| `JsonSort.SortPermutes` | 3rdparty/cJSON/cJSON_Utils.c:484-593 | The merge sort gives a permutation of the members. |
| `JsonSort.SortSorts` | 3rdparty/cJSON/cJSON_Utils.c:484-593 | Members with distinct keys come out in strictly increasing order, with or without regard to case. |
| `JsonCompare.CompareDecides` | 3rdparty/cJSON/cJSON_Utils.c:604-690 | On documents with distinct keys `compare_json` is true exactly if they are equal up to the order of members. |
| `JsonTree.ToleranceSeparates` | 3rdparty/cJSON/cJSON_Utils.c:112-116 | The comparison of numbers is symmetric, also under a change of sign, separates zero from all others and numbers of different sign, and is never true of two that differ by more than the larger magnitude divided by 2^52. |
| `JsonReorder.ReorderedAlike` | 3rdparty/cJSON/cJSON_Utils.c:596-690 | Sorting objects in place as it goes, down to the first difference, `compare_json` changes nothing in either document but the order of members. |
| `JsonReorder.MatchesAlike` | 3rdparty/cJSON/cJSON_Utils.c:604-690 | Whether two documents match does not depend on the order of their members. |
| `JsonPointer.ComparesEscaped` | 3rdparty/cJSON/cJSON_Utils.c:120-154 | `compare_pointers` accepts a name exactly if the token is its escaped form (RFC 6901, section 4). |
| `JsonPointer.DecodesDecimal` | 3rdparty/cJSON/cJSON_Utils.c:274-299 | The index decoder reads back every index that fits, whatever token follows. |
| `JsonIndex.IndexReadIff` | 3rdparty/cJSON/cJSON_Utils.c:274-299 | An index is read exactly from a token that is empty, or begins with a digit, goes on with characters not below the digit zero and has no leading zero; it is the number that they make, modulo 2^64. |
| `JsonIndex.DigitsReadIff` | 3rdparty/cJSON/cJSON_Utils.c:274-299 | On tokens of digits that is what RFC 6901 asks for: decimal without leading zeros. |
| `JsonIndex.LetterCounterexample` | 3rdparty/cJSON/cJSON_Utils.c:285 | Letters after a digit are taken for digits, and the empty token for zero, because the loop tests the first character again and again. |
| `JsonPointer.TokenFindsChild` | 3rdparty/cJSON/cJSON_Utils.c:301-346 | The token of a child selects that child and no other. |
| `JsonPointer.PointerRoundTrip` | 3rdparty/cJSON/cJSON_Utils.c:301-346 | Following the pointer to a node leads back to that node, with `~` and `/` in keys. |
| `JsonPointer.FindThenGet` | 3rdparty/cJSON/cJSON_Utils.c:198-259 | The search for a node finds its pointer, and following that pointer case-sensitively returns the node. |
| `JsonPatch.PatchRoundTrip` | 3rdparty/cJSON/cJSON_Utils.c:1094-1132 | An operation that `compose_patch` writes is read back as the same operation. |
| `JsonPatch.ReadsOperation` | 3rdparty/cJSON/cJSON_Utils.c:742-781 | An operation in the form of RFC 6902, its members in any order, is read as the operation, path, value and source that it names. |
| `JsonPatch.ApplyConcat` | 3rdparty/cJSON/cJSON_Utils.c:1065-1092 | Applying two lists of operations in a row is applying their concatenation, up to the first failure. |
| `JsonPatch.TestDecides` | 3rdparty/cJSON/cJSON_Utils.c:832-837 | A `test` succeeds exactly if the path leads to a node that matches the value; apart from the order of members, the document stays as it is. |
| `JsonDiff.DiffPrefix` | 3rdparty/cJSON/cJSON_Utils.c:1139-1277 | The operations for a node below a path are those for the node as a root, with the path in front. |
| `JsonEdit.ApplyAllBelow` | 3rdparty/cJSON/cJSON_Utils.c:807-1034 | Operations whose paths go through a child change that child as if it were the document, and nothing else. |
| `JsonEdit.RemoveItem` | 3rdparty/cJSON/cJSON_Utils.c:887-903 | Removing an array element by its path removes that element. |
| `JsonEdit.ReplaceItem` | 3rdparty/cJSON/cJSON_Utils.c:887-1002 | Replacing an array element by its path puts the value in its place. |
| `JsonEdit.SurvivesIff` | 3rdparty/cJSON/cJSON_Utils.c:359-390 | A key comes back from being escaped and decoded in place exactly if it has no `/` and, in each place without a `~`, the escaped key has the same character; a key with a `/` never does. |
| `JsonEdit.RemovesItselfIff` | 3rdparty/cJSON/cJSON_Utils.c:430-467 | Removing a member by its path removes that member exactly if its key survives, up to case, and no earlier key is the same up to case. |
| `JsonEdit.AddsItselfIff` | 3rdparty/cJSON/cJSON_Utils.c:359-390 | Adding a member by its path adds a member of that name exactly if the key survives, which is never so with a `/` in it. |
| `JsonEdit.PlainKeySurvives` | 3rdparty/cJSON/cJSON_Utils.c:359-390 | Keys without `~` and `/` survive. |
| `JsonEdit.CaseCounterexample` | 3rdparty/cJSON/cJSON_Utils.c:430-467 | With keys that differ only in case, removing the second removes the first. |
| `JsonEdit.TildeCounterexample` | 3rdparty/cJSON/cJSON_Utils.c:359-390 | A key with text after `~` comes back from its path as another key. |
| `JsonDiffApply.DiffShape` | 3rdparty/cJSON/cJSON_Utils.c:1139-1277 | A difference is the replacement of the whole node if the types or the scalar values differ, and otherwise only works below it. |
| `JsonDiffApply.ItemsGo` | 3rdparty/cJSON/cJSON_Utils.c:1168-1211 | By RFC 6902 the difference of two arrays gives elements that match, in order and number; apply_patch follows it in every step exactly if the pairs of elements are patchable. |
| `JsonDiffApply.MembersGo` | 3rdparty/cJSON/cJSON_Utils.c:1213-1272 | By RFC 6902 the difference of two sorted member lists gives exactly the target's keys with matching values; apply_patch follows it in every step exactly if the paths of all keys that are still to come reach their members when it is their turn. |
| `JsonDiffApply.DiffIsRight` | 3rdparty/cJSON/cJSON_Utils.c:1139-1277 | By RFC 6902 the operations that create_patches writes turn every readable source into the target, for all keys. |
| `JsonDiffApply.FollowsIff` | 3rdparty/cJSON/cJSON_Utils.c:807-1034 | apply_patch does in each of these operations what RFC 6902 asks for exactly if the keys that are added, removed or replaced survive in a path, and each earlier key that is the same up to case has been removed or replaced before. |
| `JsonDiffApply.DiffApplies` | 3rdparty/cJSON/cJSON_Utils.c:1139-1277 | On these documents, applying all operations of the difference succeeds and gives a document that matches the target; nothing is asked of keys that stay. |
| `JsonDiffApply.ChanceExample` | 3rdparty/cJSON/cJSON_Utils.c:430-467 | From a source with `a` and `A` both are removed although each removal takes the other one. |
| `JsonPatchable.PlainIsPatchable` | 3rdparty/cJSON/cJSON_Utils.c:1139-1277 | All documents without `~` and `/` in keys, and without two keys of an object that differ only in case, are such documents. |
| `JsonPatchable.ProperIsReadable` | 3rdparty/cJSON/cJSON_Utils.c:1139-1277 | Every source without two equal keys in an object, and with arrays that a size_t can index, is readable for every target. |
| `JsonPatchable.EditableStep` | 3rdparty/cJSON/cJSON_Utils.c:430-467 | When one key is done, the others are reached exactly if they were to be reached before: a key that goes no longer stands in the way, one that stays does. |
| `JsonRfc6902.PerformBelow` | 3rdparty/cJSON/cJSON_Utils.c:301-346 | An operation on a path through a child is, by the RFC, the operation on that child. |
| `JsonRfc6902.ReplacesItselfIff` | 3rdparty/cJSON/cJSON_Utils.c:887-1015 | Replacing a member by its path puts a new one with its name at the end instead, exactly if the key survives and no earlier key is the same up to case. |
| `JsonMove.Detaches` | 3rdparty/cJSON/cJSON_Utils.c:430-467 | By the RFC the node at any place but the root is found by its pointer and removed; the source detaches exactly that node, and leaves exactly that document, if and only if every key on the way is reached. |
| `JsonMove.Adds` | 3rdparty/cJSON/cJSON_Utils.c:1003-1034 | By the RFC a value is added at any place; the source does the same exactly if the name of a new member survives. |
| `JsonMove.CopiesIff` | 3rdparty/cJSON/cJSON_Utils.c:904-960 | `copy` between any two places does what section 4.5 of RFC 6902 asks for exactly if the name of a new member survives. |
| `JsonMove.MovesIff` | 3rdparty/cJSON/cJSON_Utils.c:904-960 | `move` between any two places, not into itself, takes out and puts in what section 4.4 asks for exactly if the pointer of the first reaches its node and the name of a new member survives. |
| `JsonMove.MovesItselfIff` | 3rdparty/cJSON/cJSON_Utils.c:904-960 | `move` gives a member of an object another name exactly if its path reaches it and the new name survives. |
| `JsonFailures.WholeReplaced` | 3rdparty/cJSON/cJSON_Utils.c:839-885 | `add` and `replace` of the whole document do what RFC 6902 asks for, and fail where it does. |
| `JsonFailures.WholeNeverMoved` | 3rdparty/cJSON/cJSON_Utils.c:839-1034 | A value can neither be copied nor moved to the place of the whole document, which by the RFC it can; removing the whole document succeeds. |
| `JsonFailures.FailureLeaves` | 3rdparty/cJSON/cJSON_Utils.c:807-1034 | An operation that fails leaves the document as it was, unless a `replace` or `move` has already taken out a value: then without that value. |
| `JsonCreate.PatchArray.CreatePatches` | 3rdparty/cJSON/cJSON_Utils.c:1139-1277 | The loops of `create_patches` append exactly the operations of the difference, as JSON. |
| `JsonCreate.GenerateAndApply` | 3rdparty/cJSON/cJSON_Utils.c:1036-1307 | Generating patches and applying them, through their JSON form, to a fresh duplicate of the source returns 0 and a document that matches the target. |
| `JsonMerge.MergeMembersKeys` | 3rdparty/cJSON/cJSON_Utils.c:1336-1374 | What the merged object says about each key, with keys kept distinct. |
| `JsonMerge.MergeIsRfc7396` | 3rdparty/cJSON/cJSON_Utils.c:1319-1376 | With distinct keys `merge_patch` is the function of RFC 7396, section 2. |
| `JsonMerge.CompareIgnoringCase` | 3rdparty/cJSON/cJSON_Utils.c:604-690 | With lower-case keys the comparison does not depend on how case is treated. |
| `JsonMerge.GenerateMembersKeys` | 3rdparty/cJSON/cJSON_Utils.c:1403-1455 | What a generated patch says about each key: remove, add, merge, or nothing. |
| `JsonMerge.MergeIntoNothing` | 3rdparty/cJSON/cJSON_Utils.c:1319-1376 | Merging a document into nothing gives that document exactly if it has no null members. |
| `JsonMerge.GenerateOutcome` | 3rdparty/cJSON/cJSON_Utils.c:1403-1455 | What merging the generated patch makes of each key, in whatever order the two lists are: a key that is added before it is removed is lost. |
| `JsonMerge.GenerateInverts` | 3rdparty/cJSON/cJSON_Utils.c:1388-1464 | Merging the generated patch into a fresh duplicate of the source gives the target, and no patch means that they match, exactly if at every level, in the order that the earlier comparisons have left, no key is added while the source still has it, values taken to be equal ignoring case are equal, and no null has to be added. |
| `JsonMerge.LoweredInvertible` | 3rdparty/cJSON/cJSON_Utils.c:1388-1464 | This is so for lower-case keys, which are not needed at a root that is sorted case-sensitively, and targets without null members. |
| `JsonMerge.MergeAlike` | 3rdparty/cJSON/cJSON_Utils.c:1319-1376 | Merging a patch into two documents that differ in the order of members gives documents that differ in nothing else. |
| `JsonMerge.SortTwice` | 3rdparty/cJSON/cJSON_Utils.c:484-593 | Two keys that are equal ignoring case are exchanged by every sorting that ignores case: sorting twice gives the first order back. |
| `JsonMerge.OrderCounterexample` | 3rdparty/cJSON/cJSON_Utils.c:1403-1455 | Two keys p and q below the root, where strcmp puts p after q and q does not come before p ignoring case: if the target keeps only q, the merged document has lost it. |
| `JsonMerge.NestedCounterexample` | 3rdparty/cJSON/cJSON_Utils.c:1403-1455 | Members `a` and `A`, or `a` and `B`, are such keys, whichever way the root is treated. |
| `JsonMerge.RunMergePatch` | 3rdparty/cJSON/cJSON_Utils.c:1319-1376 | The loop over the patch computes that function. |
| `JsonMerge.RunGenerateMerge` | 3rdparty/cJSON/cJSON_Utils.c:1388-1464 | The loop along both sorted lists computes that patch, going on below with what `compare_json` has left of the two values. |
| `JsonStrings.EstimateSuffices` | 3rdparty/cJSON/cJSON.c:767-868 | For every literal that has an end, also one that the second pass refuses halfway, the size that the first pass allocates is more than what the second pass writes, even where they disagree on escapes. |
| `JsonLiterals.Utf8Means` | 3rdparty/cJSON/cJSON.c:700-745 | The bytes written for a Unicode scalar value are its UTF-8 form: decoding them gives the value back. |
| `JsonLiterals.LiteralIsRead` | 3rdparty/cJSON/cJSON.c:609-880 | Any literal made of plain characters, the eight two-character escapes of RFC 8259, section 7, and `\u` escapes and surrogate pairs with digits of either case is read as the characters that these stand for. |
| `JsonLiterals.LiteralReadIff` | 3rdparty/cJSON/cJSON.c:609-880 | If every `\u` is followed by four hexadecimal digits, a literal is read exactly if it is such a text, and then as what that means. |
| `JsonLiterals.DigitsCounterexample` | 3rdparty/cJSON/cJSON.c:609-640 | Without that it is read as well: what are no digits count as zero. |
| `JsonNumbers.NumberEndIs` | 3rdparty/cJSON/cJSON.c:318-352 | The text that is read as a number goes on as long as there are digits, signs, exponents and points, up to 63 of them. |
| `JsonNumbers.SaturateIs` | 3rdparty/cJSON/cJSON.c:357-369 | The integer beside a number is the number without its fraction, or the bound of `int` that it has passed. |
| `JsonStrings.StringRoundTrip` | 3rdparty/cJSON/cJSON.c:896-1015 | A printed string is read back as it was. |
| `JsonText.PrintThenParse` | 3rdparty/cJSON/cJSON.c:1306-1819 | Printing and then parsing is the identity, formatted or not, for numbers that round trip and nesting up to 1000. |
| `JsonPrint.PrintBuffer.Ensure` | 3rdparty/cJSON/cJSON.c:435-520 | Makes room for what is asked and one byte more, keeps what was written, and succeeds exactly if there is room or the buffer may grow within INT_MAX. |
| `JsonPrint.PrintBuffer.UpdateOffset` | 3rdparty/cJSON/cJSON.c:523-533 | Goes to the end of the text that was printed last. |
| `JsonPrint.PrintBuffer.PrintStringPtr` | 3rdparty/cJSON/cJSON.c:896-1015 | The first pass counts exactly the room that the escaped string takes, and the second fills it within the buffer. |
| `JsonPrint.PrintBuffer.PrintArray` | 3rdparty/cJSON/cJSON.c:1533-1592 | Writes the text of an array within the buffer and restores the depth. |
| `JsonPrint.PrintBuffer.PrintObject` | 3rdparty/cJSON/cJSON.c:1708-1819 | Writes the text of an object within the buffer and restores the depth. |
| `JsonPrint.PrintBuffer.PrintValue` | 3rdparty/cJSON/cJSON.c:1361-1432 | Whatever the buffer is, success means that it holds the item's text and a terminator after what was there; a buffer that may grow leads to success. |
| `JsonPrint.Print` | 3rdparty/cJSON/cJSON.c:1181-1304 | From any initial buffer: what is printed, if anything, is the text, and parsing it gives the item back; a buffer that may grow leads to success. |
| `JsonParse.ParseBuffer.SkipWhitespace` | 3rdparty/cJSON/cJSON.c:1032-1055 | Skips white space, and steps back to the last byte at the end of the buffer. |
| `JsonParse.ParseBuffer.CopyLiteral` | 3rdparty/cJSON/cJSON.c:800-868 | The second pass writes the specified bytes into the memory that was allocated, and never outside it, also when it fails halfway. |
| `JsonParse.ParseBuffer.ParseStringHere` | 3rdparty/cJSON/cJSON.c:767-893 | The two loops over a literal find its end and its bytes as specified, within the allocated size. |
| `JsonParse.ParseBuffer.ParseElements` | 3rdparty/cJSON/cJSON.c:1467-1517 | The loop over the elements of an array reads exactly the specified elements, or fails where they are malformed, and leaves them in a list of new nodes that is correctly linked, like every list below it. |
| `JsonParse.ParseBuffer.ParseMemberList` | 3rdparty/cJSON/cJSON.c:1625-1693 | The loop over the members of an object reads exactly the specified members, or fails where they are malformed, and leaves them in a list of new nodes that is correctly linked, like every list below it. |
| `JsonParse.ParseBuffer.ParseItem` | 3rdparty/cJSON/cJSON.c:1306-1358 | The recursive parser succeeds exactly when the specification does, with the same offset, and restores the depth; its node and the tree of new nodes below it stand for the specified item, with every list correctly linked and nothing shared. |
| `JsonParse.ParseText` | 3rdparty/cJSON/cJSON.c:1058-1172 | `cJSON_Parse` returns a new, correctly linked tree that stands for the specified document, or nothing exactly if there is none. |
| `LockFreeList.StepKeeps` | 3rdparty/libbacktrace/dwarf.c:4242-4275 | Every atomic step of every thread keeps the pointers in the shape of one list and only ever extends it at its end. |
| `LockFreeList.NothingIsLost` | 3rdparty/libbacktrace/elf.c:650-688 | In every reachable state the list has no cycle or repetition, and a node is in it exactly if the compare-and-swap of some thread has put it there. |
| `LockFreeList.ReaderSeesAll` | 3rdparty/libbacktrace/dwarf.c:4138-4153 | A reader that comes to NULL has seen the whole list, and so every node that was appended before it began. |
| `LockFreeList.FailureMeansProgress` | 3rdparty/libbacktrace/dwarf.c:4268-4270 | A compare-and-swap fails exactly if another thread has appended since this one saw NULL. |
| `LockFreeList.NeverStuck` | 3rdparty/libbacktrace/elf.c:719-732 | Every thread that has not finished can always take its next step. |
| `Publication.StepKeeps` | 3rdparty/libbacktrace/dwarf.c:3961-4016 | Every atomic step keeps the fields that have been stored good, and all of them good once `lines` is set. |
| `Publication.PublicationIsSafe` | 3rdparty/libbacktrace/dwarf.c:3937-4016 | A thread that has a pointer to lines reads the line count, function count and function table that belong to them. |
| `Publication.LinesLastIff` | 3rdparty/libbacktrace/dwarf.c:3991-4013 | Over all orders of the four stores, publishing is safe for all runs exactly if `lines` is stored last. |
| `Publication.TableMayChangeHands` | 3rdparty/libbacktrace/dwarf.c:4077-4096 | Two reads of the function table pointer by one thread may give two blocks, with the same contents. |
| `Leb128.UnsignedRoundTrip` | 3rdparty/libbacktrace/dwarf.c:956-987 | The bytes of an unsigned LEB128 number mean that number. |
| `Leb128.SignedRoundTrip` | 3rdparty/libbacktrace/dwarf.c:991-1025 | The bytes of a signed LEB128 number mean that number. |
| `Leb128.DwarfBuf.ReadUleb128` | 3rdparty/libbacktrace/dwarf.c:956-987 | Reads the number modulo 2^64, reports an overflow exactly for more than ten bytes, and reads back every encoded 64-bit number. |
| `Leb128.DwarfBuf.ReadSleb128` | 3rdparty/libbacktrace/dwarf.c:991-1025 | Reads every number that a signed 64-bit word can hold, with its sign. |

## Left out

- Inflate.Inflate: concatenated zlib streams are modelled by the loop but specified for one stream only, and nothing is said of input that the reference does not decode, but for stored blocks.
- Inflate.Inflate: the source's memory is taken to be readable up to three bytes past the input, as its alignment loops need, and the work space is three arrays where the source divides one block.
- FixedTables.FixedTablesDecode: the two fixed tables are given by a formula for their cells, not by their list of literals.
- HttpExecute.HttpParser.Execute: the error code of a failing call may differ from the machine's, because the scanning loops look further before they count; buffers and header limits are together below 2^32, so that the byte counter does not wrap.
- HttpExecute.SplitChangesNothing: runs that lead to an upgrade are left out, because the caller takes over from there.
- HttpExecute.HttpParser.SkipBody: passes over all bytes but the last, which the ordinary step then takes, where the source moves the pointer past all and goes back one.
- HttpMachine.Settings: callbacks other than on_headers_complete return 0 and do not pause or change the parser; lenient headers and the allowance for chunked bodies with a length are fields of the parser.
- HttpRequest.RequestRoundTrip: one space on each side of the URL and after the colon, no folded lines, a parser that is not lenient, and on_headers_complete returning 0.
- HttpLists.ConnectionHeard: one line that is not folded, with a parser that is not lenient.
- HttpUrl.ParseUrl: offsets are natural numbers; the source's 16-bit fields hold them for URLs below 65536 bytes.
- JsonTree.Matches: numbers are exact reals, compared with the source's tolerance; rounding of the comparison itself is not modelled, nor are raw and reference items.
- JsonPatch.Apply: documents are values, so that the list links that a `test` leaves behind in the objects it sorts are not modelled: a later `add` to such an object can lose members with status 0, as in `{"b":1,"a":2}` with `test` of the whole against `{"a":2,"b":1}` and then `add` of `/c`, which adds nothing; `ChildSort.SortThenAdd` has the exact condition, and no difference writes a `test`. What a `test` sorts in the patch itself is not modelled either; a `move` whose `from` is not a string, which the source does not survive, fails with status 5.
- JsonMerge.GenerateMerge: the model returns the patch, not the two documents, whose objects the source leaves sorted. Merging is into a fresh duplicate, of either order, which gives the same document (`JsonMerge.MergeAlike`); in the sorted document itself the first item's prev is stale, so that appending to it can lose members (`ChildSort.SortThenAdd`).
- JsonDiff.Diff: create_patches sorts the objects that it visits; the model returns the operations only. Patches are applied to a duplicate that was made before.
- JsonDiffApply.DiffApplies: the condition is exact for every operation doing what it names (`JsonDiffApply.FollowsIff`), but the target can also be reached by operations that are wrong in ways that make up for each other, as in `JsonDiffApply.ChanceExample`.
- JsonRfc6902.Performed: has the operations that change a document, in the order of members that cJSON keeps, where RFC 6902 has none; `test` is in `JsonPatch.TestDecides`.
- JsonMove.MovesIff: a `move` whose two steps are both wrong in ways that make up for each other is not excluded; for members of one object it is (`JsonMove.MovesItselfIff`).
- HttpMessage.MessageRoundTrip: a message that asks for an upgrade, after which the caller takes over, is left out, and so are folded lines and a parser that is lenient.
- JsonText.PrintThenParse: writing and reading of numbers is a parameter with the hypothesis that it round trips; locale and rounding are not modelled.
- JsonParse.ParseBuffer: the input is a C string with its terminator; a node is linked when its value has been read, where the source links it before. Printing, patches and merging work on documents as values, not on linked nodes.
- LockFreeList.StepKeeps: memory is sequentially consistent; weaker orders are not modelled.
- Publication.PublicationIsSafe: all threads read the same information for a unit, or all fail.
- Opening ELF files, memory mapping, symbol lookup, CRC-32 and the DWARF line program are not modelled.
- cJSON's minifier, number formatting and allocation hooks are not modelled.
- The scripts under `tools/` and the configuration under `web/` are not modelled.
