# hcpp: relay, name resolution and endpoint leases in Dafny

hcpp is an HTTP and HTTPS forwarding proxy. This project models the parts of it that carry
state across reads, calls and coroutines, and proves what they promise: that bodies are relayed
byte for byte however the network splits them, that DNS names and answers are read as they were
written, that a host is looked up by one coroutine at a time and every waiter is answered, and
that an endpoint is leased to one request at a time, first in, first out.

`dafny verify dfyconfig.toml` checks everything.

## How it is put together

| file | what it models |
|---|---|
| `Strings.dfy`, `Seqs.dfy`, `Bytes.dfy`, `Wrappers.dfy` | `string_view` searching and cutting, `size_t` wrap-around, concatenation, bytes, Option |
| `Numerals.dfy`, `Hex.dfy` | numbers as they are written, and the hexadecimal sizes of chunks |
| `Kmp.dfy` | the resumable matcher: failure table, search across chunks, its amortised cost |
| `BlockBuffer.dfy`, `SocketMemory.dfy` | the ordered set of received blocks, as a value and as the object whose methods change it |
| `Transfer.dfy` | `transfer_mem` and `transfer_mem_until` |
| `Closing.dfy` | when `transfer_mem_until` with CRLFCRLF returns at a CRLFCRLF |
| `Chunked.dfy` | `hex_str_to` and `transfer_chunk` (section 3.6.1 of RFC 2616) |
| `Headers.dfy`, `Response.dfy` | header blocks, Content-Length, response heads, and the relay of a whole response |
| `RequestLine.dfy`, `Request.dfy` | the request line, parsed and printed again, and the forwarding of a whole request |
| `Base64Url.dfy` | unpadded base64url (section 5 of RFC 4648) |
| `DnsName.dfy`, `QName.dfy` | names in wire form and back, with compression (sections 3.1 and 4.1.4 of RFC 1035) |
| `DnsBody.dfy`, `DnsMessage.dfy`, `DnsEncode.dfy` | the body of a DNS reply, put together from chunks or not, the parser of DNS messages, and an encoder it is the inverse of |
| `DnsAnswers.dfy` | what is parsed, read again without the parser's own functions: names cut at their dots, addresses digit by digit, labels by their lengths |
| `SingleFlight.dfy` | `slow_dns_imp`: cache, running lookups, waiter channels |
| `LeaseQueue.dfy` | `svc_cache::imp`: endpoint cache and request queues |

A socket is a pending byte string of which each read delivers any nonempty prefix within the
limit, and an append-only string of what was written. `Stream()` is buffered bytes followed by
pending ones, so "the next n bytes" never depends on how they arrive. Where the code does depend on
it, a predicate says how a call can end, in terms of the bytes alone (`Transfer.CanEndUntil`,
`Chunked.CanRelay`): the method ends in one of these ways, and the lemmas that quantify over them
speak of every fragmentation. A coroutine that a lock
serialises is a sequence of atomic steps, one per region under a lock; `Run(steps)` is the state
after any steps of any coroutines in any order, so a lemma about `Run(steps)` speaks of every
interleaving. Each such region is also a method of an object with the source's fields, and
`Interleave` drives the object through any run.

A method whose behaviour depends on what the stream holds takes ghost parameters: any reading of
the stream (as a head and a body, as chunks, as records). Its `ensures` say what happens if that
reading is right; the parameters do not exist at run time.

## What the proofs found

These are places where the code does less than its comments or its purpose suggest. Each is
stated exactly, so the theorems around it hold for the code as it is.

- The buffer's comparators take an `int`: from stream position 2 GiB on the block lookup misses bytes
  that are waiting, always up to 4 GiB and after that by the blocks (`BlockBuffer.VisibleExact`). What
  arrives behind them is then sent first: `transfer_mem` sends the bytes behind the buffered ones
  (`Transfer.TransferMem`). A chunked body that is the whole stream is relayed, however it arrives, exactly
  if its last size line starts below 2 GiB (`Chunked.WholeExactly`), and past it all that is written comes from
  behind the bytes read with a size line (`Chunked.Overtaken`). A response whose first line ends there is sent
  on without its header block, and a body that starts there without the bytes that came with the head; how
  many that can be is `Response.ComesExactly` (`Response.RelayResponse`).
- Once the peer has closed, `transfer_mem` reads nothing for ever when bytes are missing
  (`Transfer.TransferMem` says exactly when), and so does the size-line loop of `transfer_chunk` when all
  that is left is shorter than 18 bytes and has no line end (`Chunked.StallsExactly`). The middle branch of
  `transfer_mem_until` does so only if the last fresh start was the first byte of its read; otherwise it
  returns as if the pattern had come (`Transfer.EndOfStream`). So a chunked body that is cut right after
  its last size line is reported as complete (`Closing.ClosedAfterZero`, `Chunked.CutBodyReturns`).
- `KMP::search` reports "no match" through the index at which it last started afresh. The comments at
  src/untrust/kmp.h:94 and src/hmemory.h:136-137 call this the index where matching failed;
  `Kmp.LastStart` is what it is, and `Transfer.WaitExact` is when `transfer_mem_until` misreads it. A
  pattern that straddles the end of the buffer is reached, however it arrives, exactly if the start was
  at byte 0 or 1 or one byte is missing (`Transfer.StraddleExactly`).
- Hence a chunked body with a trailer can be cut short. `Closing.EndExactly` says for which buffered and
  pending bytes a return means that CRLFCRLF was relayed; `Chunked.ClosedExactly` says it of the whole of
  `transfer_chunk`: unless the last size line is buffered from the start, exactly for bodies without a
  trailer. `Closing.TrailerFails` is the failing fragmentation of each body with one, and
  `Chunked.TrailerStopsEarly` the trailers whose first bytes in the buffer are enough.
- A chunk size with a leading zero reads as the last chunk (`Chunked.SizeReadExactly`), and a size line of
  more than 16 bytes that is not yet buffered is refused (`Chunked.LongLineFails`). A Content-Length of more
  than 11 digits is cut, and one with a leading zero reads as 0 (`Headers.ContentLengthExactly`).
- The comment at src/dns/dnshttps.cc:62-66 says over-long labels are split; the last one is not
  (`DnsName.SplitFits`). One of 64 to 254 bytes is written with a length byte that is not a length, and
  decoding refuses it (`QName.ReadBackExactly`); one of 255 bytes or more keeps the counting loop going for
  ever (`DnsName.EndsExactly`), which only a direct call of `make_query` can reach: src/dns/dnshttps.cc:384
  stops longer names, and names read from a message end with a dot.
- A request line is accepted exactly in a form that is wider than that of section 5.1 of RFC 2616: the
  method, the host and the path may be missing, and the scheme too (`RequestLine.AcceptedExactly`).
- The `Host` line sent to the service names the endpoint asked for exactly if that has no port
  (`Request.HostExactly`; `Request.PortNotTold` is a request for port 8080). Folded continuation lines of a field
  are not sent on, and of several fields with one name only the last is: the service gets the text of all
  fields exactly if none is folded and those of one name are alike (`Request.FieldsReach`).
- A compressed name is followed by the low byte of its pointer only: right in every message exactly for
  offsets below 256 (`QName.PointerExact`); `QName.WrongName` is a message for each other offset that
  decodes to a name it does not contain there.
- Of two requests that a client sends without waiting, the loop drops what of the second is in the buffer when
  the first is sent, and goes on with the rest (`Request.ForwardTwo`). `Request.LosesExactly` says what that can
  be. The second arrives under every fragmentation exactly if the first has so long a body that no byte of the
  second can come in one read with the first head; so after a request without a body it can always be lost
  (`Request.SecondExactly`).
- A chunked DNS reply is put together exactly if none of its chunks is over 65535 bytes
  (`DnsBody.ChunksExactly`).
- A DNS reply with an OPT record, such as those quoted at src/dns/doh.cpp:26-43, is refused whatever it
  answers (`DnsEncode.OptRefused`): the root, which owns that record, is read as a name of no bytes.
- Two requests that miss the endpoint cache together, one of which then fails to create its endpoint,
  break the assertion of `return_back` (`LeaseQueue.RaceBreaks`; exactly when: `LeaseQueue.FailureBreaks`).
  No lease is lost otherwise: in every run in which channels are closed where the source closes them the
  first send succeeds, or its queue was taken away (`LeaseQueue.NeverInVain`).

## Model

| member | source | states |
|---|---|---|
| `Kmp.KMP.constructor` | src/untrust/kmp.h:55-58 | a new matcher has the right failure table and has been fed nothing |
| `Kmp.KMP.ComputeLPSArray` | src/untrust/kmp.h:22-52 | terminates, and every entry is the length of the longest proper prefix of the pattern so far that is also its suffix |
| `Kmp.CandidateFallsBack` | src/untrust/kmp.h:41-44 | while the table is built, following it loses no longer border |
| `Kmp.KMP.Search` | src/untrust/kmp.h:60-97 | over all chunks fed so far `j` reaches the pattern's length exactly when their concatenation contains it, at its first occurrence, whose global index is returned; otherwise `j` is the longest pattern prefix ending what was fed, and the result is the index of the last fresh start; the iterations of all calls are paid by two per byte |
| `Kmp.FallBack` | src/untrust/kmp.h:82-87 | a mismatch followed through the table loses no candidate occurrence |
| `Kmp.ScanMatches` | src/untrust/kmp.h:68-81 | the byte that completes the pattern completes its first occurrence in any longer text |
| `Kmp.SearchPieces` | src/untrust/kmp.h:60-97 | however a text is split, feeding the pieces finds what one search of the whole finds, in at most two iterations a byte |
| `BlockBuffer.FindCovers` | src/http/socket_wrap.cpp:20-22 | the range-overlap lookup returns a block exactly when that block covers the position |
| `BlockBuffer.LookupExact` | src/http/socket_wrap.cpp:105-114 | with the position narrowed to `int`, the lookup finds the block being read or nothing, and finds it if and only if the position's low 32 bits are not negative and not before the block |
| `BlockBuffer.LookupLosesBytesAt2GiB` | src/http/socket_wrap.cpp:20-22 | at position 2^31 a waiting byte is not found |
| `BlockBuffer.VisibleExact` | src/http/socket_wrap.cpp:105-158 | what a merge and a get_some show is all that is unread or nothing, and which is stated exactly: below 2 GiB all, from there to 4 GiB nothing |
| `BlockBuffer.EmplaceAtEnd` | src/http/socket_wrap.cpp:44-47 | a block received at the write position is inserted, and at the end, so the assertion after it holds |
| `BlockBuffer.LoadAppends` | src/http/socket_wrap.cpp:29-48 | a load keeps the blocks nonempty, ordered and contiguous and appends to the unread bytes |
| `BlockBuffer.RemoveDrops` | src/http/socket_wrap.cpp:116-132 | a removal of at most the unread bytes drops exactly those, whichever blocks they span, and keeps the invariant |
| `BlockBuffer.MergeKeeps` | src/http/socket_wrap.cpp:134-158 | merging changes no unread byte and leaves at most one block |
| `BlockBuffer.GetSomeIsPrefix` | src/http/socket_wrap.cpp:105-114 | get_some is a prefix of the unread bytes, and all of them when at most one block is held, unless the lookup misses, which it does not below 2 GiB |
| `BlockBuffer.BufferIsQueue` | src/http/socket_wrap.cpp:29-158 | after any run of loads, removals, merges and resets the buffer holds exactly the bytes received and not consumed, and the two indices count both |
| `BlockBuffer.MergedWindow` | src/http/socket_wrap.cpp:105-158 | after any run, merging makes get_some the whole unread window or nothing; the window if and only if it is empty or the read position survives the narrowing to `int`, so always below 2 GiB |
| `SocketMemory.Memory.constructor` | src/http/socket_wrap.h:43-53 | a new connection has everything of its stream before it |
| `SocketMemory.Memory.AsyncLoadSome` | src/http/socket_wrap.cpp:29-48 | one read moves some nonempty prefix of the pending bytes, within the limit, to the end of the buffer; nothing at the end of the stream |
| `SocketMemory.Memory.AsyncLoadUntil` | src/http/socket_wrap.cpp:63-92 | returns the pending bytes through the first delimiter, keeps all that was read, which is one of the prefixes CanRead allows, and drops what was read when the peer closes first |
| `SocketMemory.ReadExactly` | src/http/socket_wrap.cpp:72-84 | reading until a delimiter, so many bytes at a time at most, can have read a prefix of the stream if and only if it has the delimiter and ends less than one read behind it |
| `SocketMemory.Memory.AsyncWriteAll` | src/http/socket_wrap.cpp:94-103 | appends to what the peer gets |
| `SocketMemory.Memory.GetSome` | src/http/socket_wrap.cpp:105-114 | the unread part of the block being read |
| `SocketMemory.Memory.RemoveSome` | src/http/socket_wrap.cpp:116-132 | consumes exactly n unread bytes, or gives up everything when asked for more; the result is the size of the blocks given up |
| `SocketMemory.Memory.MergeSome` | src/http/socket_wrap.cpp:134-158 | joins the blocks without changing the unread bytes; 0 exactly when there was nothing to join |
| `SocketMemory.Memory.Reset` | src/http/socket_wrap.h:30-34 | forgets everything buffered |
| `SocketMemory.Memory.Close` | src/hmemory.h:43-43 | the connection counts as closed from then on |
| `Transfer.Forward` | src/hmemory.h:112-114 | writing bytes out of the buffer and then consuming as many keeps "written, then unread, then pending" equal to the original stream |
| `Transfer.WriteThenConsume` | src/hmemory.h:112-114 | any bytes are written, and as many of the unread ones are consumed, whichever they are |
| `Transfer.LoadMore` | src/hmemory.h:120-120 | a read between two writes moves bytes from pending to unread and changes nothing else |
| `Transfer.TransferMem` | src/hmemory.h:98-127 | at every position: the first `total` of the bytes that get_some shows and of those still to come are written in order, and as many are consumed, so they are the next bytes of the stream if the unread ones are shown, and then at most one block is left so that the last assertion holds; with fewer to come it has written all of them and never ends |
| `Transfer.WaitExact` | src/hmemory.h:160-160 | the test of the middle loop, with its unsigned wrap-around, keeps waiting exactly when the last fresh start is in the bytes just read and less than a pattern from their end |
| `Transfer.FoundStops` | src/hmemory.h:160-164 | after a search that found the pattern the test always stops, and the cut is at the pattern's end |
| `Transfer.FirstTest` | src/hmemory.h:138-149 | which of the three branches is taken, in terms of the buffered bytes alone |
| `Transfer.StartSeen` | src/hmemory.h:138-138 | a buffer that holds the pattern's first byte never takes the first branch |
| `Transfer.StraddleExactly` | src/hmemory.h:149-172 | an occurrence that runs past the searched bytes is relayed through its end and no further, however it is fragmented, if and only if the last fresh start was at byte 0 or 1 of its read or only one byte is missing |
| `Transfer.EndOfStream` | src/hmemory.h:149-172 | at the end of the stream the middle loop reads for ever if and only if the last fresh start was the first byte of its read; otherwise it returns normally |
| `Transfer.FoundEnds` | src/hmemory.h:158-168 | the search that completes the pattern ends the loop one past its first occurrence |
| `Transfer.SearchMore` | src/hmemory.h:151-161 | one pass forwards what was searched, reads and searches more, and keeps the conservation of bytes and the state of the search |
| `Transfer.WaitForRest` | src/hmemory.h:149-172 | conservation on every input, and the outcome is one that the bytes allow from the state of the search: the pattern's end, an early stop, or reading for ever |
| `Transfer.LoadThrough` | src/hmemory.h:144-147 | the bytes read from the socket through the first pattern are written and as many consumed; without a pattern nothing is, and what was read is dropped |
| `Transfer.TransferMemUntil` | src/hmemory.h:128-180 | at every position, of the bytes that get_some shows and of those still to come: the first ones are written, as many are consumed, none is lost except what is dropped when the peer closes during the second read, the result is their number, and the outcome is one of those the bytes allow, which UntilIs, EndOfStream, StraddleExactly and Closing.EndExactly characterise |
| `Transfer.UntilIs` | src/hmemory.h:138-180 | where each of the three branches stops |
| `Closing.NoStartExactly` | src/hmemory.h:138-138 | with CRLFCRLF the first branch is taken if and only if no CR is buffered |
| `Closing.EndExactly` | src/hmemory.h:128-180 | a normal return comes only after a CRLFCRLF, under every fragmentation, if and only if the buffer holds it, or no CR and it is pending, or the buffer waits and the pattern is reached, or nothing ends the loop |
| `Closing.ClosedAfterZero` | src/hmemory.h:149-172 | with the last size line buffered and the peer closed the only outcome is the normal return |
| `Closing.TrailerFails` | src/hmemory.h:128-180 | whatever but CRLF follows the last size line, one of three buffer contents lets the call return without a CRLFCRLF |
| `Closing.TailExactly` | src/hmemory.h:128-180 | after the last size line a normal return means a CRLFCRLF, for every buffer contents and fragmentation, if and only if CRLF follows it |
| `Chunked.SizeReadExactly` | src/http/httpmsg.cpp:59-76 | a size of up to 16 hex digits, with an extension or not, is read as its value if and only if it has no leading zero or is zero |
| `Hex.DigitsExactly` | src/http/httpmsg.cpp:59-59 | the hexadecimal digits are 0 to 9, a to f and A to F, each worth its place among them |
| `Hex.WrittenInHex` | src/http/httpmsg.cpp:75-75 | a number written with those digits, small or capital, is worth what it was, and has at most 16 digits if and only if it is below 2^64 |
| `Chunked.SizeAnywhere` | src/http/httpmsg.cpp:59-76 | the size is the first run of up to 16 digits that does not start with 0, wherever it is in the line |
| `Chunked.NoSize` | src/http/httpmsg.cpp:66-74 | a line without a digit is refused |
| `Chunked.WrittenBody` | src/http/httpmsg.cpp:79-128 | a body written as section 3.6.1 of RFC 2616 has it, with sizes in small or capital digits, is well formed in the sense of the other theorems |
| `Chunked.ReadSizeLine` | src/http/httpmsg.cpp:86-104 | at every position: the size line found in what get_some shows and what comes does not depend on the fragmentation, no byte is consumed, and the loop reads for ever exactly when the window shows no line end in fewer than 18 bytes |
| `Chunked.StallsExactly` | src/http/httpmsg.cpp:86-104 | the size-line loop reads for ever if and only if the buffer up to a NUL and all that is pending have no line end and fewer than 18 bytes |
| `Chunked.NulHides` | src/http/httpmsg.cpp:86-96 | buffered bytes behind a NUL are not looked at for a size line, those from the socket are, 18 in all |
| `Chunked.LongLineFails` | src/http/httpmsg.cpp:86-104 | a size line of more than 16 bytes is refused when nothing of it is buffered |
| `Chunked.TrailerStopsEarly` | src/http/httpmsg.cpp:123-125 | a trailer of which no CR is buffered is taken for the closing pattern if and only if two bytes of it or more are buffered |
| `Chunked.LoopOnData` | src/http/httpmsg.cpp:84-121 | the loop relays well-formed chunks, and if the last size line starts below 2 GiB it ends there with that line in the buffer; otherwise it gets to the first size line at 2 GiB or later |
| `Chunked.LoopsTo` | src/http/httpmsg.cpp:84-121 | every buffer contents that one read can bring with the last size line is possible there, below 2 GiB |
| `Chunked.ClosedExactly` | src/http/httpmsg.cpp:79-128 | with the last size line below 2 GiB a normal return means under every fragmentation that the closing CRLFCRLF was relayed if and only if CRLF follows the last size line, or, with that line buffered from the start, the buffer is a good start in the sense of EndExactly |
| `Chunked.WholeExactly` | src/http/httpmsg.cpp:79-128 | a body that is the whole stream, below 4 GiB, is relayed whole under every fragmentation if its last size line starts below 2 GiB, and under none if not |
| `Chunked.WrittenRelayed` | src/http/httpmsg.cpp:79-128 | a body written so is relayed below 2 GiB under every fragmentation, and exactly it if nothing follows |
| `Chunked.Overtaken` | src/http/httpmsg.cpp:79-128 | a body with a size line between 2 and 4 GiB, whatever follows it: the chunks below 2 GiB are written, and all that is written after them comes from behind the bytes overtaken there, in order, with more left out before each piece |
| `Chunked.SkipWrites` | src/http/httpmsg.cpp:84-125 | where get_some shows nothing, all that is written is pieces of what comes from the socket, in order, with bytes left out before each: those read with a size line |
| `Chunked.CutBodyReturns` | src/http/httpmsg.cpp:123-127 | a body cut right after its last size line can be reported as complete, with its length |
| `Chunked.RelayNext` | src/http/httpmsg.cpp:113-120 | one chunk: transfer_mem of its size, as the bytes allow; below 2 GiB the next bytes go through |
| `Chunked.RelayLast` | src/http/httpmsg.cpp:123-125 | the search for the closing pattern ends in one of the ways the bytes allow; below 2 GiB the next bytes go through and no byte is lost |
| `Chunked.RelayChunks` | src/http/httpmsg.cpp:84-121 | the loop over the chunks consumes as many bytes as it writes, and ends in one of the ways the bytes allow, at every position |
| `Chunked.TransferChunk` | src/http/httpmsg.cpp:79-128 | at every position: as many bytes are consumed as are written, and both the outcome and what is written are what the bytes allow; below 2 GiB, whatever arrives, the next bytes are written and none is lost, and a well-formed body ends without error after at least its closing CRLFCRLF, more only out of the buffer, so exactly it when nothing follows |
| `Headers.ParserHeader` | src/http/httpmsg.cpp:12-57 | ends on every block its callers pass; accepts a block if and only if it is the print of readable fields (a colon and a space ends the name, a line end the value and each folded line), and then maps each lower-cased name to the first line of its last field |
| `Headers.SkipFolds` | src/http/httpmsg.cpp:40-52 | continuation lines are skipped up to the next field, and nothing else |
| `Headers.HeaderMapLast` | src/http/httpmsg.cpp:33-35 | of several fields with one name, the last one is kept |
| `Headers.OneReading` | src/http/httpmsg.cpp:12-57 | a block reads as one list of fields only |
| `Headers.SpellsExactly` | src/http/httpmsg.cpp:130-139 | a name is found whichever of its letters are capitals, and no other name is |
| `Headers.NamedInMap` | src/http/httpmsg.cpp:33-35 | looking up a name in small letters finds the last field of that name, with its name, value and line end, and nothing if there is none |
| `Headers.WrittenInDecimal` | src/http/httpmsg.cpp:149-155 | a number written in decimal is worth what it was, and has at most 11 digits if and only if it is below 10^11 |
| `Headers.LengthOfFields` | src/http/httpmsg.cpp:142-158 | the length read is the number that the last Content-Length writes |
| `Headers.NoLength` | src/http/httpmsg.cpp:149-153 | a line without a digit has no length |
| `Headers.ContentLengthExactly` | src/http/httpmsg.cpp:142-158 | a Content-Length is read as its value if and only if it has no leading zero and at most 11 digits, or is zero |
| `Response.SplitHead` | src/http/http_svc_keeper.cpp:352-355 | the first line and the header block cut out of a head, with no index underflow |
| `Response.HeadEnd` | src/http/http_svc_keeper.cpp:352-352 | the first CRLFCRLF of a printed head is its end |
| `Response.ParserResponseLine` | src/http/http_svc_keeper.cpp:350-356 | the first line is consumed and nothing else, and the size passed on is that of the header block; without a head both are what the unsigned arithmetic makes of it |
| `Response.ParserHeaders` | src/http/http_svc_keeper.cpp:322-348 | exactly the header block and the empty line are consumed even when body bytes came with them; the headers are those get_some shows of it, none if it shows nothing, and it is refused if and only if that does not read as fields; the length that counts is chosen with chunked coding first |
| `Response.ChunkedExactly` | src/http/http_svc_keeper.cpp:331-335 | a body is taken for chunked if and only if the value of the last Transfer-Encoding contains that word |
| `Response.ClosesExactly` | src/httpserver.cpp:110-117 | the connections are closed after it if and only if the value of the last Connection contains close |
| `Response.LengthSaid` | src/http/http_svc_keeper.cpp:331-343 | the length that counts is the one the fields say |
| `Response.ReadHead` | src/httpserver.cpp:102-121 | the body starts right after the head received, and the head sent on equals it if and only if its header block is shown, which is stated exactly for every position; otherwise it is the first line without headers; the head is refused if and only if what is shown does not read as fields |
| `Response.RelayToEnd` | src/httpserver.cpp:132-152 | a body without a length is what get_some shows and everything that comes up to the close; as many bytes are consumed |
| `Response.RelayHead` | src/httpserver.cpp:102-121 | what is shown of the head goes through unchanged and the whole of it is consumed, or nothing is sent |
| `Response.RelayBody` | src/httpserver.cpp:122-156 | at every position, what is sent of the body by its coding |
| `Response.BodySentIs` | src/httpserver.cpp:122-156 | what that means, exactly: a body of known length, or one that ends with the connection, goes through byte for byte if what came with the head is shown, and otherwise without those bytes; the end and what is left are stated in both cases; a chunked one below 2 GiB goes through its end, and if nothing follows exactly then |
| `Response.ComesExactly` | src/http/http_svc_keeper.cpp:352-352 | so many bytes behind a head can be read with it if and only if they are there and fewer than one read brings |
| `Response.RelayResponse` | src/httpserver.cpp:102-160 | at every position: head and body go through as BodySentIs says, what follows stays unread, and when the header block is not shown the client gets the first line and what a head without fields lets through; a head that does not read as fields sends nothing; below 2 GiB, whatever arrives, the client gets a prefix of the stream |
| `Response.LengthRelayed` | src/httpserver.cpp:119-131 | below 2 GiB a response whose fields say a length goes to the client as its head and so many bytes, what follows staying unread |
| `Response.ChunksRelayed` | src/httpserver.cpp:119-127 | below 2 GiB one whose fields say that it is chunked goes with its whole body, and more only out of the buffer |
| `Response.RestRelayed` | src/httpserver.cpp:110-152 | one without a length whose connection is closed goes with everything up to the close |
| `RequestLine.SplitTarget` | src/http/httpclient.cpp:36-58 | the end of the target and of its endpoint, for all target forms, without index underflow |
| `RequestLine.ParseVersion` | src/http/httpclient.cpp:103-126 | a well-formed version is accepted and is the last thing in the line, so the closing assertion holds |
| `RequestLine.ParseLine` | src/http/httpclient.cpp:19-132 | every well-formed line of the three forms is parsed to its method, host, port (80 if there is none), path, query position and version; a line is accepted if and only if it has the form of AcceptedExactly, and then whichever way it is taken apart in that form, those parts are what it is read as; on every input all indices stay in bounds |
| `RequestLine.AcceptedExactly` | src/http/httpclient.cpp:19-132 | a line is accepted if and only if it is a method without spaces, a target of an optional scheme, endpoint and path, and a version, with the endpoint's port at most 65535 |
| `RequestLine.LineSays` | src/http/httpclient.cpp:19-132 | what a line written in each of the three forms says, field by field: a missing port is 80, a missing path is /, the query starts at the first question mark |
| `RequestLine.VersionExactly` | src/http/httpclient.cpp:118-124 | a version is up to five digits, a dot and up to ten digits |
| `RequestLine.EndpointExactly` | src/http/httpclient.cpp:59-86 | an endpoint is a nonempty host of letters, digits, underscores, dots and dashes, alone or with a colon and a port |
| `RequestLine.PortExactly` | src/http/httpclient.cpp:59-59 | a port is 0 or up to five digits not starting with 0 |
| `RequestLine.PortWritten` | src/http/httpclient.cpp:66-72 | of the ports written in decimal exactly those up to 65535 are accepted |
| `RequestLine.ReprintIsOrigin` | src/httpserver.cpp:74-74 | the line printed for the service is the origin form of the same request |
| `RequestLine.ProxyLine` | src/httpserver.cpp:74-74 | parsing what the proxy prints gives the same method, path and version; the port it connects to is the one asked for, or 80 |
| `Request.ReadRequestLine` | src/http/httpclient.cpp:19-132 | on the client's connection the line is consumed and nothing else, however it is fragmented; a refused line consumes nothing |
| `Request.ReadRequest` | src/http/httpclient.cpp:134-158 | a head is read if and only if its line is accepted and what is shown of its header block reads as fields, to what the line means and to the header map of those; exactly the head is consumed, and the length that counts is chosen with chunked coding first |
| `Request.PrintHead` | src/httpserver.cpp:72-80 | the head sent on is the origin-form line, every field but two once, in any order, and the host |
| `Request.HeaderFrom` | src/http/httpmsg.cpp:33-35 | every entry of the header map is the first line of a field of that name |
| `Request.ValuesAreFields` | src/httpserver.cpp:75-78 | the lines sent are again a header block that maps to the same values |
| `Request.SentIsHead` | src/httpserver.cpp:72-80 | what is sent is a well-formed head of the same request in origin form, with the client's fields but two and the host |
| `Request.ForwardBody` | src/httpserver.cpp:88-99 | at every position, what is sent of the body by its coding, as for responses |
| `Request.ForwardHead` | src/httpserver.cpp:32-87 | the client's head is consumed exactly and the new one sent, if and only if it is accepted: a head for what its line is read as, to the host and the port that line asks for |
| `Request.ForwardRequest` | src/httpserver.cpp:32-99 | at every position, a well-formed request: the head printed for the service, on a connection to the host and port asked for (80 if none is), and what is sent of the body as BodySentIs says, what follows staying unread; for any other stream a head for what its line is read as, if and only if line and fields are accepted and it asks for a host, and below 2 GiB then the bytes after the client's head; otherwise nothing |
| `Request.AsksSaid` | src/httpserver.cpp:32-99 | any request written so, whose fields say how long its body is, is one that the theorems about forwarding speak of |
| `Request.ForwardTwo` | src/httpserver.cpp:32-99 | of two requests sent without waiting the first arrives; what is lost of the second is what LosesExactly allows, and what is sent of the rest is what ForwardRequest says of a stream that starts there, for any reading of it |
| `Request.LosesExactly` | src/httpserver.cpp:32-33 | bytes of the second request can be lost if and only if they are its first ones and one read can bring them with the end of the first head, past the first body |
| `Request.SecondExactly` | src/httpserver.cpp:32-99 | the second request arrives under every fragmentation if and only if the first body is so long that one read cannot reach past it; otherwise it can lose its first byte, and then it never arrives as it is |
| `Request.SameDelimiting` | src/httpserver.cpp:72-78 | leaving out the two fields does not change where the body ends |
| `Request.PassesExactly` | src/httpserver.cpp:72-73 | the two fields the proxy deals with itself are proxy-connection and host, whichever letters are capitals |
| `Request.ServiceSees` | src/httpserver.cpp:72-80 | the service gets the host line, no proxy-connection, and of every other name the last field's first line |
| `Request.HostExactly` | src/httpserver.cpp:79-79 | the Host line sent is that of the endpoint asked for if and only if that has no port |
| `Request.PortNotTold` | src/httpserver.cpp:79-79 | a request for port 8080 whose Host line has the host alone |
| `Request.FieldsReach` | src/httpserver.cpp:72-78 | the service gets the whole text of every field but the two if and only if none is folded and fields of one name have the same line |
| `Request.ForwardThenRead` | src/httpserver.cpp:32-99 | what is sent is a head for the request and its body, and what the service reads of it is that request: method, path, version, fields but two, host, and the body byte for byte, for every request whose head ends below 2 GiB |
| `Base64Url.Letters24` | src/dns/dnshttps.cc:250-253 | the shifts and masks of a full accumulator, which stays below 2^24, are the four sextets of its three bytes |
| `Base64Url.B64UrlEncode` | src/dns/dnshttps.cc:232-279 | the loop computes the encoding, and nothing for inputs of half the unsigned range |
| `Base64Url.EncodeLast` | src/dns/dnshttps.cc:262-277 | one or two last bytes are written as the front of a group filled with zeros |
| `Base64Url.EncodeShape` | src/dns/dnshttps.cc:224-279 | the encoding has ceil(4n/3) letters, all of the URL-safe alphabet |
| `Base64Url.RoundTrip` | src/dns/dnshttps.cc:232-279 | the decoder of RFC 4648 gives back every byte string |
| `DnsName.SplitLoop` | src/dns/dnshttps.cc:74-95 | the splitting loop computes the split host |
| `DnsName.SplitInnerShort` | src/dns/dnshttps.cc:83-87 | after splitting no piece before a dot has more than 63 bytes |
| `DnsName.SplitKeepsBytes` | src/dns/dnshttps.cc:74-95 | splitting adds dots and nothing else, and leaves the last label alone |
| `DnsName.SplitUnchanged` | src/dns/dnshttps.cc:74-95 | a host stays as it is if and only if its inner labels are short enough |
| `DnsName.SplitFits` | src/dns/dnshttps.cc:74-95 | after splitting every label fits its length byte if and only if the host's last one did |
| `DnsName.CountPiece` | src/dns/dnshttps.cc:107-109 | the 8-bit inner loop stops at once on an unvisited slot, at the next dot or zero on a visited one, and never exactly for pieces of more than 254 bytes |
| `DnsName.SecondVisit` | src/dns/dnshttps.cc:107-121 | the second visit puts the count, and what follows the piece decides whether the next slot is a slot |
| `DnsName.CountLoop` | src/dns/dnshttps.cc:103-122 | the in-place loop visits each slot twice and leaves each piece after its length and a closing zero; it goes on for ever exactly when a piece has more than 254 bytes |
| `DnsName.Host2QName` | src/dns/dnshttps.cc:67-126 | for every host: -1 exactly for split hosts of 2048 bytes or more; otherwise it goes on for ever exactly when a piece of the split host before any NUL has more than 254 bytes, and else the result is the wire form of that, and the return value its size |
| `DnsName.ScanEndsExactly` | src/dns/dnshttps.cc:107-109 | the inner loop ends if and only if a dot or a zero is among the 256 bytes its counter can reach |
| `DnsName.EndsExactly` | src/dns/dnshttps.cc:67-126 | the counting ends if and only if the last label, of what comes before a NUL, has at most 254 bytes |
| `DnsName.EncodesLabels` | src/dns/dnshttps.cc:62-126 | a name of valid labels, with or without the last dot, is encoded as section 3.1 of RFC 1035 has it |
| `QName.QName2Host` | src/dns/dnshttps.cc:151-215 | terminates on every message and start index, pointer cycles included, and reads no byte outside |
| `QName.DecodeResult` | src/dns/dnshttps.cc:203-214 | a positive result comes with a name of at most 255 bytes that ends with a dot, and counts bytes that are there; otherwise the name is empty |
| `QName.DecodeName` | src/dns/dnshttps.cc:151-215 | a name of the message, as section 4.1.4 of RFC 1035 defines it, is decoded to its labels and the size it has where it stands, through up to ten pointers; over 255 bytes it is refused |
| `QName.DecodesExactly` | src/dns/dnshttps.cc:151-215 | a name of the message is read if and only if it goes through at most ten pointers and has at most 255 bytes; otherwise it is refused |
| `QName.CutName` | src/dns/dnshttps.cc:167-214 | a name that the message ends before the zero of is read as if that were there, and counted with it |
| `QName.LabelsThenPointer` | src/dns/dnshttps.cc:169-188 | labels followed by a pointer are those labels before the target's, and take two bytes more |
| `QName.LabelsThenRoot` | src/dns/dnshttps.cc:167-201 | labels followed by a zero are that name, and take its wire size |
| `QName.RoundTrip` | src/dns/dnshttps.cc:62-215 | encoding and decoding a host gives it back with one dot at the end, and both report the same size |
| `QName.ReadBackExactly` | src/dns/dnshttps.cc:62-215 | any host without empty labels and with a last label the counter can count is read back, split, if and only if the last label has at most 63 bytes and the name 255; otherwise decoding refuses it |
| `QName.PointerExact` | src/dns/dnshttps.cc:176-188 | pointers to an offset are followed to the name there, in every message, if and only if the offset is below 256 |
| `QName.PointerByte` | src/dns/dnshttps.cc:176-188 | whatever its offset, a pointer is followed to the name at the offset's low byte |
| `QName.WrongName` | src/dns/dnshttps.cc:176-188 | for each offset from 256 on a message that points to one name and decodes to another |
| `QName.NameAtIs` | src/dns/dnshttps.cc:151-215 | the names decoded rightly are exactly those of section 4.1.4 of RFC 1035 whose pointers have offsets below 256 |
| `DnsBody.Reassemble` | src/dns/dnshttps.cc:535-559 | the loop terminates on every reply and puts the chunks together |
| `DnsBody.StrToUlExactly` | src/dns/dnshttps.cc:547-547 | a size is read after blanks, a sign and 0x, in small or capital digits, up to 2^64 - 1, and modulo 2^64 behind a minus sign |
| `DnsBody.ChunksExactly` | src/dns/dnshttps.cc:542-558 | a chunked body, with leading zeros, extensions and anything after its last size line, is put together if and only if no chunk is over 65535 bytes, and refused otherwise |
| `DnsBody.ReplyExactly` | src/dns/dnshttps.cc:529-559 | the same for a whole reply without a length, behind its head |
| `DnsBody.WrittenReply` | src/dns/dnshttps.cc:529-559 | a chunked reply written as section 3.6.1 of RFC 2616 has it gives its data if and only if no piece is over 65535 bytes |
| `DnsMessage.JudgeOfRecord` | src/dns/dnshttps.cc:674-733 | of a well-formed record exactly the aliases, the addresses of the question's name, of four bytes or sixteen, and the NS and MX records that were asked for are kept, with owner, time to live and data |
| `DnsMessage.ParseRecord` | src/dns/dnshttps.cc:648-735 | one pass stays in bounds and moves on by at least 11 bytes, to the next record of a well-formed message; a record owned by the root, cut off, of another class, without data, with an address of the name asked for of the wrong size or an alias of no name is refused |
| `DnsMessage.NumberedAt` | src/dns/dnshttps.cc:694-694 | answers are stored under 0, 1, 2 and so on, in order |
| `DnsMessage.ParseRecords` | src/dns/dnshttps.cc:647-738 | the loop keeps the wanted answers in order and reports whether one that is not an alias was among them; such a bad record after any well-formed ones makes it refuse |
| `DnsMessage.ParseRfc8484` | src/dns/dnshttps.cc:522-739 | for every reply, of known length or in chunks, whose body is a well-formed response to the question asked, the result is exactly the wanted answers, numbered from 0, and the return value is 1 if and only if one is not an alias; -1 for a response with a bad record, or to a question about another name; on other input no index leaves the message |
| `DnsEncode.NameBack` | src/dns/dnshttps.cc:151-215 | a written name, full or compressed, is readable where it was written and has the size written |
| `DnsEncode.RecordBack` | src/dns/dnshttps.cc:655-682 | a written record stands where it was written |
| `DnsEncode.EncodedWellFormed` | src/dns/dnshttps.cc:565-672 | every message the encoder writes is well formed for the parser |
| `DnsEncode.EncodeThenParse` | src/dns/dnshttps.cc:522-739 | encoding any answers and parsing the message gives back the wanted ones |
| `DnsEncode.ChunkedThenParse` | src/dns/dnshttps.cc:522-739 | the same when the message comes in chunks behind any head |
| `DnsEncode.OptRefused` | src/dns/dnshttps.cc:647-672 | any encoded answers with an OPT record after them are refused |
| `DnsAnswers.DottedRead` | src/dns/dnshttps.cc:686-693 | the text kept of an address is four numbers between dots, which read digit by digit are its bytes in order |
| `DnsAnswers.HostCut` | src/dns/dnshttps.cc:667-671 | the name kept, cut at its dots, is the owner's labels |
| `DnsAnswers.WireRead` | src/dns/dnshttps.cc:709-717 | the wire form kept of an alias, read by the lengths in it, is the labels of its target |
| `DnsAnswers.SplitCut` | src/dns/dnshttps.cc:74-95 | a host cut at its dots and its split form cut at its dots: each label but the last in pieces of 63 bytes and a last one |
| `DnsAnswers.LowerExactly` | src/dns/dnshttps.cc:52-58 | names compare equal if and only if they differ in capitals at most |
| `DnsAnswers.WantedExactly` | src/dns/dnshttps.cc:674-733 | which records are answers: aliases, what was asked for, and addresses of the name asked for, whatever its capitals |
| `DnsAnswers.ReplySays` | src/dns/dnshttps.cc:647-738 | each answer of a well-formed message is stored under its number among them and says, read that way, the type, the time to live, the owner and the data of its record; nothing is stored behind them |
| `DnsAnswers.HeaderExactly` | src/dns/dnshttps.cc:568-575 | a response without an error is recognised by the two fields of section 4.1.1 of RFC 1035 |
| `DnsAnswers.RecordWritten` | src/dns/dnshttps.cc:655-672 | the encoder's records are the bytes that section 4.1.3 of RFC 1035 lays out |
| `DnsAnswers.NameWritten` | src/dns/dnshttps.cc:151-201 | its names are labels behind their lengths, a zero or the two bytes of a pointer |
| `SingleFlight.SlowDns.constructor` | src/dns.cpp:42-67 | nothing cached, nothing running |
| `SingleFlight.SlowDns.Resolve` | src/dns.cpp:235-255 | the cached list, or a new channel of capacity one |
| `SingleFlight.SlowDns.Register` | src/dns.cpp:277-290 | joins the host's list or starts it; a lookup is needed exactly when it was started |
| `SingleFlight.SlowDns.Fail` | src/dns.cpp:318-324 | the list is erased and nothing is sent |
| `SingleFlight.SlowDns.Insert` | src/dns.cpp:326-332 | the list taken on is the one the cache holds from then on, which an earlier one stays |
| `SingleFlight.SlowDns.Wake` | src/dns.cpp:334-345 | every channel of the list is sent the endpoints once, and the list is erased |
| `SingleFlight.SlowDns.Receive` | src/dns.cpp:261-266 | the caller's end of its channel |
| `SingleFlight.SlowDns.Remove` | src/dns.cpp:129-134 | the host is no longer cached; running lookups are not touched |
| `SingleFlight.SlowDns.LoadHm` | src/dns.cpp:161-191 | without a path, or a second time, nothing; otherwise configured hosts are cached, those already there keep their lists |
| `SingleFlight.SendAllOnce` | src/dns.cpp:338-343 | sending to a list of different channels sends to each once and to no other |
| `SingleFlight.StepKeeps` | src/dns.cpp:235-345 | every step of every coroutine keeps the protocol's invariant |
| `SingleFlight.OneLeader` | src/dns.cpp:276-345 | in every run a host is a key of the running map if and only if exactly one coroutine is between registering and erasing it, that coroutine's channel is the first of the list, and the unchecked lookup before waking has never missed |
| `SingleFlight.RoundAnswer` | src/dns.cpp:318-345 | until its leader ends a registered call is in the list and was sent nothing; after the leader's last step each call of the round was sent exactly one list, the leader's; only when the lookup failed was none sent |
| `SingleFlight.HasRound` | src/dns.cpp:277-290 | every registered call belongs to exactly one round |
| `SingleFlight.StoredInCache` | src/dns.cpp:326-332 | the list a leader sends is what the cache held for its host right after its insert |
| `SingleFlight.AnswerFromCache` | src/dns.cpp:261-266 | what a waiting caller receives is what the cache held right after the insert of its round's leader |
| `SingleFlight.ProducedBy` | src/dns.cpp:295-316 | every list in the cache came from a lookup of that host, or from the configuration for it |
| `SingleFlight.AnswerForHost` | src/dns.cpp:235-267 | whatever a caller of resolve gets was looked up, or configured, for its own host |
| `SingleFlight.CacheStep` | src/dns.cpp:326-332 | a cached list stays until its host is removed; a new one is that of the first lookup to be inserted, or of the configuration |
| `SingleFlight.HitAfterInsert` | src/dns.cpp:235-246 | once a leader has inserted, and until the host is removed, every caller of resolve gets at once the list the cache then held, in every run |
| `SingleFlight.LoadedOnce` | src/dns.cpp:161-170 | the configuration is loaded once |
| `SingleFlight.FullRefuses` | src/dns.cpp:249-252 | a channel holds one list and refuses the next until that is taken |
| `SingleFlight.Interleave` | src/dns.cpp:235-352 | the object's methods called in any order compute the run, so the list that waking looks for is always there |
| `LeaseQueue.SvcCache.constructor` | src/http/http_svc_keeper.cpp:61-89 | nothing cached, no queues |
| `LeaseQueue.SvcCache.Find` | src/http/http_svc_keeper.cpp:95-100 | the cached endpoint |
| `LeaseQueue.SvcCache.Insert` | src/http/http_svc_keeper.cpp:117-121 | an endpoint is cached unless there is one |
| `LeaseQueue.SvcCache.Enqueue` | src/http/http_svc_keeper.cpp:129-145 | behind the others, or at the front of a new queue |
| `LeaseQueue.SvcCache.TrySend` | src/http/http_svc_keeper.cpp:165-168 | succeeds exactly when the channel is open and empty |
| `LeaseQueue.SvcCache.HandOver` | src/http/http_svc_keeper.cpp:153-180 | the holder leaves the queue and the first waiter that can still be sent to gets the endpoint; without one the queue is erased |
| `LeaseQueue.SvcCache.TakeQueue` | src/http/http_svc_keeper.cpp:181-191 | the queue is taken out of the map |
| `LeaseQueue.SvcCache.CloseAll` | src/http/http_svc_keeper.cpp:193-197 | every channel of the queue taken away is closed |
| `LeaseQueue.SvcCache.RemoveEndpoint` | src/http/http_svc_keeper.cpp:202-214 | the endpoint is no longer cached; true exactly when it was |
| `LeaseQueue.SkipsOnlyDead` | src/http/http_svc_keeper.cpp:163-178 | everyone skipped can no longer be sent to, and nobody changes places |
| `LeaseQueue.StepKeeps` | src/http/http_svc_keeper.cpp:91-214 | every step keeps the protocol's invariant of a service, unless it is a creation for that service that fails while a lease of it is live |
| `LeaseQueue.OneLease` | src/http/http_svc_keeper.cpp:91-200 | in every run without such a failure the service has at most one lease out, its queue exists if and only if one is out, the holder is at the front, and both assertions of return_back have held for it |
| `LeaseQueue.Fifo` | src/http/http_svc_keeper.cpp:129-180 | leases are granted in the order of queueing; everyone before the queue had the endpoint and gave it back, or had a closed channel, or saw the queue taken away; everyone behind the front still waits |
| `LeaseQueue.LostExactly` | src/http/http_svc_keeper.cpp:147-150 | even if channels could be closed at any time, the first send is in vain if and only if the channel was closed before it |
| `LeaseQueue.NeverInVain` | src/http/http_svc_keeper.cpp:91-200 | in every run in which channels are closed where the source closes them, failures and races included, a request that is still to be sent its endpoint has an open channel unless its queue was taken away, and no send is in vain otherwise |
| `LeaseQueue.HeldUntilReturn` | src/http/http_svc_keeper.cpp:129-180 | until its holder gives the endpoint back, or a creation for the service fails, nobody else is granted it, whatever else happens |
| `LeaseQueue.OwnEndpoint` | src/http/http_svc_keeper.cpp:91-180 | in every run an endpoint that a request is granted was made for its own service |
| `LeaseQueue.CacheStep` | src/http/http_svc_keeper.cpp:95-121 | a cached endpoint stays until it is found stale or removed; a new one is the one made for the service |
| `LeaseQueue.LookedUp` | src/http/http_svc_keeper.cpp:94-127 | a cached endpoint in order is the one the request goes on with; one that is not is erased, and without one a new one is made |
| `LeaseQueue.MadeForItself` | src/http/http_svc_keeper.cpp:117-122 | a request that made an endpoint goes on with that one, whichever the cache keeps |
| `LeaseQueue.QueuedOrSent` | src/http/http_svc_keeper.cpp:129-150 | it waits behind the others; without others it is sent the endpoint it went on with |
| `LeaseQueue.HandsOn` | src/http/http_svc_keeper.cpp:153-180 | a usable endpoint given back goes, the same, to the first that can still be sent to, and to nobody else; without one the queue ends |
| `LeaseQueue.WaitersClosed` | src/http/http_svc_keeper.cpp:181-197 | one that is not usable, or could not be made, ends the queue, and all that wait in it find their channels closed |
| `LeaseQueue.GrantedAfterFailure` | src/http/http_svc_keeper.cpp:91-150 | after any run a failed creation can be followed by a grant of the service's endpoint |
| `LeaseQueue.FailureBreaks` | src/http/http_svc_keeper.cpp:110-116 | a failed creation lets the assertion of return_back fail next if and only if a lease of the same service is live; otherwise the service goes on as OneLease says |
| `LeaseQueue.RaceBreaks` | src/http/http_svc_keeper.cpp:159-161 | a concrete run in which that assertion fails |
| `LeaseQueue.Interleave` | src/http/http_svc_keeper.cpp:91-214 | the object's methods called in any order compute the run, so both assertions hold at every hand-over |

## Left out

- RelayResponse: starts with nothing unread on the service's connection. Plain requests each get a new connection (src/http/http_svc_keeper.cpp:33, where `host_` is never set); intercepted ones share one (src/https/mitm_svc.cpp:21-28), on which this holds for a response after one that left nothing unread. Bytes left over there would be taken for the next header block, which then need not end with a line end (ParserHeader).
- TransferChunk: that a well-formed body is relayed is for sizes without leading zeros (SizeReadExactly) and size lines of at most 16 bytes (LongLineFails); with a trailer ClosedExactly says when the return means that it was relayed. From position 4 GiB on what get_some shows depends on the blocks (VisibleExact), and the outcomes allowed there are those of any prefix shown.
- LoopsTo: for bodies whose last size line starts below 2 GiB, and ClosedExactly likewise; past it WholeExactly and Overtaken say what is written.
- GetSome: for every position a `size_t` can hold short of its last 2 GiB, where the comparators' sum would itself wrap; every operation on a connection assumes that its stream ends before that (Fits).
- TransferMem: without the merge inside its last assertion, which a build without assertions does not make; where the assertion holds the merge changes nothing.
- Search: the source returns an `int`; here it is unbounded. Using a matcher again after it reported a match is not modelled.
- AsyncWriteAll: write errors are not modelled; the peer takes every byte.
- AsyncLoadUntil: of a read that fails before the delimiter only the end of the stream is modelled, and the delimiter has 1 to 512 bytes (more is an exception in the source). How much one read brings at most is asio's choice; here it is a parameter of the connection, `most`, the same for every read.
- ParserHeader: for blocks that are empty or end with a line end, which is what both callers cut out on a connection without leftovers; the joined value the source builds and never uses is left out, and lower-casing is that of ASCII.
- ParseLine: works on the text that was loaded; ReadRequestLine puts it on a connection. `url_param_start_` where the source leaves it unset is None.
- ForwardRequest: the search for an interception rule is a parameter, the host put in place of the one asked for; tunnels and requests to the proxy itself end in NotProxied.
- ForwardTwo: the first request has a body of known length or none; after chunks what is left unread is what TransferChunk says.
- Host2QName: the loop that goes on for ever is an outcome, `forever`, and its buffer is then not described.
- ParseRfc8484: header fields are read high byte first; the pre-pass under `if (false)` is left out.
- JudgeRecord: the text form of AAAA addresses depends on the machine's byte order, so their 16 bytes are kept as they are; an owner name that is the root is read from an empty string in the source and keeps no name here.
- QName2Host: the reservation that can throw for lack of memory is left out.
- WellFormedMessage: a response with pointers to offsets of 256 or more is not well formed here, since the code follows only their low byte.
- Resolve: the eight-second timer is a step that may happen at any time; the lookup itself, over DNS or HTTPS, is an arbitrary list or a failure.
- LoadHm: the configured mapping is a map, so of two entries for one host only one is there; the path, which nothing in the repository sets, is a parameter.
- RemoveEndpoint: the source erases a stale endpoint through an iterator taken under an earlier lock; here it is erased by key.
- HandOver: the endpoint's own buffer is reset before it is handed on (`SocketMemory.Memory.Reset`); here an endpoint is only its identity.
- OneLease: creations that fail while a lease of the service is live are excluded, exactly because of FailureBreaks; all other failures, and endpoints that become unusable, are included. The step Close, of any channel at any time, is more than the source does.
- Real sockets, TLS, executors and coroutine machinery: replaced by the abstract stream, the append-only sink and atomic steps.
- The buffer of src/https/ssl_socket_wrap.cpp: the same logic as `socket_memory`.
- Certificates, the MITM server, configuration, the HTTP exchange around DNS messages, and `http_do` apart from forwarding one request and relaying one response.
