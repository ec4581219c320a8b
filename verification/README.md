# eQUIC in Dafny

eQUIC limits how many QUIC connections one IPv4 address may hold. The limit exists twice: in an XDP hook
that reads a bounded kernel map kept up to date by the server's connection callbacks, and in a 256-slot table
inside the HTTP server. The HTTP server also carries an interop front end that parses a header block, routes it, and
generates or echoes a body; the echo server returns lines.

This project models those parts and proves what they do over whole runs. Callbacks become events, a
run is any finite sequence of them, and a state machine says what each callback does; beside it stands the callback
itself as a method on the source's fields and buffers, proved to make exactly that step. The lemmas are about every
run: no schedule, chunk size, header list or address is left out unless listed below.

    Address, UserQuota, KernelQuota    addresses, the slot table, the kernel map and the XDP hook
    Connections, KernelRuns, UserRuns  connection events; both quotas over whole runs
    Saturation, QuotaAgreement         closed form of the counters; the two quotas against each other
    HookRuns                           the hook with connection attempts in flight
    Servers                            the connection callbacks of both servers
    IdleText, Wire, GenStream          the generated body, the stream's output, the reply that sends it
    Routes, RouteTable, GenSize        the path patterns, the table and its search, the size of a body
    HeaderSet, DecodeBuffer            header accumulation and the buffer headers are decoded into
    BodyReads, BufferedReply           the body of a request; replies from a buffer
    Interop                            from an accepted header block to its reply, end to end
    PlainText                          the front end's rules in literal text and numbers
    EchoStream, FileReply              the line echo; file replies with the capped first write

`dafny verify dfyconfig.toml` checks everything.

## What the proofs found

- `idle_read` ends if and only if its buffer is under 4 GiB or what remains fits in the buffer's size modulo 4 GiB
  (`IdleText.LoopEndsExactlyWhen`): the distance to the end is cut to 32 bits, and at a multiple of 4 GiB the loop
  makes no progress.
- The index page promises at most 2 GiB. The shift drops bits above 2^64, so `/17179869184G` is accepted as an
  empty body and served so (`Interop.WrappedSizeIsServedEmpty`); an accepted size is the size asked for if and only if that is at most 2 GiB
  (`GenSize.SizeRule`). The model follows the code.
- Closing a refused connection decrements the slot of its octet. Admitted connections exceed a slot by at most the number of
  refused closes, and for every n there is a run that reaches 5 + n admitted connections with n refused closes
  (`UserRuns.DriftBound`, `UserRuns.DriftBoundIsTight`). On every run the excess is exactly the number of refused closes that
  found the slot above zero, less the number of admitted closes that found it at zero (`UserRuns.DriftIdentity`).
- An address that first connects when the kernel map holds 1024 others never gets a key, and any number of its connections
  get in one after the other (`KernelRuns.KeysAreForever`, `HookRuns.QuotaNeedsAKey`).
- The hook reads the counter before the connection is counted. With at most K attempts in flight the counter is at most
  4 + K, and that is reached (`HookRuns.OvershootBound`, `HookRuns.OvershootIsTight`).
- `http_server_interop_on_write` ignores whether its headers were sent. If they were not, the reply goes out and ends
  without them (`BufferedReply.HeadersCanBeMissing`); headers come first if and only if the first callback sent them or
  nothing was written (`BufferedReply.WholeReply`).
- A file write that fails on a connection going away falls through: if it had pulled the rest of the file, the send side is
  shut with the file incomplete, and in no other case (`FileReply.ShutShortExactlyWhen`).
- The header-echo handler takes any nonempty read as the whole body, and calls it too long if a byte follows. Its verdict
  is the one its messages describe if and only if the body is empty, or longer than the headers' text, or its first read
  gives exactly as many bytes as that text (`BodyReads.VerdictIsRightExactlyWhen`). So a body of the right size that comes in
  two pieces is called too long, and a shorter one that comes at once is compared, over a buffer it does not
  fill (`BodyReads.WrongVerdicts`).
- The echo is the input's complete lines if and only if every write was taken whole (`EchoStream.EchoRefines`); the
  server ignores what a write returns. A read that fails counts as a byte: the handler takes for input what was read if and
  only if no read failed (`EchoStream.ConsumesTheInput`).
- `find_handler` never looks at the method, so a GET path answers POST. A negative `-w` becomes a cap near 2^64
  (`FileReply.ImmediateWriteIsCapped`).

## Model

| member | source | states |
|---|---|---|
| Address.ExtractLastOctet | http_server.c:444-463 | For every text whose last dot (index 1 or later) is followed by at most three characters, the backward scan copies that tail and a terminator inside the four-byte buffer and returns the number it spells; for digits, their value |
| Address.AtoiReads | http_server.c:462 | Digits are read up to the first other character, after a blank or a sign |
| Address.LastOctetOfNtoa | http_server.c:465-469 | On the dotted quad of any address, the scan's precondition holds and its result is the fourth octet: always an index into the table |
| UserQuota.QuotaTable.constructor | http_server.c:431-433 | 256 slots, all zero |
| UserQuota.QuotaTable.SlotOf | http_server.c:467-469 | Print and scan yield the fourth octet, for every peer |
| UserQuota.QuotaTable.IncQuota | http_server.c:465-475 | Only the peer's slot changes, by one |
| UserQuota.QuotaTable.DecQuota | http_server.c:477-490 | Only the peer's slot changes, and never below zero |
| UserQuota.QuotaTable.ReachedQuotaLimit | http_server.c:492-510 | True exactly when the peer's slot holds at least 5 |
| KernelQuota.CountersMap.UpdateElem | src/equic_kern.c:24-36 | A map of 1024 entries: exist-only updates need the key, create-only updates need its absence and room; a failed update changes nothing |
| KernelQuota.CountersMap.EquicIncCounter | src/equic_user.c:82-120 | The callback's effect on the whole map, with and without the key and when the map is full |
| KernelQuota.CountersMap.EquicDecCounter | src/equic_user.c:127-156 | The callback's effect on the whole map: keys stay, zero stays zero |
| KernelQuota.DropsExactlyExhaustedUdp | src/equic_kern.c:59-128 | For any bytes: dropped if and only if long enough, UDP, and from an address whose counter is at least 5; such a packet is never aborted |
| KernelQuota.VerdictInNumbers | src/equic_kern.c:59-128 | For any bytes and map: aborted if and only if under 34 bytes, or under 42 with byte 23 equal to 17; dropped if and only if at least 42, byte 23 equal to 17 and the counter of the address in bytes 26 to 29 at least 5; everything else passes |
| KernelRuns.ExactStep | src/equic_user.c:82-156 | Every open and close keeps the invariant: counters are live counts, keys are the first 1024 distinct peers |
| KernelRuns.KernelMapExact | src/equic_user.c:82-156 | On every run each key holds its address's live count, the keys are exactly the first 1024 addresses to open, and an address that opened and has no key means a full map |
| KernelRuns.MatchedCloseDecrements | src/equic_user.c:139-155 | Closing a live connection never meets a zero counter |
| KernelRuns.KeysAreForever | src/equic_user.c:106-119 | In every continuation of a run, an address that has opened keeps its key or its lack of one |
| UserRuns.BoundedStep | http_server.c:554-568 | Each open and close, refused or not, keeps slot within 0 to 5 and within the refused closes of the admitted count |
| UserRuns.DriftBound | http_server.c:477-510 | For every run and octet: 0 <= slot <= 5, and admitted minus slot is between 0 and the refused closes, so admitted is at most 5 plus those |
| UserRuns.ExactSlotBreaksOnlyAt | http_server.c:630-633 | From an exact slot, one step leaves it inexact if and only if it closes a refused connection of that octet while the slot is above zero |
| UserRuns.DriftIdentity | http_server.c:477-490 | For every run and octet, admitted minus slot equals the refused closes at a slot above zero minus the admitted closes at slot zero |
| UserRuns.DriftBoundIsTight | http_server.c:554-568 | For every n, a run with n refused closes after which 5 + n admitted connections of one address are live |
| Saturation.SatIsMaxSuffixNet | http_server.c:483-486 | A counter that never goes below zero equals the largest net sum over the suffixes of its operations |
| Saturation.TableClosedForm | http_server.c:465-490 | After any calls, matched or not, a slot is that maximum for its octet's calls |
| Saturation.MapClosedForm | src/equic_user.c:94-155 | So is a kernel counter read as 0 when absent, if and only if no increment of its peer met a full map without its key, or the peer's operations come to 0 anyway |
| Saturation.TurnedAwayForGood | src/equic_user.c:106-119 | Once turned away by a full map, a peer has no key and the map stays full; a peer not turned away has exactly its saturating count |
| Saturation.ClosedFormNeedsRoom | src/equic_user.c:106-119 | For every peer, 1024 openings by others and then its own: turned away, read as 0, and the formula gives 1 |
| Saturation.MapIsSat | src/equic_user.c:94-155 | A present key equals the saturating counter of its own calls and is not negative; an absent one with a nonzero count implies a full map |
| QuotaAgreement.NetHasRoom | src/equic_kern.c:35 | Clients of one /24 network never fill the map |
| QuotaAgreement.AgreementBreaksOnlyAtRefusal | http_server.c:550-568 | From agreement, one step keeps all slots equal to the counters if and only if it refuses nobody |
| QuotaAgreement.QuotasAgree | http_server.c:492-510 | On every run over one /24 in which nobody is refused: slot, counter and live count are equal, and the slot has reached the limit exactly when the hook drops that host's UDP packets |
| HookRuns.CommittedStep | src/equic_kern.c:92-121 | Under any interleaving only the arrival of a UDP packet of the peer's own, passed below the quota, raises counter plus attempts in flight, by one |
| HookRuns.EventsInNumbers | src/equic_kern.c:92-121 | What arrivals, deliveries, abandoned attempts and closes each do to the attempts in flight, the live connections and the counter |
| HookRuns.OvershootInvariant | src/equic_kern.c:92-121 | While at most K attempts are in flight, counter plus attempts in flight is at most 4 + K |
| HookRuns.OvershootBound | src/equic_kern.c:92-121 | So the counter, and the live connections of an address with a key, are at most 4 + K |
| HookRuns.OvershootIsTight | src/equic_kern.c:105-115 | For every address and K >= 1 some run reaches 4 + K |
| HookRuns.QuotaNeedsAKey | src/equic_kern.c:92-99 | For every address and n there is a run in which it holds n live connections, one attempt at a time, and its packets still pass |
| Servers.HttpServer.constructor | http_server.c:433 | A server starts in the empty run's state of both quotas |
| Servers.HttpServer.OnNewConn | http_server.c:529-574 | The callback makes exactly the open step of the quota in use, leaves the other alone, and closes the connection exactly when that step refuses it |
| Servers.HttpServer.CountStops | http_server.c:593-615 | The server is stopped once, by the last close during cooldown or by the close that reaches the maximum |
| Servers.HttpServer.OnConnClosed | http_server.c:586-643 | The callback makes exactly the close step of the quota in use, refused connections included, and stops the server under those conditions |
| Servers.EchoServer.OnNewConn | echo_server.c:92-116 | The open step of the kernel map; the connection goes to the end of the list |
| Servers.EchoServer.OnConnClosed | echo_server.c:119-146 | The close step of the kernel map; the connection leaves the list; stopped by the close that brings the count to zero, once |
| Servers.WithoutRemoves | echo_server.c:137 | Unlinking removes that connection and no other |
| Servers.WithoutKeepsOrder | echo_server.c:137 | The other connections keep their order |
| IdleText.ReadNext | http_server.c:1807-1829 | n bytes of the repeated text followed by m from where that left the offset are n + m bytes, and the offset agrees |
| IdleText.ReadsCompose | http_server.c:1807-1829 | Reading c1 then c2 gives the bytes, the count and the offset of reading c1 + c2, whatever remains |
| IdleText.LoopEndsExactlyWhen | http_server.c:1815-1826 | The copying loop ends if and only if the count is below 4294967296 or what remains is at most the count modulo 4294967296 |
| IdleText.LoopCanHang | http_server.c:1815-1826 | With 4 GiB to fill and one byte remaining the loop is still running after any number of rounds |
| IdleText.GenFile.ChunkSize | http_server.c:1817-1819 | Whenever the loop can end, each round copies at least one byte, from within one copy of the text, and the loop can still end |
| IdleText.GenFile.IdleRead | http_server.c:1807-1829 | Writes min(count, remain) bytes of the repeated text from the offset, nothing outside them, and moves remain and offset accordingly; required: that the loop ends |
| IdleText.GenFile.InteropPreadv | http_server.c:1866-1881 | Over any list of disjoint buffers, required only that the loop ends in each: the bytes, taken in list order, are those of one contiguous read, and memory outside the buffers is unchanged |
| IdleText.GenFile.ReadBuffer | http_server.c:1874-1878 | One buffer continues the text where those before it ended and leaves them as they are |
| GenStream.WholeBody | http_server.c:1884-1957 | Under every schedule, failing writes included, and every mix of the two paths: promises (if the request named an authority), one header block announcing the size, then a prefix of the repeated text; once anything was written, shut exactly when the body equals the announced length |
| GenStream.OneMoreCall | http_server.c:1884-1957 | What one more callback does at any point of any run: the headers or the close, nothing after the end, or a write of exactly min(left, asked) bytes, asked through the scatter path if that asks for any and through the reader otherwise; a failing write ends the program |
| GenStream.Completes | http_server.c:1896-1919 | If the engine pulls at least a byte each time, one callback for the headers and one per byte (at least one) complete the whole body |
| Wire.MonitorIsStrict | http_server.c:1884-1957 | The monitor that the ordering claims rest on: each promise after headers, second headers, body before headers or after the end, and second end clears it |
| GenStream.Stream.OnWrite | http_server.c:1884-1957 | idle_on_write makes exactly that step, the exit after a failing write included |
| GenStream.Stream.PullBody | http_server.c:1898-1913 | The scatter path, and the reader when that gave nothing, deliver the next bytes of the text, required only that each loop ends |
| GenStream.Stream.PullScattered | http_server.c:1900-1901 | What the buffers hold after the scatter path are the next bytes of the text |
| GenStream.Stream.WriteFromReader | http_server.c:1908-1912 | Any sequence of reader chunks delivers the next min(sum, remain) bytes, as one read would |
| GenStream.Stream.SendPromises | http_server.c:1925-1947 | Empties the list, promising every path once and in order |
| Routes.RegExecIsDenotes | http_server.c:1537 | For patterns in which no group can run into what follows it, greedy matching finds the match if there is one, and there is only one |
| Routes.PrintDenotes | http_server.c:1477-1484 | Printing any fitting captures and matching gives them back |
| Routes.DenotesIsPrint | http_server.c:1504 | Whatever matches is, up to letter case, the printed form of its captures |
| RouteTable.GenPatternSeparated | http_server.c:1477-1484 | Every regular expression of the table is such a pattern |
| RouteTable.GenPushCountUnique | http_server.c:1477-1484 | A path fits only one number of pushes, with one list of captures |
| RouteTable.RoutesAreDisjoint | http_server.c:1471-1485 | No path hits two entries, so the table's order is irrelevant |
| RouteTable.FindHandler | http_server.c:1526-1542 | Returns an entry the path hits with that entry's captures, or that no entry is hit; the method plays no part |
| RouteTable.FindsIsUnique | http_server.c:1526-1542 | There is only one such answer |
| RouteTable.GenPathRoundTrip | http_server.c:1477-1484 | Prefix, digits, unit and any push values printed as a path: found at the entry of that prefix and number of pushes with exactly those parts, and with more than three pushes found nowhere |
| RouteTable.GenPathFoundOnly | http_server.c:1526-1542 | Whatever a search returns for such a path is that entry and those parts |
| GenSize.SizeRule | http_server.c:1646-1668 | Saturated numbers are refused under every unit; otherwise accepted if and only if the product modulo 2^64 is at most 2 GiB, with that value; an accepted size is the product itself if and only if the product is at most 2 GiB |
| GenSize.SizeCanWrap | http_server.c:1559-1560 | The stated 2 GiB limit fails for the digits 17179869184 with unit G: accepted as 0 |
| HeaderSet.FieldsFollowHeaders | http_server.c:2093-2168 | After any headers: first path, first method, last authority; each flag bit set exactly when its field is; no add was refused exactly when path and method came at most once |
| HeaderSet.StoresTheValues | http_server.c:2130-2165 | Told from the headers' own values, up to a terminator if there is one: the first path, the first method, which is GET or POST exactly when its value is that word, and the last authority are what is stored |
| HeaderSet.AcceptedStores | http_server.c:2093-2168 | In an accepted block the stored path and method are those of its one path and one method header |
| HeaderSet.AcceptanceRule | http_server.c:2099-2109 | A header block of any length is accepted if and only if it has one :path, one :method and at least one :authority |
| HeaderSet.AcceptanceUnderFailures | http_server.c:2093-2168 | With allocations that may fail, a header block is accepted if and only if the text grew every time, every path, method and authority was copied, and that rule holds |
| HeaderSet.QifIsLines | http_server.c:2112-2128 | The echoed text is name, tab, value, newline for every header in order, refused duplicates included |
| HeaderSet.LinesInCharacters | http_server.c:2124-2127 | Two headers as their exact characters |
| HeaderSet.LinesRoundTrip | http_server.c:2124-2127 | Parsing that text gives the header list back, if names hold no tab and values no newline |
| HeaderSet.HeaderBlock.constructor | http_server.c:2049-2059 | A new request has no field, no flag and no text |
| HeaderSet.HeaderBlock.AppendLine | http_server.c:2117-2128 | The five stores into the grown buffer append exactly that line, and the size is the buffer's length; a failed realloc leaves no text |
| HeaderSet.HeaderBlock.AddHeader | http_server.c:2093-2168 | The callback makes exactly the step above and returns its code, -1 for each failing allocation included; the closing call changes nothing and returns the final check |
| DecodeBuffer.AlwaysPacked | http_server.c:2062-2090 | Every request and decode keeps the offset inside the buffer and the decoded headers in order below it |
| DecodeBuffer.HeadersNeverOverlap | http_server.c:2062-2090 | Any two headers of a run occupy disjoint ranges inside the buffer |
| DecodeBuffer.RefusedExactlyWhenFull | http_server.c:2075-2081 | A new header is refused if and only if the headers before it add up to the whole buffer |
| DecodeBuffer.OnlyGrows | http_server.c:2082 | The offset never goes back and no decoded header moves |
| DecodeBuffer.Decoder.PrepareDecode | http_server.c:2062-2090 | Always None, with no change, for a header that was given room; otherwise None exactly when the headers before fill the buffer, else everything from the new offset |
| DecodeBuffer.Decoder.SetDecoded | http_server.c:2087-2089 | A decode within the room given keeps the buffer packed |
| BufferedReply.WholeReply | http_server.c:1988-2008 | Under every schedule of failed headers, partial writes and errors: the body is the first off bytes; shut exactly when all went out; the headers go out once, announcing the size, or not at all; they come before the body if and only if the first callback sent them or nothing was written |
| BufferedReply.OneMoreCall | http_server.c:1988-2008 | What one more callback does at any point of any run: the headers, nothing after the end, the abort, or a write of exactly what the engine takes |
| BufferedReply.HeadersCanBeMissing | http_server.c:1990-1994 | Headers that fail and a write that succeeds: the whole reply goes out and ends without headers |
| BufferedReply.Completes | http_server.c:1990-2008 | If the headers go out and every write takes at least a byte, one callback for the headers and one per byte send headers and the whole buffer, in that order |
| BufferedReply.OffsetOnlyGrows | http_server.c:2004 | The offset is monotone over any continuation |
| BufferedReply.Reply.OnWrite | http_server.c:1988-2008 | The reply branch makes exactly that step, ignoring whether the headers were sent |
| EchoStream.EchoAppend | echo_server.c:197-202 | Input that is echoed whole does not affect what is echoed of the rest |
| EchoStream.EchoInNumbers | echo_server.c:197-208 | A line of up to 256 characters with its newline is echoed whatever follows; 256 characters without one end the echo; the rest after the last newline is not echoed |
| EchoStream.EchoRefines | echo_server.c:183-224 | For every schedule, output plus the line waiting to go is the echo of what the handler took for input (complete lines up to the first 256 bytes without newline) if and only if no write was short; read and write are never both wanted |
| EchoStream.ConsumesTheInput | echo_server.c:183-213 | What the handler took for input is what was read if and only if no read failed; a failed one adds a byte of its own |
| EchoStream.FullBufferLosesNothing | echo_server.c:203-208 | When the stream is shut for a full buffer, the output is the echo of the whole input, whatever was left unread, if and only if no write was short |
| EchoStream.ShutExactlyWhen | echo_server.c:183-213 | On every run the stream is shut if and only if a read that was asked for met the end, or the last 256 bytes hold no newline; until then it waits for a write if a line is complete, else for a read |
| EchoStream.EchoesTheWholeInput | echo_server.c:183-224 | When every callback that is waited for comes, without failures or short writes, then after twice the input's length and one more the stream is shut and the output is the echo of the whole input |
| EchoStream.AlwaysServable | echo_server.c:183-224 | Such a run never gets stuck: there is always a callback that is waited for |
| EchoStream.Stream.constructor | echo_server.c:157-166 | A new stream has an empty 256-byte buffer and waits for a read |
| EchoStream.Stream.OnRead | echo_server.c:183-213 | The callback makes exactly the read step, every store inside the buffer, end of input and failed reads included |
| EchoStream.Stream.OnWrite | echo_server.c:216-224 | The callback makes exactly the write step |
| FileReply.WholeFile | http_server.c:892-977 | Whatever the cap, the chunks, the delay and the failures: headers once and first, the body a prefix of the file. Unless a write failed, shut exactly by the write that sends the last byte, and until then a write or the timer is awaited; delayed only if asked for and after 10,000,000 bytes |
| FileReply.TheRequest | http_server.c:1083-1121 | What the request does after any run without one: with no cap it asks for a write; with one, headers and exactly min(pulled, cap, size) bytes at once, and the end if that is all; failures end the program |
| FileReply.OneMoreWrite | http_server.c:892-977 | What one more write callback does at any point of any run: headers, end, delay, failure, or exactly min(pulled, left) bytes |
| FileReply.Completes | http_server.c:892-977 | After as many callbacks as Callbacks(p) says, each the awaited one, none failing and each later write pulling at least a byte, the whole file is sent and the stream shut |
| FileReply.CallbacksInNumbers | http_server.c:892-977 | That many: the bytes, one for the request, one for the headers unless there is a cap, and two for the delay of a file of more than 10,000,001 bytes |
| FileReply.CompletesIsTight | http_server.c:892-977 | For every file, cap and delay there is such a run of one callback fewer that has not ended |
| FileReply.ShutShortExactlyWhen | http_server.c:940-972 | On every run the stream is shut before all went out if and only if some write pulled the rest of the file and failed on a connection going away |
| FileReply.ShutShort | http_server.c:940-972 | A run on a two-byte file that does so |
| FileReply.ImmediateWriteIsCapped | http_server.c:1083-1108 | After any run without one, the first write sends at most the cap, which is the option's value unless that is negative |
| FileReply.NoWrap | http_server.c:995 | The 64-bit subtraction never wraps while nread is within the cap |
| FileReply.FileStream.CappedSize | http_server.c:987-996 | The smaller of what the cap leaves and what the file leaves |
| FileReply.FileStream.CappedRead | http_server.c:999-1010 | Delivers exactly the least of what is asked, what the file gives, what the cap leaves and what is left |
| FileReply.FileStream.WriteCapped | http_server.c:1088-1102 | Any sequence of capped reads pulls exactly the least of what they ask and get, the cap and what is left, and sends it unless the write fails |
| FileReply.FileStream.WritePlain | http_server.c:936-939 | Any sequence of reads pulls exactly the lesser of what they ask and get and what is left, and sends it unless the write fails |
| FileReply.FileStream.ProcessRequest | http_server.c:1083-1121 | process_request in reader mode makes exactly the request step with the pulls the engine asks for, the exits included |
| FileReply.FileStream.OnWriteCallback | http_server.c:892-977 | http_server_on_write in reader mode makes exactly the write step with the pulls the engine asks for, the failure branch included |
| FileReply.FileStream.ResumeResponse | http_server.c:828-841 | The timer makes exactly the resume step |
| Interop.ErrorBody | http_server.c:1588-1599 | An error's body is never empty, inside the buffer, and the whole message when that fits; otherwise a prefix |
| Interop.Md5Page | http_server.c:1714-1721 | A digest of 32 digits is on its page in full |
| Interop.CollectPushes | http_server.c:1670-1682 | The push list is the captured values in order, up to the first unused group |
| Interop.StrtolReadsTheCapture | http_server.c:1646 | The number read from the middle of the path is the captured digits |
| Interop.GenFileCase | http_server.c:1644-1683 | The generated-file case computes the shifted size, refuses or accepts it, and collects the pushes |
| Interop.OnFirstRead | http_server.c:1614-1689 | The first read decides as specified: 500, 400, 501, 404, 406, or the index page, the generated file, the digest or the echo of the entry the path hits |
| Interop.AnswerIsUnique | http_server.c:1614-1689 | No request has two answers under that specification |
| Interop.AcceptedIsAnswered | http_server.c:1619-1630 | An accepted header block never gets 400 or 500: 501 exactly when its method is neither GET nor POST, otherwise 404, 406 above 2 GiB, the page, or a body within 2 GiB and three pushes; the text to echo is not empty |
| Interop.GenPathIsAnswered | http_server.c:1644-1683 | A printed path of any size and any number of pushes has, for GET and POST alike, exactly one answer: 404 with more than three pushes, 406 when the computed size is above 2 GiB, otherwise generating the computed size with exactly those pushes |
| Interop.WrappedSizeIsServedEmpty | http_server.c:1646-1668 | A request for /17179869184G is answered by generating 0 bytes, and under every schedule served so |
| Interop.GeneratedFileEndToEnd | http_server.c:1644-1957 | An accepted header block with such a path has that one answer; when it is to generate, under every schedule the announced length is the computed size (the size asked for if and only if that is at most 2 GiB), all pushes are promised, the body is the repeated text, and the end comes with its last byte |
| Interop.BufferedEndToEnd | http_server.c:1614-2008 | Every other answer to an accepted header block is sent from a buffer that is not empty: a prefix of it under its own length, ended exactly when whole; an error is its formatted message under its own status |
| Interop.BufferHolds | http_server.c:1632-1640 | That buffer is the error's message, the page, the digest page of the body, or the headers as lines |
| Interop.FixedPathIsAnswered | http_server.c:1473-1476 | A path that matches one of the four fixed entries in any case, with GET or POST, has exactly that entry's answer |
| Interop.EchoEndToEnd | http_server.c:1639-2008 | An accepted header block to the header echo gets a prefix of its own lines, and when the reply has ended, text that parses back to the header list |
| Interop.DigestEndToEnd | http_server.c:1699-2008 | A body sent to the MD5 handler in any pieces gets the page with the digest of the whole body, and no other answer |
| BodyReads.HashesTheBody | http_server.c:1570-1583 | However a body is cut into pieces, what is hashed when the handler is done is the body, and unless a read fails it is done within one read per byte and one more |
| BodyReads.ExitsExactlyWhen | http_server.c:1700-1705 | The program ends if and only if a read of a body not yet done fails |
| BodyReads.OneMoreRead | http_server.c:1699-1712 | One more read adds its bytes, and is the last if and only if a piece is marked as the end or nothing came |
| BodyReads.Md5Reader.OnRead | http_server.c:1699-1712 | One readf of any pieces, failing or not, makes exactly the read step |
| BodyReads.RepliesByTheSecondRead | http_server.c:1727-1775 | The verdict comes at the second read at the latest, and at the first exactly when that is empty or there is no text to compare with; it is too short, too long or a comparison as the first read alone decides |
| BodyReads.CheckExitsExactlyWhen | http_server.c:1737-1775 | The program ends if and only if the first read fails while there is text to compare with; a failing second read counts as a byte too many |
| BodyReads.VerdictIsRightExactlyWhen | http_server.c:1737-1771 | The verdict is the one the messages describe if and only if the body is empty, or too long, or its first read gives as many bytes as the text has |
| BodyReads.WrongVerdicts | http_server.c:1737-1771 | Every body of the right size cut anywhere in two is called too long; every nonempty body that is too short and comes at once is compared |
| BodyReads.BodyChecker.OnRead | http_server.c:1727-1775 | The header-echo branch makes exactly the read step, failing reads included; memcmp looks at the whole buffer, and decides whether body and text are equal when the buffer was filled |
| PlainText.GenPathInText | http_server.c:1477-1484 | The printed path for each number of pushes, as literal text |
| PlainText.SizesInNumbers | http_server.c:1646-1668 | With 1, 1024, 1048576 or 1073741824 for no unit, K, M and G in either case: up to 2147483648 accepted as the product, above it and below 2^64 refused, and refused when the digits' value is 9223372036854775807 or more |
| PlainText.SizedPathIsAnswered | http_server.c:1644-1668 | "/" or "/file-", digits and a unit, with GET or POST: generates exactly that many bytes, or 406 naming that number |
| PlainText.PushedPathIsAnswered | http_server.c:1670-1682 | The same with one to three pushes: generates that many bytes with exactly those pushes |
| PlainText.OtherUnitIsNotFound | http_server.c:1477 | "/5" and any character that is no digit and no unit: 404 |
| PlainText.FixedPathsInText | http_server.c:1473-1476 | "/" and "/index.html", also in capitals, get the index page with 200; the two cgi paths the digest and the echo |
| PlainText.WaitsForBody | http_server.c:1475-1476 | The replies that wait for the body are those of the entries flagged for it |
| PlainText.RefusalsInText | http_server.c:1619-1626 | 500 without a header set, 400 without method or path, 501 for other methods, and nothing else in those cases |
| PlainText.ErrorsInText | http_server.c:1620-1624 | Three error bodies, word for word |
| PlainText.QuotingErrorsInText | http_server.c:1626-1629 | The 501 and 404 bodies, word for word around method and path |
| PlainText.SizeErrorInText | http_server.c:1666-1668 | The 406 body, word for word around the number, which is printed as a signed one |

## Left out

- KernelQuota.CountersMap.EquicIncCounter: counters are unbounded integers; an `int` wraps at 2^31 live connections of one address.
- UserQuota.QuotaTable.IncQuota: slots are unbounded integers; no run takes one above 5 (`UserRuns.DriftBound`).
- Address.ExtractLastOctet: a text with a longer tail overruns the four-byte buffer; the printer never makes one.
- FileReply.WholeFile: reader mode only; the `pwritev` path and its fallback reader are not modelled.
- FileReply.FileStream.ProcessRequest: reader mode only; the `pwritev` mode is not modelled.
- FileReply.FileStream.OnWriteCallback: reader mode only; the `pwritev` path and its fallback reader are not modelled.
- GenStream.Stream.SendPromises: the promises are those handed to the engine, which may refuse one; one whose request cannot be allocated is counted with them, as the code only logs both.
- DecodeBuffer.Decoder.PrepareDecode: the buffer's size is a parameter; LSXPACK_MAX_STRLEN is not part of this model, and neither are the lsxpack functions.
- Routes.RegExecIsDenotes: not the POSIX engine but its grammar on the table's expressions; with a single possible match, the choice of engine does not matter.
- The engine is an environment: callbacks do not overlap, a read gives up to what was asked or fails, a connection closes once and keeps its address. A write that succeeds has sent what it pulled from a reader; a write that fails may have pulled bytes that are lost. A write may succeed on a stream whose headers could not be sent. Events that this rules out leave the state unchanged.
- The MD5 digest is a parameter: the model keeps the bytes where the source keeps their digest.
- Text is modelled as characters; only packets are bytes. IPv6 peers are not modelled: the source reads every peer as IPv4.
- The hook checks neither EtherType nor IP options, and the model does not either; the rate-limit map is unused by the source.
- The pthread lock around the table: with serialised callbacks it has no effect.
- Push promises in file mode, hq mode, Host matching and content types.
- Pushed requests as streams of their own: they start from a request without header text.
- BPF loading and signal handlers, timing and request counting, options, logging, TLS, sockets and memory lifetime.
