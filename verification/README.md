# A verified model of lwIP's contributed applications and ports

This project models the stateful cores of the lwIP `contrib` repository in Dafny and proves what
they promise. Each of them runs against an environment it does not control: a TCP window that
shrinks and refuses, other threads, DMA hardware, a server that cuts its replies anywhere, noise on
a serial line. The environment is nondeterministic throughout, and the results hold for whatever it
does.

Code that updates fields, arrays and lists in place is a class whose methods do the same, statement
by statement, and every such method is tied to a function of values: the page with its inserts, the
wire format, the next state of a mailbox, the outcome of a callback. The lemmas are about those
functions and about runs of any length.

## The parts

| files | what they model |
|---|---|
| `SsiTags`, `HttpServer`, `Tcp` | the response engine of the raw HTTP server: headers, static files and pages with SSI tags through `tcp_write` calls that may be refused or shortened |
| `UriParameters` | splitting CGI parameters in place |
| `UnixMailbox` | the 128-slot mailbox of the unix port: threads as program counters, every semaphore operation and shared access a step |
| `Win32Mailbox` | the ring of the win32 port with its counting semaphore taken outside the critical section |
| `Ring`, `FecTransmit`, `FecReceive` | the descriptor rings of the MCF5272 Ethernet driver; the hardware may run between any two writes of a descriptor |
| `Slip`, `Chains` | SLIP framing over arbitrary buffer chains (RFC 1055) |
| `LinkList`, `UnixLink` | the heap list and the queueing link driver of the unix port |
| `Sntp` | the timers and the back-off of the SNTP client |
| `SmtpText`, `SmtpReply`, `SmtpData`, `Base64`, `SmtpDialogue`, `SmtpProgress`, `SmtpServer`, `SmtpClient` | the SMTP client: reply scanner, message framing, Base64, the session as a machine over callbacks, and what a server makes of it |
| `Common` | an option type and C strings |

`dafny verify dfyconfig.toml` checks everything.

## Where the code does less than it promises

The model keeps the code's behaviour, and each gap is stated exactly.

- HTTP: the parse loop stops when nothing is left to parse, so the insert of a tag that ends on the
  very last byte of a page is never sent. A finished response is complete if and only if there is no such
  insert, so every page that does not end with `-->` arrives whole (`CompleteUnlessTagEndsPage`); a page
  that is one tag loses it (`LosesItsInsert`).
- Unix mailbox: a post onto a queue that is not empty signals nobody. A mailbox can therefore lose a
  fetcher's wake-up if, and only if, it has three users or more (`WakeUpLostOnlyAmongThree`); of two
  fetchers beside a poster one can sleep for ever next to a message (`TwoFetchersCanLoseAWakeUp`). With a
  single fetching thread none is lost, and posters lose none in any run (`NoLostWakeUp`).
- Receive ring: the scan for a frame's end goes round for ever if, and only if, all 64 buffers hold
  fragments of one unfinished frame (`ScanStopsUnlessFrameTooLong`); there is such a ring (`FrameTooLong`).
- SMTP: the line that offers ways to log in is copied into the transmit buffer without a look at its
  length. The copy stays inside the buffer if, and only if, there is no such line or it has at most 255
  characters (`PrepareAuthOrMail`); a reply with 300 characters after the keyword leaves it (`LongOffer`,
  `LongOfferEndsTheRun`). What is proved of runs is proved up to that point.
- SMTP: the reply scanner computes with 16-bit offsets. On a text with a code it comes to the right
  verdict if, and only if, the hyphen lines have fewer than 65533 characters or the wrapped offset comes
  upon neither a space nor a hyphen. Upon a space it accepts a text without a whole reply, and upon a
  hyphen it goes on for ever (`ScanDecides`); there are such texts of 65535 characters (`WrapsRound`,
  `GoesRound`). Only codes below 100 can do it (`CodeSettles`), and on those the client closes, so what is
  proved of runs holds up to the moment the scan does not end.
- SMTP: the comments give the server two, three and ten minutes to answer. The timers count polls of two
  seconds, 240, 360 and 1200 of them (`TimeToAnswer`), which makes it eight, twelve and forty.
- SMTP: the client writes a space before the `<` of MAIL and RCPT, which section 3.3 of RFC 5321 does not
  permit; the server of `ServerUnderstands` puts up with it.
- SMTP: the body is not dot-stuffed, so it arrives unchanged if, and only if, it does not begin with a
  dot (`Transparency`). The comment of `smtp_verify` rules out a single CR; with line breaks allowed
  the code lets a CR without LF pass (`SingleCrPasses`), and a text is of the promised form exactly if it
  passes and every CR is followed by an LF (`VerifiedTexts`). Without line breaks the promise is kept.
- SMTP: the Base64 encoder pads texts of whole groups with `A===`, which no standard decoder takes
  (`DecodeEncoded`).
- SLIP: an escape left open by noise costs the first packet, which is glued to the noise
  (`AfterOpenEscape`).

## Model

| member | source | states |
|---|---|---|
| SsiTags.RecognisedTagWasWritten | apps/httpserver_raw/httpd.c:1203-1386 | whatever the five-state recogniser takes for a tag was written as lead-in, spaces, a name of 1 to 8 characters without `-` or space, spaces, lead-out |
| SsiTags.WrittenTagIsRecognised | apps/httpserver_raw/httpd.c:1203-1386 | from ordinary text, every tag so written is recognised at its last character |
| SsiTags.ExpandIsMonotone | apps/httpserver_raw/httpd.c:1147-1495 | what is to be sent for a prefix of a page is a prefix of what is to be sent for a longer one |
| SsiTags.ExpandWithoutTags | apps/httpserver_raw/httpd.c:1147-1495 | a page in which no tag is recognised is sent byte for byte |
| SsiTags.TextIsSent | apps/httpserver_raw/httpd.c:1147-1495 | text without `<` is sent as it is and starts no tag |
| SsiTags.RegisteredTagIsReplaced | apps/httpserver_raw/httpd.c:817-836 | a written tag whose name is registered is sent, followed by the handler's answer for the first registered name equal to it, and by nothing inside it |
| SsiTags.UnknownTagIsReported | apps/httpserver_raw/httpd.c:838-852 | any other written tag is followed by `<b>***UNKNOWN TAG `, its name and `***</b>` |
| HttpServer.HttpWrite | apps/httpserver_raw/httpd.c:595-640 | the halving loop writes a prefix of what it was offered, reports its length, writes at least one byte when it succeeds on a nonempty offer, and all of it when nothing is refused |
| HttpServer.SsiState.GetTagInsert | apps/httpserver_raw/httpd.c:803-853 | the insert is the handler's answer for the first registered tag equal to the stored C string, or the unknown-tag text around that string |
| HttpServer.SsiState.ParseStep | apps/httpserver_raw/httpd.c:1203-1386 | each parsing case moves the fields as the recogniser moves, and has the right insert ready exactly when a tag ends there |
| HttpServer.HttpState.constructor | apps/httpserver_raw/httpd.c:2146-2205 | a new response has written nothing and owes everything |
| HttpServer.HttpState.WriteHeaders | apps/httpserver_raw/httpd.c:960-1003 | header bytes written and header bytes left stay the three header strings in order; without a refusal the headers move on |
| HttpServer.HttpState.SendHeaders | apps/httpserver_raw/httpd.c:960-1014 | the body is continued only when every header byte is out and there is a file |
| HttpServer.HttpState.SendTag | apps/httpserver_raw/httpd.c:1387-1468 | in the sending state the file bytes before the insert go out first, then the insert; what is left to send shrinks with every success |
| HttpServer.HttpState.SendDataSsi | apps/httpserver_raw/httpd.c:1147-1495 | the parse-and-send loop ends; written and waiting bytes make up the expansion of the parsed part; an unfinished page moves on unless the stack refuses something |
| HttpServer.HttpState.SendDataNonSsi | apps/httpserver_raw/httpd.c:1107-1139 | a plain file goes out in order from where it stopped, and moves on unless the stack refuses something |
| HttpServer.HttpState.Send | apps/httpserver_raw/httpd.c:1504-1567 | every call keeps written plus owed equal to the response, and ends the response, moves it on, or was refused something |
| HttpServer.HttpState.Sent | apps/httpserver_raw/httpd.c:2228-2247 | an acknowledgement resets the idle rounds and sends on |
| HttpServer.HttpState.Poll | apps/httpserver_raw/httpd.c:2255-2297 | the poll callback gives up after the fourth idle round and writes nothing then; before that, if there is a file, it ends the response, moves it on, or was refused something |
| HttpServer.HttpState.Serve | apps/httpserver_raw/httpd.c:1504-1567 | over any run of callbacks, windows and verdicts the output is a prefix of the response, and at the end it is all of it exactly when no insert was due after the last byte |
| HttpServer.HttpState.Deliver | apps/httpserver_raw/httpd.c:2228-2247 | as long as nothing is refused the acknowledgements bring the response to its end |
| HttpServer.HttpState.WhatTheClientSees | apps/httpserver_raw/httpd.c:1023-1040 | at any moment a prefix of the response; at end of file all of it but the lost insert |
| HttpServer.HttpState.CompleteUnlessTagEndsPage | apps/httpserver_raw/httpd.c:1198-1198 | at end of file what has been written is the whole response, the three header strings in order and the page, if and only if no insert was due after the very last byte; pages that do not end with `-->` and plain files always arrive whole |
| HttpServer.LosesItsInsert | apps/httpserver_raw/httpd.c:1198-1198 | a page that is a single unknown tag loses the text that reports it |
| HttpServer.HttpState.ParseOrSend | apps/httpserver_raw/httpd.c:1198-1468 | every round of the loop parses a character, sends something, leaves the lead-in, or was refused something |
| UriParameters.JoinedPairsAreTheText | apps/httpserver_raw/httpd.c:734-789 | the pairs joined with `=` and `&` are the text up to the sixteenth pair's end, or up to a space in a last pair that no `&` ends |
| UriParameters.PairCount | apps/httpserver_raw/httpd.c:734-789 | there are as many pairs as ampersands and one more, up to the limit |
| UriParameters.ExtractUriParameters | apps/httpserver_raw/httpd.c:734-789 | cutting the buffer in place leaves every name and value readable as a terminated string, one after the other without overlap, and no more than sixteen |
| UriParameters.CutPair | apps/httpserver_raw/httpd.c:757-775 | a pair ends at the next ampersand, or at a space if there is none, and what follows is untouched |
| UriParameters.CutValue | apps/httpserver_raw/httpd.c:777-786 | a pair is cut at its first equals sign, or has no value |
| UnixMailbox.FirstInFirstOut | ports/unix/sys_arch.c:193-347 | for any threads and any interleaving: fetched is a prefix of posted, at most 127 messages wait and each is still in its slot, at most one thread is in the critical section |
| UnixMailbox.NoLostWakeUp | ports/unix/sys_arch.c:193-347 | in every run, for any number of posting and fetching threads, a parked poster is never left without a reason to be woken; with one fetching thread no parked fetcher is either |
| UnixMailbox.WakeUpLostOnlyAmongThree | ports/unix/sys_arch.c:193-347 | a run after which a fetcher is parked beside a message with no signal given or under way exists if and only if the mailbox has three users or more |
| UnixMailbox.NoDeadlock | ports/unix/sys_arch.c:230-347 | with one fetching thread, if nobody can step then everybody is idle or the fetcher waits on an empty queue, or messages wait that the fetcher is not fetching |
| UnixMailbox.PostAnswers | ports/unix/sys_arch.c:193-265 | in every reachable state in which nobody is in the critical section, a post and a trypost by themselves deliver the message if fewer than 127 wait; with 127 the post counts itself and parks and the trypost changes nothing |
| UnixMailbox.FetchAnswers | ports/unix/sys_arch.c:267-347 | likewise a fetch and a tryfetch take the first waiting message and signal a waiting poster; if none waits the tryfetch changes nothing and the fetch parks, a timed one until its time is up |
| UnixMailbox.WokenPosterAnswers | ports/unix/sys_arch.c:238-265 | a parked poster that is woken uncounts itself and delivers its message, or parks again if the ring is full |
| UnixMailbox.WokenFetcherAnswers | ports/unix/sys_arch.c:300-347 | a parked fetcher that is woken takes the first message, or parks again if there is none |
| UnixMailbox.TwoFetchersCanLoseAWakeUp | ports/unix/sys_arch.c:219-222 | in any mailbox with two fetchers and a poster among its users there is a run of two fetches and two posts after which one fetcher sleeps beside a message and nobody can step |
| UnixMailbox.FifoNext | ports/unix/sys_arch.c:193-347 | every step of every thread keeps the ring equal to the messages posted and not yet fetched |
| UnixMailbox.PosterWokenNext | ports/unix/sys_arch.c:230-347 | every step of every thread keeps a parked poster's reason to be woken |
| UnixMailbox.FetcherWokenNext | ports/unix/sys_arch.c:193-347 | every step keeps a parked fetcher's reason to be woken, except the one by which one fetcher takes the signal while another is parked beside a message |
| UnixMailbox.PairAwakeNext | ports/unix/sys_arch.c:193-347 | among two users, whatever either does, every step keeps a parked fetcher's reason to be woken |
| UnixMailbox.CountStep | ports/unix/sys_arch.c:238-248 | the wait counter changes exactly with the posters between counting and uncounting themselves |
| UnixMailbox.OneOwnerNext | ports/unix/sys_arch.c:415-459 | the saturating mutex semaphore is taken by one thread and given back only by its owner |
| UnixMailbox.SysMbox.Post | ports/unix/sys_arch.c:193-265 | each statement of post and trypost does to the ring, the semaphores and the counter what the machine's step does |
| UnixMailbox.SysMbox.Fetch | ports/unix/sys_arch.c:267-347 | the same for fetch and tryfetch, with and without a timeout |
| UnixMailbox.SysMbox.Step | ports/unix/sys_arch.c:193-347 | any thread's step on the shared structure is the machine's step, and it moves exactly when the machine can |
| UnixMailbox.SysMbox.constructor | ports/unix/sys_arch.c:155-175 | a new mailbox is an initial state of the machine |
| Win32Mailbox.EveryRun | ports/win32/sys_arch.c:293-397 | in every run: first in first out, nothing overwritten; semaphore plus claims plus the release under way equal the ring's fill; no fetch reads an unwritten slot; no release exceeds the maximum |
| Win32Mailbox.NoDeadlock | ports/win32/sys_arch.c:293-397 | threads are all stuck only if nobody holds the section and everyone fetching waits without limit on an empty ring |
| Win32Mailbox.TryPostAnswers | ports/win32/sys_arch.c:293-323 | in every reachable state in which nobody is in the critical section a trypost by itself delivers its message if fewer than 99 wait, and changes nothing otherwise |
| Win32Mailbox.FetchAnswers | ports/win32/sys_arch.c:325-397 | likewise a fetch takes the first message if there is one no other fetch has claimed; if not, a tryfetch or a fetch whose time is up changes nothing, and an unlimited fetch waits |
| Win32Mailbox.InvNext | ports/win32/sys_arch.c:293-397 | every step of every thread keeps the ring, the section's owner and the accounting |
| Win32Mailbox.AccountStep | ports/win32/sys_arch.c:309-363 | every step changes the semaphore, the claims and the ring's fill in balance |
| Win32Mailbox.Mbox.TryPost | ports/win32/sys_arch.c:293-323 | each statement of a post is the machine's step on head, slots, semaphore and section |
| Win32Mailbox.Mbox.Fetch | ports/win32/sys_arch.c:325-397 | the same for both fetches |
| Win32Mailbox.Mbox.Step | ports/win32/sys_arch.c:293-397 | any thread's step keeps the accounting invariant |
| FecTransmit.FecTx.LowLevelOutput | ports/old/coldfire/netif/5272fec.c:339-410 | a frame is refused exactly when it needs more descriptors than are free, and otherwise enters the ring whole, whatever the hardware does meanwhile |
| FecTransmit.FecTx.SetFlags | ports/old/coldfire/netif/5272fec.c:388-400 | flags set from the last descriptor back to the first hand the frame over whole |
| FecTransmit.FecTx.Look | ports/old/coldfire/netif/5272fec.c:388-400 | whenever the hardware finds its next descriptor ready, all up to the end of the frame are ready |
| FecTransmit.FrameIsReady | ports/old/coldfire/netif/5272fec.c:388-400 | in a ring whose published part is whole frames a ready descriptor has the rest of its frame ready |
| FecTransmit.FecTx.RemoveFrame | ports/old/coldfire/netif/5272fec.c:294-315 | the first frame leaves the ring, all its slots become free, and its head buffer is freed |
| FecTransmit.FecTx.TxCleanup | ports/old/coldfire/netif/5272fec.c:271-329 | with other threads offering frames and the hardware working in between: the frames that leave are a front part of those in the ring and accepted meanwhile, each is freed by its head, nothing accepted, freed or sent is forgotten, and no transmitted frame stays |
| FecTransmit.FecTx.FoundDone | ports/old/coldfire/netif/5272fec.c:288-294 | a descriptor that is not ready and has a buffer has been transmitted, and its last bit marks the end of the first frame |
| FecTransmit.FecTx.Serve | ports/old/coldfire/netif/5272fec.c:271-410 | in every run the occupied slots are one cyclic interval of whole frames, free and occupied slots add up to 32, the histories only grow, and exactly the heads of the frames that have left are freed, in the order of acceptance |
| FecTransmit.LogMeans | ports/old/coldfire/netif/5272fec.c:271-410 | what has been freed are exactly the heads of the frames no longer in the ring, and what has been sent is what was accepted |
| FecReceive.FecRx.constructor | ports/old/coldfire/netif/5272fec.c:152-185 | the first slots, 64 or as many as there are buffers, have an empty buffer for the hardware, taken one for one from the pool, before it is switched on |
| FecReceive.FecRx.FillRxRing | ports/old/coldfire/netif/5272fec.c:122-149 | empty slots get buffers until every slot has one or the pool is empty, one for one |
| FecReceive.FecRx.ChainFrame | ports/old/coldfire/netif/5272fec.c:482-518 | the chain of a frame is its buffers in order with the lengths the descriptors give, the last one the rest |
| FecReceive.ChainOfFrame | ports/old/coldfire/netif/5272fec.c:482-547 | a frame's buffers are chained in order and delivered unless its last descriptor has an error bit; their lengths add up to the last length field modulo 16 bits, exactly if the earlier ones do not exceed it |
| FecReceive.OutcomesOfFrames | ports/old/coldfire/netif/5272fec.c:472-547 | a stream of whole frames and a rest has one outcome for each frame, in order |
| FecReceive.FecRx.TakeFrame | ports/old/coldfire/netif/5272fec.c:478-547 | the first whole frame leaves the ring and adds its one outcome: the assembled chain, delivered or dropped by its error bits |
| FecReceive.FecRx.Rx | ports/old/coldfire/netif/5272fec.c:462-568 | every frame complete at the start is delivered or dropped, once and in order, the ring is refilled as far as the pool allows, and no buffer but theirs is given away |
| FecReceive.FecRx.Serve | ports/old/coldfire/netif/5272fec.c:462-568 | in every run the outcomes are those of the arrived frames in order, and the filled slots are the interval from the remove to the insert index |
| FecReceive.FrameEndIsNear | ports/old/coldfire/netif/5272fec.c:472-475 | if no frame needs more descriptors than there are, an end of frame is in the ring |
| FecReceive.ScanStopsUnlessFrameTooLong | ports/old/coldfire/netif/5272fec.c:472-551 | on a ring that nobody changes the scan goes on for every number of rounds if and only if all 64 slots hold fragments of one unfinished frame, and then neither the hardware nor the refill can change it |
| FecReceive.FrameTooLong | ports/old/coldfire/netif/5272fec.c:472-551 | there is a ring on which the scan never stops |
| Slip.RoundTrip | ports/old/rtxc/netif/sioslipif.c:64-143 | any packets of one byte up to the receiver's room, framed one after the other, are heard as exactly those packets |
| Slip.FrameIs | ports/old/rtxc/netif/sioslipif.c:64-94 | a framed packet is 192, its spelling by RFC 1055 (219 220 for 192, 219 221 for 219), and 192 |
| Slip.OneSpelling | ports/old/rtxc/netif/sioslipif.c:74-88 | the escaped bytes are the one spelling that RFC 1055 reads as the packet |
| Slip.HearFrames | ports/old/rtxc/netif/sioslipif.c:64-143 | of packets of any size, empty ones vanish and long ones are cut |
| Slip.AfterNoise | ports/old/rtxc/netif/sioslipif.c:96-143 | after noise without an open escape at most one junk packet comes before the packets |
| Slip.AfterOpenEscape | ports/old/rtxc/netif/sioslipif.c:118-128 | with an open escape the first packet is glued to the noise and the others arrive |
| Slip.QuietNoise | ports/old/rtxc/netif/sioslipif.c:108-143 | noise without an END byte completes no packet |
| Slip.Serial.Output | ports/old/rtxc/netif/sioslipif.c:64-94 | the bytes sent are the framed and escaped contents of the chain, however it is cut into buffers |
| Slip.Serial.Store | ports/old/rtxc/netif/sioslipif.c:129-139 | a byte written at the cursor is the next one of the packet in the chain, and the cursor moves on to the next place |
| Slip.Serial.Input | ports/old/rtxc/netif/sioslipif.c:96-143 | a call returns the first packet of the input, in a chain cut in any way, having read exactly up to its END |
| Slip.Serial.ReceiveAll | ports/old/rtxc/netif/sioslipif.c:145-156 | the receiving loop takes from the input what the specification hears |
| Slip.Link | ports/old/rtxc/netif/sioslipif.c:64-156 | chains sent over a noisy line arrive as the same packets in order, after what the noise amounts to |
| LinkList.List.Push | ports/unix/netif/list.c:51-71 | the element is appended, unless the list is full |
| LinkList.List.Pop | ports/unix/netif/list.c:73-94 | the first element is taken off, or nothing from an empty list |
| LinkList.List.Remove | ports/unix/netif/list.c:115-141 | the first element equal to the given one is unlinked, wherever it stands, and the result tells whether there was one |
| LinkList.List.Elems | ports/unix/netif/list.c:102-106 | the counter is the number of elements |
| LinkList.WithoutAt | ports/unix/netif/list.c:115-141 | removing the first occurrence is cutting its place out |
| UnixLink.UnixIf.Output | ports/unix/netif/unixif.c:286-334 | with fewer than six packets queued the packet and a reference are kept, otherwise it is dropped and the reference given back |
| UnixLink.UnixIf.Copy | ports/unix/netif/unixif.c:374-383 | the block to be written is the chain's bytes end to end |
| UnixLink.PacketIs | ports/unix/netif/unixif.c:374-396 | the frame is the queued view, byte by byte, then the rest of the chain, and its length word counts exactly these bytes |
| UnixLink.UnixIf.Transmit | ports/unix/netif/unixif.c:351-404 | the packet goes out with the view it had when it was queued, and the buffer gets its current view back |
| UnixLink.UnixIf.Timeout | ports/unix/netif/unixif.c:336-417 | the first packet is written and released; the driver gives up exactly on an empty packet or a failing socket |
| UnixLink.UnixIf.Run | ports/unix/netif/unixif.c:286-417 | over any events one timeout is pending exactly if packets are queued, written and queued packets are the accepted ones in order, neither is taken back, and every buffer has its other references and one for each place in the queue |
| UnixLink.UnixIf.Drain | ports/unix/netif/unixif.c:336-417 | with nothing more coming the timer writes every accepted packet and leaves no reference |
| Sntp.DelayDoubles | apps/sntp/sntp.c:340-365 | the retry delay is the base times a power of two, not above the maximum, and doubles at every retry until the next doubling would pass it |
| Sntp.EveryServerHasItsTurn | apps/sntp/sntp.c:373-394 | within as many changes as there are servers each of them is asked |
| Sntp.PacketIsUnderstood | apps/sntp/sntp.c:399-479 | a packet laid out as in section 4 of RFC 4330 is an answer with the seconds of its receive timestamp, a kiss of death, or invalid, by its mode and stratum |
| Sntp.Client.constructor | apps/sntp/sntp.c:576-594 | after initialisation one timer is pending |
| Sntp.Client.Request | apps/sntp/sntp.c:485-569 | a request goes to the current server and its timeout is set; without memory it is tried again and a bad address is passed over, both after the base delay |
| Sntp.Client.Retry | apps/sntp/sntp.c:340-365 | the next request comes after the current delay, and the 32-bit doubling never overflows |
| Sntp.Client.TryNextServer | apps/sntp/sntp.c:373-394 | with several servers the next one is asked at once with the base delay, with one it is a retry |
| Sntp.Client.Expire | apps/sntp/sntp.c:340-394 | when the timer runs out the current server is asked, or the next one, or a retry is set, according to its handler and the number of servers |
| Sntp.Client.Recv | apps/sntp/sntp.c:399-479 | a valid answer sets the time and the update timer and resets the delay, a kiss of death changes the server, anything else is a retry |
| Sntp.Client.Run | apps/sntp/sntp.c:340-594 | for any packets, expiries and shortages exactly one timer is pending between callbacks, and it is one the client sets |
| SmtpText.FindMissesNone | apps/smtp/smtp.c:887-887 | the search returns the first occurrence |
| SmtpReply.CodeIsThreeDigits | apps/smtp/smtp.c:840-862 | a code from 100 on is read exactly if the first three characters are its digits |
| SmtpReply.IsResponseFinished | apps/smtp/smtp.c:872-905 | on every text with a code that a pbuf can hold: the scan goes on for ever exactly if the wrapped offset comes upon a hyphen, and otherwise accepts exactly the finished texts and those where it comes upon a space |
| SmtpReply.ScanDecides | apps/smtp/smtp.c:872-905 | on a text with a code, repeating the pass ends with the right verdict if and only if the text settles; it ends with acceptance, and it never ends, exactly under the stated conditions |
| SmtpReply.CodeSettles | apps/smtp/smtp.c:872-905 | with a code from 100 on every text settles |
| SmtpReply.FinishedSettles | apps/smtp/smtp.c:872-905 | every text with a whole reply settles, so the scanner accepts it |
| SmtpReply.WrapsRound | apps/smtp/smtp.c:872-905 | a text of 65535 characters without a whole reply is accepted in the second pass because the offset wraps round |
| SmtpReply.GoesRound | apps/smtp/smtp.c:872-905 | a text of 65535 characters that the scanner never leaves |
| SmtpReply.PartIsNotAccepted | apps/smtp/smtp.c:872-905 | the scanner accepts no part of a reply, if the reply has a code of three digits or fits a pbuf |
| SmtpReply.FinishedIsReply | apps/smtp/smtp.c:872-905 | a finished text starts with hyphen lines and one space line (section 4.2.1 of RFC 5321) |
| SmtpReply.ReplyIsFinished | apps/smtp/smtp.c:872-905 | every text that starts with such lines is finished |
| SmtpReply.FinishedIsStable | apps/smtp/smtp.c:872-905 | appended bytes do not undo it |
| SmtpReply.PartIsNotFinished | apps/smtp/smtp.c:872-905 | no proper part of a reply is taken for all of it |
| SmtpData.Verify | apps/smtp/smtp.c:625-657 | without line breaks: seven bits, no CR, no LF; with them: every LF follows a CR and no CR follows a CR |
| SmtpData.VerifiedTexts | apps/smtp/smtp.c:620-624 | against the promise of no single CR or LF: kept without line breaks, and with them exactly when every CR is followed by an LF |
| SmtpData.SingleCrPasses | apps/smtp/smtp.c:634-652 | with line breaks allowed a single CR passes |
| SmtpData.Transparency | apps/smtp/smtp.c:1053-1131 | a server that follows section 4.5.2 of RFC 5321 recovers header, body and final CRLF and stops exactly at the stream's end, if and only if the body does not begin with a dot |
| Base64.Base64Encode | apps/smtp/smtp.c:800-831 | the bit-serial loop writes the standard encoding, with `A===` after whole groups, at its place in the buffer, and returns its length |
| Base64.EncodedAt | apps/smtp/smtp.c:800-831 | the encoding is the text's bits six at a time, then padding, of the computed length |
| Base64.DecodeStandard | apps/smtp/smtp.c:785-796 | decoding inverts section 4 of RFC 4648 |
| Base64.Alphabet | apps/smtp/smtp.c:785-796 | the table is the alphabet of section 4 of RFC 4648 |
| Base64.DecodeEncoded | apps/smtp/smtp.c:800-831 | a standard decoder gets the client's text back if its length is not a multiple of three, and nothing otherwise |
| SmtpDialogue.SaidIsPrefix | apps/smtp/smtp.c:1092-1309 | what may have been said in a state is a prefix of the whole legal dialogue |
| SmtpDialogue.RespondIsLegal | apps/smtp/smtp.c:1192-1271 | every command is the next one of the dialogue and follows the reply code it must follow |
| SmtpDialogue.SendBodyIsLegal | apps/smtp/smtp.c:1092-1131 | body and terminator go out once and in order under any window and any refusal |
| SmtpDialogue.StepIsLegal | apps/smtp/smtp.c:660-739 | every callback, with every decision of the stack, keeps the session legal |
| SmtpDialogue.Safety | apps/smtp/smtp.c:1135-1309 | at any time of any run in which the server sends what the code can hold: a prefix of one legal dialogue, a whole reply with the right code for every step, at most one call of the result callback, and success reported exactly when all is said and the last reply before QUIT was 250 |
| SmtpDialogue.LongOffer | apps/smtp/smtp.c:940-946 | a whole reply with code 250 whose offer does not fit |
| SmtpDialogue.LongOfferEndsTheRun | apps/smtp/smtp.c:940-946 | sent after the greeting, it takes the client out of its buffer |
| SmtpDialogue.EveryRunEnds | apps/smtp/smtp.c:702-714 | if connections can be closed, a run with more polls than the timers of the longest dialogue allow has called the result callback |
| SmtpDialogue.MailArrives | apps/smtp/smtp.c:1053-1131 | after a reported success the server has header and body and reads QUIT next, if and only if the body does not begin with a dot |
| SmtpServer.ServerUnderstands | apps/smtp/smtp.c:909-1131 | after a reported success a server that reads EHLO, AUTH, MAIL, RCPT and DATA by RFC 5321 and RFC 4954 has the client's address, exactly the sender and the one recipient, user name and password unless Base64 fails them, the mail with its From, To and Subject lines if and only if the body does not begin with a dot, and reads QUIT next |
| SmtpProgress.GoodServerGetsTheMail | apps/smtp/smtp.c:1135-1309 | whole replies 220, 250, those of the login that the offer calls for (PLAIN before LOGIN), 250, 250, 354 and 250 make the client say the whole dialogue and report success |
| SmtpProgress.MethodsOffered | apps/smtp/smtp.c:931-950 | the login methods are what follows the first `AUTH ` on its line, and where there is none the first `AUTH=` |
| SmtpProgress.ReplyHasItsEffect | apps/smtp/smtp.c:1172-1308 | a whole reply that has an answer is used up by it, and one that has none closes the session with its code, as soon as the stack lets it |
| SmtpProgress.BodyMovesOn | apps/smtp/smtp.c:1092-1131 | every acknowledgement sends as much of the body as fits, and the end right behind the last of it |
| SmtpProgress.TimeToAnswer | apps/smtp/smtp.c:97-106 | whatever is written leaves the server 240 polls, 360 after a part of the body and 1200 after its end |
| SmtpDialogue.PollsRunDown | apps/smtp/smtp.c:702-714 | at every poll the session writes, or its timer runs down; when it has run out the session is closed as soon as the stack can |
| SmtpDialogue.StepKeepsReceived | apps/smtp/smtp.c:1155-1190 | received text is taken, thrown away or kept, none of it twice |
| SmtpDialogue.NothingHeardTwice | apps/smtp/smtp.c:1155-1190 | over a run the replies taken are parts of what arrived, in order |
| SmtpDialogue.CutAnywhere | apps/smtp/smtp.c:1155-1190 | a reply with a code of three digits, or one that fits a pbuf, cut into any pieces does what it does in one, if the first piece holds the three characters of the code |
| SmtpDialogue.SentBetween | apps/smtp/smtp.c:1155-1190 | outside the body the sent callback changes nothing while a reply is incomplete |
| SmtpClient.Session.constructor | apps/smtp/smtp.c:436-460 | a connected session waits for the greeting with a full timer |
| SmtpClient.Session.Put | apps/smtp/smtp.c:1026-1032 | copying into the transmit buffer appends |
| SmtpClient.Session.PrepareHeader | apps/smtp/smtp.c:1053-1078 | the buffer holds the header of the mail |
| SmtpClient.Session.PrepareAuthOrMail | apps/smtp/smtp.c:931-981 | the copy of the offer stays inside the buffer exactly if it fits, and then: PLAIN if it is offered, else LOGIN, else no login |
| SmtpClient.Session.SendBody | apps/smtp/smtp.c:1092-1131 | one call does to the session what the machine does |
| SmtpClient.Session.React | apps/smtp/smtp.c:1172-1308 | if the code can handle the received text, it has the effect the machine gives it; if not, session and connection are as before |
| SmtpClient.Session.TcpPoll | apps/smtp/smtp.c:702-714 | the poll callback is the machine's step |
| SmtpClient.Session.TcpSent | apps/smtp/smtp.c:717-725 | the sent callback is the machine's step |
| SmtpClient.Session.TcpRecv | apps/smtp/smtp.c:728-740 | for any data and for the end of the connection: the receive callback is the machine's step exactly if the code can handle the joined text, and otherwise that text is pending and nothing else has happened |
| SmtpClient.Session.TcpErr | apps/smtp/smtp.c:692-700 | the error callback is the machine's step |
| SmtpClient.Session.Serve | apps/smtp/smtp.c:692-1309 | the callbacks run in the order given as the machine's run, all of them or up to one that brings text the code cannot handle, with that text pending; the connection has been given a prefix of one legal dialogue, all of it exactly when success was reported |

## Left out

- The lwIP core (`tcp_*`, `pbuf_*`, `netconn_*`, `sys_timeout`, DNS) is not part of this model. It is
  an append-only output with refusals, sequences of byte segments, and a list of timers;
  `pbuf_memfind` and `pbuf_strstr` return the first occurrence, and `pbuf_get_at` zero beyond the end.
- HTTP: dynamic and asynchronous file reads, multipart SSI, keep-alive, HTTP/0.9, POST, choosing the
  header strings, request parsing, and when `tcp_output` is called.
- Unix mailbox: the insides of the semaphores (condition variables) are single steps, and the clock
  is left out: a timed wait may end at any time. Indices are unbounded integers.
- Win32 mailbox: `sys_mbox_post` relies on its own assertion that the ring is not full.
- Ethernet driver: registers, interrupt plumbing, PHY setup, statistics, the alignment of payloads and
  `disable_fec`. Received frames span at most 64 descriptors, which `ScanStopsUnlessFrameTooLong`
  shows to be needed.
- FecTransmit.FecTx.TxCleanup: while it runs, other threads offer finitely many frames; with an endless supply it need not end.
- SLIP: `sio_recv` blocks for ever at the end of the input.
- Unix link: the socket's setup, the receiving thread, and how long a timeout lasts; `list_first` hands
  out the list's own element where the packet is meant, which only affects that duration. A queued
  buffer's memory and the rest of its chain are not rewritten. `list_delete` and `list_map` are easy members.
- SNTP: `sntp_stop`, DNS names and `SNTP_CHECK_RESPONSE`, with which a single pending timer is not kept
  or replies are filtered further; fractions of seconds; the request's 48 bytes.
- SMTP: setting up the connection, server name lookup and setting the login data.
- SmtpDialogue.Safety: holds for mails whose commands fit the transmit buffer, as the source asserts, and whose texts have passed `smtp_verify`, and up to the moment the server sends a login offer that does not fit, text on which the scan does not end, or more pending text than a pbuf can hold.
- SmtpClient.Session.TcpRecv: what the client does once a login offer has left the transmit buffer, or a text no pbuf can hold is pending; the source has no check for either. A scan that does not end has no further effect.
- The chargen, shell, ping, netio, rtp and echo applications, the tap, tun and pcap drivers, `makefsdata`
  and the SNMP example: plumbing.
- `delif.c` and `fifo.c`: their queues lose data when the clock jumps or the ring fills.
