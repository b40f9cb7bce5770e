# SSHKit: verified models of the protocol core

Dafny models and proofs for the parts of this repository whose correctness is hardest to see from the code: the SSH
channels, byte buffer and wire codec of the vendored libssh (`Vendor/libssh/src`), three algorithms beside them, and
the stream readers and the connect/cancel race of `Sources/SSHKit`. `dafny verify dfyconfig.toml` checks everything.

## How the project is laid out

- `Octets.dfy`: bytes, options, lines, 32- and 64-bit wrap-around.
- **Channels** (sections 5.1 to 5.4 of RFC 4254). `ChannelSpec.dfy` says what each handler does to one end of a channel,
  `ChannelCalls.dfy` what that means for every call and packet.
  `Channel.dfy` is the mutable channel, with two `SshBuffer` objects as its receive buffers, and `ChannelWrite.dfy` the
  write loop; both are proved against it. `ChannelPair.dfy` joins two ends running this code by two FIFO queues: a run is
  any list of steps by either end, with every send, flush, allocation and transport failure left to an adversary;
  `ChannelRefinement.dfy` shows that its closing steps are the calls of the mutable channel. `ChannelInvariants.dfy` and
  `ChannelBooks.dfy` prove what every step keeps; `ChannelTheorems.dfy` (windows and streams), `ChannelProgress.dfy` and
  `ChannelStalls.dfy` (flow control), `ChannelLateData.dfy`, `ChannelClosing.dfy` and `ChannelDrain.dfy` (how a channel
  ends) what follows for every run.
  `ChannelOpen.dfy` and `Requests.dfy` are the calls that wait for one reply and are retried on SSH_AGAIN.
- **Buffer and codec** (section 5 of RFC 4251). `SshBuffer.dfy` is the growable array with its read cursor, each
  operation proved against its meaning on the readable bytes. `Codec.dfy` has the size pre-pass and pack, `Unpack.dfy`
  unpack and the round trip, `WireFormat.dfy` what unpack accepts, `Bignum.dfy` the mpint encoding.
- **Algorithms.** `DhGroup.dfy` and `Reservoir.dfy` (choosing a group from the moduli file, section 3 of RFC 4419),
  `Base64.dfy` (section 5.2 of RFC 1521).
- **Readers and a race.** `ScpReader.dfy` and `ScpProtocol.dfy`, `Banner.dfy` (section 4.2 of RFC 4253), `ConnectRace.dfy`.

Code that works by updating state is a class or a method with loops here, proved against a specification function; the
laws are lemmas about those functions. Parameters named `allocOk`, `allocs`, `sendOk`, `flush`, `wait`, `arrivals` and
the like are the outcomes of calls this project cannot see; every theorem holds for all of them.

## What the proofs found

The code is modelled as it is. Where it does not do what its shape or its comments suggest, a lemma gives the input, and
the theorem states exactly when the property holds.

- **The accepting side of a channel advertises a window of 32000**, not the default
  (`Vendor/libssh/src/messages.c:1525`); the two-peer results therefore hold for any initial window up to the default.
- **A read can lose bytes it took.** It drops them from the buffer before it grows the window, and returns an error when
  the adjust cannot be sent (`ReadReturnsTaken`). At every initial window a full window of bytes can vanish that way with
  end of file reported next and no packet dropped (`EndOfFileHidesBytes`; after a CLOSE, `ErrorThenEndOfFile`). The
  stream results say exactly when callers get everything (`StreamsIntact`, `EndOfFileIsComplete`, `DrainsExactly`,
  `CloseLosesNothing`).
- **A window stalls for good**, at every initial window, if one packet is dropped for want of memory or one window adjust
  cannot be sent, and never otherwise (`StallsExactly`).
- **A free can skip its CLOSE.** A failed send, or an EOF flush that fails or returns SSH_AGAIN, ends the close early, but
  the channel is marked freed all the same (`FreedWithoutClose`, `FreeSentClose`). Then the end that fell short can be
  deallocated while the other end never is (`OneSidedRelease`).
- **A close can report SSH_OK without having sent CLOSE**: the result of that send is overwritten by the flush
  (`OkWithoutClose`).
- **An EOF whose flush fails is not recorded**, so that data or a second EOF can follow it, and a read can return bytes
  after one that reported end of file (`DataAfterUnrecordedEof`). Both are possible exactly if such a flush may fail
  (`EofIsLastExactly`, `EndOfFileIsFinalExactly`).
- **Data may follow a received CLOSE**: the write loop looks at the delayed close only before it starts
  (`DataAfterClose`). It is possible exactly while such a write can go on, and never more than its data and window allow
  (`DataAfterCloseExactly`); the peer keeps the channel until it has this end's CLOSE too (`ReleaseIsSafe`).
- **Requests and replies can get out of step.** A wait that fails gives its request up: two requests can be unanswered at
  once (`TwoOutstanding`), and the late reply to the first is returned for the second (`LateReplyAnswersNext`).
  `ReplyAnswersOwn` says exactly when a reply answers the request it decides.
- **A request whose packet could not be sent is never sent again** and its retries wait for a reply nobody owes; a stray
  one makes them succeed (`FailedSendIsNotRetried`, for requests and for opening).
- **A call made while another request holds the slot takes over that request's reply** and sends nothing
  (`TakesOverReply`). A result is about the call's own request exactly if the slot was free or already its own
  (`ResultIsOwn`).
- **A peer that announces a packet size of 0** makes a write send empty packets until the transport fails (`WriteLoop`).
- **A late open confirmation overwrites the peer's window** before the state check refuses it (`UnsolicitedReply`).
- **Cutting more than is readable off the end of a buffer** leaves the cursor behind the end (`PassBytesEnd`).
- **A padded bignum of length 0** packs more than the pre-pass reserved (`EmptyFieldOverruns`).
- **A memory area that fills the whole buffer packs but does not unpack** (`WholeBufferArea`).
- **A failing random generator** leaves a modulus that does not have the size reported (`FailedDrawKeepsOldModulus`), and
  a preferred size of 0 selects nothing (`NothingForZero`); the server's clamping excludes the latter
  (`AcceptedIsServed`).
- **An SCP header whose filename ends in a CR** is read back without it (`HeaderBack`).
- **The base64 of nothing is refused by the decoder** (`RoundTrip`), '=' signs count wherever they stand (`Accepts`), and
  stray bits are ignored (`CanonicalBack`).

## Model

| member | source | states |
|---|---|---|
| ChannelTheorems.WindowsAgree | Vendor/libssh/src/channels.c:438-495 | In every run of two ends, for each direction: the sender's window plus data and credit in flight (plus packets lost for want of memory) is the receiver's window; window and unread bytes never exceed the default, so no 32-bit sum wraps and the "Window exceeded" branch is never taken |
| ChannelStalls.StallsExactly | Vendor/libssh/src/channels.c:438-495 | At every pair of initial windows: some run reaches a state with the sender at window 0, nothing in flight to change that and nothing for the receiver to read, if and only if packets may be dropped for want of memory or window adjusts may fail; and no continuation ever leaves such a state |
| ChannelTheorems.NeverStalls | Vendor/libssh/src/channels.c:438-495 | The half of it that holds run by run: while neither has happened, the state is not stalled |
| ChannelStalls.StalledForever | Vendor/libssh/src/channels.c:3204-3237 | Whatever steps either end takes from a stalled state, it stays stalled |
| ChannelStalls.AnyOfferStalls | Vendor/libssh/src/channels.c:3222-3235 | At every offer one adjust that cannot be sent, with nothing dropped, stalls the direction after a full window was read |
| ChannelStalls.AnyOfferStallsByDrop | Vendor/libssh/src/channels.c:999-1055 | At every offer one packet dropped for want of memory, with every adjust sent, stalls the direction |
| ChannelStalls.EndOfFileHidesBytes | Vendor/libssh/src/channels.c:3204-3235 | At every offer: a whole window of bytes left the buffer, no read returned any, nothing was dropped, and the next read reports end of file |
| ChannelProgress.ProgressIsPossible | Vendor/libssh/src/channels.c:3204-3237 | From every reachable state an end that can read (idle, not closed, no allocation or adjust of its failed so far) has a continuation after which its reads returned all that was ever written to it, nothing is in flight, and the writer has a window again |
| ChannelProgress.CatchUp | Vendor/libssh/src/channels.c:3204-3237 | That continuation, built: deliver, read both streams, deliver the adjusts |
| ChannelTheorems.AdjustsAreRare | Vendor/libssh/src/channels.c:460-493 | In every run the number of window adjusts sent times half a window is at most the bytes read, plus those discarded with a buffer when memory ran out, plus what the initial window was short of the default |
| ChannelCalls.ReadTakes | Vendor/libssh/src/channels.c:3213-3237 | A read takes bytes exactly if it asks for some, there are some, the session lives and the channel is not closed: as many as it asks for, or all there are, from the front; else it changes nothing |
| ChannelCalls.ReadResultExactly | Vendor/libssh/src/channels.c:3149-3237 | The result of a read, on the fields of every channel: SSH_AGAIN exactly without bytes, remote EOF or session error; an error exactly on a broken session, with bytes on a closed channel, or when half a window is missing and the adjust cannot be sent; end of file exactly with remote EOF and no bytes; else the bytes taken |
| ChannelCalls.ReadLeaves | Vendor/libssh/src/channels.c:3221-3237 | What a read that takes bytes leaves: the other stream and the flags as they were, a delayed close completed exactly when nothing is unread, and an adjust that fills the window up to the default exactly when half of it was missing |
| ChannelCalls.GrowExactly | Vendor/libssh/src/channels.c:438-495 | An adjust is sent exactly when half a window or more is missing and it can be sent; it makes window and unread bytes equal to the default; failing to send it is the only error |
| ChannelCalls.DataExactly | Vendor/libssh/src/channels.c:586-710 | Data within the window is appended and taken off the window; beyond it, it is refused and nothing else changes; without memory its buffer is emptied |
| ChannelCalls.AdjustAndEofExactly | Vendor/libssh/src/channels.c:535-583 | Credit is added modulo 2^32, EOF is recorded, and neither changes anything else |
| ChannelCalls.CloseReceivedExactly | Vendor/libssh/src/channels.c:741-803 | CLOSE closes at once exactly if nothing is unread, else delays the close; it implies EOF and deallocates a freed channel |
| ChannelCalls.ReleasedRefuses | Vendor/libssh/src/channels.c:510-533 | A deallocated channel takes no packet |
| ChannelCalls.CloseResultExactly | Vendor/libssh/src/channels.c:1443-1494 | Exactly when a close reports SSH_OK and when SSH_AGAIN |
| ChannelCalls.OkWithoutClose | Vendor/libssh/src/channels.c:1469-1489 | A close reports SSH_OK without having sent CLOSE exactly when that send alone fails |
| ChannelCalls.FreeExactly | Vendor/libssh/src/channels.c:1275-1352 | Exactly when a free closes first, and what it leaves of the flags |
| ChannelProgress.WriteBeginsExactly | Vendor/libssh/src/channels.c:1553-1672 | In every reachable state of an idle end a write sends a packet if and only if its own EOF is unsent, no CLOSE was received, the channel is open, the session lives and there is a window, whatever EOF the other end sent; the packet is the front of the data within window and packet size |
| ChannelBooks.ReadReturnsTaken | Vendor/libssh/src/channels.c:3213-3237 | A read that takes bytes returns exactly them if and only if it needs no window adjust or can send it; otherwise it returns an error |
| ChannelBooks.BooksKept | Vendor/libssh/src/channels.c:999-1055 | In every run every byte delivered was read, is buffered, was in a dropped packet or was discarded with a buffer; reads returned less than they took exactly if one of their adjusts failed |
| ChannelTheorems.ReturnedIsTaken | Vendor/libssh/src/channels.c:3222-3235 | In every run what reads returned on both streams is what they took off the buffers if and only if no adjust failed |
| ChannelTheorems.StreamsIntact | Vendor/libssh/src/channels.c:586-710 | In every run, on both streams: bytes returned by reads, then buffered, then in flight are exactly the bytes the writes emitted, in order, if and only if no packet was dropped for want of memory and no adjust of a read failed; without a drop it holds of the bytes taken off the buffers |
| ChannelTheorems.EndOfFileIsComplete | Vendor/libssh/src/channels.c:3204-3211 | When a read reports end of file: every byte ever written on either stream, then or later, was returned to a caller or is still buffered if and only if there was no drop, no failed adjust, and the sender's data was all delivered by then; that last is so once the sender has said its last (CLOSE arrived, or EOF arrived and none of its EOFs goes unrecorded) |
| ChannelTheorems.Mirrored | Vendor/libssh/src/channels.c:1537-1688 | Both ends run the same code: exchanging them in a run exchanges them in its final state |
| ChannelClosing.CloseIsLast | Vendor/libssh/src/channels.c:1443-1494 | Each end sends CLOSE at most once, exactly when its closed-local flag is set, and nothing for the channel after it |
| ChannelClosing.ReleaseIsSafe | Vendor/libssh/src/channels.c:1275-1352 | A channel is deallocated at most once, only after it was freed and CLOSE arrived; its own CLOSE was sent by then if and only if the freeing call got through its EOF, the flush of that and its CLOSE; from then on nothing addressed to it is in flight |
| ChannelClosing.FreedSentClose | Vendor/libssh/src/channels.c:1275-1352 | In every run a freed channel sent CLOSE if and only if its freeing call did not fall short that way |
| ChannelClosing.FreedMeansReleased | Vendor/libssh/src/channels.c:1309-1352 | With nothing in flight to it, a freed channel is deallocated if and only if the peer's CLOSE was sent; if the peer freed its end too, if and only if that call did not fall short |
| ChannelClosing.FreedWithoutClose | Vendor/libssh/src/channels.c:1443-1494 | At every offer a freeing call whose EOF cannot be sent, whose EOF flush returns SSH_AGAIN or an error, or whose CLOSE cannot be sent leaves the channel freed without a CLOSE |
| ChannelClosing.OneSidedRelease | Vendor/libssh/src/channels.c:1309-1352 | At every offer such a call leads to an end deallocated without having sent CLOSE, while the other end, freed too, is never deallocated, whatever follows |
| ChannelLateData.EofIsLastExactly | Vendor/libssh/src/channels.c:1382-1428 | At every offer some run sends data behind an EOF, and some run a second EOF, if and only if the flush of an EOF may fail |
| ChannelLateData.EndOfFileIsFinalExactly | Vendor/libssh/src/channels.c:3204-3211 | At every offer some read reports end of file and a later one returns bytes of that stream, drops and failed adjusts included, if and only if the flush of an EOF may fail |
| ChannelLateData.DataAfterUnrecordedEof | Vendor/libssh/src/channels.c:1417-1428 | The input, at every offer: an EOF whose flush fails is not recorded, a read reports end of file, and after one write a later read returns a byte |
| ChannelLateData.DataAfterCloseExactly | Vendor/libssh/src/channels.c:1599-1676 | In every reachable state of an end that received CLOSE: the most any continuation still writes, and some does, is what a write under way has left, within its window; something is still written by some continuation if and only if there is such a write with data and window left on an open channel of a live session |
| ChannelLateData.DataAfterClose | Vendor/libssh/src/channels.c:1599-1618 | The input: a run in which a waiting write sends data after CLOSE was received |
| ChannelInvariants.EveryRun | Vendor/libssh/src/channels.c:438-803 | The invariant behind these results holds in every state of every interleaving |
| ChannelInvariants.StepLeftKeeps | Vendor/libssh/src/channels.c:1275-1688 | Every step of either end keeps the invariant |
| ChannelInvariants.NothingAfterClose | Vendor/libssh/src/channels.c:758-803 | Once CLOSE was delivered, nothing is in flight in that direction |
| ChannelInvariants.ReadEffect | Vendor/libssh/src/channels.c:3204-3237 | A read takes nothing and changes nothing, or takes from the front of one stream, completes a delayed close, and, unless it fails, leaves window plus unread bytes above half the default |
| ChannelDrain.DrainsExactly | Vendor/libssh/src/channels.c:3204-3237 | After a remote CLOSE any mix of reads of both streams, each with any outcome of its adjust, takes exactly the buffered bytes in order, and the state is CLOSED exactly when both buffers are empty; the bytes are what the reads return if and only if each adjust that was needed was sent |
| ChannelDrain.DrainingRead | Vendor/libssh/src/channels.c:3204-3237 | The same for one read: it returns the front of the buffer, or 0 bytes once drained, or the error of its adjust |
| ChannelDrain.ErrorThenEndOfFile | Vendor/libssh/src/channels.c:3204-3237 | A read that drains its stream but cannot send its adjust is an error, and the next one reports end of file |
| ChannelDrain.CloseLosesNothing | Vendor/libssh/src/channels.c:758-803 | In every run, for an end that received CLOSE and has not closed, and any reads that ask for all that is left: what reads returned and these will return is all the peer ever wrote if and only if no packet was dropped, no adjust has failed, and none of these will |
| ChannelRefinement.CloseRefines | Vendor/libssh/src/channels.c:1443-1494 | A close between two ends, whatever the other end does during its two flushes, changes the channel and sends the packets as the function says that the mutable channel is proved against |
| ChannelRefinement.FreeRefines | Vendor/libssh/src/channels.c:1275-1352 | The same for a free |
| ChannelRefinement.SendEofRefines | Vendor/libssh/src/channels.c:1382-1428 | The same for an EOF |
| ChannelRefinement.CloseSendsClose | Vendor/libssh/src/channels.c:1443-1494 | A close sends CLOSE if and only if it had not done so, the EOF was out before or got out and its flush returned SSH_OK, and the CLOSE could be sent |
| ChannelRefinement.FreeSentClose | Vendor/libssh/src/channels.c:1275-1308 | After a free the channel has sent CLOSE if and only if it had before, or the session was alive, the state asked for a close, and that close got to its CLOSE |
| Channels.Channel.GrowWindow | Vendor/libssh/src/channels.c:438-495 | The mutable channel grows its window, and sends the adjust, exactly as the function the two-peer results use |
| Channels.Channel.RcvChangeWindow | Vendor/libssh/src/channels.c:535-583 | Adds the credit to the peer's window in 32-bit arithmetic |
| Channels.Channel.DefaultBufferize | Vendor/libssh/src/channels.c:999-1055 | Appends to the buffer of the stream, or empties that buffer when memory runs out; it succeeds when memory is left |
| Channels.Channel.RcvData | Vendor/libssh/src/channels.c:586-710 | Refuses data beyond the window, else buffers it and shrinks the window by its length |
| Channels.Channel.RcvEof | Vendor/libssh/src/channels.c:712-739 | Records the remote EOF and changes nothing else |
| Channels.Channel.RcvClose | Vendor/libssh/src/channels.c:741-803 | Closes at once or delays the close behind unread data, implies EOF, deallocates a channel already freed |
| Channels.Channel.HandlePackets | Vendor/libssh/src/channels.c:510-533 | Dispatches packets in order; one that names a deallocated channel is refused |
| Channels.Channel.ReadTimeout | Vendor/libssh/src/channels.c:3149-3238 | Waits for data or EOF, then reads as the read function of the two-peer model does, every outcome included |
| Channels.Channel.SendEof | Vendor/libssh/src/channels.c:1382-1428 | Sends EOF once; packets may arrive during the flush; the flag is set unless the flush fails, and the result is that of the flush |
| Channels.Channel.CloseCall | Vendor/libssh/src/channels.c:1443-1494 | Sends EOF if still owed, stops at a flush that returns SSH_AGAIN or an error, then sends CLOSE: state, packets and result for all outcomes of both sends and both flushes |
| Channels.Channel.Free | Vendor/libssh/src/channels.c:1275-1352 | On a live session closes first exactly when the state and flags call for it, then is deallocated exactly if CLOSE was received or the channel was never bound |
| ChannelWrite.WriteLoop | Vendor/libssh/src/channels.c:1599-1676 | Terminates under every schedule of waits and adjusts and any number of packets the transport accepts; the payloads sent concatenate to the first `done` bytes, each packet as large as the bytes left, the window at that moment and the packet size allow; it stops early only after a wait that failed, brought no window or found the channel closed, having received just what the waits so far brought; with a packet size of 0 only the failing transport ends it, with nothing written |
| ChannelWrite.WriteCommon | Vendor/libssh/src/channels.c:1537-1688 | The same for the whole call, and on the fields: it is refused at once, changing nothing, if the data is longer than INT_MAX, EOF was sent, the state is not open, a close is delayed or the session is broken; otherwise it fails only with the transport or the flush, and a result that is not an error is the number of bytes sent |
| ChannelWrite.EmissionKeeps | Vendor/libssh/src/channels.c:1620-1672 | One data packet extends the emitted prefix by what it carries and takes that from the window; with window and data left it carries a byte or more if and only if the packet size is not 0, and else changes nothing |
| ChannelWrite.ArrivalsKeep | Vendor/libssh/src/channels.c:1606-1618 | Whatever arrives during a wait leaves the emitted prefix alone and moves the window as the adjusts say |
| Requests.RequestState.Perform | Vendor/libssh/src/channels.c:1889-1982 | The slot logic of a channel request, every branch, as a function of the old state |
| Requests.RequestState.Replied | Vendor/libssh/src/channels.c:1807-1877 | A success or failure reply decides a pending request and nothing else |
| Requests.RequestState.HandlePackets | Vendor/libssh/src/channels.c:1879-1887 | Packets are handled only while the request is pending and the session is alive |
| Requests.OneRequestOneReply | Vendor/libssh/src/channels.c:1889-1982 | After any number of SSH_AGAIN results, retries and replies in between: exactly one request packet was sent, and the next result is what the first of all replies says |
| Requests.RequestsAddUp | Vendor/libssh/src/channels.c:1889-1982 | In every run, failures included: reply-wanting requests sent plus requests that could not be sent are the replies that decided a request, the requests given up, and the pending one; every reply received decided one or came late; without failed waits none is given up |
| Requests.AtMostOneOutstanding | Vendor/libssh/src/channels.c:2511-2596 | While no wait fails, the reply-wanting requests sent exceed the replies that decided one by at most one, however many requests are made and sends fail; in general if and only if no more were given up than could not be sent (plus one when none is pending) |
| Requests.ReplyAnswersOwn | Vendor/libssh/src/channels.c:1807-1877 | The next reply, to a peer that answers in order, is for the very request it decides if and only if that request was sent and as many requests were given up as replies came late and requests were not sent |
| Requests.RepliesInStep | Vendor/libssh/src/channels.c:1807-1877 | While sends and waits succeed and the peer sends no more replies than it got requests, every reply decides the request it answers |
| Requests.TwoOutstanding | Vendor/libssh/src/channels.c:1931-1946 | Two calls whose waits fail leave two requests sent and no reply received |
| Requests.LateReplyAnswersNext | Vendor/libssh/src/channels.c:1931-1977 | After a request was given up, its late reply is returned as the answer to the next request, from every idle state |
| Requests.PacketSent | Vendor/libssh/src/channels.c:1896-1923 | A call sends its packet if and only if it finds the slot free and can pack and send it |
| Requests.UnwaitedExactly | Vendor/libssh/src/channels.c:1902-1934 | A call on a free slot that is not packed, cannot be sent or wants no reply: its result and what it leaves |
| Requests.WaitedExactly | Vendor/libssh/src/channels.c:1935-1977 | A call that waits returns what the first reply says, SSH_AGAIN without one, an error if handling fails or the session breaks |
| Requests.AnsweredExactly | Vendor/libssh/src/channels.c:1935-1977 | A call whose answer is there already, or whose session is broken, reports that and frees the slot |
| Requests.SlotIsHeld | Vendor/libssh/src/channels.c:1896-1977 | In every run the slot is in use exactly if some call found it free and its request, sent or not, still holds it; nothing was sent since |
| Requests.ResultIsOwn | Vendor/libssh/src/channels.c:1896-1977 | In every run a result other than SSH_AGAIN is about the call's own request if and only if the slot was free at the call or held by that same request; in a slot in use the call sends nothing and does the same whatever request it names |
| Requests.TakesOverReply | Vendor/libssh/src/channels.c:1896-1977 | A call made while another request is pending, or answered but not yet reported, sends nothing and returns what the first reply says about that one |
| Requests.UnsolicitedChangesNothing | Vendor/libssh/src/channels.c:2441-2480 | Replies nobody waits for change neither the slot nor anything else but the count of late replies |
| Requests.FailedSendIsNotRetried | Vendor/libssh/src/channels.c:1920-1923 | After a failed send, whatever replies come and however many calls return SSH_AGAIN: nothing is ever sent, and the next call returns what the first stray reply says, SSH_OK for a request never sent if that is a success |
| ChannelOpen.OpeningChannel.OpenCall | Vendor/libssh/src/channels.c:327-409 | Opening a channel, every branch, as a function of the old state |
| ChannelOpen.OpeningChannel.Replied | Vendor/libssh/src/channels.c:169-294 | A confirmation overwrites the peer's window before the state is checked; only an opening channel changes state |
| ChannelOpen.OneOpenOneReply | Vendor/libssh/src/channels.c:327-409 | However often the call is retried, one OPEN packet is sent and every call returns what the first reply says, or SSH_AGAIN while there is none; the peer's window and packet size are those of the last confirmation received |
| ChannelOpen.OpenResultExactly | Vendor/libssh/src/channels.c:327-409 | One call, whatever fails: SSH_OK exactly if the channel is open after it, SSH_AGAIN exactly if it waited in vain and nothing failed; which call sends the packet; the state after it |
| ChannelOpen.ValuesAreConfirmed | Vendor/libssh/src/channels.c:169-235 | In every run, whatever fails, the peer's window and packet size are the two fields of the last confirmation received, in that order, or as before if there was none |
| ChannelOpen.OpenedAsOffered | Vendor/libssh/src/channels.c:169-235 | A call answered by one confirmation leaves the channel in the start state of the two-peer results |
| ChannelOpen.UnsolicitedReply | Vendor/libssh/src/channels.c:169-235 | A reply to a channel that is not opening leaves it unchanged if and only if it is a refusal or repeats the values the channel holds |
| ChannelOpen.FailedSendIsNotRetried | Vendor/libssh/src/channels.c:377-382 | After a failed send the channel is OPENING all the same and no retry sends the packet |
| SshBuffers.SmallestPowerAbove | Vendor/libssh/src/buffer.c:182-196 | The doubling loop finds the smallest power of two above the need, within 32 bits, and 0 when there is none |
| SshBuffers.PowersApart | Vendor/libssh/src/buffer.c:182-196 | No power of two lies strictly between another and its double |
| SshBuffers.SshBuffer.Realloc | Vendor/libssh/src/buffer.c:182-221 | Keeps the used bytes; fails exactly when memory or the size limit does, and then changes nothing |
| SshBuffers.SshBuffer.Shift | Vendor/libssh/src/buffer.c:227-248 | Moves the readable bytes to the front without changing them |
| SshBuffers.SshBuffer.Reinit | Vendor/libssh/src/buffer.c:260-288 | Empties the buffer and trims its array to 64 KiB, unless that allocation fails |
| SshBuffers.SshBuffer.AddData | Vendor/libssh/src/buffer.c:301-330 | Appends; the exact success condition; a failure leaves the readable bytes unchanged even after a shift |
| SshBuffers.SshBuffer.AllocateSize | Vendor/libssh/src/buffer.c:341-358 | Makes the array large enough and leaves the readable bytes unchanged |
| SshBuffers.SshBuffer.Allocate | Vendor/libssh/src/buffer.c:372-397 | Reserves bytes at the tail after the readable bytes, or fails changing nothing readable |
| SshBuffers.SshBuffer.PrependData | Vendor/libssh/src/buffer.c:537-564 | Prepends, in the consumed gap or by moving; the exact success condition; a failure changes nothing readable |
| SshBuffers.SshBuffer.PassBytes | Vendor/libssh/src/buffer.c:680-695 | Drops bytes from the front exactly when that many are readable |
| SshBuffers.SshBuffer.PassBytesEnd | Vendor/libssh/src/buffer.c:708-718 | Drops bytes from the end; the invariant survives if and only if no more than the readable bytes are cut, or none |
| SshBuffers.SshBuffer.GetData | Vendor/libssh/src/buffer.c:731-746 | Takes bytes from the front, or fails leaving all of them |
| SshBuffers.SshBuffer.GetSshString | Vendor/libssh/src/buffer.c:823-853 | Reads a length-prefixed string; a length that cannot be met, or a string for which there is no memory, still consumes its four bytes |
| Codec.PackVa | Vendor/libssh/src/buffer.c:983-1113 | Appends the bytes of the whole format, for every format, argument list and outcome of each allocation; on an error the buffer keeps what it held, and a valid call fails only if a bignum got no string or the buffer had to grow and could not |
| Codec.SizeAgrees | Vendor/libssh/src/buffer.c:871-971 | The pre-pass computes the packed size plus one spare byte for each bignum that needs no sign byte, less what padded bignums of length 0 pack |
| Codec.EmptyFieldOverruns | Vendor/libssh/src/buffer.c:923-936 | A padded bignum of length 0 is reserved four bytes and packs five |
| Codec.CountSize | Vendor/libssh/src/buffer.c:871-959 | The counting loop computes that size for every call within a size_t |
| Codec.PackAllocate | Vendor/libssh/src/buffer.c:871-971 | The pre-pass reserves the computed size and changes no content |
| Codec.Pack | Vendor/libssh/src/buffer.c:1137-1162 | Packing into an empty buffer without a padded bignum of length 0 fills the array the pre-pass left: the packing pass never reallocates, and fails only if a bignum gets no string |
| Codec.NumberFormat | Vendor/libssh/src/buffer.c:1012-1032 | Every number, reduced to the width of its field, is written in one, two, four or eight bytes, most significant first |
| Codec.StringFormat | Vendor/libssh/src/buffer.c:1033-1037 | A string is written after its length in four bytes; one that is too long is an error |
| Codec.TextFormat | Vendor/libssh/src/buffer.c:1038-1092 | A C string is written up to its terminator, by s after its length and by t without it |
| Codec.AreaFormat | Vendor/libssh/src/buffer.c:1052-1064 | An area is written as its first bytes, as many as asked for, if it has them |
| Codec.BignumFormat | Vendor/libssh/src/buffer.c:1065-1081 | A bignum is written as its mpint after the length; padded in front with zeros to exactly the length asked for, or an error if it is too long |
| Codec.NoFormat | Vendor/libssh/src/buffer.c:1093-1096 | Any other letter is an error |
| Codec.PackedConcatenates | Vendor/libssh/src/buffer.c:983-1113 | A call packs the concatenation of what its letters pack, and must have exactly the arguments its format takes |
| Unpack.UnpackVa | Vendor/libssh/src/buffer.c:1173-1415 | The unpacking loop computes its specification on the readable bytes, for every format, every input and every outcome of its allocations, errors included |
| Unpack.EnoughMemory | Vendor/libssh/src/buffer.c:1244-1325 | A call in which some letter cannot get the memory it needs returns nothing; in every other call memory makes no difference |
| WireFormat.NumbersExactly | Vendor/libssh/src/buffer.c:1215-1243 | A number reads exactly if its width of bytes is there, as the number that is written as those bytes |
| WireFormat.StringsExactly | Vendor/libssh/src/buffer.c:1244-1296 | A string, bignum or C string reads exactly if its length is there and can be met (and is below the buffer's size for a C string); else only the length is consumed |
| WireFormat.AreasExactly | Vendor/libssh/src/buffer.c:1297-1325 | An area reads exactly if its bytes are there and fewer than the buffer held; else nothing is consumed |
| WireFormat.NothingElseReads | Vendor/libssh/src/buffer.c:1326-1331 | Any other letter reads nothing and is an error |
| WireFormat.MemoryExactly | Vendor/libssh/src/buffer.c:1244-1325 | Which letters need memory, and what each consumes when there is none |
| WireFormat.UnpacksAll | Vendor/libssh/src/buffer.c:1334-1336 | A call that returns values was given exactly the arguments its format takes |
| Unpack.RoundTrip | Vendor/libssh/src/buffer.c:1173-1415 | Unpacking what was packed returns exactly the values and leaves the following bytes, if and only if every memory area is within the bound unpack sets |
| Unpack.WholeBufferArea | Vendor/libssh/src/buffer.c:1173-1415 | A memory area that fills the whole buffer packs but never unpacks |
| Bignum.MakeBignumString | Vendor/libssh/src/bignum.c:30-66 | Fills the padded or minimal encoding in place, or fails when there is no memory for it |
| Bignum.MpintCorrect | Vendor/libssh/src/bignum.c:30-71 | The encoding is a canonical non-negative mpint of the number; zero is the empty string |
| Bignum.MpintUnique | Vendor/libssh/src/bignum.c:78-93 | Every canonical mpint is the encoding of the number it decodes to |
| Bignum.PaddedCorrect | Vendor/libssh/src/bignum.c:41-47 | The padded form has the requested length and the same value, and fails exactly for a number too long for it |
| DhGroup.RetrieveGroup | Vendor/libssh/src/dh-gex.c:395-490 | The selection loop computes the fold the results below are about |
| DhGroup.EligibleExactly | Vendor/libssh/src/dh-gex.c:441-456 | A line is eligible exactly if its type is 2, its tests have the bit 4 set, and its size plus one is within the request |
| DhGroup.SelectsIdealSize | Vendor/libssh/src/dh-gex.c:331-374 | The size found is the smallest eligible one from the preferred size up, else the largest below, if and only if the preferred size is not 0 or nothing is eligible; and its candidates are counted |
| DhGroup.IdealIsUnique | Vendor/libssh/src/dh-gex.c:331-374 | Only one size is the best |
| DhGroup.NothingForZero | Vendor/libssh/src/dh-gex.c:341-344 | A preferred size of 0 selects nothing from any file |
| DhGroup.KeepsRetained | Vendor/libssh/src/dh-gex.c:457-479 | The modulus kept has the size reported if and only if some draw among its candidates was won, and then it is the last one won; a working generator always wins the first |
| DhGroup.FailedDrawKeepsOldModulus | Vendor/libssh/src/dh-gex.c:457-479 | A generator that fails at the first candidate of a better size leaves a modulus of another size |
| DhGroup.OrderDoesNotMatter | Vendor/libssh/src/dh-gex.c:412-480 | Size and count are the same for every order of the lines and all draws |
| DhGroup.Accepted | Vendor/libssh/src/dh-gex.c:632-651 | A request is accepted exactly if it is ordered and overlaps the sizes served; minimum and preference are raised to the lowest size |
| DhGroup.AcceptedIsServed | Vendor/libssh/src/dh-gex.c:632-651 | Every request the server accepts is one the selection handles, and what it selects is at least the minimum and within what the client asked for |
| Reservoir.Uniform | Vendor/libssh/src/dh-gex.c:380-390 | Of the n! vectors of draws each of the n candidates is retained by exactly (n - 1)! |
| Reservoir.DrawsSize | Vendor/libssh/src/dh-gex.c:380-390 | There are n! vectors of draws |
| Reservoir.EveryVectorDrawn | Vendor/libssh/src/dh-gex.c:380-390 | Every vector of draws is what some nonces give |
| Reservoir.LoopIsUniform | Vendor/libssh/src/dh-gex.c:457-479 | With a working generator the loop keeps the candidate its vector of draws retains |
| Base64.RoundTrip | Vendor/libssh/src/base64.c:63-177 | Decoding undoes encoding for every input but the empty one, whose encoding is refused |
| Base64.DigitTable | Vendor/libssh/src/base64.c:36-38 | The character of every six-bit value is the one the alphabet of the source has there |
| Base64.QuantumIsRadix64 | Vendor/libssh/src/base64.c:245-271 | A quantum is the number its octets spell, in radix 64 |
| Base64.EncodeLength | Vendor/libssh/src/base64.c:280-313 | The encoding of n octets has 4 * ceil(n / 3) characters |
| Base64.Accepts | Vendor/libssh/src/base64.c:63-177 | A text decodes exactly when the characters before its first '=' are in the alphabet and their number fits the number of '=' anywhere in the text |
| Base64.CanonicalBack | Vendor/libssh/src/base64.c:63-177 | What any accepted text decodes to is what its cleaned form encodes: stray bits of the last character and everything but padding from the first '=' on are dropped; so encoding undoes decoding exactly for texts that have neither |
| Base64.BinToBase64 | Vendor/libssh/src/base64.c:280-313 | Writes the encoding and its terminator within the array allocated; refuses exactly more than 2^28 octets |
| Base64.EncodeBlock | Vendor/libssh/src/base64.c:245-271 | Writes one quantum behind what is there |
| Base64.GetEquals | Vendor/libssh/src/base64.c:230-242 | Counts the '=' signs and overwrites each, wherever they are |
| Base64.DecodeBlock | Vendor/libssh/src/base64.c:186-227 | Decodes one block, or refuses a character outside the alphabet; a 0, which finds the terminator of the alphabet, decodes as 0 |
| Base64.Base64ToBin | Vendor/libssh/src/base64.c:63-177 | Returns what the text decodes to, for all outcomes of its allocations; when they succeed, accepts exactly the texts that decode to no more than a buffer holds |
| ScpReader.RunScript | Sources/SSHKit/SCPClient.swift:129-250 | Any script of reads answers as a function of all stdout bytes, all stderr bytes and the status, up to its first error or its close |
| ScpReader.ChunksDoNotMatter | Sources/SSHKit/SCPClient.swift:233-249 | Any two event streams with the same concatenated output, diagnostics and status up to the first close give every script the same answers |
| ScpReader.FlattenConcatenates | Sources/SSHKit/SCPClient.swift:233-249 | What a reader works on is the concatenation of the output and of the diagnostics before the first close, and its status |
| ScpReader.NothingAfterClosed | Sources/SSHKit/SCPClient.swift:233-249 | Nothing after the close event is read |
| ScpReader.SCPEventReader.FillBuffer | Sources/SSHKit/SCPClient.swift:233-249 | Loses no byte; fails exactly when no more output comes, with the status and all of stderr |
| ScpReader.SCPEventReader.ReadByte | Sources/SSHKit/SCPClient.swift:209-214 | The next byte of all the output, or the error of an ended command |
| ScpReader.SCPEventReader.ReadLine | Sources/SSHKit/SCPClient.swift:216-231 | The text before the first newline without a final CR, if within 16 KiB |
| ScpReader.SCPEventReader.ReadBytes | Sources/SSHKit/SCPClient.swift:173-186 | Exactly the next bytes asked for, or the error of an ended command |
| ScpReader.SCPEventReader.ExpectAck | Sources/SSHKit/SCPClient.swift:138-149 | Accepts 0; reports the message line after 1 or 2; refuses any other byte |
| ScpReader.SCPEventReader.ReadFileHeader | Sources/SSHKit/SCPClient.swift:151-171 | Parses the header line, with each way it can be refused |
| ScpProtocol.HeaderBack | Sources/SSHKit/SCPClient.swift:151-171 | The bytes an upload writes for its header (line 24 of the same file), the "C", the line and the newline, are read back as the same header, leaving what follows, if and only if the size is allowed, the line fits 16 KiB and the filename does not end in a CR; for every permission string without a space, 64-bit size and filename without a newline |
| ScpProtocol.AckMeans | Sources/SSHKit/SCPClient.swift:138-149 | On the bytes: 0 is an acknowledgement and leaves the rest; 1 and 2 fail with the text of the line behind them; any other byte is refused by value |
| ScpProtocol.AckWithoutLine | Sources/SSHKit/SCPClient.swift:138-149 | A failure whose line is longer than 16 KiB, or not ended, is reported as that |
| ScpProtocol.NothingToRead | Sources/SSHKit/SCPClient.swift:233-249 | Without output every read fails with the status and all of stderr, or with there being no status |
| ScpProtocol.BytesMean | Sources/SSHKit/SCPClient.swift:173-214 | Reads of a byte and of a number of bytes return exactly the first ones and leave the rest; too few are the end error |
| ScpProtocol.LineMeans | Sources/SSHKit/SCPClient.swift:216-231 | A line is the text before the first newline less one final CR, if within 16384 bytes; without a newline it is too long or the end error |
| ScpProtocol.HeaderMeans | Sources/SSHKit/SCPClient.swift:151-171 | The response to a download: 1 and 2 fail with the text of their line, any byte but "C" is refused, after "C" the line is parsed |
| ScpProtocol.HeaderWithoutLine | Sources/SSHKit/SCPClient.swift:151-171 | Whatever it announces, a line that is too long or not ended is an error of its own |
| ScpProtocol.ParseMeans | Sources/SSHKit/SCPClient.swift:160-171 | A header line splits at its first two spaces; with fewer, or no number between them, it is malformed; a size above the maximum is refused |
| ScpProtocol.NumberMeans | Sources/SSHKit/SCPClient.swift:160-163 | Digits with an optional plus are a size below 2^64, with a minus only if 0; leading zeros do not matter |
| ScpProtocol.NoNumber | Sources/SSHKit/SCPClient.swift:160-163 | Nothing else is a size |
| ScpProtocol.CloseMeans | Sources/SSHKit/SCPClient.swift:188-207 | Exactly when the end is a success, and which error each other end is |
| ScpReader.SCPEventReader.ExpectClosed | Sources/SSHKit/SCPClient.swift:188-207 | Succeeds exactly when the command ends with status 0 and no output is left |
| Banner.ReadBanner | Vendor/libssh/src/socket.c:376-384 | For every way of cutting the server's stream into reads: the same banner, the same too-long error or still waiting, and every byte after the banner still available |
| Banner.FindMeans | Vendor/libssh/src/client.c:124-172 | After any number of other complete lines: a line starting with "SSH-" gives the banner, cut at its first CR or 0; 257 bytes without a newline give the too-long error; a shorter start of a line gives nothing yet |
| Banner.BannerIsText | Vendor/libssh/src/client.c:124-148 | After other lines, a line of text without CR or 0 that starts with "SSH-", up to 256 bytes, is the banner, whole, and the bytes behind its newline are left |
| Banner.BannerStops | Vendor/libssh/src/client.c:124-148 | With a CR or a 0 behind the text and anything up to the newline, the banner is the text before it |
| Banner.BannerReader.Callback | Vendor/libssh/src/client.c:107-175 | One scan: what it consumes, stores and overwrites for every content of the buffer |
| Banner.EditsDoNotMatter | Vendor/libssh/src/client.c:133-135 | Overwriting the CRs of an incomplete line does not change what is found when more arrives |
| Banner.BannerReader.Feed | Vendor/libssh/src/socket.c:376-384 | One read of the socket, whatever later reads will bring |
| ConnectRace.ReturnedIffCompletedFirst | Sources/SSHKit/SSHClient.swift:27-57 | The connection is returned exactly when connecting succeeded and the completion's critical section came before the cancellation's; a task cancelled before completion is told so |
| ConnectRace.ReturnedIsNeverDisconnected | Sources/SSHKit/SSHClient.swift:199-225 | From the moment a connection is to be returned the box never disconnects it |
| ConnectRace.DisconnectedExactly | Sources/SSHKit/SSHClient.swift:187-234 | How often the stored session is disconnected in the end: never when returned, once or twice when cancelled first, once when cancelled after a failure |
| ConnectRace.ResumedOnce | Sources/SSHKit/SSHClient.swift:30-52 | The continuation is resumed at most once, and exactly once when the task is done |
| ConnectRace.EveryRun | Sources/SSHKit/SSHClient.swift:181-235 | The invariant behind these results holds under every interleaving |
| ConnectRace.SSHLockedSession.Store | Sources/SSHKit/SSHClient.swift:187-197 | Stores the session and tells whether it was cancelled already |
| ConnectRace.SSHLockedSession.Cancel | Sources/SSHKit/SSHClient.swift:199-210 | Marks the box cancelled and picks the session to disconnect, none once finished |
| ConnectRace.SSHLockedSession.ShouldReturnConnectedSession | Sources/SSHKit/SSHClient.swift:212-218 | Marks the box finished and tells whether cancellation had not come first |

## Left out

- Sockets, polling, timeouts, encryption, sequence numbers and rekeying: `ssh_packet_send` appends to a queue or fails, and handling packets is any number of receive steps. The wait of a write for a running key exchange is not modelled.
- All cryptography; a bignum is a natural number and the library's byte conversion is a function.
- User callbacks, which may re-enter, and connectors; `grow_window` from a data callback.
- Channel requests inside the close handshake (keepalive, window change, signals); requests have their own small model.
- Several channels of one session and their ids: each model is the projection to one channel; a packet for a released id is refused.
- Malformed channel packets (short reads, unknown extended data types): only well-formed packets are dispatched.
- Channels.Channel.DefaultBufferize: a buffer freed when memory runs out is an empty one here; reading from it before it is allocated again is not modelled.
- Channels.Channel.ReadTimeout: the buffer pointer it takes before its wait, which a failed allocation during the wait frees, is not modelled; it reads the buffer of the channel.
- ChannelWrite.WriteLoop: the transport accepts some finite number of packets before it fails.
- ChannelPair: on a session that is no longer alive a free sends nothing; between two ends this is a free whose sends fail.
- ChannelProgress.ProgressIsPossible: shows that a continuation exists; that a scheduler takes it is not stated.
- Codec.PackVa: an argument of the wrong kind for its letter, undefined in C, is an error; the argument canary is not modelled.
- Codec.Pack: that no reallocation happens is stated for sizes below 2^32, beyond which the pre-pass truncates its sum.
- Unpack.UnpackVa: the values stored before an error and freed again are not returned.
- SshBuffers.SshBuffer.Reinit: overwriting of freed or passed bytes in secure buffers is not modelled.
- Bignum.PaddedCorrect: for padded lengths up to the maximum string size.
- DhGroup.RetrieveGroup: works on parsed lines; the scanning of the file, its 32- and 4095-character fields, and a failing strdup are not modelled.
- Base64.Base64ToBin: that a block needs no new room in the buffer, so that a failing allocation could do no harm, is not stated.
- Banner.ReadBanner: the copy of the banner succeeds, a read is short of the buffer's maximum size, and what the packet layer does with the bytes after the banner is not modelled.
- Banner.BannerReader.Callback: a failing copy of the banner, whose error code would be taken for a size, is not modelled.
- ScpReader.SCPEventReader.ReadFileHeader: text is a sequence of characters and UTF-8 decoding a parameter; a space that Swift joins with a following combining mark still splits the header here.
- ScpReader.RunScript: a script stops at its first error or after its close, as both callers do.
- ConnectRace.ResumedOnce: that connecting itself completes exactly once, with a session or an error, is assumed.
- ConnectRace.DisconnectedExactly: a disconnect is counted, not what it does to the connection.
- Automatic authentication, configuration files, bind options, SFTP, shells, key storage, path validation and the Swift wrappers that only forward: easy members or foreign calls.
