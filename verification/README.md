# TTP2: packet codec, TCP sessions and UDP stop-and-wait

TTP2 moves typed packets between programs. A packet is an id and one of nine payloads; it is
DER-encoded, prefixed with a four-octet length, and carried over a TCP stream or in an
acknowledged UDP datagram, with queues between the network threads and the application. This
project models those layers and proves what they promise together, and where they do not.

- **Octets and integers** (`Bytes`, `Decimal`, `Integers`). Big-endian numbers, minimal two's
  complement contents octets (X.690 section 8.3), and `bytesToInt`, whose loop is proved on
  32-bit patterns. It does not extend the sign, so small negative ints change: the exact set of
  ints that survive is proved, and that no 32-bit id ever turns into the sentinel -1.
- **Codec** (`Der`, `PacketTypes`, `PacketCodec`, `Growth`, `Asn1`). A DER codec directed by the schema of
  `packets.asn1` (X.690 sections 8.1.3, 8.3, 8.7, 8.9, 8.10, 8.13, 8.14, 10.1): the sizing pass
  gives the length of the writing pass, the parser accepts exactly the encodings, encodings are
  prefix-free, and decoding an encoding yields the packet normalised field by field.
  `Asn1.PacketNode` is the tree the encoders fill in place; `Asn1.Encode` and `Asn1.Decode` are
  proved equal to the specification functions of `PacketCodec`.
- **TCP** (`Framing`, `Sessions`, `Outgoing`, `Sending`, `Tcp`). Frames, the greedy parse of a
  stream, `receiveMessage` with at most one frame per call and a buffer per socket, `sendBytes`
  and `sendMessage` under partial writes and failing `send` calls, and the sending and receiving
  loops, as a class whose methods are proved against the functions the theorems are about.
- **Whole sessions** (`Pipes`, `EchoSession`, `EchoProgress`). Client threads, network, server
  threads and the echo loop as interleaved steps, with end-to-end safety over every run up to the
  disconnect, and with the exact condition under which a session can still complete.
- **Concurrency** (`QueueMonitor`, `FlowControl`). The queues' mutex and condition variable with
  any number of threads, and the benchmark's in-flight window, as state machines whose steps are
  the critical sections.
- **UDP** (`Udp`, `StopAndWait`, `StopAndWaitRuns`, and `Ipv4` for the address check). The retransmission loop, and
  any number of peers over a network that loses, delays, reorders and may duplicate datagrams,
  acknowledgements included.

What the proofs show the code does, where one might expect otherwise:

- A negative int of at most three content octets arrives as a positive one (`v + 256^k`), ids
  included; every other int arrives unchanged.
- Strings are cut at their first NUL, but buffers and the items of a directory listing are not.
- `sendMessage` returns 0 whatever its `send` calls returned; the frame is whole on the wire
  exactly when none of them failed. Once a header was refused and its body accepted, the receiver
  takes no frame any more until at least 0x3000_0000 octets have followed.
- An id is used up even by a packet that `encode` then refuses.
- On a hop a packet grows by one octet for each of its ints, id included, in -2^23..-1. So what
  was received can be sent on exactly if the original length plus their number is below 2^31.
- A receiver takes one frame per wake-up, and epoll wakes it for unread octets only: a frame read
  together with an earlier one waits for whatever is sent next. At any moment a session can still
  complete, without another request, exactly if what is pending can be sent, here and back, and on
  either side the frames still to be taken are no more than the octets still to be read.
- `disconnect` notifies no condition variable: a popper asleep then, with no notification underway,
  sleeps on at least until the next push, but for spurious wake-ups.
- The benchmark hangs when it ends, spurious wake-ups aside, exactly if its `notify_all` falls
  between the sender's test, which found the window full, and its wait; in all other runs the
  sender needs at most three more steps.
- After a reply that is not an acknowledgement, UDP copies go to whoever replied.
- `isValidIpV4` judges a piece by the number it begins with, so more than addresses passes: white
  space or a sign, even a minus, in front, and anything but letters behind. Of texts of digits and dots it returns true for the canonical
  addresses alone, but at a piece that is empty or from 2^31 on, behind pieces that pass, it
  throws instead of returning false.

Conventions. All interleavings are nondeterministic; what `send`, `recv`, epoll and UDP replies
return are parameters: for `send`, a function from the number of the call to the octets there is
room for, or to a failure. The session theorems are about runs in which no `send` call fails and
receivers are woken, as by level-triggered epoll, while octets are unread. The steps of the state machines use the same functions
(`Sessions.ReceiveStep`, `Sessions.Returned`, `Outgoing.FrameOf`) that the methods of
`Tcp.TcpNetworking` are proved against. Signed overflow of `autoId` and DER lengths beyond an
`int` have no meaning in C++ and are excluded by preconditions and step guards. Beside the safety
theorems stand theorems that runs exist: that every thread can step when it should, that messages
arrive, and that the bounds are attained.

## Model

| member | source | states |
|---|---|---|
| Integers.ContentDenotes | lib/ttp2/src/helpers/asn1_helpers.cpp:43-54 | the octets written for an int are minimal (X.690 section 8.3.2) and denote that int in two's complement |
| Integers.MinimalContentIsUnique | lib/ttp2/src/helpers/asn1_helpers.cpp:43-54 | any minimal contents octets are the ones written for the int they denote |
| Decimal.PrintThenParse | lib/ttp2/src/helpers/asn1_helpers.cpp:44-46 | the decimal text an int travels to the ASN.1 library as reads back as that int |
| Integers.BytesToInt | lib/ttp2/src/helpers/asn1_helpers.cpp:114-122 | the shift-or loop returns the two's complement reading of the big-endian value modulo 2^32, for any number of bytes |
| Integers.OrFillsClearedBits | lib/ttp2/src/helpers/asn1_helpers.cpp:118-119 | or-ing a value into cleared low bits, defined bit by bit, adds it |
| Integers.LastFourOctetsDecide | lib/ttp2/src/core/tcp_networking.cpp:321-329 | octets before the last four never influence the result |
| Integers.IntegerPathDomain | lib/ttp2/src/helpers/asn1_helpers.cpp:102-122 | an int survives encoding and decoding if and only if it is non-negative or below -2^23; otherwise 256^k is added, k being its number of octets |
| Integers.NormIntIdempotent | lib/ttp2/src/helpers/asn1_helpers.cpp:102-122 | a second trip changes no int any more |
| Integers.LostSignTakesAnOctet | lib/ttp2/src/helpers/asn1_helpers.cpp:102-122 | an int arrives one octet longer if it lies in -2^23..-1, and as long as it was otherwise |
| Integers.ReadsAsMinusOne | lib/ttp2/src/client_session_controller.cpp:91-95 | a DER integer of any length reads as -1 exactly when it has five or more octets, the last four all ones |
| Integers.SentinelIsUnambiguous | lib/ttp2/src/server_session_controller.cpp:79-82 | no 32-bit id is ever received as -1, so the receivers discard no well-formed packet |
| Der.LengthRoundTrip | lib/ttp2/src/helpers/asn1_encode.cpp:46-54 | written length octets are read back, whatever follows them |
| Der.LengthCanonical | lib/ttp2/src/helpers/asn1_decode.cpp:24-25 | every accepted length is the one that would have been written |
| Der.LengthOctetsShortest | lib/ttp2/src/helpers/asn1_encode.cpp:46-54 | among all short and long forms denoting a length the written one is the only shortest (X.690 section 10.1) |
| Der.TlvRoundTrip | lib/ttp2/src/helpers/asn1_encode.cpp:46-54 | an element is split off again exactly, whatever follows it |
| Der.TlvCanonical | lib/ttp2/src/helpers/asn1_decode.cpp:24-25 | every element split off is an element as written |
| Der.AltOfTag | lib/ttp2/src/helpers/packets.asn1:52-65 | a tag belongs to at most one alternative, and to none exactly when no alternative has it |
| Der.Schema | lib/ttp2/src/helpers/packets.asn1:3-50 | the components of an alternative have different names |
| Der.ItemsDer | lib/ttp2/src/helpers/asn1_tdfs_encode.cpp:18-28 | a list's items take as many octets as the sizing pass says |
| Der.ValuesDer | lib/ttp2/src/helpers/asn1_encode.cpp:46-54 | the components take as many octets as the sizing pass says |
| Der.TreeDer | lib/ttp2/src/helpers/asn1_encode.cpp:46-54 | the writing pass produces exactly as many octets as the sizing pass computes, through all nesting levels |
| Der.ItemsRoundTrip | lib/ttp2/src/helpers/asn1_tdfs_decode.cpp:12-16 | a SEQUENCE OF parses back to the list it was written from |
| Der.ValuesRoundTrip | lib/ttp2/src/helpers/packets.asn1:3-50 | the components of every alternative parse back in order, nothing left over |
| Der.ChoiceRoundTrip | lib/ttp2/src/helpers/packets.asn1:54-64 | an explicitly tagged alternative parses back to itself |
| Der.TreeRoundTrip | lib/ttp2/src/helpers/asn1_decode.cpp:24-50 | parsing the encoding of a packet tree gives the tree |
| Der.TreeCanonical | lib/ttp2/src/helpers/asn1_decode.cpp:24-55 | re-encoding an accepted byte string gives that byte string |
| Der.AcceptsExactlyEncodings | lib/ttp2/src/helpers/asn1_decode.cpp:24-55 | a byte string of any length is accepted if and only if it is the encoding of some well-typed tree whose length fits an int, and then as that tree |
| Der.PrefixFree | lib/ttp2/src/helpers/asn1_encode.cpp:46-54 | if two encodings, each with something behind it, are equal, so are the trees and what follows |
| PacketTypes.StrLen | lib/ttp2/src/helpers/asn1_helpers.cpp:29-33 | the length of a C string is the place of its first NUL octet, or all of it |
| PacketTypes.CutNulFixpoint | lib/ttp2/src/helpers/asn1_helpers.cpp:29-33 | cutting at the first NUL changes a string if and only if it contains one, and only once |
| PacketTypes.NormaliseFixpoint | lib/ttp2/src/helpers/asn1_helpers.cpp:29-167 | a payload arrives unchanged if and only if its strings have no NUL and its ints are in the surviving domain; buffers and list items never matter |
| PacketTypes.NormaliseIdempotent | lib/ttp2/src/helpers/asn1_decode.cpp:63-123 | normalising a packet twice is normalising it once |
| PacketCodec.WireFormat | lib/ttp2/src/helpers/packets.asn1:3-65 | every packet octet by octet: which element holds which field, in which order and under which tag, for all nine alternatives, the alternative's tag being its place in the program's variant |
| PacketCodec.EncodeFails | lib/ttp2/src/helpers/asn1_encode.cpp:92-96 | encoding fails if and only if the packet is a file with an empty table |
| PacketCodec.RoundTrip | lib/ttp2/src/helpers/asn1_encode.cpp:10-196 | for all nine alternatives, a file with an empty table excepted, decoding an encoding yields the same alternative normalised field by field, id included |
| PacketCodec.DecodeFails | lib/ttp2/src/helpers/asn1_decode.cpp:50-55 | decoding fails if and only if the octets are no encoding |
| PacketCodec.DecodedFields | lib/ttp2/src/helpers/asn1_decode.cpp:63-123 | every encoding, by whomever, decodes to strings, buffers and items octet for octet and ints as bytesToInt reads them, in the fields of its alternative |
| PacketCodec.SecondHopChangesNothing | lib/ttp2/src/helpers/asn1_decode.cpp:10-123 | what has been decoded once is decoded again unchanged |
| Growth.PayloadGrows | lib/ttp2/src/helpers/asn1_encode.cpp:62-196 | for all nine alternatives, a payload's components grow on a hop by one octet for each int that does not survive, and by nothing else |
| Growth.FitsAfterHop | lib/ttp2/src/helpers/asn1_encode.cpp:46-48 | a packet fits the int that counts its length after a hop if and only if its length before plus the number of its ints, id included, in -2^23..-1 is below 2^31, through every nesting level and both length forms |
| PacketCodec.EncodingDeterminesPacket | lib/ttp2/src/helpers/asn1_encode.cpp:24-44 | equal encodings, even with something behind them, come from packets with the same id and alternative that differ at most behind a NUL |
| Asn1.PacketNode.WriteString | lib/ttp2/src/helpers/asn1_helpers.cpp:29-41 | one component becomes the string up to its first NUL, the others stay |
| Asn1.PacketNode.WriteInt | lib/ttp2/src/helpers/asn1_helpers.cpp:43-54 | one component becomes the minimal octets of the int, the others stay |
| Asn1.PacketNode.WriteBuffer | lib/ttp2/src/helpers/asn1_helpers.cpp:56-67 | one component becomes the whole buffer, the others stay |
| Asn1.PacketNode.WriteVector | lib/ttp2/src/helpers/asn1_helpers.cpp:69-86 | the element-by-element loop leaves exactly the given items, in order and uncut |
| Asn1.PacketNode.EncodeStandard | lib/ttp2/src/helpers/asn1_encode.cpp:62-72 | the tree holds the alternative's components and the id it had |
| Asn1.PacketNode.EncodeFile | lib/ttp2/src/helpers/asn1_encode.cpp:74-99 | as above; an empty table leaves a mandatory component missing |
| Asn1.PacketNode.EncodeViewportRequest | lib/ttp2/src/helpers/asn1_encode.cpp:101-122 | the tree holds the four bounds in schema order and the id it had |
| Asn1.PacketNode.EncodeViewport | lib/ttp2/src/helpers/asn1_encode.cpp:124-149 | the tree holds the four bounds and the table in schema order and the id it had |
| Asn1.PacketNode.EncodeTqlQuery | lib/ttp2/src/helpers/asn1_encode.cpp:151-162 | the tree holds the query and the id it had |
| Asn1.PacketNode.EncodeError | lib/ttp2/src/helpers/asn1_encode.cpp:164-179 | the tree holds code and message and the id it had |
| Asn1.PacketNode.EncodeUniversal | lib/ttp2/src/helpers/asn1_encode.cpp:181-195 | the tree holds type and bytes and the id it had |
| Asn1.PacketNode.EncodeLs | lib/ttp2/src/helpers/asn1_tdfs_encode.cpp:6-16 | the tree holds the directory and the id it had |
| Asn1.PacketNode.EncodeLsSolution | lib/ttp2/src/helpers/asn1_tdfs_encode.cpp:18-28 | the tree holds the items and the id it had |
| Asn1.PacketNode.WritePayload | lib/ttp2/src/helpers/asn1_encode.cpp:24-44 | the dispatch leaves the components of the payload's own alternative |
| Asn1.WriteTree | lib/ttp2/src/helpers/asn1_encode.cpp:46-54 | the writing pass, in place and with every length written ahead of what it measures, fills the buffer of the computed size with exactly the encoding |
| Asn1.Encode | lib/ttp2/src/helpers/asn1_encode.cpp:10-60 | the buffer returned holds exactly the packet's encoding, or encoding fails because a component is missing |
| Asn1.ReadPayload | lib/ttp2/src/helpers/asn1_decode.cpp:63-123 | reading components by name gives the payload the tree's values stand for |
| Asn1.ReadVector | lib/ttp2/src/helpers/asn1_helpers.cpp:136-167 | the element-by-element loop returns all items in order |
| Asn1.Decode | lib/ttp2/src/helpers/asn1_decode.cpp:10-61 | the packet decoded, or failure exactly when the octets are not an encoding |
| Framing.HeaderIsNetworkOrder | lib/ttp2/src/core/tcp_networking.cpp:118-119 | the header is the 32-bit length in network order, and exact |
| Framing.TakeFrameOf | lib/ttp2/src/core/tcp_networking.cpp:149-164 | a complete frame at the front is taken whole, its body returned, the rest kept |
| Framing.TakeFrameIs | lib/ttp2/src/core/tcp_networking.cpp:149-164 | whatever is taken was a frame, with a length that fits its header |
| Framing.TakeFrameExtends | lib/ttp2/src/core/tcp_networking.cpp:149-164 | more octets behind a complete frame do not change what is taken |
| Framing.GreedyConserves | lib/ttp2/src/core/tcp_networking.cpp:147-164 | all frames and the remainder make up the stream again, and the remainder holds no complete frame |
| Framing.GreedyAfterFrames | lib/ttp2/src/core/tcp_networking.cpp:147-164 | parsing resumes correctly behind any run of frames |
| Framing.GreedyExtends | lib/ttp2/src/core/tcp_networking.cpp:147-164 | more octets never change the frames already complete |
| Framing.GreedyIsTheOnlyParse | lib/ttp2/src/core/tcp_networking.cpp:147-164 | a stream has only one split into frames and an incomplete remainder |
| Sessions.StepByEnd | lib/ttp2/src/core/tcp_networking.cpp:128-164 | a call that sees the peer close or recv fail keeps all it has read and takes nothing; one that stops for want of octets or of a connection takes the first frame if it is whole, and else nothing |
| Sessions.FramingRefinement | lib/ttp2/src/core/tcp_networking.cpp:125-172 | however octets are chunked over calls, frames taken plus buffer equal octets received, and frames taken followed by those in the buffer are the greedy parse of the whole |
| Sessions.ChunkBoundariesDoNotMatter | lib/ttp2/src/core/tcp_networking.cpp:128-145 | of two runs over the same stream, whatever each has received, one has taken all frames the other has, in the same order |
| Sessions.BacklogLaw | lib/ttp2/src/core/tcp_networking.cpp:147-164 | after t parsing calls the number of frames taken is exactly the minimum over 0 <= s <= t of A(s) + (t - s) |
| Sessions.NoBacklog | lib/ttp2/src/core/tcp_networking.cpp:147-164 | every complete frame is taken if and only if since every parsing call no more frames have come in than there have been parsing calls |
| Sessions.OneNewFrameEach | lib/ttp2/src/core/tcp_networking.cpp:147-164 | in particular if no parsing call finds more than one new frame |
| Sessions.SecondFrameWaits | lib/ttp2/src/core/tcp_networking.cpp:128-164 | of two frames read by one call the second stays in the buffer, complete |
| Sessions.GoodIsPacket | lib/ttp2/src/core/tcp_networking.cpp:166-171 | a frame yields a packet if and only if its body is an encoding of an id not read as -1; octets that are no encoding come back as the default packet |
| Sessions.DeliveredIgnoresBad | lib/ttp2/src/core/tcp_networking.cpp:166-171 | frames whose body is no such encoding yield no packet, each of the others exactly one |
| Sessions.BadFrameIsolation | lib/ttp2/src/core/tcp_networking.cpp:161-171 | a run over a stream with bad frames, bodies that are no encoding among them, delivers a prefix of what the stream without them delivers, and all of it once every frame is taken |
| Sessions.SocketIndependence | lib/ttp2/src/server_session_controller.cpp:70-85 | for any interleaving of events over many sockets, each socket's buffer and packets are those of running its events alone |
| Sessions.EarlierEventsFirst | lib/ttp2/src/server_session_controller.cpp:70-85 | packets of many sockets are queued in the order of the events they came with |
| Sessions.HangupDropsBuffer | lib/ttp2/src/server_session_controller.cpp:72-76 | a hang-up drops what is buffered and yields nothing |
| Sessions.SocketRunsItsCalls | lib/ttp2/src/server_session_controller.cpp:70-85 | and those, for a socket that does not hang up, are the buffer and the delivered packets of the run of its calls, which framing, backlog and bad-frame theorems speak of |
| Outgoing.AssignedAt | lib/ttp2/src/core/tcp_networking.cpp:103-108 | a sent packet keeps its payload, and its id unless that is -1, then it gets the value autoId has reached |
| Outgoing.AutoAfterCounts | lib/ttp2/src/core/tcp_networking.cpp:105-108 | which is where it started plus the number of packets with id -1 before |
| Outgoing.SendableMeans | lib/ttp2/src/helpers/asn1_encode.cpp:46-48 | the packets senders are proved for are all whose encoding is shorter than 2^31 octets and that have octets in the buffers libtasn1 would else measure itself |
| Outgoing.AutoIdsConsecutive | lib/ttp2/src/core/tcp_networking.cpp:105-108 | ids handed out increase in sending order, by one from one to the next |
| Outgoing.FrameIsDelivered | lib/ttp2/src/core/tcp_networking.cpp:118-120 | the frame of a packet that fits is returned as the normalised packet, never as the sentinel |
| Outgoing.SendableAfterHop | test/server/main.cpp:51-57 | a received packet has an id and its components and changes no more; it can be sent again if and only if the original length plus the number of lost signs is below 2^31 |
| Outgoing.LongestPacketStops | lib/ttp2/src/helpers/asn1_encode.cpp:46-48 | a packet that can be sent, with an int -1 and a blob of 2^31 - 31 octets, arrives an octet longer and cannot be sent on |
| Sending.WrittenUntilFailure | lib/ttp2/src/core/tcp_networking.cpp:174-185 | for every sequence of send results: calls go on until everything is written or one fails, what is written is the sum accepted before that, and it is everything if and only if none failed |
| Sending.WholeFrame | lib/ttp2/src/core/tcp_networking.cpp:118-122 | what a sendMessage call puts on the wire is the packet's frame if and only if none of its send calls failed, and shorter otherwise |
| Sending.AllFramesWhole | lib/ttp2/src/core/tcp_networking.cpp:118-122 | a run of sendMessage calls puts the concatenation of the frames on the wire if and only if no send call failed |
| Sending.RefusedBodyGoesUnnoticed | lib/ttp2/src/core/tcp_networking.cpp:118-122 | header accepted, body refused: the code is 0 and the frame on the wire is broken |
| Sending.LostHeaderSilences | lib/ttp2/src/core/tcp_networking.cpp:118-122 | header refused, body accepted: the code is 0, and behind all earlier frames the receiver finds no complete frame before 0x3000_0000 more octets, whatever they are |
| Tcp.TcpNetworking.PushRequest | lib/ttp2/src/core/tcp_networking.cpp:81-87 | the packet goes to the end of the queue |
| Tcp.TcpNetworking.PushResponse | lib/ttp2/src/core/tcp_networking.cpp:73-79 | the packet goes to the end of the queue |
| Tcp.TcpNetworking.PopRequest | lib/ttp2/src/core/tcp_networking.cpp:55-62 | the oldest packet is returned and removed |
| Tcp.TcpNetworking.PopResponse | lib/ttp2/src/core/tcp_networking.cpp:64-71 | the oldest packet is returned and removed |
| Tcp.TcpNetworking.ClientManager | test/server/main.cpp:51-57 | the echo loop moves requests to the responses in order, one per poll, losing none |
| Tcp.TcpNetworking.SendBytes | lib/ttp2/src/core/tcp_networking.cpp:174-185 | the wire of this socket alone grows by the prefix that the send calls accept before one fails, and the length is returned if that is all of the buffer, else -1 |
| Tcp.TcpNetworking.SendMessage | lib/ttp2/src/core/tcp_networking.cpp:103-123 | id assignment, failure of encode, and on the wire what both sendBytes calls wrote: the frame if and only if no send call failed, the code being 0 either way |
| Tcp.TcpNetworking.SendPacket | lib/ttp2/src/core/tcp_networking.cpp:99-101 | the same for a packet |
| Tcp.TcpNetworking.SendRequestSession | lib/ttp2/src/client_session_controller.cpp:101-111 | after any number of turns the wire has grown by what each turn's send calls accepted, which is the concatenation of the frames of the popped requests under their assigned ids if and only if no send call failed |
| Tcp.TcpNetworking.ReceiveMessage | lib/ttp2/src/core/tcp_networking.cpp:125-172 | the socket's buffer after the call and the packet returned, for every way reading can go, the default packet and nothing taken when the peer closed or recv failed; other sockets untouched |
| Tcp.TcpNetworking.ReceiveRequestSession | lib/ttp2/src/server_session_controller.cpp:64-87 | a batch of epoll events over many sockets leaves the buffers and queues the packets that the interleaved run of `Sessions` says, and the connection up if and only if no socket hung up and no peer closed |
| Pipes.SendKeeps | lib/ttp2/src/client_session_controller.cpp:101-111 | a send step extends the stream by the frame of the oldest packet and keeps the pipe invariant |
| Pipes.NextFrame | lib/ttp2/src/core/tcp_networking.cpp:147-164 | the frame taken from the buffer is the next one the stream carries |
| Pipes.ReceiveKeeps | lib/ttp2/src/client_session_controller.cpp:91-95 | a receive step of any size and outcome keeps the pipe invariant |
| EchoSession.RunKeeps | test/server/main.cpp:51-57 | the session invariant holds at every moment of every interleaving |
| EchoSession.EchoSafety | lib/ttp2/src/server_session_controller.cpp:52-87 | what the client has popped is always a prefix, in order, of what it has sent, under the assigned ids and normalised once; the server's autoId is never used |
| EchoSession.EchoedPacket | lib/ttp2/src/client_session_controller.cpp:71-111 | the k-th response has the normalised payload of the k-th request, and its id, or the number of -1 ids pushed before it |
| EchoSession.ServerCanAlwaysSend | lib/ttp2/src/server_session_controller.cpp:52-62 | the response the server has queued next is a request as it arrived, never refused and under the id it came with; it can go out if and only if that request's length plus its lost signs is below 2^31 |
| EchoSession.SendersAreFree | lib/ttp2/src/client_session_controller.cpp:101-111 | pushing is possible at every moment, and sending as soon as a packet is queued, whatever the other threads do |
| EchoSession.ServerReceiverIsFree | lib/ttp2/src/server_session_controller.cpp:64-87 | the server reads any part of what is unread, or queues what it has in hand, whatever the other threads do |
| EchoSession.ClientReceiverIsFree | lib/ttp2/src/client_session_controller.cpp:71-99 | the same of the client's receiver |
| EchoSession.PoppersAreFree | test/server/main.cpp:51-57 | a queued packet can be popped, and an echo pushed on, whatever the other threads do |
| EchoProgress.CompletesExactlyWhen | lib/ttp2/src/server_session_controller.cpp:52-87 | from any moment of any run there is a continuation without another request that sends all and echoes all, if and only if what is pending can be sent, here and back, and neither receiver has more frames to take than octets to read |
| EchoProgress.AnyRequestsCanBeEchoed | test/server/main.cpp:51-57 | any number of requests that can be sent and leave room for their lost signs can be pushed at once, and some run brings back all their echoes in order |
| EchoProgress.TwoAtOnceStall | lib/ttp2/src/server_session_controller.cpp:66-82 | for any two requests there is a run in which the server reads both at once, after which no continuation without a third request echoes both |
| QueueMonitor.QueueConservation | lib/ttp2/src/core/tcp_networking.cpp:55-87 | in every reachable state, pushed equals popped followed by the queue |
| QueueMonitor.NoLostWakeup | lib/ttp2/src/core/tcp_networking.cpp:55-87 | for any numbers of pushing and popping threads, while one sleeps there are at least as many threads about to notify or to pop as items queued |
| QueueMonitor.NoLostWakeupOneConsumer | lib/ttp2/src/client_session_controller.cpp:101-107 | with one popping thread asleep and the queue non-empty, a pusher is between its enqueue and its notify_one |
| QueueMonitor.ThreadsAreFree | lib/ttp2/src/core/tcp_networking.cpp:55-87 | no pusher ever waits, and no popper while something is queued |
| QueueMonitor.AllCanBePopped | lib/ttp2/src/core/tcp_networking.cpp:55-71 | from every moment of every run, disconnected or not, some continuation pops all that is queued, first in first out |
| QueueMonitor.SleeperIsServed | lib/ttp2/src/core/tcp_networking.cpp:55-87 | a sleeper that a pusher is about to notify can be picked and take the first item |
| QueueMonitor.AllPassAwaited | lib/ttp2/src/core/tcp_networking.cpp:55-87 | any items can pass one by one with the popper asleep before each |
| QueueMonitor.SleepsUntilPicked | lib/ttp2/src/client_session_controller.cpp:113-117 | over any part of any run a sleeper sleeps throughout if and only if no notification picked it and it did not wake spuriously, disconnect or not |
| QueueMonitor.SleepsThroughDisconnect | lib/ttp2/src/client_session_controller.cpp:113-117 | a popper asleep at the disconnect, with no notification underway and nothing pushed since, is asleep at every later moment, unless it wakes spuriously |
| QueueMonitor.DisconnectLeavesSleeper | lib/ttp2/src/client_session_controller.cpp:113-117 | a run that ends disconnected with a sleeping popper and nobody to notify it |
| FlowControl.WindowBound | test/client/src/utils/benchmark.cpp:42-53 | in every reachable state 0 <= pushed - popped <= 500 and -1 <= inFlight <= 500, and a pop never finds the queue empty |
| FlowControl.NoLostWakeupWhileConnected | test/client/src/utils/benchmark.cpp:115-121 | a parked sender with room in the window has its notification on the way |
| FlowControl.LowerBoundAttained | test/client/src/utils/benchmark.cpp:125-130 | a run reaches inFlight = -1 |
| FlowControl.FillWindow | test/client/src/utils/benchmark.cpp:115-131 | for every n up to 500 a run reaches n requests in flight |
| FlowControl.ParkedSenderPushesAgain | test/client/src/utils/benchmark.cpp:42-53 | a sender parked at 500 in flight is woken by the first response popped and pushes number 501 |
| FlowControl.AnyNumberServed | test/client/src/utils/benchmark.cpp:34-78 | any number of requests can be pushed, popped and counted down, and the benchmark then disconnects, joins and ends |
| FlowControl.CleanupTakesTheRest | test/client/src/utils/benchmark.cpp:101-104 | up to 500 responses that come after the join can all be popped by the cleanup loop, which counts nothing down |
| FlowControl.SenderIsFree | test/client/src/utils/benchmark.cpp:115-131 | the sender is able to step in every state but the parked, where only a wake-up helps |
| FlowControl.ReceiverIsFree | test/client/src/utils/benchmark.cpp:34-78 | the main thread is able to step whenever there is a response, or its time is up, and the sender does not hold the mutex it needs |
| FlowControl.ShutdownCanHang | test/client/src/utils/benchmark.cpp:70-78 | a run ends with the main thread joining a parked sender |
| FlowControl.HangsExactlyWhen | test/client/src/utils/benchmark.cpp:70-78 | without spurious wake-ups, at every moment after notify_all the sender is stuck, the window full and the main thread in join, if and only if notify_all found the sender between its test and its wait |
| FlowControl.EndsOtherwise | test/client/src/utils/benchmark.cpp:70-78 | in all other runs the sender can always step until it is done, which takes at most three steps |
| FlowControl.HangIsFinal | test/client/src/utils/benchmark.cpp:70-78 | a remark on one step of the above: once the sender is parked and the main thread joins it, every step but a spurious wake-up leaves it so |
| Udp.CopyTargets | lib/ttp2/src/core/udp_networking.cpp:147-164 | each copy goes to whoever sent the last datagram before it, and to the requested address before any |
| Udp.CopiesReachTarget | lib/ttp2/src/core/udp_networking.cpp:147-164 | all copies go to the requested address if and only if no other address replied before the last |
| Udp.EndsOneWay | lib/ttp2/src/core/udp_networking.cpp:133-165 | the replies allow one outcome only, after one number of sends |
| Udp.UdpNetworking.SendMessageTo | lib/ttp2/src/core/udp_networking.cpp:118-167 | for every pattern of replies at most ten copies, as many as it takes to the first acknowledgement or error, each to the last replier |
| Udp.UdpNetworking.SendPacketTo | lib/ttp2/src/core/udp_networking.cpp:94-116 | id assignment, and the packet's frame as the datagram that is retransmitted |
| Udp.UdpNetworking.ReceivePacketFrom | lib/ttp2/src/core/udp_networking.cpp:53-92 | the decoded body is returned, and the sender acknowledged if and only if it decoded |
| Udp.DatagramRoundTrip | lib/ttp2/src/core/udp_networking.cpp:76-84 | a packet's datagram decodes to the normalised packet, whatever octets stand behind it |
| StopAndWait.LoopIsRefined | lib/ttp2/src/core/udp_networking.cpp:133-165 | in every run, a peer that has finished with a message has sent what the retransmission loop sends on the same replies, with the same end |
| StopAndWait.AcknowledgedMeansReceived | lib/ttp2/src/core/udp_networking.cpp:133-165 | in every run, a message that ended acknowledged has been decoded by its addressee, as sent up to normalisation |
| StopAndWait.FirstReceptionsInOrder | lib/ttp2/src/peer_session_controller.cpp:74-85 | every reception of a later message of the same peer has a reception of the acknowledged one before it |
| StopAndWait.CopyBound | lib/ttp2/src/core/udp_networking.cpp:133-165 | a message is sent at most ten times and received at most as often, plus the copies the network itself made |
| StopAndWait.SentInSubmissionOrder | lib/ttp2/src/peer_session_controller.cpp:74-90 | a peer's messages go out in the order queued, with auto ids in that order |
| StopAndWaitRuns.DeliverOne | lib/ttp2/src/core/udp_networking.cpp:53-167 | from every moment of every run at which a peer is idle, any message it can send can be delivered and acknowledged with one copy |
| StopAndWaitRuns.AllCanBeDelivered | lib/ttp2/src/peer_session_controller.cpp:74-90 | for any list of such messages there is a run that ends idle, each sent once and acknowledged, and received normalised and in order under its assigned id |
| StopAndWaitRuns.TenReceivedAndGivenUp | lib/ttp2/src/core/udp_networking.cpp:133-165 | the bound is attained: a message can be received ten times and be given up all the same |
| StopAndWaitRuns.NetworkIsFree | lib/ttp2/src/core/udp_networking.cpp:53-92 | at every moment of every run any datagram underway may be the next to arrive, be lost or be doubled, and any acknowledgement be lost or doubled |
| StopAndWaitRuns.PeersAreFree | lib/ttp2/src/core/udp_networking.cpp:133-165 | a peer takes messages at any time, can send while copies are left, can time out whenever it waits, and gives up when none is left |
| Ipv4.IsValidIpV4 | lib/ttp2/src/core/tcp_networking.cpp:288-319 | the loop over the string stream gives the verdict, exceptions included, of judging the pieces between dots in order |
| Ipv4.StoiReads | lib/ttp2/src/core/tcp_networking.cpp:309 | stoi's outcome in terms of the text: the number standing behind spaces and a sign at its front, none, or one beyond an int |
| Ipv4.JudgeMeaning | lib/ttp2/src/core/tcp_networking.cpp:299-310 | every piece: it passes if and only if it has no letter, no zero in front of more, and begins with a number up to 255; it makes stoi throw if and only if it begins with none, or with one beyond an int |
| Ipv4.JudgeOctet | lib/ttp2/src/core/tcp_networking.cpp:299-310 | the tests of one octet let pass and throw on exactly those pieces |
| Ipv4.JudgeDigits | lib/ttp2/src/core/tcp_networking.cpp:299-310 | on digits, an octet passes if and only if it is the canonical print of a value in 0..255 |
| Ipv4.AcceptedExactly | lib/ttp2/src/core/tcp_networking.cpp:288-319 | any text is accepted if and only if it has seven characters or more and four pieces that pass |
| Ipv4.ThrowsExactly | lib/ttp2/src/core/tcp_networking.cpp:309 | any text makes it throw if and only if a piece without a number, or with one beyond an int, stands behind pieces that all pass |
| Ipv4.RecogniserExact | lib/ttp2/src/core/tcp_networking.cpp:288-319 | any string is the canonical print of four values in 0..255 if and only if it is accepted and made of digits and dots |
| Ipv4.DigitsAndDotsVerdict | lib/ttp2/src/core/tcp_networking.cpp:288-319 | of digits and dots: true on the canonical addresses alone, an exception if and only if an empty piece or one of 2^31 or more stands behind prints of 0..255, else false |
| Ipv4.EmptyOctetThrows | lib/ttp2/src/core/tcp_networking.cpp:309 | 1..2.3.4 is such a text |
| Ipv4.NeverAccepted | lib/ttp2/src/core/tcp_networking.cpp:299-307 | a letter of either case anywhere, or a zero in front of more in any piece, and the text is not accepted |
| Ipv4.StoiOfSigned | lib/ttp2/src/core/tcp_networking.cpp:309 | numbers with and without a sign are read up to 2^31 - 1, and down to -2^31 |
| Ipv4.AcceptsInFront | lib/ttp2/src/core/tcp_networking.cpp:288-319 | in front of a canonical address exactly white space, plus and minus pass, and none of the texts is an address |
| Ipv4.AcceptsBehind | lib/ttp2/src/core/tcp_networking.cpp:299-310 | behind the digits of a piece every character passes but a letter, if the digits are not a single zero |

## Left out

- Sockets, `connect`, `bind`, epoll set-up, interface enumeration, timers and logging: input and output.
- Arrow tables: a table is its serialised octets; `tableToBuffer` and `bufferToTable` are not modelled.
- libtasn1: replaced by DER for this schema; what the library itself accepts beyond DER, its treatment of empty list items, and its node lifetimes are not part of this model.
- Der.LengthCanonical: speaks of a parser that accepts DER alone; lengths in other forms, which libtasn1 may accept too, are left out.
- Der.TlvCanonical: likewise, of elements in DER alone.
- Der.TreeCanonical: likewise; byte strings libtasn1 accepts beyond DER have other encodings.
- Der.AcceptsExactlyEncodings: likewise; it is DER that is accepted, not BER.
- Asn1.Decode: fails on byte strings that are not DER of the schema; that libtasn1 may accept more, and Arrow may reject a table's octets, is left out.
- Empty `Viewport.payload` and `Universal.bytes`: callers must pass octets, since a length of zero makes libtasn1 measure a C string.
- `peekRequest` and `peekResponse`: the first locks its own mutex twice, the second tests the size before locking.
- `hasRequest`, `hasResponse`, queue sizes, `structToBytes`, `bytesToStruct`: one-line reads or raw copies.
- The client's receiving loop and the server's sending loop: the same code as the two loops modelled, over the other queue.
- Behaviour after a pop on an empty queue following a disconnect: it reads past the end of a vector.
- Tcp.TcpNetworking.PopRequest: requires a packet queued, which the wait guarantees until a disconnect.
- Udp.UdpNetworking.ReceivePacketFrom: requires a datagram at least as long as its header says; the program reads past the end of a shorter one.
- StopAndWait.AcknowledgedMeansReceived: in the network model only peers reply, and only to the socket that sent; datagrams of strangers, who could send an acknowledgement octet too, socket errors and reuse of a closed socket's port are excluded.
- The wait of `QueueMonitor` as fairness or timing: only safety is stated.
- `const char *ip` lifetimes: addresses are values.
- The command-line programs, CSV reading, benchmark statistics, and the build files.
