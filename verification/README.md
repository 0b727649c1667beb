# Verified models of the WIZnet firmware's protocol code

This Dafny project models the parts of the firmware that carry state, protocol or arithmetic,
and proves what they promise. `dafny verify dfyconfig.toml` checks all of it. Code that works
step by step on globals, arrays or buffers is written as classes and methods with loops; each
method is proved against a function that says what it computes, and the theorems are proved
about those functions and about runs built from them.

| Part | Files | Main results |
|---|---|---|
| TFTP client, server and network | `Tftp`, `TftpTransfer`, `TftpDelivery`, `TftpTermination` | `EveryRunDelivers`, `SuccessMeansWholeFileIff`, `LostPacketsAreRepeated`, `EveryPacketIsAddressed`, `TransferEnds` |
| Socket allocator of the TOE driver | `Toe`, `ToeDriver`, `ToeInvariant`, `ToeBudget`, `ToeChip` | `ApplyKeeps`, `EveryReliableRunIsClosedForm`, `AcceptNeverLoses`, `EveryListenerIsOnAir`, `OthersUndisturbed` |
| Deadlines on a wrapping counter | `Deadline` | `ExactIff`, `WaitEndsInTime` |
| readv and writev over the TOE | `Gather` | `ReadV`, `WriteV` |
| MQTT 3.1.1 framing | `MqttWire`, `MqttConnect`, `Mqtt` | `ParseEncodeIff`, `SessionDeliversPackets`, `ConnectReadBackIff` |
| MD5 streaming | `Md5` | `DigestOf`, `PaddedByteByByte`, `PaddedInjective` |
| W6300 receive ring | `RxRing` | `Drain`, `StoreAndDrain` |
| DHCP client | `DhcpWire`, `Dhcp`, `DhcpDriver`, `DhcpRuns` | `BuildReads`, `ParseReads`, `EveryLeaseIsEarned`, `LeasedIsWon`, `RequestNamesServerIff`, `FailureIsEarned` |
| DNS encoder and parser | `Dns`, `DnsMessage` | `EncodeIff`, `EncodedNameReads`, `ParseOfSerialize` |
| NetBIOS query and answer | `Netbios` | `RoundTrip` |

How the surroundings are modelled:

- TFTP is one step relation over client, server and network. The server follows RFC 1350 and
  RFC 2347 on ports of its own: it reads the bytes that come in at a port, and sends block j from
  there only after ACK j-1 came in there (or answers the request that came in at port 69, or ACK 0
  where it acknowledges options). Every packet ever sent stays in the network, so loss,
  duplication and reordering need no steps of their own. The termination theorems drop the server
  and let any packet arrive from anywhere.
- The chip under the socket allocator answers as it likes: an open succeeds, is deferred because
  there is no address yet, or fails at either of its two commands. `accept` runs over any finite
  list of observations. What the commands leave on a socket is found by replaying them.
- A byte stream arrives in any pieces with any pauses; a script of events says how each call ends,
  and a clock is any function from readings to values. When a script has run out, the connection
  is gone.
- MD5's compression function is a parameter: everything holds for any function of a chaining
  value and a block, hence for `md5_transform`.
- DHCP messages are logged as their bytes, and the theorems about runs read those bytes the way a
  server or another client would. DHCP turns read a clock that is not negative and otherwise unconstrained, two random numbers
  and at most one datagram of any bytes.

What the proofs found, stated as theorems rather than as remarks:

- A TFTP file of more than 65535 * 512 bytes can end in SUCCESS without being complete, because
  `block + 1` is compared as int and the block counter never wraps (`SuccessMeansWholeFileIff`).
- A received frame header below two bytes is not skipped: `emac_w6300_flush_recv_frame` leaves the
  read pointer where it is, so the drain loop ends there and finds the same header next time. The
  comment at lines 1059-1061 of `esp_eth_mac_w6300.c` says otherwise; the model follows the code (`Drain`, `FlushRecvFrame`).
- `toe_deadline_passed` is exact for every start value and every elapsed time below 2^32
  microseconds precisely for timeouts up to 4294967 ms, beyond which `timeout_ms * 1000` wraps.
- In DHCP a REQUEST need not name the server whose OFFER was taken: `dhcp_parse` stores the
  server id of any matching reply. It names that server if and only if the last reply of the
  round to carry a server id, the OFFER included, carried the same one; the first REQUEST does if
  and only if the OFFER carried one (`RequestNamesServerIff`). `LaterReplyRenamesServer` is a run
  in which the second REQUEST names another server.
- A TFTP read request reads back at the server if and only if its file name holds no NUL, as no
  C string does (`ServerReadsEncodeIff`).
- MQTT lengths are exact up to 2^28 - 1 for a packet and 65535 for a string field; beyond that
  a packet does not read back.
- A bind or a connect on a TOE listener that is on the air changes the table but not what its
  socket listens on, or takes it off the air; no other operation does (`StaysOnAirIff`).
- Eight TOE listeners can accept nobody, as the note on the socket budget says.
- The NetBIOS responder hears a name without its trailing spaces and only up to a NUL; the round
  trip is exact for all other names (`HeardIff`).

## Model

| member | source | states |
|---|---|---|
| Tftp.TftpClient.InitTftp | examples/tftp/src/tftp_core.c:156-171 | every global but the progress is back at its start, nothing stored or sent is touched |
| Tftp.TftpClient.CancelTimeout | examples/tftp/src/tftp_core.c:173-178 | a running retransmission timer stops with both counters at zero; an idle one is left alone |
| Tftp.TftpClient.RegTimeout | examples/tftp/src/tftp_core.c:180-185 | an idle timer starts with both counters at zero; a running one keeps counting |
| Tftp.TftpClient.SendTftpRrq | examples/tftp/src/tftp_core.c:191-219 | the encoded read request for the stored name goes to port 69 of the server, and the timer runs |
| Tftp.TftpClient.SendTftpAck | examples/tftp/src/tftp_core.c:276-290 | the encoded ACK of exactly that block number goes to the transfer port, and the timer runs |
| Tftp.TftpClient.RecvTftpData | examples/tftp/src/tftp_core.c:349-399 | header words are swapped in place, and the client becomes what a receiver of that DATA packet must become, unless no transfer is under way |
| Tftp.TftpClient.HandleBlock | examples/tftp/src/tftp_core.c:358-398 | only block number + 1 (or block 1 while none is stored) is stored, any block is acknowledged, a short one ends the transfer |
| Tftp.TftpClient.RecvTftpOack | examples/tftp/src/tftp_core.c:419-445 | an OACK counts only while the read request is pending, and is answered by ACK 0 |
| Tftp.TftpClient.RecvTftpError | examples/tftp/src/tftp_core.c:447-459 | an ERROR ends the transfer with FAIL and everything reset |
| Tftp.TftpClient.RecvTftpPacket | examples/tftp/src/tftp_core.c:461-507 | packets from other addresses are ignored, the first reply fixes the transfer port, and the opcode selects the handler |
| Tftp.TftpClient.TimeoutProcess | examples/tftp/src/tftp_core.c:535-566 | after five ticks the last message is repeated, after five repetitions the transfer fails |
| Tftp.TftpClient.Run | examples/tftp/src/tftp_core.c:526-580 | one poll: timer first, then at most one datagram, whatever bytes it and the buffer hold |
| Tftp.TftpClient.ReadRequestFor | examples/tftp/src/tftp_core.c:582-590 | server address, progress, state and file name are set and the request goes out; an idle timer starts, while block number and a running timer survive from before |
| Tftp.TftpClient.TimeoutHandler | examples/tftp/src/tftp_core.c:592-596 | a tick is counted only while the timer runs |
| Tftp.TftpClient.BuildRrq | examples/tftp/src/tftp_core.c:191-210 | the bytes in the send buffer are the encoded read request: opcode, then file name, mode and timeout option, each up to its NUL |
| Tftp.TftpClient.BuildAck | examples/tftp/src/tftp_core.c:276-284 | the bytes in the send buffer are the encoded ACK |
| Tftp.ServerReadsEncodeIff | examples/tftp/src/tftp_core.c:191-219 | a server that reads name, mode and options each up to its NUL, as section 5 of RFC 1350 and RFC 2347 say, reads back what was meant if and only if the file name holds no NUL; an ACK always reads back |
| Tftp.HearsAckIff | examples/tftp/src/tftp_core.c:276-290 | a server reads ACK n in the packet of that ACK and in no other packet of the client |
| Tftp.DecodeData | examples/tftp/src/tftp_core.c:349-360 | a DATA packet written by a server decodes to its number and data, whatever the receive buffer held before |
| Tftp.CutOffDataEndsNothing | examples/tftp/src/tftp_core.c:349-398 | a DATA datagram shorter than its header never ends the transfer, because its length wraps in 32 bits |
| Tftp.OneByteBehindData | examples/tftp/src/tftp_core.c:349-356 | the header left swapped in the buffer keeps a one-byte datagram behind a DATA packet from being taken for a packet |
| TftpTransfer.ServerKeepsInv | examples/tftp/src/tftp_core.c:349-399 | a server that sends block j only after ACK j-1 keeps every DATA in flight at most one block ahead of the client |
| TftpTransfer.TimerKeepsInv | examples/tftp/src/tftp_core.c:535-566 | retransmission never acknowledges more than what is stored and never reports success |
| TftpTransfer.DataKeepsInv | examples/tftp/src/tftp_core.c:358-398 | any block in flight, old or next, leaves the stored blocks 1, 2, ..., k in order and once each |
| TftpTransfer.OtherKeepsInv | examples/tftp/src/tftp_core.c:419-507 | other messages, and any message from another address, store nothing |
| TftpTransfer.BlockKeepsInv | examples/tftp/src/tftp_core.c:461-507 | a block of the file that arrives at the packet handler, from any port of the server, leaves the stored blocks 1, 2, ..., k in order and once each |
| TftpTransfer.DeliveryKeepsInv | examples/tftp/src/tftp_core.c:526-580 | one poll that receives any packet the server ever sent keeps the invariant, down to the bytes in the buffer |
| TftpTransfer.StepKeepsInv | examples/tftp/src/tftp_core.c:526-596 | every step of client, server or network keeps it: no ACK beyond the stored blocks, no DATA beyond the next one |
| TftpTransfer.RunKeepsInv | examples/tftp/src/tftp_core.c:349-399 | every run, with loss, duplication and reordering free, keeps stored blocks in order, no ACK beyond them and no DATA beyond the next block |
| TftpTransfer.EveryPacketIsAddressed | examples/tftp/src/tftp_core.c:191-290 | in every run of any file, read requests go to port 69 of the server for that file, and every ACK goes to the server, to a port from which a packet of it was delivered |
| TftpTransfer.EveryAckGoesToOnePort | examples/tftp/src/tftp_core.c:461-507 | in every run all ACKs go to one port, the one of the first answer |
| TftpDelivery.SavedIsPrefix | examples/tftp/src/tftp_core.c:358-398 | the first k stored blocks are the first 512 k bytes of the file, or all of it |
| TftpDelivery.EveryRunDelivers | examples/tftp/src/tftp_core.c:349-399 | in every run of a file that fits, the stored bytes are a prefix of it, and SUCCESS means the whole file with each block stored once |
| TftpDelivery.ExchangeData | examples/tftp/src/tftp_core.c:349-399 | a client that receives the next block stores it (up to block 65535), acknowledges it, and reports SUCCESS exactly at the last one |
| TftpDelivery.Exchange | examples/tftp/src/tftp_core.c:526-580 | from any lock-step state with a packet of the client lost any number of times up to four, the repetition is heard and the next block delivered |
| TftpDelivery.OptionsAcknowledged | examples/tftp/src/tftp_core.c:419-445 | a server that sends an OACK goes on to block 1 because ACK 0 reaches its port |
| TftpDelivery.LossyRun | examples/tftp/src/tftp_core.c:526-580 | for every file, server port and OACK choice there is a run in which the client has seen every block, at a server that reads only what comes in at its port |
| TftpDelivery.LostPacketsAreRepeated | examples/tftp/src/tftp_core.c:535-566 | a file that fits arrives whole also when up to four copies of every packet of the client are lost |
| TftpDelivery.ErrorEnds | examples/tftp/src/tftp_core.c:447-459 | an ERROR that is delivered ends the transfer with FAIL and stores nothing |
| TftpDelivery.SuccessMeansWholeFileIff | examples/tftp/src/tftp_core.c:378-385 | SUCCESS implies the whole file in all runs if and only if the file has at most 65535 * 512 bytes, because block + 1 is compared as int |
| TftpTermination.TimerStep | examples/tftp/src/tftp_core.c:535-566 | the retransmission counter only grows or ends the transfer |
| TftpTermination.PacketStep | examples/tftp/src/tftp_core.c:461-507 | an arbitrary packet leaves the countdown alone or raises the rank, and never revives an ended transfer |
| TftpTermination.PollStep | examples/tftp/src/tftp_core.c:526-580 | a whole poll, timer and arbitrary packet, leaves the countdown alone or raises the rank |
| TftpTermination.RoundStep | examples/tftp/src/tftp_core.c:526-596 | every tick with at least one poll lowers the lexicographic measure |
| TftpTermination.RoundsStep | examples/tftp/src/tftp_core.c:526-596 | n such ticks lower it by n, whatever arrives |
| TftpTermination.RetriesStayBelow | examples/tftp/src/tftp_core.c:526-596 | in every client the retry counter stays below its limit |
| TftpTermination.TransferEnds | examples/tftp/src/tftp_core.c:582-596 | with at least one poll per tick and any packets, a transfer reports SUCCESS or FAIL within 25 * 65537 ticks of its request, also when the timer of an earlier one still runs |
| TftpTermination.StallEnds | examples/tftp/src/tftp_core.c:535-566 | 25 ticks without progress end it |
| TftpTermination.SilenceRepeatsLast | examples/tftp/src/tftp_core.c:535-566 | in silence exactly the last packet is sent again after 5, 10, 15 and 20 ticks to where it went before, and after 25 ticks the transfer fails |
| TftpTermination.EndedStaysEnded | examples/tftp/src/tftp_core.c:461-507 | after the end no poll, tick or packet changes anything |
| TftpTermination.EndIsReset | examples/tftp/src/tftp_core.c:156-171 | whatever ends a transfer, packet or timer, leaves the client reset |
| TftpTermination.NextTransferIsFresh | examples/tftp/src/tftp_core.c:582-590 | the next request starts as the first one did |
| Deadline.ElapsedSurvivesWrap | port/ioLibrary_Driver/src/wiznet_toe.c:113-118 | the unsigned difference is the elapsed time for every starting counter value |
| Deadline.ExactIff | port/ioLibrary_Driver/src/wiznet_toe.c:113-118 | the deadline test is right for all starts and all elapsed times below 2^32 us if and only if timeout_ms is at most 4294967; 0 never expires |
| Deadline.StillWaiting | port/ioLibrary_Driver/src/wiznet_toe.c:605-620 | a loop that still waits has not waited past its timeout |
| Deadline.WaitEndsInTime | port/ioLibrary_Driver/src/wiznet_toe.c:605-620 | a wait polled at most G us apart ends between the timeout and the timeout + G |
| ToeDriver.Driver.DescAlloc | port/ioLibrary_Driver/src/wiznet_toe.c:163-175 | the lowest unused descriptor is taken and cleared, or -1 when all are used |
| ToeDriver.Driver.FindFree | port/ioLibrary_Driver/src/wiznet_toe.c:178-189 | the lowest free hardware socket, or -1 when none is |
| ToeDriver.Driver.SnAlloc | port/ioLibrary_Driver/src/wiznet_toe.c:178-189 | that socket now belongs to the descriptor and nothing else changes |
| ToeDriver.Driver.ListenerReopen | port/ioLibrary_Driver/src/wiznet_toe.c:394-412 | no address defers without a command, otherwise open and listen, with the failures told apart |
| ToeDriver.Driver.ListenerDisarm | port/ioLibrary_Driver/src/wiznet_toe.c:417-423 | the listener keeps its role and port, its socket is marked free, and no command goes to the chip |
| ToeDriver.Driver.ListenerRearm | port/ioLibrary_Driver/src/wiznet_toe.c:428-444 | an unarmed listener takes the lowest free socket; one whose open fails gives it back |
| ToeDriver.Driver.RearmPendingListeners | port/ioLibrary_Driver/src/wiznet_toe.c:199-206 | every unarmed listener is tried in order until no socket is free |
| ToeDriver.Driver.Socket | port/ioLibrary_Driver/src/wiznet_toe.c:248-274 | descriptor before socket, and no descriptor is kept when no socket is free |
| ToeDriver.Driver.Bind | port/ioLibrary_Driver/src/wiznet_toe.c:341-354 | the port is stored, a UDP socket is opened at once |
| ToeDriver.Driver.Listen | port/ioLibrary_Driver/src/wiznet_toe.c:356-373 | a TCP descriptor with a socket becomes a listener unless the open fails, in which case it is none and the result is -1; a deferred open keeps the role |
| ToeDriver.Driver.Connect | port/ioLibrary_Driver/src/wiznet_toe.c:551-578 | open, then connect, with the local port chosen when none was bound |
| ToeDriver.Driver.Close | port/ioLibrary_Driver/src/wiznet_toe.c:864-886 | socket and descriptor are free, and waiting listeners are re-armed |
| ToeDriver.Driver.SocketReserve | port/ioLibrary_Driver/src/wiznet_toe.c:774-786 | a raw reservation takes the lowest free socket without a descriptor |
| ToeDriver.Driver.SocketRelease | port/ioLibrary_Driver/src/wiznet_toe.c:788-796 | a raw socket is closed and freed, and waiting listeners are re-armed |
| ToeDriver.Driver.AcceptEstablished | port/ioLibrary_Driver/src/wiznet_toe.c:448-478 | the connection takes the listener's socket, the listener moves to a free one or waits |
| ToeDriver.Driver.AcceptOnce | port/ioLibrary_Driver/src/wiznet_toe.c:488-540 | one look: a pending connection is handed over, a listening or handshaking socket is left alone, INIT is told to listen again, any other state is re-opened |
| ToeDriver.Driver.Accept | port/ioLibrary_Driver/src/wiznet_toe.c:480-549 | the polling loop: connection first, then O_NONBLOCK, then SO_RCVTIMEO |
| ToeInvariant.NoSharedSocket | port/ioLibrary_Driver/src/wiznet_toe.c:143-161 | two live descriptors never address the same hardware socket |
| ToeInvariant.RearmedKeeps | port/ioLibrary_Driver/src/wiznet_toe.c:428-444 | the two tables stay mutually inverse through re-arming, also when the open fails |
| ToeInvariant.DisarmedKeeps | port/ioLibrary_Driver/src/wiznet_toe.c:417-423 | the two tables stay mutually inverse through disarming |
| ToeInvariant.RearmedFromKeeps | port/ioLibrary_Driver/src/wiznet_toe.c:199-206 | the two tables stay mutually inverse through the re-arm sweep; when no open fails, afterwards no listener waits while a socket is free |
| ToeInvariant.SocketKeeps | port/ioLibrary_Driver/src/wiznet_toe.c:248-274 | the two tables stay mutually inverse through socket() |
| ToeInvariant.ReserveKeeps | port/ioLibrary_Driver/src/wiznet_toe.c:774-786 | the two tables stay mutually inverse through a raw reservation |
| ToeInvariant.ClosedKeeps | port/ioLibrary_Driver/src/wiznet_toe.c:864-886 | the two tables stay mutually inverse through releasing a descriptor and its socket |
| ToeInvariant.ReleasedKeeps | port/ioLibrary_Driver/src/wiznet_toe.c:788-796 | the two tables stay mutually inverse through releasing a raw socket |
| ToeInvariant.HandedOverKeeps | port/ioLibrary_Driver/src/wiznet_toe.c:448-478 | the two tables stay mutually inverse through giving the listener's socket to the connection |
| ToeInvariant.AcceptEstablishedKeeps | port/ioLibrary_Driver/src/wiznet_toe.c:448-478 | the two tables stay mutually inverse through the whole hand-over with the re-arm behind it |
| ToeInvariant.AcceptLookKeeps | port/ioLibrary_Driver/src/wiznet_toe.c:491-540 | the two tables stay mutually inverse through every branch of one accept turn |
| ToeInvariant.AcceptWaitKeeps | port/ioLibrary_Driver/src/wiznet_toe.c:480-549 | the two tables stay mutually inverse through the accept loop over any observations |
| ToeInvariant.ConnectKeeps | port/ioLibrary_Driver/src/wiznet_toe.c:551-578 | the two tables stay mutually inverse through connect() |
| ToeInvariant.ApplyKeeps | port/ioLibrary_Driver/src/wiznet_toe.c:248-886 | whatever the chip answers, every operation keeps the tables inverse, and work-conserving while opens do not fail |
| ToeBudget.RunKeeps | port/ioLibrary_Driver/src/wiznet_toe.c:248-886 | over any sequence of operations the tables stay inverse, and work-conserving while opens do not fail |
| ToeBudget.EveryRunIsInverse | port/ioLibrary_Driver/src/wiznet_toe.c:124-206 | every reachable state: used descriptors own exactly their socket, a descriptor without one is a listener |
| ToeBudget.ArmedAsManyAsOwned | port/ioLibrary_Driver/src/wiznet_toe.c:54-76 | as many armed descriptors as owned sockets |
| ToeBudget.SocketsAddUp | port/ioLibrary_Driver/src/wiznet_toe.c:54-76 | free + raw + used descriptors = 8 + waiting listeners |
| ToeBudget.ClosedFormIff | port/ioLibrary_Driver/src/wiznet_toe.c:178-206 | work conservation is the closed form free = max(0, 8 - used - raw), waiting = max(0, used + raw - 8) |
| ToeBudget.EveryReliableRunIsClosedForm | port/ioLibrary_Driver/src/wiznet_toe.c:178-206 | that closed form holds in every state reached while opens succeed or are deferred |
| ToeBudget.AllUsedIff | port/ioLibrary_Driver/src/wiznet_toe.c:163-175 | a descriptor can be had exactly while fewer than eight are used |
| ToeBudget.SocketSucceedsIff | port/ioLibrary_Driver/src/wiznet_toe.c:248-274 | socket() succeeds if and only if used + raw < 8 and the type is known |
| ToeBudget.AcceptNeverLoses | port/ioLibrary_Driver/src/wiznet_toe.c:448-549 | an established connection is returned on its own hardware socket with the listener keeping port and role, or nothing at all changes |
| ToeBudget.QuietListenerUntouched | port/ioLibrary_Driver/src/wiznet_toe.c:488-540 | accept on a listener that each look finds listening or in a handshake changes nothing and gives no command; it returns WOULDBLOCK after one look if non-blocking, TIMEOUT exactly when the timeout has passed, else waits on |
| ToeBudget.PendingIsTaken | port/ioLibrary_Driver/src/wiznet_toe.c:480-549 | a connection that is established while accept waits is taken at the first look at it, before O_NONBLOCK and SO_RCVTIMEO count |
| ToeBudget.AcceptCommandsOwnSocket | port/ioLibrary_Driver/src/wiznet_toe.c:480-549 | accept commands only its own socket or a free one, never the one it hands over, whether that was ESTABLISHED or CLOSE_WAIT |
| ToeBudget.FourListenersNeverStarve | examples/tcp_server_multi_socket/inc/net_config.h:38-50 | four listeners with one connection each always have their sockets, and a pending connection can be taken |
| ToeBudget.EightListenersAcceptNobody | examples/tcp_server_multi_socket/inc/net_config.h:38-50 | with eight descriptors used accept hands out nothing, for as long as it is polled |
| ToeChip.EveryListenerIsOnAir | port/ioLibrary_Driver/src/wiznet_toe.c:356-444 | in every run without a bind or connect on a listener, replaying all commands leaves the socket of every armed listener TCP, listening, on the port of its last bind |
| ToeChip.StaysOnAirIff | port/ioLibrary_Driver/src/wiznet_toe.c:341-578 | an operation keeps every armed listener on the air if and only if it is neither a bind to another port nor a connect on one |
| ToeChip.OthersUndisturbed | port/ioLibrary_Driver/src/wiznet_toe.c:248-886 | no operation, sweeps and accept loops included, changes another descriptor with a socket or says anything to that socket |
| ToeChip.ListenGoesOnAir | port/ioLibrary_Driver/src/wiznet_toe.c:356-412 | listen answered well leaves a listener on the air on its port, deferred one that waits without a command, failed none |
| ToeChip.RearmGoesOnAir | port/ioLibrary_Driver/src/wiznet_toe.c:428-444 | a re-armed listener is on the air on the lowest free socket, and a failed attempt gives the socket back |
| ToeChip.ConnectionUndisturbed | port/ioLibrary_Driver/src/wiznet_toe.c:448-478 | the socket that is handed over is told nothing, whatever becomes of the listener |
| ToeChip.HandOverGoesOnAir | port/ioLibrary_Driver/src/wiznet_toe.c:448-478 | the connection sits on the very socket, which is told nothing, with the port; the listener is on the air on a free one |
| ToeChip.ReopenGoesOnAir | port/ioLibrary_Driver/src/wiznet_toe.c:531-538 | a listener whose socket was lost is re-opened on the air on it |
| ToeChip.IdleListensAgain | port/ioLibrary_Driver/src/wiznet_toe.c:524-529 | a socket found in INIT is told to listen again, or freed when that fails |
| ToeChip.ServerIsHeard | port/ioLibrary_Driver/src/wiznet_toe.c:248-373 | socket, bind and listen leave a fresh socket listening on the bound port |
| ToeChip.ConnectReachesPeer | port/ioLibrary_Driver/src/wiznet_toe.c:551-578 | connect leaves the socket TCP, on the bound or ephemeral port, connecting to the peer |
| ToeChip.BindOpensUdp | port/ioLibrary_Driver/src/wiznet_toe.c:341-354 | bind opens a UDP socket on the port; over TCP it only notes the port |
| ToeChip.CloseShutsSocket | port/ioLibrary_Driver/src/wiznet_toe.c:864-886 | close hangs up first, then the socket is shut, free or on the air for a waiting listener |
| ToeChip.ReleaseShutsSocket | port/ioLibrary_Driver/src/wiznet_toe.c:788-796 | releasing a raw socket leaves it shut, free or on the air for a waiting listener |
| Gather.Connection.Available | port/ioLibrary_Driver/src/wiznet_toe.c:309-317 | -1 for an unused descriptor, 0 for one without an open socket, else the bytes in the receive buffer |
| Gather.Connection.AwaitBytes | port/ioLibrary_Driver/src/wiznet_toe.c:645-664 | the wait never sleeps when bytes are there or in non-blocking mode, gives up only on a connection that is not established, and times out only past the deadline |
| Gather.Connection.Recv | port/ioLibrary_Driver/src/wiznet_toe.c:637-672 | a front piece of the stream of at most 65535 bytes goes to the front of the buffer, or nothing moves; when bytes wait, exactly what the chip moves; 0 only after a shutdown or when the last look found the connection over |
| Gather.Connection.AwaitRoom | port/ioLibrary_Driver/src/wiznet_toe.c:603-620 | the wait for transmit space returns what the last look found while the connection is up, fails only when it is not, never sleeps in non-blocking mode, and times out only past the deadline |
| Gather.Connection.Send | port/ioLibrary_Driver/src/wiznet_toe.c:580-635 | a non-empty prefix that fits the free space is handed over, or nothing; never 0 bytes |
| Gather.Connection.ReadTurn | port/ioLibrary_Driver/src/wiztoe_wrap.c:342-370 | one buffer of a scatter read: filled, stopped short, or failed with nothing in hand |
| Gather.Connection.ReadLoop | port/ioLibrary_Driver/src/wiztoe_wrap.c:339-370 | bytes taken from the stream fill buffers that are apart in memory front to back without a gap, and a failure is reported only with nothing in hand |
| Gather.Connection.ReadV | port/ioLibrary_Driver/src/wiztoe_wrap.c:335-374 | exactly the next `ret` bytes leave the stream and, when the buffers are apart in memory, fill the concatenated buffers from the front with nothing else changed; -1 only when nothing moved; never a sleep once bytes are held; a short count has a reason |
| Gather.Connection.WriteLoop | port/ioLibrary_Driver/src/wiztoe_wrap.c:380-403 | bytes handed to the stream are a prefix of the concatenated buffers, and a failure is reported only when none was |
| Gather.Connection.WriteV | port/ioLibrary_Driver/src/wiztoe_wrap.c:376-407 | the stream gets exactly the first `ret` bytes of the concatenated buffers; -1 only when it got none; a short count has a reason |
| Gather.HoldingMeansNoSleep | port/ioLibrary_Driver/src/wiztoe_wrap.c:346-353 | after bytes moved, no later event of the call is a sleep |
| Gather.ProgressTurn | port/ioLibrary_Driver/src/wiztoe_wrap.c:342-370 | one more buffer turns a filled prefix into a longer one |
| MqttWire.LenRoundTrip | examples/mqtt/src/mqtt.c:87-100 | k bytes of the base-128 length carry exactly the values below 128^k |
| MqttWire.LenSize | examples/mqtt/src/mqtt.c:87-100 | a value below 128^k takes at most k bytes |
| MqttWire.ParseEncodeIff | examples/mqtt/src/mqtt.c:245-279 | a packet reads back with the stream right behind it if and only if its body is shorter than 2^28 bytes |
| MqttWire.PublishReadBackIff | examples/mqtt/src/mqtt.c:342-420 | topic and payload read back if and only if the topic is shorter than 65536 bytes |
| MqttWire.BrokerPublishReadIff | examples/mqtt/src/mqtt.c:382-408 | topic, payload, QoS and identifier of any publication of a broker read back if and only if the topic is shorter than 65536 bytes |
| MqttWire.PubackBytes | examples/mqtt/src/mqtt.c:362-370 | the acknowledgement is 0x40, two, and the identifier |
| MqttWire.SubscribeReadBackIff | examples/mqtt/src/mqtt.c:321-339 | a broker reads identifier, filter and QoS 0 behind 0x82 if and only if the filter is shorter than 65536 bytes |
| MqttWire.PublishHeader | examples/mqtt/src/mqtt.c:342-360 | a publication goes out with QoS 0 and neither DUP nor RETAIN |
| Mqtt.AckAnswers | examples/mqtt/src/mqtt.c:382-420 | a publication of a broker is shown as sent, and answered exactly when it came with QoS 1, by a PUBACK with its identifier |
| Mqtt.ElapsedIsTime | examples/mqtt/src/mqtt.c:180-202 | the unsigned difference of two clock readings is the time between them, also across a wrap |
| MqttConnect.ConnectReadBackIff | examples/mqtt/src/mqtt.c:283-319 | a broker following section 3.1 of MQTT 3.1.1 reads back the login meant, no password without a username, if and only if every string is shorter than 65536 bytes |
| Mqtt.Client.RecvSome | examples/mqtt/src/mqtt.c:162-175 | one recv takes a front piece of the stream or nothing |
| Mqtt.Client.ReadExact | examples/mqtt/src/mqtt.c:180-202 | success means exactly the next len bytes, for any chopping; a timeout only after timeout_ms; a steady stream always succeeds |
| Mqtt.Client.DropBytes | examples/mqtt/src/mqtt.c:205-217 | exactly count bytes are skipped |
| Mqtt.Client.ReadRemainingLen | examples/mqtt/src/mqtt.c:219-237 | the length and its size are those of the base-128 definition; a well-formed one on a steady stream is always read |
| Mqtt.Client.ReadPacket | examples/mqtt/src/mqtt.c:245-279 | 1 and 0 leave the stream at a packet boundary with the packet returned, or skipped when too big; -1 only after a failed read or a malformed length; on a steady stream a whole packet is never lost |
| Mqtt.Client.WaitPacket | examples/mqtt/src/mqtt.c:427-452 | success is the first packet of that kind, with every publication before it shown; failure means a failed read or an elapsed timeout, and on a steady stream that carries such a packet only the latter |
| Mqtt.Client.WaitTurn | examples/mqtt/src/mqtt.c:431-451 | one packet of the wait is the wanted one, or is gone past and shown if it is a publication; it fails only with a failed read |
| Mqtt.Client.HandlePublish | examples/mqtt/src/mqtt.c:382-420 | the message shown is the one in the body, acknowledged when QoS is 1 |
| Mqtt.Client.SendAll | examples/mqtt/src/mqtt.c:134-154 | all of it or a prefix reaches the wire; all of it when every send takes something |
| Mqtt.Client.EncRemainingLen | examples/mqtt/src/mqtt.c:87-100 | the bytes written are the base-128 encoding |
| Mqtt.Client.SendConnect | examples/mqtt/src/mqtt.c:283-319 | the bytes on the wire are the encoded CONNECT packet or a prefix of it; all of it when it fits and every send takes something |
| Mqtt.Client.SendSubscribe | examples/mqtt/src/mqtt.c:321-339 | the bytes on the wire are the encoded SUBSCRIBE packet or a prefix of it; all of it when it fits and every send takes something |
| Mqtt.Client.SendPublish | examples/mqtt/src/mqtt.c:342-360 | the bytes on the wire are the encoded PUBLISH packet or a prefix of it; a packet that does not fit the buffer sends nothing |
| Mqtt.WaitedStep | examples/mqtt/src/mqtt.c:427-452 | after one more read, the packets gone past are still exactly those that were not the wanted kind, and what was shown is what they carried |
| Mqtt.OneRead | examples/mqtt/src/mqtt.c:245-279 | a read at a boundary takes the first packet or none |
| Mqtt.SessionDeliversPackets | examples/mqtt/src/mqtt.c:245-279 | for any splitting and any timeouts the packets returned are those sent that fit the buffer, in order, and the stream stands before packet k |
| Mqtt.PublishEndToEnd | examples/mqtt/src/mqtt.c:342-420 | a published message is shown unchanged by a reader, whatever bytes follow it, and the stream stands behind it |
| Md5.Context.Init | examples/pppoe/main/md5.c:90-99 | an empty message |
| Md5.Context.Transform | examples/pppoe/main/md5.c:168-180 | the chaining value covers one more block |
| Md5.Context.CountBits | examples/pppoe/main/md5.c:113-116 | the two count words are 8 times the length mod 2^64, through the carry |
| Md5.Context.Update | examples/pppoe/main/md5.c:105-136 | chaining value, buffer and count again describe the whole message so far, now longer by the input |
| Md5.Context.Final | examples/pppoe/main/md5.c:142-163 | the digest of section 3 of RFC 1321 over everything absorbed, and a wiped context |
| Md5.Context.PadAndEncode | examples/pppoe/main/md5.c:148-159 | padding and count end the last block exactly |
| Md5.Context.AppendPadding | examples/pppoe/main/md5.c:152-157 | the two closing updates absorb exactly the padding of the message |
| Md5.CountedIsBitCount | examples/pppoe/main/md5.c:113-116 | adding a chunk to the count is adding its length to the message |
| Md5.IndexOfCount | examples/pppoe/main/md5.c:111-111 | the low count word gives the fill of the buffer |
| Md5.FoldNext | examples/pppoe/main/md5.c:121-131 | one more block is one more application of the compression |
| Md5.DigestOf | examples/pppoe/main/md5.c:90-163 | every chunking of a message gives the same digest, that of the padded fold |
| Md5.PaddedInjective | examples/pppoe/main/md5.c:148-157 | different messages below 2^61 bytes have different padded forms |
| Md5.PaddedByteByByte | examples/pppoe/main/md5.c:148-157 | the padded message is the message, 0x80, as few zeros as fill a block, and 8 times the length mod 2^64 in eight bytes, lowest first |
| Md5.InitByteByByte | examples/pppoe/main/md5.c:95-98 | the start words are 01234567 89abcdef fedcba98 76543210 as bytes |
| Md5.LowByteFirst | examples/pppoe/main/md5.c:262-274 | words are encoded lowest byte first |
| RxRing.Emac.ReadFrameHeader | port/ioLibrary_Driver/src/esp_eth_mac_w6300.c:852-866 | the big-endian total at the pointer, less its own two bytes, or an error below two |
| RxRing.Emac.AllocRecvBuf | port/ioLibrary_Driver/src/esp_eth_mac_w6300.c:868-904 | which frames are refused, which get a buffer, and how much of them |
| RxRing.Emac.TakePayload | port/ioLibrary_Driver/src/esp_eth_mac_w6300.c:937-953 | the payload behind the header is copied, and the pointer moves past the whole frame |
| RxRing.Emac.Receive | port/ioLibrary_Driver/src/esp_eth_mac_w6300.c:906-958 | with a prepared buffer or a plain length: the bytes copied, the advance of the 16-bit pointer, whether more is waiting; an empty ring is a success with nothing, an unreadable header an error that moves nothing |
| RxRing.Emac.FlushRecvFrame | port/ioLibrary_Driver/src/esp_eth_mac_w6300.c:960-987 | the same advance without a copy; an unreadable header leaves the pointer where it is |
| RxRing.Emac.Pass | port/ioLibrary_Driver/src/esp_eth_mac_w6300.c:1035-1064 | one turn of the drain loop for any memory contents: pointer, remaining-packets flag, buffers asked for and frames passed up |
| RxRing.Emac.PassOver | port/ioLibrary_Driver/src/esp_eth_mac_w6300.c:1035-1064 | one turn removes the first frame of the ring, passes it up exactly when its length is acceptable and a buffer was had, and tells whether more is waiting |
| RxRing.Emac.DrainOne | port/ioLibrary_Driver/src/esp_eth_mac_w6300.c:1035-1064 | one turn of the drain loop moves one frame from what is still to come out to what came out |
| RxRing.Emac.Arrive | port/ioLibrary_Driver/src/esp_eth_mac_w6300.c:852-866 | the environment: a frame is stored behind the waiting ones at the write pointer, or lost when there is no room |
| RxRing.Emac.Drain | port/ioLibrary_Driver/src/esp_eth_mac_w6300.c:1030-1065 | the loop ends; what came out and what still waits is what was in the ring and what arrived meanwhile, each frame of 60 to the maximum length once and in order, the others dropped whole; the pointer stops at the first unreadable header |
| RxRing.Emac.StoreAndDrain | port/ioLibrary_Driver/src/esp_eth_mac_w6300.c:1030-1065 | the acceptable frames the chip stores in an empty ring come out in order, and the ring is empty |
| RxRing.LyingHeaderGoesOn | port/ioLibrary_Driver/src/esp_eth_mac_w6300.c:949-951 | a header that claims more than the ring holds makes the 16-bit count wrap, so that the loop goes on |
| RxRing.RdAfterIsSum | port/ioLibrary_Driver/src/esp_eth_mac_w6300.c:937-946 | the pointer has moved by the sum of (length + 2) mod 2^16 |
| RxRing.PeekOn | port/ioLibrary_Driver/src/esp_eth_mac_w6300.c:370-377 | reading n bytes further on gives the same bytes after the pointer wrapped at 2^16 and the address at the ring size |
| RxRing.StoredWaits | port/ioLibrary_Driver/src/esp_eth_mac_w6300.c:370-377 | bytes stored at the write pointer are read back behind the waiting ones, across every wrap |
| RxRing.Facing | port/ioLibrary_Driver/src/esp_eth_mac_w6300.c:852-904 | with known frames in the ring, the pointer faces the first frame's header and payload, and behind it the others |
| RxRing.Step | port/ioLibrary_Driver/src/esp_eth_mac_w6300.c:852-866 | a frame at the pointer has its total in the header, its payload behind that, and the rest of the ring behind both |
| DhcpWire.WalkIsRead | port/backend/src/wsm_dhcp.c:345-366 | on any bytes the walk collects what an independent reader finds: the last value of options 53, 1, 3, 6, 51 and 54 |
| DhcpWire.ReadsItems | port/backend/src/wsm_dhcp.c:345-366 | among well-formed options that reader finds the last value of any option, up to END or a cut-off one |
| DhcpWire.WalkIsMeaning | port/backend/src/wsm_dhcp.c:330-369 | for any well-formed options with pads, the last value of every known option, stopping cleanly at END or truncation |
| DhcpWire.ParseReply | port/backend/src/wsm_dhcp.c:330-369 | any reply is recognised exactly by xid and hardware address, and yields its address, options and server id |
| DhcpWire.ParseReads | port/backend/src/wsm_dhcp.c:330-369 | whatever the bytes, a datagram is taken exactly when it is a reply to this client, read as any reader reads it, and stores a server id that is there |
| DhcpWire.ReplyReads | port/backend/src/wsm_dhcp.c:330-369 | a reply of well-formed options shows any reader its exchange, address and last values |
| DhcpWire.ParseBuild | port/backend/src/wsm_dhcp.c:266-369 | a built message turned into a reply gives back type, xid, address and server id |
| DhcpWire.BuildMeaning | port/backend/src/wsm_dhcp.c:266-311 | the options that were built mean the message type and, in a REQUEST, the server id |
| DhcpWire.BuildItemsSize | port/backend/src/wsm_dhcp.c:266-311 | so many option bytes, which leaves room for padding to 300 |
| DhcpWire.BuildReads | port/backend/src/wsm_dhcp.c:266-311 | the 300 bytes of every message read back field by field: BOOTREQUEST over Ethernet, exchange, broadcast flag, hardware address, options 53, 61, 55; a REQUEST has option 50 = the offered address and 54 = the server id, no other message has either |
| DhcpDriver.DhcpClient.EnterSelecting | port/backend/src/wsm_dhcp.c:224-232 | a new round with a fresh xid and nothing offered |
| DhcpDriver.DhcpClient.BuildHeader | port/backend/src/wsm_dhcp.c:266-288 | the 240 fixed bytes, field by field |
| DhcpDriver.DhcpClient.PutOption | port/backend/src/wsm_dhcp.c:290-303 | one more option behind the ones written |
| DhcpDriver.DhcpClient.BuildMessage | port/backend/src/wsm_dhcp.c:266-311 | always 300 bytes: header, options, END and pads |
| DhcpDriver.DhcpClient.Transmit | port/backend/src/wsm_dhcp.c:313-323 | the message for the state goes out, the next one is due k intervals later |
| DhcpDriver.DhcpClient.ParseMessage | port/backend/src/wsm_dhcp.c:330-369 | the index walk computes the parse, and overwrites the server id only for a matching reply |
| DhcpDriver.DhcpClient.OneTurn | port/backend/src/wsm_dhcp.c:378-434 | renewal, backoff and transmission first, then at most one datagram: the whole new client state and status |
| DhcpDriver.DhcpClient.Step | port/backend/src/wsm_dhcp.c:375-436 | one poll has the effect and status of at most step_packets turns, the first that decides ending it |
| DhcpDriver.DhcpClient.Take | port/backend/src/wsm_dhcp.c:406-434 | what a parsed datagram does in each state: the whole new client and the status |
| DhcpDriver.DhcpClient.Receive | port/backend/src/wsm_dhcp.c:405-434 | NAK starts over, OFFER counts only when selecting, ACK only when requesting, and only an ACK applies a lease |
| DhcpRuns.StepIsTurns | port/backend/src/wsm_dhcp.c:375-436 | a poll is a number of turns, with the status of the last |
| DhcpRuns.TrackIsTrue | port/backend/src/wsm_dhcp.c:375-436 | what is remembered of the current round (DISCOVER, OFFER with its server id, REQUEST, ACK and their order) is what the log shows |
| DhcpRuns.TurnFollows | port/backend/src/wsm_dhcp.c:375-436 | every turn keeps state, xid, offer and lease of the client in step with its log |
| DhcpRuns.RunFollows | port/backend/src/wsm_dhcp.c:375-436 | in every run, stops and restarts included, state, xid, offer and lease of the client are those its log accounts for |
| DhcpRuns.ReplyIsTaken | port/backend/src/wsm_dhcp.c:406-434 | a datagram of well-formed options: an ACK in REQUESTING is applied and returned as exactly the address, mask, router, DNS and time it carries; an OFFER in SELECTING is asked for at once; a NAK starts over; nothing else changes more than the server id |
| DhcpRuns.OthersAreIgnored | port/backend/src/wsm_dhcp.c:330-343 | a datagram of any bytes that is no reply to this client changes nothing |
| DhcpRuns.LeaseIsUsedHalf | port/backend/src/wsm_dhcp.c:381-386 | a lease is reported unchanged until half its time has passed, and the first turn from then on enters a new round |
| DhcpRuns.EveryReplyArrived | port/backend/src/wsm_dhcp.c:405-434 | in every run each OFFER, ACK and server id in the log stands for a datagram that a turn received |
| DhcpRuns.TrackedIsEarned | port/backend/src/wsm_dhcp.c:405-434 | an applied lease in a log that is in step has DISCOVER, OFFER, REQUEST and ACK of its round before it, the first REQUEST naming the server id in that OFFER if it had one |
| DhcpRuns.EveryLeaseIsEarned | port/backend/src/wsm_dhcp.c:375-436 | every applied lease is what the bytes of an ACK say, which follows, since the last new round and under one xid, a DISCOVER, an OFFER and REQUESTs whose bytes ask for the address in that OFFER, the first one of the server in it if it had one |
| DhcpRuns.StepLeased | port/backend/src/wsm_dhcp.c:375-436 | a poll that returns LEASED leaves the client bound to exactly that lease |
| DhcpRuns.LeasedIsWon | port/backend/src/wsm_dhcp.c:375-436 | in every run a poll that returns LEASED leaves the client bound to that lease, and the ACK that carried it ended the current round: DISCOVER, OFFER, REQUEST, ACK in order under one xid |
| DhcpRuns.TrackNamesLast | port/backend/src/wsm_dhcp.c:330-369 | the server id the round goes by is the last one a reply of the round carried |
| DhcpRuns.RequestNamesServerIff | port/backend/src/wsm_dhcp.c:313-436 | in every run the bytes of a REQUEST ask for the address in the accepted OFFER, and name its server if and only if the last matching reply of the round that carried a server id, the OFFER included, carried that one; the first REQUEST does if and only if the OFFER carried one |
| DhcpRuns.ReplyKeepsServerIff | port/backend/src/wsm_dhcp.c:330-369 | one more reply leaves the server of the next REQUEST alone if and only if it is for another client, has no option 54 of four bytes, or names that same server |
| DhcpRuns.LaterReplyRenamesServer | port/backend/src/wsm_dhcp.c:330-369 | for any servers a and b a run from the start in which OFFER a is taken and the REQUEST that is sent again names b |
| DhcpRuns.RunPaced | port/backend/src/wsm_dhcp.c:388-403 | the k-th wait of a round is at least k intervals, in every run |
| DhcpRuns.WaitedClosed | port/backend/src/wsm_dhcp.c:388-403 | k waits add up to interval * k(k+1)/2 |
| DhcpRuns.FailureIsEarned | port/backend/src/wsm_dhcp.c:388-403 | FAILED comes after exactly xmit_tries transmissions of one type, the k-th no earlier than interval * k(k-1)/2 after the first, the failure no earlier than interval * T(T+1)/2; then the client starts over |
| Dns.SkipName | port/backend/src/wsm_dhcp.c:472-485 | wherever a name stands, skipping it lands right behind it, for a root or a compression pointer |
| Dns.SkipLabels | port/backend/src/wsm_dhcp.c:472-485 | labels are skipped one by one |
| Dns.EncodeFromIff | port/backend/src/wsm_dhcp.c:448-469 | the encoding from any dot on exists exactly when the remaining parts are labels and the name fits |
| Dns.EncodeIff | port/backend/src/wsm_dhcp.c:448-469 | encoding succeeds if and only if every part has 1 to 63 bytes and strlen + 2 <= cap |
| Dns.EncodedSize | port/backend/src/wsm_dhcp.c:448-469 | it takes strlen + 2 bytes |
| Dns.ReadEncoded | port/backend/src/wsm_dhcp.c:448-469 | the labels read back |
| Dns.EncodedNameReads | port/backend/src/wsm_dhcp.c:448-485 | an encoded name decodes to its parts and is skipped exactly, in any packet |
| Dns.EncodeName | port/backend/src/wsm_dhcp.c:448-469 | the method writes exactly those bytes, nothing outside its space, or returns -1 |
| DnsMessage.SkipNameAt | port/backend/src/wsm_dhcp.c:472-485 | on any bytes the skipping loop ends inside the packet or with -1, and computes the offset the theorems are about |
| DnsMessage.SkipQuestionsAt | port/backend/src/wsm_dhcp.c:499-503 | on any bytes the question loop ends inside the packet or with -1, and computes the offset behind the questions |
| DnsMessage.FindAddress | port/backend/src/wsm_dhcp.c:505-524 | the answer loop, on any bytes; the output is written only with an address |
| DnsMessage.Parse | port/backend/src/wsm_dhcp.c:487-525 | the parser on any bytes stays inside the packet and ends |
| DnsMessage.QuestionsSkipped | port/backend/src/wsm_dhcp.c:499-503 | serialized questions are skipped exactly |
| DnsMessage.RecordsSearched | port/backend/src/wsm_dhcp.c:505-524 | among serialized records the first A/IN one with four bytes of data is found |
| DnsMessage.ParseOfSerialize | port/backend/src/wsm_dhcp.c:487-525 | for every message serialized as section 4.1 of RFC 1035 describes: the first A/IN address, none when there is none, and nothing from another id, a query or an error response |
| Netbios.DecodeOfEncode | examples/netbios/src/netbios.c:133-147 | level-1 encoding decodes to what was encoded |
| Netbios.EncodeOfDecode | examples/netbios/src/netbios.c:133-147 | whatever 32 letters decode were the encoding of the result: a name has one encoding |
| Netbios.EncodeNetbiosName | examples/netbios/test.py:38-60 | the encoded name for any text, or ValueError for one that is long or not ASCII in upper case, or a suffix outside a byte |
| Netbios.CreateQuery | examples/netbios/test.py:63-91 | the 50-byte query for any text and numbers: struct.error for an id beyond 16 bits, ValueError where the name does not encode |
| Netbios.QueryByteByByte | examples/netbios/test.py:38-91 | the 50 bytes of the query one by one, the sixteenth letter pair being the suffix |
| Netbios.SuffixReadBack | examples/netbios/test.py:46-60 | the decoded label is the name, padded, and the suffix as its sixteenth byte |
| Netbios.DecodeBytes | examples/netbios/src/netbios.c:137-144 | the decoding loop into the local array, refusing any other letter |
| Netbios.Strip | examples/netbios/src/netbios.c:146-149 | trailing padding is removed, and only that |
| Netbios.DecodeName | examples/netbios/src/netbios.c:133-156 | the C string the name comparison sees |
| Netbios.Handle | examples/netbios/src/netbios.c:163-219 | a 62-byte reply exactly for a name query for this name while an address is set, otherwise the buffer is untouched |
| Netbios.AnsweredIff | examples/netbios/src/netbios.c:163-198 | answered are exactly requests that are name queries with one question whose 32 letters spell this name, while an address is set |
| Netbios.ReplyByteByByte | examples/netbios/src/netbios.c:199-219 | the 62 bytes of the reply one by one |
| Netbios.SkipDnsName | examples/netbios/test.py:94-122 | the loop of the Python client skips names exactly as the DNS resolver does, on any bytes |
| Netbios.ReadEntries | examples/netbios/test.py:211-232 | the loop reads every complete six-byte address entry in order and ignores a shorter rest |
| Netbios.ParseNbnsResponse | examples/netbios/test.py:125-236 | short, foreign, non-response and error packets are refused in that order, and the results are all address entries of all NB records |
| Netbios.QueryHeard | examples/netbios/src/netbios.c:170-191 | a query the client builds is for the responder exactly when the heard name is its own, in any case |
| Netbios.HeardIff | examples/netbios/test.py:46-52 | the heard name is the name itself if and only if it has no NUL and no trailing space |
| Netbios.ReplyParses | examples/netbios/test.py:125-236 | the reply parses to its one address with flags 0, and to a refusal under another id |
| Netbios.QueryRoundTrip | examples/netbios/test.py:38-236 | query, answer and parse together for any normalized name: answered iff the name is heard as the responder's and an address is set, and then that one address comes back |
| Netbios.RoundTrip | examples/netbios/test.py:38-236 | the same from the name as it was typed in ASCII: answered iff the name is heard as the responder's in any case and an address is set, and then that one address comes back |

## Left out

- Md5.Context.Transform: the rounds inside `md5_transform` are not modelled; the compression function is a parameter.
- Gather.Connection.Recv: byte count and socket status are taken together at each look, while the code reads them at two moments.
- Gather.Connection.ReadV: for buffers that share memory the stream, the count and the errors are described, but not what the shared bytes hold at the end; a total beyond the range of `ssize_t` is not modelled.
- ToeDriver.Driver.Accept: `accept` is described over finite observation lists; that a blocking call without a timeout returns at all depends on the peer.
- ToeDriver.Driver.Close: the bounded wait for the FIN exchange before a close is one outcome of the chip, not a loop.
- Mqtt.Client.ReadPacket: a session that ends inside a packet ends with -1, and whether the stream broke or a timeout passed is only told by the last read.
- RxRing.Emac.Receive: a failing SPI transfer is not modelled.
- Netbios.EncodeNetbiosName: `str.upper` is a parameter; nothing is claimed about what it makes of characters outside ASCII.
- Tftp.TftpClient.Run: a transport that fails to send is not modelled, and the write-request states that the code leaves unimplemented are absent.
- DnsMessage.Parse: offsets are unbounded here, while the code keeps them in an int; the 255-byte name limit, which the encoder does not enforce, is not required either.
- DHCP socket set-up, the operations table, duplicate-address detection and unicast renewal, which the code does not do, are left out.
- Lazy initialisation of the allocator's tables and thread interleavings inside it; the code takes no lock and says so.
- Socket options, UDP sendto and recvfrom, shutdown and getsockname of the TOE driver: one-line register or table accesses.
- The MQTT session loop with its keep-alive and reconnect delays, and the two-byte PINGREQ packet.
- `query_netbios_name` with its retries, and the socket loops around `netbios_handle`.
- Transports, drivers, network bring-up, web server, TLS and UPnP examples: library wrappers without semantics of their own.
