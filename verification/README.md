# Verification of the session core

This Dafny project models the core of the library that has to stay right under cancellation and
concurrency, and proves what it promises. Sockets, serial ports, libusb, timers and threads are the
environment: they may deliver any bytes, errors, cancels and timeouts at any step.

- **Find expressions** (`Find*.dfy`): the hand-written parser is proved against a grammar of
  derivations, in both directions, the set-of-positions matcher against the languages of the trees,
  and the trees against what the derivations mean by themselves (`FindMeaning.dfy`).
- **Resource names** (`NameParts.dfy`, `ResourceNames.dfy`, `AcceptedNames.dfy`, `ResourceAliases.dfy`):
  splitting as the inverse of joining, which texts are names, exactly when a canonical name names the
  same resource, and what aliases name after any sequence of settings.
- **Read engines** (`AsyncStream.dfy`, `GpibSession.dfy`, `UsbTmcSession.dfy`, `Vxi11Session.dfy`,
  `HiSlipSession.dfy`, `PrologixTransport.dfy`): what was handed over, what the active read holds and
  the read-ahead are, in that order, what arrived. Each answer of the environment is recorded by the
  method that asks for it (`History.dfy` says what a list of answers has brought), and `Valid()` ties
  what arrived to what was handed over.
- **Concurrency kernel** (`OperationProtocol.dfy`, `LockManager.dfy`, `SessionClose.dfy`,
  `SessionRelease.dfy`, `SessionDepth.dfy`, `ResourceManager.dfy`): state machines whose steps are the
  atomic actions of the code, with invariants over every run.
- **Handles** (`HandleTable.dfy`): the slot table refines a map and never reissues a handle.
- **Prologix** (`PrologixWire.dfy`, `PrologixSetup.dfy`, `Prologix.dfy`): a reference controller that
  reads the line byte by byte, and exactly what it hears in each transaction, for connections that fail
  at any byte.
- **Framing** (`UsbTmcProtocol.dfy`, `RpcRecord.dfy`, `ChunkedWrite.dfy`): codecs, record reassembly
  and chunked writes.

`Visa.dfy`, `Text.dfy`, `Numerals.dfy` and `Sequences.dfy` hold what they share. Characters are
compared as the signed `char` of the supported compilers, and letters are folded as in the "C" locale.

Four promises turned out not to hold of the code as it is; the model keeps the code and says exactly
when they do:

- A canonical name is not always a fixpoint of parsing: a device name or serial number that ends in a
  colon makes the canonical name another name (`ResourceNames.CanonicalExactly`).
- A failed lock call can take away a lock that another call of the same session was granted: when the
  remote lock fails and the operation is cancelled as well, the code releases twice
  (`SessionClose.FailedLockTakesAnother`). It does so exactly when the session owns another lock at the
  second release (`SessionRelease.OverRelease`), and never if the session's lock calls do not overlap
  (`SessionRelease.SoloLockIsHonest`).
- The lock table stays in order exactly as long as no 32-bit depth counter wraps around
  (`LockManager.WrapExactly`), and 2^32 nested locks make one wrap around (`LockManager.NestWraps`).
- README.md:61 of the repository says that a Prologix connection that failed is dropped and fully
  initialised again. A network controller's unfinished line goes with the connection, but a serial one
  keeps it, and then the first command of the next set-up is lost: it ends that line. The set-up is
  heard as it was sent exactly when no line was unfinished (`PrologixSetup.SetupExactly`); the commands
  behind the first one always are (`PrologixSetup.SetupSurvives`). A write and a selection that were
  cut off do leave such lines (`PrologixSetup.CutWrite`, `PrologixSetup.CutSelection`).

Check the project with `dafny verify dfyconfig.toml`.

## Model

| member | source | states |
|---|---|---|
| FindReading.ReadExpressionExact | src/resource/find_expression.cpp:45-235 | an expression is accepted exactly when it is non-empty, under 256 characters, free of braces and the text of a well-formed derivation (alternation below concatenation below quantifier below atom, groups at most 32 deep), and that derivation is the only one |
| FindReading.AlternationSound | src/resource/find_expression.cpp:74-101 | whatever alternation is read spells exactly the consumed text and is well formed |
| FindReading.AlternationComplete | src/resource/find_expression.cpp:74-101 | every well-formed alternation is read back from its text, whatever closing parenthesis or end follows |
| FindReading.ItemComplete | src/resource/find_expression.cpp:109-131 | an atom with its quantifier is read back; a second quantifier is what the grammar excludes |
| FindReading.AtomComplete | src/resource/find_expression.cpp:144-185 | every literal, escape, wildcard, class and group is read back from its text |
| FindReading.EntriesSound | src/resource/find_expression.cpp:203-235 | class entries spell the consumed text; a dash reads as a range unless it closes the class, and a range is never empty |
| FindReading.EntriesComplete | src/resource/find_expression.cpp:203-235 | every well-formed list of class entries is read back up to the closing bracket |
| FindParser.Parser.Parse | src/resource/find_expression.cpp:49-64 | the object that advances a position returns the tree of the one derivation, which means what the derivation means (`FindMeaning.AlternationMeaning`), or the error of the reading; neither an accepted nor a rejected expression meets the node limit |
| FindReading.NeverTooComplex | src/resource/find_expression.cpp:66-70 | no expression, accepted or rejected, fails for its number of nodes |
| FindParser.Parser.ParseAlternate | src/resource/find_expression.cpp:74-101 | the loop over `|` agrees with the recursive reading, and twice the characters read pays for all nodes made and trees pending |
| FindParser.Parser.ParseNextBranch | src/resource/find_expression.cpp:86-94 | each further branch keeps the loop in step with the recursive reading and within the node budget |
| FindParser.Parser.ParseConcatenation | src/resource/find_expression.cpp:103-142 | the loop over atoms agrees with the recursive reading and stays within the same node budget |
| FindParser.Parser.ParseAtom | src/resource/find_expression.cpp:144-185 | one atom, whose tree means what the atom means (`FindMeaning.AtomMeaning`), or exactly the error of the reading |
| FindParser.Parser.ReadRanges | src/resource/find_expression.cpp:203-235 | the loop over class entries collects exactly the folded ranges of the reading |
| FindMatcher.Matches | src/resource/find_expression.cpp:708-718 | without a filter, a name matches exactly when the whole of it is a word of the case-folded language of the tree |
| FindMatcher.MatchNode | src/resource/find_expression.cpp:546-600 | the result is exactly the set of positions `q` such that `value[p..q]` is a word of the node, nullable bodies under `*` and `+` included |
| FindMatcher.MatchConcatenation | src/resource/find_expression.cpp:568-582 | the end positions of a concatenation are those of the product of its children's languages, even when the loop stops early |
| FindMatcher.MatchAlternate | src/resource/find_expression.cpp:583-590 | the end positions of an alternation are the union over its children |
| FindMatcher.RepeatClosure | src/resource/find_expression.cpp:528-544 | the closure is the set of ends of repetitions started at an initial position; the search ends because `reached` only grows inside the name |
| FindMatcher.StarEndsLeast | src/resource/find_expression.cpp:528-544 | that set is closed under one more repetition and contained in every closed set: it is the least one |
| FindMatcher.StarIsRepeat | src/resource/find_expression.cpp:591-594 | `*` from one position is the closure of that position |
| FindMatcher.PlusIsRepeat | src/resource/find_expression.cpp:595-596 | `+` is the closure of the ends of one repetition |
| FindMatcher.ProductEndsDead | src/resource/find_expression.cpp:577-579 | once a prefix of a concatenation matches nowhere, so does the whole |
| FindExpression.Find | src/resource/find_expression.cpp:664-718 | compile and match end to end: there is an answer exactly for derivable expressions, and it is yes if and only if the whole name is a word that the derivation means |
| FindMeaning.AtomMeaning | src/resource/find_expression.cpp:144-235 | the tree of an atom has exactly the atom's words: a character is itself in any case, a wildcard any one character, a bracket one character that lies, folded, between the folded ends of some entry, or of none if it is negated |
| FindMeaning.AlternationMeaning | src/resource/find_expression.cpp:45-235 | the tree of a derivation has exactly the words that the derivation means, said of its branches, items and atoms without the tree: one of the branches, its items one after the other, each once, any number of times or at least once |
| NameParts.SplitName | src/resource/resource_parser.cpp:24-67 | the loop over index, start and bracket state computes the reference splitting |
| NameParts.SplitExact | src/resource/resource_parser.cpp:24-67 | splitting is the exact inverse of joining parts that are non-empty, bracket-balanced, uncut by a separator and, but for the last, do not end in a colon |
| NameParts.BracketsStayWrong | src/resource/resource_parser.cpp:29-41 | once brackets nest or close unopened the name stays unsplittable |
| ResourceNames.CanonicalExactly | src/resource/resource_parser.cpp:280-307 | if a name parses to `d`, then `d`'s canonical name parses to `d` if and only if it is under 256 characters and neither the device name nor the serial number ends in a colon |
| ResourceNames.ShortNamesAreFixpoints | src/resource/resource_parser.cpp:130-183 | for ASRL, GPIB and the mock the canonical name always parses back |
| ResourceNames.NotEveryNameIsAFixpoint | src/resource/resource_parser.cpp:185-228 | `TCPIP0::h::dev:` parses, and its canonical name does not parse to the same resource |
| ResourceNames.CanonicalIdentifies | src/resource/resource_parser.cpp:280-307 | two resources with the same such canonical name are the same resource |
| ResourceNames.BadEnding | src/resource/resource_parser.cpp:185-278 | only a name that itself ends in a colon has such a device name or serial number |
| AcceptedNames.AsrlAccepts | src/resource/resource_parser.cpp:130-139 | a text names a serial port if and only if it is under 256 characters and is ASRL with the port's number, in any case, alone or followed by two colons and INSTR |
| ResourceNames.GpibAccepts | src/resource/resource_parser.cpp:141-183 | exactly which parts name a GPIB instrument: primary and secondary up to 30, class optional |
| AcceptedNames.IntfcAccepts | src/resource/resource_parser.cpp:146-150 | a text names a GPIB board itself if and only if it is under 256 characters and is GPIB with the board's number, two colons and INTFC, in any case |
| AcceptedNames.SocketAccepts | src/resource/resource_parser.cpp:185-213 | a text names a socket if and only if it is under 256 characters and is TCPIP with the board's number, a host that no separator cuts and no bracket leaves open, a port from 1 to 65535 and SOCKET, between double colons |
| ResourceNames.DeviceAccepts | src/resource/resource_parser.cpp:185-228 | exactly which parts name a network instrument, and which device they name |
| ResourceNames.UsbAccepts | src/resource/resource_parser.cpp:230-278 | exactly which parts name a USB resource, with which interface and class |
| ResourceNames.GpibFixpoint | src/resource/resource_parser.cpp:141-183 | the canonical parts of a GPIB resource parse to its board, primary and secondary address |
| ResourceNames.SocketFixpoint | src/resource/resource_parser.cpp:202-213 | the canonical parts of a socket parse to its board, host and port |
| ResourceNames.DeviceFixpoint | src/resource/resource_parser.cpp:214-227 | the canonical parts of a network instrument parse to its board, host, device and protocol |
| ResourceNames.UsbFixpoint | src/resource/resource_parser.cpp:230-276 | the canonical parts of a USB resource parse to its ids, serial number, interface and class |
| ResourceNames.PrefixRoundTrip | src/resource/resource_parser.cpp:97-110 | an interface name and board number are read back |
| ResourceNames.HexIdRoundTrip | src/resource/resource_parser.cpp:82-95 | a printed four-digit hexadecimal id is read back |
| ResourceNames.DecimalRoundTrip | src/resource/resource_parser.cpp:69-80 | a printed decimal number within its limit is read back |
| Numerals.NumeralRoundTrip | src/resource/resource_parser.cpp:69-80 | positional notation in bases 2 to 16 is read back to the number printed |
| ResourceAliases.AliasesExactly | src/core/objects.cpp:148-169 | after any sequence of accepted settings an alias names exactly the resource of the one setting of it that no later setting overrides, and nothing if there is none |
| ResourceAliases.AliasesAreUnique | src/core/objects.cpp:148-169 | after any sequence of accepted settings no two aliases name one resource |
| ResourceAliases.Aliases.SetResourceAlias | src/core/objects.cpp:148-169 | a valid alias replaces itself and any other alias of its resource, and nothing else; the two maps stay inverse to each other and are what the accepted settings make them |
| ResourceAliases.Aliases.ResolveResource | src/core/objects.cpp:191-218 | a parseable name resolves to itself with the alias of its resource, any other name to the alias in any case, and nothing resolves once closed |
| AcceptedNames.BareNameIsBoardZero | src/resource/resource_parser.cpp:97-110 | an interface name in any case without a number is board 0 |
| AcceptedNames.HostInBrackets | src/resource/resource_parser.cpp:190-199 | brackets around a host are not part of it; a host with a colon needs them |
| AcceptedNames.DeviceProtocol | src/resource/resource_parser.cpp:112-127 | a device is HiSLIP exactly if it begins with HISLIP and letters or digits follow, and VXI-11 exactly if it begins with INST, VXI or GPIB, in any case |
| AcceptedNames.AsrlFields | src/resource/resource_parser.cpp:130-139 | a serial port has the number in its name, and the canonical name prints it |
| AcceptedNames.GpibFields | src/resource/resource_parser.cpp:141-183 | the first address is the primary one, the second, if it is not the class, the secondary; the canonical name prints them in that order |
| AcceptedNames.TcpipFields | src/resource/resource_parser.cpp:185-228 | host, port, device, class and protocol come from their own places in the name; a missing device is inst0 |
| AcceptedNames.UsbFields | src/resource/resource_parser.cpp:230-278 | vendor, product, serial number, interface and class come from their own places in the name; a missing interface is 0 |
| AsyncStream.ReadEngine.Run | src/backends/asio/async_stream.h:231-409 | over every sequence of new reads, stream data, errors, cancels, timeouts and flushes: what the inputs brought less what the flushes threw away is what was received, and that is the data of the requests served, in order, then the active request's, then the read-ahead; every request that was given data was served, once; the served, the active and the waiting requests are in the order of enqueueing; promises and operations settle once; a promise holds its operation's own result, which is plain SUCCESS only if the stream had failed, and a failure only if it is a cancel, a timeout or what the stream reported |
| AsyncStream.ReadEngine.Step | src/backends/asio/async_stream.h:231-409 | any single input keeps that, and adds to or takes from what was received exactly its own bytes or the read-ahead |
| AsyncStream.ReadEngine.OnRead | src/backends/asio/async_stream.h:302-318 | the read handler splits what arrived by count and termination character, keeps the rest as read-ahead, adds exactly the arrived bytes to what was received, and remembers an error that came with data; without an error, a termination character or the full count the request stays active, with all its data, and is read on; an error ends it with plain SUCCESS and the data that it has, or with the error itself if it has none |
| AsyncStream.ReadEngine.TakeArrived | src/backends/asio/async_stream.h:304-315 | the request takes bytes up to its count or the first termination character, and all of them otherwise |
| AsyncStream.ReadEngine.HandleRead | src/backends/asio/async_stream.h:320-355 | a read that ended with its termination character or count completes with that status; one that has not completes only with an error, and is read on otherwise |
| AsyncStream.ReadEngine.ConsumeReadAhead | src/backends/asio/async_stream.h:274-294 | the active request is fed from the read-ahead, then ended by the terminal status or put on the stream |
| AsyncStream.ReadEngine.Drain | src/backends/asio/async_stream.h:275-287 | bytes move over until the request ends, with the status it then ends with, or the read-ahead is empty |
| AsyncStream.ReadEngine.TakeByte | src/backends/asio/async_stream.h:275-287 | one byte moves from the read-ahead to the request, and the request stops at the first termination character or at its count |
| AsyncStream.ReadEngine.StartNextRead | src/backends/asio/async_stream.h:243-272 | requests whose operation is over are dropped unread, and the next one becomes active; what was served stays served and the order of enqueueing is kept |
| AsyncStream.ReadEngine.EnqueueRead | src/backends/asio/async_stream.h:231-241 | a request joins the end of the order of enqueueing and of a non-empty queue, and starts if nothing is active |
| AsyncStream.ReadEngine.RestorePartialRead | src/backends/asio/async_stream.h:359-365 | the bytes of an interrupted read go back in front of the read-ahead in order |
| AsyncStream.ReadEngine.CompleteActiveRead | src/backends/asio/async_stream.h:367-382 | the promise gets the collected bytes with the proposed status, or nothing with the cancel or timeout that was first, and the next request starts |
| AsyncStream.ReadEngine.Fulfill | src/backends/asio/async_stream.h:384-392 | a promise is set at most once |
| AsyncStream.ReadEngine.CancelRead | src/backends/asio/async_stream.h:394-409 | a cancelled waiting request leaves the queue and its promise gets its operation's result and no data; an active one is only told to stop |
| AsyncStream.ReadEngine.DiscardReadAhead | src/backends/asio/async_stream.h:97-111 | a discarding flush removes from what was received exactly the read-ahead |
| AsyncStream.HandedOverMore | src/backends/asio/async_stream.h:367-382 | completing one more request appends its data to what was handed over |
| AsyncStream.QueueErasedInOrder | src/backends/asio/async_stream.h:405-408 | erasing a waiting request keeps the order of the others |
| GpibSession.Session.Read | src/backends/gpib/gpib_session.cpp:26-109 | exactly what the transport answered within its contract has arrived, and on success and on every failure none of it, end marks included, is lost, duplicated or reordered; a read fails only with its own cancel or timeout or with the transport's last refusal; a read that was cancelled fails, whatever it holds; the transport is asked only while the read is neither full nor ended, and for exactly what is missing; TERM_CHAR data ends at its first termination character, MAX_CNT is exactly the count, plain SUCCESS has consumed an end mark |
| GpibSession.Session.Collect | src/backends/gpib/gpib_session.cpp:40-85 | the collecting loop stops at the count, the end mark or a termination character; what it holds, the read-ahead and what was handed over make up what the recorded answers brought |
| GpibSession.Session.TakeAhead | src/backends/gpib/gpib_session.cpp:47-57 | as much read-ahead as fits moves to the reader, with its end mark once it is used up |
| GpibSession.Session.RestoreReadAhead | src/backends/gpib/gpib_session.cpp:18-24 | everything goes back in front, end mark included |
| GpibSession.CutAt | src/backends/gpib/gpib_session.cpp:76-84 | the cut is right behind the first enabled termination character, and there is none if no byte is one |
| GpibSession.Session.Gather | src/backends/gpib/gpib_session.cpp:47-74 | one more portion, from the read-ahead or, only if there is none, a whole answer within its contract to a request for what is missing; a failure is the transport's and leaves the reader as it was |
| PrologixTransport.Transport.Read | src/backends/gpib/prologix_provider.cpp:865-895 | every portion keeps to the contract the GPIB session relies on, and portions with their ends make up the controller's responses in order; it is refused exactly if it is closed, cancelled or the controller failed |
| PrologixTransport.Transport.Portion | src/backends/gpib/prologix_provider.cpp:884-894 | as much of the response as was asked for, with its end exactly when it is used up |
| GpibSession.MessageSplit | src/backends/gpib/gpib_session.cpp:96-103 | cutting a message behind a termination character keeps the rest and its end mark pending |
| GpibSession.MessageRestored | src/backends/gpib/gpib_session.cpp:18-24 | putting a partial read back restores the pending sequence |
| UsbTmcProtocol.DecodeMessageExact | src/backends/usb/usbtmc_protocol.cpp:58-86 | a frame decodes exactly when it is a header of the expected tag with its complement, clear reserved bits, a payload within the limits and the right alignment, and then to that payload |
| UsbTmcProtocol.MessageRoundTrip | src/backends/usb/usbtmc_protocol.cpp:34-86 | an encoded message decodes to the same tag, end bit and payload for every non-zero tag and payload up to 64 MiB, and its length is a multiple of 4 |
| UsbTmcProtocol.RequestRoundTrip | src/backends/usb/usbtmc_protocol.cpp:97-163 | an encoded read request decodes to its tag, size and termination character |
| UsbTmcProtocol.TriggerRoundTrip | src/backends/usb/usbtmc_protocol.cpp:124-186 | an encoded trigger decodes to its tag |
| UsbTmcProtocol.FrameLayout | src/backends/usb/usbtmc_protocol.cpp:27-56 | a frame byte by byte: kind, tag and the number that makes 255 with it, 0, the size with its low byte first, attributes, termination character, two zeros, the payload, and zeros up to a multiple of 4 |
| UsbTmcProtocol.MessageKinds | src/backends/usb/usbtmc_protocol.cpp:91-133 | which kind, attributes and size the messages in both directions, the requests and the triggers carry |
| UsbTmcProtocol.U32RoundTrip | src/backends/usb/usbtmc_protocol.cpp:12-25 | a 32-bit size survives little-endian encoding |
| UsbTmcSession.Session.Read | src/backends/usb/usbtmc_session.cpp:361-507 | exactly the payloads of the recorded responses that pass every check have arrived, and they are conserved on success and on every failure but a transfer that was itself cut off; after that the read-ahead is empty or the session is unusable for good; every failure is explained by the arguments, the session's state, a cancel or the last transfer; every transfer is a request under the next tag for exactly the bytes still missing, with the reader's termination character, or the response expected for that tag and size, and none is made once the read is full, has its termination character or has met the end of a message; a transfer that was cut off is aborted in its own direction under its own tag, and the device is cleared if that fails |
| UsbTmcSession.Session.Exchange | src/backends/usb/usbtmc_session.cpp:427-470 | one request, which decodes to the next tag, the missing size and the reader's termination character, and the response awaited for the same tag and size: its whole payload, or the failure of the transfer that ended it |
| UsbTmcSession.Session.Write | src/backends/usb/usbtmc_session.cpp:312-359 | at most one frame goes out and it is the encoding of the buffer under the next tag; success is reported only for a complete transfer, and the read-ahead survives unless a transfer that was cut off was recovered; the recovery aborts that very transfer, and clears the device if that fails |
| UsbTmcSession.Session.Transfer | src/backends/usb/usbtmc_session.cpp:426-471 | request and response rounds, each under the next tag for what is still missing: what the recorded responses brought is with the reader or in the read-ahead, and the loop says a transfer was cut off exactly when the last one was |
| UsbTmcSession.Session.Consume | src/backends/usb/usbtmc_session.cpp:386-407 | a payload goes to the reader up to a termination character or the count and the rest to the read-ahead, with the end flag where the message ends |
| UsbTmcSession.Session.NextTag | src/backends/usb/usbtmc_session.cpp:57-64 | tags run from 1 to 255 and never repeat in a row |
| UsbTmcSession.TagsAdvance | src/backends/usb/usbtmc_session.cpp:57-64 | the tags of two requests in a row differ, however many went before, and none is 0 |
| UsbTmcSession.Session.RecoverCancelledTransfer | src/backends/usb/usbtmc_session.cpp:289-310 | the transfer that was cut off is aborted, in its direction and under its tag, and only if that fails the device is cleared; a recovered session starts empty, an unrecovered one is unusable |
| OperationProtocol.OneWinner | src/runtime/operation.cpp:10-34 | in every interleaving one completion attempt wins, and the result never changes |
| OperationProtocol.LosersLostToAWinner | src/runtime/operation.cpp:10-20 | an attempt fails only against a completed operation |
| OperationProtocol.HandlersRunAtMostOnce | src/runtime/operation.cpp:15-72 | no cancel handler runs twice, before completion, or after it was cleared or replaced |
| OperationProtocol.NotifiedHandlerRuns | src/runtime/operation.cpp:15-67 | if a cancel or timeout won, every handler set runs exactly once unless cleared or replaced, however the two calls interleave |
| OperationProtocol.SilentHandlerStays | src/runtime/operation.cpp:10-67 | completion without notification leaves the installed handler silent and runs one that is set afterwards |
| OperationProtocol.RunKeepsInv | src/runtime/operation.cpp:10-72 | each handler is in exactly one pair of hands throughout every run |
| OperationProtocol.WinnerProposed | src/runtime/operation.cpp:10-34 | in every interleaving the result is the very status that the winning attempt proposed, and the handler is taken exactly if that attempt notifies |
| LockManager.DepthIsBalance | src/core/lock_manager.cpp:34-147 | over every run whose counters stay below 2^32 the table is in order and each depth is the grants minus the releases since the last release of everything |
| LockManager.WrapExactly | src/core/lock_manager.cpp:34-147 | over every run: the table is in order all along, and every depth is that balance all along, if and only if no depth counter wraps around |
| LockManager.NestWraps | src/core/lock_manager.cpp:68-76 | 2^32 nested exclusive locks do wrap around: their session then owns the resource with depth zero and still keeps everybody else out |
| LockManager.GrantKeepsLocks | src/core/lock_manager.cpp:68-95 | a grant keeps the table in order if and only if the depth counter does not wrap around |
| LockManager.ReleaseKeepsLocks | src/core/lock_manager.cpp:97-147 | both releases keep the table in order |
| LockManager.GrantDepth | src/core/lock_manager.cpp:68-95 | a grant adds one to its owner's depth on its resource and changes no other |
| LockManager.ReleaseDepth | src/core/lock_manager.cpp:97-125 | a release takes one from its owner's depth if it owns the lock and changes no other |
| LockManager.ReleaseAllDepth | src/core/lock_manager.cpp:127-147 | releasing everything makes one depth zero and changes no other |
| LockManager.OwnsIffDepth | src/core/lock_manager.cpp:162-198 | a session owns a lock, and of some type, exactly when its depth is positive |
| LockManager.GrantableExactly | src/core/lock_manager.cpp:11-26 | exactly who can be granted an exclusive or a shared lock, in terms of who owns what |
| LockManager.LockStays | src/core/lock_manager.cpp:34-147 | a lock that stays through a call keeps its type, its exclusive owner and its access key |
| LockManager.MutualExclusion | src/core/lock_manager.cpp:149-160 | under an exclusive lock nobody else owns, may access or can be granted the resource |
| LockManager.ReleaseNotifies | src/core/lock_manager.cpp:104-146 | any release that makes some request grantable notifies the waiters |
| LockManager.KeysDiffer | src/core/lock_manager.cpp:28-32 | two keys that one manager has given out are equal if and only if a multiple of 2^64 lies between them |
| LockManager.Manager.Acquire | src/core/lock_manager.cpp:34-95 | granted exactly if the request is valid, not cancelled and grantable: SUCCESS over depth 0, and above it NESTED_EXCLUSIVE or NESTED_SHARED by the kind asked for; an unknown kind, a key for an exclusive lock, a cancel and a timeout each have their own status exactly under their own condition, and the caller waits exactly in what remains; a key is taken from the counter exactly for a new shared lock |
| LockManager.Manager.Release | src/core/lock_manager.cpp:97-125 | the table and the notification are the specification's, and the status says whether a lock was owned |
| LockManager.Manager.ReleaseEverything | src/core/lock_manager.cpp:127-147 | the table and the notification are the specification's |
| SessionClose.ClosedSessionOwnsNothing | src/core/objects.cpp:617-641 | in every interleaving of lock, unlock, transfer and close calls and of other sessions, once close has returned the session owns no lock, then and ever after, even if depth counters wrap around |
| SessionClose.ClosedSessionIsQuiet | src/core/objects.cpp:288-314 | once close has returned no call is past its check, none ever gets there, and the registry stays empty |
| SessionClose.LockOutcomes | src/core/objects.cpp:443-472 | a successful lock call was granted one lock and released none; a failed one releases at most what it was granted, unless its remote lock failed and its operation was lost as well |
| SessionRelease.OverRelease | src/core/objects.cpp:443-472 | over every run: a lock call that has returned gave back more than it was granted if and only if it released a second time while its session owned another lock |
| SessionRelease.SoloLockIsHonest | src/core/objects.cpp:443-472 | over every run in which no other lock call of the session is in flight while this one is, and no depth counter wraps around, a lock call gives back at most what it was granted, whatever the session owned before and unlocks meanwhile |
| SessionDepth.DepthAccounts | src/core/objects.cpp:443-496 | over every run in which the depth counter does not wrap around, the session's depth is the one it started with, plus grants less releases of its lock calls, less one for each unlock that succeeded; and 0 once a close has returned |
| SessionDepth.LockAlone | src/core/objects.cpp:443-472 | a lock call alone in flight adds exactly one to the depth if it succeeds and leaves it as it was if it fails, also when it was cancelled after its grant or its remote lock failed |
| SessionDepth.UnlockAlone | src/core/objects.cpp:474-496 | an unlock alone in flight succeeds exactly if the session owned the resource, the remote unlock worked and the operation was not lost; then the depth is exactly one less, and otherwise the same; only the last of nested locks is unlocked remotely |
| SessionClose.FailedLockTakesAnother | src/core/objects.cpp:459-471 | a run in which a failed lock call takes away the lock of a call that returned with success |
| SessionClose.RunKeepsInv | src/core/objects.cpp:288-314 | every run keeps registry, completion, mutex and ownership consistent; what the calls do to the depth is said by `SessionDepth.DepthAccounts` |
| SessionClose.OwnershipAfter | src/core/lock_manager.cpp:34-147 | another session's calls never change this session's ownership |
| HandleTable.Table.Insert | src/core/handle_table.cpp:39-62 | the handle returned was never returned before and maps to the object; it fails exactly when all 65535 slots are taken or retired |
| HandleTable.Table.Get | src/core/handle_table.cpp:87-90 | the table refines a map from live handles to objects, by expected type |
| HandleTable.Table.Remove | src/core/handle_table.cpp:97-115 | exactly one live handle goes, and nothing is ever forgotten of what was issued |
| HandleTable.Table.Run | src/core/handle_table.cpp:39-115 | over any sequence of inserts and removes a handle that is removed never resolves again, and one that is not removed keeps resolving to its object |
| HandleTable.DecodeInvertsEncode | src/core/handle_table.cpp:17-37 | decoding an encoded handle gives its type, generation and index |
| HandleTable.EncodeInvertsDecode | src/core/handle_table.cpp:17-37 | encoding what a handle decodes to gives the handle |
| HandleTable.EncodeBits | src/core/handle_table.cpp:17-22 | the arithmetic encoding is the code's shifts and ors, bit by bit |
| HandleTable.DecodeBits | src/core/handle_table.cpp:24-37 | the arithmetic decoding is the code's shifts and masks, bit by bit |
| HandleTable.TakenIsNew | src/core/handle_table.cpp:45-61 | the handle of a newly taken slot was never issued, and the rest of the map is unchanged |
| HandleTable.TakenResolves | src/core/handle_table.cpp:64-85 | taking a slot changes what one handle resolves to, and no other |
| HandleTable.VacatedResolves | src/core/handle_table.cpp:97-115 | after a removal one handle resolves to nothing and every other as before, also when generation 4095 retires the slot |
| HandleTable.ExpectedType | src/core/handle_table.cpp:72-74 | asking for a type filters exactly the handles of that type |
| ResourceManager.ClosedManagerHasNoChild | src/core/objects.cpp:241-248 | in every interleaving of registrations with close, once both have finished no child handle of the manager resolves, then or ever after |
| ResourceManager.OpenChildResolves | src/api/visa_api.cpp:55-66 | a child registered with success resolves until the manager is closed or its user removes it |
| ResourceManager.OtherHandlesStay | src/core/objects.cpp:241-248 | closing removes no handle but the manager's own children |
| ResourceManager.RunKeepsInv | src/core/objects.cpp:64-84 | every live child is with the manager, its registration or a close at every point of every run |
| Prologix.PrologixController.Write | src/backends/gpib/prologix_provider.cpp:608-643 | the controller hears exactly the set-up if it was not known to be ready, the selection and the end mode if they were not known, and the data at the session's own address with its end mode; of that, a failed write leaves a prefix and nothing else; a write fails only at the gate, with a cancel, or for what the connection answered last |
| Prologix.PrologixController.Deliver | src/backends/gpib/prologix_provider.cpp:613-642 | selection, end mode and quoted data in turn, each of the first two skipped only when the controller really has the value |
| Prologix.PrologixController.Encode | src/backends/gpib/prologix_provider.cpp:630-641 | the escaping loop produces the quoted data and one line feed |
| Prologix.PrologixController.SelectAddress | src/backends/gpib/prologix_provider.cpp:827-838 | nothing is heard if the address is cached and one selection otherwise; on success the controller's own address is the session's |
| Prologix.PrologixController.SelectSendEnd | src/backends/gpib/prologix_provider.cpp:617-626 | nothing is heard if the end mode is cached and one command otherwise; on success the controller's own end mode is the session's |
| Prologix.PrologixController.EnsureReady | src/backends/gpib/prologix_provider.cpp:776-813 | a controller that is not ready hears exactly the set-up, or a prefix of it on failure; afterwards it is between two lines and nothing stale is cached |
| Prologix.PrologixController.SendSetup | src/backends/gpib/prologix_provider.cpp:784-792 | the text that the code puts together is the eight commands of the set-up with the configured numbers |
| Prologix.PrologixController.Read | src/backends/gpib/prologix_provider.cpp:587-606 | the controller hears exactly the set-up and selection that were needed and the request to read; the response is all that arrived, up to its end character |
| Prologix.PrologixController.TakeChunk | src/backends/gpib/prologix_provider.cpp:337-370 | an answer is accepted exactly if its delimiter is the last byte of the chunk that holds it and it is no longer than the maximum |
| Prologix.PrologixController.Clear | src/backends/gpib/prologix_provider.cpp:645-654 | the controller hears exactly the set-up and selection that were needed and the clear; it fails only for a reason the connection gave |
| Prologix.PrologixController.Trigger | src/backends/gpib/prologix_provider.cpp:656-663 | the controller hears exactly the set-up that was needed and a trigger that names the session's own device |
| Prologix.PrologixController.SerialPoll | src/backends/gpib/prologix_provider.cpp:665-696 | the controller hears exactly the set-up that was needed and a poll that names the session's own device; the status byte is the number in the one line that arrived |
| Prologix.StatusByteRoundTrip | src/backends/gpib/prologix_provider.cpp:682-692 | every status byte is read back from its numeral, with or without a carriage return, and no number beyond 255 is taken for one |
| PrologixSetup.SetupExactly | src/backends/gpib/prologix_provider.cpp:784-792 | a controller hears the set-up as it was sent, command by command and nothing else, if and only if no line was left unfinished |
| PrologixSetup.SetupSurvives | src/backends/gpib/prologix_provider.cpp:784-792 | behind any unfinished line only the first command suffers: it ends that line, as data exactly when the line spoils it, and all the others are heard |
| PrologixSetup.CutSelection | src/backends/gpib/prologix_provider.cpp:827-838 | a selection cut off before its line feed makes the next set-up select an address that no device has |
| PrologixSetup.CutWrite | src/backends/gpib/prologix_provider.cpp:630-642 | a write cut off behind any of its bytes still reaches the device, with the first command of the next set-up at its end |
| PrologixSetup.SuffixInjective | src/backends/gpib/prologix_provider.cpp:547-554 | two devices never have the same address suffix |
| PrologixSetup.SuffixReads | src/backends/gpib/prologix_provider.cpp:547-554 | the suffix reads back as the primary address and, behind a blank exactly if there is a secondary one, 96 plus that |
| PrologixWire.FeedData | tests/prologix_serial_tests.cpp:115-168 | escaped data and a line feed, given to an idle controller, are exactly that data, with the controller's address and end mode |
| PrologixWire.EscapeRoundTrip | tests/prologix_serial_tests.cpp:73-92 | decoding escaped data gives the data back |
| PrologixWire.EscapedIsNoCommand | tests/prologix_serial_tests.cpp:159-163 | no data can be taken for a command |
| PrologixWire.FeedCommand | tests/prologix_serial_tests.cpp:159-198 | a whole command line is heard as that command |
| PrologixWire.PartlyLogged | tests/prologix_serial_tests.cpp:115-157 | a write that arrives in part leaves a part of what the whole would have left |
| RpcRecord.RecordExact | src/backends/asio/request_channel.cpp:187-246 | a record cut into any fragments, empty ones included, is put together exactly, and refused exactly when its total exceeds the maximum; what follows is untouched |
| RpcRecord.AcceptedIsRecord | src/backends/asio/request_channel.cpp:187-246 | whatever is accepted was a record of fragments with that content, no longer than the maximum |
| RpcRecord.Request.ReadRecord | src/backends/asio/request_channel.cpp:187-246 | marker and fragment handlers in turn do that, and never hold more than the maximum |
| RpcRecord.ReadInvertsWrite | src/backends/asio/request_channel.cpp:200-202 | a 32-bit marker survives big-endian encoding |
| ChunkedWrite.CutExtends | src/backends/vxi11/vxi11_session.cpp:234-267 | sending one more chunk of the loop keeps the data cut at the maximum, in order, with the end mark only on the chunk that completes it |
| Vxi11Session.Session.Write | src/backends/vxi11/vxi11_session.cpp:226-273 | on success the chunks sent are the buffer, each full but the last, with the end flag only on the last and only if asked for; a failed write has sent a part of that, and fails with a cancel, a timeout or the last call's own failure |
| Vxi11Session.Session.Read | src/backends/vxi11/vxi11_session.cpp:275-375 | exactly the bytes of the recorded replies have arrived, and they are conserved on success and on every failure however the device behaves; plain SUCCESS follows an end flag; a read fails only with a cancel, a timeout or the last reply's failure; every call asks for the bytes still missing up to the maximum, with the reader's options, and none is made once the read is full, has its termination character or has met an end; if every reply kept to the protocol the status says where the data ends |
| Vxi11Session.Session.Transfer | src/backends/vxi11/vxi11_session.cpp:305-361 | call after call: what the recorded replies brought is with the reader or in the read-ahead |
| Vxi11Session.Session.Distribute | src/backends/vxi11/vxi11_session.cpp:340-356 | a chunk goes to the reader up to a termination character or the count and the rest to the read-ahead |
| HiSlipSession.Session.Write | src/backends/hislip/hislip_session.cpp:290-334 | on success the messages sent carry the buffer, each full but the last, with the end only on the last and only if asked for, and no read-ahead is left; a failed write has sent a part of that or has cleared the connection, and fails with a cancel, a timeout or the last message's own failure |
| HiSlipSession.Session.Read | src/backends/hislip/hislip_session.cpp:336-432 | exactly the payloads of the recorded frames that fit have arrived, and they are conserved unless an exchange that was cut off cleared the connection or a frame was out of place, which closes the session; the peer is asked only while the read is not full, has no termination character and has met no end of a message; plain SUCCESS follows the end of a message; every failure is explained by a cancel or the last exchange |
| HiSlipSession.Session.Accept | src/backends/hislip/hislip_session.cpp:373-417 | a frame is accepted exactly if it is data that answers the last message or any; otherwise the session is closed |
| HiSlipSession.NextMessageId | src/backends/hislip/hislip_session.cpp:311-313 | numbers advance by two on 32 bits from 0xFFFFFF00, stay even and are never the wildcard |
| HiSlipSession.MessageIdsDiffer | src/backends/hislip/hislip_session.cpp:311-313 | no number recurs within 2^31 messages |
| HiSlipSession.Session.ResetAfterClear | src/backends/hislip/hislip_session.cpp:230-242 | after a clear numbering starts again and nothing is pending |

## Left out

- Attribute filters of find expressions: a second recursive-descent parser of the same shape and a
  direct evaluation of its tree; expressions with braces are outside `FindExpression.Find`.
- The write queue of the stream backend: the same queue discipline as the read queue, without
  read-ahead or restoring.
- Deadlines and liveness: an operation may complete with a timeout at any step, and nothing is claimed
  about when; a cancel that races a queued completion may put another read on the stream.
- FindMatcher.Matches: does not model the recursion depth of the matcher, only its result.
- GpibSession.Session.Read: bytes of a transport that answers more than it was asked for, or nothing at
  all without an end, are not counted as arrived, because the code drops such an answer.
- UsbTmcSession.Session.Read: the end flag that a cancelled read had consumed is not restored by the
  code, so only bytes are conserved.
- HiSlipSession.Session.Read: end marks are not restored either, and the bytes a read holds when a
  frame out of place closes the session are dropped, as the code does.
- Vxi11Session.Session.Read: that the status says where the data ends is claimed for a device that
  returns no more than it was asked for; one that does not can make a read report a termination
  character beyond the bytes it delivered. Reasons outside the three defined bits are not modelled.
- Vxi11Session.Session.Transfer: `patience` bounds the replies of one read, in place of the deadline:
  the call behind the last of them times out; so it does in `HiSlipSession.Session.Read`.
- SessionRelease.SoloLockIsHonest: with overlapping lock calls only `SessionRelease.OverRelease` says
  what happens, in terms of what the session owns at the second release.
- Prologix.PrologixController.Write: the gate that keeps transactions apart is modelled by each method
  being one transaction; the check for a size beyond the address space is not modelled.
- Prologix.PrologixController.Read: the response is whatever arrives before the end character, so a
  response that contains it is cut there; the connection's own read-ahead, which nothing ever fills, is
  not modelled.
- SessionClose.ClosedSessionOwnsNothing: what the backend does in `lock`, `unlock` and `close` is one
  step that may fail; agreement with locks on the remote side is not claimed.
- SessionDepth.DepthAccounts: claimed while the depth counter does not wrap around.
- The check of a transfer that its session may access the resource: a transfer of `SessionClose.dfy`
  begins where the check has passed.
- LockManager.Manager.Acquire: waiting is a call that returns no status yet and is repeated.
- ResourceManager.ClosedManagerHasNoChild: allocation failure of the table is one step that fails; the
  child's own close is not modelled beyond leaving the manager.
- HandleTable.Table.Insert: the check that an object has the type it is inserted under is left out, as the
  model takes the type from the object.
- `Operation`, the session registry and the closing of a manager are modelled on values, as state
  machines, because their interleavings are the point; there is no object with those fields.
- The queue of `RequestChannel`: it starts the next request even when the front one is already active,
  so no discipline follows from the code.
- Ordering of USB RAW reads: the code appends the tail of a chunk behind bytes still in the read-ahead.
- Discovery, serial and socket options, attribute tables, status texts, the C interface and the build.
