# Models of the network-programming labs

Under the sockets of these labs there are a few small algorithms whose behaviour over whole runs is
hard to see from any one function: a file transfer over a network that loses, repeats and reorders
datagrams; a search that enumerates every Sudoku solution on one board; queues shared by threads;
a base64 codec that may write over its own input; DNS names and messages; an archive with an XOR
checksum; the membership counters of a chat daemon. This project models each of them as the program
does it (imperative code as methods over arrays and fields, threads and the network as machines whose
runs take every interleaving) and proves what each is for. Where a promise fails, the code
is modelled as it is and the exact condition is proved under which it holds.

`dafny verify dfyconfig.toml` checks everything.

## Modules

| modules | what they are about |
|---|---|
| `Octets`, `Sequences`, `Runs` | octets, C strings; facts about sequences; runs of a step relation, used by every state machine |
| `Transfer`, `TransferNetwork`, `TransferRuns`, `TransferPrograms`, `TransferRefinement` | Lab 8: packets and the two programs' steps; the network and the invariant; theorems over runs; the programs themselves over their arrays; what every run is, seen from either program |
| `Sudoku`, `SudokuSolver` | Lab 9: the search as an enumeration of boards; the recursive in-place program and the commands it sends |
| `JobQueue` | Lab 7: workers and job list, one mutex and one condition variable |
| `ChatFraming`, `ChatSender`, `ChatThread`, `ChatDelivery`, `ChatCommands` | Lab 5: lines out of chunks; a queue and its sending thread; a client's chat thread; all threads together; the server that also takes commands |
| `Base64`, `Base64Standard`, `Base64Loops` | Labs 7 and 8: section 4 of RFC 4648 on bits; its text character by character; the two loops |
| `DnsNames`, `DnsEncoding`, `DnsMessages`, `DnsServer` | hw2: compressed names and their parser; the name encoder; messages of RFC 1035 and a reader for them; the server from query to response |
| `PakoChecksum`, `Pako`, `PakoPack` | Lab 2: the checksum and its lanes; the unpacker and the format; packing, for the round trip |
| `Irc`, `IrcDaemon` | hw1: clients, channels and counters; the handlers over the global arrays |

## Where the code and its documentation part

- The DNS parser resolves a compression pointer relative to the start of the name it copied (octet 12
  of the message), not to the start of the message as section 4.1.4 of RFC 1035 has it; the model
  follows the code, and `DnsServer.ReadingsDifferAtPointer` shows a query the two read differently.
- `Lab2/unpacker.cpp` puts no separator between the destination and the file name, never looks at the
  magic number, and computes the number of segments of a content, not of the whole PAKO file as
  `Lab2/README.md` words it; the model follows the code, which agrees with that file's example.
- QUIT of the IRC daemon leaves the channels' counters and the slot's current channel as they were.
- `b64decode` of an input without a single code gives one zero octet, not none.
- The Sudoku search compares only the cells it fills in, never two givens; a cell given as the digit 0
  is searched like a blank but never sent.

## Model

| member | source | states |
|---|---|---|
| TransferRuns.FilesArriveIntact | Lab8/server.cpp:84-112 | End-to-end safety: after any interleaving of sweeps, losses, duplicates and reorderings the directory holds only client files, each under its own name and byte for byte |
| TransferRuns.CounterTellsCompletion | Lab8/server.cpp:94-98 | In every reachable state a file's counter is the sum of its stored segments, and equals the size if and only if every segment is stored |
| TransferNetwork.CompletionByByteCount | Lab8/server.cpp:95-109 | For any honestly filled entry: counter at most the size, equal exactly when all slots are stored, and then the slots in order are the file |
| TransferNetwork.InvariantIsPreserved | Lab8/server.cpp:84-112 | Every step of client, server and network keeps the invariant (honest packets in flight, counters that fit, sound acks, intact files) |
| TransferRuns.TickedIsStored | Lab8/client.cpp:120-124 | Ack soundness: a segment the client marked done is stored by the server, or held by it in the step that stores it |
| TransferRuns.TickedIffAcknowledged | Lab8/client.cpp:118-124 | On every run a segment is marked done if and only if it was at the start or its acknowledgement has been received since |
| TransferRuns.AcknowledgedIsNotSentAgain | Lab8/client.cpp:107-124 | After its acknowledgement has been received a segment is never sent again |
| TransferRuns.StoredIffServed | Lab8/server.cpp:89-96 | On every run a segment is stored if and only if it was at the start or a packet for it has been handled |
| TransferRuns.SweepCovers | Lab8/client.cpp:107-125 | A sweep that never sends a segment has found it marked done when it passes it |
| TransferRuns.SweepSendsWhatIsMissing | Lab8/client.cpp:107-125 | No premature stop: a full sweep sends every segment the server still lacks at its end |
| TransferRuns.WrittenUnlessOpenFailed | Lab8/server.cpp:89-113 | On every run, for every non-empty file: it is in the directory if and only if all its segments are stored and no open of it failed in the step that completed it; and then with the client's bytes |
| TransferRuns.SweepWritesUnlessOpenFails | Lab8/client.cpp:78-128 | After one full sweep whose packets are all handled, each non-empty file is written, whole, if and only if no open of it failed, before or meanwhile, whatever befell the other files |
| TransferRuns.LossFreeSweepCompletes | Lab8/client.cpp:78-128 | So, when no open fails, such a sweep leaves every non-empty file written |
| TransferRuns.CanAlwaysFinish | Lab8/client.cpp:77-131 | From every state the network can have led to, a continuation writes exactly the non-empty files whose open has not failed by then |
| TransferRuns.AbandonedAtFailedOpen | Lab8/server.cpp:95-103 | A file becomes complete and unwritten in exactly the steps in which its open fails, and stays so in every step |
| TransferRuns.FailedOpenIsFinal | Lab8/server.cpp:84-103 | A file whose open failed at some step of a run is not in the directory at its end, whatever comes after |
| TransferRuns.LostAtItsOnlyOpen | Lab8/server.cpp:100-103 | The failing input: one file of one octet, stored and acknowledged, and never written |
| TransferPrograms.FileServer.Receive | Lab8/server.cpp:72-115 | One turn of the receive loop over the real arrays does what the machine's step does, and sends one ack, two for a duplicate |
| TransferPrograms.FileServer.WriteOut | Lab8/server.cpp:103-110 | The file is opened for appending and gets the slots in order, nothing else |
| TransferPrograms.Strmncpy | Lab8/client.cpp:36-49 | The n octets from m on and a terminator; the rest of the target stays |
| Transfer.NameIsSixDigits | Lab8/client.cpp:94-95 | The name of file f is its six decimal digits |
| Transfer.WhatIsSendable | Lab8/client.cpp:33-33 | The files the theorems speak of: up to 1005, each of up to 32768 octets, none NUL |
| TransferPrograms.FileClient.SweepFile | Lab8/client.cpp:78-128 | One pass over a file's segments sends what the machine's client does given the same replies, and marks done exactly the segments acknowledged in its receives, one for each packet sent |
| TransferPrograms.FileServer.ReceiveAll | Lab8/server.cpp:72-115 | The receive loop over any packets: the server state and the acknowledgements, in order, that folding the machine's handling gives |
| TransferRefinement.ClientDoesItsProgram | Lab8/client.cpp:107-125 | In every run, under any interleaving, as long as the client is at one file: what it sends and becomes is what the program's pass gives for the replies and time-outs the run brought it, whatever replies come later |
| TransferRefinement.PassIsTheProgram | Lab8/client.cpp:107-125 | For a run that takes the client past the file's last segment, the program's pass given those replies ends with the same bit table and has sent the same packets |
| TransferRefinement.ServerDoesItsProgram | Lab8/server.cpp:72-115 | In every run the server is what the receive loop makes of the packets whose turns are over, and it has sent the loop's acknowledgements in the loop's order, and the first of the turn under way |
| TransferRefinement.NetworkGetsWhatIsSent | Lab8/server.cpp:84-92 | In every step the packets and acknowledgements in flight grow by exactly what that end sends, a second acknowledgement for a duplicate included, and shrink by what it receives |
| Sudoku.SearchIsExact | Lab9/solver.cpp:48-78 | The boards reached at 81 are exactly the completions without a conflict at a blank cell |
| Sudoku.SearchIsIncreasing | Lab9/solver.cpp:68-73 | They come in strictly increasing lexicographic order, so none comes twice |
| Sudoku.SearchFindsTheSolutions | Lab9/solver.cpp:48-78 | With consistent clues they are exactly the solutions by the rule of the game (every digit in every row, column and box) |
| Sudoku.ReachedIsSolvedIffCluesConsistent | Lab9/solver.cpp:66-77 | A reached board is a solution if and only if the clues were consistent |
| Sudoku.ConflictingCluesAreReached | Lab9/solver.cpp:66-77 | The failing input: a board of equal givens is reached and is no solution |
| Sudoku.LegalIsSolved | Lab9/solver.cpp:17-47 | Absence of conflicts cell by cell is the rule of the game |
| SudokuSolver.Solver.IsPlace | Lab9/solver.cpp:17-47 | The three scans answer yes if and only if no peer of the cell has its value |
| SudokuSolver.Solver.Backtrace | Lab9/solver.cpp:48-78 | The in-place recursion restores the board, reaches the boards of the enumeration in order, and sends their commands |
| SudokuSolver.Solver.Play | Lab9/solver.cpp:95-130 | The session of a serialised board: what is reached, and every command from request to check |
| SudokuSolver.CellOfCharacter | Lab9/solver.cpp:108-116 | A cell is loaded as v in 1..9 if and only if its character is the digit v; a dot or a zero digit as 0; only dots are flagged |
| SudokuSolver.ParsedSerialized | Lab9/solver.cpp:108-116 | Round trip: any board of 0 to 9 written as dots and digits behind four characters is read as that board, its blanks flagged |
| SudokuSolver.ReplayLeavesTheLastBoard | Lab9/solver.cpp:50-60 | Replaying all commands leaves the last board reached if and only if no blank was written as the digit 0 |
| SudokuSolver.ZeroDigitIsNotSent | Lab9/solver.cpp:50-60 | The failing input: a board with one cell given as the digit 0 is completed, and the commands do not leave the completion |
| SudokuSolver.SessionWritesOnlyBlanks | Lab9/solver.cpp:108-116 | No command touches a given |
| SudokuSolver.UniquePuzzleIsSolved | Lab9/solver.cpp:80-131 | A puzzle with one solution is reached once and left solved on the server |
| SudokuSolver.PuzzleIsSolved | Lab9/solver.cpp:80-131 | The same on the board: a puzzle with one solution, as the game server writes it, is left solved |
| JobQueue.NoLostWakeup | Lab7/webcrawler.cpp:97-131 | For any number of workers, in every reachable state in which some worker sleeps, jobs are at most signalled workers plus notifications owed |
| JobQueue.FirstInFirstOut | Lab7/webcrawler.cpp:104-128 | On every run the jobs workers hold after taking them are, in order, the first of the jobs brought by the threads in the order of their pushes; the others are in the list; the process has ended itself if and only if more than 16 were pushed |
| JobQueue.LeavesOnEmptyJob | Lab7/webcrawler.cpp:114-116 | A worker has left if and only if it got an empty job and let go of the mutex |
| JobQueue.StatusIsLastReport | Lab7/webcrawler.cpp:33-39 | On every run a worker's status is the last message it has reported |
| JobQueue.BlockedMeansEmpty | Lab7/webcrawler.cpp:97-131 | When no thread can move by itself, the list is empty or all workers have left |
| JobQueue.NextJobCanBeServed | Lab7/webcrawler.cpp:97-119 | From every reachable state with a queued job, given at least one worker and no empty job (on which a worker leaves), the system can by itself take the next one |
| JobQueue.AtMostOneInside | Lab7/webcrawler.cpp:102-129 | Never are two threads inside the mutex |
| JobQueue.Crawler.TakeFront | Lab7/webcrawler.cpp:104-108 | A worker's look at the list, on the program's fields, is the machine's: the first job, or none |
| JobQueue.Crawler.AddJob | Lab7/webcrawler.cpp:121-131 | The main thread's push, on the program's fields, is the machine's: the job at the end, the count up, the process ended past 16 |
| ChatFraming.HandleRecv | Lab5/test.cpp:80-133 | Whatever the chunks, exactly the newline-terminated lines of the whole stream are broadcast, each prefixed once, and the unfinished tail is kept |
| ChatFraming.CutsAreUnique | Lab5/test.cpp:96-127 | A stream has only one reading as lines and a tail |
| ChatFraming.LinesOfOne | Lab5/test.cpp:100-107 | "hi" and a newline from alice goes out as "alice:hi" and a newline |
| ChatSender.QueueCanBeDrained | Lab5/test.cpp:38-77 | A running sender can by itself get its whole queue accepted |
| ChatSender.MessageQueue.SendFront | Lab5/test.cpp:53-72 | For any partial sends: bytes accepted and bytes left make up the message, and it leaves the queue when nothing is left |
| ChatDelivery.BytesAreDelivered | Lab5/test.cpp:38-127 | Under every interleaving and all partial sends, bytes accepted, the rest of the message under way and the queue are together the messages pushed, in order |
| ChatDelivery.EachSenderInOrder | Lab5/test.cpp:110-123 | A recipient's queue history holds, for every sender, that sender's broadcasts in order without gap or repetition |
| ChatThread.DoingSpeaks | Lab5/test.cpp:80-133 | Octet by octet, however recv cuts the stream: what the chat thread has broadcast and what is due are the greeting, the prefixed lines of all it has looked at, and the farewell |
| ChatDelivery.StreamIsDelivered | Lab5/test.cpp:80-187 | End to end, on every run: what one slot gets from another is an unbroken stretch of the other's greeting, the lines of what its socket received, each behind the name it arrived with, and its farewell |
| ChatDelivery.EveryLineIsDelivered | Lab5/test.cpp:80-187 | When a client is gone and its farewell out, a slot that was there before its first line and still is has been given every line the client sent behind the name it arrived with, in order and once, and the farewell |
| ChatDelivery.OwnNoticesInOrder | Lab5/test.cpp:136-148 | From itself a slot has in its queue exactly the notices for its own client, in order |
| ChatDelivery.WaitingMeansEmpty | Lab5/test.cpp:43-48 | A sender waits only while its queue is empty |
| ChatCommands.FramingIsKeptWithoutCommands | Lab5/server.cpp:187-261 | With commands, the lines of the whole stream are said and its tail kept if and only if no received chunk is a command |
| ChatCommands.TextIsFramed | Lab5/server.cpp:187-261 | Whatever the chunks, what is said and kept is the text chunks cut into lines |
| ChatCommands.SaidUnderItsName | Lab5/server.cpp:224-246 | Whatever the chunks and renames, every line is said under the name its client had when the line's first octet came |
| ChatCommands.EveryCommandIsAnswered | Lab5/server.cpp:192-221 | Whatever the chunks, exactly the commands are answered, in order |
| ChatCommands.KindsOfCommands | Lab5/server.cpp:192-221 | `/who`, an unknown command and text that mentions one |
| ChatCommands.CutsMatter | Lab5/server.cpp:188-221 | One stream cut in two ways: in one of them its second line is lost |
| ChatCommands.RenameIsExact | Lab5/server.cpp:59-79 | The new name is what the client sent if and only if the octet behind the chunk was zero |
| ChatCommands.NameIsTaken | Lab5/server.cpp:59-79 | The same for every name written behind "/name " with one octet after it; nothing is said, the rename is answered |
| ChatCommands.RenameAfterTurns | Lab5/server.cpp:192-258 | After any chunks, the new name is what the client sent if and only if every chunk since the last text or rename was no longer than the rename (before the first of them, if also the octet behind it was zero from the start) |
| ChatCommands.LongCommandSpoilsName | Lab5/server.cpp:192-258 | The failing input: a rename right after a longer unknown command gives another name than was sent |
| ChatCommands.Receiver.OnChunk | Lab5/server.cpp:187-261 | The turn of the receive loop over the real buffer does one step of the session |
| Base64.RoundTrip | Lab7/base64.c:7-85 | decode(encode(x)) == x and the standard's length, for every non-empty x |
| Base64.CanonicalRoundTrip | Lab7/base64.c:7-85 | encode(decode(s)) == s if and only if s is canonical (alphabet, completing padding, zero fill bits) |
| Base64.JunkIsIgnored | Lab7/base64.c:56-57 | Characters outside the alphabet change nothing wherever they stand before a '=' |
| Base64.DecodedIsShorter | Lab7/base64.c:50-85 | Decoding a non-empty text gives fewer octets than it has characters if and only if it has two or more; in place, result and NUL then fit |
| Base64.AlphabetOfCode | Lab7/base64.c:40-48 | The case table inverts the alphabet |
| Base64Standard.EncodingIsTheStandards | Lab7/base64.c:7-38 | Every character of an encoding: the one at the place in table 1 of RFC 4648 that the next base-64 digit of the octets gives, and '=' up to a multiple of four |
| Base64Standard.CodeIsPlaceInTable | Lab7/base64.c:40-48 | The decoder takes a character for n if and only if it is the n-th of that table |
| Base64Standard.EndsAtPad | Lab7/base64.c:57-57 | Decoding ends at the first '=', whatever is behind it |
| Base64Loops.Encode64 | Lab7/base64.c:7-38 | The loop's output is the standard's encoding and a NUL; nothing behind is touched; an empty input leaves *outlen alone |
| Base64Loops.Decode64 | Lab7/base64.c:50-85 | For every input, junk included, and also when output is input, the result is the decoding and a NUL; nothing behind is touched |
| Base64Loops.DecodeLoop | Lab7/base64.c:56-80 | The write index never passes the read index, so reading is never disturbed in place |
| Base64Loops.ScanIsDecode | Lab7/base64.c:56-81 | The four-phase machine computes what regrouping all codes at once gives |
| Base64Loops.FeedIsEncode | Lab7/base64.c:14-34 | The three-phase machine and its closing give the standard's encoding |
| DnsNames.ParseName | hw2/dns.cpp:119-153 | Whenever the name ends, pointers that lead forward included, the parser appends the spelled name, nothing else changing |
| DnsNames.SpelledIsJoined | hw2/dns.cpp:119-153 | The spelled name is the fully expanded one, with one dot too many exactly when a label is followed by a pointer to the root |
| DnsNames.DotTooMany | hw2/dns.cpp:129-146 | The failing input: 01 61 C0 04 00 is the name a, and spelled with a dot too many |
| DnsNames.PointerIsTopBits | hw2/dns.cpp:114-116 | An octet is a pointer if and only if its two top bits are set |
| DnsNames.ParserEnds | hw2/dns.cpp:126-149 | The parser ends if and only if it ends within as many jumps as the buffer has octets, and this if and only if it neither comes back to an offset nor meets a run that stops at no zero and no usable pointer |
| DnsNames.DescendingPointersEnd | hw2/dns.cpp:129-134 | Names whose pointers lead to before their run, as RFC 1035 has them, end after at most as many jumps as the first run's offset |
| DnsNames.DescendingFromStartHasNoPointer | hw2/dns.cpp:269-270 | In the program's own call, at offset 0, such a name has no pointer at all |
| DnsNames.LoopsNeverEnd | hw2/dns.cpp:129-134 | A pointer to itself, and a label in front of a pointer back to it, are followed beyond every bound |
| DnsEncoding.StrToPkt | hw2/dns.cpp:155-180 | The loop gives the wire form of the dotted labels before the first NUL, CR or LF |
| DnsEncoding.TwoLabels | hw2/dns.cpp:155-180 | "a.bc." is encoded as 01 61 02 62 63 00 |
| DnsEncoding.EndsAtControl | hw2/dns.cpp:161-161 | What is encoded ends at the first NUL, line feed or carriage return |
| DnsEncoding.RoundTrip | hw2/dns.cpp:155-273 | For every name whose packet the parser finishes, labels of 128 octets and more included: parsing the packet and appending a dot gives the name if and only if it is well formed (labels of 1 to 127 octets, final dot) or the dot alone |
| DnsEncoding.LongLabelIsNotReadBack | hw2/dns.cpp:168-173 | A label of 128 octets or more, in reach of the reader, is never read back |
| DnsEncoding.LengthLaw | hw2/dns.cpp:155-180 | The packet is one octet longer than the name if and only if all of it is dotted labels |
| DnsEncoding.ZeroLaw | hw2/dns.cpp:168-177 | Its only zero octet is the last if and only if no label's length is a multiple of 256 |
| DnsEncoding.PrintedIsExact | hw2/dns.cpp:405-411 | The copy through sprintf and memcpy keeps a packet, whatever the array held, if and only if its only zero is its last octet |
| DnsMessages.GetMessage | hw2/dns.cpp:444-494 | A reader for sections 4.1.1 to 4.1.3 of RFC 1035, written from the standard, takes a written message out of its octets and nothing of what follows |
| DnsMessages.HighOctetFirst | hw2/dns.cpp:404-452 | 16 and 32 bit numbers go out with the high octet first |
| DnsServer.AddressAnswer | hw2/dns.cpp:403-495 | The octets sent for a known host are, to that reader, exactly the message meant: counts, RDLENGTHs, question, address and name server, none left over |
| DnsServer.NegativeAnswer | hw2/dns.cpp:500-613 | The same for an unknown host: no answer, the SOA record, the question by the length of the query's name |
| DnsServer.ServerAnswer | hw2/dns.cpp:675-763 | The same for an NS question |
| DnsServer.AuthorityAnswer | hw2/dns.cpp:835-944 | The same for an SOA question |
| DnsServer.TakeQuestion | hw2/dns.cpp:250-282 | For every query whose name ends: the name is the spelled one with its dot, type and class are the octets at 12 + qname_len + 1 |
| DnsServer.EndlessQueries | hw2/dns.cpp:253-270 | Queries whose name begins C0 00, or 01 61 C0 00, are parsed without end |
| DnsServer.ForwardPointerIsFollowed | hw2/dns.cpp:253-273 | A query for 01 61 C0 04 01 62 00 is taken to ask for a.b. |
| DnsServer.ReadingsAgreeWithoutPointers | hw2/dns.cpp:129-134 | A reader of section 4.1.4 of RFC 1035, which counts offsets from the start of the message, finds the labels the program takes from every well-formed query without pointers |
| DnsServer.ReadingsDifferAtPointer | hw2/dns.cpp:129-134 | On a query for 01 61 C0 04 01 62 00 that reader finds the name a where the program takes a.b. |
| DnsServer.QueryIsUnderstood | hw2/dns.cpp:250-282 | From every well-formed query the name, type and class asked are taken |
| DnsServer.Serve | hw2/dns.cpp:250-944 | From the octets of a query to those of the response: they are, to the reader of RFC 1035, the message meant for its name, type and id (types A, NS and SOA) |
| DnsServer.HeaderOfResponse | hw2/dns.cpp:444-450 | The response begins with the query's id, the flags 85 00 and the counts of its records |
| DnsServer.HostIsAnswered | hw2/dns.cpp:403-495 | A resolver that asks for the address of a host of the zone reads in the response that name, type A, class IN, the host's TTL and address, and the zone's name server |
| DnsServer.UnknownHostIsAnswered | hw2/dns.cpp:500-613 | For a host the zone does not have it reads no answer and the zone's SOA record |
| DnsServer.ServerIsAnswered | hw2/dns.cpp:675-763 | For the zone's name server, when its name is one label in front of the zone, it reads that name and its address |
| DnsServer.AuthorityIsAnswered | hw2/dns.cpp:835-944 | For the zone's SOA record it reads that record and the zone's name server |
| DnsServer.QuestionIsEchoed | hw2/dns.cpp:389-457 | The response to a well-formed query repeats its question octet for octet if and only if the class was IN and the name was the zone's own (for type A: not known as a host) or, for type A, one label in front of the zone |
| DnsServer.TwoLabelsInFront | hw2/dns.cpp:389-408 | A type A query for a.b.zone is answered about a.zone, and its question is not repeated |
| DnsServer.FirstTokenIsLabel | hw2/dns.cpp:389-390 | strtok takes the first label of a well-formed name |
| PakoChecksum.XorOfContent | Lab2/unpacker.cpp:56-86 | The streamed XOR, with the segment pushed at the end even when empty, is the checksum of the format |
| PakoChecksum.LaneOfChecksum | Lab2/unpacker.cpp:62-86 | Each byte of the checksum is the XOR of every eighth byte of the content |
| PakoChecksum.SampleChecksum | Lab2/README.md:50-54 | The file f2 of the format's sample archive has the checksum given there |
| PakoChecksum.DamageIsDetected | Lab2/unpacker.cpp:56-92 | Contents of one length that differ only inside some eight consecutive bytes never have the same checksum |
| Pako.Unpack | Lab2/unpacker.cpp:27-120 | The cursor visits entry i at 16 + 20 (i - 1) for every i, and the destination is what writing the intact ones of those files in order gives |
| Pako.TakeEntry | Lab2/unpacker.cpp:38-115 | One round: name and content by offset, written exactly when the stored checksum matches, cursor at the next entry |
| Pako.FieldsOfHeader | Lab2/README.md:14-17 | The three numbers of the header, byte by byte |
| Pako.FieldsOfEntry | Lab2/README.md:25-28 | The four fields of an entry, byte by byte: size and checksum with the high byte first |
| Pako.PackedIsExtracted | Lab2/README.md:11-30 | From any archive laid out as the format says, the entries give exactly the packed files, in order |
| Pako.ExactlyTheIntactFiles | Lab2/README.md:56-56 | With distinct names the destination holds exactly the files whose stored checksum is right, with their contents |
| PakoPack.PackPacks | Lab2/README.md:11-30 | Files packed by the format's layout (header, entries, string and content section, both byte orders) are an archive of it |
| PakoPack.BeginsWithPako | Lab2/README.md:14-14 | What is packed begins with the letters P, A, K, O |
| PakoPack.UnpackedPack | Lab2/README.md:11-56 | Round trip: unpacking finds in what was packed the same files, names, contents and checksums, in order |
| Pako.DamagedFileIsLeftOut | Lab2/unpacker.cpp:92-110 | A file damaged inside eight consecutive bytes after packing is not written |
| Irc.TruthIsKeptUnlessMiscounted | hw1/server.cpp:118-300 | From true counters a command leads to true counters if and only if it is not a second JOIN of another than the current channel, a PART from outside or a QUIT from inside |
| Irc.RunsCountUnlessMiscounted | hw1/server.cpp:118-300 | On any run the counters are true in every state if and only if no command was one of these |
| Irc.QuitLeavesTheCounter | hw1/server.cpp:291-300 | The failing input: after a connection, a JOIN and a QUIT the channel still counts the client |
| Irc.OrderlyRunsCount | hw1/server.cpp:118-300 | When clients join only what they are not in, part only what they are in, and part all before QUIT, every counter is always the number of clients online holding the channel, and names stay distinct |
| Irc.StructureIsKept | hw1/server.cpp:118-418 | Whatever is sent, every command keeps: distinct names, slots and ids agree, held channels are listed, the number online is right |
| Irc.OrderlyJoinTakesEffect | hw1/server.cpp:118-170 | On orderly runs every JOIN of a named channel takes effect, in reused slots too |
| Irc.SlotFollowsCommands | hw1/server.cpp:48-300 | On every run a slot's nickname is the one last taken since QUIT, and its current channel the one last joined and not parted since |
| Irc.TopicFollowsCommands | hw1/server.cpp:118-235 | On every run a channel is listed exactly since its first JOIN, with the topic last set |
| Irc.MembershipFollowsCommands | hw1/server.cpp:118-193 | On orderly runs a slot holds exactly the named channels it joined and did not part from since |
| Irc.EachOtherMemberOnce | hw1/server.cpp:327-338 | A message reaches every other client online in the channel exactly once and nobody else |
| Irc.MessagesReachOnce | hw1/server.cpp:327-338 | On every run, whatever was sent before: a message goes to every other member exactly once and to nobody else |
| IrcDaemon.Daemon.Join | hw1/server.cpp:118-170 | The handler over the global array and list does the machine's JOIN |
| IrcDaemon.Daemon.Part | hw1/server.cpp:172-193 | The same for PART |
| IrcDaemon.Daemon.Quit | hw1/server.cpp:291-300 | The same for QUIT; the counters stay |
| IrcDaemon.Daemon.Accept | hw1/server.cpp:408-422 | A connection takes the first slot without a descriptor |
| IrcDaemon.Daemon.PrivMsg | hw1/server.cpp:327-338 | The nested loops write to the receivers, in slot order |

## Left out

- Sockets, select, thread creation, file opening other than its failure in Lab 8, timestamps and the wording of notices: datagrams are a multiset, sockets are sequences of octets, a notice is a message like any other.
- Lab 8: corrupted datagrams count as lost; files with NUL octets, empty files and files over 32 segments are outside the theorems (the server uses strlen, no packet is sent for an empty file); a file that cannot be opened on the client's side.
- Lab 9: the server's replies to commands; FillBlank is the blank branch of `backtrace` as a method of its own.
- Lab 7: what a job does (`do_job`), the menu, the proof of work that decodes in place.
- Lab 5: a failed send that returns with its mutex held, teardown destroying a mutex somebody holds (a stopped sender's mutex counts as free), a queue left over in a reused slot, the text of `/who`; the 100-octet arrays notices and prefixes are printed into (a longer command is handled as if they were long enough); in `ChatCommands` a buffer without any NUL ends at its last octet.
- Base64: the null output pointer; the alphabet is given by its five ranges instead of the table.
- DNS: zone files and their matching, strtok's splitting of them, `inet_pton`, forwarding, AAAA and TXT answers; which zone a query belongs to; the hosts of a zone are a map; the 50-octet name arrays appear as size preconditions.
- DnsServer.TakeQuestion: needs the name to fit 100 octets as sent and 127 as spelled, and at most 100 octets behind it; the program's arrays have these sizes and no check.
- PAKO: names of 100 octets or more, sizes of 2^31 or more, and entries cut off by the end of the file are outside the precondition; a destination that cannot be opened.
- IRC: NAMES, LIST, USERS, PING and the replies; a hundred and first connection, for which the program leaves its server loop.
- Irc.OrderlyJoinTakesEffect: leaves out the channel with the empty name, which a client without a current channel cannot join once it exists.
- Lab 1, Lab 3, Lab 4, Lab 6, Lab 10, the oracle programs and `decrypt.cpp`: plumbing, exercises against foreign services, or duplicates.
