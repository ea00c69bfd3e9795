# Verified model of aspr1net

aspr1net is a single-threaded TCP client and server that answer `ping` and move files both
ways, on a port of the Redis `ae` event loop over epoll. This Dafny project models its
buffers, argument tokenizer, wire format, retry loops, event loop, timers, server and client,
and proves what they do on every input, in every reachable state and over every run.
`dafny verify dfyconfig.toml` checks all of it.

## Layout

Specifications and laws, as values:

- `Bytes.dfy`: bytes, C strings, `strncpy`, little-endian `size_t`.
- `ArgumentLaws.dfy`: the words a line has, the print/parse round trip, and when a command
  the client rebuilds is read the same by the server.
- `Framing.dfy`: files as runs of packages, and what a receive loop takes off a stream.
- `Protocol.dfy`: the command tables, requests and replies as bytes, and `Serve`, one
  readable event of the server as a function on bytes.
- `Replies.dfy`: the client's reading of a reply, by single reads and as a whole.
- `SerialOrders.dfy`: what any number of clients and the server come to when commands are
  carried out one at a time, in every order.
- `Sides.dfy`: one client, its connection and the two streams between them as a transition
  system with its invariant.
- `Session.dfy`: all clients on one server, every reachable state and every run.
- `LoopModel.dfy`, `Dispatch.dfy`, `ServerTable.dfy`: the registration table with the
  kernel's interest set, one dispatch batch, and the registrations a server may hold.
- `ServerSteps.dfy`: the server between handlers as a value, what each handler makes of it,
  and that these are the server's steps in a session.

Objects updated in place, each method proved against those specifications: `Buffers.dfy`,
`Arguments.dfy`, `Sockets.dfy`, `Transfer.dfy`, `EventLoop.dfy`, `Timers.dfy`,
`Connections.dfy` (the server's `client_t`), `Server.dfy`, `Client.dfy`.

The main results are `Session.Synchrony`, `Session.EveryRunDelivers` and their converse
`Session.EveryOrderHappens` (under every interleaving of any number of clients the system
does what some serial order of the commands does, every run ends, and it is known which
clients are left waiting), `Session.IndependentDelivers`, `Server.Server.Run` and
`Server.Server.ProcessEvents` with `Dispatch.BatchLaws` and `Dispatch.ServedExactly` (no
handler is ever handed a freed client), `Framing.FileRoundTrip` and `Framing.ReceiveAll`,
`ArgumentLaws.PrintParseRoundTrip`, `Buffers.WriteExactly`, `LoopModel.CallsLand`,
`Timers.SleepBound`, and `Protocol.UploadReachesExactly`. `Server.Server.Run` says that any
run of the server object is a chain of the steps of `ServerSteps.dfy`, which
`ServerSteps.ReadIsStep` and `ServerSteps.WriteIsStep` identify with the server's half of a
session; `Client.Client.Process` states the client's half by the words typed.

The session theorems are about setups that are `Sound`: in whatever order commands are
carried out, no client comes to a blank line or names a file that is missing, and every
upload names a path. `SerialOrders.ExistingIsSound` gives a condition that can be read off
the lines and the files at the start; `SerialOrders.BlankIsNotSound` says that blank lines
are out.

## Assumptions

- A stream delivers the bytes written to it in order. A client read returns any nonempty part
  of what it asks for. A raw read of the server (`server.cpp:41,44,112,115`) returns all it
  asks for unless the stream ends: `Sockets.Socket.FullRead`, and in a session
  `Protocol.Arrived`, which enables the readable event.
- In a session all clients are connected from the start, and a handler that sends replies
  finds room for them: a client that waits for a reply always reads on.
- The sockets of client and server do not fail (`Socket.reliable`); `AnetRead` and `AnetWrite`
  themselves are also specified on sockets that do.
- Where the original has no defined behaviour (a truncated or oversized package, a blank
  command, a missing file) the model has an outcome of its own (`Fault`, `Broken`, `crashed`)
  and says no more. A session never gets there.
- A pointer to a freed client is one to an object no longer in the server's `live` set.

## Results that contradict the code's intent

- `buffer_t::write` asks `extend` for the shortfall only, and `extend` does not grow if that
  shortfall fits into the free bytes. With W = `_size` - 8 the write runs past the buffer for
  W <= length < 2W, and for longer payloads the header is lost if a nonzero byte of the length
  follows a zero one, since growth copies with `strncpy`. `Buffers.WriteExactly` is the exact
  domain and `Buffers.WriteFails` an input on each side; no command within the 127 characters
  of a line leaves the good part (`Protocol.TypedCommandFits`).
- The comment that `_buff[_write_idx]` is always NUL (`buffer.hpp:12`) holds after `write` and
  the server's receive paths, which store it. After construction, `reset`, `shrink`, a growing
  `extend` and the client's `recv` it holds exactly if a NUL was there before, as each contract
  states; the `reset` after every request the client sends loses it for every length that is not
  a multiple of 256 (`Buffers.WriteThenReset`).
- The client sends a file name unescaped. The server reads the same two words exactly if the
  name has no space (`ArgumentLaws.RebuiltCommand`, `Protocol.SeenExactly`); an upload reaches
  its path exactly if moreover more than seven characters are there to lose
  (`Protocol.UploadReachesExactly`).
- A download under a name that the server reads as no word or several is rejected with nothing
  queued or armed, while the client, which has emptied the file already, waits. A session leaves
  a client stuck exactly if one of its lines is such a download
  (`Protocol.DownloadOutcome`, `Session.EveryRunDelivers`).
- `process(const std::string&)` returns exactly on strings without an embedded NUL
  (`ArgumentLaws.StringOverloadReturns`).
- Registering an unregistered descriptor for no event at all is the one operation that makes
  the loop and the kernel disagree (`LoopModel.ApplyAgreesExactly`).
- A negative delay that borrows from the current second (now's milliseconds plus the delay's
  remainder below zero) makes a deadline that is not normalised. Exactly such deadlines can be
  misordered by the nearest-timer scan (`Timers.MadeIs`, `Timers.OrderedExactly`), and
  `Timers.MissedTimer` is a queue on which it returns the later of two.

## Model

| member | source | states |
|---|---|---|
| Bytes.StrNCpyFaithful | buffer.cpp:44 | the copy made on growth is faithful exactly to byte strings with nothing after a NUL |
| Bytes.LeRoundTrip | package.hpp:11-13 | an integer that fits k bytes survives its little-endian encoding |
| Bytes.DecodeRoundTrip | package.hpp:11-13 | k bytes are the encoding of the integer they decode to, which is below 256^k |
| Bytes.Le64RoundTrip | package.hpp:11-13 | every `size_t` survives the eight header bytes |
| Bytes.LeDigits | package.hpp:11-13 | byte i of an integer is its digit to the base 256, least significant first |
| Buffers.WriteExactly | buffer.cpp:58-70 | a write stays in bounds iff length < W or length >= 2W, and leaves the intended package iff moreover the header survives growth |
| Buffers.WriteFails | buffer.cpp:64-65 | a length that overruns a fresh buffer, and one that loses its header |
| Buffers.FrameLayout | buffer.cpp:58-70 | a package is eight digits of its length to the base 256, then the payload |
| Buffers.StrNCpyInto | buffer.cpp:44 | the loop copies up to the first NUL and pads with NULs |
| Buffers.Buffer.constructor | buffer.cpp:10-13 | a fresh buffer is empty, valid and of the default size; its terminator is whatever byte the allocation starts with |
| Buffers.Buffer.Shrink | buffer.cpp:29-36 | the readable bytes move to offset 0 unchanged; they are terminated afterwards iff the byte at their length was NUL |
| Buffers.Buffer.Extend | buffer.cpp:37-48 | grows by exactly the asked bytes, and only if fewer are free; growing keeps the readable bytes as `strncpy` does, terminated iff they hold a NUL or the byte at their length is one; afterwards the asked bytes are free |
| Buffers.Buffer.Ending | buffer.cpp:49-53 | terminates the readable bytes if there is room, without changing them |
| Buffers.Buffer.Reset | buffer.cpp:54-57 | both indices return to 0 and the allocation stays; the terminator is there iff the first byte is NUL |
| Buffers.WriteThenReset | client.cpp:118-127 | after a write and the reset of `flush_2_server` the documented terminator is there iff the length is a multiple of 256 |
| Buffers.Buffer.Write | buffer.cpp:58-70 | succeeds iff the length is in the domain, and then holds header and payload with a NUL behind, in a buffer of the old size or of length + 9 |
| Buffers.Buffer.WriteInteger | buffer.cpp:71-83 | holds the integer as a package of eight bytes with a NUL behind, never growing |
| Arguments.Arg.ProcessPointer | arguments.hpp:26-65 | the pointer scanner with fall-through and splicing yields the recursive tokenizer's words, terminates, and reads nothing past the terminator |
| Arguments.Arg.ProcessString | arguments.hpp:66-103 | the iterator overload yields the same words on NUL-free strings |
| Arguments.Arg.WordPointer | arguments.hpp:38-63 | the inner loop reads exactly one word, backslash-space as a space, with or without a spliced prefix |
| ArgumentLaws.TokensAreTokens | arguments.hpp:31-63 | every argument is nonempty, free of TAB, CR, LF and NUL, and does not start with VT or FF |
| ArgumentLaws.StringOverloadReturns | arguments.hpp:70-102 | the outer loop of the string overload ends iff the string has no NUL, and then with the tokenizer's words |
| ArgumentLaws.PrintParseRoundTrip | arguments.hpp:26-65 | escaping, joining and tokenizing gives the list back iff each argument is a token and, before a space separator, none ends in a backslash |
| ArgumentLaws.WordWeight | arguments.hpp:48-53 | every space inside a word cost two characters of input, and no character is lost |
| ArgumentLaws.BlankSkipped | arguments.hpp:31-34 | space and the characters 9 to 13 are skipped in front of a word |
| ArgumentLaws.EscapedIsSoleToken | arguments.hpp:38-63 | a name typed with a backslash before each space is one word |
| ArgumentLaws.RebuiltCommand | client.cpp:49-52 | the server reads the rebuilt command as the same command and name iff the name has no space |
| ArgumentLaws.RebuiltCommandFails | client.cpp:49-52 | an escaped space typed at the client makes two words at the server |
| Framing.ChunkShape | server.cpp:231-243 | n / 1015 + 1 packages, all of 1015 bytes but the last, which has n mod 1015, and together the file |
| Framing.FileOnWire | client.cpp:53-67 | a file on the wire, byte for byte: the count as a package, then part i of 1015 bytes at offset 16 + 1023 i as a package; 8 bytes a package on top of the file |
| Framing.TakeFrameOfFrame | client.cpp:41-48 | a package is received as sent, and the stream left right behind it |
| Framing.ReceiveStops | client.cpp:77-82 | the receive loop on any packages takes those up to the first empty one and leaves the rest |
| Framing.ReceiveAll | client.cpp:77-82 | breaking on an empty package receives everything iff only the last package can be empty |
| Framing.FileRoundTrip | client.cpp:76-82 | count and packages of a file are received as the same file, the stream left right behind, for every length |
| Sockets.Socket.Read | anet.cpp:368 | a read takes any nonempty part of the stream, 0 only at its end |
| Sockets.AnetRead | anet.cpp:365-380 | under any short reads the first min(count, available) bytes arrive in place and nothing else is touched; -1 only on failure, and then too what left the stream is in the buffer |
| Sockets.AnetWrite | anet.cpp:384-399 | under any partial writes exactly the returned prefix goes out, all of it on a reliable socket, and on failure still a prefix |
| Transfer.InFile.Fread | client.cpp:57 | reads what is there and sets end-of-file iff more was asked for |
| Transfer.PackOne | client.cpp:56-63 | one chunk as a terminated package in a fresh buffer, short exactly at the end of the file |
| Transfer.PackFile | server.cpp:231-243 | the feof loop ends and holds the packages of the whole file in order |
| Transfer.RecvInteger | client.cpp:132-138 | under any short reads the integer package is decoded and exactly its bytes consumed |
| Transfer.WriteAll | client.cpp:121-123 | the buffer list goes out in order and whole |
| Transfer.PackUpload | client.cpp:53-67 | count package first, then the packed file |
| Transfer.FileStreamPackages | client.cpp:65-67 | the packages of an upload are the file's stream |
| LoopModel.ApplyAgreesExactly | ae.cpp:80-126 | table, highest descriptor and interest set keep agreeing, except after an ADD with no event of an unregistered descriptor |
| LoopModel.CallsLand | ae_epoll.hpp:53-95 | over any history of add, del and resize no MOD targets an absent descriptor and no ADD a present one; a DEL that misses changes nothing |
| LoopModel.ResizeKeeps | ae.cpp:148-167 | a resize fails iff a registered descriptor would not fit, and otherwise keeps every registration |
| LoopModel.ResizeByEntries | ae.cpp:148-167 | entry by entry: registered ones stay, new ones are empty, and it fails iff some registered one would be cut off |
| LoopModel.DeleteTwice | server.cpp:172-173 | the destructor's two deletions leave nothing of the descriptor and everything of the others, and repeating them has no effect |
| LoopModel.ScanDown | ae.cpp:118-124 | the downward scan finds the greatest registered descriptor at or below its start, or -1 |
| EventLoop.Loop.AddFileEvent | ae.cpp:80-103 | AE_ERR exactly beyond the table or for an unregistered descriptor the kernel has no room for, with nothing changed; otherwise the asked bits, their handlers and the data go into the entry, the kernel has its mask, and no other entry changes; the loop stays in order iff it is not an add of an unregistered descriptor for no event |
| EventLoop.Loop.DelFileEvent | ae.cpp:104-126 | each bit is left iff it was set and not asked for, no other entry changes, the kernel has the mask left or drops the descriptor, and the highest descriptor is again exact |
| EventLoop.Loop.GetFileEvent | ae.cpp:127-130 | the mask of a descriptor, none beyond the table |
| EventLoop.Loop.Resize | ae.cpp:148-167 | fails, with nothing changed, iff a registered descriptor would be cut off; otherwise keeps every registration, with all three arrays of the new size |
| EventLoop.Loop.Poll | ae.cpp:249-273 | reported events arrive in order and within bounds: readable iff EPOLLIN, writable iff EPOLLOUT, EPOLLERR or EPOLLHUP |
| EventLoop.EpollState.AddEvent | ae_epoll.hpp:53-69 | succeeds exactly for an absent descriptor the kernel has room for; failure changes nothing |
| EventLoop.EpollState.ModEvent | ae_epoll.hpp:70-82 | a present descriptor gets the mask; an absent one changes nothing |
| EventLoop.EpollState.DelEvent | ae_epoll.hpp:83-95 | the descriptor is gone, whether it was there or not |
| EventLoop.EpollState.Resize | ae_epoll.hpp:44-52 | the event array has the new size and the interest set stays |
| Dispatch.BatchLaws | ae.cpp:206-222 | for any handlers: each call is for the fired descriptor and bit of its entry and goes to what is registered for it at that moment, calls follow the batch with readable first, and no bit is served twice |
| Dispatch.ServedExactly | ae.cpp:206-222 | over a whole batch a call is made for exactly the fired bits registered when their turn comes, but for a writable one whose handler was just called for the readable one |
| Timers.NewTimeEvent | ae.cpp:29-42 | both deadline fields: a carry goes to the seconds, a borrow does not |
| Timers.TruncExactly | ae.cpp:33-34 | quotient and remainder by 1000 as C++ has them |
| Timers.MadeIs | ae.cpp:29-42 | the deadline is exactly now plus the delay, and normalised iff the delay does not borrow; no nonnegative delay does |
| Timers.BeforeIsEarlier | ae.cpp:241-243 | on normalised deadlines the comparison is comparison in time |
| Timers.OrderedExactly | ae.cpp:241-243 | a deadline the constructor can make is ordered rightly against every normalised one iff it is normalised itself |
| Timers.MissedTimer | ae.cpp:131-135 | two timers made through the queue, of which the scan returns the later |
| Timers.HistoryNormalises | ae.cpp:131-144 | after any history of additions and deletions all deadlines are normalised iff no addition borrowed |
| Timers.HistoryKeepsIds | ae.cpp:131-144 | over any history ids are distinct, decrease from the front and lie below the next id |
| Timers.DeletedStaysDeleted | ae.cpp:136-144 | a deleted id is never live again and a second deletion finds nothing, whatever happens between |
| Timers.DeleteMarksOne | ae.cpp:136-144 | a deletion takes exactly the named timer out of the live ones and moves no deadline |
| Timers.TimerQueue.AddTimeEvent | ae.cpp:131-135 | the new timer goes in front, live, under the next id, the others as they were; the queue stays normalised iff its delay does not borrow |
| Timers.TimerQueue.DelTimeEvent | ae.cpp:136-144 | AE_OK iff some listed timer has the id, the marker -1 included; the first such one is marked and all else stays |
| Timers.TimerQueue.NearestTimeEvent | ae.cpp:238-248 | none iff the list is empty; otherwise least in the code's order, and earliest in time if deadlines are normalised |
| Timers.TimerQueue.Timeout | ae.cpp:177-205 | the timeout is max(0, earliest listed deadline - now) iff that fits an `int`, for a queue of normalised deadlines; 0 if told not to wait and -1 without timers |
| Timers.SleepBound | ae.cpp:186-195 | after any history without a borrowing delay the scan and the split into a timeval give the time to the earliest listed deadline iff that fits an `int` |
| Protocol.CommandWords | server.cpp:79-85 | the words of the commands and of the reply, letter for letter |
| Protocol.AcceptedExactly | server.cpp:138-154 | which word lists are accepted, and as which command: name and number of arguments |
| Protocol.MeaningExactly | client.cpp:90-111 | what a typed line does, by its words: sends a ping, an upload or a download of its second word, nothing, or is blank |
| Protocol.MeaningOfTyped | client.cpp:9-15 | "file_send" and "file_recv" with an escaped name mean the upload and the download of that name, "ping" the ping |
| Protocol.RequestExactly | client.cpp:35-75 | the bytes each action sends: the command text as a package, and behind an upload its file |
| Protocol.TakeRequestExactly | server.cpp:39-51 | the two reads take a header and up to 1023 announced bytes, as many as have come; nothing means the end, more or half a header is undefined |
| Protocol.ExecuteExactly | server.cpp:132-189 | ping queues "pong." and arms; get and set arm with nothing queued; any other word list without a file command changes nothing |
| Protocol.PathBehindPrefix | server.cpp:197-198 | the path is the name without its first seven characters |
| Protocol.DoExactly | server.cpp:191-247 | the intended effect of uploads and downloads for a name of seven characters and a path |
| Protocol.ServeRequest | server.cpp:34-55 | from any world that allows it, a request at the front of the stream has its intended effect, its reply queued, and the stream left at the next request |
| Protocol.ServeArrived | server.cpp:34-55 | once a request has arrived whole, later bytes on the stream make no difference |
| Protocol.SeenExactly | client.cpp:49-52 | the server reads a name as typed iff it has no space; otherwise it reads none, several, or a shorter one |
| Protocol.UnansweredEmpties | client.cpp:73-76 | a download that is not answered leaves its file empty |
| Protocol.UploadOutcome | server.cpp:132-209 | an upload under any name: rejected with its data left as commands, stored under the path of the name the server reads, or undefined if that is empty |
| Protocol.DownloadOutcome | server.cpp:210-247 | a download under any name: rejected with nothing queued or armed, queued, or undefined for an empty or missing path |
| Protocol.UploadPlaced | server.cpp:191-209 | a space-free upload of seven characters and a path is stored at that path, the stream left right behind |
| Protocol.DownloadFound | server.cpp:210-247 | a space-free download of seven characters and a path queues the stream of the file at that path, or is undefined if there is none |
| Protocol.ServableExactly | server.cpp:132-166 | the server comes through a request to the next one iff the request is servable |
| Protocol.UploadReachesExactly | server.cpp:191-209 | an upload reaches its path and leaves the stream at the next command iff its name has no space and more than seven characters |
| Protocol.TypedCommandFits | client_main.cpp:35-51 | every command typed within 127 characters fits a fresh buffer without growth, and its name is a token |
| Protocol.ReplyIsFileStream | server.cpp:229-244 | the queued download, reply buffer first, is the file's stream |
| Connections.Connection.ReadRequest | server.cpp:36-51 | the two raw reads take one request off the stream, terminated in the read buffer |
| Connections.Connection.Recv | server.cpp:110-119 | one data package of up to 1023 bytes received whole, exactly if it is there |
| Connections.Connection.RecvFrames | server.cpp:202-207 | the upload loop appends exactly the packages' bytes and stops where the specification does |
| Connections.Connection.Ping | server.cpp:182-184 | the reply is the package "pong.", the buffer list untouched |
| Connections.Connection.FileSend | server.cpp:191-209 | the file at the name without its first seven characters is what the stream carried, the stream left right behind |
| Connections.Connection.FileRecv | server.cpp:210-247 | count package and file packages of the file at the name without its first seven characters are queued; fails iff that path is empty or the file missing |
| Connections.Connection.FlushReplies | server.cpp:22-29 | exactly the queued bytes go out, in order, once, and nothing stays queued |
| Connections.Connection.RunCommand | server.cpp:161 | each table entry has the effect the specification gives its command |
| ServerTable.AcceptOk | server.cpp:68-72 | registering a new connection on an unused descriptor keeps every entry bound to a live connection |
| ServerTable.ArmOk | server.cpp:156-158 | arming leaves both events registered, the writable one with its handler, all else as before, and the table in order |
| ServerTable.DisarmOk | server.cpp:30-32 | disarming leaves the readable event registered and the writable one gone, and the table in order |
| ServerTable.DeleteOk | server.cpp:169-176 | after a deletion no entry leads to the deleted connection |
| ServerTable.Target | ae.cpp:212-218 | a registered bit leads to the accept handler or to the right handler of a live connection with that descriptor |
| Server.Server.AcceptTcp | server.cpp:60-76 | exactly if accept(2) finds a descriptor that fits the table and the kernel has room, a new connection is live and registered for reading; otherwise everything is as before, no descriptor left open |
| Server.Server.Free | server.cpp:169-176 | the connection, its registrations and its descriptor go, and no other |
| Server.Server.ProcessCommand | server.cpp:132-166 | rejected commands change nothing; after replying ones both events are registered, the writable one with its handler, and no other entry changes; the command has its specified effect |
| Server.Server.ReadEvent | server.cpp:34-59 | computes `Serve` on stream, files and queued replies; registers the writable event with its handler exactly if that says so, or clears the entry and frees; other entries and connections untouched |
| Server.Server.WriteEvent | server.cpp:14-33 | with replies queued sends them all, and of its registration only the readable event is left; with none clears the entry and frees the connection |
| Server.Server.Invoke | ae.cpp:212-218 | enters the registered handler with the registered data pointer, a live client with the fired descriptor, and that handler takes its step of the server state or meets an undefined request |
| Server.Server.TakeTurn | ae.cpp:206-222 | one turn as specified, the mask looked at again before each call; the calls are the handlers entered; a fired and registered event gets its handler |
| Server.Server.ProcessEvents | ae.cpp:205-222 | a batch as specified; its calls are exactly the handlers entered; a descriptor reported readable or writable and still registered in its turn has its handler entered; each client handler gets a live client with the fired descriptor and takes the server one step from the state it finds |
| Server.Server.Run | ae.cpp:71-79 | on any reports: round after round a batch, the server in order; the whole run is a chain of accept, read and write steps of the server state, ending early only in an undefined request; no client handler is entered with a freed client |
| ServerSteps.ReadIsStep | server.cpp:34-59 | the readable event of a session is the readable handler's step on the server state, undefined for the same streams |
| ServerSteps.WriteIsStep | server.cpp:14-33 | the writable event of a session is the writable handler's step, and what the handler writes is what the client gets |
| Client.Client.Send | client.cpp:35-40 | exactly the package goes out |
| Client.Client.Recv | client.cpp:41-48 | under any short reads one package of up to 1024 bytes is received whole, exactly if it is there; no terminator is stored behind it |
| Client.Client.RecvFrames | client.cpp:77-82 | the download loop appends exactly the packages' bytes and stops where the specification does |
| Client.Client.FileRecv | client.cpp:71-85 | under any short reads the file written is what the stream carried, the stream left right behind |
| Client.Client.FileSend | client.cpp:49-70 | exactly command, count and packages of the file go out |
| Client.Client.Flush2Server | client.cpp:118-127 | command buffer, then buffer list, go out whole, and both are emptied |
| Client.Client.Process | client.cpp:87-115 | by the words of the line: "ping" sends a ping and shows the reply; "file_send" sends command and file and changes nothing; "file_recv" sends the command and stores exactly the file received; anything else sends and changes nothing, with -1 unless it is a `get` or `set` |
| Replies.PingTakes | client.cpp:149-153 | the reply to a ping is one package, shown up to its first NUL |
| Replies.DownloadTakes | client.cpp:76-82 | the reply to a download is one file off the stream, stored under the name asked for |
| Replies.AdvanceFinishes | client.cpp:71-85 | completing a read changes neither the result of the reply nor what is left of the stream, whatever the read sizes |
| Replies.ReplyFinishes | client.cpp:71-85 | a reply read from its start yields the result and leaves nothing |
| SerialOrders.LimitIs | client.cpp:71-85 | a client gets through all its lines, or through the first download the server rejects |
| SerialOrders.StrandedExactly | client.cpp:71-85 | a client is stranded iff some line is "file_recv" with a name that reads back as no word or several |
| SerialOrders.BlankIsNotSound | client.cpp:92 | no sound setup lets a client come to a blank line |
| SerialOrders.ExistingIsSound | client.cpp:49-85 | if every file named is there from the start, every command can be carried out in every order |
| SerialOrders.OneClient | client_main.cpp:46-52 | with one client a serial order is its lines one after the other |
| SerialOrders.AloneTogether | server.cpp:191-247 | in any order a client that shares no uploaded path with others has the files and screen, and sees the server files, it would have alone |
| Sides.ServeKept | server.cpp:34-55 | serving the oldest request leaves stream, reply and client as the invariant of one connection says |
| Sides.IssueExactly | client.cpp:87-115 | taking up a line, by its words: what goes out, what the client waits for, and that a download empties its file first |
| Sides.ShortReads | anet.cpp:365-380 | every shorter read or write is a step too |
| Sides.StepsAreLocal | client_main.cpp:46-52 | client and server decide by what each sees of the connection |
| Sides.ClientConserves | client.cpp:118-138 | a client step leaves the server's part alone and loses, invents or reorders no byte |
| Sides.ServerConserves | server.cpp:14-59 | a server step leaves the client's part alone and only takes from one stream and adds to the other |
| Sides.OverIsDone | ae.cpp:71-79 | a connection on which nobody can move has had all its lines carried out, and was freed iff no download was rejected |
| Sides.StepDescends | client.cpp:55-82 | every step brings its side nearer its end |
| Session.ServeKeeps | server.cpp:34-55 | the readable handler serves exactly the oldest unserved request of its connection, and none of another |
| Session.StepKeeps | client_main.cpp:46-52 | every step of any client or of the server keeps the invariant, and can only add to the order of requests served |
| Session.Synchrony | client_main.cpp:46-52 | for any number of clients, in every reachable state a serial order of the requests served accounts for all files; unread and unwritten bytes are exactly the requests not yet served; between commands every reply is consumed and the writable event disarmed; a connection is freed only after its client closed |
| Session.SomebodyMoves | ae.cpp:71-79 | no deadlock: every connection can move until it is freed or its client waits for a rejected download |
| Session.FinalKeeps | ae.cpp:71-79 | under every scheduler the run ends, in a state that keeps the invariant and in which nobody can move |
| Session.EveryRunDelivers | client_main.cpp:46-52 | under every scheduler the run ends with the files and screens some serial order of all commands leaves, each reply delivered once and no byte left over; a client is left waiting iff one of its downloads is rejected |
| Session.OneClientDelivers | client_main.cpp:46-52 | with one client the run comes to its lines carried out in order, whatever the interleaving and read sizes |
| Session.IndependentDelivers | server.cpp:191-247 | clients that share no uploaded path each end as if alone, under every interleaving |
| Session.EveryOrderHappens | server.cpp:34-55 | conversely, what any serial order of commands leaves is reached by some run |

## Left out

- Socket setup, name resolution, options and address formatting in `anet.cpp`: wrappers over system calls.
- Failure of `epoll_create`, of `epoll_wait`, and a listening descriptor of -1 in `init`.
- `process_time_events`, which is a stub, timer callbacks, and the commented-out Redis code.
- `set_bs_proc` and the before-sleep callback, `stop`, and `last_time`: no state that others depend on.
- The bodies of `get` and `set` (empty) and `done_command` (not in the table); negative arities (in neither table).
- Blank command lines: `argv(0)` of an empty vector has no defined result, so they are an outcome of their own (`Blank`, `Fault`) about which nothing is said.
- A peer that closes in the middle of a package: the original goes on with an indeterminate length or a truncated payload.
- Short reads on the server and resuming a partial write in `write_event_handler`: the code does not handle them.
- Session.EveryRunDelivers: accepting connections and refusals of the kernel are not steps of a session; `Server.Server.Run` covers registrations and lifetimes.
- Timers.TimerQueue.Timeout: the test in `process_events` that skips polling altogether with no descriptor and no waiting.
- Server.Server.AcceptTcp: the descriptors accept(2) finds, when the kernel has room for one more, and what a peer will send are parameters.
- Server.Server.constructor: promises an orderly server exactly if the listening descriptor fits the table and the kernel has room; a refusal is not handled.
- Prompts, logging and printing beyond the text shown for a reply, and signal handling.
- Manual memory: the second `delete[] _old_events` in `resize`, the default copy of `buffer_t`, destruction of the epoll state, and the reuse of a freed address.
