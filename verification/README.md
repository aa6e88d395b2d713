# A verified model of the web server

The server is a small epoll HTTP/1.1 server: one main loop, a pool of worker threads, one
`http_conn` object per descriptor that parses requests in place and sends replies with
`writev`, a sorted list of idle timers, a pool of database connections, a map of users that
caches a table, and a log with an optional queue and thread.  This project models those
parts in Dafny and proves what they are for.  `dafny verify dfyconfig.toml` checks all of it.

The form follows the code.  Objects that change in place are classes with the same fields
and loops (`HttpConn` on a fixed array, `HttpReply`, the doubly linked `SortTimerList`, the
circular `BlockQueue`, `Log`, `Accounts`, `WebServer`, `ThreadPool`, `ConnectionPool`); every method is proved equal to a
function on values, and the theorems are about those functions over whole runs.  What
several threads do together is a step system: a state, the steps each thread can take, and
invariants that hold in every interleaving; the methods of the two pools are runs of these
steps by one thread.  Bytes are Dafny characters, a `char*` into a
buffer is an index, and a C string ends at the first NUL.

| part | files |
|---|---|
| request parser | `CStrings`, `Decimal`, `RequestParser`, `HttpConn`, `ChunkIndependence`, `BodyCompletion`, `RequestGrammar`, `RequestText` |
| reply | `ResponseText`, `ResponseStream`, `HttpReply`, `HeaderRoundTrip` |
| timers and the main loop | `TimerSpec`, `TimerList`, `EventLoop`, `StaleRuns`, `WebServer` |
| worker threads | `ThreadSteps`, `ThreadHistory`, `ThreadProgress`, `WorkerPool` |
| database connections | `SqlPool`, `ConnectionPool` |
| users | `UsersSpec`, `UsersRuns`, `Accounts` |
| shared | `Wrappers` |
| log | `FifoSpec`, `BlockQueue`, `QueueWaiters`, `QueueCalls`, `LogPipeline`, `LogRotation`, `LogNames`, `LogFile` |

## Where the code does not do what it means

The code is modelled as it is in these places.  A concrete run shows how a promise fails, and
a theorem says for all inputs exactly when it holds; the last two entries hold always.

- A body that arrives in several reads: `parse_line` runs over the body bytes and moves the
  base of the body and of the length test, so that the request is left incomplete or is
  served with bytes from further on (`BodyTaken` and `BodyExact` say which, for every split
  and any number of bytes; `SplitBodyIsLost`, `WrongBody`; with the base left alone,
  `IntendedBody`, `IntendedAgrees`).
- A header sent in more than two portions: the remaining header length is reduced by the
  cumulative count (`AdvanceExact`, `StreamExactness` for the offers, `WireExact` for the
  bytes of a complete reply, `PrefixExact` for those of any run, `ThreeCallsGoWrong`; with the intended length, `IntendedRun`).
- A connection closed without its timer: the timer later closes whoever uses the descriptor
  then (`TickExact`, `TicksAreExact` from the events alone, `StaleTimerCloses`; with the timer removed, `IntendedRunKeeps`).
- `improv` stored before `timer_flag`: the main loop can test the flag too early
  (`ClosesOnFailure`, `HastyRun`).
- A failed INSERT still enters the map, and the name is checked outside the lock
  (`CacheExact`, `InterleavedExact`, `InterleavedEndExact`, `RaceForAName`).
- The result of `push` is ignored (`NeverLosesExact`), and a directly written line can pass
  queued ones (`FileOrderExact`, `DirectLineOvertakes`).
- The log compares days of the month only (`DaysExact`, `DaysExactForSplit`, `MonthLater`), and its first file
  holds one line fewer than the others (`LeftFull`).
- A file of size zero is announced as a page and then answered with `false`
  (`HttpReply.ProcessWrite`).
- A line that is judged bad is never refused: `process_read` reports that it needs more
  bytes, for ever (`StaysBad`).

## Model

| member | source | states |
|---|---|---|
| CStrings.Find | http_conn.cpp:208 | strpbrk and strchr: the first position of any of the characters, the length when there is none |
| CStrings.Span | http_conn.cpp:225 | strspn: the longest prefix made of the characters |
| CStrings.Cut | http_conn.cpp:319 | the C string at a pointer: up to the first NUL and without one |
| CStrings.CutBelow | http_conn.cpp:207-256 | a string that ends before a place is not changed by stores at or behind that place |
| CStrings.SameIgnoringCase | http_conn.cpp:214-217 | strcasecmp: equal if and only if the lengths are and each place holds one character or the two cases of one letter |
| CStrings.PrefixIgnoringCase | http_conn.cpp:272-286 | strncasecmp with a field name: the same of the characters in front |
| Decimal.ToInt32 | http_conn.cpp:283 | storing atol's long in an int: in range always, the value itself when it fits |
| Decimal.ToInt32Wraps | http_conn.cpp:283 | a number that does not fit is off by the multiple of two to the 32 that brings it into range |
| Decimal.AtolReads | http_conn.cpp:283 | atol passes over blanks, takes one sign and all digits, and gives the number they spell, saturated to 64 bits |
| Decimal.AtolPrint | http_conn.cpp:283 | reading a printed number gives it back, for every int that is not negative |
| RequestParser.ScanStops | http_conn.cpp:155-180 | what parse_line reports at the first CR or LF: complete, open or bad by the next byte alone, for every line |
| HttpConnection.HttpConn.constructor | http_conn.cpp:129-152 | a new connection is the parser that has read nothing |
| HttpConnection.HttpConn.Init | http_conn.cpp:129-152 | after init the object is the parser that has read nothing, whatever it was |
| HttpConnection.HttpConn.Read | http_conn.cpp:183-204 | reads exactly the available bytes behind those held and keeps all others; true if and only if the socket ran dry with room left in the buffer |
| HttpConnection.HttpConn.ParseLine | http_conn.cpp:155-180 | stops where the pure scan stops with the same status; exactly the two bytes of a line end become NUL; the LF-after-CR branch never fires |
| HttpConnection.HttpConn.ParseRequestLine | http_conn.cpp:207-256 | the in-place tokeniser computes the pure split-and-check function, and no store leaves the current line: bytes from m_start_line on are untouched |
| HttpConnection.HttpConn.ParseTarget | http_conn.cpp:225-255 | the same from the target on |
| HttpConnection.HttpConn.ParsePath | http_conn.cpp:235-255 | the twelve bytes of "/judge.html" with its NUL fit between the target and the end of the line, over the spent version text |
| HttpConnection.HttpConn.StrCat | http_conn.cpp:251 | strcat appends the text and one NUL and touches no other byte |
| HttpConnection.HttpConn.SetUrl | http_conn.cpp:416-432 | the page of a CGI reply is copied over m_url with its NUL, and the bytes in front of and behind the copy stay |
| HttpConnection.HttpConn.ParseHeaders | http_conn.cpp:259-300 | a field line updates the request as the pure function says, whose field names and values are compared without their case (SameIgnoringCase); a blank line moves to the body if and only if the length is not zero |
| HttpConnection.HttpConn.ParseContent | http_conn.cpp:302-310 | completes if and only if m_content_length bytes lie behind m_checked_idx, closes the body with a NUL, changes nothing otherwise |
| HttpConnection.HttpConn.TakeBody | http_conn.cpp:302-310 | m_string is the announced number of bytes from m_start_line, and the strings of the head survive the store behind the body |
| HttpConnection.HttpConn.Turn | http_conn.cpp:319-355 | one turn of the switch is one turn of the pure machine, in each of the three states; what it makes of a refused line, a valid line, a blank line and a body is stated for whole requests in RequestText |
| HttpConnection.HttpConn.ProcessRead | http_conn.cpp:313-358 | the in-place state machine terminates, keeps 0 <= m_start_line <= m_checked_idx <= m_read_idx, and computes verdict, state, request and body of the pure machine, whose verdicts RequestText tells from the text |
| HttpConnection.HttpConn.Serve | web_server.cpp:286-317 | reading and parsing chunk after chunk on the one buffer is the pure feed of the chunks |
| ChunkIndependence.ScanOn | http_conn.cpp:155-180 | a complete or bad scan is not changed by later bytes, an open one goes on where it stopped |
| ChunkIndependence.HeadOn | http_conn.cpp:313-358 | up to the blank line, a pause and more bytes are the same as having had the bytes at once |
| ChunkIndependence.LoopIsHead | http_conn.cpp:317-356 | the loop is its head up to the blank line followed by the turns on the body |
| ChunkIndependence.ChunkIndependence | http_conn.cpp:313-358 | however the bytes are cut into reads, the first verdict before a body and all that is learnt about the request are those of one single read; without a verdict the whole state is |
| ChunkIndependence.StaysBad | http_conn.cpp:155-180 | a line judged LINE_BAD stays bad whatever arrives, and no verdict is ever reached |
| ChunkIndependence.BodyStart | http_conn.cpp:264-266 | however a request with a body is cut, the reads reach the blank line with the same request, in the one read whose bytes it ends in, and the rest of the bytes are its body |
| ChunkIndependence.LateBlank | http_conn.cpp:264-266 | a blank line that is reached only with new bytes leaves fewer than these behind it |
| BodyCompletion.OneCall | http_conn.cpp:302-318 | one call completes a body if and only if n bytes lie behind m_checked_idx, with the n bytes from m_start_line; otherwise it gives up exactly the bytes scanned before and the lines it finds |
| BodyCompletion.Starved | http_conn.cpp:317-318 | once too few bytes can lie behind m_checked_idx, no split of the rest completes the request |
| BodyCompletion.BodyTaken | http_conn.cpp:302-358 | for every split and any number of bytes behind the blank line: whether the request completes, and which n bytes become its body |
| BodyCompletion.BaseExact | http_conn.cpp:302-358 | the body is taken from the blank line on if and only if no read but the one before the last leaves m_checked_idx behind the base, no incomplete read holds a whole line, and the last brings n bytes behind m_checked_idx |
| BodyCompletion.BodyExact | http_conn.cpp:302-318 | the request completes with the first n bytes if and only if the base does not move; otherwise it is incomplete or completes with later bytes, the latter only when more than n arrive |
| BodyCompletion.WholeRequest | http_conn.cpp:313-358 | the same for a whole request from its first byte, for every way of cutting it and whatever follows it; which bytes share a read with the blank line is told from the reads |
| BodyCompletion.FeedKeepsRequest | http_conn.cpp:302-358 | nothing learnt from the head changes while the body arrives |
| BodyCompletion.SplitBodyIsLost | http_conn.cpp:348 | every body without line ends that arrives in two reads is incomplete after them, and what is sent next completes it with its second part and the bytes behind |
| BodyCompletion.WrongBody | http_conn.cpp:303-306 | a run in which the body "abc" is served as "cde" |
| BodyCompletion.IntendedBody | http_conn.cpp:302-310 | with the base left alone every split completes at n bytes, with the first n |
| BodyCompletion.IntendedAgrees | http_conn.cpp:302-318 | the code gives the intended verdict and body whenever the base does not move; when it moves and n bytes are there, it is incomplete or takes the body from further on |
| BodyCompletion.CleanAgrees | http_conn.cpp:302-318 | when no incomplete read leaves m_checked_idx behind the base, the code is the intended code, its whole state included |
| BodyCompletion.CleanExact | http_conn.cpp:302-318 | with exactly n bytes these are the reads that complete the request |
| RequestGrammar.ValidIsAccepted | http_conn.cpp:207-256 | every line of the grammar (section 3.1.1 of RFC 7230, with the code's extra blanks) is accepted and means its verb and path |
| RequestGrammar.AcceptedIsValid | http_conn.cpp:207-256 | every accepted line is a line of that grammar |
| RequestGrammar.SchemeIsStripped | http_conn.cpp:235-238 | http://, in any case, and a host are taken off the target, and without a path the target is refused |
| RequestGrammar.NoScheme | http_conn.cpp:235-238 | every other target stays as it is |
| RequestText.FieldsMean | http_conn.cpp:272-290 | any field lines in any order and number: the last length, the last host, and whether any line says keep-alive |
| RequestText.RequestIsRead | http_conn.cpp:313-358 | every valid request line with any field lines is read to its blank line, and verb, path, length, flag and host are those the text says |
| RequestText.InAnyReads | http_conn.cpp:313-358 | such a request without a body, cut into reads in any way, reaches do_request with exactly this request |
| RequestText.BodyInAnyReads | http_conn.cpp:302-358 | one with a body, cut in any way and with anything behind it: the request is always the one written, and do_request gets its body if and only if the base does not move, else later bytes or no call, all told from the reads and the length of the head |
| RequestText.RefusedInAnyReads | http_conn.cpp:325-328 | a first line that is none of the grammar is answered with BAD_REQUEST, whatever follows it and however the bytes are cut |
| RequestText.ValidIsNotRefused | http_conn.cpp:325-328 | a line of the grammar never is |
| RequestText.NegativeLengthIsStray | http_conn.cpp:303-304 | a negative length stores its NUL in front of the body, as soon as the blank line is read and whatever the reads |
| HttpReply.HttpReply.Init | http_conn.cpp:129-152 | the reply side is empty again |
| HttpReply.HttpReply.AddResponse | http_conn.cpp:568-584 | appends the text, or refuses it and leaves the printed text as it was, by room alone |
| HttpReply.HttpReply.AddHeaders | http_conn.cpp:590-606 | all three lines are printed, none is refused, for every int and both keep-alive values |
| HttpReply.HttpReply.AddPage | http_conn.cpp:612-651 | a page is printed whole and stays below the size of the buffer |
| HttpReply.HttpReply.ProcessWrite | http_conn.cpp:613-683 | true exactly for the four error pages and for files that are not empty; the printed text is the whole reply, in the words of PagesAre and FileHeadIs, and for every file size the iovec and the truncated bytes_to_send are the start of the stream |
| HttpReply.HttpReply.SendOnce | http_conn.cpp:525-550 | one writev and the update behind it |
| HttpReply.HttpReply.Write | http_conn.cpp:512-566 | for every series of short writes: the accepted bytes are the modelled portions, EAGAIN keeps the state for the next call, an error stops, and completion resets exactly when the connection is kept |
| ResponseStream.TotalIsConstant | http_conn.cpp:539-550 | bytes_to_send + bytes_have_send never changes |
| ResponseStream.AdvanceExact | http_conn.cpp:542-550 | one update keeps the iovec exact if and only if nothing had been sent before it or it finishes the header; the intended update always does |
| ResponseStream.RoughOffer | http_conn.cpp:547-550 | after any other update the next offer is wrong, or ends while bytes remain |
| ResponseStream.RunConcat | http_conn.cpp:529-532 | the bytes of a call after EAGAIN continue those of the calls before it |
| ResponseStream.SmoothRun | http_conn.cpp:519-565 | the accepted bytes are a prefix of header and file, and all of them when none remains |
| ResponseStream.StreamExactness | http_conn.cpp:519-565 | a run is smooth if and only if at every point exactly the rest of the reply was offered |
| ResponseStream.RoughRun | http_conn.cpp:547-550 | once a call was not smooth, a wrong byte is accepted or bytes remain for ever |
| ResponseStream.WireExact | http_conn.cpp:519-565 | when nothing more is to be sent, the bytes accepted are header and file in order if and only if the run was smooth |
| ResponseStream.PrefixExact | http_conn.cpp:519-565 | at any point of any run the bytes accepted so far are a prefix of header and file if and only if the calls are smooth up to one that is not, and behind that one accept only the header bytes they are offered |
| ResponseStream.LongReplyIsCut | http_conn.cpp:662 | when header and file exceed an int, no run sends both whole, unless one portion is as long as the file |
| ResponseStream.IntendedRun | http_conn.cpp:547-549 | with the intended remaining length every run sends header and file in order |
| ResponseStream.ThreeCallsGoWrong | http_conn.cpp:547-549 | three portions of a ten-byte header and a file: the tenth byte on the wire is the first of the file |
| ResponseText.HeadersLength | http_conn.cpp:590-606 | the digits of an int bound the headers to 55 bytes |
| ResponseText.HeadersAre | http_conn.cpp:590-606 | the three header lines, letter by letter |
| ResponseText.PagesAre | http_conn.cpp:613-651 | each error code has its own status line, ended by CRLF, headers with the length of its text, and this text |
| ResponseText.FileHeadIs | http_conn.cpp:652-664 | a file is announced by 200 OK and the headers with its size as an int |
| HeaderRoundTrip.HeadersRoundTrip | http_conn.cpp:259-288 | feeding the printed headers to the parser recovers the length, the keep-alive flag and whether a body follows, for every int |
| HeaderRoundTrip.PageIsFramed | http_conn.cpp:612-651 | the length an error page announces is the number of bytes behind its blank line (section 3.3.2 of RFC 7230) |
| HeaderRoundTrip.FileIsFramed | http_conn.cpp:652-664 | the length announced for a file is its size if and only if the size fits an int |
| TimerSpec.InsertSorted | Timer_Linklist.h:146-174 | insertion keeps the order and goes behind exactly the timers that do not expire later |
| TimerSpec.ExpiredAll | Timer_Linklist.h:132-141 | in a sorted list the timers taken from the front are all that have expired |
| TimerSpec.PushGood | Timer_Linklist.h:48-91 | when the clock does not go back, a timer added or adjusted goes to the tail |
| TimerList.Unlink | Timer_Linklist.h:86-87 | relinking the neighbours of an inner node leaves a chain without it |
| TimerList.LinkBetween | Timer_Linklist.h:154-157 | linking between two nodes gives the chain with the new node there |
| TimerList.SortTimerList.AddTimer | Timer_Linklist.h:48-69 | the linked list becomes the sorted insertion, for arbitrary expiries; the node set grows by this timer |
| TimerList.SortTimerList.Place | Timer_Linklist.h:146-174 | the private add_timer puts the node behind all that do not expire later and moves tail when it is last |
| TimerList.SortTimerList.AdjustTimer | Timer_Linklist.h:71-91 | after an expiry was raised or kept, the list is again sorted and linked, with the timer behind all equal ones and the same nodes |
| TimerList.SortTimerList.DelTimer | Timer_Linklist.h:93-124 | exactly this timer leaves, in all four cases of its place |
| TimerList.SortTimerList.Tick | Timer_Linklist.h:126-143 | calls back for exactly the expired timers, in order, and leaves the rest; tail may be stale only when the list is empty |
| EventLoop.StepKeeps | web_server.cpp:229-349 | every event keeps: each open connection has its own live timer, m_user_count counts the open ones, the list is sorted without repetition |
| EventLoop.RunKeeps | web_server.cpp:220-350 | the same over every run of events |
| EventLoop.RunBound | web_server.cpp:239-243 | in no run are more than 65536 connections open |
| EventLoop.AcceptRefused | web_server.cpp:239-243 | a connection is taken if and only if fewer are open, and a refused one changes nothing |
| EventLoop.IdleBound | web_server.cpp:76-79 | with ticks at most 10 seconds apart no connection is open after 40 seconds of idleness |
| EventLoop.CloseAllIs | web_server.cpp:81-86 | the callbacks of a tick close exactly the connections of the expired timers, and count each once |
| EventLoop.TickExact | Timer_Linklist.h:126-143 | a tick closes exactly the connections idle for 30 seconds if and only if no stale timer of a reused descriptor is due; it always closes those |
| EventLoop.StaleTimerCloses | web_server.cpp:282-285 | a run with a tick every TIMESLOT in which the timer left by an error event closes the next connection after five seconds |
| StaleRuns.RunTicksExact | web_server.cpp:220-350 | every tick of a run closes exactly the idle connections if and only if no timer left by a timer-less closing comes due while its descriptor is in use again and not idle |
| StaleRuns.TicksAreExact | web_server.cpp:220-350 | the same from the start, where the condition is on the events alone |
| EventLoop.StartIsTidy | web_server.cpp:208-218 | the server starts with the invariant and tidy |
| EventLoop.TidyIsBijection | web_server.cpp:244-252 | in a tidy state timers and open connections match one to one |
| EventLoop.IntendedStepKeeps | web_server.cpp:282-341 | with the timer removed on every closing path each step keeps that, and the list in the order of last activity |
| EventLoop.IntendedRunKeeps | web_server.cpp:220-350 | the same over every run |
| EventLoop.SameRun | web_server.cpp:286-341 | a run without timer-less closings is an intended run of the code as written |
| EventLoop.TidyTickExact | Timer_Linklist.h:126-143 | in a tidy state a tick closes exactly the idle connections, and activity does not decrease along the list |
| WebServer.WebServer.OnAccept | web_server.cpp:239-252 | on the linked list, accepting a connection is the step of the model, the MAX_FD refusal included |
| WebServer.WebServer.OnIo | web_server.cpp:286-341 | refreshing the timer, and closing and deleting it after a failure, is the step of the model |
| WebServer.WebServer.OnError | web_server.cpp:282-285 | closing on an error event is the step of the model |
| WebServer.WebServer.OnTick | web_server.cpp:76-86 | tick with its callbacks is the step of the model |
| WebServer.WebServer.CloseConn | http_conn.cpp:102-109 | closes once, and does nothing to a closed connection |
| ThreadSteps.PopFindsRequest | threadpool.h:102-109 | a worker past the semaphore finds a request |
| ThreadSteps.NextKeeps | threadpool.h:76-133 | every step of the main loop or of a worker keeps lock, semaphore count, place and order of the request |
| ThreadSteps.Handshake | threadpool.h:76-133 | in every interleaving of any number of workers: at most one request is queued, append never refuses, requests are popped and acknowledged once each in the order pushed; that these are the requests of the events is EventsAreHanded |
| ThreadSteps.ClosesOnFailure | web_server.cpp:298-316 | the main loop closes exactly the failed connections if and only if it never tests timer_flag between a worker's two stores; with the flag stored first it never does |
| ThreadSteps.HastyRun | threadpool.h:119-120 | a run in which a failed connection is not closed |
| ThreadHistory.EventsAreHanded | web_server.cpp:286-341 | in every interleaving the requests handed to the pool are those of the events, in order, each with its connection and as a read or a write |
| ThreadHistory.ReadIsProcessed | threadpool.h:112-117 | over every run each request is processed exactly as often as it was read successfully, or a worker is about to |
| ThreadHistory.OnlyTheBlamedClose | web_server.cpp:304-315 | in every interleaving a connection is closed only for a failure behind its last reset, by an accept on the slot or by a finished write |
| ThreadProgress.StepCounts | threadpool.h:100-133 | every action of the main loop or a worker lowers a count of the actions that are left |
| ThreadProgress.NeverStuck | web_server.cpp:298-316 | while the main loop waits, it or a worker can go on |
| ThreadProgress.WaitEnds | web_server.cpp:297-341 | with at least one worker and whatever scheduler, the wait behind every event ends within the counted actions, with every request popped and acknowledged |
| WorkerPool.ThreadPool.Append | threadpool.h:76-90 | append refuses if and only if more than m_max_requests are queued, and is the run of the main loop's steps from lock to post |
| WorkerPool.ThreadPool.RunOnce | threadpool.h:102-132 | one turn of run takes the oldest request, acknowledges it and sets timer_flag if and only if it failed, as the run of one worker's steps |
| WorkerPool.ThreadPool.Wait | web_server.cpp:298-316 | the busy loop closes if and only if timer_flag is set, and clears both flags |
| WorkerPool.ThreadPool.Handle | web_server.cpp:286-317 | an event served at once: closed if and only if it failed, nothing left queued or flagged, the request handled once |
| SqlPool.PopFindsConnection | sql_pool.cpp:72-75 | front is never taken on an empty list |
| SqlPool.KeepsSem | sql_pool.cpp:66-94 | list length = semaphore + threads past wait and before pop + threads past push and before post, at every step |
| SqlPool.KeepsConnections | sql_pool.cpp:74-87 | no step loses or duplicates a connection |
| SqlPool.RunKeeps | sql_pool.cpp:66-94 | both, the lock and the counters, over every run |
| SqlPool.SafeState | sql_pool.cpp:66-94 | what the invariant means: no connection is held twice, or held and free; the counters are the free and the lent ones when the lock is free |
| SqlPool.PoolIsSafe | sql_pool.cpp:57-94 | all of it in every interleaving of any number of threads after init |
| SqlPool.NeverStuck | sql_pool.cpp:66-130 | while there are a thread and a connection, some thread can go on |
| ConnectionPool.ConnectionPool.constructor | sql_pool.cpp:36-62 | init makes MaxConn connections, and counts and semaphore say so |
| ConnectionPool.ConnectionPool.GetConnection | sql_pool.cpp:66-81 | NULL if and only if the list is empty, without a wait, else its first connection, as the run of one thread's steps |
| ConnectionPool.ConnectionPool.ReleaseConnection | sql_pool.cpp:83-94 | the connection goes to the end of the list, as the run of one thread's steps; NULL is refused |
| UsersSpec.LoadIsLastRow | http_conn.cpp:42-47 | the loaded map gives a name the password of its last row |
| UsersSpec.FormRoundTrip | http_conn.cpp:381-395 | the fields of user=N&password=P come out as N and P, for N without '&' and both within their buffers |
| UsersSpec.FormExact | http_conn.cpp:381-395 | exactly which bodies give N and P: the words of the form are skipped, not compared |
| UsersSpec.FormParts | http_conn.cpp:386-395 | every body with five bytes, a name, an ampersand, nine bytes and a password, whatever these hold: both fields up to their first NUL, or no form when one has 100 bytes |
| UsersSpec.NoForm | http_conn.cpp:386-395 | every other body makes a loop leave it |
| UsersRuns.CommitExact | http_conn.cpp:408-412 | one commit keeps map and table in step if and only if a new name is inserted successfully, or a taken one fails or repeats its password |
| UsersRuns.CacheExact | http_conn.cpp:408-412 | after any run of registrations the map is what a restart loads if and only if no INSERT of a new name failed |
| UsersRuns.PasswordsStay | http_conn.cpp:411 | no run changes or drops a password of the map |
| UsersRuns.LoginExact | http_conn.cpp:426-434 | after any such run a login form is accepted if and only if the last row of its name has its password |
| UsersRuns.RegisterAlone | http_conn.cpp:408-412 | a registration that nobody interrupts is a check, and for a new name a commit, with the state of the sequential one |
| UsersRuns.InterleavedExact | http_conn.cpp:408-412 | in every interleaving of checks and commits, map and table agree throughout if and only if each commit is in step |
| UsersRuns.RunEnds | http_conn.cpp:408-412 | after an interleaved run a new name has the password of its first commit in the map, and that of its last successful INSERT in the table |
| UsersRuns.InterleavedEndExact | http_conn.cpp:408-412 | after an interleaved run map and table agree if and only if these are the same for each name |
| UsersRuns.InterleavedPasswordsStay | http_conn.cpp:408-412 | in every interleaving no password of the map changes |
| UsersRuns.RaceForAName | http_conn.cpp:408-411 | two registrations of one name leave map and table with different passwords |
| Accounts.Accounts.LoadTable | http_conn.cpp:42-47 | the loop over the rows gives the loaded map |
| Accounts.Accounts.ExtractFields | http_conn.cpp:386-395 | the copying loops give the two fields, or leave a buffer |
| Accounts.Accounts.LastSlash | http_conn.cpp:366 | strrchr finds the last slash |
| Accounts.Accounts.Cgi | http_conn.cpp:371-435 | page and new state of a registration or a login, for every URL and body; which page and which state is said by the four results on replies below |
| Accounts.Accounts.CgiInPlace | http_conn.cpp:371-435 | the same on the connection: URL and body are read from its buffer, and the page is copied over m_url with the bytes in front of and behind the copy left alone |
| Accounts.OtherPages | http_conn.cpp:371 | a request that is not a POST, or is for a page not beginning with 2 or 3, is left alone |
| Accounts.LoginReply | http_conn.cpp:426-434 | the welcome page if and only if the map holds the name with this password, else the error page; nothing changes |
| Accounts.RegistrationReply | http_conn.cpp:397-423 | the login page if and only if the name is new and the INSERT succeeds, else the error page; only a new name changes the map, and only a successful INSERT of one the table |
| Accounts.StrayReply | http_conn.cpp:386-406 | a body that is no form, or a statement longer than its buffer, is where the original leaves its buffers |
| Accounts.StatementLength | http_conn.cpp:400-406 | the statement with its NUL fits 200 bytes if and only if both fields together have at most 150 |
| Accounts.RegisterThenLogin | http_conn.cpp:397-434 | after a registration and whatever registrations follow, a login gets the welcome page if and only if it repeats the password |
| FifoSpec.FirstInFirstOut | block_queue.h:90-118 | over every run of push, pop, back, full and clear, what leaves and what is left are what was accepted, in order, within the bound |
| BlockingQueue.BlockQueue.constructor | block_queue.h:14-22 | the queue is empty, with both indices at -1 |
| BlockingQueue.BlockQueue.Clear | block_queue.h:23-29 | empties the queue and resets the indices |
| BlockingQueue.BlockQueue.Full | block_queue.h:37-45 | answers whether the bound is reached |
| BlockingQueue.BlockQueue.Back | block_queue.h:68-77 | gives the item pushed last of those queued |
| BlockingQueue.BlockQueue.Push | block_queue.h:90-103 | appends to the FIFO if and only if it is not full, wrapping around the array |
| BlockingQueue.BlockQueue.Pop | block_queue.h:105-118 | takes the first item of the FIFO, or would wait if and only if there is none |
| BlockingQueue.RingPush | block_queue.h:97-99 | storing behind the last item appends to the sequence in the circle |
| BlockingQueue.RingPop | block_queue.h:113-115 | moving the front on drops the first item of that sequence |
| QueueWaiters.KeepsWake | block_queue.h:90-118 | no step leaves a sleeper behind on a queue that is not empty |
| QueueWaiters.NoForgottenWaiter | block_queue.h:90-118 | in every interleaving of pushes, pops and clears, a thread sleeps only while the queue is empty or the broadcast is about to come; items leave in order |
| QueueWaiters.PopTakesFirst | block_queue.h:105-118 | whatever the other threads do, and however often it is woken, a pop is over only with the step that takes the first item |
| QueueWaiters.StuckOnlyWhenEmpty | block_queue.h:105-112 | when nobody can go on, only pops on an empty queue are left |
| QueueCalls.PushAlone | block_queue.h:90-103 | a push that nobody disturbs appends if and only if there is room, and wakes every sleeper either way |
| QueueCalls.PopAlone | block_queue.h:105-118 | a pop that nobody disturbs takes the first item, or falls asleep if and only if there is none |
| QueueCalls.ClearAlone | block_queue.h:23-29 | a clear that nobody disturbs drops all items and wakes nobody |
| LogPipeline.LinesAreConserved | log.cpp:147-154 | every line is in exactly one place: file, queue, a hand, or lost in a refused push |
| LogPipeline.SingleProducerLosesNothing | log.cpp:147-149 | with one producer, full() == false guarantees the push |
| LogPipeline.NeverLosesExact | log.cpp:147-149 | no run loses a line if and only if there is at most one producer, or no queue |
| LogPipeline.QueuedLinesAreLogOrdered | log.h:33-40 | lines that went through the queue are in the file in the order logged |
| LogPipeline.FileOrderExact | log.cpp:147-154 | the file is in the order logged if and only if no line was written directly past waiting ones |
| LogPipeline.DirectLineOvertakes | log.cpp:150-154 | a run in which the second line passes the first |
| LogRotation.NamedThroughout | log.cpp:98-124 | the open file is always the one named by m_today and m_count / m_split_lines |
| LogRotation.WriteAppends | log.cpp:150-154 | a line goes to the end of the open file, and no other file changes |
| LogRotation.NothingIsOverwritten | log.cpp:123 | over every run, what a file held stays at its front: files are opened to append |
| LogRotation.WriteDayExact | log.cpp:105-124 | when one line goes to a file of its own date |
| LogRotation.DaysExactForSplit | log.cpp:105-124 | for the m_split_lines of a running log, every line goes to a file of its date if and only if each has the date of the open file, another day of the month, or the count calling for a new file |
| LogRotation.DaysExact | log.cpp:105-124 | every line does, whatever m_split_lines, if and only if consecutive lines of different dates differ in the day of the month |
| LogRotation.MonthLater | log.cpp:105 | a line a month later goes to the old file |
| LogRotation.FilesHoldTheLog | log.cpp:95-154 | read in the order opened, the files hold the lines logged, in order, none more than m_split_lines, and no file is opened twice |
| LogRotation.LeftFull | log.cpp:98-105 | a file left because of the count holds m_split_lines lines, the very first one fewer |
| LogNames.NamesTellFiles | log.cpp:112-121 | no two files share a name |
| LogNames.NameReads | log.cpp:112-121 | year, month and day at their places, two digits each for the last two, then the name, and the number behind a dot |
| LogFile.Log.WriteLog | log.cpp:95-154 | rotation, then the queue if and only if it is used and not full, else the open file |
| LogFile.Log.AsyncWriteLog | log.h:33-40 | drains the queue into the open file in order |
| LogFile.AppendAllIs | log.h:36-40 | what is drained ends up in the open file and nowhere else |

## Left out

- Sockets, epoll, fcntl, signals, alarm, mmap, stat and fopen are parameters: the bytes that
  arrive, the portions writev accepts, which event comes next, the time, the file size.
- The mutex, semaphore and condition variable of `locker.h` are step semantics and do not fail; steps are
  sequentially consistent.  Destructors, `m_stop`, pool shutdown and singletons are left out.
- `do_request` outside its CGI part: the fixed page table and `stat` (http_conn.cpp:437-501)
  would only add easy members.  The verdict `GetRequest` is where it is called.
- `block_queue::front` reads the slot popped last, and slot -1 before the first pop
  (block_queue.h:63); nothing uses it.
- Database calls and SQL text: the table is a sequence of rows, and an INSERT adds its row
  or fails, as a parameter says.
- HttpConnection.HttpConn.ParseHeaders: m_User_Agent is not tracked, as nothing reads it.
- HttpConnection.HttpConn.ParseRequestLine: m_version is tracked as a pointer only.
- HttpConnection.HttpConn.ParseContent: the sum m_content_length + m_checked_idx is unbounded
  here; a negative length, whose store lies in front of the body, is the verdict `StrayWrite`.
- WorkerPool.ThreadPool.RunOnce: read(), write() and process() are their results here; the
  objects they work on are those of `HttpConn` and `HttpReply`.
- ConnectionPool.ConnectionPool.GetConnection: a call that waits for the semaphore is a
  thread that cannot go on in `SqlPool`; the method is the call that nobody disturbs.
- QueueWaiters and LogPipeline are step systems on values; the array and the files in place
  are in `BlockQueue` and `LogFile`, one call at a time.
- WebServer.WebServer.OnIo: the request is handled within the step; a worker that is still
  in process() when its timer expires and the descriptor is used again is excluded.
- WebServer.WebServer.OnError: the close in process() (http_conn.cpp:693-695) is the same
  CloseConn on the same state and has no handler of its own.
- Accounts.Accounts.CgiInPlace: that the page fits behind m_url is a precondition, as strcpy
  does not look.
- Accounts.Accounts.ExtractFields: a body without '&', or with a field of 100 bytes or more,
  makes the original read or write outside its buffers; the model answers `None` there.
- BlockingQueue.BlockQueue.constructor: the original ends the process when max_size is not
  positive; here that is a precondition, as m_split_lines > 0 is for the log.
- LogFile.Log.WriteLog: the text of a line is a parameter; its formatting into m_buf and the
  buffer sizes are left out, and a failing fopen too.
- LogRotation.FilesHoldTheLog: for a directory without log files and a clock that does not
  go back, one call at a time.
