# Verification model of the web file server

A Dafny 4.11 model of the epoll web server in this repository and of the request printer of its
benchmark client, with proofs of what they keep over whole runs. `dafny verify dfyconfig.toml` checks
everything.

## What is modelled

* **The request parser** (`http_conn.cpp`). `HttpConn.dfy` holds the object: the read buffer, its
  cursors and the parsed fields, rewritten in place, with NULs over the line ends. Its methods compute
  the functions of `HttpParse.dfy`. `Chunks.dfy` proves that it does not matter how the bytes are cut
  into arrivals. `Reference.dfy` is a parser of whole messages on values (cut at CRLF, read a request
  line, fold the header lines) without buffer, cursors or states, and proves that the in-place parser
  computes it; the two share only the reading of a single header line (`Classify`, `Atoi`), and
  `Meaning.dfy` says what that reads, what a request line is, and what the fields of a message are,
  letter by letter on the bytes. `ParserInvariants.dfy` and `ParserTheorem.dfy` put this together for
  all arrivals and for bare line breaks. A `char` stands for a byte, a `char*` field for an index into the read buffer, and a C string
  runs to the first NUL.
* **Several requests on one connection** (`Session.dfy`). Where a request ends, what keep-alive answers, and
  which bytes are lost.
* **Forms** (`Forms.dfy`). File upload, login, and the result page that is written over the path.
* **Accounts** (`Accounts.dfy`). The login and registration branch on the table of users, in any interleaving
  of workers and with any answers of the database.
* **Answers** (`Response.dfy`, `Framing.dfy`, `ProcessWrite.dfy`, `Transmission.dfy`). The bounded printer,
  what its answers mean to a parser, the bytes of each answer of `process_write`, what is on the wire after
  any sequence of partial sends, and how `write` ends.
* **Timers and the event loop** (`lst_timer.h`, `main.cpp`). `TimerList.dfy` is the linked list on the
  heap, proved against a sequence. `EventLoop.dfy` is the loop as a transition system, `Server.dfy` the
  loop's code on the objects, proved to take its steps.
* **Threads** (`threadpool.h`, `log/`, `sql/`). `ThreadPool.dfy`, `BlockQueue.dfy`, `AsyncLog.dfy` and
  `ConnPool.dfy` give every thread a program counter and prove invariants over every interleaving of
  any number of threads; `Interleaving.dfy` is what a run is, `Counting.dfy` counts threads at a program
  point. In each a class holds the shared object, and `append`, `run`, `push`, `pop`, `clear`, `full`,
  `write_log`, the log's consumer, `GetConnection` and `ReleaseConnection` are methods that work on it
  in place, statement by statement, with any steps of the other threads in between. They are proved to
  be part of a run, and the thread's own steps to be the path through the code that the result says.
  `LogSystem.dfy` puts the log and the queue's monitor together and proves that every run of the two is a
  run of `AsyncLog.dfy`, where each call on the queue is one step. `LogProgress.dfy` proves that no line and
  no writer is stranded.
* **webbench** (`webbench.c`). `Webbench.dfy` is `build_request`, the lines it prints, and the round trip from
  it through the server's parser. `Printer.dfy` relates printed lines and messages to the parser.

## What turned out false

* A write is not always exactly header and file: every send asks for `m_writeidx` bytes, not for the
  rest. Whatever the kernel does it is exact if and only if the header has at most one byte
  (`Transmission.ExactIff`); `Transmission.SendsTooMuch` is the failing run, and `Transmission.OnTheWire`
  says what is on the wire in every run.
* For the same reason a send can ask for bytes behind `m_writebuf`. No run does so if and only if the
  header is not longer than half the buffer, rounded up (`Transmission.InsideIff`): 512 bytes here, which
  file and error answers keep (`Framing.FileOnTheWire`, `Framing.ErrorFraming`) and a list answer need not.
* A list answer that does not fit announces a body and sends none of it (`Framing.ListFraming`, an exact
  condition; `Framing.LongListIsDropped`, every listing of 1000 bytes and more).
* Bytes of a next request that arrive with the end of a request are lost: after the answer init() clears the
  read buffer (http_conn.cpp:467 and 508). Of any keep-alive requests, cut in any way, no byte is lost if and
  only if each request ends where an arrival ends (`Session.NothingLostIff`); `Session.PipelinedGetsOne` is
  the input, for any two requests like those of `Session.GetKeepsAlive`.
* A tick may close a connection that is not idle: a hang-up leaves the timer on the list, and it closes
  the next connection on the same descriptor (`EventLoop.TickCloses`, an exact condition, and
  `EventLoop.LeftoverClosesEarly`, a run).
* The empty branch of `run` is reached: `sem_wait` fails when a signal arrives (main.cpp:85 installs the
  handler without SA_RESTART), threadpool.h:73 does not look at the result, and the worker goes on without
  a unit. It is dead code if and only if waits do not fail or there is no worker
  (`ThreadPool.EmptyIffWaitFails`; `ThreadPool.InterruptedWait` is the run of three steps). What survives
  in every run is in `ThreadPool.PoolSafety`: order, bound, and no more empty lists than failed waits.
* `front()` is called on an empty list of connections for the same reason (sql_connpool.cpp:46). No run
  does so if and only if waits do not fail, or there is a connection for every client, or none at all
  (`ConnPool.EmptyIffWaitFails`, with the run in `ConnPool.InterruptedWait`). In this program
  http_conn.cpp:24 is the only client.
* A log line can be lost: `push` may fail after `full` said no, and the result is ignored. This happens
  in some run if and only if more than one thread writes to the log (`AsyncLog.NoLossIffOneWriter`). In
  this program only the main thread does.
* An upload is not always stored as it was sent. Name and content are read where they stand if and only if
  (`Forms.InPlaceIff`, and from the wire `Forms.UploadEndToEnd`)
  * the key `filename="` does not occur from the first boundary up to the file part; else an earlier part gives
    the name (`Forms.KeyInEarlierPart`);
  * the form field's own name does not end in `filename=`; else its closing quote completes the key and
    `; filename=` is read (`Forms.FieldNamedLikeKey`);
  * no NUL stands ahead of the closing delimiter, because the searches stop there; with a NUL in the content, as
    in most binary files, the closing delimiter and everything behind it are stored with the file
    (`Forms.UploadStored`; `Forms.NulIsStoredLonger`).
* Even then the stored file is the content with two more bytes, the CRLF before the closing delimiter.
* A registration that was answered with `/index.html` may leave a password that is never accepted: the test for
  the name runs outside the lock, and `insert` keeps what another worker has put there in between
  (`Accounts.TwoRegister`). No run does so if and only if the database refuses exactly the names it has, or there
  is no second worker (`Accounts.PromiseIff`).
* A registration whose query failed is answered with `/regerror.html`, and its password is accepted until the next
  start all the same (`Accounts.RefusedIsKept`). Loading the table again gives the same table in all runs if and
  only if the database refuses exactly the names it has, or nobody registers (`Accounts.DurableIff`).
* A user name of 100 bytes or more does not fit the array it is copied to (`Forms.LoginEndToEnd`, an exact
  condition).

## Model

| member | source | states |
|---|---|---|
| CString.AtoiOfItoa | http_conn.cpp:242-242 | Reading with atoi what "%d" printed gives the number back, for every non-negative number |
| HttpParse.Process | http_conn.cpp:424-460 | process_read terminates, keeps start <= checked <= read and never moves the cursor back |
| HttpConn.Connection.constructor | http_conn.cpp:60-83 | After init the buffer is all NUL and the fields are the initial ones |
| HttpConn.Connection.ReadBytes | http_conn.cpp:156-157 | Arriving bytes stand behind the filled part; nothing else changes and the rest of the buffer stays NUL |
| HttpConn.Connection.ParseLine | http_conn.cpp:162-186 | The scanning loop cuts the line at the first CR or LF at or behind the cursor, or says why it cannot |
| HttpConn.Connection.ParseRequestLine | http_conn.cpp:187-222 | The in-place cuts, fields and answer are those of the request line function, whose meaning RequestStage gives |
| HttpConn.Connection.CheckVersion | http_conn.cpp:203-211 | The second blank ends the target and the rest must be HTTP/1.1 |
| HttpConn.Connection.CheckTarget | http_conn.cpp:212-221 | The target must be a path, possibly behind http:// and a host, and only then is the state advanced |
| HttpConn.Connection.ParseHeaders | http_conn.cpp:223-256 | One header line sets exactly the field of its kind; a blank line ends the block |
| HttpConn.Connection.ParseContent | http_conn.cpp:257-266 | The body is complete when its announced bytes have arrived, and is then ended by a NUL |
| HttpConn.Connection.TakeLine | http_conn.cpp:430-447 | The switch notes the next line's start and hands the line to the parser of the state |
| HttpConn.Connection.ProcessRead | http_conn.cpp:424-460 | The loop on the object computes Process on its fields, and keeps the buffer invariant |
| HttpConn.Connection.Receive | http_conn.cpp:606-612 | Running process_read after each arrival until it answers gives the state, answer and count of the call sequence that the chunk theorem is about |
| Chunks.CutLineInLonger | http_conn.cpp:162-186 | A cut line is cut the same way whatever bytes follow; an incomplete one is resumed where scanning stopped |
| Chunks.CutRequestInLonger | http_conn.cpp:187-222 | The request line is parsed the same way whatever bytes follow it |
| Chunks.Resume | http_conn.cpp:424-460 | A call that returned NO_REQUEST can be resumed: more bytes then give what one call on everything gives |
| Chunks.AnswerStays | http_conn.cpp:424-460 | Once process_read has given an answer, later bytes change neither it nor the fields |
| Chunks.ChunksDoNotMatter | http_conn.cpp:424-460 | For every stream and every split, the calls end in the buffer, cursors, fields and answer of one call on the concatenation |
| Chunks.SplitsAgree | http_conn.cpp:424-460 | Two splits of one stream that are read to the end agree on everything |
| ParserInvariants.CleanKept | http_conn.cpp:162-186 | No CR or LF is ever left below m_checkedidx |
| ParserInvariants.LfBranchIsDead | http_conn.cpp:175-181 | The branch that completes a line at its LF never runs: without it the parser computes the same |
| ParserInvariants.BareBreakAbsorbs | http_conn.cpp:174-182 | At a CR or LF outside a CRLF the parser neither moves nor answers, whatever arrives |
| ParserInvariants.WaitsOrStuck | http_conn.cpp:424-460 | NO_REQUEST means a missing body, an unfinished line, a trailing CR, or a bare break, and nothing else |
| ParserTheorem.AnyArrivals | http_conn.cpp:424-460 | For all arrivals the in-place parser ends with the answer and fields the bytes read so far call for |
| ParserTheorem.NoAnswerAfterBareBreak | http_conn.cpp:174-182 | Once the parser stands at a bare break no sequence of arrivals gets an answer |
| ParserTheorem.BareBreakIsFinal | http_conn.cpp:162-186 | A message whose first unfinished line holds a bare CR or LF gets NO_REQUEST for every extension if and only if that line is the first one or stands in the header block of an accepted request |
| ParserTheorem.NoAnswerInAnyArrivals | http_conn.cpp:424-460 | The same however the message and what follows it are cut into arrivals |
| Session.EndsOnce | http_conn.cpp:424-460 | A request ends at one byte: exactly the prefixes of the stream that reach it are answered |
| Session.KeepAlive | http_conn.cpp:507-509 | Any number of keep-alive requests, each cut in any way and sent after the answer before, are all answered, each as if alone |
| Session.TogetherIsLost | http_conn.cpp:507-509 | Bytes that arrive with the end of a request change neither its answer nor anything later |
| Session.PipelinedGetsOne | http_conn.cpp:507-509 | Two requests that arrive together get one answer, and two when the second waits |
| Session.NothingLostIff | http_conn.cpp:507-509 | However keep-alive requests are cut into arrivals, no byte is lost if and only if each request ends where an arrival ends; then each is answered with nothing else in the buffer |
| Session.GetKeepsAlive | http_conn.cpp:231-238 | A GET of any path with Connection: keep-alive is such a request |
| Reference.OneLine | http_conn.cpp:162-186 | In-place cutting yields the next CRLF line of the untouched message and leaves earlier and later bytes alone |
| Reference.TargetStage | http_conn.cpp:212-219 | A target is accepted exactly when it has a path, and m_url then is that path as a C string |
| Reference.RequestStage | http_conn.cpp:187-222 | A line is accepted exactly when it reads as method, target and HTTP/1.1; m_url and, right behind it, m_version point into the line, and no byte outside it changes |
| Reference.OneField | http_conn.cpp:231-251 | A header line has the effect of the pure header function, and its value is a C string in the buffer |
| Reference.BlankLine | http_conn.cpp:224-230 | The blank line gives a request without a body, or starts a body that must arrive in full |
| Reference.HeaderStage | http_conn.cpp:424-460 | The rest of process_read folds the header lines up to the first blank one |
| Reference.ParserRefines | http_conn.cpp:424-460 | For every byte string process_read gives the answer, method, path, host, boundary, length, linger and body position of the reference parser |
| Reference.LastWins | http_conn.cpp:231-251 | The last header line of each kind decides its field |
| Reference.AbsentKeeps | http_conn.cpp:60-83 | Without a header of its kind a field keeps the value from init |
| Meaning.EqNoCaseMeans | http_conn.cpp:193-211 | strcasecmp finds two strings equal exactly when they spell the same letter by letter, in any case |
| Meaning.ClassifyMeans | http_conn.cpp:224-251 | Which lines are which header and what value is read: each name in any case, any run of blanks and tabs before the value, and every other line is passed over |
| Meaning.AtoiMeans | http_conn.cpp:242-242 | The number read is the decimal value of the digits behind any white space, whatever follows them |
| Meaning.AtoiSigned | http_conn.cpp:242-242 | The same behind a sign |
| Meaning.ItoaMeans | http_conn.cpp:541-541 | A printed number is its decimal numeral without leading zeros |
| Meaning.PathMeans | http_conn.cpp:212-219 | The path of a target is the target itself or what follows http:// and a host, and starts with a slash |
| Meaning.RequestMeans | http_conn.cpp:187-222 | A line of three parts is a request for a path exactly when they spell GET or POST, a target with that path, and HTTP/1.1 |
| Meaning.ShortLineMeans | http_conn.cpp:187-205 | A line of fewer parts is no request |
| Meaning.LengthRead | http_conn.cpp:239-243 | After a message the content length is the number in its last Content-Length line, or 0 |
| Meaning.LingerRead | http_conn.cpp:231-238 | After a message the connection is kept exactly if its last Connection line does not say close |
| Meaning.HostRead | http_conn.cpp:244-248 | After a message m_host is the value of its last Host line, or null |
| Meaning.BoundaryRead | http_conn.cpp:249-251 | After a message m_boundary is what stands behind the first 44 bytes of its last form line, or null |
| Meaning.BodyRead | http_conn.cpp:257-266 | A message is answered exactly when its announced body has arrived, which then stands behind the cursor and is ended by a NUL |
| Printer.LinesOfPrint | http_conn.cpp:162-186 | Splitting printed lines gives the printed lines back, with their positions |
| Printer.RequestPrinted | http_conn.cpp:187-222 | A request line printed with single spaces is read back, or refused for its method or version |
| Printer.ReadsMessage | http_conn.cpp:424-460 | What the server makes of any printed message: refusal, or method, path, header fields and body |
| Forms.UploadStored | http_conn.cpp:276-316 | From a form that can be encoded the strstr and strchr chain recovers exactly the file name, and stores the content plus the CRLF before the delimiter or, when the content holds a NUL, everything from the content to the end of the body |
| Forms.NameIsRead | http_conn.cpp:276-291 | The file name that is read from any encoded form whose text ahead of the content has no NUL |
| Forms.UploadIff | http_conn.cpp:276-316 | Such a form is recovered if and only if its content holds no NUL, and its field name does not end in `filename=` or the file name is the text misread then |
| Forms.InPlaceIff | http_conn.cpp:276-316 | Name and content are read where they stand if and only if the key does not occur from the first boundary up to the file part, the field name does not end like it, and no NUL stands ahead of the closing delimiter |
| Forms.FieldNamedLikeKey | http_conn.cpp:282-288 | A file sent in a field called `filename=` is read under another name |
| Forms.NulIsStoredLonger | http_conn.cpp:305-316 | A file of one NUL byte is stored with the closing delimiter behind it |
| Forms.KeyInEarlierPart | http_conn.cpp:276-288 | A part ahead of the file part that holds the key gives the file its name |
| Forms.UploadArrives | http_conn.cpp:257-276 | A posted body, whatever its bytes, reaches the upload branch complete and unchanged, with its boundary |
| Forms.UploadEndToEnd | http_conn.cpp:268-316 | From the bytes on the wire, for any file: the conditions of InPlaceIff and UploadIff, and what is stored when the content holds a NUL |
| Forms.RefusedIff | http_conn.cpp:276-311 | The search refuses a body exactly when a mark is missing: boundary, key from there on, quote behind the key, blank line behind the quote; else name and content stand between these marks |
| Forms.UploadRefusedIff | http_conn.cpp:271-311 | The same for the fields that process_read left, which are refused without a boundary field, too |
| Forms.CopyName | http_conn.cpp:332-337 | The copying loop puts exactly the bytes up to the ampersand into the name buffer |
| Forms.LoginRoundTrip | http_conn.cpp:331-339 | User name and password of a posted form are read back exactly, wherever the body stands |
| Forms.LoginEndToEnd | http_conn.cpp:329-339 | From the bytes on the wire: the message is a complete POST for the path, and both values are read back exactly if and only if the user name is shorter than name[100] |
| Forms.RewriteConfined | http_conn.cpp:331-369 | Writing any result page over an accepted /login or /register path stays inside the request line, so header strings and body are unchanged, whatever the content length |
| Accounts.TableIsFirst | http_conn.cpp:340-362 | In every interleaving the password that is accepted for a name is the one it had at the start, or else the one of the first query for it, whatever the database answered |
| Accounts.PromiseIff | http_conn.cpp:356-366 | In all runs whoever was told /index.html is accepted from then on, if and only if the database refuses exactly the names it has or there is no second worker |
| Accounts.TwoRegister | http_conn.cpp:356-366 | With two workers, a run in which the second registration of a name is confirmed and its password not accepted |
| Accounts.DurableIff | http_conn.cpp:22-33 | In all runs loading the table again gives the same table, if and only if the database refuses exactly the names it has or nobody registers |
| Accounts.RefusedIsKept | http_conn.cpp:357-366 | A run in which a registration is refused and its password accepted |
| Accounts.SharedAccounts.constructor | http_conn.cpp:22-33 | The table starts as the rows of the database, a later one over an earlier one |
| Accounts.SharedAccounts.LogIn | http_conn.cpp:340-347 | A login among other workers: /1.html exactly if the table has this password for the name, and the table keeps all it has |
| Accounts.SharedAccounts.SignUp | http_conn.cpp:348-369 | A registration among other workers: refused when the name is there, or it waits for the lock, or it runs its query and insert and is answered by the query's result; then the name is in the table |
| Response.ResponseBuffer.AddResponse | http_conn.cpp:517-531 | An append adds the whole text and says so, or leaves m_writeidx and the text before it unchanged; m_writeidx stays below the buffer size minus 1 |
| Response.ResponseBuffer.AddHeaders | http_conn.cpp:535-550 | The header block is three appends whose results are ignored |
| Response.ResponseBuffer.AnswerError | http_conn.cpp:561-590 | An error answer is its status line, header block and text, and succeeds exactly when the text still fits |
| Response.ResponseBuffer.AnswerList | http_conn.cpp:385-406 | The list answer is its status line, type, header block and list, each appended or dropped as a whole |
| Response.ResponseBuffer.AnswerFile | http_conn.cpp:591-598 | The file answer is its status line and a header block with the file's size |
| Response.PutAllFits | http_conn.cpp:517-531 | Appends that fit together are all made, in order |
| Framing.ReadsAnswer | http_conn.cpp:535-550 | The header block emitted for n, read by the server's parser, gives back n, the linger flag and the start of the body |
| Framing.ErrorFraming | http_conn.cpp:561-590 | Every error answer fits into half the buffer, announces exactly the bytes behind its blank line, and carries the linger flag |
| Framing.ListFraming | http_conn.cpp:385-406 | A list answer carries the bytes it announces if and only if head and list leave room for two bytes; otherwise it carries none |
| Framing.LongListIsDropped | http_conn.cpp:385-406 | Every listing of 1000 bytes or more is announced and not sent |
| Framing.FileOnTheWire | http_conn.cpp:591-598 | No send of a file answer leaves the buffer, and one that completes without an overrunning send is status line, header block and file, and announces exactly the file |
| ProcessWrite.ErrorIs | http_conn.cpp:561-590 | The bytes of each of the four error answers: its own status line, its length, the linger header, a blank line and its own text, and they fit |
| ProcessWrite.FileIs | http_conn.cpp:591-598 | The bytes of a file answer ahead of the file |
| ProcessWrite.ListIs | http_conn.cpp:385-406 | The bytes of a list answer ahead of the list |
| ProcessWrite.Write | http_conn.cpp:561-604 | process_write leaves these bytes and their number, leaves the answers of do_request as they are, and says false for every other result |
| Transmission.OnTheWire | http_conn.cpp:462-515 | Over any calls and partial sends: the wire is a prefix of the memory at m_writebuf then a prefix of the file, the sums are constant, no file byte precedes the header's last, and at completion the header is a prefix and the file a suffix |
| Transmission.ExactIff | http_conn.cpp:471-483 | The wire is header and file in every completed run if and only if the header has at most one byte |
| Transmission.InsideIff | http_conn.cpp:473-473 | No send in any run asks for bytes behind the buffer if and only if the header is not longer than half of it, rounded up |
| Transmission.SendsTooMuch | http_conn.cpp:471-483 | For every longer header, a run in which one byte behind it gets on the wire |
| Transmission.Sender.constructor | http_conn.cpp:591-603 | An answer starts with nothing sent and all of header and file to go |
| Transmission.Sender.SendSome | http_conn.cpp:473-482 | One send moves some of up to m_writeidx bytes and updates both counters |
| Transmission.Sender.SendFileSome | http_conn.cpp:486-497 | One sendfile moves some of the remaining file bytes and updates offset and length |
| Transmission.Sender.Write | http_conn.cpp:462-515 | A call of write on the object is the call that OnTheWire is about |
| Transmission.CallEnds | http_conn.cpp:462-515 | How a call of write ends: complete if the moves suffice; else EAGAIN leaves all as the moves left it, file open, and an error breaks it off |
| Transmission.BrokenIff | http_conn.cpp:473-497 | A call is broken off exactly when an error is the first answer that moves nothing and the moves ahead of it do not complete the answer |
| Transmission.AgainResumes | http_conn.cpp:474-490 | A call that EAGAIN interrupts and a later one do together what one call with the answers in a row does |
| Transmission.EnoughMoves | http_conn.cpp:462-515 | Enough moves complete the answer |
| Transmission.CallsAreOne | http_conn.cpp:462-515 | How moves are divided among calls makes no difference |
| Transmission.EnoughSends | http_conn.cpp:462-515 | Whatever calls the moves fall into, enough of them complete the answer, with the whole file gone and the file closed |
| TimerList.PlaceKeepsOrder | lst_timer.h:118-138 | Insertion at its place keeps the order and puts a timer behind its equals |
| TimerList.SortTimerList.Walk | lst_timer.h:118-132 | The walk stops at the last timer that is not later, wherever it started below that |
| TimerList.SortTimerList.LinkBehind | lst_timer.h:122-137 | The relinking inserts one node in both chains, at the tail or between two nodes |
| TimerList.SortTimerList.LinkFirst | lst_timer.h:43-48 | The relinking makes a node the head |
| TimerList.SortTimerList.AddBehind | lst_timer.h:118-138 | The private overload inserts in order behind equals |
| TimerList.SortTimerList.AddTimer | lst_timer.h:35-50 | add_timer inserts in order behind equals, in an empty list, at the head or further on |
| TimerList.SortTimerList.UnlinkFirst | lst_timer.h:59-62 | The head leaves both chains |
| TimerList.SortTimerList.UnlinkInner | lst_timer.h:66-67 | An inner node leaves both chains and keeps its own links |
| TimerList.SortTimerList.UnlinkLast | lst_timer.h:87-91 | The tail leaves both chains |
| TimerList.SortTimerList.DelTimer | lst_timer.h:71-96 | del_timer removes exactly that node, in all four branches |
| TimerList.SortTimerList.AdjustTimer | lst_timer.h:51-70 | In all three branches the list becomes what removing the node and inserting it in order gives, ties included |
| TimerList.SortTimerList.Postpone | main.cpp:143-147 | After any growth of one expiry adjust_timer restores the sorted list |
| TimerList.SortTimerList.PopHead | lst_timer.h:108-113 | A round of tick drops the first node; the tail of an emptied list is not looked at |
| TimerList.SortTimerList.Tick | lst_timer.h:97-115 | tick removes exactly the expired nodes, calling back each once, first to last |
| EventLoop.EntersAtEnd | lst_timer.h:118-138 | A timer that expires no earlier than the others is put at the tail |
| EventLoop.AcceptKeeps | main.cpp:108-118 | An accepted connection is open, counted, active now, and its timer stands at the tail with 15 seconds to go; all invariants hold, also when its address was that of a deleted timer |
| EventLoop.RefreshKeeps | main.cpp:141-147 | A successful read or write moves the descriptor's timer to the tail with 15 seconds to go, changes nothing else, and all invariants hold |
| EventLoop.DropKeeps | main.cpp:148-153 | A failed read or write closes that connection, takes exactly its timer off the list, and leaves all others as they were |
| EventLoop.CloseKeeps | http_conn.cpp:93-99 | close_conn closes that connection, keeps m_user_count equal to the number of open ones, and changes nothing else |
| EventLoop.TimerIsListed | main.cpp:138-168 | Every timer passed to adjust_timer or del_timer is on the list |
| EventLoop.TickKeeps | main.cpp:41-47 | After a tick every open connection was active within 15 seconds, and the list is what is left of it behind the expired timers |
| EventLoop.StepKeeps | main.cpp:98-173 | Every event keeps the table, list, count and order invariants |
| EventLoop.NoIdleConnectionSurvives | main.cpp:92-174 | After any run a tick leaves no idle connection open, m_user_count is exact, and the list is in the order of the last refresh |
| EventLoop.TickCloses | main.cpp:41-47 | A tick closes an open connection if and only if it is idle or its descriptor has an expired leftover timer |
| EventLoop.LeftoverClosesEarly | main.cpp:119-120 | A run in which a leftover timer closes a connection 5 seconds after its activity |
| Server.EventServer.NewTimer | main.cpp:112-118 | A fresh timer enters the list in order |
| Server.EventServer.AcceptConn | main.cpp:100-118 | The accept branch takes the accept step, or refuses when the table is full |
| Server.EventServer.CloseConn | main.cpp:119-120 | The hang-up branch takes the close step and leaves the timer |
| Server.EventServer.Active | main.cpp:141-147 | The success branch takes the refresh step |
| Server.EventServer.Ended | main.cpp:148-153 | The failure branch takes the drop step |
| Server.EventServer.Served | main.cpp:138-168 | The readable and writable branches take the same step |
| Server.EventServer.OnTimeout | main.cpp:170-173 | timer_handler takes the tick step; afterwards no open connection is idle and the count is exact |
| Server.EventServer.Serve | main.cpp:92-174 | Whatever arrives, the objects follow the run of the transition system whose events are these arrivals, one for one; an arrival that cannot occur in its state is passed over |
| ThreadPool.LockKeeps | threadpool.h:53-88 | At most the holder of the mutex is in a critical section |
| ThreadPool.AccountKeeps | threadpool.h:53-88 | List length plus failed waits is semaphore count plus workers past their wait plus due appenders plus lists found empty, at every step; no more lists are found empty than waits failed |
| ThreadPool.PoolSafety | threadpool.h:53-88 | In every interleaving, signals included, accepted requests are taken once each in FIFO order, the list never exceeds max_requests + 1, and the account holds |
| ThreadPool.ExactWithoutFailures | threadpool.h:53-88 | While no wait has failed, list length is semaphore count plus owing workers plus due appenders, and no worker is at the empty branch |
| ThreadPool.InterruptedWait | threadpool.h:73-78 | A failed wait, the lock and the test: a worker finds the list empty |
| ThreadPool.EmptyIffWaitFails | threadpool.h:75-78 | No run reaches the empty branch if and only if waits do not fail or there is no worker |
| ThreadPool.JobsConserved | threadpool.h:53-88 | Every accepted job is waiting, in one worker's hands or done, as often as it was accepted |
| ThreadPool.WaitingWorkCanBeTaken | threadpool.h:53-88 | No deadlock: from every state with a waiting request and any worker, steps of threads that are already under way take that request |
| ThreadPool.SharedPool.Append | threadpool.h:53-63 | append among other threads: it says whether there was room at a moment of the call at which it held the mutex, and returns true along lock, push, unlock, post, with the request accepted, or false along lock, refusal, unlock, or waits for the mutex |
| ThreadPool.SharedPool.Round | threadpool.h:72-87 | A round of run among other threads: it takes and runs a job, skips a null request, or finds nothing, and then a wait has failed |
| BlockQueue.WakeKeeps | log/block_queue.h:82-107 | A sleeper beside a non-empty queue means that a pusher inside is about to broadcast |
| BlockQueue.QueueKeeps | log/block_queue.h:82-107 | The queue stays within its bound and items leave in the order of their pushes |
| BlockQueue.MonitorSafety | log/block_queue.h:21-107 | In every interleaving: mutual exclusion, the bound max_size, order, and no lost wakeup when the mutex is free |
| BlockQueue.DeliveredIsPrefix | log/block_queue.h:21-107 | From an emptied queue until the next drop, what pop delivered is a prefix of what push took in |
| BlockQueue.OthersLocked | log/block_queue.h:82-107 | While a thread holds the mutex, no steps of the others change the queue or its history |
| BlockQueue.SharedQueue.Push | log/block_queue.h:82-93 | push among other threads: true means that the item is in, and it says whether there was room at a moment of the call at which it held the mutex |
| BlockQueue.SharedQueue.Pop | log/block_queue.h:95-107 | pop among other threads and any wake-ups: it returns an item that it removed, or false after a failed wait, or waits for the mutex, or sleeps beside an empty queue or a busy mutex |
| BlockQueue.SharedQueue.Clear | log/block_queue.h:21-27 | clear among other threads: when it returns there was a moment at which it held the mutex and the queue was empty |
| BlockQueue.SharedQueue.Full | log/block_queue.h:29-37 | full among other threads: its answer was true of the queue at a moment of the call |
| AsyncLog.NothingDuplicated | log/log.cpp:101-108 | At every interleaving each formatted line is in exactly one place, queued lines reach the file in push order, and the queue stays within its bound |
| AsyncLog.RoomStays | log/log.cpp:101-103 | With a single writer push never fails after full said no |
| AsyncLog.NoLossIffOneWriter | log/log.cpp:101-103 | No run loses a line if and only if at most one thread writes to the log |
| AsyncLog.SharedLog.WriteLog | log/log.cpp:90-108 | write_log among other threads: the line gets into the queue or the file, or nowhere, and then there is another writer |
| AsyncLog.SharedLog.Consume | log/log.cpp:22-30 | A round of the consumer among the writers: the oldest queued line goes to the file, or the queue is empty |
| LogSystem.WriteRefines | log/log.cpp:90-108 | With the steps of the queue's mutex and condition variable written out: the formatting, the test of full(), the append or refusal of push() and the write are each exactly the step of AsyncLog, and every other step of a writer changes nothing seen from there |
| LogSystem.ConsumeRefines | log/log.cpp:22-30 | Taking the front of the queue and writing the line in hand are each exactly the step of AsyncLog; every other step of the consumer, failed and spurious wake-ups included, changes nothing seen from there |
| LogSystem.RunRefines | log/log.cpp:22-108 | Every run of writers, consumer and monitor has the file, queue, hands and losses of a run in which full, push and pop are one step each |
| LogSystem.LogIsSafe | log/log.cpp:22-108 | In every such run no line is duplicated, queued lines reach the file in push order, the queue keeps its bound, and a single writer loses nothing |
| LogSystem.ConsumerWakes | log/block_queue.h:95-107 | In every such run the consumer does not sleep beside a queued line while the mutex is free |
| LogProgress.OldestIsWritten | log/log.cpp:22-30 | No line is stranded: while no wait of the consumer has failed, effective steps of threads that are under way, with no new call, failed wait or spurious wake-up, bring the oldest pushed line into the file |
| LogProgress.EndedForGood | log/log.cpp:22-30 | After a failed wait of the consumer no queued line gets into the file in any continuation |
| LogProgress.LinesReachFile | log/log.cpp:22-30 | In every reachable state the oldest line in hand or queue can still get into the file if and only if no wait of the consumer has failed |
| LogProgress.Finish | log/log.cpp:90-108 | No writer is stranded: such steps bring any writer out of write_log, with its line written, pushed, or lost in a failed push |
| LogProgress.WritesItself | log/log.cpp:101-108 | A writer that has decided for the file, or has no queue, writes its line with its own steps and changes nothing else |
| LogProgress.FreeMutex | log/block_queue.h:21-107 | The holder of the mutex can give it back by itself, and nothing is written to the file |
| ConnPool.AccountKeeps | sql/sql_connpool.cpp:42-63 | Idle connections plus failed waits are semaphore count plus getters past their wait plus due releasers plus clients at an empty front |
| ConnPool.PlaceKeeps | sql/sql_connpool.cpp:42-63 | Each connection stays in exactly one place |
| ConnPool.PoolConserves | sql/sql_connpool.cpp:42-87 | In every interleaving, signals included, idle and held connections partition the initial ones, no connection has two holders, and the account holds |
| ConnPool.ExactWithoutFailures | sql/sql_connpool.cpp:42-63 | While no wait has failed, idle connections are semaphore count plus owing getters plus due releasers, and nobody is at an empty front |
| ConnPool.InterruptedWait | sql/sql_connpool.cpp:44-49 | With more clients than connections, a run in which a failed wait leads to front() of an empty list |
| ConnPool.EmptyIffWaitFails | sql/sql_connpool.cpp:42-52 | No run calls front() on an empty list if and only if waits do not fail, or there is a connection for every client, or none at all |
| ConnPool.SharedPool.GetConnection | sql/sql_connpool.cpp:42-52 | GetConnection among other clients: null when the list is empty, or the connection that was at the front at a moment it held the mutex, which is not idle and nobody else's, or it waits for a unit or the mutex, or it is at an empty front after a failed wait |
| ConnPool.SharedPool.ReleaseConnection | sql/sql_connpool.cpp:54-63 | ReleaseConnection among other clients: false for null, else the connection goes back along lock, push, unlock, post |
| Webbench.CBuffer.Cat | test_pressure/webbench-1.5/webbench.c:215-221 | strcat appends the text to the buffer's C string |
| Webbench.BuiltFits | test_pressure/webbench-1.5/webbench.c:199-291 | Whatever the settings, the request for an accepted URL fits into 2048 bytes |
| Webbench.Client.BuildRequest | test_pressure/webbench-1.5/webbench.c:199-291 | build_request refuses a URL for the first failing test, or leaves exactly the printed lines of the request, host, port and version |
| Webbench.AnalyseMeans | test_pressure/webbench-1.5/webbench.c:224-268 | Which URLs are refused, each for the first test that fails, and where host, port and path of the others stand |
| Webbench.VersionMeans | test_pressure/webbench-1.5/webbench.c:207-210 | The version is the least one that is asked for and that the method and the reload need |
| Webbench.BuiltMeans | test_pressure/webbench-1.5/webbench.c:212-288 | For all settings the request is its first line and, from version 1.0 on, exactly the headers called for and one blank line at its end; before that the first line alone |
| Webbench.DirectParts | test_pressure/webbench-1.5/webbench.c:238-263 | A direct URL is taken apart into host, port and path |
| Webbench.RefusedLine | test_pressure/webbench-1.5/webbench.c:212-272 | Every other method or version gives a line the server does not take for a request line |
| Webbench.RoundTrip | test_pressure/webbench-1.5/webbench.c:199-291 | For every direct URL and all settings the server accepts the request text if and only if it is a GET under HTTP/1.1, and then reads its path, host, no body and no keep-alive |
| Webbench.Client.BuildDirect | test_pressure/webbench-1.5/webbench.c:199-291 | The same for the bytes that build_request leaves in its buffer, when host and port fit theirs |

## Left out

- HttpConn.Connection.ReadBytes: http_conn.cpp:144 passes the buffer without the `m_readidx` offset; the model appends at `m_readidx`, as lines 156-157 presume.
- HttpConn.Connection.ParseContent: requires that the index of the NUL lies inside the buffer; a negative length or a body that fills the buffer to its last byte breaks this in the source.
- Reference.ParserRefines: with a negative content length the strings are not claimed, because the NUL of parse_content may fall into them; answer, cursors and numbers are.
- HttpParse.Process: `Atoi` and the sum `m_content_length + m_checkedidx` of http_conn.cpp:258 are unbounded; in the source atoi outside int and a sum beyond INT_MAX are undefined, while the model then waits for the body. The temporary file for bodies beyond the buffer (`tmpfd`, `tmplen`) is not part of this model.
- Forms.UploadStored: file names whose path exceeds FILENAME_LEN, and the temporary file that is appended to the upload, are left out.
- Forms.CopyName: requires an ampersand within 100 bytes, as the source's unbounded loop does.
- Transmission.Sender.Write: a file that could not be opened while its length is positive makes the source's loop spin for ever and is excluded by `Ready`; sendfile is taken to make progress, and a send that runs past the write buffer to read the memory behind it.
- Accounts.SharedAccounts.SignUp: the SQL text and its buffer are left out; reading `users` outside the lock, a data race in the source, is one atomic step.
- Response.ResponseBuffer.AnswerFile: takes the size as a number; the source passes it through an int, so sizes from 2 GiB on are announced wrongly there.
- Framing.FileOnTheWire: requires a file below 2 GiB, because `m_len` and the announced length are ints in the source.
- Framing.ListFraming: a directory listing that overflows the local array of WRITE_BUFSIZE bytes is left out.
- Session.KeepAlive: each answer is taken to have been sent before the next arrival is read.
- EventLoop.NoIdleConnectionSurvives: accept returns a descriptor that is not open, events arrive for open ones only, a worker's close_conn is one step, and the clock does not go back.
- Server.EventServer.OnTimeout: the callbacks run after tick has unlinked the expired timers, not between the unlinkings; they do not touch the list.
- ThreadPool.PoolSafety: locks and posts are taken to succeed, here as in the block queue and the connection pool; `m_stop`, thread creation and destruction are left out.
- ThreadPool.SharedPool.Append: a call that waits for the mutex or the semaphore longer than the others run ends as waiting, here as in the other shared objects.
- BlockQueue.MonitorSafety: `empty`, `front`, `back`, `size` and `max_size` only read under the mutex, like `full`, and are left out.
- BlockQueue.SharedQueue.Pop: followed through at most `wakeups` rounds of sleep, for any number.
- AsyncLog.SharedLog.Consume: a pop whose condition wait fails, which ends the consumer, is a step of LogSystem and not of this method.
- AsyncLog.NothingDuplicated: the log file's naming and rotation, the formatting and its buffer are left out; that each call on the queue can be one step is LogSystem.RunRefines.
- ConnPool.PoolConserves: the opening and closing of the connections are left out; the size test without the lock is one atomic read; what front() of an empty list does is undefined, and the model stops the client there.
- Webbench.Client.BuildRequest: requires that the host fits its buffer and the port its ten bytes, which the source does not check.
- do_request's file system branches, the SQL text, epoll, sockets and signal decoding are nondeterministic results or left out.
