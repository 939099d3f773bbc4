# Verification of the PEAK analyser driver

An EPICS areaDetector driver for an electron analyser. This project models, and proves properties
of, three parts of it:

* the acquisition task, which drives a remote analyser through the calls of a measurement while the
  user starts and stops it, with the parameter writes that define what is measured and the axes and
  sums made of the result;
* the HTTP/1.1 client and the notification server that carry the JSON-RPC calls, down to the bytes,
  and the base64 decoder;
* the buffer algorithms of the bundled asio: the buffers iterator, the scatter/gather copies, and
  two byte queues.

`dafny verify dfyconfig.toml` checks everything.

## Modules

| module | models |
|---|---|
| Machine, Wrappers, Numerals, NumberText | integer limits, optional values, number text and what is made of it |
| Wire | sockets as byte streams, and the readers and the writer of `HTTPCommon.cpp` |
| HttpMessages, HttpFraming | printing and reading requests and responses, and where the parts of a message begin and end |
| HttpClient, HttpExceptions | `HTTPClient.cpp`: slots, connections, requests, retry, destruction; the streams that make it throw |
| NotificationServer, NotificationCalls, Subscriptions | the handler of notifications, the callbacks it makes, the callback table, and the clients' registries |
| Base64 | `base64.cpp` |
| BuffersIterator, BufferCopy, StreamBuffers | asio |
| PeakSpectrum, SpectrumSettings, SettingsSent, SweepWrites | axes and integration; parameter writes, the spectrum definition, what is sent and read back, and the sweeps |
| Acquisition, AcquisitionParking, AcquisitionCounting | `acquisitionTask`: what every step keeps, when it parks with something open, and how much a run takes |
| AcquisitionProgress, AcquisitionReach, AcquisitionStops | that it comes to be parked, which states runs come to, and which stops end an acquisition |
| AcquisitionStarts, AcquisitionEvents | that no start is lost, what a frame works with, the two events, and calls that throw |

Code that works step by step is a class or a method with its loops, proved against a function of the
input or the old state; the properties of formats and protocols are lemmas about those functions.
NumberText, HttpFraming, NotificationCalls and SettingsSent say the same once more by the text of a
message or the values of the parameters, without those functions.
The acquisition task runs at the same time as the analyser and the user, so it is a transition
system: one step is the code between two points where another party can come in.

## What the proofs brought to light

* A stop that lands behind the last reading of ADAcquire in a frame, with images still to take,
  parks the task with the measurement and both subscriptions open, reported as Idle
  (`AcquisitionParking.ParksOpenExactlyWhen`). Some run comes to it with all settings that allow a
  second image, and with no others (`AcquisitionReach.ParksOpenForSome`). The next start then fails,
  and its handler closes everything (`AcquisitionProgress.NextStartParks`). Without exposures
  (numExposures <= 0) ADAcquire is not read inside the frame, so a stop anywhere in the frame does it.
* A stop ends a running acquisition only if ADStatus is Acquire. If the user stops a run and starts
  again before the abort has been reported, the new run goes on with the status Aborted: no stop
  reaches the server, which runs until it completes by itself (`AcquisitionStops.StopEndsExactlyWhen`,
  `AcquisitionStops.RunsToItsEnd`, `AcquisitionStops.DeafForSome`).
* `basic_streambuf::prepare` shifts the bytes before it checks the size: a failed call keeps the
  readable bytes exactly when nothing, or at least as much as is left, has been consumed
  (`StreamBuffers.FailureKeepsContents`). `dynamic_string_buffer` changes nothing. Around a string
  longer than its maximum, a `prepare` of nothing succeeds (`StreamBuffers.StringBuffer.Prepare`).
* A failed request leaves its slot closed, except by an exception: a header whose value is blank
  makes `parseHeaderLine` throw; a Content-Length that is no `int` throws even when the content is
  chunked; and a negative Content-Length, or a chunk size above what a vector can hold, such as `-1`,
  throws where the buffer is made. Nothing in `doRequest` or the connection handler catches that; the
  slot stays open with the rest of the response unread. `HttpExceptions.EscapesExactlyWhen` gives the
  streams that do it, `HttpClient.Client.DoRequest` what it does to the slot.
* The connection handler does not look at the result of `readFixedContent`. If receiving a body fails
  in the middle, the notification is taken as empty and answered, and the rest of its body is read as
  the next request. Up to there the callbacks are the first ones of the stream
  (`NotificationServer.CallbacksArePrefix`); behind it one can be made that the stream never asked for
  (`NotificationServer.TornNotification`).
* A pass energy outside the range of the lens mode stays outside unless the nearer end of the range
  is an energy on the list (`SpectrumSettings.PassEnergyInRange`).
* The grid of a sweep ends at the high end exactly when the width is a multiple of the step, and a
  range given the wrong way round is swept upwards (`SpectrumSettings.GridEndsAtHigh`,
  `SpectrumSettings.WrongOrder`).
* Writing the centre of a swept axis keeps the number of points for energies, but not always for
  ThetaY, whose range is cut to that of the lens mode first (`SweepWrites.AngleCountChanges`,
  `SweepWrites.AngleCountKept`).
* Clients and callback table stay in agreement over every run exactly if no observable is called
  "State" and none is another one, or "State", with a number behind it (`Subscriptions.AgreesExactlyWhen`).
* The base64 decoder writes whole groups of three bytes, so the room its caller makes is enough
  exactly when the number of bytes is a multiple of 12 (`Base64.CallerRoomExactlyWhen`).

## Model

| member | source | states |
|---|---|---|
| Numerals.StoiDecimal | peakAnalyserApp/src/HTTPClient.cpp:266 | `std::stoi` reads a printed length back, whatever text that is no digit follows it |
| Numerals.StrToULHexDigits | peakAnalyserApp/src/HTTPCommon.cpp:155 | a chunk size in any hex spelling (either case, leading zeros) is read as its value, up to the text that ends it |
| NumberText.DigitTable | peakAnalyserApp/src/HTTPCommon.cpp:155 | the sixteen digits of the literal tables, lower and upper case, have the values 0 to 15 |
| NumberText.NoOtherDigit | peakAnalyserApp/src/HTTPCommon.cpp:155 | no other character is a digit, and white space is what `isspace` says |
| NumberText.StoiReads | peakAnalyserApp/src/HTTPClient.cpp:266 | `std::stoi` reads white space, a sign and decimal digits, whatever follows, as the number they are, and throws exactly when it is no `int` |
| NumberText.StoiThrows | peakAnalyserApp/src/HTTPClient.cpp:266 | without a digit behind white space and sign it throws |
| NumberText.StrToULReads | peakAnalyserApp/src/HTTPCommon.cpp:155 | `strtoul` reads white space, a sign, `0x` and hexadecimal digits in any case as the number they are, cut to the largest one, a negative one modulo 2^64 |
| NumberText.StrToULNothing | peakAnalyserApp/src/HTTPCommon.cpp:155 | without a digit there it is 0 |
| NumberText.DecimalSpells | peakAnalyserApp/src/peakApi.cpp:154 | `to_string` prints the decimal digits of a number |
| NumberText.PrintedNumberIsRead | peakAnalyserApp/src/HTTPClient.cpp:266 | a printed number, negative or not, is read back by `stoi` if and only if it is an `int` |
| NumberText.PrintedSizeIsRead | peakAnalyserApp/src/HTTPCommon.cpp:155 | a size printed with the digits of either table is read back by `strtoul` |
| Numerals.FrontOfDecimal | peakAnalyserApp/src/peakApi.cpp:154 | what remains of a printed number when the digits of another are taken off its end is a printed number, not 0 |
| Numerals.SameNumberedName | peakAnalyserApp/src/peakApi.cpp:154 | `name + to_string(counter)` is the same for two pairs only if the pairs are the same or the longer name is the shorter one with a positive number behind it |
| Wire.Socket.Recv | peakAnalyserApp/src/HTTPCommon.cpp:91 | a call moves any positive number of bytes from the front of the stream, or reports its end, or fails and moves none |
| Wire.Socket.Send | peakAnalyserApp/src/HTTPCommon.cpp:183 | a call sends any positive number of bytes, or fails and sends none |
| Wire.Socket.Destroy | peakAnalyserApp/src/HTTPClient.cpp:60-65 | only a live descriptor can be destroyed, so it happens at most once |
| Wire.ReadLine | peakAnalyserApp/src/HTTPCommon.cpp:84-110 | returns the first line with its line feed, or the unfinished last line, and leaves the rest unread, byte by byte; false only on an error or an empty stream |
| Wire.ReadLineCrLf | peakAnalyserApp/src/HTTPCommon.cpp:84-110 | text without a line feed, followed by CR LF, is read back as exactly that line |
| Wire.ReadLineExtends | peakAnalyserApp/src/HTTPCommon.cpp:84-110 | a finished line does not depend on what follows it |
| Wire.ReadFixedContent | peakAnalyserApp/src/HTTPCommon.cpp:129-145 | appends exactly `length` bytes however `recv` splits them, or appends nothing and has lost fewer; without errors it fails only on a shorter stream, which is then used up; it throws exactly for a length above that of the largest vector, before anything is read |
| Wire.ReadIndefiniteContent | peakAnalyserApp/src/HTTPCommon.cpp:113-126 | appends the whole rest of the stream |
| Wire.Write | peakAnalyserApp/src/HTTPCommon.cpp:177-190 | true means that all the data was sent, in order; without errors it is always true |
| Wire.ReadChunk | peakAnalyserApp/src/HTTPCommon.cpp:150-173 | one round: a size line, that many bytes and an empty line, or failure, or the exception for a size that no vector can have |
| Wire.ReadChunkedContent | peakAnalyserApp/src/HTTPCommon.cpp:148-174 | terminates on every finite stream; its result, the data and the bytes left or the exception, does not depend on how `recv` splits the stream |
| Wire.HugeChunkThrows | peakAnalyserApp/src/HTTPCommon.cpp:131-155 | chunked decoding throws if and only if behind some whole chunks there is a size line above the largest vector |
| Wire.ChunkedRoundTrip | peakAnalyserApp/src/HTTPCommon.cpp:148-174 | for any non-empty chunks with any spelling of their sizes and any extensions, decoding yields the concatenated data and leaves the following bytes unread (section 7.1 of RFC 9112, without trailers) |
| Wire.ChunkedIsSelfDelimiting | peakAnalyserApp/src/HTTPCommon.cpp:148-174 | a complete chunked body is decoded without looking past its end, well-formed by RFC 9112 or not |
| HttpFraming.RoundExactly | peakAnalyserApp/src/HTTPCommon.cpp:150-173 | a round is exactly a size line, as many bytes as it says, and an empty line |
| HttpFraming.ChunkedExactly | peakAnalyserApp/src/HTTPCommon.cpp:148-174 | chunked content is exactly such rounds up to a size line of 0 and an empty line, and its data are their bytes |
| HttpMessages.HeaderLineRoundTrip | peakAnalyserApp/src/HTTPCommon.cpp:66-81 | a printed header line is parsed back to its key and its trimmed value |
| HttpFraming.HeaderLineParts | peakAnalyserApp/src/HTTPCommon.cpp:66-81 | a header line is its key, the first colon, and the value between any blanks; without a value it throws, without a colon it is none |
| HttpMessages.ReadHeaders | peakAnalyserApp/src/HTTPClient.cpp:246-264 | the header loop: lines without CR LF or without a colon are skipped, the empty line ends it, a blank value is the exception of `substr` |
| HttpMessages.PrintedHeadersAreRead | peakAnalyserApp/src/HTTPClient.cpp:246-264 | a printed header block leaves exactly its headers in the map and its tail unread |
| HttpMessages.HeadersExtend | peakAnalyserApp/src/HTTPClient.cpp:246-264 | a complete header block does not depend on what follows its empty line |
| HttpMessages.AddAllLookup | peakAnalyserApp/src/HTTPCommon.cpp:78 | with distinct keys every header is found under its own value and no other key is touched |
| HttpMessages.FormatRequest | peakAnalyserApp/src/HTTPClient.cpp:179-189 | the text accumulated piece by piece is the request line, all headers, an empty line and the content |
| HttpFraming.RequestText | peakAnalyserApp/src/HTTPClient.cpp:179-189 | the printed request, written out: request line with the path, Host, the headers, Content-Length if there is content, an empty line, the content |
| HttpFraming.HeadersText | peakAnalyserApp/src/HTTPClient.cpp:184-187 | each header is printed as its key, a colon, a space and its value on a line of its own |
| HttpMessages.RequestHeadIsRead | peakAnalyserApp/src/HTTPClient.cpp:179-189 | the request line and headers of a printed POST request are read back, with its body left unread |
| HttpMessages.RequestRoundTrip | peakAnalyserApp/src/HTTPClient.cpp:179-189 | printed POST requests are read back with the same method, headers (plus Host and, if there is content, Content-Length) and content, consuming exactly their bytes |
| HttpMessages.ResponseExtends | peakAnalyserApp/src/HTTPClient.cpp:231-286 | a chunked or Content-Length response is read without looking past its end (section 6.3 of RFC 9112) |
| HttpMessages.ResponseRoundTrip | peakAnalyserApp/src/HTTPClient.cpp:231-286 | a response encoded with either framing is read back with its headers and body; chunked takes priority over Content-Length |
| HttpFraming.ResponseHead | peakAnalyserApp/src/HTTPClient.cpp:231-264 | printed headers with distinct keys are all in the map, with nothing else, and leave the body |
| HttpFraming.FixedResponseIsRead | peakAnalyserApp/src/HTTPClient.cpp:265-286 | a response that lists Content-Length and not `Transfer-Encoding: chunked` is read as so many bytes, with the rest unread |
| HttpFraming.ChunkedResponseIsRead | peakAnalyserApp/src/HTTPClient.cpp:265-286 | one that lists `Transfer-Encoding: chunked` is read by its chunks, with a Content-Length or without |
| HttpFraming.OpenResponseIsRead | peakAnalyserApp/src/HTTPClient.cpp:273-275 | one that lists neither is read up to the end of the stream |
| HttpFraming.CutResponseFails | peakAnalyserApp/src/HTTPClient.cpp:277-283 | one whose stream ends before its Content-Length is refused |
| HttpMessages.EncodedResponseIsComplete | peakAnalyserApp/src/HTTPClient.cpp:231-292 | encoded responses that do not ask to close are complete in the sense persistent connections need |
| HttpMessages.PersistentConnection | peakAnalyserApp/src/HTTPClient.cpp:231-292 | on a concatenation of complete responses the k-th read starts and ends exactly at the k-th response |
| HttpClient.Client.constructor | peakAnalyserApp/src/HTTPClient.cpp:42-46 | all slots are closed and no descriptor exists |
| HttpClient.Client.Close | peakAnalyserApp/src/HTTPClient.cpp:60-65 | destroys the descriptor of an open slot, exactly once, and keeps the ownership invariant |
| HttpClient.Client.Connect | peakAnalyserApp/src/HTTPClient.cpp:67-141 | true exactly when the slot ends open; an open slot is left alone; a descriptor whose connection fails is destroyed at once; no other descriptor changes |
| HttpClient.Client.Attempt | peakAnalyserApp/src/HTTPClient.cpp:193-292 | one pass behind `connect`: what is read is what the connection had to offer; a retry is possible only before headers are parsed; a failed pass leaves the slot closed, an exception, from headers, lengths or chunk sizes, leaves it open; without errors there is a response, or an exception, if and only if the stream says so |
| HttpClient.Client.Round | peakAnalyserApp/src/HTTPClient.cpp:192-292 | one pass with its `connect`: at most one descriptor is created, it carries the request at most once, and no other descriptor is touched |
| HttpClient.ReadResponse | peakAnalyserApp/src/HTTPClient.cpp:230-286 | status line, headers and content as a function of the stream, exceptions included |
| HttpClient.Client.DoRequest | peakAnalyserApp/src/HTTPClient.cpp:162-293 | at most two connects and two sends, at most two descriptors involved, each carrying the request at most once, all others untouched; at most one look at headers; a returned response is read from one connection, from its first byte if it is new; a refused request leaves the slot closed; on an open connection without errors there is a response, or an exception, if and only if the stream says so |
| HttpClient.ReadAfterStatus | peakAnalyserApp/src/HTTPClient.cpp:245-286 | headers and content behind the status line, as a function of the stream, exceptions included |
| HttpExceptions.SubstrThrows | peakAnalyserApp/src/HTTPCommon.cpp:73-76 | `substr` throws exactly for a line with nothing but white space behind its first colon |
| HttpExceptions.BlockByLines | peakAnalyserApp/src/HTTPClient.cpp:246-264 | the header loop throws at the first blank value, or ends at the first empty line with the headers before it, whichever comes first, and fails when there is neither |
| HttpExceptions.BlockLeaves | peakAnalyserApp/src/HTTPClient.cpp:246-264 | the header loop leaves what is behind the first empty line |
| HttpExceptions.ContentThrows | peakAnalyserApp/src/HTTPClient.cpp:265-283 | behind the headers an exception comes from their Content-Length or from a chunk size, and from nothing else |
| HttpExceptions.EscapesExactlyWhen | peakAnalyserApp/src/HTTPClient.cpp:246-283 | an exception leaves the reading of a response if and only if a blank value comes before any empty line; or the headers before it have a Content-Length that is no `int`, or a negative one that is used; or they announce chunks and behind whole chunks comes a size above that of the largest vector |
| HttpExceptions.BlankHeaderEscapes | peakAnalyserApp/src/HTTPCommon.cpp:74-76 | a stream whose first header has no value does |
| HttpExceptions.PrintedHeadersEscape | peakAnalyserApp/src/HTTPClient.cpp:266 | a response with proper headers does if and only if its Content-Length cannot be used, or behind whole chunks comes a size that no vector can have |
| HttpExceptions.ChunkedEscapes | peakAnalyserApp/src/HTTPClient.cpp:266-271 | a Content-Length that `stoi` cannot read does, though the content is chunked |
| HttpExceptions.HugeSizeEscapes | peakAnalyserApp/src/HTTPCommon.cpp:131-160 | with nothing wrong in the headers, a first chunk size above the largest vector does |
| HttpExceptions.MinusOne | peakAnalyserApp/src/HTTPCommon.cpp:155 | `-1` is such a size |
| HttpExceptions.RequestByLines | peakAnalyserApp/src/JsonRPCClientHTTP.cpp:218-244 | for the handler of notifications: a POST request throws if and only if its headers end at a blank value, or have a Content-Length that is no `int` or negative; otherwise its content begins behind the first empty line |
| HttpExceptions.OtherwiseDropped | peakAnalyserApp/src/JsonRPCClientHTTP.cpp:200-226 | any other stream is dropped: empty, not POST, or without an end of its headers |
| HttpClient.ReadBody | peakAnalyserApp/src/HTTPClient.cpp:265-286 | the framing decision: chunked, else to the end of the stream without Content-Length, else that many bytes; a Content-Length that is no `int` throws even for chunked content, a length or a chunk size no vector can have throws where the buffer is made |
| HttpClient.Client.Destroy | peakAnalyserApp/src/HTTPClient.cpp:49-58 | after the destructor every descriptor ever created is dead and was destroyed exactly once |
| HttpClient.Serve | peakAnalyserApp/src/HTTPClient.cpp:162-293 | one request in the life of a client: afterwards the slot is closed exactly if it was refused or the response asks for it; one that found the slot closed is served by a descriptor created for it |
| HttpClient.Lifetime | peakAnalyserApp/src/HTTPClient.cpp:49-293 | over a whole life, whatever requests are made and whatever fails: every descriptor ever created was created for one of the requests, at most two for each, and is destroyed exactly once; a request that finds the slot closed and is not refused has one, and gets the response that it offered first |
| HttpClient.Session | peakAnalyserApp/src/HTTPClient.cpp:231-292 | k requests on one persistent connection return the k responses in order, leave what follows unread, and send exactly the printed requests |
| NotificationServer.Server.Subscribe | peakAnalyserApp/src/JsonRPCClientHTTP.cpp:65-68 | the topic leads to the new callback, others are unchanged |
| NotificationServer.Server.Unsubscribe | peakAnalyserApp/src/JsonRPCClientHTTP.cpp:70-75 | the topic is gone, others are unchanged |
| NotificationServer.ReadRequestContent | peakAnalyserApp/src/JsonRPCClientHTTP.cpp:238-244 | content of the given length; a short body is not noticed, nor is one that breaks off with an error, behind which reading goes on in the middle of the body; a Content-Length that is no size throws |
| NotificationServer.ReadRequest | peakAnalyserApp/src/JsonRPCClientHTTP.cpp:200-244 | the request as a function of the stream and of where its body was torn, if it was |
| HttpFraming.OnlyPost | peakAnalyserApp/src/JsonRPCClientHTTP.cpp:205-208 | the method of a request is the first word of its request line |
| HttpFraming.NotPostIsDropped | peakAnalyserApp/src/JsonRPCClientHTTP.cpp:210-215 | a request whose first word is not POST is dropped |
| HttpFraming.ShortRequestIsAccepted | peakAnalyserApp/src/JsonRPCClientHTTP.cpp:243-244 | a printed request whose body is cut short by the end of the stream is accepted with its headers and no content |
| NotificationServer.Server.HandleRequest | peakAnalyserApp/src/JsonRPCClientHTTP.cpp:200-267 | one request: at most one callback, then one reply, which only an error can cut short |
| NotificationServer.Server.ClientHandler | peakAnalyserApp/src/JsonRPCClientHTTP.cpp:180-274 | exactly the callbacks and replies of the specification, however the bytes are split; on a connection that fails, those of the requests it took, given which bodies were torn, the last reply perhaps cut short; the socket is destroyed once, except when an exception leaves the handler |
| NotificationServer.OnItsWay | peakAnalyserApp/src/JsonRPCClientHTTP.cpp:184-271 | behind any number of whole requests, the trace of the stream is the callbacks and replies so far and what is still to come |
| NotificationServer.CallbacksArePrefix | peakAnalyserApp/src/JsonRPCClientHTTP.cpp:184-271 | as long as no body is torn, the callbacks and replies on a failing connection are the first ones of the trace |
| NotificationServer.EndsAsTrace | peakAnalyserApp/src/JsonRPCClientHTTP.cpp:184-274 | without errors the handler stops where the trace does |
| NotificationServer.TornIsRead | peakAnalyserApp/src/JsonRPCClientHTTP.cpp:243-244 | behind a torn printed notification the rest of its body comes next |
| NotificationCalls.TornBody | peakAnalyserApp/src/JsonRPCClientHTTP.cpp:243-244 | a body can be torn at exactly the bytes that are there and before its Content-Length, and the next request begins there |
| NotificationServer.TornNotification | peakAnalyserApp/src/JsonRPCClientHTTP.cpp:243-255 | a body that is itself a printed notification: torn, it leads to a callback that the trace does not have |
| NotificationServer.TornStream | peakAnalyserApp/src/JsonRPCClientHTTP.cpp:243-255 | such a stream, with one method registered |
| NotificationServer.OneRound | peakAnalyserApp/src/JsonRPCClientHTTP.cpp:184-271 | one round of the handler leaves one request less to come, or is the last |
| NotificationServer.ClosesAsParsed | peakAnalyserApp/src/JsonRPCClientHTTP.cpp:240 | the parsed map asks to close exactly when the printed request has the header `Connection: close` |
| NotificationServer.OneNotification | peakAnalyserApp/src/JsonRPCClientHTTP.cpp:200-271 | a printed notification is dispatched by its content, answered once, and the next bytes are looked at only if it does not close |
| NotificationServer.NotificationStream | peakAnalyserApp/src/JsonRPCClientHTTP.cpp:184-274 | a stream of notifications: callbacks in stream order for registered methods, one 204 per request, nothing behind the first close |
| NotificationCalls.TraceCalls | peakAnalyserApp/src/JsonRPCClientHTTP.cpp:247-262 | the calls are, in order, one for each content that decodes to a registered method, to the callback registered for it, with the decoded parameters; and there is one reply for each content |
| NotificationCalls.TakenCalls | peakAnalyserApp/src/JsonRPCClientHTTP.cpp:247-262 | so they are on a connection that fails, where a torn content is empty |
| NotificationCalls.StreamCalls | peakAnalyserApp/src/JsonRPCClientHTTP.cpp:184-274 | and on a stream of printed notifications, for the contents up to the first close |
| NotificationCalls.ReplyIsRead | peakAnalyserApp/src/JsonRPCClientHTTP.cpp:258 | the reply is a response that says 204 and has no content, whatever follows it |
| NotificationCalls.SubscribeAndNotify | peakAnalyserApp/src/JsonRPCClientHTTP.cpp:65-68 | after subscribing to a topic, a notification for it calls that callback with its parameters, once, and is answered |
| NotificationCalls.UnsubscribeAndNotify | peakAnalyserApp/src/JsonRPCClientHTTP.cpp:70-75 | after unsubscribing, it calls nothing and is answered all the same |
| Subscriptions.PeakApi.SubscribeToObservable | peakAnalyserApp/src/peakApi.cpp:145-174 | the counter moves even if the call throws; otherwise callback table and guid map gain the new name, an existing guid keeping its old one |
| Subscriptions.PeakApi.SubscribeToState | peakAnalyserApp/src/peakApi.cpp:176-193 | the state counter moves even if the call throws; otherwise callback table and guid map gain the new `State` name |
| Subscriptions.PeakApi.Unsubscribe | peakAnalyserApp/src/peakApi.cpp:195-205 | an unknown guid or a call that throws changes nothing; otherwise map and table both lose the entry |
| Subscriptions.NoDigitsNoCollision | peakAnalyserApp/src/peakApi.cpp:154 | names that do not end in a digit, none of them `State`, are compatible |
| Subscriptions.NamesApart | peakAnalyserApp/src/peakApi.cpp:154-180 | among compatible names a method name says which name and which counter value it was made of |
| Subscriptions.NewObservableName | peakAnalyserApp/src/peakApi.cpp:147-154 | among compatible names a subscription gets a method that is not yet in the table |
| Subscriptions.NewStateName | peakAnalyserApp/src/peakApi.cpp:178-180 | so does a state subscription |
| Subscriptions.SubscribedAgrees | peakAnalyserApp/src/peakApi.cpp:168-171 | any subscription keeps maps and table in bijection if and only if guid and method are both new, or neither is and what is written over was the same |
| Subscriptions.CancelAgrees | peakAnalyserApp/src/peakApi.cpp:195-205 | unsubscribing keeps the bijection |
| Subscriptions.StepAgrees | peakAnalyserApp/src/peakApi.cpp:145-205 | with compatible names every operation keeps agreement and numbering |
| Subscriptions.RunAgrees | peakAnalyserApp/src/peakApi.cpp:145-205 | with compatible names any interleaving by any number of clients, thrown calls included, ends with injective maps in bijection with the shared table, each subscription leading to its own callback |
| Subscriptions.Perform | peakAnalyserApp/src/peakApi.cpp:145-205 | one operation on the objects is one step of the specification |
| Subscriptions.PerformAll | peakAnalyserApp/src/peakApi.cpp:145-205 | a run of the objects from construction, over compatible names, ends in agreement |
| Subscriptions.NumberedNameCollides | peakAnalyserApp/src/peakApi.cpp:154 | a name that is another one, or `State`, with a number behind it: a run from the start that ends with two subscriptions under one method |
| Subscriptions.StateNameCollides | peakAnalyserApp/src/peakApi.cpp:180 | an observable called `State`: a run from the start that ends with two subscriptions under one method |
| Subscriptions.AgreesExactlyWhen | peakAnalyserApp/src/peakApi.cpp:145-205 | every run over a set of names ends in agreement if and only if none is `State` and none is another one, or `State`, with a positive number behind it |
| Base64.WriteGroup | peakAnalyserApp/src/base64.cpp:34-37 | one group writes three bytes and touches no others |
| Base64.Decode | peakAnalyserApp/src/base64.cpp:20-40 | writes exactly the decoded bytes, three per group, reads nothing behind the terminator of the text, and leaves the rest of the output alone |
| Base64.CharIsReadBack | peakAnalyserApp/src/base64.cpp:9-18 | the table inverts both alphabets (sections 4 and 5 of RFC 4648) |
| Base64.AlphabetTable | peakAnalyserApp/src/base64.cpp:9-18 | the characters of the two alphabets are those of sections 4 and 5 of RFC 4648, in their order |
| Base64.TableOf | peakAnalyserApp/src/base64.cpp:9-18 | besides the two alphabets only ',' and '.' have an entry |
| Base64.GroupRoundTrip | peakAnalyserApp/src/base64.cpp:34-37 | an encoded group is decoded to its bytes and one zero for every `=` |
| Base64.BreaksAreSkipped | peakAnalyserApp/src/base64.cpp:30-33 | line breaks in front of a group make no difference |
| Base64.DecodeInvertsEncode | peakAnalyserApp/src/base64.cpp:20-40 | for all bytes, both alphabets, and line breaks between groups, decoding gives the bytes followed by one zero per `=` |
| Base64.CallerRoomExactlyWhen | peakAnalyserApp/src/peakApi.cpp:30-35 | the room the caller makes, whole floats of four bytes, is enough for what the decoder writes if and only if the number of bytes is a multiple of 12 |
| BuffersIterator.Iterator.Begin | peakAnalyserApp/src/extern/asio/buffers_iterator.hpp:167-184 | stands in the first non-empty buffer, at position 0 |
| BuffersIterator.Iterator.End | peakAnalyserApp/src/extern/asio/buffers_iterator.hpp:187-203 | stands behind the last buffer, at the total size |
| BuffersIterator.Iterator.FindNext | peakAnalyserApp/src/extern/asio/buffers_iterator.hpp:362-373 | moves over empty buffers without changing the position |
| BuffersIterator.FlatAt | peakAnalyserApp/src/extern/asio/buffers_iterator.hpp:341-345 | a byte of a buffer is the byte of the concatenation at the sizes before it plus its offset |
| BuffersIterator.Iterator.Dereference | peakAnalyserApp/src/extern/asio/buffers_iterator.hpp:341-345 | reads the flat concatenation at the position of the iterator |
| BuffersIterator.Iterator.Increment | peakAnalyserApp/src/extern/asio/buffers_iterator.hpp:354-374 | keeps the invariant and adds one to the position, over empty buffers |
| BuffersIterator.Iterator.Decrement | peakAnalyserApp/src/extern/asio/buffers_iterator.hpp:377-404 | keeps the invariant and takes one off the position; the end of the search is never reached |
| BuffersIterator.Iterator.Advance | peakAnalyserApp/src/extern/asio/buffers_iterator.hpp:407-485 | keeps the invariant and adds n to the position, in either direction |
| BuffersIterator.Iterator.AdvanceForward | peakAnalyserApp/src/extern/asio/buffers_iterator.hpp:409-437 | the forward loop terminates and the assertion of the source holds |
| BuffersIterator.Iterator.AdvanceBackward | peakAnalyserApp/src/extern/asio/buffers_iterator.hpp:438-484 | the backward loop terminates and the assertion of the source holds |
| BuffersIterator.SomeBytesBefore | peakAnalyserApp/src/extern/asio/buffers_iterator.hpp:462-483 | a positive position has a non-empty buffer before it, so the backward search succeeds |
| BuffersIterator.AdvanceByDistance | peakAnalyserApp/src/extern/asio/buffers_iterator.hpp:407-491 | advancing by `distance_to` of another iterator leads to the same buffer and offset, in either direction |
| BuffersIterator.StandsUnique | peakAnalyserApp/src/extern/asio/buffers_iterator.hpp:348-351 | the position determines buffer and offset |
| BuffersIterator.StandsExists | peakAnalyserApp/src/extern/asio/buffers_iterator.hpp:407-485 | every position up to the total size can be stood at |
| BuffersIterator.EqualIsSamePlace | peakAnalyserApp/src/extern/asio/buffers_iterator.hpp:348-351 | iterators compare equal exactly when they stand at the same place |
| BuffersIterator.AdvanceIsStepping | peakAnalyserApp/src/extern/asio/buffers_iterator.hpp:354-485 | `advance(n)` lands where n increments or -n decrements do |
| BufferCopy.CopyOne | peakAnalyserApp/src/extern/asio/buffer.hpp:2173-2183 | the smaller size is copied and no other byte changes |
| BufferCopy.CopyStep | peakAnalyserApp/src/extern/asio/buffer.hpp:2263-2287 | copying between aligned offsets extends the copied flat prefix |
| BufferCopy.OneToOne | peakAnalyserApp/src/extern/asio/buffer.hpp:2185-2191 | returns the minimum of both total sizes; the flat prefixes agree and nothing else changes |
| BufferCopy.OneToOneLimited | peakAnalyserApp/src/extern/asio/buffer.hpp:2193-2201 | returns the minimum of both total sizes and the limit; the flat prefixes agree and nothing else changes |
| BufferCopy.OneToMany | peakAnalyserApp/src/extern/asio/buffer.hpp:2203-2224 | many source buffers, empty ones included: returns the minimum of the total sizes and the limit; the flat prefixes agree and nothing else changes |
| BufferCopy.ManyToOne | peakAnalyserApp/src/extern/asio/buffer.hpp:2226-2247 | many target buffers, empty ones included: returns the minimum of the total sizes and the limit; the flat prefixes agree and nothing else changes |
| BufferCopy.ManyToMany | peakAnalyserApp/src/extern/asio/buffer.hpp:2249-2291 | many of both: terminates, returns the minimum of the total sizes; the flat prefixes agree and nothing else changes |
| BufferCopy.ManyToManyLimited | peakAnalyserApp/src/extern/asio/buffer.hpp:2293-2339 | many of both with a limit: terminates, returns the minimum of the total sizes and the limit; the flat prefixes agree and nothing else changes |
| BufferCopy.CopiedFlat | peakAnalyserApp/src/extern/asio/buffer.hpp:2249-2339 | what the copies promise, read flat: the target starts with the source prefix and goes on as before, the source is unchanged |
| BufferCopy.CopyFlat | peakAnalyserApp/src/extern/asio/buffer.hpp:2185-2339 | whichever overload the shapes select, the flat result is the same |
| StreamBuffers.StreamBuf.constructor | peakAnalyserApp/src/extern/asio/basic_streambuf.hpp:131-141 | the queue is empty and the offsets are in order |
| StreamBuffers.StreamBuf.Size | peakAnalyserApp/src/extern/asio/basic_streambuf.hpp:158-161 | the number of readable bytes |
| StreamBuffers.StreamBuf.Reserve | peakAnalyserApp/src/extern/asio/basic_streambuf.hpp:308-346 | succeeds exactly when the maximum is not exceeded and then keeps the readable bytes; a failure has shifted the bytes but not the offsets |
| StreamBuffers.StreamBuf.MoveToFront | peakAnalyserApp/src/extern/asio/basic_streambuf.hpp:322-326 | the overlapping move keeps the bytes |
| StreamBuffers.StreamBuf.Resize | peakAnalyserApp/src/extern/asio/basic_streambuf.hpp:334 | the first bytes survive |
| StreamBuffers.StreamBuf.Prepare | peakAnalyserApp/src/extern/asio/basic_streambuf.hpp:214-219 | fails exactly when size() + n > max_size(); success leaves the readable bytes and room for n |
| StreamBuffers.StreamBuf.Commit | peakAnalyserApp/src/extern/asio/basic_streambuf.hpp:233-238 | appends the first n prepared bytes to the readable ones; the put pointer moves by as many if and only if they are at most 2^31 - 1 |
| StreamBuffers.StreamBuf.Consume | peakAnalyserApp/src/extern/asio/basic_streambuf.hpp:247-254 | removes the first n readable bytes, or all; the get pointer moves by as many if and only if they are at most 2^31 - 1 |
| StreamBuffers.StreamBuf.Underflow | peakAnalyserApp/src/extern/asio/basic_streambuf.hpp:263-274 | shows the next byte if there is one and removes nothing |
| StreamBuffers.StreamBuf.MakeRoom | peakAnalyserApp/src/extern/asio/basic_streambuf.hpp:287-298 | makes room for a byte unless the queue is full; a failure loses nothing |
| StreamBuffers.StreamBuf.Overflow | peakAnalyserApp/src/extern/asio/basic_streambuf.hpp:283-306 | appends one byte, failing exactly when the queue is full; the end-of-file value changes nothing |
| StreamBuffers.FailureKeepsContents | peakAnalyserApp/src/extern/asio/basic_streambuf.hpp:321-340 | a failed `prepare` keeps the readable bytes if and only if nothing, or at least as much as is left, had been consumed |
| StreamBuffers.ToIntExact | peakAnalyserApp/src/extern/asio/basic_streambuf.hpp:236 | the narrowing to `int` is exact if and only if the size fits |
| StreamBuffers.StringBuffer.constructor | peakAnalyserApp/src/extern/asio/buffer.hpp:1571-1579 | the string, which may be longer than the maximum, is readable at first |
| StreamBuffers.StringBuffer.Size | peakAnalyserApp/src/extern/asio/buffer.hpp:1611-1618 | the number of readable bytes if and only if the string fits or `prepare` has been called |
| StreamBuffers.StringBuffer.Prepare | peakAnalyserApp/src/extern/asio/buffer.hpp:1714-1728 | fails exactly when size() + n > max_size(), and then changes nothing; success leaves room for exactly n bytes; more than the maximum is readable afterwards only when nothing was asked for |
| StreamBuffers.StringBuffer.Commit | peakAnalyserApp/src/extern/asio/buffer.hpp:1743-1747 | appends the first n prepared bytes to the readable ones |
| StreamBuffers.StringBuffer.Consume | peakAnalyserApp/src/extern/asio/buffer.hpp:1792-1804 | removes the first n readable bytes, or all, before and after the first prepare |
| StreamBuffers.OneUse | peakAnalyserApp/src/extern/asio/basic_streambuf.hpp:214-306 | what a use takes off the front and leaves is what was there with what it adds at the end |
| StreamBuffers.FirstInFirstOut | peakAnalyserApp/src/extern/asio/basic_streambuf.hpp:214-306 | what was put in is what was taken out followed by what is readable, for every mix of prepare and commit, consume, overflow, and underflow with consume |
| StreamBuffers.UseStreamBuf | peakAnalyserApp/src/extern/asio/basic_streambuf.hpp:214-306 | one use is one use of the plain byte queue, and the byte that is shown is the one that is taken |
| StreamBuffers.UseStringBuffer | peakAnalyserApp/src/extern/asio/buffer.hpp:1714-1804 | one use of the string buffer is one use of the plain byte queue |
| StreamBuffers.RoomsBound | peakAnalyserApp/src/extern/asio/buffer.hpp:1714-1804 | no use asks for more than all of them together |
| StreamBuffers.SideBySide | peakAnalyserApp/src/extern/asio/basic_streambuf.hpp:214-306 | both buffers hold the same bytes after every use and fail at the same one |
| PeakSpectrum.CreateAxis | peakAnalyserApp/src/peakApi.cpp:65-80 | the points are offset + delta * i, a single point is the centre, a negative count throws |
| PeakSpectrum.AxisPointsAre | peakAnalyserApp/src/peakApi.cpp:65-80 | a single point is the centre; several begin at the offset and are one delta apart |
| PeakSpectrum.SumColumns | peakAnalyserApp/src/peakApi.cpp:92-94 | the nested loops add up every column |
| PeakSpectrum.Integrate | peakAnalyserApp/src/peakApi.cpp:82-97 | the column sums of the last frame, which add up to the sum of its pixels |
| PeakSpectrum.FrameIsLast | peakAnalyserApp/src/peakApi.cpp:88-90 | the frame is the last one of a three-dimensional data set, and the first pixels of any other |
| PeakSpectrum.ColumnSumIsSum | peakAnalyserApp/src/peakApi.cpp:92-94 | a column sum is the sum of the pixels `image[j * width + i]` |
| PeakSpectrum.ExchangeSums | peakAnalyserApp/src/peakApi.cpp:92-94 | adding up columns and adding up rows gives the same total |
| PeakSpectrum.RowTotalIsSum | peakAnalyserApp/src/peakApi.cpp:90-94 | the row-by-row total is the sum of all pixels of the frame |
| PeakSpectrum.IntegrationConservesCounts | peakAnalyserApp/src/peakApi.cpp:82-97 | column sums conserve the counts of a frame |
| SpectrumSettings.Clamp | peakAnalyserApp/src/peakAnalyser.cpp:1467-1475 | inside the range, unchanged if it was inside already |
| SpectrumSettings.Driver.SetPassEnergy | peakAnalyserApp/src/peakAnalyser.cpp:1416-1424 | the first index of the energy, or no change if it is not on the list |
| SpectrumSettings.Driver.SetRegion | peakAnalyserApp/src/peakAnalyser.cpp:1506-1568 | the new parameters as a function of the old and the reply |
| SpectrumSettings.Driver.SetupSpectrumDefinition | peakAnalyserApp/src/peakAnalyser.cpp:1570-1732 | the new settings as a function of the old and the reply, early returns included |
| SpectrumSettings.Driver.SetROI | peakAnalyserApp/src/peakAnalyser.cpp:1394-1414 | sizes are cut to the detector |
| SpectrumSettings.Driver.WriteInt32 | peakAnalyserApp/src/peakAnalyser.cpp:860-967 | the new settings as a function of the old, with rejected values restored |
| SpectrumSettings.Driver.UpdateRequested | peakAnalyserApp/src/peakAnalyser.cpp:1044-1087 | a written centre moves both ends of a swept axis |
| SpectrumSettings.Driver.WriteFloat64 | peakAnalyserApp/src/peakAnalyser.cpp:1014-1106 | the new settings as a function of the old |
| SpectrumSettings.AcceptKeeps | peakAnalyserApp/src/peakAnalyser.cpp:860-967 | an accepted or rejected integer keeps the modes compatible; flags follow the lens mode |
| SpectrumSettings.SetUpKeeps | peakAnalyserApp/src/peakAnalyser.cpp:1570-1732 | setting up keeps the modes compatible and leaves only sound definitions |
| SpectrumSettings.WriteKeeps | peakAnalyserApp/src/peakAnalyser.cpp:809-1106 | every write keeps: ThetaY is swept only with a lens mode that has it; the definition has each of X and Z either swept or fixed, a positive start, a pass energy from the list |
| SpectrumSettings.AllWritten | peakAnalyserApp/src/peakAnalyser.cpp:809-1106 | over every sequence of writes and replies the modes stay compatible and the definition sound |
| SpectrumSettings.WriteAll | peakAnalyserApp/src/peakAnalyser.cpp:809-1106 | the object follows the specification over every sequence of writes |
| SpectrumSettings.RoiFits | peakAnalyserApp/src/peakAnalyser.cpp:1394-1414 | the region of interest ends inside the detector, starts where it did, and has a positive size left if and only if it starts inside |
| SpectrumSettings.AreaFits | peakAnalyserApp/src/peakAnalyser.cpp:1678-1685 | the area that is sent is as large as the region of interest and ends inside the detector |
| SpectrumSettings.DetectorSizeInRange | peakAnalyserApp/src/peakAnalyser.cpp:884-907 | channels and slices end between 1 and the region's size if and only if that is positive; a value in range is kept |
| SpectrumSettings.RejectedWriteChangesNothing | peakAnalyserApp/src/peakAnalyser.cpp:860-960 | acquisition mode, lens mode and pass energy are accepted if and only if the modes still agree with the new value; a rejected write leaves every parameter as it was |
| SpectrumSettings.PassEnergyInRange | peakAnalyserApp/src/peakAnalyser.cpp:1610-1618 | the pass energy used is in the range of the lens mode if and only if the chosen one was, or the end of the range it is cut to is on the list |
| SpectrumSettings.CountReaches | peakAnalyserApp/src/peakAnalyser.cpp:1690 | the count is the least number of steps that reaches the width less epsilon, plus one |
| SpectrumSettings.GridCovers | peakAnalyserApp/src/peakAnalyser.cpp:1687-1692 | the last point is at least high - epsilon, the one before it is below; one point only for a range exactly epsilon wide |
| SpectrumSettings.GridEndsAtHigh | peakAnalyserApp/src/peakAnalyser.cpp:1687-1692 | the grid ends exactly at high if and only if the width is a multiple of the step |
| SpectrumSettings.WrongOrder | peakAnalyserApp/src/peakAnalyser.cpp:1690 | a range given the wrong way round is swept upwards from its low end |
| SpectrumSettings.CenterKeepsWidth | peakAnalyserApp/src/peakAnalyser.cpp:1057-1088 | writing the centre of a swept axis, energy or ThetaY, keeps its width if and only if the range is the right way round, puts the centre in its middle, and touches no other axis |
| SpectrumSettings.OtherWritesKeepRange | peakAnalyserApp/src/peakAnalyser.cpp:1044-1088 | any other write changes only the value that is written |
| SettingsSent.DefinitionDescribes | peakAnalyserApp/src/peakAnalyser.cpp:1659-1713 | the definition says, field by field, what the parameters and requested axes say: names, pass energy, dwell time, position, area, fixed centres and binnings, and sweeps with their counts |
| SettingsSent.PassEnergyIsSet | peakAnalyserApp/src/peakAnalyser.cpp:1416-1424 | an energy on the list is set with its first index and its value; any other changes nothing |
| SettingsSent.PassEnergyIsUsed | peakAnalyserApp/src/peakAnalyser.cpp:1610-1618 | the pass energy used is the first one on the list equal to the chosen one within the range of the lens mode, or else the chosen one |
| SettingsSent.RegionIsReadBack | peakAnalyserApp/src/peakAnalyser.cpp:1506-1568 | the readings are those of the reply, energies shifted back, an axis that is missing 0, and the steps the product of the swept axes |
| SettingsSent.SetUpTries | peakAnalyserApp/src/peakAnalyser.cpp:1570-1732 | a definition is sent exactly if every index is on its list and no swept energy is at or below zero; it describes the parameters, and only readings and the pass energy change |
| SettingsSent.RoiCut | peakAnalyserApp/src/peakAnalyser.cpp:1394-1414 | the sizes of the region are cut to the detector and nothing else changes |
| SettingsSent.AcceptTakes | peakAnalyserApp/src/peakAnalyser.cpp:860-960 | every integer parameter behind an integer write, written out, and which writes try to send |
| SettingsSent.IntWritten | peakAnalyserApp/src/peakAnalyser.cpp:809-967 | an integer write leads to those parameters, and one that tries to sends the definition that describes them |
| SettingsSent.FloatWritten | peakAnalyserApp/src/peakAnalyser.cpp:1014-1106 | a float write leads to the written value, and to the requested axes with a swept axis moved to the centre; one that tries to sends the definition that describes them |
| SettingsSent.DefinitionIsUpToDate | peakAnalyserApp/src/peakAnalyser.cpp:809-1106 | whatever is written and answered, the definition is the one from before or describes the parameters as they now are |
| SweepWrites.CountExactlyWhen | peakAnalyserApp/src/peakAnalyser.cpp:1690 | the count is n if and only if the width less epsilon takes n - 1 steps |
| SweepWrites.SweepsSent | peakAnalyserApp/src/peakAnalyser.cpp:1570-1732 | a definition is sent exactly if the indices are in range and no swept energy is at or below zero; its sweeps are those of the parameters as they were |
| SweepWrites.CenterEnergySent | peakAnalyserApp/src/peakAnalyser.cpp:1057-1067 | a written centre energy sends the same number of points around the new centre if the range is above zero, and nothing otherwise |
| SweepWrites.EnergyCountKept | peakAnalyserApp/src/peakAnalyser.cpp:1057-1067 | over any number of centre energies, whatever is answered, the width stays and every definition sent has the number of points of that width |
| SweepWrites.OverlapIsWhole | peakAnalyserApp/src/peakAnalyser.cpp:1653-1657 | a ThetaY range is sent with its whole width if and only if both ends are in the range of the lens mode |
| SweepWrites.CenterAngleSent | peakAnalyserApp/src/peakAnalyser.cpp:1077-1087 | a written centre angle keeps the requested width and sends the part of the range the lens mode has |
| SweepWrites.AngleCountKept | peakAnalyserApp/src/peakAnalyser.cpp:1707-1712 | a written centre angle keeps the number of points if and only if that part, less epsilon, takes as many steps |
| SweepWrites.AngleCountOfWidth | peakAnalyserApp/src/peakAnalyser.cpp:1653-1712 | a range of three points or more is sent with all its points if and only if more than its last step but epsilon stays in the range of the lens mode |
| SweepWrites.AngleCountChanges | peakAnalyserApp/src/peakAnalyser.cpp:1653-1712 | two centre angles, one after the other, for which the number of points changes |
| SpectrumSettings.ShiftUndone | peakAnalyserApp/src/peakAnalyser.cpp:1518-1533 | where the analyser answers with an energy it was sent, the value read back is the requested one, in binding mode too |
| Acquisition.InitiallyHolds | peakAnalyserApp/src/peakAnalyser.cpp:364-386 | the invariant holds before the first start |
| Acquisition.SetupKeeps | peakAnalyserApp/src/peakAnalyser.cpp:425-480 | the first calls of a run keep the invariant, whichever throws |
| Acquisition.ExposureKeeps | peakAnalyserApp/src/peakAnalyser.cpp:482-528 | clearing, starting, waiting for completion and fetching keep the invariant, whichever call throws |
| Acquisition.FinishKeeps | peakAnalyserApp/src/peakAnalyser.cpp:530-545 | unsubscribing and finishing spectrum and measurement keep the invariant, whichever call throws |
| Acquisition.HandlerKeeps | peakAnalyserApp/src/peakAnalyser.cpp:546-574 | the exception handler keeps the invariant, if its own calls succeed |
| Acquisition.LeavingKeeps | peakAnalyserApp/src/peakAnalyser.cpp:576-623 | the error and abort exits and the publishing of an image keep the invariant |
| Acquisition.FrameDoneKeeps | peakAnalyserApp/src/peakAnalyser.cpp:624-637 | the end of a frame keeps the invariant |
| Acquisition.WritesKeep | peakAnalyserApp/src/peakAnalyser.cpp:820-837 | starts and stops by the user, at any moment the task does not hold the lock, keep the invariant |
| Acquisition.StepKeeps | peakAnalyserApp/src/peakAnalyser.cpp:365-638 | every step of task, server and user keeps the invariant |
| Acquisition.RunKeeps | peakAnalyserApp/src/peakAnalyser.cpp:365-638 | every state of every run of the three parties has the invariant |
| Acquisition.MeasurementBracket | peakAnalyserApp/src/peakAnalyser.cpp:365-638 | over all runs: startMeasurement and finishMeasurement pair up, the server serves exactly the subscriptions the task holds, and when parked nothing is open, unless a stop came too late for the last frame with images still to take |
| Acquisition.ErrorsAndStopsClose | peakAnalyserApp/src/peakAnalyser.cpp:576-593 | an error or a stop that was seen leaves nothing open and no new image, and says which of the two it was; after an error the task parks with ADAcquire 0 |
| AcquisitionParking.StepAsSetUp | peakAnalyserApp/src/peakAnalyser.cpp:365-638 | every step keeps that inside a frame, and behind one that was not the last, the measurement is open if and only if the frames began with setting it up |
| AcquisitionParking.RunAsSetUp | peakAnalyserApp/src/peakAnalyser.cpp:365-638 | every state of every run has it, and as long as the driver is acquiring they did |
| AcquisitionParking.ParksOpenExactlyWhen | peakAnalyserApp/src/peakAnalyser.cpp:595-637 | in every run, at the end of a frame whose image was made, the task parks with a measurement open if and only if ADAcquire is 0, more images are to follow, and the frames began with setting up a measurement, as they do after every start event; either way it then reports Idle |
| AcquisitionReach.ReachableUnwritten | peakAnalyserApp/src/peakAnalyser.cpp:405-416 | as long as the settings are not written the task works with them, and whatever is open when it is parked belongs to a run that can have more images |
| AcquisitionReach.ParksOpenForSome | peakAnalyserApp/src/peakAnalyser.cpp:365-638 | with settings that are not written, some run from the start parks with a measurement open if and only if a second image is possible, whatever the number of exposures |
| AcquisitionReach.WakesOpenForSome | peakAnalyserApp/src/peakAnalyser.cpp:365-638 | and then, and only then, some run wakes up with it open |
| Acquisition.NextStartFails | peakAnalyserApp/src/peakAnalyser.cpp:388-430 | the next start after that ends in ADStatusError with everything closed |
| AcquisitionProgress.DoomedMoves | peakAnalyserApp/src/peakAnalyser.cpp:388-585 | after such a start every step of the task leads on to parking, and no step of another party leads back |
| AcquisitionProgress.NextStartParks | peakAnalyserApp/src/peakAnalyser.cpp:388-585 | eight steps of the task behind such a start, whatever happens in between, it has been parked, the first time with ADStatusError and everything closed |
| AcquisitionCounting.ConsecutiveIds | peakAnalyserApp/src/peakAnalyser.cpp:595-602 | over all runs images carry consecutive ids |
| AcquisitionCounting.NextExposureCounts | peakAnalyserApp/src/peakAnalyser.cpp:484 | the exposure loop runs max(0, numExposures) times |
| AcquisitionCounting.ExposureCounts | peakAnalyserApp/src/peakAnalyser.cpp:482-528 | progress inside one image: one clearing, then exactly the exposures so far |
| AcquisitionCounting.LeftCounts | peakAnalyserApp/src/peakAnalyser.cpp:576-623 | publishing adds exactly one image to the events |
| AcquisitionCounting.StepCounts | peakAnalyserApp/src/peakAnalyser.cpp:365-638 | every step keeps the count of images and exposures of a run that is left alone |
| AcquisitionCounting.RunCounts | peakAnalyserApp/src/peakAnalyser.cpp:365-638 | at every moment of a run that is left alone, its events are exactly the images and exposures its counters say |
| AcquisitionCounting.UndisturbedRun | peakAnalyserApp/src/peakAnalyser.cpp:405-634 | a run that is left alone takes exactly max(1, numImages) images in Multiple mode and one in Single mode, each one clearing and max(0, numExposures) starts, and ends Idle with ADAcquire 0 and nothing open |
| AcquisitionProgress.AloneStep | peakAnalyserApp/src/peakAnalyser.cpp:365-638 | in a run that is left alone every call finds what it needs, and every move of task or server makes what remains less |
| AcquisitionProgress.SomePartyMoves | peakAnalyserApp/src/peakAnalyser.cpp:388-500 | until the task is parked, the task or the server can move |
| AcquisitionProgress.MovesLeft | peakAnalyserApp/src/peakAnalyser.cpp:365-638 | over a stretch of a run that is left alone, the moves made and the moves remaining are no more than remained before |
| AcquisitionProgress.LeftAloneItParks | peakAnalyserApp/src/peakAnalyser.cpp:388-638 | a run taken up with nothing open, that has a last image and is left alone, has been parked after a number of moves that its settings bound, with the images that were wanted and everything closed |
| AcquisitionCounting.ParkingReads | peakAnalyserApp/src/peakAnalyser.cpp:367-388 | the task parks only with ADAcquire 0 |
| AcquisitionStarts.RunReported | peakAnalyserApp/src/peakAnalyser.cpp:576-637 | over all runs, a task that waits for a start has reported Idle, an error, or an abort |
| AcquisitionStarts.StartSignalled | peakAnalyserApp/src/peakAnalyser.cpp:820-828 | a written 1 gives the start event unless the status is Acquire, sets ADAcquire, and changes nothing else |
| AcquisitionStarts.StartIsTakenUp | peakAnalyserApp/src/peakAnalyser.cpp:367-430 | over all runs, a 1 written while the task is parked, after an error or an abort as well, begins a run at the second step of the task, at the first call, reporting Acquire, with ADAcquire set unless it is cleared in between |
| AcquisitionStarts.FrameTakesSettings | peakAnalyserApp/src/peakAnalyser.cpp:400-425 | a frame works with the settings and counters of the parameters when it begins, and sets up a measurement exactly if no image has been counted |
| AcquisitionStarts.SettingsAreWritten | peakAnalyserApp/src/peakAnalyser.cpp:809-820 | written settings are the parameters, and nothing else changes |
| AcquisitionEvents.InitialValues | peakAnalyserApp/src/peakAnalyser.cpp:364-388 | at first the task waits, reporting Idle, with nothing open, signalled or counted |
| AcquisitionEvents.WokenByStarts | peakAnalyserApp/src/peakAnalyser.cpp:388 | over all runs the task is woken at most as often as a start has been written |
| AcquisitionEvents.RunTidy | peakAnalyserApp/src/peakAnalyser.cpp:488-575 | over all runs, a stop event is only there while it is waited for, and a finished spectrum is forgotten |
| AcquisitionEvents.ThrowingCall | peakAnalyserApp/src/peakAnalyser.cpp:546-575 | a call that throws leads into the handler, or out of it, and changes nothing else |
| AcquisitionEvents.NoCall | peakAnalyserApp/src/peakAnalyser.cpp:538-565 | for a subscription or spectrum that the task has not got no call is made, so none can throw |
| AcquisitionEvents.RefusedCall | peakAnalyserApp/src/peakAnalyser.cpp:429-544 | a call that does not suit the state of the server is one that throws |
| AcquisitionStops.RunTells | peakAnalyserApp/src/peakAnalyser.cpp:388-638 | in the middle of any run the status is Acquire or Aborted, and says whether the run came from a start event |
| AcquisitionStops.StopEndsExactlyWhen | peakAnalyserApp/src/peakAnalyser.cpp:820-837 | a stop while the server runs ends the acquisition, and the task is told once, if and only if the call goes through and the run came from a start event, which is when ADStatus is Acquire; otherwise it only clears ADAcquire |
| AcquisitionStops.RunsToItsEnd | peakAnalyserApp/src/peakAnalyser.cpp:500-593 | in a run that did not, the server runs until it completes by itself, whatever the user writes |
| AcquisitionStops.DeafForSome | peakAnalyserApp/src/peakAnalyser.cpp:587-593 | with settings that are not written, some run comes to such an acquisition if and only if there are exposures to make |

## Left out

- Real sockets, name resolution, timeouts and `select`: a socket is a finite stream; a call moves any positive number of bytes or fails, and what a new connection offers is arbitrary.
- Sizes from 2^31 up to that of the largest vector, where the casts to `int` around `recv` and `send` narrow, and running out of memory. Larger sizes throw, as in the source.
- The status line: its text is kept, but the version and code that `sscanf` stores, and its fixed-size buffers, are not modelled.
- A request line without any token, or with a token longer than the handler's ten bytes: the first token is taken as it is.
- `_stop` and idle polling in the connection handler: the number of requests it gets to is a parameter.
- Concurrent `doRequest` calls: with one caller at a time the first of the five slots is always free and is the one taken.
- JSON: decoding a notification is a parameter, and a callback that throws is the same to the handler as one that returns. The callback table does not change while one connection is handled.
- `PeakAPI::unsubscribeAll`, the WebSocket client, and the wrap-around of the two counters at 2^64.
- Subscriptions.RunAgrees: asks for guids that are new to the client, which the server hands out.
- Acquisition.StepKeeps: the calls made inside the exception handler are taken to succeed; all other calls may throw, and a call that throws has no effect on the server.
- Acquisition.MeasurementBracket: the server changes state only by the calls of the driver and by finishing, its Error state does not occur, and notifications arrive once and in order. The acquisition is a transition system on values, because its parties run at the same time; the lock is the grain of the steps.
- AcquisitionCounting.UndisturbedRun: the user does not write NDArrayCounter or ADNumImagesCounter, in this and in all other runs; ADStatusDisconnected, the step and exposure progress parameters, image data, attributes and time stamps are not modelled.
- SpectrumSettings.Driver.WriteInt32: indices of lens mode and pass energy must not be negative, since the source uses them unchecked; NDDataType, NDColorMode, ADNumExposures, ZeroSupplies and the parameters of the base class are not modelled.
- Energies, angles and lengths are real numbers, without rounding.
- SpectrumSettings.Driver.SetupSpectrumDefinition: the estimated time and the texts shown beside the parameters are left out, names are their indices, and a reply is either complete or an exception.
- SpectrumSettings.AllWritten: the flags AnalyserWithSlice and AnalyserWithAngleY are unset until a lens mode is accepted, so that they follow it is promised from then on.
- `strftime`, `readEnum`, `report`, `writeOctet` and the queries made when connecting.
- BufferCopy.CopyOne: buffers are ranges of one memory; a target that overlaps a source or another target, which `memcpy` or the flat reading do not allow, is excluded.
- BuffersIterator.Iterator.Dereference: the contents of the buffers do not change while an iterator is used; writing through the iterator is not modelled.
- StreamBuffers.UseStreamBuf: single calls of commit and consume move at most 2^31 - 1 bytes, since a larger number is narrowed to `int`. Taking a byte is `underflow` and `consume`; the functions of `std::streambuf` that call `overflow` and `underflow` are not part of this model.
- StreamBuffers.StringBuffer.Prepare: with the largest `size_t` as the maximum, a string as long as that, which marks a buffer that has not been prepared, is excluded; `dynamic_vector_buffer` has the same code and is not repeated.
- Base64.Decode: texts that end one or two characters into a group, for which the source reads behind the terminator of the text, are excluded.
- PeakSpectrum.Integrate: data shorter than the frame, which the source reads past, is excluded.
- Trailer sections behind chunked content, which the source does not read.
- The rest of asio: sockets, acceptors, timers, executors and the like.
