/** The handler of JsonRPCClientHTTP.cpp that reads notifications from one connection, and the
    table of callbacks it dispatches to. JSON decoding is a parameter: a function from a body to
    the method and parameters it names, or None when parsing or a member access throws. */
module NotificationServer {
  import opened Machine
  import opened Wrappers
  import opened Numerals
  import opened Wire
  import opened HttpMessages

  datatype Callback = Callback(id: nat)
  type Params = string

  datatype Notification = Notification(method_: string, params: Params)

  datatype Call = Call(callback: Callback, params: Params)

  const NO_CONTENT: string := "HTTP/1.1 204 OK" + CRLF + "Content-Length: 0" + CRLF + CRLF

  function Repeat(s: string, n: nat): string {
    if n == 0 then "" else Repeat(s, n - 1) + s
  }

  lemma NoRepeats(s: string)
    ensures Repeat(s, 0) == ""
  {
  }

  lemma OneMoreRepeat(s: string, n: nat)
    ensures Repeat(s, n + 1) == Repeat(s, n) + s
    ensures forall t: string :: t + Repeat(s, n) + s == t + Repeat(s, n + 1)
  {
    assert Repeat(s, n + 1) == Repeat(s, n) + s;
    hide Repeat;
  }

  /** The callback one body leads to, if its method is registered. Whether the callback then
      throws makes no difference to the handler. */
  function Dispatch(body: string, subscribers: map<string, Callback>,
                    decode: string -> Option<Notification>): (calls: seq<Call>)
    ensures |calls| == if decode(body).Some? && decode(body).value.method_ in subscribers then 1 else 0
  {
    match decode(body)
    case Some(n) => if n.method_ in subscribers then [Call(subscribers[n.method_], n.params)] else []
    case None => []
  }

  /** What the handler does to a connection: the callbacks it makes, the number of replies it
      writes, and whether it ends by destroying the socket or by an exception nothing catches. */
  datatype Trace = Trace(calls: seq<Call>, replies: nat, crashed: bool)

  /** `clientHandler` as a function of the stream. `rounds` is how often the handler finds the
      server not stopped and the connection ready. */
  function HandleSpec(s: string, rounds: nat, subscribers: map<string, Callback>,
                      decode: string -> Option<Notification>): Trace
    decreases rounds
  {
    hide ReadRequestSpec;
    if rounds == 0 then Trace([], 0, false)
    else
      match ReadRequestSpec(s)
      case Dropped => Trace([], 0, false)
      case Crashed => Trace([], 0, true)
      case Accepted(_, _, content, close, rest) =>
        var later := if close then Trace([], 0, false) else HandleSpec(rest, rounds - 1, subscribers, decode);
        After(Dispatch(content, subscribers, decode), 1, later)
  }

  /** The trace that starts with the given callbacks and replies and goes on as `later`. */
  function After(calls: seq<Call>, replies: nat, later: Trace): Trace {
    Trace(calls + later.calls, replies + later.replies, later.crashed)
  }

  lemma AfterTwice(calls: seq<Call>, replies: nat, call: seq<Call>, later: Trace)
    ensures After(calls, replies, After(call, 1, later)) == After(calls + call, replies + 1, later)
    ensures After([], 0, later) == later
    ensures After(calls, replies, Trace([], 0, later.crashed)) == Trace(calls, replies, later.crashed)
  {
    assert calls + (call + later.calls) == (calls + call) + later.calls;
    assert [] + later.calls == later.calls && calls + [] == calls;
  }

  lemma HandleStep(s: string, rounds: nat, subscribers: map<string, Callback>, decode: string -> Option<Notification>)
    requires rounds > 0
    ensures var incoming := ReadRequestSpec(s);
            HandleSpec(s, rounds, subscribers, decode) ==
            if !incoming.Accepted? then Trace([], 0, incoming.Crashed?)
            else After(Dispatch(incoming.content, subscribers, decode), 1,
                       if incoming.close then Trace([], 0, false)
                       else HandleSpec(incoming.rest, rounds - 1, subscribers, decode))
  {
    hide ReadRequestSpec, Dispatch;
  }

  /** What is still to come when `left` rounds remain, if the last request did not close. */
  function Remaining(s: string, left: nat, close: bool, subscribers: map<string, Callback>,
                     decode: string -> Option<Notification>): Trace
  {
    if close then Trace([], 0, false) else HandleSpec(s, left, subscribers, decode)
  }

  lemma AtFirst(s: string, rounds: nat, subscribers: map<string, Callback>, decode: string -> Option<Notification>)
    ensures HandleSpec(s, rounds, subscribers, decode) ==
            After([], 0, Remaining(s, rounds, false, subscribers, decode))
  {
    hide HandleSpec;
    AfterTwice([], 0, [], HandleSpec(s, rounds, subscribers, decode));
  }

  /** One round of the handler: either it is the last, or what is still to come has one request less. */
  lemma OneRound(calls: seq<Call>, replies: nat, s: string, left: nat,
                 subscribers: map<string, Callback>, decode: string -> Option<Notification>)
    requires left > 0
    ensures var incoming := ReadRequestSpec(s);
            After(calls, replies, Remaining(s, left, false, subscribers, decode)) ==
            if incoming.Accepted? then
              After(calls + Dispatch(incoming.content, subscribers, decode), replies + 1,
                    Remaining(incoming.rest, left - 1, incoming.close, subscribers, decode))
            else
              Trace(calls, replies, incoming.Crashed?)
  {
    HandleStep(s, left, subscribers, decode);
    hide ReadRequestSpec, Dispatch, HandleSpec;
    var incoming := ReadRequestSpec(s);
    if incoming.Accepted? {
      AfterTwice(calls, replies, Dispatch(incoming.content, subscribers, decode),
                 Remaining(incoming.rest, left - 1, incoming.close, subscribers, decode));
    } else {
      AfterTwice(calls, replies, [], Trace([], 0, incoming.Crashed?));
    }
  }

  lemma NothingRemains(calls: seq<Call>, replies: nat, s: string, left: nat, close: bool,
                       subscribers: map<string, Callback>, decode: string -> Option<Notification>)
    requires left == 0 || close
    ensures After(calls, replies, Remaining(s, left, close, subscribers, decode)) == Trace(calls, replies, false)
  {
    AfterTwice(calls, replies, [], Trace([], 0, false));
  }

  // ----- A connection that fails

  /** What the handler reads when receiving a body fails behind its first `lost` bytes: the failure
      goes unnoticed, the content is empty, and the next request begins in the middle of the body. */
  function ReadTornSpec(s: string, lost: nat): Incoming {
    match ReadLineSpec(s)
    case None => Dropped
    case Some((requestLine, s1)) =>
      if FirstToken(requestLine) != "POST" then Dropped
      else
        match ReadHeadersSpec(s1, map[])
        case Cut => Dropped
        case Threw => Crashed
        case Read(headers, s2) => TornContentSpec(headers, s2, lost)
  }

  function TornContentSpec(headers: HeaderMap, s: string, lost: nat): Incoming {
    var length := ContentLength(headers);
    if length == None || length.value < 0 then Crashed
    else if lost < length.value && lost <= |s| then Accepted("POST", headers, "", WantsClose(headers), s[lost..])
    else Dropped
  }

  /** A request, whose body is torn as given. */
  function ReadLossySpec(s: string, lost: Option<nat>): Incoming {
    if lost == None then ReadRequestSpec(s) else ReadTornSpec(s, lost.value)
  }

  /** Where the handler is behind some requests: the callbacks it has made, what is left of the
      stream, and whether the last request closes the connection. */
  datatype Position = At(calls: seq<Call>, left: string, close: bool) | Nowhere

  /** Behind one request for each element of `losses`. */
  function Taken(s: string, losses: seq<Option<nat>>, subscribers: map<string, Callback>,
                 decode: string -> Option<Notification>): Position
    decreases |losses|
  {
    if losses == [] then At([], s, false)
    else
      Onward(Taken(s, losses[..|losses| - 1], subscribers, decode), losses[|losses| - 1], subscribers, decode)
  }

  function Onward(p: Position, lost: Option<nat>, subscribers: map<string, Callback>,
                  decode: string -> Option<Notification>): Position
  {
    if p == Nowhere || p.close then Nowhere
    else
      match ReadLossySpec(p.left, lost)
      case Accepted(_, _, content, close, rest) => At(p.calls + Dispatch(content, subscribers, decode), rest, close)
      case _ => Nowhere
  }

  lemma TakenStep(s: string, losses: seq<Option<nat>>, lost: Option<nat>, subscribers: map<string, Callback>,
                  decode: string -> Option<Notification>)
    ensures Taken(s, losses + [lost], subscribers, decode) ==
            Onward(Taken(s, losses, subscribers, decode), lost, subscribers, decode)
    ensures Taken(s, [], subscribers, decode) == At([], s, false)
  {
    hide Onward;
    assert (losses + [lost])[..|losses|] == losses;
  }

  predicate NothingLost(losses: seq<Option<nat>>) {
    forall k :: 0 <= k < |losses| ==> losses[k] == None
  }

  /** As long as no body is torn, the handler is on its way through the trace of the stream. */
  lemma {:induction false} OnItsWay(s: string, losses: seq<Option<nat>>, left: nat,
                                    subscribers: map<string, Callback>, decode: string -> Option<Notification>)
    requires NothingLost(losses) && Taken(s, losses, subscribers, decode).At?
    ensures var p := Taken(s, losses, subscribers, decode);
            HandleSpec(s, |losses| + left, subscribers, decode) ==
            After(p.calls, |losses|, Remaining(p.left, left, p.close, subscribers, decode))
    decreases |losses|
  {
    hide HandleSpec, ReadRequestSpec, Dispatch, Remaining, After;
    if losses == [] {
      AtFirst(s, left, subscribers, decode);
    } else {
      var before := losses[..|losses| - 1];
      assert losses == before + [None];
      TakenStep(s, before, None, subscribers, decode);
      OnItsWay(s, before, left + 1, subscribers, decode);
      var p := Taken(s, before, subscribers, decode);
      OneRound(p.calls, |before|, p.left, left + 1, subscribers, decode);
    }
  }

  /** As long as no body is torn, the callbacks made are those of a handler that finds the connection
      ready only so many times, and the first ones of every handler that finds it ready more often. */
  lemma CallbacksArePrefix(s: string, losses: seq<Option<nat>>, rounds: nat,
                           subscribers: map<string, Callback>, decode: string -> Option<Notification>)
    requires NothingLost(losses) && Taken(s, losses, subscribers, decode).At? && |losses| <= rounds
    ensures var p, trace := Taken(s, losses, subscribers, decode), HandleSpec(s, rounds, subscribers, decode);
            && HandleSpec(s, |losses|, subscribers, decode) == Trace(p.calls, |losses|, false)
            && p.calls <= trace.calls && |losses| <= trace.replies
  {
    hide HandleSpec, Taken, Remaining, After, NothingLost;
    OnItsWay(s, losses, 0, subscribers, decode);
    OnItsWay(s, losses, rounds - |losses|, subscribers, decode);
    var p := Taken(s, losses, subscribers, decode);
    NothingRemains(p.calls, |losses|, p.left, 0, p.close, subscribers, decode);
    FirstOf(p.calls, |losses|, Remaining(p.left, rounds - |losses|, p.close, subscribers, decode));
  }

  lemma FirstOf(calls: seq<Call>, replies: nat, later: Trace)
    ensures calls <= After(calls, replies, later).calls && replies <= After(calls, replies, later).replies
  {
  }

  /** The handler stops where the trace does: no round is left, the last request closes, or there is
      no further request. */
  lemma EndsAsTrace(s: string, losses: seq<Option<nat>>, rounds: nat,
                    subscribers: map<string, Callback>, decode: string -> Option<Notification>)
    requires NothingLost(losses) && Taken(s, losses, subscribers, decode).At? && |losses| <= rounds
    ensures var p := Taken(s, losses, subscribers, decode);
            |losses| == rounds || p.close || !ReadRequestSpec(p.left).Accepted? ==>
              HandleSpec(s, rounds, subscribers, decode) ==
              Trace(p.calls, |losses|, |losses| < rounds && !p.close && ReadRequestSpec(p.left).Crashed?)
  {
    hide HandleSpec, Taken, ReadRequestSpec, Dispatch, Remaining;
    var p, left := Taken(s, losses, subscribers, decode), rounds - |losses|;
    OnItsWay(s, losses, left, subscribers, decode);
    if left == 0 || p.close {
      NothingRemains(p.calls, |losses|, p.left, left, p.close, subscribers, decode);
    } else {
      OneRound(p.calls, |losses|, p.left, left, subscribers, decode);
    }
  }

  /** The bytes of so many replies have been sent, of which the last may have been cut short. */
  predicate Replied(before: string, sent: string, replies: nat, whole: bool) {
    if whole then sent == before + Repeat(NO_CONTENT, replies)
    else
      && replies > 0 && before + Repeat(NO_CONTENT, replies - 1) <= sent
      && sent <= before + Repeat(NO_CONTENT, replies - 1) + NO_CONTENT
  }

  class Server {
    var subscribers: map<string, Callback>
    // the callbacks made so far
    ghost var made: seq<Call>

    constructor ()
      ensures subscribers == map[] && made == []
    {
      subscribers, made := map[], [];
    }

    /** `subscribe`: a topic that is already there gets the new callback. */
    method Subscribe(topic: string, callback: Callback)
      modifies this`subscribers
      ensures subscribers == old(subscribers)[topic := callback]
    {
      subscribers := subscribers[topic := callback];
    }

    /** `unsubscribe`: an unknown topic is ignored. */
    method Unsubscribe(topic: string)
      modifies this`subscribers
      ensures subscribers == old(subscribers) - {topic}
    {
      if topic in subscribers {
        subscribers := subscribers - {topic};
      }
    }

    /** `clientHandler`. A handler that is not crashed destroys its socket, once. On a connection
        without errors it makes exactly the callbacks and writes exactly the replies of the
        specification. On one that can fail, `losses` says which bodies were torn: the callbacks and
        the replies are those of the requests taken, the last reply perhaps cut short. */
    method ClientHandler(client: Socket, rounds: nat, decode: string -> Option<Notification>)
      returns (crashed: bool, ghost losses: seq<Option<nat>>)
      requires client.live && client.destroyed == 0
      modifies client, this`made
      ensures !crashed ==> !client.live && client.destroyed == 1
      ensures crashed ==> client.live
      ensures client.reliable ==>
        var trace := HandleSpec(old(client.unread), rounds, subscribers, decode);
        && made == old(made) + trace.calls
        && client.sent == old(client.sent) + Repeat(NO_CONTENT, trace.replies)
        && crashed == trace.crashed
      ensures client.reliable ==> NothingLost(losses)
      ensures |losses| <= rounds
      ensures var p := Taken(old(client.unread), losses, subscribers, decode);
        && p.At? && made == old(made) + p.calls
        && (crashed ==> |losses| < rounds && !p.close && ReadRequestSpec(p.left) == Crashed)
        && (Replied(old(client.sent), client.sent, |losses|, true) ||
            (!crashed && Replied(old(client.sent), client.sent, |losses|, false)))
    {
      hide ReadRequestSpec, ReadTornSpec, Dispatch, HandleSpec, After, Remaining, Repeat, Taken;
      ghost var all := client.unread;
      losses := [];
      TakenStep(all, [], None, subscribers, decode);
      NoRepeats(NO_CONTENT);
      var left := rounds;
      var close := false;
      while left != 0 && !close
        invariant client.live && client.destroyed == 0
        invariant |losses| + left == rounds
        invariant client.reliable ==> NothingLost(losses)
        invariant var p := Taken(all, losses, subscribers, decode);
          p.At? && p.close == close && made == old(made) + p.calls && p.left == client.unread
        invariant Replied(old(client.sent), client.sent, |losses|, true)
        decreases left
      {
        ghost var p := Taken(all, losses, subscribers, decode);
        if client.reliable {
          EndsAsTrace(all, losses, rounds, subscribers, decode);
        }
        var incoming, lost, ok := HandleRequest(client, decode);
        if incoming.Crashed? {
          return true, losses;
        }
        if incoming.Dropped? {
          client.Destroy();
          return false, losses;
        }
        TakenStep(all, losses, lost, subscribers, decode);
        MoreCalls(old(made), p.calls, Dispatch(incoming.content, subscribers, decode));
        OneMoreRepeat(NO_CONTENT, |losses|);
        losses := losses + [lost];
        if !ok {
          client.Destroy();
          return false, losses;
        }
        left, close := left - 1, incoming.close;
      }
      if client.reliable {
        EndsAsTrace(all, losses, rounds, subscribers, decode);
      }
      client.Destroy();
      return false, losses;
    }

    /** The body of the loop of `clientHandler`: one request, its callback and its reply. */
    method HandleRequest(client: Socket, decode: string -> Option<Notification>)
      returns (incoming: Incoming, ghost lost: Option<nat>, ok: bool)
      requires client.live
      modifies client`unread, client`sent, this`made
      ensures ok ==> incoming.Accepted?
      ensures client.reliable ==> lost == None && ok == incoming.Accepted?
      ensures incoming.Accepted? || client.reliable ==> incoming == ReadLossySpec(old(client.unread), lost)
      ensures incoming.Crashed? ==> ReadRequestSpec(old(client.unread)) == Crashed
      ensures incoming.Accepted? ==>
        && incoming.rest == client.unread
        && made == old(made) + Dispatch(incoming.content, subscribers, decode)
        && old(client.sent) <= client.sent <= old(client.sent) + NO_CONTENT
        && (ok ==> client.sent == old(client.sent) + NO_CONTENT)
      ensures !incoming.Accepted? ==> made == old(made) && client.sent == old(client.sent)
    {
      hide ReadRequestSpec, ReadTornSpec, Dispatch;
      incoming, lost := ReadRequest(client);
      if !incoming.Accepted? {
        return incoming, lost, false;
      }
      made := made + Dispatch(incoming.content, subscribers, decode);
      ok := Write(client, NO_CONTENT);
    }
  }

  lemma MoreCalls(made: seq<Call>, calls: seq<Call>, call: seq<Call>)
    ensures made + calls + call == made + (calls + call)
  {
  }

  /** The request part of `clientHandler`. The result of `readFixedContent` is not looked at. */
  method ReadRequest(s: Socket) returns (incoming: Incoming, ghost lost: Option<nat>)
    requires s.live
    modifies s`unread
    ensures incoming.Accepted? || s.reliable ==> incoming == ReadLossySpec(old(s.unread), lost)
    ensures incoming.Accepted? ==> incoming.rest == s.unread
    ensures incoming.Crashed? ==> ReadRequestSpec(old(s.unread)) == Crashed
    ensures s.reliable ==> lost == None
  {
    hide ReadLineSpec, ReadHeadersSpec, FirstToken, Stoi, WantsClose, TornContentSpec, ReadContentSpec;
    lost := None;
    var ok, requestLine := ReadLine(s);
    if !ok || FirstToken(requestLine) != "POST" { return Dropped, lost; }
    var thrown, headers;
    ok, thrown, headers := ReadHeaders(s);
    if thrown { return Crashed, lost; }
    if !ok { return Dropped, lost; }
    incoming, lost := ReadRequestContent(s, headers);
  }

  method ReadRequestContent(s: Socket, headers: HeaderMap) returns (incoming: Incoming, ghost lost: Option<nat>)
    requires s.live
    modifies s`unread
    ensures incoming == if lost == None then ReadContentSpec(headers, old(s.unread))
                        else TornContentSpec(headers, old(s.unread), lost.value)
    ensures incoming.Accepted? ==> incoming.rest == s.unread
    ensures incoming.Crashed? || s.reliable ==> lost == None
  {
    hide ContentLength, WantsClose;
    lost := None;
    ghost var all := s.unread;
    var contentLength, close := ContentLength(headers), WantsClose(headers);
    if contentLength == None { return Crashed, lost; }
    var content := "";
    ReadFixedNothing(s.unread);
    if contentLength.value != 0 {
      var ok, thrown;
      ghost var data;
      ok, thrown, content, data := ReadFixedContent(s, content, ToSize(contentLength.value));
      if thrown { return Crashed, lost; }
      assert "" + data == data;
      if !ok && s.unread != "" {
        ghost var n: nat :| n < contentLength.value && Behind(all, n, s.unread);
        lost := Some(n);
      }
    }
    return Accepted("POST", headers, content, close, s.unread), lost;
  }

  // ----- Streams of notifications

  predicate Closes(r: Request) {
    exists k :: 0 <= k < |r.headers| && r.headers[k] == Header("Connection", "close")
  }

  /** How many of the requests are handled: all up to and including the first that closes. */
  function Handled(rs: seq<Request>): (n: nat)
    ensures n <= |rs|
    ensures forall k :: 0 <= k < n - 1 ==> !Closes(rs[k])
    ensures n < |rs| ==> 0 < n && Closes(rs[n - 1])
  {
    if rs == [] then 0
    else if Closes(rs[0]) then 1
    else
      var n := 1 + Handled(rs[1..]);
      assert forall k :: 0 < k < |rs| ==> rs[k] == rs[1..][k - 1];
      n
  }

  /** The callbacks the requests lead to, in order. */
  function CallsOf(rs: seq<Request>, subscribers: map<string, Callback>,
                   decode: string -> Option<Notification>): seq<Call> {
    if rs == [] then []
    else Dispatch(rs[0].content, subscribers, decode) + CallsOf(rs[1..], subscribers, decode)
  }

  lemma ClosesAsParsed(r: Request, host: string)
    requires RequestWellFormed(r, host)
    ensures WantsClose(AddAll(map[], AllHeaders(r, host))) <==> Closes(r)
  {
    HeadersOfRequest(r, host);
    hide RequestWellFormed, AddAll, AllHeaders;
    var headers := AddAll(map[], AllHeaders(r, host));
    if Closes(r) {
      var k :| 0 <= k < |r.headers| && r.headers[k] == Header("Connection", "close");
      assert r.headers[k].key in headers;
    }
    if WantsClose(headers) {
      assert HasKey(r.headers, "Connection");
      var k :| 0 <= k < |r.headers| && r.headers[k].key == "Connection";
      assert headers[r.headers[k].key] == r.headers[k].value;
    }
  }

  /** One printed notification: its callback, one reply, and on to what follows unless it closes. */
  lemma OneNotification(r: Request, host: string, tail: string, rounds: nat,
                        subscribers: map<string, Callback>, decode: string -> Option<Notification>)
    requires RequestWellFormed(r, host) && rounds > 0
    ensures HandleSpec(PrintRequest(r, host) + tail, rounds, subscribers, decode) ==
            After(Dispatch(r.content, subscribers, decode), 1,
                  if Closes(r) then Trace([], 0, false) else HandleSpec(tail, rounds - 1, subscribers, decode))
  {
    RequestRoundTrip(r, host, tail);
    ClosesAsParsed(r, host);
    HandleStep(PrintRequest(r, host) + tail, rounds, subscribers, decode);
    hide *;
  }

  /** A stream of printed notifications: every request up to the first `Connection: close` gets
      its callback, if its method is registered, and one reply, in stream order; whatever comes
      behind the close is never looked at. */
  lemma {:induction false} NotificationStream(rs: seq<Request>, host: string, rest: string, rounds: nat,
                                              subscribers: map<string, Callback>,
                                              decode: string -> Option<Notification>)
    requires forall k :: 0 <= k < |rs| ==> RequestWellFormed(rs[k], host)
    requires rounds >= |rs|
    requires rest == "" || exists k :: 0 <= k < |rs| && Closes(rs[k])
    ensures HandleSpec(PrintRequests(rs, host) + rest, rounds, subscribers, decode) ==
            Trace(CallsOf(rs[..Handled(rs)], subscribers, decode), Handled(rs), false)
    decreases |rs|
  {
    hide RequestWellFormed, HandleSpec, Dispatch, PrintRequest, Closes;
    if rs == [] {
      EndOfStream(rounds, subscribers, decode);
    } else {
      var r := rs[0];
      var tail := PrintRequests(rs[1..], host) + rest;
      OneNotification(r, host, tail, rounds, subscribers, decode);
      assert PrintRequests(rs, host) + rest == PrintRequest(r, host) + tail;
      var n := Handled(rs);
      assert rs[..n][0] == r;
      if Closes(r) {
        assert rs[..n][1..] == [];
      } else {
        assert forall k :: 0 < k < |rs| ==> rs[k] == rs[1..][k - 1];
        assert rs[..n][1..] == rs[1..][..n - 1];
        NotificationStream(rs[1..], host, rest, rounds - 1, subscribers, decode);
      }
    }
  }

  lemma EndOfStream(rounds: nat, subscribers: map<string, Callback>, decode: string -> Option<Notification>)
    ensures HandleSpec("", rounds, subscribers, decode) == Trace([], 0, false)
  {
  }

  // ----- A torn notification

  /** When the body of a printed notification is torn, the handler goes on with the rest of it. */
  lemma TornIsRead(r: Request, host: string, tail: string, lost: nat)
    requires RequestWellFormed(r, host) && lost < |r.content|
    ensures ReadTornSpec(PrintRequest(r, host) + tail, lost) ==
            Accepted("POST", AddAll(map[], AllHeaders(r, host)), "", Closes(r), r.content[lost..] + tail)
  {
    hide ReadLineSpec, ReadHeadersSpec, FirstToken, ContentLength, WantsClose, AddAll, Printable, HasKey;
    hide HeadersMatch, AllHeaders, PrintRequest, Closes;
    RequestHeadIsRead(r, host, tail);
    HeadersOfRequest(r, host);
    ContentLengthIsRead(r, host, AddAll(map[], AllHeaders(r, host)));
    ClosesAsParsed(r, host);
    assert (r.content + tail)[lost..] == r.content[lost..] + tail;
  }

  /** Then the callbacks are not the first ones of the trace: of a body that is itself a printed
      notification, the callback is made, though nothing in the stream asks for it. */
  lemma TornNotification(r: Request, q: Request, host: string, rounds: nat,
                         subscribers: map<string, Callback>, decode: string -> Option<Notification>)
    requires RequestWellFormed(r, host) && RequestWellFormed(q, host) && r.content == PrintRequest(q, host)
    requires !Closes(r) && rounds >= 1
    requires Dispatch(r.content, subscribers, decode) == Dispatch("", subscribers, decode) == []
    requires Dispatch(q.content, subscribers, decode) != []
    ensures var s := PrintRequest(r, host);
            var p := Taken(s, [Some(0), None], subscribers, decode);
            && p.At? && p.calls == Dispatch(q.content, subscribers, decode)
            && HandleSpec(s, rounds, subscribers, decode).calls == []
            && !(p.calls <= HandleSpec(s, rounds, subscribers, decode).calls)
  {
    hide RequestWellFormed, HandleSpec, Dispatch, PrintRequest, Closes, Taken;
    TornTakes(r, q, host, subscribers, decode);
    WholeTrace(r, host, rounds, subscribers, decode);
  }

  /** Such a stream: the one registered method is called by a body within a body. */
  lemma TornStream() returns (s: string, subscribers: map<string, Callback>, decode: string -> Option<Notification>)
    ensures Taken(s, [Some(0), None], subscribers, decode).At?
    ensures Taken(s, [Some(0), None], subscribers, decode).calls == [Call(Callback(0), "")]
    ensures HandleSpec(s, 2, subscribers, decode).calls == []
  {
    hide RequestWellFormed, HandleSpec, PrintRequest, Taken;
    subscribers := map["M" := Callback(0)];
    decode := body => if body == "x" then Some(Notification("M", "")) else None;
    var q := Request("POST", "/", [], "x");
    SmallRequest(q, "h");
    var r := Request("POST", "/", [], PrintRequest(q, "h"));
    SmallContent(r, "h");
    s := PrintRequest(r, "h");
    TornNotification(r, q, "h", 2, subscribers, decode);
  }

  lemma SmallContent(r: Request, host: string)
    requires r.method_ == "POST" && r.path == "/" && r.headers == [] && host == "h" && |r.content| < 1000
    ensures RequestWellFormed(r, host) && !Closes(r)
  {
  }

  lemma SmallRequest(q: Request, host: string)
    requires q == Request("POST", "/", [], "x") && host == "h"
    ensures RequestWellFormed(q, host) && 1 < |PrintRequest(q, host)| < 1000
  {
    SmallContent(q, host);
    var hs := AllHeaders(q, host);
    assert hs == [hs[0]] + [hs[1]];
    PrintHeadersAppend([hs[0]], [hs[1]]);
    PrintOneHeader(hs[0]);
    PrintOneHeader(hs[1]);
    hide PrintHeaders;
    assert Decimal(1) == "1";
  }

  lemma TornTakes(r: Request, q: Request, host: string,
                  subscribers: map<string, Callback>, decode: string -> Option<Notification>)
    requires RequestWellFormed(r, host) && RequestWellFormed(q, host) && r.content == PrintRequest(q, host)
    requires !Closes(r) && Dispatch("", subscribers, decode) == []
    ensures var p := Taken(PrintRequest(r, host), [Some(0), None], subscribers, decode);
            p.At? && p.calls == Dispatch(q.content, subscribers, decode)
  {
    hide RequestWellFormed, Dispatch, PrintRequest, Closes, ReadRequestSpec, ReadTornSpec, Taken;
    var s := PrintRequest(r, host);
    NotEmpty(q, host);
    TornIsRead(r, host, "", 0);
    RequestRoundTrip(q, host, "");
    assert s + "" == s && r.content[0..] + "" == r.content + "" == r.content;
    TakenStep(s, [], Some(0), subscribers, decode);
    TakenStep(s, [Some(0)], None, subscribers, decode);
    assert [] + [Some(0)] == [Some(0)] && [Some(0)] + [None] == [Some(0), None];
    assert [] + Dispatch(q.content, subscribers, decode) == Dispatch(q.content, subscribers, decode);
  }

  lemma NotEmpty(r: Request, host: string)
    ensures PrintRequest(r, host) != ""
  {
    hide PrintHeaders, AllHeaders;
  }

  lemma WholeTrace(r: Request, host: string, rounds: nat,
                   subscribers: map<string, Callback>, decode: string -> Option<Notification>)
    requires RequestWellFormed(r, host) && rounds >= 1
    ensures HandleSpec(PrintRequest(r, host), rounds, subscribers, decode).calls ==
            Dispatch(r.content, subscribers, decode)
  {
    hide RequestWellFormed, HandleSpec, Dispatch, PrintRequest, Closes;
    var s := PrintRequest(r, host);
    OneNotification(r, host, "", rounds, subscribers, decode);
    assert s + "" == s;
    EndOfStream(rounds - 1, subscribers, decode);
    var calls := Dispatch(r.content, subscribers, decode);
    assert calls + [] == calls;
  }
}
