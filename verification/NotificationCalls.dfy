/** Which callbacks the handler of notifications makes, written out: for each content in turn, the
    callback its method is registered for, with the parameters it names. */
module NotificationCalls {
  import opened Machine
  import opened Wrappers
  import opened Numerals
  import opened Wire
  import opened HttpMessages
  import opened HttpFraming
  import opened NotificationServer

  /** The calls are, in order, one for each content that decodes to a registered method. */
  predicate CallsAre(calls: seq<Call>, contents: seq<string>, subscribers: map<string, Callback>,
                     decode: string -> Option<Notification>)
    decreases |contents|
  {
    if contents == [] then calls == []
    else
      var n := decode(contents[0]);
      if n.Some? && n.value.method_ in subscribers then
        && calls != [] && calls[0].callback == subscribers[n.value.method_] && calls[0].params == n.value.params
        && CallsAre(calls[1..], contents[1..], subscribers, decode)
      else
        CallsAre(calls, contents[1..], subscribers, decode)
  }

  lemma OneContent(content: string, subscribers: map<string, Callback>, decode: string -> Option<Notification>)
    ensures CallsAre(Dispatch(content, subscribers, decode), [content], subscribers, decode)
  {
    assert [content][1..] == [];
  }

  lemma {:induction false} CallsAppend(a: seq<Call>, b: seq<Call>, before: seq<string>, later: seq<string>,
                                       subscribers: map<string, Callback>, decode: string -> Option<Notification>)
    requires CallsAre(a, before, subscribers, decode) && CallsAre(b, later, subscribers, decode)
    ensures CallsAre(a + b, before + later, subscribers, decode)
    decreases |before|
  {
    if before == [] {
      assert a + b == b && before + later == later;
    } else {
      assert (before + later)[1..] == before[1..] + later && (before + later)[0] == before[0];
      var n := decode(before[0]);
      if n.Some? && n.value.method_ in subscribers {
        assert (a + b)[1..] == a[1..] + b && (a + b)[0] == a[0];
        CallsAppend(a[1..], b, before[1..], later, subscribers, decode);
      } else {
        CallsAppend(a, b, before[1..], later, subscribers, decode);
      }
    }
  }

  // ----- The trace of a stream

  /** The contents of the requests that are handled. */
  function ContentsOf(s: string, rounds: nat): seq<string>
    decreases rounds
  {
    if rounds == 0 then []
    else
      match ReadRequestSpec(s)
      case Accepted(_, _, content, close, rest) => [content] + if close then [] else ContentsOf(rest, rounds - 1)
      case _ => []
  }

  /** One call for every content that names a registered method, and one reply for every content. */
  lemma {:induction false} TraceCalls(s: string, rounds: nat, subscribers: map<string, Callback>,
                                      decode: string -> Option<Notification>)
    ensures var trace := HandleSpec(s, rounds, subscribers, decode);
            && CallsAre(trace.calls, ContentsOf(s, rounds), subscribers, decode)
            && trace.replies == |ContentsOf(s, rounds)|
    decreases rounds
  {
    hide ReadRequestSpec, Dispatch, CallsAre, HandleSpec;
    if rounds == 0 {
      NoTrace(s, subscribers, decode);
    } else {
      HandleStep(s, rounds, subscribers, decode);
      NoCalls(subscribers, decode);
      var incoming := ReadRequestSpec(s);
      if incoming.Accepted? {
        var call := Dispatch(incoming.content, subscribers, decode);
        OneContent(incoming.content, subscribers, decode);
        if incoming.close {
          CallsAppend(call, [], [incoming.content], [], subscribers, decode);
        } else {
          var later := HandleSpec(incoming.rest, rounds - 1, subscribers, decode);
          TraceCalls(incoming.rest, rounds - 1, subscribers, decode);
          CallsAppend(call, later.calls, [incoming.content], ContentsOf(incoming.rest, rounds - 1),
                      subscribers, decode);
        }
      }
    }
  }

  lemma NoTrace(s: string, subscribers: map<string, Callback>, decode: string -> Option<Notification>)
    ensures HandleSpec(s, 0, subscribers, decode) == Trace([], 0, false)
    ensures CallsAre([], [], subscribers, decode)
  {
  }

  lemma NoCalls(subscribers: map<string, Callback>, decode: string -> Option<Notification>)
    ensures CallsAre([], [], subscribers, decode)
  {
  }

  /** The contents of the requests taken on a connection that fails; a torn one has none. */
  function ContentsTaken(s: string, losses: seq<Option<nat>>, subscribers: map<string, Callback>,
                         decode: string -> Option<Notification>): seq<string>
    requires Taken(s, losses, subscribers, decode).At?
    decreases |losses|
  {
    if losses == [] then []
    else
      var before, lost := losses[..|losses| - 1], losses[|losses| - 1];
      ContentsTaken(s, before, subscribers, decode) +
      [ReadLossySpec(Taken(s, before, subscribers, decode).left, lost).content]
  }

  lemma TornIsEmpty(s: string, lost: nat)
    requires ReadTornSpec(s, lost).Accepted?
    ensures ReadTornSpec(s, lost).content == ""
  {
    hide ReadLineSpec, ReadHeadersSpec, FirstToken, ContentLength, WantsClose;
  }

  lemma {:induction false} TakenCalls(s: string, losses: seq<Option<nat>>, subscribers: map<string, Callback>,
                                      decode: string -> Option<Notification>)
    requires Taken(s, losses, subscribers, decode).At?
    ensures var contents := ContentsTaken(s, losses, subscribers, decode);
            && |contents| == |losses|
            && (forall k :: 0 <= k < |losses| && losses[k].Some? ==> contents[k] == "")
            && CallsAre(Taken(s, losses, subscribers, decode).calls, contents, subscribers, decode)
    decreases |losses|
  {
    hide ReadLossySpec, Dispatch, CallsAre;
    if losses == [] {
      NoCalls(subscribers, decode);
    } else {
      var before, lost := losses[..|losses| - 1], losses[|losses| - 1];
      TakenCalls(s, before, subscribers, decode);
      var p := Taken(s, before, subscribers, decode);
      var content := ReadLossySpec(p.left, lost).content;
      LossyContent(p.left, lost);
      OneContent(content, subscribers, decode);
      CallsAppend(p.calls, Dispatch(content, subscribers, decode), ContentsTaken(s, before, subscribers, decode),
                  [content], subscribers, decode);
    }
  }

  lemma LossyContent(s: string, lost: Option<nat>)
    requires ReadLossySpec(s, lost).Accepted?
    ensures lost.Some? ==> ReadLossySpec(s, lost).content == ""
  {
    hide ReadTornSpec, ReadRequestSpec;
    if lost.Some? {
      TornIsEmpty(s, lost.value);
    }
  }

  // ----- Printed notifications

  function Contents(rs: seq<Request>): seq<string> {
    if rs == [] then [] else [rs[0].content] + Contents(rs[1..])
  }

  lemma {:induction false} CallsOfAre(rs: seq<Request>, subscribers: map<string, Callback>,
                                      decode: string -> Option<Notification>)
    ensures CallsAre(CallsOf(rs, subscribers, decode), Contents(rs), subscribers, decode)
    decreases |rs|
  {
    hide Dispatch, CallsAre;
    if rs == [] {
      NoCalls(subscribers, decode);
    } else {
      OneContent(rs[0].content, subscribers, decode);
      CallsOfAre(rs[1..], subscribers, decode);
      CallsAppend(Dispatch(rs[0].content, subscribers, decode), CallsOf(rs[1..], subscribers, decode),
                  [rs[0].content], Contents(rs[1..]), subscribers, decode);
    }
  }

  /** On a stream of printed notifications the calls are, in order, those that the contents up to the
      first close name. */
  lemma StreamCalls(rs: seq<Request>, host: string, rest: string, rounds: nat,
                    subscribers: map<string, Callback>, decode: string -> Option<Notification>)
    requires forall k :: 0 <= k < |rs| ==> RequestWellFormed(rs[k], host)
    requires rounds >= |rs|
    requires rest == "" || exists k :: 0 <= k < |rs| && Closes(rs[k])
    ensures CallsAre(HandleSpec(PrintRequests(rs, host) + rest, rounds, subscribers, decode).calls,
                     Contents(rs[..Handled(rs)]), subscribers, decode)
  {
    hide RequestWellFormed, HandleSpec, PrintRequests, CallsAre, CallsOf, Contents;
    NotificationStream(rs, host, rest, rounds, subscribers, decode);
    CallsOfAre(rs[..Handled(rs)], subscribers, decode);
  }

  // ----- Torn bodies

  /** A body that breaks off behind `lost` of its bytes: it can break off wherever there are more to
      come by its Content-Length, whether the stream has them or not, and the next request begins
      there. Nowhere else is a body torn. */
  lemma TornBody(r: Request, host: string, body: string, lost: nat)
    requires RequestWellFormed(r, host)
    ensures var incoming := ReadTornSpec(HeadText(r, host) + body, lost);
            && (incoming.Accepted? <==> lost < |r.content| && lost <= |body|)
            && (incoming.Accepted? ==>
                  && incoming.method_ == "POST" && incoming.content == "" && incoming.rest == body[lost..]
                  && HeadersMatch(incoming.headers, r, host) && (incoming.close <==> Closes(r)))
  {
    hide HeadersMatch, AllHeaders, HeadText, HasKey, Printable, AddAll, ContentLength, WantsClose, Closes;
    TornHead(r, host, body, lost);
    HeadersOfRequest(r, host);
    ClosesAsParsed(r, host);
    ContentLengthIsRead(r, host, AddAll(map[], AllHeaders(r, host)));
  }

  lemma TornHead(r: Request, host: string, body: string, lost: nat)
    requires RequestWellFormed(r, host)
    ensures var headers := AddAll(map[], AllHeaders(r, host));
            ReadTornSpec(HeadText(r, host) + body, lost) == TornContentSpec(headers, body, lost)
  {
    hide ReadLineSpec, ReadHeadersSpec, FirstToken, AddAll, Printable, HasKey, TornContentSpec;
    var hs := AllHeaders(r, host);
    var line := r.method_ + " " + r.path + " HTTP/1.1" + CRLF;
    var tail := PrintHeaders(hs) + CRLF + body;
    RequestLineIsRead(r, tail);
    AllHeadersAreWellFormed(r, host);
    PrintedHeadersAreRead(hs, body, map[]);
    AllHeadersText(r, host);
    hide AllHeaders, PrintHeaders, LengthText;
    assert line == r.method_ + " " + r.path + " HTTP/1.1\r\n";
    Grouped(line, PrintHeaders(hs), CRLF, body);
  }

  // ----- The reply

  /** The reply to a notification is a response, and says 204 and no content. */
  lemma ReplyIsRead(rest: string)
    ensures NO_CONTENT == "HTTP/1.1 204 OK\r\nContent-Length: 0\r\n\r\n"
    ensures var reply := ReadResponseSpec(NO_CONTENT + rest);
            && reply.Reply? && reply.response.status == "HTTP/1.1 204 OK\r\n" && reply.response.content == ""
            && !reply.response.reconnect && !reply.response.chunked && reply.rest == rest
  {
    hide ReadResponseSpec, PrintHeaders, Decimal, Lists, Printable, HoldsHeaders;
    var hs := [Header("Content-Length", "0")];
    ReplyHeaders(hs);
    ReplyText();
    FixedResponseIsRead("HTTP/1.1 204 OK", hs, "", rest);
    assert "" + rest == rest;
  }

  lemma ReplyText()
    ensures NO_CONTENT == "HTTP/1.1 204 OK\r\nContent-Length: 0\r\n\r\n"
    ensures NO_CONTENT == "HTTP/1.1 204 OK" + "\r\n" + PrintHeaders([Header("Content-Length", "0")]) + "\r\n"
  {
    PrintOneHeader(Header("Content-Length", "0"));
    hide PrintHeaders;
  }

  lemma ReplyHeaders(hs: seq<Header>)
    requires hs == [Header("Content-Length", "0")]
    ensures DistinctKeys(hs) && Printable(hs[0]) && Lists(hs, "Content-Length", Decimal(|""|))
    ensures !Lists(hs, "Connection", "close") && !Lists(hs, "Transfer-Encoding", "chunked")
  {
    assert Decimal(0) == "0" && hs[0] == Header("Content-Length", Decimal(|""|));
  }

  // ----- From subscribing to the callback

  /** A topic is subscribed, and then a notification for it comes: its callback, and no other, is
      called with the parameters, and the notification is answered. */
  method SubscribeAndNotify(server: Server, topic: string, callback: Callback, client: Socket, ghost r: Request,
                            ghost host: string, params: Params, decode: string -> Option<Notification>)
    requires client.live && client.destroyed == 0 && client.reliable
    requires RequestWellFormed(r, host) && client.unread == PrintRequest(r, host)
    requires decode(r.content) == Some(Notification(topic, params))
    modifies server, client
    ensures server.made == old(server.made) + [Call(callback, params)]
    ensures client.sent == old(client.sent) + "HTTP/1.1 204 OK\r\nContent-Length: 0\r\n\r\n"
    ensures !client.live && client.destroyed == 1
  {
    server.Subscribe(topic, callback);
    hide HandleSpec, PrintRequest, RequestWellFormed, Taken, CallsAre, Repeat;
    OneAnswer(r, host, server.subscribers, decode);
    OnlyCall(HandleSpec(client.unread, 1, server.subscribers, decode).calls, r.content, server.subscribers, decode);
    var crashed, losses := server.ClientHandler(client, 1, decode);
  }

  /** A topic is unsubscribed, and then a notification for it comes: nothing is called, and the
      notification is answered all the same. */
  method UnsubscribeAndNotify(server: Server, topic: string, client: Socket, ghost r: Request,
                              ghost host: string, params: Params, decode: string -> Option<Notification>)
    requires client.live && client.destroyed == 0 && client.reliable
    requires RequestWellFormed(r, host) && client.unread == PrintRequest(r, host)
    requires decode(r.content) == Some(Notification(topic, params))
    modifies server, client
    ensures server.made == old(server.made)
    ensures client.sent == old(client.sent) + "HTTP/1.1 204 OK\r\nContent-Length: 0\r\n\r\n"
    ensures !client.live && client.destroyed == 1
  {
    server.Unsubscribe(topic);
    hide HandleSpec, PrintRequest, RequestWellFormed, Taken, CallsAre, Repeat;
    OneAnswer(r, host, server.subscribers, decode);
    OnlyCall(HandleSpec(client.unread, 1, server.subscribers, decode).calls, r.content, server.subscribers, decode);
    var crashed, losses := server.ClientHandler(client, 1, decode);
  }

  lemma OneAnswer(r: Request, host: string, subscribers: map<string, Callback>, decode: string -> Option<Notification>)
    requires RequestWellFormed(r, host)
    ensures var trace := HandleSpec(PrintRequest(r, host), 1, subscribers, decode);
            && trace.replies == 1 && !trace.crashed
            && CallsAre(trace.calls, [r.content], subscribers, decode)
    ensures Repeat(NO_CONTENT, 1) == "HTTP/1.1 204 OK\r\nContent-Length: 0\r\n\r\n"
  {
    hide RequestWellFormed, HandleSpec, PrintRequest, CallsAre, Dispatch, ReadResponseSpec, Repeat;
    ReplyIsRead("");
    OneMoreRepeat(NO_CONTENT, 0);
    NoRepeats(NO_CONTENT);
    assert "" + NO_CONTENT == NO_CONTENT;
    var s := PrintRequest(r, host);
    OneNotification(r, host, "", 1, subscribers, decode);
    assert s + "" == s;
    NoTrace("", subscribers, decode);
    OneContent(r.content, subscribers, decode);
    var calls := Dispatch(r.content, subscribers, decode);
    assert calls + [] == calls;
  }

  /** What the calls are for one content. */
  lemma OnlyCall(calls: seq<Call>, content: string, subscribers: map<string, Callback>,
                 decode: string -> Option<Notification>)
    requires CallsAre(calls, [content], subscribers, decode)
    ensures var n := decode(content);
            calls == if n.Some? && n.value.method_ in subscribers
                     then [Call(subscribers[n.value.method_], n.value.params)] else []
  {
    assert [content][1..] == [];
    var n := decode(content);
    if n.Some? && n.value.method_ in subscribers {
      assert CallsAre(calls[1..], [], subscribers, decode);
      assert calls == [calls[0]] + calls[1..];
    }
  }
}
