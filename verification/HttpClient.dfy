/** HTTPClient.cpp: `connect`, `close`, `doRequest` and the destructor, over sockets that may
    fail at any call. Every socket the client ever creates is remembered, so that ownership can
    be stated: a socket is live exactly while one open slot holds it. */
module HttpClient {
  import opened Machine
  import opened Wrappers
  import opened Numerals
  import opened Wire
  import opened HttpMessages

  const MAX_SOCKETS: nat := 5
  const MAX_HTTP_RETRIES: nat := 1

  class Slot {
    var fd: Socket?
    var closed: bool

    constructor ()
      ensures fd == null && closed
    {
      fd, closed := null, true;
    }
  }

  /** How a call of `doRequest` ends: true with a response, false, or an exception. */
  datatype Outcome = Returned(response: Response) | Refused | Thrown

  ghost function Listed(made: seq<Socket>): set<Socket> {
    set s | s in made
  }

  class Client {
    const host: string
    const slots: seq<Slot>
    ghost var created: set<Socket>

    /** Some open slot holds `s`. A closed slot may still hold the descriptor it has destroyed. */
    ghost predicate Owned(s: Socket)
      reads slots
    {
      exists i :: 0 <= i < |slots| && !slots[i].closed && slots[i].fd == s
    }

    ghost predicate Valid()
      reads this, slots, created
    {
      && |slots| == MAX_SOCKETS
      && (forall i, j :: 0 <= i < j < |slots| ==> slots[i] != slots[j])
      && (forall i :: 0 <= i < |slots| && !slots[i].closed ==> slots[i].fd != null && slots[i].fd in created)
      && (forall i, j :: 0 <= i < j < |slots| && !slots[i].closed && !slots[j].closed ==> slots[i].fd != slots[j].fd)
      && (forall s :: s in created ==> (s.live <==> Owned(s)))
      && (forall s :: s in created ==> s.destroyed == if s.live then 0 else 1)
    }

    constructor (host: string)
      ensures Valid() && created == {} && this.host == host && fresh(slots)
      ensures forall i :: 0 <= i < |slots| ==> slots[i].closed
    {
      var all: seq<Slot> := [];
      for i := 0 to MAX_SOCKETS
        invariant |all| == i
        invariant forall k :: 0 <= k < i ==> fresh(all[k]) && all[k].closed
        invariant forall j, k :: 0 <= j < k < i ==> all[j] != all[k]
      {
        var slot := new Slot();
        all := all + [slot];
      }
      this.host, slots, created := host, all, {};
    }

    /** `close`: the caller's descriptor is destroyed and the slot marked closed; `fd` keeps its
        stale value. */
    method Close(n: nat)
      requires Valid() && n < |slots| && !slots[n].closed
      modifies slots[n], slots[n].fd
      ensures Valid() && slots[n].closed && slots[n].fd == old(slots[n].fd)
      ensures slots[n].fd.unread == old(slots[n].fd.unread) && slots[n].fd.sent == old(slots[n].fd.sent)
    {
      assert Owned(slots[n].fd);
      if slots[n].fd != null {
        slots[n].fd.Destroy();
      }
      slots[n].closed := true;
      assert forall s, i :: s in created && 0 <= i < |slots| && i != n && old(slots[i].fd == s && !slots[i].closed)
                            ==> slots[i].fd == s && !slots[i].closed;
    }

    /** `connect`: an open slot is left alone; otherwise a descriptor is created, and destroyed
        again if the connection attempt fails. What the peer will send is arbitrary. `made` lists
        the descriptor that was created, if one was. */
    method Connect(n: nat) returns (ok: bool, ghost made: seq<Socket>)
      requires Valid() && n < |slots|
      modifies slots[n], this`created
      ensures Valid() && created == old(created) + Listed(made)
      ensures |made| <= (if old(slots[n].closed) then 1 else 0) && fresh(made)
      ensures forall s :: s in made ==> s.sent == ""
      ensures ok <==> !slots[n].closed
      ensures old(!slots[n].closed) ==> ok && slots[n].fd == old(slots[n].fd)
      ensures old(slots[n].closed) && ok ==> slots[n].fd in made && slots[n].fd.unread == slots[n].fd.stream
    {
      made := [];
      if !slots[n].closed {
        return true, made;
      }
      var socketCreated: bool, connected: bool := *, *;
      if !socketCreated {
        slots[n].fd := null;
        return false, made;
      }
      var stream: string, reliable: bool := *, *;
      var fd := new Socket(stream, reliable);
      slots[n].fd := fd;
      created := created + {fd};
      made := [fd];
      if !connected {
        fd.Destroy();
        slots[n].fd := null;
        return false, made;
      }
      slots[n].closed := false;
      return true, made;
    }

    /** One pass through the body of `doRequest` behind the `reconnect` label, on an open slot.
        `again` says that the pass failed at a point where the code may reconnect; `start` is what
        the connection had to offer. On a connection without errors the outcome follows from it. */
    method Attempt(data: string) returns (again: bool, outcome: Outcome, ghost start: string, ghost parses: nat)
      requires Valid() && !slots[0].closed
      modifies slots[0], slots[0].fd
      ensures Valid() && slots[0].fd == old(slots[0].fd) && start == old(slots[0].fd.unread)
      ensures old(slots[0].fd.sent) <= slots[0].fd.sent <= old(slots[0].fd.sent) + data
      ensures again ==> outcome.Refused? && parses == 0
      ensures !again ==> slots[0].fd.sent == old(slots[0].fd.sent) + data
      ensures parses <= 1 && (!outcome.Refused? ==> parses == 1)
      ensures outcome.Returned? ==>
        && ReadResponseSpec(start) == Reply(outcome.response, slots[0].fd.unread)
        && (slots[0].closed <==> outcome.response.reconnect)
      ensures !outcome.Refused? ==> slots[0].fd.sent == old(slots[0].fd.sent) + data
      ensures outcome.Refused? ==> slots[0].closed
      ensures outcome.Thrown? ==> !slots[0].closed && ReadResponseSpec(start) == Escaped
      ensures old(slots[0].fd.reliable) ==>
        && (outcome.Returned? <==> ReadResponseSpec(start).Reply?)
        && (outcome.Thrown? <==> ReadResponseSpec(start).Escaped?)
        && (again <==> start == "")
    {
      hide ReadResponseSpec;
      again, outcome, start, parses := false, Refused, slots[0].fd.unread, 0;
      assert Owned(slots[0].fd);
      var ok := Write(slots[0].fd, data);
      if !ok {
        Close(0);
        again := true;
        return;
      }
      // the reply may be late, or waiting for it may fail
      var ready: bool := *;
      if !ready && !slots[0].fd.reliable {
        Close(0);
        return;
      }
      NoResponse();
      ok, outcome := ReadResponse(slots[0].fd);
      if !ok {
        Close(0);
        again := true;
        return;
      }
      parses := 1;
      if outcome.Refused? || (outcome.Returned? && outcome.response.reconnect) {
        Close(0);
      }
    }

    /** Everything between two jumps to the `reconnect` label: `connect`, then the rest. */
    method Round(data: string)
      returns (again: bool, outcome: Outcome, ghost start: string, ghost parses: nat, ghost sent: bool,
               ghost made: seq<Socket>)
      requires Valid()
      modifies slots[0], this`created, created
      ensures Valid() && created == old(created) + Listed(made)
      ensures |made| <= (if old(slots[0].closed) then 1 else 0) && fresh(made)
      ensures forall s :: s in made ==> s.sent <= data
      ensures old(!slots[0].closed) ==>
        && sent && slots[0].fd == old(slots[0].fd)
        && old(slots[0].fd.sent) <= slots[0].fd.sent <= old(slots[0].fd.sent) + data
      ensures forall s :: s in old(created) && (old(slots[0].closed) || s != old(slots[0].fd)) ==> unchanged(s)
      ensures again ==> outcome.Refused? && parses == 0 && sent
      ensures sent && !again && old(slots[0].closed) ==> |made| == 1 && made[0].sent == data
      ensures sent && !again && old(!slots[0].closed) ==> slots[0].fd.sent == old(slots[0].fd.sent) + data
      ensures parses <= 1 && (!outcome.Refused? ==> parses == 1 && sent)
      ensures outcome.Refused? ==> slots[0].closed
      ensures !outcome.Refused? && old(slots[0].closed) ==>
        slots[0].fd in made && start == slots[0].fd.stream && slots[0].fd.sent == data
      ensures !outcome.Refused? && old(!slots[0].closed) ==> slots[0].fd.sent == old(slots[0].fd.sent) + data
      ensures old(!slots[0].closed) ==> start == old(slots[0].fd.unread)
      ensures outcome.Returned? ==>
        && slots[0].fd != null
        && ReadResponseSpec(start) == Reply(outcome.response, slots[0].fd.unread)
        && (slots[0].closed <==> outcome.response.reconnect)
      ensures outcome.Thrown? ==> !slots[0].closed && ReadResponseSpec(start) == Escaped
      ensures old(!slots[0].closed) && old(slots[0].fd.reliable) ==>
        && (outcome.Returned? <==> ReadResponseSpec(start).Reply?)
        && (outcome.Thrown? <==> ReadResponseSpec(start).Escaped?)
        && (again <==> start == "")
    {
      hide ReadResponseSpec;
      again, outcome, start, parses, sent := false, Refused, "", 0, false;
      var ok;
      ok, made := Connect(0);
      if !ok { return; }
      sent := true;
      again, outcome, start, parses := Attempt(data);
    }

    /** `doRequest`. With one caller at a time the first slot is the one that is taken. `connects`,
        `sends` and `parses` count the calls of `connect` and `write` and how often the header loop
        is entered; `made` lists the descriptors that were created; `start` is what the last
        connection had to offer when the request was sent. */
    method DoRequest(request: Request)
      returns (outcome: Outcome, ghost connects: nat, ghost sends: nat, ghost parses: nat, ghost made: seq<Socket>,
               ghost start: string)
      requires Valid()
      modifies this`created, slots[0], created
      ensures Valid() && created == old(created) + Listed(made) && fresh(made)
      // bounded retry, and no retry once headers have been looked at
      ensures sends <= connects <= 1 + MAX_HTTP_RETRIES
      ensures |made| + (if old(slots[0].closed) then 0 else 1) <= connects
      ensures parses <= 1 && (!outcome.Refused? ==> parses == 1)
      // a request that could not be sent is tried again
      ensures connects == sends == 1 ==>
        if old(slots[0].closed) then |made| == 1 && made[0].sent == PrintRequest(request, host)
        else old(slots[0].fd).sent == old(slots[0].fd.sent) + PrintRequest(request, host)
      // every connection carries the request at most once, and no other connection is touched
      ensures forall s :: s in made ==> s.sent <= PrintRequest(request, host)
      ensures old(!slots[0].closed) ==>
        old(slots[0].fd.sent) <= old(slots[0].fd).sent <= old(slots[0].fd.sent) + PrintRequest(request, host)
      ensures forall s :: s in old(created) && (old(slots[0].closed) || s != old(slots[0].fd)) ==> unchanged(s)
      // a response, or an exception, comes from one connection, the one the slot now holds, which has
      // carried the request: from all that a new one offers, or from all that was still to come on
      // the one that was open
      ensures !outcome.Refused? ==>
        || (slots[0].fd in made && start == slots[0].fd.stream && slots[0].fd.sent == PrintRequest(request, host))
        || (old(!slots[0].closed) && slots[0].fd == old(slots[0].fd) && made == [] &&
            start == old(slots[0].fd.unread) &&
            slots[0].fd.sent == old(slots[0].fd.sent) + PrintRequest(request, host))
      ensures !outcome.Refused? ==> sends > 0
      ensures outcome.Returned? ==>
        && slots[0].fd != null
        && ReadResponseSpec(start) == Reply(outcome.response, slots[0].fd.unread)
        && (slots[0].closed <==> outcome.response.reconnect)
      // a refused request leaves the slot closed, an exception leaves it open
      ensures outcome.Refused? ==> slots[0].closed
      ensures outcome.Thrown? ==> !slots[0].closed && ReadResponseSpec(start) == Escaped
      // a connection without errors that the peer has closed is replaced by a new one, or by none
      ensures old(!slots[0].closed) && old(slots[0].fd.reliable) && old(slots[0].fd.unread) == "" ==>
        connects == 2 && !old(slots[0].fd).live && (!outcome.Refused? ==> slots[0].fd in made)
      // on an open connection without errors that has something to offer, the outcome follows from it
      ensures old(!slots[0].closed) && old(slots[0].fd.reliable) && old(slots[0].fd.unread) != "" ==>
        && connects == 1 && start == old(slots[0].fd.unread)
        && (outcome.Returned? <==> ReadResponseSpec(start).Reply?)
        && (outcome.Thrown? <==> ReadResponseSpec(start).Escaped?)
    {
      hide PrintRequest, ReadResponseSpec;
      connects, sends, made := 0, 0, [];
      var data := FormatRequest(request, host);
      var retries := 0;
      while true
        invariant Valid() && created == old(created) + Listed(made) && fresh(made)
        invariant retries == connects == sends <= MAX_HTTP_RETRIES
        invariant retries == 0 ==> made == [] && unchanged(slots[0]) && unchanged(old(created))
        invariant retries > 0 ==>
          slots[0].closed && |made| + (if old(slots[0].closed) then 0 else 1) <= retries
        invariant forall s :: s in made ==> s.sent <= data
        invariant old(!slots[0].closed) ==>
          old(slots[0].fd.sent) <= old(slots[0].fd).sent <= old(slots[0].fd.sent) + data
        invariant forall s :: s in old(created) && (old(slots[0].closed) || s != old(slots[0].fd)) ==> unchanged(s)
        invariant retries > 0 ==> !(old(!slots[0].closed) && old(slots[0].fd.reliable) && old(slots[0].fd.unread) != "")
        decreases MAX_HTTP_RETRIES - retries
      {
        var again;
        ghost var sent, more;
        again, outcome, start, parses, sent, more := Round(data);
        connects, sends, made := connects + 1, sends + (if sent then 1 else 0), made + more;
        if !again || retries == MAX_HTTP_RETRIES { return; }
        retries := retries + 1;
      }
    }

    /** The destructor. */
    method Destroy()
      requires Valid()
      modifies created
      ensures forall s :: s in created ==> !s.live && s.destroyed == 1
    {
      for i := 0 to |slots|
        invariant forall s :: s in created ==> s.destroyed == if s.live then 0 else 1
        invariant forall s :: s in created && s.live ==>
                    exists k :: i <= k < |slots| && !slots[k].closed && slots[k].fd == s
        invariant forall k :: i <= k < |slots| && !slots[k].closed ==> slots[k].fd.live
      {
        if !slots[i].closed && slots[i].fd != null {
          slots[i].fd.Destroy();
        }
      }
    }
  }

  /** The response, from its status line on. Without a status line, `got` is false. */
  method ReadResponse(s: Socket) returns (got: bool, outcome: Outcome)
    requires s.live
    modifies s`unread
    ensures !got ==> outcome.Refused? && (s.reliable ==> old(s.unread) == "")
    ensures old(s.unread) == "" ==> !got
    ensures outcome.Returned? ==> ReadResponseSpec(old(s.unread)) == Reply(outcome.response, s.unread)
    ensures outcome.Thrown? ==> ReadResponseSpec(old(s.unread)) == Escaped
    ensures outcome.Refused? && s.reliable ==> ReadResponseSpec(old(s.unread)) == Failed
  {
    hide AfterStatusSpec;
    var status;
    got, status := ReadLine(s);
    if !got { return got, Refused; }
    outcome := ReadAfterStatus(s, status);
  }

  lemma NoResponse()
    ensures ReadResponseSpec("") == Failed
  {
  }

  /** Headers and content of a response, once its status line is there. */
  method ReadAfterStatus(s: Socket, status: string) returns (outcome: Outcome)
    requires s.live
    modifies s`unread
    ensures outcome.Returned? ==> AfterStatusSpec(status, old(s.unread)) == Reply(outcome.response, s.unread)
    ensures outcome.Thrown? ==> AfterStatusSpec(status, old(s.unread)) == Escaped
    ensures outcome.Refused? && s.reliable ==> AfterStatusSpec(status, old(s.unread)) == Failed
  {
    hide ReadHeadersSpec, BodySpec, ContentLength, IsChunked, WantsClose;
    var ok, thrown, headers := ReadHeaders(s);
    if thrown { return Thrown; }
    if !ok { return Refused; }
    outcome := ReadBody(s, status, headers);
  }

  method ReadBody(s: Socket, status: string, headers: HeaderMap) returns (outcome: Outcome)
    requires s.live
    modifies s`unread
    ensures outcome.Returned? ==> BodySpec(status, headers, old(s.unread)) == Reply(outcome.response, s.unread)
    ensures outcome.Thrown? ==> BodySpec(status, headers, old(s.unread)) == Escaped
    ensures outcome.Refused? && s.reliable ==> BodySpec(status, headers, old(s.unread)) == Failed
  {
    hide Stoi, IsChunked, WantsClose, ReadChunkedSpec;
    StoiZero();
    var contentLength := ContentLength(headers);
    if contentLength == None { return Thrown; }
    var reconnect, chunked := WantsClose(headers), IsChunked(headers);
    var ok, thrown, content := true, false, "";
    ghost var data := "";
    if chunked {
      ok, thrown, content, data := ReadChunkedContent(s, content);
    } else if "Content-Length" !in headers {
      data := s.unread;
      ok, content := ReadIndefiniteContent(s, content);
    } else if contentLength.value != 0 {
      ok, thrown, content, data := ReadFixedContent(s, content, ToSize(contentLength.value));
    } else {
      ReadFixedNothing(s.unread);
    }
    if thrown { return Thrown; }
    if !ok { return Refused; }
    assert content == "" + data == data;
    assert ReadBodySpec(headers, old(s.unread)) == Got(content, s.unread);
    return Returned(Response(status, headers, content, reconnect, chunked));
  }

  /** Whether request `i` finds the slot closed: it is the first, or the one before it was refused or
      answered with `Connection: close`. */
  predicate FindsClosed(outcomes: seq<Outcome>, i: nat)
    requires i <= |outcomes|
  {
    i == 0 || outcomes[i - 1].Refused? || (outcomes[i - 1].Returned? && outcomes[i - 1].response.reconnect)
  }

  ghost function AllListed(made: seq<seq<Socket>>): set<Socket> {
    if made == [] then {} else AllListed(made[..|made| - 1]) + Listed(made[|made| - 1])
  }

  lemma NothingListed()
    ensures AllListed([]) == {}
  {
  }

  lemma NewlyListed(made: seq<Socket>, before: set<Socket>)
    requires forall s :: s in made ==> s !in before
    ensures Listed(made) !! before
    ensures forall s :: s in Listed(made) <==> s in made
  {
  }

  lemma OneMoreListed(made: seq<seq<Socket>>, more: seq<Socket>)
    ensures AllListed(made + [more]) == AllListed(made) + Listed(more)
  {
    assert (made + [more])[..|made|] == made;
  }

  /** One of the descriptors offered this response first of all. */
  ghost predicate OfferedBy(made: seq<Socket>, response: Response) {
    exists k :: 0 <= k < |made| && Offers(made[k].stream, response)
  }

  predicate Offers(stream: string, response: Response) {
    ReadResponseSpec(stream).Reply? && ReadResponseSpec(stream).response == response
  }

  /** What the descriptors of a client were created for: no two requests share one, none has more than
      two; and a request that found the slot closed and was not refused has one, which offered the
      response it got. */
  ghost predicate Accounted(outcomes: seq<Outcome>, descriptors: seq<seq<Socket>>) {
    && |outcomes| == |descriptors|
    && (forall i, j :: 0 <= i < j < |descriptors| ==> Listed(descriptors[i]) !! Listed(descriptors[j]))
    && (forall i :: 0 <= i < |outcomes| ==> Served(FindsClosed(outcomes, i), outcomes[i], descriptors[i]))
  }

  ghost predicate Served(closed: bool, outcome: Outcome, made: seq<Socket>) {
    && |made| <= 1 + MAX_HTTP_RETRIES
    && (closed && !outcome.Refused? ==> made != [])
    && (closed && outcome.Returned? ==> OfferedBy(made, outcome.response))
  }

  lemma AccountedGrows(outcomes: seq<Outcome>, descriptors: seq<seq<Socket>>, outcome: Outcome, made: seq<Socket>)
    requires Accounted(outcomes, descriptors)
    requires Listed(made) !! AllListed(descriptors) && Served(FindsClosed(outcomes, |outcomes|), outcome, made)
    ensures Accounted(outcomes + [outcome], descriptors + [made])
    ensures AllListed(descriptors + [made]) == AllListed(descriptors) + Listed(made)
  {
    hide Served, Listed, AllListed;
    OneMoreListed(descriptors, made);
    forall i | 0 <= i < |descriptors|
      ensures Listed(descriptors[i]) <= AllListed(descriptors)
    {
      EachListed(descriptors, i);
    }
    var more := outcomes + [outcome];
    forall i | 0 <= i < |more|
      ensures FindsClosed(more, i) == FindsClosed(outcomes, i)
    {
    }
  }

  lemma {:induction false} EachListed(made: seq<seq<Socket>>, i: nat)
    requires i < |made|
    ensures Listed(made[i]) <= AllListed(made)
  {
    if i < |made| - 1 {
      EachListed(made[..|made| - 1], i);
    }
  }

  /** One request in the life of a client. */
  method Serve(client: Client, request: Request) returns (outcome: Outcome, ghost made: seq<Socket>)
    requires client.Valid()
    modifies client`created, client.slots[0], client.created
    ensures client.Valid() && client.created == old(client.created) + Listed(made) && fresh(made)
    ensures client.slots[0].closed <==> FindsClosed([outcome], 1)
    ensures Served(old(client.slots[0].closed), outcome, made)
  {
    hide ReadResponseSpec, PrintRequest;
    ghost var connects, sends, parses, start;
    outcome, connects, sends, parses, made, start := client.DoRequest(request);
    if old(client.slots[0].closed) && outcome.Returned? {
      assert Offers(start, outcome.response);
      var k :| 0 <= k < |made| && made[k] == client.slots[0].fd;
      assert Offers(made[k].stream, outcome.response);
    }
  }

  /** The life of a client, whatever requests are made and whatever fails: every descriptor it
      creates is created for one of the requests, no more than two for each, and is destroyed
      exactly once by the end. A request that is not refused and finds the slot closed is served by
      a descriptor created for it; if it is answered, with the response that one offered first. */
  method Lifetime(host: string, requests: seq<Request>)
    returns (client: Client, outcomes: seq<Outcome>, ghost descriptors: seq<seq<Socket>>)
    ensures |outcomes| == |requests| && Accounted(outcomes, descriptors)
    ensures client.created == AllListed(descriptors)
    ensures forall s :: s in client.created ==> !s.live && s.destroyed == 1
  {
    hide Served, Listed, AllListed;
    client := new Client(host);
    outcomes, descriptors := [], [];
    NothingListed();
    for i := 0 to |requests|
      invariant client.Valid() && fresh(client) && fresh(client.slots) && fresh(client.created)
      invariant |outcomes| == i && Accounted(outcomes, descriptors)
      invariant client.created == AllListed(descriptors)
      invariant client.slots[0].closed <==> FindsClosed(outcomes, i)
    {
      ghost var before := client.created;
      var outcome, made := Serve(client, requests[i]);
      NewlyListed(made, before);
      AccountedGrows(outcomes, descriptors, outcome, made);
      outcomes, descriptors := outcomes + [outcome], descriptors + [made];
    }
    client.Destroy();
  }

  /** Successive requests on one persistent connection that offers the complete responses `ws`
      one after the other: the i-th call returns the i-th response, no call reads a byte of the
      next one, and the connection carries exactly the printed requests. */
  method Session(client: Client, requests: seq<Request>, ghost ws: seq<string>,
                 ghost rs: seq<Response>, ghost rest: string)
    returns (responses: seq<Response>)
    requires client.Valid() && !client.slots[0].closed && client.slots[0].fd.reliable
    requires |requests| == |ws| == |rs| && forall i :: 0 <= i < |ws| ==> CompleteResponse(ws[i], rs[i])
    requires client.slots[0].fd.unread == Concat(ws) + rest
    modifies client`created, client.slots[0], client.created
    ensures responses == rs
    ensures client.Valid() && !client.slots[0].closed && client.slots[0].fd == old(client.slots[0].fd)
    ensures client.slots[0].fd.unread == rest
    ensures client.slots[0].fd.sent == old(client.slots[0].fd.sent) + PrintRequests(requests, client.host)
  {
    hide CompleteResponse, ReadResponseSpec, PrintRequest;
    responses := [];
    ghost var sent := client.slots[0].fd.sent;
    assert ws[0..] == ws && requests[0..] == requests;
    for i := 0 to |requests|
      invariant client.Valid() && old(client.created) <= client.created && fresh(client.created - old(client.created))
      invariant !client.slots[0].closed && client.slots[0].fd == old(client.slots[0].fd)
      invariant client.slots[0].fd.unread == Concat(ws[i..]) + rest
      invariant client.slots[0].fd.sent + PrintRequests(requests[i..], client.host) ==
                sent + PrintRequests(requests, client.host)
      invariant responses == rs[..i]
    {
      PersistentConnection(ws, rs, rest, i);
      NotReconnecting(ws[i], rs[i]);
      var outcome, connects, sends, parses, made, start := client.DoRequest(requests[i]);
      responses := responses + [outcome.response];
      assert requests[i..][1..] == requests[i + 1..];
    }
    assert requests[|requests|..] == [] && ws[|ws|..] == [];
    assert client.slots[0].fd.sent + "" == client.slots[0].fd.sent;
    assert Concat([]) + rest == rest;
  }

  lemma NotReconnecting(w: string, r: Response)
    requires CompleteResponse(w, r)
    ensures !r.reconnect
  {
  }
}
