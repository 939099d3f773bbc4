/** Subscriptions of peakApi.cpp: several clients share the callback table of one notification
    server and two counters (the function-local statics), and each keeps a map from the guids the
    server hands out to the method names it made up. The server's answer to a call is a parameter:
    None is a call that throws. */
module Subscriptions {
  import opened Wrappers
  import opened Numerals
  import NotificationServer

  type Callback = NotificationServer.Callback
  type Guid = string

  /** The method name a subscription is given: a name and the next value of its counter. */
  function MethodName(name: string, id: nat): string {
    name + Decimal(id)
  }

  /** `std::map::emplace`: a key that is already there keeps its value. */
  function Emplace(m: map<Guid, string>, key: Guid, value: string): map<Guid, string> {
    if key in m then m else m[key := value]
  }

  class Counters {
    var observables: nat
    var states: nat

    constructor ()
      ensures observables == 0 && states == 0
    {
      observables, states := 0, 0;
    }
  }

  class PeakApi {
    const server: NotificationServer.Server
    const counters: Counters
    var subscribers: map<Guid, string>

    constructor (server: NotificationServer.Server, counters: Counters)
      ensures this.server == server && this.counters == counters && subscribers == map[]
    {
      this.server, this.counters, subscribers := server, counters, map[];
    }

    /** `subscribeToObservable`: the counter moves even when the call throws. */
    method SubscribeToObservable(observable: string, callback: Callback, reply: Option<Guid>)
      returns (guid: Option<Guid>)
      modifies this, server`subscribers, counters
      ensures guid == reply
      ensures counters.observables == old(counters.observables) + 1 && counters.states == old(counters.states)
      ensures var name := observable + Decimal(old(counters.observables));
              && server.subscribers ==
                   (if reply.Some? then old(server.subscribers)[name := callback] else old(server.subscribers))
              && subscribers == (if reply.Some? then Emplace(old(subscribers), reply.value, name) else old(subscribers))
    {
      var name := MethodName(observable, counters.observables);
      counters.observables := counters.observables + 1;
      if reply == None {
        return None;
      }
      server.Subscribe(name, callback);
      subscribers := Emplace(subscribers, reply.value, name);
      return reply;
    }

    /** `subscribeToState`. */
    method SubscribeToState(callback: Callback, reply: Option<Guid>) returns (guid: Option<Guid>)
      modifies this, server`subscribers, counters
      ensures guid == reply
      ensures counters.states == old(counters.states) + 1 && counters.observables == old(counters.observables)
      ensures var name := "State" + Decimal(old(counters.states));
              && server.subscribers ==
                   (if reply.Some? then old(server.subscribers)[name := callback] else old(server.subscribers))
              && subscribers == (if reply.Some? then Emplace(old(subscribers), reply.value, name) else old(subscribers))
    {
      var name := MethodName("State", counters.states);
      counters.states := counters.states + 1;
      if reply == None {
        return None;
      }
      server.Subscribe(name, callback);
      subscribers := Emplace(subscribers, reply.value, name);
      return reply;
    }

    /** `unsubscribe`: an unknown guid is ignored, and a call that throws changes nothing. */
    method Unsubscribe(guid: Guid, throws: bool)
      modifies this, server`subscribers
      ensures var there := guid in old(subscribers) && !throws;
              && subscribers == (if there then old(subscribers) - {guid} else old(subscribers))
              && server.subscribers == (if there then old(server.subscribers) - {old(subscribers)[guid]}
                                           else old(server.subscribers))
    {
      if guid in subscribers && !throws {
        server.Unsubscribe(subscribers[guid]);
        subscribers := subscribers - {guid};
      }
    }
  }

  // ----- All clients together

  /** `given` records, for each client, which callback every guid was obtained for. */
  datatype Registry = Registry(clients: seq<map<Guid, string>>, given: seq<map<Guid, Callback>>,
                               table: map<string, Callback>, observables: nat, states: nat)

  datatype Operation =
    | Observe(client: nat, observable: string, callback: Callback, reply: Option<Guid>)
    | ObserveState(client: nat, callback: Callback, reply: Option<Guid>)
    | Cancel(client: nat, guid: Guid, throws: bool)

  predicate Shaped(r: Registry) {
    |r.clients| == |r.given|
  }

  function Subscribed(r: Registry, client: nat, name: string, callback: Callback, reply: Option<Guid>): (s: Registry)
    requires Shaped(r) && client < |r.clients|
    ensures Shaped(s) && |s.clients| == |r.clients|
  {
    if reply == None then r
    else r.(clients := r.clients[client := Emplace(r.clients[client], reply.value, name)],
            given := r.given[client := r.given[client][reply.value := callback]],
            table := r.table[name := callback])
  }

  function Step(r: Registry, op: Operation): (s: Registry)
    requires Shaped(r) && op.client < |r.clients|
    ensures Shaped(s) && |s.clients| == |r.clients|
  {
    match op
    case Observe(client, observable, callback, reply) =>
      Subscribed(r, client, MethodName(observable, r.observables), callback, reply).(observables := r.observables + 1)
    case ObserveState(client, callback, reply) =>
      Subscribed(r, client, MethodName("State", r.states), callback, reply).(states := r.states + 1)
    case Cancel(client, guid, throws) =>
      if guid !in r.clients[client] || throws then r
      else r.(clients := r.clients[client := r.clients[client] - {guid}],
              given := r.given[client := r.given[client] - {guid}],
              table := r.table - {r.clients[client][guid]})
  }

  /** Client `i` holds `guid` for the method `name`. */
  predicate Holds(r: Registry, i: nat, guid: Guid, name: string) {
    i < |r.clients| && guid in r.clients[i] && r.clients[i][guid] == name
  }

  /** Every subscription is in the table, under the callback it was made for. */
  ghost predicate Mapped(r: Registry) {
    Shaped(r) &&
    forall i: nat, g, name :: Holds(r, i, g, name) ==>
      name in r.table && g in r.given[i] && r.table[name] == r.given[i][g]
  }

  /** No method belongs to two subscriptions, of one client or of two. */
  ghost predicate Injective(r: Registry) {
    forall i: nat, g, j: nat, h, name :: Holds(r, i, g, name) && Holds(r, j, h, name) ==> i == j && g == h
  }

  /** Every method in the table belongs to a subscription. */
  ghost predicate Onto(r: Registry) {
    forall name :: name in r.table ==> Held(r, name)
  }

  ghost predicate Held(r: Registry, name: string) {
    exists i: nat, g :: Holds(r, i, g, name)
  }

  /** The clients' maps are injective, also between clients; together they are in bijection with
      the table; and the table sends every subscription to the callback it was made for. */
  ghost predicate Agree(r: Registry) {
    Mapped(r) && Injective(r) && Onto(r)
  }

  // ----- Which names can be told apart

  /** No name is "State", and none is another one, or "State", with a positive number behind it. */
  ghost predicate Compatible(names: iset<string>) {
    && "State" !in names
    && forall a, b, k: nat :: b in names && (a in names || a == "State") && k >= 1 ==> b != a + Decimal(k)
  }

  /** Names that do not end in a digit are never in the way, unless one is "State". */
  lemma NoDigitsNoCollision(names: iset<string>)
    requires "State" !in names
    requires forall name :: name in names && name != [] ==> !IsDigit(name[|name| - 1], 10)
    ensures Compatible(names)
  {
    forall a, b, k: nat | b in names && (a in names || a == "State") && k >= 1
      ensures b != MethodName(a, k)
    {
      EndsInDigit(a, k);
    }
  }

  lemma EndsInDigit(name: string, id: nat)
    ensures var m := MethodName(name, id); m != [] && IsDigit(m[|m| - 1], 10)
  {
    hide Decimal, IsDigit;
    var digits := Decimal(id);
    assert MethodName(name, id)[|name| + |digits| - 1] == digits[|digits| - 1];
  }

  ghost predicate FromObservable(names: iset<string>, r: Registry, method_: string) {
    exists name, id: nat :: name in names && id < r.observables && method_ == MethodName(name, id)
  }

  ghost predicate FromState(r: Registry, method_: string) {
    exists id: nat :: id < r.states && method_ == MethodName("State", id)
  }

  /** Every method in the table was made from one of the names or from "State", with a counter
      value that has been used up. */
  ghost predicate Numbered(names: iset<string>, r: Registry) {
    forall m :: m in r.table ==> FromObservable(names, r, m) || FromState(r, m)
  }

  /** Among compatible names a method name says which name and which counter value it was made of. */
  lemma NamesApart(names: iset<string>, a: string, m: nat, b: string, n: nat)
    requires Compatible(names) && (a in names || a == "State") && (b in names || b == "State")
    requires MethodName(a, m) == MethodName(b, n)
    ensures a == b && m == n
  {
    hide Decimal;
    if |a| <= |b| {
      var k := SameNumberedName(a, m, b, n);
      if k >= 1 { NoSuchName(names, a, b, k); }
    } else {
      var k := SameNumberedName(b, n, a, m);
      if k >= 1 { NoSuchName(names, b, a, k); }
    }
  }

  lemma NoSuchName(names: iset<string>, a: string, b: string, k: nat)
    requires Compatible(names) && (a in names || a == "State") && (b in names || b == "State") && k >= 1
    ensures b != MethodName(a, k)
  {
    EndsInDigit(a, k);
  }

  lemma NewObservableName(names: iset<string>, r: Registry, observable: string)
    requires Numbered(names, r) && Compatible(names) && observable in names
    ensures MethodName(observable, r.observables) !in r.table
  {
    assert "State" !in names;
    hide MethodName, Compatible;
    var m := MethodName(observable, r.observables);
    if FromObservable(names, r, m) {
      var name, id: nat :| name in names && id < r.observables && m == MethodName(name, id);
      NamesApart(names, name, id, observable, r.observables);
    }
    if FromState(r, m) {
      var id: nat :| id < r.states && m == MethodName("State", id);
      NamesApart(names, "State", id, observable, r.observables);
    }
  }

  lemma NewStateName(names: iset<string>, r: Registry)
    requires Numbered(names, r) && Compatible(names)
    ensures MethodName("State", r.states) !in r.table
  {
    assert "State" !in names;
    hide MethodName, Compatible;
    var m := MethodName("State", r.states);
    if FromObservable(names, r, m) {
      var name, id: nat :| name in names && id < r.observables && m == MethodName(name, id);
      NamesApart(names, name, id, "State", r.states);
    }
    if FromState(r, m) {
      var id: nat :| id < r.states && m == MethodName("State", id);
      NamesApart(names, "State", id, "State", r.states);
    }
  }

  // ----- What one operation does to the agreement

  lemma SubscribedHolds(r: Registry, client: nat, name: string, callback: Callback, guid: Guid,
                        i: nat, g: Guid, n: string)
    requires Shaped(r) && client < |r.clients|
    ensures Holds(Subscribed(r, client, name, callback, Some(guid)), i, g, n) <==>
            if i == client && g == guid && guid !in r.clients[client] then n == name else Holds(r, i, g, n)
  {
  }

  /** A subscription keeps the registries in agreement exactly when guid and method name are both new;
      or when neither is, and what is written over was the same: the guid stood for this very method,
      or its method and the one written over both had this callback. */
  lemma SubscribedAgrees(r: Registry, client: nat, name: string, callback: Callback, guid: Guid)
    requires Agree(r) && client < |r.clients|
    ensures Agree(Subscribed(r, client, name, callback, Some(guid))) <==>
            || (guid !in r.clients[client] && name !in r.table)
            || (guid in r.clients[client] && name in r.table && SameAgain(r, r.clients[client][guid], name, callback))
  {
    hide Agree, SameAgain, Subscribed;
    if guid in r.clients[client] && name in r.table {
      BothKnown(r, client, name, callback, guid);
    } else if guid in r.clients[client] {
      KnownGuid(r, client, name, callback, guid);
    } else if name in r.table {
      KnownMethod(r, client, name, callback, guid);
    } else {
      BothNew(r, client, name, callback, guid);
    }
  }

  predicate SameAgain(r: Registry, held: string, name: string, callback: Callback) {
    held == name ||
    (held in r.table && r.table[held] == callback && name in r.table && r.table[name] == callback)
  }

  /** Neither is new: only the callbacks are written over. */
  lemma BothKnown(r: Registry, client: nat, name: string, callback: Callback, guid: Guid)
    requires Agree(r) && client < |r.clients| && guid in r.clients[client] && name in r.table
    ensures Agree(Subscribed(r, client, name, callback, Some(guid))) <==>
            SameAgain(r, r.clients[client][guid], name, callback)
  {
    hide Held, Onto, Subscribed;
    var s := Subscribed(r, client, name, callback, Some(guid));
    OnlyCallbacks(r, client, name, callback, guid);
    KeepsHeld(r, s);
    var held := r.clients[client][guid];
    assert Holds(s, client, guid, held);
    HolderOf(r, name);
    if held != name && Mapped(s) {
      var j: nat, h :| Holds(r, j, h, name);
      assert Holds(s, j, h, name);
    }
    if SameAgain(r, held, name, callback) {
      SameCallbacks(r, s, client, guid, name, callback);
    }
  }

  lemma OnlyCallbacks(r: Registry, client: nat, name: string, callback: Callback, guid: Guid)
    requires Agree(r) && client < |r.clients| && guid in r.clients[client] && name in r.table
    ensures var s := Subscribed(r, client, name, callback, Some(guid));
            && s == r.(table := r.table[name := callback],
                       given := r.given[client := r.given[client][guid := callback]])
            && Holds(r, client, guid, r.clients[client][guid])
            && forall i: nat, g, n :: Holds(s, i, g, n) <==> Holds(r, i, g, n)
  {
    hide Mapped, Injective, Onto;
  }

  lemma HolderOf(r: Registry, name: string)
    requires Onto(r) && name in r.table
    ensures exists j: nat, h :: Holds(r, j, h, name)
  {
    assert Held(r, name);
  }

  lemma SameCallbacks(r: Registry, s: Registry, client: nat, guid: Guid, name: string, callback: Callback)
    requires Mapped(r) && Injective(r) && client < |r.clients| && guid in r.clients[client]
    requires SameAgain(r, r.clients[client][guid], name, callback)
    requires s == r.(table := r.table[name := callback],
                     given := r.given[client := r.given[client][guid := callback]])
    requires forall i: nat, g, n :: Holds(s, i, g, n) <==> Holds(r, i, g, n)
    ensures Mapped(s)
  {
    assert Holds(r, client, guid, r.clients[client][guid]);
    forall i: nat, g, n | Holds(s, i, g, n)
      ensures n in s.table && g in s.given[i] && s.table[n] == s.given[i][g]
    {
      assert Holds(r, i, g, n);
    }
  }

  lemma KeepsHeld(r: Registry, s: Registry)
    requires Onto(r) && s.clients == r.clients && forall n :: n in s.table ==> n in r.table
    ensures Onto(s)
  {
    forall n | n in s.table
      ensures Held(s, n)
    {
      assert Held(r, n);
      var i: nat, g :| Holds(r, i, g, n);
      assert Holds(s, i, g, n);
    }
  }

  /** A guid that is not new leaves the new method without a subscription. */
  lemma KnownGuid(r: Registry, client: nat, name: string, callback: Callback, guid: Guid)
    requires Agree(r) && client < |r.clients| && guid in r.clients[client] && name !in r.table
    ensures !Agree(Subscribed(r, client, name, callback, Some(guid)))
  {
    var s := Subscribed(r, client, name, callback, Some(guid));
    assert forall i: nat, g :: Holds(s, i, g, name) <==> Holds(r, i, g, name);
    assert !Held(s, name);
  }

  /** A method that is not new belongs to two subscriptions afterwards. */
  lemma KnownMethod(r: Registry, client: nat, name: string, callback: Callback, guid: Guid)
    requires Agree(r) && client < |r.clients| && guid !in r.clients[client] && name in r.table
    ensures !Agree(Subscribed(r, client, name, callback, Some(guid)))
  {
    var s := Subscribed(r, client, name, callback, Some(guid));
    assert Held(r, name);
    var i: nat, g :| Holds(r, i, g, name);
    assert Holds(s, i, g, name) && Holds(s, client, guid, name);
  }

  lemma BothNew(r: Registry, client: nat, name: string, callback: Callback, guid: Guid)
    requires Agree(r) && client < |r.clients| && guid !in r.clients[client] && name !in r.table
    ensures Agree(Subscribed(r, client, name, callback, Some(guid)))
  {
    var s := Subscribed(r, client, name, callback, Some(guid));
    forall i: nat, g, n
      ensures Holds(s, i, g, n) <==> if i == client && g == guid then n == name else Holds(r, i, g, n)
    {
      SubscribedHolds(r, client, name, callback, guid, i, g, n);
    }
    NewGuid(r, client, guid);
    assert s.table == r.table[name := callback] && s.given == r.given[client := r.given[client][guid := callback]];
    hide Subscribed, Holds;
    GainedOnto(r, s, client, guid, name);
    GainedInjective(r, s, client, guid, name);
    hide Onto, Injective;
    GainedMapped(r, s, client, guid, name, callback);
  }

  /** `s` differs from `r` by one subscription. */
  ghost predicate Gained(r: Registry, s: Registry, client: nat, guid: Guid, name: string) {
    forall i: nat, g, n :: Holds(s, i, g, n) <==> if i == client && g == guid then n == name else Holds(r, i, g, n)
  }

  lemma GainedMapped(r: Registry, s: Registry, client: nat, guid: Guid, name: string, callback: Callback)
    requires Mapped(r) && Shaped(s) && Gained(r, s, client, guid, name) && client < |r.given| && name !in r.table
    requires |s.clients| == |r.clients|
    requires s.table == r.table[name := callback] && s.given == r.given[client := r.given[client][guid := callback]]
    ensures Mapped(s)
  {
    forall i: nat, g, n | Holds(s, i, g, n)
      ensures n in s.table && g in s.given[i] && s.table[n] == s.given[i][g]
    {
      assert i < |s.clients|;
      if !(i == client && g == guid) {
        assert Holds(r, i, g, n);
      }
    }
  }

  lemma GainedInjective(r: Registry, s: Registry, client: nat, guid: Guid, name: string)
    requires Mapped(r) && Injective(r) && Gained(r, s, client, guid, name) && name !in r.table
    ensures Injective(s)
  {
    hide Holds;
  }

  lemma GainedOnto(r: Registry, s: Registry, client: nat, guid: Guid, name: string)
    requires Onto(r) && (forall n :: n in s.table <==> n in r.table || n == name)
    requires Gained(r, s, client, guid, name) && forall n :: !Holds(r, client, guid, n)
    ensures Onto(s)
  {
    hide Holds;
    assert Holds(s, client, guid, name);
    forall n | n in s.table
      ensures Held(s, n)
    {
      if n != name {
        assert Held(r, n);
        var i: nat, g :| Holds(r, i, g, n);
        assert Holds(s, i, g, n);
      }
    }
  }

  lemma NewGuid(r: Registry, client: nat, guid: Guid)
    requires client < |r.clients| && guid !in r.clients[client]
    ensures forall n :: !Holds(r, client, guid, n)
  {
  }

  lemma CancelAgrees(r: Registry, client: nat, guid: Guid)
    requires Agree(r) && client < |r.clients| && guid in r.clients[client]
    ensures Agree(Step(r, Cancel(client, guid, false)))
  {
    var s := Step(r, Cancel(client, guid, false));
    var name := r.clients[client][guid];
    assert Shaped(s) && s.table == r.table - {name};
    assert s.given == r.given[client := r.given[client] - {guid}];
    assert forall i: nat, g, n :: Holds(s, i, g, n) <==> Holds(r, i, g, n) && !(i == client && g == guid);
    assert Holds(r, client, guid, name);
    hide Holds, Step;
    forall n | n in s.table
      ensures Held(s, n)
    {
      assert Held(r, n);
      var i: nat, g :| Holds(r, i, g, n);
      assert Holds(s, i, g, n);
    }
    assert Injective(s);
  }

  /** What is asked of an operation: a client that exists, one of the names, and a guid that is new
      to the client. */
  ghost predicate Admissible(names: iset<string>, r: Registry, op: Operation) {
    && op.client < |r.clients|
    && (op.Observe? ==> op.observable in names)
    && (!op.Cancel? && op.reply.Some? ==> op.reply.value !in r.clients[op.client])
  }

  lemma NumberedStep(names: iset<string>, r: Registry, op: Operation)
    requires Shaped(r) && Numbered(names, r) && Admissible(names, r, op)
    ensures Numbered(names, Step(r, op))
  {
    hide MethodName;
    var s := Step(r, op);
    forall m | m in s.table
      ensures FromObservable(names, s, m) || FromState(s, m)
    {
      if FromObservable(names, r, m) {
        var name, id: nat :| name in names && id < r.observables && m == MethodName(name, id);
        assert id < s.observables;
      } else if FromState(r, m) {
        var id: nat :| id < r.states && m == MethodName("State", id);
        assert id < s.states;
      }
    }
  }

  /** With compatible names, every operation of any client keeps the agreement. */
  lemma StepAgrees(names: iset<string>, r: Registry, op: Operation)
    requires Agree(r) && Numbered(names, r) && Compatible(names) && Admissible(names, r, op)
    ensures Agree(Step(r, op)) && Numbered(names, Step(r, op))
  {
    NumberedStep(names, r, op);
    hide Agree, Numbered, Compatible, MethodName;
    match op {
      case Observe(client, observable, callback, reply) =>
        NewObservableName(names, r, observable);
        if reply.Some? {
          SubscribedAgrees(r, client, MethodName(observable, r.observables), callback, reply.value);
        }
        SameTables(Subscribed(r, client, MethodName(observable, r.observables), callback, reply), Step(r, op));
      case ObserveState(client, callback, reply) =>
        NewStateName(names, r);
        if reply.Some? {
          SubscribedAgrees(r, client, MethodName("State", r.states), callback, reply.value);
        }
        SameTables(Subscribed(r, client, MethodName("State", r.states), callback, reply), Step(r, op));
      case Cancel(client, guid, throws) =>
        if guid in r.clients[client] && !throws {
          CancelAgrees(r, client, guid);
        }
    }
  }

  /** Agreement does not depend on the counters. */
  lemma SameTables(r: Registry, s: Registry)
    requires Agree(r) && s.clients == r.clients && s.given == r.given && s.table == r.table
    ensures Agree(s)
  {
    assert forall i: nat, g, n :: Holds(s, i, g, n) <==> Holds(r, i, g, n);
    hide Holds;
    forall n | n in s.table
      ensures Held(s, n)
    {
      var i: nat, g :| Holds(r, i, g, n);
      assert Holds(s, i, g, n);
    }
  }

  // ----- Whole runs

  function Run(r: Registry, ops: seq<Operation>): (s: Registry)
    requires Shaped(r) && forall k :: 0 <= k < |ops| ==> ops[k].client < |r.clients|
    ensures Shaped(s) && |s.clients| == |r.clients|
  {
    if ops == [] then r else Step(Run(r, ops[..|ops| - 1]), ops[|ops| - 1])
  }

  ghost predicate AdmissibleRun(names: iset<string>, r: Registry, ops: seq<Operation>)
    requires Shaped(r) && forall k :: 0 <= k < |ops| ==> ops[k].client < |r.clients|
  {
    ops == [] ||
    (AdmissibleRun(names, r, ops[..|ops| - 1]) && Admissible(names, Run(r, ops[..|ops| - 1]), ops[|ops| - 1]))
  }

  /** Any number of clients before the first subscription. */
  function Fresh(clients: nat): Registry {
    Registry(seq(clients, _ => map[]), seq(clients, _ => map[]), map[], 0, 0)
  }

  /** A run of any number of clients that observe nothing but these names, with guids that are new
      to the client that asks. */
  ghost predicate RunOver(names: iset<string>, clients: nat, ops: seq<Operation>) {
    (forall k :: 0 <= k < |ops| ==> ops[k].client < clients) && AdmissibleRun(names, Fresh(clients), ops)
  }

  /** Any interleaving of subscribe and unsubscribe calls by any number of clients, thrown calls
      included, leaves the clients' maps and the callback table in agreement. */
  lemma {:induction false} RunAgrees(names: iset<string>, clients: nat, ops: seq<Operation>)
    requires RunOver(names, clients, ops) && Compatible(names)
    ensures Agree(Run(Fresh(clients), ops)) && Numbered(names, Run(Fresh(clients), ops))
    decreases |ops|
  {
    hide Compatible, Step;
    if ops == [] {
      assert forall i: nat, g, n :: !Holds(Fresh(clients), i, g, n);
    } else {
      RunAgrees(names, clients, ops[..|ops| - 1]);
      StepAgrees(names, Run(Fresh(clients), ops[..|ops| - 1]), ops[|ops| - 1]);
    }
  }

  // ----- Names that collide

  /** One more operation of a run. */
  lemma Then(names: iset<string>, clients: nat, ops: seq<Operation>, op: Operation)
    requires RunOver(names, clients, ops) && Admissible(names, Run(Fresh(clients), ops), op)
    ensures RunOver(names, clients, ops + [op])
    ensures Run(Fresh(clients), ops + [op]) == Step(Run(Fresh(clients), ops), op)
  {
    hide Step;
    assert (ops + [op])[..|ops|] == ops;
  }

  /** The registries after `n` subscribe calls that throw: only a counter has moved. */
  function Moved(r: Registry, op: Operation, n: nat): Registry {
    if op.Observe? then r.(observables := r.observables + n) else r.(states := r.states + n)
  }

  lemma MovedOnce(r: Registry, op: Operation, n: nat)
    requires Shaped(r) && op.client < |r.clients| && !op.Cancel? && op.reply == None
    ensures Moved(r, op, 0) == r && Step(Moved(r, op, n), op) == Moved(r, op, n + 1)
  {
  }

  lemma {:induction false} ThrownCalls(names: iset<string>, clients: nat, ops: seq<Operation>, op: Operation, n: nat)
    requires RunOver(names, clients, ops) && op.client < clients
    requires !op.Cancel? && op.reply == None && (op.Observe? ==> op.observable in names)
    ensures var more := ops + seq(n, _ => op);
            RunOver(names, clients, more) && Run(Fresh(clients), more) == Moved(Run(Fresh(clients), ops), op, n)
  {
    hide AdmissibleRun, Run, Step, Moved;
    if n == 0 {
      MovedOnce(Run(Fresh(clients), ops), op, 0);
      assert ops + seq(0, _ => op) == ops;
    } else {
      ThrownCalls(names, clients, ops, op, n - 1);
      MovedOnce(Run(Fresh(clients), ops), op, n - 1);
      var before := ops + seq(n - 1, _ => op);
      Then(names, clients, before, op);
      assert ops + seq(n, _ => op) == before + [op];
    }
  }

  /** A run in which one client is given the same method name for two guids. */
  lemma SharedMethod(r: Registry, guid: Guid, other: Guid, name: string)
    requires |r.clients| > 0 && guid != other
    requires Holds(r, 0, guid, name) && Holds(r, 0, other, name)
    ensures !Agree(r)
  {
  }

  /** An observable called "State" collides with a state subscription. */
  lemma StateNameCollides(names: iset<string>, clients: nat) returns (ops: seq<Operation>)
    requires "State" in names && clients > 0
    ensures RunOver(names, clients, ops) && !Agree(Run(Fresh(clients), ops))
  {
    var first := Observe(0, "State", Callback.Callback(0), Some("1"));
    var second := ObserveState(0, Callback.Callback(0), Some("2"));
    Then(names, clients, [], first);
    assert [] + [first] == [first];
    Then(names, clients, [first], second);
    ops := [first] + [second];
    SharedMethod(Run(Fresh(clients), ops), "1", "2", MethodName("State", 0));
  }

  /** A name that is another one with a positive number behind it collides with it: in this run the
      longer name gets counter value 0, and ten times that number calls later the shorter one gets
      the same method. */
  lemma NumberedNameCollides(names: iset<string>, clients: nat, a: string, b: string, k: nat)
    returns (ops: seq<Operation>)
    requires clients > 0 && b in names && (a in names || a == "State") && k >= 1 && b == a + Decimal(k)
    ensures RunOver(names, clients, ops) && !Agree(Run(Fresh(clients), ops))
  {
    hide Decimal;
    var callback := Callback.Callback(0);
    var first := Observe(0, b, callback, Some("1"));
    Then(names, clients, [], first);
    assert [] + [first] == [first];
    var thrown := if a in names then Observe(0, a, callback, None) else ObserveState(0, callback, None);
    var n := if a in names then 10 * k - 1 else 10 * k;
    ThrownCalls(names, clients, [first], thrown, n);
    var before := [first] + seq(n, _ => thrown);
    var second := thrown.(reply := Some("2"));
    Then(names, clients, before, second);
    ops := before + [second];
    SameMethodName(a, b, k);
    CountersBehind(clients, first, thrown, n);
    hide MethodName, Step, Moved, Fresh, RunOver, Run;
    TwoGuids(clients, first, thrown, n, second);
  }

  lemma SameMethodName(a: string, b: string, k: nat)
    requires k >= 1 && b == MethodName(a, k)
    ensures MethodName(b, 0) == MethodName(a, 10 * k)
  {
    hide Decimal;
    TenTimes(k);
    assert a + Decimal(k) + "0" == a + (Decimal(k) + "0");
  }

  lemma CountersBehind(clients: nat, first: Operation, thrown: Operation, n: nat)
    requires clients > 0 && first.Observe? && first.client == 0
    ensures var r := Moved(Step(Fresh(clients), first), thrown, n);
            && r.observables == 1 + (if thrown.Observe? then n else 0)
            && r.states == if thrown.Observe? then 0 else n
  {
  }

  /** A subscription, calls that throw, and another subscription that gets the same method name. */
  lemma TwoGuids(clients: nat, first: Operation, thrown: Operation, n: nat, second: Operation)
    requires clients > 0 && first.Observe? && !second.Cancel? && first.client == 0 == second.client
    requires first.reply == Some("1") && second.reply == Some("2")
    requires var r := Moved(Step(Fresh(clients), first), thrown, n);
             MethodName(first.observable, 0) ==
             if second.Observe? then MethodName(second.observable, r.observables) else MethodName("State", r.states)
    ensures !Agree(Step(Moved(Step(Fresh(clients), first), thrown, n), second))
  {
    hide MethodName, Agree;
    var r := Moved(Step(Fresh(clients), first), thrown, n);
    var name := MethodName(first.observable, 0);
    assert r.clients[0] == map["1" := name];
    SharedMethod(Step(r, second), "1", "2", name);
  }

  /** Every run over these names ends in agreement. */
  ghost predicate AlwaysAgrees(names: iset<string>, clients: nat) {
    forall ops :: RunOver(names, clients, ops) ==> Agree(Run(Fresh(clients), ops))
  }

  /** The exact condition on names: every run over them ends in agreement if and only if none is
      "State", and none is another one, or "State", with a positive number behind it. */
  lemma AgreesExactlyWhen(names: iset<string>, clients: nat)
    requires clients > 0
    ensures AlwaysAgrees(names, clients) <==> Compatible(names)
  {
    hide AdmissibleRun, Agree, MethodName, Numbered;
    if Compatible(names) {
      forall ops | RunOver(names, clients, ops)
        ensures Agree(Run(Fresh(clients), ops))
      {
        RunAgrees(names, clients, ops);
      }
    } else if "State" in names {
      var ops := StateNameCollides(names, clients);
    } else {
      var a, b, k: nat :| b in names && (a in names || a == "State") && k >= 1 && b == a + Decimal(k);
      var ops := NumberedNameCollides(names, clients, a, b, k);
    }
  }

  // ----- The objects follow the specification

  ghost function Snapshot(apis: seq<PeakApi>, server: NotificationServer.Server, counters: Counters,
                          given: seq<map<Guid, Callback>>): Registry
    reads apis, server, counters
  {
    Registry(seq(|apis|, i requires 0 <= i < |apis| reads apis => apis[i].subscribers), given,
             server.subscribers, counters.observables, counters.states)
  }

  /** One operation on the objects is one step of the specification. */
  method Perform(apis: seq<PeakApi>, server: NotificationServer.Server, counters: Counters, op: Operation,
                 ghost given: seq<map<Guid, Callback>>)
    returns (ghost given': seq<map<Guid, Callback>>)
    requires |given| == |apis| && op.client < |apis|
    requires forall i :: 0 <= i < |apis| ==> apis[i].server == server && apis[i].counters == counters
    requires forall i, j :: 0 <= i < j < |apis| ==> apis[i] != apis[j]
    modifies apis, server`subscribers, counters
    ensures |given'| == |apis|
    ensures Snapshot(apis, server, counters, given') == Step(old(Snapshot(apis, server, counters, given)), op)
  {
    ghost var before := Snapshot(apis, server, counters, given);
    given' := Step(before, op).given;
    match op {
      case Observe(client, observable, callback, reply) =>
        var guid := apis[client].SubscribeToObservable(observable, callback, reply);
      case ObserveState(client, callback, reply) =>
        var guid := apis[client].SubscribeToState(callback, reply);
      case Cancel(client, guid, throws) =>
        apis[client].Unsubscribe(guid, throws);
    }
    assert Snapshot(apis, server, counters, given').clients == Step(before, op).clients;
  }

  /** A run of the objects from their construction ends in agreement. */
  method PerformAll(clients: nat, ops: seq<Operation>, ghost names: iset<string>)
    returns (apis: seq<PeakApi>, server: NotificationServer.Server,
                                                                ghost end: Registry)
    requires RunOver(names, clients, ops) && Compatible(names)
    ensures |apis| == clients == |end.clients| && end == Run(Fresh(clients), ops) && Agree(end)
    ensures end.table == server.subscribers
    ensures forall i :: 0 <= i < clients ==> end.clients[i] == apis[i].subscribers
  {
    server := new NotificationServer.Server();
    var counters := new Counters();
    apis := [];
    for i := 0 to clients
      invariant |apis| == i && fresh(server) && fresh(counters) && server.subscribers == map[]
      invariant counters.observables == 0 && counters.states == 0
      invariant forall k :: 0 <= k < i ==> fresh(apis[k]) && apis[k].server == server && apis[k].counters == counters
      invariant forall k :: 0 <= k < i ==> apis[k].subscribers == map[]
      invariant forall j, k :: 0 <= j < k < i ==> apis[j] != apis[k]
    {
      var api := new PeakApi(server, counters);
      apis := apis + [api];
    }
    ghost var given: seq<map<Guid, Callback>> := seq(clients, _ => map[]);
    assert Snapshot(apis, server, counters, given).clients == Fresh(clients).clients;
    for k := 0 to |ops|
      invariant |given| == |apis|
      invariant Snapshot(apis, server, counters, given) == Run(Fresh(clients), ops[..k])
    {
      given := Perform(apis, server, counters, ops[k], given);
      assert ops[..k + 1][..k] == ops[..k];
    }
    assert ops[..|ops|] == ops;
    end := Snapshot(apis, server, counters, given);
    RunAgrees(names, clients, ops);
  }
}
