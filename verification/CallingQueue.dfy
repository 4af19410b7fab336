// Calls that wait for their doorbell, and what each delivery pass does with them.
module CallingQueue {
  import opened Bytes

  datatype Role = Bridge | Chime | Doorbell | Unknown

  datatype Client = Client(role: Role, lastSeen: real, tcp: bool, ourPort: nat)

  // id numbers the queued calls in the order in which they were queued.
  datatype Call = Call(id: nat, data: seq<byte>, caller: int, timestamp: real, timeout: real)

  datatype Route = NoClient | Connected | Unreachable

  datatype Fate = Delivered | Expired | Kept | Dropped

  // One run of deliver_pending_callings: its clock reading, the way to the doorbell and, for
  // each queued call, whether a send would succeed.
  datatype Pass = Pass(now: real, route: Route, sends: seq<bool>)

  const FRESH: real := 30.0
  const CHIME_FRESH: real := 120.0
  const CALL_TIMEOUT: real := 90.0

  predicate Late(call: Call, now: real) {
    now - call.timestamp > call.timeout
  }

  function FateOf(call: Call, now: real, route: Route, sendWorks: bool): Fate {
    if Late(call, now) then Expired
    else match route
      case NoClient => Kept
      case Unreachable => Dropped
      case Connected => if sendWorks then Delivered else Kept
  }

  function FateAt(q: seq<Call>, pass: Pass, i: nat): Fate
    requires i < |q| <= |pass.sends|
  {
    FateOf(q[i], pass.now, pass.route, pass.sends[i])
  }

  // The calls among the first n with fate f.
  function Pick(q: seq<Call>, pass: Pass, n: nat, f: Fate): seq<Call>
    requires n <= |q| <= |pass.sends|
  {
    if n == 0 then [] else Pick(q, pass, n - 1, f) + (if FateAt(q, pass, n - 1) == f then [q[n - 1]] else [])
  }

  // ---------------------------------------------------------------- one pass

  lemma {:induction false} PickNext(q: seq<Call>, pass: Pass, n: nat, f: Fate)
    requires 0 < n <= |q| <= |pass.sends|
    ensures multiset(Pick(q, pass, n, f))
            == multiset(Pick(q, pass, n - 1, f))
               + (if FateAt(q, pass, n - 1) == f then multiset{q[n - 1]} else multiset{})
  {
    hide FateAt;
  }

  lemma NothingPicked(q: seq<Call>, pass: Pass)
    requires |q| <= |pass.sends|
    ensures forall f :: Pick(q, pass, 0, f) == []
  {
  }

  // Every call gets exactly one of the four fates.
  lemma {:induction false} PassSorts(q: seq<Call>, pass: Pass, n: nat)
    requires n <= |q| <= |pass.sends|
    ensures multiset(q[..n]) == multiset(Pick(q, pass, n, Delivered)) + multiset(Pick(q, pass, n, Expired))
                                + multiset(Pick(q, pass, n, Kept)) + multiset(Pick(q, pass, n, Dropped))
  {
    hide Pick, FateAt, FateOf;
    if n > 0 {
      PassSorts(q, pass, n - 1);
      assert q[..n] == q[..n - 1] + [q[n - 1]];
      PickNext(q, pass, n, Delivered);
      PickNext(q, pass, n, Expired);
      PickNext(q, pass, n, Kept);
      PickNext(q, pass, n, Dropped);
    } else {
      NothingPicked(q, pass);
    }
  }

  // The calls of one fate stay in their old order, and none of them is missing.
  lemma {:induction false} PickKeepsOrder(q: seq<Call>, pass: Pass, n: nat, f: Fate) returns (at: seq<nat>)
    requires n <= |q| <= |pass.sends|
    ensures |at| == |Pick(q, pass, n, f)|
    ensures forall k :: 0 <= k < |at| ==> at[k] < n && Pick(q, pass, n, f)[k] == q[at[k]] && FateAt(q, pass, at[k]) == f
    ensures forall j, k :: 0 <= j < k < |at| ==> at[j] < at[k]
    ensures forall i :: 0 <= i < n && FateAt(q, pass, i) == f ==> i in at
  {
    hide FateAt;
    if n == 0 {
      at := [];
    } else {
      var before := PickKeepsOrder(q, pass, n - 1, f);
      at := before + (if FateAt(q, pass, n - 1) == f then [n - 1] else []);
      assert forall i :: i in before ==> i in at;
      assert FateAt(q, pass, n - 1) == f ==> at[|before|] == n - 1;
    }
  }

  // Which call gets which fate.  A call is expired exactly when it is late, and dropped exactly
  // when it is not late and its doorbell is known but cannot be reached; for sends, which may go
  // either way for equal calls, the queued calls have to be told apart.
  lemma {:induction false} FateOfCall(q: seq<Call>, pass: Pass, i: nat)
    requires i < |q| <= |pass.sends|
    ensures pass.now - q[i].timestamp > q[i].timeout <==> q[i] in Pick(q, pass, |q|, Expired)
    ensures !Late(q[i], pass.now) && pass.route == Unreachable <==> q[i] in Pick(q, pass, |q|, Dropped)
    ensures Ordered(q) ==>
              (!Late(q[i], pass.now) && pass.route == Connected && pass.sends[i]
               <==> q[i] in Pick(q, pass, |q|, Delivered))
    ensures Ordered(q) ==>
              (!Late(q[i], pass.now) && (pass.route == NoClient || (pass.route == Connected && !pass.sends[i]))
               <==> q[i] in Pick(q, pass, |q|, Kept))
  {
    hide Pick;
    PickHas(q, pass, |q|, i);
    OnlyWithFate(q, pass, i, Expired);
    OnlyWithFate(q, pass, i, Dropped);
    OnlyWithFate(q, pass, i, Delivered);
    OnlyWithFate(q, pass, i, Kept);
  }

  // A call of fate f equals a queued call of that fate.
  lemma {:induction false} OnlyWithFate(q: seq<Call>, pass: Pass, i: nat, f: Fate)
    requires i < |q| <= |pass.sends|
    ensures q[i] in Pick(q, pass, |q|, f) ==>
              exists j :: 0 <= j < |q| && q[j] == q[i] && FateAt(q, pass, j) == f && (Ordered(q) ==> j == i)
  {
    hide Pick, FateAt;
    var at := PickKeepsOrder(q, pass, |q|, f);
    if q[i] in Pick(q, pass, |q|, f) {
      var k :| 0 <= k < |at| && Pick(q, pass, |q|, f)[k] == q[i];
      assert q[at[k]] == q[i] && FateAt(q, pass, at[k]) == f;
    }
  }

  // A call that is lost: its doorbell has just been certified, but the relay has no socket on
  // the port that it came in on.
  lemma {:induction false} DroppedCall(data: seq<byte>)
    ensures
      var called := Step(EMPTY, Queued(data, 1, 0.0));
      var passed := Step(called, Passed(Pass(1.0, Unreachable, [true])));
      && called.queue == [Call(0, data, 1, 0.0, CALL_TIMEOUT)]
      && passed.dropped == called.queue && passed.queue == [] && passed.delivered == [] && passed.expired == []
  {
    var called := Step(EMPTY, Queued(data, 1, 0.0));
    var pass := Pass(1.0, Unreachable, [true]);
    assert called.queue == [Call(0, data, 1, 0.0, CALL_TIMEOUT)];
    assert FateAt(called.queue, pass, 0) == Dropped;
    hide FateAt;
    PickOne(called.queue, pass);
  }

  lemma {:induction false} PickOne(q: seq<Call>, pass: Pass)
    requires |q| == 1 <= |pass.sends|
    ensures forall f :: Pick(q, pass, 1, f) == if FateAt(q, pass, 0) == f then q else []
  {
    hide FateAt;
    NothingPicked(q, pass);
    assert [] + q == q && [q[0]] == q;
  }

  lemma {:induction false} OnlyFailedSendsStay(q: seq<Call>, pass: Pass)
    requires |q| <= |pass.sends| && pass.route != NoClient
    ensures Pick(q, pass, |q|, Kept) != [] ==> pass.route == Connected
  {
    hide Pick;
    var at := PickKeepsOrder(q, pass, |q|, Kept);
    assert |at| > 0 ==> FateAt(q, pass, at[0]) == Kept;
  }

  lemma {:induction false} PickHas(q: seq<Call>, pass: Pass, n: nat, i: nat)
    requires i < n <= |q| <= |pass.sends|
    ensures q[i] in Pick(q, pass, n, FateAt(q, pass, i))
  {
    hide FateAt;
    if i < n - 1 {
      PickHas(q, pass, n - 1, i);
    } else {
      assert Pick(q, pass, n, FateAt(q, pass, i))[|Pick(q, pass, n - 1, FateAt(q, pass, i))|] == q[i];
    }
  }

  // ---------------------------------------------------------------- the ledger over a run

  datatype Ledger = Ledger(
    queue: seq<Call>,
    delivered: seq<Call>,
    at: seq<real>,          // when each delivered call went out
    expired: seq<Call>,
    dropped: seq<Call>,
    history: seq<Call>)     // every call ever queued

  const EMPTY: Ledger := Ledger([], [], [], [], [], [])

  datatype Event = Queued(data: seq<byte>, caller: int, now: real) | Passed(pass: Pass)

  predicate Enabled(s: Ledger, e: Event) {
    e.Passed? ==> |s.queue| <= |e.pass.sends|
  }

  function Repeat(x: real, n: nat): (r: seq<real>)
    ensures |r| == n && forall i :: 0 <= i < n ==> r[i] == x
  {
    if n == 0 then [] else [x] + Repeat(x, n - 1)
  }

  function Step(s: Ledger, e: Event): Ledger
    requires Enabled(s, e)
  {
    match e
    case Queued(data, caller, now) =>
      var call := Call(|s.history|, data, caller, now, CALL_TIMEOUT);
      s.(queue := s.queue + [call], history := s.history + [call])
    case Passed(pass) =>
      var n := |s.queue|;
      s.(queue := Pick(s.queue, pass, n, Kept),
         delivered := s.delivered + Pick(s.queue, pass, n, Delivered),
         at := s.at + Repeat(pass.now, |Pick(s.queue, pass, n, Delivered)|),
         expired := s.expired + Pick(s.queue, pass, n, Expired),
         dropped := s.dropped + Pick(s.queue, pass, n, Dropped))
  }

  ghost predicate Numbered(s: Ledger) {
    forall i :: 0 <= i < |s.history| ==> s.history[i].id == i && s.history[i].timeout == 90.0
  }

  ghost predicate Ordered(q: seq<Call>) {
    forall i, j :: 0 <= i < j < |q| ==> q[i].id < q[j].id
  }

  ghost predicate InTime(s: Ledger) {
    |s.at| == |s.delivered| && forall i :: 0 <= i < |s.at| ==> !Late(s.delivered[i], s.at[i])
  }

  ghost predicate Balanced(s: Ledger) {
    multiset(s.queue) + multiset(s.delivered) + multiset(s.expired) + multiset(s.dropped) == multiset(s.history)
  }

  ghost predicate Inv(s: Ledger) {
    Numbered(s) && Ordered(s.queue) && InTime(s) && Balanced(s)
  }

  lemma {:induction false} QueuedKeeps(s: Ledger, data: seq<byte>, caller: int, now: real)
    requires Inv(s)
    ensures Inv(Step(s, Queued(data, caller, now)))
  {
    var t := Step(s, Queued(data, caller, now));
    forall i | 0 <= i < |s.queue| ensures s.queue[i].id < |s.history| {
      assert s.queue[i] in multiset(s.queue);
      assert s.queue[i] in multiset(s.history);
      assert s.queue[i] in s.history;
    }
    assert Ordered(t.queue);
  }

  lemma {:induction false} PassedKeeps(s: Ledger, pass: Pass)
    requires Inv(s) && |s.queue| <= |pass.sends|
    ensures Inv(Step(s, Passed(pass)))
  {
    hide Pick, FateAt, FateOf, Late;
    var n, t := |s.queue|, Step(s, Passed(pass));
    assert s.queue[..n] == s.queue;
    PassSorts(s.queue, pass, n);
    var kept := PickKeepsOrder(s.queue, pass, n, Kept);
    assert Ordered(t.queue);
    DeliveredInTime(s.queue, pass);
    forall i | 0 <= i < |t.at| ensures !Late(t.delivered[i], t.at[i]) {
      if i >= |s.at| { assert t.delivered[i] == Pick(s.queue, pass, n, Delivered)[i - |s.at|]; }
    }
  }

  lemma {:induction false} DeliveredInTime(q: seq<Call>, pass: Pass)
    requires |q| <= |pass.sends|
    ensures forall k :: 0 <= k < |Pick(q, pass, |q|, Delivered)| ==> !Late(Pick(q, pass, |q|, Delivered)[k], pass.now)
  {
    hide Pick;
    var at := PickKeepsOrder(q, pass, |q|, Delivered);
    forall k | 0 <= k < |at| ensures !Late(Pick(q, pass, |q|, Delivered)[k], pass.now) {
      assert FateAt(q, pass, at[k]) == Delivered;
    }
  }

  predicate Possible(s: Ledger, events: seq<Event>)
    decreases |events|
  {
    events == [] || (Enabled(s, events[0]) && Possible(Step(s, events[0]), events[1..]))
  }

  function Run(s: Ledger, events: seq<Event>): Ledger
    requires Possible(s, events)
    decreases |events|
  {
    if events == [] then s else Run(Step(s, events[0]), events[1..])
  }

  lemma {:induction false} RunKeeps(s: Ledger, events: seq<Event>)
    requires Inv(s) && Possible(s, events)
    ensures Inv(Run(s, events))
    decreases |events|
  {
    hide Inv, Pick;
    if events != [] {
      match events[0] {
        case Queued(data, caller, now) => QueuedKeeps(s, data, caller, now);
        case Passed(pass) => PassedKeeps(s, pass);
      }
      RunKeeps(Step(s, events[0]), events[1..]);
    }
  }

  // Over any run, whatever the clock and the sends do: no call is delivered twice, or after its
  // timeout, or although it expired, was dropped or still waits; and none is lost from the books.
  lemma {:induction false} LedgerIsSafe(events: seq<Event>)
    requires Possible(EMPTY, events)
    ensures
      var s := Run(EMPTY, events);
      && (forall i, j :: 0 <= i < j < |s.delivered| ==> s.delivered[i] != s.delivered[j])
      && (forall c :: c in s.delivered ==> c !in s.queue && c !in s.expired && c !in s.dropped)
      && |s.at| == |s.delivered|
      && (forall i :: 0 <= i < |s.at| ==> s.at[i] - s.delivered[i].timestamp <= 90.0)
      && |s.queue| + |s.delivered| + |s.expired| + |s.dropped| == |s.history|
      && Ordered(s.queue)
  {
    assert Inv(EMPTY);
    RunKeeps(EMPTY, events);
    var s := Run(EMPTY, events);
    hide Run, Possible;
    forall c ensures multiset(s.history)[c] <= 1 { CountedOnce(s.history, c, 0); }
    forall i, j | 0 <= i < j < |s.delivered| ensures s.delivered[i] != s.delivered[j] {
      OnceOnly(s.delivered, i, j);
      assert multiset(s.history)[s.delivered[i]] <= 1;
    }
    forall i | 0 <= i < |s.at| ensures s.at[i] - s.delivered[i].timestamp <= 90.0 {
      assert s.delivered[i] in multiset(s.delivered);
      assert s.delivered[i] in multiset(s.history);
      assert s.delivered[i] in s.history;
    }
    forall c | c in s.delivered ensures c !in s.queue && c !in s.expired && c !in s.dropped {
      assert multiset(s.history)[c] <= 1;
      assert c in multiset(s.delivered);
    }
    assert |multiset(s.history)| == |s.history|;
  }

  lemma {:induction false} CountedOnce(h: seq<Call>, c: Call, base: nat)
    requires forall i :: 0 <= i < |h| ==> h[i].id == base + i
    ensures multiset(h)[c] <= 1
    ensures c.id < base ==> c !in h
  {
    if h != [] {
      CountedOnce(h[1..], c, base + 1);
      assert h == [h[0]] + h[1..];
    }
  }

  lemma {:induction false} OnceOnly(q: seq<Call>, i: nat, j: nat)
    requires i < j < |q|
    ensures q[i] == q[j] ==> multiset(q)[q[i]] >= 2
  {
    assert q == q[..j] + q[j..];
    assert q[j..] == [q[j]] + q[j + 1..];
    assert q[..j][i] in q[..j];
  }

  // ---------------------------------------------------------------- the relay's own fields

  // Whom a call is for: the destination in its payload if there was one, else the other end of
  // the bridge/doorbell pair (0 where it is not known).
  function TargetOf(dest: int, sender: int, bridge: int, doorbell: int): int {
    if dest != 0 then dest else if sender == bridge then doorbell else if sender == doorbell then bridge else 0
  }

  // Either end of the pair calls the other; anybody may name a destination, and nobody else reaches one.
  lemma {:induction false} TargetCases(sender: int, bridge: int, doorbell: int)
    ensures forall dest :: dest != 0 ==> TargetOf(dest, sender, bridge, doorbell) == dest
    ensures TargetOf(0, bridge, bridge, doorbell) == doorbell
    ensures TargetOf(0, doorbell, bridge, doorbell) == bridge
    ensures sender != bridge && sender != doorbell ==> TargetOf(0, sender, bridge, doorbell) == 0
  {
  }

  class Calls {
    var pending: seq<Call>
    var count: nat      // calls queued so far: tells the queued objects apart
    var clients: map<int, Client>
    var bridge: int
    var doorbell: int
    var chime: int
    ghost var ledger: Ledger

    ghost predicate Valid()
      reads this
    {
      Inv(ledger) && ledger.queue == pending && |ledger.history| == count
    }

    constructor ()
      ensures Valid() && ledger == EMPTY && clients == map[] && bridge == doorbell == chime == 0
    {
      pending, count, clients, bridge, doorbell, chime := [], 0, map[], 0, 0, 0;
      ledger := EMPTY;
    }

    predicate Online(term: int, now: real, limit: real)
      reads this
    {
      term in clients && now - clients[term].lastSeen < limit
    }

    // The queueing branches of handle_calling; routed lists the clients the call is sent to at
    // once, and the wake-up of the chime is due exactly when the call is queued.
    method HandleCalling(data: seq<byte>, sender: int, dest: int, now: real) returns (routed: seq<int>, queued: bool)
      requires Valid()
      modifies `pending, `count, `ledger
      ensures Valid()
      ensures
        var target := TargetOf(dest, sender, bridge, doorbell);
        && queued == !(target != 0 && target in clients && now - clients[target].lastSeen < 30.0)
        && routed == (if !queued then [target]
                      else if chime != 0 && chime in clients && now - clients[chime].lastSeen < 120.0 then [chime]
                      else [])
      ensures queued ==> pending == old(pending) + [Call(old(count), data, sender, now, 90.0)]
      ensures ledger == if queued then Step(old(ledger), Queued(data, sender, now)) else old(ledger)
    {
      var target := TargetOf(dest, sender, bridge, doorbell);
      if target != 0 && Online(target, now, FRESH) {
        return [target], false;
      }
      routed := if chime != 0 && Online(chime, now, CHIME_FRESH) then [chime] else [];
      queued := true;
      QueuedKeeps(ledger, data, sender, now);
      pending := pending + [Call(count, data, sender, now, CALL_TIMEOUT)];
      count := count + 1;
      ledger := Step(ledger, Queued(data, sender, now));
    }

    function RouteTo(term: int, socks: set<nat>): (r: Route)
      reads this
      ensures r == NoClient <==> term !in clients
      ensures r == Unreachable <==> term in clients && !clients[term].tcp && clients[term].ourPort !in socks
    {
      if term !in clients then NoClient
      else if clients[term].tcp || clients[term].ourPort in socks then Connected else Unreachable
    }

    // The body of the delivery loop for one call.
    method Attempt(call: Call, term: int, now: real, socks: set<nat>, sendWorks: bool) returns (fate: Fate)
      ensures fate == FateOf(call, now, RouteTo(term, socks), sendWorks)
    {
      if now - call.timestamp > call.timeout { return Expired; }
      if term !in clients { return Kept; }
      var client := clients[term];
      if client.tcp || client.ourPort in socks {
        return if sendWorks then Delivered else Kept;
      }
      return Dropped;
    }

    // deliver_pending_callings; sends[i] tells whether sending the i-th call would succeed.
    method DeliverPending(term: int, now: real, socks: set<nat>, sends: seq<bool>)
      returns (sent: seq<seq<byte>>, expired: nat)
      requires Valid() && |sends| == |pending|
      modifies `pending, `ledger
      ensures Valid() && ledger == Step(old(ledger), Passed(Pass(now, RouteTo(term, socks), sends)))
      ensures |sent| == |ledger.delivered| - |old(ledger).delivered|
      ensures forall i :: 0 <= i < |sent| ==> sent[i] == ledger.delivered[|old(ledger).delivered| + i].data
      ensures expired == |ledger.expired| - |old(ledger).expired|
    {
      hide FateOf, Inv;
      ghost var pass := Pass(now, RouteTo(term, socks), sends);
      ghost var out: seq<Call> := [];
      var remaining: seq<Call> := [];
      sent, expired := [], 0;
      var i := 0;
      while i < |pending|
        modifies {}
        invariant i <= |pending| && pending == old(pending)
        invariant remaining == Pick(pending, pass, i, Kept)
        invariant out == Pick(pending, pass, i, Delivered)
        invariant expired == |Pick(pending, pass, i, Expired)|
        invariant |sent| == |out| && forall k :: 0 <= k < |sent| ==> sent[k] == out[k].data
      {
        var fate := Attempt(pending[i], term, now, socks, sends[i]);
        assert fate == FateAt(pending, pass, i);
        match fate {
          case Expired => expired := expired + 1;
          case Delivered => sent, out := sent + [pending[i].data], out + [pending[i]];
          case Kept => remaining := remaining + [pending[i]];
          case Dropped =>
        }
        i := i + 1;
      }
      PassedKeeps(ledger, pass);
      pending := remaining;
      ledger := Step(ledger, Passed(pass));
    }

    // on_client_certified, for a client whose address gave it this role.
    method OnClientCertified(term: int, role: Role, now: real, socks: set<nat>, sends: seq<bool>)
      returns (sent: seq<seq<byte>>)
      requires Valid() && |sends| == |pending|
      modifies this
      ensures Valid()
      ensures term !in clients ==> ledger == old(ledger) && sent == []
      ensures clients == if term in old(clients) then old(clients)[term := old(clients)[term].(role := role)]
                         else old(clients)
      ensures bridge == if term in clients && role == Bridge then term else old(bridge)
      ensures doorbell == if term in clients && role == Doorbell then term else old(doorbell)
      ensures chime == if term in clients && role == Chime then term else old(chime)
      ensures term in clients && role != Doorbell ==> ledger == old(ledger) && sent == []
      // A certified doorbell is a known client, so a call stays queued only where its send failed.
      ensures term in clients && role == Doorbell && pending != [] ==> RouteTo(term, socks) == Connected
      ensures
        term in clients && role == Doorbell && old(pending) != [] ==>
          ledger == Step(old(ledger), Passed(Pass(now, RouteTo(term, socks), sends)))
    {
      hide Inv, Pick, Enabled;
      sent := [];
      if term !in clients { return; }
      clients := clients[term := clients[term].(role := role)];
      match role
      case Chime => chime := term;
      case Doorbell =>
        doorbell := term;
        if pending != [] {
          ghost var q := pending;
          ghost var pass := Pass(now, RouteTo(term, socks), sends);
          var expired;
          sent, expired := DeliverPending(term, now, socks, sends);
          OnlyFailedSendsStay(q, pass);
        }
      case Bridge => bridge := term;
      case Unknown =>
    }
  }
}
