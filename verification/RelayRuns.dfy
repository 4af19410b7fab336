// The packet handler and the keepalive loop as a step machine: per-address sequence prediction
// and the count of unanswered keepalives.
module RelayRuns {
  import opened Bytes
  import opened FrameCrypto
  import opened Layout
  import opened SessionFrames
  import opened RelayFrames
  import CallingQueue

  type Role = CallingQueue.Role

  datatype Client = Client(addr: Addr, role: Role)

  datatype View = View(
    last: map<Addr, nat>,           // addr_last_sqnum
    misses: nat,                    // keepalive_misses
    clients: map<int, Client>,
    doorbell: int,                  // doorbell_term_id
    doorbellAddr: Option<Addr>,     // None for ('', 0)
    keepalives: bool,               // keepalive_enabled
    doorbellIp: string)             // DOORBELL_IP
  {
    function Last(a: Addr): nat { if a in last then last[a] else 0 }
  }

  const MAX_MISSES: nat := 3

  // Await-free stretches.  InitInfo: an INIT_INFO answered here, from its own sequence number
  // or, without a session key, from a predicted one.  Other: any packet that only registers.
  datatype Event =
    | Certify(addr: Addr, term: int, sqnum: nat)
    | InitInfo(addr: Addr, term: int, own: Option<nat>)
    | Control(addr: Addr, term: int)
    | Keepalive(addr: Addr, term: int, isAck: bool)
    | Certified(term: int, role: Role)
    | Tick(hasSocket: bool)
    | Other(addr: Addr, term: int)

  function Register(s: View, a: Addr, term: int): View {
    if term == 0 then s
    else
      var role := if term in s.clients then s.clients[term].role else CallingQueue.Unknown;
      s.(clients := s.clients[term := Client(a, role)])
  }

  // A turn of the keepalive loop tries to send.
  predicate Tries(s: View, e: Event) {
    e.Tick? && s.keepalives && s.doorbellAddr.Some? && e.hasSocket
  }

  // The doorbell showed that it is alive, or has just been certified.
  predicate Resets(s: View, e: Event) {
    match e
    case Keepalive(a, term, true) =>
      term != 0 && ((term in s.clients && s.clients[term].role == CallingQueue.Doorbell) || a.ip == s.doorbellIp)
    case Keepalive(a, _, false) => a.ip == s.doorbellIp
    case Certified(term, role) => term in s.clients && role == CallingQueue.Doorbell
    case _ => false
  }

  function Step(s: View, e: Event): View {
    var t := if Resets(s, e) then s.(misses := 0) else s;
    match e
    case Certify(a, term, sqnum) => Register(t, a, term).(last := s.last[a := sqnum])
    case InitInfo(a, term, own) =>
      Register(t, a, term).(last := s.last[a := own.GetOr((s.Last(a) + 1) % 0x1_0000_0000)])
    case Control(a, term) => Register(t, a, term).(last := s.last[a := s.Last(a) + 2])
    case Keepalive(a, term, isAck) =>
      var u := Register(t, a, term);
      if !isAck && a.ip == s.doorbellIp && s.doorbell == 0 && term != 0 then u.(doorbell := term) else u
    case Certified(term, role) =>
      if term !in s.clients then t
      else
        var u := t.(clients := s.clients[term := s.clients[term].(role := role)]);
        if role == CallingQueue.Doorbell then u.(doorbell := term, doorbellAddr := Some(s.clients[term].addr)) else u
    case Tick(_) =>
      if !Tries(s, e) then t
      else if s.misses + 1 >= MAX_MISSES then t.(misses := MAX_MISSES) else t.(misses := s.misses + 1)
    case Other(a, term) => Register(t, a, term)
  }

  function Run(s: View, events: seq<Event>): View
    decreases |events|
  {
    if events == [] then s else Run(Step(s, events[0]), events[1..])
  }

  lemma {:induction false} RunInParts(s: View, before: seq<Event>, after: seq<Event>)
    ensures Run(s, before + after) == Run(Run(s, before), after)
    decreases |before|
  {
    hide Step;
    if before == [] {
      assert before + after == after;
    } else {
      assert (before + after)[1..] == before[1..] + after;
      RunInParts(Step(s, before[0]), before[1..], after);
    }
  }

  // ---------------------------------------------------------------- keepalive misses

  // Send attempts during a run.
  function Attempts(s: View, events: seq<Event>): nat
    decreases |events|
  {
    if events == [] then 0
    else (if Tries(s, events[0]) then 1 else 0) + Attempts(Step(s, events[0]), events[1..])
  }

  predicate Undisturbed(s: View, events: seq<Event>)
    decreases |events|
  {
    events == [] || (!Resets(s, events[0]) && Undisturbed(Step(s, events[0]), events[1..]))
  }

  function Capped(n: nat): nat { if n < MAX_MISSES then n else MAX_MISSES }

  lemma {:induction false} StepMisses(s: View, e: Event)
    ensures Step(s, e).misses
            == if Resets(s, e) then 0 else if Tries(s, e) then Capped(s.misses + 1) else s.misses
  {
  }

  lemma {:induction false} MissesGrow(s: View, events: seq<Event>)
    requires s.misses <= MAX_MISSES && Undisturbed(s, events)
    ensures Run(s, events).misses == Capped(s.misses + Attempts(s, events))
    decreases |events|
  {
    hide Step, Resets, Tries;
    if events != [] {
      StepMisses(s, events[0]);
      MissesGrow(Step(s, events[0]), events[1..]);
    }
  }

  // After any run that ends with a sign of life and then some events without one, the count is
  // the number of keepalives tried since that sign, up to 3; the doorbell counts as dormant
  // exactly when there were at least 3.
  lemma {:induction false} MissesSinceReset(s: View, before: seq<Event>, sign: Event, after: seq<Event>)
    requires Resets(Run(s, before), sign) && Undisturbed(Step(Run(s, before), sign), after)
    ensures
      var end := Run(s, before + [sign] + after);
      var tried := Attempts(Step(Run(s, before), sign), after);
      && end.misses == (if tried < 3 then tried else 3)
      && (end.misses >= MAX_MISSES <==> tried >= 3)
  {
    hide Step, Resets, Attempts, Undisturbed;
    RunInParts(s, before + [sign], after);
    RunInParts(s, before, [sign]);
    OneStep(Run(s, before), sign);
    StepMisses(Run(s, before), sign);
    MissesGrow(Step(Run(s, before), sign), after);
  }

  // Where a run splits into what came up to the last sign of life, if any, and what came after.
  ghost predicate LastSign(s: View, events: seq<Event>, k: nat)
    requires k <= |events|
  {
    && (k > 0 ==> Resets(Run(s, events[..k - 1]), events[k - 1]))
    && Undisturbed(Run(s, events[..k]), events[k..])
  }

  lemma {:induction false} FindLastSign(s: View, events: seq<Event>) returns (k: nat)
    ensures k <= |events| && LastSign(s, events, k)
    decreases |events|
  {
    hide Step, Resets;
    if events == [] {
      k := 0;
    } else {
      var t := Step(s, events[0]);
      var j := FindLastSign(t, events[1..]);
      assert events[..j + 1][1..] == events[1..][..j] && events[j + 1..] == events[1..][j..];
      if j > 0 {
        assert events[..j][1..] == events[1..][..j - 1];
        k := j + 1;
      } else {
        assert events[1..][..0] == [] && events[..0] == [] && events[0..] == events && events[1..][0..] == events[1..];
        assert Run(s, []) == s && Run(t, []) == t;
        k := if Resets(s, events[0]) then 1 else 0;
      }
    }
  }

  // After every run of a fresh relay the count is the number of keepalives tried since the last
  // sign of life, or since the start if there was none, up to 3.
  lemma {:induction false} MissesAfterEveryRun(s: View, events: seq<Event>)
    requires s.misses == 0
    ensures
      exists k :: 0 <= k <= |events| && LastSign(s, events, k)
        && var tried := Attempts(Run(s, events[..k]), events[k..]);
           Run(s, events).misses == if tried < 3 then tried else 3
  {
    hide Step, Resets, Attempts, Undisturbed;
    var k := FindLastSign(s, events);
    if k == 0 {
      assert events[..0] == [] && events[0..] == events;
      MissesGrow(s, events);
    } else {
      var before, sign, after := events[..k - 1], events[k - 1], events[k..];
      assert events[..k] == before + [sign] && events == before + [sign] + after;
      RunInParts(s, before, [sign]);
      OneStep(Run(s, before), sign);
      MissesSinceReset(s, before, sign, after);
    }
  }

  lemma {:induction false} OneStep(s: View, e: Event)
    ensures Run(s, [e]) == Step(s, e)
  {
    hide Step;
    assert [e][1..] == [];
    assert Run(Step(s, e), []) == Step(s, e);
  }

  // ---------------------------------------------------------------- sequence prediction

  // The chkvals answered to the SUBSCRIBE and SESSION_CTL requests of one address.
  function Answers(s: View, events: seq<Event>, a: Addr): seq<nat>
    decreases |events|
  {
    if events == [] then []
    else
      (if events[0].Control? && events[0].addr == a then [(s.Last(a) + 2) % 0x1_0000_0000] else [])
      + Answers(Step(s, events[0]), events[1..], a)
  }

  // No CERTIFY and no INIT_INFO of this address.
  predicate NoNewBase(events: seq<Event>, a: Addr) {
    forall e :: e in events ==> !((e.Certify? || e.InitInfo?) && e.addr == a)
  }

  lemma {:induction false} StepLast(s: View, e: Event, a: Addr)
    requires !((e.Certify? || e.InitInfo?) && e.addr == a)
    ensures Step(s, e).Last(a) == s.Last(a) + if e.Control? && e.addr == a then 2 else 0
  {
  }

  lemma {:induction false} OneAnswer(s: View, a: Addr, term: int)
    ensures Answers(s, [Control(a, term)], a) == [(s.Last(a) + 2) % 0x1_0000_0000]
  {
    hide Step;
    var e := Control(a, term);
    assert [e][1..] == [];
    assert Answers(Step(s, e), [], a) == [];
  }

  // The k-th request after a base s (counting from 0) is answered with s + 2(k + 1) mod 2^32,
  // although the stored counter never wraps; other addresses do not matter.
  lemma {:induction false} AnswersCountInTwos(s: View, events: seq<Event>, a: Addr)
    requires NoNewBase(events, a)
    ensures forall k :: 0 <= k < |Answers(s, events, a)| ==>
              Answers(s, events, a)[k] == (s.Last(a) + 2 * (k + 1)) % 0x1_0000_0000
    ensures Run(s, events).Last(a) == s.Last(a) + 2 * |Answers(s, events, a)|
    decreases |events|
  {
    hide Step;
    if events != [] {
      var e, t := events[0], Step(s, events[0]);
      StepLast(s, e, a);
      AnswersCountInTwos(t, events[1..], a);
      var all, rest := Answers(s, events, a), Answers(t, events[1..], a);
      forall k | 0 <= k < |all| ensures all[k] == (s.Last(a) + 2 * (k + 1)) % 0x1_0000_0000 {
        if e.Control? && e.addr == a {
          if k > 0 { assert all[k] == rest[k - 1]; }
        } else {
          assert all[k] == rest[k];
        }
      }
    }
  }

  lemma {:induction false} AnswersAfterCertify(s: View, before: seq<Event>, a: Addr, term: int, base: nat,
                           after: seq<Event>)
    requires NoNewBase(after, a)
    ensures
      var t := Run(s, before + [Certify(a, term, base)]);
      && (forall k :: 0 <= k < |Answers(t, after, a)| ==>
            Answers(t, after, a)[k] == (base + 2 * (k + 1)) % 0x1_0000_0000)
      && Run(t, after).Last(a) == base + 2 * |Answers(t, after, a)|
  {
    var e := Certify(a, term, base);
    RunInParts(s, before, [e]);
    OneStep(Run(s, before), e);
    assert Step(Run(s, before), e).Last(a) == base;
    hide Step, Run, Answers, NoNewBase;
    AnswersCountInTwos(Run(s, before + [e]), after, a);
  }

  // ---------------------------------------------------------------- the relay's own fields

  class Relay {
    var lastSqnum: map<Addr, nat>
    var misses: nat
    var clients: map<int, Client>
    var doorbell: int
    var doorbellAddr: Option<Addr>
    const keepalives: bool
    const doorbellIp: string
    const counters: Counters

    constructor (keepalives: bool, doorbellIp: string, counters: Counters)
      ensures Now() == View(map[], 0, map[], 0, None, keepalives, doorbellIp)
      ensures this.counters == counters
    {
      lastSqnum, misses, clients, doorbell, doorbellAddr := map[], 0, map[], 0, None;
      this.keepalives, this.doorbellIp, this.counters := keepalives, doorbellIp, counters;
    }

    function Now(): View
      reads this
    {
      View(lastSqnum, misses, clients, doorbell, doorbellAddr, keepalives, doorbellIp)
    }

    // Every packet with a term id registers or updates its client.
    method RegisterClient(addr: Addr, term: int)
      modifies `clients
      ensures Now() == Register(old(Now()), addr, term)
      ensures term != 0 ==> term in clients && clients[term].addr == addr
      ensures term != 0 && term in old(clients) ==> clients[term].role == old(clients)[term].role
      ensures forall t :: t != term || term == 0 ==>
                (t in clients <==> t in old(clients)) && (t in clients ==> clients[t] == old(clients)[t])
    {
      if term != 0 {
        if term !in clients {
          clients := clients[term := Client(addr, CallingQueue.Unknown)];
        }
        clients := clients[term := clients[term].(addr := addr)];
      }
    }

    // SUBSCRIBE (0xA0) and SESSION_CTL (0xB0) requests; id is the stored session id or the
    // relay's own id.
    method HandleControl(addr: Addr, term: int, respType: byte, id: block8) returns (resp: seq<byte>)
      modifies this, counters
      ensures Now() == Step(old(Now()), Control(addr, term))
      ensures |resp| == 0x36 && resp[0..2] == [0x7E, respType] && resp[4..0x0C] == id
      ensures Answers(old(Now()), [Control(addr, term)], addr) == [U32(resp, 0x10)]
      ensures U32(resp, 0x10) == ((if addr in old(lastSqnum) then old(lastSqnum)[addr] else 0) + 2) % 0x1_0000_0000
    {
      hide Render, U32, Answers;
      OneAnswer(Now(), addr, term);
      RegisterClient(addr, term);
      var base := if addr in lastSqnum then lastSqnum[addr] else 0;
      var predicted := base + 2;
      SuccessAnswers(respType, id, counters.serverSqnum, predicted);
      resp := BuildSuccess(counters, respType, id, predicted);
      lastSqnum := lastSqnum[addr := predicted];
    }

    // The KEEPALIVE branch: whether the caller answers with a KEEPALIVE_ACK.
    method HandleKeepalive(addr: Addr, term: int, isAck: bool) returns (answer: bool)
      modifies this
      ensures Now() == Step(old(Now()), Keepalive(addr, term, isAck))
      ensures answer == !isAck
      // What counts as a sign of life: the doorbell's KEEPALIVE, and an ACK with a term id from the
      // doorbell's address or from a client that has the doorbell's role.
      ensures misses ==
              if (if isAck then term != 0 && (addr.ip == doorbellIp || (term in old(clients)
                                                 && old(clients)[term].role == CallingQueue.Doorbell))
                  else addr.ip == doorbellIp)
              then 0 else old(misses)
      ensures doorbell == if !isAck && addr.ip == doorbellIp && old(doorbell) == 0 then term else old(doorbell)
    {
      RegisterClient(addr, term);
      if isAck {
        if term != 0 && term in clients {
          if clients[term].role == CallingQueue.Doorbell || addr.ip == doorbellIp { misses := 0; }
        }
        return false;
      }
      if addr.ip == doorbellIp {
        misses := 0;
        if doorbell == 0 && term != 0 { doorbell := term; }
      }
      return true;
    }

    // One turn of _keepalive_loop: the frame, if one is built, takes a sequence number even where
    // there is no socket; both a sent keepalive and a failed send count.
    method KeepaliveTick(c: Cipher, termId: int, md5: nat -> nat, nonce: nat, hasSocket: bool)
      returns (sent: Option<seq<byte>>)
      requires IsInt64(termId)
      modifies this, counters`serverSqnum
      ensures Now() == Step(old(Now()), Tick(hasSocket))
      ensures sent.Some? <==> keepalives && doorbellAddr.Some? && hasSocket
      ensures misses == if sent.None? || old(misses) >= 3 then (if sent.None? then old(misses) else 3)
                        else old(misses) + 1
      ensures var sq := old(counters.serverSqnum);
              && (sent.Some? ==> sent.value == MaskedFrame(c, 0x7F, termId, sq, md5(sq), KeepaliveFlags(nonce)))
              && counters.serverSqnum
                 == (if keepalives && old(doorbellAddr).Some? then (sq + 1) % 0x1_0000_0000 else sq)
    {
      hide MaskedFrame;
      if !keepalives || doorbellAddr.None? { return None; }
      var frame := BuildKeepalive(c, counters, termId, md5, nonce);
      if !hasSocket { return None; }
      misses := misses + 1;
      if misses >= MAX_MISSES { misses := MAX_MISSES; }
      return Some(frame);
    }

    // A CERTIFY_REQ that is not an ACK: its sequence number becomes the base of the prediction.
    method HandleCertify(addr: Addr, term: int, sqnum: nat)
      modifies this
      ensures Now() == Step(old(Now()), Certify(addr, term, sqnum))
    {
      RegisterClient(addr, term);
      lastSqnum := lastSqnum[addr := sqnum];
    }

    // An INIT_INFO answered here: with its own sequence number, or one more than the last where
    // there is no session key to read it with.
    method HandleInitInfo(addr: Addr, term: int, own: Option<nat>) returns (answered: nat)
      modifies this
      ensures Now() == Step(old(Now()), InitInfo(addr, term, own))
      ensures answered == Now().Last(addr)
      ensures answered == if own.Some? then own.value
                          else ((if addr in old(lastSqnum) then old(lastSqnum)[addr] else 0) + 1) % 0x1_0000_0000
    {
      RegisterClient(addr, term);
      match own {
      case Some(sqnum) =>
        answered := sqnum;
      case None =>
        var base := if addr in lastSqnum then lastSqnum[addr] else 0;
        answered := (base + 1) % 0x1_0000_0000;
      }
      lastSqnum := lastSqnum[addr := answered];
    }

    // on_client_certified, as far as keepalives are concerned: the queue of calls and the terms
    // of bridge and chime are in CallingQueue.
    method OnClientCertified(term: int, role: Role)
      modifies this
      ensures Now() == Step(old(Now()), Certified(term, role))
      ensures misses == if term in old(clients) && role == CallingQueue.Doorbell then 0 else old(misses)
      ensures term in old(clients) && role == CallingQueue.Doorbell ==>
                doorbell == term && doorbellAddr == Some(old(clients)[term].addr)
    {
      if term !in clients { return; }
      clients := clients[term := clients[term].(role := role)];
      if role == CallingQueue.Doorbell {
        doorbell := term;
        doorbellAddr := Some(clients[term].addr);
        misses := 0;
      }
    }
  }
}
