// Pairing of bridge and doorbell TCP connections.  Handlers interleave only where they await,
// so a run is a sequence of events, each the await-free stretch of one handler.
module MtpPairing {
  import opened Bytes

  type Conn = nat

  datatype Role = Bridge | Doorbell

  // recorded: the pair was stored in mtp_pairs when it was made.
  datatype Pair = Pair(bridge: Conn, doorbell: Conn, link: nat, recorded: bool)
  {
    function Side(r: Role): Conn { if r.Bridge? then bridge else doorbell }
    predicate Has(c: Conn) { bridge == c || doorbell == c }
  }

  // Where a connection's handler is.
  datatype Phase = Reading | Waiting | Relaying | Closed

  datatype State = State(
    bridges: seq<Conn>,          // mtp_pending_bridges
    doorbells: seq<Conn>,        // mtp_pending_doorbells
    table: map<nat, Pair>,       // mtp_pairs
    link: nat,                   // mtp_link_counter
    role: map<Conn, Role>,       // the connections' role fields
    phase: map<Conn, Phase>,
    pairs: seq<Pair>,            // every pair made so far
    expired: seq<Conn>,          // connections whose wait timed out
    admitted: nat,               // connections that were given a role
    since: map<Conn, nat>,       // when a connection was queued
    clock: nat)
  {
    function Queue(r: Role): seq<Conn> {
      if r.Bridge? then bridges else doorbells
    }
  }

  function Other(r: Role): Role { if r.Bridge? then Doorbell else Bridge }

  const START: State := State([], [], map[], 1, map[], map[], [], [], 0, map[], 0)

  datatype Event =
    | Arrive(conn: Conn, known: Option<Role>)  // role known from the IP, or not
    | Identify(conn: Conn, role: Role)         // the first frame was read
    | ReadFails(conn: Conn)                    // no first frame
    | Poll(conn: Conn, late: bool)             // one wake-up of _wait_for_pair
    | NextLink                                 // another part of the relay takes a link id

  predicate Enabled(s: State, e: Event) {
    match e
    case Arrive(c, _) => c !in s.phase
    case Identify(c, _) => c in s.phase && s.phase[c] == Reading
    case ReadFails(c) => c in s.phase && s.phase[c] == Reading
    case Poll(c, _) => c in s.phase && s.phase[c] == Waiting && c in s.role
    case NextLink => true
  }

  // ---------------------------------------------------------------- steps

  // list.remove
  function Remove(q: seq<Conn>, c: Conn): seq<Conn> {
    if q == [] then [] else if q[0] == c then q[1..] else [q[0]] + Remove(q[1..], c)
  }

  function SetQueue(s: State, r: Role, q: seq<Conn>): State {
    if r.Bridge? then s.(bridges := q) else s.(doorbells := q)
  }

  // A connection gets its role.
  function Admit(s: State, c: Conn, r: Role): State {
    s.(role := s.role[c := r], phase := s.phase[c := Waiting], admitted := s.admitted + 1)
  }

  function Enqueue(s: State, c: Conn, r: Role): State {
    SetQueue(s, r, s.Queue(r) + [c]).(since := s.since[c := s.clock], clock := s.clock + 1)
  }

  function NewPair(s: State, c: Conn, r: Role, recorded: bool): Pair
    requires s.Queue(Other(r)) != []
  {
    var partner := s.Queue(Other(r))[0];
    if r.Bridge? then Pair(c, partner, s.link, recorded) else Pair(partner, c, s.link, recorded)
  }

  // c, of role r, takes the connection at the head of the other queue.
  function Join(s: State, c: Conn, r: Role, recorded: bool): State
    requires s.Queue(Other(r)) != []
  {
    var pair := NewPair(s, c, r, recorded);
    SetQueue(s, Other(r), s.Queue(Other(r))[1..])
      .(phase := s.phase[c := Relaying], pairs := s.pairs + [pair],
        table := if recorded then s.table[s.link := pair] else s.table)
  }

  function TimeOut(s: State, c: Conn): State {
    s.(phase := s.phase[c := Closed], expired := s.expired + [c])
  }

  // A pair in mtp_pairs that has c on the side of role r.
  predicate InTable(table: map<nat, Pair>, c: Conn, r: Role) {
    exists l :: l in table && table[l].Side(r) == c
  }

  function Step(s: State, e: Event): State
    requires Enabled(s, e)
  {
    match e
    case Arrive(c, None) => s.(phase := s.phase[c := Reading])
    case Arrive(c, Some(r)) =>
      if s.Queue(Other(r)) != [] then Join(Admit(s, c, r), c, r, false) else Enqueue(Admit(s, c, r), c, r)
    case Identify(c, r) => Enqueue(Admit(s, c, r), c, r)
    case ReadFails(c) => s.(phase := s.phase[c := Closed])
    case Poll(c, late) =>
      var r := s.role[c];
      var without := SetQueue(s, r, Remove(s.Queue(r), c));
      if c !in s.Queue(r) then s.(phase := s.phase[c := if InTable(s.table, c, r) then Relaying else Closed])
      else if s.Queue(Other(r)) != [] then Join(without, c, r, true)
      else if late then TimeOut(without, c)
      else s
    case NextLink => s.(link := s.link + 1)
  }

  // ---------------------------------------------------------------- what every run keeps

  function Members(pairs: seq<Pair>): set<Conn> {
    if pairs == [] then {}
    else Members(pairs[..|pairs| - 1]) + {pairs[|pairs| - 1].bridge, pairs[|pairs| - 1].doorbell}
  }

  // No connection is in two pairs or on both sides of one, and each is on the side of its role.
  ghost predicate Distinct(pairs: seq<Pair>, role: map<Conn, Role>) {
    pairs == [] ||
    var p, before := pairs[|pairs| - 1], pairs[..|pairs| - 1];
    && Distinct(before, role)
    && p.bridge !in Members(before) && p.doorbell !in Members(before)
    && p.bridge in role && role[p.bridge] == Bridge
    && p.doorbell in role && role[p.doorbell] == Doorbell
  }

  // In a queue the waiting times are in order and no connection is there twice.
  predicate Sorted(q: seq<Conn>, since: map<Conn, nat>) {
    q == [] ||
    (q[0] in since && (forall x :: x in q[1..] ==> x in since && since[q[0]] < since[x]) && Sorted(q[1..], since))
  }

  // c may stand in the queue of role r.
  predicate MayWait(s: State, c: Conn, r: Role) {
    && c in s.phase && s.phase[c] == Waiting && c in s.role && s.role[c] == r
    && c in s.since && s.since[c] < s.clock && c !in Members(s.pairs)
  }

  ghost predicate QueueOk(s: State, r: Role) {
    Sorted(s.Queue(r), s.since) && forall c :: c in s.Queue(r) ==> MayWait(s, c, r)
  }

  ghost predicate PairsOk(s: State) {
    && Distinct(s.pairs, s.role)
    && (forall c :: c in Members(s.pairs) ==> c in s.phase && s.phase[c] != Reading)
    && (forall c :: c in s.expired ==> c in s.phase && s.phase[c] == Closed && c !in Members(s.pairs))
    && (forall l :: l in s.table ==> s.table[l] in s.pairs && s.table[l].recorded)
  }

  // Nobody who waits is forgotten: it is queued or has a partner.
  predicate Placed(s: State, c: Conn)
    requires c in s.phase
  {
    s.phase[c] == Waiting ==> c in s.role && (c in s.Queue(s.role[c]) || c in Members(s.pairs))
  }

  ghost predicate AllPlaced(s: State) {
    forall c :: c in s.phase ==> Placed(s, c)
  }

  predicate Conserved(s: State, more: nat) {
    s.admitted == |s.bridges| + |s.doorbells| + 2 * |s.pairs| + |s.expired| + more
  }

  ghost predicate Inv(s: State) {
    QueueOk(s, Bridge) && QueueOk(s, Doorbell) && PairsOk(s) && AllPlaced(s) && Conserved(s, 0)
  }

  // c has a role but is neither queued nor paired; everything else is in order.
  ghost predicate Loose(s: State, c: Conn, r: Role) {
    && QueueOk(s, Bridge) && QueueOk(s, Doorbell) && PairsOk(s) && Conserved(s, 1)
    && c !in s.bridges && c !in s.doorbells && c !in Members(s.pairs)
    && c in s.phase && s.phase[c] == Waiting && c in s.role && s.role[c] == r
    && forall x :: x in s.phase && x != c ==> Placed(s, x)
  }

  // ---------------------------------------------------------------- lemmas on queues and pairs

  lemma {:induction false} SortedAppend(q: seq<Conn>, since: map<Conn, nat>, c: Conn, t: nat)
    requires Sorted(q, since) && c !in q && forall x :: x in q ==> x in since && since[x] < t
    ensures Sorted(q + [c], since[c := t])
  {
    if q != [] {
      assert (q + [c])[1..] == q[1..] + [c];
      SortedAppend(q[1..], since, c, t);
    } else {
      assert (q + [c])[1..] == [];
      assert Sorted((q + [c])[1..], since[c := t]);
    }
  }

  lemma {:induction false} SortedElsewhere(q: seq<Conn>, since: map<Conn, nat>, c: Conn, t: nat)
    requires Sorted(q, since) && c !in q
    ensures Sorted(q, since[c := t])
  {
    if q != [] { SortedElsewhere(q[1..], since, c, t); }
  }

  lemma {:induction false} RemoveTakesOne(q: seq<Conn>, c: Conn, since: map<Conn, nat>)
    requires Sorted(q, since) && c in q
    ensures |Remove(q, c)| == |q| - 1 && Sorted(Remove(q, c), since)
    ensures forall x :: x in Remove(q, c) <==> x in q && x != c
  {
    if q[0] == c {
      assert forall x :: x in q <==> x == c || x in q[1..];
    } else {
      RemoveTakesOne(q[1..], c, since);
      assert Remove(q, c)[1..] == Remove(q[1..], c);
      assert forall x :: x in q <==> x == q[0] || x in q[1..];
      assert forall x :: x in Remove(q, c) <==> x == q[0] || x in Remove(q[1..], c);
    }
  }

  lemma {:induction false} MembersAppend(pairs: seq<Pair>, p: Pair)
    ensures Members(pairs + [p]) == Members(pairs) + {p.bridge, p.doorbell}
  {
    assert (pairs + [p])[..|pairs|] == pairs;
  }

  lemma {:induction false} DistinctAppend(pairs: seq<Pair>, p: Pair, role: map<Conn, Role>)
    requires Distinct(pairs, role) && p.bridge !in Members(pairs) && p.doorbell !in Members(pairs)
    requires p.bridge in role && role[p.bridge] == Bridge && p.doorbell in role && role[p.doorbell] == Doorbell
    ensures Distinct(pairs + [p], role)
  {
    assert (pairs + [p])[..|pairs|] == pairs;
  }

  // Giving a role to a connection outside the pairs does not disturb them.
  lemma {:induction false} DistinctElsewhere(pairs: seq<Pair>, role: map<Conn, Role>, c: Conn, r: Role)
    requires Distinct(pairs, role) && c !in Members(pairs)
    ensures Distinct(pairs, role[c := r])
  {
    if pairs != [] { DistinctElsewhere(pairs[..|pairs| - 1], role, c, r); }
  }

  lemma {:induction false} InAPair(pairs: seq<Pair>, c: Conn)
    ensures c in Members(pairs) <==> exists i :: 0 <= i < |pairs| && pairs[i].Has(c)
  {
    if pairs != [] {
      var n := |pairs| - 1;
      InAPair(pairs[..n], c);
      assert forall i :: 0 <= i < n ==> pairs[..n][i] == pairs[i];
      if !pairs[n].Has(c) && c in Members(pairs) {
        var i :| 0 <= i < n && pairs[..n][i].Has(c);
        assert pairs[i].Has(c);
      }
    }
  }

  // A connection enters at most one pair.
  lemma {:induction false} OnePairEach(pairs: seq<Pair>, role: map<Conn, Role>, i: nat, j: nat, c: Conn)
    requires Distinct(pairs, role) && i < j < |pairs| && pairs[i].Has(c)
    ensures !pairs[j].Has(c)
    decreases |pairs|
  {
    var n := |pairs| - 1;
    assert pairs[..n][i].Has(c);
    InAPair(pairs[..n], c);
    if j < n { OnePairEach(pairs[..n], role, i, j, c); }
  }

  // The bridge and the doorbell of a pair were identified as such.
  lemma {:induction false} PairSides(pairs: seq<Pair>, role: map<Conn, Role>, i: nat)
    requires Distinct(pairs, role) && i < |pairs|
    ensures pairs[i].bridge in role && role[pairs[i].bridge] == Bridge
    ensures pairs[i].doorbell in role && role[pairs[i].doorbell] == Doorbell
    decreases |pairs|
  {
    var n := |pairs| - 1;
    if i < n {
      assert pairs[..n][i] == pairs[i];
      PairSides(pairs[..n], role, i);
    }
  }

  // ---------------------------------------------------------------- every step keeps the invariant

  lemma {:induction false} AdmitLoosens(s: State, c: Conn, r: Role)
    requires Inv(s) && c !in s.bridges && c !in s.doorbells && c !in Members(s.pairs) && c !in s.expired
    ensures Loose(Admit(s, c, r), c, r)
  {
    hide Members, Distinct, Sorted;
    DistinctElsewhere(s.pairs, s.role, c, r);
    var t := Admit(s, c, r);
    forall x | x in t.bridges ensures MayWait(t, x, Bridge) { assert MayWait(s, x, Bridge); }
    forall x | x in t.doorbells ensures MayWait(t, x, Doorbell) { assert MayWait(s, x, Doorbell); }
    forall x | x in t.phase && x != c ensures Placed(t, x) { assert Placed(s, x); }
  }

  lemma {:induction false} EnqueueKeeps(s: State, c: Conn, r: Role)
    requires Loose(s, c, r)
    ensures Inv(Enqueue(s, c, r))
  {
    hide Members, Distinct, Sorted;
    var t := Enqueue(s, c, r);
    forall x | x in s.Queue(r) ensures x in s.since && s.since[x] < s.clock { assert MayWait(s, x, r); }
    SortedAppend(s.Queue(r), s.since, c, s.clock);
    SortedElsewhere(s.Queue(Other(r)), s.since, c, s.clock);
    forall q, x | x in t.Queue(q) ensures MayWait(t, x, q) {
      if x != c { assert x in s.Queue(q) && MayWait(s, x, q); }
    }
    forall x | x in t.phase ensures Placed(t, x) {
      if x != c { assert Placed(s, x); } else { assert t.Queue(r)[|s.Queue(r)|] == c; }
    }
  }

  // Taking a connection out of its own queue.
  lemma {:induction false} RemoveLoosens(s: State, c: Conn, r: Role)
    requires Inv(s) && c in s.Queue(r)
    ensures Loose(SetQueue(s, r, Remove(s.Queue(r), c)), c, r)
  {
    hide Members, Distinct, Sorted, Remove;
    var t := SetQueue(s, r, Remove(s.Queue(r), c));
    assert MayWait(s, c, r);
    RemoveTakesOne(s.Queue(r), c, s.since);
    forall q, x | x in t.Queue(q) ensures MayWait(t, x, q) { assert x in s.Queue(q) && MayWait(s, x, q); }
    forall x | x in t.phase && x != c ensures Placed(t, x) { assert Placed(s, x); }
    forall x | x in s.Queue(Other(r)) ensures x != c { assert MayWait(s, x, Other(r)); }
  }

  lemma {:induction false} JoinKeeps(s: State, c: Conn, r: Role, recorded: bool)
    requires Loose(s, c, r) && s.Queue(Other(r)) != []
    ensures Inv(Join(s, c, r, recorded))
  {
    hide Members, Distinct, Sorted, MayWait, Placed;
    var p, t := NewPair(s, c, r, recorded), Join(s, c, r, recorded);
    MembersAppend(s.pairs, p);
    JoinQueues(s, t, c, r);
    JoinPlaces(s, t, c, r);
    JoinPairs(s, c, r, recorded);
  }

  lemma {:induction false} HeadMayWait(s: State, c: Conn, r: Role)
    requires Loose(s, c, r) && s.Queue(Other(r)) != []
    ensures var h := s.Queue(Other(r))[0];
            && h in s.phase && s.phase[h] == Waiting && h in s.role && s.role[h] == Other(r)
            && h !in Members(s.pairs)
  {
    hide Members, Distinct, Sorted;
    assert MayWait(s, s.Queue(Other(r))[0], Other(r));
  }

  lemma {:induction false} JoinDistinct(s: State, c: Conn, r: Role, recorded: bool)
    requires Loose(s, c, r) && s.Queue(Other(r)) != []
    ensures var t := Join(s, c, r, recorded);
            && Distinct(t.pairs, t.role) && Members(t.pairs) == Members(s.pairs) + {c, s.Queue(Other(r))[0]}
  {
    HeadMayWait(s, c, r);
    hide Members, Distinct, Sorted, MayWait, QueueOk, Conserved, Placed, PairsOk;
    assert Distinct(s.pairs, s.role) by { LooseDistinct(s, c, r); }
    var p := NewPair(s, c, r, recorded);
    MembersAppend(s.pairs, p);
    DistinctAppend(s.pairs, p, s.role);
  }

  lemma {:induction false} LooseDistinct(s: State, c: Conn, r: Role)
    requires Loose(s, c, r)
    ensures Distinct(s.pairs, s.role)
  {
    hide Members, Distinct, Sorted, MayWait, QueueOk, Conserved, Placed;
  }

  // The paired connections have left the reading phase and are not among the expired ones.
  lemma {:induction false} JoinPhases(s: State, t: State, c: Conn, r: Role)
    requires Loose(s, c, r) && s.Queue(Other(r)) != []
    requires Members(t.pairs) == Members(s.pairs) + {c, s.Queue(Other(r))[0]}
    requires t.phase == s.phase[c := Relaying] && t.expired == s.expired
    ensures forall x :: x in Members(t.pairs) ==> x in t.phase && t.phase[x] != Reading
    ensures forall x :: x in t.expired ==> x in t.phase && t.phase[x] == Closed && x !in Members(t.pairs)
  {
    HeadMayWait(s, c, r);
    hide Members, Distinct, Sorted, MayWait, QueueOk, Conserved, Placed;
  }

  lemma {:induction false} JoinPairs(s: State, c: Conn, r: Role, recorded: bool)
    requires Loose(s, c, r) && s.Queue(Other(r)) != []
    ensures PairsOk(Join(s, c, r, recorded))
  {
    hide Members, Distinct, Sorted, MayWait, QueueOk, Conserved, Placed;
    var p, t := NewPair(s, c, r, recorded), Join(s, c, r, recorded);
    JoinDistinct(s, c, r, recorded);
    JoinPhases(s, t, c, r);
    assert p == t.pairs[|s.pairs|];
    forall l | l in t.table ensures t.table[l] in t.pairs && t.table[l].recorded {
      assert recorded && l == s.link ==> t.table[l] == p;
      assert !(recorded && l == s.link) ==> t.table[l] in s.pairs;
    }
  }

  lemma {:induction false} JoinQueues(s: State, t: State, c: Conn, r: Role)
    requires Loose(s, c, r) && s.Queue(Other(r)) != []
    requires t.Queue(r) == s.Queue(r) && t.Queue(Other(r)) == s.Queue(Other(r))[1..]
    requires t.phase == s.phase[c := Relaying] && t.role == s.role && t.since == s.since && t.clock == s.clock
    requires Members(t.pairs) == Members(s.pairs) + {c, s.Queue(Other(r))[0]}
    ensures QueueOk(t, Bridge) && QueueOk(t, Doorbell)
  {
    hide Members, Distinct;
    var q := s.Queue(Other(r));
    assert MayWait(s, q[0], Other(r));
    assert Sorted(q[1..], s.since) && q[0] !in q[1..];
    forall w, x | x in t.Queue(w) ensures MayWait(t, x, w) {
      assert x in s.Queue(w) && MayWait(s, x, w);
    }
  }

  lemma {:induction false} JoinPlaces(s: State, t: State, c: Conn, r: Role)
    requires Loose(s, c, r) && s.Queue(Other(r)) != []
    requires t.Queue(r) == s.Queue(r) && t.Queue(Other(r)) == s.Queue(Other(r))[1..]
    requires t.phase == s.phase[c := Relaying] && t.role == s.role
    requires Members(t.pairs) == Members(s.pairs) + {c, s.Queue(Other(r))[0]}
    ensures AllPlaced(t)
  {
    hide Members, Distinct, Sorted;
    var q := s.Queue(Other(r));
    assert forall x :: x in q <==> x == q[0] || x in q[1..];
    forall x | x in t.phase ensures Placed(t, x) {
      if x != c { assert Placed(s, x); }
    }
  }

  lemma {:induction false} TimeOutKeeps(s: State, c: Conn, r: Role)
    requires Loose(s, c, r)
    ensures Inv(TimeOut(s, c))
  {
    hide Members, Distinct, Sorted;
    var t := TimeOut(s, c);
    forall q, x | x in t.Queue(q) ensures MayWait(t, x, q) { assert x in s.Queue(q) && MayWait(s, x, q); }
    forall x | x in t.phase ensures Placed(t, x) {
      if x != c { assert Placed(s, x); }
    }
  }

  // A handler outside the queues moves on.
  lemma {:induction false} PhaseKeeps(s: State, c: Conn, p: Phase)
    requires Inv(s) && c !in s.bridges && c !in s.doorbells && p != Waiting
    requires p == Reading ==> c !in Members(s.pairs)
    requires c !in s.expired
    ensures Inv(s.(phase := s.phase[c := p]))
  {
    hide Members, Distinct, Sorted;
    var t := s.(phase := s.phase[c := p]);
    forall q, x | x in t.Queue(q) ensures MayWait(t, x, q) { assert x in s.Queue(q) && MayWait(s, x, q); }
    forall x | x in t.phase ensures Placed(t, x) {
      if x != c { assert Placed(s, x); }
    }
  }

  // Connections that are new, or still reading, are in no queue and in no pair.
  lemma {:induction false} NotYetPlaced(s: State, c: Conn)
    requires Inv(s) && (c in s.phase ==> s.phase[c] == Reading)
    ensures c !in s.bridges && c !in s.doorbells && c !in Members(s.pairs) && c !in s.expired
  {
    hide Members, Distinct, Sorted;
    forall x | x in s.bridges ensures x != c { assert MayWait(s, x, Bridge); }
    forall x | x in s.doorbells ensures x != c { assert MayWait(s, x, Doorbell); }
  }

  lemma {:induction false} OneQueueEach(s: State, c: Conn)
    requires Inv(s) && c in s.role && c !in s.Queue(s.role[c]) && c in s.phase && s.phase[c] == Waiting
    ensures c !in s.bridges && c !in s.doorbells && c !in s.expired
  {
    hide Members, Distinct, Sorted;
    forall x | x in s.bridges ensures x != c { assert MayWait(s, x, Bridge); }
    forall x | x in s.doorbells ensures x != c { assert MayWait(s, x, Doorbell); }
  }

  lemma {:induction false} ArriveKeeps(s: State, c: Conn, r: Role)
    requires Inv(s) && c !in s.phase
    ensures Inv(Step(s, Arrive(c, Some(r))))
  {
    hide Inv, Loose;
    NotYetPlaced(s, c);
    AdmitLoosens(s, c, r);
    var t := Admit(s, c, r);
    assert t.Queue(Other(r)) == s.Queue(Other(r));
    if s.Queue(Other(r)) != [] { JoinKeeps(t, c, r, false); } else { EnqueueKeeps(t, c, r); }
  }

  lemma {:induction false} PollKeeps(s: State, c: Conn, late: bool)
    requires Inv(s) && Enabled(s, Poll(c, late))
    ensures Inv(Step(s, Poll(c, late)))
  {
    hide Inv, Loose, InTable, Remove;
    var r := s.role[c];
    var t := SetQueue(s, r, Remove(s.Queue(r), c));
    assert t.Queue(Other(r)) == s.Queue(Other(r));
    if c !in s.Queue(r) {
      OneQueueEach(s, c);
      PhaseKeeps(s, c, Step(s, Poll(c, late)).phase[c]);
    } else {
      RemoveLoosens(s, c, r);
      if s.Queue(Other(r)) != [] {
        JoinKeeps(t, c, r, true);
      } else if late {
        TimeOutKeeps(t, c, r);
      }
    }
  }

  lemma {:induction false} LinkKeeps(s: State)
    requires Inv(s)
    ensures Inv(s.(link := s.link + 1))
  {
    hide Members, Distinct, Sorted;
    var t := s.(link := s.link + 1);
    forall q, x | x in t.Queue(q) ensures MayWait(t, x, q) { assert x in s.Queue(q) && MayWait(s, x, q); }
    forall x | x in t.phase ensures Placed(t, x) { assert Placed(s, x); }
  }

  lemma {:induction false} StepKeeps(s: State, e: Event)
    requires Inv(s) && Enabled(s, e)
    ensures Inv(Step(s, e))
  {
    hide Inv, Enqueue, Join;
    match e
    case Arrive(c, None) =>
      NotYetPlaced(s, c);
      PhaseKeeps(s, c, Reading);
    case Arrive(c, Some(r)) => ArriveKeeps(s, c, r);
    case Identify(c, r) =>
      NotYetPlaced(s, c);
      AdmitLoosens(s, c, r);
      EnqueueKeeps(Admit(s, c, r), c, r);
    case ReadFails(c) =>
      NotYetPlaced(s, c);
      PhaseKeeps(s, c, Closed);
    case Poll(c, late) => PollKeeps(s, c, late);
    case NextLink => LinkKeeps(s);
  }

  // ---------------------------------------------------------------- runs

  predicate Possible(s: State, events: seq<Event>)
    decreases |events|
  {
    events == [] || (Enabled(s, events[0]) && Possible(Step(s, events[0]), events[1..]))
  }

  function Run(s: State, events: seq<Event>): State
    requires Possible(s, events)
    decreases |events|
  {
    if events == [] then s else Run(Step(s, events[0]), events[1..])
  }

  lemma {:induction false} RunKeeps(s: State, events: seq<Event>)
    requires Inv(s) && Possible(s, events)
    ensures Inv(Run(s, events))
    decreases |events|
  {
    hide Inv, Step, Enabled;
    if events != [] {
      StepKeeps(s, events[0]);
      RunKeeps(Step(s, events[0]), events[1..]);
    }
  }

  // The queues hold different connections of their role, each once.
  ghost predicate QueuesSafe(s: State) {
    && (forall r, i, j :: 0 <= i < j < |s.Queue(r)| ==> s.Queue(r)[i] != s.Queue(r)[j])
    && (forall r, c :: c in s.Queue(r) ==> c !in s.Queue(Other(r)) && c in s.role && s.role[c] == r)
  }

  // Nobody is in two pairs, and those that are pending or timed out are in none.
  ghost predicate PairsSafe(s: State) {
    && (forall i, j, c :: 0 <= i < j < |s.pairs| && s.pairs[i].Has(c) ==> !s.pairs[j].Has(c))
    && (forall i, c :: c in s.bridges + s.doorbells + s.expired && 0 <= i < |s.pairs| ==> !s.pairs[i].Has(c))
  }

  lemma {:induction false} QueuesAreSafe(s: State)
    requires Inv(s)
    ensures QueuesSafe(s)
  {
    hide Members, Distinct, Sorted;
    forall r, i, j | 0 <= i < j < |s.Queue(r)| ensures s.Queue(r)[i] != s.Queue(r)[j] {
      assert Sorted(s.Queue(r), s.since);
      SortedDiffers(s.Queue(r), s.since, i, j);
    }
    forall r, c | c in s.Queue(r) ensures c !in s.Queue(Other(r)) && c in s.role && s.role[c] == r {
      assert MayWait(s, c, r);
      forall x | x in s.Queue(Other(r)) ensures x != c { assert MayWait(s, x, Other(r)); }
    }
  }

  lemma {:induction false} PairsAreSafe(s: State)
    requires Inv(s)
    ensures PairsSafe(s)
  {
    hide Members, Distinct, Sorted;
    forall i, j, c | 0 <= i < j < |s.pairs| && s.pairs[i].Has(c) ensures !s.pairs[j].Has(c) {
      OnePairEach(s.pairs, s.role, i, j, c);
    }
    forall c, i | c in s.bridges + s.doorbells + s.expired && 0 <= i < |s.pairs| ensures !s.pairs[i].Has(c) {
      assert c in s.bridges ==> MayWait(s, c, Bridge);
      assert c in s.doorbells ==> MayWait(s, c, Doorbell);
      InAPair(s.pairs, c);
    }
  }

  // Whatever the interleaving, the queues and the pairs are safe, and every admitted connection
  // is pending, paired or timed out.
  lemma {:induction false} PairingSafety(events: seq<Event>)
    requires Possible(START, events)
    ensures
      var s := Run(START, events);
      && QueuesSafe(s) && PairsSafe(s)
      && s.admitted == |s.bridges| + |s.doorbells| + 2 * |s.pairs| + |s.expired|
  {
    assert Inv(START);
    RunKeeps(START, events);
    hide QueuesSafe, PairsSafe, Run, Possible;
    QueuesAreSafe(Run(START, events));
    PairsAreSafe(Run(START, events));
  }

  lemma {:induction false} SortedDiffers(q: seq<Conn>, since: map<Conn, nat>, i: nat, j: nat)
    requires Sorted(q, since) && i < j < |q|
    ensures q[i] in since && q[j] in since && since[q[i]] < since[q[j]]
  {
    if i == 0 {
      assert q[j] == q[1..][j - 1];
      assert q[j] in q[1..];
      SortedKnown(q, since, j);
    } else {
      SortedDiffers(q[1..], since, i - 1, j - 1);
    }
  }

  lemma {:induction false} SortedKnown(q: seq<Conn>, since: map<Conn, nat>, j: nat)
    requires Sorted(q, since) && j < |q|
    ensures q[j] in since
  {
    if j > 0 { SortedKnown(q[1..], since, j - 1); }
  }

  // Only a connection with a partner is ever relayed.
  ghost predicate RelayersPaired(s: State) {
    forall c :: c in s.phase && s.phase[c] == Relaying ==> c in Members(s.pairs)
  }

  lemma {:induction false} JoinRelays(s: State, c: Conn, r: Role, recorded: bool)
    requires RelayersPaired(s) && s.Queue(Other(r)) != []
    ensures RelayersPaired(Join(s, c, r, recorded))
  {
    hide Members;
    MembersAppend(s.pairs, NewPair(s, c, r, recorded));
  }

  lemma {:induction false} StepRelays(s: State, e: Event)
    requires Inv(s) && RelayersPaired(s) && Enabled(s, e)
    ensures RelayersPaired(Step(s, e))
  {
    hide Members, Join, Remove, Distinct, Sorted, MayWait, InTable;
    match e
    case Arrive(c, Some(r)) =>
      if s.Queue(Other(r)) != [] { JoinRelays(Admit(s, c, r), c, r, false); }
    case Poll(c, late) =>
      var r := s.role[c];
      if c in s.Queue(r) {
        if s.Queue(Other(r)) != [] { JoinRelays(SetQueue(s, r, Remove(s.Queue(r), c)), c, r, true); }
      } else {
        assert Placed(s, c);
      }
    case _ =>
  }

  lemma {:induction false} RelayersHavePartners(events: seq<Event>)
    requires Possible(START, events)
    ensures RelayersPaired(Run(START, events))
  {
    assert Inv(START);
    RunRelays(START, events);
  }

  lemma {:induction false} RunRelays(s: State, events: seq<Event>)
    requires Inv(s) && RelayersPaired(s) && Possible(s, events)
    ensures RelayersPaired(Run(s, events))
    decreases |events|
  {
    hide Inv, RelayersPaired, Step, Enabled;
    if events != [] {
      StepKeeps(s, events[0]);
      StepRelays(s, events[0]);
      RunRelays(Step(s, events[0]), events[1..]);
    }
  }

  // ---------------------------------------------------------------- who is paired with whom

  // From s to t the connection c, of role r, was paired with the one that has waited longest on
  // the other side; neither had been in a pair and neither is in a queue any more.
  ghost predicate TakesLongest(s: State, t: State, c: Conn, r: Role, recorded: bool) {
    && |t.pairs| == |s.pairs| + 1 && t.pairs[..|s.pairs|] == s.pairs
    && var p := t.pairs[|s.pairs|];
       var partner := p.Side(Other(r));
       && p.Side(r) == c && p.link == s.link && p.recorded == recorded
       && c !in Members(s.pairs) && partner !in Members(s.pairs) && c != partner
       && partner in s.phase && s.phase[partner] == Waiting && partner in s.Queue(Other(r))
       && (forall x :: x in s.Queue(Other(r)) && x != partner ==>
             partner in s.since && x in s.since && s.since[partner] < s.since[x])
       && c !in t.bridges && c !in t.doorbells && partner !in t.bridges && partner !in t.doorbells
  }

  // s is the state before the event and m the one in which c has left its queue, or has its role.
  lemma {:induction false} JoinTakes(s: State, m: State, c: Conn, r: Role, recorded: bool)
    requires Loose(m, c, r) && m.Queue(Other(r)) != []
    requires s.pairs == m.pairs && s.Queue(Other(r)) == m.Queue(Other(r)) && s.link == m.link && s.since == m.since
    requires forall x :: x in m.phase && x != c ==> x in s.phase && s.phase[x] == m.phase[x]
    ensures TakesLongest(s, Join(m, c, r, recorded), c, r, recorded)
  {
    hide Members, Distinct;
    var q := m.Queue(Other(r));
    var t := Join(m, c, r, recorded);
    assert MayWait(m, q[0], Other(r));
    assert Sorted(q, m.since);
    assert forall x :: x in q <==> x == q[0] || x in q[1..];
    forall x | x in m.Queue(r) ensures x != q[0] { assert MayWait(m, x, r); }
    assert t.Queue(r) == m.Queue(r) && t.Queue(Other(r)) == q[1..];
  }

  lemma {:induction false} PollTakes(s: State, c: Conn, late: bool)
    requires Inv(s) && Enabled(s, Poll(c, late)) && Step(s, Poll(c, late)).pairs != s.pairs
    ensures Step(s, Poll(c, late)).role == s.role
    ensures TakesLongest(s, Step(s, Poll(c, late)), c, s.role[c], true)
  {
    hide Inv, Loose, TakesLongest, InTable, Remove;
    var r := s.role[c];
    var m := SetQueue(s, r, Remove(s.Queue(r), c));
    assert c in s.Queue(r) && s.Queue(Other(r)) != [] && m.Queue(Other(r)) == s.Queue(Other(r));
    RemoveLoosens(s, c, r);
    JoinTakes(s, m, c, r, true);
  }

  // A step makes at most one pair, of the connection whose handler runs - it has just arrived
  // or is waiting - with the longest-waiting one of the other role.
  lemma {:induction false} LongestWaitingIsTaken(s: State, e: Event)
    requires Inv(s) && Enabled(s, e) && Step(s, e).pairs != s.pairs
    ensures (e.Arrive? && e.known.Some?) || e.Poll?
    ensures
      var t := Step(s, e);
      && e.conn in t.role && TakesLongest(s, t, e.conn, t.role[e.conn], e.Poll?)
  {
    hide Inv, Loose, TakesLongest, Enqueue, InTable, Remove;
    match e
    case Arrive(c, Some(r)) =>
      NotYetPlaced(s, c);
      AdmitLoosens(s, c, r);
      var m := Admit(s, c, r);
      assert m.Queue(Other(r)) == s.Queue(Other(r));
      EnqueueMakesNoPair(m, c, r);
      JoinTakes(s, m, c, r, false);
    case Poll(c, late) => PollTakes(s, c, late);
    case Identify(c, r) => EnqueueMakesNoPair(Admit(s, c, r), c, r);
    case _ =>
  }

  lemma {:induction false} EnqueueMakesNoPair(s: State, c: Conn, r: Role)
    ensures Enqueue(s, c, r).pairs == s.pairs && Enqueue(s, c, r).table == s.table
  {
  }

  // ---------------------------------------------------------------- what becomes of a waiting handler

  // mtp_pairs as the pairs made so far leave it: a recorded pair stays until the next recorded
  // one with the same link id, which pairing itself does not advance.
  function TableOf(pairs: seq<Pair>): map<nat, Pair> {
    if pairs == [] then map[]
    else
      var p, before := pairs[|pairs| - 1], TableOf(pairs[..|pairs| - 1]);
      if p.recorded then before[p.link := p] else before
  }

  lemma {:induction false} TableOfAppend(pairs: seq<Pair>, p: Pair)
    ensures TableOf(pairs + [p]) == if p.recorded then TableOf(pairs)[p.link := p] else TableOf(pairs)
  {
    assert (pairs + [p])[..|pairs|] == pairs;
  }

  lemma {:induction false} JoinTable(s: State, c: Conn, r: Role, recorded: bool)
    requires s.Queue(Other(r)) != [] && s.table == TableOf(s.pairs)
    ensures Join(s, c, r, recorded).table == TableOf(Join(s, c, r, recorded).pairs)
  {
    hide TableOf;
    TableOfAppend(s.pairs, NewPair(s, c, r, recorded));
  }

  lemma {:induction false} StepTable(s: State, e: Event)
    requires Enabled(s, e) && s.table == TableOf(s.pairs)
    ensures Step(s, e).table == TableOf(Step(s, e).pairs)
  {
    hide TableOf, Join, Enqueue, InTable, Remove;
    match e
    case Arrive(c, Some(r)) =>
      EnqueueMakesNoPair(Admit(s, c, r), c, r);
      if s.Queue(Other(r)) != [] { JoinTable(Admit(s, c, r), c, r, false); }
    case Identify(c, r) => EnqueueMakesNoPair(Admit(s, c, r), c, r);
    case Poll(c, late) =>
      var r := s.role[c];
      var without := SetQueue(s, r, Remove(s.Queue(r), c));
      if c in s.Queue(r) && s.Queue(Other(r)) != [] { JoinTable(without, c, r, true); }
    case _ =>
  }

  lemma {:induction false} RunTable(s: State, events: seq<Event>)
    requires Possible(s, events) && s.table == TableOf(s.pairs)
    ensures Run(s, events).table == TableOf(Run(s, events).pairs)
    decreases |events|
  {
    hide TableOf, Step, Enabled;
    if events != [] {
      StepTable(s, events[0]);
      RunTable(Step(s, events[0]), events[1..]);
    }
  }

  // The i-th pair was recorded and no later one was recorded under its link id.
  predicate Lasting(pairs: seq<Pair>, i: nat)
    requires i < |pairs|
  {
    pairs[i].recorded && forall j :: i < j < |pairs| && pairs[j].recorded ==> pairs[j].link != pairs[i].link
  }

  // What mtp_pairs holds under a link id.
  lemma {:induction false} TableHolds(pairs: seq<Pair>, l: nat)
    ensures l in TableOf(pairs) ==>
              exists i :: 0 <= i < |pairs| && pairs[i] == TableOf(pairs)[l] && pairs[i].link == l && Lasting(pairs, i)
    ensures forall i :: 0 <= i < |pairs| && pairs[i].link == l && Lasting(pairs, i) ==>
              l in TableOf(pairs) && TableOf(pairs)[l] == pairs[i]
  {
    if pairs != [] {
      var n := |pairs| - 1;
      var p, before := pairs[n], pairs[..n];
      TableHolds(before, l);
      hide TableOf;
      TableOfAppend(before, p);
      assert before + [p] == pairs;
      LastingBefore(pairs, l);
      if l in TableOf(pairs) && !(p.recorded && p.link == l) {
        var i :| 0 <= i < n && before[i] == TableOf(before)[l] && before[i].link == l && Lasting(before, i);
        assert pairs[i] == before[i];
      }
      assert p.recorded ==> Lasting(pairs, n);
    }
  }

  lemma {:induction false} LastingBefore(pairs: seq<Pair>, l: nat)
    requires pairs != []
    ensures var n := |pairs| - 1;
            forall i :: 0 <= i < n && pairs[i].link == l ==>
              (Lasting(pairs, i) <==> Lasting(pairs[..n], i) && !(pairs[n].recorded && pairs[n].link == l))
  {
    var n := |pairs| - 1;
    var before := pairs[..n];
    forall i | 0 <= i < n && pairs[i].link == l
      ensures Lasting(pairs, i) <==> Lasting(before, i) && !(pairs[n].recorded && pairs[n].link == l)
    {
      assert forall j :: 0 <= j < n ==> before[j] == pairs[j];
    }
  }

  // A connection of the i-th pair finds an entry of mtp_pairs exactly when that pair lasts.
  lemma {:induction false} FoundIffLasting(s: State, i: nat, c: Conn)
    requires Inv(s) && s.table == TableOf(s.pairs)
    requires i < |s.pairs| && s.pairs[i].Has(c) && c in s.role
    ensures InTable(s.table, c, s.role[c]) <==> Lasting(s.pairs, i)
  {
    hide Members, Distinct, Sorted, MayWait, Placed, TableOf, Lasting;
    var r := s.role[c];
    PairSides(s.pairs, s.role, i);
    assert s.pairs[i].Side(r) == c;
    TableHolds(s.pairs, s.pairs[i].link);
    forall l | l in s.table && s.table[l].Side(r) == c ensures Lasting(s.pairs, i) {
      TableHolds(s.pairs, l);
      var j :| 0 <= j < |s.pairs| && s.pairs[j] == s.table[l] && s.pairs[j].link == l && Lasting(s.pairs, j);
      if j < i { OnePairEach(s.pairs, s.role, j, i, c); }
      if i < j { OnePairEach(s.pairs, s.role, i, j, c); }
    }
  }

  // In every reachable state a waiting connection that is out of its queue is in a pair, and its
  // next poll relays if and only if that pair was recorded and not overwritten since.
  lemma {:induction false} FateOfTaken(events: seq<Event>, c: Conn, late: bool)
    requires Possible(START, events)
    requires Enabled(Run(START, events), Poll(c, late))
    requires c !in Run(START, events).Queue(Run(START, events).role[c])
    ensures
      var s := Run(START, events);
      exists i :: 0 <= i < |s.pairs| && s.pairs[i].Has(c)
        && Step(s, Poll(c, late)).phase[c] == (if Lasting(s.pairs, i) then Relaying else Closed)
  {
    assert Inv(START);
    RunKeeps(START, events);
    RunTable(START, events);
    var s := Run(START, events);
    hide Run, Possible, Members, Distinct, Sorted, MayWait, TableOf, Lasting;
    assert Placed(s, c);
    InAPair(s.pairs, c);
    var i :| 0 <= i < |s.pairs| && s.pairs[i].Has(c);
    FoundIffLasting(s, i, c);
  }

  lemma {:induction false} RunCons(s: State, e: Event, events: seq<Event>)
    requires Enabled(s, e) && Possible(Step(s, e), events)
    ensures Possible(s, [e] + events) && Run(s, [e] + events) == Run(Step(s, e), events)
  {
    hide Step, Enabled;
    assert ([e] + events)[1..] == events;
  }

  lemma {:induction false} NoEvents(s: State)
    ensures Possible(s, []) && Run(s, []) == s
  {
    hide Step, Enabled;
  }

  // Four connections whose roles came from their first frames, all queued.
  const FOUR_WAIT: State :=
    State([1, 3], [2, 4], map[], 1, map[1 := Bridge, 2 := Doorbell, 3 := Bridge, 4 := Doorbell],
          map[1 := Waiting, 2 := Waiting, 3 := Waiting, 4 := Waiting], [], [], 4,
          map[1 := 0, 2 := 1, 3 := 2, 4 := 3], 4)

  function Unknown(c: Conn): Event { Arrive(c, None) }

  lemma {:induction false} FourWaitIsReachable()
    ensures exists events :: Possible(START, events) && Run(START, events) == FOUR_WAIT
  {
    var s1 := START.(phase := map[1 := Reading]);
    var s2 := START.(phase := map[1 := Reading, 2 := Reading]);
    var s3 := START.(phase := map[1 := Reading, 2 := Reading, 3 := Reading]);
    var s4 := START.(phase := map[1 := Reading, 2 := Reading, 3 := Reading, 4 := Reading]);
    assert Step(START, Unknown(1)) == s1 && Step(s1, Unknown(2)) == s2;
    assert Step(s2, Unknown(3)) == s3 && Step(s3, Unknown(4)) == s4;
    var identified := FourIdentified(s4);
    hide Step, Run, Possible;
    RunCons(s3, Unknown(4), identified);
    RunCons(s2, Unknown(3), [Unknown(4)] + identified);
    RunCons(s1, Unknown(2), [Unknown(3)] + ([Unknown(4)] + identified));
    RunCons(START, Unknown(1), [Unknown(2)] + ([Unknown(3)] + ([Unknown(4)] + identified)));
  }

  lemma {:induction false} FourIdentified(s: State) returns (events: seq<Event>)
    requires s == START.(phase := map[1 := Reading, 2 := Reading, 3 := Reading, 4 := Reading])
    ensures Possible(s, events) && Run(s, events) == FOUR_WAIT
  {
    var e1, e2, e3, e4 := Identify(1, Bridge), Identify(2, Doorbell), Identify(3, Bridge), Identify(4, Doorbell);
    var s1 := Step(s, e1);
    var s2 := Step(s1, e2);
    var s3 := Step(s2, e3);
    var s4 := Step(s3, e4);
    assert s4 == FOUR_WAIT;
    hide Step, Run, Possible;
    NoEvents(s4);
    RunCons(s3, e4, []);
    RunCons(s2, e3, [e4] + []);
    RunCons(s1, e2, [e3] + ([e4] + []));
    RunCons(s, e1, [e2] + ([e3] + ([e4] + [])));
    events := [e1] + ([e2] + ([e3] + ([e4] + [])));
  }

  // The bridge 1 has taken the doorbell 2, and then 3 has taken 4, under the same link id.
  const ONE_PAIR: State :=
    FOUR_WAIT.(bridges := [3], doorbells := [4], table := map[1 := Pair(1, 2, 1, true)],
               phase := FOUR_WAIT.phase[1 := Relaying], pairs := [Pair(1, 2, 1, true)])

  const TWO_PAIRS: State :=
    ONE_PAIR.(bridges := [], doorbells := [], table := map[1 := Pair(3, 4, 1, true)],
              phase := ONE_PAIR.phase[3 := Relaying], pairs := [Pair(1, 2, 1, true), Pair(3, 4, 1, true)])

  // A wake-up of c in state s takes its handler to phase p.
  predicate Becomes(s: State, c: Conn, p: Phase) {
    Enabled(s, Poll(c, false)) && c in Step(s, Poll(c, false)).phase && Step(s, Poll(c, false)).phase[c] == p
  }

  predicate Leads(s: State, e: Event, t: State) {
    Enabled(s, e) && Step(s, e) == t
  }

  lemma {:induction false} FirstPairing()
    ensures Leads(FOUR_WAIT, Poll(1, false), ONE_PAIR)
  {
    assert Step(FOUR_WAIT, Poll(1, false)).table == map[1 := Pair(1, 2, 1, true)];
  }

  lemma {:induction false} SecondPairing()
    ensures Leads(ONE_PAIR, Poll(3, false), TWO_PAIRS)
  {
    var two := Step(ONE_PAIR, Poll(3, false));
    assert two.table == map[1 := Pair(3, 4, 1, true)];
    assert two.pairs == [Pair(1, 2, 1, true)] + [Pair(3, 4, 1, true)];
  }

  lemma {:induction false} RelaysBetween()
    ensures Becomes(ONE_PAIR, 2, Relaying)
  {
    assert ONE_PAIR.table[1].Side(Doorbell) == 2;
  }

  lemma {:induction false} ClosedAfter()
    ensures Becomes(TWO_PAIRS, 2, Closed)
  {
    assert TWO_PAIRS.table[1].Side(Doorbell) == 4;
  }

  lemma {:induction false} RunSnoc(s: State, events: seq<Event>, e: Event, t: State)
    requires Possible(s, events) && Leads(Run(s, events), e, t)
    ensures Possible(s, events + [e]) && Run(s, events + [e]) == t
    decreases |events|
  {
    hide Step, Enabled;
    if events == [] {
      NoEvents(t);
      RunCons(s, e, []);
      assert [] + [e] == [e] + [];
    } else {
      RunSnoc(Step(s, events[0]), events[1..], e, t);
      assert (events + [e])[1..] == events[1..] + [e];
    }
  }

  // An overwritten pair: there is a run in which the doorbell 2 relays if it wakes up between the
  // two pairings and is closed if it wakes up after them.
  lemma {:induction false} OverwrittenPair()
    ensures
      exists events :: Possible(START, events) && Run(START, events) == FOUR_WAIT
        && Possible(START, events + [Poll(1, false)]) && Run(START, events + [Poll(1, false)]) == ONE_PAIR
        && Possible(START, events + [Poll(1, false)] + [Poll(3, false)])
        && Run(START, events + [Poll(1, false)] + [Poll(3, false)]) == TWO_PAIRS
    ensures Becomes(ONE_PAIR, 2, Relaying) && Becomes(TWO_PAIRS, 2, Closed)
  {
    hide Run, Possible, Leads, Becomes;
    FourWaitIsReachable();
    FirstPairing();
    SecondPairing();
    RelaysBetween();
    ClosedAfter();
    var events :| Possible(START, events) && Run(START, events) == FOUR_WAIT;
    RunSnoc(START, events, Poll(1, false), ONE_PAIR);
    RunSnoc(START, events + [Poll(1, false)], Poll(3, false), TWO_PAIRS);
  }

  // ---------------------------------------------------------------- runs where every role is known on arrival

  predicate RoleKnown(e: Event) {
    !e.Identify? && (e.Arrive? ==> e.known.Some?)
  }

  // Then only one side ever waits, and no pair reaches mtp_pairs.
  predicate OneSided(s: State) {
    (s.bridges == [] || s.doorbells == []) && s.table == map[]
  }

  lemma {:induction false} OneSidedStep(s: State, e: Event)
    requires Inv(s) && OneSided(s) && Enabled(s, e) && RoleKnown(e)
    ensures OneSided(Step(s, e))
  {
    hide Members, Distinct, Sorted;
    if e.Poll? && e.conn in s.Queue(s.role[e.conn]) {
      RemoveTakesOne(s.Queue(s.role[e.conn]), e.conn, s.since);
    }
  }

  lemma {:induction false} OneSidedRun(s: State, events: seq<Event>)
    requires Inv(s) && OneSided(s) && Possible(s, events) && forall e :: e in events ==> RoleKnown(e)
    ensures OneSided(Run(s, events)) && Inv(Run(s, events))
    decreases |events|
  {
    hide Inv, Step, Enabled, OneSided;
    if events != [] {
      StepKeeps(s, events[0]);
      OneSidedStep(s, events[0]);
      OneSidedRun(Step(s, events[0]), events[1..]);
    }
  }

  // One queue is always empty; and the handler of a connection taken by an arriving partner
  // never learns of its pair: its next poll closes it.
  lemma {:induction false} KnownRolesStrandTheWaiter(events: seq<Event>)
    requires Possible(START, events) && forall e :: e in events ==> RoleKnown(e)
    ensures var s := Run(START, events);
            && (s.bridges == [] || s.doorbells == [])
            && forall c, late :: Enabled(s, Poll(c, late)) && c !in s.Queue(s.role[c]) ==>
                 c in Members(s.pairs) && Step(s, Poll(c, late)).phase[c] == Closed
  {
    var s := Run(START, events);
    assert Inv(START);
    OneSidedRun(START, events);
    hide Run, Possible, Members, Distinct, Sorted, MayWait;
    forall c, late | Enabled(s, Poll(c, late)) && c !in s.Queue(s.role[c])
      ensures c in Members(s.pairs) && Step(s, Poll(c, late)).phase[c] == Closed
    {
      assert Placed(s, c);
    }
  }

  // A stranded waiter: the bridge that was there first is closed, its doorbell relays.
  lemma {:induction false} StrandedRun()
    ensures
      var events := [Arrive(1, Some(Bridge))] + ([Arrive(2, Some(Doorbell))] + ([Poll(1, false)] + []));
      && Possible(START, events) && (forall e :: e in events ==> RoleKnown(e))
      && Run(START, events).phase == map[1 := Closed, 2 := Relaying]
  {
    var e1, e2, e3 := Arrive(1, Some(Bridge)), Arrive(2, Some(Doorbell)), Poll(1, false);
    var s1 := Step(START, e1);
    var s2 := Step(s1, e2);
    var s3 := Step(s2, e3);
    assert s1.bridges == [1] && s1.doorbells == [];
    assert s2.bridges == [] && s2.doorbells == [] && s2.table == map[];
    assert s3.phase == map[1 := Closed, 2 := Relaying];
    hide Step, Enabled, Run, Possible;
    NoEvents(s3);
    RunCons(s2, e3, []);
    RunCons(s1, e2, [e3] + []);
    RunCons(START, e1, [e2] + ([e3] + []));
  }

  // The outcomes of a poll, and the pair it hands to the relay loop.
  lemma {:induction false} PollOutcome(s: State, c: Conn, late: bool)
    requires Inv(s) && Enabled(s, Poll(c, late))
    ensures
      var r, t := s.role[c], Step(s, Poll(c, late));
      && Inv(t) && c in t.phase
      && (t.phase[c] == Waiting <==> c in s.Queue(r) && s.Queue(Other(r)) == [] && !late)
      && (t.phase[c] == Relaying <==>
            if c in s.Queue(r) then s.Queue(Other(r)) != [] else InTable(s.table, c, r))
      && (c in s.Queue(r) && s.Queue(Other(r)) != [] ==> NewPair(s, c, r, true) in t.pairs)
      && (c !in s.Queue(r) ==> forall l :: l in s.table ==> s.table[l] in t.pairs && s.table[l].recorded)
  {
    PollKeeps(s, c, late);
    hide Members, Distinct, Sorted, MayWait, Placed, InTable, Remove;
    var r, t := s.role[c], Step(s, Poll(c, late));
    if c in s.Queue(r) && s.Queue(Other(r)) != [] {
      assert t.pairs[|s.pairs|] == NewPair(s, c, r, true);
    }
  }

  // ---------------------------------------------------------------- the relay's own fields

  datatype Outcome = KeepWaiting | Got(pair: Pair) | GiveUp

  class MtpRelay {
    var pendingBridges: seq<Conn>
    var pendingDoorbells: seq<Conn>
    var pairs: map<nat, Pair>
    var linkCounter: nat
    var roles: map<Conn, Role>
    ghost var run: State

    ghost predicate Valid()
      reads this
    {
      && Inv(run) && run.bridges == pendingBridges && run.doorbells == pendingDoorbells
      && run.table == pairs && run.link == linkCounter && run.role == roles
    }

    constructor ()
      ensures Valid() && run == START
    {
      pendingBridges, pendingDoorbells, pairs, linkCounter, roles := [], [], map[], 1, map[];
      run := START;
    }

    // _try_pair_bridge and _try_pair_doorbell
    method TryPair(conn: Conn, role: Role) returns (paired: Option<Pair>)
      requires pendingBridges == run.bridges && pendingDoorbells == run.doorbells && linkCounter == run.link
      modifies `pendingBridges, `pendingDoorbells
      ensures paired.Some? <==> old(run.Queue(Other(role))) != []
      ensures paired.Some? ==>
        var t := Join(old(run), conn, role, false);
        && paired.value == NewPair(old(run), conn, role, false)
        && pendingBridges == t.bridges && pendingDoorbells == t.doorbells
      ensures paired.None? ==> pendingBridges == old(pendingBridges) && pendingDoorbells == old(pendingDoorbells)
    {
      match role
      case Bridge =>
        if pendingDoorbells == [] { return None; }
        paired := Some(Pair(conn, pendingDoorbells[0], linkCounter, false));
        pendingDoorbells := pendingDoorbells[1..];
      case Doorbell =>
        if pendingBridges == [] { return None; }
        paired := Some(Pair(pendingBridges[0], conn, linkCounter, false));
        pendingBridges := pendingBridges[1..];
    }

    method Append(conn: Conn, role: Role)
      modifies `pendingBridges, `pendingDoorbells
      ensures pendingBridges == if role.Bridge? then old(pendingBridges) + [conn] else old(pendingBridges)
      ensures pendingDoorbells == if role.Bridge? then old(pendingDoorbells) else old(pendingDoorbells) + [conn]
    {
      if role.Bridge? { pendingBridges := pendingBridges + [conn]; }
      else { pendingDoorbells := pendingDoorbells + [conn]; }
    }

    // _tcp_handle_client up to its first await.
    method Accept(conn: Conn, known: Option<Role>) returns (paired: Option<Pair>)
      requires Valid() && conn !in run.phase
      modifies this
      ensures Valid() && run == Step(old(run), Arrive(conn, known))
      ensures run.pairs == old(run.pairs) + (if paired.Some? then [paired.value] else [])
    {
      hide Inv;
      StepKeeps(run, Arrive(conn, known));
      ghost var t := Step(run, Arrive(conn, known));
      paired := None;
      if known.Some? {
        roles := roles[conn := known.value];
        run := Admit(run, conn, known.value);
        paired := TryPair(conn, known.value);
        if paired.None? { Append(conn, known.value); }
      }
      run := t;
    }

    // The first frame gave the role: no pairing is tried here.
    method Identified(conn: Conn, role: Role)
      requires Valid() && Enabled(run, Identify(conn, role))
      modifies this
      ensures Valid() && run == Step(old(run), Identify(conn, role))
    {
      hide Inv;
      StepKeeps(run, Identify(conn, role));
      roles := roles[conn := role];
      Append(conn, role);
      run := Step(run, Identify(conn, role));
    }

    // mtp_pending_*.remove
    method Drop(conn: Conn, role: Role)
      requires pendingBridges == run.bridges && pendingDoorbells == run.doorbells
      modifies `pendingBridges, `pendingDoorbells
      ensures
        var t := SetQueue(run, role, Remove(run.Queue(role), conn));
        pendingBridges == t.bridges && pendingDoorbells == t.doorbells
    {
      if role.Bridge? { pendingBridges := Remove(pendingBridges, conn); }
      else { pendingDoorbells := Remove(pendingDoorbells, conn); }
    }

    // Looking for the pair that has us.
    method Find(conn: Conn, role: Role) returns (outcome: Outcome)
      ensures outcome == GiveUp || outcome.Got?
      ensures outcome.Got? <==> InTable(pairs, conn, role)
      ensures outcome.Got? ==> outcome.pair.Side(role) == conn && exists l :: l in pairs && pairs[l] == outcome.pair
    {
      if l :| l in pairs && pairs[l].Side(role) == conn {
        outcome := Got(pairs[l]);
      } else {
        outcome := GiveUp;
      }
    }

    // The waiting side takes the head of the other queue, and this time the pair is recorded.
    method Take(conn: Conn, role: Role) returns (pair: Pair)
      requires pendingBridges == run.bridges && pendingDoorbells == run.doorbells && linkCounter == run.link
      requires pairs == run.table
      requires run.Queue(Other(role)) != []
      modifies `pendingBridges, `pendingDoorbells, `pairs
      ensures
        var t := Join(SetQueue(run, role, Remove(run.Queue(role), conn)), conn, role, true);
        pendingBridges == t.bridges && pendingDoorbells == t.doorbells && pairs == t.table
      ensures pair == NewPair(run, conn, role, true)
    {
      hide Remove;
      match role
      case Bridge =>
        pair := Pair(conn, pendingDoorbells[0], linkCounter, true);
        pendingDoorbells := pendingDoorbells[1..];
        pendingBridges := Remove(pendingBridges, conn);
        pairs := pairs[linkCounter := pair];
      case Doorbell =>
        pair := Pair(pendingBridges[0], conn, linkCounter, true);
        pendingBridges := pendingBridges[1..];
        pendingDoorbells := Remove(pendingDoorbells, conn);
        pairs := pairs[linkCounter := pair];
    }

    // One turn of the loop in _wait_for_pair, from waking up to sleeping again or returning;
    // late: the time limit has passed when the turn ends.
    method WakeUp(conn: Conn, late: bool) returns (outcome: Outcome)
      requires Valid() && Enabled(run, Poll(conn, late))
      modifies this
      ensures Valid() && run == Step(old(run), Poll(conn, late))
      ensures outcome.KeepWaiting? <==> run.phase[conn] == Waiting
      ensures outcome.Got? <==> run.phase[conn] == Relaying
      ensures outcome.Got? ==> outcome.pair in run.pairs && outcome.pair.Has(conn) && outcome.pair.recorded
    {
      hide Inv, Remove, InTable;
      ghost var t := Step(run, Poll(conn, late));
      PollOutcome(run, conn, late);
      var role := roles[conn];
      var mine := if role.Bridge? then pendingBridges else pendingDoorbells;
      var theirs := if role.Bridge? then pendingDoorbells else pendingBridges;
      if conn !in mine {
        outcome := Find(conn, role);
      } else if theirs != [] {
        var pair := Take(conn, role);
        outcome := Got(pair);
      } else if late {
        Drop(conn, role);
        outcome := GiveUp;
      } else {
        outcome := KeepWaiting;
      }
      run := t;
    }
  }
}
