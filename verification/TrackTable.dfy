// The sniffer's table of the addresses it has seen (track_address), against the history of
// sightings since the last reset.
module TrackTable {
  import opened Bytes

  const CAPACITY: nat := 128   // MAX_TRACKED_ADDRS

  // addr has 2 or 8 bytes, or none when the frame carries no address.
  datatype Sighting = Sighting(addr: seq<byte>, pan: nat, channel: nat, rssi: int, now: nat)

  datatype Entry = Entry(addr: seq<byte>, pan: nat, lastChannel: nat, bestRssi: int, count: nat,
                         firstSeen: nat, lastSeen: nat)

  function Fresh(s: Sighting): Entry {
    Entry(s.addr, s.pan, s.channel, s.rssi, 1, s.now, s.now)
  }

  function Updated(e: Entry, s: Sighting): Entry {
    e.(count := (e.count + 1) % 0x1_0000_0000, lastSeen := s.now, lastChannel := s.channel,
       bestRssi := if s.rssi > e.bestRssi then s.rssi else e.bestRssi)
  }

  // The index of an address, or the length of the table.
  function Find(t: seq<Entry>, a: seq<byte>): (i: nat)
    ensures i <= |t| && (i < |t| ==> t[i].addr == a)
    ensures forall j :: 0 <= j < i ==> t[j].addr != a
  {
    if t == [] then 0 else if t[0].addr == a then 0 else 1 + Find(t[1..], a)
  }

  function Track(t: seq<Entry>, s: Sighting): seq<Entry> {
    if s.addr == [] then t
    else
      var i := Find(t, s.addr);
      if i < |t| then t[i := Updated(t[i], s)]
      else if |t| < CAPACITY then t + [Fresh(s)]
      else t
  }

  // ---------------------------------------------------------------- what the history says

  function Table(h: seq<Sighting>): seq<Entry> {
    if h == [] then [] else Track(Table(h[..|h| - 1]), h[|h| - 1])
  }

  // The different addresses in order of first sighting.
  function Keys(h: seq<Sighting>): seq<seq<byte>> {
    if h == [] then []
    else
      var before, a := Keys(h[..|h| - 1]), h[|h| - 1].addr;
      if a == [] || a in before then before else before + [a]
  }

  // The sightings of one address.
  function Of(h: seq<Sighting>, a: seq<byte>): seq<Sighting> {
    if h == [] then []
    else Of(h[..|h| - 1], a) + (if h[|h| - 1].addr == a then [h[|h| - 1]] else [])
  }

  // An entry summarises sightings f: how many, the first, the last and the strongest.
  ghost predicate Summary(e: Entry, f: seq<Sighting>) {
    && f != [] && e.count == |f| % 0x1_0000_0000
    && e.firstSeen == f[0].now && e.pan == f[0].pan
    && e.lastSeen == f[|f| - 1].now && e.lastChannel == f[|f| - 1].channel
    && (forall i :: 0 <= i < |f| ==> f[i].rssi <= e.bestRssi)
    && (exists i :: 0 <= i < |f| && f[i].rssi == e.bestRssi)
  }

  predicate Lists(t: seq<Entry>, keys: seq<seq<byte>>) {
    && |t| == (if |keys| < 128 then |keys| else 128)
    && forall i :: 0 <= i < |t| ==> t[i].addr == keys[i]
  }

  ghost predicate Summarises(t: seq<Entry>, h: seq<Sighting>) {
    forall i :: 0 <= i < |t| ==> Summary(t[i], Of(h, t[i].addr))
  }

  ghost predicate AllDifferent(keys: seq<seq<byte>>) {
    forall i, j :: 0 <= i < j < |keys| ==> keys[i] != keys[j]
  }

  lemma {:induction false} UpdateSummarises(e: Entry, f: seq<Sighting>, s: Sighting)
    requires Summary(e, f)
    ensures Summary(Updated(e, s), f + [s])
  {
    var g := f + [s];
    var i :| 0 <= i < |f| && f[i].rssi == e.bestRssi;
    assert g[i].rssi == e.bestRssi && g[|f|].rssi == s.rssi;
  }

  lemma {:induction false} FreshSummarises(s: Sighting)
    ensures Summary(Fresh(s), [s])
  {
    assert [s][0].rssi == s.rssi;
  }

  // Addresses not among the keys have not been sighted.
  lemma {:induction false} KeysAreSighted(h: seq<Sighting>, a: seq<byte>)
    requires a != []
    ensures a in Keys(h) <==> Of(h, a) != []
  {
    if h != [] { KeysAreSighted(h[..|h| - 1], a); }
  }

  lemma {:induction false} KeysDiffer(h: seq<Sighting>)
    ensures AllDifferent(Keys(h)) && [] !in Keys(h)
  {
    if h != [] { KeysDiffer(h[..|h| - 1]); }
  }

  lemma {:induction false} TrackLists(t: seq<Entry>, keys: seq<seq<byte>>, s: Sighting)
    requires Lists(t, keys)
    ensures Lists(Track(t, s), if s.addr == [] || s.addr in keys then keys else keys + [s.addr])
  {
    hide Updated;
    var i := Find(t, s.addr);
    if i < |t| {
      assert keys[i] == s.addr;
      UpdatedAddr(t[i], s);
    } else if |t| < CAPACITY {
      NotListed(t, keys, s.addr);
    }
  }

  lemma UpdatedAddr(e: Entry, s: Sighting)
    ensures Updated(e, s).addr == e.addr
  {
  }

  lemma {:induction false} OfGrows(h: seq<Sighting>, s: Sighting, a: seq<byte>)
    ensures Of(h + [s], a) == Of(h, a) + (if s.addr == a then [s] else [])
  {
    assert (h + [s])[..|h|] == h;
  }

  lemma {:induction false} TrackSummarises(t: seq<Entry>, h: seq<Sighting>, s: Sighting)
    requires Lists(t, Keys(h)) && Summarises(t, h)
    ensures Summarises(Track(t, s), h + [s])
  {
    hide Summary, Updated, Fresh, Of, Keys, Lists;
    var u, i := Track(t, s), Find(t, s.addr);
    KeysDiffer(h);
    forall j | 0 <= j < |u| ensures Summary(u[j], Of(h + [s], u[j].addr)) {
      OfGrows(h, s, u[j].addr);
      if j == |t| {
        FreshAddr(s);
        NotListed(t, Keys(h), s.addr);
        KeysAreSighted(h, s.addr);
        FreshSummarises(s);
        assert [] + [s] == [s];
      } else if s.addr != [] && j == i {
        UpdatedAddr(t[i], s);
        UpdateSummarises(t[i], Of(h, s.addr), s);
      } else {
        SameAddrSameRow(t, Keys(h), i, j, s.addr);
        assert Of(h, t[j].addr) + [] == Of(h, t[j].addr);
      }
    }
  }

  lemma FreshAddr(s: Sighting)
    ensures Fresh(s).addr == s.addr
  {
  }

  lemma {:induction false} NotListed(t: seq<Entry>, keys: seq<seq<byte>>, a: seq<byte>)
    requires Lists(t, keys) && |t| < CAPACITY && Find(t, a) == |t|
    ensures a !in keys
  {
    forall k | 0 <= k < |keys| ensures keys[k] != a { assert t[k].addr == keys[k]; }
  }

  lemma {:induction false} SameAddrSameRow(t: seq<Entry>, keys: seq<seq<byte>>, i: nat, j: nat, a: seq<byte>)
    requires Lists(t, keys) && AllDifferent(keys) && [] !in keys && i == Find(t, a) && j < |t|
    requires a == [] || i != j
    ensures t[j].addr != a
  {
    assert t[j].addr == keys[j];
    if i < |t| { assert t[i].addr == keys[i]; }
  }

  // After any sightings the table lists the first 128 different addresses in order of first
  // sighting, and each row sums up all the sightings of its address.
  lemma {:induction false} TableAgreesWithHistory(h: seq<Sighting>)
    ensures Lists(Table(h), Keys(h)) && Summarises(Table(h), h)
  {
    hide Track, Lists, Summarises, Of;
    if h == [] {
      EmptyTable();
    } else {
      var before, s := h[..|h| - 1], h[|h| - 1];
      TableAgreesWithHistory(before);
      TrackLists(Table(before), Keys(before), s);
      TrackSummarises(Table(before), before, s);
      assert before + [s] == h;
    }
  }

  lemma {:induction false} EmptyTable()
    ensures Lists([], []) && Summarises([], [])
  {
  }

  // ---------------------------------------------------------------- the sniffer's arrays

  class Tracker {
    const addrs: array<Entry>   // g_addrs
    var count: nat              // g_addr_count
    ghost var history: seq<Sighting>

    ghost predicate Valid()
      reads this, addrs
    {
      addrs.Length == CAPACITY && count <= CAPACITY && addrs[..count] == Table(history)
    }

    constructor ()
      ensures Valid() && history == [] && fresh(addrs)
    {
      addrs := new Entry[CAPACITY](_ => Entry([], 0, 0, 0, 0, 0, 0));
      count, history := 0, [];
    }

    // reset_stats
    method Reset()
      requires Valid()
      modifies this
      ensures Valid() && history == []
    {
      count, history := 0, [];
    }

    method TrackAddress(s: Sighting)
      requires Valid()
      modifies this, addrs
      ensures Valid() && history == old(history) + [s]
    {
      hide Table, Updated, Fresh, Track;
      ghost var t := addrs[..count];
      ghost var after := history + [s];
      HistoryGrows(history, s);
      history := after;
      TrackCases(t, s);
      if |s.addr| == 0 { return; }
      var i := 0;
      while i < count
        invariant i <= count == old(count) && history == after && addrs[..count] == t
        invariant forall j :: 0 <= j < i ==> t[j].addr != s.addr
      {
        if addrs[i].addr == s.addr {
          FindIs(t, s.addr, i);
          addrs[i] := Updated(addrs[i], s);
          assert addrs[..count] == t[i := Updated(t[i], s)];
          return;
        }
        i := i + 1;
      }
      FindIs(t, s.addr, count);
      if count < CAPACITY {
        addrs[count] := Fresh(s);
        count := count + 1;
        assert addrs[..count] == t + [Fresh(s)];
      }
    }
  }

  lemma {:induction false} HistoryGrows(h: seq<Sighting>, s: Sighting)
    ensures Table(h + [s]) == Track(Table(h), s)
  {
    hide Track;
    assert (h + [s])[..|h|] == h;
  }

  lemma {:induction false} FindIs(t: seq<Entry>, a: seq<byte>, i: nat)
    requires i <= |t| && (i < |t| ==> t[i].addr == a) && forall j :: 0 <= j < i ==> t[j].addr != a
    ensures Find(t, a) == i
  {
    if i > 0 {
      assert t[0].addr != a;
      FindIs(t[1..], a, i - 1);
    }
  }

  lemma {:induction false} TrackCases(t: seq<Entry>, s: Sighting)
    ensures
      var i := Find(t, s.addr);
      Track(t, s) == if s.addr == [] then t
                     else if i < |t| then t[i := Updated(t[i], s)]
                     else if |t| < CAPACITY then t + [Fresh(s)]
                     else t
  {
    hide Updated, Fresh, Find;
  }
}
