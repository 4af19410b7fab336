// The broadcast manager's intrusive list: circular, doubly linked, with the manager's own head
// and tail pointers as the sentinel.  Both operations run under the manager's mutex.
module BroadcastList {
  import opened Bytes

  datatype Entry = Entry(deviceId: int, addr: nat, port: nat)

  // A scan looks for a nonzero address and, unless it asks for id 0, for the id.
  predicate Matches(e: Entry, dst: int) {
    e.addr != 0 && (dst == 0 || e.deviceId == dst)
  }

  function FirstMatch(es: seq<Entry>, dst: int): Option<Entry> {
    if es == [] then None else if Matches(es[0], dst) then Some(es[0]) else FirstMatch(es[1..], dst)
  }

  // The answer is the first match, and there is none only if nothing matches.
  lemma {:induction false} FirstMatchIsFirst(es: seq<Entry>, dst: int)
    ensures FirstMatch(es, dst).None?
       <==> forall i :: 0 <= i < |es| ==> es[i].addr == 0 || (dst != 0 && es[i].deviceId != dst)
    ensures FirstMatch(es, dst).Some? ==>
              exists i :: 0 <= i < |es| && es[i] == FirstMatch(es, dst).value
                && es[i].addr != 0 && (dst == 0 || es[i].deviceId == dst)
                && forall j :: 0 <= j < i ==> es[j].addr == 0 || (dst != 0 && es[j].deviceId != dst)
  {
    if es != [] && !Matches(es[0], dst) {
      FirstMatchIsFirst(es[1..], dst);
      assert forall i :: 0 < i < |es| ==> es[i] == es[1..][i - 1];
      if FirstMatch(es, dst).Some? {
        var i :| 0 <= i < |es[1..]| && es[1..][i] == FirstMatch(es, dst).value
                 && es[1..][i].addr != 0 && (dst == 0 || es[1..][i].deviceId == dst)
                 && forall j :: 0 <= j < i ==> es[1..][j].addr == 0 || (dst != 0 && es[1..][j].deviceId != dst);
        assert es[i + 1] == FirstMatch(es, dst).value;
      }
    }
  }

  // Appending an entry never hides an earlier match; and if it matches, a search succeeds.
  lemma {:induction false} MatchAfterAppend(es: seq<Entry>, e: Entry, dst: int)
    ensures FirstMatch(es + [e], dst)
            == if FirstMatch(es, dst).Some? then FirstMatch(es, dst) else if Matches(e, dst) then Some(e) else None
  {
    if es != [] {
      assert (es + [e])[1..] == es[1..] + [e];
      MatchAfterAppend(es[1..], e, dst);
    } else {
      assert (es + [e])[1..] == [];
    }
  }

  class Node {
    const entry: Entry
    var next: Node
    var prev: Node

    // The manager's head and tail pointers, both pointing to themselves at first.
    constructor Sentinel()
      ensures next == this && prev == this
    {
      entry := Entry(0, 0, 0);
      next, prev := this, this;
    }

    constructor Linked(entry: Entry, next: Node, prev: Node)
      ensures this.entry == entry && this.next == next && this.prev == prev
    {
      this.entry, this.next, this.prev := entry, next, prev;
    }
  }

  function EntriesOf(nodes: seq<Node>): (es: seq<Entry>)
    ensures |es| == |nodes| && forall i :: 0 <= i < |es| ==> es[i] == nodes[i].entry
  {
    seq(|nodes|, i requires 0 <= i < |nodes| => nodes[i].entry)
  }

  class Manager {
    const head: Node         // list_head (its next) and list_tail (its prev)
    ghost var nodes: seq<Node>

    ghost function Ring(): seq<Node>
      reads this
    {
      [head] + nodes
    }

    // The nodes are different, and the links go once round, forwards and backwards.
    ghost predicate Valid()
      reads this, head, nodes
    {
      var r := Ring();
      && (forall i, j :: 0 <= i < j < |r| ==> r[i] != r[j])
      && (forall i :: 0 <= i < |r| - 1 ==> r[i].next == r[i + 1])
      && (forall i :: 0 < i < |r| ==> r[i].prev == r[i - 1])
      && r[|r| - 1].next == head && head.prev == r[|r| - 1]
    }

    ghost function Contents(): seq<Entry>
      reads this
    {
      EntriesOf(nodes)
    }

    constructor ()
      ensures Valid() && Contents() == [] && fresh(head)
    {
      head := new Node.Sentinel();
      nodes := [];
    }

    // inject; addr is what inet_pton made of the address string, None if it could not.
    method Inject(dst: int, addr: Option<nat>, port: nat) returns (injected: bool)
      requires Valid()
      modifies this, head, nodes
      ensures Valid()
      ensures injected <==> dst != 0 && addr.Some?
      ensures Contents() == old(Contents()) + if injected then [Entry(dst, addr.value, port)] else []
      ensures old(nodes) <= nodes && fresh(nodes[|old(nodes)|..])
    {
      if dst == 0 || addr.None? { return false; }
      var tail := head.prev;
      var entry := new Node.Linked(Entry(dst, addr.value, port), head, tail);
      ghost var r := Ring();
      assert tail == r[|r| - 1];
      tail.next := entry;
      head.prev := entry;
      nodes := nodes + [entry];
      assert Ring() == r + [entry];
      return true;
    }

    // One locked traversal of poll.
    method Scan(dst: int) returns (found: Option<Entry>)
      requires Valid()
      ensures found == FirstMatch(Contents(), dst)
    {
      ghost var r := Ring();
      var current := head.next;
      ghost var i: nat := 0;
      assert r[0] == head;
      assert forall k :: 0 < k < |r| ==> r[k] != head;
      while current != head
        invariant i <= |nodes|
        invariant current == if i == |nodes| then head else r[i + 1]
        invariant FirstMatch(Contents(), dst) == FirstMatch(Contents()[i..], dst)
        decreases |nodes| - i
      {
        var e := current.entry;
        assert r[i + 1] == nodes[i];
        assert Contents()[i..][0] == e && Contents()[i..][1..] == Contents()[i + 1..];
        if e.addr != 0 && (dst == 0 || e.deviceId == dst) {
          return Some(e);
        }
        current := current.next;
        i := i + 1;
      }
      return None;
    }

    // After a nonzero address was injected, a search for that id succeeds.
    method InjectThenScan(dst: int, addr: nat, port: nat) returns (found: Option<Entry>)
      requires Valid() && dst != 0 && addr != 0
      modifies this, head, nodes
      ensures Valid() && found.Some? && found.value.deviceId == dst && found.value.addr != 0
      ensures found.value == FirstMatch(old(Contents()), dst).GetOr(Entry(dst, addr, port))
    {
      MatchAfterAppend(Contents(), Entry(dst, addr, port), dst);
      FirstMatchIsFirst(Contents() + [Entry(dst, addr, port)], dst);
      var injected := Inject(dst, Some(addr), port);
      found := Scan(dst);
    }
  }
}
