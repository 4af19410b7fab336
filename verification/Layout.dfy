// A frame buffer filled by struct.pack_into calls, as a table of (offset, bytes) fields.
// Bytes that no field covers stay 0, as bytearray(n) leaves them.
module Layout {
  import opened Bytes

  datatype Field = At(off: nat, bytes: seq<byte>)
  {
    function End(): nat { off + |bytes| }
  }

  // Fields in ascending order, without overlap, inside a buffer of n bytes.
  predicate InOrder(n: nat, t: seq<Field>) {
    |t| == 0 || (t[|t| - 1].End() <= n && InOrder(t[|t| - 1].off, t[..|t| - 1]))
  }

  // The same, neighbour by neighbour.
  predicate Ascending(n: nat, t: seq<Field>) {
    && (|t| > 0 ==> t[|t| - 1].End() <= n)
    && forall j, k :: 0 <= j < k < |t| ==> t[j].End() <= t[k].off
  }

  lemma {:induction false} AscendingInOrder(n: nat, t: seq<Field>)
    requires Ascending(n, t)
    ensures InOrder(n, t)
    decreases |t|
  {
    if |t| > 1 {
      assert t[|t| - 2].End() <= t[|t| - 1].off;
      AscendingInOrder(t[|t| - 1].off, t[..|t| - 1]);
    }
  }

  lemma {:induction false} InOrderWider(m: nat, n: nat, t: seq<Field>)
    requires InOrder(m, t) && m <= n
    ensures InOrder(n, t)
  {}

  // The buffer after all the writes.
  function Render(n: nat, t: seq<Field>): (f: seq<byte>)
    requires InOrder(n, t)
    ensures |f| == n
  {
    if |t| == 0 then Zeros(n)
    else
      InOrderWider(t[|t| - 1].off, n, t[..|t| - 1]);
      Put(Render(n, t[..|t| - 1]), t[|t| - 1].off, t[|t| - 1].bytes)
  }

  lemma {:induction false} EndsBefore(n: nat, t: seq<Field>, k: nat)
    requires InOrder(n, t) && k < |t|
    ensures t[k].End() <= n
  {
    if k < |t| - 1 { EndsBefore(t[|t| - 1].off, t[..|t| - 1], k); }
  }

  // Every field can be read back: no later write touches it.
  lemma {:induction false} FieldAt(n: nat, t: seq<Field>, k: nat)
    requires InOrder(n, t) && k < |t|
    ensures t[k].End() <= n && Render(n, t)[t[k].off..t[k].End()] == t[k].bytes
  {
    hide Put;
    var last := t[|t| - 1];
    EndsBefore(n, t, k);
    if k < |t| - 1 {
      InOrderWider(last.off, n, t[..|t| - 1]);
      EndsBefore(last.off, t[..|t| - 1], k);
      FieldAt(n, t[..|t| - 1], k);
    }
  }

  // The bytes between two neighbouring fields (or after the last one) are 0.
  lemma {:induction false} GapAfter(n: nat, t: seq<Field>, k: nat, b: nat)
    requires InOrder(n, t) && k < |t|
    requires t[k].End() <= b <= (if k + 1 < |t| then t[k + 1].off else n)
    ensures b <= n && Render(n, t)[t[k].End()..b] == Zeros(b - t[k].End())
  {
    hide Put;
    var last, rest := t[|t| - 1], t[..|t| - 1];
    if k + 1 < |t| { EndsBefore(n, t, k + 1); }
    if k < |t| - 1 {
      InOrderWider(last.off, n, rest);
      if k + 1 < |t| - 1 { EndsBefore(last.off, rest, k + 1); }
      GapAfter(n, rest, k, b);
    } else {
      UntouchedAfter(n, rest, last.off, last.End(), b);
    }
  }

  lemma {:induction false} UntouchedAfter(n: nat, t: seq<Field>, m: nat, a: nat, b: nat)
    requires InOrder(m, t) && m <= a <= b <= n
    ensures InOrder(n, t) && Render(n, t)[a..b] == Zeros(b - a)
  {
    hide Put;
    InOrderWider(m, n, t);
    if |t| > 0 {
      UntouchedAfter(n, t[..|t| - 1], t[|t| - 1].off, a, b);
    }
  }

  // bytearray(n) and then the writes, in place.
  method Fill(n: nat, t: seq<Field>) returns (buf: array<byte>)
    requires InOrder(n, t)
    ensures fresh(buf) && buf[..] == Render(n, t)
  {
    buf := new byte[n](_ => 0);
    assert buf[..] == Zeros(n);
    for k := 0 to |t|
      invariant InOrder(n, t[..k])
      invariant buf[..] == Render(n, t[..k])
    {
      hide Put;
      PrefixInOrder(n, t, k + 1);
      assert t[..k + 1][..k] == t[..k];
      Write(buf, t[k].off, t[k].bytes);
    }
    assert t[..|t|] == t;
  }

  lemma {:induction false} PrefixInOrder(n: nat, t: seq<Field>, k: nat)
    requires InOrder(n, t) && k <= |t|
    ensures InOrder(n, t[..k])
  {
    if k == |t| {
      assert t[..k] == t;
    } else {
      InOrderWider(t[|t| - 1].off, n, t[..|t| - 1]);
      PrefixInOrder(n, t[..|t| - 1], k);
      assert t[..|t| - 1][..k] == t[..k];
    }
  }
}
