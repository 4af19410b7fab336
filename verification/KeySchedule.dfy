// The RC5 key expansion: from key bytes to the table S (section 5 of RFC 2040 for 32-bit words).
module KeySchedule {
  import opened Bytes
  import opened Words
  import opened Rc5

  function P(u: nat): nat { if u == 4 then 0xB7E1_5163 else 0xB7E1_5162_8AED_2A6B }

  function Q(u: nat): nat { if u == 4 then 0x9E37_79B9 else 0x9E37_79B9_7F4A_7C15 }

  // An empty key stands for one zero byte.
  function NonEmpty(key: seq<byte>): (r: seq<byte>)
    ensures |r| > 0
  {
    if |key| == 0 then [0] else key
  }

  // Number of u-byte words that hold n bytes: (n + u - 1) // u.
  function WordCount(u: nat, n: nat): nat
    requires u == 4 || u == 8
  {
    if u == 4 then (n + 3) / 4 else (n + 7) / 8
  }

  function Min(a: nat, b: nat): nat { if a < b then a else b }

  // Where word q of the key starts.
  function WordAt(u: nat, q: nat): nat
  {
    if u == 4 then 4 * q else 8 * q
  }

  // Bytes of word q of the key (the last word may be short).
  function WordBytes(u: nat, key: seq<byte>, q: nat): seq<byte>
    requires WordAt(u, q) <= |key|
  {
    key[WordAt(u, q)..Min(WordAt(u, q + 1), |key|)]
  }

  // The table L: the key read as little-endian words.
  function KeyWords(u: nat, key: seq<byte>): (l: seq<nat>)
    requires u == 4 || u == 8
    ensures |l| == WordCount(u, |key|)
  {
    seq(WordCount(u, |key|), q requires 0 <= q < WordCount(u, |key|) => LE(WordBytes(u, key, q)))
  }

  // The table S before mixing.
  function InitialTable(ops: WordOps, t: nat): (s: seq<nat>)
    ensures |s| == t
  {
    if t == 0 then []
    else if t == 1 then [ops.mask(P(ops.u))]
    else
      var s := InitialTable(ops, t - 1);
      s + [ops.mask(s[t - 2] + Q(ops.u))]
  }

  // The variables of the mixing loop.
  datatype Mix = Mix(s: seq<nat>, l: seq<nat>, a: nat, b: nat, i: nat, j: nat)
  {
    predicate InRange() {
      i < |s| && j < |l|
    }
  }

  // (i + 1) % t for an index i of a table of t slots.
  function Next(i: nat, t: nat): nat
  {
    if i + 1 == t then 0 else i + 1
  }

  function MixStep(ops: WordOps, m: Mix): (r: Mix)
    requires m.InRange()
    ensures r.InRange() && |r.s| == |m.s| && |r.l| == |m.l|
  {
    var a := ops.rotl(ops.mask(m.s[m.i] + m.a + m.b), 3);
    var b := ops.rotl(ops.mask(m.l[m.j] + a + m.b), ops.mask(a + m.b));
    Mix(m.s[m.i := a], m.l[m.j := b], a, b, Next(m.i, |m.s|), Next(m.j, |m.l|))
  }

  // The loop after n iterations.
  function Mixed(ops: WordOps, s: seq<nat>, l: seq<nat>, n: nat): (m: Mix)
    requires |s| > 0 && |l| > 0
    ensures m.InRange() && |m.s| == |s| && |m.l| == |l|
  {
    if n == 0 then Mix(s, l, 0, 0, 0, 0) else MixStep(ops, Mixed(ops, s, l, n - 1))
  }

  function Max(a: nat, b: nat): nat { if a < b then b else a }

  // Mixing steps for t words of S and c words of L.
  function Iterations(t: nat, c: nat): nat { 3 * Max(t, c) }

  // The key that setkey(key) sets up.
  function Expand(ops: WordOps, rounds: nat, key: seq<byte>): (k: Key)
    requires ops.u == 4 || ops.u == 8
    ensures k.Valid() && k.ops == ops && k.rounds == rounds
  {
    var t := 2 * (rounds + 1);
    var l := KeyWords(ops.u, NonEmpty(key));
    Key(ops, rounds, Mixed(ops, InitialTable(ops, t), l, Iterations(t, |l|)).s)
  }

  // ---------------------------------------------------------------- properties

  function Padded(u: nat, key: seq<byte>): seq<byte>
    requires u == 4 || u == 8
  {
    key + Zeros(WordAt(u, WordCount(u, |key|)) - |key|)
  }

  // No key byte is lost: word q, unpacked, is its slice of the zero-padded key.
  lemma {:induction false} KeyBytesRecovered(u: nat, key: seq<byte>, q: nat)
    requires u == 4 || u == 8
    requires q < WordCount(u, |key|)
    ensures ToLE(KeyWords(u, key)[q], u) == Padded(u, key)[WordAt(u, q)..WordAt(u, q + 1)]
  {
    var bs := WordBytes(u, key, q);
    LEOfPadded(bs, u - |bs|);
    PackUnpack(bs + Zeros(u - |bs|));
    assert Padded(u, key)[WordAt(u, q)..WordAt(u, q + 1)] == bs + Zeros(u - |bs|);
  }

  // The empty key is the key of one zero byte, and no other key is changed.
  lemma {:induction false} EmptyKey(ops: WordOps, rounds: nat, key: seq<byte>)
    requires ops.u == 4 || ops.u == 8
    ensures Expand(ops, rounds, []) == Expand(ops, rounds, [0])
    ensures key != [] ==> NonEmpty(key) == key
  {
    hide Mixed, InitialTable, KeyWords;
  }

  // Only the last word gets longer, by zeros.
  lemma {:induction false} PaddedWord(u: nat, key: seq<byte>, n: nat, q: nat) returns (more: nat)
    requires (u == 4 || u == 8) && WordCount(u, |key| + n) == WordCount(u, |key|) && q < WordCount(u, |key|)
    ensures WordBytes(u, key + Zeros(n), q) == WordBytes(u, key, q) + Zeros(more)
  {
    var long := key + Zeros(n);
    var from := WordAt(u, q);
    var end, longEnd := Min(WordAt(u, q + 1), |key|), Min(WordAt(u, q + 1), |long|);
    more := longEnd - end;
    assert long[from..end] == key[from..end];
    assert end < longEnd ==> end == |key|;
    assert long[end..longEnd] == Zeros(more);
    assert long[from..longEnd] == long[from..end] + long[end..longEnd];
  }

  // Padding a key with zeros up to a word boundary gives the same table.
  lemma {:induction false} PaddingKeepsSchedule(ops: WordOps, rounds: nat, key: seq<byte>, n: nat)
    requires ops.u == 4 || ops.u == 8
    requires |key| > 0 && WordCount(ops.u, |key| + n) == WordCount(ops.u, |key|)
    ensures Expand(ops, rounds, key + Zeros(n)) == Expand(ops, rounds, key)
  {
    hide Mixed, InitialTable, LE, WordBytes, Zeros;
    var u, long := ops.u, key + Zeros(n);
    forall q | 0 <= q < WordCount(u, |key|)
      ensures KeyWords(u, long)[q] == KeyWords(u, key)[q]
    {
      var more := PaddedWord(u, key, n, q);
      LEOfPadded(WordBytes(u, key, q), more);
    }
    assert KeyWords(u, long) == KeyWords(u, key);
  }

  // The slot of a table of t slots that iteration n works on.
  function Slot(n: nat, t: nat): (i: nat)
    requires t > 0
    ensures i < t
  {
    if n == 0 then 0 else Next(Slot(n - 1, t), t)
  }

  // The loop's indices are the ones Slot gives.
  lemma {:induction false} MixSlots(ops: WordOps, s: seq<nat>, l: seq<nat>, n: nat)
    requires |s| > 0 && |l| > 0
    ensures Mixed(ops, s, l, n).i == Slot(n, |s|)
    ensures Mixed(ops, s, l, n).j == Slot(n, |l|)
  {
    if n > 0 { MixSlots(ops, s, l, n - 1); }
  }

  // Number of iterations among the first n that work on slot x.
  function Visits(n: nat, t: nat, x: nat): nat
    requires t > 0
  {
    if n == 0 then 0 else Visits(n - 1, t, x) + (if Slot(n - 1, t) == x then 1 else 0)
  }

  // From an iteration on slot 0, n <= t further iterations visit the slots below n once.
  lemma {:induction false} VisitsInPass(m: nat, n: nat, t: nat, x: nat)
    requires x < t && n <= t && Slot(m, t) == 0
    ensures Slot(m + n, t) == (if n == t then 0 else n)
    ensures Visits(m + n, t, x) == Visits(m, t, x) + (if x < n then 1 else 0)
    decreases n
  {
    if n > 0 { VisitsInPass(m, n - 1, t, x); }
  }

  lemma {:induction false} VisitsGrow(m: nat, n: nat, t: nat, x: nat)
    requires t > 0 && m <= n
    ensures Visits(m, t, x) <= Visits(n, t, x)
  {
    if m < n { VisitsGrow(m, n - 1, t, x); }
  }

  // Every slot of S (t slots) and of L (c slots) is mixed at least three times, and every
  // slot of the longer table exactly three times.
  lemma {:induction false} MixedThreeTimes(t: nat, c: nat, x: nat, y: nat)
    requires x < t && y < c
    ensures var n := Iterations(t, c);
            && Visits(n, t, x) >= 3 && Visits(n, c, y) >= 3
            && (t >= c ==> Visits(n, t, x) == 3)
            && (c >= t ==> Visits(n, c, y) == 3)
  {
    ThreePasses(t, x);
    ThreePasses(c, y);
    VisitsGrow(3 * t, Iterations(t, c), t, x);
    VisitsGrow(3 * c, Iterations(t, c), c, y);
  }

  lemma {:induction false} ThreePasses(t: nat, x: nat)
    requires x < t
    ensures Visits(3 * t, t, x) == 3
  {
    VisitsInPass(0, t, t, x);
    VisitsInPass(t, t, t, x);
    VisitsInPass(2 * t, t, t, x);
  }

  // ---------------------------------------------------------------- the magic constants

  // n! and n! (1/2! + 1/3! + ... + 1/n!), the partial sums of e - 2.
  function Factorial(n: nat): nat { if n == 0 then 1 else n * Factorial(n - 1) }

  function EulerSum(n: nat): nat { if n < 2 then 0 else n * EulerSum(n - 1) + 1 }

  lemma {:induction false} Sums()
    ensures Factorial(21) == 51090942171709440000 && EulerSum(21) == 36697695360790800022
    ensures Factorial(13) == 6227020800 && EulerSum(13) == 4472755886
  {
    assert Factorial(7) == 5040 && EulerSum(7) == 3620;
    assert Factorial(10) == 3628800 && EulerSum(10) == 2606501;
    assert Factorial(13) == 6227020800 && EulerSum(13) == 4472755886;
    assert Factorial(16) == 20922789888000 && EulerSum(16) == 15028459777217;
    assert Factorial(19) == 121645100408832000 && EulerSum(19) == 87375465144740000;
  }

  // Q is the odd number next to (phi - 1) * 2^w, the positive root of x * x + x * 2^w == 2^(2 w); and P,
  // to within 1, is (e - 2) * 2^w: the sum up to 1/n! falls short of e - 2 by less than 1/n!.
  lemma {:induction false} Constants32()
    ensures var q, r := Q(4), 0x1_0000_0000;
            q % 2 == 1 && (q - 1) * (q - 1) + (q - 1) * r < r * r < (q + 1) * (q + 1) + (q + 1) * r
    ensures var p, n, sum, r := P(4), Factorial(13), EulerSum(13), 0x1_0000_0000;
            p % 2 == 1 && (p - 1) * n < sum * r && (sum + 1) * r < (p + 1) * n
  {
    Sums();
  }

  lemma {:induction false} Constants64()
    ensures var q, r := Q(8), 0x1_0000_0000_0000_0000;
            q % 2 == 1 && (q - 1) * (q - 1) + (q - 1) * r < r * r < (q + 1) * (q + 1) + (q + 1) * r
    ensures var p, n, sum, r := P(8), Factorial(21), EulerSum(21), 0x1_0000_0000_0000_0000;
            p % 2 == 1 && (p - 1) * n < sum * r && (sum + 1) * r < (p + 1) * n
  {
    Sums();
  }

  // ---------------------------------------------------------------- the key reaches the table

  lemma {:induction false} MixFits(ops: WordOps, s: seq<nat>, l: seq<nat>, n: nat)
    requires ops.Sound() && |s| > 0 && |l| > 0
    ensures Mixed(ops, s, l, n).a <= ops.max && Mixed(ops, s, l, n).b <= ops.max
  {
    if n > 0 {
      var m := Mixed(ops, s, l, n - 1);
      var x := m.s[m.i] + m.a + m.b;
      var a := ops.rotl(ops.mask(x), 3);
      var y := m.l[m.j] + a + m.b;
      assert ops.MaskFits(x) && ops.RotlUndone(ops.mask(x), 3);
      assert ops.MaskFits(y) && ops.RotlUndone(ops.mask(y), ops.mask(a + m.b));
    }
  }

  lemma {:induction false} FirstSlots(n: nat, t: nat)
    requires n < t
    ensures Slot(n, t) == n
  {
    if n > 0 { FirstSlots(n - 1, t); }
  }

  // Two mixing loops that have done the same so far, with the words l and k of L still to come.
  predicate Alike(m: Mix, o: Mix, l: seq<nat>, k: seq<nat>) {
    && m.s == o.s && m.a == o.a && m.b == o.b && m.i == o.i && m.j == o.j
    && |m.l| == |o.l| >= |l| == |k| && m.l[|m.l| - |l|..] == l && o.l[|o.l| - |k|..] == k
  }

  lemma {:induction false} StepAlike(ops: WordOps, m: Mix, o: Mix, l: seq<nat>, k: seq<nat>)
    requires m.InRange() && o.InRange() && Alike(m, o, l, k)
    requires l != [] && l[0] == k[0] && m.j == |m.l| - |l|
    ensures Alike(MixStep(ops, m), MixStep(ops, o), l[1..], k[1..])
  {
    var j := m.j;
    assert m.l[j] == m.l[j..][0] && o.l[j] == o.l[j..][0];
    var v := MixStep(ops, m).b;
    assert MixStep(ops, o).b == v;
    Behind(m.l, j, v);
    Behind(o.l, j, v);
  }

  lemma {:induction false} Behind(s: seq<nat>, j: nat, v: nat)
    requires j < |s|
    ensures s[j := v][j + 1..] == s[j..][1..]
  {
    assert s[j..][1..] == s[j + 1..];
  }

  // Up to the first word in which two keys differ their mixing loops do the same.
  lemma {:induction false} MixAlike(ops: WordOps, s: seq<nat>, l: seq<nat>, k: seq<nat>, n: nat)
    requires |s| > 0 && |k| == |l| > 0 && n <= |l| && forall i :: 0 <= i < n ==> l[i] == k[i]
    ensures Alike(Mixed(ops, s, l, n), Mixed(ops, s, k, n), l[n..], k[n..])
  {
    hide MixStep, Alike;
    if n > 0 {
      MixAlike(ops, s, l, k, n - 1);
      MixSlots(ops, s, l, n - 1);
      FirstSlots(n - 1, |l|);
      assert l[n - 1..][1..] == l[n..] && k[n - 1..][1..] == k[n..];
      StepAlike(ops, Mixed(ops, s, l, n - 1), Mixed(ops, s, k, n - 1), l[n - 1..], k[n - 1..]);
    } else {
      StartAlike(s, l, k);
    }
  }

  lemma {:induction false} StartAlike(s: seq<nat>, l: seq<nat>, k: seq<nat>)
    requires |k| == |l|
    ensures Alike(Mix(s, l, 0, 0, 0, 0), Mix(s, k, 0, 0, 0, 0), l[0..], k[0..])
  {
  }

  lemma {:induction false} DifferentWordNext(ops: WordOps, s: seq<nat>, l: seq<nat>, k: seq<nat>, q: nat)
    requires |s| > 0 && |k| == |l| && q < |l| && forall i :: 0 <= i < q ==> l[i] == k[i]
    ensures var m, o := Mixed(ops, s, l, q), Mixed(ops, s, k, q);
            && m.s == o.s && m.a == o.a && m.b == o.b && m.i == o.i && m.l[m.j] == l[q] && o.l[o.j] == k[q]
  {
    hide Mixed;
    MixAlike(ops, s, l, k, q);
    MixSlots(ops, s, l, q);
    FirstSlots(q, |l|);
    var m, o := Mixed(ops, s, l, q), Mixed(ops, s, k, q);
    assert m.l[q] == m.l[q..][0] == l[q..][0] && o.l[q] == o.l[q..][0] == k[q..][0];
  }

  // The first different word, q, makes B different and, one step later, slot q + 1 of S.
  lemma {:induction false} KeyReachesTable(ops: WordOps, s: seq<nat>, l: seq<nat>, k: seq<nat>, q: nat)
    requires ops.Sound() && |k| == |l| && q < |l| && l[q] != k[q] && forall i :: 0 <= i < q ==> l[i] == k[i]
    requires l[q] <= ops.max && k[q] <= ops.max && q + 1 < |s|
    ensures Mixed(ops, s, l, q + 1).b != Mixed(ops, s, k, q + 1).b
    ensures Mixed(ops, s, l, q + 2).s[q + 1] != Mixed(ops, s, k, q + 2).s[q + 1]
  {
    DifferentWordNext(ops, s, l, k, q);
    WordTells(ops, Mixed(ops, s, l, q), Mixed(ops, s, k, q));
    hide MixStep, WordOps.Sound, Slot;
    MixSlots(ops, s, l, q + 1);
    MixSlots(ops, s, k, q + 1);
    FirstSlots(q + 1, |s|);
    MixFits(ops, s, l, q + 1);
    MixFits(ops, s, k, q + 1);
    SlotTells(ops, Mixed(ops, s, l, q + 1), Mixed(ops, s, k, q + 1));
  }

  lemma {:induction false} WordTells(ops: WordOps, m: Mix, o: Mix)
    requires ops.Sound() && m.InRange() && o.InRange() && m.s == o.s && m.a == o.a && m.b == o.b && m.i == o.i
    requires m.l[m.j] <= ops.max && o.l[o.j] <= ops.max && m.l[m.j] != o.l[o.j]
    ensures MixStep(ops, m).i == MixStep(ops, o).i
    ensures MixStep(ops, m).b != MixStep(ops, o).b
    ensures MixStep(ops, m).s == MixStep(ops, o).s && MixStep(ops, m).a == MixStep(ops, o).a
  {
    var a := MixStep(ops, m).a;
    var x, y := m.l[m.j] + (a + m.b), o.l[o.j] + (a + m.b);
    MaskTells(ops, m.l[m.j], o.l[o.j], a + m.b);
    assert ops.MaskFits(x) && ops.MaskFits(y);
    RotlTells(ops, ops.mask(x), ops.mask(y), ops.mask(a + m.b));
  }

  lemma {:induction false} SlotTells(ops: WordOps, m: Mix, o: Mix)
    requires ops.Sound() && m.InRange() && o.InRange() && m.s == o.s && m.a == o.a && m.i == o.i
    requires m.b <= ops.max && o.b <= ops.max && m.b != o.b
    ensures MixStep(ops, m).s[m.i] != MixStep(ops, o).s[o.i]
  {
    var x, y := m.b + (m.s[m.i] + m.a), o.b + (m.s[m.i] + m.a);
    MaskTells(ops, m.b, o.b, m.s[m.i] + m.a);
    assert ops.MaskFits(x) && ops.MaskFits(y);
    RotlTells(ops, ops.mask(x), ops.mask(y), 3);
  }

  // Two different keys of the same length: there is a first word in which they differ, and it
  // makes B different and then the next slot of S, if the table has one.
  lemma {:induction false} DifferentKeys(ops: WordOps, s: seq<nat>, key: seq<byte>, other: seq<byte>) returns (q: nat)
    requires ops.Sound() && |key| == |other| > 0 && key != other && |s| > 0
    ensures q < WordCount(ops.u, |key|)
    ensures
      var l, k := KeyWords(ops.u, key), KeyWords(ops.u, other);
      && Mixed(ops, s, l, q).s == Mixed(ops, s, k, q).s
      && (q + 1 < |s| ==> Mixed(ops, s, l, q + 1).b != Mixed(ops, s, k, q + 1).b
                          && Mixed(ops, s, l, q + 2).s[q + 1] != Mixed(ops, s, k, q + 2).s[q + 1])
  {
    var l, k := KeyWords(ops.u, key), KeyWords(ops.u, other);
    if l == k { WordsTell(ops.u, key, other); }
    q := FirstDifference(l, k);
    WordsFit(ops, key, q);
    WordsFit(ops, other, q);
    MixAlike(ops, s, l, k, q);
    if q + 1 < |s| { KeyReachesTable(ops, s, l, k, q); }
  }

  lemma {:induction false} FirstDifference(l: seq<nat>, k: seq<nat>) returns (q: nat)
    requires |l| == |k| && l != k
    ensures q < |l| && l[q] != k[q] && forall i :: 0 <= i < q ==> l[i] == k[i]
  {
    if l[0] != k[0] {
      q := 0;
    } else {
      assert l == [l[0]] + l[1..] && k == [k[0]] + k[1..];
      var r := FirstDifference(l[1..], k[1..]);
      q := r + 1;
      forall i | 0 <= i < q ensures l[i] == k[i] {
        if i > 0 { assert l[i] == l[1..][i - 1] && k[i] == k[1..][i - 1]; }
      }
    }
  }

  lemma {:induction false} WordsTell(u: nat, key: seq<byte>, other: seq<byte>)
    requires (u == 4 || u == 8) && |key| == |other| && KeyWords(u, key) == KeyWords(u, other)
    ensures key == other
  {
    hide KeyWords;
    forall i | 0 <= i < |key| ensures key[i] == other[i] {
      var q := if u == 4 then i / 4 else i / 8;
      KeyBytesRecovered(u, key, q);
      KeyBytesRecovered(u, other, q);
      assert key[i] == Padded(u, key)[WordAt(u, q)..WordAt(u, q + 1)][i - WordAt(u, q)];
      assert other[i] == Padded(u, other)[WordAt(u, q)..WordAt(u, q + 1)][i - WordAt(u, q)];
    }
  }

  lemma {:induction false} WordsFit(ops: WordOps, key: seq<byte>, q: nat)
    requires ops.Sound() && q < WordCount(ops.u, |key|)
    ensures KeyWords(ops.u, key)[q] <= ops.max
  {
    var bs := WordBytes(ops.u, key, q);
    LEOfPadded(bs, ops.u - |bs|);
    LEBound(bs + Zeros(ops.u - |bs|));
  }
}
