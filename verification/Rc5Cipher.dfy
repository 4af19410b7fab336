// The RC5 class: its loops compute the functions of Rc5 and KeySchedule.
module Rc5Cipher {
  import opened Bits
  import opened Bytes
  import opened Words
  import opened Rc5
  import opened KeySchedule

  class RC5 {
    const ops: WordOps   // w, mask and the rotations of that width
    const rounds: nat
    var S: seq<nat>      // expanded key; empty until SetKey

    constructor (blockBytes: nat, rounds: nat)
      requires blockBytes == 8 || blockBytes == 16
      ensures ops == SourceWords(blockBytes / 2) && ops.Sound() && this.rounds == rounds && S == []
    {
      SourceWordsSound(blockBytes / 2);
      ops := SourceWords(blockBytes / 2);
      this.rounds := rounds;
      S := [];
    }

    function AsKey(): Key
      reads this
    {
      Key(ops, rounds, S)
    }

    method SetKey(key: seq<byte>)
      requires ops.Sound()
      modifies this
      ensures AsKey() == Expand(ops, rounds, key)
    {
      var words := LoadKeyWords(ops, NonEmpty(key));
      var table := FillTable(ops, 2 * (rounds + 1));
      S := MixKey(ops, table, words);
    }

    method EncryptBlock(data: seq<byte>) returns (out: seq<byte>)
      requires AsKey().Valid() && |data| == AsKey().BlockBytes()
      ensures out == Rc5.EncryptBlock(AsKey(), data)
    {
      var a, b := LE(data[..ops.u]), LE(data[ops.u..]);
      ghost var k, x := AsKey(), Load(AsKey(), data);
      a := ops.mask(a + S[0]);
      b := ops.mask(b + S[1]);
      for i := 1 to rounds + 1
        invariant Block(a, b) == Forward(k, i - 1, x)
      {
        a := ops.mask(ops.rotl(ops.xor(a, b), b) + S[2 * i]);
        b := ops.mask(ops.rotl(ops.xor(b, a), a) + S[2 * i + 1]);
      }
      out := ToLE(a, ops.u) + ToLE(b, ops.u);
    }

    method DecryptBlock(data: seq<byte>) returns (out: seq<byte>)
      requires AsKey().Valid() && |data| == AsKey().BlockBytes()
      ensures out == Rc5.DecryptBlock(AsKey(), data)
    {
      var a, b := LE(data[..ops.u]), LE(data[ops.u..]);
      ghost var k, y := AsKey(), Load(AsKey(), data);
      for i := rounds + 1 downto 1
        invariant Backward(k, i - 1, Block(a, b)) == Backward(k, rounds, y)
      {
        b := ops.xor(ops.rotr(ops.mask((b as int) - S[2 * i + 1]), a), a);
        a := ops.xor(ops.rotr(ops.mask((a as int) - S[2 * i]), b), b);
      }
      b := ops.mask((b as int) - S[1]);
      a := ops.mask((a as int) - S[0]);
      out := ToLE(a, ops.u) + ToLE(b, ops.u);
    }

    method Encrypt(data: seq<byte>) returns (out: seq<byte>)
      requires AsKey().Valid() && WholeBlocks(|data|, AsKey().BlockBytes())
      ensures out == Rc5.Encrypt(AsKey(), data)
    {
      hide Rc5.EncryptBlock;
      var n := 2 * ops.u;
      out := [];
      var i := 0;
      while i < |data|
        invariant i <= |data| && WholeBlocks(|data| - i, n)
        invariant out + Rc5.Encrypt(AsKey(), data[i..]) == Rc5.Encrypt(AsKey(), data)
      {
        var block := EncryptBlock(data[i..i + n]);
        assert data[i..][..n] == data[i..i + n] && data[i..][n..] == data[i + n..];
        out := out + block;
        i := i + n;
      }
    }

    method Decrypt(data: seq<byte>) returns (out: seq<byte>)
      requires AsKey().Valid() && WholeBlocks(|data|, AsKey().BlockBytes())
      ensures out == Rc5.Decrypt(AsKey(), data)
    {
      hide Rc5.DecryptBlock;
      var n := 2 * ops.u;
      out := [];
      var i := 0;
      while i < |data|
        invariant i <= |data| && WholeBlocks(|data| - i, n)
        invariant out + Rc5.Decrypt(AsKey(), data[i..]) == Rc5.Decrypt(AsKey(), data)
      {
        var block := DecryptBlock(data[i..i + n]);
        assert data[i..][..n] == data[i..i + n] && data[i..][n..] == data[i + n..];
        out := out + block;
        i := i + n;
      }
    }
  }

  // The part of word q that the bytes i, i + 1, ... of the key fill.
  ghost function FilledWord(u: nat, key: seq<byte>, q: nat, i: nat): nat
    requires WordAt(u, q) <= |key|
  {
    var end := Min(WordAt(u, q + 1), |key|);
    if i <= WordAt(u, q) then LE(WordBytes(u, key, q)) else if i >= end then 0 else LE(key[i..end])
  }

  // One byte more of its own word: no bit leaves the word ...
  lemma {:induction false} FillOwnWord(u: nat, key: seq<byte>, q: nat, i: nat)
    requires (u == 4 || u == 8) && WordAt(u, q) <= i < |key| && i < WordAt(u, q + 1)
    ensures FilledWord(u, key, q, i) == Shl(FilledWord(u, key, q, i + 1), 8) + key[i]
    ensures FilledWord(u, key, q, i) < Pow2(8 * u)
  {
    hide Shl, Pow2;
    var end := Min(WordAt(u, q + 1), |key|);
    assert key[i..end][0] == key[i] && key[i..end][1..] == key[i + 1..end];
    ShlByte(LE(key[i + 1..end]));
    LEFits(key[i..end], u);
  }

  // ... and the other words stay.
  lemma {:induction false} FillOtherWord(u: nat, key: seq<byte>, p: nat, i: nat)
    requires (u == 4 || u == 8) && WordAt(u, p) <= |key| && i < |key|
    requires i < WordAt(u, p) || WordAt(u, p + 1) <= i
    ensures FilledWord(u, key, p, i + 1) == FilledWord(u, key, p, i)
  {
    hide LE;
  }

  lemma {:induction false} WordOf(u: nat, i: nat, n: nat)
    requires (u == 4 || u == 8) && i < n
    ensures WordAt(u, i / u) <= i < WordAt(u, i / u + 1) && i / u < WordCount(u, n)
    ensures forall p :: 0 <= p < WordCount(u, n) && p != i / u ==>
              WordAt(u, p) <= n && (i < WordAt(u, p) || WordAt(u, p + 1) <= i)
  {
  }

  lemma {:induction false} FillByte(u: nat, key: seq<byte>, i: nat)
    requires (u == 4 || u == 8) && i < |key|
    ensures i / u < WordCount(u, |key|)
    ensures FilledWord(u, key, i / u, i) == Shl(FilledWord(u, key, i / u, i + 1), 8) + key[i]
    ensures FilledWord(u, key, i / u, i) < Pow2(8 * u)
    ensures forall p :: 0 <= p < WordCount(u, |key|) && p != i / u ==>
              FilledWord(u, key, p, i + 1) == FilledWord(u, key, p, i)
  {
    hide FilledWord, WordAt, WordCount, Shl, Pow2;
    WordOf(u, i, |key|);
    FillOwnWord(u, key, i / u, i);
    forall p | 0 <= p < WordCount(u, |key|) && p != i / u
      ensures FilledWord(u, key, p, i + 1) == FilledWord(u, key, p, i)
    {
      FillOtherWord(u, key, p, i);
    }
  }

  lemma {:induction false} ShlByte(v: nat)
    ensures Shl(v, 8) == 256 * v
  {
    WordSizes();
    ShlIsMul(v, 8);
  }

  lemma {:induction false} LEFits(s: seq<byte>, u: nat)
    requires |s| <= u
    ensures LE(s) < Pow2(8 * u)
  {
    LEOfPadded(s, u - |s|);
    LEBound(s + Zeros(u - |s|));
  }

  // setkey's first loop, over the key bytes from last to first.
  method LoadKeyWords(ops: WordOps, key: seq<byte>) returns (words: seq<nat>)
    requires ops.Sound() && |key| > 0
    ensures words == KeyWords(ops.u, key)
  {
    var u := ops.u;
    var c := WordCount(u, |key|);
    var l := new nat[c](_ => 0);
    for i := |key| downto 0
      invariant forall q :: 0 <= q < c ==> l[q] == FilledWord(u, key, q, i)
    {
      hide FilledWord, LE, Shl, Pow2;
      FillByte(u, key, i);
      assert ops.MaskKeeps(FilledWord(u, key, i / u, i));
      l[i / u] := ops.mask(Shl(l[i / u], 8) + key[i]);
    }
    words := l[..];
  }

  // setkey's second loop.
  method FillTable(ops: WordOps, t: nat) returns (table: seq<nat>)
    requires t > 0
    ensures table == InitialTable(ops, t)
  {
    var s := new nat[t](_ => 0);
    s[0] := ops.mask(P(ops.u));
    for i := 1 to t
      invariant s[..i] == InitialTable(ops, i)
    {
      s[i] := ops.mask(s[i - 1] + Q(ops.u));
      assert s[..i + 1] == s[..i] + [s[i]];
    }
    table := s[..];
  }

  // One pass through the body of setkey's third loop, over both tables in place.
  method MixOnce(ops: WordOps, s: array<nat>, l: array<nat>, m: Mix) returns (r: Mix)
    requires s != l && m.s == s[..] && m.l == l[..] && m.InRange()
    modifies s, l
    ensures r == MixStep(ops, m) && r.s == s[..] && r.l == l[..]
  {
    var a := ops.rotl(ops.mask(s[m.i] + m.a + m.b), 3);
    s[m.i] := a;
    var b := ops.rotl(ops.mask(l[m.j] + a + m.b), ops.mask(a + m.b));
    l[m.j] := b;
    r := Mix(s[..], l[..], a, b, Next(m.i, s.Length), Next(m.j, l.Length));
  }

  // setkey's third loop.
  method MixKey(ops: WordOps, table: seq<nat>, words: seq<nat>) returns (mixed: seq<nat>)
    requires |table| > 0 && |words| > 0
    ensures mixed == Mixed(ops, table, words, Iterations(|table|, |words|)).s
  {
    var s := new nat[|table|](i requires 0 <= i < |table| => table[i]);
    var l := new nat[|words|](i requires 0 <= i < |words| => words[i]);
    assert s[..] == table && l[..] == words;
    var m := Mix(table, words, 0, 0, 0, 0);
    for n := 0 to Iterations(|table|, |words|)
      invariant m == Mixed(ops, table, words, n)
      invariant s[..] == m.s && l[..] == m.l
    {
      m := MixOnce(ops, s, l, m);
    }
    mixed := s[..];
  }
}
