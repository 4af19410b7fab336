// RC5 with any number of rounds over any sound word arithmetic: what one block is, and why
// decryption and encryption undo each other.
module Rc5 {
  import opened Bytes
  import opened Words

  // An expanded key: word arithmetic, rounds and the table S of 2 * (rounds + 1) words.
  datatype Key = Key(ops: WordOps, rounds: nat, table: seq<nat>)
  {
    predicate Valid() {
      |table| == 2 * (rounds + 1)
    }

    function BlockBytes(): nat { 2 * ops.u }
  }

  // The two words A and B of a block.
  datatype Block = Block(a: nat, b: nat)

  predicate Fits(k: Key, x: Block) {
    x.a <= k.ops.max && x.b <= k.ops.max
  }

  function Load(k: Key, data: seq<byte>): Block
    requires |data| == k.BlockBytes()
  {
    Block(LE(data[..k.ops.u]), LE(data[k.ops.u..]))
  }

  function Store(k: Key, x: Block): (data: seq<byte>)
    ensures |data| == k.BlockBytes()
  {
    ToLE(x.a, k.ops.u) + ToLE(x.b, k.ops.u)
  }

  lemma {:induction false} LoadFits(k: Key, data: seq<byte>)
    requires k.ops.Sound() && |data| == k.BlockBytes()
    ensures Fits(k, Load(k, data))
  {
    LEBound(data[..k.ops.u]);
    LEBound(data[k.ops.u..]);
  }

  lemma {:induction false} StoreLoad(k: Key, data: seq<byte>)
    requires |data| == k.BlockBytes()
    ensures Store(k, Load(k, data)) == data
  {
    PackUnpack(data[..k.ops.u]);
    PackUnpack(data[k.ops.u..]);
  }

  lemma {:induction false} LoadStore(k: Key, x: Block)
    requires k.ops.Sound() && Fits(k, x)
    ensures Load(k, Store(k, x)) == x
  {
    UnpackPack(x.a, k.ops.u);
    UnpackPack(x.b, k.ops.u);
    assert Store(k, x)[..k.ops.u] == ToLE(x.a, k.ops.u);
    assert Store(k, x)[k.ops.u..] == ToLE(x.b, k.ops.u);
  }

  // ---------------------------------------------------------------- rounds

  function Round(k: Key, i: nat, x: Block): Block
    requires k.Valid() && 1 <= i <= k.rounds
  {
    var a := k.ops.mask(k.ops.rotl(k.ops.xor(x.a, x.b), x.b) + k.table[2 * i]);
    var b := k.ops.mask(k.ops.rotl(k.ops.xor(x.b, a), a) + k.table[2 * i + 1]);
    Block(a, b)
  }

  function Unround(k: Key, i: nat, y: Block): Block
    requires k.Valid() && 1 <= i <= k.rounds
  {
    var b := k.ops.xor(k.ops.rotr(k.ops.mask((y.b as int) - k.table[2 * i + 1]), y.a), y.a);
    var a := k.ops.xor(k.ops.rotr(k.ops.mask((y.a as int) - k.table[2 * i]), b), b);
    Block(a, b)
  }

  // Half a round and its inverse: v is XORed with p, rotated by p, then s is added.
  lemma {:induction false} HalfRound(ops: WordOps, v: nat, p: nat, s: nat)
    requires ops.Sound() && v <= ops.max && p <= ops.max
    ensures ops.mask(ops.rotl(ops.xor(v, p), p) + s) <= ops.max
    ensures ops.xor(ops.rotr(ops.mask(ops.mask(ops.rotl(ops.xor(v, p), p) + s) - s), p), p) == v
  {
    assert ops.XorUndone(v, p);
    assert ops.RotlUndone(ops.xor(v, p), p);
    assert ops.AddUndone(ops.rotl(ops.xor(v, p), p), s);
    assert ops.MaskFits(ops.rotl(ops.xor(v, p), p) + s);
  }

  lemma {:induction false} HalfUnround(ops: WordOps, v: nat, p: nat, s: nat)
    requires ops.Sound() && v <= ops.max && p <= ops.max
    ensures var x := ops.xor(ops.rotr(ops.mask((v as int) - s), p), p);
            x <= ops.max && ops.mask(ops.rotl(ops.xor(x, p), p) + s) == v
  {
    var t := ops.mask((v as int) - s);
    assert ops.MaskFits((v as int) - s);
    assert ops.RotrUndone(t, p);
    assert ops.XorUndone(ops.rotr(t, p), p);
    assert ops.AddUndone(v, -(s as int));
  }

  lemma {:induction false} UnroundUndoes(k: Key, i: nat, x: Block)
    requires k.ops.Sound() && k.Valid() && 1 <= i <= k.rounds && Fits(k, x)
    ensures Fits(k, Round(k, i, x)) && Unround(k, i, Round(k, i, x)) == x
  {
    var y := Round(k, i, x);
    HalfRound(k.ops, x.a, x.b, k.table[2 * i]);
    HalfRound(k.ops, x.b, y.a, k.table[2 * i + 1]);
  }

  lemma {:induction false} RoundUndoes(k: Key, i: nat, y: Block)
    requires k.ops.Sound() && k.Valid() && 1 <= i <= k.rounds && Fits(k, y)
    ensures Fits(k, Unround(k, i, y)) && Round(k, i, Unround(k, i, y)) == y
  {
    var x := Unround(k, i, y);
    HalfUnround(k.ops, y.b, y.a, k.table[2 * i + 1]);
    HalfUnround(k.ops, y.a, x.b, k.table[2 * i]);
  }

  // ---------------------------------------------------------------- blocks

  // Whitening by S[0], S[1] and then rounds 1, 2, ..., n.
  function Forward(k: Key, n: nat, x: Block): Block
    requires k.Valid() && n <= k.rounds
  {
    if n == 0 then Block(k.ops.mask(x.a + k.table[0]), k.ops.mask(x.b + k.table[1]))
    else Round(k, n, Forward(k, n - 1, x))
  }

  // Rounds n, ..., 2, 1 undone and then the whitening.
  function Backward(k: Key, n: nat, y: Block): Block
    requires k.Valid() && n <= k.rounds
  {
    if n == 0 then Block(k.ops.mask((y.a as int) - k.table[0]), k.ops.mask((y.b as int) - k.table[1]))
    else Backward(k, n - 1, Unround(k, n, y))
  }

  lemma {:induction false} BackwardUndoes(k: Key, n: nat, x: Block)
    requires k.ops.Sound() && k.Valid() && n <= k.rounds && Fits(k, x)
    ensures Fits(k, Forward(k, n, x)) && Backward(k, n, Forward(k, n, x)) == x
  {
    if n == 0 {
      assert k.ops.MaskFits(x.a + k.table[0]) && k.ops.MaskFits(x.b + k.table[1]);
      assert k.ops.AddUndone(x.a, k.table[0]) && k.ops.AddUndone(x.b, k.table[1]);
    } else {
      BackwardUndoes(k, n - 1, x);
      UnroundUndoes(k, n, Forward(k, n - 1, x));
    }
  }

  lemma {:induction false} ForwardUndoes(k: Key, n: nat, y: Block)
    requires k.ops.Sound() && k.Valid() && n <= k.rounds && Fits(k, y)
    ensures Fits(k, Backward(k, n, y)) && Forward(k, n, Backward(k, n, y)) == y
  {
    if n == 0 {
      var s0: int, s1: int := k.table[0], k.table[1];
      assert k.ops.MaskFits(y.a - s0) && k.ops.MaskFits(y.b - s1);
      assert k.ops.AddUndone(y.a, -s0) && k.ops.AddUndone(y.b, -s1);
    } else {
      RoundUndoes(k, n, y);
      ForwardUndoes(k, n - 1, Unround(k, n, y));
    }
  }

  // ---------------------------------------------------------------- every word of the table counts

  lemma {:induction false} MaskTells(ops: WordOps, x: nat, y: nat, s: nat)
    requires ops.Sound() && x <= ops.max && y <= ops.max && x != y
    ensures ops.mask(x + s) != ops.mask(y + s)
  {
    assert ops.AddUndone(x, s) && ops.AddUndone(y, s);
  }

  lemma {:induction false} RotlTells(ops: WordOps, x: nat, y: nat, n: nat)
    requires ops.Sound() && x <= ops.max && y <= ops.max && x != y
    ensures ops.rotl(x, n) != ops.rotl(y, n)
  {
    assert ops.RotlUndone(x, n) && ops.RotlUndone(y, n);
  }

  // Different blocks stay different in a round.
  lemma {:induction false} RoundTells(k: Key, i: nat, x: Block, y: Block)
    requires k.ops.Sound() && k.Valid() && 1 <= i <= k.rounds && Fits(k, x) && Fits(k, y) && x != y
    ensures Round(k, i, x) != Round(k, i, y)
  {
    hide Round, Unround;
    UnroundUndoes(k, i, x);
    UnroundUndoes(k, i, y);
  }

  // The same keys but for word j of the table.
  ghost predicate DifferAt(k: Key, o: Key, j: nat) {
    && k.Valid() && o.Valid() && k.ops == o.ops && k.rounds == o.rounds && j < |k.table|
    && k.table[j] <= k.ops.max && o.table[j] <= o.ops.max && k.table[j] != o.table[j]
    && forall i :: 0 <= i < |k.table| && i != j ==> k.table[i] == o.table[i]
  }

  lemma {:induction false} SlotTells(k: Key, o: Key, i: nat, x: Block)
    requires k.ops.Sound() && 1 <= i <= k.rounds && Fits(k, x)
    requires DifferAt(k, o, 2 * i) || DifferAt(k, o, 2 * i + 1)
    ensures Round(k, i, x) != Round(o, i, x)
  {
    var ops := k.ops;
    var v := ops.rotl(ops.xor(x.a, x.b), x.b);
    if DifferAt(k, o, 2 * i) {
      MaskTells(ops, k.table[2 * i], o.table[2 * i], v);
    } else {
      var a := ops.mask(v + k.table[2 * i]);
      MaskTells(ops, k.table[2 * i + 1], o.table[2 * i + 1], ops.rotl(ops.xor(x.b, a), a));
    }
  }

  // Two tables that differ in one word encrypt every block differently.
  lemma {:induction false} EveryWordCounts(k: Key, o: Key, j: nat, n: nat, x: Block)
    requires k.ops.Sound() && DifferAt(k, o, j) && n <= k.rounds && Fits(k, x)
    ensures Forward(k, n, x) != Forward(o, n, x) <==> j < 2 * (n + 1)
    decreases n
  {
    hide WordOps.Sound, Round;
    BackwardUndoes(k, n, x);
    if n == 0 {
      if j == 0 { MaskTells(k.ops, k.table[0], o.table[0], x.a); }
      if j == 1 { MaskTells(k.ops, k.table[1], o.table[1], x.b); }
    } else {
      EveryWordCounts(k, o, j, n - 1, x);
      BackwardUndoes(k, n - 1, x);
      BackwardUndoes(o, n - 1, x);
      SameRound(k, o, n, Forward(o, n - 1, x));
      if j < 2 * n {
        RoundTells(k, n, Forward(k, n - 1, x), Forward(o, n - 1, x));
      } else if j < 2 * (n + 1) {
        SlotTells(k, o, n, Forward(k, n - 1, x));
      }
    }
  }

  lemma {:induction false} SameRound(k: Key, o: Key, i: nat, x: Block)
    requires k.Valid() && o.Valid() && k.ops == o.ops && k.rounds == o.rounds && 1 <= i <= k.rounds
    ensures k.table[2 * i] == o.table[2 * i] && k.table[2 * i + 1] == o.table[2 * i + 1] ==>
              Round(k, i, x) == Round(o, i, x)
  {
  }

  function EncryptBlock(k: Key, data: seq<byte>): (r: seq<byte>)
    requires k.Valid() && |data| == k.BlockBytes()
    ensures |r| == |data|
  {
    Store(k, Forward(k, k.rounds, Load(k, data)))
  }

  function DecryptBlock(k: Key, data: seq<byte>): (r: seq<byte>)
    requires k.Valid() && |data| == k.BlockBytes()
    ensures |r| == |data|
  {
    Store(k, Backward(k, k.rounds, Load(k, data)))
  }

  lemma {:induction false} BlockRoundTrip(k: Key, data: seq<byte>)
    requires k.ops.Sound() && k.Valid() && |data| == k.BlockBytes()
    ensures DecryptBlock(k, EncryptBlock(k, data)) == data
    ensures EncryptBlock(k, DecryptBlock(k, data)) == data
  {
    var x := Load(k, data);
    LoadFits(k, data);
    BackwardUndoes(k, k.rounds, x);
    ForwardUndoes(k, k.rounds, x);
    LoadStore(k, Forward(k, k.rounds, x));
    LoadStore(k, Backward(k, k.rounds, x));
    StoreLoad(k, data);
  }

  // ---------------------------------------------------------------- ECB

  // A length of n bytes is a whole number of blocks of size bb.
  predicate WholeBlocks(n: nat, bb: nat) {
    n == 0 || (0 < bb <= n && WholeBlocks(n - bb, bb))
  }

  function Encrypt(k: Key, data: seq<byte>): (r: seq<byte>)
    requires k.Valid() && WholeBlocks(|data|, k.BlockBytes())
    ensures |r| == |data|
    decreases |data|
  {
    if data == [] then []
    else EncryptBlock(k, data[..k.BlockBytes()]) + Encrypt(k, data[k.BlockBytes()..])
  }

  function Decrypt(k: Key, data: seq<byte>): (r: seq<byte>)
    requires k.Valid() && WholeBlocks(|data|, k.BlockBytes())
    ensures |r| == |data|
    decreases |data|
  {
    if data == [] then []
    else DecryptBlock(k, data[..k.BlockBytes()]) + Decrypt(k, data[k.BlockBytes()..])
  }

  lemma {:induction false} EcbRoundTrip(k: Key, data: seq<byte>)
    requires k.ops.Sound() && k.Valid() && WholeBlocks(|data|, k.BlockBytes())
    ensures Decrypt(k, Encrypt(k, data)) == data
    ensures Encrypt(k, Decrypt(k, data)) == data
    decreases |data|
  {
    hide EncryptBlock, DecryptBlock, WordOps.Sound;
    if data != [] {
      var bb := k.BlockBytes();
      var c, p := Encrypt(k, data), Decrypt(k, data);
      assert c[..bb] == EncryptBlock(k, data[..bb]) && c[bb..] == Encrypt(k, data[bb..]);
      assert p[..bb] == DecryptBlock(k, data[..bb]) && p[bb..] == Decrypt(k, data[bb..]);
      BlockRoundTrip(k, data[..bb]);
      EcbRoundTrip(k, data[bb..]);
    }
  }

  // ECB block by block: two messages one after the other are encrypted each on its own ...
  lemma {:induction false} EcbJoins(k: Key, x: seq<byte>, y: seq<byte>)
    requires k.Valid() && WholeBlocks(|x|, k.BlockBytes()) && WholeBlocks(|y|, k.BlockBytes())
    ensures WholeBlocks(|x + y|, k.BlockBytes())
    ensures Encrypt(k, x + y) == Encrypt(k, x) + Encrypt(k, y)
    ensures Decrypt(k, x + y) == Decrypt(k, x) + Decrypt(k, y)
    decreases |x|
  {
    hide EncryptBlock, DecryptBlock;
    if x == [] {
      assert x + y == y;
    } else {
      var bb := k.BlockBytes();
      CutHead(x, y, bb);
      EcbJoins(k, x[bb..], y);
    }
  }

  // ... and a single block is just encrypted.
  lemma {:induction false} EcbOfBlock(k: Key, block: seq<byte>)
    requires k.Valid() && |block| == k.BlockBytes() > 0
    ensures WholeBlocks(|block|, k.BlockBytes())
    ensures Encrypt(k, block) == EncryptBlock(k, block) && Decrypt(k, block) == DecryptBlock(k, block)
  {
    hide EncryptBlock, DecryptBlock;
    assert block[..|block|] == block && block[|block|..] == [];
    assert EncryptBlock(k, block) + [] == EncryptBlock(k, block);
    assert DecryptBlock(k, block) + [] == DecryptBlock(k, block);
  }

  lemma {:induction false} CutHead(x: seq<byte>, y: seq<byte>, n: nat)
    requires n <= |x|
    ensures (x + y)[..n] == x[..n] && (x + y)[n..] == x[n..] + y
  {
  }
}
