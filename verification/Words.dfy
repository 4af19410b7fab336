// The word arithmetic that RC5 needs, as a record of operations.  The cipher is written
// over any sound record, and SourceWords(u) is the record the program computes with.
module Words {
  import opened Bits

  datatype WordOps = WordOps(
    u: nat,                       // bytes per word
    max: nat,                     // largest word
    mask: int -> nat,             // x & max
    xor: (nat, nat) -> nat,
    rotl: (nat, nat) -> nat,      // the amount is reduced modulo the word size
    rotr: (nat, nat) -> nat)
  {
    predicate MaskFits(x: int) { mask(x) <= max }

    // ((a + s) & max - s) & max
    predicate AddUndone(a: nat, s: int) { mask(mask(a + s) - s) == a }

    predicate XorUndone(a: nat, b: nat) { xor(a, b) <= max && xor(xor(a, b), b) == a }

    predicate RotlUndone(v: nat, n: nat) { rotl(v, n) <= max && rotr(rotl(v, n), n) == v }

    predicate RotrUndone(v: nat, n: nat) { rotr(v, n) <= max && rotl(rotr(v, n), n) == v }

    predicate MaskKeeps(x: nat) { mask(x) == x }

    ghost predicate Sound() {
      && (u == 4 || u == 8)
      && max + 1 == Pow2(8 * u)
      && (forall x :: MaskFits(x))
      && (forall x: nat :: x <= max ==> MaskKeeps(x))
      && (forall a: nat, s :: a <= max ==> AddUndone(a, s))
      && (forall a: nat, b: nat :: a <= max && b <= max ==> XorUndone(a, b))
      && (forall v: nat, n: nat :: v <= max ==> RotlUndone(v, n))
      && (forall v: nat, n: nat :: v <= max ==> RotrUndone(v, n))
    }
  }

  // 32-bit words for 8-byte blocks, 64-bit words for 16-byte blocks.
  function SourceWords(u: nat): WordOps
    requires u == 4 || u == 8
  {
    var w := 8 * u;
    WordOps(u, Pow2(w) - 1,
            x => Low(x, w),
            (a, b) => Xor(a, b),
            (v, n) => RotL(w, v, n),
            (v, n) => RotR(w, v, n))
  }

  lemma SourceWordsSound(u: nat)
    requires u == 4 || u == 8
    ensures SourceWords(u).Sound()
  {
    hide Low, Xor, RotL, RotR, Pow2;
    var w := 8 * u;
    var ops := SourceWords(u);
    forall x: nat | x <= ops.max ensures ops.MaskKeeps(x) {
      LowOfSmall(x, w);
    }
    forall a: nat, s: int | a <= ops.max ensures ops.AddUndone(a, s) {
      SubUndoesAdd(a, s, w);
    }
    forall a: nat, b: nat | a <= ops.max && b <= ops.max ensures ops.XorUndone(a, b) {
      XorBound(a, b, w);
      XorCancel(a, b);
    }
    forall v: nat, n: nat | v <= ops.max ensures ops.RotlUndone(v, n) {
      RotationsUndo(w, v, n);
    }
    forall v: nat, n: nat | v <= ops.max ensures ops.RotrUndone(v, n) {
      RotationsUndo(w, v, n);
    }
  }
}
