// Machine words as naturals.  A w-bit word is a natural below Pow2(w).  The operators
// "<<", ">>", "|", "^" and "& (2^w - 1)" are defined bit by bit.
module Bits {

  function Pow2(n: nat): (r: nat)
    ensures r >= 1
  {
    if n == 0 then 1 else 2 * Pow2(n - 1)
  }

  lemma {:induction false} Pow2Add(a: nat, b: nat)
    ensures Pow2(a + b) == Pow2(a) * Pow2(b)
  {
    if a == 0 {
    } else {
      Pow2Add(a - 1, b);
      assert Pow2(a + b) == 2 * Pow2(a - 1 + b);
    }
  }

  lemma {:induction false} WordSizes()
    ensures Pow2(5) == 32 && Pow2(6) == 64
    ensures Pow2(8) == 0x100
    ensures Pow2(16) == 0x1_0000
    ensures Pow2(24) == 0x100_0000
    ensures Pow2(32) == 0x1_0000_0000
    ensures Pow2(64) == 0x1_0000_0000_0000_0000
  {
    assert Pow2(8) == 2 * 2 * 2 * 2 * Pow2(4);
    Pow2Add(8, 8);
    Pow2Add(8, 16);
    Pow2Add(16, 16);
    Pow2Add(32, 32);
  }

  // ---------------------------------------------------------------- bitwise operations

  function Xor(a: nat, b: nat): nat
    decreases a + b
  {
    if a == 0 && b == 0 then 0
    else (if a % 2 == b % 2 then 0 else 1) + 2 * Xor(a / 2, b / 2)
  }

  function BitOr(a: nat, b: nat): nat
    decreases a + b
  {
    if a == 0 && b == 0 then 0
    else (if a % 2 == 0 && b % 2 == 0 then 0 else 1) + 2 * BitOr(a / 2, b / 2)
  }

  lemma {:induction false} XorZero(a: nat)
    ensures Xor(a, 0) == a
  {
    if a > 0 { XorZero(a / 2); }
  }

  lemma {:induction false} XorComm(a: nat, b: nat)
    ensures Xor(a, b) == Xor(b, a)
    decreases a + b
  {
    if a > 0 || b > 0 { XorComm(a / 2, b / 2); }
  }

  lemma {:induction false} XorSelf(a: nat)
    ensures Xor(a, a) == 0
  {
    if a > 0 { XorSelf(a / 2); }
  }

  lemma {:induction false} XorUnfold(a: nat, b: nat)
    ensures Xor(a, b) == (if a % 2 == b % 2 then 0 else 1) + 2 * Xor(a / 2, b / 2)
  {}

  lemma {:induction false} XorParts(a: nat, b: nat)
    ensures Xor(a, b) % 2 == (if a % 2 == b % 2 then 0 else 1)
    ensures Xor(a, b) / 2 == Xor(a / 2, b / 2)
  {
    XorUnfold(a, b);
  }

  lemma {:induction false} XorAssoc(a: nat, b: nat, c: nat)
    ensures Xor(Xor(a, b), c) == Xor(a, Xor(b, c))
    decreases a + b + c
  {
    if a > 0 || b > 0 || c > 0 {
      XorAssoc(a / 2, b / 2, c / 2);
      XorParts(a, b);
      XorParts(b, c);
      XorUnfold(Xor(a, b), c);
      XorUnfold(a, Xor(b, c));
    }
  }

  // Masking twice with the same value gives the original back.
  lemma {:induction false} XorCancel(a: nat, b: nat)
    ensures Xor(Xor(a, b), b) == a
  {
    XorAssoc(a, b, b);
    XorSelf(b);
    XorZero(a);
  }

  lemma {:induction false} XorBound(a: nat, b: nat, w: nat)
    requires a < Pow2(w) && b < Pow2(w)
    ensures Xor(a, b) < Pow2(w)
  {
    if w > 0 { XorBound(a / 2, b / 2, w - 1); }
  }

  // XOR works on the bytes of its operands separately.
  lemma {:induction false} XorOfBytes(a: nat, a0: nat, b: nat, b0: nat)
    requires a0 < 0x100 && b0 < 0x100
    ensures Xor(a * 0x100 + a0, b * 0x100 + b0) == Xor(a, b) * 0x100 + Xor(a0, b0)
  {
    hide Xor;
    XorOfNibbles(a, a0 / 16, b, b0 / 16);
    XorOfNibbles(a * 16 + a0 / 16, a0 % 16, b * 16 + b0 / 16, b0 % 16);
    XorOfNibbles(a0 / 16, a0 % 16, b0 / 16, b0 % 16);
  }

  lemma {:induction false} XorOfNibbles(a: nat, a0: nat, b: nat, b0: nat)
    requires a0 < 16 && b0 < 16
    ensures Xor(a * 16 + a0, b * 16 + b0) == Xor(a, b) * 16 + Xor(a0, b0)
  {
    hide Xor;
    XorOfPairs(a, a0 / 4, b, b0 / 4);
    XorOfPairs(a * 4 + a0 / 4, a0 % 4, b * 4 + b0 / 4, b0 % 4);
    XorOfPairs(a0 / 4, a0 % 4, b0 / 4, b0 % 4);
  }

  lemma {:induction false} XorOfPairs(a: nat, a0: nat, b: nat, b0: nat)
    requires a0 < 4 && b0 < 4
    ensures Xor(a * 4 + a0, b * 4 + b0) == Xor(a, b) * 4 + Xor(a0, b0)
  {
    hide Xor;
    XorOfBits(a * 2 + a0 / 2, a0 % 2, b * 2 + b0 / 2, b0 % 2);
    XorOfBits(a, a0 / 2, b, b0 / 2);
    XorOfBits(a0 / 2, a0 % 2, b0 / 2, b0 % 2);
    XorOfBits(0, a0 / 2, 0, b0 / 2);
    XorZero(0);
  }

  lemma {:induction false} XorOfBits(a: nat, x: nat, b: nat, y: nat)
    requires x < 2 && y < 2
    ensures Xor(a * 2 + x, b * 2 + y) == Xor(a, b) * 2 + (if x == y then 0 else 1)
  {
    hide Xor;
    XorUnfold(a * 2 + x, b * 2 + y);
  }

  lemma {:induction false} OrZero(a: nat)
    ensures BitOr(a, 0) == a
  {
    if a > 0 { OrZero(a / 2); }
  }

  lemma {:induction false} OrComm(a: nat, b: nat)
    ensures BitOr(a, b) == BitOr(b, a)
    decreases a + b
  {
    if a > 0 || b > 0 { OrComm(a / 2, b / 2); }
  }

  // ---------------------------------------------------------------- shifts

  // v << k
  function Shl(v: nat, k: nat): nat
  {
    if k == 0 then v else 2 * Shl(v, k - 1)
  }

  lemma {:induction false} ShlIsMul(v: nat, k: nat)
    ensures Shl(v, k) == v * Pow2(k)
  {
    if k > 0 { ShlIsMul(v, k - 1); }
  }

  // v >> k
  function Shr(v: nat, k: nat): nat
  {
    if k == 0 then v else Shr(v / 2, k - 1)
  }

  // v & (2^k - 1); a negative v is taken in two's complement, as Python does.
  function Low(v: int, k: nat): (r: nat)
    ensures r < Pow2(k)
    decreases k
  {
    if k == 0 then 0 else v % 2 + 2 * Low(v / 2, k - 1)
  }

  lemma {:induction false} ShrBound(v: nat, a: nat, b: nat)
    requires v < Pow2(a + b)
    ensures Shr(v, a) < Pow2(b)
  {
    if a > 0 { ShrBound(v / 2, a - 1, b); }
  }

  // A word is its high part and its low part put side by side.
  lemma {:induction false} SplitAt(v: nat, k: nat)
    ensures Shl(Shr(v, k), k) + Low(v, k) == v
  {
    if k > 0 { SplitAt(v / 2, k - 1); }
  }

  lemma {:induction false} JoinParts(x: nat, b: nat, k: nat)
    requires b < Pow2(k)
    ensures Shr(Shl(x, k) + b, k) == x
    ensures Low(Shl(x, k) + b, k) == b
  {
    if k > 0 {
      JoinParts(x, b / 2, k - 1);
      assert Shl(x, k) + b == 2 * (Shl(x, k - 1) + b / 2) + b % 2;
    }
  }

  lemma {:induction false} LowOfJoin(v: nat, b: nat, k: nat, m: nat)
    requires b < Pow2(k)
    ensures Low(Shl(v, k) + b, k + m) == Shl(Low(v, m), k) + b
  {
    if k > 0 {
      LowOfJoin(v, b / 2, k - 1, m);
      assert Shl(v, k) + b == 2 * (Shl(v, k - 1) + b / 2) + b % 2;
    }
  }

  // Two operands that share no bit: "|" is "+".
  lemma {:induction false} DisjointOr(a: nat, b: nat, k: nat)
    requires b < Pow2(k)
    ensures BitOr(Shl(a, k), b) == Shl(a, k) + b
  {
    if k == 0 { OrZero(a); } else { DisjointOr(a, b / 2, k - 1); }
  }

  // ---------------------------------------------------------------- modular addition

  lemma {:induction false} LowOfSmall(v: nat, k: nat)
    requires v < Pow2(k)
    ensures Low(v, k) == v
  {
    if k > 0 { LowOfSmall(v / 2, k - 1); }
  }

  lemma {:induction false} LowOfSum(x: int, y: int, k: nat)
    ensures Low(Low(x, k) + y, k) == Low(x + y, k)
    decreases k
  {
    if k > 0 {
      var carry := (x % 2 + y) / 2;
      LowOfSum(x / 2, carry, k - 1);
      assert (x + y) / 2 == x / 2 + carry;
      assert (Low(x, k) + y) / 2 == Low(x / 2, k - 1) + carry;
    }
  }

  // ((a + s) & mask - s) & mask
  lemma {:induction false} SubUndoesAdd(a: nat, s: int, w: nat)
    requires a < Pow2(w)
    ensures Low(Low(a + s, w) - s, w) == a
  {
    LowOfSum(a + s, -s, w);
    LowOfSmall(a, w);
  }

  // ---------------------------------------------------------------- rotations

  // ((v << k) | (v >> (w - k))) & mask
  function RotLBy(w: nat, v: nat, k: nat): nat
    requires k < w
  {
    Low(BitOr(Shl(v, k), Shr(v, w - k)), w)
  }

  // ((v >> k) | (v << (w - k))) & mask
  function RotRBy(w: nat, v: nat, k: nat): nat
    requires k < w
  {
    Low(BitOr(Shr(v, k), Shl(v, w - k)), w)
  }

  predicate WordSize(w: nat) {
    w == 32 || w == 64
  }

  // n & 31 or n & 63
  function Amount(w: nat, n: nat): (k: nat)
    requires WordSize(w)
    ensures k < w
  {
    WordSizes();
    if w == 32 then Low(n, 5) else Low(n, 6)
  }

  // _rotl32 and _rotl64, _rotr32 and _rotr64
  function RotL(w: nat, v: nat, n: nat): (r: nat)
    requires WordSize(w)
    ensures r < Pow2(w)
  {
    RotLBy(w, v, Amount(w, n))
  }

  function RotR(w: nat, v: nat, n: nat): (r: nat)
    requires WordSize(w)
    ensures r < Pow2(w)
  {
    RotRBy(w, v, Amount(w, n))
  }

  // Both rotations put the two parts of the word side by side the other way round.
  lemma {:induction false} RotateParts(v: nat, k: nat, m: nat)
    requires v < Pow2(k + m)
    ensures Shr(v, m) < Pow2(k)
    ensures Low(BitOr(Shl(v, k), Shr(v, m)), k + m) == Shl(Low(v, m), k) + Shr(v, m)
    ensures Low(BitOr(Shr(v, m), Shl(v, k)), k + m) == Shl(Low(v, m), k) + Shr(v, m)
  {
    ShrBound(v, m, k);
    OrComm(Shr(v, m), Shl(v, k));
    DisjointOr(v, Shr(v, m), k);
    LowOfJoin(v, Shr(v, m), k, m);
  }

  lemma {:induction false} RotRByUndoes(v: nat, k: nat, w: nat)
    requires k < w && v < Pow2(w)
    ensures RotRBy(w, RotLBy(w, v, k), k) == v
  {
    var m := w - k;
    RotateParts(v, k, m);
    RotateParts(RotLBy(w, v, k), m, k);
    JoinParts(Low(v, m), Shr(v, m), k);
    SplitAt(v, m);
  }

  lemma {:induction false} RotLByUndoes(v: nat, k: nat, w: nat)
    requires k < w && v < Pow2(w)
    ensures RotLBy(w, RotRBy(w, v, k), k) == v
  {
    var m := w - k;
    RotateParts(v, m, k);
    RotateParts(RotRBy(w, v, k), k, m);
    JoinParts(Low(v, k), Shr(v, k), m);
    SplitAt(v, k);
  }

  lemma {:induction false} RotationsUndo(w: nat, v: nat, n: nat)
    requires WordSize(w) && v < Pow2(w)
    ensures RotR(w, RotL(w, v, n), n) == v
    ensures RotL(w, RotR(w, v, n), n) == v
  {
    RotRByUndoes(v, Amount(w, n), w);
    RotLByUndoes(v, Amount(w, n), w);
  }

  // ---------------------------------------------------------------- what the operations mean

  // "&" with the mask of k bits is the remainder: v is q times the range of k-bit words and r.
  lemma {:induction false} LowIsRest(q: nat, r: nat, k: nat)
    requires r < Pow2(k)
    ensures Low(q * Pow2(k) + r, k) == r && Shr(q * Pow2(k) + r, k) == q
  {
    hide Low, Shr, Pow2;
    ShlIsMul(q, k);
    JoinParts(q, r, k);
  }

  lemma {:induction false} Low32(v: nat)
    ensures Low(v, 32) == v % 0x1_0000_0000
  {
    hide Low, Shr, Pow2;
    WordSizes();
    LowIsRest(v / 0x1_0000_0000, v % 0x1_0000_0000, 32);
  }

  // A left rotation by n moves the low part of the word up and its high part round to the bottom,
  // the amount taken modulo the word size.
  lemma {:induction false} RotLMeans(w: nat, n: nat, k: nat, high: nat, low: nat)
    requires WordSize(w) && k == Amount(w, n) && high < Pow2(k) && low < Pow2(w - k)
    ensures RotL(w, high * Pow2(w - k) + low, n) == low * Pow2(k) + high
  {
    hide Low, Shl, Shr, BitOr, Pow2, Amount;
    var v := high * Pow2(w - k) + low;
    LowIsRest(high, low, w - k);
    ShlIsMul(low, k);
    SplitBound(high, low, k, w - k);
    RotateParts(v, k, w - k);
  }

  lemma {:induction false} SplitBound(high: nat, low: nat, k: nat, m: nat)
    requires high < Pow2(k) && low < Pow2(m)
    ensures high * Pow2(m) + low < Pow2(k + m)
  {
    hide Pow2;
    Pow2Add(k, m);
    MulLess(high, Pow2(k), Pow2(m));
  }

  lemma {:induction false} MulLess(a: nat, b: nat, c: nat)
    requires a < b
    ensures a * c + c <= b * c
  {
    assert (a + 1) * c <= b * c;
  }

  lemma {:induction false} AmountIsRemainder(n: nat)
    ensures Amount(32, n) == n % 32 && Amount(64, n) == n % 64
  {
    hide Low, Shr, Pow2;
    WordSizes();
    LowIsRest(n / 32, n % 32, 5);
    LowIsRest(n / 64, n % 64, 6);
  }
}
