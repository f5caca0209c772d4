/**
 The constructor of `LockFreeQueue`: it rounds the capacity up to a power of two by smearing
 the top bit downwards, so that masking a ticket selects its slot. Machine words are naturals
 below 2^64 with the bit operations spelled out.
 */
module RingCapacity {
  import opened Basics
  import opened LockFreeQueue

  function Pow2(k: nat): (p: nat)
    ensures p >= 1
  {
    if k == 0 then 1 else 2 * Pow2(k - 1)
  }

  /** Bit `i` of `x`. */
  predicate Bit(x: nat, i: nat) {
    if i == 0 then x % 2 == 1 else Bit(x / 2, i - 1)
  }

  function Shr(x: nat, k: nat): nat {
    if k == 0 then x else Shr(x / 2, k - 1)
  }

  function Or(x: nat, y: nat): nat {
    if x == 0 && y == 0 then 0 else (if x % 2 == 1 || y % 2 == 1 then 1 else 0) + 2 * Or(x / 2, y / 2)
  }

  function And(x: nat, y: nat): nat {
    if x == 0 || y == 0 then 0 else (if x % 2 == 1 && y % 2 == 1 then 1 else 0) + 2 * And(x / 2, y / 2)
  }

  /** The number of bits up to the topmost one. */
  function Length(x: nat): nat {
    if x == 0 then 0 else 1 + Length(x / 2)
  }

  // ---- bits ----

  lemma {:induction false} BitShr(x: nat, k: nat, i: nat)
    ensures Bit(Shr(x, k), i) == Bit(x, i + k)
  {
    if k > 0 { BitShr(x / 2, k - 1, i); }
  }

  lemma {:induction false} BitZero(i: nat)
    ensures !Bit(0, i)
  {
    if i > 0 { BitZero(i - 1); }
  }

  lemma {:induction false} BitOr(x: nat, y: nat, i: nat)
    ensures Bit(Or(x, y), i) == (Bit(x, i) || Bit(y, i))
  {
    if x == 0 && y == 0 {
      BitZero(i);
    } else {
      assert Or(x, y) / 2 == Or(x / 2, y / 2);
      if i > 0 { BitOr(x / 2, y / 2, i - 1); }
    }
  }

  lemma {:induction false} SameBits(x: nat, y: nat)
    requires forall i: nat :: Bit(x, i) == Bit(y, i)
    ensures x == y
    decreases x + y
  {
    if x + y > 0 {
      assert Bit(x, 0) == Bit(y, 0);
      forall i: nat ensures Bit(x / 2, i) == Bit(y / 2, i) {
        assert Bit(x, i + 1) == Bit(y, i + 1);
      }
      SameBits(x / 2, y / 2);
    }
  }

  lemma {:induction false} TopBit(x: nat, i: nat)
    ensures x > 0 && i == Length(x) - 1 ==> Bit(x, i)
    ensures i >= Length(x) ==> !Bit(x, i)
    ensures x < Pow2(Length(x)) && (x > 0 ==> Pow2(Length(x) - 1) <= x)
  {
    if x == 0 {
      BitZero(i);
    } else {
      TopBit(x / 2, if i > 0 then i - 1 else 0);
    }
  }

  lemma {:induction false} BitOnes(k: nat, i: nat)
    ensures Bit(Pow2(k) - 1, i) == (i < k)
  {
    if k == 0 {
      BitZero(i);
    } else {
      assert (Pow2(k) - 1) / 2 == Pow2(k - 1) - 1;
      if i > 0 { BitOnes(k - 1, i - 1); }
    }
  }

  lemma HalfRemainder(t: nat, n: nat)
    requires n > 0
    ensures t % (2 * n) == 2 * ((t / 2) % n) + t % 2
  {
    var q, r := t / 2 / n, (t / 2) % n;
    assert t / 2 == n * q + r;
    assert 2 * (n * q) == (2 * n) * q;
    RemainderUnique(t, q, 2 * r + t % 2, 2 * n);
  }

  lemma AndHalf(t: nat, m: nat)
    requires m % 2 == 1
    ensures And(t, m) == t % 2 + 2 * And(t / 2, m / 2)
  {
  }

  lemma AndMaskStep(t: nat, n: nat)
    requires n > 0 && And(t / 2, n - 1) == (t / 2) % n
    ensures And(t, 2 * n - 1) == t % (2 * n)
  {
    hide And;
    assert (2 * n - 1) % 2 == 1 && (2 * n - 1) / 2 == n - 1;
    AndHalf(t, 2 * n - 1);
    HalfRemainder(t, n);
  }

  /** Masking with a power of two less one is the remainder. */
  lemma {:induction false} AndMask(t: nat, k: nat)
    ensures And(t, Pow2(k) - 1) == t % Pow2(k)
  {
    hide And;
    if k == 0 {
      AndZero(t);
    } else {
      AndMask(t / 2, k - 1);
      AndMaskStep(t, Pow2(k - 1));
    }
  }

  lemma AndZero(t: nat)
    ensures And(t, 0) == 0
  {
  }

  // ---- the smear ----

  /** `x` has a one bit in the window of `w` bits from `lo` upwards. */
  ghost predicate OneIn(x: nat, lo: nat, w: nat) {
    exists j: nat :: lo <= j < lo + w && Bit(x, j)
  }

  lemma OneAt(x: nat, lo: nat, w: nat, j: nat)
    requires lo <= j < lo + w && Bit(x, j)
    ensures OneIn(x, lo, w)
  {
  }

  /** Bit `i` of `y` says whether `x` has a bit in the window of `w` bits from `i` upwards. */
  ghost predicate Covers(x: nat, y: nat, w: nat) {
    forall i: nat :: Bit(y, i) <==> OneIn(x, i, w)
  }

  lemma SmearStep(x: nat, y: nat, w: nat)
    requires Covers(x, y, w)
    ensures Covers(x, Or(y, Shr(y, w)), 2 * w)
  {
    var z := Or(y, Shr(y, w));
    forall i: nat ensures Bit(z, i) <==> OneIn(x, i, 2 * w) {
      BitOr(y, Shr(y, w), i);
      BitShr(y, w, i);
      assert Bit(y, i) == OneIn(x, i, w) && Bit(y, i + w) == OneIn(x, i + w, w);
    }
  }

  /** No stretch of `w` zero bits below the topmost one. */
  ghost predicate Dense(x: nat, w: nat) {
    forall i: nat :: i < Length(x) ==> OneIn(x, i, w)
  }

  /** The covering number is all ones exactly when the covered number has no gap as wide as the window. */
  lemma CoveredOnes(x: nat, y: nat, w: nat)
    requires Covers(x, y, w) && w > 0
    ensures Dense(x, w) ==> y == Pow2(Length(x)) - 1
    ensures (exists k: nat :: y + 1 == Pow2(k)) ==> Dense(x, w)
  {
    if Dense(x, w) {
      DenseOnes(x, y, w);
    } else if k: nat :| y + 1 == Pow2(k) {
      var i: nat :| i < Length(x) && !OneIn(x, i, w);
      var top := Length(x) - 1;
      TopBit(x, top);
      OneAt(x, top, w, top);
      assert Bit(y, top) && !Bit(y, i);
      BitOnes(k, i);
      BitOnes(k, top);
    }
  }

  lemma DenseOnes(x: nat, y: nat, w: nat)
    requires Covers(x, y, w) && Dense(x, w)
    ensures y == Pow2(Length(x)) - 1
  {
    var l := Length(x);
    forall i: nat ensures Bit(y, i) == Bit(Pow2(l) - 1, i) {
      BitOnes(l, i);
      if i >= l && OneIn(x, i, w) {
        var j: nat :| i <= j < i + w && Bit(x, j);
        TopBit(x, j);
      }
    }
    SameBits(y, Pow2(l) - 1);
  }

  lemma ShortIsDense(x: nat, w: nat)
    requires Length(x) <= w
    ensures Dense(x, w)
  {
    forall i: nat | i < Length(x) ensures OneIn(x, i, w) {
      TopBit(x, Length(x) - 1);
      OneAt(x, i, w, Length(x) - 1);
    }
  }

  lemma {:induction false} LengthBound(x: nat, k: nat)
    requires x < Pow2(k)
    ensures Length(x) <= k
  {
    if x > 0 { LengthBound(x / 2, k - 1); }
  }

  const WORD: nat := 0x1_0000_0000_0000_0000

  /** The six statements on `_capacityMask`. */
  function Smear(capacity: nat): nat {
    var m0 := (capacity + WORD - 1) % WORD;
    var m1 := Or(m0, Shr(m0, 1));
    var m2 := Or(m1, Shr(m1, 2));
    var m4 := Or(m2, Shr(m2, 4));
    var m8 := Or(m4, Shr(m4, 8));
    Or(m8, Shr(m8, 16))
  }

  lemma SmearCovers(capacity: nat)
    requires 1 <= capacity < WORD
    ensures Covers(capacity - 1, Smear(capacity), 32)
  {
    var m0 := capacity - 1;
    assert (capacity + WORD - 1) % WORD == m0;
    forall i: nat ensures Bit(m0, i) <==> OneIn(m0, i, 1) {
      if Bit(m0, i) { OneAt(m0, i, 1, i); }
    }
    assert Covers(m0, m0, 1);
    var m1 := Or(m0, Shr(m0, 1));
    SmearStep(m0, m0, 1);
    var m2 := Or(m1, Shr(m1, 2));
    SmearStep(m0, m1, 2);
    var m4 := Or(m2, Shr(m2, 4));
    SmearStep(m0, m2, 4);
    var m8 := Or(m4, Shr(m4, 8));
    SmearStep(m0, m4, 8);
    SmearStep(m0, m8, 16);
  }

  /**
   Five shifts smear a one over 32 bits: the ring size is a power of two exactly when the
   capacity less one has no 32 zero bits in a row below its topmost one, and then it is the least
   power of two that is not smaller than the capacity. Up to 2^32 that is always so.
   */
  lemma LeastPowerOfTwo(capacity: nat)
    requires 1 <= capacity < WORD
    ensures (exists k: nat :: Smear(capacity) + 1 == Pow2(k)) <==> Dense(capacity - 1, 32)
    ensures Dense(capacity - 1, 32) ==>
              var k := Length(capacity - 1);
              Smear(capacity) + 1 == Pow2(k) >= capacity && (k > 0 ==> Pow2(k - 1) < capacity)
    ensures capacity <= 0x1_0000_0000 ==> Dense(capacity - 1, 32)
  {
    hide Smear, Covers, Dense, Bit, OneIn;
    SmearCovers(capacity);
    CoveredOnes(capacity - 1, Smear(capacity), 32);
    TopBit(capacity - 1, 0);
    if capacity <= 0x1_0000_0000 { SmallIsDense(capacity - 1); }
  }

  lemma SmallIsDense(x: nat)
    requires x < 0x1_0000_0000
    ensures Dense(x, 32)
  {
    Pow32();
    LengthBound(x, 32);
    ShortIsDense(x, 32);
  }

  lemma Pow32()
    ensures Pow2(32) == 0x1_0000_0000
  {
    assert Pow2(8) == 0x100;
    assert Pow2(16) == 0x1_0000;
    assert Pow2(24) == 0x100_0000;
  }

  lemma {:induction false} BitPow(k: nat, i: nat)
    ensures Bit(Pow2(k), i) <==> i == k
  {
    if k == 0 {
      if i > 0 { BitZero(i - 1); }
    } else if i > 0 {
      BitPow(k - 1, i - 1);
    }
  }

  /** One more than a power of two from 2^33 on is a capacity for which the size comes out wrong. */
  lemma GapFails(k: nat)
    requires k >= 33 && Pow2(k) + 1 < WORD
    ensures !exists j: nat :: Smear(Pow2(k) + 1) + 1 == Pow2(j)
  {
    hide Smear;
    var x := Pow2(k);
    forall j: nat | j < 32 ensures !Bit(x, j) { BitPow(k, j); }
    assert !OneIn(x, 0, 32) && Length(x) > 0;
    LeastPowerOfTwo(x + 1);
  }

  /** The smallest of them. */
  lemma FirstGap()
    ensures !exists j: nat :: Smear(0x2_0000_0001) + 1 == Pow2(j)
  {
    Pow32();
    assert Pow2(33) == 0x2_0000_0000;
    GapFails(33);
  }

  /** Indexing the ring with the mask is then indexing it modulo the ring size. */
  lemma MaskIsModulo(capacity: nat, t: nat)
    requires 1 <= capacity < WORD && Dense(capacity - 1, 32)
    ensures And(t, Smear(capacity)) == t % (Smear(capacity) + 1)
  {
    LeastPowerOfTwo(capacity);
    AndMask(t, Length(capacity - 1));
  }

  /**
   The constructor: it allocates the ring and stamps the slots in a loop. The head stamp -1 is
   the largest word in the source; no ticket reaches it.
   */
  method NewQueue<T(0)>(capacity: nat) returns (slots: array<Slot<T>>, mask: nat)
    requires capacity < WORD
    ensures mask == Smear(capacity) && slots.Length == (mask + 1) % WORD
    ensures 1 <= capacity && Dense(capacity - 1, 32) ==> forall t: nat :: And(t, mask) == t % (mask + 1)
    ensures slots[..] == Constructed<T>(slots.Length).q.slots
  {
    mask := Smear(capacity);
    if 1 <= capacity && Dense(capacity - 1, 32) {
      forall t: nat ensures And(t, mask) == t % (mask + 1) { MaskIsModulo(capacity, t); }
    }
    slots := new Slot<T>[(mask + 1) % WORD](_ => Slot(None, 0, 0));
    for i := 0 to slots.Length
      invariant forall j :: 0 <= j < i ==> slots[j] == Slot(None, j, -1)
    {
      slots[i] := Slot(None, i, -1);
    }
  }
}
