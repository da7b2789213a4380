/** 64-bit words and the numbers that they denote. */
module Words {
  import opened Indexing

  function Val(b: bv64): nat
    decreases b
  {
    if b == 0 then 0 else 2 * Val(b >> 1) + (if b & 1 == 1 then 1 else 0)
  }

  function Pow2(k: nat): (n: nat)
    ensures n > 0
  {
    if k == 0 then 1 else 2 * Pow2(k - 1)
  }

  /** The word whose k lowest bits are set. */
  function Ones(k: nat): bv64 {
    if k == 0 then 0 else (Ones(k - 1) << 1) | 1
  }

  function FromNat(n: nat): bv64 {
    if n == 0 then 0 else (FromNat(n / 2) << 1) | (if n % 2 == 1 then 1 else 0)
  }

  lemma ValStep(b: bv64)
    ensures Val(b) == 2 * Val(b >> 1) + (if b & 1 == 1 then 1 else 0)
  {
  }

  lemma ValCons(x: bv64, low: bv64)
    requires x & 0x8000_0000_0000_0000 == 0 && low <= 1
    ensures Val((x << 1) | low) == 2 * Val(x) + (if low == 1 then 1 else 0)
  {
  }

  // ----- injectivity

  lemma {:induction false} ValPositive(a: bv64)
    requires a != 0
    ensures Val(a) > 0
    decreases a
  {
    if a >> 1 != 0 {
      ValPositive(a >> 1);
    } else {
      assert a == 1;
    }
  }

  function Half(b: bv64): bv64 { b >> 1 }

  predicate Odd(b: bv64) { b & 1 == 1 }

  lemma Halves(a: bv64, b: bv64)
    requires Val(a) == Val(b)
    ensures Odd(a) == Odd(b) && Val(Half(a)) == Val(Half(b))
    ensures a != 0 ==> Val(Half(a)) < Val(a)
  {
    ValStep(a);
    ValStep(b);
    if a != 0 { ValPositive(a); }
    hide Val;
  }

  lemma Join(a: bv64, b: bv64)
    requires Half(a) == Half(b) && Odd(a) == Odd(b)
    ensures a == b
  {
  }

  lemma {:induction false} ValInjective(a: bv64, b: bv64)
    requires Val(a) == Val(b)
    ensures a == b
    decreases Val(a)
  {
    hide *;
    if a == 0 {
      ValZero(a);
      ValZero(b);
    } else {
      Halves(a, b);
      ValInjective(Half(a), Half(b));
      Join(a, b);
    }
  }

  lemma ValZero(a: bv64)
    ensures Val(a) == 0 <==> a == 0
  {
  }

  // ----- powers of two
  lemma OnesMask(a: bv64, o: bv64)
    requires (a >> 1) & !o == 0
    ensures a & !((o << 1) | 1) == 0
  {
  }

  lemma {:induction false} Below(a: bv64, k: nat)
    requires Val(a) < Pow2(k)
    ensures a & !Ones(k) == 0
    decreases k
  {
    ValStep(a);
    if k == 0 {
      if a != 0 { ValPositive(a); }
    } else {
      Below(a >> 1, k - 1);
      OnesMask(a, Ones(k - 1));
    }
  }

  lemma Join4(o: bv64)
    ensures (((o << 2) | 3) << 2) | 3 == (o << 4) | 15
  {
  }

  lemma Ones2(k: nat)
    ensures Ones(k + 2) == (Ones(k) << 2) | 3
  {
  }

  lemma Ones4(k: nat)
    ensures Ones(k + 4) == (Ones(k) << 4) | 15
  {
    Ones2(k);
    Ones2(k + 2);
    Join4(Ones(k));
  }

  lemma OnesAre()
    ensures Ones(32) == 0xffff_ffff && Ones(52) == 0xf_ffff_ffff_ffff && Ones(63) == 0x7fff_ffff_ffff_ffff
  {
    assert Ones(0) == 0;
    Ones4(0);
    Ones4(4);
    Ones4(8);
    Ones4(12);
    Ones4(16);
    Ones4(20);
    Ones4(24);
    Ones4(28);
    assert Ones(32) == 0xffff_ffff;
    Ones4(32);
    Ones4(36);
    Ones4(40);
    Ones4(44);
    Ones4(48);
    assert Ones(52) == 0xf_ffff_ffff_ffff;
    Ones4(52);
    Ones4(56);
    Ones2(60);
    assert Ones(63) == (Ones(62) << 1) | 1;
  }

  lemma {:induction false} Pow2Monotone(j: nat, k: nat)
    requires j <= k
    ensures Pow2(j) <= Pow2(k)
    decreases k - j
  {
    if j < k { Pow2Monotone(j + 1, k); }
  }

  lemma TopClear(x: bv64)
    requires Val(x) < Pow2(63)
    ensures x & 0x8000_0000_0000_0000 == 0
  {
    hide Val, Pow2;
    Below(x, 63);
    OnesAre();
    hide Ones;
    assert x & !0x7fff_ffff_ffff_ffff == 0;
  }

  // ----- numbers as words

  lemma {:induction false} ValFromNat(n: nat)
    requires n < Pow2(64)
    ensures Val(FromNat(n)) == n
  {
    if n > 0 {
      ValFromNat(n / 2);
      assert n / 2 < Pow2(63);
      TopClear(FromNat(n / 2));
      ValCons(FromNat(n / 2), if n % 2 == 1 then 1 else 0);
    }
  }

  // ----- fields of a word

  function Shr(b: bv64, k: nat): bv64
    decreases k
  {
    if k == 0 then b else Shr(b >> 1, k - 1)
  }

  lemma ValHalf(b: bv64)
    ensures Val(b) == 2 * Val(Half(b)) + (if Odd(b) then 1 else 0)
  {
  }

  function Low(b: bv64, k: nat): bv64 { b & Ones(k) }

  lemma SplitStep(b: bv64, k: nat)
    requires k > 0
    ensures Half(Low(b, k)) == Low(Half(b), k - 1) && Odd(Low(b, k)) == Odd(b)
  {
  }

  lemma ShrStep(b: bv64, k: nat)
    requires k > 0
    ensures Shr(b, k) == Shr(Half(b), k - 1)
  {
  }

  lemma SplitZero(b: bv64)
    ensures Shr(b, 0) == b && Val(Low(b, 0)) == 0 && Pow2(0) == 1
  {
  }

  lemma PowStep(k: nat, x: nat)
    requires k > 0
    ensures Pow2(k) == 2 * Pow2(k - 1) && Pow2(k) * x == 2 * (Pow2(k - 1) * x)
  {
  }

  /** A word splits into its k lowest bits and the rest. */
  lemma {:induction false} Split(b: bv64, k: nat)
    ensures Val(b) == Pow2(k) * Val(Shr(b, k)) + Val(Low(b, k))
    ensures Val(Low(b, k)) < Pow2(k)
    decreases k
  {
    hide *;
    if k == 0 {
      SplitZero(b);
    } else {
      SplitStep(b, k);
      ShrStep(b, k);
      ValHalf(b);
      ValHalf(Low(b, k));
      Split(Half(b), k - 1);
      PowStep(k, Val(Shr(b, k)));
    }
  }

  /** Shifting divides, masking takes the remainder. */
  lemma Field(b: bv64, k: nat)
    ensures Val(Shr(b, k)) == Val(b) / Pow2(k)
    ensures Val(Low(b, k)) == Val(b) % Pow2(k)
  {
    Split(b, k);
    var q, n := Val(Shr(b, k)), Pow2(k);
    hide Low, Pow2, Shr, Val;
    assert EntryBase(0, q, n) == q * n == n * q;
    IndexOfUnique(0, Val(b), n, q);
    assert Val(b) / n == q;
  }

  // ----- concrete fields

  lemma {:induction false} ShrTwice(b: bv64, j: nat, k: nat)
    ensures Shr(b, j + k) == Shr(Shr(b, j), k)
    decreases j
  {
    if j > 0 {
      ShrStep(b, j + k);
      ShrStep(b, j);
      ShrTwice(Half(b), j - 1, k);
    }
    hide Half;
  }

  lemma Shift6(b: bv64)
    ensures (b >> 3) >> 3 == b >> 6
    ensures (b >> 6) >> 3 == b >> 9
    ensures (b >> 9) >> 3 == b >> 12
    ensures (b >> 12) >> 9 == b >> 21
    ensures (b >> 21) >> 9 == b >> 30
    ensures (b >> 30) >> 9 == b >> 39
  {
  }

  lemma Shr9(b: bv64)
    ensures Shr(b, 9) == b >> 9
  {
  }

  lemma Shr12(b: bv64)
    ensures Shr(b, 12) == b >> 12
  {
  }

  lemma Shr21(b: bv64)
    ensures Shr(b, 21) == b >> 21
  {
    hide *;
    Shift6(b);
    Shr12(b);
    Shr9(b >> 12);
    ShrTwice(b, 12, 9);
  }

  lemma Shr30(b: bv64)
    ensures Shr(b, 30) == b >> 30
  {
    hide *;
    Shift6(b);
    Shr21(b);
    Shr9(b >> 21);
    ShrTwice(b, 21, 9);
  }

  lemma Shr39(b: bv64)
    ensures Shr(b, 39) == b >> 39
  {
    hide *;
    Shift6(b);
    Shr30(b);
    Shr9(b >> 30);
    ShrTwice(b, 30, 9);
  }

  lemma Pow2Add(j: nat, k: nat)
    ensures Pow2(j + k) == Pow2(j) * Pow2(k)
  {
    if j > 0 {
      Pow2Add(j - 1, k);
    }
  }

  lemma Pow2Are()
    ensures Pow2(9) == 512 && Pow2(12) == 0x1000 && Pow2(21) == 0x20_0000 && Pow2(30) == 0x4000_0000
    ensures Pow2(39) == 0x80_0000_0000 && Pow2(48) == 0x1_0000_0000_0000
  {
  }

  lemma OnesLow()
    ensures Ones(9) == 0x1ff && Ones(12) == 0xfff && Ones(21) == 0x1f_ffff && Ones(30) == 0x3fff_ffff
  {
  }

  lemma LowBits(b: bv64, k: nat)
    ensures Low(b, k) == b & Ones(k)
  {
  }

  /** A number is a multiple of 2^k when the k lowest bits of its word are clear. */
  lemma AlignedBits(b: bv64, k: nat)
    ensures Val(b) % Pow2(k) == 0 <==> b & Ones(k) == 0
  {
    hide *;
    Field(b, k);
    ValZero(Low(b, k));
    LowBits(b, k);
  }

  lemma Masked(b: bv64, k: nat)
    requires b & !Ones(k) == 0
    ensures Low(b, k) == b
  {
  }

  /** A number is less than 2^k when all higher bits of its word are clear. */
  lemma BoundedBits(b: bv64, k: nat)
    ensures Val(b) < Pow2(k) <==> b & !Ones(k) == 0
  {
    hide *;
    if b & !Ones(k) == 0 {
      Masked(b, k);
      Split(b, k);
    } else if Val(b) < Pow2(k) {
      Below(b, k);
    }
  }

  lemma ContainedStep(o: bv64, p: bv64)
    requires o & !p == 0
    ensures ((o << 1) | 1) & !((p << 1) | 1) == 0
  {
  }

  lemma {:induction false} OnesContained(j: nat, k: nat)
    requires j <= k
    ensures Ones(j) & !Ones(k) == 0
  {
    if j == 0 {
      assert 0 & !Ones(k) == 0;
    } else {
      OnesContained(j - 1, k - 1);
      ContainedStep(Ones(j - 1), Ones(k - 1));
    }
  }
}
