/** Index and base arithmetic of a radix table: an entry of `size` addresses, tables of `n` entries. */
module Indexing {

  function EntryBase(base: nat, i: nat, size: nat): nat {
    base + i * size
  }

  function IndexOf(base: nat, addr: nat, size: nat): nat
    requires size > 0 && base <= addr
  {
    (addr - base) / size
  }

  lemma MulMono(a: nat, b: nat, size: nat)
    requires a <= b
    ensures a * size <= b * size
  {
  }

  /** The entry that an address falls into, and no other. */
  lemma IndexOfBounds(base: nat, addr: nat, size: nat)
    requires size > 0 && base <= addr
    ensures EntryBase(base, IndexOf(base, addr, size), size) <= addr
    ensures addr < EntryBase(base, IndexOf(base, addr, size), size) + size
  {
  }

  lemma IndexOfUnique(base: nat, addr: nat, size: nat, i: nat)
    requires size > 0
    requires EntryBase(base, i, size) <= addr < EntryBase(base, i, size) + size
    ensures base <= addr && IndexOf(base, addr, size) == i
  {
    IndexOfBounds(base, addr, size);
    var j := IndexOf(base, addr, size);
    assert (j + 1) * size == j * size + size && (i + 1) * size == i * size + size;
    if j < i {
      MulMono(j + 1, i, size);
    } else if i < j {
      MulMono(i + 1, j, size);
    }
  }

  /** An address of an n-entry table falls into one of the n entries. */
  lemma IndexInTable(base: nat, addr: nat, size: nat, n: nat)
    requires size > 0 && base <= addr < base + n * size
    ensures IndexOf(base, addr, size) < n
  {
  }

  /** Every entry of a table lies inside the table. */
  lemma EntryInTable(base: nat, i: nat, size: nat, n: nat)
    requires i < n
    ensures EntryBase(base, i, size) + size <= base + n * size
  {
    MulMono(i + 1, n, size);
    assert (i + 1) * size == i * size + size;
  }

  lemma MulMod(k: nat, size: nat)
    requires size > 0
    ensures k * size % size == 0
  {
    var r := k * size % size;
    var q := k * size / size;
    assert k * size == q * size + r;
    assert (q + 1) * size == q * size + size && (k + 1) * size == k * size + size;
    if q < k {
      MulMono(q + 1, k, size);
    } else if k < q {
      MulMono(k + 1, q, size);
    }
  }

  lemma Distribute(k: nat, n: nat, i: nat, size: nat)
    ensures (k * n + i) * size == k * (n * size) + i * size
  {
  }

  lemma Multiple(a: nat, n: nat)
    requires n > 0 && a % n == 0
    ensures a == a / n * n
  {
  }

  lemma QuotientAndRest(k: nat, n: nat, i: nat)
    requires i < n
    ensures (k * n + i) / n == k && (k * n + i) % n == i
  {
    IndexOfUnique(0, k * n + i, n, k);
    assert (k * n + i) / n == k;
  }

  /** The hardware's base-free index agrees with the base-relative one on an aligned table. */
  lemma IndexOfAligned(base: nat, addr: nat, size: nat, n: nat)
    requires size > 0 && n > 0 && base % (n * size) == 0 && base <= addr < base + n * size
    ensures addr / size % n == IndexOf(base, addr, size)
  {
    var i := IndexOf(base, addr, size);
    var k := base / (n * size);
    Multiple(base, n * size);
    IndexOfBounds(base, addr, size);
    IndexInTable(base, addr, size, n);
    Distribute(k, n, i, size);
    IndexOfUnique(0, addr, size, k * n + i);
    QuotientAndRest(k, n, i);
  }

  /** Entries of an aligned table are aligned to their own size. */
  lemma EntryAligned(base: nat, i: nat, size: nat, n: nat)
    requires size > 0 && n > 0 && base % (n * size) == 0
    ensures EntryBase(base, i, size) % size == 0
  {
    var k := base / (n * size);
    assert base == k * (n * size) == k * n * size;
    assert EntryBase(base, i, size) == (k * n + i) * size;
    MulMod(k * n + i, size);
  }

  /** The one aligned address of an entry is its base. */
  lemma AlignedIsBase(b: nat, addr: nat, size: nat)
    requires size > 0 && b % size == 0 && b <= addr < b + size && addr % size == 0
    ensures addr == b
  {
    IndexOfUnique(0, addr, size, b / size);
    assert addr == addr / size * size;
  }

  lemma MultipleOf(a: nat, b: nat, c: nat)
    requires b > 0 && c > 0 && a % b == 0 && b % c == 0
    ensures a % c == 0
  {
    var x, y := a / b, b / c;
    assert a == x * b && b == y * c;
    assert a == (x * y) * c;
    MulMod(x * y, c);
  }

  /** An aligned block that starts before an aligned end stops at or before it. */
  lemma BlockFits(va: nat, size: nat, end: nat)
    requires size > 0 && va % size == 0 && end % size == 0 && va < end
    ensures va + size <= end
  {
    var x, y := va / size, end / size;
    assert va == x * size && end == y * size;
    if y <= x { MulMono(y, x, size); }
    MulMono(x + 1, y, size);
    assert (x + 1) * size == x * size + size;
  }

  lemma AlignedSum(a: nat, b: nat, c: nat)
    requires c > 0 && a % c == 0 && b % c == 0
    ensures (a + b) % c == 0
  {
    assert a + b == (a / c + b / c) * c;
    MulMod(a / c + b / c, c);
  }

  lemma AlignedDifference(a: nat, b: nat, c: nat)
    requires c > 0 && b <= a && a % c == 0 && b % c == 0
    ensures (a - b) % c == 0
  {
    var x, y := a / c, b / c;
    assert a == x * c && b == y * c;
    if x < y { MulMono(x + 1, y, c); }
    assert (x - y) * c == a - b;
    MulMod(x - y, c);
  }
}
