/** Primitives shared by every instantiation of the protected stack
    (StackLib.hpp): the protection levels, the guard word, the table of
    failure messages, the polynomial checksum over a byte range and the
    registry of poisoned pointer values. */
module StackLib {

  // ---------------------------------------------------------------------
  // Protection levels. Every feature is switched on with `level >= X`, so
  // each level includes all the features of the levels below it.
  // ---------------------------------------------------------------------

  const RELEASE_LEVEL: int := 0
  const DUMP_LEVEL: int := 1
  const CANARY_LEVEL: int := 2
  const HASH_LEVEL: int := 3

  /** A protection level chosen when the stack is compiled. */
  type Level = l: int | 0 <= l <= 3

  /** Number of values of a 64-bit word (`canary_t`, `hash_t`, `uint64_t`). */
  const WORD_MOD: int := 0x1_0000_0000_0000_0000

  /** The guard word written into every canary, around the control block and
      around the buffer. */
  const CUCKOO_STANDARD: int := 0x9DEADBEEFBADF00D

  /** The message for each code `StackFail` can return, indexed by the code. */
  const STACK_FAIL_CODE: seq<string> := [
    "ok",
    "FAIL: NULL pointer passed",
    "FAIL: Stack has been attacked from left (cuckoo_low departed)",
    "FAIL: Stack has been attacked from right (cuckoo_high departed)",
    "FAIL: Stack has been corrupted (hashsum not valid)",
    "FAIL: Stack size less than zero (possibly destructed before)",
    "FAIL: Stack capacity less than zero (possibly destructed before)",
    "FAIL: Stack size is more than capacity",
    "FAIL: Stack pointer is not valid",
    "FAIL: Stack buffer has been attacked from left (cuckoo_low departed)",
    "FAIL: Stack buffer has been attacked from left (cuckoo_high departed)",
    "FAIL: Stack buffer has been corrupted (hashsum not valid)"
  ]

  // ---------------------------------------------------------------------
  // Polynomial checksum
  // ---------------------------------------------------------------------

  /** One byte of memory, as an unsigned value. */
  type Byte = b: int | 0 <= b < 256

  /** The value a byte has when it is read through a plain (signed) `char`:
      bytes from 0x80 upwards are negative. */
  function CharValue(b: Byte): (v: int)
    ensures -128 <= v < 128
    ensures (v - b) % 256 == 0
  {
    if b < 128 then b else b - 256
  }

  /** The multiplier's factor between two consecutive bytes. */
  const HASH_PRIME: int := 353

  function Pow(base: int, k: nat): (p: int)
    ensures base >= 1 ==> p >= 1
  {
    if k == 0 then 1 else Pow(base, k - 1) * base
  }

  /** The unreduced polynomial: the sum of CharValue(s[i]) * 353^i. */
  function PolySum(s: seq<Byte>): int
  {
    if |s| == 0 then 0
    else PolySum(s[..|s| - 1]) + CharValue(s[|s| - 1]) * Pow(HASH_PRIME, |s| - 1)
  }

  /** The checksum of a byte range: the polynomial taken modulo 2^64. */
  function HashOf(s: seq<Byte>): (h: int)
    ensures 0 <= h < WORD_MOD
  {
    PolySum(s) % WORD_MOD
  }

  /** `calc_hash`: walks the half-open range [begin, end) of `mem` once,
      adding each byte times the running multiplier, both kept as 64-bit
      unsigned words. An empty or reversed range gives 0. The memory is
      passed as a value, so the method cannot write to it. */
  method CalcHash(mem: seq<Byte>, begin: int, end: int) returns (hash: int)
    requires 0 <= begin <= |mem| && 0 <= end <= |mem|
    ensures hash == if begin < end then HashOf(mem[begin..end]) else 0
  {
    var multiplicator := 1;
    hash := 0;
    var p := begin;
    while p < end
      invariant begin <= p <= |mem|
      invariant begin < end ==> p <= end
      invariant begin >= end ==> p == begin
      invariant hash == HashOf(mem[begin..p])
      invariant multiplicator == Pow(HASH_PRIME, p - begin) % WORD_MOD
    {
      // `*ptr * multiplicator`: the char is widened to int and then converted
      // to uint64_t, so a negative byte wraps around 2^64.
      HashAdvance(mem, begin, p, hash, multiplicator);
      hash := (hash + (CharValue(mem[p]) % WORD_MOD) * multiplicator % WORD_MOD) % WORD_MOD;
      multiplicator := multiplicator * HASH_PRIME % WORD_MOD;
      p := p + 1;
    }
    assert begin >= end ==> mem[begin..p] == [];
  }

  /** One iteration of the loop in `calc_hash` extends the hashed range by
      the byte at `p` and advances the multiplier. */
  lemma HashAdvance(mem: seq<Byte>, begin: int, p: int, hash: int, multiplicator: int)
    requires 0 <= begin <= p < |mem|
    requires hash == HashOf(mem[begin..p])
    requires multiplicator == Pow(HASH_PRIME, p - begin) % WORD_MOD
    ensures HashOf(mem[begin..p + 1])
         == (hash + (CharValue(mem[p]) % WORD_MOD) * multiplicator % WORD_MOD) % WORD_MOD
    ensures Pow(HASH_PRIME, p + 1 - begin) % WORD_MOD == multiplicator * HASH_PRIME % WORD_MOD
  {
    HashStep(mem[begin..p], mem[p]);
    assert mem[begin..p + 1] == mem[begin..p] + [mem[p]];
    PowStep(p - begin);
  }

  /** Appending one byte to a range adds that byte's term, with 64-bit
      wrap-around, exactly as one iteration of the loop in `calc_hash` does. */
  lemma HashStep(s: seq<Byte>, b: Byte)
    ensures HashOf(s + [b])
         == (HashOf(s) + (CharValue(b) % WORD_MOD) * (Pow(HASH_PRIME, |s|) % WORD_MOD) % WORD_MOD) % WORD_MOD
  {
    var x, h, p, a := HashOf(s + [b]), HashOf(s), PolySum(s + [b]), PolySum(s);
    var c, w := CharValue(b), Pow(HASH_PRIME, |s|);
    assert p == a + c * w by { PolySumSnoc(s, b); }
    assert x == p % WORD_MOD && h == a % WORD_MOD;
    ModAddMulOf(x, h, p, a, c, w, WORD_MOD);
  }

  lemma PolySumSnoc(s: seq<Byte>, b: Byte)
    ensures PolySum(s + [b]) == PolySum(s) + CharValue(b) * Pow(HASH_PRIME, |s|)
  {
    assert (s + [b])[..|s|] == s;
  }

  /** The multiplier advances by one factor of 353, modulo 2^64. */
  lemma PowStep(k: nat)
    ensures Pow(HASH_PRIME, k + 1) % WORD_MOD == (Pow(HASH_PRIME, k) % WORD_MOD) * HASH_PRIME % WORD_MOD
  {
    ModMulLeft(Pow(HASH_PRIME, k), HASH_PRIME, WORD_MOD);
  }

  /** The checksum of an empty range is 0. */
  lemma HashOfEmpty()
    ensures HashOf([]) == 0
  {
  }

  /** A range of zero bytes, such as freshly zeroed memory, has checksum 0. */
  lemma {:induction false} HashOfZeroBytes(s: seq<Byte>)
    requires forall i :: 0 <= i < |s| ==> s[i] == 0
    ensures HashOf(s) == 0
  {
    PolySumOfZeroBytes(s);
  }

  lemma {:induction false} PolySumOfZeroBytes(s: seq<Byte>)
    requires forall i :: 0 <= i < |s| ==> s[i] == 0
    ensures PolySum(s) == 0
  {
    if |s| > 0 {
      PolySumOfZeroBytes(s[..|s| - 1]);
    }
  }

  /** A byte at or above 0x80 enters the sum as a negative number wrapped
      modulo 2^64: a lone 0x80 gives 2^64 - 128, not 128. */
  lemma HashOfHighByte()
    ensures HashOf([0x80]) == WORD_MOD - 128
  {
    assert [0x80 as Byte][..0] == [];
  }

  // ---------------------------------------------------------------------
  // Modular arithmetic used by the checksum proofs
  // ---------------------------------------------------------------------

  /** Euclidean division is unique: a quotient and an in-range remainder
      that rebuild x are x / m and x % m. */
  lemma ModUnique(x: int, m: int, q: int, r: int)
    requires m > 0 && 0 <= r < m && x == q * m + r
    ensures x % m == r
  {
    var q0, r0 := x / m, x % m;
    assert (q - q0) * m == r0 - r;
    if q > q0 {
      MulAtLeast(q - q0, m);
    } else if q < q0 {
      MulAtLeast(q0 - q, m);
    }
  }

  lemma MulAtLeast(d: int, m: int)
    requires d >= 1 && m > 0
    ensures d * m >= m
  {
    assert d * m == (d - 1) * m + m;
  }

  lemma ModMulLeft(x: int, y: int, m: int)
    requires m > 0
    ensures (x % m) * y % m == x * y % m
  {
    var q, r := x / m, x % m;
    var q1, r1 := (r * y) / m, (r * y) % m;
    assert x * y == (q * y + q1) * m + r1 by {
      assert x * y == (q * m + r) * y;
    }
    ModUnique(x * y, m, q * y + q1, r1);
  }

  lemma ModAdd(a: int, b: int, m: int)
    requires m > 0
    ensures (a % m + b % m) % m == (a + b) % m
  {
    var qa, ra := a / m, a % m;
    var qb, rb := b / m, b % m;
    var q2, r2 := (ra + rb) / m, (ra + rb) % m;
    assert a + b == (qa + qb + q2) * m + r2;
    ModUnique(a + b, m, qa + qb + q2, r2);
  }

  lemma ModAddMul(a: int, c: int, w: int, m: int)
    requires m > 0
    ensures (a % m + (c % m) * (w % m) % m) % m == (a + c * w) % m
  {
    ModMulLeft(c, w % m, m);
    ModMulRight(c, w, m);
    ModAdd(a, c * w, m);
  }

  /** ModAddMul with the reduced values named: if x and h are p and a
      reduced modulo m, and p is a + c * w, then x is h plus the reduced
      term, reduced. */
  lemma ModAddMulOf(x: int, h: int, p: int, a: int, c: int, w: int, m: int)
    requires m > 0 && p == a + c * w && x == p % m && h == a % m
    ensures x == (h + (c % m) * (w % m) % m) % m
  {
    ModAddMul(a, c, w, m);
    assert (a + c * w) % m == p % m;
  }

  lemma ModMulRight(x: int, y: int, m: int)
    requires m > 0
    ensures x * (y % m) % m == x * y % m
  {
    var q, r := y / m, y % m;
    var q1, r1 := (x * r) / m, (x * r) % m;
    assert x * y == (x * q + q1) * m + r1 by {
      assert x * y == x * (q * m + r);
    }
    ModUnique(x * y, m, x * q + q1, r1);
  }

  // ---------------------------------------------------------------------
  // Poisoned pointer values
  // ---------------------------------------------------------------------

  /** The names of the reserved pointer values; an index into this table is
      what `PointerPoisonName` returns. Entry 1 is the value left by
      `stack_destruct`. */
  const PTR_POISONS: seq<string> := ["Correct pointer", "Destructed by stack_destruct()"]

  /** `pointer_poison_name`: given the numeric value of a pointer, returns that
      value when it lies in 1..|PTR_POISONS| (a reserved sentinel), and 0 for
      every other pointer, NULL included. */
  function PointerPoisonName(p: int): (code: int)
    requires 0 <= p < WORD_MOD
    ensures code != 0 <==> 1 <= p <= |PTR_POISONS|
    ensures code != 0 ==> code == p
  {
    if 1 <= p <= |PTR_POISONS| then p else 0
  }

  /** The bound compares against the entry count, not the last index, so the
      value 2 is reported as code 2, which is not an index of PTR_POISONS. */
  lemma PoisonNameOnePastTable()
    ensures PointerPoisonName(2) == 2 && 2 == |PTR_POISONS|
    ensures PointerPoisonName(0) == 0 && PointerPoisonName(1) == 1
  {
  }
}
