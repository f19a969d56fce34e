/** The self-checking stack of Stack.hpp, instantiated for 32-bit `int`
    elements. The control block is a class whose fields are those of the C
    struct; the buffer is modelled as its named regions: the leading canary,
    the buffer checksum word, the slots and the trailing canary. */
module ProtectedStack {
  import opened StackLib

  /** The element type the template is instantiated with. */
  type Int32 = x: int | -0x8000_0000 <= x < 0x8000_0000

  /** Bytes one element occupies in the buffer. */
  const SLOT_BYTES: nat := 4

  /** Bytes one 64-bit field, canary or checksum word occupies. */
  const WORD_BYTES: nat := 8

  /** Capacity `stack_init_internal` uses when none is given. */
  const DEFAULT_CAPACITY: nat := 100

  datatype Option<T> = None | Some(value: T)

  /** The value of the `ptr` field: NULL, a poisoned sentinel written by
      `stack_destruct`, or the address of slot 0 of a live buffer. */
  datatype Ptr = Null | Poison(code: int) | Live(addr: int)
  {
    /** The pointer read as a 64-bit unsigned number, as
        `pointer_poison_name` and the block checksum see it. */
    function Value(): (v: int)
      ensures 0 <= v < WORD_MOD
      ensures Null? ==> v == 0
    {
      match this
      case Null => 0
      case Poison(c) => c % WORD_MOD
      case Live(a) => a % WORD_MOD
    }
  }

  // ---------------------------------------------------------------------
  // Buffer layout
  // ---------------------------------------------------------------------

  /** Bytes in front of slot 0: the checksum word (Hash level) and the leading
      canary (Canary level and up). */
  function HeaderBytes(level: Level): (n: nat)
    ensures level < CANARY_LEVEL ==> n == 0
    ensures level == CANARY_LEVEL ==> n == WORD_BYTES
    ensures level == HASH_LEVEL ==> n == 2 * WORD_BYTES
  {
    (if level >= HASH_LEVEL then WORD_BYTES else 0) + (if level >= CANARY_LEVEL then WORD_BYTES else 0)
  }

  /** The user pointer `allocate` and `reallocate` store: past the header of
      an allocation that starts at `base`. */
  function UserAddress(level: Level, base: int): int
  {
    base + HeaderBytes(level)
  }

  /** `find_alloc_address`: the start of the allocation that holds slot 0 at
      address `p`, found by stepping back over the header. */
  function FindAllocAddress(level: Level, p: int): (start: int)
    ensures p - start == HeaderBytes(level)
    ensures level < CANARY_LEVEL ==> start == p
  {
    p - HeaderBytes(level)
  }

  /** `find_alloc_address` undoes exactly the offset applied when the buffer
      was laid out. */
  lemma FindAllocAddressInverse(level: Level, base: int)
    ensures FindAllocAddress(level, UserAddress(level, base)) == base
  {
  }

  /** An address the allocator may return: never NULL, never a poisoned
      sentinel once the header is skipped, and a 64-bit value. */
  predicate IsAllocation(level: Level, base: int)
  {
    |PTR_POISONS| < base && UserAddress(level, base) < WORD_MOD
  }

  /** The growth rule of `stack_push`: `(capacity + 1) * 1.5` converted to
      `size_t`, which truncates. */
  function Grow(capacity: int): (grown: int)
    requires capacity >= 0
    ensures grown > capacity
    ensures 2 * grown <= 3 * (capacity + 1) < 2 * grown + 2
  {
    (capacity + 1) * 3 / 2
  }

  function Zeros(n: nat): (z: seq<Int32>)
    ensures |z| == n && forall i :: 0 <= i < n ==> z[i] == 0
  {
    seq(n, _ => 0)
  }

  // ---------------------------------------------------------------------
  // Memory representation of fields and slots
  // ---------------------------------------------------------------------

  /** The `n` bytes of the two's-complement representation of `v`, least
      significant first. */
  function LittleEndian(v: int, n: nat): (bytes: seq<Byte>)
    ensures |bytes| == n
    decreases n
  {
    if n == 0 then [] else [v % 256] + LittleEndian(v / 256, n - 1)
  }

  /** Reads `bytes` back as an unsigned little-endian number. */
  function FromLittleEndian(bytes: seq<Byte>): (v: int)
    ensures 0 <= v < Pow(256, |bytes|)
  {
    if |bytes| == 0 then 0 else bytes[0] + 256 * FromLittleEndian(bytes[1..])
  }

  /** The bytes of a field hold exactly its value modulo 2^(8n): reading them
      back gives the field's unsigned value. */
  lemma {:induction false} LittleEndianRoundTrip(v: int, n: nat)
    decreases n
    ensures FromLittleEndian(LittleEndian(v, n)) == v % Pow(256, n)
  {
    if n > 0 {
      LittleEndianRoundTrip(v / 256, n - 1);
      assert LittleEndian(v, n)[1..] == LittleEndian(v / 256, n - 1);
      PowPositive(256, n - 1);
      ModSplitLowByte(v, Pow(256, n - 1));
    }
  }

  /** Taking v modulo 256 * k keeps its low byte and, above it, (v / 256)
      modulo k. */
  lemma ModSplitLowByte(v: int, k: int)
    requires k > 0
    ensures v % (256 * k) == v % 256 + 256 * ((v / 256) % k)
  {
    var q, r := (v / 256) / k, (v / 256) % k;
    assert v == q * (256 * k) + (v % 256 + 256 * r) by {
      assert v == 256 * (v / 256) + v % 256;
      assert v / 256 == q * k + r;
    }
    ModUnique(v, 256 * k, q, v % 256 + 256 * r);
  }

  lemma {:induction false} PowPositive(b: int, k: nat)
    requires b > 0
    ensures Pow(b, k) > 0
  {
    if k > 0 {
      PowPositive(b, k - 1);
      MulAtLeast(b, Pow(b, k - 1));
    }
  }

  /** The bytes of a 64-bit field. */
  function Word(v: int): seq<Byte>
  {
    LittleEndian(v, WORD_BYTES)
  }

  /** The bytes of consecutive 64-bit fields. */
  function WordsBytes(ws: seq<int>): (bytes: seq<Byte>)
    ensures |bytes| == 8 * |ws|
  {
    if |ws| == 0 then [] else Word(ws[0]) + WordsBytes(ws[1..])
  }

  /** Field `i` of a run of 64-bit fields occupies bytes 8i to 8i + 8, and
      they hold its value modulo 2^64: no field overlaps another. */
  lemma {:induction false} WordsBytesRoundTrip(ws: seq<int>, i: nat)
    requires i < |ws|
    ensures FromLittleEndian(WordsBytes(ws)[8 * i .. 8 * (i + 1)]) == ws[i] % WORD_MOD
  {
    if i == 0 {
      FirstWordRoundTrip(ws);
    } else {
      var head, tail := Word(ws[0]), WordsBytes(ws[1..]);
      WordsBytesRoundTrip(ws[1..], i - 1);
      assert WordsBytes(ws) == head + tail && |head| == 8;
      SliceAfterPrefix(head, tail, 8 * (i - 1), 8 * i);
      assert WordsBytes(ws)[8 * i .. 8 * (i + 1)] == tail[8 * (i - 1) .. 8 * i];
      assert ws[1..][i - 1] == ws[i];
    }
  }

  lemma FirstWordRoundTrip(ws: seq<int>)
    requires 0 < |ws|
    ensures FromLittleEndian(WordsBytes(ws)[0 .. 8]) == ws[0] % WORD_MOD
  {
    var w := Word(ws[0]);
    assert WordsBytes(ws) == w + WordsBytes(ws[1..]);
    assert WordsBytes(ws)[0 .. 8] == w;
    LittleEndianRoundTrip(ws[0], 8);
    WordModulus();
  }

  /** Eight bytes hold exactly the values of a 64-bit word. */
  lemma WordModulus()
    ensures Pow(256, 8) == WORD_MOD
  {
  }

  /** Runs of 64-bit fields with the same bytes hold the same values modulo
      2^64: the encoding loses nothing but the bits above the word. */
  lemma WordsBytesInjective(ws: seq<int>, vs: seq<int>)
    requires |ws| == |vs| && WordsBytes(ws) == WordsBytes(vs)
    ensures forall i :: 0 <= i < |ws| ==> ws[i] % WORD_MOD == vs[i] % WORD_MOD
  {
    forall i | 0 <= i < |ws|
      ensures ws[i] % WORD_MOD == vs[i] % WORD_MOD
    {
      WordsBytesRoundTrip(ws, i);
      WordsBytesRoundTrip(vs, i);
    }
  }

  /** An `int64_t` stored in a 64-bit word: its two's-complement bits. */
  lemma Int64Word(x: int)
    requires -0x8000_0000_0000_0000 <= x < 0x8000_0000_0000_0000
    ensures x % WORD_MOD == if x >= 0 then x else x + WORD_MOD
  {
    if x >= 0 {
      ModUnique(x, WORD_MOD, 0, x);
    } else {
      ModUnique(x, WORD_MOD, -1, x + WORD_MOD);
    }
  }

  /** The bytes `calc_stack_hash` reads see the size: two blocks that differ
      only in their `int64_t` size (a push, a pop, `stack_destruct`) have
      different hashed regions. */
  lemma BlockBytesSeeSize(size1: int, size2: int, capacity: int, ptr: Ptr, varName: int,
                          fileName: int, funcName: int, line: int, hash: int)
    requires -0x8000_0000_0000_0000 <= size1 < 0x8000_0000_0000_0000
    requires -0x8000_0000_0000_0000 <= size2 < 0x8000_0000_0000_0000
    requires size1 != size2
    ensures BlockBytes(size1, capacity, ptr, varName, fileName, funcName, line, hash)
         != BlockBytes(size2, capacity, ptr, varName, fileName, funcName, line, hash)
  {
    var ws := [size1, capacity, ptr.Value(), varName, fileName, funcName, line, hash];
    var vs := [size2, capacity, ptr.Value(), varName, fileName, funcName, line, hash];
    if WordsBytes(ws) == WordsBytes(vs) {
      WordsBytesInjective(ws, vs);
      assert ws[0] % WORD_MOD == vs[0] % WORD_MOD;
      Int64Word(size1);
      Int64Word(size2);
    }
  }

  /** The same for the capacity, the field `reallocate` changes. */
  lemma BlockBytesSeeCapacity(size: int, capacity1: int, capacity2: int, ptr: Ptr, varName: int,
                              fileName: int, funcName: int, line: int, hash: int)
    requires -0x8000_0000_0000_0000 <= capacity1 < 0x8000_0000_0000_0000
    requires -0x8000_0000_0000_0000 <= capacity2 < 0x8000_0000_0000_0000
    requires capacity1 != capacity2
    ensures BlockBytes(size, capacity1, ptr, varName, fileName, funcName, line, hash)
         != BlockBytes(size, capacity2, ptr, varName, fileName, funcName, line, hash)
  {
    var ws := [size, capacity1, ptr.Value(), varName, fileName, funcName, line, hash];
    var vs := [size, capacity2, ptr.Value(), varName, fileName, funcName, line, hash];
    if WordsBytes(ws) == WordsBytes(vs) {
      WordsBytesInjective(ws, vs);
      assert ws[1] % WORD_MOD == vs[1] % WORD_MOD;
      Int64Word(capacity1);
      Int64Word(capacity2);
    }
  }

  lemma SliceAfterPrefix<T>(a: seq<T>, b: seq<T>, lo: nat, hi: nat)
    requires lo <= hi <= |b|
    ensures (a + b)[|a| + lo .. |a| + hi] == b[lo..hi]
  {
  }

  /** The bytes of the slot region: each element in turn, 4 bytes apiece. */
  function SlotBytes(slots: seq<Int32>): (bytes: seq<Byte>)
    ensures |bytes| == SLOT_BYTES * |slots|
  {
    if |slots| == 0 then [] else SlotBytes(slots[..|slots| - 1]) + LittleEndian(slots[|slots| - 1], SLOT_BYTES)
  }

  lemma {:induction false} LittleEndianOfZero(n: nat)
    ensures forall i :: 0 <= i < n ==> LittleEndian(0, n)[i] == 0
  {
    if n > 0 {
      LittleEndianOfZero(n - 1);
    }
  }

  lemma {:induction false} SlotBytesOfZeros(n: nat)
    ensures forall i :: 0 <= i < SLOT_BYTES * n ==> SlotBytes(Zeros(n))[i] == 0
  {
    if n > 0 {
      SlotBytesOfZeros(n - 1);
      assert Zeros(n)[..n - 1] == Zeros(n - 1);
      LittleEndianOfZero(SLOT_BYTES);
    }
  }

  /** A freshly allocated (zero-filled) buffer of any capacity has checksum 0,
      so this is the value `allocate` stores in the checksum word. */
  lemma ZeroedBufferHash(n: nat)
    ensures HashOf(SlotBytes(Zeros(n))) == 0
  {
    SlotBytesOfZeros(n);
    HashOfZeroBytes(SlotBytes(Zeros(n)));
  }

  /** The 64 bytes between the two block canaries: the fields from `size`
      to `hash` in declaration order (the Hash level has every Dump field),
      each 8 bytes wide with no padding. */
  function BlockBytes(size: int, capacity: int, ptr: Ptr, varName: int, fileName: int,
                      funcName: int, line: int, hash: int): (bytes: seq<Byte>)
    ensures |bytes| == 8 * WORD_BYTES
  {
    WordsBytes([size, capacity, ptr.Value(), varName, fileName, funcName, line, hash])
  }

  // ---------------------------------------------------------------------
  // The control block
  // ---------------------------------------------------------------------

  class Stack {
    /** The protection level the stack was compiled with. */
    const level: Level

    var cuckooLow: int      // leading block canary (Canary level and up)
    var size: int
    var capacity: int
    var ptr: Ptr
    var varName: int        // provenance (Dump level and up): addresses of
    var fileName: int       // the name strings recorded by `stack_init`,
    var funcName: int       // whose text is not modelled, and the line
    var line: int
    var hash: int           // block checksum (Hash level)
    var cuckooHigh: int     // trailing block canary (Canary level and up)

    // The regions of the buffer that `ptr` points into.
    var bufCuckooLow: int   // leading buffer canary (Canary level and up)
    var bufHash: int        // buffer checksum word (Hash level)
    var data: array<Int32>  // the slots; slot 0 is at `ptr`
    var bufCuckooHigh: int  // trailing buffer canary, at ptr + capacity

    /** How the buffer is laid out in every state an operation leaves: it
        exists exactly when the capacity is positive, and then its slot
        region has `capacity` slots at a real (non-sentinel) address. */
    ghost predicate Layout()
      reads this`ptr, this`capacity, this`data
    {
      && (ptr.Null? || ptr.Live?)
      && (ptr.Null? <==> capacity == 0)
      && (ptr.Live? ==> data.Length == capacity && |PTR_POISONS| < ptr.addr < WORD_MOD)
    }

    /** Everything the validator checks except the two checksums: the
        layout above, sane size and capacity, and every guard word equal to
        the standard (Canary level and up). */
    ghost predicate Guarded()
      reads this`ptr, this`capacity, this`data, this`size
      reads this`cuckooLow, this`cuckooHigh, this`bufCuckooLow, this`bufCuckooHigh
    {
      && Layout()
      && 0 <= size <= capacity
      && (level >= CANARY_LEVEL ==> cuckooLow == CUCKOO_STANDARD && cuckooHigh == CUCKOO_STANDARD)
      && (ptr.Live? && level >= CANARY_LEVEL ==> bufCuckooLow == CUCKOO_STANDARD && bufCuckooHigh == CUCKOO_STANDARD)
    }

    /** The state every operation keeps: guarded as above, with both stored
        checksums current (Hash level). The lemma ValidIffValidatorPasses
        shows this is exactly a laid-out block on which `stack_fail`
        returns 0. */
    ghost predicate Valid()
      reads this, data
    {
      && Guarded()
      && (level >= HASH_LEVEL ==> hash == StackHashOf(this))
      && (ptr.Live? && level >= HASH_LEVEL ==> bufHash == BufHashOf(this))
    }

    /** The `capacity` slots of the buffer, none when there is no buffer. */
    ghost function Slots(): (slots: seq<Int32>)
      reads this`ptr, this`capacity, this`data, data
      ensures Layout() ==> |slots| == capacity
    {
      if ptr.Live? then data[..] else []
    }

    /** The elements held, bottom first. */
    ghost function Elements(): (elems: seq<Int32>)
      reads this`ptr, this`capacity, this`data, this`size, data
      requires Layout() && 0 <= size <= capacity
      ensures |elems| == size
    {
      Slots()[..size]
    }

    /** The 64 bytes between the block canaries as they are now. */
    function BlockRegion(): seq<Byte>
      reads this
    {
      BlockBytes(size, capacity, ptr, varName, fileName, funcName, line, hash)
    }

    /** `calc_stack_hash`: clears the checksum field, hashes the block
        between its canaries, and puts the old checksum back. */
    method CalcStackHash() returns (h: int)
      modifies this`hash
      ensures h == StackHashOf(this)
      ensures unchanged(this)
    {
      var saved := hash;
      hash := 0;
      var block := BlockRegion();
      h := CalcHash(block, 0, |block|);
      assert block[0..|block|] == block;
      hash := saved;
    }

    /** `calc_buf_hash`: the checksum of the `capacity` slots. */
    method CalcBufHash() returns (h: int)
      requires 0 <= capacity <= data.Length
      ensures h == BufHashOf(this)
    {
      var bytes := SlotBytes(data[..capacity]);
      h := CalcHash(bytes, 0, |bytes|);
      assert bytes[0..|bytes|] == bytes;
      HashOfEmpty();
    }

    /** `allocate`: a zero-filled buffer of `newCapacity` slots at an
        allocation starting at `base`, with both canaries written (Canary
        level) and the checksum of the zeroed slots stored (Hash level). The
        checksum covers `capacity` slots, so at Hash level the caller must
        have set `capacity` first, as both callers do. */
    method Allocate(newCapacity: nat, base: int)
      requires IsAllocation(level, base)
      requires level >= HASH_LEVEL ==> capacity == newCapacity
      modifies this`ptr, this`data, this`bufCuckooLow, this`bufHash, this`bufCuckooHigh
      ensures unchanged(this`size, this`capacity, this`cuckooLow, this`cuckooHigh)
      ensures ptr == Live(UserAddress(level, base))
      ensures FindAllocAddress(level, ptr.addr) == base
      ensures fresh(data) && data[..] == Zeros(newCapacity)
      ensures level >= CANARY_LEVEL ==> bufCuckooLow == CUCKOO_STANDARD && bufCuckooHigh == CUCKOO_STANDARD
      ensures level < CANARY_LEVEL ==> bufCuckooLow == old(bufCuckooLow) && bufCuckooHigh == old(bufCuckooHigh)
      ensures level >= HASH_LEVEL ==> bufHash == BufHashOf(this) == 0
      ensures level < HASH_LEVEL ==> bufHash == old(bufHash)
    {
      data := new Int32[newCapacity](_ => 0);
      ptr := Live(UserAddress(level, base));
      if level >= CANARY_LEVEL {
        bufCuckooLow := CUCKOO_STANDARD;
        bufCuckooHigh := CUCKOO_STANDARD;
      }
      if level >= HASH_LEVEL {
        assert data[..capacity] == Zeros(newCapacity);
        ZeroedBufferHash(newCapacity);
        bufHash := CalcBufHash();
      }
    }

    /** `reallocate`: with no buffer, sets the capacity and allocates.
        Otherwise grows the buffer to `newCapacity` slots at an allocation
        starting at `base`: the old slots and the leading canary move with
        it, the new slots are zero, the trailing canary is rewritten at the
        new end and the buffer checksum is recomputed. */
    method Reallocate(newCapacity: nat, base: int)
      requires IsAllocation(level, base)
      requires ptr.Null? || (ptr.Live? && 0 <= capacity <= newCapacity && data.Length == capacity)
      modifies this`capacity, this`ptr, this`data, this`bufCuckooLow, this`bufHash, this`bufCuckooHigh
      ensures capacity == newCapacity
      ensures ptr == Live(UserAddress(level, base)) && fresh(data)
      ensures data[..] == (if old(ptr).Live? then old(data[..]) else []) + Zeros(newCapacity - (if old(ptr).Live? then old(capacity) else 0))
      ensures level >= CANARY_LEVEL ==> bufCuckooHigh == CUCKOO_STANDARD
      ensures level >= CANARY_LEVEL ==> bufCuckooLow == if old(ptr).Null? then CUCKOO_STANDARD else old(bufCuckooLow)
      ensures level < CANARY_LEVEL ==> bufCuckooLow == old(bufCuckooLow) && bufCuckooHigh == old(bufCuckooHigh)
      ensures level >= HASH_LEVEL ==> bufHash == BufHashOf(this)
      ensures level < HASH_LEVEL ==> bufHash == old(bufHash)
    {
      if ptr.Null? {
        capacity := newCapacity;
        Allocate(newCapacity, base);
        return;
      }
      var old_data := data;
      var oldCapacity := capacity;
      // realloc keeps the old bytes, memset zeroes the rest (the old trailing
      // canary included).
      data := new Int32[newCapacity](i requires 0 <= i reads old_data => if i < old_data.Length then old_data[i] else 0);
      capacity := newCapacity;
      if level >= CANARY_LEVEL {
        bufCuckooHigh := CUCKOO_STANDARD;
      }
      ptr := Live(UserAddress(level, base));
      if level >= HASH_LEVEL {
        bufHash := CalcBufHash();
      }
    }

    /** `stack_init_internal`: an empty stack with room for `initCapacity`
        elements; no buffer when that is 0. */
    method InitInternal(base: int, initCapacity: nat := DEFAULT_CAPACITY)
      requires initCapacity > 0 ==> IsAllocation(level, base)
      modifies this`cuckooLow, this`cuckooHigh, this`size, this`capacity, this`ptr, this`hash
      modifies this`data, this`bufCuckooLow, this`bufHash, this`bufCuckooHigh
      ensures Valid()
      ensures size == 0 && capacity == initCapacity && Elements() == []
      ensures ptr.Null? <==> initCapacity == 0
      ensures initCapacity > 0 ==> ptr == Live(UserAddress(level, base)) && fresh(data)
      ensures initCapacity == 0 ==> data == old(data)
      ensures Slots() == Zeros(initCapacity)
      ensures level >= CANARY_LEVEL ==> cuckooLow == CUCKOO_STANDARD && cuckooHigh == CUCKOO_STANDARD
      ensures level >= HASH_LEVEL ==> hash == StackHashOf(this)
    {
      if level >= CANARY_LEVEL {
        cuckooLow, cuckooHigh := CUCKOO_STANDARD, CUCKOO_STANDARD;
      }
      size := 0;
      InitBuffer(initCapacity, base);
      if level >= HASH_LEVEL {
        hash := CalcStackHash();
      }
    }

    /** The middle of `stack_init_internal`: sets the capacity, then
        allocates a buffer of that many slots, or sets `ptr` to NULL when
        the capacity is 0. */
    method InitBuffer(initCapacity: nat, base: int)
      requires initCapacity > 0 ==> IsAllocation(level, base)
      requires size == 0
      requires level >= CANARY_LEVEL ==> cuckooLow == CUCKOO_STANDARD && cuckooHigh == CUCKOO_STANDARD
      modifies this`capacity, this`ptr, this`data, this`bufCuckooLow, this`bufHash, this`bufCuckooHigh
      ensures Guarded()
      ensures capacity == initCapacity && (ptr.Null? <==> initCapacity == 0)
      ensures initCapacity > 0 ==> ptr == Live(UserAddress(level, base)) && fresh(data)
      ensures initCapacity == 0 ==> data == old(data)
      ensures Slots() == Zeros(initCapacity)
      ensures ptr.Live? && level >= HASH_LEVEL ==> bufHash == BufHashOf(this)
    {
      capacity := initCapacity;
      if capacity != 0 {
        Allocate(initCapacity, base);
      } else {
        ptr := Null;
      }
    }

    /** The `stack_init` macro: records where the stack was declared (Dump
        level and up), then runs `stack_init_internal`. */
    constructor Init(lvl: Level, varName: int, fileName: int, funcName: int, line: int,
                     base: int, initCapacity: nat := DEFAULT_CAPACITY)
      requires initCapacity > 0 ==> IsAllocation(lvl, base)
      ensures level == lvl && Valid() && fresh(data)
      ensures size == 0 && capacity == initCapacity && Elements() == []
      ensures ptr.Null? <==> initCapacity == 0
      ensures initCapacity > 0 ==> ptr == Live(UserAddress(lvl, base))
      ensures Slots() == Zeros(initCapacity)
      ensures lvl >= DUMP_LEVEL ==> this.varName == varName && this.fileName == fileName
                                     && this.funcName == funcName && this.line == line
    {
      level := lvl;
      data := new Int32[0];
      if lvl >= DUMP_LEVEL {
        this.varName, this.fileName, this.funcName, this.line := varName, fileName, funcName, line;
      }
      new;
      InitInternal(base, initCapacity);
    }

    /** `stack_push`: grows the buffer by the growth rule when it is full,
        stores `e` at index `size` and increments `size`; at Hash level it
        then refreshes the buffer checksum and, after it, the block checksum.
        The validity check that halts at Dump level and up is a
        precondition; at Release level it is the caller's obligation. */
    method Push(e: Int32, base: int)
      requires Valid()
      requires size == capacity ==> IsAllocation(level, base)
      modifies this`size, this`capacity, this`ptr, this`hash
      modifies this`data, this`bufCuckooLow, this`bufHash, this`bufCuckooHigh, data
      ensures Valid()
      ensures size == old(size) + 1
      ensures capacity == if old(size) == old(capacity) then Grow(old(capacity)) else old(capacity)
      ensures old(size) < old(capacity) ==> ptr == old(ptr) && data == old(data)
      ensures old(size) == old(capacity) ==> ptr == Live(UserAddress(level, base)) && fresh(data)
      ensures Slots() == (old(Slots()) + Zeros(capacity - old(capacity)))[old(size) := e]
      ensures Elements() == old(Elements()) + [e]
      ensures level >= HASH_LEVEL ==> bufHash == BufHashOf(this) && hash == StackHashOf(this)
    {
      EnsureRoom(base);
      Store(e, old(Slots()) + Zeros(capacity - old(capacity)), old(size));
      Rehash();
    }

    /** The first half of `stack_push`: reallocates to the grown capacity
        when the stack is full, and leaves everything else as it was. */
    method EnsureRoom(base: int)
      requires Valid()
      requires size == capacity ==> IsAllocation(level, base)
      modifies this`capacity, this`ptr, this`data, this`bufCuckooLow, this`bufHash, this`bufCuckooHigh
      ensures Guarded() && ptr.Live? && size < capacity
      ensures capacity == if size == old(capacity) then Grow(old(capacity)) else old(capacity)
      ensures size < old(capacity) ==> ptr == old(ptr) && data == old(data)
      ensures size == old(capacity) ==> ptr == Live(UserAddress(level, base)) && fresh(data)
      ensures Slots() == old(Slots()) + Zeros(capacity - old(capacity))
      ensures Elements() == old(Elements())
    {
      if size == capacity {
        Reallocate(Grow(capacity), base);
      } else {
        assert old(Slots()) + Zeros(0) == old(Slots());
      }
    }

    /** The second half of `stack_push`: the store and the increment. The
        ghost parameters name the slots and the size on entry, so that the
        caller's facts about them (stated over the state `Push` started
        from) match this precondition without unfolding `old` here. */
    method Store(e: Int32, ghost room: seq<Int32>, ghost at: int)
      requires Guarded() && ptr.Live? && size < capacity
      requires Slots() == room && size == at
      modifies this`size, data
      ensures Guarded()
      ensures unchanged(this`ptr, this`capacity, this`data)
      ensures size == at + 1
      ensures Slots() == room[at := e]
      ensures Elements() == old(Elements()) + [e]
    {
      data[size] := e;
      size := size + 1;
    }

    /** The tail of `stack_push` at Hash level: the buffer checksum, then
        the block checksum, recomputed over the current state. */
    method Rehash()
      requires Guarded()
      modifies this`bufHash, this`hash
      ensures Valid()
      ensures unchanged(this`ptr, this`capacity, this`data, this`size, data)
      ensures Slots() == old(Slots())
      ensures level < HASH_LEVEL ==> bufHash == old(bufHash) && hash == old(hash)
    {
      if level >= HASH_LEVEL {
        bufHash := CalcBufHash();
        hash := CalcStackHash();
      }
    }

    /** `stack_pop`: decrements `size` and returns the element that was on
        top; capacity and buffer are untouched, so at Hash level only the
        block checksum is recomputed. Popping an empty stack halts the
        program, so `size > 0` is a precondition. */
    method Pop() returns (e: Int32)
      requires Valid()
      requires size > 0
      modifies this`size, this`hash
      ensures Valid()
      ensures size == old(size) - 1
      ensures e == old(Elements())[old(size) - 1]
      ensures Elements() == old(Elements())[..old(size) - 1]
      ensures Slots() == old(Slots())
      ensures level >= HASH_LEVEL ==> hash == StackHashOf(this)
    {
      e := Take();
      if level >= HASH_LEVEL {
        hash := CalcStackHash();
      }
    }

    /** The first half of `stack_pop`: the decrement and the read. */
    method Take() returns (e: Int32)
      requires Guarded() && size > 0
      modifies this`size
      ensures Guarded() && size == old(size) - 1
      ensures e == old(Elements())[size]
      ensures Elements() == old(Elements())[..size]
      ensures Slots() == old(Slots())
      ensures ptr.Live? ==> BufHashOf(this) == old(BufHashOf(this))
    {
      size := size - 1;
      e := data[size];
    }

    /** `stack_size`: the number of elements; at Dump level and up the stack
        must pass the validator first. */
    method StackSize() returns (n: int)
      requires level >= DUMP_LEVEL ==> Readable(this) && StackFail(this) == 0
      ensures n == size
      ensures level >= DUMP_LEVEL ==> 0 <= n <= capacity
    {
      n := size;
    }

    /** `stack_destruct`: hands the allocation back when there is a buffer
        pointer (the address given to `free` is returned), then marks the
        block destructed: size and capacity -1, `ptr` the sentinel 1. The
        checksum is not refreshed, so at Hash level the validator stops at
        the checksum unless it happens to collide. */
    method Destruct() returns (freed: Option<int>)
      requires level >= DUMP_LEVEL ==> Readable(this) && StackFail(this) == 0
      modifies this`size, this`capacity, this`ptr
      ensures freed == if old(ptr).Value() != 0 then Some(FindAllocAddress(level, old(ptr).Value())) else None
      ensures size == -1 && capacity == -1 && ptr == Poison(1)
      ensures Readable(this) && StackFail(this) != 0
      ensures level < HASH_LEVEL ==> StackFail(this) == 5
      ensures level >= HASH_LEVEL ==> StackFail(this) == 4 || StackFail(this) == 5
    {
      if ptr.Value() != 0 {
        freed := Some(FindAllocAddress(level, ptr.Value()));
      } else {
        freed := None;
      }
      size := -1;
      capacity := -1;
      ptr := Poison(1);
    }
  }

  // ---------------------------------------------------------------------
  // The validator
  // ---------------------------------------------------------------------

  /** The hash of the control block with its checksum field cleared. */
  function StackHashOf(s: Stack): int
    reads s`size, s`capacity, s`ptr, s`varName, s`fileName, s`funcName, s`line
  {
    HashOf(BlockBytes(s.size, s.capacity, s.ptr, s.varName, s.fileName, s.funcName, s.line, 0))
  }

  /** The hash of the `capacity` slots of the buffer. */
  function BufHashOf(s: Stack): int
    reads s`capacity, s`data, s.data
    requires 0 <= s.capacity <= s.data.Length
  {
    HashOf(SlotBytes(s.data[..s.capacity]))
  }

  /** `stack_fail` reads the buffer: the buffer checks are compiled in
      (Canary level and up) and the block passes every check before them,
      that is its canaries, its checksum (Hash level), sane size and
      capacity, and a pointer that is neither poisoned nor NULL. */
  predicate BufferReached(s: Stack)
    reads s
  {
    && s.level >= CANARY_LEVEL
    && s.cuckooLow == CUCKOO_STANDARD && s.cuckooHigh == CUCKOO_STANDARD
    && (s.level >= HASH_LEVEL ==> s.hash == StackHashOf(s))
    && 0 <= s.size <= s.capacity && PointerPoisonName(s.ptr.Value()) == 0 && s.ptr.Value() != 0
  }

  /** When `stack_fail` reads the buffer, `capacity` is the number of slots
      the buffer really has, so that the trailing canary and the slots it
      hashes are the ones the buffer holds. */
  ghost predicate Readable(s: Stack?)
    reads s
  {
    s != null ==> BufferReached(s) ==> s.data.Length == s.capacity
  }

  /** Check number `k` of the validator fails on its own, stated one check at
      a time; the buffer checks are stated for a block that reaches them. */
  ghost predicate Violated(s: Stack?, k: int)
    reads s, if s != null then {s.data} else {}
    requires Readable(s)
  {
    if s == null then k == 1
    else
      || (k == 2 && s.level >= CANARY_LEVEL && s.cuckooLow != CUCKOO_STANDARD)
      || (k == 3 && s.level >= CANARY_LEVEL && s.cuckooHigh != CUCKOO_STANDARD)
      || (k == 4 && s.level >= HASH_LEVEL && s.hash != StackHashOf(s))
      || (k == 5 && s.size < 0)
      || (k == 6 && s.capacity < 0)
      || (k == 7 && s.size > s.capacity)
      || (k == 8 && PointerPoisonName(s.ptr.Value()) != 0)
      || (k == 9 && BufferReached(s) && s.level >= CANARY_LEVEL && s.bufCuckooLow != CUCKOO_STANDARD)
      || (k == 10 && BufferReached(s) && s.level >= CANARY_LEVEL && s.bufCuckooHigh != CUCKOO_STANDARD)
      || (k == 11 && BufferReached(s) && s.level >= HASH_LEVEL && s.bufHash != BufHashOf(s))
  }

  /** `stack_fail`: runs the checks in a fixed order and returns the number of
      the first one that fails, 0 when none does (NULL `ptr` ends the checks
      successfully before the buffer is looked at). */
  function StackFail(s: Stack?): (code: int)
    reads s, if s != null then {s.data} else {}
    requires Readable(s)
    ensures 0 <= code < |STACK_FAIL_CODE|
    ensures code == 0 ==> forall k :: 1 <= k <= 11 ==> !Violated(s, k)
    ensures code != 0 ==> Violated(s, code) && forall k :: 1 <= k < code ==> !Violated(s, k)
  {
    if s == null then 1
    else if s.level >= CANARY_LEVEL && s.cuckooLow != CUCKOO_STANDARD then 2
    else if s.level >= CANARY_LEVEL && s.cuckooHigh != CUCKOO_STANDARD then 3
    else if s.level >= HASH_LEVEL && StackHashOf(s) != s.hash then 4
    else if s.size < 0 then 5
    else if s.capacity < 0 then 6
    else if s.size > s.capacity then 7
    else if PointerPoisonName(s.ptr.Value()) != 0 then 8
    else if s.ptr.Value() == 0 then 0
    else if s.level >= CANARY_LEVEL && s.bufCuckooLow != CUCKOO_STANDARD then 9
    else if s.level >= CANARY_LEVEL && s.bufCuckooHigh != CUCKOO_STANDARD then 10
    else if s.level >= HASH_LEVEL && BufHashOf(s) != s.bufHash then 11
    else 0
  }

  /** An untouched stack passes the validator, and a laid-out stack that
      passes the validator is untouched. */
  lemma ValidIffValidatorPasses(s: Stack)
    ensures s.Valid() ==> Readable(s) && StackFail(s) == 0
    ensures s.Layout() && Readable(s) && StackFail(s) == 0 ==> s.Valid()
  {
    if s.ptr.Live? && |PTR_POISONS| < s.ptr.addr < WORD_MOD {
      assert s.ptr.Value() == s.ptr.addr;
    }
  }

  /** `stack_ok`: the validator finds nothing. */
  predicate StackOk(s: Stack?)
    reads s, if s != null then {s.data} else {}
    requires Readable(s)
    ensures StackOk(s) ==> s != null && 0 <= s.size <= s.capacity && PointerPoisonName(s.ptr.Value()) == 0
  {
    StackFail(s) == 0
  }
}
