/** Clients of the protected stack: the sequences of calls a program makes,
    and what the validator reports after each kind of tampering. */
module Scenarios {
  import opened StackLib
  import opened ProtectedStack

  /** Push then pop on any valid stack hands back the pushed element and
      leaves the elements as they were (LIFO). */
  method PushThenPop(s: Stack, e: Int32, base: int) returns (r: Int32)
    requires s.Valid()
    requires s.size == s.capacity ==> IsAllocation(s.level, base)
    modifies s, s.data
    ensures r == e
    ensures s.Valid() && s.size == old(s.size) && s.Elements() == old(s.Elements())
  {
    s.Push(e, base);
    r := s.Pop();
  }

  /** A freshly initialised stack passes the validator and reports size 0. */
  method FreshStackPasses(level: Level, base: int, initCapacity: nat) returns (code: int, n: int)
    requires initCapacity > 0 ==> IsAllocation(level, base)
    ensures code == 0 && n == 0
  {
    var s := new Stack.Init(level, 0, 0, 0, 0, base, initCapacity);
    ValidIffValidatorPasses(s);
    code := StackFail(s);
    n := s.StackSize();
  }

  /** Init with capacity 2, then three pushes: the third finds the stack
      full and grows the buffer to floor(3 * 1.5) = 4 slots at a second
      allocation. */
  method InitAndPushThree(level: Level, base1: int, base2: int) returns (s: Stack)
    requires IsAllocation(level, base1) && IsAllocation(level, base2)
    ensures fresh(s) && fresh(s.data) && s.level == level && s.Valid()
    ensures s.Elements() == [10, 20, 30] && s.capacity == 4
  {
    s := new Stack.Init(level, 0, 0, 0, 0, base1, 2);
    s.Push(10, base1);
    assert s.Elements() == [10];
    s.Push(20, base1);
    assert s.Elements() == [10, 20];
    s.Push(30, base2);
  }

  /** The three pushes above, then three pops with a size query between
      them: the elements come back in reverse order. */
  method EndToEnd(level: Level, base1: int, base2: int) returns (cap: int, a: Int32, n: int, b: Int32, c: Int32)
    requires IsAllocation(level, base1) && IsAllocation(level, base2)
    ensures cap == 4 && a == 30 && n == 2 && b == 20 && c == 10
  {
    var s := InitAndPushThree(level, base1, base2);
    cap := s.capacity;
    a := s.Pop();
    ValidIffValidatorPasses(s);
    n := s.StackSize();
    b := s.Pop();
    c := s.Pop();
  }

  /** After `stack_destruct` the validator fails: the size check (code 5)
      below Hash level, and the stale block checksum (code 4) or, should
      it collide, the size check at Hash level. */
  method DestructedStackFails(level: Level, base: int, e: Int32) returns (code: int)
    requires IsAllocation(level, base)
    ensures level < HASH_LEVEL ==> code == 5
    ensures level >= HASH_LEVEL ==> code == 4 || code == 5
  {
    var s := new Stack.Init(level, 0, 0, 0, 0, base);
    s.Push(e, base);
    ValidIffValidatorPasses(s);
    var freed := s.Destruct();
    code := StackFail(s);
  }

  /** Overwriting a guard word of the control block is reported with that
      guard's code: 2 for the leading one, 3 for the trailing one. The
      validator stops there, before it reads the buffer, so this holds even
      when the capacity field no longer matches the buffer. */
  method BlockGuardOverwrite(level: Level, base: int, junk: int, leading: bool, capacity: int)
    returns (code: int)
    requires CANARY_LEVEL <= level && IsAllocation(level, base)
    requires junk != CUCKOO_STANDARD
    ensures code == if leading then 2 else 3
  {
    var s := new Stack.Init(level, 0, 0, 0, 0, base);
    s.capacity := capacity;
    if leading {
      s.cuckooLow := junk;
    } else {
      s.cuckooHigh := junk;
    }
    code := StackFail(s);
  }

  /** Below Canary level the buffer checks are compiled out, so the
      validator never reads the buffer: a capacity field that no longer
      matches the buffer, but still covers the size, passes, and
      `stack_size` reports the size. */
  method CapacityMismatchBelowCanary(level: Level, base: int, capacity: int) returns (code: int, n: int)
    requires level < CANARY_LEVEL && IsAllocation(level, base)
    requires capacity >= 0
    ensures code == 0 && n == 0
  {
    var s := new Stack.Init(level, 0, 0, 0, 0, base);
    s.capacity := capacity;
    code := StackFail(s);
    n := s.StackSize();
  }

  /** Overwriting a guard word of the buffer leaves the control block intact
      (its checksum does not cover the buffer), so the validator reaches the
      buffer checks and reports 9 for the leading guard, 10 for the trailing
      one. */
  method BufferGuardOverwrite(level: Level, base: int, junk: int, leading: bool) returns (code: int)
    requires CANARY_LEVEL <= level && IsAllocation(level, base)
    requires junk != CUCKOO_STANDARD
    ensures code == if leading then 9 else 10
  {
    var s := new Stack.Init(level, 0, 0, 0, 0, base);
    assert s.ptr.Value() == s.ptr.addr;
    if leading {
      s.bufCuckooLow := junk;
    } else {
      s.bufCuckooHigh := junk;
    }
    code := StackFail(s);
  }

  /** Below Hash level nothing covers the slots: overwriting a stored
      element goes unnoticed by the validator. */
  method SlotOverwriteUnnoticed(level: Level, base: int, e: Int32, junk: Int32) returns (code: int, top: Int32)
    requires level < HASH_LEVEL && IsAllocation(level, base)
    ensures code == 0 && top == junk
  {
    var s := new Stack.Init(level, 0, 0, 0, 0, base);
    s.Push(e, base);
    s.data[0] := junk;
    assert s.Valid();
    ValidIffValidatorPasses(s);
    code := StackFail(s);
    top := s.Pop();
  }
}
