# Protected stack

A model of the self-checking generic stack of `Stack.hpp` and the primitives
it takes from `StackLib.hpp`.

The stack is a growable array described by a control block holding `size`,
`capacity` and `ptr`. A compile-time protection level adds features
cumulatively:

- Dump (1): provenance fields recording where the stack was declared.
- Canary (2): guard words ("cuckoos") equal to `0x9DEADBEEFBADF00D`, both
  around the control block and around the buffer.
- Hash (3): a polynomial checksum of the control block, and one of the
  buffer.

`stack_fail` checks all of this in a fixed order and returns the number of
the first check that fails. Push, pop, size and destruct run it before they
act, from Dump level up.

Files:

- `stack_lib.dfy` (module `StackLib`):
  - the levels, the guard word and the table of failure messages;
  - `calc_hash`, as a loop method proved against a recursive definition of
    the checksum;
  - `pointer_poison_name`.
- `protected_stack.dfy` (module `ProtectedStack`):
  - the control block as a class `Stack`, whose methods update its fields in
    place;
  - the buffer as its named regions: the leading canary, the checksum word,
    an `array` of slots, and the trailing canary;
  - `allocate`, `reallocate`, `stack_init`, push, pop, size and destruct;
  - the validator `StackFail`.
- `scenarios.dfy` (module `Scenarios`): client call sequences, and what the
  validator reports after each kind of tampering.

Modelling choices:

- The element type `T` is a 32-bit `int` (`Int32`). A slot is hashed as its
  4 little-endian two's-complement bytes.
- The control block is hashed as the bytes of its eight 64-bit fields:
  - `size`, `capacity`, `ptr`, the three name pointers, `line`, `hash`;
  - `hash` is zeroed while hashing;
  - the whole-block hash exists only at Hash level, where every Dump field is
    present.
- Bytes are read as plain (signed) `char`, so a byte from 0x80 up enters the
  checksum as a negative number wrapped modulo 2^64.
- `ptr` is `Null`, `Poison(code)` (the value 1 that destruct writes) or
  `Live(addr)`. The allocator's result is the parameter `base`, which stands
  for the address `calloc`/`realloc` return. `IsAllocation` says what such an
  address is: above the poisoned values, and a 64-bit value once the header
  is skipped.
- The getters `get_buf_hash`, `get_buf_cuckoo_low` and `get_buf_cuckoo_high`
  (Stack.hpp:57-72) read the buffer's header and trailer. They are modelled
  as the fields `bufHash`, `bufCuckooLow` and `bufCuckooHigh`, which
  `StackFail` reads. `FindAllocAddress` states how the header sits in front
  of slot 0.
- Wherever the source halts through `assert`, the model has a precondition:
  - validity before push and pop;
  - a non-empty stack for pop;
  - a block that passes the validator before size and destruct, at Dump
    level and up.
- `StackFail` has one more precondition, `Readable`. It applies only when
  the validator goes on to read the buffer (`BufferReached`): the level is
  Canary or above, and every block check before the buffer checks passes
  (both block canaries, the block checksum at Hash level, size, capacity and
  a non-poisoned, non-NULL `ptr`). In that case `capacity` must be the number
  of slots the buffer really has. Below Canary level, and whenever a block
  check fails first, nothing is required.
- `pointer_poison_name` compares against the number of entries of
  `ptr_poisons` (2), not the last index (1). The value 2 is therefore
  reported as code 2, which is not an index of the table
  (`PoisonNameOnePastTable`). Only the dump, which is not modelled, uses the
  code as an index. The validator only compares it with 0.

## Model

| member | source | states |
|---|---|---|
| StackLib.CharValue | StackLib.hpp:46 | a byte read through plain `char` lies in [-128, 128) and equals the byte modulo 256 |
| StackLib.HashOf | StackLib.hpp:41-50 | the checksum of a byte range is a 64-bit value |
| StackLib.CalcHash | StackLib.hpp:41-50 | the loop returns the checksum of `mem[begin..end]`: the sum of each signed byte times 353^i, modulo 2^64; an empty or reversed range gives 0; the memory is a value, so nothing is written |
| StackLib.HashAdvance | StackLib.hpp:45-48 | one iteration extends the hashed prefix by one byte and keeps `multiplicator` equal to 353^k modulo 2^64 |
| StackLib.HashStep | StackLib.hpp:46 | appending a byte adds its wrapped term to the checksum, modulo 2^64 |
| StackLib.PowStep | StackLib.hpp:47 | `multiplicator *= prime` on a 64-bit word advances 353^k to 353^(k+1) modulo 2^64 |
| StackLib.HashOfEmpty | StackLib.hpp:44-49 | the checksum of an empty range is 0 |
| StackLib.HashOfZeroBytes | StackLib.hpp:41-50 | a range of zero bytes has checksum 0 |
| StackLib.HashOfHighByte | StackLib.hpp:46 | the lone byte 0x80 hashes to 2^64 - 128, not 128: bytes are signed |
| StackLib.PointerPoisonName | StackLib.hpp:54-60 | the result is nonzero exactly when the pointer's value is 1 or 2, and then it is that value; NULL gives 0 |
| StackLib.PoisonNameOnePastTable | StackLib.hpp:52-57 | the value 2, one past the last index of `ptr_poisons`, is reported as code 2; 0 gives 0 and the destruct sentinel 1 gives 1 |
| ProtectedStack.Ptr.Value | StackLib.hpp:55 | a pointer read as `uint64_t` is a 64-bit value, and NULL is 0 |
| ProtectedStack.HeaderBytes | Stack.hpp:32-41 | the header in front of slot 0 is empty below Canary level, one canary at Canary level, and a canary plus the checksum word at Hash level |
| ProtectedStack.FindAllocAddress | Stack.hpp:32-41 | `find_alloc_address` steps back exactly over the header, and changes nothing below Canary level |
| ProtectedStack.FindAllocAddressInverse | Stack.hpp:32-41 | `find_alloc_address` of the pointer `allocate` stores is the start of the allocation |
| ProtectedStack.Grow | Stack.hpp:306-307 | the grown capacity floor((c + 1) * 1.5) is strictly larger than c, and lies within rounding of (c + 1) * 3 / 2 |
| ProtectedStack.LittleEndianRoundTrip | Stack.hpp:15-29 | the n bytes of a field hold its value modulo 2^(8n): reading them back gives that value |
| ProtectedStack.WordsBytesRoundTrip | Stack.hpp:15-29 | field i of the block occupies bytes 8i to 8i + 8 of the hashed region and holds its value modulo 2^64, so no field overlaps another |
| ProtectedStack.WordsBytes | Stack.hpp:15-29 | consecutive 64-bit fields take 8 bytes each |
| ProtectedStack.WordsBytesInjective | Stack.hpp:15-29 | two runs of fields with the same bytes hold the same values modulo 2^64 |
| ProtectedStack.Int64Word | Stack.hpp:15-16 | an `int64_t` field holds its two's-complement bits: a negative value x is stored as x + 2^64 |
| ProtectedStack.BlockBytesSeeSize | Stack.hpp:44-51 | the bytes `calc_stack_hash` reads change whenever the `int64_t` size changes, as push, pop and destruct change it |
| ProtectedStack.BlockBytesSeeCapacity | Stack.hpp:44-51 | the bytes `calc_stack_hash` reads change whenever the `int64_t` capacity changes |
| ProtectedStack.SlotBytes | Stack.hpp:53-55 | the hashed slot region takes `sizeof(T)` = 4 bytes per slot |
| ProtectedStack.BlockBytes | Stack.hpp:44-51 | the region between the block canaries is the 64 bytes of the eight fields from `size` to `hash` |
| ProtectedStack.ZeroedBufferHash | Stack.hpp:210 | a freshly zeroed buffer of any capacity has checksum 0 |
| ProtectedStack.Stack.CalcStackHash | Stack.hpp:44-51 | the result is the checksum of the block with `hash` cleared; the block, `hash` included, is as before the call |
| ProtectedStack.Stack.CalcBufHash | Stack.hpp:53-55 | the result is the checksum of the first `capacity` slots |
| ProtectedStack.Stack.Allocate | Stack.hpp:195-214 | the new buffer has `newCapacity` zero slots at `base` plus the header; both buffer canaries are the standard (Canary level); the stored buffer checksum is that of the zeroed slots, i.e. 0 (Hash level); nothing else changes |
| ProtectedStack.Stack.Reallocate | Stack.hpp:216-252 | with no buffer: sets the capacity and allocates; otherwise: old slots kept, new slots zero, capacity set, trailing canary rewritten, leading canary carried over, buffer checksum recomputed (Hash level) |
| ProtectedStack.Stack.InitInternal | Stack.hpp:266-282 | afterwards the stack is valid and empty, the capacity is the one asked for, `ptr` is NULL exactly when it is 0, all slots are zero, and the block canaries and checksum are set |
| ProtectedStack.Stack.InitBuffer | Stack.hpp:272-277 | the capacity is set, then a zeroed buffer is allocated or `ptr` is NULL for capacity 0, and the state is guarded |
| ProtectedStack.Stack.Init | Stack.hpp:255-264 | the provenance is recorded at Dump level and up; the stack is then valid and empty with the capacity asked for, `ptr` is NULL exactly when that is 0 and otherwise points past the header of the allocation at `base`, and all slots are zero |
| ProtectedStack.Stack.Push | Stack.hpp:299-320 | validity is kept; size grows by 1; the buffer is reallocated (fresh, at `base`) exactly when the stack was full, to the grown capacity, and is otherwise the same buffer; the slots are the old ones, then zeros up to the new capacity, with `e` at the old size; the elements gain `e` on top; both checksums are current at Hash level |
| ProtectedStack.Stack.EnsureRoom | Stack.hpp:306-308 | reallocation happens only when size equals capacity; afterwards there is room for one more slot and the elements are unchanged |
| ProtectedStack.Stack.Store | Stack.hpp:309 | the element is written at index `size` and `size` is incremented; nothing else in the block changes |
| ProtectedStack.Stack.Rehash | Stack.hpp:310-313 | at Hash level the buffer checksum, then the block checksum, are recomputed, which makes a guarded stack valid; slots and sizes are untouched |
| ProtectedStack.Stack.Pop | Stack.hpp:322-345 | validity is kept; size shrinks by 1; the result is the top element; the elements below it and all slots are unchanged; the block checksum is current |
| ProtectedStack.Stack.Take | Stack.hpp:334 | the element at the decremented size is returned, and the buffer and its checksum are untouched |
| ProtectedStack.Stack.StackSize | Stack.hpp:347-355 | the result is `size`, within 0..capacity whenever the validator runs first |
| ProtectedStack.Stack.Destruct | Stack.hpp:284-297 | `free` gets `find_alloc_address(ptr)` exactly when `ptr` is not NULL; size and capacity become -1 and `ptr` the sentinel 1; the validator then fails: with code 5 below Hash level, and with 4 (stale checksum) or 5 at Hash level |
| ProtectedStack.StackFail | Stack.hpp:80-129 | the result is a code 0..11 indexing the message table; nonzero exactly when some check fails, and then it is the first failing check in the source order (NULL block, block canaries, block checksum, size, capacity, size > capacity, poisoned `ptr`, then, unless `ptr` is NULL, buffer canaries (Canary level) and buffer checksum (Hash level)); the buffer is read only when every earlier check passes |
| ProtectedStack.ValidIffValidatorPasses | Stack.hpp:80-129 | every state the operations keep passes the validator, and a laid-out block that passes it is in such a state |
| ProtectedStack.StackOk | Stack.hpp:134-136 | a block that passes is non-null, with 0 <= size <= capacity and an unpoisoned `ptr` |
| Scenarios.PushThenPop | Stack.hpp:299-345 | on any valid stack, pop right after push returns the pushed element and restores the elements and the size |
| Scenarios.FreshStackPasses | Stack.hpp:266-282 | a freshly initialised stack passes the validator and reports size 0 |
| Scenarios.InitAndPushThree | Stack.hpp:306-309 | three pushes on a stack of capacity 2 hold 10, 20, 30 in a buffer grown to capacity 4 |
| Scenarios.EndToEnd | Stack.hpp:322-355 | after those pushes, the pops return 30, 20, 10 and the size between them is 2 |
| Scenarios.DestructedStackFails | Stack.hpp:284-297 | a destructed stack fails the validator with 5 below Hash level and with 4 or 5 at Hash level |
| Scenarios.BlockGuardOverwrite | Stack.hpp:84-91 | overwriting the leading or trailing block canary is reported as 2 or 3, whatever the capacity field holds, since the buffer is not read |
| Scenarios.CapacityMismatchBelowCanary | Stack.hpp:113-127 | below Canary level the validator reads no buffer: a capacity that no longer matches the buffer but covers the size passes, and `stack_size` reports the size |
| Scenarios.BufferGuardOverwrite | Stack.hpp:114-121 | overwriting the leading or trailing buffer canary is reported as 9 or 10, because the block checksum does not cover the buffer |
| Scenarios.SlotOverwriteUnnoticed | Stack.hpp:123-127 | below Hash level nothing covers the slots: an overwritten element passes the validator and is what pop returns |

## Left out

- `stack_dump` and the `to_str` overloads: text formatting for observation only.
- `logs.hpp`: a logging sink, pure I/O.
- `assembler.cpp`: a separate tokenizer that shares no data with the stack.
- The text of the `__FILE__`/`__FUNCTION__`/variable-name strings: the provenance fields hold opaque numbers standing for their addresses.
- Failure of `calloc` or `realloc`: every allocation is assumed to succeed at the address `base`.
- `free` is not modelled as memory. `Destruct` returns the address it would pass to `free`.
- Byte addresses of the buffer regions: the regions are separate fields, so an out-of-bounds write from one region into the next is not expressible. The scenarios overwrite the fields directly instead.
- ProtectedStack.Stack.Pop: the empty-stack path (a log line, an `assert`, then `return 0` when assertions are off) is a precondition `size > 0`.
- ProtectedStack.Stack.Push: requires a valid stack at every level. The source checks this only from Dump level up, and at Release level a corrupted block gives undefined behaviour.
- ProtectedStack.Stack.Pop: requires a valid stack at every level, for the same reason as Push.
- ProtectedStack.Grow: computed exactly as floor((c + 1) * 3 / 2). The source's `double` product rounds once the capacity passes 2^53.
- The 64-bit `int64_t` size and capacity are unbounded integers. No reachable stack comes near 2^63 elements.
- ProtectedStack.StackFail: at Canary and Hash level, a block that passes every block check but whose capacity differs from its buffer's slot count is excluded by `Readable`. A larger capacity makes the C code read the trailing canary and the slots outside the allocation, which is undefined behaviour. A smaller one makes it read slot bytes as the trailing canary inside the allocation (most likely code 10), but the trailing canary is a separate field here and cannot be made to overlap the slots.
- ProtectedStack.StackFail: no claim that a checksum detects arbitrary corruption. Checksums can collide, so only an untouched state is proved to pass, and a canary overwrite to fail with its code.
