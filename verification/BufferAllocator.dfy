/**
 * The allocator of memory/BufferAllocator.c: a pointer moves up through one buffer, and back when the
 * last block is resized or given back.
 */
module BufferAllocator {
  import opened Prelude

  const ALIGNMENT: nat := 16

  /** `getAligned` on an address far enough from the end of the address space. */
  function Aligned(pointer: nat): nat {
    (pointer + ALIGNMENT - 1) / ALIGNMENT * ALIGNMENT
  }

  lemma AlignedFacts(pointer: nat)
    ensures pointer <= Aligned(pointer) < pointer + ALIGNMENT
    ensures Aligned(pointer) % ALIGNMENT == 0
    ensures pointer % ALIGNMENT == 0 ==> Aligned(pointer) == pointer
  {
  }

  /** `allocatorMalloc`: the end of the new block, in 64-bit arithmetic; None when it throws. */
  function MallocEnd(pointer: nat, end: nat, length: nat): Option<nat> {
    var endOfAlloc := (Aligned(pointer) + length) % TWO_64;
    if endOfAlloc >= end || endOfAlloc < pointer then None else Some(endOfAlloc)
  }

  /** The sum wraps past 2^64 and still lands between the pointer and the end. */
  predicate WrapsUnnoticed(pointer: nat, end: nat, length: nat) {
    length >= TWO_64 - (Aligned(pointer) - pointer) && Aligned(pointer) + length - TWO_64 < end
  }

  /** A block that is given out fits, except exactly for the lengths that wrap unnoticed. */
  lemma FitsExactly(pointer: nat, end: nat, length: nat)
    requires pointer <= end <= TWO_64 - ALIGNMENT && length < TWO_64
    ensures (MallocEnd(pointer, end, length).Some? ==> Aligned(pointer) + length < end) <==>
            !WrapsUnnoticed(pointer, end, length)
    ensures Aligned(pointer) + length < end ==> MallocEnd(pointer, end, length) == Some(Aligned(pointer) + length)
  {
    AlignedFacts(pointer);
    var sum := Aligned(pointer) + length;
    if sum < TWO_64 {
      assert sum % TWO_64 == sum;
    } else {
      assert sum % TWO_64 == sum - TWO_64;
    }
  }

  /** Such a length exists: 2^64 - 8 from an address eight short of the next boundary. */
  lemma WrapIsPossible()
    ensures WrapsUnnoticed(8, 1000, TWO_64 - 8) && MallocEnd(8, 1000, TWO_64 - 8) == Some(8)
  {
  }

  // ---- Blocks ----

  datatype Block = Block(start: nat, length: nat)

  function EndOf(b: Block): nat {
    b.start + b.length
  }

  ghost predicate Apart(a: Block, b: Block) {
    EndOf(a) <= b.start || EndOf(b) <= a.start
  }

  /** The live blocks are aligned, inside the buffer, below the pointer and pairwise apart. */
  ghost predicate Live(base: nat, end: nat, pointer: nat, live: set<Block>) {
    && base <= pointer <= end
    && (forall b {:trigger b in live} :: b in live ==>
          b.length > 0 && b.start % ALIGNMENT == 0 && base <= b.start && EndOf(b) <= pointer)
    && (forall a, b {:trigger a in live, b in live} :: a in live && b in live && a != b ==> Apart(a, b))
  }

  /** Rewinding to the start of the last block exposes no other. */
  lemma RewindIsSafe(base: nat, end: nat, pointer: nat, live: set<Block>, last: Block)
    requires Live(base, end, pointer, live) && last in live && EndOf(last) == pointer
    ensures Live(base, end, last.start, live - {last})
  {
    forall b {:trigger b in live - {last}} | b in live - {last} ensures EndOf(b) <= last.start {
      assert b in live && Apart(b, last);
    }
  }

  lemma ForgetIsSafe(base: nat, end: nat, pointer: nat, live: set<Block>, b: Block)
    requires Live(base, end, pointer, live)
    ensures Live(base, end, pointer, live - {b})
  {
  }

  lemma GrowIsSafe(base: nat, end: nat, pointer: nat, live: set<Block>, length: nat)
    requires Live(base, end, pointer, live) && length > 0 && Aligned(pointer) + length < end
    ensures Live(base, end, Aligned(pointer) + length, live + {Block(Aligned(pointer), length)})
  {
    AlignedFacts(pointer);
  }

  // ---- Runs ----

  /** `live` are the blocks handed out and not given back, which the program does not keep. */
  datatype State = State(pointer: nat, live: set<Block>)

  /** `provideMemory`: with no block, with a block, and with a block and size 0. */
  datatype Op = Allocate(length: nat) | Resize(original: Block, size: nat) | GiveBack(original: Block)

  /** A block of no bytes is nobody's. */
  function Malloc(end: nat, s: State, length: nat): Option<State> {
    match MallocEnd(s.pointer, end, length)
    case None => None
    case Some(e) => Some(State(e, if length > 0 then s.live + {Block(Aligned(s.pointer), length)} else s.live))
  }

  function Rewind(s: State, original: Block): State {
    State(if EndOf(original) == s.pointer then original.start else s.pointer, s.live - {original})
  }

  function Step(end: nat, s: State, op: Op): Option<State> {
    match op
    case Allocate(length) => Malloc(end, s, length)
    case Resize(original, size) => Malloc(end, Rewind(s, original), size)
    case GiveBack(original) => Some(Rewind(s, original))
  }

  /** Callers name live blocks, and sizes are 64-bit. */
  predicate Named(s: State, op: Op) {
    match op
    case Allocate(length) => length < TWO_64
    case Resize(original, size) => original in s.live && 0 < size < TWO_64
    case GiveBack(original) => original in s.live
  }

  predicate Wraps(end: nat, s: State, op: Op) {
    match op
    case Allocate(length) => WrapsUnnoticed(s.pointer, end, length)
    case Resize(original, size) => WrapsUnnoticed(Rewind(s, original).pointer, end, size)
    case GiveBack(_) => false
  }

  /** The assertion of `provideMemory`: a block that moves moves above its old end. */
  predicate MovesUp(s: State, op: Op) {
    op.Resize? ==>
      var start := Aligned(Rewind(s, op.original).pointer);
      start == op.original.start || start > EndOf(op.original)
  }

  lemma RewindKeepsLive(base: nat, end: nat, s: State, original: Block)
    requires Live(base, end, s.pointer, s.live) && original in s.live
    ensures var s' := Rewind(s, original); Live(base, end, s'.pointer, s'.live)
  {
    if EndOf(original) == s.pointer {
      RewindIsSafe(base, end, s.pointer, s.live, original);
    } else {
      ForgetIsSafe(base, end, s.pointer, s.live, original);
    }
  }

  /** The live blocks stay in order exactly when the length does not wrap unnoticed. */
  lemma MallocKeepsLive(base: nat, end: nat, s: State, length: nat)
    requires Live(base, end, s.pointer, s.live) && end <= TWO_64 - ALIGNMENT && length < TWO_64
    ensures var r := Malloc(end, s, length);
            (r.Some? ==> Live(base, end, r.value.pointer, r.value.live)) <==> !WrapsUnnoticed(s.pointer, end, length)
  {
    FitsExactly(s.pointer, end, length);
    AlignedFacts(s.pointer);
    if length > 0 && Aligned(s.pointer) + length < end {
      GrowIsSafe(base, end, s.pointer, s.live, length);
    }
    if WrapsUnnoticed(s.pointer, end, length) {
      var r := Malloc(end, s, length).value;
      assert Block(Aligned(s.pointer), length) in r.live;
    }
  }

  /** So for every call; and a resized block stays or moves above its old end. */
  lemma StepKeepsLive(base: nat, end: nat, s: State, op: Op)
    requires Live(base, end, s.pointer, s.live) && end <= TWO_64 - ALIGNMENT && Named(s, op)
    ensures MovesUp(s, op)
    ensures var r := Step(end, s, op);
            (r.Some? ==> Live(base, end, r.value.pointer, r.value.live)) <==> !Wraps(end, s, op)
  {
    match op
    case Allocate(length) => MallocKeepsLive(base, end, s, length);
    case Resize(original, size) =>
      RewindKeepsLive(base, end, s, original);
      MallocKeepsLive(base, end, Rewind(s, original), size);
      AlignedFacts(Rewind(s, original).pointer);
    case GiveBack(original) => RewindKeepsLive(base, end, s, original);
  }

  // ---- What comes back ----

  /** The last block that was handed out. */
  predicate IsLast(s: State, b: Block) {
    b in s.live && EndOf(b) == s.pointer
  }

  /** Giving back the block just allocated undoes the allocation, up to the rounding of the pointer. */
  lemma GiveBackUndoesAllocate(base: nat, end: nat, s: State, length: nat)
    requires Live(base, end, s.pointer, s.live) && end <= TWO_64 - ALIGNMENT && 0 < length
    requires Aligned(s.pointer) + length < end
    ensures var b, r := Block(Aligned(s.pointer), length), Step(end, s, Allocate(length));
            && r.Some? && IsLast(r.value, b)
            && Step(end, r.value, GiveBack(b)) == Some(State(Aligned(s.pointer), s.live))
  {
    FitsExactly(s.pointer, end, length);
    AlignedFacts(s.pointer);
    var b := Block(Aligned(s.pointer), length);
    assert b !in s.live;
    assert s.live + {b} - {b} == s.live;
  }

  /** The space of the last block is handed out again: the same length brings back the same state. */
  lemma LastIsReused(base: nat, end: nat, s: State, b: Block)
    requires Live(base, end, s.pointer, s.live) && end <= TWO_64 - ALIGNMENT && IsLast(s, b) && s.pointer < end
    ensures var r := Step(end, s, GiveBack(b)); r.Some? && Step(end, r.value, Allocate(b.length)) == Some(s)
  {
    var r := Rewind(s, b);
    AlignedFacts(r.pointer);
    FitsExactly(r.pointer, end, b.length);
    assert s.live - {b} + {b} == s.live;
  }

  /** Any other block leaves the pointer where it is. */
  lemma OthersAreNotReused(end: nat, s: State, b: Block)
    requires b in s.live && !IsLast(s, b)
    ensures Step(end, s, GiveBack(b)) == Some(State(s.pointer, s.live - {b}))
  {
  }

  /** The last block grows and shrinks where it is; any other moves above everything. */
  lemma ResizeMoves(base: nat, end: nat, s: State, b: Block, size: nat)
    requires Live(base, end, s.pointer, s.live) && end <= TWO_64 - ALIGNMENT && b in s.live && 0 < size < TWO_64
    requires !Wraps(end, s, Resize(b, size))
    ensures var r, start := Step(end, s, Resize(b, size)), if IsLast(s, b) then b.start else Aligned(s.pointer);
            && (r.Some? <==> start + size < end)
            && (r.Some? ==> r.value == State(start + size, s.live - {b} + {Block(start, size)}))
  {
    var u := Rewind(s, b);
    RewindKeepsLive(base, end, s, b);
    AlignedFacts(u.pointer);
    FitsExactly(u.pointer, end, size);
  }

  /** A run stops when memory runs out, a length wraps unnoticed or a caller names a block that is not live. */
  function Run(end: nat, s: State, ops: seq<Op>): Option<State>
    decreases |ops|
  {
    if ops == [] || !Named(s, ops[0]) || Wraps(end, s, ops[0]) then Some(s)
    else
      match Step(end, s, ops[0])
      case None => None
      case Some(s') => Run(end, s', ops[1..])
  }

  /** In every run the live blocks are aligned, inside the buffer and pairwise apart. */
  lemma {:induction false} RunKeepsLive(base: nat, end: nat, s: State, ops: seq<Op>)
    requires Live(base, end, s.pointer, s.live) && end <= TWO_64 - ALIGNMENT
    ensures var r := Run(end, s, ops); r.Some? ==> Live(base, end, r.value.pointer, r.value.live)
    decreases |ops|
  {
    if ops != [] && Named(s, ops[0]) && !Wraps(end, s, ops[0]) {
      StepKeepsLive(base, end, s, ops[0]);
      var r := Step(end, s, ops[0]);
      if r.Some? { RunKeepsLive(base, end, r.value, ops[1..]); }
    }
  }

  class Buffer {
    const base: nat
    const end: nat
    var pointer: nat
    ghost var live: set<Block>

    ghost function View(): State
      reads this
    {
      State(pointer, live)
    }

    /** What holds even after a length has wrapped. */
    ghost predicate Inside()
      reads this
    {
      base <= pointer <= end <= TWO_64 - ALIGNMENT
    }

    ghost predicate Valid()
      reads this
    {
      end <= TWO_64 - ALIGNMENT && Live(base, end, pointer, live)
    }

    constructor (base: nat, length: nat)
      requires base + length <= TWO_64 - ALIGNMENT
      ensures Valid() && View() == State(base, {}) && this.base == base && this.end == base + length
    {
      this.base := base;
      this.end := base + length;
      pointer := base;
      live := {};
    }

    /** `allocatorMalloc`; None when it throws. */
    method AllocatorMalloc(length: nat) returns (r: Option<nat>)
      requires Inside() && length < TWO_64
      modifies this
      ensures Inside() && (old(Valid()) ==> (Valid() <==> !WrapsUnnoticed(old(pointer), end, length)))
      ensures match Malloc(end, old(View()), length)
              case None => r.None? && View() == old(View())
              case Some(s) => r == Some(Aligned(old(pointer))) && View() == s
    {
      if Valid() { MallocKeepsLive(base, end, View(), length); }
      AlignedFacts(pointer);
      var start := Aligned(pointer);
      var endOfAlloc := (start + length) % TWO_64;
      if endOfAlloc >= end {
        return None;
      }
      if endOfAlloc < pointer {
        return None;
      }
      pointer := endOfAlloc;
      if length > 0 {
        live := live + {Block(start, length)};
      }
      return Some(start);
    }

    /** `provideMemory` with a block; None when it throws, with the pointer already moved back, or gives the block back. */
    method ProvideMemory(original: Block, size: nat) returns (r: Option<nat>)
      requires Valid() && original in live && size < TWO_64
      modifies this
      ensures Valid() <==> !(size > 0 && Wraps(end, old(View()), Resize(original, size)))
      ensures match Step(end, old(View()), if size == 0 then GiveBack(original) else Resize(original, size))
              case None => r.None? && View() == Rewind(old(View()), original)
              case Some(s) => View() == s && r.Some? == (size > 0) && (size > 0 ==> Block(r.value, size) in live)
    {
      ghost var op := if size == 0 then GiveBack(original) else Resize(original, size);
      StepKeepsLive(base, end, View(), op);
      RewindKeepsLive(base, end, View(), original);
      if EndOf(original) == pointer {
        pointer := original.start;
      }
      live := live - {original};
      if size == 0 {
        return None;
      }
      r := AllocatorMalloc(size);
      if r.Some? && r.value != original.start {
        assert r.value > EndOf(original);
      }
    }
  }
}
