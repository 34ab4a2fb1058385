/** The shared memory allocator: blocks are cut from the first segment with room, never freed one by one, and
    given back all together by restoring the saved positions. */
module SharedAlloc {
  import opened Alignment

  const TWO_32: nat := 0x1_0000_0000
  const TWO_31: nat := 0x8000_0000
  const TWO_64: nat := 0x1_0000_0000_0000_0000

  /** The size of a block, held in an unsigned int. */
  function BlockSize(size: nat): nat { Aligned(size) % TWO_32 }

  datatype Segment = Segment(base: nat, size: nat, pos: nat)

  /** positions are held in ints. */
  datatype Saved = Saved(positions: seq<int>, free: nat)

  datatype Memory = Memory(segs: seq<Segment>, free: nat, exhausted: bool)

  /** A block that a caller holds: size bytes at offset at of a segment. */
  datatype Block = Block(seg: nat, at: nat, size: nat)

  function Room(s: Segment): int { s.size - s.pos }

  function FreeIn(segs: seq<Segment>): int {
    if segs == [] then 0 else FreeIn(segs[..|segs| - 1]) + Room(segs[|segs| - 1])
  }

  /** The first segment from i on with room for n bytes. */
  function FirstFit(segs: seq<Segment>, n: nat, i: nat): (r: int)
    requires i <= |segs|
    ensures r == -1 || (i <= r < |segs| && Room(segs[r]) >= n)
    ensures forall j {:trigger segs[j]} :: i <= j < (if r == -1 then |segs| else r) ==> Room(segs[j]) < n
    decreases |segs| - i
  {
    if i == |segs| then -1 else if Room(segs[i]) >= n then i else FirstFit(segs, n, i + 1)
  }

  function Largest(segs: seq<Segment>): int {
    if segs == [] then 0
    else
      var l := Largest(segs[..|segs| - 1]);
      if Room(segs[|segs| - 1]) > l then Room(segs[|segs| - 1]) else l
  }

  const MIN_FREE_MEMORY: nat := 64 * 1024

  function Failed(m: Memory): Memory { if Largest(m.segs) < MIN_FREE_MEMORY then m.(exhausted := true) else m }

  /** zend_shared_alloc: the new state and the segment of the block, -1 for NULL. */
  function Alloc(m: Memory, size: nat): (r: (Memory, int))
    ensures |r.0.segs| == |m.segs| && -1 <= r.1 < |m.segs|
  {
    var n := BlockSize(size);
    if n > m.free then (Failed(m), -1)
    else
      var i := FirstFit(m.segs, n, 0);
      if i < 0 then (Failed(m), -1)
      else (m.(segs := m.segs[i := m.segs[i].(pos := m.segs[i].pos + n)], free := m.free - n), i)
  }

  /** From size_t to int and back. */
  function ToInt(n: nat): int { var m := n % TWO_32; if m < TWO_31 then m else m - TWO_32 }
  function ToSize(i: int): nat { i % TWO_64 }

  function Save(m: Memory): Saved { Saved(seq(|m.segs|, i requires 0 <= i < |m.segs| => ToInt(m.segs[i].pos)), m.free) }

  function Restore(m: Memory, saved: Saved): Memory
    requires |saved.positions| == |m.segs|
  {
    Memory(seq(|m.segs|, i requires 0 <= i < |m.segs| => m.segs[i].(pos := ToSize(saved.positions[i]))), saved.free,
      false)
  }

  // ---- live blocks

  ghost predicate InSegment(m: Memory, b: Block) {
    b.seg < |m.segs| && b.at % ALIGN == 0 && b.at + Aligned(b.size) <= m.segs[b.seg].pos
  }

  ghost predicate Disjoint(a: Block, b: Block) { a.seg == b.seg ==> a.at + a.size <= b.at || b.at + b.size <= a.at }

  /** Blocks are aligned, disjoint, and inside the used part of their segment; free is what is left. */
  ghost predicate Sound(m: Memory, blocks: seq<Block>) {
    && (forall i {:trigger m.segs[i]} :: 0 <= i < |m.segs| ==>
          m.segs[i].pos <= m.segs[i].size && m.segs[i].pos % ALIGN == 0)
    && m.free == FreeIn(m.segs)
    && (forall k {:trigger blocks[k]} :: 0 <= k < |blocks| ==> InSegment(m, blocks[k]))
    && (forall k, l {:trigger blocks[k], blocks[l]} :: 0 <= k < l < |blocks| ==> Disjoint(blocks[k], blocks[l]))
  }

  lemma {:induction false} FreeAfter(segs: seq<Segment>, i: nat, n: nat)
    requires i < |segs|
    ensures FreeIn(segs[i := segs[i].(pos := segs[i].pos + n)]) == FreeIn(segs) - n
  {
    var r := segs[i := segs[i].(pos := segs[i].pos + n)];
    if i < |segs| - 1 {
      FreeAfter(segs[..|segs| - 1], i, n);
      assert r[..|segs| - 1] == segs[..|segs| - 1][i := segs[i].(pos := segs[i].pos + n)];
    } else {
      assert r[..|segs| - 1] == segs[..|segs| - 1];
    }
  }

  /** A block that is handed out starts where its segment's free part started, is aligned, meets no live block
      and lies inside the segment: exactly when the size did not wrap around in 32 bits. */
  lemma AllocSound(m: Memory, blocks: seq<Block>, size: nat)
    requires Sound(m, blocks)
    ensures var (r, i) := Alloc(m, size);
      && (i < 0 ==> Sound(r, blocks) && r.segs == m.segs)
      && (i >= 0 ==>
           var b := Block(i, m.segs[i].pos, size);
           && (forall j {:trigger m.segs[j]} :: 0 <= j < i ==> Room(m.segs[j]) < BlockSize(size))
           && (Sound(r, blocks + [b]) <==> Aligned(size) < TWO_32))
  {
    var (r, i) := Alloc(m, size);
    var n := BlockSize(size);
    if i >= 0 {
      var b := Block(i, m.segs[i].pos, size);
      FreeAfter(m.segs, i, n);
      AlignedRest(Aligned(size));
      var all := blocks + [b];
      if Aligned(size) < TWO_32 {
        AllocBlocks(m, blocks, size, i, r);
      } else {
        assert all[|blocks|] == b && !InSegment(r, b);
      }
    }
  }

  lemma {:induction false} RoomWithin(segs: seq<Segment>, j: nat)
    requires j < |segs| && forall i {:trigger segs[i]} :: 0 <= i < |segs| ==> segs[i].pos <= segs[i].size
    ensures 0 <= FreeIn(segs[..|segs| - 1]) && Room(segs[j]) <= FreeIn(segs)
  {
    var n := |segs| - 1;
    if n > 0 {
      RoomWithin(segs[..n], if j < n then j else 0);
      assert segs[..n][n - 1] == segs[n - 1];
    }
  }

  lemma {:induction false} LargestIs(segs: seq<Segment>, n: nat)
    requires n > 0
    ensures Largest(segs) < n <==> forall j {:trigger segs[j]} :: 0 <= j < |segs| ==> Room(segs[j]) < n
  {
    if segs != [] {
      var k := |segs| - 1;
      LargestIs(segs[..k], n);
      assert forall j {:trigger segs[j]} :: 0 <= j < k ==> segs[..k][j] == segs[j];
      assert (forall j {:trigger segs[j]} :: 0 <= j < |segs| ==> Room(segs[j]) < n) <==>
        Room(segs[k]) < n && forall j {:trigger segs[..k][j]} :: 0 <= j < k ==> Room(segs[..k][j]) < n;
    }
  }

  /** No segment has room for n bytes. */
  predicate NoRoom(m: Memory, n: nat) { forall j {:trigger m.segs[j]} :: 0 <= j < |m.segs| ==> Room(m.segs[j]) < n }

  /** r is m with n bytes taken from the first segment that has room for them, segment i. */
  predicate TakenFirst(m: Memory, n: nat, r: Memory, i: nat) {
    && i < |m.segs| && Room(m.segs[i]) >= n && m.free >= n && NoRoom(m.(segs := m.segs[..i]), n)
    && r == m.(segs := m.segs[i := m.segs[i].(pos := m.segs[i].pos + n)], free := m.free - n)
  }

  /** NULL exactly if no segment has room; a failed call changes nothing but memory_exhausted, which it raises exactly
      if no segment has 64 KB left; any other call takes the block from the first segment with room, and leaves
      memory_exhausted as it is. */
  lemma AllocExactly(m: Memory, blocks: seq<Block>, size: nat)
    requires Sound(m, blocks)
    ensures var ((r, i), n) := (Alloc(m, size), BlockSize(size));
      && (i == -1 <==> NoRoom(m, n))
      && (i == -1 ==> r == m.(exhausted := m.exhausted || NoRoom(m, 65536)))
      && (i >= 0 ==> TakenFirst(m, n, r, i))
  {
    var n := BlockSize(size);
    LargestIs(m.segs, MIN_FREE_MEMORY);
    if n > m.free {
      forall j | 0 <= j < |m.segs| ensures Room(m.segs[j]) < n {
        RoomWithin(m.segs, j);
      }
    }
    assert forall j {:trigger m.segs[j]} :: 0 <= j < FirstFit(m.segs, n, 0) ==> Room(m.segs[j]) < n;
  }

  lemma AlignedRest(a: nat)
    requires a % ALIGN == 0
    ensures a % TWO_32 % ALIGN == 0
  {
    assert TWO_32 == ALIGN * 0x2000_0000;
    assert a == a / TWO_32 * TWO_32 + a % TWO_32;
    assert a / TWO_32 * TWO_32 == ALIGN * (a / TWO_32 * 0x2000_0000);
    assert a % TWO_32 == ALIGN * (a / ALIGN) - ALIGN * (a / TWO_32 * 0x2000_0000);
    assert a % TWO_32 == ALIGN * (a / ALIGN - a / TWO_32 * 0x2000_0000);
  }

  lemma AllocSegments(m: Memory, blocks: seq<Block>, size: nat, i: nat, r: Memory)
    requires Sound(m, blocks) && Alloc(m, size) == (r, i)
    ensures r.free == FreeIn(r.segs)
    ensures forall j {:trigger r.segs[j]} :: 0 <= j < |r.segs| ==>
      m.segs[j].pos <= r.segs[j].pos <= r.segs[j].size && r.segs[j].pos % ALIGN == 0
  {
    FreeAfter(m.segs, i, BlockSize(size));
    AlignedRest(Aligned(size));
  }

  lemma AllocBlocks(m: Memory, blocks: seq<Block>, size: nat, i: nat, r: Memory)
    requires Sound(m, blocks) && Alloc(m, size) == (r, i) && Aligned(size) < TWO_32
    ensures Sound(r, blocks + [Block(i, m.segs[i].pos, size)])
  {
    var b := Block(i, m.segs[i].pos, size);
    var all := blocks + [b];
    AllocSegments(m, blocks, size, i, r);
    assert InSegment(r, b);
    forall k | 0 <= k < |all| ensures InSegment(r, all[k]) {
      if k < |blocks| {
        assert all[k] == blocks[k] && InSegment(m, blocks[k]);
        assert r.segs[all[k].seg].pos >= m.segs[all[k].seg].pos;
      }
    }
    forall k, l | 0 <= k < l < |all| ensures Disjoint(all[k], all[l]) {
      assert all[k] == blocks[k] && InSegment(m, blocks[k]);
      if l < |blocks| {
        assert all[l] == blocks[l] && Disjoint(blocks[k], blocks[l]);
      }
    }
  }

  // ---- saving and restoring

  /** Every position fits an int. */
  ghost predicate Fits(m: Memory) { forall i {:trigger m.segs[i]} :: 0 <= i < |m.segs| ==> m.segs[i].pos < TWO_31 }

  lemma PositionBack(p: nat)
    requires p < TWO_64
    ensures ToSize(ToInt(p)) == p <==> p < TWO_31 || p >= TWO_64 - TWO_31
  {
    if p >= TWO_31 {
      assert TWO_64 % TWO_32 == 0;
    }
  }

  /** A state that has grown out of another: the segments are the same, used further. */
  ghost predicate Grown(m0: Memory, m: Memory) {
    |m.segs| == |m0.segs| && forall i {:trigger m.segs[i]} :: 0 <= i < |m.segs| ==>
      m.segs[i] == m0.segs[i].(pos := m.segs[i].pos) && m.segs[i].pos >= m0.segs[i].pos
  }

  /** A size whose aligned form does not fit an unsigned int: a block is handed out and nothing is taken for it. */
  lemma SizeWraps(m: Memory, size: nat)
    requires m == Memory([Segment(0, 8192, 0)], 8192, false) && size == TWO_32 - 4
    ensures Sound(m, []) && Alloc(m, size) == (m, 0) && !Sound(m, [Block(0, 0, size)])
  {
    assert m.segs[..0] == [] && FreeIn(m.segs) == 8192;
    assert m.segs[0 := m.segs[0]] == m.segs;
    assert !InSegment(m, [Block(0, 0, size)][0]);
  }

  /** A position of 2 GB comes back from its int as a different one, beyond the end of the segment. */
  lemma PositionWraps(m: Memory)
    requires m == Memory([Segment(0, TWO_31 + 8192, TWO_31)], 8192, false)
    ensures Sound(m, []) && !Fits(m) && Restore(m, Save(m)).segs[0].pos == TWO_64 - TWO_31
    ensures !Sound(Restore(m, Save(m)), [])
  {
    assert m.segs[..0] == [] && FreeIn(m.segs) == 8192;
    var r := Restore(m, Save(m));
    assert r.segs[0].pos > r.segs[0].size;
  }

  /** Whatever was allocated since, restoring gives back the saved state, and so frees exactly those blocks, if
      and only if all saved positions fit an int. (Segments are smaller than the last 2 GB of the address space.) */
  lemma RestoreExact(m0: Memory, blocks0: seq<Block>, m: Memory)
    requires Sound(m0, blocks0) && Grown(m0, m)
    requires forall i {:trigger m0.segs[i]} :: 0 <= i < |m0.segs| ==> m0.segs[i].size < TWO_64 - TWO_31
    ensures var r := Restore(m, Save(m0));
      (r == m0.(exhausted := false) <==> Fits(m0)) && (Fits(m0) ==> Sound(r, blocks0))
  {
    var r := Restore(m, Save(m0));
    forall i | 0 <= i < |m0.segs| ensures (r.segs[i] == m0.segs[i] <==> m0.segs[i].pos < TWO_31) {
      PositionBack(m0.segs[i].pos);
    }
    if Fits(m0) {
      assert r.segs == m0.segs;
    }
  }

  // ---- whole runs

  /** size: a request; Saves and Restores are the two state changes at startup and at a restart. */
  datatype Call = Allocates(size: nat) | Restores

  /** The memory, the blocks handed out since the save, and what was saved. */
  datatype Arena = Arena(mem: Memory, blocks: seq<Block>)

  function Called(a: Arena, saved: Saved, base: seq<Block>, c: Call): Arena
    requires |saved.positions| == |a.mem.segs|
  {
    match c
    case Allocates(size) =>
      var (m, i) := Alloc(a.mem, size);
      if i < 0 then Arena(m, a.blocks) else Arena(m, a.blocks + [Block(i, a.mem.segs[i].pos, size)])
    case Restores => Arena(Restore(a.mem, saved), base)
  }

  function Calls(a: Arena, saved: Saved, base: seq<Block>, cs: seq<Call>): (r: Arena)
    requires |saved.positions| == |a.mem.segs|
    ensures |r.mem.segs| == |a.mem.segs|
  {
    if cs == [] then a else Called(Calls(a, saved, base, cs[..|cs| - 1]), saved, base, cs[|cs| - 1])
  }

  /** From the saved state on, through any allocations and restarts: the live blocks stay aligned, disjoint and
      inside their segments, and the free count exact; those allocated before the save are live throughout. */
  lemma {:induction false} RunSound(a: Arena, cs: seq<Call>)
    requires Sound(a.mem, a.blocks) && Fits(a.mem)
    requires forall i {:trigger a.mem.segs[i]} :: 0 <= i < |a.mem.segs| ==> a.mem.segs[i].size < TWO_64 - TWO_31
    requires forall k {:trigger cs[k]} :: 0 <= k < |cs| && cs[k].Allocates? ==> Aligned(cs[k].size) < TWO_32
    ensures var r := Calls(a, Save(a.mem), a.blocks, cs);
      Sound(r.mem, r.blocks) && Grown(a.mem, r.mem) && a.blocks <= r.blocks
      && (|cs| > 0 && cs[|cs| - 1].Restores? ==> r == Arena(a.mem.(exhausted := false), a.blocks))
  {
    if cs != [] {
      var q, last := cs[..|cs| - 1], cs[|cs| - 1];
      RunSound(a, q);
      var b := Calls(a, Save(a.mem), a.blocks, q);
      match last
      case Allocates(size) =>
        AllocSound(b.mem, b.blocks, size);
      case Restores =>
        RestoreExact(a.mem, a.blocks, b.mem);
    }
  }

  // ---- the allocator in memory

  class SharedMemory {
    var segments: array<Segment>
    var sharedFree: nat
    var memoryExhausted: bool
    var saved: Saved

    ghost function View(): Memory
      reads this, segments
    {
      Memory(segments[..], sharedFree, memoryExhausted)
    }

    /** Segments as the system gave them. */
    constructor (sizes: seq<(nat, nat)>)
      ensures fresh(segments) && segments.Length == |sizes| && Sound(View(), [])
      ensures forall i {:trigger segments[i]} :: 0 <= i < |sizes| ==> segments[i] == Segment(sizes[i].0, sizes[i].1, 0)
    {
      segments := new Segment[|sizes|](i requires 0 <= i < |sizes| => Segment(sizes[i].0, sizes[i].1, 0));
      sharedFree, memoryExhausted, saved := 0, false, Saved([], 0);
      new;
      var i := 0;
      while i < |sizes|
        invariant 0 <= i <= |sizes| == segments.Length && fresh(segments) && sharedFree == FreeIn(segments[..i])
        invariant forall j {:trigger segments[j]} :: 0 <= j < |sizes| ==>
          segments[j] == Segment(sizes[j].0, sizes[j].1, 0)
      {
        assert segments[..i + 1][..i] == segments[..i];
        sharedFree := sharedFree + segments[i].size;
        i := i + 1;
      }
      assert segments[..i] == segments[..];
    }

    /** zend_shared_alloc_get_largest_free_block */
    method GetLargestFreeBlock() returns (largest: nat)
      requires forall i {:trigger segments[i]} :: 0 <= i < segments.Length ==> segments[i].pos <= segments[i].size
      ensures largest == Largest(View().segs)
    {
      largest := 0;
      var i := 0;
      while i < segments.Length
        invariant 0 <= i <= segments.Length && largest == Largest(segments[..i])
      {
        assert segments[..i + 1][..i] == segments[..i];
        var blockSize := segments[i].size - segments[i].pos;
        if blockSize > largest {
          largest := blockSize;
        }
        i := i + 1;
      }
      assert segments[..i] == segments[..];
    }

    /** zend_shared_alloc: the address of the block and its segment, -1 for NULL. */
    method ZendSharedAlloc(size: nat, ghost blocks: seq<Block>) returns (p: nat, seg: int)
      requires Sound(View(), blocks)
      modifies this`sharedFree, this`memoryExhausted, segments
      ensures (View(), seg) == old(Alloc(View(), size))
      ensures seg == -1 <==> old(NoRoom(View(), BlockSize(size)))
      ensures seg == -1 ==> memoryExhausted == old(memoryExhausted || NoRoom(View(), 65536))
      ensures seg >= 0 ==> p == old(segments[seg].base + segments[seg].pos)
    {
      AllocExactly(View(), blocks, size);
      var blockSize := Aligned(size) % TWO_32;
      p, seg := 0, 0;
      assert forall i {:trigger segments[i]} :: 0 <= i < segments.Length ==> View().segs[i] == segments[i];
      if blockSize <= sharedFree {
        while seg < segments.Length && segments[seg].size - segments[seg].pos < blockSize
          invariant 0 <= seg <= segments.Length
          invariant FirstFit(View().segs, blockSize, 0) == FirstFit(View().segs, blockSize, seg)
        {
          seg := seg + 1;
        }
        if seg < segments.Length {
          p := segments[seg].base + segments[seg].pos;
          segments[seg] := segments[seg].(pos := segments[seg].pos + blockSize);
          sharedFree := sharedFree - blockSize;
          return;
        }
      }
      seg := -1;
      var largest := GetLargestFreeBlock();
      if largest < MIN_FREE_MEMORY {
        memoryExhausted := true;
      }
    }

    /** zend_shared_alloc_save_state */
    method SaveState()
      modifies this`saved
      ensures saved == Save(View())
    {
      var positions, i := [], 0;
      while i < segments.Length
        invariant 0 <= i <= segments.Length && |positions| == i
        invariant forall j {:trigger positions[j]} :: 0 <= j < i ==> positions[j] == ToInt(segments[j].pos)
      {
        positions := positions + [ToInt(segments[i].pos)];
        i := i + 1;
      }
      saved := Saved(positions, sharedFree);
    }

    /** zend_shared_alloc_restore_state */
    method RestoreState()
      requires |saved.positions| == segments.Length
      modifies this`sharedFree, this`memoryExhausted, segments
      ensures View() == old(Restore(View(), saved))
    {
      var i := 0;
      while i < segments.Length
        invariant 0 <= i <= segments.Length
        invariant forall j {:trigger segments[j]} :: 0 <= j < segments.Length ==>
          segments[j] == if j < i then old(segments[j]).(pos := ToSize(saved.positions[j])) else old(segments[j])
      {
        segments[i] := segments[i].(pos := ToSize(saved.positions[i]));
        i := i + 1;
      }
      sharedFree := saved.free;
      memoryExhausted := false;
    }
  }

  // ---- the sizes of System V segments

  const SEG_ALLOC_SIZE_MAX: nat := 32 * 1024 * 1024
  const SEG_ALLOC_SIZE_MIN: nat := 2 * 1024 * 1024

  function Sum(l: seq<nat>): nat { if l == [] then 0 else Sum(l[..|l| - 1]) + l[|l| - 1] }

  /** A segment size that the loops of create_segments may come to. */
  predicate Halved(size: int) {
    size in {SEG_ALLOC_SIZE_MAX, SEG_ALLOC_SIZE_MAX / 2, SEG_ALLOC_SIZE_MAX / 4, SEG_ALLOC_SIZE_MAX / 8,
      SEG_ALLOC_SIZE_MIN}
  }

  function Min(a: nat, b: nat): nat { if a > b then b else a }

  /** The first two loops of create_segments: the largest size up to the one wanted for which the system gives
      a first segment. */
  method ChooseSize(requested: nat, grants: nat -> bool) returns (ok: bool, segSize: nat, ghost wanted: nat)
    ensures Halved(wanted) && (wanted == SEG_ALLOC_SIZE_MIN || requested * 2 > wanted)
    ensures wanted == SEG_ALLOC_SIZE_MAX || requested <= wanted
    ensures ok ==> Halved(segSize) && segSize <= wanted && grants(Min(requested, segSize))
    ensures forall s: nat {:trigger Halved(s)} :: Halved(s) && s <= wanted && (ok ==> s > segSize) ==>
      !grants(Min(requested, s))
  {
    segSize := SEG_ALLOC_SIZE_MAX;
    while requested * 2 <= segSize && segSize > SEG_ALLOC_SIZE_MIN
      invariant Halved(segSize) && (segSize == SEG_ALLOC_SIZE_MAX || requested <= segSize)
      decreases segSize
    {
      segSize := segSize / 2;
    }
    wanted := segSize;
    while segSize >= SEG_ALLOC_SIZE_MIN
      invariant segSize <= wanted && (segSize >= SEG_ALLOC_SIZE_MIN ==> Halved(segSize))
      invariant forall s: nat {:trigger Halved(s)} :: Halved(s) && segSize < s <= wanted ==> !grants(Min(requested, s))
      decreases segSize
    {
      if grants(Min(requested, segSize)) {
        return true, segSize, wanted;
      }
      segSize := segSize / 2;
    }
    ok := false;
  }

  /** As many segments of this size as are needed, but for the last one, which takes what is left. */
  predicate Divided(requested: nat, segSize: nat, sizes: seq<nat>) {
    && Sum(sizes) == requested && segSize > 0 && requested > 0 && |sizes| == (requested - 1) / segSize + 1
    && forall i {:trigger sizes[i]} :: 0 <= i < |sizes| ==>
         0 < sizes[i] <= segSize && (i < |sizes| - 1 ==> sizes[i] == segSize)
  }

  /** The rest of create_segments: sizes that add up to what was requested, the last one smaller perhaps but
      never empty. more is how many segments the system gives besides the first. */
  method DivideSegments(requested: nat, segSize: nat, more: nat) returns (ok: bool, sizes: seq<nat>)
    requires requested > 0 && segSize > 0
    ensures ok <==> (requested - 1) / segSize <= more
    ensures ok ==> Divided(requested, segSize, sizes)
  {
    var count := (requested - 1) / segSize + 1;
    var remaining, i := requested, 0;
    sizes := [];
    while i < count
      invariant 0 <= i <= count && |sizes| == i <= more + 1
      invariant remaining == if i < count then requested - i * segSize else 0
      invariant Sum(sizes) == requested - remaining
      invariant forall j {:trigger sizes[j]} :: 0 <= j < i ==>
        0 < sizes[j] <= segSize && (j < count - 1 ==> sizes[j] == segSize)
    {
      if i > more {
        return false, sizes;
      }
      var size := Min(remaining, segSize);
      LastSegment(requested, segSize, i, count);
      assert (sizes + [size])[..i] == sizes;
      sizes := sizes + [size];
      remaining := remaining - size;
      i := i + 1;
    }
    ok := true;
  }

  /** The size that is tried first: the smallest that is not less than what is requested, as far as there is one. */
  predicate Wanted(requested: nat, s: nat) {
    && Halved(s) && (s == SEG_ALLOC_SIZE_MAX || requested <= s)
    && (s == SEG_ALLOC_SIZE_MIN || requested > s / 2)
  }

  ghost predicate RefusedAbove(requested: nat, grants: nat -> bool, s: nat, w: nat) {
    forall t: nat {:trigger Halved(t)} :: Halved(t) && s < t <= w ==> !grants(Min(requested, t))
  }

  /** The largest size from there on down for which the system gives a first segment. */
  ghost predicate Chosen(requested: nat, grants: nat -> bool, s: nat) {
    && Halved(s) && grants(Min(requested, s))
    && exists w: nat {:trigger Wanted(requested, w)} :: Wanted(requested, w) && s <= w
                                                       && RefusedAbove(requested, grants, s, w)
  }

  lemma WantedOnce(requested: nat, s: nat, t: nat)
    requires Wanted(requested, s) && Wanted(requested, t)
    ensures s == t
  {
  }

  lemma ChosenOnce(requested: nat, grants: nat -> bool, s: nat, t: nat)
    requires Chosen(requested, grants, s) && Chosen(requested, grants, t)
    ensures s == t
  {
    var v: nat :| Wanted(requested, v) && s <= v && forall x: nat {:trigger Halved(x)} :: Halved(x) && s < x <= v ==>
      !grants(Min(requested, x));
    var w: nat :| Wanted(requested, w) && t <= w && forall x: nat {:trigger Halved(x)} :: Halved(x) && t < x <= w ==>
      !grants(Min(requested, x));
    WantedOnce(requested, v, w);
  }

  /** create_segments, the system's answers left open: it fails exactly if the system gives no first segment of any of
      the sizes, or not as many more as the largest one that it gives makes necessary. */
  method CreateSegments(requested: nat, grants: nat -> bool, more: nat) returns (ok: bool, sizes: seq<nat>)
    requires requested > 0
    ensures ok <==> exists s: nat {:trigger Chosen(requested, grants, s)} ::
      Chosen(requested, grants, s) && s > 0 && (requested - 1) / s <= more
    ensures ok ==> |sizes| > 0 && grants(sizes[0]) && exists s: nat {:trigger Chosen(requested, grants, s)} ::
      Chosen(requested, grants, s) && Divided(requested, s, sizes)
  {
    var segSize;
    ghost var wanted;
    ok, segSize, wanted := ChooseSize(requested, grants);
    assert Wanted(requested, wanted);
    sizes := [];
    if !ok {
      forall s: nat ensures !Chosen(requested, grants, s) {
        NoneChosen(requested, grants, s, wanted);
      }
    } else {
      assert Chosen(requested, grants, segSize);
      forall s: nat | Chosen(requested, grants, s) ensures s == segSize {
        ChosenOnce(requested, grants, s, segSize);
      }
      ok, sizes := DivideSegments(requested, segSize, more);
      if ok {
        FirstSegment(requested, segSize, sizes);
      }
    }
  }

  lemma NoneChosen(requested: nat, grants: nat -> bool, s: nat, wanted: nat)
    requires Wanted(requested, wanted)
    requires forall t: nat {:trigger Halved(t)} :: Halved(t) && t <= wanted ==> !grants(Min(requested, t))
    ensures !Chosen(requested, grants, s)
  {
    if Halved(s) && s > wanted {
      forall w: nat | Wanted(requested, w) ensures w == wanted {
        WantedOnce(requested, w, wanted);
      }
    }
  }

  /** The first segment is the one that was tried. */
  lemma FirstSegment(requested: nat, s: nat, sizes: seq<nat>)
    requires Divided(requested, s, sizes)
    ensures sizes[0] == Min(requested, s)
  {
    assert requested - 1 == (requested - 1) / s * s + (requested - 1) % s;
    if |sizes| == 1 {
      assert sizes[..0] == [] && Sum(sizes) == sizes[0];
      assert requested - 1 < s;
    } else {
      assert (requested - 1) / s >= 1;
      assert (requested - 1) / s * s >= s;
    }
  }

  lemma LastSegment(requested: nat, s: nat, i: nat, count: nat)
    requires s > 0 && requested > 0 && count == (requested - 1) / s + 1 && i < count
    ensures if i < count - 1 then requested - i * s > s else 0 < requested - i * s <= s
    ensures (i + 1) * s == i * s + s
  {
    assert requested - 1 == (requested - 1) / s * s + (requested - 1) % s;
    if i < count - 1 {
      assert (i + 1) * s <= (count - 1) * s;
    }
  }
}
