/** m_alloc, m_free and m_realloc on the bytes of the user's memory. */
module UserHeaps {
  import opened Blocks
  import opened ByteStrings
  import opened Heap
  import opened Malloc

  /** Crash: the deliberate faults for sizes that make no sense.  OutOfMemory: the heap would grow
      beyond the memory there is, where the source would write all the same. */
  datatype AllocResult = Crash | OutOfMemory | Block(p: nat)

  /** The address from which the heap runs: aligned to 16 bytes. */
  function Aligned(start: nat): (base: nat)
    ensures base % 16 == 0 && start <= base < start + 16
  {
    (start + 15) / 16 * 16
  }

  /** What m_alloc does before the heap is first used. */
  ghost function Begun(initialized: bool, start: nat, hs: seq<Hdr>): seq<Hdr> {
    if initialized then hs else Fresh(Aligned(start), PAGESIZE - HDR)
  }

  ghost function HeapEnd(hs: seq<Hdr>): nat
    requires |hs| >= 1
  {
    hs[|hs| - 1].End()
  }

  /** The heap has to grow beyond the memory there is. */
  ghost predicate TooSmall(hs: seq<Hdr>, initialized: bool, memory: nat, r: nat)
    requires |hs| >= 1
  {
    (!initialized && HeapEnd(hs) > memory) || HeapEnd(Roomy(hs, r)) > memory
  }

  class UserHeap {
    const mem: array<Byte>
    const start: nat          // end_get() + 1
    var base: nat
    var initialized: bool
    ghost var hs: seq<Hdr>

    constructor (mem: array<Byte>, start: nat)
      requires mem.Length <= WORD_LIMIT
      ensures Valid() && !initialized && this.mem == mem && this.start == start
    {
      this.mem, this.start, base, initialized, hs := mem, start, 0, false, [];
    }

    ghost predicate Valid()
      reads this, mem
    {
      && mem.Length <= WORD_LIMIT
      && (if initialized then base == Aligned(start) && HeapOk(mem[..], base, hs) else hs == [])
    }

    /** The headers that the next m_alloc starts from. */
    ghost function Headers(): seq<Hdr>
      reads this
    {
      Begun(initialized, start, hs)
    }

    // ----- Fields of headers -----

    method SetField(a: nat, field: nat, w: Word)
      requires a + HDR <= mem.Length && field in {0, 4, 8}
      modifies mem
      ensures HdrSet(old(mem[..]), mem[..], a,
                     match field
                     case 0 => old(RecAt(mem[..], a)).(size := w)
                     case 4 => old(RecAt(mem[..], a)).(prev := w)
                     case _ => old(RecAt(mem[..], a)).(status := w))
    {
      ghost var m := mem[..];
      var b := WordBytes(w);
      mem[a + field], mem[a + field + 1], mem[a + field + 2], mem[a + field + 3] := b[0], b[1], b[2], b[3];
      assert mem[..] == PutWord(m, a + field, w);
      FieldSet(m, a, field, w);
    }

    /** All three fields of the header at a. */
    method SetHeader(a: nat, size: Word, prev: Word, status: Status)
      requires a + HDR <= mem.Length
      modifies mem
      ensures HdrSet(old(mem[..]), mem[..], a, Rec(size, prev, Code(status)))
    {
      hide RecAt;
      ghost var m := mem[..];
      SetField(a, 0, size);
      SetField(a, 4, prev);
      SetField(a, 8, Code(status));
    }

    method GetSize(a: nat) returns (w: Word)
      requires a + HDR <= mem.Length
      ensures w == RecAt(mem[..], a).size
    {
      w := WordAt(mem[..], a);
    }

    method GetPrev(a: nat) returns (w: Word)
      requires a + HDR <= mem.Length
      ensures w == RecAt(mem[..], a).prev
    {
      w := WordAt(mem[..], a + 4);
    }

    method GetStatus(a: nat) returns (w: Word)
      requires a + HDR <= mem.Length
      ensures w == RecAt(mem[..], a).status
    {
      w := WordAt(mem[..], a + 8);
    }

    // ----- m_alloc -----

    /** The start of m_alloc, when there is no heap yet: one free block, and the last header. */
    method Initialize() returns (ok: bool)
      requires Valid() && !initialized
      modifies this, mem
      ensures Valid() && ok == initialized
      ensures ok <==> HeapEnd(old(Headers())) <= mem.Length
      ensures ok ==> hs == old(Headers())
    {
      base := Aligned(start);
      if base + PAGESIZE + HDR > mem.Length {
        return false;
      }
      ghost var m := mem[..];
      SetHeader(base, PAGESIZE - HDR, 0, FREE);
      ghost var m1 := mem[..];
      SetHeader(base + PAGESIZE, 0, PAGESIZE - HDR, LAST);
      StartOk(m, m1, mem[..], base);
      hs := Fresh(base, PAGESIZE - HDR);
      initialized := true;
      ok := true;
    }

    /** The case M_LAST of m_alloc: extend the heap by enough and a bit more. */
    method Extend(last: nat, size: Word) returns (ok: bool, mh: nat)
      requires Valid() && initialized && last == hs[|hs| - 1].addr && size % 16 == 0 && size <= 10000016
      modifies mem, this`hs
      ensures Valid()
      ensures ok <==> HeapEnd(Grown(old(hs), size)) <= mem.Length
      ensures if ok then hs == Grown(old(hs), size) && mh == hs[Tail(old(hs))].addr
              else hs == old(hs) && mem[..] == old(mem[..])
      ensures SamePayloads(old(mem[..]), mem[..], old(hs))
    {
      hide RecAt, Tiles, IsRec;
      ghost var m := mem[..];
      mh := last;
      var prev: Word;
      mh, prev := FindTail(last);
      GrownEnd(hs, size);
      if mh + size + PAGESIZE + HDR > mem.Length {
        return false, mh;
      }
      SetHeader(mh, size + PAGESIZE - HDR, prev, FREE);
      ghost var m1 := mem[..];
      SetHeader(mh + size + PAGESIZE, 0, size + PAGESIZE - HDR, LAST);
      GrowOk(m, m1, mem[..], base, hs, size);
      hs := Grown(hs, size);
      ok := true;
    }

    /** The header at which the heap is to grow, and the size of the block before it, or 0. */
    method FindTail(last: nat) returns (mh: nat, prev: Word)
      requires Valid() && initialized && last == hs[|hs| - 1].addr
      ensures mh == hs[Tail(hs)].addr && prev == PrevSize(hs, Tail(hs))
    {
      assert |hs| >= 1;
      hide Tiles, InMemory, RecAt, IsRec;
      mh, prev := last, 0;
      ghost var j: nat := |hs| - 1;
      LastBase(base, hs, j);
      if mh != base {
        var other, size, status := Prior(mh, j);
        if status == Code(FREE) {
          mh, j := other, j - 1;
        }
      }
      LastBase(base, hs, j);
      if mh != base {
        var other, size, status := Prior(mh, j);
        prev := size;
      }
    }

    /** The header before the one at mh. */
    method Prior(mh: nat, ghost j: nat) returns (other: nat, size: Word, status: Word)
      requires Valid() && initialized && 0 < j < |hs| && mh == hs[j].addr
      ensures other == hs[j - 1].addr && size == hs[j - 1].size && status == Code(hs[j - 1].status)
    {
      hide Tiles, InMemory, RecAt;
      Before(mem[..], base, hs, j);
      var p := GetPrev(mh);
      other := mh - p - HDR;
      size := GetSize(other);
      status := GetStatus(other);
    }

    /** The case M_FREE of m_alloc, for block i: take it whole, or split it. */
    method Take(mh: nat, size: Word, ghost i: nat)
      requires Valid() && initialized && i < |hs| - 1 && mh == hs[i].addr && hs[i].status == FREE
      requires size % 16 == 0 && (hs[i].size == size || hs[i].size >= size + HDR)
      modifies mem, this`hs
      ensures Valid() && hs == Place(old(hs), i, size) && SamePayloads(old(mem[..]), mem[..], old(hs))
    {
      hide Tiles, InMemory, RecAt, SamePayloads;
      ghost var m := mem[..];
      At2(m, base, hs, i);
      var blockSize := GetSize(mh);
      if blockSize == size {
        SetField(mh, 8, Code(INUSE));
        TakeWhole(m, mem[..], base, hs, i);
      } else {
        var next := mh + HDR + blockSize;
        var other := mh + HDR + size;
        var rest: Word := blockSize - size - HDR;
        SetHeader(other, rest, size, FREE);
        ghost var m1 := mem[..];
        SetField(next, 4, rest);
        ghost var m2 := mem[..];
        assert RecAt(m2, mh) == RecAt(m, mh) by { assert Apart(other, mh) && Apart(next, mh); }
        SetField(mh, 0, size);
        ghost var m3 := mem[..];
        SetField(mh, 8, Code(INUSE));
        SetTwice(m2, m3, mem[..], mh, RecAt(m3, mh), RecAt(mem[..], mh));
        TakePart(m, m1, m2, mem[..], base, hs, i, size);
      }
      hs := Place(hs, i, size);
    }

    /** m_alloc */
    method Alloc(size: int) returns (r: AllocResult)
      requires Valid()
      modifies this, mem
      ensures Valid()
      ensures r == Crash <==> size <= 0 || size > 10000000
      ensures r == Crash ==> mem[..] == old(mem[..]) && hs == old(hs)
      ensures r == OutOfMemory <==> r != Crash && TooSmall(old(Headers()), old(initialized), mem.Length, RoundUp(size))
      ensures r == OutOfMemory ==> (hs == old(hs) || hs == old(Headers())) && SamePayloads(old(mem[..]), mem[..], old(hs))
      ensures r.Block? ==>
        && initialized && SamePayloads(old(mem[..]), mem[..], old(hs))
        && Tiles(base, old(Headers())) && hs == AllocHs(base, old(Headers()), RoundUp(size))
        && r.p == Roomy(old(Headers()), RoundUp(size))[Chosen(old(Headers()), RoundUp(size))].Payload()
      ensures r.Block? ==> r.p % 16 == 0
      ensures r.Block? ==> !exists n :: Live(old(hs), r.p, n)
      ensures r.Block? ==> forall p, n :: Live(hs, p, n) <==> Live(old(hs), p, n) || (p == r.p && n == RoundUp(size))
    {
      hide Tiles, InMemory, RecAt, SamePayloads, FirstFit;
      if size <= 0 || size > 10000000 {
        return Crash;
      }
      ghost var m0 := mem[..];
      SameSelf(m0, hs);
      if !initialized {
        var ok := Initialize();
        NoPayloads(m0, mem[..]);
        if !ok {
          return OutOfMemory;
        }
      }
      r := FindRoom(RoundUp(size));
      if !old(initialized) { NoPayloads(m0, mem[..]); }
      if r.Block? { NewBlock(base, old(Headers()), old(hs), old(initialized), start, RoundUp(size)); }
    }

    /** The loop of m_alloc. */
    method FindRoom(size: Word) returns (r: AllocResult)
      requires Valid() && initialized && size % 16 == 0 && size <= 10000016
      modifies this`hs, mem
      ensures Valid() && r != Crash
      ensures r == OutOfMemory <==> HeapEnd(Roomy(old(hs), size)) > mem.Length
      ensures r == OutOfMemory ==> hs == old(hs) && mem[..] == old(mem[..])
      ensures r.Block? ==>
        && Tiles(base, old(hs)) && hs == AllocHs(base, old(hs), size)
        && r.p == Roomy(old(hs), size)[Chosen(old(hs), size)].Payload()
      ensures SamePayloads(old(mem[..]), mem[..], old(hs))
    {
      hide Tiles, InMemory, RecAt, SamePayloads;
      ghost var m0, hs0 := mem[..], hs;
      SameSelf(m0, hs0);
      ChosenFits(base, hs0, size);
      var mh := base;
      ghost var i := 0;
      LastBase(base, hs, 0);
      while true
        invariant Valid() && hs == hs0 && mem[..] == m0 && i < |hs| && mh == hs[i].addr
        invariant FirstFit(hs0, size, i) == FirstFit(hs0, size, 0)
        decreases |hs| - i
      {
        At1(m0, base, hs, i);
        var status := GetStatus(mh);
        if status == Code(LAST) {
          var ok;
          ok, mh := Extend(mh, size);
          if !ok {
            return OutOfMemory;
          }
          ghost var m1 := mem[..];
          Take(mh, size, Tail(hs0));
          GrownKeeps(m0, m1, mem[..], base, hs0, size);
          return Block(mh + HDR);
        }
        var blockSize := GetSize(mh);
        if status == Code(FREE) && (blockSize == size || blockSize >= size + HDR) {
          Take(mh, size, i);
          EndInMemory(m0, base, hs0);
          return Block(mh + HDR);
        }
        At2(m0, base, hs, i);
        if hs[i].size >= size { FitsOrSplits(base, hs, i, size); }
        mh, i := mh + HDR + blockSize, i + 1;
      }
    }

    // ----- m_free -----

    /** m_free.  Block i is the one that was handed out at ptr. */
    method Free(ptr: nat)
      requires Valid() && (ptr == 0 || exists n :: Live(hs, ptr, n))
      modifies this`hs, mem
      ensures Valid()
      ensures ptr == 0 ==> mem[..] == old(mem[..]) && hs == old(hs)
      ensures ptr != 0 ==> exists i: nat :: IsBlock(old(hs), i, ptr) && CanJoin(old(hs), i) && hs == FreeHs(old(hs), i)
      ensures SamePayloads(old(mem[..]), mem[..], old(hs))
      ensures forall p, n :: Live(hs, p, n) <==> Live(old(hs), p, n) && (ptr == 0 || p != ptr)
    {
      hide Tiles, InMemory, RecAt, SamePayloads, FreeHs;
      ghost var m, hs0 := mem[..], hs;
      SameSelf(m, hs0);
      if ptr == 0 {
        return;
      }
      ghost var i := BlockAt(hs, ptr);
      assert initialized;
      assert IsBlock(hs0, i, ptr);
      JoinBounds(base, hs, i);
      var next := MergeNext(ptr, i);
      MergePrev(ptr - HDR, next, i, m);
      FreeOk(m, mem[..], base, hs0, i);
      hs := FreeHs(hs, i);
      forall p, n ensures Live(hs, p, n) <==> Live(hs0, p, n) && p != ptr { FreeLive(base, hs0, i, p, n); }
    }

    /** The first half of m_free: a free block that follows becomes part of the one to be freed. */
    method MergeNext(ptr: nat, ghost i: nat) returns (next: nat)
      requires Valid() && initialized && IsBlock(hs, i, ptr) && CanJoin(hs, i)
      modifies mem
      ensures next == hs[JoinHigh(hs, i)].addr && CanMerge(hs, i, JoinHigh(hs, i))
      ensures Joined(old(mem[..]), mem[..], hs, i, JoinHigh(hs, i), INUSE)
    {
      hide Tiles, InMemory, RecAt, SamePayloads, IsRec;
      ghost var m, hi := mem[..], JoinHigh(hs, i);
      var mh := ptr - HDR;
      JoinedSizeOf(base, hs, i, hi);
      NotMerged(m, base, hs, i);
      var size := GetSize(mh);
      next := ptr + size;
      var status := GetStatus(next);
      if status == Code(FREE) {
        NextMerges(m, base, hs, i);
        var nextSize := GetSize(next);
        var other := next + HDR + nextSize;
        SetField(mh, 0, size + (HDR + nextSize));
        ghost var m1 := mem[..];
        SetField(other, 4, size + (HDR + nextSize));
        MergedNext(m, m1, mem[..], base, hs, i);
        next := other;
      }
    }

    /** The second half of m_free: the block becomes part of a free one before it, or is marked free. */
    method MergePrev(mh: nat, next: nat, ghost i: nat, ghost m: seq<Byte>)
      requires mem.Length <= WORD_LIMIT && HeapOk(m, base, hs) && IsBlock(hs, i, mh + HDR) && CanJoin(hs, i)
      requires next == hs[JoinHigh(hs, i)].addr && CanMerge(hs, i, JoinHigh(hs, i))
      requires Joined(m, mem[..], hs, i, JoinHigh(hs, i), INUSE)
      modifies mem
      ensures Joined(m, mem[..], hs, JoinLow(hs, i), JoinHigh(hs, i), FREE)
    {
      hide Tiles, InMemory, RecAt, SamePayloads, IsRec;
      ghost var m1, lo, hi := mem[..], JoinLow(hs, i), JoinHigh(hs, i);
      LastBase(base, hs, i);
      JoinedFields(m, m1, base, hs, i);
      if mh != base {
        PriorKept(m, m1, base, hs, i);
        var p := GetPrev(mh);
        var other := mh - p - HDR;
        var status := GetStatus(other);
        if status == Code(FREE) {
          var otherSize := GetSize(other);
          var size := GetSize(mh);
          PriorMerges(m, m1, base, hs, i);
          SetField(other, 0, otherSize + (size + HDR));
          ghost var m2 := mem[..];
          SetField(next, 4, otherSize + (size + HDR));
          MergedPrior(m, m1, m2, mem[..], base, hs, i);
          return;
        }
      }
      SetField(mh, 8, Code(FREE));
      NoPrior(m, m1, mem[..], base, hs, i);
    }

    // ----- m_realloc -----

    /** m_realloc */
    method Realloc(ptr: nat, size: int) returns (r: AllocResult)
      requires Valid() && (ptr == 0 || exists n :: Live(hs, ptr, n))
      modifies this, mem
      ensures Valid()
      ensures r == Crash <==> size <= 0 || size > 10000000
      ensures r == OutOfMemory <==> r != Crash && TooSmall(old(Headers()), old(initialized), mem.Length, RoundUp(size))
      ensures !r.Block? ==> forall p, n :: Live(old(hs), p, n) ==> Live(hs, p, n) && BytesMoved(old(mem[..]), mem[..], p, p, n)
      ensures r.Block? && ptr != 0 ==> forall n :: Live(old(hs), ptr, n) ==>
        BytesMoved(old(mem[..]), mem[..], ptr, r.p, if size < n then size else n)
      ensures r.Block? ==> forall p, n :: Live(hs, p, n) <==>
        (Live(old(hs), p, n) && (ptr == 0 || p != ptr)) || (p == r.p && n == RoundUp(size))
      ensures r.Block? ==> forall p, n :: Live(old(hs), p, n) && p != ptr ==> BytesMoved(old(mem[..]), mem[..], p, p, n)
    {
      hide Tiles, InMemory, RecAt, SamePayloads, Live, AllocHs, FreeHs, FirstFit, Roomy, Chosen, TooSmall;
      ghost var m0, hs0 := mem[..], hs;
      r := Alloc(size);
      SameLive(m0, mem[..], hs0);
      if !old(initialized) {
        forall p: nat, n: nat ensures !Live(hs0, p, n) { NoneLive(hs0, p, n); }
      }
      if r.Block? && ptr != 0 {
        ghost var m1, hs1 := mem[..], hs;
        var k := Copy(ptr, r.p, size);
        ghost var m2 := mem[..];
        Free(ptr);
        SameLive(m2, mem[..], hs1);
        Moved(m0, m1, m2, mem[..], base, hs0, hs1, ptr, r.p, RoundUp(size), size, k);
      }
    }

    /** The loop of m_realloc: as many bytes as were asked for, but no more than the old block has. */
    method Copy(ptr: nat, p: nat, size: nat) returns (k: nat)
      requires Valid() && (exists n :: Live(hs, ptr, n)) && Live(hs, p, RoundUp(size)) && p != ptr
      modifies mem
      ensures Valid()
      ensures forall n :: Live(hs, ptr, n) ==> k == if size < n then size else n
      ensures Copied(old(mem[..]), mem[..], ptr, p, k)
    {
      hide Tiles, InMemory, RecAt, Live;
      ghost var m, i, j := mem[..], BlockAt(hs, ptr), BlockAt(hs, p);
      BlockFacts(m, base, hs, i, j, ptr, p, size);
      k := size;
      var old_size := GetSize(ptr - HDR);
      if size > old_size {
        k := old_size;
      }
      var c := 0;
      while c < k
        invariant 0 <= c <= k <= hs[i].size && k <= hs[j].size
        invariant Copied(m, mem[..], ptr, p, c)
      {
        ghost var was := mem[..];
        assert was[ptr + c] == m[ptr + c];
        mem[p + c] := mem[ptr + c];
        assert mem[..] == was[p + c := m[ptr + c]];
        CopyOne(m, was, mem[..], ptr, p, c);
        c := c + 1;
      }
      ghost var m' := mem[..];
      assert forall x: nat :: x < |m| && !(hs[j].Payload() <= x < hs[j].End()) ==> m'[x] == m[x];
      WritesKeepHeap(m, m', base, hs, j);
    }
  }

  /** The n bytes at p in m are at q in m'. */
  ghost predicate BytesMoved(m: seq<Byte>, m': seq<Byte>, p: nat, q: nat, n: nat) {
    forall x: nat :: q <= x < q + n && x < |m'| && x - q + p < |m| ==> m'[x] == m[x - q + p]
  }

  ghost predicate Copied(m: seq<Byte>, m': seq<Byte>, ptr: nat, p: nat, c: nat) {
    && |m'| == |m| && ptr + c <= |m| && p + c <= |m|
    && forall x: nat {:trigger m'[x]} :: x < |m| ==> m'[x] == if p <= x < p + c then m[ptr + x - p] else m[x]
  }

  lemma CopyOne(m: seq<Byte>, was: seq<Byte>, now: seq<Byte>, ptr: nat, p: nat, c: nat)
    requires Copied(m, was, ptr, p, c) && ptr + c < |m| && p + c < |m|
    requires now == was[p + c := m[ptr + c]]
    ensures Copied(m, now, ptr, p, c + 1)
  {}

  lemma {:induction false} RecFrame(m: seq<Byte>, m': seq<Byte>, b: nat)
    requires b + HDR <= |m| == |m'| && forall x :: b <= x < b + HDR ==> m'[x] == m[x]
    ensures RecAt(m', b) == RecAt(m, b)
  {
    assert m'[b..b + 4] == m[b..b + 4] && m'[b + 4..b + 8] == m[b + 4..b + 8] && m'[b + 8..b + 12] == m[b + 8..b + 12];
  }

  /** Whatever a program writes to a block that it was given, the heap stays well formed. */
  lemma {:induction false} WritesKeepHeap(m: seq<Byte>, m': seq<Byte>, base: nat, hs: seq<Hdr>, j: nat)
    requires HeapOk(m, base, hs) && j < |hs| && |m'| == |m|
    requires forall x: nat :: x < |m| && !(hs[j].Payload() <= x < hs[j].End()) ==> m'[x] == m[x]
    ensures HeapOk(m', base, hs)
  {
    hide RecAt;
    forall k | 0 <= k < |hs| ensures Stored(m', hs, k) {
      assert Stored(m, hs, k);
      if k < j { Ordered(base, hs, k, j); } else if j < k { Ordered(base, hs, j, k); }
      RecFrame(m, m', hs[k].addr);
    }
  }

  lemma {:induction false} BlockFacts(m: seq<Byte>, base: nat, hs: seq<Hdr>, i: nat, j: nat, ptr: nat, p: nat, size: nat)
    requires HeapOk(m, base, hs) && IsBlock(hs, i, ptr) && IsBlock(hs, j, p) && Live(hs, p, RoundUp(size)) && p != ptr
    ensures RecsAt(m, hs, i) && hs[i].End() <= |m| && hs[j].End() <= |m| && hs[j].size == RoundUp(size)
    ensures hs[i].End() <= hs[j].addr || hs[j].End() <= hs[i].addr
    ensures forall n :: Live(hs, ptr, n) <==> n == hs[i].size
  {
    hide RecAt;
    At1(m, base, hs, i);
    EndInMemory(m, base, hs);
    if i < j { Ordered(base, hs, i, j); } else if j < i { Ordered(base, hs, j, i); }
    if i < |hs| - 1 { Ordered(base, hs, i, |hs| - 1); }
    if j < |hs| - 1 { Ordered(base, hs, j, |hs| - 1); }
    OneSize(base, hs, i);
    OneSize(base, hs, j);
  }

  lemma {:induction false} OneSize(base: nat, hs: seq<Hdr>, i: nat)
    requires Tiles(base, hs) && i < |hs| && hs[i].status == INUSE
    ensures forall n: nat :: Live(hs, hs[i].Payload(), n) <==> n == hs[i].size
  {
    forall n: nat ensures Live(hs, hs[i].Payload(), n) <==> n == hs[i].size {
      assert n == hs[i].size ==> IsLive(hs[i], hs[i].Payload(), n);
      forall k | 0 <= k < |hs| && k != i ensures !IsLive(hs[k], hs[i].Payload(), n) {
        if k < i { Ordered(base, hs, k, i); } else { Ordered(base, hs, i, k); }
      }
    }
  }

  lemma SameLive(m: seq<Byte>, m': seq<Byte>, hs: seq<Hdr>)
    requires SamePayloads(m, m', hs)
    ensures forall p, n :: Live(hs, p, n) ==> BytesMoved(m, m', p, p, n)
  {
    forall p: nat, n: nat | Live(hs, p, n) ensures BytesMoved(m, m', p, p, n) {
      var k :| 0 <= k < |hs| && IsLive(hs[k], p, n);
      forall x: nat | p <= x < p + n && x < |m| ensures m'[x] == m[x] {
        assert hs[k].Payload() <= x < hs[k].End();
      }
    }
  }

  /** The contents after m_realloc: from m0 to m1 a block was allocated at p, from m1 to m2 k bytes
      were copied there, and then the old block was freed. */
  lemma {:induction false} Moved(m0: seq<Byte>, m1: seq<Byte>, m2: seq<Byte>, m3: seq<Byte>, base: nat, hs0: seq<Hdr>, hs1: seq<Hdr>,
                                 ptr: nat, p: nat, n1: nat, size: nat, k: nat)
    requires |m0| == |m1| == |m2| == |m3| && Tiles(base, hs1) && Live(hs1, p, n1) && k <= n1
    requires forall q, n :: Live(hs0, q, n) ==> Live(hs1, q, n) && q != p && BytesMoved(m0, m1, q, q, n)
    requires Copied(m1, m2, ptr, p, k)
    requires forall q, n :: Live(hs1, q, n) ==> BytesMoved(m2, m3, q, q, n)
    requires forall n :: Live(hs1, ptr, n) ==> k == if size < n then size else n
    ensures forall n :: Live(hs0, ptr, n) ==> BytesMoved(m0, m3, ptr, p, if size < n then size else n)
    ensures forall q, n :: Live(hs0, q, n) ==> BytesMoved(m0, m3, q, q, n)
  {
    hide Live, Tiles;
    forall n | Live(hs0, ptr, n) ensures BytesMoved(m0, m3, ptr, p, if size < n then size else n) {
      assert BytesMoved(m0, m1, ptr, ptr, n) && BytesMoved(m2, m3, p, p, n1);
      forall x: nat | p <= x < p + k && x < |m3| && x - p + ptr < |m0| ensures m3[x] == m0[x - p + ptr] {
        assert m3[x] == m2[x - p + p] && m2[x] == m1[ptr + x - p];
        assert m1[x - p + ptr] == m0[x - p + ptr - ptr + ptr];
      }
    }
    forall q: nat, n: nat | Live(hs0, q, n) ensures BytesMoved(m0, m3, q, q, n) {
      assert BytesMoved(m0, m1, q, q, n) && BytesMoved(m2, m3, q, q, n);
      LiveDisjoint(base, hs1, p, n1, q, n);
      forall x: nat | q <= x < q + n && x < |m3| ensures m3[x] == m0[x] {
        assert m3[x] == m2[x - q + q] && m2[x] == m1[x] && m1[x] == m0[x - q + q];
      }
    }
  }

  /** Block i has been handed out at p. */
  ghost predicate IsBlock(hs: seq<Hdr>, i: nat, p: nat) {
    i < |hs| && hs[i].status == INUSE && hs[i].Payload() == p
  }

  ghost function BlockAt(hs: seq<Hdr>, p: nat): (i: nat)
    requires exists n :: Live(hs, p, n)
    ensures IsBlock(hs, i, p)
  {
    var n :| Live(hs, p, n);
    var k :| 0 <= k < |hs| && IsLive(hs[k], p, n);
    k
  }

  ghost predicate CanMerge(hs: seq<Hdr>, lo: nat, hi: nat) {
    lo < hi < |hs| && hs[lo].addr + HDR <= hs[hi].addr
  }

  ghost predicate CanJoin(hs: seq<Hdr>, i: nat) {
    i < |hs| - 1 && CanMerge(hs, JoinLow(hs, i), JoinHigh(hs, i))
  }

  /** The new block is in no other's place, and is the only new one. */
  lemma {:induction false} NewBlock(base: nat, hs: seq<Hdr>, hs0: seq<Hdr>, initialized: bool, start: nat, r: nat)
    requires Tiles(base, hs) && base % 16 == 0 && r % 16 == 0 && hs == Begun(initialized, start, hs0) && (!initialized ==> hs0 == [])
    ensures var p := Roomy(hs, r)[Chosen(hs, r)].Payload();
      && p % 16 == 0
      && (!exists n :: Live(hs0, p, n))
      && forall q, n :: Live(AllocHs(base, hs, r), q, n) <==> Live(hs0, q, n) || (q == p && n == r)
  {
    hide Live, AllocHs, Roomy, Chosen;
    var p := Roomy(hs, r)[Chosen(hs, r)].Payload();
    forall q: nat, n: nat ensures Live(hs, q, n) <==> Live(hs0, q, n) {
      if !initialized {
        NoneLive(hs, q, n);
        NoneLive(hs0, q, n);
      }
    }
    forall q: nat, n: nat ensures Live(AllocHs(base, hs, r), q, n) <==> Live(hs0, q, n) || (q == p && n == r) {
      AllocLive(base, hs, r, q, n);
    }
    ChosenIsNew(base, hs, r);
  }

  lemma {:induction false} ChosenIsNew(base: nat, hs: seq<Hdr>, r: nat)
    requires Tiles(base, hs) && base % 16 == 0 && r % 16 == 0
    ensures var p := Roomy(hs, r)[Chosen(hs, r)].Payload();
      p % 16 == 0 && !exists n :: Live(hs, p, n)
  {
    hide FirstFit;
    ChosenFits(base, hs, r);
    var i := if Found(hs, r) then FirstFit(hs, r, 0) else Tail(hs);
    var p := Roomy(hs, r)[Chosen(hs, r)].Payload();
    assert p == hs[i].Payload();
    AddressAligned(base, hs, i);
    forall n: nat ensures !Live(hs, p, n) {
      forall k | 0 <= k < |hs| ensures !IsLive(hs[k], p, n) {
        if k < i { Ordered(base, hs, k, i); } else if i < k { Ordered(base, hs, i, k); }
      }
    }
  }

  lemma {:induction false} AddressAligned(base: nat, hs: seq<Hdr>, i: nat)
    requires Tiles(base, hs) && base % 16 == 0 && i < |hs|
    ensures hs[i].addr % 16 == 0
    decreases i
  {
    if i > 0 {
      AddressAligned(base, hs, i - 1);
      assert Linked(hs, i) && HdrOk(hs[i - 1]);
    }
  }

  // ----- The steps of m_free -----

  lemma {:induction false} NotMerged(m: seq<Byte>, base: nat, hs: seq<Hdr>, i: nat)
    requires HeapOk(m, base, hs) && CanJoin(hs, i) && hs[i].status == INUSE && hs[i].addr + HDR <= hs[i + 1].addr
    ensures hs[i].addr + HDR <= |m| && hs[i + 1].addr + HDR <= |m| && hs[i + 1].addr == hs[i].Payload() + hs[i].size
    ensures RecAt(m, hs[i].addr).size == hs[i].size && RecAt(m, hs[i + 1].addr).status == Code(hs[i + 1].status)
    ensures Joined(m, m, hs, i, i + 1, INUSE)
  {
    hide RecAt;
    At2(m, base, hs, i);
    JoinedSizeOf(base, hs, i, i + 1);
    SameSelf(m, hs);
  }

  lemma {:induction false} NextMerges(m: seq<Byte>, base: nat, hs: seq<Hdr>, i: nat)
    requires HeapOk(m, base, hs) && CanJoin(hs, i) && hs[i + 1].status == FREE
    ensures RecsAt(m, hs, i + 1) && hs[i + 2].addr + HDR <= |m|
    ensures hs[i + 2].addr == hs[i + 1].Payload() + hs[i + 1].size && hs[i + 1].addr == hs[i].Payload() + hs[i].size
    ensures hs[i].size + HDR + hs[i + 1].size == JoinedSize(hs, i, i + 2) < WORD_LIMIT
  {
    hide RecAt;
    At2(m, base, hs, i);
    At2(m, base, hs, i + 1);
  }

  /** Header k is in memory. */
  ghost predicate RecsAt(m: seq<Byte>, hs: seq<Hdr>, k: nat) {
    k < |hs| && hs[k].addr + HDR <= |m| && RecAt(m, hs[k].addr).size == hs[k].size && RecAt(m, hs[k].addr).status == Code(hs[k].status)
  }

  lemma {:induction false} MergedNext(m: seq<Byte>, m1: seq<Byte>, m2: seq<Byte>, base: nat, hs: seq<Hdr>, i: nat)
    requires HeapOk(m, base, hs) && CanJoin(hs, i) && hs[i].status == INUSE && hs[i + 1].status == FREE && CanMerge(hs, i, i + 2)
    requires JoinedSize(hs, i, i + 2) < WORD_LIMIT && hs[i].addr + HDR <= |m| && hs[i + 2].addr + HDR <= |m1|
    requires HdrSet(m, m1, hs[i].addr, RecAt(m, hs[i].addr).(size := JoinedSize(hs, i, i + 2)))
    requires HdrSet(m1, m2, hs[i + 2].addr, RecAt(m1, hs[i + 2].addr).(prev := JoinedSize(hs, i, i + 2)))
    ensures Joined(m, m2, hs, i, i + 2, INUSE)
  {
    hide RecAt, SamePayloads;
    At1(m, base, hs, i);
    At1(m, base, hs, i + 2);
    SameSelf(m, hs);
    assert OthersKept(m, m, hs, i, i + 2);
    SetWithin(m, m, m1, base, hs, i, i + 2, i, RecAt(m1, hs[i].addr));
    SetWithin(m, m1, m2, base, hs, i, i + 2, i + 2, RecAt(m2, hs[i + 2].addr));
    assert Apart(hs[i].addr, hs[i + 2].addr) by { Ordered(base, hs, i, i + 2); }
  }

  lemma {:induction false} JoinedFields(m: seq<Byte>, m1: seq<Byte>, base: nat, hs: seq<Hdr>, i: nat)
    requires CanJoin(hs, i) && CanMerge(hs, i, JoinHigh(hs, i)) && Joined(m, m1, hs, i, JoinHigh(hs, i), INUSE)
    ensures var hi := JoinHigh(hs, i);
      && hs[i].addr + HDR <= |m1| && hs[hi].addr + HDR <= |m1|
      && RecAt(m1, hs[i].addr).size == JoinedSize(hs, i, hi) && RecAt(m1, hs[i].addr).prev == PrevSize(hs, i)
  {
    hide RecAt;
  }

  lemma {:induction false} PriorKept(m: seq<Byte>, m1: seq<Byte>, base: nat, hs: seq<Hdr>, i: nat)
    requires HeapOk(m, base, hs) && 0 < i && CanJoin(hs, i) && CanMerge(hs, i, JoinHigh(hs, i))
    requires OthersKept(m, m1, hs, i, JoinHigh(hs, i))
    ensures RecsAt(m1, hs, i - 1) && hs[i - 1].addr == hs[i].addr - hs[i - 1].size - HDR
  {
    hide RecAt;
    Before(m, base, hs, i);
  }

  lemma {:induction false} PriorMerges(m: seq<Byte>, m1: seq<Byte>, base: nat, hs: seq<Hdr>, i: nat)
    requires HeapOk(m, base, hs) && 0 < i && CanJoin(hs, i) && CanMerge(hs, i, JoinHigh(hs, i)) && hs[i - 1].status == FREE
    ensures var hi := JoinHigh(hs, i);
      hs[i - 1].size + JoinedSize(hs, i, hi) + HDR == JoinedSize(hs, i - 1, hi) < WORD_LIMIT
  {
    hide RecAt;
    Before(m, base, hs, i);
    At1(m, base, hs, JoinHigh(hs, i));
  }

  lemma {:induction false} MergedPrior(m: seq<Byte>, m1: seq<Byte>, m2: seq<Byte>, m3: seq<Byte>, base: nat, hs: seq<Hdr>, i: nat)
    requires HeapOk(m, base, hs) && 0 < i && CanJoin(hs, i) && CanMerge(hs, i, JoinHigh(hs, i)) && hs[i - 1].status == FREE
    requires Joined(m, m1, hs, i, JoinHigh(hs, i), INUSE) && hs[i - 1].addr + HDR <= |m1| && hs[JoinHigh(hs, i)].addr + HDR <= |m2|
    requires JoinedSize(hs, i - 1, JoinHigh(hs, i)) < WORD_LIMIT
    requires HdrSet(m1, m2, hs[i - 1].addr, RecAt(m1, hs[i - 1].addr).(size := JoinedSize(hs, i - 1, JoinHigh(hs, i))))
    requires HdrSet(m2, m3, hs[JoinHigh(hs, i)].addr, RecAt(m2, hs[JoinHigh(hs, i)].addr).(prev := JoinedSize(hs, i - 1, JoinHigh(hs, i))))
    ensures Joined(m, m3, hs, i - 1, JoinHigh(hs, i), FREE)
  {
    hide RecAt, SamePayloads;
    var lo, hi := i - 1, JoinHigh(hs, i);
    Before(m, base, hs, i);
    assert OthersKept(m, m1, hs, lo, hi);
    SetWithin(m, m1, m2, base, hs, lo, hi, lo, RecAt(m2, hs[lo].addr));
    SetWithin(m, m2, m3, base, hs, lo, hi, hi, RecAt(m3, hs[hi].addr));
    assert Apart(hs[lo].addr, hs[hi].addr) by { Ordered(base, hs, lo, hi); }
    assert RecAt(m1, hs[lo].addr) == RecAt(m, hs[lo].addr);
  }

  lemma {:induction false} NoPrior(m: seq<Byte>, m1: seq<Byte>, m2: seq<Byte>, base: nat, hs: seq<Hdr>, i: nat)
    requires HeapOk(m, base, hs) && CanJoin(hs, i) && CanMerge(hs, i, JoinHigh(hs, i)) && JoinLow(hs, i) == i
    requires Joined(m, m1, hs, i, JoinHigh(hs, i), INUSE) && hs[i].addr + HDR <= |m1|
    requires HdrSet(m1, m2, hs[i].addr, RecAt(m1, hs[i].addr).(status := Code(FREE)))
    ensures Joined(m, m2, hs, i, JoinHigh(hs, i), FREE)
  {
    hide RecAt, SamePayloads;
    var hi := JoinHigh(hs, i);
    SetWithin(m, m1, m2, base, hs, i, hi, i, RecAt(m2, hs[i].addr));
    assert Apart(hs[i].addr, hs[hi].addr) by { Ordered(base, hs, i, hi); }
  }

  lemma {:induction false} GrownEnd(hs: seq<Hdr>, size: nat)
    requires |hs| >= 1
    ensures HeapEnd(Grown(hs, size)) == hs[Tail(hs)].addr + size + PAGESIZE + HDR
  {}

  /** Only the first header is at the base. */
  lemma {:induction false} LastBase(base: nat, hs: seq<Hdr>, j: nat)
    requires Tiles(base, hs) && j < |hs|
    ensures hs[j].addr == base <==> j == 0
  {
    if j > 0 { Ordered(base, hs, 0, j); }
  }

  /** The prev field of header j leads to header j - 1. */
  lemma {:induction false} Before(m: seq<Byte>, base: nat, hs: seq<Hdr>, j: nat)
    requires HeapOk(m, base, hs) && 0 < j < |hs|
    ensures IsRec(m, hs[j], hs[j - 1].size) && IsRec(m, hs[j - 1], PrevSize(hs, j - 1))
    ensures hs[j - 1].addr == hs[j].addr - hs[j - 1].size - HDR
  {
    hide RecAt;
    assert Linked(hs, j) && Stored(m, hs, j) && Stored(m, hs, j - 1);
  }

  lemma {:induction false} At1(m: seq<Byte>, base: nat, hs: seq<Hdr>, i: nat)
    requires HeapOk(m, base, hs) && i < |hs|
    ensures IsRec(m, hs[i], PrevSize(hs, i))
    ensures hs[i].status == LAST <==> i == |hs| - 1
  {
    assert Stored(m, hs, i);
    if i < |hs| - 1 { assert Linked(hs, i + 1); }
  }

  lemma {:induction false} At2(m: seq<Byte>, base: nat, hs: seq<Hdr>, i: nat)
    requires HeapOk(m, base, hs) && i < |hs| - 1
    ensures IsRec(m, hs[i], PrevSize(hs, i)) && IsRec(m, hs[i + 1], hs[i].size)
    ensures hs[i + 1].addr == hs[i].addr + HDR + hs[i].size
  {
    assert Stored(m, hs, i) && Stored(m, hs, i + 1) && Linked(hs, i + 1);
  }

  lemma SetTwice(m: seq<Byte>, m': seq<Byte>, m'': seq<Byte>, a: nat, r: Rec, r': Rec)
    requires HdrSet(m, m', a, r) && HdrSet(m', m'', a, r')
    ensures HdrSet(m, m'', a, r')
  {}

  lemma SameSelf(m: seq<Byte>, hs: seq<Hdr>)
    ensures SamePayloads(m, m, hs)
  {}

  lemma NoPayloads(m: seq<Byte>, m': seq<Byte>)
    requires |m'| == |m|
    ensures SamePayloads(m, m', [])
  {}

  lemma {:induction false} EndInMemory(m: seq<Byte>, base: nat, hs: seq<Hdr>)
    requires HeapOk(m, base, hs)
    ensures HeapEnd(hs) <= |m|
  {
    At1(m, base, hs, |hs| - 1);
    assert HdrOk(hs[|hs| - 1]);
  }

  /** The live blocks are the same before and after the heap is extended. */
  lemma {:induction false} GrownKeeps(m: seq<Byte>, m': seq<Byte>, m'': seq<Byte>, base: nat, hs: seq<Hdr>, r: nat)
    requires Tiles(base, hs) && SamePayloads(m, m', hs) && SamePayloads(m', m'', Grown(hs, r))
    ensures SamePayloads(m, m'', hs)
  {
    var t := Grown(hs, r);
    forall k | 0 <= k < |hs| && hs[k].status == INUSE ensures k < |t| && t[k] == hs[k] {}
  }
}
