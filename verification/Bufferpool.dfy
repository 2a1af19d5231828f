// src/bufferpool: a growable pool of packet slots with its free list threaded through an
// int vector, and the playout buffers whose doubly linked lists share its slots.
// A mutex-protected region of the C code is one atomic method call here.
module Bufferpool {
  import opened Words
  import opened RtpPackets
  import opened Chains
  import opened PlayoutOrder
  import opened PlayoutRuns

  const BP_SLOT_NUM: nat := 150
  const BP_MAX_SIZE: nat := 7500

  // bpget either returns a slot or sleeps on cond_full.
  datatype GetResult = Slot(index: nat) | Blocked

  datatype AddResult = Inserted | Duplicated | Misordered

  function SeqsOf(slots: seq<RtpPacket>, l: seq<nat>): (r: seq<uint16>)
    requires forall k :: 0 <= k < |l| ==> l[k] < |slots|
    ensures |r| == |l|
  {
    seq(|l|, k requires 0 <= k < |l| => slots[l[k]].seqno)
  }

  // What the consumer sees of a playout list: its packets, tail first.
  function QueueOf(slots: seq<RtpPacket>, l: seq<nat>): (q: seq<RtpPacket>)
    requires forall k :: 0 <= k < |l| ==> l[k] < |slots|
    ensures |q| == |l|
  {
    seq(|l|, i requires 0 <= i < |l| => slots[l[|l| - 1 - i]])
  }

  // The lengths recorded for them, in the same order.
  function SizesOf(items: seq<PoItem>, l: seq<nat>): (q: seq<int>)
    requires forall k :: 0 <= k < |l| ==> l[k] < |items|
    ensures |q| == |l|
  {
    seq(|l|, i requires 0 <= i < |l| => items[l[|l| - 1 - i]].pktlen)
  }

  // Slot s now has length len, the others theirs.
  ghost predicate GivenLength(a: seq<PoItem>, b: seq<PoItem>, s: nat, len: int) {
    && |a| == |b| && s < |b| && b[s].pktlen == len
    && forall t :: 0 <= t < |a| && t != s ==> b[t].pktlen == a[t].pktlen
  }

  // The slots start, start + 1, ..., end - 1: the free list over a fresh stretch of memory.
  function Range(start: nat, end: nat): (r: seq<nat>)
    requires start <= end
    ensures |r| == end - start && NoDup(r)
    ensures forall k :: 0 <= k < |r| ==> r[k] == start + k
  {
    seq(end - start, k requires 0 <= k < end - start => start + k)
  }

  // The pool grows in whole blocks, so it stops growing exactly at BP_MAX_SIZE.
  predicate WholeSize(size: nat) { exists blocks :: 0 <= blocks <= 50 && size == 150 * blocks }

  lemma WholeBlocks(size: nat)
    requires WholeSize(size) && size < BP_MAX_SIZE
    ensures WholeSize(size + BP_SLOT_NUM)
  {
    var blocks :| 0 <= blocks <= 50 && size == 150 * blocks;
    assert size + BP_SLOT_NUM == 150 * (blocks + 1);
  }

  // Relinking never touches the packet lengths.
  ghost predicate SameLengths(a: seq<PoItem>, b: seq<PoItem>) {
    |a| == |b| && forall s :: 0 <= s < |a| ==> a[s].pktlen == b[s].pktlen
  }

  class BufferPool {
    var slots: array<RtpPacket>
    var freelist: array<int>
    var flhead: int
    var flcount: int
    var size: nat
    ghost var free: seq<nat>

    ghost predicate Valid()
      reads this, freelist, slots
    {
      && slots.Length == freelist.Length == size
      && WholeSize(size)
      && FreeChain(freelist[..], flhead, free)
    }

    // bpinit
    constructor ()
      ensures Valid() && fresh(slots) && fresh(freelist)
      ensures size == BP_SLOT_NUM && flcount == 0 && free == Range(0, BP_SLOT_NUM)
      ensures forall s :: 0 <= s < size ==> slots[s] == BLANK
    {
      slots := new RtpPacket[BP_SLOT_NUM](_ => BLANK);
      freelist := new int[BP_SLOT_NUM](_ => 0);
      flhead := 0;
      flcount := 0;
      size := BP_SLOT_NUM;
      free := Range(0, BP_SLOT_NUM);
      new;
      ThreadFresh(freelist, 0);
      assert BP_SLOT_NUM == 150 * 1;
    }

    // bpenlarge; true when the pool is at its maximum size.
    method Enlarge() returns (full: bool)
      requires Valid()
      modifies this`slots, this`freelist, this`flhead, this`size, this`free
      ensures Valid() && full == (old(size) >= BP_MAX_SIZE)
      ensures full ==> unchanged(this)
      ensures !full ==> size == old(size) + BP_SLOT_NUM && fresh(slots) && fresh(freelist)
      ensures !full ==> free == Range(old(size), size)
      ensures !full ==> slots[..old(size)] == old(slots[..])
      ensures !full ==> forall s :: old(size) <= s < size ==> slots[s] == BLANK
    {
      var oldSize := size;
      if size >= BP_MAX_SIZE { return true; }
      WholeBlocks(size);
      size := size + BP_SLOT_NUM;
      slots := Realloc(slots, size, BLANK);
      freelist := Realloc(freelist, size, 0);
      ThreadFresh(freelist, oldSize);
      flhead := oldSize;
      free := Range(oldSize, size);
      full := false;
    }

    // bpget. Blocked stands for sleeping on cond_full: nothing changes until another
    // thread returns a slot.
    method Get() returns (r: GetResult)
      requires Valid()
      modifies this
      ensures Valid()
      ensures r == Blocked <==> old(free) == [] && old(size) >= BP_MAX_SIZE
      ensures r == Blocked ==> unchanged(this)
      ensures r.Slot? ==> flcount == old(flcount) + 1
      ensures r.Slot? && old(free) != [] ==>
                size == old(size) && slots == old(slots) && freelist == old(freelist)
                && r.index == old(free)[0] && free == old(free)[1..]
      ensures r.Slot? && old(free) == [] ==>
                size == old(size) + BP_SLOT_NUM && fresh(slots) && fresh(freelist)
                && slots[..old(size)] == old(slots[..])
                && r.index == old(size) && free == Range(old(size), size)[1..]
    {
      ghost var before := free;
      while flhead == -1
        invariant Valid() && flcount == old(flcount)
        invariant before != [] ==> unchanged(this)
        invariant before == [] ==>
          || unchanged(this)
          || (&& size == old(size) + BP_SLOT_NUM && fresh(slots) && fresh(freelist)
              && slots[..old(size)] == old(slots[..]) && free == Range(old(size), size))
        decreases BP_MAX_SIZE - size
      {
        var full := Enlarge();
        if full { return Blocked; }
      }
      var index := Pop();
      r := Slot(index);
    }

    // The end of bpget: take the head of the free list.
    method Pop() returns (index: nat)
      requires Valid() && flhead != -1
      modifies this`flhead, this`flcount, this`free
      ensures Valid() && old(free) != [] && index == old(free)[0] && free == old(free)[1..]
      ensures flcount == old(flcount) + 1
    {
      PopFree(freelist[..], flhead, free);
      index := flhead;
      flhead := freelist[flhead];
      free := free[1..];
      flcount := flcount + 1;
    }

    // bpfree
    method Free(index: nat)
      requires Valid() && index < size && index !in free
      modifies this`flhead, this`flcount, this`free, freelist, slots
      ensures Valid() && flcount == old(flcount) - 1 && free == [index] + old(free)
      ensures slots[..] == old(slots[..])[index := BLANK]
    {
      PushFree(freelist[..], flhead, free, index);
      freelist[index] := flhead;
      flhead := index;
      flcount := flcount - 1;
      slots[index] := BLANK;
      free := [index] + free;
    }

    // The tail of the loop body of rtp_rm_all_pkts, which returns a slot without clearing it.
    method Push(index: nat)
      requires Valid() && index < size && index !in free
      modifies this`flhead, this`flcount, this`free, freelist
      ensures Valid() && flcount == old(flcount) - 1 && free == [index] + old(free)
    {
      PushFree(freelist[..], flhead, free, index);
      freelist[index] := flhead;
      flhead := index;
      flcount := flcount - 1;
      free := [index] + free;
    }
  }

  lemma SeqsAfterInsert(slots: seq<RtpPacket>, l: seq<nat>, index: nat, p: nat)
    requires index < |slots| && p <= |l| && forall k :: 0 <= k < |l| ==> l[k] < |slots|
    ensures forall k :: 0 <= k <= |l| ==> InsertAt(l, p, index)[k] < |slots|
    ensures SeqsOf(slots, InsertAt(l, p, index)) ==
            SeqsOf(slots, l)[..p] + [slots[index].seqno] + SeqsOf(slots, l)[p..]
  {
  }

  lemma OwnNumber(cycles: uint32, seqno: uint16, ext: nat)
    requires ext < TWO_32 && ext == cycles + seqno && cycles == CycleOf(ext)
    ensures seqno == Wrap16(ext) && Wrap32(seqno + cycles) == ext
  {
  }

  // Linking a packet in where the walk says is the arrival of its number.
  lemma AddIsStep(slots: seq<RtpPacket>, l: seq<nat>, exts: seq<nat>, cycles: uint32, index: nat, x: uint32,
                  wrap: uint32, p: nat, dup: bool)
    requires forall k :: 0 <= k < |l| ==> l[k] < |slots|
    requires |l| == |exts| && index < |slots| && slots[index].seqno == Wrap16(x)
    requires (p, dup) == Verdict(SeqsOf(slots, l), cycles, x, wrap)
    ensures p <= |l| && forall k :: 0 <= k <= |l| ==> InsertAt(l, p, index)[k] < |slots|
    ensures Step(Playout(SeqsOf(slots, l), exts, cycles), Arrive(x), wrap) ==
            if dup then Playout(SeqsOf(slots, l), exts, cycles)
            else Playout(SeqsOf(slots, InsertAt(l, p, index)), InsertAt(exts, p, x),
                         if p == 0 then CycleOf(x) else cycles)
  {
    SeqsAfterInsert(slots, l, index, p);
  }

  // Under the number it is handed, a packet whose place is seen rightly gets its rank.
  lemma AddedInOrder(s: Playout, x: uint32, wrap: uint32, p: nat, dup: bool)
    requires Right(s) && WellSeen(s, Arrive(x), wrap) && (p, dup) == Verdict(s.seqs, s.cycles, x, wrap)
    ensures p == Rank(s.exts, x) && (dup <==> x in s.exts) && Right(Step(s, Arrive(x), wrap))
    ensures !dup && p == 0 ==> forall k :: 0 <= k < |s.exts| ==> s.exts[k] < x
  {
    VerdictRightIff(s.seqs, s.exts, s.cycles, x, wrap);
    StepRefines(s, Arrive(x), wrap);
    if !dup { InsertKeepsDecreasing(s.exts, x); }
  }

  // realloc to a larger size, with the new stretch filled in.
  method Realloc<T>(a: array<T>, size: nat, filler: T) returns (b: array<T>)
    requires a.Length <= size
    ensures fresh(b) && b.Length == size && b[..a.Length] == a[..]
    ensures forall s :: a.Length <= s < size ==> b[s] == filler
  {
    b := new T[size](_ => filler);
    forall s | 0 <= s < a.Length { b[s] := a[s]; }
  }

  // The loop shared by bpinit and bpenlarge: thread the cells from `start` on.
  method ThreadFresh(links: array<int>, start: nat)
    requires start < links.Length
    modifies links
    ensures forall s :: 0 <= s < start ==> links[s] == old(links[s])
    ensures FreeChain(links[..], start, Range(start, links.Length))
  {
    var i := start;
    while i < links.Length
      invariant start <= i <= links.Length
      invariant forall s :: 0 <= s < start ==> links[s] == old(links[s])
      invariant forall s :: start <= s < i ==> links[s] == s + 1
    {
      links[i] := i + 1;
      i := i + 1;
    }
    links[links.Length - 1] := -1;
  }

  class PlayoutBuffer {
    const pool: BufferPool      // shared by all sources of a session
    const pobuff: array<PoItem>
    const wrapStep: uint32      // the value of SEQ_MAX_NUMBER
    var pocount: int
    var pohead: int
    var potail: int
    var cycles: uint32
    ghost var list: seq<nat>    // slots from pohead to potail
    ghost var exts: seq<nat>    // the extended sequence numbers the packets were added with

    ghost predicate Valid()
      reads this, pobuff
    {
      && pobuff.Length == BP_MAX_SIZE
      && Linked(pobuff[..], pohead, potail, list)
      && pocount == |list| == |exts|
    }

    // The lengths of the packets listed, tail first.
    ghost function Sizes(): seq<int>
      requires Valid()
      reads this, pobuff
    {
      LinkedInside(pobuff[..], pohead, potail, list);
      SizesOf(pobuff[..], list)
    }

    // The list is strictly decreasing in the packets' extended sequence numbers.
    ghost predicate Ordered()
      reads this, pool, pool.slots
    {
      InPool() && Right(View())
    }

    // The list as poadd knows it.
    ghost function View(): Playout
      requires InPool()
      reads this, pool, pool.slots
    {
      Playout(SeqsOf(pool.slots[..], list), exts, cycles)
    }

    // Every listed slot lies inside the pool.
    ghost predicate InPool()
      reads this, pool, pool.slots
    {
      forall k :: 0 <= k < |list| ==> list[k] < pool.slots.Length
    }

    // The list, its packets and their order are as they were.
    twostate predicate Kept()
      reads this, pool, pool.slots
    {
      && old(InPool()) && InPool()
      && list == old(list) && exts == old(exts) && cycles == old(cycles)
      && QueueOf(pool.slots[..], list) == old(QueueOf(pool.slots[..], list)) && View() == old(View())
      && (old(Ordered()) ==> Ordered())
    }

    // poinit
    constructor (bp: BufferPool, step: uint32)
      ensures Valid() && fresh(pobuff) && pool == bp && wrapStep == step
      ensures list == [] == exts && cycles == 0 && Ordered()
    {
      pool := bp;
      wrapStep := step;
      pobuff := new PoItem[BP_MAX_SIZE](_ => PoItem(0, 0, 0));
      pohead, potail, cycles, pocount := -1, -1, 0, 0;
      list, exts := [], [];
    }

    // The walk of poadd. `outside` is the sequence number the C code reads from before the
    // pool when the current packet is the last one; the result does not depend on it.
    method Walk(cseq: uint32, outside: uint16) returns (i: int, ghost p: nat, dup: bool)
      requires Valid() && InPool()
      ensures p <= |list| && i == At(list, p)
      ensures (p, dup) == Verdict(SeqsOf(pool.slots[..], list), cycles, cseq, wrapStep)
      ensures var (q, found) := Verdict(SeqsOf(pool.slots[..], list), cycles, cseq, wrapStep);
              dup == found && i == At(list, q)
    {
      ghost var seqs := SeqsOf(pool.slots[..], list);
      var r: uint32 := cycles;
      i := pohead;
      p := 0;
      while i != -1 && Wrap32(pool.slots[i].seqno + r) > cseq
        invariant p <= |list| && i == At(list, p)
        invariant p < |list| ==> Landing(seqs, 0, cycles, cseq, wrapStep) == Landing(seqs, p, r, cseq, wrapStep)
        invariant p == |list| ==> Landing(seqs, 0, cycles, cseq, wrapStep).0 == p
        decreases |list| - p
      {
        assert LinkedAt(pobuff[..], list, p);
        var next := pobuff[i].next;
        var ahead := if next == -1 then outside else pool.slots[next].seqno;
        if ahead - pool.slots[i].seqno >= SEQ_MAX_JUMP {
          r := Wrap32(r - wrapStep);
        }
        i := next;
        p := p + 1;
      }
      dup := i != -1 && Wrap32(pool.slots[i].seqno + r) == cseq;
    }

    // The walk's verdict on the packet in slot `index`: its position and whether it is a duplicate.
    ghost function Arrival(index: nat, cycleCount: uint32): (v: (nat, bool))
      requires InPool() && index < pool.slots.Length
      reads this, pool, pool.slots
      ensures v.0 <= |list|
    {
      Verdict(SeqsOf(pool.slots[..], list), cycles, Wrap32(pool.slots[index].seqno + cycleCount), wrapStep)
    }

    // The three ways poadd links a slot in: before the head, after the tail, in between.
    method LinkHead(index: nat, ghost ext: nat)
      requires Valid() && index < BP_MAX_SIZE && index !in list
      modifies this`pohead, this`potail, this`pocount, this`list, this`exts, pobuff
      ensures Valid() && list == InsertAt(old(list), 0, index) && exts == InsertAt(old(exts), 0, ext)
      ensures SameLengths(old(pobuff[..]), pobuff[..])
    {
      ghost var a := pobuff[..];
      if list != [] { assert LinkedAt(a, list, 0); }
      var i := pohead;
      pobuff[index] := pobuff[index].(next := i);
      pohead := index;
      if i == -1 {
        potail := index;
      } else {
        pobuff[i] := pobuff[i].(prev := index);
      }
      pobuff[index] := pobuff[index].(prev := -1);
      pocount := pocount + 1;
      SpliceLinks(a, pobuff[..], old(pohead), old(potail), list, 0, index);
      list, exts := InsertAt(list, 0, index), InsertAt(exts, 0, ext);
    }

    method LinkTail(index: nat, ghost ext: nat)
      requires Valid() && index < BP_MAX_SIZE && index !in list && list != []
      modifies this`potail, this`pocount, this`list, this`exts, pobuff
      ensures Valid() && list == InsertAt(old(list), |old(list)|, index)
      ensures exts == InsertAt(old(exts), |old(exts)|, ext)
      ensures SameLengths(old(pobuff[..]), pobuff[..])
    {
      ghost var a := pobuff[..];
      assert LinkedAt(a, list, |list| - 1);
      var i := potail;
      potail := index;
      pobuff[index] := pobuff[index].(next := pobuff[i].next);
      pobuff[i] := pobuff[i].(next := index);
      pobuff[index] := pobuff[index].(prev := i);
      pocount := pocount + 1;
      SpliceLinks(a, pobuff[..], old(pohead), old(potail), list, |list|, index);
      list, exts := InsertAt(list, |list|, index), InsertAt(exts, |exts|, ext);
    }

    method LinkBefore(i: nat, index: nat, ghost p: nat, ghost ext: nat)
      requires Valid() && index < BP_MAX_SIZE && index !in list
      requires 0 < p < |list| && list[p] == i
      modifies this`pocount, this`list, this`exts, pobuff
      ensures Valid() && list == InsertAt(old(list), p, index) && exts == InsertAt(old(exts), p, ext)
      ensures SameLengths(old(pobuff[..]), pobuff[..])
    {
      ghost var a := pobuff[..];
      assert LinkedAt(a, list, p);
      assert LinkedAt(a, list, p - 1);
      pobuff[index] := pobuff[index].(prev := pobuff[i].prev);
      pobuff[index] := pobuff[index].(next := i);
      pobuff[pobuff[i].prev] := pobuff[pobuff[i].prev].(next := index);
      pobuff[i] := pobuff[i].(prev := index);
      pocount := pocount + 1;
      SpliceLinks(a, pobuff[..], pohead, potail, list, p, index);
      list, exts := InsertAt(list, p, index), InsertAt(exts, p, ext);
    }

    // The body of poadd.
    method Insert(index: nat, cycleCount: uint32, outside: uint16, ghost ext: nat) returns (r: AddResult)
      requires Valid() && InPool()
      requires index < pool.slots.Length && index < BP_MAX_SIZE && index !in list
      modifies this, pobuff
      ensures Valid()
      ensures SameLengths(old(pobuff[..]), pobuff[..])
      ensures r == Duplicated <==> old(Arrival(index, cycleCount)).1
      ensures r == Duplicated ==> list == old(list) && exts == old(exts) && cycles == old(cycles)
      ensures r != Duplicated ==>
                var p := old(Arrival(index, cycleCount)).0;
                && list == InsertAt(old(list), p, index) && exts == InsertAt(old(exts), p, ext)
                && r == (if p == 0 then Inserted else Misordered)
                && cycles == (if p == 0 then cycleCount else old(cycles))
    {
      var cseq := Wrap32(pool.slots[index].seqno + cycleCount);
      var i, p, dup := Walk(cseq, outside);
      if dup {
        r := Duplicated;
      } else if i == pohead {
        LinkHead(index, ext);
        cycles := cycleCount;
        r := Inserted;
      } else if i == -1 {
        LinkTail(index, ext);
        r := Misordered;
      } else {
        LinkBefore(i, index, p, ext);
        r := Misordered;
      }
    }

    // The cycle count handed to poadd makes the packet's number its true one.
    ghost predicate TrueNumber(index: nat, cycleCount: uint32, ext: nat)
      requires index < pool.slots.Length
      reads this, pool, pool.slots
    {
      ext < TWO_32 && ext == cycleCount + pool.slots[index].seqno && cycleCount == CycleOf(ext)
    }

    twostate predicate TookStep(op: Op)
      reads this, pool, pool.slots
    {
      old(InPool()) && InPool() && old(Paired(View())) && View() == Step(old(View()), op, wrapStep)
    }

    // What poadd does to a packet handed under number ext: one arrival in the list as it knows
    // it; and what it promises if the list is ordered and the packet's place is seen rightly.
    twostate predicate KeptOrder(index: nat, cycleCount: uint32, ext: nat, r: AddResult, p: nat)
      requires old(InPool()) && index < old(pool.slots.Length)
      reads this, pool, pool.slots
    {
      old(TrueNumber(index, cycleCount, ext) && Paired(View())) ==>
        && TookStep(Arrive(ext))
        && (old(Ordered() && WellSeen(View(), Arrive(ext), wrapStep)) ==>
              Ordered() && RightVerdict(old(exts), ext, r, p))
    }

    // Duplicates are found, anything else gets its rank, and the head is a new maximum.
    ghost predicate RightVerdict(before: seq<nat>, ext: nat, r: AddResult, p: nat)
      reads this
    {
      && (r == Duplicated <==> ext in before)
      && (r != Duplicated ==> p == Rank(before, ext) && exts == InsertAt(before, p, ext))
      && (r == Inserted ==> forall k :: 0 <= k < |before| ==> before[k] < ext)
    }

    // poadd. `ext` is the extended sequence number the packet is handed under.
    method Add(index: nat, cycleCount: uint32, outside: uint16, ghost ext: nat) returns (r: AddResult, ghost p: nat)
      requires Valid() && InPool()
      requires index < pool.slots.Length && index < BP_MAX_SIZE && index !in list
      modifies this, pobuff
      ensures Valid()
      ensures SameLengths(old(pobuff[..]), pobuff[..])
      ensures (p, r == Duplicated) == old(Arrival(index, cycleCount))
      ensures r == Duplicated ==> list == old(list) && exts == old(exts) && cycles == old(cycles)
      ensures r != Duplicated ==>
                && list == InsertAt(old(list), p, index) && exts == InsertAt(old(exts), p, ext)
                && r == (if p == 0 then Inserted else Misordered)
                && cycles == (if p == 0 then cycleCount else old(cycles))
      ensures r == Duplicated ==> Kept()
      ensures KeptOrder(index, cycleCount, ext, r, p)
    {
      ghost var slots, before := pool.slots[..], View();
      ghost var l := list;
      p := Arrival(index, cycleCount).0;
      ghost var own := TrueNumber(index, cycleCount, ext);
      if own {
        OwnNumber(cycleCount, slots[index].seqno, ext);
        assert Arrival(index, cycleCount) == Verdict(before.seqs, before.cycles, ext, wrapStep);
      }
      r := Insert(index, cycleCount, outside, ext);
      if own {
        AddIsStep(slots, l, before.exts, before.cycles, index, ext, wrapStep, p, r == Duplicated);
        assert pool.slots[..] == slots;
        assert View() == Step(before, Arrive(ext), wrapStep);
        if old(Ordered() && WellSeen(View(), Arrive(ext), wrapStep)) {
          AddedInOrder(before, ext, wrapStep, p, r == Duplicated);
        }
      }
    }

    // rtp_recv records the packet's length once it is linked.
    method SetLength(index: nat, len: int)
      requires Valid() && index < BP_MAX_SIZE
      modifies pobuff
      ensures Valid() && pobuff[..] == old(pobuff[..])[index := old(pobuff[index]).(pktlen := len)]
    {
      ghost var a := pobuff[..];
      pobuff[index] := pobuff[index].(pktlen := len);
      forall k: nat | k < |list| ensures LinkedAt(pobuff[..], list, k) { assert LinkedAt(a, list, k); }
    }

    // Join the neighbours of slot `index` over it.
    method Bypass(index: nat, ghost p: nat)
      requires Valid() && p < |list| && list[p] == index
      modifies this`pohead, this`potail, pobuff
      ensures Bridged(old(pobuff[..]), pobuff[..], list, p)
      ensures SameLengths(old(pobuff[..]), pobuff[..])
      ensures pohead == if p == 0 then At(list, 1) else old(pohead)
      ensures potail == if p == |list| - 1 then At(list, p - 1) else old(potail)
    {
      assert LinkedAt(pobuff[..], list, p);
      if p > 0 { assert LinkedAt(pobuff[..], list, p - 1); }
      if p + 1 < |list| { assert LinkedAt(pobuff[..], list, p + 1); }
      if pobuff[index].next != -1 {
        pobuff[pobuff[index].next] := pobuff[pobuff[index].next].(prev := pobuff[index].prev);
      } else {
        potail := pobuff[index].prev;
      }
      if pobuff[index].prev != -1 {
        pobuff[pobuff[index].prev] := pobuff[pobuff[index].prev].(next := pobuff[index].next);
      } else {
        pohead := pobuff[index].next;
      }
    }

    // The unlinking shared by bprmv and rtp_rm_all_pkts.
    method Unlink(index: nat, ghost p: nat)
      requires Valid() && p < |list| && list[p] == index
      modifies this`pohead, this`potail, this`pocount, this`list, this`exts, pobuff
      ensures Valid() && list == RemoveAt(old(list), p) && exts == RemoveAt(old(exts), p)
      ensures SameLengths(old(pobuff[..]), pobuff[..])
    {
      ghost var a := pobuff[..];
      Bypass(index, p);
      pocount := pocount - 1;
      BridgeLinks(a, pobuff[..], old(pohead), old(potail), list, p);
      list, exts := RemoveAt(list, p), RemoveAt(exts, p);
    }
  }
}
