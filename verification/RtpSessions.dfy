// One RTP session: the pool, the playout buffers of its sources, and the operations that
// move slots between them (src/rtp/rtp_buffer.c, the slot handling of src/rtp/rtp_recv.c).
module RtpSessions {
  import opened Words
  import opened Sequences
  import opened RtpPackets
  import opened Chains
  import opened PlayoutOrder
  import opened PlayoutRuns
  import opened Bufferpool
  import L = Ledger

  datatype Option<T> = None | Some(value: T)

  // ---- what the consumer gets of a queue ----

  // The queue from the first packet with a registered payload type on.
  function SkipUnknown(q: seq<RtpPacket>, ptdefs: set<byte>): (r: seq<RtpPacket>)
    ensures |r| <= |q| && (r != [] ==> r[0].pt in ptdefs)
  {
    if q == [] || q[0].pt in ptdefs then q else SkipUnknown(q[1..], ptdefs)
  }

  // The packets with a registered payload type, in order.
  function Known(q: seq<RtpPacket>, ptdefs: set<byte>): seq<RtpPacket> {
    if q == [] then []
    else if q[0].pt in ptdefs then [q[0]] + Known(q[1..], ptdefs)
    else Known(q[1..], ptdefs)
  }

  lemma {:induction false} KnownAfterSkip(q: seq<RtpPacket>, ptdefs: set<byte>)
    ensures var r := SkipUnknown(q, ptdefs);
            Known(q, ptdefs) == if r == [] then [] else [r[0]] + Known(r[1..], ptdefs)
  {
    if q != [] && q[0].pt !in ptdefs { KnownAfterSkip(q[1..], ptdefs); }
  }

  lemma SamePackets(a: seq<RtpPacket>, b: seq<RtpPacket>, l: seq<nat>)
    requires |a| <= |b| && forall k :: 0 <= k < |l| ==> l[k] < |a|
    requires forall k :: 0 <= k < |l| ==> b[l[k]] == a[l[k]]
    ensures QueueOf(a, l) == QueueOf(b, l) && SeqsOf(a, l) == SeqsOf(b, l)
  {
  }

  lemma QueueTail(slots: seq<RtpPacket>, l: seq<nat>)
    requires l != [] && NoDup(l) && forall k :: 0 <= k < |l| ==> l[k] < |slots|
    ensures var last := |l| - 1;
            && RemoveAt(l, last) == l[..last]
            && QueueOf(slots, l)[0] == slots[l[last]]
            && QueueOf(slots[l[last] := BLANK], l[..last]) == QueueOf(slots, l)[1..]
            && SeqsOf(slots[l[last] := BLANK], l[..last]) == SeqsOf(slots, l)[..last]
  {
  }

  lemma TailSizes(a: seq<PoItem>, b: seq<PoItem>, l: seq<nat>)
    requires SameLengths(a, b) && l != [] && forall k :: 0 <= k < |l| ==> l[k] < |a|
    ensures SizesOf(b, l[..|l| - 1]) == SizesOf(a, l)[1..]
  {
  }

  // q is what is left of `all` after some of its first.
  predicate Dropped(q: seq<int>, all: seq<int>) { |q| <= |all| && q == all[|all| - |q|..] }

  lemma DroppedMore(q: seq<int>, all: seq<int>)
    requires Dropped(q, all) && q != []
    ensures Dropped(q[1..], all)
  {
  }

  // ---- order of delivery ----

  function Reversed(es: seq<nat>): (r: seq<nat>)
    ensures |r| == |es|
  {
    seq(|es|, i requires 0 <= i < |es| => es[|es| - 1 - i])
  }

  // The extended numbers of the packets Known keeps.
  function KnownNumbers(q: seq<RtpPacket>, es: seq<nat>, ptdefs: set<byte>): (r: seq<nat>)
    requires |q| == |es|
  {
    if q == [] then []
    else if q[0].pt in ptdefs then [es[0]] + KnownNumbers(q[1..], es[1..], ptdefs)
    else KnownNumbers(q[1..], es[1..], ptdefs)
  }

  lemma {:induction false} KnownNumbersMatch(q: seq<RtpPacket>, es: seq<nat>, ptdefs: set<byte>)
    requires |q| == |es|
    requires forall i :: 0 <= i < |q| ==> es[i] % 0x1_0000 == q[i].seqno
    ensures var r, out := KnownNumbers(q, es, ptdefs), Known(q, ptdefs);
            |r| == |out| && forall i :: 0 <= i < |r| ==> r[i] % 0x1_0000 == out[i].seqno
  {
    if q != [] { KnownNumbersMatch(q[1..], es[1..], ptdefs); }
  }

  lemma {:induction false} KnownNumbersIn(q: seq<RtpPacket>, es: seq<nat>, ptdefs: set<byte>)
    requires |q| == |es|
    ensures forall e :: e in KnownNumbers(q, es, ptdefs) ==> e in es
  {
    if q != [] { KnownNumbersIn(q[1..], es[1..], ptdefs); }
  }

  lemma {:induction false} KnownNumbersIncrease(q: seq<RtpPacket>, es: seq<nat>, ptdefs: set<byte>)
    requires |q| == |es| && Increasing(es)
    ensures Increasing(KnownNumbers(q, es, ptdefs))
  {
    if q != [] {
      KnownNumbersIncrease(q[1..], es[1..], ptdefs);
      KnownNumbersIn(q[1..], es[1..], ptdefs);
      var rest := KnownNumbers(q[1..], es[1..], ptdefs);
      forall i | 0 <= i < |rest| ensures es[0] < rest[i] {
        assert rest[i] in es[1..];
      }
    }
  }

  // Draining an ordered list yields packets of strictly increasing extended number.
  lemma DeliveredInOrder(slots: seq<RtpPacket>, l: seq<nat>, exts: seq<nat>, cycles: uint32, ptdefs: set<byte>)
    requires forall k :: 0 <= k < |l| ==> l[k] < |slots|
    requires Keyed(SeqsOf(slots, l), exts, cycles)
    ensures var out := Known(QueueOf(slots, l), ptdefs);
            exists nums: seq<nat> :: Increasing(nums) && |nums| == |out|
              && (forall i :: 0 <= i < |nums| ==> nums[i] in exts && nums[i] % 0x1_0000 == out[i].seqno)
  {
    var q, es := QueueOf(slots, l), Reversed(exts);
    var nums := KnownNumbers(q, es, ptdefs);
    ReversedIncreases(exts);
    forall i | 0 <= i < |q| ensures es[i] % 0x1_0000 == q[i].seqno {
      assert q[i].seqno == SeqsOf(slots, l)[|l| - 1 - i];
    }
    KnownNumbersMatch(q, es, ptdefs);
    KnownNumbersIncrease(q, es, ptdefs);
    KnownNumbersIn(q, es, ptdefs);
    forall i | 0 <= i < |nums| ensures nums[i] in exts { assert nums[i] in es; }
  }

  lemma ReversedIncreases(exts: seq<nat>)
    requires Decreasing(exts)
    ensures Increasing(Reversed(exts)) && forall e :: e in Reversed(exts) ==> e in exts
  {
    var es := Reversed(exts);
    assert forall i :: 0 <= i < |es| ==> es[i] == exts[|exts| - 1 - i];
  }

  // What an operation changes: one source's list (none if there is no such source) and one
  // slot of the pool (none if it lies outside).
  datatype Touched = Touched(source: nat, slot: nat)

  class RtpSession {
    const pool: BufferPool
    const ptdefs: set<byte>            // the payload types with a definition
    var sources: seq<PlayoutBuffer>
    ghost var held: set<nat>           // slots taken by bpget and not yet freed or added

    ghost predicate Separate()
      reads this
    {
      && (forall k :: 0 <= k < |sources| ==> sources[k].pool == pool)
      && (forall j, k :: 0 <= j < k < |sources| ==>
            sources[j] != sources[k] && sources[j].pobuff != sources[k].pobuff)
    }

    ghost function Lists(): (ls: seq<seq<nat>>)
      reads this, sources
      ensures |ls| == |sources|
    {
      seq(|sources|, k requires 0 <= k < |sources| reads this, sources => sources[k].list)
    }

    ghost function State(): L.Ledger
      reads this, pool, sources
    {
      L.Ledger(pool.size, pool.flcount, pool.free, Lists(), held)
    }

    ghost predicate Valid()
      reads this, pool, pool.slots, pool.freelist, sources, set k | 0 <= k < |sources| :: sources[k].pobuff
    {
      && Separate() && pool.Valid()
      && (forall k :: 0 <= k < |sources| ==> sources[k].Valid())
      && L.Conserved(State())
    }

    // The packets waiting in source k, in the order the consumer gets them.
    ghost function Queue(k: nat): seq<RtpPacket>
      requires Valid() && k < |sources|
      reads this, pool, pool.slots, pool.freelist, sources, set k | 0 <= k < |sources| :: sources[k].pobuff
    {
      SlotsInside(k);
      QueueOf(pool.slots[..], sources[k].list)
    }

    lemma SlotsInside(k: nat)
      requires Valid() && k < |sources|
      ensures sources[k].InPool()
      ensures forall i :: 0 <= i < |sources[k].list| ==>
                sources[k].list[i] < pool.size && sources[k].list[i] !in held && sources[k].list[i] !in pool.free
    {
      var list := sources[k].list;
      assert State().lists[k] == list;
      forall i | 0 <= i < |list| ensures list[i] < pool.size && list[i] !in held && list[i] !in pool.free {
        L.ExactlyOnePlace(State(), list[i]);
      }
    }

    lemma HeldOutside(s: nat)
      requires Valid() && s in held
      ensures s < pool.size && s !in pool.free
      ensures forall k :: 0 <= k < |sources| ==> s !in sources[k].list
    {
      L.ExactlyOnePlace(State(), s);
      forall k | 0 <= k < |sources| ensures s !in sources[k].list {
        assert State().lists[k] == sources[k].list;
      }
    }

    // A slot outside the pool, held, or in k's list is in no other list.
    lemma Elsewhere(k: nat, x: nat)
      requires Valid()
      requires x >= pool.size || x in held || (k < |sources| && x in sources[k].list)
      ensures forall j: nat :: j < |sources| && j != k ==> x !in sources[j].list && sources[j].InPool()
    {
      L.ExactlyOnePlace(State(), x);
      forall j: nat | j < |sources| && j != k ensures x !in sources[j].list && sources[j].InPool() {
        SlotsInside(j);
        assert State().lists[j] == sources[j].list;
        if k < |sources| { assert State().lists[k] == sources[k].list; }
      }
    }

    // Every source but k is kept; with k == |sources| every source.
    twostate predicate OthersKept(k: nat)
      reads *
    {
      sources == old(sources) && forall j: nat :: j < |sources| && j != k ==> sources[j].Kept()
    }

    // It is so if an operation changed at most source t.source's list and wrote at most slot
    // t.slot, which no other list held.
    twostate lemma KeepsOthers(t: Touched)
      requires old(Valid()) && Separate() && sources == old(sources)
      requires old(t.slot >= pool.size || t.slot in held
                   || (t.source < |sources| && t.slot in sources[t.source].list))
      requires forall j: nat :: j < |sources| && j != t.source ==>
                 && sources[j].list == old(sources[j].list) && sources[j].exts == old(sources[j].exts)
                 && sources[j].cycles == old(sources[j].cycles)
      requires old(pool.slots.Length) <= pool.slots.Length
      requires forall s: nat :: s < old(pool.slots.Length) && s != t.slot ==> pool.slots[s] == old(pool.slots[s])
      ensures OthersKept(t.source)
    {
      forall j: nat | j < |sources| && j != t.source ensures sources[j].Kept() {
        assert old((Elsewhere(t.source, t.slot); t.slot !in sources[j].list && sources[j].InPool()));
        SamePackets(old(pool.slots[..]), pool.slots[..], sources[j].list);
      }
    }

    constructor (known: set<byte>)
      ensures Valid() && State() == L.Start()
    {
      pool := new BufferPool();
      ptdefs := known;
      sources := [];
      held := {};
      new;
      L.StartConserved();
      assert State() == L.Start();
    }

    // bpget as called by rtp_recv
    method Get() returns (r: GetResult)
      requires Valid()
      modifies this`held, pool
      ensures Valid() && State() == L.Step(old(State()), L.Get)
      ensures sources == old(sources) && Lists() == old(Lists())
      ensures r == Blocked <==> old(pool.free) == [] && old(pool.size) >= BP_MAX_SIZE
      ensures r.Slot? ==> held == old(held) + {r.index} && r.index !in old(held)
      ensures pool.slots[..old(pool.size)] == old(pool.slots[..])
      ensures r.Slot? ==> r.index < BP_MAX_SIZE
      ensures pool.slots == old(pool.slots) || fresh(pool.slots)
      ensures pool.freelist == old(pool.freelist) || fresh(pool.freelist)
      ensures OthersKept(|sources|)
    {
      ghost var outside := pool.size;
      L.StepConserves(State(), L.Get);
      r := pool.Get();
      if r.Slot? {
        L.ExactlyOnePlace(old(State()), r.index);
        held := held + {r.index};
        assert r.index < pool.size <= BP_MAX_SIZE;
      }
      assert Lists() == old(Lists());
      assert State() == L.Step(old(State()), L.Get);
      assert L.Conserved(State());
      KeepsOthers(Touched(|sources|, outside));
    }

    // bpfree of a received packet that is not kept
    method Free(s: nat)
      requires Valid() && s in held
      modifies this`held, pool`flhead, pool`flcount, pool`free, pool.freelist, pool.slots
      ensures Valid() && State() == L.Step(old(State()), L.Free(s))
      ensures sources == old(sources) && Lists() == old(Lists()) && held == old(held) - {s}
      ensures pool.slots[..] == old(pool.slots[..])[s := BLANK]
      ensures OthersKept(|sources|)
    {
      HeldOutside(s);
      L.StepConserves(State(), L.Free(s));
      pool.Free(s);
      held := held - {s};
      assert Lists() == old(Lists());
      assert State() == L.Step(old(State()), L.Free(s));
      assert L.Conserved(State());
      KeepsOthers(Touched(|sources|, s));
    }

    // poinit for a source rtp_ssrc_check has just created. `step` is the wrap step of poadd.
    method NewSource(step: uint32)
      requires Valid()
      modifies this`sources
      ensures Valid() && State() == L.Step(old(State()), L.NewSource)
      ensures |sources| == |old(sources)| + 1 && sources[..|old(sources)|] == old(sources)
      ensures fresh(sources[|old(sources)|]) && sources[|old(sources)|].Ordered()
      ensures sources[|old(sources)|].wrapStep == step
    {
      L.StepConserves(State(), L.NewSource);
      var po := new PlayoutBuffer(pool, step);
      sources := sources + [po];
      assert Lists() == old(Lists()) + [[]];
      assert State() == L.Step(old(State()), L.NewSource);
      assert L.Conserved(State());
    }

    // poadd of a held slot into source k; on success the source owns it.
    method Add(k: nat, s: nat, cycleCount: uint32, outside: uint16, ghost ext: nat)
      returns (r: AddResult, ghost p: nat)
      requires Valid() && k < |sources| && s in held && s < BP_MAX_SIZE && s < pool.slots.Length
      modifies this`held, sources[k], sources[k].pobuff
      ensures Valid() && sources == old(sources)
      ensures r == Duplicated ==> State() == old(State())
      ensures r != Duplicated ==>
                p <= |old(sources[k].list)| && State() == L.Step(old(State()), L.Add(k, s, p))
      ensures SameLengths(old(sources[k].pobuff[..]), sources[k].pobuff[..])
      ensures old(sources[k].InPool()) && sources[k].KeptOrder(s, cycleCount, ext, r, p)
      ensures r == Duplicated ==> sources[k].Kept()
      ensures OthersKept(k)
    {
      r, p := Place(k, s, cycleCount, outside, ext);
      if r == Duplicated {
        assert Lists() == old(Lists());
        assert State() == old(State());
      } else {
        Own(k, s, p, old(State()), old(Lists()));
      }
    }

    // The list's side of poadd
    method Place(k: nat, s: nat, cycleCount: uint32, outside: uint16, ghost ext: nat)
      returns (r: AddResult, ghost p: nat)
      requires Valid() && k < |sources| && s in held && s < BP_MAX_SIZE && s < pool.slots.Length
      modifies sources[k], sources[k].pobuff
      ensures forall j :: 0 <= j < |sources| ==> sources[j].Valid()
      ensures SameLengths(old(sources[k].pobuff[..]), sources[k].pobuff[..])
      ensures old(sources[k].InPool()) && sources[k].KeptOrder(s, cycleCount, ext, r, p)
      ensures if r == Duplicated then sources[k].Kept() else
                p <= |old(sources[k].list)| && sources[k].list == InsertAt(old(sources[k].list), p, s)
      ensures OthersKept(k)
    {
      HeldOutside(s);
      SlotsInside(k);
      r, p := sources[k].Add(s, cycleCount, outside, ext);
      KeepsOthers(Touched(k, s));
    }

    // The slot changes hands: the ledger's side of a successful poadd.
    ghost method Own(k: nat, s: nat, p: nat, before: L.Ledger, lists: seq<seq<nat>>)
      requires Separate() && pool.Valid() && k < |sources| && s in held
      requires forall j :: 0 <= j < |sources| ==> sources[j].Valid()
      requires |lists| == |sources| && p <= |lists[k]| && Lists() == lists[k := InsertAt(lists[k], p, s)]
      requires L.Conserved(before) && before == L.Ledger(pool.size, pool.flcount, pool.free, lists, held)
      modifies this`held
      ensures Valid() && State() == L.Step(before, L.Add(k, s, p))
    {
      L.StepConserves(before, L.Add(k, s, p));
      held := held - {s};
      assert State() == L.Step(before, L.Add(k, s, p));
      assert L.Conserved(State());
    }

    // recvfrom writes the datagram into the slot bpget gave out.
    method Store(s: nat, pkt: RtpPacket)
      requires Valid() && s in held
      modifies pool.slots
      ensures Valid() && State() == old(State()) && s < pool.slots.Length
      ensures Lists() == old(Lists())
      ensures pool.slots[..] == old(pool.slots[..])[s := pkt]
      ensures OthersKept(|sources|)
    {
      HeldOutside(s);
      pool.slots[s] := pkt;
      assert Lists() == old(Lists());
      assert State() == old(State());
      assert L.Conserved(State());
      KeepsOthers(Touched(|sources|, s));
    }

    method SetLength(k: nat, s: nat, len: int)
      requires Valid() && k < |sources| && s < BP_MAX_SIZE
      modifies sources[k].pobuff
      ensures Valid() && State() == old(State()) && sources[k].exts == old(sources[k].exts)
      ensures GivenLength(old(sources[k].pobuff[..]), sources[k].pobuff[..], s, len)
      ensures OthersKept(|sources|)
    {
      ghost var outside := pool.size;
      sources[k].SetLength(s, len);
      assert State() == old(State());
      KeepsOthers(Touched(|sources|, outside));
    }

    // bprmv of the slot at position p of source k
    method Rmv(k: nat, index: nat, ghost p: nat)
      requires Valid() && k < |sources| && p < |sources[k].list| && sources[k].list[p] == index
      modifies sources[k], sources[k].pobuff, pool`flhead, pool`flcount, pool`free, pool.freelist, pool.slots
      ensures Valid() && sources == old(sources) && State() == L.Step(old(State()), L.Remove(k, p))
      ensures sources[k].list == RemoveAt(old(sources[k].list), p)
      ensures sources[k].exts == RemoveAt(old(sources[k].exts), p) && sources[k].cycles == old(sources[k].cycles)
      ensures pool.slots[..] == old(pool.slots[..])[index := BLANK]
      ensures SameLengths(old(sources[k].pobuff[..]), sources[k].pobuff[..])
      ensures OthersKept(k)
    {
      UnlinkAndFree(k, index, p);
      KeepsOthers(Touched(k, index));
    }

    method UnlinkAndFree(k: nat, index: nat, ghost p: nat)
      requires Valid() && k < |sources| && p < |sources[k].list| && sources[k].list[p] == index
      modifies sources[k], sources[k].pobuff, pool`flhead, pool`flcount, pool`free, pool.freelist, pool.slots
      ensures Valid() && sources == old(sources) && State() == L.Step(old(State()), L.Remove(k, p))
      ensures sources[k].list == RemoveAt(old(sources[k].list), p)
      ensures sources[k].exts == RemoveAt(old(sources[k].exts), p) && sources[k].cycles == old(sources[k].cycles)
      ensures pool.slots[..] == old(pool.slots[..])[index := BLANK]
      ensures SameLengths(old(sources[k].pobuff[..]), sources[k].pobuff[..])
    {
      SlotsInside(k);
      L.StepConserves(State(), L.Remove(k, p));
      UnlinkFrom(k, index, p);
      pool.Free(index);
      assert State() == L.Step(old(State()), L.Remove(k, p));
      assert L.Conserved(State());
    }

    // The list's side of bprmv
    method UnlinkFrom(k: nat, index: nat, ghost p: nat)
      requires Separate() && k < |sources| && p < |sources[k].list| && sources[k].list[p] == index
      requires forall j :: 0 <= j < |sources| ==> sources[j].Valid()
      requires sources[k].Valid()
      modifies sources[k], sources[k].pobuff
      ensures Separate() && forall j :: 0 <= j < |sources| ==> sources[j].Valid()
      ensures sources[k].list == RemoveAt(old(sources[k].list), p)
      ensures sources[k].exts == RemoveAt(old(sources[k].exts), p) && sources[k].cycles == old(sources[k].cycles)
      ensures k < |old(Lists())| && Lists() == old(Lists())[k := sources[k].list]
      ensures SameLengths(old(sources[k].pobuff[..]), sources[k].pobuff[..])
    {
      sources[k].Unlink(index, p);
    }

    // rtp_rm_pkt
    method RmPkt(k: nat)
      requires Valid() && k < |sources| && sources[k].list != []
      modifies sources[k], sources[k].pobuff, pool`flhead, pool`flcount, pool`free, pool.freelist, pool.slots
      ensures Valid() && sources == old(sources)
      ensures State() == L.Step(old(State()), L.Remove(k, |old(sources[k].list)| - 1))
      ensures Queue(k) == old(Queue(k))[1..] && sources[k].TookStep(Deliver)
      ensures sources[k].Sizes() == old(sources[k].Sizes())[1..]
      ensures old(sources[k].Ordered()) ==> sources[k].Ordered()
      ensures OthersKept(k)
    {
      SlotsInside(k);
      ghost var slots, l, exts := pool.slots[..], sources[k].list, sources[k].exts;
      QueueTail(slots, l);
      var index := sources[k].potail;
      ghost var items := sources[k].pobuff[..];
      assert LinkedAt(items, l, |l| - 1);
      Rmv(k, index, |l| - 1);
      TailSizes(items, sources[k].pobuff[..], l);
      SlotsInside(k);
      assert sources[k].list == l[..|l| - 1] && sources[k].exts == exts[..|l| - 1];
      assert pool.slots[..] == slots[index := BLANK];
      if old(sources[k].Ordered()) {
        RemoveLastKeepsKeyed(SeqsOf(slots, l), exts, sources[k].cycles);
      }
    }

    // rtp_get_pkt: drops packets of unregistered payload type from the tail and returns the
    // first other one, leaving it in place.
    method GetPkt(k: nat) returns (r: Option<RtpPacket>, len: int)
      requires Valid() && k < |sources|
      modifies sources[k], sources[k].pobuff, pool`flhead, pool`flcount, pool`free, pool.freelist, pool.slots
      ensures Valid() && sources == old(sources)
      ensures Queue(k) == SkipUnknown(old(Queue(k)), ptdefs)
      ensures r == if Queue(k) == [] then None else Some(Queue(k)[0])
      ensures sources[k].Sizes() == old(sources[k].Sizes())[|old(Queue(k))| - |Queue(k)|..]
      ensures r != None ==> len == sources[k].Sizes()[0]
      ensures held == old(held) && pool.size == old(pool.size)
      ensures OthersKept(k)
      ensures old(sources[k].Ordered()) ==> sources[k].Ordered()
    {
      Elsewhere(k, pool.size);
      while true
        invariant Valid() && sources == old(sources)
        invariant SkipUnknown(Queue(k), ptdefs) == SkipUnknown(old(Queue(k)), ptdefs)
        invariant Dropped(sources[k].Sizes(), old(sources[k].Sizes()))
        invariant held == old(held) && pool.size == old(pool.size) && pool.slots == old(pool.slots)
        invariant pool.freelist == old(pool.freelist)
        invariant OthersKept(k)
        invariant old(sources[k].Ordered()) ==> sources[k].Ordered()
        decreases |sources[k].list|
      {
        SlotsInside(k);
        var index := sources[k].potail;
        if index < 0 { return None, 0; }
        QueueTail(pool.slots[..], sources[k].list);
        if pool.slots[index].pt in ptdefs { return Some(pool.slots[index]), sources[k].pobuff[index].pktlen; }
        DroppedMore(sources[k].Sizes(), old(sources[k].Sizes()));
        RmUnknown(k);
      }
    }

    // One round of its loop
    method RmUnknown(k: nat)
      requires Valid() && k < |sources| && Queue(k) != [] && Queue(k)[0].pt !in ptdefs
      modifies sources[k], sources[k].pobuff, pool`flhead, pool`flcount, pool`free, pool.freelist, pool.slots
      ensures Valid() && sources == old(sources) && held == old(held) && pool.size == old(pool.size)
      ensures SkipUnknown(Queue(k), ptdefs) == SkipUnknown(old(Queue(k)), ptdefs)
      ensures sources[k].Sizes() == old(sources[k].Sizes())[1..] && |sources[k].list| < |old(sources[k].list)|
      ensures OthersKept(k)
      ensures old(sources[k].Ordered()) ==> sources[k].Ordered()
    {
      RmPkt(k);
    }

    // The client's loop: take the next packet, process it, remove it, until none is left.
    method Drain(k: nat) returns (out: seq<RtpPacket>)
      requires Valid() && k < |sources|
      modifies sources[k], sources[k].pobuff, pool`flhead, pool`flcount, pool`free, pool.freelist, pool.slots
      ensures Valid() && sources == old(sources) && Queue(k) == []
      ensures out == Known(old(Queue(k)), ptdefs)
      ensures held == old(held) && pool.size == old(pool.size) && OthersKept(k)
      ensures old(sources[k].Ordered()) ==> sources[k].Ordered()
    {
      out := [];
      Elsewhere(k, pool.size);
      while true
        invariant Valid() && sources == old(sources)
        invariant pool.slots == old(pool.slots) && pool.freelist == old(pool.freelist)
        invariant out + Known(Queue(k), ptdefs) == Known(old(Queue(k)), ptdefs)
        invariant held == old(held) && pool.size == old(pool.size) && OthersKept(k)
        invariant old(sources[k].Ordered()) ==> sources[k].Ordered()
        decreases |Queue(k)|
      {
        var pkt := Take(k);
        if pkt == None { return; }
        Regroup(out, [pkt.value], Known(Queue(k), ptdefs));
        out := out + [pkt.value];
      }
    }

    // One round of it: rtp_get_pkt, and rtp_rm_pkt if there was a packet.
    method Take(k: nat) returns (r: Option<RtpPacket>)
      requires Valid() && k < |sources|
      modifies sources[k], sources[k].pobuff, pool`flhead, pool`flcount, pool`free, pool.freelist, pool.slots
      ensures Valid() && sources == old(sources) && held == old(held) && pool.size == old(pool.size)
      ensures Known(old(Queue(k)), ptdefs) == if r == None then [] else [r.value] + Known(Queue(k), ptdefs)
      ensures if r == None then Queue(k) == [] else |Queue(k)| < |old(Queue(k))|
      ensures OthersKept(k)
      ensures old(sources[k].Ordered()) ==> sources[k].Ordered()
    {
      KnownAfterSkip(Queue(k), ptdefs);
      var len;
      r, len := GetPkt(k);
      if r != None { RmPkt(k); }
    }

    // One round of the loop of rtp_rm_all_pkts: unlink the tail, free its slot uncleared.
    method DropTail(k: nat)
      requires Valid() && k < |sources| && sources[k].list != []
      modifies sources[k], sources[k].pobuff, pool`flhead, pool`flcount, pool`free, pool.freelist
      ensures Valid() && sources == old(sources)
      ensures State() == L.Step(old(State()), L.Remove(k, |old(sources[k].list)| - 1))
    {
      SlotsInside(k);
      ghost var last := |sources[k].list| - 1;
      L.StepConserves(State(), L.Remove(k, last));
      var index := sources[k].potail;
      sources[k].Unlink(index, last);
      pool.Push(index);
      assert Lists() == old(Lists())[k := sources[k].list];
      assert State() == L.Step(old(State()), L.Remove(k, last));
      assert L.Conserved(State());
    }

    // rtp_rm_all_pkts. The packets' bytes stay in the freed slots.
    method RmAll(k: nat)
      requires Valid() && k < |sources|
      modifies sources[k], sources[k].pobuff, pool`flhead, pool`flcount, pool`free, pool.freelist
      ensures Valid() && sources == old(sources) && State() == L.Step(old(State()), L.Clear(k))
      ensures Queue(k) == [] && sources[k].Ordered() && OthersKept(k)
    {
      ghost var outside := pool.size;
      DropAll(k);
      Emptied(k);
      KeepsOthers(Touched(k, outside));
    }

    // Its loop
    method DropAll(k: nat)
      requires Valid() && k < |sources|
      modifies sources[k], sources[k].pobuff, pool`flhead, pool`flcount, pool`free, pool.freelist
      ensures Valid() && sources == old(sources) && State() == L.Step(old(State()), L.Clear(k))
      ensures sources[k].list == []
    {
      ghost var start := State();
      ghost var n: nat := |start.lists[k]|;
      L.ClearedEnds(start, k);
      while sources[k].potail >= 0
        invariant sources == old(sources) && pool.freelist == old(pool.freelist)
        invariant Clearing(k, start, n)
        decreases n
      {
        DropNext(k, start, n);
        n := n - 1;
      }
      assert State().lists[k] == sources[k].list;
    }

    // n slots of source k are left of those it had at the start.
    ghost predicate Clearing(k: nat, start: L.Ledger, n: nat)
      reads this, pool, pool.slots, pool.freelist, sources, set j | 0 <= j < |sources| :: sources[j].pobuff
    {
      && Valid() && k < |sources| && k < |start.lists| && n <= |start.lists[k]|
      && State() == L.Cleared(start, k, n)
    }

    method DropNext(k: nat, ghost start: L.Ledger, ghost n: nat)
      requires Clearing(k, start, n) && sources[k].potail >= 0
      modifies sources[k], sources[k].pobuff, pool`flhead, pool`flcount, pool`free, pool.freelist
      ensures sources == old(sources) && n > 0 && Clearing(k, start, n - 1)
    {
      assert State().lists[k] == sources[k].list;
      L.ClearedStep(start, k, n - 1);
      DropTail(k);
    }

    lemma Emptied(k: nat)
      requires Valid() && k < |sources| && sources[k].list == []
      ensures Queue(k) == [] && sources[k].Ordered()
    {
    }
  }
}
