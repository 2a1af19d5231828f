// rtp_recv from slot to playout buffer (src/rtp/rtp_recv.c): take a slot, check the packet,
// update the source's statistics, queue the packet or give the slot back.
module RtpRecv {
  import opened Words
  import opened RtpPackets
  import opened Chains
  import opened PlayoutOrder
  import opened Bufferpool
  import opened SeqTracker
  import opened RtpSessions
  import opened PlayoutRuns
  import R = ReceiveRuns

  // How rtp_ssrc_check and the seek flag classify a packet of an accepted source.
  datatype Arrival = First | AfterSeek | Ordinary

  datatype Outcome = Sleeping | BadHeader | DuplicateDropped | Queued(slot: nat)

  function Before(st: Stats, arrival: Arrival, seqno: uint16): Stats {
    match arrival
    case First => OnProbation(st, seqno)
    case AfterSeek => SeekReset(st, seqno)
    case Ordinary => st
  }

  // The source is tracked, the packet's true number n is inside the window, and no wrap lies
  // between n and the highest number seen.
  ghost predicate Follows(st: Stats, first: nat, top: nat, count: nat, n: nat) {
    && Tracking(st, first, top, count) && InWindow(top, n)
    && top < TWO_32 && n < TWO_32 && CycleOf(n) == CycleOf(Max(top, n))
  }

  lemma FollowsTrueNumber(st: Stats, first: nat, top: nat, count: nat, n: nat)
    requires Follows(st, first, top, count, n)
    ensures Updated(st, Wrap16(n)).cycles == CycleOf(n) && n == CycleOf(n) + Wrap16(n)
  {
    TrackStep(st, first, top, count, n);
  }

  // The first packet of a source without cycles, and the first after a seek, are handed their
  // own number as well: it starts a cycle count of 0.
  lemma StartTrueNumber(st: Stats, arrival: Arrival, seqno: uint16)
    requires arrival == AfterSeek || (arrival == First && st.cycles == 0)
    ensures Updated(Before(st, arrival, seqno), seqno).cycles == CycleOf(seqno)
  {
  }

  // The statistics after packets `seqs` that rtp_ssrc_check classifies as `kinds` say.
  function AfterPackets(st: Stats, kinds: seq<Arrival>, seqs: seq<uint16>): Stats
    requires |kinds| == |seqs|
    decreases |seqs|
  {
    if seqs == [] then st
    else
      var n := |seqs| - 1;
      Updated(Before(AfterPackets(st, kinds[..n], seqs[..n]), kinds[n], seqs[n]), seqs[n])
  }

  predicate NewThenKnown(kinds: seq<Arrival>) {
    kinds != [] && kinds[0] == First && forall k :: 0 < k < |kinds| ==> kinds[k] == Ordinary
  }

  lemma {:induction false} NewSourceArrives(st: Stats, kinds: seq<Arrival>, seqs: seq<uint16>)
    requires |kinds| == |seqs| && NewThenKnown(kinds)
    ensures AfterPackets(st, kinds, seqs) == SeqTracker.Arrive(OnProbation(st, seqs[0]), seqs)
    decreases |seqs|
  {
    var n := |seqs| - 1;
    if n == 0 {
      assert seqs[..0] == [] && kinds[..0] == [];
      assert SeqTracker.Arrive(OnProbation(st, seqs[0]), seqs[..0]) == OnProbation(st, seqs[0]);
    } else {
      NewSourceArrives(st, kinds[..n], seqs[..n]);
    }
  }

  // The packets of a new source do not count until one follows its predecessor by one number,
  // and then tracking starts: a stray packet never makes a tracked source.
  lemma NewSourceOnProbation(st: Stats, kinds: seq<Arrival>, seqs: seq<uint16>)
    requires |kinds| == |seqs| && NewThenKnown(kinds)
    ensures var now, last := AfterPackets(st, kinds, seqs), seqs[|seqs| - 1];
            && (now.probation != 0 <==> !HasSequentialPair(seqs))
            && (!HasSequentialPair(seqs) ==> now.received == st.received)
            && (HasSequentialPair(seqs) && !HasSequentialPair(seqs[..|seqs| - 1]) ==> Tracking(now, last, last, 1))
  {
    NewSourceArrives(st, kinds, seqs);
    ProbationLastsIff(st, seqs);
  }

  // After a seek the first packet is tracked at once, whatever came before.
  lemma SeekTracksAtOnce(st: Stats, seqno: uint16)
    ensures var now := AfterPackets(st, [AfterSeek], [seqno]);
            Tracking(now, seqno, seqno, 1) && now.expectedPrior == 1 && now.receivedPrior == 0
  {
    assert [AfterSeek][..0] == [] && [seqno][..0] == [];
    assert AfterPackets(st, [], []) == st;
    SeekStarts(st, seqno);
  }

  // Statistics side of the switch on rtp_ssrc_check's verdict.
  method Track(stats: SsrcStats, arrival: Arrival, seqno: uint16)
    modifies stats
    ensures stats.View() == Updated(Before(old(stats.View()), arrival, seqno), seqno)
  {
    match arrival {
      case First => stats.StartProbation(seqno);
      case AfterSeek => stats.ResetForSeek(seqno);
      case Ordinary =>
    }
    stats.UpdateSeq(seqno);
  }

  // What rtp_recv does to the list of a packet it queues or drops as a duplicate, when the cycle
  // count it hands to poadd makes n the packet's number: one arrival of n; and, if the list is
  // ordered and the packet's place is seen rightly, order is kept and exactly duplicates dropped.
  twostate predicate InOrder(po: PlayoutBuffer, cycles: uint32, pkt: RtpPacket, n: nat, out: Outcome)
    reads po, po.pool, po.pool.slots
  {
    HandedAs(cycles, pkt, n) && (out == DuplicateDropped || out.Queued?) ==>
      && po.TookStep(Arrive(n))
      && (old(po.Ordered() && WellSeen(po.View(), Arrive(n), po.wrapStep)) ==>
            && po.Ordered() && (out == DuplicateDropped <==> n in old(po.exts))
            && (out.Queued? ==> po.exts == InsertAt(old(po.exts), Rank(old(po.exts), n), n)))
  }

  predicate HandedAs(cycles: uint32, pkt: RtpPacket, n: nat) {
    n < TWO_32 && cycles == CycleOf(n) && pkt.seqno == Wrap16(n)
  }

  // A source as the runs of tracker and list see it.
  ghost function Joined(stats: SsrcStats, po: PlayoutBuffer): R.Source
    requires po.InPool()
    reads stats, po, po.pool, po.pool.slots
  {
    R.Source(stats.View(), po.View())
  }

  // The last part of rtp_recv: poadd, and bpfree if the packet is a duplicate. `n` is the
  // extended number the packet is handed under.
  method Queue(sess: RtpSession, k: nat, slot: nat, cycles: uint32, len: int, outside: uint16, pkt: RtpPacket,
               ghost n: nat) returns (out: Outcome)
    requires sess.Valid() && k < |sess.sources| && slot in sess.held
    requires slot < sess.pool.slots.Length && slot < BP_MAX_SIZE && sess.pool.slots[slot] == pkt
    modifies sess`held, sess.pool`flhead, sess.pool`flcount, sess.pool`free, sess.pool.slots, sess.pool.freelist,
             sess.sources[k], sess.sources[k].pobuff
    ensures sess.Valid() && sess.sources == old(sess.sources) && sess.held == old(sess.held) - {slot}
    ensures out == DuplicateDropped || out == Queued(slot)
    ensures out == DuplicateDropped ==> sess.Lists() == old(sess.Lists())
    ensures sess.OthersKept(if out == DuplicateDropped then |sess.sources| else k)
    ensures out.Queued? ==>
              && sess.pool.slots[..] == old(sess.pool.slots[..])
              && Gained(old(sess.Lists()), sess.Lists(), k, slot)
              && GivenLength(old(sess.sources[k].pobuff[..]), sess.sources[k].pobuff[..], slot, len)
    ensures InOrder(sess.sources[k], cycles, pkt, n, out)
  {
    var added, p := sess.Add(k, slot, cycles, outside, n);
    label Added:
    if added == Duplicated {
      sess.Free(slot);
      out := DuplicateDropped;
    } else {
      sess.SetLength(k, slot, len);
      out := Queued(slot);
    }
  }

  // Source k's list gained the slot, the others are as they were.
  ghost predicate Gained(a: seq<seq<nat>>, b: seq<seq<nat>>, k: nat, slot: nat)
    requires k < |a|
  {
    exists p: nat :: p <= |a[k]| && b == a[k := InsertAt(a[k], p, slot)]
  }

  // The first part of rtp_recv: bpget, and recvfrom into the slot.
  method Obtain(sess: RtpSession, pkt: RtpPacket) returns (got: GetResult)
    requires sess.Valid()
    modifies sess`held, sess.pool, sess.pool.slots
    ensures sess.Valid() && sess.Lists() == old(sess.Lists()) && sess.OthersKept(|sess.sources|)
    ensures sess.pool.slots == old(sess.pool.slots) || fresh(sess.pool.slots)
    ensures sess.pool.freelist == old(sess.pool.freelist) || fresh(sess.pool.freelist)
    ensures got == Blocked ==> sess.held == old(sess.held)
    ensures got.Slot? ==>
              && got.index < sess.pool.slots.Length && got.index < BP_MAX_SIZE
              && got.index !in old(sess.held) && sess.held == old(sess.held) + {got.index}
              && sess.pool.slots[got.index] == pkt
  {
    got := sess.Get();
    if got.Slot? { sess.Store(got.index, pkt); }
  }

  // The middle part: statistics, then the playout buffer.
  method Accept(sess: RtpSession, k: nat, stats: SsrcStats, arrival: Arrival, pkt: RtpPacket, slot: nat, len: int,
                outside: uint16, ghost n: nat) returns (out: Outcome)
    requires sess.Valid() && k < |sess.sources| && slot in sess.held
    requires slot < sess.pool.slots.Length && slot < BP_MAX_SIZE && sess.pool.slots[slot] == pkt
    modifies sess`held, sess.pool`flhead, sess.pool`flcount, sess.pool`free, sess.pool.slots, sess.pool.freelist,
             sess.sources[k], sess.sources[k].pobuff, stats
    ensures sess.Valid() && sess.sources == old(sess.sources) && sess.held == old(sess.held) - {slot}
    ensures stats.View() == Updated(Before(old(stats.View()), arrival, pkt.seqno), pkt.seqno)
    ensures out == DuplicateDropped || out == Queued(slot)
    ensures out == DuplicateDropped ==> sess.Lists() == old(sess.Lists())
    ensures out.Queued? ==>
              && sess.pool.slots[..] == old(sess.pool.slots[..])
              && Gained(old(sess.Lists()), sess.Lists(), k, slot)
              && GivenLength(old(sess.sources[k].pobuff[..]), sess.sources[k].pobuff[..], slot, len)
    ensures sess.OthersKept(if out == DuplicateDropped then |sess.sources| else k)
    ensures InOrder(sess.sources[k], stats.cycles, pkt, n, out)
  {
    Track(stats, arrival, pkt.seqno);
    out := Queue(sess, k, slot, stats.cycles, len, outside, pkt, n);
  }

  // rtp_recv for a packet of source k; `headerOk` is the verdict of rtp_hdr_val_chk and
  // `arrival` that of rtp_ssrc_check.
  method Receive(sess: RtpSession, k: nat, stats: SsrcStats, arrival: Arrival, pkt: RtpPacket, len: int,
                 headerOk: bool, outside: uint16, ghost n: nat) returns (out: Outcome)
    requires sess.Valid() && k < |sess.sources|
    modifies sess`held, sess.pool, sess.pool.slots, sess.pool.freelist, sess.sources[k], sess.sources[k].pobuff, stats
    ensures sess.Valid() && sess.sources == old(sess.sources) && sess.held == old(sess.held)
    ensures stats.View() == if out == Sleeping || out == BadHeader then old(stats.View())
                            else Updated(Before(old(stats.View()), arrival, pkt.seqno), pkt.seqno)
    ensures !out.Queued? ==> sess.Lists() == old(sess.Lists())
    ensures out.Queued? ==>
              && out.slot < sess.pool.slots.Length && sess.pool.slots[out.slot] == pkt
              && Gained(old(sess.Lists()), sess.Lists(), k, out.slot)
              && GivenLength(old(sess.sources[k].pobuff[..]), sess.sources[k].pobuff[..], out.slot, len)
    ensures sess.OthersKept(if out.Queued? then k else |sess.sources|)
    ensures InOrder(sess.sources[k], stats.cycles, pkt, n, out)
  {
    var got := Obtain(sess, pkt);
    if got == Blocked { return Sleeping; }
    if headerOk {
      out := Accept(sess, k, stats, arrival, pkt, got.index, len, outside, n);
    } else {
      sess.Free(got.index);
      out := BadHeader;
    }
  }

  // rtp_recv for a packet of a source already known, seen from the source: one step of tracker
  // and list together, so what holds of their runs holds of it.
  method ReceiveKnown(sess: RtpSession, k: nat, stats: SsrcStats, pkt: RtpPacket, len: int, headerOk: bool,
                      outside: uint16, ghost n: nat) returns (out: Outcome)
    requires sess.Valid() && k < |sess.sources|
    modifies sess`held, sess.pool, sess.pool.slots, sess.pool.freelist, sess.sources[k], sess.sources[k].pobuff, stats
    ensures sess.Valid() && sess.sources == old(sess.sources) && sess.held == old(sess.held)
    ensures sess.OthersKept(if out.Queued? then k else |sess.sources|)
    ensures (out == DuplicateDropped || out.Queued?) && HandedAs(stats.cycles, pkt, n) ==>
              && old(sess.sources[k].InPool()) && sess.sources[k].InPool() && old(Paired(sess.sources[k].View()))
              && Joined(stats, sess.sources[k]) ==
                 R.Next(old(Joined(stats, sess.sources[k])), R.Came(pkt.seqno), sess.sources[k].wrapStep)
  {
    ghost var st := stats.View();
    sess.SlotsInside(k);
    ghost var view := sess.sources[k].View();
    out := Receive(sess, k, stats, Ordinary, pkt, len, headerOk, outside, n);
    if (out == DuplicateDropped || out.Queued?) && HandedAs(stats.cycles, pkt, n) {
      R.HandedStep(st, view, pkt.seqno, n, sess.sources[k].wrapStep);
    }
  }
}
