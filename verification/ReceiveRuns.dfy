// The tracker and the playout list of one source together, over whole runs: the cycle counts
// the tracker hands to poadd are those the list's order needs.
module ReceiveRuns {
  import opened Words
  import opened Sequences
  import opened PlayoutOrder
  import opened PlayoutRuns
  import opened SeqTracker

  datatype Source = Source(st: Stats, po: Playout)

  // A packet with true number n arrives, or the consumer takes one.
  datatype Move = Came(n: uint32) | Taken

  // rtp_update_seq and poadd with the resulting cycle count, or rtp_rm_pkt.
  function Next(s: Source, h: Move, wrap: uint32): (t: Source)
    requires Paired(s.po)
    ensures Paired(t.po)
  {
    match h
    case Came(n) =>
      var st := Updated(s.st, Wrap16(n));
      Source(st, Step(s.po, Arrive(Wrap32(st.cycles + Wrap16(n))), wrap))
    case Taken => s.(po := Step(s.po, Deliver, wrap))
  }

  lemma HandedAs(s: Source, n: uint32, x: uint32, wrap: uint32)
    requires Paired(s.po) && Wrap32(Updated(s.st, Wrap16(n)).cycles + Wrap16(n)) == x
    ensures Next(s, Came(n), wrap) == Source(Updated(s.st, Wrap16(n)), Step(s.po, Arrive(x), wrap))
  {
  }

  // The same without wrapping.
  lemma HandedStep(st: Stats, po: Playout, n: uint16, x: uint32, wrap: uint32)
    requires Paired(po) && Updated(st, n).cycles + n == x
    ensures Next(Source(st, po), Came(n), wrap) == Source(Updated(st, n), Step(po, Arrive(x), wrap))
  {
    assert Wrap16(n) == n && Wrap32(x) == x;
    HandedAs(Source(st, po), n, x, wrap);
  }

  function After(s: Source, hs: seq<Move>, wrap: uint32): (t: Source)
    requires Paired(s.po)
    ensures Paired(t.po)
    decreases |hs|
  {
    if hs == [] then s else After(Next(s, hs[0], wrap), hs[1..], wrap)
  }

  // Every packet is inside the window and in the cycle of the highest number so far.
  predicate Timely(top: nat, hs: seq<Move>)
    decreases |hs|
  {
    hs != [] ==>
      match hs[0]
      case Came(n) =>
        && InWindow(top, n) && CycleOf(n) == CycleOf(Max(top, n))
        && Timely(Max(top, n), hs[1..])
      case Taken => Timely(top, hs[1..])
  }

  // The same run for a list that is told the true numbers.
  function Ops(hs: seq<Move>): (ops: seq<Op>)
    ensures |ops| == |hs|
  {
    if hs == [] then []
    else [match hs[0] case Came(n) => Arrive(n) case Taken => Deliver] + Ops(hs[1..])
  }

  lemma HandedTrueNumber(st: Stats, first: nat, top: nat, count: nat, n: uint32)
    requires Tracking(st, first, top, count) && InWindow(top, n) && CycleOf(n) == CycleOf(Max(top, n))
    ensures Wrap32(Updated(st, Wrap16(n)).cycles + Wrap16(n)) == n
  {
    CycleHandedIsTrueIff(st, first, top, count, n);
  }

  lemma TimelyStep(s: Source, first: nat, top: nat, count: nat, n: uint32, wrap: uint32)
    requires Paired(s.po) && Tracking(s.st, first, top, count)
    requires InWindow(top, n) && CycleOf(n) == CycleOf(Max(top, n))
    ensures Next(s, Came(n), wrap) == Source(Updated(s.st, Wrap16(n)), Step(s.po, Arrive(n), wrap))
  {
    HandedTrueNumber(s.st, first, top, count, n);
    HandedAs(s, n, n, wrap);
  }

  // The list behaves as if it were told the true numbers.
  lemma {:induction false} ListSeesTrueNumbers(s: Source, first: nat, top: nat, count: nat, hs: seq<Move>,
                                               wrap: uint32)
    requires Paired(s.po) && Tracking(s.st, first, top, count) && Timely(top, hs)
    ensures After(s, hs, wrap).po == Run(s.po, Ops(hs), wrap)
    decreases |hs|
  {
    if hs != [] {
      var next := Next(s, hs[0], wrap);
      assert Ops(hs)[1..] == Ops(hs[1..]);
      match hs[0] {
        case Came(n) =>
          TimelyStep(s, first, top, count, n, wrap);
          TrackStep(s.st, first, top, count, n);
          ListSeesTrueNumbers(next, first, Max(top, n), count + 1, hs[1..], wrap);
        case Taken =>
          ListSeesTrueNumbers(next, first, top, count, hs[1..], wrap);
      }
    }
  }

  // ---- with a step of 2^16 such runs are handled rightly ----

  // The head of the list is at most a misordering below the highest number.
  ghost predicate Near(exts: seq<nat>, top: nat) {
    exts != [] ==> exts[0] <= top < exts[0] + MAX_MISORDER
  }

  lemma CycleBetween(a: nat, b: nat, c: nat)
    requires a <= b <= c && CycleOf(a) == CycleOf(c)
    ensures CycleOf(b) == CycleOf(a)
  {
  }

  lemma TimelyStaysNear(exts: seq<nat>, top: nat, x: nat)
    requires Decreasing(exts) && CloseAcrossWraps(exts) && Near(exts, top) && x !in exts
    requires InWindow(top, x) && CycleOf(x) == CycleOf(Max(top, x))
    ensures var p := Rank(exts, x);
            var all := exts[..p] + [x] + exts[p..];
            CloseAcrossWraps(all) && Near(all, Max(top, x))
  {
    var p := Rank(exts, x);
    var all := exts[..p] + [x] + exts[p..];
    RankFindsMember(exts, x);
    if p > 0 {
      assert exts[0] >= exts[p - 1] > x;
      CycleBetween(x, exts[p - 1], top);
    }
    forall k | 0 <= k < |all| - 1 && CycleOf(all[k]) != CycleOf(all[k + 1]) ensures all[k] - all[k + 1] <= WRAP_REACH {
      GapStays(exts, p, x, k);
    }
  }

  // The gaps of the list with x at p.
  lemma GapStays(exts: seq<nat>, p: nat, x: nat, k: nat)
    requires CloseAcrossWraps(exts) && p <= |exts| && k < |exts|
    requires p > 0 ==> x < exts[p - 1] && CycleOf(x) == CycleOf(exts[p - 1])
    requires p == 0 ==> x - exts[0] <= WRAP_REACH
    ensures var all := exts[..p] + [x] + exts[p..];
            CycleOf(all[k]) != CycleOf(all[k + 1]) ==> all[k] - all[k + 1] <= WRAP_REACH
  {
    var all := exts[..p] + [x] + exts[p..];
    if k + 1 < p {
      assert all[k] == exts[k] && all[k + 1] == exts[k + 1];
    } else if k > p {
      assert all[k] == exts[k - 1] && all[k + 1] == exts[k - 1 + 1];
    } else if k == p {
      assert all[k] == x && all[k + 1] == exts[p];
      if p > 0 { assert exts[p - 1 + 1] == exts[p]; }
    } else {
      assert all[k] == exts[p - 1] && all[k + 1] == x;
    }
  }

  lemma StepStaysNear(s: Playout, top: nat, x: uint32)
    requires Right(s) && CloseAcrossWraps(s.exts) && Near(s.exts, top)
    requires InWindow(top, x) && CycleOf(x) == CycleOf(Max(top, x))
    ensures WellSeen(s, Arrive(x), RTP_SEQ_MOD)
    ensures var t := Step(s, Arrive(x), RTP_SEQ_MOD);
            Right(t) && CloseAcrossWraps(t.exts) && Near(t.exts, Max(top, x))
  {
    FitSeesRightly(s.exts, x, RTP_SEQ_MOD);
    StepRefines(s, Arrive(x), RTP_SEQ_MOD);
    VerdictRightIff(s.seqs, s.exts, s.cycles, x, RTP_SEQ_MOD);
    if x in s.exts {
      assert x <= s.exts[0];
    } else {
      TimelyStaysNear(s.exts, top, x);
    }
  }

  lemma {:induction false} TimelySeenRightly(s: Playout, top: nat, hs: seq<Move>)
    requires Right(s) && CloseAcrossWraps(s.exts) && Near(s.exts, top) && Timely(top, hs)
    ensures SeenThroughout(s, Ops(hs), RTP_SEQ_MOD)
    decreases |hs|
  {
    if hs != [] {
      assert Ops(hs)[1..] == Ops(hs[1..]);
      match hs[0] {
        case Came(n) =>
          StepStaysNear(s, top, n);
          TimelySeenRightly(Step(s, Arrive(n), RTP_SEQ_MOD), Max(top, n), hs[1..]);
        case Taken =>
          StepRefines(s, Deliver, RTP_SEQ_MOD);
          TimelySeenRightly(Step(s, Deliver, RTP_SEQ_MOD), top, hs[1..]);
      }
    }
  }

  // So the list holds exactly the true numbers that came and were not taken, in order, and
  // without late packets hands them out in increasing order.
  lemma TimelyRunsInOrder(s: Source, first: nat, top: nat, count: nat, hs: seq<Move>, floor: int)
    requires Tracking(s.st, first, top, count) && Timely(top, hs)
    requires Right(s.po) && CloseAcrossWraps(s.po.exts) && Near(s.po.exts, top)
    ensures var t := After(s, hs, RTP_SEQ_MOD).po; Right(t) && Content(t) == WantedRun(Content(s.po), Ops(hs))
    ensures NoneLate(s.po, floor, Ops(hs), RTP_SEQ_MOD) && Above(floor, s.po.exts) ==>
              Increasing(Delivered(s.po, Ops(hs), RTP_SEQ_MOD))
  {
    ListSeesTrueNumbers(s, first, top, count, hs, RTP_SEQ_MOD);
    TimelySeenRightly(s.po, top, hs);
    RunRefines(s.po, Ops(hs), RTP_SEQ_MOD);
    if NoneLate(s.po, floor, Ops(hs), RTP_SEQ_MOD) && Above(floor, s.po.exts) {
      RunDeliversInOrder(s.po, floor, Ops(hs), RTP_SEQ_MOD);
    }
  }

  // ---- a restart of the tracker misorders even with that step ----

  const OLD: Playout := Playout([0x10], [0x2_0010], 0x2_0000)
  const JUMPED: Playout := Playout([29999, 0x10], [0x2_752F, 0x2_0010], 0x2_0000)
  const RESTARTED: Playout := Playout([29999, 0x10, 30000], [0x2_752F, 0x2_0010, 30000], 0x2_0000)
  const SWAPPED: Playout := Playout([29999, 0x10, 30000, 30001], [0x2_752F, 0x2_0010, 30000, 30001], 0x2_0000)

  lemma JumpArrives()
    ensures Right(OLD) && Step(OLD, Arrive(0x2_752F), RTP_SEQ_MOD) == JUMPED
  {
    FitIsRight(OLD.seqs, OLD.exts, OLD.cycles, 0x2_752F, RTP_SEQ_MOD);
  }

  lemma RestartArrives()
    ensures Step(JUMPED, Arrive(30000), RTP_SEQ_MOD) == RESTARTED
  {
    var exts := JUMPED.exts;
    assert CycleOf(exts[0]) == 0x2_0000 && CycleOf(exts[1]) == 0x2_0000;
    assert exts[1..] == [0x2_0010] && [0x2_0010][1..] == [];
    assert Rank(exts, 30000) == 2 && 30000 !in exts;
    FitIsRight(JUMPED.seqs, exts, JUMPED.cycles, 30000, RTP_SEQ_MOD);
  }

  lemma NextMisplaced()
    ensures Right(RESTARTED) && Rank(RESTARTED.exts, 30001) == 2
    ensures Step(RESTARTED, Arrive(30001), RTP_SEQ_MOD) == SWAPPED
  {
    var exts := RESTARTED.exts;
    assert exts[2] == 30000 && exts[1] == 0x2_0010;
    assert Excess(exts, 1, RTP_SEQ_MOD) == 0 && Excess(exts, 2, RTP_SEQ_MOD) == 0x2_0000;
    assert SeenAt(exts, 0, RTP_SEQ_MOD) == 0x2_752F && SeenAt(exts, 1, RTP_SEQ_MOD) == 0x2_0010;
    assert SeenAt(exts, 2, RTP_SEQ_MOD) == 0x2_7530;
    WalkStops(RESTARTED.seqs, exts, RESTARTED.cycles, 30001, RTP_SEQ_MOD);
  }

  lemma RestartHands(st: Stats, first: nat, count: nat)
    requires Tracking(st, first, 0x2_0010, count) && st.badSeq != 29999
    ensures var a := Updated(st, 29999);
            var b := Updated(a, 30000);
            a.cycles == 0x2_0000 && b.cycles == 0 && Updated(b, 30001).cycles == 0
  {
  }

  lemma AfterThree(s: Source, a: Move, b: Move, c: Move, wrap: uint32)
    requires Paired(s.po)
    ensures After(s, [a, b, c], wrap) == Next(Next(Next(s, a, wrap), b, wrap), c, wrap)
  {
    var t := Next(s, a, wrap);
    var u := Next(t, b, wrap);
    assert [a, b, c][1..] == [b, c] && [b, c][1..] == [c] && [c][1..] == [];
    assert After(u, [c], wrap) == Next(u, c, wrap);
  }

  // 0x20010 is queued; 29999 and 30000 restart the tracker, and 30001 is put behind 30000:
  // it will be delivered first.
  lemma RestartMisorders(st: Stats, first: nat, count: nat)
    requires Tracking(st, first, 0x2_0010, count) && st.badSeq != 29999
    ensures Right(OLD) && After(Source(st, OLD), [Came(29999), Came(30000), Came(30001)], RTP_SEQ_MOD).po == SWAPPED
  {
    JumpArrives();
    RestartArrives();
    NextMisplaced();
    RestartHands(st, first, count);
    var a := Updated(st, 29999);
    var b := Updated(a, 30000);
    AfterThree(Source(st, OLD), Came(29999), Came(30000), Came(30001), RTP_SEQ_MOD);
    HandedStep(st, OLD, 29999, 0x2_752F, RTP_SEQ_MOD);
    HandedStep(a, JUMPED, 30000, 30000, RTP_SEQ_MOD);
    HandedStep(b, RESTARTED, 30001, 30001, RTP_SEQ_MOD);
  }

  // ---- the constant as written fails such a run ----

  const LAST: Playout := Playout([0xFFFF], [0xFFFF], 0)
  const WRAPPED: Playout := Playout([1, 0xFFFF], [0x1_0001, 0xFFFF], 0x1_0000)
  const MISPLACED: Playout := Playout([1, 0xFFFF, 0], [0x1_0001, 0xFFFF, 0x1_0000], 0x1_0000)

  lemma WrapArrives()
    ensures Right(LAST) && Step(LAST, Arrive(0x1_0001), SEQ_MAX_NUMBER) == WRAPPED
  {
    FitIsRight(LAST.seqs, LAST.exts, LAST.cycles, 0x1_0001, SEQ_MAX_NUMBER);
  }

  lemma MissingArrives()
    ensures Step(WRAPPED, Arrive(0x1_0000), SEQ_MAX_NUMBER) == MISPLACED
  {
    AsWrittenWrongAcrossWrap();
  }

  lemma MisplacedDelivered()
    ensures Delivered(MISPLACED, [Deliver, Deliver], SEQ_MAX_NUMBER) == [0x1_0000, 0xFFFF]
  {
    var next := Playout([1, 0xFFFF], [0x1_0001, 0xFFFF], 0x1_0000);
    assert Step(MISPLACED, Deliver, SEQ_MAX_NUMBER) == next;
    assert [Deliver, Deliver][1..] == [Deliver] && [Deliver][1..] == [];
    assert Delivered(next, [Deliver], SEQ_MAX_NUMBER) == [0xFFFF];
  }

  // 65535 is queued; 65537 and 65536 arrive, each timely and handed its true number; then
  // 65536 is delivered before 65535.
  lemma AsWrittenDeliversOutOfOrder(st: Stats)
    requires Tracking(st, 0xFFFF, 0xFFFF, 1)
    ensures var hs := [Came(0x1_0001), Came(0x1_0000)];
            && Right(LAST) && Timely(0xFFFF, hs)
            && After(Source(st, LAST), hs, SEQ_MAX_NUMBER).po == MISPLACED
            && Delivered(MISPLACED, [Deliver, Deliver], SEQ_MAX_NUMBER) == [0x1_0000, 0xFFFF]
  {
    var hs := [Came(0x1_0001), Came(0x1_0000)];
    assert hs[1..] == [Came(0x1_0000)] && [Came(0x1_0000)][1..] == [];
    ListSeesTrueNumbers(Source(st, LAST), 0xFFFF, 0xFFFF, 1, hs, SEQ_MAX_NUMBER);
    assert Ops(hs) == [Arrive(0x1_0001), Arrive(0x1_0000)];
    assert Ops(hs)[1..] == [Arrive(0x1_0000)] && [Arrive(0x1_0000)][1..] == [];
    WrapArrives();
    MissingArrives();
    MisplacedDelivered();
  }
}
