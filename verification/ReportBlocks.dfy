// What the fields of a report block say about the whole run before it (section 6.4.1 of
// RFC 3550).
module ReportBlocks {
  import opened Words
  import opened SeqTracker
  import opened ReceiverReports

  // Highest true number and packets received, at the last report that wrote a block.
  datatype Snapshot = Snapshot(top: int, count: nat)

  // Before the first report: nothing up to the number before the source's first.
  function Unreported(first: nat): Snapshot { Snapshot(first - 1, 0) }

  ghost predicate PriorsAre(st: Stats, first: nat, prior: Snapshot) {
    st.expectedPrior == Wrap32(prior.top - first + 2) && st.receivedPrior == Wrap32(prior.count)
  }

  // The snapshot after a run; a report writes no block if no packet came since the last one.
  function LastBlock(prior: Snapshot, top: nat, count: nat, hs: seq<Happening>): Snapshot
    decreases |hs|
  {
    if hs == [] then prior
    else
      match hs[0]
      case Came(n) => LastBlock(prior, Max(top, n), count + 1, hs[1..])
      case Reporting =>
        LastBlock(if Wrap32(count) == Wrap32(prior.count) then prior else Snapshot(top, count), top, count, hs[1..])
  }

  lemma ExpectedTop(st: Stats, first: nat, top: nat, count: nat)
    requires Tracking(st, first, top, count)
    ensures Expected(st) == Wrap32(top - first + 2)
  {
    TrackedTop(st, first, top, count);
    WrapTwice(first - 1);
    DifferenceWraps(st.cycles + st.maxSeq, st.baseSeq, top, first - 1);
  }

  lemma PacketKeepsPriors(st: Stats, top: nat, n: nat)
    requires st.probation == 0 && st.maxSeq == top % 0x1_0000 && InWindow(top, n)
    ensures var now := Updated(st, Wrap16(n));
            now.expectedPrior == st.expectedPrior && now.receivedPrior == st.receivedPrior
  {
    WindowIsModular(st, top, n);
  }

  // The priors are the figures of the last block written, over every run.
  lemma {:induction false} PriorsKept(st: Stats, first: nat, top: nat, count: nat, prior: Snapshot,
                                      hs: seq<Happening>)
    requires Tracking(st, first, top, count) && PriorsAre(st, first, prior) && AllInWindow(top, Arrivals(hs))
    ensures PriorsAre(Play(st, AllSeen(hs)), first, LastBlock(prior, top, count, hs))
    decreases |hs|
  {
    if hs != [] {
      var e, rest := Seen(hs[0]), AllSeen(hs[1..]);
      assert AllSeen(hs)[0] == e && AllSeen(hs)[1..] == rest;
      if hs[0].Came? {
        var n := hs[0].n;
        assert Arrivals(hs)[0] == n && Arrivals(hs)[1..] == Arrivals(hs[1..]);
        PacketKeepsPriors(st, top, n);
        TrackStep(st, first, top, count, n);
        PriorsKept(Next(st, e), first, Max(top, n), count + 1, prior, hs[1..]);
      } else {
        assert Arrivals(hs) == Arrivals(hs[1..]);
        ExpectedTop(st, first, top, count);
        var now := if Wrap32(count) == Wrap32(prior.count) then prior else Snapshot(top, count);
        PriorsKept(Next(st, e), first, top, count, now, hs[1..]);
      }
    }
  }

  // ---- the fields ----

  // lost: the loss between the limits of 24 signed bits.
  ghost predicate LostSays(lost: int, loss: int) {
    && (-0x80_0000 <= loss <= 0x7f_ffff ==> lost == loss)
    && (0x7f_ffff < loss < 0x8000_0000 ==> lost == 0x7f_ffff)
    && (-0x8000_0000 <= loss < -0x80_0000 ==> lost == -0x80_0000)
  }

  // fraction, with `expected` and `received` packets since the last block: right on a loss of
  // less than 2^24, wrong on a larger one; on a surplus right only by its remainder.
  ghost predicate FractionSays(fraction: byte, expected: int, received: int) {
    && (expected == 0 ==> fraction == 0)
    && (0 < received <= expected < TWO_32 ==>
          (fraction == RfcFraction(expected, received) <==> expected - received < 0x100_0000))
    && (0 < expected < received < TWO_32 ==>
          (fraction == 0 <==> 0x100 * ((expected - received) % 0x100_0000 % expected) < expected))
  }

  lemma SignedIs(x: int)
    requires -0x8000_0000 <= x < 0x8000_0000
    ensures Signed32(Wrap32(x)) == x
  {
  }

  lemma LostRight(id: uint32, st: Stats, first: nat, top: nat, count: nat)
    requires Tracking(st, first, top, count)
    ensures LostSays(BlockOf(id, st).lost, top - first + 1 - count)
  {
    var loss := top - first + 1 - count;
    ExpectedIs(st, first, top, count);
    if -0x8000_0000 <= loss < 0x8000_0000 { SignedIs(loss); }
  }

  // The two intervals are those of the true figures.
  lemma IntervalsRight(st: Stats, first: nat, top: nat, count: nat, prior: Snapshot)
    requires Tracking(st, first, top, count) && PriorsAre(st, first, prior)
    ensures ExpectedInterval(st) == Wrap32(top - prior.top)
    ensures ReceivedInterval(st) == Wrap32(count - prior.count)
    ensures LostInterval(st) == Wrap32((top - prior.top) - (count - prior.count))
  {
    ExpectedTop(st, first, top, count);
    WrapTwice(top - first + 2);
    WrapTwice(prior.top - first + 2);
    WrapTwice(count);
    WrapTwice(prior.count);
    DifferenceWraps(Expected(st), st.expectedPrior, top - first + 2, prior.top - first + 2);
    assert (top - first + 2) - (prior.top - first + 2) == top - prior.top;
    DifferenceWraps(st.received, st.receivedPrior, count, prior.count);
    WrapTwice(top - prior.top);
    WrapTwice(count - prior.count);
    DifferenceWraps(ExpectedInterval(st), ReceivedInterval(st), top - prior.top, count - prior.count);
  }

  lemma InRange(x: int)
    requires 0 <= x < TWO_32
    ensures Wrap32(x) == x
  {
  }

  lemma WrappedFraction(e: int, r: int)
    requires 0 <= e < TWO_32 && 0 < r < TWO_32
    ensures FractionSays(Fraction(Wrap32(e), Wrap32(e - r)), e, r)
  {
    InRange(e);
    if 0 < r <= e { FractionRightIff(e, r); }
    if 0 < e < r { FractionOnSurplusIff(e, r - e); }
  }

  lemma FractionRight(id: uint32, st: Stats, first: nat, top: nat, count: nat, prior: Snapshot)
    requires Tracking(st, first, top, count) && PriorsAre(st, first, prior)
    ensures FractionSays(BlockOf(id, st).fraction, top - prior.top, count - prior.count)
  {
    var e, r := top - prior.top, count - prior.count;
    IntervalsRight(st, first, top, count, prior);
    if e == 0 { InRange(e); }
    if 0 <= e < TWO_32 && 0 < r < TWO_32 { WrappedFraction(e, r); }
  }

  // The block built when the source has sent up to `top`, `count` packets came, and the last
  // block was built at `prior`.
  ghost predicate BlockSays(b: Block, id: uint32, first: nat, now: Snapshot, prior: Snapshot) {
    && b.ssrc == id && b.lastSeq == Wrap32(now.top)
    && LostSays(b.lost, now.top - first + 1 - now.count)
    && FractionSays(b.fraction, now.top - prior.top, now.count - prior.count)
  }

  lemma BlockRight(id: uint32, st: Stats, first: nat, top: nat, count: nat, prior: Snapshot)
    requires Tracking(st, first, top, count) && PriorsAre(st, first, prior)
    ensures BlockSays(BlockOf(id, st), id, first, Snapshot(top, count), prior)
    ensures HasNews(st) <==> Wrap32(count) != Wrap32(prior.count)
  {
    TrackedTop(st, first, top, count);
    LostRight(id, st, first, top, count);
    FractionRight(id, st, first, top, count, prior);
  }

  // Every field of the block written after a run that began with the packet that started
  // tracking, whatever packets and reports came in between.
  lemma BlockOfRun(id: uint32, st: Stats, first: nat, hs: seq<Happening>)
    requires Tracking(st, first, first, 1) && st.expectedPrior == 1 && st.receivedPrior == 0
    requires AllInWindow(first, Arrivals(hs))
    ensures var st', now := Play(st, AllSeen(hs)), Snapshot(Highest(first, Arrivals(hs)), 1 + |Arrivals(hs)|);
            var prior := LastBlock(Unreported(first), first, 1, hs);
            BlockSays(BlockOf(id, st'), id, first, now, prior)
            && (HasNews(st') <==> Wrap32(now.count) != Wrap32(prior.count))
  {
    PlayTracks(st, first, first, 1, hs);
    PriorsKept(st, first, first, 1, Unreported(first), hs);
    BlockRight(id, Play(st, AllSeen(hs)), first, Highest(first, Arrivals(hs)), 1 + |Arrivals(hs)|,
               LastBlock(Unreported(first), first, 1, hs));
  }

  // Without packets from before the start, the cumulative loss reported is the number of
  // sequence numbers that never came, less the packets that repeated one.
  lemma BlockCountsMissing(id: uint32, st: Stats, first: nat, hs: seq<Happening>)
    requires Tracking(st, first, first, 1) && st.expectedPrior == 1 && st.receivedPrior == 0
    requires AllInWindow(first, Arrivals(hs)) && forall i :: 0 <= i < |Arrivals(hs)| ==> first <= Arrivals(hs)[i]
    ensures var came, top := [first] + Arrivals(hs), Highest(first, Arrivals(hs));
            LostSays(BlockOf(id, Play(st, AllSeen(hs))).lost, |Missing(first, top, came)| - Repeats(came))
    ensures Distinct([first] + Arrivals(hs)) ==> Repeats([first] + Arrivals(hs)) == 0
  {
    var came, top := [first] + Arrivals(hs), Highest(first, Arrivals(hs));
    BlockOfRun(id, st, first, hs);
    CameWithin(first, hs);
    MissingLessRepeats(first, top, came);
    if Distinct(came) { DistinctSize(came); }
  }
}
