// The sequence-number tracker of one source (src/rtp/rtp_recv.c; Appendix A.1 of RFC 3550).
module SeqTracker {
  import opened Words

  const MIN_SEQUENTIAL: uint32 := 2
  const MAX_DROPOUT: int := 3000
  const MAX_MISORDER: int := 100

  datatype Stats = Stats(
    maxSeq: uint16, cycles: uint32, baseSeq: uint32, badSeq: uint32, probation: uint32,
    received: uint32, expectedPrior: uint32, receivedPrior: uint32)

  // rtp_init_seq, without the active-source queue.
  function Initialised(st: Stats, seqno: uint16): Stats {
    Stats(seqno, 0, Wrap32(seqno - 1), 0x1_0001, st.probation, 0, 1, 0)
  }

  // How far seqno lies ahead of the highest number seen, modulo 2^16.
  function Ahead(st: Stats, seqno: uint16): uint16 { Wrap16(seqno - st.maxSeq) }

  predicate Jump(st: Stats, seqno: uint16) {
    MAX_DROPOUT <= Ahead(st, seqno) <= RTP_SEQ_MOD - MAX_MISORDER
  }

  // rtp_update_seq as a function of the statistics.
  function Updated(st: Stats, seqno: uint16): Stats {
    if st.probation != 0 then
      if seqno != st.maxSeq + 1 then st.(probation := MIN_SEQUENTIAL - 1, maxSeq := seqno)
      else if st.probation == 1 then Initialised(st.(probation := 0), seqno).(received := 1)
      else st.(probation := st.probation - 1, maxSeq := seqno)
    else if Jump(st, seqno) then
      if seqno == st.badSeq then Initialised(st, seqno).(received := 1)
      else st.(badSeq := (seqno + 1) % 0x1_0000)
    else if Ahead(st, seqno) < MAX_DROPOUT then
      st.(maxSeq := seqno, received := Wrap32(st.received + 1),
          cycles := if seqno < st.maxSeq then Wrap32(st.cycles + 0x1_0000) else st.cycles)
    else st.(received := Wrap32(st.received + 1))
  }

  // What rtp_recv does for the first packet of a new source before updating.
  function OnProbation(st: Stats, seqno: uint16): Stats {
    st.(probation := MIN_SEQUENTIAL, maxSeq := Wrap16(seqno - 1))
  }

  // The seek reset of rtp_recv.
  function SeekReset(st: Stats, seqno: uint16): Stats {
    Initialised(st.(probation := 0), seqno)
  }

  class SsrcStats {
    const ssrc: uint32
    var maxSeq: uint16
    var cycles: uint32
    var baseSeq: uint32
    var badSeq: uint32
    var probation: uint32
    var received: uint32
    var expectedPrior: uint32
    var receivedPrior: uint32

    ghost function View(): Stats
      reads this
    {
      Stats(maxSeq, cycles, baseSeq, badSeq, probation, received, expectedPrior, receivedPrior)
    }

    // calloc in rtp_ssrc_init
    constructor (id: uint32)
      ensures ssrc == id && View() == Stats(0, 0, 0, 0, 0, 0, 0, 0)
    {
      ssrc := id;
      maxSeq, cycles, baseSeq, badSeq, probation := 0, 0, 0, 0, 0;
      received, expectedPrior, receivedPrior := 0, 0, 0;
    }

    method InitSeq(seqno: uint16)
      modifies this
      ensures View() == Initialised(old(View()), seqno)
    {
      baseSeq := Wrap32(seqno - 1);
      maxSeq := seqno;
      badSeq := 0x1_0000 + 1;
      cycles := 0;
      received := 0;
      receivedPrior := 0;
      expectedPrior := 1;
    }

    method UpdateSeq(seqno: uint16)
      modifies this
      ensures View() == Updated(old(View()), seqno)
    {
      var udelta: uint16 := Wrap16(seqno - maxSeq);
      if probation != 0 {
        if seqno == maxSeq + 1 {
          probation := probation - 1;
          maxSeq := seqno;
          if probation == 0 {
            InitSeq(seqno);
            received := Wrap32(received + 1);
            return;
          }
        } else {
          probation := MIN_SEQUENTIAL - 1;
          maxSeq := seqno;
        }
        return;
      } else if udelta < MAX_DROPOUT {
        if seqno < maxSeq {
          cycles := Wrap32(cycles + 0x1_0000);
        }
        maxSeq := seqno;
      } else if udelta <= RTP_SEQ_MOD - MAX_MISORDER {
        if seqno == badSeq {
          InitSeq(seqno);
        } else {
          badSeq := (seqno + 1) % 0x1_0000;
          return;
        }
      }
      received := Wrap32(received + 1);
    }

    // The two ways rtp_recv starts a source over before it calls rtp_update_seq.
    method StartProbation(seqno: uint16)
      modifies this
      ensures View() == OnProbation(old(View()), seqno)
    {
      probation := MIN_SEQUENTIAL;
      maxSeq := Wrap16(seqno - 1);
    }

    method ResetForSeek(seqno: uint16)
      modifies this
      ensures View() == SeekReset(old(View()), seqno)
    {
      probation := 0;
      maxSeq := seqno;
      baseSeq := Wrap32(seqno - 1);
      badSeq := 0x1_0000 + 1;
      cycles := 0;
      received := 0;
      receivedPrior := 0;
      expectedPrior := 1;
    }
  }

  // ---- unwrapping ----

  // st tracks a source whose first true number was `first`, whose highest so far is `top`,
  // after `count` arrivals.
  ghost predicate Tracking(st: Stats, first: nat, top: nat, count: nat) {
    && st.probation == 0
    && st.maxSeq == top % 0x1_0000
    && st.cycles == Wrap32(top - top % 0x1_0000)
    && st.received == Wrap32(count)
    && st.baseSeq == Wrap32(first - 1)
  }

  // An arrival the tracker follows: less than MAX_DROPOUT ahead, less than MAX_MISORDER behind.
  predicate InWindow(top: int, n: int) { top - MAX_MISORDER < n < top + MAX_DROPOUT }

  function Max(a: int, b: int): int { if a < b then b else a }

  lemma WindowIsModular(st: Stats, top: nat, n: int)
    requires st.maxSeq == top % 0x1_0000 && InWindow(top, n)
    ensures !Jump(st, Wrap16(n))
    ensures Ahead(st, Wrap16(n)) < MAX_DROPOUT <==> top <= n
    ensures top <= n ==> Ahead(st, Wrap16(n)) == n - top
  {
    assert Ahead(st, Wrap16(n)) == (n - top) % 0x1_0000;
  }

  lemma TrackStep(st: Stats, first: nat, top: nat, count: nat, n: int)
    requires Tracking(st, first, top, count) && InWindow(top, n)
    ensures Tracking(Updated(st, Wrap16(n)), first, Max(top, n), count + 1)
  {
    WindowIsModular(st, top, n);
    if top <= n {
      var wraps := if Wrap16(n) < st.maxSeq then 0x1_0000 else 0;
      assert n - n % 0x1_0000 == top - top % 0x1_0000 + wraps;
    }
  }

  function UpdateAll(st: Stats, arrivals: seq<int>): Stats
    decreases |arrivals|
  {
    if arrivals == [] then st else UpdateAll(Updated(st, Wrap16(arrivals[0])), arrivals[1..])
  }

  function Highest(top: int, arrivals: seq<int>): (h: int)
    ensures h >= top
    decreases |arrivals|
  {
    if arrivals == [] then top else Highest(Max(top, arrivals[0]), arrivals[1..])
  }

  predicate AllInWindow(top: int, arrivals: seq<int>)
    decreases |arrivals|
  {
    arrivals != [] ==> InWindow(top, arrivals[0]) && AllInWindow(Max(top, arrivals[0]), arrivals[1..])
  }

  lemma TrackedTop(st: Stats, first: nat, top: nat, count: nat)
    requires Tracking(st, first, top, count)
    ensures Wrap32(st.cycles + st.maxSeq) == Wrap32(top)
  {
  }

  // Over a whole run inside the window, cycles + max_seq is the highest true number and
  // `received` is the number of arrivals.
  lemma {:induction false} UnwrapsWholeRun(st: Stats, first: nat, top: nat, count: nat, arrivals: seq<int>)
    requires Tracking(st, first, top, count) && AllInWindow(top, arrivals)
    ensures Tracking(UpdateAll(st, arrivals), first, Highest(top, arrivals), count + |arrivals|)
    ensures Wrap32(UpdateAll(st, arrivals).cycles + UpdateAll(st, arrivals).maxSeq) == Wrap32(Highest(top, arrivals))
    decreases |arrivals|
  {
    if arrivals != [] {
      TrackStep(st, first, top, count, arrivals[0]);
      UnwrapsWholeRun(Updated(st, Wrap16(arrivals[0])), first, Max(top, arrivals[0]), count + 1, arrivals[1..]);
    }
    TrackedTop(UpdateAll(st, arrivals), first, Highest(top, arrivals), count + |arrivals|);
  }

  // The end of probation and a seek both start such a run.
  lemma ProbationEndStarts(st: Stats, seqno: uint16)
    requires st.probation == 1 && seqno == st.maxSeq + 1
    ensures Tracking(Updated(st, seqno), seqno, seqno, 1)
    ensures Updated(st, seqno).expectedPrior == 1 && Updated(st, seqno).receivedPrior == 0
  {
  }

  lemma SeekStarts(st: Stats, seqno: uint16)
    ensures Tracking(Updated(SeekReset(st, seqno), seqno), seqno, seqno, 1)
    ensures Updated(SeekReset(st, seqno), seqno).expectedPrior == 1
    ensures Updated(SeekReset(st, seqno), seqno).receivedPrior == 0
  {
  }

  // The cycle count rtp_recv then hands to poadd makes the packet's number its true one
  // exactly when the packet is not from before the latest wrap.
  lemma CycleHandedIsTrueIff(st: Stats, first: nat, top: nat, count: nat, n: nat)
    requires Tracking(st, first, top, count) && InWindow(top, n)
    ensures Wrap32(Updated(st, Wrap16(n)).cycles + Wrap16(n)) == Wrap32(n)
            <==> n - n % 0x1_0000 == Max(top, n) - Max(top, n) % 0x1_0000
  {
    TrackStep(st, first, top, count, n);
    var high: nat := Max(top, n);
    SameOrNext(high, n);
    CycleDecides(high - high % 0x1_0000, n - n % 0x1_0000, n % 0x1_0000);
  }

  // 65535 after 65536 is handed on as 131071.
  lemma LatePacketHandedNextCycle(st: Stats)
    requires Tracking(st, 0xFFFE, 0x1_0000, 2)
    ensures Wrap32(Updated(st, 0xFFFF).cycles + 0xFFFF) == 0x1_FFFF
  {
    TrackStep(st, 0xFFFE, 0x1_0000, 2, 0xFFFF);
  }

  // The highest number's cycle is the packet's own or the next.
  lemma SameOrNext(high: nat, n: nat)
    requires n <= high < n + MAX_MISORDER
    ensures high - high % 0x1_0000 == n - n % 0x1_0000 || high - high % 0x1_0000 == n - n % 0x1_0000 + 0x1_0000
  {
  }

  lemma CycleDecides(a: int, b: int, low: int)
    requires a == b || a == b + 0x1_0000
    ensures Wrap32(Wrap32(a) + low) == Wrap32(b + low) <==> a == b
  {
    Wrap32Shift(a + low, -(a / TWO_32));
    if a == b + 0x1_0000 { NotSame(b + low); }
  }

  lemma NotSame(x: int)
    ensures Wrap32(x + 0x1_0000) != Wrap32(x)
  {
  }

  // ---- probation ----

  // Whether somewhere in `seqs` a number is followed by its successor. The comparison is on
  // integers, so 65535 followed by 0 does not count.
  predicate HasSequentialPair(seqs: seq<uint16>) {
    exists i :: 0 <= i < |seqs| - 1 && Succeeds(seqs[i + 1], seqs[i])
  }

  predicate Succeeds(b: int, a: int) { b == a + 1 }

  // The source's state while packets `seqs` have arrived since it was created.
  function Arrive(st: Stats, seqs: seq<uint16>): Stats {
    if seqs == [] then st
    else Updated(Arrive(st, seqs[..|seqs| - 1]), seqs[|seqs| - 1])
  }

  // A new source stays on probation, with nothing counted, as long as, and only as long as, no
  // two successive packets are numbered in sequence; the first that follows its predecessor
  // starts tracking.
  lemma {:induction false} ProbationLastsIff(st: Stats, seqs: seq<uint16>)
    requires seqs != []
    ensures var now, last := Arrive(OnProbation(st, seqs[0]), seqs), seqs[|seqs| - 1];
            && (!HasSequentialPair(seqs) ==> now.probation == 1 && now.maxSeq == last && now.received == st.received)
            && (HasSequentialPair(seqs) ==> now.probation == 0)
            && (HasSequentialPair(seqs) && !HasSequentialPair(seqs[..|seqs| - 1]) ==> Tracking(now, last, last, 1))
  {
    var n, from := |seqs|, OnProbation(st, seqs[0]);
    if n == 1 {
      assert seqs[..0] == [];
      assert Arrive(from, seqs) == Updated(from, seqs[0]);
    } else {
      ProbationLastsIff(st, seqs[..n - 1]);
      PairAtEnd(seqs);
      assert seqs[..n - 1][n - 2] == seqs[n - 2];
    }
  }

  lemma PairAtEnd(seqs: seq<uint16>)
    requires |seqs| >= 2
    ensures var n := |seqs|;
            HasSequentialPair(seqs) <==> HasSequentialPair(seqs[..n - 1]) || Succeeds(seqs[n - 1], seqs[n - 2])
  {
    var n, before := |seqs|, seqs[..|seqs| - 1];
    assert forall i :: 0 <= i < n - 1 ==> before[i] == seqs[i];
    if HasSequentialPair(before) {
      var i :| 0 <= i < n - 2 && Succeeds(before[i + 1], before[i]);
      assert Succeeds(seqs[i + 1], seqs[i]);
    }
    if Succeeds(seqs[n - 1], seqs[n - 2]) { assert Succeeds(seqs[n - 2 + 1], seqs[n - 2]); }
    if HasSequentialPair(seqs) {
      var i :| 0 <= i < n - 1 && Succeeds(seqs[i + 1], seqs[i]);
      if i < n - 2 { assert Succeeds(before[i + 1], before[i]); }
    }
  }

  // 65535 followed by 0 leaves the source on probation.
  lemma WrapKeepsProbation(st: Stats)
    ensures Arrive(OnProbation(st, 0xFFFF), [0xFFFF, 0]).probation == 1
  {
    assert !HasSequentialPair([0xFFFF, 0]);
    ProbationLastsIff(st, [0xFFFF, 0]);
  }

  // ---- large jumps ----

  // The numbers taken for a jump are those of no packet inside the window, and no others.
  lemma JumpIff(st: Stats, top: nat, seqno: uint16)
    requires st.maxSeq == top % 0x1_0000
    ensures Jump(st, seqno) <==> forall n: int :: InWindow(top, n) ==> Wrap16(n) != seqno
  {
    if Jump(st, seqno) {
      forall n: int | InWindow(top, n) ensures Wrap16(n) != seqno {
        WindowIsModular(st, top, n);
      }
    } else {
      var n := NoJumpInside(st, top, seqno);
      assert InWindow(top, n) && Wrap16(n) == seqno;
    }
  }

  lemma NoJumpInside(st: Stats, top: nat, seqno: uint16) returns (n: int)
    requires st.maxSeq == top % 0x1_0000 && !Jump(st, seqno)
    ensures InWindow(top, n) && Wrap16(n) == seqno
  {
    var a: int := Ahead(st, seqno);
    n := if a < MAX_DROPOUT then top + a else top + a - 0x1_0000;
    AheadReaches(top, st.maxSeq, seqno);
  }

  lemma AheadReaches(top: int, max: uint16, seqno: uint16)
    requires max == top % 0x1_0000
    ensures Wrap16(top + Wrap16(seqno - max)) == seqno && Wrap16(top + Wrap16(seqno - max) - 0x1_0000) == seqno
  {
    assert seqno - max == seqno - top + (top - max);
    assert (top - max) % 0x1_0000 == 0;
  }

  // 3000 to 65436 numbers ahead of the highest: tracking starts over if bad_seq is that number,
  // and otherwise only bad_seq changes.
  lemma OutsideWindow(st: Stats, top: int, d: int)
    requires st.probation == 0 && st.maxSeq == top % 0x1_0000 && 3000 <= d <= 65436
    ensures var s := Wrap16(top + d); var now := Updated(st, s);
            if st.badSeq == s then
              Tracking(now, s, s, 1) && now.badSeq == 0x1_0001 && now.expectedPrior == 1 && now.receivedPrior == 0
            else now == st.(badSeq := Wrap16(top + d + 1))
  {
    AheadBy(top, d, st.maxSeq);
    NextWraps(top + d);
  }

  lemma AheadBy(top: int, d: int, max: uint16)
    requires max == top % 0x1_0000 && 0 <= d < 0x1_0000
    ensures Wrap16(Wrap16(top + d) - max) == d
  {
  }

  lemma NextWraps(x: int)
    ensures (Wrap16(x) + 1) % 0x1_0000 == Wrap16(x + 1)
  {
  }

  // A sender that starts over with two packets in sequence is tracked from the second on (from
  // the first, if an earlier jump announced it).
  lemma RestartedSenderTracked(st: Stats, top: int, d: int)
    requires st.probation == 0 && st.maxSeq == top % 0x1_0000 && 3000 <= d < 65436
    ensures var s, t := Wrap16(top + d), Wrap16(top + d + 1);
            var now := Updated(Updated(st, s), t);
            if st.badSeq == s then Tracking(now, s, s + 1, 2) else Tracking(now, t, t, 1)
  {
    var s: int := Wrap16(top + d);
    OutsideWindow(st, top, d);
    NextWraps(top + d);
    if st.badSeq == s {
      TrackStep(Updated(st, s), s, s, 1, s + 1);
    } else {
      OutsideWindow(Updated(st, s), top, d + 1);
    }
  }

  datatype LastJump = NoJump | Jumped(to: uint16)

  // What a packet does to the memory of the last jump since tracking (re)started.
  function Remembered(st: Stats, last: LastJump, seqno: uint16): LastJump {
    if !Jump(st, seqno) then last
    else if last.Jumped? && seqno == Wrap16(last.to + 1) then NoJump
    else Jumped(seqno)
  }

  function MemoryAfter(st: Stats, last: LastJump, seqs: seq<uint16>): LastJump
    decreases |seqs|
  {
    if seqs == [] then last else MemoryAfter(Updated(st, seqs[0]), Remembered(st, last, seqs[0]), seqs[1..])
  }

  function UpdateSeqs(st: Stats, seqs: seq<uint16>): Stats
    decreases |seqs|
  {
    if seqs == [] then st else UpdateSeqs(Updated(st, seqs[0]), seqs[1..])
  }

  ghost predicate BadSeqIs(st: Stats, last: LastJump) {
    st.probation == 0 && st.badSeq == match last case NoJump => 0x1_0001 case Jumped(s) => Wrap16(s + 1)
  }

  // Over every run, bad_seq stands for the last jump since tracking (re)started.
  lemma {:induction false} BadSeqRemembers(st: Stats, last: LastJump, seqs: seq<uint16>)
    requires BadSeqIs(st, last)
    ensures BadSeqIs(UpdateSeqs(st, seqs), MemoryAfter(st, last, seqs))
    decreases |seqs|
  {
    if seqs != [] { BadSeqRemembers(Updated(st, seqs[0]), Remembered(st, last, seqs[0]), seqs[1..]); }
  }

  // A packet outside the window restarts tracking if and only if the last such packet since
  // the previous (re)start carried the preceding number; otherwise it changes nothing else.
  lemma JumpRestartsIff(st: Stats, last: LastJump, seqno: uint16)
    requires BadSeqIs(st, last) && Jump(st, seqno)
    ensures if last.Jumped? && seqno == Wrap16(last.to + 1)
            then Tracking(Updated(st, seqno), seqno, seqno, 1) && Updated(st, seqno).expectedPrior == 1
            else Updated(st, seqno) == st.(badSeq := Wrap16(seqno + 1))
  {
  }
}
