// The arithmetic of poadd: how the head-to-tail walk rebuilds extended sequence numbers
// across wraps of the 16-bit RTP sequence number, and where it stops.
module PlayoutOrder {
  import opened Words

  const SEQ_MAX_JUMP: int := 0xF000
  // What the walk subtracts per detected wrap, as the source has it. The tracker that
  // supplies the cycle counts advances them by RTP_SEQ_MOD.
  const SEQ_MAX_NUMBER: uint32 := 0x1000
  // Neighbours this close across a wrap are recognised by the SEQ_MAX_JUMP test.
  const WRAP_REACH: int := 0x1000

  // Where the walk stops when it is at position k with cycle count r and looks for x, and
  // the cycle count it has then. `step` is the value subtracted per detected wrap.
  function Landing(seqs: seq<uint16>, k: nat, r: uint32, x: uint32, step: uint32): (res: (nat, uint32))
    requires k <= |seqs|
    ensures k <= res.0 <= |seqs|
    decreases |seqs| - k
  {
    if k == |seqs| || Wrap32(seqs[k] + r) <= x then (k, r)
    else Landing(seqs, k + 1, NextCycles(seqs, k, r, step), x, step)
  }

  function NextCycles(seqs: seq<uint16>, k: nat, r: uint32, step: uint32): uint32
    requires k < |seqs|
  {
    if k + 1 < |seqs| && seqs[k + 1] - seqs[k] >= SEQ_MAX_JUMP then Wrap32(r - step) else r
  }

  // The walk's verdict: stop position and whether the packet is a duplicate.
  function Verdict(seqs: seq<uint16>, cycles: uint32, x: uint32, step: uint32): (nat, bool) {
    var (p, r) := Landing(seqs, 0, cycles, x, step);
    (p, p < |seqs| && Wrap32(seqs[p] + r) == x)
  }

  // ---- what the walk is meant to compute ----

  function CycleOf(ext: nat): nat { ext - ext % 0x1_0000 }

  ghost predicate Decreasing(exts: seq<nat>) {
    forall i, j :: 0 <= i < j < |exts| ==> exts[i] > exts[j]
  }

  // `exts` are the true extended numbers of a list whose packets carry `seqs` and whose
  // recorded cycle count is `cycles`.
  ghost predicate Keyed(seqs: seq<uint16>, exts: seq<nat>, cycles: uint32) {
    && |seqs| == |exts|
    && Decreasing(exts)
    && (forall k :: 0 <= k < |exts| ==> exts[k] < TWO_32 && exts[k] % 0x1_0000 == seqs[k])
    && (exts != [] ==> cycles == CycleOf(exts[0]))
  }

  // Number of list members above x: the position x belongs at.
  function Rank(exts: seq<nat>, x: nat): (p: nat)
    ensures p <= |exts|
    ensures forall k :: 0 <= k < p ==> exts[k] > x
    ensures p < |exts| ==> exts[p] <= x
  {
    if exts == [] || exts[0] <= x then 0 else
      var q := Rank(exts[1..], x);
      assert forall k :: 0 < k < q + 1 ==> exts[k] == exts[1..][k - 1];
      q + 1
  }

  // What passing from a to its successor b adds to the walk's error: the cycles in between,
  // less the step if the jump test fires.
  function Missed(a: nat, b: nat, step: uint32): int {
    CycleOf(a) - CycleOf(b) - if b % 0x1_0000 - a % 0x1_0000 >= SEQ_MAX_JUMP then step else 0
  }

  // By how much the walk overestimates position k.
  function Excess(exts: seq<nat>, k: nat, step: uint32): int
    requires k < |exts|
  {
    if k == 0 then 0 else Excess(exts, k - 1, step) + Missed(exts[k - 1], exts[k], step)
  }

  lemma MissedUpward(a: nat, b: nat, step: uint32)
    requires a > b && step <= 0x1_0000
    ensures Missed(a, b, step) >= 0
  {
  }

  lemma {:induction false} NeverTooLow(exts: seq<nat>, k: nat, step: uint32)
    requires Decreasing(exts) && k < |exts| && step <= 0x1_0000
    ensures Excess(exts, k, step) >= 0
  {
    if k > 0 {
      NeverTooLow(exts, k - 1, step);
      MissedUpward(exts[k - 1], exts[k], step);
    }
  }

  // The condition under which poadd places x rightly: the first member not above x is
  // there, is seen at its true number, or is seen too high but still below x.
  ghost predicate SeenRightly(exts: seq<nat>, x: nat, step: uint32) {
    var p := Rank(exts, x);
    p < |exts| ==> Excess(exts, p, step) == 0 || exts[p] + Excess(exts, p, step) < x
  }

  // ---- the walk against its meaning ----

  // The cycle count the walk holds at position k, and the number it sees there.
  function CyclesAt(exts: seq<nat>, k: nat, step: uint32): int
    requires k < |exts|
  {
    CycleOf(exts[k]) + Excess(exts, k, step)
  }

  function SeenAt(exts: seq<nat>, k: nat, step: uint32): int
    requires k < |exts|
  {
    exts[k] + Excess(exts, k, step)
  }

  lemma CyclesBounded(seqs: seq<uint16>, exts: seq<nat>, cycles: uint32, k: nat, step: uint32)
    requires Keyed(seqs, exts, cycles) && k < |exts| && step <= 0x1_0000
    ensures 0 <= CyclesAt(exts, k, step) <= cycles
    ensures CyclesAt(exts, k, step) + seqs[k] == SeenAt(exts, k, step)
    ensures exts[k] <= SeenAt(exts, k, step) < TWO_32
  {
    NeverTooLow(exts, k, step);
    CyclesFall(seqs, exts, cycles, k, step);
    CycleRoom(exts[0]);
  }

  lemma {:induction false} CyclesFall(seqs: seq<uint16>, exts: seq<nat>, cycles: uint32, k: nat, step: uint32)
    requires Keyed(seqs, exts, cycles) && k < |exts|
    ensures CyclesAt(exts, k, step) <= cycles
  {
    if k > 0 {
      CyclesFall(seqs, exts, cycles, k - 1, step);
      JumpSeen(seqs, exts, cycles, k - 1, step);
    }
  }

  lemma CycleRoom(ext: nat)
    requires ext < TWO_32
    ensures CycleOf(ext) + 0x1_0000 <= TWO_32
  {
  }

  // One step of the walk takes the cycle count it holds to the next one.
  lemma JumpSeen(seqs: seq<uint16>, exts: seq<nat>, cycles: uint32, k: nat, step: uint32)
    requires Keyed(seqs, exts, cycles) && k + 1 < |exts|
    ensures CyclesAt(exts, k + 1, step) ==
            CyclesAt(exts, k, step) - if seqs[k + 1] - seqs[k] >= SEQ_MAX_JUMP then step else 0
  {
    assert seqs[k] == exts[k] % 0x1_0000 && seqs[k + 1] == exts[k + 1] % 0x1_0000;
  }

  // The walk holds cycle count held[k] at position k and sees the number seen[k] there.
  ghost predicate Tracks(seqs: seq<uint16>, held: seq<uint32>, seen: seq<uint32>, k: nat, step: uint32)
    requires |seqs| == |held| == |seen| && k < |seqs|
  {
    && held[k] + seqs[k] == seen[k]
    && (k + 1 < |seqs| ==> NextCycles(seqs, k, held[k], step) == held[k + 1])
  }

  lemma {:induction false} WalkFrom(seqs: seq<uint16>, held: seq<uint32>, seen: seq<uint32>, k: nat, x: uint32,
                                    step: uint32)
    requires |seqs| == |held| == |seen| && k < |seqs|
    requires forall j :: 0 <= j < |seqs| ==> Tracks(seqs, held, seen, j, step)
    ensures var (p, r) := Landing(seqs, k, held[k], x, step);
            && (forall j :: k <= j < p ==> seen[j] > x)
            && (p < |seqs| ==> r == held[p] && Wrap32(seqs[p] + r) == seen[p] <= x)
    decreases |seqs| - k
  {
    assert Tracks(seqs, held, seen, k, step);
    assert Wrap32(seqs[k] + held[k]) == seen[k];
    if seen[k] > x && k + 1 < |seqs| {
      WalkFrom(seqs, held, seen, k + 1, x, step);
    }
  }

  lemma StepTracks(seqs: seq<uint16>, exts: seq<nat>, cycles: uint32, k: nat, step: uint32)
    requires Keyed(seqs, exts, cycles) && k < |exts| && step <= 0x1_0000
    ensures 0 <= CyclesAt(exts, k, step) < TWO_32 && 0 <= SeenAt(exts, k, step) < TWO_32
    ensures CyclesAt(exts, k, step) + seqs[k] == SeenAt(exts, k, step)
    ensures k + 1 < |exts| ==> NextCycles(seqs, k, CyclesAt(exts, k, step), step) == CyclesAt(exts, k + 1, step)
  {
    CyclesBounded(seqs, exts, cycles, k, step);
    if k + 1 < |exts| {
      CyclesBounded(seqs, exts, cycles, k + 1, step);
      JumpSeen(seqs, exts, cycles, k, step);
    }
  }

  lemma WalkTracks(seqs: seq<uint16>, exts: seq<nat>, cycles: uint32, step: uint32)
      returns (held: seq<uint32>, seen: seq<uint32>)
    requires Keyed(seqs, exts, cycles) && step <= 0x1_0000
    ensures |held| == |seen| == |exts|
    ensures forall k :: 0 <= k < |exts| ==> held[k] == CyclesAt(exts, k, step) && seen[k] == SeenAt(exts, k, step)
    ensures forall k :: 0 <= k < |exts| ==> Tracks(seqs, held, seen, k, step)
  {
    forall k: nat | k < |exts| ensures 0 <= CyclesAt(exts, k, step) <= SeenAt(exts, k, step) < TWO_32 {
      CyclesBounded(seqs, exts, cycles, k, step);
    }
    held := seq(|exts|, k requires 0 <= k < |exts| => CyclesAt(exts, k, step));
    seen := seq(|exts|, k requires 0 <= k < |exts| => SeenAt(exts, k, step));
    forall k: nat | k < |exts| ensures Tracks(seqs, held, seen, k, step) {
      StepTracks(seqs, exts, cycles, k, step);
    }
  }

  // The walk stops at the first position it sees at or below x.
  lemma WalkStops(seqs: seq<uint16>, exts: seq<nat>, cycles: uint32, x: uint32, step: uint32)
    requires Keyed(seqs, exts, cycles) && step <= 0x1_0000
    ensures var (p, dup) := Verdict(seqs, cycles, x, step);
            && p <= |exts|
            && (forall j :: 0 <= j < p ==> SeenAt(exts, j, step) > x)
            && (p < |exts| ==> exts[p] <= SeenAt(exts, p, step) <= x)
            && (dup <==> p < |exts| && SeenAt(exts, p, step) == x)
  {
    if exts != [] {
      var held, seen := WalkTracks(seqs, exts, cycles, step);
      WalkFrom(seqs, held, seen, 0, x, step);
      var p := Verdict(seqs, cycles, x, step).0;
      if p < |exts| { NeverTooLow(exts, p, step); }
    }
  }

  lemma RankFindsMember(exts: seq<nat>, x: nat)
    requires Decreasing(exts)
    ensures var p := Rank(exts, x); x in exts <==> p < |exts| && exts[p] == x
  {
  }

  // For every list and every step up to 2^16: the walk finds x's position and reports a
  // duplicate exactly when x is present, if and only if x's successor is seen rightly.
  lemma VerdictRightIff(seqs: seq<uint16>, exts: seq<nat>, cycles: uint32, x: uint32, step: uint32)
    requires Keyed(seqs, exts, cycles) && step <= 0x1_0000
    ensures Verdict(seqs, cycles, x, step) == (Rank(exts, x), x in exts) <==> SeenRightly(exts, x, step)
  {
    RankFindsMember(exts, x);
    WalkStops(seqs, exts, cycles, x, step);
    var p := Rank(exts, x);
    if p < |exts| {
      NeverTooLow(exts, p, step);
      assert SeenAt(exts, p, step) == exts[p] + Excess(exts, p, step);
    }
    forall j | 0 <= j < p ensures SeenAt(exts, j, step) > x { NeverTooLow(exts, j, step); }
  }

  // ---- which lists are handled rightly whatever arrives ----

  // Neighbours on both sides of a wrap are at most WRAP_REACH apart.
  ghost predicate CloseAcrossWraps(exts: seq<nat>) {
    forall k :: 0 <= k < |exts| - 1 && CycleOf(exts[k]) != CycleOf(exts[k + 1]) ==>
      exts[k] - exts[k + 1] <= WRAP_REACH
  }

  ghost predicate OneCycle(exts: seq<nat>) {
    forall j :: 0 <= j < |exts| ==> CycleOf(exts[j]) == CycleOf(exts[0])
  }

  // A step of 2^16 on a list that is close across wraps, or any smaller one inside one cycle.
  ghost predicate Fit(exts: seq<nat>, step: uint32) {
    step <= RTP_SEQ_MOD && (OneCycle(exts) || (step == RTP_SEQ_MOD && CloseAcrossWraps(exts)))
  }

  // The jump test fires exactly at a wrap between such neighbours, and never inside a cycle.
  lemma WrapSeen(a: nat, b: nat)
    requires a > b && (CycleOf(a) != CycleOf(b) ==> a - b <= WRAP_REACH)
    ensures CycleOf(a) == CycleOf(b) || CycleOf(a) == CycleOf(b) + 0x1_0000
    ensures b % 0x1_0000 - a % 0x1_0000 >= SEQ_MAX_JUMP <==> CycleOf(a) != CycleOf(b)
  {
  }

  lemma {:induction false} FitHasNoExcess(exts: seq<nat>, k: nat, step: uint32)
    requires Decreasing(exts) && Fit(exts, step) && k < |exts|
    ensures Excess(exts, k, step) == 0
  {
    if k > 0 {
      FitHasNoExcess(exts, k - 1, step);
      assert exts[k - 1] > exts[k];
      assert CycleOf(exts[k - 1]) != CycleOf(exts[k - 1 + 1]) ==> exts[k - 1] - exts[k - 1 + 1] <= WRAP_REACH;
      WrapSeen(exts[k - 1], exts[k]);
    }
  }

  lemma FitSeesRightly(exts: seq<nat>, x: nat, step: uint32)
    requires Decreasing(exts) && Fit(exts, step)
    ensures SeenRightly(exts, x, step)
  {
    var p := Rank(exts, x);
    if p < |exts| { FitHasNoExcess(exts, p, step); }
  }

  lemma FitIsRight(seqs: seq<uint16>, exts: seq<nat>, cycles: uint32, x: uint32, step: uint32)
    requires Keyed(seqs, exts, cycles) && Fit(exts, step)
    ensures Verdict(seqs, cycles, x, step) == (Rank(exts, x), x in exts)
  {
    FitSeesRightly(exts, x, step);
    VerdictRightIff(seqs, exts, cycles, x, step);
  }

  // With a step of 2^16 the walk reconstructs every true number of a list close across wraps.
  lemma FullStepRightWhenClose(seqs: seq<uint16>, exts: seq<nat>, cycles: uint32, x: uint32)
    requires Keyed(seqs, exts, cycles) && CloseAcrossWraps(exts)
    ensures Verdict(seqs, cycles, x, RTP_SEQ_MOD) == (Rank(exts, x), x in exts)
  {
    FitIsRight(seqs, exts, cycles, x, RTP_SEQ_MOD);
  }

  // On a wider gap even that step fails: 0x10003 belongs between 0x10005 and 0xE000.
  lemma FullStepWrongOnWideGap()
    ensures var seqs: seq<uint16>, exts: seq<nat> := [5, 0xE000], [0x1_0005, 0xE000];
            && Keyed(seqs, exts, 0x1_0000)
            && Rank(exts, 0x1_0003) == 1
            && Verdict(seqs, 0x1_0000, 0x1_0003, RTP_SEQ_MOD) == (2, false)
  {
    var seqs: seq<uint16>, exts: seq<nat> := [5, 0xE000], [0x1_0005, 0xE000];
    assert exts[1] == 0xE000;
    assert Excess(exts, 0, RTP_SEQ_MOD) == 0;
    assert Excess(exts, 1, RTP_SEQ_MOD) == 0x1_0000;
    assert SeenAt(exts, 0, RTP_SEQ_MOD) == 0x1_0005 && SeenAt(exts, 1, RTP_SEQ_MOD) == 0x1_E000;
    WalkStops(seqs, exts, 0x1_0000, 0x1_0003, RTP_SEQ_MOD);
  }

  // With the step as written, a list inside one cycle is handled rightly for every x ...
  lemma AsWrittenRightInOneCycle(seqs: seq<uint16>, exts: seq<nat>, cycles: uint32, x: uint32)
    requires Keyed(seqs, exts, cycles) && OneCycle(exts)
    ensures Verdict(seqs, cycles, x, SEQ_MAX_NUMBER) == (Rank(exts, x), x in exts)
  {
    FitIsRight(seqs, exts, cycles, x, SEQ_MAX_NUMBER);
  }

  // ... but across a wrap it is not: 65536 belongs between 65537 and 65535 and is put last.
  lemma AsWrittenWrongAcrossWrap()
    ensures var seqs: seq<uint16>, exts: seq<nat> := [1, 0xFFFF], [0x1_0001, 0xFFFF];
            && Keyed(seqs, exts, 0x1_0000)
            && Rank(exts, 0x1_0000) == 1
            && Verdict(seqs, 0x1_0000, 0x1_0000, SEQ_MAX_NUMBER) == (2, false)
  {
    var seqs: seq<uint16>, exts: seq<nat> := [1, 0xFFFF], [0x1_0001, 0xFFFF];
    assert exts[1] == 0xFFFF;
    assert Excess(exts, 0, SEQ_MAX_NUMBER) == 0;
    assert Excess(exts, 1, SEQ_MAX_NUMBER) == 0xF000;
    assert SeenAt(exts, 0, SEQ_MAX_NUMBER) == 0x1_0001 && SeenAt(exts, 1, SEQ_MAX_NUMBER) == 0x1_EFFF;
    WalkStops(seqs, exts, 0x1_0000, 0x1_0000, SEQ_MAX_NUMBER);
  }

  // Inserting at the rank keeps the list strictly decreasing, and makes x the head exactly
  // when it is a new maximum.
  lemma InsertKeepsDecreasing(exts: seq<nat>, x: nat)
    requires Decreasing(exts) && x !in exts
    ensures var p := Rank(exts, x); Decreasing(exts[..p] + [x] + exts[p..])
    ensures Rank(exts, x) == 0 <==> forall k :: 0 <= k < |exts| ==> exts[k] < x
  {
    var p := Rank(exts, x);
    RankFindsMember(exts, x);
    assert forall j :: p <= j < |exts| ==> exts[j] <= exts[p];
    PlacedDecreasing(exts, p, x);
  }

  lemma PlacedDecreasing(exts: seq<nat>, p: nat, x: nat)
    requires Decreasing(exts) && p <= |exts|
    requires forall k :: 0 <= k < |exts| ==> if k < p then exts[k] > x else exts[k] < x
    ensures Decreasing(exts[..p] + [x] + exts[p..])
  {
    var all := exts[..p] + [x] + exts[p..];
    forall i, j | 0 <= i < j < |all| ensures all[i] > all[j] {
      assert all[i] == if i < p then exts[i] else if i == p then x else exts[i - 1];
      assert all[j] == if j < p then exts[j] else if j == p then x else exts[j - 1];
    }
  }

  lemma InsertKeepsKeyed(seqs: seq<uint16>, exts: seq<nat>, cycles: uint32, x: uint32)
    requires Keyed(seqs, exts, cycles) && x !in exts
    ensures var p := Rank(exts, x);
            Keyed(seqs[..p] + [Wrap16(x)] + seqs[p..], exts[..p] + [x] + exts[p..],
                  if p == 0 then CycleOf(x) else cycles)
  {
    InsertKeepsDecreasing(exts, x);
  }

  lemma RemoveLastKeepsKeyed(seqs: seq<uint16>, exts: seq<nat>, cycles: uint32)
    requires Keyed(seqs, exts, cycles) && exts != []
    ensures Keyed(seqs[..|seqs| - 1], exts[..|exts| - 1], cycles)
  {
  }
}
