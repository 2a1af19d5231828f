// A playout list over whole runs: arrivals placed by poadd's walk and deliveries at the tail
// refine a plain set of extended sequence numbers from which the least is taken.
module PlayoutRuns {
  import opened Words
  import opened Sequences
  import opened PlayoutOrder

  // The list as poadd knows it, with the true numbers of its packets.
  datatype Playout = Playout(seqs: seq<uint16>, exts: seq<nat>, cycles: uint32)

  // A packet with true number `ext` added with its true cycle count, or rtp_rm_pkt.
  datatype Op = Arrive(ext: uint32) | Deliver

  const EMPTY: Playout := Playout([], [], 0)

  predicate Paired(s: Playout) { |s.seqs| == |s.exts| }

  ghost predicate Right(s: Playout) { Keyed(s.seqs, s.exts, s.cycles) }

  function Placed(s: Playout, p: nat, x: uint32): Playout
    requires Paired(s) && p <= |s.exts|
  {
    Playout(s.seqs[..p] + [Wrap16(x)] + s.seqs[p..], s.exts[..p] + [x] + s.exts[p..],
            if p == 0 then CycleOf(x) else s.cycles)
  }

  // One step, `wrap` being what poadd subtracts per detected wrap.
  function Step(s: Playout, op: Op, wrap: uint32): (t: Playout)
    requires Paired(s)
    ensures Paired(t)
  {
    match op
    case Arrive(x) =>
      var (p, dup) := Verdict(s.seqs, s.cycles, x, wrap);
      if dup then s else Placed(s, p, x)
    case Deliver =>
      if s.exts == [] then s
      else s.(seqs := s.seqs[..|s.seqs| - 1], exts := s.exts[..|s.exts| - 1])
  }

  // ---- the simple machine ----

  function Numbers(exts: seq<nat>): set<nat> { set e | e in exts }

  function Content(s: Playout): set<nat> { Numbers(s.exts) }

  predicate AboveAnother(w: set<nat>, e: nat) { exists d :: d in w && d < e }

  // An arrival joins the set; a delivery leaves all that is above something else.
  function Wanted(w: set<nat>, op: Op): set<nat> {
    match op
    case Arrive(x) => w + {x}
    case Deliver => set e | e in w && AboveAnother(w, e)
  }

  // The arrival's place is one poadd sees rightly.
  ghost predicate WellSeen(s: Playout, op: Op, wrap: uint32) {
    wrap <= RTP_SEQ_MOD && (op.Arrive? ==> SeenRightly(s.exts, op.ext, wrap))
  }

  lemma StepRefines(s: Playout, op: Op, wrap: uint32)
    requires Right(s) && WellSeen(s, op, wrap)
    ensures Right(Step(s, op, wrap)) && Content(Step(s, op, wrap)) == Wanted(Content(s), op)
    ensures op.Arrive? ==> (Step(s, op, wrap) == s <==> op.ext in s.exts)
  {
    match op {
      case Arrive(x) =>
        VerdictRightIff(s.seqs, s.exts, s.cycles, x, wrap);
        var p := Rank(s.exts, x);
        if x in s.exts {
          assert Step(s, op, wrap) == s;
        } else {
          assert Step(s, op, wrap) == Placed(s, p, x);
          InsertKeepsKeyed(s.seqs, s.exts, s.cycles, x);
          PlacedContent(s.exts, p, x);
        }
      case Deliver =>
        if s.exts != [] {
          RemoveLastKeepsKeyed(s.seqs, s.exts, s.cycles);
          LastIsLeast(s.exts);
        }
    }
  }

  // A packet not yet held is taken in as wanted if and only if its place is seen rightly.
  lemma NewPacketRightIff(s: Playout, x: uint32, wrap: uint32)
    requires Right(s) && wrap <= RTP_SEQ_MOD && x !in s.exts
    ensures var t := Step(s, Arrive(x), wrap);
            Right(t) && Content(t) == Content(s) + {x} <==> SeenRightly(s.exts, x, wrap)
  {
    var t := Step(s, Arrive(x), wrap);
    var (p, dup) := Verdict(s.seqs, s.cycles, x, wrap);
    VerdictRightIff(s.seqs, s.exts, s.cycles, x, wrap);
    if SeenRightly(s.exts, x, wrap) {
      StepRefines(s, Arrive(x), wrap);
    } else if Right(t) && Content(t) == Content(s) + {x} {
      assert x in Content(t);
      assert !dup;
      OnlyPlace(s.exts, p, x);
      assert false;
    }
  }

  lemma OnlyPlace(exts: seq<nat>, p: nat, x: nat)
    requires p <= |exts| && Decreasing(exts[..p] + [x] + exts[p..])
    ensures Rank(exts, x) == p
  {
    var all := exts[..p] + [x] + exts[p..];
    assert all[p] == x;
    forall k | 0 <= k < p ensures exts[k] > x { assert all[k] == exts[k]; }
    if p < |exts| { assert all[p + 1] == exts[p]; }
  }

  lemma PlacedContent(exts: seq<nat>, p: nat, x: nat)
    requires p <= |exts|
    ensures Numbers(exts[..p] + [x] + exts[p..]) == Numbers(exts) + {x}
    ensures |exts[..p] + [x] + exts[p..]| == |exts| + 1
  {
    assert exts == exts[..p] + exts[p..];
  }

  lemma LastIsLeast(exts: seq<nat>)
    requires Decreasing(exts) && exts != []
    ensures forall e :: e in Numbers(exts[..|exts| - 1]) <==> e in Numbers(exts) && AboveAnother(Numbers(exts), e)
  {
    var last := |exts| - 1;
    forall e | e in exts[..last] ensures e in exts && AboveAnother(Numbers(exts), e) {
      var i :| 0 <= i < last && exts[i] == e;
      assert exts[last] in Numbers(exts);
    }
    forall e | e in exts && AboveAnother(Numbers(exts), e) ensures e in exts[..last] {
      var i :| 0 <= i < |exts| && exts[i] == e;
      var d :| d in Numbers(exts) && d < e;
      var j :| 0 <= j < |exts| && exts[j] == d;
      assert i < last;
      assert exts[..last][i] == e;
    }
  }

  // ---- runs ----

  function Run(s: Playout, ops: seq<Op>, wrap: uint32): (t: Playout)
    requires Paired(s)
    ensures Paired(t)
    decreases |ops|
  {
    if ops == [] then s else Run(Step(s, ops[0], wrap), ops[1..], wrap)
  }

  function WantedRun(w: set<nat>, ops: seq<Op>): set<nat>
    decreases |ops|
  {
    if ops == [] then w else WantedRun(Wanted(w, ops[0]), ops[1..])
  }

  // Every arrival of the run is seen rightly by the list it comes to.
  ghost predicate SeenThroughout(s: Playout, ops: seq<Op>, wrap: uint32)
    requires Paired(s)
    decreases |ops|
  {
    ops != [] ==> WellSeen(s, ops[0], wrap) && SeenThroughout(Step(s, ops[0], wrap), ops[1..], wrap)
  }

  // Over every such run, across every wrap below 2^32, the list is ordered by true number and
  // holds exactly the numbers the simple machine holds.
  lemma {:induction false} RunRefines(s: Playout, ops: seq<Op>, wrap: uint32)
    requires Right(s) && SeenThroughout(s, ops, wrap)
    ensures Right(Run(s, ops, wrap)) && Content(Run(s, ops, wrap)) == WantedRun(Content(s), ops)
    decreases |ops|
  {
    if ops != [] {
      StepRefines(s, ops[0], wrap);
      RunRefines(Step(s, ops[0], wrap), ops[1..], wrap);
    }
  }

  // The numbers a run delivers.
  function Delivered(s: Playout, ops: seq<Op>, wrap: uint32): seq<nat>
    requires Paired(s)
    decreases |ops|
  {
    if ops == [] then []
    else
      (if ops[0].Deliver? && s.exts != [] then [s.exts[|s.exts| - 1]] else []) +
      Delivered(Step(s, ops[0], wrap), ops[1..], wrap)
  }

  // No packet arrives from at or below `floor`, or below what was delivered before it.
  predicate NoneLate(s: Playout, floor: int, ops: seq<Op>, wrap: uint32)
    requires Paired(s)
    decreases |ops|
  {
    ops != [] ==>
      match ops[0]
      case Arrive(x) => floor < x && NoneLate(Step(s, ops[0], wrap), floor, ops[1..], wrap)
      case Deliver =>
        NoneLate(Step(s, ops[0], wrap), if s.exts == [] then floor else s.exts[|s.exts| - 1], ops[1..], wrap)
  }

  predicate Above(floor: int, es: seq<nat>) { forall k :: 0 <= k < |es| ==> floor < es[k] }

  // Without late packets the run delivers in strictly increasing order, whatever the order
  // of arrival in between.
  lemma {:induction false} RunDeliversInOrder(s: Playout, floor: int, ops: seq<Op>, wrap: uint32)
    requires Right(s) && SeenThroughout(s, ops, wrap) && NoneLate(s, floor, ops, wrap) && Above(floor, s.exts)
    ensures Increasing(Delivered(s, ops, wrap)) && Above(floor, Delivered(s, ops, wrap))
    decreases |ops|
  {
    if ops != [] {
      var t := Step(s, ops[0], wrap);
      StepRefines(s, ops[0], wrap);
      if ops[0].Deliver? && s.exts != [] {
        var d, rest := s.exts[|s.exts| - 1], Delivered(t, ops[1..], wrap);
        assert Above(d, t.exts);
        RunDeliversInOrder(t, d, ops[1..], wrap);
        assert Delivered(s, ops, wrap) == [d] + rest;
        assert Above(floor, s.exts) && floor < d;
      } else {
        StillAbove(s, floor, ops[0], wrap);
        RunDeliversInOrder(t, floor, ops[1..], wrap);
        assert Delivered(s, ops, wrap) == [] + Delivered(t, ops[1..], wrap);
      }
    }
  }

  lemma StillAbove(s: Playout, floor: int, op: Op, wrap: uint32)
    requires Right(s) && Above(floor, s.exts) && (op.Arrive? ==> floor < op.ext)
    requires Content(Step(s, op, wrap)) == Wanted(Content(s), op)
    ensures Above(floor, Step(s, op, wrap).exts)
  {
    var t := Step(s, op, wrap);
    forall k | 0 <= k < |t.exts| ensures floor < t.exts[k] {
      var e := t.exts[k];
      assert e in Content(t);
      assert e in Content(s) || (op.Arrive? && e == op.ext);
    }
  }

  // From an empty list.
  lemma FromEmpty(ops: seq<Op>, wrap: uint32)
    requires SeenThroughout(EMPTY, ops, wrap)
    ensures Right(Run(EMPTY, ops, wrap)) && Content(Run(EMPTY, ops, wrap)) == WantedRun({}, ops)
    ensures NoneLate(EMPTY, -1, ops, wrap) ==> Increasing(Delivered(EMPTY, ops, wrap))
  {
    assert Content(EMPTY) == {};
    RunRefines(EMPTY, ops, wrap);
    if NoneLate(EMPTY, -1, ops, wrap) { RunDeliversInOrder(EMPTY, -1, ops, wrap); }
  }
}
