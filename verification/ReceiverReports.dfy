// Receiver reports (src/rtcp/rtcp_report.c; section 6.4 and Appendix A.3 of RFC 3550).
module ReceiverReports {
  import opened Words
  import opened SeqTracker

  datatype Block = Block(ssrc: uint32, fraction: byte, lost: int, lastSeq: uint32)

  // ---- one report block ----

  function Expected(st: Stats): uint32 { Wrap32(st.cycles + st.maxSeq - st.baseSeq + 1) }

  function ExpectedInterval(st: Stats): uint32 { Wrap32(Expected(st) - st.expectedPrior) }

  function ReceivedInterval(st: Stats): uint32 { Wrap32(st.received - st.receivedPrior) }

  function LostInterval(st: Stats): uint32 { Wrap32(ExpectedInterval(st) - ReceivedInterval(st)) }

  // The comparison with zero is unsigned, so only an exact zero is caught.
  function Fraction(expected: uint32, lost: uint32): byte {
    if expected == 0 || lost == 0 then 0 else Wrap32(lost * 0x100) / expected % 0x100
  }

  // A uint32_t read as an int32_t.
  function Signed32(x: uint32): int { if x < 0x8000_0000 then x else x - 0x1_0000_0000 }

  function Clamp(x: int): int {
    if x < -0x80_0000 then -0x80_0000 else if x > 0x7f_ffff then 0x7f_ffff else x
  }

  predicate HasNews(st: Stats) { st.receivedPrior != st.received }

  function BlockOf(ssrc: uint32, st: Stats): Block {
    Block(ssrc, Fraction(ExpectedInterval(st), LostInterval(st)),
          Clamp(Signed32(Wrap32(Expected(st) - st.received - 1))), Wrap32(st.cycles + st.maxSeq))
  }

  function Reported(st: Stats): Stats {
    if HasNews(st) then st.(expectedPrior := Expected(st), receivedPrior := st.received) else st
  }

  // ---- the loop of rtcp_build_rr ----

  // The blocks for the first n sources: one for each that has news.
  function Blocks(ids: seq<uint32>, sts: seq<Stats>, n: nat): seq<Block>
    requires n <= |ids| == |sts|
  {
    if n == 0 then []
    else Blocks(ids, sts, n - 1) + News(ids[n - 1], sts[n - 1])
  }

  function News(id: uint32, st: Stats): seq<Block> {
    if HasNews(st) then [BlockOf(id, st)] else []
  }

  // The sources that sent packets since the last report, in order.
  function WithPackets(ids: seq<uint32>, sts: seq<Stats>, n: nat): seq<uint32>
    requires n <= |ids| == |sts|
  {
    if n == 0 then []
    else WithPackets(ids, sts, n - 1) + if ReceivedInterval(sts[n - 1]) > 0 then [ids[n - 1]] else []
  }

  // A report holds one block for each of them and no other.
  lemma {:induction false} BlocksForPackets(ids: seq<uint32>, sts: seq<Stats>, n: nat)
    requires n <= |ids| == |sts|
    ensures var bs, with := Blocks(ids, sts, n), WithPackets(ids, sts, n);
            |bs| == |with| && forall k :: 0 <= k < |bs| ==> bs[k].ssrc == with[k]
  {
    if n > 0 {
      BlocksForPackets(ids, sts, n - 1);
      NewsArrived(sts[n - 1]);
    }
  }

  lemma BlocksStep(ids: seq<uint32>, sts: seq<Stats>, k: nat, before: seq<Block>, news: seq<Block>)
    requires k < |ids| == |sts|
    requires before == Blocks(ids, sts, k) && news == News(ids[k], sts[k])
    ensures before + news == Blocks(ids, sts, k + 1)
  {
  }

  method WriteFraction(expectedInterval: uint32, lostInterval: uint32) returns (fraction: byte)
    ensures fraction == Fraction(expectedInterval, lostInterval)
  {
    fraction := 0;
    if !(expectedInterval == 0 || lostInterval <= 0) {
      fraction := Wrap32(lostInterval * 0x100) / expectedInterval % 0x100;
    }
  }

  // The cumulative loss between the limits of 24 signed bits
  method WriteLost(cumulative: uint32) returns (lost: int)
    ensures lost == Clamp(Signed32(cumulative))
  {
    lost := Signed32(cumulative);
    lost := if lost < 0x7f_ffff then lost else 0x7f_ffff;
    lost := if lost > -0x80_0000 then lost else -0x80_0000;
  }

  // The interval since the last report; the figures become the priors of the next.
  method TakeInterval(src: SsrcStats, ghost st: Stats)
    returns (expected: uint32, expectedInterval: uint32, lostInterval: uint32)
    requires src.View() == st && HasNews(st)
    modifies src`expectedPrior, src`receivedPrior
    ensures expected == Expected(st) && expectedInterval == ExpectedInterval(st) && lostInterval == LostInterval(st)
    ensures src.View() == Reported(st)
  {
    expected := Wrap32(src.cycles + src.maxSeq - src.baseSeq + 1);
    expectedInterval := Wrap32(expected - src.expectedPrior);
    src.expectedPrior := expected;
    var receivedInterval: uint32 := Wrap32(src.received - src.receivedPrior);
    src.receivedPrior := src.received;
    lostInterval := Wrap32(expectedInterval - receivedInterval);
  }

  // The part of rtcp_build_rr that handles one source.
  method BuildBlock(src: SsrcStats, ghost st: Stats) returns (rr: Block)
    requires src.View() == st && HasNews(st)
    modifies src
    ensures rr == BlockOf(src.ssrc, st) && src.View() == Reported(st)
  {
    var expected, expectedInterval, lostInterval := TakeInterval(src, st);
    var fraction := WriteFraction(expectedInterval, lostInterval);
    var lost := WriteLost(Wrap32(expected - src.received - 1));
    rr := Block(src.ssrc, fraction, lost, Wrap32(src.cycles + src.maxSeq));
  }

  method BuildNews(src: SsrcStats, ghost st: Stats) returns (rrs: seq<Block>)
    requires src.View() == st
    modifies src
    ensures rrs == News(src.ssrc, st) && src.View() == Reported(st)
  {
    rrs := [];
    if src.receivedPrior != src.received {
      var rr := BuildBlock(src, st);
      rrs := [rr];
    }
  }

  // The loop of rtcp_build_rr over the session's sources. Its check for space in the packet
  // compares a length that stays 0 in the loop, so it never stops it. `ids` and `sts` are the
  // sources' identifiers and statistics before the call.
  method BuildBlocks(srcs: seq<SsrcStats>, ghost ids: seq<uint32>, ghost sts: seq<Stats>) returns (blocks: seq<Block>)
    requires forall j, k :: 0 <= j < k < |srcs| ==> srcs[j] != srcs[k]
    requires |ids| == |sts| == |srcs|
    requires forall k :: 0 <= k < |srcs| ==> ids[k] == srcs[k].ssrc && sts[k] == srcs[k].View()
    modifies srcs
    ensures blocks == Blocks(ids, sts, |srcs|)
    ensures forall k :: 0 <= k < |srcs| ==> srcs[k].View() == Reported(sts[k])
  {
    blocks := [];
    var k := 0;
    while k < |srcs|
      invariant k <= |srcs|
      invariant blocks == Blocks(ids, sts, k)
      invariant forall j :: 0 <= j < k ==> srcs[j].View() == Reported(sts[j])
      invariant forall j :: k <= j < |srcs| ==> srcs[j].View() == sts[j]
    {
      var news := BuildNews(srcs[k], sts[k]);
      BlocksStep(ids, sts, k, blocks, news);
      blocks := blocks + news;
      k := k + 1;
    }
  }

  // The header's report counter is a 5-bit field incremented once per block, and the length
  // returned is derived from it: both are right exactly when fewer than 32 blocks are written.
  method WriteHeader(blocks: seq<Block>) returns (count: nat, words: nat)
    ensures count == |blocks| <==> |blocks| < 32
    ensures words == 6 * |blocks| + 2 <==> |blocks| < 32
    ensures |blocks| == 32 ==> count == 0 && words == 2
  {
    var k := 0;
    count := 0;
    while k < |blocks|
      invariant 0 <= k <= |blocks| && count == k % 32
    {
      count := (count + 1) % 32;
      k := k + 1;
    }
    words := count * 6 + 2;
  }

  // ---- loss accounting over a run ----

  datatype Event = Packet(seqno: uint16) | Report

  // An arrival that makes rtp_update_seq start over.
  predicate Restarts(st: Stats, e: Event) {
    e.Packet? && (st.probation != 0 || (Jump(st, e.seqno) && e.seqno == st.badSeq))
  }

  function Next(st: Stats, e: Event): Stats {
    match e case Packet(s) => Updated(st, s) case Report => Reported(st)
  }

  function Play(st: Stats, events: seq<Event>): Stats
    decreases |events|
  {
    if events == [] then st else Play(Next(st, events[0]), events[1..])
  }

  predicate NoRestart(st: Stats, events: seq<Event>)
    decreases |events|
  {
    events != [] ==> !Restarts(st, events[0]) && NoRestart(Next(st, events[0]), events[1..])
  }

  // The lost_interval an event reports, and the sum over a run.
  function LostBy(st: Stats, e: Event): nat {
    if e.Report? && HasNews(st) then LostInterval(st) else 0
  }

  function SumLost(st: Stats, events: seq<Event>): nat
    decreases |events|
  {
    if events == [] then 0 else LostBy(st, events[0]) + SumLost(Next(st, events[0]), events[1..])
  }

  // Packets missing according to the figures of the last report.
  function PriorLoss(st: Stats): int { st.expectedPrior - st.receivedPrior }

  lemma OneInterval(st: Stats, e: Event)
    requires !Restarts(st, e)
    ensures Wrap32(LostBy(st, e)) == Wrap32(PriorLoss(Next(st, e)) - PriorLoss(st))
  {
    if e.Report? {
      if HasNews(st) { IntervalWraps(Expected(st), st.expectedPrior, st.received, st.receivedPrior); }
    } else {
      NoInterval(st, e.seqno);
    }
  }

  // Packets leave the figures of the last report alone.
  lemma NoInterval(st: Stats, seqno: uint16)
    requires !Restarts(st, Packet(seqno))
    ensures PriorLoss(Updated(st, seqno)) == PriorLoss(st)
  {
  }

  lemma IntervalWraps(e: int, ep: int, r: int, rp: int)
    ensures Wrap32(Wrap32(Wrap32(e - ep) - Wrap32(r - rp))) == Wrap32((e - r) - (ep - rp))
  {
    WrapTwice(e - ep);
    WrapTwice(r - rp);
    DifferenceWraps(Wrap32(e - ep), Wrap32(r - rp), e - ep, r - rp);
    assert (e - ep) - (r - rp) == (e - r) - (ep - rp);
  }

  lemma WrapTwice(x: int)
    ensures Wrap32(Wrap32(x)) == Wrap32(x)
  {
  }

  lemma SumWraps(a: int, b: int, p: int, q: int)
    requires Wrap32(a) == Wrap32(p) && Wrap32(b) == Wrap32(q)
    ensures Wrap32(a + b) == Wrap32(p + q)
  {
    var j := Wrap32Same(a, p);
    var k := Wrap32Same(b, q);
    Wrap32Shift(p + q, j + k);
  }

  // For any interleaving of packets and reports the lost intervals telescope.
  lemma {:induction false} LossTelescopes(st: Stats, events: seq<Event>)
    requires NoRestart(st, events)
    ensures Wrap32(SumLost(st, events)) == Wrap32(PriorLoss(Play(st, events)) - PriorLoss(st))
    decreases |events|
  {
    if events != [] {
      var e := events[0];
      var next := Next(st, e);
      LossTelescopes(next, events[1..]);
      OneInterval(st, e);
      SumWraps(LostBy(st, e), SumLost(next, events[1..]),
               PriorLoss(next) - PriorLoss(st), PriorLoss(Play(next, events[1..])) - PriorLoss(next));
    }
  }

  // After a report that ends a run begun at a start of tracking, the sum of all reported
  // lost intervals is that report's unclamped cumulative loss.
  lemma SumIsCumulativeLoss(st: Stats, events: seq<Event>)
    requires st.expectedPrior == 1 && st.receivedPrior == 0
    requires NoRestart(st, events + [Report]) && HasNews(Play(st, events))
    ensures var now := Play(st, events);
            Wrap32(SumLost(st, events + [Report])) == Wrap32(Expected(now) - now.received - 1)
  {
    LossTelescopes(st, events + [Report]);
    PlayAppend(st, events, Report);
  }

  lemma {:induction false} PlayAppend(st: Stats, events: seq<Event>, e: Event)
    ensures Play(st, events + [e]) == Next(Play(st, events), e)
    decreases |events|
  {
    if events == [] {
      assert events + [e] == [e];
    } else {
      assert (events + [e])[1..] == events[1..] + [e];
      PlayAppend(Next(st, events[0]), events[1..], e);
    }
  }

  // ---- what the figure means ----

  function Interval(a: int, b: int): (r: set<int>)
    requires a <= b
    ensures |r| == b - a && forall n :: n in r <==> a <= n < b
    decreases b - a
  {
    if a == b then {} else Interval(a, b - 1) + {b - 1}
  }

  // The true numbers from the first to the highest that did not arrive.
  function Missing(first: int, top: int, arrivals: seq<int>): set<int>
    requires first <= top
  {
    set n | n in Interval(first, top + 1) && n !in arrivals
  }

  predicate Distinct(arrivals: seq<int>) { forall i, j :: 0 <= i < j < |arrivals| ==> arrivals[i] != arrivals[j] }

  predicate Within(low: int, arrivals: seq<int>, high: int) {
    forall i :: 0 <= i < |arrivals| ==> low <= arrivals[i] <= high
  }

  lemma {:induction false} DistinctSize(arrivals: seq<int>)
    requires Distinct(arrivals)
    ensures |set n | n in arrivals| == |arrivals|
  {
    if arrivals == [] {
      assert (set n | n in arrivals) == {};
    } else {
      var rest := arrivals[1..];
      DistinctSize(rest);
      assert (set n | n in arrivals) == (set n | n in rest) + {arrivals[0]};
    }
  }

  // The packets that repeat a number.
  function Repeats(arrivals: seq<int>): int { |arrivals| - |set n | n in arrivals| }

  // With nothing from before the start: expected less received is missing less repeated.
  lemma MissingLessRepeats(first: int, top: int, arrivals: seq<int>)
    requires first <= top && Within(first, arrivals, top)
    ensures top - first + 1 - |arrivals| == |Missing(first, top, arrivals)| - Repeats(arrivals)
  {
    var all, came := Interval(first, top + 1), set n | n in arrivals;
    assert Missing(first, top, arrivals) == all - came && came <= all;
    assert |all - came| == |all| - |came|;
  }

  // Without duplicates or arrivals from before the start, the cumulative loss is the number
  // of missing packets, in spite of base_seq = seq - 1 and expected_prior = 1.
  lemma LossCountsMissing(st: Stats, first: nat, top: nat, arrivals: seq<int>)
    requires Tracking(st, first, top, |arrivals|) && first <= top
    requires Distinct(arrivals) && Within(first, arrivals, top)
    ensures Wrap32(Expected(st) - st.received - 1) == Wrap32(|Missing(first, top, arrivals)|)
  {
    DistinctSize(arrivals);
    MissingLessRepeats(first, top, arrivals);
    ExpectedIs(st, first, top, |arrivals|);
  }

  // ---- whole runs of packets with true numbers, and reports ----

  datatype Happening = Came(n: nat) | Reporting

  // What the tracker and the report builder see of it.
  function Seen(h: Happening): Event {
    match h case Came(n) => Packet(Wrap16(n)) case Reporting => Report
  }

  function AllSeen(hs: seq<Happening>): (es: seq<Event>)
    ensures |es| == |hs|
  {
    if hs == [] then [] else [Seen(hs[0])] + AllSeen(hs[1..])
  }

  // The true numbers that came, in order.
  function Arrivals(hs: seq<Happening>): seq<int> {
    if hs == [] then [] else (if hs[0].Came? then [hs[0].n] else []) + Arrivals(hs[1..])
  }

  // With reports in between, the statistics still track the true numbers, and nothing restarts.
  lemma {:induction false} PlayTracks(st: Stats, first: nat, top: nat, count: nat, hs: seq<Happening>)
    requires Tracking(st, first, top, count) && AllInWindow(top, Arrivals(hs))
    ensures NoRestart(st, AllSeen(hs))
    ensures Tracking(Play(st, AllSeen(hs)), first, Highest(top, Arrivals(hs)), count + |Arrivals(hs)|)
    decreases |hs|
  {
    if hs != [] {
      var e, rest := Seen(hs[0]), AllSeen(hs[1..]);
      assert AllSeen(hs)[0] == e && AllSeen(hs)[1..] == rest;
      if hs[0].Came? {
        var n := hs[0].n;
        assert Arrivals(hs)[0] == n && Arrivals(hs)[1..] == Arrivals(hs[1..]);
        WindowIsModular(st, top, n);
        TrackStep(st, first, top, count, n);
        PlayTracks(Next(st, e), first, Max(top, n), count + 1, hs[1..]);
      } else {
        assert Arrivals(hs) == Arrivals(hs[1..]);
        PlayTracks(Next(st, e), first, top, count, hs[1..]);
      }
    }
  }

  lemma {:induction false} SeenAppend(hs: seq<Happening>, h: Happening)
    ensures AllSeen(hs + [h]) == AllSeen(hs) + [Seen(h)]
    ensures Arrivals(hs + [h]) == Arrivals(hs) + Arrivals([h])
  {
    if hs == [] {
      assert hs + [h] == [h];
    } else {
      assert (hs + [h])[1..] == hs[1..] + [h];
      SeenAppend(hs[1..], h);
    }
  }

  lemma {:induction false} HighestAbove(top: int, arrivals: seq<int>)
    ensures forall i :: 0 <= i < |arrivals| ==> arrivals[i] <= Highest(top, arrivals)
    decreases |arrivals|
  {
    if arrivals != [] {
      HighestAbove(Max(top, arrivals[0]), arrivals[1..]);
      assert forall i :: 0 < i < |arrivals| ==> arrivals[i] == arrivals[1..][i - 1];
    }
  }

  // The sum over such a run is the unclamped cumulative loss of its last report.
  lemma RunLoss(st: Stats, first: nat, hs: seq<Happening>)
    requires Tracking(st, first, first, 1) && st.expectedPrior == 1 && st.receivedPrior == 0
    requires AllInWindow(first, Arrivals(hs)) && HasNews(Play(st, AllSeen(hs)))
    ensures var now := Play(st, AllSeen(hs));
            Wrap32(SumLost(st, AllSeen(hs + [Reporting]))) == Wrap32(Expected(now) - now.received - 1)
  {
    SeenAppend(hs, Reporting);
    assert Arrivals([Reporting]) == [] && Arrivals(hs) + [] == Arrivals(hs);
    PlayTracks(st, first, first, 1, hs + [Reporting]);
    SumIsCumulativeLoss(st, AllSeen(hs));
  }

  lemma CameWithin(first: nat, hs: seq<Happening>)
    requires forall i :: 0 <= i < |Arrivals(hs)| ==> first <= Arrivals(hs)[i]
    ensures Within(first, [first] + Arrivals(hs), Highest(first, Arrivals(hs)))
  {
    var came, top := [first] + Arrivals(hs), Highest(first, Arrivals(hs));
    HighestAbove(first, Arrivals(hs));
    forall i | 0 <= i < |came| ensures first <= came[i] <= top {
      if i > 0 { assert came[i] == Arrivals(hs)[i - 1]; }
    }
  }

  // From the packet that starts tracking to a report with news: over any interleaving of
  // packets in the window with reports, without duplicates or arrivals from before the start,
  // the lost intervals reported sum to the number of sequence numbers that never came.
  lemma SumCountsMissing(st: Stats, first: nat, hs: seq<Happening>)
    requires Tracking(st, first, first, 1) && st.expectedPrior == 1 && st.receivedPrior == 0
    requires AllInWindow(first, Arrivals(hs)) && HasNews(Play(st, AllSeen(hs)))
    requires Distinct([first] + Arrivals(hs)) && forall i :: 0 <= i < |Arrivals(hs)| ==> first <= Arrivals(hs)[i]
    ensures var top := Highest(first, Arrivals(hs));
            Wrap32(SumLost(st, AllSeen(hs + [Reporting])))
            == Wrap32(|Missing(first, top, [first] + Arrivals(hs))|)
  {
    var came, top := [first] + Arrivals(hs), Highest(first, Arrivals(hs));
    RunLoss(st, first, hs);
    PlayTracks(st, first, first, 1, hs);
    CameWithin(first, hs);
    LossCountsMissing(Play(st, AllSeen(hs)), first, top, came);
  }

  lemma ExpectedIs(st: Stats, first: nat, top: nat, count: nat)
    requires Tracking(st, first, top, count)
    ensures Wrap32(Expected(st) - st.received - 1) == Wrap32(top - first + 1 - count)
  {
    TrackedTop(st, first, top, count);
    ExpectedWraps(st.cycles + st.maxSeq, st.baseSeq, st.received, top, first, count);
  }

  lemma ExpectedWraps(extended: int, base: int, received: int, top: int, first: int, count: int)
    requires Wrap32(extended) == Wrap32(top) && base == Wrap32(first - 1) && received == Wrap32(count)
    ensures Wrap32(Wrap32(extended - base + 1) - received - 1) == Wrap32(top - first + 1 - count)
  {
    WrapTwice(first - 1);
    WrapTwice(count);
    DifferenceWraps(extended, base, top, first - 1);
    var k := Wrap32Same(extended - base + 1, top - first + 2);
    var j := Wrap32Same(received, count);
    WrapTwice(extended - base + 1);
    var i := Wrap32Same(Wrap32(extended - base + 1), extended - base + 1);
    Wrap32Shift(top - first + 1 - count, i + k - j);
  }

  lemma DifferenceWraps(a: int, b: int, p: int, q: int)
    requires Wrap32(a) == Wrap32(p) && Wrap32(b) == Wrap32(q)
    ensures Wrap32(a - b) == Wrap32(p - q)
    ensures Wrap32(a - b + 1) == Wrap32(p - q + 1)
  {
    var j := Wrap32Same(a, p);
    var k := Wrap32Same(b, q);
    Wrap32Shift(p - q, j - k);
    Wrap32Shift(p - q + 1, j - k);
  }

  // ---- the fields of the block ----

  // Section 6.4.1 of RFC 3550: the fraction is 0 when more packets came than were expected.
  function RfcFraction(expected: uint32, received: uint32): byte {
    if expected == 0 || received >= expected then 0 else (expected - received) * 0x100 / expected % 0x100
  }

  // ---- division by a variable ----

  lemma Times(a: int, b: int, e: nat)
    requires a <= b
    ensures a * e <= b * e
  {
  }

  lemma Quotient(n: nat, e: nat)
    requires e > 0
    ensures n / e * e <= n < n / e * e + e && n == n / e * e + n % e
  {
  }

  lemma DivUnique(n: nat, e: nat, q: nat)
    requires e > 0 && q * e <= n < q * e + e
    ensures n / e == q
  {
    Quotient(n, e);
    if n / e < q { Apart(n / e, q, e); }
    if n / e > q { Apart(q, n / e, e); }
  }

  lemma Apart(a: nat, b: nat, e: nat)
    requires a < b
    ensures a * e + e <= b * e
  {
    Times(a + 1, b, e);
  }

  // At least one more divisor in the number, at least one more in the quotient.
  lemma DivMore(w: nat, more: nat, e: nat)
    requires 0 < e <= more
    ensures (w + more) / e > w / e
  {
    Quotient(w, e);
    Quotient(w + more, e);
    if (w + more) / e <= w / e { Times((w + more) / e, w / e, e); }
  }

  lemma DivBelow(n: nat, e: nat, q: nat)
    requires e > 0 && n < q * e
    ensures n / e < q
  {
    Quotient(n, e);
    if n / e >= q { Times(q, n / e, e); }
  }

  // ---- the fraction ----

  // Multiplying by 2^8 in 32 bits loses nothing exactly below 2^24.
  lemma ShiftLoses(lost: uint32) returns (k: nat)
    ensures Wrap32(lost * 0x100) + k * TWO_32 == lost * 0x100
    ensures lost < 0x100_0000 <==> k == 0
  {
    k := lost * 0x100 / TWO_32;
  }

  // Where packets arrived, and no more than expected, the fraction written is the specified
  // one if and only if fewer than 2^24 packets were lost in the interval.
  lemma FractionRightIff(expected: uint32, received: uint32)
    requires 0 < received <= expected
    ensures Fraction(expected, Wrap32(expected - received)) == RfcFraction(expected, received)
            <==> expected - received < 0x100_0000
  {
    var lost: uint32 := expected - received;
    assert Wrap32(lost) == lost;
    var k := ShiftLoses(lost);
    var w := Wrap32(lost * 0x100);
    DivBelow(lost * 0x100, expected, 0x100);
    DivBelow(w, expected, 0x100);
    if lost > 0 {
      ByteKept(w / expected);
      ByteKept(lost * 0x100 / expected);
      if k > 0 { DivMore(w, k * TWO_32, expected); }
    }
  }

  lemma ByteKept(q: nat)
    requires q < 0x100
    ensures q % 0x100 == q
  {
  }

  // rtcp_build_rr writes a block exactly if packets arrived in the interval.
  lemma NewsArrived(st: Stats)
    ensures HasNews(st) <==> ReceivedInterval(st) > 0
  {
  }

  // With a surplus of d the subtraction wraps and the division sees 2^8 times -d modulo 2^24:
  // the specified 0 is written if and only if the remainder of that is below 1/256 of the divisor.
  lemma FractionOnSurplusIff(expected: uint32, d: nat)
    requires expected > 0 && 0 < d && expected + d < TWO_32
    ensures Fraction(expected, Wrap32(expected - (expected + d))) == RfcFraction(expected, expected + d)
            <==> 0x100 * ((0 - d) % 0x100_0000 % expected) < expected
  {
    SurplusWraps(d);
    var m: nat := (0 - d) % 0x100_0000;
    var r: nat := m % expected;
    assert expected - (expected + d) == 0 - d;
    SurplusByte(m, expected);
    BelowOne(0x100 * r, expected);
  }

  lemma SurplusWraps(d: nat)
    requires 0 < d < TWO_32
    ensures Wrap32(0 - d) > 0 && Wrap32(Wrap32(0 - d) * 0x100) == 0x100 * ((0 - d) % 0x100_0000)
  {
    var k, m := Parts(0 - d);
    NegativeWraps(d);
    NothingLost(m);
    Wrap32Shift(0x100 * m, k + 0x100);
    assert (TWO_32 - d) * 0x100 == 0x100 * m + (k + 0x100) * TWO_32;
  }

  lemma NegativeWraps(d: nat)
    requires 0 < d < TWO_32
    ensures Wrap32(0 - d) == TWO_32 - d
  {
  }

  lemma Parts(x: int) returns (k: int, m: nat)
    ensures m == x % 0x100_0000 < 0x100_0000 && x == k * 0x100_0000 + m
  {
    k, m := x / 0x100_0000, x % 0x100_0000;
  }

  lemma NothingLost(lost: nat)
    requires lost < 0x100_0000
    ensures Wrap32(lost * 0x100) == lost * 0x100
  {
  }

  lemma Scaled(q: nat, e: nat, x: nat)
    ensures 0x100 * (q * e) + x * e == (0x100 * q + x) * e
  {
  }

  // The low byte of 2^8 m / e depends on m % e alone.
  lemma SurplusByte(m: nat, e: nat)
    requires e > 0
    ensures 0x100 * m / e % 0x100 == 0x100 * (m % e) / e
  {
    Quotient(m, e);
    DivBelow(0x100 * (m % e), e, 0x100);
    SurplusQuotient(m, e, m / e, m % e, 0x100 * (m % e) / e);
    LowByte(m / e, 0x100 * (m % e) / e);
  }

  lemma SurplusQuotient(m: nat, e: nat, q: nat, r: nat, x: nat)
    requires e > 0 && m == q * e + r && x == 0x100 * r / e
    ensures 0x100 * m / e == 0x100 * q + x
  {
    Quotient(0x100 * r, e);
    Scaled(q, e, x);
    DivUnique(0x100 * m, e, 0x100 * q + x);
  }

  lemma LowByte(q: nat, x: nat)
    requires x < 0x100
    ensures (0x100 * q + x) % 0x100 == x
  {
  }

  lemma BelowOne(n: nat, e: nat)
    requires e > 0
    ensures n / e == 0 <==> n < e
  {
    Quotient(n, e);
    if n < e { DivBelow(n, e, 1); }
  }

  // Half of 2^25 packets lost is reported as none.
  lemma FractionWrongOnHugeLoss()
    ensures Fraction(0x200_0000, 0x100_0000) == 0 && RfcFraction(0x200_0000, 0x100_0000) == 128
  {
    assert Wrap32(0x100_0000 * 0x100) == 0;
  }

  // One duplicate among ten expected packets: half of them are reported lost.
  lemma FractionWrongOnDuplicate()
    ensures Fraction(10, Wrap32(10 - 11)) == 128 && RfcFraction(10, 11) == 0
  {
    assert Wrap32(10 - 11) == 0xffff_ffff;
    assert Wrap32(0xffff_ffff * 0x100) == 0xffff_ff00;
  }

  // rr->lost is a 24-bit field that follows the fraction byte in memory, low byte first.
  function LostField(lost: int): (v: nat)
    ensures v < 0x100_0000
  {
    var u := lost % 0x100_0000;
    u % 0x100 * 0x1_0000 + u / 0x100 % 0x100 * 0x100 + u / 0x1_0000
  }

  function WireBytes(field: nat): seq<byte>
    requires field < 0x100_0000
  {
    [field % 0x100, field / 0x100 % 0x100, field / 0x1_0000]
  }

  // A receiver reads the three bytes as a signed number in network order.
  function ReadSigned24(hi: byte, mid: byte, lo: byte): int {
    var u: int := hi as int * 0x1_0000 + mid as int * 0x100 + lo as int;
    if u < 0x80_0000 then u else u - 0x100_0000
  }

  lemma Digits(u: nat)
    requires u < 0x100_0000
    ensures u == u / 0x1_0000 * 0x1_0000 + u / 0x100 % 0x100 * 0x100 + u % 0x100
    ensures u / 0x1_0000 < 0x100
  {
    assert u / 0x100 / 0x100 == u / 0x1_0000;
  }

  lemma FieldDigits(hi: byte, mid: byte, lo: byte, v: nat)
    requires v == lo as int * 0x1_0000 + mid as int * 0x100 + hi as int && v < 0x100_0000
    ensures WireBytes(v) == [hi, mid, lo]
  {
  }

  lemma LostSurvivesTheWire(lost: int)
    ensures var w := WireBytes(LostField(Clamp(lost)));
            |w| == 3 && ReadSigned24(w[0], w[1], w[2]) == Clamp(lost)
  {
    var u := Clamp(lost) % 0x100_0000;
    Digits(u);
    FieldDigits(u / 0x1_0000, u / 0x100 % 0x100, u % 0x100, LostField(Clamp(lost)));
  }
}
