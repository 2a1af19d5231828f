// Whole queues through the AAC depacketizer: how calls add up, marked packets, and frames spread
// over packets without the marker (section 3.3.6 of RFC 3640).
module AacFrames {
  import opened Words
  import opened Sequences
  import opened Aac

  // ---- a whole queue ----

  ghost predicate Sent(ps: seq<Packet>, all: seq<seq<seq<byte>>>, index: seq<seq<nat>>) {
    && |ps| == |all| == |index|
    && forall k :: 0 <= k < |ps| ==> ps[k].mark && all[k] != [] && Packable(all[k], index[k])
                                     && ps[k].payload == Packed(all[k], index[k])
  }

  // One call.
  ghost predicate Call(h: State, out: Outcome, g: State) { Sound(h) && Sound(g) && Parsed(h) == (g, out) }

  // The calls through these states return `outs`.
  ghost predicate Through(hs: seq<State>, outs: seq<Outcome>) {
    |hs| == |outs| + 1 && Sound(hs[0]) && forall k :: 0 <= k < |outs| ==> Call(hs[k], outs[k], hs[k + 1])
  }

  // From h, calls return `outs` and end in g.
  ghost predicate Calls(h: State, outs: seq<Outcome>, g: State) {
    exists hs :: Through(hs, outs) && hs[0] == h && hs[|outs|] == g
  }

  lemma NoCalls(h: State)
    requires Sound(h)
    ensures Calls(h, [], h)
  {
    assert Through([h], []);
  }

  lemma ThroughMore(hs: seq<State>, outs: seq<Outcome>, gs: seq<State>, more: seq<Outcome>)
    requires Through(hs, outs) && Through(gs, more) && gs[0] == hs[|outs|]
    ensures Through(hs + gs[1..], outs + more)
  {
    var all, os := hs + gs[1..], outs + more;
    forall k | 0 <= k < |os| ensures Call(all[k], os[k], all[k + 1]) {
      if k < |outs| {
        assert Call(hs[k], outs[k], hs[k + 1]);
      } else {
        assert Call(gs[k - |outs|], more[k - |outs|], gs[k - |outs| + 1]);
      }
    }
  }

  lemma CallsMore(h: State, outs: seq<Outcome>, g: State, more: seq<Outcome>, f: State)
    requires Calls(h, outs, g) && Calls(g, more, f)
    ensures Calls(h, outs + more, f)
  {
    var hs :| Through(hs, outs) && hs[0] == h && hs[|outs|] == g;
    var gs :| Through(gs, more) && gs[0] == g && gs[|more|] == f;
    ThroughMore(hs, outs, gs, more);
  }

  lemma CallsSound(h: State, outs: seq<Outcome>, g: State)
    requires Calls(h, outs, g)
    ensures Sound(h) && Sound(g)
  {
    var hs :| Through(hs, outs) && hs[0] == h && hs[|outs|] == g;
    if outs != [] { assert Call(hs[|outs| - 1], outs[|outs| - 1], hs[|outs|]); }
  }

  lemma OneCall(h: State)
    requires Sound(h)
    ensures Calls(h, [Parsed(h).1], Parsed(h).0)
  {
    StaysSound(h);
    assert Through([h, Parsed(h).0], [Parsed(h).1]);
  }

  lemma CallThenMore(h: State, out: Outcome, next: State, rest: seq<Outcome>, g: State)
    requires Call(h, out, next) && Calls(next, rest, g)
    ensures Calls(h, [out] + rest, g)
  {
    assert Through([h, next], [out]);
    CallsMore(h, [out], next, rest, g);
  }

  // n calls as a function of the state are such calls.
  lemma {:induction false} TimesCalls(h: State, n: nat)
    requires Sound(h)
    ensures Calls(h, ParseTimes(h, n).1, ParseTimes(h, n).0)
    decreases n
  {
    if n == 0 {
      NoCalls(h);
    } else {
      StaysSound(h);
      var next, out := Parsed(h).0, Parsed(h).1;
      var g, rest := ParseTimes(next, n - 1).0, ParseTimes(next, n - 1).1;
      TimesCalls(next, n - 1);
      CallThenMore(h, out, next, rest, g);
      OneCallMore(h, next, out, n, g, rest);
    }
  }

  lemma {:induction false} FilledMore(a: seq<seq<byte>>, b: seq<seq<byte>>)
    ensures FilledAll(a + b) == FilledAll(a) + FilledAll(b)
  {
    if a == [] {
      assert a + b == b;
    } else {
      assert (a + b)[1..] == a[1..] + b;
      FilledMore(a[1..], b);
    }
  }

  lemma SentComplete(ps: seq<Packet>, all: seq<seq<seq<byte>>>, index: seq<seq<nat>>)
    requires Sent(ps, all, index)
    ensures forall k :: 0 <= k < |ps| ==> Complete(ps[k]) && UnitsOf(ps[k]) == all[k]
  {
    forall k | 0 <= k < |ps| ensures Complete(ps[k]) && UnitsOf(ps[k]) == all[k] {
      UnitsRoundTrip(all[k], index[k], ps[k]);
    }
  }

  // Whatever marked packets the sender packs its units into, one call per unit gives them all
  // back in order and empties the queue.
  lemma {:induction false} QueueRoundTrip(h: State, all: seq<seq<seq<byte>>>, index: seq<seq<nat>>)
    requires Sent(h.queue, all, index) && h.collected == [] && h.head == []
    ensures Calls(h, FilledAll(Flat(all)), h.(queue := []))
    decreases |all|
  {
    SentComplete(h.queue, all, index);
    if all == [] {
      NoCalls(h);
    } else {
      var next := h.(queue := h.queue[1..]);
      PacketUnitsInOrder(h);
      TimesCalls(h, |all[0]|);
      QueueRoundTrip(next, all[1..], index[1..]);
      CallsMore(h, FilledAll(all[0]), next, FilledAll(Flat(all[1..])), h.(queue := []));
      FilledMore(all[0], Flat(all[1..]));
    }
  }

  // ---- packets without the marker ----

  function Agains(n: nat): (r: seq<Outcome>)
    ensures |r| == n && forall k :: 0 <= k < n ==> r[k] == Again
  {
    seq(n, _ => Again)
  }

  predicate Unmarked(ps: seq<Packet>, time: uint32) {
    forall k :: 0 <= k < |ps| ==> !ps[k].mark && ps[k].time == time
  }

  predicate AllComplete(ps: seq<Packet>) { forall k :: 0 <= k < |ps| ==> Complete(ps[k]) }

  // The units of several packets, in order.
  function UnitsOfAll(ps: seq<Packet>): seq<seq<byte>>
    requires AllComplete(ps)
  {
    if ps == [] then [] else UnitsOf(ps[0]) + UnitsOfAll(ps[1..])
  }

  // The buffer takes part of the time of the packet in front, or is empty.
  ghost predicate Continues(h: State, time: uint32) { h.collected == [] || h.timestamp == time }

  // The state after one call that collects the first of the units in front.
  function Collected(h: State, units: seq<seq<byte>>): State
    requires h.queue != [] && units != []
  {
    h.(collected := h.collected + units[0], timestamp := h.queue[0].time, head := units[1..],
       queue := if |units| == 1 then h.queue[1..] else h.queue)
  }

  // The packet in front is unmarked and of this time, and these of its units are to be returned.
  ghost predicate UnmarkedUnits(h: State, units: seq<seq<byte>>, time: uint32) {
    && Sound(h) && h.queue != [] && !h.queue[0].mark && h.queue[0].time == time && Continues(h, time)
    && units == if h.head == [] then UnitsOf(h.queue[0]) else h.head
  }

  lemma OneCollected(h: State, units: seq<seq<byte>>, time: uint32)
    requires UnmarkedUnits(h, units, time)
    ensures units != [] && Call(h, Again, Collected(h, units))
  {
    StaysSound(h);
  }

  lemma AgainFirst(h: State, next: State, n: nat, f: State)
    requires Call(h, Again, next) && Calls(next, Agains(n), f)
    ensures Calls(h, Agains(n + 1), f)
  {
    CallThenMore(h, Again, next, Agains(n), f);
    assert [Again] + Agains(n) == Agains(n + 1);
  }

  // h with these units collected, of packets of this time, and `rest` to come.
  function Gathered(h: State, units: seq<seq<byte>>, time: uint32, rest: seq<Packet>): State {
    h.(collected := h.collected + Flat(units), timestamp := time, head := [], queue := rest)
  }

  lemma OneGathered(h: State, units: seq<seq<byte>>, time: uint32, next: State, rest: seq<Packet>)
    requires units != [] && next.collected == h.collected + units[0] && next.timestamp == time
    requires |units| == 1 ==> next.head == [] && next.queue == rest
    ensures if |units| == 1 then next == Gathered(h, units, time, rest)
            else Gathered(next, units[1..], time, rest) == Gathered(h, units, time, rest)
  {
    Regroup(h.collected, units[0], Flat(units[1..]));
    assert |units| == 1 ==> Flat(units[1..]) == [];
  }

  lemma LastCollected(h: State, units: seq<seq<byte>>, time: uint32)
    requires UnmarkedUnits(h, units, time) && |units| == 1
    ensures Calls(h, Agains(1), Gathered(h, units, time, h.queue[1..]))
  {
    var next := Collected(h, units);
    OneCollected(h, units, time);
    OneGathered(h, units, time, next, h.queue[1..]);
    NoCalls(next);
    assert Agains(0) == [];
    AgainFirst(h, next, 0, next);
  }

  lemma CollectedGoesOn(h: State, units: seq<seq<byte>>, time: uint32)
    requires UnmarkedUnits(h, units, time) && |units| > 1
    ensures UnmarkedUnits(Collected(h, units), units[1..], time) && Collected(h, units).queue == h.queue
    ensures Gathered(Collected(h, units), units[1..], time, h.queue[1..]) == Gathered(h, units, time, h.queue[1..])
  {
    OneCollected(h, units, time);
    OneGathered(h, units, time, Collected(h, units), h.queue[1..]);
  }

  // The units of an unmarked packet are collected one by one.
  lemma {:induction false} UnitsCollected(h: State, units: seq<seq<byte>>, time: uint32)
    requires UnmarkedUnits(h, units, time)
    ensures Calls(h, Agains(|units|), Gathered(h, units, time, h.queue[1..]))
    decreases |units|
  {
    OneCollected(h, units, time);
    if |units| == 1 {
      LastCollected(h, units, time);
    } else {
      CollectedGoesOn(h, units, time);
      UnitsCollected(Collected(h, units), units[1..], time);
      AgainFirst(h, Collected(h, units), |units| - 1, Gathered(h, units, time, h.queue[1..]));
    }
  }

  lemma GatheredMore(h: State, u: seq<seq<byte>>, v: seq<seq<byte>>, time: uint32, mid: seq<Packet>,
                     rest: seq<Packet>)
    requires Calls(h, Agains(|u|), Gathered(h, u, time, mid))
    requires Calls(Gathered(h, u, time, mid), Agains(|v|), Gathered(Gathered(h, u, time, mid), v, time, rest))
    ensures Calls(h, Agains(|u + v|), Gathered(h, u + v, time, rest))
  {
    var next := Gathered(h, u, time, mid);
    CallsMore(h, Agains(|u|), next, Agains(|v|), Gathered(next, v, time, rest));
    assert Agains(|u|) + Agains(|v|) == Agains(|u + v|);
    FlatMore(u, v);
    Regroup(h.collected, Flat(u), Flat(v));
  }

  lemma {:induction false} FlatMore(a: seq<seq<byte>>, b: seq<seq<byte>>)
    ensures Flat(a + b) == Flat(a) + Flat(b)
  {
    if a == [] {
      assert a + b == b;
    } else {
      assert (a + b)[1..] == a[1..] + b;
      FlatMore(a[1..], b);
    }
  }

  // The queue begins with unmarked packets of one time; then comes `rest`.
  ghost predicate GroupFirst(h: State, group: seq<Packet>, rest: seq<Packet>, time: uint32) {
    && Sound(h) && h.queue == group + rest && h.head == [] && group != [] && Unmarked(group, time)
    && Continues(h, time) && AllComplete(group)
  }

  lemma FrontCollected(h: State, group: seq<Packet>, rest: seq<Packet>, time: uint32)
    requires GroupFirst(h, group, rest, time)
    ensures var next := Gathered(h, UnitsOf(group[0]), time, group[1..] + rest);
            && Calls(h, Agains(|UnitsOf(group[0])|), next)
            && (|group| > 1 ==> GroupFirst(next, group[1..], rest, time))
  {
    assert h.queue[0] == group[0] && h.queue[1..] == group[1..] + rest;
    UnitsCollected(h, UnitsOf(group[0]), time);
    CallsSound(h, Agains(|UnitsOf(group[0])|), Gathered(h, UnitsOf(group[0]), time, group[1..] + rest));
  }

  // The units of all packets of the group are collected, every call asking for more.
  lemma {:induction false} GroupCollected(h: State, group: seq<Packet>, rest: seq<Packet>, time: uint32)
    requires GroupFirst(h, group, rest, time)
    ensures Calls(h, Agains(|UnitsOfAll(group)|), Gathered(h, UnitsOfAll(group), time, rest))
    decreases |group|
  {
    var units, later := UnitsOf(group[0]), UnitsOfAll(group[1..]);
    FrontCollected(h, group, rest, time);
    if |group| > 1 {
      GroupCollected(Gathered(h, units, time, group[1..] + rest), group[1..], rest, time);
      GatheredMore(h, units, later, time, group[1..] + rest, rest);
    } else {
      assert group[1..] + rest == rest && units + [] == units;
    }
  }

  lemma GroupThenOne(h: State, group: seq<Packet>, rest: seq<Packet>, time: uint32)
    requires GroupFirst(h, group, rest, time) && h.collected == []
    ensures var g := Gathered(h, UnitsOfAll(group), time, rest);
            && g.collected == Flat(UnitsOfAll(group)) && Sound(g)
            && Calls(h, Agains(|UnitsOfAll(group)|) + [Parsed(g).1], Parsed(g).0)
  {
    var n, g := |UnitsOfAll(group)|, Gathered(h, UnitsOfAll(group), time, rest);
    GroupCollected(h, group, rest, time);
    CallsSound(h, Agains(n), g);
    OneCall(g);
    CallsMore(h, Agains(n), g, [Parsed(g).1], Parsed(g).0);
  }

  // Unmarked packets of one time, then a marked one of that time: the first unit of the marked
  // packet completes the frame, which is all their units end to end.
  lemma MarkCompletes(h: State, group: seq<Packet>, rest: seq<Packet>, time: uint32)
    requires GroupFirst(h, group, rest, time) && h.collected == []
    requires rest != [] && rest[0].mark && rest[0].time == time && Complete(rest[0])
    ensures var units, last := UnitsOfAll(group), UnitsOf(rest[0]);
            Calls(h, Agains(|units|) + [Filled(Flat(units) + last[0])],
                  State([], time, last[1..], if |last| == 1 then rest[1..] else rest))
  {
    GroupThenOne(h, group, rest, time);
  }

  // A packet of another time: what was collected comes out, and the packet stays.
  lemma TimeChangeCompletes(h: State, group: seq<Packet>, rest: seq<Packet>, time: uint32)
    requires GroupFirst(h, group, rest, time) && h.collected == []
    requires rest != [] && rest[0].time != time && Flat(UnitsOfAll(group)) != []
    ensures var units := UnitsOfAll(group);
            Calls(h, Agains(|units|) + [Filled(Flat(units))], State([], time, [], rest))
  {
    GroupThenOne(h, group, rest, time);
  }
}
