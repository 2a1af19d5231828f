// The AAC-hbr depacketizer (src/parsers/rtp_aac.c; sections 3.2.1 and 3.3.6 of RFC 3640).
module Aac {
  import opened Words
  import opened Sequences

  datatype Packet = Packet(mark: bool, time: uint32, payload: seq<byte>)

  datatype Outcome = Empty | Filled(frame: seq<byte>) | Again

  // collected: data[..len]; head: the access units of the packet at the front still to be
  // returned; queue: the playout list in the order rtp_get_pkt delivers.
  datatype State = State(collected: seq<byte>, timestamp: uint32, head: seq<seq<byte>>, queue: seq<Packet>)

  // ---- the access units of a payload ----

  function HeaderBits(b: seq<byte>): nat
    requires |b| >= 2
  {
    b[0] as int * 0x100 + b[1] as int
  }

  function HeadersNum(b: seq<byte>): nat
    requires |b| >= 2
  {
    HeaderBits(b) / 16
  }

  function DataStart(b: seq<byte>): nat
    requires |b| >= 2
  {
    2 + (HeaderBits(b) + 7) / 8
  }

  // 13 bits of size, 3 bits of index.
  function SizeAt(b: seq<byte>, i: nat): nat
    requires 4 + 2 * i <= |b|
  {
    (b[2 + 2 * i] as int * 0x100 + b[3 + 2 * i] as int) / 8
  }

  // Units i.. of the payload lie, one after the other, inside it from `at` on.
  predicate Fits(b: seq<byte>, i: nat, at: nat)
    requires |b| >= 2 && i <= HeadersNum(b)
    decreases HeadersNum(b) - i
  {
    i < HeadersNum(b) ==> 4 + 2 * i <= |b| && at + SizeAt(b, i) <= |b| && Fits(b, i + 1, at + SizeAt(b, i))
  }

  // A packet of whole access units; the source relies on it without checking.
  predicate Complete(p: Packet) {
    |p.payload| >= 2 && HeadersNum(p.payload) >= 1 && Fits(p.payload, 0, DataStart(p.payload))
  }

  function UnitsFrom(b: seq<byte>, i: nat, at: nat): (us: seq<seq<byte>>)
    requires |b| >= 2 && i <= HeadersNum(b) && Fits(b, i, at)
    ensures |us| == HeadersNum(b) - i
    ensures forall k :: 0 <= k < |us| ==> |us[k]| <= |b|
    decreases HeadersNum(b) - i
  {
    if i == HeadersNum(b) then []
    else [b[at..at + SizeAt(b, i)]] + UnitsFrom(b, i + 1, at + SizeAt(b, i))
  }

  function UnitsOf(p: Packet): (us: seq<seq<byte>>)
    requires Complete(p)
    ensures us != [] && forall k :: 0 <= k < |us| ==> |us[k]| <= |p.payload|
  {
    UnitsFrom(p.payload, 0, DataStart(p.payload))
  }

  // ---- one call of aac_parse as a function ----

  ghost predicate Sound(h: State) {
    && (forall k :: 0 <= k < |h.queue| ==> Complete(h.queue[k]))
    && (h.head != [] ==> h.queue != [] && Pending(h.head, UnitsOf(h.queue[0])))
  }

  // The units still to be returned are the last of a packet's, the first ones being out.
  predicate Pending(head: seq<seq<byte>>, units: seq<seq<byte>>) {
    |head| < |units| && head == units[|units| - |head|..]
  }

  lemma PendingFits(head: seq<seq<byte>>, p: Packet)
    requires Complete(p) && head != [] && (head == UnitsOf(p) || Pending(head, UnitsOf(p)))
    ensures |head[0]| <= |p.payload|
  {
    assert head[0] == UnitsOf(p)[|UnitsOf(p)| - |head|];
  }

  function Parsed(h: State): (State, Outcome)
    requires Sound(h)
  {
    if h.queue == [] then (h, Empty)
    else
      var p := h.queue[0];
      if h.collected != [] && p.time != h.timestamp then (h.(collected := []), Filled(h.collected))
      else
        var units := if h.head == [] then UnitsOf(p) else h.head;
        var grown, left := h.collected + units[0], if |units| == 1 then h.queue[1..] else h.queue;
        if p.mark then (h.(collected := [], head := units[1..], queue := left), Filled(grown))
        else (h.(collected := grown, timestamp := p.time, head := units[1..], queue := left), Again)
  }

  // `read` are the units before unit i, whose bytes begin at `at`.
  ghost predicate ReadTo(p: Packet, i: nat, at: nat, read: seq<seq<byte>>)
    requires Complete(p)
  {
    i <= HeadersNum(p.payload) && Fits(p.payload, i, at) && UnitsOf(p) == read + UnitsFrom(p.payload, i, at)
  }

  lemma NextUnit(p: Packet, i: nat, at: nat, read: seq<seq<byte>>)
    requires Complete(p) && ReadTo(p, i, at, read) && i < HeadersNum(p.payload)
    ensures 4 + 2 * i <= |p.payload|
    ensures var next := at + SizeAt(p.payload, i);
            next <= |p.payload| && ReadTo(p, i + 1, next, read + [p.payload[at..next]])
  {
    var b := p.payload;
    Regroup(read, [b[at..at + SizeAt(b, i)]], UnitsFrom(b, i + 1, at + SizeAt(b, i)));
  }

  lemma ReadAll(p: Packet, at: nat, read: seq<seq<byte>>)
    requires Complete(p) && ReadTo(p, HeadersNum(p.payload), at, read)
    ensures read == UnitsOf(p)
  {
  }

  class AacParser {
    var data: array<byte>
    var dataSize: nat                 // as recorded; the allocation may be larger
    var len: nat
    var timestamp: uint32
    var head: seq<seq<byte>>          // the linked list of aac_elem
    var queue: seq<Packet>

    ghost predicate Valid()
      reads this, data
    {
      len <= dataSize <= data.Length && Sound(View())
    }

    ghost function View(): State
      reads this, data
    {
      State(if len <= data.Length then data[..len] else [], timestamp, head, queue)
    }

    constructor (packets: seq<Packet>)
      requires forall k :: 0 <= k < |packets| ==> Complete(packets[k])
      ensures Valid() && View() == State([], 0, [], packets)
    {
      data := new byte[0];
      dataSize, len, timestamp, head, queue := 0, 0, 0, [], packets;
    }

    // Reading the AU headers of the packet at the front and copying its units out.
    method ReadHeaders(p: Packet)
      requires Complete(p) && head == []
      modifies this`head
      ensures head == UnitsOf(p)
    {
      var buf := p.payload;
      var headersNum := HeadersNum(buf);
      var bufIndex: nat := DataStart(buf);
      var i: nat := 0;
      assert UnitsOf(p) == head + UnitsFrom(buf, 0, bufIndex);
      while i < headersNum
        invariant i <= headersNum && ReadTo(p, i, bufIndex, head)
      {
        bufIndex := CopyUnit(p, i, bufIndex);
        i := i + 1;
      }
      ReadAll(p, bufIndex, head);
    }

    // One round of that loop
    method CopyUnit(p: Packet, i: nat, bufIndex: nat) returns (next: nat)
      requires Complete(p) && ReadTo(p, i, bufIndex, head) && i < HeadersNum(p.payload)
      modifies this`head
      ensures ReadTo(p, i + 1, next, head)
    {
      NextUnit(p, i, bufIndex, head);
      next := bufIndex + SizeAt(p.payload, i);
      head := head + [p.payload[bufIndex..next]];
    }

    // Growing the buffer for the unit at the head: the allocation is made for the whole
    // payload, the recorded size for the unit only.
    method MakeRoom(payloadLen: nat)
      requires len <= dataSize <= data.Length && head != [] && |head[0]| <= payloadLen
      modifies this`data, this`dataSize
      ensures len + |head[0]| <= dataSize <= data.Length && data[..len] == old(data[..len])
      ensures data == old(data) || fresh(data)
    {
      if dataSize < len + |head[0]| {
        var bigger := new byte[payloadLen + len](_ => 0);
        forall i | 0 <= i < len { bigger[i] := data[i]; }
        data := bigger;
        dataSize := len + |head[0]|;
      }
    }

    // Moving the unit at the head to the end of the collected bytes.
    method TakeUnit()
      requires head != [] && len + |head[0]| <= dataSize <= data.Length
      modifies this`len, this`head, data
      ensures len == old(len) + |old(head)[0]| && head == old(head)[1..]
      ensures data[..len] == old(data[..len]) + old(head)[0]
    {
      var unit := head[0];
      forall i | 0 <= i < |unit| { data[len + i] := unit[i]; }
      len := len + |unit|;
      head := head[1..];
    }

    // aac_parse
    method Parse() returns (out: Outcome)
      requires Valid()
      modifies this, data
      ensures Valid() && (View(), out) == Parsed(old(View()))
    {
      ghost var h := View();
      StaysSound(h);
      if queue == [] { return Empty; }
      var p := queue[0];
      if len != 0 && p.time != timestamp {
        out := Emit();
        return;
      }
      Prepare(p);
      TakeUnit();
      out := Close(p);
    }

    // List the units of a new packet, and make room for the next one.
    method Prepare(p: Packet)
      requires len <= dataSize <= data.Length && Complete(p) && (head != [] ==> Pending(head, UnitsOf(p)))
      modifies this`head, this`data, this`dataSize
      ensures head == if old(head) == [] then UnitsOf(p) else old(head)
      ensures len + |head[0]| <= dataSize <= data.Length && data[..len] == old(data[..len])
      ensures data == old(data) || fresh(data)
    {
      if head == [] { ReadHeaders(p); }
      PendingFits(head, p);
      MakeRoom(|p.payload|);
    }

    // The end of aac_parse: a marked packet's bytes go out; a packet without units left is removed.
    method Close(p: Packet) returns (out: Outcome)
      requires len <= data.Length && queue != []
      modifies this`len, this`timestamp, this`queue
      ensures out == if p.mark then Filled(old(data[..len])) else Again
      ensures len == (if p.mark then 0 else old(len)) && timestamp == if p.mark then old(timestamp) else p.time
      ensures queue == if head == [] then old(queue)[1..] else old(queue)
    {
      if !p.mark {
        timestamp := p.time;
        out := Again;
      } else {
        out := Emit();
      }
      if head == [] { queue := queue[1..]; }
    }

    // The collected bytes go out as a frame.
    method Emit() returns (out: Outcome)
      requires len <= data.Length
      modifies this`len
      ensures out == Filled(old(data[..len])) && len == 0
    {
      out := Filled(data[..len]);
      len := 0;
    }
  }

  // ---- n calls return the n units of a packet ----

  function ParseTimes(h: State, n: nat): (State, seq<Outcome>)
    requires Sound(h)
    decreases n
  {
    if n == 0 then (h, [])
    else
      StaysSound(h);
      var (h1, out) := Parsed(h);
      var (h2, outs) := ParseTimes(h1, n - 1);
      (h2, [out] + outs)
  }

  lemma StaysSound(h: State)
    requires Sound(h)
    ensures Sound(Parsed(h).0)
  {
    if h.queue != [] {
      var all := UnitsOf(h.queue[0]);
      var units := if h.head == [] then all else h.head;
      assert units == all[|all| - |units|..];
      assert units[1..] == all[|all| - |units| + 1..];
    }
  }

  function FilledAll(units: seq<seq<byte>>): (outs: seq<Outcome>)
    ensures |outs| == |units|
  {
    if units == [] then [] else [Filled(units[0])] + FilledAll(units[1..])
  }

  lemma FirstOut(h: State, units: seq<seq<byte>>)
    requires Sound(h) && h.queue != [] && h.queue[0].mark && h.collected == []
    requires units != [] && units == (if h.head == [] then UnitsOf(h.queue[0]) else h.head)
    ensures Parsed(h) == (h.(head := units[1..], queue := if |units| == 1 then h.queue[1..] else h.queue),
                          Filled(units[0]))
  {
    assert [] + units[0] == units[0];
  }

  lemma OneCallMore(h: State, next: State, out: Outcome, n: nat, g: State, rest: seq<Outcome>)
    requires Sound(h) && Sound(next) && Parsed(h) == (next, out) && n > 0 && ParseTimes(next, n - 1) == (g, rest)
    ensures ParseTimes(h, n) == (g, [out] + rest)
  {
  }

  // h after the first k of the units listed are out.
  function UnitsOut(h: State, units: seq<seq<byte>>, k: nat): State
    requires h.queue != [] && k <= |units|
  {
    h.(head := units[k..], queue := if k == |units| then h.queue[1..] else h.queue)
  }

  // Once the units are listed: each call returns the next one; the packet leaves the queue
  // with the last.
  lemma {:induction false} ListedUnits(h: State, units: seq<seq<byte>>, k: nat)
    requires Sound(h) && h.queue != [] && h.queue[0].mark && h.collected == []
    requires units != [] && units == (if h.head == [] then UnitsOf(h.queue[0]) else h.head)
    requires 0 < k <= |units|
    ensures ParseTimes(h, k) == (UnitsOut(h, units, k), FilledAll(units[..k]))
    decreases k
  {
    var next := UnitsOut(h, units, 1);
    StaysSound(h);
    FirstOut(h, units);
    if k > 1 {
      ListedUnits(next, units[1..], k - 1);
      assert UnitsOut(next, units[1..], k - 1) == UnitsOut(h, units, k);
    } else {
      assert FilledAll(units[1..][..k - 1]) == [];
    }
    OneCallMore(h, next, Filled(units[0]), k, UnitsOut(h, units, k), FilledAll(units[1..][..k - 1]));
    assert units[..k][1..] == units[1..][..k - 1];
  }

  // A marked packet of n units, with nothing pending, gives its n units in n calls.
  lemma PacketUnitsInOrder(h: State)
    requires Sound(h) && h.queue != [] && h.queue[0].mark && h.collected == [] && h.head == []
    ensures var units := UnitsOf(h.queue[0]);
            && ParseTimes(h, |units|) == (h.(queue := h.queue[1..]), FilledAll(units))
            && forall k :: 0 < k < |units| ==> ParseTimes(h, k) == (h.(head := units[k..]), FilledAll(units[..k]))
  {
    var units := UnitsOf(h.queue[0]);
    ListedUnits(h, units, |units|);
    assert units[..|units|] == units && units[|units|..] == [] == h.head;
    forall k | 0 < k < |units| ensures ParseTimes(h, k) == (h.(head := units[k..]), FilledAll(units[..k])) {
      UnitsSoFar(h, units, k);
    }
  }

  lemma UnitsSoFar(h: State, units: seq<seq<byte>>, k: nat)
    requires Sound(h) && h.queue != [] && h.queue[0].mark && h.collected == [] && h.head == []
    requires units == UnitsOf(h.queue[0]) && 0 < k < |units|
    ensures ParseTimes(h, k) == (h.(head := units[k..]), FilledAll(units[..k]))
  {
    ListedUnits(h, units, k);
  }

  // ---- the sender's side ----

  // Units of at most 13 bits of size, and for each 3 bits: the first unit's AU-Index, the
  // others' AU-Index-delta.
  predicate Packable(units: seq<seq<byte>>, index: seq<nat>) {
    && |index| == |units| < 0x1000
    && (forall k :: 0 <= k < |units| ==> |units[k]| < 0x2000)
    && (forall k :: 0 <= k < |index| ==> index[k] < 8)
  }

  // The AU headers.
  function Headers(units: seq<seq<byte>>, index: seq<nat>): (r: seq<byte>)
    requires Packable(units, index)
    ensures |r| == 2 * |units|
  {
    if units == [] then []
    else
      var h := |units[0]| * 8 + index[0];
      [h / 0x100, h % 0x100] + Headers(units[1..], index[1..])
  }

  // A payload carrying the units.
  function Packed(units: seq<seq<byte>>, index: seq<nat>): seq<byte>
    requires Packable(units, index)
  {
    [|units| * 16 / 0x100, |units| * 16 % 0x100] + Headers(units, index) + Flat(units)
  }

  lemma {:induction false} HeaderAt(units: seq<seq<byte>>, index: seq<nat>, i: nat)
    requires Packable(units, index) && i < |units|
    ensures var h := Headers(units, index);
            h[2 * i] as int * 0x100 + h[2 * i + 1] as int == |units[i]| * 8 + index[i]
  {
    if i > 0 {
      HeaderAt(units[1..], index[1..], i - 1);
      var h, t := Headers(units, index), Headers(units[1..], index[1..]);
      assert h[2..] == t;
      assert h[2 * i] == t[2 * i - 2] && h[2 * i + 1] == t[2 * i - 1];
    }
  }

  lemma PackedSizes(units: seq<seq<byte>>, index: seq<nat>, i: nat)
    requires Packable(units, index)
    ensures var b := Packed(units, index);
            && HeadersNum(b) == |units| && DataStart(b) == 2 + 2 * |units|
            && b[DataStart(b)..] == Flat(units)
            && (i < |units| ==> 4 + 2 * i <= |b| && SizeAt(b, i) == |units[i]|)
  {
    var b, h := Packed(units, index), Headers(units, index);
    if i < |units| {
      HeaderAt(units, index, i);
      assert b[2 + 2 * i] == h[2 * i] && b[3 + 2 * i] == h[2 * i + 1];
    }
  }

  lemma CutAt(b: seq<byte>, at: nat, unit: seq<byte>, tail: seq<byte>)
    requires at <= |b| && b[at..] == unit + tail
    ensures at + |unit| <= |b| && b[at..at + |unit|] == unit && b[at + |unit|..] == tail
  {
    assert b[at..][..|unit|] == unit && b[at..][|unit|..] == tail;
  }

  lemma {:induction false} PackedFrom(units: seq<seq<byte>>, index: seq<nat>, i: nat, at: nat)
    requires Packable(units, index)
    requires i <= |units| && at <= |Packed(units, index)| && Packed(units, index)[at..] == Flat(units[i..])
    ensures var b := Packed(units, index);
            HeadersNum(b) == |units| && Fits(b, i, at) && UnitsFrom(b, i, at) == units[i..]
    decreases |units| - i
  {
    var b := Packed(units, index);
    PackedSizes(units, index, i);
    if i < |units| {
      assert units[i..] == [units[i]] + units[i + 1..];
      CutAt(b, at, units[i], Flat(units[i + 1..]));
      PackedFrom(units, index, i + 1, at + |units[i]|);
    }
  }

  // Unpacking undoes packing, for every list of one or more access units.
  lemma UnitsRoundTrip(units: seq<seq<byte>>, index: seq<nat>, p: Packet)
    requires Packable(units, index) && units != [] && p.payload == Packed(units, index)
    ensures Complete(p) && UnitsOf(p) == units
  {
    PackedSizes(units, index, 0);
    assert units[0..] == units;
    PackedFrom(units, index, 0, DataStart(p.payload));
  }
}
