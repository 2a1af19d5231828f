// The H.264 depacketizer (src/parsers/rtp_h264.c, src/parsers/rtp_utils.c; RFC 3984).
module H264 {
  import opened Words
  import opened Sequences

  // A packet as the parser sees it: `slot` is the slot's memory from the payload on, of which
  // the first `len` bytes were received.
  datatype Packet = Packet(time: uint32, slot: seq<byte>, len: nat)

  // Slots are far longer than what is read without a length check; a fragment must hold its
  // two header bytes, which the source does not check.
  predicate Sound(p: Packet) {
    p.len <= |p.slot| && |p.slot| >= 3 && (p.slot[0] % 0x20 == 28 ==> p.len >= 2)
  }

  datatype Outcome = Empty | Filled(frame: seq<byte>) | Again | Unknown

  const START_SEQ: seq<byte> := [0, 0, 0, 1]

  // What the parser keeps between calls: the bytes collected, data[..len], and the rest.
  datatype State = State(collected: seq<byte>, timestamp: uint32, configured: bool)

  // ---- aggregates (STAP-A) ----

  function BE2(s: seq<byte>, pos: nat): uint16
    requires pos + 2 <= |s|
  {
    s[pos] as int * 0x100 + s[pos + 1] as int
  }

  // The units one pass over the aggregate accepts, from `pos` on with `left` bytes to go.
  function Units(s: seq<byte>, pos: nat, left: int): seq<seq<byte>>
    requires pos + 2 <= |s| && pos + left <= |s|
    decreases |s| - pos
  {
    var size := BE2(s, pos);
    var unit := if size <= left - 2 then [s[pos + 2..pos + 2 + size]] else [];
    if left - 2 - size > 2 then unit + Units(s, pos + 2 + size, left - 2 - size) else unit
  }

  // Byte stream format: each unit after a start code.
  function AnnexB(units: seq<seq<byte>>): seq<byte> {
    if units == [] then [] else START_SEQ + units[0] + AnnexB(units[1..])
  }

  // ---- one call of h264_parse as a function ----

  function Configured(h: State, conf: seq<byte>): State {
    if !h.configured && conf != [] then h.(collected := h.collected + conf, configured := true) else h
  }

  function Fu(h: State, p: Packet): (State, Outcome)
    requires Sound(p) && p.slot[0] % 0x20 == 28
  {
    var header := p.slot[1];
    var nal: byte := p.slot[0] / 0x20 * 0x20 + header % 0x20;
    var fragment := p.slot[2..p.len];
    if !(header / 0x80 == 1 && h.collected == []) && h.timestamp != p.time then (h.(collected := []), Unknown)
    else
      var starts := header / 0x80 == 1 && h.collected == [];
      var grown := if starts then START_SEQ + [nal] + fragment else h.collected + fragment;
      if header / 0x40 % 2 == 0 then (h.(collected := grown, timestamp := p.time), Again)
      else (h.(collected := [], timestamp := p.time), Filled(grown))
  }

  function Parsed(h0: State, conf: seq<byte>, p: Packet): (State, Outcome)
    requires Sound(p)
  {
    var h := Configured(h0, conf);
    var kind := p.slot[0] % 0x20;
    if 1 <= kind <= 23 then (h.(collected := []), Filled(h.collected + START_SEQ + p.slot[..p.len]))
    else if kind == 24 then (h.(collected := []), Filled(h.collected + AnnexB(Units(p.slot, 1, p.len - 1))))
    else if kind == 28 then Fu(h, p)
    else (h, Unknown)
  }

  // ---- the parser object ----

  class H264Parser {
    const conf: seq<byte>
    var data: array<byte>             // allocated size is data.Length
    var len: nat
    var timestamp: uint32
    var configured: bool
    var queue: seq<Packet>            // the playout list, in the order rtp_get_pkt delivers

    ghost predicate Valid()
      reads this, data
    {
      len <= data.Length && (!configured && conf != [] ==> len == 0) && forall k :: 0 <= k < |queue| ==> Sound(queue[k])
    }

    ghost function View(): State
      requires len <= data.Length
      reads this, data
    {
      State(data[..len], timestamp, configured)
    }

    constructor (parameterSets: seq<byte>, packets: seq<Packet>)
      requires forall k :: 0 <= k < |packets| ==> Sound(packets[k])
      ensures Valid() && View() == State([], 0, false) && conf == parameterSets && queue == packets
    {
      conf := parameterSets;
      data := new byte[0];
      len, timestamp, configured := 0, 0, false;
      queue := packets;
    }

    // nms_alloc_data
    method AllocData(newLen: nat)
      requires len <= data.Length
      modifies this`data
      ensures newLen <= data.Length && old(data.Length) <= data.Length
      ensures data == old(data) || fresh(data)
      ensures data[..len] == old(data[..len])
    {
      if data.Length < newLen {
        var bigger := new byte[newLen](_ => 0);
        forall i | 0 <= i < data.Length { bigger[i] := data[i]; }
        data := bigger;
      }
    }

    // nms_append_incr: memcpy within the allocated size
    method AppendIncr(src: seq<byte>)
      requires len + |src| <= data.Length
      modifies this`len, data
      ensures len == old(len) + |src|
      ensures data[..len] == old(data[..len]) + src
    {
      forall i | 0 <= i < |src| { data[len + i] := src[i]; }
      len := len + |src|;
    }

    // A start code and the unit, if one was accepted
    method AppendUnit(accepted: seq<seq<byte>>)
      requires |accepted| <= 1 && len + |AnnexB(accepted)| <= data.Length
      modifies this`len, data
      ensures len == old(len) + |AnnexB(accepted)|
      ensures data[..len] == old(data[..len]) + AnnexB(accepted)
    {
      if accepted != [] {
        assert AnnexB(accepted) == START_SEQ + accepted[0] + [];
        AppendIncr(START_SEQ);
        AppendIncr(accepted[0]);
      }
    }

    // Pass 1 over an aggregate appends what pass 0 (StapLength) measured.
    method StapAppend(s: seq<byte>, length: int)
      requires 3 <= |s| && 1 + length <= |s|
      requires len + |AnnexB(Units(s, 1, length))| <= data.Length
      modifies this`len, data
      ensures len == old(len) + |AnnexB(Units(s, 1, length))|
      ensures data[..len] == old(data[..len]) + AnnexB(Units(s, 1, length))
    {
      var src, srcLen, more := 1, length, true;
      ghost var done: seq<seq<byte>>, rest := [], Units(s, 1, length);
      while more
        invariant more ==> src + 2 <= |s| && src + srcLen <= |s| && rest == Units(s, src, srcLen)
        invariant !more ==> rest == []
        invariant Units(s, 1, length) == done + rest
        invariant len == old(len) + |AnnexB(done)| && len <= data.Length
        invariant data[..len] == old(data[..len]) + AnnexB(done)
        decreases more, |s| - src
      {
        var accepted: seq<seq<byte>>;
        accepted, src, srcLen := TakeUnit(s, src, srcLen);
        more := srcLen > 2;
        rest := if more then Units(s, src, srcLen) else [];
        AnnexBSplit(done, accepted, rest);
        AnnexBAppend(done, accepted);
        Regroup(old(data[..len]), AnnexB(done), AnnexB(accepted));
        AppendUnit(accepted);
        done := done + accepted;
      }
      assert done + rest == done;
    }

    // rtp_rm_pkt
    method RmPkt()
      requires queue != []
      modifies this`queue
      ensures queue == old(queue)[1..]
    {
      queue := queue[1..];
    }

    // The parameter sets go out before the first packet's data.
    method Configure()
      requires Valid()
      modifies this`data, this`len, this`configured, data
      ensures Valid() && View() == Configured(old(View()), conf)
      ensures data == old(data) || fresh(data)
    {
      if !configured && conf != [] {
        AllocData(|conf|);
        assert data[..len] == [];
        AppendIncr(conf);
        configured := true;
      }
    }

    // The branch for NAL unit types 1 to 23.
    method Single(p: Packet) returns (out: Outcome)
      requires len <= data.Length && p.len <= |p.slot|
      modifies this`data, this`len, data
      ensures len == 0 && out == Filled(old(View()).collected + START_SEQ + p.slot[..p.len])
    {
      AllocData(p.len + 4 + len);
      AppendIncr(START_SEQ);
      AppendIncr(p.slot[..p.len]);
      out := Filled(data[..len]);
      len := 0;
    }

    // The branch for STAP-A.
    method Aggregate(p: Packet) returns (out: Outcome)
      requires len <= data.Length && Sound(p)
      modifies this`data, this`len, data
      ensures len == 0 && out == Filled(old(View()).collected + AnnexB(Units(p.slot, 1, p.len - 1)))
    {
      var total := StapLength(p.slot, p.len - 1);
      AllocData(total + len);
      StapAppend(p.slot, p.len - 1);
      out := Filled(data[..len]);
      len := 0;
    }

    // The branch for FU-A.
    method Fragment(p: Packet) returns (out: Outcome)
      requires len <= data.Length && Sound(p) && p.slot[0] % 0x20 == 28
      modifies this`data, this`len, this`timestamp, data
      ensures len <= data.Length && (View(), out) == Fu(old(View()), p)
    {
      var indicator, header := p.slot[0], p.slot[1];
      var startBit, endBit := header / 0x80, header / 0x40 % 2;
      var nal: byte := indicator / 0x20 * 0x20 + header % 0x20;
      var fragment := p.slot[2..p.len];
      ghost var before := View().collected;
      if startBit == 1 && len == 0 {
        AllocData(|fragment| + 1 + 4 + len);
        AppendIncr(START_SEQ);
        AppendIncr([nal]);
        AppendIncr(fragment);
        assert data[..len] == START_SEQ + [nal] + fragment;
      } else {
        if timestamp != p.time {
          len := 0;
          return Unknown;
        }
        AllocData(|fragment| + len);
        AppendIncr(fragment);
      }
      timestamp := p.time;
      if endBit == 0 { return Again; }
      out := Filled(data[..len]);
      len := 0;
    }

    // h264_parse; `config` is what the caller's buffer is pointed at, empty if it is left alone.
    method Parse() returns (out: Outcome, config: seq<byte>)
      requires Valid()
      modifies this, data
      ensures Valid() && (out == Empty <==> old(queue) == [])
      ensures config == if out == Empty then [] else conf
      ensures out == Empty ==> queue == [] && View() == old(View())
      ensures out != Empty ==> queue == old(queue)[1..] && (View(), out) == Parsed(old(View()), conf, old(queue)[0])
    {
      if queue == [] { return Empty, []; }
      var p := queue[0];
      var kind := p.slot[0] % 0x20;
      Configure();
      config := conf;
      if 1 <= kind <= 23 {
        out := Single(p);
      } else if kind == 24 {
        out := Aggregate(p);
      } else if kind == 28 {
        out := Fragment(p);
      } else {
        out := Unknown;
      }
      RmPkt();
    }
  }

  // Pass 0 of the do-while loop over an aggregate: the length of what pass 1 will append.
  method StapLength(s: seq<byte>, length: int) returns (total: nat)
    requires 3 <= |s| && 1 + length <= |s|
    ensures total == |AnnexB(Units(s, 1, length))|
  {
    var src, srcLen, more := 1, length, true;
    total := 0;
    ghost var done: seq<seq<byte>>, rest := [], Units(s, 1, length);
    while more
      invariant more ==> src + 2 <= |s| && src + srcLen <= |s| && rest == Units(s, src, srcLen)
      invariant !more ==> rest == []
      invariant Units(s, 1, length) == done + rest
      invariant total == |AnnexB(done)|
      decreases more, |s| - src
    {
      var accepted: seq<seq<byte>>;
      accepted, src, srcLen := TakeUnit(s, src, srcLen);
      more := srcLen > 2;
      rest := if more then Units(s, src, srcLen) else [];
      AnnexBSplit(done, accepted, rest);
      if accepted != [] { total := total + 4 + |accepted[0]|; }
      done := done + accepted;
    }
    assert done + rest == done;
  }

  // One round of the loop: a length, and the unit it announces if that much is left.
  method TakeUnit(s: seq<byte>, pos: nat, left: int) returns (accepted: seq<seq<byte>>, pos': nat, left': int)
    requires pos + 2 <= |s| && pos + left <= |s|
    ensures pos < pos' && |accepted| <= 1
    ensures left' > 2 ==> pos' + 2 <= |s| && pos' + left' <= |s|
    ensures Units(s, pos, left) == accepted + if left' > 2 then Units(s, pos', left') else []
  {
    var nalSize: int := s[pos] as int * 0x100 + s[pos + 1] as int;
    pos', left', accepted := pos + 2, left - 2, [];
    if nalSize <= left' { accepted := [s[pos'..pos' + nalSize]]; }
    pos', left' := pos' + nalSize, left' - nalSize;
  }

  lemma {:induction false} AnnexBAppend(a: seq<seq<byte>>, b: seq<seq<byte>>)
    ensures AnnexB(a + b) == AnnexB(a) + AnnexB(b)
  {
    if a == [] {
      assert a + b == b;
    } else {
      assert (a + b)[1..] == a[1..] + b;
      AnnexBAppend(a[1..], b);
    }
  }

  lemma AnnexBSplit(done: seq<seq<byte>>, accepted: seq<seq<byte>>, later: seq<seq<byte>>)
    requires |accepted| <= 1
    ensures done + (accepted + later) == done + accepted + later
    ensures AnnexB(done + accepted) == if accepted == [] then AnnexB(done) else AnnexB(done) + (START_SEQ + accepted[0])
    ensures |AnnexB(done + (accepted + later))| >= |AnnexB(done + accepted)|
  {
    assert done + (accepted + later) == done + accepted + later;
    AnnexBAppend(done, accepted);
    AnnexBAppend(done + accepted, later);
    if accepted != [] {
      assert accepted == [accepted[0]];
      assert AnnexB(accepted) == START_SEQ + accepted[0] + [];
    }
  }

  // Types 0, 25 to 27 and 29 to 31 are refused; what the buffer holds stays for the next unit,
  // pending parameter sets included.
  lemma OtherTypesRefused(h: State, conf: seq<byte>, p: Packet)
    requires Sound(p) && p.slot[0] % 0x20 in {0, 25, 26, 27, 29, 30, 31}
    ensures Parsed(h, conf, p).1 == Unknown && Parsed(h, conf, p).0.timestamp == h.timestamp
    ensures Parsed(h, conf, p).0.collected == h.collected + if h.configured then [] else conf
    ensures Parsed(h, conf, p).0.configured <==> h.configured || conf != []
  {
    assert h.collected + [] == h.collected;
  }

  // ---- STAP-A: what the sender packed comes out ----

  // The payload of an aggregate after its header byte (section 5.7.1 of RFC 3984).
  function Pack(nals: seq<seq<byte>>): seq<byte>
    requires forall k :: 0 <= k < |nals| ==> |nals[k]| < 0x1_0000
  {
    if nals == [] then []
    else [|nals[0]| / 0x100, |nals[0]| % 0x100] + nals[0] + Pack(nals[1..])
  }

  // What the unpacking sees of an aggregate: a final empty unit is taken for padding.
  function Visible(nals: seq<seq<byte>>): seq<seq<byte>> {
    if |nals| > 1 && nals[|nals| - 1] == [] then nals[..|nals| - 1] else nals
  }

  lemma VisibleTail(nals: seq<seq<byte>>)
    requires |nals| > 1 && nals[1..] != [[]]
    ensures Visible(nals) == [nals[0]] + Visible(nals[1..])
  {
    var t := nals[1..];
    assert t[|t| - 1] == nals[|nals| - 1];
    if |t| > 1 && t[|t| - 1] == [] {
      assert nals[..|nals| - 1] == [nals[0]] + t[..|t| - 1];
    } else {
      assert nals == [nals[0]] + t;
      assert |t| == 1 ==> t[0] != [];
    }
  }

  lemma PackLength(nals: seq<seq<byte>>)
    requires forall k :: 0 <= k < |nals| ==> |nals[k]| < 0x1_0000
    ensures nals != [] && nals != [[]] ==> |Pack(nals)| > 2
    ensures nals == [[]] ==> |Pack(nals)| == 2
  {
    if nals != [] { assert nals == [nals[0]] + nals[1..]; }
  }

  lemma LastVisible(nals: seq<seq<byte>>)
    requires nals != [] && (nals[1..] == [] || nals[1..] == [[]])
    ensures Visible(nals) == [nals[0]]
  {
    if nals[1..] == [] {
      assert nals == [nals[0]];
    } else {
      assert nals == [nals[0]] + [[]];
    }
  }

  lemma OneUnit(s: seq<byte>, pos: nat, left: int, n: seq<byte>, next: nat, more: int)
    requires next == pos + 2 + |n| <= |s| && left == 2 + |n| + more && more >= 0 && pos + left <= |s|
    requires BE2(s, pos) == |n| && s[pos + 2..next] == n
    ensures Units(s, pos, left) == [n] + if more > 2 then Units(s, next, more) else []
  {
  }

  // What lies at the head of a packed aggregate inside a slot.
  lemma HeadOf(s: seq<byte>, pre: seq<byte>, size: seq<byte>, n: seq<byte>, tail: seq<byte>, post: seq<byte>)
    requires |size| == 2 && s == pre + (size + n + tail) + post
    ensures s == (pre + size + n) + tail + post
    ensures s[|pre|] == size[0] && s[|pre| + 1] == size[1]
    ensures s[|pre| + 2..|pre| + 2 + |n|] == n
  {
  }

  // The unpacking's first round, and what it leaves.
  lemma FirstRound(s: seq<byte>, pre: seq<byte>, size: seq<byte>, n: seq<byte>, tail: seq<byte>, post: seq<byte>)
    requires |size| == 2 && size[0] as int * 0x100 + size[1] as int == |n|
    requires s == pre + (size + n + tail) + post
    ensures s == (pre + size + n) + tail + post
    ensures Units(s, |pre|, |size + n + tail|) ==
            [n] + if |tail| > 2 then Units(s, |pre + size + n|, |tail|) else []
  {
    HeadOf(s, pre, size, n, tail, post);
    OneUnit(s, |pre|, |size + n + tail|, n, |pre + size + n|, |tail|);
  }

  lemma SizeBytes(n: nat)
    requires n < 0x1_0000
    ensures n / 0x100 < 0x100 && n / 0x100 * 0x100 + n % 0x100 == n
  {
  }

  lemma VisibleStep(nals: seq<seq<byte>>)
    requires nals != [] && forall k :: 0 <= k < |nals| ==> |nals[k]| < 0x1_0000
    ensures |Pack(nals[1..])| > 2 ==> nals[1..] != []
    ensures Visible(nals) == [nals[0]] + if |Pack(nals[1..])| > 2 then Visible(nals[1..]) else []
  {
    PackLength(nals[1..]);
    if nals[1..] != [] && nals[1..] != [[]] { VisibleTail(nals); } else { LastVisible(nals); }
  }

  lemma PackRound(s: seq<byte>, pre: seq<byte>, nals: seq<seq<byte>>, post: seq<byte>) returns (next: seq<byte>)
    requires nals != [] && forall k :: 0 <= k < |nals| ==> |nals[k]| < 0x1_0000
    requires s == pre + Pack(nals) + post
    ensures s == next + Pack(nals[1..]) + post
    ensures |Pack(nals)| >= 2
    ensures Units(s, |pre|, |Pack(nals)|) ==
            [nals[0]] + if |Pack(nals[1..])| > 2 then Units(s, |next|, |Pack(nals[1..])|) else []
  {
    var n, tail := nals[0], Pack(nals[1..]);
    var size: seq<byte> := [|n| / 0x100, |n| % 0x100];
    assert Pack(nals) == size + n + tail;
    SizeBytes(|n|);
    FirstRound(s, pre, size, n, tail, post);
    next := pre + size + n;
  }

  lemma {:induction false} UnitsOfPack(s: seq<byte>, pre: seq<byte>, nals: seq<seq<byte>>, post: seq<byte>)
    requires nals != [] && forall k :: 0 <= k < |nals| ==> |nals[k]| < 0x1_0000
    requires s == pre + Pack(nals) + post
    ensures |Pack(nals)| >= 2 && Units(s, |pre|, |Pack(nals)|) == Visible(nals)
    decreases |nals|
  {
    var next := PackRound(s, pre, nals, post);
    VisibleStep(nals);
    if |Pack(nals[1..])| > 2 { UnitsOfPack(s, next, nals[1..], post); }
  }

  // An aggregate unpacks to exactly its units, each behind a start code, if and only if it
  // does not end in an empty unit after others.
  lemma AggregateRoundTrip(h: State, conf: seq<byte>, p: Packet, nals: seq<seq<byte>>)
    requires Sound(p) && p.slot[0] % 0x20 == 24
    requires nals != [] && forall k :: 0 <= k < |nals| ==> |nals[k]| < 0x1_0000
    requires p.len == 1 + |Pack(nals)| && p.slot[1..p.len] == Pack(nals)
    ensures Parsed(h, conf, p).1 == Filled(Configured(h, conf).collected + AnnexB(Visible(nals)))
    ensures Visible(nals) == nals <==> (|nals| > 1 ==> nals[|nals| - 1] != [])
  {
    assert p.slot == p.slot[..1] + Pack(nals) + p.slot[p.len..];
    UnitsOfPack(p.slot, p.slot[..1], nals, p.slot[p.len..]);
  }

  // ---- FU-A: a fragmented unit is put together again ----

  function Joined(fragments: seq<seq<byte>>): seq<byte> {
    if fragments == [] then [] else Joined(fragments[..|fragments| - 1]) + fragments[|fragments| - 1]
  }

  // Fragment k of n of the unit with header byte `nal` (section 5.8 of RFC 3984).
  predicate IsFragment(p: Packet, nal: byte, fragment: seq<byte>, first: bool, last: bool, time: uint32) {
    && Sound(p) && p.time == time && p.len == 2 + |fragment| && p.slot[2..p.len] == fragment
    && p.slot[0] == nal / 0x20 * 0x20 + 28
    && p.slot[1] == (if first then 0x80 else 0) + (if last then 0x40 else 0) + nal % 0x20
  }

  function Agains(n: nat): (r: seq<Outcome>)
    ensures |r| == n && forall i :: 0 <= i < n ==> r[i] == Again
  {
    seq(n, _ => Again)
  }

  // Successive calls.
  function ParseAll(h: State, conf: seq<byte>, ps: seq<Packet>): (r: (State, seq<Outcome>))
    requires forall k :: 0 <= k < |ps| ==> Sound(ps[k])
    ensures |r.1| == |ps|
  {
    if ps == [] then (h, [])
    else
      var before := ParseAll(h, conf, ps[..|ps| - 1]);
      var now := Parsed(before.0, conf, ps[|ps| - 1]);
      (now.0, before.1 + [now.1])
  }

  ghost predicate Fragmented(ps: seq<Packet>, nal: byte, fragments: seq<seq<byte>>, time: uint32) {
    |ps| == |fragments| && forall k :: 0 <= k < |ps| ==>
      IsFragment(ps[k], nal, fragments[k], k == 0, k == |ps| - 1, time)
  }

  lemma OneFragment(h: State, conf: seq<byte>, p: Packet, nal: byte, fragment: seq<byte>, first: bool, last: bool)
    requires IsFragment(p, nal, fragment, first, last, p.time)
    requires h.configured || conf == []
    requires if first then h.collected == [] else h.collected != [] && h.timestamp == p.time
    ensures var grown := (if first then START_SEQ + [nal] else h.collected) + fragment;
            Parsed(h, conf, p) == if last then (h.(collected := [], timestamp := p.time), Filled(grown))
                                  else (h.(collected := grown, timestamp := p.time), Again)
  {
    assert START_SEQ + [nal] + fragment == (START_SEQ + [nal]) + fragment;
  }

  lemma FirstFragment(h: State, conf: seq<byte>, p: Packet, nal: byte, fragment: seq<byte>)
    requires IsFragment(p, nal, fragment, true, false, p.time)
    requires h.collected == [] && (h.configured || conf == [])
    ensures ParseAll(h, conf, [p]) ==
            (h.(collected := START_SEQ + [nal] + Joined([fragment]), timestamp := p.time), Agains(1))
  {
    OneFragment(h, conf, p, nal, fragment, true, false);
    assert [p][..0] == [] && [fragment][..0] == [];
    assert Joined([fragment]) == [] + fragment == fragment;
    assert Agains(1) == [] + [Again];
  }

  lemma FragmentsSound(ps: seq<Packet>, nal: byte, fragments: seq<seq<byte>>, time: uint32)
    requires Fragmented(ps, nal, fragments, time)
    ensures forall i :: 0 <= i < |ps| ==> Sound(ps[i])
  {
    assert forall i :: 0 <= i < |ps| ==> IsFragment(ps[i], nal, fragments[i], i == 0, i == |ps| - 1, time);
  }

  lemma JoinedAfter(fragments: seq<seq<byte>>, before: seq<byte>, k: nat)
    requires 1 < k <= |fragments|
    ensures before + Joined(fragments[..k]) == before + Joined(fragments[..k - 1]) + fragments[k - 1]
  {
    assert fragments[..k][..k - 1] == fragments[..k - 1];
    assert Joined(fragments[..k]) == Joined(fragments[..k - 1]) + fragments[k - 1];
    Regroup(before, Joined(fragments[..k - 1]), fragments[k - 1]);
  }

  // One more fragment after k.
  lemma NextFragment(h: State, conf: seq<byte>, ps: seq<Packet>, nal: byte, fragments: seq<seq<byte>>, time: uint32,
                     k: nat, before: seq<byte>, configured: bool)
    requires Fragmented(ps, nal, fragments, time) && 0 < k < |ps| - 1 && before != [] && (configured || conf == [])
    requires forall i :: 0 <= i < |ps| ==> Sound(ps[i])
    requires ParseAll(h, conf, ps[..k]) == (State(before + Joined(fragments[..k]), time, configured), Agains(k))
    ensures ParseAll(h, conf, ps[..k + 1]) ==
            (State(before + Joined(fragments[..k + 1]), time, configured), Agains(k + 1))
  {
    assert ps[..k + 1][..k] == ps[..k];
    assert IsFragment(ps[k], nal, fragments[k], false, false, time);
    JoinedAfter(fragments, before, k + 1);
    OneFragment(State(before + Joined(fragments[..k]), time, configured), conf, ps[k], nal, fragments[k], false, false);
    assert Agains(k) + [Again] == Agains(k + 1);
  }

  lemma {:induction false} FragmentsSoFar(h: State, conf: seq<byte>, ps: seq<Packet>, nal: byte,
                                          fragments: seq<seq<byte>>, time: uint32, k: nat)
    requires Fragmented(ps, nal, fragments, time) && 0 < k < |ps|
    requires h.collected == [] && (h.configured || conf == [])
    ensures forall i :: 0 <= i < |ps| ==> Sound(ps[i])
    ensures ParseAll(h, conf, ps[..k]) ==
            (h.(collected := START_SEQ + [nal] + Joined(fragments[..k]), timestamp := time), Agains(k))
    decreases k
  {
    FragmentsSound(ps, nal, fragments, time);
    if k == 1 {
      assert IsFragment(ps[0], nal, fragments[0], true, false, time);
      FirstFragment(h, conf, ps[0], nal, fragments[0]);
      assert ps[..1] == [ps[0]] && fragments[..1] == [fragments[0]];
    } else {
      FragmentsSoFar(h, conf, ps, nal, fragments, time, k - 1);
      NextFragment(h, conf, ps, nal, fragments, time, k - 1, START_SEQ + [nal], h.configured);
    }
  }

  // However a NAL unit is cut into two or more fragments, every call but the last asks for
  // more, and the last returns the start code and the exact unit.
  lemma FragmentsRoundTrip(h: State, conf: seq<byte>, ps: seq<Packet>, nal: byte, fragments: seq<seq<byte>>,
                           time: uint32)
    requires Fragmented(ps, nal, fragments, time) && |ps| >= 2
    requires h.collected == [] && (h.configured || conf == [])
    ensures forall i :: 0 <= i < |ps| ==> Sound(ps[i])
    ensures ParseAll(h, conf, ps) ==
            (h.(timestamp := time), Agains(|ps| - 1) + [Filled(START_SEQ + [nal] + Joined(fragments))])
  {
    var n := |ps|;
    FragmentsSoFar(h, conf, ps, nal, fragments, time, n - 1);
    assert IsFragment(ps[n - 1], nal, fragments[n - 1], false, true, time);
    var before := ParseAll(h, conf, ps[..n - 1]).0;
    OneFragment(before, conf, ps[n - 1], nal, fragments[n - 1], false, true);
    Regroup(START_SEQ + [nal], Joined(fragments[..n - 1]), fragments[n - 1]);
  }

  // ---- a start fragment that finds the buffer in use ----

  // What the buffer holds when the parser comes to a packet, and what of it are parameter sets
  // not sent before.
  function Buffered(h: State, conf: seq<byte>): seq<byte> { Configured(h, conf).collected }

  function Pending(h: State, conf: seq<byte>): seq<byte> { if h.configured then [] else conf }

  // It is taken for a continuation.
  lemma StartInUse(h: State, conf: seq<byte>, p: Packet, nal: byte, fragment: seq<byte>)
    requires IsFragment(p, nal, fragment, true, false, p.time) && Buffered(h, conf) != []
    ensures var g := Configured(h, conf);
            Parsed(h, conf, p) ==
            if p.time == h.timestamp then (g.(collected := g.collected + fragment), Again)
            else (g.(collected := []), Unknown)
  {
  }

  // A fragment that is not the first, with nothing of its unit collected, is dropped.
  lemma StrayFragment(h: State, conf: seq<byte>, p: Packet, nal: byte, fragment: seq<byte>, last: bool)
    requires IsFragment(p, nal, fragment, false, last, p.time) && (h.configured || conf == []) && h.collected == []
    requires p.time != h.timestamp
    ensures Parsed(h, conf, p) == (h, Unknown)
  {
  }

  function Unknowns(n: nat): (r: seq<Outcome>)
    ensures |r| == n && forall i :: 0 <= i < n ==> r[i] == Unknown
  {
    seq(n, _ => Unknown)
  }

  // With another timestamp stored every fragment of the unit is dropped.
  lemma {:induction false} InUseDropped(h: State, conf: seq<byte>, ps: seq<Packet>, nal: byte,
                                        fragments: seq<seq<byte>>, time: uint32, k: nat)
    requires Fragmented(ps, nal, fragments, time) && |ps| >= 2 && 0 < k <= |ps|
    requires Buffered(h, conf) != [] && time != h.timestamp
    ensures forall i :: 0 <= i < |ps| ==> Sound(ps[i])
    ensures ParseAll(h, conf, ps[..k]) == (Configured(h, conf).(collected := []), Unknowns(k))
    decreases k
  {
    FragmentsSound(ps, nal, fragments, time);
    assert ps[..k][..k - 1] == ps[..k - 1];
    assert IsFragment(ps[k - 1], nal, fragments[k - 1], k == 1, k == |ps|, time);
    if k == 1 {
      StartInUse(h, conf, ps[0], nal, fragments[0]);
      assert ParseAll(h, conf, ps[..0]) == (h, []);
      assert [] + [Unknown] == Unknowns(1);
    } else {
      InUseDropped(h, conf, ps, nal, fragments, time, k - 1);
      StrayFragment(Configured(h, conf).(collected := []), conf, ps[k - 1], nal, fragments[k - 1], k == |ps|);
      assert Unknowns(k - 1) + [Unknown] == Unknowns(k);
    }
  }

  // With the same timestamp stored the fragments are appended to what was there, without the
  // start code and the unit's first byte.
  lemma {:induction false} InUseSoFar(h: State, conf: seq<byte>, ps: seq<Packet>, nal: byte,
                                      fragments: seq<seq<byte>>, time: uint32, k: nat)
    requires Fragmented(ps, nal, fragments, time) && 0 < k < |ps|
    requires Buffered(h, conf) != [] && time == h.timestamp
    ensures forall i :: 0 <= i < |ps| ==> Sound(ps[i])
    ensures ParseAll(h, conf, ps[..k]) ==
            (Configured(h, conf).(collected := Buffered(h, conf) + Joined(fragments[..k])), Agains(k))
    decreases k
  {
    FragmentsSound(ps, nal, fragments, time);
    if k == 1 {
      assert IsFragment(ps[0], nal, fragments[0], true, false, time) && ps[..1][..0] == ps[..0];
      StartInUse(h, conf, ps[0], nal, fragments[0]);
      assert ParseAll(h, conf, ps[..0]) == (h, []);
      var only := [fragments[0]];
      assert fragments[..1] == only && only[..0] == [];
      assert Joined(only) == [] + fragments[0] == fragments[0];
      assert [] + [Again] == Agains(1);
    } else {
      InUseSoFar(h, conf, ps, nal, fragments, time, k - 1);
      NextFragment(h, conf, ps, nal, fragments, time, k - 1, Buffered(h, conf), Configured(h, conf).configured);
    }
  }

  lemma InUseLast(h: State, conf: seq<byte>, ps: seq<Packet>, nal: byte, fragments: seq<seq<byte>>, time: uint32)
    requires Fragmented(ps, nal, fragments, time) && |ps| >= 2
    requires Buffered(h, conf) != [] && time == h.timestamp
    ensures forall i :: 0 <= i < |ps| ==> Sound(ps[i])
    ensures ParseAll(h, conf, ps).1 == Agains(|ps| - 1) + [Filled(Buffered(h, conf) + Joined(fragments))]
  {
    var n, held := |ps|, Buffered(h, conf);
    assert fragments[..n] == fragments;
    InUseSoFar(h, conf, ps, nal, fragments, time, n - 1);
    assert IsFragment(ps[n - 1], nal, fragments[n - 1], false, true, time);
    JoinedAfter(fragments, held, n);
    var before := Configured(h, conf).(collected := held + Joined(fragments[..n - 1]));
    OneFragment(before, conf, ps[n - 1], nal, fragments[n - 1], false, true);
    assert Parsed(before, conf, ps[n - 1]).1 == Filled(held + Joined(fragments));
  }

  // What a fragmented unit comes to, whatever the parser holds.
  lemma FragmentsOutcome(h: State, conf: seq<byte>, ps: seq<Packet>, nal: byte, fragments: seq<seq<byte>>, time: uint32)
    requires Fragmented(ps, nal, fragments, time) && |ps| >= 2
    ensures forall i :: 0 <= i < |ps| ==> Sound(ps[i])
    ensures var held := Buffered(h, conf);
            ParseAll(h, conf, ps).1 ==
            if held == [] then Agains(|ps| - 1) + [Filled(START_SEQ + [nal] + Joined(fragments))]
            else if time == h.timestamp then Agains(|ps| - 1) + [Filled(held + Joined(fragments))]
            else Unknowns(|ps|)
  {
    if Buffered(h, conf) == [] {
      FragmentsRoundTrip(h, conf, ps, nal, fragments, time);
    } else if time == h.timestamp {
      InUseLast(h, conf, ps, nal, fragments, time);
    } else {
      assert ps[..|ps|] == ps;
      InUseDropped(h, conf, ps, nal, fragments, time, |ps|);
    }
  }

  lemma SameBefore(a: seq<byte>, b: seq<byte>, c: seq<byte>)
    ensures a + c == b + c <==> a == b
  {
    if a + c == b + c {
      assert |a| == |b|;
      assert (a + c)[..|a|] == a && (b + c)[..|b|] == b;
    }
  }

  // A fragmented unit comes out whole, behind pending parameter sets if there are any, if and
  // only if the buffer is empty and none are pending, or what is there happens to be the very
  // bytes that belong before the fragments, under their timestamp.
  lemma FragmentsRightIff(h: State, conf: seq<byte>, ps: seq<Packet>, nal: byte, fragments: seq<seq<byte>>,
                          time: uint32)
    requires Fragmented(ps, nal, fragments, time) && |ps| >= 2
    ensures forall i :: 0 <= i < |ps| ==> Sound(ps[i])
    ensures var start := Pending(h, conf) + (START_SEQ + [nal]);
            ParseAll(h, conf, ps).1 == Agains(|ps| - 1) + [Filled(start + Joined(fragments))]
            <==> Buffered(h, conf) == [] || (time == h.timestamp && Buffered(h, conf) == start)
  {
    var n, start, held := |ps|, Pending(h, conf) + (START_SEQ + [nal]), Buffered(h, conf);
    FragmentsOutcome(h, conf, ps, nal, fragments, time);
    SameBefore(held, start, Joined(fragments));
    var right := Agains(n - 1) + [Filled(start + Joined(fragments))];
    assert right[n - 1] == Filled(start + Joined(fragments));
    if held == [] {
      assert start == START_SEQ + [nal];
    } else if time == h.timestamp {
      assert ParseAll(h, conf, ps).1[n - 1] == Filled(held + Joined(fragments));
    } else {
      assert ParseAll(h, conf, ps).1[n - 1] == Unknown;
    }
  }
}
