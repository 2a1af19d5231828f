// A whole stream through the H.264 depacketizer (section 5 of RFC 3984): single units,
// aggregates and fragmented units in any mix come out as the byte stream of the units sent.
module H264Streams {
  import opened Words
  import opened Sequences
  import opened H264

  // How the sender puts units into packets: one by itself, several in an aggregate, or one cut
  // into fragments behind its header byte.
  datatype Piece =
    | One(unit: seq<byte>)
    | Several(nals: seq<seq<byte>>)
    | Cut(nal: byte, fragments: seq<seq<byte>>, time: uint32)

  function UnitsIn(piece: Piece): seq<seq<byte>> {
    match piece
    case One(unit) => [unit]
    case Several(nals) => nals
    case Cut(nal, fragments, _) => [[nal] + Joined(fragments)]
  }

  ghost predicate Carries(ps: seq<Packet>, piece: Piece) {
    match piece
    case One(unit) =>
      && |ps| == 1 && Sound(ps[0]) && ps[0].slot[..ps[0].len] == unit
      && 1 <= ps[0].slot[0] % 0x20 <= 23
    case Several(nals) =>
      && |ps| == 1 && Sound(ps[0]) && ps[0].slot[0] % 0x20 == 24
      && nals != [] && (|nals| > 1 ==> nals[|nals| - 1] != [])
      && (forall k :: 0 <= k < |nals| ==> |nals[k]| < 0x1_0000)
      && ps[0].len == 1 + |Pack(nals)| && ps[0].slot[1..ps[0].len] == Pack(nals)
    case Cut(nal, fragments, time) => |ps| >= 2 && Fragmented(ps, nal, fragments, time)
  }

  // Nothing is left from earlier packets, and no parameter sets are still to be sent.
  predicate Clean(h: State, conf: seq<byte>) {
    h.collected == [] && (h.configured || conf == [])
  }

  // One frame per piece, with its last packet.
  function Frames(ps: seq<Packet>, piece: Piece): seq<Outcome>
    requires ps != []
  {
    Agains(|ps| - 1) + [Filled(AnnexB(UnitsIn(piece)))]
  }

  lemma AllSound(ps: seq<Packet>, piece: Piece)
    requires Carries(ps, piece)
    ensures ps != [] && forall k :: 0 <= k < |ps| ==> Sound(ps[k])
  {
    if piece.Cut? { FragmentsSound(ps, piece.nal, piece.fragments, piece.time); }
  }

  lemma ParseOne(h: State, conf: seq<byte>, ps: seq<Packet>)
    requires |ps| == 1 && Sound(ps[0])
    ensures ParseAll(h, conf, ps) == (Parsed(h, conf, ps[0]).0, [Parsed(h, conf, ps[0]).1])
  {
    assert ps[..0] == [];
    assert [] + [Parsed(h, conf, ps[0]).1] == [Parsed(h, conf, ps[0]).1];
  }

  lemma OneOut(h: State, conf: seq<byte>, p: Packet, piece: Piece)
    requires Clean(h, conf) && !piece.Cut? && Carries([p], piece)
    ensures Parsed(h, conf, p) == (h, Filled(AnnexB(UnitsIn(piece))))
  {
    match piece
    case One(unit) => assert AnnexB([unit]) == START_SEQ + unit + [] == [] + START_SEQ + unit;
    case Several(nals) => AggregateRoundTrip(h, conf, p, nals); assert [] + AnnexB(nals) == AnnexB(nals);
  }

  // From a clean state a piece comes out whole and leaves the state clean.
  lemma PieceOut(h: State, conf: seq<byte>, ps: seq<Packet>, piece: Piece)
    requires Clean(h, conf) && Carries(ps, piece)
    ensures ps != [] && forall k :: 0 <= k < |ps| ==> Sound(ps[k])
    ensures Clean(ParseAll(h, conf, ps).0, conf) && ParseAll(h, conf, ps).1 == Frames(ps, piece)
  {
    AllSound(ps, piece);
    if piece.Cut? {
      FragmentsRoundTrip(h, conf, ps, piece.nal, piece.fragments, piece.time);
      CutBytes(piece.nal, Joined(piece.fragments));
    } else {
      assert ps == [ps[0]];
      ParseOne(h, conf, ps);
      OneOut(h, conf, ps[0], piece);
    }
  }

  lemma CutBytes(nal: byte, rest: seq<byte>)
    ensures AnnexB([[nal] + rest]) == START_SEQ + [nal] + rest
  {
    assert AnnexB([[nal] + rest]) == START_SEQ + ([nal] + rest) + [];
  }

  lemma {:induction false} ParseOn(h: State, conf: seq<byte>, a: seq<Packet>, b: seq<Packet>)
    requires forall k :: 0 <= k < |a| ==> Sound(a[k])
    requires forall k :: 0 <= k < |b| ==> Sound(b[k])
    ensures var g := ParseAll(h, conf, a);
            ParseAll(h, conf, a + b) == (ParseAll(g.0, conf, b).0, g.1 + ParseAll(g.0, conf, b).1)
    decreases |b|
  {
    if b == [] {
      assert a + b == a && ParseAll(h, conf, a).1 + [] == ParseAll(h, conf, a).1;
    } else {
      var init, last := b[..|b| - 1], b[|b| - 1];
      ParseOn(h, conf, a, init);
      LastOn(h, conf, a + init, last);
      var g := ParseAll(h, conf, a);
      LastOn(g.0, conf, init, last);
      assert a + b == a + init + [last] && b == init + [last];
      Regroup(g.1, ParseAll(g.0, conf, init).1, [Parsed(ParseAll(g.0, conf, init).0, conf, last).1]);
    }
  }

  lemma LastOn(h: State, conf: seq<byte>, ps: seq<Packet>, p: Packet)
    requires Sound(p) && forall k :: 0 <= k < |ps| ==> Sound(ps[k])
    ensures var g := ParseAll(h, conf, ps);
            ParseAll(h, conf, ps + [p]) == (Parsed(g.0, conf, p).0, g.1 + [Parsed(g.0, conf, p).1])
  {
    assert (ps + [p])[..|ps|] == ps;
  }

  // ---- the stream ----

  ghost predicate Sent(groups: seq<seq<Packet>>, pieces: seq<Piece>) {
    |groups| == |pieces| && forall k :: 0 <= k < |groups| ==> Carries(groups[k], pieces[k])
  }

  function AllUnits(pieces: seq<Piece>): seq<seq<byte>> {
    if pieces == [] then [] else UnitsIn(pieces[0]) + AllUnits(pieces[1..])
  }

  // The frames handed out by a sequence of calls.
  function Delivered(outs: seq<Outcome>): seq<seq<byte>> {
    if outs == [] then []
    else (match outs[0] case Filled(frame) => [frame] case _ => []) + Delivered(outs[1..])
  }

  // One frame per piece.
  function FramesOf(pieces: seq<Piece>): seq<seq<byte>> {
    if pieces == [] then [] else [AnnexB(UnitsIn(pieces[0]))] + FramesOf(pieces[1..])
  }

  lemma {:induction false} DeliveredOn(a: seq<Outcome>, b: seq<Outcome>)
    ensures Delivered(a + b) == Delivered(a) + Delivered(b)
  {
    if a == [] {
      assert a + b == b;
    } else {
      assert (a + b)[1..] == a[1..] + b;
      DeliveredOn(a[1..], b);
    }
  }

  lemma {:induction false} AgainsDeliverNothing(n: nat)
    ensures Delivered(Agains(n)) == []
  {
    if n > 0 {
      assert Agains(n)[1..] == Agains(n - 1);
      AgainsDeliverNothing(n - 1);
    }
  }

  lemma FramesDeliver(ps: seq<Packet>, piece: Piece)
    requires ps != []
    ensures Delivered(Frames(ps, piece)) == [AnnexB(UnitsIn(piece))]
  {
    var last := [Filled(AnnexB(UnitsIn(piece)))];
    DeliveredOn(Agains(|ps| - 1), last);
    AgainsDeliverNothing(|ps| - 1);
    assert Delivered(last) == [AnnexB(UnitsIn(piece))] + [];
  }

  // From h on, the packets deliver these frames; no call fails, and the parser is clean again.
  ghost predicate Streams(h: State, conf: seq<byte>, ps: seq<Packet>, frames: seq<seq<byte>>) {
    && (forall k :: 0 <= k < |ps| ==> Sound(ps[k]))
    && var (g, outs) := ParseAll(h, conf, ps);
       && Clean(g, conf) && Delivered(outs) == frames
       && forall k :: 0 <= k < |outs| ==> outs[k] == Again || outs[k].Filled?
  }

  lemma PieceStreams(h: State, conf: seq<byte>, ps: seq<Packet>, piece: Piece)
    requires Clean(h, conf) && Carries(ps, piece)
    ensures Streams(h, conf, ps, [AnnexB(UnitsIn(piece))])
  {
    PieceOut(h, conf, ps, piece);
    FramesDeliver(ps, piece);
  }

  lemma StreamsOn(h: State, conf: seq<byte>, a: seq<Packet>, fa: seq<seq<byte>>, b: seq<Packet>, fb: seq<seq<byte>>)
    requires Streams(h, conf, a, fa) && Streams(ParseAll(h, conf, a).0, conf, b, fb)
    ensures Streams(h, conf, a + b, fa + fb)
  {
    ParseOn(h, conf, a, b);
    DeliveredOn(ParseAll(h, conf, a).1, ParseAll(ParseAll(h, conf, a).0, conf, b).1);
  }

  // Whatever mix of single, aggregated and fragmented units is sent, one frame per piece is
  // handed out; end to end they are the byte stream of exactly the units sent, in their order.
  lemma {:induction false} StreamRoundTrip(h: State, conf: seq<byte>, groups: seq<seq<Packet>>, pieces: seq<Piece>)
    requires Clean(h, conf) && Sent(groups, pieces)
    ensures Streams(h, conf, Flat(groups), FramesOf(pieces))
    ensures Flat(FramesOf(pieces)) == AnnexB(AllUnits(pieces))
    decreases |groups|
  {
    if groups != [] {
      PieceStreams(h, conf, groups[0], pieces[0]);
      StreamRoundTrip(ParseAll(h, conf, groups[0]).0, conf, groups[1..], pieces[1..]);
      StreamsOn(h, conf, groups[0], FramesOf(pieces)[..1], Flat(groups[1..]), FramesOf(pieces[1..]));
      AnnexBAppend(UnitsIn(pieces[0]), AllUnits(pieces[1..]));
    }
  }

  // ---- parameter sets pending, or bytes left over ----

  // A single unit or an aggregate takes along what the buffer held and then the parameter sets
  // not sent before, whatever the parser's state.
  lemma FirstOut(h: State, conf: seq<byte>, p: Packet, piece: Piece)
    requires !piece.Cut? && Carries([p], piece)
    ensures Parsed(h, conf, p).1 == Filled(h.collected + Pending(h, conf) + AnnexB(UnitsIn(piece)))
    ensures Clean(Parsed(h, conf, p).0, conf)
  {
    assert Configured(h, conf).collected == h.collected + Pending(h, conf);
    match piece
    case One(unit) =>
      assert AnnexB([unit]) == START_SEQ + unit + [] == START_SEQ + unit;
      Regroup(h.collected + Pending(h, conf), START_SEQ, unit);
    case Several(nals) => AggregateRoundTrip(h, conf, p, nals);
  }

  // One frame per piece, the first one with the bytes held in front.
  function FramesBehind(held: seq<byte>, pieces: seq<Piece>): seq<seq<byte>>
    requires pieces != []
  {
    [held + AnnexB(UnitsIn(pieces[0]))] + FramesOf(pieces[1..])
  }

  lemma FramesEndToEnd(held: seq<byte>, pieces: seq<Piece>)
    requires pieces != [] && Flat(FramesOf(pieces[1..])) == AnnexB(AllUnits(pieces[1..]))
    ensures Flat(FramesBehind(held, pieces)) == held + AnnexB(AllUnits(pieces))
  {
    assert FramesBehind(held, pieces)[1..] == FramesOf(pieces[1..]);
    AnnexBAppend(UnitsIn(pieces[0]), AllUnits(pieces[1..]));
    Regroup(held, AnnexB(UnitsIn(pieces[0])), AnnexB(AllUnits(pieces[1..])));
  }

  // So a stream that does not begin with a fragmented unit comes out whole from any state: what
  // was held, the parameter sets if they are due, and the byte stream of the units.
  lemma StreamFromAnyState(h: State, conf: seq<byte>, groups: seq<seq<Packet>>, pieces: seq<Piece>)
    requires Sent(groups, pieces) && pieces != [] && !pieces[0].Cut?
    ensures var held := h.collected + Pending(h, conf);
            && Streams(h, conf, Flat(groups), FramesBehind(held, pieces))
            && Flat(FramesBehind(held, pieces)) == held + AnnexB(AllUnits(pieces))
  {
    var held, first := h.collected + Pending(h, conf), groups[0];
    var frame := held + AnnexB(UnitsIn(pieces[0]));
    assert first == [first[0]];
    FirstOut(h, conf, first[0], pieces[0]);
    ParseOne(h, conf, first);
    StreamRoundTrip(ParseAll(h, conf, first).0, conf, groups[1..], pieces[1..]);
    assert Delivered([Filled(frame)]) == [frame] + [];
    StreamsOn(h, conf, first, [frame], Flat(groups[1..]), FramesOf(pieces[1..]));
    FramesEndToEnd(held, pieces);
  }

  // From the state the parser is made in, the parameter sets come first.
  lemma StreamFromStart(conf: seq<byte>, groups: seq<seq<Packet>>, pieces: seq<Piece>)
    requires Sent(groups, pieces) && pieces != [] && !pieces[0].Cut?
    ensures Streams(State([], 0, false), conf, Flat(groups), FramesBehind(conf, pieces))
    ensures Flat(FramesBehind(conf, pieces)) == conf + AnnexB(AllUnits(pieces))
  {
    StreamFromAnyState(State([], 0, false), conf, groups, pieces);
    assert [] + conf == conf;
  }
}
