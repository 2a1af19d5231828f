// The two walks over a received RTCP packet: rtcp_hdr_val_chk and rtcp_parse_pkt of
// src/rtcp/rtcp_recv.c (Appendix A.2 of RFC 3550).
module RtcpPackets {
  import opened Words
  import opened Sequences

  const RTCP_SR: byte := 200
  const RTCP_RR: byte := 201
  const RTCP_SDES: byte := 202
  const RTCP_BYE: byte := 203
  const RTCP_APP: byte := 204

  // ---- the common header at word w of the n bytes received ----

  function End(b: seq<byte>): nat { |b| / 4 }

  function Ver(b: seq<byte>, w: nat): nat
    requires w < End(b)
  {
    b[4 * w] / 64
  }

  function Pad(b: seq<byte>, w: nat): bool
    requires w < End(b)
  {
    b[4 * w] / 32 % 2 == 1
  }

  function Pt(b: seq<byte>, w: nat): byte
    requires w < End(b)
  {
    b[4 * w + 1]
  }

  // ntohs(common.len)
  function Len(b: seq<byte>, w: nat): uint16
    requires w < End(b)
  {
    (b[4 * w + 2] as int) * 256 + b[4 * w + 3]
  }

  // common.len as a little-endian host reads it
  function HostLen(b: seq<byte>, w: nat): uint16
    requires w < End(b)
  {
    b[4 * w + 2] + (b[4 * w + 3] as int) * 256
  }

  function Next(b: seq<byte>, w: nat): (v: nat)
    requires w < End(b)
    ensures v > w
  {
    w + Len(b, w) + 1
  }

  // Version 2, no padding, SR or RR.
  predicate FirstValid(b: seq<byte>)
    requires 0 < End(b)
  {
    Ver(b, 0) == 2 && !Pad(b, 0) && (Pt(b, 0) == RTCP_SR || Pt(b, 0) == RTCP_RR)
  }

  predicate Compound(b: seq<byte>)
    requires 0 < End(b)
  {
    End(b) > Len(b, 0) + 1
  }

  // ---- what a compound packet is: packets of version 2, end to end ----

  // The tiling from word w on.
  predicate TilingFrom(b: seq<byte>, w: nat, starts: seq<nat>) {
    starts != [] && starts[0] == w &&
    (forall k :: 0 <= k < |starts| ==> starts[k] < End(b) && Ver(b, starts[k]) == 2) &&
    (forall k :: 0 < k < |starts| ==> starts[k] == Next(b, starts[k - 1])) &&
    Next(b, starts[|starts| - 1]) == End(b)
  }

  predicate Tiling(b: seq<byte>, starts: seq<nat>) { TilingFrom(b, 0, starts) }

  ghost predicate Tiled(b: seq<byte>) { exists starts :: Tiling(b, starts) }

  // ---- the headers' check ----

  // Where the walk over the packets of version 2 stops.
  function Stop(b: seq<byte>, w: nat): (v: nat)
    requires w < End(b)
    decreases End(b) - w
  {
    var v := Next(b, w);
    if v < End(b) && Ver(b, v) == 2 then Stop(b, v) else v
  }

  // The 16-bit mask and value of a little-endian host, on the first two bytes.
  predicate MaskMatches(b: seq<byte>)
    requires 0 < End(b)
  {
    // RTCP_VALID_MASK selects ver, pad and all but the lowest bit of pt
    b[0] / 32 == 4 && b[1] / 2 == 100
  }

  lemma MaskRight(b: seq<byte>)
    requires 0 < End(b)
    ensures MaskMatches(b) <==> FirstValid(b)
  {
  }

  predicate Valid(b: seq<byte>) {
    |b| >= 4 &&
    if Compound(b) then FirstValid(b) && Stop(b, 0) == End(b)
    else Ver(b, 0) == 2 && RTCP_SR <= Pt(b, 0) <= RTCP_APP && !(Pad(b, 0) && b[|b| - 1] as int > HostLen(b, 0) * 4)
  }

  // rtcp_hdr_val_chk; ok is a return value of 0.
  method HdrValChk(b: seq<byte>) returns (ok: bool)
    ensures ok <==> Valid(b)
  {
    if |b| < 4 { return false; }
    if |b| / 4 > Len(b, 0) + 1 {
      MaskRight(b);
      if !MaskMatches(b) { return false; }
      var end := |b| / 4;
      var pkt: nat := Next(b, 0);
      while pkt < end && Ver(b, pkt) == 2
        invariant Stop(b, 0) == if pkt < end && Ver(b, pkt) == 2 then Stop(b, pkt) else pkt
        decreases end - pkt
      {
        pkt := Next(b, pkt);
      }
      return pkt == end;
    }
    if Ver(b, 0) != 2 { return false; }
    if !(Pt(b, 0) >= 200 && Pt(b, 0) <= 204) { return false; }
    if Pad(b, 0) && b[|b| - 1] as int > HostLen(b, 0) * 4 { return false; }
    ok := true;
  }

  lemma {:induction false} StopTiles(b: seq<byte>, w: nat) returns (starts: seq<nat>)
    requires w < End(b) && Ver(b, w) == 2 && Stop(b, w) == End(b)
    ensures TilingFrom(b, w, starts)
    decreases End(b) - w
  {
    var v := Next(b, w);
    if v < End(b) && Ver(b, v) == 2 {
      var rest := StopTiles(b, v);
      starts := [w] + rest;
      assert forall k :: 0 < k < |starts| ==> starts[k] == rest[k - 1];
      assert starts[|starts| - 1] == rest[|rest| - 1];
      forall k | 0 < k < |starts| ensures starts[k] == Next(b, starts[k - 1]) {
        if k > 1 { assert starts[k - 1] == rest[k - 2] && rest[k - 1] == Next(b, rest[k - 2]); }
      }
    } else {
      starts := [w];
    }
  }

  lemma {:induction false} TilesStop(b: seq<byte>, w: nat, starts: seq<nat>)
    requires w < End(b) && TilingFrom(b, w, starts)
    ensures Stop(b, w) == End(b)
    decreases |starts|
  {
    if |starts| > 1 {
      TailTiles(b, w, starts);
      TilesStop(b, starts[1], starts[1..]);
    }
  }

  lemma TailTiles(b: seq<byte>, w: nat, starts: seq<nat>)
    requires w < End(b) && TilingFrom(b, w, starts) && |starts| > 1
    ensures starts[1] == Next(b, w) && TilingFrom(b, starts[1], starts[1..])
  {
    var rest := starts[1..];
    assert forall k :: 0 <= k < |rest| ==> rest[k] == starts[k + 1];
    assert rest[|rest| - 1] == starts[|starts| - 1];
    forall k | 0 < k < |rest| ensures rest[k] == Next(b, rest[k - 1]) {
      assert starts[k + 1] == Next(b, starts[k]);
    }
  }

  // A compound packet is accepted exactly when its words are tiled by packets of version 2
  // of which the first is an unpadded report.
  lemma CompoundAcceptedIff(b: seq<byte>)
    requires |b| >= 4 && Compound(b)
    ensures Valid(b) <==> FirstValid(b) && Tiled(b)
  {
    if Valid(b) {
      var starts := StopTiles(b, 0);
      assert Tiling(b, starts);
    }
    if FirstValid(b) && Tiled(b) {
      var starts :| Tiling(b, starts);
      TilesStop(b, 0, starts);
    }
  }

  // ---- the dispatch ----

  predicate KnownType(pt: byte) { RTCP_SR <= pt <= RTCP_APP }

  // Done, an unknown packet type (1), a failed handler (-1).
  datatype Verdict = Done | Unknown | HandlerFailed

  // The packets handed to a handler from word w on, and the verdict. `broken` holds the
  // words at which the handler of an SDES packet fails for want of memory.
  function Dispatch(b: seq<byte>, w: nat, broken: set<nat>): (seq<nat>, Verdict)
    decreases if w < End(b) then End(b) - w else 0
  {
    if w >= End(b) then ([], Done)
    else if !KnownType(Pt(b, w)) then ([], Unknown)
    else if Pt(b, w) == RTCP_SDES && w in broken then ([w], HandlerFailed)
    else
      var (rest, v) := Dispatch(b, Next(b, w), broken);
      ([w] + rest, v)
  }

  // Only the handler of an SDES packet (type 202) makes the dispatch fail, and it is the last
  // packet handed out then; an unknown type is one outside 200 to 204.
  lemma {:induction false} DispatchEnds(b: seq<byte>, w: nat, broken: set<nat>)
    ensures var (handled, v) := Dispatch(b, w, broken);
            && (v == HandlerFailed ==> handled != [] && handled[|handled| - 1] in broken
                                       && handled[|handled| - 1] < End(b) && Pt(b, handled[|handled| - 1]) == 202)
            && (forall k :: 0 <= k < |handled| ==> handled[k] < End(b) && 200 <= Pt(b, handled[k]) <= 204)
    decreases if w < End(b) then End(b) - w else 0
  {
    if w < End(b) && KnownType(Pt(b, w)) && !(Pt(b, w) == RTCP_SDES && w in broken) {
      DispatchEnds(b, Next(b, w), broken);
    }
  }

  // The dispatch has handed out `handled` and is at word pkt.
  ghost predicate DispatchedTo(b: seq<byte>, broken: set<nat>, handled: seq<nat>, pkt: nat) {
    Dispatch(b, 0, broken) == (handled + Dispatch(b, pkt, broken).0, Dispatch(b, pkt, broken).1)
  }

  lemma NextDispatched(b: seq<byte>, broken: set<nat>, handled: seq<nat>, pkt: nat)
    requires DispatchedTo(b, broken, handled, pkt) && pkt < End(b)
    requires KnownType(Pt(b, pkt)) && !(Pt(b, pkt) == RTCP_SDES && pkt in broken)
    ensures DispatchedTo(b, broken, handled + [pkt], Next(b, pkt))
  {
    Regroup(handled, [pkt], Dispatch(b, Next(b, pkt), broken).0);
  }

  lemma DispatchStops(b: seq<byte>, broken: set<nat>, handled: seq<nat>, pkt: nat)
    requires DispatchedTo(b, broken, handled, pkt)
    ensures pkt >= End(b) ==> Dispatch(b, 0, broken) == (handled, Done)
    ensures pkt < End(b) && !KnownType(Pt(b, pkt)) ==> Dispatch(b, 0, broken) == (handled, Unknown)
    ensures pkt < End(b) && Pt(b, pkt) == RTCP_SDES && pkt in broken ==>
              Dispatch(b, 0, broken) == (handled + [pkt], HandlerFailed)
  {
    assert handled + [] == handled;
  }

  // rtcp_parse_pkt: `handled` lists the packets passed to the handlers.
  method ParsePkt(b: seq<byte>, broken: set<nat>) returns (handled: seq<nat>, v: Verdict, stop: nat)
    ensures (handled, v) == Dispatch(b, 0, broken)
    ensures v == Done <==> stop >= End(b)
    ensures v == Done && handled != [] ==>
              handled[|handled| - 1] < End(b) && stop == Next(b, handled[|handled| - 1])
  {
    var end := |b| / 4;
    var pkt: nat := 0;
    handled := [];
    assert handled + Dispatch(b, 0, broken).0 == Dispatch(b, 0, broken).0;
    while pkt < end
      invariant DispatchedTo(b, broken, handled, pkt)
      invariant handled != [] ==> handled[|handled| - 1] < End(b) && pkt == Next(b, handled[|handled| - 1])
      decreases if pkt < end then end - pkt else 0
    {
      DispatchStops(b, broken, handled, pkt);
      if Pt(b, pkt) == RTCP_SR || Pt(b, pkt) == RTCP_RR || Pt(b, pkt) == RTCP_BYE || Pt(b, pkt) == RTCP_APP {
        NextDispatched(b, broken, handled, pkt);
        handled := handled + [pkt];
      } else if Pt(b, pkt) == RTCP_SDES {
        if pkt in broken {
          return handled + [pkt], HandlerFailed, pkt;
        }
        NextDispatched(b, broken, handled, pkt);
        handled := handled + [pkt];
      } else {
        return handled, Unknown, pkt;
      }
      pkt := Next(b, pkt);
    }
    DispatchStops(b, broken, handled, pkt);
    v, stop := Done, pkt;
  }

  predicate AllKnown(b: seq<byte>, starts: seq<nat>) {
    forall k :: 0 <= k < |starts| ==> starts[k] < End(b) && KnownType(Pt(b, starts[k]))
  }

  predicate NoneFails(b: seq<byte>, starts: seq<nat>, broken: set<nat>) {
    forall k :: 0 <= k < |starts| ==> starts[k] < End(b) && !(Pt(b, starts[k]) == RTCP_SDES && starts[k] in broken)
  }

  lemma AllButFirst(b: seq<byte>, starts: seq<nat>, broken: set<nat>)
    requires |starts| > 1 && starts[0] < End(b) && KnownType(Pt(b, starts[0]))
    requires !(Pt(b, starts[0]) == RTCP_SDES && starts[0] in broken)
    ensures AllKnown(b, starts) <==> AllKnown(b, starts[1..])
    ensures NoneFails(b, starts, broken) <==> NoneFails(b, starts[1..], broken)
  {
    var rest := starts[1..];
    assert forall k :: 0 <= k < |rest| ==> rest[k] == starts[k + 1];
  }

  // The dispatch follows a tiling, packet by packet, and reaches its end exactly when
  // nothing stops it early.
  lemma {:induction false} DispatchFollows(b: seq<byte>, w: nat, starts: seq<nat>, broken: set<nat>)
    requires TilingFrom(b, w, starts)
    ensures Dispatch(b, w, broken).0 <= starts
    ensures Dispatch(b, w, broken).1 == Done <==> AllKnown(b, starts) && NoneFails(b, starts, broken)
    ensures Dispatch(b, w, broken).1 == Done ==> Dispatch(b, w, broken).0 == starts
    decreases |starts|
  {
    assert starts == [w] + starts[1..];
    if KnownType(Pt(b, w)) && !(Pt(b, w) == RTCP_SDES && w in broken) {
      if |starts| > 1 {
        TailTiles(b, w, starts);
        var rest := starts[1..];
        DispatchFollows(b, starts[1], rest, broken);
        AllButFirst(b, starts, broken);
      } else {
        assert Next(b, w) == End(b);
      }
    }
  }

  lemma OnlyOne(b: seq<byte>, w: nat, starts: seq<nat>)
    requires TilingFrom(b, w, starts)
    ensures |starts| == 1 <==> Next(b, w) == End(b)
    ensures |starts| > 1 ==> starts[1] == Next(b, w)
  {
  }

  lemma {:induction false} TilingUnique(b: seq<byte>, w: nat, s: seq<nat>, t: seq<nat>)
    requires TilingFrom(b, w, s) && TilingFrom(b, w, t)
    ensures s == t
    decreases |s|
  {
    OnlyOne(b, w, s);
    OnlyOne(b, w, t);
    if |s| > 1 {
      TailTiles(b, w, s);
      TailTiles(b, w, t);
      TilingUnique(b, s[1], s[1..], t[1..]);
    }
    assert s == [w] + s[1..] && t == [w] + t[1..];
  }

  // An accepted compound packet: both walks visit the one tiling of its words.
  lemma BothWalksAgree(b: seq<byte>, starts: seq<nat>, broken: set<nat>)
    requires |b| >= 4 && Compound(b) && Valid(b) && Tiling(b, starts)
    ensures Dispatch(b, 0, broken).0 <= starts
    ensures Dispatch(b, 0, broken).1 == Done <==> AllKnown(b, starts) && NoneFails(b, starts, broken)
    ensures Dispatch(b, 0, broken).1 == Done ==> Dispatch(b, 0, broken).0 == starts
    ensures forall other :: Tiling(b, other) ==> other == starts
  {
    DispatchFollows(b, 0, starts, broken);
    forall other | Tiling(b, other) ensures other == starts { TilingUnique(b, 0, other, starts); }
  }

  // ---- a packet that is not compound ----

  // Of a packet of version 2 that passes the padding test: it is accepted if and only if the
  // dispatch has a handler for it, which is so for the five types 200 to 204.
  lemma SingleAcceptedIff(b: seq<byte>)
    requires |b| >= 4 && !Compound(b) && Ver(b, 0) == 2 && (Pad(b, 0) ==> b[|b| - 1] as int <= HostLen(b, 0) * 4)
    ensures Valid(b) <==> Dispatch(b, 0, {}) == ([0], Done)
    ensures Valid(b) <==> Pt(b, 0) in {200, 201, 202, 203, 204}
  {
    assert Dispatch(b, Next(b, 0), {}) == ([], Done);
    assert [0] + [] == [0];
  }

  lemma SingleRefused(b: seq<byte>)
    requires |b| >= 4 && !Compound(b)
    requires Ver(b, 0) != 2 || (Pad(b, 0) && b[|b| - 1] as int > HostLen(b, 0) * 4)
    ensures !Valid(b)
  {
  }

  // It is accepted even when fewer words arrived than its header announces; exactly then
  // its one packet reaches beyond the words received.
  lemma SingleTiledIff(b: seq<byte>, broken: set<nat>)
    requires |b| >= 4 && !Compound(b) && Valid(b)
    ensures Dispatch(b, 0, broken).0 == [0]
    ensures Tiled(b) <==> End(b) == Len(b, 0) + 1
  {
    assert Dispatch(b, Next(b, 0), broken) == ([], Done);
    if Tiled(b) {
      var starts :| Tiling(b, starts);
      OnlyOne(b, 0, starts);
    }
    if End(b) == Len(b, 0) + 1 {
      assert Tiling(b, [0]);
    }
  }

  // The padding test reads the length in host order. With the length in network order it
  // would decide differently exactly on these lengths.
  lemma PaddingTestWrongIff(b: seq<byte>)
    requires |b| >= 4
    ensures var high, low, last := b[2] as int, b[3] as int, b[|b| - 1] as int;
            (last > HostLen(b, 0) * 4) != (last > Len(b, 0) * 4) <==>
            (high == 0 && low > 0 && last > 4 * low) || (low == 0 && high > 0 && last > 4 * high)
  {
  }

  // Four bytes that announce six words pass.
  lemma TruncatedPacketPasses()
    ensures var b: seq<byte> := [0x80, 201, 0, 5]; Valid(b) && !Tiled(b)
  {
    SingleTiledIff([0x80, 201, 0, 5], {});
  }

  // Two words of which the last says that five bytes are padding pass as well.
  lemma ExcessPaddingPasses()
    ensures var b: seq<byte> := [0xA0, 201, 0, 1, 0, 0, 0, 5]; Valid(b) && b[7] as int > 4 * Len(b, 0)
  {
  }
}
