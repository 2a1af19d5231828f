// The table of synchronization sources of a session: rtp_ssrc_check and rtp_ssrc_init of
// src/rtp/rtp_ssrc_queue.c (section 8.2 of RFC 3550).
module SsrcTable {
  import opened Words

  datatype Address = Address(host: nat, port: nat)

  datatype Maybe = Unset | Set(address: Address)

  datatype Proto = Rtp | Rtcp

  datatype Packet = Packet(ssrc: uint32, from: Address, proto: Proto)

  // What the network code answers: is the sender's address readable, is it the one RTSP
  // announced, can a return path for RTCP be named.
  datatype Net = Net(readable: bool, announced: bool, reachable: bool)

  datatype Source = Source(ssrc: uint32, rtpFrom: Maybe, rtcpFrom: Maybe, rtcpTo: bool)

  datatype Table = Table(
    udp: bool, ownRtp: Address, ownRtcp: Address,
    local: uint32, sources: seq<Source>, conflicts: seq<Address>)

  datatype Outcome = Known | New | RtpNew | RtcpNew | Collision | Failed

  function From(s: Source, proto: Proto): Maybe { if proto.Rtp? then s.rtpFrom else s.rtcpFrom }

  function Own(t: Table, proto: Proto): Address { if proto.Rtp? then t.ownRtp else t.ownRtcp }

  predicate Listed(sources: seq<Source>, id: uint32) {
    exists k :: 0 <= k < |sources| && sources[k].ssrc == id
  }

  // The position of a source, |sources| if there is none.
  function Lookup(sources: seq<Source>, id: uint32): (i: nat)
    ensures i <= |sources| && (i < |sources| ==> sources[i].ssrc == id)
    ensures forall k :: 0 <= k < i ==> sources[k].ssrc != id
  {
    if sources == [] || sources[0].ssrc == id then 0
    else
      var i := Lookup(sources[1..], id);
      assert forall k :: 0 < k < i + 1 ==> sources[k] == sources[1..][k - 1];
      i + 1
  }

  // rtp_ssrc_init: the source is in the table even when its address turns out unreadable.
  function Fresh(t: Table, p: Packet, net: Net): Source {
    Source(p.ssrc, if p.proto.Rtp? then Set(p.from) else Unset, if p.proto.Rtcp? then Set(p.from) else Unset,
           t.udp && net.readable && (net.announced || p.proto.Rtcp?) && net.reachable)
  }

  predicate InitFails(t: Table, net: Net) { t.udp && !net.readable }

  // A packet of a source that is in the table.
  function KnownSource(udp: bool, s: Source, p: Packet, net: Net): (Source, Outcome) {
    var first := From(s, p.proto).Unset?;
    var s1 := if !first then s
              else if p.proto.Rtp? then s.(rtpFrom := Set(p.from)) else s.(rtcpFrom := Set(p.from));
    var ok := if !first then Known else if p.proto.Rtp? then RtpNew else RtcpNew;
    if !udp then (s1, ok)
    else if p.proto.Rtcp? && !s1.rtcpTo && !net.readable then (s1, Failed)
    else
      (if p.proto.Rtcp? && !s1.rtcpTo then s1.(rtcpTo := net.reachable) else s1,
       if From(s1, p.proto).address != p.from then Collision else ok)
  }

  // A packet bearing our own identifier makes us take another one.
  predicate Reidentifies(t: Table, p: Packet) {
    p.ssrc == t.local && t.udp && Own(t, p.proto) != p.from && p.from !in t.conflicts
  }

  function Checked(t: Table, p: Packet, net: Net, random: uint32): (Table, Outcome) {
    if p.ssrc == t.local then
      if !Reidentifies(t, p) then (t, Collision)
      else
        var t1 := t.(local := random, sources := [Fresh(t, p, net)] + t.sources);
        if InitFails(t, net) then (t1, Failed)
        else (t1.(conflicts := [Own(t, p.proto)] + t.conflicts), Collision)
    else
      var i := Lookup(t.sources, p.ssrc);
      if i == |t.sources| then
        (t.(sources := [Fresh(t, p, net)] + t.sources), if InitFails(t, net) then Failed else New)
      else
        var (s, r) := KnownSource(t.udp, t.sources[i], p, net);
        (t.(sources := t.sources[i := s]), r)
  }

  class SourceTable {
    const udp: bool
    const ownRtp: Address
    const ownRtcp: Address
    var local: uint32
    var sources: seq<Source>
    var conflicts: seq<Address>

    ghost function View(): Table
      reads this
    {
      Table(udp, ownRtp, ownRtcp, local, sources, conflicts)
    }

    // rtp_ssrc_init
    method SsrcInit(p: Packet, net: Net) returns (ok: bool)
      modifies this`sources
      ensures sources == [Fresh(View(), p, net)] + old(sources)
      ensures ok == !InitFails(View(), net)
    {
      var s := Source(p.ssrc, Unset, Unset, false);
      if p.proto.Rtp? {
        s := s.(rtpFrom := Set(p.from));
      } else {
        s := s.(rtcpFrom := Set(p.from));
      }
      ok := true;
      if udp {
        if !net.readable {
          ok := false;
        } else if net.announced || p.proto.Rtcp? {
          s := s.(rtcpTo := net.reachable);
        }
      }
      sources := [s] + sources;
    }

    // rtp_ssrc_check; `random` is what random32 would draw.
    method SsrcCheck(p: Packet, net: Net, random: uint32) returns (r: Outcome)
      modifies this
      ensures (View(), r) == Checked(old(View()), p, net, random)
    {
      ghost var before := sources;
      var collision := local == p.ssrc;
      var i := 0;
      while !collision && i < |sources| && sources[i].ssrc != p.ssrc
        invariant 0 <= i <= |sources|
        invariant forall k :: 0 <= k < i ==> sources[k].ssrc != p.ssrc
      {
        i := i + 1;
      }
      if !collision {
        LookupFirst(sources, p.ssrc, i);
      }
      if !collision && i == |sources| {
        var ok := SsrcInit(p, net);
        return if ok then New else Failed;
      }
      var sock: Address;
      if collision {
        r := Collision;
        sock := if p.proto.Rtp? then ownRtp else ownRtcp;
      } else {
        r := Known;
        if p.proto.Rtp? {
          if sources[i].rtpFrom.Unset? {
            sources := sources[i := sources[i].(rtpFrom := Set(p.from))];
            r := RtpNew;
          }
          sock := sources[i].rtpFrom.address;
        } else {
          if sources[i].rtcpFrom.Unset? {
            sources := sources[i := sources[i].(rtcpFrom := Set(p.from))];
            r := RtcpNew;
          }
          sock := sources[i].rtcpFrom.address;
          assert sources == before[i := sources[i]];
          if !udp { return; }
          if !sources[i].rtcpTo {
            if !net.readable { return Failed; }
            sources := sources[i := sources[i].(rtcpTo := net.reachable)];
          }
        }
      }
      assert !collision ==> sources == before[i := sources[i]];
      if udp && sock != p.from {
        if p.ssrc != local { return Collision; }
        var k := 0;
        while k < |conflicts| && conflicts[k] != p.from
          invariant 0 <= k <= |conflicts|
          invariant p.from !in conflicts[..k]
        {
          k := k + 1;
        }
        if k < |conflicts| { return Collision; }
        assert conflicts[..k] == conflicts;
        local := random;
        var ok := SsrcInit(p, net);
        if !ok { return Failed; }
        conflicts := [sock] + conflicts;
      }
    }
  }

  lemma {:induction false} LookupFirst(sources: seq<Source>, id: uint32, i: nat)
    requires i <= |sources| && (i < |sources| ==> sources[i].ssrc == id)
    requires forall k :: 0 <= k < i ==> sources[k].ssrc != id
    ensures Lookup(sources, id) == i
  {
    if sources != [] && i > 0 { LookupFirst(sources[1..], id, i - 1); }
  }

  // ---- identifiers stay distinct ----

  predicate Distinct(sources: seq<Source>) {
    forall i, j :: 0 <= i < j < |sources| ==> sources[i].ssrc != sources[j].ssrc
  }

  predicate Sound(t: Table) {
    Distinct(t.sources) && !Listed(t.sources, t.local)
  }

  // A check keeps every identifier in use distinct exactly when a newly drawn one is
  // neither in the table nor the one just lost.
  lemma CheckKeepsIff(t: Table, p: Packet, net: Net, random: uint32)
    requires Sound(t)
    ensures Sound(Checked(t, p, net, random).0) <==>
            (Reidentifies(t, p) ==> random != p.ssrc && !Listed(t.sources, random))
  {
    var u := Checked(t, p, net, random).0;
    var i := Lookup(t.sources, p.ssrc);
    if p.ssrc == t.local && Reidentifies(t, p) {
      PushSound(u.local, Fresh(t, p, net), t.sources);
    } else if p.ssrc != t.local && i == |t.sources| {
      PushSound(t.local, Fresh(t, p, net), t.sources);
    } else if p.ssrc != t.local {
      assert forall k :: 0 <= k < |t.sources| ==> u.sources[k].ssrc == t.sources[k].ssrc;
    }
  }

  lemma PushSound(local: uint32, s: Source, sources: seq<Source>)
    requires Distinct(sources) && !Listed(sources, s.ssrc)
    ensures Distinct([s] + sources)
    ensures Listed([s] + sources, local) <==> (s.ssrc == local || Listed(sources, local))
  {
    var all := [s] + sources;
    assert forall k :: 0 < k < |all| ==> all[k] == sources[k - 1];
    if s.ssrc == local { assert all[0].ssrc == local; }
    if Listed(sources, local) {
      var k :| 0 <= k < |sources| && sources[k].ssrc == local;
      assert all[k + 1].ssrc == local;
    }
  }

  datatype Event = Event(packet: Packet, net: Net, random: uint32)

  function After(t: Table, es: seq<Event>): Table
    decreases |es|
  {
    if es == [] then t
    else
      var e := es[|es| - 1];
      Checked(After(t, es[..|es| - 1]), e.packet, e.net, e.random).0
  }

  // Every identifier drawn is unused at the time.
  predicate DrawsFresh(t: Table, es: seq<Event>) {
    forall k :: 0 <= k < |es| ==> DrawsFreshAt(After(t, es[..k]), es[k])
  }

  predicate DrawsFreshAt(t: Table, e: Event) {
    Reidentifies(t, e.packet) ==> e.random != e.packet.ssrc && !Listed(t.sources, e.random)
  }

  lemma {:induction false} RunSound(t: Table, es: seq<Event>)
    requires Sound(t) && DrawsFresh(t, es)
    ensures Sound(After(t, es))
    decreases |es|
  {
    if es != [] {
      var n := |es| - 1;
      forall k | 0 <= k < n ensures DrawsFreshAt(After(t, es[..n][..k]), es[..n][k]) {
        assert es[..n][..k] == es[..k];
        assert DrawsFreshAt(After(t, es[..k]), es[k]);
      }
      RunSound(t, es[..n]);
      assert DrawsFreshAt(After(t, es[..n]), es[n]);
      CheckKeepsIff(After(t, es[..n]), es[n].packet, es[n].net, es[n].random);
    }
  }

  // ---- one address per source ----

  predicate Accepted(r: Outcome) { r != Collision && r != Failed }

  // The table binds an identifier to an address.
  predicate Bound(t: Table, id: uint32, proto: Proto, a: Address) {
    exists k :: 0 <= k < |t.sources| && t.sources[k].ssrc == id && From(t.sources[k], proto) == Set(a)
  }

  // An accepted packet binds its source to its address, or finds it so bound.
  lemma AcceptedBinds(t: Table, e: Event)
    requires Sound(t) && t.udp
    requires Accepted(Checked(t, e.packet, e.net, e.random).1)
    ensures Bound(Checked(t, e.packet, e.net, e.random).0, e.packet.ssrc, e.packet.proto, e.packet.from)
  {
    var u := Checked(t, e.packet, e.net, e.random).0;
    var i := Lookup(t.sources, e.packet.ssrc);
    if i == |t.sources| {
      assert From(u.sources[0], e.packet.proto) == Set(e.packet.from);
    } else {
      assert From(u.sources[i], e.packet.proto) == Set(e.packet.from);
    }
  }

  // A binding is never undone or changed.
  lemma StepKeepsBound(t: Table, e: Event, id: uint32, proto: Proto, a: Address)
    requires Bound(t, id, proto, a)
    ensures Bound(Checked(t, e.packet, e.net, e.random).0, id, proto, a)
  {
    var u := Checked(t, e.packet, e.net, e.random).0;
    var k :| 0 <= k < |t.sources| && t.sources[k].ssrc == id && From(t.sources[k], proto) == Set(a);
    if |u.sources| == |t.sources| {
      assert u.sources[k].ssrc == id && From(u.sources[k], proto) == Set(a);
    } else {
      assert u.sources[k + 1] == t.sources[k];
    }
  }

  lemma {:induction false} RunKeepsBound(t: Table, es: seq<Event>, m: nat, id: uint32, proto: Proto, a: Address)
    requires m <= |es| && Bound(After(t, es[..m]), id, proto, a)
    ensures Bound(After(t, es), id, proto, a)
    decreases |es|
  {
    if m == |es| {
      assert es[..m] == es;
    } else {
      var n := |es| - 1;
      assert es[..n][..m] == es[..m];
      RunKeepsBound(t, es[..n], m, id, proto, a);
      StepKeepsBound(After(t, es[..n]), es[n], id, proto, a);
    }
  }

  // Only packets from the bound address are accepted.
  lemma BoundDecides(t: Table, e: Event, a: Address)
    requires Sound(t) && t.udp && Bound(t, e.packet.ssrc, e.packet.proto, a)
    ensures Accepted(Checked(t, e.packet, e.net, e.random).1) ==> e.packet.from == a
    ensures e.packet.from != a ==> !Accepted(Checked(t, e.packet, e.net, e.random).1)
  {
    var k :| 0 <= k < |t.sources| && t.sources[k].ssrc == e.packet.ssrc && From(t.sources[k], e.packet.proto) == Set(a);
    LookupFirst(t.sources, e.packet.ssrc, k);
    assert e.packet.ssrc != t.local;
  }

  // ---- what the verdict says ----

  ghost predicate Unbound(t: Table, id: uint32, proto: Proto) { forall a :: !Bound(t, id, proto, a) }

  // On UDP, for a packet under an identifier other than our own: New for an identifier not in
  // the table; RtpNew and RtcpNew for the first packet of a listed source's protocol, which binds
  // its address; Known from the bound address, Collision from another.
  lemma VerdictIff(t: Table, e: Event)
    requires Sound(t) && t.udp && e.packet.ssrc != t.local && e.net.readable
    ensures var p, r := e.packet, Checked(t, e.packet, e.net, e.random).1;
            var listed, unbound := Listed(t.sources, p.ssrc), Unbound(t, p.ssrc, p.proto);
            && (r == New <==> !listed)
            && (r == RtpNew <==> listed && unbound && p.proto == Rtp)
            && (r == RtcpNew <==> listed && unbound && p.proto == Rtcp)
            && (r == Known <==> Bound(t, p.ssrc, p.proto, p.from))
            && (r == Collision <==> !unbound && !Bound(t, p.ssrc, p.proto, p.from))
  {
    var p := e.packet;
    var i := Lookup(t.sources, p.ssrc);
    if i < |t.sources| {
      assert Listed(t.sources, p.ssrc);
      BoundAt(t, i, p.proto);
    }
  }

  lemma BoundAt(t: Table, i: nat, proto: Proto)
    requires Distinct(t.sources) && i < |t.sources|
    ensures forall a :: Bound(t, t.sources[i].ssrc, proto, a) <==> From(t.sources[i], proto) == Set(a)
    ensures Unbound(t, t.sources[i].ssrc, proto) <==> From(t.sources[i], proto) == Unset
  {
    var s := t.sources[i];
    forall a ensures Bound(t, s.ssrc, proto, a) <==> From(s, proto) == Set(a) {
      if From(s, proto) == Set(a) { assert t.sources[i].ssrc == s.ssrc && From(t.sources[i], proto) == Set(a); }
    }
    if From(s, proto).Set? { assert Bound(t, s.ssrc, proto, From(s, proto).address); }
  }

  // Failed, when the sender's address cannot be read: for a new source, which is listed all the
  // same, and for RTCP packets while the return path is unknown.
  lemma FailedIff(t: Table, e: Event)
    requires Sound(t) && t.udp && e.packet.ssrc != t.local
    ensures var p, u, r := e.packet, Checked(t, e.packet, e.net, e.random).0, Checked(t, e.packet, e.net, e.random).1;
            && (r == Failed <==>
                  !e.net.readable && (!Listed(t.sources, p.ssrc) || (p.proto == Rtcp && NoReturn(t, p.ssrc))))
            && Listed(u.sources, p.ssrc)
  {
    var u, i := Checked(t, e.packet, e.net, e.random).0, Lookup(t.sources, e.packet.ssrc);
    if i < |t.sources| {
      assert Listed(t.sources, e.packet.ssrc) && u.sources[i].ssrc == e.packet.ssrc;
    } else {
      assert u.sources[0].ssrc == e.packet.ssrc;
    }
  }

  predicate NoReturn(t: Table, id: uint32) {
    exists k :: 0 <= k < |t.sources| && t.sources[k].ssrc == id && !t.sources[k].rtcpTo
  }

  predicate HasReturn(t: Table, id: uint32) {
    exists k :: 0 <= k < |t.sources| && t.sources[k].ssrc == id && t.sources[k].rtcpTo
  }

  // A return path for RTCP, once known, stays so; it becomes known with a readable, reachable
  // sender of RTCP, and for a new source also if RTSP announced the address.
  lemma ReturnPathIff(t: Table, e: Event)
    requires Sound(t) && t.udp && e.packet.ssrc != t.local
    ensures var p, u := e.packet, Checked(t, e.packet, e.net, e.random).0;
            HasReturn(u, p.ssrc) <==>
              || HasReturn(t, p.ssrc)
              || (&& e.net.readable && e.net.reachable
                  && (p.proto == Rtcp || (!Listed(t.sources, p.ssrc) && e.net.announced)))
  {
    var p, u := e.packet, Checked(t, e.packet, e.net, e.random).0;
    var i := Lookup(t.sources, p.ssrc);
    ReturnAt(u, if i < |t.sources| then i else 0);
    if i < |t.sources| {
      ReturnAt(t, i);
      assert t.sources[i].ssrc == p.ssrc;
    }
  }

  lemma ReturnAt(t: Table, i: nat)
    requires i < |t.sources| && forall k :: 0 <= k < |t.sources| && k != i ==> t.sources[k].ssrc != t.sources[i].ssrc
    ensures HasReturn(t, t.sources[i].ssrc) <==> t.sources[i].rtcpTo
  {
  }

  // A packet under our own identifier: from our own address or a known conflict it changes
  // nothing; otherwise we give the identifier up to its sender and take another, and our own
  // address of the packet's protocol joins the conflicts, unless the sender's cannot be read.
  lemma OwnIdentifier(t: Table, e: Event)
    requires t.udp && e.packet.ssrc == t.local
    ensures var p, u, r := e.packet, Checked(t, e.packet, e.net, e.random).0, Checked(t, e.packet, e.net, e.random).1;
            var ours := p.from in t.conflicts || (p.proto == Rtp && p.from == t.ownRtp)
                        || (p.proto == Rtcp && p.from == t.ownRtcp);
            && (ours ==> u == t && r == Collision)
            && (!ours ==> u.local == e.random && Bound(u, p.ssrc, p.proto, p.from) && u.sources[1..] == t.sources
                          && r == (if e.net.readable then Collision else Failed))
            && (!ours && e.net.readable && p.proto == Rtp ==> u.conflicts == [t.ownRtp] + t.conflicts)
            && (!ours && e.net.readable && p.proto == Rtcp ==> u.conflicts == [t.ownRtcp] + t.conflicts)
            && (!ours && !e.net.readable ==> u.conflicts == t.conflicts)
  {
    var p, u := e.packet, Checked(t, e.packet, e.net, e.random).0;
    if Reidentifies(t, p) { assert u.sources[0].ssrc == p.ssrc && From(u.sources[0], p.proto) == Set(p.from); }
  }

  function OutcomeAt(t: Table, es: seq<Event>, k: nat): Outcome
    requires k < |es|
  {
    Checked(After(t, es[..k]), es[k].packet, es[k].net, es[k].random).1
  }

  // Over any run on UDP, all packets accepted under one identifier and protocol come from
  // one address.
  lemma OneAddressPerSource(t: Table, es: seq<Event>, i: nat, j: nat)
    requires Sound(t) && t.udp && DrawsFresh(t, es) && i < j < |es|
    requires es[i].packet.ssrc == es[j].packet.ssrc && es[i].packet.proto == es[j].packet.proto
    requires Accepted(OutcomeAt(t, es, i)) && Accepted(OutcomeAt(t, es, j))
    ensures es[i].packet.from == es[j].packet.from
  {
    var p := es[i].packet;
    PrefixFresh(t, es, i);
    PrefixFresh(t, es, j);
    RunSound(t, es[..i]);
    RunSound(t, es[..j]);
    UdpStays(t, es[..i]);
    UdpStays(t, es[..j]);
    AcceptedBinds(After(t, es[..i]), es[i]);
    assert es[..i + 1][..i] == es[..i] && es[..j][..i + 1] == es[..i + 1];
    assert Bound(After(t, es[..i + 1]), p.ssrc, p.proto, p.from);
    RunKeepsBound(t, es[..j], i + 1, p.ssrc, p.proto, p.from);
    BoundDecides(After(t, es[..j]), es[j], p.from);
  }

  lemma PrefixFresh(t: Table, es: seq<Event>, n: nat)
    requires DrawsFresh(t, es) && n <= |es|
    ensures DrawsFresh(t, es[..n])
  {
    forall k | 0 <= k < n ensures DrawsFreshAt(After(t, es[..n][..k]), es[..n][k]) {
      assert es[..n][..k] == es[..k];
      assert DrawsFreshAt(After(t, es[..k]), es[k]);
    }
  }

  lemma {:induction false} UdpStays(t: Table, es: seq<Event>)
    ensures After(t, es).udp == t.udp && After(t, es).ownRtp == t.ownRtp && After(t, es).ownRtcp == t.ownRtcp
    decreases |es|
  {
    if es != [] { UdpStays(t, es[..|es| - 1]); }
  }

  // ---- which loops are recognised ----

  // The list of conflicting addresses only ever receives the session's own addresses.
  lemma {:induction false} ConflictsAreOwn(t: Table, es: seq<Event>)
    requires t.conflicts == []
    ensures forall k :: 0 <= k < |After(t, es).conflicts| ==> After(t, es).conflicts[k] in {t.ownRtp, t.ownRtcp}
    decreases |es|
  {
    if es != [] {
      ConflictsAreOwn(t, es[..|es| - 1]);
      UdpStays(t, es[..|es| - 1]);
    }
  }

  // So a foreign sender bearing our identifier is never recognised as a loop: however often
  // it did so before, each of its packets costs another identifier.
  lemma LoopNeverRecognised(t: Table, es: seq<Event>, k: nat)
    requires t.conflicts == [] && t.udp && k < |es|
    requires es[k].packet.ssrc == After(t, es[..k]).local && es[k].packet.from !in {t.ownRtp, t.ownRtcp}
    ensures Reidentifies(After(t, es[..k]), es[k].packet)
    ensures After(t, es[..k + 1]).local == es[k].random
  {
    ConflictsAreOwn(t, es[..k]);
    UdpStays(t, es[..k]);
    assert es[..k + 1][..k] == es[..k];
  }
}
