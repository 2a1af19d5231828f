// Interleaved binary data on the RTSP connection (section 10.12 of RFC 2326): the input
// buffer of src/rtsp/rtsp_internals.c, the dispatch of '$' frames in rtsp_handlers.c and the
// receive loop of rtsp_state_machine.c.
module Interleaved {
  import opened Words
  import opened Sequences
  import opened RtspRuns

  const DOLLAR: byte := 36
  const NEWLINE: byte := 10
  const RETURN: byte := 13

  datatype Frame = Frame(channel: byte, payload: seq<byte>)

  // full_msg_rcvd: nothing complete yet, a '$' frame of `size` bytes, or the end of a text
  // header at `end`.
  datatype Framing = Incomplete | Binary(size: nat) | Text(end: nat)

  // strchr(d + i, '\n'), -1 for NULL; the string ends at a zero byte or at the buffer's end.
  function FindNewline(d: seq<byte>, i: nat): (p: int)
    ensures p == -1 || (i <= p < |d| && d[p] == NEWLINE)
    decreases |d| - i
  {
    if i >= |d| || d[i] == 0 then -1 else if d[i] == NEWLINE then i else FindNewline(d, i + 1)
  }

  // The newline that ends the empty line after a header, searched from the newline at `back`.
  function EmptyLine(d: seq<byte>, back: nat): (p: int)
    requires back < |d|
    ensures p == -1 || back < p < |d|
    decreases |d| - back
  {
    var next := FindNewline(d, back + 1);
    if next == -1 then -1
    else if (next - back == 2 && d[back + 1] == RETURN) || next - back <= 1 then next
    else EmptyLine(d, next)
  }

  function HeaderEnd(d: seq<byte>): (p: int)
    ensures p == -1 || 0 < p < |d|
  {
    var first := FindNewline(d, 0);
    if first == -1 then -1 else EmptyLine(d, first)
  }

  function Length(d: seq<byte>): nat
    requires |d| > 4
  {
    d[2] as int * 0x100 + d[3] as int + 4
  }

  function Classify(d: seq<byte>): Framing {
    if |d| > 4 && d[0] == DOLLAR then
      if Length(d) <= |d| then Binary(Length(d)) else Incomplete
    else
      var end := HeaderEnd(d);
      if end == -1 then Incomplete else Text(end)
  }

  // ---- the specification: cut complete frames off the front ----

  predicate HasFrame(s: seq<byte>) { |s| > 4 && s[0] == DOLLAR && Length(s) <= |s| }

  function Frames(s: seq<byte>): seq<Frame>
    decreases |s|
  {
    if HasFrame(s) then [Frame(s[1], s[4..Length(s)])] + Frames(s[Length(s)..]) else []
  }

  function Rest(s: seq<byte>): (r: seq<byte>)
    ensures |r| <= |s| && !HasFrame(r)
    decreases |s|
  {
    if HasFrame(s) then Rest(s[Length(s)..]) else s
  }

  // No prefix of the first four bytes reads as the end of a text header.
  ghost predicate SafeStart(s: seq<byte>) {
    forall k :: 0 <= k <= 4 && k <= |s| ==> HeaderEnd(s[..k]) == -1
  }

  // Every frame boundary of the stream is followed by nothing or by a safe '$' header.
  ghost predicate WellFramed(s: seq<byte>)
    decreases |s|
  {
    s != [] ==> s[0] == DOLLAR && SafeStart(s) && (HasFrame(s) ==> WellFramed(s[Length(s)..]))
  }

  // ---- the buffer ----

  class InBuffer {
    var data: seq<byte>               // in_buffer.data, in_buffer.size being its length
    var firstPktSize: nat
    var delivered: seq<Frame>         // what has been written to the media's local sockets

    constructor ()
      ensures data == [] && delivered == []
    {
      data, firstPktSize, delivered := [], 0, [];
    }

    // rtsp_recv
    method Recv(chunk: seq<byte>)
      modifies this`data
      ensures data == old(data) + chunk
    {
      data := if |data| == 0 then chunk else data + chunk;
    }

    // The walk of full_msg_rcvd to the end of a text header.
    method FindHeaderEnd() returns (end: int)
      ensures end == HeaderEnd(data)
    {
      var head := FindNewline(data, 0);
      if head == -1 { return -1; }
      ghost var first := head;
      while true
        invariant 0 <= head < |data|
        invariant EmptyLine(data, first) == EmptyLine(data, head)
        decreases |data| - head
      {
        var back := head;
        head := FindNewline(data, head + 1);
        if head == -1 { return -1; }
        if head - back == 2 && data[back + 1] == RETURN { return head; }
        if head - back <= 1 { return head; }
      }
    }

    // full_msg_rcvd, up to the end of the header for a text message
    method FullMsgRcvd() returns (r: Framing)
      modifies this`firstPktSize
      ensures r == Classify(data)
      ensures r.Binary? ==> firstPktSize == r.size
    {
      if |data| > 4 && data[0] == DOLLAR {
        var bodyLen: int := data[2] as int * 0x100 + data[3] as int + 4;
        if bodyLen <= |data| {
          firstPktSize := bodyLen;
          return Binary(bodyLen);
        }
        return Incomplete;
      }
      var end := FindHeaderEnd();
      r := if end == -1 then Incomplete else Text(end);
    }

    // remove_pkt
    method RemovePkt()
      requires firstPktSize <= |data|
      modifies this`data, this`firstPktSize
      ensures data == old(data)[old(firstPktSize)..] && firstPktSize == 0
    {
      var newSize := |data| - firstPktSize;
      data := if newSize != 0 then data[firstPktSize..] else [];
      firstPktSize := 0;
    }

    // The loop of rtsp over the buffer; false if it comes upon a text message.
    method Pump() returns (ok: bool)
      modifies this
      ensures data == old(Rest(data)) && delivered == old(delivered) + old(Frames(data))
      ensures ok <==> data == [] || Classify(data) == Incomplete
      ensures old(WellFramed(data)) ==> ok
    {
      ghost var sofar := delivered;
      while |data| > 0
        invariant old(WellFramed(data)) ==> WellFramed(data)
        invariant delivered + Frames(data) == old(delivered) + old(Frames(data))
        invariant Rest(data) == old(Rest(data))
        decreases |data|
      {
        var r := FullMsgRcvd();
        if r == Incomplete {
          assert !HasFrame(data);
          assert delivered + [] == delivered;
          return true;
        }
        if r.Text? {
          assert data[..|data|] == data;
          return false;
        }
        var frame := Frame(data[1], data[4..firstPktSize]);
        Regroup(delivered, [frame], Frames(data[firstPktSize..]));
        delivered := delivered + [frame];
        RemovePkt();
      }
      ok := true;
    }

    // One read from the connection.
    method OnReadable(chunk: seq<byte>) returns (ok: bool)
      modifies this
      ensures data == old(Rest(data + chunk)) && delivered == old(delivered) + old(Frames(data + chunk))
      ensures ok <==> data == [] || Classify(data) == Incomplete
      ensures old(WellFramed(data + chunk)) ==> ok
    {
      Recv(chunk);
      ok := Pump();
    }
  }

  // ---- independence of the chunking ----

  function Concat(chunks: seq<seq<byte>>): seq<byte> {
    if chunks == [] then [] else chunks[0] + Concat(chunks[1..])
  }

  // A frame complete at the front of a stays the first frame when more bytes follow.
  lemma FirstFrameStays(a: seq<byte>, b: seq<byte>)
    requires HasFrame(a)
    ensures HasFrame(a + b) && Length(a + b) == Length(a)
    ensures (a + b)[Length(a)..] == a[Length(a)..] + b
    ensures Frames(a + b) == Frames(a)[..1] + Frames(a[Length(a)..] + b)
  {
    var n := Length(a);
    assert (a + b)[..n] == a[..n];
    assert (a + b)[4..n] == a[4..n];
    assert (a + b)[n..] == a[n..] + b;
  }

  // Deframing in two steps is deframing at once.
  lemma {:induction false} TwoSteps(a: seq<byte>, b: seq<byte>)
    requires WellFramed(a + b)
    ensures WellFramed(a) && WellFramed(Rest(a) + b)
    ensures Frames(a + b) == Frames(a) + Frames(Rest(a) + b)
    ensures Rest(a + b) == Rest(Rest(a) + b)
    decreases |a|
  {
    if a == [] {
      assert a + b == b == Rest(a) + b;
    } else if HasFrame(a) {
      var tail := a[Length(a)..];
      FirstFrameStays(a, b);
      TwoSteps(tail, b);
      PrefixSafe(a, b);
      Regroup(Frames(a)[..1], Frames(tail), Frames(Rest(tail) + b));
      assert Frames(a) == Frames(a)[..1] + Frames(tail);
    } else {
      PrefixSafe(a, b);
    }
  }

  lemma PrefixSafe(a: seq<byte>, b: seq<byte>)
    requires SafeStart(a + b)
    ensures SafeStart(a)
  {
    forall k | 0 <= k <= 4 && k <= |a| ensures HeaderEnd(a[..k]) == -1 {
      assert (a + b)[..k] == a[..k];
    }
  }

  // What the chunks deliver, read after read, and what the buffer then holds.
  function Delivered(buffer: seq<byte>, chunks: seq<seq<byte>>): (r: (seq<Frame>, seq<byte>))
    decreases |chunks|
  {
    if chunks == [] then ([], buffer)
    else
      var s := buffer + chunks[0];
      var later := Delivered(Rest(s), chunks[1..]);
      (Frames(s) + later.0, later.1)
  }

  // The frames delivered and the bytes left over depend only on the stream, not on how it is
  // cut into reads.
  lemma {:induction false} ChunkingIndependent(buffer: seq<byte>, chunks: seq<seq<byte>>)
    requires WellFramed(buffer + Concat(chunks)) && !HasFrame(buffer)
    ensures Delivered(buffer, chunks) == (Frames(buffer + Concat(chunks)), Rest(buffer + Concat(chunks)))
    decreases |chunks|
  {
    if chunks == [] {
      assert buffer + Concat(chunks) == buffer;
    } else {
      var s, later := buffer + chunks[0], Concat(chunks[1..]);
      assert buffer + Concat(chunks) == s + later;
      TwoSteps(s, later);
      ChunkingIndependent(Rest(s), chunks[1..]);
    }
  }

  // ---- streams of frames ----

  predicate Encodable(f: Frame) { 1 <= |f.payload| < 0x1_0000 }

  function Encoded(f: Frame): seq<byte>
    requires Encodable(f)
  {
    [DOLLAR, f.channel, |f.payload| / 0x100, |f.payload| % 0x100] + f.payload
  }

  function EncodedAll(fs: seq<Frame>): seq<byte>
    requires forall k :: 0 <= k < |fs| ==> Encodable(fs[k])
  {
    if fs == [] then [] else Encoded(fs[0]) + EncodedAll(fs[1..])
  }

  // The three-byte patterns of channel and length that read as an empty line.
  predicate LooksLikeText(channel: byte, hi: byte, lo: byte) {
    || (channel == NEWLINE && (hi == NEWLINE || (hi == RETURN && lo == NEWLINE)))
    || (channel != 0 && hi == NEWLINE && lo == NEWLINE)
  }

  lemma HeaderSafeIff(channel: byte, hi: byte, lo: byte)
    ensures HeaderEnd([DOLLAR]) == -1 && HeaderEnd([DOLLAR, channel]) == -1
    ensures HeaderEnd([DOLLAR, channel, hi]) == -1 && HeaderEnd([DOLLAR, channel, hi, lo]) == -1
            <==> !LooksLikeText(channel, hi, lo)
  {
    var d := [DOLLAR, channel, hi, lo];
    assert d[..3] == [DOLLAR, channel, hi] && d[..2] == [DOLLAR, channel];
    FindUnrolled(d[..1]);
    FindUnrolled(d[..2]);
    FindUnrolled(d[..3]);
    FindUnrolled(d);
  }

  lemma FindUnrolled(d: seq<byte>)
    requires 1 <= |d| <= 4 && d[0] == DOLLAR
    ensures FindNewline(d, 4) == -1
    ensures |d| == 4 ==> FindNewline(d, 3) == if d[3] == NEWLINE then 3 else -1
    ensures |d| == 3 ==> FindNewline(d, 3) == -1
    ensures |d| >= 3 ==> FindNewline(d, 2) == if d[2] == NEWLINE then 2 else if d[2] == 0 then -1 else FindNewline(d, 3)
    ensures |d| == 2 ==> FindNewline(d, 2) == -1
    ensures |d| >= 2 ==> FindNewline(d, 1) == if d[1] == NEWLINE then 1 else if d[1] == 0 then -1 else FindNewline(d, 2)
    ensures |d| == 1 ==> FindNewline(d, 1) == -1
    ensures FindNewline(d, 0) == FindNewline(d, 1)
  {
  }

  lemma FrameSafeIff(f: Frame, more: seq<byte>)
    requires Encodable(f)
    ensures SafeStart(Encoded(f) + more) <==> !LooksLikeText(f.channel, |f.payload| / 0x100, |f.payload| % 0x100)
  {
    var s, hi: byte, lo: byte := Encoded(f) + more, |f.payload| / 0x100, |f.payload| % 0x100;
    assert s[..0] == [] && s[..1] == [DOLLAR] && s[..2] == [DOLLAR, f.channel];
    assert s[..3] == [DOLLAR, f.channel, hi] && s[..4] == [DOLLAR, f.channel, hi, lo];
    HeaderSafeIff(f.channel, hi, lo);
  }

  predicate Safe(f: Frame)
    requires Encodable(f)
  {
    !LooksLikeText(f.channel, |f.payload| / 0x100, |f.payload| % 0x100)
  }

  lemma EncodedHasFrame(f: Frame, more: seq<byte>)
    requires Encodable(f)
    ensures var s := Encoded(f) + more;
            && HasFrame(s) && Length(s) == |Encoded(f)| && s[Length(s)..] == more
            && Frame(s[1], s[4..Length(s)]) == f
  {
    var s := Encoded(f) + more;
    assert s[4..|Encoded(f)|] == f.payload;
  }

  lemma OneFrameMore(f: Frame, more: seq<byte>)
    requires Encodable(f) && Safe(f) && WellFramed(more)
    ensures var s := Encoded(f) + more; WellFramed(s) && Frames(s) == [f] + Frames(more) && Rest(s) == Rest(more)
  {
    EncodedHasFrame(f, more);
    FrameSafeIff(f, more);
  }

  // Frames come back as they were sent, with any incomplete rest that starts safely.
  lemma {:induction false} FramesRoundTrip(fs: seq<Frame>, partial: seq<byte>)
    requires forall k :: 0 <= k < |fs| ==> Encodable(fs[k]) && Safe(fs[k])
    requires WellFramed(partial) && !HasFrame(partial)
    ensures var s := EncodedAll(fs) + partial; WellFramed(s) && Frames(s) == fs && Rest(s) == partial
  {
    if fs == [] {
      assert EncodedAll(fs) + partial == partial;
    } else {
      var more := EncodedAll(fs[1..]) + partial;
      assert EncodedAll(fs) + partial == Encoded(fs[0]) + more;
      FramesRoundTrip(fs[1..], partial);
      OneFrameMore(fs[0], more);
    }
  }

  // Every payload of 1 to 2559 bytes is safe: its high length byte is below '\n'.
  lemma ShortPayloadsSafe(f: Frame)
    requires 1 <= |f.payload| < 0xA00
    ensures Encodable(f) && Safe(f)
  {
  }

  lemma IncompleteFrame(f: Frame, cut: nat)
    requires 1 <= |f.payload| < 0xA00 && cut < |Encoded(f)|
    ensures WellFramed(Encoded(f)[..cut]) && !HasFrame(Encoded(f)[..cut])
  {
    var e, partial := Encoded(f), Encoded(f)[..cut];
    ShortPayloadsSafe(f);
    FrameSafeIff(f, []);
    assert e + [] == e && partial + e[cut..] == e;
    PrefixSafe(partial, e[cut..]);
    if cut > 4 { assert Length(partial) == |e|; }
  }

  // The claim for the media: frames of short payload, followed by the beginning of another
  // frame, arrive in order and complete however the connection splits them.
  lemma ShortFramesArrive(fs: seq<Frame>, next: Frame, cut: nat, chunks: seq<seq<byte>>)
    requires forall k :: 0 <= k < |fs| ==> 1 <= |fs[k].payload| < 0xA00
    requires 1 <= |next.payload| < 0xA00 && cut < |Encoded(next)|
    requires Concat(chunks) == EncodedAll(fs) + Encoded(next)[..cut]
    ensures Delivered([], chunks) == (fs, Encoded(next)[..cut])
  {
    forall k | 0 <= k < |fs| ensures Encodable(fs[k]) && Safe(fs[k]) { ShortPayloadsSafe(fs[k]); }
    IncompleteFrame(next, cut);
    FramesRoundTrip(fs, Encoded(next)[..cut]);
    assert [] + Concat(chunks) == Concat(chunks);
    ChunkingIndependent([], chunks);
  }

  // A frame whose header reads as an empty line is taken for text if a read ends inside the
  // header, and only such a frame is.
  lemma MisreadIff(f: Frame)
    requires Encodable(f)
    ensures (exists k :: 0 <= k <= 4 && Classify(Encoded(f)[..k]).Text?)
            <==> LooksLikeText(f.channel, |f.payload| / 0x100, |f.payload| % 0x100)
  {
    var e := Encoded(f);
    FrameSafeIff(f, []);
    assert e + [] == e;
    assert forall k :: 0 <= k <= 4 ==> (Classify(e[..k]).Text? <==> HeaderEnd(e[..k]) != -1);
  }

  // The first three bytes of a frame of 2560 bytes on channel 10 are such a header.
  lemma MisreadHeader()
    ensures Classify([DOLLAR, 10, 10]) == Text(2)
  {
    FindUnrolled([DOLLAR, 10, 10]);
    assert FindNewline([DOLLAR, 10, 10], 2) == 2;
  }

  // ---- text messages ----

  // The two ends of a line the code knows.
  predicate LineEnd(eol: seq<byte>) { eol == [RETURN, NEWLINE] || eol == [NEWLINE] }

  predicate HeaderLine(line: seq<byte>) {
    line != [] && line != [RETURN] && NEWLINE !in line && 0 !in line
  }

  predicate HeaderLines(lines: seq<seq<byte>>) { forall k :: 0 <= k < |lines| ==> HeaderLine(lines[k]) }

  // Lines, and the empty line after them.
  function TextHeader(lines: seq<seq<byte>>, eol: seq<byte>): (h: seq<byte>)
    ensures |h| >= |eol|
  {
    if lines == [] then eol else lines[0] + eol + TextHeader(lines[1..], eol)
  }

  lemma {:induction false} FindAt(d: seq<byte>, i: nat, j: nat)
    requires i <= j < |d| && d[j] == NEWLINE && forall k :: i <= k < j ==> d[k] != NEWLINE && d[k] != 0
    ensures FindNewline(d, i) == j
    decreases j - i
  {
    if i < j { FindAt(d, i + 1, j); }
  }

  lemma {:induction false} FindNone(d: seq<byte>, i: nat)
    requires i <= |d| && forall k :: i <= k < |d| ==> d[k] != NEWLINE
    ensures FindNewline(d, i) == -1
    decreases |d| - i
  {
    if i < |d| { FindNone(d, i + 1); }
  }

  // The line at position `at` of d ends with its newline.
  lemma LineFound(d: seq<byte>, at: nat, line: seq<byte>, eol: seq<byte>, more: seq<byte>)
    requires LineEnd(eol) && at <= |d| && d[at..] == line + eol + more && NEWLINE !in line && 0 !in line
    ensures var next := at + |line| + |eol| - 1;
            next < |d| && FindNewline(d, at) == next && d[next + 1..] == more
            && forall k :: 0 <= k < |line + eol| ==> d[at + k] == (line + eol)[k]
  {
    var part, next := line + eol, at + |line| + |eol| - 1;
    forall k | 0 <= k < |part| ensures d[at + k] == part[k] {
      assert d[at..][k] == part[k];
    }
    forall k | at <= k < next ensures d[k] != NEWLINE && d[k] != 0 {
      assert d[k] == part[k - at];
      if k - at < |line| { assert part[k - at] in line; }
    }
    assert d[next] == part[|part| - 1];
    FindAt(d, at, next);
    assert d[next + 1..] == d[at..][|part|..];
  }

  // A line that is not empty is passed over.
  lemma LinePassed(d: seq<byte>, back: nat, line: seq<byte>, eol: seq<byte>, more: seq<byte>)
    requires LineEnd(eol) && HeaderLine(line) && back < |d| && d[back + 1..] == line + eol + more
    ensures var next := back + |line| + |eol|;
            next < |d| && d[next + 1..] == more && EmptyLine(d, back) == EmptyLine(d, next)
  {
    LineFound(d, back + 1, line, eol, more);
    assert line == [line[0]] + line[1..];
    assert d[back + 1] == (line + eol)[0] == line[0];
  }

  lemma EmptyLineHere(d: seq<byte>, back: nat, eol: seq<byte>, body: seq<byte>)
    requires LineEnd(eol) && back < |d| && d[back + 1..] == eol + body
    ensures EmptyLine(d, back) == back + |eol|
  {
    assert eol + body == [] + eol + body;
    LineFound(d, back + 1, [], eol, body);
    assert d[back + 1] == eol[0];
  }

  lemma HeaderLength(lines: seq<seq<byte>>, eol: seq<byte>)
    requires lines != []
    ensures |TextHeader(lines, eol)| == |lines[0]| + |eol| + |TextHeader(lines[1..], eol)|
  {
  }

  // d goes on after position `back` with the lines and an empty line, and that is found.
  ghost predicate FoundAfter(d: seq<byte>, back: nat, lines: seq<seq<byte>>, eol: seq<byte>) {
    back < |d| && EmptyLine(d, back) == back + |TextHeader(lines, eol)|
  }

  lemma FoundOn(d: seq<byte>, back: nat, line: seq<byte>, lines: seq<seq<byte>>, eol: seq<byte>, body: seq<byte>)
    requires LineEnd(eol) && HeaderLine(line) && back < |d|
    requires d[back + 1..] == line + eol + (TextHeader(lines, eol) + body)
    ensures var next := back + |line| + |eol|;
            && next < |d| && d[next + 1..] == TextHeader(lines, eol) + body
            && (FoundAfter(d, next, lines, eol) ==>
                  EmptyLine(d, back) == back + |line| + |eol| + |TextHeader(lines, eol)|)
  {
    LinePassed(d, back, line, eol, TextHeader(lines, eol) + body);
  }

  // The empty line found is the one after the lines.
  lemma {:induction false} EmptyLineFound(d: seq<byte>, back: nat, lines: seq<seq<byte>>, eol: seq<byte>,
                                          body: seq<byte>)
    requires LineEnd(eol) && HeaderLines(lines) && back < |d| && d[back + 1..] == TextHeader(lines, eol) + body
    ensures FoundAfter(d, back, lines, eol)
    decreases |lines|
  {
    if lines == [] {
      EmptyLineHere(d, back, eol, body);
    } else {
      HeaderLength(lines, eol);
      Regroup(lines[0] + eol, TextHeader(lines[1..], eol), body);
      FoundOn(d, back, lines[0], lines[1..], eol, body);
      EmptyLineFound(d, back + |lines[0]| + |eol|, lines[1..], eol, body);
    }
  }

  // The search starts at the end of the first line.
  lemma FirstLine(d: seq<byte>, line: seq<byte>, eol: seq<byte>, more: seq<byte>)
    requires LineEnd(eol) && HeaderLine(line) && d == line + eol + more
    ensures var first := |line| + |eol| - 1;
            first < |d| && d[first + 1..] == more && HeaderEnd(d) == EmptyLine(d, first)
  {
    assert d[0..] == d;
    LineFound(d, 0, line, eol, more);
  }

  lemma NotBinary(d: seq<byte>)
    requires d != [] ==> d[0] != DOLLAR
    ensures Classify(d) == if HeaderEnd(d) == -1 then Incomplete else Text(HeaderEnd(d))
  {
  }

  lemma HeaderEndFound(d: seq<byte>, line: seq<byte>, later: seq<seq<byte>>, eol: seq<byte>, body: seq<byte>, n: nat)
    requires LineEnd(eol) && HeaderLine(line) && HeaderLines(later) && n == |TextHeader(later, eol)|
    requires d == line + eol + (TextHeader(later, eol) + body)
    ensures HeaderEnd(d) == |line| + |eol| + n - 1
  {
    FirstLine(d, line, eol, TextHeader(later, eol) + body);
    EmptyLineFound(d, |line| + |eol| - 1, later, eol, body);
  }

  // A text message of one line or more, whatever follows it: the header ends with the newline of
  // its empty line.
  lemma TextHeaderFound(lines: seq<seq<byte>>, eol: seq<byte>, body: seq<byte>)
    requires LineEnd(eol) && HeaderLines(lines) && lines != [] && lines[0][0] != DOLLAR
    ensures Classify(TextHeader(lines, eol) + body) == Text(|TextHeader(lines, eol)| - 1)
  {
    var d, more := TextHeader(lines, eol) + body, TextHeader(lines[1..], eol);
    HeaderLength(lines, eol);
    Regroup(lines[0] + eol, more, body);
    HeaderEndFound(d, lines[0], lines[1..], eol, body, |more|);
    NotBinary(d);
  }

  // A newline in front of the first line is passed over.
  lemma NewlineInFront(lines: seq<seq<byte>>, eol: seq<byte>, body: seq<byte>)
    requires LineEnd(eol) && HeaderLines(lines)
    ensures Classify([NEWLINE] + TextHeader(lines, eol) + body) == Text(|TextHeader(lines, eol)|)
  {
    var d := [NEWLINE] + TextHeader(lines, eol) + body;
    assert d[1..] == TextHeader(lines, eol) + body;
    EmptyLineFound(d, 0, lines, eol, body);
    NotBinary(d);
  }

  lemma CutSplit(a: seq<byte>, b: seq<byte>, cut: nat)
    requires |a| <= cut <= |a + b|
    ensures (a + b)[..cut] == a + b[..cut - |a|]
  {
  }

  // A line passed over in a header that is cut later.
  lemma CutPassed(d: seq<byte>, back: nat, line: seq<byte>, eol: seq<byte>, more: seq<byte>, cut: nat)
    requires LineEnd(eol) && HeaderLine(line) && back < |d| && |line| + |eol| <= cut <= |line| + |eol| + |more|
    requires d[back + 1..] == (line + eol + more)[..cut]
    ensures var next := back + |line| + |eol|;
            && next < |d| && d[next + 1..] == more[..cut - |line| - |eol|] && EmptyLine(d, back) == EmptyLine(d, next)
  {
    CutSplit(line + eol, more, cut);
    LinePassed(d, back, line, eol, more[..cut - |line + eol|]);
  }

  // Cut anywhere before that, no end is found.
  lemma {:induction false} NoEmptyLineYet(d: seq<byte>, back: nat, lines: seq<seq<byte>>, eol: seq<byte>, cut: nat)
    requires LineEnd(eol) && HeaderLines(lines) && back < |d| && cut < |TextHeader(lines, eol)|
    requires d[back + 1..] == TextHeader(lines, eol)[..cut]
    ensures EmptyLine(d, back) == -1
    decreases |lines|
  {
    if lines == [] {
      assert eol == [] + eol + [];
      NoNewline(d, back, [], eol, [], cut);
    } else {
      var n, more := |lines[0]| + |eol|, TextHeader(lines[1..], eol);
      HeaderLength(lines, eol);
      if cut < n {
        NoNewline(d, back, lines[0], eol, more, cut);
      } else {
        CutPassed(d, back, lines[0], eol, more, cut);
        NoEmptyLineYet(d, back + n, lines[1..], eol, cut - n);
      }
    }
  }

  lemma NoNewline(d: seq<byte>, back: nat, line: seq<byte>, eol: seq<byte>, more: seq<byte>, cut: nat)
    requires LineEnd(eol) && back < |d| && NEWLINE !in line && cut < |line| + |eol|
    requires d[back + 1..] == (line + eol + more)[..cut]
    ensures EmptyLine(d, back) == -1
  {
    CutLine(d, back + 1, line, eol, more, cut);
  }

  lemma CutLine(d: seq<byte>, at: nat, line: seq<byte>, eol: seq<byte>, more: seq<byte>, cut: nat)
    requires LineEnd(eol) && at <= |d| && NEWLINE !in line && cut < |line| + |eol|
    requires d[at..] == (line + eol + more)[..cut]
    ensures FindNewline(d, at) == -1
  {
    forall k | at <= k < |d| ensures d[k] != NEWLINE {
      assert d[k] == d[at..][k - at] == (line + eol)[k - at];
      if k - at < |line| { assert (line + eol)[k - at] in line; }
    }
    FindNone(d, at);
  }

  lemma CutInFirstLine(d: seq<byte>, line: seq<byte>, eol: seq<byte>, more: seq<byte>, cut: nat)
    requires LineEnd(eol) && HeaderLine(line) && cut < |line| + |eol| && d == (line + eol + more)[..cut]
    ensures HeaderEnd(d) == -1
  {
    assert d[0..] == d;
    CutLine(d, 0, line, eol, more, cut);
  }

  lemma CutLater(d: seq<byte>, line: seq<byte>, later: seq<seq<byte>>, eol: seq<byte>, rest: nat)
    requires LineEnd(eol) && HeaderLine(line) && HeaderLines(later) && rest < |TextHeader(later, eol)|
    requires d == line + eol + TextHeader(later, eol)[..rest]
    ensures HeaderEnd(d) == -1
  {
    FirstLine(d, line, eol, TextHeader(later, eol)[..rest]);
    NoEmptyLineYet(d, |line| + |eol| - 1, later, eol, rest);
  }

  lemma TextHeaderIncomplete(lines: seq<seq<byte>>, eol: seq<byte>, cut: nat)
    requires LineEnd(eol) && HeaderLines(lines) && lines != [] && lines[0][0] != DOLLAR
    requires cut < |TextHeader(lines, eol)|
    ensures Classify(TextHeader(lines, eol)[..cut]) == Incomplete
  {
    var d := TextHeader(lines, eol)[..cut];
    assert d != [] ==> d[0] == TextHeader(lines, eol)[0] == lines[0][0];
    NotBinary(d);
    if cut < |lines[0]| + |eol| {
      CutInFirstLine(d, lines[0], eol, TextHeader(lines[1..], eol), cut);
    } else {
      CutSplit(lines[0] + eol, TextHeader(lines[1..], eol), cut);
      CutLater(d, lines[0], lines[1..], eol, cut - |lines[0] + eol|);
    }
  }

  // ---- which medium a frame goes to ----

  datatype Sink = Nobody | Rtp(index: nat) | Rtcp(index: nat)

  // The search of handle_rtsp_pkt through the list of channel pairs.
  function FindSink(pairs: seq<(byte, byte)>, channel: byte): Sink {
    if pairs == [] then Nobody
    else if pairs[0].1 == channel then Rtcp(0)
    else if pairs[0].0 == channel then Rtp(0)
    else
      match FindSink(pairs[1..], channel)
      case Nobody => Nobody
      case Rtp(i) => Rtp(i + 1)
      case Rtcp(i) => Rtcp(i + 1)
  }

  lemma {:induction false} ChannelAt(n: nat, i: nat)
    requires i < n
    ensures Channels(n)[n - 1 - i] == (2 * i % 0x100, (2 * i + 1) % 0x100)
  {
    if i < n - 1 { ChannelAt(n - 1, i); }
  }

  lemma PairsRepeat(i: nat, j: nat)
    requires i <= j
    ensures 2 * j % 0x100 == 2 * i % 0x100 <==> (j - i) % 128 == 0
    ensures (2 * j + 1) % 0x100 == (2 * i + 1) % 0x100 <==> (j - i) % 128 == 0
    ensures 2 * j % 0x100 != (2 * i + 1) % 0x100 && (2 * j + 1) % 0x100 != 2 * i % 0x100
  {
    PairOf(i, i / 128, i % 128);
    PairOf(j, j / 128, j % 128);
    Remainders(i, j);
  }

  lemma PairOf(x: nat, q: nat, r: nat)
    requires x == 128 * q + r && r < 128
    ensures 2 * x % 0x100 == 2 * r && (2 * x + 1) % 0x100 == 2 * r + 1
  {
    assert 2 * x == 0x100 * q + 2 * r;
  }

  lemma Remainders(i: nat, j: nat)
    requires i <= j
    ensures i % 128 == j % 128 <==> (j - i) % 128 == 0
  {
    assert j - i == 128 * (j / 128 - i / 128) + (j % 128 - i % 128);
  }

  function Later(s: Sink): Sink {
    match s case Nobody => Nobody case Rtp(i) => Rtp(i + 1) case Rtcp(i) => Rtcp(i + 1)
  }

  // The latest pair is looked at first.
  lemma LatestFirst(n: nat, c: byte, lastRtp: byte, lastRtcp: byte)
    requires n > 0 && lastRtp == 2 * (n - 1) % 0x100 && lastRtcp == (2 * (n - 1) + 1) % 0x100
    ensures FindSink(Channels(n), c) ==
            if c == lastRtcp then Rtcp(0) else if c == lastRtp then Rtp(0) else Later(FindSink(Channels(n - 1), c))
  {
    assert Channels(n)[1..] == Channels(n - 1);
  }

  // The latest pair takes medium i's data if it is the medium's own, or 128 media came after it.
  ghost predicate TakenOver(now: Sink, before: Sink, own: Sink, d: nat) {
    && (now == own || now == Later(before))
    && (d == 0 || d == 128 ==> now == own) && (0 < d < 128 ==> now == Later(before))
  }

  // How the channels of the latest medium compare with those of medium i.
  lemma SameChannels(i: nat, last: nat, rtp: byte, rtcp: byte, lastRtp: byte, lastRtcp: byte)
    requires i <= last && rtp == 2 * i % 0x100 && rtcp == (2 * i + 1) % 0x100
    requires lastRtp == 2 * last % 0x100 && lastRtcp == (2 * last + 1) % 0x100
    ensures lastRtp != rtcp && lastRtcp != rtp
    ensures last - i == 0 || last - i == 128 ==> lastRtp == rtp && lastRtcp == rtcp
    ensures 0 < last - i < 128 ==> lastRtp != rtp && lastRtcp != rtcp
  {
    PairsRepeat(i, last);
    SmallRemainder(last - i);
  }

  lemma SmallRemainder(d: nat)
    ensures 0 < d < 128 ==> d % 128 != 0
    ensures d == 0 || d == 128 ==> d % 128 == 0
  {
  }

  lemma LatestTakes(n: nat, i: nat, d: nat, rtp: byte, rtcp: byte)
    requires i < n && d == n - 1 - i && rtp == 2 * i % 0x100 && rtcp == (2 * i + 1) % 0x100
    ensures TakenOver(FindSink(Channels(n), rtcp), FindSink(Channels(n - 1), rtcp), Rtcp(0), d)
    ensures TakenOver(FindSink(Channels(n), rtp), FindSink(Channels(n - 1), rtp), Rtp(0), d)
  {
    var lastRtp: byte, lastRtcp: byte := 2 * (n - 1) % 0x100, (2 * (n - 1) + 1) % 0x100;
    SameChannels(i, n - 1, rtp, rtcp, lastRtp, lastRtcp);
    LatestFirst(n, rtcp, lastRtp, lastRtcp);
    LatestFirst(n, rtp, lastRtp, lastRtcp);
  }

  lemma {:induction false} SinkFound(n: nat, i: nat, d: nat, rtp: byte, rtcp: byte)
    requires i < n && d == n - 1 - i && rtp == 2 * i % 0x100 && rtcp == (2 * i + 1) % 0x100
    ensures FindSink(Channels(n), rtcp) == Rtcp(d) <==> d < 128
    ensures FindSink(Channels(n), rtp) == Rtp(d) <==> d < 128
    decreases n
  {
    LatestTakes(n, i, d, rtp, rtcp);
    if d > 0 { SinkFound(n - 1, i, d - 1, rtp, rtcp); }
  }

  // After n SETUPs, data on medium i's channels reaches medium i if and only if fewer than
  // 128 media were set up after it (the channel numbers are bytes).
  lemma SinkIs(n: nat, i: nat, d: nat)
    requires i < n && d == n - 1 - i
    ensures FindSink(Channels(n), (2 * i + 1) % 0x100) == Rtcp(d) <==> d < 128
    ensures FindSink(Channels(n), 2 * i % 0x100) == Rtp(d) <==> d < 128
  {
    SinkFound(n, i, d, 2 * i % 0x100, (2 * i + 1) % 0x100);
  }

  // With 129 media the first one's RTCP data goes to the last.
  lemma FirstOf129Lost()
    ensures FindSink(Channels(129), 1) == Rtcp(0)
  {
    assert Channels(129)[0] == (0, 1);
  }
}
