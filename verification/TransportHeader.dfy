// The Transport header of RTSP (section 12.39 of RFC 2326) for interleaved TCP:
// set_transport_str and get_transport_str of src/rtsp/rtsp_transport.c.
module TransportHeader {
  import opened Words

  // ---- the C library functions used, on strings without the terminating zero ----

  function Lower(c: char): char {
    if 'A' <= c <= 'Z' then (c as int + 32) as char else c
  }

  predicate MatchAt(h: string, n: string, i: nat)
    requires i + |n| <= |h|
  {
    forall k :: 0 <= k < |n| ==> Lower(h[i + k]) == Lower(n[k])
  }

  // strcasestr(h + i, n), -1 for NULL
  function Find(h: string, n: string, i: nat): (p: int)
    ensures p == -1 || (i <= p && p + |n| <= |h|)
    decreases |h| - i
  {
    if i + |n| > |h| then -1 else if MatchAt(h, n, i) then i else Find(h, n, i + 1)
  }

  // The first c from position i on, -1 if the search would run off the token.
  function ScanTo(s: string, i: nat, c: char): (p: int)
    ensures p == -1 || (i <= p < |s| && s[p] == c)
    decreases |s| - i
  {
    if i >= |s| then -1 else if s[i] == c then i else ScanTo(s, i + 1, c)
  }

  // strtok_r with ";": the non-empty pieces, in order.
  function Tokens(s: string): seq<string>
    decreases |s|
  {
    if s == "" then []
    else
      var p := ScanTo(s, 0, ';');
      if p == -1 then [s]
      else if p == 0 then Tokens(s[1..])
      else [s[..p]] + Tokens(s[p + 1..])
  }

  function SkipSpaces(s: string): string {
    if s != "" && s[0] == ' ' then SkipSpaces(s[1..]) else s
  }

  function SkipSpacesAndColons(s: string): string {
    if s != "" && (s[0] == ' ' || s[0] == ':') then SkipSpacesAndColons(s[1..]) else s
  }

  // Up to the end of the line.
  function Line(s: string): string {
    if s == "" || s[0] == '\r' || s[0] == '\n' then "" else [s[0]] + Line(s[1..])
  }

  function DigitOf(c: char): int {
    if '0' <= c <= '9' then c as int - '0' as int
    else if 'a' <= c <= 'f' then c as int - 'a' as int + 10
    else if 'A' <= c <= 'F' then c as int - 'A' as int + 10
    else -1
  }

  // The longest prefix of digits of the base.
  function Digits(s: string, base: int): (r: string)
    ensures |r| <= |s|
  {
    if s == "" || DigitOf(s[0]) < 0 || DigitOf(s[0]) >= base then "" else [s[0]] + Digits(s[1..], base)
  }

  function ValueOf(s: string, base: nat): int {
    if s == "" then 0 else ValueOf(s[..|s| - 1], base) * base + DigitOf(s[|s| - 1])
  }

  // atoi
  function Atoi(s: string): int {
    var t := SkipSpaces(s);
    if t != "" && t[0] == '-' then -ValueOf(Digits(t[1..], 10), 10)
    else if t != "" && t[0] == '+' then ValueOf(Digits(t[1..], 10), 10)
    else ValueOf(Digits(t, 10), 10)
  }

  // strtoul(s, NULL, 16) stored in 32 bits, for unsigned text
  function Strtoul16(s: string): uint32 {
    var t := SkipSpaces(s);
    var u := if |t| > 2 && t[0] == '0' && Lower(t[1]) == 'x' && 0 <= DigitOf(t[2]) then t[2..] else t;
    Wrap32(ValueOf(Digits(u, 16), 16))
  }

  // ---- the transport of a session ----

  datatype Transport = Transport(
    tcp: bool, rtpChannel: byte, rtcpChannel: byte, ssrc: uint32, record: bool, append: bool)

  // get_transport_str returns 0, returns 1, looks for a separator beyond the token, or
  // leaves TCP to the branches of the other transports.
  datatype Verdict = Accepted | Rejected | Overrun | NotTcp

  function PrintDec(n: nat): (s: string) {
    if n < 10 then [('0' as int + n) as char] else PrintDec(n / 10) + [('0' as int + n % 10) as char]
  }

  function HexDigit(n: nat): char
    requires n < 16
  {
    if n < 10 then ('0' as int + n) as char else ('A' as int + n - 10) as char
  }

  // The width of %08X.
  const SSRC_WIDTH: nat := 8

  // %0kX
  function PrintHex(n: nat, k: nat): (s: string)
    ensures |s| == k
  {
    if k == 0 then "" else PrintHex(n / 16, k - 1) + [HexDigit(n % 16)]
  }

  function ChannelsItem(t: Transport): string {
    "interleaved=" + PrintDec(t.rtpChannel) + "-" + PrintDec(t.rtcpChannel)
  }

  function SsrcItem(t: Transport): string { "ssrc=" + PrintHex(t.ssrc, SSRC_WIDTH) }

  function Items(t: Transport): seq<string> {
    ["RTP/AVP/TCP", "unicast", ChannelsItem(t), ModeItem(t)] + Options(t)
  }

  function ModeItem(t: Transport): string { if t.record then "mode=record" else "mode=play" }

  function Options(t: Transport): seq<string> {
    (if t.append then ["append"] else []) + (if t.ssrc != 0 then [SsrcItem(t)] else [])
  }

  function Terminated(items: seq<string>): string {
    if items == [] then "" else items[0] + ";" + Terminated(items[1..])
  }

  // What get_transport_str_tcp does with one token.
  function Channels(t: Transport, tok: string, p: nat): (Transport, Verdict) {
    var a := ScanTo(tok, p, '=');
    if a == -1 then (t, Overrun)
    else
      var b := ScanTo(tok, a, '-');
      if b == -1 then (t, Overrun)
      else
        var first := Atoi(tok[a + 1..b]);
        if first > 255 then (t, Rejected)
        else
          var t1 := t.(rtpChannel := first % 0x100);
          var second := Atoi(Line(SkipSpaces(tok[b + 1..])));
          if second > 255 then (t1, Rejected) else (t1.(rtcpChannel := second % 0x100), Accepted)
  }

  function TokenEffect(t: Transport, tok: string): (Transport, Verdict) {
    var p := Find(tok, "interleaved", 0);
    if p != -1 then Channels(t, tok, p)
    else
      var q := Find(tok, "ssrc", 0);
      if q == -1 then (t, Accepted)
      else
        var a := ScanTo(tok, q, '=');
        if a == -1 then (t, Overrun) else (t.(ssrc := Strtoul16(Line(tok[a + 1..]))), Accepted)
  }

  function TokensEffect(t: Transport, toks: seq<string>): (Transport, Verdict)
    decreases |toks|
  {
    if toks == [] then (t, Accepted)
    else
      var (t1, v) := TokenEffect(t, toks[0]);
      if v != Accepted then (t1, v) else TokensEffect(t1, toks[1..])
  }

  // get_transport_str on a TCP header
  function Parsed(t: Transport, s: string): (Transport, Verdict) {
    if Find(s, "RTP/AVP/TCP", 0) == -1 then (t, NotTcp)
    else
      SomeToken(s, 0, "RTP/AVP/TCP");
      var toks := Tokens(s);
      TokensEffect(t.(tcp := true), [SkipSpacesAndColons(toks[0])] + toks[1..])
  }

  // A string that mentions a name holds a token.
  lemma {:induction false} SomeToken(s: string, i: nat, n: string)
    requires Find(s, n, i) != -1 && n != "" && Lower(n[0]) != ';'
    ensures Tokens(s) != []
  {
    if Tokens(s) == [] {
      OnlySeparators(s);
      NotMentioned(s, n, i);
      assert false;
    }
  }

  lemma {:induction false} OnlySeparators(s: string)
    requires Tokens(s) == []
    ensures forall k :: 0 <= k < |s| ==> s[k] == ';'
    decreases |s|
  {
    if s != "" {
      OnlySeparators(s[1..]);
      forall k | 0 <= k < |s| ensures s[k] == ';' {
        if k > 0 { assert s[k] == s[1..][k - 1]; }
      }
    }
  }

  class RtpTransport {
    var tcp: bool
    var rtpChannel: byte
    var rtcpChannel: byte
    var ssrc: uint32
    var record: bool
    var append: bool

    ghost function View(): Transport
      reads this
    {
      Transport(tcp, rtpChannel, rtcpChannel, ssrc, record, append)
    }

    // set_transport_str_tcp; `items` are the items printed before.
    method SetTransportStrTcp(start: string, ghost items: seq<string>) returns (buff: string)
      requires start == Terminated(items)
      ensures buff == Terminated(items + ["unicast", ChannelsItem(View())])
    {
      ghost var more := Grow(items, start, "unicast");
      buff := start + "unicast;";
      more := Grow(more, buff, ChannelsItem(View()));
      buff := buff + ("interleaved=" + PrintDec(rtpChannel) + "-" + PrintDec(rtcpChannel) + ";");
      assert more == items + ["unicast", ChannelsItem(View())];
    }

    // The part of set_transport_str common to all transports.
    method SetOptions(start: string, ghost items: seq<string>) returns (buff: string)
      requires start == Terminated(items)
      ensures buff == Terminated(items + [ModeItem(View())] + Options(View()))
      ensures buff != "" && buff[|buff| - 1] == ';'
    {
      ghost var more := Grow(items, start, ModeItem(View()));
      buff := start + if record then "mode=record;" else "mode=play;";
      if append {
        more := Grow(more, buff, "append");
        buff := buff + "append;";
      }
      if ssrc != 0 {
        more := Grow(more, buff, SsrcItem(View()));
        buff := buff + ("ssrc=" + PrintHex(ssrc, SSRC_WIDTH) + ";");
      }
      assert more == items + [ModeItem(View())] + Options(View());
    }

    // set_transport_str for a session over TCP with the default profile
    method SetTransportStr() returns (s: string)
      ensures s + ";" == Terminated(Items(View()))
    {
      var buff := "RTP/AVP";
      buff := buff + "/TCP;";
      ghost var items := ["RTP/AVP/TCP"];
      assert items[1..] == [] && buff == Terminated(items);
      buff := SetTransportStrTcp(buff, items);
      items := items + ["unicast", ChannelsItem(View())];
      buff := SetOptions(buff, items);
      assert items + [ModeItem(View())] + Options(View()) == Items(View());
      s := buff[..|buff| - 1];
    }

    // get_transport_str_tcp for one token
    method ParseToken(tok: string) returns (v: Verdict)
      modifies this
      ensures (View(), v) == TokenEffect(old(View()), tok)
    {
      var p := Find(tok, "interleaved", 0);
      if p != -1 {
        v := ParseChannels(tok, p);
        return;
      }
      p := Find(tok, "ssrc", 0);
      if p != -1 {
        var a := ScanTo(tok, p, '=');
        if a == -1 { return Overrun; }
        ssrc := Strtoul16(Line(tok[a + 1..]));
      }
      v := Accepted;
    }

    // Its part for a token that names the channels at position p
    method ParseChannels(tok: string, p: nat) returns (v: Verdict)
      modifies this
      ensures (View(), v) == Channels(old(View()), tok, p)
    {
      var a := ScanTo(tok, p, '=');
      if a == -1 { return Overrun; }
      var b := ScanTo(tok, a, '-');
      if b == -1 { return Overrun; }
      var value := Atoi(tok[a + 1..b]);
      if value > 255 { return Rejected; }
      rtpChannel := value % 0x100;
      value := Atoi(Line(SkipSpaces(tok[b + 1..])));
      if value > 255 { return Rejected; }
      rtcpChannel := value % 0x100;
      v := Accepted;
    }

    // get_transport_str, the TCP branch: the loop over strtok_r
    method GetTransportStr(s: string) returns (v: Verdict)
      modifies this
      ensures (View(), v) == Parsed(old(View()), s)
    {
      if Find(s, "RTP/AVP/TCP", 0) == -1 { return NotTcp; }
      SomeToken(s, 0, "RTP/AVP/TCP");
      tcp := true;
      var toks := Tokens(s);
      ghost var all := [SkipSpacesAndColons(toks[0])] + toks[1..];
      var tok := SkipSpacesAndColons(toks[0]);
      ghost var start := View();
      var i := 0;
      while i < |toks|
        invariant 0 <= i <= |toks| && (i < |toks| ==> tok == all[i])
        invariant TokensEffect(start, all) == TokensEffect(View(), all[i..])
      {
        v := ParseToken(tok);
        assert all[i..][1..] == all[i + 1..];
        if v != Accepted { return; }
        i := i + 1;
        if i < |toks| { tok := toks[i]; }
      }
      v := Accepted;
    }
  }

  // One more item printed.
  lemma Grow(items: seq<string>, buff: string, item: string) returns (more: seq<string>)
    requires buff == Terminated(items)
    ensures more == items + [item] && Terminated(more) == buff + (item + ";")
    ensures Terminated(more) != "" && Terminated(more)[|Terminated(more)| - 1] == ';'
  {
    more := items + [item];
    TerminatedAppend(items, item);
  }

  lemma {:induction false} TerminatedAppend(items: seq<string>, item: string)
    ensures Terminated(items + [item]) == Terminated(items) + (item + ";")
  {
    if items == [] {
      assert items + [item] == [item] && [item][1..] == [];
    } else {
      assert (items + [item])[1..] == items[1..] + [item];
      TerminatedAppend(items[1..], item);
    }
  }

  // ---- parsing what was printed ----

  predicate Without(s: string, c: char) { forall k :: 0 <= k < |s| ==> s[k] != c }

  lemma {:induction false} ScanStops(s: string, i: nat, p: nat, c: char)
    requires i <= p < |s| && s[p] == c && forall k :: i <= k < p ==> s[k] != c
    ensures ScanTo(s, i, c) == p
    decreases p - i
  {
    if i < p { ScanStops(s, i + 1, p, c); }
  }

  lemma {:induction false} ScanMisses(s: string, c: char, i: nat)
    requires i <= |s| && Without(s[i..], c)
    ensures ScanTo(s, i, c) == -1
    decreases |s| - i
  {
    if i < |s| {
      assert s[i..][0] == s[i] && s[i + 1..] == s[i..][1..];
      ScanMisses(s, c, i + 1);
    }
  }

  lemma {:induction false} TokensOfItems(s: string, items: seq<string>)
    requires items != [] && s + ";" == Terminated(items)
    requires forall k :: 0 <= k < |items| ==> items[k] != "" && Without(items[k], ';')
    ensures Tokens(s) == items
    decreases |items|
  {
    var x, rest := items[0], items[1..];
    assert items == [x] + rest;
    if rest == [] {
      assert Terminated(items) == x + ";" + "";
      assert (s + ";")[..|s|] == s && (x + ";")[..|x|] == x;
      assert s == x;
      assert s[0..] == s;
      ScanMisses(s, ';', 0);
    } else {
      assert Terminated(rest) == rest[0] + ";" + Terminated(rest[1..]);
      var r := s[|x| + 1..];
      assert s + ";" == x + ";" + Terminated(rest);
      assert |Terminated(rest)| > 0;
      assert s[..|x|] == (s + ";")[..|x|] == x;
      assert r + ";" == (s + ";")[|x| + 1..] == Terminated(rest);
      assert s == x + ";" + r;
      ScanStops(s, 0, |x|, ';');
      TokensOfItems(r, rest);
    }
  }

  // A token in which no occurrence of a name can start does not mention it.
  lemma {:induction false} NotMentioned(h: string, n: string, i: nat)
    requires n != "" && forall k :: i <= k && k + |n| <= |h| ==> Lower(h[k]) != Lower(n[0])
    ensures Find(h, n, i) == -1
    decreases |h| - i
  {
    if i + |n| <= |h| {
      assert Lower(h[i + 0]) != Lower(n[0]);
      NotMentioned(h, n, i + 1);
    }
  }

  lemma PlainToken(t: Transport, tok: string)
    requires forall k :: 0 <= k < |tok| ==> tok[k] != 'i' && tok[k] != 'I'
    requires forall k :: 0 <= k && k + 4 <= |tok| ==> tok[k] != 's' && tok[k] != 'S'
    ensures TokenEffect(t, tok) == (t, Accepted)
  {
    assert Lower("interleaved"[0]) == 'i' && Lower("ssrc"[0]) == 's';
    NotMentioned(tok, "interleaved", 0);
    NotMentioned(tok, "ssrc", 0);
  }

  // ---- numbers ----

  predicate Decimal(s: string) { forall k :: 0 <= k < |s| ==> '0' <= s[k] <= '9' }

  predicate Hexadecimal(s: string) {
    forall k :: 0 <= k < |s| ==> 0 <= DigitOf(s[k]) < 16 && s[k] != 'x' && s[k] != 'X'
  }

  lemma {:induction false} PrintDecRight(n: nat)
    ensures PrintDec(n) != "" && Decimal(PrintDec(n)) && ValueOf(PrintDec(n), 10) == n
  {
    if n < 10 {
      var s := PrintDec(n);
      assert s[..0] == "";
    } else {
      PrintDecRight(n / 10);
      var s := PrintDec(n);
      assert s[..|s| - 1] == PrintDec(n / 10);
    }
  }

  lemma HexDigitRight(n: nat)
    requires n < 16
    ensures DigitOf(HexDigit(n)) == n && HexDigit(n) != 'x' && HexDigit(n) != 'X' && HexDigit(n) != ';'
    ensures HexDigit(n) != ' ' && HexDigit(n) != '\r' && HexDigit(n) != '\n' && HexDigit(n) != 'i' && HexDigit(n) != 'I'
  {
  }

  function Power16(k: nat): nat { if k == 0 then 1 else 16 * Power16(k - 1) }

  lemma {:induction false} PrintHexRight(n: nat, k: nat)
    requires n < Power16(k)
    ensures Hexadecimal(PrintHex(n, k)) && ValueOf(PrintHex(n, k), 16) == n
  {
    if k > 0 {
      PrintHexRight(n / 16, k - 1);
      HexDigitRight(n % 16);
      var s := PrintHex(n, k);
      assert s[..|s| - 1] == PrintHex(n / 16, k - 1);
    }
  }

  lemma {:induction false} AllDigits(s: string, base: int)
    requires forall k :: 0 <= k < |s| ==> 0 <= DigitOf(s[k]) < base
    ensures Digits(s, base) == s
  {
    if s != "" { AllDigits(s[1..], base); }
  }

  lemma {:induction false} WholeLine(s: string)
    requires Without(s, '\r') && Without(s, '\n')
    ensures Line(s) == s
  {
    if s != "" { WholeLine(s[1..]); }
  }

  lemma AtoiPrinted(n: nat)
    ensures var s := PrintDec(n); Atoi(s) == n && SkipSpaces(s) == s && Line(s) == s
  {
    PrintDecRight(n);
    AllDigits(PrintDec(n), 10);
    WholeLine(PrintDec(n));
  }

  lemma EightDigits()
    ensures Power16(8) == 0x1_0000_0000
  {
    assert Power16(4) == 0x1_0000;
  }

  // Upper-case digits are never taken for a 0x prefix.
  lemma StrtoulOfDigits(s: string, n: uint32)
    requires |s| == 8 && Hexadecimal(s) && ValueOf(s, 16) == n
    ensures Strtoul16(s) == n
  {
    AllDigits(s, 16);
    var c := s[0];
    assert c != ' ';
    c := s[1];
    assert Lower(c) != 'x';
  }

  lemma HexadecimalLine(s: string)
    requires Hexadecimal(s)
    ensures Line(s) == s && Without(s, ';')
  {
    forall k | 0 <= k < |s| ensures s[k] != '\r' && s[k] != '\n' && s[k] != ';' {
      var c := s[k];
      assert 0 <= DigitOf(c);
    }
    WholeLine(s);
  }

  lemma StrtoulPrinted(n: uint32)
    ensures var s := PrintHex(n, SSRC_WIDTH); Strtoul16(s) == n && Line(s) == s && Hexadecimal(s) && Without(s, ';')
  {
    EightDigits();
    PrintHexRight(n, SSRC_WIDTH);
    PrintedBack(n, PrintHex(n, SSRC_WIDTH));
  }

  lemma PrintedBack(n: uint32, s: string)
    requires |s| == 8 && Hexadecimal(s) && ValueOf(s, 16) == n
    ensures Strtoul16(s) == n && Line(s) == s && Without(s, ';')
  {
    StrtoulOfDigits(s, n);
    HexadecimalLine(s);
  }

  // ---- the two items that carry numbers ----

  lemma MentionedAtStart(h: string, n: string)
    requires |h| >= |n| && h[..|n|] == n
    ensures Find(h, n, 0) == 0
  {
    forall k | 0 <= k < |n| ensures h[0 + k] == n[k] { assert h[..|n|][k] == h[k]; }
    assert MatchAt(h, n, 0);
  }

  // Where the two scans of a channels token stop, and what they cut out.
  lemma ChannelsOf(t: Transport, tok: string, i: nat, j: nat, first: byte, second: byte)
    requires i < j < |tok| && tok[i] == '=' && tok[j] == '-'
    requires Without(tok[..i], '=') && Without(tok[i + 1..j], '-')
    requires Atoi(tok[i + 1..j]) == first && Atoi(Line(SkipSpaces(tok[j + 1..]))) == second
    ensures Channels(t, tok, 0) == (t.(rtpChannel := first, rtcpChannel := second), Accepted)
  {
    forall k | 0 <= k < i ensures tok[k] != '=' { assert tok[k] == tok[..i][k]; }
    ScanStops(tok, 0, i, '=');
    forall k | i <= k < j ensures tok[k] != '-' {
      if k > i { assert tok[k] == tok[i + 1..j][k - i - 1]; }
    }
    ScanStops(tok, i, j, '-');
  }

  lemma NoDash(s: string)
    requires Decimal(s)
    ensures Without(s, '-')
  {
  }

  lemma ChannelsShape(from: Transport)
    ensures var tok, j := ChannelsItem(from), 12 + |PrintDec(from.rtpChannel)|;
            j < |tok| && tok[..11] == "interleaved" && tok[11] == '=' && tok[j] == '-' &&
            tok[12..j] == PrintDec(from.rtpChannel) && tok[j + 1..] == PrintDec(from.rtcpChannel)
  {
  }

  lemma NamesChannels(t: Transport, tok: string)
    requires |tok| >= 11 && tok[..11] == "interleaved"
    ensures TokenEffect(t, tok) == Channels(t, tok, 0)
  {
    MentionedAtStart(tok, "interleaved");
  }

  lemma ChannelsParsed(t: Transport, from: Transport)
    ensures TokenEffect(t, ChannelsItem(from)) ==
            (t.(rtpChannel := from.rtpChannel, rtcpChannel := from.rtcpChannel), Accepted)
  {
    ChannelsShape(from);
    ChannelsToken(t, ChannelsItem(from), 12 + |PrintDec(from.rtpChannel)|, from.rtpChannel, from.rtcpChannel);
  }

  lemma ChannelsToken(t: Transport, tok: string, j: nat, first: byte, second: byte)
    requires 12 <= j < |tok| && tok[..11] == "interleaved" && tok[11] == '=' && tok[j] == '-'
    requires tok[12..j] == PrintDec(first) && tok[j + 1..] == PrintDec(second)
    ensures TokenEffect(t, tok) == (t.(rtpChannel := first, rtcpChannel := second), Accepted)
  {
    NamesChannels(t, tok);
    NumbersRead(tok, j, first, second);
    ChannelsOf(t, tok, 11, j, first, second);
  }

  // What the two scans of the token cut out reads as the two numbers.
  lemma NumbersRead(tok: string, j: nat, first: byte, second: byte)
    requires 12 <= j < |tok| && tok[..11] == "interleaved"
    requires tok[12..j] == PrintDec(first) && tok[j + 1..] == PrintDec(second)
    ensures Without(tok[..11], '=') && Without(tok[12..j], '-')
    ensures Atoi(tok[12..j]) == first && Atoi(Line(SkipSpaces(tok[j + 1..]))) == second
  {
    NameClean();
    NumberRead(tok[12..j], first);
    NumberRead(tok[j + 1..], second);
  }

  lemma NameClean()
    ensures Without("interleaved", '=')
  {
  }

  lemma NumberRead(s: string, n: nat)
    requires s == PrintDec(n)
    ensures Atoi(s) == n && Atoi(Line(SkipSpaces(s))) == n && Without(s, '-')
  {
    AtoiPrinted(n);
    PrintDecRight(n);
    NoDash(s);
  }

  lemma SsrcOf(t: Transport, tok: string, value: uint32)
    requires |tok| > 5 && tok[..4] == "ssrc" && tok[4] == '='
    requires forall k :: 0 <= k < |tok| ==> tok[k] != 'i' && tok[k] != 'I'
    requires Line(tok[5..]) == tok[5..] && Strtoul16(tok[5..]) == value
    ensures TokenEffect(t, tok) == (t.(ssrc := value), Accepted)
  {
    assert Lower("interleaved"[0]) == 'i';
    NotMentioned(tok, "interleaved", 0);
    MentionedAtStart(tok, "ssrc");
    forall k | 0 <= k < 4 ensures tok[k] != '=' { assert tok[k] == tok[..4][k]; }
    ScanStops(tok, 0, 4, '=');
  }

  lemma SsrcLetters(h: string)
    requires Hexadecimal(h)
    ensures forall k :: 0 <= k < |"ssrc=" + h| ==> ("ssrc=" + h)[k] != 'i' && ("ssrc=" + h)[k] != 'I'
  {
    var tok := "ssrc=" + h;
    forall k | 0 <= k < |tok| ensures tok[k] != 'i' && tok[k] != 'I' {
      if k >= 5 {
        var c := h[k - 5];
        assert tok[k] == c && 0 <= DigitOf(c);
      }
    }
  }

  lemma SsrcParsed(t: Transport, from: Transport)
    ensures TokenEffect(t, SsrcItem(from)) == (t.(ssrc := from.ssrc), Accepted)
  {
    var h := PrintHex(from.ssrc, SSRC_WIDTH);
    StrtoulPrinted(from.ssrc);
    SsrcLetters(h);
    assert SsrcItem(from)[5..] == h;
    SsrcOf(t, SsrcItem(from), from.ssrc);
  }

  // ---- the round trip ----

  lemma {:induction false} EffectAppend(t: Transport, a: seq<string>, b: seq<string>, mid: Transport)
    requires TokensEffect(t, a) == (mid, Accepted)
    ensures TokensEffect(t, a + b) == TokensEffect(mid, b)
    decreases |a|
  {
    if a == [] {
      assert a + b == b;
    } else {
      assert (a + b)[1..] == a[1..] + b;
      EffectAppend(TokenEffect(t, a[0]).0, a[1..], b, mid);
    }
  }

  lemma One(t: Transport, tok: string)
    requires TokenEffect(t, tok).1 == Accepted
    ensures TokensEffect(t, [tok]) == TokenEffect(t, tok)
  {
    assert [tok][1..] == [];
  }

  lemma {:induction false} Skipped(t: Transport, x: string, rest: seq<string>, u: Transport)
    requires TokenEffect(t, x) == (u, Accepted)
    ensures TokensEffect(t, [x] + rest) == TokensEffect(u, rest)
  {
    assert ([x] + rest)[1..] == rest;
  }

  function FixedPart(from: Transport): seq<string> {
    ["RTP/AVP/TCP"] + (["unicast"] + ([ChannelsItem(from)] + [ModeItem(from)]))
  }

  lemma RecordPlain(t: Transport)
    ensures TokenEffect(t, "mode=record") == (t, Accepted)
  {
    PlainToken(t, "mode=record");
  }

  lemma PlayPlain(t: Transport)
    ensures TokenEffect(t, "mode=play") == (t, Accepted)
  {
    PlainToken(t, "mode=play");
  }

  lemma ModePlain(t: Transport, from: Transport)
    ensures TokenEffect(t, ModeItem(from)) == (t, Accepted)
  {
    RecordPlain(t);
    PlayPlain(t);
  }

  lemma FixedItems(t: Transport, from: Transport)
    ensures TokensEffect(t, FixedPart(from)) ==
            (t.(rtpChannel := from.rtpChannel, rtcpChannel := from.rtcpChannel), Accepted)
  {
    var u := t.(rtpChannel := from.rtpChannel, rtcpChannel := from.rtcpChannel);
    var c, m := ChannelsItem(from), ModeItem(from);
    PlainToken(t, "RTP/AVP/TCP");
    UnicastPlain(t);
    ChannelsParsed(t, from);
    ModePlain(u, from);
    One(u, m);
    Skipped(t, c, [m], u);
    Skipped(t, "unicast", [c] + [m], t);
    Skipped(t, "RTP/AVP/TCP", ["unicast"] + ([c] + [m]), t);
  }

  lemma UnicastPlain(t: Transport)
    ensures TokenEffect(t, "unicast") == (t, Accepted)
  {
    assert Find("unicast", "interleaved", 0) == -1;
    assert Lower("ssrc"[0]) == 's';
    NotMentioned("unicast", "ssrc", 0);
  }

  lemma OptionsParsed(t: Transport, from: Transport)
    ensures TokensEffect(t, Options(from)) == (if from.ssrc != 0 then t.(ssrc := from.ssrc) else t, Accepted)
  {
    var last := if from.ssrc != 0 then [SsrcItem(from)] else [];
    LastParsed(t, from);
    AppendPlain(t);
    if from.append {
      assert Options(from) == ["append"] + last;
      Skipped(t, "append", last, t);
    } else {
      assert Options(from) == last;
    }
  }

  lemma AppendPlain(t: Transport)
    ensures TokenEffect(t, "append") == (t, Accepted)
  {
    PlainToken(t, "append");
  }

  lemma LastParsed(t: Transport, from: Transport)
    ensures TokensEffect(t, if from.ssrc != 0 then [SsrcItem(from)] else []) ==
            (if from.ssrc != 0 then t.(ssrc := from.ssrc) else t, Accepted)
  {
    SsrcParsed(t, from);
    One(t, SsrcItem(from));
  }

  lemma ItemsClean(t: Transport)
    ensures forall k :: 0 <= k < |Items(t)| ==> Items(t)[k] != "" && Without(Items(t)[k], ';')
  {
    ChannelsClean(t);
    SsrcClean(t);
  }

  lemma ChannelsClean(t: Transport)
    ensures Without(ChannelsItem(t), ';')
  {
    PrintDecRight(t.rtpChannel);
    PrintDecRight(t.rtcpChannel);
  }

  lemma SsrcClean(t: Transport)
    ensures Without(SsrcItem(t), ';')
  {
    StrtoulPrinted(t.ssrc);
  }

  lemma ItemsParsed(t: Transport, from: Transport)
    ensures TokensEffect(t, Items(from)) ==
            (t.(rtpChannel := from.rtpChannel, rtcpChannel := from.rtcpChannel,
                ssrc := if from.ssrc != 0 then from.ssrc else t.ssrc), Accepted)
  {
    var u := t.(rtpChannel := from.rtpChannel, rtcpChannel := from.rtcpChannel);
    FixedItems(t, from);
    OptionsParsed(u, from);
    EffectAppend(t, FixedPart(from), Options(from), u);
    ItemsInTwoParts(from);
  }

  lemma ItemsInTwoParts(t: Transport)
    ensures FixedPart(t) + Options(t) == Items(t)
  {
    assert FixedPart(t) == ["RTP/AVP/TCP", "unicast", ChannelsItem(t), ModeItem(t)];
  }

  lemma NamesTcp(from: Transport, s: string)
    requires s + ";" == Terminated(Items(from))
    ensures Find(s, "RTP/AVP/TCP", 0) == 0
  {
    var items := Items(from);
    var n := items[0];
    assert Terminated(items) == n + ";" + Terminated(items[1..]);
    assert |s| >= |n| by {
      assert Terminated(items[1..]) == items[1] + ";" + Terminated(items[1..][1..]);
    }
    assert s[..|n|] == (s + ";")[..|n|] == Terminated(items)[..|n|] == n;
    MentionedAtStart(s, n);
  }

  // Parsing the printed header recovers both channels and any non-zero ssrc, whatever the
  // mode and append flags and whatever the parsing session held before.
  lemma HeaderRoundTrip(from: Transport, to: Transport, s: string)
    requires s + ";" == Terminated(Items(from))
    ensures Parsed(to, s) ==
            (to.(tcp := true, rtpChannel := from.rtpChannel, rtcpChannel := from.rtcpChannel,
                 ssrc := if from.ssrc != 0 then from.ssrc else to.ssrc), Accepted)
  {
    ItemsClean(from);
    TokensOfItems(s, Items(from));
    NamesTcp(from, s);
    assert [SkipSpacesAndColons(Items(from)[0])] + Items(from)[1..] == Items(from);
    ItemsParsed(to.(tcp := true), from);
  }

  predicate Starts(s: string, n: string) { |n| <= |s| && s[..|n|] == n }

  lemma VariableItems(t: Transport)
    ensures Starts(ChannelsItem(t), "interleaved=") && Starts(SsrcItem(t), "ssrc=")
    ensures ChannelsItem(t)[0] == 'i' && SsrcItem(t)[0] == 's' && SsrcItem(t) != ""
  {
  }

  predicate StartsWith(s: string, c: char) { s != "" && s[0] == c }

  // The items in order, told apart by their first letters.
  lemma FirstLetters(t: Transport)
    ensures var items := Items(t);
            && |items| >= 4 && items[3] == ModeItem(t)
            && StartsWith(items[0], 'R') && StartsWith(items[1], 'u') && StartsWith(items[2], 'i')
            && StartsWith(items[3], 'm') && items[4..] == Options(t)
  {
    VariableItems(t);
  }

  lemma OptionLetters(t: Transport)
    ensures forall k :: 0 <= k < |Options(t)| ==> StartsWith(Options(t)[k], 'a') || StartsWith(Options(t)[k], 's')
    ensures "append" in Options(t) <==> t.append
    ensures (exists k :: 0 <= k < |Options(t)| && Starts(Options(t)[k], "ssrc=")) <==> t.ssrc != 0
  {
    VariableItems(t);
    assert StartsWith("append", 'a') && StartsWith(SsrcItem(t), 's');
    if t.ssrc != 0 { assert Starts(Options(t)[|Options(t)| - 1], "ssrc="); }
    if t.append { assert Options(t)[0] == "append"; }
  }

  lemma ModeSaid(t: Transport)
    ensures "mode=record" in Items(t) <==> t.record
    ensures "mode=play" in Items(t) <==> !t.record
  {
    FirstLetters(t);
    OptionLetters(t);
    var items := Items(t);
    forall k | 0 <= k < |items| && k != 3 ensures !StartsWith(items[k], 'm') {
      if k >= 4 { assert items[k] == items[4..][k - 4]; }
    }
    assert StartsWith("mode=record", 'm') && StartsWith("mode=play", 'm');
  }

  // The items after the fourth are the options, and no other starts like one.
  lemma OptionItems(t: Transport)
    ensures |Items(t)| == 4 + |Options(t)|
    ensures forall k :: 0 <= k < |Options(t)| ==> Items(t)[k + 4] == Options(t)[k]
    ensures forall k :: 4 <= k < |Items(t)| ==> Items(t)[k] == Options(t)[k - 4]
    ensures forall k :: 0 <= k < 4 ==> !StartsWith(Items(t)[k], 'a') && !StartsWith(Items(t)[k], 's')
  {
    FirstLetters(t);
    var items, options := Items(t), Options(t);
    assert items[4..] == options;
    forall k | 0 <= k < |options| ensures items[k + 4] == options[k] { assert items[4..][k] == items[k + 4]; }
  }

  lemma AppendSaid(t: Transport)
    ensures "append" in Items(t) <==> t.append
  {
    OptionItems(t);
    OptionLetters(t);
    assert StartsWith("append", 'a');
  }

  lemma IdSaid(t: Transport)
    ensures (exists k :: 0 <= k < |Items(t)| && Starts(Items(t)[k], "ssrc=")) <==> t.ssrc != 0
  {
    OptionItems(t);
    OptionLetters(t);
    var items, options := Items(t), Options(t);
    if k :| 0 <= k < |options| && Starts(options[k], "ssrc=") { assert Starts(items[k + 4], "ssrc="); }
    if k :| 0 <= k < |items| && Starts(items[k], "ssrc=") {
      assert StartsWith(items[k], 's');
      assert Starts(options[k - 4], "ssrc=");
    }
  }

  // What a server reads in the header: the transport, the mode of the session and none but it,
  // and `append` and an identifier only if they are set.
  lemma HeaderSays(t: Transport, s: string)
    requires s + ";" == Terminated(Items(t))
    ensures var toks := Tokens(s);
            && |toks| >= 2 && toks[0] == "RTP/AVP/TCP" && toks[1] == "unicast"
            && ("mode=record" in toks <==> t.record) && ("mode=play" in toks <==> !t.record)
            && ("append" in toks <==> t.append)
            && ((exists k :: 0 <= k < |toks| && Starts(toks[k], "ssrc=")) <==> t.ssrc != 0)
  {
    ItemsClean(t);
    TokensOfItems(s, Items(t));
    ModeSaid(t);
    AppendSaid(t);
    IdSaid(t);
  }
}
