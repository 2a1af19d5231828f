// The Transport header of a server's reply, in whatever spelling: letter case, blanks, repeated
// separators, further parameters (section 12.39 of RFC 2326).
module TransportReplies {
  import opened Words
  import opened TransportHeader

  // ---- letters in either case ----

  predicate SameLetter(c: char, d: char) {
    || c == d
    || ('a' <= d <= 'z' && c as int + 32 == d as int)
    || ('A' <= d <= 'Z' && c as int == d as int + 32)
  }

  predicate Spelt(s: string, n: string) { |s| == |n| && forall k :: 0 <= k < |s| ==> SameLetter(s[k], n[k]) }

  lemma SpeltMatches(h: string, n: string, p: nat)
    requires p + |n| <= |h| && Spelt(h[p..p + |n|], n)
    ensures MatchAt(h, n, p)
  {
    forall k | 0 <= k < |n| ensures Lower(h[p + k]) == Lower(n[k]) {
      assert SameLetter(h[p..p + |n|][k], n[k]);
    }
  }

  lemma {:induction false} MentionFound(h: string, n: string, i: nat, p: nat)
    requires i <= p && p + |n| <= |h| && MatchAt(h, n, p)
    ensures i <= Find(h, n, i) <= p
    decreases p - i
  {
    if i < p && !MatchAt(h, n, i) { MentionFound(h, n, i + 1, p); }
  }

  // ---- strtok_r ----

  // These determine the tokens of every string.
  lemma TokensEquations(x: string, s: string)
    requires Without(x, ';')
    ensures Tokens(";" + s) == Tokens(s)
    ensures x != "" ==> Tokens(x) == [x] && Tokens(x + ";" + s) == [x] + Tokens(s)
    ensures Tokens("") == []
  {
    assert (";" + s)[1..] == s;
    if x != "" {
      assert x[0..] == x;
      ScanMisses(x, ';', 0);
      var all := x + ";" + s;
      ScanStops(all, 0, |x|, ';');
      assert all[..|x|] == x && all[|x| + 1..] == s;
    }
  }

  predicate Blank(s: string) { forall k :: 0 <= k < |s| ==> s[k] == ' ' || s[k] == ':' }

  lemma {:induction false} BlanksSkipped(lead: string, x: string)
    requires Blank(lead) && x != "" && x[0] != ' ' && x[0] != ':'
    ensures SkipSpacesAndColons(lead + x) == x
    decreases |lead|
  {
    if lead == "" {
      assert lead + x == x;
    } else {
      assert (lead + x)[1..] == lead[1..] + x;
      BlanksSkipped(lead[1..], x);
    }
  }

  // Blanks in front belong to the first token.
  lemma {:induction false} BlanksInFront(lead: string, x: string)
    requires Blank(lead) && x != "" && x[0] != ';'
    ensures Tokens(x) != [] && Tokens(lead + x) == [lead + Tokens(x)[0]] + Tokens(x)[1..]
  {
    var p := ScanTo(x, 0, ';');
    if p == -1 {
      NoneScanned(x, 0, ';');
      assert Without(lead + x, ';');
      TokensEquations(lead + x, "");
    } else {
      ScannedFirst(x, 0, ';');
      var first, rest := x[..p], x[p + 1..];
      assert x == first + ";" + rest && lead + x == (lead + first) + ";" + rest;
      assert Without(first, ';') && Without(lead + first, ';');
      TokensEquations(first, rest);
      TokensEquations(lead + first, rest);
    }
  }

  lemma {:induction false} NoneScanned(s: string, i: nat, c: char)
    requires ScanTo(s, i, c) == -1
    ensures forall k :: i <= k < |s| ==> s[k] != c
    decreases |s| - i
  {
    if i < |s| { NoneScanned(s, i + 1, c); }
  }

  lemma {:induction false} ScannedFirst(s: string, i: nat, c: char)
    requires ScanTo(s, i, c) != -1
    ensures forall k :: i <= k < ScanTo(s, i, c) ==> s[k] != c
    decreases |s| - i
  {
    if i < |s| && s[i] != c { ScannedFirst(s, i + 1, c); }
  }

  // ---- numbers as the C library reads them ----

  predicate Spaces(s: string) { forall k :: 0 <= k < |s| ==> s[k] == ' ' }

  lemma {:induction false} SpacesSkipped(lead: string, x: string)
    requires Spaces(lead) && (x != "" ==> x[0] != ' ')
    ensures SkipSpaces(lead + x) == x
    decreases |lead|
  {
    if lead == "" {
      assert lead + x == x;
    } else {
      assert (lead + x)[1..] == lead[1..] + x;
      SpacesSkipped(lead[1..], x);
    }
  }

  lemma {:induction false} DigitsEnd(d: string, rest: string, base: int)
    requires forall k :: 0 <= k < |d| ==> 0 <= DigitOf(d[k]) < base
    requires rest != "" ==> !(0 <= DigitOf(rest[0]) < base)
    ensures Digits(d + rest, base) == d
    decreases |d|
  {
    if d == "" {
      assert d + rest == rest;
    } else {
      assert (d + rest)[1..] == d[1..] + rest;
      DigitsEnd(d[1..], rest, base);
    }
  }

  predicate Sign(s: string) { s == "" || s == "+" || s == "-" }

  predicate DigitText(d: string) { d != "" && Decimal(d) }

  predicate NoDigitFirst(rest: string) { rest != "" ==> !('0' <= rest[0] <= '9') }

  lemma DecimalEnd(d: string, rest: string)
    requires DigitText(d) && NoDigitFirst(rest)
    ensures Digits(d + rest, 10) == d && '0' <= (d + rest)[0] <= '9'
  {
    DigitsEnd(d, rest, 10);
  }

  lemma AtoiUnsigned(s: string, x: string, d: string)
    requires SkipSpaces(s) == x && x != "" && '0' <= x[0] <= '9' && Digits(x, 10) == d
    ensures Atoi(s) == ValueOf(d, 10)
  {
  }

  lemma AtoiSigned(s: string, sign: string, x: string, d: string)
    requires SkipSpaces(s) == sign + x && (sign == "+" || sign == "-") && Digits(x, 10) == d
    ensures Atoi(s) == (if sign == "-" then -1 else 1) * ValueOf(d, 10)
  {
    assert (sign + x)[1..] == x;
  }

  lemma AtoiOf(lead: string, sign: string, d: string, rest: string)
    requires Spaces(lead) && Sign(sign) && DigitText(d) && NoDigitFirst(rest)
    ensures Atoi(lead + (sign + (d + rest))) == (if sign == "-" then -1 else 1) * ValueOf(d, 10)
  {
    var x := d + rest;
    DecimalEnd(d, rest);
    SpacesSkipped(lead, sign + x);
    if sign == "" {
      assert sign + x == x;
      AtoiUnsigned(lead + (sign + x), x, d);
    } else {
      AtoiSigned(lead + (sign + x), sign, x, d);
    }
  }

  // atoi: blanks, a sign, and digits up to the first character that is none.
  lemma AtoiReads(lead: string, sign: string, n: nat, rest: string)
    requires Spaces(lead) && Sign(sign) && NoDigitFirst(rest)
    ensures Atoi(lead + (sign + (PrintDec(n) + rest))) == (if sign == "-" then -1 else 1) * n
  {
    PrintDecRight(n);
    AtoiOf(lead, sign, PrintDec(n), rest);
  }

  lemma SpeltDigit(c: char, n: nat)
    requires n < 16 && SameLetter(c, HexDigit(n))
    ensures DigitOf(c) == n && c != ' ' && c != '\r' && c != '\n' && c != 'i' && c != 'I' && Lower(c) != 'x'
  {
  }

  // A number in hexadecimal digits of either case.
  lemma {:induction false} SpeltHex(h: string, n: nat, k: nat)
    requires n < Power16(k) && Spelt(h, PrintHex(n, k))
    ensures ValueOf(h, 16) == n && HexLetters(h)
  {
    if k > 0 {
      var s := PrintHex(n, k);
      assert s[..k - 1] == PrintHex(n / 16, k - 1) && s[k - 1] == HexDigit(n % 16);
      assert forall j :: 0 <= j < k - 1 ==> SameLetter(h[j], s[j]);
      SpeltHex(h[..k - 1], n / 16, k - 1);
      assert forall j :: 0 <= j < k - 1 ==> h[j] == h[..k - 1][j];
      SpeltDigit(h[k - 1], n % 16);
    }
  }

  predicate HexLetter(c: char) {
    0 <= DigitOf(c) < 16 && c != ' ' && c != '\r' && c != '\n' && c != 'i' && c != 'I' && Lower(c) != 'x'
  }

  predicate HexLetters(h: string) { forall k :: 0 <= k < |h| ==> HexLetter(h[k]) }

  // strtoul in base 16, with or without 0x in front.
  lemma StrtoulReads(prefix: string, h: string, n: nat, k: nat)
    requires HexPrefix(prefix) && k > 0 && n < Power16(k) && Spelt(h, PrintHex(n, k))
    ensures Strtoul16(prefix + h) == Wrap32(n)
  {
    SpeltHex(h, n, k);
    AllDigits(h, 16);
    assert HexLetter(h[0]);
    if prefix == "" {
      assert prefix + h == h;
      if |h| > 1 { assert HexLetter(h[1]); }
    } else {
      assert (prefix + h)[2..] == h && (prefix + h)[2] == h[0];
    }
  }

  // ---- one parameter ----

  // The name in front of a parameter is what the search finds, and holds no separator.
  lemma NamedFirst(tok: string, name: string, n: string, rest: string)
    requires tok == name + rest && Spelt(name, n) && Without(n, '=')
    ensures Find(tok, n, 0) == 0 && Without(name, '=')
  {
    assert tok[0..0 + |n|] == name;
    SpeltMatches(tok, n, 0);
    forall k | 0 <= k < |name| ensures name[k] != '=' { assert SameLetter(name[k], n[k]) && n[k] != '='; }
  }

  lemma SeparatorFound(tok: string, name: string, rest: string)
    requires tok == name + ("=" + rest) && Without(name, '=')
    ensures ScanTo(tok, 0, '=') == |name| && tok[|name| + 1..] == rest
  {
    forall j | 0 <= j < |name| ensures tok[j] != '=' { assert tok[j] == name[j]; }
    ScanStops(tok, 0, |name|, '=');
  }

  // Where the two scans of a channels token stop.
  predicate ChannelsShape(tok: string, i: nat, a: string, b: string) {
    && ScanTo(tok, 0, '=') == i && ScanTo(tok, i, '-') == i + 1 + |a|
    && tok[i + 1..i + 1 + |a|] == a && tok[i + 2 + |a|..] == b
  }

  lemma ChannelsShaped(tok: string, name: string, a: string, b: string)
    requires tok == name + ("=" + (a + "-" + b)) && Without(name, '=') && Without(a, '-')
    ensures ChannelsShape(tok, |name|, a, b)
  {
    var i, j := |name|, |name| + 1 + |a|;
    SeparatorFound(tok, name, a + "-" + b);
    assert tok[j] == '-' && tok[i + 1..j] == a && tok[j + 1..] == b;
    forall k | i <= k < j ensures tok[k] != '-' {
      if k > i { assert tok[k] == a[k - i - 1]; }
    }
    ScanStops(tok, i, j, '-');
  }

  // What becomes of the numbers between them.
  lemma ChannelsScanned(t: Transport, tok: string, i: nat, j: nat, x: nat, y: nat)
    requires ScanTo(tok, 0, '=') == i && ScanTo(tok, i, '-') == j && i < j
    requires Atoi(tok[i + 1..j]) == x && Atoi(Line(SkipSpaces(tok[j + 1..]))) == y
    ensures Channels(t, tok, 0) == Stored(t, x, y)
  {
  }

  // s is the number n in decimal, blanks in front.
  predicate Numeral(s: string, n: nat) {
    exists i :: 0 <= i <= |s| && Spaces(s[..i]) && s[i..] == PrintDec(n)
  }

  lemma NumeralOf(lead: string, d: string)
    requires Spaces(lead) && DigitText(d)
    ensures Atoi(lead + d) == ValueOf(d, 10) && SkipSpaces(lead + d) == d && Without(lead + d, '-')
  {
    assert "" + (d + "") == d;
    AtoiOf(lead, "", d, "");
    SpacesSkipped(lead, d);
  }

  lemma NumeralRead(s: string, n: nat)
    requires Numeral(s, n)
    ensures Atoi(s) == n && Atoi(Line(SkipSpaces(s))) == n && Without(s, '-')
  {
    var i :| 0 <= i <= |s| && Spaces(s[..i]) && s[i..] == PrintDec(n);
    assert s == s[..i] + PrintDec(n);
    PrintDecRight(n);
    NumeralOf(s[..i], PrintDec(n));
    AtoiPrinted(n);
  }

  // What becomes of two numbers: above 255 they are rejected, the first one before anything is
  // stored, the second one after the first is.
  function Stored(t: Transport, a: nat, b: nat): (Transport, Verdict) {
    if a <= 255 && b <= 255 then (t.(rtpChannel := a, rtcpChannel := b), Accepted)
    else if a <= 255 then (t.(rtpChannel := a), Rejected)
    else (t, Rejected)
  }

  lemma ChannelsNamed(t: Transport, tok: string, name: string, rest: string)
    requires Spelt(name, "interleaved") && tok == name + rest
    ensures Without(name, '=') && TokenEffect(t, tok) == Channels(t, tok, 0)
  {
    NameClean();
    NamedFirst(tok, name, "interleaved", rest);
  }

  // Channels, the name in any case and blanks before the numbers.
  lemma ChannelsRead(t: Transport, tok: string, name: string, first: string, a: nat, second: string, b: nat)
    requires tok == name + ("=" + (first + "-" + second))
    requires Spelt(name, "interleaved") && Numeral(first, a) && Numeral(second, b)
    ensures TokenEffect(t, tok) == Stored(t, a, b)
  {
    ChannelsNamed(t, tok, name, "=" + (first + "-" + second));
    NumeralRead(first, a);
    NumeralRead(second, b);
    ChannelsShaped(tok, name, first, second);
    ChannelsScanned(t, tok, |name|, |name| + 1 + |first|, a, b);
  }

  lemma HexText(prefix: string, h: string)
    requires HexPrefix(prefix) && HexLetters(h)
    ensures Line(prefix + h) == prefix + h
    ensures forall k :: 0 <= k < |prefix + h| ==> (prefix + h)[k] != 'i' && (prefix + h)[k] != 'I'
  {
    var v := prefix + h;
    forall k | 0 <= k < |v| ensures v[k] != '\r' && v[k] != '\n' && v[k] != 'i' && v[k] != 'I' {
      if k >= |prefix| { assert v[k] == h[k - |prefix|] && HexLetter(h[k - |prefix|]); }
    }
    WholeLine(v);
  }

  predicate HexPrefix(s: string) { s == "" || s == "0x" || s == "0X" }

  // An identifier: the name in any case, and n in k digits of any case, with or without 0x.
  predicate IdText(tok: string, name: string, prefix: string, h: string, n: nat, k: nat) {
    && tok == name + ("=" + (prefix + h)) && Spelt(name, "ssrc") && HexPrefix(prefix)
    && k > 0 && n < Power16(k) && Spelt(h, PrintHex(n, k))
  }

  // Where the two searches and the scan of an identifier's token stop.
  predicate IdShape(tok: string, value: string) {
    && Find(tok, "interleaved", 0) == -1 && Find(tok, "ssrc", 0) == 0 && ScanTo(tok, 0, '=') == 4
    && tok[5..] == value && Line(value) == value
  }

  lemma IdShaped(tok: string, name: string, value: string)
    requires tok == name + ("=" + value) && Spelt(name, "ssrc") && Line(value) == value
    requires forall k :: 0 <= k < |value| ==> value[k] != 'i' && value[k] != 'I'
    ensures IdShape(tok, value)
  {
    NotInterleaved(tok, name, value);
    NamedFirst(tok, name, "ssrc", "=" + value);
    SeparatorFound(tok, name, value);
  }

  lemma IdAt(t: Transport, tok: string, value: string)
    requires IdShape(tok, value)
    ensures TokenEffect(t, tok) == (t.(ssrc := Strtoul16(value)), Accepted)
  {
  }

  lemma IdValue(tok: string, name: string, prefix: string, h: string, n: nat, k: nat) returns (value: string)
    requires IdText(tok, name, prefix, h, n, k)
    ensures IdShape(tok, value) && Strtoul16(value) == Wrap32(n)
  {
    value := prefix + h;
    SpeltHex(h, n, k);
    HexText(prefix, h);
    StrtoulReads(prefix, h, n, k);
    IdShaped(tok, name, value);
  }

  lemma SsrcRead(t: Transport, tok: string, name: string, prefix: string, h: string, n: nat, k: nat)
    requires IdText(tok, name, prefix, h, n, k)
    ensures TokenEffect(t, tok) == (t.(ssrc := Wrap32(n)), Accepted)
  {
    var value := IdValue(tok, name, prefix, h, n, k);
    IdAt(t, tok, value);
  }

  lemma NotInterleaved(tok: string, name: string, value: string)
    requires tok == name + ("=" + value) && Spelt(name, "ssrc")
    requires forall k :: 0 <= k < |value| ==> value[k] != 'i' && value[k] != 'I'
    ensures Find(tok, "interleaved", 0) == -1
  {
    assert Lower("interleaved"[0]) == 'i';
    forall k | 0 <= k < |tok| ensures tok[k] != 'i' && tok[k] != 'I' {
      if k < 4 { assert tok[k] == name[k] && SameLetter(name[k], "ssrc"[k]); }
      if k > 4 { assert tok[k] == value[k - 5]; }
    }
    NotMentioned(tok, "interleaved", 0);
  }

  // A name without its separator: the scan runs past the token.
  lemma SeparatorMissing(t: Transport, tok: string)
    requires Find(tok, "interleaved", 0) != -1 || Find(tok, "ssrc", 0) != -1
    requires Without(tok, '=')
    ensures TokenEffect(t, tok) == (t, Overrun)
  {
    var p, q := Find(tok, "interleaved", 0), Find(tok, "ssrc", 0);
    ScanMissesFrom(tok, '=', if p != -1 then p else q);
  }

  lemma ScanMissesFrom(tok: string, c: char, i: nat)
    requires i <= |tok| && Without(tok, c)
    ensures ScanTo(tok, i, c) == -1
  {
    assert Without(tok[i..], c);
    ScanMisses(tok, c, i);
  }

  lemma DashMissing(t: Transport, name: string, a: string)
    requires Spelt(name, "interleaved") && Without(a, '-')
    ensures TokenEffect(t, name + ("=" + a)) == (t, Overrun)
  {
    var tok := name + ("=" + a);
    NameClean();
    NamedFirst(tok, name, "interleaved", "=" + a);
    forall k | 0 <= k < |name| ensures tok[k] != '=' { assert tok[k] == name[k]; }
    ScanStops(tok, 0, |name|, '=');
    var tail := "=" + a;
    assert tok[|name|..] == tail;
    forall k | 0 <= k < |tail| ensures tail[k] != '-' { if k > 0 { assert tail[k] == a[k - 1]; } }
    ScanMisses(tok, '-', |name|);
  }

  // ---- the whole header ----

  // Parameters the parser does not know.
  predicate Others(toks: seq<string>) {
    forall k :: 0 <= k < |toks| ==> Find(toks[k], "interleaved", 0) == -1 && Find(toks[k], "ssrc", 0) == -1
  }

  lemma {:induction false} OthersIgnored(t: Transport, toks: seq<string>)
    requires Others(toks)
    ensures TokensEffect(t, toks) == (t, Accepted)
  {
    if toks != [] { OthersIgnored(t, toks[1..]); }
  }

  lemma NamesTransport(lead: string, x: string, tcp: string)
    requires Spelt(tcp, "RTP/AVP/TCP") && |tcp| <= |x| && x[..|tcp|] == tcp
    ensures Find(lead + x, "RTP/AVP/TCP", 0) != -1 && (x[0] == 'R' || x[0] == 'r')
  {
    var s := lead + x;
    assert x[0] == tcp[0] && SameLetter(tcp[0], "RTP/AVP/TCP"[0]);
    assert s[|lead|..|lead| + |tcp|] == tcp;
    SpeltMatches(s, "RTP/AVP/TCP", |lead|);
    MentionFound(s, "RTP/AVP/TCP", 0, |lead|);
  }

  lemma TokensRead(t: Transport, s: string, toks: seq<string>, first: string)
    requires Find(s, "RTP/AVP/TCP", 0) != -1 && toks != [] && Tokens(s) == [first] + toks[1..]
    requires SkipSpacesAndColons(first) == toks[0]
    ensures Parsed(t, s) == TokensEffect(t.(tcp := true), toks)
  {
    assert ([first] + toks[1..])[1..] == toks[1..];
    assert [toks[0]] + toks[1..] == toks;
  }

  // Any header over TCP, with blanks and colons in front: the parameters take effect one after
  // the other.
  lemma HeaderRead(t: Transport, lead: string, x: string, tcp: string)
    requires Blank(lead) && Spelt(tcp, "RTP/AVP/TCP") && |tcp| <= |x| && x[..|tcp|] == tcp
    ensures Parsed(t, lead + x) == TokensEffect(t.(tcp := true), Tokens(x))
  {
    NamesTransport(lead, x, tcp);
    BlanksInFront(lead, x);
    FirstTokenStarts(x);
    BlanksSkipped(lead, Tokens(x)[0]);
    TokensRead(t, lead + x, Tokens(x), lead + Tokens(x)[0]);
  }

  lemma FirstTokenStarts(x: string)
    requires x != "" && x[0] != ';'
    ensures Tokens(x) != [] && Tokens(x)[0] != "" && Tokens(x)[0][0] == x[0]
  {
  }

  lemma OthersThen(t: Transport, some: seq<string>, tok: string, rest: seq<string>, u: Transport)
    requires Others(some) && TokenEffect(t, tok) == (u, Accepted)
    ensures TokensEffect(t, some + ([tok] + rest)) == TokensEffect(u, rest)
  {
    OthersIgnored(t, some);
    EffectAppend(t, some, [tok] + rest, t);
    Skipped(t, tok, rest, u);
  }

  // A reply that names the transport, both channels and an identifier among any other
  // parameters, in any spelling: exactly these are taken over.
  lemma ReplyRead(t: Transport, lead: string, x: string, tcp: string, some: seq<string>, channels: string,
                  more: seq<string>, id: string, others: seq<string>, u: Transport, v: Transport)
    requires Blank(lead) && Spelt(tcp, "RTP/AVP/TCP") && |tcp| <= |x| && x[..|tcp|] == tcp
    requires Tokens(x) == some + ([channels] + (more + ([id] + others)))
    requires Others(some) && Others(more) && Others(others)
    requires TokenEffect(t.(tcp := true), channels) == (u, Accepted) && TokenEffect(u, id) == (v, Accepted)
    ensures Parsed(t, lead + x) == (v, Accepted)
  {
    HeaderRead(t, lead, x, tcp);
    OthersThen(t.(tcp := true), some, channels, more + ([id] + others), u);
    OthersThen(u, more, id, others, v);
    OthersIgnored(v, others);
  }

  // So a server's reply gives its channels and identifier to the session.
  lemma ReplyTakenOver(t: Transport, lead: string, x: string, tcp: string, some: seq<string>, channels: string,
                       more: seq<string>, id: string, others: seq<string>, a: byte, b: byte, n: uint32)
    requires Blank(lead) && Spelt(tcp, "RTP/AVP/TCP") && |tcp| <= |x| && x[..|tcp|] == tcp
    requires Tokens(x) == some + ([channels] + (more + ([id] + others)))
    requires Others(some) && Others(more) && Others(others)
    requires IsChannels(channels, a, b) && IsId(id, n)
    ensures Parsed(t, lead + x) == (t.(tcp := true, rtpChannel := a, rtcpChannel := b, ssrc := n), Accepted)
  {
    var u := t.(tcp := true, rtpChannel := a, rtcpChannel := b);
    ChannelsTaken(t.(tcp := true), channels, a, b);
    IdTaken(u, id, n);
    ReplyRead(t, lead, x, tcp, some, channels, more, id, others, u, u.(ssrc := n));
  }

  ghost predicate IsChannels(tok: string, a: nat, b: nat) {
    exists name, first, second :: tok == name + ("=" + (first + "-" + second)) && Spelt(name, "interleaved")
                                  && Numeral(first, a) && Numeral(second, b)
  }

  ghost predicate IsId(tok: string, n: nat) {
    exists name, prefix, h, k: nat :: IdText(tok, name, prefix, h, n, k)
  }

  lemma ChannelsTaken(t: Transport, tok: string, a: byte, b: byte)
    requires IsChannels(tok, a, b)
    ensures TokenEffect(t, tok) == (t.(rtpChannel := a, rtcpChannel := b), Accepted)
  {
    var name, first, second :| tok == name + ("=" + (first + "-" + second)) && Spelt(name, "interleaved")
                               && Numeral(first, a) && Numeral(second, b);
    ChannelsRead(t, tok, name, first, a, second, b);
  }

  lemma IdSpelt(tok: string, n: uint32) returns (value: string)
    requires IsId(tok, n)
    ensures IdShape(tok, value) && Strtoul16(value) == n
  {
    var name, prefix, h, k: nat :| IdText(tok, name, prefix, h, n, k);
    value := IdValue(tok, name, prefix, h, n, k);
    assert Wrap32(n) == n;
  }

  lemma IdTaken(t: Transport, tok: string, n: uint32)
    requires IsId(tok, n)
    ensures TokenEffect(t, tok) == (t.(ssrc := n), Accepted)
  {
    var value := IdSpelt(tok, n);
    IdAt(t, tok, value);
  }
}
