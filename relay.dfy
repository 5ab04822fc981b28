/** The local authenticating relay of `multi_webshare_proxy.py`: it reads
    `host:port:user:password` lines, opens one local port per upstream proxy
    (numbered from `START_PORT`), and splices a `Proxy-Authorization: Basic`
    field (section 11.7.2 of RFC 9110, with the Basic scheme of section 2 of
    RFC 7617) into the first request a client sends. */
module Relay {
  import opened Wrappers
  import opened Text
  import opened Bytes
  import Base64

  /** `START_PORT`: the local port of the first proxy. */
  const StartPort: int := 10000

  /** `MAX_PROXIES`: `None` uses every proxy of the file. */
  const MaxProxies: Option<int> := None

  /** One line of the proxy file: `(host, port, user, password)`. */
  datatype Upstream = Upstream(host: string, port: int, user: string, password: string)

  // ---------------------------------------------------------------------------
  // load_proxies

  /** `str(n)` for any integer. */
  function IntToString(n: int): (s: string)
    ensures s != [] && IsStripped(s)
    ensures forall i :: 0 <= i < |s| ==> s[i] == '-' || IsDigit(s[i])
  {
    var d := NatToString(if n < 0 then -n else n);
    if n < 0 then "-" + d else d
  }

  /** `int(s)` on ASCII: white space around, an optional sign, then decimal
      digits; anything else raises `ValueError`, read here as `None`. */
  function ParseInt(s: string): (r: Option<int>)
    ensures r.Some? ==> Strip(s) != []
  {
    ParseSigned(Strip(s))
  }

  /** `int` on text without white space around it. */
  function ParseSigned(t: string): (r: Option<int>)
    ensures r.Some? ==> t != []
  {
    if t == [] then None
    else if (t[0] == '-' || t[0] == '+') && |t| > 1 && AllDigits(t[1..]) then
      Some(if t[0] == '-' then -(DigitsValue(t[1..]) as int) else DigitsValue(t[1..]))
    else if AllDigits(t) then Some(DigitsValue(t))
    else None
  }

  /** Every integer reads back from its decimal text. */
  lemma ParseIntToString(n: int)
    ensures ParseInt(IntToString(n)) == Some(n)
  {
    StripStripped(IntToString(n));
    ParseSignedToString(n);
  }

  lemma ParseSignedToString(n: int)
    ensures ParseSigned(IntToString(n)) == Some(n)
  {
    var m: nat := if n < 0 then -n else n;
    var d := NatToString(m);
    NatToStringValue(m);
    var t := IntToString(n);
    if n < 0 {
      assert t[0] == '-' && t[1..] == d;
    } else {
      assert t == d && IsDigit(t[0]);
    }
  }

  /** One line of the proxy file: blank lines and `#` comments are skipped,
      a line must have exactly four `:`-separated fields and an integer port. */
  function ParseProxyLine(line: string): (r: Option<Upstream>)
    ensures r.Some? ==> Strip(line) != [] && Strip(line)[0] != '#'
  {
    ParseFields(Strip(line))
  }

  /** The fields of a stripped line. */
  function ParseFields(t: string): (r: Option<Upstream>)
    ensures r.Some? ==> t != [] && t[0] != '#'
  {
    if t == [] || t[0] == '#' then None
    else
      var parts := SplitOn(t, ':');
      if |parts| != 4 then None
      else
        match ParseInt(parts[1])
        case None => None
        case Some(port) => Some(Upstream(parts[0], port, parts[2], parts[3]))
  }

  /** The line that describes `u` in the proxy file. */
  function FormatLine(u: Upstream): string {
    Join([u.host, IntToString(u.port), u.user, u.password], ":")
  }

  /** An upstream whose line reads back: no field holds `:`, the host does not
      start with white space or `#`, the password does not end in white space. */
  predicate Writable(u: Upstream) {
    && ':' !in u.host && ':' !in u.user && ':' !in u.password
    && u.host != [] && !IsSpace(u.host[0]) && u.host[0] != '#'
    && u.password != [] && !IsSpace(u.password[|u.password| - 1])
  }

  /** The four-field join, spelled out. */
  lemma FormatLineShape(u: Upstream)
    ensures FormatLine(u) == u.host + ":" + (IntToString(u.port) + ":" + (u.user + ":" + u.password))
  {
    var p := IntToString(u.port);
    assert Join([u.password], ":") == u.password;
    assert [u.user, u.password][1..] == [u.password];
    assert Join([u.user, u.password], ":") == u.user + ":" + u.password;
    assert [p, u.user, u.password][1..] == [u.user, u.password];
    assert Join([p, u.user, u.password], ":") == p + ":" + (u.user + ":" + u.password);
    assert [u.host, p, u.user, u.password][1..] == [p, u.user, u.password];
  }

  /** Writing an upstream and reading the line back gives it again. */
  lemma ParseFormat(u: Upstream)
    requires Writable(u)
    ensures ParseProxyLine(FormatLine(u)) == Some(u)
  {
    var line := FormatLine(u);
    FormatLineShape(u);
    assert line[0] == u.host[0] && line[|line| - 1] == u.password[|u.password| - 1];
    StripStripped(line);
    FieldsOfFormat(u);
  }

  lemma FieldsOfFormat(u: Upstream)
    requires Writable(u)
    ensures ParseFields(FormatLine(u)) == Some(u)
  {
    var p := IntToString(u.port);
    var parts := [u.host, p, u.user, u.password];
    assert ':' !in p by {
      assert forall i :: 0 <= i < |p| ==> p[i] != ':';
    }
    SplitOnJoin(parts, ':');
    assert ":" == [':'];
    ParseIntToString(u.port);
    assert FormatLine(u)[0] == u.host[0] by {
      FormatLineShape(u);
    }
  }

  /** A line that parses is its four fields joined by `:`, none of which holds
      `:`, and the port is the integer value of the second. */
  lemma ParsedLine(line: string) returns (portText: string)
    requires ParseProxyLine(line).Some?
    ensures var u := ParseProxyLine(line).value;
      && Join([u.host, portText, u.user, u.password], ":") == Strip(line)
      && ParseInt(portText) == Some(u.port)
      && ':' !in u.host && ':' !in u.user && ':' !in u.password
  {
    portText := ParsedFields(Strip(line));
  }

  lemma ParsedFields(t: string) returns (portText: string)
    requires ParseFields(t).Some?
    ensures var u := ParseFields(t).value;
      && Join([u.host, portText, u.user, u.password], ":") == t
      && ParseInt(portText) == Some(u.port)
      && ':' !in u.host && ':' !in u.user && ':' !in u.password
  {
    var parts := SplitOn(t, ':');
    portText := parts[1];
    JoinSplitOn(t, ':');
    SplitOnPieces(t, ':');
    assert ":" == [':'];
    assert parts == [parts[0], parts[1], parts[2], parts[3]];
  }

  /** What `load_proxies` keeps of these lines, in order. */
  function UpstreamsOf(lines: seq<string>): seq<Upstream> {
    Kept(lines, ParseProxyLine)
  }

  /** The lines a text-mode file iterates over (their line breaks are
      stripped with the rest of the white space). */
  function FileLines(text: string): seq<string> {
    SplitOn(TranslateNewlines(text), '\n')
  }

  /** `load_proxies`: the upstreams of the file's lines, in order. */
  method LoadProxies(text: string) returns (proxies: seq<Upstream>)
    ensures proxies == UpstreamsOf(FileLines(text))
  {
    var lines := FileLines(text);
    proxies := [];
    var i := 0;
    while i < |lines|
      invariant 0 <= i <= |lines|
      invariant proxies == Kept(lines[..i], ParseProxyLine)
    {
      KeptNext(lines, i, ParseProxyLine);
      var parsed := ParseProxyLine(lines[i]);
      if parsed.Some? {
        proxies := proxies + [parsed.value];
      }
      i := i + 1;
    }
    assert lines[..i] == lines;
  }

  /** The upstreams of two runs of lines are those of each, in order. */
  lemma UpstreamsOfAppend(a: seq<string>, b: seq<string>)
    ensures UpstreamsOf(a + b) == UpstreamsOf(a) + UpstreamsOf(b)
  {
    KeptAppend(a, b, ParseProxyLine);
  }

  /** Lines that each parse give their upstreams, one for one. */
  lemma UpstreamsOfParsed(lines: seq<string>, us: seq<Upstream>)
    requires |lines| == |us|
    requires forall i :: 0 <= i < |lines| ==> ParseProxyLine(lines[i]) == Some(us[i])
    ensures UpstreamsOf(lines) == us
  {
    KeptAll(lines, us, ParseProxyLine);
  }

  /** The proxy file that lists these upstreams, one line each. */
  function ProxyFile(us: seq<Upstream>): string {
    Join(seq(|us|, i requires 0 <= i < |us| => FormatLine(us[i])), "\n")
  }

  /** A character missing from every part and from the separator is missing
      from the join. */
  lemma {:induction false} JoinAvoids(parts: seq<string>, sep: string, c: char)
    requires c !in sep
    requires forall i :: 0 <= i < |parts| ==> c !in parts[i]
    ensures c !in Join(parts, sep)
    decreases |parts|
  {
    if |parts| > 1 {
      JoinAvoids(parts[1..], sep, c);
    }
  }

  /** No field of a writable upstream without line breaks puts one in its line. */
  lemma LineWithout(u: Upstream, c: char)
    requires c == '\n' || c == '\r'
    requires c !in u.host && c !in u.user && c !in u.password
    ensures c !in FormatLine(u)
  {
    var parts := [u.host, IntToString(u.port), u.user, u.password];
    var d := NatToString(if u.port < 0 then -u.port else u.port);
    assert forall i :: 0 <= i < |d| ==> d[i] != c;
    JoinAvoids(parts, ":", c);
  }

  /** Loading the file written for writable upstreams without line breaks
      gives them back, in order. */
  lemma LoadWritten(us: seq<Upstream>)
    requires forall i :: 0 <= i < |us| ==> Writable(us[i])
    requires forall i :: 0 <= i < |us| ==>
      && '\n' !in us[i].host && '\n' !in us[i].user && '\n' !in us[i].password
      && '\r' !in us[i].host && '\r' !in us[i].user && '\r' !in us[i].password
    ensures UpstreamsOf(FileLines(ProxyFile(us))) == us
  {
    var lines := seq(|us|, i requires 0 <= i < |us| => FormatLine(us[i]));
    forall i | 0 <= i < |us| ensures '\n' !in lines[i] && '\r' !in lines[i] {
      LineWithout(us[i], '\n');
      LineWithout(us[i], '\r');
    }
    JoinAvoids(lines, "\n", '\r');
    NoReturnUnchanged(ProxyFile(us));
    if us == [] {
      assert FileLines(ProxyFile(us)) == [""];
      assert ParseProxyLine("") == None by {
        StripStripped("");
      }
    } else {
      SplitOnJoin(lines, '\n');
      forall i | 0 <= i < |us| ensures ParseProxyLine(lines[i]) == Some(us[i]) {
        ParseFormat(us[i]);
      }
      UpstreamsOfParsed(lines, us);
    }
  }

  // ---------------------------------------------------------------------------
  // The Proxy-Authorization field

  const CrLf: seq<byte> := [13, 10]
  const HeaderEnd: seq<byte> := [13, 10, 13, 10]

  /** The field name and scheme, as the header is built. */
  const AuthPrefix: string := "Proxy-Authorization: Basic "

  /** What the header block is searched for, after lower-casing. */
  const AuthMarker: string := "proxy-authorization:"

  /** The field name and scheme are plain ASCII text. */
  lemma AuthPrefixAscii()
    ensures IsAscii(AuthPrefix)
  {
  }

  /** `auth_header`: the field, the base64 of `user:password` in UTF-8, and a
      line break. */
  function AuthHeader(user: string, password: string): (h: seq<byte>)
    ensures |h| > |AuthPrefix| + 2
  {
    var creds := Utf8(user + ":" + password);
    Utf8Length(user + ":" + password);
    Base64.EncodeLength(creds);
    AuthPrefixAscii();
    Ascii(AuthPrefix) + Base64.Encode(creds) + CrLf
  }

  /** The header line without its break. */
  function AuthLine(user: string, password: string): seq<byte> {
    AuthPrefixAscii();
    Ascii(AuthPrefix) + Base64.Encode(Utf8(user + ":" + password))
  }

  /** The header carries the credentials: after the field name and scheme,
      its base64 decodes to `user:password`, and a line break ends it. */
  lemma AuthCredentials(user: string, password: string)
    ensures var h := AuthHeader(user, password);
      && h[..|AuthPrefix|] == Ascii(AuthPrefix)
      && h[|h| - 2..] == CrLf
      && Base64.Decode(h[|AuthPrefix|..|h| - 2]) == Some(Utf8(user + ":" + password))
  {
    var creds := Utf8(user + ":" + password);
    var h := AuthHeader(user, password);
    assert h[|AuthPrefix|..|h| - 2] == Base64.Encode(creds);
    Base64.DecodeEncode(creds);
  }

  /** `bytes.rstrip(b"\r\n")`: trailing CR and LF bytes removed. */
  function RStripLineBreaks(s: seq<byte>): (r: seq<byte>)
    ensures |r| <= |s| && r == s[..|r|]
    ensures r == [] || (r[|r| - 1] != 10 && r[|r| - 1] != 13)
    ensures forall j :: |r| <= j < |s| ==> s[j] == 10 || s[j] == 13
    decreases |s|
  {
    if s != [] && (s[|s| - 1] == 10 || s[|s| - 1] == 13) then
      var r := RStripLineBreaks(s[..|s| - 1]);
      assert s[..|s| - 1][..|r|] == s[..|r|];
      r
    else s
  }

  /** A byte that is neither CR nor LF. */
  predicate NoBreak(b: byte) { b != 10 && b != 13 }

  /** The header line holds no CR or LF byte. */
  lemma AuthLineNoBreak(user: string, password: string)
    ensures forall j :: 0 <= j < |AuthLine(user, password)| ==> NoBreak(AuthLine(user, password)[j])
  {
    var a := Ascii(AuthPrefix);
    var e := Base64.Encode(Utf8(user + ":" + password));
    PrefixNoBreak();
    EncodedNoBreak(Utf8(user + ":" + password));
    assert AuthLine(user, password) == a + e;
    assert forall j :: |a| <= j < |a + e| ==> (a + e)[j] == e[j - |a|];
  }

  lemma PrefixNoBreak()
    ensures forall j :: 0 <= j < |Ascii(AuthPrefix)| ==> NoBreak(Ascii(AuthPrefix)[j])
  {
  }

  /** Base64 text holds no line break. */
  lemma EncodedNoBreak(data: seq<byte>)
    ensures forall j :: 0 <= j < |Base64.Encode(data)| ==> NoBreak(Base64.Encode(data)[j])
  {
    Base64.EncodeAlphabet(data);
  }

  /** `rstrip(b"\r\n")` takes off a final CRLF, and no more when the byte
      before it is no line break. */
  lemma RStripCrLf(s: seq<byte>)
    requires s != [] && NoBreak(s[|s| - 1])
    ensures RStripLineBreaks(s + CrLf) == s
  {
    var t := s + CrLf;
    assert t[..|t| - 1] == s + [13];
    assert (s + [13])[..|s|] == s;
  }

  /** `auth_header.rstrip(b"\r\n")` is the header line. */
  lemma AuthHeaderLine(user: string, password: string)
    ensures RStripLineBreaks(AuthHeader(user, password)) == AuthLine(user, password)
  {
    var line := AuthLine(user, password);
    AuthLineNoBreak(user, password);
    assert AuthHeader(user, password) == line + CrLf;
    RStripCrLf(line);
  }

  /** The lower-cased header line starts with the marker `handle` looks for. */
  lemma AuthLineMarked(user: string, password: string)
    ensures |AuthLine(user, password)| >= |AuthMarker|
    ensures LowerBytes(AuthLine(user, password))[..|AuthMarker|] == Ascii(AuthMarker)
  {
    var a := Ascii(AuthPrefix);
    var line := AuthLine(user, password);
    var n := |AuthMarker|;
    PrefixMarked();
    assert line[..n] == a[..n];
    assert forall j :: 0 <= j < n ==> LowerBytes(line)[j] == LowerByte(line[j]) == LowerByte(a[j]) == LowerBytes(a)[j];
  }

  /** The field name, lower-cased, is the marker. */
  lemma PrefixMarked()
    ensures |Ascii(AuthPrefix)| >= |AuthMarker|
    ensures LowerBytes(Ascii(AuthPrefix))[..|AuthMarker|] == Ascii(AuthMarker)
  {
  }

  // ---------------------------------------------------------------------------
  // The first-chunk splice

  /** The condition under which `handle` rewrites the first chunk: a non-empty
      header block ended by a blank line, without a Proxy-Authorization field
      (in any case) anywhere in it. */
  predicate Injects(chunk: seq<byte>) {
    var p := Partition(chunk, HeaderEnd);
    p.0 != [] && p.1 != [] && !ContainsBytes(LowerBytes(p.0), Ascii(AuthMarker))
  }

  /** What `handle` sends upstream for a non-empty first chunk. */
  function Splice(chunk: seq<byte>, authHeader: seq<byte>): seq<byte> {
    var p := Partition(chunk, HeaderEnd);
    if Injects(chunk) then
      var lines := SplitBytes(p.0, CrLf);
      JoinBytes([lines[0]] + [RStripLineBreaks(authHeader)] + lines[1..], CrLf) + p.1 + p.2
    else chunk
  }

  /** What `handle` sends first: nothing for an empty chunk (the client closed). */
  function FirstSend(chunk: seq<byte>, authHeader: seq<byte>): (r: Option<seq<byte>>)
    ensures r.None? <==> chunk == []
  {
    if chunk == [] then None else Some(Splice(chunk, authHeader))
  }

  /** The first CRLF in front of a blank line at `m` is found in the chunk:
      it is a CRLF of the chunk too. */
  lemma BreakOccurs(chunk: seq<byte>, m: nat)
    requires OccursAt(chunk, HeaderEnd, m)
    ensures OccursAt(chunk, CrLf, Find(chunk[..m], CrLf))
  {
    var head := chunk[..m];
    var k := Find(head, CrLf);
    if k < m {
      assert chunk[k..k + 2] == head[k..k + 2];
    } else {
      assert chunk[m..m + 2] == chunk[m..m + 4][..2];
    }
  }

  /** No CRLF of the chunk starts before the first one of the block in front
      of a blank line at `m`. */
  lemma NoEarlierBreak(chunk: seq<byte>, m: nat, j: nat)
    requires OccursAt(chunk, HeaderEnd, m)
    requires j < Find(chunk[..m], CrLf)
    ensures !OccursAt(chunk, CrLf, j)
  {
    var head := chunk[..m];
    FindIsFirst(head, CrLf);
    assert !OccursAt(head, CrLf, j);
    if j + 2 <= m {
      assert head[j..j + 2] == chunk[j..j + 2];
    } else {
      assert j + 1 == m;
      assert chunk[m] == chunk[m..m + 4][0] == 13;
      assert j + 2 <= |chunk| && chunk[j..j + 2][1] == chunk[j + 1];
    }
  }

  /** The first CRLF of the chunk is the first one of its header block, or
      the one that starts the blank line. */
  lemma FirstBreakInHead(chunk: seq<byte>)
    requires Partition(chunk, HeaderEnd).1 != []
    ensures Find(chunk, CrLf) == Find(Partition(chunk, HeaderEnd).0, CrLf)
  {
    var head := Partition(chunk, HeaderEnd).0;
    var m := |head|;
    assert head == chunk[..m];
    var k := Find(head, CrLf);
    BreakOccurs(chunk, m);
    forall j | 0 <= j < k ensures !OccursAt(chunk, CrLf, j) {
      NoEarlierBreak(chunk, m, j);
    }
    FindAt(chunk, CrLf, k);
  }

  /** The rewritten header block: the first line, the inserted line, then the
      rest of the block, with every CRLF kept. */
  lemma NewHead(head: seq<byte>, line: seq<byte>)
    ensures var lines := SplitBytes(head, CrLf);
      var k := Find(head, CrLf);
      JoinBytes([lines[0]] + [line] + lines[1..], CrLf) == head[..k] + CrLf + line + head[k..]
  {
    var k := Find(head, CrLf);
    if k == |head| {
      NewHeadOneLine(head, line);
    } else {
      var lines := SplitBytes(head, CrLf);
      var tail := SplitBytes(head[k + 2..], CrLf);
      assert lines == [head[..k]] + tail;
      assert [lines[0]] + [line] + lines[1..] == [head[..k]] + ([line] + tail);
      NewHeadAtBreak(head, line, k, tail);
    }
  }

  /** The rewritten block when the block is a single line. */
  lemma NewHeadOneLine(head: seq<byte>, line: seq<byte>)
    requires Find(head, CrLf) == |head|
    ensures var lines := SplitBytes(head, CrLf);
      JoinBytes([lines[0]] + [line] + lines[1..], CrLf) == head + CrLf + line
  {
    var lines := SplitBytes(head, CrLf);
    assert lines == [head];
    assert [lines[0]] + [line] + lines[1..] == [head] + [line];
    JoinCons(head, [line], CrLf);
    assert JoinBytes([line], CrLf) == line;
  }

  /** The rewritten block when the first line ends at the CRLF at `k`. */
  lemma NewHeadAtBreak(head: seq<byte>, line: seq<byte>, k: nat, tail: seq<seq<byte>>)
    requires OccursAt(head, CrLf, k) && tail == SplitBytes(head[k + 2..], CrLf)
    ensures JoinBytes([head[..k]] + ([line] + tail), CrLf) == head[..k] + CrLf + line + head[k..]
  {
    var a, rest := head[..k], head[k + 2..];
    JoinCons(a, [line] + tail, CrLf);
    JoinCons(line, tail, CrLf);
    JoinSplit(rest, CrLf);
    assert JoinBytes([a] + ([line] + tail), CrLf) == a + CrLf + (line + CrLf + rest);
    assert head[k..] == CrLf + rest by {
      Reassemble(head, CrLf, k);
      assert head[k..] == head[k..k + 2] + rest;
    }
    assert a + CrLf + (line + CrLf + rest) == a + CrLf + line + (CrLf + rest);
  }

  /** When `handle` rewrites the chunk, it inserts the header line and a CRLF
      right after the first line, and every other byte stays in place: the
      later header lines, the blank line and the body. */
  lemma SpliceInserts(chunk: seq<byte>, authHeader: seq<byte>)
    requires Injects(chunk)
    ensures var k := Find(chunk, CrLf);
      && k <= Find(chunk, HeaderEnd) < |chunk|
      && Splice(chunk, authHeader) == chunk[..k] + CrLf + RStripLineBreaks(authHeader) + chunk[k..]
  {
    var p := Partition(chunk, HeaderEnd);
    var head := p.0;
    var tail := p.1 + p.2;
    var line := RStripLineBreaks(authHeader);
    var k := Find(head, CrLf);
    BreakPositions(chunk);
    NewHead(head, line);
    SpliceShape(chunk, authHeader);
    assert Splice(chunk, authHeader) == head[..k] + CrLf + line + head[k..] + tail;
    InsertAt(head, tail, k, line);
  }

  /** Where the first CRLF and the blank line of a chunk with a blank line
      are: the first CRLF is that of the header block. */
  lemma BreakPositions(chunk: seq<byte>)
    requires Partition(chunk, HeaderEnd).1 != []
    ensures var p := Partition(chunk, HeaderEnd);
      && chunk == p.0 + (p.1 + p.2)
      && Find(chunk, CrLf) == Find(p.0, CrLf) <= |p.0|
      && Find(chunk, HeaderEnd) == |p.0| < |chunk|
  {
    var p := Partition(chunk, HeaderEnd);
    FirstBreakInHead(chunk);
    FindAt(chunk, HeaderEnd, |p.0|);
    Regroup(p.0, p.1, p.2);
  }

  lemma Regroup(a: seq<byte>, b: seq<byte>, c: seq<byte>)
    ensures a + b + c == a + (b + c)
  {
  }

  /** What `Splice` sends when it rewrites: the new header block, then the
      blank line and the rest, untouched. */
  lemma SpliceShape(chunk: seq<byte>, authHeader: seq<byte>)
    requires Injects(chunk)
    ensures var p := Partition(chunk, HeaderEnd);
      var lines := SplitBytes(p.0, CrLf);
      Splice(chunk, authHeader) == JoinBytes([lines[0]] + [RStripLineBreaks(authHeader)] + lines[1..], CrLf) + (p.1 + p.2)
  {
  }

  /** Inserting a line into the front part of a sequence is inserting it
      into the whole. */
  lemma InsertAt(head: seq<byte>, tail: seq<byte>, k: nat, line: seq<byte>)
    requires k <= |head|
    ensures head[..k] + CrLf + line + head[k..] + tail == (head + tail)[..k] + CrLf + line + (head + tail)[k..]
  {
    assert (head + tail)[..k] == head[..k];
    assert (head + tail)[k..] == head[k..] + tail;
  }

  /** With the relay's own header, the inserted line is the
      `Proxy-Authorization: Basic` line for the upstream's credentials. */
  lemma SpliceAuth(chunk: seq<byte>, user: string, password: string)
    requires Injects(chunk)
    ensures var k := Find(chunk, CrLf);
      Splice(chunk, AuthHeader(user, password)) == chunk[..k] + CrLf + AuthLine(user, password) + chunk[k..]
  {
    SpliceInserts(chunk, AuthHeader(user, password));
    AuthHeaderLine(user, password);
  }

  /** A spliced chunk is never spliced again: the header block it sends
      carries the inserted Proxy-Authorization field, so a request that went
      through one relay is passed through unchanged by the next. */
  lemma SpliceNotReinjected(chunk: seq<byte>, user: string, password: string)
    requires Injects(chunk)
    ensures !Injects(Splice(chunk, AuthHeader(user, password)))
  {
    SpliceAuth(chunk, user, password);
    AuthLineNoBreak(user, password);
    AuthLineMarked(user, password);
    InsertedLineMarked(chunk, AuthLine(user, password));
  }

  /** Inserting after the first line a line without line breaks that starts
      with the marker puts the marker inside the header block. */
  lemma InsertedLineMarked(chunk: seq<byte>, line: seq<byte>)
    requires forall j :: 0 <= j < |line| ==> NoBreak(line[j])
    requires |line| >= |AuthMarker| && LowerBytes(line)[..|AuthMarker|] == Ascii(AuthMarker)
    ensures var k := Find(chunk, CrLf);
      !Injects(chunk[..k] + CrLf + line + chunk[k..])
  {
    var k := Find(chunk, CrLf);
    var s := chunk[..k] + CrLf + line + chunk[k..];
    NoBlankLineBefore(chunk, line, k, s);
    InsertedPiece(chunk[..k], line, chunk[k..], |AuthMarker|);
    MarkedHead(s, k + 2);
  }

  /** The bytes of the inserted line sit right after the first line and its CRLF. */
  lemma InsertedPiece(a: seq<byte>, line: seq<byte>, b: seq<byte>, n: nat)
    requires n <= |line| && LowerBytes(line)[..n] == Ascii(AuthMarker)
    ensures var s := a + CrLf + line + b;
      |a| + 2 + n <= |s| && LowerBytes(s[|a| + 2..|a| + 2 + n]) == Ascii(AuthMarker)
  {
    var s := a + CrLf + line + b;
    assert s[|a| + 2..|a| + 2 + n] == line[..n];
    assert LowerBytes(line[..n]) == LowerBytes(line)[..n];
  }

  /** A chunk whose lower-cased bytes at `i` are the marker, with no blank
      line starting before the marker ends, is not rewritten. */
  lemma MarkedHead(s: seq<byte>, i: nat)
    requires i + |AuthMarker| <= |s|
    requires LowerBytes(s[i..i + |AuthMarker|]) == Ascii(AuthMarker)
    requires forall j :: 0 <= j < i + |AuthMarker| ==> !OccursAt(s, HeaderEnd, j)
    ensures !Injects(s)
  {
    var p := Partition(s, HeaderEnd);
    if p.1 != [] {
      assert |p.0| >= i + |AuthMarker|;
      assert p.0 == s[..|p.0|] by { assert s == p.0 + p.1 + p.2; }
      MarkerInPrefix(s, |p.0|, i);
    }
  }

  /** The marker at `i` inside the first `m` bytes is found in them, lower-cased. */
  lemma MarkerInPrefix(s: seq<byte>, m: nat, i: nat)
    requires i + |AuthMarker| <= m <= |s|
    requires LowerBytes(s[i..i + |AuthMarker|]) == Ascii(AuthMarker)
    ensures ContainsBytes(LowerBytes(s[..m]), Ascii(AuthMarker))
  {
    var n := |AuthMarker|;
    var low := LowerBytes(s[..m]);
    var mark := Ascii(AuthMarker);
    assert low[i..i + n] == mark by {
      assert s[..m][i..i + n] == s[i..i + n];
      assert LowerBytes(s[..m][i..i + n]) == low[i..i + n];
    }
    assert OccursAt(low, mark, i);
    FindIsFirst(low, mark);
  }

  /** No blank line starts before the end of the marker in the inserted
      line: the chunk has no CRLF before `k`, and the inserted line has no
      CR at all. */
  lemma NoBlankLineBefore(chunk: seq<byte>, line: seq<byte>, k: nat, s: seq<byte>)
    requires forall j :: 0 <= j < |line| ==> NoBreak(line[j])
    requires |line| >= |AuthMarker|
    requires k == Find(chunk, CrLf) && s == chunk[..k] + CrLf + line + chunk[k..]
    ensures forall j :: 0 <= j < k + 2 + |AuthMarker| ==> !OccursAt(s, HeaderEnd, j)
  {
    FindIsFirst(chunk, CrLf);
    forall j | 0 <= j < k + 2 + |AuthMarker| ensures !OccursAt(s, HeaderEnd, j) {
      NoBlankLineAt(chunk, k, line, j);
    }
  }

  /** In `chunk[..k] + CRLF + line + chunk[k..]`, where the chunk has no CRLF
      before `k` and `line` no line break, no blank line starts at `j` before
      the end of `line`. */
  lemma NoBlankLineAt(chunk: seq<byte>, k: nat, line: seq<byte>, j: nat)
    requires k <= |chunk| && forall i :: 0 <= i < k ==> !OccursAt(chunk, CrLf, i)
    requires forall i :: 0 <= i < |line| ==> NoBreak(line[i])
    requires |line| > 0 && j < k + 2 + |line|
    ensures !OccursAt(chunk[..k] + CrLf + line + chunk[k..], HeaderEnd, j)
  {
    var s := chunk[..k] + CrLf + line + chunk[k..];
    if j + 4 > |s| {
    } else if j + 2 <= k {
      assert !OccursAt(chunk, CrLf, j);
      assert s[j..j + 4][..2] == s[j..j + 2] == chunk[j..j + 2];
    } else if j == k - 1 {
      assert s[j..j + 4][1] == s[k] == 13;
    } else if j == k {
      assert s[j..j + 4][2] == s[k + 2] == line[0];
    } else if j == k + 1 {
      assert s[j..j + 4][0] == s[k + 1] == 10;
    } else {
      assert s[j..j + 4][0] == s[j] == line[j - k - 2];
    }
  }

  /** The first send grows the chunk by exactly the inserted line and its
      CRLF, or leaves it as it is. */
  lemma FirstSendLength(chunk: seq<byte>, authHeader: seq<byte>)
    requires chunk != []
    ensures var r := FirstSend(chunk, authHeader).value;
      if Injects(chunk) then |r| == |chunk| + 2 + |RStripLineBreaks(authHeader)| else r == chunk
  {
    if Injects(chunk) {
      SpliceInserts(chunk, authHeader);
    }
  }

  // ---------------------------------------------------------------------------
  // main: one local port per proxy

  /** A local server bound to `port` that relays to `upstream`. */
  datatype Server = Server(port: int, upstream: Upstream)

  /** Why `main` stops before serving. */
  datatype StartError =
    | NoProxies   // the file held no valid proxy
    | NoServers   // every bind failed

  /** `proxies[:MAX_PROXIES]` when it is set. */
  function Listed(proxies: seq<Upstream>, maxProxies: Option<int>): seq<Upstream> {
    if maxProxies.Some? then Prefix(proxies, maxProxies.value) else proxies
  }

  /** The servers started for the first `n` listed proxies, given which local
      ports can be bound. */
  function ServersOf(list: seq<Upstream>, bindOk: int -> bool, n: nat): seq<Server>
    requires n <= |list|
  {
    if n == 0 then []
    else
      var port := StartPort + n - 1;
      ServersOf(list, bindOk, n - 1) + (if bindOk(port) then [Server(port, list[n - 1])] else [])
  }

  /** Proxy `i` always gets port `START_PORT + i`, whether or not earlier
      binds failed: the servers are exactly the bound ports of the listed
      proxies, each with its own proxy, in increasing port order. */
  lemma ServersNumbered(list: seq<Upstream>, bindOk: int -> bool, n: nat)
    requires n <= |list|
    ensures var s := ServersOf(list, bindOk, n);
      && |s| <= n
      && (forall k :: 0 <= k < |s| ==>
            StartPort <= s[k].port < StartPort + n && bindOk(s[k].port)
            && s[k].upstream == list[s[k].port - StartPort])
      && (forall i :: 0 <= i < n && bindOk(StartPort + i) ==> Server(StartPort + i, list[i]) in s)
      && (forall k, l :: 0 <= k < l < |s| ==> s[k].port < s[l].port)
  {
    ServersSound(list, bindOk, n);
    ServersComplete(list, bindOk, n);
  }

  /** Each server is a bound port below `START_PORT + n` with the proxy of
      that index, and the ports increase. */
  lemma {:induction false} ServersSound(list: seq<Upstream>, bindOk: int -> bool, n: nat)
    requires n <= |list|
    ensures var s := ServersOf(list, bindOk, n);
      && |s| <= n
      && (forall k :: 0 <= k < |s| ==>
            StartPort <= s[k].port < StartPort + n && bindOk(s[k].port)
            && s[k].upstream == list[s[k].port - StartPort])
      && (forall k, l :: 0 <= k < l < |s| ==> s[k].port < s[l].port)
    decreases n
  {
    if n > 0 {
      ServersSound(list, bindOk, n - 1);
      var s0 := ServersOf(list, bindOk, n - 1);
      var port := StartPort + n - 1;
      var s := ServersOf(list, bindOk, n);
      assert s == s0 + (if bindOk(port) then [Server(port, list[n - 1])] else []);
    }
  }

  /** Every bound port below `START_PORT + n` has its server. */
  lemma {:induction false} ServersComplete(list: seq<Upstream>, bindOk: int -> bool, n: nat)
    requires n <= |list|
    ensures forall i :: 0 <= i < n && bindOk(StartPort + i) ==> Server(StartPort + i, list[i]) in ServersOf(list, bindOk, n)
    decreases n
  {
    if n > 0 {
      ServersComplete(list, bindOk, n - 1);
      var s0 := ServersOf(list, bindOk, n - 1);
      var port := StartPort + n - 1;
      var s := ServersOf(list, bindOk, n);
      assert s == s0 + (if bindOk(port) then [Server(port, list[n - 1])] else []);
      assert forall x :: x in s0 ==> x in s;
    }
  }

  /** `main`: load, truncate to `maxProxies`, bind port `START_PORT + i` for
      proxy `i`, skipping ports that cannot be bound. */
  method StartServers(proxies: seq<Upstream>, maxProxies: Option<int>, bindOk: int -> bool)
    returns (r: Result<seq<Server>, StartError>)
    ensures r == Err(NoProxies) <==> proxies == []
    ensures proxies != [] ==>
      var s := ServersOf(Listed(proxies, maxProxies), bindOk, |Listed(proxies, maxProxies)|);
      if s == [] then r == Err(NoServers) else r == Ok(s)
  {
    if proxies == [] {
      return Err(NoProxies);
    }
    var list := Listed(proxies, maxProxies);
    var servers: seq<Server> := [];
    for i := 0 to |list|
      invariant servers == ServersOf(list, bindOk, i)
    {
      var localPort := StartPort + i;
      if bindOk(localPort) {
        servers := servers + [Server(localPort, list[i])];
      }
    }
    if servers == [] {
      return Err(NoServers);
    }
    return Ok(servers);
  }

  // ---------------------------------------------------------------------------
  // The READY message

  /** The port range the READY message reports, as written: the first port is
      always `START_PORT`, the last `START_PORT + len(servers) - 1`. */
  function ReportedRange(servers: seq<Server>): (int, int) {
    (StartPort, StartPort + |servers| - 1)
  }

  /** When the first bind fails, the reported range names a port no server
      listens on. */
  lemma ReportedRangeWrong(u: Upstream, v: Upstream)
    ensures var s := ServersOf([u, v], p => p != StartPort, 2);
      && s == [Server(StartPort + 1, v)]
      && ReportedRange(s) == (StartPort, StartPort)
      && forall k :: 0 <= k < |s| ==> s[k].port != ReportedRange(s).0
  {
    var bindOk: int -> bool := p => p != StartPort;
    assert ServersOf([u, v], bindOk, 1) == [];
  }

  /** The range of the servers actually started: the ports of the first and
      the last. */
  function RunningRange(servers: seq<Server>): (r: (int, int))
    requires servers != []
  {
    (servers[0].port, servers[|servers| - 1].port)
  }

  /** The running range is the lowest and highest port of the servers. */
  lemma RunningRangeBounds(list: seq<Upstream>, bindOk: int -> bool)
    requires ServersOf(list, bindOk, |list|) != []
    ensures var s := ServersOf(list, bindOk, |list|);
      && (forall k :: 0 <= k < |s| ==> RunningRange(s).0 <= s[k].port <= RunningRange(s).1)
      && bindOk(RunningRange(s).0) && bindOk(RunningRange(s).1)
  {
    var s := ServersOf(list, bindOk, |list|);
    ServersSound(list, bindOk, |list|);
    assert forall k :: 0 <= k < |s| ==> s[0].port <= s[k].port by {
      forall k | 0 < k < |s| ensures s[0].port < s[k].port {
      }
    }
  }
}
