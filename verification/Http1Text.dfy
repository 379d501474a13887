/** HTTP/1 requests as text: what the parser accepts and what it reads back. */
module Http1Text {
  import opened Bytes
  import opened Text
  import opened Http1

  function Line(h: Header): seq<byte> {
    h.head + COLON_SPACE + h.value
  }

  function Lines(headers: seq<Header>): seq<seq<byte>> {
    if headers == [] then [] else [Line(headers[0])] + Lines(headers[1..])
  }

  /** The request line, with `sep` between the protocol's name and version. */
  function RequestLine(m: Method, path: seq<byte>, sep: byte, version: seq<byte>): seq<byte> {
    Name(m) + [SP] + path + [SP] + HTTP + [sep] + version + CRLF
  }

  /** The headers and the empty line after them. */
  function HeaderText(headers: seq<Header>): seq<byte> {
    Join(Lines(headers), CRLF) + HEADER_END
  }

  /** No line ending in either part, and the name does not itself hold a colon and a space. */
  predicate PlainHeader(h: Header) {
    Clear(h.head, CRLF) && Clear(h.value, CRLF) && Find(h.head, COLON_SPACE) == None
  }

  predicate PlainHeaders(headers: seq<Header>) {
    headers != [] && forall h :: h in headers ==> PlainHeader(h)
  }

  lemma LineParses(h: Header)
    requires Find(h.head, COLON_SPACE) == None
    ensures Find(Line(h), COLON_SPACE) == Some(|h.head|)
    ensures Line(h)[..|h.head|] == h.head && Line(h)[|h.head| + 2..] == h.value
  {
    var s, n := Line(h), |h.head|;
    FindFound(h.head, COLON_SPACE);
    assert s[n..n + 2] == COLON_SPACE;
    forall j: nat | j < n ensures !At(s, COLON_SPACE, j) {
      if j + 2 <= n {
        assert !At(h.head, COLON_SPACE, j);
        assert s[j..j + 2] == h.head[j..j + 2];
      } else {
        assert s[j..j + 2][1] == s[n] == 58;
      }
    }
    FindIs(s, COLON_SPACE, n);
  }

  predicate PlainLine(line: seq<byte>) {
    line != [] && Clear(line, CRLF)
  }

  predicate PlainLines(lines: seq<seq<byte>>) {
    forall i :: 0 <= i < |lines| ==> PlainLine(lines[i])
  }

  lemma LineIsPlain(h: Header)
    requires PlainHeader(h)
    ensures PlainLine(Line(h))
  {
    forall c | c in Line(h) ensures c !in CRLF {
      assert c in h.head || c in COLON_SPACE || c in h.value;
    }
  }

  lemma {:induction false} LinesArePlain(headers: seq<Header>)
    requires forall h :: h in headers ==> PlainHeader(h)
    ensures |Lines(headers)| == |headers| && PlainLines(Lines(headers))
  {
    if headers != [] {
      assert headers[0] in headers;
      LineIsPlain(headers[0]);
      LinesArePlain(headers[1..]);
    }
  }

  lemma FirstLine(headers: seq<Header>)
    requires headers != []
    ensures Lines(headers) != [] && Lines(headers)[0] == Line(headers[0]) && Lines(headers)[1..] == Lines(headers[1..])
  {
  }

  /** The lines of plain headers are read back as those headers. */
  lemma {:induction false} HeadersReadBack(headers: seq<Header>)
    requires forall h :: h in headers ==> PlainHeader(h)
    ensures HeadersOf(Lines(headers)) == (headers, false)
  {
    if headers != [] {
      assert headers[0] in headers;
      FirstReadsBack(headers[0], Lines(headers[1..]));
      HeadersReadBack(headers[1..]);
      FirstLine(headers);
      assert Lines(headers) == [Line(headers[0])] + Lines(headers[1..]);
      assert headers == [headers[0]] + headers[1..];
    }
  }

  lemma FirstReadsBack(h: Header, lines: seq<seq<byte>>)
    requires PlainHeader(h)
    ensures HeadersOf([Line(h)] + lines) == ([h] + HeadersOf(lines).0, HeadersOf(lines).1)
  {
    LineParses(h);
    assert ([Line(h)] + lines)[1..] == lines;
  }

  /** The first header end behind non-empty lines without line endings is the one after the last line. */
  lemma {:induction false} EndIsFirst(lines: seq<seq<byte>>, body: seq<byte>)
    requires lines != [] && PlainLines(lines)
    ensures Find(Join(lines, CRLF) + HEADER_END + body, HEADER_END) == Some(|Join(lines, CRLF)|)
  {
    var p := lines[0];
    assert PlainLine(p);
    if |lines| == 1 {
      assert Clear(p, HEADER_END);
      FindAfterClear(p, HEADER_END, body);
    } else {
      var t := Join(lines[1..], CRLF) + HEADER_END + body;
      EndIsFirst(lines[1..], body);
      assert PlainLine(lines[1]) && lines[1..][0] == lines[1] && lines[1][0] in lines[1];
      assert t[0] == lines[1][0] != CR;
      FindPastLine(p, t, p + CRLF);
      assert Join(lines, CRLF) + HEADER_END + body == p + CRLF + t;
    }
  }

  /** A line and its ending in front do not bring a header end of their own. */
  lemma FindPastLine(p: seq<byte>, t: seq<byte>, front: seq<byte>)
    requires Clear(p, CRLF) && t != [] && t[0] != CR && Find(t, HEADER_END).Some? && front == p + CRLF
    ensures Find(front + t, HEADER_END) == Some(|front| + Find(t, HEADER_END).value)
  {
    NoEndInLine(p, t);
    FindShift<byte>(front, t, HEADER_END);
  }

  lemma NoEndInLine(p: seq<byte>, t: seq<byte>)
    requires Clear(p, CRLF) && t != [] && t[0] != CR
    ensures NoneIn(p + CRLF, t, HEADER_END)
  {
    forall j: nat | j < |p + CRLF| ensures !At(p + CRLF + t, HEADER_END, j) {
      NotAtLine(p, t, j);
    }
  }

  lemma NotAtLine(p: seq<byte>, t: seq<byte>, j: nat)
    requires Clear(p, CRLF) && t != [] && t[0] != CR && j < |p| + 2
    ensures !At(p + CRLF + t, HEADER_END, j)
  {
    var s := p + CRLF + t;
    if j + 4 <= |s| {
      var w := s[j..j + 4];
      assert w[0] == s[j] && w[2] == s[j + 2];
      if j < |p| {
        assert s[j] == p[j] && p[j] in p;
      } else if j == |p| {
        assert s[j + 2] == t[0];
      } else {
        assert s[j] == LF;
      }
    }
  }

  /** The header stage reads plain headers back and finds the body behind them. */
  lemma HeaderStage(headers: seq<Header>, body: seq<byte>, r: Request)
    requires PlainHeaders(headers) && r.headers == []
    ensures ParseHeaders(HeaderText(headers) + body, r) == r.(headers := headers, bodyStart := |HeaderText(headers)|)
  {
    var lines := Lines(headers);
    var text := Join(lines, CRLF);
    LinesArePlain(headers);
    EndIsFirst(lines, body);
    SplitJoin(lines, CRLF);
    HeadersReadBack(headers);
    assert (text + HEADER_END + body)[..|text|] == text;
  }

  /** What a request's method and path must be for the parser to take them in this mode. */
  predicate Suits(m: Method, path: seq<byte>, isProxy: bool) {
    && !m.Unspecified?
    && (forall c :: c in path ==> !Stops(c))
    && if !isProxy then !m.CONNECT? && SLASH_FIRST <= path else m.CONNECT? || HTTP_SCHEME <= path
  }

  const SLASH_FIRST: seq<byte> := [SLASH]

  lemma {:induction false} StopIs(bs: seq<byte>, i: nat, k: nat, last: nat)
    requires i <= k < last <= |bs| && Stops(bs[k]) && forall j :: i <= j < k ==> !Stops(bs[j])
    ensures FirstStop(bs, i, last) == Some(k)
    decreases k - i
  {
    if i < k {
      StopIs(bs, i + 1, k, last);
    }
  }

  lemma {:induction false} StopMeans(bs: seq<byte>, i: nat, last: nat)
    requires last <= |bs|
    ensures FirstStop(bs, i, last).Some? ==> forall j :: i <= j < FirstStop(bs, i, last).value ==> !Stops(bs[j])
    ensures FirstStop(bs, i, last).None? <==> forall j :: i <= j < last ==> !Stops(bs[j])
    decreases last - i
  {
    if i < last && !Stops(bs[i]) {
      StopMeans(bs, i + 1, last);
    }
  }

  /** The name of a method stands at the front of the bytes that begin with it and a space. */
  lemma NameStands(m: Method, rest: seq<byte>)
    requires !m.Unspecified?
    ensures MethodAt(Name(m) + [SP] + rest) == m
  {
    var bs := Name(m) + [SP] + rest;
    assert Name(m) <= bs;
    assert bs[0] == Name(m)[0] && bs[1] == Name(m)[1];
  }

  lemma NotStar(m: Method, path: seq<byte>, isProxy: bool, rest: seq<byte>)
    requires Suits(m, path, isProxy) && rest != [] && rest[0] == SP
    ensures |Name(m) + [SP] + path + rest| > 4 && (Name(m) + [SP] + path + rest)[4] != STAR
  {
    var bs := Name(m) + [SP] + path + rest;
    if |Name(m)| == 3 {
      assert bs[4] == (path + rest)[0];
    }
  }

  /** What follows the path in a request line. */
  function Protocol(sep: byte, version: seq<byte>): seq<byte> {
    [SP] + HTTP + [sep] + version + CRLF
  }

  lemma LineInTwo(m: Method, path: seq<byte>, sep: byte, version: seq<byte>)
    ensures RequestLine(m, path, sep, version) == Name(m) + [SP] + path + Protocol(sep, version)
  {
  }

  lemma LineParts(r: Request, left: seq<byte>, before: seq<byte>, sep: byte, version: seq<byte>)
    requires |version| == 3
    ensures ParseLine(before + Protocol(sep, version) + left, r, |before|) == ParseHeaders(left, r.(version := version))
  {
    var bs, i := before + Protocol(sep, version) + left, |before|;
    assert bs == before + [SP] + HTTP + [sep] + version + CRLF + left;
    assert bs[i + 1..i + 5] == HTTP;
    assert bs[i + 6..i + 9] == version;
    assert bs[i + 9..i + 11] == CRLF;
    assert bs[i + 11..] == left;
  }

  lemma PathStops(m: Method, path: seq<byte>, isProxy: bool, rest: seq<byte>)
    requires Suits(m, path, isProxy) && rest != [] && rest[0] == SP
    requires !isProxy ==> |Name(m)| + 1 + |path| < MAX_PARSE_URL_LEN
    ensures var bs, slash := Name(m) + [SP] + path + rest, |Name(m)| + 1;
            && FirstStop(bs, slash, ScanEnd(bs, isProxy)) == Some(slash + |path|)
            && bs[slash..slash + |path|] == path && bs[slash + |path|] == SP
  {
    var bs, slash := Name(m) + [SP] + path + rest, |Name(m)| + 1;
    forall j | slash <= j < slash + |path| ensures !Stops(bs[j]) {
      assert bs[j] == path[j - slash] && path[j - slash] in path;
    }
    StopIs(bs, slash, slash + |path|, ScanEnd(bs, isProxy));
  }

  lemma PathSuits(m: Method, path: seq<byte>, isProxy: bool, rest: seq<byte>)
    requires Suits(m, path, isProxy) && |rest| >= 11
    ensures var bs, slash := Name(m) + [SP] + path + rest, |Name(m)| + 1;
            && |bs| >= MIN_LEN
            && (isProxy && !m.CONNECT? ==> bs[slash..slash + 7] == HTTP_SCHEME)
            && (!isProxy ==> bs[slash] == SLASH)
  {
    var bs, slash := Name(m) + [SP] + path + rest, |Name(m)| + 1;
    if isProxy && !m.CONNECT? {
      MiddleStands(Name(m) + [SP], path, rest, 7);
    } else if !isProxy {
      assert bs[slash] == path[0];
    }
  }

  lemma MiddleStands(a: seq<byte>, b: seq<byte>, c: seq<byte>, n: nat)
    requires n <= |b|
    ensures (a + b + c)[|a|..|a| + n] == b[..n]
  {
  }

  /** Up to the path. */
  lemma MethodStage(bs: seq<byte>, m: Method, path: seq<byte>, isProxy: bool, rest: seq<byte>)
    requires Suits(m, path, isProxy) && |rest| >= 11 && rest[0] == SP && bs == Name(m) + [SP] + path + rest
    ensures |bs| >= MIN_LEN && Parse(bs, isProxy) == ParsePath(bs, isProxy, EMPTY.(verb := m), |Name(m)| + 1)
  {
    assert bs == Name(m) + [SP] + (path + rest);
    NameStands(m, path + rest);
    NotStar(m, path, isProxy, rest);
    PathSuits(m, path, isProxy, rest);
    assert bs[|Name(m)|] == SP;
  }

  /** Up to the space after the path; a path that goes beyond the scan limit ends the parse without an error. */
  lemma PathStage(bs: seq<byte>, m: Method, path: seq<byte>, isProxy: bool, rest: seq<byte>)
    requires Suits(m, path, isProxy) && |rest| >= 11 && rest[0] == SP && bs == Name(m) + [SP] + path + rest
    ensures |bs| >= MIN_LEN
    ensures var r, i := EMPTY.(verb := m), |Name(m)| + 1 + |path|;
            (ParsePath(bs, isProxy, r, |Name(m)| + 1)
             == if isProxy || i < MAX_PARSE_URL_LEN then ParseLine(bs, r.(path := path), i)
                else r.(lastChecked := MAX_PARSE_URL_LEN))
  {
    if isProxy || |Name(m)| + 1 + |path| < MAX_PARSE_URL_LEN {
      PathTaken(bs, m, path, isProxy, rest);
    } else {
      PathTooLong(bs, m, path, rest);
    }
  }

  /** A path that starts right and ends at a space, as the scanner sees it. */
  lemma PathScanned(bs: seq<byte>, r: Request, path: seq<byte>, isProxy: bool, slash: nat)
    requires |bs| >= MIN_LEN && slash <= 8 && slash + |path| + 11 <= |bs|
    requires isProxy && !r.verb.CONNECT? ==> bs[slash..slash + 7] == HTTP_SCHEME
    requires !isProxy ==> bs[slash] == SLASH
    requires FirstStop(bs, slash, ScanEnd(bs, isProxy)) == Some(slash + |path|)
    requires bs[slash..slash + |path|] == path && bs[slash + |path|] == SP
    ensures ParsePath(bs, isProxy, r, slash) == ParseLine(bs, r.(path := path), slash + |path|)
  {
  }

  lemma PathTaken(bs: seq<byte>, m: Method, path: seq<byte>, isProxy: bool, rest: seq<byte>)
    requires Suits(m, path, isProxy) && |rest| >= 11 && rest[0] == SP && bs == Name(m) + [SP] + path + rest
    requires isProxy || |Name(m)| + 1 + |path| < MAX_PARSE_URL_LEN
    ensures |bs| >= MIN_LEN
    ensures var r, slash := EMPTY.(verb := m), |Name(m)| + 1;
            ParsePath(bs, isProxy, r, slash) == ParseLine(bs, r.(path := path), slash + |path|)
  {
    PathSuits(m, path, isProxy, rest);
    PathStops(m, path, isProxy, rest);
    PathScanned(bs, EMPTY.(verb := m), path, isProxy, |Name(m)| + 1);
  }

  lemma PathTooLong(bs: seq<byte>, m: Method, path: seq<byte>, rest: seq<byte>)
    requires Suits(m, path, false) && |rest| >= 11 && bs == Name(m) + [SP] + path + rest
    requires |Name(m)| + 1 + |path| >= MAX_PARSE_URL_LEN
    ensures |bs| >= MIN_LEN
    ensures var r := EMPTY.(verb := m);
            ParsePath(bs, false, r, |Name(m)| + 1) == r.(lastChecked := MAX_PARSE_URL_LEN)
  {
    PathSuits(m, path, false, rest);
    PathNeverStops(m, path, rest);
  }

  lemma PathNeverStops(m: Method, path: seq<byte>, rest: seq<byte>)
    requires Suits(m, path, false) && |Name(m)| + 1 + |path| >= MAX_PARSE_URL_LEN && rest != []
    ensures var bs, slash := Name(m) + [SP] + path + rest, |Name(m)| + 1;
            FirstStop(bs, slash, ScanEnd(bs, false)) == None && ScanEnd(bs, false) == MAX_PARSE_URL_LEN
  {
    var bs, slash := Name(m) + [SP] + path + rest, |Name(m)| + 1;
    forall j | slash <= j < MAX_PARSE_URL_LEN ensures !Stops(bs[j]) {
      assert bs[j] == path[j - slash] && path[j - slash] in path;
    }
    StopMeans(bs, slash, MAX_PARSE_URL_LEN);
  }

  lemma Regroup(a: seq<byte>, b: seq<byte>, c: seq<byte>, d: seq<byte>)
    ensures a + b + c + d == a + b + (c + d) == a + (b + (c + d))
  {
  }

  lemma RequestInTwo(
    m: Method, path: seq<byte>, sep: byte, version: seq<byte>, headers: seq<Header>, body: seq<byte>)
    requires |version| == 3
    ensures (RequestLine(m, path, sep, version) + HeaderText(headers) + body
          == Name(m) + [SP] + path + (Protocol(sep, version) + (HeaderText(headers) + body)))
    ensures var rest := Protocol(sep, version) + (HeaderText(headers) + body); |rest| >= 11 && rest[0] == SP
  {
    LineInTwo(m, path, sep, version);
    Regroup(Name(m) + [SP] + path, Protocol(sep, version), HeaderText(headers), body);
  }

  /** Method and path together: what is parsed is what follows the path, unless that is too long. */
  lemma FrontStages(bs: seq<byte>, m: Method, path: seq<byte>, isProxy: bool, rest: seq<byte>)
    requires Suits(m, path, isProxy) && |rest| >= 11 && rest[0] == SP && bs == Name(m) + [SP] + path + rest
    ensures var r, i := EMPTY.(verb := m), |Name(m)| + 1 + |path|;
            (Parse(bs, isProxy)
          == if isProxy || i < MAX_PARSE_URL_LEN then ParseLine(bs, r.(path := path), i)
             else r.(lastChecked := MAX_PARSE_URL_LEN))
  {
    MethodStage(bs, m, path, isProxy, rest);
    PathStage(bs, m, path, isProxy, rest);
  }

  /** From the space after the path to the end of the headers. */
  lemma LineStage(
    before: seq<byte>, m: Method, path: seq<byte>, sep: byte, version: seq<byte>, headers: seq<Header>, body: seq<byte>)
    requires |version| == 3 && PlainHeaders(headers)
    ensures var bs := before + (Protocol(sep, version) + (HeaderText(headers) + body));
            (ParseLine(bs, EMPTY.(verb := m, path := path), |before|)
          == Request(version, m, path, headers, None, 0, |HeaderText(headers)|))
  {
    var left := HeaderText(headers) + body;
    assert before + (Protocol(sep, version) + left) == before + Protocol(sep, version) + left;
    LineParts(EMPTY.(verb := m, path := path), left, before, sep, version);
    HeaderStage(headers, body, EMPTY.(verb := m, path := path, version := version));
  }

  /**
   * A request with a known method and at least one header, followed by any body, is read back in
   * every field if and only if its path is within the scan limit; the body starts `bodyStart`
   * bytes after the end of the request line. Beyond the limit the parser reports neither an error
   * nor a path.
   */
  lemma ReadBack(m: Method, path: seq<byte>, sep: byte, version: seq<byte>, headers: seq<Header>, body: seq<byte>,
                 isProxy: bool)
    requires Suits(m, path, isProxy) && |version| == 3 && PlainHeaders(headers)
    ensures Parse(RequestLine(m, path, sep, version) + HeaderText(headers) + body, isProxy)
         == if isProxy || |Name(m)| + 1 + |path| < MAX_PARSE_URL_LEN then
              Request(version, m, path, headers, None, 0, |HeaderText(headers)|)
            else EMPTY.(verb := m, lastChecked := MAX_PARSE_URL_LEN)
  {
    var before := Name(m) + [SP] + path;
    var rest := Protocol(sep, version) + (HeaderText(headers) + body);
    RequestInTwo(m, path, sep, version, headers, body);
    LineStage(before, m, path, sep, version, headers, body);
    FrontStages(before + rest, m, path, isProxy, rest);
  }

  lemma FoundSplits(s: seq<byte>, pat: seq<byte>)
    requires Find(s, pat).Some?
    ensures var k := Find(s, pat).value; k + |pat| <= |s| && s == s[..k] + pat + s[k + |pat|..]
  {
    FindFound(s, pat);
    var k := Find(s, pat).value;
    assert s == s[..k] + s[k..k + |pat|] + s[k + |pat|..];
  }

  /** Headers taken from lines without an error print as those lines. */
  lemma {:induction false} LinesOfHeaders(lines: seq<seq<byte>>)
    requires !HeadersOf(lines).1
    ensures Lines(HeadersOf(lines).0) == lines
  {
    if lines != [] {
      FoundSplits(lines[0], COLON_SPACE);
      LinesOfHeaders(lines[1..]);
      FirstLine(HeadersOf(lines).0);
    }
  }

  lemma HeadersSound(left: seq<byte>, r: Request)
    requires r.headers == [] && r.bodyStart == 0 && r.error == None && ParseHeaders(left, r).error == None
    ensures var t := ParseHeaders(left, r);
            && t == r.(headers := t.headers, bodyStart := |HeaderText(t.headers)|)
            && HeaderText(t.headers) <= left
  {
    FoundSplits(left, HEADER_END);
    var text := left[..Find(left, HEADER_END).value];
    var headers := HeadersOf(Split(text, CRLF)).0;
    assert r.headers + headers == headers;
    LinesOfHeaders(Split(text, CRLF));
    JoinSplit(text, CRLF);
    assert HeaderText(headers) == text + HEADER_END;
  }

  lemma ProtocolStands(bs: seq<byte>, i: nat)
    requires i + 11 <= |bs| && bs[i] == SP && bs[i + 1..i + 5] == HTTP && bs[i + 9..i + 11] == CRLF
    ensures bs[i..i + 11] == Protocol(bs[i + 5], bs[i + 6..i + 9])
  {
    CutAt(bs, i, i + 9, i + 11);
    CutAt(bs, i, i + 6, i + 9);
    CutAt(bs, i, i + 5, i + 6);
    CutAt(bs, i, i + 1, i + 5);
    assert bs[i..i + 1] == [SP] && bs[i + 5..i + 6] == [bs[i + 5]];
  }

  lemma CutAt(bs: seq<byte>, a: nat, b: nat, c: nat)
    requires a <= b <= c <= |bs|
    ensures bs[a..c] == bs[a..b] + bs[b..c]
  {
  }

  /** The bytes are this request's text, with `sep` between the protocol's name and version, and a body. */
  predicate Spells(bs: seq<byte>, r: Request, sep: byte) {
    && RequestLine(r.verb, r.path, sep, r.version) + HeaderText(r.headers) <= bs
    && r.bodyStart == |HeaderText(r.headers)| && r.lastChecked == 0
  }

  lemma MethodStands(bs: seq<byte>)
    ensures Name(MethodAt(bs)) <= bs
  {
  }

  lemma ParsePathSound(bs: seq<byte>, isProxy: bool, m: Method, i: nat)
    requires |bs| >= MIN_LEN && m == MethodAt(bs) && !m.Unspecified? && bs[|Name(m)|] == SP
    requires |Name(m)| + 1 <= i && i + 11 <= |bs| && bs[i] == SP
    requires var r := EMPTY.(verb := m, path := bs[|Name(m)| + 1..i]); ParseLine(bs, r, i).error == None
    ensures Spells(bs, ParseLine(bs, EMPTY.(verb := m, path := bs[|Name(m)| + 1..i]), i), bs[i + 5])
  {
    var r := EMPTY.(verb := m, path := bs[|Name(m)| + 1..i]);
    var v := r.(version := bs[i + 6..i + 9]);
    MethodStands(bs);
    HeadersSound(bs[i + 11..], v);
    LineSpelt(bs, m, i);
    var text := HeaderText(ParseHeaders(bs[i + 11..], v).headers);
    PrefixInTwo(bs, RequestLine(m, r.path, bs[i + 5], v.version), text, i + 11);
  }

  lemma LineSpelt(bs: seq<byte>, m: Method, i: nat)
    requires Name(m) <= bs && |Name(m)| + 1 <= i && i + 11 <= |bs| && bs[|Name(m)|] == SP
    requires bs[i] == SP && bs[i + 1..i + 5] == HTTP && bs[i + 9..i + 11] == CRLF
    ensures var line := RequestLine(m, bs[|Name(m)| + 1..i], bs[i + 5], bs[i + 6..i + 9]);
            |line| == i + 11 && line <= bs
  {
    var path, sep, version := bs[|Name(m)| + 1..i], bs[i + 5], bs[i + 6..i + 9];
    ProtocolStands(bs, i);
    FrontInThree(bs, Name(m), i, Protocol(sep, version));
    LineInTwo(m, path, sep, version);
  }

  lemma FrontInThree(bs: seq<byte>, name: seq<byte>, i: nat, tail: seq<byte>)
    requires |name| < i && i + |tail| <= |bs| && name <= bs && bs[|name|] == SP && bs[i..i + |tail|] == tail
    ensures name + [SP] + bs[|name| + 1..i] + tail == bs[..i + |tail|]
  {
    assert bs[..i] == name + [SP] + bs[|name| + 1..i];
    assert bs[..i + |tail|] == bs[..i] + bs[i..i + |tail|];
  }

  lemma PrefixInTwo(bs: seq<byte>, front: seq<byte>, next: seq<byte>, n: nat)
    requires n == |front| && front <= bs && next <= bs[n..]
    ensures front + next <= bs
  {
    assert bs[..n + |next|] == bs[..n] + bs[n..][..|next|];
  }

  /** Where the path starts. */
  function PathStart(bs: seq<byte>): nat {
    |Name(MethodAt(bs))| + 1
  }

  /**
   * Over all byte strings: when the parser reports no error, either the bytes spell the request
   * it returns, with the body where `bodyStart` says, or it found no end of the path and returns
   * the method alone.
   */
  lemma NoErrorMeans(bs: seq<byte>, isProxy: bool)
    requires Parse(bs, isProxy).error == None
    ensures var r := Parse(bs, isProxy);
            if r.lastChecked == 0 then exists sep: byte :: Spells(bs, r, sep)
            else
              && r == EMPTY.(verb := MethodAt(bs), lastChecked := ScanEnd(bs, isProxy))
              && forall j :: PathStart(bs) <= j < ScanEnd(bs, isProxy) ==> !Stops(bs[j])
  {
    var m, slash, last := MethodAt(bs), PathStart(bs), ScanEnd(bs, isProxy);
    StopMeans(bs, slash, last);
    match FirstStop(bs, slash, last) {
      case None =>
      case Some(i) =>
        ParsePathSound(bs, isProxy, m, i);
        assert Spells(bs, Parse(bs, isProxy), bs[i + 5]);
    }
  }
}
