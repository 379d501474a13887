/** When and how the HTTP/1 parser fails, for every byte string. */
module Http1Errors {
  import opened Bytes
  import opened Text
  import opened Http1
  import opened Http1Text

  lemma NamesInText()
    ensures Name(GET) == Ascii("GET") && Name(PUT) == Ascii("PUT") && Name(POST) == Ascii("POST")
    ensures Name(HEAD) == Ascii("HEAD") && Name(DELETE) == Ascii("DELETE")
    ensures Name(OPTIONS) == Ascii("OPTIONS") && Name(CONNECT) == Ascii("CONNECT")
    ensures HTTP == Ascii("HTTP") && HTTP_SCHEME == Ascii("http://") && COLON_SPACE == Ascii(": ")
    ensures CRLF == Ascii("\r\n") && HEADER_END == Ascii("\r\n\r\n")
  {
  }

  /** The bytes begin with this method's name and a space. */
  predicate Asks(bs: seq<byte>, m: Method) {
    !m.Unspecified? && Name(m) <= bs && |bs| > |Name(m)| && bs[|Name(m)|] == 32
  }

  lemma AsksOne(bs: seq<byte>, m: Method)
    requires Asks(bs, m)
    ensures MethodAt(bs) == m
  {
    NameStands(m, bs[|Name(m)| + 1..]);
    assert bs == Name(m) + [SP] + bs[|Name(m)| + 1..];
  }

  /** A request as far as it is known when this error ends the parse. */
  function Faulty(m: Method, e: ParseError): Request {
    Request([], m, [], [], Some(e), 0, 0)
  }

  /**
   * Over all bytes: too few bytes, a star in the fifth place, CONNECT to a server that is no proxy,
   * or no known method with a space behind it end the parse; nothing else does so before the path.
   */
  lemma FrontErrors(bs: seq<byte>, isProxy: bool)
    ensures var r := Parse(bs, isProxy);
            && (|bs| < 16 <==> r == Faulty(Unspecified, TooShort))
            && (|bs| >= 16 && bs[4] == 42 <==> r == Faulty(Unspecified, NotForH2c))
            && (|bs| >= 16 && bs[4] != 42 && Name(CONNECT) <= bs && !isProxy <==> r == Faulty(CONNECT, UnexpectedProxy))
            && (|bs| >= 16 && bs[4] != 42 && (forall m :: !Asks(bs, m)) && (Name(CONNECT) <= bs ==> isProxy) <==>
                  r.error == Some(SpaceIndexWrong))
            && (r.error == Some(SpaceIndexWrong) ==> r == Faulty(MethodAt(bs), SpaceIndexWrong))
  {
    forall m | Asks(bs, m) ensures MethodAt(bs) == m {
      AsksOne(bs, m);
    }
    if |bs| >= 16 {
      ConnectIs(bs);
      MethodStands(bs);
      assert !MethodAt(bs).Unspecified? && bs[|Name(MethodAt(bs))|] == SP ==> Asks(bs, MethodAt(bs));
      if MethodAt(bs).CONNECT? {
        assert Name(MethodAt(bs)) == Name(CONNECT);
      }
      LaterErrors(bs, isProxy, EMPTY.(verb := MethodAt(bs)), |Name(MethodAt(bs))| + 1);
    }
  }

  lemma ConnectIs(bs: seq<byte>)
    ensures Name(CONNECT) <= bs <==> MethodAt(bs).CONNECT?
  {
    if Name(CONNECT) <= bs {
      assert bs[0] == 67;
    }
  }

  predicate IsEarly(e: ParseError) {
    e == TooShort || e == NotForH2c || e == UnexpectedProxy || e == SpaceIndexWrong
  }

  lemma LaterErrors(bs: seq<byte>, isProxy: bool, r: Request, slash: nat)
    requires |bs| >= MIN_LEN && slash <= 8 && r.error == None
    ensures var t := ParsePath(bs, isProxy, r, slash).error; t.Some? ==> !IsEarly(t.value)
  {
    match FirstStop(bs, slash, ScanEnd(bs, isProxy)) {
      case None =>
      case Some(i) =>
        if i + 11 <= |bs| {
          LineErrorsAreLate(bs, r.(path := bs[slash..i]), i);
        }
    }
  }

  lemma LineErrorsAreLate(bs: seq<byte>, r: Request, i: nat)
    requires i + 11 <= |bs| && r.error == None
    ensures var t := ParseLine(bs, r, i).error; t.Some? ==> !IsEarly(t.value)
  {
  }

  /** The parse comes to the path of a request with this method. */
  predicate AtPath(bs: seq<byte>, isProxy: bool, m: Method) {
    |bs| >= 16 && bs[4] != 42 && Asks(bs, m) && (m.CONNECT? ==> isProxy)
  }

  /** A path begins as it should: with a slash, or for a proxy with a scheme unless the method is CONNECT. */
  predicate PathBegins(bs: seq<byte>, isProxy: bool, m: Method)
    requires AtPath(bs, isProxy, m)
  {
    var p := |Name(m)| + 1;
    if isProxy then m.CONNECT? || bs[p..p + 7] == HTTP_SCHEME else bs[p] == 47
  }

  /** The path ends at `i`, at a space or a line ending within the first 3000 bytes, or anywhere for a proxy. */
  predicate PathEnds(bs: seq<byte>, isProxy: bool, m: Method, i: nat) {
    && |Name(m)| + 1 <= i < |bs| && (isProxy || i < 3000) && bs[i] in {13, 10, 32}
    && forall j :: |Name(m)| + 1 <= j < i ==> bs[j] !in {13, 10, 32}
  }

  lemma EndIs(bs: seq<byte>, isProxy: bool, m: Method, i: nat)
    requires PathEnds(bs, isProxy, m, i)
    ensures FirstStop(bs, |Name(m)| + 1, ScanEnd(bs, isProxy)) == Some(i)
  {
    StopIs(bs, |Name(m)| + 1, i, ScanEnd(bs, isProxy));
  }

  lemma AtPathParses(bs: seq<byte>, isProxy: bool, m: Method)
    requires AtPath(bs, isProxy, m)
    ensures Parse(bs, isProxy) == ParsePath(bs, isProxy, Request([], m, [], [], None, 0, 0), |Name(m)| + 1)
  {
    AsksOne(bs, m);
  }

  /** What a path that begins or ends wrong, or ends nowhere, comes to; and when the protocol is looked at. */
  lemma PathErrors(bs: seq<byte>, isProxy: bool, m: Method)
    requires AtPath(bs, isProxy, m)
    ensures var r := Parse(bs, isProxy);
            && (!PathBegins(bs, isProxy, m) ==>
                  r == Faulty(m, if isProxy then ExpectCONNECTButNot else NoSlash))
            && (PathBegins(bs, isProxy, m) && (forall i: nat :: !PathEnds(bs, isProxy, m, i)) ==>
                  r == Request([], m, [], [], None, if isProxy then |bs| else Min(3000, |bs|), 0))
            && (forall i: nat :: PathBegins(bs, isProxy, m) && PathEnds(bs, isProxy, m, i) ==>
                  && (bs[i] != 32 ==> r == Faulty(m, EarlyLinefeed))
                  && (bs[i] == 32 && |bs| < i + 11 ==> r == Faulty(m, FirstLineLessThan10))
                  && (bs[i] == 32 && |bs| >= i + 11 ==>
                        r == ParseLine(bs, Request([], m, bs[|Name(m)| + 1..i], [], None, 0, 0), i)))
  {
    AtPathParses(bs, isProxy, m);
    forall i: nat | PathEnds(bs, isProxy, m, i) ensures FirstStop(bs, |Name(m)| + 1, ScanEnd(bs, isProxy)) == Some(i) {
      EndIs(bs, isProxy, m, i);
    }
    StopMeans(bs, |Name(m)| + 1, ScanEnd(bs, isProxy));
    var f := FirstStop(bs, |Name(m)| + 1, ScanEnd(bs, isProxy));
    if f.Some? {
      assert PathEnds(bs, isProxy, m, f.value);
    }
  }

  /** What a wrong protocol or line end behind the path comes to; and when the headers are looked at. */
  lemma LineErrors(bs: seq<byte>, i: nat, m: Method, path: seq<byte>)
    requires i + 11 <= |bs|
    ensures var r, v := ParseLine(bs, Request([], m, path, [], None, 0, 0), i), bs[i + 6..i + 9];
            && (bs[i + 1..i + 5] != HTTP ==> r == Request([], m, path, [], Some(StrHttpNotFoundInRightPlace), 0, 0))
            && (bs[i + 1..i + 5] == HTTP && (bs[i + 9] != 13 || bs[i + 10] != 10) ==>
                  r == Request(v, m, path, [], Some(NoEndMark), 0, 0))
            && (bs[i + 1..i + 5] == HTTP && bs[i + 9] == 13 && bs[i + 10] == 10 ==>
                  r == ParseHeaders(bs[i + 11..], Request(v, m, path, [], None, 0, 0)))
  {
    assert bs[i + 9..i + 11] == [bs[i + 9], bs[i + 10]];
  }

  /** An empty line's two line endings stand at `k`. */
  predicate EmptyLineAt(s: seq<byte>, k: nat) {
    k + 4 <= |s| && s[k] == 13 && s[k + 1] == 10 && s[k + 2] == 13 && s[k + 3] == 10
  }

  lemma EmptyLineIs(s: seq<byte>, k: nat)
    ensures At(s, HEADER_END, k) <==> EmptyLineAt(s, k)
  {
    if k + 4 <= |s| {
      assert s[k..k + 4] == [s[k], s[k + 1], s[k + 2], s[k + 3]];
    }
  }

  lemma FirstEmptyLine(s: seq<byte>)
    ensures match Find(s, HEADER_END)
            case None => forall k: nat :: !EmptyLineAt(s, k)
            case Some(k) => EmptyLineAt(s, k) && forall j: nat :: j < k ==> !EmptyLineAt(s, j)
  {
    FindFound(s, HEADER_END);
    forall k: nat ensures At(s, HEADER_END, k) <==> EmptyLineAt(s, k) {
      EmptyLineIs(s, k);
    }
  }

  /** A line without a colon and a space behind it. */
  predicate NoColon(line: seq<byte>) {
    forall k :: 0 <= k < |line| - 1 ==> line[k] != 58 || line[k + 1] != 32
  }

  lemma NoColonIs(line: seq<byte>)
    ensures NoColon(line) <==> Find(line, COLON_SPACE) == None
  {
    FindFound(line, COLON_SPACE);
    forall k | 0 <= k < |line| - 1 ensures At(line, COLON_SPACE, k) <==> line[k] == 58 && line[k + 1] == 32 {
      assert line[k..k + 2] == [line[k], line[k + 1]];
    }
    if Find(line, COLON_SPACE).Some? {
      var k := Find(line, COLON_SPACE).value;
      assert line[k..k + 2][0] == line[k] == 58 && line[k..k + 2][1] == line[k + 1] == 32;
    }
  }

  /** These headers were read from the lines before the first that has no colon, or from all. */
  predicate ReadUpTo(lines: seq<seq<byte>>, headers: seq<Header>, bad: bool) {
    if lines == [] then headers == [] && !bad
    else if NoColon(lines[0]) then headers == [] && bad
    else
      && headers != [] && NoColon(headers[0].head)
      && lines[0] == headers[0].head + [58, 32] + headers[0].value
      && ReadUpTo(lines[1..], headers[1..], bad)
  }

  lemma {:induction false} HeadersUpTo(lines: seq<seq<byte>>)
    ensures ReadUpTo(lines, HeadersOf(lines).0, HeadersOf(lines).1)
  {
    if lines != [] {
      NoColonIs(lines[0]);
      HeadersUpTo(lines[1..]);
      if Find(lines[0], COLON_SPACE).Some? {
        FoundSplits(lines[0], COLON_SPACE);
        HeadIsPlain(lines[0]);
        assert HeadersOf(lines).0[1..] == HeadersOf(lines[1..]).0;
      }
    }
  }

  lemma NotColonAt(line: seq<byte>, j: nat)
    requires j + 1 < |line| && !At(line, COLON_SPACE, j)
    ensures line[j] != 58 || line[j + 1] != 32
  {
    assert line[j..j + 2] == [line[j], line[j + 1]];
  }

  lemma HeadIsPlain(line: seq<byte>)
    requires Find(line, COLON_SPACE).Some?
    ensures var k := Find(line, COLON_SPACE).value; k <= |line| && NoColon(line[..k])
  {
    FindFound(line, COLON_SPACE);
    var k := Find(line, COLON_SPACE).value;
    forall j: nat | j + 1 < k ensures line[..k][j] != 58 || line[..k][j + 1] != 32 {
      NotColonAt(line, j);
    }
  }

  /** `lines` are the lines before the empty line at `k`, and `t` tells what was read of them. */
  predicate HeadersRead(left: seq<byte>, k: nat, lines: seq<seq<byte>>, r: Request, t: Request) {
    && EmptyLineAt(left, k) && Join(lines, CRLF) == left[..k] && NoneHolds(lines, CRLF)
    && ReadUpTo(lines, t.headers, t.error.Some?)
    && t == r.(headers := t.headers, error := t.error, bodyStart := if t.error.None? then k + 4 else 0)
    && (t.error.Some? ==> t.error == Some(HeaderNoColonOrColonNotFollowedBySpace))
  }

  lemma HeadersReadTo(left: seq<byte>, k: nat, r: Request)
    requires r.headers == [] && r.error == None && r.bodyStart == 0
    requires EmptyLineAt(left, k) && Find(left, HEADER_END) == Some(k)
    ensures HeadersRead(left, k, Split(left[..k], CRLF), r, ParseHeaders(left, r))
  {
    var lines := Split(left[..k], CRLF);
    HeadersUpTo(lines);
    JoinSplit(left[..k], CRLF);
    SplitHoldsNone(left[..k], CRLF);
    assert [] + HeadersOf(lines).0 == HeadersOf(lines).0;
  }

  /** The first empty line. */
  predicate FirstEmptyAt(left: seq<byte>, k: nat) {
    EmptyLineAt(left, k) && forall j: nat :: j < k ==> !EmptyLineAt(left, j)
  }

  /**
   * The header stage: without an empty line it fails; else the lines up to the first one are read
   * one by one, and the first without a colon and a space ends the parse with the headers so far.
   */
  lemma HeaderErrors(left: seq<byte>, r: Request)
    requires r.headers == [] && r.error == None && r.bodyStart == 0
    ensures var t := ParseHeaders(left, r);
            && ((forall k: nat :: !EmptyLineAt(left, k)) ==> t == r.(error := Some(NoEndMark2)))
            && (forall k: nat :: FirstEmptyAt(left, k) ==> exists lines :: HeadersRead(left, k, lines, r, t))
  {
    FirstEmptyLine(left);
    forall k: nat | FirstEmptyAt(left, k)
      ensures exists lines :: HeadersRead(left, k, lines, r, ParseHeaders(left, r))
    {
      HeadersReadTo(left, k, r);
    }
  }
}
