/** The HTTP/1 request parser (section 5 of RFC 2616), on byte strings. */
module Http1 {
  import opened Bytes
  import opened Text

  const SP: byte := 32
  const CR: byte := 13
  const LF: byte := 10
  const STAR: byte := 42
  const SLASH: byte := 47
  const CRLF: seq<byte> := [13, 10]
  const HEADER_END: seq<byte> := [13, 10, 13, 10]
  const COLON_SPACE: seq<byte> := [58, 32]
  const HTTP: seq<byte> := [72, 84, 84, 80]
  const HTTP_SCHEME: seq<byte> := [104, 116, 116, 112, 58, 47, 47]
  const MIN_LEN: nat := 16
  const MAX_PARSE_URL_LEN: nat := 3000

  datatype Method = Unspecified | GET | PUT | POST | HEAD | DELETE | OPTIONS | CONNECT

  datatype Header = Header(head: seq<byte>, value: seq<byte>)

  datatype ParseError =
    | TooShort | NotForH2c | UnexpectedProxy | SpaceIndexWrong | ExpectCONNECTButNot | NoSlash | EarlyLinefeed
    | FirstLineLessThan10 | StrHttpNotFoundInRightPlace | NoEndMark | NoEndMark2
    | HeaderNoColonOrColonNotFollowedBySpace

  datatype Request = Request(
    version: seq<byte>,
    verb: Method,
    path: seq<byte>,
    headers: seq<Header>,
    error: Option<ParseError>,
    lastChecked: nat,
    bodyStart: nat)

  const EMPTY: Request := Request([], Unspecified, [], [], None, 0, 0)

  function Name(m: Method): seq<byte> {
    match m
    case Unspecified => []
    case GET => [71, 69, 84]
    case PUT => [80, 85, 84]
    case POST => [80, 79, 83, 84]
    case HEAD => [72, 69, 65, 68]
    case DELETE => [68, 69, 76, 69, 84, 69]
    case OPTIONS => [79, 80, 84, 73, 79, 78, 83]
    case CONNECT => [67, 79, 78, 78, 69, 67, 84]
  }

  /** The method whose name the bytes start with. */
  function MethodAt(bs: seq<byte>): Method {
    if Name(GET) <= bs then GET
    else if Name(PUT) <= bs then PUT
    else if Name(POST) <= bs then POST
    else if Name(HEAD) <= bs then HEAD
    else if Name(DELETE) <= bs then DELETE
    else if Name(OPTIONS) <= bs then OPTIONS
    else if Name(CONNECT) <= bs then CONNECT
    else Unspecified
  }

  predicate Stops(b: byte) {
    b == CR || b == LF || b == SP
  }

  /** The first space or line ending at or after `i`, before `last`. */
  function FirstStop(bs: seq<byte>, i: nat, last: nat): (r: Option<nat>)
    requires last <= |bs|
    ensures r.Some? ==> i <= r.value < last && Stops(bs[r.value])
    decreases last - i
  {
    if i >= last then None else if Stops(bs[i]) then Some(i) else FirstStop(bs, i + 1, last)
  }

  /** The headers up to the first line without a colon and a space, and whether there is such a line. */
  function HeadersOf(lines: seq<seq<byte>>): (seq<Header>, bool) {
    if lines == [] then ([], false)
    else
      match Find(lines[0], COLON_SPACE)
      case None => ([], true)
      case Some(k) =>
        FindBound(lines[0], COLON_SPACE);
        var (more, bad) := HeadersOf(lines[1..]);
        ([Header(lines[0][..k], lines[0][k + 2..])] + more, bad)
  }

  /** How far the scan for the end of the path goes. */
  function ScanEnd(bs: seq<byte>, isProxy: bool): (last: nat)
    ensures last <= |bs|
  {
    if !isProxy && |bs| > MAX_PARSE_URL_LEN then MAX_PARSE_URL_LEN else |bs|
  }

  function Parse(bs: seq<byte>, isProxy: bool): Request {
    if |bs| < MIN_LEN then EMPTY.(error := Some(TooShort))
    else if bs[4] == STAR then EMPTY.(error := Some(NotForH2c))
    else
      var m := MethodAt(bs);
      var r := EMPTY.(verb := m);
      if m.CONNECT? && !isProxy then r.(error := Some(UnexpectedProxy))
      else if m.Unspecified? || bs[|Name(m)|] != SP then r.(error := Some(SpaceIndexWrong))
      else ParsePath(bs, isProxy, r, |Name(m)| + 1)
  }

  /** From the path on, which starts at `slash`. */
  function ParsePath(bs: seq<byte>, isProxy: bool, r: Request, slash: nat): Request
    requires |bs| >= MIN_LEN && slash <= 8
  {
    if isProxy && !r.verb.CONNECT? && bs[slash..slash + 7] != HTTP_SCHEME then r.(error := Some(ExpectCONNECTButNot))
    else if !isProxy && bs[slash] != SLASH then r.(error := Some(NoSlash))
    else
      match FirstStop(bs, slash, ScanEnd(bs, isProxy))
      case None => r.(lastChecked := ScanEnd(bs, isProxy))
      case Some(i) =>
        if bs[i] != SP then r.(error := Some(EarlyLinefeed))
        else if |bs| - i - 1 < 10 then r.(error := Some(FirstLineLessThan10))
        else ParseLine(bs, r.(path := bs[slash..i]), i)
  }

  /** From the space at `i` on. */
  function ParseLine(bs: seq<byte>, r: Request, i: nat): Request
    requires i + 11 <= |bs|
  {
    if bs[i + 1..i + 5] != HTTP then r.(error := Some(StrHttpNotFoundInRightPlace))
    else
      var v := r.(version := bs[i + 6..i + 9]);
      if bs[i + 9..i + 11] != CRLF then v.(error := Some(NoEndMark)) else ParseHeaders(bs[i + 11..], v)
  }

  function ParseHeaders(left: seq<byte>, r: Request): Request {
    match Find(left, HEADER_END)
    case None => r.(error := Some(NoEndMark2))
    case Some(k) =>
      FindBound(left, HEADER_END);
      var (headers, bad) := HeadersOf(Split(left[..k], CRLF));
      if bad then r.(headers := r.headers + headers, error := Some(HeaderNoColonOrColonNotFollowedBySpace))
      else r.(headers := r.headers + headers, bodyStart := k + 4)
  }

  /** Tells the method by its first byte, then the rest of its name. */
  method ReadMethod(bs: seq<byte>) returns (m: Method, shouldSpaceIndex: nat)
    requires |bs| >= MIN_LEN
    ensures m == MethodAt(bs) && shouldSpaceIndex == |Name(m)|
  {
    NamesByParts(bs);
    m, shouldSpaceIndex := Unspecified, 0;
    if bs[0] == 71 {
      if bs[1..3] == [69, 84] {
        m, shouldSpaceIndex := GET, 3;
      }
    } else if bs[0] == 80 {
      if bs[1..3] == [85, 84] {
        m, shouldSpaceIndex := PUT, 3;
      } else if bs[1..4] == [79, 83, 84] {
        m, shouldSpaceIndex := POST, 4;
      }
    } else if bs[0] == 72 {
      if bs[1..4] == [69, 65, 68] {
        m, shouldSpaceIndex := HEAD, 4;
      }
    } else if bs[0] == 68 {
      if bs[1..6] == [69, 76, 69, 84, 69] {
        m, shouldSpaceIndex := DELETE, 6;
      }
    } else if bs[0] == 79 {
      if bs[1..7] == [80, 84, 73, 79, 78, 83] {
        m, shouldSpaceIndex := OPTIONS, 7;
      }
    } else if bs[0] == 67 {
      if bs[1..7] == [79, 78, 78, 69, 67, 84] {
        m, shouldSpaceIndex := CONNECT, 7;
      }
    }
  }

  predicate StartsWith(bs: seq<byte>, first: byte, rest: seq<byte>)
  {
    |bs| > |rest| && bs[0] == first && bs[1..|rest| + 1] == rest
  }

  lemma PrefixIs(bs: seq<byte>, first: byte, rest: seq<byte>)
    ensures StartsWith(bs, first, rest) <==> [first] + rest <= bs
  {
    var name := [first] + rest;
    if StartsWith(bs, first, rest) {
      assert bs[..|name|] == [bs[0]] + bs[1..|rest| + 1];
    }
  }

  lemma NamesByParts(bs: seq<byte>)
    ensures StartsWith(bs, 71, [69, 84]) <==> Name(GET) <= bs
    ensures StartsWith(bs, 80, [85, 84]) <==> Name(PUT) <= bs
    ensures StartsWith(bs, 80, [79, 83, 84]) <==> Name(POST) <= bs
    ensures StartsWith(bs, 72, [69, 65, 68]) <==> Name(HEAD) <= bs
    ensures StartsWith(bs, 68, [69, 76, 69, 84, 69]) <==> Name(DELETE) <= bs
    ensures StartsWith(bs, 79, [80, 84, 73, 79, 78, 83]) <==> Name(OPTIONS) <= bs
    ensures StartsWith(bs, 67, [79, 78, 78, 69, 67, 84]) <==> Name(CONNECT) <= bs
  {
    forall first: byte, rest: seq<byte> ensures StartsWith(bs, first, rest) <==> [first] + rest <= bs {
      PrefixIs(bs, first, rest);
    }
    assert [71] + [69, 84] == Name(GET) && [80] + [85, 84] == Name(PUT) && [80] + [79, 83, 84] == Name(POST);
    assert [72] + [69, 65, 68] == Name(HEAD) && [68] + [69, 76, 69, 84, 69] == Name(DELETE);
    assert [79] + [80, 84, 73, 79, 78, 83] == Name(OPTIONS) && [67] + [79, 78, 78, 69, 67, 84] == Name(CONNECT);
  }

  method ParseH1Request(bs: seq<byte>, isProxy: bool) returns (request: Request)
    ensures request == Parse(bs, isProxy)
  {
    request := EMPTY;
    if |bs| < 16 {
      return request.(error := Some(TooShort));
    }
    if bs[4] == STAR {
      return request.(error := Some(NotForH2c));
    }
    var m, shouldSpaceIndex := ReadMethod(bs);
    request := request.(verb := m);
    if m == CONNECT && !isProxy {
      return request.(error := Some(UnexpectedProxy));
    }
    if shouldSpaceIndex == 0 || bs[shouldSpaceIndex] != SP {
      return request.(error := Some(SpaceIndexWrong));
    }
    request := ScanPath(bs, isProxy, request, shouldSpaceIndex + 1);
  }

  method ScanPath(bs: seq<byte>, isProxy: bool, r: Request, slash: nat) returns (request: Request)
    requires |bs| >= MIN_LEN && slash <= 8
    ensures request == ParsePath(bs, isProxy, r, slash)
  {
    request := r;
    if isProxy {
      if request.verb != CONNECT && bs[slash..slash + 7] != HTTP_SCHEME {
        return request.(error := Some(ExpectCONNECTButNot));
      }
    } else if bs[slash] != SLASH {
      return request.(error := Some(NoSlash));
    }
    var last := |bs|;
    if !isProxy && last > MAX_PARSE_URL_LEN {
      last := MAX_PARSE_URL_LEN;
    }
    for i := slash to last
      invariant FirstStop(bs, i, last) == FirstStop(bs, slash, last)
    {
      var b := bs[i];
      if b == CR || b == LF {
        return request.(error := Some(EarlyLinefeed));
      }
      if b == SP {
        if |bs| - i - 1 < 10 {
          return request.(error := Some(FirstLineLessThan10));
        }
        request := ReadLine(bs, request.(path := bs[slash..i]), i);
        return;
      }
    }
    request := request.(lastChecked := last);
  }

  method ReadLine(bs: seq<byte>, r: Request, i: nat) returns (request: Request)
    requires i + 11 <= |bs|
    ensures request == ParseLine(bs, r, i)
  {
    request := r;
    if bs[i + 1..i + 5] != HTTP {
      return request.(error := Some(StrHttpNotFoundInRightPlace));
    }
    request := request.(version := bs[i + 6..i + 9]);
    if bs[i + 9] != CR || bs[i + 10] != LF {
      return request.(error := Some(NoEndMark));
    }
    assert bs[i + 9..i + 11] == CRLF;
    request := ReadHeaders(bs[i + 11..], request);
  }

  /** Splits the header bytes into lines and pushes one header a line. */
  method ReadHeaders(left: seq<byte>, r: Request) returns (request: Request)
    ensures request == ParseHeaders(left, r)
  {
    request := r;
    var end := Find(left, HEADER_END);
    if end.None? {
      return request.(error := Some(NoEndMark2));
    }
    FindBound(left, HEADER_END);
    var list := Split(left[..end.value], CRLF);
    for i := 0 to |list|
      invariant request == r.(headers := request.headers)
      invariant Pushed(r.headers, HeadersOf(list)) == Pushed(request.headers, HeadersOf(list[i..]))
    {
      var header := list[i];
      assert list[i..][1..] == list[i + 1..];
      var colon := Find(header, COLON_SPACE);
      if colon.None? {
        assert request.headers + [] == request.headers;
        return request.(error := Some(HeaderNoColonOrColonNotFollowedBySpace));
      }
      FindBound(header, COLON_SPACE);
      var h := Header(header[..colon.value], header[colon.value + 2..]);
      PushOne(request.headers, h, HeadersOf(list[i + 1..]));
      request := request.(headers := request.headers + [h]);
    }
    assert request.headers + [] == request.headers;
    request := request.(bodyStart := end.value + 4);
  }

  function Pushed(before: seq<Header>, more: (seq<Header>, bool)): (seq<Header>, bool) {
    (before + more.0, more.1)
  }

  lemma PushOne(before: seq<Header>, h: Header, more: (seq<Header>, bool))
    ensures Pushed(before, ([h] + more.0, more.1)) == Pushed(before + [h], more)
  {
    assert before + ([h] + more.0) == before + [h] + more.0;
  }
}
