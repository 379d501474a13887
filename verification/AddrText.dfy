/** Addresses as URLs: printing, parsing, and when the one undoes the other. Text is a byte string. */
module AddrText {
  import opened Bytes
  import opened Text
  import opened AddrCodec

  const COLON: seq<byte> := [58]
  const HASH: seq<byte> := [35]
  const OPEN: byte := 91
  const CLOSE: byte := 93
  const CLOSE_COLON: seq<byte> := [93, 58]
  const SCHEME_END: seq<byte> := [58, 47, 47]
  const PORTS: nat := 0x1_0000

  /** How IP addresses are printed and parsed. */
  datatype IpText = IpText(show: Ip -> seq<byte>, parse: seq<byte> -> Option<Ip>)

  /** Parsing undoes printing, and printed addresses hold none of the URL's separators. */
  ghost predicate Faithful(t: IpText) {
    forall ip: Ip :: t.parse(t.show(ip)) == Some(ip) && IpClear(t, ip)
  }

  predicate IpClear(t: IpText, ip: Ip) {
    && Clear(t.show(ip), HASH) && OPEN !in t.show(ip) && CLOSE !in t.show(ip)
    && (ip.V4? ==> Clear(t.show(ip), COLON))
  }

  function Chars(bs: seq<byte>): string {
    seq(|bs|, i requires 0 <= i < |bs| => bs[i] as char)
  }

  function Number(n: nat): seq<byte> {
    Ascii(Decimal(n))
  }

  function ParsePort(s: seq<byte>): Option<nat> {
    ParseUnsigned(Chars(s), PORTS)
  }

  function NetworkName(n: Network): seq<byte> {
    match n
    case IP => [105, 112]
    case TCP => [116, 99, 112]
    case UDP => [117, 100, 112]
    case Unix => [117, 110, 105, 120]
  }

  function Lower(s: seq<byte>): seq<byte> {
    seq(|s|, i requires 0 <= i < |s| => if 65 <= s[i] <= 90 then s[i] + 32 else s[i])
  }

  function NetworkOf(s: seq<byte>): Option<Network> {
    var l := Lower(s);
    if l == NetworkName(IP) then Some(IP)
    else if l == NetworkName(TCP) then Some(TCP)
    else if l == NetworkName(UDP) then Some(UDP)
    else if l == NetworkName(Unix) then Some(Unix)
    else None
  }

  function SocketText(t: IpText, so: Socket): seq<byte> {
    match so.ip
    case V4(_) => t.show(so.ip) + COLON + Number(so.port)
    case V6(_) => [OPEN] + t.show(so.ip) + CLOSE_COLON + Number(so.port)
  }

  /** Without the network; printing a socket under the unix network panics. */
  function AddrStr(t: IpText, a: Addr): Option<seq<byte>> {
    match a.network
    case IP =>
      (match a.addr
       case AtSocket(so) => Some(SocketText(t, so))
       case AtName(n, _) => Some(n)
       case AtNameAndSocket(_, so, _) => Some(SocketText(t, so)))
    case Unix =>
      (match a.addr
       case AtSocket(_) => None
       case AtName(n, _) => Some(n)
       case AtNameAndSocket(n, _, _) => Some(n))
    case _ =>
      match a.addr
      case AtName(n, p) => Some(n + COLON + Number(p))
      case _ => Some(SocketText(t, a.addr.so))
  }

  /** The URL of an address; an IP address carries its name behind a hash sign. */
  function Display(t: IpText, a: Addr): Option<seq<byte>> {
    match AddrStr(t, a)
    case None => None
    case Some(s) =>
      var name := if a.network == IP && a.addr.AtNameAndSocket? then HASH + a.addr.name else [];
      Some(NetworkName(a.network) + SCHEME_END + s + name)
  }

  /** The text before and after the first occurrence of a separator. */
  function SplitOnce(s: seq<byte>, pat: seq<byte>): Option<(seq<byte>, seq<byte>)> {
    match Find(s, pat)
    case None => None
    case Some(k) =>
      FindBound(s, pat);
      Some((s[..k], s[k + |pat|..]))
  }

  function SetName(a: Addr, n: seq<byte>): Addr {
    match a.addr
    case AtSocket(so) => a.(addr := AtNameAndSocket(n, so, so.port))
    case AtName(_, p) => a.(addr := AtName(n, p))
    case AtNameAndSocket(_, so, p) => a.(addr := AtNameAndSocket(n, so, p))
  }

  /** The parts of an address text: around the brackets of an IPv6 address, otherwise around colons. */
  function Parts(s: seq<byte>): seq<seq<byte>> {
    if s != [] && s[0] == OPEN && Find(s, CLOSE_COLON).Some? then Split(s[1..], CLOSE_COLON) else Split(s, COLON)
  }

  function FromAddrStr(t: IpText, network: seq<byte>, s: seq<byte>): Option<Addr> {
    var ns := Parts(s);
    var port := if |ns| != 2 then Some(0) else ParsePort(ns[1]);
    if port.None? then None
    else
      match NetworkOf(network)
      case None => None
      case Some(n) =>
        match t.parse(ns[0])
        case Some(ip) => Some(Addr(AtSocket(Socket(ip, port.value)), n))
        case None => Some(Addr(AtName(ns[0], port.value), n))
  }

  function FromNetworkAddrUrl(t: IpText, s: seq<byte>): Option<Addr> {
    match SplitOnce(s, SCHEME_END)
    case None => FromAddrStr(t, NetworkName(TCP), s)
    case Some((n, rest)) => FromAddrStr(t, n, rest)
  }

  function FromNameNetworkAddrUrl(t: IpText, s: seq<byte>): Option<Addr> {
    match SplitOnce(s, HASH)
    case None => FromNetworkAddrUrl(t, s)
    case Some((front, name)) =>
      match FromNetworkAddrUrl(t, front)
      case None => None
      case Some(a) => Some(SetName(a, name))
  }

  lemma NumberReadsBack(n: nat)
    requires n < PORTS
    ensures ParsePort(Number(n)) == Some(n) && Clear(Number(n), COLON) && Clear(Number(n), HASH)
    ensures CLOSE !in Number(n)
  {
    DecimalDigits(n);
    ParseDecimal(n, PORTS);
    var d := Decimal(n);
    forall i | 0 <= i < |d| ensures 48 <= Number(n)[i] <= 57 && Chars(Number(n))[i] == d[i] {
      assert d[i] in d && IsDigit(d[i]);
    }
    assert Chars(Number(n)) == d;
  }

  lemma NetworkReadsBack(n: Network)
    ensures NetworkOf(NetworkName(n)) == Some(n)
    ensures Clear(NetworkName(n), SCHEME_END) && Clear(NetworkName(n), HASH)
  {
    assert Lower(NetworkName(n)) == NetworkName(n);
  }

  /** A URL without a hash sign in its address part, and what its address part is parsed as. */
  lemma UrlSplits(t: IpText, n: Network, s: seq<byte>)
    ensures FromNetworkAddrUrl(t, NetworkName(n) + SCHEME_END + s) == FromAddrStr(t, NetworkName(n), s)
  {
    var name := NetworkName(n);
    var url := name + SCHEME_END + s;
    NetworkReadsBack(n);
    FindAfterClear(name, SCHEME_END, s);
    assert url[..|name|] == name && url[|name| + 3..] == s;
  }

  lemma PlainUrl(t: IpText, n: Network, s: seq<byte>)
    requires Clear(s, HASH)
    ensures FromNameNetworkAddrUrl(t, NetworkName(n) + SCHEME_END + s) == FromAddrStr(t, NetworkName(n), s)
  {
    var url := NetworkName(n) + SCHEME_END + s;
    NetworkReadsBack(n);
    assert Clear(url, HASH) by {
      forall c | c in url ensures c !in HASH {
        assert c in NetworkName(n) || c in SCHEME_END || c in s;
      }
    }
    FindInClear(url, HASH);
    UrlSplits(t, n, s);
  }

  lemma NamedUrl(t: IpText, n: Network, s: seq<byte>, name: seq<byte>, a: Addr)
    requires Clear(s, HASH) && FromAddrStr(t, NetworkName(n), s) == Some(a)
    ensures FromNameNetworkAddrUrl(t, NetworkName(n) + SCHEME_END + s + (HASH + name)) == Some(SetName(a, name))
  {
    var front := NetworkName(n) + SCHEME_END + s;
    NetworkReadsBack(n);
    assert Clear(front, HASH) by {
      forall c | c in front ensures c !in HASH {
        assert c in NetworkName(n) || c in SCHEME_END || c in s;
      }
    }
    FindAfterClear(front, HASH, name);
    var url := front + HASH + name;
    assert front + (HASH + name) == url && url[..|front|] == front && url[|front| + 1..] == name;
    UrlSplits(t, n, s);
  }

  /** Two parts without a colon, joined by one, come apart again. */
  lemma ColonSplits(x: seq<byte>, y: seq<byte>)
    requires Clear(x, COLON) && Clear(y, COLON)
    ensures Split(x + COLON + y, COLON) == [x, y]
  {
    var parts := [x, y];
    assert parts[1..] == [y];
    SplitJoin(parts, COLON);
  }

  lemma BracketSplits(x: seq<byte>, y: seq<byte>)
    requires CLOSE !in x && CLOSE !in y
    ensures Split(x + CLOSE_COLON + y, CLOSE_COLON) == [x, y]
  {
    var s := x + CLOSE_COLON + y;
    assert s[|x|..|x| + 2] == CLOSE_COLON;
    forall j: nat | j < |x| ensures !At(s, CLOSE_COLON, j) {
      assert s[j] == x[j] && s[j..j + 2][0] == s[j];
    }
    FindIs(s, CLOSE_COLON, |x|);
    NoBracket(y);
    assert s[..|x|] == x && s[|x| + 2..] == y;
    assert [x] + [y] == [x, y];
  }

  lemma NoBracket(y: seq<byte>)
    requires CLOSE !in y
    ensures Find(y, CLOSE_COLON) == None && Split(y, CLOSE_COLON) == [y]
  {
    forall j: nat ensures !At(y, CLOSE_COLON, j) {
      if j + 2 <= |y| {
        assert y[j] in y && y[j..j + 2][0] == y[j];
      }
    }
    FindNone(y, CLOSE_COLON);
  }

  /** A printed socket is read back under any network. */
  lemma SocketReadsBack(t: IpText, n: Network, so: Socket)
    requires Faithful(t)
    ensures FromAddrStr(t, NetworkName(n), SocketText(t, so)) == Some(Addr(AtSocket(so), n))
    ensures Clear(SocketText(t, so), HASH)
  {
    assert IpClear(t, so.ip);
    NumberReadsBack(so.port);
    NetworkReadsBack(n);
    SocketClear(t, so);
    SocketParts(t, so);
  }

  lemma SocketParts(t: IpText, so: Socket)
    requires IpClear(t, so.ip)
    ensures Parts(SocketText(t, so)) == [t.show(so.ip), Number(so.port)]
  {
    var ip, port, s := t.show(so.ip), Number(so.port), SocketText(t, so);
    NumberReadsBack(so.port);
    if so.ip.V4? {
      ColonSplits(ip, port);
      assert s[0] != OPEN;
    } else {
      BracketSplits(ip, port);
      assert s[1..] == ip + CLOSE_COLON + port;
      BracketFound([OPEN] + ip, port);
    }
  }

  lemma SocketClear(t: IpText, so: Socket)
    requires IpClear(t, so.ip)
    ensures Clear(SocketText(t, so), HASH)
  {
    NumberReadsBack(so.port);
    forall c | c in SocketText(t, so) ensures c !in HASH {
      assert c in t.show(so.ip) || c in Number(so.port) || c == OPEN || c in CLOSE_COLON;
    }
  }

  lemma BracketFound(x: seq<byte>, y: seq<byte>)
    ensures Find(x + CLOSE_COLON + y, CLOSE_COLON).Some?
  {
    var s := x + CLOSE_COLON + y;
    FindFound(s, CLOSE_COLON);
    assert s[|x|..|x| + 2] == CLOSE_COLON;
    assert At(s, CLOSE_COLON, |x|);
  }

  /** The URL of a socket address, without a name or with one, is read back; the port is the socket's. */
  lemma SocketUrl(t: IpText, a: Addr)
    requires Faithful(t) && !a.addr.AtName? && !a.network.Unix?
    ensures Display(t, a).Some?
    ensures FromNameNetworkAddrUrl(t, Display(t, a).value)
         == Some(Addr(
                   if a.addr.AtNameAndSocket? && a.network == IP
                   then AtNameAndSocket(a.addr.name, a.addr.so, a.addr.so.port)
                   else AtSocket(a.addr.so),
                   a.network))
  {
    var s := SocketText(t, a.addr.so);
    SocketReadsBack(t, a.network, a.addr.so);
    if a.addr.AtNameAndSocket? && a.network == IP {
      NamedUrl(t, IP, s, a.addr.name, Addr(AtSocket(a.addr.so), IP));
    } else {
      PlainUrl(t, a.network, s);
      assert NetworkName(a.network) + SCHEME_END + s + [] == NetworkName(a.network) + SCHEME_END + s;
    }
  }

  /**
   * An address with a socket survives printing and parsing if and only if it has no name, or is a
   * named IP address whose port is the socket's.
   */
  lemma SocketRoundTrip(t: IpText, a: Addr)
    requires Faithful(t) && !a.addr.AtName? && !a.network.Unix?
    ensures Display(t, a).Some?
    ensures FromNameNetworkAddrUrl(t, Display(t, a).value) == Some(a)
            <==> a.addr.AtSocket? || (a.network == IP && a.addr.port == a.addr.so.port)
  {
    SocketUrl(t, a);
  }

  /** Text that a bracket opens and closes, as around an IPv6 address. */
  predicate Bracketed(n: seq<byte>) {
    n != [] && n[0] == OPEN && n[|n| - 1] == CLOSE
  }

  lemma NamePart(n: seq<byte>, port: nat)
    requires Clear(n, COLON) && port < PORTS
    ensures var s := n + COLON + Number(port);
            Find(s, CLOSE_COLON).Some? <==> n != [] && n[|n| - 1] == CLOSE
  {
    var s := n + COLON + Number(port);
    NumberReadsBack(port);
    FindFound(s, CLOSE_COLON);
    if n != [] && n[|n| - 1] == CLOSE {
      assert s[|n| - 1..|n| + 1] == CLOSE_COLON;
      assert At(s, CLOSE_COLON, |n| - 1);
    } else if Find(s, CLOSE_COLON).Some? {
      OnlyColon(n, Number(port), Find(s, CLOSE_COLON).value);
    }
  }

  /** The one colon stands right behind the name. */
  lemma OnlyColon(n: seq<byte>, num: seq<byte>, k: nat)
    requires Clear(n, COLON) && Clear(num, COLON) && At(n + COLON + num, CLOSE_COLON, k)
    ensures k + 1 == |n| && n[k] == CLOSE
  {
    var s := n + COLON + num;
    assert s[k..k + 2][1] == s[k + 1] == 58 && s[k..k + 2][0] == s[k] == CLOSE;
    if k + 1 != |n| {
      ElsewhereNoColon(n, num, k + 1);
    }
  }

  lemma ElsewhereNoColon(n: seq<byte>, num: seq<byte>, i: nat)
    requires Clear(n, COLON) && Clear(num, COLON) && i < |n + COLON + num| && i != |n|
    ensures (n + COLON + num)[i] != 58
  {
    if i < |n| {
      assert n[i] in n;
    } else {
      assert num[i - |n| - 1] in num;
    }
  }

  /** What is printed behind a name: the port, unless the network has none. */
  function Tail(net: Network, port: Port): seq<byte> {
    if net == TCP || net == UDP then COLON + Number(port) else []
  }

  lemma NameDisplayed(t: IpText, n: seq<byte>, port: Port, net: Network)
    ensures Display(t, Addr(AtName(n, port), net)) == Some(NetworkName(net) + SCHEME_END + (n + Tail(net, port)))
  {
    assert n + COLON + Number(port) == n + (COLON + Number(port));
    assert n + [] == n;
    var s := NetworkName(net) + SCHEME_END + (n + Tail(net, port));
    assert s + [] == s;
  }

  lemma {:induction false} AllSame(s: seq<byte>, m: nat)
    requires m < |s| && forall i :: 0 <= i < m ==> s[i + 1] == s[i]
    ensures s[m] == s[0]
  {
    if m > 0 {
      AllSame(s, m - 1);
      assert s[m - 1 + 1] == s[m - 1];
    }
  }

  /** A name that is followed by itself one place on repeats one byte up to the tail. */
  lemma TailLikeFront(n: seq<byte>, tail: seq<byte>)
    requires tail != [] && (n + tail)[1..][..|n|] == n
    ensures tail[0] == (n + tail)[0]
  {
    var s := n + tail;
    forall i | 0 <= i < |n| ensures s[i + 1] == s[i] {
      assert s[1..][..|n|][i] == s[i + 1] && n[i] == s[i];
    }
    AllSame(s, |n|);
    assert s[|n|] == tail[0];
  }

  /** Where brackets are taken off, what stands before the closing one is not the whole name. */
  lemma BracketNever(n: seq<byte>, tail: seq<byte>)
    requires tail == [] || (|tail| >= 2 && tail[0] == 58)
    requires var s := n + tail; s != [] && s[0] == OPEN
    ensures Split((n + tail)[1..], CLOSE_COLON)[0] != n
  {
    var rest := (n + tail)[1..];
    FindBound(rest, CLOSE_COLON);
    if tail != [] && rest[..|n|] == n {
      TailLikeFront(n, tail);
    }
  }

  /** What stands before the first colon is not the whole of a name that holds one. */
  lemma ColonNever(n: seq<byte>, tail: seq<byte>)
    requires !Clear(n, COLON)
    ensures Split(n + tail, COLON)[0] != n
  {
    var s := n + tail;
    var c :| c in n && c in COLON;
    var j :| 0 <= j < |n| && n[j] == c;
    assert s[j..j + 1] == COLON;
    assert At(s, COLON, j);
    FindFound(s, COLON);
  }

  lemma {:induction false} ReachesTail(w: seq<byte>, n: nat, step: nat, i: nat) returns (j: nat)
    requires 0 < step && |w| == n + step && i < |w|
    requires forall k :: 0 <= k < n ==> w[k + step] == w[k]
    ensures n <= j < |w| && w[j] == w[i]
    decreases |w| - i
  {
    if i < n {
      assert w[i + step] == w[i];
      j := ReachesTail(w, n, step, i + step);
    } else {
      j := i;
    }
  }

  /** A name that is its own end behind a hash sign, and the tail, has one in the tail too. */
  lemma TailHasHash(n: seq<byte>, tail: seq<byte>, k: nat)
    requires k < |n| && n[k] in HASH && n[k + 1..] + tail == n
    ensures !Clear(tail, HASH)
  {
    var w := n + tail;
    assert n[k + 1..] + tail == w[k + 1..];
    forall i | 0 <= i < |n| ensures w[i + (k + 1)] == w[i] {
      assert n[i] == w[k + 1..][i] == w[i + (k + 1)];
    }
    var j := ReachesTail(w, |n|, k + 1, k);
    assert w[j] == tail[j - |n|];
  }

  /** What stands behind the first hash sign is not the whole of a name that holds one. */
  lemma HashNever(n: seq<byte>, tail: seq<byte>, k: nat)
    requires k < |n| && n[k] in HASH && Clear(tail, HASH)
    ensures n[k + 1..] + tail != n
  {
    if n[k + 1..] + tail == n {
      TailHasHash(n, tail, k);
    }
  }

  /** The URL of a name with a hash sign loses the front of the name. */
  lemma HashUrl(t: IpText, n: seq<byte>, tail: seq<byte>, a: Addr)
    requires !Clear(n, HASH) && Clear(tail, HASH) && a.addr.AtName? && a.addr.name == n
    ensures FromNameNetworkAddrUrl(t, NetworkName(a.network) + SCHEME_END + (n + tail)) != Some(a)
  {
    var front := NetworkName(a.network) + SCHEME_END;
    var k := FirstHash(n);
    NetworkReadsBack(a.network);
    HashSplits(front, n, tail, k);
    HashNever(n, tail, k);
  }

  lemma {:induction false} FirstHash(n: seq<byte>) returns (k: nat)
    requires !Clear(n, HASH)
    ensures k < |n| && n[k] in HASH && Clear(n[..k], HASH)
  {
    if n[0] in HASH {
      k := 0;
    } else {
      assert forall c :: c in n ==> c == n[0] || c in n[1..];
      k := FirstHash(n[1..]);
      assert n[..k + 1] == [n[0]] + n[1..][..k];
      k := k + 1;
    }
  }

  lemma HashSplits(front: seq<byte>, n: seq<byte>, tail: seq<byte>, k: nat)
    requires Clear(front, HASH) && k < |n| && n[k] in HASH && Clear(n[..k], HASH)
    ensures SplitOnce(front + (n + tail), HASH) == Some((front + n[..k], n[k + 1..] + tail))
  {
    var part, rest := front + n[..k], n[k + 1..] + tail;
    assert Clear(part, HASH) by {
      forall c | c in part ensures c !in HASH {
        assert c in front || c in n[..k];
      }
    }
    FindAfterClear(part, HASH, rest);
    var url := part + HASH + rest;
    assert front + (n + tail) == url;
    assert url[..|part|] == part && url[|part| + 1..] == rest;
  }

  /** The first part of the text of a name is the name if and only if that has no colon and no brackets. */
  lemma NameFirst(n: seq<byte>, port: Port, net: Network)
    ensures (Parts(n + Tail(net, port))[0] == n
        <==> Clear(n, COLON) && !(Tail(net, port) != [] && Bracketed(n)))
    ensures Clear(n, COLON) && !(Tail(net, port) != [] && Bracketed(n)) ==>
              Parts(n + Tail(net, port)) == if Tail(net, port) == [] then [n] else [n, Number(port)]
  {
    var tail := Tail(net, port);
    var s := n + tail;
    NumberReadsBack(port);
    TailLong(net, port);
    if Clear(n, COLON) {
      if tail == [] {
        BareParts(n);
      } else {
        assert s == n + COLON + Number(port);
        PortParts(n, port);
      }
    } else {
      ColonNever(n, tail);
      if s[0] == OPEN {
        BracketNever(n, tail);
      }
    }
  }

  lemma TailLong(net: Network, port: Port)
    ensures Tail(net, port) == [] || (|Tail(net, port)| >= 2 && Tail(net, port)[0] == 58)
  {
    assert |Number(port)| == |Decimal(port)|;
  }

  lemma BareParts(n: seq<byte>)
    requires Clear(n, COLON)
    ensures Parts(n) == [n] && Parts(n + []) == [n]
  {
    assert n + [] == n;
    FindInClear(n, COLON);
    forall k: nat ensures !At(n, CLOSE_COLON, k) {
      if k + 2 <= |n| {
        assert n[k + 1] in n && n[k..k + 2][1] == n[k + 1];
      }
    }
    FindNone(n, CLOSE_COLON);
  }

  lemma PortParts(n: seq<byte>, port: Port)
    requires Clear(n, COLON)
    ensures var parts := Parts(n + COLON + Number(port));
            if Bracketed(n) then parts[0] != n else parts == [n, Number(port)]
  {
    var s := n + COLON + Number(port);
    NumberReadsBack(port);
    NamePart(n, port);
    assert n != [] ==> s[0] == n[0];
    if Bracketed(n) {
      assert s == n + (COLON + Number(port));
      TailLong(TCP, port);
      BracketNever(n, COLON + Number(port));
    } else {
      ColonSplits(n, Number(port));
    }
  }

  /** How the text of a name without a hash sign is parsed. */
  lemma NameParses(t: IpText, net: Network, n: seq<byte>, port: Port)
    ensures FromAddrStr(t, NetworkName(net), n + Tail(net, port)) == Some(Addr(AtName(n, port), net))
            <==> && Clear(n, COLON) && t.parse(n).None?
                 && if net == TCP || net == UDP then !Bracketed(n) else port == 0
  {
    NumberReadsBack(port);
    NetworkReadsBack(net);
    NameFirst(n, port, net);
  }

  /**
   * A named address, on any network, survives printing and parsing if and only if its name holds
   * no colon and no hash sign and is no IP text, and the port is printed and the name not wrapped
   * in brackets, or the port is zero.
   */
  lemma NameRoundTrip(t: IpText, n: seq<byte>, port: Port, net: Network)
    ensures var a := Addr(AtName(n, port), net);
            && Display(t, a).Some?
            && (FromNameNetworkAddrUrl(t, Display(t, a).value) == Some(a)
                <==> && Clear(n, COLON) && Clear(n, HASH) && t.parse(n).None?
                     && if net == TCP || net == UDP then !Bracketed(n) else port == 0)
  {
    var tail := Tail(net, port);
    var s := n + tail;
    NameDisplayed(t, n, port, net);
    NumberReadsBack(port);
    assert Clear(tail, HASH);
    if !Clear(n, HASH) {
      HashUrl(t, n, tail, Addr(AtName(n, port), net));
    } else {
      assert forall c :: c in s ==> c in n || c in tail;
      PlainUrl(t, net, s);
      NameParses(t, net, n, port);
    }
  }

  /** How an address is printed, on each network: a socket under the unix network is not. */
  lemma PrintedAs(t: IpText, a: Addr)
    ensures Display(t, a) == match a.network
      case Unix => if a.addr.AtSocket? then None else Some(Ascii("unix://") + a.addr.name)
      case IP =>
        Some(Ascii("ip://") + if a.addr.AtName? then a.addr.name
                              else SocketPrinted(t, a.addr.so)
                                   + if a.addr.AtSocket? then [] else Ascii("#") + a.addr.name)
      case TCP => Some(Ascii("tcp://") + Served(t, a.addr))
      case UDP => Some(Ascii("udp://") + Served(t, a.addr))
  {
    NamesInText(a.network);
    assert Ascii(":") == COLON && Ascii("]:") == CLOSE_COLON && Ascii("[") == [OPEN] && Ascii("#") == HASH;
    var s := AddrStr(t, a);
    if s.Some? {
      var name := if a.network == IP && a.addr.AtNameAndSocket? then HASH + a.addr.name else [];
      Joined(NetworkName(a.network) + SCHEME_END, s.value, name);
    }
  }

  lemma Joined(front: seq<byte>, s: seq<byte>, name: seq<byte>)
    ensures front + s + name == front + (s + name) && s + [] == s && front + s + [] == front + s
  {
  }

  /** A socket as text: address and port, the address in brackets if it is an IPv6 one. */
  function SocketPrinted(t: IpText, so: Socket): seq<byte> {
    if so.ip.V4? then t.show(so.ip) + Ascii(":") + Number(so.port)
    else Ascii("[") + t.show(so.ip) + Ascii("]:") + Number(so.port)
  }

  /** What a stream or datagram address shows: a bare name and its port, or else the socket. */
  function Served(t: IpText, a: NetAddr): seq<byte> {
    if a.AtName? then a.name + Ascii(":") + Number(a.port) else SocketPrinted(t, a.so)
  }

  lemma NamesInText(n: Network)
    ensures (NetworkName(n) + SCHEME_END
          == match n case IP => Ascii("ip://") case TCP => Ascii("tcp://") case UDP => Ascii("udp://")
                     case Unix => Ascii("unix://"))
    ensures (NetworkName(n)
          == match n case IP => Ascii("ip") case TCP => Ascii("tcp") case UDP => Ascii("udp")
                     case Unix => Ascii("unix"))
  {
  }

  /** The same letters in either case; `name` has small ones. */
  predicate Reads(s: seq<byte>, name: seq<byte>) {
    |s| == |name| && forall i :: 0 <= i < |s| ==> s[i] == name[i] || s[i] as int + 32 == name[i]
  }

  /** A network is named in small or capital letters, and nothing else names one. */
  lemma NetworkNamedExactly(s: seq<byte>, n: Network)
    ensures NetworkOf(s) == Some(n) <==> Reads(s, NetworkName(n))
  {
    LowerIs(s, NetworkName(n));
    NetworksDiffer(n);
  }

  lemma LowerIs(s: seq<byte>, name: seq<byte>)
    requires forall c :: c in name ==> 97 <= c <= 122
    ensures Lower(s) == name <==> Reads(s, name)
  {
    if Lower(s) == name {
      forall i | 0 <= i < |s| ensures s[i] == name[i] || s[i] as int + 32 == name[i] {
        assert Lower(s)[i] == name[i];
      }
    } else if Reads(s, name) {
      forall i | 0 <= i < |s| ensures Lower(s)[i] == name[i] {
        assert name[i] in name;
      }
    }
  }

  lemma NetworksDiffer(n: Network)
    ensures forall m :: NetworkName(m) == NetworkName(n) ==> m == n
  {
    forall m | NetworkName(m) == NetworkName(n) ensures m == n {
      assert NetworkName(m)[0] == NetworkName(n)[0];
    }
  }

  /** A URL that names no network is one of TCP. */
  lemma DefaultsToTcp(t: IpText, s: seq<byte>)
    requires Find(s, Ascii("://")) == None
    ensures FromNetworkAddrUrl(t, s) == FromNetworkAddrUrl(t, Ascii("tcp://") + s)
  {
    NamesInText(TCP);
    assert Ascii("://") == SCHEME_END;
    UrlSplits(t, TCP, s);
  }

  /** Text fails to parse if and only if it has two parts of which the second is no port, or the network is unknown. */
  lemma FailsExactly(t: IpText, network: seq<byte>, s: seq<byte>)
    ensures FromAddrStr(t, network, s) == None <==>
      || (|Parts(s)| == 2 && ParsePort(Parts(s)[1]) == None)
      || forall n :: !Reads(network, NetworkName(n))
  {
    forall n ensures NetworkOf(network) == Some(n) <==> Reads(network, NetworkName(n)) {
      NetworkNamedExactly(network, n);
    }
  }

  /** Naming an address changes its name alone; a socket without one gets its own port again. */
  lemma NamingKeeps(a: Addr, n: seq<byte>)
    ensures var r := SetName(a, n);
            && r.network == a.network && !r.addr.AtSocket? && r.addr.name == n
            && (r.addr.AtName? <==> a.addr.AtName?) && (!a.addr.AtName? ==> r.addr.so == a.addr.so)
            && r.addr.port == if a.addr.AtSocket? then a.addr.so.port else a.addr.port
  {
  }
}
