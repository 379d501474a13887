/** What a SOCKS5 server makes of any list of offered methods. */
module Socks5Offers {
  import opened Bytes
  import opened AddrCodec
  import opened Chunked
  import opened Users
  import opened Socks5
  import opened Socks5Client
  import opened Socks5Agreement

  /** A hello that offers these methods. */
  function Offer(methods: seq<byte>): seq<byte>
    requires |methods| <= 255
  {
    [5, |methods|] + methods
  }

  /** `m` is offered, and up to there `other` at most once. */
  predicate StandsBefore(methods: seq<byte>, m: byte, other: byte) {
    exists j :: 0 <= j < |methods| && methods[j] == m && AtMostOnce(methods[..j], other)
  }

  predicate AtMostOnce(methods: seq<byte>, m: byte) {
    forall i, j :: 0 <= i < j < |methods| ==> methods[i] != m || methods[j] != m
  }

  /** The method that the server answers with; 255 if none will do. */
  function Choice(hasUsers: bool, methods: seq<byte>): byte {
    if hasUsers then (if StandsBefore(methods, 2, 0) then 2 else 255)
    else if StandsBefore(methods, 0, 2) then 0 else 255
  }

  /** The server's working state once it has read the hello alone. */
  function Greeted(methods: seq<byte>, more: seq<seq<byte>>): Work
    requires |methods| <= 255
  {
    Work(Overwrite(Zeros(BUF_LEN), Offer(methods)), |methods| + 2, Conn(more, []))
  }

  lemma ReadsOffer(methods: seq<byte>, more: seq<seq<byte>>)
    requires |methods| <= 255
    ensures Hello(Conn([Offer(methods)] + more, []), None) == Greeted(methods, more)
    ensures var w := Greeted(methods, more);
            Sound(w) && |w.buf| == BUF_LEN && w.buf[..w.n] == Offer(methods) && w.buf[2..w.n] == methods
  {
    assert ([Offer(methods)] + more)[1..] == more;
    var w := Greeted(methods, more);
    assert w.buf[2..w.n] == w.buf[..w.n][2..];
  }

  /** The method sought and the one that the server passes over once. */
  function Sought(hasUsers: bool): byte {
    if hasUsers then 2 else 0
  }

  function PassedOver(hasUsers: bool): byte {
    if hasUsers then 0 else 2
  }

  /** What the loop knows at index `i` as long as it has neither chosen nor given up. */
  predicate Undecided(um: Auth, methods: seq<byte>, i: nat, none: bool, pass: bool) {
    && 2 <= i <= |methods| + 2
    && Sought(um.Some?) !in methods[..i - 2] && AtMostOnce(methods[..i - 2], PassedOver(um.Some?))
    && (PassedOver(um.Some?) in methods[..i - 2] <==> if um.Some? then none else pass)
    && (if um.Some? then !pass else !none)
  }

  lemma OneMore(methods: seq<byte>, j: nat, m: byte)
    requires j < |methods| && AtMostOnce(methods[..j], m)
    ensures methods[..j + 1] == methods[..j] + [methods[j]]
    ensures AtMostOnce(methods[..j + 1], m) <==> methods[j] != m || m !in methods[..j]
  {
    var more := methods[..j + 1];
    assert more == methods[..j] + [methods[j]];
    if methods[j] == m && m in methods[..j] {
      var i :| 0 <= i < j && methods[..j][i] == m;
      assert more[i] == m && more[j] == m;
    }
  }

  lemma NotBefore(s: seq<byte>, j: nat, m: byte)
    requires j <= |s| && m !in s[..j]
    ensures forall k :: 0 <= k < |s| && s[k] == m ==> j <= k
  {
    assert forall k :: 0 <= k < j ==> s[..j][k] == s[k];
  }

  /** A second occurrence of the method passed over comes before the one sought, which is too late then. */
  lemma TooLate(methods: seq<byte>, j: nat, m: byte, other: byte)
    requires j <= |methods| && m !in methods[..j]
    requires j == |methods| || (methods[j] == other && other in methods[..j] && m != other)
    ensures !StandsBefore(methods, m, other)
  {
    NotBefore(methods, j, m);
    forall k | 0 <= k < |methods| && methods[k] == m ensures !AtMostOnce(methods[..k], other) {
      TwiceBefore(methods, j, k, other);
    }
  }

  lemma TwiceBefore(methods: seq<byte>, j: nat, k: nat, other: byte)
    requires j < k < |methods| && methods[j] == other && other in methods[..j]
    ensures !AtMostOnce(methods[..k], other)
  {
    var i :| 0 <= i < j && methods[..j][i] == other;
    assert methods[..k][i] == other && methods[..k][j] == other;
  }

  /** A turn of the loop for a method that is not the one sought. */
  lemma PassesOver(um: Auth, w: Work, i: nat, end: nat, remain: nat, none: bool, pass: bool)
    requires 3 <= end <= |w.buf| && Sound(w) && remain <= w.n && end <= w.n && 2 <= i < end
    requires w.buf[i] != Sought(um.Some?)
    ensures var m, r := w.buf[i], Negotiate(um, i, end, w, remain, none, pass);
            if m != PassedOver(um.Some?) then r == Negotiate(um, i + 1, end, w, remain, none, pass)
            else if (if um.Some? then none else pass) then r == NotAuthed(w)
            else r == Negotiate(um, i + 1, end, w, remain, none || um.Some?, pass || um.None?)
  {
  }

  /** The loop comes from index `i` to the method sought, or gives up. */
  ghost predicate Found(
    um: Auth, methods: seq<byte>, w: Work, i: nat, remain: nat, none: bool, pass: bool, k: nat, dealt: bool)
    requires Sound(w) && |methods| >= 1 && w.n >= |methods| + 2 && remain <= w.n
  {
    var end, r := |methods| + 2, Negotiate(um, i, |methods| + 2, w, remain, none, pass);
    if Choice(um.Some?, methods) == 255 then r == NotAuthed(w)
    else
      && 2 <= k < end && w.buf[k] == Sought(um.Some?) == Choice(um.Some?, methods)
      && r == Negotiate(um, k, end, w, remain, um.Some? && dealt, um.None? && dealt)
  }

  /**
   * The loop comes to the method sought, with nothing read or written yet, if it stands before a
   * second occurrence of the other one; if not, it gives up.
   */
  lemma {:induction false} LoopFinds(
    um: Auth, methods: seq<byte>, w: Work, i: nat, remain: nat, none: bool, pass: bool)
    returns (k: nat, dealt: bool)
    requires Sound(w) && |methods| >= 1 && w.n >= |methods| + 2 && w.buf[2..|methods| + 2] == methods
    requires remain <= w.n && Undecided(um, methods, i, none, pass)
    ensures Found(um, methods, w, i, remain, none, pass, k, dealt)
    decreases |methods| + 2 - i, 1
  {
    var end, j := |methods| + 2, i - 2;
    k, dealt := 2, false;
    if i == end {
      TooLate(methods, j, Sought(um.Some?), PassedOver(um.Some?));
    } else {
      assert w.buf[i] == w.buf[2..end][j] == methods[j];
      if methods[j] == Sought(um.Some?) {
        k, dealt := i, if um.Some? then none else pass;
        assert StandsBefore(methods, Sought(um.Some?), PassedOver(um.Some?));
      } else {
        k, dealt := LoopGoesOn(um, methods, w, i, remain, none, pass);
      }
    }
  }

  lemma {:induction false} LoopGoesOn(
    um: Auth, methods: seq<byte>, w: Work, i: nat, remain: nat, none: bool, pass: bool)
    returns (k: nat, dealt: bool)
    requires Sound(w) && |methods| >= 1 && w.n >= |methods| + 2 && w.buf[2..|methods| + 2] == methods
    requires remain <= w.n && Undecided(um, methods, i, none, pass) && i < |methods| + 2
    requires methods[i - 2] == w.buf[i] != Sought(um.Some?)
    ensures Found(um, methods, w, i, remain, none, pass, k, dealt)
    decreases |methods| + 2 - i, 0
  {
    var j, other := i - 2, PassedOver(um.Some?);
    PassesOver(um, w, i, |methods| + 2, remain, none, pass);
    OneMore(methods, j, other);
    k, dealt := 2, false;
    if methods[j] == other && other in methods[..j] {
      LoopGivesUp(um, methods, w, i, remain, none, pass);
    } else if methods[j] == other {
      k, dealt := LoopFinds(um, methods, w, i + 1, remain, none || um.Some?, pass || um.None?);
    } else {
      k, dealt := LoopFinds(um, methods, w, i + 1, remain, none, pass);
    }
  }

  lemma LoopGivesUp(um: Auth, methods: seq<byte>, w: Work, i: nat, remain: nat, none: bool, pass: bool)
    requires Sound(w) && |methods| >= 1 && w.n >= |methods| + 2 && remain <= w.n
    requires Undecided(um, methods, i, none, pass) && i < |methods| + 2
    requires methods[i - 2] == w.buf[i] == PassedOver(um.Some?) && w.buf[i] in methods[..i - 2]
    ensures Found(um, methods, w, i, remain, none, pass, 2, false)
  {
    PassesOver(um, w, i, |methods| + 2, remain, none, pass);
    TooLate(methods, i - 2, Sought(um.Some?), PassedOver(um.Some?));
  }

  function SentBy(r: Outcome): seq<byte> {
    if r.HelloTooShort? then [] else r.conn.sent
  }

  function NegotiatedSent(r: Negotiated): seq<byte> {
    if r.Crash? then r.conn.sent else r.w.conn.sent
  }

  lemma LoginOnlyAdds(users: set<seq<byte>>, end: nat, w: Work, remain: nat)
    requires 3 <= end <= |w.buf| && Sound(w) && remain <= w.n && (w.n != end ==> w.n >= 3)
    ensures var r := PasswordStep(users, end, w, remain);
            w.conn.sent <= if r.Broken? then r.conn.sent else r.w.conn.sent
  {
    var (u, bs, left) := PasswordRead(end, w, remain);
    assert w.conn.sent <= u.conn.sent;
  }

  function TurnSent(t: Turn): seq<byte> {
    if t.Stop? then NegotiatedSent(t.neg) else t.w.conn.sent
  }

  lemma TurnOnlyAdds(um: Auth, m: byte, end: nat, w: Work, remain: nat, none: bool, pass: bool)
    requires 3 <= end <= |w.buf| && Sound(w) && remain <= w.n && (!pass ==> end <= w.n)
    ensures w.conn.sent <= TurnSent(TurnOf(um, m, end, w, remain, none, pass))
  {
    if um.Some? && !pass {
      LoginOnlyAdds(um.value, end, w, remain);
    }
  }

  /** Nothing written is taken back. */
  lemma {:induction false} NegotiateOnlyAdds(
    um: Auth, i: nat, end: nat, w: Work, remain: nat, none: bool, pass: bool)
    requires 3 <= end <= |w.buf| && Sound(w) && remain <= w.n && (!pass ==> end <= w.n)
    ensures w.conn.sent <= NegotiatedSent(Negotiate(um, i, end, w, remain, none, pass))
    decreases end - i
  {
    if i < end {
      var t := TurnOf(um, w.buf[i], end, w, remain, none, pass);
      TurnOnlyAdds(um, w.buf[i], end, w, remain, none, pass);
      if t.Go? {
        NegotiateOnlyAdds(um, i + 1, end, t.w, t.remain, t.dealtNone, t.dealtPass);
      }
    }
  }

  lemma RequestOnlyAdds(world: World, w: Work, user: Option<PlainText>)
    requires Sound(w)
    ensures w.conn.sent <= SentBy(Request(world, w, user))
  {
  }

  lemma ConcludeOnlyAdds(world: World, neg: Negotiated)
    requires !neg.Crash? ==> Sound(neg.w)
    requires neg.Authed? ==> neg.remain <= neg.w.n
    requires neg.NotAuthed? ==> |neg.w.buf| >= 2
    ensures NegotiatedSent(neg) <= SentBy(Conclude(world, neg))
  {
    if neg.Authed? {
      RequestOnlyAdds(world, RequestWork(neg.w, neg.remain), neg.user);
    }
  }

  lemma TurnAnswers(um: Auth, w: Work, m: byte, end: nat, remain: nat, none: bool, pass: bool)
    requires 3 <= end <= |w.buf| && Sound(w) && remain <= w.n && end <= w.n
    requires m == Sought(um.Some?) && if um.Some? then !pass else !none
    ensures w.conn.sent + [5, m] <= TurnSent(TurnOf(um, m, end, w, remain, none, pass))
  {
    if um.Some? {
      var (u, bs, left) := PasswordRead(end, w, remain);
      assert u.conn.sent == w.conn.sent + [5, m];
    }
  }

  /** At the method sought the server answers with it, whatever comes after. */
  lemma AnswersSought(um: Auth, w: Work, k: nat, end: nat, remain: nat, none: bool, pass: bool)
    requires 3 <= end <= |w.buf| && Sound(w) && remain <= w.n && end <= w.n && 2 <= k < end
    requires w.buf[k] == Sought(um.Some?) && if um.Some? then !pass else !none
    ensures w.conn.sent + [5, Sought(um.Some?)] <= NegotiatedSent(Negotiate(um, k, end, w, remain, none, pass))
  {
    var t := TurnOf(um, w.buf[k], end, w, remain, none, pass);
    TurnAnswers(um, w, w.buf[k], end, remain, none, pass);
    if t.Go? {
      NegotiateOnlyAdds(um, k + 1, end, t.w, t.remain, t.dealtNone, t.dealtPass);
    }
  }

  lemma ServesOffer(um: Auth, world: World, methods: seq<byte>, more: seq<seq<byte>>)
    requires 1 <= |methods| <= 255
    ensures var w := Greeted(methods, more);
            && Sound(w) && w.n == |methods| + 2
            && Handshake(um, world, Conn([Offer(methods)] + more, []), None)
               == Conclude(world, Negotiate(um, 2, w.n, w, 0, false, false))
  {
    ReadsOffer(methods, more);
    var w := Greeted(methods, more);
    assert w.buf[0] == w.buf[..w.n][0] && w.buf[1] == w.buf[..w.n][1];
  }

  /**
   * For every list of offered methods, read alone: with users the server first answers 5 2 if and
   * only if 2 is offered before any second 0; without users it first answers 5 0 if and only if 0
   * is offered before any second 2; otherwise it refuses, having written 5 255 and nothing else.
   */
  lemma FirstReplyExactly(um: Auth, world: World, methods: seq<byte>, more: seq<seq<byte>>)
    requires 1 <= |methods| <= 255
    ensures var r := Handshake(um, world, Conn([Offer(methods)] + more, []), None);
            && (um.Some? ==> ([5, 2] <= SentBy(r) <==> StandsBefore(methods, 2, 0)))
            && (um.None? ==> ([5, 0] <= SentBy(r) <==> StandsBefore(methods, 0, 2)))
            && (Choice(um.Some?, methods) == 255 ==> r.Refused? && r.conn == Conn(more, [5, 255]))
  {
    var w := Greeted(methods, more);
    ReadsOffer(methods, more);
    ServesOffer(um, world, methods, more);
    assert methods[..0] == [];
    var k, dealt := LoopFinds(um, methods, w, 2, 0, false, false);
    var neg := Negotiate(um, 2, w.n, w, 0, false, false);
    if Choice(um.Some?, methods) == 255 {
      assert w.conn.sent + [5, 255] == [5, 255];
      OtherReply();
    } else {
      AnswersSought(um, w, k, w.n, 0, um.Some? && dealt, um.None? && dealt);
      assert w.conn.sent + [5, Sought(um.Some?)] == [5, Sought(um.Some?)];
      ConcludeOnlyAdds(world, neg);
    }
  }

  lemma OtherReply()
    ensures forall m: byte :: [5, m] <= [5, 255] <==> m == 255
  {
    var refusal: seq<byte> := [5, 255];
    forall m: byte ensures [5, m] <= refusal <==> m == 255 {
      var s: seq<byte> := [5, m];
      assert s[1] == m && refusal[1] == 255;
    }
  }

  /** Without users, the method none leaves nothing of the hello over. */
  lemma ChoosesNone(w: Work, k: nat, end: nat, pass: bool)
    requires 3 <= end == w.n && Sound(w) && 2 <= k < end && w.buf[k] == 0
    ensures Admitted(Negotiate(None, k, end, w, 0, false, pass), |w.buf|, None, [],
                     w.conn.(sent := w.conn.sent + [VERSION5, AUTH_NONE]))
  {
    var v := Reply(w, VERSION5, AUTH_NONE);
    assert v.buf[v.n..v.n] == [];
  }

  /** With users, the password message is read and accepted, wherever the method stood. */
  lemma ChoosesPassword(um: Auth, w: Work, k: nat, end: nat, none: bool, u: PlainText, t: seq<byte>)
    requires 3 <= end == w.n && Sound(w) && 2 <= k < end && w.buf[k] == 2
    requires Proper(Some(u), Addr(AtName([], 0), TCP)) && Admits(um, Some(u))
    requires var v := Read(Reply(w, VERSION5, AUTH_PASSWORD)); v.buf[..v.n] == AuthMsg(u) + t
    ensures var v := Read(Reply(w, VERSION5, AUTH_PASSWORD));
            Admitted(Negotiate(um, k, end, w, 0, none, false), |w.buf|, Some(u), t,
                     v.conn.(sent := v.conn.sent + [SUBNEGOTIATION, SUCCESS]))
  {
    var v := Read(Reply(w, VERSION5, AUTH_PASSWORD));
    AuthParses(u, t, v.buf[..v.n], v.n);
    assert v.buf[0..v.n] == v.buf[..v.n];
    SuffixStays(v.buf, 0, v.n, AuthMsg(u), t);
  }

  /** Up to the method chosen. */
  lemma OfferReaches(um: Auth, world: World, methods: seq<byte>, more: seq<seq<byte>>) returns (k: nat, dealt: bool)
    requires 1 <= |methods| <= 255 && Choice(um.Some?, methods) != 255
    ensures var w := Greeted(methods, more);
            && Sound(w) && |w.buf| == BUF_LEN && w.n == |methods| + 2 && w.conn == Conn(more, [])
            && 2 <= k < w.n && w.buf[k] == Sought(um.Some?)
            && Handshake(um, world, Conn([Offer(methods)] + more, []), None)
               == Conclude(world, Negotiate(um, k, w.n, w, 0, um.Some? && dealt, um.None? && dealt))
  {
    var w := Greeted(methods, more);
    ReadsOffer(methods, more);
    ServesOffer(um, world, methods, more);
    assert methods[..0] == [];
    k, dealt := LoopFinds(um, methods, w, 2, 0, false, false);
  }

  lemma OfferWithoutUser(world: World, methods: seq<byte>, more: seq<seq<byte>>, a: Addr, payload: seq<byte>)
    requires 1 <= |methods| <= 255 && StandsBefore(methods, 0, 2)
    requires Sendable(a) && Grouped(more, [RequestMsg(a)], payload)
    ensures Agreed(Handshake(None, world, Conn([Offer(methods)] + more, []), None), world, None, a,
                   Along(more, |RequestMsg(a)|), payload)
  {
    var w := Greeted(methods, more);
    var k, dealt := OfferReaches(None, world, methods, more);
    ChoosesNone(w, k, w.n, dealt);
    var conn := w.conn.(sent := w.conn.sent + [VERSION5, AUTH_NONE]);
    var neg := Negotiate(None, k, w.n, w, 0, false, dealt);
    var q := FinishAuthed(world, neg, BUF_LEN, conn, a, None, payload, [], 0, []);
    assert conn.sent == [VERSION5, AUTH_NONE];
    RepliesJoin();
    FromReached(Handshake(None, world, Conn([Offer(methods)] + more, []), None), world, a, None, payload,
                [VERSION5, AUTH_NONE], q);
  }

  lemma OfferWithUser(
    um: Auth, world: World, methods: seq<byte>, more: seq<seq<byte>>, u: PlainText, a: Addr, payload: seq<byte>)
    requires 1 <= |methods| <= 255 && StandsBefore(methods, 2, 0)
    requires Proper(Some(u), a) && Admits(um, Some(u)) && Grouped(more, [AuthMsg(u), RequestMsg(a)], payload)
    ensures Agreed(Handshake(um, world, Conn([Offer(methods)] + more, []), None), world, Some(u), a,
                   Along(more, |AuthMsg(u)| + |RequestMsg(a)|), payload)
  {
    var w := Greeted(methods, more);
    var k, dealt := OfferReaches(um, world, methods, more);
    var q := PasswordFollows(um, world, w, k, dealt, u, a, payload);
    assert w.conn.sent + [VERSION5, AUTH_PASSWORD] == [VERSION5, AUTH_PASSWORD];
    RepliesJoin();
    FromReached(Handshake(um, world, Conn([Offer(methods)] + more, []), None), world, a, Some(u), payload,
                [VERSION5, AUTH_PASSWORD] + [SUBNEGOTIATION, SUCCESS], q);
  }

  lemma PasswordFollows(
    um: Auth, world: World, w: Work, k: nat, none: bool, u: PlainText, a: Addr, payload: seq<byte>)
    returns (q: seq<byte>)
    requires Sound(w) && |w.buf| == BUF_LEN && 3 <= w.n && 2 <= k < w.n && w.buf[k] == 2
    requires Proper(Some(u), a) && Admits(um, Some(u)) && Grouped(w.conn.chunks, [AuthMsg(u), RequestMsg(a)], payload)
    ensures Reached(Conclude(world, Negotiate(um, k, w.n, w, 0, none, false)), world, a, Some(u), payload,
                    w.conn.sent + [VERSION5, AUTH_PASSWORD] + [SUBNEGOTIATION, SUCCESS], q)
    ensures |q| == Along(w.conn.chunks, |AuthMsg(u)| + |RequestMsg(a)|)
  {
    var v := Reply(w, VERSION5, AUTH_PASSWORD);
    var x := Read(v);
    var n, q0, t := ReadAuth(v, u, a, payload);
    ChoosesPassword(um, w, k, w.n, none, u, t);
    q := FinishAuthed(world, Negotiate(um, k, w.n, w, 0, none, false), BUF_LEN,
                      x.conn.(sent := x.conn.sent + [SUBNEGOTIATION, SUCCESS]), a, Some(u), payload, t, n - 1, q0);
  }

  lemma OfferAloneAgrees(world: World, methods: seq<byte>, more: seq<seq<byte>>, a: Addr, payload: seq<byte>)
    requires 1 <= |methods| <= 255 && Choice(false, methods) == 0
    requires Sendable(a) && Grouped(more, Messages(None, a)[1..], payload)
    ensures Agreed(Handshake(None, world, Conn([Offer(methods)] + more, []), None), world, None, a,
                   Along(more, |Flat(Messages(None, a)[1..])|), payload)
  {
    assert Messages(None, a)[1..] == [RequestMsg(a)];
    FlatOne(RequestMsg(a));
    OfferWithoutUser(world, methods, more, a, payload);
  }

  lemma OfferAndLoginAgrees(
    um: Auth, world: World, methods: seq<byte>, more: seq<seq<byte>>, u: PlainText, a: Addr, payload: seq<byte>)
    requires 1 <= |methods| <= 255 && Choice(true, methods) == 2
    requires Proper(Some(u), a) && Admits(um, Some(u)) && Grouped(more, Messages(Some(u), a)[1..], payload)
    ensures Agreed(Handshake(um, world, Conn([Offer(methods)] + more, []), None), world, Some(u), a,
                   Along(more, |Flat(Messages(Some(u), a)[1..])|), payload)
  {
    MessagesLeft(u, a);
    OfferWithUser(um, world, methods, more, u, a, payload);
  }

  /**
   * A client that offers any list of methods among which its own is chosen, and whose hello is read
   * alone, is served like one that offers its method only.
   */
  lemma AnyOfferAgrees(
    um: Auth, world: World, methods: seq<byte>, more: seq<seq<byte>>, up: Option<PlainText>, a: Addr,
    payload: seq<byte>)
    requires 1 <= |methods| <= 255 && Choice(um.Some?, methods) == (if up.Some? then 2 else 0)
    requires Proper(up, a) && Admits(um, up) && Grouped(more, Messages(up, a)[1..], payload)
    ensures Agreed(Handshake(um, world, Conn([Offer(methods)] + more, []), None), world, up, a,
                   Along(more, |Flat(Messages(up, a)[1..])|), payload)
  {
    match up {
      case None => OfferAloneAgrees(world, methods, more, a, payload);
      case Some(u) => OfferAndLoginAgrees(um, world, methods, more, u, a, payload);
    }
  }
}
