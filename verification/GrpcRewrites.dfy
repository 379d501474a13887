/** A caller that writes again what a gRPC stream did not accept. */
module GrpcRewrites {
  import opened Bytes
  import opened Varint
  import opened GrpcFrame
  import opened GrpcStream
  import opened GrpcRun

  /**
   * `t` follows from `s` by writing `buf` under the first grant, then what was not accepted of it
   * under the next one, and so on while anything is left.
   */
  predicate Rewriting(s: System, buf: seq<byte>, grants: seq<nat>, t: System)
    decreases |grants|
  {
    if grants == [] || buf == [] then s == t
    else
      var e := Write(buf, grants[0]);
      && Enabled(s, e) && Next(s, e).accepted <= s.accepted + buf
      && Rewriting(Next(s, e), (s.accepted + buf)[|Next(s, e).accepted|..], grants[1..], t)
  }

  /** Every grant covers a head for `len` bytes and at least one byte more. */
  predicate Roomy(grants: seq<nat>, len: nat) {
    forall i :: 0 <= i < |grants| ==> grants[i] > |Head(len)|
  }

  lemma RoomyLess(grants: seq<nat>, more: nat, less: nat)
    requires Roomy(grants, more) && less <= more && grants != []
    ensures Roomy(grants[1..], less) && grants[0] > |Head(less)|
  {
    HeadMonotone(less, more);
  }

  /** A write under such a grant accepts at least one byte, from the front, and all that the grant has room for. */
  lemma WriteAccepts(s: System, buf: seq<byte>, grant: nat) returns (n: nat)
    requires 0 < |buf| < TWO64 && grant > |Head(|buf|)|
    ensures Enabled(s, Write(buf, grant)) && n == Min(|buf|, grant - |Head(|buf|)|) && n >= 1
    ensures Next(s, Write(buf, grant)).accepted == s.accepted + buf[..n]
  {
    n := AcceptedLen(|buf|, grant);
  }

  lemma Remainder(done: seq<byte>, buf: seq<byte>, n: nat)
    requires n <= |buf|
    ensures done + buf[..n] <= done + buf && (done + buf)[|done + buf[..n]|..] == buf[n..]
    ensures done + buf[..n] + buf[n..] == done + buf
  {
    assert buf == buf[..n] + buf[n..];
  }

  /**
   * Writing again what was left over, under grants that exceed a full-size head, accepts every
   * byte, once and in order, in at most as many writes as there are bytes.
   */
  lemma {:induction false} RewritingAcceptsAll(s: System, buf: seq<byte>, grants: seq<nat>, t: System)
    requires |buf| < TWO64 && |grants| >= |buf| && Roomy(grants, |buf|) && Rewriting(s, buf, grants, t)
    ensures t.accepted == s.accepted + buf
    decreases |grants|
  {
    if buf == [] {
      assert s.accepted + buf == s.accepted;
    } else {
      var n := WriteAccepts(s, buf, grants[0]);
      var u := Next(s, Write(buf, grants[0]));
      Remainder(s.accepted, buf, n);
      RoomyLess(grants, |buf|, |buf[n..]|);
      RewritingAcceptsAll(u, buf[n..], grants[1..], t);
    }
  }

  /** Such a run is there from every state. */
  lemma {:induction false} RewritingGoesThrough(s: System, buf: seq<byte>, grants: seq<nat>) returns (t: System)
    requires |buf| < TWO64 && Roomy(grants, |buf|)
    ensures Rewriting(s, buf, grants, t)
    decreases |grants|
  {
    if grants == [] || buf == [] {
      t := s;
    } else {
      var n := WriteAccepts(s, buf, grants[0]);
      Remainder(s.accepted, buf, n);
      RoomyLess(grants, |buf|, |buf[n..]|);
      t := RewritingGoesThrough(Next(s, Write(buf, grants[0])), buf[n..], grants[1..]);
    }
  }
}
