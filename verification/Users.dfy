/** Plain user/password pairs and the map a server authenticates them against. */
module Users {
  import opened Bytes
  import opened Text

  datatype PlainText = PlainText(user: seq<byte>, pass: seq<byte>)

  const LINE_FEED: byte := 10

  /** `plaintext:` in bytes. */
  const PREFIX: seq<byte> := [112, 108, 97, 105, 110, 116, 101, 120, 116, 58]

  /** What identifies a user and proves who it is. */
  function AuthStr(u: PlainText): seq<byte> {
    PREFIX + u.user + [LINE_FEED] + u.pass
  }

  /** Users whose names hold no line feed have the same auth string only if they are the same. */
  lemma AuthStrInjective(u: PlainText, v: PlainText)
    requires LINE_FEED !in u.user && LINE_FEED !in v.user && AuthStr(u) == AuthStr(v)
    ensures u == v
  {
    var a, b := u.user + [LINE_FEED] + u.pass, v.user + [LINE_FEED] + v.pass;
    assert AuthStr(u) == PREFIX + a && AuthStr(v) == PREFIX + b;
    assert AuthStr(u)[|PREFIX|..] == a && AuthStr(v)[|PREFIX|..] == b;
    FindAfterClear(u.user, [LINE_FEED], u.pass);
    FindAfterClear(v.user, [LINE_FEED], v.pass);
    assert a[..|u.user|] == u.user && b[..|v.user|] == v.user;
    assert a[|u.user| + 1..] == u.pass && b[|v.user| + 1..] == v.pass;
  }

  /** With a line feed in a name, two different users share an auth string. */
  lemma AuthStrCollides(x: seq<byte>, y: seq<byte>, z: seq<byte>)
    ensures var u, v := PlainText(x + [LINE_FEED] + y, z), PlainText(x, y + [LINE_FEED] + z);
            u != v && AuthStr(u) == AuthStr(v)
  {
    var u, v := PlainText(x + [LINE_FEED] + y, z), PlainText(x, y + [LINE_FEED] + z);
    assert AuthStr(u) == PREFIX + (x + ([LINE_FEED] + (y + ([LINE_FEED] + z))));
    assert AuthStr(v) == PREFIX + (x + ([LINE_FEED] + (y + ([LINE_FEED] + z))));
  }

  /** Two users with one auth string have their names end at the same byte if the first holds no line feed. */
  lemma SameAuthStr(u: PlainText, v: PlainText)
    requires LINE_FEED !in u.user && LINE_FEED !in u.pass && AuthStr(u) == AuthStr(v)
    ensures u == v
  {
    var a, b := u.user + [LINE_FEED] + u.pass, v.user + [LINE_FEED] + v.pass;
    assert AuthStr(u)[|PREFIX|..] == a && AuthStr(v)[|PREFIX|..] == b;
    OnlyLineFeed(u, |v.user|);
    assert a[..|u.user|] == u.user && b[..|v.user|] == v.user;
    assert a[|u.user| + 1..] == u.pass && b[|v.user| + 1..] == v.pass;
  }

  lemma OnlyLineFeed(u: PlainText, i: nat)
    requires LINE_FEED !in u.user && LINE_FEED !in u.pass && i < |u.user| + 1 + |u.pass|
    ensures (u.user + [LINE_FEED] + u.pass)[i] == LINE_FEED <==> i == |u.user|
  {
    if i < |u.user| {
      assert u.user[i] in u.user;
    } else if i > |u.user| {
      assert u.pass[i - |u.user| - 1] in u.pass;
    }
  }

  /** With a line feed in name or password, another user has the same auth string. */
  lemma AnotherWithSameStr(u: PlainText) returns (v: PlainText)
    requires LINE_FEED in u.user || LINE_FEED in u.pass
    ensures v != u && AuthStr(v) == AuthStr(u)
  {
    if LINE_FEED in u.user {
      var i :| 0 <= i < |u.user| && u.user[i] == LINE_FEED;
      var x, y := u.user[..i], u.user[i + 1..];
      assert u.user == x + [LINE_FEED] + y;
      AuthStrCollides(x, y, u.pass);
      v := PlainText(x, y + [LINE_FEED] + u.pass);
    } else {
      var i :| 0 <= i < |u.pass| && u.pass[i] == LINE_FEED;
      var y, z := u.pass[..i], u.pass[i + 1..];
      assert u.pass == y + [LINE_FEED] + z;
      AuthStrCollides(u.user, y, z);
      v := PlainText(u.user + [LINE_FEED] + y, z);
    }
  }

  /** A user's auth string is nobody else's if and only if neither name nor password holds a line feed. */
  lemma AuthStrUnique(u: PlainText)
    ensures (forall v :: AuthStr(v) == AuthStr(u) ==> v == u) <==> LINE_FEED !in u.user && LINE_FEED !in u.pass
  {
    if LINE_FEED in u.user || LINE_FEED in u.pass {
      var v := AnotherWithSameStr(u);
      assert AuthStr(v) == AuthStr(u);
    } else {
      forall v | AuthStr(v) == AuthStr(u) ensures v == u {
        SameAuthStr(u, v);
      }
    }
  }

  function AuthStrs(users: seq<PlainText>): set<seq<byte>> {
    set u | u in users :: AuthStr(u)
  }

  /** Users with a name and a password. */
  predicate StrictValid(u: PlainText) {
    u.user != [] && u.pass != []
  }

  predicate InStep(ids: map<seq<byte>, PlainText>, auths: map<seq<byte>, PlainText>, added: seq<PlainText>) {
    && (forall u :: u in added ==> AuthStr(u) in auths && u.user in ids)
    && (forall s :: s in auths ==> AuthStr(auths[s]) == s && auths[s] in added)
    && (forall n :: n in ids ==> ids[n].user == n && ids[n] in added)
  }

  lemma StaysInStep(
    ids: map<seq<byte>, PlainText>, auths: map<seq<byte>, PlainText>, added: seq<PlainText>, u: PlainText)
    requires InStep(ids, auths, added)
    ensures InStep(ids[u.user := u], auths[AuthStr(u) := u], added + [u])
  {
  }

  class UsersMap {
    var idMap: map<seq<byte>, PlainText>
    var aMap: map<seq<byte>, PlainText>
    ghost var added: seq<PlainText>

    /** A user is found by an auth string exactly when one with that string was added. */
    ghost predicate Valid()
      reads this
    {
      InStep(idMap, aMap, added)
    }

    constructor ()
      ensures Valid() && added == []
    {
      idMap, aMap, added := map[], map[], [];
    }

    method AddUser(u: PlainText)
      requires Valid()
      modifies this
      ensures Valid() && added == old(added) + [u]
      ensures idMap == old(idMap)[u.user := u] && aMap == old(aMap)[AuthStr(u) := u]
    {
      StaysInStep(idMap, aMap, added, u);
      added := added + [u];
      idMap := idMap[u.user := u];
      aMap := aMap[AuthStr(u) := u];
    }

    /** Whether no user was ever added. */
    method IsEmpty() returns (r: bool)
      requires Valid()
      ensures r <==> added == []
    {
      r := idMap == map[];
      assert added != [] ==> added[0] in added;
      if !r {
        var n :| n in idMap;
      }
    }

    method AuthUserByAuthstr(s: seq<byte>) returns (r: Option<PlainText>)
      requires Valid()
      ensures r.Some? <==> s in AuthStrs(added)
      ensures r.Some? ==> AuthStr(r.value) == s && r.value in added
    {
      r := if s in aMap then Some(aMap[s]) else None;
    }
  }
}
