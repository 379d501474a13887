/** Connection ids: a path of numbers from the inbound's root id to the stream. */
module Cid {
  import opened Bytes
  import opened Text

  const U32_LIMIT: nat := 0x1_0000_0000

  type U32 = n: int | 0 <= n < U32_LIMIT

  function Texts(ids: seq<U32>): (ts: seq<string>)
    ensures |ts| == |ids|
  {
    if ids == [] then [] else [Decimal(ids[0])] + Texts(ids[1..])
  }

  /** The printed form: an underscore for no id, else the numbers joined by dashes. */
  function Display(ids: seq<U32>): string {
    if ids == [] then "_" else Join(Texts(ids), "-")
  }

  function ParseAll(parts: seq<string>): Option<seq<U32>> {
    if parts == [] then Some([])
    else
      match (ParseUnsigned(parts[0], U32_LIMIT), ParseAll(parts[1..]))
      case (Some(n), Some(ns)) => Some([n] + ns)
      case _ => None
  }

  /** Parsing: a whole number first, then dash-separated numbers. */
  function FromStr(s: string): Option<seq<U32>> {
    match ParseUnsigned(s, U32_LIMIT)
    case Some(n) => Some([n])
    case None => ParseAll(Split(s, "-"))
  }

  lemma {:induction false} TextsClear(ids: seq<U32>)
    ensures forall t :: t in Texts(ids) ==> Clear(t, "-")
  {
    if ids != [] {
      DecimalDigits(ids[0]);
      TextsClear(ids[1..]);
    }
  }

  lemma {:induction false} ParseTexts(ids: seq<U32>)
    ensures ParseAll(Texts(ids)) == Some(ids)
  {
    if ids != [] {
      ParseDecimal(ids[0], U32_LIMIT);
      assert Texts(ids)[1..] == Texts(ids[1..]);
      ParseTexts(ids[1..]);
      assert ids == [ids[0]] + ids[1..];
    }
  }

  lemma {:induction false} DashIsNoDigit(s: string, k: nat)
    requires k < |s| && !IsDigit(s[k])
    ensures DigitsValue(s) == None
  {
    if k < |s| - 1 {
      DashIsNoDigit(s[..|s| - 1], k);
    }
  }

  lemma DashedIsNoNumber(a: string, b: string)
    requires a != [] && IsDigit(a[0])
    ensures ParseUnsigned(a + "-" + b, U32_LIMIT) == None
  {
    var s := a + "-" + b;
    DashIsNoDigit(s, |a|);
  }

  /** Parsing a printed id gives it back exactly when it has at least one number. */
  lemma RoundTrip(ids: seq<U32>)
    ensures FromStr(Display(ids)) == Some(ids) <==> ids != []
  {
    if ids == [] {
      FindInClear("_", "-");
      assert Split("_", "-") == ["_"];
      DashIsNoDigit("_", 0);
    } else {
      var ts := Texts(ids);
      TextsClear(ids);
      SplitJoin(ts, "-");
      ParseTexts(ids);
      ParseDecimal(ids[0], U32_LIMIT);
      DecimalDigits(ids[0]);
      assert Decimal(ids[0])[0] in Decimal(ids[0]);
      if |ids| == 1 {
        assert ids == [ids[0]];
      } else {
        DashedIsNoNumber(Decimal(ids[0]), Join(ts[1..], "-"));
      }
    }
  }

  class CID {
    var idList: seq<U32>

    constructor (ids: seq<U32>)
      ensures idList == ids
    {
      idList := ids;
    }

    method Fmt() returns (s: string)
      ensures s == Display(idList)
    {
      if idList == [] {
        return "_";
      }
      if |idList| == 1 {
        assert Texts(idList) == [Decimal(idList[0])];
        return Decimal(idList[0]);
      }
      s := "";
      var last := |idList| - 1;
      assert idList[0..] == idList;
      for i := 0 to |idList|
        invariant s + Pending(idList, i) == Display(idList)
      {
        PrintStep(idList, i, s);
        s := s + Decimal(idList[i]);
        if i != last {
          s := s + "-";
        }
      }
    }

    method PushNum(n: U32)
      modifies this
      ensures idList == old(idList) + [n]
    {
      idList := idList + [n];
    }

    /** Takes the last number off; what would become empty becomes the single number zero. */
    method Pop() returns (popped: seq<U32>)
      modifies this
      ensures old(idList) == [] ==> popped == [0] && idList == []
      ensures old(idList) != [] ==> popped == [old(idList)[|old(idList)| - 1]]
      ensures |old(idList)| == 1 ==> idList == [0]
      ensures |old(idList)| > 1 ==> idList == old(idList)[..|old(idList)| - 1]
    {
      if idList == [] {
        return [0];
      }
      var last := idList[|idList| - 1];
      idList := idList[..|idList| - 1];
      if idList == [] {
        idList := [0];
      }
      popped := [last];
    }
  }

  /** The text still to print from number `i` on. */
  function Pending(ids: seq<U32>, i: nat): string
    requires i <= |ids|
  {
    Join(Texts(ids[i..]), "-")
  }

  lemma PendingStep(ids: seq<U32>, i: nat)
    requires i < |ids|
    ensures Pending(ids, i) == Decimal(ids[i]) + (if i != |ids| - 1 then "-" else "") + Pending(ids, i + 1)
  {
    var rest := ids[i..];
    assert rest[1..] == ids[i + 1..];
    assert Texts(rest)[1..] == Texts(ids[i + 1..]);
  }

  lemma PrintStep(ids: seq<U32>, i: nat, s: string)
    requires i < |ids|
    ensures s + Pending(ids, i)
         == s + Decimal(ids[i]) + (if i != |ids| - 1 then "-" else "") + Pending(ids, i + 1)
  {
    PendingStep(ids, i);
  }

  function Prepend(ids: seq<U32>, more: Option<seq<U32>>): Option<seq<U32>> {
    match more
    case None => None
    case Some(ns) => Some(ids + ns)
  }

  lemma ParseStep(ids: seq<U32>, rest: seq<string>)
    ensures Prepend([], ParseAll(rest)) == ParseAll(rest)
    ensures rest == [] ==> Prepend(ids, ParseAll(rest)) == Some(ids)
    ensures rest != [] ==>
      match ParseUnsigned(rest[0], U32_LIMIT)
      case None => Prepend(ids, ParseAll(rest)) == None
      case Some(n) => Prepend(ids, ParseAll(rest)) == Prepend(ids + [n], ParseAll(rest[1..]))
  {
    var p := ParseAll(rest);
    if p.Some? {
      assert [] + p.value == p.value;
    }
    assert ids + [] == ids;
    if rest != [] && ParseUnsigned(rest[0], U32_LIMIT).Some? && ParseAll(rest[1..]).Some? {
      var n, ns: seq<U32> := ParseUnsigned(rest[0], U32_LIMIT).value, ParseAll(rest[1..]).value;
      assert ids + ([n] + ns) == ids + [n] + ns;
    }
  }

  method Parse(s: string) returns (r: Option<seq<U32>>)
    ensures r == FromStr(s)
  {
    var u := ParseUnsigned(s, U32_LIMIT);
    if u.Some? {
      return Some([u.value]);
    }
    var v := Split(s, "-");
    var ids: seq<U32> := [];
    assert v[0..] == v;
    ParseStep([], v);
    for i := 0 to |v|
      invariant ParseAll(v) == Prepend(ids, ParseAll(v[i..]))
    {
      ParseStep(ids, v[i..]);
      assert v[i..][1..] == v[i + 1..];
      var n := ParseUnsigned(v[i], U32_LIMIT);
      if n.None? {
        return None;
      }
      ids := ids + [n.value];
    }
    ParseStep(ids, v[|v|..]);
    r := Some(ids);
  }
}
