/** Searching, splitting and joining sequences by a separator, and unsigned decimal text. */
module Text {
  import opened Bytes

  /** Text as bytes. */
  function Ascii(s: string): seq<byte> {
    seq(|s|, i requires 0 <= i < |s| => (s[i] as int) % 256)
  }

  /** `pat` stands in `s` at index `k`. */
  predicate At<T(==)>(s: seq<T>, pat: seq<T>, k: nat) {
    k + |pat| <= |s| && s[k..k + |pat|] == pat
  }

  /** The index of the first occurrence of `pat` in `s`. */
  function Find<T(==)>(s: seq<T>, pat: seq<T>): Option<nat> {
    if |s| < |pat| then None
    else if s[..|pat|] == pat then Some(0)
    else if s == [] then None
    else
      match Find(s[1..], pat)
      case None => None
      case Some(i) => Some(i + 1)
  }

  lemma {:induction false} FindIs<T>(s: seq<T>, pat: seq<T>, k: nat)
    requires At(s, pat, k) && forall j: nat :: j < k ==> !At(s, pat, j)
    ensures Find(s, pat) == Some(k)
  {
    if k > 0 {
      assert !At(s, pat, 0);
      assert s[1..][k - 1..k - 1 + |pat|] == s[k..k + |pat|];
      forall j: nat | j < k - 1 ensures !At(s[1..], pat, j) {
        assert !At(s, pat, j + 1);
        if j + |pat| <= |s[1..]| {
          assert s[1..][j..j + |pat|] == s[j + 1..j + 1 + |pat|];
        }
      }
      FindIs(s[1..], pat, k - 1);
    }
  }

  lemma {:induction false} FindNone<T>(s: seq<T>, pat: seq<T>)
    requires forall j: nat :: !At(s, pat, j)
    ensures Find(s, pat) == None
  {
    if |s| >= |pat| {
      assert !At(s, pat, 0);
      if s != [] {
        forall j: nat ensures !At(s[1..], pat, j) {
          assert !At(s, pat, j + 1);
          if j + |pat| <= |s[1..]| {
            assert s[1..][j..j + |pat|] == s[j + 1..j + 1 + |pat|];
          }
        }
        FindNone(s[1..], pat);
      }
    }
  }

  lemma {:induction false} FindFound<T>(s: seq<T>, pat: seq<T>)
    ensures Find(s, pat).Some? ==>
      At(s, pat, Find(s, pat).value) && forall j: nat :: j < Find(s, pat).value ==> !At(s, pat, j)
    ensures Find(s, pat) == None ==> forall j: nat :: !At(s, pat, j)
  {
    if |s| >= |pat| && s[..|pat|] != pat && s != [] {
      FindFound(s[1..], pat);
      forall j: nat | At(s, pat, j) ensures j > 0 && At(s[1..], pat, j - 1) {
        assert j > 0;
        assert s[1..][j - 1..j - 1 + |pat|] == s[j..j + |pat|];
      }
      var f := Find(s[1..], pat);
      if f.Some? {
        assert s[1..][f.value..f.value + |pat|] == s[f.value + 1..f.value + 1 + |pat|];
      }
    }
  }

  lemma FindBound<T>(s: seq<T>, pat: seq<T>)
    ensures Find(s, pat).Some? ==> Find(s, pat).value + |pat| <= |s|
  {
    FindFound(s, pat);
  }

  lemma AtShift<T>(front: seq<T>, t: seq<T>, pat: seq<T>, j: nat)
    ensures At(front + t, pat, |front| + j) <==> At(t, pat, j)
  {
    if j + |pat| <= |t| {
      assert (front + t)[|front| + j..|front| + j + |pat|] == t[j..j + |pat|];
    }
  }

  /** No occurrence of `pat` in `front + t` begins in `front`. */
  predicate NoneIn<T(==)>(front: seq<T>, t: seq<T>, pat: seq<T>) {
    forall j: nat :: j < |front| ==> !At(front + t, pat, j)
  }

  /** Where no occurrence begins in `front`, the first one is the first in `t`. */
  lemma {:induction false} FindShift<T>(front: seq<T>, t: seq<T>, pat: seq<T>)
    requires Find(t, pat).Some? && NoneIn(front, t, pat)
    ensures Find(front + t, pat) == Some(|front| + Find(t, pat).value)
  {
    if front == [] {
      assert front + t == t;
    } else {
      var rest := front[1..];
      assert (front + t)[1..] == rest + t;
      assert !At(front + t, pat, 0);
      forall j: nat | j < |rest| ensures !At(rest + t, pat, j) {
        AtShift(front[..1], rest + t, pat, j);
        assert front[..1] + (rest + t) == front + t;
        assert !At(front + t, pat, j + 1);
      }
      FindShift(rest, t, pat);
      FindBound(t, pat);
    }
  }

  /** The parts of `s` between the occurrences of `pat`, found from the left. */
  function Split<T(==)>(s: seq<T>, pat: seq<T>): (parts: seq<seq<T>>)
    requires pat != []
    ensures parts != []
    decreases |s|
  {
    FindBound(s, pat);
    match Find(s, pat)
    case None => [s]
    case Some(i) => [s[..i]] + Split(s[i + |pat|..], pat)
  }

  function Join<T>(parts: seq<seq<T>>, pat: seq<T>): seq<T> {
    if parts == [] then []
    else if |parts| == 1 then parts[0]
    else parts[0] + pat + Join(parts[1..], pat)
  }

  /** No element of `part` occurs in `pat`. */
  predicate Clear<T(==)>(part: seq<T>, pat: seq<T>) {
    forall c :: c in part ==> c !in pat
  }

  lemma FindAfterClear<T>(part: seq<T>, pat: seq<T>, rest: seq<T>)
    requires pat != [] && Clear(part, pat)
    ensures Find(part + pat + rest, pat) == Some(|part|)
  {
    var s := part + pat + rest;
    assert s[|part|..|part| + |pat|] == pat;
    forall j: nat | j < |part| ensures !At(s, pat, j) {
      assert s[j] == part[j] && part[j] in part;
      assert s[j..j + |pat|][0] == s[j];
    }
    FindIs(s, pat, |part|);
  }

  lemma FindInClear<T>(part: seq<T>, pat: seq<T>)
    requires pat != [] && Clear(part, pat)
    ensures Find(part, pat) == None
  {
    forall j: nat ensures !At(part, pat, j) {
      if j + |pat| <= |part| {
        assert part[j] in part && part[j..j + |pat|][0] == part[j];
      }
    }
    FindNone(part, pat);
  }

  /** Splitting what was joined gives the parts back. */
  lemma {:induction false} SplitJoin<T>(parts: seq<seq<T>>, pat: seq<T>)
    requires pat != [] && parts != [] && forall p :: p in parts ==> Clear(p, pat)
    ensures Split(Join(parts, pat), pat) == parts
  {
    var p := parts[0];
    if |parts| == 1 {
      FindInClear(p, pat);
    } else {
      var rest := Join(parts[1..], pat);
      var s := p + pat + rest;
      FindAfterClear(p, pat, rest);
      assert s[..|p|] == p && s[|p| + |pat|..] == rest;
      SplitJoin(parts[1..], pat);
      assert parts == [p] + parts[1..];
    }
  }

  lemma JoinFirst<T>(p: seq<T>, parts: seq<seq<T>>, pat: seq<T>)
    requires parts != []
    ensures Join([p] + parts, pat) == p + pat + Join(parts, pat)
  {
    assert ([p] + parts)[1..] == parts;
  }

  lemma CutOut<T>(s: seq<T>, i: nat, n: nat)
    requires i + n <= |s|
    ensures s == s[..i] + s[i..i + n] + s[i + n..]
  {
  }

  /** Joining what was split gives the text back. */
  lemma {:induction false} JoinSplit<T>(s: seq<T>, pat: seq<T>)
    requires pat != []
    ensures Join(Split(s, pat), pat) == s
    decreases |s|
  {
    FindFound(s, pat);
    match Find(s, pat) {
      case None =>
      case Some(i) =>
        var rest := s[i + |pat|..];
        JoinSplit(rest, pat);
        JoinFirst(s[..i], Split(rest, pat), pat);
        CutOut(s, i, |pat|);
    }
  }

  predicate NoneHolds<T(==)>(parts: seq<seq<T>>, pat: seq<T>) {
    forall p :: p in parts ==> Find(p, pat) == None
  }

  /** What stands before the first occurrence holds none. */
  lemma BeforeFirst<T>(s: seq<T>, pat: seq<T>)
    requires pat != [] && Find(s, pat).Some?
    ensures var i := Find(s, pat).value; i <= |s| && Find(s[..i], pat) == None
  {
    FindFound(s, pat);
    var i := Find(s, pat).value;
    forall j: nat ensures !At(s[..i], pat, j) {
      if j + |pat| <= i {
        assert !At(s, pat, j);
        assert s[..i][j..j + |pat|] == s[j..j + |pat|];
      }
    }
    FindNone(s[..i], pat);
  }

  /** No part of what was split holds the separator. */
  lemma {:induction false} SplitHoldsNone<T>(s: seq<T>, pat: seq<T>)
    requires pat != []
    ensures NoneHolds(Split(s, pat), pat)
    decreases |s|
  {
    FindBound(s, pat);
    if Find(s, pat).Some? {
      BeforeFirst(s, pat);
      SplitHoldsNone(s[Find(s, pat).value + |pat|..], pat);
    }
  }

  function DigitOf(n: nat): char
    requires n < 10
  {
    (n + 48) as char
  }

  predicate IsDigit(c: char) {
    '0' <= c <= '9'
  }

  /** `n` in decimal, without leading zeros. */
  function Decimal(n: nat): (s: string)
    ensures s != []
  {
    if n < 10 then [DigitOf(n)] else Decimal(n / 10) + [DigitOf(n % 10)]
  }

  lemma {:induction false} DecimalDigits(n: nat)
    ensures forall c :: c in Decimal(n) ==> IsDigit(c)
  {
    if n >= 10 {
      DecimalDigits(n / 10);
    }
  }

  /** The number a string of digits stands for. */
  function DigitsValue(s: string): Option<nat> {
    if s == [] then Some(0)
    else
      var c := s[|s| - 1];
      if !IsDigit(c) then None
      else
        match DigitsValue(s[..|s| - 1])
        case None => None
        case Some(v) => Some(10 * v + (c as int - 48))
  }

  lemma {:induction false} DecimalValue(n: nat)
    ensures DigitsValue(Decimal(n)) == Some(n)
  {
    var s := Decimal(n);
    if n < 10 {
      assert s[..0] == [];
      assert DigitsValue(s[..0]) == Some(0);
    } else {
      DecimalValue(n / 10);
      assert s[..|s| - 1] == Decimal(n / 10);
    }
  }

  /**
   * Unsigned parsing as the standard library does it: one leading plus sign is allowed, the
   * digits must not be empty and their value must stay below `limit`.
   */
  function ParseUnsigned(s: string, limit: nat): (r: Option<nat>)
    ensures r.Some? ==> r.value < limit
  {
    var digits := if s != [] && s[0] == '+' then s[1..] else s;
    if digits == [] then None
    else
      match DigitsValue(digits)
      case None => None
      case Some(v) => if v < limit then Some(v) else None
  }

  lemma ParseDecimal(n: nat, limit: nat)
    ensures ParseUnsigned(Decimal(n), limit) == if n < limit then Some(n) else None
  {
    DecimalDigits(n);
    DecimalValue(n);
    assert Decimal(n)[0] in Decimal(n);
  }
}
