/** Run identifiers: string order, decimal numerals, and deterministic split ids. */
module Ids {

  type Id = string

  /** The id under which the document itself stands as a run. */
  const ROOT: Id := "ROOT"

  const SEPARATOR: string := ":s:"

  /** The order of the string operator `<`, one code unit at a time. */
  predicate Less(a: string, b: string)
    decreases |a|
  {
    b != "" && (a == "" || a[0] < b[0] || (a[0] == b[0] && Less(a[1..], b[1..])))
  }

  lemma {:induction false} LessTransitive(a: string, b: string, c: string)
    requires Less(a, b) && Less(b, c)
    ensures Less(a, c)
    decreases |a|
  {
    if a != "" && a[0] == b[0] && b[0] == c[0] {
      LessTransitive(a[1..], b[1..], c[1..]);
    }
  }

  /** Exactly one of `a < b`, `a == b`, `b < a` holds. */
  lemma {:induction false} LessTrichotomy(a: string, b: string)
    ensures !(Less(a, b) && Less(b, a))
    ensures a == b ==> !Less(a, b)
    ensures a == b || Less(a, b) || Less(b, a)
    decreases |a|
  {
    if a != "" && b != "" && a[0] == b[0] {
      LessTrichotomy(a[1..], b[1..]);
      assert a == [a[0]] + a[1..] && b == [b[0]] + b[1..];
    }
  }

  /** Prefixes of equal length decide the order unless they coincide. */
  lemma {:induction false} LessConcat(p: string, a: string, q: string, b: string)
    requires |p| == |q|
    ensures Less(p + a, q + b) <==> Less(p, q) || (p == q && Less(a, b))
    decreases |p|
  {
    if p == "" {
      assert p + a == a && q + b == b;
    } else {
      assert (p + a)[1..] == p[1..] + a && (q + b)[1..] == q[1..] + b;
      LessConcat(p[1..], a, q[1..], b);
      assert p == [p[0]] + p[1..] && q == [q[0]] + q[1..];
    }
  }

  predicate IsDigit(c: char) { '0' <= c <= '9' }

  function Digit(d: nat): (c: char)
    requires d < 10
    ensures IsDigit(c)
  {
    '0' + d as char
  }

  /** Decimal numeral of a number, without leading zeros. */
  function Decimal(n: nat): (s: string)
    ensures |s| > 0
    ensures forall i :: 0 <= i < |s| ==> IsDigit(s[i])
  {
    if n < 10 then [Digit(n)] else Decimal(n / 10) + [Digit(n % 10)]
  }

  lemma {:induction false} DecimalInjective(m: nat, n: nat)
    requires Decimal(m) == Decimal(n)
    ensures m == n
    decreases m
  {
    var s := Decimal(m);
    assert s[|s| - 1] == Digit(m % 10) == Digit(n % 10);
    assert m % 10 == n % 10;
    if m >= 10 && n >= 10 {
      assert Decimal(m / 10) == s[..|s| - 1] == Decimal(n / 10);
      DecimalInjective(m / 10, n / 10);
    }
  }

  /** The id of the right half of `id` split at `offset`. */
  function SplitId(id: Id, offset: nat): (s: Id)
  {
    id + SEPARATOR + Decimal(offset)
  }

  ghost predicate HasSeparator(s: string)
  {
    exists i :: 0 <= i < |s| - 2 && s[i] == ':' && s[i + 1] == 's' && s[i + 2] == ':'
  }

  lemma SplitIdHasSeparator(id: Id, offset: nat)
    ensures HasSeparator(SplitId(id, offset))
    ensures SplitId(id, offset) != id && SplitId(id, offset) != ROOT
  {
    var s := SplitId(id, offset);
    assert s[|id|] == ':' && s[|id| + 1] == 's' && s[|id| + 2] == ':';
  }

  /** The last colon of a split id ends its separator. */
  lemma LastColon(id: Id, offset: nat)
    ensures var s := SplitId(id, offset);
            && |s| > |id| + 3
            && s[|id| + 2] == ':'
            && forall i :: |id| + 3 <= i < |s| ==> s[i] != ':'
  {
    var s, d := SplitId(id, offset), Decimal(offset);
    forall i | |id| + 3 <= i < |s| ensures s[i] != ':' {
      assert s[i] == d[i - (|id| + 3)];
    }
  }

  /** The two parts of a split id can be read back from it. */
  lemma SplitIdInjective(a: Id, j: nat, b: Id, k: nat)
    requires SplitId(a, j) == SplitId(b, k)
    ensures a == b && j == k
  {
    LastColon(a, j);
    LastColon(b, k);
    var s := SplitId(a, j);
    assert |a| == |b|;
    assert a == s[..|a|] && b == s[..|b|];
    assert Decimal(j) == s[|a| + 3..] && Decimal(k) == s[|b| + 3..];
    DecimalInjective(j, k);
  }
}
