/** Hybrid logical clocks: advancing, merging, comparing and serializing them. */
module Hlc {
  import opened Ids

  datatype Hlc = Hlc(ts: nat, count: nat, peerId: string)

  const TS_PAD := 15
  const COUNT_PAD := 5

  /** Characters of a serialized clock in front of its peer id. */
  const STAMP := 22

  function Increment(local: Hlc, now: nat): Hlc
  {
    if now > local.ts then Hlc(now, 0, local.peerId)
    else Hlc(local.ts, local.count + 1, local.peerId)
  }

  function Max(a: nat, b: nat): nat { if a > b then a else b }

  function Receive(local: Hlc, remote: Hlc, now: nat): Hlc
  {
    var maxTs := Max(now, Max(local.ts, remote.ts));
    var count :=
      if maxTs == local.ts && maxTs == remote.ts then Max(local.count, remote.count) + 1
      else if maxTs == local.ts then local.count + 1
      else if maxTs == remote.ts then remote.count + 1
      else 0;
    Hlc(maxTs, count, local.peerId)
  }

  /** Negative, zero or positive: by time, then counter, then peer id. */
  function Compare(a: Hlc, b: Hlc): int
  {
    if a.ts != b.ts then a.ts - b.ts
    else if a.count != b.count then a.count - b.count
    else if Less(a.peerId, b.peerId) then -1
    else if Less(b.peerId, a.peerId) then 1
    else 0
  }

  /** `a` is strictly earlier in (ts, count), whatever the peers. */
  predicate Earlier(a: Hlc, b: Hlc)
  {
    a.ts < b.ts || (a.ts == b.ts && a.count < b.count)
  }

  /** Both clock steps move strictly forward, past everything they have seen. */
  lemma StepsForward(local: Hlc, remote: Hlc, now: nat)
    ensures Earlier(local, Increment(local, now))
    ensures Earlier(local, Receive(local, remote, now)) && Earlier(remote, Receive(local, remote, now))
    ensures Increment(local, now).ts == Max(now, local.ts)
    ensures Receive(local, remote, now).ts == Max(now, Max(local.ts, remote.ts))
  {
  }

  /** And no further than they must: nothing later that keeps the wall time comes before the next tick. */
  lemma IncrementLeast(local: Hlc, now: nat, h: Hlc)
    requires h.ts >= now && Earlier(local, h)
    ensures !Earlier(h, Increment(local, now)) && Increment(local, now).peerId == local.peerId
  {
  }

  lemma ReceiveLeast(local: Hlc, remote: Hlc, now: nat, h: Hlc)
    requires h.ts >= now && Earlier(local, h) && Earlier(remote, h)
    ensures !Earlier(h, Receive(local, remote, now)) && Receive(local, remote, now).peerId == local.peerId
  {
  }

  /** `Compare` is a total order on clocks. */
  lemma CompareTotalOrder(a: Hlc, b: Hlc, c: Hlc)
    ensures Compare(a, b) == 0 <==> a == b
    ensures Compare(a, b) < 0 <==> Compare(b, a) > 0
    ensures Compare(a, b) < 0 && Compare(b, c) < 0 ==> Compare(a, c) < 0
  {
    LessTrichotomy(a.peerId, b.peerId);
    LessTrichotomy(b.peerId, c.peerId);
    LessTrichotomy(a.peerId, c.peerId);
    if Less(a.peerId, b.peerId) && Less(b.peerId, c.peerId) {
      LessTransitive(a.peerId, b.peerId, c.peerId);
    }
  }

  // ----- padded numerals

  function Zeros(n: nat): string { if n == 0 then "" else Zeros(n - 1) + "0" }

  function PadStart(s: string, width: nat): string
  {
    if |s| >= width then s else Zeros(width - |s|) + s
  }

  function Pow10(n: nat): nat { if n == 0 then 1 else 10 * Pow10(n - 1) }

  /** The last `width` decimal digits. */
  function Fixed(n: nat, width: nat): (s: string)
    ensures |s| == width
    ensures forall i :: 0 <= i < width ==> IsDigit(s[i])
    decreases width
  {
    if width == 0 then "" else Fixed(n / 10, width - 1) + [Digit(n % 10)]
  }

  lemma {:induction false} FixedZero(width: nat)
    ensures Fixed(0, width) == Zeros(width)
  {
    if width > 0 { FixedZero(width - 1); }
  }

  /** A number that fits is padded to exactly its width. */
  lemma {:induction false} PadIsFixed(n: nat, width: nat)
    requires n < Pow10(width) && width > 0
    ensures PadStart(Decimal(n), width) == Fixed(n, width)
    decreases width
  {
    if n < 10 {
      FixedZero(width - 1);
      ZerosLength(width - 1);
    } else {
      PadIsFixed(n / 10, width - 1);
      var s, last := Decimal(n / 10), [Digit(n % 10)];
      if |s| < width - 1 {
        assert width - |Decimal(n)| == width - 1 - |s|;
        assert Zeros(width - 1 - |s|) + (s + last) == Zeros(width - 1 - |s|) + s + last;
      }
    }
  }

  lemma {:induction false} ZerosLength(n: nat)
    ensures |Zeros(n)| == n
  {
    if n > 0 { ZerosLength(n - 1); }
  }

  /** Fixed-width numerals sort as numbers. */
  lemma {:induction false} FixedOrder(m: nat, n: nat, width: nat)
    requires m < Pow10(width) && n < Pow10(width)
    ensures Less(Fixed(m, width), Fixed(n, width)) <==> m < n
    ensures Fixed(m, width) == Fixed(n, width) <==> m == n
    decreases width
  {
    if width > 0 {
      FixedOrder(m / 10, n / 10, width - 1);
      var a, b := [Digit(m % 10)], [Digit(n % 10)];
      LessConcat(Fixed(m / 10, width - 1), a, Fixed(n / 10, width - 1), b);
      assert a[1..] == b[1..] == "";
      assert Fixed(m, width)[..width - 1] == Fixed(m / 10, width - 1);
      assert Fixed(n, width)[..width - 1] == Fixed(n / 10, width - 1);
      assert Fixed(m, width)[width - 1] == a[0] && Fixed(n, width)[width - 1] == b[0];
    }
  }

  // ----- serialized clocks

  /** Time and counter fit their padded widths. */
  predicate Fits(h: Hlc)
  {
    h.ts < 1_000_000_000_000_000 && h.count < 100_000
  }

  function Stamp(h: Hlc): string
  {
    PadStart(Decimal(h.ts), TS_PAD) + ":" + PadStart(Decimal(h.count), COUNT_PAD) + ":"
  }

  /** `{ts padded}:{count padded}:{peerId}` */
  function ToString(h: Hlc): string
  {
    Stamp(h) + h.peerId
  }

  lemma Pow10Values()
    ensures Pow10(5) == 100_000 && Pow10(15) == 1_000_000_000_000_000
  {
    assert Pow10(5) == 100_000;
    assert Pow10(10) == 100_000 * Pow10(5);
    assert Pow10(15) == 100_000 * Pow10(10);
  }

  lemma StampShape(h: Hlc)
    requires Fits(h)
    ensures Stamp(h) == Fixed(h.ts, TS_PAD) + ":" + Fixed(h.count, COUNT_PAD) + ":"
    ensures |Stamp(h)| == STAMP && ToString(h)[..STAMP] == Stamp(h)
  {
    Pow10Values();
    PadIsFixed(h.ts, TS_PAD);
    PadIsFixed(h.count, COUNT_PAD);
  }

  /** Two equally long pairs joined with colons sort like the pairs. */
  lemma PairOrder(ta: string, ca: string, tb: string, cb: string)
    requires |ta| == |tb| && |ca| == |cb|
    ensures Less(ta + ":" + ca + ":", tb + ":" + cb + ":") <==> Less(ta, tb) || (ta == tb && Less(ca, cb))
    ensures ta + ":" + ca + ":" == tb + ":" + cb + ":" <==> ta == tb && ca == cb
  {
    LessTrichotomy(":", ":");
    LessConcat(ta + ":" + ca, ":", tb + ":" + cb, ":");
    LessConcat(ta + ":", ca, tb + ":", cb);
    LessConcat(ta, ":", tb, ":");
    PairEqual(ta, ca, tb, cb);
  }

  lemma PairEqual(ta: string, ca: string, tb: string, cb: string)
    requires |ta| == |tb| && |ca| == |cb|
    ensures ta + ":" == tb + ":" <==> ta == tb
    ensures ta + ":" + ca == tb + ":" + cb <==> ta == tb && ca == cb
    ensures ta + ":" + ca + ":" == tb + ":" + cb + ":" <==> ta == tb && ca == cb
  {
    ConcatEqual(ta, ":", tb, ":");
    ConcatEqual(ta + ":", ca, tb + ":", cb);
    ConcatEqual(ta + ":" + ca, ":", tb + ":" + cb, ":");
  }

  lemma ConcatEqual(p: string, a: string, q: string, b: string)
    requires |p| == |q|
    ensures p + a == q + b <==> p == q && a == b
  {
    assert (p + a)[..|p|] == p && (q + b)[..|p|] == q;
    assert (p + a)[|p|..] == a && (q + b)[|p|..] == b;
  }

  /** Stamps sort by (ts, count). */
  lemma StampOrder(a: Hlc, b: Hlc)
    requires Fits(a) && Fits(b)
    ensures |Stamp(a)| == |Stamp(b)| == STAMP
    ensures Less(Stamp(a), Stamp(b)) <==> Earlier(a, b)
    ensures Stamp(a) == Stamp(b) <==> a.ts == b.ts && a.count == b.count
  {
    StampShape(a);
    StampShape(b);
    Pow10Values();
    FixedOrder(a.ts, b.ts, TS_PAD);
    FixedOrder(a.count, b.count, COUNT_PAD);
    PairOrder(Fixed(a.ts, TS_PAD), Fixed(a.count, COUNT_PAD), Fixed(b.ts, TS_PAD), Fixed(b.count, COUNT_PAD));
  }

  /** String order of serialized clocks is `Compare`, and serializing loses nothing. */
  lemma StringOrderIsCompare(a: Hlc, b: Hlc)
    requires Fits(a) && Fits(b)
    ensures Less(ToString(a), ToString(b)) <==> Compare(a, b) < 0
    ensures ToString(a) == ToString(b) <==> a == b
  {
    StampOrder(a, b);
    LessConcat(Stamp(a), a.peerId, Stamp(b), b.peerId);
    LessTrichotomy(a.peerId, b.peerId);
    StampShape(a);
    StampShape(b);
    assert ToString(a)[STAMP..] == a.peerId && ToString(b)[STAMP..] == b.peerId;
  }

  // ----- ids that descend from a clock

  /** `id` starts with a stamp no later than the clock's. */
  ghost predicate StampedBy(id: Id, h: Hlc)
  {
    |id| >= STAMP && (id[..STAMP] == Stamp(h) || Less(id[..STAMP], Stamp(h)))
  }

  lemma OwnStamp(h: Hlc)
    requires Fits(h)
    ensures StampedBy(ToString(h), h)
  {
    StampShape(h);
  }

  /** Splitting an id, however often, keeps its stamp. */
  lemma SplitKeepsStamp(id: Id, offset: nat, h: Hlc)
    requires StampedBy(id, h)
    ensures StampedBy(SplitId(id, offset), h)
  {
    assert SplitId(id, offset)[..STAMP] == id[..STAMP];
  }

  /** A strictly later clock sorts above the id and everything split from it. */
  lemma LaterSortsAbove(id: Id, h: Hlc, later: Hlc)
    requires StampedBy(id, h) && Fits(h) && Fits(later) && Earlier(h, later)
    ensures Less(id, ToString(later)) && StampedBy(id, later)
  {
    StampOrder(h, later);
    if id[..STAMP] != Stamp(h) {
      LessTransitive(id[..STAMP], Stamp(h), Stamp(later));
    }
    LessConcat(id[..STAMP], id[STAMP..], Stamp(later), later.peerId);
    assert id == id[..STAMP] + id[STAMP..];
  }

  /** Peer ids that never put a separator into a serialized clock. */
  ghost predicate CleanPeer(peerId: string)
  {
    !HasSeparator(peerId) && !(|peerId| >= 2 && peerId[0] == 's' && peerId[1] == ':')
  }

  /** A serialized clock contains ":s:" exactly when its peer id brings it in. */
  lemma SeparatorFreeIds(h: Hlc)
    requires Fits(h)
    ensures !HasSeparator(ToString(h)) <==> CleanPeer(h.peerId)
    ensures ToString(h) != ROOT
  {
    StampShape(h);
    SeparatorConcat(Stamp(h), h.peerId);
    assert ToString(h)[21] == ':';
  }

  /** Behind a colon, a separator comes from the right part or straddles the boundary. */
  lemma SeparatorConcat(a: string, p: string)
    requires a != "" && a[|a| - 1] == ':' && 's' !in a
    ensures HasSeparator(a + p) <==> HasSeparator(p) || (|p| >= 2 && p[0] == 's' && p[1] == ':')
  {
    var s, n := a + p, |a|;
    if HasSeparator(p) {
      var i :| 0 <= i < |p| - 2 && p[i] == ':' && p[i + 1] == 's' && p[i + 2] == ':';
      assert s[n + i] == p[i] && s[n + i + 1] == p[i + 1] && s[n + i + 2] == p[i + 2];
    } else if |p| >= 2 && p[0] == 's' && p[1] == ':' {
      assert s[n - 1] == a[n - 1] && s[n] == p[0] && s[n + 1] == p[1];
    }
    if HasSeparator(s) {
      var i :| 0 <= i < |s| - 2 && s[i] == ':' && s[i + 1] == 's' && s[i + 2] == ':';
      assert forall j :: 0 <= j < n ==> s[j] in a;
      assert s[i + 1] == p[i + 1 - n] && s[i + 2] == p[i + 2 - n];
      if i >= n {
        assert s[i] == p[i - n];
      }
    }
  }
}
