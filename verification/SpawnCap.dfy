/** The cap on the runners of one spawn request: the counts are scaled down in place, in 64-bit
    arithmetic. */
module SpawnCap {

  const TWO_63 := 0x8000_0000_0000_0000
  const TWO_64 := 0x1_0000_0000_0000_0000

  /** Go's int: wrap-around on overflow. */
  function Wrap(x: int): int
  {
    (x + TWO_63) % TWO_64 - TWO_63
  }

  /** Go's division truncates toward zero. */
  function Quotient(a: int, b: int): int
    requires b > 0
  {
    if a >= 0 then a / b else -((-a) / b)
  }

  function WrappedTotal(counts: seq<int>): int
  {
    if counts == [] then 0 else Wrap(WrappedTotal(counts[..|counts| - 1]) + counts[|counts| - 1])
  }

  /** A type's part of the limit in proportion, rounded toward zero. */
  function Scaled(count: int, limit: int, total: int): int
    requires total > 0
  {
    Quotient(Wrap(count * limit), total)
  }

  /** A type's share of the limit, at least 1. */
  function Share(count: int, limit: int, total: int): int
    requires total > 0
  {
    if Scaled(count, limit, total) < 1 then 1 else Scaled(count, limit, total)
  }

  /** The shares of the first m types. */
  function Shares(counts: seq<int>, limit: int, total: int, m: nat): (shares: seq<int>)
    requires total > 0 && m <= |counts|
    ensures |shares| == m
  {
    if m == 0 then [] else Shares(counts, limit, total, m - 1) + [Share(counts[m - 1], limit, total)]
  }

  /** What the shares leave of the limit. */
  function Remaining(limit: int, shares: seq<int>): int
  {
    if shares == [] then limit else Wrap(Remaining(limit, shares[..|shares| - 1]) - shares[|shares| - 1])
  }

  /** The counts after the cap: the last type gets what remains, at least 1. */
  function Capped(counts: seq<int>, limit: nat): (capped: seq<int>)
    ensures |capped| == |counts|
  {
    var total, n := WrappedTotal(counts), |counts| - 1;
    if total <= limit then counts
    else
      var shares := Shares(counts, limit, total, n);
      var remaining := Remaining(limit, shares);
      shares + [if remaining < 1 then 1 else remaining]
  }

  /** The scaling loop of the spawn handler. */
  method CapCounts(counts: array<int>, limit: nat)
    modifies counts
    ensures counts[..] == Capped(old(counts[..]), limit)
  {
    ghost var was := counts[..];
    var total := 0;
    for i := 0 to counts.Length
      invariant total == WrappedTotal(counts[..i])
    {
      assert counts[..i + 1][..i] == counts[..i];
      total := Wrap(total + counts[i]);
    }
    assert counts[..counts.Length] == was;
    if total > limit {
      ScaleDown(counts, limit, total);
    }
  }

  /** The first m counts are shares, which leave `remaining`. */
  ghost predicate SharedOut(was: seq<int>, limit: int, total: int, m: nat, front: seq<int>, remaining: int)
    requires m <= |was| && 0 < total
  {
    front == Shares(was, limit, total, m) && remaining == Remaining(limit, front)
  }

  lemma SharesStep(was: seq<int>, limit: int, total: int, m: nat, front: seq<int>, remaining: int)
    requires m < |was| && 0 < total && SharedOut(was, limit, total, m, front, remaining)
    ensures var share := Share(was[m], limit, total);
            SharedOut(was, limit, total, m + 1, front + [share], Wrap(remaining - share))
  {
    var share := Share(was[m], limit, total);
    assert (front + [share])[..m] == front;
  }

  lemma SharedOutIsCapped(was: seq<int>, limit: nat, front: seq<int>, remaining: int)
    requires WrappedTotal(was) > limit
    requires SharedOut(was, limit, WrappedTotal(was), |was| - 1, front, remaining)
    ensures Capped(was, limit) == front + [if remaining < 1 then 1 else remaining]
  {
  }

  method ScaledCount(count: int, limit: int, total: int) returns (scaled: int)
    requires 0 < total
    ensures scaled == Share(count, limit, total)
  {
    scaled := Quotient(Wrap(count * limit), total);
    if scaled < 1 {
      scaled := 1;
    }
  }

  /** One turn of the loop, for a type that is not the last. */
  method ScaleOne(counts: array<int>, i: nat, ghost was: seq<int>, limit: int, total: int, before: int)
    returns (remaining: int)
    requires i < counts.Length == |was| && 0 < total && counts[i] == was[i]
    requires SharedOut(was, limit, total, i, counts[..i], before)
    modifies counts
    ensures SharedOut(was, limit, total, i + 1, counts[..i + 1], remaining)
    ensures counts[i + 1..] == old(counts[i + 1..])
  {
    var scaled := ScaledCount(counts[i], limit, total);
    SharesStep(was, limit, total, i, counts[..i], before);
    counts[i] := scaled;
    assert counts[..i + 1] == old(counts[..i]) + [scaled];
    remaining := Wrap(before - scaled);
  }

  method ScaleDown(counts: array<int>, limit: nat, total: int)
    requires total == WrappedTotal(counts[..]) > limit
    modifies counts
    ensures counts[..] == Capped(old(counts[..]), limit)
  {
    ghost var was := counts[..];
    var remaining: int := limit;
    var n := counts.Length - 1;
    for i := 0 to counts.Length
      invariant counts[i..] == was[i..]
      invariant i <= n ==> SharedOut(was, limit, total, i, counts[..i], remaining)
      invariant i > n ==> SharedOut(was, limit, total, n, counts[..n], remaining) && counts[n] == remaining
    {
      assert counts[i] == counts[i..][0] == was[i];
      if i == n {
        counts[i] := remaining;
      } else {
        remaining := ScaleOne(counts, i, was, limit, total, remaining);
        assert counts[i + 1..] == was[i..][1..];
      }
    }
    SharedOutIsCapped(was, limit, counts[..n], remaining);
    if remaining < 1 {
      counts[n] := 1;
    }
    assert counts[..] == counts[..n] + [counts[n]];
  }

  // ---------------------------------------------------------------------------
  // When the cap applies
  // ---------------------------------------------------------------------------

  function Total(counts: seq<int>): int
  {
    if counts == [] then 0 else Total(counts[..|counts| - 1]) + counts[|counts| - 1]
  }

  predicate Positive(counts: seq<int>)
  {
    forall i :: 0 <= i < |counts| ==> counts[i] >= 1
  }

  lemma WrapFits(x: int)
    requires -TWO_63 <= x < TWO_63
    ensures Wrap(x) == x
  {
  }

  /** The value of 64 bits that differs by a multiple of 2^64. */
  lemma WrapIs(x: int)
    ensures -0x8000_0000_0000_0000 <= Wrap(x) < 0x8000_0000_0000_0000
    ensures (x - Wrap(x)) % 0x1_0000_0000_0000_0000 == 0
  {
    assert x - Wrap(x) == (x + TWO_63) / TWO_64 * TWO_64;
  }

  /** The quotient is rounded toward zero. */
  lemma QuotientTruncates(a: int, b: int)
    requires b > 0
    ensures a >= 0 ==> Quotient(a, b) * b <= a < Quotient(a, b) * b + b
    ensures a <= 0 ==> Quotient(a, b) * b - b < a <= Quotient(a, b) * b
  {
  }

  lemma WrapAdds(a: int, b: int)
    ensures Wrap(Wrap(a) + b) == Wrap(a + b)
  {
    var x, y := Wrap(a) + b + TWO_63, a + b + TWO_63;
    var k := (a + TWO_63) / TWO_64;
    assert x == y - k * TWO_64;
    SameRemainder(y, k);
  }

  lemma SameRemainder(y: int, k: int)
    ensures (y - k * TWO_64) % TWO_64 == y % TWO_64
  {
  }

  /** The running sum wraps once, whatever it passes on the way. */
  lemma {:induction false} TotalWraps(counts: seq<int>)
    ensures WrappedTotal(counts) == Wrap(Total(counts))
  {
    if counts != [] {
      TotalWraps(counts[..|counts| - 1]);
      WrapAdds(Total(counts[..|counts| - 1]), counts[|counts| - 1]);
    }
  }

  lemma {:induction false} TotalAtLeast(counts: seq<int>)
    requires Positive(counts)
    ensures Total(counts) >= |counts|
  {
    if counts != [] {
      TotalAtLeast(counts[..|counts| - 1]);
    }
  }

  /** A request over the limit escapes the cap exactly when its total, wrapped to 64 bits, is not
      over the limit; so never while the total fits. */
  lemma EscapesIffWrapped(counts: seq<int>, limit: nat)
    requires Positive(counts) && 1 <= limit < Total(counts)
    ensures var entered := WrappedTotal(counts) > limit;
            && (!entered <==> Wrap(Total(counts)) <= limit)
            && (!entered ==> Capped(counts, limit) == counts && Total(counts) >= TWO_63)
            && (entered ==> var front := Shares(counts, limit, Wrap(Total(counts)), |counts| - 1);
                            Capped(counts, limit)[..|counts| - 1] == front)
  {
    TotalWraps(counts);
    if Total(counts) < TWO_63 {
      WrapFits(Total(counts));
    }
  }

  /** A request within the limit is left alone. */
  lemma WithinLimit(counts: seq<int>, limit: nat)
    requires Positive(counts) && Total(counts) <= limit < TWO_63
    ensures Capped(counts, limit) == counts
  {
    TotalWraps(counts);
    TotalAtLeast(counts);
    WrapFits(Total(counts));
  }

  /** Two counts whose sum overflows stay as they are. */
  lemma OverflowEscapes(limit: nat)
    ensures var huge := [TWO_63 / 2, TWO_63 / 2]; Positive(huge) && Capped(huge, limit) == huge
  {
    var h := TWO_63 / 2;
    assert [h, h][..1] == [h] && [h][..0] == [];
    assert WrappedTotal([h]) == h && WrappedTotal([h, h]) == -TWO_63;
  }

  // ---------------------------------------------------------------------------
  // One share
  // ---------------------------------------------------------------------------

  lemma TimesMore(a: int, b: int, c: int)
    requires 0 <= a <= b && 0 <= c
    ensures 0 <= a * c <= b * c
  {
  }

  lemma QuotientBounds(x: int, d: int, k: int)
    requires 0 <= x <= k * d && 0 < d
    ensures 0 <= x / d <= k && x / d * d <= x
    ensures x < d ==> x / d == 0
    ensures x >= d ==> x / d >= 1
  {
  }

  /** A product past 63 bits wraps to something smaller by at least 2^64. */
  lemma WrapLowers(x: int)
    requires x >= TWO_63
    ensures Wrap(x) <= x - TWO_64
  {
    assert (x + TWO_63) / TWO_64 >= 1;
  }

  lemma Divides(x: int, d: int)
    requires 0 < d
    ensures x / d * d <= x < x / d * d + d
    ensures x >= 0 ==> x / d >= 0
  {
  }

  lemma QuotientIs(x: int, d: int, q: int)
    requires 0 <= q && 0 < d && q * d <= x < q * d + d
    ensures x / d == q
  {
    var r := x / d;
    Divides(x, d);
    TimesMore(0, q, d);
    if r > q {
      TimesMore(q + 1, r, d);
    } else if r < q {
      TimesMore(r + 1, q, d);
    }
  }

  lemma QuotientGrows(a: int, b: int, d: int)
    requires a <= b && 0 <= b && 0 < d
    ensures Quotient(a, d) <= b / d
  {
    Divides(b, d);
    if a >= 0 {
      Divides(a, d);
      if a / d > b / d {
        TimesMore(b / d + 1, a / d, d);
      }
    } else {
      Divides(-a, d);
    }
  }

  /** Wrapping never raises a proportional part. */
  lemma ScaledBounds(count: int, limit: nat, total: int)
    requires 1 <= count && 1 <= limit < total
    ensures Scaled(count, limit, total) <= count * limit / total <= count
    ensures count * limit < TWO_63 ==> Scaled(count, limit, total) == count * limit / total
  {
    var product := count * limit;
    TimesMore(1, count, limit);
    TimesMore(limit, total, count);
    QuotientBounds(product, total, count);
    if product < TWO_63 {
      WrapFits(product);
    } else {
      WrapLowers(product);
      QuotientGrows(Wrap(product), product, total);
    }
  }

  /** One share: at least 1, not more than was asked, and not more than its proportion unless
      raised. */
  lemma ShareBounds(count: int, limit: nat, total: int)
    requires 1 <= count && 1 <= limit < total
    ensures 1 <= Share(count, limit, total) <= count
    ensures Scaled(count, limit, total) >= 1 ==> Share(count, limit, total) * total <= count * limit
  {
    var product := count * limit;
    ScaledBounds(count, limit, total);
    TimesMore(1, count, limit);
    TimesMore(limit, total, count);
    QuotientBounds(product, total, count);
    if Scaled(count, limit, total) >= 1 {
      TimesMore(Scaled(count, limit, total), product / total, total);
    }
  }

  /** The proportional share when nothing wraps. */
  function Proportional(count: int, limit: int, total: int): int
    requires total > 0
  {
    if count * limit < total then 1 else count * limit / total
  }

  lemma FittingProduct(count: int, limit: nat, total: int)
    requires 1 <= count && 1 <= limit < total && count * limit < TWO_63
    ensures Share(count, limit, total) == Proportional(count, limit, total)
  {
    var product := count * limit;
    ScaledBounds(count, limit, total);
    TimesMore(1, count, limit);
    TimesMore(limit, total, count);
    QuotientBounds(product, total, count);
  }

  lemma OverflowingProduct(x: int, d: int)
    requires TWO_63 <= x && 0 < d < TWO_63
    ensures x < 2 * d ==> x / d == 1 && Quotient(Wrap(x), d) <= 0
    ensures x >= 2 * d ==> x / d >= 2 && Quotient(Wrap(x), d) < x / d
  {
    WrapLowers(x);
    Divides(x, d);
    if x < 2 * d {
      QuotientIs(x, d, 1);
      assert Wrap(x) < 0;
      Divides(-Wrap(x), d);
    } else {
      var r := x / d;
      if r < 2 {
        TimesMore(r + 1, 2, d);
      }
      QuotientIs(x - 2 * d, d, r - 2);
      QuotientGrows(Wrap(x), x - 2 * d, d);
    }
  }

  /** The share is the proportional one exactly when its product fits in 64 bits or is below twice
      the total. */
  lemma ShareExactIffFits(count: int, limit: nat, total: int)
    requires 1 <= count && 1 <= limit < total < TWO_63
    ensures Share(count, limit, total) == Proportional(count, limit, total) <==>
            count * limit < TWO_63 || count * limit < 2 * total
  {
    if count * limit < TWO_63 {
      FittingProduct(count, limit, total);
    } else {
      OverflowingProduct(count * limit, total);
    }
  }

  /** A product that overflows costs nearly all of a type's share: the smaller type gets it. */
  lemma ProductOverflowSkews()
    ensures Capped([0x1000_0000_0000_0000, 1], 8) == [1, 7]
  {
    var h := 0x1000_0000_0000_0000;
    var c := [h, 1];
    assert c[..1] == [h] && [h][..0] == [];
    assert WrappedTotal([h]) == h && WrappedTotal(c) == h + 1;
    assert Wrap(h * 8) == -TWO_63 && Share(h, 8, h + 1) == 1;
    assert Shares(c, 8, h + 1, 0) == [] && Shares(c, 8, h + 1, 1) == [1];
    assert [1][..0] == [] && Remaining(8, [1]) == 7;
  }

  // ---------------------------------------------------------------------------
  // What the cap promises, whatever overflows
  // ---------------------------------------------------------------------------

  lemma OneMoreShare(counts: seq<int>, limit: int, total: int, m: nat)
    requires 0 < m <= |counts| && 0 < total
    ensures Total(Shares(counts, limit, total, m)) ==
            Total(Shares(counts, limit, total, m - 1)) + Share(counts[m - 1], limit, total)
  {
    assert Shares(counts, limit, total, m)[..m - 1] == Shares(counts, limit, total, m - 1);
  }

  /** The types, of the first m, whose share is raised to 1. */
  function Raised(counts: seq<int>, limit: int, total: int, m: nat): nat
    requires total > 0 && m <= |counts|
  {
    if m == 0 then 0
    else Raised(counts, limit, total, m - 1) + if Scaled(counts[m - 1], limit, total) < 1 then 1 else 0
  }

  lemma {:induction false} PrefixTotals(counts: seq<int>, m: nat)
    requires Positive(counts) && m <= |counts|
    ensures m <= Total(counts[..m]) <= Total(counts) - (|counts| - m)
    decreases |counts|
  {
    if m == |counts| {
      assert counts[..m] == counts;
      TotalAtLeast(counts);
    } else {
      PrefixTotals(counts[..|counts| - 1], m);
      assert counts[..|counts| - 1][..m] == counts[..m];
    }
  }

  /** A share as far as it is not raised. */
  function Unraised(count: int, limit: int, total: int): int
    requires total > 0
  {
    if Scaled(count, limit, total) < 1 then 0 else Share(count, limit, total)
  }

  lemma UnraisedInProportion(count: int, limit: nat, total: int)
    requires 1 <= count && 1 <= limit < total
    ensures Unraised(count, limit, total) * total <= count * limit
  {
    ShareBounds(count, limit, total);
    TimesMore(1, count, limit);
  }

  lemma AddProducts(a: int, b: int, c: int, d: int, total: int, limit: int)
    requires a * total <= c * limit && b * total <= d * limit
    ensures (a + b) * total <= (c + d) * limit
  {
  }

  /** The shares of the first m types, the raised ones left out. */
  function UnraisedTotal(counts: seq<int>, limit: int, total: int, m: nat): int
    requires total > 0 && m <= |counts|
  {
    Total(Shares(counts, limit, total, m)) - Raised(counts, limit, total, m)
  }

  lemma UnraisedStep(counts: seq<int>, limit: int, total: int, m: nat)
    requires 0 < total && 0 < m <= |counts|
    ensures UnraisedTotal(counts, limit, total, m) ==
            UnraisedTotal(counts, limit, total, m - 1) + Unraised(counts[m - 1], limit, total)
  {
    OneMoreShare(counts, limit, total, m);
  }

  /** The unraised shares are together in proportion: they leave something of the limit. */
  lemma {:induction false} SharesInProportion(counts: seq<int>, limit: nat, total: int, m: nat)
    requires Positive(counts) && m <= |counts| && 1 <= limit < total
    ensures UnraisedTotal(counts, limit, total, m) * total <= Total(counts[..m]) * limit
  {
    if m > 0 {
      SharesInProportion(counts, limit, total, m - 1);
      UnraisedInProportion(counts[m - 1], limit, total);
      UnraisedStep(counts, limit, total, m);
      assert counts[..m][..m - 1] == counts[..m - 1];
      AddProducts(UnraisedTotal(counts, limit, total, m - 1), Unraised(counts[m - 1], limit, total),
                  Total(counts[..m - 1]), counts[m - 1], total, limit);
    }
  }

  lemma {:induction false} SharesAtMost(counts: seq<int>, limit: nat, total: int, m: nat)
    requires Positive(counts) && m <= |counts| && 1 <= limit < total
    ensures 0 <= Total(Shares(counts, limit, total, m)) <= Total(counts[..m])
  {
    if m > 0 {
      SharesAtMost(counts, limit, total, m - 1);
      ShareBounds(counts[m - 1], limit, total);
      OneMoreShare(counts, limit, total, m);
      assert counts[..m][..m - 1] == counts[..m - 1];
    }
  }

  lemma WrapSubtracts(a: int, b: int)
    ensures Wrap(Wrap(a) - b) == Wrap(a - b)
  {
    WrapAdds(a, -b);
  }

  /** What remains is the true difference, wrapped once. */
  lemma {:induction false} RemainingIs(limit: int, shares: seq<int>)
    requires 0 <= limit < TWO_63
    ensures Remaining(limit, shares) == Wrap(limit - Total(shares))
  {
    if shares == [] {
      WrapFits(limit);
    } else {
      var before, last := shares[..|shares| - 1], shares[|shares| - 1];
      RemainingIs(limit, before);
      WrapSubtracts(limit - Total(before), last);
    }
  }

  lemma RemainingOfTwo(limit: int, a: int, b: int)
    requires 0 <= limit < TWO_63
    ensures Remaining(limit, [a, b]) == Wrap(limit - a - b)
  {
    assert [a, b][..1] == [a] && [a][..0] == [];
    assert Total([a]) == a && Total([a, b]) == a + b;
    RemainingIs(limit, [a, b]);
  }

  lemma {:induction false} ShareAt(counts: seq<int>, limit: nat, total: int, m: nat, i: nat)
    requires total > 0 && i < m <= |counts|
    ensures Shares(counts, limit, total, m)[i] == Share(counts[i], limit, total)
  {
    if i < m - 1 {
      ShareAt(counts, limit, total, m - 1, i);
    }
  }

  lemma SharesNotNegative(counts: seq<int>, limit: nat, total: int, m: nat)
    requires m <= |counts| && 0 < total
    ensures Total(Shares(counts, limit, total, m)) >= 0
  {
    forall i | 0 <= i < m ensures Shares(counts, limit, total, m)[i] >= 1 {
      ShareAt(counts, limit, total, m, i);
    }
    TotalAtLeast(Shares(counts, limit, total, m));
  }

  /** Whatever overflows, each type gets at least 1, and all but the last no more than was asked. */
  lemma CapBounds(counts: seq<int>, limit: nat, i: nat)
    requires Positive(counts) && 1 <= limit && i < |counts|
    ensures 1 <= Capped(counts, limit)[i]
    ensures i < |counts| - 1 ==> Capped(counts, limit)[i] <= counts[i]
  {
    var total := WrappedTotal(counts);
    if total > limit && i < |counts| - 1 {
      ShareAt(counts, limit, total, |counts| - 1, i);
      ShareBounds(counts[i], limit, total);
    }
  }

  /** The sum of the shares of all types but the last, from the request alone. */
  function FrontShares(counts: seq<int>, limit: nat): int
    requires counts != [] && WrappedTotal(counts) > 0
  {
    Total(Shares(counts, limit, WrappedTotal(counts), |counts| - 1))
  }

  lemma CappedIs(counts: seq<int>, limit: nat)
    requires limit < TWO_63 && WrappedTotal(counts) > limit
    ensures counts != []
    ensures var front, last := FrontShares(counts, limit), Capped(counts, limit)[|counts| - 1];
            && 0 <= front && Total(Capped(counts, limit)) == front + last
            && last == (if Wrap(limit - front) < 1 then 1 else Wrap(limit - front))
            && (front < limit ==> last == limit - front)
  {
    var total, n := WrappedTotal(counts), |counts| - 1;
    RemainingIs(limit, Shares(counts, limit, total, n));
    SharesNotNegative(counts, limit, total, n);
    assert Capped(counts, limit)[..n] == Shares(counts, limit, total, n);
    if FrontShares(counts, limit) < limit {
      WrapFits(limit - FrontShares(counts, limit));
    }
  }

  /** Once the cap is entered, whatever overflows: the capped total is exactly the limit, or above it
      if and only if the shares of all types but the last already use the limit up. */
  lemma CapTotal(counts: seq<int>, limit: nat)
    requires limit < TWO_63 && WrappedTotal(counts) > limit
    ensures counts != []
    ensures Total(Capped(counts, limit)) >= limit
    ensures Total(Capped(counts, limit)) > limit <==> FrontShares(counts, limit) >= limit
  {
    CappedIs(counts, limit);
  }

  /** Of all requests exactly these exceed the limit afterwards: those over it whose wrapped total is
      not, and those whose shares before the last use it up. */
  lemma ExceedsIff(counts: seq<int>, limit: nat)
    requires Positive(counts) && limit < TWO_63
    ensures Total(Capped(counts, limit)) > limit <==>
            Total(counts) > limit &&
            (WrappedTotal(counts) <= limit || (counts != [] && FrontShares(counts, limit) >= limit))
  {
    TotalWraps(counts);
    TotalAtLeast(counts);
    if Total(counts) <= limit {
      WithinLimit(counts, limit);
    } else if WrappedTotal(counts) > limit {
      CapTotal(counts, limit);
    }
  }

  lemma FittingFront(counts: seq<int>, limit: nat)
    requires Positive(counts) && 1 <= limit < Total(counts) < TWO_63
    ensures counts != [] && WrappedTotal(counts) == Total(counts)
    ensures Wrap(limit - FrontShares(counts, limit)) == limit - FrontShares(counts, limit)
  {
    TotalWraps(counts);
    WrapFits(Total(counts));
    SharesAtMost(counts, limit, Total(counts), |counts| - 1);
    PrefixTotals(counts, |counts| - 1);
    WrapFits(limit - FrontShares(counts, limit));
  }

  lemma UnraisedFront(counts: seq<int>, limit: nat)
    requires Positive(counts) && 1 <= limit < Total(counts) < TWO_63
    ensures counts != [] && WrappedTotal(counts) == Total(counts)
    ensures FrontShares(counts, limit) - Raised(counts, limit, Total(counts), |counts| - 1) < limit
  {
    FittingFront(counts, limit);
    var total, n := Total(counts), |counts| - 1;
    SharesInProportion(counts, limit, total, n);
    PrefixTotals(counts, n);
    LeavesSome(UnraisedTotal(counts, limit, total, n), total, Total(counts[..n]), limit);
  }

  /** While the requested total fits, the capped one is at most the limit plus the raised shares, so
      exactly the limit if none is raised. */
  lemma ExcessIsRaised(counts: seq<int>, limit: nat)
    requires Positive(counts) && 1 <= limit < Total(counts) < TWO_63
    ensures counts != []
    ensures limit <= Total(Capped(counts, limit)) <= limit + Raised(counts, limit, Total(counts), |counts| - 1)
  {
    FittingFront(counts, limit);
    UnraisedFront(counts, limit);
    CappedIs(counts, limit);
  }

  lemma LeavesSome(x: int, total: int, part: int, limit: int)
    requires x * total <= part * limit && 0 <= part < total && 1 <= limit
    ensures x < limit
  {
  }

  /** The last type gets more than it asked for if and only if the cap is entered and leaves it more:
      while the total fits, if its request and the other shares together stay below the limit. */
  lemma LastGetsMoreIff(counts: seq<int>, limit: nat)
    requires Positive(counts) && counts != [] && limit < TWO_63
    ensures Capped(counts, limit)[|counts| - 1] > counts[|counts| - 1] <==>
            WrappedTotal(counts) > limit && Wrap(limit - FrontShares(counts, limit)) > counts[|counts| - 1]
    ensures 1 <= limit < Total(counts) < TWO_63 ==>
              WrappedTotal(counts) == Total(counts) &&
              (Capped(counts, limit)[|counts| - 1] > counts[|counts| - 1] <==>
               FrontShares(counts, limit) + counts[|counts| - 1] < limit)
  {
    if WrappedTotal(counts) > limit {
      CappedIs(counts, limit);
    }
    if 1 <= limit < Total(counts) < TWO_63 {
      FittingFront(counts, limit);
    }
  }

  /** One runner each for two types, with a limit of 1, stays two: above the limit. */
  lemma LimitExceeded()
    ensures Capped([1, 1], 1) == [1, 1]
  {
    var c := [1, 1];
    assert c[..1] == [1] && [1][..0] == [];
    assert WrappedTotal([1]) == 1 && WrappedTotal(c) == 2;
    assert Shares(c, 1, 2, 0) == [] && Shares(c, 1, 2, 1) == [1];
    assert Remaining(1, [1]) == 0;
  }

  lemma FiveFiveOne()
    ensures var c := [5, 5, 1];
            WrappedTotal(c) == 11 && Shares(c, 10, 11, 2) == [4, 4]
  {
    var c := [5, 5, 1];
    assert c[..2] == [5, 5] && [5, 5][..1] == [5] && [5][..0] == [];
    assert WrappedTotal([5]) == 5 && WrappedTotal([5, 5]) == 10;
    assert Share(5, 10, 11) == 4;
    assert Shares(c, 10, 11, 0) == [] && Shares(c, 10, 11, 1) == [4];
  }

  /** Of 5, 5 and 1 under a limit of 10 the last gets 2. */
  lemma LastGetsMore()
    ensures Capped([5, 5, 1], 10) == [4, 4, 2]
  {
    FiveFiveOne();
    RemainingOfTwo(10, 4, 4);
  }

  lemma StillOverLimit()
    ensures var c := [1000, TWO_63 - 500, TWO_63 - 489];
            WrappedTotal(c) == 11 && Shares(c, 10, 11, 2) == [909, 1]
  {
    var c := [1000, TWO_63 - 500, TWO_63 - 489];
    assert c[..2] == [1000, TWO_63 - 500] && c[..2][..1] == [1000] && [1000][..0] == [];
    assert WrappedTotal([1000]) == 1000 && WrappedTotal(c[..2]) == 500 - TWO_63;
    assert Share(1000, 10, 11) == 909 && Share(TWO_63 - 500, 10, 11) == 1;
    assert Shares(c, 10, 11, 0) == [] && Shares(c, 10, 11, 1) == [909];
  }

  /** A total that wraps to 11 is capped in the proportions of 11: a limit of 10 lets 911 through. */
  lemma WrappedTotalExceeds()
    ensures Capped([1000, TWO_63 - 500, TWO_63 - 489], 10) == [909, 1, 1]
  {
    StillOverLimit();
    RemainingOfTwo(10, 909, 1);
  }
}
