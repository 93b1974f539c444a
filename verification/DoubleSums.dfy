/**
 The estimator's additions: its sums of whole numbers are those of IEEE 754 doubles, rounded to the nearest and
 ties to even.
 */
module DoubleSums {
  import opened Basics
  import opened Pricing

  /// The distance between neighbouring doubles at `n`, for whole numbers up to 2^56.
  function Spacing(n: nat): nat {
    if n <= 0x20_0000_0000_0000 then 1
    else if n <= 0x40_0000_0000_0000 then 2
    else if n <= 0x80_0000_0000_0000 then 4
    else 8
  }

  predicate IsDouble(n: nat) {
    n % Spacing(n) == 0
  }

  function Distance(a: nat, b: nat): nat {
    if a < b then b - a else a - b
  }

  /// The exact sum lies `rest` above `down`, and the sum is `down` or the next double.
  predicate Picks(down: nat, rest: nat, gap: nat, even: bool, sum: nat) {
    sum == if 2 * rest < gap || (2 * rest == gap && even) then down else down + gap
  }

  lemma NearestOfTwo(down: nat, rest: nat, gap: nat, even: bool, sum: nat, d: nat)
    requires rest < gap && Picks(down, rest, gap, even, sum) && (d <= down || d >= down + gap)
    ensures Distance(sum, down + rest) <= Distance(d, down + rest)
    ensures d != sum && Distance(d, down + rest) == Distance(sum, down + rest) ==>
      2 * rest == gap && sum == if even then down else down + gap
  {
  }

  lemma NoMultipleBetween(k: nat, gap: nat, m: nat)
    ensures gap * m <= gap * k || gap * m >= gap * k + gap
  {
    if m <= k {
      assert gap * (k - m) == gap * k - gap * m;
      return;
    }
    assert gap * (m - k - 1) == gap * m - gap * k - gap;
  }

  lemma NoDoubleBetween(down: nat, gap: nat, d: nat)
    requires gap > 0 && down % gap == 0 && d % gap == 0
    ensures d <= down || d >= down + gap
  {
    NoMultipleBetween(down / gap, gap, d / gap);
  }

  lemma FinerIsBelow(n: nat, d: nat)
    requires Spacing(d) < Spacing(n) && n <= 0x100_0000_0000_0000
    ensures d <= n - n % Spacing(n)
  {
    if Spacing(n) == 2 {
      return;
    }
    if Spacing(n) == 4 {
      return;
    }
  }

  lemma CoarserIsMultiple(n: nat, d: nat)
    requires IsDouble(d) && Spacing(n) <= Spacing(d)
    ensures d % Spacing(n) == 0
  {
    if Spacing(n) == 1 {
      return;
    }
    if Spacing(n) == 2 {
      return;
    }
    if Spacing(n) == 4 {
      return;
    }
  }

  lemma NearestTimes(q: nat, rest: nat, gap: nat)
    ensures Picks(gap * q, rest, gap, q % 2 == 0, gap * Nearest(q, 2 * rest, gap))
  {
    assert gap * (q + 1) == gap * q + gap;
  }

  lemma SumRounds(a: nat, b: nat)
    requires a + b <= 0x100_0000_0000_0000 && Spacing(a + b) > 1
    ensures var n, gap := a + b, Spacing(a + b);
      Picks(gap * (n / gap), n % gap, gap, n / gap % 2 == 0, DoubleAdd(a, b))
  {
    NearestTimes((a + b) / Spacing(a + b), (a + b) % Spacing(a + b), Spacing(a + b));
  }

  lemma DownIsDouble(n: nat)
    requires Spacing(n) > 1
    ensures var gap := Spacing(n);
      && gap * (n / gap) == n - n % gap && (n - n % gap) % gap == 0 && (n - n % gap + gap) % gap == 0
      && (n - n % gap) / gap == n / gap && (n - n % gap + gap) / gap == n / gap + 1
  {
    if Spacing(n) == 2 {
      return;
    }
    if Spacing(n) == 4 {
      return;
    }
  }

  /// Doubles lie at or below what the exact sum can be rounded down to, or from the next one on.
  lemma DoublesAround(n: nat, d: nat)
    requires n <= 0x100_0000_0000_0000 && IsDouble(d) && Spacing(n) > 1
    ensures d <= n - n % Spacing(n) || d >= n - n % Spacing(n) + Spacing(n)
  {
    if Spacing(d) < Spacing(n) {
      FinerIsBelow(n, d);
      return;
    }
    CoarserIsMultiple(n, d);
    DownIsDouble(n);
    NoDoubleBetween(n - n % Spacing(n), Spacing(n), d);
  }

  lemma PickIsEven(down: nat, rest: nat, gap: nat, q: nat, sum: nat)
    requires gap > 0 && 2 * rest == gap && Picks(down, rest, gap, q % 2 == 0, sum)
    requires down / gap == q && (down + gap) / gap == q + 1
    ensures sum / gap % 2 == 0
  {
    if q % 2 == 0 {
      assert sum == down;
      return;
    }
    assert sum == down + gap;
  }

  /// What the sum is picked from.
  lemma SumPicks(a: nat, b: nat)
    requires a + b <= 0x100_0000_0000_0000 && Spacing(a + b) > 1
    ensures var n, gap := a + b, Spacing(a + b);
      Picks(n - n % gap, n % gap, gap, n / gap % 2 == 0, DoubleAdd(a, b))
  {
    SumRounds(a, b);
    DownIsDouble(a + b);
  }

  lemma NearestAround(down: nat, rest: nat, gap: nat, q: nat, sum: nat, d: nat)
    requires rest < gap && Picks(down, rest, gap, q % 2 == 0, sum) && (d <= down || d >= down + gap)
    requires down / gap == q && (down + gap) / gap == q + 1
    ensures Distance(sum, down + rest) <= Distance(d, down + rest)
    ensures d != sum && Distance(d, down + rest) == Distance(sum, down + rest) ==> sum / gap % 2 == 0
  {
    NearestOfTwo(down, rest, gap, q % 2 == 0, sum, d);
    if d != sum && Distance(d, down + rest) == Distance(sum, down + rest) {
      PickIsEven(down, rest, gap, q, sum);
    }
  }

  /**
   The sum is the double nearest to the exact sum; of two that are equally near, the one with the even
   significand.
   */
  lemma SumIsNearest(a: nat, b: nat, d: nat)
    requires a + b <= 0x100_0000_0000_0000 && IsDouble(d)
    ensures Distance(DoubleAdd(a, b), a + b) <= Distance(d, a + b)
    ensures d != DoubleAdd(a, b) && Distance(d, a + b) == Distance(DoubleAdd(a, b), a + b) ==>
      DoubleAdd(a, b) / Spacing(a + b) % 2 == 0
  {
    var n := a + b;
    if Spacing(n) == 1 {
      return;
    }
    SumPicks(a, b);
    DownIsDouble(n);
    DoublesAround(n, d);
    NearestAround(n - n % Spacing(n), n % Spacing(n), Spacing(n), n / Spacing(n), DoubleAdd(a, b), d);
  }

  lemma SpacingBelow(sum: nat, n: nat)
    requires sum <= 0x20_0000_0000_0000 * Spacing(n)
    ensures Spacing(sum) <= Spacing(n)
  {
  }

  lemma FinerDivides(sum: nat, n: nat)
    requires sum % Spacing(n) == 0 && Spacing(sum) <= Spacing(n)
    ensures sum % Spacing(sum) == 0
  {
    if Spacing(sum) == Spacing(n) || Spacing(sum) == 1 {
      return;
    }
    if Spacing(sum) == 2 {
      assert Spacing(n) == 4 || Spacing(n) == 8;
      return;
    }
    assert Spacing(sum) == 4 && Spacing(n) == 8;
  }

  lemma NextIsMultiple(down: nat, rest: nat, gap: nat, even: bool, sum: nat)
    requires gap > 0 && down % gap == 0 && (down + gap) % gap == 0 && Picks(down, rest, gap, even, sum)
    ensures sum % gap == 0
  {
  }

  lemma SumIsInRange(a: nat, b: nat)
    requires a + b <= 0x100_0000_0000_0000
    ensures DoubleAdd(a, b) <= 0x20_0000_0000_0000 * Spacing(a + b)
  {
  }

  /** It is a double itself. */
  lemma SumIsDouble(a: nat, b: nat)
    requires a + b <= 0x100_0000_0000_0000
    ensures IsDouble(DoubleAdd(a, b))
  {
    var n, gap := a + b, Spacing(a + b);
    if gap == 1 {
      return;
    }
    SumPicks(a, b);
    DownIsDouble(n);
    NextIsMultiple(n - n % gap, n % gap, gap, n / gap % 2 == 0, DoubleAdd(a, b));
    SumIsInRange(a, b);
    SpacingBelow(DoubleAdd(a, b), n);
    FinerDivides(DoubleAdd(a, b), n);
  }
}
