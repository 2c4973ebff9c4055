/** sampleEvenly, with exact arithmetic in place of floating point. */
module EvenSampler {
  /** math.Round: to the nearest integer, halves away from zero. */
  function Round(x: real): int {
    if x >= 0.0 then (x + 0.5).Floor else -((0.5 - x).Floor)
  }

  /** To the nearest integer, upwards from a half on; negative numbers as their opposites. */
  lemma RoundMeans(x: real)
    ensures x >= 0.0 ==> Round(x) as real - 0.5 <= x < Round(x) as real + 0.5
    ensures Round(-x) == -Round(x)
  {
  }

  function Step(len: nat, n: nat): real
    requires len > n >= 2
  {
    (len - 1) as real / (n - 1) as real
  }

  /** The even position of the i-th pick. */
  function Position(i: nat, step: real): real {
    i as real * step
  }

  /** The index picked i-th. */
  function Picked(i: nat, len: nat, n: nat): int
    requires len > n >= 2
  {
    Round(Position(i, Step(len, n)))
  }

  lemma StepIs(len: nat, n: nat)
    requires len > n >= 2
    ensures Step(len, n) == (len - 1) as real / (n - 1) as real
  {
  }

  // ---------- arithmetic ----------

  lemma QuotientFloor(a: nat, b: nat)
    requires b > 0
    ensures (a as real / b as real).Floor == a / b
    ensures a % b == 0 ==> a as real / b as real == (a / b) as real
  {
    var q, r := a / b, a % b;
    var x := a as real / b as real;
    assert a == b * q + r;
    assert a as real == b as real * q as real + r as real;
    assert x == q as real + r as real / b as real;
    FractionBounds(r, b);
  }

  lemma FractionBounds(r: nat, b: nat)
    requires r < b
    ensures 0.0 <= r as real / b as real < 1.0
    ensures r == 0 ==> r as real / b as real == 0.0
  {
    var x := r as real / b as real;
    assert x * b as real == r as real;
    assert x >= 1.0 ==> x * b as real >= b as real;
    assert x < 0.0 ==> x * b as real < 0.0;
  }

  lemma FloorOfSum(x: real, s: real)
    ensures s.Floor <= (x + s).Floor - x.Floor <= s.Floor + 1
    ensures s == s.Floor as real ==> (x + s).Floor - x.Floor == s.Floor
  {
  }

  lemma StepAtLeastOne(len: nat, n: nat)
    requires len > n >= 2
    ensures Step(len, n) >= 1.0
    ensures (n - 1) as real * Step(len, n) == (len - 1) as real
    ensures (len - 1) / (n - 1) >= 1
  {
    var x, b := Step(len, n), (n - 1) as real;
    assert x * b == (len - 1) as real;
    if x < 1.0 {
      assert (1.0 - x) * b > 0.0;
    }
    QuotientFloor(len - 1, n - 1);
  }

  // ---------- the indices ----------

  /** The sample starts at the first item and ends at the last. */
  lemma Ends(len: nat, n: nat)
    requires len > n >= 2
    ensures Picked(0, len, n) == 0
    ensures Picked(n - 1, len, n) == len - 1
  {
    StepAtLeastOne(len, n);
    assert Position(0, Step(len, n)) == 0.0;
  }

  /** Each gap is the floor or the ceiling of (len - 1) / (n - 1); in particular the indices increase. */
  lemma Gaps(i: nat, len: nat, n: nat)
    requires len > n >= 2
    ensures var q := (len - 1) / (n - 1);
      var gap := Picked(i + 1, len, n) - Picked(i, len, n);
      && 1 <= q <= gap <= q + 1
      && ((len - 1) % (n - 1) == 0 ==> gap == q)
  {
    hide Step, Round, Position;
    var s, x := Step(len, n), Position(i, Step(len, n));
    StepFloor(len, n);
    Positions(i, s);
    assert Picked(i, len, n) == Round(x) && Picked(i + 1, len, n) == Round(x + s);
    RoundedGap(x, s);
  }

  lemma StepFloor(len: nat, n: nat)
    requires len > n >= 2
    ensures Step(len, n) >= 1.0
    ensures Step(len, n).Floor == (len - 1) / (n - 1) >= 1
    ensures (len - 1) % (n - 1) == 0 ==> Step(len, n) == Step(len, n).Floor as real
  {
    StepAtLeastOne(len, n);
    QuotientFloor(len - 1, n - 1);
  }

  lemma RoundedGap(x: real, s: real)
    requires x >= 0.0 && s >= 0.0
    ensures s.Floor <= Round(x + s) - Round(x) <= s.Floor + 1
    ensures s == s.Floor as real ==> Round(x + s) - Round(x) == s.Floor
  {
    FloorOfSum(x + 0.5, s);
    assert x + 0.5 + s == (x + s) + 0.5;
  }

  lemma Positions(i: nat, s: real)
    requires s >= 0.0
    ensures Position(i + 1, s) == Position(i, s) + s
    ensures Position(i, s) >= 0.0
  {
  }

  lemma {:induction false} Increasing(i: nat, j: nat, len: nat, n: nat)
    requires len > n >= 2 && i < j
    ensures Picked(i, len, n) < Picked(j, len, n)
    decreases j - i
  {
    Gaps(j - 1, len, n);
    if i < j - 1 {
      Increasing(i, j - 1, len, n);
    }
  }

  /** The clamps are never needed. */
  lemma InRange(i: nat, len: nat, n: nat)
    requires len > n >= 2 && i < n
    ensures 0 <= Picked(i, len, n) < len
  {
    Ends(len, n);
    if i > 0 {
      Increasing(0, i, len, n);
    }
    if i < n - 1 {
      Increasing(i, n - 1, len, n);
    }
  }

  /** No index is more than one half away from its even position. */
  lemma Nearest(i: nat, len: nat, n: nat)
    requires len > n >= 2
    ensures -0.5 <= Picked(i, len, n) as real - Position(i, Step(len, n)) <= 0.5
  {
    StepAtLeastOne(len, n);
    Positions(i, Step(len, n));
  }

  /** The two clamps of the loop. */
  function Clamped(idx: int, len: nat): (r: int)
    requires len > 0
    ensures 0 <= r < len
    ensures idx < 0 ==> r == 0
    ensures 0 <= idx < len ==> r == idx
    ensures idx >= len ==> r == len - 1
  {
    var low := if idx < 0 then 0 else idx;
    if low >= len then len - 1 else low
  }

  /**
   * For n == 1 with several items the step divides by zero and the index is the conversion of
   * NaN, whatever integer the platform makes of it: the clamps still pick an item.
   */
  method SampleEvenly<T>(items: seq<T>, n: int, nan: int) returns (out: seq<T>)
    ensures n <= 0 || |items| <= n ==> out == items
    ensures n == 1 < |items| ==> out == [items[Clamped(nan, |items|)]]
    ensures 2 <= n < |items| ==>
      && |out| == n
      && forall i :: 0 <= i < n ==> 0 <= Picked(i, |items|, n) < |items| && out[i] == items[Picked(i, |items|, n)]
  {
    if n <= 0 || |items| <= n {
      return items;
    }
    hide Round, Step, Position;
    out := [];
    var step := 0.0;
    if n > 1 {
      StepIs(|items|, n);
      step := (|items| - 1) as real / (n - 1) as real;
    }
    for i := 0 to n
      invariant |out| == i
      invariant n == 1 && i == 1 ==> out == [items[Clamped(nan, |items|)]]
      invariant n > 1 ==> step == (|items| - 1) as real / (n - 1) as real
      invariant n > 1 ==> forall k :: 0 <= k < i ==>
        0 <= Picked(k, |items|, n) < |items| && out[k] == items[Picked(k, |items|, n)]
    {
      var idx := if n > 1 then Round(Position(i, step)) else nan;
      if n > 1 {
        StepIs(|items|, n);
        assert idx == Picked(i, |items|, n);
        InRange(i, |items|, n);
      }
      if idx < 0 {
        idx := 0;
      }
      if idx >= |items| {
        idx := |items| - 1;
      }
      out := out + [items[idx]];
    }
  }
}
