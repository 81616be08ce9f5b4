/** Values shared by every part of the scheduler model: failure-carrying
    results, the JavaScript numbers the scheduler compares against
    (finite times and +Infinity), and the loosely typed ids that tracks and
    timelines are tagged with. */
module Base {

  datatype Option<+T> = None | Some(value: T)

  datatype Result<+T, +E> = Ok(value: T) | Err(error: E)

  datatype Outcome<+E> = Pass | Fail(error: E)

  /** A time or a duration as the scheduler stores it: a finite number, or
      +Infinity (the default duration of a track or a timeline). */
  datatype Ext = Fin(r: real) | PosInf

  /** `a + b` on JavaScript numbers restricted to finite `a`. */
  function Plus(a: real, b: Ext): (r: Ext)
    ensures r.PosInf? <==> b.PosInf?
    ensures b.Fin? ==> r.Fin? && r.r - a == b.r
  {
    match b
    case Fin(x) => Fin(a + x)
    case PosInf => PosInf
  }

  /** `b - a` on JavaScript numbers restricted to finite `a`. */
  function Minus(b: Ext, a: real): (r: Ext)
    ensures Plus(a, r) == b
  {
    match b
    case Fin(x) => Fin(x - a)
    case PosInf => PosInf
  }

  /** `t >= e`. */
  predicate AtOrAfter(t: real, e: Ext) {
    e.Fin? && t >= e.r
  }

  /** `e < t` is `!(t <= e)` here: `Before(t, e)` is `t < e`. */
  predicate Before(t: real, e: Ext) {
    e.PosInf? || t < e.r
  }

  /** `a <= b` between two stored values. */
  predicate LessEq(a: Ext, b: Ext) {
    b.PosInf? || (a.Fin? && a.r <= b.r)
  }

  /** `900 / maxFPS`, the shortest frame the FPS cap lets through: 0 for an
      uncapped rate, Infinity for a cap of 0 (no frame ever gets through). */
  function MinFrametime(maxFPS: Ext): (r: Ext)
    ensures maxFPS.PosInf? ==> r == Fin(0.0)
    ensures maxFPS == Fin(0.0) ==> r.PosInf?
    ensures maxFPS.Fin? && maxFPS.r > 0.0 ==> r.Fin? && r.r > 0.0 && r.r * maxFPS.r == 900.0
  {
    match maxFPS
    case PosInf => Fin(0.0)
    case Fin(f) => if f == 0.0 then PosInf else Fin(900.0 / f)
  }

  /** An id as JavaScript compares it with `===`: absent, a number or a string. */
  datatype Key = Undefined | Num(n: real) | Str(s: string)

  /** JavaScript truthiness of an id (NaN is not modelled). */
  predicate Truthy(k: Key) {
    match k
    case Undefined => false
    case Num(n) => n != 0.0
    case Str(s) => s != ""
  }

  /** `!id && id !== 0` is false: the id check of the Origin and Shadow constructors. */
  predicate IdGiven(k: Key) {
    Truthy(k) || k == Num(0.0)
  }

  /** The decimal spelling of a natural number, as `'' + n` produces it. */
  function Decimal(n: nat): (s: string)
    ensures |s| >= 1
    ensures n < 10 <==> |s| == 1
    decreases n
  {
    if n < 10 then [Digit(n)] else Decimal(n / 10) + [Digit(n % 10)]
  }

  function Digit(d: nat): (c: char)
    requires d < 10
  {
    "0123456789"[d]
  }

  lemma DigitInjective(a: nat, b: nat)
    requires a < 10 && b < 10
    ensures Digit(a) == Digit(b) ==> a == b
  {}

  /** Two numbers with the same decimal spelling are equal. */
  lemma {:induction false} DecimalInjective(a: nat, b: nat)
    requires Decimal(a) == Decimal(b)
    ensures a == b
    decreases a
  {
    if a >= 10 && b >= 10 {
      var sa, sb := Decimal(a), Decimal(b);
      assert sa[|sa| - 1] == Digit(a % 10) && sb[|sb| - 1] == Digit(b % 10);
      DigitInjective(a % 10, b % 10);
      assert sa[..|sa| - 1] == Decimal(a / 10);
      assert sb[..|sb| - 1] == Decimal(b / 10);
      DecimalInjective(a / 10, b / 10);
    } else if a < 10 && b < 10 {
      DigitInjective(a, b);
    }
  }

  /** `x - dt == d * f` with `f` a fraction in `[0, 1)` lies in `[0, d)`. */
  lemma ScaledFraction(x: real, d: real, dt: real, f: real)
    requires d > 0.0 && x - dt == d * f && 0.0 <= f < 1.0
    ensures 0.0 <= x - dt < d
  {
    assert d * f < d * 1.0;
  }

  /** The elements of `xs` whose mark in `keep` is set, in their order
      (elements past the end of `keep` are dropped). */
  function Filter<T>(xs: seq<T>, keep: seq<bool>): (r: seq<T>)
    ensures |r| <= |xs|
  {
    if xs == [] || keep == [] then [] else (if keep[0] then [xs[0]] else []) + Filter(xs[1..], keep[1..])
  }

  /** No element occurs twice: the first is not among the rest, and the rest
      has no duplicates either. */
  predicate Distinct<T(==)>(ts: seq<T>)
    decreases |ts|
  {
    ts == [] || (ts[0] !in ts[1..] && Distinct(ts[1..]))
  }

  /** In a sequence without duplicates, different positions hold different elements. */
  lemma {:induction false} DistinctApart<T>(ts: seq<T>, i: int, j: int)
    requires Distinct(ts) && 0 <= i < |ts| && 0 <= j < |ts| && i != j
    ensures ts[i] != ts[j]
    decreases |ts|
  {
    if i == 0 {
      assert ts[j] == ts[1..][j - 1];
    } else if j == 0 {
      assert ts[i] == ts[1..][i - 1];
    } else {
      DistinctApart(ts[1..], i - 1, j - 1);
    }
  }

  /** Appending an element that is not yet present keeps a sequence without duplicates. */
  lemma {:induction false} AppendKeepsDistinct<T>(ts: seq<T>, x: T)
    requires Distinct(ts) && x !in ts
    ensures Distinct(ts + [x])
    decreases |ts|
  {
    if ts == [] {
      assert [x][1..] == [];
    } else {
      AppendKeepsDistinct(ts[1..], x);
      assert (ts + [x])[1..] == ts[1..] + [x];
    }
  }
}
