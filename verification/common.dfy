/** Shared vocabulary of the model: failure-carrying results for the
    source's aborts, and small helpers over reals and profiles. */
module Common {

  /** A computation that either yields a value or aborts the run with a message. */
  datatype Result<+T> = Ok(value: T) | Abort(msg: string) {
    predicate IsFailure() { Abort? }
    function PropagateFailure<U>(): Result<U>
      requires Abort?
    {
      Abort(msg)
    }
    function Extract(): T
      requires Ok?
    {
      value
    }
  }

  /** A check that either lets the run continue or aborts it. */
  datatype Outcome = Pass | Fail(msg: string)

  function Abs(x: real): real { if x < 0.0 then -x else x }
  function Max(a: real, b: real): real { if a < b then b else a }
  function Min(a: real, b: real): real { if a < b then a else b }

  /** A profile (or field) of `n` zeros. */
  function Zeros(n: nat): (z: seq<real>)
    ensures |z| == n
    ensures forall i :: 0 <= i < n ==> z[i] == 0.0
  {
    seq(n, _ => 0.0)
  }

  predicate AllZero(s: seq<real>) {
    forall i :: 0 <= i < |s| ==> s[i] == 0.0
  }

  /** Elementwise time-centred average of an old and a new profile. */
  function Midpoint(a: seq<real>, b: seq<real>): (m: seq<real>)
    requires |a| == |b|
    ensures |m| == |a|
    ensures forall i :: 0 <= i < |a| ==> m[i] - a[i] == b[i] - m[i]
  {
    seq(|a|, i requires 0 <= i < |a| => 0.5 * (a[i] + b[i]))
  }

  /** The midpoint of a profile with itself is that profile. */
  lemma MidpointOfEqual(a: seq<real>)
    ensures Midpoint(a, a) == a
  {
  }

  /** Sum of a sequence of reals, folded from the left. */
  function Sum(s: seq<real>): real
    decreases |s|
  {
    if |s| == 0 then 0.0 else Sum(s[..|s| - 1]) + s[|s| - 1]
  }

  function Pow(b: real, n: nat): real
    decreases n
  {
    if n == 0 then 1.0 else b * Pow(b, n - 1)
  }

  lemma PowPositive(b: real, n: nat)
    requires b > 0.0
    ensures Pow(b, n) > 0.0
  {
    if n > 0 {
      PowPositive(b, n - 1);
    }
  }

  /** Position of (level, radius) in a flattened multilevel base-state
      profile with `levels` radial levels: the level varies fastest. */
  function Flat(lev: nat, r: nat, levels: nat): nat
    requires lev < levels
  {
    lev + levels * r
  }

  /** A flat position determines its level and radius. */
  lemma FlatInjective(levels: nat, a: nat, r: nat, b: nat, s: nat)
    requires a < levels && b < levels
    ensures Flat(a, r, levels) == Flat(b, s, levels) ==> a == b && r == s
  {
    FlatDivMod(a, r, levels);
    FlatDivMod(b, s, levels);
  }

  /** The flat positions of the first `nr` radii fill a buffer of
      `levels * nr` entries. */
  lemma FlatInRange(levels: nat, nr: nat, lev: nat, r: nat)
    requires lev < levels && r < nr
    ensures Flat(lev, r, levels) < levels * nr
  {
    MulMonotone(levels, r + 1, nr);
  }

  lemma FlatDivMod(lev: nat, r: nat, levels: nat)
    requires lev < levels
    ensures (lev + levels * r) % levels == lev && (lev + levels * r) / levels == r
  {
    var k := lev + levels * r;
    var q, m := k / levels, k % levels;
    assert k == levels * q + m;
    assert levels * (q - r) == lev - m;
    SmallMultipleIsZero(levels, q - r);
  }

  lemma SmallMultipleIsZero(n: int, d: int)
    requires n > 0 && -n < n * d < n
    ensures d == 0
  {
    MultipleBounds(n, d);
  }

  lemma MultipleBounds(n: int, d: int)
    requires n > 0
    ensures d >= 1 ==> n * d >= n
    ensures d <= -1 ==> n * d <= -n
  {
  }

  lemma MulMonotone(a: nat, b: nat, c: nat)
    requires b <= c
    ensures a * b <= a * c
  {
  }

  lemma QuotientTimesDivisor(a: real, b: real)
    requires b != 0.0
    ensures (a / b) * b == a
  {
  }

  /** Division, stated by what it undoes. */
  function Quot(a: real, b: real): (q: real)
    requires b != 0.0
    ensures q * b == a
  {
    QuotientTimesDivisor(a, b);
    a / b
  }

  lemma CancelFactor(x: real, y: real, n: real)
    requires n != 0.0 && x * n == y * n
    ensures x == y
  {
    assert (x - y) * n == 0.0;
  }
}
