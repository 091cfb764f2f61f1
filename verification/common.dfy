/** Shared vocabulary: optional values, first-match search, and the random
    source of the timetable engine.

    Every `Math.random()` draw of the engine is a value of `Unit` (a real in
    [0, 1)), and a run reads its draws from a `Random` stream in the order the
    engine makes the calls. Statements proved for every stream therefore hold
    for every outcome of the random source. */
module Common {

  /** `None` stands for JavaScript's `undefined`/`null` (and, for parsed
      numbers, for NaN). */
  datatype Option<+T> = None | Some(value: T)

  /** A result of `Math.random()`. */
  type Unit = r: real | 0.0 <= r < 1.0

  /** The successive results of `Math.random()`, read through a cursor. */
  type Random = nat -> Unit

  /** `Math.floor(u * n)`: the index drawn from `n` equally likely positions. */
  function PickIndex(u: Unit, n: nat): (i: nat)
    ensures n > 0 ==> i < n
    ensures n == 0 ==> i == 0
  {
    var x := u * n as real;
    assert 0.0 <= x;
    assert n > 0 ==> x < n as real;
    x.Floor
  }

  /** `xs.find(p)`: the first element satisfying `p`, if any. */
  function Find<T(==)>(xs: seq<T>, p: T -> bool): (r: Option<T>)
    ensures r.Some? ==> r.value in xs && p(r.value)
    ensures r.Some? ==> exists i :: 0 <= i < |xs| && xs[i] == r.value && forall j :: 0 <= j < i ==> !p(xs[j])
    ensures r.None? <==> forall x :: x in xs ==> !p(x)
  {
    if |xs| == 0 then None
    else if p(xs[0]) then (assert xs[0] == xs[0]; Some(xs[0]))
    else
      var r := Find(xs[1..], p);
      assert forall x :: x in xs ==> x == xs[0] || x in xs[1..];
      if r.Some? then
        var i :| 0 <= i < |xs[1..]| && xs[1..][i] == r.value && forall j :: 0 <= j < i ==> !p(xs[1..][j]);
        assert xs[i + 1] == r.value;
        assert forall j :: 0 <= j < i + 1 ==> !p(xs[j]) by {
          forall j | 0 <= j < i + 1 ensures !p(xs[j]) {
            if j > 0 { assert xs[j] == xs[1..][j - 1]; }
          }
        }
        r
      else r
  }

  function Max(a: int, b: int): (m: int)
    ensures m >= a && m >= b && (m == a || m == b)
  {
    if a >= b then a else b
  }

  function Abs(x: real): (a: real)
    ensures a >= 0.0 && (a == x || a == -x)
  {
    if x < 0.0 then -x else x
  }

  /** A non-empty sequence holds its initial part and its last element. */
  lemma {:induction false} InitLastMembers<T>(xs: seq<T>)
    requires |xs| > 0
    ensures forall x :: x in xs <==> x in xs[..|xs| - 1] || x == xs[|xs| - 1]
  {
    assert xs == xs[..|xs| - 1] + [xs[|xs| - 1]];
  }
}
