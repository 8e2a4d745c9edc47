/** Comparing an expected cost vector with a returned one, rank by rank, within a relative tolerance. */
module Compare {
  import opened Oracles
  import opened KShortest

  /** A float64 as a real or an infinity; NaN is not modelled and arithmetic does not round. */
  datatype Extended = NegInf | Finite(value: real) | PosInf

  predicate Less(a: Extended, b: Extended) {
    match (a, b)
    case (Finite(x), Finite(y)) => x < y
    case (NegInf, _) => !b.NegInf?
    case (_, PosInf) => !a.PosInf?
    case _ => false
  }

  function Abs(x: real): real {
    if x < 0.0 then -x else x
  }

  function RelErr(expected: Extended, got: Extended): (e: Extended)
    ensures !Less(e, Finite(0.0)) && (e == Finite(0.0) <==> expected == got)
  {
    if expected == got then Finite(0.0)
    else if !expected.Finite? || !got.Finite? then PosInf
    else
      var denom := if Abs(expected.value) == 0.0 then 1.0 else Abs(expected.value);
      QuotientPositive(Abs(expected.value - got.value), denom);
      Finite(Abs(expected.value - got.value) / denom)
  }

  lemma QuotientPositive(a: real, b: real)
    requires a > 0.0 && b > 0.0
    ensures a / b > 0.0
  {
  }

  /** The order of float64 numbers, infinities included. */
  lemma LessIsOrder(a: Extended, b: Extended)
    ensures a.Finite? && b.Finite? ==> (Less(a, b) <==> a.value < b.value)
    ensures a.NegInf? || b.PosInf? ==> (Less(a, b) <==> a != b)
    ensures a.PosInf? || b.NegInf? ==> !Less(a, b)
  {
  }

  /** Relative to the expected cost, absolute where that is zero; an infinity is infinitely far from all else. */
  lemma RelErrIs(expected: Extended, got: Extended)
    ensures expected.Finite? && got.Finite? && expected.value != 0.0 ==>
              RelErr(expected, got).Finite? && RelErr(expected, got).value * Abs(expected.value)
                                               == Abs(expected.value - got.value)
    ensures expected == Finite(0.0) && got.Finite? ==> RelErr(expected, got) == Finite(Abs(got.value))
    ensures expected != got && !(expected.Finite? && got.Finite?) ==> RelErr(expected, got) == PosInf
  {
  }

  /** The returned cost is within `tol` of the expected one, with no division: equal, or not further from it than
      `tol` times its size, where zero has size one. */
  predicate Within(expected: Extended, got: Extended, tol: Extended) {
    expected == got || tol.PosInf?
    || (expected.Finite? && got.Finite? && tol.Finite? &&
        var e := expected.value;
        var size := if e == 0.0 then 1.0 else if e < 0.0 then -e else e;
        -tol.value * size <= expected.value - got.value <= tol.value * size)
  }

  lemma WithinIff(expected: Extended, got: Extended, tol: Extended)
    requires !Less(tol, Finite(0.0))
    ensures !Less(tol, RelErr(expected, got)) <==> Within(expected, got, tol)
  {
    if expected.Finite? && got.Finite? && expected != got {
      var size := if expected.value == 0.0 then 1.0 else Abs(expected.value);
      FiniteRelErr(expected.value, got.value, size);
      hide RelErr;
      if tol.Finite? {
        QuotientAtMost(Abs(expected.value - got.value), size, tol.value);
      }
    }
  }

  lemma FiniteRelErr(expected: real, got: real, size: real)
    requires expected != got && size == if expected == 0.0 then 1.0 else Abs(expected)
    ensures size > 0.0 && RelErr(Finite(expected), Finite(got)) == Finite(Abs(expected - got) / size)
  {
  }

  lemma QuotientAtMost(a: real, b: real, c: real)
    requires b > 0.0
    ensures a / b <= c <==> a <= c * b
  {
    var q := a / b;
    assert q * b == a;
    if q <= c {
      ScaleReals(q, c, b);
    } else {
      assert (q - c) * b > 0.0;
    }
  }

  lemma ScaleReals(a: real, b: real, c: real)
    requires a <= b && c > 0.0
    ensures a * c <= b * c
  {
    assert (b - a) * c >= 0.0;
  }

  /** The largest relative error over the ranks both vectors have, zero if there is none. */
  method WorstRelErr(a: seq<Extended>, b: seq<Extended>) returns (worst: Extended)
    ensures forall i :: 0 <= i < |a| && i < |b| ==> !Less(worst, RelErr(a[i], b[i]))
    ensures worst == Finite(0.0) || exists i :: 0 <= i < |a| && i < |b| && worst == RelErr(a[i], b[i])
    ensures !Less(worst, Finite(0.0))
  {
    hide RelErr;
    worst := Finite(0.0);
    for i := 0 to if |a| < |b| then |a| else |b|
      invariant forall k :: 0 <= k < i ==> !Less(worst, RelErr(a[k], b[k]))
      invariant worst == Finite(0.0) || exists k :: 0 <= k < i && worst == RelErr(a[k], b[k])
      invariant !Less(worst, Finite(0.0))
    {
      var e := RelErr(a[i], b[i]);
      if Less(worst, e) {
        worst := e;
      }
    }
  }

  datatype Verdict = Ok | CountMismatch | WeightMismatch

  datatype Outcome = Outcome(verdict: Verdict, oracleK: nat, dgraphK: nat, worstRelErr: Extended) {
    predicate Correct() {
      verdict.Ok?
    }
  }

  lemma ToleranceIff(oracle: seq<Extended>, got: seq<Extended>, tol: Extended)
    requires |oracle| <= |got|
    ensures !Less(tol, Finite(0.0)) <==> tol.PosInf? || (tol.Finite? && tol.value >= 0.0)
    ensures !Less(tol, Finite(0.0)) ==>
              forall i :: 0 <= i < |oracle| ==>
                            (!Less(tol, RelErr(oracle[i], got[i])) <==> Within(oracle[i], got[i], tol))
  {
    hide RelErr, Within;
    if !Less(tol, Finite(0.0)) {
      forall i | 0 <= i < |oracle|
        ensures !Less(tol, RelErr(oracle[i], got[i])) <==> Within(oracle[i], got[i], tol)
      {
        WithinIff(oracle[i], got[i], tol);
      }
    }
  }

  /** Passes exactly when the tolerance is not negative, the counts agree and every rank is within tolerance. */
  method Vectors(oracle: seq<Extended>, got: seq<Extended>, tol: Extended) returns (r: Outcome)
    ensures r.oracleK == |oracle| && r.dgraphK == |got|
    ensures r.Correct() <==>
              && |oracle| == |got| && !Less(tol, Finite(0.0))
              && forall i :: 0 <= i < |oracle| ==> !Less(tol, RelErr(oracle[i], got[i]))
    ensures r.Correct() <==>
              && |oracle| == |got| && (tol.PosInf? || (tol.Finite? && tol.value >= 0.0))
              && forall i :: 0 <= i < |oracle| ==> Within(oracle[i], got[i], tol)
    ensures r.verdict.CountMismatch? <==> |oracle| != |got|
    ensures forall i :: 0 <= i < |oracle| && i < |got| ==> !Less(r.worstRelErr, RelErr(oracle[i], got[i]))
    ensures r.worstRelErr == Finite(0.0) ||
            exists i :: 0 <= i < |oracle| && i < |got| && r.worstRelErr == RelErr(oracle[i], got[i])
    ensures r.worstRelErr == Finite(0.0) <==> forall i :: 0 <= i < |oracle| && i < |got| ==> oracle[i] == got[i]
  {
    var worst := WorstRelErr(oracle, got);
    if |oracle| == |got| {
      ToleranceIff(oracle, got, tol);
    }
    assert worst == Finite(0.0) ==>
             forall i :: 0 <= i < |oracle| && i < |got| ==> RelErr(oracle[i], got[i]) == Finite(0.0);
    if |oracle| != |got| {
      return Outcome(CountMismatch, |oracle|, |got|, worst);
    }
    if Less(tol, worst) {
      return Outcome(WeightMismatch, |oracle|, |got|, worst);
    }
    return Outcome(Ok, |oracle|, |got|, worst);
  }

  function ToExtended(ws: seq<real>): (r: seq<Extended>)
    ensures |r| == |ws| && forall i :: 0 <= i < |ws| ==> r[i] == Finite(ws[i])
  {
    seq(|ws|, i requires 0 <= i < |ws| => Finite(ws[i]))
  }

  /** Two correct searches that break ties differently never disagree, whatever the tolerance; with a negative
      tolerance, though, even equal vectors are reported as different. */
  method CompareSelections(
    ghost edges: Edges, ghost s: int, ghost t: int, ghost k: nat, ghost a: seq<seq<int>>, ghost b: seq<seq<int>>,
    oracle: seq<real>, got: seq<real>, tol: Extended)
    returns (r: Outcome)
    requires IsKShortest(edges, s, t, k, a) && IsKShortest(edges, s, t, k, b)
    requires Sorted(oracle) && multiset(oracle) == multiset(Costs(edges, a))
    requires Sorted(got) && multiset(got) == multiset(Costs(edges, b))
    ensures r.worstRelErr == Finite(0.0) && (r.Correct() <==> !Less(tol, Finite(0.0)))
  {
    hide IsKShortest, Costs, SortReals, Sorted;
    TiesDoNotMatter(edges, s, t, k, a, b);
    SortRealsSorts(Costs(edges, a));
    SortRealsSorts(Costs(edges, b));
    SortedUnique(oracle, SortReals(Costs(edges, a)));
    SortedUnique(got, SortReals(Costs(edges, b)));
    r := Vectors(ToExtended(oracle), ToExtended(got), tol);
  }
}
