/**
 * The per-element counters and the suspicion score of the fault localiser: an
 * Ochiai coefficient over test and user-feedback counts, blended with a bonus for
 * elements a dataflow back-slice marked as relevant.
 *
 * `Math.sqrt` is not computed: every function that needs a square root takes it as
 * a parameter, and the lemmas assume only that it is one (`IsSqrt`).
 */
module Suspicion {

  /** A user-confirmed observation weighs as much as this many test runs. */
  const UserScale: real := 10.0

  /** Weight of the flow bonus against the statistical score once any flow priority is known. */
  const DefaultFlowFactor: real := 0.8

  /**
   * The counters kept for one method or one basic block: test passes and failures,
   * user-confirmed passes and failures, the highest flow priority seen, and the score
   * of the latest ranking.
   */
  datatype Accum = Accum(pass: nat, fail: nat, userPass: nat, userFail: nat, flowPriority: real, score: real)

  /** A record as created, before any observation. */
  const Fresh: Accum := Accum(0, 0, 0, 0, 0.0, 0.0)

  function Max(x: real, y: real): real {
    if x >= y then x else y
  }

  /** One test run that covered the element. */
  function Count(a: Accum, pass: bool): Accum {
    if pass then a.(pass := a.pass + 1) else a.(fail := a.fail + 1)
  }

  /** One user judgement that covered the element. */
  function UserCount(a: Accum, pass: bool): Accum {
    if pass then a.(userPass := a.userPass + 1) else a.(userFail := a.userFail + 1)
  }

  /** The flow priority only ever rises. */
  function RaisePriority(a: Accum, priority: real): Accum {
    a.(flowPriority := Max(a.flowPriority, priority))
  }

  /** Real multiplication, kept behind a function so that each product stays one term for the solver. */
  function Mul(x: real, y: real): real {
    x * y
  }

  /** `sqrt` returns the non-negative square root of every non-negative argument. */
  ghost predicate IsSqrt(sqrt: real -> real) {
    forall x: real :: 0.0 <= x ==> 0.0 <= sqrt(x) && Mul(sqrt(x), sqrt(x)) == x
  }

  /** Automated observations plus scaled user observations. */
  function Weighted(tests: nat, user: nat): real {
    tests as real + user as real * UserScale
  }

  /** Failing observations that involved the element (`a11`). */
  function FailWeight(a: Accum): real {
    Weighted(a.fail, a.userFail)
  }

  /** Passing observations that involved the element (`a10`). */
  function PassWeight(a: Accum): real {
    Weighted(a.pass, a.userPass)
  }

  /** `a11 / sqrt((a11 + a01) * (a11 + a10))`, or 0 where that root is 0. */
  function OchiaiRatio(a11: real, a01: real, a10: real, sqrt: real -> real): real {
    var div := sqrt(Mul(a11 + a01, a11 + a10));
    if div != 0.0 then a11 / div else 0.0
  }

  /** The Ochiai coefficient of an element, `a01` being the failing observations that missed it. */
  function StatisticalScore(a: Accum, failTotal: nat, userFailTotal: nat, sqrt: real -> real): real {
    OchiaiRatio(FailWeight(a), Weighted(failTotal, userFailTotal) - FailWeight(a), PassWeight(a), sqrt)
  }

  /** The flow bonus: 1 for a failing element with a positive priority, a tenth of that once a user saw it pass. */
  function FlowScore(a: Accum): (r: real)
    ensures 0.0 <= r <= 1.0
    ensures r == 0.0 <==> a.fail == 0 || a.flowPriority <= 0.0
    ensures a.userPass > 0 ==> r <= 1.0 / UserScale
    ensures r != 0.0 ==> r == (if a.userPass > 0 then 1.0 / UserScale else 1.0)
  {
    var fl := if a.flowPriority > 0.0 then 1.0 else 0.0;
    var fl' := if a.fail == 0 then 0.0 else fl;
    if a.userPass > 0 then fl' / UserScale else fl'
  }

  /** The suspicion score of an element under the given totals and flow factor. */
  function Ochiai(a: Accum, failTotal: nat, userFailTotal: nat, flowFactor: real, sqrt: real -> real): real {
    Mul(1.0 - flowFactor, StatisticalScore(a, failTotal, userFailTotal, sqrt)) + Mul(flowFactor, FlowScore(a))
  }

  /**
   * `AccumData.computeOchaia`: stores the score in the record and changes none of its
   * counters. With a genuine square root and a flow factor in [0, 1] the stored score
   * is never negative, is at most 1 when the element's failures lie within the totals,
   * and is 0 when no failure has been seen anywhere.
   */
  function ComputeOchiai(a: Accum, failTotal: nat, userFailTotal: nat, flowFactor: real, sqrt: real -> real): (r: Accum)
    ensures r.score == Ochiai(a, failTotal, userFailTotal, flowFactor, sqrt)
    ensures r.(score := a.score) == a
    ensures IsSqrt(sqrt) && 0.0 <= flowFactor <= 1.0 ==> 0.0 <= r.score
    ensures IsSqrt(sqrt) && 0.0 <= flowFactor <= 1.0 && FailWeight(a) <= Weighted(failTotal, userFailTotal)
      ==> r.score <= 1.0
    ensures IsSqrt(sqrt) && a.fail == 0 && failTotal == 0 && userFailTotal == 0 ==> r.score == 0.0
  {
    assert IsSqrt(sqrt) && 0.0 <= flowFactor <= 1.0 ==> 0.0 <= Ochiai(a, failTotal, userFailTotal, flowFactor, sqrt) by {
      if IsSqrt(sqrt) && 0.0 <= flowFactor <= 1.0 {
        OchiaiNonNegative(a, failTotal, userFailTotal, flowFactor, sqrt);
      }
    }
    assert IsSqrt(sqrt) && 0.0 <= flowFactor <= 1.0 && FailWeight(a) <= Weighted(failTotal, userFailTotal)
      ==> Ochiai(a, failTotal, userFailTotal, flowFactor, sqrt) <= 1.0 by {
      if IsSqrt(sqrt) && 0.0 <= flowFactor <= 1.0 && FailWeight(a) <= Weighted(failTotal, userFailTotal) {
        OchiaiBounds(a, failTotal, userFailTotal, flowFactor, sqrt);
      }
    }
    assert IsSqrt(sqrt) && a.fail == 0 && failTotal == 0 && userFailTotal == 0
      ==> Ochiai(a, failTotal, userFailTotal, flowFactor, sqrt) == 0.0 by {
      if IsSqrt(sqrt) && a.fail == 0 && failTotal == 0 && userFailTotal == 0 {
        NoFailuresNoSuspicion(a, flowFactor, sqrt);
      }
    }
    a.(score := Ochiai(a, failTotal, userFailTotal, flowFactor, sqrt))
  }

  // ---------------------------------------------------------------------------
  // Real-arithmetic helpers
  // ---------------------------------------------------------------------------

  lemma MulNonneg(x: real, y: real)
    requires 0.0 <= x && 0.0 <= y
    ensures 0.0 <= Mul(x, y)
  {
  }

  lemma MulPos(x: real, y: real)
    requires 0.0 < x && 0.0 < y
    ensures 0.0 < Mul(x, y)
  {
  }

  lemma MulMonoLeft(k: real, x: real, y: real)
    requires 0.0 <= k && x <= y
    ensures Mul(k, x) <= Mul(k, y)
  {
    MulNonneg(k, y - x);
    assert Mul(k, y - x) == Mul(k, y) - Mul(k, x);
  }

  lemma MulMono(a: real, b: real, c: real, d: real)
    requires 0.0 <= a <= c && 0.0 <= b <= d
    ensures Mul(a, b) <= Mul(c, d)
  {
    MulNonneg(c - a, d);
    MulNonneg(a, d - b);
    assert Mul(c, d) - Mul(a, b) == Mul(c - a, d) + Mul(a, d - b);
  }

  lemma DiffSquares(p: real, q: real)
    ensures Mul(p, p) - Mul(q, q) == Mul(p - q, p + q)
  {
  }

  /** For non-negative reals, squares compare as the numbers do. */
  lemma SquareMonotone(p: real, q: real)
    requires 0.0 <= p && 0.0 <= q
    requires Mul(p, p) <= Mul(q, q)
    ensures p <= q
  {
    if p > q {
      DiffSquares(p, q);
      MulPos(p - q, p + q);
    }
  }

  lemma SquareOfProduct(a: real, b: real)
    ensures Mul(Mul(a, b), Mul(a, b)) == Mul(Mul(a, a), Mul(b, b))
  {
  }

  lemma MulRegroup(t: real, a: real, b: real)
    ensures Mul(a, Mul(t, b)) == Mul(t, Mul(a, b))
  {
  }

  /** `a / b <= c / d` by cross-multiplication over positive denominators. */
  lemma CrossMul(a: real, b: real, c: real, d: real)
    requires 0.0 < b && 0.0 < d
    requires Mul(a, d) <= Mul(c, b)
    ensures a / b <= c / d
  {
    MulPos(b, d);
    assert a / b == Mul(a, d) / Mul(b, d);
    assert c / d == Mul(c, b) / Mul(b, d);
  }

  lemma DivAtMostOne(x: real, s: real)
    requires 0.0 <= x <= s && 0.0 < s
    ensures 0.0 <= x / s <= 1.0
  {
  }

  lemma SqrtOfZero(sqrt: real -> real)
    requires IsSqrt(sqrt)
    ensures sqrt(0.0) == 0.0
  {
    var s := sqrt(0.0);
    assert 0.0 <= s && Mul(s, s) == 0.0;
    if s != 0.0 {
      MulPos(s, s);
    }
  }

  lemma SqrtOfPositive(sqrt: real -> real, x: real)
    requires IsSqrt(sqrt) && 0.0 < x
    ensures 0.0 < sqrt(x) && Mul(sqrt(x), sqrt(x)) == x
  {
    var s := sqrt(x);
    assert 0.0 <= s && Mul(s, s) == x;
  }

  /** `x / s` lies in [0, 1] when `0 <= x <= t` and `s * s == t * (x + c)`. */
  lemma RatioAtMostOne(x: real, t: real, c: real, s: real)
    requires 0.0 <= x <= t && 0.0 <= c && 0.0 < s
    requires Mul(s, s) == Mul(t, x + c)
    ensures 0.0 <= x / s <= 1.0
  {
    MulMono(x, x, t, x + c);
    SquareMonotone(x, s);
    DivAtMostOne(x, s);
  }

  lemma PolynomialStep(x: real, c: real)
    requires 0.0 <= x && 0.0 <= c
    ensures Mul(Mul(x, x), x + 1.0 + c) <= Mul(Mul(x + 1.0, x + 1.0), x + c)
  {
    MulNonneg(x, x);
    MulNonneg(c, x);
    assert Mul(Mul(x + 1.0, x + 1.0), x + c) - Mul(Mul(x, x), x + 1.0 + c)
        == Mul(x, x) + 2.0 * Mul(c, x) + x + c;
  }

  /** `x / sqrt(t * (x + c))` does not decrease when `x` grows by one. */
  lemma RatioStep(x: real, c: real, t: real, s1: real, s2: real)
    requires 0.0 <= x && 0.0 <= c && 0.0 < t
    requires 0.0 < s1 && Mul(s1, s1) == Mul(t, x + c)
    requires 0.0 < s2 && Mul(s2, s2) == Mul(t, x + 1.0 + c)
    ensures x / s1 <= (x + 1.0) / s2
  {
    var lhs := Mul(x, s2);
    var rhs := Mul(x + 1.0, s1);
    MulNonneg(x, s2);
    MulNonneg(x + 1.0, s1);
    SquareOfProduct(x, s2);
    SquareOfProduct(x + 1.0, s1);
    MulRegroup(t, Mul(x, x), x + 1.0 + c);
    MulRegroup(t, Mul(x + 1.0, x + 1.0), x + c);
    PolynomialStep(x, c);
    MulMonoLeft(t, Mul(Mul(x, x), x + 1.0 + c), Mul(Mul(x + 1.0, x + 1.0), x + c));
    SquareMonotone(lhs, rhs);
    CrossMul(x, s1, x + 1.0, s2);
  }

  /** The statistical part in closed form, `t` being the weighted fail total. */
  lemma StatisticalScoreUnfold(a: Accum, failTotal: nat, userFailTotal: nat, sqrt: real -> real)
    requires IsSqrt(sqrt)
    ensures var t := Weighted(failTotal, userFailTotal);
      var x := FailWeight(a);
      var p := Mul(t, x + PassWeight(a));
      && 0.0 <= t && 0.0 <= x && 0.0 <= p
      && (p == 0.0 ==> StatisticalScore(a, failTotal, userFailTotal, sqrt) == 0.0)
      && (p != 0.0 ==>
            && 0.0 < sqrt(p) && Mul(sqrt(p), sqrt(p)) == p
            && StatisticalScore(a, failTotal, userFailTotal, sqrt) == x / sqrt(p))
  {
    var t := Weighted(failTotal, userFailTotal);
    var x := FailWeight(a);
    var p := Mul(t, x + PassWeight(a));
    assert x + (t - x) == t;
    MulNonneg(t, x + PassWeight(a));
    if p == 0.0 {
      SqrtOfZero(sqrt);
    } else {
      SqrtOfPositive(sqrt, p);
    }
  }

  // ---------------------------------------------------------------------------
  // Properties of the score
  // ---------------------------------------------------------------------------

  /** With its failures within the totals, an element's statistical part lies in [0, 1]. */
  lemma StatisticalScoreBounds(a: Accum, failTotal: nat, userFailTotal: nat, sqrt: real -> real)
    requires IsSqrt(sqrt)
    requires FailWeight(a) <= Weighted(failTotal, userFailTotal)
    ensures 0.0 <= StatisticalScore(a, failTotal, userFailTotal, sqrt) <= 1.0
  {
    StatisticalScoreUnfold(a, failTotal, userFailTotal, sqrt);
    var t := Weighted(failTotal, userFailTotal);
    var x := FailWeight(a);
    var p := Mul(t, x + PassWeight(a));
    if p != 0.0 {
      RatioAtMostOne(x, t, PassWeight(a), sqrt(p));
    }
  }

  /** With its failures within the totals and a flow factor in [0, 1], the score lies in [0, 1]. */
  lemma OchiaiBounds(a: Accum, failTotal: nat, userFailTotal: nat, flowFactor: real, sqrt: real -> real)
    requires IsSqrt(sqrt)
    requires FailWeight(a) <= Weighted(failTotal, userFailTotal)
    requires 0.0 <= flowFactor <= 1.0
    ensures 0.0 <= Ochiai(a, failTotal, userFailTotal, flowFactor, sqrt) <= 1.0
  {
    StatisticalScoreBounds(a, failTotal, userFailTotal, sqrt);
    var st := StatisticalScore(a, failTotal, userFailTotal, sqrt);
    var fl := FlowScore(a);
    MulNonneg(1.0 - flowFactor, st);
    MulNonneg(flowFactor, fl);
    MulMonoLeft(1.0 - flowFactor, st, 1.0);
    MulMonoLeft(flowFactor, fl, 1.0);
    assert Mul(1.0 - flowFactor, 1.0) + Mul(flowFactor, 1.0) == 1.0;
  }

  /** Scores are never negative, whatever the counts. */
  lemma OchiaiNonNegative(a: Accum, failTotal: nat, userFailTotal: nat, flowFactor: real, sqrt: real -> real)
    requires IsSqrt(sqrt)
    requires 0.0 <= flowFactor <= 1.0
    ensures 0.0 <= Ochiai(a, failTotal, userFailTotal, flowFactor, sqrt)
  {
    StatisticalScoreUnfold(a, failTotal, userFailTotal, sqrt);
    MulNonneg(1.0 - flowFactor, StatisticalScore(a, failTotal, userFailTotal, sqrt));
    MulNonneg(flowFactor, FlowScore(a));
  }

  /** Without any failing run, failing judgement or flow bonus, nothing is suspicious. */
  lemma NoFailuresNoSuspicion(a: Accum, flowFactor: real, sqrt: real -> real)
    requires IsSqrt(sqrt)
    requires a.fail == 0
    ensures Ochiai(a, 0, 0, flowFactor, sqrt) == 0.0
  {
    StatisticalScoreUnfold(a, 0, 0, sqrt);
    assert Mul(0.0, FailWeight(a) + PassWeight(a)) == 0.0;
    assert Mul(1.0 - flowFactor, 0.0) == 0.0 && Mul(flowFactor, 0.0) == 0.0;
  }

  /** A user-confirmed pass divides the flow bonus by the user scale. */
  lemma UserPassDividesFlowBonus(a: Accum)
    requires a.userPass > 0
    ensures FlowScore(a) * UserScale == FlowScore(a.(userPass := 0))
  {
  }

  /** A positive flow priority strictly raises the score of a failing element when the flow factor is positive. */
  lemma FlowPriorityRaisesScore(a: Accum, failTotal: nat, userFailTotal: nat, flowFactor: real, sqrt: real -> real)
    requires 0.0 < flowFactor
    requires a.fail > 0 && a.flowPriority > 0.0
    ensures Ochiai(a.(flowPriority := 0.0), failTotal, userFailTotal, flowFactor, sqrt)
          < Ochiai(a, failTotal, userFailTotal, flowFactor, sqrt)
  {
    var b := a.(flowPriority := 0.0);
    assert FailWeight(b) == FailWeight(a) && PassWeight(b) == PassWeight(a);
    assert FlowScore(b) == 0.0;
    MulPos(flowFactor, FlowScore(a));
    assert Mul(flowFactor, 0.0) == 0.0;
  }

  /** One more failing run never lowers an element's score (totals held fixed). */
  lemma OchiaiMonotoneInFail(a: Accum, failTotal: nat, userFailTotal: nat, flowFactor: real, sqrt: real -> real)
    requires IsSqrt(sqrt)
    requires 0.0 <= flowFactor <= 1.0
    ensures Ochiai(a, failTotal, userFailTotal, flowFactor, sqrt)
         <= Ochiai(a.(fail := a.fail + 1), failTotal, userFailTotal, flowFactor, sqrt)
  {
    var b := a.(fail := a.fail + 1);
    StatisticalScoreUnfold(a, failTotal, userFailTotal, sqrt);
    StatisticalScoreUnfold(b, failTotal, userFailTotal, sqrt);
    var t := Weighted(failTotal, userFailTotal);
    var x := FailWeight(a);
    var c := PassWeight(a);
    assert FailWeight(b) == x + 1.0 && PassWeight(b) == c;
    var st1 := StatisticalScore(a, failTotal, userFailTotal, sqrt);
    var st2 := StatisticalScore(b, failTotal, userFailTotal, sqrt);
    var p1 := Mul(t, x + c);
    var p2 := Mul(t, x + 1.0 + c);
    assert st1 <= st2 by {
      if t == 0.0 {
        assert p1 == 0.0 && p2 == 0.0;
      } else if x + c == 0.0 {
        assert p1 == 0.0;
        MulPos(t, x + 1.0 + c);
      } else {
        MulPos(t, x + c);
        MulPos(t, x + 1.0 + c);
        RatioStep(x, c, t, sqrt(p1), sqrt(p2));
      }
    }
    assert FlowScore(a) <= FlowScore(b);
    MulMonoLeft(1.0 - flowFactor, st1, st2);
    MulMonoLeft(flowFactor, FlowScore(a), FlowScore(b));
  }
}
