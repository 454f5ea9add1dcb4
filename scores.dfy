/** Scores of the search code are JavaScript numbers that are finite sums of
    weights or the two infinities used to open a search window. */
module Scores {

  datatype Ext = NegInf | Fin(v: real) | PosInf

  /** Unary minus on scores. */
  function Neg(a: Ext): (r: Ext)
    ensures a.Fin? <==> r.Fin?
    ensures a.Fin? ==> r.v == -a.v
    ensures a.NegInf? <==> r.PosInf?
  {
    match a
    case NegInf => PosInf
    case PosInf => NegInf
    case Fin(v) => Fin(-v)
  }

  /** `a <= b` on scores. */
  predicate Le(a: Ext, b: Ext)
  {
    a.NegInf? || b.PosInf? || (a.Fin? && b.Fin? && a.v <= b.v)
  }

  /** `a < b` on scores. */
  predicate Lt(a: Ext, b: Ext)
  {
    Le(a, b) && a != b
  }

  /** `Math.max(a, b)` on scores (no NaN ever reaches it). */
  function Max(a: Ext, b: Ext): (r: Ext)
    ensures Le(a, r) && Le(b, r)
    ensures r == a || r == b
  {
    if Le(a, b) then b else a
  }

  lemma MaxAssoc(a: Ext, b: Ext, c: Ext)
    ensures Max(Max(a, b), c) == Max(a, Max(b, c))
  {
  }

  lemma LeTotal(a: Ext, b: Ext)
    ensures Le(a, b) || Le(b, a)
    ensures Le(a, b) && Le(b, a) ==> a == b
  {
  }

  lemma LeTrans(a: Ext, b: Ext, c: Ext)
    requires Le(a, b) && Le(b, c)
    ensures Le(a, c)
  {
  }

  lemma NegInvolution(a: Ext)
    ensures Neg(Neg(a)) == a
  {
  }

  lemma NegAntitone(a: Ext, b: Ext)
    ensures Le(a, b) <==> Le(Neg(b), Neg(a))
  {
  }

  /** `Math.max` and `Math.min` on finite numbers. */
  function MaxR(a: real, b: real): (r: real)
    ensures r >= a && r >= b && (r == a || r == b)
  {
    if a >= b then a else b
  }

  function MinR(a: real, b: real): (r: real)
    ensures r <= a && r <= b && (r == a || r == b)
  {
    if a <= b then a else b
  }

  /** k copies of x added up, so that a product with a count stays linear
      arithmetic for the solver. */
  function Times(x: real, k: nat): real
  {
    if k == 0 then 0.0 else Times(x, k - 1) + x
  }

  lemma {:induction false} TimesIsProduct(x: real, k: nat)
    ensures Times(x, k) == x * k as real
  {
    if k > 0 {
      TimesIsProduct(x, k - 1);
    }
  }
}
