/** The integers extended with the two infinities the search uses as its
    initial alpha/beta bounds and initial best scores (`math.inf` in ai.py). */
module ExtInts {

  datatype ExtInt = NegInf | Fin(n: int) | PosInf

  /** Strict order: NegInf below every integer, PosInf above. */
  predicate Less(x: ExtInt, y: ExtInt) {
    match x
    case NegInf => !y.NegInf?
    case Fin(a) => y.PosInf? || (y.Fin? && a < y.n)
    case PosInf => false
  }

  predicate LessEq(x: ExtInt, y: ExtInt) {
    !Less(y, x)
  }

  /** Python `max(x, y)`: the first argument unless the second is strictly larger. */
  function Max(x: ExtInt, y: ExtInt): (r: ExtInt)
    ensures LessEq(x, r) && LessEq(y, r)
    ensures r == x || r == y
  {
    if Less(x, y) then y else x
  }

  /** Python `min(x, y)`: the first argument unless the second is strictly smaller. */
  function Min(x: ExtInt, y: ExtInt): (r: ExtInt)
    ensures LessEq(r, x) && LessEq(r, y)
    ensures r == x || r == y
  {
    if Less(y, x) then y else x
  }

  /** x cut down to the window [lo, hi]. */
  function Clamp(x: ExtInt, lo: ExtInt, hi: ExtInt): ExtInt {
    Max(lo, Min(x, hi))
  }

  /** Inside the window a clamped value is the value itself; below or above
      it, the clamp is the nearer bound. */
  lemma ClampCases(x: ExtInt, lo: ExtInt, hi: ExtInt)
    requires Less(lo, hi)
    ensures Less(lo, x) && Less(x, hi) ==> Clamp(x, lo, hi) == x
    ensures LessEq(x, lo) ==> Clamp(x, lo, hi) == lo
    ensures LessEq(hi, x) ==> Clamp(x, lo, hi) == hi
  {
  }

  /** Two values at or above a raised lower bound lo' that clamp alike to
      [lo', hi] also clamp alike to the wider window [lo, hi]. */
  lemma ClampWiden(x: ExtInt, y: ExtInt, lo: ExtInt, lo': ExtInt, hi: ExtInt)
    requires LessEq(lo, lo') && Less(lo', hi)
    requires LessEq(lo', x) && LessEq(lo', y)
    requires Clamp(x, lo', hi) == Clamp(y, lo', hi)
    ensures Clamp(x, lo, hi) == Clamp(y, lo, hi)
  {
    assert Clamp(x, lo, hi) == Min(x, hi) == Clamp(x, lo', hi);
    assert Clamp(y, lo, hi) == Min(y, hi) == Clamp(y, lo', hi);
  }

  /** The mirror image of ClampWiden for a lowered upper bound hi'. */
  lemma ClampWidenHigh(x: ExtInt, y: ExtInt, lo: ExtInt, hi': ExtInt, hi: ExtInt)
    requires Less(lo, hi') && LessEq(hi', hi)
    requires LessEq(x, hi') && LessEq(y, hi')
    requires Clamp(x, lo, hi') == Clamp(y, lo, hi')
    ensures Clamp(x, lo, hi) == Clamp(y, lo, hi)
  {
    assert Clamp(x, lo, hi) == Max(lo, x) == Clamp(x, lo, hi');
    assert Clamp(y, lo, hi) == Max(lo, y) == Clamp(y, lo, hi');
  }

  /** Two finite values that clamp alike to (lo, +inf) compare alike with lo,
      and are equal when above it. */
  lemma ClampAbove(v: ExtInt, w: ExtInt, lo: ExtInt)
    requires v.Fin? && w.Fin? && lo != PosInf
    requires Clamp(v, lo, PosInf) == Clamp(w, lo, PosInf)
    ensures Less(lo, v) <==> Less(lo, w)
    ensures Less(lo, v) ==> v == w && Max(lo, v) == v
    ensures !Less(lo, v) ==> Max(lo, v) == lo
  {
  }
}
