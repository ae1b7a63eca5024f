/**
 Integers extended with the two infinities the search uses for its initial
 alpha/beta window and for the running best value before the first child.
 */
module ExtInts {

  datatype ExtInt = NegInf | Fin(n: int) | PosInf

  predicate Lt(a: ExtInt, b: ExtInt) {
    match a
    case NegInf => !b.NegInf?
    case Fin(x) => (b.Fin? && x < b.n) || b.PosInf?
    case PosInf => false
  }

  predicate Le(a: ExtInt, b: ExtInt) {
    !Lt(b, a)
  }

  /** The larger of a and b, keeping a on a tie. */
  function Max(a: ExtInt, b: ExtInt): (m: ExtInt)
    ensures Le(a, m) && Le(b, m) && (m == a || m == b)
  {
    if Lt(a, b) then b else a
  }

  /** The smaller of a and b, keeping a on a tie. */
  function Min(a: ExtInt, b: ExtInt): (m: ExtInt)
    ensures Le(m, a) && Le(m, b) && (m == a || m == b)
  {
    if Lt(b, a) then b else a
  }

  lemma LtTrans(a: ExtInt, b: ExtInt, c: ExtInt)
    requires Lt(a, b) && Lt(b, c)
    ensures Lt(a, c)
  {
  }

  /** Raising a bound by y and then by a larger z is the same as raising it by z. */
  lemma MaxAbsorbs(x: ExtInt, y: ExtInt, z: ExtInt)
    requires Le(y, z)
    ensures Max(Max(x, y), z) == Max(x, z)
  {
  }

  lemma MinAbsorbs(x: ExtInt, y: ExtInt, z: ExtInt)
    requires Le(z, y)
    ensures Min(Min(x, y), z) == Min(x, z)
  {
  }
}
