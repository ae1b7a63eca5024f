/**
 How a search node backs up its children's values: scanning the children in
 order, it keeps a running best that starts at the infinite bound of the side
 to move and is replaced only on a strict improvement, together with the index
 of the child that set it.
 */
module Backups {
  import opened ExtInts

  function Start(maximizing: bool): ExtInt {
    if maximizing then NegInf else PosInf
  }

  /** v improves strictly on the running best e for the side to move. */
  predicate Improves(maximizing: bool, v: int, e: ExtInt) {
    if maximizing then Lt(e, Fin(v)) else Lt(Fin(v), e)
  }

  /** e is at least as good as e' for the side to move. */
  predicate AtLeastAsGood(maximizing: bool, e: ExtInt, e': ExtInt) {
    if maximizing then Le(e', e) else Le(e, e')
  }

  /** The running best after the first k of the values vs. */
  function Best(maximizing: bool, vs: seq<int>, k: nat): (e: ExtInt)
    requires k <= |vs|
    ensures k == 0 <==> e == Start(maximizing)
    ensures k > 0 ==> e.Fin?
  {
    if k == 0 then Start(maximizing)
    else
      var prev := Best(maximizing, vs, k - 1);
      if Improves(maximizing, vs[k - 1], prev) then Fin(vs[k - 1]) else prev
  }

  /** The index that set the running best after the first k values. */
  function BestIndex(maximizing: bool, vs: seq<int>, k: nat): (j: nat)
    requires 1 <= k <= |vs|
    ensures j < k
  {
    if k == 1 then 0
    else if Improves(maximizing, vs[k - 1], Best(maximizing, vs, k - 1)) then k - 1
    else BestIndex(maximizing, vs, k - 1)
  }

  /** The running best is the optimum of the prefix and is reached first at BestIndex: no
      value of the prefix improves on it, and every earlier value is strictly worse. */
  lemma {:induction false} BestIndexIsFirstOptimum(maximizing: bool, vs: seq<int>, k: nat)
    requires 1 <= k <= |vs|
    ensures BestIndex(maximizing, vs, k) < k
    ensures Best(maximizing, vs, k) == Fin(vs[BestIndex(maximizing, vs, k)])
    ensures forall i :: 0 <= i < k ==> !Improves(maximizing, vs[i], Best(maximizing, vs, k))
    ensures forall i :: 0 <= i < BestIndex(maximizing, vs, k) ==>
      Improves(maximizing, vs[BestIndex(maximizing, vs, k)], Fin(vs[i]))
  {
    if k > 1 {
      BestIndexIsFirstOptimum(maximizing, vs, k - 1);
    }
  }

  /** The running best only gets better as more values are scanned. */
  lemma {:induction false} BestMonotone(maximizing: bool, vs: seq<int>, i: nat, k: nat)
    requires i <= k <= |vs|
    ensures AtLeastAsGood(maximizing, Best(maximizing, vs, k), Best(maximizing, vs, i))
    decreases k - i
  {
    if i < k {
      BestMonotone(maximizing, vs, i, k - 1);
    }
  }

  /** What a search under the window (alpha, beta) promises about the value r it returns
      for a node whose true value is v: exact inside the window, and on the same side of
      the window as v outside it. */
  predicate WindowSound(alpha: ExtInt, beta: ExtInt, v: int, r: int) {
    && (Lt(alpha, Fin(v)) && Lt(Fin(v), beta) ==> r == v)
    && (Le(Fin(v), alpha) ==> Le(Fin(r), alpha))
    && (Le(beta, Fin(v)) ==> Le(beta, Fin(r)))
  }

  /** One child of a maximising node: p is the exact best so far and best the searched best
      so far; the child was searched under (a, beta) with a = max(alpha, best). Afterwards
      either the loop goes on with the same relation between the two, or it is cut off with
      both at or above beta. */
  lemma MaxStep(alpha: ExtInt, beta: ExtInt, p: ExtInt, best: ExtInt, v: int, r: int)
    requires Lt(alpha, beta) && Lt(p, beta)
    requires Le(p, alpha) ==> Le(best, alpha)
    requires Lt(alpha, p) ==> best == p
    requires WindowSound(Max(alpha, best), beta, v, r)
    ensures var p' := if Lt(p, Fin(v)) then Fin(v) else p;
            var best' := if Lt(best, Fin(r)) then Fin(r) else best;
            && Max(Max(alpha, best), best') == Max(alpha, best')
            && (Lt(Max(alpha, best'), beta) ==>
                  && Lt(p', beta)
                  && (Le(p', alpha) ==> Le(best', alpha))
                  && (Lt(alpha, p') ==> best' == p' && (Lt(best, Fin(r)) <==> Lt(p, Fin(v)))))
            && (Le(beta, Max(alpha, best')) ==> Le(beta, best') && Le(beta, p'))
  {
  }

  /** The mirror image of MaxStep for a minimising node searched under (alpha, b) with
      b = min(beta, best). */
  lemma MinStep(alpha: ExtInt, beta: ExtInt, p: ExtInt, best: ExtInt, v: int, r: int)
    requires Lt(alpha, beta) && Lt(alpha, p)
    requires Le(beta, p) ==> Le(beta, best)
    requires Lt(p, beta) ==> best == p
    requires WindowSound(alpha, Min(beta, best), v, r)
    ensures var p' := if Lt(Fin(v), p) then Fin(v) else p;
            var best' := if Lt(Fin(r), best) then Fin(r) else best;
            && Min(Min(beta, best), best') == Min(beta, best')
            && (Lt(alpha, Min(beta, best')) ==>
                  && Lt(alpha, p')
                  && (Le(beta, p') ==> Le(beta, best'))
                  && (Lt(p', beta) ==> best' == p' && (Lt(Fin(r), best) <==> Lt(Fin(v), p))))
            && (Le(Min(beta, best'), alpha) ==> Le(best', alpha) && Le(p', alpha))
  {
  }

  /** The loop invariant of a maximising node that has searched the first i of the values vs
      under (alpha, beta): best is the searched running best and bi the index that set it.
      Before a cut-off, the exact running best is below beta, and best is either below alpha
      along with it or equal to it and set at the same index; after a cut-off both are at or
      above beta. */
  predicate MaxScanInv(alpha: ExtInt, beta: ExtInt, vs: seq<int>, i: nat, best: ExtInt, bi: nat, cut: bool)
    requires i <= |vs|
  {
    var p := Best(true, vs, i);
    && (!cut ==> Lt(p, beta))
    && (!cut && Le(p, alpha) ==> Le(best, alpha))
    && (!cut && Lt(alpha, p) ==> i > 0 && best == p && bi == BestIndex(true, vs, i))
    && (cut ==> Le(beta, best) && Le(beta, p))
  }

  /** The mirror image of MaxScanInv for a minimising node. */
  predicate MinScanInv(alpha: ExtInt, beta: ExtInt, vs: seq<int>, i: nat, best: ExtInt, bi: nat, cut: bool)
    requires i <= |vs|
  {
    var p := Best(false, vs, i);
    && (!cut ==> Lt(alpha, p))
    && (!cut && Le(beta, p) ==> Le(beta, best))
    && (!cut && Lt(p, beta) ==> i > 0 && best == p && bi == BestIndex(false, vs, i))
    && (cut ==> Le(best, alpha) && Le(p, alpha))
  }

  /** Searching value i of a maximising node under (max(alpha, best), beta), replacing the
      running best on strict improvement and cutting off once max(alpha, best) reaches beta,
      keeps MaxScanInv. */
  lemma MaxScanStep(alpha: ExtInt, beta: ExtInt, vs: seq<int>, i: nat, best: ExtInt, bi: nat, r: int,
                    best': ExtInt, bi': nat, cut': bool)
    requires Lt(alpha, beta) && i < |vs|
    requires MaxScanInv(alpha, beta, vs, i, best, bi, false)
    requires WindowSound(Max(alpha, best), beta, vs[i], r)
    requires best' == (if Lt(best, Fin(r)) then Fin(r) else best)
    requires bi' == (if Lt(best, Fin(r)) then i else bi)
    requires cut' == Le(beta, Max(alpha, best'))
    ensures MaxScanInv(alpha, beta, vs, i + 1, best', bi', cut')
  {
    MaxStep(alpha, beta, Best(true, vs, i), best, vs[i], r);
  }

  lemma MinScanStep(alpha: ExtInt, beta: ExtInt, vs: seq<int>, i: nat, best: ExtInt, bi: nat, r: int,
                    best': ExtInt, bi': nat, cut': bool)
    requires Lt(alpha, beta) && i < |vs|
    requires MinScanInv(alpha, beta, vs, i, best, bi, false)
    requires WindowSound(alpha, Min(beta, best), vs[i], r)
    requires best' == (if Lt(Fin(r), best) then Fin(r) else best)
    requires bi' == (if Lt(Fin(r), best) then i else bi)
    requires cut' == Le(Min(beta, best'), alpha)
    ensures MinScanInv(alpha, beta, vs, i + 1, best', bi', cut')
  {
    MinStep(alpha, beta, Best(false, vs, i), best, vs[i], r);
  }

  /** When a maximising node stops, by a cut-off or after its last child, its searched best
      obeys the window with respect to the exact best of all children, and inside the window
      it was set by the same child. */
  lemma MaxScanDone(alpha: ExtInt, beta: ExtInt, vs: seq<int>, i: nat, best: ExtInt, bi: nat, cut: bool)
    requires Lt(alpha, beta) && 0 < i <= |vs| && best.Fin?
    requires MaxScanInv(alpha, beta, vs, i, best, bi, cut)
    requires cut || i == |vs|
    ensures WindowSound(alpha, beta, Best(true, vs, |vs|).n, best.n)
    ensures Lt(alpha, Best(true, vs, |vs|)) && Lt(Best(true, vs, |vs|), beta) ==> bi == BestIndex(true, vs, |vs|)
  {
    BestMonotone(true, vs, i, |vs|);
  }

  lemma MinScanDone(alpha: ExtInt, beta: ExtInt, vs: seq<int>, i: nat, best: ExtInt, bi: nat, cut: bool)
    requires Lt(alpha, beta) && 0 < i <= |vs| && best.Fin?
    requires MinScanInv(alpha, beta, vs, i, best, bi, cut)
    requires cut || i == |vs|
    ensures WindowSound(alpha, beta, Best(false, vs, |vs|).n, best.n)
    ensures Lt(alpha, Best(false, vs, |vs|)) && Lt(Best(false, vs, |vs|), beta) ==> bi == BestIndex(false, vs, |vs|)
  {
    BestMonotone(false, vs, i, |vs|);
  }
}
