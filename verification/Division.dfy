/** Quotients of naturals, kept apart from everything else because products of variables are slow to
    reason about. */
module Division {
  lemma OneMore(n: nat, per: nat)
    ensures (n + 1) * per == n * per + per
  {
  }

  lemma {:induction false} AtLeastOnce(d: nat, per: nat)
    requires d >= 1
    ensures d * per >= per
  {
    if d > 1 {
      AtLeastOnce(d - 1, per);
      OneMore(d - 1, per);
    }
  }

  lemma Difference(a: nat, b: nat, per: nat)
    requires a < b
    ensures a * per + per <= b * per
  {
    AtLeastOnce(b - a, per);
    assert (b - a) * per == b * per - a * per;
  }

  /** A number within block n of length per lies `k - n * per` into it. */
  lemma Quotient(k: nat, n: nat, per: nat)
    requires n * per <= k < n * per + per
    ensures k / per == n && k % per == k - n * per
  {
    var q := k / per;
    assert q * per <= k < q * per + per;
    if q < n {
      Difference(q, n, per);
    } else if n < q {
      Difference(n, q, per);
    }
  }

  lemma NextRound(k: nat, n: nat)
    requires n > 0
    ensures if k % n == n - 1 then (k + 1) / n == k / n + 1 && (k + 1) % n == 0
            else (k + 1) / n == k / n && (k + 1) % n == k % n + 1
  {
    var q := k / n;
    assert k == q * n + k % n;
    if k % n == n - 1 {
      OneMore(q, n);
      Quotient(k + 1, q + 1, n);
    } else {
      Quotient(k + 1, q, n);
    }
  }

  /** Position j of block i, when blocks have the given length. */
  function At(i: nat, per: nat, j: nat): (k: nat)
    ensures k >= j
  {
    i * per + j
  }

  lemma AtIsWithin(i: nat, per: nat, j: nat, blocks: nat)
    requires i < blocks && j < per
    ensures At(i, per, j) < blocks * per
  {
    Difference(i, blocks, per);
  }

  /** Every index is a position of a block, and of one only. */
  lemma EveryIndex(k: nat, per: nat, blocks: nat)
    requires k < blocks * per
    ensures per > 0 && k / per < blocks && k == At(k / per, per, k % per)
    ensures forall i: nat, j: nat :: j < per && k == At(i, per, j) ==> i == k / per && j == k % per
  {
    if per == 0 {
      NoBlocks(blocks);
    }
    var q := k / per;
    assert q * per <= k;
    if q >= blocks {
      if q > blocks { Difference(blocks, q, per); }
    }
    forall i: nat, j: nat | j < per && k == At(i, per, j) ensures i == k / per && j == k % per {
      Quotient(k, i, per);
    }
  }

  lemma NoBlocks(blocks: nat)
    ensures blocks * 0 == 0
  {
  }
}
