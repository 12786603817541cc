/** Points in time at which something holds, for endless runs. */
module Temporal {

  ghost predicate Later(p: nat -> bool, n: nat) {
    exists m: nat :: n <= m && p(m)
  }

  /** Again and again. */
  ghost predicate Often(p: nat -> bool) {
    forall n: nat :: Later(p, n)
  }

  ghost predicate AlwaysFrom(p: nat -> bool, n: nat) {
    forall m: nat | n <= m :: p(m)
  }

  /** Who can work again and again, does work again and again. */
  ghost predicate StronglyFair(can: nat -> bool, work: nat -> bool) {
    Often(can) ==> Often(work)
  }

  /** Who can work without interruption from some point on, does work again and
      again. */
  ghost predicate WeaklyFair(can: nat -> bool, work: nat -> bool) {
    (exists n: nat :: AlwaysFrom(can, n)) ==> Often(work)
  }

  /** A busy loop changes by its own work only, which uses up its rank. */
  ghost predicate Moves(busy: nat -> bool, work: nat -> bool, rank: nat -> nat, n: nat) {
    busy(n) ==>
      if work(n) then busy(n + 1) ==> rank(n + 1) < rank(n)
      else busy(n + 1) && rank(n + 1) == rank(n)
  }

  ghost predicate CanSoon(busy: nat -> bool, can: nat -> bool, n: nat) {
    busy(n) ==> Later(can, n)
  }

  /** A loop that is busy until its own work has used up its rank, and that can
      work again while it is busy. */
  ghost predicate Loop(busy: nat -> bool, can: nat -> bool, work: nat -> bool, rank: nat -> nat) {
    && (forall n: nat | can(n) :: busy(n))
    && (forall n: nat :: CanSoon(busy, can, n))
    && (forall n: nat :: Moves(busy, work, rank, n))
  }

  /** The loop is busy up to `m` and no longer busy there. */
  ghost predicate Finishes(busy: nat -> bool, n: nat, m: nat) {
    n < m && !busy(m) && forall k: nat | n <= k < m :: busy(k)
  }

  ghost predicate AllFinish(busy: nat -> bool) {
    forall n: nat | busy(n) :: exists m: nat :: Finishes(busy, n, m)
  }

  /** A busy loop works again, and until then nothing changes for it. */
  lemma WorksAgain(busy: nat -> bool, can: nat -> bool, work: nat -> bool, rank: nat -> nat, n: nat) returns (m: nat)
    requires Loop(busy, can, work, rank) && StronglyFair(can, work) && busy(n)
    ensures n <= m && work(m) && rank(m) == rank(n) && forall k: nat | n <= k <= m :: busy(k)
  {
    if !Later(work, n) {
      forall n': nat ensures Later(can, n') {
        var k := if n <= n' then n' else n;
        StaysBusy(busy, can, work, rank, n, k);
        assert CanSoon(busy, can, k);
        var m': nat :| k <= m' && can(m');
      }
    }
    var w: nat :| n <= w && work(w);
    m := n;
    while !work(m)
      invariant n <= m <= w && rank(m) == rank(n) && forall k: nat | n <= k <= m :: busy(k)
      decreases w - m
    {
      assert Moves(busy, work, rank, m);
      m := m + 1;
    }
  }

  lemma {:induction false} StaysBusy(busy: nat -> bool, can: nat -> bool, work: nat -> bool, rank: nat -> nat,
                                     n: nat, k: nat)
    requires Loop(busy, can, work, rank) && !Later(work, n) && busy(n) && n <= k
    ensures busy(k)
  {
    if n < k {
      StaysBusy(busy, can, work, rank, n, k - 1);
      assert Moves(busy, work, rank, k - 1) && !work(k - 1);
    }
  }

  lemma {:induction false} FinishesOnce(busy: nat -> bool, can: nat -> bool, work: nat -> bool, rank: nat -> nat,
                                        n: nat) returns (m: nat)
    requires Loop(busy, can, work, rank) && StronglyFair(can, work) && busy(n)
    ensures Finishes(busy, n, m)
    decreases rank(n)
  {
    var w := WorksAgain(busy, can, work, rank, n);
    assert Moves(busy, work, rank, w);
    if busy(w + 1) {
      m := FinishesOnce(busy, can, work, rank, w + 1);
    } else {
      m := w + 1;
    }
  }

  /** A loop that is no longer busy has finished at some point before. */
  lemma FirstFinish(busy: nat -> bool, n: nat, w: nat) returns (m: nat)
    requires busy(n) && n < w && !busy(w)
    ensures m <= w && Finishes(busy, n, m)
  {
    m := n;
    while busy(m)
      invariant n <= m <= w && (m == n ==> busy(m)) && forall k: nat | n <= k < m :: busy(k)
      decreases w - m
    {
      m := m + 1;
    }
  }

  /** Such a loop always finishes if and only if the scheduling is strongly fair
      to it. */
  lemma FinishExact(busy: nat -> bool, can: nat -> bool, work: nat -> bool, rank: nat -> nat)
    requires Loop(busy, can, work, rank)
    ensures AllFinish(busy) <==> StronglyFair(can, work)
  {
    if StronglyFair(can, work) {
      forall n: nat | busy(n) ensures exists m: nat :: Finishes(busy, n, m) {
        var m := FinishesOnce(busy, can, work, rank, n);
      }
    } else {
      var n: nat :| !Later(work, n);
      assert Later(can, n);
      var k: nat :| n <= k && can(k);
      forall m: nat ensures !Finishes(busy, k, m) {
        if k < m {
          assert !Later(work, k);
          StaysBusy(busy, can, work, rank, k, m);
        }
      }
    }
  }
}
