/** Sums of multisets: who holds what, added up over a table. */
module Bags {

  function Sum<T>(bags: seq<multiset<T>>): multiset<T> {
    if bags == [] then multiset{} else Sum(bags[..|bags| - 1]) + bags[|bags| - 1]
  }

  lemma AddRight<T>(a: multiset<T>, b: multiset<T>, c: multiset<T>, d: multiset<T>, e: multiset<T>)
    requires a + b == c + d
    ensures (a + e) + b == (c + e) + d
  {
    assert (a + e) + b == (a + b) + e;
    assert (c + e) + d == (c + d) + e;
  }

  /** Replacing one bag changes the sum by exactly that bag's share. */
  lemma {:induction false} SumAfterUpdate<T>(bags: seq<multiset<T>>, i: nat, b: multiset<T>)
    requires i < |bags|
    ensures Sum(bags[i := b]) + bags[i] == Sum(bags) + b
  {
    var n := |bags| - 1;
    var s, s' := Sum(bags[..n]), Sum(bags[i := b][..n]);
    if i == n {
      assert bags[i := b][..n] == bags[..n];
    } else {
      SumAfterUpdate(bags[..n], i, b);
      assert bags[i := b][..n] == bags[..n][i := b];
      AddRight(s', bags[i], s, b, bags[n]);
    }
  }

  lemma {:induction false} SumHasPart<T>(bags: seq<multiset<T>>, i: nat, x: T)
    requires i < |bags|
    ensures bags[i][x] <= Sum(bags)[x]
  {
    var n := |bags| - 1;
    if i < n {
      SumHasPart(bags[..n], i, x);
      assert bags[..n][i] == bags[i];
    }
  }

  lemma {:induction false} SumHasTwoParts<T>(bags: seq<multiset<T>>, i: nat, j: nat, x: T)
    requires i < j < |bags|
    ensures bags[i][x] + bags[j][x] <= Sum(bags)[x]
  {
    var n := |bags| - 1;
    if j == n {
      SumHasPart(bags[..n], i, x);
      assert bags[..n][i] == bags[i];
    } else {
      SumHasTwoParts(bags[..n], i, j, x);
      assert bags[..n][i] == bags[i] && bags[..n][j] == bags[j];
    }
  }

  lemma {:induction false} SumOfEmpties<T>(bags: seq<multiset<T>>)
    requires forall i | 0 <= i < |bags| :: bags[i] == multiset{}
    ensures Sum(bags) == multiset{}
  {
    if bags != [] { SumOfEmpties(bags[..|bags| - 1]); }
  }

  /** Whatever is in the sum is in some bag. */
  lemma {:induction false} SumComesFrom<T>(bags: seq<multiset<T>>, x: T) returns (i: nat)
    requires x in Sum(bags)
    ensures i < |bags| && x in bags[i]
  {
    var n := |bags| - 1;
    if x in bags[n] { i := n; } else { i := SumComesFrom(bags[..n], x); }
  }

  /** The books after one holder gives up `gone`. */
  lemma BalanceAfterLoss<T>(total': multiset<T>, was: multiset<T>, total: multiset<T>, mine: multiset<T>, live: set<T>,
      gone: set<T>)
    requires total' + was == total + mine && total == multiset(live)
    requires was == mine + multiset(gone)
    ensures total' == multiset(live - gone)
  {
    forall x ensures total'[x] == multiset(live - gone)[x] {
      assert total'[x] + was[x] == (total' + was)[x] == (total + mine)[x] == total[x] + mine[x];
      assert was[x] == mine[x] + multiset(gone)[x];
    }
  }

  /** The books after one holder takes on `added`, which nobody held. */
  lemma BalanceAfterGain<T>(total': multiset<T>, was: multiset<T>, total: multiset<T>, mine: multiset<T>, live: set<T>,
      added: set<T>)
    requires total' + was == total + mine && total == multiset(live) && added !! live
    requires mine == was + multiset(added)
    ensures total' == multiset(live + added)
  {
    forall x ensures total'[x] == multiset(live + added)[x] {
      assert total'[x] + was[x] == (total' + was)[x] == (total + mine)[x] == total[x] + mine[x];
      assert mine[x] == was[x] + multiset(added)[x];
    }
  }
}
