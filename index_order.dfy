/** What the index comparers mean for the sort that consumes them: the order
    of row positions a sort produces when every neighbouring pair satisfies
    the comparer. The sort routine itself lives outside the comparers. */
module IndexOrder {
  import opened JsValues
  import opened FieldComparers

  /** Every position in `perm` may be handed to `c`. */
  ghost predicate AdmitsAll(c: IndexComparer, perm: seq<int>) {
    forall k :: 0 <= k < |perm| ==> c.Admits(perm[k])
  }

  /** Every neighbouring pair of positions is in order under `c`: what a
      comparison sort guarantees of its output. */
  ghost predicate Sorted(host: Host, c: IndexComparer, perm: seq<int>)
    requires AdmitsAll(c, perm)
  {
    forall k :: 0 <= k < |perm| - 1 ==> c.Compare(host, perm[k], perm[k + 1]) <= 0
  }

  /** `perm` lists every row of an `n`-row column exactly once. */
  ghost predicate IsRowPermutation(perm: seq<int>, n: nat) {
    && |perm| == n
    && (forall k :: 0 <= k < n ==> 0 <= perm[k] < n)
    && (forall k, l :: 0 <= k < l < n ==> perm[k] != perm[l])
  }

  /** The rows of an `n`-row column in their original order. */
  function RowOrder(n: nat): seq<int> {
    seq(n, k => k)
  }

  function Reversed(s: seq<int>): seq<int> {
    seq(|s|, k requires 0 <= k < |s| => s[|s| - 1 - k])
  }

  /** Every position the forward comparer admits, the reversed one admits
      too, and reading the permutation backwards keeps them all admitted. */
  lemma ReverseAdmitsSamePositions(field: Field, perm: seq<int>)
    requires AdmitsAll(FieldIndexComparer(field, false), perm)
    ensures AdmitsAll(FieldIndexComparer(field, true), perm)
    ensures AdmitsAll(FieldIndexComparer(field, false), Reversed(perm))
  {
    var fwd, n := FieldIndexComparer(field, false), |perm|;
    forall k | 0 <= k < n
      ensures fwd.Admits(Reversed(perm)[k])
    {
      assert fwd.Admits(perm[n - 1 - k]);
    }
  }

  lemma {:induction false} BackwardSortedGivesForwardSorted(host: Host, field: Field, perm: seq<int>)
    requires AdmitsAll(FieldIndexComparer(field, false), perm)
    requires AdmitsAll(FieldIndexComparer(field, true), perm)
    requires AdmitsAll(FieldIndexComparer(field, false), Reversed(perm))
    requires Sorted(host, FieldIndexComparer(field, true), perm)
    ensures Sorted(host, FieldIndexComparer(field, false), Reversed(perm))
  {
    var fwd, bwd := FieldIndexComparer(field, false), FieldIndexComparer(field, true);
    var rev, n := Reversed(perm), |perm|;
    forall k | 0 <= k < n - 1
      ensures fwd.Compare(host, rev[k], rev[k + 1]) <= 0
    {
      var m := n - 2 - k;
      assert rev[k] == perm[m + 1] && rev[k + 1] == perm[m];
      assert bwd.Compare(host, perm[m], perm[m + 1]) <= 0;
      ReverseSwapsArguments(host, field, perm[m], perm[m + 1]);
    }
  }

  lemma {:induction false} ForwardSortedGivesBackwardSorted(host: Host, field: Field, perm: seq<int>)
    requires AdmitsAll(FieldIndexComparer(field, false), perm)
    requires AdmitsAll(FieldIndexComparer(field, true), perm)
    requires AdmitsAll(FieldIndexComparer(field, false), Reversed(perm))
    requires Sorted(host, FieldIndexComparer(field, false), Reversed(perm))
    ensures Sorted(host, FieldIndexComparer(field, true), perm)
  {
    var fwd, bwd := FieldIndexComparer(field, false), FieldIndexComparer(field, true);
    var rev, n := Reversed(perm), |perm|;
    forall k | 0 <= k < n - 1
      ensures bwd.Compare(host, perm[k], perm[k + 1]) <= 0
    {
      var m := n - 2 - k;
      assert rev[m] == perm[k + 1] && rev[m + 1] == perm[k];
      assert fwd.Compare(host, rev[m], rev[m + 1]) <= 0;
      ReverseSwapsArguments(host, field, perm[k], perm[k + 1]);
    }
  }

  /** A permutation sorted by the reversed comparer is, read backwards,
      sorted by the forward one, and the other way round. */
  lemma ReverseFlagReversesSortedOrder(host: Host, field: Field, perm: seq<int>)
    requires AdmitsAll(FieldIndexComparer(field, false), perm)
    ensures AdmitsAll(FieldIndexComparer(field, true), perm)
    ensures AdmitsAll(FieldIndexComparer(field, false), Reversed(perm))
    ensures (Sorted(host, FieldIndexComparer(field, true), perm)
             <==> Sorted(host, FieldIndexComparer(field, false), Reversed(perm)))
  {
    ReverseAdmitsSamePositions(field, perm);
    if Sorted(host, FieldIndexComparer(field, true), perm) {
      BackwardSortedGivesForwardSorted(host, field, perm);
    }
    if Sorted(host, FieldIndexComparer(field, false), Reversed(perm)) {
      ForwardSortedGivesBackwardSorted(host, field, perm);
    }
  }

  /** In a sorted permutation over a column on which the comparer is a total
      preorder, every earlier row compares not after every later row. */
  lemma {:induction false} SortedIsPairwise(host: Host, field: Field, reverse: bool, perm: seq<int>, i: int, j: int)
    requires ValidHost(host)
    requires forall k :: 0 <= k < |perm| ==> Orderable(FieldIndexComparer(field, reverse), perm[k])
    requires AdmitsAll(FieldIndexComparer(field, reverse), perm)
    requires Sorted(host, FieldIndexComparer(field, reverse), perm)
    requires 0 <= i <= j < |perm|
    ensures FieldIndexComparer(field, reverse).Compare(host, perm[i], perm[j]) <= 0
    decreases j - i
  {
    if i == j {
      IndexComparerIsPreorder(host, field, reverse, perm[i], perm[i], perm[i]);
    } else {
      SortedIsPairwise(host, field, reverse, perm, i, j - 1);
      IndexComparerIsPreorder(host, field, reverse, perm[i], perm[j - 1], perm[j]);
    }
  }

  /** Positions that strictly increase step by step spread at least as far
      apart as their places in the sequence. */
  lemma {:induction false} IncreasingSpread(perm: seq<int>, i: int, j: int)
    requires forall k :: 0 <= k < |perm| - 1 ==> perm[k] < perm[k + 1]
    requires 0 <= i <= j < |perm|
    ensures perm[j] - perm[i] >= j - i
    decreases j - i
  {
    if i < j {
      IncreasingSpread(perm, i, j - 1);
    }
  }

  /** Sorting the rows with the natural comparer leaves them in their
      original order, and that order is the only sorted one. */
  lemma NaturalSortKeepsRowOrder(host: Host, perm: seq<int>, n: nat)
    requires IsRowPermutation(perm, n)
    ensures Sorted(host, NaturalIndexComparer(false), perm) <==> perm == RowOrder(n)
  {
    var c := NaturalIndexComparer(false);
    if Sorted(host, c, perm) {
      forall k | 0 <= k < n - 1
        ensures perm[k] < perm[k + 1]
      {
        assert c.Compare(host, perm[k], perm[k + 1]) <= 0;
      }
      forall k | 0 <= k < n
        ensures perm[k] == k
      {
        IncreasingSpread(perm, 0, k);
        IncreasingSpread(perm, k, n - 1);
      }
    }
  }

  lemma ReversedTwice(s: seq<int>)
    ensures Reversed(Reversed(s)) == s
  {
  }

  /** A column whose type has no comparer of its own keeps its rows in their
      original order when sorted, and the reversed comparer reverses them,
      whatever the values in the column. */
  lemma UnknownTypeSortsByRowOrder(host: Host, field: Field, perm: seq<int>)
    requires field.fieldType.OtherType?
    requires IsRowPermutation(perm, |field.values|)
    ensures AdmitsAll(FieldIndexComparer(field, false), perm)
    ensures AdmitsAll(FieldIndexComparer(field, true), perm)
    ensures Sorted(host, FieldIndexComparer(field, false), perm) <==> perm == RowOrder(|field.values|)
    ensures Sorted(host, FieldIndexComparer(field, true), perm) <==> perm == Reversed(RowOrder(|field.values|))
  {
    var n := |field.values|;
    NaturalSortKeepsRowOrder(host, perm, n);
    ReverseFlagReversesSortedOrder(host, field, perm);
    var rev := Reversed(perm);
    assert IsRowPermutation(rev, n) by {
      forall k, l | 0 <= k < l < n
        ensures rev[k] != rev[l]
      {
        assert rev[k] == perm[n - 1 - k] && rev[l] == perm[n - 1 - l];
      }
    }
    NaturalSortKeepsRowOrder(host, rev, n);
    ReversedTwice(perm);
    ReversedTwice(RowOrder(n));
  }
}
