/** The row-level steps of `PrepareTrainData.post` between vectorisation
    and upload: the shuffle `vectors[new_index]` with `new_index` a
    permutation of `arange(n)`, and the cut into training and validation
    rows at `int(0.8 * n)`. The matrix is an opaque sequence of rows. */
module Dataset {

  /** `np.arange(n)`. */
  function Indices(n: nat): (r: seq<nat>)
    ensures |r| == n && forall i :: 0 <= i < n ==> r[i] == i
  {
    seq(n, i => i)
  }

  /** `p` is a reordering of `arange(n)`, as `np.random.permutation` returns. */
  ghost predicate IsPermutationOf(p: seq<nat>, n: nat) {
    multiset(p) == multiset(Indices(n))
  }

  lemma PermutationInRange(p: seq<nat>, n: nat)
    requires IsPermutationOf(p, n)
    ensures |p| == n && forall i :: 0 <= i < |p| ==> p[i] < n
  {
    assert |multiset(p)| == |p|;
    forall i | 0 <= i < |p|
      ensures p[i] < n
    {
      assert p[i] in multiset(p);
      assert p[i] in Indices(n);
    }
  }

  /** `vectors[new_index]`: row `i` of the result is row `new_index[i]`. */
  function Permute<T>(rows: seq<T>, p: seq<nat>): (r: seq<T>)
    requires IsPermutationOf(p, |rows|)
    ensures |r| == |rows|
  {
    PermutationInRange(p, |rows|);
    seq(|p|, i requires 0 <= i < |p| => rows[p[i]])
  }

  lemma PermuteAt<T>(rows: seq<T>, p: seq<nat>, i: nat)
    requires IsPermutationOf(p, |rows|) && i < |rows|
    ensures |p| == |rows| && p[i] < |rows| && Permute(rows, p)[i] == rows[p[i]]
  {
    PermutationInRange(p, |rows|);
  }

  /** The rows picked out by a sequence of row numbers. */
  function Pick<T>(rows: seq<T>, q: seq<nat>): (r: seq<T>)
    requires forall i :: 0 <= i < |q| ==> q[i] < |rows|
    ensures |r| == |q|
  {
    seq(|q|, i requires 0 <= i < |q| => rows[q[i]])
  }

  lemma PickSplit<T>(rows: seq<T>, a: seq<nat>, b: seq<nat>)
    requires forall i :: 0 <= i < |a| ==> a[i] < |rows|
    requires forall i :: 0 <= i < |b| ==> b[i] < |rows|
    ensures Pick(rows, a + b) == Pick(rows, a) + Pick(rows, b)
  {
    assert forall i :: 0 <= i < |a + b| ==> (a + b)[i] < |rows|;
  }

  lemma RemoveAt(q: seq<nat>, k: nat)
    requires k < |q|
    ensures multiset(q[..k] + q[k + 1..]) == multiset(q) - multiset{q[k]}
  {
    assert q == q[..k] + [q[k]] + q[k + 1..];
  }

  lemma RemoveAtInRange(q: seq<nat>, k: nat, n: nat)
    requires k < |q| && forall i :: 0 <= i < |q| ==> q[i] < n
    ensures var rest := q[..k] + q[k + 1..]; forall i :: 0 <= i < |rest| ==> rest[i] < n
  {
    var rest := q[..k] + q[k + 1..];
    forall i | 0 <= i < |rest|
      ensures rest[i] < n
    {
      if i < k { assert rest[i] == q[i]; } else { assert rest[i] == q[i + 1]; }
    }
  }

  /** The rows picked by `q` are those picked with position `k` left out,
      plus row `q[k]`. */
  lemma PickRemoveAt<T>(rows: seq<T>, q: seq<nat>, k: nat)
    requires forall i :: 0 <= i < |q| ==> q[i] < |rows|
    requires k < |q|
    ensures multiset(Pick(rows, q)) == multiset(Pick(rows, q[..k] + q[k + 1..])) + multiset{rows[q[k]]}
  {
    var a, x, b := q[..k], q[k], q[k + 1..];
    assert q == (a + [x]) + b;
    PickSplit(rows, a + [x], b);
    PickSplit(rows, a, [x]);
    PickSplit(rows, a, b);
    var pa, pb := Pick(rows, a), Pick(rows, b);
    assert Pick(rows, q) == pa + [rows[x]] + pb;
    assert multiset(Pick(rows, q)) == multiset(pa) + multiset{rows[x]} + multiset(pb);
  }

  /** One step of PickReordered: both sides lose the same row number. */
  lemma PickMatchFirst<T>(rows: seq<T>, q1: seq<nat>, q2: seq<nat>, k: nat)
    requires forall i :: 0 <= i < |q1| ==> q1[i] < |rows|
    requires forall i :: 0 <= i < |q2| ==> q2[i] < |rows|
    requires 0 < |q1| && k < |q2| && q2[k] == q1[0]
    requires multiset(Pick(rows, q1[1..])) == multiset(Pick(rows, q2[..k] + q2[k + 1..]))
    ensures multiset(Pick(rows, q1)) == multiset(Pick(rows, q2))
  {
    assert q1[..0] + q1[1..] == q1[1..];
    PickRemoveAt(rows, q1, 0);
    PickRemoveAt(rows, q2, k);
  }

  /** Picking by two orderings of the same row numbers gives the same rows,
      each as often. */
  lemma {:induction false} PickReordered<T>(rows: seq<T>, q1: seq<nat>, q2: seq<nat>)
    requires forall i :: 0 <= i < |q1| ==> q1[i] < |rows|
    requires forall i :: 0 <= i < |q2| ==> q2[i] < |rows|
    requires multiset(q1) == multiset(q2)
    ensures multiset(Pick(rows, q1)) == multiset(Pick(rows, q2))
    decreases |q1|
  {
    if q1 != [] {
      var x := q1[0];
      assert x in multiset(q2);
      var k :| 0 <= k < |q2| && q2[k] == x;
      var rest1, rest2 := q1[1..], q2[..k] + q2[k + 1..];
      RemoveAt(q1, 0);
      RemoveAt(q2, k);
      assert q1[..0] + q1[1..] == rest1;
      RemoveAtInRange(q2, k, |rows|);
      PickReordered(rows, rest1, rest2);
      PickMatchFirst(rows, q1, q2, k);
    }
  }

  /** Shuffling loses no row and duplicates none: the permuted matrix holds
      exactly the original rows, each as often as before. */
  lemma ShuffleKeepsRows<T>(rows: seq<T>, p: seq<nat>)
    requires IsPermutationOf(p, |rows|)
    ensures multiset(Permute(rows, p)) == multiset(rows)
  {
    PermutationInRange(p, |rows|);
    var ix := Indices(|rows|);
    assert Permute(rows, p) == Pick(rows, p);
    assert Pick(rows, ix) == rows;
    PickReordered(rows, p, ix);
  }

  lemma {:induction false} IndicesCount(n: nat, x: nat)
    requires x < n
    ensures multiset(Indices(n))[x] == 1
  {
    if x < n - 1 {
      IndicesCount(n - 1, x);
    } else {
      assert x !in Indices(n - 1);
    }
    assert Indices(n) == Indices(n - 1) + [n - 1];
  }

  /** Each original row `j` is moved to exactly one position: `j` occurs in
      `new_index`, and no two positions share an original row. */
  lemma ShuffleIsBijective(p: seq<nat>, n: nat)
    requires IsPermutationOf(p, n)
    ensures forall j :: 0 <= j < n ==> j in p
    ensures forall i, k :: 0 <= i < k < |p| ==> p[i] != p[k]
  {
    forall j | 0 <= j < n
      ensures j in p
    {
      assert Indices(n)[j] == j;
      assert j in multiset(p);
    }
    forall i, k | 0 <= i < k < |p|
      ensures p[i] != p[k]
    {
      if p[i] == p[k] {
        PermutationInRange(p, n);
        var x := p[i];
        assert p == p[..k] + p[k..];
        assert x in multiset(p[..k]) && x in multiset(p[k..]);
        assert multiset(p)[x] >= 2;
        IndicesCount(n, x);
        assert false;
      }
    }
  }

  /** `n_train = int(0.8 * n)`, computed exactly in integer arithmetic: the
      largest count whose share of the rows does not exceed four fifths. */
  function TrainCount(n: nat): (k: nat)
    ensures k <= n
    ensures 5 * k <= 4 * n < 5 * (k + 1)
  {
    (4 * n) / 5
  }

  /** `vectors[:n_train, :]` and `vectors[n_train:, :]`. */
  function TrainValSplit<T>(rows: seq<T>): (r: (seq<T>, seq<T>))
    ensures |r.0| == TrainCount(|rows|)
    ensures r.0 + r.1 == rows
  {
    (rows[..TrainCount(|rows|)], rows[TrainCount(|rows|)..])
  }

  /** Row `i` is a training row exactly when `i < n_train` and a validation
      row otherwise, so no row is in both sets. */
  lemma SplitIsDisjoint<T>(rows: seq<T>, i: nat)
    requires i < |rows|
    ensures var (train, val) := TrainValSplit(rows);
      && (i < |train| ==> train[i] == rows[i])
      && (i >= |train| ==> val[i - |train|] == rows[i])
      && |train| + |val| == |rows|
  {
    var (train, val) := TrainValSplit(rows);
    assert rows == train + val;
  }
}
