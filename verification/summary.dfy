/**
 The outlier summary: how many rows show each of the four combinations of
 (Z-score flag, IQR flag). Like `value_counts` on the two flag columns, the
 result maps each combination that occurs to its number of rows and leaves
 out the combinations that do not occur.
 */
module Summary {

  /** A (Z-score flag, IQR flag) combination. */
  type FlagPair = (bool, bool)

  /** Number of rows whose flags form the combination `k`, scanning from the last row. */
  function CountPair(z: seq<bool>, q: seq<bool>, k: FlagPair): (c: nat)
    requires |z| == |q|
    ensures c <= |z|
  {
    if |z| == 0 then 0
    else
      var n := |z| - 1;
      CountPair(z[..n], q[..n], k) + (if (z[n], q[n]) == k then 1 else 0)
  }

  /** The rows whose flags form the combination `k`. */
  ghost function RowsWith(z: seq<bool>, q: seq<bool>, k: FlagPair): set<nat>
    requires |z| == |q|
  {
    set i: nat | i < |z| && (z[i], q[i]) == k
  }

  /** Count of a map entry, zero when the combination is absent. */
  function Get(m: map<FlagPair, nat>, k: FlagPair): (c: nat)
  {
    if k in m then m[k] else 0
  }

  /** Sum of the counts over the four combinations. */
  function Total(m: map<FlagPair, nat>): (c: nat)
  {
    Get(m, (false, false)) + Get(m, (false, true)) + Get(m, (true, false)) + Get(m, (true, true))
  }

  /** Counting rows by a scan agrees with the size of the set of matching rows. */
  lemma {:induction false} CountPairIsCardinality(z: seq<bool>, q: seq<bool>, k: FlagPair)
    requires |z| == |q|
    ensures CountPair(z, q, k) == |RowsWith(z, q, k)|
  {
    if |z| > 0 {
      var n := |z| - 1;
      CountPairIsCardinality(z[..n], q[..n], k);
      var prefix := RowsWith(z[..n], q[..n], k);
      var last: set<nat> := if (z[n], q[n]) == k then {n} else {};
      forall i: nat
        ensures i in RowsWith(z, q, k) <==> i in prefix + last
      {
        if i < n {
          assert (z[i], q[i]) == (z[..n][i], q[..n][i]);
        }
      }
      assert RowsWith(z, q, k) == prefix + last;
      assert n !in prefix;
    }
  }

  /** A combination has a positive count exactly when some row shows it. */
  lemma {:induction false} CountPairPositive(z: seq<bool>, q: seq<bool>, k: FlagPair)
    requires |z| == |q|
    ensures CountPair(z, q, k) > 0 <==> exists i :: 0 <= i < |z| && (z[i], q[i]) == k
  {
    CountPairIsCardinality(z, q, k);
    if exists i :: 0 <= i < |z| && (z[i], q[i]) == k {
      var i :| 0 <= i < |z| && (z[i], q[i]) == k;
      assert i in RowsWith(z, q, k);
    }
    if CountPair(z, q, k) > 0 {
      var i :| i in RowsWith(z, q, k);
    }
  }

  /** Every row shows exactly one combination, so the four counts add up to the row count. */
  lemma {:induction false} CountsPartitionRows(z: seq<bool>, q: seq<bool>)
    requires |z| == |q|
    ensures CountPair(z, q, (false, false)) + CountPair(z, q, (false, true))
          + CountPair(z, q, (true, false)) + CountPair(z, q, (true, true)) == |z|
  {
    if |z| > 0 {
      var n := |z| - 1;
      CountsPartitionRows(z[..n], q[..n]);
      var kz, kq := z[n], q[n];
      assert forall k: FlagPair ::
        CountPair(z, q, k) == CountPair(z[..n], q[..n], k) + (if (kz, kq) == k then 1 else 0);
    }
  }

  /** Four rows with neither flag and a fifth with both. */
  lemma SummaryExample()
    ensures CountPair([false, false, false, false, true], [false, false, false, false, true], (false, false)) == 4
    ensures CountPair([false, false, false, false, true], [false, false, false, false, true], (true, true)) == 1
  {
    var ff, tt := (false, false), (true, true);
    var z1, z2, z3, z4 := [false], [false, false], [false, false, false], [false, false, false, false];
    var z5 := [false, false, false, false, true];
    assert z1[..0] == [] && z2[..1] == z1 && z3[..2] == z2 && z4[..3] == z3 && z5[..4] == z4;
    assert CountPair(z1, z1, ff) == 1 && CountPair(z1, z1, tt) == 0;
    assert CountPair(z2, z2, ff) == 2 && CountPair(z2, z2, tt) == 0;
    assert CountPair(z3, z3, ff) == 3 && CountPair(z3, z3, tt) == 0;
    assert CountPair(z4, z4, ff) == 4 && CountPair(z4, z4, tt) == 0;
  }

  /**
   Tallies the flag combinations of the rows. The result holds exactly the
   combinations that occur, each with its number of rows, and its counts add
   up to the number of rows.
   */
  method ValueCounts(z: seq<bool>, q: seq<bool>) returns (m: map<FlagPair, nat>)
    requires |z| == |q|
    ensures forall k :: k in m <==> exists i :: 0 <= i < |z| && (z[i], q[i]) == k
    ensures forall k :: k in m ==> m[k] == CountPair(z, q, k)
    ensures Total(m) == |z|
  {
    m := map[];
    var i := 0;
    while i < |z|
      invariant 0 <= i <= |z|
      invariant forall k :: Get(m, k) == CountPair(z[..i], q[..i], k)
      invariant forall k :: k in m ==> m[k] > 0
    {
      var k := (z[i], q[i]);
      assert z[..i + 1][..i] == z[..i] && q[..i + 1][..i] == q[..i];
      m := m[k := Get(m, k) + 1];
      i := i + 1;
    }
    assert z[..i] == z && q[..i] == q;
    CountsPartitionRows(z, q);
    forall k ensures k in m <==> exists i :: 0 <= i < |z| && (z[i], q[i]) == k
    {
      CountPairPositive(z, q, k);
    }
  }
}
