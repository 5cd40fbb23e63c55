/** The canonical form of a cycle of node ids: rotated, never sorted, so that a least id leads. */
module Rotation {
  import opened Utf16Order

  /** The first position of a least id, from `k` on, given the best position so far. */
  function LeastFrom(cycle: seq<string>, best: nat, k: nat): (r: nat)
    requires best < k <= |cycle|
    requires forall j | 0 <= j < k :: !Utf16Less(cycle[j], cycle[best])
    requires forall j | 0 <= j < best :: Utf16Less(cycle[best], cycle[j])
    ensures r < |cycle|
    ensures forall j | 0 <= j < |cycle| :: !Utf16Less(cycle[j], cycle[r])
    ensures forall j | 0 <= j < r :: Utf16Less(cycle[r], cycle[j])
    decreases |cycle| - k
  {
    if k == |cycle| then best
    else if Utf16Less(cycle[k], cycle[best]) then
      StillLeast(cycle, best, k);
      LeastFrom(cycle, k, k + 1)
    else LeastFrom(cycle, best, k + 1)
  }

  lemma StillLeast(cycle: seq<string>, best: nat, k: nat)
    requires best < k < |cycle| && Utf16Less(cycle[k], cycle[best])
    requires forall j | 0 <= j < k :: !Utf16Less(cycle[j], cycle[best])
    ensures forall j | 0 <= j < k :: Utf16Less(cycle[k], cycle[j])
    ensures forall j | 0 <= j <= k :: !Utf16Less(cycle[j], cycle[k])
  {
    forall j | 0 <= j < k ensures Utf16Less(cycle[k], cycle[j]) {
      Utf16OrderIsTotal(cycle[j], cycle[best]);
      if cycle[j] != cycle[best] {
        Utf16IsTransitive(cycle[k], cycle[best], cycle[j]);
      }
    }
    forall j | 0 <= j <= k ensures !Utf16Less(cycle[j], cycle[k]) {
      Utf16OrderIsTotal(cycle[j], cycle[k]);
    }
  }

  /** `min(range(len(cycle)), key=...)`: the first position of a least id. */
  function LeastIndex(cycle: seq<string>): (r: nat)
    requires cycle != []
    ensures r < |cycle|
    ensures forall j | 0 <= j < |cycle| :: !Utf16Less(cycle[j], cycle[r])
    ensures forall j | 0 <= j < r :: Utf16Less(cycle[r], cycle[j])
  {
    Utf16OrderIsTotal(cycle[0], cycle[0]);
    LeastFrom(cycle, 0, 1)
  }

  function Rotate(cycle: seq<string>, k: nat): (r: seq<string>)
    requires k <= |cycle|
    ensures |r| == |cycle|
    ensures forall i | 0 <= i < |r| :: r[i] == if i + k < |cycle| then cycle[i + k] else cycle[i + k - |cycle|]
  {
    cycle[k..] + cycle[..k]
  }

  function CanonicalRotation(cycle: seq<string>): (r: seq<string>) {
    if cycle == [] then [] else Rotate(cycle, LeastIndex(cycle))
  }

  /** The pairs of neighbours on the closed cycle. */
  ghost predicate Follows(cycle: seq<string>, u: string, v: string) {
    exists i :: 0 <= i < |cycle| && cycle[i] == u && cycle[if i + 1 < |cycle| then i + 1 else 0] == v
  }

  lemma RotateTwice(cycle: seq<string>, j: nat, k: nat)
    requires j <= |cycle| && k <= |cycle|
    ensures Rotate(Rotate(cycle, j), k) == Rotate(cycle, if j + k <= |cycle| then j + k else j + k - |cycle|)
  {
  }

  lemma NeighboursStay(cycle: seq<string>, k: nat, u: string, v: string)
    requires k <= |cycle| && Follows(cycle, u, v)
    ensures Follows(Rotate(cycle, k), u, v)
  {
    var r, n := Rotate(cycle, k), |cycle|;
    var i :| 0 <= i < n && cycle[i] == u && cycle[if i + 1 < n then i + 1 else 0] == v;
    var j := if i >= k then i - k else i + n - k;
    var j' := if j == n then 0 else j;
    assert r[j'] == u && r[if j' + 1 < n then j' + 1 else 0] == v;
  }

  lemma RotationKeepsNeighbours(cycle: seq<string>, k: nat, u: string, v: string)
    requires k <= |cycle|
    ensures Follows(cycle, u, v) <==> Follows(Rotate(cycle, k), u, v)
  {
    hide Follows, Rotate;
    RotateTwice(cycle, k, |cycle| - k);
    WholeTurn(cycle, k);
    if Follows(cycle, u, v) {
      NeighboursStay(cycle, k, u, v);
    }
    if Follows(Rotate(cycle, k), u, v) {
      NeighboursStay(Rotate(cycle, k), |cycle| - k, u, v);
    }
  }

  lemma WholeTurn(cycle: seq<string>, k: nat)
    requires k <= |cycle|
    ensures |Rotate(cycle, k)| == |cycle| && Rotate(cycle, |cycle|) == cycle
  {
  }

  /** The canonical form is a rotation of the cycle, a least id leads it, and it keeps the cycle:
      whatever followed whatever still does. */
  lemma CanonicalIsARotation(cycle: seq<string>)
    requires cycle != []
    ensures exists k | 0 <= k < |cycle| :: CanonicalRotation(cycle) == Rotate(cycle, k)
    ensures forall j | 0 <= j < |cycle| :: !Utf16Less(cycle[j], CanonicalRotation(cycle)[0])
    ensures forall u, v :: Follows(cycle, u, v) <==> Follows(CanonicalRotation(cycle), u, v)
  {
    var k := LeastIndex(cycle);
    assert CanonicalRotation(cycle) == Rotate(cycle, k);
    forall u, v ensures Follows(cycle, u, v) <==> Follows(CanonicalRotation(cycle), u, v) {
      RotationKeepsNeighbours(cycle, k, u, v);
    }
  }

  /** A cycle led by a least id is in canonical form already. */
  lemma LedByLeastIsCanonical(cycle: seq<string>)
    requires cycle != [] && forall j | 0 <= j < |cycle| :: !Utf16Less(cycle[j], cycle[0])
    ensures CanonicalRotation(cycle) == cycle
  {
    var k := LeastIndex(cycle);
    Utf16OrderIsTotal(cycle[0], cycle[k]);
    assert k == 0;
    assert Rotate(cycle, 0) == cycle;
  }

  lemma CanonicalIsIdempotent(cycle: seq<string>)
    ensures CanonicalRotation(CanonicalRotation(cycle)) == CanonicalRotation(cycle)
  {
    if cycle != [] {
      CanonicalIsARotation(cycle);
      var r := CanonicalRotation(cycle);
      var k :| 0 <= k < |cycle| && r == Rotate(cycle, k);
      forall j | 0 <= j < |r| ensures !Utf16Less(r[j], r[0]) {
        assert r[j] == cycle[if j + k < |cycle| then j + k else j + k - |cycle|];
      }
      LedByLeastIsCanonical(r);
    }
  }

  /** Starting at any place that holds a least id gives the same list. */
  ghost predicate LeastPlacesAgree(cycle: seq<string>) {
    forall i, j | 0 <= i < |cycle| && 0 <= j < |cycle| && IsLeast(cycle, i) && IsLeast(cycle, j) ::
      Rotate(cycle, i) == Rotate(cycle, j)
  }

  ghost predicate IsLeast(cycle: seq<string>, i: nat)
    requires i < |cycle|
  {
    forall j | 0 <= j < |cycle| :: !Utf16Less(cycle[j], cycle[i])
  }

  lemma CanonicalOfRotation(cycle: seq<string>, k: nat) returns (i: nat)
    requires k < |cycle|
    ensures i < |cycle| && IsLeast(cycle, i) && CanonicalRotation(Rotate(cycle, k)) == Rotate(cycle, i)
  {
    var r := Rotate(cycle, k);
    var q := LeastIndex(r);
    RotateTwice(cycle, k, q);
    i := if k + q < |cycle| then k + q else k + q - |cycle|;
    assert r[q] == cycle[i];
    forall j | 0 <= j < |cycle| ensures !Utf16Less(cycle[j], cycle[i]) {
      var m := if j >= k then j - k else j + |cycle| - k;
      assert r[m] == cycle[j];
    }
    if k + q == |cycle| {
      assert Rotate(cycle, |cycle|) == cycle && Rotate(cycle, 0) == cycle;
    }
  }

  ghost predicate OneForm(cycle: seq<string>) {
    forall k | 0 <= k < |cycle| :: CanonicalRotation(Rotate(cycle, k)) == CanonicalRotation(cycle)
  }

  lemma LeastPlaceIsCanonical(cycle: seq<string>, i: nat)
    requires i < |cycle| && IsLeast(cycle, i)
    ensures CanonicalRotation(Rotate(cycle, i)) == Rotate(cycle, i)
  {
    hide Utf16Less;
    var r := Rotate(cycle, i);
    forall j | 0 <= j < |r| ensures !Utf16Less(r[j], r[0]) {
      assert r[j] == cycle[if j + i < |cycle| then j + i else j + i - |cycle|];
    }
    LedByLeastIsCanonical(r);
  }

  /** All rotations of a cycle have one canonical form exactly when the places of its least id agree. */
  lemma OneFormForAllRotations(cycle: seq<string>)
    ensures OneForm(cycle) <==> LeastPlacesAgree(cycle)
  {
    hide Utf16Less, Rotate, CanonicalRotation, IsLeast;
    if LeastPlacesAgree(cycle) {
      forall k | 0 <= k < |cycle| ensures CanonicalRotation(Rotate(cycle, k)) == CanonicalRotation(cycle) {
        var i := CanonicalOfRotation(cycle, k);
        var j := CanonicalOfRotation(cycle, 0);
        RotateByNothing(cycle);
      }
    }
    if OneForm(cycle) {
      forall i | 0 <= i < |cycle| && IsLeast(cycle, i) ensures Rotate(cycle, i) == CanonicalRotation(cycle) {
        LeastPlaceIsCanonical(cycle, i);
      }
    }
  }

  lemma RotateByNothing(cycle: seq<string>)
    ensures Rotate(cycle, 0) == cycle
  {
  }

  /** So it is for every cycle of distinct ids. */
  lemma DistinctIdsHaveOneForm(cycle: seq<string>)
    requires forall i, j | 0 <= i < j < |cycle| :: cycle[i] != cycle[j]
    ensures OneForm(cycle)
  {
    forall i, j | 0 <= i < |cycle| && 0 <= j < |cycle| && IsLeast(cycle, i) && IsLeast(cycle, j) ensures i == j {
      Utf16OrderIsTotal(cycle[i], cycle[j]);
    }
    OneFormForAllRotations(cycle);
  }
}
