/**
 The derived-quantity pass the SCALE backend runs once, after scanning
 (`fix_xs`).  For every bundle and every energy group `ii < G`:

 - REMXS[ii] gains the out-scatter of group ii: the sum of row ii of the
   G x G row-major GTRANSFXS matrix, minus that row's diagonal entry;
 - a nonzero FISSE[ii] is divided by FISSXS[ii] (energy per fission).

 numpy sums and divisions are modelled as exact `real` arithmetic.
 */
module DerivedQuantities {
  import opened Results
  import opened Text
  import opened XsLibrary

  function Sum(s: seq<real>): real {
    if s == [] then 0.0 else s[0] + Sum(s[1..])
  }

  lemma {:induction false} SumConcat(a: seq<real>, b: seq<real>)
    ensures Sum(a + b) == Sum(a) + Sum(b)
  {
    if a == [] {
      assert a + b == b;
    } else {
      assert (a + b)[1..] == a[1..] + b;
      SumConcat(a[1..], b);
    }
  }

  /** The list without its entry at `i`. */
  function RemoveAt(s: seq<real>, i: nat): (r: seq<real>)
    requires i < |s|
    ensures |r| == |s| - 1
  {
    s[..i] + s[i + 1..]
  }

  /** Row `ii` of the G x G row-major matrix `gt` lies inside the list. */
  predicate RowFits(gt: seq<real>, G: int, ii: int) {
    0 <= ii < G && ii * G + G <= |gt|
  }

  /** Every row of the G x G matrix lies inside the list. */
  predicate RowsComplete(gt: seq<real>, G: int) {
    forall jj :: 0 <= jj < G ==> RowFits(gt, G, jj)
  }

  /** Out-scatter of group `ii`: the entries of row `ii` other than its
      diagonal, summed.  This is the reference the pass is proved against. */
  function OffDiagonal(gt: seq<real>, G: int, ii: int): real
    requires RowFits(gt, G, ii)
  {
    Sum(RemoveAt(gt[ii * G..ii * G + G], ii))
  }

  /** Everything the pass reads for group `jj` exists, and the FISSXS divisor
      is nonzero wherever FISSE is: exactly when group `jj` raises nothing. */
  predicate GroupDefined(b: Bundle, G: int, jj: int) {
    && 0 <= jj < G
    && REMXS in b && jj < |b[REMXS]|
    && GTRANSFXS in b && jj * G + jj < |b[GTRANSFXS]|
    && FISSE in b && jj < |b[FISSE]|
    && (b[FISSE][jj] != 0.0 ==> FISSXS in b && jj < |b[FISSXS]| && b[FISSXS][jj] != 0.0)
  }

  predicate FixDefinedFrom(b: Bundle, G: int, ii: nat) {
    forall jj :: ii <= jj < G ==> GroupDefined(b, G, jj)
  }

  predicate FixDefined(b: Bundle, G: int) {
    FixDefinedFrom(b, G, 0)
  }

  /** The removal increment exactly as the source computes it: row `ii` of
      the flattened transfer matrix, taken with slice clamping, summed, minus
      the diagonal entry. */
  function RowRemoval(b: Bundle, G: int, ii: int): real
    requires GroupDefined(b, G, ii)
  {
    var gt := b[GTRANSFXS];
    Sum(PySlice(gt, ii * G, ii * G + G)) - gt[ii * G + ii]
  }

  /** The new FISSE entry of group `ii`. */
  function EnergyPerFission(b: Bundle, G: int, ii: int): real
    requires GroupDefined(b, G, ii)
  {
    if b[FISSE][ii] != 0.0 then b[FISSE][ii] / b[FISSXS][ii] else b[FISSE][ii]
  }

  /** One iteration of the group loop, on group `ii`. */
  function FixGroup(b: Bundle, G: int, ii: int): (r: Result<Bundle>)
    requires 0 <= ii < G
    ensures r.Ok? <==> GroupDefined(b, G, ii)
    ensures r.Err? ==> r.error in {ShortList, UnknownQuantity, NonFiniteEnergy}
    ensures r.Ok? ==> r.value.Keys == b.Keys
    ensures r.Ok? ==> forall q :: q in b && q != REMXS && q != FISSE ==> r.value[q] == b[q]
    ensures r.Ok? ==> r.value[REMXS] == b[REMXS][ii := b[REMXS][ii] + RowRemoval(b, G, ii)]
    ensures r.Ok? ==> r.value[FISSE] == b[FISSE][ii := EnergyPerFission(b, G, ii)]
  {
    if REMXS !in b then Err(UnknownQuantity)
    else if ii >= |b[REMXS]| then Err(ShortList)
    else if GTRANSFXS !in b then Err(UnknownQuantity)
    else
      var gt := b[GTRANSFXS];
      var start := ii * G;
      if start + ii >= |gt| then Err(ShortList)
      else
        var rem := b[REMXS];
        var b1 := b[REMXS := rem[ii := rem[ii] + (Sum(PySlice(gt, start, start + G)) - gt[start + ii])]];
        if FISSE !in b1 then Err(UnknownQuantity)
        else if ii >= |b1[FISSE]| then Err(ShortList)
        else if b1[FISSE][ii] == 0.0 then Ok(b1)
        else if FISSXS !in b1 then Err(UnknownQuantity)
        else if ii >= |b1[FISSXS]| then Err(ShortList)
        else if b1[FISSXS][ii] == 0.0 then Err(NonFiniteEnergy)
        else
          var fe := b1[FISSE];
          Ok(b1[FISSE := fe[ii := fe[ii] / b1[FISSXS][ii]]])
  }

  /** The group loop from group `ii` to `G - 1`. */
  function FixFrom(b: Bundle, G: int, ii: nat): (r: Result<Bundle>)
    ensures r.Ok? <==> FixDefinedFrom(b, G, ii)
    ensures r.Err? ==> r.error in {ShortList, UnknownQuantity, NonFiniteEnergy}
    ensures r.Ok? ==> r.value.Keys == b.Keys
    ensures r.Ok? ==> forall q :: q in b && q != REMXS && q != FISSE ==> r.value[q] == b[q]
    ensures r.Ok? && ii >= G ==> r.value == b
    decreases G - ii
  {
    if ii >= G then Ok(b)
    else
      match FixGroup(b, G, ii)
      case Err(e) => Err(e)
      case Ok(b1) =>
        assert forall jj :: ii < jj < G ==> (GroupDefined(b1, G, jj) <==> GroupDefined(b, G, jj));
        FixFrom(b1, G, ii + 1)
  }

  /** Running group `ii` leaves what every later group reads untouched. */
  lemma FixGroupKeepsLater(b: Bundle, G: int, ii: int, jj: int)
    requires 0 <= ii < jj < G && FixGroup(b, G, ii).Ok?
    ensures var b1 := FixGroup(b, G, ii).value;
      && (GroupDefined(b1, G, jj) <==> GroupDefined(b, G, jj))
      && (GroupDefined(b, G, jj) ==>
            && RowRemoval(b1, G, jj) == RowRemoval(b, G, jj)
            && EnergyPerFission(b1, G, jj) == EnergyPerFission(b, G, jj))
  {
  }

  /** From group `ii` on, REMXS of each group gains that group's row
      removal; earlier groups and entries past `G` keep their values. */
  lemma {:induction false} FixFromRemovalAt(b: Bundle, G: int, ii: nat, jj: int)
    requires FixFrom(b, G, ii).Ok? && ii < G
    ensures GroupDefined(b, G, ii)
    ensures |FixFrom(b, G, ii).value[REMXS]| == |b[REMXS]|
    ensures 0 <= jj < |b[REMXS]| ==>
      FixFrom(b, G, ii).value[REMXS][jj]
        == (if ii <= jj < G then b[REMXS][jj] + RowRemoval(b, G, jj) else b[REMXS][jj])
    decreases G - ii
  {
    assert REMXS[0] != FISSE[0];
    var b1 := FixGroup(b, G, ii).value;
    assert FixFrom(b, G, ii) == FixFrom(b1, G, ii + 1);
    if ii + 1 < G {
      FixFromRemovalAt(b1, G, ii + 1, jj);
      if ii < jj < G {
        FixGroupKeepsLater(b, G, ii, jj);
      }
    }
  }

  /** From group `ii` on, FISSE of each group becomes its energy per
      fission; earlier groups and entries past `G` keep their values. */
  lemma {:induction false} FixFromEnergyAt(b: Bundle, G: int, ii: nat, jj: int)
    requires FixFrom(b, G, ii).Ok? && ii < G
    ensures GroupDefined(b, G, ii)
    ensures |FixFrom(b, G, ii).value[FISSE]| == |b[FISSE]|
    ensures 0 <= jj < |b[FISSE]| ==>
      FixFrom(b, G, ii).value[FISSE][jj]
        == (if ii <= jj < G then EnergyPerFission(b, G, jj) else b[FISSE][jj])
    decreases G - ii
  {
    assert REMXS[0] != FISSE[0];
    var b1 := FixGroup(b, G, ii).value;
    assert FixFrom(b, G, ii) == FixFrom(b1, G, ii + 1);
    if ii + 1 < G {
      FixFromEnergyAt(b1, G, ii + 1, jj);
      if ii < jj < G {
        FixGroupKeepsLater(b, G, ii, jj);
      }
    }
  }

  /** The whole group loop, on every entry of REMXS and FISSE. */
  lemma FixFromValues(b: Bundle, G: int)
    requires FixFrom(b, G, 0).Ok? && 0 < G
    ensures GroupDefined(b, G, 0)
    ensures var r := FixFrom(b, G, 0).value;
      && |r[REMXS]| == |b[REMXS]| && |r[FISSE]| == |b[FISSE]|
      && (forall jj :: 0 <= jj < |b[REMXS]| ==>
            r[REMXS][jj] == (if jj < G then b[REMXS][jj] + RowRemoval(b, G, jj) else b[REMXS][jj]))
      && (forall jj :: 0 <= jj < |b[FISSE]| ==>
            r[FISSE][jj] == (if jj < G then EnergyPerFission(b, G, jj) else b[FISSE][jj]))
  {
    FixFromRemovalAt(b, G, 0, 0);
    FixFromEnergyAt(b, G, 0, 0);
    forall jj | 0 <= jj < |b[REMXS]|
      ensures FixFrom(b, G, 0).value[REMXS][jj]
        == (if jj < G then b[REMXS][jj] + RowRemoval(b, G, jj) else b[REMXS][jj])
    {
      FixFromRemovalAt(b, G, 0, jj);
    }
    forall jj | 0 <= jj < |b[FISSE]|
      ensures FixFrom(b, G, 0).value[FISSE][jj]
        == (if jj < G then EnergyPerFission(b, G, jj) else b[FISSE][jj])
    {
      FixFromEnergyAt(b, G, 0, jj);
    }
  }

  /** The bundle `b'` is `b` after the pass: REMXS of every group gains its
      out-scatter, every nonzero FISSE becomes energy per fission, and nothing
      else changes. */
  ghost predicate Corrected(b: Bundle, b': Bundle, G: int) {
    && b'.Keys == b.Keys
    && (forall q :: q in b && q != REMXS && q != FISSE ==> b'[q] == b[q])
    && (G <= 0 ==> b' == b)
    && (G > 0 ==>
         && FixDefined(b, G)
         && REMXS in b && FISSE in b && GTRANSFXS in b
         && RowsComplete(b[GTRANSFXS], G)
         && |b'[REMXS]| == |b[REMXS]| && G <= |b[REMXS]|
         && |b'[FISSE]| == |b[FISSE]| && G <= |b[FISSE]|
         && (forall jj :: 0 <= jj < |b[REMXS]| ==>
               b'[REMXS][jj] == (if jj < G then b[REMXS][jj] + OffDiagonal(b[GTRANSFXS], G, jj) else b[REMXS][jj]))
         && (forall jj :: 0 <= jj < |b[FISSE]| ==>
               b'[FISSE][jj] == (if jj < G && GroupDefined(b, G, jj) && b[FISSE][jj] != 0.0 then b[FISSE][jj] / b[FISSXS][jj] else b[FISSE][jj])))
  }

  lemma MulMonotone(a: int, c: int, G: int)
    requires 0 <= a <= c && 0 <= G
    ensures a * G <= c * G
  {
    assert c * G - a * G == (c - a) * G;
  }

  /** Taking one entry out of a list takes its value out of the sum. */
  lemma {:induction false} SumRemoveAt(row: seq<real>, i: nat)
    requires i < |row|
    ensures Sum(RemoveAt(row, i)) == Sum(row) - row[i]
  {
    var a, x, c := row[..i], row[i], row[i + 1..];
    assert row == a + ([x] + c);
    SumConcat(a, [x] + c);
    SumConcat([x], c);
    SumConcat(a, c);
    assert [x][1..] == [];
  }

  /** The row sum minus the diagonal is the off-diagonal sum. */
  lemma RemovalIsOffDiagonal(b: Bundle, G: int, jj: int)
    requires GroupDefined(b, G, jj)
    requires RowFits(b[GTRANSFXS], G, jj)
    ensures RowRemoval(b, G, jj) == OffDiagonal(b[GTRANSFXS], G, jj)
  {
    var gt := b[GTRANSFXS];
    var row := gt[jj * G..jj * G + G];
    assert PySlice(gt, jj * G, jj * G + G) == row;
    assert row[jj] == gt[jj * G + jj];
    SumRemoveAt(row, jj);
  }

  /** When every group is defined, the whole matrix is present. */
  lemma DefinedRowsComplete(b: Bundle, G: int)
    requires G > 0 && FixDefined(b, G)
    ensures GTRANSFXS in b
    ensures RowsComplete(b[GTRANSFXS], G)
  {
    assert GroupDefined(b, G, G - 1);
    forall jj | 0 <= jj < G
      ensures RowFits(b[GTRANSFXS], G, jj)
    {
      MulMonotone(jj, G - 1, G);
    }
  }

  /** `fix_xs` on one bundle with `G` energy groups. */
  function FixBundle(b: Bundle, G: int): (r: Result<Bundle>)
    ensures r.Ok? <==> FixDefined(b, G)
    ensures r.Err? ==> r.error in {ShortList, UnknownQuantity, NonFiniteEnergy}
    ensures r.Ok? ==> Corrected(b, r.value, G)
  {
    var r := FixFrom(b, G, 0);
    if r.Ok? && G > 0 then
      FixFromValues(b, G);
      assert GroupDefined(b, G, 0);
      DefinedRowsComplete(b, G);
      assert forall jj :: 0 <= jj < G ==> RowRemoval(b, G, jj) == OffDiagonal(b[GTRANSFXS], G, jj) by {
        forall jj | 0 <= jj < G
          ensures RowRemoval(b, G, jj) == OffDiagonal(b[GTRANSFXS], G, jj)
        {
          assert GroupDefined(b, G, jj);
          RemovalIsOffDiagonal(b, G, jj);
        }
      }
      assert GroupDefined(b, G, G - 1);
      r
    else r
  }

  /** `fix_xs` over a whole library.  When several bundles fail, the error
      reported is one of theirs. */
  function FixXs(lib: Library, G: int): (r: Result<Library>)
    ensures r.Ok? <==> forall key :: key in lib ==> FixDefined(lib[key], G)
    ensures r.Ok? ==> r.value.Keys == lib.Keys
    ensures r.Ok? ==> forall key :: key in lib ==> Corrected(lib[key], r.value[key], G)
    ensures r.Err? ==> exists key :: key in lib && FixBundle(lib[key], G) == Err(r.error)
  {
    if forall key :: key in lib ==> FixBundle(lib[key], G).Ok? then
      Ok(map key | key in lib :: FixBundle(lib[key], G).value)
    else if exists key :: key in lib && FixBundle(lib[key], G) == Err(ShortList) then Err(ShortList)
    else if exists key :: key in lib && FixBundle(lib[key], G) == Err(UnknownQuantity) then Err(UnknownQuantity)
    else Err(NonFiniteEnergy)
  }

  /** The pass is meant to run once: on any group with nonzero out-scatter, a
      second run changes REMXS again. */
  lemma SecondPassChangesRemoval(b: Bundle, G: int, jj: int)
    requires FixBundle(b, G).Ok?
    requires GTRANSFXS in b && RowFits(b[GTRANSFXS], G, jj)
    requires OffDiagonal(b[GTRANSFXS], G, jj) != 0.0
    ensures FixBundle(FixBundle(b, G).value, G).Ok?
    ensures FixBundle(FixBundle(b, G).value, G).value[REMXS][jj] != FixBundle(b, G).value[REMXS][jj]
  {
    var b1 := FixBundle(b, G).value;
    forall kk | 0 <= kk < G
      ensures GroupDefined(b1, G, kk)
    {
      assert GroupDefined(b, G, kk);
    }
    var b2 := FixBundle(b1, G).value;
    assert b1[GTRANSFXS] == b[GTRANSFXS];
    assert b2[REMXS][jj] == b1[REMXS][jj] + OffDiagonal(b1[GTRANSFXS], G, jj);
  }

  /** A two-group bundle: REMXS gains the off-diagonal transfer of each row,
      FISSE = [10, 0] over FISSXS = [2, 0] becomes [5, 0]. */
  lemma TwoGroupExample()
    ensures var b := map[REMXS := [0.0, 0.0], GTRANSFXS := [0.1, 0.05, 0.02, 0.3],
                         FISSE := [10.0, 0.0], FISSXS := [2.0, 0.0]];
            && FixBundle(b, 2).Ok?
            && FixBundle(b, 2).value[REMXS] == [0.05, 0.02]
            && FixBundle(b, 2).value[FISSE] == [5.0, 0.0]
  {
    var b := map[REMXS := [0.0, 0.0], GTRANSFXS := [0.1, 0.05, 0.02, 0.3],
                 FISSE := [10.0, 0.0], FISSXS := [2.0, 0.0]];
    assert GroupDefined(b, 2, 0);
    assert GroupDefined(b, 2, 1);
    var b1 := FixBundle(b, 2).value;
    var gt := b[GTRANSFXS];
    assert RemoveAt(gt[0..2], 0) == [0.05];
    assert RemoveAt(gt[2..4], 1) == [0.02];
    assert b1[REMXS][0] == 0.05;
    assert b1[REMXS][1] == 0.02;
  }
}
