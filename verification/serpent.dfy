/**
 The Serpent backend: re-indexing a parsed Serpent results table into the
 library.

 Serpent writes one row per (burnup, universe, branch) case, and every
 homogenised quantity is stored with its relative uncertainty interleaved
 after each value.  The converter keeps every other entry (the values) and
 places row `i*nu + k*(nb*nu) + j` at bundle `(i, j, k)`.

 Parsing the results file itself belongs to an external reader; the model
 takes its output as a `SerpentData` value.
 */
module Serpent {
  import opened Results
  import opened XsLibrary

  /** What the external reader supplies: the number of burnup points (the
      distinct entries of the first BURNUP row, or 1 when the file has no
      BURNUP array), the universe name of every row, and the named arrays,
      each a list of rows. */
  datatype SerpentData = SerpentData(
    numBurn: nat,
    universeNames: seq<string>,
    arrays: map<string, seq<seq<real>>>)

  /** A library quantity, the Serpent array it comes from, and the position
      of its first value inside a row. */
  datatype Source = Source(quantity: string, arrayName: string, start: nat)

  /** The twelve quantities in the order the converter fills them.  The
      delayed-neutron arrays carry a leading total (value and uncertainty),
      so their values start at position 2. */
  const Sources: seq<Source> := [
    Source(REMXS, "INF_REMXS", 0),
    Source(FISSXS, "INF_FISS", 0),
    Source(NSF, "INF_NSF", 0),
    Source(FISSE, "INF_KAPPA", 0),
    Source(DIFFCOEF, "INF_DIFFCOEF", 0),
    Source(RECIPVEL, "INF_INVV", 0),
    Source(CHI_T, "INF_CHIT", 0),
    Source(CHI_P, "INF_CHIP", 0),
    Source(CHI_D, "INF_CHID", 0),
    Source(BETA_EFF, "BETA_EFF", 2),
    Source(DECAY_CONSTANT, "LAMBDA", 2),
    Source(GTRANSFXS, "INF_SP0", 0)
  ]

  /** The library quantities the Serpent backend fills are exactly the twelve
      the SCALE backend starts from, each filled once. */
  lemma SourcesCoverQuantities()
    ensures (set s | s in Sources :: s.quantity) == set q | q in QuantityNames
    ensures forall a, b :: 0 <= a < b < |Sources| ==> Sources[a].quantity != Sources[b].quantity
  {
    SourcesQuantitySet();
    SourcesQuantitiesDistinct();
  }

  lemma SourcesQuantitySet()
    ensures (set s | s in Sources :: s.quantity) == set q | q in QuantityNames
  {
    var fromSources := set s | s in Sources :: s.quantity;
    var names := set q | q in QuantityNames;
    SourcesWithinNames();
    NamesWithinSources();
    forall q | q in fromSources
      ensures q in names
    {
      var s :| s in Sources && s.quantity == q;
      var i :| 0 <= i < |Sources| && Sources[i] == s;
    }
    forall q | q in names
      ensures q in fromSources
    {
      var j :| 0 <= j < |QuantityNames| && QuantityNames[j] == q;
    }
    assert fromSources == names;
  }

  lemma SourcesWithinNames()
    ensures forall i :: 0 <= i < |Sources| ==> Sources[i].quantity in QuantityNames
  {
    forall i | 0 <= i < |Sources|
      ensures Sources[i].quantity in QuantityNames
    {
      var j := [0, 1, 2, 3, 4, 5, 6, 9, 10, 7, 8, 11][i];
      assert QuantityNames[j] == Sources[i].quantity;
    }
  }

  lemma NamesWithinSources()
    ensures forall j :: 0 <= j < |QuantityNames| ==> QuantityNames[j] in (set s | s in Sources :: s.quantity)
  {
    forall j | 0 <= j < |QuantityNames|
      ensures QuantityNames[j] in (set s | s in Sources :: s.quantity)
    {
      var i := [0, 1, 2, 3, 4, 5, 6, 9, 10, 7, 8, 11][j];
      assert Sources[i].quantity == QuantityNames[j];
      assert Sources[i] in Sources;
    }
  }

  lemma SourcesQuantitiesDistinct()
    ensures forall a, b :: 0 <= a < b < |Sources| ==> Sources[a].quantity != Sources[b].quantity
  {
  }

  /** The number of distinct universe names. */
  function NumUniverses(names: seq<string>): (n: nat)
    ensures n == 0 <==> names == []
    ensures n <= |names|
  {
    var s := set x | x in names;
    if names == [] then 0
    else
      assert names[0] in s;
      CardinalityOfElements(names);
      |s|
  }

  lemma {:induction false} CardinalityOfElements(names: seq<string>)
    ensures |set x | x in names| <= |names|
  {
    if names != [] {
      CardinalityOfElements(names[1..]);
      assert (set x | x in names) == (set x | x in names[1..]) + {names[0]};
    }
  }

  /** The row of bundle `key` in every Serpent array. */
  function SerpentIndex(key: Key, nb: nat, nu: nat): int {
    key.0 * nu + key.2 * (nb * nu) + key.1
  }

  lemma MulBound(a: int, b: int, c: int)
    requires 0 <= a < b && 0 <= c
    ensures a * c <= (b - 1) * c
  {
  }

  /** Every bundle of the `nb x nu x nt` box reads a row below `nb*nu*nt`. */
  lemma SerpentIndexInRange(key: Key, nb: nat, nu: nat, nt: nat)
    requires InBox(key, nb, nu, nt)
    ensures 0 <= SerpentIndex(key, nb, nu) < nb * nu * nt
  {
    var plane := nb * nu;
    MulBound(key.0, nb, nu);
    assert (nb - 1) * nu + nu == plane;
    MulBound(key.2, nt, plane);
    assert (nt - 1) * plane + plane == plane * nt;
  }

  lemma MulGap(lo: int, hi: int, d: int)
    requires lo < hi && d >= 0
    ensures hi * d - lo * d >= d
  {
    var k := hi - lo;
    assert hi * d == lo * d + k * d;
    assert k * d == (k - 1) * d + d;
    assert (k - 1) * d >= 0;
  }

  /** Division with remainder is unique. */
  lemma DivModUnique(q1: int, r1: int, q2: int, r2: int, d: int)
    requires 0 <= r1 < d && 0 <= r2 < d
    requires q1 * d + r1 == q2 * d + r2
    ensures q1 == q2 && r1 == r2
  {
    if q1 < q2 {
      MulGap(q1, q2, d);
    } else if q2 < q1 {
      MulGap(q2, q1, d);
    }
  }

  /** Distinct bundles read distinct rows, so no row is shared. */
  lemma SerpentIndexInjective(a: Key, b: Key, nb: nat, nu: nat, nt: nat)
    requires InBox(a, nb, nu, nt) && InBox(b, nb, nu, nt)
    requires SerpentIndex(a, nb, nu) == SerpentIndex(b, nb, nu)
    ensures a == b
  {
    MulBound(a.0, nb, nu);
    MulBound(b.0, nb, nu);
    DivModUnique(a.2, a.0 * nu + a.1, b.2, b.0 * nu + b.1, nb * nu);
    DivModUnique(a.0, a.1, b.0, b.1, nu);
  }

  /** The last bundle of the box reads the last row `nb*nu*nt - 1`. */
  lemma SerpentIndexOfLast(nb: nat, nu: nat, nt: nat)
    requires nb > 0 && nu > 0 && nt > 0
    ensures InBox((nb - 1, nu - 1, nt - 1), nb, nu, nt)
    ensures SerpentIndex((nb - 1, nu - 1, nt - 1), nb, nu) == nb * nu * nt - 1
  {
    assert (nt - 1) * (nb * nu) == nb * nu * nt - nb * nu;
    assert (nb - 1) * nu == nb * nu - nu;
  }

  /** Every other entry of a row, from position `start` on. */
  function Stride(row: seq<real>, start: nat): (r: seq<real>)
    ensures |r| == if start < |row| then (|row| - start + 1) / 2 else 0
    ensures forall t :: 0 <= t < |r| ==> start + 2 * t < |row| && r[t] == row[start + 2 * t]
    decreases |row| - start
  {
    if start >= |row| then []
    else [row[start]] + Stride(row, start + 2)
  }

  /** The strided values of one row of one named array: a missing array is a
      KeyError, a row past the end an IndexError. */
  function Lookup(data: SerpentData, src: Source, index: int): (r: Result<seq<real>>)
    ensures r.Ok? <==> src.arrayName in data.arrays && 0 <= index < |data.arrays[src.arrayName]|
    ensures r.Ok? ==> r.value == Stride(data.arrays[src.arrayName][index], src.start)
    ensures r.Err? ==> r.error == (if src.arrayName in data.arrays then MissingRow else MissingArray)
  {
    if src.arrayName !in data.arrays then Err(MissingArray)
    else if index < 0 || index >= |data.arrays[src.arrayName]| then Err(MissingRow)
    else Ok(Stride(data.arrays[src.arrayName][index], src.start))
  }

  /** Every quantity of `srcs` can be read from row `index`. */
  ghost predicate RowAvailable(data: SerpentData, srcs: seq<Source>, index: int) {
    forall s :: s in srcs ==> s.arrayName in data.arrays && 0 <= index < |data.arrays[s.arrayName]|
  }

  /** The bundle read from row `index`, quantity by quantity in order. */
  function BuildBundle(data: SerpentData, srcs: seq<Source>, index: int): (r: Result<Bundle>)
    ensures r.Ok? <==> RowAvailable(data, srcs, index)
    ensures r.Err? ==> r.error == MissingArray || r.error == MissingRow
    ensures r.Ok? ==> r.value.Keys == set s | s in srcs :: s.quantity
    ensures r.Ok? && (forall a, b :: 0 <= a < b < |srcs| ==> srcs[a].quantity != srcs[b].quantity) ==>
      forall s :: s in srcs ==> r.value[s.quantity] == Stride(data.arrays[s.arrayName][index], s.start)
  {
    if srcs == [] then Ok(map[])
    else
      var v :- Lookup(data, srcs[0], index);
      var rest :- BuildBundle(data, srcs[1..], index);
      Ok(rest[srcs[0].quantity := v])
  }

  /** The bundles of burnup `i`, universe `j`, in branch order from `k`. */
  function BranchRange(i: int, j: int, k: int, nt: int): (ks: seq<Key>)
    ensures forall key :: key in ks <==> key.0 == i && key.1 == j && k <= key.2 < nt
    decreases nt - k
  {
    if k >= nt then [] else [(i, j, k)] + BranchRange(i, j, k + 1, nt)
  }

  /** The bundles of burnup `i`, in universe order from `j`. */
  function UniverseRange(i: int, j: int, nu: int, nt: int): (ks: seq<Key>)
    ensures forall key :: key in ks <==> key.0 == i && j <= key.1 < nu && 0 <= key.2 < nt
    decreases nu - j
  {
    if j >= nu then [] else BranchRange(i, j, 0, nt) + UniverseRange(i, j + 1, nu, nt)
  }

  /** The bundles of the box in the converter's loop order (burnup, then
      universe, then branch), from burnup `i` on. */
  function LoopOrder(i: int, nb: int, nu: int, nt: int): (ks: seq<Key>)
    ensures forall key :: key in ks <==> i <= key.0 < nb && 0 <= key.1 < nu && 0 <= key.2 < nt
    decreases nb - i
  {
    if i >= nb then [] else UniverseRange(i, 0, nu, nt) + LoopOrder(i + 1, nb, nu, nt)
  }

  /** Builds the bundles of `keys` in order; the first unreadable row aborts. */
  function BuildAll(data: SerpentData, keys: seq<Key>, nb: nat, nu: nat): (r: Result<Library>)
    ensures r.Ok? <==> forall key :: key in keys ==> RowAvailable(data, Sources, SerpentIndex(key, nb, nu))
    ensures r.Err? ==> r.error == MissingArray || r.error == MissingRow
    ensures r.Ok? ==> r.value.Keys == set key | key in keys
    ensures r.Ok? ==> forall key :: key in keys ==>
      r.value[key] == BuildBundle(data, Sources, SerpentIndex(key, nb, nu)).value
  {
    if keys == [] then Ok(map[])
    else
      var b :- BuildBundle(data, Sources, SerpentIndex(keys[0], nb, nu));
      var rest :- BuildAll(data, keys[1..], nb, nu);
      Ok(rest[keys[0] := b])
  }

  /** The branch count implied by the table: the number of rows divided by
      the number of (burnup, universe) pairs, rounded down, so the box never
      asks for a row past the table and leaves fewer than one full branch of
      rows unused. */
  function NumBranches(data: SerpentData): (nt: nat)
    requires data.numBurn * NumUniverses(data.universeNames) > 0
    ensures var per := data.numBurn * NumUniverses(data.universeNames);
      nt * per <= |data.universeNames| < (nt + 1) * per
  {
    |data.universeNames| / (data.numBurn * NumUniverses(data.universeNames))
  }

  /** `serpent_xs(...).xs_lib`.  With no burnup point or no universe the
      branch count divides by zero.  Otherwise the library holds exactly the
      bundles of the `nb x nu x nt` box, each read from its own row. */
  function SerpentXs(data: SerpentData): (r: Result<Library>)
    ensures r == Err(NoUniverses) <==> data.numBurn == 0 || data.universeNames == []
    ensures r.Ok? ==> data.numBurn * NumUniverses(data.universeNames) > 0
    ensures r.Ok? ==> forall key :: key in r.value <==>
      InBox(key, data.numBurn, NumUniverses(data.universeNames), NumBranches(data))
  {
    var nb := data.numBurn;
    var nu := NumUniverses(data.universeNames);
    if nb * nu == 0 then Err(NoUniverses)
    else BuildAll(data, LoopOrder(0, nb, nu, NumBranches(data)), nb, nu)
  }

  /** Each quantity of each bundle is every other entry (from the quantity's
      start position) of the bundle's own row of the quantity's array. */
  lemma SerpentXsValues(data: SerpentData, key: Key, s: Source)
    requires SerpentXs(data).Ok?
    requires key in SerpentXs(data).value && s in Sources
    ensures s.quantity in SerpentXs(data).value[key]
    ensures s.arrayName in data.arrays
    ensures 0 <= SerpentIndex(key, data.numBurn, NumUniverses(data.universeNames)) < |data.arrays[s.arrayName]|
    ensures SerpentXs(data).value[key][s.quantity]
      == Stride(data.arrays[s.arrayName][SerpentIndex(key, data.numBurn, NumUniverses(data.universeNames))], s.start)
  {
    var nb := data.numBurn;
    var nu := NumUniverses(data.universeNames);
    var keys := LoopOrder(0, nb, nu, NumBranches(data));
    assert key in keys;
    BuildBundleValue(data, SerpentIndex(key, nb, nu), s);
  }

  /** A quantity of a bundle read from row `index`. */
  lemma BuildBundleValue(data: SerpentData, index: int, s: Source)
    requires BuildBundle(data, Sources, index).Ok? && s in Sources
    ensures s.quantity in BuildBundle(data, Sources, index).value
    ensures s.arrayName in data.arrays && 0 <= index < |data.arrays[s.arrayName]|
    ensures BuildBundle(data, Sources, index).value[s.quantity]
      == Stride(data.arrays[s.arrayName][index], s.start)
  {
    SourcesQuantitiesDistinct();
  }

  /** Every bundle of a successful conversion holds exactly the twelve
      quantities. */
  lemma SerpentBundlesComplete(data: SerpentData)
    requires SerpentXs(data).Ok?
    ensures forall key :: key in SerpentXs(data).value ==>
      SerpentXs(data).value[key].Keys == set q | q in QuantityNames
  {
    SourcesCoverQuantities();
  }

  /** The conversion succeeds exactly when there is at least one burnup point
      and one universe and, unless the box is empty, every needed array is
      present with at least `nb*nu*nt` rows. */
  lemma SerpentXsSucceeds(data: SerpentData)
    ensures SerpentXs(data).Ok? <==>
      && data.numBurn * NumUniverses(data.universeNames) > 0
      && (NumBranches(data) > 0 ==> forall s :: s in Sources ==>
            && s.arrayName in data.arrays
            && |data.arrays[s.arrayName]| >= data.numBurn * NumUniverses(data.universeNames) * NumBranches(data))
  {
    var nb := data.numBurn;
    var nu := NumUniverses(data.universeNames);
    if nb * nu > 0 {
      var nt := NumBranches(data);
      var keys := LoopOrder(0, nb, nu, nt);
      if nt > 0 {
        if SerpentXs(data).Ok? {
          SerpentIndexOfLast(nb, nu, nt);
          var last := (nb - 1, nu - 1, nt - 1);
          assert last in keys;
          assert RowAvailable(data, Sources, SerpentIndex(last, nb, nu));
        } else {
          var key :| key in keys && !RowAvailable(data, Sources, SerpentIndex(key, nb, nu));
          SerpentIndexInRange(key, nb, nu, nt);
        }
      }
    }
  }
}
