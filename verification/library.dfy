/**
 The hierarchical cross-section library every backend produces:
 burnup step -> universe -> temperature branch -> quantity -> values.

 The Python nests dictionaries keyed by integers; a lookup with a key that was
 never created (negative, or past a declared dimension) raises KeyError.  The
 model flattens the three integer levels into one key triple, which fails on
 exactly the same lookups.
 */
module XsLibrary {
  import opened Results

  /** Per quantity, the values (one per energy group, delayed group, or
      group-to-group pair for GTRANSFXS). */
  type Bundle = map<string, seq<real>>

  /** (burnup index, universe index, temperature-branch index), all 0-based. */
  type Key = (int, int, int)

  type Library = map<Key, Bundle>

  const REMXS := "REMXS"
  const FISSXS := "FISSXS"
  const NSF := "NSF"
  const FISSE := "FISSE"
  const DIFFCOEF := "DIFFCOEF"
  const RECIPVEL := "RECIPVEL"
  const CHI_T := "CHI_T"
  const BETA_EFF := "BETA_EFF"
  const DECAY_CONSTANT := "DECAY_CONSTANT"
  const CHI_P := "CHI_P"
  const CHI_D := "CHI_D"
  const GTRANSFXS := "GTRANSFXS"

  /** The twelve quantities every SCALE bundle starts with, in the order the
      converter lists them. */
  const QuantityNames: seq<string> :=
    [REMXS, FISSXS, NSF, FISSE, DIFFCOEF, RECIPVEL, CHI_T, BETA_EFF,
     DECAY_CONSTANT, CHI_P, CHI_D, GTRANSFXS]

  /** The dimensions declared by a file header.  They are plain integers: a
      negative dimension simply declares no bundles. */
  datatype Dims = Dims(numBurn: int, numTemps: int, numUni: int, numGroups: int)

  predicate InBox(key: Key, numBurn: int, numUni: int, numTemps: int) {
    0 <= key.0 < numBurn && 0 <= key.1 < numUni && 0 <= key.2 < numTemps
  }

  function BoxKeys(numBurn: int, numUni: int, numTemps: int): (ks: set<Key>)
    ensures forall key :: key in ks <==> InBox(key, numBurn, numUni, numTemps)
  {
    set i, j, t | 0 <= i < numBurn && 0 <= j < numUni && 0 <= t < numTemps :: (i, j, t)
  }

  function EmptyBundle(): (b: Bundle)
    ensures b.Keys == set q | q in QuantityNames
    ensures forall q :: q in b ==> b[q] == []
  {
    map q | q in QuantityNames :: []
  }

  /** The library right after the header is read: one bundle per
      (burnup, universe, branch) inside the declared dimensions, each binding
      all twelve quantity names to empty lists, and nothing else. */
  function InitLibrary(d: Dims): (lib: Library)
    ensures forall key :: key in lib <==> InBox(key, d.numBurn, d.numUni, d.numTemps)
    ensures forall key :: key in lib ==> lib[key] == EmptyBundle()
  {
    map key | key in BoxKeys(d.numBurn, d.numUni, d.numTemps) :: EmptyBundle()
  }

  /** Appending `vs` to the list of quantity `name` in bundle `key`: fails when the bundle or the quantity
      does not exist; otherwise only that one list changes, and it gains `vs`
      at its end. */
  function Extend(lib: Library, key: Key, name: string, vs: seq<real>): (r: Result<Library>)
    ensures r.Ok? <==> key in lib && name in lib[key]
    ensures r.Err? ==> r.error == (if key in lib then UnknownQuantity else UnknownBundle)
    ensures r.Ok? ==> r.value.Keys == lib.Keys
    ensures r.Ok? ==> r.value[key].Keys == lib[key].Keys
    ensures r.Ok? ==> r.value[key][name] == lib[key][name] + vs
    ensures r.Ok? ==> forall k :: k in lib && k != key ==> r.value[k] == lib[k]
    ensures r.Ok? ==> forall q :: q in lib[key] && q != name ==> r.value[key][q] == lib[key][q]
  {
    if key !in lib then Err(UnknownBundle)
    else if name !in lib[key] then Err(UnknownQuantity)
    else
      var b := lib[key];
      Ok(lib[key := b[name := b[name] + vs]])
  }

  /** `lib2` has the same bundles and quantity names as `lib1`, and every list
      of `lib1` is a prefix of the corresponding list of `lib2`: lists only
      ever grow at their end. */
  ghost predicate Grows(lib1: Library, lib2: Library) {
    && lib1.Keys == lib2.Keys
    && (forall key :: key in lib1 ==> lib1[key].Keys == lib2[key].Keys)
    && (forall key, q :: key in lib1 && q in lib1[key] ==> lib1[key][q] <= lib2[key][q])
  }

  lemma GrowsReflexive(lib: Library)
    ensures Grows(lib, lib)
  {
  }

  lemma GrowsTransitive(a: Library, b: Library, c: Library)
    requires Grows(a, b) && Grows(b, c)
    ensures Grows(a, c)
  {
    forall key, q | key in a && q in a[key]
      ensures a[key][q] <= c[key][q]
    {
      assert a[key][q] <= b[key][q];
      assert b[key][q] <= c[key][q];
    }
  }

  lemma ExtendGrows(lib: Library, key: Key, name: string, vs: seq<real>)
    requires Extend(lib, key, name, vs).Ok?
    ensures Grows(lib, Extend(lib, key, name, vs).value)
  {
    var r := Extend(lib, key, name, vs).value;
    forall k, q | k in lib && q in lib[k]
      ensures lib[k][q] <= r[k][q]
    {
      if k == key && q == name {
        assert r[k][q] == lib[k][q] + vs;
      }
    }
  }
}
