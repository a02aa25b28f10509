/**
 The SCALE T16 backend (`scale_xs`): a single forward pass over the lines of
 a T16 file, driven by marker substrings, filling the library created from
 the header, followed by the derived-quantity pass.

 Scanner state: three cursors (burnup `L`, universe `m`, branch `n`), the
 append-only universe table, and the two pending Betas/Lambdas buffers.  A
 buffer that was never filled is `None` (the source's integer `0`).
 */
module ScaleScanner {
  import opened Results
  import opened Text
  import opened XsLibrary
  import opened DerivedQuantities

  /** Float conversion of one token (`float(tok)`), left abstract: `None`
      where Python raises ValueError. */
  type FloatParser = string -> Option<real>

  /** One catalogue entry (`t16_line`): the substring that triggers it, the
      column offsets read from the next line (single-line markers), whether
      it is a multi-line block, and the quantities it fills. */
  datatype Marker = Marker(key: string, columns: seq<nat>, multiLine: bool, entries: seq<string>)

  const BETAS := "Betas"
  const LAMBDAS := "Lambdas"
  const IDENTIFIER := "Identifier"
  const BRANCH_NO := "branch no."

  /** The catalogue, in the order the markers are tried on every line. */
  const Catalogue: seq<Marker> := [
    Marker(BETAS, [], true, [BETA_EFF]),
    Marker(LAMBDAS, [], true, [DECAY_CONSTANT]),
    Marker("total-transfer", [1], false, [REMXS]),
    Marker("fission", [0, 3, 4], false, [FISSXS, NSF, FISSE]),
    Marker("chi", [1, 1, 1, 2], false, [CHI_T, CHI_P, CHI_D, DIFFCOEF]),
    Marker("detector", [4], false, [RECIPVEL]),
    Marker("Scattering cross", [], true, [GTRANSFXS])
  ]

  predicate WellFormed(mk: Marker) {
    && |mk.entries| > 0
    && (!mk.multiLine ==> |mk.columns| == |mk.entries|)
    && Distinct(mk.entries)
  }

  lemma CatalogueWellFormed()
    ensures forall i :: 0 <= i < |Catalogue| ==> WellFormed(Catalogue[i])
  {
  }

  datatype Scanner = Scanner(
    lib: Library,
    universes: seq<int>,
    burn: int,
    uni: int,
    branch: int,
    betas: Option<seq<real>>,
    lambdas: Option<seq<real>>)

  /** The bundle the three cursors point at. */
  function Cursor(st: Scanner): Key {
    (st.burn, st.uni, st.branch)
  }

  // ---------------------------------------------------------------------------
  // Header
  // ---------------------------------------------------------------------------

  /** Dimensions from the first four tokens of line index 3:
      `num_burn`, `num_temps - 1`, `num_uni`, `num_groups`. */
  function ParseHeader(lines: seq<string>): (r: Result<Dims>)
    ensures r.Ok? <==>
      && |lines| > 3
      && |Tokens(lines[3])| >= 4
      && forall i :: 0 <= i < 4 ==> ParseInt(Tokens(lines[3])[i]).Some?
    ensures r.Ok? ==>
      var ts := Tokens(lines[3]);
      && ParseInt(ts[0]) == Some(r.value.numBurn)
      && ParseInt(ts[1]) == Some(r.value.numTemps - 1)
      && ParseInt(ts[2]) == Some(r.value.numUni)
      && ParseInt(ts[3]) == Some(r.value.numGroups)
  {
    if |lines| <= 3 then Err(MissingLine)
    else
      var ts := Tokens(lines[3]);
      if |ts| < 4 then Err(MissingToken)
      else
        var nb :- ParseIntOrFail(ts[0]);
        var nt :- ParseIntOrFail(ts[1]);
        var nu :- ParseIntOrFail(ts[2]);
        var ng :- ParseIntOrFail(ts[3]);
        Ok(Dims(nb, nt + 1, nu, ng))
  }

  lemma IntToStringIsWord(x: int)
    ensures IsWord(IntToString(x))
  {
    var s := IntToString(x);
    if x < 0 {
      assert forall i :: 1 <= i < |s| ==> s[i] == NatToString(-x)[i - 1];
    }
  }

  /** The four header fields as Python prints the dimensions. */
  function HeaderWords(d: Dims): (ws: seq<string>)
    ensures |ws| == 4 && forall i :: 0 <= i < 4 ==> IsWord(ws[i])
  {
    IntToStringIsWord(d.numBurn);
    IntToStringIsWord(d.numTemps - 1);
    IntToStringIsWord(d.numUni);
    IntToStringIsWord(d.numGroups);
    [IntToString(d.numBurn), IntToString(d.numTemps - 1), IntToString(d.numUni), IntToString(d.numGroups)]
  }

  /** A header line printed from declared dimensions reads back as those
      dimensions, the branch count being one less than `numTemps`, whatever
      whitespace surrounds and separates the fields and whatever words
      follow them. */
  lemma HeaderRoundTrip(lines: seq<string>, d: Dims, rest: seq<string>, gaps: seq<string>)
    requires forall i :: 0 <= i < |rest| ==> IsWord(rest[i])
    requires Spacing(HeaderWords(d) + rest, gaps)
    requires |lines| > 3 && lines[3] == Layout(HeaderWords(d) + rest, gaps)
    ensures ParseHeader(lines) == Ok(d)
  {
    var ws := HeaderWords(d) + rest;
    assert Tokens(lines[3]) == ws by {
      forall i | 0 <= i < |ws|
        ensures IsWord(ws[i])
      {
        if i >= 4 { assert ws[i] == rest[i - 4]; }
      }
      TokensOfLayout(ws, gaps);
    }
    assert ws[..4] == HeaderWords(d);
    HeaderFromWords(lines, d);
  }

  /** A header line whose first four tokens are the printed dimensions. */
  lemma HeaderFromWords(lines: seq<string>, d: Dims)
    requires |lines| > 3 && |Tokens(lines[3])| >= 4
    requires Tokens(lines[3])[..4] == HeaderWords(d)
    ensures ParseHeader(lines) == Ok(d)
  {
    var ts := Tokens(lines[3]);
    assert ts[0] == IntToString(d.numBurn) && ts[1] == IntToString(d.numTemps - 1);
    assert ts[2] == IntToString(d.numUni) && ts[3] == IntToString(d.numGroups);
    ParseIntOfIntToString(d.numBurn);
    ParseIntOfIntToString(d.numTemps - 1);
    ParseIntOfIntToString(d.numUni);
    ParseIntOfIntToString(d.numGroups);
    HeaderFromTokens(lines, d);
  }

  lemma HeaderFromTokens(lines: seq<string>, d: Dims)
    requires |lines| > 3 && |Tokens(lines[3])| >= 4
    requires ParseInt(Tokens(lines[3])[0]) == Some(d.numBurn)
    requires ParseInt(Tokens(lines[3])[1]) == Some(d.numTemps - 1)
    requires ParseInt(Tokens(lines[3])[2]) == Some(d.numUni)
    requires ParseInt(Tokens(lines[3])[3]) == Some(d.numGroups)
    ensures ParseHeader(lines) == Ok(d)
  {
  }

  /** The scanner state right after the header: every declared bundle empty,
      no universe seen, cursors at zero, no pending buffer. */
  function InitialScanner(d: Dims): (st: Scanner)
    ensures st.lib == InitLibrary(d)
    ensures st.universes == [] && st.betas.None? && st.lambdas.None?
    ensures Cursor(st) == (0, 0, 0)
  {
    Scanner(InitLibrary(d), [], 0, 0, 0, None, None)
  }

  // ---------------------------------------------------------------------------
  // Reading values
  // ---------------------------------------------------------------------------

  /** The whitespace-separated tokens of the line after line `k`. */
  function NextLineTokens(lines: seq<string>, k: nat): (r: Result<seq<string>>)
    ensures r.Ok? <==> k + 1 < |lines|
    ensures r.Ok? ==> r.value == Tokens(lines[k + 1])
    ensures r.Err? ==> r.error == MissingLine
  {
    if k + 1 < |lines| then Ok(Tokens(lines[k + 1])) else Err(MissingLine)
  }

  /** Every token converted to a float, as numpy converts a whole array at
      once, or `None` when one of them does not convert. */
  function ParseFloats(ts: seq<string>, parse: FloatParser): (r: Option<seq<real>>)
    ensures r.Some? <==> forall i :: 0 <= i < |ts| ==> parse(ts[i]).Some?
    ensures r.Some? ==> |r.value| == |ts|
    ensures r.Some? ==> forall i :: 0 <= i < |ts| ==> parse(ts[i]) == Some(r.value[i])
  {
    if ts == [] then Some([])
    else
      match parse(ts[0])
      case None => None
      case Some(v) =>
        match ParseFloats(ts[1..], parse)
        case None =>
          assert !(forall i :: 1 <= i < |ts| ==> parse(ts[i]).Some?) by {
            assert forall i :: 0 <= i < |ts| - 1 ==> ts[1..][i] == ts[i + 1];
          }
          None
        case Some(vs) => Some([v] + vs)
  }

  /** The values of the longest prefix of `ts` whose tokens all convert. */
  function FloatPrefix(ts: seq<string>, parse: FloatParser): (r: seq<real>)
    ensures |r| <= |ts|
    ensures forall i :: 0 <= i < |r| ==> parse(ts[i]) == Some(r[i])
    ensures |r| < |ts| ==> parse(ts[|r|]).None?
  {
    if ts == [] then []
    else
      match parse(ts[0])
      case None => []
      case Some(v) => [v] + FloatPrefix(ts[1..], parse)
  }

  /** The tokens of lines `j, j+1, ...` in reading order. */
  function TokenStream(lines: seq<string>, j: nat): seq<string>
    decreases |lines| - j
  {
    if j >= |lines| then [] else Tokens(lines[j]) + TokenStream(lines, j + 1)
  }

  /** `vs` is the run of floats at the front of `ts`, ended by a token that
      does not convert. */
  ghost predicate IsFloatRun(ts: seq<string>, vs: seq<real>, parse: FloatParser) {
    && |vs| < |ts|
    && (forall i :: 0 <= i < |vs| ==> parse(ts[i]) == Some(vs[i]))
    && parse(ts[|vs|]).None?
  }

  /** Some token of `ts` does not convert to a float. */
  ghost predicate HasStop(ts: seq<string>, parse: FloatParser) {
    exists i :: 0 <= i < |ts| && parse(ts[i]).None?
  }

  /** `get_multi_line_values`: starting at line `j`, collect floats token by
      token and line by line until the first token that is not a float.
      Running off the end of the file is an IndexError. */
  function ReadFloatRun(lines: seq<string>, j: nat, parse: FloatParser): (r: Result<seq<real>>)
    ensures r.Err? ==> r.error == UnterminatedValues
    decreases |lines| - j
  {
    if j >= |lines| then Err(UnterminatedValues)
    else
      var ts := Tokens(lines[j]);
      var p := FloatPrefix(ts, parse);
      if |p| < |ts| then Ok(p)
      else
        var rest :- ReadFloatRun(lines, j + 1, parse);
        Ok(p + rest)
  }

  /** A run that stops inside the first line's tokens. */
  lemma RunStopsInFirst(ts: seq<string>, rest: seq<string>, p: seq<real>, parse: FloatParser)
    requires |p| < |ts| && parse(ts[|p|]).None?
    requires forall i :: 0 <= i < |p| ==> parse(ts[i]) == Some(p[i])
    ensures IsFloatRun(ts + rest, p, parse)
    ensures HasStop(ts + rest, parse)
  {
    assert (ts + rest)[|p|] == ts[|p|];
    assert forall i :: 0 <= i < |p| ==> (ts + rest)[i] == ts[i];
  }

  /** A run that takes all of the first line's tokens and goes on with the
      run of the following tokens. */
  lemma RunContinues(ts: seq<string>, rest: seq<string>, p: seq<real>, vs: seq<real>, parse: FloatParser)
    requires |p| == |ts|
    requires forall i :: 0 <= i < |p| ==> parse(ts[i]) == Some(p[i])
    requires IsFloatRun(rest, vs, parse)
    ensures IsFloatRun(ts + rest, p + vs, parse)
    ensures HasStop(ts + rest, parse)
  {
    var all := ts + rest;
    assert all[|p + vs|] == rest[|vs|];
    forall i | 0 <= i < |p + vs|
      ensures parse(all[i]) == Some((p + vs)[i])
    {
      if i < |p| {
        assert all[i] == ts[i];
      } else {
        assert all[i] == rest[i - |p|];
      }
    }
  }

  /** Tokens that all convert, followed by tokens none of which stops the
      run, hold no stop either. */
  lemma NoStopContinues(ts: seq<string>, rest: seq<string>, p: seq<real>, parse: FloatParser)
    requires |p| == |ts|
    requires forall i :: 0 <= i < |p| ==> parse(ts[i]) == Some(p[i])
    requires !HasStop(rest, parse)
    ensures !HasStop(ts + rest, parse)
  {
    forall i | 0 <= i < |ts + rest|
      ensures parse((ts + rest)[i]).Some?
    {
      if i < |ts| {
        assert (ts + rest)[i] == ts[i];
      } else {
        assert (ts + rest)[i] == rest[i - |ts|];
      }
    }
  }

  /** The multi-line reader returns exactly the longest run of float tokens
      starting at line `j`, and fails exactly when no token after that point
      stops the run. */
  lemma {:induction false} ReadFloatRunSpec(lines: seq<string>, j: nat, parse: FloatParser)
    ensures ReadFloatRun(lines, j, parse).Ok? <==> HasStop(TokenStream(lines, j), parse)
    ensures ReadFloatRun(lines, j, parse).Ok? ==>
              IsFloatRun(TokenStream(lines, j), ReadFloatRun(lines, j, parse).value, parse)
    decreases |lines| - j
  {
    if j < |lines| {
      var ts := Tokens(lines[j]);
      var p := FloatPrefix(ts, parse);
      var rest := TokenStream(lines, j + 1);
      assert TokenStream(lines, j) == ts + rest;
      if |p| < |ts| {
        RunStopsInFirst(ts, rest, p, parse);
      } else {
        ReadFloatRunSpec(lines, j + 1, parse);
        if ReadFloatRun(lines, j + 1, parse).Ok? {
          RunContinues(ts, rest, p, ReadFloatRun(lines, j + 1, parse).value, parse);
        } else {
          NoStopContinues(ts, rest, p, parse);
        }
      }
    }
  }

  // ---------------------------------------------------------------------------
  // The universe table
  // ---------------------------------------------------------------------------

  function IndexOf(s: seq<int>, v: int): (i: nat)
    requires v in s
    ensures i < |s| && s[i] == v && v !in s[..i]
  {
    if s[0] == v then 0
    else
      var i := IndexOf(s[1..], v);
      assert s[..i + 1] == [s[0]] + s[1..][..i];
      i + 1
  }

  /** Resolving a universe id: an id not yet in the table is appended at its
      end; the result is the table and the id's first position in it. */
  function LookupUniverse(us: seq<int>, v: int): (r: (seq<int>, nat))
    ensures v in us ==> r.0 == us
    ensures v !in us ==> r.0 == us + [v] && r.1 == |us|
    ensures r.1 < |r.0| && r.0[r.1] == v
    ensures Distinct(us) ==> Distinct(r.0)
  {
    var us' := if v in us then us else us + [v];
    (us', IndexOf(us', v))
  }

  /** In a table without duplicates, a value already present keeps the index
      it was given when it first appeared. */
  lemma LookupUniverseStable(us: seq<int>, v: int, i: nat)
    requires Distinct(us)
    requires i < |us| && us[i] == v
    ensures LookupUniverse(us, v) == (us, i)
  {
  }

  // ---------------------------------------------------------------------------
  // Line handlers
  // ---------------------------------------------------------------------------

  /** An `Identifier` line: the first token of the next line is the universe
      id; it is resolved in the table, and the pending Betas and Lambdas
      buffers are appended to BETA_EFF and DECAY_CONSTANT of the bundle
      `(L, m, n)` with the newly resolved `m`.  The buffers are kept. */
  function OnIdentifier(lines: seq<string>, k: nat, st: Scanner): (r: Result<Scanner>)
    ensures st.betas.None? || st.lambdas.None? ==> r.Err?
    ensures r.Ok? <==>
      && k + 1 < |lines| && |Tokens(lines[k + 1])| > 0
      && ParseInt(Tokens(lines[k + 1])[0]).Some?
      && var key := (st.burn, LookupUniverse(st.universes, ParseInt(Tokens(lines[k + 1])[0]).value).1, st.branch);
         && key in st.lib && BETA_EFF in st.lib[key] && DECAY_CONSTANT in st.lib[key]
         && st.betas.Some? && st.lambdas.Some?
    ensures r.Ok? ==>
      && k + 1 < |lines| && |Tokens(lines[k + 1])| > 0
      && ParseInt(Tokens(lines[k + 1])[0]).Some?
      && var v := ParseInt(Tokens(lines[k + 1])[0]).value;
         var (us, m) := LookupUniverse(st.universes, v);
         var key := (st.burn, m, st.branch);
         && r.value.universes == us && r.value.uni == m
         && r.value.burn == st.burn && r.value.branch == st.branch
         && r.value.betas == st.betas && r.value.lambdas == st.lambdas
         && Grows(st.lib, r.value.lib)
         && key in st.lib && BETA_EFF in st.lib[key] && DECAY_CONSTANT in st.lib[key]
         && r.value.lib[key][BETA_EFF] == st.lib[key][BETA_EFF] + st.betas.value
         && r.value.lib[key][DECAY_CONSTANT] == st.lib[key][DECAY_CONSTANT] + st.lambdas.value
         && r.value.lib.Keys == st.lib.Keys
         && r.value.lib[key].Keys == st.lib[key].Keys
         && (forall q :: q in st.lib[key] && q != BETA_EFF && q != DECAY_CONSTANT ==>
               r.value.lib[key][q] == st.lib[key][q])
         && (forall other :: other in st.lib && other != key ==> r.value.lib[other] == st.lib[other])
  {
    var ts :- NextLineTokens(lines, k);
    if |ts| == 0 then Err(MissingToken)
    else
      var v :- ParseIntOrFail(ts[0]);
      var (us, m) := LookupUniverse(st.universes, v);
      var key := (st.burn, m, st.branch);
      if key !in st.lib then Err(UnknownBundle)
      else if st.betas.None? || st.lambdas.None? then Err(PendingNotSet)
      else
        assert BETA_EFF[0] != DECAY_CONSTANT[0];
        var lib1 :- Extend(st.lib, key, BETA_EFF, st.betas.value);
        var lib2 :- Extend(lib1, key, DECAY_CONSTANT, st.lambdas.value);
        ExtendGrows(st.lib, key, BETA_EFF, st.betas.value);
        ExtendGrows(lib1, key, DECAY_CONSTANT, st.lambdas.value);
        GrowsTransitive(st.lib, lib1, lib2);
        Ok(st.(lib := lib2, universes := us, uni := m))
  }

  /** The burnup field of a `branch no.` line: at most four characters
      ending just before the first comma.  Without a comma the position is
      -1, so the slice bounds count from the end and select the four
      characters before the last one. */
  function BurnupField(line: string): (r: string)
    ensures |r| <= 4 && ',' !in r
    ensures ',' in line ==>
      var p := Find(line, ',');
      && |r| <= p && r == line[p - |r|..p]
      && (p >= 4 ==> |r| == 4)
    ensures ',' !in line && |line| >= 5 ==> r == line[|line| - 5..|line| - 1]
  {
    var p := Find(line, ',');
    var r := PySlice(line, p - 4, p);
    if p >= 0 then
      assert r == line[..p][p - |r|..];
      r
    else r
  }

  /** A `branch no.` line: `L` from the burnup field, `n` from the last token;
      nothing else changes. */
  function OnBranchLine(line: string, st: Scanner): (r: Result<Scanner>)
    ensures r.Ok? <==>
      && ParseInt(BurnupField(line)).Some?
      && |Tokens(line)| > 0
      && ParseInt(Tokens(line)[|Tokens(line)| - 1]).Some?
    ensures r.Ok? ==>
      r.value == st.(burn := ParseInt(BurnupField(line)).value,
                     branch := ParseInt(Tokens(line)[|Tokens(line)| - 1]).value)
  {
    var burn :- ParseIntOrFail(BurnupField(line));
    var ts := Tokens(line);
    if |ts| == 0 then Err(MissingToken)
    else
      var branch :- ParseIntOrFail(ts[|ts| - 1]);
      Ok(st.(burn := burn, branch := branch))
  }

  /** Single-line marker: `names[i]` gains `vals[columns[i]]`, in order. */
  function AppendColumns(lib: Library, key: Key, columns: seq<nat>, names: seq<string>, vals: seq<real>)
    : (r: Result<Library>)
    requires |columns| == |names|
    ensures r.Ok? ==> Grows(lib, r.value)
    decreases |names|
  {
    if names == [] then
      GrowsReflexive(lib);
      Ok(lib)
    else if columns[0] >= |vals| then Err(MissingColumn)
    else
      var lib1 :- Extend(lib, key, names[0], [vals[columns[0]]]);
      var r := AppendColumns(lib1, key, columns[1..], names[1..], vals);
      if r.Ok? then
        ExtendGrows(lib, key, names[0], [vals[columns[0]]]);
        GrowsTransitive(lib, lib1, r.value);
        r
      else r
  }

  /** The precondition-free reading of a single-line marker's outcome: it
      fails exactly when the bundle, one of the quantities or one of the
      columns is missing. */
  ghost predicate ColumnsAvailable(lib: Library, key: Key, columns: seq<nat>, names: seq<string>, vals: seq<real>)
    requires |columns| == |names|
  {
    names == [] ||
    (&& key in lib
     && (forall i :: 0 <= i < |names| ==> names[i] in lib[key])
     && (forall i :: 0 <= i < |names| ==> columns[i] < |vals|))
  }

  lemma ColumnsAvailableCons(lib: Library, key: Key, columns: seq<nat>, names: seq<string>, vals: seq<real>)
    requires |columns| == |names| && names != []
    ensures ColumnsAvailable(lib, key, columns, names, vals) <==>
      && key in lib && names[0] in lib[key] && columns[0] < |vals|
      && ColumnsAvailable(lib, key, columns[1..], names[1..], vals)
  {
    assert forall i :: 1 <= i < |names| ==> names[1..][i - 1] == names[i] && columns[1..][i - 1] == columns[i];
  }

  /** Availability depends only on which bundles and quantities exist. */
  lemma ColumnsAvailableSameShape(lib1: Library, lib2: Library, key: Key, columns: seq<nat>, names: seq<string>, vals: seq<real>)
    requires |columns| == |names|
    requires lib1.Keys == lib2.Keys && (key in lib1 ==> lib1[key].Keys == lib2[key].Keys)
    ensures ColumnsAvailable(lib1, key, columns, names, vals) == ColumnsAvailable(lib2, key, columns, names, vals)
  {
  }

  lemma {:induction false} AppendColumnsSucceeds(lib: Library, key: Key, columns: seq<nat>, names: seq<string>, vals: seq<real>)
    requires |columns| == |names|
    ensures AppendColumns(lib, key, columns, names, vals).Ok? <==> ColumnsAvailable(lib, key, columns, names, vals)
    decreases |names|
  {
    if names != [] {
      ColumnsAvailableCons(lib, key, columns, names, vals);
      if columns[0] < |vals| {
        var e := Extend(lib, key, names[0], [vals[columns[0]]]);
        if e.Ok? {
          AppendColumnsSucceeds(e.value, key, columns[1..], names[1..], vals);
          ColumnsAvailableSameShape(e.value, lib, key, columns[1..], names[1..], vals);
        }
      }
    }
  }

  /** A single-line marker keeps the library's shape and leaves every other
      bundle alone. */
  lemma {:induction false} AppendColumnsShape(lib: Library, key: Key, columns: seq<nat>, names: seq<string>, vals: seq<real>)
    requires |columns| == |names| && names != []
    requires AppendColumns(lib, key, columns, names, vals).Ok?
    ensures var r := AppendColumns(lib, key, columns, names, vals).value;
        && key in lib && r.Keys == lib.Keys && r[key].Keys == lib[key].Keys
        && (forall k :: k in lib && k != key ==> r[k] == lib[k])
    decreases |names|
  {
    var lib1 := Extend(lib, key, names[0], [vals[columns[0]]]).value;
    if |names| > 1 {
      AppendColumnsShape(lib1, key, columns[1..], names[1..], vals);
    }
  }

  /** Quantities the marker does not name keep their lists. */
  lemma {:induction false} AppendColumnsUntouched(lib: Library, key: Key, columns: seq<nat>, names: seq<string>, vals: seq<real>)
    requires |columns| == |names| && names != []
    requires AppendColumns(lib, key, columns, names, vals).Ok?
    ensures key in lib
    ensures var r := AppendColumns(lib, key, columns, names, vals).value;
        forall q :: q in lib[key] && q !in names ==> r[key][q] == lib[key][q]
    decreases |names|
  {
    var lib1 := Extend(lib, key, names[0], [vals[columns[0]]]).value;
    if |names| > 1 {
      AppendColumnsUntouched(lib1, key, columns[1..], names[1..], vals);
      forall q | q in lib[key] && q !in names
        ensures q !in names[1..]
      {
      }
    }
  }

  lemma DistinctTail<T>(s: seq<T>)
    requires Distinct(s) && s != []
    ensures Distinct(s[1..]) && s[0] !in s[1..]
  {
    assert forall i :: 0 <= i < |s| - 1 ==> s[1..][i] == s[i + 1];
  }

  /** Each named quantity gains the value at its own column. */
  lemma {:induction false} AppendColumnsValues(lib: Library, key: Key, columns: seq<nat>, names: seq<string>, vals: seq<real>)
    requires |columns| == |names| && Distinct(names) && names != []
    requires AppendColumns(lib, key, columns, names, vals).Ok?
    ensures key in lib
    ensures var r := AppendColumns(lib, key, columns, names, vals).value;
        forall i :: 0 <= i < |names| ==> names[i] in lib[key] && columns[i] < |vals|
                                         && r[key][names[i]] == lib[key][names[i]] + [vals[columns[i]]]
    decreases |names|
  {
    var lib1 := Extend(lib, key, names[0], [vals[columns[0]]]).value;
    var r := AppendColumns(lib1, key, columns[1..], names[1..], vals).value;
    if |names| > 1 {
      DistinctTail(names);
      AppendColumnsValues(lib1, key, columns[1..], names[1..], vals);
      AppendColumnsUntouched(lib1, key, columns[1..], names[1..], vals);
      forall i | 0 < i < |names|
        ensures names[i] in lib[key] && columns[i] < |vals|
        ensures r[key][names[i]] == lib[key][names[i]] + [vals[columns[i]]]
      {
        assert names[1..][i - 1] == names[i] && columns[1..][i - 1] == columns[i];
      }
    }
  }

  /** A single-line marker appends exactly one value to each of its
      quantities, the value at that quantity's column; other quantities and
      other bundles are unchanged. */
  lemma AppendColumnsEffect(lib: Library, key: Key, columns: seq<nat>, names: seq<string>, vals: seq<real>)
    requires |columns| == |names| && Distinct(names) && names != []
    requires AppendColumns(lib, key, columns, names, vals).Ok?
    ensures var r := AppendColumns(lib, key, columns, names, vals).value;
        && key in lib && r.Keys == lib.Keys
        && r[key].Keys == lib[key].Keys
        && (forall i :: 0 <= i < |names| ==> names[i] in lib[key] && columns[i] < |vals|
                                              && r[key][names[i]] == lib[key][names[i]] + [vals[columns[i]]])
        && (forall q :: q in lib[key] && q !in names ==> r[key][q] == lib[key][q])
        && (forall k :: k in lib && k != key ==> r[k] == lib[k])
  {
    AppendColumnsShape(lib, key, columns, names, vals);
    AppendColumnsUntouched(lib, key, columns, names, vals);
    AppendColumnsValues(lib, key, columns, names, vals);
  }

  /** One catalogue marker found on line `k`. */
  function OnMarker(lines: seq<string>, k: nat, mk: Marker, st: Scanner, parse: FloatParser): (r: Result<Scanner>)
    requires WellFormed(mk)
    ensures r.Ok? ==> Grows(st.lib, r.value.lib)
    ensures r.Ok? ==> r.value.universes == st.universes && Cursor(r.value) == Cursor(st)
    ensures r.Ok? && mk.key != BETAS ==> r.value.betas == st.betas
    ensures r.Ok? && mk.key != LAMBDAS ==> r.value.lambdas == st.lambdas
  {
    if mk.multiLine then
      var vs :- ReadFloatRun(lines, k + 1, parse);
      if mk.key == BETAS then
        GrowsReflexive(st.lib);
        Ok(st.(betas := Some(vs)))
      else if mk.key == LAMBDAS then
        GrowsReflexive(st.lib);
        Ok(st.(lambdas := Some(vs)))
      else
        var lib :- Extend(st.lib, Cursor(st), mk.entries[0], vs);
        ExtendGrows(st.lib, Cursor(st), mk.entries[0], vs);
        Ok(st.(lib := lib))
    else
      var ts :- NextLineTokens(lines, k);
      var vals :- Need(ParseFloats(ts, parse), NotAFloat);
      var lib :- AppendColumns(st.lib, Cursor(st), mk.columns, mk.entries, vals);
      Ok(st.(lib := lib))
  }

  /** The markers of `ms` whose key occurs in `line`, in their order in `ms`. */
  function Fired(line: string, ms: seq<Marker>): (r: seq<Marker>)
    ensures |r| <= |ms|
    ensures forall i :: 0 <= i < |r| ==> r[i] in ms && Contains(line, r[i].key)
    ensures forall i :: 0 <= i < |ms| && Contains(line, ms[i].key) ==> ms[i] in r
  {
    if ms == [] then []
    else
      var tail := Fired(line, ms[1..]);
      assert forall i :: 1 <= i < |ms| ==> ms[i] == ms[1..][i - 1];
      if Contains(line, ms[0].key) then [ms[0]] + tail else tail
  }

  /** Nothing fires on a line holding none of the keys. */
  lemma {:induction false} FiredNone(line: string, ms: seq<Marker>)
    requires forall i :: 0 <= i < |ms| ==> !Contains(line, ms[i].key)
    ensures Fired(line, ms) == []
  {
    if ms != [] {
      FiredNone(line, ms[1..]);
    }
  }

  /** Exactly `ms[i]` fires on a line holding its key and no other. */
  lemma {:induction false} FiredOne(line: string, ms: seq<Marker>, i: nat)
    requires i < |ms| && Contains(line, ms[i].key)
    requires forall j :: 0 <= j < |ms| && j != i ==> !Contains(line, ms[j].key)
    ensures Fired(line, ms) == [ms[i]]
  {
    if i == 0 {
      FiredNone(line, ms[1..]);
    } else {
      FiredOne(line, ms[1..], i - 1);
    }
  }

  /** The markers `fs` applied one after the other on line `k`; the first
      failure aborts. */
  function ApplyMarkers(lines: seq<string>, k: nat, fs: seq<Marker>, st: Scanner, parse: FloatParser)
    : Result<Scanner>
    requires forall i :: 0 <= i < |fs| ==> WellFormed(fs[i])
  {
    if fs == [] then Ok(st)
    else
      var st1 :- OnMarker(lines, k, fs[0], st, parse);
      ApplyMarkers(lines, k, fs[1..], st1, parse)
  }

  /** The markers of `ms` tried in order on line `k`: exactly the ones whose
      key occurs in the line fire, in catalogue order. */
  function OnMarkers(lines: seq<string>, k: nat, ms: seq<Marker>, st: Scanner, parse: FloatParser)
    : (r: Result<Scanner>)
    requires k < |lines|
    requires forall i :: 0 <= i < |ms| ==> WellFormed(ms[i])
    ensures r.Ok? ==> Grows(st.lib, r.value.lib)
    ensures r.Ok? ==> r.value.universes == st.universes && Cursor(r.value) == Cursor(st)
    ensures r.Ok? && (forall i :: 0 <= i < |ms| && ms[i].key == BETAS ==> !Contains(lines[k], BETAS))
            ==> r.value.betas == st.betas
    ensures r.Ok? && (forall i :: 0 <= i < |ms| && ms[i].key == LAMBDAS ==> !Contains(lines[k], LAMBDAS))
            ==> r.value.lambdas == st.lambdas
    decreases |ms|
  {
    if ms == [] then
      GrowsReflexive(st.lib);
      Ok(st)
    else
      var st1 :- if Contains(lines[k], ms[0].key) then OnMarker(lines, k, ms[0], st, parse) else Ok(st);
      var r := OnMarkers(lines, k, ms[1..], st1, parse);
      assert forall i :: 1 <= i < |ms| ==> ms[1..][i - 1] == ms[i];
      if r.Ok? then
        GrowsReflexive(st.lib);
        GrowsTransitive(st.lib, st1.lib, r.value.lib);
        r
      else r
  }

  /** Trying every marker of `ms` in turn is the same as first selecting the
      ones whose key occurs in the line and then applying exactly those, in
      order: a marker whose key is absent has no effect, and a failing one
      stops the line. */
  lemma {:induction false} OnMarkersFired(lines: seq<string>, k: nat, ms: seq<Marker>, st: Scanner, parse: FloatParser)
    requires k < |lines|
    requires forall i :: 0 <= i < |ms| ==> WellFormed(ms[i])
    ensures OnMarkers(lines, k, ms, st, parse) == ApplyMarkers(lines, k, Fired(lines[k], ms), st, parse)
    decreases |ms|
  {
    if ms != [] {
      assert forall i :: 1 <= i < |ms| ==> ms[1..][i - 1] == ms[i];
      var fs := Fired(lines[k], ms);
      var tail := Fired(lines[k], ms[1..]);
      if Contains(lines[k], ms[0].key) {
        assert fs == [ms[0]] + tail;
        assert fs[0] == ms[0] && fs[1..] == tail;
        var e := OnMarker(lines, k, ms[0], st, parse);
        if e.Ok? {
          OnMarkersFired(lines, k, ms[1..], e.value, parse);
        }
      } else {
        assert fs == tail;
        OnMarkersFired(lines, k, ms[1..], st, parse);
      }
    }
  }

  /** On a line holding none of the keys of `ms`, the markers change nothing. */
  lemma OnMarkersNone(lines: seq<string>, k: nat, ms: seq<Marker>, st: Scanner, parse: FloatParser)
    requires k < |lines|
    requires forall i :: 0 <= i < |ms| ==> WellFormed(ms[i])
    requires forall i :: 0 <= i < |ms| ==> !Contains(lines[k], ms[i].key)
    ensures OnMarkers(lines, k, ms, st, parse) == Ok(st)
  {
    OnMarkersFired(lines, k, ms, st, parse);
    FiredNone(lines[k], ms);
  }

  /** On a line holding the key of `ms[i]` and no other key of `ms`, exactly
      that marker runs. */
  lemma OnMarkersOne(lines: seq<string>, k: nat, ms: seq<Marker>, i: nat, st: Scanner, parse: FloatParser)
    requires k < |lines| && i < |ms|
    requires forall j :: 0 <= j < |ms| ==> WellFormed(ms[j])
    requires Contains(lines[k], ms[i].key)
    requires forall j :: 0 <= j < |ms| && j != i ==> !Contains(lines[k], ms[j].key)
    ensures OnMarkers(lines, k, ms, st, parse) == OnMarker(lines, k, ms[i], st, parse)
  {
    OnMarkersFired(lines, k, ms, st, parse);
    FiredOne(lines[k], ms, i);
  }

  /** One line of the file: `Identifier` first, then `branch no.`, then every
      catalogue marker in order. */
  function ScanLine(lines: seq<string>, k: nat, st: Scanner, parse: FloatParser): (r: Result<Scanner>)
    requires k < |lines|
    ensures r.Ok? ==> Grows(st.lib, r.value.lib)
    ensures r.Ok? && !Contains(lines[k], BETAS) ==> r.value.betas == st.betas
    ensures r.Ok? && !Contains(lines[k], LAMBDAS) ==> r.value.lambdas == st.lambdas
    ensures Contains(lines[k], IDENTIFIER) && (st.betas.None? || st.lambdas.None?) ==> r.Err?
  {
    CatalogueWellFormed();
    var st1 :- if Contains(lines[k], IDENTIFIER) then OnIdentifier(lines, k, st) else Ok(st);
    var st2 :- if Contains(lines[k], BRANCH_NO) then OnBranchLine(lines[k], st1) else Ok(st1);
    var r := OnMarkers(lines, k, Catalogue, st2, parse);
    if r.Ok? then
      GrowsReflexive(st.lib);
      GrowsTransitive(st.lib, st1.lib, r.value.lib);
      r
    else r
  }

  /** Lines `k, k+1, ...` scanned in order; the first failure aborts. */
  function Scan(lines: seq<string>, k: nat, st: Scanner, parse: FloatParser): (r: Result<Scanner>)
    ensures r.Ok? ==> Grows(st.lib, r.value.lib)
    decreases |lines| - k
  {
    if k >= |lines| then
      GrowsReflexive(st.lib);
      Ok(st)
    else
      var st1 :- ScanLine(lines, k, st, parse);
      var r := Scan(lines, k + 1, st1, parse);
      if r.Ok? then
        GrowsTransitive(st.lib, st1.lib, r.value.lib);
        r
      else r
  }

  /** Line `k` holds none of the nine marker strings. */
  predicate Quiet(line: string) {
    && !Contains(line, IDENTIFIER) && !Contains(line, BRANCH_NO)
    && forall i :: 0 <= i < |Catalogue| ==> !Contains(line, Catalogue[i].key)
  }

  /** The catalogue markers handled on line `k`, in catalogue order. */
  function OnCatalogue(lines: seq<string>, k: nat, st: Scanner, parse: FloatParser): Result<Scanner>
    requires k < |lines|
  {
    CatalogueWellFormed();
    OnMarkers(lines, k, Catalogue, st, parse)
  }

  /** The order in which one line is handled: the `Identifier` step, then the
      `branch no.` step, then the catalogue markers whose key occurs, in
      catalogue order; a failing step ends the line with its error. */
  lemma ScanLineSteps(lines: seq<string>, k: nat, st: Scanner, parse: FloatParser)
    requires k < |lines|
    ensures var line := lines[k];
      var st1 := if Contains(line, IDENTIFIER) then OnIdentifier(lines, k, st) else Ok(st);
      && (st1.Err? ==> ScanLine(lines, k, st, parse).Err?)
      && (st1.Ok? && Contains(line, BRANCH_NO) && OnBranchLine(line, st1.value).Err? ==>
            ScanLine(lines, k, st, parse).Err?)
      && (st1.Ok? && Contains(line, BRANCH_NO) && OnBranchLine(line, st1.value).Ok? ==>
            ScanLine(lines, k, st, parse) == OnCatalogue(lines, k, OnBranchLine(line, st1.value).value, parse))
      && (st1.Ok? && !Contains(line, BRANCH_NO) ==>
            ScanLine(lines, k, st, parse) == OnCatalogue(lines, k, st1.value, parse))
  {
    CatalogueWellFormed();
  }

  /** The special cases of that order: a line with no marker string leaves
      the state as it is; a line with only `Identifier` or only `branch no.`
      runs exactly that handler; an `Identifier` line that is also a
      `branch no.` line resolves the universe before it moves the burnup and
      branch cursors. */
  lemma ScanLineDispatch(lines: seq<string>, k: nat, st: Scanner, parse: FloatParser)
    requires k < |lines|
    ensures !Contains(lines[k], IDENTIFIER) && !Contains(lines[k], BRANCH_NO) ==>
      ScanLine(lines, k, st, parse) == OnCatalogue(lines, k, st, parse)
    ensures Quiet(lines[k]) ==> ScanLine(lines, k, st, parse) == Ok(st)
    ensures var line := lines[k];
      (forall i :: 0 <= i < |Catalogue| ==> !Contains(line, Catalogue[i].key)) ==>
      && (Contains(line, IDENTIFIER) && !Contains(line, BRANCH_NO) ==>
            ScanLine(lines, k, st, parse) == OnIdentifier(lines, k, st))
      && (!Contains(line, IDENTIFIER) && Contains(line, BRANCH_NO) ==>
            ScanLine(lines, k, st, parse) == OnBranchLine(line, st))
      && (Contains(line, IDENTIFIER) && Contains(line, BRANCH_NO) ==>
            && (OnIdentifier(lines, k, st).Err? ==> ScanLine(lines, k, st, parse).Err?)
            && (OnIdentifier(lines, k, st).Ok? ==>
                  ScanLine(lines, k, st, parse) == OnBranchLine(line, OnIdentifier(lines, k, st).value)))
  {
    CatalogueWellFormed();
    ScanLineSteps(lines, k, st, parse);
    if forall i :: 0 <= i < |Catalogue| ==> !Contains(lines[k], Catalogue[i].key) {
      OnMarkersNone(lines, k, Catalogue, st, parse);
      var st1 := if Contains(lines[k], IDENTIFIER) then OnIdentifier(lines, k, st) else Ok(st);
      if st1.Ok? {
        OnMarkersNone(lines, k, Catalogue, st1.value, parse);
        if Contains(lines[k], BRANCH_NO) && OnBranchLine(lines[k], st1.value).Ok? {
          OnMarkersNone(lines, k, Catalogue, OnBranchLine(lines[k], st1.value).value, parse);
        }
      }
    }
  }

  /** A line holding the key of catalogue marker `i` and no other marker
      string runs exactly that marker's handler. */
  lemma ScanLineSingleMarker(lines: seq<string>, k: nat, i: nat, st: Scanner, parse: FloatParser)
    requires k < |lines| && i < |Catalogue|
    requires !Contains(lines[k], IDENTIFIER) && !Contains(lines[k], BRANCH_NO)
    requires Contains(lines[k], Catalogue[i].key)
    requires forall j :: 0 <= j < |Catalogue| && j != i ==> !Contains(lines[k], Catalogue[j].key)
    ensures ScanLine(lines, k, st, parse) == OnMarker(lines, k, Catalogue[i], st, parse)
  {
    CatalogueWellFormed();
    ScanLineSteps(lines, k, st, parse);
    OnMarkersOne(lines, k, Catalogue, i, st, parse);
  }

  // ---------------------------------------------------------------------------
  // The whole backend
  // ---------------------------------------------------------------------------

  /** `scale_xs(...).xs_lib`: header, library, scan, then the derived pass.
      Where numpy would store an infinite FISSE (nonzero FISSE over zero
      FISSXS) the model reports `NonFiniteEnergy`. */
  function ScaleXs(lines: seq<string>, parse: FloatParser): (r: Result<Library>)
    ensures r.Ok? <==>
      && ParseHeader(lines).Ok?
      && var d := ParseHeader(lines).value;
         var scanned := Scan(lines, 0, InitialScanner(d), parse);
         && scanned.Ok?
         && forall key :: key in scanned.value.lib ==> FixDefined(scanned.value.lib[key], d.numGroups)
    ensures r.Ok? ==>
      var d := ParseHeader(lines).value;
      forall key :: key in r.value <==> InBox(key, d.numBurn, d.numUni, d.numTemps)
    ensures r.Ok? ==>
      var d := ParseHeader(lines).value;
      var scanned := Scan(lines, 0, InitialScanner(d), parse);
      && scanned.Ok?
      && scanned.value.lib.Keys == r.value.Keys
      && forall key :: key in r.value ==> Corrected(scanned.value.lib[key], r.value[key], d.numGroups)
  {
    var d :- ParseHeader(lines);
    var st :- Scan(lines, 0, InitialScanner(d), parse);
    FixXs(st.lib, d.numGroups)
  }

  /** Every bundle of a converted T16 file holds exactly the twelve
      quantities the library was created with. */
  lemma ScaleXsBundlesComplete(lines: seq<string>, parse: FloatParser)
    requires ScaleXs(lines, parse).Ok?
    ensures forall key :: key in ScaleXs(lines, parse).value ==>
      ScaleXs(lines, parse).value[key].Keys == set q | q in QuantityNames
  {
    var d := ParseHeader(lines).value;
    var st := Scan(lines, 0, InitialScanner(d), parse).value;
    assert Grows(InitLibrary(d), st.lib);
    var r := ScaleXs(lines, parse).value;
    forall key | key in r
      ensures r[key].Keys == set q | q in QuantityNames
    {
      assert key in st.lib;
      assert Corrected(st.lib[key], r[key], d.numGroups);
    }
  }

  // ---------------------------------------------------------------------------
  // Properties of the scan
  // ---------------------------------------------------------------------------

  /** The universe table has no duplicates and the universe cursor points
      into it once any universe has been seen. */
  ghost predicate TableOk(st: Scanner) {
    && Distinct(st.universes)
    && ((st.universes == [] && st.uni == 0) || 0 <= st.uni < |st.universes|)
  }

  lemma ScanLineKeepsTable(lines: seq<string>, k: nat, st: Scanner, parse: FloatParser)
    requires k < |lines| && TableOk(st)
    requires ScanLine(lines, k, st, parse).Ok?
    ensures TableOk(ScanLine(lines, k, st, parse).value)
    ensures st.universes <= ScanLine(lines, k, st, parse).value.universes
  {
    CatalogueWellFormed();
    var st1 := if Contains(lines[k], IDENTIFIER) then OnIdentifier(lines, k, st).value else st;
    var st2 := if Contains(lines[k], BRANCH_NO) then OnBranchLine(lines[k], st1).value else st1;
    assert ScanLine(lines, k, st, parse) == OnMarkers(lines, k, Catalogue, st2, parse);
    assert TableOk(st1) && st.universes <= st1.universes;
    assert st2.universes == st1.universes && st2.uni == st1.uni;
  }

  /** Over the whole scan the universe table only grows at its end and never
      holds a duplicate, so every universe id keeps the index it was given
      when it first appeared. */
  lemma {:induction false} ScanKeepsUniverseTable(lines: seq<string>, k: nat, st: Scanner, parse: FloatParser)
    requires TableOk(st)
    requires Scan(lines, k, st, parse).Ok?
    ensures TableOk(Scan(lines, k, st, parse).value)
    ensures st.universes <= Scan(lines, k, st, parse).value.universes
    decreases |lines| - k
  {
    if k < |lines| {
      var st1 := ScanLine(lines, k, st, parse).value;
      ScanLineKeepsTable(lines, k, st, parse);
      ScanKeepsUniverseTable(lines, k + 1, st1, parse);
    }
  }

  lemma ScanUnfold(lines: seq<string>, k: nat, st: Scanner, parse: FloatParser)
    requires k < |lines|
    ensures ScanLine(lines, k, st, parse).Err? ==> Scan(lines, k, st, parse).Err?
    ensures ScanLine(lines, k, st, parse).Ok? ==>
      Scan(lines, k, st, parse) == Scan(lines, k + 1, ScanLine(lines, k, st, parse).value, parse)
  {
  }

  /** A pending buffer starts unset, and only a `Betas` line sets it: an
      `Identifier` line reached while it is unset, with no `Betas` line in
      between, aborts the scan. */
  lemma {:induction false} IdentifierBeforeBetasFails(lines: seq<string>, k: nat, p: nat, st: Scanner, parse: FloatParser)
    requires k <= p < |lines|
    requires Contains(lines[p], IDENTIFIER)
    requires st.betas.None?
    requires NoLineHas(lines, k, p, BETAS)
    ensures Scan(lines, k, st, parse).Err?
    decreases p - k
  {
    ScanUnfold(lines, k, st, parse);
    if k < p && ScanLine(lines, k, st, parse).Ok? {
      var st1 := ScanLine(lines, k, st, parse).value;
      assert !Contains(lines[k], BETAS) && NoLineHas(lines, k + 1, p, BETAS);
      IdentifierBeforeBetasFails(lines, k + 1, p, st1, parse);
    }
  }

  /** The same for the `Lambdas` buffer. */
  lemma {:induction false} IdentifierBeforeLambdasFails(lines: seq<string>, k: nat, p: nat, st: Scanner, parse: FloatParser)
    requires k <= p < |lines|
    requires Contains(lines[p], IDENTIFIER)
    requires st.lambdas.None?
    requires NoLineHas(lines, k, p, LAMBDAS)
    ensures Scan(lines, k, st, parse).Err?
    decreases p - k
  {
    ScanUnfold(lines, k, st, parse);
    if k < p && ScanLine(lines, k, st, parse).Ok? {
      var st1 := ScanLine(lines, k, st, parse).value;
      assert !Contains(lines[k], LAMBDAS) && NoLineHas(lines, k + 1, p, LAMBDAS);
      IdentifierBeforeLambdasFails(lines, k + 1, p, st1, parse);
    }
  }

  /** The whole backend fails on a T16 file whose first `Identifier` line
      comes before its first `Betas` line or before its first `Lambdas`
      line. */
  lemma ScaleXsIdentifierFirstFails(lines: seq<string>, p: nat, parse: FloatParser)
    requires p < |lines| && Contains(lines[p], IDENTIFIER)
    requires || (forall j :: 0 <= j < p ==> !Contains(lines[j], BETAS))
             || (forall j :: 0 <= j < p ==> !Contains(lines[j], LAMBDAS))
    ensures ScaleXs(lines, parse).Err?
  {
    if ParseHeader(lines).Ok? {
      var st := InitialScanner(ParseHeader(lines).value);
      if forall j :: 0 <= j < p ==> !Contains(lines[j], BETAS) {
        NoLineHasOfForall(lines, 0, p, BETAS);
        IdentifierBeforeBetasFails(lines, 0, p, st, parse);
      } else {
        NoLineHasOfForall(lines, 0, p, LAMBDAS);
        IdentifierBeforeLambdasFails(lines, 0, p, st, parse);
      }
    }
  }

  /** A multi-line marker reads the longest run of float tokens after its
      line.  `Betas` and `Lambdas` only replace their pending buffer; any
      other multi-line marker (GTRANSFXS) appends the run to the bundle under
      the cursors at once and touches nothing else. */
  lemma MultiLineMarkerEffect(lines: seq<string>, k: nat, mk: Marker, st: Scanner, parse: FloatParser)
    requires WellFormed(mk) && mk.multiLine
    ensures OnMarker(lines, k, mk, st, parse).Ok? <==>
      && ReadFloatRun(lines, k + 1, parse).Ok?
      && (mk.key == BETAS || mk.key == LAMBDAS || (Cursor(st) in st.lib && mk.entries[0] in st.lib[Cursor(st)]))
    ensures ReadFloatRun(lines, k + 1, parse).Ok? ==>
      IsFloatRun(TokenStream(lines, k + 1), ReadFloatRun(lines, k + 1, parse).value, parse)
    ensures OnMarker(lines, k, mk, st, parse).Ok? && mk.key == BETAS ==>
      OnMarker(lines, k, mk, st, parse).value == st.(betas := Some(ReadFloatRun(lines, k + 1, parse).value))
    ensures OnMarker(lines, k, mk, st, parse).Ok? && mk.key == LAMBDAS ==>
      OnMarker(lines, k, mk, st, parse).value == st.(lambdas := Some(ReadFloatRun(lines, k + 1, parse).value))
    ensures OnMarker(lines, k, mk, st, parse).Ok? && mk.key != BETAS && mk.key != LAMBDAS ==>
      && OnMarker(lines, k, mk, st, parse).value.lib[Cursor(st)][mk.entries[0]]
           == st.lib[Cursor(st)][mk.entries[0]] + ReadFloatRun(lines, k + 1, parse).value
      && (forall q :: q in st.lib[Cursor(st)] && q != mk.entries[0] ==>
            OnMarker(lines, k, mk, st, parse).value.lib[Cursor(st)][q] == st.lib[Cursor(st)][q])
      && (forall key :: key in st.lib && key != Cursor(st) ==>
            OnMarker(lines, k, mk, st, parse).value.lib[key] == st.lib[key])
      && OnMarker(lines, k, mk, st, parse).value.betas == st.betas
      && OnMarker(lines, k, mk, st, parse).value.lambdas == st.lambdas
  {
    ReadFloatRunSpec(lines, k + 1, parse);
  }

  /** A single-line marker succeeds exactly when the next line exists, all of
      its tokens are floats, and the bundle, quantities and columns exist;
      each of its quantities then gains the one value at its column. */
  lemma SingleLineMarkerEffect(lines: seq<string>, k: nat, mk: Marker, st: Scanner, parse: FloatParser)
    requires WellFormed(mk) && !mk.multiLine
    ensures OnMarker(lines, k, mk, st, parse).Ok? <==>
      && k + 1 < |lines|
      && ParseFloats(Tokens(lines[k + 1]), parse).Some?
      && ColumnsAvailable(st.lib, Cursor(st), mk.columns, mk.entries, ParseFloats(Tokens(lines[k + 1]), parse).value)
    ensures OnMarker(lines, k, mk, st, parse).Ok? ==>
      && OnMarker(lines, k, mk, st, parse).value.universes == st.universes
      && OnMarker(lines, k, mk, st, parse).value.betas == st.betas
      && OnMarker(lines, k, mk, st, parse).value.lambdas == st.lambdas
      && Cursor(st) in st.lib
      && (forall i :: 0 <= i < |mk.entries| ==>
            && mk.entries[i] in st.lib[Cursor(st)]
            && mk.columns[i] < |ParseFloats(Tokens(lines[k + 1]), parse).value|
            && OnMarker(lines, k, mk, st, parse).value.lib[Cursor(st)][mk.entries[i]]
                 == st.lib[Cursor(st)][mk.entries[i]] + [ParseFloats(Tokens(lines[k + 1]), parse).value[mk.columns[i]]])
      && (forall q :: q in st.lib[Cursor(st)] && q !in mk.entries ==>
            OnMarker(lines, k, mk, st, parse).value.lib[Cursor(st)][q] == st.lib[Cursor(st)][q])
      && (forall key :: key in st.lib && key != Cursor(st) ==>
            OnMarker(lines, k, mk, st, parse).value.lib[key] == st.lib[key])
  {
    if k + 1 < |lines| && ParseFloats(Tokens(lines[k + 1]), parse).Some? {
      var vals := ParseFloats(Tokens(lines[k + 1]), parse).value;
      AppendColumnsSucceeds(st.lib, Cursor(st), mk.columns, mk.entries, vals);
      if AppendColumns(st.lib, Cursor(st), mk.columns, mk.entries, vals).Ok? {
        AppendColumnsEffect(st.lib, Cursor(st), mk.columns, mk.entries, vals);
      }
    }
  }
}
