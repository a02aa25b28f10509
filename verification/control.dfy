/**
 The control file: which materials exist, where each temperature branch of a
 material comes from, and which cross-section files to convert.

 Every line of the control file is matched against four section markers in
 turn (`[TITLE]`, `[MAT]`, `[BRANCH]`, `FILES`); a marker's count line and
 records follow it and are themselves scanned afterwards like any other line.
 Once the whole file is read, every branch record is resolved to a bundle of
 the converted file it names, and the per-material document is produced.

 Reading the cross-section files and running the OpenMC backend are outside
 the model: an `Env` supplies their results.  Writing the JSON document is
 modelled by returning the output path and the document.
 */
module ControlFile {
  import opened Results
  import opened Text
  import opened XsLibrary
  import opened ScaleScanner
  import opened Serpent

  const TITLE := "[TITLE]"
  const MAT := "[MAT]"
  const BRANCH := "[BRANCH]"
  const FILES := "FILES"

  /** Per material, one entry per branch record in each of the five
      parallel lists: temperature, file number, burnup, universe and branch
      number (all 1-based except the temperature). */
  datatype MatRecord = MatRecord(temps: seq<int>, file: seq<int>, burn: seq<int>, uni: seq<int>, bran: seq<int>)

  const EmptyRecord := MatRecord([], [], [], [], [])

  predicate Aligned(rec: MatRecord) {
    |rec.file| == |rec.temps| && |rec.burn| == |rec.temps|
    && |rec.uni| == |rec.temps| && |rec.bran| == |rec.temps|
  }

  /** The material dictionary: its records and the order in which the
      materials were first declared. */
  datatype MatTable = MatTable(order: seq<string>, recs: map<string, MatRecord>)

  ghost predicate TableOk(t: MatTable) {
    && Distinct(t.order)
    && (forall name :: name in t.recs <==> name in t.order)
    && (forall name :: name in t.recs ==> Aligned(t.recs[name]))
  }

  /** The code a FILES entry's format tag selects. */
  datatype Backend = ScaleCode | SerpentCode | OpenmcCode

  /** What lies outside the converter: reading a T16 file into lines, the
      float conversion of a token, reading a Serpent results file, and the
      OpenMC backend (input file, reference token, 1-based file number).
      `None` stands for a reader that raises. */
  datatype Env = Env(
    readT16: string -> Option<seq<string>>,
    parseFloat: FloatParser,
    readSerpent: string -> Option<SerpentData>,
    openmc: (string, string, int) -> Option<Library>)

  /** The variables of the reading loop: the output path, the material
      dictionary, the converted files, and the last reference token read
      from a three-field FILES entry.  `None` stands for a variable not yet
      assigned. */
  datatype ControlState = ControlState(
    title: Option<string>,
    mats: Option<MatTable>,
    files: Option<map<int, Library>>,
    reference: Option<string>)

  const InitialState := ControlState(None, None, None, None)

  ghost predicate StateOk(st: ControlState) {
    st.mats.Some? ==> TableOk(st.mats.value)
  }

  /** One material's part of the output document: its temperature list and,
      under `str(temp)`, the bundle of each branch record. */
  datatype MatOut = MatOut(temp: seq<int>, cases: map<string, Bundle>)

  datatype Output = Output(path: string, doc: map<string, MatOut>)

  // ---------------------------------------------------------------------------
  // Small readers
  // ---------------------------------------------------------------------------

  /** The first token of line `j`. */
  function FirstToken(lines: seq<string>, j: int): (r: Result<string>)
    ensures r.Ok? <==> 0 <= j < |lines| && |Tokens(lines[j])| > 0
    ensures r.Ok? ==> r.value == Tokens(lines[j])[0]
    ensures r.Err? ==> r.error == (if 0 <= j < |lines| then MissingToken else MissingLine)
  {
    if j < 0 || j >= |lines| then Err(MissingLine)
    else if |Tokens(lines[j])| == 0 then Err(MissingToken)
    else Ok(Tokens(lines[j])[0])
  }

  /** The count line after a section marker: its first token as an integer. */
  function CountAt(lines: seq<string>, j: int): (r: Result<int>)
    ensures r.Ok? <==> FirstToken(lines, j).Ok? && ParseInt(FirstToken(lines, j).value).Some?
    ensures r.Ok? ==> ParseInt(Tokens(lines[j])[0]) == Some(r.value)
  {
    var t :- FirstToken(lines, j);
    ParseIntOrFail(t)
  }

  /** The backend a format tag selects: the tags are matched as substrings,
      `scale` first, then `serpent`, then `openmc`. */
  function SelectBackend(tag: string): (r: Result<Backend>)
    ensures r == Ok(ScaleCode) <==> Contains(tag, "scale")
    ensures r == Ok(SerpentCode) <==> !Contains(tag, "scale") && Contains(tag, "serpent")
    ensures r == Ok(OpenmcCode) <==>
      !Contains(tag, "scale") && !Contains(tag, "serpent") && Contains(tag, "openmc")
    ensures r.Err? ==> r.error == UnknownFormat
  {
    if Contains(tag, "scale") then Ok(ScaleCode)
    else if Contains(tag, "serpent") then Ok(SerpentCode)
    else if Contains(tag, "openmc") then Ok(OpenmcCode)
    else Err(UnknownFormat)
  }

  /** Converts one file with the selected backend.  The SCALE backend runs
      the scanner and the derived-quantity pass on the file's lines; the
      Serpent backend re-indexes the reader's table; OpenMC needs the
      reference token. */
  function Load(b: Backend, path: string, reference: Option<string>, number: int, env: Env): (r: Result<Library>)
    ensures b == OpenmcCode && reference.None? ==> r == Err(NoReference)
    ensures b == ScaleCode && env.readT16(path).Some? ==> r == ScaleXs(env.readT16(path).value, env.parseFloat)
    ensures b == SerpentCode && env.readSerpent(path).Some? ==> r == SerpentXs(env.readSerpent(path).value)
    ensures b != OpenmcCode && r.Ok? ==>
      forall key :: key in r.value ==> r.value[key].Keys == set q | q in QuantityNames
  {
    match b
    case ScaleCode =>
      var ls :- Need(env.readT16(path), Unreadable);
      var lib := ScaleXs(ls, env.parseFloat);
      if lib.Ok? then
        ScaleXsBundlesComplete(ls, env.parseFloat);
        lib
      else lib
    case SerpentCode =>
      var data :- Need(env.readSerpent(path), Unreadable);
      if SerpentXs(data).Ok? then
        SerpentBundlesComplete(data);
        SerpentXs(data)
      else SerpentXs(data)
    case OpenmcCode =>
      if reference.None? then Err(NoReference)
      else Need(env.openmc(path, reference.value, number), Unreadable)
  }

  // ---------------------------------------------------------------------------
  // [TITLE] and [MAT]
  // ---------------------------------------------------------------------------

  /** `[TITLE]`: the first token of the next line is the output path. */
  function OnTitle(lines: seq<string>, k: nat, st: ControlState): (r: Result<ControlState>)
    ensures r.Ok? <==> FirstToken(lines, k + 1).Ok?
    ensures r.Ok? ==> r.value.title == Some(Tokens(lines[k + 1])[0])
    ensures r.Ok? ==> r.value.mats == st.mats && r.value.files == st.files && r.value.reference == st.reference
  {
    var path :- FirstToken(lines, k + 1);
    Ok(st.(title := Some(path)))
  }

  /** The elements of `s` in order of first occurrence. */
  function Dedupe(s: seq<string>): (r: seq<string>)
    ensures forall x :: x in r <==> x in s
    ensures Distinct(r)
  {
    if s == [] then []
    else
      var p := Dedupe(s[..|s| - 1]);
      assert forall x :: x in s <==> x in s[..|s| - 1] || x == s[|s| - 1];
      if s[|s| - 1] in p then p else p + [s[|s| - 1]]
  }

  /** `x` occurs in `s` before the first occurrence of `y`. */
  ghost predicate FirstBefore(s: seq<string>, x: string, y: string) {
    exists b :: 0 <= b < |s| && s[b] == y && y !in s[..b] && x in s[..b]
  }

  lemma FirstBeforeExtend(s: seq<string>, z: string, x: string, y: string)
    requires FirstBefore(s, x, y)
    ensures FirstBefore(s + [z], x, y)
  {
    var b :| 0 <= b < |s| && s[b] == y && y !in s[..b] && x in s[..b];
    assert (s + [z])[..b] == s[..b];
    assert (s + [z])[b] == y;
  }

  /** Like a dictionary's keys, the deduplicated names keep the order of
      their first insertion. */
  lemma {:induction false} DedupeOrder(s: seq<string>)
    ensures forall i, j :: 0 <= i < j < |Dedupe(s)| ==> FirstBefore(s, Dedupe(s)[i], Dedupe(s)[j])
  {
    if s != [] {
      var s' := s[..|s| - 1];
      var z := s[|s| - 1];
      var p := Dedupe(s');
      var r := Dedupe(s);
      DedupeOrder(s');
      assert s == s' + [z];
      forall i, j | 0 <= i < j < |r|
        ensures FirstBefore(s, r[i], r[j])
      {
        if j < |p| {
          assert r[i] == p[i] && r[j] == p[j];
          FirstBeforeExtend(s', z, p[i], p[j]);
        } else {
          assert r[j] == z && z !in s' && r[i] == p[i] && p[i] in s';
          assert s[..|s'|] == s';
          assert s[|s'|] == z;
        }
      }
    }
  }

  /** How many values a Python range up to `n` yields. */
  function RangeLength(n: int): (r: nat)
    ensures n >= 0 ==> r == n
    ensures n < 0 ==> r == 0
  {
    if n < 0 then 0 else n
  }

  /** A dictionary of the distinct names of `order`, each with empty lists. */
  function FreshTable(order: seq<string>): (t: MatTable)
    requires Distinct(order)
    ensures TableOk(t) && t.order == order
    ensures forall name :: name in t.recs <==> name in order
    ensures forall name :: name in t.recs ==> t.recs[name] == EmptyRecord
  {
    MatTable(order, map name | name in order :: EmptyRecord)
  }

  /** `[MAT]`: a fresh dictionary holding, with empty lists, the first `n`
      names of the line after the count `n`; that line must exist even when
      `n` is not positive. */
  function OnMat(lines: seq<string>, k: nat, st: ControlState): (r: Result<ControlState>)
    ensures r.Ok? <==>
      && CountAt(lines, k + 1).Ok?
      && k + 2 < |lines|
      && CountAt(lines, k + 1).value <= |Tokens(lines[k + 2])|
    ensures r.Ok? ==>
      && r.value.mats.Some?
      && TableOk(r.value.mats.value)
      && (forall name :: name in r.value.mats.value.recs <==>
            name in Tokens(lines[k + 2])[..RangeLength(CountAt(lines, k + 1).value)])
      && (forall name :: name in r.value.mats.value.recs ==> r.value.mats.value.recs[name] == EmptyRecord)
    ensures r.Ok? ==> r.value.title == st.title && r.value.files == st.files && r.value.reference == st.reference
  {
    var n :- CountAt(lines, k + 1);
    if k + 2 >= |lines| then Err(MissingLine)
    else
      var names := Tokens(lines[k + 2]);
      if n > |names| then Err(MissingToken)
      else
        var declared := names[..RangeLength(n)];
        var order := Dedupe(declared);
        Ok(st.(mats := Some(FreshTable(order))))
  }

  // ---------------------------------------------------------------------------
  // [BRANCH]
  // ---------------------------------------------------------------------------

  /** Field `f` of a branch record read as an integer. */
  function Field(val: seq<string>, f: nat): (r: Result<int>)
    ensures r.Ok? <==> f < |val| && ParseInt(val[f]).Some?
    ensures r.Ok? ==> ParseInt(val[f]) == Some(r.value)
  {
    if f >= |val| then Err(MissingToken) else ParseIntOrFail(val[f])
  }

  /** One branch record `name temp file burnup universe branch`: the named
      material, which must already be declared, gains one entry at the end of
      each of its five lists.  Extra fields are ignored. */
  function AddRecord(val: seq<string>, mats: Option<MatTable>): (r: Result<MatTable>)
    ensures r.Ok? <==>
      && mats.Some? && |val| >= 6 && val[0] in mats.value.recs
      && ParseInt(val[1]).Some? && ParseInt(val[2]).Some? && ParseInt(val[3]).Some?
      && ParseInt(val[4]).Some? && ParseInt(val[5]).Some?
    ensures r.Err? && mats.None? ==> r.error == NoMaterials
    ensures r.Ok? ==>
      && r.value.order == mats.value.order
      && r.value.recs.Keys == mats.value.recs.Keys
      && (forall name :: name in mats.value.recs && name != val[0] ==> r.value.recs[name] == mats.value.recs[name])
      && r.value.recs[val[0]] == MatRecord(
           mats.value.recs[val[0]].temps + [ParseInt(val[1]).value],
           mats.value.recs[val[0]].file + [ParseInt(val[2]).value],
           mats.value.recs[val[0]].burn + [ParseInt(val[3]).value],
           mats.value.recs[val[0]].uni + [ParseInt(val[4]).value],
           mats.value.recs[val[0]].bran + [ParseInt(val[5]).value])
  {
    if mats.None? then Err(NoMaterials)
    else if |val| == 0 then Err(MissingToken)
    else if val[0] !in mats.value.recs then Err(UnknownMaterial)
    else
      var temp :- Field(val, 1);
      var file :- Field(val, 2);
      var burn :- Field(val, 3);
      var uni :- Field(val, 4);
      var bran :- Field(val, 5);
      var rec := mats.value.recs[val[0]];
      var rec' := MatRecord(rec.temps + [temp], rec.file + [file], rec.burn + [burn], rec.uni + [uni], rec.bran + [bran]);
      Ok(mats.value.(recs := mats.value.recs[val[0] := rec']))
  }

  /** Adding a record keeps the dictionary well formed. */
  lemma AddRecordKeepsTable(val: seq<string>, mats: Option<MatTable>)
    requires AddRecord(val, mats).Ok?
    ensures TableOk(mats.value) ==> TableOk(AddRecord(val, mats).value)
  {
  }

  /** A branch record `AddRecord` accepts into a dictionary with the
      material names of `t`. */
  predicate RecordOk(val: seq<string>, t: MatTable) {
    && |val| >= 6 && val[0] in t.recs
    && ParseInt(val[1]).Some? && ParseInt(val[2]).Some? && ParseInt(val[3]).Some?
    && ParseInt(val[4]).Some? && ParseInt(val[5]).Some?
  }

  /** Lines `j` to `j + count - 1` all hold records `AddRecord` accepts. */
  predicate RecordsOk(lines: seq<string>, j: int, count: int, t: MatTable) {
    forall e :: j <= e < j + count && 0 <= e < |lines| ==> RecordOk(Tokens(lines[e]), t)
  }

  lemma RecordsOkStep(lines: seq<string>, j: int, count: int, t: MatTable)
    requires 0 < count && 0 <= j < |lines|
    ensures RecordsOk(lines, j, count, t) <==>
      RecordOk(Tokens(lines[j]), t) && RecordsOk(lines, j + 1, count - 1, t)
  {
    if RecordOk(Tokens(lines[j]), t) && RecordsOk(lines, j + 1, count - 1, t) {
      forall e | j <= e < j + count && 0 <= e < |lines|
        ensures RecordOk(Tokens(lines[e]), t)
      {
        if e > j {
          assert j + 1 <= e < j + 1 + (count - 1);
        }
      }
    }
  }

  /** Whether a record is accepted depends only on the declared names. */
  lemma RecordsOkKeys(lines: seq<string>, j: int, count: int, t: MatTable, u: MatTable)
    requires t.recs.Keys == u.recs.Keys
    ensures RecordsOk(lines, j, count, t) <==> RecordsOk(lines, j, count, u)
  {
  }

  /** Field `f` of a record as an integer (0 where it is not one). */
  function IntField(val: seq<string>, f: nat): int {
    if f < |val| && ParseInt(val[f]).Some? then ParseInt(val[f]).value else 0
  }

  /** Field `f` of each record of `vals`, in order. */
  function Column(vals: seq<seq<string>>, f: nat): (r: seq<int>)
    ensures |r| == |vals|
    ensures forall e :: 0 <= e < |vals| ==> r[e] == IntField(vals[e], f)
  {
    if vals == [] then [] else [IntField(vals[0], f)] + Column(vals[1..], f)
  }

  /** `rec` with one entry appended to each of its lists per record of
      `vals`, in order. */
  function Appended(rec: MatRecord, vals: seq<seq<string>>): MatRecord {
    MatRecord(rec.temps + Column(vals, 1), rec.file + Column(vals, 2), rec.burn + Column(vals, 3),
              rec.uni + Column(vals, 4), rec.bran + Column(vals, 5))
  }

  lemma {:induction false} ColumnConcat(a: seq<seq<string>>, b: seq<seq<string>>, f: nat)
    ensures Column(a + b, f) == Column(a, f) + Column(b, f)
  {
    if a == [] {
      assert a + b == b;
    } else {
      assert (a + b)[1..] == a[1..] + b;
      ColumnConcat(a[1..], b, f);
    }
  }

  /** Appending the columns of two runs of records one after the other
      appends the column of their concatenation. */
  lemma ColumnAppend(xs: seq<int>, a: seq<seq<string>>, b: seq<seq<string>>, f: nat)
    ensures xs + Column(a, f) + Column(b, f) == xs + Column(a + b, f)
  {
    ColumnConcat(a, b, f);
    AppendAssoc(xs, Column(a, f), Column(b, f));
  }

  lemma AppendAssoc(x: seq<int>, y: seq<int>, z: seq<int>)
    ensures x + y + z == x + (y + z)
  {
  }

  lemma AppendedConcat(rec: MatRecord, a: seq<seq<string>>, b: seq<seq<string>>)
    ensures Appended(Appended(rec, a), b) == Appended(rec, a + b)
  {
    ColumnAppend(rec.temps, a, b, 1);
    ColumnAppend(rec.file, a, b, 2);
    ColumnAppend(rec.burn, a, b, 3);
    ColumnAppend(rec.uni, a, b, 4);
    ColumnAppend(rec.bran, a, b, 5);
  }

  /** The fields of the lines among the `count` lines from line `j` whose
      first field is `name`, in line order. */
  function RecordsFor(lines: seq<string>, j: nat, count: int, name: string): (r: seq<seq<string>>)
    ensures forall e :: 0 <= e < |r| ==> |r[e]| > 0 && r[e][0] == name
    decreases count
  {
    if count <= 0 || j >= |lines| then []
    else
      var val := Tokens(lines[j]);
      (if |val| > 0 && val[0] == name then [val] else []) + RecordsFor(lines, j + 1, count - 1, name)
  }

  /** A record appends its own fields to the material it names and leaves
      every other material as it was. */
  lemma AddRecordAppended(val: seq<string>, t: MatTable, m: MatTable, name: string)
    requires AddRecord(val, Some(t)) == Ok(m) && name in t.recs
    ensures m.recs[name] == Appended(t.recs[name], if val[0] == name then [val] else [])
  {
    var rec := t.recs[name];
    if val[0] == name {
      assert [val][1..] == [];
      assert Column([val], 1) == [ParseInt(val[1]).value];
      assert Column([val], 2) == [ParseInt(val[2]).value];
      assert Column([val], 3) == [ParseInt(val[3]).value];
      assert Column([val], 4) == [ParseInt(val[4]).value];
      assert Column([val], 5) == [ParseInt(val[5]).value];
    } else {
      assert m.recs[name] == rec;
      assert rec.temps + [] == rec.temps && rec.file + [] == rec.file && rec.burn + [] == rec.burn;
      assert rec.uni + [] == rec.uni && rec.bran + [] == rec.bran;
    }
  }

  /** The records of `lines[j]` onwards, seen from the table before and
      after the first one. */
  lemma AddRecordsStep(lines: seq<string>, j: nat, count: int, t: MatTable, m: MatTable, rest: MatTable)
    requires 0 < count && j < |lines|
    requires AddRecord(Tokens(lines[j]), Some(t)) == Ok(m)
    requires rest.recs.Keys == m.recs.Keys
    requires forall name :: name in m.recs ==> rest.recs[name] == Appended(m.recs[name], RecordsFor(lines, j + 1, count - 1, name))
    ensures forall name :: name in t.recs ==> rest.recs[name] == Appended(t.recs[name], RecordsFor(lines, j, count, name))
  {
    var val := Tokens(lines[j]);
    forall name | name in t.recs
      ensures rest.recs[name] == Appended(t.recs[name], RecordsFor(lines, j, count, name))
    {
      var head := if val[0] == name then [val] else [];
      var tail := RecordsFor(lines, j + 1, count - 1, name);
      assert RecordsFor(lines, j, count, name) == head + tail;
      AddRecordAppended(val, t, m, name);
      AppendedConcat(t.recs[name], head, tail);
    }
  }

  /** The `count` records starting at line `j`. */
  function AddRecords(lines: seq<string>, j: nat, count: int, mats: Option<MatTable>): (r: Result<Option<MatTable>>)
    ensures count <= 0 ==> r == Ok(mats)
    ensures r.Ok? <==>
      || count <= 0
      || (mats.Some? && j + count <= |lines| && RecordsOk(lines, j, count, mats.value))
    ensures r.Ok? && mats.Some? ==>
      && r.value.Some? && r.value.value.recs.Keys == mats.value.recs.Keys
      && forall name :: name in mats.value.recs ==>
           r.value.value.recs[name] == Appended(mats.value.recs[name], RecordsFor(lines, j, count, name))
    ensures r.Ok? && count > 0 ==> r.value.Some? && j + count <= |lines|
    ensures r.Ok? && mats.Some? ==> r.value.Some? && r.value.value.order == mats.value.order
    ensures r.Ok? && mats.Some? && TableOk(mats.value) ==> TableOk(r.value.value)
    ensures r.Ok? && mats.Some? ==> forall name :: name in mats.value.recs ==>
      && name in r.value.value.recs
      && mats.value.recs[name].temps <= r.value.value.recs[name].temps
    ensures r.Err? && mats.None? && count > 0 && j < |lines| ==> r.error == NoMaterials
    decreases count
  {
    if count <= 0 then Ok(mats)
    else if j >= |lines| then Err(MissingLine)
    else
      var val := Tokens(lines[j]);
      var added := AddRecord(val, mats);
      if added.Err? then
        if mats.Some? then
          RecordsOkStep(lines, j, count, mats.value);
          Err(added.error)
        else Err(added.error)
      else
        var m := added.value;
        AddRecordKeepsTable(val, mats);
        RecordsOkKeys(lines, j + 1, count - 1, mats.value, m);
        RecordsOkStep(lines, j, count, mats.value);
        var rest := AddRecords(lines, j + 1, count - 1, Some(m));
        if rest.Ok? then
          AddRecordsStep(lines, j, count, mats.value, m, rest.value.value);
          rest
        else rest
  }

  /** `[BRANCH]`: the count line, then that many records. */
  function OnBranch(lines: seq<string>, k: nat, st: ControlState): (r: Result<ControlState>)
    ensures r.Ok? <==>
      && CountAt(lines, k + 1).Ok?
      && var n := CountAt(lines, k + 1).value;
         || n <= 0
         || (st.mats.Some? && k + 2 + n <= |lines| && RecordsOk(lines, k + 2, n, st.mats.value))
    ensures r.Ok? && st.mats.Some? ==>
      && r.value.mats.Some? && r.value.mats.value.recs.Keys == st.mats.value.recs.Keys
      && forall name :: name in st.mats.value.recs ==>
           r.value.mats.value.recs[name]
             == Appended(st.mats.value.recs[name], RecordsFor(lines, k + 2, CountAt(lines, k + 1).value, name))
    ensures r.Ok? && st.mats.None? ==> r.value.mats.None?
    ensures r.Ok? ==> r.value.title == st.title && r.value.files == st.files && r.value.reference == st.reference
    ensures r.Ok? ==> CountAt(lines, k + 1).Ok?
    ensures r.Ok? && st.mats.None? ==> CountAt(lines, k + 1).value <= 0
    ensures r.Ok? && StateOk(st) ==> StateOk(r.value)
    ensures r.Ok? && st.mats.Some? ==> r.value.mats.Some? && r.value.mats.value.order == st.mats.value.order
  {
    var n :- CountAt(lines, k + 1);
    var mats :- AddRecords(lines, k + 2, n, st.mats);
    Ok(st.(mats := mats))
  }

  // ---------------------------------------------------------------------------
  // FILES
  // ---------------------------------------------------------------------------

  /** Entry `e` of a FILES section whose entries start at line `j` exists
      and has three fields (input, tag, reference). */
  predicate HasRef(lines: seq<string>, j: int, e: int) {
    0 <= j + e < |lines| && |Tokens(lines[j + e])| == 3
  }

  /** The reference token in force at entry `t` of a FILES section whose
      entries start at line `j`: the third field of the last three-field
      entry from entry `i0` up to `t`, or `ref` when there is none. */
  function RefAt(lines: seq<string>, j: int, i0: int, t: int, ref: Option<string>): Option<string>
    decreases t - i0
  {
    if t < i0 then ref
    else if HasRef(lines, j, t) then Some(Tokens(lines[j + t])[2])
    else RefAt(lines, j, i0, t - 1, ref)
  }

  /** A reference persists: with no three-field entry in `[i0, t]` the one
      in force before `i0` stays. */
  lemma {:induction false} RefAtNone(lines: seq<string>, j: int, i0: int, t: int, ref: Option<string>)
    requires forall e :: i0 <= e <= t ==> !HasRef(lines, j, e)
    ensures RefAt(lines, j, i0, t, ref) == ref
    decreases t - i0
  {
    if t >= i0 {
      assert !HasRef(lines, j, t);
      RefAtNone(lines, j, i0, t - 1, ref);
    }
  }

  /** The last three-field entry `e` in `[i0, t]` sets the reference in
      force at `t` to its third field. */
  lemma {:induction false} RefAtLast(lines: seq<string>, j: int, i0: int, t: int, ref: Option<string>, e: int)
    requires i0 <= e <= t && HasRef(lines, j, e)
    requires forall e' :: e < e' <= t ==> !HasRef(lines, j, e')
    ensures RefAt(lines, j, i0, t, ref) == Some(Tokens(lines[j + e])[2])
    decreases t - i0
  {
    if t > e {
      assert !HasRef(lines, j, t);
      RefAtLast(lines, j, i0, t - 1, ref, e);
    }
  }

  /** The reference after entry `i` is the one in force at `i`, so starting
      the search one entry later from it changes nothing. */
  lemma {:induction false} RefAtShift(lines: seq<string>, j: int, i: int, t: int, ref: Option<string>)
    requires i < t
    ensures RefAt(lines, j, i + 1, t, RefAt(lines, j, i, i, ref)) == RefAt(lines, j, i, t, ref)
    decreases t - i
  {
    var start := RefAt(lines, j, i, i, ref);
    if !HasRef(lines, j, t) {
      assert RefAt(lines, j, i + 1, t, start) == RefAt(lines, j, i + 1, t - 1, start);
      assert RefAt(lines, j, i, t, ref) == RefAt(lines, j, i, t - 1, ref);
      if t > i + 1 {
        RefAtShift(lines, j, i, t - 1, ref);
      }
    }
  }

  /** A converter for one FILES entry: its fields, the reference token in
      force, and its 1-based number. */
  type Loader = (seq<string>, Option<string>, int) -> Result<Library>

  /** The conversion a FILES entry `in tag [ref]` asks for: the backend its
      tag selects, run on its input file. */
  function LoadEntry(toks: seq<string>, ref: Option<string>, number: int, env: Env): (r: Result<Library>)
    ensures |toks| >= 2 && SelectBackend(toks[1]).Err? ==> r == Err(UnknownFormat)
    ensures |toks| >= 2 && SelectBackend(toks[1]).Ok? ==> r == Load(SelectBackend(toks[1]).value, toks[0], ref, number, env)
  {
    if |toks| < 2 then Err(WrongFieldCount)
    else
      var b :- SelectBackend(toks[1]);
      Load(b, toks[0], ref, number, env)
  }

  function EntryLoader(env: Env): Loader {
    (toks, ref, number) => LoadEntry(toks, ref, number, env)
  }

  /** Entry `t` (line `j + t`) has two or three fields and `load` converts
      it, with reference `ref`, to `lib`. */
  ghost predicate EntryLoads(lines: seq<string>, j: int, t: int, ref: Option<string>, load: Loader, lib: Library) {
    && 0 <= j + t < |lines|
    && (|Tokens(lines[j + t])| == 2 || |Tokens(lines[j + t])| == 3)
    && load(Tokens(lines[j + t]), ref, t + 1) == Ok(lib)
  }

  /** Entry `t` (line `j + t`) exists, has two or three fields, and `load`
      converts it with reference `ref`. */
  predicate EntryOk(lines: seq<string>, j: int, t: int, ref: Option<string>, load: Loader) {
    && 0 <= j + t < |lines|
    && (|Tokens(lines[j + t])| == 2 || |Tokens(lines[j + t])| == 3)
    && load(Tokens(lines[j + t]), ref, t + 1).Ok?
  }

  /** Every entry from `i` to `n - 1` is accepted, each with the reference
      in force at it when the search for three-field entries starts at `i`
      with `ref`. */
  predicate EntriesOk(lines: seq<string>, j: int, i: int, n: int, ref: Option<string>, load: Loader) {
    forall t :: i <= t < n ==> EntryOk(lines, j, t, RefAt(lines, j, i, t, ref), load)
  }

  /** The entries from `i` on are all accepted exactly when entry `i` is and
      the later ones are with the reference entry `i` leaves in force. */
  lemma EntriesOkShift(lines: seq<string>, j: int, i: int, n: int, ref: Option<string>, load: Loader)
    requires i < n
    ensures EntriesOk(lines, j, i, n, ref, load) <==>
      EntryOk(lines, j, i, RefAt(lines, j, i, i, ref), load) && EntriesOk(lines, j, i + 1, n, RefAt(lines, j, i, i, ref), load)
  {
    var start := RefAt(lines, j, i, i, ref);
    forall t | i < t < n
      ensures RefAt(lines, j, i + 1, t, start) == RefAt(lines, j, i, t, ref)
    {
      RefAtShift(lines, j, i, t, ref);
    }
    if EntriesOk(lines, j, i, n, ref, load) {
      var next := i + 1;
      forall t | next <= t < n
        ensures EntryOk(lines, j, t, RefAt(lines, j, next, t, start), load)
      {
        assert EntryOk(lines, j, t, RefAt(lines, j, i, t, ref), load);
      }
    }
    if EntryOk(lines, j, i, start, load) && EntriesOk(lines, j, i + 1, n, start, load) {
      forall t | i <= t < n
        ensures EntryOk(lines, j, t, RefAt(lines, j, i, t, ref), load)
      {
        if t > i {
          assert EntryOk(lines, j, t, RefAt(lines, j, i + 1, t, start), load);
        }
      }
      assert EntriesOk(lines, j, i, n, ref, load);
    }
  }

  /** Entries `i` to `n - 1` of a FILES section whose entries start at line
      `j`; entry `i` is stored under key `i`.  A three-field entry sets the
      reference token, which stays in force for later entries. */
  function ReadFiles(lines: seq<string>, j: nat, i: nat, n: int,
                     ref: Option<string>, load: Loader): (r: Result<(map<int, Library>, Option<string>)>)
    ensures r.Ok? <==> EntriesOk(lines, j, i, n, ref, load)
    ensures r.Ok? ==> forall t :: t in r.value.0 <==> i <= t < n
    decreases n - i
  {
    if i >= n then Ok((map[], ref))
    else if j + i >= |lines| then
      assert !EntryOk(lines, j, i, RefAt(lines, j, i, i, ref), load);
      Err(MissingLine)
    else
      var toks := Tokens(lines[j + i]);
      if |toks| != 2 && |toks| != 3 then
        assert !EntryOk(lines, j, i, RefAt(lines, j, i, i, ref), load);
        Err(WrongFieldCount)
      else
        var ref' := if |toks| == 3 then Some(toks[2]) else ref;
        assert ref' == RefAt(lines, j, i, i, ref);
        EntriesOkShift(lines, j, i, n, ref, load);
        var lib := load(toks, ref', i + 1);
        if lib.Err? then
          assert !EntryOk(lines, j, i, RefAt(lines, j, i, i, ref), load);
          Err(lib.error)
        else
          var rest := ReadFiles(lines, j, i + 1, n, ref', load);
          if rest.Err? then Err(rest.error)
          else Ok((rest.value.0[i := lib.value], rest.value.1))
  }

  /** What a successful read tells about its first entry: the entry is
      well formed, it converts, and the rest of the section is read with the
      entry stored and the reference it leaves in force. */
  lemma ReadFilesStep(lines: seq<string>, j: nat, i: nat, n: int, ref: Option<string>, load: Loader)
    requires i < n
    requires ReadFiles(lines, j, i, n, ref, load).Ok?
    ensures j + i < |lines|
    ensures |Tokens(lines[j + i])| == 2 || |Tokens(lines[j + i])| == 3
    ensures load(Tokens(lines[j + i]), RefAt(lines, j, i, i, ref), i + 1).Ok?
    ensures ReadFiles(lines, j, i + 1, n, RefAt(lines, j, i, i, ref), load).Ok?
    ensures ReadFiles(lines, j, i, n, ref, load).value.0
      == ReadFiles(lines, j, i + 1, n, RefAt(lines, j, i, i, ref), load).value.0[
           i := load(Tokens(lines[j + i]), RefAt(lines, j, i, i, ref), i + 1).value]
  {
  }

  /** Every entry of a successfully read FILES section is converted by the
      loader, with the reference token in force at that entry. */
  lemma {:induction false} ReadFilesEntries(lines: seq<string>, j: nat, i: nat, n: int, ref: Option<string>, load: Loader)
    requires ReadFiles(lines, j, i, n, ref, load).Ok?
    ensures forall t :: i <= t < n ==>
      EntryLoads(lines, j, t, RefAt(lines, j, i, t, ref), load, ReadFiles(lines, j, i, n, ref, load).value.0[t])
    decreases n - i
  {
    if i < n {
      ReadFilesStep(lines, j, i, n, ref, load);
      var ref' := RefAt(lines, j, i, i, ref);
      var lib := load(Tokens(lines[j + i]), ref', i + 1).value;
      var r := ReadFiles(lines, j, i, n, ref, load).value.0;
      var rest := ReadFiles(lines, j, i + 1, n, ref', load).value.0;
      ReadFilesEntries(lines, j, i + 1, n, ref', load);
      forall t | i <= t < n
        ensures EntryLoads(lines, j, t, RefAt(lines, j, i, t, ref), load, r[t])
      {
        if t == i {
          assert r[i] == lib;
        } else {
          assert r[t] == rest[t];
          RefAtShift(lines, j, i, t, ref);
        }
      }
    }
  }

  /** `FILES`: the count line, then that many entries, each converted by
      `load` into a fresh dictionary keyed 0, 1, ... */
  function OnFiles(lines: seq<string>, k: nat, st: ControlState, load: Loader): (r: Result<ControlState>)
    ensures r.Ok? <==>
      && CountAt(lines, k + 1).Ok?
      && EntriesOk(lines, k + 2, 0, CountAt(lines, k + 1).value, st.reference, load)
    ensures r.Ok? ==> r.value.title == st.title && r.value.mats == st.mats
    ensures r.Ok? ==> r.value.files.Some?
    ensures r.Ok? ==> forall t :: t in r.value.files.value <==> 0 <= t < CountAt(lines, k + 1).value
    ensures r.Ok? ==> forall t :: 0 <= t < CountAt(lines, k + 1).value ==>
      EntryLoads(lines, k + 2, t, RefAt(lines, k + 2, 0, t, st.reference), load, r.value.files.value[t])
  {
    var n :- CountAt(lines, k + 1);
    var res :- ReadFiles(lines, k + 2, 0, n, st.reference, load);
    ReadFilesEntries(lines, k + 2, 0, n, st.reference, load);
    Ok(st.(files := Some(res.0), reference := res.1))
  }

  // ---------------------------------------------------------------------------
  // The reading loop
  // ---------------------------------------------------------------------------

  /** One line: the four markers are matched in turn, and each one present
      acts on the state the previous ones left.  `load` converts a FILES
      entry; `ReadInput` passes the environment's `EntryLoader`. */
  function Step(lines: seq<string>, k: nat, st: ControlState, load: Loader): (r: Result<ControlState>)
    requires k < |lines|
    ensures r.Ok? && StateOk(st) ==> StateOk(r.value)
    ensures r.Ok? && !Contains(lines[k], TITLE) ==> r.value.title == st.title
    ensures r.Ok? && !Contains(lines[k], MAT) && st.mats.None? ==> r.value.mats.None?
    ensures r.Ok? && Contains(lines[k], MAT) ==> r.value.mats.Some?
  {
    var st1 :- if Contains(lines[k], TITLE) then OnTitle(lines, k, st) else Ok(st);
    var st2 :- if Contains(lines[k], MAT) then OnMat(lines, k, st1) else Ok(st1);
    var st3 :- if Contains(lines[k], BRANCH) then OnBranch(lines, k, st2) else Ok(st2);
    if Contains(lines[k], FILES) then OnFiles(lines, k, st3, load) else Ok(st3)
  }

  /** A line holding none of the four section markers. */
  predicate Unmarked(line: string) {
    !Contains(line, TITLE) && !Contains(line, MAT) && !Contains(line, BRANCH) && !Contains(line, FILES)
  }

  /** A line with exactly one marker runs exactly that marker's handler; an
      unmarked line changes nothing; a failing `[TITLE]` stops the line
      before any later marker acts. */
  lemma StepDispatch(lines: seq<string>, k: nat, st: ControlState, load: Loader)
    requires k < |lines|
    ensures Unmarked(lines[k]) ==> Step(lines, k, st, load) == Ok(st)
    ensures Contains(lines[k], TITLE) && !Contains(lines[k], MAT) && !Contains(lines[k], BRANCH) && !Contains(lines[k], FILES) ==>
      Step(lines, k, st, load) == OnTitle(lines, k, st)
    ensures !Contains(lines[k], TITLE) && Contains(lines[k], MAT) && !Contains(lines[k], BRANCH) && !Contains(lines[k], FILES) ==>
      Step(lines, k, st, load) == OnMat(lines, k, st)
    ensures !Contains(lines[k], TITLE) && !Contains(lines[k], MAT) && Contains(lines[k], BRANCH) && !Contains(lines[k], FILES) ==>
      Step(lines, k, st, load) == OnBranch(lines, k, st)
    ensures !Contains(lines[k], TITLE) && !Contains(lines[k], MAT) && !Contains(lines[k], BRANCH) && Contains(lines[k], FILES) ==>
      Step(lines, k, st, load) == OnFiles(lines, k, st, load)
    ensures Contains(lines[k], TITLE) && OnTitle(lines, k, st).Err? ==>
      Step(lines, k, st, load) == Err(OnTitle(lines, k, st).error)
  {
  }

  /** The lines from `k` on, read one after another; the first failing line
      aborts the read. */
  function Run(lines: seq<string>, k: nat, st: ControlState, load: Loader): (r: Result<ControlState>)
    ensures r.Ok? && StateOk(st) ==> StateOk(r.value)
    decreases |lines| - k
  {
    if k >= |lines| then Ok(st)
    else
      var st1 :- Step(lines, k, st, load);
      Run(lines, k + 1, st1, load)
  }

  lemma RunUnfold(lines: seq<string>, k: nat, st: ControlState, load: Loader)
    ensures k >= |lines| ==> Run(lines, k, st, load) == Ok(st)
    ensures k < |lines| && Step(lines, k, st, load).Err? ==>
      Run(lines, k, st, load) == Err(Step(lines, k, st, load).error)
    ensures k < |lines| && Step(lines, k, st, load).Ok? ==>
      Run(lines, k, st, load) == Run(lines, k + 1, Step(lines, k, st, load).value, load)
  {
  }

  /** Unmarked lines leave the state as it is. */
  lemma {:induction false} RunUnmarked(lines: seq<string>, k: nat, st: ControlState, load: Loader)
    requires forall j :: k <= j < |lines| ==> Unmarked(lines[j])
    ensures Run(lines, k, st, load) == Ok(st)
    decreases |lines| - k
  {
    if k < |lines| {
      StepDispatch(lines, k, st, load);
      RunUnmarked(lines, k + 1, st, load);
    }
  }

  /** Without any `[MAT]` line the material dictionary is never created. */
  lemma {:induction false} RunWithoutMat(lines: seq<string>, k: nat, st: ControlState, load: Loader)
    requires st.mats.None?
    requires NoLineHas(lines, k, |lines|, MAT)
    requires Run(lines, k, st, load).Ok?
    ensures Run(lines, k, st, load).value.mats.None?
    decreases |lines| - k
  {
    if k < |lines| {
      var step := Step(lines, k, st, load);
      assert step.Ok? && Run(lines, k, st, load) == Run(lines, k + 1, step.value, load);
      assert !Contains(lines[k], MAT) && NoLineHas(lines, k + 1, |lines|, MAT);
      RunWithoutMat(lines, k + 1, step.value, load);
    }
  }

  /** Without any `[TITLE]` line no output path is ever set. */
  lemma {:induction false} RunWithoutTitle(lines: seq<string>, k: nat, st: ControlState, load: Loader)
    requires st.title.None?
    requires NoLineHas(lines, k, |lines|, TITLE)
    requires Run(lines, k, st, load).Ok?
    ensures Run(lines, k, st, load).value.title.None?
    decreases |lines| - k
  {
    if k < |lines| {
      var step := Step(lines, k, st, load);
      assert step.Ok? && Run(lines, k, st, load) == Run(lines, k + 1, step.value, load);
      assert !Contains(lines[k], TITLE) && NoLineHas(lines, k + 1, |lines|, TITLE);
      RunWithoutTitle(lines, k + 1, step.value, load);
    }
  }

  // ---------------------------------------------------------------------------
  // Resolving branch records
  // ---------------------------------------------------------------------------

  /** The bundle branch record `i` of `rec` names: file, burnup, universe and
      branch numbers are 1-based. */
  function CaseBundle(rec: MatRecord, files: Option<map<int, Library>>, i: nat): (r: Result<Bundle>)
    requires Aligned(rec) && i < |rec.temps|
    ensures r.Ok? <==>
      && files.Some? && rec.file[i] - 1 in files.value
      && (rec.burn[i] - 1, rec.uni[i] - 1, rec.bran[i] - 1) in files.value[rec.file[i] - 1]
    ensures r.Ok? ==> r.value == files.value[rec.file[i] - 1][(rec.burn[i] - 1, rec.uni[i] - 1, rec.bran[i] - 1)]
    ensures r.Err? ==> r.error == (if files.None? then NoFiles
                                   else if rec.file[i] - 1 !in files.value then UnknownFile
                                   else UnknownBundle)
  {
    if files.None? then Err(NoFiles)
    else if rec.file[i] - 1 !in files.value then Err(UnknownFile)
    else
      var key := (rec.burn[i] - 1, rec.uni[i] - 1, rec.bran[i] - 1);
      if key !in files.value[rec.file[i] - 1] then Err(UnknownBundle)
      else Ok(files.value[rec.file[i] - 1][key])
  }

  /** Record `i` is the last one with its temperature. */
  ghost predicate LastWithTemp(temps: seq<int>, i: int) {
    0 <= i < |temps| && forall i2 :: i < i2 < |temps| ==> temps[i2] != temps[i]
  }

  /** Some record from `i` on has temperature text `key`. */
  ghost predicate NamesTemp(temps: seq<int>, i: int, key: string) {
    exists t :: 0 <= t < |temps| && i <= t && key == IntToString(temps[t])
  }

  /** The records of `rec` from `i` on, added in order to `cases` under
      `str(temp)`; a later record with the same temperature overwrites. */
  function ResolveCases(rec: MatRecord, files: Option<map<int, Library>>, i: nat, cases: map<string, Bundle>)
    : (r: Result<map<string, Bundle>>)
    requires Aligned(rec) && i <= |rec.temps|
    ensures r.Ok? <==> forall t :: i <= t < |rec.temps| ==> CaseBundle(rec, files, t).Ok?
    ensures r.Ok? ==> forall key :: key in r.value <==> key in cases || NamesTemp(rec.temps, i, key)
    decreases |rec.temps| - i
  {
    if i == |rec.temps| then Ok(cases)
    else
      var b :- CaseBundle(rec, files, i);
      ResolveCases(rec, files, i + 1, cases[IntToString(rec.temps[i]) := b])
  }

  /** The last record with a given temperature decides that temperature's
      bundle. */
  lemma {:induction false} ResolveCasesLast(rec: MatRecord, files: Option<map<int, Library>>, i: nat,
                                            cases: map<string, Bundle>, t: int)
    requires Aligned(rec) && i <= t && LastWithTemp(rec.temps, t)
    requires ResolveCases(rec, files, i, cases).Ok?
    ensures ResolveCases(rec, files, i, cases).value[IntToString(rec.temps[t])] == CaseBundle(rec, files, t).value
    decreases |rec.temps| - i
  {
    var b := CaseBundle(rec, files, i).value;
    var cases' := cases[IntToString(rec.temps[i]) := b];
    assert ResolveCases(rec, files, i, cases) == ResolveCases(rec, files, i + 1, cases');
    if t == i {
      forall t2 | i < t2 < |rec.temps|
        ensures IntToString(rec.temps[i]) != IntToString(rec.temps[t2])
      {
        if IntToString(rec.temps[i]) == IntToString(rec.temps[t2]) {
          IntToStringInjective(rec.temps[i], rec.temps[t2]);
        }
      }
      ResolveCasesUntouched(rec, files, i + 1, cases', IntToString(rec.temps[i]));
    } else {
      ResolveCasesLast(rec, files, i + 1, cases', t);
    }
  }

  /** A key no remaining record names keeps its bundle. */
  lemma {:induction false} ResolveCasesUntouched(rec: MatRecord, files: Option<map<int, Library>>, i: nat,
                                                 cases: map<string, Bundle>, key: string)
    requires Aligned(rec) && i <= |rec.temps|
    requires ResolveCases(rec, files, i, cases).Ok?
    requires key in cases && !NamesTemp(rec.temps, i, key)
    ensures ResolveCases(rec, files, i, cases).value[key] == cases[key]
    decreases |rec.temps| - i
  {
    if i < |rec.temps| {
      var b := CaseBundle(rec, files, i).value;
      var cases' := cases[IntToString(rec.temps[i]) := b];
      assert ResolveCases(rec, files, i, cases) == ResolveCases(rec, files, i + 1, cases');
      assert key != IntToString(rec.temps[i]);
      ResolveCasesUntouched(rec, files, i + 1, cases', key);
    }
  }

  /** One material's output: its temperature list, and the bundle of each
      record under its temperature. */
  function ResolveMat(rec: MatRecord, files: Option<map<int, Library>>): (r: Result<MatOut>)
    requires Aligned(rec)
    ensures r.Ok? <==> forall t :: 0 <= t < |rec.temps| ==> CaseBundle(rec, files, t).Ok?
    ensures r.Ok? ==> r.value.temp == rec.temps
    ensures r.Ok? ==> forall key :: key in r.value.cases <==> NamesTemp(rec.temps, 0, key)
    ensures r.Ok? ==> forall t :: LastWithTemp(rec.temps, t) ==>
      IntToString(rec.temps[t]) in r.value.cases &&
      r.value.cases[IntToString(rec.temps[t])] == CaseBundle(rec, files, t).value
  {
    var cases :- ResolveCases(rec, files, 0, map[]);
    forall t | LastWithTemp(rec.temps, t)
      ensures cases[IntToString(rec.temps[t])] == CaseBundle(rec, files, t).value
    {
      ResolveCasesLast(rec, files, 0, map[], t);
    }
    Ok(MatOut(rec.temps, cases))
  }

  /** The materials of `order`, resolved in declaration order. */
  function ResolveMats(order: seq<string>, recs: map<string, MatRecord>, files: Option<map<int, Library>>)
    : (r: Result<map<string, MatOut>>)
    requires forall name :: name in order ==> name in recs && Aligned(recs[name])
    ensures r.Ok? <==> forall name :: name in order ==> ResolveMat(recs[name], files).Ok?
    ensures r.Ok? ==> r.value.Keys == set name | name in order
    ensures r.Ok? ==> forall name :: name in order ==> r.value[name] == ResolveMat(recs[name], files).value
  {
    if order == [] then Ok(map[])
    else
      var out :- ResolveMat(recs[order[0]], files);
      var rest :- ResolveMats(order[1..], recs, files);
      Ok(rest[order[0] := out])
  }

  /** `read_input`: read every line, then resolve every material's records
      and produce the document for the path given under `[TITLE]`.  A file
      with no material dictionary fails before resolving; one with no
      output path fails when the document is written. */
  function ReadInput(lines: seq<string>, env: Env): (r: Result<Output>)
    ensures r.Ok? <==>
      && Run(lines, 0, InitialState, EntryLoader(env)).Ok?
      && var st := Run(lines, 0, InitialState, EntryLoader(env)).value;
         && st.mats.Some?
         && ResolveMats(st.mats.value.order, st.mats.value.recs, st.files).Ok?
         && st.title.Some?
    ensures r.Ok? ==> Run(lines, 0, InitialState, EntryLoader(env)).Ok?
    ensures r.Ok? ==>
      && Run(lines, 0, InitialState, EntryLoader(env)).value.mats.Some?
      && Run(lines, 0, InitialState, EntryLoader(env)).value.title == Some(r.value.path)
      && r.value.doc.Keys == Run(lines, 0, InitialState, EntryLoader(env)).value.mats.value.recs.Keys
    ensures Run(lines, 0, InitialState, EntryLoader(env)).Ok? && Run(lines, 0, InitialState, EntryLoader(env)).value.mats.None? ==>
      r == Err(NoMaterials)
  {
    var st :- Run(lines, 0, InitialState, EntryLoader(env));
    if st.mats.None? then Err(NoMaterials)
    else
      var t := st.mats.value;
      var doc :- ResolveMats(t.order, t.recs, st.files);
      if st.title.None? then Err(NoOutputFile)
      else Ok(Output(st.title.value, doc))
  }

  /** Each material of the document lists its temperatures and, under the
      text of each temperature, the bundle its last record with that
      temperature names. */
  lemma ReadInputCases(lines: seq<string>, env: Env, name: string, t: nat)
    requires ReadInput(lines, env).Ok?
    requires name in Run(lines, 0, InitialState, EntryLoader(env)).value.mats.value.recs
    requires LastWithTemp(Run(lines, 0, InitialState, EntryLoader(env)).value.mats.value.recs[name].temps, t)
    ensures Aligned(Run(lines, 0, InitialState, EntryLoader(env)).value.mats.value.recs[name])
    ensures name in ReadInput(lines, env).value.doc
    ensures ReadInput(lines, env).value.doc[name].temp == Run(lines, 0, InitialState, EntryLoader(env)).value.mats.value.recs[name].temps
    ensures ReadInput(lines, env).value.doc[name].cases[
              IntToString(Run(lines, 0, InitialState, EntryLoader(env)).value.mats.value.recs[name].temps[t])]
            == CaseBundle(Run(lines, 0, InitialState, EntryLoader(env)).value.mats.value.recs[name],
                          Run(lines, 0, InitialState, EntryLoader(env)).value.files, t).value
  {
    var st := Run(lines, 0, InitialState, EntryLoader(env)).value;
    assert StateOk(st);
  }

  /** A control file without any `[MAT]` line is rejected. */
  lemma NoMatSectionFails(lines: seq<string>, env: Env)
    requires forall j :: 0 <= j < |lines| ==> !Contains(lines[j], MAT)
    ensures ReadInput(lines, env).Err?
  {
    if Run(lines, 0, InitialState, EntryLoader(env)).Ok? {
      NoLineHasOfForall(lines, 0, |lines|, MAT);
      RunWithoutMat(lines, 0, InitialState, EntryLoader(env));
    }
  }

  /** A control file without any `[TITLE]` line is rejected. */
  lemma NoTitleSectionFails(lines: seq<string>, env: Env)
    requires forall j :: 0 <= j < |lines| ==> !Contains(lines[j], TITLE)
    ensures ReadInput(lines, env).Err?
  {
    if Run(lines, 0, InitialState, EntryLoader(env)).Ok? {
      NoLineHasOfForall(lines, 0, |lines|, TITLE);
      RunWithoutTitle(lines, 0, InitialState, EntryLoader(env));
    }
  }
}
