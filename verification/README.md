# Moltres cross-section converter, modelled in Dafny

This project models the core of `moltres_xs.py`, the script that turns
lattice-code output into the JSON group-constant document Moltres reads.
The modelled parts are:

- **The control file reader** (`read_input`). It reads four kinds of
  section: `[TITLE]` (the output path), `[MAT]` (the material names),
  `[BRANCH]` (one record per material temperature branch) and `FILES` (the
  cross-section files to convert, each tagged `scale`, `serpent` or
  `openmc`). It then resolves every branch record to the bundle it names
  and builds the per-material document.
- **The SCALE T16 backend** (`scale_xs`). It reads the header, creates the
  library, and scans the file forward, line by line. Substring markers
  (`Identifier`, `branch no.`, `Betas`, `Lambdas`, `total-transfer`,
  `fission`, `chi`, `detector`, `Scattering cross`) move three cursors and
  append values to the bundle under them. A multi-line reader collects
  float tokens up to the first token that is not a float.
- **The derived-quantity pass** (`fix_xs`). REMXS gains each group's
  out-scatter, taken from the row-major GTRANSFXS matrix. A nonzero FISSE
  becomes energy per fission.
- **The Serpent backend** (`serpent_xs`). It re-indexes the rows of a
  parsed Serpent results table into the same library. Each quantity keeps
  every other entry, which drops the interleaved uncertainties.

Modules:

- `Results` holds `Option`, `Result` and one `Error` per Python exception
  the converter can raise.
- `Text` models the Python string primitives the code relies on:
  `split()`, `in`, `find`, slicing, `int()` and `str()`.
- `XsLibrary` holds the library and its twelve quantity names.
- `DerivedQuantities` models `fix_xs`.
- `ScaleScanner` models the T16 scanner.
- `Serpent` models the re-indexing.
- `ControlFile` models `read_input`.

Python's nested integer-keyed dictionaries are flattened into one map keyed
by the triple (burnup, universe, branch). A lookup fails on exactly the
keys the Python would reject with `KeyError`. Every exception aborts the
conversion, so each operation returns a `Result`, and the first failure
propagates.

## Model

| member | source | states |
|---|---|---|
| Text.Tokens | python/moltres_xs.py:143 | every token `split()` yields is non-empty and holds no whitespace |
| Text.TokensOfJoin | python/moltres_xs.py:143 | splitting words joined by single spaces gives back exactly those words, in order |
| Text.Contains | python/moltres_xs.py:190 | the marker test `key in line` holds exactly when the key occurs at some position of the line |
| Text.Find | python/moltres_xs.py:200 | `find(',')` is -1 exactly when the line has no comma; otherwise it is the position of the first comma |
| Text.PySlice | python/moltres_xs.py:201 | with bounds inside the string, the Python slice is the ordinary substring; it is never longer than the string |
| Text.TokensOfLayout | python/moltres_xs.py:143 | splitting words laid out with any non-empty whitespace runs between them, any leading or trailing whitespace and a line terminator gives back exactly those words, in order |
| Text.Strip | python/moltres_xs.py:191 | stripping never lengthens a string, leaves non-blank ends, and yields the empty string exactly for an all-whitespace string |
| Text.ParseInt | python/moltres_xs.py:199-202 | `int()` of a blank string fails; a negative result needs a leading minus after stripping; an unsigned result comes from a valid digit string (digits with single underscores between them); the exact success condition and value are in ParseIntSpec |
| Text.ParseIntSpec | python/moltres_xs.py:199-202 | `int()` succeeds exactly when the stripped text is a valid digit string, optionally after one sign; the value is the digits' value, negated after a minus |
| Text.ParseIntPlusSign | python/moltres_xs.py:199-202 | `int("+5")` is 5 |
| Text.ParseIntLeadingZeros | python/moltres_xs.py:199-202 | `int(" 007\n")` is 7: padding and leading zeros are accepted |
| Text.ParseIntUnderscores | python/moltres_xs.py:199-202 | `int("1_000")` is 1000 |
| Text.ParseIntRejects | python/moltres_xs.py:199-202 | `int()` rejects "1__0", "_1" and a lone "-" |
| Text.IntToString | python/moltres_xs.py:358 | `str()` of an integer starts with a minus exactly when it is negative, and every other character is a decimal digit |
| Text.ParseIntPadded | python/moltres_xs.py:191 | `int()` reads a printed integer back as itself whatever whitespace surrounds it, as in a padded or newline-terminated field |
| Text.ParseIntOfIntToString | python/moltres_xs.py:143-147 | `int(str(x)) == x` for every integer, so printed header counts read back as themselves |
| Text.IntToStringInjective | python/moltres_xs.py:358 | distinct temperatures give distinct `str(temp)` keys, so only records with equal temperatures overwrite each other |
| XsLibrary.InitLibrary | python/moltres_xs.py:148-156 | the new library holds exactly the bundles with burnup < num_burn, universe < num_uni and branch < num_temps, each binding all twelve quantity names to empty lists |
| XsLibrary.Extend | python/moltres_xs.py:195-198 | `.extend` fails on a missing bundle or quantity (KeyError); otherwise only that one list changes, and it gains the values at its end |
| ScaleScanner.CatalogueWellFormed | python/moltres_xs.py:126-138 | every catalogue marker names at least one quantity and no quantity twice, and each single-line marker has one column per quantity |
| ScaleScanner.ParseHeader | python/moltres_xs.py:143-147 | succeeds exactly when line index 3 has at least four integer tokens; these give num_burn, num_temps - 1, num_uni and num_groups |
| ScaleScanner.HeaderRoundTrip | python/moltres_xs.py:143-147 | a header line holding the printed dimensions as its first four words, separated and surrounded by any whitespace and followed by any further words, parses back to those dimensions, with num_temps one more than the printed branch count |
| ScaleScanner.InitialScanner | python/moltres_xs.py:183-188 | before the scan the library is the freshly created one, no universe has been seen, the cursors L, m and n are 0, and neither the Betas nor the Lambdas buffer has been filled |
| ScaleScanner.ParseFloats | python/moltres_xs.py:221-223 | converting a whole line succeeds exactly when every token converts; the values are the tokens' values in order |
| ScaleScanner.ReadFloatRun | python/moltres_xs.py:225-234 | the multi-line reader's only failure is running off the end of the file (IndexError) |
| ScaleScanner.ReadFloatRunSpec | python/moltres_xs.py:225-234 | the multi-line reader returns the longest run of float tokens starting on the line after the marker; it fails (IndexError) exactly when no later token stops the run |
| ScaleScanner.LookupUniverse | python/moltres_xs.py:192-194 | a known universe id keeps the table unchanged; a new one is appended at the end and gets the last index; the index returned holds the id, and the table stays duplicate-free |
| ScaleScanner.LookupUniverseStable | python/moltres_xs.py:192-194 | in a duplicate-free table, an id already present keeps the index it was first given |
| ScaleScanner.OnIdentifier | python/moltres_xs.py:190-198 | the line succeeds exactly when the next line exists, its first token is an integer, the bundle at (burnup cursor, resolved universe index, branch cursor) exists and holds BETA_EFF and DECAY_CONSTANT, and both pending buffers are filled; the universe id is resolved in the table; the Betas and Lambdas buffers are appended to BETA_EFF and DECAY_CONSTANT of that bundle; no bundle is created or removed, and every other quantity of that bundle and every other bundle keep their lists |
| ScaleScanner.BurnupField | python/moltres_xs.py:200-201 | the burnup field is at most four characters and holds no comma; with a comma it ends just before the first comma and has four characters when the comma is at position 4 or later; with no comma, `find` gives -1, so it is the four characters before the last one |
| ScaleScanner.OnBranchLine | python/moltres_xs.py:199-202 | a `branch no.` line succeeds exactly when the burnup field and the last token are integers; it then sets the burnup and branch cursors to them and changes nothing else |
| ScaleScanner.AppendColumns | python/moltres_xs.py:216-219 | the appends of a single-line marker only add values at the end of existing lists |
| ScaleScanner.AppendColumnsSucceeds | python/moltres_xs.py:215-223 | the single-line markers' appends succeed exactly when the bundle, every named quantity and every column exist |
| ScaleScanner.AppendColumnsEffect | python/moltres_xs.py:215-223 | each named quantity gains exactly one value, the one at its own column; other quantities and other bundles keep their lists |
| ScaleScanner.OnMarker | python/moltres_xs.py:205-219 | a marker only ever grows lists at their end, never moves a cursor or the universe table, and sets a pending buffer only when it is that buffer's marker; when it succeeds and what it appends are in MultiLineMarkerEffect and SingleLineMarkerEffect |
| ScaleScanner.OnMarkers | python/moltres_xs.py:203-204 | the catalogue markers tried in order keep the same guarantees over the whole line, and a buffer changes only when its marker occurs in the line |
| ScaleScanner.OnMarkersFired | python/moltres_xs.py:203-204 | trying every catalogue key in order is the same as taking the markers whose key occurs in the line, in catalogue order, and running exactly those one after the other until one fails |
| ScaleScanner.OnMarkersNone | python/moltres_xs.py:203-204 | on a line holding none of the keys, the marker loop leaves the state as it is |
| ScaleScanner.OnMarkersOne | python/moltres_xs.py:203-204 | on a line holding exactly one of the keys, the marker loop is that one marker's handler |
| ScaleScanner.MultiLineMarkerEffect | python/moltres_xs.py:205-214 | a multi-line marker succeeds exactly when the float run after it ends before the end of the file and, unless it is Betas or Lambdas, the current bundle holds the marker's quantity; Betas and Lambdas then only replace their pending buffer with the run; Scattering cross appends the run to GTRANSFXS of the current bundle at once and touches nothing else |
| ScaleScanner.SingleLineMarkerEffect | python/moltres_xs.py:215-223 | a single-line marker succeeds exactly when the next line exists, all its tokens are floats and the columns and quantities exist; each quantity then gains the value at its column, and nothing else changes |
| ScaleScanner.ScanLine | python/moltres_xs.py:189-219 | one line only grows lists; a line without Betas or Lambdas keeps that buffer; an Identifier line reached with a buffer never filled fails |
| ScaleScanner.ScanLineSteps | python/moltres_xs.py:189-219 | a line is handled in the order Identifier, then branch no., then the catalogue markers: a failing Identifier or branch step fails the line, and otherwise the markers run on the state the earlier steps left |
| ScaleScanner.ScanLineDispatch | python/moltres_xs.py:189-219 | a line with no marker string leaves the state unchanged; with no catalogue key, a line with only Identifier or only branch no. runs exactly that handler, and one with both resolves the universe before it moves the burnup and branch cursors |
| ScaleScanner.ScanLineSingleMarker | python/moltres_xs.py:203-219 | a line holding one catalogue key and no other marker string runs exactly that marker |
| ScaleScanner.Scan | python/moltres_xs.py:189 | scanning keeps the set of bundles and quantity names, and every list only grows at its end |
| ScaleScanner.ScanKeepsUniverseTable | python/moltres_xs.py:192-194 | over the whole scan the universe table only grows at its end, never holds a duplicate, and the universe cursor points into it |
| ScaleScanner.ScaleXsIdentifierFirstFails | python/moltres_xs.py:187-198 | a T16 file whose first Identifier line comes before any Betas line, or before any Lambdas line, is rejected |
| ScaleScanner.ScaleXs | python/moltres_xs.py:123-158 | a T16 file converts exactly when its header is valid, the scan of the whole file from the initial state succeeds, and every scanned bundle is defined for the derived-quantity pass; its library then holds exactly the bundles of the declared box, and each converted bundle is its scanned bundle with the derived-quantity correction applied |
| ScaleScanner.ScaleXsBundlesComplete | python/moltres_xs.py:139-158 | every bundle of a converted T16 file holds exactly the twelve quantity names |
| DerivedQuantities.FixGroup | python/moltres_xs.py:170-180 | one group succeeds exactly when everything it reads exists and FISSXS is nonzero wherever FISSE is; REMXS[ii] gains the row sum minus the diagonal, FISSE[ii] becomes the energy per fission, and every other quantity is kept |
| DerivedQuantities.FixFrom | python/moltres_xs.py:170-180 | the group loop succeeds exactly when every remaining group is defined; it keeps the quantity names and every quantity other than REMXS and FISSE |
| DerivedQuantities.FixGroupKeepsLater | python/moltres_xs.py:170-180 | updating group ii leaves unchanged everything a later group reads, so the groups do not interact |
| DerivedQuantities.FixFromRemovalAt | python/moltres_xs.py:171-175 | after the loop from group ii, each REMXS entry in [ii, G) has gained its group's row removal; other entries and the list length are kept |
| DerivedQuantities.FixFromEnergyAt | python/moltres_xs.py:176-180 | after the loop from group ii, each FISSE entry in [ii, G) is its energy per fission; other entries and the list length are kept |
| DerivedQuantities.FixFromValues | python/moltres_xs.py:170-180 | over all groups, REMXS and FISSE entry by entry are as the per-group updates say |
| DerivedQuantities.RemovalIsOffDiagonal | python/moltres_xs.py:171-175 | the slice sum minus the diagonal entry equals the sum of the row's off-diagonal entries |
| DerivedQuantities.FixBundle | python/moltres_xs.py:166-180 | one bundle succeeds exactly when every group is defined; REMXS of each group then gains its off-diagonal out-scatter, each nonzero FISSE is divided by FISSXS, and nothing else changes |
| DerivedQuantities.FixXs | python/moltres_xs.py:166-180 | the pass succeeds exactly when every bundle is defined, keeps the set of bundles, and corrects each bundle as FixBundle states; on failure the error is one a failing bundle raises |
| DerivedQuantities.SecondPassChangesRemoval | python/moltres_xs.py:157-158 | the pass is not idempotent: on a group with nonzero out-scatter, a second run changes REMXS again, which is why it runs exactly once after the scan |
| DerivedQuantities.TwoGroupExample | python/moltres_xs.py:170-180 | on a concrete two-group bundle, REMXS becomes the off-diagonal transfers [0.05, 0.02] and FISSE [10, 0] over FISSXS [2, 0] becomes [5, 0] |
| Serpent.SourcesCoverQuantities | python/moltres_xs.py:272-295 | the Serpent backend fills exactly the twelve quantity names the SCALE backend starts from, each one once |
| Serpent.NumUniverses | python/moltres_xs.py:262 | the number of distinct universe names is zero only for an empty table, and never exceeds the number of rows |
| Serpent.NumBranches | python/moltres_xs.py:263 | the branch count is the number of whole (burnup, universe) blocks in the table: that many blocks fit in the rows, and one more does not |
| Serpent.SerpentIndexInRange | python/moltres_xs.py:271 | every bundle of the num_burn x num_uni x num_temps box reads a row below num_burn*num_uni*num_temps |
| Serpent.SerpentIndexInjective | python/moltres_xs.py:271 | distinct bundles of the box read distinct rows |
| Serpent.SerpentIndexOfLast | python/moltres_xs.py:263-271 | the last bundle of the box reads the last row, num_burn*num_uni*num_temps - 1 |
| Serpent.Stride | python/moltres_xs.py:272-295 | `row[start::2]` holds (len - start + 1) / 2 entries, and entry t is `row[start + 2t]` |
| Serpent.Lookup | python/moltres_xs.py:272-273 | reading a quantity fails on a missing array (KeyError) or a row past the end (IndexError); otherwise it is every other entry of that row from the quantity's start position |
| Serpent.BuildBundle | python/moltres_xs.py:270-295 | a bundle is built exactly when every array has the row; its quantity names are the sources' and each value is the stride of its own array's row |
| Serpent.LoopOrder | python/moltres_xs.py:265-269 | the nested loops visit exactly the bundles of the box |
| Serpent.BuildAll | python/moltres_xs.py:264-295 | building the visited bundles succeeds exactly when each of their rows is available, and each bundle is the one built from its own row |
| Serpent.SerpentXs | python/moltres_xs.py:256-295 | with no burnup point or no universe the branch count divides by zero; otherwise the library holds exactly the bundles of the box |
| Serpent.SerpentXsValues | python/moltres_xs.py:271-295 | each quantity of bundle (i, j, k) is every other entry of row i*num_uni + k*num_burn*num_uni + j of its array, from position 2 for BETA_EFF and LAMBDA and 0 otherwise |
| Serpent.SerpentBundlesComplete | python/moltres_xs.py:270-295 | every bundle of a converted Serpent table holds exactly the twelve quantity names |
| Serpent.SerpentXsSucceeds | python/moltres_xs.py:258-295 | the conversion succeeds exactly when there is a burnup point and a universe and, for a non-empty box, every needed array has at least num_burn*num_uni*num_temps rows |
| ControlFile.CountAt | python/moltres_xs.py:307 | the count after a section marker is the integer value of the first token of the next line, and fails without one |
| ControlFile.SelectBackend | python/moltres_xs.py:339-347 | the format tag is matched as a substring: scale wins over serpent, serpent over openmc, and a tag naming none of them is rejected |
| ControlFile.Load | python/moltres_xs.py:339-344 | a scale entry is the SCALE backend on the file's lines, a serpent entry the Serpent backend on the reader's table, and an openmc entry with no reference token ever read fails; SCALE and Serpent bundles hold exactly the twelve quantity names |
| ControlFile.OnTitle | python/moltres_xs.py:303-304 | the output path is the first token of the next line; nothing else changes |
| ControlFile.Dedupe | python/moltres_xs.py:309-315 | the material names kept as dictionary keys are exactly the names given, each once |
| ControlFile.DedupeOrder | python/moltres_xs.py:309-315 | the keys keep the order in which each name was first inserted |
| ControlFile.FreshTable | python/moltres_xs.py:309-315 | the new dictionary is well formed, keeps the given name order, holds exactly those names, and gives each one five empty lists |
| ControlFile.OnMat | python/moltres_xs.py:305-315 | a fresh, well-formed dictionary holds exactly the first n names of the line after the count, each with five empty lists; the name line must exist even for n <= 0 |
| ControlFile.AddRecord | python/moltres_xs.py:319-329 | a record succeeds exactly when it has six fields, names a declared material and its five numbers are integers; that material's five lists then each gain one entry, and every other material is unchanged |
| ControlFile.AppendedConcat | python/moltres_xs.py:318-329 | appending two runs of records one after the other is appending their concatenation, so records may be added one at a time |
| ControlFile.AddRecordAppended | python/moltres_xs.py:319-329 | one record appends its own five fields to the material it names and leaves every other material as it was |
| ControlFile.AddRecords | python/moltres_xs.py:318-329 | the records succeed exactly when the count is not positive or the dictionary exists, all count lines exist, and each is a record AddRecord accepts; each declared material's lists then gain, in line order, the fields of exactly the records that name it; the dictionary stays well formed with the same materials and order |
| ControlFile.OnBranch | python/moltres_xs.py:316-329 | a `[BRANCH]` section succeeds exactly when the count line holds an integer n and either n is not positive or the dictionary exists and the n lines after it are all accepted records; each material's lists then gain the fields of its records, in line order; nothing else changes, and without a dictionary none is created |
| ControlFile.LoadEntry | python/moltres_xs.py:339-347 | a FILES entry is converted by the backend its tag selects, and an unknown tag fails |
| ControlFile.RefAtNone | python/moltres_xs.py:335-338 | a two-field entry keeps the reference token of an earlier entry: with no three-field entry since, the one in force before stays |
| ControlFile.RefAtLast | python/moltres_xs.py:335-338 | the reference token in force at an entry is the third field of the last three-field entry up to it |
| ControlFile.ReadFiles | python/moltres_xs.py:333-347 | a FILES read succeeds exactly when every entry from the first to count - 1 exists, has two or three fields and converts with the reference token in force at it; it then stores exactly those entries |
| ControlFile.ReadFilesEntries | python/moltres_xs.py:334-347 | each stored entry has two or three fields and is converted with the reference token of the last three-field entry up to it |
| ControlFile.OnFiles | python/moltres_xs.py:331-347 | `FILES` succeeds exactly when the count line holds an integer and every entry up to it exists, has two or three fields and converts with the reference token in force at it; it then creates a dictionary keyed 0 .. count - 1, each key holding its entry's conversion, and keeps the path and materials |
| ControlFile.EntriesOkShift | python/moltres_xs.py:333-347 | the entries from one on are all accepted exactly when that entry is and the later ones are, with the reference token it leaves in force |
| ControlFile.Step | python/moltres_xs.py:302-347 | one line keeps the dictionary well formed; the path changes only on a `[TITLE]` line, and the dictionary comes into existence only on a `[MAT]` line |
| ControlFile.Run | python/moltres_xs.py:302 | reading every line keeps the material dictionary well formed |
| ControlFile.StepDispatch | python/moltres_xs.py:302-347 | an unmarked line leaves the state as it is; a line with exactly one of the four markers runs exactly that marker's handler; a failing `[TITLE]` stops the line before any later marker acts |
| ControlFile.RunUnfold | python/moltres_xs.py:302 | the read stops with the state at the end of the file; otherwise a failing line fails the read with that line's error, and a successful line continues from the state it leaves |
| ControlFile.RunUnmarked | python/moltres_xs.py:302-347 | lines holding none of the four markers leave the state as it is |
| ControlFile.RunWithoutMat | python/moltres_xs.py:305-306 | without a `[MAT]` line from the current one on, no material dictionary is ever created |
| ControlFile.RunWithoutTitle | python/moltres_xs.py:303-304 | without a `[TITLE]` line from the current one on, no output path is ever set |
| ControlFile.CaseBundle | python/moltres_xs.py:354-358 | a record's bundle is `files[file-1].xs_lib[burn-1][uni-1][bran-1]`; a missing file dictionary, file index or bundle each fails with its own error |
| ControlFile.ResolveCases | python/moltres_xs.py:352-358 | resolving succeeds exactly when every record's bundle exists, and the keys added are exactly the `str(temp)` of the records |
| ControlFile.ResolveCasesLast | python/moltres_xs.py:352-358 | a later record with the same temperature overwrites an earlier one: the last record with a temperature decides its bundle |
| ControlFile.ResolveCasesUntouched | python/moltres_xs.py:352-358 | a key no remaining record names keeps its bundle |
| ControlFile.ResolveMat | python/moltres_xs.py:350-358 | a material's output lists its temperatures in record order and, under each temperature's text, the bundle of the last record with that temperature |
| ControlFile.ResolveMats | python/moltres_xs.py:349-358 | the document holds exactly the declared materials, each resolved as ResolveMat states, and fails if any one fails |
| ControlFile.ReadInput | python/moltres_xs.py:298-359 | a control file produces a document exactly when every line is read, a material dictionary exists, every branch record resolves to a bundle and an output path was given; the document goes to the `[TITLE]` path and holds exactly the declared materials; a control file that never creates a material dictionary fails with NoMaterials |
| ControlFile.ReadInputCases | python/moltres_xs.py:349-358 | in the document, each material's temperature list is its records' list, and each temperature's entry is the bundle its last record with that temperature names |
| ControlFile.NoMatSectionFails | python/moltres_xs.py:348 | a control file with no `[MAT]` line is rejected (`mat_dict` is unbound) |
| ControlFile.NoTitleSectionFails | python/moltres_xs.py:359 | a control file with no `[TITLE]` line is rejected (the document would be written to the already closed control file) |

## Left out

- Reading files, `open(..., 'w')`, `json.dumps`, the `print` of the material dictionary and the command-line entry point are not modelled. A T16 file is given as its lines. A produced document is returned with its output path rather than written.
- The OpenMC backend (`openmc_xs`) and the Serpent results reader (`serpent.parse_res`) are outside this core. They are parameters of the `Env` given to the control file reader, and a reader that raises is `Unreadable`.
- Serpent.SerpentData: the burnup-point count (distinct entries of the first BURNUP row, or 1 without a BURNUP array) is taken from the external reader, not computed from the array.
- Serpent.NumBranches: `int(len/(nu*nb))` is float division followed by truncation. It is modelled as integer division, which agrees for the non-negative operands that occur.
- ScaleScanner.FloatParser: Python's `float()` and numpy's `astype(float)` are left abstract, as a token-to-optional-real function, and values are exact reals. Rounding, NaN and infinities are not modelled.
- Text.Tokens: `split()` and `int()` treat the ASCII and Latin-1 whitespace characters as spaces and accept only ASCII digits. Other Unicode spaces and digits are not modelled.
- DerivedQuantities.FixBundle: where numpy would store an infinite FISSE (a nonzero FISSE over a zero FISSXS, with a runtime warning), the model fails with `NonFiniteEnergy`.
- DerivedQuantities.FixGroup: the same `NonFiniteEnergy` failure replaces numpy's infinite FISSE for the one group.
- DerivedQuantities.FixFrom: the same `NonFiniteEnergy` failure applies to every group the loop reaches.
- DerivedQuantities.FixXs: when several bundles fail, the model reports the error of one of them, not necessarily the one the Python loop order reaches first.
- ScaleScanner.ScaleXs: the same `NonFiniteEnergy` behaviour applies through the derived-quantity pass.
- ScaleScanner.OnMarker: when several failures coincide on one marker line, the error kind can differ from the exception Python raises first. Python looks up the bundle before it reads the next line. Whether the marker succeeds is modelled exactly.
- ScaleScanner.MultiLineMarkerEffect: GTRANSFXS is extended by each `Scattering cross` block, as the code does. The code is followed rather than a reading in which the block replaces the matrix.
- ControlFile.ReadInput: dictionary iteration order is modelled through the order in which materials were first declared. The JSON key sorting of the written document is not modelled.
- ControlFile.OnMat: a `[MAT]` count larger than the names on the next line fails (IndexError), as the code does. There is no separate check that section counts agree.
