/**
 * `load_foods`: turns an uploaded food table into the catalog the ranker uses. Headers are matched
 * to the five standard fields, the cells are scanned for numbers, rows without a kcal value are
 * dropped, missing macros become 0, and per-100-kcal densities are added, with the row counts and
 * the header mapping kept as diagnostics.
 */
module FoodCatalog {
  import opened Wrappers
  import opened Text
  import opened FoodNumbers
  import opened FoodColumns

  /**
   * A table as `pd.read_csv` delivers it: the headers in order and each column's cells as text,
   * `None` for an empty cell (NaN).
   */
  datatype RawFrame = RawFrame(columns: seq<string>, data: map<string, seq<Option<string>>>, height: nat)

  /** Every header has a column, every column a header, and all columns have the same height. */
  ghost predicate WellFormed(f: RawFrame) {
    (forall c :: c in f.columns <==> c in f.data) &&
    (forall c :: c in f.data ==> |f.data[c]| == f.height)
  }

  function NaNColumn(n: nat): (col: seq<Option<string>>)
    ensures |col| == n
    ensures forall j :: 0 <= j < n ==> col[j].None?
  {
    seq(n, _ => None)
  }

  /** `df[name] = np.nan`: the column is overwritten with NaN, or appended when absent. */
  function SetNaNColumn(f: RawFrame, name: string): RawFrame {
    RawFrame(if name in f.columns then f.columns else f.columns + [name],
             f.data[name := NaNColumn(f.height)], f.height)
  }

  /** Setting a column keeps the frame well formed: the new column has a header and the frame's height. */
  lemma SetNaNColumnWellFormed(f: RawFrame, name: string)
    requires WellFormed(f)
    ensures WellFormed(SetNaNColumn(f, name)) && f.data.Keys <= SetNaNColumn(f, name).data.Keys
  {
  }

  /** The frame during the mapping loop, and the `mapping` dict from standard field to column. */
  datatype Mapped = Mapped(frame: RawFrame, mapping: map<string, string>)

  /**
   * One pass of the mapping loop for the standard field `std`, given what `_find_col` found for it:
   * the field maps to the header found or, when none is found, to a NaN column of its own name.
   */
  function MapField(m: Mapped, std: string, found: Option<string>): (r: Mapped)
    ensures r.frame.height == m.frame.height
  {
    match found
    case None => Mapped(SetNaNColumn(m.frame, std), m.mapping[std := std])
    case Some(h) => Mapped(m.frame, m.mapping[std := h])
  }

  /** A standard field and its accepted header spellings, one entry of `STANDARD_COLS`. */
  type FieldSpec = (string, seq<string>)

  /** What `_find_col` finds among the original headers `cols` for each field of `specs`, in order. */
  function Resolutions(cols: seq<string>, specs: seq<FieldSpec>): (found: seq<Option<string>>)
    ensures |found| == |specs|
  {
    seq(|specs|, i requires 0 <= i < |specs| => ResolveColumn(cols, specs[i].1))
  }

  /** The state after the mapping loop has handled the first `k` fields of `specs`, field `i` finding `found[i]`. */
  function MapFields(raw: RawFrame, specs: seq<FieldSpec>, found: seq<Option<string>>, k: nat): (m: Mapped)
    requires k <= |specs| == |found|
    ensures m.frame.height == raw.height
  {
    if k == 0 then Mapped(raw, map[])
    else MapField(MapFields(raw, specs, found, k - 1), specs[k - 1].0, found[k - 1])
  }

  /** The mapping loop keeps the frame well formed and drops no column of the table. */
  lemma {:induction false} MapFieldsWellFormed(raw: RawFrame, specs: seq<FieldSpec>, found: seq<Option<string>>, k: nat)
    requires WellFormed(raw) && k <= |specs| == |found|
    ensures WellFormed(MapFields(raw, specs, found, k).frame)
    ensures raw.data.Keys <= MapFields(raw, specs, found, k).frame.data.Keys
  {
    if k > 0 {
      var prev := MapFields(raw, specs, found, k - 1);
      MapFieldsWellFormed(raw, specs, found, k - 1);
      MapFieldsUnfold(raw, specs, found, k);
      SetNaNColumnWellFormed(prev.frame, specs[k - 1].0);
    }
  }

  /** The mapping loop over all of `STANDARD_COLS`. */
  function StandardMapping(raw: RawFrame): Mapped {
    MapFields(raw, StandardCols, Resolutions(raw.columns, StandardCols), |StandardCols|)
  }

  lemma MapFieldsUnfold(raw: RawFrame, specs: seq<FieldSpec>, found: seq<Option<string>>, n: nat)
    requires 0 < n <= |specs| == |found|
    ensures MapFields(raw, specs, found, n) == MapField(MapFields(raw, specs, found, n - 1), specs[n - 1].0, found[n - 1])
  {
  }

  function FieldNames(specs: seq<FieldSpec>, k: nat): set<string>
    requires k <= |specs|
  {
    if k == 0 then {} else FieldNames(specs, k - 1) + {specs[k - 1].0}
  }

  const StandardFields: set<string> := {"food", "kcal", "protein_g", "carbs_g", "fat_g"}

  lemma AllFieldNames()
    ensures FieldNames(StandardCols, |StandardCols|) == StandardFields
  {
    assert FieldNames(StandardCols, 1) == {"food"};
    assert FieldNames(StandardCols, 3) == {"food", "kcal", "protein_g"};
  }

  /** The mapping only ever points at a field's own name or an original header, and that column exists. */
  ghost predicate MappingSound(raw: RawFrame, m: Mapped) {
    forall std :: std in m.mapping ==>
      m.mapping[std] in m.frame.data && (m.mapping[std] == std || m.mapping[std] in raw.columns)
  }

  /** Every header found is one of `cols`. */
  predicate FoundAmong(cols: seq<string>, found: seq<Option<string>>) {
    forall i :: 0 <= i < |found| && found[i].Some? ==> found[i].value in cols
  }

  /** `_find_col` only ever returns one of the headers it was given. */
  lemma ResolutionsFound(cols: seq<string>, specs: seq<FieldSpec>)
    ensures FoundAmong(cols, Resolutions(cols, specs))
  {
    var found := Resolutions(cols, specs);
    forall i | 0 <= i < |found| && found[i].Some? ensures found[i].value in cols {
      var j := ResolvedIndex(cols, specs[i].1);
    }
  }

  lemma MapFieldSound(raw: RawFrame, m: Mapped, std: string, found: Option<string>)
    requires WellFormed(raw) && raw.data.Keys <= m.frame.data.Keys
    requires MappingSound(raw, m) && (found.Some? ==> found.value in raw.columns)
    ensures MappingSound(raw, MapField(m, std, found))
  {
    if found.Some? {
      assert found.value in raw.data;
    }
  }

  /** After `k` passes exactly the first `k` fields are mapped. */
  lemma {:induction false} MapFieldsKeys(raw: RawFrame, specs: seq<FieldSpec>, found: seq<Option<string>>, k: nat)
    requires k <= |specs| == |found|
    ensures MapFields(raw, specs, found, k).mapping.Keys == FieldNames(specs, k)
  {
    if k > 0 {
      MapFieldsKeys(raw, specs, found, k - 1);
      MapFieldsUnfold(raw, specs, found, k);
    }
  }

  /** Every mapped field points at its own name or at an original header, and that column exists. */
  lemma {:induction false} MapFieldsMapping(raw: RawFrame, specs: seq<FieldSpec>, found: seq<Option<string>>, k: nat)
    requires WellFormed(raw) && k <= |specs| == |found| && FoundAmong(raw.columns, found)
    ensures MappingSound(raw, MapFields(raw, specs, found, k))
  {
    if k > 0 {
      MapFieldsMapping(raw, specs, found, k - 1);
      MapFieldsWellFormed(raw, specs, found, k - 1);
      MapFieldsUnfold(raw, specs, found, k);
      MapFieldSound(raw, MapFields(raw, specs, found, k - 1), specs[k - 1].0, found[k - 1]);
    }
  }

  /** The returned header is one of `cols`. */
  lemma ResolvedIndex(cols: seq<string>, cands: seq<string>) returns (j: nat)
    requires ResolveColumn(cols, cands).Some?
    ensures j < |cols| && ResolveColumn(cols, cands).value == cols[j]
  {
    j := FirstHitIndex(cols, NormalizeAll(cols), LowerAll(cands));
  }

  lemma {:induction false} FirstHitIndex(cols: seq<string>, lc: seq<string>, keys: seq<string>) returns (j: nat)
    requires |lc| == |cols| && FirstHit(cols, lc, keys).Some?
    ensures j < |cols| && FirstHit(cols, lc, keys).value == cols[j]
    decreases |keys|
  {
    match IndexOf(lc, keys[0])
    case Some(i) => j := i;
    case None => j := FirstHitIndex(cols, lc, keys[1..]);
  }

  /** A catalog row before the final clean-up; `None` is NaN. */
  datatype ParsedRow = ParsedRow(
    food: Option<string>,
    kcal: Option<real>,
    proteinG: Option<real>,
    carbsG: Option<real>,
    fatG: Option<real>)

  /** The column the standard field `std` reads after the mapping loop. */
  function FieldColumn(m: Mapped, std: string): seq<Option<string>>
    requires std in m.mapping && m.mapping[std] in m.frame.data
  {
    m.frame.data[m.mapping[std]]
  }

  ghost predicate Complete(m: Mapped) {
    WellFormed(m.frame) &&
    forall std :: std in StandardFields ==> std in m.mapping && m.mapping[std] in m.frame.data
  }

  /** After the mapping loop every standard field is mapped, to its own name or an original header. */
  lemma StandardMappingSound(raw: RawFrame)
    requires WellFormed(raw)
    ensures StandardMapping(raw).mapping.Keys == StandardFields
    ensures MappingSound(raw, StandardMapping(raw)) && Complete(StandardMapping(raw))
  {
    ResolutionsFound(raw.columns, StandardCols);
    MapFieldsWellFormed(raw, StandardCols, Resolutions(raw.columns, StandardCols), |StandardCols|);
    MapFieldsMapping(raw, StandardCols, Resolutions(raw.columns, StandardCols), |StandardCols|);
    MapFieldsKeys(raw, StandardCols, Resolutions(raw.columns, StandardCols), |StandardCols|);
    AllFieldNames();
  }

  /** The frame `out` built from the mapped columns, with `_to_number` applied to the numeric ones. */
  function ParseRows(m: Mapped): (rows: seq<ParsedRow>)
    requires Complete(m)
    ensures |rows| == m.frame.height
  {
    var food, kcal := FieldColumn(m, "food"), FieldColumn(m, "kcal");
    var protein, carbs, fat := FieldColumn(m, "protein_g"), FieldColumn(m, "carbs_g"), FieldColumn(m, "fat_g");
    seq(m.frame.height, j requires 0 <= j < m.frame.height =>
      ParsedRow(food[j], ToNumber(kcal[j]), ToNumber(protein[j]), ToNumber(carbs[j]), ToNumber(fat[j])))
  }

  /** `dropna(subset=["kcal"])`: the rows with a kcal value, in their original order. */
  function DropMissingKcal(rows: seq<ParsedRow>): (r: seq<ParsedRow>)
    ensures |r| <= |rows|
    ensures forall x :: x in r <==> x in rows && x.kcal.Some?
  {
    if rows == [] then []
    else (if rows[0].kcal.Some? then [rows[0]] else []) + DropMissingKcal(rows[1..])
  }

  /** Dropping works row by row, so survivors keep their relative order. */
  lemma {:induction false} DropMissingKcalAppend(a: seq<ParsedRow>, b: seq<ParsedRow>)
    ensures DropMissingKcal(a + b) == DropMissingKcal(a) + DropMissingKcal(b)
  {
    if a == [] {
      assert a + b == b;
    } else {
      assert (a + b)[1..] == a[1..] + b;
      DropMissingKcalAppend(a[1..], b);
    }
  }

  /** The macro columns `protein_g`, `carbs_g` and `fat_g`. */
  datatype Macro = Protein | Carbs | Fat

  /** The columns of the fill loop, in its order. */
  const MacroFields: seq<Macro> := [Protein, Carbs, Fat]

  /** `out[field].fillna(0.0)` for one row. */
  function FillZero(r: ParsedRow, field: Macro): ParsedRow {
    match field
    case Protein => r.(proteinG := Some(r.proteinG.GetOr(0.0)))
    case Carbs => r.(carbsG := Some(r.carbsG.GetOr(0.0)))
    case Fat => r.(fatG := Some(r.fatG.GetOr(0.0)))
  }

  function FillColumn(rows: seq<ParsedRow>, field: Macro): (r: seq<ParsedRow>)
    ensures |r| == |rows|
    ensures forall j :: 0 <= j < |rows| ==> r[j] == FillZero(rows[j], field)
  {
    seq(|rows|, j requires 0 <= j < |rows| => FillZero(rows[j], field))
  }

  /** The rows after the fill loop has handled the first `k` macro fields. */
  function FillMacros(rows: seq<ParsedRow>, k: nat): (r: seq<ParsedRow>)
    requires k <= |MacroFields|
    ensures |r| == |rows|
  {
    if k == 0 then rows else FillColumn(FillMacros(rows, k - 1), MacroFields[k - 1])
  }

  /** `x / kcal.replace(0, NaN) * 100`, with the NaN of a zero kcal filled with 0. */
  function Per100Kcal(x: real, kcal: real): real {
    if kcal == 0.0 then 0.0 else x / kcal * 100.0
  }

  /** A finished catalog row. */
  datatype FoodRow = FoodRow(
    food: string,
    kcal: real,
    proteinG: real,
    carbsG: real,
    fatG: real,
    proteinPer100kcal: real,
    carbsPer100kcal: real,
    fatPer100kcal: real)

  /**
   * The densities, the frame-wide `fillna(0.0)` and the food text: a missing name is filled with the
   * number 0.0 and then turned into the text "0.0"; a present one is stripped.
   */
  function Finish(r: ParsedRow): (row: FoodRow)
    ensures r.food.None? ==> row.food == "0.0"
    ensures r.food.Some? ==> row.food == Strip(r.food.value)
    ensures row.kcal == r.kcal.GetOr(0.0) && row.proteinG == r.proteinG.GetOr(0.0)
    ensures row.carbsG == r.carbsG.GetOr(0.0) && row.fatG == r.fatG.GetOr(0.0)
    ensures DensitiesConsistent(row)
  {
    var kcal := r.kcal.GetOr(0.0);
    var p, c, f := r.proteinG.GetOr(0.0), r.carbsG.GetOr(0.0), r.fatG.GetOr(0.0);
    FinishDensities(kcal, p, c, f);
    FoodRow(
      match r.food case Some(s) => Strip(s) case None => "0.0",
      kcal, p, c, f, Per100Kcal(p, kcal), Per100Kcal(c, kcal), Per100Kcal(f, kcal))
  }

  function FinishAll(rows: seq<ParsedRow>): (r: seq<FoodRow>)
    ensures |r| == |rows|
    ensures forall j :: 0 <= j < |rows| ==> r[j] == Finish(rows[j])
  {
    seq(|rows|, j requires 0 <= j < |rows| => Finish(rows[j]))
  }

  /** The catalog and the `attrs` diagnostics. */
  datatype FoodTable = FoodTable(
    rows: seq<FoodRow>,
    rowsIn: nat,
    rowsAfterKcal: nat,
    columnsMapped: map<string, string>)

  /** What `load_foods` returns for a table. */
  function NormalizeCatalog(raw: RawFrame): (t: FoodTable)
    requires WellFormed(raw)
    ensures t.rowsIn == raw.height && t.rowsAfterKcal <= t.rowsIn && |t.rows| == t.rowsAfterKcal
    ensures t.columnsMapped == StandardMapping(raw).mapping
  {
    var m := StandardMapping(raw);
    StandardMappingSound(raw);
    var parsed := ParseRows(m);
    var kept := DropMissingKcal(parsed);
    var filled := FillMacros(kept, |MacroFields|);
    FoodTable(FinishAll(filled), |parsed|, |kept|, m.mapping)
  }

  /**
   * The mapping loop of `load_foods`: each standard field is looked up among the original headers;
   * an unmatched field gets a NaN column of its own name and maps to it.
   */
  method MapColumns(raw: RawFrame) returns (m: Mapped)
    requires WellFormed(raw)
    ensures m == StandardMapping(raw)
  {
    var cols := raw.columns;
    ghost var found := Resolutions(cols, StandardCols);
    m := Mapped(raw, map[]);
    for k := 0 to |StandardCols|
      invariant m == MapFields(raw, StandardCols, found, k)
    {
      var std, cands := StandardCols[k].0, StandardCols[k].1;
      var col := FindCol(cols, cands);
      assert col == found[k];
      if col.None? {
        m := Mapped(SetNaNColumn(m.frame, std), m.mapping[std := std]);
      } else {
        m := Mapped(m.frame, m.mapping[std := col.value]);
      }
    }
  }

  /** The fill loop of `load_foods`: `out[c] = out[c].fillna(0.0)` for each macro column in turn. */
  method FillMacroColumns(rows: seq<ParsedRow>) returns (out: seq<ParsedRow>)
    ensures out == FillMacros(rows, |MacroFields|)
  {
    out := rows;
    for k := 0 to |MacroFields|
      invariant out == FillMacros(rows, k)
    {
      out := FillColumn(out, MacroFields[k]);
    }
  }

  /**
   * `load_foods(csv)`: the mapping loop, the parsed frame, the kcal filter, the fill loop over the
   * macro columns, the densities and the diagnostics.
   */
  method LoadFoods(raw: RawFrame) returns (t: FoodTable)
    requires WellFormed(raw)
    ensures t == NormalizeCatalog(raw)
  {
    var m := MapColumns(raw);
    StandardMappingSound(raw);
    var parsed := ParseRows(m);
    var before := |parsed|;
    var out := DropMissingKcal(parsed);
    var afterKcal := |out|;
    out := FillMacroColumns(out);
    t := FoodTable(FinishAll(out), before, afterKcal, m.mapping);
  }

  /**
   * The diagnostics: `rows_in` is the number of rows read, `rows_after_kcal` the number left after the
   * kcal filter, which is the number of catalog rows; every standard field is mapped, to an original
   * header or to its own name.
   */
  lemma CatalogDiagnostics(raw: RawFrame)
    requires WellFormed(raw)
    ensures var t := NormalizeCatalog(raw);
            t.rowsIn == raw.height && t.rowsAfterKcal <= t.rowsIn && |t.rows| == t.rowsAfterKcal &&
            t.columnsMapped.Keys == StandardFields &&
            forall std :: std in t.columnsMapped ==> t.columnsMapped[std] == std || t.columnsMapped[std] in raw.columns
  {
    StandardMappingSound(raw);
  }

  lemma Per100KcalScales(x: real, kcal: real)
    requires kcal != 0.0
    ensures Per100Kcal(x, kcal) * kcal == 100.0 * x
  {
    assert x / kcal * kcal == x;
  }

  /**
   * A row's densities: for a zero kcal all three are 0; otherwise each is the macro per 100 kcal,
   * that is density times kcal is 100 times the grams.
   */
  predicate DensitiesConsistent(r: FoodRow) {
    (r.kcal == 0.0 ==> r.proteinPer100kcal == 0.0 && r.carbsPer100kcal == 0.0 && r.fatPer100kcal == 0.0) &&
    (r.kcal != 0.0 ==>
       r.proteinPer100kcal * r.kcal == 100.0 * r.proteinG &&
       r.carbsPer100kcal * r.kcal == 100.0 * r.carbsG &&
       r.fatPer100kcal * r.kcal == 100.0 * r.fatG)
  }

  lemma FinishDensities(kcal: real, p: real, c: real, f: real)
    ensures DensitiesConsistent(FoodRow("", kcal, p, c, f, Per100Kcal(p, kcal), Per100Kcal(c, kcal), Per100Kcal(f, kcal)))
  {
    if kcal != 0.0 {
      Per100KcalScales(p, kcal);
      Per100KcalScales(c, kcal);
      Per100KcalScales(f, kcal);
    }
  }

  /** Every catalog row carries densities consistent with its kcal and macros. */
  lemma CatalogDensities(raw: RawFrame)
    requires WellFormed(raw)
    ensures forall j :: 0 <= j < |NormalizeCatalog(raw).rows| ==> DensitiesConsistent(NormalizeCatalog(raw).rows[j])
  {
    StandardMappingSound(raw);
    var filled := FillMacros(DropMissingKcal(ParseRows(StandardMapping(raw))), |MacroFields|);
    assert forall j | 0 <= j < |filled| :: FinishAll(filled)[j] == Finish(filled[j]);
  }

  /** A row after the fill loop: every missing macro is 0, everything else as it was. */
  function Filled(p: ParsedRow): ParsedRow {
    p.(proteinG := Some(p.proteinG.GetOr(0.0)), carbsG := Some(p.carbsG.GetOr(0.0)), fatG := Some(p.fatG.GetOr(0.0)))
  }

  /** The fill loop replaces each missing macro with 0 and leaves every other cell alone. */
  lemma FillMacrosDefaults(rows: seq<ParsedRow>)
    ensures forall j :: 0 <= j < |rows| ==> FillMacros(rows, |MacroFields|)[j] == Filled(rows[j])
  {
    var one, two, three := FillMacros(rows, 1), FillMacros(rows, 2), FillMacros(rows, 3);
    assert FillMacros(rows, 0) == rows;
    assert MacroFields[0] == Protein && MacroFields[1] == Carbs && MacroFields[2] == Fat;
    assert one == FillColumn(rows, Protein);
    assert two == FillColumn(one, Carbs);
    assert three == FillColumn(two, Fat);
    forall j | 0 <= j < |rows| ensures three[j] == Filled(rows[j]) {
      assert one[j] == FillZero(rows[j], Protein);
      assert two[j] == FillZero(one[j], Carbs);
      assert three[j] == FillZero(two[j], Fat);
    }
  }

  /** No two fields share a name. */
  predicate DistinctNames(specs: seq<FieldSpec>) {
    forall a, b :: 0 <= a < b < |specs| ==> specs[a].0 != specs[b].0
  }

  lemma StandardNamesDistinct()
    ensures DistinctNames(StandardCols)
  {
  }

  /** The field `std` maps to its own name, and that column holds only NaN. */
  ghost predicate HoldsNaN(m: Mapped, std: string, height: nat) {
    std in m.mapping && m.mapping[std] == std && std in m.frame.data && m.frame.data[std] == NaNColumn(height)
  }

  /** A pass of the mapping loop for another field leaves this field's column alone. */
  lemma MapFieldKeepsNaN(m: Mapped, std: string, other: string, found: Option<string>, height: nat)
    requires HoldsNaN(m, std, height) && other != std
    ensures HoldsNaN(MapField(m, other, found), std, height)
  {
  }

  /**
   * A field none of whose spellings matches a header maps to its own name, and from then on that
   * column holds only NaN, even when the table had a column of that exact name.
   */
  lemma {:induction false} UnmatchedFieldIsNaN(raw: RawFrame, specs: seq<FieldSpec>, found: seq<Option<string>>, k: nat, n: nat)
    requires k < n <= |specs| == |found| && DistinctNames(specs) && found[k].None?
    ensures HoldsNaN(MapFields(raw, specs, found, n), specs[k].0, raw.height)
  {
    MapFieldsUnfold(raw, specs, found, n);
    if n > k + 1 {
      UnmatchedFieldIsNaN(raw, specs, found, k, n - 1);
      MapFieldKeepsNaN(MapFields(raw, specs, found, n - 1), specs[k].0, specs[n - 1].0, found[n - 1], raw.height);
    }
  }

  /** A standard field whose spellings match no header reads an all-NaN column of its own name. */
  lemma StandardUnmatchedIsNaN(raw: RawFrame, k: nat)
    requires k < |StandardCols| && ResolveColumn(raw.columns, StandardCols[k].1).None?
    ensures HoldsNaN(StandardMapping(raw), StandardCols[k].0, raw.height)
  {
    StandardNamesDistinct();
    UnmatchedFieldIsNaN(raw, StandardCols, Resolutions(raw.columns, StandardCols), k, |StandardCols|);
  }

  /** Catalog row `r` is parsed row `p`, which had a kcal value, after the fill and the clean-up. */
  predicate RowFrom(r: FoodRow, p: ParsedRow) {
    p.kcal.Some? && r == Finish(Filled(p))
  }

  /** Every catalog row is some parsed row with a kcal value, filled and finished. */
  lemma CatalogRowSource(raw: RawFrame, j: nat) returns (i: nat)
    requires WellFormed(raw)
    requires j < |NormalizeCatalog(raw).rows|
    ensures Complete(StandardMapping(raw)) && i < raw.height
    ensures RowFrom(NormalizeCatalog(raw).rows[j], ParseRows(StandardMapping(raw))[i])
  {
    var m := StandardMapping(raw);
    StandardMappingSound(raw);
    var parsed := ParseRows(m);
    var kept := DropMissingKcal(parsed);
    FillMacrosDefaults(kept);
    assert kept[j] in kept;
    i :| 0 <= i < |parsed| && parsed[i] == kept[j];
  }

  /** Without a header for the food name, every catalog row's name is the text "0.0". */
  lemma NoFoodHeaderGivesZeroText(raw: RawFrame)
    requires WellFormed(raw)
    requires ResolveColumn(raw.columns, StandardCols[0].1).None?
    ensures forall j :: 0 <= j < |NormalizeCatalog(raw).rows| ==> NormalizeCatalog(raw).rows[j].food == "0.0"
  {
    StandardUnmatchedIsNaN(raw, 0);
    var m := StandardMapping(raw);
    assert StandardCols[0].0 == "food";
    var rows := NormalizeCatalog(raw).rows;
    forall j | 0 <= j < |rows| ensures rows[j].food == "0.0" {
      var i := CatalogRowSource(raw, j);
      assert ParseRows(m)[i].food == NaNColumn(raw.height)[i];
    }
  }

  lemma NoCarbsFinish(p: ParsedRow)
    requires p.carbsG.None?
    ensures Finish(Filled(p)).carbsG == 0.0 && Finish(Filled(p)).carbsPer100kcal == 0.0
  {
  }

  lemma CatalogMapping(raw: RawFrame)
    requires WellFormed(raw)
    ensures NormalizeCatalog(raw).columnsMapped == StandardMapping(raw).mapping
  {
  }

  lemma UnmatchedCarbsRow(raw: RawFrame, j: nat)
    requires WellFormed(raw)
    requires ResolveColumn(raw.columns, StandardCols[3].1).None?
    requires j < |NormalizeCatalog(raw).rows|
    ensures NormalizeCatalog(raw).rows[j].carbsG == 0.0 && NormalizeCatalog(raw).rows[j].carbsPer100kcal == 0.0
  {
    StandardUnmatchedIsNaN(raw, 3);
    var m := StandardMapping(raw);
    assert StandardCols[3].0 == "carbs_g";
    var i := CatalogRowSource(raw, j);
    var p := ParseRows(m)[i];
    assert p.carbsG == ToNumber(NaNColumn(raw.height)[i]);
    NoCarbsFinish(p);
  }

  /** With the carbs field unmatched, no catalog row has carbs or a carbs density. */
  lemma UnmatchedCarbsAreZero(raw: RawFrame)
    requires WellFormed(raw)
    requires ResolveColumn(raw.columns, StandardCols[3].1).None?
    ensures "carbs_g" in NormalizeCatalog(raw).columnsMapped && NormalizeCatalog(raw).columnsMapped["carbs_g"] == "carbs_g"
    ensures forall j :: 0 <= j < |NormalizeCatalog(raw).rows| ==>
              NormalizeCatalog(raw).rows[j].carbsG == 0.0 && NormalizeCatalog(raw).rows[j].carbsPer100kcal == 0.0
  {
    StandardUnmatchedIsNaN(raw, 3);
    assert StandardCols[3].0 == "carbs_g";
    CatalogMapping(raw);
    forall j | 0 <= j < |NormalizeCatalog(raw).rows|
      ensures NormalizeCatalog(raw).rows[j].carbsG == 0.0 && NormalizeCatalog(raw).rows[j].carbsPer100kcal == 0.0
    {
      UnmatchedCarbsRow(raw, j);
    }
  }

  /**
   * A `carbs_g` column is discarded when no other header is a carbs spelling: the field maps to
   * `carbs_g`, that column is overwritten with NaN, and every catalog row gets 0 g of carbs.
   */
  lemma CarbsGColumnDiscarded(raw: RawFrame)
    requires WellFormed(raw)
    requires forall h, c :: h in raw.columns && h != "carbs_g" && c in StandardCols[3].1 ==> Normalize(h) != Lower(c)
    ensures "carbs_g" in NormalizeCatalog(raw).columnsMapped && NormalizeCatalog(raw).columnsMapped["carbs_g"] == "carbs_g"
    ensures forall j :: 0 <= j < |NormalizeCatalog(raw).rows| ==>
              NormalizeCatalog(raw).rows[j].carbsG == 0.0 && NormalizeCatalog(raw).rows[j].carbsPer100kcal == 0.0
  {
    var cols, cands := raw.columns, StandardCols[3].1;
    assert ResolveColumn(cols, cands).None? by {
      NormalizeCarbsG();
      CarbsSpellingLengths();
      forall k, j | 0 <= k < |cands| && 0 <= j < |cols| ensures Normalize(cols[j]) != Lower(cands[k]) {
        assert cands[k] in cands;
        if cols[j] == "carbs_g" {
          LengthMismatchNeverMatches(cols[j], cands[k]);
        }
      }
      ResolveColumnNoneIff(cols, cands);
    }
    UnmatchedCarbsAreZero(raw);
  }
}
