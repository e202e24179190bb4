/**
 The identifier-harmonisation join of method/build_meta_table.py: SciSciNet
 records are indexed by normalised DOI, the dc/dr disruption summaries are
 re-keyed from PaperID to DOI, OpenAlex PaperIDs are mapped to DOIs, and one
 meta-table row is emitted per textual row whose PaperID resolves to a DOI.
 Files are given as sequences of rows; reading them in chunks does not change
 the tables (LookupTable.IndexConcat).
 */
module MetaTable {
  import opened Options
  import opened Doi
  import opened LookupTable
  import opened RowScan

  /** A row of a file read with `dtype=str`: column name to cell. */
  type Row = map<string, Cell>

  /** A delimited file: its header and its data rows. */
  datatype Table = Table(columns: seq<string>, rows: seq<Row>)

  function ColumnSet(columns: seq<string>): set<string>
  {
    set c | c in columns
  }

  /** As pandas reads it, every row carries exactly the header's columns. */
  predicate WellFormed(t: Table)
  {
    forall r | r in t.rows :: r.Keys == ColumnSet(t.columns)
  }

  /** `row.get(col, None)`. */
  function Get(row: Row, col: string): Cell
  {
    if col in row then row[col] else None
  }

  // ---------------------------------------------------------------------
  // Steps 1-5: the lookup tables
  // ---------------------------------------------------------------------

  /** The row's normalised DOI: the key it is stored under in steps 1, 2 and 5, if any. */
  function RowDoi(row: Row): Cell
  {
    NormalizeDoi(Get(row, "DOI"))
  }

  /**
   Step 1: a SciSciNet row whose DOI normalises to something is stored under
   that DOI, with its DOI column replaced by the normalised value; rows whose
   DOI normalises to `None` are dropped.
   */
  function SciRecordEntry(row: Row): Option<(string, Row)>
  {
    var d := RowDoi(row);
    if d.Some? then Some((d.value, row["DOI" := d])) else None
  }

  /** Steps 2 and 5: `if d: table[pid] = d`, with `d` the normalised DOI of the row. */
  function PaperDoiEntry(row: Row): Option<(Cell, string)>
  {
    var d := RowDoi(row);
    if d.Some? && d.value != "" then Some((Get(row, "PaperID"), d.value)) else None
  }

  /**
   Steps 3 and 4: a dc or dr row is kept only when its PaperID has a
   SciSciNet DOI, and is stored under that DOI.
   */
  function DisruptionEntry(sciPidToDoi: map<Cell, string>, row: Row): Option<(string, Cell)>
  {
    var pid := Get(row, "PaperID");
    if pid in sciPidToDoi then Some((sciPidToDoi[pid], Get(row, "Value"))) else None
  }

  function DisruptionEntryFor(sciPidToDoi: map<Cell, string>): Row -> Option<(string, Cell)>
  {
    row => DisruptionEntry(sciPidToDoi, row)
  }

  /** `sci_doi_map`. */
  function SciDoiMap(sciRows: seq<Row>): map<string, Row>
  {
    Index(sciRows, SciRecordEntry)
  }

  /** `sci_pid_to_doi` (over the SciSciNet rows) and `pid_to_doi` (over the OpenAlex rows). */
  function PidToDoi(rows: seq<Row>): map<Cell, string>
  {
    Index(rows, PaperDoiEntry)
  }

  /** `dc_map` and `dr_map`. */
  function DisruptionMap(sciPidToDoi: map<Cell, string>, rows: seq<Row>): map<string, Cell>
  {
    Index(rows, DisruptionEntryFor(sciPidToDoi))
  }

  /** Row `row` gives PaperID `pid` a DOI in steps 2 and 5. */
  predicate GivesDoi(row: Row, pid: Cell)
  {
    Get(row, "PaperID") == pid && RowDoi(row).Some?
  }

  /** A dc/dr row lands under DOI `doi`. */
  predicate LandsUnder(sciPidToDoi: map<Cell, string>, row: Row, doi: string)
  {
    Get(row, "PaperID") in sciPidToDoi && sciPidToDoi[Get(row, "PaperID")] == doi
  }

  /**
   `sci_doi_map` holds a DOI exactly when some SciSciNet row normalises to it;
   the record stored is that of the last such row, with its DOI column
   normalised.
   */
  lemma SciDoiMapLastWins(rows: seq<Row>, doi: string)
    ensures doi in SciDoiMap(rows) <==> exists i | 0 <= i < |rows| :: RowDoi(rows[i]) == Some(doi)
    ensures doi in SciDoiMap(rows) ==>
      exists i | 0 <= i < |rows| ::
        && RowDoi(rows[i]) == Some(doi)
        && SciDoiMap(rows)[doi] == rows[i]["DOI" := Some(doi)]
        && forall j | i < j < |rows| :: RowDoi(rows[j]) != Some(doi)
  {
    assert forall r :: Writes(SciRecordEntry, r, doi) <==> RowDoi(r) == Some(doi);
    IndexLastWins(rows, SciRecordEntry, doi);
  }

  /**
   Every key of `sci_doi_map` is a usable normalised DOI (non-empty, no
   upper-case letter), and the record under it carries it in its DOI column.
   */
  lemma SciDoiMapKeys(rows: seq<Row>)
    ensures forall doi | doi in SciDoiMap(rows) ::
      doi != "" && NoUpper(doi) && Get(SciDoiMap(rows)[doi], "DOI") == Some(doi)
  {
    forall doi | doi in SciDoiMap(rows)
      ensures doi != "" && NoUpper(doi) && Get(SciDoiMap(rows)[doi], "DOI") == Some(doi)
    {
      SciDoiMapLastWins(rows, doi);
    }
  }

  /** On a well-formed file with a DOI column, every stored record has exactly the file's columns. */
  lemma SciDoiMapRecordColumns(sci: Table)
    requires WellFormed(sci) && "DOI" in sci.columns
    ensures forall doi | doi in SciDoiMap(sci.rows) :: SciDoiMap(sci.rows)[doi].Keys == ColumnSet(sci.columns)
  {
    forall doi | doi in SciDoiMap(sci.rows)
      ensures SciDoiMap(sci.rows)[doi].Keys == ColumnSet(sci.columns)
    {
      SciDoiMapLastWins(sci.rows, doi);
      var i :| 0 <= i < |sci.rows| && SciDoiMap(sci.rows)[doi] == sci.rows[i]["DOI" := Some(doi)];
      assert sci.rows[i] in sci.rows;
    }
  }

  /**
   A PaperID is in `pid_to_doi` exactly when some row with that PaperID has a
   usable DOI; it maps to the normalised DOI of the last such row.
   */
  lemma PidToDoiLastWins(rows: seq<Row>, pid: Cell)
    ensures pid in PidToDoi(rows) <==> exists i | 0 <= i < |rows| :: GivesDoi(rows[i], pid)
    ensures pid in PidToDoi(rows) ==>
      exists i | 0 <= i < |rows| ::
        && GivesDoi(rows[i], pid)
        && RowDoi(rows[i]) == Some(PidToDoi(rows)[pid])
        && forall j | i < j < |rows| :: !GivesDoi(rows[j], pid)
  {
    assert forall r :: Writes(PaperDoiEntry, r, pid) <==> GivesDoi(r, pid);
    IndexLastWins(rows, PaperDoiEntry, pid);
  }

  /** Every DOI in `sci_pid_to_doi` or `pid_to_doi` is non-empty and has no upper-case letter. */
  lemma PidToDoiValues(rows: seq<Row>)
    ensures forall pid | pid in PidToDoi(rows) :: PidToDoi(rows)[pid] != "" && NoUpper(PidToDoi(rows)[pid])
  {
    forall pid | pid in PidToDoi(rows)
      ensures PidToDoi(rows)[pid] != "" && NoUpper(PidToDoi(rows)[pid])
    {
      PidToDoiLastWins(rows, pid);
    }
  }

  /**
   `dc_map` and `dr_map` hold a DOI exactly when some summary row's PaperID
   maps to it in `sci_pid_to_doi`; the value is the `Value` of the last such
   row, even when that row has a different PaperID with the same DOI.
   */
  lemma DisruptionMapLastWins(sciPidToDoi: map<Cell, string>, rows: seq<Row>, doi: string)
    ensures doi in DisruptionMap(sciPidToDoi, rows) <==>
      exists i | 0 <= i < |rows| :: LandsUnder(sciPidToDoi, rows[i], doi)
    ensures doi in DisruptionMap(sciPidToDoi, rows) ==>
      exists i | 0 <= i < |rows| ::
        && LandsUnder(sciPidToDoi, rows[i], doi)
        && DisruptionMap(sciPidToDoi, rows)[doi] == Get(rows[i], "Value")
        && forall j | i < j < |rows| :: !LandsUnder(sciPidToDoi, rows[j], doi)
  {
    var entry := DisruptionEntryFor(sciPidToDoi);
    assert forall r :: Writes(entry, r, doi) <==> LandsUnder(sciPidToDoi, r, doi);
    IndexLastWins(rows, entry, doi);
  }

  /** The keys of `dc_map` and `dr_map` are DOIs that `sci_pid_to_doi` assigns. */
  lemma DisruptionMapKeys(sciPidToDoi: map<Cell, string>, rows: seq<Row>)
    ensures DisruptionMap(sciPidToDoi, rows).Keys <= sciPidToDoi.Values
  {
    forall doi | doi in DisruptionMap(sciPidToDoi, rows)
      ensures doi in sciPidToDoi.Values
    {
      DisruptionMapLastWins(sciPidToDoi, rows, doi);
      var i :| 0 <= i < |rows| && LandsUnder(sciPidToDoi, rows[i], doi);
      assert sciPidToDoi[Get(rows[i], "PaperID")] == doi;
    }
  }

  // ---------------------------------------------------------------------
  // Step 6: the meta-table rows
  // ---------------------------------------------------------------------

  /** The columns copied from each textual row. */
  const TextualColumns: seq<string> := [
    "PaperID", "new_word", "new_word_reuse", "new_phrase", "new_phrase_reuse",
    "new_word_comb", "new_word_comb_reuse", "new_phrase_comb",
    "new_phrase_comb_reuse", "semantic_distance",
    "novelty_raw", "consolidation_raw",
    "Z_novelty", "Z_consolidation",
    "textual_disruption", "combo_novelty",
    "n_words", "n_phrases", "has_abstract"
  ]

  /** The meta-table columns that do not come from the SciSciNet record. */
  const FixedColumns: seq<string> := TextualColumns + ["doi", "openalex_pid", "dc", "dr"]

  const SciPrefix: string := "sci_"

  /** The meta-table column `f"sci_{col}"`. */
  function SciKey(col: string): (k: string)
    ensures |k| == |col| + 4 && k[..4] == SciPrefix && k[4..] == col
  {
    SciPrefix + col
  }

  /** A column name that cannot be a `sci_` column. */
  predicate NotSci(c: string)
  {
    |c| < 2 || c[0] != 's' || c[1] != 'c'
  }

  /** No fixed column starts with `sci_`, so a SciSciNet field never overwrites one. */
  lemma FixedColumnsAreNotSci()
    ensures forall c | c in FixedColumns :: NotSci(c)
  {
    assert forall i | 0 <= i < |FixedColumns| :: NotSci(FixedColumns[i]);
  }

  /** The lookup tables of steps 1-5, with the SciSciNet header `sci_cols`. */
  datatype Lookups = Lookups(
    sciDoiMap: map<string, Row>,
    sciColumns: seq<string>,
    dcMap: map<string, Cell>,
    drMap: map<string, Cell>,
    pidToDoi: map<Cell, string>)

  function BuildLookups(sci: Table, dc: seq<Row>, dr: seq<Row>, papers: seq<Row>): Lookups
  {
    var sciPidToDoi := PidToDoi(sci.rows);
    Lookups(SciDoiMap(sci.rows), sci.columns,
            DisruptionMap(sciPidToDoi, dc), DisruptionMap(sciPidToDoi, dr), PidToDoi(papers))
  }

  /** A textual row enters the meta-table when its PaperID has an OpenAlex DOI. */
  predicate Resolves(lk: Lookups, row: Row)
  {
    Get(row, "PaperID") in lk.pidToDoi
  }

  /** The fields `sci_<col>` for the columns `done` of a SciSciNet record, with the record's values. */
  function Prefixed(rec: Row, done: set<string>): Row
    requires done <= rec.Keys
  {
    map c | c in done :: SciKey(c) := rec[c]
  }

  /** The fields `sci_<col>` for the given columns, all None. */
  function Blanks(columns: seq<string>): Row
  {
    map c | c in columns :: SciKey(c) := None
  }

  /** The `sci_` fields of a DOI: the matched record under prefixed names, or None for every header column. */
  function SciFields(lk: Lookups, doi: string): Row
  {
    if doi in lk.sciDoiMap then
      var rec := lk.sciDoiMap[doi];
      Prefixed(rec, rec.Keys)
    else
      Blanks(lk.sciColumns)
  }

  /** Every `sci_` field name starts with the prefix, so none is a fixed column. */
  lemma SciFieldsAreSci(lk: Lookups, doi: string)
    ensures forall k | k in SciFields(lk, doi) :: !NotSci(k) && k !in FixedColumns
  {
    FixedColumnsAreNotSci();
    forall k | k in SciFields(lk, doi)
      ensures !NotSci(k)
    {
      var col :| k == SciKey(col);
      assert k[..4] == SciPrefix;
    }
  }

  /** The textual columns of a row, each `row.get(col, None)`. */
  function TextualFields(row: Row): Row
  {
    map c | c in TextualColumns :: Get(row, c)
  }

  /** The meta-table row of a textual row that resolves. */
  function MetaRow(lk: Lookups, row: Row): Row
    requires Resolves(lk, row)
  {
    var pid := Get(row, "PaperID");
    var doi := lk.pidToDoi[pid];
    (TextualFields(row)["doi" := Some(doi)]["openalex_pid" := pid] + SciFields(lk, doi))
      ["dc" := Get(lk.dcMap, doi)]["dr" := Get(lk.drMap, doi)]
  }

  /** The first letter of `doi`, `openalex_pid`, `dc` and `dr` starts no textual column. */
  predicate AddedLetter(c: string)
  {
    |c| > 0 && (c[0] == 'd' || c[0] == 'o')
  }

  lemma TextualColumnsAreNotAdded()
    ensures forall c | c in TextualColumns :: !AddedLetter(c) && NotSci(c)
  {
    assert forall i | 0 <= i < |TextualColumns| :: !AddedLetter(TextualColumns[i]) && NotSci(TextualColumns[i]);
  }

  /** `doi = pid_to_doi[pid]` and `openalex_pid = pid`. */
  lemma MetaRowIdentity(lk: Lookups, row: Row)
    requires Resolves(lk, row)
    ensures var r, pid := MetaRow(lk, row), Get(row, "PaperID");
      r["doi"] == Some(lk.pidToDoi[pid]) && r["openalex_pid"] == pid
  {
    SciFieldsAreSci(lk, lk.pidToDoi[Get(row, "PaperID")]);
    assert NotSci("doi") && NotSci("openalex_pid");
  }

  /** Every textual column is copied with `row.get(col, None)`: None when the row lacks it. */
  lemma MetaRowTextualField(lk: Lookups, row: Row, c: string)
    requires Resolves(lk, row) && c in TextualColumns
    ensures MetaRow(lk, row)[c] == Get(row, c)
    ensures c !in row ==> MetaRow(lk, row)[c] == None
  {
    SciFieldsAreSci(lk, lk.pidToDoi[Get(row, "PaperID")]);
    TextualColumnsAreNotAdded();
    assert !AddedLetter(c) && NotSci(c);
  }

  /** `dc` and `dr` are the disruption summaries of the row's DOI, or None. */
  lemma MetaRowDisruption(lk: Lookups, row: Row)
    requires Resolves(lk, row)
    ensures var r, doi := MetaRow(lk, row), lk.pidToDoi[Get(row, "PaperID")];
      && r["dc"] == (if doi in lk.dcMap then lk.dcMap[doi] else None)
      && r["dr"] == (if doi in lk.drMap then lk.drMap[doi] else None)
  {
  }

  /**
   A `sci_` field of a meta-table row: the matched record's value when the
   DOI is in `sci_doi_map`, otherwise None for every SciSciNet header column.
   */
  lemma MetaRowSciField(lk: Lookups, row: Row, c: string)
    requires Resolves(lk, row)
    ensures var r, doi := MetaRow(lk, row), lk.pidToDoi[Get(row, "PaperID")];
      && (doi in lk.sciDoiMap && c in lk.sciDoiMap[doi] ==> r[SciKey(c)] == lk.sciDoiMap[doi][c])
      && (doi !in lk.sciDoiMap && c in lk.sciColumns ==> r[SciKey(c)] == None)
  {
    var k := SciKey(c);
    assert k[..4] == SciPrefix;
    assert !NotSci(k) && NotSci("dc") && NotSci("dr");
  }

  /** `sci_` names of the given columns. */
  function SciColumnNames(columns: seq<string>): (names: seq<string>)
    ensures |names| == |columns| && forall i | 0 <= i < |columns| :: names[i] == SciKey(columns[i])
  {
    if columns == [] then [] else [SciKey(columns[0])] + SciColumnNames(columns[1..])
  }

  /** The meta-table header, listed in the order step 6 inserts the fields; the proofs use only its set of columns. */
  function MetaColumns(lk: Lookups): seq<string>
  {
    TextualColumns + ["doi", "openalex_pid"] + SciColumnNames(lk.sciColumns) + ["dc", "dr"]
  }

  /** Every record in `sci_doi_map` has exactly the SciSciNet header's columns. */
  predicate RecordsMatchHeader(lk: Lookups)
  {
    forall doi | doi in lk.sciDoiMap :: lk.sciDoiMap[doi].Keys == ColumnSet(lk.sciColumns)
  }

  lemma SciFieldsKeys(lk: Lookups, doi: string)
    requires RecordsMatchHeader(lk)
    ensures SciFields(lk, doi).Keys == ColumnSet(SciColumnNames(lk.sciColumns))
  {
    var names := SciColumnNames(lk.sciColumns);
    forall k | k in ColumnSet(names)
      ensures k in SciFields(lk, doi)
    {
      var i :| 0 <= i < |names| && names[i] == k;
      assert lk.sciColumns[i] in ColumnSet(lk.sciColumns);
    }
    forall k | k in SciFields(lk, doi)
      ensures k in ColumnSet(names)
    {
      var col :| col in ColumnSet(lk.sciColumns) && k == SciKey(col);
      var i :| 0 <= i < |lk.sciColumns| && lk.sciColumns[i] == col;
      assert names[i] == k;
    }
  }

  lemma ColumnSetConcat(a: seq<string>, b: seq<string>)
    ensures ColumnSet(a + b) == ColumnSet(a) + ColumnSet(b)
  {
  }

  lemma HeaderColumnSet(t: seq<string>, a: string, b: string, s: seq<string>, c: string, d: string)
    ensures ColumnSet(t + [a, b] + s + [c, d]) == ColumnSet(t) + {a, b} + ColumnSet(s) + {c, d}
  {
    ColumnSetConcat(t, [a, b]);
    ColumnSetConcat(t + [a, b], s);
    ColumnSetConcat(t + [a, b] + s, [c, d]);
  }

  /**
   When the records carry the header's columns, every meta-table row has
   exactly the meta-table header's columns, matched or not.
   */
  lemma MetaRowSchema(lk: Lookups, row: Row)
    requires Resolves(lk, row) && RecordsMatchHeader(lk)
    ensures MetaRow(lk, row).Keys == ColumnSet(MetaColumns(lk))
  {
    var doi := lk.pidToDoi[Get(row, "PaperID")];
    SciFieldsKeys(lk, doi);
    HeaderColumnSet(TextualColumns, "doi", "openalex_pid", SciColumnNames(lk.sciColumns), "dc", "dr");
    assert TextualFields(row).Keys == ColumnSet(TextualColumns);
  }

  /** The loop body of step 6 as a row-to-output function: `continue` unless the PaperID resolves. */
  function MetaRowOf(lk: Lookups): Row -> Option<Row>
  {
    row => if Resolves(lk, row) then Some(MetaRow(lk, row)) else None
  }

  /** Step 6 over the textual rows in order. */
  function MetaRows(lk: Lookups, textual: seq<Row>): seq<Row>
  {
    Emit(textual, MetaRowOf(lk))
  }

  /**
   The meta-table has exactly one row per resolving textual row, in input
   order: its k-th row is the meta-table row of the k-th resolving row.
   */
  lemma MetaRowsAreResolvedRows(lk: Lookups, textual: seq<Row>)
    ensures var ps := Emitting(textual, MetaRowOf(lk));
      && (forall k | 0 <= k < |ps| :: ps[k] < |textual| && Resolves(lk, textual[ps[k]]))
      && (forall k, l | 0 <= k < l < |ps| :: ps[k] < ps[l])
      && (forall i | 0 <= i < |textual| && Resolves(lk, textual[i]) :: i in ps)
      && |MetaRows(lk, textual)| == |ps|
      && forall k | 0 <= k < |ps| :: MetaRows(lk, textual)[k] == MetaRow(lk, textual[ps[k]])
  {
    EmitIsSelection(textual, MetaRowOf(lk));
  }

  /** Textual rows whose PaperID has no DOI contribute nothing. */
  lemma MetaRowsSkipUnresolved(lk: Lookups, textual: seq<Row>, extra: seq<Row>)
    requires forall r | r in extra :: !Resolves(lk, r)
    ensures MetaRows(lk, textual + extra) == MetaRows(lk, textual)
  {
    EmitSkips(textual, extra, MetaRowOf(lk));
  }

  /** The lookup tables built from well-formed SciSciNet data carry the header's columns in every record. */
  lemma BuildLookupsMatchHeader(sci: Table, dc: seq<Row>, dr: seq<Row>, papers: seq<Row>)
    requires WellFormed(sci) && "DOI" in sci.columns
    ensures RecordsMatchHeader(BuildLookups(sci, dc, dr, papers))
  {
    SciDoiMapRecordColumns(sci);
  }

  /** The meta-table of the four inputs and the textual indicator rows. */
  function MetaTableRows(sci: Table, dc: seq<Row>, dr: seq<Row>, papers: seq<Row>, textual: seq<Row>): seq<Row>
  {
    MetaRows(BuildLookups(sci, dc, dr, papers), textual)
  }

  /**
   Every meta-table row carries a normalised DOI (non-empty, no upper-case
   letter) and, for well-formed SciSciNet data, exactly the meta-table header.
   */
  lemma MetaTableRowsWellFormed(sci: Table, dc: seq<Row>, dr: seq<Row>, papers: seq<Row>, textual: seq<Row>)
    requires WellFormed(sci) && "DOI" in sci.columns
    ensures var lk := BuildLookups(sci, dc, dr, papers);
      forall r | r in MetaTableRows(sci, dc, dr, papers, textual) ::
        && r.Keys == ColumnSet(MetaColumns(lk))
        && r["doi"].Some? && r["doi"].value != "" && NoUpper(r["doi"].value)
  {
    var lk := BuildLookups(sci, dc, dr, papers);
    BuildLookupsMatchHeader(sci, dc, dr, papers);
    PidToDoiValues(papers);
    MetaRowsAreResolvedRows(lk, textual);
    var ps := Emitting(textual, MetaRowOf(lk));
    forall r | r in MetaTableRows(sci, dc, dr, papers, textual)
      ensures r.Keys == ColumnSet(MetaColumns(lk))
      ensures r["doi"].Some? && r["doi"].value != "" && NoUpper(r["doi"].value)
    {
      var k :| 0 <= k < |ps| && r == MetaRow(lk, textual[ps[k]]);
      MetaRowSchema(lk, textual[ps[k]]);
      MetaRowIdentity(lk, textual[ps[k]]);
    }
  }

  // ---------------------------------------------------------------------
  // The script body: loops filling the dictionaries and the row list
  // ---------------------------------------------------------------------

  /** `for col in cols: new_row[col] = row.get(col, None)`, starting from an empty dictionary. */
  method CopyColumns(row: Row, cols: seq<string>) returns (m: Row)
    ensures m == map c | c in cols :: Get(row, c)
  {
    m := map[];
    for i := 0 to |cols|
      invariant m == map c | c in cols[..i] :: Get(row, c)
    {
      assert cols[..i + 1] == cols[..i] + [cols[i]];
      m := m[cols[i] := Get(row, cols[i])];
    }
    assert cols[..|cols|] == cols;
  }

  lemma MergeUpdate(base: Row, fields: Row, k: string, v: Cell)
    ensures (base + fields)[k := v] == base + fields[k := v]
  {
  }

  lemma PrefixedStep(rec: Row, done: set<string>, c: string)
    requires done <= rec.Keys && c in rec
    ensures Prefixed(rec, done)[SciKey(c) := rec[c]] == Prefixed(rec, done + {c})
  {
    var l := Prefixed(rec, done)[SciKey(c) := rec[c]];
    var r := Prefixed(rec, done + {c});
    forall k | k in r
      ensures k in l && l[k] == r[k]
    {
      var d :| d in done + {c} && k == SciKey(d);
      assert d == k[4..];
    }
    forall k | k in l
      ensures k in r
    {
      if k != SciKey(c) {
        var d :| d in done && k == SciKey(d);
      }
    }
  }

  lemma BlanksStep(columns: seq<string>, i: nat)
    requires i < |columns|
    ensures Blanks(columns[..i])[SciKey(columns[i]) := None] == Blanks(columns[..i + 1])
  {
    assert columns[..i + 1] == columns[..i] + [columns[i]];
    var l := Blanks(columns[..i])[SciKey(columns[i]) := None];
    var r := Blanks(columns[..i + 1]);
    forall k | k in r
      ensures k in l
    {
      var d :| d in columns[..i + 1] && k == SciKey(d);
      if d != columns[i] {
        assert d in columns[..i];
      }
    }
    forall k | k in l
      ensures k in r
    {
      if k != SciKey(columns[i]) {
        var d :| d in columns[..i] && k == SciKey(d);
        assert d in columns[..i + 1];
      }
    }
  }

  /** `for col, val in rec.items(): new_row[f"sci_{col}"] = val`. */
  method CopyRecord(base: Row, rec: Row) returns (m: Row)
    ensures m == base + Prefixed(rec, rec.Keys)
  {
    m := base;
    var todo := rec.Keys;
    ghost var done: set<string> := {};
    assert Prefixed(rec, done) == map[];
    assert base + map[] == base;
    while todo != {}
      invariant todo <= rec.Keys && done == rec.Keys - todo
      invariant m == base + Prefixed(rec, done)
      decreases |todo|
    {
      var c :| c in todo;
      PrefixedStep(rec, done, c);
      MergeUpdate(base, Prefixed(rec, done), SciKey(c), rec[c]);
      m := m[SciKey(c) := rec[c]];
      todo := todo - {c};
      done := done + {c};
    }
    assert done == rec.Keys;
  }

  /** `for col in sci_cols: new_row[f"sci_{col}"] = None`. */
  method BlankRecord(base: Row, columns: seq<string>) returns (m: Row)
    ensures m == base + Blanks(columns)
  {
    m := base;
    assert Blanks(columns[..0]) == map[];
    assert base + map[] == base;
    for i := 0 to |columns|
      invariant m == base + Blanks(columns[..i])
    {
      BlanksStep(columns, i);
      MergeUpdate(base, Blanks(columns[..i]), SciKey(columns[i]), None);
      m := m[SciKey(columns[i]) := None];
    }
    assert columns[..|columns|] == columns;
  }

  /** The body of the step-6 loop for a row whose PaperID resolves. */
  method BuildRow(lk: Lookups, row: Row) returns (newRow: Row)
    requires Resolves(lk, row)
    ensures newRow == MetaRow(lk, row)
  {
    var pid := Get(row, "PaperID");
    var doi := lk.pidToDoi[pid];
    newRow := CopyColumns(row, TextualColumns);
    newRow := newRow["doi" := Some(doi)];
    newRow := newRow["openalex_pid" := pid];
    if doi in lk.sciDoiMap {
      newRow := CopyRecord(newRow, lk.sciDoiMap[doi]);
    } else {
      newRow := BlankRecord(newRow, lk.sciColumns);
    }
    newRow := newRow["dc" := Get(lk.dcMap, doi)];
    newRow := newRow["dr" := Get(lk.drMap, doi)];
  }

  /**
   Steps 1-6: build the five lookup tables by scanning the inputs, then emit
   one row per textual row whose PaperID resolves.
   */
  method BuildMetaTable(sci: Table, dc: seq<Row>, dr: seq<Row>, papers: seq<Row>, textual: seq<Row>)
    returns (rows: seq<Row>)
    ensures rows == MetaTableRows(sci, dc, dr, papers, textual)
  {
    var sciDoiMap := BuildIndex(sci.rows, SciRecordEntry);
    var sciPidToDoi := BuildIndex(sci.rows, PaperDoiEntry);
    var dcMap := BuildIndex(dc, DisruptionEntryFor(sciPidToDoi));
    var drMap := BuildIndex(dr, DisruptionEntryFor(sciPidToDoi));
    var pidToDoi := BuildIndex(papers, PaperDoiEntry);
    var lk := Lookups(sciDoiMap, sci.columns, dcMap, drMap, pidToDoi);
    assert lk == BuildLookups(sci, dc, dr, papers);
    rows := [];
    for i := 0 to |textual|
      invariant rows == MetaRows(lk, textual[..i])
    {
      assert textual[..i + 1][..i] == textual[..i];
      var row := textual[i];
      if !Resolves(lk, row) {
        continue;
      }
      var newRow := BuildRow(lk, row);
      rows := rows + [newRow];
    }
    assert textual[..|textual|] == textual;
  }
}
