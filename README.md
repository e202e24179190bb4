# Textual disruption science: identifier join and indicator assembly

This project models, in Dafny, the two computational cores of the textual
disruption study's public scripts and proves properties of them.

- **The meta-table join** (`method/build_meta_table.py`). `normalize_doi`
  turns a raw DOI cell into a canonical DOI: lower-case, surrounding
  whitespace stripped, the `https://doi.org/`, `http://doi.org/` and `doi:`
  substrings deleted, empty or missing input mapped to None. The script then
  scans its inputs and fills five dictionaries, each in row order with the
  later row winning: `sci_doi_map` (DOI to SciSciNet record),
  `sci_pid_to_doi`, the citation-disruption summaries `dc_map` and `dr_map`
  (re-keyed from SciSciNet PaperID to DOI), and the OpenAlex `pid_to_doi`. It
  emits one meta-table row per textual-indicator row whose PaperID has a DOI,
  filled with the textual columns, `doi`, `openalex_pid`, the `sci_`-prefixed
  SciSciNet fields (or None for every SciSciNet column when the DOI has no
  record), and `dc`/`dr`.
- **The indicator assembly** (`method/build_textual_innovation_indicators.py`).
  Novelty and consolidation are sums of metric columns; disruption is
  standardised novelty minus standardised consolidation; Uzzi-style
  combinational novelty scores every word pair from the words' frequencies
  (1.0 for an unknown word), averages the scores per paper within each chunk
  of the pair file, then averages those chunk means per paper across chunks;
  `run_pipeline` attaches all of this to the papers with a left merge on
  PaperID.

The meta-table inputs are sequences of rows (`map<string, Cell>`, a cell
being a string or None for a missing value). The indicator inputs are typed
records instead: `Indicators.Metrics` rows with `real` metric columns, the
word column of the word-frequency file as cells, and the word-pair file as
chunks of `Indicators.WordPair` records. The loops of the two scripts are
methods proved equal to functions over the whole input: the five
dictionary-filling scans (`LookupTable.BuildIndex`), the row-emitting loop of
step 6 (`MetaTable.BuildMetaTable`) and the chunk loop of the Uzzi computation
(`Indicators.CombinationalNoveltyUzzi`). `Indicators.RunPipeline`, which has
no loop, assembles the result columns and states each result row's content.
The properties are proved about the functions.
The meta-table files are read in chunks by the script; `LookupTable.IndexConcat`
shows that chunk boundaries do not change a dictionary, so each file is one
sequence. The Uzzi chunks stay explicit, because they change the result
(`Grouping.TwoStageMeanIsUnweighted`).

Modules: `Options` (Option, Cell), `Doi` (normalize_doi), `LookupTable`
(the last-write-wins dictionary scan), `RowScan` (the row-emitting scan),
`MetaTable` (steps 1-6), `Grouping` (grouped mean, concat, left merge),
`Indicators` (scores, Uzzi, pipeline).

## Model

| member | source | states |
|---|---|---|
| Doi.Lower | method/build_meta_table.py:40 | `str.lower()` keeps the length and leaves no upper-case letter |
| Doi.TrimStart | method/build_meta_table.py:40 | the left half of `strip()`: a suffix of the input that is empty or starts with a non-space |
| Doi.TrimEnd | method/build_meta_table.py:40 | the right half of `strip()`: a prefix of the input that is empty or ends with a non-space |
| Doi.Strip | method/build_meta_table.py:40 | `strip()` returns no more than the input's characters, and neither starts nor ends with whitespace |
| Doi.RemoveAll | method/build_meta_table.py:41-43 | `replace(pat, "")`, deleting every leftmost non-overlapping occurrence, never lengthens the string; its value is pinned down by `Doi.RemoveAllNoOccurrence` and `Doi.RemoveAllFirstOccurrence` |
| Doi.Cleaned | method/build_meta_table.py:40-43 | the string before the emptiness test is no longer than the input and has no upper-case letter |
| Doi.NormalizeDoi | method/build_meta_table.py:34-44 | a missing DOI gives None; the result is never the empty string; a result has no upper-case letter |
| Doi.NormalizeWhitespaceIsNone | method/build_meta_table.py:40-44 | a whitespace-only (or empty) DOI gives None |
| Doi.NormalizeIgnoresCaseAndPadding | method/build_meta_table.py:40 | two DOIs equal after lower-casing normalise identically, whatever whitespace pads either end |
| Doi.TrimStartDropsSpace | method/build_meta_table.py:40 | the leading part that strip removes is all whitespace |
| Doi.TrimStartSkipsSpace | method/build_meta_table.py:40 | leading whitespace does not change what strip keeps |
| Doi.TrimEndSkipsSpace | method/build_meta_table.py:40 | trailing whitespace does not change what strip keeps |
| Doi.StripSkipsTrailingSpace | method/build_meta_table.py:40 | strip of a string with whitespace appended equals strip of the string |
| Doi.RemoveAllKeepsChars | method/build_meta_table.py:41-43 | deleting a substring only removes characters, so no upper-case letter can appear |
| Doi.RemoveAllNoOccurrence | method/build_meta_table.py:41-43 | a string in which the pattern does not occur is left unchanged |
| Doi.RemoveAllFirstOccurrence | method/build_meta_table.py:41-43 | in `a + pat + b` with no occurrence starting inside `a`, `a` is kept, this occurrence is deleted and the deletion goes on in `b` |
| Doi.RemoveAllWithoutLead | method/build_meta_table.py:41-43 | a string not containing the pattern's first character is left unchanged by the deletion |
| Doi.NormalizeDropsScheme | method/build_meta_table.py:40-44 | a DOI that lower-cases to `doi:` followed by any body not starting with whitespace normalises exactly as the body does |
| Doi.NormalizeDropsResolver | method/build_meta_table.py:40-44 | a DOI that lower-cases to `https://doi.org/` followed by any body not starting with whitespace normalises exactly as the body does |
| Doi.NormalizeDropsHttpResolver | method/build_meta_table.py:40-44 | the same for `http://doi.org/`, which the earlier `https://doi.org/` deletion passes over |
| Doi.NormalizePlain | method/build_meta_table.py:40-44 | a non-empty lower-case DOI without surrounding whitespace in which none of `https://doi.org/`, `http://doi.org/`, `doi:` occurs is its own normal form |
| Doi.NormalizeKeepsPhysRev | method/build_meta_table.py:40-44 | `"10.1103/physrevd.1"`, which holds a `d` and an `h` but none of the deleted substrings, normalises to itself |
| Doi.NormalizeUpperScheme | method/build_meta_table.py:40-44 | `"DOI:10.1/X"` normalises to `"10.1/x"`: deletion happens after lower-casing |
| Doi.NormalizeResolverUrl | method/build_meta_table.py:40-44 | `"https://doi.org/10.1/x"` normalises to `"10.1/x"` as well |
| Doi.NormalizeKeepsSpaceAfterScheme | method/build_meta_table.py:40-44 | strip runs before the deletions, so `"doi: 10.1/x"` keeps the inner space: `" 10.1/x"` |
| Doi.SchemeDeletedLast | method/build_meta_table.py:41-43 | the deletion order matters: `"https://doi:doi.org/x"` normalises to `"https://doi.org/x"`, while deleting `doi:` first and the resolver after would leave `"x"` |
| LookupTable.Index | method/build_meta_table.py:78-79 | definition of the dictionary `table[k] = v` builds over the rows; characterised by `LookupTable.IndexIsLastWrite` |
| LookupTable.LastWrite | method/build_meta_table.py:78-79 | the last row that writes a key, or -1; no later row writes it |
| LookupTable.IndexIsLastWrite | method/build_meta_table.py:78-79 | a key is in the dictionary iff some row writes it, and its value is the last such row's |
| LookupTable.IndexLastWins | method/build_meta_table.py:92-94 | the same, stated with an explicit row index and "no later row writes the key" |
| LookupTable.IndexConcat | method/build_meta_table.py:70-79 | scanning the rows chunk by chunk gives the union of the chunks' dictionaries, the later chunk winning |
| LookupTable.BuildIndex | method/build_meta_table.py:141-143 | the dictionary-filling loop produces exactly the specified dictionary |
| RowScan.Emit | method/build_meta_table.py:166-191 | definition of the list the append loop builds, skipping rows that `continue`; characterised by `RowScan.EmitIsSelection` |
| RowScan.EmitIsSelection | method/build_meta_table.py:166-191 | the row-emitting loop outputs exactly one row per emitting input row, in input order |
| RowScan.EmitSkips | method/build_meta_table.py:169-171 | rows that `continue` add nothing |
| MetaTable.RowDoi | method/build_meta_table.py:72 | definition of a row's normalised DOI, the key of steps 1, 2 and 5; characterised by `Doi.NormalizeDoi` |
| MetaTable.SciRecordEntry | method/build_meta_table.py:72-79 | definition of the entry one SciSciNet row writes into `sci_doi_map`; characterised by `MetaTable.SciDoiMapLastWins` |
| MetaTable.PaperDoiEntry | method/build_meta_table.py:91-94 | definition of the entry one row writes into `sci_pid_to_doi` or `pid_to_doi`; characterised by `MetaTable.PidToDoiLastWins` |
| MetaTable.DisruptionEntry | method/build_meta_table.py:106-109 | definition of the entry one summary row writes into `dc_map` or `dr_map`; characterised by `MetaTable.DisruptionMapLastWins` |
| MetaTable.BuildLookups | method/build_meta_table.py:68-143 | definition of the five dictionaries and `sci_cols` of steps 1-5; characterised by `MetaTable.BuildLookupsMatchHeader` and the `LastWins` lemmas |
| MetaTable.SciDoiMap | method/build_meta_table.py:68-79 | definition of `sci_doi_map`; characterised by `MetaTable.SciDoiMapLastWins` |
| MetaTable.PidToDoi | method/build_meta_table.py:88-94 | definition of `sci_pid_to_doi`, and of `pid_to_doi` (lines 137-143) over the OpenAlex rows; characterised by `MetaTable.PidToDoiLastWins` |
| MetaTable.DisruptionMap | method/build_meta_table.py:103-109 | definition of `dc_map`, and of `dr_map` (lines 120-126); characterised by `MetaTable.DisruptionMapLastWins` |
| MetaTable.SciDoiMapLastWins | method/build_meta_table.py:70-79 | a DOI is in `sci_doi_map` iff some SciSciNet row normalises to it; the record is the last such row with its DOI column normalised |
| MetaTable.SciDoiMapKeys | method/build_meta_table.py:71-79 | every key of `sci_doi_map` is a non-empty DOI without upper-case letters, and its record carries it in `DOI` |
| MetaTable.SciDoiMapRecordColumns | method/build_meta_table.py:73-79 | every stored record has exactly the SciSciNet header's columns |
| MetaTable.PidToDoiLastWins | method/build_meta_table.py:137-143 | a PaperID is in `pid_to_doi` (and `sci_pid_to_doi`) iff some row with it has a usable DOI; it maps to the last such row's normalised DOI |
| MetaTable.PidToDoiValues | method/build_meta_table.py:88-94 | every DOI in `sci_pid_to_doi` and `pid_to_doi` is non-empty and has no upper-case letter |
| MetaTable.DisruptionMapLastWins | method/build_meta_table.py:103-109 | a DOI is in `dc_map`/`dr_map` iff some summary row's PaperID maps to it; the value is the last such row's `Value` |
| MetaTable.DisruptionMapKeys | method/build_meta_table.py:120-126 | the keys of `dc_map` and `dr_map` are among the values of `sci_pid_to_doi` |
| MetaTable.SciKey | method/build_meta_table.py:183 | `sci_<col>` starts with `sci_` and gives back `col` after the prefix |
| MetaTable.FixedColumnsAreNotSci | method/build_meta_table.py:156-189 | no textual column and none of `doi`, `openalex_pid`, `dc`, `dr` can be a `sci_` column |
| MetaTable.SciFieldsAreSci | method/build_meta_table.py:181-186 | every `sci_` field name is outside the fixed columns, so none overwrites them |
| MetaTable.TextualFields | method/build_meta_table.py:175-176 | definition of the textual part of `new_row`; characterised by `MetaTable.MetaRowTextualField` |
| MetaTable.SciFields | method/build_meta_table.py:181-186 | definition of the `sci_` part of `new_row`, matched or not; characterised by `MetaTable.MetaRowSciField` and `MetaTable.SciFieldsKeys` |
| MetaTable.MetaRow | method/build_meta_table.py:172-189 | definition of `new_row`; characterised field by field by the `MetaTable.MetaRow*` lemmas |
| MetaTable.MetaRows | method/build_meta_table.py:166-191 | definition of `rows` over the textual rows; characterised by `MetaTable.MetaRowsAreResolvedRows` |
| MetaTable.MetaTableRows | method/build_meta_table.py:68-191 | definition of the final `rows` list from the five input files; characterised by `MetaTable.MetaRowsAreResolvedRows` and `MetaTable.MetaTableRowsWellFormed` |
| MetaTable.MetaRowIdentity | method/build_meta_table.py:178-179 | `doi` is `pid_to_doi[pid]` and `openalex_pid` is `pid` |
| MetaTable.MetaRowTextualField | method/build_meta_table.py:175-176 | every textual column, PaperID included, is copied from the row, or None when the row lacks it |
| MetaTable.MetaRowSciField | method/build_meta_table.py:181-186 | `sci_<col>` holds the matched record's value, or None for every SciSciNet column when the DOI has no record |
| MetaTable.MetaRowDisruption | method/build_meta_table.py:188-189 | `dc`/`dr` hold the map value for the DOI, or None |
| MetaTable.SciFieldsKeys | method/build_meta_table.py:181-186 | matched or not, the `sci_` fields are exactly the prefixed SciSciNet header |
| MetaTable.MetaRowSchema | method/build_meta_table.py:173-189 | every meta-table row has exactly the meta-table header's columns |
| MetaTable.MetaRowsAreResolvedRows | method/build_meta_table.py:166-191 | one meta-table row per textual row whose PaperID is in `pid_to_doi`, in input order, and nothing else |
| MetaTable.MetaRowsSkipUnresolved | method/build_meta_table.py:169-171 | textual rows whose PaperID has no DOI contribute nothing |
| MetaTable.BuildLookupsMatchHeader | method/build_meta_table.py:68-79 | well-formed SciSciNet data gives records that all carry the header |
| MetaTable.MetaTableRowsWellFormed | method/build_meta_table.py:154-191 | every meta-table row has the full header and a non-empty, lower-case DOI |
| MetaTable.CopyColumns | method/build_meta_table.py:175-176 | the copy loop builds the textual fields with `row.get(col, None)` |
| MetaTable.CopyRecord | method/build_meta_table.py:181-183 | the loop over the record's items adds every field under its `sci_` name |
| MetaTable.BlankRecord | method/build_meta_table.py:184-186 | the loop over the SciSciNet header adds None under every `sci_` name |
| MetaTable.BuildRow | method/build_meta_table.py:173-189 | the loop body builds exactly the specified meta-table row |
| MetaTable.BuildMetaTable | method/build_meta_table.py:68-191 | the five dictionary scans and the row loop produce exactly the specified meta-table |
| Grouping.GroupMean | method/build_textual_innovation_indicators.py:126-131 | definition of `groupby("PaperID").mean().reset_index()`; characterised by `Grouping.GroupMeanRows` |
| Grouping.LeftMerge | method/build_textual_innovation_indicators.py:184 | definition of `merge(how="left")`: one row per match, or one row with a missing value; characterised by `Grouping.LeftMergeOfUnique` |
| Grouping.TwoStageMean | method/build_textual_innovation_indicators.py:125-142 | definition of the within-chunk then across-chunk mean; characterised by `Grouping.TwoStageMeanIsMeanOfChunkMeans` |
| Grouping.Flatten | method/build_textual_innovation_indicators.py:137 | definition of `pd.concat(parts, ignore_index=True)`; characterised by `Grouping.FlattenChunkMeans` |
| Grouping.ChunkMeans | method/build_textual_innovation_indicators.py:125-133 | `paper_uzzi_parts` holds one grouped-mean table per chunk; characterised by `Grouping.FlattenChunkMeans` |
| Grouping.DistinctKeys | method/build_textual_innovation_indicators.py:126-131 | the groups: every key of the input once, no other |
| Grouping.CountPositive | method/build_textual_innovation_indicators.py:126-131 | a key's group is non-empty iff the key occurs |
| Grouping.GroupMeanRows | method/build_textual_innovation_indicators.py:126-131 | the grouped mean has one row per key of the input, no key twice, each with that key's mean |
| Grouping.LookupGroupMean | method/build_textual_innovation_indicators.py:136-142 | looking a key up in a grouped mean gives its mean, or None when absent |
| Grouping.SumConcat | method/build_textual_innovation_indicators.py:137 | a key's sum over concatenated frames is the sum of its sums |
| Grouping.CountConcat | method/build_textual_innovation_indicators.py:137 | a key's count over concatenated frames is the sum of its counts |
| Grouping.UniqueSumCount | method/build_textual_innovation_indicators.py:136-139 | in a frame with unique keys a key contributes its one value once |
| Grouping.Lookup | method/build_textual_innovation_indicators.py:184 | a value is found iff the key occurs, and it is a value stored under the key |
| Grouping.MatchesOfUnique | method/build_textual_innovation_indicators.py:184 | against unique keys, a key matches at most one row |
| Grouping.LeftMergeOfUnique | method/build_textual_innovation_indicators.py:184 | a left merge against unique keys keeps every left row once, in order, with its match or a missing value |
| Grouping.FlattenChunkMeans | method/build_textual_innovation_indicators.py:133-139 | over the concatenated chunk means, a key's sum is the sum of its chunk means and its count the number of chunks holding it |
| Grouping.TwoStageMeanIsMeanOfChunkMeans | method/build_textual_innovation_indicators.py:125-142 | a key's two-stage mean is the unweighted mean of its per-chunk means; no row when no chunk holds it |
| Grouping.ChunksWithPositive | method/build_textual_innovation_indicators.py:125-142 | some chunk holds a key iff the number of chunks holding it is positive |
| Grouping.TwoStageMeanRows | method/build_textual_innovation_indicators.py:136-142 | the two-stage mean has one row per key held by some chunk and no key twice |
| Grouping.TwoStageMeanOfOneChunk | method/build_textual_innovation_indicators.py:125-142 | a key confined to one chunk gets the plain mean of its values there |
| Grouping.TwoStageMeanIsUnweighted | method/build_textual_innovation_indicators.py:136-142 | rows 0, 0 in one chunk and 3 in another give 1.5, while the pooled mean is 1 |
| Indicators.Novelty | method/build_textual_innovation_indicators.py:44-50 | definition of one paper's `novelty_raw`; characterised by `Indicators.ScoresAreAdditive` and `Indicators.NoveltyIgnoresReuse` |
| Indicators.Consolidation | method/build_textual_innovation_indicators.py:61-66 | definition of one paper's `consolidation_raw`; characterised by `Indicators.ScoresAreAdditive` and `Indicators.ConsolidationIgnoresNovelty` |
| Indicators.NoveltyColumn | method/build_textual_innovation_indicators.py:40-50 | `compute_textual_novelty` gives one value per row |
| Indicators.ConsolidationColumn | method/build_textual_innovation_indicators.py:57-66 | `compute_textual_consolidation` gives one value per row |
| Indicators.Disruption | method/build_textual_innovation_indicators.py:73-83 | disruption has one entry per paper; its meaning is stated by the two lemmas below |
| Indicators.NoveltyIgnoresReuse | method/build_textual_innovation_indicators.py:40-50 | novelty depends only on `new_word`, `new_phrase`, `new_word_comb`, `new_phrase_comb`, `semantic_distance` |
| Indicators.ConsolidationIgnoresNovelty | method/build_textual_innovation_indicators.py:57-66 | consolidation depends only on the four `*_reuse` columns |
| Indicators.ScoresAreAdditive | method/build_textual_innovation_indicators.py:44-66 | raising any one of the five novelty inputs by d raises novelty by d and leaves consolidation unchanged; raising any one of the four reuse inputs by d raises consolidation by d and leaves novelty unchanged |
| Indicators.DisruptionOfIdenticalIsZero | method/build_textual_innovation_indicators.py:73-83 | disruption is zero when novelty and consolidation coincide |
| Indicators.DisruptionIsAntisymmetric | method/build_textual_innovation_indicators.py:73-83 | swapping novelty and consolidation negates disruption |
| Indicators.WordFreq | method/build_textual_innovation_indicators.py:175 | definition of `value_counts().to_dict()`; characterised by `Indicators.WordFreqCounts` |
| Indicators.OccurrencesPositive | method/build_textual_innovation_indicators.py:175 | a word's count is positive iff it occurs |
| Indicators.WordFreqCounts | method/build_textual_innovation_indicators.py:175 | `word_freq` holds exactly the words present, each with its number of occurrences, at least 1 |
| Indicators.MarginalFreq | method/build_textual_innovation_indicators.py:111-112 | a missing or unknown word gets frequency 1.0 |
| Indicators.MarginalFreqAtLeastOne | method/build_textual_innovation_indicators.py:111-112 | every marginal frequency is at least 1.0, and a known word's is its count |
| Indicators.PairScores | method/build_textual_innovation_indicators.py:111-123 | one z-score per pair, under the pair's PaperID |
| Indicators.ScoredChunks | method/build_textual_innovation_indicators.py:110-123 | one scored table per chunk, the per-pair `chunk["zscore"]`; characterised by `Indicators.ScoredChunkKeys` and `Indicators.PairScores` |
| Indicators.ScoredChunkKeys | method/build_textual_innovation_indicators.py:123-131 | a scored chunk holds a paper iff the chunk has a pair of that paper |
| Indicators.Uzzi | method/build_textual_innovation_indicators.py:103-144 | definition of the Uzzi table as the two-stage mean of the scored chunks; characterised by `Indicators.UzziRows` and `Indicators.UzziIsMeanOfChunkMeans` |
| Indicators.UzziRows | method/build_textual_innovation_indicators.py:125-142 | the Uzzi table has one row per PaperID with pairs in some chunk, no PaperID twice |
| Indicators.UzziIsMeanOfChunkMeans | method/build_textual_innovation_indicators.py:125-142 | a paper's combinational novelty is the unweighted mean over chunks of its within-chunk mean z-score |
| Indicators.UzziOfOneChunk | method/build_textual_innovation_indicators.py:125-142 | a paper confined to one chunk gets the plain mean of its pair z-scores |
| Indicators.CombinationalNoveltyUzzi | method/build_textual_innovation_indicators.py:90-144 | the chunk loop and the final aggregation produce exactly the specified Uzzi table |
| Indicators.RunPipeline | method/build_textual_innovation_indicators.py:151-186 | one result row per metrics row, in order, with its scores, disruption and `combo_novelty`; `combo_novelty` is missing iff the paper has no pairs |

## Left out

- File reading and writing (`pd.read_csv`, `to_parquet`, `to_csv`), the hard-coded paths and the `print` logging; inputs are sequences of rows and the meta-table is returned.
- The `chunk_id` counter of the Uzzi loop: it only feeds the progress message.
- Floating-point arithmetic: `zscore` (mean and standard deviation) enters as a length-preserving series function, and the per-pair z-score `(f_pair - sqrt(f1*f2)) / (sqrt(f1*f2) + 1e-6)` as a function of the two marginal frequencies and the observed frequency. Scores are exact reals.
- Doi.Lower: `str.lower()` is modelled for the ASCII letters A-Z only; Unicode case mappings (some of which change the length) are not. Whitespace for `strip()` is Python's full `isspace()` set.
- pandas dtype coercion (`dtype=str`, `astype(float)`), NaN propagation in sums and the NaN-skipping of `groupby().mean()`; metric values are reals and Uzzi PaperIDs are never missing.
- Grouping.GroupMean: pandas sorts the groups by key; the model lists them in order of first appearance. The per-key values do not depend on row order, and in `run_pipeline` the across-chunk table is consumed only by the left merge, whose result with unique right keys does not depend on it; the row order of the table that `compute_combinational_novelty_uzzi` itself returns (`Indicators.CombinationalNoveltyUzzi`, `Indicators.Uzzi`) differs from the source's.
- Grouping.Flatten: `pd.concat` of an empty list raises `ValueError`; a chunked `read_csv` yields at least one chunk (an empty frame for a header-only file), so the list is never empty in the script. The model's `chunks == []` case, which the script cannot reach, gives an empty table and every paper `comboNovelty` None instead of an error.
- MetaTable.MetaRowSchema: a meta-table row is a map, so only the set of its columns is proved. The column order `pd.DataFrame(rows)` takes from the insertion order of the fields (textual columns, `doi`, `openalex_pid`, the `sci_` fields, `dc`, `dr`) is not modelled.
- Missing-column errors: the script raises `KeyError` when an input lacks `DOI`, `PaperID` or `Value`; the model reads such a column as None.
- The `sci_cols is None` case of an empty SciSciNet file; the header is taken from the file.
- `run_pipeline` copies `metrics_df` before assigning columns; in the model the input is an immutable sequence, so it is unchanged by construction.
- The streaming three-pass OLS/HC3 estimator, the rolling-window and period regressions, and the plots are not part of this model: they are in neither of the two scripts, and they are floating-point linear algebra.
