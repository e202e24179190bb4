/**
 The indicator assembly of method/build_textual_innovation_indicators.py:
 additive novelty and consolidation scores, disruption as the difference of
 the two standardised series, Uzzi-style combinational novelty as a
 two-stage grouped mean of per-pair z-scores, and the pipeline that attaches
 everything to the papers. The series standardisation (`zscore`) and the
 per-pair z-score are floating-point formulas and enter as parameters.
 */
module Indicators {
  import opened Options
  import opened Grouping

  /** One row of `metrics_df`: a paper's PaperID and its textual metric columns. */
  datatype Metrics = Metrics(
    paperId: string,
    newWord: real,
    newWordReuse: real,
    newPhrase: real,
    newPhraseReuse: real,
    newWordComb: real,
    newWordCombReuse: real,
    newPhraseComb: real,
    newPhraseCombReuse: real,
    semanticDistance: real)

  /** `novelty_raw` of one paper: the new linguistic material it introduces. */
  function Novelty(m: Metrics): real
  {
    m.newWord + m.newPhrase + m.newWordComb + m.newPhraseComb + m.semanticDistance
  }

  /** `consolidation_raw` of one paper: the later reuse of what it introduced. */
  function Consolidation(m: Metrics): real
  {
    m.newWordReuse + m.newPhraseReuse + m.newWordCombReuse + m.newPhraseCombReuse
  }

  /** Two papers that agree on the five novelty inputs have the same novelty, whatever their reuse counts. */
  lemma NoveltyIgnoresReuse(m: Metrics, n: Metrics)
    requires m.newWord == n.newWord && m.newPhrase == n.newPhrase
    requires m.newWordComb == n.newWordComb && m.newPhraseComb == n.newPhraseComb
    requires m.semanticDistance == n.semanticDistance
    ensures Novelty(m) == Novelty(n)
  {
  }

  /** Two papers that agree on the four reuse counts have the same consolidation, whatever their novelty inputs. */
  lemma ConsolidationIgnoresNovelty(m: Metrics, n: Metrics)
    requires m.newWordReuse == n.newWordReuse && m.newPhraseReuse == n.newPhraseReuse
    requires m.newWordCombReuse == n.newWordCombReuse && m.newPhraseCombReuse == n.newPhraseCombReuse
    ensures Consolidation(m) == Consolidation(n)
  {
  }

  /**
   Each score grows by exactly the amount any one of its own inputs grows,
   and not at all when an input of the other score grows.
   */
  lemma ScoresAreAdditive(m: Metrics, d: real)
    ensures Novelty(m.(newWord := m.newWord + d)) == Novelty(m) + d
    ensures Novelty(m.(newPhrase := m.newPhrase + d)) == Novelty(m) + d
    ensures Novelty(m.(newWordComb := m.newWordComb + d)) == Novelty(m) + d
    ensures Novelty(m.(newPhraseComb := m.newPhraseComb + d)) == Novelty(m) + d
    ensures Novelty(m.(semanticDistance := m.semanticDistance + d)) == Novelty(m) + d
    ensures Novelty(m.(newWordReuse := m.newWordReuse + d)) == Novelty(m)
    ensures Novelty(m.(newPhraseReuse := m.newPhraseReuse + d)) == Novelty(m)
    ensures Novelty(m.(newWordCombReuse := m.newWordCombReuse + d)) == Novelty(m)
    ensures Novelty(m.(newPhraseCombReuse := m.newPhraseCombReuse + d)) == Novelty(m)
    ensures Consolidation(m.(newWordReuse := m.newWordReuse + d)) == Consolidation(m) + d
    ensures Consolidation(m.(newPhraseReuse := m.newPhraseReuse + d)) == Consolidation(m) + d
    ensures Consolidation(m.(newWordCombReuse := m.newWordCombReuse + d)) == Consolidation(m) + d
    ensures Consolidation(m.(newPhraseCombReuse := m.newPhraseCombReuse + d)) == Consolidation(m) + d
    ensures Consolidation(m.(newWord := m.newWord + d)) == Consolidation(m)
    ensures Consolidation(m.(newPhrase := m.newPhrase + d)) == Consolidation(m)
    ensures Consolidation(m.(newWordComb := m.newWordComb + d)) == Consolidation(m)
    ensures Consolidation(m.(newPhraseComb := m.newPhraseComb + d)) == Consolidation(m)
    ensures Consolidation(m.(semanticDistance := m.semanticDistance + d)) == Consolidation(m)
  {
  }

  /** `compute_textual_novelty(df)`: the novelty column, row by row. */
  function NoveltyColumn(ms: seq<Metrics>): (r: seq<real>)
    ensures |r| == |ms|
  {
    seq(|ms|, i requires 0 <= i < |ms| => Novelty(ms[i]))
  }

  /** `compute_textual_consolidation(df)`: the consolidation column, row by row. */
  function ConsolidationColumn(ms: seq<Metrics>): (r: seq<real>)
    ensures |r| == |ms|
  {
    seq(|ms|, i requires 0 <= i < |ms| => Consolidation(ms[i]))
  }

  /** A series standardisation such as `zscore`: it maps a series to one of the same length. */
  type Standardizer = f: seq<real> -> seq<real> | forall s :: |f(s)| == |s| witness Unchanged

  function Unchanged(s: seq<real>): seq<real>
  {
    s
  }

  /** `compute_textual_disruption`: standardised novelty minus standardised consolidation. */
  function Disruption(novelty: seq<real>, consolidation: seq<real>, zscore: Standardizer): (r: seq<real>)
    requires |novelty| == |consolidation|
    ensures |r| == |novelty|
  {
    var zn := zscore(novelty);
    var zc := zscore(consolidation);
    seq(|novelty|, i requires 0 <= i < |novelty| => zn[i] - zc[i])
  }

  /** Disruption vanishes when the two series coincide. */
  lemma DisruptionOfIdenticalIsZero(s: seq<real>, zscore: Standardizer)
    ensures forall i | 0 <= i < |s| :: Disruption(s, s, zscore)[i] == 0.0
  {
  }

  /** Swapping novelty and consolidation negates disruption. */
  lemma DisruptionIsAntisymmetric(novelty: seq<real>, consolidation: seq<real>, zscore: Standardizer)
    requires |novelty| == |consolidation|
    ensures forall i | 0 <= i < |novelty| ::
      Disruption(consolidation, novelty, zscore)[i] == -Disruption(novelty, consolidation, zscore)[i]
  {
  }

  // ---------------------------------------------------------------------
  // Word frequencies
  // ---------------------------------------------------------------------

  /** The number of times `w` occurs in the word column. */
  function Occurrences(words: seq<Cell>, w: string): nat
  {
    if words == [] then 0
    else Occurrences(words[..|words| - 1], w) + (if words[|words| - 1] == Some(w) then 1 else 0)
  }

  /** The distinct words of the column, missing cells excluded. */
  function Vocabulary(words: seq<Cell>): set<string>
  {
    set i | 0 <= i < |words| && words[i].Some? :: words[i].value
  }

  /** `word_freq_df["Word"].value_counts().to_dict()`. */
  function WordFreq(words: seq<Cell>): map<string, nat>
  {
    map w | w in Vocabulary(words) :: Occurrences(words, w)
  }

  lemma {:induction false} OccurrencesPositive(words: seq<Cell>, w: string)
    ensures Occurrences(words, w) > 0 <==> Some(w) in words
  {
    if words != [] {
      var init := words[..|words| - 1];
      OccurrencesPositive(init, w);
      assert words == init + [words[|words| - 1]];
    }
  }

  /**
   `word_freq` holds exactly the words present in the column, each with its
   number of occurrences, which is therefore at least 1.
   */
  lemma WordFreqCounts(words: seq<Cell>)
    ensures forall w :: w in WordFreq(words) <==> Some(w) in words
    ensures forall w | w in WordFreq(words) :: WordFreq(words)[w] == Occurrences(words, w) >= 1
  {
    forall w
      ensures w in WordFreq(words) <==> Some(w) in words
    {
      if Some(w) in words {
        var i :| 0 <= i < |words| && words[i] == Some(w);
        assert words[i].value == w;
      }
    }
    forall w | w in WordFreq(words)
      ensures Occurrences(words, w) >= 1
    {
      OccurrencesPositive(words, w);
    }
  }

  /** `chunk[col].map(word_freq).fillna(1.0)`: a word's frequency, or 1.0 when it is missing or unknown. */
  function MarginalFreq(wordFreq: map<string, nat>, w: Cell): (f: real)
    ensures w.None? || w.value !in wordFreq ==> f == 1.0
  {
    if w.Some? && w.value in wordFreq then wordFreq[w.value] as real else 1.0
  }

  /** With `word_freq` built from a word column, every marginal frequency is at least 1.0. */
  lemma MarginalFreqAtLeastOne(words: seq<Cell>, w: Cell)
    ensures MarginalFreq(WordFreq(words), w) >= 1.0
    ensures w.Some? && Some(w.value) in words ==> MarginalFreq(WordFreq(words), w) == Occurrences(words, w.value) as real
  {
    WordFreqCounts(words);
  }

  // ---------------------------------------------------------------------
  // Combinational novelty
  // ---------------------------------------------------------------------

  /** One row of the word-combination file. */
  datatype WordPair = WordPair(paperId: string, word1: Cell, word2: Cell, reuse: real)

  /**
   The Uzzi-style z-score of a pair from its two marginal frequencies and its
   observed frequency: `(f_pair - sqrt(f1 * f2)) / (sqrt(f1 * f2) + 1e-6)`.
   */
  type PairScore = (real, real, real) -> real

  /** The column `chunk["zscore"]` beside the chunk's PaperIDs. */
  function PairScores(wordFreq: map<string, nat>, chunk: seq<WordPair>, pairZ: PairScore): (rows: seq<(Key, real)>)
    ensures |rows| == |chunk|
    ensures forall i | 0 <= i < |chunk| :: rows[i].0 == chunk[i].paperId
  {
    seq(|chunk|, i requires 0 <= i < |chunk| =>
      var pair := chunk[i];
      (pair.paperId, pairZ(MarginalFreq(wordFreq, pair.word1), MarginalFreq(wordFreq, pair.word2), pair.reuse)))
  }

  /** The scored chunks, in file order. */
  function ScoredChunks(wordFreq: map<string, nat>, chunks: seq<seq<WordPair>>, pairZ: PairScore): (scored: seq<seq<(Key, real)>>)
    ensures |scored| == |chunks|
  {
    seq(|chunks|, c requires 0 <= c < |chunks| => PairScores(wordFreq, chunks[c], pairZ))
  }

  /** The Uzzi table: the within-chunk mean of every paper, then the mean of those across chunks. */
  function Uzzi(wordFreq: map<string, nat>, chunks: seq<seq<WordPair>>, pairZ: PairScore): seq<(Key, real)>
  {
    TwoStageMean(ScoredChunks(wordFreq, chunks, pairZ))
  }

  /** A paper has pairs in a chunk. */
  predicate InChunk(chunk: seq<WordPair>, paper: Key)
  {
    exists pair | pair in chunk :: pair.paperId == paper
  }

  lemma ScoredChunkKeys(wordFreq: map<string, nat>, chunks: seq<seq<WordPair>>, pairZ: PairScore, paper: Key)
    ensures forall c | 0 <= c < |chunks| ::
      HasKey(ScoredChunks(wordFreq, chunks, pairZ)[c], paper) <==> InChunk(chunks[c], paper)
  {
    forall c | 0 <= c < |chunks|
      ensures HasKey(ScoredChunks(wordFreq, chunks, pairZ)[c], paper) <==> InChunk(chunks[c], paper)
    {
      var rows := PairScores(wordFreq, chunks[c], pairZ);
      if InChunk(chunks[c], paper) {
        var pair :| pair in chunks[c] && pair.paperId == paper;
        var i :| 0 <= i < |chunks[c]| && chunks[c][i] == pair;
        assert rows[i].0 == paper;
      }
      if HasKey(rows, paper) {
        var i :| 0 <= i < |rows| && rows[i].0 == paper;
        assert chunks[c][i] in chunks[c];
      }
    }
  }

  /**
   The Uzzi table has exactly one row per PaperID that has pairs in some
   chunk, and no PaperID twice.
   */
  lemma UzziRows(wordFreq: map<string, nat>, chunks: seq<seq<WordPair>>, pairZ: PairScore)
    ensures UniqueKeys(Uzzi(wordFreq, chunks, pairZ))
    ensures forall paper :: HasKey(Uzzi(wordFreq, chunks, pairZ), paper) <==>
      exists c | 0 <= c < |chunks| :: InChunk(chunks[c], paper)
  {
    var scored := ScoredChunks(wordFreq, chunks, pairZ);
    TwoStageMeanRows(scored);
    forall paper
      ensures HasKey(Uzzi(wordFreq, chunks, pairZ), paper) <==> exists c | 0 <= c < |chunks| :: InChunk(chunks[c], paper)
    {
      ScoredChunkKeys(wordFreq, chunks, pairZ, paper);
    }
  }

  /**
   A paper's combinational novelty is the unweighted mean, over the chunks
   holding its pairs, of the mean z-score of its pairs within each chunk.
   */
  lemma UzziIsMeanOfChunkMeans(wordFreq: map<string, nat>, chunks: seq<seq<WordPair>>, pairZ: PairScore, paper: Key)
    ensures var scored := ScoredChunks(wordFreq, chunks, pairZ);
      Lookup(Uzzi(wordFreq, chunks, pairZ), paper) ==
        if ChunksWith(scored, paper) > 0
        then Some(SumOfChunkMeans(scored, paper) / ChunksWith(scored, paper) as real)
        else None
  {
    TwoStageMeanIsMeanOfChunkMeans(ScoredChunks(wordFreq, chunks, pairZ), paper);
  }

  /** A paper whose pairs all lie in one chunk gets the plain mean of its pair z-scores. */
  lemma UzziOfOneChunk(wordFreq: map<string, nat>, chunks: seq<seq<WordPair>>, pairZ: PairScore, c: nat, paper: Key)
    requires c < |chunks| && InChunk(chunks[c], paper)
    requires forall d | 0 <= d < |chunks| && d != c :: !InChunk(chunks[d], paper)
    ensures HasKey(PairScores(wordFreq, chunks[c], pairZ), paper)
    ensures Lookup(Uzzi(wordFreq, chunks, pairZ), paper) == Some(Mean(PairScores(wordFreq, chunks[c], pairZ), paper))
  {
    var scored := ScoredChunks(wordFreq, chunks, pairZ);
    ScoredChunkKeys(wordFreq, chunks, pairZ, paper);
    assert scored[c] == PairScores(wordFreq, chunks[c], pairZ);
    TwoStageMeanOfOneChunk(scored, c, paper);
  }

  /**
   `compute_combinational_novelty_uzzi`: score each chunk, average per paper
   within the chunk, collect the per-chunk tables, then average per paper
   across them.
   */
  method CombinationalNoveltyUzzi(wordFreq: map<string, nat>, chunks: seq<seq<WordPair>>, pairZ: PairScore)
    returns (paperUzzi: seq<(Key, real)>)
    ensures paperUzzi == Uzzi(wordFreq, chunks, pairZ)
  {
    var parts: seq<seq<(Key, real)>> := [];
    for i := 0 to |chunks|
      invariant parts == ChunkMeans(ScoredChunks(wordFreq, chunks[..i], pairZ))
    {
      var scores := PairScores(wordFreq, chunks[i], pairZ);
      var paperZ := GroupMean(scores);
      assert ChunkMeans(ScoredChunks(wordFreq, chunks[..i + 1], pairZ))
          == ChunkMeans(ScoredChunks(wordFreq, chunks[..i], pairZ)) + [paperZ];
      parts := parts + [paperZ];
    }
    assert chunks[..|chunks|] == chunks;
    paperUzzi := GroupMean(Flatten(parts));
  }

  // ---------------------------------------------------------------------
  // The pipeline
  // ---------------------------------------------------------------------

  /** A row of the copied frame after the three score columns are assigned. */
  datatype Scored = Scored(metrics: Metrics, noveltyRaw: real, consolidationRaw: real, textualDisruption: real)

  /** A row of the pipeline's result: the scored row and its `combo_novelty`, missing when the paper has no pairs. */
  datatype IndicatorRow = IndicatorRow(scored: Scored, comboNovelty: Option<real>)

  function PaperOf(s: Scored): Key
  {
    s.metrics.paperId
  }

  /**
   `run_pipeline`: score a copy of the metrics, build `word_freq`, compute the
   Uzzi table and left-merge it on PaperID. The result has the papers' rows
   in their order, each with its scores and its combinational novelty.
   */
  method RunPipeline(metrics: seq<Metrics>, words: seq<Cell>, chunks: seq<seq<WordPair>>,
                     zscore: Standardizer, pairZ: PairScore)
    returns (df: seq<IndicatorRow>)
    ensures |df| == |metrics|
    ensures forall i | 0 <= i < |metrics| ::
      && df[i].scored.metrics == metrics[i]
      && df[i].scored.noveltyRaw == Novelty(metrics[i])
      && df[i].scored.consolidationRaw == Consolidation(metrics[i])
      && df[i].scored.textualDisruption ==
           Disruption(NoveltyColumn(metrics), ConsolidationColumn(metrics), zscore)[i]
      && df[i].comboNovelty == Lookup(Uzzi(WordFreq(words), chunks, pairZ), metrics[i].paperId)
    ensures forall i | 0 <= i < |metrics| ::
      df[i].comboNovelty.None? <==> forall c | 0 <= c < |chunks| :: !InChunk(chunks[c], metrics[i].paperId)
  {
    var noveltyRaw := NoveltyColumn(metrics);
    var consolidationRaw := ConsolidationColumn(metrics);
    var textualDisruption := Disruption(noveltyRaw, consolidationRaw, zscore);
    var frame := seq(|metrics|, i requires 0 <= i < |metrics| =>
      Scored(metrics[i], noveltyRaw[i], consolidationRaw[i], textualDisruption[i]));
    var wordFreq := WordFreq(words);
    var comboDf := CombinationalNoveltyUzzi(wordFreq, chunks, pairZ);
    UzziRows(wordFreq, chunks, pairZ);
    var merged := LeftMerge(frame, PaperOf, comboDf);
    LeftMergeOfUnique(frame, PaperOf, comboDf);
    df := seq(|merged|, i requires 0 <= i < |merged| => IndicatorRow(merged[i].0, merged[i].1));
  }
}
