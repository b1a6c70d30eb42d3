/** The Frontier processing component: for each selected screenshot, the four OCR
    regions are parsed into the record's fields, each of the nine item cells is matched
    against the reference store, and a few sanity checks write flags into the debug map. */
module ProcessFrontier {
  import opened Wrappers
  import opened JsBuiltins
  import opened FieldParser
  import opened Matcher

  /** What the browser produced for one screenshot: the trimmed OCR text of the four
      regions and one embedding per cell. */
  datatype FrontierAnalysis =
    FrontierAnalysis(region1: string, region2: string, region3: string, region4: string,
                     embs: seq<seq<real>>)

  /** The `rank` property of a stored result: a number, `null`, or missing altogether
      (the placeholder pushed after an error has no `rank`). */
  datatype RankField = Absent | NullRank | Rank(n: nat)

  function RankFieldOf(rank: Option<nat>): RankField {
    match rank
    case None => NullRank
    case Some(n) => Rank(n)
  }

  /** `{ rank, score, coin, grade, duration, arr }`. */
  datatype FrontierRecord = FrontierRecord(rank: RankField, score: JsNumber, coin: JsNumber,
                                           grade: Option<string>, duration: Option<nat>,
                                           arr: seq<string>)

  /** `{ grade: null, score: 0, duration: 0, coin: 0, arr: [] }`. */
  const Placeholder: FrontierRecord := FrontierRecord(Absent, Num(0), Num(0), None, Some(0), [])

  /** The messages written into the debug map. */
  datatype Note =
    | LowSim(cellName: string, similarity: real)
    | RankInversion(prevRank: nat, prevScore: JsNumber, curRank: nat, curScore: JsNumber)
    | NullField(rank: Option<nat>, score: JsNumber, grade: Option<string>)
    | LowCoin(rank: Option<nat>, coin: JsNumber)

  type Write = (DebugKey, Note)

  /** What processing one file leaves behind: the record appended to `results` and the
      debug writes, in the order they were made. */
  datatype Outcome = Outcome(record: FrontierRecord, writes: seq<Write>)

  // ---------------------------------------------------------------------------
  // One file, as a function of its inputs
  // ---------------------------------------------------------------------------

  /** `names`: each cell's label, or null below `THRESH`. */
  function Names(bs: seq<Best>): (ns: seq<Option<string>>)
    ensures |ns| == |bs| && forall i :: 0 <= i < |bs| ==> ns[i] == Accept(bs[i])
  {
    seq(|bs|, i requires 0 <= i < |bs| => Accept(bs[i]))
  }

  /** The logging pass over `sims`: one low-similarity message per cell, whatever its
      score, all under the file's own rank. */
  function LowSimWrites(bs: seq<Best>, key: DebugKey): (ws: seq<Write>)
    ensures |ws| == |bs|
    ensures forall i :: 0 <= i < |bs| ==> ws[i] == (key, LowSim(Label(bs[i].name), bs[i].score))
  {
    seq(|bs|, i requires 0 <= i < |bs| => (key, LowSim(Label(bs[i].name), bs[i].score)))
  }

  /** `results[rank - 1]` on the `results` of the render that created the handler: no
      lookup when that list is empty or the rank is null, and a `TypeError` (reading
      `rank` of `undefined`) when the index is outside it. */
  function PrevLookup(snapshot: seq<FrontierRecord>, rank: Option<nat>): Attempt<Option<FrontierRecord>> {
    if |snapshot| > 0 && rank.Some? then
      if 0 <= rank.value - 1 < |snapshot| then Ok(Some(snapshot[rank.value - 1])) else Threw
    else Ok(None)
  }

  /** `prev.rank < rank`: a missing rank is `undefined`, and `undefined < n` is false. */
  predicate RankBelow(prev: RankField, rank: nat) {
    prev.Rank? && prev.n < rank
  }

  /** `prevResult.rank !== null && prevResult.score < resultObject.score &&
      prevResult.rank < resultObject.rank`. */
  predicate Inverted(prev: FrontierRecord, score: JsNumber, rank: nat) {
    prev.rank != NullRank && Less(prev.score, score) && RankBelow(prev.rank, rank)
  }

  /** A null grade or one shorter than four characters; the score is a number (maybe
      NaN), never null, so `score === null` never holds. */
  predicate Malformed(rec: FrontierRecord) {
    rec.grade.None? || |rec.grade.value| < 4
  }

  /** The inversion check: a message under the earlier record's rank. */
  function InversionWrites(prev: Option<FrontierRecord>, rec: FrontierRecord, rank: Option<nat>): seq<Write> {
    if prev.Some? && rank.Some? && Inverted(prev.value, rec.score, rank.value)
    then [(RankKey(prev.value.rank.n),
           RankInversion(prev.value.rank.n, prev.value.score, rank.value, rec.score))]
    else []
  }

  /** The null check, under the file's own rank. */
  function NullWrites(rec: FrontierRecord, rank: Option<nat>): seq<Write> {
    if Malformed(rec) then [(KeyOf(rank), NullField(rank, rec.score, rec.grade))] else []
  }

  /** The coin check, under the file's own rank. */
  function CoinWrites(rec: FrontierRecord, rank: Option<nat>): seq<Write> {
    if Less(rec.coin, Num(1000)) then [(KeyOf(rank), LowCoin(rank, rec.coin))] else []
  }

  /** The checks after the logging pass, once the previous result has been looked up. */
  function CheckWrites(prev: Option<FrontierRecord>, rec: FrontierRecord, rank: Option<nat>): seq<Write> {
    InversionWrites(prev, rec, rank) + NullWrites(rec, rank) + CoinWrites(rec, rank)
  }

  /** What the `try` block has computed when it reaches the logging pass: the record
      object, the rank and the best match of every cell. */
  datatype Analysed = Analysed(rec: FrontierRecord, rank: Option<nat>, bs: seq<Best>)

  /** Everything before the logging pass: OCR, slicing and embedding either succeed or
      throw as a whole. */
  function Analyse(refs: seq<Ref>, file: FileInput<FrontierAnalysis>, idx: nat): Attempt<Analysed> {
    match file.analysis
    case Threw => Threw
    case Ok(a) =>
      var info := ParseFrontierInfo(a.region1, a.region2, a.region3, a.region4);
      var bs := Sims(refs, a.embs);
      var rank := RankOf(file.name, idx);
      Ok(Analysed(FrontierRecord(RankFieldOf(rank), info.score, info.coin, info.grade,
                                 info.duration, Compact(Names(bs))), rank, bs))
  }

  /** The rest of the `try` block: the logging pass, then the lookup of the previous
      result, which may throw after the low-similarity messages are written, then the
      checks. */
  function Finish(snapshot: seq<FrontierRecord>, an: Analysed): Outcome {
    var low := LowSimWrites(an.bs, KeyOf(an.rank));
    match PrevLookup(snapshot, an.rank)
    case Threw => Outcome(Placeholder, low)
    case Ok(prev) => Outcome(an.rec, low + CheckWrites(prev, an.rec, an.rank))
  }

  /** The body of the loop of `handleFiles` for file number `idx`, with the placeholder
      of its `catch`. */
  function FrontierFile(snapshot: seq<FrontierRecord>, refs: seq<Ref>,
                        file: FileInput<FrontierAnalysis>, idx: nat): Outcome
  {
    match Analyse(refs, file, idx)
    case Threw => Outcome(Placeholder, [])
    case Ok(an) => Finish(snapshot, an)
  }

  /** An analysed record carries the parsed fields, the rank from the file name (the
      position in the selection, plus one, when the name starts with a number), and the
      labels of the cells whose best score reaches `THRESH`. */
  lemma AnalyseFields(refs: seq<Ref>, file: FileInput<FrontierAnalysis>, idx: nat)
    ensures Analyse(refs, file, idx).Ok? <==> file.analysis.Ok?
    ensures file.analysis.Ok? ==>
      var a := file.analysis.value;
      var an := Analyse(refs, file, idx).value;
      var info := ParseFrontierInfo(a.region1, a.region2, a.region3, a.region4);
      an.rec.score == info.score && an.rec.coin == info.coin && an.rec.grade == info.grade &&
      an.rec.duration == info.duration && an.rec.rank == RankFieldOf(an.rank) &&
      (an.rank.Some? <==> ParseInt(BaseName(file.name)).Num?) &&
      (an.rank.Some? ==> an.rank.value == idx + 1) &&
      |an.bs| == |a.embs| && |an.rec.arr| <= |a.embs| &&
      forall s :: s in an.rec.arr <==> exists i :: (0 <= i < |a.embs| &&
        BestOf(refs, a.embs[i]).score >= Thresh && Label(BestOf(refs, a.embs[i]).name) == s)
  {
    if file.analysis.Ok? {
      ArrMembers(refs, file.analysis.value.embs);
    }
  }

  /** The `arr` of a record: at most one label per cell, and exactly the labels of the
      cells whose best score reaches `THRESH`. */
  lemma ArrMembers(refs: seq<Ref>, embs: seq<seq<real>>)
    ensures |Compact(Names(Sims(refs, embs)))| <= |embs|
    ensures forall s :: s in Compact(Names(Sims(refs, embs))) <==> exists i :: (0 <= i < |embs| &&
      BestOf(refs, embs[i]).score >= Thresh && Label(BestOf(refs, embs[i]).name) == s)
  {
    var ns := Names(Sims(refs, embs));
    CompactMembers(ns);
    forall s | s in Compact(ns)
      ensures exists i :: (0 <= i < |embs| &&
        BestOf(refs, embs[i]).score >= Thresh && Label(BestOf(refs, embs[i]).name) == s)
    {
      var i :| 0 <= i < |ns| && ns[i] == Some(s);
    }
    forall s | exists i :: (0 <= i < |embs| &&
        BestOf(refs, embs[i]).score >= Thresh && Label(BestOf(refs, embs[i]).name) == s)
      ensures s in Compact(ns)
    {
      var i :| 0 <= i < |embs| &&
        BestOf(refs, embs[i]).score >= Thresh && Label(BestOf(refs, embs[i]).name) == s;
      assert ns[i] == Some(s);
    }
  }

  /** The placeholder (the only record without a `rank`) is pushed exactly when the
      analysis threw or the previous result was looked up outside the list. */
  lemma PlaceholderIff(snapshot: seq<FrontierRecord>, refs: seq<Ref>,
                       file: FileInput<FrontierAnalysis>, idx: nat)
    ensures var r := FrontierFile(snapshot, refs, file, idx).record;
      (r.rank.Absent? ==> r == Placeholder) &&
      (r.rank.Absent? <==> (file.analysis.Threw? ||
        (|snapshot| > 0 && RankOf(file.name, idx).Some? && |snapshot| <= idx)))
  {
    AnalyseFields(refs, file, idx);
  }

  /** Every analysed file writes one low-similarity message per cell under its own rank,
      first, and whatever the score: the `score <= 0.935` test only guards the console. */
  lemma LowSimAlwaysWritten(snapshot: seq<FrontierRecord>, an: Analysed)
    ensures var ws := Finish(snapshot, an).writes;
      |an.bs| <= |ws| &&
      forall i :: 0 <= i < |an.bs| ==>
        ws[i] == (KeyOf(an.rank), LowSim(Label(an.bs[i].name), an.bs[i].score))
  {
  }

  /** The writes after the logging pass: none when the lookup throws, else the three
      checks. */
  function Checks(snapshot: seq<FrontierRecord>, an: Analysed): seq<Write> {
    match PrevLookup(snapshot, an.rank)
    case Threw => []
    case Ok(prev) => CheckWrites(prev, an.rec, an.rank)
  }

  /** The writes are the logging pass followed by the checks, and the record is the
      placeholder exactly when the checks were cut short by the lookup. */
  lemma FinishSplits(snapshot: seq<FrontierRecord>, an: Analysed)
    ensures Finish(snapshot, an).writes == LowSimWrites(an.bs, KeyOf(an.rank)) + Checks(snapshot, an)
    ensures Finish(snapshot, an).record == if PrevLookup(snapshot, an.rank).Threw? then Placeholder else an.rec
  {
  }

  /** The record compared with is `results[rank - 1]` of the list shown when the files
      were selected, the one at the same position as this file (see `AnalyseFields`); an
      inversion is flagged, under the earlier record's rank, exactly when that record has
      a rank below this one and a smaller score (NaN on either side is never smaller). */
  lemma InversionIff(snapshot: seq<FrontierRecord>, an: Analysed)
    ensures (exists w :: w in Checks(snapshot, an) && w.1.RankInversion?) <==>
      (an.rank.Some? && 0 <= an.rank.value - 1 < |snapshot| &&
       snapshot[an.rank.value - 1].rank.Rank? &&
       snapshot[an.rank.value - 1].rank.n < an.rank.value &&
       Less(snapshot[an.rank.value - 1].score, an.rec.score))
    ensures forall w :: w in Checks(snapshot, an) && w.1.RankInversion? ==>
      w.0 == RankKey(w.1.prevRank) && Some(w.1.curRank) == an.rank &&
      w.1.prevRank == snapshot[w.1.curRank - 1].rank.n
  {
    match PrevLookup(snapshot, an.rank)
    case Threw =>
    case Ok(prev) =>
      var inv := InversionWrites(prev, an.rec, an.rank);
      var rest := NullWrites(an.rec, an.rank) + CoinWrites(an.rec, an.rank);
      assert Checks(snapshot, an) == inv + rest;
      assert forall w :: w in rest ==> !w.1.RankInversion?;
      if |inv| > 0 {
        assert inv[0] in Checks(snapshot, an);
      }
  }

  /** The null check fires exactly when the lookup did not throw and the grade is null
      or shorter than four characters. */
  lemma MalformedIff(snapshot: seq<FrontierRecord>, an: Analysed)
    ensures (exists w :: w in Checks(snapshot, an) && w.1.NullField?) <==>
      (PrevLookup(snapshot, an.rank).Ok? && (an.rec.grade.None? || |an.rec.grade.value| < 4))
    ensures forall w :: w in Checks(snapshot, an) && w.1.NullField? ==> w.0 == KeyOf(an.rank)
  {
    match PrevLookup(snapshot, an.rank)
    case Threw =>
    case Ok(prev) =>
      var inv := InversionWrites(prev, an.rec, an.rank);
      var nul := NullWrites(an.rec, an.rank);
      var coin := CoinWrites(an.rec, an.rank);
      assert Checks(snapshot, an) == inv + nul + coin;
      assert forall w :: w in inv ==> w.1.RankInversion?;
      assert forall w :: w in coin ==> w.1.LowCoin?;
      if Malformed(an.rec) {
        assert nul[0] in Checks(snapshot, an);
      }
  }

  /** The coin check fires exactly when the lookup did not throw and the coin count is a
      number below 1000; an unreadable (NaN) coin count is not flagged. */
  lemma LowCoinIff(snapshot: seq<FrontierRecord>, an: Analysed)
    ensures (exists w :: w in Checks(snapshot, an) && w.1.LowCoin?) <==>
      (PrevLookup(snapshot, an.rank).Ok? && an.rec.coin.Num? && an.rec.coin.value < 1000)
    ensures forall w :: w in Checks(snapshot, an) && w.1.LowCoin? ==> w.0 == KeyOf(an.rank)
  {
    match PrevLookup(snapshot, an.rank)
    case Threw =>
    case Ok(prev) =>
      var inv := InversionWrites(prev, an.rec, an.rank);
      var nul := NullWrites(an.rec, an.rank);
      var coin := CoinWrites(an.rec, an.rank);
      assert Checks(snapshot, an) == inv + nul + coin;
      assert forall w :: w in inv ==> w.1.RankInversion?;
      assert forall w :: w in nul ==> w.1.NullField?;
      if Less(an.rec.coin, Num(1000)) {
        assert coin[0] in Checks(snapshot, an);
      }
  }

  /** Later writes to the same key win: a low coin count replaces the null message and
      the last cell's low-similarity message under the file's rank. */
  lemma CoinMessageWins(d: map<DebugKey, Note>, snapshot: seq<FrontierRecord>, an: Analysed)
    requires PrevLookup(snapshot, an.rank).Ok? && Less(an.rec.coin, Num(1000))
    ensures KeyOf(an.rank) in ApplyWrites(d, Finish(snapshot, an).writes)
    ensures ApplyWrites(d, Finish(snapshot, an).writes)[KeyOf(an.rank)] == LowCoin(an.rank, an.rec.coin)
  {
    var ws := Finish(snapshot, an).writes;
    ApplyWritesKeys(d, ws);
  }

  // ---------------------------------------------------------------------------
  // A batch of files
  // ---------------------------------------------------------------------------

  /** `results` after a batch: one record per file, in selection order. */
  function BatchRecords(snapshot: seq<FrontierRecord>, refs: seq<Ref>,
                        files: seq<FileInput<FrontierAnalysis>>): (rs: seq<FrontierRecord>)
    ensures |rs| == |files|
  {
    seq(|files|, i requires 0 <= i < |files| => FrontierFile(snapshot, refs, files[i], i).record)
  }

  /** The debug writes of the first n files, in order. */
  function BatchWrites(snapshot: seq<FrontierRecord>, refs: seq<Ref>,
                       files: seq<FileInput<FrontierAnalysis>>, n: nat): seq<Write>
    requires n <= |files|
  {
    if n == 0 then []
    else BatchWrites(snapshot, refs, files, n - 1) + FrontierFile(snapshot, refs, files[n - 1], n - 1).writes
  }

  /** One more file appends its record. */
  lemma BatchStep(snapshot: seq<FrontierRecord>, refs: seq<Ref>, files: seq<FileInput<FrontierAnalysis>>, n: nat)
    requires n < |files|
    ensures BatchRecords(snapshot, refs, files[..n + 1]) ==
      BatchRecords(snapshot, refs, files[..n]) + [FrontierFile(snapshot, refs, files[n], n).record]
  {
    var a := BatchRecords(snapshot, refs, files[..n + 1]);
    var b := BatchRecords(snapshot, refs, files[..n]) + [FrontierFile(snapshot, refs, files[n], n).record];
    forall i | 0 <= i < n + 1
      ensures a[i] == b[i]
    {
      assert files[..n + 1][i] == files[i];
      if i < n {
        assert files[..n][i] == files[i];
      }
    }
  }

  /** The low-similarity messages are never inversion messages, so a file's writes hold
      one exactly when its checks do. */
  lemma InversionOnlyInChecks(snapshot: seq<FrontierRecord>, an: Analysed)
    ensures (exists w :: w in Finish(snapshot, an).writes && w.1.RankInversion?) <==>
      (exists w :: w in Checks(snapshot, an) && w.1.RankInversion?)
  {
    FinishSplits(snapshot, an);
    var low := LowSimWrites(an.bs, KeyOf(an.rank));
    forall w | w in low
      ensures w.1.LowSim?
    {
      var i :| 0 <= i < |low| && low[i] == w;
    }
  }

  /** On the first batch (nothing shown yet) no lookup happens: only files whose analysis
      threw get the placeholder, and no inversion is ever flagged. */
  lemma FirstBatch(refs: seq<Ref>, files: seq<FileInput<FrontierAnalysis>>)
    ensures forall i :: 0 <= i < |files| ==>
      (BatchRecords([], refs, files)[i].rank.Absent? <==> files[i].analysis.Threw?)
    ensures forall i, w :: 0 <= i < |files| && w in FrontierFile([], refs, files[i], i).writes ==>
      !w.1.RankInversion?
  {
    forall i | 0 <= i < |files|
      ensures BatchRecords([], refs, files)[i].rank.Absent? <==> files[i].analysis.Threw?
      ensures forall w :: w in FrontierFile([], refs, files[i], i).writes ==> !w.1.RankInversion?
    {
      AnalyseFields(refs, files[i], i);
      if files[i].analysis.Ok? {
        var an := Analyse(refs, files[i], i).value;
        InversionIff([], an);
        InversionOnlyInChecks([], an);
      }
    }
  }

  /** Selecting the same files again: each file is compared with its own earlier record,
      so the lookup never throws, every record comes out as before and no inversion is
      flagged. */
  lemma RerunNeverInverts(refs: seq<Ref>, files: seq<FileInput<FrontierAnalysis>>)
    ensures var first := BatchRecords([], refs, files);
      forall i :: 0 <= i < |files| ==>
        FrontierFile(first, refs, files[i], i).record == first[i] &&
        forall w :: w in FrontierFile(first, refs, files[i], i).writes ==> !w.1.RankInversion?
  {
    var first := BatchRecords([], refs, files);
    forall i | 0 <= i < |files|
      ensures FrontierFile(first, refs, files[i], i).record == first[i]
      ensures forall w :: w in FrontierFile(first, refs, files[i], i).writes ==> !w.1.RankInversion?
    {
      RerunFile(first, refs, files[i], i);
    }
  }

  /** One file of the re-run: the record shown at its own position is the one it
      produces again, so the comparison is with itself. */
  lemma RerunFile(first: seq<FrontierRecord>, refs: seq<Ref>, file: FileInput<FrontierAnalysis>, i: nat)
    requires i < |first| && first[i] == FrontierFile([], refs, file, i).record
    ensures FrontierFile(first, refs, file, i).record == first[i]
    ensures forall w :: w in FrontierFile(first, refs, file, i).writes ==> !w.1.RankInversion?
  {
    AnalyseFields(refs, file, i);
    if file.analysis.Ok? {
      var an := Analyse(refs, file, i).value;
      assert first[i] == an.rec;
      if an.rank.Some? {
        assert PrevLookup(first, an.rank) == Ok(Some(first[i]));
      }
      InversionIff(first, an);
      InversionOnlyInChecks(first, an);
    }
  }

  /** The `sims` pass: the best match of every cell, in order. */
  method SimsOf(refs: seq<Ref>, embs: seq<seq<real>>) returns (sims: seq<Best>)
    ensures sims == Sims(refs, embs)
  {
    ghost var bs := Sims(refs, embs);
    sims := [];
    var i := 0;
    while i < |embs|
      invariant 0 <= i <= |embs| && sims == bs[..i]
    {
      var best := BestMatch(refs, embs[i]);
      assert bs[..i + 1] == bs[..i] + [bs[i]];
      sims := sims + [best];
      i := i + 1;
    }
    assert bs[..i] == bs;
  }

  /** The `names` pass: the same scan again, keeping a cell's label only when its best
      score reaches `THRESH`. */
  method NamesOf(refs: seq<Ref>, embs: seq<seq<real>>) returns (names: seq<Option<string>>)
    ensures names == Names(Sims(refs, embs))
  {
    ghost var ns := Names(Sims(refs, embs));
    names := [];
    var i := 0;
    while i < |embs|
      invariant 0 <= i <= |embs| && names == ns[..i]
    {
      var best := BestMatch(refs, embs[i]);
      assert ns[..i + 1] == ns[..i] + [ns[i]];
      names := names + [if best.score >= Thresh then Some(Label(best.name)) else None];
      i := i + 1;
    }
    assert ns[..i] == ns;
  }

  // ---------------------------------------------------------------------------
  // The component
  // ---------------------------------------------------------------------------

  /** The state of `ProcessFrontierComponent`. */
  class FrontierComponent {
    var results: seq<FrontierRecord>
    var progress: Progress
    var fileList: seq<string>
    var resultDebug: map<DebugKey, Note>
    var storedEmbs: seq<Ref>

    constructor()
      ensures results == [] && progress == Progress(0, 0) && fileList == []
      ensures resultDebug == map[] && storedEmbs == []
    {
      results := [];
      progress := Progress(0, 0);
      fileList := [];
      resultDebug := map[];
      storedEmbs := [];
    }

    /** The mount effect: `data` is the parsed `embeddings.json`, or `Threw` when the
        fetch failed, in which case the error is only logged. */
    method LoadEmbeddings(data: Attempt<seq<(string, seq<Dim>)>>)
      requires data.Ok? ==> forall i :: 0 <= i < |data.value| ==> IndexKeys(data.value[i].1)
      modifies this
      ensures data.Ok? ==> storedEmbs == LoadRefs(data.value)
      ensures data.Threw? ==> storedEmbs == old(storedEmbs)
      ensures results == old(results) && progress == old(progress)
      ensures fileList == old(fileList) && resultDebug == old(resultDebug)
    {
      if data.Ok? {
        storedEmbs := LoadRefs(data.value);
      }
    }

    /** `handleFiles`. The handler reads `results` as it was when the files were
        selected: it is `snapshot` throughout the batch. */
    method HandleFiles(session: bool, files: seq<FileInput<FrontierAnalysis>>)
      modifies this
      ensures storedEmbs == old(storedEmbs)
      ensures !session ==> (results == old(results) && progress == old(progress) &&
        fileList == old(fileList) && resultDebug == old(resultDebug))
      ensures session ==>
        results == BatchRecords(old(results), storedEmbs, files) &&
        resultDebug == ApplyWrites(old(resultDebug), BatchWrites(old(results), storedEmbs, files, |files|)) &&
        progress == Progress(|files|, |files|) && fileList == FileNames(files)
    {
      if !session {
        return;
      }
      var snapshot := results;
      results := [];
      fileList := FileNames(files);
      progress := Progress(0, |files|);
      var idx := 0;
      while idx < |files|
        invariant 0 <= idx <= |files|
        invariant storedEmbs == old(storedEmbs) && fileList == FileNames(files)
        invariant results == BatchRecords(snapshot, storedEmbs, files[..idx])
        invariant resultDebug == ApplyWrites(old(resultDebug), BatchWrites(snapshot, storedEmbs, files, idx))
        invariant progress == Progress(idx, |files|)
      {
        ghost var before := resultDebug;
        var record := ProcessFile(snapshot, files[idx], idx);
        BatchStep(snapshot, storedEmbs, files, idx);
        ApplyWritesAppend(old(resultDebug), BatchWrites(snapshot, storedEmbs, files, idx),
                          FrontierFile(snapshot, storedEmbs, files[idx], idx).writes);
        results := results + [record];
        progress := Progress(progress.current + 1, progress.total);
        idx := idx + 1;
      }
      assert files[..|files|] == files;
    }

    /** The `try` block for one file, and the placeholder of its `catch`. */
    method ProcessFile(snapshot: seq<FrontierRecord>, file: FileInput<FrontierAnalysis>, idx: nat)
      returns (record: FrontierRecord)
      modifies this
      ensures record == FrontierFile(snapshot, storedEmbs, file, idx).record
      ensures resultDebug == ApplyWrites(old(resultDebug), FrontierFile(snapshot, storedEmbs, file, idx).writes)
      ensures results == old(results) && progress == old(progress)
      ensures fileList == old(fileList) && storedEmbs == old(storedEmbs)
    {
      if file.analysis.Threw? {
        return Placeholder;
      }
      var an := AnalyseFile(file, idx);
      record := FinishFile(snapshot, an);
    }

    /** Everything up to the record object: the parsed OCR fields, the best match of each
        cell (`sims`), the labels that pass `THRESH` (`names`, then filtered) and the
        rank. */
    method AnalyseFile(file: FileInput<FrontierAnalysis>, idx: nat) returns (an: Analysed)
      requires file.analysis.Ok?
      ensures Analyse(storedEmbs, file, idx) == Ok(an)
    {
      var a := file.analysis.value;
      var refs := storedEmbs;
      var info := ParseFrontierInfo(a.region1, a.region2, a.region3, a.region4);
      var sims := SimsOf(refs, a.embs);
      var names := NamesOf(refs, a.embs);
      var rank := RankOf(file.name, idx);
      var rec := FrontierRecord(RankFieldOf(rank), info.score, info.coin, info.grade,
                                info.duration, Compact(names));
      an := Analysed(rec, rank, sims);
    }

    /** From the logging pass to the end of the `try` block; the placeholder when the
        lookup of the previous result throws. */
    method FinishFile(snapshot: seq<FrontierRecord>, an: Analysed) returns (record: FrontierRecord)
      modifies this
      ensures record == Finish(snapshot, an).record
      ensures resultDebug == ApplyWrites(old(resultDebug), Finish(snapshot, an).writes)
      ensures results == old(results) && progress == old(progress)
      ensures fileList == old(fileList) && storedEmbs == old(storedEmbs)
    {
      var rank := an.rank;
      LogSimilarities(an.bs, KeyOf(rank));
      ghost var low := LowSimWrites(an.bs, KeyOf(rank));
      var prev: Option<FrontierRecord> := None;
      if |snapshot| > 0 && rank.Some? {
        if !(0 <= rank.value - 1 < |snapshot|) {
          return Placeholder;
        }
        prev := Some(snapshot[rank.value - 1]);
      }
      assert PrevLookup(snapshot, rank) == Ok(prev);
      RunChecks(prev, an.rec, rank);
      ApplyWritesAppend(old(resultDebug), low, CheckWrites(prev, an.rec, rank));
      record := an.rec;
    }

    /** The logging pass: `setResultDebug` once per cell, under the file's rank. */
    method LogSimilarities(sims: seq<Best>, key: DebugKey)
      modifies this
      ensures resultDebug == ApplyWrites(old(resultDebug), LowSimWrites(sims, key))
      ensures results == old(results) && progress == old(progress)
      ensures fileList == old(fileList) && storedEmbs == old(storedEmbs)
    {
      ghost var low := LowSimWrites(sims, key);
      var i := 0;
      while i < |sims|
        invariant 0 <= i <= |sims|
        invariant resultDebug == ApplyWrites(old(resultDebug), low[..i])
        invariant results == old(results) && progress == old(progress)
        invariant fileList == old(fileList) && storedEmbs == old(storedEmbs)
      {
        ApplyWritesSnoc(old(resultDebug), low[..i], low[i]);
        assert low[..i + 1] == low[..i] + [low[i]];
        resultDebug := resultDebug[key := LowSim(Label(sims[i].name), sims[i].score)];
        i := i + 1;
      }
      assert low[..|sims|] == low;
    }

    /** The three checks after the lookup of the previous result. */
    method RunChecks(prev: Option<FrontierRecord>, rec: FrontierRecord, rank: Option<nat>)
      modifies this
      ensures resultDebug == ApplyWrites(old(resultDebug), CheckWrites(prev, rec, rank))
      ensures results == old(results) && progress == old(progress)
      ensures fileList == old(fileList) && storedEmbs == old(storedEmbs)
    {
      var inv := InversionWrites(prev, rec, rank);
      var nul := NullWrites(rec, rank);
      var coin := CoinWrites(rec, rank);
      if prev.Some? && rank.Some? && Inverted(prev.value, rec.score, rank.value) {
        resultDebug := resultDebug[RankKey(prev.value.rank.n) :=
          RankInversion(prev.value.rank.n, prev.value.score, rank.value, rec.score)];
      }
      assert resultDebug == ApplyWrites(old(resultDebug), inv);
      ghost var mid := resultDebug;
      if Malformed(rec) {
        resultDebug := resultDebug[KeyOf(rank) := NullField(rank, rec.score, rec.grade)];
      }
      assert resultDebug == ApplyWrites(mid, nul);
      ApplyWritesAppend(old(resultDebug), inv, nul);
      ghost var mid2 := resultDebug;
      if Less(rec.coin, Num(1000)) {
        resultDebug := resultDebug[KeyOf(rank) := LowCoin(rank, rec.coin)];
      }
      assert resultDebug == ApplyWrites(mid2, coin);
      ApplyWritesAppend(old(resultDebug), inv + nul, coin);
    }
  }
}
