/** The Clash 2.0 processing component: as for Frontier, the OCR regions give the
    record's fields and each cell is matched against the reference store; a cell
    recognised as 우로스 is further told apart by the colour of a strip of its picture.
    The sanity checks differ: only doubtful similarities are logged, a missing earlier
    result is skipped rather than thrown on, and there is no coin count to check. */
module ProcessClashV2 {
  import opened Wrappers
  import opened JsBuiltins
  import opened FieldParser
  import opened Matcher
  import opened ColorCompare

  /** One cell as the browser produced it: its embedding, and the bytes of the colour
      strip (x 1, y 15, 3 by 30) of the cell's picture, or `Threw` when reloading that
      picture fails. The strip is only read for a 우로스 cell. */
  datatype Cell = Cell(emb: seq<real>, roi: Attempt<seq<Byte>>)

  /** What the browser produced for one screenshot: the trimmed OCR text of the four
      regions and the cells. */
  datatype ClashV2Analysis =
    ClashV2Analysis(region1: string, region2: string, region3: string, region4: string,
                    cells: seq<Cell>)

  /** `{ rank, grade, score, duration, sideGrade, arr }`, or the object pushed by the
      `catch`, `{ grade: 0, score: 0, duration: 0, timeBonus: 0, arr: [] }`, which has no
      `rank`. */
  datatype ClashV2Record =
    | ClashV2Result(rank: Option<nat>, grade: Option<nat>, score: JsNumber,
                    duration: Option<nat>, sideGrade: Option<nat>, arr: seq<string>)
    | ClashV2Placeholder

  /** The messages written into the debug map. */
  datatype Note =
    | LowSim(cellName: string, similarity: real)
    | RankInversion(prevRank: nat, prevScore: JsNumber, curRank: nat, curScore: JsNumber)
    | NullField(rank: Option<nat>, score: JsNumber, grade: Option<nat>)

  type Write = (DebugKey, Note)

  datatype Outcome = Outcome(record: ClashV2Record, writes: seq<Write>)

  // ---------------------------------------------------------------------------
  // Cell names
  // ---------------------------------------------------------------------------

  const Uros: string := "우로스"

  /** A matched cell whose label starts with 우로스 is the one case that reads pixels. */
  predicate NeedsColour(b: Best) {
    b.score >= Thresh && StartsWith(Label(b.name), Uros)
  }

  /** The body of the async map over the cells: null below `THRESH`; otherwise the label,
      followed for 우로스 by the nearest attribute in parentheses when the strip has an
      opaque pixel; `Threw` when the strip was needed and could not be read. */
  function CellName(b: Best, roi: Attempt<seq<Byte>>): Attempt<Option<string>> {
    if b.score >= Thresh then
      var base := Label(b.name);
      if StartsWith(base, Uros) then
        match roi
        case Threw => Threw
        case Ok(px) =>
          match ClosestAttribute(AverageColor(px))
          case Some(attr) => Ok(Some(base + "(" + attr + ")"))
          case None => Ok(Some(base))
      else Ok(Some(base))
    else Ok(None)
  }

  /** `Promise.all`: the names in cell order, or `Threw` as soon as one cell threw. */
  function CellNames(bs: seq<Best>, cells: seq<Cell>): Attempt<seq<Option<string>>>
    requires |bs| == |cells|
    decreases |cells|
  {
    if |cells| == 0 then Ok([])
    else
      var n := |cells| - 1;
      match CellNames(bs[..n], cells[..n])
      case Threw => Threw
      case Ok(ns) =>
        match CellName(bs[n], cells[n].roi)
        case Threw => Threw
        case Ok(x) => Ok(ns + [x])
  }

  /** The names are computed exactly when no needed strip is missing, one per cell. */
  lemma {:induction false} CellNamesSpec(bs: seq<Best>, cells: seq<Cell>)
    requires |bs| == |cells|
    ensures CellNames(bs, cells).Ok? <==>
      forall i :: 0 <= i < |cells| ==> !(NeedsColour(bs[i]) && cells[i].roi.Threw?)
    ensures CellNames(bs, cells).Ok? ==>
      var ns := CellNames(bs, cells).value;
      |ns| == |cells| && forall i :: 0 <= i < |cells| ==> Ok(ns[i]) == CellName(bs[i], cells[i].roi)
    decreases |cells|
  {
    if |cells| > 0 {
      var n := |cells| - 1;
      CellNamesSpec(bs[..n], cells[..n]);
      assert forall i :: 0 <= i < n ==> bs[..n][i] == bs[i] && cells[..n][i] == cells[i];
      if CellNames(bs, cells).Ok? {
        var ns := CellNames(bs, cells).value;
        assert ns[..n] == CellNames(bs[..n], cells[..n]).value;
      }
    }
  }

  /** How a cell is named: below `THRESH` it is dropped; a 우로스 cell whose strip has an
      opaque pixel is named with the attribute colour nearest to the strip's mean colour;
      any other cell, and a 우로스 cell whose strip is fully transparent, by its label. */
  lemma CellNameSpec(b: Best, px: seq<Byte>)
    ensures b.score < Thresh ==> CellName(b, Ok(px)) == Ok(None)
    ensures b.score >= Thresh && !StartsWith(Label(b.name), Uros) ==>
      CellName(b, Ok(px)) == Ok(Some(Label(b.name)))
    ensures NeedsColour(b) && AverageColor(px).None? ==> CellName(b, Ok(px)) == Ok(Some(Label(b.name)))
    ensures NeedsColour(b) && AverageColor(px).Some? ==>
      exists k :: (0 <= k < |Attributes| &&
        CellName(b, Ok(px)) == Ok(Some(Label(b.name) + "(" + Attributes[k].name + ")")) &&
        forall j :: 0 <= j < |Attributes| ==>
          Distance2(AverageColor(px).value, Attributes[k].color) <=
          Distance2(AverageColor(px).value, Attributes[j].color))
  {
    if NeedsColour(b) && AverageColor(px).Some? {
      ClosestIsNearest(AverageColor(px).value);
    }
  }

  /** The logging pass: a message for each cell whose similarity is at most 0.935, in
      cell order, all under the file's rank. */
  function LowSimWrites(bs: seq<Best>, key: DebugKey): seq<Write>
    decreases |bs|
  {
    if |bs| == 0 then []
    else
      var n := |bs| - 1;
      LowSimWrites(bs[..n], key)
        + (if bs[n].score <= LowSimilarity then [(key, LowSim(Label(bs[n].name), bs[n].score))] else [])
  }

  /** A logging write is exactly a doubtful cell's message. */
  lemma {:induction false} LowSimWritesSpec(bs: seq<Best>, key: DebugKey)
    ensures forall w :: w in LowSimWrites(bs, key) <==> exists i :: (0 <= i < |bs| &&
      bs[i].score <= LowSimilarity && w == (key, LowSim(Label(bs[i].name), bs[i].score)))
    ensures |LowSimWrites(bs, key)| <= |bs|
    decreases |bs|
  {
    if |bs| > 0 {
      var n := |bs| - 1;
      LowSimWritesSpec(bs[..n], key);
      forall w | w in LowSimWrites(bs, key)
        ensures exists i :: (0 <= i < |bs| &&
          bs[i].score <= LowSimilarity && w == (key, LowSim(Label(bs[i].name), bs[i].score)))
      {
        if w in LowSimWrites(bs[..n], key) {
          var i :| 0 <= i < n && bs[..n][i].score <= LowSimilarity &&
            w == (key, LowSim(Label(bs[..n][i].name), bs[..n][i].score));
          assert bs[..n][i] == bs[i];
        }
      }
      forall w | exists i :: (0 <= i < |bs| &&
          bs[i].score <= LowSimilarity && w == (key, LowSim(Label(bs[i].name), bs[i].score)))
        ensures w in LowSimWrites(bs, key)
      {
        var i :| 0 <= i < |bs| && bs[i].score <= LowSimilarity &&
          w == (key, LowSim(Label(bs[i].name), bs[i].score));
        if i < n {
          assert bs[..n][i] == bs[i];
        }
      }
    }
  }

  // ---------------------------------------------------------------------------
  // One file, as a function of its inputs
  // ---------------------------------------------------------------------------

  /** `results[rank - 1]` with optional chaining: missing when the list of the render that
      created the handler is empty, the rank is null or the index is outside the list. */
  function PrevLookup(snapshot: seq<ClashV2Record>, rank: Option<nat>): Option<ClashV2Record> {
    if |snapshot| > 0 && rank.Some? && 0 <= rank.value - 1 < |snapshot|
    then Some(snapshot[rank.value - 1])
    else None
  }

  /** `prevResult?.rank !== null && prevResult?.score < resultObject?.score &&
      prevResult?.rank < resultObject?.rank`: false for a missing result and for the
      placeholder, whose `rank` is `undefined`. */
  predicate Inverted(prev: Option<ClashV2Record>, score: JsNumber, rank: nat) {
    prev.Some? && prev.value.ClashV2Result? && prev.value.rank.Some? &&
    Less(prev.value.score, score) && prev.value.rank.value < rank
  }

  function InversionWrites(prev: Option<ClashV2Record>, score: JsNumber, rank: Option<nat>): seq<Write> {
    if rank.Some? && Inverted(prev, score, rank.value)
    then [(RankKey(prev.value.rank.value),
           RankInversion(prev.value.rank.value, prev.value.score, rank.value, score))]
    else []
  }

  /** The null check: the grade is a number or null, so `grade?.length < 4` compares
      `undefined` and is false; only a null grade is flagged. */
  function NullWrites(grade: Option<nat>, score: JsNumber, rank: Option<nat>): seq<Write> {
    if grade.None? then [(KeyOf(rank), NullField(rank, score, grade))] else []
  }

  /** What the `try` block has computed when it reaches the logging pass. */
  datatype Analysed = Analysed(info: ClashV2Info, rank: Option<nat>, bs: seq<Best>, names: seq<Option<string>>)

  function RecordOf(an: Analysed): ClashV2Record {
    ClashV2Result(an.rank, an.info.grade, an.info.score, an.info.duration, an.info.sideGrade,
                  Compact(an.names))
  }

  /** Everything before the logging pass: it throws when the analysis failed or a
      needed colour strip could not be read. */
  function Analyse(refs: seq<Ref>, file: FileInput<ClashV2Analysis>, idx: nat): Attempt<Analysed> {
    match file.analysis
    case Threw => Threw
    case Ok(a) =>
      var info := ParseClashV2Info(a.region1, a.region2, a.region3, a.region4);
      var bs := Sims(refs, CellEmbs(a.cells));
      match CellNames(bs, a.cells)
      case Threw => Threw
      case Ok(ns) => Ok(Analysed(info, RankOf(file.name, idx), bs, ns))
  }

  function CellEmbs(cells: seq<Cell>): (es: seq<seq<real>>)
    ensures |es| == |cells| && forall i :: 0 <= i < |cells| ==> es[i] == cells[i].emb
  {
    seq(|cells|, i requires 0 <= i < |cells| => cells[i].emb)
  }

  /** The rest of the `try` block, which cannot throw. */
  function Finish(snapshot: seq<ClashV2Record>, an: Analysed): Outcome {
    var rec := RecordOf(an);
    Outcome(rec, LowSimWrites(an.bs, KeyOf(an.rank))
      + InversionWrites(PrevLookup(snapshot, an.rank), an.info.score, an.rank)
      + NullWrites(an.info.grade, an.info.score, an.rank))
  }

  /** The body of the loop of `handleFiles` for file number `idx`. */
  function ClashV2File(snapshot: seq<ClashV2Record>, refs: seq<Ref>,
                       file: FileInput<ClashV2Analysis>, idx: nat): Outcome
  {
    match Analyse(refs, file, idx)
    case Threw => Outcome(ClashV2Placeholder, [])
    case Ok(an) => Finish(snapshot, an)
  }

  // ---------------------------------------------------------------------------
  // What one file yields
  // ---------------------------------------------------------------------------

  /** The placeholder is pushed exactly when the analysis threw or a 우로스 cell's strip
      could not be read; otherwise the record carries the parsed fields, the rank and the
      names of the cells that were recognised, in cell order. */
  lemma ClashV2FileSpec(snapshot: seq<ClashV2Record>, refs: seq<Ref>,
                        file: FileInput<ClashV2Analysis>, idx: nat)
    ensures ClashV2File(snapshot, refs, file, idx).record.ClashV2Placeholder? <==>
      (file.analysis.Threw? ||
       exists i :: (0 <= i < |file.analysis.value.cells| &&
         NeedsColour(BestOf(refs, file.analysis.value.cells[i].emb)) &&
         file.analysis.value.cells[i].roi.Threw?))
    ensures file.analysis.Ok? && ClashV2File(snapshot, refs, file, idx).record.ClashV2Result? ==>
      var a := file.analysis.value;
      var r := ClashV2File(snapshot, refs, file, idx).record;
      var info := ParseClashV2Info(a.region1, a.region2, a.region3, a.region4);
      r.grade == info.grade && r.score == info.score && r.duration == info.duration &&
      r.sideGrade == info.sideGrade && r.rank == RankOf(file.name, idx) &&
      |r.arr| <= |a.cells| &&
      forall s :: s in r.arr <==> exists i :: (0 <= i < |a.cells| &&
        CellName(BestOf(refs, a.cells[i].emb), a.cells[i].roi) == Ok(Some(s)))
  {
    if file.analysis.Ok? {
      var a := file.analysis.value;
      var bs := Sims(refs, CellEmbs(a.cells));
      CellNamesSpec(bs, a.cells);
      if CellNames(bs, a.cells).Ok? {
        var ns := CellNames(bs, a.cells).value;
        CompactMembers(ns);
        forall s | s in Compact(ns)
          ensures exists i :: (0 <= i < |a.cells| &&
            CellName(BestOf(refs, a.cells[i].emb), a.cells[i].roi) == Ok(Some(s)))
        {
          var i :| 0 <= i < |ns| && ns[i] == Some(s);
          assert CellName(bs[i], a.cells[i].roi) == Ok(Some(s));
        }
        forall s | exists i :: (0 <= i < |a.cells| &&
            CellName(BestOf(refs, a.cells[i].emb), a.cells[i].roi) == Ok(Some(s)))
          ensures s in Compact(ns)
        {
          var i :| 0 <= i < |a.cells| &&
            CellName(BestOf(refs, a.cells[i].emb), a.cells[i].roi) == Ok(Some(s));
          assert bs[i] == BestOf(refs, a.cells[i].emb);
          assert ns[i] == Some(s);
        }
      } else {
        var i :| 0 <= i < |a.cells| && NeedsColour(bs[i]) && a.cells[i].roi.Threw?;
        assert bs[i] == BestOf(refs, a.cells[i].emb);
      }
    }
  }

  /** The logging pass writes, under the file's rank, exactly the messages of the cells
      whose similarity is at most 0.935. */
  lemma LowSimIff(snapshot: seq<ClashV2Record>, an: Analysed)
    ensures forall w: Write :: w.1.LowSim? ==>
      (w in Finish(snapshot, an).writes <==> exists i :: (0 <= i < |an.bs| &&
        an.bs[i].score <= LowSimilarity &&
        w == (KeyOf(an.rank), LowSim(Label(an.bs[i].name), an.bs[i].score))))
  {
    LowSimWritesSpec(an.bs, KeyOf(an.rank));
  }

  /** An inversion is flagged, under the earlier record's rank, exactly when the record
      at index rank - 1 of the list shown when the files were selected exists, is not
      the placeholder, has a rank below this one and a smaller score. */
  lemma InversionIff(snapshot: seq<ClashV2Record>, an: Analysed)
    ensures (exists w :: w in Finish(snapshot, an).writes && w.1.RankInversion?) <==>
      (an.rank.Some? && 0 <= an.rank.value - 1 < |snapshot| &&
       snapshot[an.rank.value - 1].ClashV2Result? &&
       snapshot[an.rank.value - 1].rank.Some? &&
       snapshot[an.rank.value - 1].rank.value < an.rank.value &&
       Less(snapshot[an.rank.value - 1].score, an.info.score))
    ensures forall w :: w in Finish(snapshot, an).writes && w.1.RankInversion? ==>
      w.0 == RankKey(w.1.prevRank) && Some(w.1.curRank) == an.rank
  {
    LowSimWritesSpec(an.bs, KeyOf(an.rank));
    var low := LowSimWrites(an.bs, KeyOf(an.rank));
    var inv := InversionWrites(PrevLookup(snapshot, an.rank), an.info.score, an.rank);
    var nul := NullWrites(an.info.grade, an.info.score, an.rank);
    assert Finish(snapshot, an).writes == low + inv + nul;
    assert forall w :: w in low ==> w.1.LowSim?;
  }

  /** The null check fires exactly when the grade is null, whatever the score. */
  lemma MalformedIff(snapshot: seq<ClashV2Record>, an: Analysed)
    ensures (exists w :: w in Finish(snapshot, an).writes && w.1.NullField?) <==> an.info.grade.None?
    ensures forall w :: w in Finish(snapshot, an).writes && w.1.NullField? ==> w.0 == KeyOf(an.rank)
  {
    LowSimWritesSpec(an.bs, KeyOf(an.rank));
    var low := LowSimWrites(an.bs, KeyOf(an.rank));
    var inv := InversionWrites(PrevLookup(snapshot, an.rank), an.info.score, an.rank);
    var nul := NullWrites(an.info.grade, an.info.score, an.rank);
    assert Finish(snapshot, an).writes == low + inv + nul;
    assert forall w :: w in low ==> w.1.LowSim?;
  }

  // ---------------------------------------------------------------------------
  // A batch of files
  // ---------------------------------------------------------------------------

  function BatchRecords(snapshot: seq<ClashV2Record>, refs: seq<Ref>,
                        files: seq<FileInput<ClashV2Analysis>>): (rs: seq<ClashV2Record>)
    ensures |rs| == |files|
  {
    if |files| == 0 then []
    else
      var n := |files| - 1;
      BatchRecords(snapshot, refs, files[..n]) + [ClashV2File(snapshot, refs, files[n], n).record]
  }

  function BatchWrites(snapshot: seq<ClashV2Record>, refs: seq<Ref>,
                       files: seq<FileInput<ClashV2Analysis>>, n: nat): seq<Write>
    requires n <= |files|
  {
    if n == 0 then []
    else BatchWrites(snapshot, refs, files, n - 1) + ClashV2File(snapshot, refs, files[n - 1], n - 1).writes
  }

  /** One more file appends its record. */
  lemma BatchStep(snapshot: seq<ClashV2Record>, refs: seq<Ref>, files: seq<FileInput<ClashV2Analysis>>, n: nat)
    requires n < |files|
    ensures BatchRecords(snapshot, refs, files[..n + 1]) ==
      BatchRecords(snapshot, refs, files[..n]) + [ClashV2File(snapshot, refs, files[n], n).record]
  {
    assert files[..n + 1][..n] == files[..n];
  }

  /** Unlike the Frontier component, the lookup of the earlier result never throws: a
      file's record depends only on the file, never on what was shown before. */
  lemma RecordIgnoresSnapshot(s1: seq<ClashV2Record>, s2: seq<ClashV2Record>, refs: seq<Ref>,
                              file: FileInput<ClashV2Analysis>, idx: nat)
    ensures ClashV2File(s1, refs, file, idx).record == ClashV2File(s2, refs, file, idx).record
  {
  }

  // ---------------------------------------------------------------------------
  // The component
  // ---------------------------------------------------------------------------

  /** The state of `ProcessClashV2Component`. */
  class ClashV2Component {
    var results: seq<ClashV2Record>
    var progress: Progress
    var fileList: seq<string>
    var resultDebug: map<DebugKey, Note>
    var storedEmbs: seq<Ref>

    constructor()
      ensures results == [] && progress == Progress(0, 0) && fileList == []
      ensures resultDebug == map[] && storedEmbs == []
    {
      results := [];
      progress := Progress(0, 0);
      fileList := [];
      resultDebug := map[];
      storedEmbs := [];
    }

    /** The mount effect: `data` is the parsed `embeddings.json`, or `Threw` when the
        fetch failed, in which case the error is only logged. */
    method LoadEmbeddings(data: Attempt<seq<(string, seq<Dim>)>>)
      requires data.Ok? ==> forall i :: 0 <= i < |data.value| ==> IndexKeys(data.value[i].1)
      modifies this
      ensures data.Ok? ==> storedEmbs == LoadRefs(data.value)
      ensures data.Threw? ==> storedEmbs == old(storedEmbs)
      ensures results == old(results) && progress == old(progress)
      ensures fileList == old(fileList) && resultDebug == old(resultDebug)
    {
      if data.Ok? {
        storedEmbs := LoadRefs(data.value);
      }
    }

    /** `handleFiles`; `snapshot` is `results` as it was when the files were selected. */
    method HandleFiles(session: bool, files: seq<FileInput<ClashV2Analysis>>)
      modifies this
      ensures storedEmbs == old(storedEmbs)
      ensures !session ==> (results == old(results) && progress == old(progress) &&
        fileList == old(fileList) && resultDebug == old(resultDebug))
      ensures session ==>
        results == BatchRecords(old(results), storedEmbs, files) &&
        resultDebug == ApplyWrites(old(resultDebug), BatchWrites(old(results), storedEmbs, files, |files|)) &&
        progress == Progress(|files|, |files|) && fileList == FileNames(files)
    {
      if !session {
        return;
      }
      var snapshot := results;
      results := [];
      fileList := FileNames(files);
      progress := Progress(0, |files|);
      var idx := 0;
      while idx < |files|
        invariant 0 <= idx <= |files|
        invariant storedEmbs == old(storedEmbs) && fileList == FileNames(files)
        invariant results == BatchRecords(snapshot, storedEmbs, files[..idx])
        invariant resultDebug == ApplyWrites(old(resultDebug), BatchWrites(snapshot, storedEmbs, files, idx))
        invariant progress == Progress(idx, |files|)
      {
        var record := ProcessFile(snapshot, files[idx], idx);
        BatchStep(snapshot, storedEmbs, files, idx);
        ApplyWritesAppend(old(resultDebug), BatchWrites(snapshot, storedEmbs, files, idx),
                          ClashV2File(snapshot, storedEmbs, files[idx], idx).writes);
        results := results + [record];
        progress := Progress(progress.current + 1, progress.total);
        idx := idx + 1;
      }
      assert files[..|files|] == files;
    }

    /** The `try` block for one file, and the placeholder of its `catch`. */
    method ProcessFile(snapshot: seq<ClashV2Record>, file: FileInput<ClashV2Analysis>, idx: nat)
      returns (record: ClashV2Record)
      modifies this
      ensures record == ClashV2File(snapshot, storedEmbs, file, idx).record
      ensures resultDebug == ApplyWrites(old(resultDebug), ClashV2File(snapshot, storedEmbs, file, idx).writes)
      ensures results == old(results) && progress == old(progress)
      ensures fileList == old(fileList) && storedEmbs == old(storedEmbs)
    {
      var an := AnalyseFile(file, idx);
      if an.Threw? {
        return ClashV2Placeholder;
      }
      record := FinishFile(snapshot, an.value);
    }

    /** Everything up to the record object: the parsed OCR fields, `sims`, the names of
        `Promise.all` over the cells, and the rank. */
    method AnalyseFile(file: FileInput<ClashV2Analysis>, idx: nat) returns (an: Attempt<Analysed>)
      ensures an == Analyse(storedEmbs, file, idx)
    {
      if file.analysis.Threw? {
        return Threw;
      }
      var a := file.analysis.value;
      var refs := storedEmbs;
      var info := ParseClashV2Info(a.region1, a.region2, a.region3, a.region4);
      ghost var bs := Sims(refs, CellEmbs(a.cells));

      var sims: seq<Best> := [];
      var i := 0;
      while i < |a.cells|
        invariant 0 <= i <= |a.cells| && sims == bs[..i]
      {
        var best := BestMatch(refs, a.cells[i].emb);
        sims := sims + [best];
        i := i + 1;
      }
      assert sims == bs;

      var names: seq<Option<string>> := [];
      i := 0;
      while i < |a.cells|
        invariant 0 <= i <= |a.cells|
        invariant CellNames(bs[..i], a.cells[..i]) == Ok(names)
      {
        assert bs[..i + 1][..i] == bs[..i] && a.cells[..i + 1][..i] == a.cells[..i];
        var best := BestMatch(refs, a.cells[i].emb);
        var name := NameCell(best, a.cells[i].roi);
        if name.Threw? {
          assert CellNames(bs[..i + 1], a.cells[..i + 1]).Threw?;
          CellNamesPrefix(bs, a.cells, i + 1);
          return Threw;
        }
        names := names + [name.value];
        i := i + 1;
      }
      assert bs[..|a.cells|] == bs && a.cells[..|a.cells|] == a.cells;
      var rank := RankOf(file.name, idx);
      an := Ok(Analysed(info, rank, sims, names));
    }

    /** The logging pass, the lookup of the earlier result and the null check. */
    method FinishFile(snapshot: seq<ClashV2Record>, an: Analysed) returns (record: ClashV2Record)
      modifies this
      ensures record == Finish(snapshot, an).record
      ensures resultDebug == ApplyWrites(old(resultDebug), Finish(snapshot, an).writes)
      ensures results == old(results) && progress == old(progress)
      ensures fileList == old(fileList) && storedEmbs == old(storedEmbs)
    {
      var rank := an.rank;
      var key := KeyOf(rank);
      LogSimilarities(an.bs, key);
      ghost var low := LowSimWrites(an.bs, key);
      ghost var logged := resultDebug;

      var prev: Option<ClashV2Record> := None;
      if |snapshot| > 0 && rank.Some? && 0 <= rank.value - 1 < |snapshot| {
        prev := Some(snapshot[rank.value - 1]);
      }
      ghost var inv := InversionWrites(prev, an.info.score, rank);
      if rank.Some? && Inverted(prev, an.info.score, rank.value) {
        resultDebug := resultDebug[RankKey(prev.value.rank.value) :=
          RankInversion(prev.value.rank.value, prev.value.score, rank.value, an.info.score)];
      }
      assert resultDebug == ApplyWrites(logged, inv);
      ApplyWritesAppend(old(resultDebug), low, inv);
      ghost var checked := resultDebug;
      ghost var nul := NullWrites(an.info.grade, an.info.score, rank);
      if an.info.grade.None? {
        resultDebug := resultDebug[key := NullField(rank, an.info.score, an.info.grade)];
      }
      assert resultDebug == ApplyWrites(checked, nul);
      ApplyWritesAppend(old(resultDebug), low + inv, nul);
      record := RecordOf(an);
    }

    /** The logging pass: `setResultDebug` for each cell whose similarity is at most
        0.935, under the file's rank. */
    method LogSimilarities(bs: seq<Best>, key: DebugKey)
      modifies this
      ensures resultDebug == ApplyWrites(old(resultDebug), LowSimWrites(bs, key))
      ensures results == old(results) && progress == old(progress)
      ensures fileList == old(fileList) && storedEmbs == old(storedEmbs)
    {
      var i := 0;
      while i < |bs|
        invariant 0 <= i <= |bs|
        invariant resultDebug == ApplyWrites(old(resultDebug), LowSimWrites(bs[..i], key))
        invariant results == old(results) && progress == old(progress)
        invariant fileList == old(fileList) && storedEmbs == old(storedEmbs)
      {
        assert bs[..i + 1][..i] == bs[..i] && bs[..i + 1][i] == bs[i];
        assert LowSimWrites(bs[..i + 1], key) == LowSimWrites(bs[..i], key)
          + (if bs[i].score <= LowSimilarity then [(key, LowSim(Label(bs[i].name), bs[i].score))] else []);
        if bs[i].score <= LowSimilarity {
          ApplyWritesSnoc(old(resultDebug), LowSimWrites(bs[..i], key),
                          (key, LowSim(Label(bs[i].name), bs[i].score)));
          resultDebug := resultDebug[key := LowSim(Label(bs[i].name), bs[i].score)];
        } else {
          assert LowSimWrites(bs[..i], key) + [] == LowSimWrites(bs[..i], key);
        }
        i := i + 1;
      }
      assert bs[..|bs|] == bs;
    }
  }

  /** One cell of the async map. */
  method NameCell(b: Best, roi: Attempt<seq<Byte>>) returns (name: Attempt<Option<string>>)
    ensures name == CellName(b, roi)
  {
    if b.score < Thresh {
      return Ok(None);
    }
    var base := Label(b.name);
    if !StartsWith(base, Uros) {
      return Ok(Some(base));
    }
    if roi.Threw? {
      return Threw;
    }
    var avgColor := GetAverageColor(roi.value);
    var attribute := GetClosestAttribute(avgColor);
    if attribute.Some? {
      name := Ok(Some(base + "(" + attribute.value + ")"));
    } else {
      name := Ok(Some(base));
    }
  }

  /** Once a prefix of the cells throws, so do all longer prefixes. */
  lemma {:induction false} CellNamesPrefix(bs: seq<Best>, cells: seq<Cell>, k: nat)
    requires |bs| == |cells| && k <= |cells|
    requires CellNames(bs[..k], cells[..k]).Threw?
    ensures CellNames(bs, cells).Threw?
    decreases |cells| - k
  {
    if k < |cells| {
      assert bs[..k + 1][..k] == bs[..k] && cells[..k + 1][..k] == cells[..k];
      CellNamesPrefix(bs, cells, k + 1);
    } else {
      assert bs[..k] == bs && cells[..k] == cells;
    }
  }
}
