/** The embedding matcher shared by the Frontier and ClashV2 processing components: the
    reference store read from `embeddings.json`, the dot-product scan that picks the best
    reference for a cell, the rules that turn the winner into a label, the rank taken
    from a file name, and the debug map both components write their flags into. */
module Matcher {
  import opened Wrappers
  import opened JsBuiltins

  // ---------------------------------------------------------------------------
  // The reference store
  // ---------------------------------------------------------------------------

  /** One dimension of a stored vector as the JSON object holds it: key and value. */
  datatype Dim = Dim(key: string, value: real)

  /** A stored reference: its name (`"우로스_2"`, say) and its vector. */
  datatype Ref = Ref(name: string, emb: seq<real>)

  /** The converter stores each vector as a `Float32Array`, which `JSON.stringify` writes
      as an object keyed "0", "1", ..., so its keys are decimal array indices. */
  predicate IndexKeys(obj: seq<Dim>) {
    forall i :: 0 <= i < |obj| ==> AllDigits(obj[i].key)
  }

  /** `Number(k)` for a key of decimal digits. */
  function KeyNumber(d: Dim): int {
    if AllDigits(d.key) then DecimalValue(d.key) else 0
  }

  function Values(ds: seq<Dim>): (v: seq<real>)
    ensures |v| == |ds| && forall i :: 0 <= i < |ds| ==> v[i] == ds[i].value
  {
    seq(|ds|, i requires 0 <= i < |ds| => ds[i].value)
  }

  /** `Object.keys(obj).sort((a, b) => Number(a) - Number(b)).map(k => Number(obj[k]))`. */
  function RefVector(obj: seq<Dim>): seq<real>
    requires IndexKeys(obj)
  {
    Values(SortBy(obj, KeyNumber))
  }

  /** The vector lists the values of the entries in ascending numeric order of their
      keys: a rearrangement of all the entries, sorted by `Number(key)`. */
  lemma RefVectorOrder(obj: seq<Dim>)
    requires IndexKeys(obj)
    ensures exists sorted: seq<Dim> :: (multiset(sorted) == multiset(obj) &&
      SortedBy(sorted, KeyNumber) && RefVector(obj) == Values(sorted))
  {
    SortBySorted(obj, KeyNumber);
  }

  /** Numeric, not string, order: key "10" comes after key "9". */
  lemma RefVectorNumericOrder()
    ensures RefVector([Dim("10", 1.0), Dim("9", 2.0)]) == [2.0, 1.0]
  {
    var obj := [Dim("10", 1.0), Dim("9", 2.0)];
    assert AllDigits("10") && AllDigits("9");
    assert "10"[..1] == "1" && "1"[..0] == "" && "9"[..0] == "";
    assert DecimalValue("1") == 1;
    assert KeyNumber(obj[0]) == 10;
    assert KeyNumber(obj[1]) == 9;
    assert obj[..1] == [Dim("10", 1.0)];
    assert SortBy(obj[..1], KeyNumber) == [Dim("10", 1.0)];
    assert [Dim("10", 1.0)][..0] == [];
    assert SortBy(obj, KeyNumber) == [Dim("9", 2.0), Dim("10", 1.0)];
  }

  /** The `storedEmbs` list built from the parsed JSON, one reference per entry. */
  function LoadRefs(data: seq<(string, seq<Dim>)>): (refs: seq<Ref>)
    requires forall i :: 0 <= i < |data| ==> IndexKeys(data[i].1)
    ensures |refs| == |data|
    ensures forall i :: 0 <= i < |data| ==>
      refs[i].name == data[i].0 && refs[i].emb == RefVector(data[i].1)
  {
    seq(|data|, i requires 0 <= i < |data| => Ref(data[i].0, RefVector(data[i].1)))
  }

  // ---------------------------------------------------------------------------
  // Dot products and the best match
  // ---------------------------------------------------------------------------

  /** The sum of the first n products. */
  function DotUpTo(a: seq<real>, b: seq<real>, n: nat): real
    requires n <= |a| && n <= |b|
  {
    if n == 0 then 0.0 else DotUpTo(a, b, n - 1) + a[n - 1] * b[n - 1]
  }

  /** The dot product over the stored vector's length. When the cell's vector is shorter
      the missing components read as `undefined` and the sum is NaN: `None`. */
  function Dot(store: seq<real>, query: seq<real>): Option<real> {
    if |query| < |store| then None else Some(DotUpTo(store, query, |store|))
  }

  /** `for (let j = 0; j < emb.length; j++) sum += emb[j] * cell.emb[j]`. */
  method DotProduct(store: seq<real>, query: seq<real>) returns (sum: Option<real>)
    ensures sum == Dot(store, query)
  {
    sum := Some(0.0);
    var j := 0;
    while j < |store|
      invariant 0 <= j <= |store|
      invariant sum == if |query| < j then None else Some(DotUpTo(store, query, j))
    {
      if sum.Some? && j < |query| {
        assert DotUpTo(store, query, j + 1) == DotUpTo(store, query, j) + store[j] * query[j];
        sum := Some(sum.value + store[j] * query[j]);
      } else {
        sum := None;
      }
      j := j + 1;
    }
  }

  /** `best`: the highest score so far and the name of the reference that reached it. */
  datatype Best = Best(score: real, name: string)

  /** `{ score: -1, name: '' }`. */
  const Initial: Best := Best(-1.0, "")

  /** One turn of the scan: the reference replaces `b` only when its score is strictly
      higher (a NaN score never is). */
  function Consider(b: Best, r: Ref, query: seq<real>): Best {
    match Dot(r.emb, query)
    case Some(d) => if d > b.score then Best(d, r.name) else b
    case None => b
  }

  /** The scan over the whole store, in store order. */
  function BestOf(refs: seq<Ref>, query: seq<real>): Best
    decreases |refs|
  {
    if |refs| == 0 then Initial
    else Consider(BestOf(refs[..|refs| - 1], query), refs[|refs| - 1], query)
  }

  /** The best-match loop of both components. */
  method BestMatch(refs: seq<Ref>, query: seq<real>) returns (best: Best)
    ensures best == BestOf(refs, query)
  {
    best := Initial;
    var k := 0;
    while k < |refs|
      invariant 0 <= k <= |refs|
      invariant best == BestOf(refs[..k], query)
    {
      assert refs[..k + 1][..k] == refs[..k];
      var sum := DotProduct(refs[k].emb, query);
      if sum.Some? && sum.value > best.score {
        best := Best(sum.value, refs[k].name);
      }
      k := k + 1;
    }
    assert refs[..|refs|] == refs;
  }

  /** `sims`: the best reference of every cell. */
  function Sims(refs: seq<Ref>, embs: seq<seq<real>>): (bs: seq<Best>)
    ensures |bs| == |embs| && forall i :: 0 <= i < |embs| ==> bs[i] == BestOf(refs, embs[i])
  {
    seq(|embs|, i requires 0 <= i < |embs| => BestOf(refs, embs[i]))
  }

  /** Reference j scores strictly above x. */
  predicate Beats(refs: seq<Ref>, query: seq<real>, j: int, x: real)
    requires 0 <= j < |refs|
  {
    var d := Dot(refs[j].emb, query);
    d.Some? && d.value > x
  }

  /** Reference j scores at least x. */
  predicate Reaches(refs: seq<Ref>, query: seq<real>, j: int, x: real)
    requires 0 <= j < |refs|
  {
    var d := Dot(refs[j].emb, query);
    d.Some? && d.value >= x
  }

  /** What the scan leaves behind: a score of at least -1 that no reference beats; and
      unless nothing was ever taken, the score and name of a reference that reaches it
      before any other does. */
  lemma {:induction false} BestOfProps(refs: seq<Ref>, query: seq<real>)
    ensures var b := BestOf(refs, query);
      b.score >= -1.0 &&
      (forall j :: 0 <= j < |refs| ==> !Beats(refs, query, j, b.score)) &&
      (b != Initial ==> b.score > -1.0 && exists k :: (0 <= k < |refs| &&
        Dot(refs[k].emb, query) == Some(b.score) && b.name == refs[k].name &&
        forall j :: 0 <= j < k ==> !Reaches(refs, query, j, b.score)))
    decreases |refs|
  {
    if |refs| > 0 {
      var n := |refs| - 1;
      var init := refs[..n];
      BestOfProps(init, query);
      var b0 := BestOf(init, query);
      var b := BestOf(refs, query);
      forall j | 0 <= j < n
        ensures !Beats(refs, query, j, b0.score)
      {
        assert refs[j] == init[j];
        assert !Beats(init, query, j, b0.score);
      }
      if b != b0 {
        assert Dot(refs[n].emb, query) == Some(b.score) && b.name == refs[n].name;
        assert b.score > b0.score;
        forall j | 0 <= j < n
          ensures !Reaches(refs, query, j, b.score)
        {
          assert !Beats(refs, query, j, b0.score);
        }
        forall j | 0 <= j < |refs|
          ensures !Beats(refs, query, j, b.score)
        {
          if j < n {
            assert !Beats(refs, query, j, b0.score);
          }
        }
      } else {
        forall j | 0 <= j < |refs|
          ensures !Beats(refs, query, j, b.score)
        {
          if j < n {
            assert !Beats(refs, query, j, b0.score);
          }
        }
      }
      if b == b0 && b != Initial {
        var k :| 0 <= k < n && Dot(init[k].emb, query) == Some(b.score) && b.name == init[k].name &&
          forall j :: 0 <= j < k ==> !Reaches(init, query, j, b.score);
        forall j | 0 <= j < k
          ensures !Reaches(refs, query, j, b.score)
        {
          assert refs[j] == init[j];
          assert !Reaches(init, query, j, b.score);
        }
        assert refs[k] == init[k];
      }
    }
  }

  /** The name stays `''` and the score -1 exactly when no reference scores above -1;
      otherwise the earliest reference with the highest score wins. */
  lemma BestOfSpec(refs: seq<Ref>, query: seq<real>)
    ensures BestOf(refs, query) == Initial <==> forall j :: 0 <= j < |refs| ==> !Beats(refs, query, j, -1.0)
    ensures BestOf(refs, query) != Initial ==> exists k :: (0 <= k < |refs| &&
      Dot(refs[k].emb, query).Some? &&
      BestOf(refs, query) == Best(Dot(refs[k].emb, query).value, refs[k].name) &&
      (forall j :: 0 <= j < |refs| ==> !Beats(refs, query, j, BestOf(refs, query).score)) &&
      (forall j :: 0 <= j < k ==> !Reaches(refs, query, j, BestOf(refs, query).score)))
  {
    BestOfProps(refs, query);
    var b := BestOf(refs, query);
    if b != Initial {
      var k :| 0 <= k < |refs| && Dot(refs[k].emb, query) == Some(b.score) && b.name == refs[k].name &&
        forall j :: 0 <= j < k ==> !Reaches(refs, query, j, b.score);
      assert Beats(refs, query, k, -1.0);
    }
  }

  // ---------------------------------------------------------------------------
  // From the best match to a label
  // ---------------------------------------------------------------------------

  /** `name.split('_')[0]`. */
  function Label(name: string): string {
    BeforeFirst(name, '_')
  }

  const Thresh: real := 0.8

  /** The similarity at or below which a cell is reported as doubtful. */
  const LowSimilarity: real := 0.935

  /** A cell's name: its label when the best score reaches `THRESH`, otherwise null. */
  function Accept(b: Best): (r: Option<string>)
    ensures r.Some? <==> b.score >= Thresh
  {
    if b.score >= Thresh then Some(Label(b.name)) else None
  }

  /** `names.filter(n => n !== null)`. */
  function Compact(names: seq<Option<string>>): (r: seq<string>)
    ensures |r| <= |names|
    decreases |names|
  {
    if |names| == 0 then []
    else Compact(names[..|names| - 1]) + (if names[|names| - 1].Some? then [names[|names| - 1].value] else [])
  }

  /** The filter keeps order: filtering two halves and joining gives the filtered whole. */
  lemma {:induction false} CompactAppend(a: seq<Option<string>>, b: seq<Option<string>>)
    ensures Compact(a + b) == Compact(a) + Compact(b)
    decreases |b|
  {
    if |b| > 0 {
      CompactAppend(a, b[..|b| - 1]);
      assert (a + b)[..|a + b| - 1] == a + b[..|b| - 1];
      assert (a + b)[|a + b| - 1] == b[|b| - 1];
    } else {
      assert a + b == a;
    }
  }

  /** The filter keeps exactly the non-null names. */
  lemma {:induction false} CompactMembers(names: seq<Option<string>>)
    ensures forall s :: s in Compact(names) <==> Some(s) in names
    decreases |names|
  {
    if |names| > 0 {
      var init := names[..|names| - 1];
      CompactMembers(init);
      assert names == init + [names[|names| - 1]];
    }
  }

  // ---------------------------------------------------------------------------
  // Rank, debug keys and per-file inputs
  // ---------------------------------------------------------------------------

  /** `file.name.replace(/\.[^.]+$/, "")`. */
  function BaseName(fileName: string): string {
    StripExtension(fileName, {'.'})
  }

  /** `Number.isNaN(parseInt(baseName, 10)) ? null : idx + 1`: the number itself is not
      used, only whether there is one. */
  function RankOf(fileName: string, idx: nat): (r: Option<nat>)
    ensures r.Some? ==> r.value == idx + 1
  {
    if ParseInt(BaseName(fileName)).NaN? then None else Some(idx + 1)
  }

  // Worked readings: concrete inputs checked against the definitions above.
  /** A numbered screenshot gets the rank of its position in the selection, not its
      number; a name without a leading number gets none. */
  lemma RankExamples()
    ensures RankOf("7.png", 0) == Some(1)
    ensures RankOf("shot.png", 3) == None
  {
    NumberedRank();
    UnnumberedRank();
  }

  lemma NumberedRank()
    ensures RankOf("7.png", 0) == Some(1)
  {
    var a := "7.png";
    assert ExtensionAt(a, {'.'}, 1);
    StripExtensionSpec(a, {'.'});
    assert BaseName(a) == "7";
    ParseIntOfDigits("7");
  }

  lemma UnnumberedRank()
    ensures RankOf("shot.png", 3) == None
  {
    ShotBaseName();
    var s := "shot";
    ParseIntNaN(s);
    assert !IsJsSpace(s[0]) && !IsDigit(s[0]);
    assert RunEnd(s, 0, IsJsSpace) == 0;
  }

  lemma ShotBaseName()
    ensures BaseName("shot.png") == "shot"
  {
    var b := "shot.png";
    assert ExtensionAt(b, {'.'}, 4);
    FindExtensionUnique(b, {'.'}, 0, 4);
    assert b[..4] == "shot";
  }

  /** A key of the debug map: `[rank]` turns a null rank into the key "null". */
  datatype DebugKey = NullKey | RankKey(rank: nat)

  function KeyOf(rank: Option<nat>): DebugKey {
    match rank
    case None => NullKey
    case Some(n) => RankKey(n)
  }

  /** The `setResultDebug(prev => ({ ...prev, [key]: message }))` calls of one batch,
      applied in order: a later write to a key replaces an earlier one. */
  function ApplyWrites<M>(d: map<DebugKey, M>, ws: seq<(DebugKey, M)>): map<DebugKey, M>
    decreases |ws|
  {
    if |ws| == 0 then d else ApplyWrites(d[ws[0].0 := ws[0].1], ws[1..])
  }

  lemma {:induction false} ApplyWritesAppend<M>(d: map<DebugKey, M>, a: seq<(DebugKey, M)>, b: seq<(DebugKey, M)>)
    ensures ApplyWrites(d, a + b) == ApplyWrites(ApplyWrites(d, a), b)
    decreases |a|
  {
    if |a| == 0 {
      assert a + b == b;
    } else {
      assert (a + b)[0] == a[0];
      assert (a + b)[1..] == a[1..] + b;
      ApplyWritesAppend(d[a[0].0 := a[0].1], a[1..], b);
    }
  }

  /** One more write at the end updates the map the earlier writes left. */
  lemma ApplyWritesSnoc<M>(d: map<DebugKey, M>, ws: seq<(DebugKey, M)>, w: (DebugKey, M))
    ensures ApplyWrites(d, ws + [w]) == ApplyWrites(d, ws)[w.0 := w.1]
  {
    ApplyWritesAppend(d, ws, [w]);
    assert [w][1..] == [];
  }

  /** The map holds a key after the writes exactly when it held it before or some write
      used it; the last write to a key decides its message. */
  lemma {:induction false} ApplyWritesKeys<M>(d: map<DebugKey, M>, ws: seq<(DebugKey, M)>)
    ensures forall k :: k in ApplyWrites(d, ws) <==> k in d || exists i :: 0 <= i < |ws| && ws[i].0 == k
    ensures |ws| > 0 ==> ApplyWrites(d, ws)[ws[|ws| - 1].0] == ws[|ws| - 1].1
    decreases |ws|
  {
    if |ws| > 0 {
      ApplyWritesKeys(d[ws[0].0 := ws[0].1], ws[1..]);
      forall k | (exists i :: 0 <= i < |ws| && ws[i].0 == k)
        ensures k in ApplyWrites(d, ws)
      {
        var i :| 0 <= i < |ws| && ws[i].0 == k;
        if i > 0 {
          assert ws[1..][i - 1].0 == k;
        }
      }
      forall k | k in ApplyWrites(d, ws) && k !in d
        ensures exists i :: 0 <= i < |ws| && ws[i].0 == k
      {
        if k != ws[0].0 {
          var i :| 0 <= i < |ws[1..]| && ws[1..][i].0 == k;
          assert ws[i + 1].0 == k;
        }
      }
      if |ws| > 1 {
        assert ws[1..][|ws[1..]| - 1] == ws[|ws| - 1];
      }
    }
  }

  /** What the browser's file, image, OCR and embedding calls produced for one file:
      their results, or `Threw` when one of them failed. */
  datatype FileInput<A> = FileInput(name: string, analysis: Attempt<A>)

  /** `setFileList(files)`: the selected files, shown by name. */
  function FileNames<A>(files: seq<FileInput<A>>): (ns: seq<string>)
    ensures |ns| == |files| && forall i :: 0 <= i < |files| ==> ns[i] == files[i].name
  {
    seq(|files|, i requires 0 <= i < |files| => files[i].name)
  }

  /** `{ current, total }`. */
  datatype Progress = Progress(current: nat, total: nat)
}
