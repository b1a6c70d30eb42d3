/** The reference-embedding builder: one embedding per selected character picture,
    collected into a name-to-vector map that is downloaded as `embeddings.json`. */
module ConvertJson {
  import opened Wrappers
  import opened JsBuiltins
  import opened Matcher

  /** What `session.run` resolves to: the data of each output tensor, by output name. */
  type Outputs = map<string, seq<real>>

  /** The output names tried, in order. */
  const PossibleKeys: seq<string> := ["image_embeds", "image_embeddings", "last_hidden_state", "pooler_output"]

  /** The first of `keys` that names an output, if any. */
  function FirstPresent(outputs: Outputs, keys: seq<string>): (r: Option<string>)
    ensures r.Some? ==> r.value in keys && r.value in outputs
    ensures r.None? <==> forall k :: k in keys ==> k !in outputs
    decreases |keys|
  {
    if |keys| == 0 then None
    else if keys[0] in outputs then Some(keys[0])
    else
      assert forall k :: k in keys ==> k == keys[0] || k in keys[1..];
      FirstPresent(outputs, keys[1..])
  }

  /** The key found is the earliest of `keys` that is present. */
  lemma {:induction false} FirstPresentIsFirst(outputs: Outputs, keys: seq<string>)
    ensures FirstPresent(outputs, keys).Some? ==> exists i :: (0 <= i < |keys| &&
      keys[i] == FirstPresent(outputs, keys).value && forall j :: 0 <= j < i ==> keys[j] !in outputs)
    decreases |keys|
  {
    if |keys| > 0 && keys[0] !in outputs {
      var r := FirstPresent(outputs, keys[1..]);
      FirstPresentIsFirst(outputs, keys[1..]);
      if r.Some? {
        var i :| 0 <= i < |keys[1..]| && keys[1..][i] == r.value && forall j :: 0 <= j < i ==> keys[1..][j] !in outputs;
        assert keys[i + 1] == r.value;
        assert forall j :: 0 <= j < i + 1 ==> keys[j] !in outputs;
      }
    } else if |keys| > 0 {
      assert keys[0] == FirstPresent(outputs, keys).value;
    }
  }

  /** The embedding `generateSingleEmbedding` takes from the outputs: the data of the
      first present output among `PossibleKeys`; none present is an error. */
  function Probe(outputs: Outputs): Attempt<seq<real>> {
    match FirstPresent(outputs, PossibleKeys)
    case Some(key) => Ok(outputs[key])
    case None => Threw
  }

  /** The loop over `possibleKeys` with its `break`. */
  method ProbeOutputs(outputs: Outputs) returns (embedding: Attempt<seq<real>>)
    ensures embedding == Probe(outputs)
  {
    embedding := Threw;  // null: nothing found yet
    var i := 0;
    while i < |PossibleKeys|
      invariant 0 <= i <= |PossibleKeys|
      invariant embedding == Threw
      invariant FirstPresent(outputs, PossibleKeys) == FirstPresent(outputs, PossibleKeys[i..])
    {
      var key := PossibleKeys[i];
      if key in outputs {
        embedding := Ok(outputs[key]);
        break;
      }
      i := i + 1;
    }
    assert i == |PossibleKeys| ==> PossibleKeys[i..] == [];
  }

  /** `image_embeds` wins whenever present; `pooler_output` is used only when the other
      three are all missing; with none of the four the file fails. */
  lemma ProbeOrder(outputs: Outputs)
    ensures "image_embeds" in outputs ==> Probe(outputs) == Ok(outputs["image_embeds"])
    ensures "image_embeds" !in outputs && "image_embeddings" in outputs ==>
      Probe(outputs) == Ok(outputs["image_embeddings"])
    ensures "image_embeds" !in outputs && "image_embeddings" !in outputs && "last_hidden_state" in outputs ==>
      Probe(outputs) == Ok(outputs["last_hidden_state"])
    ensures "image_embeds" !in outputs && "image_embeddings" !in outputs && "last_hidden_state" !in outputs ==>
      (Probe(outputs) == (if "pooler_output" in outputs then Ok(outputs["pooler_output"]) else Threw))
  {
    var p := PossibleKeys;
    assert p[1..] == ["image_embeddings", "last_hidden_state", "pooler_output"];
    assert p[1..][1..] == ["last_hidden_state", "pooler_output"];
    assert p[1..][1..][1..] == ["pooler_output"];
    assert p[1..][1..][1..][1..] == [];
  }

  /** `file.name.replace(/\.[^/.]+$/, "")`: the character's name. */
  function CharacterName(fileName: string): string {
    StripExtension(fileName, {'/', '.'})
  }

  /** Only a final dot followed by at least one character that is neither a dot nor a
      slash is removed, together with what follows it. */
  lemma CharacterNameSpec(fileName: string)
    ensures forall i :: 0 <= i < |fileName| && ExtensionAt(fileName, {'/', '.'}, i) ==>
      CharacterName(fileName) == fileName[..i]
    ensures (forall i :: 0 <= i < |fileName| ==> !ExtensionAt(fileName, {'/', '.'}, i)) ==>
      CharacterName(fileName) == fileName
  {
    StripExtensionSpec(fileName, {'/', '.'});
  }

  // Worked readings: concrete inputs checked against the definitions above.
  lemma CharacterNameExamples()
    ensures CharacterName("Alice.png") == "Alice"
    ensures CharacterName("a.b.png") == "a.b"
    ensures CharacterName("Alice.") == "Alice."
    ensures CharacterName("x.dir/Alice") == "x.dir/Alice"
  {
    var stop := {'/', '.'};
    CharacterNameSpec("Alice.png");
    assert ExtensionAt("Alice.png", stop, 5);
    CharacterNameSpec("a.b.png");
    assert ExtensionAt("a.b.png", stop, 3);
    CharacterNameSpec("Alice.");
    assert forall i :: 0 <= i < 6 ==> !ExtensionAt("Alice.", stop, i);
    CharacterNameSpec("x.dir/Alice");
    assert "x.dir/Alice"[5] == '/';
    assert forall i :: 0 <= i < 11 ==> !ExtensionAt("x.dir/Alice", stop, i);
  }

  /** `{ name, embedding }` as `generateSingleEmbedding` returns it. */
  datatype Named = Named(name: string, embedding: seq<real>)

  /** `generateSingleEmbedding(file)`: `file.analysis` is what loading, preprocessing and
      `session.run` produce for the file, or `Threw` when one of them throws. */
  function SingleEmbedding(file: FileInput<Outputs>): (r: Attempt<Named>)
    ensures r.Ok? ==> r.value.name == CharacterName(file.name)
    ensures r.Ok? <==> file.analysis.Ok? && Probe(file.analysis.value).Ok?
  {
    match file.analysis
    case Threw => Threw
    case Ok(outputs) =>
      match Probe(outputs)
      case Threw => Threw
      case Ok(e) => Ok(Named(CharacterName(file.name), e))
  }

  /** `newEmbeddings` after the loop has handled `files`: each success stores its
      embedding under its name, a failure is skipped. */
  function Accumulate(files: seq<FileInput<Outputs>>): map<string, seq<real>>
    decreases |files|
  {
    if |files| == 0 then map[]
    else
      var m := Accumulate(files[..|files| - 1]);
      match SingleEmbedding(files[|files| - 1])
      case Threw => m
      case Ok(r) => m[r.name := r.embedding]
  }

  /** The file at position i succeeds and is stored under `name`. */
  predicate StoredAs(files: seq<FileInput<Outputs>>, i: int, name: string)
    requires 0 <= i < |files|
  {
    SingleEmbedding(files[i]).Ok? && SingleEmbedding(files[i]).value.name == name
  }

  /** A name is a key exactly when some file succeeded under that name. */
  lemma {:induction false} AccumulateKeys(files: seq<FileInput<Outputs>>, name: string)
    ensures name in Accumulate(files) <==> exists i :: 0 <= i < |files| && StoredAs(files, i, name)
    decreases |files|
  {
    if |files| > 0 {
      var n := |files| - 1;
      var init := files[..n];
      AccumulateKeys(init, name);
      var last := SingleEmbedding(files[n]);
      assert name in Accumulate(files) <==>
        name in Accumulate(init) || (last.Ok? && last.value.name == name);
      forall i | 0 <= i < n
        ensures StoredAs(init, i, name) == StoredAs(files, i, name)
      {
        assert init[i] == files[i];
      }
      if exists i :: 0 <= i < |files| && StoredAs(files, i, name) {
        var i :| 0 <= i < |files| && StoredAs(files, i, name);
        if i < n {
          assert StoredAs(init, i, name);
        }
      }
      if last.Ok? && last.value.name == name {
        assert StoredAs(files, n, name);
      }
    }
  }

  /** The stored vector is the one of the last file that succeeded under that name. */
  lemma {:induction false} AccumulateLastWins(files: seq<FileInput<Outputs>>, i: nat, name: string)
    requires i < |files| && StoredAs(files, i, name)
    requires forall j :: i < j < |files| ==> !StoredAs(files, j, name)
    ensures name in Accumulate(files) && Accumulate(files)[name] == SingleEmbedding(files[i]).value.embedding
    decreases |files|
  {
    var init := files[..|files| - 1];
    if i < |files| - 1 {
      forall j | i < j < |init|
        ensures !StoredAs(init, j, name)
      {
        assert !StoredAs(files, j, name);
      }
      assert StoredAs(init, i, name);
      AccumulateLastWins(init, i, name);
      assert !StoredAs(files, |files| - 1, name);
    }
  }

  /** A failing file leaves the map as it was. */
  lemma FailureSkipped(files: seq<FileInput<Outputs>>, f: FileInput<Outputs>)
    requires SingleEmbedding(f).Threw?
    ensures Accumulate(files + [f]) == Accumulate(files)
  {
    assert (files + [f])[..|files|] == files;
  }

  /** The map is empty exactly when every file failed. */
  lemma AccumulateEmptyIff(files: seq<FileInput<Outputs>>)
    ensures Accumulate(files) == map[] <==> forall i :: 0 <= i < |files| ==> SingleEmbedding(files[i]).Threw?
  {
    if Accumulate(files) != map[] {
      var name :| name in Accumulate(files);
      AccumulateKeys(files, name);
    }
    if exists i :: 0 <= i < |files| && SingleEmbedding(files[i]).Ok? {
      var i :| 0 <= i < |files| && SingleEmbedding(files[i]).Ok?;
      AccumulateKeys(files, SingleEmbedding(files[i]).value.name);
      assert StoredAs(files, i, SingleEmbedding(files[i]).value.name);
    }
  }

  // ---------------------------------------------------------------------------------
  // Key order of the embeddings object

  /** No element occurs twice. */
  ghost predicate Distinct(s: seq<string>) {
    forall k :: multiset(s)[k] <= 1
  }

  /** The order in which the keys of `newEmbeddings` were created: a name enters when it
      is first stored, and a later store under the same name keeps its place. */
  function InsertionOrder(files: seq<FileInput<Outputs>>): seq<string>
    decreases |files|
  {
    if |files| == 0 then []
    else
      var init := files[..|files| - 1];
      match SingleEmbedding(files[|files| - 1])
      case Threw => InsertionOrder(init)
      case Ok(r) =>
        if r.name in Accumulate(init) then InsertionOrder(init) else InsertionOrder(init) + [r.name]
  }

  /** Each stored name was created once, and the created names are exactly the keys. */
  lemma {:induction false} InsertionOrderKeys(files: seq<FileInput<Outputs>>)
    ensures Distinct(InsertionOrder(files))
    ensures forall k :: k in InsertionOrder(files) <==> k in Accumulate(files)
    decreases |files|
  {
    if |files| > 0 {
      var init := files[..|files| - 1];
      InsertionOrderKeys(init);
      var o := InsertionOrder(init);
      match SingleEmbedding(files[|files| - 1])
      case Threw =>
      case Ok(r) =>
        if r.name !in Accumulate(init) {
          assert multiset(o)[r.name] == 0;
          assert multiset(o + [r.name]) == multiset(o) + multiset{r.name};
        }
    }
  }

  /** One more file: a failure changes nothing, a success stores its vector and creates
      its name unless the name is already a key. */
  lemma GenerateStep(files: seq<FileInput<Outputs>>, i: nat)
    requires i < |files|
    ensures SingleEmbedding(files[i]).Threw? ==>
      Accumulate(files[..i + 1]) == Accumulate(files[..i]) &&
      InsertionOrder(files[..i + 1]) == InsertionOrder(files[..i])
    ensures SingleEmbedding(files[i]).Ok? ==>
      var r := SingleEmbedding(files[i]).value;
      Accumulate(files[..i + 1]) == Accumulate(files[..i])[r.name := r.embedding] &&
      InsertionOrder(files[..i + 1]) ==
        if r.name in Accumulate(files[..i]) then InsertionOrder(files[..i])
        else InsertionOrder(files[..i]) + [r.name]
  {
    assert files[..i + 1][..i] == files[..i];
  }

  /** Storing again under a name already present overwrites the vector in place: the
      key keeps its position. */
  lemma RestoreKeepsPlace(files: seq<FileInput<Outputs>>, f: FileInput<Outputs>)
    requires SingleEmbedding(f).Ok? && SingleEmbedding(f).value.name in Accumulate(files)
    ensures InsertionOrder(files + [f]) == InsertionOrder(files)
    ensures Accumulate(files + [f]) ==
      Accumulate(files)[SingleEmbedding(f).value.name := SingleEmbedding(f).value.embedding]
  {
    assert (files + [f])[..|files|] == files;
  }

  /** A property key that ECMA-262 treats as an array index: the canonical decimal form
      of an integer below 2^32 - 1 ("0", "7", "42", but not "07" or "-1"). */
  predicate IsArrayIndex(k: string) {
    |k| > 0 && AllDigits(k) && (k[0] == '0' ==> |k| == 1) && DecimalValue(k) < 0xFFFF_FFFF
  }

  /** The numeric value of an array-index key, the sort key of those keys. */
  function IndexNumber(k: string): int {
    if IsArrayIndex(k) then DecimalValue(k) else 0
  }

  /** The array-index keys of `order`, in `order`'s order. */
  function ArrayIndexKeys(order: seq<string>): (r: seq<string>)
    ensures forall k :: k in r <==> k in order && IsArrayIndex(k)
    decreases |order|
  {
    if |order| == 0 then []
    else
      var init := ArrayIndexKeys(order[..|order| - 1]);
      assert order == order[..|order| - 1] + [order[|order| - 1]];
      if IsArrayIndex(order[|order| - 1]) then init + [order[|order| - 1]] else init
  }

  /** The other keys of `order`, in `order`'s order. */
  function OtherKeys(order: seq<string>): (r: seq<string>)
    ensures forall k :: k in r <==> k in order && !IsArrayIndex(k)
    decreases |order|
  {
    if |order| == 0 then []
    else
      var init := OtherKeys(order[..|order| - 1]);
      assert order == order[..|order| - 1] + [order[|order| - 1]];
      if IsArrayIndex(order[|order| - 1]) then init else init + [order[|order| - 1]]
  }

  /** Together the two parts hold every key of `order` as often as `order` does. */
  lemma {:induction false} SplitKeys(order: seq<string>)
    ensures multiset(ArrayIndexKeys(order)) + multiset(OtherKeys(order)) == multiset(order)
    decreases |order|
  {
    if |order| > 0 {
      SplitKeys(order[..|order| - 1]);
      assert order == order[..|order| - 1] + [order[|order| - 1]];
    }
  }

  /** Two keys created in one order that are not array indices keep that order. */
  lemma {:induction false} OtherKeysKeepOrder(order: seq<string>, i: nat, j: nat)
    requires i < j < |order| && !IsArrayIndex(order[i]) && !IsArrayIndex(order[j])
    ensures exists p, q ::
      0 <= p < q < |OtherKeys(order)| && OtherKeys(order)[p] == order[i] && OtherKeys(order)[q] == order[j]
    decreases |order|
  {
    var init := order[..|order| - 1];
    if j < |order| - 1 {
      OtherKeysKeepOrder(init, i, j);
      var p, q :| 0 <= p < q < |OtherKeys(init)| &&
        OtherKeys(init)[p] == init[i] && OtherKeys(init)[q] == init[j];
      assert OtherKeys(order)[p] == order[i] && OtherKeys(order)[q] == order[j];
    } else {
      assert order[i] == init[i] && order[i] in OtherKeys(init);
      var p :| 0 <= p < |OtherKeys(init)| && OtherKeys(init)[p] == order[i];
      var q := |OtherKeys(order)| - 1;
      assert OtherKeys(order)[p] == order[i] && OtherKeys(order)[q] == order[j];
    }
  }

  /** The order in which `Object.keys`, `JSON.stringify` and `Object.entries` visit the
      keys of an ordinary object whose keys were created in `order`: the array indices in
      ascending numeric order, then the other keys in creation order (the
      OrdinaryOwnPropertyKeys operation of ECMA-262, section 10.1.11.1 of the 2023
      edition). */
  function PropertyOrder(order: seq<string>): (r: seq<string>)
    ensures |r| == |order| && multiset(r) == multiset(order)
  {
    SplitKeys(order);
    var r := SortBy(ArrayIndexKeys(order), IndexNumber) + OtherKeys(order);
    assert |r| == |multiset(r)| == |multiset(order)| == |order|;
    r
  }

  /** The property order lists each created key, as often as it was created. */
  lemma PropertyOrderMembers(order: seq<string>)
    ensures Distinct(order) ==> Distinct(PropertyOrder(order))
    ensures forall k :: k in PropertyOrder(order) <==> k in order
  {
    var r := PropertyOrder(order);
    forall k ensures k in r <==> k in order {
      assert k in r <==> k in multiset(r);
      assert k in order <==> k in multiset(order);
    }
  }

  /** Every array index comes before every other key, the array indices in ascending
      value. */
  lemma PropertyOrderIndicesFirst(order: seq<string>)
    ensures forall i, j :: 0 <= i < j < |PropertyOrder(order)| && IsArrayIndex(PropertyOrder(order)[j]) ==>
      IsArrayIndex(PropertyOrder(order)[i]) &&
      DecimalValue(PropertyOrder(order)[i]) <= DecimalValue(PropertyOrder(order)[j])
  {
    var r := PropertyOrder(order);
    var a := SortBy(ArrayIndexKeys(order), IndexNumber);
    var o := OtherKeys(order);
    assert r == a + o;
    SortBySorted(ArrayIndexKeys(order), IndexNumber);
    forall k | k in a ensures IsArrayIndex(k) {
      assert k in multiset(a);
    }
    forall i, j | 0 <= i < j < |r| && IsArrayIndex(r[j])
      ensures IsArrayIndex(r[i]) && DecimalValue(r[i]) <= DecimalValue(r[j])
    {
      assert r[i] == a[i] && r[j] == a[j] && r[i] in a && r[j] in a;
      assert IndexNumber(a[i]) <= IndexNumber(a[j]);
    }
  }

  /** Keys that are not array indices keep their creation order. */
  lemma PropertyOrderKeepsOthers(order: seq<string>)
    ensures forall i, j :: 0 <= i < j < |order| && !IsArrayIndex(order[i]) && !IsArrayIndex(order[j]) ==>
      exists p, q ::
        0 <= p < q < |PropertyOrder(order)| && PropertyOrder(order)[p] == order[i] && PropertyOrder(order)[q] == order[j]
  {
    var r := PropertyOrder(order);
    var a := SortBy(ArrayIndexKeys(order), IndexNumber);
    var o := OtherKeys(order);
    assert r == a + o;
    forall i, j | 0 <= i < j < |order| && !IsArrayIndex(order[i]) && !IsArrayIndex(order[j])
      ensures exists p, q :: 0 <= p < q < |r| && r[p] == order[i] && r[q] == order[j]
    {
      OtherKeysKeepOrder(order, i, j);
      var p, q :| 0 <= p < q < |o| && o[p] == order[i] && o[q] == order[j];
      assert r[|a| + p] == order[i] && r[|a| + q] == order[j];
    }
  }

  /** The names in `embeddings.json` after a generation: each stored name exactly once,
      the array-index names first in ascending value, the others in the order of their
      first successful file. */
  lemma WrittenOrder(files: seq<FileInput<Outputs>>)
    ensures Distinct(PropertyOrder(InsertionOrder(files)))
    ensures forall k :: k in PropertyOrder(InsertionOrder(files)) <==>
      exists i :: 0 <= i < |files| && StoredAs(files, i, k)
  {
    InsertionOrderKeys(files);
    PropertyOrderMembers(InsertionOrder(files));
    forall k ensures k in Accumulate(files) <==> exists i :: 0 <= i < |files| && StoredAs(files, i, k) {
      AccumulateKeys(files, k);
    }
  }

  /** The entries of `m` listed in the order of `keys`. */
  function EntriesIn(m: map<string, seq<real>>, keys: seq<string>): (r: seq<(string, seq<real>)>)
    requires forall k :: k in keys ==> k in m
    ensures |r| == |keys|
    ensures forall i :: 0 <= i < |r| ==> r[i].0 == keys[i] && r[i].0 in m && r[i].1 == m[keys[i]]
  {
    seq(|keys|, i requires 0 <= i < |keys| => (keys[i], m[keys[i]]))
  }

  /** Listed in an order of exactly its keys, every key of `m` has an entry. */
  lemma EntriesCover(m: map<string, seq<real>>, keys: seq<string>)
    requires forall k :: k in keys <==> k in m
    ensures forall k :: k in m <==> exists i :: 0 <= i < |EntriesIn(m, keys)| && EntriesIn(m, keys)[i].0 == k
  {
    var r := EntriesIn(m, keys);
    forall k | k in m
      ensures exists i :: 0 <= i < |r| && r[i].0 == k
    {
      var i :| 0 <= i < |keys| && keys[i] == k;
      assert r[i].0 == k;
    }
  }

  /** The component's state: the selected files, the embeddings shown and downloadable,
      the processing flag and the progress counter. */
  class ConvertJsonComponent {
    var files: seq<FileInput<Outputs>>
    var embeddings: map<string, seq<real>>
    /** The creation order of the keys of `embeddings`, which the object keeps. */
    var keyOrder: seq<string>
    var processing: bool
    var progress: Progress

    /** `keyOrder` lists each key of `embeddings` once. */
    ghost predicate Valid()
      reads this
    {
      Distinct(keyOrder) && forall k :: k in keyOrder <==> k in embeddings
    }

    constructor()
      ensures files == [] && embeddings == map[] && keyOrder == [] && !processing && progress == Progress(0, 0)
      ensures Valid()
    {
      files := [];
      embeddings := map[];
      keyOrder := [];
      processing := false;
      progress := Progress(0, 0);
    }

    /** `handleFileSelect`: a new selection clears the embeddings and resets progress. */
    method HandleFileSelect(selected: seq<FileInput<Outputs>>)
      modifies this
      ensures files == selected && embeddings == map[] && keyOrder == [] && progress == Progress(0, |selected|)
      ensures processing == old(processing)
      ensures Valid()
    {
      files := selected;
      embeddings := map[];
      keyOrder := [];
      progress := Progress(0, |selected|);
    }

    /** `generateAllEmbeddings`: `sessionReady` says whether a model session exists. */
    method GenerateAllEmbeddings(sessionReady: bool)
      requires Valid()
      modifies this
      ensures files == old(files)
      ensures !sessionReady || |files| == 0 ==>
        embeddings == old(embeddings) && keyOrder == old(keyOrder) &&
        progress == old(progress) && processing == old(processing)
      ensures sessionReady && |files| > 0 ==>
        embeddings == Accumulate(files) && keyOrder == InsertionOrder(files) &&
        progress == Progress(|files|, |files|) && !processing
      ensures Valid()
    {
      if !sessionReady || |files| == 0 {
        return;
      }
      processing := true;
      embeddings := map[];
      keyOrder := [];
      var fs := files;
      var newEmbeddings: map<string, seq<real>> := map[];
      var created: seq<string> := [];
      var i := 0;
      while i < |fs|
        invariant 0 <= i <= |fs| && fs == files
        invariant newEmbeddings == Accumulate(fs[..i]) && embeddings == newEmbeddings
        invariant created == InsertionOrder(fs[..i]) && keyOrder == created
        invariant i > 0 ==> progress == Progress(i, |fs|)
      {
        var file := fs[i];
        progress := Progress(i + 1, |fs|);
        GenerateStep(fs, i);
        var result := GenerateSingleEmbedding(file);
        if result.Ok? {
          if result.value.name !in newEmbeddings {
            created := created + [result.value.name];
          }
          newEmbeddings := newEmbeddings[result.value.name := result.value.embedding];
          embeddings := newEmbeddings;
          keyOrder := created;
        }
        i := i + 1;
      }
      assert fs[..i] == fs;
      InsertionOrderKeys(fs);
      processing := false;
    }

    /** `downloadEmbeddings`: the entries `JSON.stringify` writes, in the order it writes
        them, or nothing when the object is empty. */
    method DownloadEmbeddings() returns (json: Option<seq<(string, seq<real>)>>)
      requires Valid()
      ensures json.None? <==> embeddings == map[]
      ensures json.Some? ==>
        |json.value| == |keyOrder| &&
        forall i :: 0 <= i < |json.value| ==>
          json.value[i].0 == PropertyOrder(keyOrder)[i] &&
          json.value[i].0 in embeddings && json.value[i].1 == embeddings[json.value[i].0]
      ensures json.Some? ==>
        forall k :: k in embeddings <==> exists i :: 0 <= i < |json.value| && json.value[i].0 == k
    {
      if |embeddings.Keys| == 0 {
        assert embeddings == map[];
        return None;
      }
      PropertyOrderMembers(keyOrder);
      var entries := EntriesIn(embeddings, PropertyOrder(keyOrder));
      EntriesCover(embeddings, PropertyOrder(keyOrder));
      json := Some(entries);
    }
  }

  /** `generateSingleEmbedding` for one file. */
  method GenerateSingleEmbedding(file: FileInput<Outputs>) returns (result: Attempt<Named>)
    ensures result == SingleEmbedding(file)
  {
    if file.analysis.Threw? {
      return Threw;
    }
    var embedding := ProbeOutputs(file.analysis.value);
    if embedding.Threw? {
      return Threw;
    }
    var characterName := CharacterName(file.name);
    result := Ok(Named(characterName, embedding.value));
  }

  /** After generation there is something to download exactly when at least one file
      succeeded. */
  lemma DownloadAfterGenerate(files: seq<FileInput<Outputs>>)
    ensures Accumulate(files) != map[] <==> exists i :: 0 <= i < |files| && SingleEmbedding(files[i]).Ok?
  {
    AccumulateEmptyIff(files);
  }
}
