/** The cell-slicing tool: every selected screenshot is cut into the cells of one of the
    rectangle tables, and each file gets one entry, with its cells or with its error. */
module ImageSlice {
  import opened Wrappers
  import opened SliceCells

  /** A selected file: its name and the picture `loadImage` yields for it, or `Threw`
      when loading fails. */
  datatype SliceFile<I> = SliceFile(name: string, image: Attempt<I>)

  /** The `error` property of an entry: absent after a successful slice; `undefined` when
      loading failed, since `loadImage` rejects with the image's error event, which has
      no `message`; the message of the `Error` thrown for an unknown slice type. */
  datatype ErrorField = Absent | Undefined | Message(text: string)

  /** `new Error(`Unknown slice type: ${type}`).message`. */
  function UnknownTypeMessage(sliceType: string): string {
    "Unknown slice type: " + sliceType
  }

  /** `error && ...` in the rendering: only a message is shown. */
  predicate ShowsError(e: Entry) {
    e.error.Message? && |e.error.text| > 0
  }

  /** `{ index: idx, url, ...r }`: the spread of `r` comes last, so its `index` replaces
      the position `idx`. */
  datatype Cell = Cell(index: int, url: string, x: int, y: int, w: int, h: int)

  /** `{ fileName, cells }` or `{ fileName, error: err.message, cells: [] }`. */
  datatype Entry = Entry(fileName: string, error: ErrorField, cells: seq<Cell>)

  /** The tables of `sliceClashV2Cells('slice')` and `sliceClashV2SideSkills()`, whose
      definitions are not part of this model. */
  datatype V2Tables = V2Tables(cells: seq<Rect>, sideSkills: seq<Rect>)

  predicate KnownType(sliceType: string) {
    sliceType == "clash" || sliceType == "frontier" || sliceType == "clashV2" || sliceType == "clashV2SideSkills"
  }

  /** The `switch (type)`: the table for a known slice type; `None` is the default
      branch, which throws. */
  function RectsFor(sliceType: string, v2: V2Tables): (r: Option<seq<Rect>>)
    ensures r.Some? <==> KnownType(sliceType)
    ensures sliceType == "clash" ==> r == Some(SliceClashCells())
    ensures sliceType == "frontier" ==> r == Some(SliceFrontierCells())
    ensures sliceType == "clashV2" ==> r == Some(v2.cells)
    ensures sliceType == "clashV2SideSkills" ==> r == Some(v2.sideSkills)
  {
    if sliceType == "clash" then Some(SliceClashCells())
    else if sliceType == "frontier" then Some(SliceFrontierCells())
    else if sliceType == "clashV2" then Some(v2.cells)
    else if sliceType == "clashV2SideSkills" then Some(v2.sideSkills)
    else None
  }

  /** `rects.map(...)`: `crop(img, r)` stands for the data URL of the region `r` of the
      picture drawn onto an off-screen canvas. */
  function Cells<I>(img: I, rects: seq<Rect>, crop: (I, Rect) -> string): (cs: seq<Cell>)
    ensures |cs| == |rects|
    ensures forall i :: 0 <= i < |rects| ==>
      cs[i].index == rects[i].index && cs[i].x == rects[i].x && cs[i].y == rects[i].y &&
      cs[i].w == rects[i].w && cs[i].h == rects[i].h && cs[i].url == crop(img, rects[i])
  {
    seq(|rects|, i requires 0 <= i < |rects| =>
      Cell(rects[i].index, crop(img, rects[i]), rects[i].x, rects[i].y, rects[i].w, rects[i].h))
  }

  /** The entry one iteration of the loop pushes for a file. Loading happens before the
      dispatch, so a file that fails to load reports that failure whatever the type. */
  function FileEntry<I>(f: SliceFile<I>, sliceType: string, v2: V2Tables, crop: (I, Rect) -> string): Entry {
    match f.image
    case Threw => Entry(f.name, Undefined, [])
    case Ok(img) =>
      match RectsFor(sliceType, v2)
      case None => Entry(f.name, Message(UnknownTypeMessage(sliceType)), [])
      case Some(rects) => Entry(f.name, Absent, Cells(img, rects, crop))
  }

  /** The `results` list the loop builds: one entry per file, in input order. */
  function Entries<I>(files: seq<SliceFile<I>>, sliceType: string, v2: V2Tables, crop: (I, Rect) -> string): (es: seq<Entry>)
    ensures |es| == |files|
    ensures forall i :: 0 <= i < |files| ==> es[i] == FileEntry(files[i], sliceType, v2, crop)
  {
    seq(|files|, i requires 0 <= i < |files| => FileEntry(files[i], sliceType, v2, crop))
  }

  /** The component's state: the entries shown and the loading flag. */
  class ImageSliceComponent {
    var allCells: seq<Entry>
    var loading: bool

    constructor()
      ensures allCells == [] && !loading
    {
      allCells := [];
      loading := false;
    }

    /** `handleImageSlice(e, type)` for the files of `e`. An empty selection returns
        before anything is touched; otherwise the entries replace the shown ones at the
        end and loading is switched off. */
    method HandleImageSlice<I>(files: seq<SliceFile<I>>, sliceType: string, v2: V2Tables, crop: (I, Rect) -> string)
      modifies this
      ensures |files| == 0 ==> allCells == old(allCells) && loading == old(loading)
      ensures |files| > 0 ==> allCells == Entries(files, sliceType, v2, crop) && !loading
    {
      if |files| == 0 {
        return;
      }
      loading := true;
      var results: seq<Entry> := [];
      var i := 0;
      while i < |files|
        invariant 0 <= i <= |files|
        invariant results == Entries(files[..i], sliceType, v2, crop)
      {
        var entry := SliceOne(files[i], sliceType, v2, crop);
        assert files[..i + 1] == files[..i] + [files[i]];
        results := results + [entry];
        i := i + 1;
      }
      assert files[..i] == files;
      allCells := results;
      loading := false;
    }
  }

  /** The body of the loop for one file: the `try` that slices it, or the `catch` that
      records the error. */
  method SliceOne<I>(file: SliceFile<I>, sliceType: string, v2: V2Tables, crop: (I, Rect) -> string)
    returns (entry: Entry)
    ensures entry == FileEntry(file, sliceType, v2, crop)
  {
    if file.image.Threw? {
      return Entry(file.name, Undefined, []);
    }
    var img := file.image.value;
    var rects := RectsFor(sliceType, v2);
    if rects.None? {
      return Entry(file.name, Message(UnknownTypeMessage(sliceType)), []);
    }
    var cells: seq<Cell> := [];
    var idx := 0;
    while idx < |rects.value|
      invariant 0 <= idx <= |rects.value|
      invariant cells == Cells(img, rects.value[..idx], crop)
    {
      var r := rects.value[idx];
      cells := cells + [Cell(r.index, crop(img, r), r.x, r.y, r.w, r.h)];
      idx := idx + 1;
    }
    assert rects.value[..idx] == rects.value;
    entry := Entry(file.name, Absent, cells);
  }

  /** Each entry names its file. A file that fails to load gets an `undefined` error,
      so no error text is shown for it; a loaded file gets the unknown-type message
      exactly when the type is unknown, and that message is always shown; every entry
      with an error property has no cells. */
  lemma EntriesSpec<I>(files: seq<SliceFile<I>>, sliceType: string, v2: V2Tables, crop: (I, Rect) -> string)
    ensures forall i :: 0 <= i < |files| ==>
      var e := Entries(files, sliceType, v2, crop)[i];
      e.fileName == files[i].name &&
      (e.error.Undefined? <==> files[i].image.Threw?) &&
      (e.error.Message? <==> files[i].image.Ok? && !KnownType(sliceType)) &&
      (e.error.Message? ==> e.error.text == UnknownTypeMessage(sliceType)) &&
      (ShowsError(e) <==> files[i].image.Ok? && !KnownType(sliceType)) &&
      (!e.error.Absent? ==> e.cells == [])
  {
  }

  /** A file that loads under a known type gets one cell per rectangle of its table,
      with the rectangle's own index and geometry. */
  lemma LoadedFileCells<I>(f: SliceFile<I>, sliceType: string, v2: V2Tables, crop: (I, Rect) -> string)
    requires f.image.Ok? && KnownType(sliceType)
    ensures var e := FileEntry(f, sliceType, v2, crop);
      var rects := RectsFor(sliceType, v2).value;
      e.error.Absent? && |e.cells| == |rects| &&
      forall i :: 0 <= i < |rects| ==>
        e.cells[i].index == rects[i].index && e.cells[i].x == rects[i].x && e.cells[i].y == rects[i].y &&
        e.cells[i].w == rects[i].w && e.cells[i].h == rects[i].h
  {
  }

  /** Clash cells are numbered 1 to 9 in order, one more than their position. */
  lemma ClashCellIndices<I>(f: SliceFile<I>, v2: V2Tables, crop: (I, Rect) -> string)
    requires f.image.Ok?
    ensures var e := FileEntry(f, "clash", v2, crop);
      |e.cells| == 9 && forall i :: 0 <= i < 9 ==> e.cells[i].index == i + 1
  {
    ClashTable();
  }

  /** Frontier cells carry the table's indices 1, 2, 3, 4, 5, 6, 6, 7, 8, so the seventh
      cell repeats index 6 instead of getting its position. */
  lemma FrontierCellIndices<I>(f: SliceFile<I>, v2: V2Tables, crop: (I, Rect) -> string)
    requires f.image.Ok?
    ensures var e := FileEntry(f, "frontier", v2, crop);
      |e.cells| == 9 &&
      seq(9, i requires 0 <= i < 9 => e.cells[i].index) == [1, 2, 3, 4, 5, 6, 6, 7, 8]
  {
    FrontierTable();
    var e := FileEntry(f, "frontier", v2, crop);
    assert forall i :: 0 <= i < 9 ==> e.cells[i].index == SliceFrontierCells()[i].index;
  }

  /** With an unknown type no file gets cells: each loaded file gets the message naming
      the type, and each file that fails to load the `undefined` error. */
  lemma UnknownTypeAllErrors<I>(files: seq<SliceFile<I>>, sliceType: string, v2: V2Tables, crop: (I, Rect) -> string)
    requires !KnownType(sliceType)
    ensures forall i :: 0 <= i < |files| ==>
      var e := Entries(files, sliceType, v2, crop)[i];
      e.cells == [] &&
      (files[i].image.Ok? ==> e.error == Message(UnknownTypeMessage(sliceType)) && ShowsError(e)) &&
      (files[i].image.Threw? ==> e.error == Undefined && !ShowsError(e))
  {
  }
}
