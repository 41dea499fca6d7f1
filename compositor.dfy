/**
 * combineImage: every regular file of the to-be-combined folder becomes one
 * tile of a white canvas as wide as all tiles together and as tall as the
 * tallest one; tiles sit side by side in listing order, each centred
 * vertically.  The canvas is written to the upload folder under the given
 * name and the tiles are then moved into the already-combined folder.
 */
module Compositor {
  import opened Wrappers
  import opened FileSystem
  import opened Tools

  /** A tile whose metadata was read: its file, what the file held, and its size. */
  datatype TileInfo = TileInfo(path: Path, image: Option<Blob>, width: nat, height: nat)

  datatype CombineError =
    | ListingFailed
    | InsufficientTiles(count: nat)
    | MetadataFailed(path: Path)
    | MissingDimensions(path: Path)
    | ZeroCanvas
    | RenderFailed(output: Path)
    | RenameFailed(path: Path)

  /** What a combine run leaves behind: how it ended and the disk after it. */
  datatype Step = Step(outcome: Outcome<CombineError>, fs: Fs)

  /** The sum of the tile widths (totalWidth). */
  function TotalWidth(tiles: seq<TileInfo>): nat
  {
    if tiles == [] then 0 else TotalWidth(tiles[..|tiles| - 1]) + tiles[|tiles| - 1].width
  }

  /** maxHeight as the forEach loop leaves it: raised to every taller tile, starting from 0. */
  function MaxHeight(tiles: seq<TileInfo>): nat
  {
    if tiles == [] then 0
    else
      var m := MaxHeight(tiles[..|tiles| - 1]);
      var h := tiles[|tiles| - 1].height;
      if h > m then h else m
  }

  /** Math.round(d / 2): the integer nearest to d / 2, halves rounded up. */
  function RoundHalf(d: int): (r: int)
    ensures 2 * r - 1 <= d < 2 * r + 1
  {
    (d + 1) / 2
  }

  /** The composite overlays: tile k at the width of the tiles before it, centred in maxHeight. */
  function Overlays(tiles: seq<TileInfo>, maxHeight: nat): (r: seq<Placed>)
    ensures |r| == |tiles|
  {
    seq(|tiles|, k requires 0 <= k < |tiles| =>
      Placed(tiles[k].path, tiles[k].image, TotalWidth(tiles[..k]), RoundHalf(maxHeight - tiles[k].height)))
  }

  lemma PrefixOfPrefix<T>(s: seq<T>, i: nat)
    requires i < |s|
    ensures s[..i + 1][..i] == s[..i] && s[..i + 1][i] == s[i]
  {
  }

  /** The first forEach: maxHeight and totalWidth over all tiles. */
  method Measure(tiles: seq<TileInfo>) returns (maxHeight: nat, totalWidth: nat)
    ensures maxHeight == MaxHeight(tiles) && totalWidth == TotalWidth(tiles)
  {
    maxHeight, totalWidth := 0, 0;
    for i := 0 to |tiles|
      invariant maxHeight == MaxHeight(tiles[..i])
      invariant totalWidth == TotalWidth(tiles[..i])
    {
      PrefixOfPrefix(tiles, i);
      var info := tiles[i];
      if info.height > 0 && info.height > maxHeight {
        maxHeight := info.height;
      }
      totalWidth := totalWidth + info.width;
    }
    assert tiles[..|tiles|] == tiles;
  }

  /** The second forEach: one overlay per tile, at the running left offset. */
  method Layout(tiles: seq<TileInfo>, maxHeight: nat) returns (compositeOptions: seq<Placed>)
    ensures compositeOptions == Overlays(tiles, maxHeight)
  {
    compositeOptions := [];
    var currentLeftOffset := 0;
    for i := 0 to |tiles|
      invariant |compositeOptions| == i
      invariant currentLeftOffset == TotalWidth(tiles[..i])
      invariant forall k :: 0 <= k < i ==> compositeOptions[k] == Overlays(tiles, maxHeight)[k]
    {
      PrefixOfPrefix(tiles, i);
      var topOffset := RoundHalf(maxHeight - tiles[i].height);
      compositeOptions := compositeOptions + [Placed(tiles[i].path, tiles[i].image, currentLeftOffset, topOffset)];
      currentLeftOffset := currentLeftOffset + tiles[i].width;
    }
  }

  /** sharp(p).metadata(), rejected unless both width and height are truthy. */
  function ReadTile(tools: Tools, fs: Fs, p: Path): (r: Result<TileInfo, CombineError>)
    ensures r.Success? ==> r.value.path == p && r.value.image == Lookup(fs, p)
    ensures r.Success? ==> r.value.width > 0 && r.value.height > 0
    ensures tools.metadata(Lookup(fs, p)).MetadataRejected? ==> r == Failure(MetadataFailed(p))
    ensures var m := tools.metadata(Lookup(fs, p));
      m.Metadata? ==>
        && (r.Success? <==> m.width.Some? && m.width.value != 0 && m.height.Some? && m.height.value != 0)
        && (r.Success? ==> Some(r.value.width) == m.width && Some(r.value.height) == m.height)
        && (r.Failure? ==> r.error == MissingDimensions(p))
  {
    match tools.metadata(Lookup(fs, p))
    case MetadataRejected(_) => Failure(MetadataFailed(p))
    case Metadata(width, height) =>
      if width.None? || width.value == 0 || height.None? || height.value == 0 then Failure(MissingDimensions(p))
      else Success(TileInfo(p, Lookup(fs, p), width.value, height.value))
  }

  /** Promise.all over the metadata reads, taken in listing order: the first rejection wins. */
  function ReadTiles(tools: Tools, fs: Fs, paths: seq<Path>): (r: Result<seq<TileInfo>, CombineError>)
    ensures r.Failure? ==> r.error.MetadataFailed? || r.error.MissingDimensions?
    ensures r.Success? ==> |r.value| == |paths|
    ensures r.Success? ==> forall k :: 0 <= k < |paths| ==>
      r.value[k].path == paths[k] && r.value[k].image == Lookup(fs, paths[k]) &&
      r.value[k].width > 0 && r.value[k].height > 0
  {
    if paths == [] then Success([])
    else
      match ReadTile(tools, fs, paths[0])
      case Failure(e) => Failure(e)
      case Success(tile) =>
        match ReadTiles(tools, fs, paths[1..])
        case Failure(e) => Failure(e)
        case Success(rest) => Success([tile] + rest)
  }

  /** A tile that cannot be measured makes the whole read fail. */
  lemma {:induction false} ReadTilesFailOnBadTile(tools: Tools, fs: Fs, paths: seq<Path>, k: nat)
    requires k < |paths| && ReadTile(tools, fs, paths[k]).Failure?
    ensures ReadTiles(tools, fs, paths).Failure?
  {
    if k > 0 && ReadTile(tools, fs, paths[0]).Success? {
      assert paths[1..][k - 1] == paths[k];
      ReadTilesFailOnBadTile(tools, fs, paths[1..], k - 1);
    }
  }

  /** The read fails with the error of the first tile that cannot be measured. */
  lemma {:induction false} ReadTilesFirstFailure(tools: Tools, fs: Fs, paths: seq<Path>, k: nat)
    requires k < |paths| && ReadTile(tools, fs, paths[k]).Failure?
    requires forall j :: 0 <= j < k ==> ReadTile(tools, fs, paths[j]).Success?
    ensures ReadTiles(tools, fs, paths) == Failure(ReadTile(tools, fs, paths[k]).error)
  {
    if k > 0 {
      assert ReadTile(tools, fs, paths[0]).Success?;
      assert paths[1..][k - 1] == paths[k];
      forall j | 0 <= j < k - 1
        ensures ReadTile(tools, fs, paths[1..][j]).Success?
      {
        assert paths[1..][j] == paths[j + 1];
      }
      ReadTilesFirstFailure(tools, fs, paths[1..], k - 1);
    }
  }

  /** Where a tile is moved after rendering: the already-combined folder, same base name. */
  function Archived(p: Path): Path
  {
    Path(AlreadyCombined, p.name)
  }

  /** The rename loop from path k on; a failing rename stops it with the earlier moves done. */
  function ArchiveFrom(fs: Fs, paths: seq<Path>): (r: Step)
    ensures r.outcome.Fail? ==> r.outcome.error.RenameFailed? && r.outcome.error.path in paths
    ensures r.fs.Keys == fs.Keys
    decreases |paths|
  {
    if paths == [] then Step(Pass, fs)
    else
      match Rename(fs, paths[0], Archived(paths[0]))
      case None => Step(Fail(RenameFailed(paths[0])), fs)
      case Some(next) => ArchiveFrom(next, paths[1..])
  }

  lemma SuffixStep<T>(s: seq<T>, i: nat)
    requires i < |s|
    ensures s[i..][0] == s[i] && s[i..][1..] == s[i + 1..]
  {
  }

  /** The rename loop of combineImage. */
  method Archive(fs: Fs, fileLists: seq<Path>) returns (r: Step)
    ensures r == ArchiveFrom(fs, fileLists)
  {
    var current := fs;
    for i := 0 to |fileLists|
      invariant ArchiveFrom(fs, fileLists) == ArchiveFrom(current, fileLists[i..])
    {
      SuffixStep(fileLists, i);
      var file := fileLists[i];
      var moved := Rename(current, file, Archived(file));
      if moved.None? {
        return Step(Fail(RenameFailed(file)), current);
      }
      current := moved.value;
    }
    return Step(Pass, current);
  }

  /** The output of combineImage(inputFileName). */
  function CombinedOutput(inputFileName: string): Path
  {
    Path(ToBeUploaded, inputFileName + ".jpg")
  }

  /** The white canvas with every tile composited onto it. */
  function CanvasOf(tiles: seq<TileInfo>): Blob
  {
    Composite(TotalWidth(tiles), MaxHeight(tiles), Overlays(tiles, MaxHeight(tiles)))
  }

  /** combineImage(inputFileName) over the to-be-combined folder, as a function of the tools and the disk. */
  function Combination(tools: Tools, fs: Fs, inputFileName: string): Step
  {
    var output := CombinedOutput(inputFileName);
    match ListedFiles(fs, ToBeCombined, tools.listing)
    case None => Step(Fail(ListingFailed), fs)
    case Some(fileLists) =>
      if |fileLists| < 2 then Step(Fail(InsufficientTiles(|fileLists|)), fs)
      else
        match ReadTiles(tools, fs, fileLists)
        case Failure(e) => Step(Fail(e), fs)
        case Success(tiles) =>
          if MaxHeight(tiles) == 0 || TotalWidth(tiles) == 0 then Step(Fail(ZeroCanvas), fs)
          else
            var canvas := CanvasOf(tiles);
            if !tools.render(canvas) then Step(Fail(RenderFailed(output)), fs)
            else
              match Write(fs, output, canvas)
              case None => Step(Fail(RenderFailed(output)), fs)
              case Some(rendered) => ArchiveFrom(rendered, fileLists)
  }

  /** combineImage, step by step as the source runs it. */
  method CombineImage(tools: Tools, fs: Fs, inputFileName: string) returns (r: Step)
    ensures r == Combination(tools, fs, inputFileName)
  {
    var listed := GetFilesInFolder(fs, ToBeCombined, tools.listing);
    var outputFilePath := CombinedOutput(inputFileName);
    if listed.None? {
      return Step(Fail(ListingFailed), fs);
    }
    var fileLists := listed.value;
    if |fileLists| < 2 {
      return Step(Fail(InsufficientTiles(|fileLists|)), fs);
    }
    var imageInfo := ReadTiles(tools, fs, fileLists);
    if imageInfo.Failure? {
      return Step(Fail(imageInfo.error), fs);
    }
    var maxHeight, totalWidth := Measure(imageInfo.value);
    if maxHeight == 0 || totalWidth == 0 {
      return Step(Fail(ZeroCanvas), fs);
    }
    var compositeOptions := Layout(imageInfo.value, maxHeight);
    var canvas := Composite(totalWidth, maxHeight, compositeOptions);
    if !tools.render(canvas) {
      return Step(Fail(RenderFailed(outputFilePath)), fs);
    }
    var rendered := Write(fs, outputFilePath, canvas);
    if rendered.None? {
      return Step(Fail(RenderFailed(outputFilePath)), fs);
    }
    r := Archive(rendered.value, fileLists);
  }

  // ---- Layout properties ----

  /** maxHeight is the largest tile height: no tile is taller, and some tile reaches it. */
  lemma {:induction false} MaxHeightIsMax(tiles: seq<TileInfo>)
    ensures forall k :: 0 <= k < |tiles| ==> tiles[k].height <= MaxHeight(tiles)
    ensures tiles != [] ==> exists k :: 0 <= k < |tiles| && tiles[k].height == MaxHeight(tiles)
  {
    if tiles != [] {
      var init := tiles[..|tiles| - 1];
      MaxHeightIsMax(init);
      assert forall k :: 0 <= k < |init| ==> init[k] == tiles[k];
      if MaxHeight(tiles) == tiles[|tiles| - 1].height {
        assert tiles[|tiles| - 1].height == MaxHeight(tiles);
      } else {
        assert MaxHeight(tiles) == MaxHeight(init);
        assert init != [];
        var k :| 0 <= k < |init| && init[k].height == MaxHeight(init);
        assert tiles[k].height == MaxHeight(tiles);
      }
    }
  }

  /** The width of a prefix grows by the next tile's width and never exceeds the total. */
  lemma {:induction false} TotalWidthOfPrefix(tiles: seq<TileInfo>, k: nat)
    requires k < |tiles|
    ensures TotalWidth(tiles[..k + 1]) == TotalWidth(tiles[..k]) + tiles[k].width
    ensures TotalWidth(tiles[..k + 1]) <= TotalWidth(tiles)
    decreases |tiles| - k
  {
    PrefixOfPrefix(tiles, k);
    if k + 1 < |tiles| {
      TotalWidthOfPrefix(tiles, k + 1);
    } else {
      assert tiles[..k + 1] == tiles;
    }
  }

  /** Overlay k, spelled out. */
  lemma OverlayAt(tiles: seq<TileInfo>, maxHeight: nat, k: nat)
    requires k < |tiles|
    ensures Overlays(tiles, maxHeight)[k].left == TotalWidth(tiles[..k])
    ensures Overlays(tiles, maxHeight)[k].top == RoundHalf(maxHeight - tiles[k].height)
  {
  }

  /** Every tile lies inside the totalWidth by maxHeight canvas. */
  lemma TilesWithinCanvas(tiles: seq<TileInfo>, k: nat)
    requires k < |tiles|
    ensures var o := Overlays(tiles, MaxHeight(tiles))[k];
      0 <= o.left && o.left + tiles[k].width <= TotalWidth(tiles) &&
      0 <= o.top && o.top + tiles[k].height <= MaxHeight(tiles)
  {
    MaxHeightIsMax(tiles);
    TotalWidthOfPrefix(tiles, k);
    OverlayAt(tiles, MaxHeight(tiles), k);
  }

  /** Tiles abut left to right: the first is at 0 and each next one starts where the previous one ends. */
  lemma TilesAbut(tiles: seq<TileInfo>, maxHeight: nat, k: nat)
    requires k + 1 < |tiles|
    ensures Overlays(tiles, maxHeight)[0].left == 0
    ensures Overlays(tiles, maxHeight)[k + 1].left == Overlays(tiles, maxHeight)[k].left + tiles[k].width
  {
    TotalWidthOfPrefix(tiles, k);
    OverlayAt(tiles, maxHeight, 0);
    OverlayAt(tiles, maxHeight, k);
    OverlayAt(tiles, maxHeight, k + 1);
  }

  /** Each tile is centred: the space above it is the space below it, or one pixel more. */
  lemma TilesCentred(tiles: seq<TileInfo>, k: nat)
    requires k < |tiles|
    ensures var top := Overlays(tiles, MaxHeight(tiles))[k].top;
      var below := MaxHeight(tiles) - tiles[k].height - top;
      top == below || top == below + 1
  {
    OverlayAt(tiles, MaxHeight(tiles), k);
  }

  /** Tiles that passed the metadata check make a canvas that is never empty, so that rejection never fires. */
  lemma {:induction false} ReadTilesMakeCanvas(tiles: seq<TileInfo>)
    requires tiles != [] && forall k :: 0 <= k < |tiles| ==> tiles[k].width > 0 && tiles[k].height > 0
    ensures MaxHeight(tiles) > 0 && TotalWidth(tiles) > 0
  {
    MaxHeightIsMax(tiles);
    TotalWidthOfPrefix(tiles, |tiles| - 1);
  }

  lemma NoZeroCanvas(tools: Tools, fs: Fs, inputFileName: string)
    ensures Combination(tools, fs, inputFileName).outcome != Fail(ZeroCanvas)
  {
    var listed := ListedFiles(fs, ToBeCombined, tools.listing);
    if listed.Some? && |listed.value| >= 2 {
      var tiles := ReadTiles(tools, fs, listed.value);
      if tiles.Success? {
        ReadTilesMakeCanvas(tiles.value);
      }
    }
  }

  // ---- Archival properties ----

  /** The tile names are pairwise different, as readdir gives them. */
  predicate DistinctNames(paths: seq<Path>)
  {
    forall j, k :: 0 <= j < k < |paths| ==> paths[j].name != paths[k].name
  }

  /** The rename loop touches only its sources and their archived copies. */
  lemma {:induction false} ArchiveFrame(fs: Fs, paths: seq<Path>, q: Path)
    requires forall k :: 0 <= k < |paths| ==> q != paths[k] && q != Archived(paths[k])
    ensures Lookup(ArchiveFrom(fs, paths).fs, q) == Lookup(fs, q)
    decreases |paths|
  {
    if paths != [] {
      var moved := Rename(fs, paths[0], Archived(paths[0]));
      if moved.Some? {
        ArchiveFrame(moved.value, paths[1..], q);
      }
    }
  }

  /** After a complete rename loop each tile has left its folder and sits, unchanged, in the archive. */
  lemma {:induction false} ArchiveMoves(fs: Fs, paths: seq<Path>, k: nat)
    requires k < |paths|
    requires forall j :: 0 <= j < |paths| ==> paths[j].folder == ToBeCombined
    requires DistinctNames(paths)
    requires ArchiveFrom(fs, paths).outcome.Pass?
    ensures Lookup(ArchiveFrom(fs, paths).fs, paths[k]) == None
    ensures Lookup(ArchiveFrom(fs, paths).fs, Archived(paths[k])) == Lookup(fs, paths[k])
    decreases |paths|
  {
    var next := Rename(fs, paths[0], Archived(paths[0])).value;
    var rest := paths[1..];
    assert ArchiveFrom(fs, paths) == ArchiveFrom(next, rest);
    if k == 0 {
      ArchiveFrame(next, rest, paths[0]);
      ArchiveFrame(next, rest, Archived(paths[0]));
    } else {
      ArchiveMoves(next, rest, k - 1);
      assert rest[k - 1] == paths[k];
    }
  }

  /** A passing combine wrote the canvas of the listed tiles, in listing order, to the upload folder. */
  lemma CombineWritesCanvas(tools: Tools, fs: Fs, inputFileName: string)
    requires Combination(tools, fs, inputFileName).outcome.Pass?
    ensures ListedFiles(fs, ToBeCombined, tools.listing).Some?
    ensures var fileLists := ListedFiles(fs, ToBeCombined, tools.listing).value;
      && |fileLists| >= 2
      && ReadTiles(tools, fs, fileLists).Success?
      && Lookup(Combination(tools, fs, inputFileName).fs, CombinedOutput(inputFileName))
         == Some(CanvasOf(ReadTiles(tools, fs, fileLists).value))
  {
    var fileLists := ListedFiles(fs, ToBeCombined, tools.listing).value;
    var tiles := ReadTiles(tools, fs, fileLists).value;
    var rendered := Write(fs, CombinedOutput(inputFileName), CanvasOf(tiles)).value;
    forall k | 0 <= k < |fileLists|
      ensures CombinedOutput(inputFileName) != fileLists[k] && CombinedOutput(inputFileName) != Archived(fileLists[k])
    {
      assert fileLists[k].folder == ToBeCombined;
    }
    ArchiveFrame(rendered, fileLists, CombinedOutput(inputFileName));
  }

  /** The canvas carries each tile's file and content, in order. */
  lemma CanvasTiles(tools: Tools, fs: Fs, paths: seq<Path>, k: nat)
    requires ReadTiles(tools, fs, paths).Success? && k < |paths|
    ensures var canvas := CanvasOf(ReadTiles(tools, fs, paths).value);
      |canvas.tiles| == |paths| && canvas.tiles[k].source == paths[k] && canvas.tiles[k].image == Lookup(fs, paths[k])
  {
  }

  /** With a faithful readdir, a passing combine has moved every listed tile into the archive unchanged. */
  lemma CombineArchivesTiles(tools: Tools, fs: Fs, inputFileName: string, k: nat)
    requires ToBeCombined in fs && Enumerates(tools.listing(fs[ToBeCombined]), fs[ToBeCombined])
    requires Combination(tools, fs, inputFileName).outcome.Pass?
    requires k < |ListedFiles(fs, ToBeCombined, tools.listing).value|
    ensures var tile := ListedFiles(fs, ToBeCombined, tools.listing).value[k];
      var after := Combination(tools, fs, inputFileName).fs;
      Lookup(after, tile) == None && Lookup(after, Archived(tile)) == Lookup(fs, tile)
  {
    var fileLists := ListedFiles(fs, ToBeCombined, tools.listing).value;
    ListedFilesFaithful(fs, ToBeCombined, tools.listing);
    var tiles := ReadTiles(tools, fs, fileLists).value;
    var output := CombinedOutput(inputFileName);
    var rendered := Write(fs, output, CanvasOf(tiles)).value;
    ArchiveMoves(rendered, fileLists, k);
    assert output != fileLists[k] && output != Archived(fileLists[k]);
  }

  /** Any rejection before the rename loop leaves the disk as it was. */
  lemma RejectionBeforeRenameWritesNothing(tools: Tools, fs: Fs, inputFileName: string)
    requires Combination(tools, fs, inputFileName).outcome.Fail?
    requires !Combination(tools, fs, inputFileName).outcome.error.RenameFailed?
    ensures Combination(tools, fs, inputFileName).fs == fs
  {
  }

  /**
   * A listed tile whose metadata is rejected or lacks a positive width or height
   * fails the combine with a metadata error, before anything is written.
   */
  lemma UnmeasurableTileRejected(tools: Tools, fs: Fs, inputFileName: string, k: nat)
    requires ListedFiles(fs, ToBeCombined, tools.listing).Some?
    requires var files := ListedFiles(fs, ToBeCombined, tools.listing).value;
      && 2 <= |files| && k < |files|
      && var m := tools.metadata(Lookup(fs, files[k]));
      (m.MetadataRejected? || m.width.None? || m.width.value == 0 || m.height.None? || m.height.value == 0)
    ensures var c := Combination(tools, fs, inputFileName);
      && c.fs == fs
      && c.outcome.Fail?
      && (c.outcome.error.MetadataFailed? || c.outcome.error.MissingDimensions?)
  {
    var files := ListedFiles(fs, ToBeCombined, tools.listing).value;
    ReadTilesFailOnBadTile(tools, fs, files, k);
  }

  /** With a faithful readdir, a folder with fewer than two regular files (subdirectories do not count) is rejected untouched. */
  lemma FewTilesRejected(tools: Tools, fs: Fs, inputFileName: string)
    requires ToBeCombined in fs && Enumerates(tools.listing(fs[ToBeCombined]), fs[ToBeCombined])
    requires forall m, n :: Lookup(fs, Path(ToBeCombined, m)).Some? && Lookup(fs, Path(ToBeCombined, n)).Some? ==> m == n
    ensures Combination(tools, fs, inputFileName).fs == fs
    ensures Combination(tools, fs, inputFileName).outcome.Fail?
    ensures Combination(tools, fs, inputFileName).outcome.error.InsufficientTiles?
  {
    var fileLists := ListedFiles(fs, ToBeCombined, tools.listing).value;
    ListedFilesFaithful(fs, ToBeCombined, tools.listing);
    if |fileLists| >= 2 {
      FirstTwoTiles(fs, fileLists);
      assert false;
    }
  }

  lemma FirstTwoTiles(fs: Fs, paths: seq<Path>)
    requires |paths| >= 2 && DistinctNames(paths)
    requires forall k :: 0 <= k < |paths| ==> paths[k].folder == ToBeCombined && Lookup(fs, paths[k]).Some?
    ensures paths[0].name != paths[1].name
    ensures Lookup(fs, Path(ToBeCombined, paths[0].name)).Some? && Lookup(fs, Path(ToBeCombined, paths[1].name)).Some?
  {
    assert paths[0] == Path(ToBeCombined, paths[0].name) && paths[1] == Path(ToBeCombined, paths[1].name);
  }

  /** With a faithful readdir, a passing combine leaves no regular file in the to-be-combined folder. */
  lemma NoTilesLeft(tools: Tools, fs: Fs, inputFileName: string, n: string)
    requires ToBeCombined in fs && Enumerates(tools.listing(fs[ToBeCombined]), fs[ToBeCombined])
    requires Combination(tools, fs, inputFileName).outcome.Pass?
    ensures Lookup(Combination(tools, fs, inputFileName).fs, Path(ToBeCombined, n)) == None
  {
    var q := Path(ToBeCombined, n);
    var fileLists := ListedFiles(fs, ToBeCombined, tools.listing).value;
    ListedFilesFaithful(fs, ToBeCombined, tools.listing);
    if k :| 0 <= k < |fileLists| && fileLists[k] == q {
      CombineArchivesTiles(tools, fs, inputFileName, k);
    } else {
      var tiles := ReadTiles(tools, fs, fileLists).value;
      var output := CombinedOutput(inputFileName);
      var rendered := Write(fs, output, CanvasOf(tiles)).value;
      ArchiveFrame(rendered, fileLists, q);
      assert Lookup(rendered, q) == Lookup(fs, q);
    }
  }

  /**
   * Running combine a second time over the same folder, right after one that
   * passed, finds no tiles and is rejected (the case of a multi-page PDF in a
   * row of several files, which is combined once inside the PDF conversion and
   * again at the end of the row).
   */
  lemma CombineTwice(tools: Tools, fs: Fs, first: string, second: string)
    requires ToBeCombined in fs && Enumerates(tools.listing(fs[ToBeCombined]), fs[ToBeCombined])
    requires Combination(tools, fs, first).outcome.Pass?
    ensures var after := Combination(tools, fs, first).fs;
      Combination(tools, after, second) == Step(Fail(InsufficientTiles(0)), after)
  {
    var after := Combination(tools, fs, first).fs;
    var names := RegularFiles(after[ToBeCombined], tools.listing(after[ToBeCombined]));
    if names != [] {
      NoTilesLeft(tools, fs, first, names[0]);
      assert false;
    }
  }
}
