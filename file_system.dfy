/**
 * The staging directories as finite maps from entry name to entry, and the
 * two operations the pipeline performs on them: writing a file and renaming
 * one into another directory.  Entry names are single path components.
 */
module FileSystem {
  import opened Wrappers
  import opened JsText

  /** The staging folders of the downloader (TEMP_DIR and its children). */
  datatype Folder = OriginalDownload | ToBeUploaded | ToBeCombined | AlreadyCombined

  datatype Path = Path(folder: Folder, name: string)

  /**
   * What a file holds, recorded by where it came from: the body fetched from a
   * link (complete or cut short), page `pageIndex` rasterised by GraphicsMagick,
   * an image re-encoded by sharp, or a composite canvas with its placed tiles.
   */
  datatype Blob =
    | Downloaded(url: string, complete: bool)
    | PageRaster(source: Path, pageIndex: int)
    | Reencoded(source: Path)
    | Composite(width: int, height: int, tiles: seq<Placed>)

  /** One tile of a composite (a sharp overlay): the file it was read from, what that file held, and its offsets. */
  datatype Placed = Placed(source: Path, image: Option<Blob>, left: int, top: int)

  datatype Entry = File(content: Blob) | Subdirectory

  type Dir = map<string, Entry>

  /** The disk: every folder that exists, with its entries. */
  type Fs = map<Folder, Dir>

  /** The content of the regular file at p, if there is one. */
  function Lookup(fs: Fs, p: Path): Option<Blob>
  {
    if p.folder in fs && p.name in fs[p.folder] && fs[p.folder][p.name].File?
    then Some(fs[p.folder][p.name].content) else None
  }

  /** A regular file can be created or truncated at p. */
  predicate CanWrite(fs: Fs, p: Path)
  {
    p.folder in fs && '/' !in p.name &&
    !(p.name in fs[p.folder] && fs[p.folder][p.name].Subdirectory?)
  }

  /** Writing content to p (createWriteStream, gm and sharp output files). */
  function Write(fs: Fs, p: Path, content: Blob): (r: Option<Fs>)
    ensures r.Some? <==> CanWrite(fs, p)
    ensures r.Some? ==> Lookup(r.value, p) == Some(content)
    ensures r.Some? ==> forall q :: q != p ==> Lookup(r.value, q) == Lookup(fs, q)
    ensures r.Some? ==> r.value.Keys == fs.Keys
  {
    if CanWrite(fs, p) then Some(fs[p.folder := fs[p.folder][p.name := File(content)]])
    else None
  }

  /** fs.rename of the regular file at src to dst; it fails when src is no file or dst cannot be written. */
  function Rename(fs: Fs, src: Path, dst: Path): (r: Option<Fs>)
    ensures r.Some? <==> Lookup(fs, src).Some? && CanWrite(fs, dst)
    ensures r.Some? ==> Lookup(r.value, dst) == Lookup(fs, src)
    ensures r.Some? && src != dst ==> Lookup(r.value, src).None?
    ensures r.Some? ==> forall q :: q != src && q != dst ==> Lookup(r.value, q) == Lookup(fs, q)
    ensures r.Some? ==> r.value.Keys == fs.Keys
  {
    match Lookup(fs, src)
    case None => None
    case Some(content) =>
      if !CanWrite(fs, dst) then None
      else
        var removed := fs[src.folder := fs[src.folder] - {src.name}];
        Write(removed, dst, content)
  }

  /** The names readdir gives, in its order, that are regular files of dir. */
  function RegularFiles(dir: Dir, listing: seq<string>): (names: seq<string>)
    ensures forall k :: 0 <= k < |names| ==> names[k] in dir && dir[names[k]].File?
    ensures |names| <= |listing|
  {
    if listing == [] then []
    else
      var rest := RegularFiles(dir, listing[1..]);
      if listing[0] in dir && dir[listing[0]].File? then [listing[0]] + rest else rest
  }

  /** listing names every entry of dir exactly once and nothing else. */
  predicate Enumerates(listing: seq<string>, dir: Dir)
  {
    && (forall k :: 0 <= k < |listing| ==> listing[k] in dir)
    && (forall n :: n in dir ==> n in listing)
    && (forall j, k :: 0 <= j < k < |listing| ==> listing[j] != listing[k])
  }

  /** The paths of the given names inside folder. */
  function InFolder(folder: Folder, names: seq<string>): (paths: seq<Path>)
    ensures |paths| == |names|
    ensures forall k :: 0 <= k < |names| ==> paths[k] == Path(folder, names[k])
  {
    seq(|names|, k requires 0 <= k < |names| => Path(folder, names[k]))
  }

  /** What getFilesInFolder resolves with: None when readdir throws on a missing folder. */
  function ListedFiles(fs: Fs, folder: Folder, listing: Dir -> seq<string>): (r: Option<seq<Path>>)
    ensures r.None? <==> folder !in fs
  {
    if folder !in fs then None
    else Some(InFolder(folder, RegularFiles(fs[folder], listing(fs[folder]))))
  }

  /**
   * getFilesInFolder: readdir, then keep the entries that are regular files,
   * in readdir's order.  A missing folder makes readdir throw (None).
   */
  method GetFilesInFolder(fs: Fs, folder: Folder, listing: Dir -> seq<string>) returns (r: Option<seq<Path>>)
    ensures r.None? <==> folder !in fs
    ensures r.Some? ==> |r.value| == |RegularFiles(fs[folder], listing(fs[folder]))|
    ensures r.Some? ==> forall k :: 0 <= k < |r.value| ==>
      r.value[k] == Path(folder, RegularFiles(fs[folder], listing(fs[folder]))[k])
    ensures r == ListedFiles(fs, folder, listing)
  {
    if folder !in fs {
      return None;
    }
    var dir := fs[folder];
    var entries := listing(dir);
    var paths: seq<Path> := [];
    var i := |entries|;
    // Walk from the end so that each step prepends, as RegularFiles does.
    while i > 0
      invariant 0 <= i <= |entries|
      invariant |paths| == |RegularFiles(dir, entries[i..])|
      invariant forall k :: 0 <= k < |paths| ==> paths[k] == Path(folder, RegularFiles(dir, entries[i..])[k])
    {
      i := i - 1;
      assert entries[i..][1..] == entries[i + 1..];
      if entries[i] in dir && dir[entries[i]].File? {
        paths := [Path(folder, entries[i])] + paths;
      }
    }
    assert entries[0..] == entries;
    assert paths == InFolder(folder, RegularFiles(dir, entries));
    return Some(paths);
  }

  /** With a faithful readdir, the regular files come back each exactly once, and all of them. */
  lemma {:induction false} RegularFilesOfEnumeration(dir: Dir, listing: seq<string>)
    requires forall j, k :: 0 <= j < k < |listing| ==> listing[j] != listing[k]
    ensures forall n :: n in RegularFiles(dir, listing) <==> n in listing && n in dir && dir[n].File?
    ensures forall j, k :: 0 <= j < k < |RegularFiles(dir, listing)| ==>
      RegularFiles(dir, listing)[j] != RegularFiles(dir, listing)[k]
  {
    if listing != [] {
      RegularFilesOfEnumeration(dir, listing[1..]);
      assert listing[0] !in listing[1..];
    }
  }

  lemma RegularFilesOfFaithfulReaddir(dir: Dir, listing: seq<string>)
    requires Enumerates(listing, dir)
    ensures forall n :: n in RegularFiles(dir, listing) <==> n in dir && dir[n].File?
    ensures forall j, k :: 0 <= j < k < |RegularFiles(dir, listing)| ==>
      RegularFiles(dir, listing)[j] != RegularFiles(dir, listing)[k]
  {
    RegularFilesOfEnumeration(dir, listing);
  }

  /** With a faithful readdir, getFilesInFolder lists exactly the regular files of the folder, each once. */
  lemma ListedFilesFaithful(fs: Fs, folder: Folder, listing: Dir -> seq<string>)
    requires folder in fs && Enumerates(listing(fs[folder]), fs[folder])
    ensures var paths := ListedFiles(fs, folder, listing).value;
      && (forall k :: 0 <= k < |paths| ==> paths[k].folder == folder && Lookup(fs, paths[k]).Some?)
      && (forall j, k :: 0 <= j < k < |paths| ==> paths[j].name != paths[k].name)
      && (forall n :: Lookup(fs, Path(folder, n)).Some? ==> Path(folder, n) in paths)
  {
    var dir := fs[folder];
    var names := RegularFiles(dir, listing(dir));
    var paths := InFolder(folder, names);
    RegularFilesOfFaithfulReaddir(dir, listing(dir));
    forall n | Lookup(fs, Path(folder, n)).Some?
      ensures Path(folder, n) in paths
    {
      assert n in names;
      var k :| 0 <= k < |names| && names[k] == n;
      assert paths[k] == Path(folder, n);
    }
  }

  /**
   * The name part of path.parse for a single path component: everything
   * before the last '.', unless there is none, it is the first character, or
   * the component is "..".
   */
  function NameNoExtension(base: string): (name: string)
    ensures |name| <= |base| && name == base[..|name|]
    ensures name == base || (|name| > 0 && base[|name|] == '.' && '.' !in base[|name| + 1..])
    ensures name == base <==> LastIndexOf(base, '.') <= 0 || base == ".."
    ensures name != base ==> name == base[..LastIndexOf(base, '.')]
  {
    var d := LastIndexOf(base, '.');
    if d <= 0 || (|base| == 2 && base[0] == '.' && base[1] == '.') then base
    else
      assert base[d] == '.' && '.' !in base[d + 1..];
      base[..d]
  }

  /** A name written as `<stem>.<extension>` parses back to its stem, also when the extension is empty ("a." to "a"), except for "..". */
  lemma StemOfName(stem: string, extension: string)
    requires stem != [] && '.' !in extension
    requires !(stem == "." && extension == [])
    ensures NameNoExtension(stem + "." + extension) == stem
  {
    var base := stem + "." + extension;
    assert base[|stem|] == '.' && base[|stem| + 1..] == extension;
    assert LastIndexOf(base, '.') == |stem|;
    assert base[..|stem|] == stem;
  }
}
