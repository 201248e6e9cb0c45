/**
 * The payload directory after relocation: detection of the artifact family's
 * base name from its loader file, renaming of the four artifacts to the
 * project identifier (`renameBuildFiles`), and in-place decompression of
 * `.gz` / `.br` entries (`decompressFile`, `decompressFilesInFolder`).
 */
module BuildArtifacts {
  import opened Outcomes
  import opened JsStrings
  import opened FileTree

  const LoaderExt: string := ".loader.js"
  const GzipExt: string := ".gz"
  const BrotliExt: string := ".br"

  /** The artifact suffixes, in the order `renameBuildFiles` visits them. */
  const Extensions: seq<string> := [".loader.js", ".data", ".framework.js", ".wasm"]

  /** The names of a listing, in listing order (`fs.readdirSync`). */
  function Names(items: seq<Item>): (r: seq<string>)
    ensures |r| == |items| && forall i :: 0 <= i < |items| ==> r[i] == items[i].name
  {
    seq(|items|, i requires 0 <= i < |items| => items[i].name)
  }

  // ---------------------------------------------------------------- base name

  /** `buildFiles.find(file => file.endsWith(".loader.js"))`, as the position of the match. */
  function FindLoader(names: seq<string>): (r: Option<nat>)
    ensures r.Some? ==> r.value < |names| && EndsWith(names[r.value], LoaderExt)
    ensures r.Some? ==> forall j :: 0 <= j < r.value ==> !EndsWith(names[j], LoaderExt)
    ensures r.None? <==> forall j :: 0 <= j < |names| ==> !EndsWith(names[j], LoaderExt)
  {
    if names == [] then None
    else if EndsWith(names[0], LoaderExt) then Some(0)
    else match FindLoader(names[1..])
      case None => None
      case Some(i) => Some(i + 1)
  }

  /** `loaderFile.replace(".loader.js", "")`: the first occurrence is removed, wherever it is. */
  function BaseName(loaderFile: string): string {
    RemoveFirst(loaderFile, LoaderExt)
  }

  /**
   * For a loader whose name holds ".loader.js" only as its suffix, the base
   * name gives back the loader's own name, so the renamer moves the loader.
   */
  lemma BaseNameOfPlainLoader(loaderFile: string)
    requires EndsWith(loaderFile, LoaderExt)
    requires forall j: nat :: j < |loaderFile| - |LoaderExt| ==> !OccursAt(loaderFile, LoaderExt, j)
    ensures BaseName(loaderFile) + LoaderExt == loaderFile
  {
    RemoveFirstOfSoleSuffix(loaderFile, LoaderExt);
  }

  /**
   * A loader name with an inner ".loader.js" yields a base name from which
   * the loader's own name cannot be rebuilt, so the loader is not renamed.
   */
  lemma BaseNameOfInnerOccurrence()
    ensures BaseName("a.loader.jsb.loader.js") == "ab.loader.js"
    ensures BaseName("a.loader.jsb.loader.js") + LoaderExt != "a.loader.jsb.loader.js"
  {
    var s := "a.loader.jsb.loader.js";
    assert s[1..11] == LoaderExt;
    assert !OccursAt(s, LoaderExt, 0) by { assert s[0] != LoaderExt[0]; }
    assert IsFirstOccurrence(s, LoaderExt, 1);
    assert s[..1] + s[11..] == "ab.loader.js";
  }

  // ---------------------------------------------------------------- renaming

  /** The same entry under another name (a rename keeps content or listing). */
  function WithName(it: Item, n: string): (r: Item)
    ensures r.name == n
  {
    match it
    case File(_, c) => File(n, c)
    case Dir(_, xs) => Dir(n, xs)
  }

  /** Every entry called `from` now called `to`. */
  function Relabel(items: seq<Item>, from: string, to: string): (r: seq<Item>)
    ensures forall m :: m != from && m != to ==> Lookup(r, m) == Lookup(items, m)
    ensures from != to ==> Lookup(r, from).None?
    ensures Lookup(items, to).None? && Lookup(items, from).Some? ==>
              Lookup(r, to) == Some(WithName(Lookup(items, from).value, to))
  {
    if items == [] then []
    else [if items[0].name == from then WithName(items[0], to) else items[0]] + Relabel(items[1..], from, to)
  }

  /**
   * `fs.renameSync(dir/from, dir/to)` for an existing `from`: the entry takes
   * the new name, displacing an entry already called `to`; nothing else changes.
   */
  function Moved(items: seq<Item>, from: string, to: string): (r: seq<Item>)
    requires Lookup(items, from).Some?
    ensures forall m :: m != from && m != to ==> Lookup(r, m) == Lookup(items, m)
    ensures from != to ==> Lookup(r, from).None?
    ensures Lookup(r, to) == Some(WithName(Lookup(items, from).value, to))
  {
    if from == to then
      assert WithName(Lookup(items, from).value, to) == Lookup(items, from).value;
      items
    else
      Relabel(Without(items, to), from, to)
  }

  /** One iteration of the `forEach` in `renameBuildFiles`: rename if `from` exists. */
  function RenameStep(items: seq<Item>, from: string, to: string): seq<Item> {
    if Lookup(items, from).Some? then Moved(items, from, to) else items
  }

  /** The listing after the first `k` iterations of `renameBuildFiles`. */
  function RenameSteps(items: seq<Item>, base: string, projectId: string, k: nat): seq<Item>
    requires k <= |Extensions|
  {
    if k == 0 then items
    else RenameStep(RenameSteps(items, base, projectId, k - 1), base + Extensions[k - 1], projectId + Extensions[k - 1])
  }

  /** The first of the first `n` suffixes that turns `x` into `m`. */
  function ExtIndexBelow(x: string, m: string, n: nat): (r: Option<nat>)
    requires n <= |Extensions|
    ensures r.Some? ==> r.value < n && m == x + Extensions[r.value]
    ensures r.None? ==> forall k :: 0 <= k < n ==> m != x + Extensions[k]
  {
    if n == 0 then None
    else match ExtIndexBelow(x, m, n - 1)
      case Some(k) => Some(k)
      case None => if m == x + Extensions[n - 1] then Some(n - 1) else None
  }

  /**
   * What the directory holds under name `m` once the first `n` suffixes are
   * handled: `projectId+ext` holds the former `base+ext` when that existed,
   * `base+ext` is gone, every other name is untouched.
   */
  function RenamedLookup(items: seq<Item>, base: string, projectId: string, n: nat, m: string): Option<Item>
    requires n <= |Extensions|
  {
    match ExtIndexBelow(projectId, m, n)
    case Some(k) =>
      if Lookup(items, base + Extensions[k]).Some? then Some(WithName(Lookup(items, base + Extensions[k]).value, m))
      else Lookup(items, m)
    case None =>
      if ExtIndexBelow(base, m, n).Some? then None else Lookup(items, m)
  }

  /** Two different artifact suffixes never produce the same name, whatever the stems. */
  lemma ExtensionsDistinguish(x: string, y: string, j: nat, k: nat)
    requires j < |Extensions| && k < |Extensions| && j != k
    ensures x + Extensions[j] != y + Extensions[k]
  {
    var a, b := x + Extensions[j], y + Extensions[k];
    assert a[|a| - 4..] == Extensions[j][|Extensions[j]| - 4..];
    assert b[|b| - 4..] == Extensions[k][|Extensions[k]| - 4..];
    assert Extensions[0][6..] == "r.js" && Extensions[1][1..] == "data";
    assert Extensions[2][9..] == "k.js" && Extensions[3][1..] == "wasm";
  }

  /** One suffix on two different stems gives two different names. */
  lemma SameExtensionDistinguishes(x: string, y: string, e: string)
    requires x != y
    ensures x + e != y + e
  {
    if |x| == |y| {
      assert (x + e)[..|x|] == x && (y + e)[..|y|] == y;
    }
  }

  /** Where the two names one iteration touches stand among the suffix positions. */
  lemma StepNameIndices(base: string, projectId: string, k: nat)
    requires base != projectId && k < |Extensions|
    ensures ExtIndexBelow(projectId, base + Extensions[k], k + 1).None?
    ensures ExtIndexBelow(base, base + Extensions[k], k).None?
    ensures ExtIndexBelow(base, base + Extensions[k], k + 1) == Some(k)
    ensures ExtIndexBelow(projectId, projectId + Extensions[k], k).None?
    ensures ExtIndexBelow(projectId, projectId + Extensions[k], k + 1) == Some(k)
    ensures ExtIndexBelow(base, projectId + Extensions[k], k + 1).None?
  {
    var from, to := base + Extensions[k], projectId + Extensions[k];
    SameExtensionDistinguishes(base, projectId, Extensions[k]);
    forall j | 0 <= j < k
      ensures from != projectId + Extensions[j] && from != base + Extensions[j]
      ensures to != projectId + Extensions[j] && to != base + Extensions[j]
    {
      ExtensionsDistinguish(base, projectId, k, j);
      ExtensionsDistinguish(base, base, k, j);
      ExtensionsDistinguish(projectId, projectId, k, j);
      ExtensionsDistinguish(projectId, base, k, j);
    }
  }

  /** One more iteration of the renaming loop extends `RenamedLookup` by one suffix. */
  lemma RenameOneMore(x: seq<Item>, items: seq<Item>, base: string, projectId: string, k: nat, m: string)
    requires base != projectId && k < |Extensions|
    requires Lookup(x, m) == RenamedLookup(items, base, projectId, k, m)
    requires Lookup(x, base + Extensions[k]) == RenamedLookup(items, base, projectId, k, base + Extensions[k])
    requires Lookup(x, projectId + Extensions[k]) == RenamedLookup(items, base, projectId, k, projectId + Extensions[k])
    ensures Lookup(RenameStep(x, base + Extensions[k], projectId + Extensions[k]), m)
         == RenamedLookup(items, base, projectId, k + 1, m)
  {
    var from, to := base + Extensions[k], projectId + Extensions[k];
    StepNameIndices(base, projectId, k);
    assert Lookup(x, from) == Lookup(items, from);
    assert Lookup(x, to) == Lookup(items, to);
    if m != from && m != to {
      assert ExtIndexBelow(projectId, m, k + 1) == ExtIndexBelow(projectId, m, k);
      assert ExtIndexBelow(base, m, k + 1) == ExtIndexBelow(base, m, k);
    }
  }

  lemma {:induction false} RenameStepsLookup(items: seq<Item>, base: string, projectId: string, n: nat, m: string)
    requires base != projectId && n <= |Extensions|
    ensures Lookup(RenameSteps(items, base, projectId, n), m) == RenamedLookup(items, base, projectId, n, m)
  {
    if n > 0 {
      var k := n - 1;
      var x := RenameSteps(items, base, projectId, k);
      RenameStepsLookup(items, base, projectId, k, m);
      RenameStepsLookup(items, base, projectId, k, base + Extensions[k]);
      RenameStepsLookup(items, base, projectId, k, projectId + Extensions[k]);
      RenameOneMore(x, items, base, projectId, k, m);
    }
  }

  /**
   * `renameBuildFiles(dir, projectId, base)` with `base !== projectId`: for
   * each suffix, `projectId+ext` holds what `base+ext` held (content kept)
   * when that file existed and is left alone otherwise; `base+ext` no longer
   * exists; names other than these eight are untouched.
   */
  lemma RenameBuildFilesEffect(items: seq<Item>, base: string, projectId: string, m: string)
    requires base != projectId
    ensures Lookup(RenameSteps(items, base, projectId, |Extensions|), m)
         == RenamedLookup(items, base, projectId, |Extensions|, m)
  {
    RenameStepsLookup(items, base, projectId, |Extensions|, m);
  }

  /** The loop skipped by server.js when the base name already is the project id would change nothing anyway. */
  lemma {:induction false} RenameSameBase(items: seq<Item>, base: string, n: nat)
    requires n <= |Extensions|
    ensures RenameSteps(items, base, base, n) == items
  {
    if n > 0 {
      RenameSameBase(items, base, n - 1);
    }
  }

  /** `ExtIndexBelow` finds the suffix a name was built with. */
  lemma ExtIndexOf(x: string, k: nat)
    requires k < |Extensions|
    ensures ExtIndexBelow(x, x + Extensions[k], |Extensions|) == Some(k)
  {
    var r := ExtIndexBelow(x, x + Extensions[k], |Extensions|);
    if r.value != k {
      ExtensionsDistinguish(x, x, r.value, k);
    }
  }

  /** A name built from the other stem is not built from this one. */
  lemma ExtIndexOfOther(x: string, y: string, k: nat)
    requires k < |Extensions| && x != y
    ensures ExtIndexBelow(x, y + Extensions[k], |Extensions|).None?
  {
    var r := ExtIndexBelow(x, y + Extensions[k], |Extensions|);
    if r.Some? {
      if r.value == k {
        SameExtensionDistinguishes(x, y, Extensions[k]);
      } else {
        ExtensionsDistinguish(x, y, r.value, k);
      }
    }
  }

  /**
   * `renameBuildFiles` case by case: `projectId+ext` takes over the entry
   * `base+ext`, content and all, when there was one; every `base+ext` is
   * gone; every name that is neither is untouched.
   */
  lemma RenameBuildFilesCases(items: seq<Item>, base: string, projectId: string)
    requires base != projectId
    ensures var r := RenameSteps(items, base, projectId, |Extensions|);
            forall k :: 0 <= k < |Extensions| ==>
              Lookup(r, projectId + Extensions[k])
                == if Lookup(items, base + Extensions[k]).Some?
                   then Some(WithName(Lookup(items, base + Extensions[k]).value, projectId + Extensions[k]))
                   else Lookup(items, projectId + Extensions[k])
    ensures var r := RenameSteps(items, base, projectId, |Extensions|);
            forall k :: 0 <= k < |Extensions| ==> Lookup(r, base + Extensions[k]).None?
    ensures var r := RenameSteps(items, base, projectId, |Extensions|);
            forall m :: (forall k :: 0 <= k < |Extensions| ==> m != base + Extensions[k] && m != projectId + Extensions[k])
              ==> Lookup(r, m) == Lookup(items, m)
  {
    var r := RenameSteps(items, base, projectId, |Extensions|);
    forall k | 0 <= k < |Extensions|
      ensures Lookup(r, projectId + Extensions[k])
                == if Lookup(items, base + Extensions[k]).Some?
                   then Some(WithName(Lookup(items, base + Extensions[k]).value, projectId + Extensions[k]))
                   else Lookup(items, projectId + Extensions[k])
      ensures Lookup(r, base + Extensions[k]).None?
    {
      RenameBuildFilesEffect(items, base, projectId, projectId + Extensions[k]);
      RenameBuildFilesEffect(items, base, projectId, base + Extensions[k]);
      ExtIndexOf(projectId, k);
      ExtIndexOf(base, k);
      ExtIndexOfOther(projectId, base, k);
    }
    forall m | (forall k :: 0 <= k < |Extensions| ==> m != base + Extensions[k] && m != projectId + Extensions[k])
      ensures Lookup(r, m) == Lookup(items, m)
    {
      RenameBuildFilesEffect(items, base, projectId, m);
    }
  }

  // ---------------------------------------------------------------- decompression

  /** The environment of one decompression: the two zlib decoders and which paths can be written. */
  datatype Io = Io(gunzip: Bytes -> Option<Bytes>, brotli: Bytes -> Option<Bytes>, canWrite: string -> bool)

  /** The decoder chosen by suffix, never by content. */
  function Decoder(ext: string, io: Io): Bytes -> Option<Bytes> {
    if ext == GzipExt then io.gunzip else io.brotli
  }

  /** What a decompression can change: the folder's listing, and files written outside it. */
  datatype FolderState = FolderState(items: seq<Item>, outside: map<string, Bytes>)

  /** `filePath.replace(extension, "")`, where `filePath` is the FULL path of the entry. */
  function DecompressedPath(folder: string, file: string, ext: string): string {
    RemoveFirst(Join(folder, file), ext)
  }

  /** The entry name when path `p` lies directly inside `folder`. */
  function EntryIn(folder: string, p: string): (r: Option<string>)
    ensures r.Some? ==> p == Join(folder, r.value) && r.value != "" && '/' !in r.value
    ensures (exists n :: n != "" && '/' !in n && p == Join(folder, n)) ==> r.Some?
  {
    var k := |folder| + 1;
    if k < |p| && p[..k] == folder + "/" && '/' !in p[k..] then
      assert p == p[..k] + p[k..];
      Some(p[k..])
    else None
  }

  /** A successful removal of an occurrence shortens the string by the pattern's length. */
  lemma RemoveFirstShortens(s: string, pat: string)
    requires EndsWith(s, pat)
    ensures |RemoveFirst(s, pat)| == |s| - |pat|
  {
    assert OccursAt(s, pat, |s| - |pat|);
    var i := IndexOf(s, pat).value;
    assert IsFirstOccurrence(s, pat, i);
  }

  /**
   * `decompressFile(filePath, ext)` run to completion: read the entry, open
   * the target path, decode, write, and only then delete the original.
   */
  function DecompressOne(s: FolderState, folder: string, file: string, ext: string, io: Io): (bool, FolderState) {
    match Lookup(s.items, file)
    case None => (false, s)
    case Some(it) =>
      if it.Dir? then (false, s)
      else
        var target := DecompressedPath(folder, file, ext);
        if !io.canWrite(target) then (false, s)
        else match Decoder(ext, io)(it.content)
          case None => (false, s)
          case Some(data) =>
            match EntryIn(folder, target)
            case Some(n) => (true, FolderState(Without(Put(s.items, File(n, data)), file), s.outside))
            case None => (true, FolderState(Without(s.items, file), s.outside[target := data]))
  }

  /** A failed decompression changes nothing: the original is deleted only after the write. */
  lemma DecompressOneFailure(s: FolderState, folder: string, file: string, ext: string, io: Io)
    ensures !DecompressOne(s, folder, file, ext, io).0 ==> DecompressOne(s, folder, file, ext, io).1 == s
  {
  }

  /**
   * A successful decompression of `name+ext` leaves the decoded bytes at the
   * target path, the compressed original gone, and every other entry as it was.
   */
  lemma DecompressOneSuccess(s: FolderState, folder: string, file: string, ext: string, io: Io)
    requires EndsWith(file, ext) && ext != ""
    requires DecompressOne(s, folder, file, ext, io).0
    ensures var s' := DecompressOne(s, folder, file, ext, io).1;
            var target := DecompressedPath(folder, file, ext);
            var data := Decoder(ext, io)(Lookup(s.items, file).value.content).value;
            && Lookup(s'.items, file).None?
            && (EntryIn(folder, target).Some? ==>
                  && Lookup(s'.items, EntryIn(folder, target).value) == Some(File(EntryIn(folder, target).value, data))
                  && s'.outside == s.outside
                  && forall m :: m != file && m != EntryIn(folder, target).value ==> Lookup(s'.items, m) == Lookup(s.items, m))
            && (EntryIn(folder, target).None? ==>
                  && s'.outside == s.outside[target := data]
                  && forall m :: m != file ==> Lookup(s'.items, m) == Lookup(s.items, m))
  {
    DecompressedPathIsNotSource(folder, file, ext);
  }

  /** Removing the suffix shortens the path, so an output inside the folder never overwrites its source. */
  lemma DecompressedPathIsNotSource(folder: string, file: string, ext: string)
    requires EndsWith(file, ext) && ext != ""
    ensures EntryIn(folder, DecompressedPath(folder, file, ext)).Some? ==>
              EntryIn(folder, DecompressedPath(folder, file, ext)).value != file
  {
    var target := DecompressedPath(folder, file, ext);
    assert EndsWith(Join(folder, file), ext) by {
      assert Join(folder, file)[|Join(folder, file)| - |ext|..] == file[|file| - |ext|..];
    }
    RemoveFirstShortens(Join(folder, file), ext);
    if EntryIn(folder, target).Some? {
      var n := EntryIn(folder, target).value;
      assert |Join(folder, n)| < |Join(folder, file)|;
    }
  }

  /**
   * When the folder's own path holds no occurrence of the suffix, the output
   * is the entry's name with its first occurrence removed, inside the folder.
   */
  lemma DecompressedPathInFolder(folder: string, file: string, ext: string)
    requires ext == GzipExt || ext == BrotliExt
    requires '/' !in file && EndsWith(file, ext) && |file| > |ext|
    requires forall j: nat :: j < |file| - |ext| ==> !OccursAt(file, ext, j)
    requires forall j: nat :: !OccursAt(folder, ext, j)
    ensures EntryIn(folder, DecompressedPath(folder, file, ext)) == Some(file[..|file| - |ext|])
  {
    RemoveFirstInName(folder, file, ext);
    RemoveFirstOfSoleSuffix(file, ext);
    var n := RemoveFirst(file, ext);
    assert n == file[..|file| - |ext|] by {
      assert n + ext == file;
      assert file[..|file| - |ext|] == (n + ext)[..|n|];
    }
    assert '/' !in n by {
      forall c | c in n ensures c != '/' {
        var i :| 0 <= i < |n| && n[i] == c;
        assert file[i] == c;
      }
    }
  }

  /** The Build folder of a project called `my.brick`: `/g/my.brick/Build`. */
  const EscapingFolder := "/g/my" + BrotliExt + "ick/Build"
  /** Where `a.wasm.br` in it is decompressed to: `/g/myick/Build/a.wasm.br`. */
  const EscapingTarget := "/g/my" + "ick/Build/a.wasm.br"

  /** In `/g/my.brick/Build/a.wasm.br` the first `.br` is the one in the project's name, at position 5. */
  lemma EscapingFirstOccurrence()
    ensures IndexOf(Join(EscapingFolder, "a.wasm.br"), BrotliExt) == Some(5)
  {
    var s := Join(EscapingFolder, "a.wasm.br");
    assert s == "/g/my" + BrotliExt + "ick/Build/a.wasm.br";
    assert s[0] == '/' && s[1] == 'g' && s[2] == '/' && s[3] == 'm' && s[4] == 'y';
    assert s[0..3][0] == s[0] && s[1..4][0] == s[1] && s[2..5][0] == s[2] && s[3..6][0] == s[3] && s[4..7][0] == s[4];
    assert s[5..8] == BrotliExt;
    assert IndexOfFrom(s, BrotliExt, 4) == Some(5);
    assert IndexOfFrom(s, BrotliExt, 2) == Some(5);
    assert IndexOfFrom(s, BrotliExt, 0) == Some(5);
  }

  /**
   * When the folder's path itself holds the suffix (here a project called
   * "my.brick"), the output is written outside the folder, into a sibling
   * path that does not belong to it.
   */
  lemma DecompressedPathEscapes()
    ensures DecompressedPath(EscapingFolder, "a.wasm.br", BrotliExt) == EscapingTarget
    ensures EntryIn(EscapingFolder, EscapingTarget).None?
  {
    var s := Join(EscapingFolder, "a.wasm.br");
    assert s == "/g/my" + BrotliExt + "ick/Build/a.wasm.br";
    EscapingFirstOccurrence();
    RemoveFirstAt(s, BrotliExt, 5);
    assert s[..5] == "/g/my" && s[8..] == "ick/Build/a.wasm.br";
    var p := EscapingTarget;
    assert p[5] == 'i' && (EscapingFolder + "/")[5] == '.';
    assert p[..|EscapingFolder| + 1][5] == p[5];
  }

  /** One entry of `decompressFilesInFolder`'s `files.map`: `.gz` is checked before `.br`. */
  function DecompressEntry(s: FolderState, folder: string, file: string, io: Io): (bool, FolderState) {
    if EndsWith(file, GzipExt) then DecompressOne(s, folder, file, GzipExt, io)
    else if EndsWith(file, BrotliExt) then DecompressOne(s, folder, file, BrotliExt, io)
    else (true, s)
  }

  /**
   * The first `k` entries of the listing snapshot handled one after the
   * other by `step`; every entry is handled even after a failure, as the
   * sibling promises of `Promise.all` run on, and the aggregate fails if any
   * entry failed.
   */
  function Fold(s: FolderState, names: seq<string>, k: nat, step: (FolderState, string) -> (bool, FolderState)): (bool, FolderState)
    requires k <= |names|
  {
    if k == 0 then (true, s)
    else
      var prev := Fold(s, names, k - 1, step);
      var next := step(prev.1, names[k - 1]);
      (prev.0 && next.0, next.1)
  }

  /** Once an entry fails, the aggregate fails, whatever the later entries do. */
  lemma {:induction false} FoldFailureSticks(s: FolderState, names: seq<string>, i: nat, k: nat,
                                             step: (FolderState, string) -> (bool, FolderState))
    requires i < k <= |names|
    requires !step(Fold(s, names, i, step).1, names[i]).0
    ensures !Fold(s, names, k, step).0
  {
    if k > i + 1 {
      FoldFailureSticks(s, names, i, k - 1, step);
    }
  }

  /** When every entry's step succeeds on the state it meets, the aggregate succeeds. */
  lemma {:induction false} FoldAllSucceed(s: FolderState, names: seq<string>, k: nat,
                                          step: (FolderState, string) -> (bool, FolderState))
    requires k <= |names|
    requires forall i :: 0 <= i < k ==> step(Fold(s, names, i, step).1, names[i]).0
    ensures Fold(s, names, k, step).0
  {
    if k > 0 {
      FoldAllSucceed(s, names, k - 1, step);
    }
  }

  /** Entries whose step is a successful no-op leave the aggregate successful and the state as it was. */
  lemma {:induction false} FoldPassThrough(s: FolderState, names: seq<string>, k: nat,
                                           step: (FolderState, string) -> (bool, FolderState))
    requires k <= |names|
    requires forall j, st :: 0 <= j < k ==> step(st, names[j]) == (true, st)
    ensures Fold(s, names, k, step) == (true, s)
  {
    if k > 0 {
      FoldPassThrough(s, names, k - 1, step);
    }
  }

  /** With a single entry that does anything, the aggregate is that entry's outcome. */
  lemma {:induction false} FoldSingle(s: FolderState, names: seq<string>, i: nat, k: nat,
                                      step: (FolderState, string) -> (bool, FolderState), done: FolderState)
    requires i < k <= |names|
    requires forall j, st :: 0 <= j < |names| && j != i ==> step(st, names[j]) == (true, st)
    requires step(s, names[i]) == (true, done)
    ensures Fold(s, names, k, step) == (true, done)
  {
    if k == i + 1 {
      FoldPassThrough(s, names, i, step);
    } else {
      FoldSingle(s, names, i, k - 1, step, done);
      assert step(done, names[k - 1]) == (true, done);
    }
  }

  /** The step `decompressFilesInFolder` applies to each entry of `folder`. */
  function EntryStep(folder: string, io: Io): (FolderState, string) -> (bool, FolderState) {
    (st: FolderState, n: string) => DecompressEntry(st, folder, n, io)
  }

  predicate IsCompressedName(n: string) {
    EndsWith(n, GzipExt) || EndsWith(n, BrotliExt)
  }

  /**
   * `decompressFilesInFolder(folder)` as a whole: it fails without touching
   * anything when the folder cannot be listed (`listOk` false), otherwise it
   * handles the listing snapshot entry by entry.
   */
  function DecompressFolder(s: FolderState, folder: string, listOk: bool, io: Io): (bool, FolderState) {
    if !listOk then (false, s)
    else Fold(s, Names(s.items), |s.items|, EntryStep(folder, io))
  }

  /** An entry without a compression suffix is a trivially successful no-op. */
  lemma DecompressPlainEntry(s: FolderState, folder: string, file: string, io: Io)
    requires !IsCompressedName(file)
    ensures DecompressEntry(s, folder, file, io) == (true, s)
  {
  }

  /**
   * The whole operation fails when the folder cannot be listed (and then
   * changes nothing) or when any single entry fails, whatever the later
   * entries do.
   */
  lemma DecompressFolderFails(s: FolderState, folder: string, listOk: bool, io: Io, i: nat)
    ensures !listOk ==> DecompressFolder(s, folder, listOk, io) == (false, s)
    ensures listOk && i < |s.items|
            && !DecompressEntry(Fold(s, Names(s.items), i, EntryStep(folder, io)).1, folder, s.items[i].name, io).0
            ==> !DecompressFolder(s, folder, listOk, io).0
  {
    if listOk && i < |s.items| {
      var step := EntryStep(folder, io);
      if !step(Fold(s, Names(s.items), i, step).1, Names(s.items)[i]).0 {
        FoldFailureSticks(s, Names(s.items), i, |s.items|, step);
      }
    }
  }

  /**
   * `Promise.all` over the listing: a listable folder's decompression
   * succeeds exactly when every entry succeeds on the state the entries
   * before it left.
   */
  lemma DecompressFolderSucceeds(s: FolderState, folder: string, listOk: bool, io: Io)
    ensures DecompressFolder(s, folder, listOk, io).0
            <==> listOk && forall i :: 0 <= i < |s.items| ==>
                   DecompressEntry(Fold(s, Names(s.items), i, EntryStep(folder, io)).1, folder, s.items[i].name, io).0
  {
    if listOk {
      var step := EntryStep(folder, io);
      var names := Names(s.items);
      if forall i :: 0 <= i < |s.items| ==> step(Fold(s, names, i, step).1, names[i]).0 {
        FoldAllSucceed(s, names, |s.items|, step);
      } else {
        var i :| 0 <= i < |s.items| && !step(Fold(s, names, i, step).1, names[i]).0;
        FoldFailureSticks(s, names, i, |s.items|, step);
      }
    }
  }

  /** The one compressed artifact of `DecompressSingleArtifact`, handled on its own. */
  lemma DecompressGzipArtifact(s: FolderState, folder: string, file: string, io: Io, c: Bytes, orig: Bytes)
    requires EndsWith(file, GzipExt)
    requires Lookup(s.items, file) == Some(File(file, c))
    requires io.gunzip(c) == Some(orig)
    requires io.canWrite(DecompressedPath(folder, file, GzipExt))
    requires EntryIn(folder, DecompressedPath(folder, file, GzipExt)).Some?
    ensures var n := EntryIn(folder, DecompressedPath(folder, file, GzipExt)).value;
            DecompressEntry(s, folder, file, io) == (true, FolderState(Without(Put(s.items, File(n, orig)), file), s.outside))
  {
  }

  /**
   * Decompression round trip for a folder holding one compressed artifact:
   * if the decoder returns `orig` for its bytes, the folder ends with `orig`
   * under the stripped name and without the compressed file.
   */
  lemma DecompressSingleArtifact(s: FolderState, folder: string, i: nat, io: Io, c: Bytes, orig: Bytes)
    requires i < |s.items|
    requires forall j :: 0 <= j < |s.items| && j != i ==> !IsCompressedName(s.items[j].name)
    requires Lookup(s.items, s.items[i].name) == Some(File(s.items[i].name, c))
    requires EndsWith(s.items[i].name, GzipExt)
    requires io.gunzip(c) == Some(orig)
    requires io.canWrite(DecompressedPath(folder, s.items[i].name, GzipExt))
    requires EntryIn(folder, DecompressedPath(folder, s.items[i].name, GzipExt)).Some?
    ensures var file := s.items[i].name;
            var n := EntryIn(folder, DecompressedPath(folder, file, GzipExt)).value;
            DecompressFolder(s, folder, true, io) == (true, FolderState(Without(Put(s.items, File(n, orig)), file), s.outside))
  {
    var names := Names(s.items);
    var n := EntryIn(folder, DecompressedPath(folder, names[i], GzipExt)).value;
    var done := FolderState(Without(Put(s.items, File(n, orig)), names[i]), s.outside);
    var step := EntryStep(folder, io);
    forall j, st | 0 <= j < |names| && j != i ensures step(st, names[j]) == (true, st) {
      DecompressPlainEntry(st, folder, names[j], io);
    }
    DecompressGzipArtifact(s, folder, names[i], io, c, orig);
    FoldSingle(s, names, i, |names|, step, done);
  }

  /**
   * The payload directory being normalised. `path` is its absolute path,
   * `items` its listing, `outside` the files a decompression wrote at paths
   * that are not inside it.
   */
  class BuildFolder {
    const path: string
    var items: seq<Item>
    var outside: map<string, Bytes>

    function State(): FolderState
      reads this
    {
      FolderState(items, outside)
    }

    constructor (path: string, items: seq<Item>)
      ensures this.path == path && State() == FolderState(items, map[])
    {
      this.path := path;
      this.items := items;
      this.outside := map[];
    }

    /** One iteration of `renameBuildFiles`: `renameSync(from, to)` when `existsSync(from)`. */
    method RenameIfPresent(from: string, to: string)
      modifies this
      ensures items == RenameStep(old(items), from, to) && outside == old(outside)
    {
      if Lookup(items, from).Some? {
        items := Moved(items, from, to);
      }
    }

    /** `renameBuildFiles(buildFolder, projectId, currentBaseName)` */
    method RenameBuildFiles(projectId: string, currentBaseName: string)
      modifies this
      ensures items == RenameSteps(old(items), currentBaseName, projectId, |Extensions|)
      ensures outside == old(outside)
    {
      for k := 0 to |Extensions|
        invariant items == RenameSteps(old(items), currentBaseName, projectId, k)
        invariant outside == old(outside)
      {
        RenameIfPresent(currentBaseName + Extensions[k], projectId + Extensions[k]);
      }
    }

    /** `decompressFile(path.join(folder, file), ext)`, awaited. */
    method DecompressFile(file: string, ext: string, io: Io) returns (ok: bool)
      modifies this
      ensures (ok, State()) == DecompressOne(old(State()), path, file, ext, io)
    {
      var entry := Lookup(items, file);
      if entry.None? || entry.value.Dir? {
        return false;
      }
      var newFilePath := RemoveFirst(Join(path, file), ext);
      if !io.canWrite(newFilePath) {
        return false;
      }
      var decoded := Decoder(ext, io)(entry.value.content);
      if decoded.None? {
        return false;
      }
      var inside := EntryIn(path, newFilePath);
      if inside.Some? {
        items := Put(items, File(inside.value, decoded.value));
      } else {
        outside := outside[newFilePath := decoded.value];
      }
      items := Without(items, file);
      return true;
    }

    /** `decompressFilesInFolder(folder)`; `listOk` is whether `fs.readdir` succeeds. */
    method DecompressFilesInFolder(listOk: bool, io: Io) returns (ok: bool)
      modifies this
      ensures (ok, State()) == DecompressFolder(old(State()), path, listOk, io)
    {
      if !listOk {
        return false;
      }
      var files := Names(items);
      ok := true;
      for k := 0 to |files|
        invariant (ok, State()) == Fold(old(State()), files, k, EntryStep(path, io))
      {
        ghost var before := State();
        var stepOk := DecompressListed(files[k], io);
        assert (stepOk, State()) == EntryStep(path, io)(before, files[k]);
        ok := ok && stepOk;
      }
    }

    /** The callback of `files.map`: decompress a `.gz` or `.br` entry, resolve at once otherwise. */
    method DecompressListed(file: string, io: Io) returns (ok: bool)
      modifies this
      ensures (ok, State()) == DecompressEntry(old(State()), path, file, io)
    {
      ok := true;
      if EndsWith(file, GzipExt) {
        ok := DecompressFile(file, GzipExt, io);
      } else if EndsWith(file, BrotliExt) {
        ok := DecompressFile(file, BrotliExt, io);
      }
    }
  }
}
