/**
 * The handlers of server.js that change the gallery: `POST /upload`,
 * `PUT /games/:id` and `DELETE /games/:id`. The server's state is the
 * catalog file, the project folders under `public/builds` and the files a
 * decompression wrote outside a Build folder. The catalog is `None` when
 * `games.json` cannot be read or parsed; a failed write leaves it as it was.
 */
module Server {
  import opened Outcomes
  import opened JsStrings
  import opened FileTree
  import opened BuildArtifacts
  import opened Catalog

  const ThumbnailName: string := "thumbnail.png"

  /** The error responses, one per message of the handlers. */
  datatype Failure =
    | MissingFields        // 400 "Missing required fields or files."
    | AlreadyExists        // 400 "A game with that project ID already exists. ..."
    | GameNotFound         // 404 "Game not found"
    | FolderDeleteFailed   // 500 "Error deleting existing project folder." / "Error deleting project folder."
    | ThumbnailFailed      // 500 "Error processing thumbnail."
    | ExtractFailed        // 500 "Error extracting zip file"
    | BuildFolderNotFound  // 500 "Build folder not found in the uploaded ZIP."
    | RelocateFailed       // 500 "Error relocating Build folder."
    | LoaderNotFound       // 500 "Loader file not found in Build folder."
    | DecompressFailed     // 500 "Error decompressing build files"
    | CatalogReadFailed    // 500 "Error reading games.json"
    | CatalogWriteFailed   // 500 "Error updating games.json"

  datatype Response = UploadOk(game: Game) | UpdateOk(game: Game) | DeleteOk | Failed(failure: Failure)

  /** The multipart body of an upload: the text fields, whether a zip was sent, the thumbnail's bytes. */
  datatype UploadRequest = UploadRequest(title: Option<string>, author: Option<string>, projectId: Option<string>,
                                         overwrite: Option<string>, moduleCode: Option<string>,
                                         zipFile: bool, thumbnail: Option<Bytes>)

  /**
   * What an upload depends on but does not decide: whether `rmSync` and the
   * thumbnail's `renameSync` succeed, the tree `unzipper` extracts (`None`
   * for an extraction error), whether the Build folder can be listed, the
   * decoders, the clock and whether `games.json` can be written.
   */
  datatype UploadEnv = UploadEnv(rmOk: bool, thumbMoveOk: bool, extracted: Option<seq<Item>>, listOk: bool,
                                 io: Io, now: string, writeOk: bool)

  datatype ServerState = ServerState(catalog: Option<seq<Game>>, builds: map<string, seq<Item>>,
                                     strays: map<string, Bytes>)

  /** `!zipFile || !title || !author || !projectId` rejects. */
  predicate ValidUpload(req: UploadRequest) {
    req.zipFile && Truthy(req.title) && Truthy(req.author) && Truthy(req.projectId)
  }

  /** The absolute path of a project's Build folder. */
  function BuildPath(buildsDir: string, projectId: string): string {
    Join(Join(buildsDir, projectId), BuildName)
  }

  // ---------------------------------------------------------------- extraction and relocation

  /** The archive's entries written over the folder, one after the other. */
  function Overlay(base: seq<Item>, entries: seq<Item>): seq<Item>
    decreases |entries|
  {
    if entries == [] then base else Overlay(Put(base, entries[0]), entries[1..])
  }

  /** An archive with unique names wins over the folder for its names and leaves the folder's other entries. */
  lemma {:induction false} OverlayLookup(base: seq<Item>, entries: seq<Item>, n: string)
    requires UniqueNames(entries)
    decreases |entries|
    ensures Lookup(Overlay(base, entries), n) == if Lookup(entries, n).Some? then Lookup(entries, n) else Lookup(base, n)
  {
    if entries != [] {
      forall i, j | 0 <= i < j < |entries[1..]| ensures entries[1..][i].name != entries[1..][j].name {
        assert entries[1..][i] == entries[i + 1] && entries[1..][j] == entries[j + 1];
      }
      OverlayLookup(Put(base, entries[0]), entries[1..], n);
      if entries[0].name == n {
        assert Lookup(entries[1..], n).None? by {
          forall i | 0 <= i < |entries[1..]| ensures entries[1..][i].name != n {
            assert entries[1..][i] == entries[i + 1];
          }
        }
      }
    }
  }

  /** The listing with the entry at path `p` taken out of its parent directory. */
  function RemoveAt(items: seq<Item>, p: Path): seq<Item>
    requires |p| > 0
    decreases |p|
  {
    if |p| == 1 then Without(items, p[0])
    else match Lookup(items, p[0])
      case Some(Dir(n, xs)) => Put(items, Dir(n, RemoveAt(xs, p[1..])))
      case _ => items
  }

  /** Taking out an entry below the top-level entry `p[0]` leaves every other top-level entry alone. */
  lemma RemoveAtOthers(items: seq<Item>, p: Path, m: string)
    requires |p| > 0 && m != p[0]
    ensures Lookup(RemoveAt(items, p), m) == Lookup(items, m)
  {
  }

  /**
   * `fs.renameSync(found, extractDir/Build)` unless the found folder already
   * is `extractDir/Build`; the rename fails when the project folder has an
   * entry called Build (a file, since a directory would have been found).
   */
  function Relocate(root: seq<Item>, p: Path, build: seq<Item>): Option<seq<Item>>
    requires |p| > 0
  {
    if p == [BuildName] then Some(root)
    else if Lookup(root, BuildName).Some? then None
    else Some(Put(RemoveAt(root, p), Dir(BuildName, build)))
  }

  /**
   * After a successful relocation the project folder holds the found Build
   * folder at its top, and every top-level entry other than Build and the
   * one the found folder was below is unchanged.
   */
  lemma RelocateEffect(root: seq<Item>, p: Path, build: seq<Item>)
    requires |p| > 0 && (p == [BuildName] ==> Lookup(root, BuildName) == Some(Dir(BuildName, build)))
    requires Relocate(root, p, build).Some?
    ensures Lookup(Relocate(root, p, build).value, BuildName) == Some(Dir(BuildName, build))
    ensures forall m :: m != BuildName && m != p[0] ==> Lookup(Relocate(root, p, build).value, m) == Lookup(root, m)
  {
    if p != [BuildName] {
      forall m | m != BuildName && m != p[0] ensures Lookup(Relocate(root, p, build).value, m) == Lookup(root, m) {
        RemoveAtOthers(root, p, m);
      }
    }
  }

  // ---------------------------------------------------------------- the pipeline after extraction

  /** The outcome of the `close` handler up to the catalog write, and the project folder it leaves. */
  datatype Ingest = Ingest(failure: Option<Failure>, root: seq<Item>, strays: map<string, Bytes>)

  /**
   * Base-name detection, renaming and decompression of the relocated Build
   * folder `build`, written back into the project folder `root`.
   */
  function Normalise(root: seq<Item>, build: seq<Item>, projectId: string, buildPath: string, env: UploadEnv): Ingest {
    match FindLoader(Names(build))
    case None => Ingest(Some(LoaderNotFound), root, map[])
    case Some(li) =>
      var base := BaseName(Names(build)[li]);
      var renamed := if base != projectId then RenameSteps(build, base, projectId, |Extensions|) else build;
      var (ok, s) := DecompressFolder(FolderState(renamed, map[]), buildPath, env.listOk, env.io);
      Ingest(if ok then None else Some(DecompressFailed), Put(root, Dir(BuildName, s.items)), s.outside)
  }

  /**
   * "Loader file not found" is answered exactly when no entry of the Build
   * folder ends in ".loader.js"; otherwise the folder is renamed from the
   * base name of the first loader, and skipping the renaming when that base
   * name already is the project id is the same as renaming.
   */
  lemma NormaliseLoader(root: seq<Item>, build: seq<Item>, projectId: string, buildPath: string, env: UploadEnv)
    ensures Normalise(root, build, projectId, buildPath, env).failure == Some(LoaderNotFound)
            <==> forall j :: 0 <= j < |build| ==> !EndsWith(build[j].name, LoaderExt)
    ensures FindLoader(Names(build)).Some? ==>
              var base := BaseName(build[FindLoader(Names(build)).value].name);
              var renamed := RenameSteps(build, base, projectId, |Extensions|);
              var s := DecompressFolder(FolderState(renamed, map[]), buildPath, env.listOk, env.io);
              Normalise(root, build, projectId, buildPath, env) == Ingest(if s.0 then None else Some(DecompressFailed), Put(root, Dir(BuildName, s.1.items)), s.1.outside)
  {
    match FindLoader(Names(build))
    case None =>
    case Some(li) =>
      var base := BaseName(build[li].name);
      if base == projectId {
        RenameSameBase(build, base, |Extensions|);
      }
  }

  // ---------------------------------------------------------------- renaming before decompressing

  /** A loader `Game.loader.js` and its compressed code `Game.wasm.gz`, as a compressed Unity build ships them. */
  const SampleLoader: string := "Game" + LoaderExt
  const SampleCode: string := "Game.wasm" + GzipExt

  lemma SampleBaseName()
    ensures BaseName(SampleLoader) == "Game"
  {
    var s := SampleLoader;
    assert !OccursAt(s, LoaderExt, 0) by { assert s[0] != LoaderExt[0]; }
    assert !OccursAt(s, LoaderExt, 1) by { assert s[1] != LoaderExt[0]; }
    assert !OccursAt(s, LoaderExt, 2) by { assert s[2] != LoaderExt[0]; }
    assert !OccursAt(s, LoaderExt, 3) by { assert s[3] != LoaderExt[0]; }
    assert IsFirstOccurrence(s, LoaderExt, 4);
    RemoveFirstCuts(s, LoaderExt);
    assert s[..4] + s[14..] == "Game";
  }

  /** The code artifact of base name `Game` is `Game.wasm`. */
  lemma SampleCodeName()
    ensures "Game" + Extensions[3] == "Game.wasm"
  {
    assert Extensions[3] == ".wasm";
  }

  /** In a folder path without ".gz", `Game.wasm.gz` is decompressed to `Game.wasm` in that folder. */
  lemma SampleCodeTarget(buildPath: string)
    requires forall j: nat :: !OccursAt(buildPath, GzipExt, j)
    ensures EntryIn(buildPath, DecompressedPath(buildPath, SampleCode, GzipExt)) == Some("Game.wasm")
  {
    var f := SampleCode;
    forall j: nat | j < |f| - |GzipExt| ensures !OccursAt(f, GzipExt, j) {
      assert f[j..j + 3][1] == f[j + 1];
      assert f[j + 1] != 'g' by {
        if j + 1 < 9 {
          assert f[j + 1] == "Game.wasm"[j + 1];
        } else {
          assert f[9] == '.';
        }
      }
    }
    DecompressedPathInFolder(buildPath, f, GzipExt);
    assert f[..9] == "Game.wasm";
  }

  /** A loader name ends in "s", so it is never taken for a compressed file. */
  lemma LoaderNotCompressed(x: string)
    ensures !IsCompressedName(x + LoaderExt)
  {
    var n := x + LoaderExt;
    assert n[|n| - 1] == 's';
    assert n[|n| - 3..][2] == n[|n| - 1];
  }

  /** The first rename of the sample build: `Game.loader.js` becomes `SpaceRun.loader.js` in place. */
  lemma SampleLoaderMoved(l: Bytes, w: Bytes)
    ensures RenameStep([File(SampleLoader, l), File(SampleCode, w)], "Game" + Extensions[0], "SpaceRun" + Extensions[0])
            == [File("SpaceRun" + LoaderExt, l), File(SampleCode, w)]
  {
    var code := File(SampleCode, w);
    var build := [File(SampleLoader, l), code];
    var a := File("SpaceRun" + LoaderExt, l);
    assert Extensions[0] == LoaderExt;
    assert |SampleLoader| == 14 && |SampleCode| == 12 && |a.name| == 18;
    assert build[1..] == [code];
    assert Without([code], a.name) == [code] + Without([], a.name);
    assert Without(build, a.name) == build;
    assert Relabel([code], SampleLoader, a.name) == [code] + Relabel([], SampleLoader, a.name);
  }

  /** `renameBuildFiles(dir, "SpaceRun", "Game")` on the sample build moves the loader alone. */
  lemma SampleRenamed(l: Bytes, w: Bytes)
    ensures RenameSteps([File(SampleLoader, l), File(SampleCode, w)], "Game", "SpaceRun", |Extensions|)
            == [File("SpaceRun" + LoaderExt, l), File(SampleCode, w)]
  {
    var renamed := [File("SpaceRun" + LoaderExt, l), File(SampleCode, w)];
    SampleLoaderMoved(l, w);
    assert |renamed[0].name| == 18 && |renamed[1].name| == 12;
    assert renamed[1..] == [renamed[1]];
    forall k | 1 <= k < |Extensions| ensures Lookup(renamed, "Game" + Extensions[k]).None? {
      assert |Extensions[k]| in {5, 13};
    }
    var build := [File(SampleLoader, l), File(SampleCode, w)];
    assert RenameSteps(build, "Game", "SpaceRun", 1) == renamed;
    assert RenameSteps(build, "Game", "SpaceRun", 2) == renamed;
    assert RenameSteps(build, "Game", "SpaceRun", 3) == renamed;
  }

  /**
   * A two-entry folder whose second entry `Game.wasm.gz` is the only
   * compressed one ends with the first entry and `Game.wasm`, in that order.
   */
  lemma SampleDecompressed(first: Item, buildPath: string, io: Io, w: Bytes, orig: Bytes)
    requires !IsCompressedName(first.name) && |first.name| != |SampleCode| && |first.name| != 9
    requires io.gunzip(w) == Some(orig)
    requires io.canWrite(DecompressedPath(buildPath, SampleCode, GzipExt))
    requires forall j: nat :: !OccursAt(buildPath, GzipExt, j)
    ensures DecompressFolder(FolderState([first, File(SampleCode, w)], map[]), buildPath, true, io)
            == (true, FolderState([first, File("Game.wasm", orig)], map[]))
  {
    var code := File(SampleCode, w);
    var x := File("Game.wasm", orig);
    var items := [first, code];
    assert |code.name| == 12 && |x.name| == 9;
    assert items[1..] == [code];
    assert Lookup(items, SampleCode) == Some(code);
    SampleCodeTarget(buildPath);
    DecompressSingleArtifact(FolderState(items, map[]), buildPath, 1, io, w, orig);
    WriteThenRemove(first, code, x);
  }

  /** Writing a third entry into a two-entry listing and removing the second leaves the first and the new one. */
  lemma WriteThenRemove(first: Item, code: Item, x: Item)
    requires first.name != code.name && first.name != x.name && code.name != x.name
    ensures Without(Put([first, code], x), code.name) == [first, x]
  {
    PutNew([first, code], x);
    assert [first, code] + [x] == [first, code, x];
    WithoutAbsent([x], code.name);
    assert [first, code, x][1..] == [code, x] && [code, x][1..] == [x];
    assert Without([first, code, x], code.name) == [first] + Without([code, x], code.name);
  }

  /**
   * The upload pipeline renames before it decompresses, and only the four
   * uncompressed names are renamed: a build `Game.loader.js`, `Game.wasm.gz`
   * uploaded as project `SpaceRun` ends with `SpaceRun.loader.js` and
   * `Game.wasm`, so the record's `codeUrl`, which names
   * `SpaceRun/Build/SpaceRun.wasm`, points at no file.
   */
  lemma CompressedCodeKeepsItsName(root: seq<Item>, buildPath: string, env: UploadEnv, l: Bytes, w: Bytes, orig: Bytes)
    requires env.listOk && env.io.gunzip(w) == Some(orig)
    requires env.io.canWrite(DecompressedPath(buildPath, SampleCode, GzipExt))
    requires forall j: nat :: !OccursAt(buildPath, GzipExt, j)
    ensures var ing := Normalise(root, [File(SampleLoader, l), File(SampleCode, w)], "SpaceRun", buildPath, env);
            && ing.failure.None?
            && Lookup(ing.root, BuildName) == Some(Dir(BuildName, [File("SpaceRun" + LoaderExt, l), File("Game.wasm", orig)]))
            && Lookup(Lookup(ing.root, BuildName).value.items, "SpaceRun" + Extensions[3]).None?
  {
    var build := [File(SampleLoader, l), File(SampleCode, w)];
    var a := File("SpaceRun" + LoaderExt, l);
    assert Names(build) == [SampleLoader, SampleCode];
    assert FindLoader(Names(build)) == Some(0);
    SampleBaseName();
    SampleRenamed(l, w);
    LoaderNotCompressed("SpaceRun");
    assert |a.name| == 18;
    SampleDecompressed(a, buildPath, env.io, w, orig);
    var out := [a, File("Game.wasm", orig)];
    assert Lookup(out, "SpaceRun" + Extensions[3]).None?;
  }

  /** The record of project `SpaceRun` expects its code at `/builds/SpaceRun/Build/SpaceRun.wasm`. */
  lemma SampleCodeUrl()
    ensures NewGame("SpaceRun", "", "", None, "").build.codeUrl == "/builds/" + "SpaceRun" + "/Build/" + ("SpaceRun" + Extensions[3])
  {
    NewGameRecord("SpaceRun", "", "", None, "");
    assert UrlAt(NewGame("SpaceRun", "", "", None, "").build, 3) == NewGame("SpaceRun", "", "", None, "").build.codeUrl;
  }

  /**
   * The order the record's URLs presuppose: decompress the Build folder
   * first, then take the base name from its loader and rename.
   */
  function NormaliseDecompressFirst(root: seq<Item>, build: seq<Item>, projectId: string, buildPath: string, env: UploadEnv): Ingest {
    var (ok, s) := DecompressFolder(FolderState(build, map[]), buildPath, env.listOk, env.io);
    match FindLoader(Names(s.items))
    case None => Ingest(Some(LoaderNotFound), Put(root, Dir(BuildName, s.items)), s.outside)
    case Some(li) =>
      var base := BaseName(Names(s.items)[li]);
      var renamed := if base != projectId then RenameSteps(s.items, base, projectId, |Extensions|) else s.items;
      Ingest(if ok then None else Some(DecompressFailed), Put(root, Dir(BuildName, renamed)), s.outside)
  }

  /**
   * Decompressing first, every artifact `base+ext` that the decompressed
   * folder holds, whether it was shipped plain or compressed, is served
   * under `projectId+ext`, the name the record's URL gives it.
   */
  lemma DecompressFirstServesArtifacts(root: seq<Item>, build: seq<Item>, projectId: string, buildPath: string, env: UploadEnv)
    ensures var s := DecompressFolder(FolderState(build, map[]), buildPath, env.listOk, env.io).1;
            var ing := NormaliseDecompressFirst(root, build, projectId, buildPath, env);
            FindLoader(Names(s.items)).Some? ==>
              var base := BaseName(s.items[FindLoader(Names(s.items)).value].name);
              && Lookup(ing.root, BuildName).Some? && Lookup(ing.root, BuildName).value.Dir?
              && forall k :: 0 <= k < |Extensions| && Lookup(s.items, base + Extensions[k]).Some? ==>
                   Lookup(Lookup(ing.root, BuildName).value.items, projectId + Extensions[k])
                     == Some(WithName(Lookup(s.items, base + Extensions[k]).value, projectId + Extensions[k]))
  {
    var s := DecompressFolder(FolderState(build, map[]), buildPath, env.listOk, env.io).1;
    if FindLoader(Names(s.items)).Some? {
      var base := BaseName(s.items[FindLoader(Names(s.items)).value].name);
      if base != projectId {
        RenameBuildFilesCases(s.items, base, projectId);
      } else {
        forall k | 0 <= k < |Extensions| && Lookup(s.items, base + Extensions[k]).Some?
          ensures Lookup(s.items, projectId + Extensions[k])
                    == Some(WithName(Lookup(s.items, base + Extensions[k]).value, projectId + Extensions[k]))
        {
          match Lookup(s.items, base + Extensions[k]).value
          case File(_, _) =>
          case Dir(_, _) =>
        }
      }
    }
  }

  /** Decompressing first, the sample build ends with `SpaceRun.wasm` holding the decompressed code. */
  lemma DecompressFirstRenamesCompressedCode(root: seq<Item>, buildPath: string, env: UploadEnv, l: Bytes, w: Bytes, orig: Bytes)
    requires env.listOk && env.io.gunzip(w) == Some(orig)
    requires env.io.canWrite(DecompressedPath(buildPath, SampleCode, GzipExt))
    requires forall j: nat :: !OccursAt(buildPath, GzipExt, j)
    ensures var ing := NormaliseDecompressFirst(root, [File(SampleLoader, l), File(SampleCode, w)], "SpaceRun", buildPath, env);
            && ing.failure.None?
            && Lookup(ing.root, BuildName).Some? && Lookup(ing.root, BuildName).value.Dir?
            && Lookup(Lookup(ing.root, BuildName).value.items, "SpaceRun" + Extensions[3]) == Some(File("SpaceRun" + Extensions[3], orig))
  {
    var build := [File(SampleLoader, l), File(SampleCode, w)];
    LoaderNotCompressed("Game");
    assert |SampleLoader| == 14;
    SampleDecompressed(File(SampleLoader, l), buildPath, env.io, w, orig);
    SampleDecompressedListing(l, orig);
    DecompressFirstServesArtifacts(root, build, "SpaceRun", buildPath, env);
  }

  /** The decompressed sample listing: its loader comes first, with base name `Game`, and it holds `Game.wasm`. */
  lemma SampleDecompressedListing(l: Bytes, orig: Bytes)
    ensures var d := [File(SampleLoader, l), File("Game.wasm", orig)];
            && FindLoader(Names(d)) == Some(0) && BaseName(d[0].name) == "Game"
            && Lookup(d, "Game" + Extensions[3]) == Some(File("Game.wasm", orig))
  {
    var d := [File(SampleLoader, l), File("Game.wasm", orig)];
    assert Names(d) == [SampleLoader, "Game.wasm"];
    SampleBaseName();
    SampleCodeName();
    assert |SampleLoader| == 14 && d[1..] == [File("Game.wasm", orig)];
  }

  /** Everything the `close` handler does before the catalog is touched. */
  function IngestSpec(root: seq<Item>, projectId: string, buildPath: string, env: UploadEnv): Ingest {
    match Find(Dir(projectId, root))
    case None => Ingest(Some(BuildFolderNotFound), root, map[])
    case Some(p) =>
      match ItemAt(Dir(projectId, root), p)
      // not reached in a well-formed tree (`FileTree.FindSound`)
      case None => Ingest(Some(BuildFolderNotFound), root, map[])
      case Some(found) =>
        if found.File? then Ingest(Some(BuildFolderNotFound), root, map[])
        else match Relocate(root, p, found.items)
          case None => Ingest(Some(RelocateFailed), root, map[])
          case Some(root1) => Normalise(root1, found.items, projectId, buildPath, env)
  }

  /**
   * In a well-formed tree "Build folder not found" is answered exactly when
   * the archive holds no directory named Build at any depth.
   */
  lemma IngestFindsBuild(root: seq<Item>, projectId: string, buildPath: string, env: UploadEnv)
    requires Wf(Dir(projectId, root))
    ensures IngestSpec(root, projectId, buildPath, env).failure == Some(BuildFolderNotFound)
            <==> !ContainsBuild(Dir(projectId, root))
  {
    var d := Dir(projectId, root);
    FindComplete(d);
    FindSound(d);
    if Find(d).Some? {
      var p := Find(d).value;
      var found := ItemAt(d, p).value;
      if Relocate(root, p, found.items).Some? {
        var n := Normalise(Relocate(root, p, found.items).value, found.items, projectId, buildPath, env);
        assert n.failure != Some(BuildFolderNotFound);
      }
    }
  }

  /**
   * Once the archive got past the search and the relocation, the project
   * folder ends with a directory called Build at its top, whether the rest
   * of the pipeline succeeds or not.
   */
  lemma IngestLeavesBuild(root: seq<Item>, projectId: string, buildPath: string, env: UploadEnv)
    requires IngestSpec(root, projectId, buildPath, env).failure !in {Some(BuildFolderNotFound), Some(RelocateFailed)}
    ensures Lookup(IngestSpec(root, projectId, buildPath, env).root, BuildName).Some?
    ensures Lookup(IngestSpec(root, projectId, buildPath, env).root, BuildName).value.Dir?
  {
    var d := Dir(projectId, root);
    var p := Find(d).value;
    var found := ItemAt(d, p).value;
    if p == [BuildName] {
      assert ItemAt(d, p) == ItemAt(Lookup(root, BuildName).value, []);
    }
    RelocateEffect(root, p, found.items);
  }

  // ---------------------------------------------------------------- the handlers

  /** `POST /upload` from the request body to the response, with the state it leaves. */
  function UploadSpec(st: ServerState, buildsDir: string, req: UploadRequest, env: UploadEnv): (Response, ServerState) {
    if !ValidUpload(req) then (Failed(MissingFields), st)
    else
      var projectId := req.projectId.value;
      var games := st.catalog.GetOr([]);
      var folderExists := projectId in st.builds;
      var gameIndex := FindIndex(games, projectId);
      if (folderExists || gameIndex.Some?) && req.overwrite != Some("true") then (Failed(AlreadyExists), st)
      else if folderExists && !env.rmOk then (Failed(FolderDeleteFailed), st)
      else
        var kept := if gameIndex.Some? then DropAt(games, gameIndex.value) else games;
        FillSpec(st.(builds := st.builds[projectId := []]), buildsDir, kept, req, env)
  }

  /**
   * From the freshly made, empty project folder on: the thumbnail is moved
   * in, the archive extracted over it and ingested, and `games` (the catalog
   * with the replaced record spliced out) completed and written.
   */
  function FillSpec(st: ServerState, buildsDir: string, games: seq<Game>, req: UploadRequest, env: UploadEnv): (Response, ServerState)
    requires ValidUpload(req)
  {
    var projectId := req.projectId.value;
    if req.thumbnail.Some? && !env.thumbMoveOk then (Failed(ThumbnailFailed), st)
    else
      var start := if req.thumbnail.Some? then [File(ThumbnailName, req.thumbnail.value)] else [];
      if env.extracted.None? then (Failed(ExtractFailed), st.(builds := st.builds[projectId := start]))
      else
        var ing := IngestSpec(Overlay(start, env.extracted.value), projectId, BuildPath(buildsDir, projectId), env);
        FinishSpec(st, games, req, env, ing)
  }

  /** The ingestion's outcome stored, and on its success the new record pushed and the catalog written. */
  function FinishSpec(st: ServerState, games: seq<Game>, req: UploadRequest, env: UploadEnv, ing: Ingest): (Response, ServerState)
    requires ValidUpload(req)
  {
    var projectId := req.projectId.value;
    var st1 := st.(builds := st.builds[projectId := ing.root], strays := st.strays + ing.strays);
    if ing.failure.Some? then (Failed(ing.failure.value), st1)
    else if !env.writeOk then (Failed(CatalogWriteFailed), st1)
    else
      var game := NewGame(projectId, req.title.value, req.author.value, req.moduleCode, env.now);
      (UploadOk(game), st1.(catalog := Some(games + [game])))
  }

  /** A request missing the zip, the title, the author or the project id changes nothing. */
  lemma UploadRejectsMissingFields(st: ServerState, buildsDir: string, req: UploadRequest, env: UploadEnv)
    requires !req.zipFile || !Truthy(req.title) || !Truthy(req.author) || !Truthy(req.projectId)
    ensures UploadSpec(st, buildsDir, req, env) == (Failed(MissingFields), st)
  {
  }

  /**
   * A valid request for an identifier that has a folder or a catalog record,
   * without `overwrite` exactly "true", changes nothing.
   */
  lemma UploadRejectsConflict(st: ServerState, buildsDir: string, req: UploadRequest, env: UploadEnv)
    requires ValidUpload(req) && req.overwrite != Some("true")
    requires var id := req.projectId.value;
             id in st.builds || exists j :: 0 <= j < |st.catalog.GetOr([])| && st.catalog.GetOr([])[j].id == id
    ensures UploadSpec(st, buildsDir, req, env) == (Failed(AlreadyExists), st)
  {
  }

  /**
   * A successful upload writes the previous catalog (empty when it could not
   * be read) with the first record of the identifier replaced by the new
   * record at the end, and reports that record; the new project folder is
   * the ingested archive (with the thumbnail) alone, whatever the folder held
   * before, and has its Build folder at the top.
   */
  lemma UploadSuccess(st: ServerState, buildsDir: string, req: UploadRequest, env: UploadEnv)
    requires UploadSpec(st, buildsDir, req, env).0.UploadOk?
    ensures var (resp, st') := UploadSpec(st, buildsDir, req, env);
            var id := req.projectId.value;
            var games := st.catalog.GetOr([]);
            && ValidUpload(req)
            && resp.game == NewGame(id, req.title.value, req.author.value, req.moduleCode, env.now)
            && st'.catalog == Some(Uploaded(games, resp.game))
            && WithoutId(st'.catalog.value, id) == WithoutId(games, id)
            && (Count(games, id) <= 1 ==> Count(st'.catalog.value, id) == 1)
            && id in st'.builds && Lookup(st'.builds[id], BuildName).Some? && Lookup(st'.builds[id], BuildName).value.Dir?
            && var start := if req.thumbnail.Some? then [File(ThumbnailName, req.thumbnail.value)] else [];
               var ing := IngestSpec(Overlay(start, env.extracted.value), id, BuildPath(buildsDir, id), env);
               && st'.builds[id] == ing.root
               && st'.strays == st.strays + ing.strays
  {
    var id := req.projectId.value;
    var games := st.catalog.GetOr([]);
    var start := if req.thumbnail.Some? then [File(ThumbnailName, req.thumbnail.value)] else [];
    IngestLeavesBuild(Overlay(start, env.extracted.value), id, BuildPath(buildsDir, id), env);
    var g := NewGame(id, req.title.value, req.author.value, req.moduleCode, env.now);
    assert Uploaded(games, g) == (if FindIndex(games, id).Some? then DropAt(games, FindIndex(games, id).value) else games) + [g];
    UploadedCatalog(games, g);
  }

  /** The failures the `close` handler can answer before the catalog is touched. */
  const IngestFailures: set<Failure> := {BuildFolderNotFound, RelocateFailed, LoaderNotFound, DecompressFailed}

  /** The ingestion always fails with one of the answers of the `close` handler. */
  lemma IngestFailureKind(root: seq<Item>, projectId: string, buildPath: string, env: UploadEnv)
    ensures IngestSpec(root, projectId, buildPath, env).failure.Some? ==>
              IngestSpec(root, projectId, buildPath, env).failure.value in IngestFailures
  {
  }

  /**
   * A valid request that got past the conflict check and the removal of
   * the old project folder.
   */
  predicate Admitted(st: ServerState, req: UploadRequest, env: UploadEnv) {
    && ValidUpload(req)
    && var id := req.projectId.value;
       && ((id in st.builds || FindIndex(st.catalog.GetOr([]), id).Some?) ==> req.overwrite == Some("true"))
       && (id in st.builds ==> env.rmOk)
  }

  /** An admitted request whose thumbnail (if any) was moved in and whose archive was extracted. */
  predicate Extracted(st: ServerState, req: UploadRequest, env: UploadEnv) {
    Admitted(st, req, env) && (req.thumbnail.None? || env.thumbMoveOk) && env.extracted.Some?
  }

  /** The ingestion of an extracted archive over the folder holding the thumbnail. */
  function Ingested(buildsDir: string, req: UploadRequest, env: UploadEnv): Ingest
    requires ValidUpload(req) && env.extracted.Some?
  {
    var id := req.projectId.value;
    var start := if req.thumbnail.Some? then [File(ThumbnailName, req.thumbnail.value)] else [];
    IngestSpec(Overlay(start, env.extracted.value), id, BuildPath(buildsDir, id), env)
  }

  /**
   * Which cause gives which answer: every step of the upload fails exactly
   * when its own cause holds and every earlier step passed, and the upload
   * succeeds exactly when each step passes. The thumbnail is optional: a
   * request without one never fails on it.
   */
  lemma UploadOutcome(st: ServerState, buildsDir: string, req: UploadRequest, env: UploadEnv)
    ensures var resp := UploadSpec(st, buildsDir, req, env).0;
            && (resp == Failed(MissingFields) <==> !ValidUpload(req))
            && (resp == Failed(AlreadyExists) <==>
                  ValidUpload(req) && req.overwrite != Some("true")
                  && (req.projectId.value in st.builds || FindIndex(st.catalog.GetOr([]), req.projectId.value).Some?))
            && (resp == Failed(FolderDeleteFailed) <==>
                  ValidUpload(req) && req.projectId.value in st.builds && req.overwrite == Some("true") && !env.rmOk)
            && (resp == Failed(ThumbnailFailed) <==> Admitted(st, req, env) && req.thumbnail.Some? && !env.thumbMoveOk)
            && (resp == Failed(ExtractFailed) <==>
                  Admitted(st, req, env) && (req.thumbnail.None? || env.thumbMoveOk) && env.extracted.None?)
            && (forall f :: f in IngestFailures ==>
                  (resp == Failed(f) <==> Extracted(st, req, env) && Ingested(buildsDir, req, env).failure == Some(f)))
            && (resp == Failed(CatalogWriteFailed) <==>
                  Extracted(st, req, env) && Ingested(buildsDir, req, env).failure.None? && !env.writeOk)
            && (resp.UploadOk? <==>
                  Extracted(st, req, env) && Ingested(buildsDir, req, env).failure.None? && env.writeOk)
  {
    var resp := UploadSpec(st, buildsDir, req, env).0;
    if Extracted(st, req, env) {
      var id := req.projectId.value;
      var start := if req.thumbnail.Some? then [File(ThumbnailName, req.thumbnail.value)] else [];
      var ing := Ingested(buildsDir, req, env);
      IngestFailureKind(Overlay(start, env.extracted.value), id, BuildPath(buildsDir, id), env);
      UploadReachesFinish(st, buildsDir, req, env);
      FinishAnswer(resp, ing.failure, env.writeOk,
                   NewGame(req.projectId.value, req.title.value, req.author.value, req.moduleCode, env.now));
    } else {
      UploadStopsEarly(st, buildsDir, req, env);
      forall f | f in IngestFailures ensures resp != Failed(f) { }
    }
  }

  /** The answer of the finishing step, for an ingestion that failed with one of its own answers or succeeded. */
  lemma FinishAnswer(resp: Response, failure: Option<Failure>, writeOk: bool, game: Game)
    requires failure.Some? ==> failure.value in IngestFailures
    requires resp == if failure.Some? then Failed(failure.value) else if !writeOk then Failed(CatalogWriteFailed) else UploadOk(game)
    ensures forall f :: f in IngestFailures ==> (resp == Failed(f) <==> failure == Some(f))
    ensures resp == Failed(CatalogWriteFailed) <==> failure.None? && !writeOk
    ensures resp.UploadOk? <==> failure.None? && writeOk
    ensures resp !in {Failed(MissingFields), Failed(AlreadyExists), Failed(FolderDeleteFailed), Failed(ThumbnailFailed), Failed(ExtractFailed)}
  {
  }

  /** An upload stopped before ingestion answers one of the early failures. */
  lemma UploadStopsEarly(st: ServerState, buildsDir: string, req: UploadRequest, env: UploadEnv)
    requires !Extracted(st, req, env)
    ensures UploadSpec(st, buildsDir, req, env).0 in
              {Failed(MissingFields), Failed(AlreadyExists), Failed(FolderDeleteFailed), Failed(ThumbnailFailed), Failed(ExtractFailed)}
  {
  }

  /** An extracted upload answers what the finishing step answers for its ingestion. */
  lemma UploadReachesFinish(st: ServerState, buildsDir: string, req: UploadRequest, env: UploadEnv)
    requires Extracted(st, req, env)
    ensures var ing := Ingested(buildsDir, req, env);
            UploadSpec(st, buildsDir, req, env).0
              == if ing.failure.Some? then Failed(ing.failure.value)
                 else if !env.writeOk then Failed(CatalogWriteFailed)
                 else UploadOk(NewGame(req.projectId.value, req.title.value, req.author.value, req.moduleCode, env.now))
  {
  }

  /**
   * A failed upload never writes the catalog, and no upload changes another
   * identifier's entry in `builds`; what a decompression writes outside the
   * new Build folder is recorded in `strays` instead (see
   * `UploadStrayInOtherProject` for where such a path can land).
   */
  lemma UploadFrame(st: ServerState, buildsDir: string, req: UploadRequest, env: UploadEnv)
    ensures var (resp, st') := UploadSpec(st, buildsDir, req, env);
            && (!resp.UploadOk? ==> st'.catalog == st.catalog)
            && (forall q :: ValidUpload(req) && q != req.projectId.value ==>
                  (q in st'.builds <==> q in st.builds) && (q in st.builds ==> st'.builds[q] == st.builds[q]))
            && (!ValidUpload(req) ==> st' == st)
  {
  }

  /**
   * The stray output of an upload can lie in another project's Build folder:
   * for a project called `my.brick`, `a.wasm.br` in its Build folder is
   * decompressed to `a.wasm.br` in the Build folder of project `myick`, a
   * path outside the uploaded folder.
   */
  lemma UploadStrayInOtherProject()
    ensures DecompressedPath(BuildPath("/g", "my.brick"), "a.wasm.br", BrotliExt) == Join(BuildPath("/g", "myick"), "a.wasm.br")
    ensures EntryIn(BuildPath("/g", "my.brick"), Join(BuildPath("/g", "myick"), "a.wasm.br")).None?
  {
    assert BuildPath("/g", "my.brick") == EscapingFolder;
    assert Join(BuildPath("/g", "myick"), "a.wasm.br") == EscapingTarget;
    DecompressedPathEscapes();
  }

  /** An unreadable catalog counts as empty: a successful upload replaces it by the new record alone. */
  lemma UploadOverUnreadableCatalog(st: ServerState, buildsDir: string, req: UploadRequest, env: UploadEnv)
    requires st.catalog.None?
    ensures var (resp, st') := UploadSpec(st, buildsDir, req, env);
            resp.UploadOk? ==> st'.catalog == Some([resp.game])
  {
    var (resp, st') := UploadSpec(st, buildsDir, req, env);
    if resp.UploadOk? {
      assert [] + [resp.game] == [resp.game];
    }
  }

  /** `PUT /games/:id`, with `writeOk` whether `games.json` can be written. */
  function UpdateSpec(st: ServerState, id: string, p: Patch, writeOk: bool): (Response, ServerState) {
    match st.catalog
    case None => (Failed(CatalogReadFailed), st)
    case Some(games) =>
      match Updated(games, id, p)
      case None => (Failed(GameNotFound), st)
      case Some(gs) =>
        if !writeOk then (Failed(CatalogWriteFailed), st)
        else (UpdateOk(gs[FindIndex(games, id).value]), st.(catalog := Some(gs)))
  }

  /**
   * An update fails without change when the catalog cannot be read, when no
   * record has the identifier, or (exactly then, once a record is found)
   * when the write fails; otherwise it patches
   * the first record with the identifier and no other, reports that record,
   * and leaves the project folders alone.
   */
  lemma UpdateEffect(st: ServerState, id: string, p: Patch, writeOk: bool)
    ensures var (resp, st') := UpdateSpec(st, id, p, writeOk);
            && st'.builds == st.builds && st'.strays == st.strays
            && (st.catalog.None? ==> resp == Failed(CatalogReadFailed))
            && (st.catalog.Some? && (forall j :: 0 <= j < |st.catalog.value| ==> st.catalog.value[j].id != id) ==>
                  resp == Failed(GameNotFound))
            && (!resp.UpdateOk? ==> st' == st)
            && (resp == Failed(CatalogWriteFailed) <==> st.catalog.Some? && FindIndex(st.catalog.value, id).Some? && !writeOk)
            && (st.catalog.Some? && FindIndex(st.catalog.value, id).Some? && writeOk ==> resp.UpdateOk?)
            && (resp.UpdateOk? ==>
                  var games := st.catalog.value;
                  var i := FindIndex(games, id).value;
                  && st'.catalog == Some(games[i := ApplyPatch(games[i], p)])
                  && resp.game == ApplyPatch(games[i], p)
                  && resp.game.id == id
                  && WithoutId(st'.catalog.value, id) == WithoutId(games, id))
  {
    var (resp, st') := UpdateSpec(st, id, p, writeOk);
    if resp.UpdateOk? {
      UpdatedOnlyFirst(st.catalog.value, id, p);
    }
  }

  /** `DELETE /games/:id`: the folder goes first, then the catalog is read, filtered and written. */
  function DeleteSpec(st: ServerState, id: string, rmOk: bool, writeOk: bool): (Response, ServerState) {
    if id in st.builds && !rmOk then (Failed(FolderDeleteFailed), st)
    else
      var st1 := st.(builds := st.builds - {id});
      match st1.catalog
      case None => (Failed(CatalogReadFailed), st1)
      case Some(games) =>
        if !writeOk then (Failed(CatalogWriteFailed), st1)
        else (DeleteOk, st1.(catalog := Some(WithoutId(games, id))))
  }

  /**
   * Unless the folder removal fails, the project folder is gone whatever
   * happens to the catalog; the deletion succeeds exactly when the folder is
   * gone, the catalog could be read and the write succeeds; the catalog
   * changes only on success, and then holds no record with the identifier
   * and every other record in order.
   */
  lemma DeleteEffect(st: ServerState, id: string, rmOk: bool, writeOk: bool)
    ensures var (resp, st') := DeleteSpec(st, id, rmOk, writeOk);
            && st'.strays == st.strays
            && (resp == Failed(FolderDeleteFailed) <==> id in st.builds && !rmOk)
            && (resp == Failed(FolderDeleteFailed) ==> st' == st)
            && (resp != Failed(FolderDeleteFailed) ==> id !in st'.builds && forall q :: q != id && q in st.builds ==> q in st'.builds && st'.builds[q] == st.builds[q])
            && (!resp.DeleteOk? ==> st'.catalog == st.catalog)
            && (st.catalog.None? && resp != Failed(FolderDeleteFailed) ==> resp == Failed(CatalogReadFailed))
            && (resp == Failed(CatalogWriteFailed) <==> (id !in st.builds || rmOk) && st.catalog.Some? && !writeOk)
            && (resp.DeleteOk? <==> (id !in st.builds || rmOk) && st.catalog.Some? && writeOk)
            && (resp.DeleteOk? ==>
                  && st'.catalog == Some(WithoutId(st.catalog.value, id))
                  && Count(st'.catalog.value, id) == 0
                  && forall q :: q != id ==> Count(st'.catalog.value, q) == Count(st.catalog.value, q))
  {
    var (resp, st') := DeleteSpec(st, id, rmOk, writeOk);
    if resp.DeleteOk? {
      forall q | q != id ensures Count(st'.catalog.value, q) == Count(st.catalog.value, q) {
        WithoutIdCount(st.catalog.value, id, q);
      }
      WithoutIdCount(st.catalog.value, id, id);
    }
  }

  /** The gallery server with its on-disk state. */
  class GalleryServer {
    const buildsDir: string
    var catalog: Option<seq<Game>>
    var builds: map<string, seq<Item>>
    var strays: map<string, Bytes>

    function State(): ServerState
      reads this
    {
      ServerState(catalog, builds, strays)
    }

    constructor (buildsDir: string, catalog: Option<seq<Game>>, builds: map<string, seq<Item>>)
      ensures this.buildsDir == buildsDir && State() == ServerState(catalog, builds, map[])
    {
      this.buildsDir := buildsDir;
      this.catalog := catalog;
      this.builds := builds;
      this.strays := map[];
    }

    /** The `close` handler of the extraction stream, up to the catalog write. */
    method IngestArchive(root: seq<Item>, projectId: string, env: UploadEnv) returns (ing: Ingest)
      ensures ing == IngestSpec(root, projectId, BuildPath(buildsDir, projectId), env)
    {
      var found := FindBuildFolder(Dir(projectId, root));
      if found.None? {
        return Ingest(Some(BuildFolderNotFound), root, map[]);
      }
      var p := found.value;
      var target := ItemAt(Dir(projectId, root), p);
      if target.None? || target.value.File? {
        return Ingest(Some(BuildFolderNotFound), root, map[]);
      }
      var project := root;
      if p != [BuildName] {
        if Lookup(project, BuildName).Some? {
          return Ingest(Some(RelocateFailed), root, map[]);
        }
        project := Put(RemoveAt(project, p), Dir(BuildName, target.value.items));
      }
      var buildFolder := new BuildFolder(BuildPath(buildsDir, projectId), target.value.items);
      var buildFiles := Names(buildFolder.items);
      var loaderFile := FindLoader(buildFiles);
      if loaderFile.None? {
        return Ingest(Some(LoaderNotFound), project, map[]);
      }
      var currentBaseName := BaseName(buildFiles[loaderFile.value]);
      if currentBaseName != projectId {
        buildFolder.RenameBuildFiles(projectId, currentBaseName);
      }
      var ok := buildFolder.DecompressFilesInFolder(env.listOk, env.io);
      project := Put(project, Dir(BuildName, buildFolder.items));
      return Ingest(if ok then None else Some(DecompressFailed), project, buildFolder.outside);
    }

    /** `POST /upload`, up to the creation of the empty project folder. */
    method Upload(req: UploadRequest, env: UploadEnv) returns (resp: Response)
      modifies this
      ensures (resp, State()) == UploadSpec(old(State()), buildsDir, req, env)
    {
      if !req.zipFile || !Truthy(req.title) || !Truthy(req.author) || !Truthy(req.projectId) {
        return Failed(MissingFields);
      }
      var projectId := req.projectId.value;
      var games := catalog.GetOr([]);
      var folderExists := projectId in builds;
      var gameIndex := FindIndex(games, projectId);
      var overwrite := req.overwrite == Some("true");
      if (folderExists || gameIndex.Some?) && !overwrite {
        return Failed(AlreadyExists);
      }
      if folderExists && overwrite {
        if !env.rmOk {
          return Failed(FolderDeleteFailed);
        }
        builds := builds - {projectId};
      }
      if gameIndex.Some? && overwrite {
        games := DropAt(games, gameIndex.value);
      }
      builds := builds[projectId := []];
      assert builds == old(builds)[projectId := []];
      resp := Fill(games, req, env);
    }

    /** The thumbnail move and the extraction into the empty project folder. */
    method Fill(games: seq<Game>, req: UploadRequest, env: UploadEnv) returns (resp: Response)
      requires ValidUpload(req)
      modifies this
      ensures (resp, State()) == FillSpec(old(State()), buildsDir, games, req, env)
    {
      var projectId := req.projectId.value;
      var start := [];
      if req.thumbnail.Some? {
        if !env.thumbMoveOk {
          return Failed(ThumbnailFailed);
        }
        start := [File(ThumbnailName, req.thumbnail.value)];
      }
      builds := builds[projectId := start];
      if env.extracted.None? {
        return Failed(ExtractFailed);
      }
      var ing := IngestArchive(Overlay(builds[projectId], env.extracted.value), projectId, env);
      assert builds[projectId := ing.root] == old(builds)[projectId := ing.root];
      resp := Finish(games, req, env, ing);
    }

    /** The end of the `close` handler: the new record pushed and `games.json` written. */
    method Finish(games: seq<Game>, req: UploadRequest, env: UploadEnv, ing: Ingest) returns (resp: Response)
      requires ValidUpload(req)
      modifies this
      ensures (resp, State()) == FinishSpec(old(State()), games, req, env, ing)
    {
      var projectId := req.projectId.value;
      builds := builds[projectId := ing.root];
      strays := strays + ing.strays;
      if ing.failure.Some? {
        return Failed(ing.failure.value);
      }
      var newGame := NewGame(projectId, req.title.value, req.author.value, req.moduleCode, env.now);
      var written := games + [newGame];
      if !env.writeOk {
        return Failed(CatalogWriteFailed);
      }
      catalog := Some(written);
      return UploadOk(newGame);
    }

    /** `PUT /games/:id`: the fields of the first matching record are assigned in place. */
    method Update(projectId: string, p: Patch, writeOk: bool) returns (resp: Response)
      modifies this
      ensures (resp, State()) == UpdateSpec(old(State()), projectId, p, writeOk)
    {
      if catalog.None? {
        return Failed(CatalogReadFailed);
      }
      var games := catalog.value;
      var gameIndex := FindIndex(games, projectId);
      if gameIndex.None? {
        return Failed(GameNotFound);
      }
      var i := gameIndex.value;
      var game := games[i];
      if Truthy(p.title) { game := game.(title := p.title.value); }
      if Truthy(p.author) { game := game.(author := p.author.value); }
      if p.moduleCode.Some? { game := game.(moduleCode := p.moduleCode.value); }
      if Truthy(p.uploadDate) { game := game.(uploadDate := p.uploadDate.value); }
      games := games[i := game];
      if !writeOk {
        return Failed(CatalogWriteFailed);
      }
      catalog := Some(games);
      return UpdateOk(games[i]);
    }

    /** `DELETE /games/:id` */
    method Delete(projectId: string, rmOk: bool, writeOk: bool) returns (resp: Response)
      modifies this
      ensures (resp, State()) == DeleteSpec(old(State()), projectId, rmOk, writeOk)
    {
      if projectId in builds {
        if !rmOk {
          return Failed(FolderDeleteFailed);
        }
        builds := builds - {projectId};
      }
      assert builds == old(builds) - {projectId};
      if catalog.None? {
        return Failed(CatalogReadFailed);
      }
      var newGames := WithoutId(catalog.value, projectId);
      if !writeOk {
        return Failed(CatalogWriteFailed);
      }
      catalog := Some(newGames);
      return DeleteOk;
    }
  }
}
