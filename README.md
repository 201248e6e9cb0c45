# unity-gallery ingestion and catalog, modelled in Dafny

The gallery server (`server.js`) takes a zipped WebAssembly build and normalises it into a
servable layout. It finds the archive's `Build` directory at any depth and moves it to the top of the
project folder. It reads the artifact family's base name from the first `.loader.js` file
and renames the four artifacts (`.loader.js`, `.data`, `.framework.js`, `.wasm`) to the
project id. It then decompresses `.gz` / `.br` entries in place. Finally it records the game in
the flat catalog `games.json`. Besides upload, the catalog supports partial update and
delete. A proxy route picks which GitHub release asset to stream back.

The model follows the source's own form:

- `strings.dfy`: the JavaScript string built-ins the server relies on.
  - `replace` with a string pattern removes the FIRST occurrence only.
  - `trim`, `endsWith` and truthiness are modelled as ECMAScript defines them.
  - `path.join` is modelled for a normalised directory and a plain entry name.
- `tree.dfy`: the extracted archive, as a tree whose listings are ordered sequences.
  - `findBuildFolder` is an imperative method, proved against a reference search `Find`.
  - Lemmas show that search is sound, complete, first-match and depth independent.
- `buildfolder.dfy`: the Build folder as a class `BuildFolder` whose listing the methods change in place.
  - `renameBuildFiles` is a loop over the suffixes.
  - `decompressFile` and `decompressFilesInFolder` are methods, with the folder's new state tied to spec functions.
  - The gunzip and brotli decoders and the writability of a path are parameters (the `Io` record).
- `catalog.dfy`: the pure catalog decisions on `seq<Game>`:
  - the new record and its URLs;
  - the splice-and-push of an upload;
  - the partial update;
  - the delete filter.
- `proxy.dfy`: the asset-resolution choice of the proxy route. The two HTTP answers are parameters.
- `server.dfy`: the class `GalleryServer`, with the catalog, the project folders and the stray outputs as fields.
  - The upload, update and delete handlers are methods, each proved equal to a spec function.
  - Lemmas state what each handler promises.

Note that `server.js` behaves as follows in places where a quick reading suggests otherwise; the model follows the code:

- The base name is the loader's name with the first occurrence of `.loader.js` removed, not with the suffix stripped.
- The decompressed file's path is the full input path with the first occurrence of the extension removed. It is not "the same path with the suffix stripped". A project folder whose own path contains the entry's own extension (`.gz` for a gzip entry, `.br` for a brotli one) therefore receives that entry's output outside the Build folder (`BuildArtifacts.DecompressedPathEscapes`).
- An overwrite removes only the first record with the id. The catalog ends with exactly one such record only when it held at most one before (`Catalog.UploadedCatalog`).
- An update replaces title, author and upload date only when the supplied value is truthy. The module code is replaced whenever it is supplied, even when it is empty.
- The Build folder is renamed before it is decompressed, and only the four uncompressed names are renamed. A compressed artifact such as `Game.wasm.gz` keeps its base name, and its decompressed form `Game.wasm` is not the `SpaceRun.wasm` that the record's `codeUrl` names (`Server.CompressedCodeKeepsItsName`, `Server.SampleCodeUrl`). Decompressing first would serve every artifact under the record's names (`Server.DecompressFirstServesArtifacts`); the upload pipeline keeps the source's order.
- A decompression output that escapes the Build folder can land in another project's Build folder: for project `my.brick` it lands in the folder of project `myick` (`Server.UploadStrayInOtherProject`).

## Model

| member | source | states |
|---|---|---|
| JsStrings.RemoveFirst | server.js:15 | `replace(pat, "")` with a string pattern; the reference definition whose meaning `RemoveFirstCuts` states |
| JsStrings.EndsWith | server.js:232 | `endsWith`: the definition; `FindLoader` and `DecompressPlainEntry` rely on it |
| JsStrings.Join | server.js:41 | `path.join` of a directory and a plain name: the definition; `RemoveFirstInName` states how `replace` acts on a joined path |
| JsStrings.Truthy | server.js:164 | JavaScript truthiness of an optional string: the definition; `NonBlankIsTruthy` and `ApplyPatchFields` state its role |
| JsStrings.NonBlank | server.js:109 | `v && v.trim() !== ""`: the definition; `NonBlankIsTruthy` relates it to truthiness |
| JsStrings.IndexOf | server.js:15 | the result is the leftmost occurrence of the pattern; `None` exactly when there is none |
| JsStrings.RemoveFirstCuts | server.js:15 | `replace(pat, "")` gives the input unchanged when the pattern is absent, else the input with the leftmost occurrence cut out |
| JsStrings.RemoveFirstOfSoleSuffix | server.js:236 | when the pattern occurs only as the suffix, removing the first occurrence strips the suffix |
| JsStrings.RemoveFirstAfterPrefix | server.js:15 | with no occurrence starting inside a prefix, replacing in prefix plus rest replaces in the rest |
| JsStrings.RemoveFirstInName | server.js:15 | when the directory part of a joined path has no occurrence, replacing in the full path acts on the entry name alone |
| JsStrings.Trim | server.js:109 | `trim` removes only white space at both ends, keeps a contiguous slice, and is empty exactly for all-white-space input |
| JsStrings.NonBlankIsTruthy | server.js:109 | `v && v.trim() !== ""` implies truthiness, while `" "` is truthy but blank |
| BuildArtifacts.Names | server.js:38 | the listing's names, one per entry, in listing order |
| FileTree.Lookup | server.js:60 | the entry found under a name has that name and is in the listing; `None` exactly when no entry has it |
| FileTree.LookupAt | server.js:60 | with unique names, looking up any entry's own name finds that entry |
| FileTree.Find | server.js:56-72 | a result ends in `Build`, has no earlier `Build` segment, and is `[Build]` whenever the directory directly holds a `Build` directory |
| FileTree.HasBuildDir | server.js:59-61 | the directory directly holds a directory named `Build`: the definition; `Find` states its role |
| FileTree.ContainsBuild | server.js:56-72 | a directory named `Build` exists at some depth: the definition; `FindComplete` ties it to the search |
| FileTree.FindIn | server.js:64-71 | a hit found below a subdirectory has at least two segments and ends in `Build` |
| FileTree.FindBuildFolder | server.js:56-72 | the loop with early returns computes exactly the reference search `Find` |
| FileTree.FindSound | server.js:56-72 | in a tree with unique names per directory, a found path leads to a directory named `Build` |
| FileTree.FindInSound | server.js:64-71 | the same for the search over the subdirectories |
| FileTree.FindComplete | server.js:56-72 | the search fails exactly when no directory named `Build` exists anywhere below |
| FileTree.FindInComplete | server.js:64-71 | the subdirectory search from position k succeeds exactly when some later subdirectory contains a `Build` directory |
| FileTree.FindFirstHit | server.js:64-69 | without a direct `Build`, the result extends the result of the first subdirectory, in listing order, whose search succeeds |
| FileTree.FindInSkips | server.js:64-69 | subdirectories whose own search fails do not change the result of the scan |
| FileTree.FindNested | server.js:56-72 | a `Build` directory under any number of wrapper directories is found, with the wrappers' names as its path |
| FileTree.Without | server.js:28 | deleting a name removes every entry with it and keeps every other name's entry |
| FileTree.Put | server.js:17 | writing an entry makes it the one under its name and leaves every other name's entry |
| FileTree.PutNew | server.js:17 | writing under a new name appends the entry to the listing |
| FileTree.WithoutAbsent | server.js:28 | deleting a name the listing lacks changes nothing |
| BuildArtifacts.FindLoader | server.js:232 | the first entry ending in `.loader.js`; `None` exactly when no entry does |
| BuildArtifacts.BaseName | server.js:236 | `loaderFile.replace(".loader.js", "")`; its meaning is stated by `BaseNameOfPlainLoader` and `BaseNameOfInnerOccurrence` |
| BuildArtifacts.BaseNameOfPlainLoader | server.js:236 | for a loader holding `.loader.js` only as its suffix, base name plus suffix gives the loader's name back |
| BuildArtifacts.BaseNameOfInnerOccurrence | server.js:236 | `a.loader.jsb.loader.js` has base name `ab.loader.js`, so the loader itself is not renamed |
| BuildArtifacts.Relabel | server.js:81 | the entry called `from` is found under `to`, `from` is gone, and no other name changes |
| BuildArtifacts.Moved | server.js:81 | `renameSync` puts the entry, content kept, under the new name, removes the old name and leaves other names |
| BuildArtifacts.RenameStep | server.js:80-82 | one `existsSync`/`renameSync` iteration: the definition; `RenameIfPresent` and `RenameStepsLookup` state its effect |
| BuildArtifacts.RenameSteps | server.js:75-84 | the listing after the first k iterations of the `forEach`; the reference that `RenameBuildFilesCases` and `RenameStepsLookup` characterise |
| BuildArtifacts.RenameBuildFilesEffect | server.js:75-84 | after all four iterations every name's entry is what the reference `RenamedLookup` prescribes |
| BuildArtifacts.RenameBuildFilesCases | server.js:75-84 | `projectId+ext` takes over `base+ext` with its content when that existed, every `base+ext` is gone, and all other names are untouched |
| BuildArtifacts.RenameSameBase | server.js:239-241 | renaming when the base name already is the project id would change nothing, so skipping it is harmless |
| BuildArtifacts.RenameStepsLookup | server.js:77-83 | after the first n iterations each name's entry follows `RenamedLookup` for the first n suffixes |
| BuildArtifacts.BuildFolder.RenameIfPresent | server.js:78-82 | the listing becomes the reference `RenameStep` of the old one: moved when `from` exists, else unchanged |
| BuildArtifacts.EntryIn | server.js:15 | a result is a plain name that, joined to the folder, gives the output path; there is one whenever the output lies directly inside the folder |
| BuildArtifacts.DecompressedPath | server.js:15 | `filePath.replace(extension, "")` on the joined path: the definition; `DecompressedPathInFolder` and `DecompressedPathEscapes` state where it lies |
| BuildArtifacts.Decoder | server.js:19-22 | the decoder chosen by the extension: the definition; `DecompressOneSuccess` states its use |
| BuildArtifacts.DecompressOne | server.js:12-33 | one `decompressFile`: the reference on which `DecompressOneFailure` and `DecompressOneSuccess` state the outcome |
| BuildArtifacts.DecompressOneFailure | server.js:27-31 | a failed decompression leaves folder and outside files unchanged: the original is deleted only after the write finished |
| BuildArtifacts.DecompressOneSuccess | server.js:15-30 | on success the original is gone, the decoded bytes are at the output path (inside the folder or outside it), and nothing else changed |
| BuildArtifacts.DecompressedPathIsNotSource | server.js:15-28 | an output inside the folder is never the compressed entry itself, so deleting the source keeps the output |
| BuildArtifacts.DecompressedPathInFolder | server.js:15 | when the folder path holds no occurrence of the extension and the entry name holds it only as its suffix, the output is the entry name without its extension, inside the folder |
| BuildArtifacts.DecompressedPathEscapes | server.js:15 | for folder `/g/my.brick/Build` the output of `a.wasm.br` is `/g/myick/Build/a.wasm.br`, which lies outside the folder |
| BuildArtifacts.DecompressEntry | server.js:40-49 | one callback of `files.map`, `.gz` checked before `.br`; its cases are stated by `DecompressPlainEntry` and `DecompressGzipArtifact` |
| BuildArtifacts.DecompressFolder | server.js:36-53 | `decompressFilesInFolder` as a whole; `DecompressFolderSucceeds` states when it succeeds, `DecompressSingleArtifact` what a one-artifact folder becomes |
| BuildArtifacts.Fold | server.js:39-50 | the entries handled in listing order, the aggregate failing if any failed: the definition; `FoldFailureSticks` and `FoldAllSucceed` state its outcome |
| BuildArtifacts.EntryStep | server.js:40-49 | the callback of `files.map` for one folder: the definition; `DecompressFolderSucceeds` states its use |
| BuildArtifacts.IsCompressedName | server.js:42-44 | a name ending in `.gz` or `.br`: the definition; `DecompressPlainEntry` states that other names are no-ops |
| BuildArtifacts.DecompressPlainEntry | server.js:46-48 | an entry without `.gz`/`.br` suffix is a successful no-op |
| BuildArtifacts.DecompressGzipArtifact | server.js:42-45 | a `.gz` entry whose bytes decode to `orig` is replaced by `orig` under the name without `.gz` |
| BuildArtifacts.DecompressFolderFails | server.js:38-50 | an unlistable folder fails and changes nothing; any single failing entry makes the whole operation fail |
| BuildArtifacts.DecompressFolderSucceeds | server.js:36-53 | a folder's decompression succeeds exactly when it can be listed and every entry succeeds on the state the earlier entries left |
| BuildArtifacts.FoldAllSucceed | server.js:50 | when every step succeeds, `Promise.all` resolves |
| BuildArtifacts.FoldFailureSticks | server.js:50 | once one step of the aggregate fails, the aggregate fails whatever later steps do |
| BuildArtifacts.DecompressSingleArtifact | server.js:36-53 | a folder with one gzipped artifact ends with the decoded bytes under the stripped name and without the compressed file |
| BuildArtifacts.BuildFolder.RenameBuildFiles | server.js:75-84 | the `forEach` leaves the listing at `RenameSteps` of the old listing and writes nothing outside |
| BuildArtifacts.BuildFolder.DecompressFile | server.js:12-33 | the new state and the outcome are those of `DecompressOne` on the old state |
| BuildArtifacts.BuildFolder.DecompressListed | server.js:40-49 | one callback of `files.map`: the outcome and new state are those of `DecompressEntry`, `.gz` checked before `.br` |
| BuildArtifacts.BuildFolder.DecompressFilesInFolder | server.js:36-53 | the new state and the outcome are those of `DecompressFolder` on the old state |
| Catalog.FindIndex | server.js:179 | the first record with the id; `None` exactly when there is none |
| Catalog.WithoutId | server.js:351 | the filter keeps exactly the records with another id |
| Catalog.WithoutIdConcat | server.js:351 | filtering works piecewise, so kept records stay in relative order |
| Catalog.WithoutIdCount | server.js:351 | after the filter no record has the id and every other id keeps its count |
| Catalog.WithoutIdAbsent | server.js:351 | a catalog without the id is left as it is |
| Catalog.WithoutIdIdempotent | server.js:351 | filtering twice is filtering once |
| Catalog.DropFirstMatch | server.js:196-198 | splicing out the first record with the id removes one such record and nothing the filter keeps |
| Catalog.DropAt | server.js:197 | `splice(i, 1)`: the definition; `DropFirstMatch` states its meaning |
| Catalog.Uploaded | server.js:196-198 | the splice of the first same-id record and the push of the new one; `UploadedCatalog` states its meaning |
| Catalog.UploadedCatalog | server.js:196-198 | the new record is last, records with other ids keep their order, and the id's count is kept (one when it was zero) |
| Catalog.UploadedUnique | server.js:196-198 | a catalog with at most one record per id holds exactly one for the uploaded id |
| Catalog.NewGame | server.js:246-259 | the record an upload pushes; its id is the project id, and `NewGameRecord` states the rest |
| Catalog.ArtifactUrl | server.js:254-257 | `/builds/<id>/Build/<id><ext>`: the definition; `NewGameRecord` states the four URLs |
| Catalog.UrlAt | server.js:254-257 | the record's URL for the k-th suffix: the definition; `NewGameRecord` states its value |
| Catalog.NewGameRecord | server.js:246-259 | the four URLs are `/builds/<id>/Build/<id><ext>` for the renamer's target names, the thumbnail is `/builds/<id>/thumbnail.png`, moduleCode defaults to `""` |
| Catalog.ApplyPatch | server.js:299-302 | an update never changes id, thumbnail or build URLs |
| Catalog.ApplyPatchFields | server.js:299-302 | for every record and body, each of title, author and upload date is replaced exactly when its supplied value is truthy and kept otherwise, and the module code is replaced exactly when supplied and kept otherwise |
| Catalog.ApplyTitleOnly | server.js:299-302 | an update supplying only a non-empty title changes the title and nothing else |
| Catalog.ApplyPatchIdempotent | server.js:299-302 | applying the same update twice is applying it once |
| Catalog.FalsyPatch | server.js:299-302 | empty title, author and date are ignored, while an empty module code is written |
| Catalog.ApplyPatchOverrides | server.js:299-302 | a fully supplied update decides every editable field, whatever the record held |
| Catalog.Updated | server.js:294-297 | `None` exactly when no record has the id |
| Catalog.UpdatedOnlyFirst | server.js:294-302 | only the first record with the id is patched; every other record, including later duplicates, is unchanged |
| Catalog.WithoutIdReplaceAt | server.js:299-302 | replacing a record by one with the same id leaves what the delete filter keeps unchanged |
| AssetProxy.FindAsset | server.js:117 | the first asset with exactly that name; `None` exactly when there is none |
| AssetProxy.ConventionalUrl | server.js:127-128 | the download URL used when no asset name is given; `ResolveUnnamed` states when it is streamed |
| AssetProxy.ReleaseApiUrl | server.js:113 | the release REST URL for a tag: the definition; `ResolveNamed` states how its answer is used |
| AssetProxy.DefaultFileName | server.js:127 | `<repo>-<tag>.zip`: the definition; `ResolveUnnamed` states it is the streamed name without an asset name |
| AssetProxy.DownloadFileName | server.js:137-140 | the announced file name; `Resolve` states that every streamed response carries it |
| AssetProxy.Resolve | server.js:106-148 | a streamed response was downloaded, is named with the trimmed asset name or `<repo>-<tag>.zip`, and uses the conventional URL for a blank name |
| AssetProxy.ResolveNamed | server.js:109-143 | with a non-blank name, lookup failure is reported as such, "not found" is answered exactly when no asset matches, and once the first match is found it is streamed from its URL under the trimmed name exactly when its download succeeds, else the download failure is reported |
| AssetProxy.ResolveUnnamed | server.js:126-129 | with a blank or absent name the release data is never consulted and the conventional archive is streamed |
| AssetProxy.ResolveByTrimmedName | server.js:109-140 | two non-blank names with the same trimmed form get the same response |
| AssetProxy.ResolveTrimsName | server.js:117 | surrounding white space in the requested name does not change the outcome |
| Server.OverlayLookup | server.js:214-216 | extracting an archive with unique names over the folder gives the archive's entries for its names and keeps the folder's others |
| Server.Overlay | server.js:214-216 | extraction written over the project folder: the definition; `OverlayLookup` states its meaning |
| Server.RemoveAt | server.js:224 | the found folder taken out of the extracted tree: the definition; `RemoveAtOthers` states its meaning |
| Server.RemoveAtOthers | server.js:226 | moving the found folder out of the extracted tree leaves every other top-level entry |
| Server.Relocate | server.js:221-228 | the move of the found Build folder to the top; `RelocateEffect` states its result |
| Server.RelocateEffect | server.js:221-228 | after relocation the found `Build` folder is at the top and other top-level entries are unchanged |
| Server.Normalise | server.js:231-244 | base-name detection, renaming, then decompression; `NormaliseLoader` states its cases |
| Server.NormaliseLoader | server.js:231-244 | "Loader file not found" exactly when no entry ends in `.loader.js`; else rename from the first loader's base name, then decompress |
| Server.CompressedCodeKeepsItsName | server.js:239-244 | a build `Game.loader.js`, `Game.wasm.gz` uploaded as `SpaceRun` succeeds and ends with exactly `SpaceRun.loader.js` and `Game.wasm`, no `SpaceRun.wasm` |
| Server.SampleCodeUrl | server.js:257 | the record for `SpaceRun` names its code `/builds/SpaceRun/Build/SpaceRun.wasm` |
| Server.NormaliseDecompressFirst | server.js:231-244 | the same steps with decompression first; a reference order, not the source's |
| Server.DecompressFirstServesArtifacts | server.js:239-259 | decompressing first, every artifact `base+ext` of the decompressed folder is served under `projectId+ext`, the record's name for it |
| Server.DecompressFirstRenamesCompressedCode | server.js:239-259 | decompressing first, the sample build ends with `SpaceRun.wasm` holding the decoded code |
| Server.IngestSpec | server.js:216-244 | the `close` handler up to the catalog write; `IngestFindsBuild` and `IngestLeavesBuild` state its outcome |
| Server.IngestFindsBuild | server.js:217-220 | in a well-formed archive "Build folder not found" is answered exactly when no `Build` directory exists at any depth |
| Server.IngestLeavesBuild | server.js:221-244 | past search and relocation, the project folder has a `Build` directory at its top |
| Server.UploadSpec | server.js:157-200 | the upload handler's checks before extraction; `UploadOutcome` states which cause gives which answer, and `UploadSuccess` what a success leaves |
| Server.UploadOutcome | server.js:157-269 | each answer as an if-and-only-if with its cause: missing fields; a conflict without `overwrite === "true"`; a failed removal of the existing folder; a failed move of a thumbnail that was sent; an extraction error; each failure of the ingestion; a failed catalog write. An upload succeeds exactly when every step passes, and a request without a thumbnail never fails on it |
| Server.Admitted | server.js:164-195 | the request passes the field check, the conflict check and the removal of the old folder: the definition; `UploadOutcome` states what follows |
| Server.Extracted | server.js:202-216 | an admitted request whose optional thumbnail was moved in and whose archive was extracted: the definition; `UploadOutcome` states what follows |
| Server.Ingested | server.js:216-245 | the `close` handler's run over the extracted archive and the thumbnail: the definition; `UploadOutcome` ties its failures to the answer |
| Server.ValidUpload | server.js:164 | the required-fields test: the definition; `UploadRejectsMissingFields` states its effect |
| Server.BuildPath | server.js:221 | the project's Build folder path: the definition; `UploadStrayInOtherProject` shows two projects' paths interacting |
| Server.FillSpec | server.js:202-216 | thumbnail move and extraction, then ingestion |
| Server.FinishSpec | server.js:246-278 | storing the ingestion, then pushing and writing the record |
| Server.UploadRejectsMissingFields | server.js:164-166 | a missing zip, title, author or project id is rejected with nothing changed |
| Server.UploadRejectsConflict | server.js:178-186 | an existing folder or catalog record without `overwrite === "true"` is rejected with nothing changed |
| Server.UploadSuccess | server.js:171-269 | success writes the old catalog (empty if unreadable) with the first same-id record spliced out and the new record pushed; the project folder becomes exactly the ingested archive with the thumbnail, whatever it held before, with a `Build` directory at its top, and the escaped outputs are added to `strays` |
| Server.UploadFrame | server.js:157-278 | a failed upload never writes the catalog, and no upload changes another id's entry in `builds`; outputs that escape are in `strays` |
| Server.UploadStrayInOtherProject | server.js:15 | for project `my.brick` the output of `a.wasm.br` is `a.wasm.br` in the Build folder of project `myick`, outside the uploaded folder |
| Server.UploadOverUnreadableCatalog | server.js:171-176 | an unreadable catalog counts as empty, so success leaves the new record alone |
| Server.UpdateSpec | server.js:282-310 | the update handler; `UpdateEffect` states its outcomes |
| Server.UpdateEffect | server.js:282-310 | read failure, unknown id and write failure change nothing; the write failure is reported exactly when a record is found and the write fails, and a found record with a good write always succeeds; success patches only the first matching record and reports it |
| Server.DeleteSpec | server.js:330-358 | the delete handler; `DeleteEffect` states its outcomes |
| Server.DeleteEffect | server.js:330-358 | the folder goes unless its removal fails; deletion succeeds exactly when the folder is gone, the catalog was read and the write succeeds, and the write failure is reported exactly when the write fails; the catalog changes only on success, then without the id and with others kept |
| Server.GalleryServer.IngestArchive | server.js:216-244 | the `close` handler up to the catalog write computes exactly `IngestSpec` |
| Server.GalleryServer.Upload | server.js:157-200 | the request's response and new state are those of `UploadSpec` |
| Server.GalleryServer.Fill | server.js:202-216 | thumbnail move and extraction into the empty folder follow `FillSpec` |
| Server.GalleryServer.Finish | server.js:246-269 | storing the ingestion and pushing and writing the new record follow `FinishSpec` |
| Server.GalleryServer.Update | server.js:282-310 | the field assignments and the write follow `UpdateSpec` |
| Server.GalleryServer.Delete | server.js:330-358 | removal, read, filter and write follow `DeleteSpec` |

## Left out

- HTTP layer: Express routing, multer's handling of the multipart body, CORS, status codes and JSON response bodies. The responses are the `Response`/`Failure` datatypes, named after the handlers' messages.
- The static-file no-cache header (server.js:94-98) and the thumbnail-replace route (server.js:313-327): a one-line predicate and a single file move.
- ZIP extraction by `unzipper` (server.js:214-216), a foreign library. The extracted tree is an input.
  - An extraction error is modelled as nothing extracted. Partially extracted entries are not modelled.
  - Extraction into the freshly made folder is modelled as writing the archive's top-level entries over it.
- The gunzip and brotli algorithms: uninterpreted functions on byte sequences. Their correctness is out of reach.
- `BuildArtifacts.DecompressOne`: a decoder failure is a failed step that leaves no file behind. In the source the write stream has already created the output file by then. The only error listener sits on the write stream (server.js:31). An `'error'` event of the read stream or the gunzip/brotli stream therefore has no listener, which crashes the Node process instead of rejecting; the model reports it as a failed decompression.
- File writes the source can make fail without a reported error are not modelled: `fs.createWriteStream` on an unwritable path counts as a failed step (the `canWrite` parameter), and `fs.unlinkSync` after the write is assumed to succeed.
- Concurrency: `Promise.all` runs the decompressions concurrently. The model runs them in listing order and handles every entry even after a failure. The interleaving of two entries whose outputs collide is not modelled. Read-modify-write races on `games.json` between simultaneous requests are not modelled either.
- Server.UploadFrame: outputs written outside the Build folder are kept in `strays`, a map of absolute paths. The model does not merge them into another project's folder they may land in (`Server.UploadStrayInOtherProject`), so `builds` of that other project does not show the stray file.
- `JSON.parse`/`JSON.stringify`: the catalog is an in-memory sequence of records with the seven fields the server writes. An unreadable or unparsable file is `None`, and a failed write leaves the file as it was.
- Records in `games.json` carrying other fields, or non-string values (a `null` module code, a numeric title), are not modelled: the record's fields are plain strings. Request fields are `Option<string>`, with `None` for a field left out.
- Catalog.ApplyPatch: an update body with `moduleCode: null` stores `null`, since server.js:301 tests only `!== undefined`. The model's `Patch` expresses a field as absent or a string, so this case is not modelled.
- Path handling: `path.join` is modelled only for a normalised directory and a plain name. A project id holding `/` or `..` (path traversal) is not modelled: project folders are a map keyed by the id.
- Exceptions thrown inside callbacks by `fs.readdirSync`/`fs.statSync`, and a failing `fs.mkdirSync`, are not modelled.
- Server.DeleteSpec: a failed recursive `fs.rmSync(extractDir, { recursive: true, force: true })` (server.js:337, and server.js:190 in `Server.UploadSpec`) is modelled as removing nothing. In the source, a removal that fails on a nested entry (EACCES, EPERM) has already removed the entries before it, so the answer "Error deleting project folder." can come over a half-deleted folder. On upload, the old catalog record is then still in place. `DeleteEffect`'s clause `resp == Failed(FolderDeleteFailed) ==> st' == st` holds for this model only.
- BuildArtifacts.Moved: Node's `fs.renameSync` throws when `to` is a directory and `from` a file (EISDIR), when `to` is a non-empty directory (ENOTEMPTY), and when `from` is a directory and `to` a file (ENOTDIR). At server.js:240 the call is not guarded, so the exception escapes the `close` handler and ends the process. The model lets the moved entry replace whatever is called `to`.
- `Server.Relocate`: renaming onto an existing entry called `Build` fails. That entry can only be a file, because a directory would have been found first.
- The temporary upload files: removal of the temporary zip (server.js:267) and logging with `console.error`.
- `new Date().toISOString()` (server.js:251) is the parameter `now`.
- Axios requests and stream piping in the proxy (server.js:112-143): the release data and the download outcome are parameters. Release data that lacks `assets` is folded into a failed lookup.
- The React files under `src/`: display and fetch glue.
