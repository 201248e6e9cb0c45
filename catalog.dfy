/**
 * The game catalog (`games.json`, an array of game records) and the pure
 * decisions the handlers of server.js take on it: the record an upload
 * creates, the splice-and-push of an upload with overwrite, the partial
 * update of `PUT /games/:id` and the filter of `DELETE /games/:id`.
 */
module Catalog {
  import opened Outcomes
  import opened JsStrings
  import FileTree
  import BuildArtifacts

  /** The `build` object of a record: where the player loads the four artifacts from. */
  datatype BuildUrls = BuildUrls(loaderUrl: string, dataUrl: string, frameworkUrl: string, codeUrl: string)

  /** One catalog record. */
  datatype Game = Game(id: string, title: string, author: string, moduleCode: string,
                       uploadDate: string, thumbnail: string, build: BuildUrls)

  /** `games.findIndex(game => game.id === id)`, with `None` for -1. */
  function FindIndex(games: seq<Game>, id: string): (r: Option<nat>)
    ensures r.Some? ==> r.value < |games| && games[r.value].id == id
    ensures r.Some? ==> forall j :: 0 <= j < r.value ==> games[j].id != id
    ensures r.None? <==> forall j :: 0 <= j < |games| ==> games[j].id != id
  {
    if games == [] then None
    else if games[0].id == id then Some(0)
    else match FindIndex(games[1..], id)
      case None => None
      case Some(i) => Some(i + 1)
  }

  /** How many records carry identifier `id`. */
  function Count(games: seq<Game>, id: string): nat {
    if games == [] then 0
    else (if games[0].id == id then 1 else 0) + Count(games[1..], id)
  }

  /** `games.filter(game => game.id !== id)` */
  function WithoutId(games: seq<Game>, id: string): (r: seq<Game>)
    ensures forall g :: g in r <==> g in games && g.id != id
  {
    if games == [] then []
    else if games[0].id == id then WithoutId(games[1..], id)
    else [games[0]] + WithoutId(games[1..], id)
  }

  /** `games.splice(i, 1)` */
  function DropAt(games: seq<Game>, i: nat): seq<Game>
    requires i < |games|
  {
    games[..i] + games[i + 1..]
  }

  lemma {:induction false} CountConcat(a: seq<Game>, b: seq<Game>, id: string)
    ensures Count(a + b, id) == Count(a, id) + Count(b, id)
  {
    if a == [] {
      assert a + b == b;
    } else {
      assert (a + b)[1..] == a[1..] + b;
      CountConcat(a[1..], b, id);
    }
  }

  /** Filtering works piecewise, so the records it keeps stay in their relative order. */
  lemma {:induction false} WithoutIdConcat(a: seq<Game>, b: seq<Game>, id: string)
    ensures WithoutId(a + b, id) == WithoutId(a, id) + WithoutId(b, id)
  {
    if a == [] {
      assert a + b == b;
    } else {
      assert (a + b)[1..] == a[1..] + b;
      WithoutIdConcat(a[1..], b, id);
    }
  }

  /** After the delete filter no record carries the identifier, and the count of every other identifier is kept. */
  lemma {:induction false} WithoutIdCount(games: seq<Game>, id: string, q: string)
    ensures Count(WithoutId(games, id), id) == 0
    ensures q != id ==> Count(WithoutId(games, id), q) == Count(games, q)
  {
    if games != [] {
      WithoutIdCount(games[1..], id, q);
      if games[0].id != id {
        assert ([games[0]] + WithoutId(games[1..], id))[1..] == WithoutId(games[1..], id);
      }
    }
  }

  /** A catalog without the identifier is left as it is by the filter; so the filter is idempotent. */
  lemma {:induction false} WithoutIdAbsent(games: seq<Game>, id: string)
    requires forall j :: 0 <= j < |games| ==> games[j].id != id
    ensures WithoutId(games, id) == games
    ensures WithoutId(WithoutId(games, id), id) == WithoutId(games, id)
  {
    if games != [] {
      WithoutIdAbsent(games[1..], id);
      assert games == [games[0]] + games[1..];
    }
  }

  lemma WithoutIdIdempotent(games: seq<Game>, id: string)
    ensures WithoutId(WithoutId(games, id), id) == WithoutId(games, id)
  {
    var r := WithoutId(games, id);
    forall j | 0 <= j < |r| ensures r[j].id != id {
      assert r[j] in r;
    }
    WithoutIdAbsent(r, id);
  }

  /** Splicing out the first record with the identifier loses nothing the filter would keep. */
  lemma DropFirstMatch(games: seq<Game>, i: nat, id: string)
    requires i < |games| && games[i].id == id
    ensures WithoutId(DropAt(games, i), id) == WithoutId(games, id)
    ensures Count(DropAt(games, i), id) + 1 == Count(games, id)
  {
    assert games == games[..i] + ([games[i]] + games[i + 1..]);
    WithoutIdConcat(games[..i], [games[i]] + games[i + 1..], id);
    WithoutIdConcat(games[..i], games[i + 1..], id);
    CountConcat(games[..i], [games[i]] + games[i + 1..], id);
    CountConcat(games[..i], games[i + 1..], id);
    assert ([games[i]] + games[i + 1..])[1..] == games[i + 1..];
  }

  /**
   * The catalog an upload writes: the first record with the new record's
   * identifier spliced out when there is one, and the new record pushed.
   */
  function Uploaded(games: seq<Game>, g: Game): seq<Game> {
    match FindIndex(games, g.id)
    case None => games + [g]
    case Some(i) => DropAt(games, i) + [g]
  }

  /**
   * The upload puts the new record last, keeps every record with another
   * identifier in its relative order, and never grows the number of records
   * with the identifier beyond what it was (or one, when there was none).
   */
  lemma UploadedCatalog(games: seq<Game>, g: Game)
    ensures |Uploaded(games, g)| > 0 && Uploaded(games, g)[|Uploaded(games, g)| - 1] == g
    ensures WithoutId(Uploaded(games, g), g.id) == WithoutId(games, g.id)
    ensures Count(Uploaded(games, g), g.id) == if Count(games, g.id) == 0 then 1 else Count(games, g.id)
  {
    var kept := match FindIndex(games, g.id) case None => games case Some(i) => DropAt(games, i);
    assert Uploaded(games, g) == kept + [g];
    WithoutIdConcat(kept, [g], g.id);
    CountConcat(kept, [g], g.id);
    assert WithoutId([g], g.id) == [];
    assert Count([g], g.id) == 1;
    match FindIndex(games, g.id)
    case None =>
      WithoutIdAbsent(games, g.id);
      assert Count(games, g.id) == 0 by { WithoutIdCount(games, g.id, g.id); }
    case Some(i) =>
      DropFirstMatch(games, i, g.id);
  }

  /** A catalog holding at most one record per identifier holds exactly one for the uploaded one. */
  lemma UploadedUnique(games: seq<Game>, g: Game)
    requires Count(games, g.id) <= 1
    ensures Count(Uploaded(games, g), g.id) == 1
  {
    UploadedCatalog(games, g);
  }

  // ---------------------------------------------------------------- the new record

  /** `/builds/<id>/Build/<id><ext>` */
  function ArtifactUrl(id: string, ext: string): string {
    "/builds/" + id + "/" + FileTree.BuildName + "/" + id + ext
  }

  /** The artifact URL for the `k`-th suffix of the renamer. */
  function UrlAt(b: BuildUrls, k: nat): string
    requires k < |BuildArtifacts.Extensions|
  {
    if k == 0 then b.loaderUrl else if k == 1 then b.dataUrl else if k == 2 then b.frameworkUrl else b.codeUrl
  }

  /** The record an upload appends; `now` stands for `new Date().toISOString()`. */
  function NewGame(id: string, title: string, author: string, moduleCode: Option<string>, now: string): (r: Game)
    ensures r.id == id
  {
    Game(id, title, author, if Truthy(moduleCode) then moduleCode.value else "", now,
         "/builds/" + id + "/thumbnail.png",
         BuildUrls(ArtifactUrl(id, ".loader.js"), ArtifactUrl(id, ".data"),
                   ArtifactUrl(id, ".framework.js"), ArtifactUrl(id, ".wasm")))
  }

  /**
   * The new record's four URLs point into the project's Build folder, at
   * the names `renameBuildFiles` gives the four uncompressed artifacts (a
   * compressed one keeps its base name, `Server.CompressedCodeKeepsItsName`); the thumbnail
   * is the project's `thumbnail.png`; `moduleCode || ""` is the supplied
   * code, or empty when there is none.
   */
  lemma NewGameRecord(id: string, title: string, author: string, moduleCode: Option<string>, now: string)
    ensures var r := NewGame(id, title, author, moduleCode, now);
            && (forall k :: 0 <= k < |BuildArtifacts.Extensions| ==>
                  UrlAt(r.build, k) == "/builds/" + id + "/Build/" + (id + BuildArtifacts.Extensions[k]))
            && r.thumbnail == "/builds/" + id + "/thumbnail.png"
            && r.moduleCode == moduleCode.GetOr("")
            && r.title == title && r.author == author && r.uploadDate == now
  {
    var r := NewGame(id, title, author, moduleCode, now);
    forall k | 0 <= k < |BuildArtifacts.Extensions|
      ensures UrlAt(r.build, k) == "/builds/" + id + "/Build/" + (id + BuildArtifacts.Extensions[k])
    {
      assert UrlAt(r.build, k) == ArtifactUrl(id, BuildArtifacts.Extensions[k]);
    }
  }

  // ---------------------------------------------------------------- partial update

  /** The fields of an update request body; `None` is a field left `undefined`. */
  datatype Patch = Patch(title: Option<string>, author: Option<string>, moduleCode: Option<string>, uploadDate: Option<string>)

  /**
   * The field assignments of `PUT /games/:id`: title, author and upload date
   * only when the supplied value is truthy, the module code whenever it is
   * supplied at all, the empty string included.
   */
  function ApplyPatch(g: Game, p: Patch): (r: Game)
    ensures r.id == g.id && r.thumbnail == g.thumbnail && r.build == g.build
  {
    var t := if Truthy(p.title) then p.title.value else g.title;
    var a := if Truthy(p.author) then p.author.value else g.author;
    var m := if p.moduleCode.Some? then p.moduleCode.value else g.moduleCode;
    var d := if Truthy(p.uploadDate) then p.uploadDate.value else g.uploadDate;
    g.(title := t, author := a, moduleCode := m, uploadDate := d)
  }

  /**
   * The field rule of the update, field by field and for every record and
   * body: title, author and upload date are replaced exactly when the
   * supplied value is truthy and kept otherwise; the module code is replaced
   * exactly when it is supplied and kept otherwise.
   */
  lemma ApplyPatchFields(g: Game, p: Patch)
    ensures var r := ApplyPatch(g, p);
            && (Truthy(p.title) ==> r.title == p.title.value) && (!Truthy(p.title) ==> r.title == g.title)
            && (Truthy(p.author) ==> r.author == p.author.value) && (!Truthy(p.author) ==> r.author == g.author)
            && (p.moduleCode.Some? ==> r.moduleCode == p.moduleCode.value) && (p.moduleCode.None? ==> r.moduleCode == g.moduleCode)
            && (Truthy(p.uploadDate) ==> r.uploadDate == p.uploadDate.value) && (!Truthy(p.uploadDate) ==> r.uploadDate == g.uploadDate)
  {
  }

  /** An update that supplies only a non-empty title changes the title and nothing else. */
  lemma ApplyTitleOnly(g: Game, t: string)
    requires t != ""
    ensures ApplyPatch(g, Patch(Some(t), None, None, None)) == g.(title := t)
  {
  }

  /** Applying the same update twice is applying it once. */
  lemma ApplyPatchIdempotent(g: Game, p: Patch)
    ensures ApplyPatch(ApplyPatch(g, p), p) == ApplyPatch(g, p)
  {
  }

  /**
   * Falsy values leave title, author and date alone, while an empty module
   * code is written: "truthy" and "not undefined" differ.
   */
  lemma FalsyPatch(g: Game)
    ensures ApplyPatch(g, Patch(Some(""), Some(""), None, Some(""))) == g
    ensures ApplyPatch(g, Patch(Some(""), Some(""), Some(""), Some(""))) == g.(moduleCode := "")
  {
  }

  /** A field the update supplies is the one the record ends with, whatever it held before. */
  lemma ApplyPatchOverrides(g: Game, h: Game, p: Patch)
    requires g.id == h.id && g.thumbnail == h.thumbnail && g.build == h.build
    requires Truthy(p.title) && Truthy(p.author) && p.moduleCode.Some? && Truthy(p.uploadDate)
    ensures ApplyPatch(g, p) == ApplyPatch(h, p)
  {
  }

  /**
   * The catalog after an update of the record `id`: only the FIRST record
   * with that identifier is patched; `None` when there is none.
   */
  function Updated(games: seq<Game>, id: string, p: Patch): (r: Option<seq<Game>>)
    ensures r.None? <==> forall j :: 0 <= j < |games| ==> games[j].id != id
  {
    match FindIndex(games, id)
    case None => None
    case Some(i) => Some(games[i := ApplyPatch(games[i], p)])
  }

  /** Every record but the first one with the identifier is left exactly as it was. */
  lemma UpdatedOnlyFirst(games: seq<Game>, id: string, p: Patch)
    requires Updated(games, id, p).Some?
    ensures var r := Updated(games, id, p).value;
            var i := FindIndex(games, id).value;
            && |r| == |games|
            && r[i] == ApplyPatch(games[i], p)
            && (forall j :: 0 <= j < |games| && j != i ==> r[j] == games[j])
            && (forall j :: 0 <= j < i ==> games[j].id != id)
            && WithoutId(r, id) == WithoutId(games, id)
  {
    var i := FindIndex(games, id).value;
    WithoutIdReplaceAt(games, i, ApplyPatch(games[i], p), id);
  }

  /** Replacing a record of the identifier by another one of it does not change what the filter keeps. */
  lemma WithoutIdReplaceAt(games: seq<Game>, i: nat, x: Game, id: string)
    requires i < |games| && games[i].id == id && x.id == id
    ensures WithoutId(games[i := x], id) == WithoutId(games, id)
  {
    var a, tail := games[..i], games[i + 1..];
    assert games == a + ([games[i]] + tail);
    assert games[i := x] == a + ([x] + tail);
    WithoutIdConcat(a, [games[i]] + tail, id);
    WithoutIdConcat(a, [x] + tail, id);
    assert ([games[i]] + tail)[1..] == tail;
    assert ([x] + tail)[1..] == tail;
  }
}
