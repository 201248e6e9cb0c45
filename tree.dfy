/**
 * The extracted archive as a tree of directory listings, and the search for
 * its "Build" directory (`findBuildFolder`, server.js). A listing is an
 * ordered sequence: `fs.readdirSync` order decides which match wins.
 */
module FileTree {
  import opened Outcomes

  newtype Byte = x: int | 0 <= x < 256
  type Bytes = seq<Byte>

  /** A directory entry: a file with its bytes, or a directory with its own listing. */
  datatype Item = File(name: string, content: Bytes) | Dir(name: string, items: seq<Item>)

  /** A location below a search root: the entry names that `path.join` strings together. */
  type Path = seq<string>

  const BuildName: string := "Build"

  predicate IsBuildDir(it: Item) {
    it.Dir? && it.name == BuildName
  }

  /**
   * `items.includes("Build") && statSync(dir/Build).isDirectory()`: since names
   * in one directory are unique, this is "some entry named Build is a directory".
   */
  predicate HasBuildDir(items: seq<Item>) {
    exists i :: 0 <= i < |items| && IsBuildDir(items[i])
  }

  predicate UniqueNames(items: seq<Item>) {
    forall i, j :: 0 <= i < j < |items| ==> items[i].name != items[j].name
  }

  /** What a real file system guarantees: within each directory the names are unique. */
  ghost predicate Wf(d: Item)
    decreases d
  {
    d.Dir? ==> UniqueNames(d.items) && forall i :: 0 <= i < |d.items| ==> Wf(d.items[i])
  }

  /** The entry named `n` in a listing (`fs.existsSync(dir/n)` is `Lookup(...).Some?`). */
  function Lookup(items: seq<Item>, n: string): (r: Option<Item>)
    ensures r.Some? ==> r.value in items && r.value.name == n
    ensures r.None? <==> forall i :: 0 <= i < |items| ==> items[i].name != n
  {
    if items == [] then None
    else if items[0].name == n then Some(items[0])
    else Lookup(items[1..], n)
  }

  /** In a listing with unique names, the entry found under a name is the one at its index. */
  lemma {:induction false} LookupAt(items: seq<Item>, i: nat)
    requires UniqueNames(items) && i < |items|
    ensures Lookup(items, items[i].name) == Some(items[i])
  {
    if i > 0 {
      assert items[0].name != items[i].name;
      assert items[1..][i - 1] == items[i];
      LookupAt(items[1..], i - 1);
    }
  }

  /** The entry reached by following `p` from `d`, if there is one. */
  function ItemAt(d: Item, p: Path): Option<Item>
    decreases p
  {
    if p == [] then Some(d)
    else if d.File? then None
    else match Lookup(d.items, p[0])
      case None => None
      case Some(c) => ItemAt(c, p[1..])
  }

  /** Somewhere below `d` there is a directory named "Build". */
  ghost predicate ContainsBuild(d: Item)
    decreases d
  {
    d.Dir? && exists i :: 0 <= i < |d.items| && (IsBuildDir(d.items[i]) || ContainsBuild(d.items[i]))
  }

  /**
   * The reference search: a "Build" directory directly in `d` wins; otherwise
   * the first subdirectory, in listing order, whose own search succeeds.
   */
  function Find(d: Item): (r: Option<Path>)
    requires d.Dir?
    decreases d, 1
    ensures r.Some? ==> |r.value| > 0 && r.value[|r.value| - 1] == BuildName
    ensures r.Some? ==> forall k :: 0 <= k < |r.value| - 1 ==> r.value[k] != BuildName
    ensures HasBuildDir(d.items) ==> r == Some([BuildName])
  {
    if HasBuildDir(d.items) then Some([BuildName]) else FindIn(d, 0)
  }

  /** The search over the subdirectories of `d` from position `k` on. */
  function FindIn(d: Item, k: nat): (r: Option<Path>)
    requires d.Dir? && k <= |d.items|
    requires !HasBuildDir(d.items)
    decreases d, 0, |d.items| - k
    ensures r.Some? ==> |r.value| > 1 && r.value[|r.value| - 1] == BuildName
    ensures r.Some? ==> forall m :: 0 <= m < |r.value| - 1 ==> r.value[m] != BuildName
  {
    if k == |d.items| then None
    else if d.items[k].Dir? then
      match Find(d.items[k])
      case Some(p) =>
        assert d.items[k].name != BuildName by { assert !IsBuildDir(d.items[k]); }
        Some([d.items[k].name] + p)
      case None => FindIn(d, k + 1)
    else FindIn(d, k + 1)
  }

  /** `findBuildFolder(dir)`: the loop with early returns of server.js. */
  method FindBuildFolder(d: Item) returns (r: Option<Path>)
    requires d.Dir?
    decreases d
    ensures r == Find(d)
  {
    var i := 0;
    while i < |d.items|
      invariant 0 <= i <= |d.items|
      invariant forall j :: 0 <= j < i ==> !IsBuildDir(d.items[j])
    {
      if IsBuildDir(d.items[i]) {
        return Some([BuildName]);
      }
      i := i + 1;
    }
    i := 0;
    while i < |d.items|
      invariant 0 <= i <= |d.items|
      invariant FindIn(d, 0) == FindIn(d, i)
    {
      var item := d.items[i];
      if item.Dir? {
        var found := FindBuildFolder(item);
        if found.Some? {
          return Some([item.name] + found.value);
        }
      }
      i := i + 1;
    }
    return None;
  }

  /** A found path leads, in a well-formed tree, to a directory named "Build". */
  lemma {:induction false} FindSound(d: Item)
    requires d.Dir? && Wf(d)
    decreases d, 1
    ensures Find(d).Some? ==> ItemAt(d, Find(d).value).Some? && IsBuildDir(ItemAt(d, Find(d).value).value)
  {
    if HasBuildDir(d.items) {
      var i :| 0 <= i < |d.items| && IsBuildDir(d.items[i]);
      LookupAt(d.items, i);
      assert ItemAt(d.items[i], []) == Some(d.items[i]);
    } else {
      FindInSound(d, 0);
    }
  }

  lemma {:induction false} FindInSound(d: Item, k: nat)
    requires d.Dir? && Wf(d) && k <= |d.items| && !HasBuildDir(d.items)
    decreases d, 0, |d.items| - k
    ensures FindIn(d, k).Some? ==> ItemAt(d, FindIn(d, k).value).Some? && IsBuildDir(ItemAt(d, FindIn(d, k).value).value)
  {
    if k < |d.items| {
      var c := d.items[k];
      if c.Dir? && Find(c).Some? {
        FindSound(c);
        LookupAt(d.items, k);
        var p := [c.name] + Find(c).value;
        assert p[1..] == Find(c).value;
        assert ItemAt(d, p) == ItemAt(c, p[1..]);
      } else {
        FindInSound(d, k + 1);
      }
    }
  }

  /** The search fails exactly when no directory named "Build" exists anywhere below `d`. */
  lemma {:induction false} FindComplete(d: Item)
    requires d.Dir?
    decreases d, 1
    ensures Find(d).Some? <==> ContainsBuild(d)
  {
    if HasBuildDir(d.items) {
      var i :| 0 <= i < |d.items| && IsBuildDir(d.items[i]);
      assert ContainsBuild(d);
    } else {
      FindInComplete(d, 0);
    }
  }

  lemma {:induction false} FindInComplete(d: Item, k: nat)
    requires d.Dir? && k <= |d.items| && !HasBuildDir(d.items)
    decreases d, 0, |d.items| - k
    ensures FindIn(d, k).Some? <==> exists i :: k <= i < |d.items| && ContainsBuild(d.items[i])
  {
    if k < |d.items| {
      var c := d.items[k];
      FindInComplete(d, k + 1);
      if c.Dir? {
        FindComplete(c);
      } else {
        assert !ContainsBuild(c);
      }
      if FindIn(d, k).Some? && !ContainsBuild(c) {
        assert exists i :: k + 1 <= i < |d.items| && ContainsBuild(d.items[i]);
      }
    }
  }

  /**
   * Without a direct "Build" child, the result extends the result of the
   * first subdirectory, in listing order, whose search succeeds.
   */
  lemma {:induction false} FindFirstHit(d: Item, k: nat)
    requires d.Dir? && k <= |d.items| && !HasBuildDir(d.items)
    requires forall j :: 0 <= j < k ==> !(d.items[j].Dir? && Find(d.items[j]).Some?)
    requires FindIn(d, k).Some?
    decreases |d.items| - k
    ensures exists i :: (0 <= i < |d.items| && d.items[i].Dir? && Find(d.items[i]).Some?
                         && (forall j :: 0 <= j < i ==> !(d.items[j].Dir? && Find(d.items[j]).Some?))
                         && FindIn(d, 0) == Some([d.items[i].name] + Find(d.items[i]).value))
  {
    FindInSkips(d, k);
    var c := d.items[k];
    if c.Dir? && Find(c).Some? {
      assert FindIn(d, 0) == Some([c.name] + Find(c).value);
    } else {
      FindFirstHit(d, k + 1);
    }
  }

  /** Subdirectories whose search fails are skipped. */
  lemma {:induction false} FindInSkips(d: Item, k: nat)
    requires d.Dir? && k <= |d.items| && !HasBuildDir(d.items)
    requires forall j :: 0 <= j < k ==> !(d.items[j].Dir? && Find(d.items[j]).Some?)
    ensures FindIn(d, 0) == FindIn(d, k)
  {
    if k > 0 {
      FindInSkips(d, k - 1);
    }
  }

  /** `names` wrapper directories, outermost first, around `inner`. */
  function Nest(names: seq<string>, inner: Item): Item
    decreases |names|
  {
    if names == [] then inner else Dir(names[0], [Nest(names[1..], inner)])
  }

  /**
   * Depth independence: a "Build" directory under any number of wrapper
   * directories (none of them named "Build") is found, with the wrappers'
   * names as its path.
   */
  lemma {:induction false} FindNested(root: string, names: seq<string>, build: Item)
    requires IsBuildDir(build)
    requires forall k :: 0 <= k < |names| ==> names[k] != BuildName
    decreases |names|
    ensures Find(Dir(root, [Nest(names, build)])) == Some(names + [BuildName])
  {
    var d := Dir(root, [Nest(names, build)]);
    if names == [] {
      assert d.items[0] == build;
      assert HasBuildDir(d.items);
      assert names + [BuildName] == [BuildName];
    } else {
      var c := Nest(names, build);
      assert !IsBuildDir(d.items[0]);
      assert !HasBuildDir(d.items);
      FindNested(names[0], names[1..], build);
      assert c == Dir(names[0], [Nest(names[1..], build)]);
      assert d.items[0] == c && c.Dir? && c.name == names[0];
      assert Find(c) == Some(names[1..] + [BuildName]);
      assert FindIn(d, 0) == Some([names[0]] + (names[1..] + [BuildName]));
      assert names + [BuildName] == [names[0]] + (names[1..] + [BuildName]);
    }
  }

  /** Every entry named `n` left out of the listing. */
  function Without(items: seq<Item>, n: string): (r: seq<Item>)
    ensures forall i :: 0 <= i < |r| ==> r[i].name != n && r[i] in items
    ensures forall m :: m != n ==> Lookup(r, m) == Lookup(items, m)
  {
    if items == [] then []
    else if items[0].name == n then Without(items[1..], n)
    else [items[0]] + Without(items[1..], n)
  }

  /**
   * Writing entry `it`: it replaces the entry of the same name in place, or is
   * added at the end of the listing when there is none.
   */
  function Put(items: seq<Item>, it: Item): (r: seq<Item>)
    ensures Lookup(r, it.name) == Some(it)
    ensures forall m :: m != it.name ==> Lookup(r, m) == Lookup(items, m)
  {
    if items == [] then [it]
    else if items[0].name == it.name then [it] + items[1..]
    else [items[0]] + Put(items[1..], it)
  }

  /** Writing an entry under a name the listing does not hold appends it. */
  lemma {:induction false} PutNew(items: seq<Item>, it: Item)
    requires forall i :: 0 <= i < |items| ==> items[i].name != it.name
    ensures Put(items, it) == items + [it]
  {
    if items != [] {
      PutNew(items[1..], it);
      assert items == [items[0]] + items[1..];
    }
  }

  /** Removing a name the listing does not hold changes nothing. */
  lemma {:induction false} WithoutAbsent(items: seq<Item>, n: string)
    requires forall i :: 0 <= i < |items| ==> items[i].name != n
    ensures Without(items, n) == items
  {
    if items != [] {
      WithoutAbsent(items[1..], n);
      assert items == [items[0]] + items[1..];
    }
  }
}
