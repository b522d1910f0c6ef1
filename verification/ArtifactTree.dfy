/** The walk over an artifact directory, and what an accepted artifact must be. */
module ArtifactTree {
  import opened Basics

  type Path = seq<string>
  type Bytes = seq<bv8>

  /** What a directory entry is; `Other` is a device, a socket or the like. */
  datatype Node = File(content: Bytes) | Directory(entries: seq<Entry>) | Link | Other

  datatype Entry = Entry(name: string, node: Node)

  datatype Kind = FileOf(content: Bytes) | IsDirectory | IsLink | IsOther

  function KindOf(n: Node): Kind {
    match n
    case File(c) => FileOf(c)
    case Directory(_) => IsDirectory
    case Link => IsLink
    case Other => IsOther
  }

  type Item = (Path, Kind)

  /** Everything below a directory at `at`, links not followed. */
  function Listing(es: seq<Entry>, at: Path): set<Item> {
    if es == [] then {}
    else
      var path := at + [es[0].name];
      {(path, KindOf(es[0].node))} + (if es[0].node.Directory? then Listing(es[0].node.entries, path) else {})
        + Listing(es[1..], at)
  }

  function Count(es: seq<Entry>): nat {
    if es == [] then 0
    else 1 + (if es[0].node.Directory? then Count(es[0].node.entries) else 0) + Count(es[1..])
  }

  /** A file system holds a name once in each directory. */
  ghost predicate Named(es: seq<Entry>) {
    es == [] ||
    (&& (forall i :: 1 <= i < |es| ==> es[i].name != es[0].name)
     && (es[0].node.Directory? ==> Named(es[0].node.entries))
     && Named(es[1..]))
  }

  lemma {:induction false} NamedMeans(es: seq<Entry>)
    ensures Named(es) <==>
      && (forall i, j :: 0 <= i < j < |es| ==> es[i].name != es[j].name)
      && (forall i :: 0 <= i < |es| && es[i].node.Directory? ==> Named(es[i].node.entries))
  {
    if es != [] {
      NamedMeans(es[1..]);
      assert forall i :: 0 < i < |es| ==> es[i] == es[1..][i - 1];
    }
  }

  // ---------- the contract ----------

  /** The proper ancestors of the contract's files, the artifact directory itself left out. */
  ghost predicate AllowedDirectory(p: Path, allowed: set<Path>) {
    p != [] && exists f :: f in allowed && |p| < |f| && p == f[..|p|]
  }

  function AllowedDirectories(allowed: set<Path>): (r: set<Path>)
    ensures forall p :: p in r <==> AllowedDirectory(p, allowed)
  {
    var r := set f, k | f in allowed && 0 < k < |f| :: f[..k];
    assert forall p :: AllowedDirectory(p, allowed) ==> p in r by {
      forall p | AllowedDirectory(p, allowed)
        ensures p in r
      {
        var f :| f in allowed && |p| < |f| && p == f[..|p|];
        var k := |p|;
        assert 0 < k < |f| && p == f[..k];
      }
    }
    r
  }

  predicate Fine(x: Item, allowed: set<Path>) {
    match x.1
    case FileOf(_) => x.0 in allowed
    case IsDirectory => x.0 in AllowedDirectories(allowed)
    case IsLink => false
    case IsOther => false
  }

  ghost function Files(items: set<Item>): set<Path> {
    set x | x in items && x.1.FileOf? :: x.0
  }

  ghost function Directories(items: set<Item>): set<Path> {
    set x | x in items && x.1.IsDirectory? :: x.0
  }

  const MAX_ENTRIES := 64

  ghost predicate AllFine(items: set<Item>, allowed: set<Path>) {
    forall x :: x in items ==> Fine(x, allowed)
  }

  ghost predicate Conforms(root: seq<Entry>, allowed: set<Path>) {
    && Count(root) <= MAX_ENTRIES
    && AllFine(Listing(root, []), allowed)
    && Files(Listing(root, [])) == allowed
  }

  // ---------- the walk ----------

  ghost function ListingAll(pending: seq<(Path, seq<Entry>)>): set<Item> {
    if pending == [] then {}
    else var last := pending[|pending| - 1]; ListingAll(pending[..|pending| - 1]) + Listing(last.1, last.0)
  }

  ghost function CountAll(pending: seq<(Path, seq<Entry>)>): nat {
    if pending == [] then 0
    else CountAll(pending[..|pending| - 1]) + Count(pending[|pending| - 1].1)
  }

  /** What has been seen, the directories still pending and the rest of the open one make up the tree. */
  ghost predicate Accounted(root: seq<Entry>, allowed: set<Path>, done: set<Item>, entries: nat,
      pending: seq<(Path, seq<Entry>)>, rest: seq<Entry>, at: Path) {
    && Listing(root, []) == done + ListingAll(pending) + Listing(rest, at)
    && Count(root) == entries + CountAll(pending) + Count(rest)
    && AllFine(done, allowed) && entries <= MAX_ENTRIES
  }

  lemma Opened(root: seq<Entry>, allowed: set<Path>, done: set<Item>, entries: nat, pending: seq<(Path, seq<Entry>)>)
    requires pending != [] && Accounted(root, allowed, done, entries, pending, [], [])
    ensures var last := pending[|pending| - 1];
      Accounted(root, allowed, done, entries, pending[..|pending| - 1], last.1, last.0)
  {
  }

  lemma Visited(root: seq<Entry>, allowed: set<Path>, done: set<Item>, entries: nat, pending: seq<(Path, seq<Entry>)>,
      rest: seq<Entry>, at: Path)
    requires rest != [] && Accounted(root, allowed, done, entries, pending, rest, at)
    ensures var x := (at + [rest[0].name], KindOf(rest[0].node));
      var more := if rest[0].node.Directory? then pending + [(x.0, rest[0].node.entries)] else pending;
      && x in Listing(root, []) && Count(root) >= entries + 1
      && (entries < MAX_ENTRIES && Fine(x, allowed) ==>
        Accounted(root, allowed, done + {x}, entries + 1, more, rest[1..], at))
  {
    var x := (at + [rest[0].name], KindOf(rest[0].node));
    var more := pending + [(x.0, if rest[0].node.Directory? then rest[0].node.entries else [])];
    assert more[..|more| - 1] == pending;
    hide Fine;
  }

  lemma FilesGrow(done: set<Item>, x: Item)
    ensures Files(done + {x}) == Files(done) + (if x.1.FileOf? then {x.0} else {})
  {
  }

  lemma WalkStarts(root: seq<Entry>, allowed: set<Path>)
    ensures Accounted(root, allowed, {}, 0, [([], root)], [], []) && Files({}) == {}
  {
    var pending: seq<(Path, seq<Entry>)> := [([], root)];
    assert pending[..0] == [];
  }

  lemma WalkEnds(root: seq<Entry>, allowed: set<Path>, done: set<Item>, entries: nat)
    requires Accounted(root, allowed, done, entries, [], [], [])
    ensures Conforms(root, allowed) <==> Files(done) == allowed
  {
  }

  /** An entry that is refused refuses the tree. */
  lemma Refused(root: seq<Entry>, allowed: set<Path>, x: Item, entries: nat)
    requires x in Listing(root, []) && Count(root) >= entries && (entries > MAX_ENTRIES || !Fine(x, allowed))
    ensures !Conforms(root, allowed)
  {
  }

  ghost function Work(pending: seq<(Path, seq<Entry>)>): nat {
    CountAll(pending) + |pending|
  }

  lemma WorkPopped(pending: seq<(Path, seq<Entry>)>)
    requires pending != []
    ensures Work(pending) == Work(pending[..|pending| - 1]) + 1 + Count(pending[|pending| - 1].1)
  {
  }

  lemma WorkPushed(pending: seq<(Path, seq<Entry>)>, path: Path, es: seq<Entry>)
    ensures Work(pending + [(path, es)]) == Work(pending) + 1 + Count(es)
  {
    assert (pending + [(path, es)])[..|pending|] == pending;
  }

  /** Passes exactly the trees that conform, in whatever order a directory lists its entries. */
  method Walk(root: seq<Entry>, allowed: set<Path>) returns (ok: bool)
    ensures ok <==> Conforms(root, allowed)
  {
    var dirs := AllowedDirectories(allowed);
    var pending, seen, entries := [([], root)], {}, 0;
    ghost var done: set<Item> := {};
    WalkStarts(root, allowed);
    while pending != []
      invariant Accounted(root, allowed, done, entries, pending, [], []) && seen == Files(done)
      decreases Work(pending)
    {
      hide *;
      ghost var work := Work(pending);
      Opened(root, allowed, done, entries, pending);
      WorkPopped(pending);
      var at, es := pending[|pending| - 1].0, pending[|pending| - 1].1;
      pending := pending[..|pending| - 1];
      var fine := true;
      while es != [] && fine
        invariant fine ==> Accounted(root, allowed, done, entries, pending, es, at) && seen == Files(done)
        invariant !fine ==> !Conforms(root, allowed)
        invariant Work(pending) + Count(es) < work
        decreases |es|, fine
      {
        Visited(root, allowed, done, entries, pending, es, at);
        CountOpens(es);
        var entry := es[0];
        var relative := at + [entry.name];
        ghost var x := (relative, KindOf(entry.node));
        FineCases(relative, entry.node, allowed, dirs);
        FilesGrow(done, x);
        entries := entries + 1;
        if entries > MAX_ENTRIES || entry.node.Link? {
          fine := false;
        } else if entry.node.Directory? {
          fine := relative in dirs;
          WorkPushed(pending, relative, entry.node.entries);
          pending := pending + [(relative, entry.node.entries)];
        } else if entry.node.File? && relative in allowed {
          seen := seen + {relative};
        } else {
          fine := false;
        }
        if !fine { Refused(root, allowed, x, entries); }
        done := done + {x};
        es := es[1..];
      }
      if !fine {
        return false;
      }
    }
    WalkEnds(root, allowed, done, entries);
    ok := seen == allowed;
  }

  lemma CountOpens(es: seq<Entry>)
    requires es != []
    ensures Count(es) == 1 + (if es[0].node.Directory? then Count(es[0].node.entries) else 0) + Count(es[1..])
  {
  }

  lemma FineCases(p: Path, n: Node, allowed: set<Path>, dirs: set<Path>)
    requires dirs == AllowedDirectories(allowed)
    ensures n.Link? || n.Other? ==> !Fine((p, KindOf(n)), allowed)
    ensures n.Directory? ==> (Fine((p, KindOf(n)), allowed) <==> p in dirs) && !KindOf(n).FileOf?
    ensures n.File? ==> (Fine((p, KindOf(n)), allowed) <==> p in allowed) && KindOf(n).FileOf?
  {
  }

  // ---------- what a conforming tree looks like ----------

  /** Every item lies below where the listing starts, behind one of its entries' names. */
  lemma {:induction false} Below(es: seq<Entry>, at: Path, x: Item)
    requires x in Listing(es, at)
    ensures |x.0| > |at| && x.0[..|at|] == at
    ensures exists i :: 0 <= i < |es| && es[i].name == x.0[|at|]
  {
    var path := at + [es[0].name];
    if x == (path, KindOf(es[0].node)) {
      assert es[0].name == x.0[|at|];
    } else if x in Listing(es[1..], at) {
      Below(es[1..], at, x);
      var i :| 0 <= i < |es[1..]| && es[1..][i].name == x.0[|at|];
      assert es[i + 1].name == x.0[|at|];
    } else {
      Below(es[0].node.entries, path, x);
      assert x.0[..|at|] == x.0[..|path|][..|at|] && x.0[|at|] == x.0[..|path|][|at|];
      assert es[0].name == x.0[|at|];
    }
  }

  lemma {:induction false} AncestorsListed(es: seq<Entry>, at: Path, x: Item, k: nat)
    requires x in Listing(es, at) && |at| < k < |x.0|
    ensures (x.0[..k], IsDirectory) in Listing(es, at)
  {
    var path := at + [es[0].name];
    if x == (path, KindOf(es[0].node)) {
      assert false;
    } else if x in Listing(es[1..], at) {
      AncestorsListed(es[1..], at, x, k);
    } else {
      Below(es[0].node.entries, path, x);
      if k == |path| {
        assert x.0[..k] == path;
      } else {
        AncestorsListed(es[0].node.entries, path, x, k);
      }
    }
  }

  /** A conforming tree has exactly the contract's files and exactly their ancestors as directories, so no
      empty directory either. */
  lemma ConformingShape(root: seq<Entry>, allowed: set<Path>)
    requires Conforms(root, allowed)
    ensures Files(Listing(root, [])) == allowed
    ensures Directories(Listing(root, [])) == AllowedDirectories(allowed)
  {
    var items := Listing(root, []);
    forall p | p in AllowedDirectories(allowed)
      ensures p in Directories(items)
    {
      assert AllowedDirectory(p, allowed);
      var f :| f in allowed && |p| < |f| && p == f[..|p|];
      assert f in Files(items);
      var x :| x in items && x.1.FileOf? && x.0 == f;
      AncestorsListed(root, [], x, |p|);
      assert (p, IsDirectory) in items;
    }
    forall p | p in Directories(items)
      ensures p in AllowedDirectories(allowed)
    {
      var x :| x in items && x.1.IsDirectory? && x.0 == p;
      assert Fine(x, allowed);
    }
  }

  /** Where names are distinct, an item comes from one entry only. */
  lemma ItemsApart(es: seq<Entry>, at: Path)
    requires es != [] && Named(es)
    ensures var path := at + [es[0].name];
      && (path, KindOf(es[0].node)) !in Listing(es[1..], at)
      && (es[0].node.Directory? ==>
            && (path, IsDirectory) !in Listing(es[0].node.entries, path)
            && Listing(es[0].node.entries, path) !! Listing(es[1..], at))
  {
    var path := at + [es[0].name];
    forall x | x in Listing(es[1..], at)
      ensures |x.0| > |at| && x.0[..|at| + 1] != path
    {
      Below(es[1..], at, x);
      assert path[|at|] == es[0].name;
    }
    if es[0].node.Directory? {
      forall x | x in Listing(es[0].node.entries, path)
        ensures |x.0| > |path| && x.0[..|at| + 1] == path
      {
        Below(es[0].node.entries, path, x);
      }
    }
    assert path[..|at| + 1] == path;
  }

  lemma {:induction false} CountListing(es: seq<Entry>, at: Path)
    requires Named(es)
    ensures |Listing(es, at)| == Count(es)
  {
    if es != [] {
      var path := at + [es[0].name];
      ItemsApart(es, at);
      CountListing(es[1..], at);
      if es[0].node.Directory? { CountListing(es[0].node.entries, path); }
    }
  }

  // ---------- the digests ----------

  /** The text of the file at this path below `es`. */
  function FileAt(es: seq<Entry>, p: Path): Option<Bytes>
    decreases es
  {
    if p == [] || es == [] then None
    else if es[0].name != p[0] then FileAt(es[1..], p)
    else if |p| == 1 then (if es[0].node.File? then Some(es[0].node.content) else None)
    else if es[0].node.Directory? then FileAt(es[0].node.entries, p[1..])
    else None
  }

  lemma {:induction false} FileAtListed(es: seq<Entry>, at: Path, p: Path, c: Bytes)
    requires Named(es)
    ensures FileAt(es, p) == Some(c) <==> (at + p, FileOf(c)) in Listing(es, at)
    decreases es
  {
    var x := (at + p, FileOf(c));
    if es != [] {
      var path := at + [es[0].name];
      FileAtListed(es[1..], at, p, c);
      if x in Listing(es, at) {
        Below(es, at, x);
      }
      if p != [] {
        assert x.0[|at|] == p[0];
        assert path[|at|] == es[0].name;
        if x in Listing(es[1..], at) { Below(es[1..], at, x); }
        assert |p| == 1 ==> at + p == at + [p[0]];
        if es[0].node.Directory? {
          var inner := es[0].node.entries;
          if x in Listing(inner, path) { Below(inner, path, x); assert x.0[..|path|][|at|] == p[0]; }
          if es[0].name == p[0] {
            FileAtListed(inner, path, p[1..], c);
            assert path + p[1..] == at + p;
          }
        }
      }
    }
  }

  const MAX_FILE := 600 * 1024 * 1024

  predicate Pinned<D(==)>(root: seq<Entry>, contract: map<Path, D>, digest: Bytes -> D, name: Path)
    requires name in contract
  {
    var c := FileAt(root, name);
    c.Some? && |c.value| <= MAX_FILE && digest(c.value) == contract[name]
  }

  ghost predicate Accepted<D(!new)>(root: Node, linkAbove: bool, contract: map<Path, D>, digest: Bytes -> D) {
    && root.Directory? && !linkAbove
    && Conforms(root.entries, contract.Keys)
    && (forall name :: name in contract ==>
         && FileAt(root.entries, name).Some? && |FileAt(root.entries, name).value| <= 629_145_600
         && digest(FileAt(root.entries, name).value) == contract[name])
  }

  /** The checks on the tree and its bytes; `linkAbove` says whether some parent of the directory is a link. */
  method ValidateArtifact<D(==,!new)>(root: Node, linkAbove: bool, contract: map<Path, D>, digest: Bytes -> D)
      returns (ok: bool)
    ensures ok <==> Accepted(root, linkAbove, contract, digest)
  {
    if !root.Directory? || linkAbove {
      return false;
    }
    var conforms := Walk(root.entries, contract.Keys);
    if !conforms {
      return false;
    }
    var rest := contract.Keys;
    while rest != {}
      invariant rest <= contract.Keys
      invariant forall name :: name in contract.Keys - rest ==> Pinned(root.entries, contract, digest, name)
    {
      var name :| name in rest;
      if !Pinned(root.entries, contract, digest, name) {
        return false;
      }
      rest := rest - {name};
    }
    forall name | name in contract
      ensures Pinned(root.entries, contract, digest, name)
    {
    }
    PinnedMeans(root.entries, contract, digest);
    ok := true;
  }

  lemma PinnedMeans<D(!new)>(root: seq<Entry>, contract: map<Path, D>, digest: Bytes -> D)
    requires forall name :: name in contract ==> Pinned(root, contract, digest, name)
    ensures forall name :: name in contract ==>
      && FileAt(root, name).Some? && |FileAt(root, name).value| <= 629_145_600
      && digest(FileAt(root, name).value) == contract[name]
  {
    forall name | name in contract
      ensures FileAt(root, name).Some? && |FileAt(root, name).value| <= 629_145_600
      ensures digest(FileAt(root, name).value) == contract[name]
    {
      assert Pinned(root, contract, digest, name);
    }
  }

  ghost predicate Injective<D(!new)>(digest: Bytes -> D) {
    forall a, b :: digest(a) == digest(b) ==> a == b
  }

  lemma AcceptedFiles<D(!new)>(one: Node, two: Node, contract: map<Path, D>, digest: Bytes -> D, x: Item)
    requires Injective(digest) && one.Directory? && two.Directory? && Named(one.entries) && Named(two.entries)
    requires Accepted(one, false, contract, digest) && Accepted(two, false, contract, digest)
    requires x in Listing(one.entries, [])
    ensures x in Listing(two.entries, [])
  {
    ConformingShape(one.entries, contract.Keys);
    ConformingShape(two.entries, contract.Keys);
    assert Fine(x, contract.Keys);
    if x.1.FileOf? {
      var name := x.0;
      assert name in contract;
      assert Pinned(one.entries, contract, digest, name) && Pinned(two.entries, contract, digest, name);
      assert [] + name == name;
      FileAtListed(one.entries, [], name, x.1.content);
      var c := FileAt(two.entries, name).value;
      assert digest(c) == digest(x.1.content);
      FileAtListed(two.entries, [], name, c);
    } else {
      assert x.0 in Directories(Listing(one.entries, []));
      assert x.0 in Directories(Listing(two.entries, []));
    }
  }

  /** A contract pins one artifact: beside a tree it accepts, it accepts exactly the trees with the same
      directories and the same files, byte for byte. */
  lemma ContractPinsArtifact<D(!new)>(good: Node, other: Node, contract: map<Path, D>, digest: Bytes -> D)
    requires Injective(digest) && good.Directory? && other.Directory? && Named(good.entries) && Named(other.entries)
    requires Accepted(good, false, contract, digest)
    ensures Accepted(other, false, contract, digest) <==> Listing(other.entries, []) == Listing(good.entries, [])
  {
    var items, same := Listing(good.entries, []), Listing(other.entries, []);
    if Accepted(other, false, contract, digest) {
      forall x | x in items ensures x in same { AcceptedFiles(good, other, contract, digest, x); }
      forall x | x in same ensures x in items { AcceptedFiles(other, good, contract, digest, x); }
    }
    if same == items {
      CountListing(good.entries, []);
      CountListing(other.entries, []);
      forall name | name in contract
        ensures Pinned(other.entries, contract, digest, name)
      {
        assert Pinned(good.entries, contract, digest, name);
        var c := FileAt(good.entries, name).value;
        FileAtListed(good.entries, [], name, c);
        FileAtListed(other.entries, [], name, c);
      }
    }
  }
}
