/**
 * `FileTree::new` (src/main.rs): one node per directory that is kept, holding
 * the untracked files listed directly in it and the nodes of its kept
 * subdirectories. The filesystem (`fs::read_dir` and `metadata`) is replaced
 * by a finite directory value, so the recursion is structural.
 */
module Tree {

  import opened Wrappers

  type u64 = x: int | 0 <= x < 0x1_0000_0000_0000_0000

  /** The path `execute` starts from; only this directory is kept without files. */
  const Root: string := "./"

  /** One entry of a directory as `read_dir` and `metadata` report it: its
      path (the listed directory's path followed by the entry's name) and its
      kind. A subdirectory carries its own listing; an entry that is neither a
      regular file nor a directory (a fifo, a socket) is `OtherEntry`. */
  datatype Entry =
    | FileEntry(path: string, size: u64)
    | DirEntry(path: string, listing: seq<Entry>)
    | OtherEntry(path: string)

  /** `struct File`. */
  datatype File = File(path: string, byteSize: u64)

  /** `struct FileTree`. */
  datatype FileTree = FileTree(files: seq<File>, dir: Option<string>, nodes: seq<FileTree>)

  // ---------------------------------------------------------------------
  // Selecting the files of one directory
  // ---------------------------------------------------------------------

  /** `&fp[2..]` does not panic on any file entry of this listing. */
  predicate Sliceable(listing: seq<Entry>)
  {
    forall e :: e in listing && e.FileEntry? ==> |e.path| >= 2
  }

  /** The entry is a regular file whose path, less its first two characters
      (the leading "./"), is in the untracked set. */
  predicate IsUntracked(u: set<string>, e: Entry)
    requires e.FileEntry? ==> |e.path| >= 2
  {
    e.FileEntry? && e.path[2..] in u
  }

  /** The `files` of one node (src/main.rs:42-51): the untracked regular
      files of the listing, each with the size its metadata reports. */
  function SelectFiles(u: set<string>, listing: seq<Entry>): (files: seq<File>)
    requires Sliceable(listing)
    ensures |files| <= |listing|
    ensures forall f :: f in files <==> FileEntry(f.path, f.byteSize) in listing && f.path[2..] in u
  {
    if listing == [] then []
    else
      var e := listing[0];
      (if IsUntracked(u, e) then [File(e.path, e.size)] else []) + SelectFiles(u, listing[1..])
  }

  /** Listing order is kept: selecting from two listings in a row is selecting
      from each and appending. */
  lemma {:induction false} SelectFilesAppend(u: set<string>, a: seq<Entry>, b: seq<Entry>)
    requires Sliceable(a + b)
    ensures Sliceable(a) && Sliceable(b)
    ensures SelectFiles(u, a + b) == SelectFiles(u, a) + SelectFiles(u, b)
  {
    assert forall e :: e in a ==> e in a + b;
    assert forall e :: e in b ==> e in a + b;
    if a == [] {
      assert a + b == b;
    } else {
      assert (a + b)[1..] == a[1..] + b;
      SelectFilesAppend(u, a[1..], b);
    }
  }

  // ---------------------------------------------------------------------
  // FileTree::new
  // ---------------------------------------------------------------------

  /** `files.len() > 0 || path == "./"`: the node is returned and its
      subdirectories are visited. */
  predicate Survives(u: set<string>, path: string, listing: seq<Entry>)
    requires Sliceable(listing)
  {
    SelectFiles(u, listing) != [] || path == Root
  }

  /** `FileTree::new(u, path)` runs without panicking: the slice succeeds on
      every file it inspects, here and in every subdirectory it visits. */
  predicate Buildable(u: set<string>, path: string, listing: seq<Entry>)
    decreases listing, 1
  {
    Sliceable(listing) && (Survives(u, path, listing) ==> AllBuildable(u, listing))
  }

  /** Every subdirectory of the listing is `Buildable`. */
  predicate AllBuildable(u: set<string>, listing: seq<Entry>)
    decreases listing, 0
  {
    listing == [] ||
    ((listing[0].DirEntry? ==> Buildable(u, listing[0].path, listing[0].listing))
     && AllBuildable(u, listing[1..]))
  }

  /** `FileTree::new(untracked_files, path)` over the directory's listing. */
  function New(u: set<string>, path: string, listing: seq<Entry>): Option<FileTree>
    requires Buildable(u, path, listing)
    decreases listing, 1
  {
    var files := SelectFiles(u, listing);
    if |files| > 0 || path == Root then
      Some(FileTree(files, Some(path), Children(u, listing)))
    else
      None
  }

  /** `dirs.into_iter().filter_map(|dir| FileTree::new(..))`: the results of
      the subdirectories that returned a node, in listing order. */
  function Children(u: set<string>, listing: seq<Entry>): (nodes: seq<FileTree>)
    requires AllBuildable(u, listing)
    ensures |nodes| <= |listing|
    decreases listing, 0
  {
    if listing == [] then [] else Kept(u, listing[0]) + Children(u, listing[1..])
  }

  /** What one entry adds to `nodes`: a subdirectory's node when
      `FileTree::new` returned one, and nothing otherwise. */
  function Kept(u: set<string>, e: Entry): (nodes: seq<FileTree>)
    requires e.DirEntry? ==> Buildable(u, e.path, e.listing)
    ensures |nodes| <= 1
    decreases e
  {
    match e
    case DirEntry(p, sub) => (match New(u, p, sub) case Some(t) => [t] case None => [])
    case _ => []
  }

  /** A node is returned exactly when the directory lists an untracked
      regular file, or is the root. */
  lemma NewSomeIff(u: set<string>, path: string, listing: seq<Entry>)
    requires Buildable(u, path, listing)
    ensures New(u, path, listing).Some? <==>
              (exists e :: e in listing && IsUntracked(u, e)) || path == Root
  {
    var files := SelectFiles(u, listing);
    if exists e :: e in listing && IsUntracked(u, e) {
      var e :| e in listing && IsUntracked(u, e);
      assert File(e.path, e.size) in files;
    }
    if files != [] {
      assert files[0] in files;
      assert IsUntracked(u, FileEntry(files[0].path, files[0].byteSize));
    }
  }

  /** The root always yields a tree. */
  lemma RootAlwaysBuilds(u: set<string>, listing: seq<Entry>)
    requires Buildable(u, Root, listing)
    ensures New(u, Root, listing).Some?
  {
  }

  /** A directory other than the root with no untracked regular file of its
      own is dropped, whatever its subdirectories hold. */
  lemma PrunedWithoutOwnFiles(u: set<string>, path: string, listing: seq<Entry>)
    requires Buildable(u, path, listing)
    requires path != Root
    requires forall e :: e in listing ==> !IsUntracked(u, e)
    ensures New(u, path, listing) == None
  {
    NewSomeIff(u, path, listing);
  }

  /** A returned node names its directory, and every subdirectory it
      visited was buildable. */
  lemma NodeShape(u: set<string>, path: string, listing: seq<Entry>)
    requires Buildable(u, path, listing)
    requires New(u, path, listing).Some?
    ensures AllBuildable(u, listing)
    ensures New(u, path, listing).value.dir == Some(path)
  {
  }

  /** The children of two listings in a row are the children of each, appended. */
  lemma {:induction false} ChildrenAppend(u: set<string>, a: seq<Entry>, b: seq<Entry>)
    requires AllBuildable(u, a + b)
    ensures AllBuildable(u, a) && AllBuildable(u, b)
    ensures Children(u, a + b) == Children(u, a) + Children(u, b)
  {
    if a == [] {
      assert a + b == b;
    } else {
      assert (a + b)[0] == a[0];
      assert (a + b)[1..] == a[1..] + b;
      ChildrenAppend(u, a[1..], b);
    }
  }

  /** `nodes` holds exactly the nodes that `FileTree::new` returned for the
      listing's subdirectories. */
  lemma {:induction false} ChildrenMembers(u: set<string>, listing: seq<Entry>)
    requires AllBuildable(u, listing)
    ensures forall t :: t in Children(u, listing) <==>
              exists i :: 0 <= i < |listing| && listing[i].DirEntry? &&
                Buildable(u, listing[i].path, listing[i].listing) &&
                New(u, listing[i].path, listing[i].listing) == Some(t)
  {
    if listing != [] {
      var rest := listing[1..];
      ChildrenMembers(u, rest);
      assert Children(u, listing) == Kept(u, listing[0]) + Children(u, rest);
      forall t | t in Children(u, listing)
        ensures exists i :: 0 <= i < |listing| && listing[i].DirEntry? &&
                  Buildable(u, listing[i].path, listing[i].listing) &&
                  New(u, listing[i].path, listing[i].listing) == Some(t)
      {
        if t !in Kept(u, listing[0]) {
          assert t in Children(u, rest);
          var j :| 0 <= j < |rest| && rest[j].DirEntry? &&
                   Buildable(u, rest[j].path, rest[j].listing) &&
                   New(u, rest[j].path, rest[j].listing) == Some(t);
          assert rest[j] == listing[j + 1];
        }
      }
      forall t | exists i :: 0 <= i < |listing| && listing[i].DirEntry? &&
                   Buildable(u, listing[i].path, listing[i].listing) &&
                   New(u, listing[i].path, listing[i].listing) == Some(t)
        ensures t in Children(u, listing)
      {
        var i :| 0 <= i < |listing| && listing[i].DirEntry? &&
                 Buildable(u, listing[i].path, listing[i].listing) &&
                 New(u, listing[i].path, listing[i].listing) == Some(t);
        if i > 0 {
          assert rest[i - 1] == listing[i];
        }
      }
    }
  }

  // ---------------------------------------------------------------------
  // Shape of the whole tree
  // ---------------------------------------------------------------------

  /** Every node names its directory, and every node but the root holds at
      least one file. */
  predicate WellShaped(t: FileTree)
  {
    && t.dir.Some?
    && (t.dir.value != Root ==> t.files != [])
    && forall i :: 0 <= i < |t.nodes| ==> WellShaped(t.nodes[i])
  }

  lemma {:induction false} NewWellShaped(u: set<string>, path: string, listing: seq<Entry>)
    requires Buildable(u, path, listing)
    ensures New(u, path, listing).Some? ==> WellShaped(New(u, path, listing).value)
    decreases listing, 1
  {
    if New(u, path, listing).Some? {
      ChildrenWellShaped(u, listing);
    }
  }

  lemma {:induction false} ChildrenWellShaped(u: set<string>, listing: seq<Entry>)
    requires AllBuildable(u, listing)
    ensures forall i :: 0 <= i < |Children(u, listing)| ==> WellShaped(Children(u, listing)[i])
    decreases listing, 0
  {
    if listing != [] {
      ChildrenWellShaped(u, listing[1..]);
      if listing[0].DirEntry? {
        NewWellShaped(u, listing[0].path, listing[0].listing);
      }
    }
  }

  // ---------------------------------------------------------------------
  // Where the files of a tree come from
  // ---------------------------------------------------------------------

  /** Every file of a tree, node by node in pre-order. */
  function TreeFiles(t: FileTree): seq<File>
    decreases t, 1
  {
    t.files + ForestFiles(t.nodes)
  }

  function ForestFiles(ts: seq<FileTree>): seq<File>
    decreases ts, 0
  {
    if ts == [] then [] else TreeFiles(ts[0]) + ForestFiles(ts[1..])
  }

  /** The paths of the files, in the same order. */
  function Paths(fs: seq<File>): (ps: seq<string>)
  {
    seq(|fs|, i requires 0 <= i < |fs| => fs[i].path)
  }

  /** Every regular file at any depth below the listing. */
  function DiskFiles(listing: seq<Entry>): seq<File>
    decreases listing, 1
  {
    if listing == [] then [] else EntryFiles(listing[0]) + DiskFiles(listing[1..])
  }

  /** The regular files an entry stands for: itself, or all below it. */
  function EntryFiles(e: Entry): seq<File>
    decreases e, 0
  {
    match e
    case FileEntry(p, size) => [File(p, size)]
    case DirEntry(_, sub) => DiskFiles(sub)
    case OtherEntry(_) => []
  }

  /** No value occurs twice. */
  predicate Distinct(s: seq<string>)
  {
    forall x :: x in s ==> multiset(s)[x] <= 1
  }

  lemma {:induction false} ForestFilesAppend(a: seq<FileTree>, b: seq<FileTree>)
    ensures ForestFiles(a + b) == ForestFiles(a) + ForestFiles(b)
  {
    if a == [] {
      assert a + b == b;
    } else {
      assert (a + b)[1..] == a[1..] + b;
      ForestFilesAppend(a[1..], b);
    }
  }

  lemma PathsAppend(a: seq<File>, b: seq<File>)
    ensures Paths(a + b) == Paths(a) + Paths(b)
  {
    assert forall i :: 0 <= i < |a + b| ==> Paths(a + b)[i] == (Paths(a) + Paths(b))[i];
  }

  /** The files a node and its subtrees hold are regular files listed below
      that directory, none more often than it is listed, each untracked. */
  lemma {:induction false} NewProvenance(u: set<string>, path: string, listing: seq<Entry>)
    requires Buildable(u, path, listing)
    requires New(u, path, listing).Some?
    ensures DrawnFrom(u, TreeFiles(New(u, path, listing).value), DiskFiles(listing))
    decreases listing, 1
  {
    ListingProvenance(u, listing);
  }

  /** `fs` could have been drawn from `disk`: no file and no path occurs in
      `fs` more often than in `disk`, and each file of `fs` is untracked. */
  predicate DrawnFrom(u: set<string>, fs: seq<File>, disk: seq<File>)
  {
    && multiset(fs) <= multiset(disk)
    && multiset(Paths(fs)) <= multiset(Paths(disk))
    && forall f :: f in fs ==> |f.path| >= 2 && f.path[2..] in u
  }

  lemma DrawnFromAppend(u: set<string>, a: seq<File>, b: seq<File>, da: seq<File>, db: seq<File>)
    requires DrawnFrom(u, a, da) && DrawnFrom(u, b, db)
    ensures DrawnFrom(u, a + b, da + db)
  {
    PathsAppend(a, b);
    PathsAppend(da, db);
  }

  lemma BagReorder<T>(a: seq<T>, b: seq<T>, c: seq<T>, d: seq<T>)
    ensures multiset((a + b) + (c + d)) == multiset((a + c) + (b + d))
  {
  }

  lemma DrawnFromReorder(u: set<string>, o0: seq<File>, k0: seq<File>, o1: seq<File>, k1: seq<File>, d: seq<File>)
    requires DrawnFrom(u, (o0 + k0) + (o1 + k1), d)
    ensures DrawnFrom(u, (o0 + o1) + (k0 + k1), d)
  {
    var before, after := (o0 + k0) + (o1 + k1), (o0 + o1) + (k0 + k1);
    BagReorder(o0, k0, o1, k1);
    PathsAppend(o0, k0);
    PathsAppend(o1, k1);
    PathsAppend(o0 + k0, o1 + k1);
    PathsAppend(o0, o1);
    PathsAppend(k0, k1);
    PathsAppend(o0 + o1, k0 + k1);
    BagReorder(Paths(o0), Paths(k0), Paths(o1), Paths(k1));
    assert multiset(Paths(after)) == multiset(Paths(before));
    assert forall f :: f in after ==> f in before;
  }

  lemma DrawnFromSelf(u: set<string>, f: File)
    requires |f.path| >= 2 && f.path[2..] in u
    ensures DrawnFrom(u, [], [f]) && DrawnFrom(u, [f], [f])
  {
  }

  /** One entry: what it contributes to its directory's node and to the
      nodes below is drawn from the files below it, given that this holds
      of the subdirectory's own node. */
  lemma EntryProvenance(u: set<string>, e: Entry)
    requires Sliceable([e]) && AllBuildable(u, [e])
    requires e.DirEntry? && New(u, e.path, e.listing).Some? ==>
               DrawnFrom(u, TreeFiles(New(u, e.path, e.listing).value), DiskFiles(e.listing))
    ensures DrawnFrom(u, SelectFiles(u, [e]) + ForestFiles(Children(u, [e])), DiskFiles([e]))
  {
    var own, below := SelectFiles(u, [e]), ForestFiles(Children(u, [e]));
    assert [e][1..] == [];
    assert Children(u, [e]) == Kept(u, e) + Children(u, []);
    assert DiskFiles([e][1..]) == [] && SelectFiles(u, [e][1..]) == [];
    match e
    case FileEntry(p, size) =>
      assert below == [];
      assert DiskFiles([e]) == [File(p, size)];
      if IsUntracked(u, e) {
        assert own == [File(p, size)];
        DrawnFromSelf(u, File(p, size));
      } else {
        assert own == [];
        assert DrawnFrom(u, [], [File(p, size)]);
      }
      assert own + below == own;
    case DirEntry(p, sub) =>
      assert own == [];
      assert DiskFiles([e]) == DiskFiles(sub);
      if New(u, p, sub).Some? {
        var t := New(u, p, sub).value;
        assert Children(u, [e]) == [t];
        assert ForestFiles([t]) == TreeFiles(t) + ForestFiles([t][1..]);
        assert [t][1..] == [];
        assert own + below == TreeFiles(t);
        assert DrawnFrom(u, TreeFiles(t), DiskFiles(sub));
      } else {
        assert below == [];
        assert DrawnFrom(u, own + below, DiskFiles(sub));
      }
    case OtherEntry(_) =>
      assert own == [] && below == [];
      assert own + below == [];
  }

  lemma DiskFilesCons(listing: seq<Entry>)
    requires listing != []
    ensures DiskFiles(listing) == DiskFiles([listing[0]]) + DiskFiles(listing[1..])
  {
    var e := listing[0];
    assert [e][1..] == [];
    assert DiskFiles([e]) == EntryFiles(e) + DiskFiles([]);
  }

  lemma {:induction false} ListingProvenance(u: set<string>, listing: seq<Entry>)
    requires Sliceable(listing) && AllBuildable(u, listing)
    ensures DrawnFrom(u, SelectFiles(u, listing) + ForestFiles(Children(u, listing)), DiskFiles(listing))
    decreases listing, 0
  {
    if listing == [] {
      return;
    }
    var head, rest := [listing[0]], listing[1..];
    assert listing == head + rest;
    SelectFilesAppend(u, head, rest);
    ChildrenAppend(u, head, rest);
    if listing[0].DirEntry? && New(u, listing[0].path, listing[0].listing).Some? {
      NewProvenance(u, listing[0].path, listing[0].listing);
    }
    EntryProvenance(u, listing[0]);
    ListingProvenance(u, rest);
    var o0, o1 := SelectFiles(u, head), SelectFiles(u, rest);
    var c0, c1 := Children(u, head), Children(u, rest);
    ForestFilesAppend(c0, c1);
    var k0, k1 := ForestFiles(c0), ForestFiles(c1);
    DiskFilesCons(listing);
    DrawnFromAppend(u, o0 + k0, o1 + k1, DiskFiles(head), DiskFiles(rest));
    DrawnFromReorder(u, o0, k0, o1, k1, DiskFiles(listing));
    assert SelectFiles(u, listing) + ForestFiles(Children(u, listing)) == (o0 + o1) + (k0 + k1);
  }

  /** On a filesystem where every file path is listed once, no path occurs
      twice among the files of the tree. */
  lemma NoPathTwiceInTree(u: set<string>, path: string, listing: seq<Entry>)
    requires Buildable(u, path, listing)
    requires Distinct(Paths(DiskFiles(listing)))
    requires New(u, path, listing).Some?
    ensures Distinct(Paths(TreeFiles(New(u, path, listing).value)))
  {
    NewProvenance(u, path, listing);
    var ps, ds := Paths(TreeFiles(New(u, path, listing).value)), Paths(DiskFiles(listing));
    forall x | x in ps
      ensures multiset(ps)[x] <= 1
    {
      assert multiset(ps)[x] <= multiset(ds)[x];
      assert x in ds;
    }
  }

  lemma DistinctAppend(a: seq<string>, b: seq<string>)
    requires Distinct(a + b)
    ensures Distinct(a) && Distinct(b)
    ensures forall x :: x in a ==> x !in b
  {
    assert multiset(a + b) == multiset(a) + multiset(b);
    forall x | x in a
      ensures x !in b && multiset(a)[x] <= 1
    {
      assert x in a + b;
    }
    forall x | x in b
      ensures multiset(b)[x] <= 1
    {
      assert x in a + b;
    }
  }

  lemma ForestSplit(ts: seq<FileTree>, i: nat)
    requires i < |ts|
    ensures ForestFiles(ts) == ForestFiles(ts[..i]) + (TreeFiles(ts[i]) + ForestFiles(ts[i + 1..]))
  {
    assert ts == ts[..i] + ts[i..];
    ForestFilesAppend(ts[..i], ts[i..]);
    assert ts[i..][1..] == ts[i + 1..];
  }

  /** The paths of one subtree of a forest, and the paths of all subtrees after it. */
  lemma ForestPathsSplit(ts: seq<FileTree>, i: nat)
    requires i < |ts|
    ensures Paths(ForestFiles(ts)) ==
              Paths(ForestFiles(ts[..i])) + (Paths(TreeFiles(ts[i])) + Paths(ForestFiles(ts[i + 1..])))
  {
    ForestSplit(ts, i);
    PathsAppend(TreeFiles(ts[i]), ForestFiles(ts[i + 1..]));
    PathsAppend(ForestFiles(ts[..i]), TreeFiles(ts[i]) + ForestFiles(ts[i + 1..]));
  }

  lemma SubtreeDistinct(ts: seq<FileTree>, i: nat)
    requires i < |ts| && Distinct(Paths(ForestFiles(ts)))
    ensures Distinct(Paths(TreeFiles(ts[i])))
    ensures forall p :: p in Paths(TreeFiles(ts[i])) ==> p !in Paths(ForestFiles(ts[i + 1..]))
  {
    ForestPathsSplit(ts, i);
    DistinctAppend(Paths(ForestFiles(ts[..i])), Paths(TreeFiles(ts[i])) + Paths(ForestFiles(ts[i + 1..])));
    DistinctAppend(Paths(TreeFiles(ts[i])), Paths(ForestFiles(ts[i + 1..])));
  }

  lemma SubtreesDisjoint(ts: seq<FileTree>, i: nat, j: nat)
    requires i < j < |ts| && Distinct(Paths(ForestFiles(ts)))
    ensures forall p :: p in Paths(TreeFiles(ts[i])) ==> p !in Paths(TreeFiles(ts[j]))
  {
    SubtreeDistinct(ts, i);
    var rest := ts[i + 1..];
    ForestPathsSplit(rest, j - i - 1);
    assert rest[j - i - 1] == ts[j];
  }

  /** A tree whose paths are distinct splits into parts that share no path:
      a node's own files and its subtrees, and any two different subtrees;
      the subtrees keep the property. */
  lemma DistinctParts(t: FileTree)
    requires Distinct(Paths(TreeFiles(t)))
    ensures forall p :: p in Paths(t.files) ==> p !in Paths(ForestFiles(t.nodes))
    ensures forall i :: 0 <= i < |t.nodes| ==> Distinct(Paths(TreeFiles(t.nodes[i])))
    ensures forall i, j, p :: 0 <= i < j < |t.nodes| && p in Paths(TreeFiles(t.nodes[i])) ==>
              p !in Paths(TreeFiles(t.nodes[j]))
  {
    PathsAppend(t.files, ForestFiles(t.nodes));
    DistinctAppend(Paths(t.files), Paths(ForestFiles(t.nodes)));
    forall i | 0 <= i < |t.nodes|
      ensures Distinct(Paths(TreeFiles(t.nodes[i])))
    {
      SubtreeDistinct(t.nodes, i);
    }
    forall i, j | 0 <= i < j < |t.nodes|
      ensures forall p :: p in Paths(TreeFiles(t.nodes[i])) ==> p !in Paths(TreeFiles(t.nodes[j]))
    {
      SubtreesDisjoint(t.nodes, i, j);
    }
  }
}
