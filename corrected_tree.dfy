/**
 * `FileTree::new` prunes a directory, with everything below it, as soon as
 * the directory lists no untracked file of its own (src/main.rs:56). An
 * untracked file below such a directory, say `a/b/x.txt` with nothing
 * untracked directly in `a`, never reaches the tree, although the tool exists
 * to show every untracked file. `NestedUntrackedFileIsLost` exhibits this on
 * `New`; `NewCorrected` visits every subdirectory and keeps a node when its
 * subtree holds an untracked file, and `NewCorrectedExact` proves that its
 * tree holds exactly the untracked files.
 */
module CorrectedTree {

  import opened Wrappers
  import opened Tree

  /** `&fp[2..]` does not panic on any file at any depth below the listing,
      and no subdirectory is named like the root, as on a real filesystem,
      where a subdirectory's path is its parent's followed by its name. */
  predicate SliceableAll(listing: seq<Entry>)
  {
    Sliceable(listing) &&
    forall i :: 0 <= i < |listing| && listing[i].DirEntry? ==>
      listing[i].path != Root && SliceableAll(listing[i].listing)
  }

  lemma SliceableAllCons(listing: seq<Entry>)
    requires listing != [] && SliceableAll(listing)
    ensures SliceableAll(listing[1..]) && Sliceable([listing[0]])
    ensures listing[0].DirEntry? ==> listing[0].path != Root && SliceableAll(listing[0].listing)
  {
    assert forall e :: e in listing[1..] ==> e in listing;
    assert forall i :: 0 <= i < |listing| - 1 ==> listing[1..][i] == listing[i + 1];
  }

  /** Every untracked regular file at any depth below the listing. */
  function UntrackedFiles(u: set<string>, listing: seq<Entry>): seq<File>
    requires SliceableAll(listing)
    decreases listing, 1
  {
    if listing == [] then []
    else
      SliceableAllCons(listing);
      EntryUntracked(u, listing[0]) + UntrackedFiles(u, listing[1..])
  }

  /** The untracked regular files an entry stands for: itself, or all below it. */
  function EntryUntracked(u: set<string>, e: Entry): seq<File>
    requires e.FileEntry? ==> |e.path| >= 2
    requires e.DirEntry? ==> SliceableAll(e.listing)
    decreases e, 0
  {
    match e
    case FileEntry(p, size) => if p[2..] in u then [File(p, size)] else []
    case DirEntry(_, sub) => UntrackedFiles(u, sub)
    case OtherEntry(_) => []
  }

  /** The builder as evidently intended: every subdirectory is visited, and a
      node is kept when it or a kept subdirectory holds an untracked file, or
      when it is the root. */
  function NewCorrected(u: set<string>, path: string, listing: seq<Entry>): Option<FileTree>
    requires SliceableAll(listing)
    decreases listing, 1
  {
    var files := SelectFiles(u, listing);
    var nodes := ChildrenCorrected(u, listing);
    if files != [] || nodes != [] || path == Root then
      Some(FileTree(files, Some(path), nodes))
    else
      None
  }

  function ChildrenCorrected(u: set<string>, listing: seq<Entry>): (nodes: seq<FileTree>)
    requires SliceableAll(listing)
    ensures |nodes| <= |listing|
    decreases listing, 0
  {
    if listing == [] then []
    else
      SliceableAllCons(listing);
      EntryChild(u, listing[0]) + ChildrenCorrected(u, listing[1..])
  }

  /** The node one entry contributes: a kept subdirectory's, or none. */
  function EntryChild(u: set<string>, e: Entry): (nodes: seq<FileTree>)
    requires e.DirEntry? ==> SliceableAll(e.listing)
    ensures |nodes| <= 1
    decreases e
  {
    match e
    case DirEntry(p, sub) => (match NewCorrected(u, p, sub) case Some(t) => [t] case None => [])
    case _ => []
  }

  /** The corrected tree holds exactly the untracked files below the
      directory, each once for each time it is listed; no node is returned
      only when there is none to show and the directory is not the root. */
  lemma {:induction false} NewCorrectedExact(u: set<string>, path: string, listing: seq<Entry>)
    requires SliceableAll(listing)
    ensures NewCorrected(u, path, listing).Some? ==>
              multiset(TreeFiles(NewCorrected(u, path, listing).value)) == multiset(UntrackedFiles(u, listing))
    ensures NewCorrected(u, path, listing).None? <==> UntrackedFiles(u, listing) == [] && path != Root
    decreases listing, 1
  {
    ListingCorrected(u, listing);
    var files, nodes := SelectFiles(u, listing), ChildrenCorrected(u, listing);
    if files == [] && nodes != [] {
      ForestNonEmpty(nodes);
    }
  }

  /** A forest of corrected nodes holds a file. */
  lemma ForestNonEmpty(ts: seq<FileTree>)
    requires ts != []
    requires TreeFiles(ts[0]) != []
    ensures ForestFiles(ts) != []
  {
  }

  lemma {:induction false} ListingCorrected(u: set<string>, listing: seq<Entry>)
    requires SliceableAll(listing)
    ensures multiset(SelectFiles(u, listing) + ForestFiles(ChildrenCorrected(u, listing)))
              == multiset(UntrackedFiles(u, listing))
    ensures forall i :: 0 <= i < |ChildrenCorrected(u, listing)| ==>
              TreeFiles(ChildrenCorrected(u, listing)[i]) != []
    decreases listing, 0
  {
    if listing == [] {
      return;
    }
    SliceableAllCons(listing);
    var e, rest := listing[0], listing[1..];
    ListingCorrected(u, rest);
    if e.DirEntry? {
      KeptSubdirectory(u, e.path, e.listing);
    }
    EntryCorrected(u, e);
    ListingCons(u, listing);
  }

  /** Splitting a listing into its first entry and the rest. */
  lemma ListingCons(u: set<string>, listing: seq<Entry>)
    requires listing != [] && SliceableAll(listing)
    requires multiset(SelectFiles(u, [listing[0]]) + ForestFiles(EntryChild(u, listing[0])))
               == multiset(EntryUntracked(u, listing[0]))
    requires multiset(SelectFiles(u, listing[1..]) + ForestFiles(ChildrenCorrected(u, listing[1..])))
               == multiset(UntrackedFiles(u, listing[1..]))
    requires forall i :: 0 <= i < |EntryChild(u, listing[0])| ==> TreeFiles(EntryChild(u, listing[0])[i]) != []
    requires forall i :: 0 <= i < |ChildrenCorrected(u, listing[1..])| ==>
               TreeFiles(ChildrenCorrected(u, listing[1..])[i]) != []
    ensures multiset(SelectFiles(u, listing) + ForestFiles(ChildrenCorrected(u, listing)))
              == multiset(UntrackedFiles(u, listing))
    ensures forall i :: 0 <= i < |ChildrenCorrected(u, listing)| ==>
              TreeFiles(ChildrenCorrected(u, listing)[i]) != []
  {
    SliceableAllCons(listing);
    var e, rest := listing[0], listing[1..];
    assert listing == [e] + rest;
    SelectFilesAppend(u, [e], rest);
    var o0, o1 := SelectFiles(u, [e]), SelectFiles(u, rest);
    var c0, c1 := EntryChild(u, e), ChildrenCorrected(u, rest);
    ForestFilesAppend(c0, c1);
    var k0, k1 := ForestFiles(c0), ForestFiles(c1);
    assert ChildrenCorrected(u, listing) == c0 + c1;
    assert SelectFiles(u, listing) + ForestFiles(ChildrenCorrected(u, listing)) == (o0 + o1) + (k0 + k1);
    assert UntrackedFiles(u, listing) == EntryUntracked(u, e) + UntrackedFiles(u, rest);
    ExactAppend(o0, k0, o1, k1, EntryUntracked(u, e), UntrackedFiles(u, rest));
  }

  lemma ExactAppend(o0: seq<File>, k0: seq<File>, o1: seq<File>, k1: seq<File>, d0: seq<File>, d1: seq<File>)
    requires multiset(o0 + k0) == multiset(d0) && multiset(o1 + k1) == multiset(d1)
    ensures multiset((o0 + o1) + (k0 + k1)) == multiset(d0 + d1)
  {
    BagReorder(o0, k0, o1, k1);
  }

  /** A subdirectory (never the root) is kept exactly when its subtree holds
      an untracked file, and then with exactly those files. */
  lemma KeptSubdirectory(u: set<string>, path: string, listing: seq<Entry>)
    requires SliceableAll(listing) && path != Root
    ensures NewCorrected(u, path, listing).Some? ==>
              && multiset(TreeFiles(NewCorrected(u, path, listing).value)) == multiset(UntrackedFiles(u, listing))
              && TreeFiles(NewCorrected(u, path, listing).value) != []
    ensures NewCorrected(u, path, listing).None? ==> UntrackedFiles(u, listing) == []
    decreases listing, 2
  {
    NewCorrectedExact(u, path, listing);
    if NewCorrected(u, path, listing).Some? {
      assert multiset(UntrackedFiles(u, listing)) != multiset{};
    }
  }

  /** One entry: its contribution to its directory's node and to the nodes
      below holds exactly the untracked files it stands for, given that the
      subdirectory's own node does. */
  lemma EntryCorrected(u: set<string>, e: Entry)
    requires Sliceable([e])
    requires e.DirEntry? ==> SliceableAll(e.listing)
    requires e.DirEntry? && NewCorrected(u, e.path, e.listing).Some? ==>
               && multiset(TreeFiles(NewCorrected(u, e.path, e.listing).value)) == multiset(UntrackedFiles(u, e.listing))
               && TreeFiles(NewCorrected(u, e.path, e.listing).value) != []
    requires e.DirEntry? && NewCorrected(u, e.path, e.listing).None? ==> UntrackedFiles(u, e.listing) == []
    ensures e.FileEntry? ==> |e.path| >= 2
    ensures multiset(SelectFiles(u, [e]) + ForestFiles(EntryChild(u, e))) == multiset(EntryUntracked(u, e))
    ensures forall i :: 0 <= i < |EntryChild(u, e)| ==> TreeFiles(EntryChild(u, e)[i]) != []
  {
    assert e in [e];
    var own, below := SelectFiles(u, [e]), ForestFiles(EntryChild(u, e));
    assert [e][1..] == [];
    assert SelectFiles(u, [e][1..]) == [];
    match e
    case FileEntry(p, size) =>
      assert below == [];
      assert own == EntryUntracked(u, e);
      assert own + below == EntryUntracked(u, e);
    case DirEntry(p, sub) =>
      assert own == [];
      assert EntryUntracked(u, e) == UntrackedFiles(u, sub);
      if NewCorrected(u, p, sub).Some? {
        var t := NewCorrected(u, p, sub).value;
        assert EntryChild(u, e) == [t];
        assert ForestFiles([t]) == TreeFiles(t) + ForestFiles([t][1..]);
        assert [t][1..] == [];
        assert own + below == TreeFiles(t);
      } else {
        assert EntryChild(u, e) == [];
        assert own + below == [];
      }
    case OtherEntry(_) =>
      assert own == [] && below == [];
      assert own + below == [] == EntryUntracked(u, e);
  }

  /** The corrected builder always yields a tree for the root. */
  lemma CorrectedRootAlwaysBuilds(u: set<string>, listing: seq<Entry>)
    requires SliceableAll(listing)
    ensures NewCorrected(u, Root, listing).Some?
  {
  }

  /** The program as written loses `./a/b/x.txt`: `a` holds no untracked file
      of its own, so neither `a` nor `a/b` is visited, and the root's tree is
      empty although `a/b/x.txt` is untracked. The corrected builder keeps it. */
  lemma NestedUntrackedFileIsLost()
    ensures var u := {"a/b/x.txt"};
            var x := FileEntry("./a/b/x.txt", 5);
            var listing := [DirEntry("./a", [DirEntry("./a/b", [x])])];
            && Buildable(u, Root, listing)
            && SliceableAll(listing)
            && UntrackedFiles(u, listing) == [File("./a/b/x.txt", 5)]
            && New(u, Root, listing) == Some(FileTree([], Some(Root), []))
            && TreeFiles(New(u, Root, listing).value) == []
            && File("./a/b/x.txt", 5) in TreeFiles(NewCorrected(u, Root, listing).value)
  {
    var u := {"a/b/x.txt"};
    var x := FileEntry("./a/b/x.txt", 5);
    var inner := [x];
    var middle := [DirEntry("./a/b", inner)];
    var listing := [DirEntry("./a", middle)];
    assert "./a/b/x.txt"[2..] == "a/b/x.txt";
    assert SelectFiles(u, inner) == [File("./a/b/x.txt", 5)];
    assert SelectFiles(u, middle) == [];
    assert SelectFiles(u, listing) == [];
    assert "./a" != Root;
    assert Buildable(u, "./a", middle);
    assert New(u, "./a", middle) == None;
    assert AllBuildable(u, listing[1..]);
    assert AllBuildable(u, listing);
    assert Children(u, listing) == [];
    assert Buildable(u, Root, listing);
    assert SliceableAll(inner) && SliceableAll(middle) && SliceableAll(listing);
    NewCorrectedExact(u, Root, listing);
    assert UntrackedFiles(u, inner) == [File("./a/b/x.txt", 5)];
    assert UntrackedFiles(u, middle) == [File("./a/b/x.txt", 5)];
    assert UntrackedFiles(u, listing) == [File("./a/b/x.txt", 5)];
    assert File("./a/b/x.txt", 5) in multiset(TreeFiles(NewCorrected(u, Root, listing).value));
  }
}
