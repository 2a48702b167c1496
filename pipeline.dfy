/**
 * The pure part of `execute` (src/main.rs): the command's standard output
 * becomes the list of paths, the list becomes the untracked set, and the
 * tree is built from the root. Running the command and printing the tree
 * are not modelled: the output text and the directory are parameters.
 */
module Pipeline {

  import opened Wrappers
  import FileList
  import opened Tree
  import CorrectedTree

  /** `file_list.iter().map(|f| f.clone()).collect::<HashSet<String>>()`. */
  function UntrackedSet(lines: seq<string>): (u: set<string>)
    ensures forall x :: x in u <==> x in lines
  {
    set x | x in lines
  }

  /** `FileTree::new(&file_hash_set, &String::from("./"))`. */
  function BuildFromOutput(stdout: string, listing: seq<Entry>): Option<FileTree>
    requires Buildable(UntrackedSet(FileList.GetFileList(stdout)), Root, listing)
  {
    New(UntrackedSet(FileList.GetFileList(stdout)), Root, listing)
  }

  /** The run always yields a tree rooted at "./", and a regular file listed
      in the root is in its `files` exactly when its path less the leading
      "./" is a line of the command's output. */
  lemma BuildFromOutputRoot(stdout: string, listing: seq<Entry>)
    requires Buildable(UntrackedSet(FileList.GetFileList(stdout)), Root, listing)
    ensures BuildFromOutput(stdout, listing).Some?
    ensures BuildFromOutput(stdout, listing).value.dir == Some(Root)
    ensures forall f :: f in BuildFromOutput(stdout, listing).value.files <==>
              FileEntry(f.path, f.byteSize) in listing && f.path[2..] in FileList.GetFileList(stdout)
  {
  }

  /** With no untracked path in the output (only "\n"s, or nothing), the
      run still yields the root's tree, and that tree holds no file. */
  lemma EmptyOutputGivesEmptyTree(stdout: string, listing: seq<Entry>)
    requires forall i :: 0 <= i < |stdout| ==> stdout[i] == FileList.Newline
    requires Buildable(UntrackedSet(FileList.GetFileList(stdout)), Root, listing)
    ensures BuildFromOutput(stdout, listing).Some?
    ensures TreeFiles(BuildFromOutput(stdout, listing).value) == []
  {
    FileList.GetFileListEmpty(stdout);
    var u := UntrackedSet(FileList.GetFileList(stdout));
    assert u == {};
    NewProvenance(u, Root, listing);
    var fs := TreeFiles(BuildFromOutput(stdout, listing).value);
    if fs != [] {
      assert false;
    }
  }

  /** The run with the corrected builder of `CorrectedTree`. */
  function BuildFromOutputCorrected(stdout: string, listing: seq<Entry>): Option<FileTree>
    requires CorrectedTree.SliceableAll(listing)
  {
    CorrectedTree.NewCorrected(UntrackedSet(FileList.GetFileList(stdout)), Root, listing)
  }

  /** With the corrected builder, the run's tree holds exactly the regular
      files below "./" whose paths, less the leading "./", the command printed. */
  lemma BuildFromOutputCorrectedComplete(stdout: string, listing: seq<Entry>)
    requires CorrectedTree.SliceableAll(listing)
    ensures BuildFromOutputCorrected(stdout, listing).Some?
    ensures multiset(TreeFiles(BuildFromOutputCorrected(stdout, listing).value))
              == multiset(CorrectedTree.UntrackedFiles(UntrackedSet(FileList.GetFileList(stdout)), listing))
  {
    CorrectedTree.NewCorrectedExact(UntrackedSet(FileList.GetFileList(stdout)), Root, listing);
  }
}
