# file-list-size: a Dafny model of its untracked-file tree

`file-list-size` runs `git ls-files --others --exclude-standard`, takes the
paths it prints as the set of untracked files, and builds a `FileTree` from
the working directory `./`. Each node holds the untracked regular files
listed directly in its directory, with their sizes, and the nodes of its
subdirectories. A directory other than `./` that lists no untracked file of
its own is pruned, and its subdirectories are never visited. `src/main.rs`
also defines `size_str`, used only by its tests, whose string step
`truncate_decimal` keeps one digit after the point.

This project models the three pure parts of `src/main.rs`. Each is written as
Dafny datatypes, functions and lemmas:

- `file_list.dfy`, module `FileList`: `get_file_list_from`. It splits the
  command output on `"\n"` (Rust's `str::split`, empty pieces included) and
  then drops the empty pieces.
- `decimal.dfy`, module `Decimal`: `truncate_decimal`, over `seq<char>`.
- `tree.dfy`, module `Tree`: the `File` and `FileTree` structs and
  `FileTree::new`. The filesystem is a finite value: `Entry` is a regular
  file with its path and size, a directory with its path and its own listing,
  or an entry that is neither (`metadata` of a fifo, a socket or a symbolic
  link, since `DirEntry::metadata` does not follow links). Because the
  recursion follows this value, termination is structural.
- `corrected_tree.dfy`, module `CorrectedTree`: the pruning defect described
  under "## Findings", and a corrected builder.
- `pipeline.dfy`, module `Pipeline`: the pure steps of `execute`. The output
  text becomes the path list, the list becomes a `HashSet`, and the tree is
  built from `./`.
- `wrappers.dfy`, module `Wrappers`: `Option`.

Where a Rust `unwrap` or slice can panic, the model has a precondition instead:

- `TruncateDecimal` requires `CanTruncate`: the first `'.'` is not the last
  character, so `s[..index + 2]` exists.
- `New` requires `Buildable`. This says that `&fp[2..]` succeeds on every file
  entry that `FileTree::new` inspects. That means the files of the directory
  itself and of every subdirectory it goes on to visit. Files below a pruned
  directory are never sliced, because its subdirectories are never visited,
  so nothing is required of them.

`FileTree::new` re-lists each directory it visits and stores no size other
than each file's own.

## Model

| member | source | states |
|---|---|---|
| FileList.Split | src/main.rs:100 | `split("\n")` yields at least one piece, and no piece contains `"\n"` |
| FileList.JoinSplit | src/main.rs:100 | splitting loses nothing: joining the pieces with `"\n"` gives back the original text |
| FileList.DropEmpty | src/main.rs:101 | a piece is kept exactly when it is a non-empty input piece (as a set), and there are no more kept pieces than input pieces |
| FileList.DropEmptyAppend | src/main.rs:101 | order and multiplicity are kept: filtering two lists appended is filtering each and appending, so each non-empty piece stays once per occurrence, in place |
| FileList.GetFileList | src/main.rs:98-104 | no returned path is empty, and none contains `"\n"` |
| FileList.ConcatSplit | src/main.rs:100 | the pieces of a split, concatenated, are the text with every `"\n"` removed |
| FileList.ConcatDropEmpty | src/main.rs:101 | dropping the empty pieces does not change their concatenation |
| FileList.GetFileListKeepsOrder | src/main.rs:99-103 | order is kept: concatenating the returned paths gives the input with every `"\n"` removed |
| FileList.GetFileListEmpty | src/main.rs:98-104 | the list is empty exactly when the output is empty or holds only `"\n"`s |
| Decimal.FirstIndexOf | src/main.rs:124-129 | `enumerate().filter(..).nth(0)` is None exactly when the character is absent; otherwise it is the index of an occurrence with none before it |
| Decimal.CanTruncate | src/main.rs:131 | the exact domain where `s[..index + 2]` does not panic: there is no `'.'`, or at least one character follows the first one |
| Decimal.TruncateDecimal | src/main.rs:123-135 | the result is a prefix of the input; without a `'.'` it is the input unchanged; otherwise it ends one character after the first `'.'`, and no `'.'` comes before that point in it |
| Decimal.TruncateAtFirstPoint | src/main.rs:124-131 | when the first `'.'` is at index `i` and `i + 2` is at most the length, the result is the length-`i + 2` prefix, so exactly one character follows the point |
| Decimal.TruncateIdempotent | src/main.rs:123-135 | under its precondition, truncating twice is the same as truncating once, and the second call has its precondition too |
| Decimal.MarginExamples | src/main.rs:151-171 | `"999.9"` stays `"999.9"`, and `"999.9999"` is cut to `"999.9"` rather than rounded |
| Decimal.WholeNumberExample | src/main.rs:146-149 | a whole number such as `"100"` passes through unchanged |
| Tree.SelectFiles | src/main.rs:42-51 | a `File` is selected exactly when the listing has a regular-file entry with that path and size, and the path without its first two characters is in the untracked set |
| Tree.SelectFilesAppend | src/main.rs:42-51 | listing order is kept: selecting from a concatenated listing gives the two selections appended |
| Tree.New | src/main.rs:26-71 | `FileTree::new` as written, with the `&fp[2..]` panic domain as its precondition; its guarantees are the rows `NewSomeIff` to `DistinctParts` below |
| Tree.IsUntracked | src/main.rs:46 | a regular-file entry whose path without its first two characters is in the untracked set; it needs the path to have two characters only for regular files |
| Tree.Survives | src/main.rs:56 | the guard `files.len() > 0 \|\| path == "./"` under which `new` goes on to the subdirectories |
| Tree.Buildable | src/main.rs:46 | the exact domain where no `&fp[2..]` panics: this listing's files are sliceable and, when the node survives, so is every visited subdirectory |
| Tree.Children | src/main.rs:57-61 | `filter_map` over the subdirectories yields no more nodes than there are entries |
| Tree.ChildrenMembers | src/main.rs:57-61 | a node is in `nodes` exactly when some subdirectory entry of the listing gave it back from `FileTree::new` (both directions) |
| Tree.Kept | src/main.rs:59 | one entry adds at most one node |
| Tree.NewSomeIff | src/main.rs:56-70 | `FileTree::new` returns a node exactly when the directory lists an untracked regular file or the path is `"./"` (both directions) |
| Tree.RootAlwaysBuilds | src/main.rs:56 | the root `"./"` always yields a tree |
| Tree.PrunedWithoutOwnFiles | src/main.rs:56-70 | a directory that is not the root and lists no untracked regular file of its own yields `None`, whatever its subdirectories hold |
| Tree.NodeShape | src/main.rs:56-66 | a returned node has `dir == Some(path)`, and every subdirectory it went on to visit was buildable |
| Tree.ChildrenAppend | src/main.rs:57-61 | `nodes` of a concatenated listing are the two parts' `nodes` appended, so entry order is kept |
| Tree.NewWellShaped | src/main.rs:56-67 | in a returned tree every node names its directory, and every node except `"./"` holds at least one file |
| Tree.ChildrenWellShaped | src/main.rs:57-61 | every node in `nodes` is well shaped in that sense |
| Tree.NewProvenance | src/main.rs:42-67 | every file anywhere in the returned tree is a regular file listed below that directory, with the listed size, and is untracked; no file and no path appears more often than it is listed |
| Tree.ListingProvenance | src/main.rs:42-61 | the same holds for a listing's own selected files together with all the files of its child nodes |
| Tree.EntryProvenance | src/main.rs:44-59 | one entry's contribution to its node and to the child nodes comes from the files it stands for |
| Tree.NoPathTwiceInTree | src/main.rs:26-71 | when every path is listed once on disk, no file path occurs twice in the whole tree |
| Tree.DistinctParts | src/main.rs:19-23 | in such a tree, a node's own files share no path with its subtrees, no two subtrees share a path, and each subtree keeps the property |
| CorrectedTree.NewCorrected | src/main.rs:56-70 | corrected builder: visits every subdirectory and keeps a node when its subtree holds a file or it is the root (properties in the next rows) |
| CorrectedTree.NewCorrectedExact | src/main.rs:56-70 | the corrected tree holds exactly the untracked regular files below the directory, counted with multiplicity; it returns no node only when there are none and the path is not `"./"` |
| CorrectedTree.KeptSubdirectory | src/main.rs:57-61 | under the corrected builder, a subdirectory is kept exactly when its subtree holds an untracked file, and then with exactly those files |
| CorrectedTree.ListingCorrected | src/main.rs:42-61 | a listing's own files plus its corrected child nodes hold exactly its untracked files, and every kept child holds at least one file |
| CorrectedTree.EntryCorrected | src/main.rs:44-59 | one entry's contribution under the corrected builder is exactly the untracked files it stands for |
| CorrectedTree.CorrectedRootAlwaysBuilds | src/main.rs:56 | the corrected builder still always yields a tree for the root |
| CorrectedTree.NestedUntrackedFileIsLost | src/main.rs:56 | as written, `./a/b/x.txt` is untracked but absent from the tree when `a` has no untracked file of its own; the corrected tree contains it |
| Pipeline.BuildFromOutput | src/main.rs:81-83 | `execute`'s pure steps as written: the output's lines become the untracked set, and the tree is built from `./`; its guarantees are the rows `BuildFromOutputRoot` and `EmptyOutputGivesEmptyTree` |
| Pipeline.BuildFromOutputCorrected | src/main.rs:81-83 | the same steps with the corrected builder; its guarantee is the row `BuildFromOutputCorrectedComplete` |
| Pipeline.BuildFromOutputRoot | src/main.rs:80-83 | a run always yields a tree with `dir == Some("./")`; a regular file in `./` is among its `files` exactly when its path without `"./"` is a line of the command's output |
| Pipeline.BuildFromOutputCorrectedComplete | src/main.rs:80-83 | with the corrected builder, a run always yields a tree holding exactly the files below `./` that the command printed, counted with multiplicity |
| Pipeline.EmptyOutputGivesEmptyTree | src/main.rs:80-83 | when the output has no path (it is empty or only `"\n"`s), the run still yields a tree, and that tree holds no file |

## Left out

- `execute`'s `Command` call (src/main.rs:75-78) runs an external process. Its standard output is a parameter. `String::from_utf8(..).unwrap()` (line 80) is left out because a Dafny `string` is already text.
- `main` and `exit_with` (src/main.rs:90-96, 137-140) deal with process exit codes and stderr. They are I/O.
- `size_str` (src/main.rs:106-121) chooses on `f64` ranges and formats with `f64::to_string`. Floating point is not modelled. Only its string post-processing, `truncate_decimal`, is.
- The `println!` debug output (src/main.rs:53, 84-85) is I/O.
- `fs::read_dir`, `metadata` and their `unwrap`s (src/main.rs:27-34, 39) are replaced by the `Entry` value. Errors reading the filesystem, and non-UTF-8 paths (`to_str().unwrap()`), are not modelled.
- The order of `read_dir` is whatever the operating system returns. The model takes it as the order of the given listing.
- `Decimal.TruncateDecimal`: the source finds the `'.'` by character index (line 126) but slices by byte (line 131). The model treats the two as the same, which holds for the ASCII text that `f64::to_string` produces. For non-ASCII input the source can cut at a different place or panic, and that is not modelled.
- `Tree.New`: `&fp[2..]` is modelled as dropping the first two characters. This matches the source's byte slice for the ASCII prefix `"./"` that every listed path has. It is not modelled for other paths.
- `Tree.NoPathTwiceInTree`: this holds only when every file path on disk is listed once. A real directory tree guarantees that, but the `Entry` value does not, so the lemma takes it as a hypothesis.
- `CorrectedTree.NewCorrectedExact`: its precondition `SliceableAll` also says that no subdirectory's path is `"./"`. A real filesystem guarantees this, because a subdirectory's path is its parent's path followed by a name.

## Findings

| source | as written | input that shows it | evidently intended | confidence | as-written member | corrected member |
|---|---|---|---|---|---|---|
| src/main.rs:56 | A directory other than `./` that lists no untracked file of its own returns `None` before its subdirectories are visited. Every untracked file below it is therefore lost. | untracked set `{"a/b/x.txt"}`; `./` holds only directory `./a`, which holds only directory `./a/b`, which holds file `./a/b/x.txt`. The tree is just `./`, with no files and no nodes. | Every untracked file appears in the tree (the tool's purpose is to show them all). A directory is kept when anything below it is untracked. | medium; not executed | Tree.New, with CorrectedTree.NestedUntrackedFileIsLost | CorrectedTree.NewCorrected, with CorrectedTree.NewCorrectedExact and Pipeline.BuildFromOutputCorrectedComplete |
