/**
 * `get_file_list_from` (src/main.rs): the standard output of
 * `git ls-files --others --exclude-standard` is split on "\n" and the empty
 * pieces are dropped, in order.
 */
module FileList {

  const Newline: char := '\n'

  /** Rust's `str::split("\n")`: the pieces between separators, empty ones
      included. There is always at least one piece, and none holds a separator. */
  function Split(s: string): (pieces: seq<string>)
    ensures |pieces| >= 1
    ensures forall i :: 0 <= i < |pieces| ==> Newline !in pieces[i]
  {
    if s == [] then [""]
    else
      var rest := Split(s[1..]);
      if s[0] == Newline then [""] + rest
      else [[s[0]] + rest[0]] + rest[1..]
  }

  /** The pieces glued back together with a "\n" between neighbours. */
  function Join(pieces: seq<string>): string
  {
    if |pieces| == 0 then ""
    else if |pieces| == 1 then pieces[0]
    else pieces[0] + [Newline] + Join(pieces[1..])
  }

  /** All pieces glued together with nothing in between. */
  function Concat(pieces: seq<string>): string
  {
    if pieces == [] then [] else pieces[0] + Concat(pieces[1..])
  }

  /** The text with every "\n" taken out. */
  function RemoveNewlines(s: string): (r: string)
  {
    if s == [] then []
    else (if s[0] == Newline then [] else [s[0]]) + RemoveNewlines(s[1..])
  }

  /** `.filter(|x| *x != "")`: keeps the non-empty pieces, each one that is
      kept being one of the input's. */
  function DropEmpty(pieces: seq<string>): (r: seq<string>)
    ensures |r| <= |pieces|
    ensures forall x :: x in r <==> x in pieces && x != ""
  {
    if pieces == [] then []
    else (if pieces[0] == "" then [] else [pieces[0]]) + DropEmpty(pieces[1..])
  }

  /** Order and multiplicity are kept: dropping from two lists in a row is
      dropping from each and appending. */
  lemma {:induction false} DropEmptyAppend(a: seq<string>, b: seq<string>)
    ensures DropEmpty(a + b) == DropEmpty(a) + DropEmpty(b)
  {
    if a == [] {
      assert a + b == b;
    } else {
      var head := if a[0] == "" then [] else [a[0]];
      assert (a + b)[0] == a[0];
      assert (a + b)[1..] == a[1..] + b;
      DropEmptyAppend(a[1..], b);
      calc {
        DropEmpty(a + b);
        head + DropEmpty(a[1..] + b);
        head + (DropEmpty(a[1..]) + DropEmpty(b));
        (head + DropEmpty(a[1..])) + DropEmpty(b);
        DropEmpty(a) + DropEmpty(b);
      }
    }
  }

  /** `get_file_list_from`: the non-empty lines of the text, in order. */
  function GetFileList(stdout: string): (lines: seq<string>)
    ensures forall i :: 0 <= i < |lines| ==> lines[i] != "" && Newline !in lines[i]
  {
    var pieces := Split(stdout);
    assert forall x :: x in pieces ==> Newline !in x;
    var lines := DropEmpty(pieces);
    assert forall i :: 0 <= i < |lines| ==> lines[i] in lines;
    lines
  }

  /** Splitting loses nothing: joining the pieces with "\n" gives the text back. */
  lemma {:induction false} JoinSplit(s: string)
    ensures Join(Split(s)) == s
  {
    if s != [] {
      JoinSplit(s[1..]);
      var rest := Split(s[1..]);
      if s[0] != Newline && |rest| > 1 {
        assert Join(rest) == rest[0] + [Newline] + Join(rest[1..]);
        assert [s[0]] + rest[0] + [Newline] + Join(rest[1..]) == [s[0]] + Join(rest);
      }
      assert s == [s[0]] + s[1..];
    }
  }

  lemma {:induction false} ConcatAppend(a: seq<string>, b: seq<string>)
    ensures Concat(a + b) == Concat(a) + Concat(b)
  {
    if a == [] {
      assert a + b == b;
    } else {
      ConcatAppend(a[1..], b);
      assert (a + b)[1..] == a[1..] + b;
    }
  }

  /** The pieces of a split hold exactly the text's characters other than "\n". */
  lemma {:induction false} ConcatSplit(s: string)
    ensures Concat(Split(s)) == RemoveNewlines(s)
  {
    if s != [] {
      ConcatSplit(s[1..]);
      var rest := Split(s[1..]);
      if s[0] != Newline {
        assert Concat(rest) == rest[0] + Concat(rest[1..]);
      }
    }
  }

  /** Dropping the empty pieces does not change their concatenation. */
  lemma {:induction false} ConcatDropEmpty(pieces: seq<string>)
    ensures Concat(DropEmpty(pieces)) == Concat(pieces)
  {
    if pieces != [] {
      ConcatDropEmpty(pieces[1..]);
      var head := if pieces[0] == "" then [] else [pieces[0]];
      ConcatAppend(head, DropEmpty(pieces[1..]));
    }
  }

  /** Order is kept: the listed paths, concatenated, are the text without its "\n"s. */
  lemma GetFileListKeepsOrder(stdout: string)
    ensures Concat(GetFileList(stdout)) == RemoveNewlines(stdout)
  {
    ConcatDropEmpty(Split(stdout));
    ConcatSplit(stdout);
  }

  lemma {:induction false} ConcatEmpty(pieces: seq<string>)
    requires forall i :: 0 <= i < |pieces| ==> pieces[i] != ""
    ensures Concat(pieces) == [] <==> pieces == []
  {
    if pieces != [] {
      assert |Concat(pieces)| >= |pieces[0]| > 0;
    }
  }

  lemma {:induction false} RemoveNewlinesEmpty(s: string)
    ensures RemoveNewlines(s) == [] <==> forall i :: 0 <= i < |s| ==> s[i] == Newline
  {
    if s != [] {
      RemoveNewlinesEmpty(s[1..]);
      assert forall i :: 1 <= i < |s| ==> s[i] == s[1..][i - 1];
    }
  }

  /** No paths are listed exactly when the output holds nothing but "\n"s
      (the empty output included). */
  lemma GetFileListEmpty(stdout: string)
    ensures GetFileList(stdout) == [] <==> forall i :: 0 <= i < |stdout| ==> stdout[i] == Newline
  {
    GetFileListKeepsOrder(stdout);
    ConcatEmpty(GetFileList(stdout));
    RemoveNewlinesEmpty(stdout);
  }
}
