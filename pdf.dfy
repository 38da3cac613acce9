// Documents and the file system the desktop tools read them from.
// A PDF is a sequence of opaque pages plus a flag saying whether the PDF
// library can parse it; the file system maps paths to such files.

module Pdf {
  import opened Wrappers

  /** A page, identified by the file it came from and its position there. */
  datatype Page = Page(origin: string, index: nat)

  /** A file on disk: its size in bytes, whether it parses as a PDF, its pages. */
  datatype File = File(size: nat, readable: bool, pages: seq<Page>)

  type FileSystem = map<string, File>

  /** Opening a path with the PDF reader: fails for a missing or unparsable file. */
  function Read(fs: FileSystem, path: string): (r: Option<seq<Page>>)
    ensures r.Some? <==> path in fs && fs[path].readable
    ensures r.Some? ==> r.value == fs[path].pages
  {
    if path in fs && fs[path].readable then Some(fs[path].pages) else None
  }

  predicate Readable(fs: FileSystem, path: string)
  {
    Read(fs, path).Some?
  }

  predicate AllReadable(fs: FileSystem, paths: seq<string>)
  {
    forall i :: 0 <= i < |paths| ==> Readable(fs, paths[i])
  }

  /** Number of pages a reader reports, 0 when the file cannot be read. */
  function PageCount(fs: FileSystem, path: string): nat
  {
    match Read(fs, path)
    case Some(pages) => |pages|
    case None => 0
  }

  /** Sum of the page counts of the given files, unreadable ones counting 0. */
  function TotalPages(fs: FileSystem, paths: seq<string>): nat
  {
    if paths == [] then 0
    else TotalPages(fs, paths[..|paths| - 1]) + PageCount(fs, paths[|paths| - 1])
  }

  /** The pages of every file, one file after the other, in list order. */
  function Concat(fs: FileSystem, paths: seq<string>): seq<Page>
    requires AllReadable(fs, paths)
  {
    if paths == [] then []
    else Concat(fs, paths[..|paths| - 1]) + Read(fs, paths[|paths| - 1]).value
  }

  /** Index of the first file that cannot be read, if any. */
  function FirstUnreadable(fs: FileSystem, paths: seq<string>): (r: Option<nat>)
    ensures r.None? <==> AllReadable(fs, paths)
    ensures r.Some? ==> r.value < |paths| && !Readable(fs, paths[r.value])
                        && AllReadable(fs, paths[..r.value])
  {
    if paths == [] then None
    else if !Readable(fs, paths[0]) then Some(0)
    else
      match FirstUnreadable(fs, paths[1..])
      case None =>
        assert forall i :: 1 <= i < |paths| ==> paths[i] == paths[1..][i - 1];
        None
      case Some(k) =>
        assert paths[1..][..k] == paths[1..k + 1];
        assert forall i :: 1 <= i < k + 1 ==> paths[i] == paths[1..][i - 1];
        Some(k + 1)
  }

  lemma {:induction false} ConcatAppend(fs: FileSystem, a: seq<string>, b: seq<string>)
    requires AllReadable(fs, a) && AllReadable(fs, b)
    ensures AllReadable(fs, a + b)
    ensures Concat(fs, a + b) == Concat(fs, a) + Concat(fs, b)
    decreases |b|
  {
    assert forall i :: 0 <= i < |a + b| ==> (a + b)[i] == if i < |a| then a[i] else b[i - |a|];
    if b == [] {
      assert a + b == a;
    } else {
      var b' := b[..|b| - 1];
      assert (a + b)[..|a + b| - 1] == a + b';
      assert (a + b)[|a + b| - 1] == b[|b| - 1];
      assert AllReadable(fs, b') by {
        assert forall i :: 0 <= i < |b'| ==> b'[i] == b[i];
      }
      ConcatAppend(fs, a, b');
    }
  }

  lemma ConcatOne(fs: FileSystem, path: string)
    requires Readable(fs, path)
    ensures AllReadable(fs, [path])
    ensures Concat(fs, [path]) == fs[path].pages
  {
    assert [path][..0] == [];
  }

  /** The output holds the pages of every file before k, then file k's pages, then the rest. */
  lemma ConcatSplit(fs: FileSystem, paths: seq<string>, k: nat)
    requires AllReadable(fs, paths) && k < |paths|
    ensures AllReadable(fs, paths[..k]) && AllReadable(fs, paths[k + 1..])
    ensures Concat(fs, paths)
         == Concat(fs, paths[..k]) + fs[paths[k]].pages + Concat(fs, paths[k + 1..])
  {
    var pre, mid, post := paths[..k], [paths[k]], paths[k + 1..];
    assert paths == pre + mid + post;
    assert forall i :: 0 <= i < |pre| ==> pre[i] == paths[i];
    assert forall i :: 0 <= i < |post| ==> post[i] == paths[k + 1 + i];
    ConcatOne(fs, paths[k]);
    ConcatAppend(fs, pre, mid);
    ConcatAppend(fs, pre + mid, post);
  }

  /** When every file can be read the output has exactly the counted number of pages. */
  lemma {:induction false} ConcatLength(fs: FileSystem, paths: seq<string>)
    requires AllReadable(fs, paths)
    ensures |Concat(fs, paths)| == TotalPages(fs, paths)
  {
    if paths != [] {
      var init := paths[..|paths| - 1];
      assert AllReadable(fs, init) by {
        assert forall i :: 0 <= i < |init| ==> init[i] == paths[i];
      }
      ConcatLength(fs, init);
    }
  }

  lemma TotalPagesSnoc(fs: FileSystem, paths: seq<string>, path: string)
    ensures TotalPages(fs, paths + [path]) == TotalPages(fs, paths) + PageCount(fs, path)
  {
    assert (paths + [path])[..|paths|] == paths;
  }

  lemma ConcatSnoc(fs: FileSystem, paths: seq<string>, path: string)
    requires AllReadable(fs, paths) && Readable(fs, path)
    ensures AllReadable(fs, paths + [path])
    ensures Concat(fs, paths + [path]) == Concat(fs, paths) + fs[path].pages
  {
    assert (paths + [path])[..|paths|] == paths;
    assert forall i :: 0 <= i < |paths| + 1 ==> (paths + [path])[i] == if i < |paths| then paths[i] else path;
  }

  /** The first unreadable file is the one index where the files before it are all readable. */
  lemma FirstUnreadableAt(fs: FileSystem, paths: seq<string>, i: nat)
    requires i < |paths| && AllReadable(fs, paths[..i]) && !Readable(fs, paths[i])
    ensures FirstUnreadable(fs, paths) == Some(i)
  {
    assert !AllReadable(fs, paths);
    var k := FirstUnreadable(fs, paths).value;
    assert forall j :: 0 <= j < i ==> paths[..i][j] == paths[j];
    assert forall j :: 0 <= j < k ==> paths[..k][j] == paths[j];
  }
}
