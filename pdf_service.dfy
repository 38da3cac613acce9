// The backend's PDF service: saving an upload under a fresh name, merging a
// project's files in their stored order, splitting a document into files of
// a fixed number of pages, and the compression, OCR and watermark wrappers.
// Every operation reports a failure as a result rather than raising, except
// the upload, whose failure propagates to the caller.

module PdfService {
  import opened Wrappers
  import opened Text
  import opened Pdf
  import Lists
  import Arith

  /** Why an operation failed. */
  datatype Failure =
    | CannotRead(path: string)
    | CannotWrite(path: string)
    | StepIsZero
    | DivisionByZero
    | OcrDisabled

  const OCR_DISABLED_MESSAGE := "OCR não está habilitado"

  /** The error text the OCR operation reports when it is switched off. */
  function Message(f: Failure): (m: Option<string>)
    ensures m.Some? <==> f.OcrDisabled?
  {
    if f.OcrDisabled? then Some(OCR_DISABLED_MESSAGE) else None
  }

  /** `Path(dir) / name`: an absolute name replaces the directory. */
  function JoinPath(dir: string, name: string): string
  {
    if |name| > 0 && name[0] == '/' then name
    else if dir == [] then name
    else if dir[|dir| - 1] == '/' then dir + name
    else dir + "/" + name
  }

  /** As written, an absolute output name escapes the output directory: the
      path joined is the name itself, which does not start with a relative
      directory. */
  lemma JoinPathAbsolute(dir: string, name: string)
    requires |name| > 0 && name[0] == '/'
    ensures JoinPath(dir, name) == name
    ensures |dir| > 0 && dir[0] != '/' ==> !StartsWith(JoinPath(dir, name), dir)
  {
  }

  /** The merge's output path as intended: only the final component of the
      requested name is kept, inside the output directory. */
  function MergeOutputPath(outputDir: string, outputFilename: string): string
  {
    JoinPath(outputDir, Basename(outputFilename))
  }

  /** A tail without a slash stays in the final component. */
  lemma BasenameKeepsTail(s: string, t: string)
    requires EndsWith(s, t) && '/' !in t
    ensures EndsWith(Basename(s), t)
  {
    BasenameSpec(s);
    var b := Basename(s);
    assert b[|b| - |t|..] == s[|s| - |t|..];
  }

  /** Every name the validator lets through (it ends in ".pdf") gives a merge
      output that is a plain file directly inside the output directory. */
  lemma MergeOutputInDirectory(outputDir: string, outputFilename: string)
    requires |outputDir| > 0 && outputDir[|outputDir| - 1] != '/'
    requires EndsWith(outputFilename, ".pdf")
    ensures exists leaf :: MergeOutputPath(outputDir, outputFilename) == outputDir + "/" + leaf
                        && '/' !in leaf && EndsWith(leaf, ".pdf")
  {
    var leaf := Basename(outputFilename);
    BasenameSpec(outputFilename);
    BasenameKeepsTail(outputFilename, ".pdf");
    assert leaf[0] != '/';
    assert MergeOutputPath(outputDir, outputFilename) == outputDir + "/" + leaf;
  }

  /** The joined path keeps the name as its tail, whatever the directory. */
  lemma JoinPathEndsWith(dir: string, name: string)
    ensures EndsWith(JoinPath(dir, name), name)
  {
    var p := JoinPath(dir, name);
    assert p[|p| - |name|..] == name;
  }

  // ---------------------------------------------------------------- upload

  type Bytes = seq<bv8>

  /** The tail of the final path component of s from its last '.', if that component has one. */
  function DotTail(s: string): (r: Option<string>)
    ensures r.Some? ==> 1 <= |r.value| <= |s|
  {
    if s == [] || s[|s| - 1] == '/' then None
    else if s[|s| - 1] == '.' then Some(".")
    else
      match DotTail(s[..|s| - 1])
      case Some(t) => Some(t + [s[|s| - 1]])
      case None => None
  }

  /** A tail found starts with a dot, holds no other dot and no '/', and is the end of s. */
  lemma {:induction false} DotTailFound(s: string)
    requires DotTail(s).Some?
    ensures var t := DotTail(s).value;
      && t[0] == '.'
      && (forall j :: 1 <= j < |t| ==> t[j] != '.')
      && (forall j :: 0 <= j < |t| ==> t[j] != '/' && t[j] == s[|s| - |t| + j])
  {
    if s[|s| - 1] != '.' {
      var init := s[..|s| - 1];
      DotTailFound(init);
      var t0 := DotTail(init).value;
      var t := DotTail(s).value;
      assert t == t0 + [s[|s| - 1]];
      forall j | 0 <= j < |t0| ensures t[j] == s[|s| - |t| + j] {
        assert t[j] == t0[j] == init[|init| - |t0| + j];
      }
    }
  }

  /** With no tail found, no character of the final component of s is a dot. */
  lemma {:induction false} DotTailNone(s: string)
    requires DotTail(s).None?
    ensures forall k :: 0 <= k < |s| && (forall j :: k <= j < |s| ==> s[j] != '/') ==> s[k] != '.'
  {
    if s != [] && s[|s| - 1] != '/' {
      var init := s[..|s| - 1];
      DotTailNone(init);
      forall k | 0 <= k < |s| && (forall j :: k <= j < |s| ==> s[j] != '/') ensures s[k] != '.' {
        if k < |init| {
          assert init[k] == s[k];
          assert forall j :: k <= j < |init| ==> init[j] == s[j];
        }
      }
    }
  }

  /**
   * `Path(filename).suffix`: from the last dot of the final component, when
   * that dot is neither its first nor its last character; otherwise "".
   */
  function Suffix(filename: string): string
  {
    match DotTail(filename)
    case Some(t) =>
      if 1 < |t| < |filename| && filename[|filename| - |t| - 1] != '/' then t else ""
    case None => ""
  }

  /**
   * The suffix is empty, or a dot, then at least one character and no further
   * dot, ending the final component of the name without being all of it.
   */
  lemma SuffixSpec(filename: string)
    ensures var ext := Suffix(filename);
      ext == "" ||
      (&& |ext| >= 2 && ext[0] == '.' && '.' !in ext[1..] && '/' !in ext
       && EndsWith(filename, ext) && |ext| < |filename| && filename[|filename| - |ext| - 1] != '/')
  {
    var ext := Suffix(filename);
    if ext != "" {
      DotTailFound(filename);
      assert filename[|filename| - |ext|..] == ext;
      assert forall c :: c in ext[1..] ==> c != '.' by {
        forall c | c in ext[1..] ensures c != '.' {
          var j :| 0 <= j < |ext[1..]| && ext[1..][j] == c;
          assert ext[j + 1] == c;
        }
      }
    }
  }

  /** A name whose final component holds no dot has no suffix. */
  lemma SuffixNoDot(filename: string)
    requires forall k :: 0 <= k < |filename| && (forall j :: k <= j < |filename| ==> filename[j] != '/') ==> filename[k] != '.'
    ensures Suffix(filename) == ""
  {
    if DotTail(filename).Some? {
      DotTailFound(filename);
      var t := DotTail(filename).value;
      var k := |filename| - |t|;
      forall j | k <= j < |filename| ensures filename[j] != '/' {
        assert filename[j] == t[j - k];
      }
    }
  }

  datatype SavedFile = SavedFile(fileId: string, originalFilename: string, storedFilename: string, filePath: string, fileSize: nat)

  /**
   * `save_uploaded_file`, less the metadata and thumbnail: the stored name
   * is the given fresh identifier plus the original suffix, and the size is
   * the number of bytes received. A failed write propagates.
   */
  function SaveUploadedFile(uploadDir: string, fileId: string, content: Bytes, filename: string, writable: bool): (r: Result<SavedFile, Failure>)
    ensures r.Success? <==> writable
    ensures r.Success? ==>
      && r.value.storedFilename == fileId + Suffix(filename)
      && r.value.filePath == JoinPath(uploadDir, r.value.storedFilename)
      && r.value.originalFilename == filename
      && r.value.fileSize == |content|
      && StartsWith(r.value.storedFilename, fileId)
  {
    var stored := fileId + Suffix(filename);
    var path := JoinPath(uploadDir, stored);
    if writable then Success(SavedFile(fileId, filename, stored, path, |content|)) else Failure(CannotWrite(path))
  }

  // ---------------------------------------------------------------- merge

  /** A project's file record as the service reads it. */
  datatype StoredFile = StoredFile(id: nat, filePath: string, orderIndex: int)

  predicate SortedByOrder(s: seq<StoredFile>)
  {
    forall i, j :: 0 <= i < j < |s| ==> s[i].orderIndex <= s[j].orderIndex
  }

  /**
   * Inserts before the first record whose index is not smaller, so that a
   * record that came first stays ahead of later ones with the same index.
   */
  function InsertByOrder(f: StoredFile, s: seq<StoredFile>): seq<StoredFile>
  {
    if s == [] then [f] else if s[0].orderIndex < f.orderIndex then [s[0]] + InsertByOrder(f, s[1..]) else [f] + s
  }

  /** `sorted(files, key=order_index)`, which keeps records of equal index in their given order. */
  function SortByOrder(s: seq<StoredFile>): seq<StoredFile>
  {
    if s == [] then [] else InsertByOrder(s[0], SortByOrder(s[1..]))
  }

  lemma {:induction false} InsertByOrderMultiset(f: StoredFile, s: seq<StoredFile>)
    ensures multiset(InsertByOrder(f, s)) == multiset(s) + multiset{f}
  {
    if s != [] && s[0].orderIndex < f.orderIndex {
      InsertByOrderMultiset(f, s[1..]);
      assert s == [s[0]] + s[1..];
    }
  }

  lemma {:induction false} InsertByOrderSorted(f: StoredFile, s: seq<StoredFile>)
    requires SortedByOrder(s)
    ensures SortedByOrder(InsertByOrder(f, s))
  {
    if s != [] && s[0].orderIndex < f.orderIndex {
      InsertByOrderSorted(f, s[1..]);
      InsertByOrderMultiset(f, s[1..]);
      ConsSortedByOrder(s[0], InsertByOrder(f, s[1..]), f, s[1..]);
    }
  }

  /** A record no later than every record of a sorted list can go before it. */
  lemma ConsSortedByOrder(h: StoredFile, rest: seq<StoredFile>, f: StoredFile, tail: seq<StoredFile>)
    requires SortedByOrder(rest) && multiset(rest) == multiset(tail) + multiset{f}
    requires h.orderIndex < f.orderIndex && forall k :: 0 <= k < |tail| ==> h.orderIndex <= tail[k].orderIndex
    ensures SortedByOrder([h] + rest)
  {
    forall u | u in rest ensures h.orderIndex <= u.orderIndex {
      assert u in multiset(rest);
      if u != f {
        assert u in multiset(tail);
        var k :| 0 <= k < |tail| && tail[k] == u;
      }
    }
    var r := [h] + rest;
    forall i, j | 0 <= i < j < |r| ensures r[i].orderIndex <= r[j].orderIndex {
      if i == 0 {
        assert r[j] == rest[j - 1] && r[j] in rest;
      } else {
        assert r[i] == rest[i - 1] && r[j] == rest[j - 1];
      }
    }
  }

  /** The merge order is a rearrangement of the project's files by non-decreasing order index. */
  lemma {:induction false} SortByOrderSorted(s: seq<StoredFile>)
    ensures SortedByOrder(SortByOrder(s)) && multiset(SortByOrder(s)) == multiset(s)
  {
    if s != [] {
      SortByOrderSorted(s[1..]);
      InsertByOrderSorted(s[0], SortByOrder(s[1..]));
      InsertByOrderMultiset(s[0], SortByOrder(s[1..]));
      assert s == [s[0]] + s[1..];
    }
  }

  /** Files already in order, ties included, are merged in exactly the order given. */
  lemma {:induction false} SortByOrderKeepsSorted(s: seq<StoredFile>)
    requires SortedByOrder(s)
    ensures SortByOrder(s) == s
  {
    if s != [] {
      assert SortedByOrder(s[1..]) by {
        forall i, j | 0 <= i < j < |s[1..]| ensures s[1..][i].orderIndex <= s[1..][j].orderIndex {
          assert s[1..][i] == s[i + 1] && s[1..][j] == s[j + 1];
        }
      }
      SortByOrderKeepsSorted(s[1..]);
      assert s == [s[0]] + s[1..];
    }
  }

  function PathsOf(files: seq<StoredFile>): (paths: seq<string>)
    ensures |paths| == |files| && forall i :: 0 <= i < |files| ==> paths[i] == files[i].filePath
  {
    seq(|files|, i requires 0 <= i < |files| => files[i].filePath)
  }

  /** Removing one file subtracts its page count. */
  lemma {:induction false} TotalPagesRemoveAt(fs: FileSystem, paths: seq<string>, i: nat)
    requires i < |paths|
    ensures TotalPages(fs, paths) == TotalPages(fs, Lists.RemoveAt(paths, i)) + PageCount(fs, paths[i])
    decreases |paths|
  {
    var last := |paths| - 1;
    if i < last {
      var init := paths[..last];
      TotalPagesRemoveAt(fs, init, i);
      var r := Lists.RemoveAt(paths, i);
      assert r[..|r| - 1] == Lists.RemoveAt(init, i);
      assert r[|r| - 1] == paths[last];
    } else {
      assert Lists.RemoveAt(paths, i) == paths[..last];
    }
  }

  /** The page total does not depend on the order of the files. */
  lemma {:induction false} TotalPagesPermutation(fs: FileSystem, a: seq<string>, b: seq<string>)
    requires multiset(a) == multiset(b)
    ensures TotalPages(fs, a) == TotalPages(fs, b)
    decreases |a|
  {
    if a == [] {
      assert |b| == |multiset(b)| == 0;
    } else {
      var i := Lists.MatchLast(a, b);
      TotalPagesPermutation(fs, a[..|a| - 1], Lists.RemoveAt(b, i));
      TotalPagesRemoveAt(fs, b, i);
    }
  }

  datatype Merged = Merged(outputPath: string, totalPages: nat, pages: seq<Page>)

  /**
   * `merge_pdfs`: the files in order-index order, every page of each
   * appended and counted, then the writer saved; the first unreadable file
   * or a failed save ends it with a failure.
   */
  method MergePdfs(fs: FileSystem, files: seq<StoredFile>, outputDir: string, outputFilename: string, writable: bool)
    returns (result: Result<Merged, Failure>)
    ensures var order := PathsOf(SortByOrder(files));
      && (result.Success? <==> AllReadable(fs, order) && writable)
      && (result.Success? ==>
            && result.value.outputPath == MergeOutputPath(outputDir, outputFilename)
            && result.value.pages == Concat(fs, order)
            && result.value.totalPages == |result.value.pages|)
      && (!AllReadable(fs, order) ==> result == Failure(CannotRead(order[FirstUnreadable(fs, order).value])))
      && (AllReadable(fs, order) && !writable ==> result == Failure(CannotWrite(MergeOutputPath(outputDir, outputFilename))))
  {
    var order := PathsOf(SortByOrder(files));
    var pages: seq<Page> := [];
    var totalPages := 0;
    assert order[..0] == [];
    for k := 0 to |order|
      invariant AllReadable(fs, order[..k]) && pages == Concat(fs, order[..k]) && totalPages == |pages|
    {
      var path := order[k];
      match Read(fs, path) {
        case None =>
          FirstUnreadableAt(fs, order, k);
          return Failure(CannotRead(path));
        case Some(filePages) =>
          for j := 0 to |filePages|
            invariant pages == Concat(fs, order[..k]) + filePages[..j] && totalPages == |pages|
          {
            pages := pages + [filePages[j]];
            totalPages := totalPages + 1;
            assert filePages[..j + 1] == filePages[..j] + [filePages[j]];
          }
          assert filePages[..|filePages|] == filePages;
          ConcatSnoc(fs, order[..k], path);
          assert order[..k + 1] == order[..k] + [path];
      }
    }
    assert order[..|order|] == order;
    var outputPath := MergeOutputPath(outputDir, outputFilename);
    if !writable {
      return Failure(CannotWrite(outputPath));
    }
    return Success(Merged(outputPath, totalPages, pages));
  }


  /** The merged page count is the sum of the page counts of the project's files, in whatever order. */
  lemma MergedPageCount(fs: FileSystem, files: seq<StoredFile>)
    requires AllReadable(fs, PathsOf(SortByOrder(files)))
    ensures |Concat(fs, PathsOf(SortByOrder(files)))| == TotalPages(fs, PathsOf(files))
  {
    var sorted := SortByOrder(files);
    SortByOrderSorted(files);
    ConcatLength(fs, PathsOf(sorted));
    PathsOfMultiset(sorted, files);
    TotalPagesPermutation(fs, PathsOf(sorted), PathsOf(files));
  }

  lemma PathsOfRemoveAt(files: seq<StoredFile>, i: nat)
    requires i < |files|
    ensures PathsOf(Lists.RemoveAt(files, i)) == Lists.RemoveAt(PathsOf(files), i)
  {
  }

  /** Rearranging the records rearranges their paths. */
  lemma {:induction false} PathsOfMultiset(a: seq<StoredFile>, b: seq<StoredFile>)
    requires multiset(a) == multiset(b)
    ensures multiset(PathsOf(a)) == multiset(PathsOf(b))
    decreases |a|
  {
    if a == [] {
      assert |b| == |multiset(b)| == 0;
    } else {
      var i := Lists.MatchLast(a, b);
      var a' := a[..|a| - 1];
      PathsOfMultiset(a', Lists.RemoveAt(b, i));
      PathsOfRemoveAt(b, i);
      Lists.RemoveAtMultiset(PathsOf(b), i);
      assert a == a' + [a[|a| - 1]];
      assert PathsOf(a) == PathsOf(a') + [a[|a| - 1].filePath];
    }
  }

  // ---------------------------------------------------------------- split

  /** Flattening a list of page lists. */
  function Flatten(chunks: seq<seq<Page>>): seq<Page>
  {
    if chunks == [] then [] else chunks[0] + Flatten(chunks[1..])
  }

  /** The pages cut into consecutive runs of p, the last one possibly shorter. */
  function Chunks(pages: seq<Page>, p: nat): seq<seq<Page>>
    requires p >= 1
    decreases |pages|
  {
    if pages == [] then []
    else if |pages| <= p then [pages]
    else [pages[..p]] + Chunks(pages[p..], p)
  }

  /** The chunks put back together are the document. */
  lemma {:induction false} ChunksFlatten(pages: seq<Page>, p: nat)
    requires p >= 1
    ensures Flatten(Chunks(pages, p)) == pages
    decreases |pages|
  {
    if |pages| > p {
      ChunksFlatten(pages[p..], p);
      var c := Chunks(pages, p);
      assert c[1..] == Chunks(pages[p..], p);
      assert pages == pages[..p] + pages[p..];
    } else if pages != [] {
      assert Chunks(pages, p)[1..] == [];
    }
  }

  /** Every chunk has 1 to p pages, and all but the last exactly p. */
  lemma {:induction false} ChunksSizes(pages: seq<Page>, p: nat)
    requires p >= 1
    ensures var c := Chunks(pages, p);
      && (forall k :: 0 <= k < |c| ==> 1 <= |c[k]| <= p)
      && (forall k :: 0 <= k < |c| - 1 ==> |c[k]| == p)
    decreases |pages|
  {
    if |pages| > p {
      ChunksSizes(pages[p..], p);
      var c := Chunks(pages, p);
      assert forall k :: 1 <= k < |c| ==> c[k] == Chunks(pages[p..], p)[k - 1];
    }
  }

  /** (|c| - 1) * p < n <= |c| * p: there are ceil(n / p) chunks. */
  lemma {:induction false} ChunksCountBounds(pages: seq<Page>, p: nat)
    requires p >= 1
    ensures var n := |Chunks(pages, p)|; (n - 1) * p < |pages| <= n * p
    decreases |pages|
  {
    if |pages| > p {
      ChunksCountBounds(pages[p..], p);
      var n' := |Chunks(pages[p..], p)|;
      assert |Chunks(pages, p)| == n' + 1;
      assert (n' + 1) * p == n' * p + p;
      assert (n' + 1 - 1) * p == (n' - 1) * p + p;
    } else if pages == [] {
      assert (0 - 1) * p < 0;
    }
  }

  /** `total_files` is the division rounded up. */
  lemma ChunksCount(pages: seq<Page>, p: nat)
    requires p >= 1
    ensures |Chunks(pages, p)| == (|pages| + p - 1) / p
  {
    var n := |Chunks(pages, p)|;
    ChunksCountBounds(pages, p);
    assert p * n <= |pages| + p - 1 < p * (n + 1) by {
      assert (n - 1) * p == n * p - p;
      assert (n + 1) * p == n * p + p;
    }
    Arith.DivBetween(|pages| + p - 1, p, n);
  }

  function Min(a: int, b: int): int
  {
    if a < b then a else b
  }

  /** Chunk k holds pages k * p up to, not including, min((k + 1) * p, n). */
  lemma {:induction false} ChunkAt(pages: seq<Page>, p: nat, k: nat)
    requires p >= 1 && k < |Chunks(pages, p)|
    ensures 0 <= k * p <= Min((k + 1) * p, |pages|) <= |pages|
    ensures Chunks(pages, p)[k] == pages[k * p..Min((k + 1) * p, |pages|)]
    decreases |pages|
  {
    if k == 0 {
      if |pages| > p {
        assert Chunks(pages, p)[0] == pages[..p];
      }
    } else {
      var rest := pages[p..];
      assert Chunks(pages, p)[k] == Chunks(rest, p)[k - 1];
      ChunkAt(rest, p, k - 1);
      assert (k - 1) * p + p == k * p;
      assert k * p + p == (k + 1) * p;
      assert rest[(k - 1) * p..Min(k * p, |rest|)] == pages[k * p..Min((k + 1) * p, |pages|)];
    }
  }

  /** `split_{k + 1}.pdf`, the name of chunk k. */
  function SplitName(k: nat): string
  {
    "split_" + NatToString(k + 1) + ".pdf"
  }

  /** The output paths of the first n chunks, in order. */
  function SplitPaths(outputDir: string, n: nat): (r: seq<string>)
    ensures |r| == n && forall k :: 0 <= k < n ==> r[k] == JoinPath(outputDir, SplitName(k))
  {
    if n == 0 then [] else SplitPaths(outputDir, n - 1) + [JoinPath(outputDir, SplitName(n - 1))]
  }

  lemma MulDiv(c: nat, p: nat)
    requires p >= 1
    ensures c * p / p == c
  {
    assert p * c <= c * p < p * (c + 1);
    Arith.DivBetween(c * p, p, c);
  }

  lemma MulSucc(c: nat, p: nat)
    ensures (c + 1) * p == c * p + p
  {
  }

  /** The first chunk of a non-empty document, then the chunks of what follows it. */
  lemma ChunksFirst(rest: seq<Page>, p: nat)
    requires p >= 1 && rest != []
    ensures Chunks(rest, p) ==
      [rest[..Min(p, |rest|)]] + (if |rest| > p then Chunks(rest[p..], p) else [])
  {
    if |rest| <= p {
      assert rest[..|rest|] == rest;
    }
  }

  /** One round of the split loop: the chunk it writes is the next one. */
  lemma SplitStep(pages: seq<Page>, p: nat, written: seq<seq<Page>>, i: nat)
    requires p >= 1 && i == |written| * p && i < |pages|
    requires written + Chunks(pages[i..], p) == Chunks(pages, p)
    ensures i / p == |written|
    ensures var w := written + [pages[i..Min(i + p, |pages|)]];
      && i + p == |w| * p
      && (i + p < |pages| ==> w + Chunks(pages[i + p..], p) == Chunks(pages, p))
      && (i + p >= |pages| ==> w == Chunks(pages, p))
  {
    MulDiv(|written|, p);
    MulSucc(|written|, p);
    var rest := pages[i..];
    ChunksFirst(rest, p);
    assert rest[..Min(p, |rest|)] == pages[i..Min(i + p, |pages|)];
    if |rest| > p {
      assert rest[p..] == pages[i + p..];
    }
  }

  /**
   * `split_pdf`: reads the document, then for i = 0, p, 2p, ... below the
   * page count writes pages i .. min(i + p, n) to `split_{i / p + 1}.pdf`.
   * A step of 0 is refused by `range`, a negative step yields no files, and
   * a read or write failure ends the operation with a failure.
   */
  method SplitPdf(fs: FileSystem, pdfPath: string, outputDir: string, pagesPerFile: int, writable: bool)
    returns (result: Result<seq<string>, Failure>, written: seq<seq<Page>>)
    ensures !Readable(fs, pdfPath) ==> result == Failure(CannotRead(pdfPath)) && written == []
    ensures Readable(fs, pdfPath) && pagesPerFile == 0 ==> result == Failure(StepIsZero) && written == []
    ensures Readable(fs, pdfPath) && pagesPerFile < 0 ==> result == Success([]) && written == []
    ensures Readable(fs, pdfPath) && pagesPerFile >= 1 ==>
      var chunks := Chunks(fs[pdfPath].pages, pagesPerFile);
      if writable || chunks == [] then result == Success(SplitPaths(outputDir, |chunks|)) && written == chunks
      else result == Failure(CannotWrite(JoinPath(outputDir, SplitName(0)))) && written == []
  {
    written := [];
    if !Readable(fs, pdfPath) {
      return Failure(CannotRead(pdfPath)), [];
    }
    var pages := fs[pdfPath].pages;
    var total := |pages|;
    if pagesPerFile == 0 {
      return Failure(StepIsZero), [];
    }
    if pagesPerFile < 0 {
      return Success([]), [];
    }
    var p: nat := pagesPerFile;
    var outputFiles: seq<string> := [];
    var i: nat := 0;
    assert pages[0..] == pages;
    while i < total
      invariant i == |written| * p
      invariant i < total ==> written + Chunks(pages[i..], p) == Chunks(pages, p)
      invariant i >= total ==> written == Chunks(pages, p)
      invariant outputFiles == SplitPaths(outputDir, |written|)
      invariant writable || written == []
      decreases total - i
    {
      var end := Min(i + p, total);
      var chunk := CopyPages(pages, i, end);
      SplitStep(pages, p, written, i);
      var outputPath := JoinPath(outputDir, SplitName(i / p));
      if !writable {
        return Failure(CannotWrite(outputPath)), [];
      }
      written := written + [chunk];
      outputFiles := outputFiles + [outputPath];
      i := i + p;
    }
    if total == 0 {
      assert Chunks(pages, p) == [];
    }
    return Success(outputFiles), written;
  }

  /** `writer.add_page` for pages lo up to, not including, hi. */
  method CopyPages(pages: seq<Page>, lo: nat, hi: nat) returns (chunk: seq<Page>)
    requires lo <= hi <= |pages|
    ensures chunk == pages[lo..hi]
  {
    chunk := [];
    for j := lo to hi
      invariant chunk == pages[lo..j]
    {
      chunk := chunk + [pages[j]];
    }
  }

  // ---------------------------------------------------------------- compress, OCR, watermark

  datatype Compressed = Compressed(originalSize: nat, compressedSize: nat)

  /**
   * `compress_pdf`, with the size the library's rewrite produces as an
   * input: a missing or unparsable input, a failed save, or an empty input
   * file (the ratio divides by its size) give a failure.
   */
  function CompressPdf(fs: FileSystem, inputPath: string, outputPath: string, writable: bool, compressedSize: nat): (r: Result<Compressed, Failure>)
    ensures r.Success? <==> Readable(fs, inputPath) && writable && fs[inputPath].size > 0
    ensures r.Success? ==> r.value == Compressed(fs[inputPath].size, compressedSize)
    ensures !Readable(fs, inputPath) ==> r == Failure(CannotRead(inputPath))
  {
    if !Readable(fs, inputPath) then Failure(CannotRead(inputPath))
    else if !writable then Failure(CannotWrite(outputPath))
    else if fs[inputPath].size == 0 then Failure(DivisionByZero)
    else Success(Compressed(fs[inputPath].size, compressedSize))
  }

  /** One page's recognised text, numbered from 1. */
  datatype OcrPage = OcrPage(page: nat, text: string)

  /** How many whitespace characters open s. */
  function LeadingBlanks(s: string): (n: nat)
    ensures n <= |s| && IsPyBlank(s[..n]) && (n < |s| ==> !IsPySpace(s[n]))
  {
    if s == [] || !IsPySpace(s[0]) then 0
    else
      var n := LeadingBlanks(s[1..]);
      assert s[..n + 1] == [s[0]] + s[1..][..n];
      n + 1
  }

  /** How many whitespace characters close s. */
  function TrailingBlanks(s: string): (n: nat)
    ensures n <= |s| && IsPyBlank(s[|s| - n..]) && (n < |s| ==> !IsPySpace(s[|s| - n - 1]))
  {
    if s == [] || !IsPySpace(s[|s| - 1]) then 0
    else
      var t := s[..|s| - 1];
      var n := TrailingBlanks(t);
      assert s[|s| - (n + 1)..] == t[|t| - n..] + [s[|s| - 1]];
      n + 1
  }

  /** `text.strip()`: the whitespace at both ends removed. */
  function Strip(s: string): (r: string)
    ensures r == [] || (!IsPySpace(r[0]) && !IsPySpace(r[|r| - 1]))
    ensures r == [] <==> IsPyBlank(s)
  {
    var t := s[LeadingBlanks(s)..];
    assert t == [] <==> IsPyBlank(s) by {
      if t == [] {
        assert s[..LeadingBlanks(s)] == s;
      } else {
        assert !IsPySpace(s[LeadingBlanks(s)]);
      }
    }
    var n := TrailingBlanks(t);
    t[..|t| - n]
  }

  lemma {:induction false} LeadingBlanksAppend(a: string, x: string)
    requires IsPyBlank(a) && (x == [] || !IsPySpace(x[0]))
    ensures LeadingBlanks(a + x) == |a|
  {
    if a != [] {
      assert (a + x)[1..] == a[1..] + x;
      LeadingBlanksAppend(a[1..], x);
    } else {
      assert a + x == x;
    }
  }

  lemma {:induction false} TrailingBlanksAppend(x: string, b: string)
    requires IsPyBlank(b) && (x == [] || !IsPySpace(x[|x| - 1]))
    ensures TrailingBlanks(x + b) == |b|
  {
    if b != [] {
      assert (x + b)[..|x + b| - 1] == x + b[..|b| - 1];
      TrailingBlanksAppend(x, b[..|b| - 1]);
    } else {
      assert x + b == x;
    }
  }

  /**
   * Stripping is unique: text with no whitespace at its ends, padded on
   * both sides with whitespace only, strips back to that text.
   */
  lemma StripPadded(a: string, r: string, b: string)
    requires IsPyBlank(a) && IsPyBlank(b)
    requires r == [] || (!IsPySpace(r[0]) && !IsPySpace(r[|r| - 1]))
    ensures Strip(a + r + b) == r
  {
    var s := a + r + b;
    if r == [] {
      assert IsPyBlank(s);
    } else {
      LeadingBlanksAppend(a, r + b);
      assert s == a + (r + b);
      assert s[|a|..] == r + b;
      TrailingBlanksAppend(r, b);
    }
  }

  /** Text with no whitespace at its ends is kept; stripping twice is stripping once. */
  lemma StripKeeps(s: string)
    ensures (s == [] || (!IsPySpace(s[0]) && !IsPySpace(s[|s| - 1]))) ==> Strip(s) == s
    ensures Strip(Strip(s)) == Strip(s)
  {
    if s == [] || (!IsPySpace(s[0]) && !IsPySpace(s[|s| - 1])) {
      StripPadded([], s, []);
      assert [] + s + [] == s;
    }
    StripPadded([], Strip(s), []);
    assert [] + Strip(s) + [] == Strip(s);
  }

  /** The recognised, stripped text of the first n pages, numbered from 1. */
  function OcrResults(pages: seq<Page>, recognise: Page -> string, n: nat): (r: seq<OcrPage>)
    requires n <= |pages|
    ensures |r| == n
  {
    if n == 0 then [] else OcrResults(pages, recognise, n - 1) + [OcrPage(n, Strip(recognise(pages[n - 1])))]
  }

  /** Entry k is page k + 1 with its recognised text stripped. */
  lemma {:induction false} OcrResultsAt(pages: seq<Page>, recognise: Page -> string, n: nat, k: nat)
    requires k < n <= |pages|
    ensures OcrResults(pages, recognise, n)[k] == OcrPage(k + 1, Strip(recognise(pages[k])))
  {
    if k < n - 1 {
      OcrResultsAt(pages, recognise, n - 1, k);
    }
  }

  /**
   * `extract_text_ocr`, with the OCR engine as the function `recognise`:
   * switched off it fails with its message before touching the file;
   * otherwise each page's stripped text, numbered from 1.
   */
  method ExtractTextOcr(ocrEnabled: bool, fs: FileSystem, pdfPath: string, recognise: Page -> string)
    returns (result: Result<seq<OcrPage>, Failure>)
    ensures !ocrEnabled ==> result == Failure(OcrDisabled)
    ensures ocrEnabled && !Readable(fs, pdfPath) ==> result == Failure(CannotRead(pdfPath))
    ensures ocrEnabled && Readable(fs, pdfPath) ==>
      result == Success(OcrResults(fs[pdfPath].pages, recognise, |fs[pdfPath].pages|))
  {
    if !ocrEnabled {
      return Failure(OcrDisabled);
    }
    if !Readable(fs, pdfPath) {
      return Failure(CannotRead(pdfPath));
    }
    var pages := fs[pdfPath].pages;
    var extracted: seq<OcrPage> := [];
    for k := 0 to |pages|
      invariant extracted == OcrResults(pages, recognise, k)
    {
      extracted := extracted + [OcrPage(k + 1, Strip(recognise(pages[k])))];
    }
    return Success(extracted);
  }

  /** A page with the watermark text stamped on it. */
  datatype MarkedPage = MarkedPage(page: Page, watermark: string)

  /** `add_watermark`: every page, in order, stamped with the same text, then saved. */
  method AddWatermark(fs: FileSystem, pdfPath: string, text: string, outputPath: string, writable: bool)
    returns (result: Result<string, Failure>, written: seq<MarkedPage>)
    ensures result.Success? <==> Readable(fs, pdfPath) && writable
    ensures result.Success? ==> result.value == outputPath
    ensures result.Success? ==>
      |written| == |fs[pdfPath].pages| &&
      forall k :: 0 <= k < |written| ==> written[k] == MarkedPage(fs[pdfPath].pages[k], text)
    ensures result.Failure? ==> written == []
  {
    written := [];
    if !Readable(fs, pdfPath) {
      return Failure(CannotRead(pdfPath)), [];
    }
    var pages := fs[pdfPath].pages;
    var marked: seq<MarkedPage> := [];
    for k := 0 to |pages|
      invariant |marked| == k && forall i :: 0 <= i < k ==> marked[i] == MarkedPage(pages[i], text)
    {
      marked := marked + [MarkedPage(pages[k], text)];
    }
    if !writable {
      return Failure(CannotWrite(outputPath)), [];
    }
    return Success(outputPath), marked;
  }
}
