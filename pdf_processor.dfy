// The merge worker of the packaged desktop organizer and its helpers: the
// worker appends every page of every file to one writer, reporting progress
// after each file, stops at the first file it cannot read, and saves the
// result; the helpers report a file's page count and size.

module PdfProcessor {
  import opened Wrappers
  import opened Text
  import opened Pdf
  import Arith

  /** What the worker emits on its three signals. */
  datatype Signal =
    | Progress(percent: nat)
    | Finished(path: string)
    | Error(failure: Failure)

  /** The two error messages: a named input file could not be read, or the output could not be saved. */
  datatype Failure = ReadFailed(file: string) | SaveFailed

  /** Progress after file i of n: the whole percentage of files done. */
  function Percent(i: nat, n: nat): nat
    requires i < n
  {
    (i + 1) * 100 / n
  }

  lemma PercentBounds(i: nat, n: nat)
    requires i < n
    ensures Percent(i, n) <= 100
    ensures i == n - 1 ==> Percent(i, n) == 100
  {
    assert (i + 1) * 100 <= n * 100;
    Arith.DivAtMost((i + 1) * 100, n, 100);
    if i == n - 1 {
      assert n * 100 <= (i + 1) * 100 < n * (100 + 1);
      Arith.DivBetween((i + 1) * 100, n, 100);
    }
  }

  /** Progress never goes down. */
  lemma PercentMonotone(i: nat, j: nat, n: nat)
    requires i <= j < n
    ensures Percent(i, n) <= Percent(j, n)
  {
    Arith.MulMono(100, i + 1, j + 1);
    Arith.DivMono((i + 1) * 100, (j + 1) * 100, n);
  }

  /** The progress signals for the first k of n files. */
  function ProgressUpTo(k: nat, n: nat): (r: seq<Signal>)
    requires k <= n
    ensures |r| == k
    ensures forall i :: 0 <= i < k ==> r[i] == Progress(Percent(i, n))
  {
    if k == 0 then [] else ProgressUpTo(k - 1, n) + [Progress(Percent(k - 1, n))]
  }

  /**
   * The signals one run emits: a progress signal per file read, then either
   * an error naming the first unreadable file, or the save's outcome.
   */
  function Signals(fs: FileSystem, files: seq<string>, output: string, writable: bool): seq<Signal>
  {
    match FirstUnreadable(fs, files)
    case Some(k) => ProgressUpTo(k, |files|) + [Error(ReadFailed(Basename(files[k])))]
    case None => ProgressUpTo(|files|, |files|) + [if writable then Finished(output) else Error(SaveFailed)]
  }

  /**
   * Exactly one signal ends a run, after all progress signals: `finished`
   * only when every file was read and the file was saved, an error otherwise.
   * Progress is non-decreasing, at most 100, and reaches 100 when every
   * file was read.
   */
  lemma SignalsShape(fs: FileSystem, files: seq<string>, output: string, writable: bool)
    ensures var s := Signals(fs, files, output, writable);
      && |s| >= 1
      && (forall i :: 0 <= i < |s| - 1 ==> s[i].Progress? && s[i].percent <= 100)
      && (forall i, j :: 0 <= i <= j < |s| - 1 ==> s[i].percent <= s[j].percent)
      && !s[|s| - 1].Progress?
      && (s[|s| - 1].Finished? <==> AllReadable(fs, files) && writable)
      && (s[|s| - 1] == Finished(output) <==> AllReadable(fs, files) && writable)
      && (AllReadable(fs, files) && files != [] ==> s[|s| - 2] == Progress(100))
  {
    var s := Signals(fs, files, output, writable);
    var k := match FirstUnreadable(fs, files) case Some(k) => k case None => |files|;
    assert s[..k] == ProgressUpTo(k, |files|);
    forall i | 0 <= i < |s| - 1 ensures s[i].Progress? && s[i].percent <= 100 {
      PercentBounds(i, |files|);
    }
    forall i, j | 0 <= i <= j < |s| - 1 ensures s[i].percent <= s[j].percent {
      PercentMonotone(i, j, |files|);
    }
    if AllReadable(fs, files) && files != [] {
      PercentBounds(|files| - 1, |files|);
    }
  }

  /**
   * The worker's body. Returns the signals emitted, in order, and the pages
   * written to `output` (`None` when nothing was saved); `writable` says
   * whether opening and writing the output file succeeds.
   */
  method Merge(fs: FileSystem, files: seq<string>, output: string, writable: bool)
    returns (signals: seq<Signal>, written: Option<seq<Page>>)
    ensures signals == Signals(fs, files, output, writable)
    ensures written.Some? <==> AllReadable(fs, files) && writable
    ensures written.Some? ==> written.value == Concat(fs, files)
  {
    var pages: seq<Page> := [];
    signals := [];
    assert files[..0] == [];
    for i := 0 to |files|
      invariant AllReadable(fs, files[..i]) && pages == Concat(fs, files[..i])
      invariant signals == ProgressUpTo(i, |files|)
    {
      match Read(fs, files[i]) {
        case None =>
          FirstUnreadableAt(fs, files, i);
          signals := signals + [Error(ReadFailed(Basename(files[i])))];
          return signals, None;
        case Some(filePages) =>
          ConcatSnoc(fs, files[..i], files[i]);
          assert files[..i + 1] == files[..i] + [files[i]];
          pages := pages + filePages;
          signals := signals + [Progress(Percent(i, |files|))];
      }
    }
    assert files[..|files|] == files;
    if writable {
      signals := signals + [Finished(output)];
      written := Some(pages);
    } else {
      signals := signals + [Error(SaveFailed)];
      written := None;
    }
  }


  /** What `get_pdf_info` reports, less the metadata strings. */
  datatype Info = Info(numPages: nat, fileSize: nat, failed: bool)

  /** An unreadable file reports 0 pages and size 0. */
  function GetInfo(fs: FileSystem, path: string): (info: Info)
    ensures info.failed <==> !Readable(fs, path)
    ensures info.failed ==> info.numPages == 0 && info.fileSize == 0
    ensures !info.failed ==> info.numPages == |fs[path].pages| && info.fileSize == fs[path].size
  {
    if Readable(fs, path) then Info(|fs[path].pages|, fs[path].size, false) else Info(0, 0, true)
  }

  /** `validate_pdf_file`: the reader can open the file. */
  function ValidatePdf(fs: FileSystem, path: string): (ok: bool)
    ensures ok <==> Readable(fs, path)
  {
    Read(fs, path).Some?
  }

  /** The unit `get_file_size_formatted` picks. */
  datatype SizeText = InBytes(text: string) | InKilobytes | InMegabytes | Unknown

  const UNKNOWN_SIZE := "Tamanho desconhecido"

  /** B below 1024 bytes, KB below 1024 * 1024, MB above; unknown when the file is missing. */
  function FormatSize(fs: FileSystem, path: string): (r: SizeText)
    ensures r.Unknown? <==> path !in fs
    ensures r.InBytes? <==> path in fs && fs[path].size < 1024
    ensures r.InKilobytes? <==> path in fs && 1024 <= fs[path].size < 1024 * 1024
    ensures r.InMegabytes? <==> path in fs && fs[path].size >= 1024 * 1024
    ensures r.InBytes? ==> ParseNat(Split(r.text, ' ')[0]) == Some(fs[path].size)
  {
    if path !in fs then Unknown
    else
      var size := fs[path].size;
      if size < 1024 then
        var digits := NatToString(size);
        assert ' ' !in digits by {
          assert forall i :: 0 <= i < |digits| ==> IsDigit(digits[i]);
        }
        SplitAfter(digits, "B", ' ');
        ParseNatToString(size);
        InBytes(digits + [' '] + "B")
      else if size < 1024 * 1024 then InKilobytes
      else InMegabytes
  }
}
