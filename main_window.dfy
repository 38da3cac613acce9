// The main window of the packaged desktop organizer. It keeps the list of
// PDF paths, rebuilds one card per path on a four-column grid after every
// change, keeps the side panel's totals and hands a merge to the worker.
// Unlike the single-file organizer it rebuilds every card from scratch, so
// a change of the list also drops the selection.

module MainWindow {
  import opened Wrappers
  import opened Pdf
  import opened Lists
  import PdfCard
  import PdfProcessor

  const COLUMNS: nat := 4

  /** Row and column of card i. */
  function Cell(i: nat): (nat, nat)
  {
    (i / COLUMNS, i % COLUMNS)
  }

  /** The adding loop: each path of the batch that is not listed yet and that the reader can open. */
  function ValidAppend(fs: FileSystem, existing: seq<string>, batch: seq<string>): seq<string>
  {
    if batch == [] then existing
    else
      var acc := ValidAppend(fs, existing, batch[..|batch| - 1]);
      var x := batch[|batch| - 1];
      if x !in acc && PdfProcessor.ValidatePdf(fs, x) then acc + [x] else acc
  }

  /** The paths of a batch the reader can open, in order. */
  function ReadableOnly(fs: FileSystem, batch: seq<string>): (r: seq<string>)
    ensures forall x :: x in r <==> x in batch && Readable(fs, x)
  {
    if batch == [] then []
    else
      var init := batch[..|batch| - 1];
      var x := batch[|batch| - 1];
      assert forall y :: y in batch <==> y in init || y == x;
      ReadableOnly(fs, init) + (if Readable(fs, x) then [x] else [])
  }

  /** The paths warned about: those not listed before the batch that the reader cannot open. */
  function Rejected(fs: FileSystem, existing: seq<string>, batch: seq<string>): seq<string>
  {
    if batch == [] then []
    else
      var x := batch[|batch| - 1];
      Rejected(fs, existing, batch[..|batch| - 1]) + (if x !in existing && !Readable(fs, x) then [x] else [])
  }

  /** Validating while appending is appending, duplicate-free, the readable part of the batch. */
  lemma {:induction false} ValidAppendIsDedupOfReadable(fs: FileSystem, existing: seq<string>, batch: seq<string>)
    ensures ValidAppend(fs, existing, batch) == DedupAppend(existing, ReadableOnly(fs, batch))
  {
    if batch != [] {
      var init := batch[..|batch| - 1];
      var x := batch[|batch| - 1];
      ValidAppendIsDedupOfReadable(fs, existing, init);
      if Readable(fs, x) {
        DedupAppendSnoc(existing, ReadableOnly(fs, init), x);
      } else {
        assert ReadableOnly(fs, batch) == ReadableOnly(fs, init) + [];
        assert ReadableOnly(fs, init) + [] == ReadableOnly(fs, init);
      }
    }
  }

  /** Every path the list gains is one the reader can open. */
  lemma {:induction false} ValidAppendAddsReadable(fs: FileSystem, existing: seq<string>, batch: seq<string>)
    ensures forall x :: x in ValidAppend(fs, existing, batch) ==> x in existing || (x in batch && Readable(fs, x))
  {
    if batch != [] {
      var init := batch[..|batch| - 1];
      ValidAppendAddsReadable(fs, existing, init);
      assert forall y :: y in init ==> y in batch;
    }
  }

  /** Total bytes of the listed files as `get_pdf_info` reports them (0 for unreadable ones). */
  function TotalSize(fs: FileSystem, files: seq<string>): nat
  {
    if files == [] then 0
    else TotalSize(fs, files[..|files| - 1]) + PdfProcessor.GetInfo(fs, files[|files| - 1]).fileSize
  }

  /** The side panel's loop over the files, summing reported pages and sizes. */
  method SumInfo(fs: FileSystem, files: seq<string>) returns (pages: nat, bytes: nat)
    ensures pages == TotalPages(fs, files) && bytes == TotalSize(fs, files)
  {
    pages, bytes := 0, 0;
    assert files[..0] == [];
    for k := 0 to |files|
      invariant pages == TotalPages(fs, files[..k]) && bytes == TotalSize(fs, files[..k])
    {
      var info := PdfProcessor.GetInfo(fs, files[k]);
      TotalPagesSnoc(fs, files[..k], files[k]);
      assert files[..k + 1] == files[..k] + [files[k]];
      assert files[..k + 1][..k] == files[..k];
      pages := pages + info.numPages;
      bytes := bytes + info.fileSize;
    }
    assert files[..|files|] == files;
  }

  /** Index of the first highlighted card (`next(c for c in cards if c.selected)`). */
  function FirstSelected(cards: seq<PdfCard.Card>): (r: Option<nat>)
    reads set c | c in cards
    ensures r.Some? ==> r.value < |cards| && cards[r.value].selected
    ensures r.Some? ==> forall j :: 0 <= j < r.value ==> !cards[j].selected
    ensures r.None? <==> forall j :: 0 <= j < |cards| ==> !cards[j].selected
  {
    if cards == [] then None
    else if cards[0].selected then Some(0)
    else
      match FirstSelected(cards[1..])
      case None => None
      case Some(k) => Some(k + 1)
  }

  /** How a press of the merge button ends. */
  datatype MergeStart = NeedTwoFiles | Cancelled | Started

  class Window {
    var files: seq<string>
    var cards: seq<PdfCard.Card>
    var cells: seq<(nat, nat)>
    var instructionVisible: bool
    var mergeEnabled: bool
    /** The move-up, move-down and remove buttons, enabled together. */
    var organizeEnabled: bool
    var infoFiles: nat
    var infoPages: nat
    var infoBytes: nat
    var progressVisible: bool
    var progress: nat
    /** The files and output path of the merge handed to the worker. */
    var job: Option<(seq<string>, string)>

    /**
     * One card per file, in list order, numbered from 1 and laid on the
     * grid; no file is listed twice and at most one card is highlighted.
     */
    ghost predicate Valid()
      reads this, cards
    {
      && |cards| == |files| && |cells| == |files|
      && NoDup(files) && NoDup(cards)
      && (forall i :: 0 <= i < |cards| ==>
            cards[i].path == files[i] && cards[i].numero == i + 1 && cells[i] == Cell(i) && cards[i].Valid())
      && (forall i, j :: 0 <= i < j < |cards| ==> !(cards[i].selected && cards[j].selected))
    }

    constructor()
      ensures Valid() && files == [] && cards == [] && job == None
      ensures instructionVisible && !mergeEnabled && !organizeEnabled
    {
      files, cards, cells := [], [], [];
      instructionVisible := true;
      mergeEnabled, organizeEnabled := false, false;
      infoFiles, infoPages, infoBytes := 0, 0, 0;
      progressVisible, progress := false, 0;
      job := None;
    }

    /** The side panel's three totals. */
    method UpdateInformation(fs: FileSystem)
      modifies this
      ensures infoFiles == |files| && infoPages == TotalPages(fs, files) && infoBytes == TotalSize(fs, files)
      ensures files == old(files) && cards == old(cards) && cells == old(cells)
      ensures instructionVisible == old(instructionVisible) && mergeEnabled == old(mergeEnabled)
      ensures organizeEnabled == old(organizeEnabled) && job == old(job)
    {
      infoFiles := |files|;
      infoPages, infoBytes := SumInfo(fs, files);
    }

    /**
     * Drops every card and builds a fresh, unselected one per file. With no
     * files it only shows the instructions and disables merging, and the
     * side panel keeps its previous totals.
     */
    method UpdateInterface(fs: FileSystem)
      modifies this
      requires NoDup(files)
      ensures Valid()
      ensures files == old(files) && job == old(job) && organizeEnabled == old(organizeEnabled)
      ensures forall i :: 0 <= i < |cards| ==> fresh(cards[i]) && !cards[i].selected
      ensures instructionVisible <==> files == []
      ensures mergeEnabled <==> |files| > 1
      ensures files != [] ==>
        infoFiles == |files| && infoPages == TotalPages(fs, files) && infoBytes == TotalSize(fs, files)
      ensures files == [] ==>
        infoFiles == old(infoFiles) && infoPages == old(infoPages) && infoBytes == old(infoBytes)
    {
      cards, cells := [], [];
      if files == [] {
        instructionVisible := true;
        mergeEnabled := false;
        return;
      }
      instructionVisible := false;
      for i := 0 to |files|
        invariant |cards| == i && |cells| == i && files == old(files) && job == old(job)
        invariant organizeEnabled == old(organizeEnabled) && !instructionVisible
        invariant NoDup(cards)
        invariant forall j :: 0 <= j < i ==>
          fresh(cards[j]) && !cards[j].selected && cards[j].Valid()
          && cards[j].path == files[j] && cards[j].numero == j + 1 && cells[j] == Cell(j)
      {
        var card := new PdfCard.Card(files[i], i + 1, fs);
        NoDupSnoc(cards, card);
        cards := cards + [card];
        cells := cells + [Cell(i)];
      }
      UpdateInformation(fs);
      mergeEnabled := |files| > 1;
    }

    /** Appends each unlisted path the reader can open, warns about the rest, and rebuilds the cards. */
    method ProcessNewFiles(batch: seq<string>, fs: FileSystem) returns (warned: seq<string>)
      modifies this
      requires Valid()
      ensures Valid()
      ensures files == ValidAppend(fs, old(files), batch)
      ensures warned == Rejected(fs, old(files), batch)
      ensures job == old(job)
    {
      warned := [];
      assert batch[..0] == [];
      for k := 0 to |batch|
        invariant files == ValidAppend(fs, old(files), batch[..k]) && NoDup(files)
        invariant warned == Rejected(fs, old(files), batch[..k])
        invariant forall x :: x in files ==> x in old(files) || Readable(fs, x)
        invariant forall x :: x in old(files) ==> x in files
        invariant job == old(job)
      {
        var f := batch[k];
        assert batch[..k + 1] == batch[..k] + [f];
        assert batch[..k + 1][..k] == batch[..k];
        if f !in files {
          if PdfProcessor.ValidatePdf(fs, f) {
            NoDupSnoc(files, f);
            files := files + [f];
          } else {
            warned := warned + [f];
          }
        }
      }
      assert batch[..|batch|] == batch;
      UpdateInterface(fs);
    }

    /**
     * A click on a card: every other card loses its highlight, the clicked
     * one flips, and the organizing buttons follow whether any card is
     * highlighted.
     */
    method OnCardClicked(card: PdfCard.Card)
      modifies this, cards
      requires Valid() && card in cards
      ensures Valid()
      ensures files == old(files) && cards == old(cards) && job == old(job)
      ensures card.selected == !old(card.selected)
      ensures forall c :: c in cards && c != card ==> !c.selected
      ensures organizeEnabled == card.selected
    {
      SelectOnly(card);
      organizeEnabled := FirstSelected(cards).Some?;
    }

    /** The cards' part of a click: every card but the clicked one loses its highlight, the clicked one flips. */
    method SelectOnly(card: PdfCard.Card)
      modifies set c | c in cards
      requires Valid() && card in cards
      ensures forall j :: 0 <= j < |cards| ==> cards[j].Valid() && cards[j].numero == old(cards[j].numero)
      ensures card.selected == !old(card.selected)
      ensures forall c :: c in cards && c != card ==> !c.selected
    {
      for i := 0 to |cards|
        invariant card.selected == old(card.selected)
        invariant forall j :: 0 <= j < |cards| ==>
          cards[j].Valid() && cards[j].numero == old(cards[j].numero)
        invariant forall j :: 0 <= j < i && cards[j] != card ==> !cards[j].selected
      {
        if cards[i] != card {
          cards[i].SetSelected(false);
        }
      }
      card.ToggleSelection();
    }

    /** Swaps the first highlighted file with its predecessor, if both exist, and rebuilds the cards. */
    method MoveSelectedUp(fs: FileSystem)
      modifies this
      requires Valid()
      ensures Valid() && job == old(job)
      ensures var sel := old(FirstSelected(cards));
        if sel.Some? && sel.value > 0 then files == Swap(old(files), sel.value - 1, sel.value)
        else files == old(files) && cards == old(cards)
    {
      var sel := FirstSelected(cards);
      if sel.None? {
        return;
      }
      var i := sel.value;
      if i > 0 {
        SwapNoDup(files, i - 1, i);
        files := Swap(files, i - 1, i);
        UpdateInterface(fs);
      }
    }

    /** Swaps the first highlighted file with its successor, if both exist, and rebuilds the cards. */
    method MoveSelectedDown(fs: FileSystem)
      modifies this
      requires Valid()
      ensures Valid() && job == old(job)
      ensures var sel := old(FirstSelected(cards));
        if sel.Some? && sel.value < |old(cards)| - 1 then files == Swap(old(files), sel.value, sel.value + 1)
        else files == old(files) && cards == old(cards)
    {
      var sel := FirstSelected(cards);
      if sel.None? {
        return;
      }
      var i := sel.value;
      if i < |cards| - 1 {
        SwapNoDup(files, i, i + 1);
        files := Swap(files, i, i + 1);
        UpdateInterface(fs);
      }
    }

    /** Deletes the first highlighted file once the user confirms, and rebuilds the cards. */
    method RemoveSelected(confirmed: bool, fs: FileSystem)
      modifies this
      requires Valid()
      ensures Valid() && job == old(job)
      ensures var sel := old(FirstSelected(cards));
        if sel.Some? && confirmed then files == RemoveAt(old(files), sel.value)
        else files == old(files) && cards == old(cards)
    {
      var sel := FirstSelected(cards);
      if sel.None? {
        return;
      }
      var i := sel.value;
      if confirmed {
        RemoveAtNoDup(files, i);
        files := RemoveAt(files, i);
        UpdateInterface(fs);
      }
    }

    /** Empties a non-empty list once the user confirms. */
    method ClearFiles(confirmed: bool, fs: FileSystem)
      modifies this
      requires Valid()
      ensures Valid() && job == old(job)
      ensures if old(files) != [] && confirmed then files == [] && cards == [] && instructionVisible && !mergeEnabled
              else files == old(files) && cards == old(cards)
    {
      if files != [] {
        if confirmed {
          files := [];
          UpdateInterface(fs);
        }
      }
    }

    /**
     * The merge button: fewer than two files are refused, a cancelled save
     * dialog ("" as the chosen path) does nothing, otherwise the worker is
     * started on the current list with the progress bar at 0.
     */
    method Merge(output: string) returns (outcome: MergeStart)
      modifies this
      ensures files == old(files) && cards == old(cards) && cells == old(cells)
      ensures |files| < 2 ==> outcome == NeedTwoFiles && job == old(job) && mergeEnabled == old(mergeEnabled)
      ensures |files| >= 2 && output == "" ==> outcome == Cancelled && job == old(job)
      ensures |files| >= 2 && output != "" ==>
        outcome == Started && job == Some((files, output)) && progressVisible && progress == 0 && !mergeEnabled
    {
      if |files| < 2 {
        return NeedTwoFiles;
      }
      if output == "" {
        return Cancelled;
      }
      progressVisible := true;
      progress := 0;
      mergeEnabled := false;
      job := Some((files, output));
      return Started;
    }

    /**
     * The worker's run seen from the window: the progress bar takes each
     * progress value, and the finishing or error signal hides it and
     * re-enables merging.
     */
    method RunJob(fs: FileSystem, writable: bool) returns (signals: seq<PdfProcessor.Signal>, written: Option<seq<Page>>)
      modifies this
      requires job.Some?
      ensures signals == PdfProcessor.Signals(fs, old(job).value.0, old(job).value.1, writable)
      ensures written.Some? <==> AllReadable(fs, old(job).value.0) && writable
      ensures written.Some? ==> written.value == Concat(fs, old(job).value.0)
      ensures !progressVisible && mergeEnabled
      ensures files == old(files) && cards == old(cards) && cells == old(cells)
    {
      signals, written := PdfProcessor.Merge(fs, job.value.0, job.value.1, writable);
      for k := 0 to |signals|
        invariant files == old(files) && cards == old(cards) && cells == old(cells)
      {
        if signals[k].Progress? {
          progress := signals[k].percent;
        }
      }
      progressVisible := false;
      mergeEnabled := true;
    }
  }
}
