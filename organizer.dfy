// The single-file desktop organizer: a window holding an ordered list of PDF
// paths and, in parallel, one card widget per path laid out on a four-column
// grid. Cards are selected by clicking, reordered by drag and drop (the
// dragged card carries the text "pdf_card:<number>") and the list is merged
// into one output file.

module Organizer {
  import opened Wrappers
  import opened Text
  import opened Pdf
  import opened Lists
  import PdfCard

  const COLUMNS: nat := 4
  const CARD_TAG := "pdf_card"
  const PAYLOAD_PREFIX := "pdf_card:"

  /** The text a dragged card puts on the clipboard. */
  function Payload(n: nat): string
  {
    PAYLOAD_PREFIX + NatToString(n)
  }

  /** Drag-enter, drag-move and drop accept only text starting with the payload prefix. */
  predicate Accepts(text: string)
  {
    StartsWith(text, PAYLOAD_PREFIX)
  }

  /**
   * The card number carried by a drop: the piece after the first ':' read as
   * a decimal; `None` when the text is not accepted or the piece is not a
   * number (where `int()` raises).
   */
  function DraggedNumber(text: string): (n: Option<nat>)
    ensures n.Some? ==> Accepts(text)
  {
    if !Accepts(text) then None
    else
      var rest := text[|PAYLOAD_PREFIX|..];
      assert text == CARD_TAG + [':'] + rest;
      assert ':' !in CARD_TAG by {
        assert forall i :: 0 <= i < |CARD_TAG| ==> CARD_TAG[i] != ':';
      }
      SplitAfter(CARD_TAG, rest, ':');
      ParseNat(Split(text, ':')[1])
  }

  /** A card's payload is accepted and yields that card's number back. */
  lemma PayloadRoundTrip(n: nat)
    ensures Accepts(Payload(n))
    ensures DraggedNumber(Payload(n)) == Some(n)
  {
    var digits := NatToString(n);
    var text := Payload(n);
    assert text[..|PAYLOAD_PREFIX|] == PAYLOAD_PREFIX;
    assert text[|PAYLOAD_PREFIX|..] == digits;
    assert ':' !in CARD_TAG by {
      assert forall i :: 0 <= i < |CARD_TAG| ==> CARD_TAG[i] != ':';
    }
    assert ':' !in digits by {
      assert forall i :: 0 <= i < |digits| ==> IsDigit(digits[i]);
    }
    assert text == CARD_TAG + [':'] + digits;
    SplitAfter(CARD_TAG, digits, ':');
    SplitNoSeparator(digits, ':');
    ParseNatToString(n);
  }

  /** Paths a drop of files contributes: those ending in ".pdf" in any case that name an existing file. */
  function DroppedPdfs(fs: FileSystem, paths: seq<string>): (r: seq<string>)
    ensures forall p :: p in r <==> p in paths && EndsWith(Lower(p), ".pdf") && p in fs
    ensures |r| <= |paths|
  {
    if paths == [] then []
    else
      var rest := DroppedPdfs(fs, paths[1..]);
      assert forall p :: p in paths <==> p == paths[0] || p in paths[1..];
      if EndsWith(Lower(paths[0]), ".pdf") && paths[0] in fs then [paths[0]] + rest else rest
  }

  /** How `gerar_pdf_final` ends. */
  datatype GenerateOutcome = EmptyListWarning | Cancelled | Saved(path: string, merged: nat) | Failed

  /** A card widget: its file, its number badge, its selection highlight and its grid cell. */
  class CardQt {
    const path: string
    const name: string
    var numero: nat
    var selected: bool
    var cell: Option<(nat, nat)>

    constructor(path: string, numero: nat)
      ensures this.path == path && this.numero == numero && !selected && cell == None
      ensures name == PdfCard.DisplayName(path)
    {
      this.path := path;
      this.name := PdfCard.DisplayName(path);
      this.numero := numero;
      this.selected := false;
      this.cell := None;
    }

    method Select()
      modifies this
      ensures selected && numero == old(numero) && cell == old(cell)
    {
      selected := true;
    }

    method Deselect()
      modifies this
      ensures !selected && numero == old(numero) && cell == old(cell)
    {
      selected := false;
    }

    method UpdateNumber(n: nat)
      modifies this
      ensures numero == n && selected == old(selected) && cell == old(cell)
    {
      numero := n;
    }

    /** Adding the widget to the grid layout at a cell. */
    method Place(row: nat, col: nat)
      modifies this
      ensures cell == Some((row, col)) && numero == old(numero) && selected == old(selected)
    {
      cell := Some((row, col));
    }

    /** The text this card puts on a drag. */
    function DragText(): string
      reads this
    {
      Payload(numero)
    }
  }

  /** The file of each card, in grid order. */
  function PathsOf(cards: seq<CardQt>): (paths: seq<string>)
    ensures |paths| == |cards|
    ensures forall i :: 0 <= i < |cards| ==> paths[i] == cards[i].path
  {
    seq(|cards|, i requires 0 <= i < |cards| => cards[i].path)
  }

  lemma PathsOfSnoc(cards: seq<CardQt>, card: CardQt)
    ensures PathsOf(cards + [card]) == PathsOf(cards) + [card.path]
  {
  }

  lemma PathsOfRemoveAt(cards: seq<CardQt>, i: nat)
    requires i < |cards|
    ensures PathsOf(RemoveAt(cards, i)) == RemoveAt(PathsOf(cards), i)
  {
  }

  lemma PathsOfSwap(cards: seq<CardQt>, i: nat, j: nat)
    requires i < |cards| && j < |cards|
    ensures PathsOf(Swap(cards, i, j)) == Swap(PathsOf(cards), i, j)
  {
  }

  lemma PathsOfMove(cards: seq<CardQt>, from: nat, to: nat)
    requires from < |cards| && to < |cards|
    ensures PathsOf(Move(cards, from, to)) == Move(PathsOf(cards), from, to)
  {
    forall i | 0 <= i < |cards|
      ensures PathsOf(Move(cards, from, to))[i] == Move(PathsOf(cards), from, to)[i]
    {
      MoveAt(cards, from, to, i);
      MoveAt(PathsOf(cards), from, to, i);
    }
  }

  /** The page counter's loop: pages of the readable files, in list order. */
  method CountPages(fs: FileSystem, files: seq<string>) returns (total: nat)
    ensures total == TotalPages(fs, files)
  {
    total := 0;
    assert files[..0] == [];
    for k := 0 to |files|
      invariant total == TotalPages(fs, files[..k])
    {
      TotalPagesSnoc(fs, files[..k], files[k]);
      assert files[..k + 1] == files[..k] + [files[k]];
      match Read(fs, files[k]) {
        case Some(pages) => total := total + |pages|;
        case None =>
      }
    }
    assert files[..|files|] == files;
  }

  /** The merge loop: every page of every file in order, or `None` at the first unreadable file. */
  method CollectPages(fs: FileSystem, files: seq<string>) returns (pages: Option<seq<Page>>)
    ensures pages.Some? <==> AllReadable(fs, files)
    ensures pages.Some? ==> pages.value == Concat(fs, files)
  {
    var acc: seq<Page> := [];
    assert files[..0] == [];
    for k := 0 to |files|
      invariant AllReadable(fs, files[..k]) && acc == Concat(fs, files[..k])
    {
      match Read(fs, files[k]) {
        case None =>
          return None;
        case Some(filePages) =>
          ConcatSnoc(fs, files[..k], files[k]);
          assert files[..k + 1] == files[..k] + [files[k]];
          acc := acc + filePages;
      }
    }
    assert files[..|files|] == files;
    return Some(acc);
  }

  class Window {
    var pdfs: seq<string>
    var cards: seq<CardQt>
    var selected: Option<CardQt>
    var totalPdfs: nat
    var totalPages: nat
    /** Files written so far, by path. */
    var outputs: map<string, seq<Page>>

    /**
     * The list and the cards run in parallel, neither repeats, and the
     * selected card (if any) is the one card whose highlight is on.
     */
    ghost predicate Linked()
      reads this, cards
    {
      && pdfs == PathsOf(cards)
      && NoDup(cards)
      && NoDup(pdfs)
      && (selected.Some? ==> selected.value in cards)
      && (forall c :: c in cards ==> (c.selected <==> selected == Some(c)))
    }

    /** Card i sits at row i / 4, column i % 4 and is numbered i + 1. */
    ghost predicate Laid()
      reads this, cards
    {
      forall i :: 0 <= i < |cards| ==>
        cards[i].numero == i + 1 && cards[i].cell == Some((i / COLUMNS, i % COLUMNS))
    }

    ghost predicate Valid()
      reads this, cards
    {
      Linked() && Laid()
    }

    constructor()
      ensures Valid() && pdfs == [] && cards == [] && selected == None && outputs == map[]
    {
      pdfs := [];
      cards := [];
      selected := None;
      totalPdfs := 0;
      totalPages := 0;
      outputs := map[];
    }

    /** The side panel's counters: number of files and pages of the readable ones. */
    method UpdateStatistics(fs: FileSystem)
      modifies this
      ensures totalPdfs == |pdfs| && totalPages == TotalPages(fs, pdfs)
      ensures pdfs == old(pdfs) && cards == old(cards) && selected == old(selected) && outputs == old(outputs)
    {
      totalPdfs := |pdfs|;
      totalPages := CountPages(fs, pdfs);
    }

    /** Re-lays the grid in list order, renumbers 1..n and refreshes the counters. */
    method Reorganize(fs: FileSystem)
      modifies this, cards
      requires Linked()
      ensures Valid()
      ensures pdfs == old(pdfs) && cards == old(cards) && selected == old(selected) && outputs == old(outputs)
      ensures totalPdfs == |pdfs| && totalPages == TotalPages(fs, pdfs)
    {
      for i := 0 to |cards|
        invariant pdfs == old(pdfs) && cards == old(cards) && selected == old(selected) && outputs == old(outputs)
        invariant Linked()
        invariant forall j :: 0 <= j < i ==>
          cards[j].numero == j + 1 && cards[j].cell == Some((j / COLUMNS, j % COLUMNS))
      {
        cards[i].Place(i / COLUMNS, i % COLUMNS);
        cards[i].UpdateNumber(i + 1);
      }
      UpdateStatistics(fs);
    }

    /** Appends each new path with a fresh card, then re-lays the grid. */
    method AddFiles(files: seq<string>, fs: FileSystem) returns (added: nat)
      modifies this, cards
      requires Valid()
      ensures Valid()
      ensures pdfs == DedupAppend(old(pdfs), files)
      ensures added == |pdfs| - |old(pdfs)|
      ensures selected == old(selected) && outputs == old(outputs)
      ensures totalPdfs == |pdfs| && totalPages == TotalPages(fs, pdfs)
    {
      added := 0;
      assert files[..0] == [];
      for k := 0 to |files|
        invariant Linked()
        invariant pdfs == DedupAppend(old(pdfs), files[..k])
        invariant |pdfs| == |old(pdfs)| + added
        invariant selected == old(selected) && outputs == old(outputs)
        invariant forall c :: c in cards ==> c in old(cards) || fresh(c)
        invariant fresh(set c | c in cards && c !in old(cards))
      {
        var f := files[k];
        DedupAppendSnoc(old(pdfs), files[..k], f);
        assert files[..k + 1] == files[..k] + [f];
        if f !in pdfs {
          AppendFile(f);
          added := added + 1;
        }
      }
      assert files[..|files|] == files;
      Reorganize(fs);
    }

    /** One new path at the end of the list, with a fresh unselected card numbered after the others. */
    method AppendFile(f: string)
      modifies this
      requires Linked() && f !in pdfs
      ensures Linked()
      ensures pdfs == old(pdfs) + [f]
      ensures forall c :: c in cards ==> c in old(cards) || fresh(c)
      ensures selected == old(selected) && outputs == old(outputs)
    {
      var card := new CardQt(f, |cards| + 1);
      PathsOfSnoc(cards, card);
      NoDupSnoc(pdfs, f);
      NoDupSnoc(cards, card);
      ghost var before := cards;
      assert forall c :: c in before ==> (c.selected <==> selected == Some(c));
      pdfs := pdfs + [f];
      cards := cards + [card];
      assert forall c :: c in cards ==> c == card || c in before;
    }

    /** Files dropped from outside: only existing ".pdf" files are added. */
    method DropFiles(paths: seq<string>, fs: FileSystem) returns (accepted: seq<string>)
      modifies this, cards
      requires Valid()
      ensures Valid()
      ensures accepted == DroppedPdfs(fs, paths)
      ensures accepted != [] ==> pdfs == DedupAppend(old(pdfs), accepted)
      ensures accepted == [] ==> pdfs == old(pdfs) && cards == old(cards)
      ensures selected == old(selected) && outputs == old(outputs)
    {
      accepted := DroppedPdfs(fs, paths);
      if accepted != [] {
        var _ := AddFiles(accepted, fs);
      }
    }

    /** Clicking a card: the previous one loses its highlight, the clicked one gains it. */
    method Select(card: CardQt)
      modifies this, cards
      requires Valid() && card in cards
      ensures Valid()
      ensures selected == Some(card)
      ensures pdfs == old(pdfs) && cards == old(cards) && outputs == old(outputs)
    {
      if selected.Some? {
        selected.value.Deselect();
      }
      selected := Some(card);
      card.Select();
    }

    /** Deletes the selected entry and its card and clears the selection. */
    method Remove(fs: FileSystem)
      modifies this, cards
      requires Valid()
      ensures Valid()
      ensures old(selected).None? ==> pdfs == old(pdfs) && cards == old(cards) && selected == old(selected)
      ensures old(selected).Some? ==>
        var i := IndexOf(old(cards), old(selected).value);
        && pdfs == RemoveAt(old(pdfs), i)
        && cards == RemoveAt(old(cards), i)
        && selected.None?
        && totalPages == TotalPages(fs, pdfs)
      ensures outputs == old(outputs)
    {
      if selected.Some? {
        var i := IndexOf(cards, selected.value);
        RemoveAtNoDup(pdfs, i);
        RemoveAtNoDup(cards, i);
        PathsOfRemoveAt(cards, i);
        pdfs := RemoveAt(pdfs, i);
        cards := RemoveAt(cards, i);
        selected := None;
        Reorganize(fs);
      }
    }

    /** Empties the list and the grid and clears the selection. */
    method Clear(fs: FileSystem)
      modifies this
      ensures Valid()
      ensures pdfs == [] && cards == [] && selected == None && outputs == old(outputs)
      ensures totalPdfs == 0 && totalPages == 0
    {
      pdfs := [];
      cards := [];
      selected := None;
      UpdateStatistics(fs);
    }

    /** Swaps the selected entry with its predecessor when it has one. */
    method MoveUp(fs: FileSystem)
      modifies this, cards
      requires Valid()
      ensures Valid()
      ensures selected == old(selected) && outputs == old(outputs)
      ensures if old(selected).Some? && IndexOf(old(cards), old(selected).value) > 0 then
                var i := IndexOf(old(cards), old(selected).value);
                pdfs == Swap(old(pdfs), i - 1, i) && cards == Swap(old(cards), i - 1, i)
              else pdfs == old(pdfs) && cards == old(cards)
    {
      if selected.Some? {
        var i := IndexOf(cards, selected.value);
        if i > 0 {
          SwapTogether(i - 1, i);
          Reorganize(fs);
        }
      }
    }

    /** Swaps the selected entry with its successor when it has one. */
    method MoveDown(fs: FileSystem)
      modifies this, cards
      requires Valid()
      ensures Valid()
      ensures selected == old(selected) && outputs == old(outputs)
      ensures if old(selected).Some? && IndexOf(old(cards), old(selected).value) < |old(cards)| - 1 then
                var i := IndexOf(old(cards), old(selected).value);
                pdfs == Swap(old(pdfs), i, i + 1) && cards == Swap(old(cards), i, i + 1)
              else pdfs == old(pdfs) && cards == old(cards)
    {
      if selected.Some? {
        var i := IndexOf(cards, selected.value);
        if i < |cards| - 1 {
          SwapTogether(i, i + 1);
          Reorganize(fs);
        }
      }
    }

    /** Swaps two positions of both lists at once, keeping them parallel. */
    method SwapTogether(i: nat, j: nat)
      modifies this
      requires Linked() && i < |cards| && j < |cards|
      ensures Linked()
      ensures pdfs == Swap(old(pdfs), i, j) && cards == Swap(old(cards), i, j)
      ensures selected == old(selected) && outputs == old(outputs)
    {
      SwapNoDup(pdfs, i, j);
      SwapNoDup(cards, i, j);
      PathsOfSwap(cards, i, j);
      assert forall x :: x in Swap(cards, i, j) <==> x in cards by {
        forall x ensures x in Swap(cards, i, j) <==> x in cards {
          if x in cards {
            var k := IndexOf(cards, x);
            assert Swap(cards, i, j)[if k == i then j else if k == j then i else k] == x;
          }
        }
      }
      pdfs := Swap(pdfs, i, j);
      cards := Swap(cards, i, j);
    }

    /** The position of the first card carrying number n, or -1. */
    method FindNumbered(n: nat) returns (index: int)
      requires Valid()
      ensures -1 <= index < |cards|
      ensures index >= 0 ==> cards[index].numero == n && forall j :: 0 <= j < index ==> cards[j].numero != n
      ensures index == -1 <==> forall j :: 0 <= j < |cards| ==> cards[j].numero != n
      ensures index == if 1 <= n <= |cards| then n - 1 else -1
    {
      index := -1;
      var i := 0;
      while i < |cards|
        invariant 0 <= i <= |cards|
        invariant forall j :: 0 <= j < i ==> cards[j].numero != n
        invariant 1 <= n <= |cards| ==> i <= n - 1
      {
        if cards[i].numero == n {
          index := i;
          return;
        }
        i := i + 1;
      }
    }

    /**
     * A card dropped on the grid: the card numbered by the payload is popped
     * and reinserted at the target (the card nearest the drop point, an
     * input here), lowered by one when it lay after the dragged card.
     */
    method Drop(text: string, target: Option<nat>, fs: FileSystem)
      modifies this, cards
      requires Valid()
      requires target.Some? <==> |cards| > 0
      requires target.Some? ==> target.value < |cards|
      ensures Valid()
      ensures selected == old(selected) && outputs == old(outputs)
      ensures var n := DraggedNumber(text);
              if n.Some? && target.Some? && 1 <= n.value <= |old(cards)| && n.value - 1 != target.value then
                pdfs == Move(old(pdfs), n.value - 1, target.value)
                && cards == Move(old(cards), n.value - 1, target.value)
              else pdfs == old(pdfs) && cards == old(cards)
    {
      var n := DraggedNumber(text);
      if n.Some? && target.Some? {
        DropAt(n.value, target.value, fs);
      }
    }

    /** The card numbered n, if there is one away from the target, moved to the target. */
    method DropAt(n: nat, to: nat, fs: FileSystem)
      modifies this, cards
      requires Valid() && to < |cards|
      ensures Valid()
      ensures selected == old(selected) && outputs == old(outputs)
      ensures if 1 <= n <= |old(cards)| && n - 1 != to then
                pdfs == Move(old(pdfs), n - 1, to) && cards == Move(old(cards), n - 1, to)
              else pdfs == old(pdfs) && cards == old(cards)
    {
      var from := FindNumbered(n);
      if from != -1 && from != to {
        MoveTogether(from, to);
        Reorganize(fs);
      }
    }

    /** Pops position `from` of both lists and inserts it near `to`, keeping them parallel. */
    method MoveTogether(from: nat, to: nat)
      modifies this
      requires Linked() && from < |cards| && to < |cards|
      ensures Linked()
      ensures pdfs == Move(old(pdfs), from, to) && cards == Move(old(cards), from, to)
      ensures selected == old(selected) && outputs == old(outputs)
    {
      PathsOfMove(cards, from, to);
      MoveNoDup(pdfs, from, to);
      MoveNoDup(cards, from, to);
      MovePermutes(cards, from, to);
      assert forall x :: x in Move(cards, from, to) <==> x in cards by {
        forall x ensures x in Move(cards, from, to) <==> x in cards {
          assert x in Move(cards, from, to) <==> x in multiset(Move(cards, from, to));
          assert x in cards <==> x in multiset(cards);
        }
      }
      pdfs, cards := Move(pdfs, from, to), Move(cards, from, to);
    }

    /**
     * Writes every page of every listed file, in list order, to `output`
     * (the name chosen in the save dialog, "" when it was cancelled).
     * Any unreadable file or a failed write aborts with nothing written.
     */
    method Generate(output: string, fs: FileSystem, writable: bool) returns (outcome: GenerateOutcome)
      modifies this
      ensures pdfs == old(pdfs) && cards == old(cards) && selected == old(selected)
      ensures pdfs == [] ==> outcome == EmptyListWarning && outputs == old(outputs)
      ensures pdfs != [] && output == "" ==> outcome == Cancelled && outputs == old(outputs)
      ensures pdfs != [] && output != "" && AllReadable(fs, pdfs) && writable ==>
                outcome == Saved(output, |pdfs|) && outputs == old(outputs)[output := Concat(fs, pdfs)]
      ensures pdfs != [] && output != "" && !(AllReadable(fs, pdfs) && writable) ==>
                outcome == Failed && outputs == old(outputs)
    {
      if pdfs == [] {
        return EmptyListWarning;
      }
      if output == "" {
        return Cancelled;
      }
      var pages := CollectPages(fs, pdfs);
      if pages.None? || !writable {
        return Failed;
      }
      outputs := outputs[output := pages.value];
      return Saved(output, |pdfs|);
    }
  }
}
