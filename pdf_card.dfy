// The file card of the packaged desktop organizer: a widget showing one PDF's
// number, its (possibly shortened) file name and its page count, which can be
// selected and renumbered.

module PdfCard {
  import opened Wrappers
  import opened Text
  import opened Pdf

  /** Longest file name shown whole, and how much of a longer one is kept. */
  const MAX_SHOWN: nat := 28
  const KEPT: nat := 25
  const ELLIPSIS := "..."

  /** The label under the preview: the basename, cut to 25 characters plus "..." when longer than 28. */
  function DisplayName(path: string): (shown: string)
    ensures |shown| <= MAX_SHOWN
    ensures shown == Basename(path) <==> |Basename(path)| <= MAX_SHOWN
    ensures |Basename(path)| > MAX_SHOWN ==>
              |shown| == MAX_SHOWN && StartsWith(Basename(path), shown[..KEPT]) && EndsWith(shown, ELLIPSIS)
  {
    var name := Basename(path);
    if |name| > MAX_SHOWN then name[..KEPT] + ELLIPSIS else name
  }

  const READ_ERROR := "Erro ao ler PDF"

  /** The page count the card shows, `None` when the document cannot be opened. */
  function CountOf(fs: FileSystem, path: string): (n: Option<nat>)
    ensures n.Some? <==> Readable(fs, path)
    ensures n.Some? ==> n.value == PageCount(fs, path)
  {
    match Read(fs, path)
    case Some(pages) => Some(|pages|)
    case None => None
  }

  /** "1 página", "n páginas" for any other n, or the read error text. */
  function PageLabel(count: Option<nat>): string
  {
    match count
    case None => READ_ERROR
    case Some(n) => NatToString(n) + " página" + (if n != 1 then "s" else "")
  }

  /** The label gives back the count it was made from, and is plural exactly when the count is not 1. */
  lemma PageLabelReadsBack(n: nat)
    ensures ParseNat(Split(PageLabel(Some(n)), ' ')[0]) == Some(n)
    ensures EndsWith(PageLabel(Some(n)), "s") <==> n != 1
    ensures PageLabel(Some(n)) != READ_ERROR
  {
    PageLabelNumber(n);
    PageLabelPlural(n);
  }

  lemma PageLabelNumber(n: nat)
    ensures ParseNat(Split(PageLabel(Some(n)), ' ')[0]) == Some(n)
  {
    var digits := NatToString(n);
    var word := "página" + (if n != 1 then "s" else "");
    assert PageLabel(Some(n)) == digits + [' '] + word;
    assert ' ' !in digits by {
      assert forall i :: 0 <= i < |digits| ==> digits[i] != ' ';
    }
    SplitAfter(digits, word, ' ');
    ParseNatToString(n);
  }

  lemma PageLabelPlural(n: nat)
    ensures EndsWith(PageLabel(Some(n)), "s") <==> n != 1
    ensures PageLabel(Some(n)) != READ_ERROR
  {
    var digits := NatToString(n);
    var word := "página" + (if n != 1 then "s" else "");
    var text := PageLabel(Some(n));
    assert text == digits + [' '] + word;
    assert text[|text| - 1] == word[|word| - 1];
    assert EndsWith(text, "s") <==> text[|text| - 1] == 's';
    assert READ_ERROR[0] == 'E';
    assert IsDigit(digits[0]);
    assert text[0] == digits[0];
  }

  /** The two stylesheets the card switches between. */
  datatype Style = Highlighted | Plain

  /** The stylesheet applied follows the selection flag alone. */
  function StyleFor(selected: bool): (s: Style)
    ensures s == Highlighted <==> selected
  {
    if selected then Highlighted else Plain
  }

  class Card {
    const path: string
    const name: string
    const info: string
    var numero: int
    var selected: bool
    var style: Style

    ghost predicate Valid()
      reads this
    {
      style == StyleFor(selected)
    }

    /** A new card is unselected, carries its number and shows the file's name and page count. */
    constructor(path: string, numero: int, fs: FileSystem)
      ensures Valid()
      ensures this.path == path && this.numero == numero && !selected
      ensures name == DisplayName(path) && info == PageLabel(CountOf(fs, path))
    {
      this.path := path;
      this.numero := numero;
      this.selected := false;
      this.style := Plain;
      this.name := DisplayName(path);
      this.info := PageLabel(CountOf(fs, path));
    }

    /** Flips the selection; the style follows, the number stays. */
    method ToggleSelection()
      modifies this
      requires Valid()
      ensures Valid()
      ensures selected == !old(selected) && numero == old(numero)
    {
      selected := !selected;
      style := StyleFor(selected);
    }

    /** Sets the selection to the given value; the style follows, the number stays. */
    method SetSelected(value: bool)
      modifies this
      requires Valid()
      ensures Valid()
      ensures selected == value && numero == old(numero)
    {
      selected := value;
      style := StyleFor(selected);
    }

    method UpdateNumber(n: int)
      modifies this
      requires Valid()
      ensures Valid()
      ensures numero == n && selected == old(selected)
    {
      numero := n;
    }
  }

  /** Toggling twice restores the card's selection and style. */
  method ToggleTwice(card: Card)
    modifies card
    requires card.Valid()
    ensures card.Valid() && card.selected == old(card.selected) && card.style == old(card.style)
  {
    card.ToggleSelection();
    card.ToggleSelection();
  }
}
