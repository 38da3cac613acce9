// The avatar's initials on the profile page: the first character of each
// space-separated word, upper-cased, at most two of them.

module ProfilePage {
  import opened Text

  /** `word.charAt(0)`: the first character, or nothing for an empty word. */
  function FirstChar(word: string): string
  {
    if word == [] then "" else [word[0]]
  }

  /** `.map(word => word.charAt(0)).join('')` over the first `n` words. */
  function FirstChars(words: seq<string>, n: nat): string
    requires n <= |words|
  {
    if n == 0 then "" else FirstChars(words, n - 1) + FirstChar(words[n - 1])
  }

  /** `getInitials(name)`. */
  function Initials(name: string): (r: string)
    ensures |r| <= 2
  {
    var words := Split(name, ' ');
    var all := Upper(FirstChars(words, |words|));
    if |all| <= 2 then all else all[..2]
  }

  /** The words of the first `n` that are not empty, in order. */
  function NonEmpty(words: seq<string>, n: nat): (r: seq<string>)
    requires n <= |words|
    ensures forall k :: 0 <= k < |r| ==> r[k] != []
  {
    if n == 0 then [] else NonEmpty(words, n - 1) + (if words[n - 1] != [] then [words[n - 1]] else [])
  }

  /**
   * The characters collected are the first characters of the non-empty
   * words, one each and in order: empty words add nothing.
   */
  lemma {:induction false} FirstCharsOfNonEmpty(words: seq<string>, n: nat)
    requires n <= |words|
    ensures |FirstChars(words, n)| == |NonEmpty(words, n)|
    ensures forall k :: 0 <= k < |NonEmpty(words, n)| ==> FirstChars(words, n)[k] == NonEmpty(words, n)[k][0]
  {
    if n > 0 {
      FirstCharsOfNonEmpty(words, n - 1);
    }
  }

  /**
   * The initials are the upper-cased first characters of the first (at most
   * two) non-empty words of the name.
   */
  lemma InitialsOfWords(name: string)
    ensures var ws := NonEmpty(Split(name, ' '), |Split(name, ' ')|);
      |Initials(name)| == (if |ws| <= 2 then |ws| else 2)
      && forall k :: 0 <= k < |Initials(name)| ==> Initials(name)[k] == UpperChar(ws[k][0])
  {
    var words := Split(name, ' ');
    FirstCharsOfNonEmpty(words, |words|);
  }

  /** An empty name has no initials. */
  lemma InitialsEmpty()
    ensures Initials("") == ""
  {
    assert Split("", ' ') == [""];
  }

  /** A name with no non-empty words, such as spaces alone, has no initials. */
  lemma InitialsBlank(name: string)
    requires forall k :: 0 <= k < |name| ==> name[k] == ' '
    ensures Initials(name) == ""
  {
    var words := Split(name, ' ');
    forall k | 0 <= k < |words| ensures words[k] == [] {
      if words[k] != [] {
        assert Join(words, ' ') == name;
        var _ := JoinHasPiece(words, ' ', k);
      }
    }
    NoneNonEmpty(words, |words|);
    FirstCharsOfNonEmpty(words, |words|);
  }

  /** With only empty words, none is kept. */
  lemma {:induction false} NoneNonEmpty(words: seq<string>, n: nat)
    requires n <= |words| && forall k :: 0 <= k < n ==> words[k] == []
    ensures NonEmpty(words, n) == []
  {
    if n > 0 {
      NoneNonEmpty(words, n - 1);
    }
  }

  /** Each piece occurs whole, as a contiguous stretch starting at `off`, in
      the joined string; in particular a non-empty piece's first character
      does. */
  lemma {:induction false} JoinHasPiece(parts: seq<string>, c: char, k: nat) returns (off: nat)
    requires k < |parts|
    ensures off + |parts[k]| <= |Join(parts, c)| && Join(parts, c)[off..off + |parts[k]|] == parts[k]
    ensures parts[k] != [] ==> parts[k][0] in Join(parts, c)
    decreases |parts|
  {
    var joined := Join(parts, c);
    JoinFirst(parts, c);
    if k == 0 {
      off := 0;
      assert joined[..|parts[0]|] == parts[0];
    } else {
      var o := JoinHasPiece(parts[1..], c, k - 1);
      var rest := Join(parts[1..], c);
      assert parts[1..][k - 1] == parts[k];
      off := |parts[0]| + 1 + o;
      assert joined == (parts[0] + [c]) + rest;
      assert joined[off..off + |parts[k]|] == rest[o..o + |parts[k]|];
    }
    if parts[k] != [] {
      assert joined[off] == joined[off..off + |parts[k]|][0];
    }
  }
}
