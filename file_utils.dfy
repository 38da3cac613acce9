// `clean_filename` from the backend's file helpers: each character that is
// not allowed in a file name is replaced, one invalid character at a time,
// by an underscore.

module FileUtils {

  const INVALID_CHARS := "<>:\"/\\|?*"
  const REPLACEMENT := '_'

  /** The name as it should come out: every invalid character made '_', the rest kept. */
  function Cleaned(name: string): (r: string)
    ensures |r| == |name|
    ensures forall i :: 0 <= i < |r| ==> r[i] == if name[i] in INVALID_CHARS then REPLACEMENT else name[i]
  {
    if name == [] then []
    else [if name[0] in INVALID_CHARS then REPLACEMENT else name[0]] + Cleaned(name[1..])
  }

  /** `s.replace(c, d)` for single characters. */
  function Replace(s: string, c: char, d: char): (r: string)
    ensures |r| == |s|
    ensures forall i :: 0 <= i < |s| ==> r[i] == if s[i] == c then d else s[i]
  {
    if s == [] then [] else [if s[0] == c then d else s[0]] + Replace(s[1..], c, d)
  }

  /** The loop over the invalid characters, replacing each in turn. */
  method CleanFilename(filename: string) returns (cleaned: string)
    ensures cleaned == Cleaned(filename)
  {
    cleaned := filename;
    for k := 0 to |INVALID_CHARS|
      invariant |cleaned| == |filename|
      invariant forall i :: 0 <= i < |filename| ==>
        cleaned[i] == if filename[i] in INVALID_CHARS[..k] then REPLACEMENT else filename[i]
    {
      assert forall c :: c in INVALID_CHARS[..k + 1] <==> c in INVALID_CHARS[..k] || c == INVALID_CHARS[k] by {
        assert INVALID_CHARS[..k + 1] == INVALID_CHARS[..k] + [INVALID_CHARS[k]];
      }
      cleaned := Replace(cleaned, INVALID_CHARS[k], REPLACEMENT);
    }
    assert INVALID_CHARS[..|INVALID_CHARS|] == INVALID_CHARS;
  }

  /** A cleaned name holds no invalid character. */
  lemma CleanedIsValid(name: string)
    ensures forall i :: 0 <= i < |Cleaned(name)| ==> Cleaned(name)[i] !in INVALID_CHARS
  {
    assert REPLACEMENT !in INVALID_CHARS;
  }

  /** A name without invalid characters comes back unchanged. */
  lemma CleanedKeepsValid(name: string)
    requires forall i :: 0 <= i < |name| ==> name[i] !in INVALID_CHARS
    ensures Cleaned(name) == name
  {
  }

  /** Cleaning twice is cleaning once. */
  lemma CleanedIdempotent(name: string)
    ensures Cleaned(Cleaned(name)) == Cleaned(name)
  {
    CleanedIsValid(name);
    CleanedKeepsValid(Cleaned(name));
  }
}
