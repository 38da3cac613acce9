/** String helpers with the semantics of the host languages' built-ins
    (startsWith/endsWith/includes/split in JavaScript, str methods in Python). */
module Text {
  import opened Wrappers

  /** `s.startsWith(p)` / `s.startswith(p)`. */
  predicate StartsWith(s: string, p: string) {
    |p| <= |s| && s[..|p|] == p
  }

  /** `s.endsWith(p)` / `s.endswith(p)`. */
  predicate EndsWith(s: string, p: string) {
    |p| <= |s| && s[|s| - |p|..] == p
  }

  /** `p` occurs in `s` starting at position `i`. */
  predicate OccursAt(s: string, p: string, i: int) {
    0 <= i && i + |p| <= |s| && s[i..i + |p|] == p
  }

  /** `s.includes(p)` / `p in s`, computed by scanning from the left. */
  function Contains(s: string, p: string): (r: bool)
    ensures r <==> exists i :: OccursAt(s, p, i)
    decreases |s|
  {
    if |s| < |p| then
      assert forall i :: !OccursAt(s, p, i);
      false
    else if s[..|p|] == p then
      assert OccursAt(s, p, 0);
      true
    else
      var r := Contains(s[1..], p);
      assert forall i :: OccursAt(s, p, i) && i > 0 ==> OccursAt(s[1..], p, i - 1) by {
        forall i | OccursAt(s, p, i) && i > 0 ensures OccursAt(s[1..], p, i - 1) {
          assert s[1..][i - 1..i - 1 + |p|] == s[i..i + |p|];
        }
      }
      assert forall i :: OccursAt(s[1..], p, i) ==> OccursAt(s, p, i + 1) by {
        forall i | OccursAt(s[1..], p, i) ensures OccursAt(s, p, i + 1) {
          assert s[1..][i..i + |p|] == s[i + 1..i + 1 + |p|];
        }
      }
      r
  }

  /** `s.endsWith(p)` exactly when `s` is some text followed by `p`. */
  lemma EndsWithSplits(s: string, p: string)
    ensures EndsWith(s, p) <==> exists a :: s == a + p
  {
    if EndsWith(s, p) {
      assert s == s[..|s| - |p|] + p;
    }
    forall a | s == a + p ensures EndsWith(s, p) {
      assert s[|s| - |p|..] == p;
    }
  }

  /** `s.includes(p)` exactly when `s` is some text, then `p`, then some text. */
  lemma ContainsSplits(s: string, p: string)
    ensures Contains(s, p) <==> exists a, b :: s == a + p + b
  {
    if Contains(s, p) {
      var i :| OccursAt(s, p, i);
      assert s == s[..i] + p + s[i + |p|..];
    }
    forall a, b | s == a + p + b ensures Contains(s, p) {
      assert s[|a|..|a| + |p|] == p;
      assert OccursAt(s, p, |a|);
    }
  }

  predicate IsDigit(c: char) {
    '0' <= c <= '9'
  }

  predicate AllDigits(s: string) {
    forall i :: 0 <= i < |s| ==> IsDigit(s[i])
  }

  function DigitChar(d: nat): (c: char)
    requires d < 10
    ensures IsDigit(c) && c as int - '0' as int == d
  {
    (d + '0' as int) as char
  }

  /** The decimal text of `n`, as `str(n)` or a template literal prints it. */
  function NatToString(n: nat): (s: string)
    ensures |s| >= 1 && AllDigits(s)
    decreases n
  {
    if n < 10 then [DigitChar(n)] else NatToString(n / 10) + [DigitChar(n % 10)]
  }

  /** The value of a non-empty run of decimal digits. */
  function DigitsValue(s: string): nat
    requires AllDigits(s)
    decreases |s|
  {
    if s == [] then 0 else DigitsValue(s[..|s| - 1]) * 10 + (s[|s| - 1] as int - '0' as int)
  }

  /** Parsing a decimal literal: `None` where the host's parse raises. */
  function ParseNat(s: string): Option<nat> {
    if |s| > 0 && AllDigits(s) then Some(DigitsValue(s)) else None
  }

  /** Printing a number and parsing it back gives the number. */
  lemma {:induction false} ParseNatToString(n: nat)
    ensures ParseNat(NatToString(n)) == Some(n)
    decreases n
  {
    var s := NatToString(n);
    if n >= 10 {
      ParseNatToString(n / 10);
      assert s[..|s| - 1] == NatToString(n / 10);
      assert s[|s| - 1] == DigitChar(n % 10);
      assert DigitsValue(s) == DigitsValue(NatToString(n / 10)) * 10 + n % 10;
    }
  }

  /** The pieces of `s` between occurrences of `c`, as `s.split(c)` yields them. */
  function Split(s: string, c: char): (parts: seq<string>)
    ensures |parts| >= 1
    ensures forall i :: 0 <= i < |parts| ==> c !in parts[i]
    ensures Join(parts, c) == s
    decreases |s|
  {
    if s == [] then [""]
    else
      var rest := Split(s[1..], c);
      if s[0] == c then [""] + rest
      else
        var parts := [[s[0]] + rest[0]] + rest[1..];
        assert Join(parts, c) == s by {
          JoinFirst(rest, c);
          JoinFirst(parts, c);
        }
        parts
  }

  /** The pieces joined back with `c` between them. */
  function Join(parts: seq<string>, c: char): string
    decreases |parts|
  {
    if parts == [] then "" else if |parts| == 1 then parts[0] else parts[0] + [c] + Join(parts[1..], c)
  }

  lemma JoinFirst(parts: seq<string>, c: char)
    requires |parts| >= 1
    ensures Join(parts, c) == parts[0] + (if |parts| == 1 then "" else [c] + Join(parts[1..], c))
  {
  }

  /** A string without the separator splits into itself alone. */
  lemma {:induction false} SplitNoSeparator(s: string, c: char)
    requires c !in s
    ensures Split(s, c) == [s]
    decreases |s|
  {
    if s != [] {
      SplitNoSeparator(s[1..], c);
      assert [s[0]] + s[1..] == s;
    }
  }

  /** Splitting `p c r`, where `p` has no `c`, gives `p` followed by the pieces of `r`. */
  lemma {:induction false} SplitAfter(p: string, r: string, c: char)
    requires c !in p
    ensures Split(p + [c] + r, c) == [p] + Split(r, c)
    decreases |p|
  {
    var s := p + [c] + r;
    if p == [] {
      assert s[1..] == r;
    } else {
      assert s[1..] == p[1..] + [c] + r;
      SplitAfter(p[1..], r, c);
      assert [p[0]] + p[1..] == p;
    }
  }

  /** The final component of a POSIX path (`os.path.basename`). */
  function Basename(path: string): string
    decreases |path|
  {
    if path == [] then ""
    else if path[|path| - 1] == '/' then ""
    else Basename(path[..|path| - 1]) + [path[|path| - 1]]
  }

  /** The final component holds no slash, ends the path, and is preceded by a
      slash unless it is the whole path. */
  lemma {:induction false} BasenameSpec(path: string)
    ensures '/' !in Basename(path)
    ensures EndsWith(path, Basename(path))
    ensures |Basename(path)| < |path| ==> path[|path| - |Basename(path)| - 1] == '/'
    decreases |path|
  {
    if path != [] && path[|path| - 1] != '/' {
      var init := path[..|path| - 1];
      BasenameSpec(init);
      var name := Basename(path);
      assert path[|path| - |name|..] == init[|init| - (|name| - 1)..] + [path[|path| - 1]];
    }
  }

  function UpperChar(c: char): char {
    if 'a' <= c <= 'z' then (c as int - 32) as char else c
  }

  function LowerChar(c: char): char {
    if 'A' <= c <= 'Z' then (c as int + 32) as char else c
  }

  /** `s.toUpperCase()` on the ASCII letters. */
  function Upper(s: string): (u: string)
    ensures |u| == |s| && forall i :: 0 <= i < |s| ==> u[i] == UpperChar(s[i])
  {
    seq(|s|, i requires 0 <= i < |s| => UpperChar(s[i]))
  }

  /** `s.lower()` on the ASCII letters. */
  function Lower(s: string): (l: string)
    ensures |l| == |s| && forall i :: 0 <= i < |s| ==> l[i] == LowerChar(s[i])
  {
    seq(|s|, i requires 0 <= i < |s| => LowerChar(s[i]))
  }

  /** Upper-casing leaves no lower-case letter, changes nothing else than
      lower-case letters, and is undone into the same lower-case text: upper-
      and lower-casing agree on which strings are equal up to case. */
  lemma {:induction false} CaseMapping(s: string)
    ensures forall i :: 0 <= i < |s| ==> !('a' <= Upper(s)[i] <= 'z') && !('A' <= Lower(s)[i] <= 'Z')
    ensures forall i :: 0 <= i < |s| && !('a' <= s[i] <= 'z') ==> Upper(s)[i] == s[i]
    ensures forall i :: 0 <= i < |s| && !('A' <= s[i] <= 'Z') ==> Lower(s)[i] == s[i]
    ensures Upper(Upper(s)) == Upper(s) && Lower(Lower(s)) == Lower(s)
    ensures Lower(Upper(s)) == Lower(s) && Upper(Lower(s)) == Upper(s)
  {
    assert forall i :: 0 <= i < |s| ==> LowerChar(UpperChar(s[i])) == LowerChar(s[i]);
    assert forall i :: 0 <= i < |s| ==> UpperChar(LowerChar(s[i])) == UpperChar(s[i]);
  }

  /** The space separators of Unicode (category Zs) beyond the ASCII and Latin-1 ones. */
  predicate IsUnicodeSpace(c: char) {
    c == '\U{1680}' || ('\U{2000}' <= c <= '\U{200A}') || c == '\U{202F}' || c == '\U{205F}' || c == '\U{3000}'
  }

  /** The characters JavaScript's `trim` strips: its WhiteSpace (tab, vertical
      tab, form feed, space, no-break space, the byte-order mark and every Zs
      separator) and its LineTerminators (line feed, carriage return, U+2028, U+2029). */
  predicate IsJsSpace(c: char) {
    c == '\t' || c == '\n' || c == '\U{000B}' || c == '\U{000C}' || c == '\r' || c == ' ' || c == '\U{00A0}'
      || c == '\U{FEFF}' || c == '\U{2028}' || c == '\U{2029}' || IsUnicodeSpace(c)
  }

  /** The characters Python's `str.isspace` accepts, which `str.strip()` strips:
      the ASCII controls tab to carriage return and the separators U+001C to
      U+001F, space, U+0085, no-break space, U+2028, U+2029 and every Zs separator;
      unlike JavaScript it keeps the byte-order mark. */
  predicate IsPySpace(c: char) {
    ('\t' <= c <= '\r') || ('\U{001C}' <= c <= ' ') || c == '\U{0085}' || c == '\U{00A0}'
      || c == '\U{2028}' || c == '\U{2029}' || IsUnicodeSpace(c)
  }

  /** `!s.trim()`: the string is empty once JavaScript's whitespace is stripped. */
  predicate IsBlank(s: string) {
    forall i :: 0 <= i < |s| ==> IsJsSpace(s[i])
  }

  /** `not s.strip()`: the string is empty once Python's whitespace is stripped. */
  predicate IsPyBlank(s: string) {
    forall i :: 0 <= i < |s| ==> IsPySpace(s[i])
  }

  /** The two whitespace sets differ only in the byte-order mark, which only
      JavaScript strips, and U+001C to U+001F and U+0085, which only Python strips. */
  lemma SpaceSetsDiffer(c: char)
    ensures IsJsSpace(c) && !IsPySpace(c) <==> c == '\U{FEFF}'
    ensures IsPySpace(c) && !IsJsSpace(c) <==> ('\U{001C}' <= c <= '\U{001F}') || c == '\U{0085}'
  {
  }
}
