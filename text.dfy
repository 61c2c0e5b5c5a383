/**
  The string operations of Python's `str` that the core relies on
  (`strip`, `startswith`, `endswith`, `replace`, `lower`) and the regex
  character classes `\s`, `\d` and `\w`. Python's versions are Unicode-aware;
  these are restricted to ASCII.
 */
module Text {
  import opened Outcomes

  /**
    `\s`, and the characters `str.strip()` removes, restricted to ASCII: the
    space, tab, line feed, vertical tab, form feed, carriage return, and the
    four separators 0x1C to 0x1F, which Python also counts as whitespace.
   */
  predicate IsSpace(c: char) {
    c == ' ' || c == '\t' || c == '\n' || c == '\r' || c as int == 0x0B || c as int == 0x0C
    || 0x1C <= c as int <= 0x1F
  }

  /** `\d`, restricted to ASCII. */
  predicate IsDigit(c: char) {
    '0' <= c <= '9'
  }

  /** `\w`, restricted to ASCII. */
  predicate IsWordChar(c: char) {
    'a' <= c <= 'z' || 'A' <= c <= 'Z' || IsDigit(c) || c == '_'
  }

  /** `str.lower()` on one character, restricted to ASCII. */
  function Lower(c: char): char {
    if 'A' <= c <= 'Z' then (c as int + 32) as char else c
  }

  /** `str.lower()`: lower-cases every character and keeps the length. */
  function LowerString(s: string): (r: string)
    ensures |r| == |s|
    ensures forall i :: 0 <= i < |s| ==> r[i] == Lower(s[i])
  {
    if s == [] then [] else [Lower(s[0])] + LowerString(s[1..])
  }

  /** Every character is whitespace (the empty string included). */
  predicate Blank(s: string) {
    forall i :: 0 <= i < |s| ==> IsSpace(s[i])
  }

  /** Neither the first nor the last character is whitespace. */
  predicate IsStripped(s: string) {
    s == [] || (!IsSpace(s[0]) && !IsSpace(s[|s| - 1]))
  }

  /** `r` is `s` with a blank prefix of length `a` and a blank suffix cut away. */
  predicate StrippedAt(s: string, a: int, r: string) {
    0 <= a && a + |r| <= |s| && s[a..a + |r|] == r && Blank(s[..a]) && Blank(s[a + |r|..])
  }

  /**
    `str.strip()`: drops whitespace from both ends. The result starts and ends
    with no whitespace, and it is empty exactly when `s` is blank;
    `StripCutsBlankEnds` states what is cut away.
   */
  function Strip(s: string): (r: string)
    ensures IsStripped(r)
    ensures r == [] <==> Blank(s)
  {
    if s == [] then []
    else if IsSpace(s[0]) then
      var r := Strip(s[1..]);
      assert Blank(s) <==> Blank(s[1..]) by {
        assert forall i :: 1 <= i < |s| ==> s[i] == s[1..][i - 1];
      }
      r
    else if IsSpace(s[|s| - 1]) then
      var r := Strip(s[..|s| - 1]);
      assert !Blank(s[..|s| - 1]) by { assert s[..|s| - 1][0] == s[0]; }
      r
    else s
  }

  /** `str.strip()` cuts away a blank prefix and a blank suffix and keeps what lies between. */
  lemma {:induction false} StripCutsBlankEnds(s: string)
    ensures exists a :: StrippedAt(s, a, Strip(s))
  {
    if s == [] {
      assert StrippedAt(s, 0, Strip(s));
    } else if IsSpace(s[0]) {
      StripCutsBlankEnds(s[1..]);
      var a :| StrippedAt(s[1..], a, Strip(s));
      LeadingSpaceCut(s, a, Strip(s));
    } else if IsSpace(s[|s| - 1]) {
      StripCutsBlankEnds(s[..|s| - 1]);
      var a :| StrippedAt(s[..|s| - 1], a, Strip(s));
      TrailingSpaceCut(s, a, Strip(s));
    } else {
      assert s[0..|s|] == s;
      assert StrippedAt(s, 0, Strip(s));
    }
  }

  lemma LeadingSpaceCut(s: string, a: int, r: string)
    requires s != [] && IsSpace(s[0]) && StrippedAt(s[1..], a, r)
    ensures StrippedAt(s, a + 1, r)
  {
    var t := s[1..];
    assert s[a + 1..a + 1 + |r|] == t[a..a + |r|];
    assert s[..a + 1] == [s[0]] + t[..a];
    assert s[a + 1 + |r|..] == t[a + |r|..];
  }

  lemma TrailingSpaceCut(s: string, a: int, r: string)
    requires s != [] && IsSpace(s[|s| - 1]) && StrippedAt(s[..|s| - 1], a, r)
    ensures StrippedAt(s, a, r)
  {
    var t := s[..|s| - 1];
    assert s[a..a + |r|] == t[a..a + |r|];
    assert s[..a] == t[..a];
    assert s[a + |r|..] == t[a + |r|..] + [s[|s| - 1]];
  }

  /** `strip()` applied to each line. */
  function StripAll(lines: seq<string>): (r: seq<string>)
    ensures |r| == |lines|
  {
    if lines == [] then [] else StripAll(lines[..|lines| - 1]) + [Strip(lines[|lines| - 1])]
  }

  /** A stripped string is its own strip, so stripping twice changes nothing. */
  lemma StripIdempotent(s: string)
    ensures Strip(Strip(s)) == Strip(s)
  {
  }

  /** Whitespace around the text of a bearer header is dropped, inner text kept. */
  lemma StripExample()
    ensures Strip(" abc ") == "abc"
  {
    assert " abc "[1..] == "abc ";
    assert "abc "[..3] == "abc";
  }

  /** The unit separator 0x1F is whitespace to `str.strip()`, so a line holding only it strips to nothing. */
  lemma UnitSeparatorStripsAway()
    ensures Strip([0x1F as char]) == []
  {
  }

  predicate StartsWith(s: string, prefix: string) {
    |prefix| <= |s| && s[..|prefix|] == prefix
  }

  predicate EndsWith(s: string, suffix: string) {
    |suffix| <= |s| && s[|s| - |suffix|..] == suffix
  }

  /** `pat` occurs in `s` at position `i`. */
  predicate OccursAt(s: string, pat: string, i: int) {
    0 <= i && i + |pat| <= |s| && s[i..i + |pat|] == pat
  }

  /** `str.find(pat, from)`: the first position at or after `from` where `pat` occurs. */
  function IndexOfFrom(s: string, pat: string, from: nat): (r: Option<nat>)
    ensures r.Some? ==> from <= r.value && OccursAt(s, pat, r.value)
    ensures r.Some? ==> forall j :: from <= j < r.value ==> !OccursAt(s, pat, j)
    ensures r.None? ==> forall j :: from <= j ==> !OccursAt(s, pat, j)
    decreases |s| - from
  {
    if from + |pat| > |s| then None
    else if s[from..from + |pat|] == pat then Some(from)
    else IndexOfFrom(s, pat, from + 1)
  }

  /** `s.replace(pat, rep, 1)`: replaces the first occurrence of `pat`, if any. */
  function ReplaceFirst(s: string, pat: string, rep: string): string {
    match IndexOfFrom(s, pat, 0)
    case None => s
    case Some(i) => s[..i] + rep + s[i + |pat|..]
  }

  /** When `s` starts with `pat`, removing the first occurrence drops exactly that prefix. */
  lemma RemovePrefixOccurrence(s: string, pat: string)
    requires StartsWith(s, pat)
    ensures ReplaceFirst(s, pat, "") == s[|pat|..]
  {
    assert OccursAt(s, pat, 0);
  }

  /** `s.replace(from, to)` for one-character strings: replaces every occurrence. */
  function ReplaceChar(s: string, from: char, to: char): (r: string)
    ensures |r| == |s|
    ensures forall i :: 0 <= i < |s| ==> r[i] == (if s[i] == from then to else s[i])
  {
    if s == [] then [] else [if s[0] == from then to else s[0]] + ReplaceChar(s[1..], from, to)
  }
}
