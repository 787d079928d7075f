/**
 * String operations that both halves of the system rely on: the browser's
 * `replace(/_/g, ' ')`, `split(' ')`, `join(' ')`, ASCII case mapping and
 * `startsWith`, and Python's `str.strip`, `str.strip(chars)` and
 * `str.replace(old, new, 1)`.
 */
module Text {

  import opened Wrappers

  predicate IsDigit(c: char) { '0' <= c <= '9' }

  predicate IsAsciiLower(c: char) { 'a' <= c <= 'z' }

  predicate IsAsciiUpper(c: char) { 'A' <= c <= 'Z' }

  /** `toUpperCase` on one character: a lower-case ASCII letter becomes the same letter in upper case. */
  function ToUpper(c: char): (r: char)
    ensures !IsAsciiLower(c) ==> r == c
    ensures IsAsciiLower(c) ==> IsAsciiUpper(r) && r as int - 'A' as int == c as int - 'a' as int
    ensures !IsAsciiLower(r)
  {
    if IsAsciiLower(c) then (c as int - 32) as char else c
  }

  /** `toLowerCase` on one character: an upper-case ASCII letter becomes the same letter in lower case. */
  function ToLower(c: char): (r: char)
    ensures !IsAsciiUpper(c) ==> r == c
    ensures IsAsciiUpper(c) ==> IsAsciiLower(r) && r as int - 'a' as int == c as int - 'A' as int
    ensures !IsAsciiUpper(r)
  {
    if IsAsciiUpper(c) then (c as int + 32) as char else c
  }

  /**
   * Upper-casing and lower-casing are inverse on the letters they map, so a
   * letter keeps its identity through either: only its case changes.
   */
  lemma CaseInverse(c: char)
    ensures IsAsciiLower(c) ==> ToLower(ToUpper(c)) == c
    ensures IsAsciiUpper(c) ==> ToUpper(ToLower(c)) == c
    ensures ToLower(ToUpper(c)) == ToLower(c)
    ensures ToLower(ToLower(c)) == ToLower(c)
  {
  }

  function LowerAll(s: string): (r: string)
    ensures |r| == |s|
    ensures forall i :: 0 <= i < |s| ==> r[i] == ToLower(s[i])
  {
    if s == [] then [] else [ToLower(s[0])] + LowerAll(s[1..])
  }

  /** `s.replace(/from/g, to)` for a single character. */
  function ReplaceChar(s: string, from: char, to: char): (r: string)
    ensures |r| == |s|
    ensures forall i :: 0 <= i < |s| ==> r[i] == (if s[i] == from then to else s[i])
  {
    if s == [] then [] else [if s[0] == from then to else s[0]] + ReplaceChar(s[1..], from, to)
  }

  lemma ReplaceCharRemoves(s: string, from: char, to: char)
    requires from != to
    ensures from !in ReplaceChar(s, from, to)
  {
  }

  lemma ReplaceCharAbsent(s: string, from: char, to: char)
    requires from !in s
    ensures ReplaceChar(s, from, to) == s
  {
  }

  /** `s.split(sep)` with a one-character separator: always at least one piece, empty pieces kept. */
  function Split(s: string, sep: char): (r: seq<string>)
    ensures |r| >= 1
    ensures forall w :: w in r ==> sep !in w
  {
    if s == [] then [""]
    else if s[0] == sep then [""] + Split(s[1..], sep)
    else
      var rest := Split(s[1..], sep);
      [[s[0]] + rest[0]] + rest[1..]
  }

  /** `words.join(sep)` with a one-character separator. */
  function Join(words: seq<string>, sep: char): string
  {
    if words == [] then ""
    else if |words| == 1 then words[0]
    else words[0] + [sep] + Join(words[1..], sep)
  }

  lemma {:induction false} SplitWord(w: string, sep: char)
    requires sep !in w
    ensures Split(w, sep) == [w]
  {
    if w != [] {
      SplitWord(w[1..], sep);
      assert [w[0]] + w[1..] == w;
    }
  }

  lemma {:induction false} SplitWordThen(w: string, sep: char, t: string)
    requires sep !in w
    ensures Split(w + [sep] + t, sep) == [w] + Split(t, sep)
  {
    if w == [] {
      assert w + [sep] + t == [sep] + t;
      assert ([sep] + t)[1..] == t;
    } else {
      var s := w + [sep] + t;
      assert s[0] == w[0] && s[1..] == w[1..] + [sep] + t;
      SplitWordThen(w[1..], sep, t);
      assert [w[0]] + w[1..] == w;
    }
  }

  /** Splitting a joined list of separator-free words gives the words back. */
  lemma {:induction false} SplitJoin(words: seq<string>, sep: char)
    requires |words| >= 1
    requires forall w :: w in words ==> sep !in w
    ensures Split(Join(words, sep), sep) == words
  {
    if |words| == 1 {
      SplitWord(words[0], sep);
    } else {
      SplitJoin(words[1..], sep);
      SplitWordThen(words[0], sep, Join(words[1..], sep));
      assert [words[0]] + words[1..] == words;
    }
  }

  /** Joining the pieces of a split gives the string back. */
  lemma {:induction false} JoinSplit(s: string, sep: char)
    ensures Join(Split(s, sep), sep) == s
  {
    if s != [] {
      JoinSplit(s[1..], sep);
      var rest := Split(s[1..], sep);
      if s[0] == sep {
        assert Split(s, sep) == [""] + rest;
        assert ([""] + rest)[1..] == rest;
      } else {
        assert Split(s, sep) == [[s[0]] + rest[0]] + rest[1..];
        JoinFirstLonger(s[0], rest, sep);
        assert [s[0]] + s[1..] == s;
      }
    }
  }

  /** Putting a character in front of the first word puts it in front of the joined text. */
  lemma JoinFirstLonger(c: char, words: seq<string>, sep: char)
    requires |words| >= 1
    ensures Join([[c] + words[0]] + words[1..], sep) == [c] + Join(words, sep)
  {
    var parts := [[c] + words[0]] + words[1..];
    if |words| > 1 {
      assert parts[1..] == words[1..];
    }
  }

  /** A character that is in no word and is not the separator is not in the joined text. */
  lemma {:induction false} JoinAvoids(words: seq<string>, sep: char, c: char)
    requires c != sep
    requires forall w :: w in words ==> c !in w
    ensures c !in Join(words, sep)
  {
    if |words| > 1 {
      JoinAvoids(words[1..], sep, c);
    }
  }

  predicate StartsWith(s: string, prefix: string) {
    |prefix| <= |s| && s[..|prefix|] == prefix
  }

  // ---- Python's str.strip and str.replace ----

  /** The characters for which Python's `str.isspace` holds. */
  const PyWhitespace: set<char> :=
    {'\U{9}', '\U{A}', '\U{B}', '\U{C}', '\U{D}', '\U{1C}', '\U{1D}', '\U{1E}',
     '\U{1F}', '\U{20}', '\U{85}', '\U{A0}', '\U{1680}', '\U{2000}', '\U{2001}', '\U{2002}',
     '\U{2003}', '\U{2004}', '\U{2005}', '\U{2006}', '\U{2007}', '\U{2008}', '\U{2009}', '\U{200A}',
     '\U{2028}', '\U{2029}', '\U{202F}', '\U{205F}', '\U{3000}'}

  /** Number of leading characters of `s` that are in `chars`. */
  function LeadingIn(s: string, chars: set<char>): (n: nat)
    ensures n <= |s|
    ensures forall i :: 0 <= i < n ==> s[i] in chars
    ensures n < |s| ==> s[n] !in chars
  {
    if s == [] || s[0] !in chars then 0 else 1 + LeadingIn(s[1..], chars)
  }

  /** Number of trailing characters of `s` that are in `chars`. */
  function TrailingIn(s: string, chars: set<char>): (n: nat)
    ensures n <= |s|
    ensures forall i :: |s| - n <= i < |s| ==> s[i] in chars
    ensures n < |s| ==> s[|s| - 1 - n] !in chars
  {
    if s == [] || s[|s| - 1] !in chars then 0 else 1 + TrailingIn(s[..|s| - 1], chars)
  }

  /**
   * Python's `s.strip(chars)`: the longest middle slice whose ends are not in
   * `chars`, everything cut off being in `chars`.
   */
  function Strip(s: string, chars: set<char>): (r: string)
    ensures exists lo, hi :: 0 <= lo <= hi <= |s| && r == s[lo..hi]
              && (forall i :: 0 <= i < lo ==> s[i] in chars)
              && (forall i :: hi <= i < |s| ==> s[i] in chars)
    ensures r != [] ==> r[0] !in chars && r[|r| - 1] !in chars
  {
    var lo := LeadingIn(s, chars);
    var hi := |s| - TrailingIn(s[lo..], chars);
    StripCut(s, chars);
    s[lo..hi]
  }

  /** Where `Strip` cuts: after the leading run, before the trailing run of the rest. */
  lemma StripCut(s: string, chars: set<char>)
    ensures var lo := LeadingIn(s, chars);
      var hi := |s| - TrailingIn(s[lo..], chars);
      lo <= hi <= |s|
      && (forall i :: hi <= i < |s| ==> s[i] in chars)
      && (lo < hi ==> s[hi - 1] !in chars)
  {
    var lo := LeadingIn(s, chars);
    var t := s[lo..];
    var hi := |s| - TrailingIn(t, chars);
    forall i | hi <= i < |s| ensures s[i] in chars {
      assert s[i] == t[i - lo];
    }
    if lo < hi {
      assert s[hi - 1] == t[hi - 1 - lo];
    }
  }

  lemma {:induction false} StripStable(s: string, chars: set<char>)
    requires s == [] || (s[0] !in chars && s[|s| - 1] !in chars)
    ensures Strip(s, chars) == s
  {
    assert LeadingIn(s, chars) == 0;
    assert s[0..] == s;
    if s != [] {
      assert TrailingIn(s, chars) == 0;
    }
  }

  /** Stripping twice is stripping once. */
  lemma StripIdempotent(s: string, chars: set<char>)
    ensures Strip(Strip(s, chars), chars) == Strip(s, chars)
  {
    StripStable(Strip(s, chars), chars);
  }

  /** Python's `s.strip()`. */
  function Trim(s: string): string { Strip(s, PyWhitespace) }

  /** Whether `pat` occurs in `s` at index `i`. */
  predicate OccursAt(s: string, pat: string, i: nat) {
    i + |pat| <= |s| && s[i..i + |pat|] == pat
  }

  /** Index of the first occurrence of a non-empty `pat` at or after `from`. */
  function FindFrom(s: string, pat: string, from: nat): (r: Option<nat>)
    requires |pat| > 0
    ensures r.Some? ==> from <= r.value && OccursAt(s, pat, r.value)
    ensures r.Some? ==> forall j :: from <= j < r.value ==> !OccursAt(s, pat, j)
    ensures r.None? ==> forall j :: from <= j ==> !OccursAt(s, pat, j)
    decreases |s| - from
  {
    if from + |pat| > |s| then None
    else if s[from..from + |pat|] == pat then Some(from)
    else FindFrom(s, pat, from + 1)
  }

  /** Python's `s.replace(pat, repl, 1)` for a non-empty `pat`. */
  function ReplaceFirst(s: string, pat: string, repl: string): (r: string)
    requires |pat| > 0
    ensures (forall j: nat :: !OccursAt(s, pat, j)) ==> r == s
    ensures forall i: nat :: OccursAt(s, pat, i) && (forall j: nat :: j < i ==> !OccursAt(s, pat, j))
              ==> r == s[..i] + repl + s[i + |pat|..]
  {
    match FindFrom(s, pat, 0)
    case None => s
    case Some(i) => s[..i] + repl + s[i + |pat|..]
  }

}
