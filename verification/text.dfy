/** The two Python string operations the ledger applies to a signal cell:
    `str.strip()` with no argument and `str.lower()`. */
module PyText {

  /** The characters for which Python's `str.isspace()` holds, i.e. the set
      `str.strip()` removes when called without an argument. */
  predicate IsSpace(c: char) {
    || ('\t' <= c <= '\r')               // \t \n \v \f \r
    || ('\U{1C}' <= c <= '\U{1F}')       // file, group, record and unit separators
    || c == ' '
    || c == '\U{85}' || c == '\U{A0}' || c == '\U{1680}'
    || ('\U{2000}' <= c <= '\U{200A}')
    || c == '\U{2028}' || c == '\U{2029}' || c == '\U{202F}' || c == '\U{205F}'
    || c == '\U{3000}'
  }

  /** Number of whitespace characters `s` starts with. */
  function LeadingSpaces(s: string): (n: nat)
    ensures n <= |s|
    ensures forall k :: 0 <= k < n ==> IsSpace(s[k])
    ensures n < |s| ==> !IsSpace(s[n])
  {
    if |s| > 0 && IsSpace(s[0]) then 1 + LeadingSpaces(s[1..]) else 0
  }

  /** Index where the whitespace `s` ends with begins. */
  function TrailingStart(s: string): (n: nat)
    ensures n <= |s|
    ensures forall k :: n <= k < |s| ==> IsSpace(s[k])
    ensures 0 < n ==> !IsSpace(s[n - 1])
  {
    if |s| > 0 && IsSpace(s[|s| - 1]) then TrailingStart(s[..|s| - 1]) else |s|
  }

  /** Python's `s.strip()`: the infix of `s` left after removing whitespace
      at both ends. It is empty exactly when `s` is all whitespace; otherwise
      it starts and ends with a non-space character and everything cut off is
      whitespace. */
  function Strip(s: string): (r: string)
    ensures |r| <= |s|
    ensures r == [] <==> forall k :: 0 <= k < |s| ==> IsSpace(s[k])
    ensures r != [] ==> !IsSpace(r[0]) && !IsSpace(r[|r| - 1])
    ensures LeadingSpaces(s) + |r| <= |s| && r == s[LeadingSpaces(s)..LeadingSpaces(s) + |r|]
    ensures forall k :: LeadingSpaces(s) + |r| <= k < |s| ==> IsSpace(s[k])
  {
    var a := LeadingSpaces(s);
    var b := TrailingStart(s);
    if a == |s| then [] else s[a..b]
  }

  /** Python's `c.lower()` restricted to ASCII letters; every other character
      is left as it is. */
  function LowerChar(c: char): char {
    if 'A' <= c <= 'Z' then (c as int - 'A' as int + 'a' as int) as char else c
  }

  function Lower(s: string): (r: string)
    ensures |r| == |s|
    ensures forall i :: 0 <= i < |s| ==> r[i] == LowerChar(s[i])
  {
    seq(|s|, i requires 0 <= i < |s| => LowerChar(s[i]))
  }

  /** `str(x).strip().lower()`, the normal form a signal cell is compared in. */
  function Normalize(s: string): string {
    Lower(Strip(s))
  }

  /** Whitespace around a word disappears under `Strip` when the word starts
      and ends with a non-space character. */
  lemma {:induction false} StripPadded(p: string, w: string, q: string)
    requires forall k :: 0 <= k < |p| ==> IsSpace(p[k])
    requires forall k :: 0 <= k < |q| ==> IsSpace(q[k])
    requires w != [] && !IsSpace(w[0]) && !IsSpace(w[|w| - 1])
    ensures Strip(p + w + q) == w
  {
    var s := p + w + q;
    var a := LeadingSpaces(s);
    var r := Strip(s);
    assert s[|p|] == w[0];
    assert a == |p|;
    var e := a + |r|;
    assert s[|p| + |w| - 1] == w[|w| - 1];
    assert e == |p| + |w|;
    assert s[|p|..|p| + |w|] == w;
  }

  /** `word` occurs in `s` at `i`, up to ASCII case, with only whitespace
      before and after it. */
  predicate PaddedAt(s: string, i: int, word: string) {
    && 0 <= i <= |s| - |word|
    && Lower(s[i..i + |word|]) == word
    && (forall k :: 0 <= k < i ==> IsSpace(s[k]))
    && (forall k :: i + |word| <= k < |s| ==> IsSpace(s[k]))
  }

  predicate LowercaseWord(word: string) {
    word != [] && forall k :: 0 <= k < |word| ==> 'a' <= word[k] <= 'z'
  }

  /** `str(s).strip().lower() == word` holds exactly when `s` is `word` in any
      mix of ASCII case surrounded by any amount of whitespace. */
  lemma NormalizeMatches(s: string, word: string)
    requires LowercaseWord(word)
    ensures Normalize(s) == word <==> exists i :: PaddedAt(s, i, word)
  {
    if Normalize(s) == word {
      NormalizedIsPadded(s, word);
    }
    if i :| PaddedAt(s, i, word) {
      PaddedIsNormalized(s, i, word);
    }
  }

  lemma NormalizedIsPadded(s: string, word: string)
    requires Normalize(s) == word
    ensures PaddedAt(s, LeadingSpaces(s), word)
  {
  }

  lemma PaddedIsNormalized(s: string, i: int, word: string)
    requires LowercaseWord(word) && PaddedAt(s, i, word)
    ensures Normalize(s) == word
  {
    var w := s[i..i + |word|];
    var p, q := s[..i], s[i + |word|..];
    assert LowerChar(w[0]) == Lower(w)[0] == word[0];
    assert LowerChar(w[|w| - 1]) == Lower(w)[|w| - 1] == word[|word| - 1];
    assert forall k :: 0 <= k < |p| ==> IsSpace(p[k]);
    assert forall k :: 0 <= k < |q| ==> q[k] == s[i + |word| + k];
    assert s == p + w + q;
    StripPadded(p, w, q);
  }
}
