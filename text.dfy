/**
 * The two string operations the boolean parsers use: Rust's `str::trim` and
 * `str::to_lowercase`.
 *
 * `Trim` scans from the front for the first character that is not
 * whitespace, then from the back for the last one, and keeps what lies
 * between; whitespace is the Unicode White_Space property, as
 * `char::is_whitespace` has it. `ToLower` maps the ASCII letters A-Z to a-z
 * and leaves every other character unchanged (full Unicode case mapping is
 * not modelled).
 *
 * `SpellsWord` is an independent description of "a word written in any letter
 * case with only whitespace around it", against which the parsers are proved.
 */
module Text {

  /** `char::is_whitespace`: the characters with the Unicode White_Space property. */
  predicate IsWhitespace(c: char) {
    || ('\t' <= c <= '\r')
    || c == ' '
    || c == '\U{0085}'
    || c == '\U{00A0}'
    || c == '\U{1680}'
    || ('\U{2000}' <= c <= '\U{200A}')
    || c == '\U{2028}'
    || c == '\U{2029}'
    || c == '\U{202F}'
    || c == '\U{205F}'
    || c == '\U{3000}'
  }

  predicate AllWhitespace(s: string) {
    forall k | 0 <= k < |s| :: IsWhitespace(s[k])
  }

  /** Lower-case form of one character: ASCII upper-case letters only. */
  function LowerChar(c: char): (d: char)
    ensures IsWhitespace(d) <==> IsWhitespace(c)
    ensures 'A' <= c <= 'Z' ==> 'a' <= d <= 'z' && d as int - c as int == 32
    ensures !('A' <= c <= 'Z') ==> d == c
  {
    if 'A' <= c <= 'Z' then (c as int + 32) as char else c
  }

  /** `str::to_lowercase`, character by character. */
  function ToLower(s: string): (r: string)
    ensures EqualsIgnoringCase(r, s)
    ensures forall k | 0 <= k < |r| :: LowerChar(r[k]) == r[k]
  {
    seq(|s|, k requires 0 <= k < |s| => LowerChar(s[k]))
  }

  /** The first position at or after `i` that does not hold whitespace. */
  function SkipWhitespace(s: string, i: nat): (r: nat)
    requires i <= |s|
    ensures i <= r <= |s|
    ensures forall k | i <= k < r :: IsWhitespace(s[k])
    ensures r == |s| || !IsWhitespace(s[r])
    decreases |s| - i
  {
    if i < |s| && IsWhitespace(s[i]) then SkipWhitespace(s, i + 1) else i
  }

  /** Scanning back from `j`, no further than `lo`: the end of the last non-whitespace character. */
  function SkipWhitespaceBack(s: string, lo: nat, j: nat): (r: nat)
    requires lo <= j <= |s|
    ensures lo <= r <= j
    ensures forall k | r <= k < j :: IsWhitespace(s[k])
    ensures r == lo || !IsWhitespace(s[r - 1])
    decreases j
  {
    if lo < j && IsWhitespace(s[j - 1]) then SkipWhitespaceBack(s, lo, j - 1) else j
  }

  /** `str::trim`: drop the leading and the trailing whitespace. */
  function Trim(s: string): (t: string)
    ensures |t| <= |s|
    ensures t != [] ==> !IsWhitespace(t[0]) && !IsWhitespace(t[|t| - 1])
  {
    var start := SkipWhitespace(s, 0);
    s[start..SkipWhitespaceBack(s, start, |s|)]
  }

  /** `s` is `word` in any letter case, with only whitespace before and after it. */
  ghost predicate SpellsWord(s: string, word: string)
    ensures SpellsWord(s, word) ==> |word| <= |s|
  {
    exists i, j | 0 <= i <= j <= |s| ::
      AllWhitespace(s[..i]) && AllWhitespace(s[j..]) && EqualsIgnoringCase(s[i..j], word)
  }

  predicate EqualsIgnoringCase(a: string, b: string) {
    |a| == |b| && forall k | 0 <= k < |a| :: LowerChar(a[k]) == LowerChar(b[k])
  }

  /** A word the parsers accept: lower case, non-empty, no whitespace at its ends. */
  predicate IsPlainWord(word: string) {
    && word != []
    && !IsWhitespace(word[0])
    && !IsWhitespace(word[|word| - 1])
    && forall k | 0 <= k < |word| :: LowerChar(word[k]) == word[k]
  }

  // ---------------------------------------------------------------------
  // Trim as a decomposition of its input

  /** The forward scan stops at the first non-whitespace character. */
  lemma {:induction false} SkipWhitespaceStops(s: string, i: nat, a: nat)
    requires i <= a <= |s|
    requires forall k | i <= k < a :: IsWhitespace(s[k])
    requires a == |s| || !IsWhitespace(s[a])
    ensures SkipWhitespace(s, i) == a
    decreases a - i
  {
    if i < a {
      SkipWhitespaceStops(s, i + 1, a);
    }
  }

  /** The backward scan stops after the last non-whitespace character. */
  lemma {:induction false} SkipWhitespaceBackStops(s: string, lo: nat, j: nat, b: nat)
    requires lo <= b <= j <= |s|
    requires forall k | b <= k < j :: IsWhitespace(s[k])
    requires b == lo || !IsWhitespace(s[b - 1])
    ensures SkipWhitespaceBack(s, lo, j) == b
    decreases j - b
  {
    if b < j {
      SkipWhitespaceBackStops(s, lo, j - 1, b);
    }
  }

  /** Trimming a word that has only whitespace around it gives the word back. */
  lemma TrimOfPadded(s: string, i: nat, j: nat)
    requires i < j <= |s| && AllWhitespace(s[..i]) && AllWhitespace(s[j..])
    requires !IsWhitespace(s[i]) && !IsWhitespace(s[j - 1])
    ensures Trim(s) == s[i..j]
  {
    forall k | 0 <= k < i ensures IsWhitespace(s[k]) {
      assert s[k] == s[..i][k];
    }
    SkipWhitespaceStops(s, 0, i);
    forall k | j <= k < |s| ensures IsWhitespace(s[k]) {
      assert s[k] == s[j..][k - j];
    }
    SkipWhitespaceBackStops(s, i, |s|, j);
  }

  /** Where `Trim(s)` sits inside `s`: whitespace on both sides. */
  lemma TrimBounds(s: string) returns (i: nat, j: nat)
    ensures i <= j <= |s| && Trim(s) == s[i..j]
    ensures AllWhitespace(s[..i]) && AllWhitespace(s[j..])
  {
    i := SkipWhitespace(s, 0);
    j := SkipWhitespaceBack(s, i, |s|);
    forall k | 0 <= k < i ensures IsWhitespace(s[..i][k]) {
      assert s[..i][k] == s[k];
    }
    forall k | 0 <= k < |s| - j ensures IsWhitespace(s[j..][k]) {
      assert s[j..][k] == s[j + k];
    }
  }

  /** Trimming twice equals trimming once. */
  lemma TrimIdempotent(s: string)
    ensures Trim(Trim(s)) == Trim(s)
  {
    var i, j := TrimBounds(s);
    var t := Trim(s);
    if t != [] {
      assert t[0] == s[i] && t[|t| - 1] == s[j - 1];
      assert t[..0] == [] && t[|t|..] == [];
      TrimOfPadded(t, 0, |t|);
      assert t[0..|t|] == t;
    }
  }

  /** A word spells itself, bare or with two spaces on each side. */
  lemma PaddedSpells(w: string, word: string)
    requires EqualsIgnoringCase(w, word)
    ensures SpellsWord(w, word)
    ensures SpellsWord("  " + w + "  ", word)
  {
    assert w[..0] == [] && w[|w|..] == [] && w[0..|w|] == w;
    var s := "  " + w + "  ";
    assert s[..2] == "  " && s[2 + |w|..] == "  " && s[2..2 + |w|] == w;
  }

  /**
   * A string with no whitespace at its ends is its own trim. The second
   * conjunct, the length of its normalised form, is what the rejection tests
   * of the parsers use to tell that form apart from "true" and "false".
   */
  lemma TrimOfUnpadded(s: string)
    requires s != [] && !IsWhitespace(s[0]) && !IsWhitespace(s[|s| - 1])
    ensures Trim(s) == s && |ToLower(Trim(s))| == |s|
  {
    assert s[..0] == [] && s[|s|..] == [] && s[0..|s|] == s;
    TrimOfPadded(s, 0, |s|);
  }

  // ---------------------------------------------------------------------
  // Normalising as the parsers do

  /** For a lower-case `b`, `a` equals `b` ignoring case exactly when `a` lowercases to `b`. */
  lemma EqualsIgnoringCaseIff(a: string, b: string)
    requires forall k | 0 <= k < |b| :: LowerChar(b[k]) == b[k]
    ensures EqualsIgnoringCase(a, b) <==> ToLower(a) == b
  {
    if EqualsIgnoringCase(a, b) {
      var r := ToLower(a);
      forall k | 0 <= k < |b| ensures r[k] == b[k] {
        assert r[k] == LowerChar(a[k]);
      }
    }
  }

  /** If normalising gives the word, the input spells it. */
  lemma NormalizedSpells(s: string, word: string)
    requires IsPlainWord(word) && ToLower(Trim(s)) == word
    ensures SpellsWord(s, word)
  {
    var i, j := TrimBounds(s);
    EqualsIgnoringCaseIff(Trim(s), word);
    assert EqualsIgnoringCase(s[i..j], word);
  }

  /** If the input spells the word, normalising gives the word. */
  lemma SpelledNormalizes(s: string, word: string, i: nat, j: nat)
    requires IsPlainWord(word)
    requires i <= j <= |s| && AllWhitespace(s[..i]) && AllWhitespace(s[j..])
    requires EqualsIgnoringCase(s[i..j], word)
    ensures ToLower(Trim(s)) == word
  {
    var w := s[i..j];
    assert LowerChar(w[0]) == word[0];
    assert LowerChar(w[|w| - 1]) == word[|word| - 1];
    assert !IsWhitespace(s[i]) && !IsWhitespace(s[j - 1]);
    TrimOfPadded(s, i, j);
    EqualsIgnoringCaseIff(w, word);
  }

  /**
   * Trimming and then lowercasing yields a plain word exactly when the input
   * spells that word.
   */
  lemma NormalizedIsWordIff(s: string, word: string)
    requires IsPlainWord(word)
    ensures ToLower(Trim(s)) == word <==> SpellsWord(s, word)
  {
    if ToLower(Trim(s)) == word {
      NormalizedSpells(s, word);
    }
    if SpellsWord(s, word) {
      var i, j :| 0 <= i <= j <= |s| && AllWhitespace(s[..i]) && AllWhitespace(s[j..])
                  && EqualsIgnoringCase(s[i..j], word);
      SpelledNormalizes(s, word, i, j);
    }
  }

  /** Lowercasing changes no whitespace, so the forward scan stops at the same place. */
  lemma {:induction false} LowerSkipWhitespace(s: string, i: nat)
    requires i <= |s|
    ensures SkipWhitespace(ToLower(s), i) == SkipWhitespace(s, i)
    decreases |s| - i
  {
    if i < |s| {
      assert ToLower(s)[i] == LowerChar(s[i]);
      LowerSkipWhitespace(s, i + 1);
    }
  }

  /** Lowercasing changes no whitespace, so the backward scan stops at the same place. */
  lemma {:induction false} LowerSkipWhitespaceBack(s: string, lo: nat, j: nat)
    requires lo <= j <= |s|
    ensures SkipWhitespaceBack(ToLower(s), lo, j) == SkipWhitespaceBack(s, lo, j)
    decreases j
  {
    if lo < j {
      assert ToLower(s)[j - 1] == LowerChar(s[j - 1]);
      LowerSkipWhitespaceBack(s, lo, j - 1);
    }
  }

  /** Lowercasing a slice is slicing the lowercased string. */
  lemma LowerSlice(s: string, i: nat, j: nat)
    requires i <= j <= |s|
    ensures ToLower(s[i..j]) == ToLower(s)[i..j]
  {
    var a, b := ToLower(s[i..j]), ToLower(s)[i..j];
    forall k | 0 <= k < |a| ensures a[k] == b[k] {
      assert a[k] == LowerChar(s[i + k]);
    }
  }

  /** `s.to_lowercase().trim()` and `s.trim().to_lowercase()` agree. */
  lemma LowerTrimCommute(s: string)
    ensures Trim(ToLower(s)) == ToLower(Trim(s))
  {
    var start := SkipWhitespace(s, 0);
    LowerSkipWhitespace(s, 0);
    LowerSkipWhitespaceBack(s, start, |s|);
    LowerSlice(s, start, SkipWhitespaceBack(s, start, |s|));
  }

  /** The same as `NormalizedIsWordIff`, lowercasing before trimming. */
  lemma LowerFirstIsWordIff(s: string, word: string)
    requires IsPlainWord(word)
    ensures Trim(ToLower(s)) == word <==> SpellsWord(s, word)
  {
    LowerTrimCommute(s);
    NormalizedIsWordIff(s, word);
  }

  /** Normalising a normalised string changes nothing. */
  lemma NormalizeIdempotent(s: string)
    ensures ToLower(Trim(ToLower(Trim(s)))) == ToLower(Trim(s))
  {
    LowerTrimCommute(Trim(s));
    TrimIdempotent(s);
  }
}
