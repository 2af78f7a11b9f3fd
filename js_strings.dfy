/** The handful of JavaScript string operations the navigation service relies on:
    String.prototype.trim, toLowerCase / toUpperCase (on ASCII letters) and slice(start). */
module JsStrings {

  /** An argument a caller passes to the service: a string, or any other
      JavaScript value (undefined, null, a number, an object, an array). */
  datatype Arg = Str(s: string) | Other

  /** The characters that String.prototype.trim removes: the WhiteSpace and
      LineTerminator productions of ECMAScript (tab, vertical tab, form feed, space,
      no-break space, zero-width no-break space, every Unicode "Zs" space separator,
      line feed, carriage return, line and paragraph separator). */
  predicate IsWhitespace(c: char) {
    c == '\t' || c == '\U{B}' || c == '\U{C}' || c == ' ' || c == '\U{A0}' || c == '\U{FEFF}'
    || c == '\U{1680}' || ('\U{2000}' <= c <= '\U{200A}') || c == '\U{202F}' || c == '\U{205F}'
    || c == '\U{3000}'
    || c == '\n' || c == '\r' || c == '\U{2028}' || c == '\U{2029}'
  }

  /** Every character of `s` from index `lo` up to (not including) `hi` is whitespace. */
  predicate BlankBetween(s: string, lo: int, hi: int) {
    0 <= lo <= hi <= |s| && forall k :: lo <= k < hi ==> IsWhitespace(s[k])
  }

  predicate AllWhitespace(s: string) {
    BlankBetween(s, 0, |s|)
  }

  /** The index of the first character at or after `i` that is not whitespace, or
      the length of `s` if there is none. */
  function SkipForward(s: string, i: nat): (n: nat)
    requires i <= |s|
    ensures i <= n <= |s| && BlankBetween(s, i, n)
    ensures n < |s| ==> !IsWhitespace(s[n])
    decreases |s| - i
  {
    if i == |s| || !IsWhitespace(s[i]) then i else SkipForward(s, i + 1)
  }

  /** The index just past the last character before `j` (and at or after `lo`) that
      is not whitespace, or `lo` if there is none. */
  function SkipBackward(s: string, lo: nat, j: nat): (n: nat)
    requires lo <= j <= |s|
    ensures lo <= n <= j && BlankBetween(s, n, j)
    ensures lo < n ==> !IsWhitespace(s[n - 1])
  {
    if j == lo || !IsWhitespace(s[j - 1]) then j else SkipBackward(s, lo, j - 1)
  }

  /** A split of `s` into whitespace up to index `front`, then `core`, which neither
      starts nor ends with whitespace, then whitespace: the shape that trimming
      recovers. */
  predicate Padding(s: string, front: nat, core: string) {
    && front + |core| <= |s|
    && (forall k :: 0 <= k < |core| ==> s[front + k] == core[k])
    && BlankBetween(s, 0, front) && BlankBetween(s, front + |core|, |s|)
    && (core != [] ==> !IsWhitespace(core[0]) && !IsWhitespace(core[|core| - 1]))
  }

  /** String.prototype.trim: `s` without its leading and trailing whitespace. */
  function Trim(s: string): (r: string)
    ensures Padding(s, SkipForward(s, 0), r)
  {
    var i := SkipForward(s, 0);
    var j := SkipBackward(s, i, |s|);
    s[i..j]
  }

  /** Trim returns the core of any such split: the split is unique. */
  lemma TrimRecoversCore(s: string, front: nat, core: string)
    requires Padding(s, front, core)
    ensures Trim(s) == core
  {
    var i := SkipForward(s, 0);
    var j := SkipBackward(s, i, |s|);
    if core == [] {
      assert i == |s|;
    } else {
      assert s[front] == core[0];
      assert i == front;
      assert s[front + |core| - 1] == core[|core| - 1];
      assert j == front + |core|;
    }
    assert s[i..j] == core;
  }

  /** Trimming ignores any whitespace added around the input. */
  lemma TrimIgnoresPadding(front: string, s: string, back: string)
    requires AllWhitespace(front) && AllWhitespace(back)
    ensures Trim(front + s + back) == Trim(s)
  {
    var core := Trim(s);
    var f := SkipForward(s, 0);
    var whole := front + s + back;
    var g := |front| + f;
    assert forall k :: 0 <= k < |front| ==> whole[k] == front[k];
    assert forall k :: 0 <= k < |s| ==> whole[|front| + k] == s[k];
    assert forall k :: 0 <= k < |back| ==> whole[|front| + |s| + k] == back[k];
    assert BlankBetween(whole, 0, g);
    assert BlankBetween(whole, g + |core|, |whole|);
    TrimRecoversCore(whole, g, core);
  }

  /** A non-empty trimmed string starts and ends with a character other than
      whitespace. */
  lemma TrimmedEnds(t: string)
    requires t != [] && Trim(t) == t
    ensures !IsWhitespace(t[0]) && !IsWhitespace(t[|t| - 1])
  {
    assert Padding(t, SkipForward(t, 0), Trim(t));
  }

  /** Trimming twice is trimming once. */
  lemma TrimIdempotent(s: string)
    ensures Trim(Trim(s)) == Trim(s)
  {
    TrimRecoversCore(Trim(s), 0, Trim(s));
  }

  /** A string trims to nothing exactly when it is all whitespace. */
  lemma TrimEmptyIffBlank(s: string)
    ensures Trim(s) == [] <==> AllWhitespace(s)
  {
    if AllWhitespace(s) {
      TrimRecoversCore(s, |s|, []);
    }
  }

  /** Case mapping of one character, on the ASCII letters A-Z / a-z. */
  function LowerChar(c: char): char {
    if 'A' <= c <= 'Z' then (c as int + 32) as char else c
  }

  function UpperChar(c: char): char {
    if 'a' <= c <= 'z' then (c as int - 32) as char else c
  }

  /** Two characters have the same lower-case form exactly when they have the same
      upper-case form. */
  lemma CaseFormsAgree(a: char, b: char)
    ensures LowerChar(a) == LowerChar(b) <==> UpperChar(a) == UpperChar(b)
  {
  }

  /** String.prototype.toLowerCase on ASCII letters. */
  function ToLower(s: string): string {
    seq(|s|, i requires 0 <= i < |s| => LowerChar(s[i]))
  }

  /** String.prototype.toUpperCase on ASCII letters. */
  function ToUpper(s: string): string {
    seq(|s|, i requires 0 <= i < |s| => UpperChar(s[i]))
  }

  /** `s` and `t` spell the same word, ignoring the letter case of each character. */
  predicate SameIgnoringCase(s: string, t: string) {
    |s| == |t| && forall i :: 0 <= i < |s| ==> LowerChar(s[i]) == LowerChar(t[i])
  }

  /** Equal lower-case forms mean the same word ignoring case, and so do equal
      upper-case forms. */
  lemma CaseInsensitiveEquality(s: string, t: string)
    ensures ToLower(s) == ToLower(t) <==> SameIgnoringCase(s, t)
    ensures ToUpper(s) == ToUpper(t) <==> SameIgnoringCase(s, t)
  {
    if SameIgnoringCase(s, t) {
      forall i | 0 <= i < |s| ensures ToUpper(s)[i] == ToUpper(t)[i] {
        CaseFormsAgree(s[i], t[i]);
      }
    }
    if ToUpper(s) == ToUpper(t) {
      forall i | 0 <= i < |s| ensures LowerChar(s[i]) == LowerChar(t[i]) {
        assert ToUpper(s)[i] == ToUpper(t)[i];
        CaseFormsAgree(s[i], t[i]);
      }
    }
    if ToLower(s) == ToLower(t) {
      forall i | 0 <= i < |s| ensures LowerChar(s[i]) == LowerChar(t[i]) {
        assert ToLower(s)[i] == ToLower(t)[i];
      }
    }
  }

  /** Lower-casing keeps whitespace whitespace, and everything else not. */
  lemma LowerCharWhitespace(c: char)
    ensures IsWhitespace(LowerChar(c)) == IsWhitespace(c)
  {
  }

  /** Trimming and lower-casing commute. */
  lemma TrimLowerCommute(s: string)
    ensures Trim(ToLower(s)) == ToLower(Trim(s))
  {
    var f := SkipForward(s, 0);
    LowerPadding(s, f, Trim(s));
    TrimRecoversCore(ToLower(s), f, ToLower(Trim(s)));
  }

  /** Lower-casing a split around a core gives a split around the lower-cased core. */
  lemma LowerPadding(s: string, front: nat, core: string)
    requires Padding(s, front, core)
    ensures Padding(ToLower(s), front, ToLower(core))
  {
    var low := ToLower(s);
    forall k | 0 <= k < |s| ensures IsWhitespace(low[k]) == IsWhitespace(s[k]) {
      LowerCharWhitespace(s[k]);
    }
    forall k | 0 <= k < |core| ensures low[front + k] == ToLower(core)[k] {
      assert s[front + k] == core[k];
    }
    if core != [] {
      LowerCharWhitespace(core[0]);
      LowerCharWhitespace(core[|core| - 1]);
    }
  }

  /** String.prototype.slice(start) for a non-negative start: everything from
      `start` on, and the empty string when `start` is past the end. */
  function SliceFrom(s: string, start: nat): (r: string)
    ensures start <= |s| ==> |r| == |s| - start && forall i :: 0 <= i < |r| ==> r[i] == s[start + i]
    ensures start >= |s| ==> r == []
  {
    if start <= |s| then s[start..] else []
  }
}
