/**
 * The two pieces of Python string behaviour the script relies on:
 * `str.strip()` (removal of leading and trailing whitespace, as `str.isspace`
 * defines it) and `str.lower()` as far as a comparison with an ASCII literal
 * can observe it.  Strings are sequences of Unicode scalar values.
 */
module Text {

  /** The characters for which Python's `str.isspace()` holds. */
  predicate IsSpace(c: char) {
    || ('\t' <= c <= '\r')                  // \t \n \x0b \x0c \r
    || ('\U{1C}' <= c <= '\U{1F}')          // file, group, record, unit separators
    || c == ' ' || c == '\U{85}' || c == '\U{A0}' || c == '\U{1680}'
    || ('\U{2000}' <= c <= '\U{200A}')
    || c == '\U{2028}' || c == '\U{2029}' || c == '\U{202F}' || c == '\U{205F}'
    || c == '\U{3000}'
  }

  /** Neither end of `s` is whitespace: `s.strip() == s` in Python. */
  predicate IsStripped(s: string) {
    s == [] || (!IsSpace(s[0]) && !IsSpace(s[|s| - 1]))
  }

  /** `s.lstrip()`: the longest suffix of `s` that does not start with whitespace. */
  function TrimStart(s: string): (r: string)
    ensures |r| <= |s|
    ensures r == [] || !IsSpace(r[0])
  {
    if s != [] && IsSpace(s[0]) then TrimStart(s[1..]) else s
  }

  /** `s.rstrip()`: the longest prefix of `s` that does not end with whitespace. */
  function TrimEnd(s: string): (r: string)
    ensures |r| <= |s|
    ensures r == [] || !IsSpace(r[|r| - 1])
  {
    if s != [] && IsSpace(s[|s| - 1]) then TrimEnd(s[..|s| - 1]) else s
  }

  /** `TrimStart` removes a prefix made of whitespace only. */
  lemma {:induction false} TrimStartSuffix(s: string)
    ensures TrimStart(s) == s[|s| - |TrimStart(s)|..]
    ensures forall i :: 0 <= i < |s| - |TrimStart(s)| ==> IsSpace(s[i])
  {
    if s != [] && IsSpace(s[0]) {
      TrimStartSuffix(s[1..]);
      forall i | 0 < i < |s| - |TrimStart(s)| ensures IsSpace(s[i]) {
        assert s[i] == s[1..][i - 1];
      }
    }
  }

  /** `TrimEnd` removes a suffix made of whitespace only. */
  lemma {:induction false} TrimEndPrefix(s: string)
    ensures TrimEnd(s) == s[..|TrimEnd(s)|]
    ensures forall i :: |TrimEnd(s)| <= i < |s| ==> IsSpace(s[i])
  {
    if s != [] && IsSpace(s[|s| - 1]) {
      TrimEndPrefix(s[..|s| - 1]);
    }
  }

  /**
   * `s.strip()`: `s` with its leading and trailing whitespace removed.  The
   * result is the slice `s[lo..lo + |r|]`, everything outside it is
   * whitespace, and the result itself neither starts nor ends with whitespace.
   */
  function Strip(s: string): (r: string)
    ensures IsStripped(r)
  {
    var t := TrimStart(s);
    TrimEndPrefix(t);
    TrimEnd(t)
  }

  /** `Strip(s)` is the slice of `s` between its leading and its trailing whitespace. */
  lemma StripSlice(s: string)
    ensures Lead(s) + |Strip(s)| <= |s| && Strip(s) == s[Lead(s)..Lead(s) + |Strip(s)|]
    ensures forall i :: 0 <= i < Lead(s) ==> IsSpace(s[i])
    ensures forall i :: Lead(s) + |Strip(s)| <= i < |s| ==> IsSpace(s[i])
  {
    var t := TrimStart(s);
    TrimStartSuffix(s);
    TrimEndPrefix(t);
    forall i | Lead(s) + |Strip(s)| <= i < |s| ensures IsSpace(s[i]) {
      assert s[i] == t[i - Lead(s)];
    }
  }

  /** The number of leading whitespace characters of `s`. */
  function Lead(s: string): nat {
    |s| - |TrimStart(s)|
  }

  /** Stripping is idempotent: an already stripped string is left alone. */
  lemma StripStripped(s: string)
    requires IsStripped(s)
    ensures Strip(s) == s
  {
    assert TrimStart(s) == s;
  }

  lemma StripIdempotent(s: string)
    ensures Strip(Strip(s)) == Strip(s)
  {
    StripStripped(Strip(s));
  }

  /**
   * One character of `str.lower()`.  ASCII capitals map to their lower-case
   * letters and KELVIN SIGN (U+212A) maps to 'k'; these are the only
   * characters whose lower-case form is an ASCII letter, so comparing
   * `Lower(s)` with an all-ASCII lower-case literal agrees with Python.
   */
  function LowerChar(c: char): char {
    if 'A' <= c <= 'Z' then (c as int + 32) as char
    else if c == '\U{212A}' then 'k'
    else c
  }

  function Lower(s: string): (r: string)
    ensures |r| == |s|
  {
    seq(|s|, i requires 0 <= i < |s| => LowerChar(s[i]))
  }

  /**
   * The strings that lower-case to a lower-case ASCII word: those of the same
   * length whose every character is that letter, its ASCII capital, or (for
   * 'k') the Kelvin sign.
   */
  lemma LowerMatches(s: string, word: string)
    requires forall i :: 0 <= i < |word| ==> 'a' <= word[i] <= 'z'
    ensures Lower(s) == word <==>
      |s| == |word| &&
      forall i :: 0 <= i < |word| ==>
        s[i] == word[i] || s[i] as int + 32 == word[i] as int || (word[i] == 'k' && s[i] == '\U{212A}')
  {
    if Lower(s) == word {
      forall i | 0 <= i < |word|
        ensures s[i] == word[i] || s[i] as int + 32 == word[i] as int || (word[i] == 'k' && s[i] == '\U{212A}')
      {
        assert LowerChar(s[i]) == word[i];
      }
    }
    if |s| == |word| &&
      forall i :: 0 <= i < |word| ==>
        s[i] == word[i] || s[i] as int + 32 == word[i] as int || (word[i] == 'k' && s[i] == '\U{212A}')
    {
      forall i | 0 <= i < |word| ensures Lower(s)[i] == word[i] {
        assert LowerChar(s[i]) == word[i];
      }
    }
  }

  /** Python's `sub in s` for strings. */
  predicate Contains(s: string, sub: string) {
    exists i :: 0 <= i <= |s| - |sub| && OccursAt(s, sub, i)
  }

  /** `sub` occurs in `s` starting at position `i`. */
  predicate OccursAt(s: string, sub: string, i: int) {
    0 <= i <= |s| - |sub| && s[i..i + |sub|] == sub
  }

  /** A string contains a non-empty string only if it contains that string's first character. */
  lemma ContainsHead(s: string, sub: string)
    requires sub != [] && Contains(s, sub)
    ensures sub[0] in s
  {
    var i :| 0 <= i <= |s| - |sub| && OccursAt(s, sub, i);
    assert s[i..i + |sub|][0] == s[i];
  }

  /** No value occurs twice in `s`. */
  predicate Distinct(s: seq<string>) {
    forall i, j :: 0 <= i < j < |s| ==> s[i] != s[j]
  }
}
