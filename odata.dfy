/**
 * The `$filter` sent for one partition key: `PartitionKey eq '<key>'`, where
 * the key is written as an OData string literal, in which a single quote is
 * written as two (the rule `SQUOTE-in-string = SQUOTE SQUOTE` of the OData
 * ABNF Construction Rules).
 */
module OData {
  import opened Wrappers

  const Quote: char := '\''

  /** The text in front of the escaped key. */
  const FilterPrefix := "PartitionKey eq '"

  /** The number of single quotes in `s`. */
  function Quotes(s: string): nat {
    if s == [] then 0 else (if s[0] == Quote then 1 else 0) + Quotes(s[1..])
  }

  /** `s` with every single quote removed. */
  function Unquoted(s: string): string {
    if s == [] then [] else (if s[0] == Quote then [] else [s[0]]) + Unquoted(s[1..])
  }

  /**
   * `pk.replace("'", "''")`: every single quote doubled, every other
   * character kept in place.
   */
  function Escape(s: string): (r: string)
    ensures |r| == |s| + Quotes(s)
    ensures Quotes(r) == 2 * Quotes(s)
    ensures Unquoted(r) == Unquoted(s)
  {
    if s == [] then []
    else
      var rest := Escape(s[1..]);
      if s[0] == Quote then
        assert ([Quote, Quote] + rest)[1..] == [Quote] + rest && ([Quote] + rest)[1..] == rest;
        [Quote, Quote] + rest
      else
        assert ([s[0]] + rest)[1..] == rest;
        [s[0]] + rest
  }

  /** `e.replace("''", "'")`: each pair of quotes, read left to right, becomes one. */
  function Unescape(e: string): string {
    if |e| >= 2 && e[0] == Quote && e[1] == Quote then [Quote] + Unescape(e[2..])
    else if e == [] then []
    else [e[0]] + Unescape(e[1..])
  }

  /**
   * The `$filter` value for a partition key (line 149): it starts with the
   * comparison, ends with the closing quote, and reads back as a filter on
   * exactly that key.
   */
  function Filter(pk: string): (f: string)
    ensures FilterPrefix <= f && f[|f| - 1] == Quote
    ensures ParseFilter(f) == Some(pk)
  {
    var f := FilterPrefix + Escape(pk) + [Quote];
    assert f[|FilterPrefix|..] == Escape(pk) + [Quote];
    ParseEscapedLiteral(pk);
    f
  }

  /**
   * Reads an OData string literal whose opening quote has been consumed: the
   * literal's value, provided its closing quote is the last character.
   * Anything after the closing quote (a second clause smuggled into the
   * filter) is refused.
   */
  function ParseLiteralTail(s: string): Option<string> {
    if s == [] then None
    else if s[0] == Quote then
      if |s| >= 2 && s[1] == Quote then
        match ParseLiteralTail(s[2..])
        case Some(v) => Some([Quote] + v)
        case None => None
      else if |s| == 1 then Some([])
      else None
    else
      match ParseLiteralTail(s[1..])
      case Some(v) => Some([s[0]] + v)
      case None => None
  }

  /** The key compared by a filter of the form `PartitionKey eq '<literal>'`, if it is one. */
  function ParseFilter(f: string): Option<string> {
    if FilterPrefix <= f then ParseLiteralTail(f[|FilterPrefix|..]) else None
  }

  /** Unescaping undoes escaping, so different keys give different filters. */
  lemma {:induction false} EscapeRoundTrip(s: string)
    ensures Unescape(Escape(s)) == s
  {
    if s != [] {
      EscapeRoundTrip(s[1..]);
      var rest := Escape(s[1..]);
      if s[0] == Quote {
        assert ([Quote, Quote] + rest)[2..] == rest;
      } else {
        assert ([s[0]] + rest)[1..] == rest;
      }
    }
  }

  lemma {:induction false} ParseEscapedLiteral(s: string)
    ensures ParseLiteralTail(Escape(s) + [Quote]) == Some(s)
  {
    if s != [] {
      ParseEscapedLiteral(s[1..]);
      var rest := Escape(s[1..]) + [Quote];
      if s[0] == Quote {
        var e := [Quote, Quote] + rest;
        assert Escape(s) + [Quote] == e;
        assert e[0] == Quote && e[1] == Quote && e[2..] == rest;
        assert ParseLiteralTail(e) == Some([Quote] + s[1..]);
      } else {
        var e := [s[0]] + rest;
        assert Escape(s) + [Quote] == e;
        assert e[0] == s[0] && e[1..] == rest;
        assert ParseLiteralTail(e) == Some([s[0]] + s[1..]);
      }
      assert [s[0]] + s[1..] == s;
    }
  }

  lemma {:induction false} ParsedLiteralIsEscaped(s: string, v: string)
    requires ParseLiteralTail(s) == Some(v)
    ensures s == Escape(v) + [Quote]
  {
    if s[0] == Quote {
      if |s| >= 2 && s[1] == Quote {
        var w := ParseLiteralTail(s[2..]).value;
        ParsedLiteralIsEscaped(s[2..], w);
        assert v == [Quote] + w && v[1..] == w;
      }
    } else {
      var w := ParseLiteralTail(s[1..]).value;
      ParsedLiteralIsEscaped(s[1..], w);
      assert v == [s[0]] + w && v[1..] == w;
    }
  }

  /**
   * No injection: a string parses as an equality filter on `pk` exactly when
   * it is the filter built for `pk`.  Whatever characters the key holds, the
   * literal ends at the filter's last character and its value is the key.
   */
  lemma FilterParsesBack(f: string, pk: string)
    ensures ParseFilter(f) == Some(pk) <==> f == Filter(pk)
  {
    var n := |FilterPrefix|;
    if f == Filter(pk) {
      assert f[n..] == Escape(pk) + [Quote];
      ParseEscapedLiteral(pk);
    }
    if ParseFilter(f) == Some(pk) {
      ParsedLiteralIsEscaped(f[n..], pk);
      assert f == f[..n] + f[n..];
    }
  }
}
