/** Folder names in LIST responses: the two replacements that unquote undo the two that quote. */
module ImapNames {
  import opened Prelude

  /** Every non-overlapping occurrence replaced, from the left. */
  function Replace(s: string, from: string, to: string): string
    requires from != ""
  {
    if s == "" then ""
    else if from <= s then to + Replace(s[|from|..], from, to)
    else [s[0]] + Replace(s[1..], from, to)
  }

  const BACKSLASH: string := "\\"
  const QUOTE: string := "\""

  /** Backslashes doubled, then quotes escaped. */
  function Escaped(s: string): string {
    Replace(Replace(s, BACKSLASH, BACKSLASH + BACKSLASH), QUOTE, BACKSLASH + QUOTE)
  }

  /** Escaped quotes first, doubled backslashes after. */
  function Unescaped(s: string): string {
    Replace(Replace(s, BACKSLASH + QUOTE, QUOTE), BACKSLASH + BACKSLASH, BACKSLASH)
  }

  /** None where the client refuses to send the name. */
  function QuoteAstring(s: string): Option<string> {
    if '\r' in s || '\n' in s then None else Some(QUOTE + Escaped(s) + QUOTE)
  }

  /** The name of a LIST response: quoted or bare. */
  function ParseName(blob: string): string {
    if QUOTE <= blob && |blob| > 0 && blob[|blob| - 1] == '"'
    then (if |blob| >= 2 then Unescaped(blob[1..|blob| - 1]) else "")
    else blob
  }

  lemma ReplaceChar(c: char, rest: string, k: char, to: string)
    ensures Replace([c] + rest, [k], to) == (if c == k then to else [c]) + Replace(rest, [k], to)
  {
    var s := [c] + rest;
    assert s[1..] == rest && s[0] == c;
    if c == k {
      assert s[..1] == [k];
    } else {
      assert [k][0] != s[0];
    }
  }

  /** Replacing a pair at the front ... */
  lemma ReplacePairHit(a: char, b: char, rest: string, to: string)
    ensures Replace([a, b] + rest, [a, b], to) == to + Replace(rest, [a, b], to)
  {
    assert ([a, b] + rest)[2..] == rest;
  }

  /** ... and passing over a character that does not begin one. */
  lemma ReplacePairMiss(c: char, rest: string, a: char, b: char, to: string)
    requires c != a || rest == "" || rest[0] != b
    ensures Replace([c] + rest, [a, b], to) == [c] + Replace(rest, [a, b], to)
  {
    var s := [c] + rest;
    assert s[1..] == rest;
    assert s[0] == c && (rest != "" ==> s[1] == rest[0]);
    assert [a, b][0] == a && [a, b][1] == b;
  }

  /** Every quote in an escaped text stands behind its own backslash. */
  lemma {:induction false} UnescapeQuotes(d: string)
    ensures Replace(Replace(d, QUOTE, BACKSLASH + QUOTE), BACKSLASH + QUOTE, QUOTE) == d
    ensures var q := Replace(d, QUOTE, BACKSLASH + QUOTE); q == "" || q[0] != '"'
  {
    if d != "" {
      var c, rest := d[0], d[1..];
      var q := Replace(rest, QUOTE, BACKSLASH + QUOTE);
      assert d == [c] + rest;
      UnescapeQuotes(rest);
      ReplaceChar(c, rest, '"', BACKSLASH + QUOTE);
      if c == '"' {
        assert BACKSLASH + QUOTE + q == ['\\', '"'] + q;
        ReplacePairHit('\\', '"', q, QUOTE);
      } else {
        ReplacePairMiss(c, q, '\\', '"', QUOTE);
      }
    }
  }

  lemma {:induction false} UndoubleBackslashes(s: string)
    ensures Replace(Replace(s, BACKSLASH, BACKSLASH + BACKSLASH), BACKSLASH + BACKSLASH, BACKSLASH) == s
  {
    if s != "" {
      var c, rest := s[0], s[1..];
      var d := Replace(rest, BACKSLASH, BACKSLASH + BACKSLASH);
      assert s == [c] + rest;
      UndoubleBackslashes(rest);
      ReplaceChar(c, rest, '\\', BACKSLASH + BACKSLASH);
      if c == '\\' {
        assert BACKSLASH + BACKSLASH + d == ['\\', '\\'] + d;
        ReplacePairHit('\\', '\\', d, BACKSLASH);
      } else {
        ReplacePairMiss(c, d, '\\', '\\', BACKSLASH);
      }
    }
  }

  /** What quoting does, character by character. */
  lemma EscapedChar(c: char, rest: string)
    ensures Escaped([c] + rest) == (if c == '\\' then ['\\', '\\'] else if c == '"' then ['\\', '"'] else [c]) + Escaped(rest)
    ensures Escaped("") == ""
  {
    hide Replace;
    assert Replace("", BACKSLASH, BACKSLASH + BACKSLASH) == "" && Replace("", QUOTE, BACKSLASH + QUOTE) == "" by {
      ReplaceNothing();
    }
    var d := Replace(rest, BACKSLASH, BACKSLASH + BACKSLASH);
    ReplaceChar(c, rest, '\\', BACKSLASH + BACKSLASH);
    if c == '\\' {
      assert BACKSLASH + BACKSLASH + d == ['\\'] + (['\\'] + d);
      ReplaceChar('\\', ['\\'] + d, '"', BACKSLASH + QUOTE);
      ReplaceChar('\\', d, '"', BACKSLASH + QUOTE);
    } else {
      ReplaceChar(c, d, '"', BACKSLASH + QUOTE);
    }
  }

  lemma ReplaceNothing()
    ensures forall from, to :: from != "" ==> Replace("", from, to) == ""
  {
  }

  /** For every name without CR or LF, whatever backslashes and quotes stand next to each other
      in it, a LIST response that quotes it is read as that name. */
  lemma ListNameRoundTrip(s: string)
    ensures QuoteAstring(s).Some? <==> '\r' !in s && '\n' !in s
    ensures QuoteAstring(s).Some? ==> ParseName(QuoteAstring(s).value) == s
  {
    hide Replace;
    var d := Replace(s, BACKSLASH, BACKSLASH + BACKSLASH);
    UnescapeQuotes(d);
    UndoubleBackslashes(s);
    var blob := QUOTE + Escaped(s) + QUOTE;
    assert blob[1..|blob| - 1] == Escaped(s);
    assert blob[|blob| - 1] == '"' && blob[0] == '"';
  }
}
