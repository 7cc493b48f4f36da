/** Cutting texts at a character, and into lines. */
module TextParts {
  /** The part before the first `c`, and the part after; all and nothing if there is none. */
  function Cut(s: string, c: char): (string, string) {
    if s == "" then ("", "")
    else if s[0] == c then ("", s[1..])
    else var r := Cut(s[1..], c); ([s[0]] + r.0, r.1)
  }

  lemma {:induction false} CutAt(a: string, c: char, b: string)
    requires c !in a
    ensures Cut(a + [c] + b, c) == (a, b)
  {
    var s := a + [c] + b;
    if a == "" {
      assert s[0] == c && s[1..] == b;
    } else {
      assert s[0] == a[0] && s[1..] == a[1..] + [c] + b;
      CutAt(a[1..], c, b);
      assert a == [a[0]] + a[1..];
    }
  }

  /** The lines of a text, without their ends; text after the last end is a line too. */
  function Lines(text: string): seq<string>
    decreases |text|
  {
    if text == "" then []
    else
      var r := Cut(text, '\n');
      assert |r.1| < |text| by { CutShorter(text, '\n'); }
      [r.0] + Lines(r.1)
  }

  lemma {:induction false} CutShorter(s: string, c: char)
    requires s != ""
    ensures |Cut(s, c).1| < |s|
  {
    if s[0] != c && |s| > 1 {
      CutShorter(s[1..], c);
    }
  }

  /** A line, its end, and more. */
  lemma LinesFirst(line: string, rest: string)
    requires '\n' !in line
    ensures Lines(line + "\n" + rest) == [line] + Lines(rest)
  {
    var text := line + "\n" + rest;
    assert text == line + ['\n'] + rest;
    CutAt(line, '\n', rest);
  }
}
