/** Confining a path argument under the user's root directory. */
module SftpPaths {

  // ---- paths and their components ------------------------------------------

  /** The pieces between slashes, empty ones included. */
  function Split(s: string): (r: seq<string>)
    ensures |r| >= 1
  {
    if s == "" then [""] else Extend(Split(s[..|s| - 1]), s[|s| - 1])
  }

  /** The pieces after one more character. */
  function Extend(pieces: seq<string>, c: char): (r: seq<string>)
    requires |pieces| >= 1
    ensures |r| >= 1
  {
    if c == '/' then pieces + [""] else pieces[..|pieces| - 1] + [pieces[|pieces| - 1] + [c]]
  }

  lemma ExtendConcat(a: seq<string>, b: seq<string>, c: char)
    requires |b| >= 1
    ensures Extend(a + b, c) == a + Extend(b, c)
  {
    assert (a + b)[..|a + b| - 1] == a + b[..|b| - 1];
  }

  /** What a rooted path names: "." and empty pieces mean nothing, ".." goes up, and above the
      root there is only the root. */
  function Resolve(pieces: seq<string>): seq<string> {
    if pieces == [] then []
    else
      var r, c := Resolve(pieces[..|pieces| - 1]), pieces[|pieces| - 1];
      if c == "" || c == "." then r
      else if c == ".." then (if r == [] then [] else r[..|r| - 1])
      else r + [c]
  }

  function Render(cs: seq<string>): string {
    if cs == [] then "" else Render(cs[..|cs| - 1]) + "/" + cs[|cs| - 1]
  }

  /** The shortest form of a rooted path, as filepath.Clean gives it. */
  function Clean(s: string): string {
    var cs := Resolve(Split(s));
    if cs == [] then "/" else Render(cs)
  }

  predicate Normal(c: string) {
    c != "" && c != "." && c != ".." && '/' !in c
  }

  predicate AllNormal(cs: seq<string>) {
    forall i :: 0 <= i < |cs| ==> Normal(cs[i])
  }

  predicate SlashFree(cs: seq<string>) {
    forall i :: 0 <= i < |cs| ==> '/' !in cs[i]
  }

  lemma {:induction false} SplitSlashFree(s: string)
    ensures SlashFree(Split(s))
  {
    if s != "" {
      SplitSlashFree(s[..|s| - 1]);
    }
  }

  lemma SplitSnoc(s: string, c: char)
    ensures Split(s + [c]) == Extend(Split(s), c)
    ensures c == '/' ==> Split(s + [c]) == Split(s) + [""]
  {
    assert (s + [c])[..|s|] == s;
  }

  lemma {:induction false} SplitPlain(c: string)
    requires '/' !in c
    ensures Split(c) == [c]
  {
    if c != "" {
      SplitPlain(c[..|c| - 1]);
      assert c == c[..|c| - 1] + [c[|c| - 1]];
    }
  }

  lemma {:induction false} SplitAtSlash(a: string, b: string)
    ensures Split(a + "/" + b) == Split(a) + Split(b)
  {
    hide Split, Extend;
    if b == "" {
      SplitSnoc(a, '/');
      SplitPlain("");
      assert a + "/" + b == a + ['/'];
    } else {
      var front, c := b[..|b| - 1], b[|b| - 1];
      SplitAtSlash(a, front);
      SplitSnoc(a + "/" + front, c);
      SplitSnoc(front, c);
      ExtendConcat(Split(a), Split(front), c);
      assert a + "/" + b == (a + "/" + front) + [c] && b == front + [c];
    }
  }

  lemma {:induction false} SplitRender(cs: seq<string>)
    requires SlashFree(cs)
    ensures Split(Render(cs)) == [""] + cs
  {
    if cs != [] {
      var front, c := cs[..|cs| - 1], cs[|cs| - 1];
      SplitRender(front);
      SplitAtSlash(Render(front), c);
      SplitPlain(c);
      assert cs == front + [c];
    }
  }

  lemma {:induction false} ResolveNormal(pieces: seq<string>)
    requires SlashFree(pieces)
    ensures AllNormal(Resolve(pieces))
  {
    if pieces != [] {
      ResolveNormal(pieces[..|pieces| - 1]);
    }
  }

  /** Normal pieces, with empty ones among them, resolve to the normal ones. */
  lemma {:induction false} ResolveAppend(a: seq<string>, b: seq<string>)
    requires AllNormal(b)
    ensures Resolve(a + b) == Resolve(a) + b
  {
    if b == [] {
      assert a + b == a;
    } else {
      var front := b[..|b| - 1];
      assert (a + b)[..|a + b| - 1] == a + front;
      ResolveAppend(a, front);
      assert b == front + [b[|b| - 1]];
    }
  }

  /** The last piece of a path, by what it is. */
  lemma ResolveSnoc(a: seq<string>, c: string)
    ensures Resolve(a + [c]) ==
            if c == "" || c == "." then Resolve(a)
            else if c == ".." then (if Resolve(a) == [] then [] else Resolve(a)[..|Resolve(a)| - 1])
            else Resolve(a) + [c]
  {
    assert (a + [c])[..|a|] == a;
  }

  lemma {:induction false} ResolveAlike(a: seq<string>, a': seq<string>, b: seq<string>)
    requires Resolve(a) == Resolve(a')
    ensures Resolve(a + b) == Resolve(a' + b)
  {
    hide Resolve;
    if b == [] {
      assert a + b == a && a' + b == a';
    } else {
      var front, c := b[..|b| - 1], b[|b| - 1];
      ResolveAlike(a, a', front);
      ResolveSnoc(a + front, c);
      ResolveSnoc(a' + front, c);
      assert a + b == (a + front) + [c] && a' + b == (a' + front) + [c];
    }
  }

  /** The laws of path names, which fix what every path resolves to: an empty piece or "." may be
      left out anywhere, a name followed by ".." too, ".." at the top as well, and names that are
      none of these stand for themselves. */
  lemma ResolveLaws(a: seq<string>, c: string, b: seq<string>)
    ensures c == "" || c == "." ==> Resolve(a + [c] + b) == Resolve(a + b)
    ensures Normal(c) ==> Resolve(a + [c, ".."] + b) == Resolve(a + b)
    ensures Resolve([".."] + b) == Resolve(b)
    ensures AllNormal(b) ==> Resolve(b) == b
  {
    hide Resolve;
    ResolveSnoc(a, c);
    assert Resolve([]) == [] by { ResolveNothing(); }
    if c == "" || c == "." {
      ResolveAlike(a + [c], a, b);
    }
    if Normal(c) {
      ResolveSnoc(a + [c], "..");
      assert a + [c, ".."] == a + [c] + [".."];
      assert (Resolve(a) + [c])[..|Resolve(a)|] == Resolve(a);
      ResolveAlike(a + [c, ".."], a, b);
    }
    ResolveSnoc([], "..");
    assert [] + [".."] == [".."] && [] + b == b;
    ResolveAlike([".."], [], b);
    if AllNormal(b) {
      ResolveAppend([], b);
    }
  }

  lemma ResolveNothing()
    ensures Resolve([]) == []
  {
  }

  lemma {:induction false} ResolveLeadingSlash(pieces: seq<string>)
    ensures Resolve([""] + pieces) == Resolve(pieces)
  {
    var all := [""] + pieces;
    if pieces == [] {
      assert all[..0] == [];
    } else {
      assert all[..|all| - 1] == [""] + pieces[..|pieces| - 1];
      ResolveLeadingSlash(pieces[..|pieces| - 1]);
    }
  }

  lemma {:induction false} RenderConcat(a: seq<string>, b: seq<string>)
    ensures Render(a + b) == Render(a) + Render(b)
  {
    if b == [] {
      assert a + b == a;
    } else {
      var front := b[..|b| - 1];
      assert (a + b)[..|a + b| - 1] == a + front;
      RenderConcat(a, front);
    }
  }

  // ---- the sanitizer -------------------------------------------------------

  predicate HasPrefix(s: string, p: string) {
    p <= s
  }

  predicate EndsWithSlash(s: string) {
    s != "" && s[|s| - 1] == '/'
  }

  const NUL: char := '\0'

  function SanitizePath(arg: string, root: string): string {
    if NUL in arg then root
    else
      var clean := Clean("/" + arg);
      var joined := Clean(root + clean);
      var kept := if !HasPrefix(joined, root + "/") && joined != root then root else joined;
      if EndsWithSlash(arg) && !EndsWithSlash(kept) then kept + "/" else kept
  }

  /** What an argument names, taken from the root of its own tree. */
  function Named(arg: string): seq<string> {
    if NUL in arg then [] else Resolve(Split(arg))
  }

  lemma NamedNormal(arg: string)
    ensures AllNormal(Named(arg))
  {
    SplitSlashFree(arg);
    ResolveNormal(Split(arg));
  }

  lemma CleanArg(arg: string)
    requires NUL !in arg
    ensures Clean("/" + arg) == if Named(arg) == [] then "/" else Render(Named(arg))
  {
    assert "/" + arg == "" + "/" + arg;
    SplitAtSlash("", arg);
    ResolveLeadingSlash(Split(arg));
  }

  /** A rendered path, with or without a trailing slash, has the components it was made of. */
  lemma ResolveRendered(cs: seq<string>)
    requires AllNormal(cs)
    ensures Split(Render(cs)) == [""] + cs && Resolve(Split(Render(cs))) == cs
    ensures Split(Render(cs) + "/") == [""] + cs + [""] && Resolve(Split(Render(cs) + "/")) == cs
  {
    hide Split, Render;
    SplitRender(cs);
    assert Resolve([""]) == [] by { assert [""][..0] == []; }
    ResolveAppend([""], cs);
    assert Render(cs) + "/" == Render(cs) + "/" + "";
    SplitAtSlash(Render(cs), "");
    SplitPlain("");
    var pieces := [""] + cs + [""];
    assert pieces[..|pieces| - 1] == [""] + cs;
  }

  /** Joining a clean root and a clean rooted path. */
  lemma CleanJoined(root: seq<string>, r: seq<string>)
    requires AllNormal(root) && AllNormal(r) && root != []
    ensures Clean(Render(root) + (if r == [] then "/" else Render(r))) == Render(root + r)
  {
    hide Split, Render, Resolve;
    if r == [] {
      ResolveRendered(root);
      assert root + r == root;
    } else {
      RenderConcat(root, r);
      ResolveRendered(root + r);
    }
  }

  lemma RenderedEnd(cs: seq<string>)
    requires AllNormal(cs) && cs != []
    ensures Render(cs) != "" && Render(cs)[0] == '/' && !EndsWithSlash(Render(cs))
  {
    var c := cs[|cs| - 1];
    assert Normal(c);
    assert Render(cs)[|Render(cs)| - 1] == c[|c| - 1];
    assert c[|c| - 1] in c;
    RenderedStart(cs);
  }

  lemma {:induction false} RenderedStart(cs: seq<string>)
    requires cs != []
    ensures Render(cs) != "" && Render(cs)[0] == '/'
  {
    if |cs| > 1 {
      RenderedStart(cs[..|cs| - 1]);
    } else {
      assert cs[..0] == [];
    }
  }

  /** For every argument and every clean root but "/": the result is the root followed by what
      the argument names, and a trailing slash if it had one. The fallback to the bare root is
      never needed, and no component is "." or "..". */
  lemma SanitizeExact(arg: string, root: seq<string>)
    requires AllNormal(root) && root != []
    ensures AllNormal(Named(arg))
    ensures SanitizePath(arg, Render(root)) ==
            Render(root + Named(arg)) + (if EndsWithSlash(arg) && NUL !in arg then "/" else "")
  {
    hide Clean, Resolve, Split, Render;
    NamedNormal(arg);
    var r := Named(arg);
    if NUL in arg {
      assert root + r == root;
    } else {
      CleanArg(arg);
      CleanJoined(root, r);
      RenderConcat(root, r);
      RenderedEnd(root + r);
      if r != [] {
        RenderedEnd(r);
        assert Render(root) + "/" <= Render(root) + Render(r);
      } else {
        assert root + r == root;
      }
    }
  }

  /** Below a root: its components, then normal ones, then perhaps a slash. */
  ghost predicate Under(s: string, root: seq<string>) {
    exists rest :: AllNormal(rest) && (s == Render(root + rest) || s == Render(root + rest) + "/")
  }

  lemma SanitizedUnder(arg: string, root: seq<string>)
    requires AllNormal(root) && root != []
    ensures Under(SanitizePath(arg, Render(root)), root)
  {
    hide Render, SanitizePath, Named;
    SanitizeExact(arg, root);
    var rest := Named(arg);
    assert Render(root + rest) + "" == Render(root + rest);
  }

  /** The components of such a path begin with the root's, and hold no "." and no "..". */
  lemma UnderComponents(s: string, root: seq<string>)
    requires AllNormal(root) && Under(s, root)
    ensures root <= Resolve(Split(s)) && AllNormal(Resolve(Split(s)))
    ensures forall c :: c in Split(s) ==> c == "" || Normal(c)
  {
    hide Split, Render, Resolve;
    var rest :| AllNormal(rest) && (s == Render(root + rest) || s == Render(root + rest) + "/");
    ResolveRendered(root + rest);
  }

  /** With "/" as the root every argument is sent to the root itself: the guard that the result
      starts with the root and a slash asks for two slashes. */
  lemma RootOfAll(arg: string)
    ensures SanitizePath(arg, "/") == "/"
  {
    hide Resolve, Split, Render;
    if NUL !in arg {
      var joined := Clean("/" + Clean("/" + arg));
      CleanNoDoubleSlash("/" + Clean("/" + arg));
      assert !HasPrefix(joined, "//") || joined == "/";
    }
  }

  lemma CleanNoDoubleSlash(s: string)
    ensures !("//" <= Clean(s))
  {
    var cs := Resolve(Split(s));
    SplitSlashFree(s);
    ResolveNormal(Split(s));
    if cs != [] {
      SecondCharacter(cs);
    }
  }

  lemma {:induction false} SecondCharacter(cs: seq<string>)
    requires AllNormal(cs) && cs != []
    ensures |Render(cs)| >= 2 && Render(cs)[1] != '/'
  {
    if |cs| > 1 {
      SecondCharacter(cs[..|cs| - 1]);
    } else {
      assert cs[..0] == [] && Normal(cs[0]);
      assert Render(cs)[1] == cs[0][0] && cs[0][0] in cs[0];
    }
  }
}
