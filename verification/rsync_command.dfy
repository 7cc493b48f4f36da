/** Confining an `rsync --server` command line, token by token. */
module RsyncCommand {
  import opened Prelude
  import opened SftpPaths

  /** The long flags that are refused, and those that carry a path. */
  datatype Tables = Tables(denied: set<string>, pathBearing: set<string>)

  function IndexOf(s: string, c: char): (i: int)
    ensures -1 <= i < |s|
    ensures i >= 0 ==> s[i] == c && c !in s[..i]
    ensures i < 0 ==> c !in s
  {
    if s == "" then -1
    else if s[0] == c then 0
    else
      var k := IndexOf(s[1..], c);
      if k < 0 then -1 else assert s[..k + 1] == [s[0]] + s[1..][..k]; k + 1
  }

  predicate IsFlag(arg: string) {
    HasPrefix(arg, "-")
  }

  predicate IsLong(arg: string) {
    HasPrefix(arg, "--")
  }

  function FlagName(arg: string): string {
    var eq := IndexOf(arg, '=');
    if eq >= 0 then arg[..eq] else arg
  }

  function FlagValue(arg: string): Option<string> {
    var eq := IndexOf(arg, '=');
    if eq >= 0 then Some(arg[eq + 1..]) else None
  }

  /** The option letters of a short bundle: up to the first dot, without the "e" before it. */
  function OptionLetters(arg: string): string
    requires IsFlag(arg)
  {
    var opts := arg[1..];
    var dot := IndexOf(opts, '.');
    if dot < 0 then opts
    else
      var head := opts[..dot];
      if head != "" && head[|head| - 1] == 'e' then head[..|head| - 1] else head
  }

  predicate DangerousLetter(c: char) {
    c in "esLKkfMT"
  }

  /** A path-bearing flag whose value is the next token. */
  predicate TakesNext(arg: string, t: Tables) {
    IsLong(arg) && FlagName(arg) !in t.denied && FlagName(arg) in t.pathBearing && FlagValue(arg).None?
  }

  /** Whether a token is the value of the flag before it, which may itself be a value. */
  predicate Consumed(parts: seq<string>, i: nat, t: Tables)
    requires i < |parts|
  {
    i >= 2 && !Consumed(parts, i - 1, t) && TakesNext(parts[i - 1], t)
  }

  /** A token for which the session is refused. */
  predicate Refused(parts: seq<string>, i: nat, t: Tables)
    requires i < |parts|
  {
    var arg := parts[i];
    i >= 1 &&
    if Consumed(parts, i, t) then arg == "-"
    else if !IsFlag(arg) then false
    else if IsLong(arg) then
      FlagName(arg) in t.denied || (FlagName(arg) in t.pathBearing && FlagValue(arg) == Some("-"))
    else exists c :: c in OptionLetters(arg) && DangerousLetter(c)
  }

  /** What a token becomes. */
  function Rewritten(parts: seq<string>, i: nat, root: string, t: Tables): string
    requires i < |parts|
  {
    var arg := parts[i];
    if i == 0 then arg
    else if Consumed(parts, i, t) then SanitizePath(arg, root)
    else if !IsFlag(arg) then (if arg == "." then arg else SanitizePath(arg, root))
    else if IsLong(arg) && FlagName(arg) in t.pathBearing && FlagValue(arg).Some? && FlagValue(arg).value != ""
    then FlagName(arg) + "=" + SanitizePath(FlagValue(arg).value, root)
    else arg
  }

  method HasDangerousLetter(s: string) returns (r: bool)
    ensures r <==> exists c :: c in s && DangerousLetter(c)
  {
    for i := 0 to |s|
      invariant forall j :: 0 <= j < i ==> !DangerousLetter(s[j])
    {
      if DangerousLetter(s[i]) {
        return true;
      }
    }
    return false;
  }

  /** One turn of the loop: deal with token `i`, and with its value if that is the next one. */
  method RewriteAt(rewritten: array<string>, parts: seq<string>, i: nat, root: string, t: Tables)
    returns (next: nat, refused: bool)
    requires rewritten.Length == |parts| && 1 <= i < |parts| && !Consumed(parts, i, t)
    requires forall j :: i <= j < |parts| ==> rewritten[j] == parts[j]
    modifies rewritten
    ensures i < next <= |parts| && next <= i + 2
    ensures refused ==> exists j :: i <= j < next && Refused(parts, j, t)
    ensures !refused ==> forall j :: i <= j < next ==> !Refused(parts, j, t) && rewritten[j] == Rewritten(parts, j, root, t)
    ensures next < |parts| ==> !Consumed(parts, next, t)
    ensures forall j :: (0 <= j < i || next <= j < |parts|) ==> rewritten[j] == old(rewritten[j])
  {
    hide SanitizePath, OptionLetters, FlagName, FlagValue, IsLong, IsFlag, DangerousLetter;
    next, refused := i + 1, false;
    var arg := rewritten[i];
    if TakesNext(arg, t) && i + 1 < |parts| {
      var val := rewritten[i + 1];
      assert Consumed(parts, i + 1, t);
      next := i + 2;
      if val == "-" {
        assert Refused(parts, i + 1, t);
        refused := true;
        return;
      }
      rewritten[i + 1] := SanitizePath(val, root);
      TakesNextIsFlag(arg);
      return;
    }
    refused := RewriteOne(rewritten, parts, i, root, t);
  }

  lemma TakesNextIsFlag(arg: string)
    ensures IsLong(arg) ==> IsFlag(arg)
  {
  }

  /** A token that is not followed by its own value. */
  method RewriteOne(rewritten: array<string>, parts: seq<string>, i: nat, root: string, t: Tables) returns (refused: bool)
    requires rewritten.Length == |parts| && 1 <= i < |parts| && !Consumed(parts, i, t)
    requires rewritten[i] == parts[i] && !(TakesNext(parts[i], t) && i + 1 < |parts|)
    modifies rewritten
    ensures refused <==> Refused(parts, i, t)
    ensures !refused ==> rewritten[i] == Rewritten(parts, i, root, t)
    ensures forall j :: 0 <= j < |parts| && j != i ==> rewritten[j] == old(rewritten[j])
  {
    hide SanitizePath, OptionLetters, IndexOf, DangerousLetter;
    var arg := rewritten[i];
    if !IsFlag(arg) {
      if arg != "." {
        rewritten[i] := SanitizePath(arg, root);
      }
      return false;
    }
    if !IsLong(arg) {
      refused := HasDangerousLetter(OptionLetters(arg));
      return;
    }
    var name := FlagName(arg);
    if name in t.denied {
      return true;
    }
    if name in t.pathBearing && FlagValue(arg).Some? {
      var val := FlagValue(arg).value;
      if val == "-" {
        return true;
      }
      if val != "" {
        rewritten[i] := name + "=" + SanitizePath(val, root);
      }
    }
    return false;
  }

  /** The rewriter edits a copy of the tokens in place and jumps over the values it has dealt
      with. It accepts exactly the commands without a refused token, and then every token is
      rewritten by what it is, wherever it stands. */
  method RewriteRsync(parts: seq<string>, root: string, t: Tables) returns (out: Option<seq<string>>)
    ensures out.None? <==> parts == [] || exists i :: 0 <= i < |parts| && Refused(parts, i, t)
    ensures out.Some? ==>
              && |out.value| == |parts|
              && forall i :: 0 <= i < |parts| ==> out.value[i] == Rewritten(parts, i, root, t)
  {
    hide Refused, Rewritten, Consumed;
    if parts == [] {
      return None;
    }
    var n := |parts|;
    var rewritten := new string[n](i requires 0 <= i < n => parts[i]);
    var i := 1;
    FirstTokens(parts, root, t);
    while i < n
      invariant 1 <= i <= n && (i < n ==> !Consumed(parts, i, t))
      invariant forall j :: 0 <= j < i ==> !Refused(parts, j, t)
      invariant forall j :: 0 <= j < i ==> rewritten[j] == Rewritten(parts, j, root, t)
      invariant forall j :: i <= j < n ==> rewritten[j] == parts[j]
    {
      var next, refused := RewriteAt(rewritten, parts, i, root, t);
      if refused {
        return None;
      }
      i := next;
    }
    return Some(rewritten[..]);
  }

  lemma FirstTokens(parts: seq<string>, root: string, t: Tables)
    requires parts != []
    ensures !Refused(parts, 0, t) && Rewritten(parts, 0, root, t) == parts[0]
    ensures |parts| > 1 ==> !Consumed(parts, 1, t)
  {
  }

  // ---- the same token by token, in the text itself --------------------------

  /** Character `k` is a letter of the bundle and one it is refused for. The version number rsync
      appends, from the first dot on, and the "e" that introduces it are not among its letters. */
  predicate BadLetterAt(arg: string, k: int) {
    && 1 <= k < |arg| && arg[k] in {'e', 's', 'L', 'K', 'k', 'f', 'M', 'T'}
    && '.' !in arg[1..k] && !(arg[k] == 'e' && k + 1 < |arg| && arg[k + 1] == '.')
  }

  lemma BundleRefusedIff(arg: string)
    requires "-" <= arg
    ensures (exists c :: c in OptionLetters(arg) && DangerousLetter(c)) <==> exists k :: BadLetterAt(arg, k)
  {
    hide IndexOf, OptionLetters;
    var letters := OptionLetters(arg);
    if c :| c in letters && DangerousLetter(c) {
      var j :| 0 <= j < |letters| && letters[j] == c;
      DotsAfter(arg, j);
      assert BadLetterAt(arg, j + 1);
    }
    if k :| BadLetterAt(arg, k) {
      BadLetterKept(arg, k);
      assert letters[k - 1] in letters && DangerousLetter(letters[k - 1]);
    }
  }

  lemma BadLetterKept(arg: string, k: int)
    requires "-" <= arg && BadLetterAt(arg, k)
    ensures k - 1 < |OptionLetters(arg)| && OptionLetters(arg)[k - 1] == arg[k]
  {
    hide IndexOf;
    var opts, dot := arg[1..], IndexOf(arg[1..], '.');
    assert opts[k - 1] == arg[k];
    if dot >= 0 {
      assert opts[dot] == '.' && arg[dot + 1] == '.';
      assert forall i :: 0 <= i < k - 1 ==> arg[1..k][i] == opts[i] && arg[1..k][i] != '.';
    }
  }

  /** Before a letter of the bundle there is no dot, and no dot right behind an "e". */
  lemma DotsAfter(arg: string, j: nat)
    requires "-" <= arg && j < |OptionLetters(arg)|
    ensures j + 1 < |arg| && OptionLetters(arg)[j] == arg[j + 1] && '.' !in arg[1..j + 1]
    ensures arg[j + 1] == 'e' && j + 2 < |arg| ==> arg[j + 2] != '.'
  {
    hide IndexOf;
    var opts, dot := arg[1..], IndexOf(arg[1..], '.');
    assert opts[j] == arg[j + 1] && (j + 2 < |arg| ==> opts[j + 1] == arg[j + 2]);
    if dot < 0 {
      assert forall i :: 0 <= i < |opts| ==> opts[i] in opts;
      assert arg[1..j + 1] == opts[..j];
    } else {
      assert forall i :: 0 <= i < dot ==> opts[i] in opts[..dot];
      assert arg[1..j + 1] == opts[..j];
    }
  }

  /** A long flag's name and value are told apart by the first "=". */
  lemma LongFlagParts(name: string, value: string)
    requires '=' !in name
    ensures FlagName(name) == name && FlagValue(name) == None
    ensures FlagName(name + "=" + value) == name && FlagValue(name + "=" + value) == Some(value)
  {
    hide IndexOf;
    var arg := name + "=" + value;
    var eq := IndexOf(arg, '=');
    assert arg[|name|] == '=' && arg[..|name|] == name;
    assert forall i :: 0 <= i < eq ==> arg[..eq][i] == arg[i] && arg[i] != '=';
    assert forall i :: 0 <= i < |name| ==> arg[i] == name[i] && name[i] in name;
    assert arg[|name| + 1..] == value;
  }

  /** Every text is a name without "=", alone or followed by "=" and a value. */
  lemma LongFlagSplit(arg: string)
    ensures '=' !in FlagName(arg)
    ensures arg == match FlagValue(arg) case None => FlagName(arg) case Some(v) => FlagName(arg) + "=" + v
  {
  }

  /** Which tokens are values of the flag before them. */
  lemma ConsumedIff(parts: seq<string>, i: nat, t: Tables)
    requires i < |parts|
    ensures Consumed(parts, i, t) <==>
            && i >= 2 && !Consumed(parts, i - 1, t)
            && "--" <= parts[i - 1] && '=' !in parts[i - 1]
            && parts[i - 1] in t.pathBearing && parts[i - 1] !in t.denied
  {
    hide FlagName, FlagValue;
    if i >= 2 {
      var arg := parts[i - 1];
      LongFlagSplit(arg);
      if '=' !in arg {
        LongFlagParts(arg, "");
      } else {
        assert FlagValue(arg).Some?;
      }
    }
  }

  /** Exactly which tokens are refused: the value "-", a denied long flag with or without a value,
      a path-bearing one with the value "-", and a bundle with a dangerous letter. */
  lemma RefusedIff(parts: seq<string>, i: nat, t: Tables)
    requires 1 <= i < |parts|
    ensures var arg := parts[i];
            Refused(parts, i, t) <==>
            if Consumed(parts, i, t) then arg == "-"
            else if "--" <= arg then
              exists name :: '=' !in name && (arg == name || name + "=" <= arg)
                             && (name in t.denied || (name in t.pathBearing && arg == name + "=-"))
            else
              "-" <= arg && exists k :: BadLetterAt(arg, k)
  {
    hide FlagName, FlagValue, OptionLetters, DangerousLetter, Consumed, BadLetterAt;
    var arg := parts[i];
    if !Consumed(parts, i, t) {
      if "--" <= arg {
        TakesNextIsFlag(arg);
        LongRefusedIff(arg, t);
      } else if "-" <= arg {
        BundleRefusedIff(arg);
      }
    }
  }

  lemma LongRefusedIff(arg: string, t: Tables)
    ensures FlagName(arg) in t.denied || (FlagName(arg) in t.pathBearing && FlagValue(arg) == Some("-")) <==>
            exists name :: '=' !in name && (arg == name || name + "=" <= arg)
                           && (name in t.denied || (name in t.pathBearing && arg == name + "=-"))
  {
    hide FlagName, FlagValue;
    LongFlagSplit(arg);
    var own := FlagName(arg);
    assert own + "=" + "-" == own + "=-";
    assert FlagValue(arg).Some? ==> own + "=" <= arg;
    forall name | '=' !in name && (arg == name || name + "=" <= arg)
      ensures name == own && (arg == name + "=-" <==> FlagValue(arg) == Some("-"))
    {
      if arg == name {
        LongFlagParts(name, "");
      } else {
        var v := arg[|name| + 1..];
        LongFlagParts(name, v);
        assert arg == name + "=" + v;
      }
      LongFlagParts(name, "-");
    }
  }

  /** What every token of an accepted command becomes: paths are sanitized, also the one behind the
      "=" of a path-bearing flag, and everything else, "." included, stays as it is. */
  lemma TokensBecome(parts: seq<string>, i: nat, root: string, t: Tables, name: string, value: string)
    requires 1 <= i < |parts| && !Refused(parts, i, t) && '=' !in name
    ensures var arg, r := parts[i], Rewritten(parts, i, root, t);
            && (Consumed(parts, i, t) || (!("-" <= arg) && arg != ".") ==> r == SanitizePath(arg, root))
            && (!Consumed(parts, i, t) && (arg == "." || ("-" <= arg && !("--" <= arg))) ==> r == arg)
            && (!Consumed(parts, i, t) && "--" <= arg && arg == name ==> r == arg)
            && (!Consumed(parts, i, t) && "--" <= arg && arg == name + "=" + value ==>
                  r == if name in t.pathBearing && value != "" then name + "=" + SanitizePath(value, root) else arg)
  {
    hide FlagName, FlagValue, OptionLetters, DangerousLetter, Consumed, SanitizePath, Refused;
    LongFlagParts(name, value);
    TakesNextIsFlag(parts[i]);
  }

  // ---- confinement ---------------------------------------------------------

  /** In every accepted command: a token that is no flag and not ".", and every value a flag took
      from the next token, is under the root; so is the value of a path-bearing --flag=value;
      everything else is a flag that was not refused, or ".". */
  lemma EveryPathConfined(parts: seq<string>, i: nat, root: seq<string>, t: Tables)
    requires AllNormal(root) && root != [] && 1 <= i < |parts| && !Refused(parts, i, t)
    ensures var r := Rewritten(parts, i, Render(root), t);
            && (!IsFlag(parts[i]) && parts[i] != "." ==> Under(r, root))
            && (Consumed(parts, i, t) ==> Under(r, root))
            && (!Consumed(parts, i, t) && IsFlag(parts[i]) ==>
                  || (r == parts[i] && !(IsLong(r) && FlagName(r) in t.denied))
                  || exists p :: Under(p, root) && r == FlagName(parts[i]) + "=" + p)
            && (!Consumed(parts, i, t) && IsLong(parts[i]) && FlagName(parts[i]) in t.pathBearing ==>
                  match FlagValue(parts[i])
                  case None => i + 1 < |parts| ==> Consumed(parts, i + 1, t)
                  case Some(v) => v != "" ==> exists p :: Under(p, root) && r == FlagName(parts[i]) + "=" + p)
  {
    hide SanitizePath, Under, Render, OptionLetters, IndexOf, DangerousLetter;
    SanitizedUnder(parts[i], root);
    TakesNextIsFlag(parts[i]);
    if FlagValue(parts[i]).Some? {
      SanitizedUnder(FlagValue(parts[i]).value, root);
    }
  }
}
