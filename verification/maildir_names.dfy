/**
 Capturing a message into a Maildir and reading it back: time, flags and keywords survive, and
 the file name tells the messages of a folder apart.
 */
module MaildirNames {
  import opened Prelude
  import opened Decimals
  import opened Spaces
  import opened TextParts

  type Flag = string

  /** The system flags and their Maildir letters. */
  function Letter(f: Flag): Option<char> {
    if f == "\\Seen" then Some('S')
    else if f == "\\Flagged" then Some('F')
    else if f == "\\Answered" then Some('R')
    else if f == "\\Deleted" then Some('T')
    else if f == "\\Draft" then Some('D')
    else None
  }

  function FlagOf(c: char): Option<Flag> {
    if c == 'S' then Some("\\Seen")
    else if c == 'F' then Some("\\Flagged")
    else if c == 'R' then Some("\\Answered")
    else if c == 'D' then Some("\\Draft")
    else if c == 'T' then Some("\\Deleted")
    else None
  }

  lemma LetterInverse(f: Flag, c: char)
    ensures Letter(f) == Some(c) <==> FlagOf(c) == Some(f)
  {
    assert "\\Seen"[1] == 'S' && "\\Flagged"[1] == 'F' && "\\Answered"[1] == 'A';
    assert "\\Deleted"[2] == 'e' && "\\Draft"[2] == 'r' && "\\Draft"[1] == 'D' && "\\Deleted"[1] == 'D';
  }

  /** The five letters, as the Maildir convention has them. */
  lemma Letters()
    ensures Letter("\\Seen") == Some('S') && Letter("\\Flagged") == Some('F') && Letter("\\Answered") == Some('R')
    ensures Letter("\\Deleted") == Some('T') && Letter("\\Draft") == Some('D')
    ensures forall f :: Letter(f).Some? ==> f in {"\\Seen", "\\Flagged", "\\Answered", "\\Deleted", "\\Draft"}
  {
    assert "\\Seen"[1] == 'S' && "\\Flagged"[1] == 'F' && "\\Answered"[1] == 'A';
    assert "\\Deleted"[2] == 'e' && "\\Draft"[2] == 'r' && "\\Draft"[1] == 'D' && "\\Deleted"[1] == 'D';
  }

  // ---- numbers in names ----------------------------------------------------

  /** A time as it is printed; before 1970 with a sign. */
  function IntText(t: int): string {
    if t < 0 then "-" + Digits(-t) else Digits(t)
  }

  function ParseInt(s: string): Option<int> {
    if s != "" && s[0] == '-' then
      (if |s| > 1 && AllDigits(s[1..]) then var v: int := Decimal(s[1..]); Some(-v) else None)
    else if s != "" && AllDigits(s) then Some(Decimal(s)) else None
  }

  lemma ParseIntText(t: int)
    ensures ParseInt(IntText(t)) == Some(t)
    ensures forall c :: c in IntText(t) ==> c == '-' || IsDigit(c)
  {
    if t < 0 {
      var s := IntText(t);
      assert s[0] == '-' && s[1..] == Digits(-t);
      assert forall c :: c in s ==> c == '-' || c in Digits(-t);
    } else {
      assert IsDigit(Digits(t)[0]);
    }
  }

  function Zeros(n: nat): (s: string)
    ensures |s| == n && AllDigits(s) && Decimal(s) == 0
  {
    if n == 0 then ""
    else
      var z := Zeros(n - 1);
      assert (z + "0")[..n - 1] == z;
      z + "0"
  }

  lemma {:induction false} DecimalPadded(z: string, s: string)
    requires AllDigits(z) && AllDigits(s) && Decimal(z) == 0
    ensures Decimal(z + s) == Decimal(s)
  {
    if s == "" {
      assert z + s == z;
    } else {
      var front := s[..|s| - 1];
      assert (z + s)[..|z + s| - 1] == z + front;
      DecimalPadded(z, front);
    }
  }

  /** A uid with at least eight digits. */
  function Pad8(uid: nat): (s: string)
    ensures AllDigits(s) && |s| >= 8 && Decimal(s) == uid
    ensures |s| > 8 ==> s == Digits(uid)
  {
    var d := Digits(uid);
    if |d| >= 8 then d
    else
      DecimalPadded(Zeros(8 - |d|), d);
      Zeros(8 - |d|) + d
  }

  // ---- the file name -------------------------------------------------------

  predicate SafeChar(c: char) {
    'A' <= c <= 'Z' || 'a' <= c <= 'z' || '0' <= c <= '9' || c == '.' || c == '_' || c == '-'
  }

  /** The mailbox name with other characters replaced, cut to 32. */
  function Safe(mailbox: string): (s: string)
    ensures forall i :: 0 <= i < |s| ==> SafeChar(s[i])
    ensures |s| == (if |mailbox| > 32 then 32 else |mailbox|)
    ensures forall i :: 0 <= i < |s| ==> s[i] == if SafeChar(mailbox[i]) then mailbox[i] else '_'
  {
    var all := seq(|mailbox|, i requires 0 <= i < |mailbox| => if SafeChar(mailbox[i]) then mailbox[i] else '_');
    if |all| > 32 then all[..32] else all
  }

  function FileName(t: int, uid: nat, mailbox: string, suffix: string): string {
    IntText(t) + "." + Pad8(uid) + "_" + Safe(mailbox) + ":2," + suffix
  }

  /** The time the restore reads from a name: before the first dot, None if it is no number. */
  function TimeOf(name: string): Option<int> {
    ParseInt(Cut(name, '.').0)
  }

  function UidOf(name: string): Option<int> {
    ParseInt(Cut(Cut(name, '.').1, '_').0)
  }

  /** The name gives back the time and the uid it was made from. */
  lemma NameParts(t: int, uid: nat, mailbox: string, suffix: string)
    ensures TimeOf(FileName(t, uid, mailbox, suffix)) == Some(t)
    ensures UidOf(FileName(t, uid, mailbox, suffix)) == Some(uid)
  {
    hide Cut, Digits, Decimal, Safe, ParseInt, IntText, Pad8;
    var tail := Safe(mailbox) + ":2," + suffix;
    var rest := Pad8(uid) + "_" + tail;
    assert FileName(t, uid, mailbox, suffix) == IntText(t) + ['.'] + rest;
    assert rest == Pad8(uid) + ['_'] + tail;
    ParseIntText(t);
    CutAt(IntText(t), '.', rest);
    assert forall c :: c in Pad8(uid) ==> IsDigit(c);
    CutAt(Pad8(uid), '_', tail);
    PadParses(uid);
  }

  lemma PadParses(uid: nat)
    ensures ParseInt(Pad8(uid)) == Some(uid)
  {
    hide Pad8, Decimal;
    assert IsDigit(Pad8(uid)[0]);
  }

  /** Two messages of a folder with different uids have different file names, whatever their
      times and flags. */
  lemma NamesDistinct(t1: int, uid1: nat, suffix1: string, t2: int, uid2: nat, suffix2: string, mailbox: string)
    requires FileName(t1, uid1, mailbox, suffix1) == FileName(t2, uid2, mailbox, suffix2)
    ensures uid1 == uid2 && t1 == t2
  {
    NameParts(t1, uid1, mailbox, suffix1);
    NameParts(t2, uid2, mailbox, suffix2);
  }

  // ---- flags in the name ---------------------------------------------------

  predicate Upper(s: string) {
    forall i :: 0 <= i < |s| ==> 'A' <= s[i] <= 'Z'
  }

  /** The letters after the first ":2," that is followed by capitals to the end. */
  function FlagPart(name: string): string {
    if |name| < 3 then ""
    else if name[..3] == ":2," && Upper(name[3..]) then name[3..]
    else FlagPart(name[1..])
  }

  lemma {:induction false} FlagPartAt(head: string, suffix: string)
    requires ':' !in head && Upper(suffix)
    ensures FlagPart(head + ":2," + suffix) == suffix
  {
    var s := head + ":2," + suffix;
    if head == "" {
      assert s[..3] == ":2," && s[3..] == suffix;
    } else {
      assert s[0] == head[0] && head[0] in head;
      assert s[..3][0] != ":2,"[0];
      assert s[1..] == head[1..] + ":2," + suffix;
      FlagPartAt(head[1..], suffix);
    }
  }

  function FlagsOfLetters(letters: string): set<Flag> {
    set i | 0 <= i < |letters| && FlagOf(letters[i]).Some? :: FlagOf(letters[i]).value
  }

  function MaildirFlags(name: string): set<Flag> {
    FlagsOfLetters(FlagPart(name))
  }

  /** `letters` are the letters of the system flags in `flags`, in some order. */
  ghost predicate SuffixOf(letters: string, flags: set<Flag>) {
    forall c :: c in letters <==> exists f :: f in flags && Letter(f) == Some(c)
  }

  lemma SuffixUpper(letters: string, flags: set<Flag>)
    requires SuffixOf(letters, flags)
    ensures Upper(letters)
  {
    forall i | 0 <= i < |letters| ensures 'A' <= letters[i] <= 'Z' {
      assert letters[i] in letters;
      var f :| f in flags && Letter(f) == Some(letters[i]);
    }
  }

  function SystemFlags(flags: set<Flag>): set<Flag> {
    set f | f in flags && Letter(f).Some?
  }

  lemma LettersBack(letters: string, flags: set<Flag>)
    requires SuffixOf(letters, flags)
    ensures FlagsOfLetters(letters) == SystemFlags(flags)
  {
    hide Letter, FlagOf;
    forall f | f in FlagsOfLetters(letters) ensures f in SystemFlags(flags) {
      var i :| 0 <= i < |letters| && FlagOf(letters[i]) == Some(f);
      assert letters[i] in letters;
      var g :| g in flags && Letter(g) == Some(letters[i]);
      LetterInverse(g, letters[i]);
    }
    forall f | f in SystemFlags(flags) ensures f in FlagsOfLetters(letters) {
      var c := Letter(f).value;
      assert c in letters;
      var i :| 0 <= i < |letters| && letters[i] == c;
      LetterInverse(f, c);
    }
  }

  lemma NameFlags(t: int, uid: nat, mailbox: string, letters: string, flags: set<Flag>)
    requires SuffixOf(letters, flags)
    ensures MaildirFlags(FileName(t, uid, mailbox, letters)) == SystemFlags(flags)
  {
    hide FlagPart, Digits, Decimal, Safe, IntText, Pad8, FlagsOfLetters;
    var head := IntText(t) + "." + Pad8(uid) + "_" + Safe(mailbox);
    ParseIntText(t);
    assert ':' !in head by {
      assert forall c :: c in Pad8(uid) ==> IsDigit(c);
      assert forall c :: c in Safe(mailbox) ==> SafeChar(c);
    }
    SuffixUpper(letters, flags);
    FlagPartAt(head, letters);
    LettersBack(letters, flags);
  }

  // ---- the path ------------------------------------------------------------

  /** A character that a directory name keeps; other ones become '_'. */
  predicate DirChar(c: char) {
    SafeChar(c) || c == '@'
  }

  function DirName(name: string): (s: string)
    ensures |s| == |name| && forall i :: 0 <= i < |s| ==> s[i] == if DirChar(name[i]) then name[i] else '_'
    ensures '/' !in s
  {
    seq(|name|, i requires 0 <= i < |name| => if DirChar(name[i]) then name[i] else '_')
  }

  /** os.path.join of two parts, the second not absolute. */
  function Join(a: string, b: string): string {
    Slashed(a) + b
  }

  function Slashed(a: string): string {
    if a == "" || a[|a| - 1] == '/' then a else a + "/"
  }

  /** Where a message of an account goes. */
  function MessagePath(base: string, folder: string, t: int, uid: nat, letters: string): string {
    Join(Join(Join(base, DirName(folder)), "cur"), FileName(t, uid, folder, letters))
  }

  /** The same, part by part. */
  lemma PathParts(base: string, folder: string, t: int, uid: nat, letters: string)
    ensures MessagePath(base, folder, t, uid, letters) ==
            Slashed(base) + (Slashed(DirName(folder)) + "cur/" + FileName(t, uid, folder, letters))
  {
    hide FileName, DirName, Slashed;
    var dir := DirName(folder);
    SlashedJoin(base, dir);
    SlashedJoin(Join(base, dir), "cur");
    assert Slashed("cur") == "cur/" by { SlashedCur(); }
    var name := FileName(t, uid, folder, letters);
    assert (Slashed(base) + Slashed(dir)) + "cur/" + name == Slashed(base) + (Slashed(dir) + "cur/" + name);
  }

  lemma SlashedCur()
    ensures Slashed("cur") == "cur/"
  {
  }

  lemma SlashedJoin(a: string, b: string)
    requires '/' !in b
    ensures Slashed(Join(a, b)) == Slashed(a) + Slashed(b)
  {
    if b == "" {
      assert Join(a, b) == Slashed(a) && Slashed(Slashed(a)) == Slashed(a);
    } else {
      assert b[|b| - 1] in b;
      assert Join(a, b)[|Join(a, b)| - 1] == b[|b| - 1];
      assert Slashed(a) + b + "/" == Slashed(a) + (b + "/");
    }
  }

  lemma NoSlash(t: int, uid: nat, folder: string, letters: string)
    requires Upper(letters)
    ensures '/' !in FileName(t, uid, folder, letters)
  {
    hide Digits, Decimal, Safe, IntText, Pad8;
    ParseIntText(t);
    assert forall c :: c in Pad8(uid) ==> IsDigit(c);
    assert forall c :: c in Safe(folder) ==> SafeChar(c);
    assert forall c :: c in letters ==> 'A' <= c <= 'Z';
  }

  /** A directory below a folder's and a name in it tell both apart. */
  lemma DirAndName(d1: string, n1: string, d2: string, n2: string)
    requires '/' !in d1 && '/' !in d2 && '/' !in n1 && '/' !in n2
    requires Slashed(d1) + "cur/" + n1 == Slashed(d2) + "cur/" + n2
    ensures d1 == d2 && n1 == n2
  {
    hide Cut;
    FirstDir(d1, n1);
    FirstDir(d2, n2);
    CutAt("cur", '/', n1);
    CutAt("cur", '/', n2);
    assert "cur/" + n1 == "cur" + ['/'] + n1 && "cur/" + n2 == "cur" + ['/'] + n2;
    assert ("cur/" + n1)[3] == '/' && ("cur/" + n2)[3] == '/';
  }

  lemma FirstDir(d: string, n: string)
    requires '/' !in d
    ensures d != "" ==> Cut(Slashed(d) + "cur/" + n, '/') == (d, "cur/" + n)
    ensures d == "" ==> Slashed(d) + "cur/" + n == "cur/" + n
  {
    hide Cut;
    if d != "" {
      assert d[|d| - 1] in d;
      CutAt(d, '/', "cur/" + n);
      assert Slashed(d) + "cur/" + n == d + ['/'] + ("cur/" + n);
    }
  }

  /** Folders with one directory have one name part in their messages' file names. */
  lemma SameDirSameSafe(a: string, b: string)
    requires DirName(a) == DirName(b)
    ensures Safe(a) == Safe(b)
  {
    forall i | 0 <= i < |a|
      ensures (if SafeChar(a[i]) then a[i] else '_') == if SafeChar(b[i]) then b[i] else '_'
    {
      assert DirName(a)[i] == DirName(b)[i];
    }
  }

  /** When two messages of an account end up in one file, the later over the earlier: exactly when
      their folders' directories, their times, their uids and their letters agree. The part of the
      folder's name in the file name makes no difference. */
  lemma SharedPathIff(base: string, folder1: string, t1: int, uid1: nat, letters1: string,
                      folder2: string, t2: int, uid2: nat, letters2: string)
    requires Upper(letters1) && Upper(letters2)
    ensures MessagePath(base, folder1, t1, uid1, letters1) == MessagePath(base, folder2, t2, uid2, letters2) <==>
            DirName(folder1) == DirName(folder2) && t1 == t2 && uid1 == uid2 && letters1 == letters2
  {
    hide FileName, Slashed, MessagePath, DirName, TimeOf, UidOf;
    PathParts(base, folder1, t1, uid1, letters1);
    PathParts(base, folder2, t2, uid2, letters2);
    var n1, n2 := FileName(t1, uid1, folder1, letters1), FileName(t2, uid2, folder2, letters2);
    var rest1, rest2 := Slashed(DirName(folder1)) + "cur/" + n1, Slashed(DirName(folder2)) + "cur/" + n2;
    if MessagePath(base, folder1, t1, uid1, letters1) == MessagePath(base, folder2, t2, uid2, letters2) {
      SamePrefix(Slashed(base), rest1, rest2);
      NoSlash(t1, uid1, folder1, letters1);
      NoSlash(t2, uid2, folder2, letters2);
      DirAndName(DirName(folder1), n1, DirName(folder2), n2);
      NameParts(t1, uid1, folder1, letters1);
      NameParts(t2, uid2, folder2, letters2);
      SameDirSameSafe(folder1, folder2);
      SameLetters(t1, uid1, folder1, letters1, folder2, letters2);
    } else if DirName(folder1) == DirName(folder2) && t1 == t2 && uid1 == uid2 && letters1 == letters2 {
      SameDirSameSafe(folder1, folder2);
      SameLetters(t1, uid1, folder1, letters1, folder2, letters2);
    }
  }

  lemma SamePrefix(a: string, x: string, y: string)
    requires a + x == a + y
    ensures x == y
  {
    assert (a + x)[|a|..] == x && (a + y)[|a|..] == y;
  }

  lemma SameLetters(t: int, uid: nat, folder1: string, letters1: string, folder2: string, letters2: string)
    requires Safe(folder1) == Safe(folder2)
    ensures FileName(t, uid, folder1, letters1) == FileName(t, uid, folder2, letters2) <==> letters1 == letters2
  {
    hide Safe, IntText, Pad8;
    var head := IntText(t) + "." + Pad8(uid) + "_" + Safe(folder1) + ":2,";
    if FileName(t, uid, folder1, letters1) == FileName(t, uid, folder2, letters2) {
      SamePrefix(head, letters1, letters2);
    }
  }

  /** Two folders share a directory exactly when their names differ only where neither has a
      character that is kept, an underscore aside. */
  lemma SharedDirIff(a: string, b: string)
    ensures DirName(a) == DirName(b) <==>
            && |a| == |b|
            && forall i :: 0 <= i < |a| ==> a[i] == b[i] || ((!DirChar(a[i]) || a[i] == '_') && (!DirChar(b[i]) || b[i] == '_'))
  {
    if DirName(a) == DirName(b) {
      assert |a| == |b|;
      forall i | 0 <= i < |a|
        ensures a[i] == b[i] || ((!DirChar(a[i]) || a[i] == '_') && (!DirChar(b[i]) || b[i] == '_'))
      {
        assert DirName(a)[i] == DirName(b)[i];
      }
    }
  }

  /** Such folders can exist side by side, and a message of one then replaces one of the other. */
  lemma MergedFolders(base: string, t: int, uid: nat, letters: string)
    requires Upper(letters)
    ensures MessagePath(base, "A/B", t, uid, letters) == MessagePath(base, "A_B", t, uid, letters)
  {
    SharedDirIff("A/B", "A_B");
    SharedPathIff(base, "A/B", t, uid, letters, "A_B", t, uid, letters);
  }

  // ---- the keyword sidecar -------------------------------------------------

  /** A keyword: an atom, so not empty and without blanks. */
  predicate IsAtom(s: string) {
    s != "" && forall i :: 0 <= i < |s| ==> !IsSpace(s[i])
  }

  /** The sidecar's text: one keyword per line. */
  function Sidecar(lines: seq<string>): string {
    if lines == [] then "" else lines[0] + "\n" + Sidecar(lines[1..])
  }

  lemma {:induction false} SidecarLines(lines: seq<string>)
    requires forall k :: k in lines ==> IsAtom(k)
    ensures Lines(Sidecar(lines)) == lines
  {
    if lines != [] {
      var k, rest := lines[0], lines[1..];
      assert IsAtom(k);
      CutAt(k, '\n', Sidecar(rest));
      assert Sidecar(lines) == k + ['\n'] + Sidecar(rest);
      SidecarLines(rest);
      assert lines == [k] + rest;
    }
  }

  /** What the restore takes from the sidecar's lines: not the blank ones, not the comments. */
  function KeywordsIn(lines: seq<string>): set<string> {
    set i | 0 <= i < |lines| && TrimRight(TrimLeft(lines[i])) != "" && !("#" <= lines[i]) ::
      TrimRight(TrimLeft(lines[i]))
  }

  function ReadSidecar(text: string): set<string> {
    KeywordsIn(Lines(text))
  }

  predicate IsComment(k: string) {
    "#" <= k
  }

  lemma SidecarBack(lines: seq<string>)
    requires forall k :: k in lines ==> IsAtom(k)
    ensures ReadSidecar(Sidecar(lines)) == set k | k in lines && !IsComment(k)
  {
    hide Lines, Sidecar;
    SidecarLines(lines);
    forall k | k in lines ensures TrimRight(TrimLeft(k)) == k {
      assert IsAtom(k);
    }
    forall k | k in lines && !IsComment(k) ensures k in KeywordsIn(lines) {
      var i :| 0 <= i < |lines| && lines[i] == k;
    }
    forall k | k in KeywordsIn(lines) ensures k in lines && !IsComment(k) {
      var i :| 0 <= i < |lines| && TrimRight(TrimLeft(lines[i])) == k && !("#" <= lines[i]);
      assert lines[i] in lines;
    }
  }

  // ---- the whole round trip ------------------------------------------------

  function Keywords(flags: set<Flag>): set<Flag> {
    set f | f in flags && Letter(f).None? && f != "\\Recent"
  }

  /** Capture under any time and uid, with the letters and the sidecar lines in any order, and
      read back: the time, and the flags without \Recent and without the keywords that look like
      comments, exactly those. A missing sidecar stands for an empty one. */
  lemma CaptureRoundTrip(t: int, uid: nat, mailbox: string, flags: set<Flag>, letters: string, lines: seq<string>)
    requires SuffixOf(letters, flags)
    requires forall k :: k in lines <==> k in Keywords(flags)
    requires forall k :: k in Keywords(flags) ==> IsAtom(k)
    ensures var name := FileName(t, uid, mailbox, letters);
            && TimeOf(name) == Some(t)
            && MaildirFlags(name) + ReadSidecar(Sidecar(lines)) ==
               set f | f in flags && f != "\\Recent" && !(Letter(f).None? && IsComment(f))
    ensures (forall k :: k in Keywords(flags) ==> !IsComment(k)) <==>
            MaildirFlags(FileName(t, uid, mailbox, letters)) + ReadSidecar(Sidecar(lines)) == flags - {"\\Recent"}
  {
    hide Letter, ReadSidecar, MaildirFlags, TimeOf, FileName, Sidecar, IsAtom;
    NameParts(t, uid, mailbox, letters);
    NameFlags(t, uid, mailbox, letters, flags);
    SidecarBack(lines);
    RecentIsNoSystemFlag();
    var back := MaildirFlags(FileName(t, uid, mailbox, letters)) + ReadSidecar(Sidecar(lines));
    assert back == set f | f in flags && f != "\\Recent" && !(Letter(f).None? && IsComment(f));
    if back == flags - {"\\Recent"} {
      forall k | k in Keywords(flags) ensures !IsComment(k) {
        assert k in back;
      }
    }
  }

  lemma RecentIsNoSystemFlag()
    ensures Letter("\\Recent").None?
  {
    assert "\\Recent"[1] == 'R' && "\\Answered"[1] == 'A' && "\\Deleted"[1] == 'D';
    assert "\\Seen"[1] == 'S' && "\\Flagged"[1] == 'F' && "\\Draft"[1] == 'D';
  }
}
