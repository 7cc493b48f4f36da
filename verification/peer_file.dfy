/**
 What the boot-restore file says to a reader: the lines that add elements, by the name of the set.
 The reader knows nothing of how the file is written.
 */
module PeerFile {
  import opened Prelude
  import opened TextParts
  import opened PeerPersister
  import StringOrder

  // ---- the reader ----------------------------------------------------------

  const ADD := "add element inet filter "

  /** The texts between commas, each without the blank after its comma. */
  function Members(text: string): seq<string>
    decreases |text|
  {
    if ',' !in text then [text]
    else
      var r := Cut(text, ',');
      assert |r.1| < |text| by { CutShorter(text, ','); }
      [r.0] + Members(if " " <= r.1 then r.1[1..] else r.1)
  }

  /** The set and the members of a line `add element inet filter NAME { m1, .., mk }`. */
  function ElementLine(line: string): Option<(string, seq<string>)> {
    if !(ADD <= line) then None
    else
      var r := Cut(line[|ADD|..], ' ');
      var n := |r.1|;
      if n >= 4 && r.1[..2] == "{ " && r.1[n - 2..] == " }" then Some((r.0, Members(r.1[2..n - 2]))) else None
  }

  /** What the lines add to a set. */
  function AddedTo(lines: seq<string>, name: string): multiset<string> {
    if lines == [] then multiset{}
    else
      var e := ElementLine(lines[0]);
      (if e.Some? && e.value.0 == name then multiset(e.value.1) else multiset{}) + AddedTo(lines[1..], name)
  }

  function Loaded(text: string, name: string): multiset<string> {
    AddedTo(Lines(text), name)
  }

  // ---- the file says what was asked for ------------------------------------

  /** A member as addresses and prefixes are: without a comma or a line end. */
  predicate OneMember(m: string) {
    ',' !in m && '\n' !in m
  }

  ghost predicate AllMembers(members: seq<string>) {
    forall m :: m in members ==> OneMember(m)
  }

  ghost predicate Readable(s: PeerSets) {
    AllMembers(s.peersV4) && AllMembers(s.peersV6) && AllMembers(s.trustedV4) && AllMembers(s.trustedV6)
  }

  lemma {:induction false} MembersOfJoin(members: seq<string>)
    requires members != [] && AllMembers(members)
    ensures Members(Join(members)) == members && '\n' !in Join(members)
  {
    hide Cut;
    var first, rest := members[0], members[1..];
    assert first in members;
    if |members| == 1 {
      assert Join(members) == first;
    } else {
      MembersOfJoin(rest);
      var text := Join(members);
      assert text == first + [','] + (" " + Join(rest));
      CutAt(first, ',', " " + Join(rest));
      assert ',' in text && (" " + Join(rest))[1..] == Join(rest);
      assert members == [first] + rest;
    }
  }

  /** One line of the file, and what it is read as. */
  function SetLine(name: string, members: seq<string>): string {
    ADD + name + " { " + Join(StringOrder.Sort(members)) + " }"
  }

  lemma LineRead(name: string, members: seq<string>)
    requires members != [] && AllMembers(members) && ' ' !in name && '\n' !in name
    ensures RenderSet(name, members) == SetLine(name, members) + "\n" && '\n' !in SetLine(name, members)
    ensures ElementLine(SetLine(name, members)) == Some((name, StringOrder.Sort(members)))
  {
    hide Cut, Members, StringOrder.Sort, Join;
    var sorted := StringOrder.Sort(members);
    SortedMembers(members);
    MembersOfJoin(sorted);
    var inner := Join(sorted);
    var body := "{ " + inner + " }";
    var line := SetLine(name, members);
    assert line == ADD + (name + [' '] + body);
    assert line[|ADD|..] == name + [' '] + body;
    CutAt(name, ' ', body);
    assert body[..2] == "{ " && body[|body| - 2..] == " }" && body[2..|body| - 2] == inner;
    assert RenderSet(name, members) == line + "\n";
    NoLineEnd(name, inner);
  }

  lemma NoLineEnd(name: string, inner: string)
    requires '\n' !in name && '\n' !in inner
    ensures '\n' !in ADD + name + " { " + inner + " }"
  {
    assert '\n' !in ADD && '\n' !in " { " && '\n' !in " }";
  }

  lemma SortedMembers(members: seq<string>)
    requires AllMembers(members) && members != []
    ensures AllMembers(StringOrder.Sort(members)) && StringOrder.Sort(members) != []
    ensures multiset(StringOrder.Sort(members)) == multiset(members)
  {
    hide StringOrder.Sort, OneMember;
    var sorted := StringOrder.Sort(members);
    StringOrder.SortSorted(members);
    assert |multiset(sorted)| == |sorted| && |multiset(members)| == |members|;
    forall m | m in sorted ensures OneMember(m) {
      assert m in multiset(sorted);
      assert m in multiset(members);
    }
  }

  /** A set's part of the file, in front of the rest. */
  lemma PartSays(name: string, members: seq<string>, rest: string, asked: string)
    requires AllMembers(members) && ' ' !in name && '\n' !in name
    ensures Loaded(RenderSet(name, members) + rest, asked) ==
            (if asked == name then multiset(members) else multiset{}) + Loaded(rest, asked)
  {
    hide Lines, ElementLine, StringOrder.Sort, Join;
    if members == [] {
      assert RenderSet(name, members) + rest == rest;
    } else {
      LineRead(name, members);
      SortedMembers(members);
      LinesFirst(SetLine(name, members), rest);
      LoadedFirst(SetLine(name, members), rest, asked);
    }
  }

  lemma LoadedFirst(line: string, rest: string, asked: string)
    requires '\n' !in line
    ensures var e := ElementLine(line);
            Loaded(line + "\n" + rest, asked) ==
            (if e.Some? && e.value.0 == asked then multiset(e.value.1) else multiset{}) + Loaded(rest, asked)
  {
    hide Lines, ElementLine;
    LinesFirst(line, rest);
    assert ([line] + Lines(rest))[1..] == Lines(rest);
  }

  /** Comments add nothing. */
  lemma CommentSays(line: string, rest: string, asked: string)
    requires line != "" && line[0] == '#' && '\n' !in line
    ensures Loaded(line + "\n" + rest, asked) == Loaded(rest, asked)
  {
    hide Lines;
    assert ADD[0] == 'a';
    LoadedFirst(line, rest, asked);
  }

  lemma HeaderSays(rest: string, asked: string)
    ensures Loaded(HEADER + rest, asked) == Loaded(rest, asked)
  {
    hide Loaded;
    var a, b, c := COMMENT_1, COMMENT_2, COMMENT_3;
    CommentsPlain();
    CommentSays(c, rest, asked);
    CommentSays(b, c + "\n" + rest, asked);
    CommentSays(a, b + "\n" + (c + "\n" + rest), asked);
    assert HEADER + rest == a + "\n" + (b + "\n" + (c + "\n" + rest));
  }

  lemma CommentsPlain()
    ensures COMMENT_1[0] == COMMENT_2[0] == COMMENT_3[0] == '#'
    ensures '\n' !in COMMENT_1 && '\n' !in COMMENT_2 && '\n' !in COMMENT_3
  {
    assert '\n' !in "# Generated " && '\n' !in "by firewall-" && '\n' !in "reconciler. " && '\n' !in "Do not edit.";
    SecondComment();
    ThirdComment();
  }

  lemma SecondComment()
    ensures COMMENT_2[0] == '#' && '\n' !in COMMENT_2
  {
    assert '\n' !in "# Last-known" && '\n' !in "-good set me" && '\n' !in "mbers, repla";
    assert '\n' !in "yed at boot " && '\n' !in "so a reboote" && '\n' !in "d node";
  }

  lemma ThirdComment()
    ensures COMMENT_3[0] == '#' && '\n' !in COMMENT_3
  {
    assert '\n' !in "# can reach " && '\n' !in "its peers be" && '\n' !in "fore the clu";
    assert '\n' !in "ster is reac" && '\n' !in "hable.";
  }

  /** The file adds to each of the four sets, under its name, exactly its members, each as often as
      it was given, and to no other set anything. */
  lemma FileSays(s: PeerSets, name: string)
    requires Readable(s)
    ensures Loaded(Render(s), name) ==
            if name == "cluster_peers_v4" then multiset(s.peersV4)
            else if name == "cluster_peers_v6" then multiset(s.peersV6)
            else if name == "trusted_ranges_v4" then multiset(s.trustedV4)
            else if name == "trusted_ranges_v6" then multiset(s.trustedV6)
            else multiset{}
  {
    hide Loaded, RenderSet;
    var n1, n2, n3, n4 := "cluster_peers_v4", "cluster_peers_v6", "trusted_ranges_v4", "trusted_ranges_v6";
    NamesApart();
    var p1, p2, p3, p4 :=
      RenderSet(n1, s.peersV4), RenderSet(n2, s.peersV6), RenderSet(n3, s.trustedV4), RenderSet(n4, s.trustedV6);
    assert Loaded("", name) == multiset{} by { EmptyFile(name); }
    PartSays(n4, s.trustedV6, "", name);
    PartSays(n3, s.trustedV4, p4 + "", name);
    PartSays(n2, s.peersV6, p3 + (p4 + ""), name);
    PartSays(n1, s.peersV4, p2 + (p3 + (p4 + "")), name);
    HeaderSays(p1 + (p2 + (p3 + (p4 + ""))), name);
    assert Render(s) == HEADER + (p1 + (p2 + (p3 + (p4 + ""))));
  }

  lemma EmptyFile(name: string)
    ensures Loaded("", name) == multiset{}
  {
  }

  lemma NamesApart()
    ensures ' ' !in "cluster_peers_v4" && ' ' !in "cluster_peers_v6" && ' ' !in "trusted_ranges_v4" && ' ' !in "trusted_ranges_v6"
    ensures '\n' !in "cluster_peers_v4" && '\n' !in "cluster_peers_v6"
    ensures '\n' !in "trusted_ranges_v4" && '\n' !in "trusted_ranges_v6"
    ensures "cluster_peers_v4" != "cluster_peers_v6" && "trusted_ranges_v4" != "trusted_ranges_v6"
    ensures "cluster_peers_v4" != "trusted_ranges_v4" && "cluster_peers_v4" != "trusted_ranges_v6"
    ensures "cluster_peers_v6" != "trusted_ranges_v4" && "cluster_peers_v6" != "trusted_ranges_v6"
  {
    assert "cluster_peers_v4"[15] == '4' && "cluster_peers_v6"[15] == '6';
    assert "trusted_ranges_v4"[16] == '4' && "trusted_ranges_v6"[16] == '6';
    assert "cluster_peers_v4"[0] == 'c' && "cluster_peers_v6"[0] == 'c';
    assert "trusted_ranges_v4"[0] == 't' && "trusted_ranges_v6"[0] == 't';
  }

  /** So a file tells its sets: two that are rendered alike have the same members. */
  lemma SameFileSameMembers(a: PeerSets, b: PeerSets)
    requires Readable(a) && Readable(b) && Render(a) == Render(b)
    ensures SameMembers(a, b)
  {
    hide Render, Loaded, Readable;
    NamesApart();
    FileSays(a, "cluster_peers_v4");
    FileSays(b, "cluster_peers_v4");
    FileSays(a, "cluster_peers_v6");
    FileSays(b, "cluster_peers_v6");
    FileSays(a, "trusted_ranges_v4");
    FileSays(b, "trusted_ranges_v4");
    FileSays(a, "trusted_ranges_v6");
    FileSays(b, "trusted_ranges_v6");
  }
}
