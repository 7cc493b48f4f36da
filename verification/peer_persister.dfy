/**
 The boot-restore file of the peer and trusted sets: rendering it, and replacing it so
 that a power cut at any moment leaves a whole file.
 */
module PeerPersister {
  import opened Prelude
  import opened BootFileSystem
  import opened PersistCalls
  import StringOrder

  // ---- rendering -----------------------------------------------------------

  datatype PeerSets = PeerSets(peersV4: seq<string>, peersV6: seq<string>, trustedV4: seq<string>, trustedV6: seq<string>)

  const COMMENT_1 := "# Generated " + "by firewall-" + "reconciler. " + "Do not edit."
  const COMMENT_2 := "# Last-known" + "-good set me" + "mbers, repla" + "yed at boot " + "so a reboote" + "d node"
  const COMMENT_3 := "# can reach " + "its peers be" + "fore the clu" + "ster is reac" + "hable."

  const HEADER := COMMENT_1 + "\n" + COMMENT_2 + "\n" + COMMENT_3 + "\n"

  function Join(s: seq<string>): string {
    if s == [] then "" else if |s| == 1 then s[0] else s[0] + ", " + Join(s[1..])
  }

  function RenderSet(name: string, members: seq<string>): string {
    if members == [] then ""
    else "add element inet filter " + name + " { " + Join(StringOrder.Sort(members)) + " }\n"
  }

  function Render(s: PeerSets): Content {
    HEADER
    + RenderSet("cluster_peers_v4", s.peersV4) + RenderSet("cluster_peers_v6", s.peersV6)
    + RenderSet("trusted_ranges_v4", s.trustedV4) + RenderSet("trusted_ranges_v6", s.trustedV6)
  }

  ghost predicate SameMembers(a: PeerSets, b: PeerSets) {
    && multiset(a.peersV4) == multiset(b.peersV4) && multiset(a.peersV6) == multiset(b.peersV6)
    && multiset(a.trustedV4) == multiset(b.trustedV4) && multiset(a.trustedV6) == multiset(b.trustedV6)
  }

  lemma RenderSetIgnoresOrder(name: string, a: seq<string>, b: seq<string>)
    requires multiset(a) == multiset(b)
    ensures RenderSet(name, a) == RenderSet(name, b)
  {
    assert |multiset(a)| == |a| && |multiset(b)| == |b|;
    StringOrder.SortIgnoresOrder(a, b);
  }

  /** The file depends on the members of the sets, not on the order they come in. */
  lemma RenderIgnoresOrder(a: PeerSets, b: PeerSets)
    requires SameMembers(a, b)
    ensures Render(a) == Render(b)
  {
    RenderSetIgnoresOrder("cluster_peers_v4", a.peersV4, b.peersV4);
    RenderSetIgnoresOrder("cluster_peers_v6", a.peersV6, b.peersV6);
    RenderSetIgnoresOrder("trusted_ranges_v4", a.trustedV4, b.trustedV4);
    RenderSetIgnoresOrder("trusted_ranges_v6", a.trustedV6, b.trustedV6);
  }

  // ---- the run in which success does not mean durable -----------------------

  /** Every system call succeeds, but the directory sync only if `settles`. */
  function AllButDirectory(settles: bool): Outcomes {
    Outcomes(true, true, true, true, "", true, true, true, true, true, settles)
  }

  /** With no file and nothing synced yet: persist `a`; replace it by `b`, where the directory
      sync fails; ask for `a` again, where it fails again; ask for `a` once more. */
  function BackAndForth(a: PeerSets, b: PeerSets): seq<Call> {
    [Call(Render(a), AllButDirectory(true)), Call(Render(b), AllButDirectory(false)),
     Call(Render(a), AllButDirectory(false)), Call(Render(a), AllButDirectory(true))]
  }

  lemma ExecSnoc(fs: Fs, ops: seq<Op>, op: Op)
    ensures Exec(fs, ops + [op]) == Do(Exec(fs, ops), op) && Exec(fs, []) == fs
  {
    assert Front(ops + [op]) == ops;
  }

  lemma ExecReplace(fs: Fs, c: Content)
    ensures var written := WriteTmp(OpenTmp(fs), c);
            Exec(fs, [Open, Write(c), SyncTmp, Rename]) == RenameTmp(SyncInode(written, written.tmp))
  {
    hide Exec, OpenTmp, WriteTmp, SyncInode, RenameTmp;
    ExecSnoc(fs, [], Open);
    ExecSnoc(fs, [Open], Write(c));
    ExecSnoc(fs, [Open, Write(c)], SyncTmp);
    ExecSnoc(fs, [Open, Write(c), SyncTmp], Rename);
    assert [] + [Open] == [Open] && [Open] + [Write(c)] == [Open, Write(c)];
    assert [Open, Write(c)] + [SyncTmp] == [Open, Write(c), SyncTmp];
    assert [Open, Write(c), SyncTmp] + [Rename] == [Open, Write(c), SyncTmp, Rename];
  }

  /** A replace in which nothing is written back. */
  lemma Replaced(fs: Fs, c: Content)
    requires fs.tmp.None?
    ensures Exec(fs, [Open, Write(c), SyncTmp, Rename]) ==
            Fs(fs.inodes[fs.next := Inode(c, c, true)], fs.next + 1, fs.entries + [Some(fs.next)], None)
  {
    hide Exec;
    ExecReplace(fs, c);
    var blank := OpenTmp(fs);
    assert blank == Fs(fs.inodes[fs.next := Inode("", "", false)], fs.next + 1, fs.entries, Some(fs.next));
    var written := WriteTmp(blank, c);
    assert written.inodes == fs.inodes[fs.next := Inode(c, "", false)];
    assert SyncInode(written, written.tmp).inodes == fs.inodes[fs.next := Inode(c, c, true)];
  }

  /** The fourth call finds `a` in place and last synced and reports success, with the disk
      at `b`. */
  lemma TwoFailedDirectorySyncs(a: PeerSets, b: PeerSets) returns (start: Fs, end: State)
    requires Render(a) != Render(b)
    ensures WellFormed(start) && VisibleContent(start) == None
    ensures Run(State(None, start), BackAndForth(a, b), [true, false, false, true], end)
    ensures end.fs.entries != [] && VisibleContent(end.fs) == Some(Render(a)) && AtBoot(end.fs) == Some(Render(b))
  {
    hide Render, Exec, Path, Run;
    var x, y := Render(a), Render(b);
    var good, bad := AllButDirectory(true), AllButDirectory(false);
    start := Fs(map[], 0, [None], None);
    var s0 := State(None, start);
    var s1 := State(Some(x), Fs(map[0 := Inode(x, x, true)], 1, [Some(0)], None));
    var s2 := State(Some(x), Fs(map[0 := Inode(x, x, true), 1 := Inode(y, y, true)], 2, [Some(0), Some(1)], None));
    var s3 := State(Some(x), Fs(map[0 := Inode(x, x, true), 1 := Inode(y, y, true), 2 := Inode(x, x, true)], 3,
                                [Some(0), Some(1), Some(2)], None));
    end := State(Some(x), s3.fs.(entries := [Some(1), Some(2)]));
    ReplaceStep(s0, x, good, s1);
    ReplaceStep(s1, y, bad, s2);
    ReplaceStep(s2, x, bad, s3);
    assert CallStep(s3, Call(x, good), true, end) by {
      assert s3.fs.entries[1..] == [Some(1), Some(2)];
      EmptyPath(s3.fs, end.fs);
    }
    FourCalls(s0, Call(x, good), s1, Call(y, bad), s2, Call(x, bad), s3, Call(x, good), end);
  }

  lemma EmptyPath(a: Fs, b: Fs)
    requires Background(a, b)
    ensures Path(a, [], b)
  {
  }

  /** A call that replaces the file, with no write-back. */
  lemma ReplaceStep(s: State, c: Content, o: Outcomes, s': State)
    requires s.fs.entries != [] && s.fs.tmp.None? && VisibleContent(s.fs) != Some(c)
    requires o == AllButDirectory(o.syncDir)
    requires var entries := s.fs.entries + [Some(s.fs.next)];
             s' == State(if o.syncDir then Some(c) else s.synced,
                         Fs(s.fs.inodes[s.fs.next := Inode(c, c, true)], s.fs.next + 1,
                            if o.syncDir then [Some(s.fs.next)] else entries, None))
    ensures CallStep(s, Call(c, o), o.syncDir, s')
  {
    hide Path;
    var ops := [Open, Write(c), SyncTmp, Rename];
    Replaced(s.fs, c);
    ExecPath(s.fs, ops);
    if o.syncDir {
      PathDo(s.fs, ops, Exec(s.fs, ops), Op.SyncDirectory);
      assert [Open, Write(c), SyncTmp] + [Rename] + [Op.SyncDirectory] == ops + [Op.SyncDirectory];
    } else {
      assert [Open, Write(c), SyncTmp] + [Rename] + [] == ops;
    }
  }

  lemma FourCalls(s0: State, c1: Call, s1: State, c2: Call, s2: State, c3: Call, s3: State, c4: Call, s4: State)
    requires CallStep(s0, c1, true, s1) && CallStep(s1, c2, false, s2)
    requires CallStep(s2, c3, false, s3) && CallStep(s3, c4, true, s4)
    ensures Run(s0, [c1, c2, c3, c4], [true, false, false, true], s4)
  {
    hide CallStep, Run;
    NoCalls(s0);
    RunSnoc(s0, [], [], s0, c1, true, s1);
    assert [] + [c1] == [c1] && [] + [true] == [true];
    RunSnoc(s0, [c1], [true], s1, c2, false, s2);
    assert [c1] + [c2] == [c1, c2] && [true] + [false] == [true, false];
    RunSnoc(s0, [c1, c2], [true, false], s2, c3, false, s3);
    assert [c1, c2] + [c3] == [c1, c2, c3] && [true, false] + [false] == [true, false, false];
    RunSnoc(s0, [c1, c2, c3], [true, false, false], s3, c4, true, s4);
    assert [c1, c2, c3] + [c4] == [c1, c2, c3, c4] && [true, false, false] + [true] == [true, false, false, true];
  }

  lemma NoCalls(s: State)
    ensures Run(s, [], [], s)
  {
  }

  // ---- persisting ----------------------------------------------------------

  lemma BackgroundKeeps(a: Fs, b: Fs)
    requires Background(a, b)
    ensures b.tmp == a.tmp
    ensures forall c :: TmpHas(a, c) ==> TmpHas(b, c)
    ensures forall e, c :: Holds(a, e, c) ==> Holds(b, e, c)
  {
  }

  lemma OnlyEntry(fs: Fs, want: Content)
    requires fs.entries != [] && fs.entries == [Visible(fs)] && Holds(fs, Visible(fs), want)
    ensures Durable(fs, want) && VisibleContent(fs) == Some(want)
  {
  }

  lemma OneEntryStays(a: Fs, b: Fs)
    requires a.entries != [] && |a.entries| == 1 && Background(a, b)
    ensures b.entries != [] && b.entries == [Visible(b)]
  {
    assert |b.entries| == 1;
  }

  class Persister {
    var synced: Option<Content>
    var fs: Fs
    ghost const start: Fs
    // Every content asked for, every file-system state passed through, and every call with
    // its result, so far.
    ghost var asked: set<Content>
    ghost var trace: seq<Fs>
    ghost var calls: seq<Call>
    ghost var results: seq<bool>

    ghost predicate Valid()
      reads this
    {
      && fs.entries != [] && Sound(fs, start, asked)
      && trace != [] && trace[|trace| - 1] == fs
      && (forall t :: t in trace ==> Sound(t, start, asked))
    }

    /** The calls so far are a run that ends in the present state. */
    ghost predicate Recorded()
      reads this
    {
      |results| == |calls| && Run(State(None, start), calls, results, State(synced, fs))
    }

    constructor (fs: Fs)
      requires WellFormed(fs)
      ensures Valid() && Recorded() && synced.None? && calls == []
      ensures this.fs == fs && start == fs && asked == {} && trace == [fs]
    {
      synced, this.fs, start := None, fs, fs;
      asked, trace := {}, [fs];
      calls, results := [], [];
    }

    /** Whenever the power was cut so far, the boot reads a whole file. */
    lemma EveryCrashBootsWhole(i: nat)
      requires Valid() && i < |trace|
      ensures trace[i].entries != [] && BootsWhole(trace[i], start, asked)
    {
      SoundBootsWhole(trace[i], start, asked);
    }

    /** The file system moves to `next`. */
    method Move(next: Fs)
      requires Valid() && next.entries != [] && Sound(next, start, asked)
      modifies this`fs, this`trace
      ensures Valid() && fs == next && trace == old(trace) + [next]
    {
      fs := next;
      trace := trace + [next];
    }

    /** Nothing a reader of the target can see changes. */
    twostate predicate SameView()
      reads this
    {
      && old(trace) <= trace
      && old(fs).entries != [] && fs.entries != []
      && Visible(fs) == Visible(old(fs)) && VisibleContent(fs) == VisibleContent(old(fs))
    }

    /** Write-back may happen at any time. */
    method Disturb()
      requires Valid()
      modifies this`fs, this`trace
      ensures Valid() && SameView() && Background(old(fs), fs)
      ensures fs.tmp == old(fs).tmp
      ensures forall c :: TmpHas(old(fs), c) ==> TmpHas(fs, c)
      ensures forall e, c :: Holds(old(fs), e, c) ==> Holds(fs, e, c)
    {
      BackgroundStutters(fs);
      var later: Fs :| Background(fs, later);
      SoundBackground(fs, later, start, asked);
      BackgroundKeeps(fs, later);
      Move(later);
    }

    method DoOpenTmp()
      requires Valid()
      modifies this`fs, this`trace
      ensures Valid() && SameView() && fs.tmp.Some? && fs.tmp.value in fs.inodes && fs == OpenTmp(old(fs))
    {
      SoundOpenTmp(fs, start, asked);
      Move(OpenTmp(fs));
    }

    method DoWriteTmp(text: Content)
      requires Valid() && fs.tmp.Some? && fs.tmp.value in fs.inodes
      modifies this`fs, this`trace
      ensures Valid() && SameView() && TmpHas(fs, text) && fs == WriteTmp(old(fs), text)
    {
      SoundWriteTmp(fs, text, start, asked);
      Move(WriteTmp(fs, text));
    }

    method DoSyncTmp(ghost text: Content)
      requires Valid() && TmpHas(fs, text)
      modifies this`fs, this`trace
      ensures Valid() && SameView() && Holds(fs, fs.tmp, text) && fs == SyncInode(old(fs), old(fs).tmp)
    {
      SoundSyncTmp(fs, start, asked);
      Move(SyncInode(fs, fs.tmp));
    }

    /** Write the temporary file and sync it. */
    method WriteSynced(content: Content, o: Outcomes) returns (ok: bool)
      requires Valid()
      modifies this`fs, this`trace
      ensures Valid() && SameView()
      ensures ok == WriteSyncedOk(o) && Path(old(fs), WriteSyncedOps(content, o), fs)
      ensures ok ==> Holds(fs, fs.tmp, content)
    {
      hide Sound, Background, TmpHas, Path, OpenTmp, WriteTmp, SyncInode;
      ghost var was := fs;
      Disturb();
      EmptyPath(was, fs);
      if !o.open {
        return false;
      }
      PathDo(was, [], fs, Open);
      DoOpenTmp();
      var text := if o.write then content else o.partial;
      PathDo(was, [] + [Open], fs, Write(text));
      DoWriteTmp(text);
      ghost var before := fs;
      Disturb();
      assert [] + [Open] + [Write(text)] == [Open, Write(text)];
      PathWriteBack(was, [Open, Write(text)], before, fs);
      if !o.write || !o.sync {
        return false;
      }
      PathDo(was, [Open, Write(text)], fs, SyncTmp);
      assert [Open, Write(text)] + [SyncTmp] == [Open, Write(text), SyncTmp];
      DoSyncTmp(content);
      before := fs;
      Disturb();
      PathWriteBack(was, [Open, Write(text), SyncTmp], before, fs);
      ok := o.close;
    }

    method RemoveQuietly(o: Outcomes)
      requires Valid()
      modifies this`fs, this`trace
      ensures Valid() && SameView() && Path(old(fs), RemoveOps(o), fs)
    {
      hide Sound, Background, Path;
      ghost var was := fs;
      BackgroundStutters(fs);
      EmptyPath(was, fs);
      if o.remove {
        SoundRemove(fs, start, asked);
        PathDo(was, [], fs, Remove);
        assert [] + [Remove] == [Remove];
        Move(RemoveTmp(fs));
      }
      ghost var before := fs;
      Disturb();
      PathWriteBack(was, RemoveOps(o), before, fs);
    }

    /** Sync the target's directory. */
    method SyncDirectory(o: Outcomes) returns (ok: bool)
      requires Valid()
      modifies this`fs, this`trace
      ensures Valid() && SameView()
      ensures ok == SyncDirectoryOk(o) && Path(old(fs), SyncDirectoryOps(o), fs)
      ensures ok ==> fs.entries == [Visible(fs)]
      ensures forall e, c :: Holds(old(fs), e, c) ==> Holds(fs, e, c)
    {
      hide Sound, Background, Path, SyncDir;
      ghost var was := fs;
      Disturb();
      EmptyPath(was, fs);
      ok := o.openDir && o.syncDir;
      if ok {
        ghost var between := fs;
        DoSyncDir();
        PathDo(was, [], between, Op.SyncDirectory);
        assert [] + [Op.SyncDirectory] == [Op.SyncDirectory];
        ghost var settled := fs;
        Disturb();
        PathWriteBack(was, [Op.SyncDirectory], settled, fs);
        OneEntryStays(settled, fs);
      }
    }

    method DoSyncDir()
      requires Valid()
      modifies this`fs, this`trace
      ensures Valid() && SameView() && |fs.entries| == 1 && old(fs).entries != [] && fs == SyncDir(old(fs))
      ensures forall e, c :: Holds(old(fs), e, c) ==> Holds(fs, e, c)
    {
      hide Sound;
      SoundSyncDir(fs, start, asked);
      Move(SyncDir(fs));
    }

    /** Write a new file, rename it over the target, sync the directory. */
    method Replace(content: Content, o: Outcomes) returns (ok: bool)
      requires Valid() && content in asked
      modifies this`fs, this`trace
      ensures Valid() && old(trace) <= trace
      ensures ok == (o.mkdir && WriteSyncedOk(o) && o.rename && SyncDirectoryOk(o))
      ensures Path(old(fs), ReplaceOps(content, o), fs)
      ensures ok ==> Durable(fs, content) && |fs.entries| == 1
      ensures VisibleContent(fs) == VisibleContent(old(fs)) || VisibleContent(fs) == Some(content)
    {
      hide Sound, Background, Path, WriteSyncedOps, WriteSyncedOk, RemoveOps, SyncDirectoryOps;
      ghost var was := fs;
      if !o.mkdir {
        BackgroundStutters(fs);
        EmptyPath(was, fs);
        return false;
      }
      var written := WriteSynced(content, o);
      ghost var before := fs;
      if !written || !o.rename {
        RemoveQuietly(o);
        PathConcat(was, WriteSyncedOps(content, o), before, RemoveOps(o), fs);
        return false;
      }
      PathDo(was, WriteSyncedOps(content, o), before, Rename);
      DoRename(content);
      ghost var renamed := fs;
      ok := SyncDirectory(o);
      PathConcat(was, WriteSyncedOps(content, o) + [Rename], renamed, SyncDirectoryOps(o), fs);
      if ok {
        OnlyEntry(fs, content);
      }
    }

    method DoRename(ghost content: Content)
      requires Valid() && content in asked && Holds(fs, fs.tmp, content)
      modifies this`fs, this`trace
      ensures Valid() && old(trace) <= trace && fs == RenameTmp(old(fs))
      ensures Holds(fs, Visible(fs), content)
    {
      hide Sound;
      SoundRename(fs, start, asked, content);
      Move(RenameTmp(fs));
    }

    /** Sync a file that already has the right content, and its directory. */
    method SyncExisting(o: Outcomes) returns (ok: bool)
      requires Valid() && Visible(fs).Some?
      modifies this`fs, this`trace
      ensures Valid() && SameView()
      ensures ok == (o.open && o.sync && SyncDirectoryOk(o)) && Path(old(fs), SyncExistingOps(o), fs)
      ensures ok ==> Durable(fs, VisibleContent(old(fs)).value) && |fs.entries| == 1
    {
      hide Sound, Background, Path, SyncDirectoryOps;
      ghost var was := fs;
      Disturb();
      EmptyPath(was, fs);
      if !o.open || !o.sync {
        return false;
      }
      PathDo(was, [], fs, SyncTarget);
      assert [] + [SyncTarget] == [SyncTarget];
      DoSyncTarget();
      ghost var before := fs;
      ok := SyncDirectory(o);
      PathConcat(was, [SyncTarget], before, SyncDirectoryOps(o), fs);
      if ok {
        OnlyEntry(fs, VisibleContent(fs).value);
      }
    }

    method DoSyncTarget()
      requires Valid() && Visible(fs).Some?
      modifies this`fs, this`trace
      ensures Valid() && SameView() && VisibleContent(fs).Some? && Holds(fs, Visible(fs), VisibleContent(fs).value)
      ensures old(fs).entries != [] && fs == SyncInode(old(fs), Visible(old(fs)))
    {
      SoundSyncTarget(fs, start, asked);
      Move(SyncInode(fs, Visible(fs)));
    }

    /** Bring the file in line with `sets`: the transition of one call, whatever the disk does
        meanwhile. A success is durable if the call did its work, and if it skipped it because
        the content was in place and last synced, when no other content is pending. */
    method Persist(sets: PeerSets, o: Outcomes) returns (ok: bool)
      requires Valid() && Recorded()
      modifies this`synced, this`fs, this`trace, this`asked, this`calls, this`results
      ensures Valid() && Recorded() && old(trace) <= trace && asked == old(asked) + {Render(sets)}
      ensures calls == old(calls) + [Call(Render(sets), o)] && results == old(results) + [ok]
      ensures CallStep(State(old(synced), old(fs)), Call(Render(sets), o), ok, State(synced, fs))
      ensures var want, visible := Render(sets), VisibleContent(old(fs));
              var matches := o.read && visible == Some(want);
              && (matches ==> Visible(fs) == Visible(old(fs)))
              && (matches && old(synced) == Some(want) ==> ok && fs == old(fs))
              && (VisibleContent(fs) == visible || VisibleContent(fs) == Some(want))
      ensures start.entries != []
      ensures var want, l := Render(sets), LedgerOf(VisibleContent(start), old(calls));
              ok && (Skips(l.visible, l.synced, Call(want, o)) ==> forall c :: c in l.pending ==> c == want) ==>
                Durable(fs, want)
    {
      hide Sound, Background, Durable, Render, Path, Run, LedgerOf, ReplaceOps, SyncExistingOps;
      var want := Render(sets);
      ghost var was := State(synced, fs);
      AskFor(want);
      if o.read && VisibleContent(fs) == Some(want) {
        if synced == Some(want) {
          BackgroundStutters(fs);
          EmptyPath(fs, fs);
          ok := true;
        } else {
          ok := SyncExisting(o);
        }
      } else {
        ok := Replace(want, o);
      }
      if ok {
        synced := Some(want);
      }
      Record(was, Call(want, o), ok);
    }

    /** Note a finished call. */
    ghost method Record(was: State, call: Call, ok: bool)
      requires Valid() && Run(State(None, start), calls, results, was) && |results| == |calls|
      requires CallStep(was, call, ok, State(synced, fs))
      modifies this`calls, this`results
      ensures Valid() && Recorded() && calls == old(calls) + [call] && results == old(results) + [ok]
      ensures start.entries != []
      ensures var l := LedgerOf(VisibleContent(start), old(calls));
              ok && (Skips(l.visible, l.synced, call) ==> forall c :: c in l.pending ==> c == call.want) ==>
                Durable(fs, call.want)
    {
      hide CallStep, Run, Follows, Durable;
      ghost var l := LedgerOf(VisibleContent(start), calls);
      RunSnoc(State(None, start), calls, results, was, call, ok, State(synced, fs));
      if ok && (Skips(l.visible, l.synced, call) ==> forall c :: c in l.pending ==> c == call.want) {
        RunFollows(State(None, start), calls, results, was);
        CallFollows(was, l, call, ok, State(synced, fs));
        SuccessDurableIff(start, calls, call);
        assert Durable(State(synced, fs).fs, call.want);
      }
      calls, results := calls + [call], results + [ok];
    }

    method AskFor(want: Content)
      requires Valid()
      modifies this`asked
      ensures Valid() && asked == old(asked) + {want}
    {
      hide Sound;
      forall t | t in trace ensures Sound(t, start, asked + {want}) {
        SoundAsked(t, start, asked, asked + {want});
      }
      asked := asked + {want};
    }
  }
}
