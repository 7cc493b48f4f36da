/**
 Sequences of persist calls as transitions of what the process remembers and the file system
 does: which system calls one call makes, what write-back may do between them, and what the
 caller can tell of the disk from the calls it has made.
 */
module PersistCalls {
  import opened Prelude
  import opened BootFileSystem

  /** Which system calls of one persist succeed. `partial` is what a failed write leaves. */
  datatype Outcomes = Outcomes(
    read: bool, mkdir: bool, open: bool, write: bool, partial: Content, sync: bool, close: bool,
    rename: bool, remove: bool, openDir: bool, syncDir: bool)

  // ---- the system calls of one call ----------------------------------------

  /** The system calls that succeed and change the file system; `Write` also when it fails. */
  datatype Op = Open | Write(text: Content) | SyncTmp | SyncTarget | Rename | Remove | SyncDirectory

  function Do(fs: Fs, op: Op): Fs {
    match op
    case Open => OpenTmp(fs)
    case Write(text) => WriteTmp(fs, text)
    case SyncTmp => SyncInode(fs, fs.tmp)
    case SyncTarget => if fs.entries == [] then fs else SyncInode(fs, Visible(fs))
    case Rename => RenameTmp(fs)
    case Remove => RemoveTmp(fs)
    case SyncDirectory => if fs.entries == [] then fs else SyncDir(fs)
  }

  function WriteSyncedOps(content: Content, o: Outcomes): seq<Op> {
    if !o.open then []
    else if !o.write then [Open, Write(o.partial)]
    else if !o.sync then [Open, Write(content)]
    else [Open, Write(content), SyncTmp]
  }

  predicate WriteSyncedOk(o: Outcomes) {
    o.open && o.write && o.sync && o.close
  }

  function RemoveOps(o: Outcomes): seq<Op> {
    if o.remove then [Remove] else []
  }

  predicate SyncDirectoryOk(o: Outcomes) {
    o.openDir && o.syncDir
  }

  function SyncDirectoryOps(o: Outcomes): seq<Op> {
    if SyncDirectoryOk(o) then [SyncDirectory] else []
  }

  function ReplaceOps(content: Content, o: Outcomes): seq<Op> {
    if !o.mkdir then []
    else if !WriteSyncedOk(o) || !o.rename then WriteSyncedOps(content, o) + RemoveOps(o)
    else WriteSyncedOps(content, o) + [Rename] + SyncDirectoryOps(o)
  }

  function SyncExistingOps(o: Outcomes): seq<Op> {
    if o.open && o.sync then [SyncTarget] + SyncDirectoryOps(o) else []
  }

  datatype Call = Call(want: Content, o: Outcomes)

  predicate Matches(visible: Option<Content>, call: Call) {
    call.o.read && visible == Some(call.want)
  }

  /** The content is in place and was last seen synced: the call does nothing. */
  predicate Skips(visible: Option<Content>, synced: Option<Content>, call: Call) {
    Matches(visible, call) && synced == Some(call.want)
  }

  function PersistOps(visible: Option<Content>, synced: Option<Content>, call: Call): seq<Op> {
    if Skips(visible, synced, call) then []
    else if Matches(visible, call) then SyncExistingOps(call.o)
    else ReplaceOps(call.want, call.o)
  }

  predicate PersistOk(visible: Option<Content>, synced: Option<Content>, call: Call) {
    if Skips(visible, synced, call) then true
    else if Matches(visible, call) then call.o.open && call.o.sync && SyncDirectoryOk(call.o)
    else call.o.mkdir && WriteSyncedOk(call.o) && call.o.rename && SyncDirectoryOk(call.o)
  }

  /** Which calls succeed: those that find the wanted content in place and remember it synced; those
      that find it in place and can sync the file and then its directory; and all others exactly when
      every system call on the way works, closing the file included. */
  lemma SucceedsIff(visible: Option<Content>, synced: Option<Content>, call: Call)
    ensures var o := call.o;
            PersistOk(visible, synced, call) <==>
            if o.read && visible == Some(call.want)
            then synced == Some(call.want) || (o.open && o.sync && o.openDir && o.syncDir)
            else o.mkdir && o.open && o.write && o.sync && o.close && o.rename && o.openDir && o.syncDir
  {
  }

  /** What a call does to the file system: nothing when it skips; a sync of the target, then of its
      directory, when the content is in place; and otherwise, as far as it gets, the new file is
      opened, written and synced before it is renamed, the directory is synced after that, and a file
      that does not get there is removed. The target is renamed over only by a whole, synced file. */
  lemma OpsMade(visible: Option<Content>, synced: Option<Content>, call: Call)
    ensures var o, ops := call.o, PersistOps(visible, synced, call);
            && (o.read && visible == Some(call.want) ==>
                  ops == if synced == Some(call.want) || !o.open || !o.sync then []
                         else if o.openDir && o.syncDir then [SyncTarget, SyncDirectory] else [SyncTarget])
            && (PersistOk(visible, synced, call) && !(o.read && visible == Some(call.want)) ==>
                  ops == [Open, Write(call.want), SyncTmp, Rename, SyncDirectory])
            && (Rename in ops ==>
                  ops[..4] == [Open, Write(call.want), SyncTmp, Rename] && (ops[4..] == [] || ops[4..] == [SyncDirectory]))
            && (Open in ops && Rename !in ops ==> (ops[|ops| - 1] == Remove <==> o.remove))
            && (!(o.read && visible == Some(call.want)) && !o.mkdir ==> ops == [])
  {
  }

  // ---- transitions ---------------------------------------------------------

  /** The system calls in turn, with write-back before, between and after them. */
  ghost predicate Path(a: Fs, ops: seq<Op>, b: Fs) {
    if ops == [] then Background(a, b)
    else exists mid :: Path(a, Front(ops), mid) && Background(Do(mid, Last(ops)), b)
  }

  lemma BackgroundTwice(a: Fs, b: Fs, c: Fs)
    requires Background(a, b) && Background(b, c)
    ensures Background(a, c)
  {
    TailOfTail(a.entries, b.entries, c.entries);
  }

  lemma PathWriteBack(a: Fs, ops: seq<Op>, b: Fs, c: Fs)
    requires Path(a, ops, b) && Background(b, c)
    ensures Path(a, ops, c)
  {
    hide Background;
    if ops == [] {
      BackgroundTwice(a, b, c);
    } else {
      var mid :| Path(a, Front(ops), mid) && Background(Do(mid, Last(ops)), b);
      BackgroundTwice(Do(mid, Last(ops)), b, c);
    }
  }

  lemma PathDo(a: Fs, ops: seq<Op>, b: Fs, op: Op)
    requires Path(a, ops, b) && b.entries != []
    ensures Path(a, ops + [op], Do(b, op))
  {
    hide Background, Do;
    DoEntries(b, op);
    BackgroundStutters(Do(b, op));
    assert Front(ops + [op]) == ops;
  }

  lemma {:induction false} PathConcat(a: Fs, p: seq<Op>, b: Fs, q: seq<Op>, c: Fs)
    requires Path(a, p, b) && Path(b, q, c)
    ensures Path(a, p + q, c)
  {
    hide Background, Do;
    if q == [] {
      PathWriteBack(a, p, b, c);
      assert p + q == p;
    } else {
      var front, op := Front(q), Last(q);
      var mid :| Path(b, front, mid) && Background(Do(mid, op), c);
      PathConcat(a, p, b, front, mid);
      assert Front(p + q) == p + front;
    }
  }

  /** What the process remembers and what is on the machine. */
  datatype State = State(synced: Option<Content>, fs: Fs)

  /** One persist call. */
  ghost predicate CallStep(s: State, call: Call, ok: bool, s': State) {
    && s.fs.entries != []
    && var visible := VisibleContent(s.fs);
       && Path(s.fs, PersistOps(visible, s.synced, call), s'.fs)
       && ok == PersistOk(visible, s.synced, call)
       && s'.synced == if ok then Some(call.want) else s.synced
  }

  ghost predicate Run(s: State, calls: seq<Call>, oks: seq<bool>, end: State) {
    if calls == [] then oks == [] && end == s
    else
      && |oks| == |calls|
      && exists mid :: Run(s, Front(calls), Front(oks), mid) && CallStep(mid, Last(calls), Last(oks), end)
  }

  lemma RunSnoc(s: State, calls: seq<Call>, oks: seq<bool>, mid: State, call: Call, ok: bool, end: State)
    requires Run(s, calls, oks, mid) && CallStep(mid, call, ok, end) && |oks| == |calls|
    ensures Run(s, calls + [call], oks + [ok], end)
  {
    hide CallStep;
    assert Front(calls + [call]) == calls && Front(oks + [ok]) == oks;
  }

  // ---- what the caller can tell --------------------------------------------

  /** What the calls so far and their outcomes say: what the process remembers, what a read of
      the target gives, and in `pending` the content that the last successful directory sync
      settled, followed by every content renamed over the target since. */
  datatype Ledger = Ledger(synced: Option<Content>, visible: Option<Content>, pending: seq<Content>)

  function Noted(l: Ledger, call: Call): Ledger {
    var ops := PersistOps(l.visible, l.synced, call);
    Ledger(
      if PersistOk(l.visible, l.synced, call) then Some(call.want) else l.synced,
      if Rename in ops then Some(call.want) else l.visible,
      if SyncDirectory in ops then [call.want]
      else if Rename in ops && l.pending != [] then l.pending + [call.want]
      else l.pending)
  }

  function LedgerOf(visible: Option<Content>, calls: seq<Call>): Ledger {
    if calls == [] then Ledger(None, visible, [])
    else Noted(LedgerOf(visible, Front(calls)), Last(calls))
  }

  function Results(visible: Option<Content>, calls: seq<Call>): seq<bool> {
    if calls == [] then []
    else
      var before := Front(calls);
      var l := LedgerOf(visible, before);
      Results(visible, before) + [PersistOk(l.visible, l.synced, Last(calls))]
  }

  /** The entries the disk may be at hold, on disk, the last so many of the pending contents. */
  ghost predicate Trails(fs: Fs, pending: seq<Content>) {
    && 0 < |fs.entries| <= |pending|
    && forall i :: 0 <= i < |fs.entries| ==>
         Holds(fs, fs.entries[i], pending[|pending| - |fs.entries| + i])
  }

  /** The ledger is right about a state. */
  ghost predicate Follows(s: State, l: Ledger) {
    && WellFormed(s.fs) && s.synced == l.synced && VisibleContent(s.fs) == l.visible
    && (l.synced.Some? <==> l.pending != [])
    && (l.pending != [] ==> Trails(s.fs, l.pending))
  }

  // ---- one system call -----------------------------------------------------

  /** The target looks the same, and of its entries on disk some of the first may be gone. */
  ghost predicate SameTarget(a: Fs, b: Fs) {
    && TailOf(b.entries, a.entries)
    && VisibleContent(b) == VisibleContent(a)
    && forall e, c :: e in b.entries && Holds(a, e, c) ==> Holds(b, e, c)
  }

  lemma SameTargetTwice(a: Fs, b: Fs, c: Fs)
    requires SameTarget(a, b) && SameTarget(b, c)
    ensures SameTarget(a, c)
  {
    TailOfTail(a.entries, b.entries, c.entries);
    assert VisibleContent(c) == VisibleContent(a);
  }

  lemma WriteBackSameTarget(a: Fs, b: Fs)
    requires WellFormed(a) && Background(a, b)
    ensures WellFormed(b) && SameTarget(a, b) && b.tmp == a.tmp
    ensures forall c :: TmpHas(a, c) ==> TmpHas(b, c)
    ensures forall c :: Holds(a, a.tmp, c) ==> Holds(b, b.tmp, c)
  {
    assert forall e :: e in b.entries ==> e in a.entries;
    assert Visible(b) == Visible(a);
  }

  predicate TmpHas(fs: Fs, c: Content) {
    fs.tmp.Some? && fs.tmp.value in fs.inodes && fs.inodes[fs.tmp.value].mem == c
  }

  lemma DoWellFormed(fs: Fs, op: Op)
    requires WellFormed(fs)
    ensures WellFormed(Do(fs, op))
  {
  }

  predicate Harmless(op: Op) {
    !op.Rename? && !op.SyncDirectory?
  }

  lemma DoSameTarget(fs: Fs, op: Op)
    requires WellFormed(fs) && Harmless(op)
    ensures Do(fs, op).entries == fs.entries && SameTarget(fs, Do(fs, op))
  {
    assert TailOf(fs.entries, fs.entries);
  }

  /** System calls that neither rename nor sync the directory. */
  lemma {:induction false} HarmlessPath(a: Fs, ops: seq<Op>, b: Fs)
    requires WellFormed(a) && Path(a, ops, b) && forall op :: op in ops ==> Harmless(op)
    ensures WellFormed(b) && SameTarget(a, b)
  {
    hide WellFormed, Background, Do, SameTarget, Harmless;
    if ops == [] {
      WriteBackSameTarget(a, b);
    } else {
      var mid :| Path(a, Front(ops), mid) && Background(Do(mid, Last(ops)), b);
      HarmlessPath(a, Front(ops), mid);
      DoWellFormed(mid, Last(ops));
      DoSameTarget(mid, Last(ops));
      WriteBackSameTarget(Do(mid, Last(ops)), b);
      SameTargetTwice(a, mid, Do(mid, Last(ops)));
      SameTargetTwice(a, Do(mid, Last(ops)), b);
    }
  }

  lemma PathEnd(a: Fs, ops: seq<Op>, op: Op, b: Fs) returns (mid: Fs)
    requires Path(a, ops + [op], b)
    ensures Path(a, ops, mid) && Background(Do(mid, op), b)
  {
    assert Front(ops + [op]) == ops;
    mid :| Path(a, ops, mid) && Background(Do(mid, op), b);
  }

  /** A temporary file written and synced is on disk. */
  lemma WrittenPath(a: Fs, c: Content, b: Fs)
    requires WellFormed(a) && Path(a, [Open, Write(c), SyncTmp], b)
    ensures WellFormed(b) && SameTarget(a, b) && Holds(b, b.tmp, c)
  {
    hide WellFormed, Background, SameTarget, Path;
    HarmlessPath(a, [Open, Write(c), SyncTmp], b);
    assert [Open, Write(c), SyncTmp] == [Open, Write(c)] + [SyncTmp] && [Open, Write(c)] == [Open] + [Write(c)];
    assert [Open] == [] + [Open];
    var written := PathEnd(a, [Open, Write(c)], SyncTmp, b);
    var opened_ := PathEnd(a, [Open], Write(c), written);
    var before := PathEnd(a, [], Open, opened_);
    HarmlessPath(a, [Open, Write(c)], written);
    HarmlessPath(a, [Open], opened_);
    HarmlessPath(a, [], before);
    TmpPath(before, opened_, c, written, b);
  }

  lemma TmpPath(before: Fs, blank: Fs, c: Content, written: Fs, b: Fs)
    requires WellFormed(before) && WellFormed(blank) && WellFormed(written)
    requires Background(OpenTmp(before), blank) && Background(WriteTmp(blank, c), written)
    requires Background(SyncInode(written, written.tmp), b)
    ensures Holds(b, b.tmp, c)
  {
    DoWellFormed(before, Open);
    DoWellFormed(blank, Write(c));
    DoWellFormed(written, SyncTmp);
    assert blank.tmp.Some? && blank.tmp.value in blank.inodes;
    WriteBackSameTarget(WriteTmp(blank, c), written);
    assert TmpHas(written, c);
    WriteBackSameTarget(SyncInode(written, written.tmp), b);
  }

  // ---- pending contents ----------------------------------------------------

  lemma TrailsOn(a: Fs, b: Fs, pending: seq<Content>)
    requires Trails(a, pending) && SameTarget(a, b)
    ensures Trails(b, pending)
  {
    forall i | 0 <= i < |b.entries| ensures Holds(b, b.entries[i], pending[|pending| - |b.entries| + i]) {
      var j := |a.entries| - |b.entries| + i;
      assert b.entries[i] == a.entries[j] && Holds(a, a.entries[j], pending[|pending| - |a.entries| + j]);
    }
  }

  lemma TrailsRename(fs: Fs, pending: seq<Content>, c: Content)
    requires Trails(fs, pending) && Holds(fs, fs.tmp, c)
    ensures Trails(RenameTmp(fs), pending + [c])
  {
    var b := RenameTmp(fs);
    forall i | 0 <= i < |b.entries| ensures Holds(b, b.entries[i], (pending + [c])[|pending| + 1 - |b.entries| + i]) {
      if i < |fs.entries| {
        assert Holds(fs, fs.entries[i], pending[|pending| - |fs.entries| + i]);
      }
    }
  }

  lemma TrailsSyncDir(fs: Fs, c: Content)
    requires WellFormed(fs) && Holds(fs, Visible(fs), c)
    ensures Trails(SyncDir(fs), [c]) && VisibleContent(SyncDir(fs)) == Some(c)
  {
  }

  lemma Renamed(fs: Fs, c: Content)
    requires WellFormed(fs) && Holds(fs, fs.tmp, c)
    ensures WellFormed(RenameTmp(fs)) && Holds(RenameTmp(fs), Visible(RenameTmp(fs)), c)
    ensures VisibleContent(RenameTmp(fs)) == Some(c)
  {
  }

  // ---- one call ------------------------------------------------------------

  lemma FollowsHarmless(s: State, l: Ledger, ops: seq<Op>, b: Fs)
    requires Follows(s, l) && Path(s.fs, ops, b) && forall op :: op in ops ==> Harmless(op)
    ensures Follows(State(s.synced, b), l)
  {
    hide WellFormed, Background, SameTarget, Path, Trails, Holds;
    HarmlessPath(s.fs, ops, b);
    if l.pending != [] {
      TrailsOn(s.fs, b, l.pending);
    }
    SameTargetIs(s.fs, b);
  }

  lemma SameTargetIs(a: Fs, b: Fs)
    requires SameTarget(a, b)
    ensures a.entries != [] && b.entries != [] && VisibleContent(b) == VisibleContent(a)
    ensures forall c :: Holds(a, Visible(a), c) ==> Holds(b, Visible(b), c)
  {
    assert Visible(b) == Visible(a) && Visible(b) in b.entries;
  }

  lemma RenamePath(a: Fs, want: Content, b: Fs)
    requires WellFormed(a) && Path(a, [Open, Write(want), SyncTmp] + [Rename], b)
    ensures WellFormed(b) && Holds(b, Visible(b), want) && VisibleContent(b) == Some(want)
    ensures forall pending :: Trails(a, pending) ==> Trails(b, pending + [want])
  {
    hide WellFormed, Background, SameTarget, Path, Trails, Holds;
    var mid := PathEnd(a, [Open, Write(want), SyncTmp], Rename, b);
    WrittenPath(a, want, mid);
    Renamed(mid, want);
    WriteBackSameTarget(RenameTmp(mid), b);
    SameTargetIs(RenameTmp(mid), b);
    forall pending | Trails(a, pending) ensures Trails(b, pending + [want]) {
      TrailsOn(a, mid, pending);
      TrailsRename(mid, pending, want);
      TrailsOn(RenameTmp(mid), b, pending + [want]);
    }
  }

  lemma SyncTargetPath(a: Fs, want: Content, b: Fs)
    requires WellFormed(a) && VisibleContent(a) == Some(want) && Path(a, [SyncTarget], b)
    ensures WellFormed(b) && Holds(b, Visible(b), want)
  {
    hide Background, SameTarget, Path;
    assert [] + [SyncTarget] == [SyncTarget];
    var mid := PathEnd(a, [], SyncTarget, b);
    HarmlessPath(a, [], mid);
    SameTargetIs(a, mid);
    DoWellFormed(mid, SyncTarget);
    WriteBackSameTarget(Do(mid, SyncTarget), b);
    SameTargetIs(Do(mid, SyncTarget), b);
  }

  lemma SettledPath(mid: Fs, want: Content, b: Fs)
    requires WellFormed(mid) && Holds(mid, Visible(mid), want) && Background(SyncDir(mid), b)
    ensures WellFormed(b) && Trails(b, [want]) && VisibleContent(b) == Some(want)
  {
    hide Background, SameTarget, Trails;
    DoWellFormed(mid, SyncDirectory);
    TrailsSyncDir(mid, want);
    WriteBackSameTarget(SyncDir(mid), b);
    SameTargetIs(SyncDir(mid), b);
    TrailsOn(SyncDir(mid), b, [want]);
  }

  /** A call that gets as far as the directory sync. */
  lemma SettlingCall(a: Fs, visible: Option<Content>, synced: Option<Content>, call: Call, b: Fs)
    requires WellFormed(a) && visible == VisibleContent(a)
    requires SyncDirectory in PersistOps(visible, synced, call) && Path(a, PersistOps(visible, synced, call), b)
    ensures WellFormed(b) && Trails(b, [call.want]) && VisibleContent(b) == Some(call.want)
    ensures PersistOk(visible, synced, call)
  {
    hide WellFormed, Background, Path, Trails, Holds, VisibleContent;
    var want := call.want;
    if Matches(visible, call) {
      var mid := PathEnd(a, [SyncTarget], SyncDirectory, b);
      SyncTargetPath(a, want, mid);
      assert mid.entries != [] by { HasEntries(mid); }
      SettledPath(mid, want, b);
    } else {
      var mid := PathEnd(a, [Open, Write(want), SyncTmp] + [Rename], SyncDirectory, b);
      RenamePath(a, want, mid);
      assert mid.entries != [] by { HasEntries(mid); }
      SettledPath(mid, want, b);
    }
  }

  lemma HasEntries(fs: Fs)
    requires WellFormed(fs)
    ensures fs.entries != []
  {
  }

  /** Whatever write-back does, the ledger stays right, and it tells the reported result. */
  lemma CallFollows(s: State, l: Ledger, call: Call, ok: bool, s': State)
    requires Follows(s, l) && CallStep(s, call, ok, s')
    ensures Follows(s', Noted(l, call)) && ok == PersistOk(l.visible, l.synced, call)
  {
    hide WellFormed, Background, Path, Trails, Holds, VisibleContent;
    var ops := PersistOps(l.visible, l.synced, call);
    if SyncDirectory in ops {
      SettlingCall(s.fs, l.visible, l.synced, call, s'.fs);
    } else if Rename in ops {
      assert ops == [Open, Write(call.want), SyncTmp] + [Rename];
      RenamePath(s.fs, call.want, s'.fs);
    } else {
      FollowsHarmless(s, l, ops, s'.fs);
    }
  }

  lemma {:induction false} RunFollows(s: State, calls: seq<Call>, oks: seq<bool>, end: State)
    requires WellFormed(s.fs) && s.synced.None? && Run(s, calls, oks, end)
    ensures Follows(end, LedgerOf(VisibleContent(s.fs), calls))
    ensures oks == Results(VisibleContent(s.fs), calls)
  {
    hide Follows, CallStep, VisibleContent, WellFormed, Noted, PersistOk, Run;
    HasEntries(s.fs);
    if calls == [] {
      RunNothing(s, oks, end);
      StartFollows(s);
    } else {
      var mid := RunLast(s, calls, oks, end);
      RunFollows(s, Front(calls), Front(oks), mid);
      CallFollows(mid, LedgerOf(VisibleContent(s.fs), Front(calls)), Last(calls), Last(oks), end);
      assert oks == Front(oks) + [Last(oks)];
    }
  }

  lemma RunNothing(s: State, oks: seq<bool>, end: State)
    requires Run(s, [], oks, end)
    ensures oks == [] && end == s
  {
  }

  lemma RunLast(s: State, calls: seq<Call>, oks: seq<bool>, end: State) returns (mid: State)
    requires Run(s, calls, oks, end) && calls != []
    ensures |oks| == |calls| && Run(s, Front(calls), Front(oks), mid) && CallStep(mid, Last(calls), Last(oks), end)
  {
    hide CallStep;
    mid :| Run(s, Front(calls), Front(oks), mid) && CallStep(mid, Last(calls), Last(oks), end);
  }

  lemma StartFollows(s: State)
    requires WellFormed(s.fs) && s.synced.None?
    ensures s.fs.entries != [] && Follows(s, Ledger(None, VisibleContent(s.fs), []))
  {
  }

  // ---- the run in which nothing is written back ----------------------------

  function Exec(fs: Fs, ops: seq<Op>): Fs {
    if ops == [] then fs else Do(Exec(fs, Front(ops)), Last(ops))
  }

  lemma DoEntries(fs: Fs, op: Op)
    requires fs.entries != []
    ensures |Do(fs, op).entries| == if op.Rename? then |fs.entries| + 1 else if op.SyncDirectory? then 1 else |fs.entries|
  {
  }

  lemma {:induction false} ExecPath(fs: Fs, ops: seq<Op>)
    requires fs.entries != []
    ensures Exec(fs, ops).entries != [] && Path(fs, ops, Exec(fs, ops))
  {
    hide Do, Background;
    if ops == [] {
      BackgroundStutters(fs);
    } else {
      ExecPath(fs, Front(ops));
      DoEntries(Exec(fs, Front(ops)), Last(ops));
      PathDo(fs, Front(ops), Exec(fs, Front(ops)), Last(ops));
      assert ops == Front(ops) + [Last(ops)];
    }
  }

  /** How many entries are pending after a call in the quiet run. */
  function EntriesAfter(n: nat, ops: seq<Op>): nat {
    if ops == [] then n
    else if Last(ops).Rename? then EntriesAfter(n, Front(ops)) + 1
    else if Last(ops).SyncDirectory? then 1
    else EntriesAfter(n, Front(ops))
  }

  lemma {:induction false} ExecEntries(fs: Fs, ops: seq<Op>)
    requires fs.entries != []
    ensures |Exec(fs, ops).entries| == EntriesAfter(|fs.entries|, ops)
  {
    hide Do;
    if ops != [] {
      ExecEntries(fs, Front(ops));
      ExecPath(fs, Front(ops));
      DoEntries(Exec(fs, Front(ops)), Last(ops));
    }
  }

  lemma EntriesHarmless(n: nat, ops: seq<Op>)
    requires forall op :: op in ops ==> Harmless(op)
    ensures EntriesAfter(n, ops) == n
  {
    if ops != [] {
      assert Last(ops) in ops;
      EntriesHarmless(n, Front(ops));
    }
  }

  /** In the quiet run every pending content has its entry on disk or before it. */
  ghost predicate AllPending(s: State, l: Ledger) {
    Follows(s, l) && (l.pending != [] ==> |s.fs.entries| == |l.pending|)
  }

  lemma QuietCall(s: State, l: Ledger, call: Call) returns (s': State)
    requires AllPending(s, l)
    ensures CallStep(s, call, PersistOk(l.visible, l.synced, call), s') && AllPending(s', Noted(l, call))
  {
    hide Do, Background, WellFormed, Trails, VisibleContent;
    HasEntries(s.fs);
    var ops := PersistOps(l.visible, l.synced, call);
    var ok := PersistOk(l.visible, l.synced, call);
    ExecPath(s.fs, ops);
    ExecEntries(s.fs, ops);
    s' := State(if ok then Some(call.want) else s.synced, Exec(s.fs, ops));
    CallFollows(s, l, call, ok, s');
    EntriesOfCall(|s.fs.entries|, l, call);
  }

  lemma EntriesOfCall(n: nat, l: Ledger, call: Call)
    ensures var ops := PersistOps(l.visible, l.synced, call);
            EntriesAfter(n, ops) == if SyncDirectory in ops then 1 else if Rename in ops then n + 1 else n
  {
    var ops := PersistOps(l.visible, l.synced, call);
    if SyncDirectory in ops {
      assert Last(ops) == SyncDirectory;
    } else if Rename in ops {
      assert Last(ops) == Rename;
      EntriesHarmless(n, Front(ops));
    } else {
      EntriesHarmless(n, ops);
    }
  }

  lemma {:induction false} QuietRun(start: Fs, calls: seq<Call>) returns (end: State)
    requires WellFormed(start)
    ensures Run(State(None, start), calls, Results(VisibleContent(start), calls), end)
    ensures AllPending(end, LedgerOf(VisibleContent(start), calls))
    ensures |Results(VisibleContent(start), calls)| == |calls|
    decreases |calls|
  {
    hide CallStep, AllPending, VisibleContent, WellFormed, Noted, Run, LedgerOf, Results, Front, Last;
    HasEntries(start);
    var visible := VisibleContent(start);
    if calls == [] {
      end := State(None, start);
      StartPending(end);
      NoCallsYet(end, visible);
    } else {
      var before, call := Front(calls), Last(calls);
      assert |before| < |calls| && calls == before + [call] by { FrontAndLast(calls); }
      var mid := QuietRun(start, before);
      var l := LedgerOf(visible, before);
      end := QuietCall(mid, l, call);
      RunSnoc(State(None, start), before, Results(visible, before), mid, call, PersistOk(l.visible, l.synced, call), end);
      OneCallMore(visible, before, call);
    }
  }

  lemma NoCallsYet(s: State, visible: Option<Content>)
    ensures Run(s, [], [], s) && Results(visible, []) == [] && LedgerOf(visible, []) == Ledger(None, visible, [])
  {
  }

  lemma FrontAndLast<T>(s: seq<T>)
    requires s != []
    ensures |Front(s)| < |s| && s == Front(s) + [Last(s)]
  {
  }

  lemma OneCallMore(visible: Option<Content>, before: seq<Call>, call: Call)
    ensures var l := LedgerOf(visible, before);
            && LedgerOf(visible, before + [call]) == Noted(l, call)
            && Results(visible, before + [call]) == Results(visible, before) + [PersistOk(l.visible, l.synced, call)]
  {
    assert Front(before + [call]) == before && Last(before + [call]) == call;
  }

  lemma StartPending(s: State)
    requires WellFormed(s.fs) && s.synced.None?
    ensures s.fs.entries != [] && AllPending(s, Ledger(None, VisibleContent(s.fs), []))
  {
  }

  // ---- when success means durable ------------------------------------------

  /** However the disk was written back, the file is durable after these calls. */
  ghost predicate AlwaysDurable(start: Fs, calls: seq<Call>, want: Content) {
    forall oks, end :: Run(State(None, start), calls, oks, end) ==> Durable(end.fs, want)
  }

  lemma TrailsDurable(fs: Fs, pending: seq<Content>, want: Content)
    requires Trails(fs, pending) && forall c :: c in pending ==> c == want
    ensures Durable(fs, want)
  {
    forall e | e in fs.entries ensures Holds(fs, e, want) {
      var i :| 0 <= i < |fs.entries| && fs.entries[i] == e;
      assert pending[|pending| - |fs.entries| + i] in pending;
    }
  }

  lemma TrailsNotDurable(fs: Fs, pending: seq<Content>, c: Content, want: Content)
    requires Trails(fs, pending) && |fs.entries| == |pending| && c in pending && c != want
    ensures !Durable(fs, want)
  {
    var i :| 0 <= i < |pending| && pending[i] == c;
    assert Holds(fs, fs.entries[i], c) && fs.entries[i] in fs.entries;
  }

  /** What the ledger says at the end of a run decides whether it is durable whatever the disk did. */
  lemma DurableByLedger(start: Fs, calls: seq<Call>, want: Content)
    requires WellFormed(start) && LedgerOf(VisibleContent(start), calls).synced.Some?
    ensures AlwaysDurable(start, calls, want) <==>
            forall c :: c in LedgerOf(VisibleContent(start), calls).pending ==> c == want
  {
    hide Run, WellFormed, Trails, Durable, VisibleContent, LedgerOf, Results;
    HasEntries(start);
    var l := LedgerOf(VisibleContent(start), calls);
    if forall c :: c in l.pending ==> c == want {
      forall oks, end | Run(State(None, start), calls, oks, end) ensures Durable(end.fs, want) {
        RunFollows(State(None, start), calls, oks, end);
        TrailsDurable(end.fs, l.pending, want);
      }
    } else {
      var c :| c in l.pending && c != want;
      var end := QuietRun(start, calls);
      TrailsNotDurable(end.fs, l.pending, c, want);
    }
  }

  /** When a success is durable under every write-back. A call that does its work always is. One
      that skips is exactly when the content settled by the last directory sync and every content
      renamed over it since are the one asked for, which the caller can tell beforehand from the
      calls it made and their outcomes. */
  lemma SuccessDurableIff(start: Fs, before: seq<Call>, call: Call)
    requires WellFormed(start)
    requires var l := LedgerOf(VisibleContent(start), before); PersistOk(l.visible, l.synced, call)
    ensures var l := LedgerOf(VisibleContent(start), before);
            AlwaysDurable(start, before + [call], call.want) <==>
            (Skips(l.visible, l.synced, call) ==> forall c :: c in l.pending ==> c == call.want)
  {
    hide WellFormed, VisibleContent, AlwaysDurable;
    HasEntries(start);
    assert Front(before + [call]) == before && Last(before + [call]) == call;
    DurableByLedger(start, before + [call], call.want);
  }
}
