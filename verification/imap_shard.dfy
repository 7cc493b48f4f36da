/**
 One worker's share of a folder, and the folder over all workers: routing by size, the byte
 budget, and the four counts.
 */
module ImapShard {
  import opened Prelude
  import opened Subsequence
  import opened ImapRestore

  /** A file of the snapshot: its size if it can be stat'ed, its message if it can be read. */
  datatype File = File(stat: Option<nat>, body: Option<Msg>)

  datatype Route = Unreadable | Oversize | Duplicate | Solo | Batched

  function RouteOf(f: File, dedup: Option<set<MessageId>>): Route {
    if f.stat.None? || f.body.None? then Unreadable
    else if f.stat.value >= SKIP_THRESHOLD then Oversize
    else if dedup.Some? && f.body.value.id.Some? && f.body.value.id.value in dedup.value then Duplicate
    else if f.stat.value >= SOLO_SYNC_THRESHOLD then Solo
    else Batched
  }

  /** What is to become of a file: it has no size or cannot be read; it has 90 MiB or more; or its
      message is already on the target. All others are wanted, those of 10 MiB or more alone. */
  predicate Falls(f: File, dedup: Option<set<MessageId>>, route: Route) {
    match route
    case Unreadable => f.stat == None || f.body == None
    case Oversize => f.stat.Some? && f.body.Some? && f.stat.value >= 94371840
    case Duplicate => f.stat.Some? && f.body.Some? && f.stat.value < 94371840 && AlreadyThere(f.body.value, dedup)
    case Solo => IsWanted(f, dedup) && f.stat.value >= 10485760
    case Batched => IsWanted(f, dedup) && f.stat.value < 10485760
  }

  /** Duplicates are skipped, the message has an id, and it is among those found. */
  predicate AlreadyThere(m: Msg, dedup: Option<set<MessageId>>) {
    dedup.Some? && m.id.Some? && m.id.value in dedup.value
  }

  predicate IsWanted(f: File, dedup: Option<set<MessageId>>) {
    f.stat.Some? && f.body.Some? && f.stat.value < 94371840 && !AlreadyThere(f.body.value, dedup)
  }

  /** The loop's tests sort the files just so. */
  lemma RouteFalls(f: File, dedup: Option<set<MessageId>>, route: Route)
    ensures Falls(f, dedup, route) <==> RouteOf(f, dedup) == route
    ensures IsWanted(f, dedup) <==> RouteOf(f, dedup) in {Solo, Batched}
  {
  }

  /** The messages that are to be appended, in file order. */
  function Wanted(files: seq<File>, dedup: Option<set<MessageId>>): seq<Msg> {
    if files == [] then []
    else Wanted(files[..|files| - 1], dedup) + WantedOf(files[|files| - 1], dedup)
  }

  function WantedOf(f: File, dedup: Option<set<MessageId>>): seq<Msg> {
    if IsWanted(f, dedup) then [f.body.value] else []
  }

  function Count(files: seq<File>, dedup: Option<set<MessageId>>, route: Route): nat {
    if files == [] then 0
    else Count(files[..|files| - 1], dedup, route) + (if Falls(files[|files| - 1], dedup, route) then 1 else 0)
  }

  /** The files that go a way, by index. */
  function Places(files: seq<File>, dedup: Option<set<MessageId>>, route: Route): set<nat> {
    set i: nat | i < |files| && Falls(files[i], dedup, route)
  }

  lemma PlacesSnoc(files: seq<File>, f: File, dedup: Option<set<MessageId>>, route: Route)
    ensures Places(files + [f], dedup, route) == Places(files, dedup, route) + (if Falls(f, dedup, route) then {|files|} else {})
    ensures |files| !in Places(files, dedup, route)
  {
    hide Falls;
  }

  lemma {:induction false} CountIsNumber(files: seq<File>, dedup: Option<set<MessageId>>, route: Route)
    ensures Count(files, dedup, route) == |Places(files, dedup, route)|
  {
    hide Falls;
    if files != [] {
      var front, f := files[..|files| - 1], files[|files| - 1];
      CountIsNumber(front, dedup, route);
      PlacesSnoc(front, f, dedup, route);
      assert files == front + [f];
    }
  }

  /** The files that are wanted and hold the message, by index. */
  function Holders(files: seq<File>, dedup: Option<set<MessageId>>, m: Msg): set<nat> {
    set i: nat | i < |files| && IsWanted(files[i], dedup) && files[i].body == Some(m)
  }

  lemma HoldersSnoc(files: seq<File>, f: File, dedup: Option<set<MessageId>>, m: Msg)
    ensures Holders(files + [f], dedup, m) ==
            Holders(files, dedup, m) + (if IsWanted(f, dedup) && f.body == Some(m) then {|files|} else {})
    ensures |files| !in Holders(files, dedup, m)
  {
    hide IsWanted;
  }

  /** A message is wanted as often as files that are wanted hold it. */
  lemma {:induction false} WantedAsOften(files: seq<File>, dedup: Option<set<MessageId>>, m: Msg)
    ensures multiset(Wanted(files, dedup))[m] == |Holders(files, dedup, m)|
  {
    hide Holders, AlreadyThere;
    if files == [] {
      NoHolders(dedup, m);
    } else {
      var front, f := files[..|files| - 1], files[|files| - 1];
      WantedAsOften(front, dedup, m);
      HoldersSnoc(front, f, dedup, m);
      assert files == front + [f];
      assert multiset(Wanted(files, dedup)) == multiset(Wanted(front, dedup)) + multiset(WantedOf(f, dedup));
    }
  }

  lemma NoHolders(dedup: Option<set<MessageId>>, m: Msg)
    ensures Holders([], dedup, m) == {}
  {
  }

  lemma WantedSnoc(files: seq<File>, f: File, dedup: Option<set<MessageId>>)
    ensures Wanted(files + [f], dedup) == Wanted(files, dedup) + WantedOf(f, dedup)
    ensures RouteOf(f, dedup) in {Solo, Batched} ==> f.body.Some? && WantedOf(f, dedup) == [f.body.value]
    ensures RouteOf(f, dedup) !in {Solo, Batched} ==> WantedOf(f, dedup) == []
  {
    RouteFalls(f, dedup, Solo);
    assert (files + [f])[..|files|] == files;
  }

  lemma CountSnoc(files: seq<File>, f: File, dedup: Option<set<MessageId>>, route: Route)
    ensures Count(files + [f], dedup, route) ==
            Count(files, dedup, route) + (if RouteOf(f, dedup) == route then 1 else 0)
  {
    RouteFalls(f, dedup, route);
    assert (files + [f])[..|files|] == files;
  }

  lemma {:induction false} WantedPrefix(files: seq<File>, i: nat, dedup: Option<set<MessageId>>)
    requires i <= |files|
    ensures Sub(Wanted(files[..i], dedup), Wanted(files, dedup))
    decreases |files| - i
  {
    if i == |files| {
      assert files[..i] == files;
      SubRefl(Wanted(files, dedup));
    } else {
      WantedPrefix(files, i + 1, dedup);
      var p := files[..i];
      assert files[..i + 1] == p + [files[i]];
      WantedSnoc(p, files[i], dedup);
      SubRefl(Wanted(p, dedup));
      SubNone(WantedOf(files[i], dedup));
      SubConcat(Wanted(p, dedup), Wanted(p, dedup), [], WantedOf(files[i], dedup));
      assert Wanted(p, dedup) + [] == Wanted(p, dedup);
      SubTrans(Wanted(p, dedup), Wanted(files[..i + 1], dedup), Wanted(files, dedup));
    }
  }

  /** No file changed between its stat and its read. */
  ghost predicate Stable(files: seq<File>) {
    forall f :: f in files && f.stat.Some? && f.body.Some? ==> f.stat.value == |f.body.value.body|
  }

  /** Every pipelined append stays within the message count, and within the byte budget as far
      as the sizes that were stat'ed are right. */
  ghost predicate WithinBudget(done: seq<Append>, stable: bool) {
    forall e :: e in done && e.literalPlus ==>
      |e.msgs| <= 200 && (stable ==> Bytes(e.msgs) <= 83886080)
  }

  datatype Tally = Tally(imported: nat, duplicate: nat, oversize: nat, failed: nat)

  function Total(t: Tally): nat {
    t.imported + t.duplicate + t.oversize + t.failed
  }

  // ---- what the loop keeps -------------------------------------------------

  /** The counts tell how the files seen so far went; `pending` messages are still queued. */
  ghost predicate TallyOk(files: seq<File>, dedup: Option<set<MessageId>>, done: seq<Append>, pending: nat, t: Tally) {
    && NoneBroken(done)
    && t.imported == |Added(done)|
    && t.duplicate == Count(files, dedup, Duplicate)
    && t.oversize == Count(files, dedup, Oversize)
    && t.failed == Count(files, dedup, Unreadable) + SoloRejections(done)
    && Total(t) + pending == |files|
  }

  /** A server that judges one by one has been given the good messages and no others, once
      the queue is out. */
  ghost predicate ExactSoFar(files: seq<File>, dedup: Option<set<MessageId>>, done: seq<Append>, batch: seq<Msg>) {
    forall good :: Pointwise(done, good) ==>
      Added(done) + Filter(batch, good) == Filter(Wanted(files, dedup), good)
  }

  ghost predicate Kept(files: seq<File>, dedup: Option<set<MessageId>>, done: seq<Append>, batch: seq<Msg>, t: Tally) {
    && TallyOk(files, dedup, done, |batch|, t)
    && Sub(Added(done) + batch, Wanted(files, dedup))
    && ExactSoFar(files, dedup, done, batch)
  }

  lemma KeptStart(dedup: Option<set<MessageId>>)
    ensures Kept([], dedup, [], [], Tally(0, 0, 0, 0))
  {
    hide Sub, Kept, ExactSoFar, TallyOk;
    var none: seq<Msg> := [];
    NoFiles(dedup);
    AddedNone();
    SubNone(none);
    assert Added([]) + none == none;
    KeptStartTally(dedup);
    KeptStartExact(dedup);
    KeptIs([], dedup, [], none, Tally(0, 0, 0, 0));
  }

  lemma KeptIs(files: seq<File>, dedup: Option<set<MessageId>>, done: seq<Append>, batch: seq<Msg>, t: Tally)
    requires TallyOk(files, dedup, done, |batch|, t) && Sub(Added(done) + batch, Wanted(files, dedup))
    requires ExactSoFar(files, dedup, done, batch)
    ensures Kept(files, dedup, done, batch, t)
  {
    hide TallyOk, Sub, ExactSoFar, Added, Wanted;
  }

  lemma KeptStartTally(dedup: Option<set<MessageId>>)
    ensures TallyOk([], dedup, [], 0, Tally(0, 0, 0, 0))
  {
  }

  lemma KeptStartExact(dedup: Option<set<MessageId>>)
    ensures ExactSoFar([], dedup, [], [])
  {
    hide Pointwise;
    forall good | Pointwise([], good) ensures Added([]) + Filter([], good) == Filter(Wanted([], dedup), good) {
      FilterNone(good);
      AddedNone();
    }
  }

  lemma NoFiles(dedup: Option<set<MessageId>>)
    ensures Wanted([], dedup) == [] && SoloRejections([]) == 0
    ensures forall route :: Count([], dedup, route) == 0
  {
  }

  lemma SkippedWanted(files: seq<File>, f: File, dedup: Option<set<MessageId>>)
    requires RouteOf(f, dedup) !in {Solo, Batched}
    ensures Wanted(files + [f], dedup) == Wanted(files, dedup)
  {
    WantedSnoc(files, f, dedup);
  }

  /** A file that is not appended. */
  lemma KeptSkip(files: seq<File>, dedup: Option<set<MessageId>>, done: seq<Append>, batch: seq<Msg>, t: Tally, f: File)
    requires Kept(files, dedup, done, batch, t)
    requires RouteOf(f, dedup) !in {Solo, Batched}
    ensures Kept(files + [f], dedup, done, batch,
                 if RouteOf(f, dedup).Oversize? then t.(oversize := t.oversize + 1)
                 else if RouteOf(f, dedup).Duplicate? then t.(duplicate := t.duplicate + 1)
                 else t.(failed := t.failed + 1))
  {
    hide Sub, Added, SoloRejections, Filter, Wanted, Count, Pointwise;
    SkippedWanted(files, f, dedup);
    CountSnoc(files, f, dedup, Duplicate);
    CountSnoc(files, f, dedup, Oversize);
    CountSnoc(files, f, dedup, Unreadable);
  }

  /** A small message joins the queue. */
  lemma KeptPush(files: seq<File>, dedup: Option<set<MessageId>>, done: seq<Append>, batch: seq<Msg>, t: Tally, f: File)
    requires Kept(files, dedup, done, batch, t) && RouteOf(f, dedup).Batched?
    ensures Kept(files + [f], dedup, done, batch + [f.body.value], t)
  {
    hide Sub, Added, SoloRejections, Filter;
    var m := f.body.value;
    WantedSnoc(files, f, dedup);
    CountSnoc(files, f, dedup, Duplicate);
    CountSnoc(files, f, dedup, Oversize);
    CountSnoc(files, f, dedup, Unreadable);
    SubTake(Added(done) + batch, Wanted(files, dedup), m);
    assert Added(done) + batch + [m] == Added(done) + (batch + [m]);
    forall good | Pointwise(done, good)
      ensures Added(done) + Filter(batch + [m], good) == Filter(Wanted(files + [f], dedup), good)
    {
      FilterSnoc(batch, m, good);
      FilterSnoc(Wanted(files, dedup), m, good);
      var tail := if m in good then [m] else [];
      assert Added(done) + (Filter(batch, good) + tail) == (Added(done) + Filter(batch, good)) + tail;
    }
  }

  /** The queue is flushed. */
  lemma KeptFlush(files: seq<File>, dedup: Option<set<MessageId>>, done: seq<Append>, batch: seq<Msg>, t: Tally,
                  d: seq<Append>, ok: nat, bad: nat)
    requires Kept(files, dedup, done, batch, t)
    requires FlushOk(batch, d, Counts(ok, bad)) && FlushExact(batch, d)
    ensures Kept(files, dedup, done + d, [], t.(imported := t.imported + ok, failed := t.failed + bad))
  {
    hide Sub, Added, SoloRejections, Filter, Wanted, Bounded, Count;
    AddedConcat(done, d);
    SoloRejectionsConcat(done, d);
    KeptFlushOrder(files, dedup, done, batch, d);
    assert Added(done + d) + [] == Added(done) + Added(d);
    forall good | Pointwise(done + d, good)
      ensures Added(done + d) + Filter([], good) == Filter(Wanted(files, dedup), good)
    {
      PointwiseParts(done, d, good);
      assert Filter<Msg>([], good) == [] by { FilterNone(good); }
    }
  }

  lemma FilterNone(good: iset<Msg>)
    ensures Filter([], good) == []
  {
  }

  lemma KeptFlushOrder(files: seq<File>, dedup: Option<set<MessageId>>, done: seq<Append>, batch: seq<Msg>, d: seq<Append>)
    requires Sub(Added(done) + batch, Wanted(files, dedup)) && Sub(Added(d), batch)
    ensures Sub(Added(done) + Added(d), Wanted(files, dedup))
  {
    SubRefl(Added(done));
    SubConcat(Added(done), Added(done), Added(d), batch);
    SubTrans(Added(done) + Added(d), Added(done) + batch, Wanted(files, dedup));
  }

  lemma SoloExact(files: seq<File>, dedup: Option<set<MessageId>>, done: seq<Append>, f: File, answer: Answer)
    requires ExactSoFar(files, dedup, done, []) && RouteOf(f, dedup).Solo? && !answer.Broken?
    ensures ExactSoFar(files + [f], dedup, done + [Append([f.body.value], false, answer)], [])
  {
    hide Added, Filter, Wanted, SoloRejections;
    var m := f.body.value;
    var e := Append([m], false, answer);
    WantedSnoc(files, f, dedup);
    OneAppend(e);
    AddedConcat(done, [e]);
    forall good | Pointwise(done + [e], good)
      ensures Added(done + [e]) + Filter([], good) == Filter(Wanted(files + [f], dedup), good)
    {
      PointwiseParts(done, [e], good);
      FilterNone(good);
      FilterSnoc(Wanted(files, dedup), m, good);
      assert e in [e];
    }
  }

  /** A large message goes alone, the queue being empty. */
  lemma KeptSolo(files: seq<File>, dedup: Option<set<MessageId>>, done: seq<Append>, t: Tally, f: File, answer: Answer)
    requires Kept(files, dedup, done, [], t) && RouteOf(f, dedup).Solo? && !answer.Broken?
    ensures Kept(files + [f], dedup, done + [Append([f.body.value], false, answer)], [],
                 if answer.Accepted? then t.(imported := t.imported + 1) else t.(failed := t.failed + 1))
  {
    hide Sub, Added, SoloRejections, ExactSoFar, Wanted, Count;
    var m := f.body.value;
    var e := Append([m], false, answer);
    SoloExact(files, dedup, done, f, answer);
    CountSnoc(files, f, dedup, Duplicate);
    CountSnoc(files, f, dedup, Oversize);
    CountSnoc(files, f, dedup, Unreadable);
    OneAppend(e);
    SoloRejectionsConcat(done, [e]);
    SoloOrder(files, dedup, done, f, answer);
  }

  lemma SoloOrder(files: seq<File>, dedup: Option<set<MessageId>>, done: seq<Append>, f: File, answer: Answer)
    requires Sub(Added(done) + [], Wanted(files, dedup)) && RouteOf(f, dedup).Solo?
    ensures var e := Append([f.body.value], false, answer);
            && Added(done + [e]) == Added(done) + AddedBy(e)
            && Sub(Added(done + [e]) + [], Wanted(files + [f], dedup))
  {
    hide Sub, Added, SoloRejections, Wanted;
    var m := f.body.value;
    var e := Append([m], false, answer);
    WantedSnoc(files, f, dedup);
    OneAppend(e);
    AddedConcat(done, [e]);
    assert Added(done) + [] == Added(done);
    SubTake(Added(done), Wanted(files, dedup), m);
    SubSkip(Added(done), Wanted(files, dedup), m);
    assert Added(done + [e]) + [] == Added(done) + AddedBy(e);
  }

  // ---- the loop ------------------------------------------------------------

  datatype Shard = Totals(tally: Tally) | Crashed

  /** The messages of files under 10 MiB. */
  ghost predicate AllSmall(msgs: seq<Msg>, files: seq<File>) {
    forall m :: m in msgs ==> exists f :: f in files && f.body == Some(m) && f.stat.Some? && f.stat.value < 10485760
  }

  /** What is sent with LITERAL+, or with other messages, is of files under 10 MiB. */
  ghost predicate SmallTogether(done: seq<Append>, files: seq<File>) {
    forall e :: e in done && (e.literalPlus || |e.msgs| > 1) ==> AllSmall(e.msgs, files)
  }

  /** Every wanted message of a file of 10 MiB or more is sent alone and without LITERAL+. */
  ghost predicate LargeAlone(files: seq<File>, dedup: Option<set<MessageId>>, done: seq<Append>) {
    forall f :: f in files && IsWanted(f, dedup) && f.stat.value >= 10485760 ==>
      exists e :: e in done && e.msgs == [f.body.value] && !e.literalPlus
  }

  /** How the loop has kept to that so far. */
  ghost predicate Routed(files: seq<File>, i: nat, dedup: Option<set<MessageId>>, done: seq<Append>, batch: seq<Msg>)
    requires i <= |files|
  {
    SmallTogether(done, files) && AllSmall(batch, files) && LargeAlone(files[..i], dedup, done)
  }

  lemma RoutedStart(files: seq<File>, dedup: Option<set<MessageId>>)
    ensures Routed(files, 0, dedup, [], [])
  {
  }

  lemma RoutedFlush(files: seq<File>, i: nat, dedup: Option<set<MessageId>>, done: seq<Append>, batch: seq<Msg>, more: seq<Append>)
    requires i <= |files| && Routed(files, i, dedup, done, batch) && done <= more && FromBatch(more[|done|..], batch)
    ensures Routed(files, i, dedup, more, [])
  {
    hide AlreadyThere, AllSmall;
    assert more == done + more[|done|..];
    forall e | e in more && (e.literalPlus || |e.msgs| > 1) ensures AllSmall(e.msgs, files) {
      if e !in done {
        assert e in more[|done|..];
        SmallPart(batch, e.msgs, files);
      }
    }
    SmallPart(batch, [], files);
    forall f | f in files[..i] && IsWanted(f, dedup) && f.stat.value >= 10485760
      ensures exists e :: e in more && e.msgs == [f.body.value] && !e.literalPlus
    {
      var e :| e in done && e.msgs == [f.body.value] && !e.literalPlus;
      assert e in more;
    }
  }

  lemma SmallPart(batch: seq<Msg>, msgs: seq<Msg>, files: seq<File>)
    requires AllSmall(batch, files) && forall m :: m in msgs ==> m in batch
    ensures AllSmall(msgs, files)
  {
  }

  /** A file that is skipped or queued. */
  lemma RoutedNext(files: seq<File>, i: nat, dedup: Option<set<MessageId>>, done: seq<Append>, batch: seq<Msg>, next: seq<Msg>)
    requires i < |files| && Routed(files, i, dedup, done, batch) && RouteOf(files[i], dedup) != Solo
    requires next == batch || (RouteOf(files[i], dedup).Batched? && next == batch + [files[i].body.value])
    ensures Routed(files, i + 1, dedup, done, next)
  {
    hide IsWanted;
    RouteFalls(files[i], dedup, Solo);
    RouteFalls(files[i], dedup, Batched);
    assert files[..i + 1] == files[..i] + [files[i]];
    assert files[i] in files;
  }

  /** A large file sent on its own. */
  lemma RoutedSolo(files: seq<File>, i: nat, dedup: Option<set<MessageId>>, done: seq<Append>, answer: Answer)
    requires i < |files| && Routed(files, i, dedup, done, []) && files[i].body.Some?
    ensures Routed(files, i + 1, dedup, done + [Append([files[i].body.value], false, answer)], [])
  {
    hide AlreadyThere;
    var more := done + [Append([files[i].body.value], false, answer)];
    assert files[..i + 1] == files[..i] + [files[i]];
    forall f | f in files[..i + 1] && IsWanted(f, dedup) && f.stat.value >= 10485760
      ensures exists e :: e in more && e.msgs == [f.body.value] && !e.literalPlus
    {
      if f in files[..i] {
        var e :| e in done && e.msgs == [f.body.value] && !e.literalPlus;
        assert e in more;
      } else {
        assert more[|done|] in more;
      }
    }
  }

  lemma RoutedSmall(files: seq<File>, i: nat, dedup: Option<set<MessageId>>, done: seq<Append>, batch: seq<Msg>)
    requires i <= |files| && Routed(files, i, dedup, done, batch)
    ensures SmallTogether(done, files)
  {
    hide SmallTogether, LargeAlone;
  }

  /** What is promised of a shard, whether it ends or an exception stops it. */
  ghost predicate ShardOk(files: seq<File>, dedup: Option<set<MessageId>>, done: seq<Append>, r: Shard) {
    && Sub(Added(done), Wanted(files, dedup))
    && WithinBudget(done, Stable(files))
    && SmallTogether(done, files) && (r.Totals? ==> LargeAlone(files, dedup, done))
    && (r.Totals? ==> TallyOk(files, dedup, done, 0, r.tally))
    && (r.Totals? ==> forall good :: Pointwise(done, good) ==> Added(done) == Filter(Wanted(files, dedup), good))
  }

  /** The queue as the loop keeps it: within the budget, its bytes counted by stat. */
  ghost predicate QueueOk(batch: seq<Msg>, batchBytes: nat, stable: bool) {
    && |batch| <= MAX_BATCH_COUNT && batchBytes <= LITERAL_PLUS_BUDGET && (batch == [] ==> batchBytes == 0)
    && (stable ==> Bytes(batch) == batchBytes)
  }

  lemma BudgetFlush(done: seq<Append>, batch: seq<Msg>, batchBytes: nat, d: seq<Append>, stable: bool)
    requires WithinBudget(done, stable) && QueueOk(batch, batchBytes, stable)
    requires Bounded(d, |batch|, Bytes(batch))
    ensures WithinBudget(done + d, stable)
  {
  }

  lemma CrashOk(files: seq<File>, i: nat, dedup: Option<set<MessageId>>, done: seq<Append>)
    requires i <= |files| && Sub(Added(done), Wanted(files[..i], dedup)) && WithinBudget(done, Stable(files))
    requires SmallTogether(done, files)
    ensures ShardOk(files, dedup, done, Crashed)
  {
    WantedPrefix(files, i, dedup);
    SubTrans(Added(done), Wanted(files[..i], dedup), Wanted(files, dedup));
  }

  lemma EndOk(files: seq<File>, dedup: Option<set<MessageId>>, done: seq<Append>, t: Tally)
    requires Kept(files, dedup, done, [], t) && WithinBudget(done, Stable(files)) && Routed(files, |files|, dedup, done, [])
    ensures ShardOk(files, dedup, done, Totals(t)) && NoneBroken(done)
  {
    hide Sub, Added, Filter, SmallTogether, LargeAlone, AllSmall;
    assert files[..|files|] == files;
    assert Added(done) + [] == Added(done);
    forall good | Pointwise(done, good) ensures Added(done) == Filter(Wanted(files, dedup), good) {
      FilterNone(good);
      assert Added(done) + Filter([], good) == Added(done);
    }
  }

  /** Flush the queue: the counts and the log after it, or an exception. */
  method Flush(client: Connection, batch: seq<Msg>, t: Tally, ghost files: seq<File>, ghost dedup: Option<set<MessageId>>,
               ghost sofar: seq<Append>, ghost batchBytes: nat, ghost stable: bool)
    returns (t': Tally, raised: bool, ghost done: seq<Append>)
    requires Kept(files, dedup, sofar, batch, t) && WithinBudget(sofar, stable) && QueueOk(batch, batchBytes, stable)
    modifies client
    ensures sofar <= done && client.log == old(client.log) + done[|sofar|..]
    ensures WithinBudget(done, stable)
    ensures !raised ==> Kept(files, dedup, done, [], t')
    ensures raised ==> Sub(Added(done), Wanted(files, dedup)) && !NoneBroken(done)
    ensures FromBatch(done[|sofar|..], batch)
  {
    hide FromBatch, Kept, FlushExact, FlushCost, Bytes, Sub, Wanted, Added, Filter, SoloRejections, QueueOk, WithinBudget;
    var r, d := FlushBatch(client, batch);
    done := sofar + d;
    assert done[|sofar|..] == d;
    BudgetFlush(sofar, batch, batchBytes, d, stable);
    t' := t;
    raised := r.Raised?;
    if r.Counts? {
      KeptFlush(files, dedup, sofar, batch, t, d, r.imported, r.failed);
      t' := t.(imported := t.imported + r.imported, failed := t.failed + r.failed);
    } else {
      RaisedOrder(files, dedup, sofar, batch, t, d);
    }
  }

  lemma RaisedOrder(files: seq<File>, dedup: Option<set<MessageId>>, done: seq<Append>, batch: seq<Msg>, t: Tally, d: seq<Append>)
    requires Kept(files, dedup, done, batch, t) && Sub(Added(d), batch) && !NoneBroken(d)
    ensures Sub(Added(done + d), Wanted(files, dedup)) && !NoneBroken(done + d)
  {
    var e :| e in d && e.answer.Broken?;
    assert e in done + d;
    AddedConcat(done, d);
    KeptFlushOrder(files, dedup, done, batch, d);
  }

  /** The main loop, over the files whose size is known. */
  method RestoreSized(client: Connection, files: seq<File>, dedup: Option<set<MessageId>>)
    returns (r: Shard, ghost done: seq<Append>)
    requires forall f :: f in files ==> f.stat.Some?
    modifies client
    ensures client.log == old(client.log) + done
    ensures ShardOk(files, dedup, done, r) && (r.Crashed? <==> !NoneBroken(done))
  {
    hide Kept, ShardOk, WithinBudget, QueueOk, Stable, Wanted, Count, Routed, SmallTogether, FromBatch;
    var t := Tally(0, 0, 0, 0);
    var batch: seq<Msg> := [];
    var batchBytes: nat := 0;
    var raised := false;
    done := [];
    KeptStart(dedup);
    RoutedStart(files, dedup);
    EmptyQueue(Stable(files));
    for i := 0 to |files|
      invariant client.log == old(client.log) + done
      invariant Kept(files[..i], dedup, done, batch, t) && Routed(files, i, dedup, done, batch)
      invariant WithinBudget(done, Stable(files)) && QueueOk(batch, batchBytes, Stable(files))
    {
      var f := files[i];
      assert files[..i + 1] == files[..i] + [f];
      var route := RouteOf(f, dedup);
      if route.Unreadable? {
        KeptSkip(files[..i], dedup, done, batch, t, f);
        RoutedNext(files, i, dedup, done, batch, batch);
        t := t.(failed := t.failed + 1);
      } else if route.Oversize? {
        KeptSkip(files[..i], dedup, done, batch, t, f);
        RoutedNext(files, i, dedup, done, batch, batch);
        t := t.(oversize := t.oversize + 1);
      } else if route.Duplicate? {
        KeptSkip(files[..i], dedup, done, batch, t, f);
        RoutedNext(files, i, dedup, done, batch, batch);
        t := t.(duplicate := t.duplicate + 1);
      } else if route.Solo? {
        ghost var before := done;
        t, raised, done := Flush(client, batch, t, files[..i], dedup, before, batchBytes, Stable(files));
        RoutedFlush(files, i, dedup, before, batch, done);
        batch, batchBytes := [], 0;
        EmptyQueue(Stable(files));
        assert client.log == old(client.log) + done;
        if raised {
          RoutedSmall(files, i, dedup, done, []);
          CrashOk(files, i, dedup, done);
          return Crashed, done;
        }
        var answer := client.Send([f.body.value], false);
        ghost var e := Append([f.body.value], false, answer);
        BudgetSolo(done, e, Stable(files));
        RoutedSolo(files, i, dedup, done, answer);
        if answer.Broken? {
          RoutedSmall(files, i + 1, dedup, done + [e], []);
          SoloCrash(files, i, dedup, done, t, answer);
          done := done + [e];
          return Crashed, done;
        }
        KeptSolo(files[..i], dedup, done, t, f, answer);
        done := done + [e];
        t := if answer.Accepted? then t.(imported := t.imported + 1) else t.(failed := t.failed + 1);
      } else {
        var size := f.stat.value;
        if batch != [] && (batchBytes + size > LITERAL_PLUS_BUDGET || |batch| >= MAX_BATCH_COUNT) {
          ghost var before := done;
          t, raised, done := Flush(client, batch, t, files[..i], dedup, before, batchBytes, Stable(files));
          RoutedFlush(files, i, dedup, before, batch, done);
          batch, batchBytes := [], 0;
          EmptyQueue(Stable(files));
          assert client.log == old(client.log) + done;
          if raised {
            RoutedSmall(files, i, dedup, done, []);
            CrashOk(files, i, dedup, done);
            return Crashed, done;
          }
        }
        KeptPush(files[..i], dedup, done, batch, t, f);
        QueuePush(files, i, batch, batchBytes, dedup);
        RoutedNext(files, i, dedup, done, batch, batch + [f.body.value]);
        batch := batch + [f.body.value];
        batchBytes := batchBytes + size;
      }
    }
    assert files[..|files|] == files;
    ghost var before := done;
    t, raised, done := Flush(client, batch, t, files, dedup, before, batchBytes, Stable(files));
    RoutedFlush(files, |files|, dedup, before, batch, done);
    assert client.log == old(client.log) + done;
    if raised {
      RoutedSmall(files, |files|, dedup, done, []);
      CrashOk(files, |files|, dedup, done);
      return Crashed, done;
    }
    EndOk(files, dedup, done, t);
    r := Totals(t);
  }

  lemma EmptyQueue(stable: bool)
    ensures QueueOk([], 0, stable) && WithinBudget([], stable)
  {
  }

  lemma BudgetSolo(done: seq<Append>, e: Append, stable: bool)
    requires WithinBudget(done, stable) && !e.literalPlus
    ensures WithinBudget(done + [e], stable)
  {
  }

  lemma SoloCrash(files: seq<File>, i: nat, dedup: Option<set<MessageId>>, done: seq<Append>, t: Tally, answer: Answer)
    requires i < |files| && Kept(files[..i], dedup, done, [], t) && RouteOf(files[i], dedup).Solo?
    requires WithinBudget(done + [Append([files[i].body.value], false, answer)], Stable(files))
    requires SmallTogether(done + [Append([files[i].body.value], false, answer)], files)
    ensures ShardOk(files, dedup, done + [Append([files[i].body.value], false, answer)], Crashed)
    ensures answer.Broken? ==> !NoneBroken(done + [Append([files[i].body.value], false, answer)])
  {
    hide Sub, Added, Wanted, WithinBudget, ExactSoFar, TallyOk, SmallTogether;
    var e := Append([files[i].body.value], false, answer);
    assert e in done + [e];
    SoloOrder(files[..i], dedup, done, files[i], answer);
    assert files[..i + 1] == files[..i] + [files[i]];
    assert Added(done + [e]) + [] == Added(done + [e]);
    CrashOk(files, i + 1, dedup, done + [e]);
  }

  /** A small message fits: into an empty queue always, else because of the test before it. */
  lemma QueuePush(files: seq<File>, i: nat, batch: seq<Msg>, batchBytes: nat, dedup: Option<set<MessageId>>)
    requires i < |files| && RouteOf(files[i], dedup).Batched? && QueueOk(batch, batchBytes, Stable(files))
    requires batch == [] || (batchBytes + files[i].stat.value <= LITERAL_PLUS_BUDGET && |batch| < MAX_BATCH_COUNT)
    ensures QueueOk(batch + [files[i].body.value], batchBytes + files[i].stat.value, Stable(files))
  {
    assert files[i] in files;
    var m := files[i].body.value;
    assert (batch + [m])[..|batch|] == batch;
  }

  // ---- files without a size ------------------------------------------------

  /** `sized` is `files` without the `failed` ones that could not be stat'ed. */
  ghost predicate SizedFrom(files: seq<File>, sized: seq<File>, failed: nat, dedup: Option<set<MessageId>>) {
    && (forall f :: f in sized <==> f.stat.Some? && f in files)
    && Wanted(sized, dedup) == Wanted(files, dedup)
    && Count(sized, dedup, Duplicate) == Count(files, dedup, Duplicate)
    && Count(sized, dedup, Oversize) == Count(files, dedup, Oversize)
    && Count(sized, dedup, Unreadable) + failed == Count(files, dedup, Unreadable)
    && |sized| + failed == |files|
  }

  lemma SizedStep(files: seq<File>, sized: seq<File>, failed: nat, dedup: Option<set<MessageId>>, f: File)
    requires SizedFrom(files, sized, failed, dedup)
    ensures f.stat.Some? ==> SizedFrom(files + [f], sized + [f], failed, dedup)
    ensures f.stat.None? ==> SizedFrom(files + [f], sized, failed + 1, dedup)
  {
    hide Wanted, Count;
    WantedSnoc(files, f, dedup);
    WantedSnoc(sized, f, dedup);
    CountSnoc(files, f, dedup, Duplicate);
    CountSnoc(files, f, dedup, Oversize);
    CountSnoc(files, f, dedup, Unreadable);
    CountSnoc(sized, f, dedup, Duplicate);
    CountSnoc(sized, f, dedup, Oversize);
    CountSnoc(sized, f, dedup, Unreadable);
  }

  lemma SizedShardOk(files: seq<File>, sized: seq<File>, failed: nat, dedup: Option<set<MessageId>>, done: seq<Append>, r: Shard)
    requires SizedFrom(files, sized, failed, dedup) && ShardOk(sized, dedup, done, r)
    ensures ShardOk(files, dedup, done,
                    if r.Totals? then Totals(r.tally.(failed := r.tally.failed + failed)) else Crashed)
  {
    hide Wanted, Count, Added, Sub, Filter, SoloRejections, SmallTogether, LargeAlone;
    assert Stable(files) ==> Stable(sized);
    SizedRouted(files, sized, failed, dedup, done);
  }

  lemma SizedRouted(files: seq<File>, sized: seq<File>, failed: nat, dedup: Option<set<MessageId>>, done: seq<Append>)
    requires SizedFrom(files, sized, failed, dedup)
    ensures SmallTogether(done, sized) ==> SmallTogether(done, files)
    ensures LargeAlone(sized, dedup, done) ==> LargeAlone(files, dedup, done)
  {
    hide Wanted, Count;
    if SmallTogether(done, sized) {
      forall e, m | e in done && (e.literalPlus || |e.msgs| > 1) && m in e.msgs
        ensures exists f :: f in files && f.body == Some(m) && f.stat.Some? && f.stat.value < 10485760
      {
        assert AllSmall(e.msgs, sized);
        var f :| f in sized && f.body == Some(m) && f.stat.Some? && f.stat.value < 10485760;
        assert f in files;
      }
    }
  }

  /** One worker's share: every message that should be appended is appended in order or counted
      as failed, whatever the server answers. Only a broken append stops it. */
  method RestoreShard(client: Connection, files: seq<File>, dedup: Option<set<MessageId>>)
    returns (r: Shard, ghost done: seq<Append>)
    modifies client
    ensures client.log == old(client.log) + done
    ensures ShardOk(files, dedup, done, r) && (r.Crashed? <==> !NoneBroken(done))
  {
    hide ShardOk, Wanted, Count;
    var sized: seq<File> := [];
    var failed: nat := 0;
    NoFiles(dedup);
    for i := 0 to |files|
      invariant SizedFrom(files[..i], sized, failed, dedup)
      invariant client.log == old(client.log)
    {
      assert files[..i + 1] == files[..i] + [files[i]];
      SizedStep(files[..i], sized, failed, dedup, files[i]);
      if files[i].stat.None? {
        failed := failed + 1;
      } else {
        sized := sized + [files[i]];
      }
    }
    assert files[..|files|] == files;
    r, done := RestoreSized(client, sized, dedup);
    SizedShardOk(files, sized, failed, dedup, done, r);
    if r.Totals? {
      r := Totals(r.tally.(failed := r.tally.failed + failed));
    }
  }

  // ---- all workers ---------------------------------------------------------

  /** What a worker adds to the totals: its counts, or all its files as failed. */
  function Contribution(shard: seq<File>, r: Shard): Tally {
    if r.Totals? then r.tally else Tally(0, 0, 0, |shard|)
  }

  function Plus(a: Tally, b: Tally): Tally {
    Tally(a.imported + b.imported, a.duplicate + b.duplicate, a.oversize + b.oversize, a.failed + b.failed)
  }

  /** A worker crashes when its folder cannot be selected, though it has files, or when an
      append breaks off. */
  ghost predicate CrashExplained(shard: seq<File>, folderSelected: bool, done: seq<Append>, r: Shard) {
    r.Crashed? <==> (shard != [] && !folderSelected) || !NoneBroken(done)
  }

  method Worker(client: Connection, folderSelected: bool, shard: seq<File>, dedup: Option<set<MessageId>>)
    returns (t: Tally, ghost r: Shard, ghost done: seq<Append>)
    modifies client
    ensures client.log == old(client.log) + done
    ensures ShardOk(shard, dedup, done, r) && CrashExplained(shard, folderSelected, done, r)
    ensures t == Contribution(shard, r) && Total(t) == |shard|
  {
    hide Wanted, Added, Filter, Count, SoloRejections, Sub;
    done := [];
    if shard == [] {
      NothingToDo(dedup);
      return Tally(0, 0, 0, 0), Totals(Tally(0, 0, 0, 0)), [];
    }
    if !folderSelected {
      NothingDone(shard, dedup);
      return Tally(0, 0, 0, |shard|), Crashed, [];
    }
    var outcome, log := RestoreShard(client, shard, dedup);
    done, r := log, outcome;
    t := if outcome.Totals? then outcome.tally else Tally(0, 0, 0, |shard|);
  }

  lemma NothingToDo(dedup: Option<set<MessageId>>)
    ensures ShardOk([], dedup, [], Totals(Tally(0, 0, 0, 0)))
  {
    hide Kept, ShardOk, WithinBudget, Routed;
    KeptStart(dedup);
    RoutedStart([], dedup);
    EmptyQueue(Stable([]));
    EndOk([], dedup, [], Tally(0, 0, 0, 0));
  }

  lemma NothingDone(shard: seq<File>, dedup: Option<set<MessageId>>)
    ensures ShardOk(shard, dedup, [], Crashed)
  {
    SubNone(Wanted(shard, dedup));
  }

  /** The lengths of the first `m` of `n` shares. */
  function Lengths(files: seq<File>, n: nat, m: nat): nat
    requires n > 0
  {
    if m == 0 then 0 else Lengths(files, n, m - 1) + |Stride(files, m - 1, n)|
  }

  lemma {:induction false} LengthsSnoc(files: seq<File>, x: File, n: nat, m: nat)
    requires n > 0
    ensures Lengths(files + [x], n, m) == Lengths(files, n, m) + (if |files| % n < m then 1 else 0)
  {
    if m > 0 {
      LengthsSnoc(files, x, n, m - 1);
      assert (files + [x])[..|files|] == files;
    }
  }

  /** Every file is in just one share. */
  lemma {:induction false} LengthsAll(files: seq<File>, n: nat)
    requires n > 0
    ensures Lengths(files, n, n) == |files|
  {
    if files == [] {
      LengthsNone(n, n);
    } else {
      var front, x := files[..|files| - 1], files[|files| - 1];
      LengthsAll(front, n);
      LengthsSnoc(front, x, n, n);
      assert files == front + [x];
    }
  }

  lemma {:induction false} LengthsNone(n: nat, m: nat)
    requires n > 0
    ensures Lengths([], n, m) == 0
  {
    if m > 0 {
      LengthsNone(n, m - 1);
    }
  }

  function Sum(files: seq<File>, n: nat, results: seq<Shard>): Tally
    requires n > 0
  {
    if results == [] then Tally(0, 0, 0, 0)
    else
      var m := |results| - 1;
      Plus(Sum(files, n, results[..m]), Contribution(Stride(files, m, n), results[m]))
  }

  lemma SumSnoc(files: seq<File>, n: nat, results: seq<Shard>, r: Shard)
    requires n > 0
    ensures Sum(files, n, results + [r]) ==
            Plus(Sum(files, n, results), Contribution(Stride(files, |results|, n), r))
  {
    assert (results + [r])[..|results|] == results;
  }

  /** The first |results| workers have each kept to their share. */
  ghost predicate SharesOk(files: seq<File>, n: nat, dedup: Option<set<MessageId>>, selected: seq<bool>,
                           dones: seq<seq<Append>>, results: seq<Shard>)
    requires n > 0
  {
    && |dones| == |results| <= |selected|
    && forall k :: 0 <= k < |results| ==>
         && ShardOk(Stride(files, k, n), dedup, dones[k], results[k])
         && CrashExplained(Stride(files, k, n), selected[k], dones[k], results[k])
  }

  lemma SharesSnoc(files: seq<File>, n: nat, dedup: Option<set<MessageId>>, selected: seq<bool>, dones: seq<seq<Append>>,
                   results: seq<Shard>, done: seq<Append>, r: Shard)
    requires n > 0 && SharesOk(files, n, dedup, selected, dones, results) && |results| < |selected|
    requires ShardOk(Stride(files, |results|, n), dedup, done, r)
    requires CrashExplained(Stride(files, |results|, n), selected[|results|], done, r)
    ensures SharesOk(files, n, dedup, selected, dones + [done], results + [r])
  {
    hide ShardOk, Stride, CrashExplained;
  }

  // ---- all workers against a server that judges messages one by one --------

  /** Everything the first `m` connections added. */
  ghost function AddedByAll(dones: seq<seq<Append>>): multiset<Msg> {
    if dones == [] then multiset{}
    else AddedByAll(dones[..|dones| - 1]) + multiset(Added(dones[|dones| - 1]))
  }

  /** The good messages of the first `m` of `n` shares. */
  ghost function GoodInShares(files: seq<File>, dedup: Option<set<MessageId>>, good: iset<Msg>, n: nat, m: nat): multiset<Msg>
    requires n > 0
  {
    if m == 0 then multiset{}
    else GoodInShares(files, dedup, good, n, m - 1) + multiset(Filter(Wanted(Stride(files, m - 1, n), dedup), good))
  }

  lemma {:induction false} GoodSnoc(files: seq<File>, x: File, dedup: Option<set<MessageId>>, good: iset<Msg>, n: nat, m: nat)
    requires n > 0
    ensures GoodInShares(files + [x], dedup, good, n, m) ==
            GoodInShares(files, dedup, good, n, m) +
            (if |files| % n < m then multiset(Filter(WantedOf(x, dedup), good)) else multiset{})
  {
    hide Filter, Wanted, WantedOf, Stride;
    if m > 0 {
      GoodSnoc(files, x, dedup, good, n, m - 1);
      GoodShare(files, x, dedup, good, n, m - 1);
    }
  }

  /** One share gains the good part of a new file, or stays as it is. */
  lemma GoodShare(files: seq<File>, x: File, dedup: Option<set<MessageId>>, good: iset<Msg>, n: nat, k: nat)
    requires n > 0
    ensures multiset(Filter(Wanted(Stride(files + [x], k, n), dedup), good)) ==
            multiset(Filter(Wanted(Stride(files, k, n), dedup), good)) +
            (if |files| % n == k then multiset(Filter(WantedOf(x, dedup), good)) else multiset{})
  {
    hide Filter, Wanted, WantedOf;
    var share := Stride(files, k, n);
    assert (files + [x])[..|files|] == files;
    if |files| % n == k {
      assert Stride(files + [x], k, n) == share + [x];
      WantedSnoc(share, x, dedup);
      FilterConcat(Wanted(share, dedup), WantedOf(x, dedup), good);
    } else {
      assert Stride(files + [x], k, n) == share;
    }
  }

  lemma {:induction false} GoodAll(files: seq<File>, dedup: Option<set<MessageId>>, good: iset<Msg>, n: nat)
    requires n > 0
    ensures GoodInShares(files, dedup, good, n, n) == multiset(Filter(Wanted(files, dedup), good))
  {
    hide Filter, Wanted, WantedOf, GoodInShares;
    if files == [] {
      GoodNone(dedup, good, n, n);
    } else {
      var front, x := files[..|files| - 1], files[|files| - 1];
      GoodAll(front, dedup, good, n);
      GoodSnoc(front, x, dedup, good, n, n);
      assert files == front + [x] && |front| % n < n;
      WantedSnoc(front, x, dedup);
      FilterConcat(Wanted(front, dedup), WantedOf(x, dedup), good);
    }
  }

  lemma {:induction false} GoodNone(dedup: Option<set<MessageId>>, good: iset<Msg>, n: nat, m: nat)
    requires n > 0
    ensures GoodInShares([], dedup, good, n, m) == multiset(Filter(Wanted([], dedup), good)) == multiset{}
  {
    if m > 0 {
      GoodNone(dedup, good, n, m - 1);
    }
  }

  /** Every worker that has files could select the folder, no append broke off, and the server
      judges messages one by one. */
  ghost predicate Undisturbed(files: seq<File>, selected: seq<bool>, dones: seq<seq<Append>>, good: iset<Msg>) {
    forall k :: 0 <= k < |dones| <= |selected| ==>
      && (Stride(files, k, |dones|) != [] ==> selected[k])
      && NoneBroken(dones[k]) && Pointwise(dones[k], good)
  }

  lemma {:induction false} AddedIsGood(files: seq<File>, dedup: Option<set<MessageId>>, dones: seq<seq<Append>>,
                                       results: seq<Shard>, good: iset<Msg>, n: nat)
    requires n > 0 && |dones| == |results|
    requires forall k :: 0 <= k < |results| ==>
               ShardOk(Stride(files, k, n), dedup, dones[k], results[k]) && results[k].Totals? && Pointwise(dones[k], good)
    ensures AddedByAll(dones) == GoodInShares(files, dedup, good, n, |dones|)
    ensures Sum(files, n, results).imported == |AddedByAll(dones)|
  {
    hide Filter, Wanted, Pointwise, Added, Stride, ShardOk, Sum, AddedByAll, GoodInShares;
    if dones == [] {
      NoneAdded(files, dedup, good, n);
    } else {
      var m := |dones| - 1;
      AddedIsGood(files, dedup, dones[..m], results[..m], good, n);
      ShareAdds(Stride(files, m, n), dedup, dones[m], results[m], good);
      OneMoreAdded(files, dedup, dones[..m], results[..m], dones[m], results[m], good, n);
      assert dones == dones[..m] + [dones[m]] && results == results[..m] + [results[m]];
    }
  }

  lemma NoneAdded(files: seq<File>, dedup: Option<set<MessageId>>, good: iset<Msg>, n: nat)
    requires n > 0
    ensures AddedByAll([]) == multiset{} == GoodInShares(files, dedup, good, n, 0) && Sum(files, n, []).imported == 0
  {
  }

  lemma OneMoreAdded(files: seq<File>, dedup: Option<set<MessageId>>, dones: seq<seq<Append>>, results: seq<Shard>,
                     done: seq<Append>, r: Shard, good: iset<Msg>, n: nat)
    requires n > 0 && r.Totals?
    ensures AddedByAll(dones + [done]) == AddedByAll(dones) + multiset(Added(done))
    ensures var m := |dones|;
            GoodInShares(files, dedup, good, n, m + 1) ==
            GoodInShares(files, dedup, good, n, m) + multiset(Filter(Wanted(Stride(files, m, n), dedup), good))
    ensures Sum(files, n, results + [r]).imported == Sum(files, n, results).imported + r.tally.imported
  {
    hide Filter, Wanted, Added, Stride;
    assert (dones + [done])[..|dones|] == dones && (results + [r])[..|results|] == results;
  }

  lemma ShareAdds(shard: seq<File>, dedup: Option<set<MessageId>>, done: seq<Append>, r: Shard, good: iset<Msg>)
    requires ShardOk(shard, dedup, done, r) && r.Totals? && Pointwise(done, good)
    ensures Added(done) == Filter(Wanted(shard, dedup), good) && r.tally.imported == |Added(done)|
  {
    hide Filter, Wanted, Pointwise, Added, Sub, WithinBudget, Count, SoloRejections, Stable;
  }

  /** Undisturbed, the connections together added every message that is wanted and that the
      server takes, each as often as the snapshot holds it, and `imported` is their number. */
  ghost predicate AddedExactly(files: seq<File>, dedup: Option<set<MessageId>>, selected: seq<bool>,
                               dones: seq<seq<Append>>, imported: nat)
  {
    forall good :: Undisturbed(files, selected, dones, good) ==>
      && AddedByAll(dones) == multiset(Filter(Wanted(files, dedup), good))
      && imported == |Filter(Wanted(files, dedup), good)|
  }

  lemma ParallelExact(files: seq<File>, dedup: Option<set<MessageId>>, selected: seq<bool>, dones: seq<seq<Append>>,
                      results: seq<Shard>)
    requires results != [] && SharesOk(files, |results|, dedup, selected, dones, results)
    ensures AddedExactly(files, dedup, selected, dones, Sum(files, |results|, results).imported)
  {
    hide Filter, Wanted, SharesOk, Undisturbed, AddedByAll, Sum;
    forall good | Undisturbed(files, selected, dones, good)
      ensures AddedByAll(dones) == multiset(Filter(Wanted(files, dedup), good))
      ensures Sum(files, |results|, results).imported == |Filter(Wanted(files, dedup), good)|
    {
      SharesMakeUpFolder(files, dedup, selected, dones, results, good);
    }
  }

  lemma SharesMakeUpFolder(files: seq<File>, dedup: Option<set<MessageId>>, selected: seq<bool>, dones: seq<seq<Append>>,
                           results: seq<Shard>, good: iset<Msg>)
    requires results != [] && SharesOk(files, |results|, dedup, selected, dones, results)
    requires Undisturbed(files, selected, dones, good)
    ensures AddedByAll(dones) == multiset(Filter(Wanted(files, dedup), good))
    ensures Sum(files, |results|, results).imported == |Filter(Wanted(files, dedup), good)|
  {
    hide Filter, Wanted, Pointwise, Added, Sub, Stride, ShardOk;
    AddedIsGood(files, dedup, dones, results, good, |results|);
    GoodAll(files, dedup, good, |results|);
  }

  // ---- the mailbox all connections append to -------------------------------

  /** An append and the connection that sent it. */
  datatype Arrival = Arrival(sender: nat, append: Append)

  /** What arrived from connection `k`, in order. */
  function From(arrivals: seq<Arrival>, k: nat): seq<Append> {
    if arrivals == [] then []
    else From(Front(arrivals), k) + (if Last(arrivals).sender == k then [Last(arrivals).append] else [])
  }

  /** The workers run at once: what the connections sent arrives in any interleaving. */
  ghost predicate Interleaves(arrivals: seq<Arrival>, dones: seq<seq<Append>>) {
    && (forall i :: 0 <= i < |arrivals| ==> arrivals[i].sender < |dones|)
    && forall k :: 0 <= k < |dones| ==> From(arrivals, k) == dones[k]
  }

  /** The messages the mailbox has received, in order. */
  function Received(arrivals: seq<Arrival>): seq<Msg> {
    if arrivals == [] then [] else Received(Front(arrivals)) + AddedBy(Last(arrivals).append)
  }

  lemma {:induction false} OneMoreSent(dones: seq<seq<Append>>, k: nat, d: seq<Append>, e: Append)
    requires k < |dones| && dones[k] == d + [e]
    ensures AddedByAll(dones) == AddedByAll(dones[k := d]) + multiset(AddedBy(e))
  {
    hide Added, AddedBy;
    var m := |dones| - 1;
    if k == m {
      AddedSnoc(d, e);
      assert dones[k := d][..m] == dones[..m];
    } else {
      OneMoreSent(dones[..m], k, d, e);
      assert dones[k := d][..m] == dones[..m][k := d];
    }
  }

  lemma {:induction false} NothingSent(dones: seq<seq<Append>>)
    requires forall k :: 0 <= k < |dones| ==> dones[k] == []
    ensures AddedByAll(dones) == multiset{}
  {
    if dones != [] {
      NothingSent(dones[..|dones| - 1]);
      AddedNone();
    }
  }

  /** However the connections' appends interleave, the mailbox has received what they added, each
      as often, and the messages of each connection in its order. */
  lemma {:induction false} MailboxReceives(arrivals: seq<Arrival>, dones: seq<seq<Append>>)
    requires Interleaves(arrivals, dones)
    ensures multiset(Received(arrivals)) == AddedByAll(dones)
    ensures forall k :: 0 <= k < |dones| ==> Sub(Added(dones[k]), Received(arrivals))
    decreases |arrivals|
  {
    hide AddedByAll, Added, AddedBy, Sub;
    if arrivals == [] {
      NothingSent(dones);
      AddedNone();
      SubNone<Msg>([]);
    } else {
      var front, k, e := Front(arrivals), Last(arrivals).sender, Last(arrivals).append;
      var before := dones[k := From(front, k)];
      MailboxReceives(front, before);
      OneMoreSent(dones, k, From(front, k), e);
      forall j | 0 <= j < |dones| ensures Sub(Added(dones[j]), Received(arrivals)) {
        if j == k {
          AddedSnoc(before[k], e);
          SubRefl(AddedBy(e));
          SubConcat(Added(before[k]), Received(front), AddedBy(e), AddedBy(e));
        } else {
          SubNone(AddedBy(e));
          SubConcat(Added(before[j]), Received(front), [], AddedBy(e));
          assert Added(before[j]) + [] == Added(dones[j]);
        }
      }
    }
  }

  /** So an undisturbed restore leaves, beyond what the mailbox held, exactly the wanted messages
      the server takes. */
  lemma MailboxExact(arrivals: seq<Arrival>, files: seq<File>, dedup: Option<set<MessageId>>, selected: seq<bool>,
                     dones: seq<seq<Append>>, imported: nat, good: iset<Msg>)
    requires Interleaves(arrivals, dones) && AddedExactly(files, dedup, selected, dones, imported)
    requires Undisturbed(files, selected, dones, good)
    ensures multiset(Received(arrivals)) == multiset(Filter(Wanted(files, dedup), good)) && imported == |Received(arrivals)|
  {
    hide Received, AddedByAll, Filter, Wanted, Undisturbed, Interleaves;
    MailboxReceives(arrivals, dones);
    assert |multiset(Received(arrivals))| == |Received(arrivals)|;
    assert |multiset(Filter(Wanted(files, dedup), good))| == |Filter(Wanted(files, dedup), good)|;
  }

  /** The whole folder: the four counts add up to the number of files for every number of
      workers above zero, crashed ones included, and each connection has appended, in order,
      messages of its own share only. Undisturbed, the folder has received exactly the wanted
      messages the server takes. */
  method RestoreParallel(clients: seq<Connection>, folderSelected: seq<bool>, files: seq<File>, dedup: Option<set<MessageId>>)
    returns (t: Tally, ghost results: seq<Shard>, ghost dones: seq<seq<Append>>)
    requires |folderSelected| == |clients|
    requires forall i, j :: 0 <= i < j < |clients| ==> clients[i] != clients[j]
    modifies clients
    ensures |results| == |dones| == |clients|
    ensures forall k :: 0 <= k < |clients| ==> clients[k].log == old(clients[k].log) + dones[k]
    ensures clients != [] ==>
              SharesOk(files, |clients|, dedup, folderSelected, dones, results)
              && t == Sum(files, |clients|, results) && Total(t) == |files|
    ensures clients != [] ==> AddedExactly(files, dedup, folderSelected, dones, t.imported)
    ensures clients == [] ==> t == Tally(0, 0, 0, 0)
  {
    hide ShardOk, Stride, SharesOk, Sum, Contribution, CrashExplained, AddedExactly;
    t, results, dones := Tally(0, 0, 0, 0), [], [];
    var n := |clients|;
    if n < 1 {
      return;
    }
    NoShares(files, n, dedup, folderSelected);
    for k := 0 to n
      invariant |results| == |dones| == k
      invariant forall j :: 0 <= j < k ==> clients[j].log == old(clients[j].log) + dones[j]
      invariant forall j :: k <= j < n ==> clients[j].log == old(clients[j].log)
      invariant SharesOk(files, n, dedup, folderSelected, dones, results)
      invariant t == Sum(files, n, results)
    {
      var part, r, done := Worker(clients[k], folderSelected[k], Stride(files, k, n), dedup);
      SharesSnoc(files, n, dedup, folderSelected, dones, results, done, r);
      SumSnoc(files, n, results, r);
      results, dones := results + [r], dones + [done];
      t := Plus(t, part);
    }
    AllCounted(files, dedup, folderSelected, dones, results);
    ParallelExact(files, dedup, folderSelected, dones, results);
  }

  /** The counts of the workers so far add up to the lengths of their shares ... */
  lemma {:induction false} SumCounts(files: seq<File>, n: nat, dedup: Option<set<MessageId>>, selected: seq<bool>,
                                     dones: seq<seq<Append>>, results: seq<Shard>)
    requires n > 0 && SharesOk(files, n, dedup, selected, dones, results)
    ensures Total(Sum(files, n, results)) == Lengths(files, n, |results|)
  {
    hide CrashExplained, Stride, Wanted, Added, Filter, Count, SoloRejections, Sub, WithinBudget, Pointwise, Stable;
    if results != [] {
      var m := |results| - 1;
      SumCounts(files, n, dedup, selected, dones[..m], results[..m]);
      assert ShardOk(Stride(files, m, n), dedup, dones[m], results[m]);
    }
  }

  /** ... and of all workers to the number of files. */
  lemma AllCounted(files: seq<File>, dedup: Option<set<MessageId>>, selected: seq<bool>, dones: seq<seq<Append>>,
                   results: seq<Shard>)
    requires results != [] && SharesOk(files, |results|, dedup, selected, dones, results)
    ensures Total(Sum(files, |results|, results)) == |files|
  {
    hide SharesOk, Sum, Lengths, Total;
    SumCounts(files, |results|, dedup, selected, dones, results);
    LengthsAll(files, |results|);
  }

  lemma NoShares(files: seq<File>, n: nat, dedup: Option<set<MessageId>>, selected: seq<bool>)
    requires n > 0
    ensures SharesOk(files, n, dedup, selected, [], []) && Sum(files, n, []) == Tally(0, 0, 0, 0)
  {
  }
}
