/**
 Restoring a folder's messages over IMAP: byte-budgeted MULTIAPPEND batches with a bisecting
 retry, on several connections at once. The server may answer anything; all that is assumed
 is that an append it accepts adds its messages and one it rejects adds none.
 */
module ImapRestore {
  import opened Prelude
  import opened Subsequence

  const MIB: nat := 1024 * 1024
  const LITERAL_PLUS_BUDGET: nat := 80 * MIB
  const SOLO_SYNC_THRESHOLD: nat := 10 * MIB
  const SKIP_THRESHOLD: nat := 90 * MIB
  const MAX_BATCH_COUNT: nat := 200

  type MessageId = string

  /** A message as it is appended; `id` is None when no Message-ID is found in it. */
  datatype Msg = Msg(body: seq<bv8>, id: Option<MessageId>, flags: set<string>, date: Option<string>)

  /** What a connection can see of one append: accepted, refused with an IMAP error, or broken
      off by another exception, when the messages may or may not have been added. */
  datatype Answer = Accepted | Rejected | Broken(added: bool)

  datatype Append = Append(msgs: seq<Msg>, literalPlus: bool, answer: Answer)

  predicate Adds(e: Append) {
    e.answer.Accepted? || (e.answer.Broken? && e.answer.added)
  }

  function AddedBy(e: Append): seq<Msg> {
    if Adds(e) then e.msgs else []
  }

  predicate SoloRejection(e: Append) {
    |e.msgs| == 1 && !e.literalPlus && e.answer.Rejected?
  }

  /** What a list of appends added to the mailbox, in order. */
  function Added(log: seq<Append>): seq<Msg> {
    if log == [] then [] else Added(log[..|log| - 1]) + AddedBy(log[|log| - 1])
  }

  lemma AddedSnoc(log: seq<Append>, e: Append)
    ensures Added(log + [e]) == Added(log) + AddedBy(e) && Added([]) == []
  {
    assert (log + [e])[..|log|] == log;
  }

  lemma {:induction false} AddedConcat(a: seq<Append>, b: seq<Append>)
    ensures Added(a + b) == Added(a) + Added(b)
  {
    hide Added, AddedBy;
    if b == [] {
      assert a + b == a;
      assert Added(b) == [] by { AddedNone(); }
      assert Added(a) + [] == Added(a);
    } else {
      var front, e := b[..|b| - 1], b[|b| - 1];
      AddedConcat(a, front);
      AddedSnoc(a + front, e);
      AddedSnoc(front, e);
      assert a + b == (a + front) + [e] && b == front + [e];
    }
  }

  lemma AddedNone()
    ensures Added([]) == []
  {
  }

  /** Single messages refused when sent alone with synchronising literals. */
  function SoloRejections(log: seq<Append>): nat {
    if log == [] then 0
    else SoloRejections(log[..|log| - 1]) + (if SoloRejection(log[|log| - 1]) then 1 else 0)
  }

  lemma {:induction false} SoloRejectionsConcat(a: seq<Append>, b: seq<Append>)
    ensures SoloRejections(a + b) == SoloRejections(a) + SoloRejections(b)
  {
    if b == [] {
      assert a + b == a;
    } else {
      SoloRejectionsConcat(a, b[..|b| - 1]);
      assert (a + b)[..|a + b| - 1] == a + b[..|b| - 1];
    }
  }

  lemma OneAppend(e: Append)
    ensures Added([e]) == AddedBy(e) && SoloRejections([e]) == if SoloRejection(e) then 1 else 0
  {
    assert [e][..0] == [];
  }

  lemma TwoAppends(e: Append, f: Append)
    ensures Added([e, f]) == AddedBy(e) + AddedBy(f)
    ensures SoloRejections([e, f]) == SoloRejections([e]) + SoloRejections([f])
  {
    OneAppend(e);
    OneAppend(f);
    assert [e, f] == [e] + [f];
    AddedConcat([e], [f]);
    SoloRejectionsConcat([e], [f]);
  }

  /** A server that judges messages one by one: it accepts an append just when every message
      in it is one it takes. */
  ghost predicate Pointwise(log: seq<Append>, good: iset<Msg>) {
    forall e :: e in log ==> (e.answer.Accepted? <==> forall m :: m in e.msgs ==> m in good)
  }

  function Bytes(msgs: seq<Msg>): nat {
    if msgs == [] then 0 else Bytes(msgs[..|msgs| - 1]) + |msgs[|msgs| - 1].body|
  }

  lemma {:induction false} BytesConcat(a: seq<Msg>, b: seq<Msg>)
    ensures Bytes(a + b) == Bytes(a) + Bytes(b)
  {
    if b == [] {
      assert a + b == a;
    } else {
      BytesConcat(a, b[..|b| - 1]);
      assert (a + b)[..|a + b| - 1] == a + b[..|b| - 1];
    }
  }

  /** Every append carries at most `count` messages and `bytes` bytes. */
  ghost predicate Bounded(log: seq<Append>, count: nat, bytes: nat) {
    forall e :: e in log ==> 0 < |e.msgs| <= count && Bytes(e.msgs) <= bytes
  }

  // ---- one connection ------------------------------------------------------

  class Connection {
    /** Every append sent on this connection and how it ended. */
    var log: seq<Append>

    constructor ()
      ensures log == []
    {
      log := [];
    }

    method Send(msgs: seq<Msg>, literalPlus: bool) returns (answer: Answer)
      modifies this
      ensures log == old(log) + [Append(msgs, literalPlus, answer)]
    {
      answer := *;
      log := log + [Append(msgs, literalPlus, answer)];
    }
  }

  /** How a flush ended: counts, or an exception that is not an IMAP error. */
  datatype Flushed = Counts(imported: nat, failed: nat) | Raised

  ghost predicate NoneBroken(log: seq<Append>) {
    forall e :: e in log ==> !e.answer.Broken?
  }

  /** Nothing is sent that is not in the batch. */
  ghost predicate FromBatch(log: seq<Append>, batch: seq<Msg>) {
    forall e, m :: e in log && m in e.msgs ==> m in batch
  }

  /** What a flush of `batch` that sent `done` owes. */
  ghost predicate FlushOk(batch: seq<Msg>, done: seq<Append>, r: Flushed) {
    && Sub(Added(done), batch)
    && FromBatch(done, batch)
    && Bounded(done, |batch|, Bytes(batch))
    && (r.Counts? <==> NoneBroken(done))
    && (r.Counts? ==> r.imported == |Added(done)| && r.failed == SoloRejections(done) == |batch| - r.imported)
  }

  /** How many appends it costs: at most four per message, and just that when all fail. */
  ghost predicate FlushCost(batch: seq<Msg>, done: seq<Append>) {
    && |done| <= 4 * |batch|
    && (batch != [] ==> |done| <= 4 * |batch| - 2)
    && (batch != [] && (forall e :: e in done ==> e.answer.Rejected?) ==> |done| == 4 * |batch| - 2)
  }

  /** Against a server that judges one by one, bisection imports exactly the good messages. */
  ghost predicate FlushExact(batch: seq<Msg>, done: seq<Append>) {
    forall good :: Pointwise(done, good) && NoneBroken(done) ==> Added(done) == Filter(batch, good)
  }

  lemma EmptyFlush()
    ensures FlushOk([], [], Counts(0, 0)) && FlushCost([], []) && FlushExact([], [])
  {
  }

  lemma WholeFlush(batch: seq<Msg>, done: seq<Append>)
    requires batch != [] && 1 <= |done| <= 2
    requires forall i :: 0 <= i < |done| ==> done[i].msgs == batch
    requires done[|done| - 1].answer.Accepted? && (|done| == 2 ==> done[0].answer.Rejected? && done[0].literalPlus)
    ensures FlushOk(batch, done, Counts(|batch|, 0)) && FlushCost(batch, done) && FlushExact(batch, done)
  {
    hide Sub, Filter, Bytes, Added, SoloRejections;
    OneAppend(done[|done| - 1]);
    if |done| == 2 {
      OneAppend(done[0]);
      TwoAppends(done[0], done[1]);
      assert done == [done[0], done[1]];
    } else {
      assert done == [done[0]];
    }
    assert Added(done) == batch && SoloRejections(done) == 0;
    SubRefl(batch);
    forall good | Pointwise(done, good) ensures Added(done) == Filter(batch, good) {
      assert done[|done| - 1] in done;
      FilterAll(batch, good);
    }
  }

  /** Both ways of sending were refused for one message alone. */
  lemma SingleFailed(m: Msg)
    ensures var done := [Append([m], true, Rejected), Append([m], false, Rejected)];
            FlushOk([m], done, Counts(0, 1)) && FlushCost([m], done) && FlushExact([m], done)
  {
    var first, second := Append([m], true, Rejected), Append([m], false, Rejected);
    var done := [first, second];
    OneAppend(first);
    OneAppend(second);
    TwoAppends(first, second);
    assert Bytes([m]) == |m.body| by { assert [m][..0] == []; }
    forall good | Pointwise(done, good) ensures Added(done) == Filter([m], good) {
      assert first in done;
      assert [m][..0] == [];
    }
  }

  lemma BrokenFlush(batch: seq<Msg>, done: seq<Append>)
    requires batch != [] && 1 <= |done| <= 2
    requires forall i :: 0 <= i < |done| ==> done[i].msgs == batch
    requires done[|done| - 1].answer.Broken? && (|done| == 2 ==> done[0].answer.Rejected?)
    ensures FlushOk(batch, done, Raised) && FlushCost(batch, done) && FlushExact(batch, done)
  {
    hide Sub, Filter, Bytes, Added, SoloRejections;
    var e := done[|done| - 1];
    assert e in done;
    OneAppend(e);
    if |done| == 2 {
      TwoAppends(done[0], done[1]);
      assert done == [done[0], done[1]];
    } else {
      assert done == [done[0]];
    }
    if |done| == 2 {
      OneAppend(done[0]);
    }
    assert Added(done) == if Adds(e) then batch else [];
    SubRefl(batch);
    SubNone(batch);
  }

  /** The two refused appends of the whole batch, before it is split. */
  function Refused(batch: seq<Msg>): seq<Append> {
    [Append(batch, true, Rejected), Append(batch, false, Rejected)]
  }

  lemma RefusedAddNothing(batch: seq<Msg>, rest: seq<Append>)
    requires |batch| > 1
    ensures Added(Refused(batch) + rest) == Added(rest)
    ensures SoloRejections(Refused(batch) + rest) == SoloRejections(rest)
    ensures forall e :: e in Refused(batch) + rest <==> e in Refused(batch) || e in rest
  {
    var log := Refused(batch);
    OneAppend(log[0]);
    OneAppend(log[1]);
    TwoAppends(log[0], log[1]);
    AddedConcat(log, rest);
    SoloRejectionsConcat(log, rest);
  }

  lemma PointwiseParts(a: seq<Append>, b: seq<Append>, good: iset<Msg>)
    requires Pointwise(a + b, good)
    ensures Pointwise(a, good) && Pointwise(b, good)
  {
    assert forall e :: e in a ==> e in a + b;
    assert forall e :: e in b ==> e in a + b;
  }

  /** Putting the halves of a split batch together: counts, bounds and order ... */
  lemma SplitOk(left: seq<Msg>, right: seq<Msg>, d1: seq<Append>, d2: seq<Append>, r1: Flushed, r2: Flushed)
    requires left != [] && right != [] && FlushOk(left, d1, r1) && FlushOk(right, d2, r2) && r1.Counts?
    ensures FlushOk(left + right, Refused(left + right) + d1 + d2,
                    if r2.Raised? then Raised else Counts(r1.imported + r2.imported, r1.failed + r2.failed))
  {
    hide Added, SoloRejections, Bytes, Sub, Bounded, NoneBroken, Refused, FromBatch;
    var batch := left + right;
    SplitFrom(left, right, d1, d2);
    var done := Refused(batch) + (d1 + d2);
    assert Refused(batch) + d1 + d2 == done;
    RefusedAddNothing(batch, d1 + d2);
    AddedConcat(d1, d2);
    SoloRejectionsConcat(d1, d2);
    SubConcat(Added(d1), left, Added(d2), right);
    SplitBounds(left, right, d1, d2);
  }

  lemma SplitFrom(left: seq<Msg>, right: seq<Msg>, d1: seq<Append>, d2: seq<Append>)
    requires FromBatch(d1, left) && FromBatch(d2, right)
    ensures FromBatch(Refused(left + right) + (d1 + d2), left + right)
    ensures FromBatch(Refused(left + right) + d1, left + right)
  {
    var batch := left + right;
    forall e, m | e in Refused(batch) + (d1 + d2) && m in e.msgs ensures m in batch {
      if e in d1 {
        assert m in left;
      } else if e in d2 {
        assert m in right;
      }
    }
    forall e, m | e in Refused(batch) + d1 && m in e.msgs ensures m in batch {
      if e in d1 {
        assert m in left;
      }
    }
  }

  lemma SplitBounds(left: seq<Msg>, right: seq<Msg>, d1: seq<Append>, d2: seq<Append>)
    requires left != [] && right != []
    requires Bounded(d1, |left|, Bytes(left)) && Bounded(d2, |right|, Bytes(right))
    ensures Bounded(Refused(left + right) + (d1 + d2), |left + right|, Bytes(left + right))
    ensures NoneBroken(Refused(left + right) + (d1 + d2)) <==> NoneBroken(d1) && NoneBroken(d2)
  {
    hide Bytes;
    BytesConcat(left, right);
    var done := Refused(left + right) + (d1 + d2);
    assert forall e :: e in d1 ==> e in done;
    assert forall e :: e in d2 ==> e in done;
  }

  lemma NothingFrom(batch: seq<Msg>)
    ensures FromBatch([], batch)
  {
  }

  /** ... the number of appends ... */
  lemma SplitCost(left: seq<Msg>, right: seq<Msg>, d1: seq<Append>, d2: seq<Append>)
    requires left != [] && right != [] && FlushCost(left, d1) && FlushCost(right, d2)
    ensures FlushCost(left + right, Refused(left + right) + d1 + d2)
  {
    var done := Refused(left + right) + d1 + d2;
    assert forall e :: e in d1 ==> e in done;
    assert forall e :: e in d2 ==> e in done;
  }

  /** ... and exactness. */
  lemma SplitExact(left: seq<Msg>, right: seq<Msg>, d1: seq<Append>, d2: seq<Append>)
    requires left != [] && right != [] && FlushExact(left, d1) && FlushExact(right, d2)
    ensures FlushExact(left + right, Refused(left + right) + d1 + d2)
  {
    hide Added, SoloRejections;
    var batch := left + right;
    var done := Refused(batch) + (d1 + d2);
    assert Refused(batch) + d1 + d2 == done;
    RefusedAddNothing(batch, d1 + d2);
    AddedConcat(d1, d2);
    forall good | Pointwise(done, good) && NoneBroken(done) ensures Added(done) == Filter(batch, good) {
      PointwiseParts(Refused(batch), d1 + d2, good);
      PointwiseParts(d1, d2, good);
      assert forall e :: e in d1 ==> e in done;
      assert forall e :: e in d2 ==> e in done;
      FilterConcat(left, right, good);
    }
  }

  /** An exception in the first half leaves the second half unsent. */
  lemma SplitRaised(left: seq<Msg>, right: seq<Msg>, d1: seq<Append>)
    requires left != [] && right != [] && FlushOk(left, d1, Raised) && FlushCost(left, d1)
    ensures var batch, done := left + right, Refused(left + right) + d1;
            FlushOk(batch, done, Raised) && FlushCost(batch, done) && FlushExact(batch, done)
  {
    hide Added, SoloRejections, Bytes, Sub, FromBatch;
    var batch := left + right;
    var done := Refused(batch) + d1;
    assert FromBatch([], right) by { NothingFrom(right); }
    SplitFrom(left, right, d1, []);
    RefusedAddNothing(batch, d1);
    BytesConcat(left, right);
    SubNone(right);
    SubConcat(Added(d1), left, [], right);
    assert Added(d1) + [] == Added(d1);
    var e :| e in d1 && e.answer.Broken?;
    assert e in done;
  }

  /** Send a batch with LITERAL+; if refused, with synchronising literals; if refused again,
      its halves. */
  method FlushBatch(client: Connection, batch: seq<Msg>) returns (r: Flushed, ghost done: seq<Append>)
    modifies client
    ensures client.log == old(client.log) + done
    ensures FlushOk(batch, done, r) && FlushCost(batch, done) && FlushExact(batch, done)
    decreases |batch|
  {
    hide FlushOk, FlushCost, FlushExact;
    done := [];
    if batch == [] {
      EmptyFlush();
      return Counts(0, 0), [];
    }
    var fast := client.Send(batch, true);
    done := [Append(batch, true, fast)];
    if fast.Accepted? {
      WholeFlush(batch, done);
      return Counts(|batch|, 0), done;
    } else if fast.Broken? {
      BrokenFlush(batch, done);
      return Raised, done;
    }
    var slow := client.Send(batch, false);
    done := done + [Append(batch, false, slow)];
    if slow.Accepted? {
      WholeFlush(batch, done);
      return Counts(|batch|, 0), done;
    } else if slow.Broken? {
      BrokenFlush(batch, done);
      return Raised, done;
    }
    if |batch| == 1 {
      assert batch == [batch[0]];
      assert done == [Append([batch[0]], true, Rejected), Append([batch[0]], false, Rejected)];
      SingleFailed(batch[0]);
      return Counts(0, 1), done;
    }
    var mid := |batch| / 2;
    var left, right := batch[..mid], batch[mid..];
    assert batch == left + right;
    assert done == Refused(batch);
    var r1, d1 := FlushBatch(client, left);
    if r1.Raised? {
      SplitRaised(left, right, d1);
      return Raised, done + d1;
    }
    var r2, d2 := FlushBatch(client, right);
    SplitOk(left, right, d1, d2, r1, r2);
    SplitCost(left, right, d1, d2);
    SplitExact(left, right, d1, d2);
    done := done + d1 + d2;
    r := if r2.Raised? then Raised else Counts(r1.imported + r2.imported, r1.failed + r2.failed);
  }
}
