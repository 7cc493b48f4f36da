/**
 Piping one remote command to an SSH session: the client, a goroutine that copies the
 session to the command's stdin, a goroutine that copies the command's stdout to the
 session, the command, and the main routine, in every interleaving of their steps.
 Both pipes are synchronous: what a writer offers stays with it until the reader takes it.
 */
module ExecPipe {

  type Data = seq<bv8>

  /** SSH session -> stdin pipe. `Writing` holds what the reader has not taken yet. */
  datatype InCopier = InReading | InWriting(rest: Data) | InDone

  /** stdout pipe -> SSH session. The pipe end is closed before the wait group is told. */
  datatype OutCopier = OutReading | OutWriting(rest: Data) | OutClosed | OutDone

  datatype Command = Running | Ended(ok: bool)

  datatype Phase = Executing | ClosingStdout | ClosingStdin | Waiting | Returned(code: int) | ExitSent(code: int)

  datatype State = State(
    sent: Data, unread: Data, eof: bool, gone: bool,
    input: InCopier, taken: Data, sawEof: bool,
    command: Command, produced: Data, offered: Data,
    output: OutCopier, delivered: Data,
    phase: Phase)

  const Start: State := State([], [], false, false, InReading, [], false, Running, [], [], OutReading, [], Executing)

  predicate StdoutWriterClosed(s: State) {
    !s.phase.Executing? && !s.phase.ClosingStdout?
  }

  predicate StdinReaderClosed(s: State) {
    StdoutWriterClosed(s) && !s.phase.ClosingStdin?
  }

  predicate StdoutReaderClosed(s: State) {
    s.output.OutClosed? || s.output.OutDone?
  }

  datatype Step =
    | ClientSends(data: Data) | ClientCloses | ClientLeaves
    | InReads(n: nat) | InEof | InFails
    | CommandTakes(n: nat) | CommandSeesEof | CommandWrites(data: Data) | CommandEnds(ok: bool)
    | OutReads(n: nat) | OutDelivers(n: nat) | OutEof | OutFails | OutSignals
    | ExecReturns | ClosesStdout | ClosesStdin | Waited | SendsExit

  /** `both`: the main routine waits for the stdin copier too. The gateway does not. */
  predicate Enabled(s: State, step: Step, both: bool) {
    match step
    case ClientSends(data) => !s.eof && !s.gone && |data| > 0
    case ClientCloses => !s.eof && !s.gone
    case ClientLeaves => !s.gone
    case InReads(n) => s.input.InReading? && 0 < n <= |s.unread| && !s.gone && !s.phase.ExitSent?
    case InEof => s.input.InReading? && ((s.unread == [] && s.eof) || s.gone || s.phase.ExitSent?)
    case InFails => s.input.InWriting? && StdinReaderClosed(s)
    case CommandTakes(n) => s.input.InWriting? && 0 < n <= |s.input.rest| && !StdinReaderClosed(s)
    case CommandSeesEof => s.command.Running? && s.input.InDone?
    case CommandWrites(data) => s.command.Running? && s.offered == [] && |data| > 0
    case CommandEnds(ok) => s.command.Running? && s.offered == []
    case OutReads(n) => s.output.OutReading? && 0 < n <= |s.offered|
    case OutDelivers(n) => s.output.OutWriting? && 0 < n <= |s.output.rest| && !s.gone
    case OutEof => s.output.OutReading? && s.offered == [] && StdoutWriterClosed(s)
    case OutFails => s.output.OutWriting? && s.gone
    case OutSignals => s.output.OutClosed?
    case ExecReturns => s.phase.Executing? && s.command.Ended?
    case ClosesStdout => s.phase.ClosingStdout?
    case ClosesStdin => s.phase.ClosingStdin?
    case Waited => s.phase.Waiting? && s.output.OutDone? && (both ==> s.input.InDone?)
    case SendsExit => s.phase.Returned?
  }

  function After(s: State, step: Step, both: bool): State
    requires Enabled(s, step, both)
  {
    match step
    case ClientSends(data) => s.(sent := s.sent + data, unread := s.unread + data)
    case ClientCloses => s.(eof := true)
    case ClientLeaves => s.(gone := true)
    case InReads(n) => s.(input := InWriting(s.unread[..n]), unread := s.unread[n..])
    case InEof => s.(input := InDone)
    case InFails => s.(input := InDone)
    case CommandTakes(n) =>
      var rest := s.input.rest[n..];
      s.(input := if rest == [] then InReading else InWriting(rest), taken := s.taken + s.input.rest[..n])
    case CommandSeesEof => s.(sawEof := true)
    case CommandWrites(data) =>
      s.(produced := s.produced + data, offered := if StdoutReaderClosed(s) then [] else data)
    case CommandEnds(ok) => s.(command := Ended(ok))
    case OutReads(n) => s.(output := OutWriting(s.offered[..n]), offered := s.offered[n..])
    case OutDelivers(n) =>
      var rest := s.output.rest[n..];
      s.(output := if rest == [] then OutReading else OutWriting(rest), delivered := s.delivered + s.output.rest[..n])
    case OutEof => s.(output := OutClosed)
    case OutFails => s.(output := OutClosed, offered := [])
    case OutSignals => s.(output := OutDone)
    case ExecReturns => s.(phase := ClosingStdout)
    case ClosesStdout => s.(phase := ClosingStdin)
    case ClosesStdin => s.(phase := Waiting)
    case Waited => s.(phase := Returned(if s.command == Ended(true) then 0 else 1))
    case SendsExit => s.(phase := ExitSent(s.phase.code))
  }

  // ---- runs ----------------------------------------------------------------

  predicate Possible(s: State, steps: seq<Step>, both: bool)
    decreases |steps|
  {
    steps == [] || (Enabled(s, steps[0], both) && Possible(After(s, steps[0], both), steps[1..], both))
  }

  function End(s: State, steps: seq<Step>, both: bool): State
    requires Possible(s, steps, both)
    decreases |steps|
  {
    if steps == [] then s else End(After(s, steps[0], both), steps[1..], both)
  }

  // ---- what every step keeps -----------------------------------------------

  function InHeld(s: State): Data {
    if s.input.InWriting? then s.input.rest else []
  }

  function OutHeld(s: State): Data {
    if s.output.OutWriting? then s.output.rest else []
  }

  /** No stdin byte is lost or reordered while the exec call has its end of the pipe open. */
  ghost predicate StdinInv(s: State) {
    && (s.input.InWriting? ==> s.input.rest != [])
    && (!StdinReaderClosed(s) ==> s.taken + InHeld(s) + s.unread == s.sent)
    && s.taken <= s.sent
    && (s.input.InDone? && !StdinReaderClosed(s) && !s.gone ==> s.eof && s.unread == [])
    && (s.sawEof && !s.gone ==> s.eof && s.taken == s.sent)
  }

  /** No stdout byte is lost or reordered while the client is there. */
  ghost predicate StdoutInv(s: State) {
    && (s.output.OutWriting? ==> s.output.rest != [])
    && (StdoutReaderClosed(s) ==> s.offered == [])
    && (!s.gone ==> s.delivered + OutHeld(s) + s.offered == s.produced)
    && s.delivered <= s.produced
    && (StdoutReaderClosed(s) ==> s.gone || StdoutWriterClosed(s))
  }

  ghost predicate PhaseInv(s: State) {
    && (!s.phase.Executing? ==> s.command.Ended?)
    && (s.phase.Returned? || s.phase.ExitSent? ==>
          s.output.OutDone? && s.phase.code == (if s.command == Ended(true) then 0 else 1))
  }

  ghost predicate Inv(s: State) {
    StdinInv(s) && StdoutInv(s) && PhaseInv(s)
  }

  lemma StdinFrame(s: State, t: State)
    requires StdinInv(s) && StdinSame(s, t)
    ensures StdinInv(t)
  {
  }

  lemma StdinSends(s: State, data: Data)
    requires StdinInv(s) && Enabled(s, ClientSends(data), false)
    ensures StdinInv(After(s, ClientSends(data), false))
  {
    if !StdinReaderClosed(s) {
      assert s.taken + InHeld(s) + (s.unread + data) == s.sent + data;
    }
  }

  lemma StdinReads(s: State, n: nat)
    requires StdinInv(s) && Enabled(s, InReads(n), false)
    ensures StdinInv(After(s, InReads(n), false))
  {
    var t := After(s, InReads(n), false);
    if !StdinReaderClosed(s) {
      assert s.unread == s.unread[..n] + s.unread[n..];
      assert t.taken + InHeld(t) + t.unread == s.taken + (s.unread[..n] + s.unread[n..]);
    }
  }

  lemma StdinTakes(s: State, n: nat)
    requires StdinInv(s) && Enabled(s, CommandTakes(n), false)
    ensures StdinInv(After(s, CommandTakes(n), false))
  {
    var t, rest := After(s, CommandTakes(n), false), s.input.rest;
    assert rest == rest[..n] + rest[n..];
    assert t.taken + InHeld(t) == s.taken + rest;
    assert t.taken <= t.taken + InHeld(t) + t.unread;
  }

  lemma StdinEnds(s: State, step: Step)
    requires StdinInv(s) && Enabled(s, step, false)
    requires step.ClientCloses? || step.InEof? || step.InFails? || step.CommandSeesEof?
    requires s.command.Running? ==> !StdinReaderClosed(s)
    ensures StdinInv(After(s, step, false))
  {
    if step.CommandSeesEof? {
      assert s.taken + InHeld(s) + s.unread == s.sent;
      assert !s.gone ==> InHeld(s) == [] && s.unread == [] && s.taken + [] + [] == s.taken;
    }
  }

  /** A step on the stdin side; it is the same whichever copiers are awaited. */
  predicate OnStdin(step: Step) {
    || step.ClientSends? || step.InReads? || step.CommandTakes?
    || step.ClientCloses? || step.InEof? || step.InFails? || step.CommandSeesEof?
  }

  lemma StdinAlike(s: State, step: Step, both: bool)
    requires OnStdin(step) && Enabled(s, step, both)
    ensures Enabled(s, step, false) && After(s, step, both) == After(s, step, false)
  {
  }

  /** A step of the main routine. */
  predicate OnPhase(step: Step) {
    step.ExecReturns? || step.ClosesStdout? || step.ClosesStdin? || step.Waited? || step.SendsExit?
  }

  /** Nothing on the stdin side changes, but that the pipe may be closed. */
  ghost predicate StdinSame(s: State, t: State) {
    && t.sent == s.sent && t.unread == s.unread && t.eof == s.eof && t.input == s.input
    && t.taken == s.taken && t.sawEof == s.sawEof && (s.gone ==> t.gone)
    && (StdinReaderClosed(s) ==> StdinReaderClosed(t))
  }

  lemma StdinLeftAlone(s: State, step: Step, both: bool)
    requires Enabled(s, step, both) && !OnStdin(step) && !OnPhase(step)
    ensures StdinSame(s, After(s, step, both))
  {
  }

  lemma StdinOnPhase(s: State, step: Step, both: bool)
    requires Enabled(s, step, both) && OnPhase(step)
    ensures StdinSame(s, After(s, step, both))
  {
  }

  lemma StdinKept(s: State, step: Step, both: bool)
    requires Inv(s) && Enabled(s, step, both)
    ensures StdinInv(After(s, step, both))
  {
    hide StdinInv, StdoutInv, After, Enabled;
    if OnPhase(step) {
      StdinOnPhase(s, step, both);
      StdinFrame(s, After(s, step, both));
      return;
    }
    if !OnStdin(step) {
      StdinLeftAlone(s, step, both);
      StdinFrame(s, After(s, step, both));
      return;
    }
    StdinAlike(s, step, both);
    match step
    case ClientSends(data) => StdinSends(s, data);
    case InReads(n) => StdinReads(s, n);
    case CommandTakes(n) => StdinTakes(s, n);
    case _ => StdinEnds(s, step);
  }

  lemma StdoutFrame(s: State, t: State)
    requires StdoutInv(s)
    requires t.produced == s.produced && t.offered == s.offered && t.output == s.output && t.delivered == s.delivered
    requires (s.gone ==> t.gone) && (StdoutWriterClosed(s) ==> StdoutWriterClosed(t))
    ensures StdoutInv(t)
  {
  }

  lemma StdoutWrites(s: State, data: Data)
    requires StdoutInv(s) && Enabled(s, CommandWrites(data), false) && s.phase.Executing?
    ensures StdoutInv(After(s, CommandWrites(data), false))
  {
    if !s.gone {
      assert s.delivered + OutHeld(s) + [] + data == s.delivered + OutHeld(s) + data;
    }
  }

  lemma StdoutReads(s: State, n: nat)
    requires StdoutInv(s) && Enabled(s, OutReads(n), false)
    ensures StdoutInv(After(s, OutReads(n), false))
  {
    var t := After(s, OutReads(n), false);
    if !s.gone {
      assert s.offered == s.offered[..n] + s.offered[n..];
      assert t.delivered + OutHeld(t) + t.offered == s.delivered + (s.offered[..n] + s.offered[n..]);
    }
  }

  lemma StdoutDelivers(s: State, n: nat)
    requires StdoutInv(s) && Enabled(s, OutDelivers(n), false)
    ensures StdoutInv(After(s, OutDelivers(n), false))
  {
    var t, rest := After(s, OutDelivers(n), false), s.output.rest;
    assert rest == rest[..n] + rest[n..];
    assert t.delivered + OutHeld(t) == s.delivered + rest;
    assert t.delivered <= t.delivered + OutHeld(t) + t.offered;
  }

  lemma StdoutEnds(s: State, step: Step)
    requires StdoutInv(s) && Enabled(s, step, false) && (step.OutEof? || step.OutFails? || step.OutSignals?)
    ensures StdoutInv(After(s, step, false))
  {
    var t := After(s, step, false);
    assert step.OutEof? ==> t.delivered + OutHeld(t) + t.offered == s.delivered + OutHeld(s) + s.offered;
  }

  /** A step on the stdout side. */
  predicate OnStdout(step: Step) {
    || step.CommandWrites? || step.OutReads? || step.OutDelivers? || step.OutEof? || step.OutFails? || step.OutSignals?
  }

  lemma StdoutAlike(s: State, step: Step, both: bool)
    requires OnStdout(step) && Enabled(s, step, both)
    ensures Enabled(s, step, false) && After(s, step, both) == After(s, step, false)
    ensures step.CommandWrites? ==> s.command.Running?
  {
  }

  lemma StdoutLeftAlone(s: State, step: Step, both: bool)
    requires Enabled(s, step, both) && !OnStdout(step)
    ensures var t := After(s, step, both);
            && t.produced == s.produced && t.offered == s.offered && t.output == s.output && t.delivered == s.delivered
            && (s.gone ==> t.gone) && (StdoutWriterClosed(s) ==> StdoutWriterClosed(t))
  {
  }

  lemma StdoutKept(s: State, step: Step, both: bool)
    requires Inv(s) && Enabled(s, step, both)
    ensures StdoutInv(After(s, step, both))
  {
    hide StdinInv, StdoutInv, After, Enabled;
    if !OnStdout(step) {
      StdoutLeftAlone(s, step, both);
      StdoutFrame(s, After(s, step, both));
      return;
    }
    StdoutAlike(s, step, both);
    match step
    case CommandWrites(data) => StdoutWrites(s, data);
    case OutReads(n) => StdoutReads(s, n);
    case OutDelivers(n) => StdoutDelivers(s, n);
    case _ => StdoutEnds(s, step);
  }

  lemma PhaseKept(s: State, step: Step, both: bool)
    requires PhaseInv(s) && Enabled(s, step, both)
    ensures PhaseInv(After(s, step, both))
  {
  }

  lemma InvKept(s: State, step: Step, both: bool)
    requires Inv(s) && Enabled(s, step, both)
    ensures Inv(After(s, step, both))
  {
    hide StdinInv, StdoutInv, PhaseInv, Enabled, After;
    PhaseKept(s, step, both);
    StdinKept(s, step, both);
    StdoutKept(s, step, both);
  }

  lemma {:induction false} InvOnRuns(s: State, steps: seq<Step>, both: bool)
    requires Inv(s) && Possible(s, steps, both)
    ensures Inv(End(s, steps, both))
    decreases |steps|
  {
    if steps != [] {
      InvKept(s, steps[0], both);
      InvOnRuns(After(s, steps[0], both), steps[1..], both);
    }
  }

  /** In every interleaving: once the exit status is sent to a client that is still there, it
      has every stdout byte, in order, and the status tells how the command ended. What the
      command has taken from stdin is always a prefix of what was sent, and all of it when
      it was told that stdin ended. */
  lemma ExitAfterOutput(steps: seq<Step>, both: bool)
    requires Possible(Start, steps, both)
    ensures var s := End(Start, steps, both);
            && (s.phase.ExitSent? && !s.gone ==> s.delivered == s.produced)
            && (s.phase.ExitSent? ==> s.command.Ended? && s.phase.code == if s.command.ok then 0 else 1)
            && s.delivered <= s.produced && s.taken <= s.sent
            && (s.sawEof && !s.gone ==> s.eof && s.taken == s.sent)
  {
    InvOnRuns(Start, steps, both);
  }

  // ---- completion ----------------------------------------------------------

  /** The steps of the stdout copier and of the main routine. */
  predicate Ours(step: Step) {
    step.OutReads? || step.OutDelivers? || step.OutEof? || step.OutFails? || step.OutSignals?
    || step.ExecReturns? || step.ClosesStdout? || step.ClosesStdin? || step.Waited? || step.SendsExit?
  }

  function PhaseLeft(p: Phase): nat {
    match p
    case Executing => 5
    case ClosingStdout => 4
    case ClosingStdin => 3
    case Waiting => 2
    case Returned(_) => 1
    case ExitSent(_) => 0
  }

  /** How many of our steps are left at most. */
  function Left(s: State): nat {
    PhaseLeft(s.phase) + 2 * |s.offered| + |OutHeld(s)|
    + (if s.output.OutDone? then 0 else if s.output.OutClosed? then 1 else 2)
  }

  lemma OthersKeepLeft(s: State, step: Step)
    requires Inv(s) && Enabled(s, step, false) && s.command.Ended? && !Ours(step)
    ensures Left(After(s, step, false)) == Left(s) && After(s, step, false).command == s.command
  {
    hide StdinInv, StdoutInv, PhaseInv, OutHeld;
    var t := After(s, step, false);
    assert t.output == s.output && t.offered == s.offered && t.phase == s.phase;
    HeldSame(s, t);
  }

  lemma HeldSame(s: State, t: State)
    requires s.output == t.output
    ensures OutHeld(s) == OutHeld(t)
  {
  }

  lemma PhaseStepsFall(s: State, step: Step)
    requires Enabled(s, step, false) && s.command.Ended?
    requires step.ExecReturns? || step.ClosesStdout? || step.ClosesStdin? || step.Waited? || step.SendsExit?
    ensures Left(After(s, step, false)) < Left(s) && After(s, step, false).command == s.command
  {
    HeldSame(s, After(s, step, false));
  }

  lemma OutStepsFall(s: State, step: Step)
    requires Enabled(s, step, false) && s.command.Ended?
    requires step.OutReads? || step.OutDelivers? || step.OutEof? || step.OutFails? || step.OutSignals?
    ensures Left(After(s, step, false)) < Left(s) && After(s, step, false).command == s.command
  {
  }

  lemma LeftFalls(s: State, step: Step)
    requires Inv(s) && Enabled(s, step, false) && s.command.Ended?
    ensures After(s, step, false).command == s.command
    ensures Ours(step) ==> Left(After(s, step, false)) < Left(s)
    ensures !Ours(step) ==> Left(After(s, step, false)) == Left(s)
  {
    hide Inv, Enabled, After, Left;
    if !Ours(step) {
      OthersKeepLeft(s, step);
    } else if step.ExecReturns? || step.ClosesStdout? || step.ClosesStdin? || step.Waited? || step.SendsExit? {
      PhaseStepsFall(s, step);
    } else {
      OutStepsFall(s, step);
    }
  }

  /** The main routine is never stuck after the command ended, whatever the client does. */
  function NextOurs(s: State): (step: Step)
    requires Inv(s) && s.command.Ended? && !s.phase.ExitSent?
    ensures Enabled(s, step, false) && Ours(step)
  {
    match s.phase
    case Executing => ExecReturns
    case ClosingStdout => ClosesStdout
    case ClosingStdin => ClosesStdin
    case Waiting =>
      (match s.output
       case OutReading => if s.offered == [] then OutEof else OutReads(1)
       case OutWriting(rest) => if s.gone then OutFails else OutDelivers(|rest|)
       case OutClosed => OutSignals
       case OutDone => Waited)
    case Returned(_) => SendsExit
  }

  function OursCount(steps: seq<Step>): nat {
    if steps == [] then 0 else (if Ours(steps[0]) then 1 else 0) + OursCount(steps[1..])
  }

  /** From the command's end on, a run of any length has at most `Left` steps of ours, however
      it interleaves them with a client that goes on sending and never closes; and the only
      runs in which none of ours can be taken next are those that have sent the exit status. */
  lemma {:induction false} Completes(s: State, steps: seq<Step>)
    requires Inv(s) && s.command.Ended? && Possible(s, steps, false)
    ensures var t := End(s, steps, false);
            && OursCount(steps) + Left(t) <= Left(s)
            && (t.phase.ExitSent? <==> PhaseLeft(t.phase) == 0)
            && (!t.phase.ExitSent? ==> exists step :: Ours(step) && Enabled(t, step, false))
    decreases |steps|
  {
    if steps == [] {
      if !s.phase.ExitSent? {
        assert Enabled(s, NextOurs(s), false);
      }
    } else {
      InvKept(s, steps[0], false);
      LeftFalls(s, steps[0]);
      Completes(After(s, steps[0], false), steps[1..]);
    }
  }

  /** Hence a run that takes as many of our steps as the count allows has finished. */
  lemma EnoughStepsFinish(s: State, steps: seq<Step>)
    requires Inv(s) && s.command.Ended? && Possible(s, steps, false)
    requires OursCount(steps) == Left(s)
    ensures End(s, steps, false).phase.ExitSent?
  {
    Completes(s, steps);
  }

  /** The stdin copier is not leaked: after the exit status it can always finish, and takes
      at most one step to do so. */
  lemma StdinCopierEnds(s: State)
    requires Inv(s) && s.phase.ExitSent?
    ensures s.input.InReading? ==> Enabled(s, InEof, false)
    ensures s.input.InWriting? ==> Enabled(s, InFails, false)
    ensures forall step :: Enabled(s, step, false) ==>
              var t := After(s, step, false);
              t.input == s.input || t.input.InDone?
  {
  }

  // ---- bytes get through while the command runs ----------------------------

  /** Steps after steps. */
  lemma {:induction false} Onward(s: State, a: seq<Step>, b: seq<Step>)
    requires Possible(s, a, false) && Possible(End(s, a, false), b, false)
    ensures Possible(s, a + b, false) && End(s, a + b, false) == End(End(s, a, false), b, false)
    decreases |a|
  {
    hide Enabled, After;
    if a == [] {
      assert a + b == b;
    } else {
      Onward(After(s, a[0], false), a[1..], b);
      assert (a + b)[1..] == a[1..] + b;
    }
  }

  lemma OneStep(s: State, step: Step)
    requires Enabled(s, step, false)
    ensures Possible(s, [step], false) && End(s, [step], false) == After(s, step, false)
  {
    assert [step][1..] == [];
  }

  /** The stdin copier holds nothing back: whatever the client has sent, a command that goes on
      reading can be given all of it, and be told of the end once the client has closed, by steps
      of the copier and of the command alone. */
  lemma StdinArrives(s: State) returns (steps: seq<Step>)
    requires Inv(s) && s.command.Running? && !s.gone
    ensures forall step :: step in steps ==> step.InReads? || step.InEof? || step.CommandTakes? || step.CommandSeesEof?
    ensures Possible(s, steps, false)
    ensures var t := End(s, steps, false); t.taken == t.sent == s.sent && (s.eof ==> t.sawEof)
  {
    hide Possible, End;
    NoMore(s, false);
    var t := s;
    steps := [];
    if t.input.InWriting? {
      t, steps := Further(s, steps, CommandTakes(|t.input.rest|));
    }
    if t.input.InReading? && t.unread != [] {
      t, steps := Further(s, steps, InReads(|t.unread|));
      t, steps := Further(s, steps, CommandTakes(|t.input.rest|));
    }
    assert t.taken == t.sent by { AllTaken(t); }
    if t.input.InReading? && t.eof {
      t, steps := Further(s, steps, InEof);
    }
    if t.input.InDone? && t.eof {
      t, steps := Further(s, steps, CommandSeesEof);
    }
  }

  lemma AllTaken(s: State)
    requires Inv(s) && s.command.Running? && !s.input.InWriting? && s.unread == []
    ensures s.taken == s.sent
  {
    assert s.taken + InHeld(s) + s.unread == s.taken;
  }

  /** One more step at the end of a run. */
  lemma Further(s: State, steps: seq<Step>, step: Step) returns (t: State, more: seq<Step>)
    requires Inv(s) && Possible(s, steps, false) && Enabled(End(s, steps, false), step, false)
    ensures more == steps + [step] && Possible(s, more, false)
    ensures t == After(End(s, steps, false), step, false) == End(s, more, false) && Inv(t)
  {
    hide Enabled, After, Inv;
    InvOnRuns(s, steps, false);
    OneStep(End(s, steps, false), step);
    Onward(s, steps, [step]);
    InvKept(End(s, steps, false), step, false);
    more := steps + [step];
    t := After(End(s, steps, false), step, false);
  }

  /** And the stdout copier, for what the command has written so far. */
  lemma StdoutArrives(s: State) returns (steps: seq<Step>)
    requires Inv(s) && !s.gone
    ensures forall step :: step in steps ==> step.OutReads? || step.OutDelivers?
    ensures Possible(s, steps, false)
    ensures var t := End(s, steps, false); t.delivered == t.produced == s.produced
  {
    hide Possible, End;
    NoMore(s, false);
    var t := s;
    steps := [];
    if t.output.OutWriting? {
      t, steps := Further(s, steps, OutDelivers(|t.output.rest|));
    }
    if t.output.OutReading? && t.offered != [] {
      t, steps := Further(s, steps, OutReads(|t.offered|));
      t, steps := Further(s, steps, OutDelivers(|t.output.rest|));
    }
    assert t.delivered + OutHeld(t) + t.offered == t.delivered;
  }

  // ---- why the stdin copier is not waited for ------------------------------

  /** Waiting for both copiers with a client that keeps stdin open until it sees the exit
      status, as rsync's does. */
  ghost predicate Stuck(s: State) {
    s.phase.Waiting? && s.output.OutDone? && s.input.InReading? && s.unread == [] && !s.eof && !s.gone
    && s.command.Ended?
  }

  /** What such a client does not do: send more, close, or leave before the exit status. */
  predicate WaitsForExit(step: Step) {
    !step.ClientSends? && !step.ClientCloses? && !step.ClientLeaves?
  }

  lemma StuckStep(s: State, step: Step)
    requires Stuck(s) && WaitsForExit(step)
    ensures !Enabled(s, step, true)
  {
  }

  /** No run leaves such a state: the client waits for the exit status, we for the client. */
  lemma StuckForever(s: State, steps: seq<Step>)
    requires Stuck(s) && Possible(s, steps, true)
    requires forall step :: step in steps ==> WaitsForExit(step)
    ensures steps == []
  {
    if steps != [] {
      StuckStep(s, steps[0]);
    }
  }

  lemma OneMore(s: State, step: Step, rest: seq<Step>, both: bool)
    requires Enabled(s, step, both) && Possible(After(s, step, both), rest, both)
    ensures Possible(s, [step] + rest, both) && End(s, [step] + rest, both) == End(After(s, step, both), rest, both)
  {
    assert ([step] + rest)[1..] == rest;
  }

  /** The state of a quiet session whose command has ended well. */
  function Quiet(output: OutCopier, phase: Phase): State {
    State([], [], false, false, InReading, [], false, Ended(true), [], [], output, [], phase)
  }

  lemma QuietSteps()
    ensures Enabled(Start, CommandEnds(true), true)
    ensures After(Start, CommandEnds(true), true) == Quiet(OutReading, Executing)
    ensures var s := Quiet(OutReading, Executing);
            Enabled(s, ExecReturns, true) && After(s, ExecReturns, true) == Quiet(OutReading, ClosingStdout)
    ensures var s := Quiet(OutReading, ClosingStdout);
            Enabled(s, ClosesStdout, true) && After(s, ClosesStdout, true) == Quiet(OutReading, ClosingStdin)
    ensures var s := Quiet(OutReading, ClosingStdin);
            Enabled(s, ClosesStdin, true) && After(s, ClosesStdin, true) == Quiet(OutReading, Waiting)
  {
  }

  lemma QuietEnd()
    ensures var s := Quiet(OutReading, Waiting);
            Enabled(s, OutEof, true) && After(s, OutEof, true) == Quiet(OutClosed, Waiting)
    ensures var s := Quiet(OutClosed, Waiting);
            Enabled(s, OutSignals, true) && After(s, OutSignals, true) == Quiet(OutDone, Waiting)
    ensures Stuck(Quiet(OutDone, Waiting)) && Enabled(Quiet(OutDone, Waiting), Waited, false)
  {
  }

  /** The variant that waits for both does get there, on a run in which the command just ends
      well; the gateway's own, on the same run, goes on to the exit status. */
  lemma WaitingForBothDeadlocks() returns (steps: seq<Step>)
    ensures Possible(Start, steps, true) && Stuck(End(Start, steps, true))
    ensures Enabled(End(Start, steps, true), Waited, false)
  {
    hide Possible, End, After, Enabled, Stuck, Quiet;
    QuietSteps();
    QuietEnd();
    steps := [];
    NoMore(Quiet(OutDone, Waiting), true);
    OneMore(Quiet(OutClosed, Waiting), OutSignals, steps, true);
    steps := [OutSignals] + steps;
    OneMore(Quiet(OutReading, Waiting), OutEof, steps, true);
    steps := [OutEof] + steps;
    OneMore(Quiet(OutReading, ClosingStdin), ClosesStdin, steps, true);
    steps := [ClosesStdin] + steps;
    OneMore(Quiet(OutReading, ClosingStdout), ClosesStdout, steps, true);
    steps := [ClosesStdout] + steps;
    OneMore(Quiet(OutReading, Executing), ExecReturns, steps, true);
    steps := [ExecReturns] + steps;
    OneMore(Start, CommandEnds(true), steps, true);
    steps := [CommandEnds(true)] + steps;
  }

  lemma NoMore(s: State, both: bool)
    ensures Possible(s, [], both) && End(s, [], both) == s
  {
  }
}
