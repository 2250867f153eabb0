/** One attempt to connect to a cluster: three threads that publish one shared status. */
module ClusterBootstrap {
  import opened Ordering

  // What is shared.

  /** What an error is classified as. */
  datatype Kind = Auth | Rbac | Network | Timeout | Unknown

  datatype Result = Ok | Failed(kind: Kind)

  datatype Phase = Connecting | Connected | Disconnected

  /** Sync reports come from this attempt's subsystem thread or from one that an earlier attempt
      left behind. */
  datatype Origin = ThisAttempt | Earlier

  datatype Progress =
    | NoProgress | Testing | Retrying | LoadingWorkloads
    | Subsystem(text: string)
    | Syncing(origin: Origin, synced: nat, total: nat, partial: bool)

  datatype Status = Status(phase: Phase, progress: Progress, error: Option<Kind>)

  // Where each thread is.

  datatype Main =
    | Starting | Announced | AwaitVersion
    | VersionRefused(kind: Kind) | Canceled(kind: Kind) | VersionConfirmed | GateOpened
    | AwaitSubsystems | SubsystemsFailed(kind: Kind) | SubsystemsReady
    | Returned

  datatype Version =
    | Unborn | Entering | Calling(attempt: nat, last: Option<Kind>) | Deciding(kind: Kind)
    | Announcing(kind: Kind) | Pausing(kind: Kind) | Sent

  datatype Subsystems = NotStarted | Running | PastGate(text: string) | PastCheck(report: Progress) | Finished

  datatype Environment = Environment(hasClient: bool, execAuth: bool)

  /** The channels keep what was sent after it is received. `strays` are sync reports of earlier
      attempts that passed their check and are yet to be stored. */
  datatype State = State(
    main: Main, version: Version, subsystems: Subsystems,
    contextDone: bool, connected: bool,
    versionErr: Option<Result>, subsystemErr: Option<Result>,
    status: Status, strays: seq<Progress>)

  datatype Action =
    // the main thread
    | Begin | Spawn | ReceiveVersion | CancelSubsystems | StoreVersionFailure | OpenGate | StoreLoading
    | ReceiveSubsystems | StoreSubsystemFailure | StoreConnected
    // the thread that asks for the version
    | Enter | Answer(result: Result) | GiveUp(kind: Kind) | Decide | StoreRetrying | Resume | Abandon
    // the subsystem thread
    | Report(text: string) | StoreReport | CheckSync(synced: nat, total: nat, partial: bool) | StoreSync
        | Finish(result: Result)
    // the rest of the process
    | ContextEnds | CheckStray(synced: nat, total: nat, partial: bool) | StoreStray(i: nat)

  /** Neither a refusal nor an unreachable host is asked again, nor expired credentials that no plugin
      can renew. */
  predicate Retryable(e: Environment, k: Kind) {
    !(k == Rbac || k == Network || (k == Auth && !e.execAuth))
  }

  function Connect(s: State, p: Progress): State {
    s.(status := Status(Connecting, p, None))
  }

  function Disconnect(s: State, k: Kind): State {
    s.(status := Status(Disconnected, NoProgress, Some(k)), main := Returned)
  }

  function SendVersion(s: State, r: Result): State {
    s.(version := Sent, versionErr := Some(r))
  }

  /** Replaces the message whatever the phase, as the store after the check does. */
  function UpdateProgress(s: State, p: Progress): State {
    s.(status := s.status.(progress := p))
  }

  predicate SyncWanted(s: State, total: nat) {
    total != 0 && s.status.phase == Connecting
  }

  function MainStep(s: State, a: Action): Option<State> {
    match a
    case Begin => if s.main == Starting then Some(Connect(s, Testing).(main := Announced)) else None
    case Spawn => if s.main == Announced
        then Some(s.(main := AwaitVersion, version := Entering, subsystems := Running)) else None
    case ReceiveVersion =>
      if s.main != AwaitVersion || s.versionErr.None? then None
      else Some(s.(main := if s.versionErr.value.Ok? then VersionConfirmed
          else VersionRefused(s.versionErr.value.kind)))
    case CancelSubsystems => if s.main.VersionRefused?
        then Some(s.(main := Canceled(s.main.kind), contextDone := true)) else None
    case StoreVersionFailure => if s.main.Canceled? then Some(Disconnect(s, s.main.kind)) else None
    case OpenGate => if s.main == VersionConfirmed then Some(s.(main := GateOpened, connected := true)) else None
    case StoreLoading => if s.main == GateOpened then Some(Connect(s, LoadingWorkloads).(main := AwaitSubsystems))
        else None
    case ReceiveSubsystems =>
      if s.main != AwaitSubsystems || s.subsystemErr.None? then None
      else Some(s.(main := if s.subsystemErr.value.Ok? then SubsystemsReady
          else SubsystemsFailed(s.subsystemErr.value.kind)))
    case StoreSubsystemFailure => if s.main.SubsystemsFailed? then Some(Disconnect(s, s.main.kind)) else None
    case StoreConnected =>
      if s.main == SubsystemsReady then Some(s.(status := Status(Connected, NoProgress, None), main := Returned))
          else None
    case _ => None
  }

  function VersionStep(e: Environment, s: State, a: Action): Option<State> {
    match a
    case Enter =>
      if s.version != Entering then None
      else if e.hasClient then Some(s.(version := Calling(0, None))) else Some(SendVersion(s, Failed(Unknown)))
    case Answer(r) =>
      if !s.version.Calling? then None
      else if r.Failed? && s.version.attempt == 0 then Some(s.(version := Deciding(r.kind)))
      else Some(SendVersion(s, r))
    case GiveUp(k) =>
      if !s.version.Calling? || !s.contextDone then None
      else Some(SendVersion(s, Failed(if s.version.last.Some? then s.version.last.value else k)))
    case Decide =>
      if !s.version.Deciding? then None
      else if !Retryable(e, s.version.kind) || s.contextDone then Some(SendVersion(s, Failed(s.version.kind)))
      else Some(s.(version := Announcing(s.version.kind)))
    case StoreRetrying => if s.version.Announcing?
        then Some(Connect(s, Retrying).(version := Pausing(s.version.kind))) else None
    case Resume => if s.version.Pausing? then Some(s.(version := Calling(1, Some(s.version.kind)))) else None
    case Abandon =>
      if s.version.Pausing? && s.contextDone then Some(SendVersion(s, Failed(s.version.kind))) else None
    case _ => None
  }

  function SubsystemStep(s: State, a: Action): Option<State> {
    match a
    case Report(text) =>
      if s.subsystems != Running then None
      else Some(if s.connected then s.(subsystems := PastGate(text)) else s)
    case StoreReport =>
      if s.subsystems.PastGate? then Some(Connect(s, Subsystem(s.subsystems.text)).(subsystems := Running)) else None
    case CheckSync(synced, total, partial) =>
      if s.subsystems != Running then None
      else Some(if SyncWanted(s, total) then s.(subsystems := PastCheck(Syncing(ThisAttempt, synced, total, partial)))
          else s)
    case StoreSync =>
      if s.subsystems.PastCheck? then Some(UpdateProgress(s, s.subsystems.report).(subsystems := Running)) else None
    case Finish(r) => if s.subsystems == Running then Some(s.(subsystems := Finished, subsystemErr := Some(r)))
        else None
    case _ => None
  }

  function OutsideStep(s: State, a: Action): Option<State> {
    match a
    case ContextEnds => Some(s.(contextDone := true))
    case CheckStray(synced, total, partial) =>
      Some(if SyncWanted(s, total) then s.(strays := s.strays + [Syncing(Earlier, synced, total, partial)]) else s)
    case StoreStray(i) =>
      if i < |s.strays| then Some(UpdateProgress(s, s.strays[i]).(strays := s.strays[..i] + s.strays[i + 1..]))
          else None
    case _ => None
  }

  predicate OfMain(a: Action) {
    || a.Begin? || a.Spawn? || a.ReceiveVersion? || a.CancelSubsystems? || a.StoreVersionFailure? || a.OpenGate?
    || a.StoreLoading? || a.ReceiveSubsystems? || a.StoreSubsystemFailure? || a.StoreConnected?
  }

  predicate OfVersion(a: Action) {
    a.Enter? || a.Answer? || a.GiveUp? || a.Decide? || a.StoreRetrying? || a.Resume? || a.Abandon?
  }

  predicate OfSubsystems(a: Action) {
    a.Report? || a.StoreReport? || a.CheckSync? || a.StoreSync? || a.Finish?
  }

  /** One step of one thread; None when that thread is not at that step. */
  function Step(e: Environment, s: State, a: Action): Option<State> {
    if OfMain(a) then MainStep(s, a)
    else if OfVersion(a) then VersionStep(e, s, a)
    else if OfSubsystems(a) then SubsystemStep(s, a)
    else OutsideStep(s, a)
  }

  /** The state after an interleaving; None when some step in it is not enabled. */
  function Run(e: Environment, s: State, actions: seq<Action>): Option<State> {
    if actions == [] then Some(s)
    else
      var before := Run(e, s, actions[..|actions| - 1]);
      if before.None? then None else Step(e, before.value, actions[|actions| - 1])
  }

  /** The attempt starts on whatever status and stray reports are there. */
  predicate IsStart(s: State) {
    && s.main == Starting && s.version == Unborn && s.subsystems == NotStarted && !s.connected
    && s.versionErr == None && s.subsystemErr == None
    && forall p :: p in s.strays ==> p.Syncing? && p.origin == Earlier
  }

  // What every step keeps.

  predicate BothSucceeded(s: State) {
    s.versionErr == Some(Ok) && s.subsystemErr == Some(Ok)
  }

  predicate MainConsistent(s: State) {
    match s.main
    case Starting => s.versionErr.None? && s.version == Unborn && s.subsystems == NotStarted && !s.connected
    case Announced => s.versionErr.None? && s.version == Unborn && s.subsystems == NotStarted && !s.connected
        && s.status.phase == Connecting
    case AwaitVersion => !s.connected && s.status.phase == Connecting && s.version != Unborn
        && s.subsystems != NotStarted
    case VersionRefused(k) => s.versionErr == Some(Failed(k)) && !s.connected && s.status.phase == Connecting
    case Canceled(k) => s.versionErr == Some(Failed(k)) && !s.connected && s.status.phase == Connecting
    case VersionConfirmed => s.versionErr == Some(Ok) && !s.connected && s.status.phase == Connecting
        && s.subsystems != NotStarted
    case GateOpened => s.versionErr == Some(Ok) && s.connected && s.status.phase == Connecting
        && s.subsystems != NotStarted
    case AwaitSubsystems => s.versionErr == Some(Ok) && s.connected && s.status.phase == Connecting
        && s.subsystems != NotStarted
    case SubsystemsFailed(k) => s.versionErr == Some(Ok) && s.subsystemErr == Some(Failed(k))
        && s.status.phase == Connecting
    case SubsystemsReady => BothSucceeded(s) && s.status.phase == Connecting
    case Returned =>
      if s.versionErr == Some(Ok) then
        s.subsystemErr.Some? && s.status.phase == (if s.subsystemErr.value.Ok? then Connected else Disconnected)
        && s.status.error == (if s.subsystemErr.value.Ok? then None else Some(s.subsystemErr.value.kind))
      else
        && s.versionErr.Some? && s.versionErr.value.Failed? && !s.connected
        && s.status.phase == Disconnected && s.status.error == Some(s.versionErr.value.kind)
  }

  predicate ThreadsConsistent(e: Environment, s: State) {
    && (s.versionErr.Some? <==> s.version == Sent)
    && (s.subsystemErr.Some? <==> s.subsystems == Finished)
    && (s.subsystems.PastGate? ==> s.connected)
    && (s.subsystems.PastCheck? ==> s.subsystems.report.Syncing? && s.subsystems.report.origin == ThisAttempt)
    && (s.version.Calling? ==>
          if s.version.attempt == 0 then s.version.last == None
          else s.version.attempt == 1 && s.version.last.Some? && Retryable(e, s.version.last.value))
    && (s.version.Announcing? || s.version.Pausing? ==> Retryable(e, s.version.kind))
    && (forall p :: p in s.strays ==> p.Syncing? && p.origin == Earlier)
  }

  predicate MessagesConsistent(s: State) {
    && (s.main != Starting && s.status.progress.Subsystem? ==> s.connected)
    && (s.main == Returned && s.status.phase == Connected ==>
          s.status.progress == NoProgress || (s.status.progress.Syncing? && s.status.progress.origin == Earlier))
  }

  predicate Inv(e: Environment, s: State) {
    MainConsistent(s) && ThreadsConsistent(e, s) && MessagesConsistent(s)
  }

  lemma MainKeepsInv(e: Environment, s: State, a: Action)
    requires Inv(e, s) && OfMain(a) && MainStep(s, a).Some?
    ensures Inv(e, MainStep(s, a).value)
  {
  }

  lemma VersionKeepsInv(e: Environment, s: State, a: Action)
    requires Inv(e, s) && OfVersion(a) && VersionStep(e, s, a).Some?
    ensures Inv(e, VersionStep(e, s, a).value)
  {
  }

  lemma SubsystemsKeepInv(e: Environment, s: State, a: Action)
    requires Inv(e, s) && OfSubsystems(a) && SubsystemStep(s, a).Some?
    ensures Inv(e, SubsystemStep(s, a).value)
  {
  }

  lemma OutsideKeepsInv(e: Environment, s: State, a: Action)
    requires Inv(e, s) && OutsideStep(s, a).Some?
    ensures Inv(e, OutsideStep(s, a).value)
  {
    if a.StoreStray? {
      assert s.strays[a.i] in s.strays;
    }
  }

  lemma StepKeepsInv(e: Environment, s: State, a: Action)
    requires Inv(e, s) && Step(e, s, a).Some?
    ensures Inv(e, Step(e, s, a).value)
  {
    hide Inv, MainStep, VersionStep, SubsystemStep, OutsideStep;
    if OfMain(a) { MainKeepsInv(e, s, a); }
    else if OfVersion(a) { VersionKeepsInv(e, s, a); }
    else if OfSubsystems(a) { SubsystemsKeepInv(e, s, a); }
    else { OutsideKeepsInv(e, s, a); }
  }

  lemma {:induction false} RunKeepsInv(e: Environment, s: State, actions: seq<Action>)
    requires Inv(e, s) && Run(e, s, actions).Some?
    ensures Inv(e, Run(e, s, actions).value)
  {
    hide Inv, Step;
    if actions != [] {
      var n := |actions| - 1;
      RunKeepsInv(e, s, actions[..n]);
      StepKeepsInv(e, Run(e, s, actions[..n]).value, actions[n]);
    }
  }

  lemma Reachable(e: Environment, start: State, actions: seq<Action>)
    requires IsStart(start) && Run(e, start, actions).Some?
    ensures Inv(e, Run(e, start, actions).value)
  {
    hide Run;
    RunKeepsInv(e, start, actions);
  }

  // What the channels carry, told by the run alone.

  /** What the server answered in the run, in order. */
  function Answers(actions: seq<Action>): seq<Result> {
    if actions == [] then []
    else
      var a := actions[|actions| - 1];
      Answers(actions[..|actions| - 1]) + if a.Answer? then [a.result] else []
  }

  /** The context was over before the attempt, or ended during the run. */
  predicate Ended(start: State, actions: seq<Action>) {
    start.contextDone || ContextEnds in actions
  }

  /** How far the version thread is, in terms of the answers it has had. */
  ghost predicate VersionTold(e: Environment, start: State, actions: seq<Action>, s: State) {
    var got := Answers(actions);
    match s.version
    case Unborn => got == []
    case Entering => got == []
    case Calling(_, last) => e.hasClient && got == if last.None? then [] else [Failed(last.value)]
    case Deciding(k) => e.hasClient && got == [Failed(k)]
    case Announcing(k) => e.hasClient && got == [Failed(k)]
    case Pausing(k) => e.hasClient && got == [Failed(k)]
    case Sent => s.versionErr.Some? && ResultTold(e, start, actions, s.versionErr.value)
  }

  /** The result sent is the last answer; without an answer it is that of a context that ended, or of
      a missing client. A single failure is sent only if it is not retryable or the context has ended. */
  ghost predicate ResultTold(e: Environment, start: State, actions: seq<Action>, r: Result) {
    var got := Answers(actions);
    if got == [] then
      r.Failed? && if e.hasClient then GiveUp(r.kind) in actions && Ended(start, actions) else r.kind == Unknown
    else
      && r == got[|got| - 1] && |got| <= 2
      && (|got| == 2 ==> got[0].Failed? && Retryable(e, got[0].kind))
      && (|got| == 1 && r.Failed? && Retryable(e, r.kind) ==> Ended(start, actions))
  }

  ghost predicate SubsystemsTold(actions: seq<Action>, s: State) {
    forall r :: s.subsystemErr == Some(r) <==> Finish(r) in actions
  }

  ghost predicate ContextTold(start: State, actions: seq<Action>, s: State) {
    s.contextDone && s.version != Sent ==> Ended(start, actions)
  }

  ghost predicate Told(e: Environment, start: State, actions: seq<Action>, s: State) {
    VersionTold(e, start, actions, s) && SubsystemsTold(actions, s) && ContextTold(start, actions, s)
  }

  lemma AnswersSnoc(actions: seq<Action>, a: Action)
    ensures Answers(actions + [a]) == Answers(actions) + if a.Answer? then [a.result] else []
  {
    assert (actions + [a])[..|actions|] == actions;
  }

  lemma VersionStepTold(e: Environment, start: State, actions: seq<Action>, s: State, a: Action)
    requires ThreadsConsistent(e, s) && VersionTold(e, start, actions, s) && ContextTold(start, actions, s)
    requires OfVersion(a) && VersionStep(e, s, a).Some?
    ensures VersionTold(e, start, actions + [a], VersionStep(e, s, a).value)
  {
    hide Answers;
    AnswersSnoc(actions, a);
  }

  lemma OthersLeaveVersion(e: Environment, s: State, a: Action)
    requires Inv(e, s) && !OfVersion(a) && Step(e, s, a).Some?
    ensures var s' := Step(e, s, a).value;
            if a.Spawn? then s.version == Unborn && s'.version == Entering
            else s'.version == s.version && s'.versionErr == s.versionErr
  {
    if OfMain(a) {
    } else if OfSubsystems(a) {
    } else {
    }
  }

  lemma OtherStepTold(e: Environment, start: State, actions: seq<Action>, s: State, a: Action)
    requires Inv(e, s) && VersionTold(e, start, actions, s) && !OfVersion(a) && Step(e, s, a).Some?
    ensures VersionTold(e, start, actions + [a], Step(e, s, a).value)
  {
    hide Inv, Step;
    AnswersSnoc(actions, a);
    OthersLeaveVersion(e, s, a);
  }

  lemma ContextStepTold(e: Environment, start: State, actions: seq<Action>, s: State, a: Action)
    requires Inv(e, s) && ContextTold(start, actions, s) && Step(e, s, a).Some?
    ensures ContextTold(start, actions + [a], Step(e, s, a).value)
  {
    if OfMain(a) || OfVersion(a) {
      assert a.CancelSubsystems? ==> s.version == Sent;
    }
  }

  lemma SubsystemsStepTold(e: Environment, actions: seq<Action>, s: State, a: Action)
    requires Inv(e, s) && SubsystemsTold(actions, s) && Step(e, s, a).Some?
    ensures SubsystemsTold(actions + [a], Step(e, s, a).value)
  {
    var s' := Step(e, s, a).value;
    assert a.Finish? || s'.subsystemErr == s.subsystemErr;
    assert a.Finish? ==> s.subsystemErr.None? && s'.subsystemErr == Some(a.result);
  }

  lemma {:induction false} RunIsTold(e: Environment, start: State, actions: seq<Action>)
    requires IsStart(start) && Run(e, start, actions).Some?
    ensures Told(e, start, actions, Run(e, start, actions).value)
  {
    hide MainConsistent, ThreadsConsistent, MessagesConsistent, MainStep, VersionStep, SubsystemStep, OutsideStep,
        VersionTold, SubsystemsTold, ContextTold;
    if actions == [] {
      StartIsTold(e, start);
    } else {
      var n := |actions| - 1;
      var init, a := actions[..n], actions[n];
      assert actions == init + [a];
      RunIsTold(e, start, init);
      Reachable(e, start, init);
      var s := Run(e, start, init).value;
      SubsystemsStepTold(e, init, s, a);
      ContextStepTold(e, start, init, s, a);
      if OfVersion(a) {
        VersionStepTold(e, start, init, s, a);
      } else {
        OtherStepTold(e, start, init, s, a);
      }
    }
  }

  lemma StartIsTold(e: Environment, start: State)
    requires IsStart(start)
    ensures Told(e, start, [], start)
  {
  }

  /** Main result: what is sent is what the server answered. The version check succeeds exactly when
      the last answer is a success; there are at most two answers, and a second one exactly where a
      failure that a second call may cure came first and the context did not end. */
  lemma ChannelsCarryAnswers(e: Environment, start: State, actions: seq<Action>)
    requires IsStart(start) && Run(e, start, actions).Some?
    ensures var s, got := Run(e, start, actions).value, Answers(actions);
      && |got| <= 2
      && (s.versionErr == Some(Ok) <==> got != [] && got[|got| - 1] == Ok)
      && (s.versionErr.Some? && s.versionErr.value.Failed? ==>
            var k := s.versionErr.value.kind;
            if got != [] then got[|got| - 1] == Failed(k)
            else if e.hasClient then GiveUp(k) in actions && Ended(start, actions)
            else k == Unknown)
      && (|got| == 2 ==> got[0].Failed? && got[0].kind !in {Rbac, Network} && (got[0].kind == Auth ==> e.execAuth))
      && (|got| == 1 && s.versionErr.Some? ==>
            got[0] == Ok || got[0].kind in {Rbac, Network} || (got[0].kind == Auth && !e.execAuth)
            || Ended(start, actions))
      && forall r :: s.subsystemErr == Some(r) <==> Finish(r) in actions
  {
    hide Run;
    Reachable(e, start, actions);
    RunIsTold(e, start, actions);
  }

  // What the attempt leaves behind.

  /** Main result: whatever the interleaving, when the attempt returns the stored status is connected
      exactly when the server's last answer to the version check is a success and the subsystems
      finished with one; otherwise it is disconnected with the kind of what failed. */
  lemma OutcomeIsStored(e: Environment, start: State, actions: seq<Action>)
    requires IsStart(start) && Run(e, start, actions).Some?
    ensures var s, got := Run(e, start, actions).value, Answers(actions);
      s.main == Returned ==>
        && var reached := got != [] && got[|got| - 1] == Ok;
        && (s.status.phase == Connected <==> reached && Finish(Ok) in actions)
        && (s.status.phase == Connected <==> s.status.error == None)
        && (s.status.phase != Connected ==>
              s.status.phase == Disconnected && s.status.error.Some? &&
              var k := s.status.error.value;
              if reached then Finish(Failed(k)) in actions
              else if got != [] then got[|got| - 1] == Failed(k)
              else if e.hasClient then GiveUp(k) in actions && Ended(start, actions)
              else k == Unknown)
  {
    hide Run;
    Reachable(e, start, actions);
    ChannelsCarryAnswers(e, start, actions);
  }

  /** Main result: between its first store and its last the attempt is seen connecting, so a
      connected status always means that both checks succeeded. */
  lemma ConnectedOnlyAtTheEnd(e: Environment, start: State, actions: seq<Action>)
    requires IsStart(start) && Run(e, start, actions).Some?
    ensures var s := Run(e, start, actions).value;
      s.main != Starting ==> (s.status.phase == Connecting <==> s.main != Returned)
  {
    hide Run;
    Reachable(e, start, actions);
  }

  /** Main result: subsystem messages are held back until the version check has succeeded. */
  lemma MessagesWaitForVersion(e: Environment, start: State, actions: seq<Action>)
    requires IsStart(start) && Run(e, start, actions).Some?
    ensures var s := Run(e, start, actions).value;
      s.main != Starting && s.status.progress.Subsystem? ==>
        Answers(actions) != [] && Answers(actions)[|Answers(actions)| - 1] == Ok
  {
    hide Run;
    Reachable(e, start, actions);
    ChannelsCarryAnswers(e, start, actions);
  }

  lemma ReturnedStepKeepsPhase(e: Environment, s: State, a: Action)
    requires Inv(e, s) && s.main == Returned && Step(e, s, a).Some?
    ensures var s' := Step(e, s, a).value;
      s'.main == Returned && s'.status.phase == s.status.phase && s'.status.error == s.status.error
  {
  }

  /** Main result: the status the attempt returns with is final. The threads it leaves running
      and reports of earlier attempts can change the message, never the state or the error. */
  lemma {:induction false} OutcomeIsFinal(e: Environment, s: State, more: seq<Action>)
    requires Inv(e, s) && s.main == Returned && Run(e, s, more).Some?
    ensures var s' := Run(e, s, more).value;
      s'.main == Returned && s'.status.phase == s.status.phase && s'.status.error == s.status.error
  {
    hide Inv, Step;
    if more != [] {
      var n := |more| - 1;
      OutcomeIsFinal(e, s, more[..n]);
      RunKeepsInv(e, s, more[..n]);
      ReturnedStepKeepsPhase(e, Run(e, s, more[..n]).value, more[n]);
    }
  }

  // Messages that arrive late.

  /** A sync report that passed its check while the status was still connecting. */
  predicate InFlight(s: State) {
    s.strays != [] || s.subsystems.PastCheck?
  }

  lemma QuietStep(e: Environment, s: State, a: Action)
    requires Inv(e, s) && s.main == Returned && !InFlight(s) && Step(e, s, a).Some?
    ensures var s' := Step(e, s, a).value; !InFlight(s') && s'.status == s.status
  {
  }

  lemma {:induction false} QuietForGood(e: Environment, s: State, more: seq<Action>)
    requires Inv(e, s) && s.main == Returned && !InFlight(s) && Run(e, s, more).Some?
    ensures var s' := Run(e, s, more).value; !InFlight(s') && s'.status == s.status
  {
    hide Inv, Step, InFlight;
    if more != [] {
      var n := |more| - 1;
      QuietForGood(e, s, more[..n]);
      RunKeepsInv(e, s, more[..n]);
      OutcomeIsFinal(e, s, more[..n]);
      QuietStep(e, Run(e, s, more[..n]).value, more[n]);
    }
  }

  ghost predicate CanStillChange(e: Environment, s: State) {
    exists more :: Run(e, s, more).Some? && Run(e, s, more).value.status != s.status
  }

  lemma RunOne(e: Environment, s: State, a: Action)
    ensures Run(e, s, [a]) == Step(e, s, a)
  {
    hide Step;
    assert [a][..0] == [];
    assert Run(e, s, []) == Some(s);
  }

  /** Main result: the check of a sync report and its store are two steps, so a report can still
      land on the status the attempt returned with. It can exactly when one is in flight. */
  lemma LateReportIff(e: Environment, s: State)
    requires Inv(e, s) && s.main == Returned && s.status.progress == NoProgress
    ensures CanStillChange(e, s) <==> InFlight(s)
  {
    if InFlight(s) {
      var a := if s.strays != [] then StoreStray(0) else StoreSync;
      assert s.strays != [] ==> s.strays[0] in s.strays;
      RunOne(e, s, a);
      assert Step(e, s, a).Some? && Step(e, s, a).value.status != s.status;
    } else {
      forall more | Run(e, s, more).Some? ensures Run(e, s, more).value.status == s.status {
        QuietForGood(e, s, more);
      }
    }
  }

  /** Main result: none of the attempt's own reports reaches the status of a connected cluster. */
  lemma OwnReportsEndBeforeConnected(e: Environment, start: State, actions: seq<Action>)
    requires IsStart(start) && Run(e, start, actions).Some?
    ensures var s := Run(e, start, actions).value;
      s.main == Returned && s.status.phase == Connected ==>
        && s.subsystems == Finished
        && (s.status.progress == NoProgress || (s.status.progress.Syncing? && s.status.progress.origin == Earlier))
  {
    hide Run;
    Reachable(e, start, actions);
  }

  // The attempt ends.

  function MainRank(m: Main): nat {
    match m
    case Starting => 8
    case Announced => 7
    case AwaitVersion => 6
    case VersionRefused(_) => 2
    case Canceled(_) => 1
    case VersionConfirmed => 5
    case GateOpened => 4
    case AwaitSubsystems => 3
    case SubsystemsFailed(_) => 1
    case SubsystemsReady => 1
    case Returned => 0
  }

  function VersionRank(v: Version): nat {
    match v
    case Unborn => 7
    case Entering => 6
    case Calling(n, _) => if n == 0 then 5 else 1
    case Deciding(_) => 4
    case Announcing(_) => 3
    case Pausing(_) => 2
    case Sent => 0
  }

  function Rank(s: State): nat {
    MainRank(s.main) + VersionRank(s.version) + if s.subsystems == Finished then 0 else 1
  }

  /** The steps an attempt can take only so many of. */
  predicate Advances(a: Action) {
    OfMain(a) || OfVersion(a) || a.Finish?
  }

  lemma MainLowersRank(e: Environment, s: State, a: Action)
    requires Inv(e, s) && OfMain(a) && MainStep(s, a).Some?
    ensures Rank(MainStep(s, a).value) < Rank(s)
  {
  }

  lemma VersionLowersRank(e: Environment, s: State, a: Action)
    requires Inv(e, s) && OfVersion(a) && VersionStep(e, s, a).Some?
    ensures Rank(VersionStep(e, s, a).value) < Rank(s)
  {
  }

  lemma AdvanceLowersRank(e: Environment, s: State, a: Action)
    requires Inv(e, s) && Step(e, s, a).Some?
    ensures Rank(Step(e, s, a).value) <= Rank(s)
    ensures Advances(a) ==> Rank(Step(e, s, a).value) < Rank(s)
  {
    hide Inv, MainStep, VersionStep, MainRank, VersionRank;
    if OfMain(a) {
      MainLowersRank(e, s, a);
    } else if OfVersion(a) {
      VersionLowersRank(e, s, a);
    }
  }

  function Advancing(actions: seq<Action>): nat {
    if actions == [] then 0
    else Advancing(actions[..|actions| - 1]) + if Advances(actions[|actions| - 1]) then 1 else 0
  }

  /** Main result: the main and version threads take at most sixteen steps between them, whatever
      else runs. */
  lemma {:induction false} AttemptIsBounded(e: Environment, s: State, actions: seq<Action>)
    requires Inv(e, s) && Run(e, s, actions).Some?
    ensures Advancing(actions) + Rank(Run(e, s, actions).value) <= Rank(s) <= 16
  {
    hide Inv, Step, Rank, Advances;
    if actions == [] {
      RankBound(s);
    } else {
      var n := |actions| - 1;
      AttemptIsBounded(e, s, actions[..n]);
      RunKeepsInv(e, s, actions[..n]);
      AdvanceLowersRank(e, Run(e, s, actions[..n]).value, actions[n]);
    }
  }

  lemma RankBound(s: State)
    ensures Rank(s) <= 16
  {
  }

  /** A step some thread of the attempt can take, if it has not returned. The subsystem thread may
      first have to store a message it already checked. */
  function Enabled(e: Environment, s: State): (a: Action)
    requires Inv(e, s) && s.main != Returned
    ensures Step(e, s, a).Some? && !a.ContextEnds? && !a.CheckStray? && !a.StoreStray?
    ensures Advances(a) || a.StoreReport? || a.StoreSync?
  {
    match s.main
    case Starting => Begin
    case Announced => Spawn
    case AwaitVersion =>
      (match s.version
       case Entering => Enter
       case Calling(_, _) => Answer(Ok)
       case Deciding(_) => Decide
       case Announcing(_) => StoreRetrying
       case Pausing(_) => Resume
       case _ => ReceiveVersion)
    case VersionRefused(_) => CancelSubsystems
    case Canceled(_) => StoreVersionFailure
    case VersionConfirmed => OpenGate
    case GateOpened => StoreLoading
    case AwaitSubsystems =>
      (match s.subsystems
       case PastGate(_) => StoreReport
       case PastCheck(_) => StoreSync
       case Finished => ReceiveSubsystems
       case _ => Finish(Ok))
    case SubsystemsFailed(_) => StoreSubsystemFailure
    case SubsystemsReady => StoreConnected
  }

  // How often the server is asked.

  /** How many times the version was asked for. */
  function Asks(e: Environment, actions: seq<Action>): nat {
    if actions == [] then 0
    else
      var a := actions[|actions| - 1];
      Asks(e, actions[..|actions| - 1]) + if (a.Enter? && e.hasClient) || a.Resume? then 1 else 0
  }

  function AsksLeft(v: Version): nat {
    match v
    case Unborn => 2
    case Entering => 2
    case Calling(n, _) => if n == 0 then 1 else 0
    case Deciding(_) => 1
    case Announcing(_) => 1
    case Pausing(_) => 1
    case Sent => 0
  }

  lemma AskUsesUp(e: Environment, s: State, a: Action)
    requires Inv(e, s) && Step(e, s, a).Some?
    ensures AsksLeft(Step(e, s, a).value.version)
            + (if (a.Enter? && e.hasClient) || a.Resume? then 1 else 0) <= AsksLeft(s.version)
  {
    if OfMain(a) {
    } else if OfVersion(a) {
    } else {
      assert Step(e, s, a).value.version == s.version;
    }
  }

  lemma {:induction false} AsksSoFar(e: Environment, s: State, actions: seq<Action>)
    requires Inv(e, s) && Run(e, s, actions).Some?
    ensures Asks(e, actions) + AsksLeft(Run(e, s, actions).value.version) <= AsksLeft(s.version)
  {
    hide Inv, Step, AsksLeft;
    if actions != [] {
      var n := |actions| - 1;
      AsksSoFar(e, s, actions[..n]);
      RunKeepsInv(e, s, actions[..n]);
      AskUsesUp(e, Run(e, s, actions[..n]).value, actions[n]);
    }
  }

  /** Main result: the server is asked at most twice, and the second time only after an error that a
      retry may cure. */
  lemma AtMostTwoAsks(e: Environment, start: State, actions: seq<Action>)
    requires IsStart(start) && Run(e, start, actions).Some?
    ensures var v := Run(e, start, actions).value.version;
      && Asks(e, actions) <= 2
      && (v.Pausing? ==> v.kind !in {Rbac, Network} && (v.kind == Auth ==> e.execAuth))
      && (v.Calling? && v.attempt > 0 ==>
            v.last.Some? && v.last.value !in {Rbac, Network} && (v.last.value == Auth ==> e.execAuth))
  {
    hide Run, Asks;
    Reachable(e, start, actions);
    AsksSoFar(e, start, actions);
  }
}
