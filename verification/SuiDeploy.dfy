/**
 * Setting up published Sui packages, in runs that may stop after any chain effect or progress
 * save. What survives a run is the chain and the progress file.
 */
module SuiDeploy {
  import opened Outcomes

  type Id = string

  datatype Progress = Progress(nttState: Option<Id>, nttAdmin: Option<Id>, transceiverState: Option<Id>,
                               transceiverAdmin: Option<Id>, registered: bool)

  datatype Effect = NttCompleted(state: Id) | TransceiverCompleted(state: Id) | Registered

  /**
   * The deployer capabilities still owned, the objects the completions created, and the file:
   * absent or unreadable is None.
   */
  datatype World = World(nttCap: bool, transceiverCap: bool, nttState: Option<Id>, nttAdmin: Option<Id>,
                         transceiverState: Option<Id>, transceiverAdmin: Option<Id>, file: Option<Progress>,
                         log: seq<Effect>)

  /** A transaction is refused, or creates objects, of which the answer may leave some out. */
  datatype Answer = Refused | Executed(state: Id, admin: Id, showsState: bool, showsAdmin: bool)

  /**
   * What one run meets: it stops when it has used up its durable actions. Saving after the
   * registration and removing the file may fail without stopping it; a failed save may spoil the file.
   */
  datatype Input = Input(burning: bool, treasuryCap: bool, wormholeState: bool, nttAnswer: Answer,
                         transceiverAnswer: Answer, registers: bool, recordsRegistration: bool, unlinks: bool,
                         actions: nat, torn: bool)

  datatype Outcome =
    | Stopped
    | Threw
    | Returned(nttState: Id, transceiverState: Option<Id>, transceiverAdmin: Option<Id>)

  function Shown(id: Id, shows: bool): Option<Id> { if shows then Some(id) else None }

  // ---------- one run ----------

  datatype Point = Go(world: World, progress: Progress, left: nat) | Halt(world: World, outcome: Outcome)

  function Start(w: World, left: nat): Point
  {
    Go(w, if w.file.Some? then w.file.value else Progress(None, None, None, None, false), left)
  }

  /** Writing the file; a run that stops here may leave it unreadable. */
  function Save(w: World, progress: Progress, left: nat, torn: bool): Point
  {
    if left == 0 then Halt(Spoilt(w, torn), Stopped)
    else Go(w.(file := Some(progress)), progress, left - 1)
  }

  /** What a failed write leaves of the file. */
  function Spoilt(w: World, torn: bool): World { if torn then w.(file := None) else w }

  function NttDone(w: World, state: Id, admin: Id): World
  {
    w.(nttCap := false, nttState := Some(state), nttAdmin := Some(admin), log := w.log + [NttCompleted(state)])
  }

  function TransceiverDone(w: World, state: Id, admin: Id): World
  {
    w.(transceiverCap := false, transceiverState := Some(state), transceiverAdmin := Some(admin),
       log := w.log + [TransceiverCompleted(state)])
  }

  function CompleteNtt(p: Point, input: Input): Point
    requires p.Go?
  {
    var Go(w, progress, left) := p;
    if w.nttCap then
      if input.burning && !input.treasuryCap then Halt(w, Threw)
      else if left == 0 then Halt(w, Stopped)
      else
        match input.nttAnswer
        case Refused => Halt(w, Threw)
        case Executed(state, admin, showsState, showsAdmin) =>
          var done := NttDone(w, state, admin);
          if !showsState then Halt(done, Threw)
          else
            var known := progress.(nttState := Some(state), nttAdmin := Shown(admin, showsAdmin));
            Save(done, known, left - 1, input.torn)
    else if progress.nttState.Some? then p
    else Halt(w, Threw)
  }

  function CompleteTransceiver(p: Point, input: Input): Point
    requires p.Go?
  {
    var Go(w, progress, left) := p;
    if input.wormholeState && w.transceiverCap then
      if left == 0 then Halt(w, Stopped)
      else
        match input.transceiverAnswer
        case Refused => Halt(w, Threw)
        case Executed(state, admin, showsState, showsAdmin) =>
          var done := TransceiverDone(w, state, admin);
          if !showsState then Halt(done, Threw)
          else
            var known := progress.(transceiverState := Some(state), transceiverAdmin := Shown(admin, showsAdmin));
            Save(done, known, left - 1, input.torn)
    else if progress.transceiverState.Some? then p
    else if !input.wormholeState then p
    else Halt(w, Threw)
  }

  /** A refused registration is only warned about. */
  function Register(p: Point, input: Input): Point
    requires p.Go?
  {
    var Go(w, progress, left) := p;
    if progress.nttAdmin.Some? && progress.transceiverState.Some? && !progress.registered then
      if left == 0 then Halt(w, Stopped)
      else if !input.registers then Go(w, progress, left - 1)
      else
        var done := w.(log := w.log + [Registered]);
        if input.recordsRegistration then Save(done, progress.(registered := true), left - 1, input.torn)
        else Go(Spoilt(done, input.torn), progress.(registered := true), left - 1)
    else if progress.registered then p
    else if progress.nttAdmin == None then Halt(w, Threw)
    else p
  }

  /** The file is removed, unless that fails, and the result carries the ids. */
  function Conclude(p: Point, input: Input): Point
    requires p.Go? && p.progress.nttState.Some?
  {
    if p.left == 0 then Halt(p.world, Stopped)
    else
      Halt(if input.unlinks then p.world.(file := None) else p.world,
           Returned(p.progress.nttState.value, p.progress.transceiverState, p.progress.transceiverAdmin))
  }

  function Deploy(w: World, input: Input): (r: Point)
    ensures r.Halt?
  {
    var first := CompleteNtt(Start(w, input.actions), input);
    if first.Halt? then first else
      var second := CompleteTransceiver(first, input);
      if second.Halt? then second else
        var third := Register(second, input);
        if third.Halt? then third else Conclude(third, input)
  }

  // ---------- what every run keeps ----------

  function Completions(log: seq<Effect>, ntt: bool): seq<Id>
  {
    if log == [] then [] else
      var e := log[|log| - 1];
      Completions(log[..|log| - 1], ntt) +
      (match e
       case NttCompleted(id) => if ntt then [id] else []
       case TransceiverCompleted(id) => if ntt then [] else [id]
       case Registered => [])
  }

  /** Each capability is spent exactly by the one completion that created the state. */
  predicate Spent(cap: bool, state: Option<Id>, admin: Option<Id>, completions: seq<Id>) {
    if cap then state == None && admin == None && completions == [] else state.Some? && completions == [state.value]
  }

  predicate Tells(known: Option<Id>, actual: Option<Id>) { known.Some? ==> known == actual }

  /** The progress tells nothing but the truth. */
  predicate Truthful(p: Progress, w: World) {
    && Tells(p.nttState, w.nttState) && Tells(p.nttAdmin, w.nttAdmin)
    && Tells(p.transceiverState, w.transceiverState) && Tells(p.transceiverAdmin, w.transceiverAdmin)
    && (p.transceiverAdmin.Some? ==> p.transceiverState.Some?)
    && (p.registered ==> Registered in w.log)
  }

  predicate Inv(w: World) {
    && Spent(w.nttCap, w.nttState, w.nttAdmin, Completions(w.log, true))
    && Spent(w.transceiverCap, w.transceiverState, w.transceiverAdmin, Completions(w.log, false))
    && (w.file.Some? ==> Truthful(w.file.value, w))
  }

  predicate PointOk(p: Point) {
    match p
    case Go(w, progress, _) => Inv(w) && Truthful(progress, w)
    case Halt(w, outcome) =>
      && Inv(w)
      && (outcome.Returned? ==>
            && w.nttState == Some(outcome.nttState)
            && Tells(outcome.transceiverState, w.transceiverState)
            && Tells(outcome.transceiverAdmin, w.transceiverAdmin))
  }

  lemma CompletionsAppend(log: seq<Effect>, e: Effect, ntt: bool)
    ensures Completions(log + [e], ntt) == Completions(log, ntt) +
              (match e
               case NttCompleted(id) => if ntt then [id] else []
               case TransceiverCompleted(id) => if ntt then [] else [id]
               case Registered => [])
  {
    assert (log + [e])[..|log|] == log;
  }

  lemma SaveKeeps(w: World, progress: Progress, left: nat, torn: bool)
    requires Inv(w) && Truthful(progress, w)
    ensures PointOk(Save(w, progress, left, torn))
  {
    hide Completions;
  }

  lemma NttDoneKeeps(w: World, progress: Progress, state: Id, admin: Id, showsAdmin: bool)
    requires Inv(w) && w.nttCap && Truthful(progress, w)
    ensures Inv(NttDone(w, state, admin))
    ensures Truthful(progress.(nttState := Some(state), nttAdmin := Shown(admin, showsAdmin)), NttDone(w, state, admin))
  {
    CompletionsAppend(w.log, NttCompleted(state), true);
    CompletionsAppend(w.log, NttCompleted(state), false);
    hide Completions;
  }

  lemma CompleteNttKeeps(p: Point, input: Input)
    requires p.Go? && PointOk(p)
    ensures PointOk(CompleteNtt(p, input))
    ensures CompleteNtt(p, input).Go? ==> CompleteNtt(p, input).progress.nttState.Some?
  {
    hide Inv, Truthful;
    var a := input.nttAnswer;
    if p.world.nttCap && a.Executed? {
      NttDoneKeeps(p.world, p.progress, a.state, a.admin, a.showsAdmin);
      if p.left > 0 {
        SaveKeeps(NttDone(p.world, a.state, a.admin),
                  p.progress.(nttState := Some(a.state), nttAdmin := Shown(a.admin, a.showsAdmin)),
                  p.left - 1, input.torn);
      }
    }
  }

  lemma TransceiverDoneKeeps(w: World, progress: Progress, state: Id, admin: Id, showsAdmin: bool)
    requires Inv(w) && w.transceiverCap && Truthful(progress, w)
    ensures Inv(TransceiverDone(w, state, admin))
    ensures Truthful(progress.(transceiverState := Some(state), transceiverAdmin := Shown(admin, showsAdmin)),
                     TransceiverDone(w, state, admin))
  {
    CompletionsAppend(w.log, TransceiverCompleted(state), true);
    CompletionsAppend(w.log, TransceiverCompleted(state), false);
    hide Completions;
  }

  lemma CompleteTransceiverKeeps(p: Point, input: Input)
    requires p.Go? && PointOk(p)
    ensures PointOk(CompleteTransceiver(p, input))
    ensures CompleteTransceiver(p, input).Go? ==> CompleteTransceiver(p, input).progress.nttState == p.progress.nttState
  {
    hide Inv, Truthful;
    var a := input.transceiverAnswer;
    if p.world.transceiverCap && a.Executed? {
      TransceiverDoneKeeps(p.world, p.progress, a.state, a.admin, a.showsAdmin);
      if p.left > 0 {
        SaveKeeps(TransceiverDone(p.world, a.state, a.admin),
                  p.progress.(transceiverState := Some(a.state), transceiverAdmin := Shown(a.admin, a.showsAdmin)),
                  p.left - 1, input.torn);
      }
    }
  }

  lemma RegisteredKeeps(w: World, progress: Progress)
    requires Inv(w) && Truthful(progress, w)
    ensures var done := w.(log := w.log + [Registered]); Inv(done) && Truthful(progress.(registered := true), done)
  {
    CompletionsAppend(w.log, Registered, true);
    CompletionsAppend(w.log, Registered, false);
    hide Completions;
  }

  lemma SpoiltKeeps(w: World, torn: bool)
    requires Inv(w)
    ensures Inv(Spoilt(w, torn))
    ensures forall p :: Truthful(p, w) ==> Truthful(p, Spoilt(w, torn))
  {
    hide Completions;
  }

  lemma RegisterKeeps(p: Point, input: Input)
    requires p.Go? && PointOk(p)
    ensures PointOk(Register(p, input))
    ensures Register(p, input).Go? ==> Register(p, input).progress.nttState == p.progress.nttState
  {
    hide Inv, Truthful;
    RegisteredKeeps(p.world, p.progress);
    if p.left > 0 {
      var done := p.world.(log := p.world.log + [Registered]);
      SaveKeeps(done, p.progress.(registered := true), p.left - 1, input.torn);
      SpoiltKeeps(done, input.torn);
    }
  }

  /** A run keeps the invariant, and returns only ids the completions created. */
  lemma DeployKeeps(w: World, input: Input)
    requires Inv(w)
    ensures PointOk(Deploy(w, input))
  {
    hide CompleteNtt, CompleteTransceiver, Register, Inv, Truthful;
    StartOk(w, input.actions);
    var first := CompleteNtt(Start(w, input.actions), input);
    CompleteNttKeeps(Start(w, input.actions), input);
    if first.Go? {
      var second := CompleteTransceiver(first, input);
      CompleteTransceiverKeeps(first, input);
      if second.Go? {
        RegisterKeeps(second, input);
        if Register(second, input).Go? {
          ConcludeOk(Register(second, input), input);
        }
      }
    }
  }

  lemma StartOk(w: World, left: nat)
    requires Inv(w)
    ensures PointOk(Start(w, left))
  {
  }

  lemma ConcludeOk(p: Point, input: Input)
    requires p.Go? && p.progress.nttState.Some? && PointOk(p)
    ensures PointOk(Conclude(p, input))
  {
    hide Completions;
  }

  // ---------- any number of runs ----------

  /** The world, and the outcomes, after a history of runs that each continue. */
  function History(w: World, inputs: seq<Input>): (World, seq<Outcome>)
    decreases |inputs|
  {
    if inputs == [] then (w, []) else
      var p := Deploy(w, inputs[0]);
      var (last, others) := History(p.world, inputs[1..]);
      (last, [p.outcome] + others)
  }

  predicate Published(w: World) {
    w == World(true, true, None, None, None, None, None, [])
  }

  /** The NTT setup never completes again once it has. */
  lemma {:induction false} StateStays(w: World, inputs: seq<Input>)
    requires Inv(w)
    ensures Inv(History(w, inputs).0)
    ensures w.nttState.Some? ==> History(w, inputs).0.nttState == w.nttState
    ensures w.transceiverState.Some? ==> History(w, inputs).0.transceiverState == w.transceiverState
    decreases |inputs|
  {
    hide Inv;
    if inputs != [] {
      DeployKeeps(w, inputs[0]);
      DeployStays(w, inputs[0]);
      StateStays(Deploy(w, inputs[0]).world, inputs[1..]);
    }
  }

  lemma DeployStays(w: World, input: Input)
    requires Inv(w)
    ensures w.nttState.Some? ==> Deploy(w, input).world.nttState == w.nttState
    ensures w.transceiverState.Some? ==> Deploy(w, input).world.transceiverState == w.transceiverState
  {
    hide Completions, Truthful;
  }

  /**
   * Over any number of runs, each setup completes at most once, and every run that returns carries
   * the state that the one completion created.
   */
  lemma {:induction false} AnyHistory(w: World, inputs: seq<Input>)
    requires Inv(w)
    ensures var (last, outcomes) := History(w, inputs);
            && Inv(last)
            && |Completions(last.log, true)| <= 1 && |Completions(last.log, false)| <= 1
            && |outcomes| == |inputs|
            && forall i :: 0 <= i < |outcomes| && outcomes[i].Returned? ==>
                 && Completions(last.log, true) == [outcomes[i].nttState]
                 && (outcomes[i].transceiverState.Some? ==>
                       Completions(last.log, false) == [outcomes[i].transceiverState.value])
    decreases |inputs|
  {
    hide Completions, Truthful, Deploy;
    if inputs != [] {
      DeployKeeps(w, inputs[0]);
      StateStays(Deploy(w, inputs[0]).world, inputs[1..]);
      AnyHistory(Deploy(w, inputs[0]).world, inputs[1..]);
    }
  }

  /** In particular from freshly published packages. */
  lemma AnyHistoryOfPublished(w: World, inputs: seq<Input>)
    requires Published(w)
    ensures var (last, outcomes) := History(w, inputs);
            && |Completions(last.log, true)| <= 1 && |Completions(last.log, false)| <= 1
            && |outcomes| == |inputs|
            && forall i :: 0 <= i < |outcomes| && outcomes[i].Returned? ==>
                 && Completions(last.log, true) == [outcomes[i].nttState]
                 && (outcomes[i].transceiverState.Some? ==>
                       Completions(last.log, false) == [outcomes[i].transceiverState.value])
  {
    assert Inv(w);
    AnyHistory(w, inputs);
  }

  // ---------- what one run does, told from the world and the input alone ----------

  /** The manager's completion is executed by this run. */
  predicate CompletesNtt(w: World, input: Input) {
    w.nttCap && (input.burning ==> input.treasuryCap) && input.nttAnswer.Executed? && input.actions >= 1
  }

  /** The run gets past the manager's step: its completion is saved, now or before. */
  predicate NttBehind(w: World, input: Input) {
    if w.nttCap then CompletesNtt(w, input) && input.nttAnswer.showsState && input.actions >= 2
    else w.file.Some? && w.file.value.nttState.Some?
  }

  function NttActions(w: World): nat { if w.nttCap then 2 else 0 }

  predicate TransceiverDue(w: World, input: Input) { input.wormholeState && w.transceiverCap }

  predicate CompletesTransceiver(w: World, input: Input) {
    && NttBehind(w, input) && TransceiverDue(w, input) && input.transceiverAnswer.Executed?
    && input.actions >= NttActions(w) + 1
  }

  predicate TransceiverBehind(w: World, input: Input) {
    && NttBehind(w, input)
    && (if TransceiverDue(w, input) then
          CompletesTransceiver(w, input) && input.transceiverAnswer.showsState && input.actions >= NttActions(w) + 2
        else !input.wormholeState || (w.file.Some? && w.file.value.transceiverState.Some?))
  }

  function SetupActions(w: World, input: Input): nat
  {
    NttActions(w) + if TransceiverDue(w, input) then 2 else 0
  }

  predicate AdminKnown(w: World, input: Input) {
    if w.nttCap then input.nttAnswer.Executed? && input.nttAnswer.showsAdmin
    else w.file.Some? && w.file.value.nttAdmin.Some?
  }

  predicate StateKnown(w: World, input: Input) {
    TransceiverDue(w, input) || (w.file.Some? && w.file.value.transceiverState.Some?)
  }

  predicate SaidRegistered(w: World) { w.file.Some? && w.file.value.registered }

  /** The transceiver is registered by this run. */
  predicate Registers(w: World, input: Input) {
    && TransceiverBehind(w, input) && AdminKnown(w, input) && StateKnown(w, input) && !SaidRegistered(w)
    && input.actions >= SetupActions(w, input) + 1 && input.registers
  }

  /** A run's effects on the chain: each of the three steps exactly if it is due, allowed and reached. */
  lemma RunLogs(w: World, input: Input)
    ensures Deploy(w, input).world.log ==
              w.log
              + (if CompletesNtt(w, input) then [NttCompleted(input.nttAnswer.state)] else [])
              + (if CompletesTransceiver(w, input) then [TransceiverCompleted(input.transceiverAnswer.state)] else [])
              + (if Registers(w, input) then [Registered] else [])
  {
    var first := CompleteNtt(Start(w, input.actions), input);
    NttPart(w, input);
    if first.Go? {
      var second := CompleteTransceiver(first, input);
      TransceiverPart(w, input);
      if second.Go? {
        hide CompleteNtt, CompleteTransceiver, NttBehind, TransceiverBehind;
        RegisterPart(w, input);
      }
    }
  }

  function Blank(w: World): Progress
  {
    if w.file.Some? then w.file.value else Progress(None, None, None, None, false)
  }

  /** What is known once the manager's step is behind the run. */
  function NttKnownAs(w: World, input: Input): Progress
  {
    if w.nttCap && input.nttAnswer.Executed? then
      Blank(w).(nttState := Some(input.nttAnswer.state),
                nttAdmin := Shown(input.nttAnswer.admin, input.nttAnswer.showsAdmin))
    else Blank(w)
  }

  /** And once the transceiver's is. */
  function TransceiverKnownAs(w: World, input: Input): Progress
  {
    var known := NttKnownAs(w, input);
    if TransceiverDue(w, input) && input.transceiverAnswer.Executed? then
      known.(transceiverState := Some(input.transceiverAnswer.state),
             transceiverAdmin := Shown(input.transceiverAnswer.admin, input.transceiverAnswer.showsAdmin))
    else known
  }

  lemma NttPart(w: World, input: Input)
    ensures var p := CompleteNtt(Start(w, input.actions), input);
            && (p.Go? <==> NttBehind(w, input))
            && p.world.log == w.log + (if CompletesNtt(w, input) then [NttCompleted(input.nttAnswer.state)] else [])
            && (p.Go? ==>
                  && p.left + NttActions(w) == input.actions && p.world.transceiverCap == w.transceiverCap
                  && p.progress == NttKnownAs(w, input) && p.progress.nttState.Some?
                  && p.world.file == if w.nttCap then Some(NttKnownAs(w, input)) else w.file)
            && (p.Halt? ==> !p.outcome.Returned? && (input.torn || p.world.file == w.file))
  {
  }

  lemma TransceiverPart(w: World, input: Input)
    requires NttBehind(w, input)
    ensures var first := CompleteNtt(Start(w, input.actions), input);
            && first.Go?
            && var p := CompleteTransceiver(first, input);
            && (p.Go? <==> TransceiverBehind(w, input))
            && p.world.log == first.world.log
                 + (if CompletesTransceiver(w, input)
                    then [TransceiverCompleted(input.transceiverAnswer.state)] else [])
            && (p.Go? ==>
                  && p.left + SetupActions(w, input) == input.actions
                  && p.progress == TransceiverKnownAs(w, input) && p.progress.nttState.Some?
                  && p.world.file ==
                       if TransceiverDue(w, input) then Some(TransceiverKnownAs(w, input)) else first.world.file)
            && (p.Halt? ==> !p.outcome.Returned? && (input.torn || p.world.file == first.world.file))
  {
    NttPart(w, input);
    hide CompleteNtt;
  }

  lemma KnownParts(w: World, input: Input)
    requires TransceiverBehind(w, input)
    ensures var known := TransceiverKnownAs(w, input);
            && (known.nttAdmin.Some? <==> AdminKnown(w, input))
            && (known.transceiverState.Some? <==> StateKnown(w, input))
            && (known.registered <==> SaidRegistered(w))
  {
  }

  lemma RegisterPart(w: World, input: Input)
    requires NttBehind(w, input) && TransceiverBehind(w, input)
    ensures var first := CompleteNtt(Start(w, input.actions), input);
            && first.Go?
            && var second := CompleteTransceiver(first, input);
            && second.Go?
            && var p := Register(second, input);
            && p.world.log == second.world.log + (if Registers(w, input) then [Registered] else [])
            && (input.torn || p.world.file ==
                  if SavesRegistration(w, input) then Some(TransceiverKnownAs(w, input).(registered := true))
                  else second.world.file)
            && (p.Go? <==>
                  && (SaidRegistered(w) || AdminKnown(w, input))
                  && input.actions >= SetupActions(w, input) + RegistrationActions(w, input))
            && (p.Halt? ==> !p.outcome.Returned?)
            && (p.Go? ==>
                  && p.left + SetupActions(w, input) + RegistrationActions(w, input) == input.actions
                  && p.progress.(registered := true) == TransceiverKnownAs(w, input).(registered := true)
                  && p.progress.nttState.Some?)
  {
    NttPart(w, input);
    TransceiverPart(w, input);
    KnownParts(w, input);
    hide CompleteNtt, CompleteTransceiver, NttBehind, TransceiverBehind, AdminKnown, StateKnown, NttKnownAs,
         TransceiverKnownAs;
  }

  /** What the run's last step but one takes. */
  function RegistrationActions(w: World, input: Input): nat
  {
    if !AdminKnown(w, input) || !StateKnown(w, input) || SaidRegistered(w) then 0
    else if input.registers && input.recordsRegistration then 2
    else 1
  }

  predicate SavesRegistration(w: World, input: Input) {
    Registers(w, input) && input.recordsRegistration && input.actions >= SetupActions(w, input) + 2
  }

  /** A run returns exactly if both steps are behind it and it is neither stopped nor missing its ids. */
  predicate Returns(w: World, input: Input) {
    && TransceiverBehind(w, input) && (SaidRegistered(w) || AdminKnown(w, input))
    && input.actions >= SetupActions(w, input) + RegistrationActions(w, input) + 1
  }

  lemma RunReturns(w: World, input: Input)
    ensures Deploy(w, input).outcome.Returned? <==> Returns(w, input)
    ensures Returns(w, input) ==>
              Deploy(w, input).outcome ==
                Returned(if w.nttCap then input.nttAnswer.state else w.file.value.nttState.value,
                         if TransceiverDue(w, input) then Some(input.transceiverAnswer.state)
                         else Blank(w).transceiverState,
                         if TransceiverDue(w, input) then
                           Shown(input.transceiverAnswer.admin, input.transceiverAnswer.showsAdmin)
                         else Blank(w).transceiverAdmin)
  {
    var first := CompleteNtt(Start(w, input.actions), input);
    NttPart(w, input);
    if first.Go? {
      var second := CompleteTransceiver(first, input);
      TransceiverPart(w, input);
      if second.Go? {
        RegisterPart(w, input);
        hide CompleteNtt, CompleteTransceiver, Register, AdminKnown, StateKnown, SaidRegistered, RegistrationActions;
      } else {
        hide CompleteNtt, CompleteTransceiver;
      }
    } else {
      hide CompleteNtt;
    }
  }

  /**
   * What a run leaves in the file, unless a failed write spoils it: nothing if it returns and the file can be
   * removed, and otherwise what was known at the last step that is saved.
   */
  lemma RunSaves(w: World, input: Input)
    requires !input.torn
    ensures Deploy(w, input).world.file ==
              if Returns(w, input) && input.unlinks then None
              else if SavesRegistration(w, input) then Some(TransceiverKnownAs(w, input).(registered := true))
              else if TransceiverDue(w, input) && TransceiverBehind(w, input) then Some(TransceiverKnownAs(w, input))
              else if w.nttCap && NttBehind(w, input) then Some(NttKnownAs(w, input))
              else w.file
  {
    RunReturns(w, input);
    var first := CompleteNtt(Start(w, input.actions), input);
    NttPart(w, input);
    hide Returns;
    if first.Go? {
      var second := CompleteTransceiver(first, input);
      TransceiverPart(w, input);
      if second.Go? {
        RegisterPart(w, input);
        hide CompleteNtt, CompleteTransceiver, Register, AdminKnown, StateKnown, SaidRegistered, RegistrationActions,
             NttKnownAs, TransceiverKnownAs, SavesRegistration;
      } else {
        hide CompleteNtt, CompleteTransceiver, NttKnownAs, TransceiverKnownAs;
      }
    } else {
      hide CompleteNtt;
    }
  }

  /** So a run that returns both ids, to which registering was not refused, leaves the transceiver registered. */
  lemma ReturnedIsRegistered(w: World, input: Input)
    requires Inv(w) && Deploy(w, input).outcome.Returned? && input.registers
    requires Deploy(w, input).outcome.transceiverState.Some?
    ensures Registered in Deploy(w, input).world.log
  {
    RunReturns(w, input);
    RunLogs(w, input);
    hide Deploy, Completions, NttBehind, TransceiverBehind, AdminKnown;
    if SaidRegistered(w) {
      assert Registered in w.log;
    } else {
      assert Registers(w, input);
    }
  }

  lemma LogGrows(w: World, input: Input)
    ensures w.log <= Deploy(w, input).world.log
  {
    RunLogs(w, input);
    hide Deploy;
  }

  lemma {:induction false} HistoryLogGrows(w: World, inputs: seq<Input>)
    ensures w.log <= History(w, inputs).0.log
    decreases |inputs|
  {
    hide Deploy;
    if inputs != [] {
      LogGrows(w, inputs[0]);
      HistoryLogGrows(Deploy(w, inputs[0]).world, inputs[1..]);
    }
  }

  predicate ReturnedUnrefused(input: Input, outcome: Outcome) {
    input.registers && outcome.Returned? && outcome.transceiverState.Some?
  }

  /**
   * Over any history, a run that returns both ids and to which registering was not refused means that the
   * transceiver is registered in the end; and the file says so of no transceiver that is not.
   */
  lemma {:induction false} HistoryRegisters(w: World, inputs: seq<Input>)
    requires Inv(w)
    ensures var (last, outcomes) := History(w, inputs);
            && |outcomes| == |inputs|
            && (SaidRegistered(last) ==> Registered in last.log)
            && forall i :: 0 <= i < |inputs| && ReturnedUnrefused(inputs[i], outcomes[i]) ==> Registered in last.log
    decreases |inputs|
  {
    hide Deploy, Completions;
    if inputs != [] {
      var p := Deploy(w, inputs[0]);
      DeployKeeps(w, inputs[0]);
      HistoryRegisters(p.world, inputs[1..]);
      HistoryLogGrows(p.world, inputs[1..]);
      if ReturnedUnrefused(inputs[0], p.outcome) {
        ReturnedIsRegistered(w, inputs[0]);
      }
      forall i | 0 < i < |inputs|
        ensures History(w, inputs).1[i] == History(p.world, inputs[1..]).1[i - 1]
      {
      }
    }
  }

  // ---------- which histories can return ----------

  /** The completion happened but the file does not say so. */
  predicate Lost(w: World) { !w.nttCap && (w.file == None || w.file.value.nttState == None) }

  /** Then every run throws and changes nothing: no other id is ever returned. */
  lemma {:induction false} LostSaveThrows(w: World, inputs: seq<Input>)
    requires Lost(w)
    ensures History(w, inputs) == (w, seq(|inputs|, _ => Threw))
    decreases |inputs|
  {
    if inputs != [] {
      assert Deploy(w, inputs[0]) == Halt(w, Threw);
      LostSaveThrows(w, inputs[1..]);
      assert [Threw] + seq(|inputs[1..]|, _ => Threw) == seq(|inputs|, _ => Threw);
    } else {
      assert seq(0, _ => Threw) == [];
    }
  }

  /** Lost, or completed without the file knowing the administrator's object or a registration. */
  predicate Stuck(w: World) {
    Lost(w) || (!w.nttCap && w.file.value.nttAdmin == None && !w.file.value.registered)
  }

  predicate NoneReturns(outcomes: seq<Outcome>) { forall i :: 0 <= i < |outcomes| ==> !outcomes[i].Returned? }

  lemma StuckStays(w: World, input: Input)
    requires Stuck(w)
    ensures Stuck(Deploy(w, input).world) && !Deploy(w, input).outcome.Returned?
  {
  }

  lemma {:induction false} StuckNeverReturns(w: World, inputs: seq<Input>)
    requires Stuck(w)
    ensures NoneReturns(History(w, inputs).1)
    decreases |inputs|
  {
    hide Deploy, Stuck;
    if inputs != [] {
      StuckStays(w, inputs[0]);
      StuckNeverReturns(Deploy(w, inputs[0]).world, inputs[1..]);
    }
  }

  /** A run to which nothing is refused and that is not stopped, without the transceiver. */
  const Smooth: Input :=
    Input(false, false, false, Executed("state", "admin", true, true), Refused, false, true, true, 4, false)

  lemma SmoothReturns(w: World)
    requires !Stuck(w)
    ensures Deploy(w, Smooth).outcome.Returned?
  {
  }

  /** The continuing runs of any history can return exactly from the worlds that are not stuck. */
  lemma CanReturnExactly(w: World)
    ensures Stuck(w) <==> forall inputs :: NoneReturns(History(w, inputs).1)
  {
    if Stuck(w) {
      forall inputs
        ensures NoneReturns(History(w, inputs).1)
      {
        StuckNeverReturns(w, inputs);
      }
    } else {
      SmoothReturns(w);
      OneRun(w, Smooth);
      var outcomes := History(w, [Smooth]).1;
      assert outcomes[0].Returned? && !NoneReturns(outcomes);
    }
  }

  lemma OneRun(w: World, input: Input)
    ensures History(w, [input]) == (Deploy(w, input).world, [Deploy(w, input).outcome])
  {
    hide Deploy;
    var p := Deploy(w, input);
    var none: seq<Input> := [input][1..];
    assert none == [] && History(p.world, none) == (p.world, []);
    assert [p.outcome] + [] == [p.outcome];
  }

  // ---------- when the transceiver's save is lost ----------

  /** The transceiver's completion happened but the file does not say so. */
  predicate LostTransceiver(w: World) {
    !w.transceiverCap && (w.file.Some? ==> w.file.value.transceiverState == None)
  }

  predicate AllGiven(inputs: seq<Input>) { forall i :: 0 <= i < |inputs| ==> inputs[i].wormholeState }

  /** No transceiver's ids, and no Wormhole state was given. */
  predicate WithoutTransceiver(input: Input, outcome: Outcome) {
    outcome.Returned? ==>
      !input.wormholeState && outcome.transceiverState == None && outcome.transceiverAdmin == None
  }

  lemma LostTransceiverStays(w: World, input: Input)
    requires Inv(w) && LostTransceiver(w)
    ensures LostTransceiver(Deploy(w, input).world)
    ensures WithoutTransceiver(input, Deploy(w, input).outcome)
  {
    hide Completions;
  }

  lemma {:induction false} LostTransceiverRuns(w: World, inputs: seq<Input>)
    requires Inv(w) && LostTransceiver(w)
    ensures |History(w, inputs).1| == |inputs|
    ensures forall i :: 0 <= i < |inputs| ==> WithoutTransceiver(inputs[i], History(w, inputs).1[i])
    decreases |inputs|
  {
    hide Deploy, Inv, LostTransceiver, WithoutTransceiver;
    if inputs != [] {
      LostTransceiverStays(w, inputs[0]);
      DeployKeeps(w, inputs[0]);
      var next := Deploy(w, inputs[0]).world;
      LostTransceiverRuns(next, inputs[1..]);
      forall i | 0 <= i < |inputs|
        ensures WithoutTransceiver(inputs[i], History(w, inputs).1[i])
      {
        assert i > 0 ==> History(w, inputs).1[i] == History(next, inputs[1..]).1[i - 1];
      }
    }
  }

  /**
   * After a lost save of the transceiver, runs that are given a Wormhole state never return, others
   * return without the transceiver's ids; some history returns exactly if the world is not stuck besides.
   */
  lemma LostTransceiverReturns(w: World)
    requires Inv(w) && LostTransceiver(w)
    ensures forall inputs, i :: 0 <= i < |inputs| && i < |History(w, inputs).1| ==>
              WithoutTransceiver(inputs[i], History(w, inputs).1[i])
    ensures !Stuck(w) <==> exists inputs :: !NoneReturns(History(w, inputs).1)
  {
    hide Inv, LostTransceiver, WithoutTransceiver, Stuck;
    forall inputs, i | 0 <= i < |inputs| && i < |History(w, inputs).1|
      ensures WithoutTransceiver(inputs[i], History(w, inputs).1[i])
    {
      LostTransceiverRuns(w, inputs);
    }
    CanReturnExactly(w);
  }

  /** A run to which nothing is refused and that is not stopped, with the transceiver. */
  const SmoothWith: Input :=
    Input(false, false, true, Executed("state", "admin", true, true), Executed("transceiver", "owner", true, true),
          false, true, true, 6, false)

  lemma SmoothWithReturns(w: World)
    requires !Stuck(w) && !LostTransceiver(w)
    ensures Deploy(w, SmoothWith).outcome.Returned?
  {
  }

  /** When a Wormhole state is always given, they can return exactly if neither save is lost for good. */
  lemma CanReturnWithTransceiver(w: World)
    requires Inv(w)
    ensures Stuck(w) || LostTransceiver(w) <==>
              forall inputs :: AllGiven(inputs) ==> NoneReturns(History(w, inputs).1)
  {
    hide Inv, Stuck, LostTransceiver;
    if Stuck(w) || LostTransceiver(w) {
      forall inputs | AllGiven(inputs)
        ensures NoneReturns(History(w, inputs).1)
      {
        if Stuck(w) {
          StuckNeverReturns(w, inputs);
        } else {
          LostTransceiverRuns(w, inputs);
        }
      }
    } else {
      SmoothWithReturns(w);
      OneRun(w, SmoothWith);
      var outcomes := History(w, [SmoothWith]).1;
      assert AllGiven([SmoothWith]) && outcomes[0].Returned? && !NoneReturns(outcomes);
    }
  }

  /** From published packages: the transceiver's save is lost, and a run without a Wormhole state returns. */
  lemma ReturnsWithoutTransceiver(w: World)
    requires Published(w)
    ensures var first := Deploy(w, SmoothWith.(actions := 3));
            && first.outcome == Stopped && LostTransceiver(first.world)
            && first.world.transceiverState == Some("transceiver")
            && Deploy(first.world, Smooth).outcome == Returned("state", None, None)
            && Deploy(first.world, SmoothWith).outcome == Threw
  {
  }

  // ---------- after a run has returned ----------

  /** What the file says, if it is there, once a run has got this far. */
  predicate FileSays(p: Point) {
    p.Go? && !p.world.nttCap &&
    (p.world.file.Some? ==>
       && p.world.file.value.(registered := p.progress.registered) == p.progress
       && (p.progress.registered && !p.world.file.value.registered ==> p.progress.nttAdmin.Some?))
  }

  lemma FileSaysNtt(w: World, input: Input)
    requires CompleteNtt(Start(w, input.actions), input).Go?
    ensures var p := CompleteNtt(Start(w, input.actions), input);
            FileSays(p) && p.world.file.Some? && p.progress.nttState.Some?
  {
  }

  lemma FileSaysTransceiver(p: Point, input: Input)
    requires FileSays(p) && p.world.file.Some? && CompleteTransceiver(p, input).Go?
    ensures FileSays(CompleteTransceiver(p, input)) && CompleteTransceiver(p, input).world.file.Some?
  {
  }

  lemma FileSaysRegister(p: Point, input: Input)
    requires FileSays(p) && p.world.file.Some? && Register(p, input).Go?
    ensures var q := Register(p, input);
            && FileSays(q) && (q.progress.nttAdmin.Some? || q.progress.registered)
            && (input.recordsRegistration || !input.torn ==> q.world.file.Some?)
  {
  }

  /** The file a returning run leaves, if any, carries what it returned. */
  lemma ReturnedFile(w: World, input: Input)
    requires Deploy(w, input).outcome.Returned?
    ensures var Halt(after, result) := Deploy(w, input);
            && !after.nttCap
            && (input.unlinks ==> after.file == None)
            && (!input.unlinks && (input.recordsRegistration || !input.torn) ==> after.file.Some?)
            && (after.file.Some? ==>
                  && !Stuck(after) && after.file.value.nttState == Some(result.nttState)
                  && after.file.value.transceiverState == result.transceiverState
                  && after.file.value.transceiverAdmin == result.transceiverAdmin)
  {
    FileSaysNtt(w, input);
    var first := CompleteNtt(Start(w, input.actions), input);
    hide CompleteNtt, CompleteTransceiver, Register;
    FileSaysTransceiver(first, input);
    var second := CompleteTransceiver(first, input);
    FileSaysRegister(second, input);
    StateKept(first, input);
    StateKept(second, input);
  }

  /** No id but those of this result is to be returned. */
  predicate Fixed(w: World, result: Outcome)
    requires result.Returned?
  {
    && !w.nttCap
    && (w.file.Some? ==> w.file.value.nttState == Some(result.nttState))
    && (result.transceiverState.Some? ==>
          && !w.transceiverCap
          && (w.file.Some? ==>
                && w.file.value.transceiverState == result.transceiverState
                && w.file.value.transceiverAdmin == result.transceiverAdmin))
  }

  /** The same ids, but that a transceiver may be set up later if there was none. */
  predicate SameIds(outcome: Outcome, result: Outcome)
    requires result.Returned?
  {
    outcome.Returned? ==>
      && outcome.nttState == result.nttState
      && (result.transceiverState.Some? ==> outcome == result)
  }

  lemma FixedStays(w: World, result: Outcome, input: Input)
    requires result.Returned? && Fixed(w, result)
    ensures Fixed(Deploy(w, input).world, result) && SameIds(Deploy(w, input).outcome, result)
  {
  }

  lemma {:induction false} FixedReturns(w: World, result: Outcome, later: seq<Input>)
    requires result.Returned? && Fixed(w, result)
    ensures forall outcome :: outcome in History(w, later).1 ==> SameIds(outcome, result)
    decreases |later|
  {
    hide Deploy, Fixed, SameIds;
    if later != [] {
      FixedStays(w, result, later[0]);
      FixedReturns(Deploy(w, later[0]).world, result, later[1..]);
    }
  }

  /**
   * After a run that returned, later runs always throw, and change nothing, exactly if the progress
   * file is gone, as it is once it has been removed. If it could not be removed, nor was spoilt, later
   * runs can return, and whatever run does returns the same ids.
   */
  lemma ReturnsOnce(w: World, input: Input)
    requires Inv(w) && Deploy(w, input).outcome.Returned?
    ensures var Halt(after, result) := Deploy(w, input);
            && (after.file == None <==> forall later :: History(after, later) == (after, seq(|later|, _ => Threw)))
            && (after.file == None <==> forall later :: NoneReturns(History(after, later).1))
            && (input.unlinks ==> after.file == None)
            && (!input.unlinks && (input.recordsRegistration || !input.torn) ==> after.file.Some?)
            && forall later, outcome :: outcome in History(after, later).1 ==> SameIds(outcome, result)
  {
    ReturnedFile(w, input);
    DeployKeeps(w, input);
    var Halt(after, result) := Deploy(w, input);
    hide Deploy, NoneReturns, SameIds, Completions;
    assert Fixed(after, result);
    forall later, outcome | outcome in History(after, later).1
      ensures SameIds(outcome, result)
    {
      FixedReturns(after, result, later);
    }
    AfterReturn(after);
  }

  /** A file that could not be removed is continued: the second run returns what the first returned. */
  lemma ReturnsTwice(w: World)
    requires Published(w)
    ensures var first := Deploy(w, Smooth.(unlinks := false));
            first.outcome == Returned("state", None, None) && Deploy(first.world, Smooth).outcome == first.outcome
  {
  }

  /** An answer without the administrator's object: the file has the state, and no later run returns. */
  lemma AdminNotShown(w: World)
    requires Published(w)
    ensures var p := Deploy(w, Smooth.(nttAnswer := Executed("state", "admin", true, false)));
            && p.outcome == Threw && p.world.file.Some? && p.world.file.value.nttState == Some("state")
            && Stuck(p.world)
  {
  }

  lemma AfterReturn(w: World)
    requires !w.nttCap && (w.file.Some? ==> !Stuck(w))
    ensures w.file == None <==> forall later :: History(w, later) == (w, seq(|later|, _ => Threw))
    ensures w.file == None <==> forall later :: NoneReturns(History(w, later).1)
  {
    CanReturnExactly(w);
    hide Deploy;
    if w.file == None {
      forall later
        ensures History(w, later) == (w, seq(|later|, _ => Threw))
      {
        LostSaveThrows(w, later);
      }
    } else {
      var later :| !NoneReturns(History(w, later).1);
      ThrowingReturnsNone(|later|);
    }
  }

  lemma ThrowingReturnsNone(n: nat)
    ensures NoneReturns(seq(n, _ => Threw))
  {
  }

  // ---------- the code ----------

  class SuiSetup {
    var nttCap: bool
    var transceiverCap: bool
    ghost var nttState: Option<Id>
    ghost var nttAdmin: Option<Id>
    ghost var transceiverState: Option<Id>
    ghost var transceiverAdmin: Option<Id>
    ghost var log: seq<Effect>
    var file: Option<Progress>
    var left: nat

    ghost function Snapshot(): World
      reads this
    {
      World(nttCap, transceiverCap, nttState, nttAdmin, transceiverState, transceiverAdmin, file, log)
    }

    /** False when the run stops instead. */
    method SaveProgress(progress: Progress, torn: bool) returns (saved: bool)
      modifies this
      ensures var p := Save(old(Snapshot()), progress, old(left), torn);
              && Snapshot() == p.world && (saved <==> p.Go?) && (p.Go? ==> left == p.left)
    {
      if left == 0 {
        if torn {
          file := None;
        }
        return false;
      }
      file, left := Some(progress), left - 1;
      return true;
    }

    /** Where a stretch of the run has got to, or how the run has ended there. */
    ghost predicate At(p: Point, progress: Progress, ended: Option<Outcome>)
      reads this
    {
      && Snapshot() == p.world
      && (match p
          case Go(_, known, l) => ended == None && progress == known && left == l
          case Halt(_, outcome) => ended == Some(outcome))
    }

    method CompleteNttSetup(first: Progress, input: Input) returns (progress: Progress, ended: Option<Outcome>)
      modifies this
      ensures At(CompleteNtt(Go(old(Snapshot()), first, old(left)), input), progress, ended)
    {
      progress, ended := first, None;
      if nttCap {
        if input.burning && !input.treasuryCap {
          return progress, Some(Threw);
        }
        if left == 0 {
          return progress, Some(Stopped);
        }
        if input.nttAnswer.Refused? {
          return progress, Some(Threw);
        }
        var Executed(state, admin, showsState, showsAdmin) := input.nttAnswer;
        nttCap, left := false, left - 1;
        nttState, nttAdmin, log := Some(state), Some(admin), log + [NttCompleted(state)];
        if !showsState {
          return progress, Some(Threw);
        }
        progress := progress.(nttState := Some(state), nttAdmin := Shown(admin, showsAdmin));
        var saved := SaveProgress(progress, input.torn);
        if !saved {
          return progress, Some(Stopped);
        }
      } else if progress.nttState == None {
        return progress, Some(Threw);
      }
    }

    method CompleteTransceiverSetup(first: Progress, input: Input) returns (progress: Progress, ended: Option<Outcome>)
      modifies this
      ensures At(CompleteTransceiver(Go(old(Snapshot()), first, old(left)), input), progress, ended)
    {
      progress, ended := first, None;
      if input.wormholeState && transceiverCap {
        if left == 0 {
          return progress, Some(Stopped);
        }
        if input.transceiverAnswer.Refused? {
          return progress, Some(Threw);
        }
        var Executed(state, admin, showsState, showsAdmin) := input.transceiverAnswer;
        transceiverCap, left := false, left - 1;
        transceiverState, transceiverAdmin, log := Some(state), Some(admin), log + [TransceiverCompleted(state)];
        if !showsState {
          return progress, Some(Threw);
        }
        progress := progress.(transceiverState := Some(state), transceiverAdmin := Shown(admin, showsAdmin));
        var saved := SaveProgress(progress, input.torn);
        if !saved {
          return progress, Some(Stopped);
        }
      } else if progress.transceiverState == None && input.wormholeState {
        return progress, Some(Threw);
      }
    }

    method RegisterTransceiver(first: Progress, input: Input) returns (progress: Progress, ended: Option<Outcome>)
      modifies this
      ensures At(Register(Go(old(Snapshot()), first, old(left)), input), progress, ended)
    {
      progress, ended := first, None;
      if progress.nttAdmin.Some? && progress.transceiverState.Some? && !progress.registered {
        if left == 0 {
          return progress, Some(Stopped);
        }
        left := left - 1;
        if input.registers {
          log := log + [Registered];
          progress := progress.(registered := true);
          if !input.recordsRegistration {
            if input.torn {
              file := None;
            }
            return progress, None;
          }
          var saved := SaveProgress(progress, input.torn);
          if !saved {
            return progress, Some(Stopped);
          }
        }
      } else if !progress.registered && progress.nttAdmin == None {
        return progress, Some(Threw);
      }
    }

    method Run(input: Input) returns (outcome: Outcome)
      requires left == input.actions
      modifies this
      ensures Halt(Snapshot(), outcome) == Deploy(old(Snapshot()), input)
    {
      hide CompleteNtt, CompleteTransceiver, Register;
      NttKnown(Start(Snapshot(), left), input);
      var progress := if file.Some? then file.value else Progress(None, None, None, None, false);
      var ended;
      progress, ended := CompleteNttSetup(progress, input);
      if ended.Some? {
        return ended.value;
      }
      ghost var second := Go(Snapshot(), progress, left);
      progress, ended := CompleteTransceiverSetup(progress, input);
      if ended.Some? {
        return ended.value;
      }
      ghost var third := Go(Snapshot(), progress, left);
      progress, ended := RegisterTransceiver(progress, input);
      if ended.Some? {
        return ended.value;
      }
      StateKept(second, input);
      StateKept(third, input);
      if left == 0 {
        return Stopped;
      }
      if input.unlinks {
        file := None;
      }
      return Returned(progress.nttState.value, progress.transceiverState, progress.transceiverAdmin);
    }
  }

  lemma NttKnown(p: Point, input: Input)
    requires p.Go?
    ensures CompleteNtt(p, input).Go? ==> CompleteNtt(p, input).progress.nttState.Some?
  {
  }

  lemma StateKept(p: Point, input: Input)
    requires p.Go?
    ensures CompleteTransceiver(p, input).Go? ==> CompleteTransceiver(p, input).progress.nttState == p.progress.nttState
    ensures Register(p, input).Go? ==> Register(p, input).progress.nttState == p.progress.nttState
  {
  }
}
