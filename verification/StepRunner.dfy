/** The runner of every install, upgrade and uninstall (pkg/cli/tui/spinner.go): a model
    updated message by message while its commands run concurrently. Rendering is left out;
    a command that prints and then runs a step or quits is that step or that quit. */
module StepRunner {
  import opened Wrappers

  /** Messages that change the model. Everything else leaves it alone. */
  datatype Msg = QuitKey | StepError(error: string) | StepExecuted | Other

  datatype Cmd = NoCmd | RunStep(index: nat) | Quit

  datatype Model = Model(index: nat, interrupt: bool, done: bool, stepError: Option<string>)

  function Updated(m: Model, count: nat, msg: Msg): (Model, Cmd) {
    match msg
    case QuitKey => (m.(interrupt := true, done := true), Quit)
    case StepError(error) => (m.(stepError := Some(error), done := true), Quit)
    case StepExecuted =>
      if m.index + 1 >= count then (m.(done := true), Quit)
      else (m.(index := m.index + 1), RunStep(m.index + 1))
    case Other => (m, NoCmd)
  }

  class Spinner {
    const steps: seq<string>
    var index: nat
    var interrupt: bool
    var done: bool
    var stepError: Option<string>

    constructor (steps: seq<string>)
      ensures this.steps == steps && Value() == Model(0, false, false, None)
    {
      this.steps := steps;
      index, interrupt, done, stepError := 0, false, false, None;
    }

    function Value(): Model
      reads this
    {
      Model(index, interrupt, done, stepError)
    }

    /** The code indexes the list with the current index: it must not be empty. */
    method Init() returns (cmd: Cmd)
      requires index < |steps|
      ensures cmd == RunStep(index)
    {
      cmd := RunStep(index);
    }

    method Update(msg: Msg) returns (cmd: Cmd)
      requires index < |steps|
      modifies this
      ensures (Value(), cmd) == Updated(old(Value()), |steps|, msg)
      ensures index < |steps| && (cmd.RunStep? ==> cmd.index < |steps|)
    {
      match msg
      case QuitKey =>
        interrupt, done := true, true;
        return Quit;
      case StepError(error) =>
        stepError, done := Some(error), true;
        return Quit;
      case StepExecuted =>
        if index >= |steps| - 1 {
          done := true;
          return Quit;
        }
        index := index + 1;
        return RunStep(index);
      case Other =>
        return NoCmd;
    }
  }

  // ---------- the program around the model ----------

  /** What happens during a run; A is what a step can do to the cluster. */
  datatype Event<A> =
    | Started(step: nat)
    | Did(step: nat, call: A)
    | Finished(step: nat, error: Option<string>)

  datatype Status = Running | Exited | Killed

  /** What is under way for a step: its command, its execution, or its result message. */
  datatype Flight = Scheduled(step: nat) | Active(step: nat) | Result(error: Option<string>)

  /** The model, everything under way (in no particular order, and nothing in the type
      keeps it to one step at a time) and everything that happened so far. */
  datatype Program<A> = Program(
    model: Model,
    flights: multiset<Flight>,
    quitKeys: nat,
    quits: nat,                          // Quit commands not yet carried out
    log: seq<Event<A>>,
    status: Status)

  datatype Action<A> =
    | Launch(step: nat)
    | Work(step: nat, call: A)
    | Complete(step: nat, error: Option<string>)
    | PressQuit
    | DeliverResult(error: Option<string>)
    | DeliverQuitKey
    | DeliverOther
    | Exit
    | Kill

  /** The calls a step has made. */
  function CallsOf<A>(log: seq<Event<A>>, step: nat): seq<A>
    decreases |log|
  {
    if log == [] then []
    else
      var before, last := CallsOf(log[..|log| - 1], step), log[|log| - 1];
      if last.Did? && last.step == step then before + [last.call] else before
  }

  function Issue<A>(p: Program<A>, cmd: Cmd): Program<A> {
    match cmd
    case NoCmd => p
    case RunStep(i) => p.(flights := p.flights + multiset{Scheduled(i)})
    case Quit => p.(quits := p.quits + 1)
  }

  function Deliver<A>(p: Program<A>, count: nat, msg: Msg): Program<A> {
    var (model, cmd) := Updated(p.model, count, msg);
    Issue(p.(model := model), cmd)
  }

  function ResultMsg(error: Option<string>): Msg {
    if error.None? then StepExecuted else StepError(error.value)
  }

  function Replace(flights: multiset<Flight>, from: Flight, to: Flight): multiset<Flight> {
    flights - multiset{from} + multiset{to}
  }

  predicate MayComplete<A>(p: Program<A>, contract: (nat, seq<A>) -> bool, i: nat, error: Option<string>) {
    Active(i) in p.flights && (error.Some? || contract(i, CallsOf(p.log, i)))
  }

  /** One step of the program; contract says after which calls a step can report success.
      Actions that are not possible change nothing. */
  function Apply<A>(p: Program<A>, count: nat, contract: (nat, seq<A>) -> bool, a: Action<A>): Program<A> {
    match a
    case Launch(i) =>
      if Scheduled(i) in p.flights
      then p.(flights := Replace(p.flights, Scheduled(i), Active(i)), log := p.log + [Started(i)])
      else p
    case Work(i, call) =>
      if Active(i) in p.flights then p.(log := p.log + [Did(i, call)]) else p
    case Complete(i, error) =>
      if MayComplete(p, contract, i, error)
      then p.(flights := Replace(p.flights, Active(i), Result(error)), log := p.log + [Finished(i, error)])
      else p
    case PressQuit => p.(quitKeys := p.quitKeys + 1)
    case DeliverResult(error) =>
      if p.status.Running? && Result(error) in p.flights
      then Deliver(p.(flights := p.flights - multiset{Result(error)}), count, ResultMsg(error))
      else p
    case DeliverQuitKey =>
      if p.status.Running? && p.quitKeys > 0
      then Deliver(p.(quitKeys := p.quitKeys - 1), count, QuitKey)
      else p
    case DeliverOther =>
      if p.status.Running? then Deliver(p, count, Other) else p
    case Exit =>
      if p.status.Running? && p.quits > 0 then p.(quits := p.quits - 1, status := Exited) else p
    case Kill =>
      if p.status.Running? then p.(status := Killed) else p
  }

  function Run<A>(p: Program<A>, count: nat, contract: (nat, seq<A>) -> bool, actions: seq<Action<A>>): Program<A>
    decreases |actions|
  {
    if actions == [] then p else Run(Apply(p, count, contract, actions[0]), count, contract, actions[1..])
  }

  /** After Init: the first step is scheduled. */
  function Initial<A>(): Program<A> {
    Program(Model(0, false, false, None), multiset{Scheduled(0)}, 0, 0, [], Running)
  }

  // ---------- what every step keeps ----------

  /** Starts and ends of steps, without the calls in between. */
  function Milestones<A>(log: seq<Event<A>>): seq<Event<A>>
    decreases |log|
  {
    if log == [] then []
    else
      var before, last := Milestones(log[..|log| - 1]), log[|log| - 1];
      if last.Did? then before else before + [last]
  }

  /** The first k steps started and succeeded, one after the other. */
  function AllSucceeded<A>(k: nat): seq<Event<A>> {
    if k == 0 then [] else AllSucceeded(k - 1) + [Started(k - 1), Finished(k - 1, None)]
  }

  /** Where the step that the index points to is: under way, or over. */
  datatype Stage = Flying(flight: Flight) | Over(error: Option<string>)

  function FlightsIn(g: Stage): multiset<Flight> {
    if g.Over? then multiset{} else multiset{g.flight}
  }

  /** The starts and ends logged when the step i is in that stage. */
  function LogIn<A>(i: nat, g: Stage): seq<Event<A>> {
    match g
    case Flying(Scheduled(_)) => AllSucceeded(i)
    case Flying(Active(_)) => AllSucceeded(i) + [Started(i)]
    case Flying(Result(error)) => AllSucceeded(i) + [Started(i), Finished(i, error)]
    case Over(error) => AllSucceeded(i) + [Started(i), Finished(i, error)]
  }

  ghost predicate InStage<A>(p: Program<A>, count: nat, g: Stage) {
    && p.flights == FlightsIn(g)
    && (g.Flying? && !g.flight.Result? ==> g.flight.step == p.model.index)
    && Milestones(p.log) == LogIn(p.model.index, g)
    && p.model.stepError == (if g.Over? then g.error else None)
    && (g.Over? && g.error == None ==> p.model.index + 1 == count)
  }

  /** At most one step is under way, the log so far is that of the steps before it, and a
      program that exits on its own was quit by a key or has no step left to run. */
  ghost predicate Inv<A>(p: Program<A>, count: nat) {
    && p.model.index < count
    && (exists g :: InStage(p, count, g))
    && ((p.quits > 0 || p.status.Exited?) && !p.model.interrupt ==> exists e :: InStage(p, count, Over(e)))
  }

  /** Every start comes after the successful end of every earlier step, and every success
      after the calls that the contract asks for. */
  ghost predicate LogOk<A>(log: seq<Event<A>>, contract: (nat, seq<A>) -> bool) {
    && (forall t, i | 0 <= t < |log| && log[t].Started? && 0 <= i < log[t].step :: SucceededBefore(log, i, t))
    && (forall t | 0 <= t < |log| && log[t].Finished? && log[t].error == None ::
          contract(log[t].step, CallsOf(log[..t], log[t].step)))
  }

  ghost predicate SucceededBefore<A>(log: seq<Event<A>>, i: nat, t: nat) {
    t <= |log| && exists u | 0 <= u < t :: log[u] == Finished(i, None)
  }

  lemma MilestonesSnoc<A>(log: seq<Event<A>>, e: Event<A>)
    ensures Milestones(log + [e]) == if e.Did? then Milestones(log) else Milestones(log) + [e]
  {
    assert (log + [e])[..|log|] == log;
  }

  lemma {:induction false} MilestoneInLog<A>(log: seq<Event<A>>, e: Event<A>)
    requires e in Milestones(log)
    ensures exists u | 0 <= u < |log| :: log[u] == e
    decreases |log|
  {
    var before, last := log[..|log| - 1], log[|log| - 1];
    if e in Milestones(before) {
      MilestoneInLog(before, e);
      var u :| 0 <= u < |before| && before[u] == e;
      assert log[u] == e;
    } else {
      assert log[|log| - 1] == e;
    }
  }

  lemma {:induction false} SuccessListed<A>(k: nat, i: nat)
    requires i < k
    ensures Finished(i, None) in AllSucceeded<A>(k)
  {
    if i < k - 1 {
      SuccessListed<A>(k - 1, i);
    }
  }

  lemma LaunchKeepsLog<A>(log: seq<Event<A>>, contract: (nat, seq<A>) -> bool, k: nat)
    requires LogOk(log, contract) && Milestones(log) == AllSucceeded(k)
    ensures LogOk(log + [Started(k)], contract)
  {
    var longer := log + [Started(k)];
    forall t, i | 0 <= t < |longer| && longer[t].Started? && 0 <= i < longer[t].step
      ensures SucceededBefore(longer, i, t)
    {
      if t < |log| {
        assert SucceededBefore(log, i, t);
        var u :| 0 <= u < t && log[u] == Finished(i, None);
        assert longer[u] == Finished(i, None);
      } else {
        SuccessListed<A>(k, i);
        MilestoneInLog(log, Finished(i, None));
        var u :| 0 <= u < |log| && log[u] == Finished(i, None);
        assert longer[u] == Finished(i, None);
      }
    }
    forall t | 0 <= t < |longer| && longer[t].Finished? && longer[t].error == None
      ensures contract(longer[t].step, CallsOf(longer[..t], longer[t].step))
    {
      assert longer[..t] == log[..t];
    }
  }

  lemma AppendKeepsLog<A>(log: seq<Event<A>>, contract: (nat, seq<A>) -> bool, e: Event<A>)
    requires LogOk(log, contract) && !e.Started?
    requires e.Finished? && e.error == None ==> contract(e.step, CallsOf(log, e.step))
    ensures LogOk(log + [e], contract)
  {
    var longer := log + [e];
    forall t, i | 0 <= t < |longer| && longer[t].Started? && 0 <= i < longer[t].step
      ensures SucceededBefore(longer, i, t)
    {
      assert SucceededBefore(log, i, t);
      var u :| 0 <= u < t && log[u] == Finished(i, None);
      assert longer[u] == Finished(i, None);
    }
    forall t | 0 <= t < |longer| && longer[t].Finished? && longer[t].error == None
      ensures contract(longer[t].step, CallsOf(longer[..t], longer[t].step))
    {
      assert longer[..t] == log[..t];
    }
  }

  lemma OnlyFlight(g: Stage, f: Flight, to: Flight)
    requires f in FlightsIn(g)
    ensures g == Flying(f)
    ensures FlightsIn(g) - multiset{f} == multiset{}
    ensures Replace(FlightsIn(g), f, to) == multiset{to}
  {
  }

  lemma LaunchStage<A>(p: Program<A>, count: nat, contract: (nat, seq<A>) -> bool, i: nat, g: Stage)
    requires InStage(p, count, g) && Scheduled(i) in p.flights
    requires p.model.index < count
    ensures g == Flying(Scheduled(i)) && i == p.model.index
    ensures Moves(p, Apply(p, count, contract, Launch(i)), count, g, Flying(Active(i)))
  {
    OnlyFlight(g, Scheduled(i), Active(i));
    MilestonesSnoc(p.log, Started(i));
  }

  lemma WorkStage<A>(p: Program<A>, count: nat, contract: (nat, seq<A>) -> bool, i: nat, call: A, g: Stage)
    requires p.model.index < count && InStage(p, count, g)
    ensures Moves(p, Apply(p, count, contract, Work(i, call)), count, g, g)
  {
    MilestonesSnoc(p.log, Did(i, call));
  }

  lemma CompleteStage<A>(p: Program<A>, count: nat, contract: (nat, seq<A>) -> bool, i: nat,
                         error: Option<string>, g: Stage)
    requires p.model.index < count && InStage(p, count, g) && MayComplete(p, contract, i, error)
    ensures Moves(p, Apply(p, count, contract, Complete(i, error)), count, g, Flying(Result(error)))
  {
    OnlyFlight(g, Active(i), Result(error));
    MilestonesSnoc(p.log, Finished(i, error));
    var done := AllSucceeded<A>(i);
    assert done + [Started(i)] + [Finished(i, error)] == done + [Started(i), Finished(i, error)];
  }

  lemma DeliverStage<A>(p: Program<A>, count: nat, contract: (nat, seq<A>) -> bool,
                        error: Option<string>, g: Stage)
    requires p.model.index < count && InStage(p, count, g)
    requires p.status.Running? && Result(error) in p.flights
    ensures Moves(p, Apply(p, count, contract, DeliverResult(error)), count, g,
                  if error.Some? || p.model.index + 1 >= count then Over(error)
                  else Flying(Scheduled(p.model.index + 1)))
  {
    var i := p.model.index;
    OnlyFlight(g, Result(error), Scheduled(i + 1));
    assert AllSucceeded<A>(i + 1) == AllSucceeded<A>(i) + [Started(i), Finished(i, None)];
  }

  /** Actions that no step is involved in. */
  lemma QuietStage<A>(p: Program<A>, count: nat, contract: (nat, seq<A>) -> bool, a: Action<A>, g: Stage)
    requires p.model.index < count && InStage(p, count, g)
    requires a.PressQuit? || a.DeliverQuitKey? || a.DeliverOther? || a.Exit? || a.Kill?
    ensures Moves(p, Apply(p, count, contract, a), count, g, g)
  {
  }

  /** The last stage stays, and a Quit that no key asked for is issued only on entering it. */
  ghost predicate Moves<A>(p: Program<A>, p': Program<A>, count: nat, g: Stage, g': Stage) {
    && p'.model.index < count && InStage(p', count, g')
    && (g.Over? ==> g' == g)
    && (p.model.interrupt ==> p'.model.interrupt)
    && (p'.quits > p.quits && !p'.model.interrupt ==> g'.Over?)
    && (p'.status.Exited? ==> p.status.Exited? || p.quits > 0)
  }

  lemma StageAfter<A>(p: Program<A>, count: nat, contract: (nat, seq<A>) -> bool, a: Action<A>, g: Stage)
      returns (g': Stage)
    requires p.model.index < count && InStage(p, count, g)
    ensures Moves(p, Apply(p, count, contract, a), count, g, g')
  {
    g' := g;
    match a
    case Launch(i) =>
      if Scheduled(i) in p.flights {
        LaunchStage(p, count, contract, i, g);
        g' := Flying(Active(i));
      }
    case Work(i, call) =>
      WorkStage(p, count, contract, i, call, g);
    case Complete(i, error) =>
      if MayComplete(p, contract, i, error) {
        CompleteStage(p, count, contract, i, error, g);
        g' := Flying(Result(error));
      }
    case DeliverResult(error) =>
      if p.status.Running? && Result(error) in p.flights {
        DeliverStage(p, count, contract, error, g);
        g' := if error.Some? || p.model.index + 1 >= count then Over(error)
              else Flying(Scheduled(p.model.index + 1));
      }
    case _ =>
      QuietStage(p, count, contract, a, g);
  }

  lemma MovesKeepInv<A>(p: Program<A>, p': Program<A>, count: nat, g: Stage, g': Stage)
    requires Moves(p, p', count, g, g')
    requires (p.quits > 0 || p.status.Exited?) && !p.model.interrupt ==> g.Over?
    ensures Inv(p', count)
  {
    if (p'.quits > 0 || p'.status.Exited?) && !p'.model.interrupt {
      assert g'.Over? && InStage(p', count, Over(g'.error));
    }
  }

  lemma StepKeepsInv<A>(p: Program<A>, count: nat, contract: (nat, seq<A>) -> bool, a: Action<A>)
    requires Inv(p, count)
    ensures Inv(Apply(p, count, contract, a), count)
  {
    var g :| InStage(p, count, g);
    if (p.quits > 0 || p.status.Exited?) && !p.model.interrupt {
      var e :| InStage(p, count, Over(e));
      g := Over(e);
    }
    var g' := StageAfter(p, count, contract, a, g);
    MovesKeepInv(p, Apply(p, count, contract, a), count, g, g');
  }

  lemma LogAfter<A>(p: Program<A>, count: nat, contract: (nat, seq<A>) -> bool, a: Action<A>)
    ensures var log' := Apply(p, count, contract, a).log;
      || log' == p.log
      || (a.Launch? && Scheduled(a.step) in p.flights && log' == p.log + [Started(a.step)])
      || (a.Work? && log' == p.log + [Did(a.step, a.call)])
      || (a.Complete? && MayComplete(p, contract, a.step, a.error)
          && log' == p.log + [Finished(a.step, a.error)])
  {
  }

  lemma LaunchFollowsSuccess<A>(p: Program<A>, count: nat, contract: (nat, seq<A>) -> bool, i: nat)
    requires Inv(p, count) && Scheduled(i) in p.flights
    ensures Milestones(p.log) == AllSucceeded<A>(i)
  {
    var g :| InStage(p, count, g);
    LaunchStage(p, count, contract, i, g);
  }

  lemma StepKeepsLog<A>(p: Program<A>, count: nat, contract: (nat, seq<A>) -> bool, a: Action<A>)
    requires Inv(p, count) && LogOk(p.log, contract)
    ensures LogOk(Apply(p, count, contract, a).log, contract)
  {
    LogAfter(p, count, contract, a);
    var log' := Apply(p, count, contract, a).log;
    if log' == p.log {
    } else if a.Launch? {
      LaunchFollowsSuccess(p, count, contract, a.step);
      LaunchKeepsLog(p.log, contract, a.step);
    } else if a.Work? {
      AppendKeepsLog(p.log, contract, Did(a.step, a.call));
    } else {
      AppendKeepsLog(p.log, contract, Finished(a.step, a.error));
    }
  }

  lemma {:induction false} RunKeepsInv<A>(p: Program<A>, count: nat, contract: (nat, seq<A>) -> bool,
                                          actions: seq<Action<A>>)
    requires Inv(p, count) && LogOk(p.log, contract)
    ensures Inv(Run(p, count, contract, actions), count)
    ensures LogOk(Run(p, count, contract, actions).log, contract)
    decreases |actions|
  {
    if actions != [] {
      StepKeepsInv(p, count, contract, actions[0]);
      StepKeepsLog(p, count, contract, actions[0]);
      RunKeepsInv(Apply(p, count, contract, actions[0]), count, contract, actions[1..]);
    }
  }

  lemma ReachableInv<A>(count: nat, contract: (nat, seq<A>) -> bool, actions: seq<Action<A>>)
    requires count > 0
    ensures var p := Run(Initial<A>(), count, contract, actions);
      Inv(p, count) && LogOk(p.log, contract)
  {
    assert InStage(Initial<A>(), count, Flying(Scheduled(0)));
    RunKeepsInv(Initial<A>(), count, contract, actions);
  }

  // ---------- what the caller of a run gets ----------

  /** What Spinner.Run comes to: an error of the program, the end of the process after a
      quit key, or what the last model says; None while the program still runs. */
  datatype RunResult = Aborted | ProcessExit | Returned(error: Option<string>)

  function ResultOf<A>(p: Program<A>): Option<RunResult> {
    match p.status
    case Running => None
    case Killed => Some(Aborted)
    case Exited => Some(if p.model.interrupt then ProcessExit else Returned(p.model.stepError))
  }

  predicate ReturnsNil<A>(p: Program<A>) {
    ResultOf(p) == Some(Returned(None))
  }

  /** The message that an action hands to the model, if it does. */
  function MessageOf<A>(p: Program<A>, a: Action<A>): Option<Msg> {
    if !p.status.Running? then None
    else
      match a
      case DeliverResult(error) => if Result(error) in p.flights then Some(ResultMsg(error)) else None
      case DeliverQuitKey => if p.quitKeys > 0 then Some(QuitKey) else None
      case DeliverOther => Some(Other)
      case _ => None
  }

  /** The program without the message that is being delivered. */
  function Taken<A>(p: Program<A>, a: Action<A>): Program<A> {
    match a
    case DeliverResult(error) => p.(flights := p.flights - multiset{Result(error)})
    case DeliverQuitKey => if p.quitKeys > 0 then p.(quitKeys := p.quitKeys - 1) else p
    case _ => p
  }

  lemma {:induction false} RunSnoc<A>(p: Program<A>, count: nat, contract: (nat, seq<A>) -> bool,
                                      actions: seq<Action<A>>, a: Action<A>)
    ensures Run(p, count, contract, actions + [a]) == Apply(Run(p, count, contract, actions), count, contract, a)
    decreases |actions|
  {
    if actions == [] {
      assert Run(Apply(p, count, contract, a), count, contract, []) == Apply(p, count, contract, a);
    } else {
      assert (actions + [a])[1..] == actions[1..] + [a];
      RunSnoc(Apply(p, count, contract, actions[0]), count, contract, actions[1..], a);
    }
  }

  lemma DeliveryIsUpdate<A>(p: Program<A>, count: nat, contract: (nat, seq<A>) -> bool, a: Action<A>)
    requires MessageOf(p, a).Some?
    ensures Apply(p, count, contract, a) == Deliver(Taken(p, a), count, MessageOf(p, a).value)
  {
  }

  /** One step of the program around a spinner: messages go to Update, and what it commands
      is issued. */
  method StepProgram<A>(m: Spinner, p: Program<A>, contract: (nat, seq<A>) -> bool, a: Action<A>)
    returns (p': Program<A>)
    requires m.index < |m.steps| && p.model == m.Value()
    modifies m
    ensures m.index < |m.steps| && p'.model == m.Value()
    ensures p' == Apply(p, |m.steps|, contract, a)
  {
    var msg := MessageOf(p, a);
    if msg == None {
      QuietModel(p, |m.steps|, contract, a);
      return Apply(p, |m.steps|, contract, a);
    }
    DeliveryIsUpdate(p, |m.steps|, contract, a);
    var cmd := m.Update(msg.value);
    p' := Issue(Taken(p, a).(model := m.Value()), cmd);
  }

  /** A spinner and its program, started by Init. Whatever happens, they stay the modelled
      ones, and the result is that of the modelled run. Init would fail on an empty list. */
  method RunSpinner<A>(steps: seq<string>, contract: (nat, seq<A>) -> bool, actions: seq<Action<A>>)
    returns (result: Option<RunResult>)
    requires steps != []
    ensures result == ResultOf(Run(Initial<A>(), |steps|, contract, actions))
  {
    var m := new Spinner(steps);
    var cmd := m.Init();
    var p: Program<A> := Issue(Program(m.Value(), multiset{}, 0, 0, [], Running), cmd);
    for i := 0 to |actions|
      invariant m.steps == steps && m.index < |steps| && p.model == m.Value()
      invariant p == Run(Initial<A>(), |steps|, contract, actions[..i])
    {
      assert actions[..i + 1] == actions[..i] + [actions[i]];
      RunSnoc(Initial<A>(), |steps|, contract, actions[..i], actions[i]);
      p := StepProgram(m, p, contract, actions[i]);
    }
    assert actions[..|actions|] == actions;
    result := ResultOf(p);
  }

  lemma QuietModel<A>(p: Program<A>, count: nat, contract: (nat, seq<A>) -> bool, a: Action<A>)
    requires MessageOf(p, a).None?
    ensures Apply(p, count, contract, a).model == p.model
  {
  }

  // ---------- when it ends ----------

  /** A finished model has quit or is about to, and it is finished once a key interrupts it or
      nothing is under way any more. */
  predicate QuitIssued<A>(p: Program<A>) {
    && (p.model.done ==> p.quits > 0 || p.status.Exited?)
    && (p.model.interrupt || p.flights == multiset{} ==> p.model.done)
  }

  lemma ReplaceNotEmpty(flights: multiset<Flight>, from: Flight, to: Flight)
    ensures Replace(flights, from, to) != multiset{}
  {
    assert to in Replace(flights, from, to);
  }

  lemma DeliverQuits<A>(p: Program<A>, count: nat, contract: (nat, seq<A>) -> bool, error: Option<string>)
    requires QuitIssued(p) && p.status.Running? && Result(error) in p.flights
    ensures QuitIssued(Apply(p, count, contract, DeliverResult(error)))
  {
    var p' := Apply(p, count, contract, DeliverResult(error));
    if error.None? && p.model.index + 1 < count {
      assert Scheduled(p.model.index + 1) in p'.flights;
    }
  }

  lemma StepQuits<A>(p: Program<A>, count: nat, contract: (nat, seq<A>) -> bool, a: Action<A>)
    requires QuitIssued(p)
    ensures QuitIssued(Apply(p, count, contract, a))
  {
    match a
    case Launch(i) =>
      ReplaceNotEmpty(p.flights, Scheduled(i), Active(i));
    case Complete(i, error) =>
      ReplaceNotEmpty(p.flights, Active(i), Result(error));
    case DeliverResult(error) =>
      if p.status.Running? && Result(error) in p.flights {
        DeliverQuits(p, count, contract, error);
      }
    case _ =>
      QuietQuits(p, count, contract, a);
  }

  lemma QuietQuits<A>(p: Program<A>, count: nat, contract: (nat, seq<A>) -> bool, a: Action<A>)
    requires QuitIssued(p)
    requires !a.Launch? && !a.Complete? && !a.DeliverResult?
    ensures QuitIssued(Apply(p, count, contract, a))
  {
  }

  lemma {:induction false} RunQuits<A>(p: Program<A>, count: nat, contract: (nat, seq<A>) -> bool,
                                       actions: seq<Action<A>>)
    requires QuitIssued(p)
    ensures QuitIssued(Run(p, count, contract, actions))
    decreases |actions|
  {
    if actions != [] {
      StepQuits(p, count, contract, actions[0]);
      RunQuits(Apply(p, count, contract, actions[0]), count, contract, actions[1..]);
    }
  }

  /** In every reachable state: the model is done exactly when a key interrupted it or nothing
      is under way any more, and then the program has exited or can: with the end of the
      process after an interrupt, and with the step error, if any, otherwise. A quit key that
      is delivered interrupts it. */
  lemma DoneExactly<A>(count: nat, contract: (nat, seq<A>) -> bool, actions: seq<Action<A>>)
    requires count > 0
    ensures
      var p := Run(Initial<A>(), count, contract, actions);
      var exited, key := Apply(p, count, contract, Exit), Apply(p, count, contract, DeliverQuitKey);
      && (p.model.done <==> p.model.interrupt || p.flights == multiset{})
      && (p.status.Running? && p.model.done ==>
            ResultOf(exited) == Some(if p.model.interrupt then ProcessExit else Returned(p.model.stepError)))
      && (p.status.Running? && !p.model.done && p.quits == 0 ==> exited == p)
      && (p.status.Running? && p.quitKeys > 0 ==> key.model.interrupt && key.model.done && key.quits > 0)
  {
    var p := Run(Initial<A>(), count, contract, actions);
    ReachableInv(count, contract, actions);
    assert Scheduled(0) in Initial<A>().flights;
    RunQuits(Initial<A>(), count, contract, actions);
    if p.model.done && !p.model.interrupt {
      var e :| InStage(p, count, Over(e));
    }
  }

  lemma StageIsPrefix<A>(k: nat, g: Stage) returns (e: Option<string>)
    ensures LogIn<A>(k, g) <= AllSucceeded<A>(k) + [Started(k), Finished(k, e)]
  {
    e := if g.Over? then g.error else if g.flight.Result? then g.flight.error else None;
  }

  /** Over every run and message order: the starts and ends in the log are those of the
      steps in list order, each started once and only after its predecessor succeeded,
      with at most the current step unfinished or failed; and a nil result means that
      every step succeeded. */
  lemma StepsRunInOrder<A>(count: nat, contract: (nat, seq<A>) -> bool, actions: seq<Action<A>>)
    requires count > 0
    ensures var p := Run(Initial<A>(), count, contract, actions);
      && p.model.index < count
      && (exists k, e | 0 <= k < count ::
            Milestones(p.log) <= AllSucceeded<A>(k) + [Started(k), Finished(k, e)])
      && (ReturnsNil(p) ==> Milestones(p.log) == AllSucceeded<A>(count))
  {
    var p := Run(Initial<A>(), count, contract, actions);
    ReachableInv(count, contract, actions);
    var g :| InStage(p, count, g);
    var k := p.model.index;
    var e := StageIsPrefix<A>(k, g);
    assert Milestones(p.log) <= AllSucceeded<A>(k) + [Started(k), Finished(k, e)];
    if ReturnsNil(p) {
      var e' :| InStage(p, count, Over(e'));
      assert k + 1 == count;
    }
  }

  /** When a step starts, every earlier step has succeeded, having made the calls that
      its contract asks for. */
  lemma StartedAfterSuccess<A>(count: nat, contract: (nat, seq<A>) -> bool, actions: seq<Action<A>>,
                               t: nat, i: nat)
    requires count > 0
    requires var log := Run(Initial<A>(), count, contract, actions).log;
      t < |log| && log[t].Started? && i < log[t].step
    ensures var log := Run(Initial<A>(), count, contract, actions).log;
      exists u | 0 <= u < t :: log[u] == Finished(i, None) && contract(i, CallsOf(log[..u], i))
  {
    ReachableInv(count, contract, actions);
    var log := Run(Initial<A>(), count, contract, actions).log;
    assert SucceededBefore(log, i, t);
  }
}
