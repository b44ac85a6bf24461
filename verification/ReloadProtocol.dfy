/**
  ControlServer.cpp, Entry.cpp and the reload path of InjectDS3.cpp: any number of injector modules
  are loaded into one game, each with a worker that serves one exclusive pipe, while tools send
  requests.  A run is any sequence of enabled events, without exceptions.
*/
module ReloadProtocol {
  import opened Wrappers

  // The worker of a module.  Starting: before the pipe is created.  Rejected: another module has it.
  // Initializing: the pipe is its own, and Injector::Init reads the configuration.  Installing: it installs
  // the hooks.  RollingBack: one of them has failed.  Serving: in Run.
  // Detached: in Run, delivering the response to a successful detach.  Leaving: Run has returned.
  // Closing: the Injector object is gone.  Closed: so is the pipe.
  datatype Worker =
    | Starting
    | Rejected
    | Initializing
    | Installing
    | RollingBack
    | Serving(initialized: bool)
    | Detached
    | Leaving
    | Closing
    | Closed
    | Exited

  // references counts LoadLibrary; the worker holds one of them until it exits.  hooks: how many detours
  // each of its hooks attaches.  installed: how many hooks are on the list of installed ones.  detours: how
  // many live ones lead into this module.
  datatype Module = Module(worker: Worker, references: nat, hooks: seq<nat>, installed: nat, detours: nat)

  // The detours of the first n hooks
  function Attached(hooks: seq<nat>, n: nat): nat
    requires n <= |hooks|
  {
    if n == 0 then 0 else Attached(hooks, n - 1) + hooks[n - 1]
  }

  // A tool that runs --reload: each constructor is a step of Detach and then of Inject.  target is what
  // the pipe's owner gave as its address, and the worker's thread is held by a handle; replacement is the
  // module that the tool has loaded.  Replaced: it has reported success.
  datatype Tool =
    | Ready
    | GotStatus(target: nat)
    | Confirmed(target: nat)
    | WorkerGone(target: nat)
    | Injecting(target: nat)
    | Loading(replacement: nat)
    | Replaced(replacement: nat)

  datatype State = State(modules: seq<Module>, pipe: Option<nat>, tool: Tool)

  datatype Event =
    // by anyone
    | Load
    | AddReference(m: nat)
    | DropReference(m: nat)
    // by the worker of m
    | CreatePipe(m: nat)
    | InitFails(m: nat)
    | Configure(m: nat, hooks: seq<nat>)
    | InstallHook(m: nat)
    | HookFails(m: nat, attached: nat)
    | RollBack(m: nat, outcome: Term)
    | InitDone(m: nat)
    | FinishRun(m: nat)
    | DestroyInjector(m: nat)
    | ClosePipe(m: nat)
    | FreeLibraryAndExit(m: nat)
    // a request other than from the tool: Status and malformed ones change nothing
    | ForeignDetach(outcome: Term)
    // by the tool, with the server's side of each request
    | ToolStatus
    | ToolDetach(outcome: Term, delivered: bool)
    | ToolWait
    | ToolVerify
    | ToolLoad
    | ToolReady
    | ToolGiveUp

  // Injector::Term: success, a refused detach, or a write fault with the detours gone and some hooks left
  datatype Term = Success | Refused | Fault(left: nat)

  predicate Loaded(s: State, m: nat) {
    m < |s.modules| && s.modules[m].references > 0
  }

  predicate WorkerAt(s: State, m: nat, w: Worker) {
    m < |s.modules| && s.modules[m].worker == w
  }

  // The owner of the pipe is waiting for a client.
  predicate Listening(s: State) {
    s.pipe.Some? && s.pipe.value < |s.modules| && s.modules[s.pipe.value].worker.Serving?
  }

  predicate Enabled(s: State, e: Event) {
    match e
    case Load => true
    case AddReference(m) => Loaded(s, m)
    case DropReference(m) => Loaded(s, m) && s.modules[m].references > (if s.modules[m].worker.Exited? then 0 else 1)
    case CreatePipe(m) => WorkerAt(s, m, Starting)
    case InitFails(m) => WorkerAt(s, m, Initializing)
    case Configure(m, _) => WorkerAt(s, m, Initializing)
    case InstallHook(m) => WorkerAt(s, m, Installing) && s.modules[m].installed < |s.modules[m].hooks|
    case HookFails(m, attached) =>
      WorkerAt(s, m, Installing) && s.modules[m].installed < |s.modules[m].hooks| && attached <= s.modules[m].hooks[s.modules[m].installed]
    case RollBack(m, _) => WorkerAt(s, m, RollingBack)
    case InitDone(m) => WorkerAt(s, m, Installing) && s.modules[m].installed >= |s.modules[m].hooks|
    case FinishRun(m) => WorkerAt(s, m, Detached)
    case DestroyInjector(m) => WorkerAt(s, m, Leaving)
    case ClosePipe(m) => WorkerAt(s, m, Closing)
    case FreeLibraryAndExit(m) => (WorkerAt(s, m, Closed) || WorkerAt(s, m, Rejected)) && Loaded(s, m)
    case ForeignDetach(_) => Listening(s)
    case ToolStatus => s.tool.Ready? && Listening(s) && Loaded(s, s.pipe.value)
    case ToolDetach(_, _) => s.tool.GotStatus? && Listening(s)
    case ToolWait => s.tool.Confirmed? && WorkerAt(s, s.tool.target, Exited)
    case ToolVerify => s.tool.WorkerGone?
    case ToolLoad => s.tool.Injecting?
    case ToolReady => s.tool.Loading? && Listening(s) && s.pipe.value == s.tool.replacement
    case ToolGiveUp => true
  }

  function WithModule(s: State, m: nat, x: Module): State
    requires m < |s.modules|
  {
    s.(modules := s.modules[m := x])
  }

  function WithWorker(s: State, m: nat, w: Worker): State
    requires m < |s.modules|
  {
    WithModule(s, m, s.modules[m].(worker := w))
  }

  // HookManager::UninstallAll
  function Uninstalled(x: Module, outcome: Term): Module {
    match outcome
    case Success => x.(installed := 0, detours := 0)
    case Refused => x
    case Fault(left) => x.(installed := if left < x.installed then left else x.installed, detours := 0)
  }

  // Run's answer to a detach request: only a successful Term ends the loop.
  function AfterTerm(x: Module, outcome: Term): Module {
    Uninstalled(x, outcome).(worker := if outcome.Success? then Detached else Serving(false))
  }

  function WithHook(x: Module, attached: nat): Module {
    x.(installed := x.installed + 1, detours := x.detours + attached)
  }

  function Next(s: State, e: Event): State
    requires Enabled(s, e)
  {
    match e
    case Load => s.(modules := s.modules + [Module(Starting, 1, [], 0, 0)])
    case AddReference(m) => WithModule(s, m, s.modules[m].(references := s.modules[m].references + 1))
    case DropReference(m) => WithModule(s, m, s.modules[m].(references := s.modules[m].references - 1))
    case CreatePipe(m) =>
      // FILE_FLAG_FIRST_PIPE_INSTANCE, and one instance at most
      if s.pipe.None? then WithWorker(s, m, Initializing).(pipe := Some(m)) else WithWorker(s, m, Rejected)
    case InitFails(m) => WithWorker(s, m, Serving(false))
    case Configure(m, hooks) => WithModule(s, m, s.modules[m].(worker := Installing, hooks := hooks))
    case InstallHook(m) => WithModule(s, m, WithHook(s.modules[m], s.modules[m].hooks[s.modules[m].installed]))
    case HookFails(m, attached) => WithModule(s, m, WithHook(s.modules[m], attached).(worker := RollingBack))
    case RollBack(m, outcome) => WithModule(s, m, Uninstalled(s.modules[m], outcome).(worker := Serving(false)))
    case InitDone(m) => WithWorker(s, m, Serving(true))
    case FinishRun(m) => WithWorker(s, m, Leaving)
    case DestroyInjector(m) => WithWorker(s, m, Closing)
    case ClosePipe(m) => WithWorker(s, m, Closed).(pipe := None)
    case FreeLibraryAndExit(m) => WithModule(s, m, s.modules[m].(worker := Exited, references := s.modules[m].references - 1))
    case ForeignDetach(outcome) => WithModule(s, s.pipe.value, AfterTerm(s.modules[s.pipe.value], outcome))
    case ToolStatus => s.(tool := GotStatus(s.pipe.value))
    case ToolDetach(outcome, delivered) =>
      var m := s.pipe.value;
      var s' := WithModule(s, m, AfterTerm(s.modules[m], outcome));
      // the response names the same module and says Detached
      s'.(tool := if delivered && outcome.Success? && m == s.tool.target then Confirmed(m) else Ready)
    case ToolWait => s.(tool := WorkerGone(s.tool.target))
    case ToolVerify => s.(tool := if Loaded(s, s.tool.target) then Ready else Injecting(s.tool.target))
    case ToolLoad => s.(modules := s.modules + [Module(Starting, 1, [], 0, 0)], tool := Loading(|s.modules|))
    case ToolReady =>
      // the status is Running, or the tool reports that initialization failed
      s.(tool := if s.modules[s.tool.replacement].worker.initialized then Replaced(s.tool.replacement) else Ready)
    case ToolGiveUp => s.(tool := Ready)
  }

  predicate Initial(s: State) {
    s == State([], None, Ready)
  }

  ghost predicate Valid(s: State, es: seq<Event>)
    decreases |es|, 0
  {
    es == [] || (Valid(s, es[..|es| - 1]) && Enabled(After(s, es[..|es| - 1]), es[|es| - 1]))
  }

  ghost function After(s: State, es: seq<Event>): State
    requires Valid(s, es)
    decreases |es|, 1
  {
    if es == [] then s else Next(After(s, es[..|es| - 1]), es[|es| - 1])
  }

  predicate MayHaveDetours(w: Worker) {
    w.Installing? || w.RollingBack? || w.Serving?
  }

  // The worker has the pipe, from its creation until after the Injector object is gone.
  predicate HasPipe(w: Worker) {
    w.Initializing? || MayHaveDetours(w) || w.Detached? || w.Leaving? || w.Closing?
  }

  // The worker has left Run after a detach, or is about to.
  predicate Gone(w: Worker) {
    w.Detached? || w.Leaving? || w.Closing? || w.Closed? || w.Exited?
  }

  ghost predicate ModuleInv(s: State, m: nat)
    requires m < |s.modules|
  {
    var x := s.modules[m];
    (HasPipe(x.worker) <==> s.pipe == Some(m)) && OwnInv(x)
  }

  ghost predicate ToolInv(s: State) {
    match s.tool
    case Ready => true
    case GotStatus(m) => m < |s.modules|
    case Confirmed(m) => m < |s.modules| && Gone(s.modules[m].worker)
    case WorkerGone(m) => WorkerAt(s, m, Exited)
    case Injecting(m) => WorkerAt(s, m, Exited) && s.modules[m].references == 0
    case Loading(m) => m < |s.modules|
    case Replaced(m) => m < |s.modules|
  }

  ghost predicate Inv(s: State) {
    && ModulesInv(s)
    && (s.pipe.Some? ==> s.pipe.value < |s.modules|)
    && ToolInv(s)
  }

  ghost predicate ModulesInv(s: State) {
    forall m :: 0 <= m < |s.modules| ==> ModuleInv(s, m)
  }

  // What is asked of one module apart from the pipe
  ghost predicate OwnInv(x: Module) {
    && x.installed <= |x.hooks| && (x.detours > 0 ==> x.installed > 0) && (x.installed > 0 ==> MayHaveDetours(x.worker))
    && (x.worker.Installing? || x.worker == Serving(true) ==> x.detours == Attached(x.hooks, x.installed))
    && (x.worker == Serving(true) ==> x.installed == |x.hooks|)
    && (!x.worker.Exited? ==> x.references > 0)
  }

  lemma ReplaceKeeps(s: State, k: nat, x: Module)
    requires ModulesInv(s) && k < |s.modules| && OwnInv(x) && HasPipe(x.worker) == HasPipe(s.modules[k].worker)
    ensures ModulesInv(WithModule(s, k, x))
  {
    var s' := WithModule(s, k, x);
    forall m | 0 <= m < |s'.modules|
      ensures ModuleInv(s', m)
    {
      assert ModuleInv(s, m);
    }
  }

  lemma SameModules(s: State, s': State)
    requires ModulesInv(s) && s'.modules == s.modules && s'.pipe == s.pipe
    ensures ModulesInv(s')
  {
    assert forall m :: 0 <= m < |s.modules| ==> ModuleInv(s, m) == ModuleInv(s', m);
  }

  lemma PipeKeeps(s: State, e: Event)
    requires ModulesInv(s) && (s.pipe.Some? ==> s.pipe.value < |s.modules|) && Enabled(s, e) && (e.Load? || e.ToolLoad? || e.CreatePipe? || e.ClosePipe?)
    ensures ModulesInv(Next(s, e))
  {
    var s' := Next(s, e);
    assert !e.Load? && !e.ToolLoad? ==> ModuleInv(s, e.m);
    forall m | 0 <= m < |s'.modules|
      ensures ModuleInv(s', m)
    {
      assert m < |s.modules| ==> ModuleInv(s, m);
    }
  }

  // A step of one worker that neither gets nor gives up the pipe, and references from outside
  lemma OwnStep(s: State, e: Event)
    requires Enabled(s, e) && !ByTool(e) && !e.Load? && !e.CreatePipe? && !e.ClosePipe? && !e.ForeignDetach?
    requires OwnInv(s.modules[e.m])
    ensures e.m < |s.modules| == |Next(s, e).modules| && Next(s, e) == WithModule(s, e.m, Next(s, e).modules[e.m])
    ensures OwnInv(Next(s, e).modules[e.m]) && HasPipe(Next(s, e).modules[e.m].worker) == HasPipe(s.modules[e.m].worker)
  {
  }

  lemma StepKeepsModules(s: State, e: Event)
    requires ModulesInv(s) && (s.pipe.Some? ==> s.pipe.value < |s.modules|) && Enabled(s, e)
    ensures ModulesInv(Next(s, e))
  {
    if e.Load? || e.ToolLoad? || e.CreatePipe? || e.ClosePipe? {
      PipeKeeps(s, e);
    } else if e.ForeignDetach? || e.ToolDetach? {
      var p := s.pipe.value;
      assert ModuleInv(s, p);
      var x := AfterTerm(s.modules[p], e.outcome);
      ReplaceKeeps(s, p, x);
      SameModules(WithModule(s, p, x), Next(s, e));
    } else if e.ToolStatus? || e.ToolWait? || e.ToolVerify? || e.ToolReady? || e.ToolGiveUp? {
      SameModules(s, Next(s, e));
    } else {
      assert ModuleInv(s, e.m);
      OwnStep(s, e);
      hide Next, OwnInv, HasPipe;
      ReplaceKeeps(s, e.m, Next(s, e).modules[e.m]);
    }
  }

  predicate ByTool(e: Event) {
    e.ToolStatus? || e.ToolDetach? || e.ToolWait? || e.ToolVerify? || e.ToolLoad? || e.ToolReady? || e.ToolGiveUp?
  }

  // What the tool has seen of its module cannot be undone by the others.
  lemma OthersKeepTool(s: State, e: Event)
    requires Inv(s) && Enabled(s, e) && !ByTool(e)
    ensures ToolInv(Next(s, e))
  {
    var s' := Next(s, e);
    assert s'.tool == s.tool && |s.modules| <= |s'.modules|;
    if s.tool.Confirmed? || s.tool.WorkerGone? || s.tool.Injecting? {
      var m := s.tool.target;
      hide Next;
      OthersKeepModule(s, e, m);
    }
  }

  lemma OthersKeepModule(s: State, e: Event, m: nat)
    requires Enabled(s, e) && !ByTool(e) && m < |s.modules| && Gone(s.modules[m].worker)
    ensures m < |Next(s, e).modules|
    ensures var x, x' := s.modules[m], Next(s, e).modules[m];
            Gone(x'.worker) && (x.worker.Exited? ==> x'.worker.Exited? && (x.references == 0 ==> x'.references == 0))
  {
  }

  lemma ToolKeepsTool(s: State, e: Event)
    requires Inv(s) && Enabled(s, e) && ByTool(e)
    ensures ToolInv(Next(s, e))
  {
  }

  lemma StepKeepsTool(s: State, e: Event)
    requires Inv(s) && Enabled(s, e)
    ensures ToolInv(Next(s, e))
  {
    hide Inv, ToolInv, Next, Enabled;
    if ByTool(e) {
      ToolKeepsTool(s, e);
    } else {
      OthersKeepTool(s, e);
    }
  }

  lemma StepKeepsInv(s: State, e: Event)
    requires Inv(s) && Enabled(s, e)
    ensures Inv(Next(s, e))
  {
    StepKeepsModules(s, e);
    StepKeepsTool(s, e);
  }

  lemma {:induction false} RunKeepsInv(s: State, es: seq<Event>)
    requires Initial(s) && Valid(s, es)
    ensures Inv(After(s, es))
    decreases |es|
  {
    if es != [] {
      RunKeepsInv(s, es[..|es| - 1]);
      StepKeepsInv(After(s, es[..|es| - 1]), es[|es| - 1]);
    }
  }

  // At most one module has live detours: the one that owns the pipe.
  lemma OneModuleDetours(s: State, es: seq<Event>, m: nat, n: nat)
    requires Initial(s) && Valid(s, es)
    requires m < |After(s, es).modules| && n < |After(s, es).modules| && After(s, es).modules[m].detours > 0 && After(s, es).modules[n].detours > 0
    ensures m == n && After(s, es).pipe == Some(m)
  {
    RunKeepsInv(s, es);
    assert ModuleInv(After(s, es), m) && ModuleInv(After(s, es), n);
  }

  // A module is unmapped only after its worker has left through a successful detach, or never had
  // the pipe; either way no detour leads into it.
  lemma UnmappedIsSafe(s: State, es: seq<Event>, m: nat)
    requires Initial(s) && Valid(s, es) && m < |After(s, es).modules| && !Loaded(After(s, es), m)
    ensures var x := After(s, es).modules[m]; x.worker.Exited? && x.detours == 0
  {
    RunKeepsInv(s, es);
    assert ModuleInv(After(s, es), m);
  }

  // --reload injects only after the old worker has exited and its module is unmapped.
  lemma ReloadAfterUnload(s: State, es: seq<Event>)
    requires Initial(s) && Valid(s, es) && After(s, es).tool.Injecting?
    ensures var t := After(s, es);
            var m := t.tool.target;
            WorkerAt(t, m, Exited) && !Loaded(t, m) && t.modules[m].detours == 0
  {
    RunKeepsInv(s, es);
    assert ModuleInv(After(s, es), After(s, es).tool.target);
  }

  // The module that the tool has loaded owns the pipe with all its hooks installed and all their detours
  // live, and no other module has a hook or a detour.
  ghost predicate Installed(s: State, m: nat) {
    && s.pipe == Some(m) && WorkerAt(s, m, Serving(true))
    && s.modules[m].installed == |s.modules[m].hooks| && s.modules[m].detours == Attached(s.modules[m].hooks, |s.modules[m].hooks|)
    && forall n :: 0 <= n < |s.modules| && n != m ==> s.modules[n].installed == 0 && s.modules[n].detours == 0
  }

  lemma ReadyInstalled(s: State)
    requires Inv(s) && Enabled(s, ToolReady) && Next(s, ToolReady).tool.Replaced?
    ensures Installed(Next(s, ToolReady), Next(s, ToolReady).tool.replacement)
  {
    var m := s.tool.replacement;
    assert ModuleInv(s, m);
    forall n | 0 <= n < |s.modules| && n != m
      ensures s.modules[n].installed == 0 && s.modules[n].detours == 0
    {
      assert ModuleInv(s, n);
    }
  }

  // The tool reports success only then.
  lemma ReplacementInstalled(s: State, es: seq<Event>)
    requires Initial(s) && Valid(s, es + [ToolReady]) && After(s, es + [ToolReady]).tool.Replaced?
    ensures Installed(After(s, es + [ToolReady]), After(s, es + [ToolReady]).tool.replacement)
  {
    var run := es + [ToolReady];
    assert run[..|run| - 1] == es;
    RunKeepsInv(s, es);
    ReadyInstalled(After(s, es));
  }

  // Event i of the run is a detach of m that succeeds.
  ghost predicate DetachOf(s: State, es: seq<Event>, m: nat, i: nat)
    requires Valid(s, es) && i < |es|
  {
    && (es[i] == ForeignDetach(Success) || (es[i].ToolDetach? && es[i].outcome.Success?))
    && Valid(s, es[..i]) && After(s, es[..i]).pipe == Some(m)
  }

  ghost predicate RejectedAt(s: State, es: seq<Event>, m: nat, i: nat)
    requires Valid(s, es) && i < |es|
  {
    es[i] == CreatePipe(m) && Valid(s, es[..i]) && After(s, es[..i]).pipe.Some?
  }

  // Why the worker of m is past Run, or has never come to it
  ghost predicate Explained(s: State, es: seq<Event>, m: nat)
    requires Valid(s, es)
  {
    exists i: nat :: i < |es| && (DetachOf(s, es, m, i) || RejectedAt(s, es, m, i))
  }

  lemma StillExplained(s: State, es: seq<Event>, m: nat)
    requires es != [] && Valid(s, es) && Explained(s, es[..|es| - 1], m)
    ensures Explained(s, es, m)
  {
    var front := es[..|es| - 1];
    var i: nat :| i < |front| && (DetachOf(s, front, m, i) || RejectedAt(s, front, m, i));
    assert front[..i] == es[..i];
    assert DetachOf(s, es, m, i) || RejectedAt(s, es, m, i);
  }

  predicate PastRun(s: State, m: nat) {
    m < |s.modules| && (Gone(s.modules[m].worker) || s.modules[m].worker.Rejected?)
  }

  lemma HowRunEnds(s: State, e: Event, m: nat)
    requires Enabled(s, e) && !PastRun(s, m) && PastRun(Next(s, e), m)
    ensures (((e == ForeignDetach(Success) || (e.ToolDetach? && e.outcome.Success?)) && s.pipe == Some(m))
             || (e == CreatePipe(m) && s.pipe.Some?))
  {
  }

  // Run returns only after a successful detach: a worker that is past it was detached at some event of
  // the run, and one that never had the pipe was turned away by its owner.
  lemma {:induction false} RunReturnsAfterDetach(s: State, es: seq<Event>, m: nat)
    requires Initial(s) && Valid(s, es) && m < |After(s, es).modules|
    requires PastRun(After(s, es), m)
    ensures Explained(s, es, m)
    decreases |es|
  {
    if es != [] {
      var n := |es| - 1;
      var before, e := After(s, es[..n]), es[n];
      RunKeepsInv(s, es[..n]);
      if PastRun(before, m) {
        RunReturnsAfterDetach(s, es[..n], m);
        StillExplained(s, es, m);
      } else {
        HowRunEnds(before, e, m);
        assert DetachOf(s, es, m, n) || RejectedAt(s, es, m, n);
      }
    }
  }

  // Runs to a given state

  ghost predicate Reaches(s: State, t: State) {
    exists es :: Valid(s, es) && After(s, es) == t
  }

  lemma Reach(s: State, t: State, e: Event, t': State)
    requires Reaches(s, t) && Enabled(t, e) && Next(t, e) == t'
    ensures Reaches(s, t')
  {
    var es :| Valid(s, es) && After(s, es) == t;
    assert (es + [e])[..|es|] == es;
    assert Valid(s, es + [e]) && After(s, es + [e]) == t';
  }

  // A worker that has begun to install its hooks can install all of them.
  lemma {:induction false} InstallsAll(s: State, before: seq<Module>, hooks: seq<nat>, n: nat, tool: Tool)
    requires n <= |hooks| && Reaches(s, State(before + [Module(Installing, 1, hooks, 0, 0)], Some(|before|), tool))
    ensures Reaches(s, State(before + [Module(Installing, 1, hooks, n, Attached(hooks, n))], Some(|before|), tool))
  {
    hide Reaches;
    if n > 0 {
      InstallsAll(s, before, hooks, n - 1, tool);
      var x, x' := Module(Installing, 1, hooks, n - 1, Attached(hooks, n - 1)), Module(Installing, 1, hooks, n, Attached(hooks, n));
      assert (before + [x])[|before| := x'] == before + [x'];
      Reach(s, State(before + [x], Some(|before|), tool), InstallHook(|before|), State(before + [x'], Some(|before|), tool));
    }
  }

  function Served(hooks: seq<nat>, initialized: bool): Module {
    Module(Serving(initialized), 1, hooks, |hooks|, Attached(hooks, |hooks|))
  }

  // A module that is loaded while nobody owns the pipe can come to serve with all its hooks.
  lemma Initializes(s: State, before: seq<Module>, hooks: seq<nat>, tool: Tool)
    requires Reaches(s, State(before + [Module(Starting, 1, [], 0, 0)], None, tool))
    ensures Reaches(s, State(before + [Served(hooks, true)], Some(|before|), tool))
  {
    hide Reaches;
    var m := |before|;
    var x1, x2, x3 := Module(Starting, 1, [], 0, 0), Module(Initializing, 1, [], 0, 0), Module(Installing, 1, hooks, 0, 0);
    var x4 := Module(Installing, 1, hooks, |hooks|, Attached(hooks, |hooks|));
    LastReplaced(before, x1, x2);
    LastReplaced(before, x2, x3);
    LastReplaced(before, x4, Served(hooks, true));
    Reach(s, State(before + [x1], None, tool), CreatePipe(m), State(before + [x2], Some(m), tool));
    Reach(s, State(before + [x2], Some(m), tool), Configure(m, hooks), State(before + [x3], Some(m), tool));
    InstallsAll(s, before, hooks, |hooks|, tool);
    Reach(s, State(before + [x4], Some(m), tool), InitDone(m), State(before + [Served(hooks, true)], Some(m), tool));
  }

  lemma LastReplaced<T>(a: seq<T>, x: T, y: T)
    ensures (a + [x])[|a|] == x && (a + [x])[|a| := y] == a + [y]
  {
  }

  function Unhooked(hooks: seq<nat>, w: Worker, references: nat): Module {
    Module(w, references, hooks, 0, 0)
  }

  // The old module can be detached through the tool, and then leaves.
  lemma Detaches(s: State, hooks: seq<nat>)
    requires Reaches(s, State([Served(hooks, true)], Some(0), Ready))
    ensures Reaches(s, State([Unhooked(hooks, Exited, 0)], None, Injecting(0)))
  {
    hide Reaches, Attached;
    var m := Unhooked(hooks, Detached, 1);
    Reach(s, State([Served(hooks, true)], Some(0), Ready), ToolStatus, State([Served(hooks, true)], Some(0), GotStatus(0)));
    Reach(s, State([Served(hooks, true)], Some(0), GotStatus(0)), ToolDetach(Success, true), State([m], Some(0), Confirmed(0)));
    Leaves(s, hooks);
  }

  lemma Leaves(s: State, hooks: seq<nat>)
    requires Reaches(s, State([Unhooked(hooks, Detached, 1)], Some(0), Confirmed(0)))
    ensures Reaches(s, State([Unhooked(hooks, Exited, 0)], None, Injecting(0)))
  {
    hide Reaches;
    var t := Confirmed(0);
    Reach(s, State([Unhooked(hooks, Detached, 1)], Some(0), t), FinishRun(0), State([Unhooked(hooks, Leaving, 1)], Some(0), t));
    Reach(s, State([Unhooked(hooks, Leaving, 1)], Some(0), t), DestroyInjector(0), State([Unhooked(hooks, Closing, 1)], Some(0), t));
    Reach(s, State([Unhooked(hooks, Closing, 1)], Some(0), t), ClosePipe(0), State([Unhooked(hooks, Closed, 1)], None, t));
    Reach(s, State([Unhooked(hooks, Closed, 1)], None, t), FreeLibraryAndExit(0), State([Unhooked(hooks, Exited, 0)], None, t));
    Reach(s, State([Unhooked(hooks, Exited, 0)], None, t), ToolWait, State([Unhooked(hooks, Exited, 0)], None, WorkerGone(0)));
    Reach(s, State([Unhooked(hooks, Exited, 0)], None, WorkerGone(0)), ToolVerify, State([Unhooked(hooks, Exited, 0)], None, Injecting(0)));
  }

  // A reload can succeed: with any hooks of the old and of the new module there is a run at whose end the
  // tool has reported the replacement, which serves with all its hooks, and the old module is gone.
  lemma ReloadCanSucceed(before: seq<nat>, after: seq<nat>)
    ensures Reaches(State([], None, Ready), State([Unhooked(before, Exited, 0), Served(after, true)], Some(1), Replaced(1)))
  {
    var s := State([], None, Ready);
    assert Valid(s, []) && After(s, []) == s;
    assert Reaches(s, s);
    hide Reaches, Attached;
    var x := Module(Starting, 1, [], 0, 0);
    assert [] + [x] == [x] && [] + [Served(before, true)] == [Served(before, true)];
    Reach(s, s, Load, State([x], None, Ready));
    Initializes(s, [], before, Ready);
    Detaches(s, before);
    var g := Unhooked(before, Exited, 0);
    assert [g] + [x] == [g, x] && [g] + [Served(after, true)] == [g, Served(after, true)];
    Reach(s, State([g], None, Injecting(0)), ToolLoad, State([g, x], None, Loading(1)));
    Initializes(s, [g], after, Loading(1));
    Reach(s, State([g, Served(after, true)], Some(1), Loading(1)), ToolReady, State([g, Served(after, true)], Some(1), Replaced(1)));
  }

  // A reference that was added can be dropped again at any time.
  lemma ReferenceDropped(s: State, m: nat)
    requires Inv(s) && Loaded(s, m)
    ensures Enabled(s, AddReference(m)) && Enabled(Next(s, AddReference(m)), DropReference(m))
    ensures Next(Next(s, AddReference(m)), DropReference(m)) == s
  {
    assert ModuleInv(s, m);
    assert s.modules[m := s.modules[m]] == s.modules;
  }
}
