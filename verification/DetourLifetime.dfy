/**
  The hot-unload protocol of DetourLifetime.cpp and Entry.cpp: game threads call hooked functions
  and run in and out of callbacks while the injector's worker attaches and detaches detours and, in
  the end, unloads the DLL.  Every step of every thread is an event, and a run is any sequence of
  enabled events.
*/
module DetourLifetime {

  // A callback counts itself in ActiveCallbacks between its prologue and its epilogue.
  datatype Phase = Prologue | Scoped | Epilogue

  // A current or return address: in game or system code, or in a callback of the DLL.
  datatype Frame = Outside | Callback(phase: Phase)

  // The innermost frame is the last one.  suspended says whether the worker holds the thread.
  datatype Thread = Thread(alive: bool, suspended: bool, frames: seq<Frame>)

  // Attaching one more hooked function, or detaching all of them
  datatype Operation = Attach(target: nat) | DetachAll

  // Where the worker is.  Idle: between operations.  Detached: after a successful DetachAll.
  // Enlisting: inside Apply with the peers of the first snapshot, n of them suspended.  Quiet: the
  // second snapshot found no other thread.  Counted: the counter was zero, and n stacks have passed.
  datatype Worker =
    | Idle
    | Detached
    | Enlisting(op: Operation, handles: seq<nat>, n: nat)
    | Quiet(op: Operation, handles: seq<nat>)
    | Counted(handles: seq<nat>, n: nat)
    | Unloaded

  // patched: the functions whose code leads into the DLL.  bindings: the worker's own record.
  datatype State = State(threads: seq<Thread>, activeCallbacks: int, patched: set<nat>, bindings: seq<nat>, worker: Worker)

  datatype Event =
    // by the running thread t
    | Call(t: nat, target: nat)
    | EnterScope(t: nat)
    | LeaveScope(t: nat)
    | Return(t: nat)
    | Create(t: nat)
    | Kill(t: nat, victim: nat)
    // by the worker
    | Begin(op: Operation)
    | NothingToDetach
    | Suspend
    | SecondSnapshot
    | CheckCounter
    | CheckStack
    | Commit
    | Abort
    | KeepDll
    | Unload

  // A stack walk: misses(frames, i) says that it may not see the address frames[i] in the DLL.  It may
  // fail on any stack (that is Abort), and passes only those of which it misses every such address.
  type Walk = (seq<Frame>, nat) -> bool

  // The checks of Enlist: whether the second snapshot and the counter are looked at, and the walk.
  datatype Checks = Checks(secondSnapshot: bool, counter: bool, misses: Walk)

  predicate Passes(misses: Walk, frames: seq<Frame>) {
    forall i :: 0 <= i < |frames| && frames[i] != Outside ==> misses(frames, i)
  }

  predicate Running(s: State, t: nat) {
    t < |s.threads| && s.threads[t].alive && !s.threads[t].suspended
  }

  function Top(th: Thread): Frame {
    if th.frames == [] then Outside else th.frames[|th.frames| - 1]
  }

  predicate Enabled(c: Checks, s: State, e: Event) {
    match e
    case Call(t, _) => Running(s, t)
    case EnterScope(t) => Running(s, t) && Top(s.threads[t]) == Callback(Prologue)
    case LeaveScope(t) => Running(s, t) && Top(s.threads[t]) == Callback(Scoped)
    case Return(t) => Running(s, t) && s.threads[t].frames != [] && Top(s.threads[t]) in {Outside, Callback(Epilogue)}
    case Create(t) => Running(s, t)
    case Kill(t, victim) => Running(s, t) && victim < |s.threads|
    case Begin(op) => (s.worker.Idle? || s.worker.Detached?) && (op.DetachAll? ==> s.bindings != [])
    case NothingToDetach => (s.worker.Idle? || s.worker.Detached?) && s.bindings == []
    case Suspend => s.worker.Enlisting? && s.worker.n < |s.worker.handles| && IsAlive(s, s.worker.handles[s.worker.n])
    case SecondSnapshot =>
      s.worker.Enlisting? && s.worker.n == |s.worker.handles| && (c.secondSnapshot ==> AllEnlisted(s, s.worker.handles))
    case CheckCounter => s.worker.Quiet? && s.worker.op.DetachAll? && (c.counter ==> s.activeCallbacks == 0)
    case CheckStack =>
      s.worker.Counted? && s.worker.n < |s.worker.handles| && StackPasses(c, s, s.worker.handles[s.worker.n])
    case Commit =>
      || (s.worker.Quiet? && s.worker.op.Attach?)
      || (s.worker.Counted? && s.worker.n == |s.worker.handles|)
    case Abort => s.worker.Enlisting? || s.worker.Quiet? || s.worker.Counted?
    case KeepDll => s.worker.Detached?
    case Unload => s.worker.Detached?
  }

  predicate IsAlive(s: State, t: nat) {
    t < |s.threads| && s.threads[t].alive
  }

  // The second snapshot lists only threads of the first.
  predicate AllEnlisted(s: State, handles: seq<nat>) {
    forall t :: 0 <= t < |s.threads| && s.threads[t].alive ==> t in handles
  }

  predicate StackPasses(c: Checks, s: State, t: nat) {
    t < |s.threads| ==> Passes(c.misses, s.threads[t].frames)
  }

  function WithFrames(s: State, t: nat, frames: seq<Frame>): State
    requires t < |s.threads|
  {
    s.(threads := s.threads[t := s.threads[t].(frames := frames)])
  }

  function WithTop(s: State, t: nat, f: Frame): State
    requires t < |s.threads| && s.threads[t].frames != []
  {
    WithFrames(s, t, s.threads[t].frames[|s.threads[t].frames| - 1 := f])
  }

  function Alive(threads: seq<Thread>, n: nat): (handles: seq<nat>)
    requires n <= |threads|
    ensures forall t :: t in handles <==> 0 <= t < n && threads[t].alive
  {
    if n == 0 then [] else if threads[n - 1].alive then Alive(threads, n - 1) + [n - 1] else Alive(threads, n - 1)
  }

  // Commit and abort both resume every enlisted thread.
  function Resumed(threads: seq<Thread>, handles: seq<nat>): (r: seq<Thread>)
    ensures |r| == |threads|
    ensures forall t :: 0 <= t < |r| ==> r[t] == if t in handles then threads[t].(suspended := false) else threads[t]
  {
    seq(|threads|, t requires 0 <= t < |threads| => if t in handles then threads[t].(suspended := false) else threads[t])
  }

  function Next(c: Checks, s: State, e: Event): State
    requires Enabled(c, s, e)
  {
    match e
    case Call(t, target) => WithFrames(s, t, s.threads[t].frames + [if target in s.patched then Callback(Prologue) else Outside])
    case EnterScope(t) => WithTop(s, t, Callback(Scoped)).(activeCallbacks := s.activeCallbacks + 1)
    case LeaveScope(t) => WithTop(s, t, Callback(Epilogue)).(activeCallbacks := s.activeCallbacks - 1)
    case Return(t) => WithFrames(s, t, s.threads[t].frames[..|s.threads[t].frames| - 1])
    case Create(_) => s.(threads := s.threads + [Thread(true, false, [])])
    case Kill(_, victim) => s.(threads := s.threads[victim := Thread(false, false, [])])
    case Begin(op) => s.(worker := Enlisting(op, Alive(s.threads, |s.threads|), 0))
    case NothingToDetach => s.(worker := Detached)
    case Suspend =>
      var t := s.worker.handles[s.worker.n];
      s.(threads := s.threads[t := s.threads[t].(suspended := true)], worker := Enlisting(s.worker.op, s.worker.handles, s.worker.n + 1))
    case SecondSnapshot => s.(worker := Quiet(s.worker.op, s.worker.handles))
    case CheckCounter => s.(worker := Counted(s.worker.handles, 0))
    case CheckStack => s.(worker := Counted(s.worker.handles, s.worker.n + 1))
    case Commit =>
      if s.worker.Quiet? then
        var target := s.worker.op.target;
        s.(threads := Resumed(s.threads, s.worker.handles), patched := s.patched + {target}, bindings := s.bindings + [target], worker := Idle)
      else
        s.(threads := Resumed(s.threads, s.worker.handles), patched := {}, bindings := [], worker := Detached)
    case Abort => s.(threads := Resumed(s.threads, s.worker.handles), worker := Idle)
    case KeepDll => s.(worker := Idle)
    case Unload => s.(worker := Unloaded)
  }

  // Runs

  ghost predicate Valid(c: Checks, s: State, es: seq<Event>)
    decreases |es|, 0
  {
    es == [] || (Valid(c, s, es[..|es| - 1]) && Enabled(c, After(c, s, es[..|es| - 1]), es[|es| - 1]))
  }

  ghost function After(c: Checks, s: State, es: seq<Event>): State
    requires Valid(c, s, es)
    decreases |es|, 1
  {
    if es == [] then s else Next(c, After(c, s, es[..|es| - 1]), es[|es| - 1])
  }

  lemma OneMore(c: Checks, s: State, es: seq<Event>, e: Event)
    requires Valid(c, s, es) && Enabled(c, After(c, s, es), e)
    ensures Valid(c, s, es + [e]) && After(c, s, es + [e]) == Next(c, After(c, s, es), e)
  {
    assert (es + [e])[..|es|] == es;
  }

  // The game before the injector is loaded: any threads, all of them running
  ghost predicate Initial(s: State) {
    && s.activeCallbacks == 0 && s.patched == {} && s.bindings == [] && s.worker.Idle?
    && forall t :: 0 <= t < |s.threads| ==> !s.threads[t].suspended && Outer(s.threads[t].frames) && (!s.threads[t].alive ==> s.threads[t].frames == [])
  }

  // No address inside the DLL
  ghost predicate Outer(frames: seq<Frame>) {
    forall i :: 0 <= i < |frames| ==> frames[i] == Outside
  }

  ghost predicate Clear(threads: seq<Thread>) {
    forall t :: 0 <= t < |threads| ==> Outer(threads[t].frames)
  }

  // Once the DLL is unloaded, no detour leads into it and no thread is in it or will return to it.
  ghost predicate Safe(s: State) {
    s.worker.Unloaded? ==> s.patched == {} && Clear(s.threads)
  }

  ghost predicate AllRunsSafe(c: Checks) {
    forall s, es :: Initial(s) && Valid(c, s, es) ==> Safe(After(c, s, es))
  }

  // Counting callbacks

  function CountedFrames(frames: seq<Frame>): nat {
    if frames == [] then 0
    else CountedFrames(frames[..|frames| - 1]) + if frames[|frames| - 1] == Callback(Scoped) then 1 else 0
  }

  function CountedThreads(threads: seq<Thread>): nat {
    if threads == [] then 0
    else CountedThreads(threads[..|threads| - 1]) + CountedFrames(threads[|threads| - 1].frames)
  }

  lemma {:induction false} ReplaceThread(threads: seq<Thread>, t: nat, th: Thread)
    requires t < |threads|
    ensures CountedThreads(threads[t := th]) == CountedThreads(threads) - CountedFrames(threads[t].frames) + CountedFrames(th.frames)
  {
    var n := |threads| - 1;
    if t < n {
      ReplaceThread(threads[..n], t, th);
      assert threads[t := th][..n] == threads[..n][t := th];
    } else {
      assert threads[t := th][..n] == threads[..n];
    }
  }

  lemma {:induction false} SameFramesSameCount(a: seq<Thread>, b: seq<Thread>)
    requires |a| == |b| && forall t :: 0 <= t < |a| ==> a[t].frames == b[t].frames
    ensures CountedThreads(a) == CountedThreads(b)
  {
    if a != [] {
      SameFramesSameCount(a[..|a| - 1], b[..|b| - 1]);
    }
  }

  lemma {:induction false} CountOfOne(threads: seq<Thread>, t: nat)
    requires t < |threads|
    ensures CountedFrames(threads[t].frames) <= CountedThreads(threads)
  {
    if t < |threads| - 1 {
      CountOfOne(threads[..|threads| - 1], t);
    }
  }

  // The checks suffice: no thread is overlooked, and a stack that passes them is outside the DLL.
  ghost predicate Adequate(c: Checks) {
    c.secondSnapshot && forall frames :: Passes(c.misses, frames) && (c.counter ==> CountedFrames(frames) == 0) ==> Outer(frames)
  }

  // The invariant

  // Held: peers of the worker that it has suspended
  ghost predicate Held(s: State, handles: seq<nat>) {
    forall t :: 0 <= t < |s.threads| ==> (s.threads[t].suspended ==> t in handles) && (s.threads[t].alive ==> t in handles && s.threads[t].suspended)
  }

  ghost predicate FreeToRun(s: State) {
    forall t :: 0 <= t < |s.threads| ==> !s.threads[t].suspended
  }

  ghost predicate WorkerInv(c: Checks, s: State) {
    match s.worker
    case Idle => FreeToRun(s)
    case Detached => FreeToRun(s) && s.bindings == []
    case Unloaded => FreeToRun(s) && s.bindings == []
    case Enlisting(_, handles, n) =>
      && n <= |handles|
      && (forall t :: 0 <= t < |s.threads| && s.threads[t].suspended ==> t in handles)
      && (forall j :: 0 <= j < n ==> handles[j] < |s.threads| && (s.threads[handles[j]].alive ==> s.threads[handles[j]].suspended))
    case Quiet(_, handles) => Held(s, handles)
    case Counted(handles, n) =>
      && n <= |handles| && Held(s, handles) && (c.counter ==> s.activeCallbacks == 0)
      && forall j :: 0 <= j < n ==> StackPasses(c, s, handles[j])
  }

  ghost predicate Inv(c: Checks, s: State) {
    && s.activeCallbacks >= CountedThreads(s.threads)
    && (forall f :: f in s.patched <==> f in s.bindings)
    && (s.bindings == [] ==> Clear(s.threads))
    && (forall t :: 0 <= t < |s.threads| && !s.threads[t].alive ==> s.threads[t].frames == [])
    && WorkerInv(c, s)
  }

  // The steps of game threads.  A thread that runs is not held.

  lemma NobodyRunsWhenHeld(c: Checks, s: State, t: nat)
    requires WorkerInv(c, s) && Running(s, t)
    ensures !s.worker.Quiet? && !s.worker.Counted?
  {
  }

  lemma FramesKeepWorkerInv(c: Checks, s: State, t: nat, frames: seq<Frame>, n: int)
    requires WorkerInv(c, s) && Running(s, t)
    ensures WorkerInv(c, WithFrames(s, t, frames).(activeCallbacks := n))
  {
    NobodyRunsWhenHeld(c, s, t);
    var s' := WithFrames(s, t, frames).(activeCallbacks := n);
    hide WorkerInv;
    assert forall u :: 0 <= u < |s.threads| ==> s'.threads[u].suspended == s.threads[u].suspended && s'.threads[u].alive == s.threads[u].alive;
    SameFlags(c, s, s');
  }

  lemma SameFlags(c: Checks, s: State, s': State)
    requires WorkerInv(c, s) && !s.worker.Quiet? && !s.worker.Counted? && s'.worker == s.worker && s'.bindings == s.bindings
    requires |s.threads| == |s'.threads|
    requires forall u :: 0 <= u < |s.threads| ==> s'.threads[u].suspended == s.threads[u].suspended && s'.threads[u].alive == s.threads[u].alive
    ensures WorkerInv(c, s')
  {
  }

  lemma FramesKeepInv(c: Checks, s: State, t: nat, frames: seq<Frame>, n: int)
    requires Inv(c, s) && Running(s, t) && (s.bindings == [] ==> Outer(frames))
    requires n - s.activeCallbacks >= CountedFrames(frames) - CountedFrames(s.threads[t].frames)
    ensures Inv(c, WithFrames(s, t, frames).(activeCallbacks := n))
  {
    ReplaceThread(s.threads, t, s.threads[t].(frames := frames));
    FramesKeepWorkerInv(c, s, t, frames, n);
    hide CountedFrames, CountedThreads, WorkerInv;
  }

  lemma PushCount(frames: seq<Frame>, f: Frame)
    ensures CountedFrames(frames + [f]) == CountedFrames(frames) + if f == Callback(Scoped) then 1 else 0
  {
    assert (frames + [f])[..|frames|] == frames;
  }

  lemma PopCount(frames: seq<Frame>)
    requires frames != []
    ensures var n, l := |frames| - 1, frames[|frames| - 1];
            && CountedFrames(frames) == CountedFrames(frames[..n]) + (if l == Callback(Scoped) then 1 else 0)
            && forall f :: frames[n := f] == frames[..n] + [f]
  {
  }

  lemma ThreadKeepsInv(c: Checks, s: State, e: Event)
    requires Inv(c, s) && Enabled(c, s, e) && (e.Call? || e.EnterScope? || e.LeaveScope? || e.Return?)
    ensures Inv(c, Next(c, s, e))
  {
    hide CountedFrames, Inv, WorkerInv;
    var frames := s.threads[e.t].frames;
    var n := |frames| - 1;
    OnlyWhenBound(c, s);
    match e
    case Call(t, target) =>
      var f := if target in s.patched then Callback(Prologue) else Outside;
      PushCount(frames, f);
      FramesKeepInv(c, s, t, frames + [f], s.activeCallbacks);
    case EnterScope(t) =>
      PopCount(frames);
      PushCount(frames[..n], Callback(Scoped));
      FramesKeepInv(c, s, t, frames[n := Callback(Scoped)], s.activeCallbacks + 1);
    case LeaveScope(t) =>
      PopCount(frames);
      PushCount(frames[..n], Callback(Epilogue));
      FramesKeepInv(c, s, t, frames[n := Callback(Epilogue)], s.activeCallbacks - 1);
    case Return(t) =>
      PopCount(frames);
      FramesKeepInv(c, s, t, frames[..n], s.activeCallbacks);
  }

  // Without a binding there is no detour to call through, and no thread is in a callback.
  lemma OnlyWhenBound(c: Checks, s: State)
    requires Inv(c, s)
    ensures s.bindings == [] ==> s.patched == {} && Clear(s.threads)
  {
    assert forall f :: f in s.patched ==> f in s.bindings;
  }

  lemma CreateKeepsInv(c: Checks, s: State, t: nat)
    requires Inv(c, s) && Running(s, t)
    ensures Inv(c, Next(c, s, Create(t)))
  {
    NobodyRunsWhenHeld(c, s, t);
    assert (s.threads + [Thread(true, false, [])])[..|s.threads|] == s.threads;
  }

  lemma KillKeepsInv(c: Checks, s: State, t: nat, victim: nat)
    requires Inv(c, s) && Running(s, t) && victim < |s.threads|
    ensures Inv(c, Next(c, s, Kill(t, victim)))
  {
    NobodyRunsWhenHeld(c, s, t);
    ReplaceThread(s.threads, victim, Thread(false, false, []));
    hide CountedThreads;
  }

  // Everything but the worker's own part depends on the threads' frames alone.
  lemma WorkerStep(c: Checks, s: State, s': State)
    requires Inv(c, s) && |s.threads| == |s'.threads|
    requires forall t :: 0 <= t < |s.threads| ==> s'.threads[t].frames == s.threads[t].frames && s'.threads[t].alive == s.threads[t].alive
    requires s'.activeCallbacks == s.activeCallbacks && (forall f :: f in s'.patched <==> f in s'.bindings)
    requires (s'.bindings == [] ==> s.bindings == [] || Clear(s.threads)) && WorkerInv(c, s')
    ensures Inv(c, s')
  {
    SameFramesSameCount(s.threads, s'.threads);
    hide CountedThreads, WorkerInv;
  }

  lemma EnlistKeepsInv(c: Checks, s: State, e: Event)
    requires Inv(c, s) && Enabled(c, s, e) && (e.Begin? || e.NothingToDetach? || e.Suspend?)
    ensures Inv(c, Next(c, s, e))
  {
    WorkerStep(c, s, Next(c, s, e));
  }

  lemma CheckKeepsInv(c: Checks, s: State, e: Event)
    requires Adequate(c) && Inv(c, s) && Enabled(c, s, e) && (e.SecondSnapshot? || e.CheckCounter? || e.CheckStack?)
    ensures Inv(c, Next(c, s, e))
  {
    WorkerStep(c, s, Next(c, s, e));
  }

  lemma ResumeFrees(s: State, handles: seq<nat>)
    requires forall t :: 0 <= t < |s.threads| && s.threads[t].suspended ==> t in handles
    ensures FreeToRun(s.(threads := Resumed(s.threads, handles)))
  {
  }

  // All checks passed: no peer is in the DLL.
  lemma ChecksClear(c: Checks, s: State)
    requires Adequate(c) && Inv(c, s) && s.worker.Counted? && s.worker.n == |s.worker.handles|
    ensures Clear(s.threads)
  {
    forall t | 0 <= t < |s.threads|
      ensures Outer(s.threads[t].frames)
    {
      if s.threads[t].alive {
        assert StackPasses(c, s, t);
        CountOfOne(s.threads, t);
      }
    }
  }

  lemma CommitKeepsInv(c: Checks, s: State)
    requires Adequate(c) && Inv(c, s) && Enabled(c, s, Commit)
    ensures Inv(c, Next(c, s, Commit))
  {
    ResumeFrees(s, s.worker.handles);
    if s.worker.Counted? {
      ChecksClear(c, s);
    }
    WorkerStep(c, s, Next(c, s, Commit));
  }

  lemma EndKeepsInv(c: Checks, s: State, e: Event)
    requires Inv(c, s) && Enabled(c, s, e) && (e.Abort? || e.KeepDll? || e.Unload?)
    ensures Inv(c, Next(c, s, e))
  {
    if e.Abort? {
      ResumeFrees(s, s.worker.handles);
    }
    WorkerStep(c, s, Next(c, s, e));
  }

  lemma StepKeepsInv(c: Checks, s: State, e: Event)
    requires Adequate(c) && Inv(c, s) && Enabled(c, s, e)
    ensures Inv(c, Next(c, s, e))
  {
    hide Inv;
    match e
    case Call(_, _) => ThreadKeepsInv(c, s, e);
    case EnterScope(_) => ThreadKeepsInv(c, s, e);
    case LeaveScope(_) => ThreadKeepsInv(c, s, e);
    case Return(_) => ThreadKeepsInv(c, s, e);
    case Create(t) => CreateKeepsInv(c, s, t);
    case Kill(t, victim) => KillKeepsInv(c, s, t, victim);
    case Begin(_) => EnlistKeepsInv(c, s, e);
    case NothingToDetach => EnlistKeepsInv(c, s, e);
    case Suspend => EnlistKeepsInv(c, s, e);
    case SecondSnapshot => CheckKeepsInv(c, s, e);
    case CheckCounter => CheckKeepsInv(c, s, e);
    case CheckStack => CheckKeepsInv(c, s, e);
    case Commit => CommitKeepsInv(c, s);
    case Abort => EndKeepsInv(c, s, e);
    case KeepDll => EndKeepsInv(c, s, e);
    case Unload => EndKeepsInv(c, s, e);
  }

  lemma {:induction false} KeepsInvFrom(c: Checks, s: State, es: seq<Event>)
    requires Adequate(c) && Inv(c, s) && Valid(c, s, es)
    ensures Inv(c, After(c, s, es))
    decreases |es|
  {
    if es != [] {
      var front := es[..|es| - 1];
      KeepsInvFrom(c, s, front);
      StepKeepsInv(c, After(c, s, front), es[|es| - 1]);
    }
  }

  lemma RunKeepsInv(c: Checks, s: State, es: seq<Event>)
    requires Adequate(c) && Initial(s) && Valid(c, s, es)
    ensures Inv(c, After(c, s, es))
  {
    OuterCountsNothing(s.threads);
    KeepsInvFrom(c, s, es);
  }

  lemma {:induction false} OuterCountsNothing(threads: seq<Thread>)
    requires Clear(threads)
    ensures CountedThreads(threads) == 0
  {
    if threads != [] {
      OuterCountsNothing(threads[..|threads| - 1]);
      OuterFrames(threads[|threads| - 1].frames);
    }
  }

  lemma {:induction false} OuterFrames(frames: seq<Frame>)
    requires Outer(frames)
    ensures CountedFrames(frames) == 0
  {
    if frames != [] {
      OuterFrames(frames[..|frames| - 1]);
    }
  }

  // In every interleaving the DLL is unloaded only when no detour leads into it and no thread has an
  // address in it, which stays so.
  lemma UnloadIsSafe(c: Checks, s: State, es: seq<Event>)
    requires Adequate(c) && Initial(s) && Valid(c, s, es)
    ensures Safe(After(c, s, es))
  {
    RunKeepsInv(c, s, es);
    OnlyWhenBound(c, After(c, s, es));
  }

  // What threads do.  A hooked function that is called runs through its callback and returns: everything
  // is as before, and in between the callback is counted once, on top of the stack.  A function without a
  // detour never enters the DLL.

  lemma CallbackReturns(c: Checks, s: State, t: nat, target: nat)
    requires Running(s, t)
    ensures Enabled(c, s, Call(t, target))
    ensures var u := Next(c, s, Call(t, target));
            && u.activeCallbacks == s.activeCallbacks
            && (target !in s.patched ==> u.threads[t].frames == s.threads[t].frames + [Outside] && Enabled(c, u, Return(t)) && Next(c, u, Return(t)) == s)
            && (target in s.patched ==>
                  && !Enabled(c, u, Return(t)) && Enabled(c, u, EnterScope(t))
                  && var v := Next(c, u, EnterScope(t));
                  && v.activeCallbacks == s.activeCallbacks + 1 && v.threads[t].frames == s.threads[t].frames + [Callback(Scoped)]
                  && !Enabled(c, v, Return(t)) && !Enabled(c, v, EnterScope(t)) && Enabled(c, v, LeaveScope(t))
                  && var w := Next(c, v, LeaveScope(t));
                  Enabled(c, w, Return(t)) && Next(c, w, Return(t)) == s)
  {
    var frames := s.threads[t].frames;
    Popped(frames, Outside);
    Popped(frames, Callback(Epilogue));
    assert s.threads[t := s.threads[t]] == s.threads;
    if target in s.patched {
      var u := Next(c, s, Call(t, target));
      ReplacedTop(frames, Callback(Prologue), Callback(Scoped));
      ReplacedTop(frames, Callback(Scoped), Callback(Epilogue));
    }
  }

  lemma Popped(frames: seq<Frame>, f: Frame)
    ensures (frames + [f])[..|frames + [f]| - 1] == frames
  {
  }

  lemma ReplacedTop(frames: seq<Frame>, f: Frame, g: Frame)
    ensures (frames + [f])[|frames + [f]| - 1 := g] == frames + [g]
  {
  }

  // Only a running thread changes its stack, and only its own; a thread that is held or ended stands still.
  lemma OthersStandStill(c: Checks, s: State, e: Event, t: nat)
    requires Enabled(c, s, e) && t < |s.threads| && !(e.Kill? && e.victim == t)
    requires !((e.Call? || e.EnterScope? || e.LeaveScope? || e.Return?) && e.t == t)
    ensures |s.threads| <= |Next(c, s, e).threads|
    ensures Next(c, s, e).threads[t].frames == s.threads[t].frames && Next(c, s, e).threads[t].alive == s.threads[t].alive
  {
  }

  // A thread that has ended never runs again and has no frames.
  lemma {:induction false} EndedForGood(c: Checks, s: State, es: seq<Event>, t: nat)
    requires Valid(c, s, es) && t < |s.threads| && !s.threads[t].alive && s.threads[t].frames == []
    ensures var u := After(c, s, es); t < |u.threads| && !u.threads[t].alive && u.threads[t].frames == [] && !Running(u, t)
    decreases |es|
  {
    if es != [] {
      EndedForGood(c, s, es[..|es| - 1], t);
    }
  }

  lemma KilledForGood(c: Checks, s: State, t: nat, victim: nat, es: seq<Event>)
    requires Enabled(c, s, Kill(t, victim)) && Valid(c, Next(c, s, Kill(t, victim)), es)
    ensures var u := After(c, Next(c, s, Kill(t, victim)), es);
            victim < |u.threads| && u.threads[victim].frames == [] && !Running(u, victim)
  {
    EndedForGood(c, Next(c, s, Kill(t, victim)), es, victim);
  }

  // A worker that has no detour left goes on to unload, also when it had to try before.
  lemma NothingLeftUnloads(c: Checks, s: State)
    requires (s.worker.Idle? || s.worker.Detached?) && s.bindings == []
    ensures Enabled(c, s, NothingToDetach) && Enabled(c, Next(c, s, NothingToDetach), Unload)
    ensures Next(c, Next(c, s, NothingToDetach), Unload) == s.(worker := Unloaded)
    ensures Enabled(c, Next(c, s, NothingToDetach), KeepDll) && Next(c, Next(c, s, NothingToDetach), KeepDll) == s.(worker := Idle)
  {
  }

  // Commit or abort: between operations every thread runs, and the record of detours is exact.
  lemma NobodyStaysSuspended(c: Checks, s: State, es: seq<Event>)
    requires Adequate(c) && Initial(s) && Valid(c, s, es)
    ensures var t := After(c, s, es);
            && (t.worker.Idle? || t.worker.Detached? || t.worker.Unloaded? ==> FreeToRun(t))
            && (forall f :: f in t.patched <==> f in t.bindings)
  {
    RunKeepsInv(c, s, es);
  }

  lemma {:induction false} OnlyCommitPatches(c: Checks, s: State, es: seq<Event>)
    requires Valid(c, s, es) && Commit !in es
    ensures After(c, s, es).patched == s.patched && After(c, s, es).bindings == s.bindings
    decreases |es|
  {
    if es != [] {
      OnlyCommitPatches(c, s, es[..|es| - 1]);
    }
  }

  // An operation that is begun at any point of any run and fails, whatever the threads do meanwhile:
  // every detour and its record are as before, no thread is held, and the same operation can be begun
  // again.
  lemma FailedOperation(c: Checks, s: State, es: seq<Event>, op: Operation, more: seq<Event>)
    requires Adequate(c) && Initial(s) && Valid(c, s, es) && Enabled(c, After(c, s, es), Begin(op))
    requires Valid(c, Next(c, After(c, s, es), Begin(op)), more + [Abort]) && Commit !in more
    ensures var before := After(c, s, es);
            var t := After(c, Next(c, before, Begin(op)), more + [Abort]);
            && t.patched == before.patched && t.bindings == before.bindings
            && FreeToRun(t) && Enabled(c, t, Begin(op))
  {
    var before := After(c, s, es);
    var begun, run := Next(c, before, Begin(op)), more + [Abort];
    assert begun.patched == before.patched && begun.bindings == before.bindings && (op.DetachAll? ==> before.bindings != []);
    RunKeepsInv(c, s, es);
    StepKeepsInv(c, before, Begin(op));
    KeepsInvFrom(c, begun, run);
    OnlyCommitPatches(c, begun, run);
    AbortEnds(c, begun, more);
    hide Inv, Valid, After, Next, Enabled;
    Ready(c, After(c, begun, run));
  }

  // What the worker is about, from Begin until Commit or Abort
  predicate OperatingOn(w: Worker, op: Operation) {
    match w
    case Enlisting(o, _, _) => o == op
    case Quiet(o, _) => o == op
    case Counted(_, _) => op.DetachAll?
    case _ => false
  }

  lemma {:induction false} StillOperating(c: Checks, s: State, es: seq<Event>, op: Operation)
    requires Valid(c, s, es) && OperatingOn(s.worker, op) && Commit !in es && Abort !in es
    ensures OperatingOn(After(c, s, es).worker, op)
    decreases |es|
  {
    if es != [] {
      StillOperating(c, s, es[..|es| - 1], op);
    }
  }

  // An operation that ends with its Commit: an attach adds its function to those hooked before, a detach
  // leaves none and lets the DLL be unloaded, and no thread is held.
  lemma SuccessfulOperation(c: Checks, s: State, es: seq<Event>, op: Operation, more: seq<Event>)
    requires Adequate(c) && Initial(s) && Valid(c, s, es) && Enabled(c, After(c, s, es), Begin(op))
    requires Valid(c, Next(c, After(c, s, es), Begin(op)), more + [Commit]) && Commit !in more && Abort !in more
    ensures var before := After(c, s, es);
            var t := After(c, Next(c, before, Begin(op)), more + [Commit]);
            && (op.Attach? ==> t.patched == before.patched + {op.target} && t.bindings == before.bindings + [op.target])
            && (op.DetachAll? ==> t.patched == {} && t.bindings == [] && Enabled(c, t, Unload) && Next(c, t, Unload).worker.Unloaded?)
            && FreeToRun(t) && forall next: Operation :: (next.DetachAll? ==> t.bindings != []) ==> Enabled(c, t, Begin(next))
  {
    var before := After(c, s, es);
    var begun := Next(c, before, Begin(op));
    assert begun.patched == before.patched && begun.bindings == before.bindings && OperatingOn(begun.worker, op);
    RunKeepsInv(c, s, es);
    StepKeepsInv(c, before, Begin(op));
    KeepsInvFrom(c, begun, more + [Commit]);
    CommitLast(c, begun, more);
    OnlyCommitPatches(c, begun, more);
    StillOperating(c, begun, more, op);
    var t, last := After(c, begun, more), After(c, begun, more + [Commit]);
    CommitEnds(c, t, op);
    assert Inv(c, last);
    hide Inv, Valid, After, Next, Enabled, Adequate;
    Ready(c, last);
  }

  lemma CommitLast(c: Checks, s: State, es: seq<Event>)
    requires Valid(c, s, es + [Commit])
    ensures Valid(c, s, es) && Enabled(c, After(c, s, es), Commit) && After(c, s, es + [Commit]) == Next(c, After(c, s, es), Commit)
  {
    assert (es + [Commit])[..|es|] == es;
  }

  lemma CommitEnds(c: Checks, t: State, op: Operation)
    requires Enabled(c, t, Commit) && OperatingOn(t.worker, op)
    ensures var u := Next(c, t, Commit);
            && (op.Attach? ==> u.patched == t.patched + {op.target} && u.bindings == t.bindings + [op.target] && u.worker.Idle?)
            && (op.DetachAll? ==> u.patched == {} && u.bindings == [] && u.worker.Detached?)
  {
  }

  lemma Ready(c: Checks, t: State)
    requires Inv(c, t) && (t.worker.Idle? || t.worker.Detached?)
    ensures FreeToRun(t) && forall op: Operation :: (op.DetachAll? ==> t.bindings != []) ==> Enabled(c, t, Begin(op))
    ensures t.worker.Detached? ==> Enabled(c, t, Unload) && Next(c, t, Unload).worker.Unloaded?
  {
  }

  lemma AbortEnds(c: Checks, s: State, es: seq<Event>)
    requires Valid(c, s, es + [Abort])
    ensures After(c, s, es + [Abort]).worker.Idle?
  {
    assert (es + [Abort])[..|es|] == es;
  }

  // Runs to a given state

  ghost predicate Reaches(c: Checks, s: State, t: State) {
    exists es :: Valid(c, s, es) && After(c, s, es) == t
  }

  lemma ReachesItself(c: Checks, s: State)
    ensures Reaches(c, s, s)
  {
    assert Valid(c, s, []) && After(c, s, []) == s;
  }

  lemma ReachesNext(c: Checks, s: State, t: State, e: Event)
    requires Reaches(c, s, t) && Enabled(c, t, e)
    ensures Reaches(c, s, Next(c, t, e))
  {
    var es :| Valid(c, s, es) && After(c, s, es) == t;
    OneMore(c, s, es, e);
  }

  // A step to a given state
  lemma Reach(c: Checks, s: State, t: State, e: Event, t': State)
    requires Reaches(c, s, t) && Enabled(c, t, e) && Next(c, t, e) == t'
    ensures Reaches(c, s, t')
  {
    ReachesNext(c, s, t, e);
  }

  function At(frames: seq<Frame>): Thread {
    Thread(true, false, frames)
  }

  // A game with one thread, in its own code
  const ONE_THREAD := State([At([])], 0, {}, [], Idle)

  // A game in which function 0 is hooked
  function Hooked(threads: seq<Thread>, activeCallbacks: int, worker: Worker): State {
    State(threads, activeCallbacks, {0}, [0], worker)
  }

  function Detoured(threads: seq<Thread>, activeCallbacks: int, worker: Worker): State {
    State(threads, activeCallbacks, {}, [], worker)
  }

  function Hold(th: Thread): Thread {
    th.(suspended := true)
  }

  // The handles that a snapshot of one thread opens
  lemma Snapshot(th: Thread)
    requires th.alive
    ensures Alive([th], 1) == [0]
  {
    assert Alive([th], 0) == [];
  }

  lemma ResumeFirst(th: Thread, rest: seq<Thread>)
    requires !th.suspended
    ensures Resumed([Hold(th)] + rest, [0]) == [th] + rest
  {
  }

  // The worker attaches a detour.
  lemma ReachesAttached(c: Checks)
    ensures Reaches(c, ONE_THREAD, Hooked([At([])], 0, Idle))
  {
    var s := ONE_THREAD;
    var op, held := Attach(0), [Hold(At([]))];
    ReachesItself(c, s);
    hide Reaches, Alive;
    Snapshot(At([]));
    Reach(c, s, s, Begin(op), State([At([])], 0, {}, [], Enlisting(op, [0], 0)));
    Reach(c, s, State([At([])], 0, {}, [], Enlisting(op, [0], 0)), Suspend, State(held, 0, {}, [], Enlisting(op, [0], 1)));
    EnlistedAttach(c, s);
  }

  lemma EnlistedAttach(c: Checks, s: State)
    requires Reaches(c, s, State([Hold(At([]))], 0, {}, [], Enlisting(Attach(0), [0], 1)))
    ensures Reaches(c, s, Hooked([At([])], 0, Idle))
  {
    var op, held := Attach(0), [Hold(At([]))];
    hide Reaches;
    Reach(c, s, State(held, 0, {}, [], Enlisting(op, [0], 1)), SecondSnapshot, State(held, 0, {}, [], Quiet(op, [0])));
    ResumeFirst(At([]), []);
    assert held + [] == held && [At([])] + [] == [At([])];
    Reach(c, s, State(held, 0, {}, [], Quiet(op, [0])), Commit, Hooked([At([])], 0, Idle));
  }

  // A step of the one thread of a hooked game
  lemma ReachTop(c: Checks, frames: seq<Frame>, k: int, e: Event, f: Frame, k': int)
    requires Reaches(c, ONE_THREAD, Hooked([At(frames)], k, Idle)) && frames != [] && Enabled(c, Hooked([At(frames)], k, Idle), e)
    requires (e == EnterScope(0) && f == Callback(Scoped) && k' == k + 1) || (e == LeaveScope(0) && f == Callback(Epilogue) && k' == k - 1)
    ensures Reaches(c, ONE_THREAD, Hooked([At(frames[|frames| - 1 := f])], k', Idle))
  {
    hide Reaches;
    var frames' := frames[|frames| - 1 := f];
    assert [At(frames)][0 := At(frames')] == [At(frames')];
    Reach(c, ONE_THREAD, Hooked([At(frames)], k, Idle), e, Hooked([At(frames')], k', Idle));
  }

  // The thread calls a hooked function, or another one.
  lemma ReachCall(c: Checks, frames: seq<Frame>, k: int, target: nat)
    requires Reaches(c, ONE_THREAD, Hooked([At(frames)], k, Idle))
    ensures Reaches(c, ONE_THREAD, Hooked([At(frames + [if target == 0 then Callback(Prologue) else Outside])], k, Idle))
  {
    hide Reaches;
    var frames' := frames + [if target == 0 then Callback(Prologue) else Outside];
    assert [At(frames)][0 := At(frames')] == [At(frames')];
    Reach(c, ONE_THREAD, Hooked([At(frames)], k, Idle), Call(0, target), Hooked([At(frames')], k, Idle));
  }

  lemma SetLast(frames: seq<Frame>, f: Frame, g: Frame)
    ensures (frames + [f])[|frames + [f]| - 1 := g] == frames + [g]
  {
  }

  // One more frame, at any phase
  lemma ReachPushed(c: Checks, front: seq<Frame>, k: int, last: Frame)
    requires Reaches(c, ONE_THREAD, Hooked([At(front)], k, Idle))
    ensures Reaches(c, ONE_THREAD, Hooked([At(front + [last])], k + if last == Callback(Scoped) then 1 else 0, Idle))
  {
    hide Reaches;
    match last
    case Outside => ReachCall(c, front, k, 1);
    case Callback(phase) =>
      ReachCall(c, front, k, 0);
      if phase != Prologue {
        SetLast(front, Callback(Prologue), Callback(Scoped));
        ReachTop(c, front + [Callback(Prologue)], k, EnterScope(0), Callback(Scoped), k + 1);
      }
      if phase == Epilogue {
        SetLast(front, Callback(Scoped), Callback(Epilogue));
        ReachTop(c, front + [Callback(Scoped)], k + 1, LeaveScope(0), Callback(Epilogue), k);
      }
  }

  // One thread can come to have any stack.
  lemma {:induction false} ReachesStack(c: Checks, frames: seq<Frame>)
    ensures Reaches(c, ONE_THREAD, Hooked([At(frames)], CountedFrames(frames), Idle))
    decreases |frames|
  {
    if frames == [] {
      ReachesAttached(c);
    } else {
      var n := |frames| - 1;
      ReachesStack(c, frames[..n]);
      hide Reaches;
      ReachPushed(c, frames[..n], CountedFrames(frames[..n]), frames[n]);
      assert frames == frames[..n] + [frames[n]];
    }
  }

  // The worker detaches with one thread in its snapshot and others beside it, if the checks let it.
  lemma ReachesUnloadUnder(c: Checks, f: seq<Frame>, rest: seq<Thread>, active: int)
    requires Reaches(c, ONE_THREAD, Hooked([At(f)] + rest, active, Enlisting(DetachAll, [0], 0)))
    requires (c.secondSnapshot ==> rest == []) && (c.counter ==> active == 0) && Passes(c.misses, f)
    ensures Reaches(c, ONE_THREAD, Detoured([At(f)] + rest, active, Unloaded))
  {
    var s, th, held := ONE_THREAD, [At(f)] + rest, [Hold(At(f))] + rest;
    hide Reaches, Passes;
    assert th[0 := Hold(At(f))] == held;
    Reach(c, s, Hooked(th, active, Enlisting(DetachAll, [0], 0)), Suspend, Hooked(held, active, Enlisting(DetachAll, [0], 1)));
    Reach(c, s, Hooked(held, active, Enlisting(DetachAll, [0], 1)), SecondSnapshot, Hooked(held, active, Quiet(DetachAll, [0])));
    QuietUnload(c, f, rest, active);
  }

  lemma QuietUnload(c: Checks, f: seq<Frame>, rest: seq<Thread>, active: int)
    requires Reaches(c, ONE_THREAD, Hooked([Hold(At(f))] + rest, active, Quiet(DetachAll, [0])))
    requires (c.counter ==> active == 0) && Passes(c.misses, f)
    ensures Reaches(c, ONE_THREAD, Detoured([At(f)] + rest, active, Unloaded))
  {
    var s, th, held := ONE_THREAD, [At(f)] + rest, [Hold(At(f))] + rest;
    hide Reaches, Passes;
    Reach(c, s, Hooked(held, active, Quiet(DetachAll, [0])), CheckCounter, Hooked(held, active, Counted([0], 0)));
    Reach(c, s, Hooked(held, active, Counted([0], 0)), CheckStack, Hooked(held, active, Counted([0], 1)));
    ResumeFirst(At(f), rest);
    Reach(c, s, Hooked(held, active, Counted([0], 1)), Commit, Detoured(th, active, Detached));
    Reach(c, s, Detoured(th, active, Detached), Unload, Detoured(th, active, Unloaded));
  }

  lemma ReachesDetach(c: Checks, f: seq<Frame>, active: int)
    requires Reaches(c, ONE_THREAD, Hooked([At(f)], active, Idle))
    ensures Reaches(c, ONE_THREAD, Hooked([At(f)] + [], active, Enlisting(DetachAll, [0], 0)))
  {
    hide Reaches;
    Snapshot(At(f));
    assert [At(f)] + [] == [At(f)];
    Reach(c, ONE_THREAD, Hooked([At(f)], active, Idle), Begin(DetachAll), Hooked([At(f)], active, Enlisting(DetachAll, [0], 0)));
  }

  // A stack that the checks let pass is unloaded under.
  lemma UnloadUnderPassing(c: Checks, f: seq<Frame>)
    requires Passes(c.misses, f) && (c.counter ==> CountedFrames(f) == 0)
    ensures Reaches(c, ONE_THREAD, Detoured([At(f)] + [], CountedFrames(f), Unloaded))
  {
    ReachesStack(c, f);
    ReachesDetach(c, f, CountedFrames(f));
    ReachesUnloadUnder(c, f, [], CountedFrames(f));
  }

  // Without the second snapshot a thread is missed that is created after the first.
  lemma UnloadUnderNewThread(c: Checks)
    requires !c.secondSnapshot
    ensures Reaches(c, ONE_THREAD, Detoured([At([])] + [At([Callback(Prologue)])], 0, Unloaded))
  {
    var s, th := ONE_THREAD, [At([])];
    ReachesAttached(c);
    hide Reaches;
    ReachesDetach(c, [], 0);
    assert th + [] == th && [] + [Callback(Prologue)] == [Callback(Prologue)];
    var w := Enlisting(DetachAll, [0], 0);
    Reach(c, s, Hooked(th, 0, w), Create(0), Hooked(th + [At([])], 0, w));
    assert (th + [At([])])[1 := At([Callback(Prologue)])] == th + [At([Callback(Prologue)])];
    Reach(c, s, Hooked(th + [At([])], 0, w), Call(1, 0), Hooked(th + [At([Callback(Prologue)])], 0, w));
    ReachesUnloadUnder(c, [], [At([Callback(Prologue)])], 0);
  }

  lemma UnsafeRun(c: Checks, threads: seq<Thread>, active: int, t: nat)
    requires Reaches(c, ONE_THREAD, Detoured(threads, active, Unloaded)) && t < |threads| && !Outer(threads[t].frames)
    ensures !AllRunsSafe(c)
  {
    var last := Detoured(threads, active, Unloaded);
    var es :| Valid(c, ONE_THREAD, es) && After(c, ONE_THREAD, es) == last;
    assert Initial(ONE_THREAD) && !Safe(last);
  }

  // Every run is safe exactly when the second snapshot is made and no stack in the DLL can pass both
  // the counter, if it is looked at, and the walk.
  lemma ChecksAreExact(c: Checks)
    ensures AllRunsSafe(c) <==> Adequate(c)
  {
    if Adequate(c) {
      forall s, es | Initial(s) && Valid(c, s, es)
        ensures Safe(After(c, s, es))
      {
        UnloadIsSafe(c, s, es);
      }
    } else if !c.secondSnapshot {
      UnloadUnderNewThread(c);
      assert [Callback(Prologue)][0] != Outside;
      UnsafeRun(c, [At([])] + [At([Callback(Prologue)])], 0, 1);
    } else {
      var f :| Passes(c.misses, f) && (c.counter ==> CountedFrames(f) == 0) && !Outer(f);
      UnloadUnderPassing(c, f);
      UnsafeRun(c, [At(f)] + [], CountedFrames(f), 0);
    }
  }

  // CheckStack returns ERROR_BUSY at the first address in the DLL, so it misses none.
  function CheckStackWalk(): Walk {
    (frames, i) => false
  }

  function NoWalk(): Walk {
    (frames, i) => true
  }

  // With the code's walk, the second snapshot and the walk are what every run needs and all it needs;
  // the counter adds nothing.
  lemma ChecksOfTheCode(secondSnapshot: bool, counter: bool, stack: bool)
    ensures AllRunsSafe(Checks(secondSnapshot, counter, if stack then CheckStackWalk() else NoWalk())) <==> secondSnapshot && stack
  {
    var c := Checks(secondSnapshot, counter, if stack then CheckStackWalk() else NoWalk());
    ChecksAreExact(c);
    if !stack {
      var f := [Callback(Prologue)];
      assert Passes(c.misses, f) && f[..0] == [] && CountedFrames(f[..0]) == 0 && f[0] != Outside;
    }
  }

  // When the counter makes the difference for a walk: exactly when the walk can pass a stack in the DLL,
  // and each stack it can pass there holds a callback that counts itself.
  lemma WhenCounterDecides(misses: Walk)
    ensures AllRunsSafe(Checks(true, true, misses)) && !AllRunsSafe(Checks(true, false, misses)) <==>
            && (exists frames :: Passes(misses, frames) && !Outer(frames))
            && (forall frames :: Passes(misses, frames) && !Outer(frames) ==> CountedFrames(frames) > 0)
  {
    ChecksAreExact(Checks(true, true, misses));
    ChecksAreExact(Checks(true, false, misses));
  }

  // A walk that may lose track in external code that a callback has called, and so miss the callback.
  function WalkLostOutside(): Walk {
    (frames, i) => 0 <= i < |frames| - 1 && frames[i] == Callback(Scoped) && frames[|frames| - 1] == Outside
  }

  lemma {:induction false} CountedOne(frames: seq<Frame>, i: nat)
    requires i < |frames| && frames[i] == Callback(Scoped)
    ensures CountedFrames(frames) > 0
  {
    if i < |frames| - 1 {
      CountedOne(frames[..|frames| - 1], i);
    }
  }

  // With such a walk the counter is needed besides.
  lemma ChecksOfLostWalk(secondSnapshot: bool, counter: bool)
    ensures AllRunsSafe(Checks(secondSnapshot, counter, WalkLostOutside())) <==> secondSnapshot && counter
  {
    var misses := WalkLostOutside();
    ChecksAreExact(Checks(secondSnapshot, counter, misses));
    var f := [Callback(Scoped), Outside];
    assert Passes(misses, f) && f[0] != Outside;
    forall frames | Passes(misses, frames) && CountedFrames(frames) == 0
      ensures Outer(frames)
    {
      if i :| 0 <= i < |frames| && frames[i] != Outside {
        CountedOne(frames, i);
      }
    }
  }
}
