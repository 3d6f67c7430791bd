/** What saved frames hold, in every run and in every continuation, and what resuming a continuation means. */
module Frames {
  import opened Options
  import opened Environ
  import opened Eval
  import opened Machine
  import opened Refinement

  /** What the code behind a label relies on. */
  predicate Fits(lab: Label, l: Locals) {
    l.envHdl.Some? &&
    match lab
    case PostFunc => l.input.Cons? && ListLike(l.input.cdr)
    case PostTest => l.input.Cons? && ListLike(l.input.cdr)
    case PostValue => (l.func == Special(DEF) || l.func == Special(SET)) && l.cursor.Sym?
    case PostArg => l.cursor.Cons? && !Syntactic(l.func)
    case PostExpr => l.cursor.Cons?
  }

  /** The frame lists that pushing a frame has produced so far. */
  type History = set<seq<Locals>>

  /** Every continuation in the value holds a frame list of the history, or no frames. */
  ghost predicate Known(past: History, v: Val) {
    match v
    case Cons(a, d) => Known(past, a) && Known(past, d)
    case Lambda(_, vars, expr) => Known(past, vars) && Known(past, expr)
    case Cont(bt) => bt == [] || bt in past
    case _ => true
  }

  ghost predicate KnownLocals(past: History, l: Locals) {
    && Known(past, l.cursor) && Known(past, l.func) && Known(past, l.input)
    && forall i :: 0 <= i < |l.newargs| ==> Known(past, l.newargs[i])
  }

  ghost predicate KnownHeap(past: History, s: Heap) {
    forall i :: 0 <= i < |s.kvs| ==> Known(past, s.kvs[i].val)
  }

  /** A frame list can be resumed: its top frame has a label, and the locals that are used there. */
  ghost predicate Resumable(past: History, frames: seq<Locals>) {
    && frames != [] && frames[0].restart.Some? && Fits(frames[0].restart.value, frames[0])
    && KnownLocals(past, frames[0]) && (frames[1..] == [] || frames[1..] in past)
  }

  ghost predicate Sound(past: History) {
    forall frames :: frames in past ==> Resumable(past, frames)
  }

  /** What a foreign function leaves stems from a longer history. */
  ghost predicate ForeignAdds(past: History, more: History, fo: ForeignFns, id: nat, args: Val, s: Heap, h: nat) {
    past <= more && Sound(more) && Known(more, fo(id, args, s, h).1) && KnownHeap(more, fo(id, args, s, h).2)
  }

  ghost predicate CallKnown(past: History, fo: ForeignFns, id: nat, args: Val, s: Heap, h: nat) {
    Sound(past) && Known(past, args) && KnownHeap(past, s) ==>
      exists more: History :: ForeignAdds(past, more, fo, id, args, s, h)
  }

  /** Foreign functions may evaluate on their own and leave continuations, but only ones that can be resumed. */
  ghost predicate ForeignKnown(fo: ForeignFns) {
    forall past: History, id: nat, args: Val, s: Heap, h: nat :: CallKnown(past, fo, id, args, s, h)
  }

  /** The machine has what the code at its point of control relies on. */
  predicate Poised(m: Machine) {
    match m.pc
    case Restart => m.status == EVAL_OK && m.locals.envHdl.Some?
    case At(lab) => Fits(lab, m.locals)
    case ArgsLoop => m.status == EVAL_OK && m.locals.envHdl.Some? && !Syntactic(m.locals.func)
    case Apply => m.status == EVAL_OK && m.locals.envHdl.Some? && !Syntactic(m.locals.func)
    case BodyLoop => m.status == EVAL_OK && m.locals.envHdl.Some?
    case Cleanup => m.locals.envHdl.Some?
    case Finish => m.locals.envHdl.Some?
    case AbortFrame => false
    case _ => true
  }

  /** All that the machine holds stems from the history. */
  ghost predicate Traced(past: History, m: Machine) {
    && KnownHeap(past, m.store) && Known(past, m.result) && KnownLocals(past, m.locals)
    && (m.frames == [] || m.frames in past)
  }

  /** The invariant of all runs. */
  ghost predicate Sane(past: History, m: Machine) {
    Sound(past) && Poised(m) && Traced(past, m)
  }

  /** The machine as it was when it pushed the frame. */
  function Caller(p: Machine): Machine
    requires p.frames != []
  {
    p.(locals := p.frames[0], frames := p.frames[1..])
  }

  /** The machine has just pushed a frame to evaluate an inner expression. */
  predicate IsPush(p: Machine) {
    && p.frames != [] && p.frames[0].restart.Some?
    && p == PushEval(Caller(p), p.frames[0].restart.value, p.locals.input)
  }

  ghost function Pushed(past: History, m: Machine): History {
    if IsPush(m) then past + {m.frames} else past
  }

  predicate CallsForeign(m: Machine) {
    m.pc == Apply && m.locals.func.Foreign?
  }

  /** The history behind the call of a foreign function. */
  ghost function Made(past: History, fo: ForeignFns, m: Machine): History
    requires CallsForeign(m)
  {
    var id, args, h := m.locals.func.id, ListOf(m.locals.newargs), Handle(m);
    if more: History :| ForeignAdds(past, more, fo, id, args, m.store, h) then more else past
  }

  /** The history behind one more step. */
  ghost function Grow(past: History, fo: ForeignFns, m: Machine): History {
    if CallsForeign(m) then Made(past, fo, m) else Pushed(past, Step(fo, m))
  }

  // ----- the history may grow

  lemma {:induction false} KnownMore(past: History, more: History, v: Val)
    requires past <= more && Known(past, v)
    ensures Known(more, v)
    decreases v
  {
    match v {
      case Cons(a, d) =>
        KnownMore(past, more, a);
        KnownMore(past, more, d);
      case Lambda(_, vars, expr) =>
        KnownMore(past, more, vars);
        KnownMore(past, more, expr);
      case _ =>
    }
  }

  lemma LocalsMore(past: History, more: History, l: Locals)
    requires past <= more && KnownLocals(past, l)
    ensures KnownLocals(more, l)
  {
    hide Known;
    KnownMore(past, more, l.cursor);
    KnownMore(past, more, l.func);
    KnownMore(past, more, l.input);
    forall i | 0 <= i < |l.newargs|
      ensures Known(more, l.newargs[i])
    {
      KnownMore(past, more, l.newargs[i]);
    }
  }

  lemma HeapMore(past: History, more: History, s: Heap)
    requires past <= more && KnownHeap(past, s)
    ensures KnownHeap(more, s)
  {
    forall i | 0 <= i < |s.kvs|
      ensures Known(more, s.kvs[i].val)
    {
      KnownMore(past, more, s.kvs[i].val);
    }
  }

  /** A new frame list on top of known ones keeps the history sound. */
  lemma SoundMore(past: History, frames: seq<Locals>)
    requires Sound(past) && Resumable(past, frames)
    ensures Sound(past + {frames})
  {
    hide KnownLocals, Fits;
    var more := past + {frames};
    forall fs | fs in more
      ensures Resumable(more, fs)
    {
      assert Resumable(past, fs);
      LocalsMore(past, more, fs[0]);
    }
  }

  // ----- values

  lemma KnownParts(past: History, v: Val)
    requires Known(past, v)
    ensures Known(past, Car(v)) && Known(past, Cdr(v))
  {
  }

  lemma KnownLambda(past: History, env: Env, vars: Val, expr: Val)
    ensures Known(past, Lambda(env, vars, expr)) <==> Known(past, vars) && Known(past, expr)
  {
  }

  lemma KnownAtoms(past: History)
    ensures Known(past, Nil) && Known(past, Int(1)) && forall sp :: Known(past, Special(sp))
  {
  }

  /** What call/cc calls its argument with. */
  lemma KnownCall(past: History, f: Val, bt: seq<Locals>)
    requires Known(past, f) && (bt == [] || bt in past)
    ensures Known(past, Cons(f, Cons(Cont(bt), Nil)))
  {
    assert Known(past, Cont(bt));
    assert Known(past, Cons(Cont(bt), Nil));
  }

  lemma {:induction false} KnownList(past: History, vs: seq<Val>)
    requires forall i :: 0 <= i < |vs| ==> Known(past, vs[i])
    ensures Known(past, ListOf(vs)) && Known(past, Car(ListOf(vs)))
  {
    if vs != [] {
      KnownList(past, vs[1..]);
    }
  }

  lemma {:induction false} KnownBind(past: History, s: Heap, h: nat, vars: Val, args: Val)
    requires KnownHeap(past, s) && Known(past, args)
    ensures KnownHeap(past, LambdaBind(s, h, vars, args).1)
    decreases vars
  {
    if vars.Cons? && args.Cons? && vars.car.Sym? {
      KnownBind(past, BindOne(s, h, vars.car.name, args.car), h, vars.cdr, args.cdr);
    }
  }

  lemma KnownFrame(past: History, s: Heap, env: Env)
    requires KnownHeap(past, s)
    ensures KnownHeap(past, CallFrame(s, env))
  {
  }

  // ----- the steps

  /** What a step leaves is sane, with the pushed frame list as part of the history. */
  ghost predicate StepsTo(past: History, next: Machine) {
    Sane(Pushed(past, next), next)
  }

  /** A step that leaves everything known needs no longer history. */
  lemma Settled(past: History, next: Machine)
    requires Sane(past, next)
    ensures StepsTo(past, next)
  {
    hide Known, Fits, KnownHeap, KnownLocals;
    if IsPush(next) {
      assert past + {next.frames} == past;
    }
  }

  lemma PushSane(past: History, m: Machine, lab: Label, input: Val)
    requires Sound(past) && Traced(past, m) && m.status == EVAL_OK && Fits(lab, m.locals) && Known(past, input)
    ensures StepsTo(past, PushEval(m, lab, input))
  {
    hide Known, KnownHeap;
    var p := PushEval(m, lab, input);
    var more := past + {p.frames};
    assert p.frames[1..] == m.frames;
    assert Caller(p) == p.(locals := p.frames[0], frames := m.frames);
    assert IsPush(p);
    assert Resumable(past, p.frames);
    SoundMore(past, p.frames);
    KnownMore(past, more, m.result);
    KnownMore(past, more, input);
    HeapMore(past, more, m.store);
    KnownAtoms(more);
  }

  lemma RestartSane(past: History, m: Machine)
    requires Sane(past, m) && m.pc == Restart
    ensures StepsTo(past, StepRestart(m))
  {
    hide Known, Pushed, Resumable;
    KnownParts(past, m.locals.input);
    if m.locals.input.Cons? && ListLike(m.locals.input.cdr) {
      PushSane(past, m, PostFunc, m.locals.input.car);
    } else {
      Settled(past, StepRestart(m));
    }
  }

  /** call/cc goes on with a call that has the new continuation as its argument. */
  lemma CallCcSettles(past: History, m: Machine)
    requires Sane(past, m) && m.pc == At(PostFunc) && m.status == EVAL_OK && m.result == Special(MK_CONT)
    ensures Sane(past, StepPostFunc(m))
  {
    hide Known, KnownHeap, Sound;
    KnownAtoms(past);
    KnownParts(past, m.locals.input);
    KnownParts(past, Cdr(m.locals.input));
    KnownCall(past, Car(Cdr(m.locals.input)), m.frames);
  }

  /** The special functions that do not push a frame, and all other functions. */
  lemma PostFuncSettles(past: History, m: Machine)
    requires Sane(past, m) && m.pc == At(PostFunc)
    requires m.status == EVAL_OK ==> m.result !in {Special(IF), Special(DEF), Special(SET), Special(MK_CONT)}
    ensures Sane(past, StepPostFunc(m))
  {
    hide Known, KnownHeap, Sound;
    var args := Cdr(m.locals.input);
    KnownAtoms(past);
    KnownParts(past, m.locals.input);
    KnownParts(past, args);
    KnownLambda(past, m.store.At(Handle(m)), Car(args), Cdr(args));
  }

  lemma AssignSane(past: History, m: Machine)
    requires Sane(past, m) && m.pc == At(PostFunc) && m.status == EVAL_OK && m.result in {Special(DEF), Special(SET)}
    ensures StepsTo(past, StepPostFunc(m))
  {
    hide Known, KnownHeap, Pushed, Resumable, StepsTo;
    var args := Cdr(m.locals.input);
    KnownParts(past, m.locals.input);
    KnownParts(past, args);
    KnownParts(past, Cdr(args));
    KnownAtoms(past);
    if Car(args).Sym? && Cdr(args).Cons? {
      PushSane(past, m.(locals := m.locals.(func := m.result, cursor := Car(args))), PostValue, Car(Cdr(args)));
    } else {
      Settled(past, StepPostFunc(m));
    }
  }

  lemma PostFuncSane(past: History, m: Machine)
    requires Sane(past, m) && m.pc == At(PostFunc)
    ensures StepsTo(past, StepPostFunc(m))
  {
    hide Known, KnownHeap, Pushed, Resumable, StepsTo;
    if m.status == EVAL_OK && m.result == Special(IF) {
      KnownParts(past, m.locals.input);
      KnownParts(past, Cdr(m.locals.input));
      KnownAtoms(past);
      PushSane(past, m.(locals := m.locals.(func := m.result)), PostTest, Car(Cdr(m.locals.input)));
    } else if m.status == EVAL_OK && (m.result == Special(DEF) || m.result == Special(SET)) {
      AssignSane(past, m);
    } else if m.status == EVAL_OK && m.result == Special(MK_CONT) {
      CallCcSettles(past, m);
      Settled(past, StepPostFunc(m));
    } else {
      PostFuncSettles(past, m);
      Settled(past, StepPostFunc(m));
    }
  }

  lemma PostTestSane(past: History, m: Machine)
    requires Sane(past, m) && m.pc == At(PostTest)
    ensures StepsTo(past, StepPostTest(m))
  {
    hide Known, KnownHeap, Pushed, Resumable, StepsTo;
    var args := Cdr(m.locals.input);
    KnownAtoms(past);
    KnownParts(past, m.locals.input);
    KnownParts(past, args);
    KnownParts(past, Cdr(args));
    KnownParts(past, Cdr(Cdr(args)));
    Settled(past, StepPostTest(m));
  }

  lemma ArgSane(past: History, m: Machine)
    requires Sane(past, m)
    ensures m.pc == ArgsLoop ==> StepsTo(past, StepArgsLoop(m))
    ensures m.pc == At(PostArg) ==> StepsTo(past, StepPostArg(m))
  {
    hide Known, KnownHeap, Pushed, Resumable, StepsTo;
    KnownParts(past, m.locals.cursor);
    if m.pc == ArgsLoop && m.locals.cursor.Cons? {
      PushSane(past, m, PostArg, m.locals.cursor.car);
    } else if m.pc == ArgsLoop {
      Settled(past, StepArgsLoop(m));
    } else if m.pc == At(PostArg) {
      Settled(past, StepPostArg(m));
    }
  }

  lemma ApplySane(past: History, fo: ForeignFns, m: Machine)
    requires Sane(past, m) && m.pc == Apply && !CallsForeign(m)
    ensures StepsTo(past, StepApply(fo, m))
  {
    hide Known, KnownHeap, Pushed, Resumable, StepsTo;
    KnownAtoms(past);
    KnownList(past, m.locals.newargs);
    match m.locals.func {
      case Lambda(env, vars, expr) =>
        KnownLambda(past, env, vars, expr);
        KnownFrame(past, m.store, env);
        var s := if m.locals.state.tail then m.store else CallFrame(m.store, env);
        var h := if m.locals.state.tail then Handle(m) else |m.store.hdls|;
        KnownBind(past, s, h, vars, ListOf(m.locals.newargs));
      case Cont(bt) => KnownCont(past, bt);
      case _ =>
    }
    Settled(past, StepApply(fo, m));
  }

  lemma KnownCont(past: History, bt: seq<Locals>)
    ensures Known(past, Cont(bt)) <==> bt == [] || bt in past
  {
  }

  lemma ForeignSane(past: History, fo: ForeignFns, m: Machine)
    requires ForeignKnown(fo) && Sane(past, m) && CallsForeign(m)
    ensures Sane(Made(past, fo, m), Step(fo, m))
  {
    hide Known, KnownHeap, Sound;
    KnownList(past, m.locals.newargs);
    var more := Made(past, fo, m);
    assert CallKnown(past, fo, m.locals.func.id, ListOf(m.locals.newargs), m.store, Handle(m));
    assert ForeignAdds(past, more, fo, m.locals.func.id, ListOf(m.locals.newargs), m.store, Handle(m));
    LocalsMore(past, more, m.locals);
  }

  lemma BodySane(past: History, m: Machine)
    requires Sane(past, m)
    ensures m.pc == BodyLoop ==> StepsTo(past, StepBodyLoop(m))
    ensures m.pc == At(PostExpr) ==> StepsTo(past, StepPostExpr(m))
  {
    hide Known, KnownHeap, Pushed, Resumable, StepsTo;
    KnownAtoms(past);
    KnownParts(past, m.locals.cursor);
    if m.pc == BodyLoop && m.locals.cursor.Cons? && m.locals.cursor.cdr != Nil {
      PushSane(past, m, PostExpr, m.locals.cursor.car);
    } else if m.pc == BodyLoop {
      Settled(past, StepBodyLoop(m));
    } else if m.pc == At(PostExpr) {
      Settled(past, StepPostExpr(m));
    }
  }

  lemma ValueSane(past: History, m: Machine)
    requires Sane(past, m) && m.pc == At(PostValue)
    ensures StepsTo(past, StepPostValue(m))
  {
    hide Known, Pushed, Resumable, StepsTo;
    Settled(past, StepPostValue(m));
  }

  lemma CleanupSane(past: History, m: Machine)
    requires Sane(past, m) && m.pc == Cleanup
    ensures StepsTo(past, m.(locals := m.locals.(func := Nil, newargs := []), pc := Finish))
  {
    hide Known, KnownHeap, Pushed, Resumable, StepsTo;
    KnownAtoms(past);
    Settled(past, m.(locals := m.locals.(func := Nil, newargs := []), pc := Finish));
  }

  lemma ReturnSane(past: History, m: Machine)
    requires Sane(past, m)
    ensures m.pc == Finish ==> StepsTo(past, StepFinish(m))
    ensures m.pc == Return ==> StepsTo(past, StepReturn(m))
  {
    hide Known, Pushed, StepsTo;
    if m.pc == Finish {
      Settled(past, StepFinish(m));
    } else if m.pc == Return {
      assert m.frames != [] ==> Resumable(past, m.frames);
      Settled(past, StepReturn(m));
    }
  }

  /** The steps that call no foreign function. */
  lemma OwnStepSane(past: History, fo: ForeignFns, m: Machine)
    requires Sane(past, m) && !CallsForeign(m)
    ensures StepsTo(past, Step(fo, m))
  {
    hide Traced, StepsTo, Sound;
    match m.pc {
      case Restart => RestartSane(past, m);
      case At(PostFunc) => PostFuncSane(past, m);
      case At(PostTest) => PostTestSane(past, m);
      case At(PostValue) => ValueSane(past, m);
      case At(PostArg) => ArgSane(past, m);
      case At(PostExpr) => BodySane(past, m);
      case ArgsLoop => ArgSane(past, m);
      case Apply => ApplySane(past, fo, m);
      case BodyLoop => BodySane(past, m);
      case Cleanup => CleanupSane(past, m);
      case Finish => ReturnSane(past, m);
      case Return => ReturnSane(past, m);
      case _ => Settled(past, m);
    }
  }

  lemma StepSane(past: History, fo: ForeignFns, m: Machine)
    requires ForeignKnown(fo) && Sane(past, m)
    ensures Sane(Grow(past, fo, m), Step(fo, m))
  {
    hide Sane, Step, ForeignKnown, Pushed, Made;
    if CallsForeign(m) {
      ForeignSane(past, fo, m);
    } else {
      OwnStepSane(past, fo, m);
    }
  }

  // ----- whole runs

  /** The history behind n more steps. */
  ghost function Later(past: History, fo: ForeignFns, m: Machine, n: nat): History
    decreases n
  {
    if n == 0 then past else Later(Grow(past, fo, m), fo, Step(fo, m), n - 1)
  }

  lemma {:induction false} RunSane(past: History, fo: ForeignFns, m: Machine, n: nat)
    requires ForeignKnown(fo) && Sane(past, m)
    ensures Sane(Later(past, fo, m, n), Run(fo, m, n))
    decreases n
  {
    hide Sane, Step, Grow, ForeignKnown;
    if n > 0 {
      StepSane(past, fo, m);
      RunSane(Grow(past, fo, m), fo, Step(fo, m), n - 1);
    }
  }

  /** The frame list was pushed by step j of the run, or left by a foreign function that this step has called. */
  ghost predicate CameFrom(past: History, fo: ForeignFns, m: Machine, j: nat, frames: seq<Locals>) {
    && j > 0 && frames !in Later(past, fo, m, j - 1)
    && var p := Run(fo, m, j - 1);
       if CallsForeign(p) then frames in Made(Later(past, fo, m, j - 1), fo, p)
       else IsPush(Run(fo, m, j)) && Run(fo, m, j).frames == frames
  }

  /** Every frame list of the history was pushed by some step of the run, or left by a foreign function. */
  lemma {:induction false} Origin(past: History, fo: ForeignFns, m: Machine, n: nat, frames: seq<Locals>)
      returns (j: nat)
    requires frames in Later(past, fo, m, n) && frames !in past
    ensures j <= n && CameFrom(past, fo, m, j, frames)
    decreases n
  {
    hide Step, IsPush, Made;
    var k := Step(fo, m);
    if frames in Grow(past, fo, m) {
      j := 1;
      OneStep(fo, m);
      assert Later(past, fo, m, 0) == past && Run(fo, m, 0) == m;
    } else {
      j := Origin(Grow(past, fo, m), fo, k, n - 1, frames);
      assert Later(past, fo, m, j) == Later(Grow(past, fo, m), fo, k, j - 1);
      assert Run(fo, m, j) == Run(fo, k, j - 1) && Run(fo, m, j + 1) == Run(fo, k, j);
      j := j + 1;
    }
  }

  lemma StartSane(past: History, s: Heap, hdl: nat, input: Val)
    requires Sound(past) && KnownHeap(past, s) && Known(past, input)
    ensures Sane(past, Start(s, hdl, input))
  {
  }

  /** In every run, with continuations resumed at any time, the machine's own assertions hold: a popped frame
      has a label and the locals for it. The run may begin where an earlier one has ended, with its
      continuations, and leaves behind what the next one can begin with. */
  lemma FramesAreTyped(past: History, fo: ForeignFns, s: Heap, hdl: nat, input: Val, n: nat)
    requires ForeignKnown(fo) && Sound(past) && KnownHeap(past, s) && Known(past, input)
    ensures var m := Run(fo, Start(s, hdl, input), n);
      var now := Later(past, fo, Start(s, hdl, input), n);
      && m.pc != AbortFrame
      && (m.pc == Return && m.frames != [] ==>
          m.frames[0].restart.Some? && Fits(m.frames[0].restart.value, m.frames[0]))
      && Sound(now) && KnownHeap(now, m.store) && Known(now, m.result)
  {
    hide Known, KnownHeap, Fits, Later;
    KnownAtoms(past);
    RunSane(past, fo, Start(s, hdl, input), n);
    var m := Run(fo, Start(s, hdl, input), n);
    assert m.frames != [] ==> Resumable(Later(past, fo, Start(s, hdl, input), n), m.frames);
  }

  // ----- continuations

  /** The environments when a continuation takes over: the current activation's own frame is popped. */
  function Left(m: Machine): Heap {
    if m.locals.state.added then m.store.Pop(Handle(m)) else m.store
  }

  lemma FourSteps(fo: ForeignFns, m: Machine)
    ensures Run(fo, m, 4) == Step(fo, Step(fo, Step(fo, Step(fo, m))))
  {
    hide Step;
    Join(fo, m, 1, 3);
    Join(fo, Step(fo, m), 1, 2);
    OneStep(fo, m);
    OneStep(fo, Step(fo, m));
    Join(fo, Step(fo, Step(fo, m)), 1, 1);
    OneStep(fo, Step(fo, Step(fo, m)));
    OneStep(fo, Step(fo, Step(fo, Step(fo, m))));
  }

  /** Applying a continuation gives up the current activation and is about to return to the frames it holds. */
  lemma ContinuationLeaves(fo: ForeignFns, m: Machine)
    requires m.pc == Apply && m.locals.func.Cont?
    ensures Returns(Step(fo, Step(fo, Step(fo, m))), Out(m.status, Car(ListOf(m.locals.newargs)), Left(m)),
      m.locals.func.bt)
  {
    var c := Step(fo, m);
    assert c == m.(frames := m.locals.func.bt, result := Car(ListOf(m.locals.newargs)), pc := Cleanup);
  }

  /** Applying a continuation to any value, at any time: the machine is at the label of the frame it was made
      under, with the locals and frames of that time, the value as result, and the environments of now. This is
      where the inner expression under which it was made gets to when that has the value. */
  lemma ContinuationResumes(fo: ForeignFns, m: Machine, q: Machine, lab: Label)
    requires m.pc == Apply && m.locals.func == Cont([q.locals.(restart := Some(lab))] + q.frames)
    ensures Run(fo, m, 4) == Resumed(q, lab, Out(m.status, Car(ListOf(m.locals.newargs)), Left(m)))
  {
    FourSteps(fo, m);
    ContinuationLeaves(fo, m);
    var r := Step(fo, Step(fo, Step(fo, m)));
    assert r.frames[0] == q.locals.(restart := Some(lab)) && r.frames[1..] == q.frames;
    assert Step(fo, r) == StepReturn(r);
  }

  /** A continuation of the outermost expression ends the evaluation with the value. */
  lemma ContinuationEnds(fo: ForeignFns, m: Machine)
    requires m.pc == Apply && m.locals.func == Cont([])
    ensures var r := Run(fo, m, 4);
      r.pc == Halt && Out(r.status, r.result, r.store) == Out(m.status, Car(ListOf(m.locals.newargs)), Left(m))
  {
    FourSteps(fo, m);
    ContinuationLeaves(fo, m);
  }

  /** Whatever happens between the time at which the inner expression e makes a continuation and the time at
      which it is applied, and whichever frames there are then: its value is the value of e. */
  lemma ContinuationOfInner(fo: ForeignFns, q: Machine, lab: Label, e: Val, made: nat, used: nat)
    requires var p := PushEval(q, lab, e);
      var c := Run(fo, p, made);
      var m := Run(fo, p, made + used);
      && c.pc == At(PostFunc) && c.status == EVAL_OK && c.result == Special(MK_CONT) && c.frames == p.frames
      && m.pc == Apply && m.locals.func == Cont(c.frames)
    ensures var m := Run(fo, PushEval(q, lab, e), made + used);
      Run(fo, PushEval(q, lab, e), made + used + 4)
        == Resumed(q, lab, Out(m.status, Car(ListOf(m.locals.newargs)), Left(m)))
  {
    hide Step, Left;
    var p := PushEval(q, lab, e);
    ContinuationResumes(fo, Run(fo, p, made + used), q, lab);
    Join(fo, p, made + used, 4);
  }

  /** What applying a continuation to a value does: without frames it ends the evaluation with the value, else
      the machine is at the label of the top frame, with the locals and frames of that time, the value as result,
      and the environments of now. */
  ghost predicate Resumes(m: Machine, r: Machine) {
    m.pc == Apply && m.locals.func.Cont? &&
    var bt := m.locals.func.bt;
    var out := Out(EVAL_OK, Car(ListOf(m.locals.newargs)), Left(m));
    if bt == [] then r.pc == Halt && Out(r.status, r.result, r.store) == out
    else
      && bt[0].restart.Some? && Fits(bt[0].restart.value, bt[0])
      && r == Machine(At(bt[0].restart.value), EVAL_OK, bt[0], bt[1..], out.result, out.store)
  }

  /** If its frames were pushed by a step for an inner expression, the machine is as that step's caller is
      when the inner expression has this value. */
  lemma ResumesCaller(m: Machine, r: Machine, p: Machine)
    requires Resumes(m, r) && IsPush(p) && p.frames == m.locals.func.bt
    ensures r == Resumed(Caller(p), p.frames[0].restart.value,
                         Out(EVAL_OK, Car(ListOf(m.locals.newargs)), Left(m)))
  {
  }

  lemma ContMeans(past: History, fo: ForeignFns, m: Machine)
    requires Sane(past, m) && m.pc == Apply && m.locals.func.Cont?
    ensures Resumes(m, Run(fo, m, 4)) && (m.locals.func.bt == [] || m.locals.func.bt in past)
  {
    hide Step, Left, Known, KnownHeap, KnownLocals, Fits;
    var bt := m.locals.func.bt;
    assert Known(past, m.locals.func) by {
      FuncKnown(past, m);
    }
    KnownCont(past, bt);
    if bt == [] {
      ContinuationEnds(fo, m);
    } else {
      assert Resumable(past, bt);
      var lab := bt[0].restart.value;
      var q := m.(locals := bt[0], frames := bt[1..]);
      assert bt == [q.locals.(restart := Some(lab))] + q.frames;
      ContinuationResumes(fo, m, q, lab);
    }
  }

  lemma FuncKnown(past: History, m: Machine)
    requires Sane(past, m)
    ensures Known(past, m.locals.func)
  {
  }

  /** In every run of eval, whatever earlier runs have left, every continuation that is ever applied was saved
      by one of them, or under a frame that an earlier step of this run has pushed, or by a foreign function
      that this run has called; and applying it to any value resumes the context in which it was made. */
  lemma ContinuationMeaning(past: History, fo: ForeignFns, s: Heap, hdl: nat, input: Val, n: nat) returns (j: nat)
    requires ForeignKnown(fo) && Sound(past) && KnownHeap(past, s) && Known(past, input)
    requires Run(fo, Start(s, hdl, input), n).pc == Apply && Run(fo, Start(s, hdl, input), n).locals.func.Cont?
    ensures var m := Run(fo, Start(s, hdl, input), n);
      var bt := m.locals.func.bt;
      && Resumes(m, Run(fo, Start(s, hdl, input), n + 4))
      && (bt == [] || bt in past || (j <= n && CameFrom(past, fo, Start(s, hdl, input), j, bt)))
  {
    hide Step, Resumes, Known, KnownHeap, ForeignKnown, Later, Sane, CameFrom;
    var start := Start(s, hdl, input);
    var m := Run(fo, start, n);
    StartSane(past, s, hdl, input);
    RunSane(past, fo, start, n);
    Join(fo, start, n, 4);
    ContMeans(Later(past, fo, start, n), fo, m);
    j := 0;
    if m.locals.func.bt != [] && m.locals.func.bt !in past {
      j := Origin(past, fo, start, n, m.locals.func.bt);
    }
  }

  // ----- sessions

  /** One call of eval, and for how many steps it goes on. */
  datatype Call = Call(hdl: nat, input: Val, steps: nat)

  function CallStart(s: Heap, c: Call): Machine {
    Start(s, c.hdl, c.input)
  }

  /** The environments behind some calls of eval, one after the other. */
  function HeapAfter(fo: ForeignFns, s: Heap, calls: seq<Call>): Heap
    decreases |calls|
  {
    if calls == [] then s
    else HeapAfter(fo, Run(fo, CallStart(s, calls[0]), calls[0].steps).store, calls[1..])
  }

  ghost function PastAfter(past: History, fo: ForeignFns, s: Heap, calls: seq<Call>): History
    decreases |calls|
  {
    if calls == [] then past
    else
      var start := CallStart(s, calls[0]);
      PastAfter(Later(past, fo, start, calls[0].steps), fo, Run(fo, start, calls[0].steps).store, calls[1..])
  }

  /** What is evaluated holds no continuations, as program text does not. */
  ghost predicate PlainInputs(calls: seq<Call>) {
    forall i :: 0 <= i < |calls| ==> Known({}, calls[i].input)
  }

  lemma {:induction false} SessionSane(past: History, fo: ForeignFns, s: Heap, calls: seq<Call>)
    requires ForeignKnown(fo) && Sound(past) && KnownHeap(past, s) && PlainInputs(calls)
    ensures Sound(PastAfter(past, fo, s, calls)) && KnownHeap(PastAfter(past, fo, s, calls), HeapAfter(fo, s, calls))
    decreases |calls|
  {
    hide Known, KnownHeap, ForeignKnown, Sound, Later;
    if calls != [] {
      var c := calls[0];
      KnownMore({}, past, c.input);
      FramesAreTyped(past, fo, s, c.hdl, c.input, c.steps);
      SessionSane(Later(past, fo, CallStart(s, c), c.steps), fo, Run(fo, CallStart(s, c), c.steps).store, calls[1..]);
    }
  }

  /** The frame list came from step j of the i-th call. */
  ghost predicate CameFromCall(past: History, fo: ForeignFns, s: Heap, calls: seq<Call>, i: nat, j: nat,
    frames: seq<Locals>)
  {
    && i < |calls| && j <= calls[i].steps
    && CameFrom(PastAfter(past, fo, s, calls[..i]), fo, CallStart(HeapAfter(fo, s, calls[..i]), calls[i]), j, frames)
  }

  lemma {:induction false} SessionOrigin(past: History, fo: ForeignFns, s: Heap, calls: seq<Call>, frames: seq<Locals>)
      returns (i: nat, j: nat)
    requires frames in PastAfter(past, fo, s, calls) && frames !in past
    ensures CameFromCall(past, fo, s, calls, i, j, frames)
    decreases |calls|
  {
    hide Later, CameFrom;
    var c := calls[0];
    var start := CallStart(s, c);
    var more := Later(past, fo, start, c.steps);
    if frames in more {
      i := 0;
      j := Origin(past, fo, start, c.steps, frames);
      assert calls[..0] == [];
    } else {
      var t := Run(fo, start, c.steps).store;
      i, j := SessionOrigin(more, fo, t, calls[1..], frames);
      assert calls[..i + 1][0] == c && calls[..i + 1][1..] == calls[1..][..i];
      i := i + 1;
    }
  }

  /** A program of many forms, each of them a call of eval on the environments that the forms before it have
      left: every continuation that is ever applied was saved in this form or in an earlier one. */
  lemma SessionMeaning(fo: ForeignFns, s: Heap, calls: seq<Call>, last: Call) returns (i: nat, j: nat)
    requires ForeignKnown(fo) && KnownHeap({}, s) && PlainInputs(calls + [last])
    requires var m := Run(fo, CallStart(HeapAfter(fo, s, calls), last), last.steps);
      m.pc == Apply && m.locals.func.Cont?
    ensures var start := CallStart(HeapAfter(fo, s, calls), last);
      var bt := Run(fo, start, last.steps).locals.func.bt;
      && Resumes(Run(fo, start, last.steps), Run(fo, start, last.steps + 4))
      && (bt == [] || CameFromCall({}, fo, s, calls + [last], i, j, bt))
  {
    hide Known, KnownHeap, ForeignKnown, Resumes, CameFrom;
    var past, t := PastAfter({}, fo, s, calls), HeapAfter(fo, s, calls);
    var bt := Run(fo, CallStart(t, last), last.steps).locals.func.bt;
    assert (calls + [last])[|calls|] == last && forall x :: 0 <= x < |calls| ==> (calls + [last])[x] == calls[x];
    SessionSane({}, fo, s, calls);
    KnownMore({}, past, last.input);
    i := |calls|;
    j := ContinuationMeaning(past, fo, t, last.hdl, last.input, last.steps);
    assert (calls + [last])[..i] == calls;
    if bt != [] && bt in past {
      i, j := SessionOrigin({}, fo, s, calls, bt);
      assert (calls + [last])[..i] == calls[..i];
    }
  }

  // ----- a foreign function that evaluates

  /** Foreign functions like fo, and one more that evaluates its first argument, for so many steps. */
  function WithEval(fo: ForeignFns, self: nat, steps: nat): ForeignFns {
    (id: nat, args: Val, s: Heap, h: nat) =>
      if id != self then fo(id, args, s, h)
      else
        var m := Run(fo, Start(s, h, Car(args)), steps);
        (m.status, m.result, m.store)
  }

  /** Evaluating in a foreign function only leaves continuations that can be resumed. */
  lemma EvalIsKnown(fo: ForeignFns, self: nat, steps: nat)
    requires ForeignKnown(fo)
    ensures ForeignKnown(WithEval(fo, self, steps))
  {
    hide Known, KnownHeap, Sound, Later;
    var fn := WithEval(fo, self, steps);
    forall past: History, id: nat, args: Val, s: Heap, h: nat
      ensures CallKnown(past, fn, id, args, s, h)
    {
      if Sound(past) && Known(past, args) && KnownHeap(past, s) {
        if id == self {
          KnownParts(past, args);
          FramesAreTyped(past, fo, s, h, Car(args), steps);
          LaterMore(past, fo, Start(s, h, Car(args)), steps);
          assert ForeignAdds(past, Later(past, fo, Start(s, h, Car(args)), steps), fn, id, args, s, h);
        } else {
          assert CallKnown(past, fo, id, args, s, h);
          var more: History :| ForeignAdds(past, more, fo, id, args, s, h);
          assert ForeignAdds(past, more, fn, id, args, s, h);
        }
      }
    }
  }

  lemma {:induction false} LaterMore(past: History, fo: ForeignFns, m: Machine, n: nat)
    ensures past <= Later(past, fo, m, n)
    decreases n
  {
    hide Step, IsPush;
    if n > 0 {
      LaterMore(Grow(past, fo, m), fo, Step(fo, m), n - 1);
    }
  }
}
