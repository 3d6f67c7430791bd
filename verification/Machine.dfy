/** The evaluator as it is: one loop over labels, with saved frames instead of recursion. */
module Machine {
  import opened Options
  import opened Eval

  /** The labels of the original, the points where it falls through between them, and its failed assertions. */
  datatype Pc =
    | Restart
    | At(resume: Label)
    | ArgsLoop
    | Apply
    | BodyLoop
    | Cleanup
    | Finish
    | Return
    | Halt
    | Quit           // eval has returned from the middle, without handing out a result
    | Abort          // an assertion about the evaluated program fails
    | AbortFrame     // an assertion about the machine's own frames fails

  datatype Machine = Machine(pc: Pc, status: Err, locals: Locals, frames: seq<Locals>, result: Val, store: Heap)

  /** The result register and the status become the outcome; the evaluation is over. */
  function Ends(m: Machine, status: Err, result: Val): Machine {
    m.(status := status, result := result, pc := Cleanup)
  }

  /** frame_push with fresh locals that hold the caller's environment handle and an inner expression. */
  function PushEval(m: Machine, lab: Label, input: Val): Machine {
    m.(frames := [m.locals.(restart := Some(lab))] + m.frames,
       locals := Locals(NO_FLAGS, None, Nil, [], m.locals.envHdl, Nil, input),
       pc := Restart)
  }

  /** node_cons_car and node_cons_cdr assert that their argument is a cons, or nil. */
  predicate ListLike(v: Val) {
    v.Nil? || v.Cons?
  }

  function Handle(m: Machine): nat {
    if m.locals.envHdl.Some? then m.locals.envHdl.value else |m.store.hdls|
  }

  function StepRestart(m: Machine): Machine {
    match m.locals.input
    case Sym(name) =>
      var v := m.store.Lookup(m.store.At(Handle(m)), name);
      if v.Some? then m.(result := v.value, pc := Finish)
      else m.(result := m.locals.input, status := EVAL_ERR_UNRESOLVED_SYMBOL, pc := Finish)
    case Cons(fe, args) =>
      if !args.Nil? && !args.Cons? then Ends(m, EVAL_ERR_EXPECTED_CONS, args)
      else PushEval(m, PostFunc, fe)
    case _ => m.(result := m.locals.input, pc := Finish)
  }

  /** The function position is evaluated. */
  function StepPostFunc(m: Machine): Machine {
    if m.status != EVAL_OK then m.(pc := Cleanup)
    else if !ListLike(m.locals.input) || !ListLike(Cdr(m.locals.input)) then m.(pc := AbortFrame)
    else
      var f := m.result;
      var n := m.(locals := m.locals.(func := f));
      var args := Cdr(m.locals.input);
      if f == Special(IF) then PushEval(n, PostTest, Car(args))
      else if f == Special(LAMBDA) then Ends(n, EVAL_OK, Lambda(m.store.At(Handle(m)), Car(args), Cdr(args)))
      else if f == Special(QUOTE) then
        if Cdr(args) != Nil then Ends(n, EVAL_ERR_TOO_MANY_ARGS, Cdr(args)) else Ends(n, EVAL_OK, Car(args))
      else if f == Special(MK_CONT) then
        n.(locals := n.locals.(input := Cons(Car(args), Cons(Cont(m.frames), Nil)),
                               state := m.locals.state.(newInput := true), func := Nil),
           pc := Restart)
      else if f == Special(DEF) || f == Special(SET) then
        var c := n.(locals := n.locals.(cursor := Car(args)));
        if !Car(args).Sym? then Ends(c, EVAL_ERR_EXPECTED_SYMBOL, Car(args))
        else if !Cdr(args).Cons? then c.(status := EVAL_ERR_EXPECTED_CONS, result := Cdr(args), pc := Quit)
        else PushEval(c, PostValue, Car(Cdr(args)))
      else n.(locals := n.locals.(newargs := [], cursor := args), pc := ArgsLoop)
  }

  /** The test of an if is evaluated. */
  function StepPostTest(m: Machine): Machine {
    if m.status != EVAL_OK then m.(pc := Cleanup)
    else if !ListLike(m.locals.input) || !ListLike(Cdr(m.locals.input)) then m.(pc := AbortFrame)
    else
      var rest := Cdr(Cdr(m.locals.input));
      if m.result == Nil && !rest.Cons? then Ends(m, EVAL_ERR_EXPECTED_CONS, rest)
      else
        var branch := if m.result != Nil then rest else rest.cdr;
        if !branch.Cons? then Ends(m, EVAL_ERR_EXPECTED_CONS, branch)
        else
          var fl := m.locals.state;
          m.(result := if m.result != Nil then Nil else m.result,
             locals := m.locals.(input := if fl.newInput then Nil else branch.car, func := Nil,
                                 state := Flags(true, fl.added, false)),
             pc := Restart)
  }

  /** The value of a def! or set! is evaluated. */
  function StepPostValue(m: Machine): Machine {
    if m.status != EVAL_OK then m.(pc := Cleanup)
    else if !m.locals.func.Special? || !m.locals.cursor.Sym? then m.(pc := AbortFrame)
    else
      var out := Assign(m.store, Handle(m), m.locals.func.s, m.locals.cursor, m.result);
      Ends(m.(store := out.store), out.status, out.result)
  }

  function StepArgsLoop(m: Machine): Machine {
    match m.locals.cursor
    case Nil => m.(pc := Apply)
    case Cons(e, _) => PushEval(m, PostArg, e)
    case _ => m.(pc := Abort)
  }

  /** An argument is evaluated: append it and go on with the next. */
  function StepPostArg(m: Machine): Machine {
    if m.status != EVAL_OK then m.(locals := m.locals.(newargs := []), pc := Cleanup)
    else if !m.locals.cursor.Cons? then m.(pc := AbortFrame)
    else m.(locals := m.locals.(newargs := m.locals.newargs + [m.result], cursor := m.locals.cursor.cdr),
      pc := ArgsLoop)
  }

  function StepApply(fo: ForeignFns, m: Machine): Machine {
    var vals := m.locals.newargs;
    match m.locals.func
    case Special(DEFINED) =>
      var known := vals != [] && vals[0].Sym? && m.store.Find(m.store.At(Handle(m)), vals[0].name).Some?;
      Ends(m, EVAL_OK, if known then Int(1) else m.result)
    case Special(EVAL) => m.(locals := m.locals.(input := Car(ListOf(vals))), pc := Restart)
    case Special(_) => m.(pc := AbortFrame)
    case Foreign(id) =>
      var (status, v, t) := fo(id, ListOf(vals), m.store, Handle(m));
      Ends(m.(store := t), status, v)
    case Cont(bt) => Ends(m.(frames := bt), m.status, Car(ListOf(vals)))
    case Lambda(_, _, expr) =>
      var e := Enter(m.store, m.locals.state, Handle(m), m.locals.func, vals);
      var n := m.(store := e.store, locals := m.locals.(
                    state := e.flags, envHdl := if m.locals.state.tail then m.locals.envHdl else Some(e.hdl)));
      if e.status != EVAL_OK then Ends(n, e.status, m.locals.func)
      else n.(locals := n.locals.(cursor := expr), pc := BodyLoop)
    case _ => Ends(m, EVAL_ERR_UNKNOWN_FUNCALL, m.locals.func)
  }

  /** The next expression of a body; the last one takes over the activation. */
  function StepBodyLoop(m: Machine): Machine {
    if !m.locals.cursor.Cons? then m.(pc := Abort)
    else if m.locals.cursor.cdr == Nil then
      m.(locals := m.locals.(state := Flags(true, m.locals.state.added, false), input := m.locals.cursor.car,
                             newargs := [], func := Nil),
         pc := Restart)
    else PushEval(m, PostExpr, m.locals.cursor.car)
  }

  function StepPostExpr(m: Machine): Machine {
    if m.status != EVAL_OK then m.(pc := Cleanup)
    else if !m.locals.cursor.Cons? then m.(pc := AbortFrame)
    else m.(result := Nil, locals := m.locals.(cursor := m.locals.cursor.cdr), pc := BodyLoop)
  }

  function StepFinish(m: Machine): Machine {
    if m.locals.state.added
    then m.(store := m.store.Pop(Handle(m)), locals := m.locals.(envHdl := None), pc := Return)
    else m.(pc := Return)
  }

  /** frame_pop, and on to the label that was saved. */
  function StepReturn(m: Machine): Machine {
    if m.frames == [] then m.(pc := Halt)
    else
      var l := m.frames[0];
      m.(locals := l, frames := m.frames[1..], pc := if l.restart.Some? then At(l.restart.value) else AbortFrame)
  }

  function Step(fo: ForeignFns, m: Machine): Machine {
    match m.pc
    case Restart => StepRestart(m)
    case At(PostFunc) => StepPostFunc(m)
    case At(PostTest) => StepPostTest(m)
    case At(PostValue) => StepPostValue(m)
    case At(PostArg) => StepPostArg(m)
    case At(PostExpr) => StepPostExpr(m)
    case ArgsLoop => StepArgsLoop(m)
    case Apply => StepApply(fo, m)
    case BodyLoop => StepBodyLoop(m)
    case Cleanup => m.(locals := m.locals.(func := Nil, newargs := []), pc := Finish)
    case Finish => StepFinish(m)
    case Return => StepReturn(m)
    case _ => m
  }

  /** n steps of the machine. */
  function Run(fo: ForeignFns, m: Machine, n: nat): Machine
    decreases n
  {
    if n == 0 then m else Run(fo, Step(fo, m), n - 1)
  }

  /** The machine is about to make a continuation or to resume one. */
  predicate UsesCont(m: Machine) {
    || (m.pc == At(PostFunc) && m.status == EVAL_OK && m.result == Special(MK_CONT))
    || (m.pc == Apply && m.locals.func.Cont?)
  }

  /** None of the first n steps makes or resumes a continuation. */
  predicate Plain(fo: ForeignFns, m: Machine, n: nat)
    decreases n
  {
    n == 0 || (!UsesCont(m) && Plain(fo, Step(fo, m), n - 1))
  }

  lemma {:induction false} RunAdds(fo: ForeignFns, m: Machine, a: nat, b: nat)
    ensures Run(fo, m, a + b) == Run(fo, Run(fo, m, a), b)
    ensures Plain(fo, m, a + b) <==> Plain(fo, m, a) && Plain(fo, Run(fo, m, a), b)
    decreases a
  {
    if a > 0 {
      RunAdds(fo, Step(fo, m), a - 1, b);
    }
  }

  /** eval begins with an empty frame list. */
  function Start(s: Heap, hdl: nat, input: Val): Machine {
    Machine(Restart, EVAL_OK, Locals(NO_FLAGS, None, Nil, [], Some(hdl), Nil, input), [], Nil, s)
  }
}
