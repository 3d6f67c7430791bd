/** The evaluator's meaning: the recursive calls that the stack machine simulates, with the flag word that
    decides which environment a call binds into. */
module Eval {
  import opened Options
  import opened Environ

  datatype Err =
    | EVAL_OK
    | EVAL_ERR_UNRESOLVED_SYMBOL
    | EVAL_ERR_TOO_MANY_ARGS
    | EVAL_ERR_MISSING_ARG
    | EVAL_ERR_UNKNOWN_FUNCALL
    | EVAL_ERR_EXPECTED_CONS
    | EVAL_ERR_EXPECTED_SYMBOL
    | EVAL_ERR_EXPECTED_CONS_SYM
    | EVAL_ERR_OTHER(code: nat)

  datatype SpecialFn = IF | LAMBDA | QUOTE | MK_CONT | DEF | SET | DEFINED | EVAL

  /** The state flags: the frame is left by a tail call, an environment frame was added, call/cc made the input. */
  datatype Flags = Flags(tail: bool, added: bool, newInput: bool)

  const NO_FLAGS := Flags(false, false, false)

  /** Where a saved frame resumes. */
  datatype Label = PostFunc | PostTest | PostValue | PostArg | PostExpr

  /** The variables that are saved while an inner expression is evaluated. The argument list under
      construction, with its last-cell pointer, is a sequence. */
  datatype Locals = Locals(
    state: Flags, restart: Option<Label>, cursor: Val, newargs: seq<Val>, envHdl: Option<nat>, func: Val, input: Val)

  datatype Val =
    | Nil
    | Cons(car: Val, cdr: Val)
    | Sym(name: Name)
    | Int(v: int)
    | Lambda(env: Env, vars: Val, expr: Val)
    | Special(s: SpecialFn)
    | Foreign(id: nat)
    | Cont(bt: seq<Locals>)
    | Blob(addr: nat)

  type Heap = Store<Val>

  /** The special functions that do not evaluate all of their arguments. */
  predicate Syntactic(v: Val) {
    v.Special? && v.s in {IF, LAMBDA, QUOTE, MK_CONT, DEF, SET}
  }

  /** Foreign functions: they get the arguments and the environment handle, and may read and change all
      environments. */
  type ForeignFns = (nat, Val, Heap, nat) -> (Err, Val, Heap)

  /** node_cons_car and node_cons_cdr give nil for nil. */
  function Car(v: Val): Val {
    if v.Cons? then v.car else Nil
  }

  function Cdr(v: Val): Val {
    if v.Cons? then v.cdr else Nil
  }

  function ListOf(vs: seq<Val>): Val {
    if vs == [] then Nil else Cons(vs[0], ListOf(vs[1..]))
  }

  // ----- binding parameters

  /** Update the name's binding in the top frame, or add one. */
  function BindOne(s: Heap, h: nat, name: Name, val: Val): Heap {
    var kv := s.FindTop(s.At(h), name);
    if kv.Some? then s.PatchBinding(kv.value, val) else s.Add(h, name, val)
  }

  /** lambda_bind: walk down parameters and arguments in step; a dotted last name takes the rest. */
  function LambdaBind(s: Heap, h: nat, vars: Val, args: Val): (Err, Heap)
    decreases vars
  {
    match vars
    case Nil => if args != Nil then (EVAL_ERR_TOO_MANY_ARGS, s) else (EVAL_OK, s)
    case Cons(name, rest) =>
      if !args.Cons? then (EVAL_ERR_MISSING_ARG, s)
      else if !name.Sym? then (EVAL_ERR_EXPECTED_SYMBOL, s)
      else LambdaBind(BindOne(s, h, name.name, args.car), h, rest, args.cdr)
    case Sym(name) => (EVAL_OK, BindOne(s, h, name, args))
    case _ => (EVAL_ERR_EXPECTED_CONS_SYM, s)
  }

  /** What parameters and arguments associate a name with; the last occurrence counts. */
  function Given(vars: Val, args: Val, x: Name): Option<Val>
    decreases vars
  {
    match vars
    case Cons(name, rest) =>
      if !args.Cons? then None
      else
        var later := Given(rest, args.cdr, x);
        if later.Some? then later
        else if name == Sym(x) then Some(args.car) else None
    case Sym(name) => if name == x then Some(args) else None
    case _ => None
  }

  // ----- the evaluator

  datatype Out = Out(status: Err, result: Val, store: Heap)

  /** What evaluating an expression comes to: its outcome; or none, because the fuel runs out, the original fails
      an assertion, a continuation is made or applied, or eval returns from the middle. In this last case quit
      holds the environments that it leaves. */
  datatype Answer = Value(value: Out) | NoValue(quit: Option<Heap>)

  /** One round of an activation: it ends, or jumps back to its start with a new input; Stuck when there is no
      outcome. */
  datatype Round =
    | Stuck(quit: Option<Heap>)
    | Done(out: Out, flags: Flags, hdl: nat)
    | Jump(store: Heap, flags: Flags, hdl: nat, input: Val)

  datatype Args = ArgsStuck(quit: Option<Heap>) | ArgsErr(out: Out) | ArgsOk(vals: seq<Val>, last: Val, store: Heap)

  /** At the end of an activation the environment frame it added is popped. */
  function Leave(out: Out, flags: Flags, hdl: nat): Out {
    if flags.added then out.(store := out.store.Pop(hdl)) else out
  }

  /** The value of an expression in the environment of a handle. */
  function Evaluate(fuel: nat, fo: ForeignFns, s: Heap, flags: Flags, hdl: nat, input: Val): Answer
    decreases fuel, 5, input
  {
    if fuel == 0 then NoValue(None) else
    match OneRound(fuel, fo, s, flags, hdl, input)
    case Stuck(quit) => NoValue(quit)
    case Done(out, fl, h) => Value(Leave(out, fl, h))
    case Jump(st, fl, h, next) => Evaluate(fuel - 1, fo, st, fl, h, next)
  }

  function OneRound(fuel: nat, fo: ForeignFns, s: Heap, flags: Flags, hdl: nat, input: Val): Round
    requires fuel > 0
    decreases fuel, 4, input
  {
    match input
    case Sym(name) =>
      var v := s.Lookup(s.At(hdl), name);
      if v.Some? then Done(Out(EVAL_OK, v.value, s), flags, hdl)
      else Done(Out(EVAL_ERR_UNRESOLVED_SYMBOL, input, s), flags, hdl)
    case Cons(fe, args) =>
      if !args.Nil? && !args.Cons? then Done(Out(EVAL_ERR_EXPECTED_CONS, args, s), flags, hdl)
      else
        var f := Evaluate(fuel - 1, fo, s, NO_FLAGS, hdl, fe);
        if f.NoValue? then Stuck(f.quit)
        else if f.value.status != EVAL_OK then Done(f.value, flags, hdl)
        else ApplyTo(fuel, fo, f.value.store, flags, hdl, f.value.result, args)
    case _ => Done(Out(EVAL_OK, input, s), flags, hdl)
  }

  /** The function position has been evaluated to func. */
  function ApplyTo(fuel: nat, fo: ForeignFns, s: Heap, flags: Flags, hdl: nat, func: Val, args: Val): Round
    requires fuel > 0
    decreases fuel, 3, args
  {
    if func == Special(IF) then EvalIf(fuel, fo, s, flags, hdl, args)
    else if func == Special(LAMBDA) then Done(Out(EVAL_OK, Lambda(s.At(hdl), Car(args), Cdr(args)), s), flags, hdl)
    else if func == Special(QUOTE) then
      if Cdr(args) != Nil then Done(Out(EVAL_ERR_TOO_MANY_ARGS, Cdr(args), s), flags, hdl)
      else Done(Out(EVAL_OK, Car(args), s), flags, hdl)
    else if func == Special(MK_CONT) then Stuck(None)
    else if func == Special(DEF) || func == Special(SET) then EvalAssign(fuel, fo, s, flags, hdl, func.s, args)
    else
      match EvalArgs(fuel, fo, s, hdl, args, func)
      case ArgsStuck(quit) => Stuck(quit)
      case ArgsErr(out) => Done(out, flags, hdl)
      case ArgsOk(vals, last, st) => Call(fuel, fo, st, flags, hdl, func, vals, last)
  }

  function EvalIf(fuel: nat, fo: ForeignFns, s: Heap, flags: Flags, hdl: nat, args: Val): Round
    requires fuel > 0
    decreases fuel, 2, args
  {
    var t := Evaluate(fuel - 1, fo, s, NO_FLAGS, hdl, Car(args));
    if t.NoValue? then Stuck(t.quit)
    else if t.value.status != EVAL_OK then Done(t.value, flags, hdl)
    else Branch(t.value, flags, hdl, Cdr(args))
  }

  /** The test of an if has been evaluated: the branch it selects replaces the activation. */
  function Branch(test: Out, flags: Flags, hdl: nat, rest: Val): Round {
    if test.result == Nil && !rest.Cons? then Done(Out(EVAL_ERR_EXPECTED_CONS, rest, test.store), flags, hdl)
    else
      var branch := if test.result != Nil then rest else rest.cdr;
      if !branch.Cons? then Done(Out(EVAL_ERR_EXPECTED_CONS, branch, test.store), flags, hdl)
      else Jump(test.store, Flags(true, flags.added, false), hdl, if flags.newInput then Nil else branch.car)
  }

  function EvalAssign(fuel: nat, fo: ForeignFns, s: Heap, flags: Flags, hdl: nat, sp: SpecialFn, args: Val): Round
    requires fuel > 0
    decreases fuel, 2, args
  {
    var name := Car(args);
    if !name.Sym? then Done(Out(EVAL_ERR_EXPECTED_SYMBOL, name, s), flags, hdl)
    else if !Cdr(args).Cons? then Stuck(Some(s))
    else
      var v := Evaluate(fuel - 1, fo, s, NO_FLAGS, hdl, Car(Cdr(args)));
      if v.NoValue? then Stuck(v.quit)
      else if v.value.status != EVAL_OK then Done(v.value, flags, hdl)
      else Done(Assign(v.value.store, hdl, sp, name, v.value.result), flags, hdl)
  }

  /** def! always adds a binding to the top frame, set! updates the one that the name resolves to. */
  function Assign(s: Heap, hdl: nat, sp: SpecialFn, name: Val, val: Val): Out
    requires name.Sym?
  {
    if sp == DEF then Out(EVAL_OK, name, s.Add(hdl, name.name, val))
    else
      var kv := s.Find(s.At(hdl), name.name);
      if kv.None? then Out(EVAL_ERR_UNRESOLVED_SYMBOL, name, s)
      else Out(EVAL_OK, name, s.PatchBinding(kv.value, val))
  }

  /** The arguments from left to right; last is the most recent result, the function itself at first. */
  function EvalArgs(fuel: nat, fo: ForeignFns, s: Heap, hdl: nat, args: Val, last: Val): Args
    requires fuel > 0
    decreases fuel, 2, args
  {
    match args
    case Nil => ArgsOk([], last, s)
    case Cons(e, rest) =>
      var v := Evaluate(fuel - 1, fo, s, NO_FLAGS, hdl, e);
      if v.NoValue? then ArgsStuck(v.quit)
      else if v.value.status != EVAL_OK then ArgsErr(v.value)
      else
        (match EvalArgs(fuel, fo, v.value.store, hdl, rest, v.value.result)
         case ArgsOk(vals, l, st) => ArgsOk([v.value.result] + vals, l, st)
         case other => other)
    case _ => ArgsStuck(None)
  }

  /** The environment a call outside of tail position binds into: a fresh frame behind a new handle. */
  function CallFrame(s: Heap, env: Env): Heap {
    s.NewHandle(env).Push(|s.hdls|)
  }

  /** Where a lambda's body starts: the status of binding the parameters, and the environment it runs in. */
  datatype Entry = Entry(status: Err, store: Heap, flags: Flags, hdl: nat)

  /** A call binds in a frame of its own, but behind a tail call in the frame that is there. */
  function Enter(s: Heap, flags: Flags, hdl: nat, func: Val, vals: seq<Val>): Entry
    requires func.Lambda?
  {
    var c := if flags.tail then s else CallFrame(s, func.env);
    var h := if flags.tail then hdl else |s.hdls|;
    var (status, t) := LambdaBind(c, h, func.vars, ListOf(vals));
    Entry(status, t, if flags.tail then flags else flags.(added := true), h)
  }

  /** Arguments are evaluated; last is what is left in the result register. */
  function Call(fuel: nat, fo: ForeignFns, s: Heap, flags: Flags, hdl: nat, func: Val, vals: seq<Val>, last: Val): Round
    requires fuel > 0
    decreases fuel, 2, func
  {
    match func
    case Special(DEFINED) =>
      var known := vals != [] && vals[0].Sym? && s.Find(s.At(hdl), vals[0].name).Some?;
      Done(Out(EVAL_OK, if known then Int(1) else last, s), flags, hdl)
    case Special(EVAL) => Jump(s, flags, hdl, Car(ListOf(vals)))
    case Foreign(id) =>
      var (status, v, t) := fo(id, ListOf(vals), s, hdl);
      Done(Out(status, v, t), flags, hdl)
    case Lambda(_, _, expr) =>
      var e := Enter(s, flags, hdl, func, vals);
      if e.status != EVAL_OK then Done(Out(e.status, func, e.store), e.flags, e.hdl)
      else EvalBody(fuel, fo, e.store, e.flags, e.hdl, expr)
    case Special(_) => Stuck(None)
    case Cont(_) => Stuck(None)
    case _ => Done(Out(EVAL_ERR_UNKNOWN_FUNCALL, func, s), flags, hdl)
  }

  /** All expressions but the last are evaluated for their effects; the last one replaces the activation. */
  function EvalBody(fuel: nat, fo: ForeignFns, s: Heap, flags: Flags, hdl: nat, exprs: Val): Round
    requires fuel > 0
    decreases fuel, 1, exprs
  {
    if !exprs.Cons? then Stuck(None)
    else if exprs.cdr == Nil then Jump(s, Flags(true, flags.added, false), hdl, exprs.car)
    else
      var v := Evaluate(fuel - 1, fo, s, NO_FLAGS, hdl, exprs.car);
      if v.NoValue? then Stuck(v.quit)
      else if v.value.status != EVAL_OK then Done(v.value, flags, hdl)
      else EvalBody(fuel, fo, v.value.store, flags, hdl, exprs.cdr)
  }
}
