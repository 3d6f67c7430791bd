/** The stack machine refines the recursive evaluator. */
module Refinement {
  import opened Options
  import opened Eval
  import opened Machine

  /** The machine is about to evaluate the expression in the environment of the handle. */
  predicate Ready(m: Machine, s: Heap, flags: Flags, hdl: nat, input: Val) {
    && m.pc == Restart && m.status == EVAL_OK && m.store == s
    && m.locals.state == flags && m.locals.envHdl == Some(hdl) && m.locals.input == input
  }

  /** The machine has the outcome and is about to return to the frames it had. */
  predicate Returns(m: Machine, out: Out, frames: seq<Locals>) {
    && m.pc == Return && m.status == out.status && m.result == out.result && m.store == out.store
    && m.frames == frames
  }

  /** What a round of the recursive evaluator means for the machine. */
  predicate Shows(m: Machine, r: Round, frames: seq<Locals>) {
    m.frames == frames &&
    match r
    case Stuck(_) => false
    case Done(out, flags, hdl) =>
      && m.pc == Finish && m.status == out.status && m.result == out.result && m.store == out.store
      && m.locals.state == flags && m.locals.envHdl == Some(hdl)
    case Jump(s, flags, hdl, input) => Ready(m, s, flags, hdl, input)
  }

  function Resumed(m: Machine, lab: Label, out: Out): Machine {
    m.(pc := At(lab), locals := m.locals.(restart := Some(lab)), status := out.status, result := out.result,
      store := out.store)
  }

  /** Running on from a later point of a run. */
  lemma Join(fo: ForeignFns, m: Machine, a: nat, b: nat)
    ensures Run(fo, Run(fo, m, a), b) == Run(fo, m, a + b)
    ensures Plain(fo, m, a) && Plain(fo, Run(fo, m, a), b) <==> Plain(fo, m, a + b)
  {
    RunAdds(fo, m, a, b);
  }

  lemma OneStep(fo: ForeignFns, m: Machine)
    ensures Run(fo, m, 1) == Step(fo, m)
    ensures Plain(fo, m, 1) <==> !UsesCont(m)
  {
    assert Run(fo, Step(fo, m), 0) == Step(fo, m) && Plain(fo, Step(fo, m), 0);
  }

  /** An activation: whatever the other locals and the frames, the machine gets to the same outcome with
      the same frames. */
  lemma {:induction false} ActivationRefines(fuel: nat, fo: ForeignFns, m: Machine, hdl: nat) returns (n: nat)
    requires Ready(m, m.store, m.locals.state, hdl, m.locals.input)
    requires Evaluate(fuel, fo, m.store, m.locals.state, hdl, m.locals.input).Value?
    ensures Plain(fo, m, n)
      && Returns(Run(fo, m, n), Evaluate(fuel, fo, m.store, m.locals.state, hdl, m.locals.input).value, m.frames)
    decreases fuel, 6, m.locals.input
  {
    var r := OneRound(fuel, fo, m.store, m.locals.state, hdl, m.locals.input);
    n := RoundRefines(fuel, fo, m, hdl);
    var k := Run(fo, m, n);
    if r.Done? {
      OneStep(fo, k);
      Join(fo, m, n, 1);
      n := n + 1;
    } else {
      var j := ActivationRefines(fuel - 1, fo, k, r.hdl);
      Join(fo, m, n, j);
      n := n + j;
    }
  }

  /** Saving the frame, evaluating an inner expression and popping the frame: the machine is where it was,
      with the outcome in its registers. */
  lemma {:induction false} InnerRefines(fuel: nat, fo: ForeignFns, m: Machine, hdl: nat, lab: Label, input: Val)
      returns (n: nat)
    requires m.status == EVAL_OK && m.locals.envHdl == Some(hdl)
    requires Evaluate(fuel, fo, m.store, NO_FLAGS, hdl, input).Value?
    ensures Plain(fo, PushEval(m, lab, input), n)
    ensures Run(fo, PushEval(m, lab, input), n)
      == Resumed(m, lab, Evaluate(fuel, fo, m.store, NO_FLAGS, hdl, input).value)
    decreases fuel, 7, input
  {
    var p := PushEval(m, lab, input);
    n := ActivationRefines(fuel, fo, p, hdl);
    var k := Run(fo, p, n);
    OneStep(fo, k);
    assert k.frames[1..] == m.frames;
    Join(fo, p, n, 1);
    n := n + 1;
  }

  lemma {:induction false} RoundRefines(fuel: nat, fo: ForeignFns, m: Machine, hdl: nat) returns (n: nat)
    requires fuel > 0 && Ready(m, m.store, m.locals.state, hdl, m.locals.input)
    requires !OneRound(fuel, fo, m.store, m.locals.state, hdl, m.locals.input).Stuck?
    ensures n > 0 && Plain(fo, m, n)
      && Shows(Run(fo, m, n), OneRound(fuel, fo, m.store, m.locals.state, hdl, m.locals.input), m.frames)
    decreases fuel, 5, m.locals.input
  {
    hide Evaluate, ApplyTo, PushEval;
    OneStep(fo, m);
    if m.locals.input.Cons? && (m.locals.input.cdr.Nil? || m.locals.input.cdr.Cons?) {
      var j := InnerRefines(fuel - 1, fo, m, hdl, PostFunc, m.locals.input.car);
      Join(fo, m, 1, j);
      var f := Evaluate(fuel - 1, fo, m.store, NO_FLAGS, hdl, m.locals.input.car).value;
      var k := Resumed(m, PostFunc, f);
      n := PostFuncRefines(fuel, fo, k, hdl);
      Join(fo, m, 1 + j, n);
      n := 1 + j + n;
    } else if m.locals.input.Cons? {
      n := CleanupRefines(fo, Step(fo, m));
      Join(fo, m, 1, n);
      n := 1 + n;
    } else {
      n := 1;
    }
  }

  lemma CleanupRefines(fo: ForeignFns, m: Machine) returns (n: nat)
    requires m.pc == Cleanup
    ensures Plain(fo, m, n) && Run(fo, m, n) == m.(locals := m.locals.(func := Nil, newargs := []), pc := Finish)
  {
    OneStep(fo, m);
    n := 1;
  }

  /** From the label behind the function's evaluation to the end of the round. */
  function AfterFunc(fuel: nat, fo: ForeignFns, m: Machine, hdl: nat): Round
    requires fuel > 0
  {
    if m.status != EVAL_OK then Done(Out(m.status, m.result, m.store), m.locals.state, hdl)
    else ApplyTo(fuel, fo, m.store, m.locals.state, hdl, m.result, Cdr(m.locals.input))
  }

  /** What follows when the function has been evaluated without an error. */
  lemma AfterFuncCases(fuel: nat, fo: ForeignFns, m: Machine, hdl: nat)
    requires fuel > 0 && m.pc == At(PostFunc) && m.status == EVAL_OK
    requires m.locals.input.Cons? && ListLike(m.locals.input.cdr)
    ensures var args := Cdr(m.locals.input);
      && (m.result == Special(IF) ==>
          AfterFunc(fuel, fo, m, hdl) == EvalIf(fuel, fo, m.store, m.locals.state, hdl, args) &&
          StepPostFunc(m) == PushEval(m.(locals := m.locals.(func := m.result)), PostTest, Car(args)))
      && (m.result == Special(DEF) || m.result == Special(SET) ==>
          AfterFunc(fuel, fo, m, hdl) == EvalAssign(fuel, fo, m.store, m.locals.state, hdl, m.result.s, args) &&
          StepPostFunc(m) == StepAssign(m.(locals := m.locals.(func := m.result, cursor := Car(args)))))
      && (!Syntactic(m.result) ==>
          StepPostFunc(m) == m.(locals := m.locals.(func := m.result, newargs := [], cursor := args), pc := ArgsLoop) &&
          AfterFunc(fuel, fo, m, hdl) == AfterArgs(fuel, fo, StepPostFunc(m), hdl, m.result))
  {
    hide EvalIf, EvalAssign, EvalArgs, Call, PushEval;
    var rest := EvalArgs(fuel, fo, m.store, hdl, Cdr(m.locals.input), m.result);
    assert rest.ArgsOk? ==> [] + rest.vals == rest.vals;
  }

  lemma {:induction false} PostFuncRefines(fuel: nat, fo: ForeignFns, m: Machine, hdl: nat) returns (n: nat)
    requires fuel > 0 && m.pc == At(PostFunc) && m.locals.envHdl == Some(hdl) && m.locals.input.Cons?
      && ListLike(m.locals.input.cdr)
    requires !AfterFunc(fuel, fo, m, hdl).Stuck?
    ensures n > 0 && Plain(fo, m, n) && Shows(Run(fo, m, n), AfterFunc(fuel, fo, m, hdl), m.frames)
    decreases fuel, 4, m.locals.input
  {
    OneStep(fo, m);
    var k := Step(fo, m);
    if m.status != EVAL_OK || m.result == Special(LAMBDA) || m.result == Special(QUOTE) {
      n := CleanupRefines(fo, k);
    } else {
      AfterFuncCases(fuel, fo, m, hdl);
      hide AfterFunc, PushEval;
      if m.result == Special(IF) {
        n := IfRefines(fuel, fo, m.(locals := m.locals.(func := m.result)), hdl);
      } else if m.result == Special(DEF) || m.result == Special(SET) {
        var i := m.(locals := m.locals.(func := m.result, cursor := Car(Cdr(m.locals.input))));
        n := AssignRefines(fuel, fo, i, hdl, m.result.s);
      } else {
        n := ArgsRefines(fuel, fo, k, hdl, m.result);
      }
    }
    Join(fo, m, 1, n);
    n := 1 + n;
  }

  lemma BranchRefines(fo: ForeignFns, k: Machine, hdl: nat) returns (n: nat)
    requires k.pc == At(PostTest) && k.status == EVAL_OK && k.locals.envHdl == Some(hdl)
    requires k.locals.input.Cons? && ListLike(k.locals.input.cdr)
    ensures Plain(fo, k, n)
    ensures Shows(Run(fo, k, n),
      Branch(Out(EVAL_OK, k.result, k.store), k.locals.state, hdl, Cdr(Cdr(k.locals.input))), k.frames)
  {
    OneStep(fo, k);
    n := 1;
    if Step(fo, k).pc == Cleanup {
      var j := CleanupRefines(fo, Step(fo, k));
      Join(fo, k, 1, j);
      n := 1 + j;
    }
  }

  lemma {:induction false} IfRefines(fuel: nat, fo: ForeignFns, m: Machine, hdl: nat) returns (n: nat)
    requires fuel > 0 && m.status == EVAL_OK && m.locals.envHdl == Some(hdl) && m.locals.input.Cons?
      && ListLike(m.locals.input.cdr)
    requires !EvalIf(fuel, fo, m.store, m.locals.state, hdl, Cdr(m.locals.input)).Stuck?
    ensures Plain(fo, PushEval(m, PostTest, Car(Cdr(m.locals.input))), n)
    ensures Shows(Run(fo, PushEval(m, PostTest, Car(Cdr(m.locals.input))), n),
                  EvalIf(fuel, fo, m.store, m.locals.state, hdl, Cdr(m.locals.input)), m.frames)
    decreases fuel, 3, m.locals.input
  {
    hide Evaluate, OneRound, PushEval;
    var test := Car(Cdr(m.locals.input));
    var p := PushEval(m, PostTest, test);
    n := InnerRefines(fuel - 1, fo, m, hdl, PostTest, test);
    var t := Evaluate(fuel - 1, fo, m.store, NO_FLAGS, hdl, test).value;
    var k := Resumed(m, PostTest, t);
    var j;
    if t.status == EVAL_OK {
      j := BranchRefines(fo, k, hdl);
    } else {
      OneStep(fo, k);
      j := CleanupRefines(fo, Step(fo, k));
      Join(fo, k, 1, j);
      j := 1 + j;
    }
    Join(fo, p, n, j);
    n := n + j;
  }

  lemma {:induction false} AssignRefines(fuel: nat, fo: ForeignFns, m: Machine, hdl: nat, sp: SpecialFn)
      returns (n: nat)
    requires fuel > 0 && m.status == EVAL_OK && m.locals.envHdl == Some(hdl) && m.locals.input.Cons?
      && ListLike(m.locals.input.cdr)
    requires m.locals.func == Special(sp) && m.locals.cursor == Car(Cdr(m.locals.input))
    requires !EvalAssign(fuel, fo, m.store, m.locals.state, hdl, sp, Cdr(m.locals.input)).Stuck?
    ensures Plain(fo, StepAssign(m), n)
    ensures Shows(Run(fo, StepAssign(m), n),
      EvalAssign(fuel, fo, m.store, m.locals.state, hdl, sp, Cdr(m.locals.input)), m.frames)
    decreases fuel, 3, m.locals.input
  {
    var args := Cdr(m.locals.input);
    if !Car(args).Sym? {
      n := CleanupRefines(fo, StepAssign(m));
    } else {
      var p := PushEval(m, PostValue, Car(Cdr(args)));
      n := InnerRefines(fuel - 1, fo, m, hdl, PostValue, Car(Cdr(args)));
      var k := Run(fo, p, n);
      OneStep(fo, k);
      Join(fo, p, n, 1);
      var j := CleanupRefines(fo, Step(fo, k));
      Join(fo, p, n + 1, j);
      n := n + 1 + j;
    }
  }

  /** What the machine does with a def! or set! once the cursor holds the name. */
  function StepAssign(m: Machine): Machine {
    var args := Cdr(m.locals.input);
    if !Car(args).Sym? then Ends(m, EVAL_ERR_EXPECTED_SYMBOL, Car(args))
    else if !Cdr(args).Cons? then m.(status := EVAL_ERR_EXPECTED_CONS, result := Cdr(args), pc := Quit)
    else PushEval(m, PostValue, Car(Cdr(args)))
  }

  /** Evaluating the remaining arguments behind those that the machine has, and then the call. */
  function AfterArgs(fuel: nat, fo: ForeignFns, m: Machine, hdl: nat, last: Val): Round
    requires fuel > 0
  {
    match EvalArgs(fuel, fo, m.store, hdl, m.locals.cursor, last)
    case ArgsStuck(quit) => Stuck(quit)
    case ArgsErr(out) => Done(out, m.locals.state, hdl)
    case ArgsOk(vals, l, st) => Call(fuel, fo, st, m.locals.state, hdl, m.locals.func, m.locals.newargs + vals, l)
  }

  lemma {:induction false} ArgsRefines(fuel: nat, fo: ForeignFns, m: Machine, hdl: nat, last: Val) returns (n: nat)
    requires fuel > 0 && m.pc == ArgsLoop && m.status == EVAL_OK && m.locals.envHdl == Some(hdl) && m.result == last
    requires !AfterArgs(fuel, fo, m, hdl, last).Stuck?
    ensures n > 0 && Plain(fo, m, n) && Shows(Run(fo, m, n), AfterArgs(fuel, fo, m, hdl, last), m.frames)
    decreases fuel, 3, m.locals.cursor, 1
  {
    OneStep(fo, m);
    if m.locals.cursor.Nil? {
      assert m.locals.newargs + [] == m.locals.newargs;
      n := CallRefines(fuel, fo, Step(fo, m), hdl);
      Join(fo, m, 1, n);
      n := 1 + n;
    } else {
      n := OneArgRefines(fuel, fo, m, hdl, last);
    }
  }

  /** An argument without an error: the rest is what follows behind it. */
  lemma AfterOneArg(fuel: nat, fo: ForeignFns, m: Machine, hdl: nat, last: Val, v: Out)
    requires fuel > 0 && m.pc == ArgsLoop && m.status == EVAL_OK && m.locals.cursor.Cons?
    requires Evaluate(fuel - 1, fo, m.store, NO_FLAGS, hdl, m.locals.cursor.car) == Value(v) && v.status == EVAL_OK
    ensures var i := Step(fo, Resumed(m, PostArg, v));
      && i.pc == ArgsLoop && i.status == EVAL_OK && i.result == v.result && i.frames == m.frames
      && i.locals.envHdl == m.locals.envHdl && i.locals.cursor == m.locals.cursor.cdr
      && AfterArgs(fuel, fo, m, hdl, last) == AfterArgs(fuel, fo, i, hdl, v.result)
  {
    hide Call, Evaluate;
    var rest := EvalArgs(fuel, fo, v.store, hdl, m.locals.cursor.cdr, v.result);
    assert rest.ArgsOk? ==>
      m.locals.newargs + ([v.result] + rest.vals) == m.locals.newargs + [v.result] + rest.vals;
  }

  lemma {:induction false} OneArgRefines(fuel: nat, fo: ForeignFns, m: Machine, hdl: nat, last: Val) returns (n: nat)
    requires fuel > 0 && m.pc == ArgsLoop && m.status == EVAL_OK && m.locals.envHdl == Some(hdl)
    requires m.locals.cursor.Cons? && !AfterArgs(fuel, fo, m, hdl, last).Stuck?
    ensures n > 0 && Plain(fo, m, n) && Shows(Run(fo, m, n), AfterArgs(fuel, fo, m, hdl, last), m.frames)
    decreases fuel, 3, m.locals.cursor, 0
  {
    hide Evaluate, OneRound, Call, PushEval;
    var e := m.locals.cursor.car;
    OneStep(fo, m);
    var j := InnerRefines(fuel - 1, fo, m, hdl, PostArg, e);
    Join(fo, m, 1, j);
    var v := Evaluate(fuel - 1, fo, m.store, NO_FLAGS, hdl, e).value;
    var k := Resumed(m, PostArg, v);
    OneStep(fo, k);
    Join(fo, m, 1 + j, 1);
    var i := Step(fo, k);
    if v.status != EVAL_OK {
      n := CleanupRefines(fo, i);
    } else {
      AfterOneArg(fuel, fo, m, hdl, last, v);
      hide AfterArgs;
      n := ArgsRefines(fuel, fo, i, hdl, v.result);
    }
    Join(fo, m, 2 + j, n);
    n := 2 + j + n;
  }

  lemma {:induction false} CallRefines(fuel: nat, fo: ForeignFns, m: Machine, hdl: nat) returns (n: nat)
    requires fuel > 0 && m.pc == Apply && m.status == EVAL_OK && m.locals.envHdl == Some(hdl)
    requires !Call(fuel, fo, m.store, m.locals.state, hdl, m.locals.func, m.locals.newargs, m.result).Stuck?
    ensures n > 0 && Plain(fo, m, n)
    ensures Shows(Run(fo, m, n), Call(fuel, fo, m.store, m.locals.state, hdl, m.locals.func, m.locals.newargs,
      m.result),
                  m.frames)
    decreases fuel, 2, m.locals.func
  {
    OneStep(fo, m);
    var k := Step(fo, m);
    if k.pc == Cleanup {
      n := CleanupRefines(fo, k);
    } else if k.pc == Restart {
      n := 0;
    } else {
      n := BodyRefines(fuel, fo, k, k.locals.envHdl.value);
    }
    Join(fo, m, 1, n);
    n := 1 + n;
  }

  lemma {:induction false} BodyRefines(fuel: nat, fo: ForeignFns, m: Machine, hdl: nat) returns (n: nat)
    requires fuel > 0 && m.pc == BodyLoop && m.status == EVAL_OK && m.locals.envHdl == Some(hdl)
    requires !EvalBody(fuel, fo, m.store, m.locals.state, hdl, m.locals.cursor).Stuck?
    ensures n > 0 && Plain(fo, m, n)
      && Shows(Run(fo, m, n), EvalBody(fuel, fo, m.store, m.locals.state, hdl, m.locals.cursor), m.frames)
    decreases fuel, 1, m.locals.cursor
  {
    hide Evaluate, OneRound, PushEval;
    OneStep(fo, m);
    if m.locals.cursor.cdr == Nil {
      n := 1;
    } else {
      var e := m.locals.cursor.car;
      var j := InnerRefines(fuel - 1, fo, m, hdl, PostExpr, e);
      Join(fo, m, 1, j);
      var v := Evaluate(fuel - 1, fo, m.store, NO_FLAGS, hdl, e).value;
      var k := Resumed(m, PostExpr, v);
      OneStep(fo, k);
      Join(fo, m, 1 + j, 1);
      if v.status != EVAL_OK {
        n := CleanupRefines(fo, Step(fo, k));
      } else {
        n := BodyRefines(fuel, fo, Step(fo, k), hdl);
      }
      Join(fo, m, 2 + j, n);
      n := 2 + j + n;
    }
  }

  /** Whenever the recursive evaluator has a value, eval halts with that status, result and store. */
  lemma EvalRefines(fuel: nat, fo: ForeignFns, s: Heap, hdl: nat, input: Val) returns (n: nat)
    requires Evaluate(fuel, fo, s, NO_FLAGS, hdl, input).Value?
    ensures var m := Run(fo, Start(s, hdl, input), n);
      && Plain(fo, Start(s, hdl, input), n) && m.pc == Halt
      && Out(m.status, m.result, m.store) == Evaluate(fuel, fo, s, NO_FLAGS, hdl, input).value
  {
    var m := Start(s, hdl, input);
    n := ActivationRefines(fuel, fo, m, hdl);
    OneStep(fo, Run(fo, m, n));
    Join(fo, m, n, 1);
    n := n + 1;
  }
}
