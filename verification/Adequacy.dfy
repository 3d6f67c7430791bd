/** The converse of the refinement: where the recursive evaluator has no value, the machine does not halt, and it
    quits just if the recursive evaluator says so. */
module Adequacy {
  import opened Options
  import opened Environ
  import opened Eval
  import opened Machine
  import opened Refinement

  /** Not returned after n steps, unless continuations are involved. */
  predicate NoReturn(fo: ForeignFns, m: Machine, n: nat, quit: Option<Heap>) {
    Plain(fo, m, n) ==> Run(fo, m, n).pc != Halt && (quit.None? ==> Run(fo, m, n).pc != Quit)
  }

  /** After n steps eval has returned from the middle, and leaves these environments. */
  predicate QuitsWith(fo: ForeignFns, m: Machine, n: nat, left: Heap) {
    && Plain(fo, m, n) && Run(fo, m, n).pc == Quit
    && Run(fo, m, n).status == EVAL_ERR_EXPECTED_CONS && Run(fo, m, n).store == left
  }

  /** What the machine does where there is no value: after n steps it has not halted, and if quit holds
      environments it quits with them after k steps. */
  predicate Fails(fo: ForeignFns, m: Machine, n: nat, k: nat, quit: Option<Heap>) {
    NoReturn(fo, m, n, quit) && (quit.Some? ==> QuitsWith(fo, m, k, quit.value))
  }

  function Minus(n: nat, a: nat): nat {
    if a <= n then n - a else 0
  }

  lemma {:induction false} Stays(fo: ForeignFns, m: Machine, n: nat)
    requires m.pc in {Halt, Quit, Abort, AbortFrame}
    ensures Run(fo, m, n) == m && Plain(fo, m, n)
    decreases n
  {
    if n > 0 {
      Stays(fo, m, n - 1);
    }
  }

  /** To know about n steps, look on from a later point of the run. */
  lemma Later(fo: ForeignFns, m: Machine, a: nat, n: nat, k: nat, quit: Option<Heap>)
    requires Plain(fo, m, a)
    requires Fails(fo, Run(fo, m, a), Minus(n, a), k, quit)
    ensures Fails(fo, m, n, a + k, quit)
  {
    hide Step, UsesCont;
    RunAdds(fo, m, a, k);
    LaterReturn(fo, m, a, n, quit);
  }

  /** Once eval has returned, the machine stays as it is. */
  lemma EndLasts(fo: ForeignFns, m: Machine, n: nat, a: nat)
    requires n <= a && Run(fo, m, n).pc in {Halt, Quit}
    ensures Run(fo, m, a) == Run(fo, m, n)
  {
    hide Run, Plain;
    RunAdds(fo, m, n, a - n);
    Stays(fo, Run(fo, m, n), a - n);
  }

  lemma RunNone(fo: ForeignFns, m: Machine)
    ensures Run(fo, m, 0) == m && Plain(fo, m, 0)
  {
  }

  lemma LaterReturn(fo: ForeignFns, m: Machine, a: nat, n: nat, quit: Option<Heap>)
    requires NoReturn(fo, Run(fo, m, a), Minus(n, a), quit)
    ensures NoReturn(fo, m, n, quit)
  {
    RunNone(fo, Run(fo, m, a));
    hide Run, Plain;
    if n >= a {
      RunAdds(fo, m, a, n - a);
    } else {
      if Run(fo, m, n).pc in {Halt, Quit} {
        EndLasts(fo, m, n, a);
      }
    }
  }

  /** The end of a run that stops without returning. */
  lemma Stops(fo: ForeignFns, m: Machine, n: nat)
    requires m.pc in {Abort, AbortFrame}
    ensures Fails(fo, m, n, 0, None)
  {
    Stays(fo, m, n);
  }

  /** Without a value at this fuel, no n steps up to that number end the run, unless it quits. */
  lemma {:induction false} ActivationStuck(fuel: nat, fo: ForeignFns, m: Machine, hdl: nat, n: nat) returns (k: nat)
    requires Ready(m, m.store, m.locals.state, hdl, m.locals.input)
    requires Evaluate(fuel, fo, m.store, m.locals.state, hdl, m.locals.input).NoValue? && n <= fuel
    ensures Fails(fo, m, n, k, Evaluate(fuel, fo, m.store, m.locals.state, hdl, m.locals.input).quit)
    decreases fuel, 6, m.locals.input
  {
    k := 0;
    if fuel > 0 {
      var r := OneRound(fuel, fo, m.store, m.locals.state, hdl, m.locals.input);
      if r.Stuck? {
        k := RoundStuck(fuel, fo, m, hdl, n);
      } else {
        var a := RoundRefines(fuel, fo, m, hdl);
        k := ActivationStuck(fuel - 1, fo, Run(fo, m, a), r.hdl, Minus(n, a));
        Later(fo, m, a, n, k, Evaluate(fuel, fo, m.store, m.locals.state, hdl, m.locals.input).quit);
        k := a + k;
      }
    }
  }

  /** Pushing a frame for an inner expression that has no value. */
  lemma {:induction false} InnerStuck(fuel: nat, fo: ForeignFns, m: Machine, hdl: nat, lab: Label, input: Val, n: nat)
      returns (k: nat)
    requires m.status == EVAL_OK && m.locals.envHdl == Some(hdl)
    requires Evaluate(fuel, fo, m.store, NO_FLAGS, hdl, input).NoValue? && n <= fuel
    ensures Fails(fo, PushEval(m, lab, input), n, k, Evaluate(fuel, fo, m.store, NO_FLAGS, hdl, input).quit)
    decreases fuel, 7, input
  {
    k := ActivationStuck(fuel, fo, PushEval(m, lab, input), hdl, n);
  }

  lemma {:induction false} RoundStuck(fuel: nat, fo: ForeignFns, m: Machine, hdl: nat, n: nat) returns (k: nat)
    requires fuel > 0 && Ready(m, m.store, m.locals.state, hdl, m.locals.input)
    requires OneRound(fuel, fo, m.store, m.locals.state, hdl, m.locals.input).Stuck? && n <= fuel
    ensures Fails(fo, m, n, k, OneRound(fuel, fo, m.store, m.locals.state, hdl, m.locals.input).quit)
    decreases fuel, 5, m.locals.input
  {
    hide Evaluate, ApplyTo;
    OneStep(fo, m);
    var fe := m.locals.input.car;
    var quit := OneRound(fuel, fo, m.store, m.locals.state, hdl, m.locals.input).quit;
    if Evaluate(fuel - 1, fo, m.store, NO_FLAGS, hdl, fe).NoValue? {
      k := InnerStuck(fuel - 1, fo, m, hdl, PostFunc, fe, Minus(n, 1));
      Later(fo, m, 1, n, k, quit);
      k := 1 + k;
    } else {
      var j := InnerRefines(fuel - 1, fo, m, hdl, PostFunc, fe);
      Join(fo, m, 1, j);
      k := PostFuncStuck(fuel, fo, Run(fo, m, 1 + j), hdl, Minus(n, 1 + j));
      Later(fo, m, 1 + j, n, k, quit);
      k := 1 + j + k;
    }
  }

  lemma {:induction false} IfStuck(fuel: nat, fo: ForeignFns, m: Machine, hdl: nat, n: nat) returns (k: nat)
    requires fuel > 0 && m.status == EVAL_OK && m.locals.envHdl == Some(hdl)
    requires EvalIf(fuel, fo, m.store, m.locals.state, hdl, Cdr(m.locals.input)).Stuck? && n < fuel
    ensures Fails(fo, PushEval(m, PostTest, Car(Cdr(m.locals.input))), n, k,
                  EvalIf(fuel, fo, m.store, m.locals.state, hdl, Cdr(m.locals.input)).quit)
    decreases fuel, 3, m.locals.input, 0
  {
    hide Fails, PushEval;
    k := InnerStuck(fuel - 1, fo, m, hdl, PostTest, Car(Cdr(m.locals.input)), n);
  }

  /** def! and set!, once the cursor holds the name. */
  lemma {:induction false} AssignStuck(fuel: nat, fo: ForeignFns, m: Machine, hdl: nat, sp: SpecialFn, n: nat)
      returns (k: nat)
    requires fuel > 0 && m.status == EVAL_OK && m.locals.envHdl == Some(hdl)
    requires EvalAssign(fuel, fo, m.store, m.locals.state, hdl, sp, Cdr(m.locals.input)).Stuck? && n < fuel
    requires m.locals.cursor == Car(Cdr(m.locals.input))
    ensures Fails(fo, StepAssign(m), n, k,
                  EvalAssign(fuel, fo, m.store, m.locals.state, hdl, sp, Cdr(m.locals.input)).quit)
    decreases fuel, 3, m.locals.input, 0
  {
    hide Evaluate, OneRound, PushEval;
    var args := Cdr(m.locals.input);
    if Cdr(args).Cons? {
      k := InnerStuck(fuel - 1, fo, m, hdl, PostValue, Car(Cdr(args)), n);
    } else {
      k := 0;
      Stays(fo, StepAssign(m), n);
    }
  }

  lemma {:induction false} PostFuncStuck(fuel: nat, fo: ForeignFns, m: Machine, hdl: nat, n: nat) returns (k: nat)
    requires fuel > 0 && m.pc == At(PostFunc) && m.locals.envHdl == Some(hdl)
    requires m.locals.input.Cons? && ListLike(m.locals.input.cdr)
    requires AfterFunc(fuel, fo, m, hdl).Stuck? && n <= fuel
    ensures Fails(fo, m, n, k, AfterFunc(fuel, fo, m, hdl).quit)
    decreases fuel, 4, m.locals.input
  {
    k := 0;
    if m.result != Special(MK_CONT) {
      OneStep(fo, m);
      AfterFuncCases(fuel, fo, m, hdl);
      hide AfterFunc, PushEval, Evaluate, Fails, StepPostFunc;
      if m.result == Special(IF) {
        k := IfStuck(fuel, fo, m.(locals := m.locals.(func := m.result)), hdl, Minus(n, 1));
      } else if m.result == Special(DEF) || m.result == Special(SET) {
        k := AssignStuck(fuel, fo, m.(locals := m.locals.(func := m.result, cursor := Car(Cdr(m.locals.input)))), hdl,
                         m.result.s, Minus(n, 1));
      } else {
        k := ArgumentsStuck(fuel, fo, StepPostFunc(m), hdl, m.result, Minus(n, 1));
      }
      Later(fo, m, 1, n, k, AfterFunc(fuel, fo, m, hdl).quit);
      k := 1 + k;
    }
  }

  lemma {:induction false} ArgumentsStuck(fuel: nat, fo: ForeignFns, m: Machine, hdl: nat, last: Val, n: nat)
      returns (k: nat)
    requires fuel > 0 && m.pc == ArgsLoop && m.status == EVAL_OK && m.locals.envHdl == Some(hdl) && m.result == last
    requires AfterArgs(fuel, fo, m, hdl, last).Stuck? && n <= fuel
    ensures Fails(fo, m, n, k, AfterArgs(fuel, fo, m, hdl, last).quit)
    decreases fuel, 3, m.locals.cursor, 1
  {
    hide Evaluate, OneRound, Call;
    OneStep(fo, m);
    if m.locals.cursor.Cons? {
      k := OneArgStuck(fuel, fo, m, hdl, last, n);
    } else {
      if m.locals.cursor.Nil? {
        assert m.locals.newargs + [] == m.locals.newargs;
        k := CallStuck(fuel, fo, Step(fo, m), hdl, Minus(n, 1));
      } else {
        k := 0;
        Stops(fo, Step(fo, m), Minus(n, 1));
      }
      Later(fo, m, 1, n, k, AfterArgs(fuel, fo, m, hdl, last).quit);
      k := 1 + k;
    }
  }

  lemma {:induction false} OneArgStuck(fuel: nat, fo: ForeignFns, m: Machine, hdl: nat, last: Val, n: nat)
      returns (k: nat)
    requires fuel > 0 && m.pc == ArgsLoop && m.status == EVAL_OK && m.locals.envHdl == Some(hdl)
    requires m.locals.cursor.Cons? && AfterArgs(fuel, fo, m, hdl, last).Stuck? && n <= fuel
    ensures Fails(fo, m, n, k, AfterArgs(fuel, fo, m, hdl, last).quit)
    decreases fuel, 3, m.locals.cursor, 0
  {
    hide Evaluate, OneRound, Call, Fails, PushEval;
    var e := m.locals.cursor.car;
    OneStep(fo, m);
    var quit := AfterArgs(fuel, fo, m, hdl, last).quit;
    var v := Evaluate(fuel - 1, fo, m.store, NO_FLAGS, hdl, e);
    if v.NoValue? {
      k := InnerStuck(fuel - 1, fo, m, hdl, PostArg, e, Minus(n, 1));
      Later(fo, m, 1, n, k, quit);
      k := 1 + k;
    } else {
      var j := InnerRefines(fuel - 1, fo, m, hdl, PostArg, e);
      Join(fo, m, 1, j);
      var r := Resumed(m, PostArg, v.value);
      OneStep(fo, r);
      Join(fo, m, 1 + j, 1);
      AfterOneArg(fuel, fo, m, hdl, last, v.value);
      hide AfterArgs;
      k := ArgumentsStuck(fuel, fo, Step(fo, r), hdl, v.value.result, Minus(n, 2 + j));
      Later(fo, m, 2 + j, n, k, quit);
      k := 2 + j + k;
    }
  }

  lemma {:induction false} CallStuck(fuel: nat, fo: ForeignFns, m: Machine, hdl: nat, n: nat) returns (k: nat)
    requires fuel > 0 && m.pc == Apply && m.status == EVAL_OK && m.locals.envHdl == Some(hdl)
    requires Call(fuel, fo, m.store, m.locals.state, hdl, m.locals.func, m.locals.newargs, m.result).Stuck? && n <= fuel
    ensures Fails(fo, m, n, k, Call(fuel, fo, m.store, m.locals.state, hdl, m.locals.func, m.locals.newargs,
      m.result).quit)
    decreases fuel, 2, m.locals.func
  {
    hide Evaluate, OneRound, EvalBody;
    k := 0;
    if !m.locals.func.Cont? {
      OneStep(fo, m);
      var i := Step(fo, m);
      if m.locals.func.Lambda? {
        k := BodyStuck(fuel, fo, i, i.locals.envHdl.value, Minus(n, 1));
      } else {
        Stops(fo, i, Minus(n, 1));
      }
      Later(fo, m, 1, n, k,
            Call(fuel, fo, m.store, m.locals.state, hdl, m.locals.func, m.locals.newargs, m.result).quit);
      k := 1 + k;
    }
  }

  lemma {:induction false} BodyStuck(fuel: nat, fo: ForeignFns, m: Machine, hdl: nat, n: nat) returns (k: nat)
    requires fuel > 0 && m.pc == BodyLoop && m.status == EVAL_OK && m.locals.envHdl == Some(hdl)
    requires EvalBody(fuel, fo, m.store, m.locals.state, hdl, m.locals.cursor).Stuck? && n <= fuel
    ensures Fails(fo, m, n, k, EvalBody(fuel, fo, m.store, m.locals.state, hdl, m.locals.cursor).quit)
    decreases fuel, 1, m.locals.cursor
  {
    hide Evaluate, OneRound, Fails, PushEval;
    OneStep(fo, m);
    var quit := EvalBody(fuel, fo, m.store, m.locals.state, hdl, m.locals.cursor).quit;
    if !m.locals.cursor.Cons? {
      k := 0;
      Stops(fo, Step(fo, m), Minus(n, 1));
      Later(fo, m, 1, n, k, quit);
      k := 1;
    } else {
      var e := m.locals.cursor.car;
      var v := Evaluate(fuel - 1, fo, m.store, NO_FLAGS, hdl, e);
      if v.NoValue? {
        k := InnerStuck(fuel - 1, fo, m, hdl, PostExpr, e, Minus(n, 1));
        Later(fo, m, 1, n, k, quit);
        k := 1 + k;
      } else {
        var j := InnerRefines(fuel - 1, fo, m, hdl, PostExpr, e);
        Join(fo, m, 1, j);
        var r := Resumed(m, PostExpr, v.value);
        OneStep(fo, r);
        Join(fo, m, 1 + j, 1);
        k := BodyStuck(fuel, fo, Step(fo, r), hdl, Minus(n, 2 + j));
        Later(fo, m, 2 + j, n, k, quit);
        k := 2 + j + k;
      }
    }
  }

  /** After n steps the machine has halted with the outcome. */
  predicate EndsWith(fo: ForeignFns, m: Machine, n: nat, out: Out) {
    Run(fo, m, n).pc == Halt && Out(Run(fo, m, n).status, Run(fo, m, n).result, Run(fo, m, n).store) == out
  }

  /** The same, and no continuation was involved. */
  predicate HaltsWith(fo: ForeignFns, m: Machine, n: nat, out: Out) {
    Plain(fo, m, n) && EndsWith(fo, m, n, out)
  }

  /** A run that stops elsewhere, or goes on at the limit, has not returned on the way. */
  lemma NotReturned(fo: ForeignFns, m: Machine, steps: nat, limit: nat, n: nat)
    requires steps <= limit && n <= limit && Run(fo, m, steps).pc !in {Halt, Quit}
    requires steps == limit || Run(fo, m, steps).pc in {Abort, AbortFrame}
    ensures Run(fo, m, n).pc !in {Halt, Quit}
  {
    hide Run, Plain;
    if n <= steps {
      if Run(fo, m, n).pc in {Halt, Quit} {
        EndLasts(fo, m, n, steps);
      }
    } else {
      RunAdds(fo, m, steps, n - steps);
      Stays(fo, Run(fo, m, steps), n - steps);
    }
  }

  /** Wherever a run of eval returns, it is with the recursive evaluator's outcome, if there is one. */
  lemma ReturnsOutcome(fuel: nat, fo: ForeignFns, s: Heap, hdl: nat, input: Val, n: nat)
    requires Evaluate(fuel, fo, s, NO_FLAGS, hdl, input).Value? && Run(fo, Start(s, hdl, input), n).pc in {Halt, Quit}
    ensures EndsWith(fo, Start(s, hdl, input), n, Evaluate(fuel, fo, s, NO_FLAGS, hdl, input).value)
  {
    var m := Start(s, hdl, input);
    var k := EvalRefines(fuel, fo, s, hdl, input);
    EndLasts(fo, m, if n <= k then n else k, if n <= k then k else n);
  }

  /** Where the recursive evaluator has an outcome, every limit from some point on is enough. */
  lemma EnoughSteps(fuel: nat, fo: ForeignFns, s: Heap, hdl: nat, input: Val) returns (enough: nat)
    requires Evaluate(fuel, fo, s, NO_FLAGS, hdl, input).Value?
    ensures forall limit: nat :: enough <= limit ==> Run(fo, Start(s, hdl, input), limit).pc == Halt
  {
    var m := Start(s, hdl, input);
    enough := EvalRefines(fuel, fo, s, hdl, input);
    forall limit: nat | enough <= limit
      ensures Run(fo, m, limit).pc == Halt
    {
      EndLasts(fo, m, enough, limit);
    }
  }

  lemma HaltsOnce(fo: ForeignFns, m: Machine, a: nat, b: nat)
    requires Plain(fo, m, a) && Plain(fo, m, b)
    requires Run(fo, m, a).pc in {Halt, Quit} && Run(fo, m, b).pc in {Halt, Quit}
    ensures Run(fo, m, a) == Run(fo, m, b)
  {
    EndLasts(fo, m, if a <= b then a else b, if a <= b then b else a);
  }

  /** What the recursive evaluator says about a run that returns. */
  lemma ReturnIs(fo: ForeignFns, s: Heap, hdl: nat, input: Val, n: nat)
    requires Plain(fo, Start(s, hdl, input), n) && Run(fo, Start(s, hdl, input), n).pc in {Halt, Quit}
    ensures var r := Run(fo, Start(s, hdl, input), n);
      Evaluate(n, fo, s, NO_FLAGS, hdl, input)
        == if r.pc == Halt then Value(Out(r.status, r.result, r.store)) else NoValue(Some(r.store))
  {
    hide Evaluate, Step;
    var m := Start(s, hdl, input);
    if Evaluate(n, fo, s, NO_FLAGS, hdl, input).Value? {
      var k := EvalRefines(n, fo, s, hdl, input);
      HaltsOnce(fo, m, n, k);
    } else {
      var k := ActivationStuck(n, fo, m, hdl, n);
      if Run(fo, m, n).pc == Quit {
        HaltsOnce(fo, m, n, k);
      }
    }
  }

  /** Without continuations the machine and the recursive evaluator agree exactly: eval ends with an outcome
      just if the recursive evaluator has that outcome with enough fuel. */
  lemma EvalExact(fo: ForeignFns, s: Heap, hdl: nat, input: Val, out: Out)
    ensures (exists fuel: nat :: Evaluate(fuel, fo, s, NO_FLAGS, hdl, input) == Value(out)) <==>
            (exists n: nat :: HaltsWith(fo, Start(s, hdl, input), n, out))
  {
    var m := Start(s, hdl, input);
    if fuel: nat :| Evaluate(fuel, fo, s, NO_FLAGS, hdl, input) == Value(out) {
      var n := EvalRefines(fuel, fo, s, hdl, input);
      assert HaltsWith(fo, m, n, out);
    }
    if n: nat :| HaltsWith(fo, m, n, out) {
      ReturnIs(fo, s, hdl, input, n);
      assert Evaluate(n, fo, s, NO_FLAGS, hdl, input) == Value(out);
    }
  }

  /** And it returns from the middle, leaving some environments and no result, just if the recursive evaluator
      comes to a def! or set! without a value, with these environments. */
  lemma QuitExact(fo: ForeignFns, s: Heap, hdl: nat, input: Val, left: Heap)
    ensures (exists fuel: nat :: Evaluate(fuel, fo, s, NO_FLAGS, hdl, input) == NoValue(Some(left))) <==>
            (exists n: nat :: QuitsWith(fo, Start(s, hdl, input), n, left))
  {
    var m := Start(s, hdl, input);
    if fuel: nat :| Evaluate(fuel, fo, s, NO_FLAGS, hdl, input) == NoValue(Some(left)) {
      var n := ActivationStuck(fuel, fo, m, hdl, 0);
      assert QuitsWith(fo, m, n, left);
    }
    if n: nat :| QuitsWith(fo, m, n, left) {
      ReturnIs(fo, s, hdl, input, n);
      assert Evaluate(n, fo, s, NO_FLAGS, hdl, input) == NoValue(Some(left));
    }
  }

  /** A run of eval that has returned from the middle, although the recursive evaluator quits, is that return. */
  lemma QuitsOutcome(fuel: nat, fo: ForeignFns, s: Heap, hdl: nat, input: Val, n: nat)
    requires Evaluate(fuel, fo, s, NO_FLAGS, hdl, input).NoValue?
    requires Evaluate(fuel, fo, s, NO_FLAGS, hdl, input).quit.Some?
    requires Run(fo, Start(s, hdl, input), n).pc in {Halt, Quit}
    ensures var r := Run(fo, Start(s, hdl, input), n);
      && r.pc == Quit && r.status == EVAL_ERR_EXPECTED_CONS
      && r.store == Evaluate(fuel, fo, s, NO_FLAGS, hdl, input).quit.value
  {
    hide Evaluate, Step;
    var m := Start(s, hdl, input);
    var k := ActivationStuck(fuel, fo, m, hdl, 0);
    EndLasts(fo, m, if n <= k then n else k, if n <= k then k else n);
  }

  // ----- when eval returns from the middle

  /** A def! or set! has been recognised, with a name and no value behind it. */
  predicate MissingValue(m: Machine) {
    && m.pc == At(PostFunc) && m.status == EVAL_OK && (m.result == Special(DEF) || m.result == Special(SET))
    && ListLike(m.locals.input) && ListLike(Cdr(m.locals.input))
    && Car(Cdr(m.locals.input)).Sym? && !Cdr(Cdr(m.locals.input)).Cons?
  }

  /** Step j of the run comes to such an expression. */
  predicate MissesAt(fo: ForeignFns, m: Machine, j: nat) {
    MissingValue(Run(fo, m, j))
  }

  /** In every run, with continuations or without, it does so just behind such an expression. */
  lemma {:induction false} QuitsWhenMissing(fo: ForeignFns, m: Machine, n: nat)
    requires m.pc != Quit
    ensures Run(fo, m, n).pc == Quit <==> exists j: nat :: j < n && MissesAt(fo, m, j)
    decreases n
  {
    hide Step, MissingValue;
    if n > 0 {
      var k := Step(fo, m);
      StepQuits(fo, m);
      assert MissesAt(fo, m, 0) <==> MissingValue(m);
      if k.pc == Quit {
        Stays(fo, k, n - 1);
      } else {
        QuitsWhenMissing(fo, k, n - 1);
        assert forall j: nat :: MissesAt(fo, k, j) ==> MissesAt(fo, m, j + 1);
        assert forall j: nat :: j > 0 && MissesAt(fo, m, j) ==> MissesAt(fo, k, j - 1);
      }
    }
  }

  lemma StepQuits(fo: ForeignFns, m: Machine)
    requires m.pc != Quit
    ensures Step(fo, m).pc == Quit <==> MissingValue(m)
  {
  }

  /** For instance (def! x), where the environment has def!. */
  lemma DefWithoutValue(fo: ForeignFns, s: Heap, hdl: nat, def: Name, x: Name)
    requires s.Lookup(s.At(hdl), def) == Some(Special(DEF))
    ensures Evaluate(2, fo, s, NO_FLAGS, hdl, Cons(Sym(def), Cons(Sym(x), Nil))) == NoValue(Some(s))
    ensures exists n: nat :: QuitsWith(fo, Start(s, hdl, Cons(Sym(def), Cons(Sym(x), Nil))), n, s)
  {
    var input := Cons(Sym(def), Cons(Sym(x), Nil));
    assert Evaluate(1, fo, s, NO_FLAGS, hdl, Sym(def)) == Value(Out(EVAL_OK, Special(DEF), s));
    assert EvalAssign(2, fo, s, NO_FLAGS, hdl, DEF, input.cdr) == Stuck(Some(s));
    assert OneRound(2, fo, s, NO_FLAGS, hdl, input) == Stuck(Some(s));
    QuitExact(fo, s, hdl, input, s);
  }
}
