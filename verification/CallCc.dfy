/** What call/cc hands out: the frames of its own expression, so that using it returns from there. */
module CallCc {
  import opened Options
  import opened Environ
  import opened Eval
  import opened Binding
  import opened Machine
  import opened Refinement
  import opened Frames

  /** The machine has recognised call/cc. */
  predicate AtCallCc(c: Machine, hdl: nat) {
    && c.pc == At(PostFunc) && c.status == EVAL_OK && c.result == Special(MK_CONT)
    && c.locals.envHdl == Some(hdl) && ListLike(c.locals.input) && ListLike(Cdr(c.locals.input))
  }

  /** The machine is about to apply func to these values. */
  predicate Applies(m: Machine, func: Val, vals: seq<Val>) {
    m.pc == Apply && m.status == EVAL_OK && m.locals.func == func && m.locals.newargs == vals
  }

  /** Evaluating the function of a call. */
  lemma FunctionPart(fuel: nat, fo: ForeignFns, m: Machine, hdl: nat, func: Val, t: Heap) returns (n: nat)
    requires m.pc == Restart && m.status == EVAL_OK && m.locals.envHdl == Some(hdl)
    requires m.locals.input.Cons? && ListLike(m.locals.input.cdr) && !Syntactic(func)
    requires Evaluate(fuel, fo, m.store, NO_FLAGS, hdl, m.locals.input.car) == Value(Out(EVAL_OK, func, t))
    ensures var r := Run(fo, m, n);
      && r.pc == ArgsLoop && r.status == EVAL_OK && r.store == t && r.frames == m.frames && r.result == func
      && r.locals == m.locals.(restart := Some(PostFunc), func := func, newargs := [], cursor := m.locals.input.cdr)
  {
    hide Evaluate;
    OneStep(fo, m);
    var j := InnerRefines(fuel, fo, m, hdl, PostFunc, m.locals.input.car);
    Join(fo, m, 1, j);
    var k := Resumed(m, PostFunc, Out(EVAL_OK, func, t));
    OneStep(fo, k);
    Join(fo, m, 1 + j, 1);
    n := 1 + j + 1;
  }

  /** Evaluating a single argument that is its own value. */
  lemma OneArgument(fo: ForeignFns, m: Machine, hdl: nat, v: Val) returns (n: nat)
    requires m.pc == ArgsLoop && m.status == EVAL_OK && m.locals.envHdl == Some(hdl) && m.locals.newargs == []
    requires m.locals.cursor == Cons(v, Nil) && !v.Sym? && !v.Cons?
    ensures var r := Run(fo, m, n);
      && r.pc == Apply && r.status == EVAL_OK && r.store == m.store && r.frames == m.frames
      && r.locals == m.locals.(restart := Some(PostArg), newargs := [v], cursor := Nil)
  {
    OneStep(fo, m);
    assert Evaluate(1, fo, m.store, NO_FLAGS, hdl, v) == Value(Out(EVAL_OK, v, m.store));
    hide Evaluate;
    var j := InnerRefines(1, fo, m, hdl, PostArg, v);
    Join(fo, m, 1, j);
    var k := Resumed(m, PostArg, Out(EVAL_OK, v, m.store));
    OneStep(fo, k);
    Join(fo, m, 1 + j, 1);
    var i := Step(fo, k);
    assert i.pc == ArgsLoop && i.locals.newargs == [v];
    OneStep(fo, i);
    Join(fo, m, 2 + j, 1);
    n := 3 + j;
  }

  /** The call of a function with one such argument. */
  lemma CallsWithOne(fuel: nat, fo: ForeignFns, m: Machine, hdl: nat, fe: Val, func: Val, v: Val, t: Heap)
      returns (n: nat)
    requires m.pc == Restart && m.status == EVAL_OK && m.locals.envHdl == Some(hdl)
    requires m.locals.input == Cons(fe, Cons(v, Nil)) && !Syntactic(func) && !v.Sym? && !v.Cons?
    requires Evaluate(fuel, fo, m.store, NO_FLAGS, hdl, fe) == Value(Out(EVAL_OK, func, t))
    ensures var r := Run(fo, m, n);
      && Applies(r, func, [v]) && r.frames == m.frames && r.store == t
      && r.locals.envHdl == Some(hdl) && r.locals.state == m.locals.state
  {
    hide Evaluate, Step;
    var a := FunctionPart(fuel, fo, m, hdl, func, t);
    var b := OneArgument(fo, Run(fo, m, a), hdl, v);
    Join(fo, m, a, b);
    n := a + b;
  }

  /** call/cc applies the value of its argument to one value: the continuation of the call/cc expression itself,
      that is, the frames that there are. */
  lemma HandsOutFrames(fuel: nat, fo: ForeignFns, c: Machine, hdl: nat, func: Val, t: Heap) returns (n: nat)
    requires AtCallCc(c, hdl) && !Syntactic(func)
    requires Evaluate(fuel, fo, c.store, NO_FLAGS, hdl, Car(Cdr(c.locals.input))) == Value(Out(EVAL_OK, func, t))
    ensures var r := Run(fo, c, n);
      && Applies(r, func, [Cont(c.frames)]) && r.frames == c.frames && r.store == t
      && r.locals.envHdl == Some(hdl) && r.locals.state == c.locals.state.(newInput := true)
  {
    hide Evaluate;
    OneStep(fo, c);
    var i := Step(fo, c);
    assert i.pc == Restart && i.locals.input == Cons(Car(Cdr(c.locals.input)), Cons(Cont(c.frames), Nil));
    hide Step, Run, Plain;
    n := CallsWithOne(fuel, fo, i, hdl, Car(Cdr(c.locals.input)), func, Cont(c.frames), t);
    Join(fo, c, 1, n);
    n := 1 + n;
  }

  /** If step number at of the run applies the value k, the run goes on as q does when its inner expression has the
      argument for a value. */
  predicate ReturnsAt(fo: ForeignFns, p: Machine, at: nat, k: Val, q: Machine, lab: Label) {
    var m := Run(fo, p, at);
    m.pc == Apply && m.locals.func == k ==>
      Run(fo, p, at + 4) == Resumed(q, lab, Out(m.status, Car(ListOf(m.locals.newargs)), Left(m)))
  }

  /** Whenever the value that call/cc has handed out is applied, at any later time and with any frames there are
      then, the evaluation of which the call/cc expression was the end returns with the argument. */
  lemma HandedOutReturns(fuel: nat, fo: ForeignFns, q: Machine, lab: Label, e: Val, made: nat, hdl: nat, func: Val,
      t: Heap) returns (n: nat, k: Val)
    requires var p := PushEval(q, lab, e);
      var c := Run(fo, p, made);
      && AtCallCc(c, hdl) && c.frames == p.frames && !Syntactic(func)
      && Evaluate(fuel, fo, c.store, NO_FLAGS, hdl, Car(Cdr(c.locals.input))) == Value(Out(EVAL_OK, func, t))
    ensures var p := PushEval(q, lab, e);
      Applies(Run(fo, p, made + n), func, [k]) && forall at: nat :: ReturnsAt(fo, p, at, k, q, lab)
  {
    hide Evaluate, Left, Step;
    var p := PushEval(q, lab, e);
    n := HandsOutFrames(fuel, fo, Run(fo, p, made), hdl, func, t);
    k := Cont(p.frames);
    Join(fo, p, made, n);
    forall at: nat
      ensures ReturnsAt(fo, p, at, k, q, lab)
    {
      var m := Run(fo, p, at);
      if m.pc == Apply && m.locals.func == k {
        ContinuationResumes(fo, m, q, lab);
        Join(fo, p, at, 4);
      }
    }
  }

  // ----- call/cc from beginning to end

  /** The call/cc expression (call/cc func) in the function position of which call/cc itself is written. */
  function CallCcOf(func: Val): Val {
    Cons(Special(MK_CONT), Cons(func, Nil))
  }

  /** An expression that calls call/cc with a function value gets to the call of the function. */
  lemma ReachesCallCc(fo: ForeignFns, p: Machine, hdl: nat, func: Val) returns (made: nat)
    requires p.pc == Restart && p.status == EVAL_OK && p.locals.envHdl == Some(hdl) && p.locals.input == CallCcOf(func)
    ensures var c := Run(fo, p, made);
      && AtCallCc(c, hdl) && c.frames == p.frames && c.store == p.store && c.locals.input == CallCcOf(func)
      && c.locals.state == p.locals.state
  {
    OneStep(fo, p);
    assert Evaluate(1, fo, p.store, NO_FLAGS, hdl, Special(MK_CONT)) == Value(Out(EVAL_OK, Special(MK_CONT), p.store));
    hide Evaluate;
    var j := InnerRefines(1, fo, p, hdl, PostFunc, Special(MK_CONT));
    Join(fo, p, 1, j);
    made := 1 + j;
  }

  /** (lambda (k) (k v)) */
  function Escape(env: Env, k: Name, v: Val): Val {
    Lambda(env, Cons(Sym(k), Nil), Cons(Cons(Sym(k), Cons(v, Nil)), Nil))
  }

  /** (call/cc (lambda (k) (k v))) for a name k and a value v that stands for itself: the evaluation returns v to the
      place where it was begun. */
  lemma CallCcReturns(fo: ForeignFns, q: Machine, lab: Label, hdl: nat, env: Env, k: Name, v: Val)
      returns (n: nat, t: Heap)
    requires q.status == EVAL_OK && q.locals.envHdl == Some(hdl) && hdl < |q.store.hdls| && q.store.Ok()
    requires InRange(q.store, env) && !v.Sym? && !v.Cons?
    ensures Run(fo, PushEval(q, lab, CallCcOf(Escape(env, k, v))), n) == Resumed(q, lab, Out(EVAL_OK, v, t))
  {
    var p := PushEval(q, lab, CallCcOf(Escape(env, k, v)));
    var a := EscapeCalled(fo, p, hdl, env, k, v);
    assert p.store == q.store && p.frames == [q.locals.(restart := Some(lab))] + q.frames;
    hide *;
    var b := AppliesContinuation(fo, Run(fo, p, a), hdl, env, k, v, Cont(p.frames));
    Join(fo, p, a, b);
    t := EscapeReturns(fo, q, lab, p, a + b, v);
    n := a + b + 4;
  }

  lemma EscapeReturns(fo: ForeignFns, q: Machine, lab: Label, p: Machine, n: nat, v: Val) returns (t: Heap)
    requires p.frames == [q.locals.(restart := Some(lab))] + q.frames && Applies(Run(fo, p, n), Cont(p.frames), [v])
    ensures Run(fo, p, n + 4) == Resumed(q, lab, Out(EVAL_OK, v, t))
  {
    hide Step, Left;
    var m := Run(fo, p, n);
    t := Left(m);
    ContinuationResumes(fo, m, q, lab);
    Join(fo, p, n, 4);
    assert ListOf([v]).car == v;
  }

  lemma EscapeCalled(fo: ForeignFns, p: Machine, hdl: nat, env: Env, k: Name, v: Val) returns (n: nat)
    requires p.pc == Restart && p.status == EVAL_OK && p.locals.envHdl == Some(hdl) && !p.locals.state.tail
    requires p.locals.input == CallCcOf(Escape(env, k, v))
    ensures var r := Run(fo, p, n);
      && Applies(r, Escape(env, k, v), [Cont(p.frames)]) && r.store == p.store
      && r.locals.envHdl == Some(hdl) && !r.locals.state.tail
  {
    var f := Escape(env, k, v);
    var made := ReachesCallCc(fo, p, hdl, f);
    var c := Run(fo, p, made);
    assert Evaluate(1, fo, c.store, NO_FLAGS, hdl, f) == Value(Out(EVAL_OK, f, c.store));
    hide Evaluate, Escape, Step;
    n := HandsOutFrames(1, fo, c, hdl, f, c.store);
    Join(fo, p, made, n);
    n := made + n;
  }

  /** The call of (lambda (k) (k v)) with a continuation, up to the application of that continuation to v. */
  lemma AppliesContinuation(fo: ForeignFns, m: Machine, hdl: nat, env: Env, k: Name, v: Val, cont: Val) returns (n: nat)
    requires cont.Cont? && !v.Sym? && !v.Cons? && Applies(m, Escape(env, k, v), [cont])
    requires m.locals.envHdl == Some(hdl) && !m.locals.state.tail
    requires hdl < |m.store.hdls| && m.store.Ok() && InRange(m.store, env)
    ensures Applies(Run(fo, m, n), cont, [v])
  {
    var h := EscapeBody(fo, m, hdl, env, k, v, cont);
    var j := Run(fo, m, 2);
    assert Evaluate(1, fo, j.store, NO_FLAGS, h, Sym(k)) == Value(Out(EVAL_OK, cont, j.store));
    hide Evaluate, Escape, Step, Run, Plain;
    n := CallsWithOne(1, fo, j, h, Sym(k), cont, v, j.store);
    Join(fo, m, 2, n);
    n := 2 + n;
  }

  lemma EscapeBody(fo: ForeignFns, m: Machine, hdl: nat, env: Env, k: Name, v: Val, cont: Val) returns (h: nat)
    requires Applies(m, Escape(env, k, v), [cont]) && m.locals.envHdl == Some(hdl) && !m.locals.state.tail
    requires hdl < |m.store.hdls| && m.store.Ok() && InRange(m.store, env)
    ensures var j := Run(fo, m, 2);
      && j.pc == Restart && j.status == EVAL_OK && j.locals.envHdl == Some(h)
      && j.locals.input == Cons(Sym(k), Cons(v, Nil)) && j.store.Lookup(j.store.At(h), k) == Some(cont)
  {
    var f := m.locals.func;
    h := |m.store.hdls|;
    assert ListOf([cont]) == Cons(cont, Nil) by {
      assert [cont][1..] == [];
    }
    CallIsLexical(m.store, env, f.vars, ListOf([cont]), k, m.store.At(hdl));
    assert Given(f.vars, ListOf([cont]), k) == Some(cont);
    EscapeSteps(fo, m, hdl, env, k, v, cont);
  }

  lemma EscapeSteps(fo: ForeignFns, m: Machine, hdl: nat, env: Env, k: Name, v: Val, cont: Val)
    requires Applies(m, Escape(env, k, v), [cont]) && m.locals.envHdl == Some(hdl) && !m.locals.state.tail
    ensures var e, j := Enter(m.store, m.locals.state, hdl, m.locals.func, [cont]), Run(fo, m, 2);
      e.status == EVAL_OK ==>
        && j.pc == Restart && j.status == EVAL_OK && j.locals.envHdl == Some(e.hdl) && j.store == e.store
        && j.locals.input == Cons(Sym(k), Cons(v, Nil))
  {
    hide Enter;
    OneStep(fo, m);
    OneStep(fo, Step(fo, m));
    Join(fo, m, 1, 1);
  }
}
