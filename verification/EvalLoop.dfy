/** eval as a loop that updates its local handles, the frame list and the environments in place. */
module EvalLoop {
  import opened Options
  import opened Environ
  import opened Eval
  import opened Machine
  import opened EnvironHeap
  import opened Refinement
  import opened Adequacy

  class Evaluator {
    // the saved local variables
    var state: Flags
    var restart: Option<Label>
    var cursor: Val
    var newargs: seq<Val>
    var envHdl: Option<nat>
    var func: Val
    var input: Val
    // the frame list, the result handle and the status
    var frames: seq<Locals>
    var result: Val
    var status: Err
    /** Where control is: the target of the next goto. */
    var pc: Pc
    const env: EnvHeap

    ghost function View(): Machine
      reads this, env
    {
      Machine(pc, status, Locals(state, restart, cursor, newargs, envHdl, func, input), frames, result, env.View())
    }

    constructor (env: EnvHeap, hdl: nat, input: Val)
      ensures this.env == env && View() == Start(old(env.View()), hdl, input)
    {
      this.env := env;
      state, restart, cursor, newargs, envHdl, func := NO_FLAGS, None, Nil, [], Some(hdl), Nil;
      this.input := input;
      frames, result, status, pc := [], Nil, EVAL_OK, Restart;
    }

    /** The handle to look names up in; a missing handle stands for one that was never made. */
    method CurrentHandle() returns (h: nat)
      ensures h == Handle(View())
    {
      h := if envHdl.Some? then envHdl.value else |env.hdls|;
    }

    /** frame_push with new locals that hold the environment handle and an inner expression; goto restart. */
    method FramePush(lab: Label, inner: Val)
      modifies this
      ensures View() == PushEval(old(View()), lab, inner)
    {
      restart := Some(lab);
      frames := [Locals(state, restart, cursor, newargs, envHdl, func, input)] + frames;
      state, restart, cursor, newargs, func := NO_FLAGS, None, Nil, [], Nil;
      input := inner;
      pc := Restart;
    }

    /** frame_pop */
    method FramePop()
      requires frames != []
      modifies this
      ensures View() == old(View()).(locals := old(frames[0]), frames := old(frames[1..]))
    {
      var l := frames[0];
      state, restart, cursor, newargs := l.state, l.restart, l.cursor, l.newargs;
      envHdl, func, input := l.envHdl, l.func, l.input;
      frames := frames[1..];
    }

    method Conclude(st: Err, v: Val)
      modifies this
      ensures View() == Ends(old(View()), st, v)
    {
      status, result, pc := st, v, Cleanup;
    }

    method AtRestart()
      requires pc == Restart
      modifies this
      ensures View() == StepRestart(old(View()))
    {
      match input {
        case Sym(name) =>
          var h := CurrentHandle();
          var v := env.Lookup(h, name);
          if v.Some? {
            result := v.value;
          } else {
            result, status := input, EVAL_ERR_UNRESOLVED_SYMBOL;
          }
          pc := Finish;
        case Cons(fe, args) =>
          if args != Nil && !args.Cons? {
            Conclude(EVAL_ERR_EXPECTED_CONS, args);
          } else {
            FramePush(PostFunc, fe);
          }
        case _ =>
          result, pc := input, Finish;
      }
    }

    method AtPostFunc()
      requires pc == At(PostFunc)
      modifies this
      ensures View() == StepPostFunc(old(View()))
    {
      hide PushEval, Ends;
      if status != EVAL_OK {
        pc := Cleanup;
        return;
      }
      if !ListLike(input) || !ListLike(Cdr(input)) {
        pc := AbortFrame;
        return;
      }
      func := result;
      var args := Cdr(input);
      if func.Special? {
        match func.s {
          case IF =>
            FramePush(PostTest, Car(args));
            return;
          case LAMBDA =>
            var h := CurrentHandle();
            Conclude(EVAL_OK, Lambda(env.Frames(h), Car(args), Cdr(args)));
            return;
          case QUOTE =>
            if Cdr(args) != Nil {
              Conclude(EVAL_ERR_TOO_MANY_ARGS, Cdr(args));
            } else {
              Conclude(EVAL_OK, Car(args));
            }
            return;
          case MK_CONT =>
            var temp := Cons(Cont(frames), Nil);
            input := Cons(Car(args), temp);
            state := state.(newInput := true);
            func := Nil;
            pc := Restart;
            return;
          case DEF =>
            DefOrSet(args);
            return;
          case SET =>
            DefOrSet(args);
            return;
          case _ =>
        }
      }
      newargs := [];
      cursor := args;
      pc := ArgsLoop;
    }

    /** The common beginning of def! and set!: remember the name and evaluate the value. */
    method DefOrSet(args: Val)
      modifies this
      ensures
        var c := old(View()).(locals := old(View()).locals.(cursor := Car(args)));
        View() == if !Car(args).Sym? then Ends(c, EVAL_ERR_EXPECTED_SYMBOL, Car(args))
                  else if !Cdr(args).Cons? then c.(status := EVAL_ERR_EXPECTED_CONS, result := Cdr(args), pc := Quit)
                  else PushEval(c, PostValue, Car(Cdr(args)))
    {
      cursor := Car(args);
      if !cursor.Sym? {
        Conclude(EVAL_ERR_EXPECTED_SYMBOL, cursor);
      } else if !Cdr(args).Cons? {
        status, result, pc := EVAL_ERR_EXPECTED_CONS, Cdr(args), Quit;
      } else {
        FramePush(PostValue, Car(Cdr(args)));
      }
    }

    method AtPostTest()
      requires pc == At(PostTest)
      modifies this
      ensures View() == StepPostTest(old(View()))
    {
      hide Ends;
      if status != EVAL_OK {
        pc := Cleanup;
        return;
      }
      if !ListLike(input) || !ListLike(Cdr(input)) {
        pc := AbortFrame;
        return;
      }
      var temp := Cdr(Cdr(input));
      if result != Nil {
        if temp.Cons? {
          result := Nil;
        }
      } else {
        if !temp.Cons? {
          Conclude(EVAL_ERR_EXPECTED_CONS, temp);
          return;
        }
        temp := temp.cdr;
      }
      if !temp.Cons? {
        Conclude(EVAL_ERR_EXPECTED_CONS, temp);
        return;
      }
      if state.newInput {
        temp := Nil;
        state := state.(newInput := false);
      }
      input := Car(temp);
      func := Nil;
      state := state.(tail := true);
      pc := Restart;
    }

    method AtPostValue()
      requires pc == At(PostValue)
      modifies this, env
      ensures View() == StepPostValue(old(View()))
    {
      if status != EVAL_OK {
        pc := Cleanup;
        return;
      }
      if !func.Special? || !cursor.Sym? {
        pc := AbortFrame;
        return;
      }
      var h := CurrentHandle();
      if func.s == DEF {
        env.Add(h, cursor.name, result);
      } else {
        var keyval := env.FindKeyval(h, cursor.name, true);
        if keyval.None? {
          Conclude(EVAL_ERR_UNRESOLVED_SYMBOL, cursor);
          return;
        }
        env.PatchBinding(keyval.value, result);
      }
      Conclude(EVAL_OK, cursor);
    }

    method AtArgsLoop()
      requires pc == ArgsLoop
      modifies this
      ensures View() == StepArgsLoop(old(View()))
    {
      if cursor == Nil {
        pc := Apply;
      } else if cursor.Cons? {
        FramePush(PostArg, cursor.car);
      } else {
        pc := Abort;
      }
    }

    method AtPostArg()
      requires pc == At(PostArg)
      modifies this
      ensures View() == StepPostArg(old(View()))
    {
      if status != EVAL_OK {
        newargs := [];
        pc := Cleanup;
      } else if !cursor.Cons? {
        pc := AbortFrame;
      } else {
        newargs := newargs + [result];
        cursor := cursor.cdr;
        pc := ArgsLoop;
      }
    }

    /** A lambda: outside of a tail call its frame is a child of the environment that it was made in. */
    method CallLambda(ghost fo: ForeignFns)
      requires pc == Apply && func.Lambda?
      modifies this, env
      ensures View() == StepApply(fo, old(View()))
    {
      if !state.tail {
        var h := env.NewHandle(func.env);
        envHdl := Some(h);
        env.PushFrame(h);
        state := state.(added := true);
      }
      var h := CurrentHandle();
      var st := env.BindParameters(h, func.vars, ListOf(newargs));
      if st != EVAL_OK {
        Conclude(st, func);
      } else {
        cursor := func.expr;
        pc := BodyLoop;
      }
    }

    /** A foreign function gets the arguments and the environment handle. */
    method CallForeign(fo: ForeignFns)
      requires pc == Apply && func.Foreign?
      modifies this, env
      ensures View() == StepApply(fo, old(View()))
    {
      var h := CurrentHandle();
      var (st, v, t) := fo(func.id, ListOf(newargs), Store(env.kvs, env.hdls), h);
      env.SetAll(t);
      Conclude(st, v);
    }

    method AtApply(fo: ForeignFns)
      requires pc == Apply
      modifies this, env
      ensures View() == StepApply(fo, old(View()))
    {
      hide Enter;
      match func {
        case Special(DEFINED) =>
          if newargs != [] && newargs[0].Sym? {
            var h := CurrentHandle();
            var keyval := env.FindKeyval(h, newargs[0].name, true);
            if keyval.Some? {
              result := Int(1);
            }
          }
          Conclude(EVAL_OK, result);
        case Special(EVAL) =>
          input := Car(ListOf(newargs));
          pc := Restart;
        case Special(_) => pc := AbortFrame;
        case Foreign(_) => CallForeign(fo);
        case Cont(bt) =>
          frames := bt;
          Conclude(status, Car(ListOf(newargs)));
        case Lambda(_, _, _) => CallLambda(fo);
        case _ => Conclude(EVAL_ERR_UNKNOWN_FUNCALL, func);
      }
    }

    method AtBodyLoop()
      requires pc == BodyLoop
      modifies this
      ensures View() == StepBodyLoop(old(View()))
    {
      if !cursor.Cons? {
        pc := Abort;
      } else if cursor.cdr == Nil {
        if state.newInput {
          input := Nil;
          state := state.(newInput := false);
        }
        input := cursor.car;
        state := state.(tail := true);
        newargs, func := [], Nil;
        pc := Restart;
      } else {
        FramePush(PostExpr, cursor.car);
      }
    }

    method AtPostExpr()
      requires pc == At(PostExpr)
      modifies this
      ensures View() == StepPostExpr(old(View()))
    {
      if status != EVAL_OK {
        pc := Cleanup;
      } else if !cursor.Cons? {
        pc := AbortFrame;
      } else {
        result := Nil;
        cursor := cursor.cdr;
        pc := BodyLoop;
      }
    }

    method AtFinish()
      requires pc == Finish
      modifies this, env
      ensures View() == StepFinish(old(View()))
    {
      if state.added {
        var h := CurrentHandle();
        env.PopFrame(h);
        envHdl := None;
      }
      pc := Return;
    }

    method AtReturn()
      requires pc == Return
      modifies this
      ensures View() == StepReturn(old(View()))
    {
      if frames == [] {
        pc := Halt;
      } else {
        FramePop();
        pc := if restart.Some? then At(restart.value) else AbortFrame;
      }
    }

    method Advance(fo: ForeignFns)
      modifies this, env
      ensures View() == Step(fo, old(View()))
    {
      match pc {
        case Restart => AtRestart();
        case At(PostFunc) => AtPostFunc();
        case At(PostTest) => AtPostTest();
        case At(PostValue) => AtPostValue();
        case At(PostArg) => AtPostArg();
        case At(PostExpr) => AtPostExpr();
        case ArgsLoop => AtArgsLoop();
        case Apply => AtApply(fo);
        case BodyLoop => AtBodyLoop();
        case Cleanup => func, newargs, pc := Nil, [], Finish;
        case Finish => AtFinish();
        case Return => AtReturn();
        case _ =>
      }
    }

    /** Run until the end, or for as many steps as the caller allows, since programs need not end. */
    method RunFor(fo: ForeignFns, limit: nat) returns (steps: nat)
      modifies this, env
      ensures View() == Run(fo, old(View()), steps)
      ensures steps <= limit && (pc in {Halt, Quit, Abort, AbortFrame} || steps == limit)
    {
      steps := 0;
      while steps < limit && pc !in {Halt, Quit, Abort, AbortFrame}
        invariant steps <= limit && View() == Run(fo, old(View()), steps)
      {
        OneStep(fo, View());
        Join(fo, old(View()), steps, 1);
        Advance(fo);
        steps := steps + 1;
      }
    }
  }

  /** The machine has returned: with a result when it has halted, without one when it has quit. */
  predicate Returned(m: Machine, status: Err, result: Option<Val>, store: Heap) {
    && m.status == status && m.store == store
    && if result.Some? then m.pc == Halt && m.result == result.value else m.pc == Quit
  }

  /** eval: it ends just if the machine returns within the limit, with the machine's status, result and
      environments; and if the recursive evaluator has an outcome, that is what it ends with, and without a
      result if the recursive evaluator comes to a def! or set! without a value. */
  method EvalExpression(fo: ForeignFns, env: EnvHeap, hdl: nat, input: Val, limit: nat)
    returns (ended: bool, status: Err, result: Option<Val>)
    modifies env
    ensures ended ==> exists n: nat ::
      n <= limit && Returned(Run(fo, Start(old(env.View()), hdl, input), n), status, result, env.View())
    ensures !ended ==> forall n: nat ::
      n <= limit ==> Run(fo, Start(old(env.View()), hdl, input), n).pc !in {Halt, Quit}
    ensures ended ==> forall fuel: nat :: Evaluate(fuel, fo, old(env.View()), NO_FLAGS, hdl, input).Value? ==>
      result.Some? &&
      Evaluate(fuel, fo, old(env.View()), NO_FLAGS, hdl, input).value == Out(status, result.value, env.View())
    ensures ended ==> forall fuel: nat, left: Heap ::
      Evaluate(fuel, fo, old(env.View()), NO_FLAGS, hdl, input) == NoValue(Some(left)) ==>
      status == EVAL_ERR_EXPECTED_CONS && result.None? && left == env.View()
  {
    var e := new Evaluator(env, hdl, input);
    ghost var m := e.View();
    var steps := e.RunFor(fo, limit);
    ended, status := e.pc == Halt || e.pc == Quit, e.status;
    result := if e.pc == Halt then Some(e.result) else None;
    if ended {
      assert Returned(Run(fo, m, steps), status, result, env.View());
      forall fuel: nat | Evaluate(fuel, fo, m.store, NO_FLAGS, hdl, input).Value?
        ensures EndsWith(fo, m, steps, Evaluate(fuel, fo, m.store, NO_FLAGS, hdl, input).value)
      {
        ReturnsOutcome(fuel, fo, m.store, hdl, input, steps);
      }
      forall fuel: nat, left: Heap | Evaluate(fuel, fo, m.store, NO_FLAGS, hdl, input) == NoValue(Some(left))
        ensures status == EVAL_ERR_EXPECTED_CONS && result.None? && left == env.View()
      {
        QuitsOutcome(fuel, fo, m.store, hdl, input, steps);
      }
    } else {
      forall n: nat | n <= limit
        ensures Run(fo, m, n).pc !in {Halt, Quit}
      {
        NotReturned(fo, m, steps, limit, n);
      }
    }
  }
}
