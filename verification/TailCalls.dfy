/** What evaluation keeps of the environments that exist, and the space that a chain of tail calls takes. */
module TailCalls {
  import opened Options
  import opened Environ
  import opened Eval
  import opened Binding
  import opened Machine
  import opened Refinement

  function Top(e: Env): seq<nat> {
    if e == [] then [] else e[0]
  }

  function Below(e: Env): Env {
    if e == [] then [] else e[1..]
  }

  /** The top frame has gained entries in front, for bindings from base to end; the frames below it are the
      same. */
  predicate Grown(a: Env, b: Env, base: nat, end: nat) {
    || b == a
    || (&& b != [] && Below(b) == Below(a) && |Top(a)| <= |Top(b)| && Top(b)[|Top(b)| - |Top(a)|..] == Top(a)
        && AllFrom(Top(b)[..|Top(b)| - |Top(a)|], base, end))
  }

  predicate AllFrom(f: seq<nat>, base: nat, end: nat) {
    forall i :: 0 <= i < |f| ==> base <= f[i] < end
  }

  /** Every handle there was, except possibly one, has only grown, by new bindings; bindings keep their names. */
  ghost predicate Kept(s: Heap, t: Heap, but: Option<nat>) {
    && |s.hdls| <= |t.hdls| && SameKeys(s, t)
    && forall h :: 0 <= h < |s.hdls| && but != Some(h) ==> Grown(s.At(h), t.At(h), |s.kvs|, |t.kvs|)
  }

  // ----- programs without def!, with symbols from a set of names

  /** Limits on what occurs in a program: none, or no def! and only symbols of these names. */
  type Limits = Option<set<Name>>

  /** The value is within the limits. Resuming a continuation is outside of the fragment, so what a
      continuation holds does not matter. */
  predicate Within(lim: Limits, v: Val) {
    lim.None? ||
    match v
    case Cons(a, d) => Within(lim, a) && Within(lim, d)
    case Lambda(_, vars, expr) => Within(lim, vars) && Within(lim, expr)
    case Special(sp) => sp != DEF
    case Sym(name) => name in lim.value
    case _ => true
  }

  predicate HeapWithin(lim: Limits, s: Heap) {
    forall i :: 0 <= i < |s.kvs| ==> Within(lim, s.kvs[i].val)
  }

  /** The top frame has one entry for each name, and only names of the set. */
  ghost predicate OneEntryEach(s: Heap, h: nat, names: set<Name>) {
    && s.At(h) != [] && Distinct(s, s.At(h)[0])
    && forall i :: 0 <= i < |s.At(h)[0]| ==> s.kvs[s.At(h)[0][i]].key in names
  }

  /** Such a frame has no more entries than there are names. */
  lemma {:induction false} FrameSize(s: Heap, f: seq<nat>, names: set<Name>)
    requires Distinct(s, f) && forall i :: 0 <= i < |f| ==> s.kvs[f[i]].key in names
    ensures |f| <= |names|
    decreases |f|
  {
    if f != [] {
      var key := s.kvs[f[0]].key;
      assert forall i :: 0 <= i < |f[1..]| ==> f[1..][i] == f[i + 1];
      FrameSize(s, f[1..], names - {key});
    }
  }

  ghost predicate Tidy(s: Heap, t: Heap, but: Option<nat>, lim: Limits) {
    lim.None? ||
    forall h :: 0 <= h < |s.hdls| && but != Some(h) && OneEntryEach(s, h, lim.value) ==> OneEntryEach(t, h, lim.value)
  }

  lemma {:induction false} ListWithin(lim: Limits, vs: seq<Val>)
    requires forall i :: 0 <= i < |vs| ==> Within(lim, vs[i])
    ensures Within(lim, ListOf(vs))
  {
    if vs != [] {
      ListWithin(lim, vs[1..]);
    }
  }

  lemma PartsWithin(lim: Limits, v: Val)
    requires Within(lim, v)
    ensures Within(lim, Car(v)) && Within(lim, Cdr(v))
  {
  }

  lemma LambdaWithin(lim: Limits, env: Env, vars: Val, expr: Val)
    requires Within(lim, vars) && Within(lim, expr)
    ensures Within(lim, Lambda(env, vars, expr)) && Within(lim, Nil)
  {
  }

  // ----- one step after the other

  /** What an evaluation from s that gets to t with a result keeps. */
  ghost predicate After(s: Heap, t: Heap, but: Option<nat>, lim: Limits, result: Val) {
    Kept(s, t, but) && HeapWithin(lim, t) && Within(lim, result) && Tidy(s, t, but, lim)
  }

  /** Foreign functions keep what evaluation keeps. Those that look at their arguments only do, and those that
      add bindings to their environment do as long as there are no limits. */
  ghost predicate ForeignKeeps(fo: ForeignFns, lim: Limits) {
    forall id: nat, args: Val, s: Heap, h: nat :: h < |s.hdls| && HeapWithin(lim, s) && Within(lim, args) ==>
      After(s, fo(id, args, s, h).2, None, lim, fo(id, args, s, h).1)
  }

  lemma GrownTrans(a: Env, b: Env, c: Env, base: nat, mid: nat, end: nat)
    requires Grown(a, b, base, mid) && Grown(b, c, mid, end) && base <= mid <= end
    ensures Grown(a, c, base, end)
  {
    if b != a && c != b {
      var k := |Top(c)| - |Top(b)|;
      assert Top(c)[|Top(c)| - |Top(a)|..] == Top(c)[k..][|Top(b)| - |Top(a)|..];
      assert Top(c)[..|Top(c)| - |Top(a)|] == Top(c)[..k] + Top(b)[..|Top(b)| - |Top(a)|];
    }
  }

  lemma KeptTrans(s: Heap, t: Heap, u: Heap, but: Option<nat>, end: Option<nat>)
    requires Kept(s, t, None) && Kept(t, u, but)
    requires but.Some? ==> but == end || but.value >= |s.hdls|
    ensures Kept(s, u, end)
  {
    forall h | 0 <= h < |s.hdls| && end != Some(h)
      ensures Grown(s.At(h), u.At(h), |s.kvs|, |u.kvs|)
    {
      GrownTrans(s.At(h), t.At(h), u.At(h), |s.kvs|, |t.kvs|, |u.kvs|);
    }
  }

  /** The second evaluation may spoil one handle if the first one made it, or if that one is excepted at the end. */
  lemma AfterTrans(s: Heap, t: Heap, u: Heap, but: Option<nat>, end: Option<nat>, lim: Limits, a: Val, b: Val)
    requires After(s, t, None, lim, a) && After(t, u, but, lim, b)
    requires but.Some? ==> but == end || but.value >= |s.hdls|
    ensures After(s, u, end, lim, b)
  {
    hide Grown, OneEntryEach, HeapWithin, Within;
    KeptTrans(s, t, u, but, end);
  }

  /** What is kept of a single handle. */
  lemma AfterHandle(s: Heap, t: Heap, lim: Limits, v: Val, h: nat)
    requires After(s, t, None, lim, v) && h < |s.hdls|
    ensures h < |t.hdls| && (s.At(h) != [] ==> |t.At(h)| == |s.At(h)| && Below(t.At(h)) == Below(s.At(h)))
    ensures lim.Some? && OneEntryEach(s, h, lim.value) ==> OneEntryEach(t, h, lim.value)
    ensures |s.kvs| <= |t.kvs|
    ensures forall base: nat :: base <= |s.kvs| && AllFrom(Top(s.At(h)), base, |s.kvs|) ==>
      AllFrom(Top(t.At(h)), base, |t.kvs|)
  {
    var a, b := Top(s.At(h)), Top(t.At(h));
    assert Grown(s.At(h), t.At(h), |s.kvs|, |t.kvs|);
    assert t.At(h) != s.At(h) ==> b == b[..|b| - |a|] + a;
  }

  lemma AfterSame(s: Heap, lim: Limits, result: Val)
    requires HeapWithin(lim, s) && Within(lim, result)
    ensures After(s, s, None, lim, result)
  {
  }

  lemma AfterWithin(s: Heap, t: Heap, lim: Limits, v: Val)
    requires After(s, t, None, lim, v)
    ensures |s.hdls| <= |t.hdls| && HeapWithin(lim, t) && Within(lim, v)
  {
  }

  // ----- binding

  lemma BindOneGrows(s: Heap, h: nat, name: Name, val: Val)
    requires h < |s.hdls|
    ensures Kept(s, BindOne(s, h, name, val), None) && |BindOne(s, h, name, val).hdls| == |s.hdls|
  {
    if s.FindTop(s.At(h), name).None? {
      var a, b := s.At(h), BindOne(s, h, name, val).At(h);
      assert Top(b)[1..] == Top(a) && Below(b) == Below(a) && Top(b)[..1] == [|s.kvs|];
      assert Grown(a, b, |s.kvs|, |s.kvs| + 1);
    }
  }

  lemma {:induction false} LambdaBindGrows(s: Heap, h: nat, vars: Val, args: Val)
    requires h < |s.hdls|
    ensures Kept(s, LambdaBind(s, h, vars, args).1, None)
    decreases vars
  {
    hide Kept, BindOne;
    match vars {
      case Cons(name, rest) =>
        if args.Cons? && name.Sym? {
          var b := BindOne(s, h, name.name, args.car);
          BindOneGrows(s, h, name.name, args.car);
          LambdaBindGrows(b, h, rest, args.cdr);
          KeptTrans(s, b, LambdaBind(b, h, rest, args.cdr).1, None, None);
        } else {
          KeptSame(s);
        }
      case Sym(name) => BindOneGrows(s, h, name, args);
      case _ => KeptSame(s);
    }
  }

  lemma KeptSame(s: Heap)
    ensures Kept(s, s, None)
  {
  }

  lemma {:induction false} LambdaBindWithin(lim: Limits, s: Heap, h: nat, vars: Val, args: Val)
    requires HeapWithin(lim, s) && Within(lim, args)
    ensures HeapWithin(lim, LambdaBind(s, h, vars, args).1)
    decreases vars
  {
    if vars.Cons? && args.Cons? && vars.car.Sym? {
      LambdaBindWithin(lim, BindOne(s, h, vars.car.name, args.car), h, vars.cdr, args.cdr);
    }
  }

  lemma {:induction false} LambdaBindOthers(s: Heap, h: nat, vars: Val, args: Val, g: nat)
    requires h < |s.hdls| && g < |s.hdls| && g != h
    ensures LambdaBind(s, h, vars, args).1.At(g) == s.At(g)
    decreases vars
  {
    if vars.Cons? && args.Cons? && vars.car.Sym? {
      LambdaBindOthers(BindOne(s, h, vars.car.name, args.car), h, vars.cdr, args.cdr, g);
    }
  }

  lemma BindOneTidy(s: Heap, h: nat, name: Name, val: Val, names: set<Name>)
    requires h < |s.hdls| && OneEntryEach(s, h, names) && name in names
    ensures OneEntryEach(BindOne(s, h, name, val), h, names) && |BindOne(s, h, name, val).hdls| == |s.hdls|
  {
    BindOneDistinct(s, h, name, val);
    var top := s.At(h)[0];
    assert BindOne(s, h, name, val).At(h)[0] in {top, [|s.kvs|] + top};
  }

  /** However often parameters are bound into a frame, it has one entry for each name. */
  lemma {:induction false} LambdaBindTidy(s: Heap, h: nat, vars: Val, args: Val, names: set<Name>)
    requires h < |s.hdls| && OneEntryEach(s, h, names) && Within(Some(names), vars)
    ensures OneEntryEach(LambdaBind(s, h, vars, args).1, h, names)
    decreases vars
  {
    hide OneEntryEach, BindOne;
    match vars {
      case Cons(name, rest) =>
        if args.Cons? && name.Sym? {
          BindOneTidy(s, h, name.name, args.car, names);
          LambdaBindTidy(BindOne(s, h, name.name, args.car), h, rest, args.cdr, names);
        }
      case Sym(name) => BindOneTidy(s, h, name, args, names);
      case _ =>
    }
  }

  lemma BindAfter(s: Heap, h: nat, vars: Val, args: Val, lim: Limits)
    requires h < |s.hdls| && HeapWithin(lim, s) && Within(lim, args) && Within(lim, vars)
    ensures After(s, LambdaBind(s, h, vars, args).1, None, lim, Nil)
  {
    var t := LambdaBind(s, h, vars, args).1;
    hide Grown, HeapWithin;
    LambdaBindGrows(s, h, vars, args);
    LambdaBindWithin(lim, s, h, vars, args);
    if lim.Some? {
      forall g | 0 <= g < |s.hdls| && OneEntryEach(s, g, lim.value)
        ensures OneEntryEach(t, g, lim.value)
      {
        if g == h {
          LambdaBindTidy(s, h, vars, args, lim.value);
        } else {
          LambdaBindOthers(s, h, vars, args, g);
        }
      }
    }
  }

  // ----- evaluation

  /** Either the activation still has its handle, or it has gone over to a new one with one frame on top of what
      the lambda fn captured; behind a tail call it never does. */
  ghost predicate Handles(s: Heap, t: Heap, flags: Flags, hdl: nat, fl: Flags, h: nat, lim: Limits, fn: Val) {
    && h < |t.hdls| && (flags.tail ==> fl.tail)
    && ((h == hdl && fl.added == flags.added)
        || (!flags.tail && h >= |s.hdls| && fl.added && FreshFrame(t, h, lim, fn, |s.kvs|)))
  }

  /** The top frame lies on what the lambda fn captured, and all of its bindings are from base on. */
  ghost predicate FreshFrame(t: Heap, h: nat, lim: Limits, fn: Val, base: nat) {
    && t.At(h) != [] && fn.Lambda? && Below(t.At(h)) == fn.env
    && base <= |t.kvs| && AllFrom(Top(t.At(h)), base, |t.kvs|)
    && (lim.Some? ==> OneEntryEach(t, h, lim.value))
  }

  ghost predicate RoundAfter(s: Heap, flags: Flags, hdl: nat, r: Round, lim: Limits, fn: Val) {
    match r
    case Stuck(_) => true
    case Done(out, fl, h) =>
      After(s, out.store, None, lim, out.result) && Handles(s, out.store, flags, hdl, fl, h, lim, fn)
    case Jump(t, fl, h, next) =>
      After(s, t, None, lim, next) && Handles(s, t, flags, hdl, fl, h, lim, fn) && (fl.added ==> fl.tail)
  }

  /** What an evaluation is started with. */
  ghost predicate Starts(fo: ForeignFns, s: Heap, hdl: nat, v: Val, lim: Limits) {
    hdl < |s.hdls| && ForeignKeeps(fo, lim) && HeapWithin(lim, s) && Within(lim, v)
  }

  /** What the function position of an expression evaluates to. */
  function Callee(fuel: nat, fo: ForeignFns, s: Heap, hdl: nat, input: Val): Val
    requires fuel > 0
  {
    if !input.Cons? then Nil
    else
      var f := Evaluate(fuel - 1, fo, s, NO_FLAGS, hdl, input.car);
      if f.Value? then f.value.result else Nil
  }

  /** Evaluating keeps every environment handle there was, apart from new entries in its top frame; a frame
      that the activation added before is popped again. */
  lemma {:induction false} EvaluateKeeps(fuel: nat, fo: ForeignFns, s: Heap, flags: Flags, hdl: nat, input: Val,
      lim: Limits)
    requires Starts(fo, s, hdl, input, lim) && (flags.added ==> flags.tail)
    requires Evaluate(fuel, fo, s, flags, hdl, input).Value?
    ensures var out := Evaluate(fuel, fo, s, flags, hdl, input).value;
      After(s, out.store, if flags.added then Some(hdl) else None, lim, out.result)
    decreases fuel, 5, input
  {
    hide Kept, Tidy, OneEntryEach, HeapWithin, Within, OneRound, ForeignKeeps, FreshFrame;
    var end := if flags.added then Some(hdl) else None;
    RoundKeeps(fuel, fo, s, flags, hdl, input, lim);
    match OneRound(fuel, fo, s, flags, hdl, input) {
      case Stuck(_) =>
      case Done(out, fl, h) =>
        if fl.added {
          PopAfter(out.store, h, lim, out.result);
          AfterTrans(s, out.store, out.store.Pop(h), Some(h), end, lim, out.result, out.result);
        } else {
          assert flags.added ==> fl.added;
        }
      case Jump(t, fl, h, next) =>
        EvaluateKeeps(fuel - 1, fo, t, fl, h, next, lim);
        var out := Evaluate(fuel - 1, fo, t, fl, h, next).value;
        AfterTrans(s, t, out.store, if fl.added then Some(h) else None, end, lim, next, out.result);
    }
  }

  lemma PopAfter(s: Heap, h: nat, lim: Limits, result: Val)
    requires HeapWithin(lim, s) && Within(lim, result)
    ensures After(s, s.Pop(h), Some(h), lim, result)
  {
  }

  lemma {:induction false} RoundKeeps(fuel: nat, fo: ForeignFns, s: Heap, flags: Flags, hdl: nat, input: Val,
      lim: Limits)
    requires fuel > 0 && Starts(fo, s, hdl, input, lim) && (flags.added ==> flags.tail)
    ensures RoundAfter(s, flags, hdl, OneRound(fuel, fo, s, flags, hdl, input), lim, Callee(fuel, fo, s, hdl, input))
    decreases fuel, 4, input
  {
    match input {
      case Sym(name) => AtomKeeps(fuel, fo, s, flags, hdl, input, lim);
      case Cons(fe, args) =>
        PartsWithin(lim, input);
        if args.Nil? || args.Cons? {
          var f := Evaluate(fuel - 1, fo, s, NO_FLAGS, hdl, fe);
          if f.Value? {
            EvaluateKeeps(fuel - 1, fo, s, NO_FLAGS, hdl, fe, lim);
            if f.value.status == EVAL_OK {
              hide ApplyTo, Kept, Tidy, HeapWithin, Within, ForeignKeeps, Handles;
              AfterWithin(s, f.value.store, lim, f.value.result);
              ApplyKeeps(fuel, fo, f.value.store, flags, hdl, f.value.result, args, lim);
              RoundTrans(s, f.value.store, flags, hdl, OneRound(fuel, fo, s, flags, hdl, input), lim, f.value.result,
                         f.value.result);
            }
          }
        } else {
          AfterSame(s, lim, args);
        }
      case _ => AtomKeeps(fuel, fo, s, flags, hdl, input, lim);
    }
  }

  lemma AtomKeeps(fuel: nat, fo: ForeignFns, s: Heap, flags: Flags, hdl: nat, input: Val, lim: Limits)
    requires fuel > 0 && Starts(fo, s, hdl, input, lim) && !input.Cons?
    ensures RoundAfter(s, flags, hdl, OneRound(fuel, fo, s, flags, hdl, input), lim, Nil)
  {
    hide Kept, Tidy, ForeignKeeps, FreshFrame;
    var r := OneRound(fuel, fo, s, flags, hdl, input);
    assert Within(lim, r.out.result);
    AfterSame(s, lim, r.out.result);
  }

  lemma RoundTrans(s: Heap, t: Heap, flags: Flags, hdl: nat, r: Round, lim: Limits, v: Val, fn: Val)
    requires After(s, t, None, lim, v) && RoundAfter(t, flags, hdl, r, lim, fn)
    ensures RoundAfter(s, flags, hdl, r, lim, fn)
  {
    hide Tidy, HeapWithin, Within, Grown;
    match r {
      case Stuck(_) =>
      case Done(out, _, _) => AfterTrans(s, t, out.store, None, None, lim, v, out.result);
      case Jump(u, _, _, next) => AfterTrans(s, t, u, None, None, lim, v, next);
    }
  }

  lemma {:induction false} ApplyKeeps(fuel: nat, fo: ForeignFns, s: Heap, flags: Flags, hdl: nat, func: Val,
      args: Val, lim: Limits)
    requires fuel > 0 && Starts(fo, s, hdl, args, lim) && Within(lim, func) && (flags.added ==> flags.tail)
    ensures RoundAfter(s, flags, hdl, ApplyTo(fuel, fo, s, flags, hdl, func, args), lim, func)
    decreases fuel, 3, args, 1
  {
    hide EvalIf, EvalAssign, EvalArgs, Call, Tidy, Kept, HeapWithin, ForeignKeeps, FreshFrame;
    PartsWithin(lim, args);
    PartsWithin(lim, Cdr(args));
    if func == Special(IF) {
      IfKeeps(fuel, fo, s, flags, hdl, args, lim);
    } else if func == Special(DEF) || func == Special(SET) {
      AssignKeeps(fuel, fo, s, flags, hdl, func.s, args, lim);
    } else if func == Special(LAMBDA) || func == Special(QUOTE) || func == Special(MK_CONT) {
      hide Within;
      var lambda := Lambda(s.At(hdl), Car(args), Cdr(args));
      LambdaWithin(lim, s.At(hdl), Car(args), Cdr(args));
      AfterSame(s, lim, lambda);
      AfterSame(s, lim, Car(args));
      AfterSame(s, lim, Cdr(args));
    } else {
      ArgsCallKeep(fuel, fo, s, flags, hdl, func, args, lim);
    }
  }

  lemma {:induction false} ArgsCallKeep(fuel: nat, fo: ForeignFns, s: Heap, flags: Flags, hdl: nat, func: Val,
      args: Val, lim: Limits)
    requires fuel > 0 && Starts(fo, s, hdl, args, lim) && Within(lim, func) && (flags.added ==> flags.tail)
    requires !Syntactic(func)
    ensures RoundAfter(s, flags, hdl, ApplyTo(fuel, fo, s, flags, hdl, func, args), lim, func)
    decreases fuel, 3, args, 0
  {
    hide EvalArgs, Call, Tidy, Kept, HeapWithin, Within, ForeignKeeps, FreshFrame;
    ArgsKeep(fuel, fo, s, hdl, args, func, lim);
    match EvalArgs(fuel, fo, s, hdl, args, func) {
      case ArgsStuck(_) =>
      case ArgsErr(out) => AfterWithin(s, out.store, lim, out.result);
      case ArgsOk(vals, last, t) =>
        AfterWithin(s, t, lim, last);
        CallKeeps(fuel, fo, t, flags, hdl, func, vals, last, lim);
        RoundTrans(s, t, flags, hdl, Call(fuel, fo, t, flags, hdl, func, vals, last), lim, last, func);
    }
  }

  lemma {:induction false} IfKeeps(fuel: nat, fo: ForeignFns, s: Heap, flags: Flags, hdl: nat, args: Val, lim: Limits)
    requires fuel > 0 && Starts(fo, s, hdl, args, lim) && (flags.added ==> flags.tail)
    ensures RoundAfter(s, flags, hdl, EvalIf(fuel, fo, s, flags, hdl, args), lim, Special(IF))
    decreases fuel, 2, args
  {
    hide Kept, Tidy, HeapWithin, Within, ForeignKeeps, Branch;
    PartsWithin(lim, args);
    if Evaluate(fuel - 1, fo, s, NO_FLAGS, hdl, Car(args)).Value? {
      EvaluateKeeps(fuel - 1, fo, s, NO_FLAGS, hdl, Car(args), lim);
      BranchKeeps(s, Evaluate(fuel - 1, fo, s, NO_FLAGS, hdl, Car(args)).value, flags, hdl, Cdr(args), lim);
    }
  }

  lemma BranchKeeps(s: Heap, test: Out, flags: Flags, hdl: nat, rest: Val, lim: Limits)
    requires hdl < |s.hdls| && After(s, test.store, None, lim, test.result) && Within(lim, rest)
    ensures RoundAfter(s, flags, hdl, Branch(test, flags, hdl, rest), lim, Special(IF))
    ensures hdl < |test.store.hdls|
  {
    hide Tidy, HeapWithin, Within, Grown, SameKeys;
    PartsWithin(lim, rest);
    PartsWithin(lim, Cdr(rest));
    AtomsWithin(lim);
  }

  lemma AtomsWithin(lim: Limits)
    ensures Within(lim, Nil) && forall n :: Within(lim, Int(n))
  {
  }

  lemma {:induction false} AssignKeeps(fuel: nat, fo: ForeignFns, s: Heap, flags: Flags, hdl: nat, sp: SpecialFn,
      args: Val, lim: Limits)
    requires fuel > 0 && Starts(fo, s, hdl, args, lim) && (lim.Some? ==> sp != DEF) && (flags.added ==> flags.tail)
    ensures RoundAfter(s, flags, hdl, EvalAssign(fuel, fo, s, flags, hdl, sp, args), lim, Special(sp))
    decreases fuel, 2, args
  {
    hide Kept, Tidy, HeapWithin, Within, FreshFrame, Assign, ForeignKeeps;
    PartsWithin(lim, args);
    PartsWithin(lim, Cdr(args));
    AfterSame(s, lim, Car(args));
    if Car(args).Sym? && Cdr(args).Cons? {
      var v := Evaluate(fuel - 1, fo, s, NO_FLAGS, hdl, Car(Cdr(args)));
      if v.Value? {
        EvaluateKeeps(fuel - 1, fo, s, NO_FLAGS, hdl, Car(Cdr(args)), lim);
        AfterWithin(s, v.value.store, lim, v.value.result);
        if v.value.status == EVAL_OK {
          var out := Assign(v.value.store, hdl, sp, Car(args), v.value.result);
          SetAfter(v.value.store, hdl, sp, Car(args), v.value.result, lim);
          AfterTrans(s, v.value.store, out.store, None, None, lim, v.value.result, out.result);
          AfterWithin(s, out.store, lim, out.result);
        }
      }
    }
  }

  lemma SetAfter(s: Heap, hdl: nat, sp: SpecialFn, name: Val, val: Val, lim: Limits)
    requires hdl < |s.hdls| && name.Sym? && (lim.Some? ==> sp != DEF)
    requires HeapWithin(lim, s) && Within(lim, val) && Within(lim, name)
    ensures After(s, Assign(s, hdl, sp, name, val).store, None, lim, Assign(s, hdl, sp, name, val).result)
  {
  }

  ghost predicate ArgsAfter(s: Heap, a: Args, lim: Limits) {
    match a
    case ArgsStuck(_) => true
    case ArgsErr(out) => After(s, out.store, None, lim, out.result)
    case ArgsOk(vals, last, t) => After(s, t, None, lim, last) && forall i :: 0 <= i < |vals| ==> Within(lim, vals[i])
  }

  lemma {:induction false} ArgsKeep(fuel: nat, fo: ForeignFns, s: Heap, hdl: nat, args: Val, last: Val, lim: Limits)
    requires fuel > 0 && Starts(fo, s, hdl, args, lim) && Within(lim, last)
    ensures ArgsAfter(s, EvalArgs(fuel, fo, s, hdl, args, last), lim)
    decreases fuel, 2, args, 0
  {
    hide Kept, Tidy, HeapWithin, ForeignKeeps, Within;
    PartsWithin(lim, args);
    AfterSame(s, lim, last);
    if args.Cons? {
      var v := Evaluate(fuel - 1, fo, s, NO_FLAGS, hdl, args.car);
      if v.Value? {
        EvaluateKeeps(fuel - 1, fo, s, NO_FLAGS, hdl, args.car, lim);
        AfterWithin(s, v.value.store, lim, v.value.result);
        if v.value.status == EVAL_OK {
          ArgsKeep(fuel, fo, v.value.store, hdl, args.cdr, v.value.result, lim);
          match EvalArgs(fuel, fo, v.value.store, hdl, args.cdr, v.value.result) {
            case ArgsStuck(_) =>
            case ArgsErr(out) => AfterTrans(s, v.value.store, out.store, None, None, lim, v.value.result, out.result);
            case ArgsOk(_, l, t) => AfterTrans(s, v.value.store, t, None, None, lim, v.value.result, l);
          }
        }
      }
    }
  }

  lemma {:induction false} CallKeeps(fuel: nat, fo: ForeignFns, s: Heap, flags: Flags, hdl: nat, func: Val,
      vals: seq<Val>, last: Val, lim: Limits)
    requires fuel > 0 && Starts(fo, s, hdl, func, lim) && (flags.added ==> flags.tail)
    requires Within(lim, last) && forall i :: 0 <= i < |vals| ==> Within(lim, vals[i])
    ensures RoundAfter(s, flags, hdl, Call(fuel, fo, s, flags, hdl, func, vals, last), lim, func)
    decreases fuel, 2, func
  {
    ListWithin(lim, vals);
    PartsWithin(lim, ListOf(vals));
    hide Kept, Tidy, HeapWithin, FreshFrame, Enter;
    match func {
      case Lambda(_, _, expr) =>
        var e := Enter(s, flags, hdl, func, vals);
        EnterKeeps(s, flags, hdl, func, vals, lim);
        hide Within, EvalBody;
        AfterWithin(s, e.store, lim, func);
        if e.status == EVAL_OK {
          BodyKeeps(fuel, fo, e.store, e.flags, e.hdl, expr, lim);
          CallTrans(s, e, flags, hdl, EvalBody(fuel, fo, e.store, e.flags, e.hdl, expr), lim, func);
        }
      case Foreign(id) => assert ForeignKeeps(fo, lim);
      case _ =>
        AfterSame(s, lim, last);
        AfterSame(s, lim, Int(1));
        AfterSame(s, lim, Car(ListOf(vals)));
        AfterSame(s, lim, func);
    }
  }

  /** Binding the parameters of a call. */
  lemma EnterKeeps(s: Heap, flags: Flags, hdl: nat, func: Val, vals: seq<Val>, lim: Limits)
    requires hdl < |s.hdls| && func.Lambda? && HeapWithin(lim, s) && Within(lim, func) && Within(lim, ListOf(vals))
    ensures var e := Enter(s, flags, hdl, func, vals);
      && After(s, e.store, None, lim, func) && e.hdl < |e.store.hdls|
      && Within(lim, func.vars) && Within(lim, func.expr)
      && if flags.tail then e.flags == flags && e.hdl == hdl
         else e.flags == flags.(added := true) && e.hdl == |s.hdls| && FreshFrame(e.store, e.hdl, lim, func, |s.kvs|)
  {
    hide Grown, Within, Tidy;
    assert Within(lim, func.vars) && Within(lim, func.expr) && Within(lim, Nil) by {
      LambdaParts(lim, func);
    }
    var c := if flags.tail then s else CallFrame(s, func.env);
    var h := if flags.tail then hdl else |s.hdls|;
    FrameAfter(s, func.env, lim);
    AfterSame(s, lim, Nil);
    BindAfter(c, h, func.vars, ListOf(vals), lim);
    var b := LambdaBind(c, h, func.vars, ListOf(vals)).1;
    AfterTrans(s, c, b, None, None, lim, Nil, Nil);
    AfterHandle(c, b, lim, Nil, h);
  }

  lemma LambdaParts(lim: Limits, func: Val)
    requires func.Lambda? && Within(lim, func)
    ensures Within(lim, func.vars) && Within(lim, func.expr) && Within(lim, Nil)
  {
  }

  lemma FrameAfter(s: Heap, env: Env, lim: Limits)
    requires HeapWithin(lim, s)
    ensures After(s, CallFrame(s, env), None, lim, Nil) && |CallFrame(s, env).hdls| == |s.hdls| + 1
    ensures CallFrame(s, env).At(|s.hdls|) != [] && Below(CallFrame(s, env).At(|s.hdls|)) == env
    ensures lim.Some? ==> OneEntryEach(CallFrame(s, env), |s.hdls|, lim.value)
    ensures Top(CallFrame(s, env).At(|s.hdls|)) == [] && |CallFrame(s, env).kvs| == |s.kvs|
  {
    assert CallFrame(s, env).At(|s.hdls|) == [[]] + env;
  }

  /** From the body, which keeps its handle, back to the call that may have made it. */
  lemma CallTrans(s: Heap, e: Entry, flags: Flags, hdl: nat, r: Round, lim: Limits, fn: Val)
    requires After(s, e.store, None, lim, fn) && e.hdl < |e.store.hdls|
    requires if flags.tail then e.flags == flags && e.hdl == hdl
             else e.flags == flags.(added := true) && e.hdl == |s.hdls| && FreshFrame(e.store, e.hdl, lim, fn, |s.kvs|)
    requires BodyAfter(e.store, e.flags, e.hdl, r, lim)
    ensures RoundAfter(s, flags, hdl, r, lim, fn)
  {
    hide Kept, Tidy, HeapWithin, Within, OneEntryEach;
    match r {
      case Stuck(_) =>
      case Done(out, _, _) =>
        AfterTrans(s, e.store, out.store, None, None, lim, fn, out.result);
        AfterHandle(e.store, out.store, lim, out.result, e.hdl);
      case Jump(u, _, _, next) =>
        AfterTrans(s, e.store, u, None, None, lim, fn, next);
        AfterHandle(e.store, u, lim, next, e.hdl);
    }
  }

  /** A body keeps its handle; it ends by an error, or by a jump that marks the tail call. */
  ghost predicate BodyAfter(s: Heap, flags: Flags, hdl: nat, r: Round, lim: Limits) {
    match r
    case Stuck(_) => true
    case Done(out, fl, h) => After(s, out.store, None, lim, out.result) && fl == flags && h == hdl
    case Jump(t, fl, h, next) => After(s, t, None, lim, next) && fl.tail && fl.added == flags.added && h == hdl
  }

  lemma {:induction false} BodyKeeps(fuel: nat, fo: ForeignFns, s: Heap, flags: Flags, hdl: nat, exprs: Val,
      lim: Limits)
    requires fuel > 0 && Starts(fo, s, hdl, exprs, lim)
    ensures BodyAfter(s, flags, hdl, EvalBody(fuel, fo, s, flags, hdl, exprs), lim)
    decreases fuel, 1, exprs
  {
    hide Kept, Tidy, HeapWithin, Within, ForeignKeeps;
    PartsWithin(lim, exprs);
    AfterSame(s, lim, Car(exprs));
    if exprs.Cons? && exprs.cdr != Nil {
      var v := Evaluate(fuel - 1, fo, s, NO_FLAGS, hdl, exprs.car);
      if v.Value? {
        EvaluateKeeps(fuel - 1, fo, s, NO_FLAGS, hdl, exprs.car, lim);
        AfterWithin(s, v.value.store, lim, v.value.result);
        if v.value.status == EVAL_OK {
          BodyKeeps(fuel, fo, v.value.store, flags, hdl, exprs.cdr, lim);
          match EvalBody(fuel, fo, v.value.store, flags, hdl, exprs.cdr) {
            case Stuck(_) =>
            case Done(out, _, _) => AfterTrans(s, v.value.store, out.store, None, None, lim, v.value.result,
              out.result);
            case Jump(u, _, _, next) => AfterTrans(s, v.value.store, u, None, None, lim, v.value.result, next);
          }
        }
      }
    }
  }

  // ----- chains of tail calls

  /** Where an activation is after k jumps back to its start, if it has not ended before. */
  function Chain(fuel: nat, fo: ForeignFns, s: Heap, flags: Flags, hdl: nat, input: Val, k: nat): Round
    decreases k
  {
    if k == 0 then Jump(s, flags, hdl, input)
    else if fuel == 0 then Stuck(None)
    else
      match OneRound(fuel, fo, s, flags, hdl, input)
      case Jump(t, fl, h, next) => Chain(fuel - 1, fo, t, fl, h, next, k - 1)
      case r => r
  }

  /** How many of the k rounds have made a new handle and pushed a frame. */
  function FramesAdded(fuel: nat, fo: ForeignFns, s: Heap, flags: Flags, hdl: nat, input: Val, k: nat): nat
    decreases k
  {
    if k == 0 || fuel == 0 then 0
    else
      match OneRound(fuel, fo, s, flags, hdl, input)
      case Jump(t, fl, h, next) => (if h != hdl then 1 else 0) + FramesAdded(fuel - 1, fo, t, fl, h, next, k - 1)
      case _ => 0
  }

  /** However many jumps, the machine's frame list at each of them is the one at the start. */
  lemma {:induction false} ChainFrames(fuel: nat, fo: ForeignFns, m: Machine, hdl: nat, k: nat) returns (n: nat)
    requires Ready(m, m.store, m.locals.state, hdl, m.locals.input)
    requires Chain(fuel, fo, m.store, m.locals.state, hdl, m.locals.input, k).Jump?
    ensures var c := Chain(fuel, fo, m.store, m.locals.state, hdl, m.locals.input, k);
      && k <= n && Plain(fo, m, n)
      && Ready(Run(fo, m, n), c.store, c.flags, c.hdl, c.input) && Run(fo, m, n).frames == m.frames
    decreases k
  {
    n := 0;
    if k > 0 {
      var a := RoundRefines(fuel, fo, m, hdl);
      var j := Run(fo, m, a);
      n := ChainFrames(fuel - 1, fo, j, j.locals.envHdl.value, k - 1);
      Join(fo, m, a, n);
      n := a + n;
    }
  }

  /** The lambda whose call has added a frame, if one has in the k rounds. */
  function Adder(fuel: nat, fo: ForeignFns, s: Heap, flags: Flags, hdl: nat, input: Val, k: nat): Option<Val>
    decreases k
  {
    if k == 0 || fuel == 0 then None
    else
      match OneRound(fuel, fo, s, flags, hdl, input)
      case Jump(t, fl, h, next) =>
        if h != hdl then Some(Callee(fuel, fo, s, hdl, input))
        else Adder(fuel - 1, fo, t, fl, h, next, k - 1)
      case _ => None
  }

  /** However many jumps, at most one frame is added, and none behind a tail call. It lies on top of what the
      lambda captured that added it. All handles there were are still there, no deeper than before. */
  lemma {:induction false} ChainSpace(fuel: nat, fo: ForeignFns, s: Heap, flags: Flags, hdl: nat, input: Val, k: nat,
      lim: Limits)
    requires Starts(fo, s, hdl, input, lim) && (flags.added ==> flags.tail)
    requires Chain(fuel, fo, s, flags, hdl, input, k).Jump?
    ensures var c := Chain(fuel, fo, s, flags, hdl, input, k);
      var added := FramesAdded(fuel, fo, s, flags, hdl, input, k);
      var adder := Adder(fuel, fo, s, flags, hdl, input, k);
      && After(s, c.store, None, lim, c.input) && c.hdl < |c.store.hdls|
      && (if flags.tail then added == 0 else added <= 1)
      && (added == 0 ==> c.hdl == hdl && c.flags.added == flags.added && adder.None?)
      && (added == 1
        ==> c.hdl >= |s.hdls| && c.flags.added && adder.Some? && FreshFrame(c.store, c.hdl, lim, adder.value, |s.kvs|))
      && (s.At(hdl) != [] ==> |c.store.At(hdl)| == |s.At(hdl)|)
    decreases k
  {
    hide OneRound, Kept, Tidy, OneEntryEach, HeapWithin, Within, After, Callee;
    AfterSame(s, lim, input);
    if k > 0 {
      RoundKeeps(fuel, fo, s, flags, hdl, input, lim);
      var r := OneRound(fuel, fo, s, flags, hdl, input);
      AfterWithin(s, r.store, lim, r.input);
      AfterHandle(s, r.store, lim, r.input, hdl);
      ChainSpace(fuel - 1, fo, r.store, r.flags, r.hdl, r.input, k - 1, lim);
      var c := Chain(fuel - 1, fo, r.store, r.flags, r.hdl, r.input, k - 1);
      AfterTrans(s, r.store, c.store, None, None, lim, r.input, c.input);
      AfterHandle(s, c.store, lim, c.input, hdl);
      AfterHandle(r.store, c.store, lim, c.input, r.hdl);
    }
  }

  /** In numbers: the environment of a chain is at most one frame deeper than the one it started in or than
      what a lambda captured, and without def! an added frame has no more entries than the program has names. */
  lemma ChainBound(fuel: nat, fo: ForeignFns, s: Heap, flags: Flags, hdl: nat, input: Val, k: nat, names: set<Name>)
    requires Starts(fo, s, hdl, input, Some(names)) && (flags.added ==> flags.tail)
    requires Chain(fuel, fo, s, flags, hdl, input, k).Jump?
    ensures var c := Chain(fuel, fo, s, flags, hdl, input, k);
      var adder := Adder(fuel, fo, s, flags, hdl, input, k);
      if adder.None? then c.hdl == hdl && (s.At(hdl) != [] ==> |c.store.At(hdl)| == |s.At(hdl)|)
      else adder.value.Lambda? && |c.store.At(c.hdl)| == |adder.value.env| + 1 && |c.store.At(c.hdl)[0]| <= |names|
  {
    hide Starts, Chain, Adder, After;
    ChainSpace(fuel, fo, s, flags, hdl, input, k, Some(names));
    var c := Chain(fuel, fo, s, flags, hdl, input, k);
    if Adder(fuel, fo, s, flags, hdl, input, k).Some? {
      FrameSize(c.store, c.store.At(c.hdl)[0], names);
    }
  }

  // ----- where tail calls are not lexically scoped

  /** Behind a tail call the callee's parameters replace the caller's names, and its free names are the
      caller's: the body sees what lexical scoping would show exactly for parameters and for names that the
      two environments agree on, and the caller's name survives exactly when it is not given a new value. */
  lemma TailCallScope(s: Heap, hdl: nat, env: Env, vars: Val, args: Val, x: Name)
    requires hdl < |s.hdls| && s.Ok() && LambdaBind(s, hdl, vars, args).0 == EVAL_OK
    ensures var t := LambdaBind(s, hdl, vars, args).1;
      var given := Given(vars, args, x);
      && (t.Lookup(t.At(hdl), x) == (if given.Some? then given else s.Lookup(env, x)) <==>
          given.Some? || s.Lookup(s.At(hdl), x) == s.Lookup(env, x))
      && (t.Lookup(t.At(hdl), x) == s.Lookup(s.At(hdl), x) <==> given.None? || given == s.Lookup(s.At(hdl), x))
  {
    LambdaBindLookup(s, hdl, vars, args, x);
  }

  /** Where the body of any call starts. It sees what lexical scoping would show, and the caller's names mean
      what they meant, except behind a tail call, and there exactly for the names that TailCallScope says. */
  lemma CallScope(s: Heap, flags: Flags, hdl: nat, func: Val, vals: seq<Val>, x: Name)
    requires hdl < |s.hdls| && s.Ok() && func.Lambda? && InRange(s, func.env)
    requires Enter(s, flags, hdl, func, vals).status == EVAL_OK
    ensures var e := Enter(s, flags, hdl, func, vals);
      var given := Given(func.vars, ListOf(vals), x);
      && (e.store.Lookup(e.store.At(e.hdl), x) == (if given.Some? then given else s.Lookup(func.env, x)) <==>
          !flags.tail || given.Some? || s.Lookup(s.At(hdl), x) == s.Lookup(func.env, x))
      && (e.store.Lookup(e.store.At(hdl), x) == s.Lookup(s.At(hdl), x) <==>
          !flags.tail || given.None? || given == s.Lookup(s.At(hdl), x))
  {
    if flags.tail {
      TailCallScope(s, hdl, func.env, func.vars, ListOf(vals), x);
    } else {
      assert InRange(s, s.At(hdl));
      CallIsLexical(s, func.env, func.vars, ListOf(vals), x, s.At(hdl));
    }
  }

  const NAME_IF: Name := [105, 102]
  const NAME_F: Name := [102]
  const NAME_X: Name := [120]

  /** An environment with if, a function f of one parameter x, and a variable x that is 7. */
  function Caller(): Heap {
    Store([Binding(NAME_IF, Special(IF)), Binding(NAME_F, Lambda([], Cons(Sym(NAME_X), Nil), Cons(Sym(NAME_X), Nil))),
           Binding(NAME_X, Int(7))], [[[0, 1, 2]]])
  }

  /** (if 1 (f 5)) */
  function CallInIf(): Val {
    Cons(Sym(NAME_IF), Cons(Int(1), Cons(Cons(Sym(NAME_F), Cons(Int(5), Nil)), Nil)))
  }

  /** The call in the branch of the if. */
  function CallF(): Val {
    Cons(Sym(NAME_F), Cons(Int(5), Nil))
  }

  lemma CallerFinds()
    ensures var s := Caller();
      s.Find(s.At(0), NAME_IF) == Some(0) && s.Find(s.At(0), NAME_F) == Some(1) && s.Find(s.At(0), NAME_X) == Some(2)
  {
    var s := Caller();
    assert s.At(0)[0] == [0, 1, 2] && s.At(0)[0][1..] == [1, 2] && [1, 2][1..] == [2];
  }

  /** The if makes its branch a tail call in the environment of the caller. */
  lemma IfJumps(fo: ForeignFns)
    ensures OneRound(4, fo, Caller(), NO_FLAGS, 0, CallInIf()) == Jump(Caller(), Flags(true, false, false), 0, CallF())
  {
    var s := Caller();
    CallerFinds();
    assert Evaluate(3, fo, s, NO_FLAGS, 0, Sym(NAME_IF)) == Value(Out(EVAL_OK, Special(IF), s));
    assert Evaluate(3, fo, s, NO_FLAGS, 0, Int(1)) == Value(Out(EVAL_OK, Int(1), s));
  }

  /** The call binds its parameter over the caller's variable. */
  lemma CallBinds(fo: ForeignFns)
    ensures OneRound(3, fo, Caller(), Flags(true, false, false), 0, CallF())
         == Jump(Caller().PatchBinding(2, Int(5)), Flags(true, false, false), 0, Sym(NAME_X))
  {
    var s := Caller();
    CallerFinds();
    assert Evaluate(2, fo, s, NO_FLAGS, 0, Sym(NAME_F)) == Value(Out(EVAL_OK, s.kvs[1].val, s));
    assert EvalArgs(3, fo, s, 0, Nil, Int(5)) == ArgsOk([], Int(5), s);
    assert Evaluate(2, fo, s, NO_FLAGS, 0, Int(5)) == Value(Out(EVAL_OK, Int(5), s));
    assert EvalArgs(3, fo, s, 0, Cons(Int(5), Nil), s.kvs[1].val) == ArgsOk([Int(5)], Int(5), s);
    assert ListOf([Int(5)]) == Cons(Int(5), Nil) by { assert [Int(5)][1..] == []; }
    assert LambdaBind(s, 0, Cons(Sym(NAME_X), Nil), Cons(Int(5), Nil)) == (EVAL_OK, s.PatchBinding(2, Int(5)));
  }

  /** Even an inner expression can change its surroundings: if marks a tail call also where the activation has
      no frame of its own, so that evaluating (if 1 (f 5)) sets the caller's x to 5. */
  lemma IfOverwritesCaller(fo: ForeignFns)
    ensures var s := Caller();
      var out := Evaluate(4, fo, s, NO_FLAGS, 0, CallInIf());
      && s.Lookup(s.At(0), NAME_X) == Some(Int(7))
      && out.Value? && out.value.status == EVAL_OK && out.value.result == Int(5)
      && out.value.store.Lookup(out.value.store.At(0), NAME_X) == Some(Int(5))
  {
    var t := Caller().PatchBinding(2, Int(5));
    CallerFinds();
    IfJumps(fo);
    CallBinds(fo);
    FindKeys(Caller(), t, t.At(0), NAME_X);
    assert Evaluate(2, fo, t, Flags(true, false, false), 0, Sym(NAME_X)) == Value(Out(EVAL_OK, Int(5), t));
    hide OneRound;
    assert Evaluate(3, fo, Caller(), Flags(true, false, false), 0, CallF()) == Value(Out(EVAL_OK, Int(5), t));
  }
}
