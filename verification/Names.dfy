/** Which names a run of the evaluator binds, and so what the frame of a chain of tail calls can hold. */
module Names {
  import opened Options
  import opened Environ
  import opened Eval
  import opened Machine
  import opened Refinement
  import opened TailCalls

  /** The names that binding these parameters can bind. */
  function ParamNames(vars: Val): set<Name>
    decreases vars
  {
    match vars
    case Cons(name, rest) => (if name.Sym? then {name.name} else {}) + ParamNames(rest)
    case Sym(name) => {name}
    case _ => {}
  }

  /** The names of the bindings that t has behind those of s. */
  function KeysBehind(s: Heap, t: Heap): set<Name> {
    set i | |s.kvs| <= i < |t.kvs| :: t.kvs[i].key
  }

  /** The names that the next step may bind: the parameters of the lambda that is applied, the name of a def!,
      or what a foreign function binds. */
  function Binds(fo: ForeignFns, m: Machine): set<Name> {
    if m.pc == Apply && m.locals.func.Lambda? then ParamNames(m.locals.func.vars)
    else if m.pc == At(PostValue) && m.locals.func == Special(DEF) && m.locals.cursor.Sym? then {m.locals.cursor.name}
    else if m.pc == Apply && m.locals.func.Foreign? then KeysBehind(m.store, Step(fo, m).store)
    else {}
  }

  /** The names that n steps may bind. */
  function BoundIn(fo: ForeignFns, m: Machine, n: nat): set<Name>
    decreases n
  {
    if n == 0 then {} else Binds(fo, m) + BoundIn(fo, Step(fo, m), n - 1)
  }

  /** Step j of the run may bind the name. */
  predicate BindsAt(fo: ForeignFns, m: Machine, j: nat, x: Name) {
    x in Binds(fo, Run(fo, m, j))
  }

  lemma {:induction false} BoundInIs(fo: ForeignFns, m: Machine, n: nat, x: Name)
    ensures x in BoundIn(fo, m, n) <==> exists j: nat :: j < n && BindsAt(fo, m, j, x)
    decreases n
  {
    hide Step, Binds;
    if n > 0 {
      var k := Step(fo, m);
      BoundInIs(fo, k, n - 1, x);
      assert BindsAt(fo, m, 0, x) <==> x in Binds(fo, m);
      assert forall j: nat :: BindsAt(fo, k, j, x) ==> BindsAt(fo, m, j + 1, x);
      assert forall j: nat :: j > 0 && BindsAt(fo, m, j, x) ==> BindsAt(fo, k, j - 1, x);
    }
  }

  /** Foreign functions never rename or drop a binding. */
  ghost predicate ForeignExtends(fo: ForeignFns) {
    forall id: nat, args: Val, s: Heap, h: nat :: SameKeys(s, fo(id, args, s, h).2)
  }

  /** The bindings of s keep their names, and new ones have names of the set. */
  ghost predicate Extends(s: Heap, t: Heap, names: set<Name>) {
    SameKeys(s, t) && forall i :: |s.kvs| <= i < |t.kvs| ==> t.kvs[i].key in names
  }

  lemma ExtendsTrans(s: Heap, t: Heap, u: Heap, a: set<Name>, b: set<Name>)
    requires Extends(s, t, a) && Extends(t, u, b)
    ensures Extends(s, u, a + b)
  {
  }

  lemma {:induction false} BindExtends(s: Heap, h: nat, vars: Val, args: Val)
    ensures Extends(s, LambdaBind(s, h, vars, args).1, ParamNames(vars))
    decreases vars
  {
    if vars.Cons? && args.Cons? && vars.car.Sym? {
      var b := BindOne(s, h, vars.car.name, args.car);
      BindExtends(b, h, vars.cdr, args.cdr);
      ExtendsTrans(s, b, LambdaBind(b, h, vars.cdr, args.cdr).1, {vars.car.name}, ParamNames(vars.cdr));
    }
  }

  lemma StepExtends(fo: ForeignFns, m: Machine)
    requires ForeignExtends(fo)
    ensures Extends(m.store, Step(fo, m).store, Binds(fo, m))
  {
    if m.pc == Apply && m.locals.func.Lambda? {
      var s := if m.locals.state.tail then m.store else CallFrame(m.store, m.locals.func.env);
      var h := if m.locals.state.tail then Handle(m) else |m.store.hdls|;
      BindExtends(s, h, m.locals.func.vars, ListOf(m.locals.newargs));
    }
  }

  /** Every binding that a run has made has a name that some step of it has bound. */
  lemma {:induction false} RunExtends(fo: ForeignFns, m: Machine, n: nat)
    requires ForeignExtends(fo)
    ensures Extends(m.store, Run(fo, m, n).store, BoundIn(fo, m, n))
    decreases n
  {
    hide Step, Binds, ForeignExtends;
    if n > 0 {
      var k := Step(fo, m);
      StepExtends(fo, m);
      RunExtends(fo, k, n - 1);
      ExtendsTrans(m.store, k.store, Run(fo, k, n - 1).store, Binds(fo, m), BoundIn(fo, k, n - 1));
    }
  }

  /** However many tail jumps, the frame that the chain has added only has names that the steps up to there have
      bound, each of them once: parameters of the lambdas that were applied, and what def! and foreign functions
      have bound. */
  lemma ChainNames(fuel: nat, fo: ForeignFns, m: Machine, hdl: nat, k: nat, names: set<Name>) returns (n: nat)
    requires ForeignExtends(fo) && Ready(m, m.store, m.locals.state, hdl, m.locals.input)
    requires Starts(fo, m.store, hdl, m.locals.input, Some(names)) && (m.locals.state.added ==> m.locals.state.tail)
    requires Chain(fuel, fo, m.store, m.locals.state, hdl, m.locals.input, k).Jump?
    requires Adder(fuel, fo, m.store, m.locals.state, hdl, m.locals.input, k).Some?
    ensures var c := Chain(fuel, fo, m.store, m.locals.state, hdl, m.locals.input, k);
      var top := Top(c.store.At(c.hdl));
      && k <= n && Plain(fo, m, n) && Ready(Run(fo, m, n), c.store, c.flags, c.hdl, c.input)
      && (forall i :: 0 <= i < |top| ==> top[i] < |c.store.kvs| && c.store.kvs[top[i]].key in BoundIn(fo, m, n))
      && |top| <= |BoundIn(fo, m, n)|
  {
    hide Step, Chain, Adder, Starts, ForeignExtends, After;
    n := ChainFrames(fuel, fo, m, hdl, k);
    ChainSpace(fuel, fo, m.store, m.locals.state, hdl, m.locals.input, k, Some(names));
    RunExtends(fo, m, n);
    var c := Chain(fuel, fo, m.store, m.locals.state, hdl, m.locals.input, k);
    FrameSize(c.store, Top(c.store.At(c.hdl)), BoundIn(fo, m, n));
  }
}
