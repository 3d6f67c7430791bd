/** What programs mean: laws of the evaluator that speak of elements of lists by position and of names by what
    they look up to. By the refinement, the machine obeys them too. */
module Laws {
  import opened Options
  import opened Environ
  import opened Eval
  import opened Binding

  // ----- lists by position

  function Tail(v: Val, i: nat): Val
    decreases i
  {
    if i == 0 then v else if v.Cons? then Tail(v.cdr, i - 1) else Nil
  }

  /** Element number i of a list. */
  function Item(v: Val, i: nat): Option<Val> {
    if Tail(v, i).Cons? then Some(Tail(v, i).car) else None
  }

  /** A proper list of these elements, in this order. */
  ghost predicate IsList(v: Val, vs: seq<Val>) {
    (forall i :: 0 <= i < |vs| ==> Item(v, i) == Some(vs[i])) && Tail(v, |vs|) == Nil
  }

  lemma IsListCons(v: Val, vs: seq<Val>)
    requires v.Cons? && vs != []
    ensures IsList(v, vs) <==> v.car == vs[0] && IsList(v.cdr, vs[1..])
  {
    assert forall i: nat :: i > 0 ==> Tail(v, i) == Tail(v.cdr, i - 1);
    if IsList(v, vs) {
      assert Item(v, 0) == Some(vs[0]);
      assert forall i :: 0 <= i < |vs[1..]| ==> Item(v.cdr, i) == Item(v, i + 1) && vs[1..][i] == vs[i + 1];
    }
    if v.car == vs[0] && IsList(v.cdr, vs[1..]) {
      forall i | 0 <= i < |vs|
        ensures Item(v, i) == Some(vs[i])
      {
        if i > 0 {
          assert Item(v.cdr, i - 1) == Some(vs[1..][i - 1]);
        }
      }
    }
  }

  lemma IsListShape(v: Val, vs: seq<Val>)
    requires IsList(v, vs)
    ensures vs == [] ==> v == Nil
    ensures vs != [] ==> v.Cons? && v.car == vs[0] && IsList(v.cdr, vs[1..])
  {
    if vs != [] {
      assert Item(v, 0) == Some(vs[0]);
      IsListCons(v, vs);
    }
  }

  lemma {:induction false} OnlyList(v: Val, w: Val, vs: seq<Val>)
    requires IsList(v, vs) && IsList(w, vs)
    ensures v == w
    decreases |vs|
  {
    IsListShape(v, vs);
    IsListShape(w, vs);
    if vs != [] {
      OnlyList(v.cdr, w.cdr, vs[1..]);
    }
  }

  /** The list that a call passes has the values of the arguments in their order. */
  lemma {:induction false} ArgumentsInOrder(vals: seq<Val>)
    ensures IsList(ListOf(vals), vals)
    decreases |vals|
  {
    if vals != [] {
      ArgumentsInOrder(vals[1..]);
      IsListCons(ListOf(vals), vals);
    }
  }

  // ----- parameters by position

  /** The parameter list consists of these names, and a dotted name takes the rest. */
  ghost predicate IsParams(vars: Val, names: seq<Name>, rest: Option<Name>) {
    && (forall i :: 0 <= i < |names| ==> Item(vars, i) == Some(Sym(names[i])))
    && Tail(vars, |names|) == if rest.Some? then Sym(rest.value) else Nil
  }

  ghost predicate Different(names: seq<Name>, rest: Option<Name>) {
    && (forall i, j :: 0 <= i < j < |names| ==> names[i] != names[j])
    && (rest.Some? ==> rest.value !in names)
  }

  lemma ParamsShape(vars: Val, names: seq<Name>, rest: Option<Name>)
    requires IsParams(vars, names, rest)
    ensures names == [] ==> vars == if rest.Some? then Sym(rest.value) else Nil
    ensures names != [] ==> vars.Cons? && vars.car == Sym(names[0]) && IsParams(vars.cdr, names[1..], rest)
  {
    if names != [] {
      assert Item(vars, 0) == Some(Sym(names[0]));
      assert forall i: nat :: i > 0 ==> Tail(vars, i) == Tail(vars.cdr, i - 1);
      assert forall i :: 0 <= i < |names[1..]| ==>
        Item(vars.cdr, i) == Item(vars, i + 1) && names[1..][i] == names[i + 1];
    }
  }

  /** What each name is given: the argument in its own position, the dotted name those behind all others. */
  lemma {:induction false} GivenByPosition(vars: Val, names: seq<Name>, rest: Option<Name>, vals: seq<Val>, x: Name)
    requires IsParams(vars, names, rest) && Different(names, rest)
    requires |names| <= |vals| && (rest.None? ==> |vals| == |names|)
    ensures forall i :: 0 <= i < |names| && names[i] == x ==> Given(vars, ListOf(vals), x) == Some(vals[i])
    ensures rest == Some(x) ==> Given(vars, ListOf(vals), x) == Some(ListOf(vals[|names|..]))
    ensures x !in names && rest != Some(x) ==> Given(vars, ListOf(vals), x) == None
    decreases |names|
  {
    ParamsShape(vars, names, rest);
    if names != [] {
      GivenByPosition(vars.cdr, names[1..], rest, vals[1..], x);
      assert forall i :: 0 < i < |names| ==> names[i] == names[1..][i - 1] && vals[i] == vals[1..][i - 1];
      assert vals[1..][|names[1..]|..] == vals[|names|..];
    } else {
      assert vals[0..] == vals;
    }
  }

  /** Behind a call of a lambda with different parameter names, parameter number i looks up to argument number i,
      a dotted name to the list of all further arguments, and any other name to what it did there before. */
  lemma ParametersByPosition(s: Heap, flags: Flags, hdl: nat, func: Val, vals: seq<Val>, names: seq<Name>,
      rest: Option<Name>, x: Name)
    requires hdl < |s.hdls| && s.Ok() && func.Lambda? && InRange(s, func.env)
    requires IsParams(func.vars, names, rest) && Different(names, rest)
    requires |names| <= |vals| && (rest.None? ==> |vals| == |names|)
    ensures var e := Enter(s, flags, hdl, func, vals);
      var found := e.store.Lookup(e.store.At(e.hdl), x);
      && e.status == EVAL_OK
      && (forall i :: 0 <= i < |names| && x == names[i] ==> found == Some(vals[i]))
      && (rest == Some(x) ==> found.Some? && IsList(found.value, vals[|names|..]))
      && (x !in names && rest != Some(x) ==>
          found == if flags.tail then s.Lookup(s.At(hdl), x) else s.Lookup(func.env, x))
  {
    StatusByPosition(if flags.tail then s else CallFrame(s, func.env), if flags.tail then hdl else |s.hdls|,
                     func.vars, vals, names);
    GivenByPosition(func.vars, names, rest, vals, x);
    ArgumentsInOrder(vals[|names|..]);
    if flags.tail {
      LambdaBindLookup(s, hdl, func.vars, ListOf(vals), x);
    } else {
      assert InRange(s, s.At(hdl));
      CallIsLexical(s, func.env, func.vars, ListOf(vals), x, s.At(hdl));
    }
  }

  /** What lambda_bind reports, for parameter lists of any shape: names are those in front of the first element
      that is not one. */
  lemma {:induction false} StatusByPosition(s: Heap, h: nat, vars: Val, vals: seq<Val>, names: seq<Name>)
    requires forall i :: 0 <= i < |names| ==> Item(vars, i) == Some(Sym(names[i]))
    requires var end := Tail(vars, |names|); !(end.Cons? && end.car.Sym?)
    ensures var end := Tail(vars, |names|);
      LambdaBind(s, h, vars, ListOf(vals)).0 ==
        if |vals| < |names| then EVAL_ERR_MISSING_ARG
        else if end.Nil? then (if |vals| == |names| then EVAL_OK else EVAL_ERR_TOO_MANY_ARGS)
        else if end.Sym? then EVAL_OK
        else if end.Cons? then (if |vals| == |names| then EVAL_ERR_MISSING_ARG else EVAL_ERR_EXPECTED_SYMBOL)
        else EVAL_ERR_EXPECTED_CONS_SYM
    decreases |names|
  {
    if names != [] {
      assert Item(vars, 0) == Some(Sym(names[0]));
      assert forall i: nat :: i > 0 ==> Tail(vars, i) == Tail(vars.cdr, i - 1);
      assert forall i :: 0 <= i < |names[1..]| ==>
        Item(vars.cdr, i) == Item(vars, i + 1) && names[1..][i] == names[i + 1];
      if vals != [] {
        StatusByPosition(BindOne(s, h, names[0], vals[0]), h, vars.cdr, vals[1..], names[1..]);
      }
    }
  }

  // ----- def! and set!

  /** def! makes the name look up to the value in this environment, and changes no other name there; what others
      have captured stays as it is. */
  lemma DefLaw(s: Heap, hdl: nat, name: Name, val: Val, y: Name, e: Env)
    requires hdl < |s.hdls| && s.Ok() && InRange(s, e)
    ensures var out := Assign(s, hdl, DEF, Sym(name), val);
      && out.status == EVAL_OK && out.result == Sym(name)
      && out.store.Lookup(out.store.At(hdl), y) == (if y == name then Some(val) else s.Lookup(s.At(hdl), y))
      && out.store.Lookup(e, y) == s.Lookup(e, y)
  {
    AddLookup(s, hdl, name, val, y);
    SnapshotKeeps(s, e, hdl, name, val, y);
  }

  /** set! succeeds if and only if the name is bound in some frame of this environment, and then changes this
      name there and no other one. An environment sees the change if and only if it finds the same binding. */
  lemma SetLaw(s: Heap, hdl: nat, name: Name, val: Val, y: Name, e: Env)
    requires hdl < |s.hdls| && s.Ok() && InRange(s, e)
    ensures var out := Assign(s, hdl, SET, Sym(name), val);
      var bound := s.Lookup(s.At(hdl), name).Some?;
      && out.status == (if bound then EVAL_OK else EVAL_ERR_UNRESOLVED_SYMBOL) && out.result == Sym(name)
      && (!bound ==> out.store == s)
      && (bound ==>
          && out.store.Lookup(out.store.At(hdl), y) == (if y == name then Some(val) else s.Lookup(s.At(hdl), y))
          && out.store.Lookup(e, y)
             == if y == name && s.Find(e, name) == s.Find(s.At(hdl), name) then Some(val) else s.Lookup(e, y))
  {
    var here := s.At(hdl);
    assert InRange(s, here);
    FindSound(s, here, name);
    FindSound(s, here, y);
    FindSound(s, e, y);
    var kv := s.Find(here, name);
    if kv.Some? {
      PatchLookup(s, kv.value, val, here, y);
      PatchLookup(s, kv.value, val, e, y);
    }
  }

  // ----- expressions

  /** Argument number i of a special form, nil if there are fewer. */
  function Arg(args: Val, i: nat): Val {
    if Item(args, i).Some? then Item(args, i).value else Nil
  }

  /** An expression in the environment of a handle has this value and leaves these environments. */
  predicate Yields(fuel: nat, fo: ForeignFns, s: Heap, hdl: nat, e: Val, v: Val, t: Heap) {
    Evaluate(fuel, fo, s, NO_FLAGS, hdl, e) == Value(Out(EVAL_OK, v, t))
  }

  /** Expressions one after the other, each of them in the environments that the one before it has left. */
  ghost predicate YieldAll(fuel: nat, fo: ForeignFns, hdl: nat, es: seq<Val>, vals: seq<Val>, stores: seq<Heap>) {
    && |vals| == |es| && |stores| == |es| + 1
    && forall i, j :: 0 <= i < |es| && j == i + 1 ==> Yields(fuel, fo, stores[i], hdl, es[i], vals[i], stores[j])
  }

  lemma YieldTail(fuel: nat, fo: ForeignFns, hdl: nat, es: seq<Val>, vals: seq<Val>, stores: seq<Heap>)
    requires YieldAll(fuel, fo, hdl, es, vals, stores) && es != []
    ensures Yields(fuel, fo, stores[0], hdl, es[0], vals[0], stores[1])
    ensures YieldAll(fuel, fo, hdl, es[1..], vals[1..], stores[1..])
  {
    assert forall i :: 0 <= i < |es[1..]| ==> es[1..][i] == es[i + 1] && vals[1..][i] == vals[i + 1];
    assert forall i :: 0 <= i < |stores[1..]| ==> stores[1..][i] == stores[i + 1];
  }

  /** A symbol has the value that it looks up to, a pair is a call, anything else is its own value. */
  lemma AtomLaw(fuel: nat, fo: ForeignFns, s: Heap, hdl: nat, e: Val)
    requires fuel > 0 && !e.Cons?
    ensures var v := if e.Sym? then s.Lookup(s.At(hdl), e.name) else Some(e);
      Evaluate(fuel, fo, s, NO_FLAGS, hdl, e)
        == Value(if v.Some? then Out(EVAL_OK, v.value, s) else Out(EVAL_ERR_UNRESOLVED_SYMBOL, e, s))
  {
  }

  /** An error in the function position is the outcome of the call; so is a call with something dotted behind it. */
  lemma CalleeError(fuel: nat, fo: ForeignFns, s: Heap, flags: Flags, hdl: nat, fe: Val, args: Val)
    requires fuel > 0
    ensures !args.Nil? && !args.Cons? ==>
      Evaluate(fuel, fo, s, flags, hdl, Cons(fe, args))
        == Value(Leave(Out(EVAL_ERR_EXPECTED_CONS, args, s), flags, hdl))
    ensures var f := Evaluate(fuel - 1, fo, s, NO_FLAGS, hdl, fe);
      (args.Nil? || args.Cons?) && f.Value? && f.value.status != EVAL_OK ==>
        Evaluate(fuel, fo, s, flags, hdl, Cons(fe, args)) == Value(Leave(f.value, flags, hdl))
  {
  }

  lemma Calls(fuel: nat, fo: ForeignFns, s: Heap, flags: Flags, hdl: nat, fe: Val, args: Val, func: Val, t: Heap)
    requires fuel > 0 && (args.Nil? || args.Cons?) && Yields(fuel - 1, fo, s, hdl, fe, func, t)
    ensures OneRound(fuel, fo, s, flags, hdl, Cons(fe, args)) == ApplyTo(fuel, fo, t, flags, hdl, func, args)
  {
    hide ApplyTo;
  }

  /** The branch of an if is its second or third element, by whether the first one has a value other than nil. It
      takes the place of the if, as a tail call. Behind call/cc it is nil. */
  lemma IfLaw(fuel: nat, fo: ForeignFns, s: Heap, flags: Flags, hdl: nat, fe: Val, args: Val, v: Val, t: Heap, u: Heap)
    requires fuel > 0 && (args.Nil? || args.Cons?) && Yields(fuel - 1, fo, s, hdl, fe, Special(IF), t)
    requires Yields(fuel - 1, fo, t, hdl, Arg(args, 0), v, u)
    ensures var k := if v != Nil then 1 else 2;
      Evaluate(fuel, fo, s, flags, hdl, Cons(fe, args)) ==
        if v == Nil && Item(args, 1).None?
          then Value(Leave(Out(EVAL_ERR_EXPECTED_CONS, Tail(args, 1), u), flags, hdl))
        else if Item(args, k).None? then Value(Leave(Out(EVAL_ERR_EXPECTED_CONS, Tail(args, k), u), flags, hdl))
        else Evaluate(fuel - 1, fo, u, Flags(true, flags.added, false), hdl,
                      if flags.newInput then Nil else Item(args, k).value)
  {
    Unfold(args);
    Calls(fuel, fo, s, flags, hdl, fe, args, Special(IF), t);
    assert EvalIf(fuel, fo, t, flags, hdl, args) == Branch(Out(EVAL_OK, v, u), flags, hdl, Cdr(args));
    hide Tail, Item, EvalIf;
  }

  lemma Unfold(args: Val)
    ensures Tail(args, 1) == Cdr(args) && Tail(args, 2) == Cdr(Cdr(args))
    ensures Arg(args, 0) == Car(args) && Arg(args, 1) == Car(Cdr(args))
    ensures Item(args, 0).Some? <==> args.Cons?
    ensures Item(args, 1).Some? <==> Cdr(args).Cons?
    ensures Item(args, 2).Some? <==> Cdr(Cdr(args)).Cons?
    ensures Item(args, 2).Some? ==> Item(args, 2).value == Cdr(Cdr(args)).car
  {
    assert Tail(args, 0) == args;
    assert args.Cons? ==> Tail(args, 1) == Tail(args.cdr, 0) && Tail(args, 2) == Tail(args.cdr, 1);
    assert args.Cons? && args.cdr.Cons? ==> Tail(args.cdr, 1) == Tail(args.cdr.cdr, 0);
  }

  /** quote gives its argument as it stands. */
  lemma QuoteLaw(fuel: nat, fo: ForeignFns, s: Heap, flags: Flags, hdl: nat, fe: Val, args: Val, t: Heap)
    requires fuel > 0 && (args.Nil? || args.Cons?) && Yields(fuel - 1, fo, s, hdl, fe, Special(QUOTE), t)
    ensures Evaluate(fuel, fo, s, flags, hdl, Cons(fe, args)) ==
      Value(Leave(if Tail(args, 1) == Nil then Out(EVAL_OK, Arg(args, 0), t)
                  else Out(EVAL_ERR_TOO_MANY_ARGS, Tail(args, 1), t), flags, hdl))
  {
    Unfold(args);
    Calls(fuel, fo, s, flags, hdl, fe, args, Special(QUOTE), t);
    hide Tail, Item;
  }

  /** lambda captures the environment of its own place, with parameters and body as they stand. */
  lemma LambdaLaw(fuel: nat, fo: ForeignFns, s: Heap, flags: Flags, hdl: nat, fe: Val, args: Val, t: Heap)
    requires fuel > 0 && (args.Nil? || args.Cons?) && Yields(fuel - 1, fo, s, hdl, fe, Special(LAMBDA), t)
    ensures Evaluate(fuel, fo, s, flags, hdl, Cons(fe, args)) ==
      Value(Leave(Out(EVAL_OK, Lambda(t.At(hdl), Arg(args, 0), Tail(args, 1)), t), flags, hdl))
  {
    Unfold(args);
    Calls(fuel, fo, s, flags, hdl, fe, args, Special(LAMBDA), t);
    hide Tail, Item;
  }

  /** def! and set! take a name as it stands, and the value of their second argument. */
  lemma AssignLaw(fuel: nat, fo: ForeignFns, s: Heap, flags: Flags, hdl: nat, fe: Val, args: Val, sp: SpecialFn,
      t: Heap, v: Val, u: Heap)
    requires fuel > 0 && (args.Nil? || args.Cons?) && sp in {DEF, SET}
    requires Yields(fuel - 1, fo, s, hdl, fe, Special(sp), t) && Yields(fuel - 1, fo, t, hdl, Arg(args, 1), v, u)
    ensures Evaluate(fuel, fo, s, flags, hdl, Cons(fe, args)) ==
      if !Arg(args, 0).Sym? then Value(Leave(Out(EVAL_ERR_EXPECTED_SYMBOL, Arg(args, 0), t), flags, hdl))
      else if Item(args, 1).None? then NoValue(Some(t))
      else Value(Leave(Assign(u, hdl, sp, Arg(args, 0), v), flags, hdl))
  {
    Unfold(args);
    Calls(fuel, fo, s, flags, hdl, fe, args, Special(sp), t);
    assert ApplyTo(fuel, fo, t, flags, hdl, Special(sp), args) == EvalAssign(fuel, fo, t, flags, hdl, sp, args);
    hide Tail, Item, Assign;
  }

  // ----- calls

  /** Arguments are evaluated from left to right, each with what the ones before it have done. */
  lemma {:induction false} ArgsLaw(fuel: nat, fo: ForeignFns, hdl: nat, args: Val, last: Val, es: seq<Val>,
      vals: seq<Val>, stores: seq<Heap>)
    requires fuel > 0 && IsList(args, es) && YieldAll(fuel - 1, fo, hdl, es, vals, stores)
    ensures EvalArgs(fuel, fo, stores[0], hdl, args, last)
         == ArgsOk(vals, if vals == [] then last else vals[|vals| - 1], stores[|es|])
    decreases |es|
  {
    hide Evaluate;
    IsListShape(args, es);
    if es != [] {
      YieldTail(fuel - 1, fo, hdl, es, vals, stores);
      ArgsLaw(fuel, fo, hdl, args.cdr, vals[0], es[1..], vals[1..], stores[1..]);
      assert [vals[0]] + vals[1..] == vals;
    } else {
      assert vals == [];
    }
  }

  /** The first argument that has an error ends the evaluation of arguments. */
  lemma {:induction false} ArgsErrorLaw(fuel: nat, fo: ForeignFns, hdl: nat, args: Val, last: Val, es: seq<Val>,
      vals: seq<Val>, stores: seq<Heap>, bad: Out)
    requires fuel > 0 && YieldAll(fuel - 1, fo, hdl, es, vals, stores)
    requires (forall i :: 0 <= i < |es| ==> Item(args, i) == Some(es[i])) && Item(args, |es|).Some?
    requires bad.status != EVAL_OK
    requires Evaluate(fuel - 1, fo, stores[|es|], NO_FLAGS, hdl, Item(args, |es|).value) == Value(bad)
    ensures EvalArgs(fuel, fo, stores[0], hdl, args, last) == ArgsErr(bad)
    decreases |es|
  {
    hide Evaluate;
    assert Item(args, 0).Some?;
    if es != [] {
      YieldTail(fuel - 1, fo, hdl, es, vals, stores);
      assert forall i: nat :: i > 0 ==> Tail(args, i) == Tail(args.cdr, i - 1);
      assert forall i :: 0 <= i < |es[1..]| ==> Item(args.cdr, i) == Item(args, i + 1) && es[1..][i] == es[i + 1];
      ArgsErrorLaw(fuel, fo, hdl, args.cdr, vals[0], es[1..], vals[1..], stores[1..], bad);
    }
  }

  /** A call whose function and arguments have values: what it comes to is what the call of these values does. */
  lemma AppliesTo(fuel: nat, fo: ForeignFns, s: Heap, flags: Flags, hdl: nat, fe: Val, func: Val, args: Val,
      es: seq<Val>, vals: seq<Val>, stores: seq<Heap>)
    requires fuel > 0 && !Syntactic(func) && IsList(args, es)
    requires |stores| > 0 && Yields(fuel - 1, fo, s, hdl, fe, func, stores[0])
    requires YieldAll(fuel - 1, fo, hdl, es, vals, stores)
    ensures OneRound(fuel, fo, s, flags, hdl, Cons(fe, args))
         == Call(fuel, fo, stores[|es|], flags, hdl, func, vals, if vals == [] then func else vals[|vals| - 1])
  {
    hide Evaluate, Call, EvalArgs, OneRound, IsList, YieldAll, Yields;
    IsListShape(args, es);
    ArgsLaw(fuel, fo, hdl, args, func, es, vals, stores);
    Calls(fuel, fo, s, flags, hdl, fe, args, func, stores[0]);
  }

  /** A foreign function gets the list of the values in their order, the environments, and the handle. */
  lemma ForeignLaw(fuel: nat, fo: ForeignFns, s: Heap, flags: Flags, hdl: nat, fe: Val, id: nat, args: Val,
      es: seq<Val>, vals: seq<Val>, stores: seq<Heap>, list: Val)
    requires fuel > 0 && IsList(args, es) && IsList(list, vals)
    requires |stores| > 0 && Yields(fuel - 1, fo, s, hdl, fe, Foreign(id), stores[0])
    requires YieldAll(fuel - 1, fo, hdl, es, vals, stores)
    ensures var (status, v, t) := fo(id, list, stores[|es|], hdl);
      Evaluate(fuel, fo, s, flags, hdl, Cons(fe, args)) == Value(Leave(Out(status, v, t), flags, hdl))
  {
    AppliesTo(fuel, fo, s, flags, hdl, fe, Foreign(id), args, es, vals, stores);
    ArgumentsInOrder(vals);
    OnlyList(list, ListOf(vals), vals);
  }

  /** defined? gives one for a symbol that this environment binds; otherwise the value of the last argument, or
      itself, is left. */
  lemma DefinedLaw(fuel: nat, fo: ForeignFns, s: Heap, flags: Flags, hdl: nat, fe: Val, args: Val, es: seq<Val>,
      vals: seq<Val>, stores: seq<Heap>)
    requires fuel > 0 && IsList(args, es)
    requires |stores| > 0 && Yields(fuel - 1, fo, s, hdl, fe, Special(DEFINED), stores[0])
    requires YieldAll(fuel - 1, fo, hdl, es, vals, stores)
    ensures var t := stores[|es|];
      var v := if vals != [] && vals[0].Sym? && t.Lookup(t.At(hdl), vals[0].name).Some? then Int(1)
               else if vals == [] then Special(DEFINED) else vals[|vals| - 1];
      Evaluate(fuel, fo, s, flags, hdl, Cons(fe, args)) == Value(Leave(Out(EVAL_OK, v, t), flags, hdl))
  {
    AppliesTo(fuel, fo, s, flags, hdl, fe, Special(DEFINED), args, es, vals, stores);
    var t := stores[|es|];
    if vals != [] && vals[0].Sym? {
      FindSound(t, t.At(hdl), vals[0].name);
    }
  }

  /** eval evaluates the value of its first argument in the environment of the call, in place of the call. */
  lemma EvalLaw(fuel: nat, fo: ForeignFns, s: Heap, flags: Flags, hdl: nat, fe: Val, args: Val, es: seq<Val>,
      vals: seq<Val>, stores: seq<Heap>)
    requires fuel > 0 && IsList(args, es)
    requires |stores| > 0 && Yields(fuel - 1, fo, s, hdl, fe, Special(EVAL), stores[0])
    requires YieldAll(fuel - 1, fo, hdl, es, vals, stores)
    ensures Evaluate(fuel, fo, s, flags, hdl, Cons(fe, args))
         == Evaluate(fuel - 1, fo, stores[|es|], flags, hdl, if vals == [] then Nil else vals[0])
  {
    AppliesTo(fuel, fo, s, flags, hdl, fe, Special(EVAL), args, es, vals, stores);
    ArgumentsInOrder(vals);
    IsListShape(ListOf(vals), vals);
  }

  /** What is no function cannot be called. */
  lemma UnknownLaw(fuel: nat, fo: ForeignFns, s: Heap, flags: Flags, hdl: nat, fe: Val, func: Val, args: Val,
      es: seq<Val>, vals: seq<Val>, stores: seq<Heap>)
    requires fuel > 0 && IsList(args, es) && !func.Special? && !func.Foreign? && !func.Lambda? && !func.Cont?
    requires |stores| > 0 && Yields(fuel - 1, fo, s, hdl, fe, func, stores[0])
    requires YieldAll(fuel - 1, fo, hdl, es, vals, stores)
    ensures Evaluate(fuel, fo, s, flags, hdl, Cons(fe, args))
         == Value(Leave(Out(EVAL_ERR_UNKNOWN_FUNCALL, func, stores[|es|]), flags, hdl))
  {
    AppliesTo(fuel, fo, s, flags, hdl, fe, func, args, es, vals, stores);
  }

  /** The expressions of a body are evaluated in their order; the last one takes the place of the call. */
  lemma {:induction false} BodyLaw(fuel: nat, fo: ForeignFns, flags: Flags, hdl: nat, exprs: Val, es: seq<Val>,
      last: Val, vals: seq<Val>, stores: seq<Heap>)
    requires fuel > 0 && IsList(exprs, es + [last]) && YieldAll(fuel - 1, fo, hdl, es, vals, stores)
    ensures EvalBody(fuel, fo, stores[0], flags, hdl, exprs)
         == Jump(stores[|es|], Flags(true, flags.added, false), hdl, last)
    decreases |es|
  {
    hide Evaluate;
    IsListShape(exprs, es + [last]);
    if es != [] {
      YieldTail(fuel - 1, fo, hdl, es, vals, stores);
      assert (es + [last])[1..] == es[1..] + [last];
      IsListShape(exprs.cdr, es[1..] + [last]);
      BodyLaw(fuel, fo, flags, hdl, exprs.cdr, es[1..], last, vals[1..], stores[1..]);
    } else {
      IsListShape(exprs.cdr, (es + [last])[1..]);
    }
  }

  /** The call of a lambda: arguments from left to right, then the body in the environment that ParametersByPosition
      speaks of, and its last expression as a tail call. */
  lemma CallLaw(fuel: nat, fo: ForeignFns, s: Heap, flags: Flags, hdl: nat, fe: Val, func: Val, args: Val, es: seq<Val>,
      vals: seq<Val>, stores: seq<Heap>, body: seq<Val>, last: Val, got: seq<Val>, after: seq<Heap>)
    requires fuel > 0 && func.Lambda? && IsList(args, es) && IsList(func.expr, body + [last])
    requires |stores| > 0 && Yields(fuel - 1, fo, s, hdl, fe, func, stores[0])
    requires YieldAll(fuel - 1, fo, hdl, es, vals, stores)
    requires var e := Enter(stores[|es|], flags, hdl, func, vals);
      e.status == EVAL_OK && |after| > 0 && after[0] == e.store && YieldAll(fuel - 1, fo, e.hdl, body, got, after)
    ensures var e := Enter(stores[|es|], flags, hdl, func, vals);
      Evaluate(fuel, fo, s, flags, hdl, Cons(fe, args))
        == Evaluate(fuel - 1, fo, after[|body|], Flags(true, e.flags.added, false), e.hdl, last)
  {
    var e := Enter(stores[|es|], flags, hdl, func, vals);
    AppliesTo(fuel, fo, s, flags, hdl, fe, func, args, es, vals, stores);
    BodyLaw(fuel, fo, e.flags, e.hdl, func.expr, body, last, got, after);
    hide Enter, YieldAll, IsList;
  }

  /** A lambda whose parameters do not fit is the result of its call, with the status of the binding. */
  lemma CallErrorLaw(fuel: nat, fo: ForeignFns, s: Heap, flags: Flags, hdl: nat, fe: Val, func: Val, args: Val,
      es: seq<Val>, vals: seq<Val>, stores: seq<Heap>)
    requires fuel > 0 && func.Lambda? && IsList(args, es)
    requires |stores| > 0 && Yields(fuel - 1, fo, s, hdl, fe, func, stores[0])
    requires YieldAll(fuel - 1, fo, hdl, es, vals, stores)
    requires Enter(stores[|es|], flags, hdl, func, vals).status != EVAL_OK
    ensures var e := Enter(stores[|es|], flags, hdl, func, vals);
      Evaluate(fuel, fo, s, flags, hdl, Cons(fe, args)) == Value(Leave(Out(e.status, func, e.store), e.flags, e.hdl))
  {
    AppliesTo(fuel, fo, s, flags, hdl, fe, func, args, es, vals, stores);
  }
}
