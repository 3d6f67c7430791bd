/** What binding parameters to arguments does to lookups. */
module Binding {
  import opened Options
  import opened Environ
  import opened Eval

  /** Binding a name, by update or by a new entry, changes that name and no other. */
  lemma BindOneLookup(s: Heap, h: nat, name: Name, val: Val, x: Name)
    requires h < |s.hdls| && s.Ok()
    ensures var t := BindOne(s, h, name, val);
      && t.Ok() && |t.hdls| == |s.hdls|
      && t.Lookup(t.At(h), x) == if x == name then Some(val) else s.Lookup(s.At(h), x)
  {
    var e := s.At(h);
    assert InRange(s, e);
    var kv := s.FindTop(e, name);
    if kv.Some? {
      assert s.Find(e, name) == kv;
      FindSound(s, e, name);
      FindSound(s, e, x);
      PatchLookup(s, kv.value, val, e, x);
    } else {
      AddLookup(s, h, name, val, x);
    }
  }

  /** After a successful lambda_bind every parameter, and the dotted rest name, looks up to its argument,
      and every other name to what it was. */
  lemma {:induction false} LambdaBindLookup(s: Heap, h: nat, vars: Val, args: Val, x: Name)
    requires h < |s.hdls| && s.Ok()
    requires LambdaBind(s, h, vars, args).0 == EVAL_OK
    ensures var t := LambdaBind(s, h, vars, args).1;
      && t.Ok() && |t.hdls| == |s.hdls|
      && t.Lookup(t.At(h), x) == if Given(vars, args, x).Some? then Given(vars, args, x) else s.Lookup(s.At(h), x)
    decreases vars
  {
    match vars {
      case Cons(name, rest) =>
        BindOneLookup(s, h, name.name, args.car, x);
        LambdaBindLookup(BindOne(s, h, name.name, args.car), h, rest, args.cdr, x);
      case Sym(name) => BindOneLookup(s, h, name, args, x);
      case _ =>
    }
  }

  // ----- when the call succeeds

  /** How many arguments a parameter list takes, and whether a dotted name takes the rest. */
  function Params(vars: Val): (r: Option<(nat, bool)>)
    decreases vars
  {
    match vars
    case Nil => Some((0, false))
    case Cons(name, rest) =>
      var r := Params(rest);
      if name.Sym? && r.Some? then Some((r.value.0 + 1, r.value.1)) else None
    case Sym(_) => Some((0, true))
    case _ => None
  }

  /** lambda_bind succeeds exactly for a list of names that the arguments match in number. */
  lemma {:induction false} LambdaBindSucceeds(s: Heap, h: nat, vars: Val, vals: seq<Val>)
    ensures LambdaBind(s, h, vars, ListOf(vals)).0 == EVAL_OK <==>
      Params(vars).Some?
      && if Params(vars).value.1 then |vals| >= Params(vars).value.0 else |vals| == Params(vars).value.0
    decreases vars
  {
    if vars.Cons? && vals != [] && vars.car.Sym? {
      LambdaBindSucceeds(BindOne(s, h, vars.car.name, vals[0]), h, vars.cdr, vals[1..]);
    }
  }

  // ----- a call outside of tail position

  /** All bindings in the handle's top frame were made at base or later. */
  ghost predicate OwnFrame(s: Heap, h: nat, base: nat) {
    && h < |s.hdls| && s.At(h) != [] && base <= |s.kvs|
    && forall i :: 0 <= i < |s.At(h)[0]| ==> base <= s.At(h)[0][i] < |s.kvs|
  }

  /** Nothing but handle h and the bindings from base on differs. */
  ghost predicate OnlyOwn(s: Heap, t: Heap, h: nat, base: nat) {
    && |s.kvs| <= |t.kvs| && |t.hdls| == |s.hdls| && base <= |s.kvs|
    && (forall j :: 0 <= j < base ==> t.kvs[j] == s.kvs[j])
    && (forall g :: 0 <= g < |s.hdls| && g != h ==> t.hdls[g] == s.hdls[g])
  }

  lemma BindOneOwn(s: Heap, h: nat, name: Name, val: Val, base: nat)
    requires OwnFrame(s, h, base)
    ensures OwnFrame(BindOne(s, h, name, val), h, base) && OnlyOwn(s, BindOne(s, h, name, val), h, base)
    ensures BindOne(s, h, name, val).At(h)[1..] == s.At(h)[1..]
  {
    FindFrameSound(s, s.At(h)[0], name);
  }

  lemma {:induction false} LambdaBindOwn(s: Heap, h: nat, vars: Val, args: Val, base: nat)
    requires OwnFrame(s, h, base)
    ensures OwnFrame(LambdaBind(s, h, vars, args).1, h, base) && OnlyOwn(s, LambdaBind(s, h, vars, args).1, h, base)
    ensures LambdaBind(s, h, vars, args).1.At(h)[1..] == s.At(h)[1..]
    decreases vars
  {
    match vars {
      case Cons(name, rest) =>
        if args.Cons? && name.Sym? {
          BindOneOwn(s, h, name.name, args.car, base);
          LambdaBindOwn(BindOne(s, h, name.name, args.car), h, rest, args.cdr, base);
        }
      case Sym(name) => BindOneOwn(s, h, name, args, base);
      case _ =>
    }
  }

  /** A call outside of tail position is lexically scoped: the body sees the arguments, and behind them what the
      lambda captured; nobody else sees a difference, whichever environment they hold. */
  lemma CallIsLexical(s: Heap, env: Env, vars: Val, args: Val, x: Name, e: Env)
    requires s.Ok() && InRange(s, env) && InRange(s, e)
    ensures var t := LambdaBind(CallFrame(s, env), |s.hdls|, vars, args);
      && (t.0 == EVAL_OK ==>
          t.1.Lookup(t.1.At(|s.hdls|), x)
          == if Given(vars, args, x).Some? then Given(vars, args, x) else s.Lookup(env, x))
      && t.1.Lookup(e, x) == s.Lookup(e, x)
      && (forall g :: 0 <= g < |s.hdls| ==> t.1.At(g) == s.At(g))
  {
    var h: nat := |s.hdls|;
    var n := s.NewHandle(env);
    var c := CallFrame(s, env);
    PushPop(n, h, x);
    FindSame(s, n, env, x);
    assert n.At(h) == env && c.At(h) == [[]] + env;
    assert forall f :: 0 < f < |c.At(h)| ==> c.At(h)[f] == env[f - 1];
    assert c.Ok();
    var t := LambdaBind(c, h, vars, args);
    LambdaBindOwn(c, h, vars, args, |s.kvs|);
    if t.0 == EVAL_OK {
      LambdaBindLookup(c, h, vars, args, x);
    }
    LambdaBindKeys(c, h, vars, args);
    assert SameKeys(s, t.1);
    FindKeys(s, t.1, e, x);
    FindSound(s, e, x);
  }

  /** Binding never renames or drops a binding. */
  lemma {:induction false} LambdaBindKeys(s: Heap, h: nat, vars: Val, args: Val)
    ensures SameKeys(s, LambdaBind(s, h, vars, args).1)
    decreases vars
  {
    if vars.Cons? && args.Cons? && vars.car.Sym? {
      LambdaBindKeys(BindOne(s, h, vars.car.name, args.car), h, vars.cdr, args.cdr);
    }
  }

  // ----- one entry for each name

  /** No two entries of the frame have the same name. */
  ghost predicate Distinct(s: Heap, f: seq<nat>) {
    && FrameInRange(s, f)
    && forall i, j :: 0 <= i < j < |f| ==> s.kvs[f[i]].key != s.kvs[f[j]].key
  }

  lemma {:induction false} FindFrameComplete<V>(s: Store<V>, f: seq<nat>, key: Name, i: nat)
    requires i < |f| && s.Matches(f[i], key)
    ensures s.FindFrame(f, key).Some?
    decreases f
  {
    if !s.Matches(f[0], key) {
      FindFrameComplete(s, f[1..], key, i - 1);
    }
  }

  lemma AddDistinct(s: Heap, h: nat, name: Name, val: Val)
    requires h < |s.hdls| && s.At(h) != [] && Distinct(s, s.At(h)[0])
    requires forall i :: 0 <= i < |s.At(h)[0]| ==> s.kvs[s.At(h)[0][i]].key != name
    ensures var t := s.Add(h, name, val);
      && |t.hdls| == |s.hdls| && |t.At(h)| == |s.At(h)| && Distinct(t, t.At(h)[0]) && SameKeys(s, t)
  {
    var t := s.Add(h, name, val);
    assert t.At(h)[0] == [|s.kvs|] + s.At(h)[0];
  }

  lemma BindOneDistinct(s: Heap, h: nat, name: Name, val: Val)
    requires h < |s.hdls| && s.At(h) != [] && Distinct(s, s.At(h)[0])
    ensures var t := BindOne(s, h, name, val);
      && |t.hdls| == |s.hdls| && |t.At(h)| == |s.At(h)| && Distinct(t, t.At(h)[0]) && SameKeys(s, t)
  {
    var top := s.At(h)[0];
    if s.FindFrame(top, name).None? {
      forall i | 0 <= i < |top|
        ensures s.kvs[top[i]].key != name
      {
        if s.kvs[top[i]].key == name {
          FindFrameComplete(s, top, name, i);
        }
      }
      hide Distinct;
      AddDistinct(s, h, name, val);
    }
  }

  /** However often parameters are bound into the same frame, each name has one entry. */
  lemma {:induction false} LambdaBindDistinct(s: Heap, h: nat, vars: Val, args: Val)
    requires h < |s.hdls| && s.At(h) != [] && Distinct(s, s.At(h)[0])
    ensures var t := LambdaBind(s, h, vars, args).1;
      && |t.hdls| == |s.hdls| && |t.At(h)| == |s.At(h)| && Distinct(t, t.At(h)[0]) && SameKeys(s, t)
    decreases vars
  {
    match vars {
      case Cons(name, rest) =>
        if args.Cons? && name.Sym? {
          BindOneDistinct(s, h, name.name, args.car);
          LambdaBindDistinct(BindOne(s, h, name.name, args.car), h, rest, args.cdr);
        }
      case Sym(name) => BindOneDistinct(s, h, name, args);
      case _ =>
    }
  }
}
