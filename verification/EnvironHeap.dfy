/** Environment handles, updated in place, and the loops that search them. */
module EnvironHeap {
  import opened Options
  import opened Environ
  import opened Eval

  class EnvHeap {
    var kvs: seq<Binding<Val>>
    var hdls: seq<Env>

    ghost function View(): Heap
      reads this
    {
      Store(kvs, hdls)
    }

    constructor (s: Heap)
      ensures View() == s
    {
      kvs, hdls := s.kvs, s.hdls;
    }

    /** node_handle of an environment handle */
    function Frames(h: nat): (e: Env)
      reads this
      ensures e == View().At(h)
    {
      if h < |hdls| then hdls[h] else []
    }

    /** node_handle_update */
    method SetFrames(h: nat, e: Env)
      modifies `hdls
      ensures View() == old(View()).Set(h, e)
    {
      if h < |hdls| {
        hdls := hdls[h := e];
      }
    }

    method NewHandle(e: Env) returns (h: nat)
      modifies `hdls
      ensures h == old(|hdls|) && View() == old(View()).NewHandle(e)
    {
      h := |hdls|;
      hdls := hdls + [e];
    }

    method PushFrame(h: nat)
      modifies `hdls
      ensures View() == old(View()).Push(h)
    {
      SetFrames(h, [[]] + Frames(h));
    }

    method PopFrame(h: nat)
      modifies `hdls
      ensures View() == old(View()).Pop(h)
    {
      var e := Frames(h);
      if e != [] {
        e := e[1..];
      }
      SetFrames(h, e);
    }

    method Add(h: nat, key: Name, val: Val)
      modifies this
      ensures View() == old(View()).Add(h, key, val)
    {
      var e := Frames(h);
      var top: seq<nat> := [|kvs|];
      if e != [] {
        top := top + e[0];
        e := e[1..];
      }
      kvs := kvs + [Binding(key, val)];
      SetFrames(h, [top] + e);
    }

    method PatchBinding(kv: nat, val: Val)
      modifies `kvs
      ensures View() == old(View()).PatchBinding(kv, val)
    {
      if kv < |kvs| {
        kvs := kvs[kv := kvs[kv].(val := val)];
      }
    }

    /** frame_iterate with the callback that compares names: stops at the first match. */
    method FindKeyval(h: nat, key: Name, recursive: bool) returns (kv: Option<nat>)
      ensures kv == if recursive then View().Find(View().At(h), key) else View().FindTop(View().At(h), key)
    {
      var frames: Env := Frames(h);
      while frames != []
        invariant recursive ==> View().Find(frames, key) == View().Find(View().At(h), key)
        invariant !recursive ==> View().FindTop(frames, key) == View().FindTop(View().At(h), key)
        decreases |frames|
      {
        var entries: seq<nat> := frames[0];
        while entries != []
          invariant View().FindFrame(entries, key) == View().FindFrame(frames[0], key)
          decreases |entries|
        {
          if entries[0] < |kvs| && kvs[entries[0]].key == key {
            return Some(entries[0]);
          }
          entries := entries[1..];
        }
        frames := frames[1..];
        if !recursive {
          return None;
        }
      }
      kv := None;
    }

    method Lookup(h: nat, key: Name) returns (v: Option<Val>)
      ensures v == View().Lookup(View().At(h), key)
    {
      var kv := FindKeyval(h, key, true);
      v := if kv.Some? && kv.value < |kvs| then Some(kvs[kv.value].val) else None;
    }

    /** A foreign function has left all environments in this state. */
    method SetAll(s: Heap)
      modifies this
      ensures View() == s
    {
      kvs, hdls := s.kvs, s.hdls;
    }

    /** lambda_bind */
    method BindParameters(h: nat, vars: Val, args: Val) returns (status: Err)
      modifies this
      ensures (status, View()) == Eval.LambdaBind(old(View()), h, vars, args)
    {
      var varCurs, argCurs := vars, args;
      while true
        invariant Eval.LambdaBind(View(), h, varCurs, argCurs) == Eval.LambdaBind(old(View()), h, vars, args)
        decreases varCurs
      {
        var name, value;
        var earlyTerm := false;
        if varCurs.Nil? {
          return if argCurs != Nil then EVAL_ERR_TOO_MANY_ARGS else EVAL_OK;
        } else if varCurs.Cons? {
          if !argCurs.Cons? {
            return EVAL_ERR_MISSING_ARG;
          }
          value, name := argCurs.car, varCurs.car;
          if !name.Sym? {
            return EVAL_ERR_EXPECTED_SYMBOL;
          }
        } else if varCurs.Sym? {
          value, name := argCurs, varCurs;
          earlyTerm := true;
        } else {
          return EVAL_ERR_EXPECTED_CONS_SYM;
        }
        var kv := FindKeyval(h, name.name, false);
        if kv.Some? {
          PatchBinding(kv.value, value);
        } else {
          Add(h, name.name, value);
        }
        if earlyTerm {
          return EVAL_OK;
        }
        varCurs, argCurs := varCurs.cdr, argCurs.cdr;
      }
    }
  }
}
