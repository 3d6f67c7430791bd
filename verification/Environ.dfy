/** Environments. A handle holds a list of frames, innermost first; a frame is a list of bindings, newest
    first. Frames are never changed once a handle has moved on; the bindings in them may be. */
module Environ {
  import opened Options

  type Name = seq<int>

  type Env = seq<seq<nat>>

  datatype Binding<V> = Binding(key: Name, val: V)

  /** All bindings and all environment handles ever made. */
  datatype Store<V> = Store(kvs: seq<Binding<V>>, hdls: seq<Env>) {

    ghost predicate Ok() {
      forall h, f, i :: 0 <= h < |hdls| && 0 <= f < |hdls[h]| && 0 <= i < |hdls[h][f]| ==> hdls[h][f][i] < |kvs|
    }

    function At(h: nat): Env {
      if h < |hdls| then hdls[h] else []
    }

    function Set(h: nat, e: Env): Store<V> {
      if h < |hdls| then this.(hdls := hdls[h := e]) else this
    }

    /** environ_pushframe */
    function Push(h: nat): Store<V> {
      Set(h, [[]] + At(h))
    }

    /** environ_popframe: popping an empty environment leaves it empty. */
    function Pop(h: nat): Store<V> {
      Set(h, if At(h) == [] then [] else At(h)[1..])
    }

    /** environ_add: a new binding in front of the top frame, which is made when there is none. */
    function Add(h: nat, key: Name, val: V): Store<V> {
      var e := At(h);
      var top := if e == [] then [|kvs|] else [|kvs|] + e[0];
      Store(kvs + [Binding(key, val)], hdls).Set(h, [top] + if e == [] then [] else e[1..])
    }

    /** node_cons_patch_cdr on a binding. */
    function PatchBinding(kv: nat, val: V): Store<V> {
      if kv < |kvs| then this.(kvs := kvs[kv := kvs[kv].(val := val)]) else this
    }

    /** node_handle_new */
    function NewHandle(e: Env): Store<V> {
      this.(hdls := hdls + [e])
    }

    predicate Matches(kv: nat, key: Name) {
      kv < |kvs| && kvs[kv].key == key
    }

    /** The first binding of the name in a frame. */
    function FindFrame(frame: seq<nat>, key: Name): Option<nat> {
      if frame == [] then None
      else if Matches(frame[0], key) then Some(frame[0])
      else FindFrame(frame[1..], key)
    }

    /** The first binding of the name in the innermost frame that has one. */
    function Find(e: Env, key: Name): Option<nat> {
      if e == [] then None
      else
        var kv := FindFrame(e[0], key);
        if kv.Some? then kv else Find(e[1..], key)
    }

    /** environ_keyval_frame looks at the top frame only. */
    function FindTop(e: Env, key: Name): Option<nat> {
      if e == [] then None else FindFrame(e[0], key)
    }

    /** environ_lookup */
    function Lookup(e: Env, key: Name): Option<V> {
      var kv := Find(e, key);
      if kv.Some? && kv.value < |kvs| then Some(kvs[kv.value].val) else None
    }
  }

  // ----- what the operations mean for lookups

  ghost predicate InRange<V>(s: Store<V>, e: Env) {
    forall f, i :: 0 <= f < |e| && 0 <= i < |e[f]| ==> e[f][i] < |s.kvs|
  }

  ghost predicate FrameInRange<V>(s: Store<V>, f: seq<nat>) {
    forall i :: 0 <= i < |f| ==> f[i] < |s.kvs|
  }

  lemma {:induction false} FindFrameSound<V>(s: Store<V>, f: seq<nat>, key: Name)
    ensures s.FindFrame(f, key).Some? ==> s.FindFrame(f, key).value in f && s.Matches(s.FindFrame(f, key).value, key)
  {
    if f != [] {
      FindFrameSound(s, f[1..], key);
    }
  }

  lemma {:induction false} FindSound<V>(s: Store<V>, e: Env, key: Name)
    ensures s.Find(e, key).Some? ==> s.Matches(s.Find(e, key).value, key)
  {
    if e != [] {
      FindFrameSound(s, e[0], key);
      FindSound(s, e[1..], key);
    }
  }

  lemma {:induction false} FindFrameFirst<V>(s: Store<V>, f: seq<nat>, key: Name) returns (i: nat)
    ensures i <= |f| && forall j :: 0 <= j < i ==> !s.Matches(f[j], key)
    ensures i < |f| ==> s.Matches(f[i], key)
    ensures s.FindFrame(f, key) == if i < |f| then Some(f[i]) else None
  {
    i := 0;
    if f != [] && !s.Matches(f[0], key) {
      var k := FindFrameFirst(s, f[1..], key);
      i := k + 1;
      assert forall j :: 0 < j < |f| ==> f[j] == f[1..][j - 1];
    }
  }

  /** What a search finds is the most recent binding of the name in the innermost frame that has one, and it
      finds nothing only when no frame has one. */
  lemma {:induction false} FindFirst<V>(s: Store<V>, e: Env, key: Name) returns (f: nat, i: nat)
    ensures f <= |e| && forall g, j :: 0 <= g < f && 0 <= j < |e[g]| ==> !s.Matches(e[g][j], key)
    ensures f < |e| ==> i < |e[f]| && s.Matches(e[f][i], key) && forall j :: 0 <= j < i ==> !s.Matches(e[f][j], key)
    ensures s.Find(e, key) == if f < |e| then Some(e[f][i]) else None
  {
    f, i := 0, 0;
    if e != [] {
      i := FindFrameFirst(s, e[0], key);
      if i == |e[0]| {
        f, i := FindFirst(s, e[1..], key);
        forall g, j | 0 < g <= f && 0 <= j < |e[g]|
          ensures !s.Matches(e[g][j], key)
        {
          assert g - 1 < f ==> e[1..][g - 1] == e[g];
        }
        f := f + 1;
      }
    }
  }

  /** Finding depends on nothing but the keys of the bindings. */
  ghost predicate SameKeys<V>(s: Store<V>, t: Store<V>) {
    |s.kvs| <= |t.kvs| && forall i :: 0 <= i < |s.kvs| ==> s.kvs[i].key == t.kvs[i].key
  }

  lemma {:induction false} FindFrameKeys<V>(s: Store<V>, t: Store<V>, f: seq<nat>, key: Name)
    requires SameKeys(s, t) && FrameInRange(s, f)
    ensures t.FindFrame(f, key) == s.FindFrame(f, key)
  {
    if f != [] {
      FindFrameKeys(s, t, f[1..], key);
    }
  }

  lemma {:induction false} FindKeys<V>(s: Store<V>, t: Store<V>, e: Env, key: Name)
    requires SameKeys(s, t) && InRange(s, e)
    ensures t.Find(e, key) == s.Find(e, key)
  {
    if e != [] {
      FindFrameKeys(s, t, e[0], key);
      assert forall f :: 0 <= f < |e[1..]| ==> e[1..][f] == e[f + 1];
      FindKeys(s, t, e[1..], key);
    }
  }

  /** A new binding is what its name looks up to, and no other name is affected. */
  lemma AddLookup<V>(s: Store<V>, h: nat, key: Name, val: V, x: Name)
    requires h < |s.hdls| && s.Ok()
    ensures var t := s.Add(h, key, val);
      t.Ok() && t.Lookup(t.At(h), x) == if x == key then Some(val) else s.Lookup(s.At(h), x)
  {
    var t := s.Add(h, key, val);
    var e := s.At(h);
    var n: nat := |s.kvs|;
    assert InRange(s, e);
    assert t.Matches(n, x) <==> x == key;
    FindSound(s, e, x);
    if e != [] {
      var top: seq<nat> := [n] + e[0];
      assert t.At(h) == [top] + e[1..];
      assert top[1..] == e[0] && t.At(h)[1..] == e[1..] && t.At(h)[0] == top;
      FindFrameKeys(s, t, e[0], x);
      assert t.FindFrame(top, x) == if x == key then Some(n) else s.FindFrame(e[0], x);
      assert forall f :: 0 <= f < |e[1..]| ==> e[1..][f] == e[f + 1];
      FindKeys(s, t, e[1..], x);
    } else {
      var top: seq<nat> := [n];
      assert t.At(h) == [top] && t.At(h)[1..] == [] && top[1..] == [];
      assert t.FindFrame(top, x) == if x == key then Some(n) else None;
    }
    assert t.Find(t.At(h), x) == if x == key then Some(n) else s.Find(e, x);
  }

  /** set! changes what every environment that finds this binding sees, whichever handle or closure holds it. */
  lemma PatchLookup<V>(s: Store<V>, kv: nat, val: V, e: Env, x: Name)
    requires kv < |s.kvs| && InRange(s, e)
    ensures s.PatchBinding(kv, val).Lookup(e, x) == if s.Find(e, x) == Some(kv) then Some(val) else s.Lookup(e, x)
  {
    FindKeys(s, s.PatchBinding(kv, val), e, x);
  }

  /** A captured environment is a snapshot: later definitions, pushes and pops through any handle do not
      change what it sees. */
  lemma SnapshotKeeps<V>(s: Store<V>, e: Env, h: nat, key: Name, val: V, x: Name)
    requires InRange(s, e)
    ensures s.Add(h, key, val).Lookup(e, x) == s.Lookup(e, x)
    ensures s.Push(h).Lookup(e, x) == s.Lookup(e, x) && s.Pop(h).Lookup(e, x) == s.Lookup(e, x)
  {
    FindKeys(s, s.Add(h, key, val), e, x);
    FindKeys(s, s.Push(h), e, x);
    FindKeys(s, s.Pop(h), e, x);
    FindSound(s, e, x);
    FindInRange(s, e, x);
  }

  lemma FindInRange<V>(s: Store<V>, e: Env, x: Name)
    ensures s.Find(e, x).Some? ==> s.Find(e, x).value < |s.kvs|
  {
    FindSound(s, e, x);
  }

  /** A pushed frame hides nothing, and popping it restores the environment. */
  lemma PushPop<V>(s: Store<V>, h: nat, x: Name)
    requires h < |s.hdls|
    ensures s.Push(h).Pop(h) == s
    ensures s.Push(h).Lookup(s.Push(h).At(h), x) == s.Lookup(s.At(h), x)
  {
    var p := s.Push(h);
    assert p.At(h)[1..] == s.At(h);
    assert p.Pop(h).hdls == s.hdls;
    FindSame(s, p, s.At(h), x);
  }

  lemma {:induction false} FindSame<V>(s: Store<V>, t: Store<V>, e: Env, x: Name)
    requires s.kvs == t.kvs
    ensures s.Find(e, x) == t.Find(e, x)
  {
    if e != [] {
      FindFrameSame(s, t, e[0], x);
      FindSame(s, t, e[1..], x);
    }
  }

  lemma {:induction false} FindFrameSame<V>(s: Store<V>, t: Store<V>, f: seq<nat>, x: Name)
    requires s.kvs == t.kvs
    ensures s.FindFrame(f, x) == t.FindFrame(f, x)
  {
    if f != [] {
      FindFrameSame(s, t, f[1..], x);
    }
  }
}
