/** The frame lists behind a handle: pushing saves the local handles, popping loads them again. */
module FrameStack {

  class FrameHandle<T> {
    /** Frames, the top one first; each is the list of its entries. */
    var frames: seq<seq<T>>

    constructor ()
      ensures frames == []
    {
      frames := [];
    }

    /** frame_push: save all locals as a new top frame and give them new values. */
    method Push(locals: array<T>, newvals: seq<T>)
      requires locals.Length == |newvals|
      modifies this, locals
      ensures frames == [old(locals[..])] + old(frames) && locals[..] == newvals
    {
      ghost var was := locals[..];
      var cursor: seq<T> := [];
      var i := locals.Length - 1;
      while i >= 0
        invariant -1 <= i < locals.Length && frames == old(frames)
        invariant cursor == was[i + 1..]
        invariant forall j :: 0 <= j <= i ==> locals[j] == was[j]
        invariant forall j :: i < j < locals.Length ==> locals[j] == newvals[j]
        decreases i
      {
        SliceStep(was, i);
        cursor := [locals[i]] + cursor;
        locals[i] := newvals[i];
        i := i - 1;
      }
      frames := [cursor] + frames;
    }

    lemma SliceStep(s: seq<T>, i: nat)
      requires i < |s|
      ensures s[i..] == [s[i]] + s[i + 1..]
    {
    }

    /** frame_pop: load the locals from the top frame, whose entries must suffice, and drop it. Without locals
        an empty list stays empty. */
    method Pop(locals: array<T>)
      requires if frames == [] then locals.Length == 0 else locals.Length <= |frames[0]|
      modifies this, locals
      ensures frames == if old(frames) == [] then [] else old(frames)[1..]
      ensures old(frames) != [] ==> locals[..] == old(frames)[0][..locals.Length]
    {
      var cursor: seq<T> := if frames == [] then [] else frames[0];
      for i := 0 to locals.Length
        invariant frames == old(frames)
        invariant old(frames) != [] ==> cursor == old(frames)[0][i..] && locals[..i] == old(frames)[0][..i]
      {
        assert cursor != [];
        locals[i] := cursor[0];
        assert locals[..i + 1] == old(frames)[0][..i] + [old(frames)[0][i]];
        cursor := cursor[1..];
      }
      if frames != [] {
        frames := frames[1..];
      }
    }

    /** frame_restore: continue with a snapshot of the frame list. */
    method Restore(locals: array<T>, snapshot: seq<seq<T>>)
      requires if snapshot == [] then locals.Length == 0 else locals.Length <= |snapshot[0]|
      modifies this, locals
      ensures frames == if snapshot == [] then [] else snapshot[1..]
      ensures snapshot != [] ==> locals[..] == snapshot[0][..locals.Length]
    {
      frames := snapshot;
      Pop(locals);
    }

    /** frame_add_elem: a new top frame with one entry more; the frame there was is not changed, so that
        whoever holds it still sees it. */
    method AddElem(val: T)
      modifies this
      ensures frames == if old(frames) == [] then [[val]] else [[val] + old(frames)[0]] + old(frames)[1..]
    {
      var nextent: seq<T> := if frames == [] then [] else frames[0];
      var nextfrm: seq<seq<T>> := if frames == [] then [] else frames[1..];
      assert frames == [] ==> [val] + nextent == [val] && [[val] + nextent] + nextfrm == [[val]];
      frames := [[val] + nextent] + nextfrm;
    }
  }
}
