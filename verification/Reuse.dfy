/** A run of the collector as the interpreter drives it, a step after every operation of the program, in which
    handing out a still-referenced cell makes the collector free a cell in use. */
module Reuse {
  import opened GcState
  import opened Collector
  import opened Runs
  import opened Loss

  // Cell 0 is a locked handle. Cells 1 to 4 are handles that link to each other in a circle, which the program
  // gives up. The sweep frees cell 4 first, while cell 1 still counts as linking to it.

  function Root(p: Place, l: Link): Cell {
    Cell(p, true, 0, [l])
  }

  function C(p: Place, refcount: nat, l: Link): Cell {
    Cell(p, false, refcount, [l])
  }

  const S1 := State([C(RootTodo, 0, Null)], 0)
  const S2 := State([C(RootDone, 0, Null)], 0)
  const S3 := State([Root(RootDone, Null)], 0)
  const S4 := State([Root(RootTodo, Null)], 1)
  const S5 := State([Root(RootTodo, Null), C(RootTodo, 0, Null)], 1)
  const S6 := State([Root(RootDone, Null), C(RootTodo, 0, Null)], 1)
  const S7 := State([Root(RootDone, To(1)), C(RootTodo, 1, Null)], 1)
  const S8 := State([Root(RootDone, To(1)), C(RootDone, 1, Null)], 1)
  const S9 := State([Root(RootTodo, To(1)), C(RootTodo, 1, Null)], 2)
  const S10 := State([Root(RootTodo, To(1)), C(RootTodo, 2, Null), C(RootTodo, 0, To(1))], 2)
  const S11 := State([Root(RootTodo, To(1)), C(RootTodo, 2, Null), C(RootTodo, 0, To(1))], 2)
  const S12 := State([Root(RootTodo, To(1)), C(RootTodo, 2, Null), C(RootTodo, 0, To(1))], 2)
  const S13 := State([Root(RootTodo, To(1)), C(RootTodo, 2, Null), C(RootTodo, 1, To(1)), C(RootTodo, 0, To(2))], 2)
  const S14 := State([Root(RootTodo, To(1)), C(RootTodo, 2, Null), C(RootTodo, 1, To(1)), C(RootTodo, 0, To(2))], 2)
  const S15 := State([Root(RootTodo, To(1)), C(RootTodo, 2, Null), C(RootTodo, 1, To(1)), C(RootTodo, 0, To(2))], 2)
  const S16 := State([Root(RootTodo, To(1)), C(RootTodo, 2, Null), C(RootTodo, 1, To(1)), C(RootTodo, 1, To(2)),
    C(RootTodo, 0, To(3))], 2)
  const S17 := State([Root(RootTodo, To(1)), C(RootTodo, 2, Null), C(RootTodo, 1, To(1)), C(RootTodo, 1, To(2)),
    C(RootTodo, 0, To(3))], 2)
  const S18 := State([Root(RootTodo, To(1)), C(RootTodo, 2, Null), C(RootTodo, 1, To(1)), C(RootTodo, 1, To(2)),
    C(RootTodo, 0, To(3))], 2)
  const S19 := State([Root(RootTodo, To(1)), C(RootTodo, 2, To(4)), C(RootTodo, 1, To(1)), C(RootTodo, 1, To(2)),
    C(RootTodo, 1, To(3))], 2)
  const S20 := State([Root(RootTodo, To(1)), C(RootTodo, 2, To(4)), C(RootTodo, 1, To(1)), C(RootTodo, 1, To(2)),
    C(RootTodo, 1, To(3))], 2)
  const S21 := State([Root(RootTodo, To(1)), C(RootTodo, 2, To(4)), C(RootTodo, 1, To(1)), C(RootTodo, 1, To(2)),
    C(RootTodo, 1, To(3))], 2)
  const S22 := State([Root(RootTodo, Null), C(RootTodo, 1, To(4)), C(RootTodo, 1, To(1)), C(RootTodo, 1, To(2)),
    C(RootTodo, 1, To(3))], 0)
  const S23 := State([Root(RootTodo, Null), C(RootDone, 1, To(4)), C(RootTodo, 1, To(1)), C(RootTodo, 1, To(2)),
    C(Boundary, 1, To(3))], 0)
  const S24 := State([Root(RootTodo, Null), C(RootDone, 1, To(4)), C(RootTodo, 1, To(1)), C(Boundary, 1, To(2)),
    C(Reachable, 1, To(3))], 0)
  const S25 := State([Root(RootTodo, Null), C(RootDone, 1, To(4)), C(Boundary, 1, To(1)), C(Reachable, 1, To(2)),
    C(Reachable, 1, To(3))], 0)
  const S26 := State([Root(RootTodo, Null), C(Boundary, 1, To(4)), C(Reachable, 1, To(1)),
    C(Reachable, 1, To(2)), C(Reachable, 1, To(3))], 0)
  const S27 := State([Root(RootTodo, Null), C(Reachable, 1, To(4)), C(Reachable, 1, To(1)),
    C(Reachable, 1, To(2)), C(Reachable, 1, To(3))], 0)
  const S28 := State([Root(RootDone, Null), C(Reachable, 1, To(4)), C(Reachable, 1, To(1)),
    C(Reachable, 1, To(2)), C(Reachable, 1, To(3))], 0)
  const S29 := State([Root(RootTodo, Null), C(Unproc, 1, To(4)), C(Unproc, 1, To(1)), C(Unproc, 1, To(2)),
    C(Unproc, 1, To(3))], 1)
  const S30 := State([Root(RootDone, Null), C(Unproc, 1, To(4)), C(Unproc, 1, To(1)), C(Unproc, 1, To(2)),
    C(Unproc, 1, To(3))], 1)
  const S31 := State([Root(RootDone, Null), C(Unproc, 1, To(4)), C(Unproc, 1, To(1)), C(FreePending, 0, To(2)),
    C(Free, 1, To(3))], 0)
  const S32 := State([Root(RootDone, Null), C(Unproc, 1, To(4)), C(Unproc, 1, To(1)), C(FreePending, 0, To(2)),
    C(RootTodo, 0, Null)], 0)
  const S33 := State([Root(RootDone, Null), C(Unproc, 1, To(4)), C(FreePending, 0, To(1)), C(Free, 0, To(2)),
    C(RootTodo, 0, Null)], 0)
  const S34 := State([Root(RootDone, To(4)), C(Unproc, 1, To(4)), C(FreePending, 0, To(1)), C(Free, 0, To(2)),
    C(RootTodo, 1, Null)], 0)
  const S35 := State([Root(RootDone, To(4)), C(FreePending, 0, To(4)), C(Free, 0, To(1)), C(Free, 0, To(2)),
    C(RootTodo, 1, Null)], 0)
  const S36 := State([Root(RootDone, To(4)), C(Free, 0, To(4)), C(Free, 0, To(1)), C(Free, 0, To(2)),
    C(FreePending, 0, Null)], 0)

  lemma Extend(run: Run, s: State, op: Op, t: State) returns (next: Run)
    requires IsRun(run) && Interleaved(run) && Last(run) == s && Allowed(s, op) && Apply(s, op) == t
    requires op.OpCollect? || run.Start? || run.op.OpCollect?
    ensures IsRun(next) && Interleaved(next) && Last(next) == t && next.Then? && next.op == op
    ensures ReusesCleanly(next) <==> ReusesCleanly(run) && ReuseClean(s, op)
  {
    next := Then(run, op, t);
  }

  lemma Step1()
    ensures Allowed(EMPTY, OpNew(0, [Null])) && Apply(EMPTY, OpNew(0, [Null])) == S1
  {
  }

  lemma Step2()
    ensures Allowed(S1, OpCollect(ScanRoot(0))) && Apply(S1, OpCollect(ScanRoot(0))) == S2
  {
  }

  lemma Step3()
    ensures Allowed(S2, OpLock(0)) && Apply(S2, OpLock(0)) == S3
  {
    RootReached(S2, 0);
    hide Reached;
  }

  lemma Step4()
    ensures Allowed(S3, OpCollect(Swap)) && Apply(S3, OpCollect(Swap)) == S4
  {
  }

  lemma Step5()
    ensures Allowed(S4, OpNew(1, [Null])) && Apply(S4, OpNew(1, [Null])) == S5
  {
  }

  lemma Step6()
    ensures Allowed(S5, OpCollect(ScanRoot(0))) && Apply(S5, OpCollect(ScanRoot(0))) == S6
  {
  }

  lemma Step7()
    ensures Allowed(S6, OpPatch(0, 0, To(1))) && Apply(S6, OpPatch(0, 0, To(1))) == S7
  {
    RootReached(S6, 0);
    RootReached(S6, 1);
    assert [Null][0 := To(1)] == [To(1)];
    hide Reached;
  }

  lemma Step8()
    ensures Allowed(S7, OpCollect(ScanRoot(1))) && Apply(S7, OpCollect(ScanRoot(1))) == S8
  {
  }

  lemma Step9()
    ensures Allowed(S8, OpCollect(Swap)) && Apply(S8, OpCollect(Swap)) == S9
  {
  }

  lemma Step10()
    ensures Allowed(S9, OpNew(2, [To(1)])) && Apply(S9, OpNew(2, [To(1)])) == S10
  {
    RootReached(S9, 1);
    hide Reached;
  }

  lemma Step11()
    ensures Allowed(S10, OpCollect(Skip)) && Apply(S10, OpCollect(Skip)) == S11
  {
  }

  lemma Step12()
    ensures Allowed(S11, OpCollect(Skip)) && Apply(S11, OpCollect(Skip)) == S12
  {
  }

  lemma Step13()
    ensures Allowed(S12, OpNew(3, [To(2)])) && Apply(S12, OpNew(3, [To(2)])) == S13
  {
    RootReached(S12, 2);
    hide Reached;
  }

  lemma Step14()
    ensures Allowed(S13, OpCollect(Skip)) && Apply(S13, OpCollect(Skip)) == S14
  {
  }

  lemma Step15()
    ensures Allowed(S14, OpCollect(Skip)) && Apply(S14, OpCollect(Skip)) == S15
  {
  }

  lemma Step16()
    ensures Allowed(S15, OpNew(4, [To(3)])) && Apply(S15, OpNew(4, [To(3)])) == S16
  {
    RootReached(S15, 3);
    hide Reached;
  }

  lemma Step17()
    ensures Allowed(S16, OpCollect(Skip)) && Apply(S16, OpCollect(Skip)) == S17
  {
  }

  lemma Step18()
    ensures Allowed(S17, OpCollect(Skip)) && Apply(S17, OpCollect(Skip)) == S18
  {
  }

  lemma Step19()
    ensures Allowed(S18, OpPatch(1, 0, To(4))) && Apply(S18, OpPatch(1, 0, To(4))) == S19
  {
    RootReached(S18, 1);
    RootReached(S18, 4);
    assert [Null][0 := To(4)] == [To(4)];
    hide Reached;
  }

  lemma Step20()
    ensures Allowed(S19, OpCollect(Skip)) && Apply(S19, OpCollect(Skip)) == S20
  {
  }

  lemma Step21()
    ensures Allowed(S20, OpCollect(Skip)) && Apply(S20, OpCollect(Skip)) == S21
  {
  }

  lemma Step22()
    ensures Allowed(S21, OpPatch(0, 0, Null)) && Apply(S21, OpPatch(0, 0, Null)) == S22
  {
    RootReached(S21, 0);
    assert [To(1)][0 := Null] == [Null];
    hide Reached;
  }

  lemma Step23()
    ensures Allowed(S22, OpCollect(ScanRoot(1))) && Apply(S22, OpCollect(ScanRoot(1))) == S23
  {
  }

  lemma Step24()
    ensures Allowed(S23, OpCollect(ScanBoundary(4))) && Apply(S23, OpCollect(ScanBoundary(4))) == S24
  {
  }

  lemma Step25()
    ensures Allowed(S24, OpCollect(ScanBoundary(3))) && Apply(S24, OpCollect(ScanBoundary(3))) == S25
  {
  }

  lemma Step26()
    ensures Allowed(S25, OpCollect(ScanBoundary(2))) && Apply(S25, OpCollect(ScanBoundary(2))) == S26
  {
  }

  lemma Step27()
    ensures Allowed(S26, OpCollect(ScanBoundary(1))) && Apply(S26, OpCollect(ScanBoundary(1))) == S27
  {
  }

  lemma Step28()
    ensures Allowed(S27, OpCollect(ScanRoot(0))) && Apply(S27, OpCollect(ScanRoot(0))) == S28
  {
  }

  lemma Step29()
    ensures Allowed(S28, OpCollect(Swap)) && Apply(S28, OpCollect(Swap)) == S29
  {
  }

  lemma Step30()
    ensures Allowed(S29, OpCollect(ScanRoot(0))) && Apply(S29, OpCollect(ScanRoot(0))) == S30
  {
  }

  lemma Step31()
    ensures Allowed(S30, OpCollect(Sweep(4))) && Apply(S30, OpCollect(Sweep(4))) == S31
  {
  }

  lemma Step32()
    ensures Allowed(S31, OpNew(4, [Null])) && Apply(S31, OpNew(4, [Null])) == S32
  {
    assert Is(S31, 4, Free);
  }

  lemma Step33()
    ensures Allowed(S32, OpCollect(FreeOne(3))) && Apply(S32, OpCollect(FreeOne(3))) == S33
  {
  }

  lemma Step34()
    ensures Allowed(S33, OpPatch(0, 0, To(4))) && Apply(S33, OpPatch(0, 0, To(4))) == S34
  {
    RootReached(S33, 0);
    RootReached(S33, 4);
    assert [Null][0 := To(4)] == [To(4)];
    hide Reached;
  }

  lemma Step35()
    ensures Allowed(S34, OpCollect(FreeOne(2))) && Apply(S34, OpCollect(FreeOne(2))) == S35
  {
  }

  lemma Step36()
    ensures Allowed(S35, OpCollect(FreeOne(1))) && Apply(S35, OpCollect(FreeOne(1))) == S36
  {
  }

  lemma StartIsRun()
    ensures IsRun(Start) && Interleaved(Start) && ReusesCleanly(Start) && Last(Start) == EMPTY
  {
  }

  /** The handles are made. */
  lemma MakeHandles() returns (run: Run)
    ensures IsRun(run) && Interleaved(run) && ReusesCleanly(run) && Last(run) == S12 && run.Then?
    ensures run.op == OpCollect(Skip)
  {
    StartIsRun();
    hide Allowed, Apply, IsRun, Interleaved, ReusesCleanly;
    run := Start;
    Step1();
    run := Extend(run, EMPTY, OpNew(0, [Null]), S1);
    Step2();
    run := Extend(run, S1, OpCollect(ScanRoot(0)), S2);
    Step3();
    run := Extend(run, S2, OpLock(0), S3);
    Step4();
    run := Extend(run, S3, OpCollect(Swap), S4);
    Step5();
    run := Extend(run, S4, OpNew(1, [Null]), S5);
    Step6();
    run := Extend(run, S5, OpCollect(ScanRoot(0)), S6);
    Step7();
    run := Extend(run, S6, OpPatch(0, 0, To(1)), S7);
    Step8();
    run := Extend(run, S7, OpCollect(ScanRoot(1)), S8);
    Step9();
    run := Extend(run, S8, OpCollect(Swap), S9);
    Step10();
    run := Extend(run, S9, OpNew(2, [To(1)]), S10);
    Step11();
    run := Extend(run, S10, OpCollect(Skip), S11);
    Step12();
    run := Extend(run, S11, OpCollect(Skip), S12);
  }

  /** The circle is closed and given up. */
  lemma GiveUpCircle() returns (run: Run)
    ensures IsRun(run) && Interleaved(run) && ReusesCleanly(run) && Last(run) == S23 && run.Then?
    ensures run.op == OpCollect(ScanRoot(1))
  {
    hide Allowed, Apply, IsRun, Interleaved, ReusesCleanly;
    run := MakeHandles();
    Step13();
    run := Extend(run, S12, OpNew(3, [To(2)]), S13);
    Step14();
    run := Extend(run, S13, OpCollect(Skip), S14);
    Step15();
    run := Extend(run, S14, OpCollect(Skip), S15);
    Step16();
    run := Extend(run, S15, OpNew(4, [To(3)]), S16);
    Step17();
    run := Extend(run, S16, OpCollect(Skip), S17);
    Step18();
    run := Extend(run, S17, OpCollect(Skip), S18);
    Step19();
    run := Extend(run, S18, OpPatch(1, 0, To(4)), S19);
    Step20();
    run := Extend(run, S19, OpCollect(Skip), S20);
    Step21();
    run := Extend(run, S20, OpCollect(Skip), S21);
    Step22();
    run := Extend(run, S21, OpPatch(0, 0, Null), S22);
    Step23();
    run := Extend(run, S22, OpCollect(ScanRoot(1)), S23);
  }

  /** The sweep frees cell 4. */
  lemma SweepOne() returns (run: Run)
    ensures IsRun(run) && Interleaved(run) && ReusesCleanly(run) && Last(run) == S31 && run.Then?
    ensures run.op == OpCollect(Sweep(4))
  {
    hide Allowed, Apply, IsRun, Interleaved, ReusesCleanly;
    run := GiveUpCircle();
    Step24();
    run := Extend(run, S23, OpCollect(ScanBoundary(4)), S24);
    Step25();
    run := Extend(run, S24, OpCollect(ScanBoundary(3)), S25);
    Step26();
    run := Extend(run, S25, OpCollect(ScanBoundary(2)), S26);
    Step27();
    run := Extend(run, S26, OpCollect(ScanBoundary(1)), S27);
    Step28();
    run := Extend(run, S27, OpCollect(ScanRoot(0)), S28);
    Step29();
    run := Extend(run, S28, OpCollect(Swap), S29);
    Step30();
    run := Extend(run, S29, OpCollect(ScanRoot(0)), S30);
    Step31();
    run := Extend(run, S30, OpCollect(Sweep(4)), S31);
  }

  lemma ReuseIsDirty()
    ensures !ReuseClean(S31, OpNew(4, [Null]))
  {
  }

  /** Without the check on reuse a program that keeps to the rules loses a cell that a locked root links to. */
  lemma DirtyReuseLosesReached() returns (run: Run)
    ensures IsRun(run) && Interleaved(run) && !ReusesCleanly(run)
    ensures ReachedFromLocked(Last(run), 4) && Is(Last(run), 4, FreePending)
  {
    assert Lost(S36, 0, 4);
    hide Allowed, Apply, IsRun, Interleaved, ReusesCleanly, Lost;
    run := SweepOne();
    ReuseIsDirty();
    Step32();
    run := Extend(run, S31, OpNew(4, [Null]), S32);
    Step33();
    run := Extend(run, S32, OpCollect(FreeOne(3)), S33);
    Step34();
    run := Extend(run, S33, OpPatch(0, 0, To(4)), S34);
    Step35();
    run := Extend(run, S34, OpCollect(FreeOne(2)), S35);
    Step36();
    run := Extend(run, S35, OpCollect(FreeOne(1)), S36);
    LostIsReached(S36, 0, 4);
  }
}
