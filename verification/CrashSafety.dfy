/**
 Saving the cache one system call at a time, with a failure or a crash possible at every point
 (pkg/plugin/cache.go:64-105). Rename is atomic; the mutex keeps other operations out of a save.
 */
module CrashSafety {
  import opened CacheSpec
  import opened CacheRuns
  import opened NetworkCache

  /** Where a save stands; `snap` is what it is writing. */
  datatype Pc =
    | Idle
    | Making(snap: Networks)
    | Opening(snap: Networks)
    | Filling(snap: Networks)
    | Renaming(snap: Networks)
    | Cleaning(snap: Networks)
    | Returning(snap: Networks)

  /** `lastOk` is what the last save that reported success wrote, or what was found at start-up. */
  datatype Sys = Sys(mem: Networks, fs: Fs, pc: Pc, lastOk: File)

  /** One atomic step of the process, or its death and restart. */
  datatype Event =
    | Do(t: Timed)
    | Mkdir(ok: bool)
    | Open(ok: bool)
    | Fill(ok: bool)
    | Rename(ok: bool)
    | Clean(ok: bool)
    | Return
    | Crash

  function Boot(fs: Fs): (r: Sys) {
    Sys(Loaded(fs.path), fs, Idle, fs.path)
  }

  ghost predicate ValidEvent(e: Event) {
    e.Do? ==> ValidOp(e.t.op)
  }

  /** An event whose turn it is not changes nothing. */
  function Next(s: Sys, e: Event): (r: Sys)
    requires ValidEvent(e)
  {
    match e
    case Do(t) =>
      if !s.pc.Idle? then s
      else
        var f := Step(s.mem, t);
        s.(mem := f.nets, pc := if f.saves then Making(Snapshot(f.nets)) else Idle)
    case Mkdir(ok) => if !s.pc.Making? then s else s.(pc := if ok then Opening(s.pc.snap) else Idle)
    case Open(ok) =>
      if !s.pc.Opening? then s
      else if ok then s.(fs := s.fs.(tmp := Torn), pc := Filling(s.pc.snap))
      else s.(pc := Idle)
    case Fill(ok) =>
      if !s.pc.Filling? then s
      else if ok then s.(fs := s.fs.(tmp := Whole(s.pc.snap)), pc := Renaming(s.pc.snap))
      else s.(pc := Idle)
    case Rename(ok) =>
      if !s.pc.Renaming? then s
      else if ok then s.(fs := Fs(s.fs.tmp, Absent), pc := Returning(s.pc.snap))
      else s.(pc := Cleaning(s.pc.snap))
    case Clean(ok) =>
      if !s.pc.Cleaning? then s
      else s.(fs := if ok then s.fs.(tmp := Absent) else s.fs, pc := Idle)
    case Return => if !s.pc.Returning? then s else s.(pc := Idle, lastOk := Whole(s.pc.snap))
    case Crash => Boot(s.fs)
  }

  function Run(s: Sys, es: seq<Event>): (r: Sys)
    requires forall i :: 0 <= i < |es| ==> ValidEvent(es[i])
  {
    if es == [] then s else Next(Run(s, es[..|es| - 1]), es[|es| - 1])
  }

  ghost predicate Consistent(s: Sys) {
    && !s.lastOk.Torn?
    && (s.fs.path == s.lastOk || (s.pc.Returning? && s.fs.path == Whole(s.pc.snap)))
    && (!s.pc.Idle? ==> s.pc.snap == Snapshot(s.mem))
    && (s.pc.Renaming? ==> s.fs.tmp == Whole(s.pc.snap))
    && (s.pc.Returning? ==> s.fs.path == Whole(s.pc.snap))
  }

  lemma NextConsistent(s: Sys, e: Event)
    requires Consistent(s) && ValidEvent(e)
    ensures Consistent(Next(s, e))
    ensures Next(s, e).fs.path == s.fs.path || Next(s, e).fs.path.Whole?
  {
    hide Step, Snapshot;
  }

  lemma {:induction false} RunConsistent(fs: Fs, es: seq<Event>)
    requires !fs.path.Torn? && forall i :: 0 <= i < |es| ==> ValidEvent(es[i])
    ensures Consistent(Run(Boot(fs), es))
    ensures var s := Run(Boot(fs), es); s.fs.path == fs.path || s.fs.path.Whole?
  {
    hide Next;
    if es != [] {
      RunConsistent(fs, es[..|es| - 1]);
      NextConsistent(Run(Boot(fs), es[..|es| - 1]), es[|es| - 1]);
    }
  }

  lemma CrashRestarts(s: Sys)
    ensures Next(s, Crash) == Boot(s.fs) && Next(s, Crash).fs == s.fs
  {
  }

  lemma CrashAfter(fs: Fs, es: seq<Event>)
    requires forall i :: 0 <= i < |es| ==> ValidEvent(es[i])
    ensures Run(Boot(fs), es + [Crash]) == Boot(Run(Boot(fs), es).fs)
    ensures Run(Boot(fs), es + [Crash]).fs == Run(Boot(fs), es).fs
  {
    hide Next;
    assert (es + [Crash])[..|es|] == es;
    CrashRestarts(Run(Boot(fs), es));
  }

  /**
   Crash safety: whatever operations, failures and crashes have happened, dying now leaves at the
   cache path a whole snapshot - the last committed one or the one being committed - and a restart
   loads exactly that.
   */
  lemma {:induction false} CrashLeavesWholeSnapshot(fs: Fs, es: seq<Event>)
    requires !fs.path.Torn? && forall i :: 0 <= i < |es| ==> ValidEvent(es[i])
    ensures var s := Run(Boot(fs), es);
            && (s.fs.path == fs.path || s.fs.path.Whole?)
            && Run(Boot(fs), es + [Crash]).fs == s.fs
            && (s.fs.path == s.lastOk || (!s.pc.Idle? && s.fs.path == Whole(s.pc.snap)))
            && (Run(Boot(fs), es + [Crash]).mem == Loaded(s.lastOk)
                || (!s.pc.Idle? && Run(Boot(fs), es + [Crash]).mem == Snapshot(s.mem)))
  {
    hide Run, Step, Snapshot;
    RunConsistent(fs, es);
    CrashAfter(fs, es);
  }

  /** A save that reports success leaves the file equal to the whole of memory, whatever failed before it. */
  lemma SuccessfulSaveCatchesUp(fs: Fs, es: seq<Event>)
    requires !fs.path.Torn? && forall i :: 0 <= i < |es| ==> ValidEvent(es[i])
    requires Run(Boot(fs), es).pc.Returning?
    ensures var s := Run(Boot(fs), es + [Return]);
            && s.pc.Idle? && s.lastOk == s.fs.path == Whole(Snapshot(s.mem))
            && Alike(Loaded(s.fs.path), s.mem)
  {
    RunConsistent(fs, es);
    assert (es + [Return])[..|es|] == es;
    SnapshotAlike(Run(Boot(fs), es).mem);
  }

  predicate Succeeds(e: Event) {
    match e
    case Mkdir(ok) => ok
    case Open(ok) => ok
    case Fill(ok) => ok
    case Rename(ok) => ok
    case _ => true
  }

  lemma ForgetSnapshot(nets: Networks)
    ensures Forget(Snapshot(nets)) == Forget(nets)
  {
  }

  ghost predicate Agrees(s: Sys) {
    !s.pc.Cleaning? && (s.pc.Idle? ==> Forget(Loaded(s.fs.path)) == Forget(s.mem))
  }

  lemma {:induction false} DoAgrees(s: Sys, t: Timed)
    requires s.pc.Idle? && Agrees(s) && ValidOp(t.op)
    ensures Agrees(Next(s, Do(t)))
  {
    if !Step(s.mem, t).saves {
      UnsavedStepForgets(s.mem, t);
      SameForgotten(Step(s.mem, t).nets, s.mem);
    }
  }

  lemma {:induction false} NextAgrees(s: Sys, e: Event)
    requires Consistent(s) && Agrees(s) && ValidEvent(e) && Succeeds(e)
    ensures Agrees(Next(s, e))
  {
    if e.Do? && s.pc.Idle? {
      DoAgrees(s, e.t);
    } else if e.Return? && s.pc.Returning? {
      ForgetSnapshot(s.mem);
    }
  }

  /** When every save succeeds, the file agrees with memory after each completed operation, container maps aside. */
  lemma {:induction false} FileAgreesWithMemory(fs: Fs, es: seq<Event>)
    requires !fs.path.Torn?
    requires forall i :: 0 <= i < |es| ==> ValidEvent(es[i]) && Succeeds(es[i])
    ensures Agrees(Run(Boot(fs), es))
  {
    if es != [] {
      FileAgreesWithMemory(fs, es[..|es| - 1]);
      RunConsistent(fs, es[..|es| - 1]);
      NextAgrees(Run(Boot(fs), es[..|es| - 1]), es[|es| - 1]);
    }
  }

  lemma SnapshotFiled(nets: Networks)
    requires Filed(nets)
    ensures Filed(Snapshot(nets))
  {
  }

  lemma NextFiled(s: Sys, e: Event)
    requires Consistent(s) && Filed(s.mem) && Filed(Loaded(s.fs.path))
    requires ValidEvent(e) && (e.Do? ==> FiledOp(e.t.op))
    ensures Filed(Next(s, e).mem) && Filed(Loaded(Next(s, e).fs.path))
  {
    hide Step, Snapshot, Filed;
    if e.Do? && s.pc.Idle? {
      StepFiled(s.mem, e.t);
    }
    SnapshotFiled(s.mem);
  }

  /** In memory and on disk, across crashes and failures, every entry stays filed under its own ID. */
  lemma {:induction false} RunFiled(fs: Fs, es: seq<Event>)
    requires !fs.path.Torn? && Filed(Loaded(fs.path))
    requires forall i :: 0 <= i < |es| ==> ValidEvent(es[i]) && (es[i].Do? ==> FiledOp(es[i].t.op))
    ensures var s := Run(Boot(fs), es); Filed(s.mem) && Filed(Loaded(s.fs.path))
  {
    hide Next, Filed, Consistent, Loaded;
    if es != [] {
      var init := es[..|es| - 1];
      RunFiled(fs, init);
      RunConsistent(fs, init);
      NextFiled(Run(Boot(fs), init), es[|es| - 1]);
    }
  }

  /** The operations that got the lock: those whose turn came while no save was going on. */
  function Performed(s: Sys, es: seq<Event>): (r: seq<Timed>)
    requires forall i :: 0 <= i < |es| ==> ValidEvent(es[i])
    ensures CacheRuns.ValidRun(r)
  {
    if es == [] then []
    else
      var n := |es| - 1;
      var before := Performed(s, es[..n]);
      assert ValidEvent(es[n]);
      if es[n].Do? && Run(s, es[..n]).pc.Idle? then before + [es[n].t] else before
  }

  lemma NextMem(s: Sys, e: Event)
    requires ValidEvent(e) && !e.Crash?
    ensures Next(s, e).mem == if e.Do? && s.pc.Idle? then Step(s.mem, e.t).nets else s.mem
  {
    hide Step, Snapshot;
  }

  lemma RunMore(start: Networks, ts: seq<Timed>, t: Timed)
    requires CacheRuns.ValidRun(ts) && ValidOp(t.op)
    ensures CacheRuns.ValidRun(ts + [t])
    ensures CacheRuns.Run(start, ts + [t]).nets == Step(CacheRuns.Run(start, ts).nets, t).nets
  {
    hide Step, Snapshot;
    assert (ts + [t])[..|ts|] == ts;
  }

  lemma Untouched(start: Networks, s: Sys)
    ensures CacheRuns.Run(start, []).nets == start && Run(s, []) == s && Performed(s, []) == []
  {
  }

  /** While the process lives, memory is what its operations make of it, whichever step of whichever save fails. */
  lemma {:induction false} MemoryIsRun(s: Sys, es: seq<Event>)
    requires forall i :: 0 <= i < |es| ==> ValidEvent(es[i]) && !es[i].Crash?
    ensures Run(s, es).mem == CacheRuns.Run(s.mem, Performed(s, es)).nets
  {
    hide Next, Step, Snapshot, CacheRuns.Run;
    if es == [] {
      Untouched(s.mem, s);
    } else {
      var n := |es| - 1;
      MemoryIsRun(s, es[..n]);
      NextMem(Run(s, es[..n]), es[n]);
      if es[n].Do? {
        RunMore(s.mem, Performed(s, es[..n]), es[n].t);
      }
    }
  }

  /** The system calls a save makes when `fault` is what goes wrong. */
  function Script(fault: Fault): (r: seq<Event>) {
    match fault
    case NoFault => [Mkdir(true), Open(true), Fill(true), Rename(true), Return]
    case MkdirFails => [Mkdir(false)]
    case OpenFails => [Mkdir(true), Open(false)]
    case FillFails => [Mkdir(true), Open(true), Fill(false)]
    case RenameFails(removeFails) => [Mkdir(true), Open(true), Fill(true), Rename(false), Clean(!removeFails)]
  }

  /** The steps of an undisturbed save add up to the save the cache object performs. */
  lemma SaveIsItsSteps(s: Sys, fault: Fault)
    requires s.pc == Making(Snapshot(s.mem))
    ensures var after := Run(s, Script(fault));
            after.pc.Idle? && after.mem == s.mem && after.fs == Saved(s.fs, s.mem, fault)
  {
    RunAll(s, Script(fault));
  }

  /** A run of at most five events, unrolled from the front. */
  lemma RunAll(s: Sys, es: seq<Event>)
    requires |es| <= 5 && forall i :: 0 <= i < |es| ==> ValidEvent(es[i])
    ensures Run(s, es) ==
      var s1 := if |es| > 0 then Next(s, es[0]) else s;
      var s2 := if |es| > 1 then Next(s1, es[1]) else s1;
      var s3 := if |es| > 2 then Next(s2, es[2]) else s2;
      var s4 := if |es| > 3 then Next(s3, es[3]) else s3;
      if |es| > 4 then Next(s4, es[4]) else s4
  {
    if es != [] {
      RunAll(s, es[..|es| - 1]);
    }
  }
}
