/**
 The restart loops that keep one DHCP client per address family running, one Stat, Start, Release
 or select at a time (pkg/plugin/dhcp_manager.go:132-225). The two families share the stop channel and
 the namespace; every interleaving of their steps with Stop and the namespace's removal is a run.
 */
module Supervisor {
  import opened Seqs

  datatype Family = V4 | V6

  datatype Pc =
    | Unset
    | SetupStat | SetupStart
    | Processing | Releasing | StopCheck | OuterStat
    | Backoff | InnerStat | Launch
    | Done

  /** `cur` is the running client, `next` how many have been started. */
  datatype Worker = Worker(pc: Pc, cur: nat, next: nat)

  /** What happened, in order. */
  datatype Act =
    | Started(f: Family, client: nat)
    | StartFailed(f: Family)
    | Released(f: Family, client: nat)
    | Stopped
    | Vanished

  /** `hasPath` tells whether the manager has a namespace path to look at. */
  datatype World = World(hasPath: bool, v4: Worker, v6: Worker, log: seq<Act>)

  /** A step of one family's goroutine, with what it is told. */
  datatype Local =
    | Setup(hasLink: bool)
    | Stat(missing: bool)
    | Start(ok: bool)
    | PipeClosed
    | SeeStop
    | Release
    | CheckStop
    | Timer

  datatype Event = Of(f: Family, l: Local) | Stop | Vanish

  function Boot(hasPath: bool): (r: World) {
    World(hasPath, Worker(Unset, 0, 0), Worker(Unset, 0, 0), [])
  }

  function WorkerOf(w: World, f: Family): (r: Worker) {
    if f == V4 then w.v4 else w.v6
  }

  function Put(w: World, f: Family, k: Worker, acts: seq<Act>): (r: World) {
    (if f == V4 then w.(v4 := k) else w.(v6 := k)).(log := w.log + acts)
  }

  /** Once the namespace is gone for good, Stat says so. */
  ghost predicate Possible(w: World, e: Event) {
    e.Of? && e.l.Stat? && Vanished in w.log ==> e.l.missing
  }

  /** The step and what it logs; a step whose turn it is not changes nothing. */
  function LocalStep(k: Worker, f: Family, l: Local, stopped: bool, hasPath: bool): (r: (Worker, seq<Act>))
    ensures |r.1| <= 1
    ensures r.1 != [] ==> (r.1[0].Started? || r.1[0].StartFailed? || r.1[0].Released?) && r.1[0].f == f
  {
    match l
    case Setup(hasLink) => (if k.pc.Unset? then k.(pc := if hasLink then SetupStat else Done) else k, [])
    case Stat(missing) => (StatStep(k, hasPath && missing), [])
    case Start(ok) =>
      if !(k.pc.SetupStart? || k.pc.Launch?) then (k, [])
      else if ok then (Worker(Processing, k.next, k.next + 1), [Started(f, k.next)])
      else (k.(pc := if k.pc.SetupStart? then Done else Backoff), [StartFailed(f)])
    case PipeClosed => (if k.pc.Processing? then k.(pc := Releasing) else k, [])
    case SeeStop =>
      (if stopped && k.pc.Processing? then k.(pc := Releasing)
       else if stopped && k.pc.Backoff? then k.(pc := Done)
       else k, [])
    case Release => if k.pc.Releasing? then (k.(pc := StopCheck), [Released(f, k.cur)]) else (k, [])
    case CheckStop => (if k.pc.StopCheck? then k.(pc := if stopped then Done else OuterStat) else k, [])
    case Timer => (if k.pc.Backoff? then k.(pc := InnerStat) else k, [])
  }

  function StatStep(k: Worker, missing: bool): (r: Worker) {
    match k.pc
    case SetupStat => k.(pc := if missing then Done else SetupStart)
    case OuterStat => k.(pc := if missing then Done else Backoff)
    case InnerStat => k.(pc := if missing then Done else Launch)
    case _ => k
  }

  function Next(w: World, e: Event): (r: World) {
    match e
    case Of(f, l) =>
      var step := LocalStep(WorkerOf(w, f), f, l, Stopped in w.log, w.hasPath);
      Put(w, f, step.0, step.1)
    case Stop => if Stopped in w.log then w else w.(log := w.log + [Stopped])
    case Vanish => w.(log := w.log + [Vanished])
  }

  function Run(hasPath: bool, es: seq<Event>): (r: World) {
    if es == [] then Boot(hasPath) else Next(Run(hasPath, es[..|es| - 1]), es[|es| - 1])
  }

  ghost predicate PossibleRun(hasPath: bool, es: seq<Event>) {
    forall i {:trigger es[i]} :: 0 <= i < |es| ==> Possible(Run(hasPath, es[..i]), es[i])
  }

  // ---------------------------------------------------------------- starts and releases alternate

  function Mine(f: Family): (r: Act -> bool) {
    (a: Act) => (a.Started? || a.Released?) && a.f == f
  }

  /** Clients 0, 1, ... n-1, each started and then released. */
  function Alternating(f: Family, n: nat): (r: seq<Act>)
    ensures |r| == 2 * n
  {
    if n == 0 then [] else Alternating(f, n - 1) + [Started(f, n - 1), Released(f, n - 1)]
  }

  predicate Running(pc: Pc) { pc.Processing? || pc.Releasing? }

  predicate Disciplined(k: Worker, log: seq<Act>, f: Family) {
    && (Running(k.pc) ==> k.next == k.cur + 1)
    && Filter(log, Mine(f)) ==
         if Running(k.pc) then Alternating(f, k.cur) + [Started(f, k.cur)] else Alternating(f, k.next)
  }

  lemma FilterMore(log: seq<Act>, acts: seq<Act>, f: Family)
    requires |acts| <= 1
    ensures Filter(log + acts, Mine(f)) == Filter(log, Mine(f)) + if acts != [] && Mine(f)(acts[0]) then acts else []
  {
    if acts == [] {
      assert log + acts == log;
    } else {
      assert (log + acts)[..|log|] == log;
    }
  }

  lemma AlternatingMore(f: Family, n: nat)
    ensures Alternating(f, n + 1) == Alternating(f, n) + [Started(f, n)] + [Released(f, n)]
  {
    assert [Started(f, n)] + [Released(f, n)] == [Started(f, n), Released(f, n)];
  }

  lemma LocalDisciplined(k: Worker, log: seq<Act>, f: Family, l: Local, stopped: bool, hasPath: bool)
    requires Disciplined(k, log, f)
    ensures var step := LocalStep(k, f, l, stopped, hasPath); Disciplined(step.0, log + step.1, f)
  {
    hide Filter, Alternating;
    FilterMore(log, LocalStep(k, f, l, stopped, hasPath).1, f);
    AlternatingMore(f, k.cur);
  }

  lemma {:induction false} NextDisciplined(w: World, e: Event, f: Family)
    requires Disciplined(WorkerOf(w, f), w.log, f)
    ensures Disciplined(WorkerOf(Next(w, e), f), Next(w, e).log, f)
  {
    hide Filter, LocalStep, Alternating;
    match e
    case Of(g, l) =>
      if g == f {
        LocalDisciplined(WorkerOf(w, f), w.log, f, l, Stopped in w.log, w.hasPath);
      } else {
        FilterMore(w.log, LocalStep(WorkerOf(w, g), g, l, Stopped in w.log, w.hasPath).1, f);
      }
    case Stop => FilterMore(w.log, [Stopped], f);
    case Vanish => FilterMore(w.log, [Vanished], f);
  }

  /**
   Each family's starts and releases are exactly: start client 0, release client 0, start client 1, and so on.
   One client at most is unreleased at any time, and none once the loop has exited.
   */
  lemma {:induction false} EveryClientReleased(hasPath: bool, es: seq<Event>, f: Family)
    ensures Disciplined(WorkerOf(Run(hasPath, es), f), Run(hasPath, es).log, f)
    ensures var w := Run(hasPath, es);
            WorkerOf(w, f).pc.Done? ==> Filter(w.log, Mine(f)) == Alternating(f, WorkerOf(w, f).next)
  {
    if es != [] {
      EveryClientReleased(hasPath, es[..|es| - 1], f);
      NextDisciplined(Run(hasPath, es[..|es| - 1]), es[|es| - 1], f);
    }
  }

  // ---------------------------------------------------------------- nothing much starts after the end

  /** How many of `f`'s starts come after a `mark`; `tries` counts failed ones too. */
  function After(log: seq<Act>, f: Family, mark: Act, tries: bool): (r: nat) {
    if log == [] then 0
    else
      var init, last := log[..|log| - 1], log[|log| - 1];
      After(init, f, mark, tries) +
      if mark in init && (last.Started? || (tries && last.StartFailed?)) && last.f == f then 1 else 0
  }

  /** Past the point where the loop would notice the stop, nothing has been started since. */
  predicate StopSeen(k: Worker, log: seq<Act>, f: Family) {
    var n := After(log, f, Stopped, false);
    && (Stopped !in log ==> n == 0)
    && n <= 1
    && (!(Running(k.pc) || k.pc.StopCheck? || k.pc.Done?) ==> n == 0)
  }

  /** Past the point where the loop would notice the missing namespace, no start has been tried since. */
  predicate GoneSeen(k: Worker, log: seq<Act>, f: Family) {
    var n := After(log, f, Vanished, true);
    && (Vanished !in log ==> n == 0)
    && n <= 1
    && (k.pc.Unset? || k.pc.SetupStat? || k.pc.SetupStart? || k.pc.Launch? ==> n == 0)
  }

  lemma AfterMore(log: seq<Act>, acts: seq<Act>, f: Family, mark: Act, tries: bool)
    requires |acts| <= 1
    ensures After(log + acts, f, mark, tries) == After(log, f, mark, tries) +
              if acts != [] && mark in log && (acts[0].Started? || (tries && acts[0].StartFailed?)) && acts[0].f == f
              then 1 else 0
  {
    if acts == [] {
      assert log + acts == log;
    } else {
      assert (log + acts)[..|log|] == log;
    }
  }

  lemma LocalStopSeen(k: Worker, log: seq<Act>, f: Family, l: Local, hasPath: bool)
    requires StopSeen(k, log, f)
    ensures var step := LocalStep(k, f, l, Stopped in log, hasPath); StopSeen(step.0, log + step.1, f)
  {
    AfterMore(log, LocalStep(k, f, l, Stopped in log, hasPath).1, f, Stopped, false);
  }

  lemma LocalGoneSeen(k: Worker, log: seq<Act>, f: Family, l: Local, stopped: bool)
    requires GoneSeen(k, log, f) && (l.Stat? && Vanished in log ==> l.missing)
    ensures var step := LocalStep(k, f, l, stopped, true); GoneSeen(step.0, log + step.1, f)
  {
    AfterMore(log, LocalStep(k, f, l, stopped, true).1, f, Vanished, true);
  }

  lemma NextStopSeen(w: World, e: Event, f: Family)
    requires StopSeen(WorkerOf(w, f), w.log, f)
    ensures StopSeen(WorkerOf(Next(w, e), f), Next(w, e).log, f)
  {
    hide After, LocalStep;
    match e
    case Of(g, l) =>
      if g == f {
        LocalStopSeen(WorkerOf(w, f), w.log, f, l, w.hasPath);
      } else {
        AfterMore(w.log, LocalStep(WorkerOf(w, g), g, l, Stopped in w.log, w.hasPath).1, f, Stopped, false);
      }
    case Stop => AfterMore(w.log, [Stopped], f, Stopped, false);
    case Vanish => AfterMore(w.log, [Vanished], f, Stopped, false);
  }

  lemma NextGoneSeen(w: World, e: Event, f: Family)
    requires w.hasPath && GoneSeen(WorkerOf(w, f), w.log, f) && Possible(w, e)
    ensures GoneSeen(WorkerOf(Next(w, e), f), Next(w, e).log, f)
  {
    hide After, LocalStep;
    match e
    case Of(g, l) =>
      if g == f {
        LocalGoneSeen(WorkerOf(w, f), w.log, f, l, Stopped in w.log);
      } else {
        AfterMore(w.log, LocalStep(WorkerOf(w, g), g, l, Stopped in w.log, w.hasPath).1, f, Vanished, true);
      }
    case Stop => AfterMore(w.log, [Stopped], f, Vanished, true);
    case Vanish => AfterMore(w.log, [Vanished], f, Vanished, true);
  }

  lemma {:induction false} RunSeen(hasPath: bool, es: seq<Event>, f: Family)
    requires PossibleRun(hasPath, es)
    ensures var w := Run(hasPath, es);
            && w.hasPath == hasPath
            && StopSeen(WorkerOf(w, f), w.log, f)
            && (hasPath ==> GoneSeen(WorkerOf(w, f), w.log, f))
  {
    if es != [] {
      var init := es[..|es| - 1];
      assert forall i :: 0 <= i < |init| ==> init[i] == es[i] && init[..i] == es[..i];
      RunSeen(hasPath, init, f);
      assert Possible(Run(hasPath, es[..|es| - 1]), es[|es| - 1]);
      NextStopSeen(Run(hasPath, init), es[|es| - 1], f);
      if hasPath {
        NextGoneSeen(Run(hasPath, init), es[|es| - 1], f);
      }
    }
  }

  /**
   After Stop at most one client of the family is still started, and after the namespace has vanished for
   good at most one start is even tried, in every interleaving.
   */
  lemma {:induction false} AtMostOneAfterTheEnd(hasPath: bool, es: seq<Event>, f: Family)
    requires PossibleRun(hasPath, es)
    ensures After(Run(hasPath, es).log, f, Stopped, false) <= 1
    ensures hasPath ==> After(Run(hasPath, es).log, f, Vanished, true) <= 1
  {
    RunSeen(hasPath, es, f);
  }

  // ---------------------------------------------------------------- exactly when the loop ends

  /**
   The loop of `f` ends with this event: it has no link to start with, its very first start fails, Stat finds the
   namespace gone, or it sees that it is stopped.
   */
  predicate Ends(w: World, e: Event, f: Family) {
    && e.Of? && e.f == f
    && var k := WorkerOf(w, f);
       || (k.pc == Unset && e.l == Setup(false))
       || (k.pc == SetupStart && k.next == 0 && e.l == Start(false))
       || (w.hasPath && k.pc in {SetupStat, OuterStat, InnerStat} && e.l == Stat(true))
       || (Stopped in w.log && ((k.pc == StopCheck && e.l == CheckStop) || (k.pc == Backoff && e.l == SeeStop)))
  }

  predicate NoneYet(k: Worker) { k.pc in {Unset, SetupStat, SetupStart} ==> k.next == 0 }

  lemma EndsStep(w: World, e: Event, f: Family)
    requires NoneYet(WorkerOf(w, f))
    ensures NoneYet(WorkerOf(Next(w, e), f))
    ensures Next(w, e).hasPath == w.hasPath
    ensures WorkerOf(Next(w, e), f).pc == Done <==> WorkerOf(w, f).pc == Done || Ends(w, e, f)
    ensures WorkerOf(w, f).pc == Processing ==>
              WorkerOf(Next(w, e), f) ==
                if e == Of(f, PipeClosed) || (e == Of(f, SeeStop) && Stopped in w.log)
                then WorkerOf(w, f).(pc := Releasing) else WorkerOf(w, f)
  {
  }

  lemma RunNext(hasPath: bool, es: seq<Event>, n: nat)
    requires n < |es|
    ensures Run(hasPath, es[..n + 1]) == Next(Run(hasPath, es[..n]), es[n])
  {
    assert es[..n + 1][..n] == es[..n];
  }

  /** A restart loop has ended exactly when one of these events has ended it. */
  lemma {:induction false} EndedIff(hasPath: bool, es: seq<Event>, f: Family, n: nat)
    requires n <= |es|
    ensures NoneYet(WorkerOf(Run(hasPath, es[..n]), f)) && Run(hasPath, es[..n]).hasPath == hasPath
    ensures WorkerOf(Run(hasPath, es[..n]), f).pc == Done <==>
              exists i :: 0 <= i < n && Ends(Run(hasPath, es[..i]), es[i], f)
  {
    hide Next, Ends;
    if n > 0 {
      var p: nat := n - 1;
      EndedIff(hasPath, es, f, p);
      EndsStep(Run(hasPath, es[..p]), es[p], f);
      RunNext(hasPath, es, p);
    }
  }

  // ---------------------------------------------------------------- and that it restarts until then

  /** The steps of one family's goroutine among the events. */
  function Own(es: seq<Event>, f: Family): (r: seq<Local>) {
    if es == [] then []
    else
      var e := es[|es| - 1];
      Own(es[..|es| - 1], f) + if e.Of? && e.f == f then [e.l] else []
  }

  function Theirs(f: Family): (r: Act -> bool) {
    (a: Act) => (a.Started? || a.StartFailed? || a.Released?) && a.f == f
  }

  /** One goroutine on its own, not stopped. */
  function Drive(k: Worker, ls: seq<Local>, f: Family, hasPath: bool): (r: (Worker, seq<Act>)) {
    if ls == [] then (k, [])
    else
      var before := Drive(k, ls[..|ls| - 1], f, hasPath);
      var step := LocalStep(before.0, f, ls[|ls| - 1], false, hasPath);
      (step.0, before.1 + step.1)
  }

  lemma NoSteps(k: Worker, f: Family, hasPath: bool)
    ensures Own([], f) == [] && Drive(k, [], f, hasPath) == (k, [])
  {
  }

  lemma DriveMore(k: Worker, ls: seq<Local>, l: Local, f: Family, hasPath: bool)
    ensures var before := Drive(k, ls, f, hasPath);
            var step := LocalStep(before.0, f, l, false, hasPath);
            Drive(k, ls + [l], f, hasPath) == (step.0, before.1 + step.1)
  {
    hide LocalStep;
    assert (ls + [l])[..|ls|] == ls;
  }

  lemma {:induction false} DriveConcat(k: Worker, a: seq<Local>, b: seq<Local>, f: Family, hasPath: bool)
    ensures var first := Drive(k, a, f, hasPath);
            var second := Drive(first.0, b, f, hasPath);
            Drive(k, a + b, f, hasPath) == (second.0, first.1 + second.1)
  {
    hide LocalStep, Drive;
    var first := Drive(k, a, f, hasPath);
    if b == [] {
      NoSteps(first.0, f, hasPath);
      assert a + b == a && first.1 + [] == first.1;
    } else {
      var n := |b| - 1;
      DriveConcat(k, a, b[..n], f, hasPath);
      DriveMore(first.0, b[..n], b[n], f, hasPath);
      DriveMore(k, a + b[..n], b[n], f, hasPath);
      assert b[..n] + [b[n]] == b && a + b[..n] + [b[n]] == a + b;
      var second := Drive(first.0, b[..n], f, hasPath);
      var act := LocalStep(second.0, f, b[n], false, hasPath).1;
      assert first.1 + second.1 + act == first.1 + (second.1 + act);
    }
  }

  lemma TheirsMore(log: seq<Act>, acts: seq<Act>, f: Family)
    requires |acts| <= 1
    ensures Filter(log + acts, Theirs(f)) ==
            Filter(log, Theirs(f)) + if acts != [] && Theirs(f)(acts[0]) then acts else []
  {
    if acts == [] {
      assert log + acts == log;
    } else {
      assert (log + acts)[..|log|] == log;
    }
  }

  /** Whatever the other family and the world do, an unstopped goroutine goes its own way. */
  lemma {:induction false} OwnWay(hasPath: bool, es: seq<Event>, more: seq<Event>, f: Family)
    requires Stopped !in Run(hasPath, es + more).log
    ensures Stopped !in Run(hasPath, es).log
    ensures var w, r := Run(hasPath, es), Run(hasPath, es + more);
            var way := Drive(WorkerOf(w, f), Own(more, f), f, hasPath);
            && WorkerOf(r, f) == way.0
            && Filter(r.log, Theirs(f)) == Filter(w.log, Theirs(f)) + way.1
  {
    hide LocalStep, Filter, Theirs, Run, Next, Own, Drive;
    if more == [] {
      assert es + more == es;
      NoSteps(WorkerOf(Run(hasPath, es), f), f, hasPath);
    } else {
      var n := |more| - 1;
      var all, e := es + more, more[n];
      assert all[..|es| + n] == es + more[..n] && all[|es| + n] == e && all[..|es| + n + 1] == all;
      RunNext(hasPath, all, |es| + n);
      var p := Run(hasPath, es + more[..n]);
      LogGrows(p, e);
      OwnWay(hasPath, es, more[..n], f);
      EndedIff(hasPath, all, f, |es| + n);
      WayStep(p, e, f);
      OwnLast(more, f);
      DriveMore(WorkerOf(Run(hasPath, es), f), Own(more[..n], f), if e.Of? then e.l else Timer, f, hasPath);
      assert Own(more[..n], f) + [] == Own(more[..n], f);
      var before := Filter(Run(hasPath, es).log, Theirs(f));
      var way := Drive(WorkerOf(Run(hasPath, es), f), Own(more[..n], f), f, hasPath);
      assert forall acts :: before + way.1 + acts == before + (way.1 + acts);
    }
  }

  lemma LogGrows(w: World, e: Event)
    ensures forall a :: a in w.log ==> a in Next(w, e).log
  {
  }

  lemma OwnLast(es: seq<Event>, f: Family)
    requires es != []
    ensures var e := es[|es| - 1];
            Own(es, f) == Own(es[..|es| - 1], f) + if e.Of? && e.f == f then [e.l] else []
  {
  }

  lemma WayStep(w: World, e: Event, f: Family)
    requires Stopped !in w.log
    ensures var step := if e.Of? && e.f == f then LocalStep(WorkerOf(w, f), f, e.l, false, w.hasPath)
                        else (WorkerOf(w, f), []);
            && WorkerOf(Next(w, e), f) == step.0
            && Filter(Next(w, e).log, Theirs(f)) == Filter(w.log, Theirs(f)) + step.1
  {
    hide LocalStep, Filter;
    match e
    case Of(g, l) => TheirsMore(w.log, LocalStep(WorkerOf(w, g), g, l, false, w.hasPath).1, f);
    case Stop => TheirsMore(w.log, [Stopped], f);
    case Vanish => TheirsMore(w.log, [Vanished], f);
  }

  /** `n` rounds of waiting, looking at the namespace, and failing to start a client. */
  function Failures(n: nat, missing: bool): (r: seq<Local>) {
    if n == 0 then [] else Failures(n - 1, missing) + [Timer, Stat(missing), Start(false)]
  }

  function Failed(n: nat, f: Family): (r: seq<Act>) {
    if n == 0 then [] else Failed(n - 1, f) + [StartFailed(f)]
  }

  lemma DriveThree(k: Worker, f: Family, hasPath: bool, a: Local, b: Local, c: Local)
    ensures var x := LocalStep(k, f, a, false, hasPath);
            var y := LocalStep(x.0, f, b, false, hasPath);
            var z := LocalStep(y.0, f, c, false, hasPath);
            Drive(k, [a, b, c], f, hasPath) == (z.0, x.1 + y.1 + z.1)
  {
    hide LocalStep, Drive;
    NoSteps(k, f, hasPath);
    DriveMore(k, [], a, f, hasPath);
    DriveMore(k, [] + [a], b, f, hasPath);
    DriveMore(k, [] + [a] + [b], c, f, hasPath);
    assert [] + [a] + [b] + [c] == [a, b, c];
    var x := LocalStep(k, f, a, false, hasPath).1;
    assert [] + x == x;
  }

  /** A round that fails to start a client leads back to the back-off. */
  lemma FailedRound(k: Worker, f: Family, hasPath: bool, missing: bool)
    requires k.pc == Backoff && !(hasPath && missing)
    ensures Drive(k, [Timer, Stat(missing), Start(false)], f, hasPath) == (k, [StartFailed(f)])
  {
    hide Drive;
    DriveThree(k, f, hasPath, Timer, Stat(missing), Start(false));
    assert [] + [] + [StartFailed(f)] == [StartFailed(f)];
  }

  lemma GoodRound(k: Worker, f: Family, hasPath: bool, missing: bool)
    requires k.pc == Backoff && !(hasPath && missing)
    ensures Drive(k, [Timer, Stat(missing), Start(true)], f, hasPath) ==
            (Worker(Processing, k.next, k.next + 1), [Started(f, k.next)])
  {
    hide Drive;
    DriveThree(k, f, hasPath, Timer, Stat(missing), Start(true));
    assert [] + [] + [Started(f, k.next)] == [Started(f, k.next)];
  }

  lemma Releases(k: Worker, f: Family, hasPath: bool, missing: bool)
    requires k.pc == Releasing && !(hasPath && missing)
    ensures Drive(k, [Release, CheckStop, Stat(missing)], f, hasPath) == (k.(pc := Backoff), [Released(f, k.cur)])
  {
    hide Drive;
    DriveThree(k, f, hasPath, Release, CheckStop, Stat(missing));
    assert [Released(f, k.cur)] + [] + [] == [Released(f, k.cur)];
  }

  lemma {:induction false} DriveFailures(k: Worker, n: nat, f: Family, hasPath: bool, missing: bool)
    requires k.pc == Backoff && !(hasPath && missing)
    ensures Drive(k, Failures(n, missing), f, hasPath) == (k, Failed(n, f))
  {
    if n > 0 {
      DriveFailures(k, n - 1, f, hasPath, missing);
      DriveConcat(k, Failures(n - 1, missing), [Timer, Stat(missing), Start(false)], f, hasPath);
      FailedRound(k, f, hasPath, missing);
    }
  }

  /**
   A family that is not stopped and whose namespace is not found gone gets a new client: after the old one is
   released come the checks, any number of failed attempts, each after a back-off, and then the client with the
   next number - whatever the other family does meanwhile.
   */
  lemma {:induction false} Restarts(hasPath: bool, es: seq<Event>, more: seq<Event>, f: Family, n: nat, missing: bool)
    requires Stopped !in Run(hasPath, es + more).log && !(hasPath && missing)
    requires WorkerOf(Run(hasPath, es), f).pc == Releasing
    requires Own(more, f) ==
             [Release, CheckStop, Stat(missing)] + Failures(n, missing) + [Timer, Stat(missing), Start(true)]
    ensures var k, w, r := WorkerOf(Run(hasPath, es), f), Run(hasPath, es), Run(hasPath, es + more);
            && WorkerOf(r, f) == Worker(Processing, k.next, k.next + 1)
            && Filter(r.log, Theirs(f)) ==
               Filter(w.log, Theirs(f)) + ([Released(f, k.cur)] + Failed(n, f) + [Started(f, k.next)])
  {
    hide Run, Filter, Own, Drive, Failures, Failed;
    var k := WorkerOf(Run(hasPath, es), f);
    var waiting := k.(pc := Backoff);
    OwnWay(hasPath, es, more, f);
    Releases(k, f, hasPath, missing);
    DriveFailures(waiting, n, f, hasPath, missing);
    GoodRound(waiting, f, hasPath, missing);
    DriveConcat(k, [Release, CheckStop, Stat(missing)], Failures(n, missing), f, hasPath);
    DriveConcat(k, [Release, CheckStop, Stat(missing)] + Failures(n, missing), [Timer, Stat(missing), Start(true)], f,
                hasPath);
  }

  /** And gets its first client if there is a link and a namespace. */
  lemma {:induction false} FirstStarts(hasPath: bool, es: seq<Event>, more: seq<Event>, f: Family, missing: bool)
    requires Stopped !in Run(hasPath, es + more).log && !(hasPath && missing)
    requires WorkerOf(Run(hasPath, es), f).pc == Unset && Own(more, f) == [Setup(true), Stat(missing), Start(true)]
    ensures WorkerOf(Run(hasPath, es + more), f) == Worker(Processing, 0, 1)
    ensures Filter(Run(hasPath, es + more).log, Theirs(f)) ==
            Filter(Run(hasPath, es).log, Theirs(f)) + [Started(f, 0)]
  {
    hide Run, Filter, Own, Drive;
    OwnWay(hasPath, es, more, f);
    EndedIff(hasPath, es, f, |es|);
    assert es[..|es|] == es;
    DriveThree(WorkerOf(Run(hasPath, es), f), f, hasPath, Setup(true), Stat(missing), Start(true));
    assert [] + [] + [Started(f, 0)] == [Started(f, 0)];
  }

  // ---------------------------------------------------------------- the order of a goroutine's steps

  lemma {:induction false} ToldIff(hasPath: bool, es: seq<Event>)
    ensures Stopped in Run(hasPath, es).log <==> Stop in es
    ensures Vanished in Run(hasPath, es).log <==> Vanish in es
  {
    hide LocalStep;
    if es != [] {
      var n := |es| - 1;
      ToldIff(hasPath, es[..n]);
      assert es == es[..n] + [es[n]];
    }
  }

  /** Event `i` is a step of `f`'s goroutine whose turn it is. */
  ghost predicate Moves(hasPath: bool, es: seq<Event>, f: Family, i: int) {
    && 0 <= i < |es| && es[i].Of? && es[i].f == f
    && WorkerOf(Run(hasPath, es[..i + 1]), f) != WorkerOf(Run(hasPath, es[..i]), f)
  }

  /** Step `j` is the goroutine's last before event `i`. */
  ghost predicate Before(hasPath: bool, es: seq<Event>, f: Family, j: int, i: int) {
    j < i && Moves(hasPath, es, f, j) && forall k :: j < k < i ==> !Moves(hasPath, es, f, k)
  }

  /** What a goroutine that has just done `l` may do next. */
  predicate MayFollow(l: Local, next: Local) {
    match l
    case Setup(_) => next.Stat?
    case Stat(_) => next.Start? || next.Timer? || next.SeeStop?
    case Start(ok) => next.SeeStop? || if ok then next.PipeClosed? else next.Timer?
    case PipeClosed => next.Release?
    case SeeStop => next.Release?
    case Release => next.CheckStop?
    case CheckStop => next.Stat?
    case Timer => next.Stat?
  }

  /** Where a goroutine can be when it has just done `l`. */
  predicate Leads(l: Local, pc: Pc) {
    match l
    case Setup(_) => pc in {SetupStat, Done}
    case Stat(_) => pc in {SetupStart, Backoff, Launch, Done}
    case Start(ok) => if ok then pc == Processing else pc in {Backoff, Done}
    case PipeClosed => pc == Releasing
    case SeeStop => pc in {Releasing, Done}
    case Release => pc == StopCheck
    case CheckStop => pc in {OuterStat, Done}
    case Timer => pc == InnerStat
  }

  lemma StepOrder(w: World, f: Family, l: Local)
    requires WorkerOf(Next(w, Of(f, l)), f) != WorkerOf(w, f)
    ensures var pc, after := WorkerOf(w, f).pc, WorkerOf(Next(w, Of(f, l)), f).pc;
            && Leads(l, after)
            && (l.Setup? <==> pc == Unset) && pc != Done
            && (l.Stat? && after == Backoff <==> pc == OuterStat && after != Done)
            && (forall before :: Leads(before, pc) ==> MayFollow(before, l))
            && (l.Start? <==> pc in {SetupStart, Launch}) && (pc == Backoff ==> l.Timer? || l.SeeStop?)
            && Next(w, Of(f, l)).log == w.log +
                 match l
                 case Start(ok) => if ok then [Started(f, WorkerOf(w, f).next)] else [StartFailed(f)]
                 case Release => [Released(f, WorkerOf(w, f).cur)]
                 case _ => []
  {
    assert w.log + [] == w.log;
  }

  /** Between its steps a goroutine stays where it is. */
  lemma {:induction false} Stays(hasPath: bool, es: seq<Event>, f: Family, j: nat, i: nat)
    requires j <= i <= |es| && forall k :: j <= k < i ==> !Moves(hasPath, es, f, k)
    ensures WorkerOf(Run(hasPath, es[..i]), f) == WorkerOf(Run(hasPath, es[..j]), f)
  {
    hide Run, LocalStep;
    if j < i {
      Stays(hasPath, es, f, j, i - 1);
      RunNext(hasPath, es, i - 1);
      assert !Moves(hasPath, es, f, i - 1);
    }
  }

  lemma StepIs(hasPath: bool, es: seq<Event>, f: Family, i: int)
    requires Moves(hasPath, es, f, i)
    ensures var w := Run(hasPath, es[..i]);
            && es[i] == Of(f, es[i].l) && Run(hasPath, es[..i + 1]) == Next(w, es[i])
            && WorkerOf(Next(w, es[i]), f) != WorkerOf(w, f)
  {
    hide Run, Next;
    RunNext(hasPath, es, i);
  }

  lemma {:induction false} FirstStep(hasPath: bool, es: seq<Event>, f: Family, i: int)
    requires Moves(hasPath, es, f, i) && forall k :: 0 <= k < i ==> !Moves(hasPath, es, f, k)
    ensures es[i].l.Setup?
  {
    hide Run, Next, Leads, MayFollow;
    Stays(hasPath, es, f, 0, i);
    assert WorkerOf(Run(hasPath, es[..0]), f).pc == Unset by {
      Boots(hasPath, f);
      assert es[..0] == [];
    }
    StepIs(hasPath, es, f, i);
    StepOrder(Run(hasPath, es[..i]), f, es[i].l);
  }

  lemma Boots(hasPath: bool, f: Family)
    ensures WorkerOf(Run(hasPath, []), f).pc == Unset
  {
  }

  /** The goroutine stands between two of its steps where the first leads and the second starts. */
  lemma {:induction false} Turn(hasPath: bool, es: seq<Event>, f: Family, j: int, i: int)
    requires Moves(hasPath, es, f, i) && Before(hasPath, es, f, j, i)
    ensures Moves(hasPath, es, f, j) && 0 <= j < i < |es| && es[i].Of? && es[j].Of?
    ensures MayFollow(es[j].l, es[i].l)
    ensures var from, at := WorkerOf(Run(hasPath, es[..j]), f).pc, WorkerOf(Run(hasPath, es[..i]), f).pc;
            && Leads(es[j].l, at) && at != Done
            && (es[j].l.Stat? && at == Backoff <==> from == OuterStat)
            && (es[i].l.Start? <==> at in {SetupStart, Launch})
            && (at == Backoff ==> es[i].l.Timer? || es[i].l.SeeStop?)
  {
    hide Run, Next, Leads, MayFollow;
    StepIs(hasPath, es, f, i);
    StepIs(hasPath, es, f, j);
    Stays(hasPath, es, f, j + 1, i);
    StepOrder(Run(hasPath, es[..j]), f, es[j].l);
    StepOrder(Run(hasPath, es[..i]), f, es[i].l);
  }

  /**
   Each step of a goroutine follows one that the loop puts before it: no client starts without a look at the
   namespace, and between two clients come the release, the check for a stop, and a look at the namespace.
   */
  lemma {:induction false} InTurn(hasPath: bool, es: seq<Event>, f: Family, j: int, i: int)
    requires Moves(hasPath, es, f, i) && Before(hasPath, es, f, j, i)
    ensures MayFollow(es[j].l, es[i].l)
  {
    hide Run, Moves, MayFollow, Before;
    Turn(hasPath, es, f, j, i);
  }

  /** A look at the namespace before the back-off leads to it, and any other to a client. */
  lemma {:induction false} InTurnAfterStat(hasPath: bool, es: seq<Event>, f: Family, h: int, j: int, i: int)
    requires Moves(hasPath, es, f, i) && Before(hasPath, es, f, j, i) && Before(hasPath, es, f, h, j)
    requires es[j].l.Stat?
    ensures if es[h].l.CheckStop? then es[i].l.Timer? || es[i].l.SeeStop? else es[i].l.Start?
  {
    hide Run;
    Turn(hasPath, es, f, j, i);
    Turn(hasPath, es, f, h, j);
  }
}
