/**
 Who may stop a DHCP manager: Leave and DeleteEndpoint take it out of the map under the lock and stop it
 outside; the goroutine of Join and that of recovery install theirs whenever they get that far
 (pkg/plugin/network.go:448-456, pkg/plugin/network.go:649-651, pkg/plugin/network.go:687-695,
 pkg/plugin/network.go:732-744). Managers are numbered in the order they are made.

 Assumed: within one process an endpoint is joined at most once. It is recovered at most once, since
 recovery visits the cached endpoints a single time (pkg/plugin/network.go:700-708).
 */
module Managers {
  import opened Seqs

  datatype Origin = Joined | Recovered

  /** What a manager is made for. */
  datatype Made = Made(ep: string, origin: Origin)

  /**
   `made[m]` is what manager m was made for. It is `starting` until its goroutine installs it or gives up;
   `detached` are taken out but not yet stopped; `stops` logs the closes.
   */
  datatype State = State(made: seq<Made>, starting: set<nat>, gaveUp: set<nat>, installed: map<string, nat>,
                         detached: multiset<nat>, stops: seq<nat>)

  const EMPTY := State([], {}, {}, map[], multiset{}, [])

  datatype Event = Make(what: Made) | GiveUp(m: nat) | Install(m: nat) | Detach(ep: string) | Stop(m: nat)

  predicate Starting(s: State, m: nat) { m in s.starting && m < |s.made| }

  function Next(s: State, e: Event): (r: State) {
    match e
    case Make(what) =>
      if what in s.made then s else s.(made := s.made + [what], starting := s.starting + {|s.made|})
    case GiveUp(m) =>
      if Starting(s, m) then s.(starting := s.starting - {m}, gaveUp := s.gaveUp + {m}) else s
    case Install(m) =>
      if Starting(s, m) then s.(starting := s.starting - {m}, installed := s.installed[s.made[m].ep := m]) else s
    case Detach(ep) =>
      if ep in s.installed
      then s.(installed := s.installed - {ep}, detached := s.detached + multiset{s.installed[ep]})
      else s
    case Stop(m) =>
      if m in s.detached then s.(detached := s.detached - multiset{m}, stops := s.stops + [m]) else s
  }

  function Run(es: seq<Event>): (r: State) {
    if es == [] then EMPTY else Next(Run(es[..|es| - 1]), es[|es| - 1])
  }

  // ---------------------------------------------------------------- one place at most

  predicate Installed(s: State, m: nat) { exists ep :: ep in s.installed && s.installed[ep] == m }

  function Ended(s: State, m: nat): (r: nat) { s.detached[m] + Count(s.stops, m) }

  /** Manager `m` is in one place at most, installed only for its own endpoint, and nowhere before it is made. */
  ghost predicate OnePlace(s: State, m: nat) {
    && (m >= |s.made| ==> m !in s.starting && m !in s.gaveUp && !Installed(s, m) && Ended(s, m) == 0)
    && (m in s.starting ==> m !in s.gaveUp && !Installed(s, m) && Ended(s, m) == 0)
    && (m in s.gaveUp ==> !Installed(s, m) && Ended(s, m) == 0)
    && (Installed(s, m) ==> Ended(s, m) == 0)
    && Ended(s, m) <= 1
    && (forall ep :: ep in s.installed && s.installed[ep] == m ==> m < |s.made| && s.made[m].ep == ep)
  }

  /** Only a detachment ends a manager; stopping it does not end it again. */
  lemma EndedMoves(s: State, e: Event, m: nat)
    ensures Ended(Next(s, e), m) ==
            Ended(s, m) + if e.Detach? && e.ep in s.installed && s.installed[e.ep] == m then 1 else 0
  {
    if e.Stop? {
      CountConcat(s.stops, [e.m], m);
    }
  }

  lemma DetachMoves(s: State, ep: string, m: nat)
    requires OnePlace(s, m) && ep in s.installed
    ensures Installed(Next(s, Detach(ep)), m) <==> Installed(s, m) && s.installed[ep] != m
    ensures s.installed[ep] == m ==> Installed(s, m)
  {
    hide Ended;
    var r := Next(s, Detach(ep)).installed;
    if Installed(s, m) && s.installed[ep] != m {
      var a :| a in s.installed && s.installed[a] == m;
      assert a in r && r[a] == m;
    }
  }

  lemma NextOnePlace(s: State, e: Event, m: nat)
    requires OnePlace(s, m)
    ensures OnePlace(Next(s, e), m)
  {
    hide Ended;
    EndedMoves(s, e, m);
    if e.Detach? && e.ep in s.installed {
      DetachMoves(s, e.ep, m);
    }
  }

  /** In every interleaving no manager is stopped twice, and none that is installed has been stopped. */
  lemma {:induction false} StopAtMostOnce(es: seq<Event>, m: nat)
    ensures OnePlace(Run(es), m)
    ensures Count(Run(es).stops, m) <= 1
    ensures Installed(Run(es), m) ==> Count(Run(es).stops, m) == 0
  {
    if es != [] {
      StopAtMostOnce(es[..|es| - 1], m);
      NextOnePlace(Run(es[..|es| - 1]), es[|es| - 1], m);
    }
  }

  // ---------------------------------------------------------------- exactly when a manager is lost

  /** Made, and not starting, given up, installed, on its way to be stopped, or stopped: out of everyone's reach. */
  predicate Lost(s: State, m: nat) {
    m < |s.made| && m !in s.starting && m !in s.gaveUp && !Installed(s, m) && Ended(s, m) == 0
  }

  /** The event installs a starting manager for the endpoint that `m` is installed for. */
  predicate Overwrites(s: State, e: Event, m: nat) {
    && e.Install? && Starting(s, e.m)
    && s.made[e.m].ep in s.installed && s.installed[s.made[e.m].ep] == m
  }

  lemma InstallMoves(s: State, n: nat, m: nat)
    requires OnePlace(s, m) && Starting(s, n)
    ensures Installed(Next(s, Install(n)), m) <==> m == n || (Installed(s, m) && !Overwrites(s, Install(n), m))
  {
    hide Ended;
    var r, ep := Next(s, Install(n)).installed, s.made[n].ep;
    assert ep in r && r[ep] == n;
    if m != n && Installed(s, m) && !Overwrites(s, Install(n), m) {
      var a :| a in s.installed && s.installed[a] == m;
      assert a in r && r[a] == m;
    }
  }

  lemma SameInstalled(s: State, r: State, m: nat)
    requires r.installed == s.installed
    ensures Installed(r, m) <==> Installed(s, m)
  {
  }

  lemma {:induction false} StepLoses(s: State, e: Event, m: nat)
    requires OnePlace(s, m)
    ensures Lost(Next(s, e), m) <==> Lost(s, m) || Overwrites(s, e, m)
  {
    hide Installed, Ended;
    EndedMoves(s, e, m);
    if Next(s, e).installed == s.installed {
      SameInstalled(s, Next(s, e), m);
    }
    if e.Install? && Starting(s, e.m) {
      InstallMoves(s, e.m, m);
      if Overwrites(s, e, m) {
        OverwritesInstalled(s, e.m, m);
      }
    } else if e.Detach? && e.ep in s.installed {
      DetachMoves(s, e.ep, m);
    }
  }

  lemma OverwritesInstalled(s: State, n: nat, m: nat)
    requires Overwrites(s, Install(n), m)
    ensures Installed(s, m)
  {
  }

  ghost predicate OverwrittenAt(es: seq<Event>, m: nat, i: int) {
    0 <= i < |es| && Overwrites(Run(es[..i]), es[i], m)
  }

  lemma EmptyHasNone(m: nat)
    ensures !Lost(EMPTY, m)
  {
  }

  /** A manager is lost exactly when some step installed another over it; so once lost it stays lost. */
  lemma {:induction false} LostIffOverwritten(es: seq<Event>, m: nat)
    ensures Lost(Run(es), m) <==> exists i :: OverwrittenAt(es, m, i)
  {
    hide Next, Lost, Overwrites, OnePlace;
    if es == [] {
      EmptyHasNone(m);
    } else {
      var n := |es| - 1;
      LostIffOverwritten(es[..n], m);
      StopAtMostOnce(es[..n], m);
      StepLoses(Run(es[..n]), es[n], m);
      assert forall i :: 0 <= i < n ==> es[..n][..i] == es[..i] && es[..n][i] == es[i];
      assert forall i :: 0 <= i < n ==> (OverwrittenAt(es[..n], m, i) <==> OverwrittenAt(es, m, i));
      assert OverwrittenAt(es, m, n) <==> Overwrites(Run(es[..n]), es[n], m);
    }
  }

  /** Whatever happens next, a manager that has been overwritten is never stopped. */
  lemma {:induction false} OverwrittenNeverStopped(es: seq<Event>, m: nat, n: nat, more: seq<Event>)
    requires Overwrites(Run(es), Install(n), m)
    ensures Lost(Run(es + [Install(n)] + more), m) && Count(Run(es + [Install(n)] + more).stops, m) == 0
  {
    hide Run, Next, Overwrites;
    var all := es + [Install(n)] + more;
    assert all[..|es|] == es && all[|es|] == Install(n);
    assert OverwrittenAt(all, m, |es|);
    LostIffOverwritten(all, m);
  }

  /** What an installer could see before it installs: it loses a manager exactly when its endpoint has one. */
  lemma {:induction false} InstallLoses(es: seq<Event>, n: nat)
    requires Starting(Run(es), n)
    ensures var s := Run(es);
            (exists m :: !Lost(s, m) && Lost(Next(s, Install(n)), m)) <==> s.made[n].ep in s.installed
  {
    var s := Run(es);
    StopAtMostOnce(es, n);
    forall m: nat ensures !Lost(s, m) && Lost(Next(s, Install(n)), m) <==> !Lost(s, m) && Overwrites(s, Install(n), m) {
      StopAtMostOnce(es, m);
      StepLoses(s, Install(n), m);
    }
    if s.made[n].ep in s.installed {
      var m := s.installed[s.made[n].ep];
      assert Installed(s, m) && Overwrites(s, Install(n), m);
      assert !Lost(s, m) && Lost(Next(s, Install(n)), m);
    }
  }

  // ---------------------------------------------------------------- exactly when a manager is told to stop

  ghost predicate InstalledAt(es: seq<Event>, m: nat, i: int) {
    0 <= i < |es| && es[i] == Install(m) && Starting(Run(es[..i]), m)
  }

  /** Installed at `i`, and before step `n` neither overwritten nor its endpoint detached. */
  ghost predicate StandsTo(es: seq<Event>, m: nat, ep: string, i: int, n: int)
    requires n <= |es|
  {
    && InstalledAt(es, m, i) && i < n
    && forall k :: i < k < n ==> !OverwrittenAt(es, m, k) && es[k] != Detach(ep)
  }

  /** Installed at `i`, its endpoint detached at `j`, and not overwritten between the two. */
  ghost predicate TakenAt(es: seq<Event>, m: nat, ep: string, i: int, j: int) {
    && InstalledAt(es, m, i) && i < j < |es| && es[j] == Detach(ep)
    && forall k :: i < k < j ==> !OverwrittenAt(es, m, k)
  }

  /** If `m` is made at all, it is made for `ep`. */
  predicate MadeFor(s: State, m: nat, ep: string) { m < |s.made| ==> s.made[m].ep == ep }

  lemma StepInstalled(s: State, e: Event, m: nat, ep: string)
    requires OnePlace(s, m) && MadeFor(s, m, ep)
    ensures Installed(Next(s, e), m) <==>
              (e == Install(m) && Starting(s, m)) || (Installed(s, m) && !Overwrites(s, e, m) && e != Detach(ep))
  {
    hide Ended;
    if Next(s, e).installed == s.installed {
      SameInstalled(s, Next(s, e), m);
    }
    if e.Install? && Starting(s, e.m) {
      InstallMoves(s, e.m, m);
    } else if e.Detach? && e.ep in s.installed {
      DetachMoves(s, e.ep, m);
    }
  }

  lemma RunNext(es: seq<Event>, n: nat)
    requires n < |es|
    ensures Run(es[..n + 1]) == Next(Run(es[..n]), es[n])
  {
    assert es[..n + 1][..n] == es[..n];
  }

  lemma MadeForBefore(es: seq<Event>, m: nat, ep: string, n: nat)
    requires n <= |es| && MadeFor(Run(es), m, ep)
    ensures MadeFor(Run(es[..n]), m, ep)
  {
    hide Run;
    if m < |Run(es[..n]).made| {
      MadeStays(es, n, m);
    }
  }

  lemma AtFirst(es: seq<Event>, m: nat)
    ensures !Installed(Run(es[..0]), m) && Ended(Run(es[..0]), m) == 0
  {
  }

  lemma {:induction false} InstalledIff(es: seq<Event>, m: nat, ep: string, n: nat)
    requires n <= |es| && MadeFor(Run(es), m, ep)
    ensures Installed(Run(es[..n]), m) <==> exists i :: StandsTo(es, m, ep, i, n)
  {
    hide Run, Next, Overwrites, OnePlace, MadeFor, Starting, Installed;
    if n == 0 {
      AtFirst(es, m);
    } else {
      var p: nat := n - 1;
      InstalledIff(es, m, ep, p);
      MadeForBefore(es, m, ep, p);
      StopAtMostOnce(es[..p], m);
      StepInstalled(Run(es[..p]), es[p], m, ep);
      RunNext(es, p);
      forall i | StandsTo(es, m, ep, i, n)
        ensures i == p || (StandsTo(es, m, ep, i, p) && !OverwrittenAt(es, m, p) && es[p] != Detach(ep))
      {
      }
      if InstalledAt(es, m, p) {
        assert StandsTo(es, m, ep, p, n);
      } else if Installed(Run(es[..n]), m) {
        var i :| StandsTo(es, m, ep, i, p);
        assert StandsTo(es, m, ep, i, n);
      }
    }
  }

  /**
   A manager is told to stop exactly when it was installed and its endpoint was then detached before another was
   installed over it. So there are two ways to go on for ever: to be overwritten, and to be installed after the
   last Leave or DeleteEndpoint of the endpoint.
   */
  lemma {:induction false} ToldToStopIff(es: seq<Event>, m: nat, ep: string)
    requires MadeFor(Run(es), m, ep)
    ensures Ended(Run(es), m) == 1 <==> exists i, j :: TakenAt(es, m, ep, i, j)
    ensures Ended(Run(es), m) <= 1
  {
    hide Run, MadeFor, Ended, TakenAt;
    ToldBy(es, m, ep, |es|);
    assert es[..|es|] == es;
    assert forall i, j :: TakenAt(es, m, ep, i, j) ==> j < |es| by {
      TakenInRange(es, m, ep);
    }
  }

  lemma TakenInRange(es: seq<Event>, m: nat, ep: string)
    ensures forall i, j :: TakenAt(es, m, ep, i, j) ==> 0 <= j < |es|
  {
  }

  lemma {:induction false} ToldBy(es: seq<Event>, m: nat, ep: string, n: nat)
    requires n <= |es| && MadeFor(Run(es), m, ep)
    ensures Ended(Run(es[..n]), m) == 1 <==> exists i, j :: TakenAt(es, m, ep, i, j) && j < n
    ensures Ended(Run(es[..n]), m) <= 1
  {
    hide Run, Next, Overwrites, OnePlace, MadeFor, Starting, Installed, Ended, OverwrittenAt;
    if n == 0 {
      AtFirst(es, m);
      NoneTakenAtFirst(es, m, ep);
    } else {
      var p: nat := n - 1;
      ToldBy(es, m, ep, p);
      InstalledIff(es, m, ep, p);
      MadeForBefore(es, m, ep, p);
      StopsOne(es[..p], es[p], m, ep);
      RunNext(es, p);
      if es[p] == Detach(ep) {
        forall i | StandsTo(es, m, ep, i, p) ensures TakenAt(es, m, ep, i, p) {
        }
        forall i | TakenAt(es, m, ep, i, p)
          ensures StandsTo(es, m, ep, i, p) || exists j :: TakenAt(es, m, ep, i, j) && j < p
        {
          if !StandsTo(es, m, ep, i, p) {
            var j :| i < j < p && es[j] == Detach(ep);
            assert TakenAt(es, m, ep, i, j);
          }
        }
      }
    }
  }

  lemma NoneTakenAtFirst(es: seq<Event>, m: nat, ep: string)
    ensures forall i, j :: TakenAt(es, m, ep, i, j) ==> 0 < j
  {
  }

  /** Of the managers only the installed one of the detached endpoint is told to stop. */
  lemma StopsOne(es: seq<Event>, e: Event, m: nat, ep: string)
    requires MadeFor(Run(es), m, ep)
    ensures Ended(Next(Run(es), e), m) ==
            Ended(Run(es), m) + if e == Detach(ep) && Installed(Run(es), m) then 1 else 0
    ensures Installed(Run(es), m) ==> Ended(Run(es), m) == 0
    ensures Ended(Run(es), m) <= 1
  {
    hide Run, Next, Ended;
    StopAtMostOnce(es, m);
    EndedMoves(Run(es), e, m);
  }

  // ---------------------------------------------------------------- starting and closing

  /** Manager `m` is made at `i`. */
  ghost predicate MadeAt(es: seq<Event>, m: nat, i: int) {
    0 <= i < |es| && es[i].Make? && |Run(es[..i]).made| == m && forall k :: 0 <= k < i ==> es[k] != es[i]
  }

  /** Made at `i`, and neither installed nor given up before step `n`. */
  ghost predicate StartsTo(es: seq<Event>, m: nat, i: int, n: int)
    requires n <= |es|
  {
    && MadeAt(es, m, i) && i < n
    && forall k :: i < k < n ==> es[k] != Install(m) && es[k] != GiveUp(m)
  }

  lemma StepStarting(es: seq<Event>, e: Event, m: nat)
    ensures var s := Run(es);
            m in Next(s, e).starting <==>
              (m in s.starting && e != Install(m) && e != GiveUp(m)) || (e.Make? && e !in es && |s.made| == m)
  {
    hide Run;
    RunNumbered(es);
  }

  /** A manager is starting exactly from when it is made for something new until it is installed or given up. */
  lemma {:induction false} StartingIff(es: seq<Event>, m: nat, n: nat)
    requires n <= |es|
    ensures m in Run(es[..n]).starting <==> exists i :: StartsTo(es, m, i, n)
  {
    hide Run, Next;
    if n == 0 {
      NoneAtFirst(es, m);
    } else {
      var p: nat := n - 1;
      StartingIff(es, m, p);
      StepStarting(es[..p], es[p], m);
      RunNext(es, p);
      assert es[p] in es[..p] <==> exists k :: 0 <= k < p && es[k] == es[p];
      if MadeAt(es, m, p) {
        assert StartsTo(es, m, p, n);
      }
      forall i | i != p
        ensures StartsTo(es, m, i, n) <==> StartsTo(es, m, i, p) && es[p] != Install(m) && es[p] != GiveUp(m)
      {
      }
    }
  }

  lemma NoneAtFirst(es: seq<Event>, m: nat)
    ensures m !in Run(es[..0]).starting && Count(Run(es[..0]).stops, m) == 0
  {
  }

  /** Told to stop at `j`, and closed at `k`. */
  ghost predicate ClosedAt(es: seq<Event>, m: nat, ep: string, j: int, k: int) {
    0 <= j < k < |es| && es[k] == Stop(m) && exists i :: TakenAt(es, m, ep, i, j)
  }

  lemma StepCloses(s: State, e: Event, m: nat)
    requires Ended(s, m) <= 1
    ensures Count(Next(s, e).stops, m) == 1 <==> Count(s.stops, m) == 1 || (e == Stop(m) && Ended(s, m) == 1)
    ensures Count(s.stops, m) == 1 ==> Ended(s, m) == 1
  {
    if e.Stop? {
      CountConcat(s.stops, [e.m], m);
    }
  }

  /** A manager is closed exactly when whoever detached it goes on to stop it. */
  lemma {:induction false} ClosedIff(es: seq<Event>, m: nat, ep: string, n: nat)
    requires n <= |es| && MadeFor(Run(es), m, ep)
    ensures Count(Run(es[..n]).stops, m) == 1 <==> exists j, k :: ClosedAt(es, m, ep, j, k) && k < n
  {
    hide Run, Next, MadeFor, Ended, TakenAt;
    if n == 0 {
      NoneAtFirst(es, m);
      assert forall j, k :: ClosedAt(es, m, ep, j, k) ==> 0 <= k by {
        TakenInRange(es, m, ep);
      }
    } else {
      var p: nat := n - 1;
      ClosedIff(es, m, ep, p);
      ToldBy(es, m, ep, p);
      StepCloses(Run(es[..p]), es[p], m);
      RunNext(es, p);
      TakenInRange(es, m, ep);
      if es[p] == Stop(m) {
        forall i, j | TakenAt(es, m, ep, i, j) && j < p ensures ClosedAt(es, m, ep, j, p) {
        }
      }
    }
  }

  // ---------------------------------------------------------------- who can collide

  ghost predicate Numbered(s: State) {
    && (forall a, b :: 0 <= a < b < |s.made| ==> s.made[a] != s.made[b])
    && (forall m :: m in s.starting ==> m < |s.made|)
  }

  lemma {:induction false} RunNumbered(es: seq<Event>)
    ensures Numbered(Run(es))
    ensures forall x :: x in Run(es).made <==> Make(x) in es
  {
    if es != [] {
      var n := |es| - 1;
      RunNumbered(es[..n]);
      assert es == es[..n] + [es[n]];
    }
  }

  /**
   A manager can only be lost to the other kind for its own endpoint: Join's to recovery's, or the other way
   round. An endpoint that is not both joined and recovered in one process loses none.
   */
  lemma {:induction false} OnlyBothCollide(es: seq<Event>, m: nat)
    requires Lost(Run(es), m)
    ensures var ep := Run(es).made[m].ep; Make(Made(ep, Joined)) in es && Make(Made(ep, Recovered)) in es
  {
    hide Next, Run;
    LostIffOverwritten(es, m);
    var i :| OverwrittenAt(es, m, i);
    var s, n := Run(es[..i]), es[i].m;
    StopAtMostOnce(es[..i], m);
    StopAtMostOnce(es[..i], n);
    RunNumbered(es[..i]);
    assert Installed(s, m) && s.made[m].ep == s.made[n].ep && m != n;
    assert s.made[m] in s.made && s.made[n] in s.made;
    MadeStays(es, i, m);
    var a, b := s.made[m], s.made[n];
    assert Make(a) in es[..i] && Make(b) in es[..i] && a.ep == b.ep && a.origin != b.origin;
    assert {a.origin, b.origin} == {Joined, Recovered};
    assert a == Made(a.ep, a.origin) && b == Made(a.ep, b.origin);
  }

  lemma {:induction false} MadeStays(es: seq<Event>, i: nat, m: nat)
    requires i <= |es| && m < |Run(es[..i]).made|
    ensures m < |Run(es).made| && Run(es).made[m] == Run(es[..i]).made[m]
    decreases |es| - i
  {
    hide Run;
    if i < |es| {
      RunNext(es, i);
      MadeStays(es, i + 1, m);
    } else {
      assert es[..i] == es;
    }
  }

  /** And those two do: recovery finding the endpoint that Join has just cached loses the manager of Join. */
  lemma CollisionLoses(ep: string)
    ensures Lost(Run([Make(Made(ep, Joined)), Install(0), Make(Made(ep, Recovered)), Install(1)]), 0)
  {
    var es := [Make(Made(ep, Joined)), Install(0), Make(Made(ep, Recovered)), Install(1)];
    assert es[..3][..2] == es[..2] && es[..2][..1] == es[..1] && es[..1][..0] == [];
    assert Run(es[..1]) == State([Made(ep, Joined)], {0}, {}, map[], multiset{}, []);
    assert Run(es[..2]).installed == map[ep := 0] && Run(es[..2]).starting == {};
    assert Run(es[..3]).made == [Made(ep, Joined), Made(ep, Recovered)] && Run(es[..3]).starting == {1};
    LostIffOverwritten(es, 0);
    assert OverwrittenAt(es, 0, 3);
  }

  /**
   A goroutine of Join that finishes after Leave and DeleteEndpoint installs a manager that nobody stops, whatever
   happens later, unless the endpoint is detached once more.
   */
  lemma {:induction false} LateInstallStays(ep: string, more: seq<Event>)
    requires Detach(ep) !in more
    ensures var s := Run([Make(Made(ep, Joined)), Detach(ep), Detach(ep), Install(0)] + more);
            0 < |s.made| && s.made[0] == Made(ep, Joined) && 0 !in s.starting && 0 !in s.gaveUp && Ended(s, 0) == 0
  {
    var es := [Make(Made(ep, Joined)), Detach(ep), Detach(ep), Install(0)];
    LateRun(ep);
    AfterLate(es, more);
    MadeStays(es + more, 4, 0);
    assert (es + more)[..4] == es;
    ToldToStopIff(es + more, 0, ep);
    StopAtMostOnce(es + more, 0);
    forall i, j ensures !TakenAt(es + more, 0, ep, i, j) {
      NotTakenLate(es, more, ep, i, j);
    }
  }

  lemma NotTakenLate(es: seq<Event>, more: seq<Event>, ep: string, i: int, j: int)
    requires es == [Make(Made(ep, Joined)), Detach(ep), Detach(ep), Install(0)] && Detach(ep) !in more
    ensures !TakenAt(es + more, 0, ep, i, j)
  {
    hide Run;
    assert forall k :: 0 <= k < 4 ==> (es + more)[k] == es[k];
    assert forall k :: 4 <= k < |es + more| ==> (es + more)[k] == more[k - 4] && more[k - 4] in more;
  }

  lemma LateRun(ep: string)
    ensures Run([Make(Made(ep, Joined)), Detach(ep), Detach(ep), Install(0)]) ==
            State([Made(ep, Joined)], {}, {}, map[ep := 0], multiset{}, [])
  {
    var es := [Make(Made(ep, Joined)), Detach(ep), Detach(ep), Install(0)];
    assert es[..3][..2] == es[..2] && es[..2][..1] == es[..1] && es[..1][..0] == [];
    var made := State([Made(ep, Joined)], {0}, {}, map[], multiset{}, []);
    assert Run(es[..1]) == made;
    assert Run(es[..2]) == made;
    assert Run(es[..3]) == made;
  }

  /** A manager that has left the starting ones never comes back, and never gives up. */
  lemma {:induction false} AfterLate(es: seq<Event>, more: seq<Event>)
    requires 0 < |Run(es).made| && 0 !in Run(es).starting && 0 !in Run(es).gaveUp
    ensures 0 !in Run(es + more).starting && 0 !in Run(es + more).gaveUp && 0 < |Run(es + more).made|
  {
    hide Run;
    if more == [] {
      assert es + more == es;
    } else {
      var n := |es + more| - 1;
      AfterLate(es, more[..|more| - 1]);
      assert (es + more)[..n] == es + more[..|more| - 1] && (es + more)[..n + 1] == es + more;
      RunNext(es + more, n);
    }
  }
}
