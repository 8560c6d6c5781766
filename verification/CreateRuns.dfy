/**
 CreateEndpoint's program order as events of the endpoint protocol: the steps one call takes, one after
 another, with the rest of the plugin running between any two of them (pkg/plugin/network.go:91-327).
 */
module CreateRuns {
  import opened Wrappers
  import opened MacGen
  import opened Identity
  import opened Protocol
  import CacheSpec
  import PendingSpec

  /** The world after `es`, first event first. */
  function Follow(md5: string -> Digest, w: World, es: seq<Event>): (r: World)
    requires ValidRun(es)
    decreases es
  {
    if es == [] then w else Follow(md5, Next(md5, w, es[0]), es[1..])
  }

  lemma {:induction false} FollowConcat(md5: string -> Digest, w: World, es: seq<Event>, more: seq<Event>)
    requires ValidRun(es) && ValidRun(more)
    ensures ValidRun(es + more) && Follow(md5, w, es + more) == Follow(md5, Follow(md5, w, es), more)
    decreases es
  {
    hide Next;
    if es == [] {
      assert es + more == more;
    } else {
      assert (es + more)[0] == es[0] && (es + more)[1..] == es[1..] + more;
      FollowConcat(md5, Next(md5, w, es[0]), es[1..], more);
    }
  }

  /** So what a call does from a reachable world is reachable. */
  lemma {:induction false} FollowIsRun(md5: string -> Digest, before: seq<Event>, es: seq<Event>)
    requires ValidRun(before) && ValidRun(es)
    ensures ValidRun(before + es) && Run(md5, before + es) == Follow(md5, Run(md5, before), es)
  {
    hide Next;
    if es == [] {
      assert before + es == before;
    } else {
      var n := |es| - 1;
      FollowIsRun(md5, before, es[..n]);
      FollowConcat(md5, Run(md5, before), es[..n], es[n..]);
      assert es[..n] + es[n..] == es && es[n..] == [es[n]];
      assert (before + es)[..|before + es| - 1] == before + es[..n];
    }
  }

  // ---------------------------------------------------------------- taking turns

  /** Events of everyone but the running CreateEndpoint. */
  ghost predicate Foreign(es: seq<Event>) {
    ValidRun(es) && forall i :: 0 <= i < |es| ==> !es[i].Creating?
  }

  ghost predicate AllForeign(gaps: seq<seq<Event>>) {
    forall i :: 0 <= i < |gaps| ==> Foreign(gaps[i])
  }

  lemma ForeignStep(md5: string -> Digest, w: World, e: Event, c: Create)
    requires ValidEvent(e) && !e.Creating?
    ensures Next(md5, w, e).create == w.create
    ensures Next(md5, w.(create := c), e) == Next(md5, w, e).(create := c)
  {
    hide PendingSpec.Step, CacheSpec.Step, CreateStep, JoinStep, NameHostStep;
    match e
    case Joining(ep, j) => JoinIgnoresCreate(md5, w, ep, j, c);
    case NameHost(ep, seed, found) => NameHostIgnoresCreate(w, ep, seed, found, c);
    case _ =>
  }

  lemma JoinIgnoresCreate(md5: string -> Digest, w: World, ep: string, e: JoinEvent, c: Create)
    ensures JoinStep(md5, w.(create := c), ep, e) == JoinStep(md5, w, ep, e).(create := c)
  {
    hide PostStep;
    PostIgnoresCreate(md5, w, ep, e, c);
  }

  lemma PostIgnoresCreate(md5: string -> Digest, w: World, ep: string, e: JoinEvent, c: Create)
    ensures PostStep(md5, w.(create := c), ep, e) == PostStep(md5, w, ep, e).(create := c)
  {
    hide CorrectStep, NextPost, Persisted;
    if ep in w.posts && e.PostCorrect? {
      CorrectIgnoresCreate(md5, w, ep, w.posts[ep], e.setOk, e.macFormat, c);
    }
  }

  lemma CorrectIgnoresCreate(md5: string -> Digest, w: World, ep: string, p: Post, setOk: bool, macFormat: string,
                            c: Create)
    ensures CorrectStep(md5, w.(create := c), ep, p, setOk, macFormat)
         == CorrectStep(md5, w, ep, p, setOk, macFormat).(create := c)
  {
    hide SeedMac;
  }

  lemma NameHostIgnoresCreate(w: World, ep: string, seed: string, found: Option<Inspected>, c: Create)
    ensures NameHostStep(w.(create := c), ep, seed, found) == NameHostStep(w, ep, seed, found).(create := c)
    ensures NameHostStep(w, ep, seed, found).create == w.create
  {
    hide HostNamed;
  }

  /** What others do neither looks at where the running call stands nor moves it. */
  lemma {:induction false} ForeignIgnoresCreate(md5: string -> Digest, w: World, es: seq<Event>, c: Create)
    requires Foreign(es)
    ensures Follow(md5, w, es).create == w.create
    ensures Follow(md5, w.(create := c), es) == Follow(md5, w, es).(create := c)
    decreases es
  {
    hide Next;
    if es != [] {
      ForeignStep(md5, w, es[0], c);
      ForeignIgnoresCreate(md5, Next(md5, w, es[0]), es[1..], c);
    }
  }

  /** The world after a registration, when others do `between` before its second half. */
  ghost function Registered(md5: string -> Digest, w: World, net: string, name: string, hostname: string, forward: bool,
                            now: int, between: seq<Event>, later: int): (r: World)
    requires Foreign(between)
  {
    var push := PendingSpec.Timed(PendingSpec.Push(net, name, hostname, forward), now);
    var upsert := PendingSpec.Timed(PendingSpec.Upsert(net, name, hostname, true), later);
    var v := Follow(md5, w.(pending := PendingSpec.Step(w.pending, push)), between);
    v.(pending := PendingSpec.Step(v.pending, upsert))
  }

  /** The call's own steps in order, each followed by whatever others do until its next one. */
  ghost function Interleave(own: seq<CreateEvent>, gaps: seq<seq<Event>>): (r: seq<Event>)
    requires |own| <= |gaps| && AllForeign(gaps)
    ensures ValidRun(r)
  {
    if own == [] then []
    else
      var n := |own| - 1;
      Interleave(own[..n], gaps) + [Creating(own[n])] + gaps[n]
  }

  /** The world when the call has made its steps `own`. */
  ghost function At(md5: string -> Digest, w: World, own: seq<CreateEvent>, gaps: seq<seq<Event>>): (r: World)
    requires |own| <= |gaps| && AllForeign(gaps)
  {
    Follow(md5, w, Interleave(own, gaps))
  }

  lemma OneTurn(md5: string -> Digest, w: World, own: seq<CreateEvent>, c: CreateEvent, gaps: seq<seq<Event>>)
    requires |own| < |gaps| && AllForeign(gaps)
    ensures var stepped, after := CreateStep(md5, At(md5, w, own, gaps), c), At(md5, w, own + [c], gaps);
            after == Follow(md5, stepped, gaps[|own|]) && after.create == stepped.create
  {
    hide CreateStep;
    var before := Interleave(own, gaps);
    assert (own + [c])[..|own|] == own;
    assert Interleave(own + [c], gaps) == before + [Creating(c)] + gaps[|own|];
    FollowConcat(md5, w, before, [Creating(c)]);
    FollowConcat(md5, w, before + [Creating(c)], gaps[|own|]);
    var stepped := CreateStep(md5, At(md5, w, own, gaps), c);
    assert Follow(md5, At(md5, w, own, gaps), [Creating(c)]) == stepped;
    ForeignIgnoresCreate(md5, stepped, gaps[|own|], stepped.create);
  }

  /** Which step each event of a call is. */
  lemma Dispatch(md5: string -> Digest, w: World, pick: string, now: int, listing: Option<seq<Container>>)
    ensures CreateStep(md5, w, LookupMac(pick)) == LookupStep(w, pick)
    ensures CreateStep(md5, w, PopOnce(now)) == PopStep(w, now)
    ensures CreateStep(md5, w, List(listing)) == ListStep(w, listing)
    ensures CreateStep(md5, w, Eliminate) == EliminateStep(w)
    ensures CreateStep(md5, w, Enrich) == EnrichStep(w)
    ensures CreateStep(md5, w, Record) == RecordStep(w)
  {
    hide LookupStep, PopStep, ListStep, EliminateStep, EnrichStep, RecordStep;
  }

  // ---------------------------------------------------------------- popping

  /** Where a call stands after an attempt on the queue that found this entry. */
  function Popped(req: Request, name: string, hostname: string): (r: Create) {
    if name == "" then Listing(req, hostname) else Enriching(req, name, hostname, ByQueue)
  }

  /** Where it stands after attempt `attempt` found none. */
  function Missed(req: Request, attempt: nat): (r: Create) {
    if attempt + 1 < POP_ATTEMPTS then Popping(req, attempt + 1) else Listing(req, "")
  }

  lemma PopStepIs(w: World, now: int)
    requires w.create.Popping?
    ensures var req, q := w.create.req, PendingSpec.QueueOf(w.pending.queues, w.create.req.net);
            PopStep(w, now) ==
            if q != [] then
              w.(pending := w.pending.(queues := PendingSpec.PopQueues(w.pending.queues, req.net)),
                 create := Popped(req, q[0].name, q[0].hostname))
            else w.(create := Missed(req, w.create.attempt))
  {
    hide PendingSpec.PopQueues;
  }

  function Pops(n: nat, now: int): (r: seq<CreateEvent>) { seq(n, i => PopOnce(now)) }

  ghost function Flat(gaps: seq<seq<Event>>): (r: seq<Event>)
    requires AllForeign(gaps)
    ensures Foreign(r)
  {
    if gaps == [] then [] else Flat(gaps[..|gaps| - 1]) + gaps[|gaps| - 1]
  }

  /** The network's queue at attempt `i`, if no attempt before it took anything. */
  ghost function QueueAt(md5: string -> Digest, w: World, net: string, gaps: seq<seq<Event>>, i: nat)
    : (r: seq<PendingSpec.Pending>)
    requires i <= |gaps| && AllForeign(gaps)
  {
    PendingSpec.QueueOf(Follow(md5, w, Flat(gaps[..i])).pending.queues, net)
  }

  /** Attempt `i` is the first to meet a queue that is not empty. */
  ghost predicate FirstFilled(md5: string -> Digest, w: World, net: string, gaps: seq<seq<Event>>, i: int)
    requires AllForeign(gaps)
  {
    && 0 <= i < POP_ATTEMPTS && i <= |gaps| && QueueAt(md5, w, net, gaps, i) != []
    && forall j :: 0 <= j < i ==> QueueAt(md5, w, net, gaps, j) == []
  }

  lemma FlatMore(md5: string -> Digest, w: World, gaps: seq<seq<Event>>, i: nat)
    requires i < |gaps| && AllForeign(gaps)
    ensures Follow(md5, w, Flat(gaps[..i + 1])) == Follow(md5, Follow(md5, w, Flat(gaps[..i])), gaps[i])
  {
    hide Next;
    assert gaps[..i + 1][..i] == gaps[..i];
    FollowConcat(md5, w, Flat(gaps[..i]), gaps[i]);
  }

  /** While the queue stays empty, the attempts only count up. */
  lemma {:induction false} FruitlessPops(md5: string -> Digest, w: World, req: Request, gaps: seq<seq<Event>>,
                                         now: int, n: nat)
    requires w.create == Popping(req, 0) && n <= POP_ATTEMPTS <= |gaps| && AllForeign(gaps)
    requires forall j :: 0 <= j < n ==> QueueAt(md5, w, req.net, gaps, j) == []
    ensures At(md5, w, Pops(n, now), gaps) ==
            Follow(md5, w, Flat(gaps[..n])).(create := if n < POP_ATTEMPTS then Popping(req, n) else Listing(req, ""))
  {
    hide Follow, Interleave, Flat, At, Next;
    if n == 0 {
      AtStart(md5, w, gaps);
    } else {
      FruitlessPops(md5, w, req, gaps, now, n - 1);
      assert Pops(n, now) == Pops(n - 1, now) + [PopOnce(now)];
      OneTurn(md5, w, Pops(n - 1, now), PopOnce(now), gaps);
      FlatMore(md5, w, gaps, n - 1);
      var still := Follow(md5, w, Flat(gaps[..n - 1]));
      var next := if n < POP_ATTEMPTS then Popping(req, n) else Listing(req, "");
      assert QueueAt(md5, w, req.net, gaps, n - 1) == [];
      assert CreateStep(md5, still.(create := Popping(req, n - 1)), PopOnce(now)) == still.(create := next);
      ForeignIgnoresCreate(md5, still, gaps[n - 1], next);
    }
  }

  lemma AtStart(md5: string -> Digest, w: World, gaps: seq<seq<Event>>)
    requires AllForeign(gaps)
    ensures At(md5, w, [], gaps) == w && Follow(md5, w, Flat(gaps[..0])) == w
  {
  }

  /**
   The retry loop takes the first entry of the queue at the first of fifteen attempts that finds it not empty,
   and nothing if there is no such attempt, whatever others do between the attempts.
   */
  lemma {:induction false} PopLoopFinds(md5: string -> Digest, w: World, req: Request, gaps: seq<seq<Event>>, now: int)
    requires w.create == Popping(req, 0) && |gaps| >= POP_ATTEMPTS && AllForeign(gaps)
    ensures (forall i :: !FirstFilled(md5, w, req.net, gaps, i)) ==>
              At(md5, w, Pops(POP_ATTEMPTS, now), gaps).create == Listing(req, "")
    ensures forall i :: FirstFilled(md5, w, req.net, gaps, i) ==>
              var p := QueueAt(md5, w, req.net, gaps, i)[0];
              At(md5, w, Pops(i + 1, now), gaps).create == Popped(req, p.name, p.hostname)
  {
    hide Follow, Interleave, Flat, At, Next;
    if forall i :: !FirstFilled(md5, w, req.net, gaps, i) {
      NoneFilled(md5, w, req.net, gaps, POP_ATTEMPTS);
      FruitlessPops(md5, w, req, gaps, now, POP_ATTEMPTS);
    }
    forall i | FirstFilled(md5, w, req.net, gaps, i)
      ensures var p := QueueAt(md5, w, req.net, gaps, i)[0];
              At(md5, w, Pops(i + 1, now), gaps).create == Popped(req, p.name, p.hostname)
    {
      FruitlessPops(md5, w, req, gaps, now, i);
      assert Pops(i + 1, now) == Pops(i, now) + [PopOnce(now)];
      OneTurn(md5, w, Pops(i, now), PopOnce(now), gaps);
    }
  }

  lemma {:induction false} NoneFilled(md5: string -> Digest, w: World, net: string, gaps: seq<seq<Event>>, n: nat)
    requires n <= POP_ATTEMPTS <= |gaps| && AllForeign(gaps)
    requires forall i :: !FirstFilled(md5, w, net, gaps, i)
    ensures forall j :: 0 <= j < n ==> QueueAt(md5, w, net, gaps, j) == []
  {
    hide QueueAt;
    if n > 0 {
      NoneFilled(md5, w, net, gaps, n - 1);
      assert !FirstFilled(md5, w, net, gaps, n - 1);
    }
  }
}
