/**
 What every run of the pending-container critical sections keeps: the shape of each queue,
 its agreement with the metadata map, and a full account of every push.
 */
module PendingRuns {
  import opened Seqs
  import opened PendingSpec

  /** What a critical section does to the queue of one network. */
  function NextQueue(q: seq<Pending>, net: string, t: Timed): (r: seq<Pending>) {
    match t.op
    case Push(n, name, hostname, forward) =>
      if n == net then PushQueue(q, Pending(name, hostname, t.now, forward)) else q
    case Pop(n) => if n == net && q != [] then q[1..] else q
    case Upsert(_, _, _, _) => q
    case Prune(maxAge) => Filter(q, FreshAt(t.now - maxAge))
  }

  lemma StepQueue(s: State, t: Timed, net: string)
    ensures QueueOf(Step(s, t).queues, net) == NextQueue(QueueOf(s.queues, net), net, t)
  {
    hide PushQueue, PruneMetas, UpsertMeta;
  }

  // ---------------------------------------------------------------- shape

  /** Distinct names, timestamps in order, and no forward entry behind a backward one. */
  ghost predicate InOrder(a: Pending, b: Pending) {
    a.name != b.name && a.createdAt <= b.createdAt && (b.forward ==> a.forward)
  }

  ghost predicate Shaped(q: seq<Pending>, clock: int) {
    && Pairwise(q, InOrder)
    && forall i :: 0 <= i < |q| ==> q[i].createdAt <= clock
  }

  lemma FilterShaped(q: seq<Pending>, keep: Pending -> bool, clock: int)
    requires Shaped(q, clock)
    ensures Shaped(Filter(q, keep), clock)
  {
    FilterPairwise(q, keep, InOrder);
    FilterMembers(q, keep);
    var f := Filter(q, keep);
    forall i | 0 <= i < |f| ensures f[i].createdAt <= clock {
      assert f[i] in q;
    }
  }

  lemma PushShaped(q: seq<Pending>, p: Pending, clock: int)
    requires Shaped(q, clock) && clock <= p.createdAt
    ensures Shaped(PushQueue(q, p), p.createdAt)
  {
    var flushed := Flushed(q, p.forward);
    FilterShaped(q, IsForward(), clock);
    FilterShaped(flushed, NotNamed(p.name), clock);
    FilterMembers(q, IsForward());
    FilterMembers(flushed, NotNamed(p.name));
    var kept := Filter(flushed, NotNamed(p.name));
    forall i | 0 <= i < |kept| ensures InOrder(kept[i], p) {
      assert kept[i] in flushed;
    }
  }

  lemma StepShaped(s: State, t: Timed, net: string, clock: int)
    requires Shaped(QueueOf(s.queues, net), clock) && clock <= t.now
    ensures Shaped(QueueOf(Step(s, t).queues, net), t.now)
  {
    hide Step, PushQueue, Filter;
    var q := QueueOf(s.queues, net);
    StepQueue(s, t, net);
    match t.op
    case Push(n, name, hostname, forward) =>
      PushShaped(q, Pending(name, hostname, t.now, forward), clock);
    case Pop(n) =>
    case Upsert(_, _, _, _) =>
    case Prune(maxAge) =>
      FilterShaped(q, FreshAt(t.now - maxAge), clock);
  }

  /** After any run, every queue has distinct names, ordered timestamps and forward entries first. */
  lemma {:induction false} EveryQueueShaped(ts: seq<Timed>, net: string)
    requires Monotone(ts) && ts != []
    ensures Shaped(QueueOf(Run(ts).queues, net), ts[|ts| - 1].now)
  {
    var init := ts[..|ts| - 1];
    if init == [] {
      StepShaped(EMPTY, ts[0], net, ts[0].now);
    } else {
      EveryQueueShaped(init, net);
      StepShaped(Run(init), ts[|ts| - 1], net, init[|init| - 1].now);
    }
  }

  /** Pruning a reachable queue drops exactly a prefix: the entries older than the cutoff. */
  lemma PruneDropsPrefix(ts: seq<Timed>, net: string, cutoff: int) returns (k: nat)
    requires Monotone(ts)
    ensures var q := QueueOf(Run(ts).queues, net);
            && k <= |q|
            && QueueOf(PruneQueues(Run(ts).queues, cutoff), net) == q[k..]
            && (forall i :: 0 <= i < |q| ==> (i < k <==> q[i].createdAt < cutoff))
  {
    var q := QueueOf(Run(ts).queues, net);
    if ts != [] {
      EveryQueueShaped(ts, net);
    }
    forall i, j | 0 <= i < j < |q| && FreshAt(cutoff)(q[i]) ensures FreshAt(cutoff)(q[j]) {
      assert InOrder(q[i], q[j]);
    }
    k := FilterIsSuffix(q, FreshAt(cutoff));
    assert forall i :: 0 <= i < |q| ==> FreshAt(cutoff)(q[i]) == (q[i].createdAt >= cutoff);
  }

  // ---------------------------------------------------------------- queue and metadata agree

  /** Registrations of (net, name) that have pushed but not yet upserted. */
  function Open(ts: seq<Timed>, net: string, name: string): (r: int) {
    if ts == [] then 0
    else
      var rest := Open(ts[..|ts| - 1], net, name);
      match ts[|ts| - 1].op
      case Push(n, m, _, _) => if n == net && m == name then rest + 1 else rest
      case Upsert(n, m, _, closes) => if n == net && m == name && closes then rest - 1 else rest
      case _ => rest
  }

  /** Every registration upserts after its own push. */
  ghost predicate Disciplined(ts: seq<Timed>) {
    forall i, net, name :: 0 <= i <= |ts| ==> Open(ts[..i], net, name) >= 0
  }

  ghost predicate HasMeta(m: Metas, net: string, e: Pending) {
    net in m && e.name in m[net] && m[net][e.name].createdAt >= e.createdAt
  }

  lemma DisciplinedInit(ts: seq<Timed>)
    requires Disciplined(ts) && ts != []
    ensures Disciplined(ts[..|ts| - 1])
  {
    var init := ts[..|ts| - 1];
    forall i, net, name | 0 <= i <= |init| ensures Open(init[..i], net, name) >= 0 {
      assert init[..i] == ts[..i];
    }
  }

  /** An entry queued after a step was queued before, or is the one just pushed. */
  lemma QueuedBefore(s: State, t: Timed, net: string, e: Pending)
    requires e in QueueOf(Step(s, t).queues, net)
    ensures e in QueueOf(s.queues, net)
         || (t.op.Push? && t.op.net == net && e == Pending(t.op.name, t.op.hostname, t.now, t.op.forward))
    ensures t.op.Push? && t.op.net == net && e.name == t.op.name ==> e.createdAt == t.now
    ensures t.op.Prune? ==> e.createdAt >= t.now - t.op.maxAge
  {
    hide Step;
    var q := QueueOf(s.queues, net);
    StepQueue(s, t, net);
    match t.op
    case Push(n, name, hostname, forward) =>
      FilterMembers(q, IsForward());
      FilterMembers(Flushed(q, forward), NotNamed(name));
    case Pop(n) =>
    case Upsert(_, _, _, _) =>
    case Prune(maxAge) =>
      FilterMembers(q, FreshAt(t.now - maxAge));
  }

  /**
   After any interleaving of registrations, Leaves, pops and prunes, each queued entry has
   metadata at least as recent, unless a registration of its name is still under way.
   */
  lemma {:induction false} QueueHasMeta(ts: seq<Timed>, net: string, e: Pending)
    requires Monotone(ts) && Disciplined(ts)
    requires e in QueueOf(Run(ts).queues, net)
    ensures Open(ts, net, e.name) > 0 || HasMeta(Run(ts).metas, net, e)
  {
    var init, t := ts[..|ts| - 1], ts[|ts| - 1];
    DisciplinedInit(ts);
    assert init[..|init|] == init && Open(init, net, e.name) >= 0;
    assert ts[..|ts|] == ts && Open(ts, net, e.name) >= 0;
    EveryQueueShaped(ts, net);
    QueuedBefore(Run(init), t, net, e);
    if e in QueueOf(Run(init).queues, net) {
      QueueHasMeta(init, net, e);
    }
    match t.op
    case Push(n, name, _, _) =>
    case Pop(_) =>
    case Upsert(n, name, _, _) => assert e.createdAt <= t.now;
    case Prune(maxAge) =>
      if HasMeta(Run(init).metas, net, e) {
        assert e.name in LiveMeta(Run(init).metas[net], t.now - maxAge);
      }
  }

  predicate Spared(e: Pending, t: Timed) { t.op.Prune? ==> e.createdAt >= t.now - t.op.maxAge }

  /** No prune in `ts` is too late for `e`. */
  ghost predicate Outlives(e: Pending, ts: seq<Timed>) {
    forall i :: 0 <= i < |ts| ==> Spared(e, ts[i])
  }

  lemma {:induction false} MetaLasts(ts: seq<Timed>, more: seq<Timed>, net: string, e: Pending)
    requires HasMeta(Run(ts).metas, net, e) && Outlives(e, more)
    requires forall i :: 0 <= i < |more| ==> e.createdAt <= more[i].now
    ensures HasMeta(Run(ts + more).metas, net, e)
  {
    if more == [] {
      assert ts + more == ts;
    } else {
      var n := |more| - 1;
      MetaLasts(ts, more[..n], net, e);
      assert (ts + more)[..|ts + more| - 1] == ts + more[..n] && (ts + more)[|ts + more| - 1] == more[n];
      var before := Run(ts + more[..n]).metas;
      if more[n].op.Prune? {
        assert e.name in LiveMeta(before[net], more[n].now - more[n].op.maxAge);
      }
    }
  }

  /**
   So the hostname lookup that follows a pop, however much later, succeeds whenever no registration of the name
   was open at the pop and no prune since was too late for the popped entry.
   */
  lemma {:induction false} PoppedNameHasMeta(ts: seq<Timed>, net: string, now: int, more: seq<Timed>)
    requires Monotone(ts) && Disciplined(ts)
    requires QueueOf(Run(ts).queues, net) != []
    requires Open(ts, net, QueueOf(Run(ts).queues, net)[0].name) == 0
    requires var e := QueueOf(Run(ts).queues, net)[0];
             Outlives(e, more) && e.createdAt <= now && forall i :: 0 <= i < |more| ==> e.createdAt <= more[i].now
    ensures var e := QueueOf(Run(ts).queues, net)[0];
            HasMeta(Run(ts + [Timed(Pop(net), now)] + more).metas, net, e)
  {
    var e := QueueOf(Run(ts).queues, net)[0];
    QueueHasMeta(ts, net, e);
    MetaLasts(ts, [Timed(Pop(net), now)] + more, net, e);
    assert ts + [Timed(Pop(net), now)] + more == ts + ([Timed(Pop(net), now)] + more);
  }

  /** The upsert at `i` is the last one for its name, and every later prune spared it. */
  ghost predicate LiveUpsert(ts: seq<Timed>, net: string, name: string, i: int) {
    && 0 <= i < |ts| && Upserts(ts[i].op, net, name)
    && forall j :: i < j < |ts| ==>
         && !Upserts(ts[j].op, net, name)
         && (ts[j].op.Prune? ==> ts[i].now >= ts[j].now - ts[j].op.maxAge)
  }

  predicate Upserts(op: Op, net: string, name: string) { op.Upsert? && op.net == net && op.name == name }

  lemma LiveUpsertMore(ts: seq<Timed>, net: string, name: string, i: int)
    requires ts != []
    ensures var n, t := |ts| - 1, ts[|ts| - 1];
            LiveUpsert(ts, net, name, i) <==>
              if i == n then Upserts(t.op, net, name)
              else LiveUpsert(ts[..n], net, name, i) && !Upserts(t.op, net, name)
                   && (t.op.Prune? ==> ts[i].now >= t.now - t.op.maxAge)
  {
    assert forall j :: 0 <= j < |ts| - 1 ==> ts[..|ts| - 1][j] == ts[j];
  }

  /** The metadata of a name is that of its last upsert, until a prune finds that one too old. */
  lemma {:induction false} MetaIsLastUpsert(ts: seq<Timed>, net: string, name: string)
    ensures var m := Run(ts).metas;
            && (net in m && name in m[net] <==> exists i :: LiveUpsert(ts, net, name, i))
            && forall i :: LiveUpsert(ts, net, name, i) ==>
                 m[net][name] == Pending(name, ts[i].op.hostname, ts[i].now, false)
  {
    if ts != [] {
      var n := |ts| - 1;
      MetaIsLastUpsert(ts[..n], net, name);
      var m := Run(ts).metas;
      forall i ensures LiveUpsert(ts, net, name, i) ==>
                         && net in m && name in m[net]
                         && m[net][name] == Pending(name, ts[i].op.hostname, ts[i].now, false) {
        LiveUpsertMore(ts, net, name, i);
        var before, t := Run(ts[..n]).metas, ts[n];
        if LiveUpsert(ts, net, name, i) && i < n && t.op.Prune? {
          assert name in LiveMeta(before[net], t.now - t.op.maxAge);
        }
      }
      if net in m && name in m[net] {
        if Upserts(ts[n].op, net, name) {
          LiveUpsertMore(ts, net, name, n);
        } else {
          var i :| LiveUpsert(ts[..n], net, name, i);
          LiveUpsertMore(ts, net, name, i);
        }
      }
    }
  }

  // ---------------------------------------------------------------- what Leave queues for a restart

  predicate Pushes(t: Timed, net: string, name: string) { t.op.Push? && t.op.net == net && t.op.name == name }

  /** On `net`, at most backward entries are pushed, none of this name, and nothing is popped. */
  predicate Behind(t: Timed, net: string, name: string) {
    && !(t.op.Pop? && t.op.net == net)
    && (t.op.Push? && t.op.net == net ==> !t.op.forward && t.op.name != name)
  }

  /** Neither pruned nor replaced by a later push of its name. */
  predicate Stays(x: Pending, net: string, t: Timed) { Spared(x, t) && !Pushes(t, net, x.name) }

  ghost predicate Remains(x: Pending, net: string, more: seq<Timed>) {
    forall i :: 0 <= i < |more| ==> Stays(x, net, more[i])
  }

  lemma FilterAround(front: seq<Pending>, e: Pending, tail: seq<Pending>, keep: Pending -> bool)
    requires keep(e)
    ensures Filter(front + [e] + tail, keep) == Filter(front, keep) + [e] + Filter(tail, keep)
  {
    FilterConcat(front + [e], tail, keep);
    FilterConcat(front, [e], keep);
    assert [e][..0] == [];
  }

  lemma QuietStep(s: State, t: Timed, net: string, front: seq<Pending>, e: Pending, tail: seq<Pending>)
    returns (front': seq<Pending>, tail': seq<Pending>)
    requires QueueOf(s.queues, net) == front + [e] + tail && Behind(t, net, e.name) && Spared(e, t)
    ensures QueueOf(Step(s, t).queues, net) == front' + [e] + tail'
    ensures forall x :: x in front' <==> x in front && Stays(x, net, t)
    ensures tail == [] && !(t.op.Push? && t.op.net == net) ==> tail' == []
  {
    hide Step, Filter;
    StepQueue(s, t, net);
    front', tail' := front, tail;
    if t.op.Prune? {
      var keep := FreshAt(t.now - t.op.maxAge);
      FilterAround(front, e, tail, keep);
      FilterMembers(front, keep);
      FilterMembers(tail, keep);
      front', tail' := Filter(front, keep), Filter(tail, keep);
    } else if t.op.Push? && t.op.net == net {
      var keep := NotNamed(t.op.name);
      FilterAround(front, e, tail, keep);
      FilterMembers(front, keep);
      front', tail' := Filter(front, keep), Filter(tail, keep) + [Pending(t.op.name, t.op.hostname, t.now, false)];
      assert front' + [e] + tail' == front' + [e] + Filter(tail, keep) + [tail'[|tail'| - 1]];
    }
  }

  /** Behind a backward entry others may queue up; before it, entries only disappear. */
  lemma {:induction false} QuietQueue(ts: seq<Timed>, more: seq<Timed>, net: string, front: seq<Pending>, e: Pending)
    returns (rest: seq<Pending>, tail: seq<Pending>)
    requires QueueOf(Run(ts).queues, net) == front + [e] && Outlives(e, more)
    requires forall i :: 0 <= i < |more| ==> Behind(more[i], net, e.name)
    ensures QueueOf(Run(ts + more).queues, net) == rest + [e] + tail
    ensures forall x :: x in rest <==> x in front && Remains(x, net, more)
    ensures (forall i :: 0 <= i < |more| ==> !(more[i].op.Push? && more[i].op.net == net)) ==> tail == []
  {
    hide Step, Stays;
    if more == [] {
      assert ts + more == ts;
      rest, tail := front, [];
    } else {
      var n := |more| - 1;
      var before, behind := QuietQueue(ts, more[..n], net, front, e);
      assert (ts + more)[..|ts + more| - 1] == ts + more[..n] && (ts + more)[|ts + more| - 1] == more[n];
      assert forall x :: Remains(x, net, more) <==> Remains(x, net, more[..n]) && Stays(x, net, more[n]);
      rest, tail := QuietStep(Run(ts + more[..n]), more[n], net, before, e, behind);
    }
  }

  /**
   What the last registration of a container queues - Leave's or that of its die event, whichever comes later -
   when no create event and no pop follows on the network until the next CreateEndpoint and no prune takes it:
   it is still queued, and the pop gets it exactly when nothing queued before it under another name remains.
   Where no other container's registration follows either, it is last.
   */
  lemma {:induction false} LeaveThenPop(ts: seq<Timed>, net: string, e: Pending, more: seq<Timed>)
    requires !e.forward && Outlives(e, more) && forall i :: 0 <= i < |more| ==> Behind(more[i], net, e.name)
    ensures var earlier := QueueOf(Run(ts).queues, net);
            var push := Timed(Op.Push(net, e.name, e.hostname, false), e.createdAt);
            var q := QueueOf(Run(ts + [push] + more).queues, net);
            && e in q
            && (q[0].name == e.name <==> forall x :: x in earlier && x.name != e.name ==> !Remains(x, net, more))
            && (q[0].name == e.name ==> q[0] == e)
            && ((forall i :: 0 <= i < |more| ==> !(more[i].op.Push? && more[i].op.net == net)) ==>
                  q[|q| - 1] == e && (q[0].name == e.name ==> q == [e]))
  {
    hide Step, Remains, Behind, Outlives;
    var push := Timed(Op.Push(net, e.name, e.hostname, false), e.createdAt);
    var earlier := QueueOf(Run(ts).queues, net);
    assert (ts + [push])[..|ts|] == ts;
    StepQueue(Run(ts), push, net);
    var front := Filter(earlier, NotNamed(e.name));
    FilterMembers(earlier, NotNamed(e.name));
    var rest, tail := QuietQueue(ts + [push], more, net, front, e);
    if rest != [] {
      assert rest[0] in rest;
    }
  }

  // ---------------------------------------------------------------- accounting

  /** A push, numbered by its position among the pushes on its network. */
  datatype Tagged = Tagged(id: nat, entry: Pending)

  /** One network's queue with numbered entries, and where every other push went. */
  datatype Ledger = Ledger(
    queue: seq<Tagged>,
    next: nat,
    popped: seq<Tagged>,
    deduped: seq<Tagged>,
    flushed: seq<Tagged>,
    pruned: seq<Tagged>)

  function Lift(keep: Pending -> bool): (r: Tagged -> bool) { (t: Tagged) => keep(t.entry) }

  function Erase(q: seq<Tagged>): (r: seq<Pending>) { seq(|q|, i requires 0 <= i < |q| => q[i].entry) }

  function PushLedger(l: Ledger, p: Pending): (r: Ledger) {
    var fwd, other := Lift(IsForward()), Lift(NotNamed(p.name));
    var q := if p.forward then Filter(l.queue, fwd) else l.queue;
    l.(queue := Filter(q, other) + [Tagged(l.next, p)],
       next := l.next + 1,
       flushed := l.flushed + (if p.forward then Filter(l.queue, Not(fwd)) else []),
       deduped := l.deduped + Filter(q, Not(other)))
  }

  function PruneLedger(l: Ledger, cutoff: int): (r: Ledger) {
    var keep := Lift(FreshAt(cutoff));
    l.(queue := Filter(l.queue, keep), pruned := l.pruned + Filter(l.queue, Not(keep)))
  }

  function LedgerStep(l: Ledger, net: string, t: Timed): (r: Ledger) {
    match t.op
    case Push(n, name, hostname, forward) =>
      if n == net then PushLedger(l, Pending(name, hostname, t.now, forward)) else l
    case Pop(n) =>
      if n == net && l.queue != [] then l.(queue := l.queue[1..], popped := l.popped + [l.queue[0]]) else l
    case Upsert(_, _, _, _) => l
    case Prune(maxAge) => PruneLedger(l, t.now - maxAge)
  }

  function Account(ts: seq<Timed>, net: string): (r: Ledger) {
    if ts == [] then Ledger([], 0, [], [], [], [])
    else LedgerStep(Account(ts[..|ts| - 1], net), net, ts[|ts| - 1])
  }

  function Pushed(next: nat, net: string, t: Timed): (r: seq<Tagged>) {
    if t.op.Push? && t.op.net == net
    then [Tagged(next, Pending(t.op.name, t.op.hostname, t.now, t.op.forward))]
    else []
  }

  /** Every push on `net`, in order, read off the run itself. */
  function PushLog(ts: seq<Timed>, net: string): (r: seq<Tagged>) {
    if ts == [] then []
    else
      var rest := PushLog(ts[..|ts| - 1], net);
      rest + Pushed(|rest|, net, ts[|ts| - 1])
  }

  lemma {:induction false} FilterErase(q: seq<Tagged>, keep: Pending -> bool)
    ensures Erase(Filter(q, Lift(keep))) == Filter(Erase(q), keep)
  {
    if q != [] {
      var init := q[..|q| - 1];
      FilterErase(init, keep);
      assert Erase(q)[..|q| - 1] == Erase(init);
    }
  }

  lemma PushErase(l: Ledger, p: Pending)
    ensures Erase(PushLedger(l, p).queue) == PushQueue(Erase(l.queue), p)
  {
    var q := if p.forward then Filter(l.queue, Lift(IsForward())) else l.queue;
    FilterErase(l.queue, IsForward());
    FilterErase(q, NotNamed(p.name));
  }

  lemma StepErase(s: State, l: Ledger, net: string, t: Timed)
    requires Erase(l.queue) == QueueOf(s.queues, net)
    ensures Erase(LedgerStep(l, net, t).queue) == QueueOf(Step(s, t).queues, net)
  {
    hide Step, PushQueue;
    StepQueue(s, t, net);
    match t.op
    case Push(n, name, hostname, forward) => PushErase(l, Pending(name, hostname, t.now, forward));
    case Pop(n) =>
      if n == net && l.queue != [] {
        assert Erase(l.queue[1..]) == Erase(l.queue)[1..];
      }
    case Upsert(_, _, _, _) =>
    case Prune(maxAge) => FilterErase(l.queue, FreshAt(t.now - maxAge));
  }

  /** Forgetting the numbers gives exactly the queue the plugin holds. */
  lemma {:induction false} LedgerIsQueue(ts: seq<Timed>, net: string)
    ensures Erase(Account(ts, net).queue) == QueueOf(Run(ts).queues, net)
  {
    if ts != [] {
      LedgerIsQueue(ts[..|ts| - 1], net);
      StepErase(Run(ts[..|ts| - 1]), Account(ts[..|ts| - 1], net), net, ts[|ts| - 1]);
    }
  }

  /** How often push `x` turns up across the queue and the four places an entry can leave it for. */
  ghost function Times(l: Ledger, x: Tagged): nat {
    Count(l.queue, x) + Count(l.popped, x) + Count(l.deduped, x) + Count(l.flushed, x) + Count(l.pruned, x)
  }

  lemma PushTimes(l: Ledger, p: Pending, x: Tagged)
    ensures Times(PushLedger(l, p), x) == Times(l, x) + Count([Tagged(l.next, p)], x)
  {
    hide Filter;
    var fwd, other := Lift(IsForward()), Lift(NotNamed(p.name));
    var q := if p.forward then Filter(l.queue, fwd) else l.queue;
    FilterSplits(l.queue, fwd, x);
    FilterSplits(q, other, x);
    CountConcat(Filter(q, other), [Tagged(l.next, p)], x);
    CountConcat(l.flushed, if p.forward then Filter(l.queue, Not(fwd)) else [], x);
    CountConcat(l.deduped, Filter(q, Not(other)), x);
  }

  lemma PopTimes(l: Ledger, x: Tagged)
    requires l.queue != []
    ensures Times(l.(queue := l.queue[1..], popped := l.popped + [l.queue[0]]), x) == Times(l, x)
  {
    hide Count;
    CountConcat([l.queue[0]], l.queue[1..], x);
    CountConcat(l.popped, [l.queue[0]], x);
    assert l.queue == [l.queue[0]] + l.queue[1..];
  }

  lemma PruneTimes(l: Ledger, cutoff: int, x: Tagged)
    ensures Times(PruneLedger(l, cutoff), x) == Times(l, x)
  {
    hide Count, Filter;
    var keep := Lift(FreshAt(cutoff));
    FilterSplits(l.queue, keep, x);
    CountConcat(l.pruned, Filter(l.queue, Not(keep)), x);
  }

  lemma StepTimes(l: Ledger, net: string, t: Timed, x: Tagged)
    ensures Times(LedgerStep(l, net, t), x) == Times(l, x) + Count(Pushed(l.next, net, t), x)
  {
    hide PushLedger, PruneLedger;
    match t.op
    case Push(n, name, hostname, forward) => PushTimes(l, Pending(name, hostname, t.now, forward), x);
    case Pop(n) =>
      if l.queue != [] {
        PopTimes(l, x);
      }
    case Upsert(_, _, _, _) =>
    case Prune(maxAge) => PruneTimes(l, t.now - maxAge, x);
  }

  lemma {:induction false} LogNumbered(ts: seq<Timed>, net: string)
    ensures forall i :: 0 <= i < |PushLog(ts, net)| ==> PushLog(ts, net)[i].id == i
  {
    if ts != [] {
      LogNumbered(ts[..|ts| - 1], net);
    }
  }

  lemma {:induction false} LogHasEachPushOnce(ts: seq<Timed>, net: string, x: Tagged)
    ensures Count(PushLog(ts, net), x) == if x in PushLog(ts, net) then 1 else 0
  {
    if ts != [] {
      var init := ts[..|ts| - 1];
      var log := PushLog(init, net);
      var more := Pushed(|log|, net, ts[|ts| - 1]);
      LogHasEachPushOnce(init, net, x);
      LogNumbered(init, net);
      CountConcat(log, more, x);
      assert Count(more, x) == if x in more then 1 else 0;
      assert x in log ==> x.id < |log|;
    }
  }

  lemma {:induction false} TimesIsLogCount(ts: seq<Timed>, net: string, x: Tagged)
    ensures Times(Account(ts, net), x) == Count(PushLog(ts, net), x)
    ensures Account(ts, net).next == |PushLog(ts, net)|
  {
    if ts != [] {
      var init, t := ts[..|ts| - 1], ts[|ts| - 1];
      TimesIsLogCount(init, net, x);
      StepTimes(Account(init, net), net, t, x);
      CountConcat(PushLog(init, net), Pushed(|PushLog(init, net)|, net, t), x);
    }
  }

  /** Every push is still queued, popped, deduplicated, flushed or pruned, exactly once; nothing else is. */
  lemma PushAccountedOnce(ts: seq<Timed>, net: string, x: Tagged)
    ensures Times(Account(ts, net), x) == if x in PushLog(ts, net) then 1 else 0
  {
    TimesIsLogCount(ts, net, x);
    LogHasEachPushOnce(ts, net, x);
  }

  ghost predicate Earlier(a: Tagged, b: Tagged) { a.id < b.id }

  ghost predicate Ordered(l: Ledger) {
    && Pairwise(l.popped + l.queue, Earlier)
    && forall i :: 0 <= i < |l.popped + l.queue| ==> (l.popped + l.queue)[i].id < l.next
  }

  lemma FilterOrdered(l: Ledger, keep: Tagged -> bool)
    requires Ordered(l)
    ensures Ordered(l.(queue := Filter(l.queue, keep)))
  {
    FilterTailPairwise(l.popped, l.queue, keep, Earlier);
    FilterMembers(l.queue, keep);
    var f := Filter(l.queue, keep);
    forall i | 0 <= i < |l.popped + f| ensures (l.popped + f)[i].id < l.next {
      if i < |l.popped| {
        assert (l.popped + l.queue)[i] == l.popped[i];
      } else {
        assert f[i - |l.popped|] in f;
        var k :| 0 <= k < |l.queue| && l.queue[k] == f[i - |l.popped|];
        assert (l.popped + l.queue)[|l.popped| + k] == l.queue[k];
      }
    }
  }

  lemma AppendOrdered(s: seq<Tagged>, t: Tagged)
    requires Pairwise(s, Earlier) && forall i :: 0 <= i < |s| ==> s[i].id < t.id
    ensures Pairwise(s + [t], Earlier)
  {
  }

  lemma StepOrdered(l: Ledger, net: string, t: Timed)
    requires Ordered(l)
    ensures Ordered(LedgerStep(l, net, t))
  {
    match t.op
    case Push(n, name, hostname, forward) =>
      var q := if forward then Filter(l.queue, Lift(IsForward())) else l.queue;
      FilterOrdered(l, Lift(IsForward()));
      FilterOrdered(l.(queue := q), Lift(NotNamed(name)));
      var kept := Filter(q, Lift(NotNamed(name)));
      var p := Tagged(l.next, Pending(name, hostname, t.now, forward));
      AppendOrdered(l.popped + kept, p);
      assert l.popped + (kept + [p]) == (l.popped + kept) + [p];
    case Pop(n) =>
      if l.queue != [] {
        assert l.popped + [l.queue[0]] + l.queue[1..] == l.popped + l.queue;
      }
    case Upsert(_, _, _, _) =>
    case Prune(maxAge) => FilterOrdered(l, Lift(FreshAt(t.now - maxAge)));
  }

  /** Entries are popped in strictly increasing push order - none twice - and the queue continues that order. */
  lemma {:induction false} PopsInPushOrder(ts: seq<Timed>, net: string)
    ensures Ordered(Account(ts, net))
  {
    if ts != [] {
      PopsInPushOrder(ts[..|ts| - 1], net);
      StepOrdered(Account(ts[..|ts| - 1], net), net, ts[|ts| - 1]);
    }
  }

  lemma TaggedBefore(l: Ledger, net: string, t: Timed, e: Tagged)
    requires e in LedgerStep(l, net, t).queue
    ensures e in l.queue
         || (t.op.Push? && t.op.net == net
             && e == Tagged(l.next, Pending(t.op.name, t.op.hostname, t.now, t.op.forward)))
    ensures t.op.Push? && t.op.net == net && t.op.forward ==> e.entry.forward
  {
    match t.op
    case Push(n, name, hostname, forward) =>
      var q := if forward then Filter(l.queue, Lift(IsForward())) else l.queue;
      FilterMembers(l.queue, Lift(IsForward()));
      FilterMembers(q, Lift(NotNamed(name)));
    case Pop(n) =>
    case Upsert(_, _, _, _) =>
    case Prune(maxAge) => FilterMembers(l.queue, Lift(FreshAt(t.now - maxAge)));
  }

  /**
   No contamination: a backward entry that is still queued - so one that a pop may return - was
   pushed after every forward push on its network, and what is queued is what was pushed.
   */
  lemma {:induction false} NoContamination(ts: seq<Timed>, net: string, e: Tagged)
    requires e in Account(ts, net).queue
    ensures var log := PushLog(ts, net);
            && e.id < |log| && log[e.id] == e
            && (!e.entry.forward ==> forall j :: e.id < j < |log| ==> !log[j].entry.forward)
  {
    var init := ts[..|ts| - 1];
    TimesIsLogCount(init, net, e);
    LogNumbered(init, net);
    TaggedBefore(Account(init, net), net, ts[|ts| - 1], e);
    if e in Account(init, net).queue {
      NoContamination(init, net, e);
    }
  }
}
