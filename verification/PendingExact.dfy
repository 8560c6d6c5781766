/**
 Exactly what each critical section does to the queues and the metadata, entry by entry, and exactly when an entry
 leaves a queue (pkg/plugin/plugin.go:211-327).
 */
module PendingExact {
  import opened Seqs
  import opened PendingSpec
  import opened PendingRuns

  // ---------------------------------------------------------------- one critical section

  /**
   A push keeps the entries of other names - of them only the forward ones if the push is forward - in their old
   order, and puts the new entry behind them.
   */
  lemma PushExact(s: State, net: string, name: string, hostname: string, forward: bool, now: int)
    returns (at: seq<nat>)
    ensures var q := if net in s.queues then s.queues[net] else [];
            var r := Step(s, Timed(Op.Push(net, name, hostname, forward), now));
            && r.metas == s.metas && r.queues.Keys == s.queues.Keys + {net}
            && (forall n :: n in s.queues && n != net ==> r.queues[n] == s.queues[n])
            && |r.queues[net]| == |at| + 1
            && r.queues[net][|at|] == Pending(name, hostname, now, forward)
            && Picked(q, at, r.queues[net][..|at|])
            && forall i: nat :: i in at <==> i < |q| && q[i].name != name && (forward ==> q[i].forward)
  {
    hide Filter, Picked;
    var q := if net in s.queues then s.queues[net] else [];
    var p := Pending(name, hostname, now, forward);
    var kept := Flushed(q, forward);
    var first: seq<nat>;
    if forward {
      first := FilterPicks(q, IsForward());
    } else {
      first := PickAll(q);
    }
    var second := FilterPicks(kept, NotNamed(name));
    at := PickedTwice(q, first, kept, second, Filter(kept, NotNamed(name)));
    forall i: nat ensures i in at <==> i < |q| && q[i].name != name && (forward ==> q[i].forward) {
      Positions(q, first, kept, i);
    }
    PickedLength(q, at, Filter(kept, NotNamed(name)));
    assert PushQueue(q, p) == Filter(kept, NotNamed(name)) + [p];
  }

  lemma PickAll(q: seq<Pending>) returns (at: seq<nat>)
    ensures Picked(q, at, q) && forall i: nat :: i in at <==> i < |q|
  {
    at := seq(|q|, i => i);
    forall i: nat ensures i in at <==> i < |q| {
      if i < |q| {
        assert at[i] == i;
      }
    }
  }

  lemma Positions(q: seq<Pending>, at: seq<nat>, r: seq<Pending>, i: nat)
    requires Picked(q, at, r)
    ensures i in at ==> exists k :: 0 <= k < |at| && at[k] == i
    ensures forall k :: 0 <= k < |at| ==> k < |r| && at[k] < |q| && r[k] == q[at[k]] && at[k] in at
  {
  }

  lemma PickedLength(q: seq<Pending>, at: seq<nat>, r: seq<Pending>)
    requires Picked(q, at, r)
    ensures |r| == |at|
  {
  }

  /** A pop takes the front entry and nothing else; there is nothing to take from an empty queue. */
  lemma PopExact(s: State, net: string, now: int)
    ensures var q := if net in s.queues then s.queues[net] else [];
            Step(s, Timed(Op.Pop(net), now)) ==
              if q == [] then s else s.(queues := s.queues[net := q[1..]])
  {
  }

  /** A prune keeps exactly what is no older than `maxAge`, in order, and no empty queue or map. */
  lemma PruneExact(s: State, maxAge: int, now: int, net: string) returns (at: seq<nat>)
    ensures var q := if net in s.queues then s.queues[net] else [];
            var m := if net in s.metas then s.metas[net] else map[];
            var r := Step(s, Timed(Op.Prune(maxAge), now));
            && (net in r.queues <==> at != [])
            && (net in r.queues ==> Picked(q, at, r.queues[net]))
            && (forall i: nat :: i in at <==> i < |q| && now - q[i].createdAt <= maxAge)
            && (net in r.metas <==> exists name :: name in m && now - m[name].createdAt <= maxAge)
            && (net in r.metas ==> forall name ::
                  && (name in r.metas[net] <==> name in m && now - m[name].createdAt <= maxAge)
                  && (name in r.metas[net] ==> r.metas[net][name] == m[name]))
  {
    hide Filter, Picked;
    var q := if net in s.queues then s.queues[net] else [];
    at := FilterPicks(q, FreshAt(now - maxAge));
    PickedLength(q, at, Filter(q, FreshAt(now - maxAge)));
    var m := if net in s.metas then s.metas[net] else map[];
    assert forall name :: name in LiveMeta(m, now - maxAge) <==> name in m && now - m[name].createdAt <= maxAge;
    if name :| name in m && now - m[name].createdAt <= maxAge {
      assert name in LiveMeta(m, now - maxAge);
    }
  }

  /** An upsert sets one name's metadata on one network. */
  lemma UpsertExact(s: State, net: string, name: string, hostname: string, closes: bool, now: int, n: string, k: string)
    ensures var r := Step(s, Timed(Op.Upsert(net, name, hostname, closes), now));
            && r.queues == s.queues
            && (n in r.metas && k in r.metas[n] <==> (n == net && k == name) || (n in s.metas && k in s.metas[n]))
            && (n in r.metas && k in r.metas[n] ==>
                  r.metas[n][k] == if n == net && k == name then Pending(name, hostname, now, false) else s.metas[n][k])
  {
  }

  // ---------------------------------------------------------------- when an entry leaves its queue

  /** The critical section pops `x` from the front, finds it too old, or pushes something that displaces it. */
  predicate Displaces(q: seq<Pending>, net: string, t: Timed, x: Pending) {
    match t.op
    case Pop(n) => n == net && q != [] && q[0] == x
    case Prune(maxAge) => t.now - x.createdAt > maxAge
    case Push(n, name, hostname, forward) =>
      n == net && x != Pending(name, hostname, t.now, forward) && (name == x.name || (forward && !x.forward))
    case Upsert(_, _, _, _) => false
  }

  /** A queued entry of a reachable state leaves its queue exactly for one of these reasons. */
  lemma {:induction false} LeavesIff(ts: seq<Timed>, t: Timed, net: string, x: Pending)
    requires Monotone(ts) && x in QueueOf(Run(ts).queues, net)
    ensures x !in QueueOf(Step(Run(ts), t).queues, net) <==> Displaces(QueueOf(Run(ts).queues, net), net, t, x)
  {
    hide Step, Run;
    var q := QueueOf(Run(ts).queues, net);
    StepQueue(Run(ts), t, net);
    match t.op
    case Push(n, name, hostname, forward) =>
      FilterMembers(q, IsForward());
      FilterMembers(Flushed(q, forward), NotNamed(name));
    case Pop(n) => FrontOnce(ts, net, x);
    case Upsert(_, _, _, _) =>
    case Prune(maxAge) => FilterMembers(q, FreshAt(t.now - maxAge));
  }

  lemma FrontOnce(ts: seq<Timed>, net: string, x: Pending)
    requires Monotone(ts) && x in QueueOf(Run(ts).queues, net)
    ensures var q := QueueOf(Run(ts).queues, net); x in q[1..] <==> q[0] != x
  {
    var q := QueueOf(Run(ts).queues, net);
    if ts != [] {
      EveryQueueShaped(ts, net);
    }
    forall i | 1 <= i < |q| ensures q[i] != q[0] {
      assert InOrder(q[0], q[i]);
    }
    assert forall y :: y in q <==> y == q[0] || y in q[1..];
  }

  /** At step `i` of `more` the entry is popped, too old, or pushed again under its name. */
  ghost predicate TakenAt(ts: seq<Timed>, more: seq<Timed>, net: string, x: Pending, i: int) {
    && 0 <= i < |more|
    && var q := QueueOf(Run(ts + more[..i]).queues, net);
       && x in q
       && match more[i].op
          case Pop(n) => n == net && q[0] == x
          case Prune(maxAge) => more[i].now - x.createdAt > maxAge
          case Push(n, name, _, _) => n == net && name == x.name
          case Upsert(_, _, _, _) => false
  }

  /** A forward entry stays queued until it is popped, found too old, or pushed again under its name. */
  lemma {:induction false} ForwardStays(ts: seq<Timed>, more: seq<Timed>, net: string, x: Pending)
    requires Monotone(ts + more) && x.forward && x in QueueOf(Run(ts).queues, net)
    ensures x in QueueOf(Run(ts + more).queues, net) || exists i :: TakenAt(ts, more, net, x, i)
  {
    hide Run, Step, TakenAt;
    if more == [] {
      assert ts + more == ts;
    } else {
      var n := |more| - 1;
      assert (ts + more)[..|ts| + n] == ts + more[..n] && (ts + more)[|ts| + n] == more[n];
      MonotonePrefix(ts + more, |ts| + n);
      ForwardStays(ts, more[..n], net, x);
      if x in QueueOf(Run(ts + more[..n]).queues, net) {
        LeavesIff(ts + more[..n], more[n], net, x);
        RunLast(ts + more);
        if x !in QueueOf(Run(ts + more).queues, net) {
          TakenLast(ts, more, net, x);
        }
      } else {
        var i :| TakenAt(ts, more[..n], net, x, i);
        TakenBefore(ts, more, net, x, i);
      }
    }
  }

  lemma RunLast(ts: seq<Timed>)
    requires ts != []
    ensures Run(ts) == Step(Run(ts[..|ts| - 1]), ts[|ts| - 1])
  {
  }

  lemma TakenBefore(ts: seq<Timed>, more: seq<Timed>, net: string, x: Pending, i: int)
    requires more != [] && TakenAt(ts, more[..|more| - 1], net, x, i)
    ensures TakenAt(ts, more, net, x, i)
  {
    assert more[..|more| - 1][..i] == more[..i];
  }

  lemma TakenLast(ts: seq<Timed>, more: seq<Timed>, net: string, x: Pending)
    requires more != [] && x.forward
    requires var q := QueueOf(Run(ts + more[..|more| - 1]).queues, net);
             x in q && Displaces(q, net, more[|more| - 1], x)
    ensures TakenAt(ts, more, net, x, |more| - 1)
  {
  }

  lemma MonotonePrefix(ts: seq<Timed>, n: nat)
    requires Monotone(ts) && n <= |ts|
    ensures Monotone(ts[..n])
  {
  }

  // ---------------------------------------------------------------- what the accounts hold

  /** A backward entry that a later forward push found in its way. */
  ghost predicate FlushedBy(log: seq<Tagged>, x: Tagged) {
    !x.entry.forward && exists j :: x.id < j < |log| && log[j].entry.forward
  }

  ghost predicate ReplacedBy(log: seq<Tagged>, x: Tagged) {
    exists j :: x.id < j < |log| && log[j].entry.name == x.entry.name
  }

  ghost predicate ExpiredBy(ts: seq<Timed>, x: Tagged) {
    exists i :: 0 <= i < |ts| && ts[i].op.Prune? && ts[i].now - x.entry.createdAt > ts[i].op.maxAge
  }

  ghost predicate Accounted(l: Ledger, log: seq<Tagged>, ts: seq<Timed>) {
    && (forall x :: x in l.flushed ==> FlushedBy(log, x))
    && (forall x :: x in l.deduped ==> ReplacedBy(log, x))
    && (forall x :: x in l.pruned ==> ExpiredBy(ts, x))
    && (forall x :: x in l.queue ==> x.id < |log|)
  }

  /**
   Flushed entries are backward ones that a later forward push displaced, deduplicated ones were pushed again under
   their name, and pruned ones were older than a prune allowed.
   */
  lemma {:induction false} AccountsJustified(ts: seq<Timed>, net: string)
    ensures Accounted(Account(ts, net), PushLog(ts, net), ts)
  {
    if ts != [] {
      var n := |ts| - 1;
      var t, l, log := ts[n], Account(ts[..n], net), PushLog(ts[..n], net);
      AccountsJustified(ts[..n], net);
      TimesIsLogCount(ts[..n], net, Tagged(0, Pending("", "", 0, false)));
      assert ts == ts[..n] + [t];
      MoreAccounted(l, log, Pushed(|log|, net, t), ts[..n], t);
      match t.op
      case Push(m, name, hostname, forward) =>
        if m == net {
          PushJustified(l, log, Pending(name, hostname, t.now, forward), ts);
        }
      case Pop(_) =>
      case Upsert(_, _, _, _) =>
      case Prune(maxAge) => PruneJustified(l, log, ts);
    }
  }

  lemma MoreAccounted(l: Ledger, log: seq<Tagged>, more: seq<Tagged>, ts: seq<Timed>, t: Timed)
    requires Accounted(l, log, ts)
    ensures Accounted(l, log + more, ts + [t])
  {
    forall x | FlushedBy(log, x) ensures FlushedBy(log + more, x) {
      var j :| x.id < j < |log| && log[j].entry.forward;
      assert (log + more)[j] == log[j];
    }
    forall x | ReplacedBy(log, x) ensures ReplacedBy(log + more, x) {
      var j :| x.id < j < |log| && log[j].entry.name == x.entry.name;
      assert (log + more)[j] == log[j];
    }
    forall x | ExpiredBy(ts, x) ensures ExpiredBy(ts + [t], x) {
      var i :| 0 <= i < |ts| && ts[i].op.Prune? && ts[i].now - x.entry.createdAt > ts[i].op.maxAge;
      assert (ts + [t])[i] == ts[i];
    }
  }

  lemma PushJustified(l: Ledger, log: seq<Tagged>, p: Pending, ts: seq<Timed>)
    requires Accounted(l, log + [Tagged(l.next, p)], ts) && l.next == |log|
    requires forall x :: x in l.queue ==> x.id < |log|
    ensures Accounted(PushLedger(l, p), log + [Tagged(l.next, p)], ts)
  {
    hide Filter;
    var fwd, other := Lift(IsForward()), Lift(NotNamed(p.name));
    var q := if p.forward then Filter(l.queue, fwd) else l.queue;
    var all := log + [Tagged(l.next, p)];
    FilterMembers(l.queue, fwd);
    FilterMembers(l.queue, Not(fwd));
    FilterMembers(q, other);
    FilterMembers(q, Not(other));
    assert all[|log|].entry == p;
    forall x | x in Filter(l.queue, Not(fwd)) && p.forward ensures FlushedBy(all, x) {
      assert !fwd(x);
    }
    forall x | x in Filter(q, Not(other)) ensures ReplacedBy(all, x) {
      assert !other(x);
    }
  }

  lemma PruneJustified(l: Ledger, log: seq<Tagged>, ts: seq<Timed>)
    requires Accounted(l, log, ts) && ts != [] && ts[|ts| - 1].op.Prune?
    ensures Accounted(PruneLedger(l, ts[|ts| - 1].now - ts[|ts| - 1].op.maxAge), log, ts)
  {
    hide Filter;
    var keep := Lift(FreshAt(ts[|ts| - 1].now - ts[|ts| - 1].op.maxAge));
    FilterMembers(l.queue, keep);
    FilterMembers(l.queue, Not(keep));
    forall x | x in Filter(l.queue, Not(keep)) ensures ExpiredBy(ts, x) {
      assert !keep(x);
    }
  }
}
