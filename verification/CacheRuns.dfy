/**
 What the cache operations keep over every run: a reloaded cache behaves like the original, the
 entries stay filed under their own IDs, and reconciliation is exact and idempotent.
 */
module CacheRuns {
  import opened CacheSpec

  // ---------------------------------------------------------------- reload bisimulation

  /** The same up to nil versus empty maps. */
  ghost predicate AlikeNetwork(m: Network, n: Network) {
    && m.id == n.id && m.options == n.options
    && Entries(m.endpoints) == Entries(n.endpoints)
    && Entries(m.containerMap) == Entries(n.containerMap)
    && Entries(m.metadataMap) == Entries(n.metadataMap)
  }

  ghost predicate Alike(a: Networks, b: Networks) {
    a.Keys == b.Keys && forall id :: id in a ==> AlikeNetwork(a[id], b[id])
  }

  lemma SnapshotAlike(a: Networks)
    ensures Alike(Snapshot(a), a) && Alike(a, Snapshot(a))
  {
  }

  /** Alike caches are those that print to the same file. */
  lemma {:induction false} AlikeIsSameFile(a: Networks, b: Networks)
    ensures Alike(a, b) <==> Snapshot(a) == Snapshot(b)
  {
    assert Snapshot(a).Keys == a.Keys && Snapshot(b).Keys == b.Keys;
    if Snapshot(a) == Snapshot(b) {
      forall id | id in a ensures AlikeNetwork(a[id], b[id]) {
        assert Snapshot(a)[id] == Snapshot(b)[id];
      }
    }
  }

  lemma SetMetadataAlike(a: Networks, b: Networks, net: string, ep: string, meta: Metadata)
    requires Alike(a, b)
    ensures Alike(SetMetadataIn(a, net, ep, meta), SetMetadataIn(b, net, ep, meta))
  {
  }

  lemma SetEndpointAlike(a: Networks, b: Networks, net: string, e: Endpoint)
    requires Alike(a, b) && net in a
    ensures Alike(SetEndpointIn(a, net, e), SetEndpointIn(b, net, e))
  {
  }

  lemma DeleteEndpointAlike(a: Networks, b: Networks, net: string, ep: string)
    requires Alike(a, b) && net in a
    ensures Alike(DeleteEndpointIn(a, net, ep), DeleteEndpointIn(b, net, ep))
  {
  }

  lemma SetAlike(a: Networks, b: Networks, state: Network)
    requires Alike(a, b)
    ensures Alike(SetIn(a, state), SetIn(b, state))
  {
  }

  lemma PruneAlike(a: Networks, b: Networks, now: int, maxAge: int)
    requires Alike(a, b)
    ensures Alike(PruneMetadataIn(a, now, maxAge), PruneMetadataIn(b, now, maxAge))
    ensures (exists id :: id in a && Expired(a[id].metadataMap, now, maxAge) != {}) <==>
            (exists id :: id in b && Expired(b[id].metadataMap, now, maxAge) != {})
  {
    assert forall id :: id in a ==>
      Expired(a[id].metadataMap, now, maxAge) == Expired(b[id].metadataMap, now, maxAge);
  }

  lemma OrphansAlike(a: Networks, b: Networks, docker: DockerNets)
    requires Alike(a, b)
    ensures forall id :: id in a && id in docker ==> Orphans(a[id], docker[id]) == Orphans(b[id], docker[id])
    ensures Kept(a, docker) == Kept(b, docker)
    ensures ReconcileChanges(a, docker) == ReconcileChanges(b, docker)
  {
  }

  lemma ReconciledAlike(m: Network, n: Network, d: DockerNetwork, pick: map<string, string>)
    requires AlikeNetwork(m, n)
    ensures AlikeNetwork(ReconciledNetwork(m, d, pick), ReconciledNetwork(n, d, pick))
  {
  }

  lemma ReconcileAlike(a: Networks, b: Networks, docker: DockerNets, picks: Picks)
    requires Alike(a, b) && picks.Keys == docker.Keys
    ensures Alike(ReconcileIn(a, docker, picks), ReconcileIn(b, docker, picks))
  {
    OrphansAlike(a, b, docker);
    forall id | id in docker && (id in a || docker[id].options.Good?)
      ensures AlikeNetwork(ReconciledNetwork(Existing(a, docker[id], id), docker[id], picks[id]),
                           ReconciledNetwork(Existing(b, docker[id], id), docker[id], picks[id]))
    {
      ReconciledAlike(Existing(a, docker[id], id), Existing(b, docker[id], id), docker[id], picks[id]);
    }
  }

  lemma NormValues(a: Networks, b: Networks)
    requires Alike(a, b)
    ensures (set s | s in a.Values :: NormNetwork(s)) <= (set s | s in b.Values :: NormNetwork(s))
  {
    forall s | s in a.Values ensures NormNetwork(s) in (set x | x in b.Values :: NormNetwork(x)) {
      var id :| id in a && a[id] == s;
      assert AlikeNetwork(a[id], b[id]) && b[id] in b.Values;
      assert NormNetwork(b[id]) == NormNetwork(s);
    }
  }

  ghost predicate SameEffect(x: Effect, y: Effect) {
    Alike(x.nets, y.nets) && x.saves == y.saves && NormAnswer(x.answer) == NormAnswer(y.answer)
  }

  lemma QueryAlike(a: Networks, b: Networks, t: Timed)
    requires Alike(a, b)
    requires t.op.Get? || t.op.GetMetadata? || t.op.GetAll? || t.op.GetEndpoint?
    ensures SameEffect(Step(a, t), Step(b, t))
  {
    if t.op.GetAll? {
      NormValues(a, b);
      NormValues(b, a);
    }
  }

  lemma EndpointOpAlike(a: Networks, b: Networks, t: Timed)
    requires Alike(a, b)
    requires t.op.SetEndpoint? || t.op.DeleteEndpoint?
    ensures SameEffect(Step(a, t), Step(b, t))
  {
    hide SetEndpointIn, DeleteEndpointIn, AlikeNetwork;
    if t.op.net in a {
      if t.op.SetEndpoint? {
        SetEndpointAlike(a, b, t.op.net, t.op.endpoint);
      } else {
        DeleteEndpointAlike(a, b, t.op.net, t.op.ep);
      }
    }
  }

  lemma NetworkOpAlike(a: Networks, b: Networks, t: Timed)
    requires Alike(a, b)
    requires t.op.SetMetadata? || t.op.Set? || t.op.Delete?
    ensures SameEffect(Step(a, t), Step(b, t))
  {
    match t.op
    case SetMetadata(net, ep, meta) =>
      var stamped := if meta.createdAt == 0 then meta.(createdAt := t.now) else meta;
      SetMetadataAlike(a, b, net, ep, stamped);
    case Set(state) => SetAlike(a, b, state);
    case Delete(_) =>
  }

  lemma SweepAlike(a: Networks, b: Networks, t: Timed)
    requires Alike(a, b) && t.op.PruneMetadata?
    ensures SameEffect(Step(a, t), Step(b, t))
  {
    PruneAlike(a, b, t.now, t.op.maxAge);
  }

  lemma ReconcileOpAlike(a: Networks, b: Networks, t: Timed)
    requires Alike(a, b) && ValidOp(t.op) && t.op.Reconcile?
    ensures SameEffect(Step(a, t), Step(b, t))
  {
    hide ReconcileIn, ReconcileChanges, Kept, Orphans, AlikeNetwork;
    OrphansAlike(a, b, t.op.docker);
    ReconcileAlike(a, b, t.op.docker, t.op.picks);
  }

  /** One operation with the same arguments: same answer up to nil maps, same decision to save, alike afterwards. */
  lemma {:induction false} StepAlike(a: Networks, b: Networks, t: Timed)
    requires Alike(a, b) && ValidOp(t.op)
    ensures SameEffect(Step(a, t), Step(b, t))
  {
    if t.op.PruneMetadata? {
      SweepAlike(a, b, t);
    } else if t.op.Reconcile? {
      ReconcileOpAlike(a, b, t);
    } else if t.op.SetEndpoint? || t.op.DeleteEndpoint? {
      EndpointOpAlike(a, b, t);
    } else if t.op.SetMetadata? || t.op.Set? || t.op.Delete? {
      NetworkOpAlike(a, b, t);
    } else {
      QueryAlike(a, b, t);
    }
  }

  /** A run: the networks at the end, the file, and every answer with the decision to save. */
  datatype Trace = Trace(nets: Networks, file: Networks, answers: seq<(Answer, bool)>)

  ghost predicate ValidRun(ts: seq<Timed>) {
    forall i :: 0 <= i < |ts| ==> ValidOp(ts[i].op)
  }

  function Run(start: Networks, ts: seq<Timed>): (r: Trace)
    requires ValidRun(ts)
  {
    if ts == [] then Trace(start, Snapshot(start), [])
    else
      var before := Run(start, ts[..|ts| - 1]);
      var e := Step(before.nets, ts[|ts| - 1]);
      Trace(e.nets, if e.saves then Snapshot(e.nets) else before.file,
            before.answers + [(NormAnswer(e.answer), e.saves)])
  }

  /**
   Reload bisimulation: a cache that was saved and loaded gives, for every further sequence of
   operations, the same answers, the same saves and the same file as the original.
   */
  lemma {:induction false} ReloadBisimulation(nets: Networks, ts: seq<Timed>)
    requires ValidRun(ts)
    ensures var x, y := Run(nets, ts), Run(Snapshot(nets), ts);
            Alike(x.nets, y.nets) && x.answers == y.answers && x.file == y.file
  {
    if ts == [] {
      SnapshotAlike(nets);
      AlikeIsSameFile(nets, Snapshot(nets));
    } else {
      var x, y := Run(nets, ts[..|ts| - 1]), Run(Snapshot(nets), ts[..|ts| - 1]);
      ReloadBisimulation(nets, ts[..|ts| - 1]);
      StepAlike(x.nets, y.nets, ts[|ts| - 1]);
      AlikeIsSameFile(Step(x.nets, ts[|ts| - 1]).nets, Step(y.nets, ts[|ts| - 1]).nets);
    }
  }

  // ---------------------------------------------------------------- reading back what was written

  /** What GetEndpoint and GetMetadata answer. */
  function Reads(nets: Networks, net: string, ep: string): (r: (Answer, Answer)) {
    (Step(nets, Timed(GetEndpoint(net, ep), 0)).answer, Step(nets, Timed(GetMetadata(net, ep), 0)).answer)
  }

  const NOTHING := (AnEndpoint(NO_ENDPOINT, false), AMetadata(NO_METADATA, false))

  /** A written endpoint or metadata entry reads back, and nothing else changes what reads say. */
  lemma WriteReadsBack(nets: Networks, net: string, e: Endpoint, meta: Metadata, now: int, at: string, ep: string)
    requires now != 0
    ensures var before := Reads(nets, at, ep);
            && Reads(Step(nets, Timed(SetEndpoint(net, e), now)).nets, at, ep) ==
                 (if net in nets && (at, ep) == (net, e.id) then (AnEndpoint(e, true), before.1) else before)
            && var stamped := if meta.createdAt == 0 then meta.(createdAt := now) else meta;
               stamped.createdAt != 0 &&
               Reads(Step(nets, Timed(SetMetadata(net, e.id, meta), now)).nets, at, ep) ==
                 (if (at, ep) == (net, e.id) then (before.0, AMetadata(stamped, true)) else before)
  {
  }

  /** A deleted endpoint or network reads as missing, and nothing else changes what reads say. */
  lemma DeleteReadsNothing(nets: Networks, net: string, gone: string, now: int, at: string, ep: string)
    ensures Reads(Step(nets, Timed(DeleteEndpoint(net, gone), now)).nets, at, ep) ==
              if (at, ep) == (net, gone) then NOTHING else Reads(nets, at, ep)
    ensures Reads(Step(nets, Timed(Delete(net), now)).nets, at, ep) ==
              if at == net then NOTHING else Reads(nets, at, ep)
  {
  }

  /** Setting a network with nil maps - as the plugin does on every option lookup - keeps what is cached below it. */
  lemma SetKeepsEntries(nets: Networks, state: Network, now: int, at: string, ep: string)
    requires state.endpoints.NilMap? && state.metadataMap.NilMap?
    ensures var after := Step(nets, Timed(Set(state), now)).nets;
            && Reads(after, at, ep) == Reads(nets, at, ep)
            && after.Keys == nets.Keys + {state.id} && after[state.id].options == state.options
            && after[state.id].endpoints.Made? == (state.id in nets ==> nets[state.id].endpoints.Made?)
  {
  }

  ghost predicate Holds(nets: Networks, net: string, e: Endpoint) {
    net in nets && e.id in Entries(nets[net].endpoints) && Entries(nets[net].endpoints)[e.id] == e
  }

  /** Operations that leave the cached entry `e` of `net` standing as it is. */
  predicate Spares(op: Op, net: string, e: Endpoint) {
    match op
    case Set(state) => state.id == net && state.endpoints.Made? ==>
                         e.id in state.endpoints.entries && state.endpoints.entries[e.id] == e
    case SetEndpoint(n, f) => n == net && f.id == e.id ==> f == e
    case DeleteEndpoint(n, ep) => !(n == net && ep == e.id)
    case Delete(id) => id != net
    case Reconcile(docker, _) => if net in docker then e.id in Active(docker[net].containers) else net == "global"
    case _ => true
  }

  lemma StepSpares(nets: Networks, t: Timed, net: string, e: Endpoint)
    requires ValidOp(t.op) && Holds(nets, net, e)
    ensures Holds(Step(nets, t).nets, net, e) <==> Spares(t.op, net, e)
  {
    hide ReconcileChanges;
  }

  /** A cached endpoint stands, across any operations that spare it and also across a restart. */
  lemma {:induction false} EntryStands(nets: Networks, ts: seq<Timed>, net: string, e: Endpoint)
    requires ValidRun(ts) && Holds(nets, net, e)
    requires forall i :: 0 <= i < |ts| ==> Spares(ts[i].op, net, e)
    ensures Holds(Run(nets, ts).nets, net, e) && Holds(Snapshot(Run(nets, ts).nets), net, e)
  {
    if ts != [] {
      EntryStands(nets, ts[..|ts| - 1], net, e);
      StepSpares(Run(nets, ts[..|ts| - 1]).nets, ts[|ts| - 1], net, e);
    }
  }

  // ---------------------------------------------------------------- entries are filed under their own IDs

  ghost predicate FiledEndpoints(m: GoMap<Endpoint>) {
    forall ep :: ep in Entries(m) ==> Entries(m)[ep].id == ep
  }

  ghost predicate Filed(nets: Networks) {
    forall id :: id in nets ==> nets[id].id == id && FiledEndpoints(nets[id].endpoints)
  }

  /** Callers that hand `Set` an endpoint map hand it a filed one; the plugin's own callers pass nil. */
  ghost predicate FiledOp(op: Op) {
    op.Set? ==> FiledEndpoints(op.state.endpoints)
  }

  lemma ReconcileFiled(nets: Networks, docker: DockerNets, picks: Picks)
    requires Filed(nets) && picks.Keys == docker.Keys
    ensures Filed(ReconcileIn(nets, docker, picks))
  {
    forall id | id in Kept(nets, docker)
      ensures var n := ReconcileIn(nets, docker, picks)[id]; n.id == id && FiledEndpoints(n.endpoints)
    {
      if id in docker {
        var n := Existing(nets, docker[id], id);
        assert n.id == id && FiledEndpoints(n.endpoints);
        assert FiledEndpoints(DropKeys(n.endpoints, Orphans(n, docker[id])));
      }
    }
  }

  lemma PruneFiled(nets: Networks, now: int, maxAge: int)
    requires Filed(nets)
    ensures Filed(PruneMetadataIn(nets, now, maxAge))
  {
  }

  lemma WriteFiled(nets: Networks, net: string, ep: string, meta: Metadata, e: Endpoint)
    requires Filed(nets)
    ensures Filed(SetMetadataIn(nets, net, ep, meta))
    ensures net in nets ==> Filed(SetEndpointIn(nets, net, e)) && Filed(DeleteEndpointIn(nets, net, ep))
  {
  }

  lemma SetFiled(nets: Networks, state: Network)
    requires Filed(nets) && FiledEndpoints(state.endpoints)
    ensures Filed(SetIn(nets, state))
  {
  }

  /** Every operation keeps each network and endpoint under the key that is its own ID. */
  lemma StepFiled(nets: Networks, t: Timed)
    requires Filed(nets) && ValidOp(t.op) && FiledOp(t.op)
    ensures Filed(Step(nets, t).nets)
  {
    hide SetMetadataIn, PruneMetadataIn, SetIn, SetEndpointIn, DeleteEndpointIn, ReconcileIn, ReconcileChanges, Expired;
    match t.op
    case SetMetadata(net, ep, meta) =>
      var stamped := if meta.createdAt == 0 then meta.(createdAt := t.now) else meta;
      WriteFiled(nets, net, ep, stamped, NO_ENDPOINT);
    case PruneMetadata(maxAge) => PruneFiled(nets, t.now, maxAge);
    case Set(state) => SetFiled(nets, state);
    case SetEndpoint(net, e) => WriteFiled(nets, net, "", NO_METADATA, e);
    case DeleteEndpoint(net, ep) => WriteFiled(nets, net, ep, NO_METADATA, NO_ENDPOINT);
    case Delete(_) =>
    case Reconcile(docker, picks) => ReconcileFiled(nets, docker, picks);
    case _ =>
  }

  // ---------------------------------------------------------------- what an unsaved step may change

  /** The networks as the file holds them, leaving out the container maps. */
  function Forget(nets: Networks): (r: Networks) {
    map id | id in nets :: NormNetwork(nets[id]).(containerMap := NilMap)
  }

  ghost predicate SameButContainers(a: Networks, b: Networks) {
    && a.Keys == b.Keys
    && forall id :: id in a ==> a[id].(containerMap := NilMap) == b[id].(containerMap := NilMap)
  }

  lemma SameForgotten(a: Networks, b: Networks)
    requires SameButContainers(a, b)
    ensures Forget(a) == Forget(b)
  {
  }

  lemma {:induction false} UnchangedReconcile(nets: Networks, docker: DockerNets, picks: Picks)
    requires picks.Keys == docker.Keys && !ReconcileChanges(nets, docker)
    ensures SameButContainers(ReconcileIn(nets, docker, picks), nets)
    ensures forall id :: id in nets && id in docker ==>
              ReconcileIn(nets, docker, picks)[id] == nets[id].(containerMap := Made(picks[id]))
  {
    assert Kept(nets, docker) == nets.Keys;
    forall id | id in nets && id in docker
      ensures ReconciledNetwork(nets[id], docker[id], picks[id]) == nets[id].(containerMap := Made(picks[id]))
    {
      DropNothing(nets[id].endpoints, Orphans(nets[id], docker[id]));
      DropNothing(nets[id].metadataMap, Orphans(nets[id], docker[id]));
    }
  }

  /** The `changed` flags are complete: an operation that does not save changes nothing but container maps. */
  lemma {:induction false} UnsavedStepForgets(nets: Networks, t: Timed)
    requires ValidOp(t.op) && !Step(nets, t).saves
    ensures SameButContainers(Step(nets, t).nets, nets)
    ensures !t.op.Reconcile? ==> Step(nets, t).nets == nets
  {
    match t.op
    case PruneMetadata(maxAge) =>
      forall id | id in nets
        ensures DropKeys(nets[id].metadataMap, Expired(nets[id].metadataMap, t.now, maxAge)) == nets[id].metadataMap
      {
        DropNothing(nets[id].metadataMap, Expired(nets[id].metadataMap, t.now, maxAge));
      }
      assert PruneMetadataIn(nets, t.now, maxAge) == nets;
    case Reconcile(docker, picks) => UnchangedReconcile(nets, docker, picks);
    case _ =>
  }

  lemma UnsavedForPicks(nets: Networks, docker: DockerNets, picks: Picks)
    requires picks.Keys == docker.Keys && !ReconcileChanges(nets, docker)
    ensures Snapshot(ReconcileIn(nets, docker, picks)) == Snapshot(nets) <==>
            forall id :: id in nets && id in docker ==> Entries(nets[id].containerMap) == picks[id]
  {
    hide ReconcileChanges, Snapshot;
    UnchangedReconcile(nets, docker, picks);
    AlikeIsSameFile(ReconcileIn(nets, docker, picks), nets);
  }

  // ---------------------------------------------------------------- reconciliation

  /** Reconciliation is exact: which networks, endpoints and metadata keys survive, and with what values. */
  lemma ReconcileExact(nets: Networks, docker: DockerNets, picks: Picks, id: string)
    requires picks.Keys == docker.Keys
    ensures var after := ReconcileIn(nets, docker, picks);
            && (id in after <==>
                  (id == "global" && id in nets) || (id in docker && (id in nets || docker[id].options.Good?)))
            && (id in after && id in nets && id in docker ==>
                  && (forall ep :: ep in Entries(after[id].endpoints) <==>
                        ep in Entries(nets[id].endpoints) && ep != ""
                        && exists c :: c in docker[id].containers && docker[id].containers[c] == ep)
                  && (forall ep :: ep in Entries(after[id].endpoints) ==>
                        Entries(after[id].endpoints)[ep] == Entries(nets[id].endpoints)[ep])
                  && (forall k :: k in Entries(nets[id].metadataMap) ==>
                        (k !in Entries(after[id].metadataMap) <==>
                           k in Entries(nets[id].endpoints) && k !in Entries(after[id].endpoints)))
                  && (forall k :: k in Entries(after[id].metadataMap) ==>
                        k in Entries(nets[id].metadataMap)
                        && Entries(after[id].metadataMap)[k] == Entries(nets[id].metadataMap)[k]))
            && (id in after && id !in docker ==> after[id] == nets[id])
            && (id in after && id !in nets ==>
                  Entries(after[id].endpoints) == map[] && Entries(after[id].metadataMap) == map[])
  {
    if id in nets && id in docker {
      var n, d := nets[id], docker[id];
      var r := ReconciledNetwork(n, d, picks[id]);
      assert forall ep :: ep in Entries(r.endpoints) <==> ep in Entries(n.endpoints) && ep in Active(d.containers);
      assert forall k :: k in Entries(r.metadataMap) <==> k in Entries(n.metadataMap) && k !in Orphans(n, d);
    }
  }

  ghost predicate Distinct(containers: map<string, string>) {
    forall c, d :: c in containers && d in containers && containers[c] == containers[d] ==> c == d
  }

  ghost predicate ValidPicks(docker: DockerNets, picks: Picks) {
    && picks.Keys == docker.Keys
    && forall id :: id in docker ==> IsInverse(picks[id], docker[id].containers)
  }

  lemma InverseUnique(m: map<string, string>, n: map<string, string>, containers: map<string, string>)
    requires IsInverse(m, containers) && IsInverse(n, containers) && Distinct(containers)
    ensures m == n
  {
    forall ep | ep in m ensures m[ep] == n[ep] {
      assert containers[m[ep]] == containers[n[ep]];
    }
  }

  ghost function SomeInverse(containers: map<string, string>): (r: map<string, string>)
    ensures IsInverse(r, containers)
  {
    map ep | ep in containers.Values :: var c :| c in containers && containers[c] == ep; c
  }

  /** Two containers sharing an endpoint ID leave a choice of which one it is mapped to. */
  ghost function Swapped(m: map<string, string>, containers: map<string, string>, c: string, d: string)
    : (r: map<string, string>)
    requires IsInverse(m, containers)
    requires c in containers && d in containers && c != d && containers[c] == containers[d]
    ensures IsInverse(r, containers) && r != m
  {
    var ep := containers[c];
    var r := m[ep := if m[ep] == c then d else c];
    assert r[ep] != m[ep] && r.Keys == m.Keys;
    r
  }

  ghost predicate FileStays(nets: Networks, docker: DockerNets, picks: Picks)
    requires picks.Keys == docker.Keys
  {
    Snapshot(ReconcileIn(nets, docker, picks)) == Snapshot(nets)
  }

  /**
   A reconciliation that does not save leaves the file stale, seen from its inputs: the file stays current in
   every order of traversal exactly when each cached container map is already an inverse of the listed
   containers and no two of these share an endpoint ID, and in some order exactly when each is an inverse.
   */
  lemma {:induction false} UnsavedReconcileStale(nets: Networks, docker: DockerNets)
    requires !ReconcileChanges(nets, docker)
    ensures (forall picks :: ValidPicks(docker, picks) ==> FileStays(nets, docker, picks)) <==>
            (forall id :: id in nets && id in docker ==>
               IsInverse(Entries(nets[id].containerMap), docker[id].containers) && Distinct(docker[id].containers))
    ensures (exists picks :: ValidPicks(docker, picks) && FileStays(nets, docker, picks)) <==>
            (forall id :: id in nets && id in docker ==>
               IsInverse(Entries(nets[id].containerMap), docker[id].containers))
  {
    hide ReconcileChanges, ReconcileIn, Snapshot, IsInverse;
    forall picks | ValidPicks(docker, picks)
      ensures FileStays(nets, docker, picks) <==>
              forall id :: id in nets && id in docker ==> Entries(nets[id].containerMap) == picks[id]
    {
      UnsavedForPicks(nets, docker, picks);
    }
    var some: Picks := map id | id in docker :: SomeInverse(docker[id].containers);
    assert ValidPicks(docker, some);
    if forall id :: id in nets && id in docker ==> IsInverse(Entries(nets[id].containerMap), docker[id].containers) {
      var cached: Picks := map id | id in docker :: if id in nets then Entries(nets[id].containerMap) else some[id];
      assert ValidPicks(docker, cached) && FileStays(nets, docker, cached);
    }
    EveryOrder(nets, docker, some);
  }

  lemma {:induction false} EveryOrder(nets: Networks, docker: DockerNets, some: Picks)
    requires ValidPicks(docker, some)
    ensures (forall picks, id :: ValidPicks(docker, picks) && id in nets && id in docker ==>
               Entries(nets[id].containerMap) == picks[id]) <==>
            (forall id :: id in nets && id in docker ==>
               IsInverse(Entries(nets[id].containerMap), docker[id].containers) && Distinct(docker[id].containers))
  {
    hide IsInverse;
    forall id | id in nets && id in docker && IsInverse(Entries(nets[id].containerMap), docker[id].containers)
                && Distinct(docker[id].containers)
      ensures forall picks :: ValidPicks(docker, picks) ==> Entries(nets[id].containerMap) == picks[id]
    {
      forall picks | ValidPicks(docker, picks) ensures Entries(nets[id].containerMap) == picks[id] {
        InverseUnique(Entries(nets[id].containerMap), picks[id], docker[id].containers);
      }
    }
    forall id, c, d | id in nets && id in docker && c in docker[id].containers && d in docker[id].containers
                      && c != d && docker[id].containers[c] == docker[id].containers[d]
      ensures exists picks :: ValidPicks(docker, picks) && picks[id] != some[id]
    {
      assert ValidPicks(docker, some[id := Swapped(some[id], docker[id].containers, c, d)]);
    }
  }

  /** After a reconciliation there is nothing left to prune, drop or add: a second one never saves. */
  lemma SecondReconcileQuiet(nets: Networks, docker: DockerNets, picks: Picks)
    requires picks.Keys == docker.Keys
    ensures !ReconcileChanges(ReconcileIn(nets, docker, picks), docker)
  {
    var after := ReconcileIn(nets, docker, picks);
    forall id | id in docker && id in after ensures Orphans(after[id], docker[id]) == {} {
      var n := Existing(nets, docker[id], id);
      assert after[id].endpoints == DropKeys(n.endpoints, Orphans(n, docker[id]));
    }
  }

  /**
   Reconciliation is idempotent: a second run on the same listing changes nothing, whatever order
   it visits the containers in, exactly when no two containers of a kept network share an endpoint ID.
   */
  lemma {:induction false} ReconcileIdempotent(nets: Networks, docker: DockerNets, picks: Picks)
    requires ValidPicks(docker, picks)
    ensures var after := ReconcileIn(nets, docker, picks);
            && !ReconcileChanges(after, docker)
            && ((forall again :: ValidPicks(docker, again) ==> ReconcileIn(after, docker, again) == after) <==>
                (forall id :: id in docker && id in Kept(nets, docker) ==> Distinct(docker[id].containers)))
  {
    hide ReconcileChanges, IsInverse;
    var after := ReconcileIn(nets, docker, picks);
    SecondReconcileQuiet(nets, docker, picks);
    if forall id :: id in docker && id in after ==> Distinct(docker[id].containers) {
      forall again | ValidPicks(docker, again) ensures ReconcileIn(after, docker, again) == after {
        UnchangedReconcile(after, docker, again);
        forall id | id in docker && id in after ensures again[id] == picks[id] {
          InverseUnique(again[id], picks[id], docker[id].containers);
        }
      }
    } else {
      var id, c, d :| id in docker && id in after && c in docker[id].containers && d in docker[id].containers
        && docker[id].containers[c] == docker[id].containers[d] && c != d;
      SharedEndpointFlips(nets, docker, picks, id, c, d);
    }
  }

  lemma SharedEndpointFlips(nets: Networks, docker: DockerNets, picks: Picks, id: string, c: string,
                            d: string)
    requires ValidPicks(docker, picks) && id in docker && id in ReconcileIn(nets, docker, picks)
    requires c in docker[id].containers && d in docker[id].containers && c != d
    requires docker[id].containers[c] == docker[id].containers[d]
    ensures var after := ReconcileIn(nets, docker, picks);
            exists again :: ValidPicks(docker, again) && ReconcileIn(after, docker, again) != after
  {
    var after := ReconcileIn(nets, docker, picks);
    var again := picks[id := Swapped(picks[id], docker[id].containers, c, d)];
    assert ValidPicks(docker, again);
    SecondReconcileQuiet(nets, docker, picks);
    UnchangedReconcile(after, docker, again);
    assert after[id].containerMap == Made(picks[id]);
    assert ReconcileIn(after, docker, again)[id].containerMap == Made(again[id]);
  }
}
