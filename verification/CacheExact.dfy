/**
 Exactly what each cache operation answers and changes, field by field, and exactly when it saves
 (pkg/plugin/cache.go:108-370).
 */
module CacheExact {
  import opened CacheSpec
  import opened CacheRuns

  /** The queries: what is cached, with nil maps read and handed out as empty ones, and nothing else. */
  lemma QueriesExact(nets: Networks, net: string, ep: string, now: int)
    ensures var q := Step(nets, Timed(Get(net), now));
            && q.nets == nets && !q.saves
            && (net !in nets ==> q.answer == ANetwork(Network("", NO_OPTIONS, NilMap, NilMap, NilMap), false))
            && (net in nets ==>
                  && q.answer == ANetwork(q.answer.state, true)
                  && q.answer.state.id == nets[net].id && q.answer.state.options == nets[net].options
                  && q.answer.state.containerMap == nets[net].containerMap
                  && q.answer.state.endpoints ==
                     (if nets[net].endpoints == NilMap then Made(map[]) else nets[net].endpoints)
                  && q.answer.state.metadataMap ==
                     (if nets[net].metadataMap == NilMap then Made(map[]) else nets[net].metadataMap))
    ensures var q := Step(nets, Timed(GetAll, now)); q == Effect(nets, false, All(nets.Values))
    ensures var q := Step(nets, Timed(GetEndpoint(net, ep), now));
            q == Effect(nets, false,
                        if net in nets && nets[net].endpoints.Made? && ep in nets[net].endpoints.entries
                        then AnEndpoint(nets[net].endpoints.entries[ep], true)
                        else AnEndpoint(Endpoint("", "", "", "", "", "", "", ""), false))
    ensures var q := Step(nets, Timed(GetMetadata(net, ep), now));
            q == Effect(nets, false,
                        if net in nets && nets[net].metadataMap.Made? && ep in nets[net].metadataMap.entries
                        then AMetadata(nets[net].metadataMap.entries[ep], true)
                        else AMetadata(Metadata("", "", 0), false))
  {
  }

  /** Set stores the given state under its ID, with cached maps in the place of nil ones, and always saves. */
  lemma SetExact(nets: Networks, s: Network, now: int)
    ensures var e := Step(nets, Timed(Set(s), now));
            && e.saves && e.nets.Keys == nets.Keys + {s.id}
            && (forall id :: id in nets && id != s.id ==> e.nets[id] == nets[id])
            && var r := e.nets[s.id];
               && r.id == s.id && r.options == s.options && r.containerMap == s.containerMap
               && (s.endpoints.Made? ==> r.endpoints == s.endpoints)
               && (s.endpoints.NilMap? ==> r.endpoints == if s.id in nets then nets[s.id].endpoints else Made(map[]))
               && (s.metadataMap.Made? ==> r.metadataMap == s.metadataMap)
               && (s.metadataMap.NilMap? ==>
                     r.metadataMap == if s.id in nets then nets[s.id].metadataMap else Made(map[]))
  {
  }

  /** SetEndpoint touches one endpoint of one network and saves; of a network that is not cached it knows nothing. */
  lemma SetEndpointExact(nets: Networks, net: string, e: Endpoint, now: int)
    ensures var r := Step(nets, Timed(SetEndpoint(net, e), now));
            if net !in nets then r == Effect(nets, false, NotFound)
            else
              && r.saves && r.answer == Silent
              && r.nets == nets[net := nets[net].(endpoints := r.nets[net].endpoints)]
              && r.nets[net].endpoints.Made?
              && forall k ::
                   && (k in r.nets[net].endpoints.entries <==>
                         k == e.id || (nets[net].endpoints.Made? && k in nets[net].endpoints.entries))
                   && (k in r.nets[net].endpoints.entries ==>
                         r.nets[net].endpoints.entries[k] == if k == e.id then e else nets[net].endpoints.entries[k])
  {
  }

  /** `r` is `m` without the key; a nil map stays nil. */
  ghost predicate Without<V>(m: GoMap<V>, key: string, r: GoMap<V>) {
    && (m.NilMap? <==> r.NilMap?)
    && (m.Made? ==> forall k ::
          && (k in r.entries <==> k in m.entries && k != key)
          && (k in r.entries ==> r.entries[k] == m.entries[k]))
  }

  /** DeleteEndpoint drops one endpoint and its metadata and saves, if its network is cached. */
  lemma DeleteEndpointExact(nets: Networks, net: string, ep: string, now: int)
    ensures var r := Step(nets, Timed(DeleteEndpoint(net, ep), now));
            && r.answer == Silent
            && if net !in nets then r.nets == nets && !r.saves
               else
                 && r.saves
                 && r.nets == nets[net := nets[net].(endpoints := r.nets[net].endpoints,
                                                     metadataMap := r.nets[net].metadataMap)]
                 && Without(nets[net].endpoints, ep, r.nets[net].endpoints)
                 && Without(nets[net].metadataMap, ep, r.nets[net].metadataMap)
  {
  }

  /** Delete drops one network and saves, whether or not it is cached. */
  lemma DeleteExact(nets: Networks, id: string, now: int)
    ensures var r := Step(nets, Timed(Delete(id), now));
            && r.saves && r.answer == Silent && r.nets.Keys == nets.Keys - {id}
            && forall k :: k in r.nets ==> r.nets[k] == nets[k]
  {
  }

  /**
   SetMetadata touches one metadata key of one network, making a placeholder network if there is none. An entry
   without a time of creation gets the time of the call.
   */
  lemma SetMetadataExact(nets: Networks, net: string, ep: string, meta: Metadata, now: int)
    ensures var e := Step(nets, Timed(SetMetadata(net, ep, meta), now));
            && e.saves && e.nets.Keys == nets.Keys + {net}
            && (forall id :: id in nets && id != net ==> e.nets[id] == nets[id])
            && e.nets[net] == (if net in nets then nets[net] else Network(net, NO_OPTIONS, Made(map[]), NilMap, NilMap))
                                .(metadataMap := e.nets[net].metadataMap)
            && e.nets[net].metadataMap.Made?
            && forall k ::
                 && (k in e.nets[net].metadataMap.entries <==>
                       || k == ep
                       || (net in nets && nets[net].metadataMap.Made? && k in nets[net].metadataMap.entries))
                 && (k in e.nets[net].metadataMap.entries ==>
                       e.nets[net].metadataMap.entries[k] ==
                       if k != ep then nets[net].metadataMap.entries[k]
                       else if meta.createdAt == 0 then Metadata(meta.name, meta.hostname, now) else meta)
  {
    var before := if net in nets then nets[net] else Network(net, NO_OPTIONS, Made(map[]), NilMap, NilMap);
    assert Step(nets, Timed(SetMetadata(net, ep, meta), now)).nets[net].metadataMap.entries ==
           Entries(before.metadataMap)[ep := if meta.createdAt == 0 then meta.(createdAt := now) else meta];
  }

  /** PruneMetadata drops exactly the metadata older than `maxAge`, keeps all else, and saves if there was any. */
  lemma PruneMetadataExact(nets: Networks, maxAge: int, now: int)
    ensures var e := Step(nets, Timed(PruneMetadata(maxAge), now));
            && e.nets.Keys == nets.Keys
            && (e.saves <==> exists id, ep :: id in nets && nets[id].metadataMap.Made?
                               && ep in nets[id].metadataMap.entries
                               && now - nets[id].metadataMap.entries[ep].createdAt > maxAge)
            && forall id :: id in nets ==>
                 && e.nets[id] == nets[id].(metadataMap := e.nets[id].metadataMap)
                 && (e.nets[id].metadataMap.Made? <==> nets[id].metadataMap.Made?)
                 && (nets[id].metadataMap.Made? ==>
                       forall ep ::
                         && (ep in e.nets[id].metadataMap.entries <==>
                               ep in nets[id].metadataMap.entries
                               && now - nets[id].metadataMap.entries[ep].createdAt <= maxAge)
                         && (ep in e.nets[id].metadataMap.entries ==>
                               e.nets[id].metadataMap.entries[ep] == nets[id].metadataMap.entries[ep]))
  {
    var e := Step(nets, Timed(PruneMetadata(maxAge), now));
    forall id, ep | id in nets && nets[id].metadataMap.Made? && ep in nets[id].metadataMap.entries
      ensures ep in Expired(nets[id].metadataMap, now, maxAge) <==>
              now - nets[id].metadataMap.entries[ep].createdAt > maxAge
    {
    }
  }

  /**
   What a reconciliation over a listing leaves: a cached network stays if it is "global" or the plugin's driver is
   listed with it, a listed one with options that decode is added with exactly these, and every listed one that is
   kept gets the listed containers as its container map and keeps its options.
   */
  lemma ReconcileListed(nets: Networks, listed: seq<DockerNetwork>, picks: Picks, id: string, i: int)
    requires ValidPicks(PluginNetworks(listed), picks)
    ensures var after := ReconcileIn(nets, PluginNetworks(listed), picks);
            && (id in after <==>
                  || (id in nets && (id == "global" || exists j :: LastListed(listed, id, j)))
                  || exists j :: LastListed(listed, id, j) && listed[j].options.Good?)
            && (LastListed(listed, id, i) && id in after ==>
                  && id in picks && after[id].containerMap == Made(picks[id])
                  && IsInverse(picks[id], listed[i].containers)
                  && (id in nets ==> after[id].id == nets[id].id && after[id].options == nets[id].options)
                  && (id !in nets ==>
                        listed[i].options.Good? &&
                        after[id] == Network(id, listed[i].options.value, Made(map[]), Made(picks[id]), NilMap)))
  {
    hide PluginNetworks, LastListed, IsInverse;
    NetworksListed(listed, id);
  }

  /** A reconciliation saves exactly when it changes something besides container maps. */
  lemma ReconcileSavesIff(nets: Networks, docker: DockerNets, picks: Picks)
    requires ValidPicks(docker, picks)
    ensures Step(nets, Timed(Reconcile(docker, picks), 0)).saves <==>
            !SameButContainers(Step(nets, Timed(Reconcile(docker, picks), 0)).nets, nets)
  {
    var after := ReconcileIn(nets, docker, picks);
    if !ReconcileChanges(nets, docker) {
      UnsavedStepForgets(nets, Timed(Reconcile(docker, picks), 0));
    } else if id :| id in docker && id in nets && Orphans(nets[id], docker[id]) != {} {
      var ep :| ep in Orphans(nets[id], docker[id]);
      assert ep in Entries(nets[id].endpoints) && ep !in Entries(after[id].endpoints);
      assert after[id].(containerMap := NilMap) != nets[id].(containerMap := NilMap);
    } else if id :| id in nets && id != "global" && id !in docker {
      assert id !in after;
    } else {
      var id :| id in docker && id !in nets && docker[id].options.Good?;
      assert id in after;
    }
  }
}
