/**
 The cache object: a map changed in place and mirrored to disk through a temporary file and a
 rename (pkg/plugin/cache.go:47-370). The mutex is held for the whole of every method.
 */
module NetworkCache {
  import opened CacheSpec

  /**
   A file: not there, partly written, holding a whole snapshot, or well-formed text with values of other types
   than expected, of which a parse yields some part before it fails.
   */
  datatype File = Absent | Torn | Whole(snap: Networks) | Mistyped(part: Networks)

  /** The first step of a save that fails, if any. */
  datatype Fault = NoFault | MkdirFails | OpenFails | FillFails | RenameFails(removeFails: bool)

  datatype Fs = Fs(path: File, tmp: File)

  /** A save's effect on the two files. */
  function Saved(fs: Fs, nets: Networks, fault: Fault): (r: Fs) {
    match fault
    case NoFault => Fs(Whole(Snapshot(nets)), Absent)
    case MkdirFails => fs
    case OpenFails => fs
    case FillFails => fs.(tmp := Torn)
    case RenameFails(removeFails) => fs.(tmp := if removeFails then Whole(Snapshot(nets)) else Absent)
  }

  function Loaded(f: File): (r: Networks) {
    match f
    case Whole(snap) => snap
    case Mistyped(part) => part
    case _ => map[]
  }

  lemma DropOneMore<V>(m: GoMap<V>, keys: set<string>, k: string)
    ensures m.Made? ==> DropKeys(m, keys + {k}) == Made(DropKeys(m, keys).entries - {k})
    ensures m.NilMap? ==> DropKeys(m, keys + {k}) == m
  {
    if m.Made? {
      assert m.entries - (keys + {k}) == m.entries - keys - {k};
    }
  }

  /** A reconciliation in progress: ghosts dropped, and every listed network outside `todo` brought up to date. */
  ghost predicate Partly(was: Networks, now: Networks, docker: DockerNets, picks: Picks,
                         todo: set<string>)
  {
    && todo <= docker.Keys && picks.Keys == docker.Keys - todo
    && (forall id :: id in picks ==> IsInverse(picks[id], docker[id].containers))
    && (forall id :: id in now <==>
          (id in was && (id == "global" || id in docker)) || (id in picks && docker[id].options.Good?))
    && (forall id :: id in now && id in picks ==>
          now[id] == ReconciledNetwork(Existing(was, docker[id], id), docker[id], picks[id]))
    && (forall id :: id in now && id !in picks ==> now[id] == was[id])
  }

  /** What has set the `changed` flag so far. */
  ghost predicate PartlyChanged(was: Networks, docker: DockerNets, todo: set<string>) {
    || (exists id :: id in was && id != "global" && id !in docker)
    || (exists id :: id in docker && id !in todo && id !in was && docker[id].options.Good?)
    || (exists id :: id in docker && id !in todo && id in was && Orphans(was[id], docker[id]) != {})
  }

  lemma PartlyDone(was: Networks, now: Networks, docker: DockerNets, picks: Picks)
    requires Partly(was, now, docker, picks, {})
    ensures picks.Keys == docker.Keys && now == ReconcileIn(was, docker, picks)
  {
    assert picks.Keys == docker.Keys;
    forall id ensures id in now <==> id in Kept(was, docker) {
    }
    assert now.Keys == ReconcileIn(was, docker, picks).Keys;
    forall id | id in now ensures now[id] == ReconcileIn(was, docker, picks)[id] {
    }
  }

  lemma PartlyKept(was: Networks, now: Networks, docker: DockerNets, picks: Picks,
                   todo: set<string>, id: string)
    requires Partly(was, now, docker, picks, todo) && id in todo
    ensures id in now <==> id in was
    ensures id in now ==> now[id] == was[id]
  {
  }

  lemma PartlyMore(was: Networks, now: Networks, docker: DockerNets, picks: Picks,
                   todo: set<string>, id: string, pick: map<string, string>)
    requires Partly(was, now, docker, picks, todo) && id in todo && IsInverse(pick, docker[id].containers)
    requires id in was || docker[id].options.Good?
    ensures Partly(was, now[id := ReconciledNetwork(Existing(was, docker[id], id), docker[id], pick)],
                   docker, picks[id := pick], todo - {id})
  {
  }

  lemma PartlySkip(was: Networks, now: Networks, docker: DockerNets, picks: Picks,
                   todo: set<string>, id: string, pick: map<string, string>)
    requires Partly(was, now, docker, picks, todo) && id in todo && IsInverse(pick, docker[id].containers)
    requires id !in was && docker[id].options.Bad?
    ensures Partly(was, now, docker, picks[id := pick], todo - {id})
  {
  }

  lemma PartlyChangedMore(was: Networks, docker: DockerNets, todo: set<string>, id: string)
    requires id in todo && id in docker
    ensures PartlyChanged(was, docker, todo - {id}) <==>
              || PartlyChanged(was, docker, todo)
              || (id !in was && docker[id].options.Good?)
              || (id in was && Orphans(was[id], docker[id]) != {})
  {
  }

  class Disk {
    var path: File
    var tmp: File

    constructor (fs: Fs)
      ensures path == fs.path && tmp == fs.tmp
    {
      path, tmp := fs.path, fs.tmp;
    }

    method WriteTmp(content: Networks, opens: bool, fills: bool) returns (ok: bool)
      modifies this`tmp
      ensures ok == (opens && fills)
      ensures tmp == if ok then Whole(content) else if opens then Torn else old(tmp)
    {
      if !opens {
        return false;
      }
      tmp := Torn;
      if !fills {
        return false;
      }
      tmp := Whole(content);
      return true;
    }

    method Rename(fails: bool) returns (ok: bool)
      modifies this
      ensures ok == !fails
      ensures if fails then path == old(path) && tmp == old(tmp) else path == old(tmp) && tmp == Absent
    {
      if fails {
        return false;
      }
      path, tmp := tmp, Absent;
      return true;
    }

    method RemoveTmp(fails: bool)
      modifies this`tmp
      ensures tmp == if fails then old(tmp) else Absent
    {
      if !fails {
        tmp := Absent;
      }
    }
  }

  class Cache {
    const disk: Disk
    var networks: Networks

    /** Loads what the file yields; an absent file, or one that is not well-formed, leaves the cache empty. */
    constructor (disk: Disk)
      ensures this.disk == disk && networks == Loaded(disk.path)
      ensures disk.path.Whole? ==> networks == disk.path.snap
      ensures disk.path.Mistyped? ==> networks == disk.path.part
      ensures disk.path in {Absent, Torn} ==> networks == map[]
    {
      this.disk := disk;
      networks := map[];
      if disk.path.Whole? {
        networks := disk.path.snap;
      } else if disk.path.Mistyped? {
        networks := disk.path.part;
      }
    }

    method Save(fault: Fault) returns (ok: bool)
      modifies disk
      ensures ok == fault.NoFault?
      ensures Fs(disk.path, disk.tmp) == Saved(old(Fs(disk.path, disk.tmp)), networks, fault)
    {
      var data := Snapshot(networks);
      if fault.MkdirFails? {
        return false;
      }
      ok := disk.WriteTmp(data, !fault.OpenFails?, !fault.FillFails?);
      if !ok {
        return;
      }
      ok := disk.Rename(fault.RenameFails?);
      if !ok {
        disk.RemoveTmp(fault.removeFails);
      }
    }

    method Get(id: string) returns (state: Network, ok: bool)
      ensures ANetwork(state, ok) == Step(networks, Timed(CacheSpec.Get(id), 0)).answer
    {
      if id !in networks {
        return NO_NETWORK, false;
      }
      state := networks[id];
      if state.endpoints.NilMap? {
        state := state.(endpoints := Made(map[]));
      }
      if state.metadataMap.NilMap? {
        state := state.(metadataMap := Made(map[]));
      }
      ok := true;
    }

    method GetEndpoint(net: string, ep: string) returns (e: Endpoint, ok: bool)
      ensures AnEndpoint(e, ok) == Step(networks, Timed(CacheSpec.GetEndpoint(net, ep), 0)).answer
    {
      if net !in networks || networks[net].endpoints.NilMap? || ep !in networks[net].endpoints.entries {
        return NO_ENDPOINT, false;
      }
      return networks[net].endpoints.entries[ep], true;
    }

    method GetMetadata(net: string, ep: string) returns (meta: Metadata, ok: bool)
      ensures AMetadata(meta, ok) == Step(networks, Timed(CacheSpec.GetMetadata(net, ep), 0)).answer
    {
      if net !in networks || networks[net].metadataMap.NilMap? || ep !in networks[net].metadataMap.entries {
        return NO_METADATA, false;
      }
      return networks[net].metadataMap.entries[ep], true;
    }

    /** All cached networks, in whatever order the map yields them. */
    method GetAll() returns (nets: seq<Network>)
      ensures |nets| == |networks|
      ensures All(set n | n in nets) == Step(networks, Timed(CacheSpec.GetAll, 0)).answer
    {
      nets := [];
      var todo := networks.Keys;
      while todo != {}
        invariant todo <= networks.Keys && |nets| + |todo| == |networks.Keys|
        invariant forall id :: id in networks && id !in todo ==> networks[id] in nets
        invariant forall n :: n in nets ==> n in networks.Values
        decreases todo
      {
        var id :| id in todo;
        todo := todo - {id};
        nets := nets + [networks[id]];
      }
      assert |networks| == |networks.Keys|;
      assert (set n | n in nets) == networks.Values;
    }

    method SetMetadata(net: string, ep: string, meta: Metadata, now: int, fault: Fault)
      modifies this, disk
      ensures networks == Step(old(networks), Timed(CacheSpec.SetMetadata(net, ep, meta), now)).nets
      ensures Fs(disk.path, disk.tmp) == Saved(old(Fs(disk.path, disk.tmp)), networks, fault)
    {
      var stamped := if meta.createdAt == 0 then meta.(createdAt := now) else meta;
      var n := if net in networks then networks[net] else Network(net, NO_OPTIONS, Made(map[]), NilMap, NilMap);
      if n.metadataMap.NilMap? {
        n := n.(metadataMap := Made(map[]));
      }
      networks := networks[net := n.(metadataMap := Made(n.metadataMap.entries[ep := stamped]))];
      var _ := Save(fault);
    }

    method Set(state: Network, fault: Fault) returns (ok: bool)
      modifies this, disk
      ensures ok == fault.NoFault?
      ensures networks == Step(old(networks), Timed(CacheSpec.Set(state), 0)).nets
      ensures Fs(disk.path, disk.tmp) == Saved(old(Fs(disk.path, disk.tmp)), networks, fault)
    {
      var s := state;
      if s.endpoints.NilMap? {
        s := s.(endpoints := if s.id in networks then networks[s.id].endpoints else Made(map[]));
      }
      if s.metadataMap.NilMap? {
        s := s.(metadataMap := if s.id in networks then networks[s.id].metadataMap else Made(map[]));
      }
      networks := networks[s.id := s];
      ok := Save(fault);
    }

    method SetEndpoint(net: string, e: Endpoint, fault: Fault) returns (ok: bool)
      modifies this, disk
      ensures ok == (net in old(networks) && fault.NoFault?)
      ensures networks == Step(old(networks), Timed(CacheSpec.SetEndpoint(net, e), 0)).nets
      ensures Fs(disk.path, disk.tmp) ==
              if net in old(networks) then Saved(old(Fs(disk.path, disk.tmp)), networks, fault)
              else old(Fs(disk.path, disk.tmp))
    {
      if net !in networks {
        return false;
      }
      var n := networks[net];
      if n.endpoints.NilMap? {
        n := n.(endpoints := Made(map[]));
      }
      networks := networks[net := n.(endpoints := Made(n.endpoints.entries[e.id := e]))];
      ok := Save(fault);
    }

    method DeleteEndpoint(net: string, ep: string, fault: Fault) returns (ok: bool)
      modifies this, disk
      ensures ok == (net in old(networks) ==> fault.NoFault?)
      ensures networks == Step(old(networks), Timed(CacheSpec.DeleteEndpoint(net, ep), 0)).nets
      ensures Fs(disk.path, disk.tmp) ==
              if net in old(networks) then Saved(old(Fs(disk.path, disk.tmp)), networks, fault)
              else old(Fs(disk.path, disk.tmp))
    {
      if net !in networks {
        return true;
      }
      var n := networks[net];
      if n.endpoints.Made? {
        n := n.(endpoints := Made(n.endpoints.entries - {ep}));
      }
      if n.metadataMap.Made? {
        n := n.(metadataMap := Made(n.metadataMap.entries - {ep}));
      }
      networks := networks[net := n];
      ok := Save(fault);
    }

    method Delete(id: string, fault: Fault) returns (ok: bool)
      modifies this, disk
      ensures ok == fault.NoFault?
      ensures networks == Step(old(networks), Timed(CacheSpec.Delete(id), 0)).nets
      ensures Fs(disk.path, disk.tmp) == Saved(old(Fs(disk.path, disk.tmp)), networks, fault)
    {
      networks := networks - {id};
      ok := Save(fault);
    }

    /** Removes the expired entries of one network's metadata, one by one. */
    static method PruneMap(m: GoMap<Metadata>, now: int, maxAge: int) returns (r: GoMap<Metadata>, changed: bool)
      ensures r == DropKeys(m, Expired(m, now, maxAge))
      ensures changed == (Expired(m, now, maxAge) != {})
    {
      if m.NilMap? {
        return m, false;
      }
      var entries, todo := m.entries, m.entries.Keys;
      changed := false;
      while todo != {}
        invariant todo <= entries.Keys
        invariant entries == m.entries - (Expired(m, now, maxAge) - todo)
        invariant changed == (Expired(m, now, maxAge) - todo != {})
        decreases todo
      {
        var ep :| ep in todo;
        todo := todo - {ep};
        if now - entries[ep].createdAt > maxAge {
          entries := entries - {ep};
          changed := true;
          assert ep in Expired(m, now, maxAge) - todo;
        } else {
          assert ep !in Expired(m, now, maxAge);
        }
      }
      r := Made(entries);
    }

    /** Every network's metadata with the expired entries removed. */
    method PruneAll(maxAge: int, now: int) returns (changed: bool)
      modifies this`networks
      ensures networks == PruneMetadataIn(old(networks), now, maxAge)
      ensures changed <==> exists id :: id in old(networks) && Expired(old(networks)[id].metadataMap, now, maxAge) != {}
    {
      hide Expired, DropKeys;
      ghost var was := networks;
      var todo := networks.Keys;
      changed := false;
      while todo != {}
        invariant todo <= networks.Keys == was.Keys
        invariant forall id :: id in networks ==> networks[id] == if id in todo then was[id] else
                    was[id].(metadataMap := DropKeys(was[id].metadataMap, Expired(was[id].metadataMap, now, maxAge)))
        invariant changed <==> exists id :: id in was && id !in todo && Expired(was[id].metadataMap, now, maxAge) != {}
        decreases todo
      {
        var id :| id in todo;
        todo := todo - {id};
        var pruned, some := PruneMap(networks[id].metadataMap, now, maxAge);
        networks := networks[id := networks[id].(metadataMap := pruned)];
        changed := changed || some;
      }
    }

    method PruneMetadata(maxAge: int, now: int, fault: Fault)
      modifies this, disk
      ensures var e := Step(old(networks), Timed(CacheSpec.PruneMetadata(maxAge), now));
              && networks == e.nets
              && Fs(disk.path, disk.tmp) ==
                 if e.saves then Saved(old(Fs(disk.path, disk.tmp)), networks, fault) else old(Fs(disk.path, disk.tmp))
    {
      hide Expired, PruneMetadataIn, Saved;
      var changed := PruneAll(maxAge, now);
      if changed {
        var _ := Save(fault);
      }
    }

    /** The plugin networks among those Docker lists. */
    static method Listed(listed: seq<DockerNetwork>) returns (docker: DockerNets)
      ensures docker == PluginNetworks(listed)
      ensures forall id :: id in docker <==> exists i :: LastListed(listed, id, i)
      ensures forall id, i :: LastListed(listed, id, i) ==> docker[id] == listed[i]
    {
      docker := map[];
      for i := 0 to |listed|
        invariant docker == PluginNetworks(listed[..i])
      {
        assert listed[..i + 1][..i] == listed[..i];
        if IsDHCPPlugin(listed[i].driver) {
          docker := docker[listed[i].id := listed[i]];
        }
      }
      assert listed[..|listed|] == listed;
      forall id ensures id in docker <==> exists i :: LastListed(listed, id, i)
        ensures forall i :: LastListed(listed, id, i) ==> docker[id] == listed[i]
      {
        NetworksListed(listed, id);
      }
    }

    /** Endpoint ID to container ID, in whatever order the containers are visited. */
    static method Rebuild(containers: map<string, string>) returns (pick: map<string, string>, active: set<string>)
      ensures IsInverse(pick, containers) && active == Active(containers)
    {
      pick, active := map[], {};
      var todo := containers.Keys;
      while todo != {}
        invariant todo <= containers.Keys
        invariant forall ep :: ep in pick ==> pick[ep] in containers && pick[ep] !in todo && containers[pick[ep]] == ep
        invariant forall c :: c in containers && c !in todo ==> containers[c] in pick
        invariant active == pick.Keys - {""}
        decreases todo
      {
        var c :| c in todo;
        todo := todo - {c};
        pick := pick[containers[c] := c];
        if containers[c] != "" {
          active := active + {containers[c]};
        }
      }
      assert pick.Keys == containers.Values;
    }

    /** Drops the ghost networks: those cached, not "global", and not listed. */
    method DropGhosts(docker: DockerNets) returns (changed: bool)
      modifies this`networks
      ensures networks == map id | id in old(networks) && (id == "global" || id in docker) :: old(networks)[id]
      ensures changed <==> exists id :: id in old(networks) && id != "global" && id !in docker
    {
      ghost var was := networks;
      var todo := networks.Keys;
      changed := false;
      while todo != {}
        invariant todo <= networks.Keys
        invariant forall id :: id in networks <==> id in was && (id in todo || id == "global" || id in docker)
        invariant forall id :: id in networks ==> networks[id] == was[id]
        invariant changed <==> exists id :: id in was && id !in todo && id != "global" && id !in docker
        decreases todo
      {
        var id :| id in todo;
        todo := todo - {id};
        if id != "global" && id !in docker {
          networks := networks - {id};
          changed := true;
        }
      }
    }

    /** One endpoint map and its metadata, with the orphans deleted one by one. */
    static method DropOrphans(n: Network, active: set<string>, ghost d: DockerNetwork)
      returns (r: Network, changed: bool)
      requires active == Active(d.containers)
      ensures r == n.(endpoints := DropKeys(n.endpoints, Orphans(n, d)),
                      metadataMap := DropKeys(n.metadataMap, Orphans(n, d)))
      ensures changed == (Orphans(n, d) != {})
    {
      r, changed := n, false;
      if n.endpoints.Made? {
        var todo := n.endpoints.entries.Keys;
        DropNothing(n.endpoints, Orphans(n, d) - todo);
        DropNothing(n.metadataMap, Orphans(n, d) - todo);
        while todo != {}
          invariant todo <= n.endpoints.entries.Keys
          invariant r == n.(endpoints := DropKeys(n.endpoints, Orphans(n, d) - todo),
                            metadataMap := DropKeys(n.metadataMap, Orphans(n, d) - todo))
          invariant changed == (Orphans(n, d) - todo != {})
          decreases todo
        {
          var ep :| ep in todo;
          ghost var before := Orphans(n, d) - todo;
          todo := todo - {ep};
          if ep !in active {
            assert Orphans(n, d) - todo == before + {ep};
            DropOneMore(n.endpoints, before, ep);
            DropOneMore(n.metadataMap, before, ep);
            r := r.(endpoints := Made(r.endpoints.entries - {ep}));
            if r.metadataMap.Made? {
              r := r.(metadataMap := Made(r.metadataMap.entries - {ep}));
            }
            changed := true;
          } else {
            assert Orphans(n, d) - todo == before;
          }
        }
        assert Orphans(n, d) - todo == Orphans(n, d);
      } else {
        DropNothing(n.metadataMap, Orphans(n, d));
      }
    }

    /** Brings one listed network's entry up to date, unless it is new and its options do not decode. */
    method ReconcileOne(id: string, d: DockerNetwork) returns (ghost pick: map<string, string>, changed: bool)
      modifies this`networks
      ensures IsInverse(pick, d.containers)
      ensures networks == if id in old(networks) || d.options.Good?
                          then old(networks)[id := ReconciledNetwork(Existing(old(networks), d, id), d, pick)]
                          else old(networks)
      ensures changed <==> (id !in old(networks) && d.options.Good?)
                           || (id in old(networks) && Orphans(old(networks)[id], d) != {})
    {
      var m, active := Rebuild(d.containers);
      pick, changed := m, false;
      if id in networks || d.options.Good? {
        var existing := if id in networks then networks[id]
                        else Network(id, d.options.value, Made(map[]), NilMap, NilMap);
        var pruned, some := DropOrphans(existing.(containerMap := Made(m)), active, d);
        changed := id !in networks || some;
        networks := networks[id := pruned];
      }
    }

    /** The in-memory part of a reconciliation. */
    method ReconcileAll(docker: DockerNets)
      returns (ghost picks: Picks, changed: bool)
      modifies this`networks
      ensures picks.Keys == docker.Keys
      ensures forall id :: id in docker ==> IsInverse(picks[id], docker[id].containers)
      ensures networks == ReconcileIn(old(networks), docker, picks)
      ensures changed == ReconcileChanges(old(networks), docker)
    {
      ghost var was := networks;
      changed := DropGhosts(docker);
      picks := map[];
      var todo := docker.Keys;
      while todo != {}
        invariant Partly(was, networks, docker, picks, todo)
        invariant changed == PartlyChanged(was, docker, todo)
        decreases todo
      {
        var id :| id in todo;
        PartlyKept(was, networks, docker, picks, todo, id);
        ghost var before := networks;
        var pick, some := ReconcileOne(id, docker[id]);
        if id in was || docker[id].options.Good? {
          PartlyMore(was, before, docker, picks, todo, id, pick);
        } else {
          PartlySkip(was, before, docker, picks, todo, id, pick);
        }
        PartlyChangedMore(was, docker, todo, id);
        picks := picks[id := pick];
        todo := todo - {id};
        changed := changed || some;
      }
      PartlyDone(was, networks, docker, picks);
      assert PartlyChanged(was, docker, {}) == ReconcileChanges(was, docker);
    }

    /** Brings the cache in line with what Docker lists; `picks` has the container each endpoint ID was mapped to. */
    method Reconcile(listed: seq<DockerNetwork>, fault: Fault) returns (ghost picks: Picks)
      modifies this, disk
      ensures ValidOp(CacheSpec.Reconcile(PluginNetworks(listed), picks))
      ensures networks == ReconcileIn(old(networks), PluginNetworks(listed), picks)
      // A cached network stays if it is "global" or listed with a driver of the plugin; a new one needs options, too.
      ensures forall id :: id in networks <==>
                || (id in old(networks) && (id == "global" || exists i :: LastListed(listed, id, i)))
                || (exists i :: LastListed(listed, id, i) && listed[i].options.Good?)
      ensures Fs(disk.path, disk.tmp) ==
              if ReconcileChanges(old(networks), PluginNetworks(listed))
              then Saved(old(Fs(disk.path, disk.tmp)), networks, fault) else old(Fs(disk.path, disk.tmp))
    {
      var docker := Listed(listed);
      var changed: bool;
      picks, changed := ReconcileAll(docker);
      if changed {
        var _ := Save(fault);
      }
    }
  }
}
