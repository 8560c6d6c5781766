/**
 The plugin's own state for endpoints - hints and managers - and the searches its calls make, as the
 program performs them: maps changed in place under the lock, containers and cached entries scanned in
 whatever order they come (pkg/plugin/network.go).
 */
module Endpoints {
  import opened Seqs
  import opened Wrappers
  import opened MacGen
  import opened Identity
  import opened Protocol
  import opened CreateRuns
  import CacheSpec
  import NetworkCache
  import PendingSpec
  import PendingStore

  /** The pending queues and metadata as values. */
  ghost function Pendings(store: PendingStore.Store): (r: PendingSpec.State)
    reads store
  {
    PendingSpec.State(store.Contents, store.metas)
  }

  ghost predicate Named(w: World, req: Request, seedName: string, hostname: string) {
    w.create.Enriching? && w.create == Enriching(req, seedName, hostname, w.create.source)
  }

  /** The endpoints that Docker may yet join. */
  ghost function Joinable(w: World): (r: set<string>) {
    set ep | ep in w.created && ep !in w.posts && ep in w.requests
  }

  ghost function EndpointOf(nets: CacheSpec.Networks, net: string, ep: string): (r: Option<CacheSpec.Endpoint>) {
    if net in nets && ep in CacheSpec.Entries(nets[net].endpoints)
    then Some(CacheSpec.Entries(nets[net].endpoints)[ep]) else None
  }

  /** The world after Leave has queued a named endpoint, or has found none to queue. */
  ghost function Remembered(md5: string -> Digest, w: World, known: Option<CacheSpec.Endpoint>, net: string, now: int,
                            between: seq<Event>, later: int): (r: World)
    requires Foreign(between)
  {
    if known.Some? && known.value.seedName != ""
    then Registered(md5, w, net, known.value.seedName, known.value.hostname, false, now, between, later)
    else w
  }

  /** Gaps enough for every step of a CreateEndpoint call. */
  const TURNS := POP_ATTEMPTS + 5

  class Plugin {
    var joinHints: Hints
    var persistentDHCP: map<string, nat>

    /** The hostname goroutines still running, and the endpoints Docker has been answered for but not joined. */
    var namers: set<(string, string)>
    var joinable: set<string>

    constructor ()
      ensures joinHints == map[] && persistentDHCP == map[] && namers == {} && joinable == {}
    {
      joinHints, persistentDHCP, namers, joinable := map[], map[], {}, {};
    }

    /** The plugin and its pending containers are as the protocol's world says. */
    ghost predicate Mirrors(w: World, store: PendingStore.Store)
      reads this, store
    {
      joinHints == w.hints && namers == w.namers && joinable == Joinable(w) && Pendings(store) == w.pending
    }

    /** Scans the cached endpoints, in any order, for one that has the address and a name. */
    static method ResolveByMac(n: CacheSpec.Network, mac: string)
      returns (seedName: string, hostname: string, ghost pick: string)
      ensures MacMatches(n, mac) == {} ==> seedName == "" && hostname == ""
      ensures MacMatches(n, mac) != {} ==>
                && pick in MacMatches(n, mac)
                && seedName == CacheSpec.Entries(n.endpoints)[pick].seedName != ""
                && hostname == CacheSpec.Entries(n.endpoints)[pick].hostname
    {
      var entries := CacheSpec.Entries(n.endpoints);
      var todo := entries.Keys;
      pick := "";
      while todo != {}
        invariant todo <= entries.Keys
        invariant forall k :: k in entries && k !in todo ==> !MacMatch(entries[k], mac)
        decreases todo
      {
        var k :| k in todo;
        todo := todo - {k};
        if entries[k].macAddress == mac && entries[k].seedName != "" {
          pick := k;
          assert k in MacMatches(n, mac);
          return entries[k].seedName, entries[k].hostname, pick;
        }
      }
      return "", "", pick;
    }

    /** The names claimed by hints, collected one by one. */
    method ClaimedNames() returns (claimed: set<string>)
      ensures claimed == Claimed(joinHints)
      ensures forall s :: s in claimed <==> s != "" && exists ep :: ep in joinHints && joinHints[ep].seedName == s
    {
      claimed := {};
      var todo := joinHints.Keys;
      while todo != {}
        invariant todo <= joinHints.Keys
        invariant forall ep :: ep in joinHints && ep !in todo && joinHints[ep].seedName != "" ==>
                    joinHints[ep].seedName in claimed
        invariant forall s :: s in claimed ==> s in Claimed(joinHints)
        decreases todo
      {
        var ep :| ep in todo;
        todo := todo - {ep};
        if joinHints[ep].seedName != "" {
          claimed := claimed + {joinHints[ep].seedName};
        }
      }
    }

    /** The attachment to the network, if any. */
    static method FindSettings(list: seq<Attachment>, net: string) returns (settings: Option<Attachment>)
      ensures settings == AttachedTo(list, net)
    {
      var i := 0;
      while i < |list|
        invariant 0 <= i <= |list|
        invariant AttachedTo(list, net) == AttachedTo(list[i..], net)
      {
        if list[i].netId == net || list[i].netName == net {
          return Some(list[i]);
        }
        assert list[i..][1..] == list[i + 1..];
        i := i + 1;
      }
      return None;
    }

    /** Process of elimination over Docker's listing. */
    method ResolveByElimination(ctrs: seq<Container>, net: string, ep: string)
      returns (seedName: string, sole: Option<Container>)
      ensures sole == Sole(ctrs, net, ep, Claimed(joinHints))
      ensures seedName == if sole.Some? then NameOf(sole.value) else ""
    {
      var claimed := ClaimedNames();
      ghost var keep := IsCandidate(net, ep, claimed);
      var candidates := [];
      for i := 0 to |ctrs|
        invariant candidates == Filter(ctrs[..i], keep)
      {
        assert ctrs[..i + 1][..i] == ctrs[..i];
        var settings := FindSettings(ctrs[i].attachments, net);
        var name := if |ctrs[i].names| > 0 then TrimSlash(ctrs[i].names[0]) else "";
        if settings.Some? && (settings.value.endpointId == "" || settings.value.endpointId == ep) && name !in claimed {
          candidates := candidates + [ctrs[i]];
        }
      }
      assert ctrs[..|ctrs|] == ctrs;
      if |candidates| != 1 {
        return "", None;
      }
      return NameOf(candidates[0]), Some(candidates[0]);
    }

    /** Stores what was found for Join. */
    method RecordIdentity(ep: string, seedName: string, hostname: string)
      modifies this`joinHints
      ensures joinHints == old(joinHints)[ep := HintOf(old(joinHints), ep).(hostname := hostname, seedName := seedName)]
    {
      var hint := HintOf(joinHints, ep);
      hint := hint.(hostname := hostname);
      hint := hint.(seedName := seedName);
      joinHints := joinHints[ep := hint];
    }

    /**
     Chooses the link's address and records how; no address means that the user's does not parse.
     Endpoint IDs have at least the twelve characters that name the link.
     */
    method ChooseMac(md5: string -> Digest, ep: string, userMac: string, seedName: string, hostname: string,
                     option: string)
      returns (text: string, mac: Option<seq<byte>>)
      requires |ep| >= 12
      modifies this`joinHints
      ensures mac == ParseMac(text)
      ensures userMac != "" ==>
                && text == userMac
                && joinHints == old(joinHints)[ep := HintOf(old(joinHints), ep).(userMac := true)]
      ensures userMac == "" ==>
                var seed := ChooseSeed(hostname, seedName, ep);
                && text == Text(MacFormat(option), Octets(md5, seed)) && mac == Some(Octets(md5, seed))
                && joinHints == old(joinHints)[ep := HintOf(old(joinHints), ep).(macSeed := seed)]
    {
      if userMac != "" {
        joinHints := joinHints[ep := HintOf(joinHints, ep).(userMac := true)];
        return userMac, ParseMac(userMac);
      }
      var seed := hostname;
      if seed == "" {
        seed := seedName;
      }
      if seed == "" {
        seed := ep;
      }
      joinHints := joinHints[ep := HintOf(joinHints, ep).(macSeed := seed)];
      var generated := Generate(md5, seed, MacFormat(option));
      GeneratedOctets(md5, seed, MacFormat(option));
      return generated.value, ParseMac(generated.value);
    }

    /** What the hostname goroutine does once Docker has answered it, or has not. */
    method NameHost(ep: string, seedName: string, found: Option<Inspected>)
      modifies this`joinHints, this`namers
      ensures namers == old(namers) - {(ep, seedName)}
      ensures joinHints == if (ep, seedName) in old(namers) then HostNamed(old(joinHints), ep, seedName, found)
                           else old(joinHints)
    {
      if (ep, seedName) in namers {
        namers := namers - {(ep, seedName)};
        if found.Some? {
          var hint := HintOf(joinHints, ep);
          if hint.hostname == "" || hint.hostname == seedName {
            hint := hint.(hostname := RealHostname(found.value, seedName));
            joinHints := joinHints[ep := hint];
          }
        }
      }
    }

    /** A Join for an endpoint that Docker may join. */
    method Joined(ep: string, ghost w: World, ghost store: PendingStore.Store)
      requires Mirrors(w, store)
      modifies this`joinHints, this`joinable
      ensures Mirrors(TakeStep(w, ep), store)
    {
      if ep in joinable {
        var _, ok := TakeHint(ep);
        if ok {
          joinable := joinable - {ep};
        }
      }
    }

    /** One thing that somebody else does, as far as it touches the plugin's hints and pending containers. */
    method Other(ghost md5: string -> Digest, store: PendingStore.Store, e: Event, ghost w: World)
      requires store.Valid() && ValidEvent(e) && !e.Creating? && Mirrors(w, store)
      modifies this`joinHints, this`namers, this`joinable, store, store.Owner.Keys, store.nilBuf
      ensures store.Valid() && fresh(store.Owner.Keys - old(store.Owner.Keys))
      ensures Mirrors(Next(md5, w, e), store)
    {
      hide PendingSpec.Step, CacheSpec.Step, TakeStep, PostStep, HostNamed, CreateStep;
      match e
      case PendingDo(p) => store.Perform(p);
      case Joining(ep, j) =>
        if j.TakeHint? {
          Joined(ep, w, store);
        }
      case NameHost(ep, seedName, found) => NameHost(ep, seedName, found);
      case _ =>
    }

    /** Whatever others do until the running call makes its next step. */
    method Meanwhile(ghost md5: string -> Digest, store: PendingStore.Store, es: seq<Event>, ghost w: World)
      requires store.Valid() && Foreign(es) && Mirrors(w, store)
      modifies this`joinHints, this`namers, this`joinable, store, store.Owner.Keys, store.nilBuf
      ensures store.Valid() && fresh(store.Owner.Keys - old(store.Owner.Keys))
      ensures Mirrors(Follow(md5, w, es), store)
    {
      hide Next;
      ghost var v := w;
      for i := 0 to |es|
        invariant store.Valid() && fresh(store.Owner.Keys - old(store.Owner.Keys))
        invariant Mirrors(v, store) && Follow(md5, w, es) == Follow(md5, v, es[i..])
      {
        assert es[i..][0] == es[i] && es[i..][1..] == es[i + 1..];
        Other(md5, store, es[i], v);
        v := Next(md5, v, es[i]);
      }
    }

    /** The cache, by the address that Docker presents. */
    static method FindCached(cached: Option<CacheSpec.Network>, req: Request, ghost v: World)
      returns (seedName: string, hostname: string, ghost pick: string)
      requires v.create == Lookup(req)
      requires cached == if req.net in v.cache then Some(v.cache[req.net]) else None
      ensures LookupStep(v, pick) ==
              v.(create := if seedName == "" then Popping(req, 0) else Enriching(req, seedName, hostname, ByMac))
      ensures seedName == "" ==> hostname == ""
    {
      hide MacMatches;
      seedName, hostname, pick := "", "", "";
      if req.mac != "" && cached.Some? {
        seedName, hostname, pick := ResolveByMac(cached.value, req.mac);
      }
    }

    /** The end of a step of the running call: others have their turn until the next one. */
    method Turn(ghost md5: string -> Digest, store: PendingStore.Store, ghost c: CreateEvent, gaps: seq<seq<Event>>,
                ghost w: World, ghost own: seq<CreateEvent>, t: nat)
      requires store.Valid() && AllForeign(gaps) && t == |own| < |gaps|
      requires Mirrors(CreateStep(md5, At(md5, w, own, gaps), c), store)
      modifies this`joinHints, this`namers, this`joinable, store, store.Owner.Keys, store.nilBuf
      ensures store.Valid() && fresh(store.Owner.Keys - old(store.Owner.Keys))
      ensures var r := At(md5, w, own + [c], gaps);
              Mirrors(r, store) && r.create == CreateStep(md5, At(md5, w, own, gaps), c).create
    {
      hide At, Follow, CreateStep, Mirrors;
      OneTurn(md5, w, own, c, gaps);
      Meanwhile(md5, store, gaps[t], CreateStep(md5, At(md5, w, own, gaps), c));
    }

    /** One attempt on the queue. */
    method PopNow(store: PendingStore.Store, req: Request, ghost now: int, ghost v: World)
      returns (name: string, hostname: string, ok: bool)
      requires store.Valid() && v.create.Popping? && v.create.req == req && Mirrors(v, store)
      modifies store`queues, store`Contents, store`Owner
      ensures store.Valid() && store.Owner == old(store.Owner)
      ensures Mirrors(PopStep(v, now), store)
      ensures ok == (PendingSpec.QueueOf(v.pending.queues, req.net) != [])
      ensures PopStep(v, now).create == if ok then Popped(req, name, hostname) else Missed(req, v.create.attempt)
      ensures !ok ==> name == "" && hostname == ""
    {
      hide PopStep;
      PopStepIs(v, now);
      name, hostname, ok := store.Pop(req.net);
    }

    /** One attempt, and the others' turn until the next. */
    method QueueTurn(ghost md5: string -> Digest, store: PendingStore.Store, req: Request, gaps: seq<seq<Event>>,
                     ghost now: int, ghost w: World, ghost own: seq<CreateEvent>, t: nat)
      returns (name: string, hostname: string, ok: bool)
      requires store.Valid() && AllForeign(gaps) && t == |own| < |gaps|
      requires var v := At(md5, w, own, gaps); v.create.Popping? && v.create.req == req && Mirrors(v, store)
      modifies this`joinHints, this`namers, this`joinable, store, store.Owner.Keys, store.nilBuf
      ensures store.Valid() && fresh(store.Owner.Keys - old(store.Owner.Keys))
      ensures var v, r := At(md5, w, own, gaps), At(md5, w, own + [PopOnce(now)], gaps);
              Mirrors(r, store) && r.create == if ok then Popped(req, name, hostname) else Missed(req, v.create.attempt)
      ensures !ok ==> name == "" && hostname == ""
    {
      hide At, Foreign, CreateStep, LookupStep, PopStep, ListStep, EliminateStep, EnrichStep, RecordStep, Mirrors;
      Dispatch(md5, At(md5, w, own, gaps), "", now, None);
      name, hostname, ok := PopNow(store, req, now, At(md5, w, own, gaps));
      Turn(md5, store, PopOnce(now), gaps, w, own, t);
    }

    /** The queue: fifteen attempts at most, each a turn of its own. */
    method FindQueued(ghost md5: string -> Digest, store: PendingStore.Store, req: Request, gaps: seq<seq<Event>>,
                      ghost now: int, ghost w: World, ghost own0: seq<CreateEvent>, t0: nat)
      returns (seedName: string, hostname: string, t: nat, ghost own: seq<CreateEvent>)
      requires store.Valid() && AllForeign(gaps) && t0 == |own0| && t0 + POP_ATTEMPTS <= |gaps|
      requires var v := At(md5, w, own0, gaps); v.create == Popping(req, 0) && Mirrors(v, store)
      modifies this`joinHints, this`namers, this`joinable, store, store.Owner.Keys, store.nilBuf
      ensures store.Valid() && fresh(store.Owner.Keys - old(store.Owner.Keys))
      ensures t0 <= t == |own| <= t0 + POP_ATTEMPTS && own == own0 + Pops(t - t0, now)
      ensures var r := At(md5, w, own, gaps); Mirrors(r, store) && r.create == Popped(req, seedName, hostname)
    {
      hide At, Foreign, Mirrors;
      seedName, hostname, t, own := "", "", t0, own0;
      for attempt := 0 to POP_ATTEMPTS
        invariant store.Valid() && fresh(store.Owner.Keys - old(store.Owner.Keys))
        invariant t == t0 + attempt == |own| && own == own0 + Pops(attempt, now) && seedName == "" && hostname == ""
        invariant Mirrors(At(md5, w, own, gaps), store)
        invariant At(md5, w, own, gaps).create ==
                  if attempt < POP_ATTEMPTS then Popping(req, attempt) else Listing(req, "")
      {
        var ok: bool;
        seedName, hostname, ok := QueueTurn(md5, store, req, gaps, now, w, own, t);
        assert own + [PopOnce(now)] == own0 + Pops(attempt + 1, now);
        t, own := t + 1, own + [PopOnce(now)];
        if ok {
          return;
        }
      }
    }

    /** Elimination itself, and the goroutine it starts. */
    method Eliminated(req: Request, ctrs: seq<Container>, hostname0: string, ghost v: World,
                      ghost store: PendingStore.Store)
      returns (seedName: string, hostname: string)
      requires v.create == Eliminating(req, hostname0, ctrs) && Mirrors(v, store)
      modifies this`namers
      ensures Mirrors(EliminateStep(v), store) && Named(EliminateStep(v), req, seedName, hostname)
    {
      hide Sole, Claimed, NameOf;
      seedName, hostname := "", hostname0;
      var name, sole := ResolveByElimination(ctrs, req.net, req.ep);
      if sole.Some? && |sole.value.names| > 0 {
        seedName, hostname := name, name;
        namers := namers + {(req.ep, name)};
      }
    }

    /** Docker's listing. */
    method ListTurn(ghost md5: string -> Digest, store: PendingStore.Store, req: Request,
                    listing: Option<seq<Container>>, ghost hostname: string, gaps: seq<seq<Event>>, ghost w: World,
                    ghost own: seq<CreateEvent>, t: nat)
      requires store.Valid() && AllForeign(gaps) && t == |own| < |gaps|
      requires var v := At(md5, w, own, gaps); v.create == Listing(req, hostname) && Mirrors(v, store)
      modifies this`joinHints, this`namers, this`joinable, store, store.Owner.Keys, store.nilBuf
      ensures store.Valid() && fresh(store.Owner.Keys - old(store.Owner.Keys))
      ensures var r := At(md5, w, own + [List(listing)], gaps);
              && Mirrors(r, store)
              && (if listing.Some? then r.create == Eliminating(req, hostname, listing.value)
                  else Named(r, req, "", hostname))
    {
      hide At, Foreign, CreateStep, LookupStep, PopStep, ListStep, EliminateStep, EnrichStep, RecordStep, Mirrors;
      ghost var v := At(md5, w, own, gaps);
      Dispatch(md5, v, "", 0, listing);
      ListMirrors(v, listing, store);
      Turn(md5, store, List(listing), gaps, w, own, t);
    }

    /** Elimination over what was listed, against the hints as they are now. */
    method EliminateTurn(ghost md5: string -> Digest, store: PendingStore.Store, req: Request, ctrs: seq<Container>,
                         hostname0: string, gaps: seq<seq<Event>>, ghost w: World, ghost own: seq<CreateEvent>, t: nat)
      returns (seedName: string, hostname: string)
      requires store.Valid() && AllForeign(gaps) && t == |own| < |gaps|
      requires var v := At(md5, w, own, gaps); v.create == Eliminating(req, hostname0, ctrs) && Mirrors(v, store)
      modifies this`joinHints, this`namers, this`joinable, store, store.Owner.Keys, store.nilBuf
      ensures store.Valid() && fresh(store.Owner.Keys - old(store.Owner.Keys))
      ensures var r := At(md5, w, own + [Eliminate], gaps); Mirrors(r, store) && Named(r, req, seedName, hostname)
    {
      hide At, Foreign, CreateStep, LookupStep, PopStep, ListStep, EliminateStep, EnrichStep, RecordStep, Mirrors;
      ghost var v := At(md5, w, own, gaps);
      Dispatch(md5, v, "", 0, None);
      seedName, hostname := Eliminated(req, ctrs, hostname0, v, store);
      Turn(md5, store, Eliminate, gaps, w, own, t);
    }

    /** The deep fallback: list, eliminate, and take the name of the one container left. */
    method FallBack(ghost md5: string -> Digest, store: PendingStore.Store, req: Request,
                    listing: Option<seq<Container>>, hostname0: string, gaps: seq<seq<Event>>, ghost w: World,
                    ghost own0: seq<CreateEvent>, t: nat)
      returns (seedName: string, hostname: string, ghost own: seq<CreateEvent>)
      requires store.Valid() && AllForeign(gaps) && t == |own0| && t + 2 <= |gaps|
      requires var v := At(md5, w, own0, gaps); v.create == Listing(req, hostname0) && Mirrors(v, store)
      modifies this`joinHints, this`namers, this`joinable, store, store.Owner.Keys, store.nilBuf
      ensures store.Valid() && fresh(store.Owner.Keys - old(store.Owner.Keys))
      ensures own == own0 + if listing.Some? then [List(listing), Eliminate] else [List(listing)]
      ensures var r := At(md5, w, own, gaps); Mirrors(r, store) && Named(r, req, seedName, hostname)
    {
      hide At, Foreign, Mirrors;
      ListTurn(md5, store, req, listing, hostname0, gaps, w, own0, t);
      seedName, hostname, own := "", hostname0, own0 + [List(listing)];
      if listing.Some? {
        seedName, hostname := EliminateTurn(md5, store, req, listing.value, hostname0, gaps, w, own, t + 1);
        assert own + [Eliminate] == own0 + [List(listing), Eliminate];
        own := own + [Eliminate];
      }
    }

    /** Docker's answer changes nothing of the plugin's. */
    lemma ListMirrors(v: World, listing: Option<seq<Container>>, store: PendingStore.Store)
      requires v.create.Listing? && Mirrors(v, store)
      ensures Mirrors(ListStep(v, listing), store)
      ensures listing.Some? ==>
                ListStep(v, listing).create == Eliminating(v.create.req, v.create.hostname, listing.value)
      ensures listing.None? ==> Named(ListStep(v, listing), v.create.req, "", v.create.hostname)
    {
    }

    /** The lookup in the cache. */
    method CacheTurn(ghost md5: string -> Digest, store: PendingStore.Store, cached: Option<CacheSpec.Network>,
                     req: Request, gaps: seq<seq<Event>>, ghost w: World)
      returns (seedName: string, hostname: string, ghost own: seq<CreateEvent>)
      requires store.Valid() && AllForeign(gaps) && |gaps| > 0
      requires w.create == Lookup(req) && Mirrors(w, store)
      requires cached == if req.net in w.cache then Some(w.cache[req.net]) else None
      modifies this`joinHints, this`namers, this`joinable, store, store.Owner.Keys, store.nilBuf
      ensures store.Valid() && fresh(store.Owner.Keys - old(store.Owner.Keys)) && |own| == 1
      ensures var r := At(md5, w, own, gaps);
              && Mirrors(r, store)
              && r.create == if seedName == "" then Popping(req, 0) else Enriching(req, seedName, hostname, ByMac)
      ensures seedName == "" ==> hostname == ""
    {
      hide At, Foreign, CreateStep, LookupStep, PopStep, ListStep, EliminateStep, EnrichStep, RecordStep;
      ghost var pick;
      AtStart(md5, w, gaps);
      seedName, hostname, pick := FindCached(cached, req, w);
      Dispatch(md5, w, pick, 0, None);
      Turn(md5, store, LookupMac(pick), gaps, w, [], 0);
      own := [] + [LookupMac(pick)];
    }

    /** The search for a name: by address, by queue, by elimination, each only if the one before found none. */
    method FindName(ghost md5: string -> Digest, store: PendingStore.Store, cached: Option<CacheSpec.Network>,
                    req: Request, gaps: seq<seq<Event>>, ghost now: int, listing: Option<seq<Container>>,
                    ghost w: World)
      returns (seedName: string, hostname: string, t: nat, ghost own: seq<CreateEvent>)
      requires store.Valid() && AllForeign(gaps) && |gaps| >= TURNS
      requires w.create == Lookup(req) && Mirrors(w, store)
      requires cached == if req.net in w.cache then Some(w.cache[req.net]) else None
      modifies this`joinHints, this`namers, this`joinable, store, store.Owner.Keys, store.nilBuf
      ensures store.Valid() && fresh(store.Owner.Keys - old(store.Owner.Keys))
      ensures t == |own| <= TURNS - 2
      ensures var r := At(md5, w, own, gaps); Mirrors(r, store) && Named(r, req, seedName, hostname)
    {
      hide At, Foreign, Mirrors, Pops;
      seedName, hostname, own := CacheTurn(md5, store, cached, req, gaps, w);
      t := 1;
      if seedName == "" {
        seedName, hostname, t, own := FindQueued(md5, store, req, gaps, now, w, own, t);
        if seedName == "" {
          seedName, hostname, own := FallBack(md5, store, req, listing, hostname, gaps, w, own, t);
          t := t + if listing.Some? then 2 else 1;
        }
      }
    }

    /** The hostname from the metadata, where the name came without one. */
    static method Enriched(store: PendingStore.Store, req: Request, seedName: string, hostname0: string, ghost w: World)
      returns (hostname: string)
      requires Named(w, req, seedName, hostname0) && w.pending == Pendings(store)
      ensures EnrichStep(w) == w.(create := Recording(req, seedName, hostname, w.create.source))
    {
      hostname := hostname0;
      if hostname == "" && seedName != "" {
        var found, ok := store.Lookup(req.net, seedName);
        if ok && found != "" {
          hostname := found;
        }
      }
    }

    /** The hint, as Join will find it. */
    method Recorded(req: Request, seedName: string, hostname: string, ghost v: World, ghost store: PendingStore.Store)
      requires v.create.Recording? && v.create == Recording(req, seedName, hostname, v.create.source)
      requires Mirrors(v, store)
      modifies this`joinHints
      ensures Mirrors(RecordStep(v), store) && RecordStep(v).create == Choosing(req, seedName, hostname)
    {
      RecordIdentity(req.ep, seedName, hostname);
    }

    method EnrichTurn(ghost md5: string -> Digest, store: PendingStore.Store, req: Request, seedName: string,
                      hostname0: string, gaps: seq<seq<Event>>, ghost w: World, ghost own: seq<CreateEvent>, t: nat)
      returns (hostname: string)
      requires store.Valid() && AllForeign(gaps) && t == |own| < |gaps|
      requires var v := At(md5, w, own, gaps); Named(v, req, seedName, hostname0) && Mirrors(v, store)
      modifies this`joinHints, this`namers, this`joinable, store, store.Owner.Keys, store.nilBuf
      ensures store.Valid() && fresh(store.Owner.Keys - old(store.Owner.Keys))
      ensures var r := At(md5, w, own + [Enrich], gaps);
              && Mirrors(r, store) && r.create.Recording?
              && r.create == Recording(req, seedName, hostname, r.create.source)
    {
      hide At, Foreign, CreateStep, LookupStep, PopStep, ListStep, EliminateStep, EnrichStep, RecordStep;
      Dispatch(md5, At(md5, w, own, gaps), "", 0, None);
      hostname := Enriched(store, req, seedName, hostname0, At(md5, w, own, gaps));
      Turn(md5, store, Enrich, gaps, w, own, t);
    }

    method RecordTurn(ghost md5: string -> Digest, store: PendingStore.Store, req: Request, seedName: string,
                      hostname: string, gaps: seq<seq<Event>>, ghost w: World, ghost own: seq<CreateEvent>, t: nat)
      requires store.Valid() && AllForeign(gaps) && t == |own| < |gaps|
      requires var v := At(md5, w, own, gaps);
               && v.create.Recording? && v.create == Recording(req, seedName, hostname, v.create.source)
               && Mirrors(v, store)
      modifies this`joinHints, this`namers, this`joinable, store, store.Owner.Keys, store.nilBuf
      ensures store.Valid() && fresh(store.Owner.Keys - old(store.Owner.Keys))
      ensures var r := At(md5, w, own + [Record], gaps);
              Mirrors(r, store) && r.create == Choosing(req, seedName, hostname)
    {
      hide At, Foreign, CreateStep, LookupStep, PopStep, ListStep, EliminateStep, EnrichStep, RecordStep, Mirrors;
      Dispatch(md5, At(md5, w, own, gaps), "", 0, None);
      Recorded(req, seedName, hostname, At(md5, w, own, gaps), store);
      Turn(md5, store, Record, gaps, w, own, t);
    }

    method Chosen(md5: string -> Digest, req: Request, seedName: string, hostname: string, option: string,
                  ghost v: World, ghost store: PendingStore.Store)
      returns (text: string, mac: Option<seq<byte>>)
      requires |req.ep| >= 12 && v.create == Choosing(req, seedName, hostname) && Mirrors(v, store)
      modifies this`joinHints
      ensures var r := ChooseStep(md5, v, option); r.create == Linking(req, mac) && Mirrors(r, store)
      ensures mac == ParseMac(text)
      ensures text == if req.mac != "" then req.mac
                      else Text(MacFormat(option), Octets(md5, HintOf(joinHints, req.ep).macSeed))
    {
      hide Text, ParseMac, Octets, SeedMac;
      text, mac := ChooseMac(md5, req.ep, req.mac, seedName, hostname, option);
      SeedMacOctets(md5, ChooseSeed(hostname, seedName, req.ep), option);
    }

    /**
     CreateEndpoint from the lookup to the choice of the address, in program order, while others do `gaps[i]` after
     its step i: anything the protocol knows but another CreateEndpoint. It is a run of the protocol: its steps `own`,
     interleaved with the gaps, lead from `w` to the world that the choice of the address is made in.
     */
    method CreateEndpoint(md5: string -> Digest, store: PendingStore.Store, cached: Option<CacheSpec.Network>,
                          req: Request, gaps: seq<seq<Event>>, ghost now: int, listing: Option<seq<Container>>,
                          option: string, ghost w: World)
      returns (text: string, mac: Option<seq<byte>>, ghost own: seq<CreateEvent>)
      requires |req.ep| >= 12 && store.Valid() && AllForeign(gaps) && |gaps| >= TURNS
      requires w.create == Lookup(req) && Mirrors(w, store)
      requires cached == if req.net in w.cache then Some(w.cache[req.net]) else None
      modifies this`joinHints, this`namers, this`joinable, store, store.Owner.Keys, store.nilBuf
      ensures store.Valid() && |own| <= TURNS
      ensures var r := ChooseStep(md5, At(md5, w, own, gaps), option);
              r.create == Linking(req, mac) && Mirrors(r, store)
      ensures mac == ParseMac(text)
      ensures text == if req.mac != "" then req.mac
                      else Text(MacFormat(option), Octets(md5, HintOf(joinHints, req.ep).macSeed))
    {
      hide At, Foreign, Text, ParseMac, Octets, ChooseStep, Mirrors;
      var seedName, hostname, t;
      seedName, hostname, t, own := FindName(md5, store, cached, req, gaps, now, listing, w);
      hostname := EnrichTurn(md5, store, req, seedName, hostname, gaps, w, own, t);
      own := own + [Enrich];
      RecordTurn(md5, store, req, seedName, hostname, gaps, w, own, t + 1);
      own := own + [Record];
      text, mac := Chosen(md5, req, seedName, hostname, option, At(md5, w, own, gaps), store);
    }

    /** Join's critical section: the hint is consumed. */
    method TakeHint(ep: string) returns (hint: Hint, ok: bool)
      modifies this`joinHints
      ensures ok == (ep in old(joinHints)) && hint == HintOf(old(joinHints), ep)
      ensures joinHints == old(joinHints) - {ep}
    {
      hint, ok := HintOf(joinHints, ep), ep in joinHints;
      joinHints := joinHints - {ep};
    }

    /** Ten polls, each scanning the listed containers and their attachments. */
    static method Identify(attempts: seq<Attempt>, ep: string) returns (name: string, hostname: string)
      ensures Found(name, hostname) == Identified(attempts, ep)
    {
      name, hostname := "", "";
      var limit := if |attempts| > ATTEMPTS then ATTEMPTS else |attempts|;
      ghost var polled := attempts[..limit];
      assert |attempts| <= ATTEMPTS ==> polled == attempts;
      var attempt := 0;
      while attempt < limit && name == ""
        invariant 0 <= attempt <= limit
        invariant Poll(polled, ep, Found("", "")) == Poll(polled[attempt..], ep, Found(name, hostname))
      {
        assert polled[attempt..][0] == attempts[attempt] && polled[attempt..][1..] == polled[attempt + 1..];
        if attempts[attempt].Listed? {
          name, hostname := ScanContainers(attempts[attempt].ctrs, attempts[attempt].inspect, ep, name, hostname);
        }
        attempt := attempt + 1;
      }
    }

    static method ScanContainers(ctrs: seq<Container>, inspect: map<string, Inspected>, ep: string, name0: string,
                                 hostname0: string)
      returns (name: string, hostname: string)
      requires name0 == ""
      ensures Found(name, hostname) == Scan(ctrs, inspect, ep, Found(name0, hostname0))
    {
      name, hostname := name0, hostname0;
      var i := 0;
      while i < |ctrs| && name == ""
        invariant 0 <= i <= |ctrs|
        invariant Scan(ctrs, inspect, ep, Found(name0, hostname0)) ==
                  if name != "" then Found(name, hostname) else Scan(ctrs[i..], inspect, ep, Found(name, hostname))
      {
        assert ctrs[i..][1..] == ctrs[i + 1..];
        var holds := HoldsEndpoint(ctrs[i], ep);
        if holds {
          if |ctrs[i].names| > 0 {
            name := TrimSlash(ctrs[i].names[0]);
          }
          if ctrs[i].id in inspect {
            hostname := RealHostname(inspect[ctrs[i].id], name);
          }
        }
        i := i + 1;
      }
    }

    static method HoldsEndpoint(c: Container, ep: string) returns (holds: bool)
      ensures holds == Holds(c, ep)
    {
      for i := 0 to |c.attachments|
        invariant forall j :: 0 <= j < i ==> c.attachments[j].endpointId != ep
      {
        if c.attachments[i].endpointId == ep {
          return true;
        }
      }
      return false;
    }

    /** A new address for the interface, if the kernel accepts it. */
    static method SetAddress(md5: string -> Digest, seed: string, option: string, setOk: bool, link: Option<seq<byte>>)
      returns (after: Option<seq<byte>>)
      requires seed != ""
      ensures after == if setOk && link.Some? then SeedMac(md5, seed, option) else link
    {
      hide Text, ParseMac, Octets;
      after := link;
      var generated := Generate(md5, seed, MacFormat(option));
      if generated.Ok? {
        var addr := ParseMac(generated.value);
        SeedMacOctets(md5, seed, option);
        if setOk && link.Some? && addr.Some? {
          after := addr;
        }
      }
    }

    /** The correction after Join. `setOk` is the kernel's answer, `link` the interface's address. */
    static method Correct(md5: string -> Digest, hint: Hint, name: string, hostname: string, option: string,
                          setOk: bool, link: Option<seq<byte>>, ghost w: World, ghost ep: string)
      returns (corrected: Hint, after: Option<seq<byte>>)
      requires ep in w.posts && w.posts[ep].hint == hint && w.posts[ep].found == Found(name, hostname)
      requires link == LinkOf(w.links, ep)
      ensures var r := CorrectStep(md5, w, ep, w.posts[ep], setOk, option);
              r.posts[ep].hint == corrected && LinkOf(r.links, ep) == after
      ensures var seed := if hostname != "" then hostname else name;
              && after == (if name != "" && seed != hint.macSeed && !hint.userMac && setOk && link.Some?
                           then Some([2] + md5(seed)[..5]) else link)
              && corrected == (if name == "" then hint
                               else hint.(seedName := name, macSeed := seed,
                                          hostname := if hostname != "" then hostname else name))
    {
      hide SeedMac;
      corrected, after := hint, link;
      if name != "" {
        var seed := hostname;
        if seed == "" {
          seed := name;
        }
        SeedMacOctets(md5, seed, option);
        if seed != corrected.macSeed {
          if !corrected.userMac {
            after := SetAddress(md5, seed, option, setOk, link);
          }
          corrected := corrected.(macSeed := seed);
        }
        corrected := corrected.(seedName := name);
        corrected := corrected.(hostname := if hostname != "" then hostname else name);
      }
    }

    /** The end of the post-Join and recovery goroutines. */
    method Install(ep: string, manager: nat)
      modifies this`persistentDHCP
      ensures persistentDHCP == old(persistentDHCP)[ep := manager]
    {
      persistentDHCP := persistentDHCP[ep := manager];
    }

    /** The critical section of Leave and DeleteEndpoint: whoever gets the manager is the one to stop it. */
    method Detach(ep: string) returns (manager: nat, ok: bool)
      modifies this`persistentDHCP
      ensures ok == (ep in old(persistentDHCP)) && (ok ==> manager == old(persistentDHCP)[ep])
      ensures persistentDHCP == old(persistentDHCP) - {ep}
    {
      ok := ep in persistentDHCP;
      manager := if ok then persistentDHCP[ep] else 0;
      persistentDHCP := persistentDHCP - {ep};
    }

    /** The end of Join's goroutine: the manager is installed, and then the endpoint's state is stored. */
    method Persist(cache: NetworkCache.Cache, ep: string, manager: nat, net: string, attrs: seq<byte>, hint: Hint,
                   sandboxKey: string, ip: string, gateway: string, fault: NetworkCache.Fault, ghost p: Post)
      requires p.net == net && p.attrs == attrs && p.hint == hint
      modifies this`persistentDHCP, cache, cache.disk
      ensures persistentDHCP == old(persistentDHCP)[ep := manager]
      ensures var op := CacheSpec.SetEndpoint(net, EntryOf(ep, p, sandboxKey, ip, gateway));
              cache.networks == CacheSpec.Step(old(cache.networks), CacheSpec.Timed(op, 0)).nets
    {
      hide Join;
      Install(ep, manager);
      var e := CacheSpec.Endpoint(ep, sandboxKey, Join(attrs, ':'), ip, "", gateway, hint.hostname, hint.seedName);
      var _ := cache.SetEndpoint(net, e, fault);
    }

    method Pushed(store: PendingStore.Store, net: string, name: string, hostname: string, forward: bool, now: int,
                  ghost w: World, ghost push: PendingSpec.Timed)
      requires store.Valid() && Mirrors(w, store)
      requires push == PendingSpec.Timed(PendingSpec.Push(net, name, hostname, forward), now)
      modifies store`queues, store`Contents, store`Owner, store.Owner.Keys, store.nilBuf
      ensures store.Valid() && fresh(store.Owner.Keys - old(store.Owner.Keys))
      ensures Mirrors(w.(pending := PendingSpec.Step(w.pending, push)), store)
    {
      hide PendingSpec.PushQueues;
      store.Push(net, name, hostname, forward, now);
    }

    method Upserted(store: PendingStore.Store, net: string, name: string, hostname: string, now: int, ghost w: World,
                    ghost upsert: PendingSpec.Timed)
      requires store.Valid() && Mirrors(w, store)
      requires upsert == PendingSpec.Timed(PendingSpec.Upsert(net, name, hostname, true), now)
      modifies store`metas
      ensures store.Valid() && store.Owner == old(store.Owner)
      ensures Mirrors(w.(pending := PendingSpec.Step(w.pending, upsert)), store)
    {
      hide PendingSpec.UpsertMeta;
      store.Upsert(net, name, hostname, now);
    }

    /** A registration: a push and later an upsert, with whatever others do between the two. */
    method Register(ghost md5: string -> Digest, store: PendingStore.Store, net: string, name: string, hostname: string,
                    forward: bool, now: int, between: seq<Event>, later: int, ghost w: World)
      requires store.Valid() && Foreign(between) && Mirrors(w, store)
      modifies this`joinHints, this`namers, this`joinable, store, store.Owner.Keys, store.nilBuf
      ensures store.Valid() && fresh(store.Owner.Keys - old(store.Owner.Keys))
      ensures Mirrors(Registered(md5, w, net, name, hostname, forward, now, between, later), store)
    {
      hide Follow, Mirrors, PendingSpec.Step;
      ghost var push := PendingSpec.Timed(PendingSpec.Push(net, name, hostname, forward), now);
      ghost var upsert := PendingSpec.Timed(PendingSpec.Upsert(net, name, hostname, true), later);
      Pushed(store, net, name, hostname, forward, now, w, push);
      ghost var v := w.(pending := PendingSpec.Step(w.pending, push));
      Meanwhile(md5, store, between, v);
      Upserted(store, net, name, hostname, later, Follow(md5, v, between), upsert);
    }

    /** What Leave keeps of a named endpoint: a backward entry for the CreateEndpoint of a restart. */
    method Remember(ghost md5: string -> Digest, store: PendingStore.Store, cache: NetworkCache.Cache, net: string,
                    ep: string, now: int, between: seq<Event>, later: int, ghost w: World)
      requires store.Valid() && Foreign(between) && Mirrors(w, store)
      modifies this`joinHints, this`namers, this`joinable, store, store.Owner.Keys, store.nilBuf
      ensures store.Valid()
      ensures Mirrors(Remembered(md5, w, EndpointOf(cache.networks, net, ep), net, now, between, later), store)
    {
      hide Registered, Foreign, Mirrors;
      var e, found := cache.GetEndpoint(net, ep);
      if found && e.seedName != "" {
        Register(md5, store, net, e.seedName, e.hostname, false, now, between, later, w);
      }
    }

    /**
     Leave: what the cache knows of the endpoint is queued, as a backward entry, for the CreateEndpoint of a
     restart; then the manager is taken out to be stopped, and the endpoint forgotten.
     */
    method Leave(ghost md5: string -> Digest, store: PendingStore.Store, cache: NetworkCache.Cache, net: string,
                 ep: string, now: int, between: seq<Event>, later: int, fault: NetworkCache.Fault, ghost w: World)
      returns (manager: nat, ok: bool)
      requires store.Valid() && Foreign(between) && Mirrors(w, store)
      modifies this`persistentDHCP, this`joinHints, this`namers, this`joinable
      modifies store, store.Owner.Keys, store.nilBuf, cache, cache.disk
      ensures store.Valid()
      ensures Mirrors(Remembered(md5, w, old(EndpointOf(cache.networks, net, ep)), net, now, between, later), store)
      ensures ok == (ep in old(persistentDHCP)) && (ok ==> manager == old(persistentDHCP)[ep])
      ensures persistentDHCP == old(persistentDHCP) - {ep}
      ensures cache.networks ==
              CacheSpec.Step(old(cache.networks), CacheSpec.Timed(CacheSpec.DeleteEndpoint(net, ep), 0)).nets
    {
      hide Remembered, Foreign, CacheSpec.Step, EndpointOf;
      Remember(md5, store, cache, net, ep, now, between, later, w);
      manager, ok := Detach(ep);
      var _ := cache.DeleteEndpoint(net, ep, fault);
    }
  }
}
