/**
 Exactly what each step of CreateEndpoint, of Join and of the hostname goroutine does to the plugin and to the links,
 in terms of what was there before (pkg/plugin/network.go:91-408, pkg/plugin/network.go:501-671).
 */
module ProtocolExact {
  import opened Wrappers
  import opened MacGen
  import opened Identity
  import opened Protocol
  import opened CreateRuns
  import Endpoints
  import CacheSpec
  import PendingSpec
  import Seqs

  // ---------------------------------------------------------------- naming

  /** The cached endpoint `k` of the network has the presented address and a name. */
  ghost predicate Resolves(w: World, req: Request, k: string) {
    && req.mac != "" && req.net in w.cache && w.cache[req.net].endpoints.Made?
    && var es := w.cache[req.net].endpoints.entries;
       k in es && es[k].macAddress == req.mac && es[k].seedName != ""
  }

  /** A call begins if no other is running and its endpoint is new. */
  lemma BeginExact(md5: string -> Digest, w: World, req: Request)
    ensures Next(md5, w, Creating(Begin(req))) ==
            if w.create == NoCreate && req.ep !in w.requests
            then w.(create := Lookup(req), requests := w.requests[req.ep := req]) else w
  {
    hide RecordStep, ChooseStep, LinkStep, SetUpStep, NamingStep;
  }

  /** Everyone else's steps are those of the pending maps, of the cache, and the removal of a link. */
  lemma OthersExact(md5: string -> Digest, w: World, ep: string, p: PendingSpec.Timed, t: CacheSpec.Timed)
    requires CacheSpec.ValidOp(t.op)
    ensures var r := Next(md5, w, Unlink(ep));
            && r == w.(links := r.links) && r.links.Keys == w.links.Keys - {ep}
            && forall k :: k in r.links ==> r.links[k] == w.links[k]
    ensures Next(md5, w, PendingDo(p)) == w.(pending := PendingSpec.Step(w.pending, p))
    ensures Next(md5, w, CacheDo(t)) == w.(cache := CacheSpec.Step(w.cache, t).nets)
  {
    hide CreateStep, JoinStep, NameHostStep, PendingSpec.Step, CacheSpec.Step;
  }

  /** Where the running call is when it makes this step. */
  predicate TurnOf(c: Create, e: CreateEvent) {
    match e
    case Begin(_) => c.NoCreate?
    case LookupMac(_) => c.Lookup?
    case PopOnce(_) => c.Popping?
    case List(_) => c.Listing?
    case Eliminate => c.Eliminating?
    case Enrich => c.Enriching?
    case Record => c.Recording?
    case Choose(_) => c.Choosing?
    case AddLink(_, _) => c.Linking?
    case SetUp(_) => c.SettingUp?
  }

  /** The stage in which the goroutine makes this step; Join takes the hint of what is created and not yet joined. */
  predicate StageOf(w: World, ep: string, e: JoinEvent) {
    if e.TakeHint? then ep in w.created && ep !in w.posts && ep in w.hints && ep in w.requests
    else
      ep in w.posts &&
      match e
      case PostStart(_) => w.posts[ep].stage == Starting
      case PostIdentify(_) => w.posts[ep].stage == Identifying
      case PostCorrect(_, _) => w.posts[ep].stage == Correcting
      case PostSetUp(_) => w.posts[ep].stage == Connecting
      case PostPersist(_, _, _, _) => w.posts[ep].stage == Persisting
      case TakeHint => true
  }

  /** Steps come one after another: one whose turn it is not changes nothing. */
  lemma OutOfTurn(md5: string -> Digest, w: World, c: CreateEvent, ep: string, j: JoinEvent)
    ensures !TurnOf(w.create, c) ==> Next(md5, w, Creating(c)) == w
    ensures !StageOf(w, ep, j) ==> Next(md5, w, Joining(ep, j)) == w
  {
    hide CorrectStep, Persisted, SeedMac, MacMatches, Sole, Claimed;
    if ep in w.posts && !StageOf(w, ep, j) {
      assert w.posts[ep := w.posts[ep]] == w.posts;
    }
  }

  /** The lookup resolves to any cached endpoint with the presented address and a name; else the queue is next. */
  lemma LookupExact(md5: string -> Digest, w: World, pick: string)
    requires w.create.Lookup?
    ensures var req, r := w.create.req, Next(md5, w, Creating(LookupMac(pick)));
            && ((forall k :: !Resolves(w, req, k)) ==> r == w.(create := Popping(req, 0)))
            && (Resolves(w, req, pick) ==>
                  var e := w.cache[req.net].endpoints.entries[pick];
                  r == w.(create := Enriching(req, e.seedName, e.hostname, ByMac)))
            && (!Resolves(w, req, pick) && (exists k :: Resolves(w, req, k)) ==> r == w)
  {
    hide PopStep, ListStep, EliminateStep, EnrichStep, RecordStep, ChooseStep, JoinStep;
    var req := w.create.req;
    if req.mac != "" && req.net in w.cache {
      assert forall k :: k in MacMatches(w.cache[req.net], req.mac) <==> Resolves(w, req, k);
    }
  }

  /** One of fifteen attempts: the front of the queue is taken, and names the endpoint unless its name is empty. */
  lemma PopExact(md5: string -> Digest, w: World, now: int)
    requires w.create.Popping?
    ensures var req, n := w.create.req, w.create.attempt;
            var q := if req.net in w.pending.queues then w.pending.queues[req.net] else [];
            Next(md5, w, Creating(PopOnce(now))) ==
              if q == [] then w.(create := if n + 1 < 15 then Popping(req, n + 1) else Listing(req, ""))
              else w.(pending := w.pending.(queues := w.pending.queues[req.net := q[1..]]),
                      create := if q[0].name == "" then Listing(req, q[0].hostname)
                                else Enriching(req, q[0].name, q[0].hostname, ByQueue))
  {
    hide LookupStep, ListStep, EliminateStep, EnrichStep, RecordStep, ChooseStep, JoinStep;
  }

  /** A failed listing leaves the endpoint unnamed. */
  lemma ListExact(md5: string -> Digest, w: World, result: Option<seq<Container>>)
    requires w.create.Listing?
    ensures var req, h := w.create.req, w.create.hostname;
            Next(md5, w, Creating(List(result))) ==
              w.(create := if result.None? then Enriching(req, "", h, Unnamed) else Eliminating(req, h, result.value))
  {
    hide LookupStep, PopStep, EliminateStep, EnrichStep, RecordStep, ChooseStep, JoinStep;
  }

  /** Position `i` holds the only container that is on the network, free, and not claimed by a hint. */
  ghost predicate OnlyFree(w: World, i: int)
    requires w.create.Eliminating?
  {
    OnlyAt(w.create.ctrs, IsFree(w.create.req, w.hints), i)
  }

  ghost function IsFree(req: Request, hints: Hints): (r: Container -> bool) {
    (c: Container) => Free(c, req, hints)
  }

  ghost predicate Free(c: Container, req: Request, hints: Hints) {
    && (exists i :: FirstOn(c.attachments, req.net, i) && c.attachments[i].endpointId in {"", req.ep})
    && forall k :: k in hints && hints[k].seedName != "" ==> !Called(c, hints[k].seedName)
  }

  /** Elimination takes the name of the only free container for name and hostname, and asks Docker for its hostname. */
  lemma EliminateExact(md5: string -> Digest, w: World, i: int)
    requires w.create.Eliminating?
    ensures var req, r := w.create.req, Next(md5, w, Creating(Eliminate));
            && ((forall j :: !OnlyFree(w, j)) ==> r == w.(create := Enriching(req, "", w.create.hostname, Unnamed)))
            && (OnlyFree(w, i) && w.create.ctrs[i].names == [] ==>
                  r == w.(create := Enriching(req, "", w.create.hostname, Unnamed)))
            && (OnlyFree(w, i) && w.create.ctrs[i].names != [] ==>
                  exists name :: Called(w.create.ctrs[i], name)
                    && r == w.(create := Enriching(req, name, name, if name == "" then Unnamed else ByElimination),
                               namers := w.namers + {(req.ep, name)}))
  {
    hide LookupStep, PopStep, ListStep, EnrichStep, RecordStep, ChooseStep, JoinStep, Sole, Candidate, Free;
    var req, ctrs := w.create.req, w.create.ctrs;
    var keep, free := IsCandidate(req.net, req.ep, Claimed(w.hints)), IsFree(req, w.hints);
    forall c ensures keep(c) <==> free(c) {
      FreeIs(c, req, w.hints);
    }
    SameOnly(ctrs, keep, free);
    var at := SolePosition(ctrs, req.net, req.ep, Claimed(w.hints));
    assert OnlyFree(w, at) <==> OnlyAt(ctrs, keep, at);
    if OnlyFree(w, i) {
      assert at == i;
      NameIs(ctrs[i], NameOf(ctrs[i]));
    }
  }

  lemma FreeIs(c: Container, req: Request, hints: Hints)
    ensures Candidate(c, req.net, req.ep, Claimed(hints)) <==> Free(c, req, hints)
  {
    CandidateExact(c, req.net, req.ep, Claimed(hints));
    forall k | k in hints && hints[k].seedName != ""
      ensures Called(c, hints[k].seedName) <==> NameOf(c) == hints[k].seedName
    {
      NameIs(c, hints[k].seedName);
    }
  }

  lemma SameOnly(ctrs: seq<Container>, keep: Container -> bool, free: Container -> bool)
    requires forall c :: keep(c) <==> free(c)
    ensures forall i :: OnlyAt(ctrs, keep, i) <==> OnlyAt(ctrs, free, i)
  {
  }

  /** A name without a hostname gets the hostname that the metadata has for it on the network. */
  lemma EnrichExact(md5: string -> Digest, w: World)
    requires w.create.Enriching?
    ensures var req, s, h, m := w.create.req, w.create.seedName, w.create.hostname, w.pending.metas;
            Next(md5, w, Creating(Enrich)) ==
              w.(create := Recording(req, s,
                             if h == "" && s != "" && req.net in m && s in m[req.net] then m[req.net][s].hostname
                             else h,
                             w.create.source))
  {
    hide LookupStep, PopStep, ListStep, EliminateStep, RecordStep, ChooseStep, JoinStep;
  }

  // ---------------------------------------------------------------- hint, address, link

  /** The hint gets the hostname and the name, whatever else it had. */
  lemma RecordExact(md5: string -> Digest, w: World)
    requires w.create.Recording?
    ensures var ep, r := w.create.req.ep, Next(md5, w, Creating(Record));
            var held := if ep in w.hints then w.hints[ep] else Hint("", "", "", false);
            && r == w.(create := Choosing(w.create.req, w.create.seedName, w.create.hostname), hints := r.hints,
                       fallbacks := if w.create.source == ByElimination then w.fallbacks[ep := w.create.seedName]
                                    else w.fallbacks)
            && r.hints == w.hints[ep := Hint(w.create.hostname, w.create.seedName, held.macSeed, held.userMac)]
  {
    hide NamingStep, ChooseStep, JoinStep;
  }

  /**
   Without a presented address the seed is the hostname, else the name, else the endpoint's own ID; it is recorded,
   and the link is to get 0x02 and the first five bytes of its digest. A presented address is flagged and parsed.
   */
  lemma ChooseExact(md5: string -> Digest, w: World, option: string)
    requires w.create.Choosing? && w.create.req.ep != ""
    ensures var req, r := w.create.req, Next(md5, w, Creating(Choose(option)));
            var h := if req.ep in w.hints then w.hints[req.ep] else Hint("", "", "", false);
            var seed := if w.create.hostname != "" then w.create.hostname
                        else if w.create.seedName != "" then w.create.seedName else req.ep;
            && (req.mac == "" ==>
                  r == w.(create := Linking(req, Some([2] + md5(seed)[..5])),
                          hints := w.hints[req.ep := h.(macSeed := seed)]))
            && (req.mac != "" ==>
                  r == w.(create := Linking(req, ParseMac(req.mac)), hints := w.hints[req.ep := h.(userMac := true)]))
  {
    hide NamingStep, RecordStep, JoinStep, SeedMac, ParseMac;
    SeedMacOctets(md5, ChooseSeed(w.create.hostname, w.create.seedName, w.create.req.ep), option);
  }

  /** A link that is added has the chosen address, or one of the kernel's if the presented one does not parse. */
  lemma LinkExact(md5: string -> Digest, w: World, ok: bool, kernelMac: seq<byte>)
    requires w.create.Linking?
    ensures var req, mac := w.create.req, w.create.mac;
            Next(md5, w, Creating(AddLink(ok, kernelMac))) ==
              if ok
              then w.(create := SettingUp(req), links := w.links[req.ep := if mac.Some? then mac.value else kernelMac])
              else w.(create := NoCreate)
  {
    hide NamingStep, RecordStep, ChooseStep, JoinStep;
  }

  /** A failed set-up takes the link away again; a good one makes the endpoint one that can be joined. */
  lemma SetUpExact(md5: string -> Digest, w: World, ok: bool)
    requires w.create.SettingUp?
    ensures var ep := w.create.req.ep;
            Next(md5, w, Creating(SetUp(ok))) ==
              if ok then w.(create := NoCreate, created := w.created + {ep})
              else w.(create := NoCreate, links := w.links - {ep})
  {
    hide NamingStep, RecordStep, ChooseStep, JoinStep;
  }

  // ---------------------------------------------------------------- Join and the goroutines

  /** Join takes the hint of a created endpoint and starts its goroutine. */
  lemma TakeExact(md5: string -> Digest, w: World, ep: string)
    requires ep in w.created && ep !in w.posts && ep in w.hints && ep in w.requests
    ensures var r := Next(md5, w, Joining(ep, TakeHint));
            && r == w.(hints := w.hints - {ep}, posts := w.posts[ep := r.posts[ep]])
            && r.posts[ep] == Post(w.requests[ep].net, w.hints[ep], Starting, [], Found("", ""), [], true, false)
  {
    hide CreateStep, PostStep;
  }

  /** The goroutine reads the interface's address when it starts, and then searches. */
  lemma StartExact(md5: string -> Digest, w: World, ep: string, ok: bool)
    requires ep in w.posts && w.posts[ep].stage == Starting
    ensures var p := w.posts[ep];
            Next(md5, w, Joining(ep, PostStart(ok))) ==
              w.(posts := w.posts[ep := if ok && ep in w.links then p.(stage := Identifying, attrs := w.links[ep])
                                        else p.(stage := Failed)])
  {
    hide CreateStep, CorrectStep, TakeStep, Persisted;
  }

  /** Its search is the one over its own polls. */
  lemma IdentifyExact(md5: string -> Digest, w: World, ep: string, attempts: seq<Attempt>)
    requires ep in w.posts && w.posts[ep].stage == Identifying
    ensures Next(md5, w, Joining(ep, PostIdentify(attempts))) ==
            w.(posts := w.posts[ep := w.posts[ep].(stage := Correcting, attempts := attempts,
                                                   found := Identified(attempts, ep))])
  {
    hide CreateStep, CorrectStep, TakeStep, Persisted, Identified;
  }

  /**
   The hostname goroutine, once Docker has answered it, completes the hint with the container's hostname - or the name,
   if that is only the short container ID - unless another hostname has been found for it; then it is gone.
   */
  lemma NameHostExact(md5: string -> Digest, w: World, ep: string, seed: string, found: Option<Inspected>)
    requires (ep, seed) in w.namers
    ensures var r := Next(md5, w, NameHost(ep, seed, found));
            var h := if ep in w.hints then w.hints[ep] else Hint("", "", "", false);
            && r == w.(namers := w.namers - {(ep, seed)}, hints := r.hints)
            && (found.None? || !(h.hostname == "" || h.hostname == seed) ==> r.hints == w.hints)
            && (found.Some? && (h.hostname == "" || h.hostname == seed) ==>
                  var short := |found.value.hostname| == 12 && found.value.hostname <= found.value.id;
                  r.hints == w.hints[ep := h.(hostname := if short then seed else found.value.hostname)])
  {
    hide CreateStep, JoinStep, RealHostname;
    if found.Some? {
      RealHostnameExact(found.value, seed);
    }
  }

  // ---------------------------------------------------------------- registrations

  /**
   A registration queues the container behind the entries of other names, with the clock of the push, and then - after
   whatever others did in between - records its metadata with the clock of the upsert. It touches nothing else.
   */
  lemma RegisteredExact(md5: string -> Digest, w: World, net: string, name: string, hostname: string, forward: bool,
                        now: int, between: seq<Event>, later: int)
    returns (pushed: World)
    requires Foreign(between)
    ensures pushed == w.(pending := pushed.pending) && pushed.pending.metas == w.pending.metas
    ensures PushedOn(w.pending, pushed.pending, net, PendingSpec.Pending(name, hostname, now, forward))
    ensures var v := Follow(md5, pushed, between);
            var r := Registered(md5, w, net, name, hostname, forward, now, between, later);
            && r == v.(pending := r.pending) && r.pending.queues == v.pending.queues
            && MetaOn(v.pending.metas, r.pending.metas, net, PendingSpec.Pending(name, hostname, later, false))
  {
    hide Follow, PushedOn, PendingSpec.PushQueues;
    var push := PendingSpec.Timed(PendingSpec.Push(net, name, hostname, forward), now);
    pushed := w.(pending := PendingSpec.Step(w.pending, push));
    PushedIs(w.pending, net, name, hostname, forward, now);
  }

  /** `e` is last in its queue, behind the entries of other names - the forward ones only if it is forward itself. */
  ghost predicate PushedOn(s: PendingSpec.State, r: PendingSpec.State, net: string, e: PendingSpec.Pending) {
    && r.queues.Keys == s.queues.Keys + {net}
    && (forall n :: n in s.queues && n != net ==> r.queues[n] == s.queues[n])
    && var q, after := if net in s.queues then s.queues[net] else [], r.queues[net];
       && after != [] && after[|after| - 1] == e
       && forall x :: x in after[..|after| - 1] <==> x in q && x.name != e.name && (e.forward ==> x.forward)
  }

  /** The metadata of `e`'s name on the network is `e`, and all other metadata is as before. */
  ghost predicate MetaOn(m: PendingSpec.Metas, r: PendingSpec.Metas, net: string, e: PendingSpec.Pending) {
    && r.Keys == m.Keys + {net}
    && (forall n :: n in m && n != net ==> r[n] == m[n])
    && forall k ::
         && (k in r[net] <==> k == e.name || (net in m && k in m[net]))
         && (k in r[net] ==> r[net][k] == if k == e.name then e else m[net][k])
  }

  lemma PushedIs(s: PendingSpec.State, net: string, name: string, hostname: string, forward: bool, now: int)
    ensures var e := PendingSpec.Pending(name, hostname, now, forward);
            var push := PendingSpec.Timed(PendingSpec.Push(net, name, hostname, forward), now);
            PushedOn(s, PendingSpec.Step(s, push), net, e)
  {
    hide Seqs.Filter;
    var q := if net in s.queues then s.queues[net] else [];
    Seqs.FilterMembers(q, PendingSpec.IsForward());
    Seqs.FilterMembers(PendingSpec.Flushed(q, forward), PendingSpec.NotNamed(name));
  }

  /** Leave queues a backward entry of a cached endpoint that has a name, and of no other. */
  lemma LeaveExact(md5: string -> Digest, w: World, nets: CacheSpec.Networks, net: string, ep: string, now: int,
                   between: seq<Event>, later: int)
    requires Foreign(between)
    ensures var r := Endpoints.Remembered(md5, w, Endpoints.EndpointOf(nets, net, ep), net, now, between, later);
            if net in nets && nets[net].endpoints.Made? && ep in nets[net].endpoints.entries
               && nets[net].endpoints.entries[ep].seedName != ""
            then
              var e := nets[net].endpoints.entries[ep];
              exists pushed: World ::
                && pushed == w.(pending := pushed.pending) && pushed.pending.metas == w.pending.metas
                && PushedOn(w.pending, pushed.pending, net, PendingSpec.Pending(e.seedName, e.hostname, now, false))
                && var v := Follow(md5, pushed, between);
                   && r == v.(pending := r.pending) && r.pending.queues == v.pending.queues
                   && MetaOn(v.pending.metas, r.pending.metas, net,
                             PendingSpec.Pending(e.seedName, e.hostname, later, false))
            else r == w
  {
    hide Follow, Registered, PushedOn, MetaOn;
    var known := Endpoints.EndpointOf(nets, net, ep);
    if known.Some? && known.value.seedName != "" {
      var e := known.value;
      var pushed := RegisteredExact(md5, w, net, e.seedName, e.hostname, false, now, between, later);
    }
  }
}
