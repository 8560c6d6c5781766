/**
 The endpoint protocol as a step system: CreateEndpoint, Join with its background correction, and
 everything that may run between their critical sections (pkg/plugin/network.go:91-408,
 pkg/plugin/network.go:501-671). Docker, netlink and the clock are arguments of the events, so a
 property of every event sequence holds for every interleaving and every outcome of theirs.

 Assumed of Docker: an endpoint ID is created once, and joined at most once, after CreateEndpoint
 has answered without error.
 */
module Protocol {
  import opened Wrappers
  import opened MacGen
  import opened Identity
  import PendingRuns
  import PendingSpec
  import CacheSpec

  /** `mac` is empty when Docker presents none. */
  datatype Request = Request(net: string, ep: string, mac: string)

  datatype Source = ByMac | ByQueue | ByElimination | Unnamed

  /** Where the one running CreateEndpoint stands; createMu admits no second. */
  datatype Create =
    | NoCreate
    | Lookup(req: Request)
    | Popping(req: Request, attempt: nat)
    | Listing(req: Request, hostname: string)
    | Eliminating(req: Request, hostname: string, ctrs: seq<Container>)
    | Enriching(req: Request, seedName: string, hostname: string, source: Source)
    | Recording(req: Request, seedName: string, hostname: string, source: Source)
    | Choosing(req: Request, seedName: string, hostname: string)
    | Linking(req: Request, mac: Option<seq<byte>>)
    | SettingUp(req: Request)

  datatype Stage = Starting | Identifying | Correcting | Connecting | Persisting | Finished | Failed

  /** The goroutine Join starts; `attrs` is the interface address as it last read it. */
  datatype Post = Post(net: string, hint: Hint, stage: Stage, attempts: seq<Attempt>, found: Found,
                       attrs: seq<byte>, macOk: bool, refreshed: bool)

  datatype World = World(
    pending: PendingSpec.State,
    cache: CacheSpec.Networks,
    hints: Hints,
    create: Create,
    requests: map<string, Request>,      // every CreateEndpoint call so far
    created: set<string>,                // those that succeeded
    links: map<string, seq<byte>>,       // hardware address of each container-side interface
    namers: set<(string, string)>,       // hostname goroutines still running: endpoint and seed name
    posts: map<string, Post>,            // every Join so far
    fallbacks: map<string, string>)      // endpoints named by elimination

  const START := World(PendingSpec.EMPTY, map[], map[], NoCreate, map[], {}, map[], {}, map[], map[])

  const POP_ATTEMPTS := 15

  datatype CreateEvent =
    | Begin(req: Request)
    | LookupMac(pick: string)
    | PopOnce(now: int)
    | List(result: Option<seq<Container>>)
    | Eliminate
    | Enrich
    | Record
    | Choose(macFormat: string)
    | AddLink(ok: bool, kernelMac: seq<byte>)
    | SetUp(ok: bool)

  datatype JoinEvent =
    | TakeHint
    | PostStart(ok: bool)
    | PostIdentify(attempts: seq<Attempt>)
    | PostCorrect(setOk: bool, macFormat: string)
    | PostSetUp(refreshed: bool)
    | PostPersist(sandboxKey: string, ip: string, gateway: string, now: int)

  /** `Creating` is CreateEndpoint, `Joining` is Join and its goroutine for one endpoint; the rest is everyone else. */
  datatype Event =
    | Creating(c: CreateEvent)
    | Joining(ep: string, j: JoinEvent)
    | NameHost(ep: string, seedName: string, found: Option<Inspected>)
    | Unlink(ep: string)
    | PendingDo(p: PendingSpec.Timed)
    | CacheDo(t: CacheSpec.Timed)

  ghost predicate ValidEvent(e: Event) {
    e.CacheDo? ==> CacheSpec.ValidOp(e.t.op)
  }

  // ---------------------------------------------------------------- steps

  function SetHint(w: World, ep: string, h: Hint): (r: World) {
    w.(hints := w.hints[ep := h])
  }

  /** The stages that look for a name; they leave hints, links and the cache alone. */
  predicate Naming(c: Create) {
    c.Lookup? || c.Popping? || c.Listing? || c.Eliminating? || c.Enriching? || c.Recording?
  }

  /** At most the running CreateEndpoint's search has moved on. */
  ghost predicate NamingFrame(w: World, r: World) {
    && r == w.(create := r.create, pending := r.pending, namers := r.namers)
    && (r.create == w.create || (Naming(w.create) && Naming(r.create) && r.create.req == w.create.req))
  }

  function LookupStep(w: World, pick: string): (r: World)
    ensures NamingFrame(w, r)
  {
    if !w.create.Lookup? then w
    else
      var req := w.create.req;
      var matches := if req.mac != "" && req.net in w.cache then MacMatches(w.cache[req.net], req.mac) else {};
      if matches == {} then w.(create := Popping(req, 0))
      else if pick !in matches then w
      else
        var e := CacheSpec.Entries(w.cache[req.net].endpoints)[pick];
        w.(create := Enriching(req, e.seedName, e.hostname, ByMac))
  }

  /** One of the fifteen attempts to pop the network's queue. */
  function PopStep(w: World, now: int): (r: World)
    ensures NamingFrame(w, r)
  {
    if !w.create.Popping? then w
    else
      var req, attempt := w.create.req, w.create.attempt;
      var q := PendingSpec.QueueOf(w.pending.queues, req.net);
      if q == [] then
        w.(create := if attempt + 1 < POP_ATTEMPTS then Popping(req, attempt + 1) else Listing(req, ""))
      else
        w.(pending := PendingSpec.Step(w.pending, PendingSpec.Timed(PendingSpec.Pop(req.net), now)),
           create := if q[0].name == "" then Listing(req, q[0].hostname)
                     else Enriching(req, q[0].name, q[0].hostname, ByQueue))
  }

  function ListStep(w: World, result: Option<seq<Container>>): (r: World)
    ensures NamingFrame(w, r)
  {
    if !w.create.Listing? then w
    else if result.None? then w.(create := Enriching(w.create.req, "", w.create.hostname, Unnamed))
    else w.(create := Eliminating(w.create.req, w.create.hostname, result.value))
  }

  /** The container that elimination is left with, if its listing gives it a name at all. */
  function EliminateStep(w: World): (r: World)
    ensures NamingFrame(w, r)
  {
    if !w.create.Eliminating? then w
    else
      var req, c := w.create.req, Sole(w.create.ctrs, w.create.req.net, w.create.req.ep, Claimed(w.hints));
      if c.None? || c.value.names == [] then w.(create := Enriching(req, "", w.create.hostname, Unnamed))
      else
        var seed := NameOf(c.value);
        w.(create := Enriching(req, seed, seed, if seed == "" then Unnamed else ByElimination),
           namers := w.namers + {(req.ep, seed)})
  }

  function EnrichStep(w: World): (r: World)
    ensures NamingFrame(w, r)
  {
    if !w.create.Enriching? then w
    else
      var req, seed, hostname := w.create.req, w.create.seedName, w.create.hostname;
      var meta := if req.net in w.pending.metas then w.pending.metas[req.net] else map[];
      w.(create := Recording(req, seed,
                             if hostname == "" && seed != "" && seed in meta then meta[seed].hostname else hostname,
                             w.create.source))
  }

  function NamingStep(w: World, e: CreateEvent): (r: World)
    ensures NamingFrame(w, r)
  {
    match e
    case LookupMac(pick) => LookupStep(w, pick)
    case PopOnce(now) => PopStep(w, now)
    case List(result) => ListStep(w, result)
    case Eliminate => EliminateStep(w)
    case Enrich => EnrichStep(w)
    case _ => w
  }

  function BeginStep(w: World, req: Request): (r: World) {
    if !w.create.NoCreate? || req.ep in w.requests then w
    else w.(create := Lookup(req), requests := w.requests[req.ep := req])
  }

  function RecordStep(w: World): (r: World) {
    match w.create
    case Recording(req, seed, hostname, source) =>
      SetHint(w, req.ep, HintOf(w.hints, req.ep).(hostname := hostname, seedName := seed))
        .(create := Choosing(req, seed, hostname),
          fallbacks := if source == ByElimination then w.fallbacks[req.ep := seed] else w.fallbacks)
    case _ => w
  }

  function ChooseStep(md5: string -> Digest, w: World, macFormat: string): (r: World)
    ensures r == w.(create := r.create, hints := r.hints)
    ensures !w.create.Choosing? ==> r == w
    ensures w.create.Choosing? ==>
              var ep := w.create.req.ep;
              && (r.create.NoCreate? || (r.create.Linking? && r.create.req == w.create.req))
              && (r.hints == w.hints || r.hints == w.hints[ep := HintOf(r.hints, ep)])
              && HintOf(r.hints, ep).seedName == HintOf(w.hints, ep).seedName
  {
    match w.create
    case Choosing(req, seed, hostname) =>
      if req.mac != "" then
        SetHint(w, req.ep, HintOf(w.hints, req.ep).(userMac := true)).(create := Linking(req, ParseMac(req.mac)))
      else
        var macSeed := ChooseSeed(hostname, seed, req.ep);
        if macSeed == "" then w.(create := NoCreate)
        else
          SetHint(w, req.ep, HintOf(w.hints, req.ep).(macSeed := macSeed))
            .(create := Linking(req, SeedMac(md5, macSeed, macFormat)))
    case _ => w
  }

  function LinkStep(w: World, ok: bool, kernelMac: seq<byte>): (r: World) {
    match w.create
    case Linking(req, mac) =>
      if ok
      then w.(create := SettingUp(req), links := w.links[req.ep := if mac.Some? then mac.value else kernelMac])
      else w.(create := NoCreate)
    case _ => w
  }

  function SetUpStep(w: World, ok: bool): (r: World) {
    match w.create
    case SettingUp(req) =>
      if ok then w.(create := NoCreate, created := w.created + {req.ep})
      else w.(create := NoCreate, links := w.links - {req.ep})
    case _ => w
  }

  function CreateStep(md5: string -> Digest, w: World, e: CreateEvent): (r: World)
    ensures r.posts == w.posts && r.cache == w.cache
  {
    match e
    case Begin(req) => BeginStep(w, req)
    case Record => RecordStep(w)
    case Choose(macFormat) => ChooseStep(md5, w, macFormat)
    case AddLink(ok, kernelMac) => LinkStep(w, ok, kernelMac)
    case SetUp(ok) => SetUpStep(w, ok)
    case _ => NamingStep(w, e)
  }

  /** The address correction: needed only for a wrong seed, and never made on a user's address. */
  function CorrectStep(md5: string -> Digest, w: World, ep: string, p: Post, setOk: bool, macFormat: string): (r: World)
    ensures r == w.(posts := r.posts, links := r.links) && r.posts.Keys == w.posts.Keys + {ep}
  {
    var f := p.found;
    if f.name == "" then w.(posts := w.posts[ep := p.(stage := Connecting)])
    else
      var seed := EffectiveSeed(f);
      var hint := p.hint.(macSeed := seed, seedName := f.name,
                              hostname := if f.hostname != "" then f.hostname else f.name);
      var fix, mac := seed != p.hint.macSeed && !p.hint.userMac, SeedMac(md5, seed, macFormat);
      var done := fix && setOk && ep in w.links && mac.Some?;
      w.(posts := w.posts[ep := p.(hint := hint, stage := Connecting, macOk := !fix || done)],
         links := if done then w.links[ep := mac.value] else w.links)
  }

  /** The endpoint state written after Join. */
  function EntryOf(ep: string, p: Post, sandboxKey: string, ip: string, gateway: string): (r: CacheSpec.Endpoint) {
    CacheSpec.Endpoint(ep, sandboxKey, Join(p.attrs, ':'), ip, "", gateway, p.hint.hostname, p.hint.seedName)
  }

  /** Join's critical section. */
  function TakeStep(w: World, ep: string): (r: World) {
    if ep !in w.created || ep in w.posts || ep !in w.hints || ep !in w.requests then w
    else
      var post := Post(w.requests[ep].net, w.hints[ep], Starting, [], Found("", ""), [], true, false);
      w.(hints := w.hints - {ep}, posts := w.posts[ep := post])
  }

  function LinkOf(links: map<string, seq<byte>>, ep: string): (r: Option<seq<byte>>) {
    if ep in links then Some(links[ep]) else None
  }

  /** Where the goroutine stands after a step, given the address of its interface if it is still there. */
  function NextPost(ep: string, p: Post, link: Option<seq<byte>>, e: JoinEvent): (r: Post) {
    match (p.stage, e)
    case (Starting, PostStart(ok)) =>
      if ok && link.Some? then p.(stage := Identifying, attrs := link.value) else p.(stage := Failed)
    case (Identifying, PostIdentify(attempts)) =>
      p.(stage := Correcting, attempts := attempts, found := Identified(attempts, ep))
    case (Connecting, PostSetUp(refreshed)) =>
      if refreshed && link.Some? then p.(stage := Persisting, attrs := link.value, refreshed := true)
      else p.(stage := Persisting)
    case (Persisting, PostPersist(_, _, _, _)) => p.(stage := Finished)
    case _ => p
  }

  function Persisted(nets: CacheSpec.Networks, ep: string, p: Post, e: JoinEvent): (r: CacheSpec.Networks)
    requires e.PostPersist?
  {
    var op := CacheSpec.SetEndpoint(p.net, EntryOf(ep, p, e.sandboxKey, e.ip, e.gateway));
    CacheSpec.Step(nets, CacheSpec.Timed(op, e.now)).nets
  }

  /** A step of Join's goroutine. */
  function PostStep(md5: string -> Digest, w: World, ep: string, e: JoinEvent): (r: World)
    ensures r == w.(posts := r.posts, links := r.links, cache := r.cache) && r.posts.Keys == w.posts.Keys
  {
    if ep !in w.posts then w
    else
      var p := w.posts[ep];
      if e.PostCorrect? then (if p.stage == Correcting then CorrectStep(md5, w, ep, p, e.setOk, e.macFormat) else w)
      else
        w.(posts := w.posts[ep := NextPost(ep, p, LinkOf(w.links, ep), e)],
           cache := if e.PostPersist? && p.stage == Persisting then Persisted(w.cache, ep, p, e) else w.cache)
  }

  function JoinStep(md5: string -> Digest, w: World, ep: string, e: JoinEvent): (r: World)
    ensures r == w.(hints := r.hints, posts := r.posts, links := r.links, cache := r.cache)
    ensures (r.hints == w.hints && r.posts.Keys == w.posts.Keys)
         || (r.hints == w.hints - {ep} && r.posts.Keys == w.posts.Keys + {ep} && ep in w.created)
  {
    if e.TakeHint? then TakeStep(w, ep) else PostStep(md5, w, ep, e)
  }

  /** The hint is completed only if no other hostname has been found for it. */
  function HostNamed(hints: Hints, ep: string, seed: string, found: Option<Inspected>): (r: Hints)
    ensures forall k :: k in hints ==> k in r && r[k].seedName == hints[k].seedName
    ensures r.Keys <= hints.Keys + {ep}
  {
    var h := HintOf(hints, ep);
    if found.Some? && (h.hostname == "" || h.hostname == seed)
    then hints[ep := h.(hostname := RealHostname(found.value, seed))]
    else hints
  }

  /** The hostname goroutine writes its hint back even if Join has taken it meanwhile. */
  function NameHostStep(w: World, ep: string, seed: string, found: Option<Inspected>): (r: World) {
    if (ep, seed) !in w.namers then w
    else w.(namers := w.namers - {(ep, seed)}, hints := HostNamed(w.hints, ep, seed, found))
  }

  function Next(md5: string -> Digest, w: World, e: Event): (r: World)
    requires ValidEvent(e)
  {
    match e
    case Creating(c) => CreateStep(md5, w, c)
    case Joining(ep, j) => JoinStep(md5, w, ep, j)
    case NameHost(ep, seed, found) => NameHostStep(w, ep, seed, found)
    case Unlink(ep) => w.(links := w.links - {ep})
    case PendingDo(p) => w.(pending := PendingSpec.Step(w.pending, p))
    case CacheDo(t) => w.(cache := CacheSpec.Step(w.cache, t).nets)
  }

  ghost predicate ValidRun(es: seq<Event>) {
    forall i :: 0 <= i < |es| ==> ValidEvent(es[i])
  }

  function Run(md5: string -> Digest, es: seq<Event>): (r: World)
    requires ValidRun(es)
  {
    if es == [] then START else Next(md5, Run(md5, es[..|es| - 1]), es[|es| - 1])
  }

  // ---------------------------------------------------------------- addresses follow seeds

  /** The hint records how the address was chosen. */
  predicate HintDone(req: Request, h: Hint) {
    && (h.userMac <==> req.mac != "")
    && (req.mac == "" ==> h.macSeed != "")
  }

  /** The user's address if there is one that parses; otherwise the one generated from the recorded seed. */
  predicate Fits(md5: string -> Digest, req: Request, macSeed: string, mac: seq<byte>) {
    if req.mac != "" then ParseMac(req.mac).Some? ==> mac == ParseMac(req.mac).value
    else mac == Octets(md5, macSeed)
  }

  predicate LinkFits(md5: string -> Digest, req: Request, macSeed: string, link: Option<seq<byte>>) {
    link.Some? ==> Fits(md5, req, macSeed, link.value)
  }

  predicate Corrected(s: Stage) { s in {Connecting, Persisting, Finished} }

  /** The seed the address of a joined endpoint should follow: the found one once corrected, else the guess. */
  function DueSeed(p: Post): (r: string) {
    if Corrected(p.stage) && p.found.name != "" then EffectiveSeed(p.found) else p.hint.macSeed
  }

  predicate HeldGood(md5: string -> Digest, req: Request, h: Hint, link: Option<seq<byte>>) {
    HintDone(req, h) && LinkFits(md5, req, h.macSeed, link)
  }

  predicate PostGood(md5: string -> Digest, req: Request, p: Post, link: Option<seq<byte>>) {
    && HintDone(req, p.hint) && p.net == req.net
    && (p.macOk ==> LinkFits(md5, req, DueSeed(p), link))
    && (!Corrected(p.stage) ==> p.macOk && !p.refreshed)
    && (p.stage == Connecting ==> !p.refreshed)
    && (p.found.name == "" ==> p.macOk)
    && (Corrected(p.stage) && p.found.name != "" ==>
          && p.hint.seedName == p.found.name
          && p.hint.hostname == if p.found.hostname != "" then p.found.hostname else p.found.name)
    && (p.stage in {Persisting, Finished} && p.refreshed && p.macOk ==> Fits(md5, req, DueSeed(p), p.attrs))
  }

  /** What the running CreateEndpoint has established, given its hint and link. */
  predicate CreateGood(md5: string -> Digest, c: Create, h: Hint, link: Option<seq<byte>>) {
    match c
    case NoCreate => true
    case Linking(req, mac) =>
      HintDone(req, h) && mac == if req.mac != "" then ParseMac(req.mac) else Some(Octets(md5, h.macSeed))
    case SettingUp(req) => HeldGood(md5, req, h, link)
    case _ => !h.userMac
  }

  predicate CreatingFor(c: Create, ep: string) { !c.NoCreate? && c.req.ep == ep }

  /** Everything the protocol keeps about the address of one endpoint. */
  predicate MacInv(md5: string -> Digest, w: World, ep: string) {
    && (ep in w.posts ==> ep in w.created)
    && (ep in w.created ==> ep in w.requests)
    && (ep !in w.requests ==> !CreatingFor(w.create, ep) && !HintOf(w.hints, ep).userMac)
    && (CreatingFor(w.create, ep) ==>
          && ep in w.requests && w.requests[ep] == w.create.req && ep !in w.created
          && CreateGood(md5, w.create, HintOf(w.hints, ep), LinkOf(w.links, ep)))
    && (ep in w.created && ep !in w.posts ==>
          ep in w.hints && HeldGood(md5, w.requests[ep], w.hints[ep], LinkOf(w.links, ep)))
    && (ep in w.posts ==> PostGood(md5, w.requests[ep], w.posts[ep], LinkOf(w.links, ep)))
  }

  lemma SeedMacOctets(md5: string -> Digest, seed: string, option: string)
    ensures SeedMac(md5, seed, option) == Some(Octets(md5, seed))
  {
    GeneratedOctets(md5, seed, MacFormat(option));
  }

  lemma NamingKeepsMac(md5: string -> Digest, w: World, e: CreateEvent, ep: string)
    requires MacInv(md5, w, ep)
    ensures MacInv(md5, NamingStep(w, e), ep)
  {
    hide NamingStep, ParseMac, Text, Octets;
  }

  lemma RecordKeepsMac(md5: string -> Digest, w: World, req: Request, ep: string)
    requires MacInv(md5, w, ep)
    ensures MacInv(md5, BeginStep(w, req), ep) && MacInv(md5, RecordStep(w), ep)
  {
    hide ParseMac, Text, Octets;
  }

  lemma ChooseKeepsMac(md5: string -> Digest, w: World, macFormat: string, ep: string)
    requires MacInv(md5, w, ep)
    ensures MacInv(md5, ChooseStep(md5, w, macFormat), ep)
  {
    hide ParseMac, Text, Octets, SeedMac;
    if w.create.Choosing? {
      SeedMacOctets(md5, ChooseSeed(w.create.hostname, w.create.seedName, w.create.req.ep), macFormat);
    }
  }

  lemma LinkKeepsMac(md5: string -> Digest, w: World, ok: bool, kernelMac: seq<byte>, ep: string)
    requires MacInv(md5, w, ep)
    ensures MacInv(md5, LinkStep(w, ok, kernelMac), ep) && MacInv(md5, SetUpStep(w, ok), ep)
  {
    hide ParseMac, Text, Octets;
  }

  lemma CorrectKeepsMac(md5: string -> Digest, w: World, at: string, setOk: bool, macFormat: string, ep: string)
    requires MacInv(md5, w, ep) && at in w.posts && w.posts[at].stage == Correcting
    ensures MacInv(md5, CorrectStep(md5, w, at, w.posts[at], setOk, macFormat), ep)
  {
    hide ParseMac, Text, Octets, SeedMac;
    SeedMacOctets(md5, EffectiveSeed(w.posts[at].found), macFormat);
  }

  lemma TakeKeepsMac(md5: string -> Digest, w: World, at: string, ep: string)
    requires MacInv(md5, w, ep)
    ensures MacInv(md5, TakeStep(w, at), ep)
  {
    hide ParseMac, Text, Octets;
  }

  lemma PostKeepsMac(md5: string -> Digest, w: World, at: string, e: JoinEvent, ep: string)
    requires MacInv(md5, w, ep)
    ensures MacInv(md5, PostStep(md5, w, at, e), ep)
  {
    hide HintDone, Fits, CorrectStep, Persisted, Identified;
    if at in w.posts && w.posts[at].stage == Correcting && e.PostCorrect? {
      CorrectKeepsMac(md5, w, at, e.setOk, e.macFormat, ep);
    }
  }

  lemma JoinKeepsMac(md5: string -> Digest, w: World, at: string, e: JoinEvent, ep: string)
    requires MacInv(md5, w, ep)
    ensures MacInv(md5, JoinStep(md5, w, at, e), ep)
  {
    hide MacInv, TakeStep, PostStep;
    TakeKeepsMac(md5, w, at, ep);
    PostKeepsMac(md5, w, at, e, ep);
  }

  lemma NameHostKeepsMac(md5: string -> Digest, w: World, at: string, seed: string, found: Option<Inspected>,
                         ep: string)
    requires MacInv(md5, w, ep)
    ensures MacInv(md5, NameHostStep(w, at, seed, found), ep)
  {
    hide ParseMac, Text, Octets, RealHostname;
  }

  lemma OthersKeepMac(md5: string -> Digest, w: World, e: Event, ep: string)
    requires MacInv(md5, w, ep) && ValidEvent(e) && !e.Creating? && !e.Joining?
    ensures MacInv(md5, Next(md5, w, e), ep)
  {
    hide ParseMac, Text, Octets, PendingSpec.Step, CacheSpec.Step, NameHostStep;
    if e.NameHost? {
      NameHostKeepsMac(md5, w, e.ep, e.seedName, e.found, ep);
    }
  }

  lemma {:induction false} NextKeepsMac(md5: string -> Digest, w: World, e: Event, ep: string)
    requires MacInv(md5, w, ep) && ValidEvent(e)
    ensures MacInv(md5, Next(md5, w, e), ep)
  {
    hide MacInv, NamingStep, RecordStep, BeginStep, ChooseStep, LinkStep, SetUpStep, JoinStep;
    match e
    case Creating(c) =>
      match c {
        case Begin(req) => RecordKeepsMac(md5, w, req, ep);
        case Record => RecordKeepsMac(md5, w, Request("", "", ""), ep);
        case Choose(macFormat) => ChooseKeepsMac(md5, w, macFormat, ep);
        case AddLink(ok, kernelMac) => LinkKeepsMac(md5, w, ok, kernelMac, ep);
        case SetUp(ok) => LinkKeepsMac(md5, w, ok, [], ep);
        case _ => NamingKeepsMac(md5, w, c, ep);
      }
    case Joining(at, j) => JoinKeepsMac(md5, w, at, j, ep);
    case _ => OthersKeepMac(md5, w, e, ep);
  }

  lemma {:induction false} RunMac(md5: string -> Digest, es: seq<Event>, ep: string)
    requires ValidRun(es)
    ensures MacInv(md5, Run(md5, es), ep)
  {
    if es != [] {
      RunMac(md5, es[..|es| - 1], ep);
      NextKeepsMac(md5, Run(md5, es[..|es| - 1]), es[|es| - 1], ep);
    }
  }

  predicate FoundGood(w: World, ep: string) {
    ep in w.posts && w.posts[ep].stage !in {Starting, Identifying, Failed} ==>
      w.posts[ep].found == Identified(w.posts[ep].attempts, ep)
  }

  lemma JoinKeepsFound(md5: string -> Digest, w: World, at: string, e: JoinEvent, ep: string)
    requires FoundGood(w, ep)
    ensures FoundGood(JoinStep(md5, w, at, e), ep)
  {
    hide ParseMac, Text, Octets, SeedMac, Identified, EntryOf, CacheSpec.Step;
  }

  lemma {:induction false} RunFound(md5: string -> Digest, es: seq<Event>, ep: string)
    requires ValidRun(es)
    ensures FoundGood(Run(md5, es), ep)
  {
    hide CreateStep, JoinStep, PendingSpec.Step, CacheSpec.Step, Identified;
    if es != [] {
      var w, e := Run(md5, es[..|es| - 1]), es[|es| - 1];
      RunFound(md5, es[..|es| - 1], ep);
      if e.Joining? {
        JoinKeepsFound(md5, w, e.ep, e.j, ep);
      }
    }
  }

  // ---------------------------------------------------------------- when corrections and refreshes succeed

  /** What a correction does, in terms of what was found, what was recorded, and the kernel's answer. */
  lemma CorrectionExact(md5: string -> Digest, w: World, ep: string, setOk: bool, option: string)
    requires ep in w.posts && w.posts[ep].stage == Correcting
    ensures var p, f := w.posts[ep], w.posts[ep].found;
            var r := Next(md5, w, Joining(ep, PostCorrect(setOk, option)));
            var seed := if f.hostname != "" then f.hostname else f.name;
            var due := f.name != "" && seed != p.hint.macSeed && !p.hint.userMac;
            && r == w.(posts := w.posts[ep := r.posts[ep]], links := r.links)
            && r.links == (if due && setOk && ep in w.links then w.links[ep := [2] + md5(seed)[..5]] else w.links)
            && (f.name == "" ==> r.posts[ep] == p.(stage := Connecting))
            && (f.name != "" ==>
                  && r.posts[ep] == p.(stage := Connecting, hint := r.posts[ep].hint, macOk := r.posts[ep].macOk)
                  && (r.posts[ep].macOk <==> seed == p.hint.macSeed || p.hint.userMac || (setOk && ep in w.links))
                  && r.posts[ep].hint == Hint(seed, f.name, seed, p.hint.userMac))
  {
    hide ParseMac, Text, Persisted, NextPost, TakeStep, CreateStep, NameHostStep, SeedMac;
    SeedMacOctets(md5, EffectiveSeed(w.posts[ep].found), option);
  }

  /** What the link refresh does: the address is read again exactly when netlink answers and the link is there. */
  lemma RefreshExact(md5: string -> Digest, w: World, ep: string, refreshed: bool)
    requires ep in w.posts && w.posts[ep].stage == Connecting
    ensures var p, r := w.posts[ep], Next(md5, w, Joining(ep, PostSetUp(refreshed)));
            r == w.(posts := w.posts[ep := if refreshed && ep in w.links
                                           then p.(stage := Persisting, attrs := w.links[ep], refreshed := true)
                                           else p.(stage := Persisting)])
  {
    hide CorrectStep, Persisted, TakeStep, CreateStep, NameHostStep;
  }

  lemma RunNext(md5: string -> Digest, es: seq<Event>, n: nat)
    requires ValidRun(es) && n < |es|
    ensures Run(md5, es[..n + 1]) == Next(md5, Run(md5, es[..n]), es[n])
  {
    hide Next;
    assert es[..n + 1][..n] == es[..n];
  }

  /** A correction that was needed, and that the kernel refused or that found no link. */
  predicate Refuses(w: World, e: Event, ep: string) {
    && e.Joining? && e.ep == ep && e.j.PostCorrect? && ep in w.posts && w.posts[ep].stage == Correcting
    && w.posts[ep].found.name != "" && !w.posts[ep].hint.userMac
    && w.posts[ep].hint.macSeed != (if w.posts[ep].found.hostname != "" then w.posts[ep].found.hostname
                                    else w.posts[ep].found.name)
    && !(e.j.setOk && ep in w.links)
  }

  /** A refresh that netlink answered while the link was there. */
  predicate Refreshes(w: World, e: Event, ep: string) {
    && e == Joining(ep, PostSetUp(true)) && ep in w.posts && w.posts[ep].stage == Connecting && ep in w.links
  }

  lemma OthersPosts(md5: string -> Digest, w: World, e: Event, ep: string)
    requires ValidEvent(e) && !(e.Joining? && e.ep == ep)
    ensures var r := Next(md5, w, e);
            && (ep in r.posts <==> ep in w.posts) && (ep in w.posts ==> r.posts[ep] == w.posts[ep])
  {
    hide PendingSpec.Step, CacheSpec.Step, HostNamed, NextPost, Persisted;
  }

  lemma OtherStages(md5: string -> Digest, w: World, ep: string, j: JoinEvent)
    requires ep in w.posts ==> !(j.PostCorrect? && w.posts[ep].stage == Correcting)
    requires ep in w.posts ==> !(j.PostSetUp? && w.posts[ep].stage == Connecting)
    ensures var r := Next(md5, w, Joining(ep, j));
            && (ep in w.posts ==> ep in r.posts && r.posts[ep].macOk == w.posts[ep].macOk
                                  && r.posts[ep].refreshed == w.posts[ep].refreshed)
            && (ep !in w.posts && ep in r.posts ==> r.posts[ep].macOk && !r.posts[ep].refreshed)
  {
    hide Identified, Persisted, CorrectStep, CreateStep, NameHostStep;
  }

  lemma FlagsMove(md5: string -> Digest, w: World, e: Event, ep: string)
    requires ValidEvent(e) && MacInv(md5, w, ep)
    ensures var r := Next(md5, w, e);
            && (ep in w.posts ==>
                  && ep in r.posts
                  && (r.posts[ep].macOk <==> w.posts[ep].macOk && !Refuses(w, e, ep))
                  && (r.posts[ep].refreshed <==> w.posts[ep].refreshed || Refreshes(w, e, ep)))
            && (ep !in w.posts ==>
                  && !Refuses(w, e, ep) && !Refreshes(w, e, ep)
                  && (ep in r.posts ==> r.posts[ep].macOk && !r.posts[ep].refreshed))
  {
    hide Next, LinkFits, Fits, HintDone, CreateGood, HeldGood;
    if !(e.Joining? && e.ep == ep) {
      OthersPosts(md5, w, e, ep);
    } else if e.j.PostCorrect? && ep in w.posts && w.posts[ep].stage == Correcting {
      CorrectionExact(md5, w, ep, e.j.setOk, e.j.macFormat);
    } else if e.j.PostSetUp? && ep in w.posts && w.posts[ep].stage == Connecting {
      RefreshExact(md5, w, ep, e.j.refreshed);
    } else {
      OtherStages(md5, w, ep, e.j);
    }
  }

  /** An address update has failed exactly when some correction of the run was refused or found no link. */
  lemma {:induction false} FailedIffRefused(md5: string -> Digest, es: seq<Event>, ep: string, n: nat)
    requires ValidRun(es) && n <= |es|
    ensures var w := Run(md5, es[..n]);
            && (ep in w.posts ==>
                  && (w.posts[ep].macOk <==> forall i :: 0 <= i < n ==> !Refuses(Run(md5, es[..i]), es[i], ep))
                  && (w.posts[ep].refreshed <==> exists i :: 0 <= i < n && Refreshes(Run(md5, es[..i]), es[i], ep)))
            && (ep !in w.posts ==>
                  forall i :: 0 <= i < n ==>
                    !Refuses(Run(md5, es[..i]), es[i], ep) && !Refreshes(Run(md5, es[..i]), es[i], ep))
  {
    hide Run, Next, Refuses, Refreshes, MacInv;
    if n == 0 {
      StartsEmpty(md5);
      assert es[..0] == [];
    } else {
      var p: nat := n - 1;
      FailedIffRefused(md5, es, ep, p);
      RunMac(md5, es[..p], ep);
      FlagsMove(md5, Run(md5, es[..p]), es[p], ep);
      RunNext(md5, es, p);
    }
  }

  lemma StartsEmpty(md5: string -> Digest)
    ensures Run(md5, []).posts == map[]
  {
  }

  /** No correction of the endpoint's address was refused. */
  ghost predicate Unrefused(es: seq<Event>, ep: string) {
    forall i :: 0 <= i < |es| ==> es[i].Joining? && es[i].ep == ep && es[i].j.PostCorrect? ==> es[i].j.setOk
  }

  lemma CreatingKeepsLinks(md5: string -> Digest, w: World, e: CreateEvent, ep: string)
    requires MacInv(md5, w, ep) && ep in w.posts && ep !in w.links
    ensures ep !in CreateStep(md5, w, e).links
  {
    hide LinkFits, Fits, HintDone, HeldGood, PostGood, NamingStep, ChooseStep;
  }

  lemma LinkStays(md5: string -> Digest, w: World, e: Event, ep: string)
    requires ValidEvent(e) && MacInv(md5, w, ep) && ep in w.posts && ep !in w.links
    ensures ep !in Next(md5, w, e).links
  {
    hide MacInv, CreateStep, PendingSpec.Step, CacheSpec.Step, HostNamed, NextPost, Persisted, SeedMac;
    if e.Creating? {
      CreatingKeepsLinks(md5, w, e.c, ep);
    }
  }

  /** While none is refused the address update has not failed, unless the link went away before it. */
  lemma {:induction false} UnrefusedUpdates(md5: string -> Digest, es: seq<Event>, ep: string)
    requires ValidRun(es) && Unrefused(es, ep) && ep in Run(md5, es).posts
    requires ep in Run(md5, es).links || Run(md5, es).posts[ep].refreshed
    ensures Run(md5, es).posts[ep].macOk
  {
    hide Run, Next, MacInv;
    if es == [] {
      StartsEmpty(md5);
    } else {
      var n := |es| - 1;
      var w := Run(md5, es[..n]);
      RunNext(md5, es, n);
      assert es[..n + 1] == es;
      RunMac(md5, es[..n], ep);
      FlagsMove(md5, w, es[n], ep);
      if ep in w.posts {
        if ep in w.links || w.posts[ep].refreshed {
          UnrefusedUpdates(md5, es[..n], ep);
          if w.posts[ep].stage == Correcting {
            NotRefreshedYet(md5, w, ep);
          }
        } else {
          LinkStays(md5, w, es[n], ep);
        }
      }
    }
  }

  lemma NotRefreshedYet(md5: string -> Digest, w: World, ep: string)
    requires MacInv(md5, w, ep) && ep in w.posts && w.posts[ep].stage == Correcting
    ensures !w.posts[ep].refreshed
  {
  }

  /** The address a joined endpoint should end with, once the real container is known by its name and hostname. */
  function Target(md5: string -> Digest, req: Request, name: string, hostname: string): (r: Option<seq<byte>>) {
    if req.mac != "" then ParseMac(req.mac) else Some(Octets(md5, if hostname != "" then hostname else name))
  }

  lemma OctetsAgree(md5: string -> Digest, s: string, t: string)
    ensures Octets(md5, s) == Octets(md5, t) <==> md5(s)[..5] == md5(t)[..5]
  {
    assert Octets(md5, s)[1..] == md5(s)[..5] && Octets(md5, t)[1..] == md5(t)[..5];
  }

  /**
   Convergence: whatever order events, queue pops and CreateEndpoint calls come in, an endpoint that the
   post-Join search was shown and whose address update was not refused has the user's address if one was given,
   and otherwise the one generated from the real container - from its hostname if the container the search
   met first could be inspected, from its name if not - and never from what was guessed. So the address is the
   real container's exactly when that inspection succeeded, there is no hostname, or both seeds agree.
   */
  lemma {:induction false} Convergence(md5: string -> Digest, es: seq<Event>, ep: string, name: string,
                                       hostname: string)
    requires ValidRun(es) && ep in Run(md5, es).posts && ep in Run(md5, es).links
    requires var p := Run(md5, es).posts[ep];
             && Corrected(p.stage) && Unrefused(es, ep)
             && name != "" && Truthful(p.attempts, ep, name, hostname)
             && (exists i :: 0 <= i < |p.attempts| && i < ATTEMPTS && Shows(p.attempts[i], ep))
    ensures var w, p := Run(md5, es), Run(md5, es).posts[ep];
            var found := if Answered(p.attempts, ep) then hostname else "";
            && ep in w.requests
            && p.hint.seedName == name && p.hint.hostname == (if found != "" then found else name)
            && (w.requests[ep].mac != "" ==>
                  Target(md5, w.requests[ep], name, hostname) == ParseMac(w.requests[ep].mac)
                  && (ParseMac(w.requests[ep].mac).Some? ==> w.links[ep] == ParseMac(w.requests[ep].mac).value))
            && (w.requests[ep].mac == "" ==>
                  && w.links[ep] == Octets(md5, if found != "" then found else name)
                  && (Some(w.links[ep]) == Target(md5, w.requests[ep], name, hostname) <==>
                        Answered(p.attempts, ep) || hostname == "" || md5(hostname)[..5] == md5(name)[..5]))
  {
    hide ParseMac, Octets, Identified, Truthful, Answered, Shows;
    var w := Run(md5, es);
    UnrefusedUpdates(md5, es, ep);
    RunMac(md5, es, ep);
    RunFound(md5, es, ep);
    IdentifiedIsReal(w.posts[ep].attempts, ep, name, hostname);
    OctetsAgree(md5, hostname, name);
  }

  /** Without an identification the address stays the user's, or the one of the recorded guess. */
  lemma {:induction false} UnidentifiedKeepsGuess(md5: string -> Digest, es: seq<Event>, ep: string)
    requires ValidRun(es) && ep in Run(md5, es).posts && ep in Run(md5, es).links
    requires Run(md5, es).posts[ep].found.name == ""
    ensures var w := Run(md5, es);
            && ep in w.requests && HintDone(w.requests[ep], w.posts[ep].hint)
            && Fits(md5, w.requests[ep], w.posts[ep].hint.macSeed, w.links[ep])
  {
    RunMac(md5, es, ep);
  }

  // ---------------------------------------------------------------- elimination

  /** Elimination names an endpoint exactly when one listed container, and no other, is a candidate and has a name. */
  lemma EliminationNeedsSole(w: World)
    requires w.create.Eliminating?
    ensures var r, keep := EliminateStep(w).create,
                           IsCandidate(w.create.req.net, w.create.req.ep, Claimed(w.hints));
            && r.Enriching?
            && (r.source == ByElimination <==>
                  exists i :: OnlyAt(w.create.ctrs, keep, i) && NameOf(w.create.ctrs[i]) != "")
            && (r.source == ByElimination ==>
                  r.seedName != "" && r.seedName !in Claimed(w.hints)
                  && exists i :: OnlyAt(w.create.ctrs, keep, i) && NameOf(w.create.ctrs[i]) == r.seedName)
            && (r.source != ByElimination ==> r.seedName == "")
  {
    hide Sole, OnlyAt, Candidate, Claimed, NameOf;
    var req, ctrs := w.create.req, w.create.ctrs;
    var i := SolePosition(ctrs, req.net, req.ep, Claimed(w.hints));
    Nameless(ctrs, req, Claimed(w.hints), i);
  }

  lemma Nameless(ctrs: seq<Container>, req: Request, claimed: set<string>, i: int)
    ensures 0 <= i < |ctrs| && ctrs[i].names == [] ==> NameOf(ctrs[i]) == ""
    ensures OnlyAt(ctrs, IsCandidate(req.net, req.ep, claimed), i) ==> 0 <= i < |ctrs|
  {
  }

  /** `a` is being named `seed` by elimination, and `b` does not hold that name. */
  predicate NewName(w: World, a: string, b: string) {
    CreatingFor(w.create, a) && (w.create.Enriching? || w.create.Recording?) && w.create.source == ByElimination ==>
      w.create.seedName != "" && (b in w.hints ==> w.hints[b].seedName != w.create.seedName)
  }

  predicate NameHeld(w: World, a: string) {
    && (a !in w.requests ==> a !in w.fallbacks && a !in w.posts && !CreatingFor(w.create, a))
    && (CreatingFor(w.create, a) ==> a in w.requests && a !in w.posts && a !in w.created)
    && (CreatingFor(w.create, a) && Naming(w.create) ==> a !in w.fallbacks)
    && (a in w.posts ==> a in w.created)
    && (a in w.created ==> a in w.requests)
    && (a in w.fallbacks && a !in w.posts ==> a in w.hints && w.hints[a].seedName == w.fallbacks[a])
  }

  predicate NameInv(w: World, a: string, b: string) {
    && NameHeld(w, a) && NameHeld(w, b) && NewName(w, a, b) && NewName(w, b, a)
    && (a in w.fallbacks && b in w.fallbacks && a !in w.posts && b !in w.posts ==> w.fallbacks[a] != w.fallbacks[b])
  }

  lemma LookupKeepsNames(w: World, pick: string, a: string, b: string)
    requires a != b && NameInv(w, a, b)
    ensures NameInv(LookupStep(w, pick), a, b)
  {
    hide MacMatches;
  }

  lemma PopKeepsNames(w: World, now: int, a: string, b: string)
    requires a != b && NameInv(w, a, b)
    ensures NameInv(PopStep(w, now), a, b)
  {
    hide PendingSpec.Step;
  }

  lemma ListKeepsNames(w: World, result: Option<seq<Container>>, a: string, b: string)
    requires a != b && NameInv(w, a, b)
    ensures NameInv(ListStep(w, result), a, b)
  {
  }

  lemma EliminateKeepsNames(w: World, a: string, b: string)
    requires a != b && NameInv(w, a, b)
    ensures NameInv(EliminateStep(w), a, b)
  {
    hide EliminateStep;
    if w.create.Eliminating? {
      EliminationNeedsSole(w);
    } else {
      NotEliminating(w);
    }
  }

  lemma NotEliminating(w: World)
    requires !w.create.Eliminating?
    ensures EliminateStep(w) == w
  {
  }

  lemma EnrichKeepsNames(w: World, a: string, b: string)
    requires a != b && NameInv(w, a, b)
    ensures NameInv(EnrichStep(w), a, b)
  {
  }

  lemma NamingKeepsNames(w: World, e: CreateEvent, a: string, b: string)
    requires a != b && NameInv(w, a, b)
    ensures NameInv(NamingStep(w, e), a, b)
  {
    hide NameInv, LookupStep, PopStep, ListStep, EliminateStep, EnrichStep;
    match e
    case LookupMac(pick) => LookupKeepsNames(w, pick, a, b);
    case PopOnce(now) => PopKeepsNames(w, now, a, b);
    case List(result) => ListKeepsNames(w, result, a, b);
    case Eliminate => EliminateKeepsNames(w, a, b);
    case Enrich => EnrichKeepsNames(w, a, b);
    case _ =>
  }

  lemma BeginKeepsNames(w: World, req: Request, a: string, b: string)
    requires a != b && NameInv(w, a, b)
    ensures NameInv(BeginStep(w, req), a, b)
  {
  }

  lemma RecordKeepsNames(w: World, a: string, b: string)
    requires a != b && NameInv(w, a, b)
    ensures NameInv(RecordStep(w), a, b)
  {
  }

  lemma ChooseKeepsNames(md5: string -> Digest, w: World, macFormat: string, a: string, b: string)
    requires a != b && NameInv(w, a, b)
    ensures NameInv(ChooseStep(md5, w, macFormat), a, b)
  {
    hide ChooseStep;
  }

  lemma LinkKeepsNames(w: World, ok: bool, kernelMac: seq<byte>, a: string, b: string)
    requires a != b && NameInv(w, a, b)
    ensures NameInv(LinkStep(w, ok, kernelMac), a, b)
  {
  }

  lemma SetUpKeepsNames(w: World, ok: bool, a: string, b: string)
    requires a != b && NameInv(w, a, b)
    ensures NameInv(SetUpStep(w, ok), a, b)
  {
  }

  lemma CreateKeepsNames(md5: string -> Digest, w: World, e: CreateEvent, a: string, b: string)
    requires a != b && NameInv(w, a, b)
    ensures NameInv(CreateStep(md5, w, e), a, b)
  {
    hide NameInv, NamingStep, BeginStep, RecordStep, ChooseStep, LinkStep, SetUpStep;
    match e
    case Begin(req) => BeginKeepsNames(w, req, a, b);
    case Record => RecordKeepsNames(w, a, b);
    case Choose(macFormat) => ChooseKeepsNames(md5, w, macFormat, a, b);
    case AddLink(ok, kernelMac) => LinkKeepsNames(w, ok, kernelMac, a, b);
    case SetUp(ok) => SetUpKeepsNames(w, ok, a, b);
    case _ => NamingKeepsNames(w, e, a, b);
  }

  lemma JoinKeepsNames(md5: string -> Digest, w: World, at: string, e: JoinEvent, a: string, b: string)
    requires a != b && NameInv(w, a, b)
    ensures NameInv(JoinStep(md5, w, at, e), a, b)
  {
    hide JoinStep;
  }

  lemma NameHostKeepsNames(w: World, at: string, seed: string, found: Option<Inspected>, a: string, b: string)
    requires a != b && NameInv(w, a, b)
    ensures NameInv(NameHostStep(w, at, seed, found), a, b)
  {
    hide RealHostname;
  }

  lemma {:induction false} NextKeepsNames(md5: string -> Digest, w: World, e: Event, a: string, b: string)
    requires a != b && NameInv(w, a, b) && ValidEvent(e)
    ensures NameInv(Next(md5, w, e), a, b)
  {
    hide CreateStep, JoinStep, NameHostStep, PendingSpec.Step, CacheSpec.Step;
    match e
    case Creating(c) => CreateKeepsNames(md5, w, c, a, b);
    case Joining(at, j) => JoinKeepsNames(md5, w, at, j, a, b);
    case NameHost(at, seed, found) => NameHostKeepsNames(w, at, seed, found, a, b);
    case _ =>
  }

  lemma {:induction false} RunNames(md5: string -> Digest, es: seq<Event>, a: string, b: string)
    requires ValidRun(es) && a != b
    ensures NameInv(Run(md5, es), a, b)
  {
    if es != [] {
      RunNames(md5, es[..|es| - 1], a, b);
      NextKeepsNames(md5, Run(md5, es[..|es| - 1]), es[|es| - 1], a, b);
    }
  }

  /**
   Elimination is injective: two endpoints that it named and that still hold their hints have different
   seed names, and those are the names their hints carry.
   */
  lemma {:induction false} EliminationInjective(md5: string -> Digest, es: seq<Event>, a: string, b: string)
    requires ValidRun(es) && a != b
    requires var w := Run(md5, es);
             a in w.fallbacks && b in w.fallbacks && a !in w.posts && b !in w.posts
    ensures var w := Run(md5, es);
            && a in w.hints && b in w.hints
            && w.hints[a].seedName == w.fallbacks[a] && w.hints[b].seedName == w.fallbacks[b]
            && w.hints[a].seedName != w.hints[b].seedName
  {
    RunNames(md5, es, a, b);
  }

  // ---------------------------------------------------------------- restart

  /**
   The lookup can only resolve `req` to entry `ep`, with this name and hostname, without popping the queue;
   and the link will then be given `mac`.
   */
  predicate Resolved(md5: string -> Digest, w: World, req: Request, ep: string, pick: string, macFormat: string,
                     name: string, hostname: string, mac: seq<byte>)
  {
    var found := LookupStep(w, pick);
    var recorded := RecordStep(EnrichStep(found));
    if pick != ep then found == w
    else
      && recorded.pending == w.pending
      && recorded.create == Choosing(req, name, hostname)
      && HintOf(recorded.hints, req.ep).seedName == name && HintOf(recorded.hints, req.ep).hostname == hostname
      && ChooseStep(md5, recorded, macFormat).create == Linking(req, Some(mac))
  }

  lemma {:induction false} EntryResolves(md5: string -> Digest, w: World, req: Request, ep: string, pick: string,
                                         macFormat: string, entry: CacheSpec.Endpoint, mac: seq<byte>)
    requires |mac| in {6, 8, 20} && entry.macAddress == Join(mac, ':') && entry.seedName != "" && entry.hostname != ""
    requires w.create == Lookup(req) && req.mac == entry.macAddress && req.net in w.cache
    requires var es := CacheSpec.Entries(w.cache[req.net].endpoints);
             && ep in es && es[ep] == entry
             && forall k :: k in es && k != ep ==> es[k].macAddress != entry.macAddress
    ensures Resolved(md5, w, req, ep, pick, macFormat, entry.seedName, entry.hostname, mac)
  {
    TextRoundTrip(FORMAT_COLON, mac);
    hide ParseMac, Join, LookupStep, EnrichStep, RecordStep, ChooseStep;
    assert req.mac != "";
    LookupResolves(w, req, ep, pick, entry);
    NamedThenChosen(md5, w.(create := Enriching(req, entry.seedName, entry.hostname, ByMac)), macFormat);
  }

  /** A name with a hostname is recorded as it is, and a presented address is the one linked. */
  lemma NamedThenChosen(md5: string -> Digest, w: World, macFormat: string)
    requires w.create.Enriching? && w.create.hostname != "" && w.create.req.mac != ""
    ensures var req, recorded := w.create.req, RecordStep(EnrichStep(w));
            && recorded.pending == w.pending
            && recorded.create == Choosing(req, w.create.seedName, w.create.hostname)
            && HintOf(recorded.hints, req.ep).seedName == w.create.seedName
            && HintOf(recorded.hints, req.ep).hostname == w.create.hostname
            && ChooseStep(md5, recorded, macFormat).create == Linking(req, ParseMac(req.mac))
  {
    hide ParseMac, SeedMac;
  }

  lemma LookupResolves(w: World, req: Request, ep: string, pick: string, entry: CacheSpec.Endpoint)
    requires entry.macAddress != "" && entry.seedName != ""
    requires w.create == Lookup(req) && req.mac == entry.macAddress && req.net in w.cache
    requires var es := CacheSpec.Entries(w.cache[req.net].endpoints);
             && ep in es && es[ep] == entry
             && forall k :: k in es && k != ep ==> es[k].macAddress != entry.macAddress
    ensures LookupStep(w, pick) ==
            if pick == ep then w.(create := Enriching(req, entry.seedName, entry.hostname, ByMac)) else w
  {
    assert MacMatches(w.cache[req.net], req.mac) == {ep};
  }

  /** The address the goroutine last read is the one the endpoint should have. */
  lemma {:induction false} AttrsAreTarget(md5: string -> Digest, es: seq<Event>, ep: string)
    requires ValidRun(es) && ep in Run(md5, es).posts
    requires var p := Run(md5, es).posts[ep];
             p.stage in {Persisting, Finished} && p.found.name != "" && Unrefused(es, ep) && p.refreshed
    ensures var w := Run(md5, es);
            && ep in w.requests
            && w.posts[ep].hint.seedName == w.posts[ep].found.name
            && w.posts[ep].hint.hostname == (if w.posts[ep].found.hostname != "" then w.posts[ep].found.hostname
                                             else w.posts[ep].found.name)
            && var t := Target(md5, w.requests[ep], w.posts[ep].found.name, w.posts[ep].found.hostname);
               t.Some? ==> w.posts[ep].attrs == t.value && |t.value| in {6, 8, 20}
  {
    hide Text, Join;
    UnrefusedUpdates(md5, es, ep);
    RunMac(md5, es, ep);
  }

  /** What the goroutine persists lands in its network's entry, and nothing else in the cache moves. */
  lemma EntryIsCached(md5: string -> Digest, w: World, ep: string, sandboxKey: string, ip: string, gateway: string,
                      now: int)
    requires ep in w.posts && w.posts[ep].stage == Persisting
    ensures var p, after := w.posts[ep], Next(md5, w, Joining(ep, PostPersist(sandboxKey, ip, gateway, now)));
            && after.posts[ep] == p.(stage := Finished)
            && (p.net !in w.cache ==> after.cache == w.cache)
            && (p.net in w.cache ==>
                  after.cache == w.cache[p.net := w.cache[p.net].(endpoints := CacheSpec.Made(
                    CacheSpec.Entries(w.cache[p.net].endpoints)[ep :=
                      CacheSpec.Endpoint(ep, sandboxKey, Join(p.attrs, ':'), ip, "", gateway, p.hint.hostname,
                                         p.hint.seedName)]))])
  {
    hide MacGen.Join;
    var entry := EntryOf(ep, w.posts[ep], sandboxKey, ip, gateway);
    assert entry.id == ep;
  }

  /**
   Restart round trip: an endpoint that was identified, corrected and whose link was re-read is cached
   with its corrected address and the real name and hostname. While that entry is cached and no other
   entry of the network has its address, a later CreateEndpoint that presents the address resolves to the
   same name and hostname without touching the queue, and puts the same address on the new link.
   */
  lemma {:induction false} RestartRoundTrip(md5: string -> Digest, es: seq<Event>, ep: string, sandboxKey: string,
                                            ip: string, gateway: string, later: World, req: Request, pick: string,
                                            macFormat: string)
    requires ValidRun(es) && ep in Run(md5, es).posts && ep in Run(md5, es).requests
    requires var p := Run(md5, es).posts[ep];
             && p.stage in {Persisting, Finished} && p.found.name != "" && Unrefused(es, ep) && p.refreshed
             && Target(md5, Run(md5, es).requests[ep], p.found.name, p.found.hostname).Some?
    requires var entry := EntryOf(ep, Run(md5, es).posts[ep], sandboxKey, ip, gateway);
             && later.create == Lookup(req) && req.mac == entry.macAddress
             && req.net in later.cache && ep in CacheSpec.Entries(later.cache[req.net].endpoints)
             && CacheSpec.Entries(later.cache[req.net].endpoints)[ep] == entry
             && forall k :: k in CacheSpec.Entries(later.cache[req.net].endpoints) && k != ep ==>
                  CacheSpec.Entries(later.cache[req.net].endpoints)[k].macAddress != entry.macAddress
    ensures var f := Run(md5, es).posts[ep].found;
            Resolved(md5, later, req, ep, pick, macFormat, f.name, if f.hostname != "" then f.hostname else f.name,
                     Target(md5, Run(md5, es).requests[ep], f.name, f.hostname).value)
  {
    AttrsAreTarget(md5, es, ep);
    var p := Run(md5, es).posts[ep];
    EntryResolves(md5, later, req, ep, pick, macFormat, EntryOf(ep, p, sandboxKey, ip, gateway), p.attrs);
  }

  /** An entry with a name and a hostname gives its name to the call that pops it, and its hostname's address. */
  lemma {:induction false} PoppedThenChosen(md5: string -> Digest, w: World, now: int, macFormat: string)
    requires w.create.Popping? && w.create.req.mac == ""
    requires var q := PendingSpec.QueueOf(w.pending.queues, w.create.req.net);
             q != [] && q[0].name != "" && q[0].hostname != ""
    ensures var req, e := w.create.req, PendingSpec.QueueOf(w.pending.queues, w.create.req.net)[0];
            var recorded := RecordStep(EnrichStep(PopStep(w, now)));
            && recorded.create == Choosing(req, e.name, e.hostname)
            && HintOf(recorded.hints, req.ep).seedName == e.name
            && HintOf(recorded.hints, req.ep).hostname == e.hostname
            && ChooseStep(md5, recorded, macFormat).create == Linking(req, Some(Octets(md5, e.hostname)))
  {
    hide ParseMac, Text, SeedMac, Octets, PendingSpec.Step;
    var e := PendingSpec.QueueOf(w.pending.queues, w.create.req.net)[0];
    SeedMacOctets(md5, e.hostname, macFormat);
  }

  /**
   Restart through the queue: the last registration of an identified endpoint's container, at the end of `ts` - by
   Leave from the cache, or by the die event if that comes later and says the same - brings the next CreateEndpoint
   on the network that presents no address to the real container's name and hostname and so to the same address as
   before, if since then nothing was popped and no create event pushed on the network, no prune took the entry, and
   nothing queued earlier under another name remains. Other containers may go on registering backward entries.
   */
  lemma {:induction false} RestartThroughQueue(md5: string -> Digest, es: seq<Event>, ep: string,
                                               ts: seq<PendingSpec.Timed>, left: int, more: seq<PendingSpec.Timed>,
                                               later: World, now: int, macFormat: string)
    requires ValidRun(es) && ep in Run(md5, es).posts
    requires var p := Run(md5, es).posts[ep];
             p.stage in {Persisting, Finished} && p.found.name != "" && Unrefused(es, ep) && p.refreshed
    requires later.create.Popping? && later.create.req.mac == ""
    requires var net, h := later.create.req.net, Run(md5, es).posts[ep].hint;
             var e := PendingSpec.Pending(h.seedName, h.hostname, left, false);
             && later.pending ==
                PendingSpec.Run(ts + [PendingSpec.Timed(PendingSpec.Push(net, e.name, e.hostname, false), left)] + more)
             && PendingRuns.Outlives(e, more)
             && (forall i :: 0 <= i < |more| ==> PendingRuns.Behind(more[i], net, e.name))
             && forall x :: x in PendingSpec.QueueOf(PendingSpec.Run(ts).queues, net) && x.name != e.name ==>
                  !PendingRuns.Remains(x, net, more)
    ensures var w, p, req := Run(md5, es), Run(md5, es).posts[ep], later.create.req;
            var recorded := RecordStep(EnrichStep(PopStep(later, now)));
            && recorded.create == Choosing(req, p.found.name, EffectiveSeed(p.found))
            && ChooseStep(md5, recorded, macFormat).create == Linking(req, Some(Octets(md5, EffectiveSeed(p.found))))
            && ep in w.requests && (w.requests[ep].mac == "" ==> p.attrs == Octets(md5, EffectiveSeed(p.found)))
  {
    hide ParseMac, Text, SeedMac, Octets, PendingSpec.Run, PopStep, EnrichStep, RecordStep, ChooseStep;
    AttrsAreTarget(md5, es, ep);
    var h := Run(md5, es).posts[ep].hint;
    PendingRuns.LeaveThenPop(ts, later.create.req.net, PendingSpec.Pending(h.seedName, h.hostname, left, false), more);
    PoppedThenChosen(md5, later, now, macFormat);
  }
}
