/**
 Concrete inputs on which the program does less than its documentation promises: a reconciliation that leaves the
 cache file stale (pkg/plugin/cache.go:345), and an address correction that misses the real container's address
 (pkg/plugin/network.go:574-600).
 */
module FailingRuns {
  import opened Wrappers
  import opened MacGen
  import opened Identity
  import opened Protocol
  import CacheRuns
  import CacheSpec
  import PendingSpec

  // ---------------------------------------------------------------- a stale file

  /**
   A cached network that has no container map yet, listed with one container: reconciling it changes nothing that
   is saved, and in whatever order it is done the file no longer says what memory says.
   */
  lemma NewContainerMapNotSaved(net: string, container: string, endpoint: string, driver: string)
    ensures var nets := map[net := CacheSpec.Network(net, CacheSpec.NO_OPTIONS, CacheSpec.NilMap, CacheSpec.NilMap,
                                                     CacheSpec.NilMap)];
            var docker := map[net := CacheSpec.DockerNetwork(net, driver, CacheSpec.Bad, map[container := endpoint])];
            && !CacheSpec.ReconcileChanges(nets, docker)
            && forall picks :: CacheRuns.ValidPicks(docker, picks) ==> !CacheRuns.FileStays(nets, docker, picks)
  {
    var containers := map[container := endpoint];
    var nets := map[net := CacheSpec.Network(net, CacheSpec.NO_OPTIONS, CacheSpec.NilMap, CacheSpec.NilMap,
                                             CacheSpec.NilMap)];
    var docker := map[net := CacheSpec.DockerNetwork(net, driver, CacheSpec.Bad, containers)];
    assert CacheSpec.Orphans(nets[net], docker[net]) == {};
    CacheRuns.UnsavedReconcileStale(nets, docker);
    assert containers[container] in containers.Values;
    assert !CacheSpec.IsInverse(map[], containers);
  }

  // ---------------------------------------------------------------- an address from the name only

  const NET := "network"
  const EP := "endpoint0000"
  const CTR := Container("id", ["/web"], [Attachment(NET, NET, EP)])
  const SHOWN := Listed([CTR], map[])
  const REQ := Request(NET, EP, "")
  const HELD := Hint("host", "web", "host", false)

  /** A container named web, queued under that name; the only poll shows it, and its inspection fails. */
  const CREATION: seq<Event> := [
    PendingDo(PendingSpec.Timed(PendingSpec.Push(NET, "web", "host", true), 0)),
    Creating(Begin(REQ)), Creating(LookupMac("")), Creating(PopOnce(0)), Creating(Enrich), Creating(Record),
    Creating(Choose("")), Creating(AddLink(true, [])), Creating(SetUp(true))]

  const JOINING: seq<Event> := [
    Joining(EP, TakeHint), Joining(EP, PostStart(true)), Joining(EP, PostIdentify([SHOWN])),
    Joining(EP, PostCorrect(true, "")), Joining(EP, PostSetUp(true))]

  lemma RunNext(md5: string -> Digest, es: seq<Event>, n: nat)
    requires ValidRun(es) && n < |es|
    ensures Run(md5, es[..n + 1]) == Next(md5, Run(md5, es[..n]), es[n])
  {
    hide Next;
    assert es[..n + 1][..n] == es[..n];
  }

  const QUEUE := [PendingSpec.Pending("web", "host", 0, true)]

  lemma Queued()
    ensures PendingSpec.Step(PendingSpec.EMPTY, PendingSpec.Timed(PendingSpec.Push(NET, "web", "host", true), 0)) ==
            PendingSpec.State(map[NET := QUEUE], map[])
  {
    assert PendingSpec.PushQueue([], QUEUE[0]) == QUEUE;
  }

  lemma Begun(md5: string -> Digest)
    ensures Run(md5, CREATION[..2]) ==
            START.(pending := PendingSpec.State(map[NET := QUEUE], map[]), create := Lookup(REQ),
                   requests := map[EP := REQ])
  {
    hide NamingStep, ChooseStep, LinkStep, SetUpStep, RecordStep, JoinStep, NameHostStep;
    Queued();
    RunNext(md5, CREATION, 0);
    RunNext(md5, CREATION, 1);
    assert CREATION[..0] == [];
    assert Run(md5, CREATION[..1]) == START.(pending := PendingSpec.State(map[NET := QUEUE], map[]));
  }

  /** The call finds the container's name and hostname in the queue. */
  lemma Guessed(md5: string -> Digest)
    ensures var w := Run(md5, CREATION[..4]);
            && w.create == Enriching(REQ, "web", "host", ByQueue) && w.requests == map[EP := REQ]
            && w.hints == map[] && w.created == {} && w.links == map[] && w.posts == map[]
  {
    hide Run, ChooseStep, LinkStep, SetUpStep, RecordStep, EnrichStep, EliminateStep, ListStep, JoinStep, NameHostStep;
    Begun(md5);
    RunNext(md5, CREATION, 2);
    RunNext(md5, CREATION, 3);
    var w := Run(md5, CREATION[..2]);
    assert Run(md5, CREATION[..3]) == w.(create := Popping(REQ, 0));
  }

  lemma GuessRecorded(md5: string -> Digest)
    ensures var w := Run(md5, CREATION[..6]);
            && w.create == Choosing(REQ, "web", "host") && w.requests == map[EP := REQ]
            && w.hints == map[EP := Hint("host", "web", "", false)]
            && w.created == {} && w.links == map[] && w.posts == map[]
  {
    hide Run, LookupStep, PopStep, ListStep, EliminateStep, ChooseStep, LinkStep, SetUpStep, JoinStep, NameHostStep;
    Guessed(md5);
    RunNext(md5, CREATION, 4);
    RunNext(md5, CREATION, 5);
    var w := Run(md5, CREATION[..4]);
    assert Run(md5, CREATION[..5]) == w.(create := Recording(REQ, "web", "host", ByQueue));
  }

  lemma GuessChosen(md5: string -> Digest)
    ensures var w := Run(md5, CREATION[..7]);
            && w.create == Linking(REQ, Some(Octets(md5, "host"))) && w.requests == map[EP := REQ]
            && w.hints == map[EP := HELD]
            && w.created == {} && w.links == map[] && w.posts == map[]
  {
    hide Run, NamingStep, RecordStep, LinkStep, SetUpStep, JoinStep, NameHostStep, Octets, SeedMac;
    GuessRecorded(md5);
    RunNext(md5, CREATION, 6);
    SeedMacOctets(md5, "host", "");
  }

  lemma Linked(md5: string -> Digest)
    ensures var w := Run(md5, CREATION[..8]);
            && w.create == SettingUp(REQ) && w.requests == map[EP := REQ] && w.created == {} && w.posts == map[]
            && w.hints == map[EP := HELD] && w.links == map[EP := Octets(md5, "host")]
  {
    hide Run, NamingStep, RecordStep, ChooseStep, SetUpStep, JoinStep, NameHostStep, Octets;
    GuessChosen(md5);
    RunNext(md5, CREATION, 7);
  }

  /** And creates the interface with the address of that hostname: the guess is right. */
  lemma CreatedRight(md5: string -> Digest)
    ensures var w := Run(md5, CREATION);
            && w.requests == map[EP := REQ] && w.created == {EP} && w.posts == map[]
            && w.hints == map[EP := HELD] && w.links == map[EP := Octets(md5, "host")]
  {
    hide Run, NamingStep, RecordStep, ChooseStep, LinkStep, JoinStep, NameHostStep, Octets;
    Linked(md5);
    RunNext(md5, CREATION, 8);
    assert CREATION[..9] == CREATION;
  }

  const ALL := CREATION + JOINING

  /** Join takes the hint, and its goroutine starts. */
  lemma Started(md5: string -> Digest)
    ensures var w := Run(md5, ALL[..11]);
            && EP in w.posts && w.posts[EP].stage == Identifying && w.posts[EP].hint == HELD && w.posts[EP].macOk
            && w.requests == map[EP := REQ] && EP in w.links
  {
    hide Run, CreateStep, CorrectStep, Persisted, NameHostStep, Octets, Identified;
    CreatedRight(md5);
    assert ALL[..9] == CREATION;
    RunNext(md5, ALL, 9);
    RunNext(md5, ALL, 10);
    assert Run(md5, ALL[..10]).posts[EP].stage == Starting;
  }

  lemma SearchFindsName()
    ensures Identified([SHOWN], EP) == Found("web", "")
    ensures Shows(SHOWN, EP) && Truthful([SHOWN], EP, "web", "host")
  {
    assert CTR.attachments[0].endpointId == EP && Holds(CTR, EP);
    assert NameOf(CTR) == "web";
    assert CTR in SHOWN.ctrs && [SHOWN][0] == SHOWN;
    IdentifiedIsReal([SHOWN], EP, "web", "host");
    assert !Answered([SHOWN], EP);
  }

  /** It is shown the container without being told its hostname. */
  lemma FoundNameOnly(md5: string -> Digest)
    ensures var w := Run(md5, ALL[..12]);
            && EP in w.posts && w.posts[EP].stage == Correcting && w.posts[EP].hint == HELD
            && w.posts[EP].attempts == [SHOWN] && w.posts[EP].found == Found("web", "") && w.posts[EP].macOk
            && w.requests == map[EP := REQ] && EP in w.links
  {
    hide Run, CreateStep, CorrectStep, Persisted, NameHostStep, TakeStep, Octets, Identified;
    Started(md5);
    RunNext(md5, ALL, 11);
    SearchFindsName();
  }

  lemma Miscorrected(md5: string -> Digest)
    ensures var w := Run(md5, ALL[..13]);
            && EP in w.posts && w.posts[EP].stage == Connecting && w.posts[EP].attempts == [SHOWN] && w.posts[EP].macOk
            && w.requests == map[EP := REQ] && EP in w.links && w.links[EP] == Octets(md5, "web")
  {
    hide Run, CreateStep, Persisted, NextPost, NameHostStep, TakeStep, Octets, SeedMac;
    FoundNameOnly(md5);
    RunNext(md5, ALL, 12);
    SeedMacOctets(md5, "web", "");
  }

  lemma EndsMiscorrected(md5: string -> Digest)
    ensures var w := Run(md5, ALL);
            && EP in w.posts && w.posts[EP].stage == Persisting && w.posts[EP].attempts == [SHOWN] && w.posts[EP].macOk
            && w.requests == map[EP := REQ] && EP in w.links && w.links[EP] == Octets(md5, "web")
  {
    hide Run, CreateStep, CorrectStep, Persisted, NameHostStep, TakeStep, Octets;
    Miscorrected(md5);
    RunNext(md5, ALL, 13);
    assert ALL[..14] == ALL;
  }

  /**
   The correction replaces the right address by that of the name: the run ends, no call but the inspection having
   failed, in an address that is not the real container's, unless the digests of its two names happen to agree.
   */
  lemma {:induction false} CorrectionMisses(md5: string -> Digest)
    requires md5("host")[..5] != md5("web")[..5]
    ensures Truthful([SHOWN], EP, "web", "host") && Shows(SHOWN, EP)
    ensures var created := Run(md5, CREATION);
            && EP in created.requests && EP in created.links
            && Some(created.links[EP]) == Target(md5, created.requests[EP], "web", "host")
    ensures var w := Run(md5, ALL);
            && EP in w.posts && w.posts[EP].stage == Persisting && w.posts[EP].macOk && w.posts[EP].attempts == [SHOWN]
            && EP in w.requests && EP in w.links
            && Some(w.links[EP]) != Target(md5, w.requests[EP], "web", "host")
  {
    hide Run, Octets, Shows, Truthful;
    CreatedRight(md5);
    EndsMiscorrected(md5);
    SearchFindsName();
    OctetsAgree(md5, "host", "web");
  }
}
