/**
 How the plugin works out which container an endpoint belongs to: the hints it keeps between
 CreateEndpoint and Join, elimination among Docker's containers, and the search for the real
 container after Join (pkg/plugin/network.go:132-327, pkg/plugin/network.go:542-643).
 */
module Identity {
  import opened Seqs
  import opened Wrappers
  import opened MacGen
  import opened CacheSpec

  /** What CreateEndpoint leaves for Join; addresses and gateway are not part of the identity. */
  datatype Hint = Hint(hostname: string, seedName: string, macSeed: string, userMac: bool)

  type Hints = map<string, Hint>

  const NO_HINT := Hint("", "", "", false)

  /** A missing key reads as the zero hint, as a Go map does. */
  function HintOf(h: Hints, ep: string): (r: Hint) {
    if ep in h then h[ep] else NO_HINT
  }

  // ---------------------------------------------------------------- containers as Docker lists them

  datatype Attachment = Attachment(netName: string, netId: string, endpointId: string)

  /** The attachments stand in the order the traversal of the settings map meets them. */
  datatype Container = Container(id: string, names: seq<string>, attachments: seq<Attachment>)

  function TrimSlash(s: string): (r: string) {
    if s != "" && s[0] == '/' then s[1..] else s
  }

  function NameOf(c: Container): (r: string) {
    if c.names == [] then "" else TrimSlash(c.names[0])
  }

  /** The first attachment that is to the network, by ID or by name. */
  function AttachedTo(list: seq<Attachment>, net: string): (r: Option<Attachment>) {
    if list == [] then None
    else if list[0].netId == net || list[0].netName == net then Some(list[0])
    else AttachedTo(list[1..], net)
  }

  /** The names held by hints. */
  function Claimed(h: Hints): (r: set<string>) {
    set ep | ep in h && h[ep].seedName != "" :: h[ep].seedName
  }

  /** On the network, without another endpoint there, and not already claimed. */
  predicate Candidate(c: Container, net: string, ep: string, claimed: set<string>) {
    var a := AttachedTo(c.attachments, net);
    && a.Some?
    && (a.value.endpointId == "" || a.value.endpointId == ep)
    && NameOf(c) !in claimed
  }

  /** `n` is the container's first name without its leading slash, or empty if it has no name. */
  predicate Called(c: Container, n: string) {
    if c.names == [] then n == "" else c.names[0] == "/" + n || (c.names[0] == n && !("/" <= n))
  }

  lemma NameIs(c: Container, n: string)
    ensures Called(c, n) <==> NameOf(c) == n
  {
    if c.names != [] && c.names[0] != "" && c.names[0][0] == '/' {
      assert c.names[0] == "/" + c.names[0][1..];
      assert ("/" + n)[1..] == n;
    }
  }

  /** The first attachment to the network, by ID or by name, stands at `i`. */
  ghost predicate FirstOn(list: seq<Attachment>, net: string, i: int) {
    && 0 <= i < |list| && (list[i].netId == net || list[i].netName == net)
    && forall j :: 0 <= j < i ==> list[j].netId != net && list[j].netName != net
  }

  lemma {:induction false} AttachedExact(list: seq<Attachment>, net: string)
    ensures AttachedTo(list, net).None? <==> forall i :: !FirstOn(list, net, i)
    ensures forall i :: FirstOn(list, net, i) ==> AttachedTo(list, net) == Some(list[i])
  {
    if list != [] {
      if list[0].netId == net || list[0].netName == net {
        assert FirstOn(list, net, 0);
      } else {
        AttachedExact(list[1..], net);
        assert forall i :: FirstOn(list, net, i) ==> i > 0 && FirstOn(list[1..], net, i - 1);
        assert forall i :: FirstOn(list[1..], net, i) ==> FirstOn(list, net, i + 1);
      }
    }
  }

  /** A candidate's first attachment to the network holds no other endpoint, and no hint claims its name. */
  lemma CandidateExact(c: Container, net: string, ep: string, claimed: set<string>)
    ensures Candidate(c, net, ep, claimed) <==>
              (exists i :: FirstOn(c.attachments, net, i) && c.attachments[i].endpointId in {"", ep})
              && NameOf(c) !in claimed
  {
    AttachedExact(c.attachments, net);
  }

  function IsCandidate(net: string, ep: string, claimed: set<string>): (r: Container -> bool) {
    (c: Container) => Candidate(c, net, ep, claimed)
  }

  /** The container left by elimination: only a single candidate will do. */
  function Sole(ctrs: seq<Container>, net: string, ep: string, claimed: set<string>): (r: Option<Container>) {
    var cs := Filter(ctrs, IsCandidate(net, ep, claimed));
    if |cs| == 1 then Some(cs[0]) else None
  }

  /** Position `i` holds the only element that satisfies `keep`. */
  ghost predicate OnlyAt(ctrs: seq<Container>, keep: Container -> bool, i: int) {
    0 <= i < |ctrs| && keep(ctrs[i]) && forall j :: 0 <= j < |ctrs| && keep(ctrs[j]) ==> j == i
  }

  lemma {:induction false} SoleAt(ctrs: seq<Container>, keep: Container -> bool)
    ensures |Filter(ctrs, keep)| == 0 <==> forall i :: 0 <= i < |ctrs| ==> !keep(ctrs[i])
    ensures |Filter(ctrs, keep)| == 1 <==> exists i :: OnlyAt(ctrs, keep, i)
  {
    if ctrs != [] {
      var init, last := ctrs[..|ctrs| - 1], |ctrs| - 1;
      SoleAt(init, keep);
      assert forall i :: 0 <= i < last ==> init[i] == ctrs[i];
      if keep(ctrs[last]) {
        if |Filter(init, keep)| == 0 {
          assert OnlyAt(ctrs, keep, last);
        }
      } else if exists i :: OnlyAt(init, keep, i) {
        var i :| OnlyAt(init, keep, i);
        assert OnlyAt(ctrs, keep, i);
      } else if exists i :: OnlyAt(ctrs, keep, i) {
        var i :| OnlyAt(ctrs, keep, i);
        assert OnlyAt(init, keep, i);
      }
    }
  }

  /** Elimination answers a container exactly when one position of the listing, and no other, holds a candidate. */
  lemma SoleIsOnly(ctrs: seq<Container>, net: string, ep: string, claimed: set<string>)
    ensures Sole(ctrs, net, ep, claimed).Some? <==> exists i :: OnlyAt(ctrs, IsCandidate(net, ep, claimed), i)
    ensures Sole(ctrs, net, ep, claimed).Some? ==>
              var c := Sole(ctrs, net, ep, claimed).value; c in ctrs && Candidate(c, net, ep, claimed)
  {
    var keep := IsCandidate(net, ep, claimed);
    SoleAt(ctrs, keep);
    FilterMembers(ctrs, keep);
    var cs := Filter(ctrs, keep);
    if |cs| == 1 {
      assert cs[0] in cs;
    }
  }

  /** The only candidate's position, and that there is none otherwise. */
  lemma SolePosition(ctrs: seq<Container>, net: string, ep: string, claimed: set<string>) returns (i: int)
    ensures var sole, keep := Sole(ctrs, net, ep, claimed), IsCandidate(net, ep, claimed);
            && (sole.Some? ==> OnlyAt(ctrs, keep, i) && ctrs[i] == sole.value && NameOf(ctrs[i]) !in claimed)
            && (sole.None? ==> forall j :: !OnlyAt(ctrs, keep, j))
            && forall j :: OnlyAt(ctrs, keep, j) ==> j == i
  {
    hide Sole, AttachedTo;
    var keep := IsCandidate(net, ep, claimed);
    SoleIsOnly(ctrs, net, ep, claimed);
    i := 0;
    if exists j :: OnlyAt(ctrs, keep, j) {
      i :| OnlyAt(ctrs, keep, i);
      var k :| 0 <= k < |ctrs| && ctrs[k] == Sole(ctrs, net, ep, claimed).value;
      assert keep(ctrs[k]) && k == i;
    }
  }

  // ---------------------------------------------------------------- choosing seeds and formats

  /** The hostname, else the name, else the endpoint's own ID. */
  function ChooseSeed(hostname: string, seedName: string, ep: string): (r: string) {
    if hostname != "" then hostname else if seedName != "" then seedName else ep
  }

  /** Anything that is not "hyphen" or "dot" means colons. */
  function MacFormat(option: string): (r: string)
    ensures Supported(r) && r != ""
    ensures r != FORMAT_COLON ==> r == option
    ensures option in {FORMAT_HYPHEN, FORMAT_DOT} ==> r == option
  {
    if option == FORMAT_HYPHEN || option == FORMAT_DOT then option else FORMAT_COLON
  }

  /** The address the link gets for a seed: generated as text in the network's format and parsed back. */
  function SeedMac(md5: string -> Digest, seed: string, option: string): (r: Option<seq<byte>>) {
    ParseMac(Text(MacFormat(option), Octets(md5, seed)))
  }

  // ---------------------------------------------------------------- lookup by MAC address

  predicate MacMatch(e: Endpoint, mac: string) { e.macAddress == mac && e.seedName != "" }

  /** The cached endpoints that a request presenting `mac` may be resolved to. */
  function MacMatches(n: Network, mac: string): (r: set<string>) {
    set k | k in Entries(n.endpoints) && MacMatch(Entries(n.endpoints)[k], mac)
  }

  // ---------------------------------------------------------------- the real container

  /** An inspected container: its full ID and configured hostname. */
  datatype Inspected = Inspected(id: string, hostname: string)

  /** One poll of Docker: a failed listing, or containers and what inspecting each of them answers. */
  datatype Attempt = ListFailed | Listed(ctrs: seq<Container>, inspect: map<string, Inspected>)

  datatype Found = Found(name: string, hostname: string)

  const ATTEMPTS := 10

  predicate Holds(c: Container, ep: string) {
    exists i :: 0 <= i < |c.attachments| && c.attachments[i].endpointId == ep
  }

  /** Docker's default hostname, the short container ID, counts as the container's name. */
  function RealHostname(i: Inspected, name: string): (r: string) {
    if |i.id| >= 12 && i.hostname == i.id[..12] then name else i.hostname
  }

  /** A hostname that is just the first twelve characters of the container's ID gives way to the name. */
  lemma RealHostnameExact(i: Inspected, name: string)
    ensures |i.hostname| == 12 && i.hostname <= i.id ==> RealHostname(i, name) == name
    ensures !(|i.hostname| == 12 && i.hostname <= i.id) ==> RealHostname(i, name) == i.hostname
  {
    if |i.id| >= 12 {
      assert |i.hostname| == 12 && i.hostname <= i.id <==> i.hostname == i.id[..12];
    }
  }

  /** What meeting container `c` changes; a failed inspection keeps the hostname. */
  function Meet(c: Container, inspect: map<string, Inspected>, ep: string, f: Found): (r: Found) {
    if !Holds(c, ep) then f
    else
      var name := if c.names == [] then f.name else NameOf(c);
      Found(name, if c.id in inspect then RealHostname(inspect[c.id], name) else f.hostname)
  }

  function Scan(ctrs: seq<Container>, inspect: map<string, Inspected>, ep: string, f: Found): (r: Found) {
    if ctrs == [] then f
    else
      var g := Meet(ctrs[0], inspect, ep, f);
      if g.name != "" then g else Scan(ctrs[1..], inspect, ep, g)
  }

  /** Polls until a name is known. */
  function Poll(attempts: seq<Attempt>, ep: string, f: Found): (r: Found) {
    if attempts == [] || f.name != "" then f
    else
      var g := if attempts[0].Listed? then Scan(attempts[0].ctrs, attempts[0].inspect, ep, f) else f;
      Poll(attempts[1..], ep, g)
  }

  function Identified(attempts: seq<Attempt>, ep: string): (r: Found) {
    Poll(if |attempts| > ATTEMPTS then attempts[..ATTEMPTS] else attempts, ep, Found("", ""))
  }

  function EffectiveSeed(f: Found): (r: string) {
    if f.hostname != "" then f.hostname else f.name
  }

  /** Docker tells the truth about `ep`: only the real container, named `name`, is shown holding it. */
  ghost predicate Truthful(attempts: seq<Attempt>, ep: string, name: string, hostname: string) {
    forall i, c :: 0 <= i < |attempts| && attempts[i].Listed? && c in attempts[i].ctrs && Holds(c, ep) ==>
      && c.names != [] && NameOf(c) == name
      && (c.id in attempts[i].inspect ==> RealHostname(attempts[i].inspect[c.id], name) == hostname)
  }

  ghost predicate Shows(a: Attempt, ep: string) {
    a.Listed? && exists c :: c in a.ctrs && Holds(c, ep)
  }

  /** The first container of the listing that holds the endpoint stands at `j`. */
  ghost predicate HeldFirst(ctrs: seq<Container>, ep: string, j: int) {
    0 <= j < |ctrs| && Holds(ctrs[j], ep) && forall k :: 0 <= k < j ==> !Holds(ctrs[k], ep)
  }

  /** Attempt `i` is the first to show the endpoint, and shows it first at `j`. */
  ghost predicate ShownFirst(attempts: seq<Attempt>, ep: string, i: int, j: int) {
    && 0 <= i < |attempts| && attempts[i].Listed? && HeldFirst(attempts[i].ctrs, ep, j)
    && forall k :: 0 <= k < i ==> !Shows(attempts[k], ep)
  }

  predicate Inspects(a: Attempt, j: int)
    requires a.Listed? && 0 <= j < |a.ctrs|
  {
    a.ctrs[j].id in a.inspect
  }

  /** The container that the search meets first, within its ten attempts, is inspected. */
  ghost predicate Answered(attempts: seq<Attempt>, ep: string) {
    exists i, j :: i < ATTEMPTS && ShownFirst(attempts, ep, i, j) && Inspects(attempts[i], j)
  }

  lemma {:induction false} SomeHeldFirst(ctrs: seq<Container>, ep: string) returns (j: nat)
    requires exists c :: c in ctrs && Holds(c, ep)
    ensures HeldFirst(ctrs, ep, j)
  {
    j := 0;
    while !Holds(ctrs[j], ep)
      invariant j < |ctrs| && forall k :: 0 <= k < j ==> !Holds(ctrs[k], ep)
      decreases |ctrs| - j
    {
      assert exists k :: 0 <= k < |ctrs| && Holds(ctrs[k], ep);
      j := j + 1;
    }
  }

  lemma {:induction false} ScanTruthful(a: Attempt, ctrs: seq<Container>, ep: string, name: string, hostname: string)
    requires a.Listed? && name != "" && Truthful([a], ep, name, hostname)
    requires forall c :: c in ctrs ==> c in a.ctrs
    ensures var f := Scan(ctrs, a.inspect, ep, Found("", ""));
            && ((forall c :: c in ctrs ==> !Holds(c, ep)) ==> f == Found("", ""))
            && forall j :: HeldFirst(ctrs, ep, j) ==> f == Found(name, if ctrs[j].id in a.inspect then hostname else "")
  {
    if ctrs != [] {
      assert [a][0] == a;
      assert ctrs[0] in ctrs;
      if !Holds(ctrs[0], ep) {
        ScanTruthful(a, ctrs[1..], ep, name, hostname);
        assert forall j :: HeldFirst(ctrs, ep, j) ==> j > 0 && HeldFirst(ctrs[1..], ep, j - 1);
      }
    }
  }

  lemma {:induction false} PollTruthful(attempts: seq<Attempt>, ep: string, name: string, hostname: string)
    requires name != "" && Truthful(attempts, ep, name, hostname)
    ensures var f := Poll(attempts, ep, Found("", ""));
            && ((forall i :: 0 <= i < |attempts| ==> !Shows(attempts[i], ep)) ==> f == Found("", ""))
            && forall i, j :: ShownFirst(attempts, ep, i, j) ==>
                 f == Found(name, if Inspects(attempts[i], j) then hostname else "")
  {
    hide Scan;
    if attempts != [] {
      var a := attempts[0];
      assert Truthful([a], ep, name, hostname);
      assert Truthful(attempts[1..], ep, name, hostname) by {
        assert forall i :: 0 <= i < |attempts| - 1 ==> attempts[1..][i] == attempts[i + 1];
      }
      if a.Listed? {
        ScanTruthful(a, a.ctrs, ep, name, hostname);
      }
      if Shows(a, ep) {
        var j := SomeHeldFirst(a.ctrs, ep);
        assert forall i, k :: ShownFirst(attempts, ep, i, k) ==> i == 0;
      } else {
        PollTruthful(attempts[1..], ep, name, hostname);
        assert forall i, j :: ShownFirst(attempts, ep, i, j) ==>
                 i > 0 && attempts[1..][i - 1] == attempts[i] && ShownFirst(attempts[1..], ep, i - 1, j);
      }
    }
  }

  /**
   When Docker is truthful the search finds the real container's name exactly when one of the first ten
   listings shows the endpoint, and its hostname exactly when the container it meets first is inspected;
   otherwise it finds nothing, or no hostname.
   */
  lemma {:induction false} IdentifiedIsReal(attempts: seq<Attempt>, ep: string, name: string, hostname: string)
    requires name != "" && Truthful(attempts, ep, name, hostname)
    ensures var f := Identified(attempts, ep);
            && f.name == (if exists i :: 0 <= i < |attempts| && i < ATTEMPTS && Shows(attempts[i], ep)
                          then name else "")
            && f.hostname == if Answered(attempts, ep) then hostname else ""
  {
    hide Poll, Holds, HeldFirst;
    var first := if |attempts| > ATTEMPTS then attempts[..ATTEMPTS] else attempts;
    assert forall i :: 0 <= i < |first| ==> first[i] == attempts[i];
    PollTruthful(first, ep, name, hostname);
    assert forall i, j :: i < ATTEMPTS ==> (ShownFirst(first, ep, i, j) <==> ShownFirst(attempts, ep, i, j));
    if exists i :: 0 <= i < |first| && Shows(first[i], ep) {
      var i, j := SomeShownFirst(first, ep);
      assert ShownFirst(attempts, ep, i, j);
    }
  }

  lemma {:induction false} SomeShownFirst(attempts: seq<Attempt>, ep: string) returns (i: nat, j: nat)
    requires exists i :: 0 <= i < |attempts| && Shows(attempts[i], ep)
    ensures ShownFirst(attempts, ep, i, j)
  {
    i := 0;
    while !Shows(attempts[i], ep)
      invariant i < |attempts| && forall k :: 0 <= k < i ==> !Shows(attempts[k], ep)
      decreases |attempts| - i
    {
      i := i + 1;
    }
    j := SomeHeldFirst(attempts[i].ctrs, ep);
  }

  // ---------------------------------------------------------------- exactly what the search finds

  /** A container that holds the endpoint, as a poll lists it, and what the inspections of that poll answer. */
  datatype Meeting = Meeting(c: Container, inspect: map<string, Inspected>)

  /** The containers of one listing that hold the endpoint on any network. */
  ghost function MetIn(ctrs: seq<Container>, inspect: map<string, Inspected>, ep: string): (r: seq<Meeting>) {
    if ctrs == [] then []
    else
      (if exists a :: a in ctrs[0].attachments && a.endpointId == ep then [Meeting(ctrs[0], inspect)] else [])
      + MetIn(ctrs[1..], inspect, ep)
  }

  /** Those of all polls, in order, as if none were the last. */
  ghost function Met(attempts: seq<Attempt>, ep: string): (r: seq<Meeting>) {
    if attempts == [] then []
    else
      (match attempts[0] case Listed(ctrs, inspect) => MetIn(ctrs, inspect, ep) case ListFailed => [])
      + Met(attempts[1..], ep)
  }

  /** The search gets as far as `k`: nothing before it has a name. */
  ghost predicate Reached(ms: seq<Meeting>, k: int) {
    0 <= k < |ms| && forall j :: 0 <= j < k ==> Called(ms[j].c, "")
  }

  /** The search ends with `k`. */
  ghost predicate EndsAt(ms: seq<Meeting>, k: int) {
    Reached(ms, k) && !Called(ms[k].c, "")
  }

  /** Of those reached, `k` is the last whose inspection succeeds. */
  ghost predicate LastAsked(ms: seq<Meeting>, k: int) {
    && Reached(ms, k) && ms[k].c.id in ms[k].inspect
    && forall j :: k < j && Reached(ms, j) ==> ms[j].c.id !in ms[j].inspect
  }

  /** One meeting after another until a name is known. */
  ghost function Walk(ms: seq<Meeting>, ep: string, f: Found): (r: Found) {
    if ms == [] || f.name != "" then f else Walk(ms[1..], ep, Meet(ms[0].c, ms[0].inspect, ep, f))
  }

  lemma {:induction false} WalkConcat(a: seq<Meeting>, b: seq<Meeting>, ep: string, f: Found)
    ensures Walk(a + b, ep, f) == Walk(b, ep, Walk(a, ep, f))
    decreases a
  {
    hide Meet;
    if a == [] {
      assert a + b == b;
    } else if f.name == "" {
      assert (a + b)[0] == a[0] && (a + b)[1..] == a[1..] + b;
      WalkConcat(a[1..], b, ep, Meet(a[0].c, a[0].inspect, ep, f));
    }
  }

  lemma HoldsAttachment(c: Container, ep: string)
    ensures Holds(c, ep) <==> exists a :: a in c.attachments && a.endpointId == ep
  {
    if a :| a in c.attachments && a.endpointId == ep {
      var i :| 0 <= i < |c.attachments| && c.attachments[i] == a;
    }
  }

  lemma {:induction false} ScanWalks(ctrs: seq<Container>, inspect: map<string, Inspected>, ep: string, f: Found)
    requires f.name == ""
    ensures Scan(ctrs, inspect, ep, f) == Walk(MetIn(ctrs, inspect, ep), ep, f)
    decreases ctrs
  {
    if ctrs != [] {
      HoldsAttachment(ctrs[0], ep);
      var first := if Holds(ctrs[0], ep) then [Meeting(ctrs[0], inspect)] else [];
      var g := Meet(ctrs[0], inspect, ep, f);
      assert MetIn(ctrs, inspect, ep) == first + MetIn(ctrs[1..], inspect, ep);
      WalkConcat(first, MetIn(ctrs[1..], inspect, ep), ep, f);
      assert Walk(first, ep, f) == g by {
        WalkOne(Meeting(ctrs[0], inspect), ep, f);
      }
      if g.name == "" {
        ScanWalks(ctrs[1..], inspect, ep, g);
      }
    }
  }

  lemma WalkOne(m: Meeting, ep: string, f: Found)
    ensures Walk([m], ep, f) == if f.name != "" then f else Meet(m.c, m.inspect, ep, f)
  {
  }

  lemma {:induction false} PollWalks(attempts: seq<Attempt>, ep: string, f: Found)
    ensures Poll(attempts, ep, f) == Walk(Met(attempts, ep), ep, f)
    decreases attempts
  {
    hide Scan, MetIn;
    if attempts != [] && f.name == "" {
      var first := match attempts[0] case Listed(ctrs, inspect) => MetIn(ctrs, inspect, ep) case ListFailed => [];
      WalkConcat(first, Met(attempts[1..], ep), ep, f);
      if attempts[0].Listed? {
        ScanWalks(attempts[0].ctrs, attempts[0].inspect, ep, f);
      }
      PollWalks(attempts[1..], ep, Walk(first, ep, f));
    }
  }

  lemma {:induction false} AllHold(attempts: seq<Attempt>, ep: string)
    ensures forall m :: m in Met(attempts, ep) ==> Holds(m.c, ep)
  {
    if attempts != [] {
      AllHold(attempts[1..], ep);
      if attempts[0].Listed? {
        AllHoldIn(attempts[0].ctrs, attempts[0].inspect, ep);
      }
    }
  }

  lemma {:induction false} AllHoldIn(ctrs: seq<Container>, inspect: map<string, Inspected>, ep: string)
    ensures forall m :: m in MetIn(ctrs, inspect, ep) ==> Holds(m.c, ep)
  {
    if ctrs != [] {
      AllHoldIn(ctrs[1..], inspect, ep);
      HoldsAttachment(ctrs[0], ep);
    }
  }

  /** What an inspected container's hostname comes to, given the container's name. */
  ghost predicate HostnameOf(m: Meeting, hostname: string)
    requires m.c.id in m.inspect
  {
    var i := m.inspect[m.c.id];
    if |i.hostname| == 12 && i.hostname <= i.id then Called(m.c, hostname) else hostname == i.hostname
  }

  /** Name and hostname after meeting `ms`. */
  ghost predicate Finds(ms: seq<Meeting>, f: Found) {
    && (forall k :: EndsAt(ms, k) ==> Called(ms[k].c, f.name))
    && ((forall k :: !EndsAt(ms, k)) ==> f.name == "")
    && (forall k :: LastAsked(ms, k) ==> HostnameOf(ms[k], f.hostname))
    && ((forall k :: !LastAsked(ms, k)) ==> f.hostname == "")
  }

  lemma MeetFinds(m: Meeting, ep: string, f: Found)
    requires f.name == "" && Holds(m.c, ep)
    ensures var g := Meet(m.c, m.inspect, ep, f);
            && Called(m.c, g.name)
            && (m.c.id in m.inspect ==> HostnameOf(m, g.hostname))
            && (m.c.id !in m.inspect ==> g.hostname == f.hostname)
  {
    NameIs(m.c, NameOf(m.c));
    if m.c.id in m.inspect {
      RealHostnameExact(m.inspect[m.c.id], NameOf(m.c));
    }
  }

  lemma ReachedMore(ms: seq<Meeting>, k: int)
    requires ms != []
    ensures var n := |ms| - 1;
            Reached(ms, k) <==> Reached(ms[..n], k) || (k == n && forall j :: 0 <= j < n ==> Called(ms[j].c, ""))
  {
    assert forall j :: 0 <= j < |ms| - 1 ==> ms[..|ms| - 1][j] == ms[j];
  }

  lemma {:induction false} WalkFinds(ms: seq<Meeting>, ep: string)
    requires forall m :: m in ms ==> Holds(m.c, ep)
    ensures Finds(ms, Walk(ms, ep, Found("", "")))
  {
    hide Called, Meet, HostnameOf;
    if ms != [] {
      var n := |ms| - 1;
      var f := Walk(ms[..n], ep, Found("", ""));
      WalkFinds(ms[..n], ep);
      WalkConcat(ms[..n], [ms[n]], ep, Found("", ""));
      assert ms[..n] + [ms[n]] == ms;
      WalkOne(ms[n], ep, f);
      FindsMore(ms, ep, f);
    }
  }

  /** The next meeting counts unless a name is known. */
  lemma FindsMore(ms: seq<Meeting>, ep: string, f: Found)
    requires ms != [] && Finds(ms[..|ms| - 1], f) && Holds(ms[|ms| - 1].c, ep)
    ensures var m := ms[|ms| - 1]; Finds(ms, if f.name != "" then f else Meet(m.c, m.inspect, ep, f))
  {
    hide Meet, HostnameOf, Called;
    var n := |ms| - 1;
    var init, m := ms[..n], ms[n];
    assert forall k :: 0 <= k < n ==> init[k] == ms[k];
    forall k ensures Reached(ms, k) <==> Reached(init, k) || (k == n && Reached(ms, n)) {
      ReachedMore(ms, k);
    }
    if f.name != "" {
      var e :| EndsAt(init, e);
      assert !Reached(ms, n);
      SameFound(ms, init, f);
    } else {
      assert forall k :: !EndsAt(init, k);
      NoneNamed(init, n);
      var g := Meet(m.c, m.inspect, ep, f);
      MeetFinds(m, ep, f);
      CalledOnce(m.c, g.name, "");
      LastFound(ms, f, g);
    }
  }

  lemma SameFound(ms: seq<Meeting>, init: seq<Meeting>, f: Found)
    requires init <= ms && Finds(init, f) && forall k :: Reached(ms, k) <==> Reached(init, k)
    ensures Finds(ms, f)
  {
    hide Reached, HostnameOf, Called;
    assert forall k :: Reached(init, k) ==> 0 <= k < |init| && init[k] == ms[k] by {
      InRange(init);
    }
    assert forall k :: EndsAt(ms, k) <==> EndsAt(init, k);
    assert forall k :: LastAsked(ms, k) <==> LastAsked(init, k);
  }

  lemma InRange(ms: seq<Meeting>)
    ensures forall k :: Reached(ms, k) ==> 0 <= k < |ms|
  {
  }

  lemma LastFound(ms: seq<Meeting>, f: Found, g: Found)
    requires ms != []
    requires var n := |ms| - 1;
             && Finds(ms[..n], f) && Reached(ms, n) && Called(ms[n].c, g.name)
             && (Called(ms[n].c, "") <==> g.name == "")
             && (ms[n].c.id in ms[n].inspect ==> HostnameOf(ms[n], g.hostname))
             && (ms[n].c.id !in ms[n].inspect ==> g.hostname == f.hostname)
    ensures Finds(ms, g)
  {
    hide HostnameOf, Called;
    var n := |ms| - 1;
    var init := ms[..n];
    assert forall k :: 0 <= k < n ==> init[k] == ms[k];
    assert forall k :: Reached(ms, k) <==> 0 <= k <= n;
    assert forall k :: Reached(init, k) <==> 0 <= k < n;
    assert forall k :: EndsAt(ms, k) <==> k == n && !Called(ms[n].c, "");
    if ms[n].c.id in ms[n].inspect {
      assert forall k :: LastAsked(ms, k) <==> k == n;
    } else {
      forall k ensures LastAsked(ms, k) <==> LastAsked(init, k) {
        assert Reached(ms, n) && (LastAsked(init, k) || LastAsked(ms, k) ==> 0 <= k <= n);
      }
      forall k | LastAsked(ms, k) ensures HostnameOf(ms[k], g.hostname) {
        assert LastAsked(init, k) && init[k] == ms[k];
      }
    }
    assert EndsAt(ms, n) || g.name == "";
    assert LastAsked(ms, n) || ms[n].c.id !in ms[n].inspect;
  }

  lemma {:induction false} NoneNamed(ms: seq<Meeting>, n: nat)
    requires n <= |ms| && forall k :: !EndsAt(ms, k)
    ensures forall j :: 0 <= j < n ==> Called(ms[j].c, "")
  {
    hide Called;
    if n > 0 {
      NoneNamed(ms, n - 1);
      assert Reached(ms, n - 1) && !EndsAt(ms, n - 1);
    }
  }

  lemma CalledOnce(c: Container, a: string, b: string)
    requires Called(c, a)
    ensures Called(c, b) <==> a == b
  {
    NameIs(c, a);
    NameIs(c, b);
  }

  /**
   The search, on any answers of Docker's: among the containers met in the first ten polls that hold the endpoint it
   ends with the first that has a name, and answers that name; its hostname is that of the last one inspected up to
   there, where a hostname that is just the short container ID counts as the name. Without any it answers nothing.
   */
  lemma {:induction false} SearchExact(attempts: seq<Attempt>, ep: string)
    ensures Finds(Met(if |attempts| > 10 then attempts[..10] else attempts, ep), Identified(attempts, ep))
  {
    hide Finds;
    var polled := if |attempts| > 10 then attempts[..10] else attempts;
    PollWalks(polled, ep, Found("", ""));
    AllHold(polled, ep);
    WalkFinds(Met(polled, ep), ep);
  }
}
