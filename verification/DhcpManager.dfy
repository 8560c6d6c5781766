/**
 The manager of one joined endpoint: how it reacts to its DHCP clients' events
 (pkg/plugin/dhcp_manager.go:62-130). Address parsing is a parameter; the kernel's answers are arguments.
 */
module DhcpManager {
  import opened Wrappers

  /** An address with its mask size; netlink compares exactly these. */
  datatype Addr = Addr(ip: string, mask: nat)

  datatype Event = Event(kind: string, ip: string)

  predicate IsLease(e: Event) { e.kind == "bound" || e.kind == "renew" }

  /** Which netlink calls fail although the kernel could carry them out. */
  datatype Faults = Faults(del: bool, add: bool, replace: bool)

  const NO_FAULTS := Faults(false, false, false)

  /** The interface's addresses after a lease for `leased` while `last` was the manager's address. */
  function Renewed(addrs: set<Addr>, last: Option<Addr>, leased: Addr, hasLink: bool, faults: Faults): (r: set<Addr>) {
    if last.None? || last.value == leased || !hasLink then addrs
    else
      var rest := if faults.del then addrs else addrs - {last.value};
      if (faults.add || leased in rest) && faults.replace then rest else rest + {leased}
  }

  /**
   A lease for a new address on an interface with a link puts that address on it unless both ways to add it fail and
   it is not there already, and takes the last address off unless that fails; all else changes nothing.
   */
  lemma RenewedExact(addrs: set<Addr>, last: Option<Addr>, leased: Addr, hasLink: bool, faults: Faults)
    ensures var after := Renewed(addrs, last, leased, hasLink, faults);
            if hasLink && last.Some? && last.value != leased then
              && (leased in after <==> leased in addrs || !faults.add || !faults.replace)
              && (last.value in after <==> last.value in addrs && faults.del)
              && forall a :: a != leased && a != last.value ==> (a in after <==> a in addrs)
            else after == addrs
  {
  }

  /** The family's last address after `es`. */
  function LastIp(es: seq<Event>, parse: string -> Option<Addr>, first: Option<Addr>): (r: Option<Addr>) {
    if es == [] then first
    else
      var e := es[|es| - 1];
      if IsLease(e) && parse(e.ip).Some? then parse(e.ip) else LastIp(es[..|es| - 1], parse, first)
  }

  /** The interface after `es`, when event i meets `faults[i]`. */
  function Addresses(es: seq<Event>, faults: seq<Faults>, parse: string -> Option<Addr>, first: Option<Addr>,
                     addrs: set<Addr>, hasLink: bool): (r: set<Addr>)
    requires |faults| == |es|
  {
    if es == [] then addrs
    else
      var n := |es| - 1;
      var before := Addresses(es[..n], faults[..n], parse, first, addrs, hasLink);
      if IsLease(es[n]) && parse(es[n].ip).Some?
      then Renewed(before, LastIp(es[..n], parse, first), parse(es[n].ip).value, hasLink, faults[n])
      else before
  }

  /** Collisions since the last bound or renew event. */
  function Collisions(es: seq<Event>): (r: nat) {
    if es == [] then 0
    else
      var e, before := es[|es| - 1], Collisions(es[..|es| - 1]);
      if IsLease(e) then 0 else if e.kind == "collision" then before + 1 else before
  }

  /** Seconds spent backing off: as many as there are collisions, from the third on. */
  function Slept(es: seq<Event>): (r: nat) {
    if es == [] then 0
    else Slept(es[..|es| - 1]) +
         if es[|es| - 1].kind == "collision" && Collisions(es) >= 3 then Collisions(es) else 0
  }

  class Manager {
    var lastIP: Option<Addr>
    var lastIPv6: Option<Addr>
    var addrs4: set<Addr>
    var addrs6: set<Addr>
    var hasLink: bool

    function Last(v6: bool): (r: Option<Addr>)
      reads this
    {
      if v6 then lastIPv6 else lastIP
    }

    function Addrs(v6: bool): (r: set<Addr>)
      reads this
    {
      if v6 then addrs6 else addrs4
    }

    method SetAddrs(v6: bool, addrs: set<Addr>)
      modifies this`addrs4, this`addrs6
      ensures Addrs(v6) == addrs && Addrs(!v6) == old(Addrs(!v6))
    {
      if v6 {
        addrs6 := addrs;
      } else {
        addrs4 := addrs;
      }
    }

    /** Takes over the leased address; the other family is left alone. */
    method Renew(v6: bool, ip: string, parse: string -> Option<Addr>, faults: Faults) returns (ok: bool)
      modifies this`lastIP, this`lastIPv6, this`addrs4, this`addrs6
      ensures ok == parse(ip).Some?
      ensures Last(v6) == if ok then parse(ip) else old(Last(v6))
      ensures Addrs(v6) == if ok then Renewed(old(Addrs(v6)), old(Last(v6)), parse(ip).value, hasLink, faults)
                           else old(Addrs(v6))
      ensures Last(!v6) == old(Last(!v6)) && Addrs(!v6) == old(Addrs(!v6))
    {
      var last := if v6 then lastIPv6 else lastIP;
      var parsed := parse(ip);
      if parsed.None? {
        return false;
      }
      var addr := parsed.value;
      if last.Some? && last.value != addr && hasLink {
        var held := if v6 then addrs6 else addrs4;
        if !faults.del {
          held := held - {last.value};
        }
        if faults.add || addr in held {
          if !faults.replace {
            held := held + {addr};
          }
        } else {
          held := held + {addr};
        }
        SetAddrs(v6, held);
      }
      if v6 {
        lastIPv6 := parsed;
      } else {
        lastIP := parsed;
      }
      return true;
    }

    /** The event loop up to the point where the pipe closes or the manager is stopped: `events` is what it got. */
    method ProcessEvents(v6: bool, events: seq<Event>, parse: string -> Option<Addr>, faults: seq<Faults>)
      returns (collisions: nat, slept: nat)
      requires |faults| == |events|
      modifies this`lastIP, this`lastIPv6, this`addrs4, this`addrs6
      ensures collisions == Collisions(events) && slept == Slept(events)
      ensures Last(v6) == LastIp(events, parse, old(Last(v6)))
      ensures Addrs(v6) == Addresses(events, faults, parse, old(Last(v6)), old(Addrs(v6)), hasLink)
      ensures Last(!v6) == old(Last(!v6)) && Addrs(!v6) == old(Addrs(!v6))
    {
      collisions, slept := 0, 0;
      for i := 0 to |events|
        invariant collisions == Collisions(events[..i]) && slept == Slept(events[..i])
        invariant Last(v6) == LastIp(events[..i], parse, old(Last(v6)))
        invariant Addrs(v6) == Addresses(events[..i], faults[..i], parse, old(Last(v6)), old(Addrs(v6)), hasLink)
        invariant Last(!v6) == old(Last(!v6)) && Addrs(!v6) == old(Addrs(!v6))
      {
        assert events[..i + 1][..i] == events[..i] && faults[..i + 1][..i] == faults[..i];
        var event := events[i];
        if event.kind == "bound" || event.kind == "renew" {
          collisions := 0;
          var _ := Renew(v6, event.ip, parse, faults[i]);
        } else if event.kind == "collision" {
          collisions := collisions + 1;
          if collisions >= 3 {
            slept := slept + collisions;
          }
        }
      }
      assert events[..|events|] == events && faults[..|faults|] == faults;
    }
  }

  // ---------------------------------------------------------------- what the loop adds up to

  function CountCollisions(es: seq<Event>): (r: nat) {
    if es == [] then 0
    else CountCollisions(es[..|es| - 1]) + if es[|es| - 1].kind == "collision" then 1 else 0
  }

  /** 3 + 4 + ... + c. */
  function BackoffTotal(c: nat): (r: nat) {
    if c < 3 then 0 else c * (c + 1) / 2 - 3
  }

  lemma BackoffStep(c: nat)
    requires c >= 3
    ensures BackoffTotal(c) == BackoffTotal(c - 1) + c
  {
    assert c * (c + 1) == (c - 1) * c + 2 * c;
  }

  /**
   After the last lease event, failure events do not reset the counter: it is the number of collisions
   since, and those c collisions have slept c(c+1)/2 - 3 seconds in total from c = 3 on, none below.
   */
  lemma {:induction false} BackoffSinceLease(before: seq<Event>, lease: Event, since: seq<Event>)
    requires lease.kind in {"bound", "renew"}
    requires forall i :: 0 <= i < |since| ==> since[i].kind !in {"bound", "renew"}
    ensures var es, c := before + [lease] + since, CountCollisions(since);
            Collisions(es) == c && Slept(es) == Slept(before) + BackoffTotal(c)
  {
    var es := before + [lease] + since;
    if since == [] {
      assert es[..|es| - 1] == before && es[|es| - 1] == lease;
    } else {
      var n := |since| - 1;
      assert es[..|es| - 1] == before + [lease] + since[..n] && es[|es| - 1] == since[n];
      BackoffSinceLease(before, lease, since[..n]);
      if since[n].kind == "collision" && CountCollisions(since) >= 3 {
        BackoffStep(CountCollisions(since));
      }
    }
  }

  /** Before any lease the same holds from the start of the client. */
  lemma {:induction false} BackoffFromStart(es: seq<Event>)
    requires forall i :: 0 <= i < |es| ==> es[i].kind !in {"bound", "renew"}
    ensures Collisions(es) == CountCollisions(es) && Slept(es) == BackoffTotal(CountCollisions(es))
  {
    if es != [] {
      BackoffFromStart(es[..|es| - 1]);
      if es[|es| - 1].kind == "collision" && CountCollisions(es) >= 3 {
        BackoffStep(CountCollisions(es));
      }
    }
  }

  /** Event `i` is a lease for an address that parses. */
  predicate Leases(es: seq<Event>, parse: string -> Option<Addr>, i: int) {
    0 <= i < |es| && es[i].kind in {"bound", "renew"} && parse(es[i].ip).Some?
  }

  /** The family's address is that of the last lease event with a parseable one, or the first if there is none. */
  lemma {:induction false} LastIpIsLastParseable(es: seq<Event>, parse: string -> Option<Addr>, first: Option<Addr>)
    ensures (forall i :: !Leases(es, parse, i)) ==> LastIp(es, parse, first) == first
    ensures forall i :: Leases(es, parse, i) && (forall j :: i < j ==> !Leases(es, parse, j)) ==>
              LastIp(es, parse, first) == parse(es[i].ip)
  {
    if es != [] {
      var n := |es| - 1;
      LastIpIsLastParseable(es[..n], parse, first);
      assert forall i :: 0 <= i < n ==> es[..n][i] == es[i];
      assert forall i :: i != n ==> (Leases(es[..n], parse, i) <==> Leases(es, parse, i));
      assert Leases(es, parse, n) <==> IsLease(es[n]) && parse(es[n].ip).Some?;
    }
  }

  /** Addresses that the manager neither had nor leased are left alone, and without a link all are. */
  lemma {:induction false} OthersStay(es: seq<Event>, faults: seq<Faults>, parse: string -> Option<Addr>,
                                      first: Option<Addr>, addrs: set<Addr>, hasLink: bool, a: Addr)
    requires |faults| == |es|
    requires hasLink ==> first != Some(a) && forall i :: Leases(es, parse, i) ==> parse(es[i].ip) != Some(a)
    ensures hasLink ==> LastIp(es, parse, first) != Some(a)
    ensures a in Addresses(es, faults, parse, first, addrs, hasLink) <==> a in addrs
  {
    if es != [] {
      var n := |es| - 1;
      assert forall i :: 0 <= i < n ==> es[..n][i] == es[i];
      assert forall i :: Leases(es[..n], parse, i) ==> Leases(es, parse, i);
      assert Leases(es, parse, n) <==> IsLease(es[n]) && parse(es[n].ip).Some?;
      OthersStay(es[..n], faults[..n], parse, first, addrs, hasLink, a);
    }
  }

  /**
   An interface that holds exactly the manager's address goes on holding exactly the manager's address
   through any events, when the netlink calls succeed.
   */
  lemma {:induction false} InterfaceFollowsLease(es: seq<Event>, faults: seq<Faults>,
                                                 parse: string -> Option<Addr>, first: Addr)
    requires |faults| == |es| && forall i :: 0 <= i < |es| ==> faults[i] == NO_FAULTS
    ensures LastIp(es, parse, Some(first)).Some?
    ensures Addresses(es, faults, parse, Some(first), {first}, true) == {LastIp(es, parse, Some(first)).value}
  {
    if es != [] {
      InterfaceFollowsLease(es[..|es| - 1], faults[..|es| - 1], parse, first);
    }
  }
}
