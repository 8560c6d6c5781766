/**
 The pending-container maps as the plugin holds them: queues are Go slices whose entries are
 compacted in place through queue[:0] (pkg/plugin/plugin.go:211-327).
 */
module PendingStore {
  import opened Seqs
  import opened PendingSpec

  /** A Go slice header. Its capacity is what is left of `buf` from `off` on. */
  datatype Slice = Slice(buf: array<Pending>, off: nat, len: nat)

  ghost predicate InBounds(s: Slice) { s.off + s.len <= s.buf.Length }

  ghost function View(s: Slice): (r: seq<Pending>)
    requires InBounds(s)
    reads s.buf
  {
    s.buf[s.off..s.off + s.len]
  }

  /** Go's append: in place while the capacity lasts, otherwise into a new array of some larger capacity. */
  method Append(s: Slice, p: Pending) returns (r: Slice)
    requires InBounds(s)
    modifies s.buf
    ensures InBounds(r) && View(r) == old(View(s)) + [p]
    ensures s.off + s.len < s.buf.Length ==>
              r == Slice(s.buf, s.off, s.len + 1) && s.buf[..] == old(s.buf[..])[s.off + s.len := p]
    ensures s.off + s.len == s.buf.Length ==> fresh(r.buf) && s.buf[..] == old(s.buf[..])
  {
    if s.off + s.len < s.buf.Length {
      s.buf[s.off + s.len] := p;
      r := s.(len := s.len + 1);
    } else {
      var capacity: nat :| capacity > s.len;
      var buf := new Pending[capacity];
      forall i | 0 <= i < s.len {
        buf[i] := s.buf[s.off + i];
      }
      buf[s.len] := p;
      r := Slice(buf, 0, s.len + 1);
    }
  }

  /**
   The compaction loop: reads `s` front to back while appending the kept entries to s[:0].
   Slots not yet read, and everything outside the result, keep their contents.
   */
  method Compact(s: Slice, keep: Pending -> bool) returns (r: Slice)
    requires InBounds(s)
    modifies s.buf
    ensures r == Slice(s.buf, s.off, r.len) && r.len <= s.len
    ensures View(r) == Filter(old(View(s)), keep)
    ensures forall i :: 0 <= i < s.buf.Length && !(s.off <= i < s.off + r.len) ==> s.buf[i] == old(s.buf[i])
  {
    hide Filter;
    r := s.(len := 0);
    ghost var was := View(s);
    FilterNone(was, keep);
    for i := 0 to s.len
      invariant r == Slice(s.buf, s.off, r.len) && r.len <= i
      invariant View(r) == Filter(was[..i], keep)
      invariant forall j :: 0 <= j < s.buf.Length && !(s.off <= j < s.off + r.len) ==> s.buf[j] == old(s.buf[j])
    {
      var p := s.buf[s.off + i];
      assert p == was[i];
      FilterNext(was, keep, i);
      if keep(p) {
        r := Append(r, p);
      }
    }
    assert was[..s.len] == was;
  }

  /** One push on a slice: the flush, the deduplication and the append, on the one backing array. */
  method PushSlice(s: Slice, p: Pending) returns (r: Slice)
    requires InBounds(s)
    modifies s.buf
    ensures InBounds(r) && (fresh(r.buf) || (r.buf == s.buf && s.buf.Length > 0))
    ensures View(r) == PushQueue(old(View(s)), p)
  {
    var queue := s;
    if p.forward {
      queue := Compact(queue, IsForward());
    }
    var deduped := Compact(queue, NotNamed(p.name));
    r := Append(deduped, p);
  }

  /** The queues when all but those in `todo` have been pruned. */
  ghost function PruneExcept(q: Queues, todo: set<string>, cutoff: int): (r: Queues) {
    map net | net in q && (net in todo || Filter(q[net], FreshAt(cutoff)) != []) ::
      if net in todo then q[net] else Filter(q[net], FreshAt(cutoff))
  }

  lemma PruneExceptEnds(q: Queues, cutoff: int)
    ensures PruneExcept(q, q.Keys, cutoff) == q && PruneExcept(q, {}, cutoff) == PruneQueues(q, cutoff)
  {
  }

  lemma PruneExceptStep(q: Queues, todo: set<string>, net: string, cutoff: int)
    requires net in todo && net in q
    ensures var live := Filter(q[net], FreshAt(cutoff));
            var now := PruneExcept(q, todo, cutoff);
            && now[net] == q[net]
            && PruneExcept(q, todo - {net}, cutoff) == if live == [] then now - {net} else now[net := live]
  {
  }

  class Store {
    /** The queues as values. */
    ghost var Contents: Queues

    const nilBuf: array<Pending>
    var queues: map<string, Slice>
    var metas: Metas

    /** The backing arrays in use, each with the one network it belongs to. */
    ghost var Owner: map<array<Pending>, string>

    ghost predicate Slot(net: string, s: Slice)
      reads this`Contents, this`Owner, s.buf
    {
      InBounds(s) && s.buf in Owner && Owner[s.buf] == net && net in Contents && View(s) == Contents[net]
    }

    /** Headers lie within arrays that belong to one network each, and `Contents` is what the slices show. */
    ghost predicate Valid()
      reads this`queues, this`Contents, this`Owner, Owner.Keys
    {
      && nilBuf.Length == 0 && nilBuf !in Owner
      && queues.Keys == Contents.Keys
      && forall net :: net in queues ==> queues[net].buf in Owner && Slot(net, queues[net])
    }

    constructor ()
      ensures Valid() && State(Contents, metas) == EMPTY && fresh(nilBuf) && Owner == map[]
    {
      nilBuf := new Pending[0];
      queues, Contents, Owner, metas := map[], map[], map[], map[];
    }

    /** Everything `Valid` says about the networks other than `net`. */
    ghost predicate ValidBut(net: string)
      reads this`queues, this`Contents, this`Owner, Owner.Keys
    {
      && nilBuf.Length == 0 && nilBuf !in Owner
      && queues.Keys == Contents.Keys
      && forall n :: n in queues && n != net ==> queues[n].buf in Owner && Slot(n, queues[n])
    }

    /** Stores `s` as the queue of `net`. */
    method Put(net: string, s: Slice, ghost q: seq<Pending>)
      requires ValidBut(net) && s.buf != nilBuf
      requires InBounds(s) && View(s) == q && (s.buf in Owner ==> Owner[s.buf] == net)
      modifies this`queues, this`Contents, this`Owner
      ensures Valid() && queues == old(queues)[net := s]
      ensures Contents == old(Contents)[net := q] && Owner == old(Owner)[s.buf := net]
    {
      queues := queues[net := s];
      Contents := Contents[net := q];
      Owner := Owner[s.buf := net];
    }

    method Push(net: string, name: string, hostname: string, forward: bool, now: int)
      requires Valid()
      modifies this`queues, this`Contents, this`Owner, Owner.Keys, nilBuf
      ensures Valid() && fresh(Owner.Keys - old(Owner.Keys))
      ensures Contents == PushQueues(old(Contents), net, Pending(name, hostname, now, forward))
      // The other networks' headers and backing arrays are exactly as they were.
      ensures forall n :: n in old(queues) && n != net ==> n in queues && queues[n] == old(queues[n])
      ensures forall b :: b in old(Owner) && old(Owner)[b] != net ==> unchanged(b)
    {
      hide PushQueue;
      var queue := if net in queues then queues[net] else Slice(nilBuf, 0, 0);
      var p := Pending(name, hostname, now, forward);
      var pushed := PushSlice(queue, p);
      Put(net, pushed, PushQueue(QueueOf(Contents, net), p));
    }

    method Pop(net: string) returns (name: string, hostname: string, ok: bool)
      requires Valid()
      modifies this`queues, this`Contents, this`Owner
      ensures Valid() && Owner == old(Owner)
      ensures Contents == PopQueues(old(Contents), net)
      ensures ok == (QueueOf(old(Contents), net) != [])
      ensures ok ==> var p := QueueOf(old(Contents), net)[0]; name == p.name && hostname == p.hostname
      ensures !ok ==> name == "" && hostname == ""
    {
      if net !in queues || queues[net].len == 0 {
        return "", "", false;
      }
      var queue := queues[net];
      var p := queue.buf[queue.off];
      Put(net, Slice(queue.buf, queue.off + 1, queue.len - 1), Contents[net][1..]);
      name, hostname, ok := p.name, p.hostname, true;
    }

    method Upsert(net: string, name: string, hostname: string, now: int)
      modifies this`metas
      ensures metas == UpsertMeta(old(metas), net, name, hostname, now)
    {
      var inner := if net in metas then metas[net] else map[];
      metas := metas[net := inner[name := Pending(name, hostname, now, false)]];
    }

    method Lookup(net: string, name: string) returns (hostname: string, ok: bool)
      ensures ok == (net in metas && name in metas[net])
      ensures hostname == if ok then metas[net][name].hostname else ""
    {
      if net !in metas || name !in metas[net] {
        return "", false;
      }
      return metas[net][name].hostname, true;
    }

    method PruneQueue(net: string, cutoff: int)
      requires Valid() && net in queues
      modifies this`queues, this`Contents, queues[net].buf
      ensures Valid() && queues.Keys <= old(queues.Keys)
      ensures Contents == var live := Filter(old(Contents)[net], FreshAt(cutoff));
                          if live == [] then old(Contents) - {net} else old(Contents)[net := live]
    {
      var buf := queues[net].buf;
      var kept := Compact(queues[net], FreshAt(cutoff));
      if kept.len == 0 {
        queues, Contents := queues - {net}, Contents - {net};
      } else {
        queues, Contents := queues[net := kept], Contents[net := View(kept)];
      }
      forall n | n in queues && n != net ensures Slot(n, queues[n]) {
        assert old(Slot(n, queues[n])) && queues[n].buf != buf;
      }
    }

    method PruneQueueMap(cutoff: int)
      requires Valid()
      modifies this`queues, this`Contents, Owner.Keys
      ensures Valid()
      ensures Contents == PruneQueues(old(Contents), cutoff)
    {
      var todo := queues.Keys;
      ghost var was := Contents;
      PruneExceptEnds(was, cutoff);
      while todo != {}
        invariant Valid() && Owner == old(Owner) && todo <= queues.Keys
        invariant Contents == PruneExcept(was, todo, cutoff)
        decreases todo
      {
        var net :| net in todo;
        PruneExceptStep(was, todo, net, cutoff);
        todo := todo - {net};
        PruneQueue(net, cutoff);
      }
    }

    method PruneMetaMap(cutoff: int)
      modifies this`metas
      ensures metas == PruneMetas(old(metas), cutoff)
    {
      var todo := metas.Keys;
      ghost var was := metas;
      while todo != {}
        invariant todo <= metas.Keys <= was.Keys
        invariant forall n :: n in todo ==> metas[n] == was[n]
        invariant forall n :: n in was && n !in todo ==> (n in metas <==> LiveMeta(was[n], cutoff) != map[])
        invariant forall n :: n in metas && n !in todo ==> metas[n] == LiveMeta(was[n], cutoff)
        decreases todo
      {
        var net :| net in todo;
        todo := todo - {net};
        var live := PruneNames(metas[net], cutoff);
        metas := if live == map[] then metas - {net} else metas[net := live];
      }
    }

    static method PruneNames(m: map<string, Pending>, cutoff: int) returns (live: map<string, Pending>)
      ensures live == LiveMeta(m, cutoff)
    {
      live := m;
      var names := m.Keys;
      while names != {}
        invariant names <= live.Keys <= m.Keys
        invariant forall k :: k in live ==> live[k] == m[k]
        invariant forall k :: k in m && k !in names ==> (k in live <==> m[k].createdAt >= cutoff)
        decreases names
      {
        var name :| name in names;
        names := names - {name};
        if live[name].createdAt < cutoff {
          live := live - {name};
        }
      }
    }

    method Prune(maxAge: int, now: int)
      requires Valid()
      modifies this`queues, this`Contents, this`metas, Owner.Keys
      ensures Valid()
      ensures Contents == PruneQueues(old(Contents), now - maxAge)
      ensures metas == PruneMetas(old(metas), now - maxAge)
    {
      PruneQueueMap(now - maxAge);
      PruneMetaMap(now - maxAge);
    }

    /** Whichever critical section runs, the store takes exactly the value-level step. */
    method Perform(t: Timed)
      requires Valid()
      modifies this`queues, this`Contents, this`Owner, this`metas, Owner.Keys, nilBuf
      ensures Valid() && fresh(Owner.Keys - old(Owner.Keys))
      ensures State(Contents, metas) == Step(State(old(Contents), old(metas)), t)
    {
      hide PushQueues, PopQueues, PruneQueues, UpsertMeta, PruneMetas;
      match t.op
      case Push(net, name, hostname, forward) => Push(net, name, hostname, forward, t.now);
      case Pop(net) => var _, _, _ := Pop(net);
      case Upsert(net, name, hostname, _) => Upsert(net, name, hostname, t.now);
      case Prune(maxAge) => Prune(maxAge, t.now);
    }
  }

  /** Any sequence of critical sections, performed on a new store, ends where the value-level run ends. */
  method Replay(ts: seq<Timed>) returns (store: Store)
    ensures fresh(store) && store.Valid() && State(store.Contents, store.metas) == Run(ts)
  {
    store := new Store();
    for i := 0 to |ts|
      invariant fresh(store) && fresh(store.nilBuf) && fresh(store.Owner.Keys)
      invariant store.Valid() && State(store.Contents, store.metas) == Run(ts[..i])
    {
      assert ts[..i + 1][..i] == ts[..i];
      store.Perform(ts[i]);
    }
    assert ts[..|ts|] == ts;
  }
}
