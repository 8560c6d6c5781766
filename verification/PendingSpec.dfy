/**
 The pending-container FIFO queues and metadata map as values: what each critical
 section of the plugin does to them (pkg/plugin/plugin.go:211-327).
 */
module PendingSpec {
  import opened Seqs

  /** One queued container; `createdAt` is a reading of the nondecreasing clock. */
  datatype Pending = Pending(name: string, hostname: string, createdAt: int, forward: bool)

  type Queues = map<string, seq<Pending>>
  type Metas = map<string, map<string, Pending>>

  datatype State = State(queues: Queues, metas: Metas)

  const EMPTY := State(map[], map[])

  /** A missing key reads as the empty queue, as a Go map of slices does. */
  function QueueOf(q: Queues, net: string): (r: seq<Pending>) {
    if net in q then q[net] else []
  }

  function IsForward(): (r: Pending -> bool) { (p: Pending) => p.forward }

  function NotNamed(name: string): (r: Pending -> bool) { (p: Pending) => p.name != name }

  function FreshAt(cutoff: int): (r: Pending -> bool) { (p: Pending) => p.createdAt >= cutoff }

  /** The queue after the forward flush that precedes a push. */
  function Flushed(q: seq<Pending>, forward: bool): (r: seq<Pending>) {
    if forward then Filter(q, IsForward()) else q
  }

  function PushQueue(q: seq<Pending>, p: Pending): (r: seq<Pending>) {
    Filter(Flushed(q, p.forward), NotNamed(p.name)) + [p]
  }

  function PushQueues(q: Queues, net: string, p: Pending): (r: Queues) {
    q[net := PushQueue(QueueOf(q, net), p)]
  }

  /** Popping leaves the (possibly empty) tail under the same key; an empty queue is left alone. */
  function PopQueues(q: Queues, net: string): (r: Queues) {
    if QueueOf(q, net) == [] then q else q[net := q[net][1..]]
  }

  function PruneQueues(q: Queues, cutoff: int): (r: Queues) {
    map net | net in q && Filter(q[net], FreshAt(cutoff)) != [] :: Filter(q[net], FreshAt(cutoff))
  }

  function UpsertMeta(m: Metas, net: string, name: string, hostname: string, now: int): (r: Metas) {
    var inner := if net in m then m[net] else map[];
    m[net := inner[name := Pending(name, hostname, now, false)]]
  }

  function LiveMeta(m: map<string, Pending>, cutoff: int): (r: map<string, Pending>) {
    map name | name in m && m[name].createdAt >= cutoff :: m[name]
  }

  function PruneMetas(m: Metas, cutoff: int): (r: Metas) {
    map net | net in m && LiveMeta(m[net], cutoff) != map[] :: LiveMeta(m[net], cutoff)
  }

  /** The critical sections. `closes` marks the upsert that ends a registration begun by a Push. */
  datatype Op =
    | Push(net: string, name: string, hostname: string, forward: bool)
    | Pop(net: string)
    | Upsert(net: string, name: string, hostname: string, closes: bool)
    | Prune(maxAge: int)

  /** A critical section together with the clock reading taken under the lock. */
  datatype Timed = Timed(op: Op, now: int)

  function Step(s: State, t: Timed): (r: State) {
    match t.op
    case Push(net, name, hostname, forward) =>
      s.(queues := PushQueues(s.queues, net, Pending(name, hostname, t.now, forward)))
    case Pop(net) => s.(queues := PopQueues(s.queues, net))
    case Upsert(net, name, hostname, _) => s.(metas := UpsertMeta(s.metas, net, name, hostname, t.now))
    case Prune(maxAge) => State(PruneQueues(s.queues, t.now - maxAge), PruneMetas(s.metas, t.now - maxAge))
  }

  function Run(ts: seq<Timed>): (r: State) {
    if ts == [] then EMPTY else Step(Run(ts[..|ts| - 1]), ts[|ts| - 1])
  }

  /** The clock never runs backwards. */
  ghost predicate Monotone(ts: seq<Timed>) {
    forall i, j :: 0 <= i < j < |ts| ==> ts[i].now <= ts[j].now
  }
}
