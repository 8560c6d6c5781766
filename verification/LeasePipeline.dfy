/**
 One DHCP probe: the scanner goroutine feeding a one-slot channel, the reader goroutine draining it,
 and GetIP reaping the process (pkg/udhcpc/client.go:115-174, pkg/udhcpc/client.go:201-248).
 */
module LeasePipeline {
  import opened Wrappers

  datatype Info = Info(ip: string, gateway: string, domain: string)

  datatype Event = Event(kind: string, data: Info)

  predicate IsLease(e: Event) { e.kind == "bound" || e.kind == "renew" }

  /** The data of the last bound or renew event. */
  function LastLease(es: seq<Event>): (r: Option<Info>) {
    if es == [] then None
    else if IsLease(es[|es| - 1]) then Some(es[|es| - 1].data)
    else LastLease(es[..|es| - 1])
  }

  ghost predicate LastLeaseAt(es: seq<Event>, i: int) {
    0 <= i < |es| && IsLease(es[i]) && forall j :: i < j < |es| ==> !IsLease(es[j])
  }

  /** The reader's loop over the channel, given all that arrives on it. */
  method Read(events: seq<Event>) returns (info: Option<Info>)
    ensures info.None? <==> forall i :: 0 <= i < |events| ==> !IsLease(events[i])
    ensures info.Some? ==> exists i :: LastLeaseAt(events, i) && events[i].data == info.value
    ensures info == LastLease(events)
  {
    info := None;
    ghost var at := -1;
    for i := 0 to |events|
      invariant info == LastLease(events[..i])
      invariant -1 <= at < i && (info.None? <==> at == -1)
      invariant at >= 0 ==> IsLease(events[at]) && Some(events[at].data) == info
      invariant forall j :: at < j < i ==> !IsLease(events[j])
    {
      assert events[..i + 1][..i] == events[..i];
      if IsLease(events[i]) {
        info := Some(events[i].data);
        at := i;
      }
    }
    assert events[..|events|] == events;
    assert at >= 0 ==> LastLeaseAt(events, at);
  }

  // ---------------------------------------------------------------- the interleaved pipeline

  /** A line of the process's output: an event, or text that does not decode. */
  datatype Line = Undecodable | Line(event: Event)

  datatype Reap = Waiting | Exited | Failed

  datatype Answer = Pending | Lease(info: Info) | NoLease | ReapError

  /**
   `rest` is what the scanner may still read, `held` the event it is about to send, `slot` the channel's one
   buffered event; `decoded` logs the scanner's events and `received` the reader's.
   */
  datatype State = State(rest: seq<Line>, held: Option<Event>, slot: Option<Event>, closed: bool,
                         info: Option<Info>, readerDone: bool, reap: Reap, answer: Answer,
                         decoded: seq<Event>, received: seq<Event>)

  datatype Step = Scan | CutOff | Send | Close | Receive | SeeClosed | ReapReturns(ok: bool) | Answered

  function Begin(output: seq<Line>): (r: State) {
    State(output, None, None, false, None, false, Waiting, Pending, [], [])
  }

  /** `CutOff` is the pipe being closed under the scanner, which then reads no more. */
  predicate Enabled(s: State, e: Step) {
    match e
    case Scan => !s.closed && s.held.None? && s.rest != []
    case CutOff => s.rest != []
    case Send => s.held.Some? && s.slot.None?
    case Close => !s.closed && s.held.None? && s.rest == []
    case Receive => s.slot.Some? && !s.readerDone
    case SeeClosed => s.slot.None? && s.closed && !s.readerDone
    case ReapReturns(_) => s.reap.Waiting?
    case Answered => !s.reap.Waiting? && s.readerDone && s.answer.Pending?
  }

  function Take(s: State, e: Step): (r: State)
    requires Enabled(s, e)
  {
    match e
    case Scan =>
      if s.rest[0].Undecodable? then s.(rest := s.rest[1..])
      else s.(rest := s.rest[1..], held := Some(s.rest[0].event), decoded := s.decoded + [s.rest[0].event])
    case CutOff => s.(rest := [])
    case Send => s.(slot := s.held, held := None)
    case Close => s.(closed := true)
    case Receive =>
      s.(slot := None, received := s.received + [s.slot.value],
         info := if IsLease(s.slot.value) then Some(s.slot.value.data) else s.info)
    case SeeClosed => s.(readerDone := true)
    case ReapReturns(ok) => s.(reap := if ok then Exited else Failed)
    case Answered =>
      s.(answer := if s.reap.Failed? then ReapError else if s.info.None? then NoLease else Lease(s.info.value))
  }

  /** A step that is not enabled does not happen. */
  function Run(output: seq<Line>, es: seq<Step>): (r: State) {
    if es == [] then Begin(output)
    else
      var p := Run(output, es[..|es| - 1]);
      if Enabled(p, es[|es| - 1]) then Take(p, es[|es| - 1]) else p
  }

  function InFlight(s: State): (r: seq<Event>) {
    (if s.slot.Some? then [s.slot.value] else []) + (if s.held.Some? then [s.held.value] else [])
  }

  /** Nothing decoded is lost: it has been received, in order, or is in the slot or in the scanner's hand. */
  predicate Lossless(s: State) {
    && s.decoded == s.received + InFlight(s)
    && s.info == LastLease(s.received)
    && (s.closed ==> s.held.None? && s.rest == [])
    && (s.readerDone ==> s.closed && s.slot.None?)
    && (!s.answer.Pending? ==> s.readerDone && !s.reap.Waiting?)
    && (!s.answer.Pending? ==>
          s.answer == if s.reap.Failed? then ReapError
                      else match LastLease(s.decoded) case None => NoLease case Some(info) => Lease(info))
  }

  lemma {:induction false} TakeLossless(s: State, e: Step)
    requires Lossless(s) && Enabled(s, e)
    ensures Lossless(Take(s, e))
  {
    match e
    case Scan =>
    case CutOff =>
    case Send =>
    case Close =>
    case Receive => assert (s.received + [s.slot.value])[..|s.received|] == s.received;
    case SeeClosed =>
    case ReapReturns(_) =>
    case Answered => assert s.received + [] == s.received;
  }

  lemma {:induction false} RunLossless(output: seq<Line>, es: seq<Step>)
    ensures Lossless(Run(output, es))
  {
    if es != [] {
      RunLossless(output, es[..|es| - 1]);
      var p := Run(output, es[..|es| - 1]);
      if Enabled(p, es[|es| - 1]) {
        TakeLossless(p, es[|es| - 1]);
      }
    }
  }

  /**
   When Reap succeeds, GetIP answers with the data of the last decoded bound or renew event, and with
   "no lease" exactly when none was decoded - in every interleaving.
   */
  lemma AnswerIsLastLease(output: seq<Line>, es: seq<Step>)
    requires var s := Run(output, es); !s.answer.Pending? && s.reap.Exited?
    ensures var s := Run(output, es);
            && (s.answer.NoLease? <==> forall i :: 0 <= i < |s.decoded| ==> !IsLease(s.decoded[i]))
            && (s.answer.Lease? <==> LastLease(s.decoded).Some?)
            && (s.answer.Lease? ==> Some(s.answer.info) == LastLease(s.decoded))
            && s.received == s.decoded
  {
    var s := Run(output, es);
    RunLossless(output, es);
    NoLeaseMeansNone(s.decoded);
    assert s.received + [] == s.received;
  }

  // ---------------------------------------------------------------- from the process's output to the answer

  /** The events of the lines that decode, in order. */
  function Events(lines: seq<Line>): (r: seq<Event>) {
    if lines == [] then []
    else
      var last := lines[|lines| - 1];
      Events(lines[..|lines| - 1]) + if last.Line? then [last.event] else []
  }

  /** Some step closed the pipe under the scanner. */
  ghost predicate CutShort(output: seq<Line>, es: seq<Step>) {
    exists i :: 0 <= i < |es| && es[i].CutOff? && Enabled(Run(output, es[..i]), CutOff)
  }

  lemma EventsNext(lines: seq<Line>, k: nat)
    requires k < |lines|
    ensures Events(lines[..k + 1]) == Events(lines[..k]) + if lines[k].Line? then [lines[k].event] else []
  {
    assert lines[..k + 1][..k] == lines[..k];
  }

  lemma ScanNext(output: seq<Line>, s: State, e: Step, k: nat) returns (m: nat)
    requires k <= |output| && s.decoded == Events(output[..k]) && (s.rest == output[k..] || s.rest == [])
    requires Enabled(s, e)
    ensures m <= |output| && Take(s, e).decoded == Events(output[..m])
    ensures Take(s, e).rest == output[m..] || Take(s, e).rest == []
    ensures s.rest == output[k..] && !e.CutOff? ==> Take(s, e).rest == output[m..]
  {
    hide Events;
    m := k;
    if e.Scan? {
      EventsNext(output, k);
      m := k + 1;
      assert output[k..][1..] == output[k + 1..] && output[k..][0] == output[k];
    }
  }

  /** The scanner has decoded exactly the decodable lines of what it has read; the rest of the output is left. */
  lemma {:induction false} ScannedInOrder(output: seq<Line>, es: seq<Step>) returns (k: nat)
    ensures var s := Run(output, es);
            && k <= |output| && s.decoded == Events(output[..k])
            && (s.rest == output[k..] || s.rest == [])
            && (!CutShort(output, es) ==> s.rest == output[k..])
  {
    hide Enabled, Take, Events;
    if es == [] {
      k := 0;
      NoEvents();
      assert output[0..] == output && output[..0] == [];
    } else {
      var n := |es| - 1;
      var p := Run(output, es[..n]);
      k := ScannedInOrder(output, es[..n]);
      assert forall i :: 0 <= i < n ==> es[..n][..i] == es[..i] && es[..n][i] == es[i];
      if Enabled(p, es[n]) {
        k := ScanNext(output, p, es[n], k);
      }
    }
  }

  lemma NoEvents()
    ensures Events([]) == []
  {
  }

  /** Line `i` is a bound or renew event, and no later line is. */
  ghost predicate LastLeaseLine(output: seq<Line>, i: int) {
    && 0 <= i < |output| && output[i].Line? && output[i].event.kind in {"bound", "renew"}
    && forall j :: i < j < |output| ==> !(output[j].Line? && output[j].event.kind in {"bound", "renew"})
  }

  lemma LastLeaseMore(es: seq<Event>, e: Event)
    ensures LastLease(es + [e]) == if e.kind in {"bound", "renew"} then Some(e.data) else LastLease(es)
  {
    assert (es + [e])[..|es|] == es;
  }

  lemma LastLineMore(lines: seq<Line>, i: int)
    requires lines != []
    ensures var n := |lines| - 1;
            LastLeaseLine(lines, i) <==>
              if lines[n].Line? && lines[n].event.kind in {"bound", "renew"} then i == n
              else LastLeaseLine(lines[..n], i)
  {
    assert forall j :: 0 <= j < |lines| - 1 ==> lines[..|lines| - 1][j] == lines[j];
  }

  lemma {:induction false} LastLeaseOfLines(lines: seq<Line>)
    ensures LastLease(Events(lines)).None? <==> forall i :: !LastLeaseLine(lines, i)
    ensures forall i :: LastLeaseLine(lines, i) ==>
              0 <= i < |lines| && lines[i].Line? && LastLease(Events(lines)) == Some(lines[i].event.data)
  {
    hide LastLease, LastLeaseLine, Events;
    if lines == [] {
      NoLines();
    } else {
      var n := |lines| - 1;
      LastLeaseOfLines(lines[..n]);
      EventsNext(lines, n);
      assert lines[..n + 1] == lines && forall i :: 0 <= i < n ==> lines[..n][i] == lines[i];
      if lines[n].Line? {
        LastLeaseMore(Events(lines[..n]), lines[n].event);
      } else {
        assert Events(lines[..n]) + [] == Events(lines[..n]);
      }
      forall i ensures LastLeaseLine(lines, i) <==>
                         if lines[n].Line? && lines[n].event.kind in {"bound", "renew"} then i == n
                         else LastLeaseLine(lines[..n], i)
      {
        LastLineMore(lines, i);
      }
      assert lines[n].Line? && lines[n].event.kind in {"bound", "renew"} ==> LastLeaseLine(lines, n);
    }
  }

  lemma NoLines()
    ensures LastLease(Events([])).None? && forall i :: !LastLeaseLine([], i)
  {
  }

  /** The process is reaped once, with this outcome. */
  ghost predicate Reaped(es: seq<Step>, ok: bool) {
    exists i :: 0 <= i < |es| && es[i] == ReapReturns(ok) && forall j :: 0 <= j < i ==> !es[j].ReapReturns?
  }

  lemma ReapMoves(s: State, e: Step)
    requires Enabled(s, e)
    ensures Take(s, e).reap == if e.ReapReturns? then (if e.ok then Exited else Failed) else s.reap
  {
  }

  /** What Reap has returned is its first outcome; GetIP answers with an error exactly when that is one. */
  lemma {:induction false} ReapedIff(output: seq<Line>, es: seq<Step>)
    ensures var s := Run(output, es);
            && (s.reap.Exited? <==> Reaped(es, true)) && (s.reap.Failed? <==> Reaped(es, false))
            && (s.reap.Waiting? <==> forall i :: 0 <= i < |es| ==> !es[i].ReapReturns?)
            && (!s.answer.Pending? ==> (s.answer == ReapError <==> Reaped(es, false)))
  {
    hide Take, LastLease;
    RunLossless(output, es);
    if es != [] {
      var n := |es| - 1;
      ReapedIff(output, es[..n]);
      assert forall i :: 0 <= i < n ==> es[..n][i] == es[i];
      var p := Run(output, es[..n]);
      if Enabled(p, es[n]) {
        ReapMoves(p, es[n]);
      }
      forall ok ensures Reaped(es, ok) <==> Reaped(es[..n], ok) || (es[n] == ReapReturns(ok) && p.reap.Waiting?) {
        if Reaped(es[..n], ok) {
          var i :| 0 <= i < n && es[..n][i] == ReapReturns(ok) && forall j :: 0 <= j < i ==> !es[..n][j].ReapReturns?;
          assert es[i] == ReapReturns(ok);
        }
      }
    }
  }

  /**
   From output to answer: in a run that ends with a successful Reap and whose pipe was not closed early, GetIP
   answers the data of the last bound or renew line of the process's output, and "no lease" exactly when the
   output has none.
   */
  lemma {:induction false} AnswerForOutput(output: seq<Line>, es: seq<Step>)
    requires !Run(output, es).answer.Pending? && Reaped(es, true)
    requires !CutShort(output, es)
    ensures var s := Run(output, es);
            && (s.answer == NoLease <==> forall i :: !LastLeaseLine(output, i))
            && (forall i :: LastLeaseLine(output, i) ==> s.answer == Lease(output[i].event.data))
  {
    hide Run, CutShort, Events, LastLease, LastLeaseLine, Reaped;
    ReapedIff(output, es);
    var k := ScannedInOrder(output, es);
    RunLossless(output, es);
    AnswerIsLastLease(output, es);
    LastLeaseOfLines(output);
    assert output[k..] == [] && output[..k] == output;
  }

  lemma {:induction false} NoLeaseMeansNone(es: seq<Event>)
    ensures LastLease(es).None? <==> forall i :: 0 <= i < |es| ==> !IsLease(es[i])
  {
    if es != [] && !IsLease(es[|es| - 1]) {
      NoLeaseMeansNone(es[..|es| - 1]);
      assert forall i :: 0 <= i < |es| - 1 ==> es[..|es| - 1][i] == es[i];
    }
  }

  // ---------------------------------------------------------------- progress

  /** Until GetIP has answered, some goroutine can take a step. */
  lemma NeverStuck(output: seq<Line>, es: seq<Step>) returns (e: Step)
    requires Run(output, es).answer.Pending?
    ensures Enabled(Run(output, es), e) && !e.CutOff?
    ensures Run(output, es).held.Some? ==> e.Send? || (e.Receive? && Enabled(Take(Run(output, es), e), Send))
  {
    var s := Run(output, es);
    RunLossless(output, es);
    if s.slot.Some? {
      e := Receive;
    } else if s.held.Some? {
      e := Send;
    } else if !s.closed {
      e := if s.rest == [] then Close else Scan;
    } else if !s.readerDone {
      e := SeeClosed;
    } else if s.reap.Waiting? {
      e := ReapReturns(true);
    } else {
      e := Answered;
    }
  }

  /**
   The scanner waits only for room to send what it holds, the reader only for an event or for the end, and GetIP only
   for the reader and for the process.
   */
  lemma WaitsFor(output: seq<Line>, es: seq<Step>)
    ensures var s := Run(output, es);
            && (Enabled(s, Scan) || Enabled(s, Send) || Enabled(s, Close) <==>
                  !s.closed && (s.held.None? || s.slot.None?))
            && (Enabled(s, Receive) || Enabled(s, SeeClosed) <==> !s.readerDone && (s.slot.Some? || s.closed))
            && (forall ok :: Enabled(s, ReapReturns(ok)) <==> s.reap.Waiting?)
            && (Enabled(s, Answered) <==> s.answer.Pending? && s.readerDone && !s.reap.Waiting?)
  {
    hide Take, Run, LastLease;
    RunLossless(output, es);
  }

  /** Work left: every step taken uses some up. */
  function Work(s: State): (r: nat) {
    3 * |s.rest| + (if s.held.Some? then 2 else 0) + (if s.slot.Some? then 1 else 0)
    + (if s.closed then 0 else 1) + (if s.readerDone then 0 else 1)
    + (if s.reap.Waiting? then 1 else 0) + (if s.answer.Pending? then 1 else 0)
  }

  lemma TakeUsesWork(s: State, e: Step)
    requires Enabled(s, e)
    ensures Work(Take(s, e)) < Work(s)
  {
  }

  function Taken(output: seq<Line>, es: seq<Step>): (r: nat) {
    if es == [] then 0
    else Taken(output, es[..|es| - 1]) + if Enabled(Run(output, es[..|es| - 1]), es[|es| - 1]) then 1 else 0
  }

  /** For n lines of output no run takes more than 3n + 4 steps, so each ends with an answer if it keeps going. */
  lemma {:induction false} BoundedSteps(output: seq<Line>, es: seq<Step>)
    ensures Taken(output, es) + Work(Run(output, es)) <= 3 * |output| + 4
  {
    hide Take, Enabled;
    if es != [] {
      BoundedSteps(output, es[..|es| - 1]);
      var p := Run(output, es[..|es| - 1]);
      if Enabled(p, es[|es| - 1]) {
        TakeUsesWork(p, es[|es| - 1]);
      }
    }
  }
}
