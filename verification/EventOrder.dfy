/** Order and loss on the queues of EventBus: of each queue, what was received, and what it still
    holds, is what was sent to it, in order, without what was evicted; and each drainer dispatches
    what it received, once and in that order. */
module EventOrder {
  import opened Wrappers
  import opened EventBus

  // ── What a step does to one queue ──────────────────────────────────

  predicate HasRoom(s: Sys, q: nat) { q in s.bus.queues && |s.bus.queues[q]| < DEPTH }

  /** What is sent to queue `q` by a step: the event of a publisher at that target, on its first
      attempt or after it evicted, or the wake of an unsubscribe or of a drainer that leaves a
      dying slot to others. A full queue takes nothing. */
  function SentNow(s: Sys, e: Event, q: nat): seq<Msg>
    requires |s.bus.slots| == SLOTS && Enabled(s, e)
  {
    if !HasRoom(s, q) then []
    else
      match e
      case PublishOp(tid, skip) =>
        var a := s.acts[tid];
        if a.targets[a.at].q == q && ((a.step == First && !skip) || a.step == Again) then [Real(a.e)] else []
      case Unsubscribe(i, gen) =>
        var t := s.bus.slots[i];
        if t.alive && t.gen == gen && t.queue == Some(q) && t.inflight != 0 then [Poison] else []
      case DrainEnd(tid) =>
        var t := s.bus.slots[s.acts[tid].i];
        if !t.alive && t.queue == Some(q) && Dec(t.inflight) != 0 then [Poison] else []
      case _ => []
  }

  /** What a step takes off queue `q` for a drainer: the message the drainer then holds. */
  function ReceivedNow(s: Sys, e: Event, z: Sys, q: nat): seq<Msg>
    requires Enabled(s, e)
  {
    match e
    case DrainReceive(tid) =>
      if s.acts[tid].q == q && tid in z.acts && z.acts[tid].Drainer? && z.acts[tid].phase.Got? then [z.acts[tid].phase.m] else []
    case _ => []
  }

  /** A publisher that found queue `q` full evicts from it. */
  predicate EvictsNow(s: Sys, e: Event, q: nat)
    requires Enabled(s, e)
  {
    match e
    case PublishOp(tid, _) =>
      var a := s.acts[tid];
      a.step == Evict && a.targets[a.at].q == q && q in s.bus.queues && s.bus.queues[q] != []
    case _ => false
  }

  /** The oldest message goes and the rest stays as it was, or nothing goes; what is sent joins at
      the end. */
  ghost predicate QueueMoves(s: Sys, e: Event, z: Sys, q: nat)
    requires |s.bus.slots| == SLOTS && Enabled(s, e) && q in s.bus.queues && q in z.bus.queues
  {
    var was, now := s.bus.queues[q], z.bus.queues[q];
    var got, sent := ReceivedNow(s, e, z, q), SentNow(s, e, q);
    if EvictsNow(s, e, q) then got == [] && sent == [] && was != [] && now == was[1..]
    else got + now == was + sent
  }

  lemma ReapKeepsQueue(b: Bus, q: nat)
    ensures q in Reap(b).queues ==> q in b.queues && Reap(b).queues[q] == b.queues[q]
  {
  }

  lemma PublishQueue(s: Sys, tid: nat, skip: bool, z: Sys, q: nat)
    requires Inv(s) && Enabled(s, PublishOp(tid, skip)) && z == PublishOpStep(s, tid, skip) && q in s.bus.queues
    ensures q in z.bus.queues && QueueMoves(s, PublishOp(tid, skip), z, q)
  {
    var a := s.acts[tid];
    assert ActOk(s, a);
  }

  lemma ReceiveQueue(s: Sys, tid: nat, z: Sys, q: nat)
    requires Inv(s) && Enabled(s, DrainReceive(tid)) && z == Step(s, DrainReceive(tid)) && q in s.bus.queues
    ensures q in z.bus.queues && QueueMoves(s, DrainReceive(tid), z, q)
  {
    var was := s.bus.queues[q];
    if s.acts[tid].q == q { assert [was[0]] + was[1..] == was + []; }
  }

  lemma EndQueue(s: Sys, tid: nat, z: Sys, q: nat)
    requires Inv(s) && Enabled(s, DrainEnd(tid)) && z == Step(s, DrainEnd(tid)) && q in s.bus.queues && q in z.bus.queues
    ensures QueueMoves(s, DrainEnd(tid), z, q)
  {
    var a := s.acts[tid];
    assert ActOk(s, a);
    var t := s.bus.slots[a.i].(inflight := Dec(s.bus.slots[a.i].inflight));
    var b1 := s.bus.(slots := s.bus.slots[a.i := t]);
    ReapKeepsQueue(if Dying(t) && t.inflight > 0 then b1.(queues := Send(b1.queues, t.queue.value, Poison)) else b1, q);
  }

  lemma UnsubscribeQueue(s: Sys, i: nat, gen: nat, z: Sys, q: nat)
    requires Inv(s) && Enabled(s, Unsubscribe(i, gen)) && z == Step(s, Unsubscribe(i, gen)) && q in s.bus.queues && q in z.bus.queues
    ensures QueueMoves(s, Unsubscribe(i, gen), z, q)
  {
  }

  lemma SubscribeQueue(s: Sys, t: nat, alloc: bool, z: Sys, q: nat)
    requires Inv(s) && Enabled(s, Subscribe(t, alloc)) && z == Step(s, Subscribe(t, alloc)) && q in z.bus.queues
    ensures q in s.bus.queues ==> QueueMoves(s, Subscribe(t, alloc), z, q)
    ensures q !in s.bus.queues ==> q == s.bus.nextQ && z.bus.queues[q] == []
  {
    ReapKeepsQueue(s.bus, q);
  }

  lemma ReleaseQueue(s: Sys, tid: nat, z: Sys, q: nat)
    requires Inv(s) && Enabled(s, PublishEnd(tid)) && z == Step(s, PublishEnd(tid)) && q in z.bus.queues
    ensures q in s.bus.queues && QueueMoves(s, PublishEnd(tid), z, q)
  {
    ReapKeepsQueue(s.bus.(slots := UnpinSlots(s.bus.slots, s.acts[tid].targets)), q);
  }

  predicate Local(e: Event) {
    e.PublishBegin? || e.DrainBegin? || e.DrainTimeout? || e.DrainCheck? || e.DrainHandled?
  }

  lemma LocalQueue(s: Sys, e: Event, z: Sys, q: nat)
    requires Inv(s) && Enabled(s, e) && z == Step(s, e) && Local(e)
    ensures z.bus.queues == s.bus.queues && z.bus.nextQ == s.bus.nextQ && (q in s.bus.queues ==> QueueMoves(s, e, z, q))
  {
  }

  /** Every step, of any task: a queue that exists before and after moves by the head and the tail
      only, and one that is created is a new one, and empty. */
  lemma StepMoves(s: Sys, e: Event, z: Sys, q: nat)
    requires Inv(s) && Enabled(s, e) && z == Step(s, e) && q in z.bus.queues
    ensures q in s.bus.queues ==> QueueMoves(s, e, z, q)
    ensures q !in s.bus.queues ==> q == s.bus.nextQ && z.bus.queues[q] == []
  {
    if Local(e) {
      LocalQueue(s, e, z, q);
    } else {
      match e
      case Subscribe(t, alloc) => SubscribeQueue(s, t, alloc, z, q);
      case Unsubscribe(i, gen) => UnsubscribeOld(s, i, gen, z, q);
      case PublishOp(tid, skip) => PublishOld(s, tid, skip, z, q);
      case PublishEnd(tid) => ReleaseQueue(s, tid, z, q);
      case DrainReceive(tid) => ReceiveQueue(s, tid, z, q);
      case DrainEnd(tid) => EndOld(s, tid, z, q);
    }
  }

  lemma UnsubscribeOld(s: Sys, i: nat, gen: nat, z: Sys, q: nat)
    requires Inv(s) && Enabled(s, Unsubscribe(i, gen)) && z == Step(s, Unsubscribe(i, gen)) && q in z.bus.queues
    ensures q in s.bus.queues && QueueMoves(s, Unsubscribe(i, gen), z, q)
  {
    UnsubscribeQueue(s, i, gen, z, q);
  }

  lemma PublishOld(s: Sys, tid: nat, skip: bool, z: Sys, q: nat)
    requires Inv(s) && Enabled(s, PublishOp(tid, skip)) && z == Step(s, PublishOp(tid, skip)) && q in z.bus.queues
    ensures q in s.bus.queues && QueueMoves(s, PublishOp(tid, skip), z, q)
  {
    PublishQueue(s, tid, skip, z, q);
  }

  lemma EndOld(s: Sys, tid: nat, z: Sys, q: nat)
    requires Inv(s) && Enabled(s, DrainEnd(tid)) && z == Step(s, DrainEnd(tid)) && q in z.bus.queues
    ensures q in s.bus.queues && QueueMoves(s, DrainEnd(tid), z, q)
  {
    EndQueue(s, tid, z, q);
  }

  /** A queue from which something is taken stays, and a queue number is never used again. */
  lemma QueueStays(s: Sys, e: Event, z: Sys, q: nat)
    requires Inv(s) && Enabled(s, e) && z == Step(s, e)
    ensures q in s.bus.queues && (ReceivedNow(s, e, z, q) != [] || EvictsNow(s, e, q)) ==> q in z.bus.queues
    ensures q !in s.bus.queues ==> ReceivedNow(s, e, z, q) == [] && SentNow(s, e, q) == [] && !EvictsNow(s, e, q)
  {
    if q in s.bus.queues {
      if e.PublishOp? { PublishQueue(s, e.tid, e.skip, z, q); }
      if e.DrainReceive? { ReceiveQueue(s, e.tid, z, q); }
    }
  }

  lemma NumbersGrow(s: Sys, e: Event, z: Sys)
    requires Inv(s) && Enabled(s, e) && z == Step(s, e)
    ensures z.bus.nextQ >= s.bus.nextQ
  {
  }

  // ── Over whole runs ────────────────────────────────────────────────

  /** All that was sent to queue `q` in the first `n` steps of a run, in order. */
  ghost function Sent(states: seq<Sys>, h: seq<Event>, q: nat, n: nat): seq<Msg>
    requires IsRun(states, h) && n <= |h|
  {
    if n == 0 then [] else Sent(states, h, q, n - 1) + SentNow(states[n - 1], h[n - 1], q)
  }

  /** All that drainers received from it, in order. */
  ghost function Received(states: seq<Sys>, h: seq<Event>, q: nat, n: nat): seq<Msg>
    requires IsRun(states, h) && n <= |h|
  {
    if n == 0 then [] else Received(states, h, q, n - 1) + ReceivedNow(states[n - 1], h[n - 1], states[n], q)
  }

  /** Of the messages that left it, in order: whether each was evicted. */
  ghost function Evictions(states: seq<Sys>, h: seq<Event>, q: nat, n: nat): seq<bool>
    requires IsRun(states, h) && n <= |h|
  {
    if n == 0 then []
    else
      Evictions(states, h, q, n - 1)
      + (if EvictsNow(states[n - 1], h[n - 1], q) then [true]
         else if ReceivedNow(states[n - 1], h[n - 1], states[n], q) != [] then [false] else [])
  }

  /** What is left of `ms` without those marked out. */
  function Kept(ms: seq<Msg>, out: seq<bool>): seq<Msg>
    decreases |ms|
  {
    if ms == [] then []
    else
      var n := |ms| - 1;
      Kept(ms[..n], out) + (if n < |out| && out[n] then [] else [ms[n]])
  }

  lemma {:induction false} KeptRest(a: seq<Msg>, b: seq<Msg>, out: seq<bool>)
    requires |out| <= |a|
    ensures Kept(a + b, out) == Kept(a, out) + b
    decreases |b|
  {
    if b == [] {
      assert a + b == a;
    } else {
      var n := |b| - 1;
      assert (a + b)[..|a + b| - 1] == a + b[..n];
      KeptRest(a, b[..n], out);
      assert (Kept(a, out) + b[..n]) + [b[n]] == Kept(a, out) + b;
    }
  }

  lemma {:induction false} KeptMore(ms: seq<Msg>, out: seq<bool>, more: seq<bool>)
    requires |ms| <= |out|
    ensures Kept(ms, out + more) == Kept(ms, out)
    decreases |ms|
  {
    if ms != [] { KeptMore(ms[..|ms| - 1], out, more); }
  }

  lemma KeptOne(a: seq<Msg>, m: Msg, out: seq<bool>, evicted: bool)
    requires |out| == |a|
    ensures Kept(a + [m], out + [evicted]) == Kept(a, out) + if evicted then [] else [m]
  {
    assert (a + [m])[..|a|] == a;
    KeptMore(a, out, [evicted]);
  }

  lemma KeptNext(sent: seq<Msg>, out: seq<bool>, evicted: bool, front: seq<Msg>, next: seq<Msg>)
    requires |out| < |sent| && front == sent[..|out|] && next == sent[..|out| + 1]
    ensures Kept(next, out + [evicted]) == Kept(front, out) + if evicted then [] else [sent[|out|]]
  {
    assert next == front + [sent[|out|]];
    KeptOne(front, sent[|out|], out, evicted);
  }

  // A queue's history: what left it is the front of what was sent.
  predicate History(sent: seq<Msg>, got: seq<Msg>, out: seq<bool>) {
    |out| <= |sent| && got == Kept(sent[..|out|], out)
  }

  predicate Holds(sent: seq<Msg>, out: seq<bool>, held: seq<Msg>) {
    |out| <= |sent| && held == sent[|out|..]
  }

  lemma HistorySends(sent: seq<Msg>, got: seq<Msg>, out: seq<bool>, held: seq<Msg>, more: seq<Msg>)
    requires History(sent, got, out)
    ensures History(sent + more, got, out)
    ensures Holds(sent, out, held) ==> Holds(sent + more, out, held + more)
  {
    assert (sent + more)[..|out|] == sent[..|out|];
  }

  lemma HistoryTakes(sent: seq<Msg>, got: seq<Msg>, out: seq<bool>, held: seq<Msg>, evicted: bool)
    requires History(sent, got, out) && Holds(sent, out, held) && held != []
    ensures History(sent, got + (if evicted then [] else [held[0]]), out + [evicted])
    ensures Holds(sent, out + [evicted], held[1..])
  {
    KeptNext(sent, out, evicted, sent[..|out|], sent[..|out| + 1]);
    assert held[0] == sent[|out|];
    assert got + [] == got;
  }

  lemma HistoryStep(s: Sys, e: Event, z: Sys, q: nat, sent: seq<Msg>, got: seq<Msg>, out: seq<bool>)
    requires Inv(s) && Enabled(s, e) && z == Step(s, e) && q in s.bus.queues && q in z.bus.queues
    requires History(sent, got, out) && Holds(sent, out, s.bus.queues[q])
    ensures var sent2, got2 := sent + SentNow(s, e, q), got + ReceivedNow(s, e, z, q);
            var out2 := out + (if EvictsNow(s, e, q) then [true] else if ReceivedNow(s, e, z, q) != [] then [false] else []);
            History(sent2, got2, out2) && Holds(sent2, out2, z.bus.queues[q])
  {
    var was, now := s.bus.queues[q], z.bus.queues[q];
    var more, m := SentNow(s, e, q), ReceivedNow(s, e, z, q);
    StepMoves(s, e, z, q);
    if EvictsNow(s, e, q) {
      HistoryTakes(sent, got, out, was, true);
      assert sent + more == sent && got + m == got;
    } else if m != [] {
      NothingSent(s, e, z, q);
      assert m + now == was + [] == was;
      assert was[0] == m[0] && now == was[1..] && m == [was[0]];
      HistoryTakes(sent, got, out, was, false);
      assert sent + more == sent;
    } else {
      assert m + now == now && got + m == got && out + [] == out;
      HistorySends(sent, got, out, was, more);
    }
  }

  lemma NothingSent(s: Sys, e: Event, z: Sys, q: nat)
    requires |s.bus.slots| == SLOTS && Enabled(s, e) && ReceivedNow(s, e, z, q) != []
    ensures SentNow(s, e, q) == [] && |ReceivedNow(s, e, z, q)| == 1
  {
  }

  lemma {:induction false} QueueHistory(states: seq<Sys>, h: seq<Event>, q: nat, n: nat)
    requires IsRun(states, h) && n <= |h|
    ensures History(Sent(states, h, q, n), Received(states, h, q, n), Evictions(states, h, q, n))
    ensures q in states[n].bus.queues ==> Holds(Sent(states, h, q, n), Evictions(states, h, q, n), states[n].bus.queues[q])
    ensures q >= states[n].bus.nextQ ==> Sent(states, h, q, n) == [] && Evictions(states, h, q, n) == []
    decreases n
  {
    if n > 0 {
      var s, e, z := states[n - 1], h[n - 1], states[n];
      QueueHistory(states, h, q, n - 1);
      InvRun(states, h, n - 1);
      HistoryOn(s, e, z, q, Sent(states, h, q, n - 1), Received(states, h, q, n - 1), Evictions(states, h, q, n - 1));
    }
  }

  lemma HistoryOn(s: Sys, e: Event, z: Sys, q: nat, sent: seq<Msg>, got: seq<Msg>, out: seq<bool>)
    requires Inv(s) && Enabled(s, e) && z == Step(s, e) && History(sent, got, out)
    requires q in s.bus.queues ==> Holds(sent, out, s.bus.queues[q])
    requires q >= s.bus.nextQ ==> sent == [] && out == []
    ensures var sent2, got2 := sent + SentNow(s, e, q), got + ReceivedNow(s, e, z, q);
            var out2 := out + (if EvictsNow(s, e, q) then [true] else if ReceivedNow(s, e, z, q) != [] then [false] else []);
            && History(sent2, got2, out2)
            && (q in z.bus.queues ==> Holds(sent2, out2, z.bus.queues[q]))
            && (q >= z.bus.nextQ ==> sent2 == [] && out2 == [])
  {
    QueueStays(s, e, z, q);
    NumbersGrow(s, e, z);
    if q in s.bus.queues && q in z.bus.queues {
      HistoryStep(s, e, z, q, sent, got, out);
      NewNumber(s, e, z, q);
    } else if q in s.bus.queues {
      NewNumber(s, e, z, q);
      HistorySends(sent, got, out, [], SentNow(s, e, q));
      assert got + [] == got && out + [] == out;
    } else {
      assert sent + [] == sent && got + [] == got && out + [] == out;
      if q in z.bus.queues { StepMoves(s, e, z, q); }
    }
  }

  lemma NewNumber(s: Sys, e: Event, z: Sys, q: nat)
    requires Inv(s) && Enabled(s, e) && z == Step(s, e) && q in s.bus.queues
    ensures q < s.bus.nextQ <= z.bus.nextQ
  {
    NumbersGrow(s, e, z);
  }

  /** In every run and for every queue: what was received from it, in order, and then what it still
      holds, is what was sent to it, in order, without what was evicted. So every event that was
      sent and not evicted is received at most once, and in the order of sending. */
  lemma ReceivedInOrder(states: seq<Sys>, h: seq<Event>, q: nat, n: nat)
    requires IsRun(states, h) && n <= |h|
    ensures var kept := Kept(Sent(states, h, q, n), Evictions(states, h, q, n));
            && Received(states, h, q, n) <= kept
            && (q in states[n].bus.queues ==> Received(states, h, q, n) + states[n].bus.queues[q] == kept)
  {
    QueueHistory(states, h, q, n);
    KeptAll(Sent(states, h, q, n), Received(states, h, q, n), Evictions(states, h, q, n));
  }

  lemma KeptAll(sent: seq<Msg>, got: seq<Msg>, out: seq<bool>)
    requires History(sent, got, out)
    ensures Kept(sent, out) == got + sent[|out|..]
  {
    assert sent == sent[..|out|] + sent[|out|..];
    KeptRest(sent[..|out|], sent[|out|..], out);
  }

  // ── A publisher and its targets ────────────────────────────────────

  /** One step of a publisher at a target: the event is sent once if there is room, and it moves
      on; else the oldest event goes, and it tries once more and moves on either way. */
  lemma OfferedOnce(s: Sys, tid: nat, skip: bool)
    requires Inv(s) && Enabled(s, PublishOp(tid, skip))
    ensures var a, z := s.acts[tid], Step(s, PublishOp(tid, skip));
            var q := a.targets[a.at].q;
            q in s.bus.queues && q in z.bus.queues && tid in z.acts
            && var was, now, b := s.bus.queues[q], z.bus.queues[q], z.acts[tid];
            && (a.step == First && skip ==> now == was && b == a.(at := a.at + 1))
            && (a.step == First && !skip && |was| < 16 ==> now == was + [Real(a.e)] && b == a.(at := a.at + 1))
            && (a.step == First && !skip && |was| >= 16 ==> now == was && b == a.(step := Evict))
            && (a.step == Evict ==> now == (if was == [] then [] else was[1..]) && b == a.(step := Again))
            && (a.step == Again ==> now == (if |was| < 16 then was + [Real(a.e)] else was) && b == a.(at := a.at + 1, step := First))
  {
    assert ActOk(s, s.acts[tid]);
  }

  // ── A drainer and its handler ──────────────────────────────────────

  /** What task `tid` received as a drainer, in order. */
  ghost function Took(states: seq<Sys>, h: seq<Event>, tid: nat, n: nat): seq<Msg>
    requires IsRun(states, h) && n <= |h|
  {
    if n == 0 then []
    else
      Took(states, h, tid, n - 1)
      + (if h[n - 1] == DrainReceive(tid) && tid in states[n].acts && states[n].acts[tid].Drainer? && states[n].acts[tid].phase.Got?
         then [states[n].acts[tid].phase.m] else [])
  }

  /** What it handed to its handler, in order. */
  ghost function Handed(states: seq<Sys>, h: seq<Event>, tid: nat, n: nat): seq<Msg>
    requires IsRun(states, h) && n <= |h|
  {
    if n == 0 then []
    else
      Handed(states, h, tid, n - 1)
      + (if h[n - 1] == DrainCheck(tid) && Handles(states[n], tid) then [states[n].acts[tid].phase.m] else [])
  }

  predicate Handles(s: Sys, tid: nat) {
    tid in s.acts && s.acts[tid].Drainer? && s.acts[tid].phase.Handling?
  }

  predicate Holding(s: Sys, tid: nat) {
    tid in s.acts && s.acts[tid].Drainer? && s.acts[tid].phase.Got?
  }

  /** Of the messages it received and checked, in order: whether each was refused. */
  ghost function Refusals(states: seq<Sys>, h: seq<Event>, tid: nat, n: nat): seq<bool>
    requires IsRun(states, h) && n <= |h|
  {
    if n == 0 then []
    else Refusals(states, h, tid, n - 1) + (if h[n - 1] == DrainCheck(tid) then [!Handles(states[n], tid)] else [])
  }

  /** In every run each task hands on what it received, once and in order, but for what it refused;
      at most one message is received and not yet checked. */
  lemma {:induction false} HandedInOrder(states: seq<Sys>, h: seq<Event>, tid: nat, n: nat)
    requires IsRun(states, h) && n <= |h|
    ensures var took, out := Took(states, h, tid, n), Refusals(states, h, tid, n);
            && History(took, Handed(states, h, tid, n), out)
            && took[|out|..] == if Holding(states[n], tid) then [states[n].acts[tid].phase.m] else []
    decreases n
  {
    if n > 0 {
      HandedInOrder(states, h, tid, n - 1);
      HandedOn(states[n - 1], h[n - 1], states[n], tid,
               Took(states, h, tid, n - 1), Handed(states, h, tid, n - 1), Refusals(states, h, tid, n - 1));
    }
  }

  function Pending(s: Sys, tid: nat): seq<Msg> {
    if Holding(s, tid) then [s.acts[tid].phase.m] else []
  }

  // The task's own steps, and all others.
  lemma PendingMoves(s: Sys, e: Event, z: Sys, tid: nat)
    requires |s.bus.slots| == SLOTS == |s.epochs| && Enabled(s, e) && z == Step(s, e)
    ensures e == DrainReceive(tid) ==> !Holding(s, tid) && Holding(z, tid)
    ensures e == DrainCheck(tid) ==> Holding(s, tid) && !Holding(z, tid)
    ensures e == DrainCheck(tid) && Handles(z, tid) ==> z.acts[tid].phase.m == s.acts[tid].phase.m
    ensures e != DrainReceive(tid) && e != DrainCheck(tid) ==> Pending(z, tid) == Pending(s, tid)
  {
  }

  lemma HandedOn(s: Sys, e: Event, z: Sys, tid: nat, took: seq<Msg>, handed: seq<Msg>, out: seq<bool>)
    requires |s.bus.slots| == SLOTS == |s.epochs| && Enabled(s, e) && z == Step(s, e)
    requires History(took, handed, out) && Holds(took, out, Pending(s, tid))
    ensures var took2 := took + (if e == DrainReceive(tid) && Holding(z, tid) then [z.acts[tid].phase.m] else []);
            var handed2 := handed + (if e == DrainCheck(tid) && Handles(z, tid) then [z.acts[tid].phase.m] else []);
            var out2 := out + (if e == DrainCheck(tid) then [!Handles(z, tid)] else []);
            History(took2, handed2, out2) && Holds(took2, out2, Pending(z, tid))
  {
    PendingMoves(s, e, z, tid);
    assert took + [] == took && handed + [] == handed && out + [] == out;
    if e == DrainReceive(tid) {
      HistorySends(took, handed, out, [], [z.acts[tid].phase.m]);
    } else if e == DrainCheck(tid) {
      HistoryTakes(took, handed, out, Pending(s, tid), !Handles(z, tid));
    }
  }

  /** A drainer refuses a message exactly when its subscription has ended. */
  lemma RefusedOnlyWhenEnded(states: seq<Sys>, h: seq<Event>, n: nat, tid: nat)
    requires IsRun(states, h) && n < |h| && h[n] == DrainCheck(tid)
    ensures var s := states[n];
            && tid in s.acts && s.acts[tid].Drainer? && s.acts[tid].i < |s.epochs| == |s.bus.slots|
            && (Handles(states[n + 1], tid) <==> s.epochs[s.acts[tid].i] == s.acts[tid].since)
            && (Handles(states[n + 1], tid) <==> s.bus.slots[s.acts[tid].i].alive && s.epochs[s.acts[tid].i] == s.acts[tid].since)
  {
    InvRun(states, h, n);
    var s := states[n];
    assert ActOk(s, s.acts[tid]);
    assert SlotOk(s.bus.slots[s.acts[tid].i], s.epochs[s.acts[tid].i]);
  }
}
