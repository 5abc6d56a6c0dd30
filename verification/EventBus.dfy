/** The event bus: subscription slots with generation stamps, in-flight pins,
    deferred queue deletion and poison events, as steps of any number of tasks.
    Each region under the bus lock is one step, each queue operation another. */
module EventBus {
  import opened Wrappers

  const TYPES: nat := 14        // event types, 0 unused
  const SLOTS: nat := 112       // 8 slots of each type
  const DEPTH: nat := 16        // events a queue holds

  // ── Handles ───────────────────────────────────────────────────────────

  const INVALID: nat := 0xFFFF

  function PackHandle(t: nat, gen: nat, pos: nat): nat { t * 2048 + gen * 8 + pos }
  function HandleType(h: nat): nat { (h / 2048) % 32 }
  function HandleGen(h: nat): nat { (h / 8) % 256 }
  function HandlePos(h: nat): nat { h % 8 }

  /** A slot's handle names its type, generation and position, and is never
      the invalid one. */
  lemma HandleRoundTrip(t: nat, gen: nat, pos: nat)
    requires t < 16 && gen < 256 && pos < 8
    ensures var h := PackHandle(t, gen, pos);
            HandleType(h) == t && HandleGen(h) == gen && HandlePos(h) == pos && h < 0x8000 && h != INVALID
  {
    var h := PackHandle(t, gen, pos);
    assert h / 8 == t * 256 + gen;
    assert h / 2048 == (h / 8) / 256;
  }

  // ── Slots ─────────────────────────────────────────────────────────────

  /** FREE: no queue. ACTIVE: alive. DYING: not alive, its queue still there.
      Slot t * 8 + p is position p of type t. */
  datatype Slot = Slot(queue: Option<nat>, gen: nat, inflight: nat, alive: bool)

  datatype Msg = Real(n: int) | Poison

  /** `queues` holds the queues that exist; `nextQ` is a queue never used yet. */
  datatype Bus = Bus(slots: seq<Slot>, queues: map<nat, seq<Msg>>, nextQ: nat)

  predicate Free(s: Slot) { s.queue.None? && !s.alive }
  predicate Dying(s: Slot) { s.queue.Some? && !s.alive }
  predicate Reapable(s: Slot) { Dying(s) && s.inflight == 0 }

  function Send(qs: map<nat, seq<Msg>>, q: nat, m: Msg): map<nat, seq<Msg>> {
    if q in qs && |qs[q]| < DEPTH then qs[q := qs[q] + [m]] else qs
  }

  function Pop(qs: map<nat, seq<Msg>>, q: nat): map<nat, seq<Msg>> {
    if q in qs && qs[q] != [] then qs[q := qs[q][1..]] else qs
  }

  // uint8 counters.
  function Inc(n: nat): nat { (n + 1) % 256 }
  function Dec(n: nat): nat { (n + 255) % 256 }

  function ReapedSlot(s: Slot): Slot { if Reapable(s) then s.(queue := None) else s }

  function ReapedSlots(slots: seq<Slot>): seq<Slot> {
    seq(|slots|, i requires 0 <= i < |slots| => ReapedSlot(slots[i]))
  }

  function ReapedQueues(slots: seq<Slot>): set<nat> {
    set i | 0 <= i < |slots| && Reapable(slots[i]) :: slots[i].queue.value
  }

  function Reap(b: Bus): Bus {
    Bus(ReapedSlots(b.slots), b.queues - ReapedQueues(b.slots), b.nextQ)
  }

  /** The first free slot at or after position `p` of type `t`. */
  function FirstFree(slots: seq<Slot>, t: nat, p: nat): Option<nat>
    requires |slots| == SLOTS && t < TYPES && p <= 8
    decreases 8 - p
  {
    if p == 8 then None
    else if Free(slots[t * 8 + p]) then Some(t * 8 + p)
    else FirstFree(slots, t, p + 1)
  }

  datatype Subscribed = Subscribed(bus: Bus, slot: Option<nat>)

  /** `alloc`: the queue could be created. */
  function SubscribeBus(b: Bus, t: nat, alloc: bool): Subscribed
    requires |b.slots| == SLOTS && t < TYPES
  {
    var r := Reap(b);
    match FirstFree(r.slots, t, 0)
    case None => Subscribed(r, None)
    case Some(i) =>
      if !alloc then Subscribed(r, None)
      else
        var s := r.slots[i];
        Subscribed(Bus(r.slots[i := Slot(Some(r.nextQ), Inc(s.gen), s.inflight, true)],
                       r.queues[r.nextQ := []], r.nextQ + 1), Some(i))
  }

  function UnsubscribeBus(b: Bus, i: nat, gen: nat): Bus
    requires i < |b.slots|
  {
    var s := b.slots[i];
    if !s.alive || s.gen != gen then b
    else
      var dead := s.(alive := false, gen := Inc(s.gen));
      if s.queue.None? then b.(slots := b.slots[i := dead])
      else if s.inflight == 0 then
        b.(slots := b.slots[i := dead.(queue := None)], queues := b.queues - {s.queue.value})
      else
        b.(slots := b.slots[i := dead], queues := Send(b.queues, s.queue.value, Poison))
  }

  datatype Target = Target(i: nat, q: nat)

  predicate Subscriber(s: Slot) { s.alive && s.queue.Some? }

  /** The subscribers of type `t` at positions below `p`. */
  function Targets(slots: seq<Slot>, t: nat, p: nat): seq<Target>
    requires |slots| == SLOTS && t < TYPES && p <= 8
  {
    if p == 0 then []
    else
      var i := t * 8 + p - 1;
      Targets(slots, t, p - 1) + (if Subscriber(slots[i]) then [Target(i, slots[i].queue.value)] else [])
  }

  predicate Targeted(ts: seq<Target>, i: nat) {
    exists k :: 0 <= k < |ts| && ts[k].i == i
  }

  function PinSlots(slots: seq<Slot>, ts: seq<Target>): seq<Slot> {
    seq(|slots|, i requires 0 <= i < |slots| =>
      if Targeted(ts, i) then slots[i].(inflight := Inc(slots[i].inflight)) else slots[i])
  }

  function UnpinSlots(slots: seq<Slot>, ts: seq<Target>): seq<Slot> {
    seq(|slots|, i requires 0 <= i < |slots| =>
      if Targeted(ts, i) then slots[i].(inflight := Dec(slots[i].inflight)) else slots[i])
  }

  function ReleaseBus(b: Bus, ts: seq<Target>): Bus {
    Reap(b.(slots := UnpinSlots(b.slots, ts)))
  }

  predicate Drainable(s: Slot, gen: nat) { s.alive && s.gen == gen && s.queue.Some? }

  function EnterBus(b: Bus, i: nat): Bus
    requires i < |b.slots|
  {
    b.(slots := b.slots[i := b.slots[i].(inflight := Inc(b.slots[i].inflight))])
  }

  /** A drainer leaves: the wake is handed on while others are still inside. */
  function LeaveBus(b: Bus, i: nat): Bus
    requires i < |b.slots|
  {
    var s := b.slots[i].(inflight := Dec(b.slots[i].inflight));
    var b1 := b.(slots := b.slots[i := s]);
    Reap(if Dying(s) && s.inflight > 0 then b1.(queues := Send(b1.queues, s.queue.value, Poison)) else b1)
  }

  // ── Tasks ─────────────────────────────────────────────────────────────

  datatype Phase =
    | Waiting(first: bool)  // in xQueueReceive
    | Got(m: Msg)           // received, the generation not checked yet
    | Handling(m: Msg)      // checked, in the handler
    | Exiting               // out of the loop, not yet out of the call

  datatype SendStep = First | Evict | Again

  /** A call in progress. `since` is the slot's subscription epoch at entry. */
  datatype Act =
    | Publisher(targets: seq<Target>, at: nat, step: SendStep, e: int)
    | Drainer(i: nat, q: nat, gen: nat, forever: bool, since: nat, phase: Phase)

  /** `epochs[i]` counts the subscribes and unsubscribes of slot i, unwrapped. */
  datatype Sys = Sys(bus: Bus, epochs: seq<nat>, acts: map<nat, Act>)

  datatype Event =
    | Subscribe(t: nat, alloc: bool)
    | Unsubscribe(i: nat, gen: nat)
    | PublishBegin(tid: nat, t: nat, e: int)
    | PublishOp(tid: nat, skip: bool)
    | PublishEnd(tid: nat)
    | DrainBegin(tid: nat, i: nat, gen: nat, forever: bool)
    | DrainReceive(tid: nat)
    | DrainTimeout(tid: nat)
    | DrainCheck(tid: nat)
    | DrainHandled(tid: nat)
    | DrainEnd(tid: nat)

  function Head(qs: map<nat, seq<Msg>>, q: nat): Msg {
    if q in qs && qs[q] != [] then qs[q][0] else Poison
  }

  /** When a step can be taken; a pin is added only to a slot with fewer than
      255 of them. */
  predicate Enabled(s: Sys, e: Event) {
    match e
    case Subscribe(t, _) => 0 < t < TYPES
    case Unsubscribe(i, _) => 8 <= i < SLOTS
    case PublishBegin(tid, t, _) =>
      && tid !in s.acts && 0 < t < TYPES && |s.bus.slots| == SLOTS
      && forall i :: 0 <= i < SLOTS ==> s.bus.slots[i].inflight < 255
    case PublishOp(tid, _) => tid in s.acts && s.acts[tid].Publisher? && s.acts[tid].at < |s.acts[tid].targets|
    case PublishEnd(tid) => tid in s.acts && s.acts[tid].Publisher? && s.acts[tid].at >= |s.acts[tid].targets|
    case DrainBegin(tid, i, gen, _) =>
      tid !in s.acts && 8 <= i < SLOTS && |s.bus.slots| == SLOTS && s.bus.slots[i].inflight < 255
    case DrainReceive(tid) =>
      && tid in s.acts && s.acts[tid].Drainer? && s.acts[tid].phase.Waiting?
      && s.acts[tid].q in s.bus.queues && s.bus.queues[s.acts[tid].q] != []
    case DrainTimeout(tid) =>
      && tid in s.acts && s.acts[tid].Drainer? && s.acts[tid].phase.Waiting?
      && !(s.acts[tid].phase.first && s.acts[tid].forever)
    case DrainCheck(tid) => tid in s.acts && s.acts[tid].Drainer? && s.acts[tid].phase.Got? && s.acts[tid].i < |s.bus.slots|
    case DrainHandled(tid) => tid in s.acts && s.acts[tid].Drainer? && s.acts[tid].phase.Handling?
    case DrainEnd(tid) => tid in s.acts && s.acts[tid].Drainer? && s.acts[tid].phase.Exiting? && s.acts[tid].i < |s.bus.slots|
  }

  function PublishOpStep(s: Sys, tid: nat, skip: bool): Sys
    requires Enabled(s, PublishOp(tid, skip))
  {
    var a := s.acts[tid];
    var q := a.targets[a.at].q;
    var qs := s.bus.queues;
    match a.step
    case First =>
      if skip then s.(acts := s.acts[tid := a.(at := a.at + 1)])
      else if q in qs && |qs[q]| < DEPTH then
        s.(bus := s.bus.(queues := Send(qs, q, Real(a.e))), acts := s.acts[tid := a.(at := a.at + 1)])
      else s.(acts := s.acts[tid := a.(step := Evict)])
    case Evict => s.(bus := s.bus.(queues := Pop(qs, q)), acts := s.acts[tid := a.(step := Again)])
    case Again =>
      s.(bus := s.bus.(queues := Send(qs, q, Real(a.e))), acts := s.acts[tid := a.(at := a.at + 1, step := First)])
  }

  function Step(s: Sys, e: Event): Sys
    requires |s.bus.slots| == SLOTS == |s.epochs| && Enabled(s, e)
  {
    match e
    case Subscribe(t, alloc) =>
      var r := SubscribeBus(s.bus, t, alloc);
      s.(bus := r.bus, epochs := if r.slot.Some? && r.slot.value < SLOTS then s.epochs[r.slot.value := s.epochs[r.slot.value] + 1] else s.epochs)
    case Unsubscribe(i, gen) =>
      s.(bus := UnsubscribeBus(s.bus, i, gen),
         epochs := if s.bus.slots[i].alive && s.bus.slots[i].gen == gen then s.epochs[i := s.epochs[i] + 1] else s.epochs)
    case PublishBegin(tid, t, e) =>
      var ts := Targets(s.bus.slots, t, 8);
      if ts == [] then s
      else s.(bus := s.bus.(slots := PinSlots(s.bus.slots, ts)), acts := s.acts[tid := Publisher(ts, 0, First, e)])
    case PublishOp(tid, skip) => PublishOpStep(s, tid, skip)
    case PublishEnd(tid) => s.(bus := ReleaseBus(s.bus, s.acts[tid].targets), acts := s.acts - {tid})
    case DrainBegin(tid, i, gen, forever) =>
      if !Drainable(s.bus.slots[i], gen) then s
      else s.(bus := EnterBus(s.bus, i),
              acts := s.acts[tid := Drainer(i, s.bus.slots[i].queue.value, gen, forever, s.epochs[i], Waiting(true))])
    case DrainReceive(tid) =>
      var a := s.acts[tid];
      s.(bus := s.bus.(queues := Pop(s.bus.queues, a.q)), acts := s.acts[tid := a.(phase := Got(Head(s.bus.queues, a.q)))])
    case DrainTimeout(tid) => s.(acts := s.acts[tid := s.acts[tid].(phase := Exiting)])
    case DrainCheck(tid) =>
      var a := s.acts[tid];
      var live := s.bus.slots[a.i].alive && s.bus.slots[a.i].gen == a.gen;
      s.(acts := s.acts[tid := a.(phase := if live then Handling(a.phase.m) else Exiting)])
    case DrainHandled(tid) => s.(acts := s.acts[tid := s.acts[tid].(phase := Waiting(false))])
    case DrainEnd(tid) => s.(bus := LeaveBus(s.bus, s.acts[tid].i), acts := s.acts - {tid})
  }

  // ── Invariants ────────────────────────────────────────────────────────

  predicate Pins(a: Act, i: nat) {
    if a.Publisher? then Targeted(a.targets, i) else a.i == i
  }

  function Pinners(acts: map<nat, Act>, i: nat): set<nat> {
    set tid | tid in acts && Pins(acts[tid], i)
  }

  // Slot i against its epoch.
  predicate SlotOk(s: Slot, epoch: nat) {
    s.gen == epoch % 256 && (s.alive <==> epoch % 2 == 1) && (s.alive ==> s.queue.Some?)
  }

  ghost predicate Shape(s: Sys) {
    && |s.bus.slots| == SLOTS == |s.epochs|
    && (forall i :: 0 <= i < SLOTS ==> SlotOk(s.bus.slots[i], s.epochs[i]))
    && (forall i :: 0 <= i < 8 ==> Free(s.bus.slots[i]))
  }

  ghost predicate QueuesOk(b: Bus) {
    && (forall i :: 0 <= i < |b.slots| && b.slots[i].queue.Some? ==> b.slots[i].queue.value in b.queues)
    && (forall i, j :: 0 <= i < j < |b.slots| && b.slots[i].queue.Some? ==> b.slots[i].queue != b.slots[j].queue)
    && (forall q :: q in b.queues ==> q < b.nextQ && |b.queues[q]| <= DEPTH)
  }

  // A call in progress names the queue its pinned slots hold.
  ghost predicate ActOk(s: Sys, a: Act) {
    match a
    case Publisher(ts, at, step, _) =>
      && at <= |ts| && (at == |ts| ==> step == First)
      && (forall k :: 0 <= k < |ts| ==> ts[k].i < |s.bus.slots| && s.bus.slots[ts[k].i].queue == Some(ts[k].q))
      && (forall k, l :: 0 <= k < l < |ts| ==> ts[k].i != ts[l].i)
    case Drainer(i, q, gen, _, since, phase) =>
      && i < |s.bus.slots| && i < |s.epochs| && s.bus.slots[i].queue == Some(q)
      && gen == since % 256 && since % 2 == 1 && (s.epochs[i] == since || s.epochs[i] == since + 1)
      && (phase == Got(Poison) ==> !s.bus.slots[i].alive)
  }

  ghost predicate ActsOk(s: Sys) {
    forall tid :: tid in s.acts ==> ActOk(s, s.acts[tid])
  }

  ghost predicate Counted(s: Sys) {
    forall i :: 0 <= i < |s.bus.slots| ==> s.bus.slots[i].inflight == |Pinners(s.acts, i)| < 256
  }

  // Some wake is under way for the drainers of slot i.
  ghost predicate Passed(a: Act, i: nat) {
    a.Drainer? && a.i == i && (a.phase.Got? || a.phase.Exiting?)
  }

  ghost predicate Resending(a: Act, i: nat) {
    a.Publisher? && a.at < |a.targets| && a.step == Again && a.targets[a.at].i == i
  }

  ghost predicate Awake(s: Sys, i: nat)
    requires i < |s.bus.slots| && s.bus.slots[i].queue.Some?
  {
    || (s.bus.slots[i].queue.value in s.bus.queues && s.bus.queues[s.bus.slots[i].queue.value] != [])
    || (exists tid :: tid in s.acts && Passed(s.acts[tid], i))
    || (exists tid :: tid in s.acts && Resending(s.acts[tid], i))
  }

  ghost predicate WakesPending(s: Sys) {
    forall i: nat :: i < |s.bus.slots| && Dying(s.bus.slots[i]) && s.bus.slots[i].inflight > 0 ==> Awake(s, i)
  }

  ghost predicate NoPoison(b: Bus) {
    forall i :: 0 <= i < |b.slots| && Subscriber(b.slots[i]) && b.slots[i].queue.value in b.queues
      ==> Poison !in b.queues[b.slots[i].queue.value]
  }

  // What holds also inside a locked region, before the reap at its end.
  ghost predicate Core(s: Sys) {
    Shape(s) && QueuesOk(s.bus) && ActsOk(s) && Counted(s) && WakesPending(s) && NoPoison(s.bus)
  }

  ghost predicate Inv(s: Sys) {
    Core(s) && forall i :: 0 <= i < |s.bus.slots| ==> !Reapable(s.bus.slots[i])
  }

  // ── Reaping ───────────────────────────────────────────────────────────

  lemma Unpinned(s: Sys, i: nat, tid: nat)
    requires Counted(s) && i < |s.bus.slots| && s.bus.slots[i].inflight == 0 && tid in s.acts
    ensures !Pins(s.acts[tid], i)
  {
    assert |Pinners(s.acts, i)| == 0;
    assert tid !in Pinners(s.acts, i);
  }

  lemma ReapQueues(b: Bus)
    requires QueuesOk(b)
    ensures QueuesOk(Reap(b))
    ensures forall i :: 0 <= i < |b.slots| && b.slots[i].queue.Some? && !Reapable(b.slots[i]) ==> b.slots[i].queue.value !in ReapedQueues(b.slots)
  {
    forall i | 0 <= i < |b.slots| && b.slots[i].queue.Some? && !Reapable(b.slots[i])
      ensures b.slots[i].queue.value !in ReapedQueues(b.slots)
    {
      assert forall j :: 0 <= j < |b.slots| && j != i && b.slots[j].queue.Some? ==> b.slots[j].queue != b.slots[i].queue;
    }
  }

  lemma ReapAct(s: Sys, tid: nat)
    requires Core(s) && tid in s.acts
    ensures ActOk(s.(bus := Reap(s.bus)), s.acts[tid])
  {
    var a := s.acts[tid];
    if a.Publisher? {
      forall k | 0 <= k < |a.targets|
        ensures !Reapable(s.bus.slots[a.targets[k].i])
      {
        assert Pins(a, a.targets[k].i);
        if s.bus.slots[a.targets[k].i].inflight == 0 { Unpinned(s, a.targets[k].i, tid); }
      }
    } else if s.bus.slots[a.i].inflight == 0 {
      Unpinned(s, a.i, tid);
    }
  }

  lemma ReapWakes(s: Sys)
    requires Core(s)
    ensures WakesPending(s.(bus := Reap(s.bus)))
  {
    ReapQueues(s.bus);
    var s' := s.(bus := Reap(s.bus));
    forall i: nat | i < |s'.bus.slots| && Dying(s'.bus.slots[i]) && s'.bus.slots[i].inflight > 0
      ensures Awake(s', i)
    {
      assert s'.bus.slots[i] == s.bus.slots[i];
      assert Awake(s, i);
    }
  }

  /** Reaping at the end of a locked region restores the invariant. */
  lemma ReapKeeps(s: Sys)
    requires Core(s)
    ensures Inv(s.(bus := Reap(s.bus)))
  {
    var s' := s.(bus := Reap(s.bus));
    ReapQueues(s.bus);
    ReapWakes(s);
    forall tid | tid in s'.acts
      ensures ActOk(s', s'.acts[tid])
    {
      ReapAct(s, tid);
    }
    assert forall i :: 0 <= i < |s'.bus.slots| ==> s'.bus.slots[i] == ReapedSlot(s.bus.slots[i]);
  }

  // ── Steps of the tasks ────────────────────────────────────────────────

  ghost predicate Alike(a: Act, b: Act) {
    forall i: nat :: Pins(a, i) <==> Pins(b, i)
  }

  lemma PinnersSame(acts: map<nat, Act>, tid: nat, a: Act)
    requires tid in acts && Alike(a, acts[tid])
    ensures forall i: nat :: Pinners(acts[tid := a], i) == Pinners(acts, i)
  {
  }

  lemma PinnersAdd(acts: map<nat, Act>, tid: nat, a: Act, i: nat)
    requires tid !in acts
    ensures |Pinners(acts[tid := a], i)| == |Pinners(acts, i)| + if Pins(a, i) then 1 else 0
  {
    var before, after := Pinners(acts, i), Pinners(acts[tid := a], i);
    var added: set<nat> := if Pins(a, i) then {tid} else {};
    assert tid !in before;
    forall t
      ensures t in after <==> t in before || t in added
    {
      if t == tid { assert acts[tid := a][t] == a; }
    }
    assert after == before + added;
  }

  lemma PinnersDrop(acts: map<nat, Act>, tid: nat, i: nat)
    requires tid in acts
    ensures |Pinners(acts - {tid}, i)| == |Pinners(acts, i)| - if Pins(acts[tid], i) then 1 else 0
  {
    var left := Pinners(acts - {tid}, i);
    assert tid !in left;
    assert Pinners(acts, i) == left + if Pins(acts[tid], i) then {tid} else {};
  }

  // One call moves on and the slots stay: what is left to show is its own state and the wakes.
  lemma ActMoves(s: Sys, tid: nat, a: Act, qs: map<nat, seq<Msg>>)
    requires Inv(s) && tid in s.acts && Alike(a, s.acts[tid])
    requires ActOk(s, a) && QueuesOk(s.bus.(queues := qs)) && NoPoison(s.bus.(queues := qs))
    requires WakesPending(s.(bus := s.bus.(queues := qs), acts := s.acts[tid := a]))
    ensures Inv(s.(bus := s.bus.(queues := qs), acts := s.acts[tid := a]))
  {
    PinnersSame(s.acts, tid, a);
    var s' := s.(bus := s.bus.(queues := qs), acts := s.acts[tid := a]);
    forall t | t in s'.acts
      ensures ActOk(s', s'.acts[t])
    {
      assert t != tid ==> ActOk(s, s.acts[t]);
    }
  }

  lemma SendOk(b: Bus, q: nat, m: Msg)
    requires QueuesOk(b) && q in b.queues
    ensures QueuesOk(b.(queues := Send(b.queues, q, m))) && q in Send(b.queues, q, m) && Send(b.queues, q, m)[q] != []
    ensures NoPoison(b) && m.Real? ==> NoPoison(b.(queues := Send(b.queues, q, m)))
  {
  }

  lemma PopOk(b: Bus, q: nat)
    requires QueuesOk(b)
    ensures QueuesOk(b.(queues := Pop(b.queues, q)))
    ensures NoPoison(b) ==> NoPoison(b.(queues := Pop(b.queues, q)))
  {
  }

  // Wakes stay pending when one queue changes and stays, or is made, non-empty
  // or its slot is the moving call's.
  lemma WakesMove(s: Sys, tid: nat, a: Act, qs: map<nat, seq<Msg>>, q: nat, j: nat)
    requires Inv(s) && tid in s.acts && Alike(a, s.acts[tid])
    requires j < |s.bus.slots| && s.bus.slots[j].queue == Some(q)
    requires forall p :: p in s.bus.queues && p != q ==> p in qs && qs[p] == s.bus.queues[p]
    requires (q in qs && qs[q] != []) || Passed(a, j) || Resending(a, j)
    requires forall i: nat :: i != j ==> (Passed(s.acts[tid], i) ==> Passed(a, i)) && (Resending(s.acts[tid], i) ==> Resending(a, i))
    ensures WakesPending(s.(bus := s.bus.(queues := qs), acts := s.acts[tid := a]))
  {
    var s' := s.(bus := s.bus.(queues := qs), acts := s.acts[tid := a]);
    assert s'.acts[tid] == a;
    forall i: nat | i < |s'.bus.slots| && Dying(s'.bus.slots[i]) && s'.bus.slots[i].inflight > 0
      ensures Awake(s', i)
    {
      if i != j {
        assert Awake(s, i);
        assert s.bus.slots[i].queue != s.bus.slots[j].queue;
        KeepAwake(s, s', i);
      }
    }
  }

  // A slot's wake carries over when its queue stays non-empty and whoever is
  // past a receive or resending still is.
  lemma KeepAwake(s: Sys, s': Sys, i: nat)
    requires i < |s.bus.slots| && i < |s'.bus.slots| && s'.bus.slots[i].queue == s.bus.slots[i].queue
    requires s.bus.slots[i].queue.Some? && Awake(s, i)
    requires var q := s.bus.slots[i].queue.value;
             q in s.bus.queues && s.bus.queues[q] != [] ==> q in s'.bus.queues && s'.bus.queues[q] != []
    requires forall t :: t in s.acts && Passed(s.acts[t], i) ==> t in s'.acts && Passed(s'.acts[t], i)
    requires forall t :: t in s.acts && Resending(s.acts[t], i) ==> t in s'.acts && Resending(s'.acts[t], i)
    ensures Awake(s', i)
  {
    if t :| t in s.acts && Passed(s.acts[t], i) {
      assert t in s'.acts && Passed(s'.acts[t], i);
    } else if t :| t in s.acts && Resending(s.acts[t], i) {
      assert t in s'.acts && Resending(s'.acts[t], i);
    }
  }

  // A call `a` moves on to `a'` with one queue changed, that of its slot `j`.
  ghost predicate CanMove(s: Sys, a: Act, a': Act, qs: map<nat, seq<Msg>>, q: nat, j: nat) {
    && Alike(a', a) && ActOk(s, a') && j < |s.bus.slots| && s.bus.slots[j].queue == Some(q)
    && QueuesOk(s.bus.(queues := qs)) && NoPoison(s.bus.(queues := qs))
    && (forall p :: p in s.bus.queues && p != q ==> p in qs && qs[p] == s.bus.queues[p])
    && ((q in qs && qs[q] != []) || Passed(a', j) || Resending(a', j))
    && (forall i: nat :: i != j ==> (Passed(a, i) ==> Passed(a', i)) && (Resending(a, i) ==> Resending(a', i)))
  }

  function Moved(s: Sys, tid: nat, a: Act, qs: map<nat, seq<Msg>>): Sys {
    s.(bus := s.bus.(queues := qs), acts := s.acts[tid := a])
  }

  lemma Moves(s: Sys, tid: nat, a: Act, qs: map<nat, seq<Msg>>, q: nat, j: nat)
    requires Inv(s) && tid in s.acts && CanMove(s, s.acts[tid], a, qs, q, j)
    ensures Inv(Moved(s, tid, a, qs))
  {
    WakesMove(s, tid, a, qs, q, j);
    ActMoves(s, tid, a, qs);
  }

  // A publisher resends to its current target only.
  lemma PublisherMoves(a: Act, a': Act)
    requires a.Publisher? && a'.Publisher? && a.targets == a'.targets && a.at < |a.targets|
    ensures Alike(a', a)
    ensures forall i: nat :: !Passed(a, i) && (i != a.targets[a.at].i ==> !Resending(a, i))
  {
  }

  lemma EvictMove(s: Sys, tid: nat, skip: bool)
    requires Inv(s) && Enabled(s, PublishOp(tid, skip)) && s.acts[tid].step == Evict
    ensures Inv(PublishOpStep(s, tid, skip))
  {
    var a := s.acts[tid];
    assert ActOk(s, a);
    var j, q := a.targets[a.at].i, a.targets[a.at].q;
    var a' := a.(step := Again);
    var qs' := Pop(s.bus.queues, q);
    assert Resending(a', j);
    PublisherMoves(a, a');
    PopOk(s.bus, q);
    Moves(s, tid, a', qs', q, j);
  }

  predicate Sends(s: Sys, tid: nat, skip: bool)
    requires Enabled(s, PublishOp(tid, skip))
  {
    var a := s.acts[tid];
    var q := a.targets[a.at].q;
    a.step == Again || (a.step == First && !skip && q in s.bus.queues && |s.bus.queues[q]| < DEPTH)
  }

  // What a send leaves to show.
  lemma SendReady(s: Sys, a: Act, m: Msg)
    requires QueuesOk(s.bus) && NoPoison(s.bus) && a.Publisher? && a.at < |a.targets| && ActOk(s, a) && m.Real?
    ensures var q := a.targets[a.at].q;
            && q in s.bus.queues && Send(s.bus.queues, q, m)[q] != []
            && QueuesOk(s.bus.(queues := Send(s.bus.queues, q, m))) && NoPoison(s.bus.(queues := Send(s.bus.queues, q, m)))
            && ActOk(s, a.(at := a.at + 1, step := First))
  {
    SendOk(s.bus, a.targets[a.at].q, m);
  }

  // The publisher `tid` has sent to its current target and goes on to the next.
  function SentOn(s: Sys, tid: nat): Sys
    requires tid in s.acts && s.acts[tid].Publisher? && s.acts[tid].at < |s.acts[tid].targets|
  {
    var a := s.acts[tid];
    Moved(s, tid, a.(at := a.at + 1, step := First), Send(s.bus.queues, a.targets[a.at].q, Real(a.e)))
  }

  lemma InvAct(s: Sys, tid: nat)
    requires Inv(s) && tid in s.acts
    ensures QueuesOk(s.bus) && NoPoison(s.bus) && ActOk(s, s.acts[tid])
  {
  }

  lemma SendMoves(s: Sys, a: Act)
    requires QueuesOk(s.bus) && NoPoison(s.bus) && a.Publisher? && a.at < |a.targets| && ActOk(s, a)
    ensures var q := a.targets[a.at].q;
            CanMove(s, a, a.(at := a.at + 1, step := First), Send(s.bus.queues, q, Real(a.e)), q, a.targets[a.at].i)
  {
    PublisherMoves(a, a.(at := a.at + 1, step := First));
    SendReady(s, a, Real(a.e));
  }

  lemma SentOnKeeps(s: Sys, tid: nat, a: Act, z: Sys)
    requires Inv(s) && tid in s.acts && s.acts[tid] == a && a.Publisher? && a.at < |a.targets| && z == SentOn(s, tid)
    ensures Inv(z)
  {
    var q, j := a.targets[a.at].q, a.targets[a.at].i;
    var a', qs := a.(at := a.at + 1, step := First), Send(s.bus.queues, q, Real(a.e));
    assert z == Moved(s, tid, a', qs);
    InvAct(s, tid);
    SendMoves(s, a);
    Moves(s, tid, a', qs, q, j);
  }

  lemma SendMove(s: Sys, tid: nat, skip: bool)
    requires Inv(s) && Enabled(s, PublishOp(tid, skip)) && Sends(s, tid, skip)
    ensures Inv(PublishOpStep(s, tid, skip))
  {
    SendIs(s, tid, skip);
    SentOnKeeps(s, tid, s.acts[tid], PublishOpStep(s, tid, skip));
  }

  lemma SendIs(s: Sys, tid: nat, skip: bool)
    requires Enabled(s, PublishOp(tid, skip)) && Sends(s, tid, skip)
    ensures PublishOpStep(s, tid, skip) == SentOn(s, tid)
  {
  }

  lemma StayMove(s: Sys, tid: nat, skip: bool)
    requires Inv(s) && Enabled(s, PublishOp(tid, skip)) && s.acts[tid].step == First && !Sends(s, tid, skip)
    ensures Inv(PublishOpStep(s, tid, skip))
  {
    var a := s.acts[tid];
    assert ActOk(s, a);
    StayIs(s, tid, skip);
    var a' := if skip then a.(at := a.at + 1) else a.(step := Evict);
    Stays(s, a, a');
    QuietTo(s, tid, a', PublishOpStep(s, tid, skip));
  }

  lemma QuietTo(s: Sys, tid: nat, a: Act, z: Sys)
    requires Inv(s) && tid in s.acts && Alike(a, s.acts[tid]) && ActOk(s, a) && z == s.(acts := s.acts[tid := a])
    requires forall i: nat :: !Passed(s.acts[tid], i) && !Resending(s.acts[tid], i)
    ensures Inv(z)
  {
    QuietMove(s, tid, a);
  }

  lemma StayIs(s: Sys, tid: nat, skip: bool)
    requires Enabled(s, PublishOp(tid, skip)) && s.acts[tid].step == First && !Sends(s, tid, skip)
    ensures var a := s.acts[tid];
            PublishOpStep(s, tid, skip) == s.(acts := s.acts[tid := if skip then a.(at := a.at + 1) else a.(step := Evict)])
  {
  }

  lemma Stays(s: Sys, a: Act, a': Act)
    requires a.Publisher? && a.at < |a.targets| && a.step == First && ActOk(s, a)
    requires a' == a.(at := a.at + 1) || a' == a.(step := Evict)
    ensures ActOk(s, a') && Alike(a', a) && forall i: nat :: !Passed(a, i) && !Resending(a, i)
  {
  }

  lemma PublishOpKeeps(s: Sys, tid: nat, skip: bool)
    requires Inv(s) && Enabled(s, PublishOp(tid, skip))
    ensures Inv(PublishOpStep(s, tid, skip))
  {
    if s.acts[tid].step == Evict {
      EvictMove(s, tid, skip);
    } else if Sends(s, tid, skip) {
      SendMove(s, tid, skip);
    } else {
      StayMove(s, tid, skip);
    }
  }

  // A call moves on without touching a queue or anyone's wake.
  lemma QuietMove(s: Sys, tid: nat, a: Act)
    requires Inv(s) && tid in s.acts && Alike(a, s.acts[tid]) && ActOk(s, a)
    requires forall i: nat :: i < |s.bus.slots| && Dying(s.bus.slots[i]) ==>
               (Passed(s.acts[tid], i) ==> Passed(a, i)) && (Resending(s.acts[tid], i) ==> Resending(a, i))
    ensures Inv(s.(acts := s.acts[tid := a]))
  {
    var s' := s.(acts := s.acts[tid := a]);
    forall i: nat | i < |s'.bus.slots| && Dying(s'.bus.slots[i]) && s'.bus.slots[i].inflight > 0
      ensures Awake(s', i)
    {
      KeepAwake(s, s', i);
    }
    assert s.bus == s.bus.(queues := s.bus.queues);
    ActMoves(s, tid, a, s.bus.queues);
  }

  lemma DrainReceiveKeeps(s: Sys, tid: nat)
    requires Inv(s) && Enabled(s, DrainReceive(tid))
    ensures Inv(Step(s, DrainReceive(tid)))
  {
    var a := s.acts[tid];
    assert ActOk(s, a);
    var m := Head(s.bus.queues, a.q);
    var a' := a.(phase := Got(m));
    assert m in s.bus.queues[a.q];
    if s.bus.slots[a.i].alive { assert Subscriber(s.bus.slots[a.i]); }
    PopOk(s.bus, a.q);
    Moves(s, tid, a', Pop(s.bus.queues, a.q), a.q, a.i);
  }

  lemma DrainMoveKeeps(s: Sys, e: Event)
    requires Inv(s) && Enabled(s, e) && (e.DrainTimeout? || e.DrainCheck? || e.DrainHandled?)
    ensures Inv(Step(s, e))
  {
    var a := s.acts[e.tid];
    assert ActOk(s, a);
    match e
    case DrainTimeout(tid) => QuietMove(s, tid, a.(phase := Exiting));
    case DrainCheck(tid) =>
      var live := s.bus.slots[a.i].alive && s.bus.slots[a.i].gen == a.gen;
      QuietMove(s, tid, a.(phase := if live then Handling(a.phase.m) else Exiting));
    case DrainHandled(tid) => QuietMove(s, tid, a.(phase := Waiting(false)));
  }

  // ── Steps under the bus lock ──────────────────────────────────────────

  ghost predicate TargetsIn(slots: seq<Slot>, ts: seq<Target>, from: nat, to: nat) {
    && (forall k: nat :: k < |ts| ==>
         from <= ts[k].i < to && ts[k].i < |slots| && Subscriber(slots[ts[k].i]) && slots[ts[k].i].queue == Some(ts[k].q))
    && (forall k: nat, l: nat :: k < l < |ts| ==> ts[k].i < ts[l].i)
  }

  lemma {:induction false} TargetsAre(slots: seq<Slot>, t: nat, p: nat)
    requires |slots| == SLOTS && t < TYPES && p <= 8
    ensures TargetsIn(slots, Targets(slots, t, p), t * 8, t * 8 + p)
    decreases p
  {
    if p != 0 {
      TargetsAre(slots, t, p - 1);
      var below := Targets(slots, t, p - 1);
      var j := t * 8 + p - 1;
      assert Targets(slots, t, p) == below + (if Subscriber(slots[j]) then [Target(j, slots[j].queue.value)] else []);
      TargetsSnoc(slots, below, t * 8, j);
    }
  }

  lemma TargetsSnoc(slots: seq<Slot>, ts: seq<Target>, from: nat, j: nat)
    requires TargetsIn(slots, ts, from, j) && from <= j < |slots|
    ensures TargetsIn(slots, ts, from, j + 1)
    ensures Subscriber(slots[j]) ==> TargetsIn(slots, ts + [Target(j, slots[j].queue.value)], from, j + 1)
  {
  }

  /** A publish pins exactly the live subscribers of its type. */
  lemma {:induction false} TargetsExact(slots: seq<Slot>, t: nat, p: nat, i: nat)
    requires |slots| == SLOTS && t < TYPES && p <= 8 && i < SLOTS
    ensures Targeted(Targets(slots, t, p), i) <==> t * 8 <= i < t * 8 + p && Subscriber(slots[i])
    decreases p
  {
    if p != 0 {
      TargetsExact(slots, t, p - 1, i);
      var ts := Targets(slots, t, p - 1);
      var j := t * 8 + p - 1;
      assert Targets(slots, t, p) == ts + (if Subscriber(slots[j]) then [Target(j, slots[j].queue.value)] else []);
      if Subscriber(slots[j]) { TargetedSnoc(ts, Target(j, slots[j].queue.value), i); } else { assert ts + [] == ts; }
    }
  }

  lemma TargetedSnoc(ts: seq<Target>, x: Target, i: nat)
    ensures Targeted(ts + [x], i) <==> Targeted(ts, i) || x.i == i
  {
    if Targeted(ts, i) {
      var k :| 0 <= k < |ts| && ts[k].i == i;
      assert (ts + [x])[k].i == i;
    }
    assert (ts + [x])[|ts|] == x;
  }

  lemma PublisherOk(s: Sys, t: nat, e: int)
    requires |s.bus.slots| == SLOTS && t < TYPES
    ensures var ts := Targets(s.bus.slots, t, 8);
            && (ts != [] ==> ActOk(s, Publisher(ts, 0, First, e)))
            && (forall i :: 0 <= i < SLOTS && Targeted(ts, i) ==> s.bus.slots[i].alive)
  {
    var ts := Targets(s.bus.slots, t, 8);
    TargetsAre(s.bus.slots, t, 8);
    forall i | 0 <= i < SLOTS && Targeted(ts, i)
      ensures s.bus.slots[i].alive
    {
      TargetsExact(s.bus.slots, t, 8, i);
    }
  }

  lemma PublishBeginKeeps(s: Sys, tid: nat, t: nat, e: int)
    requires Inv(s) && Enabled(s, PublishBegin(tid, t, e))
    ensures Inv(Step(s, PublishBegin(tid, t, e)))
  {
    var ts := Targets(s.bus.slots, t, 8);
    PublisherOk(s, t, e);
    if ts != [] { Entered(s, Step(s, PublishBegin(tid, t, e)), tid, Publisher(ts, 0, First, e)); }
  }

  // Slots that differ at most in their counts where `a` pins.
  ghost predicate Pinned(s: Sys, s': Sys, a: Act) {
    && |s.bus.slots| == SLOTS == |s'.bus.slots|
    && forall i :: 0 <= i < SLOTS ==>
         s'.bus.slots[i] == if Pins(a, i) then s.bus.slots[i].(inflight := Inc(s.bus.slots[i].inflight)) else s.bus.slots[i]
  }

  lemma PinnedActs(s: Sys, s': Sys, a: Act, tid: nat)
    requires Pinned(s, s', a) && s'.epochs == s.epochs && s'.acts == s.acts[tid := a] && ActOk(s, a)
    requires forall t :: t in s.acts ==> ActOk(s, s.acts[t])
    ensures forall t :: t in s'.acts ==> ActOk(s', s'.acts[t])
  {
    forall t | t in s'.acts
      ensures ActOk(s', s'.acts[t])
    {
      SameSlotsAct(s, s', s'.acts[t]);
    }
  }

  lemma PinnedAwake(s: Sys, s': Sys, a: Act, tid: nat)
    requires Pinned(s, s', a) && tid !in s.acts && s'.acts == s.acts[tid := a] && s'.bus.queues == s.bus.queues
    requires WakesPending(s) && forall i :: 0 <= i < SLOTS && Dying(s.bus.slots[i]) ==> s.bus.slots[i].queue.Some?
    requires forall i :: 0 <= i < SLOTS && Pins(a, i) ==> s.bus.slots[i].alive
    ensures forall i: nat :: i < SLOTS && Dying(s'.bus.slots[i]) ==> s'.bus.slots[i].queue.Some?
    ensures WakesPending(s')
  {
    forall i: nat | i < |s'.bus.slots| && Dying(s'.bus.slots[i]) && s'.bus.slots[i].inflight > 0
      ensures Awake(s', i)
    {
      assert s'.bus.slots[i] == s.bus.slots[i];
      KeepAwake(s, s', i);
    }
  }

  lemma PinnedShape(s: Sys, s': Sys, a: Act)
    requires Pinned(s, s', a) && Shape(s) && s'.epochs == s.epochs
    requires forall i :: 0 <= i < SLOTS && Pins(a, i) ==> s.bus.slots[i].alive
    requires forall i :: 0 <= i < SLOTS ==> !Reapable(s.bus.slots[i])
    ensures Shape(s') && forall i :: 0 <= i < SLOTS ==> !Reapable(s'.bus.slots[i])
  {
  }

  lemma PinnedQueues(s: Sys, s': Sys, a: Act)
    requires Pinned(s, s', a) && QueuesOk(s.bus) && NoPoison(s.bus)
    requires s'.bus.queues == s.bus.queues && s'.bus.nextQ == s.bus.nextQ
    ensures QueuesOk(s'.bus) && NoPoison(s'.bus)
  {
  }

  // A call enters, pinning live slots only.
  lemma Entered(s: Sys, s': Sys, tid: nat, a: Act)
    requires Inv(s) && tid !in s.acts && s'.acts == s.acts[tid := a] && s'.epochs == s.epochs
    requires s'.bus.queues == s.bus.queues && s'.bus.nextQ == s.bus.nextQ && |s'.bus.slots| == |s.bus.slots|
    requires forall i :: 0 <= i < SLOTS ==>
               s'.bus.slots[i] == if Pins(a, i) then s.bus.slots[i].(inflight := Inc(s.bus.slots[i].inflight)) else s.bus.slots[i]
    requires forall i :: 0 <= i < SLOTS && Pins(a, i) ==> s.bus.slots[i].alive && s.bus.slots[i].inflight < 255
    requires ActOk(s, a)
    ensures Inv(s')
  {
    EnteredCount(s, s', tid, a);
    PinnedShape(s, s', a);
    PinnedQueues(s, s', a);
    PinnedActs(s, s', a, tid);
    PinnedAwake(s, s', a, tid);
  }

  lemma EnteredCount(s: Sys, s': Sys, tid: nat, a: Act)
    requires Shape(s) && Counted(s) && tid !in s.acts && s'.acts == s.acts[tid := a]
    requires |s'.bus.slots| == |s.bus.slots|
    requires forall i :: 0 <= i < SLOTS ==>
               s'.bus.slots[i] == if Pins(a, i) then s.bus.slots[i].(inflight := Inc(s.bus.slots[i].inflight)) else s.bus.slots[i]
    requires forall i :: 0 <= i < SLOTS && Pins(a, i) ==> s.bus.slots[i].inflight < 255
    ensures Counted(s')
  {
    forall i | 0 <= i < SLOTS
      ensures s'.bus.slots[i].inflight == |Pinners(s'.acts, i)| < 256
    {
      PinnersAdd(s.acts, tid, a, i);
    }
  }

  lemma SameSlotsAct(s: Sys, s': Sys, a: Act)
    requires ActOk(s, a) && s'.epochs == s.epochs && |s'.bus.slots| == |s.bus.slots|
    requires forall i :: 0 <= i < |s.bus.slots| ==> s'.bus.slots[i].queue == s.bus.slots[i].queue && s'.bus.slots[i].alive == s.bus.slots[i].alive
    ensures ActOk(s', a)
  {
  }

  lemma DrainBeginKeeps(s: Sys, tid: nat, i: nat, gen: nat, forever: bool)
    requires Inv(s) && Enabled(s, DrainBegin(tid, i, gen, forever))
    ensures Inv(Step(s, DrainBegin(tid, i, gen, forever)))
  {
    if Drainable(s.bus.slots[i], gen) {
      var a := Drainer(i, s.bus.slots[i].queue.value, gen, forever, s.epochs[i], Waiting(true));
      assert SlotOk(s.bus.slots[i], s.epochs[i]);
      Entered(s, Step(s, DrainBegin(tid, i, gen, forever)), tid, a);
    }
  }

  // A call leaves; `qs` may hold one more poison event.
  lemma Left(s: Sys, s': Sys, tid: nat)
    requires Inv(s) && tid in s.acts && s'.acts == s.acts - {tid} && s'.epochs == s.epochs
    requires s'.bus.nextQ == s.bus.nextQ && |s'.bus.slots| == |s.bus.slots|
    requires QueuesOk(s'.bus) && NoPoison(s'.bus) && WakesPending(s')
    requires forall i :: 0 <= i < SLOTS ==>
               s'.bus.slots[i] == if Pins(s.acts[tid], i) then s.bus.slots[i].(inflight := Dec(s.bus.slots[i].inflight)) else s.bus.slots[i]
    ensures Core(s')
  {
    LeftCount(s, s', tid);
    forall t | t in s'.acts
      ensures ActOk(s', s'.acts[t])
    {
      SameSlotsAct(s, s', s'.acts[t]);
    }
  }

  lemma LeftCount(s: Sys, s': Sys, tid: nat)
    requires Counted(s) && tid in s.acts && s'.acts == s.acts - {tid} && |s'.bus.slots| == |s.bus.slots|
    requires forall i :: 0 <= i < |s.bus.slots| ==>
               s'.bus.slots[i] == if Pins(s.acts[tid], i) then s.bus.slots[i].(inflight := Dec(s.bus.slots[i].inflight)) else s.bus.slots[i]
    ensures Counted(s')
  {
    forall i | 0 <= i < |s.bus.slots|
      ensures s'.bus.slots[i].inflight == |Pinners(s'.acts, i)| < 256
    {
      PinnersDrop(s.acts, tid, i);
      if Pins(s.acts[tid], i) { PinnedPositive(s, tid, i); }
    }
  }

  lemma PinnedPositive(s: Sys, tid: nat, i: nat)
    requires Counted(s) && tid in s.acts && i < |s.bus.slots| && Pins(s.acts[tid], i)
    ensures 0 < s.bus.slots[i].inflight < 256 && Dec(s.bus.slots[i].inflight) == s.bus.slots[i].inflight - 1
  {
    assert tid in Pinners(s.acts, i);
  }

  lemma PublishEndKeeps(s: Sys, tid: nat)
    requires Inv(s) && Enabled(s, PublishEnd(tid))
    ensures Inv(Step(s, PublishEnd(tid)))
  {
    var a := s.acts[tid];
    assert ActOk(s, a);
    var s1 := s.(bus := s.bus.(slots := UnpinSlots(s.bus.slots, a.targets)), acts := s.acts - {tid});
    forall i: nat | i < |s1.bus.slots| && Dying(s1.bus.slots[i]) && s1.bus.slots[i].inflight > 0
      ensures Awake(s1, i)
    {
      if Pins(a, i) { PinnedPositive(s, tid, i); }
      KeepAwake(s, s1, i);
    }
    Left(s, s1, tid);
    ReapKeeps(s1);
  }

  lemma DrainEndKeeps(s: Sys, tid: nat)
    requires Inv(s) && Enabled(s, DrainEnd(tid))
    ensures Inv(Step(s, DrainEnd(tid)))
  {
    var a := s.acts[tid];
    assert ActOk(s, a);
    PinnedPositive(s, tid, a.i);
    var slot := s.bus.slots[a.i].(inflight := Dec(s.bus.slots[a.i].inflight));
    var b1 := s.bus.(slots := s.bus.slots[a.i := slot]);
    var hand := Dying(slot) && slot.inflight > 0;
    var b2 := if hand then b1.(queues := Send(b1.queues, a.q, Poison)) else b1;
    var s1 := Sys(b2, s.epochs, s.acts - {tid});
    LeaveWakes(s, s1, tid, hand);
    LeaveQueues(s, b1, a.i, a.q, hand);
    Left(s, s1, tid);
    ReapKeeps(s1);
  }

  lemma LeaveQueues(s: Sys, b1: Bus, i: nat, q: nat, hand: bool)
    requires Inv(s) && i < |s.bus.slots| && s.bus.slots[i].queue == Some(q)
    requires b1 == s.bus.(slots := s.bus.slots[i := s.bus.slots[i].(inflight := Dec(s.bus.slots[i].inflight))])
    requires hand ==> !s.bus.slots[i].alive
    ensures var b2 := if hand then b1.(queues := Send(b1.queues, q, Poison)) else b1; QueuesOk(b2) && NoPoison(b2)
  {
    assert QueuesOk(b1);
    assert NoPoison(b1);
    SendOk(b1, q, Poison);
    if hand {
      assert forall j :: 0 <= j < |b1.slots| && j != i && b1.slots[j].queue.Some? ==> b1.slots[j].queue != Some(q);
    }
  }

  lemma LeaveWakes(s: Sys, s1: Sys, tid: nat, hand: bool)
    requires Inv(s) && tid in s.acts && s.acts[tid].Drainer? && ActOk(s, s.acts[tid])
    requires var a := s.acts[tid];
             var slot := s.bus.slots[a.i].(inflight := Dec(s.bus.slots[a.i].inflight));
             var b1 := s.bus.(slots := s.bus.slots[a.i := slot]);
             && hand == (Dying(slot) && slot.inflight > 0)
             && s1 == Sys(if hand then b1.(queues := Send(b1.queues, a.q, Poison)) else b1, s.epochs, s.acts - {tid})
    ensures WakesPending(s1)
  {
    var a := s.acts[tid];
    forall i: nat | i < |s1.bus.slots| && Dying(s1.bus.slots[i]) && s1.bus.slots[i].inflight > 0
      ensures Awake(s1, i)
    {
      if i != a.i {
        assert Awake(s, i);
        assert s.bus.slots[i].queue != s.bus.slots[a.i].queue;
        KeepAwake(s, s1, i);
      }
    }
  }

  lemma {:induction false} FirstFreeIs(slots: seq<Slot>, t: nat, p: nat)
    requires |slots| == SLOTS && t < TYPES && p <= 8
    ensures var f := FirstFree(slots, t, p);
            && (f.Some? ==> t * 8 + p <= f.value < t * 8 + 8 && Free(slots[f.value]))
            && (f.None? ==> forall i :: t * 8 + p <= i < t * 8 + 8 ==> !Free(slots[i]))
    decreases 8 - p
  {
    if p != 8 { FirstFreeIs(slots, t, p + 1); }
  }

  // A slot that no call pins gets a new slot value and queue.
  lemma SubscribeKeeps(s: Sys, t: nat, alloc: bool)
    requires Inv(s) && Enabled(s, Subscribe(t, alloc))
    ensures Inv(Step(s, Subscribe(t, alloc)))
  {
    ReapKeeps(s);
    var s1 := s.(bus := Reap(s.bus));
    SubscribeIs(s, t, alloc);
    var f := FirstFree(s1.bus.slots, t, 0);
    if alloc && f.Some? { Activated(s1, f.value); }
  }

  lemma SubscribeIs(s: Sys, t: nat, alloc: bool)
    requires |s.bus.slots| == SLOTS == |s.epochs| && 0 < t < TYPES
    ensures var s1 := s.(bus := Reap(s.bus));
            var f := FirstFree(s1.bus.slots, t, 0);
            && (f.Some? ==> 8 <= f.value < SLOTS && Free(s1.bus.slots[f.value]))
            && Step(s, Subscribe(t, alloc)) == if alloc && f.Some? then Activation(s1, f.value) else s1
  {
    FirstFreeIs(Reap(s.bus).slots, t, 0);
  }

  ghost function Activation(s: Sys, i: nat): Sys
    requires i < |s.bus.slots| && i < |s.epochs|
  {
    var slot := s.bus.slots[i];
    s.(bus := Bus(s.bus.slots[i := Slot(Some(s.bus.nextQ), Inc(slot.gen), slot.inflight, true)],
                  s.bus.queues[s.bus.nextQ := []], s.bus.nextQ + 1),
       epochs := s.epochs[i := s.epochs[i] + 1])
  }

  // A subscribe and an unsubscribe each move a slot one epoch on.
  lemma SlotNext(slot: Slot, epoch: nat, next: Slot)
    requires SlotOk(slot, epoch) && next.gen == Inc(slot.gen) && next.alive == !slot.alive && (next.alive ==> next.queue.Some?)
    ensures SlotOk(next, epoch + 1)
  {
    NextMod(epoch);
  }

  lemma NextMod(e: nat)
    ensures (e + 1) % 256 == Inc(e % 256) && ((e + 1) % 2 == 1 <==> e % 2 == 0)
  {
    var k, r := e / 256, e % 256;
    if r == 255 { ModIs(e + 1, k + 1, 0); } else { ModIs(e + 1, k, r + 1); }
    NextParity(e);
  }

  lemma NextParity(e: nat)
    ensures (e + 1) % 2 == 1 <==> e % 2 == 0
  {
  }

  lemma ModIs(x: nat, k: nat, r: nat)
    requires x == 256 * k + r && r < 256
    ensures x % 256 == r
  {
  }

  lemma ActivationShape(s: Sys, i: nat)
    requires Shape(s) && 8 <= i < SLOTS && Free(s.bus.slots[i])
    ensures Shape(Activation(s, i))
  {
    var slot := s.bus.slots[i];
    SlotNext(slot, s.epochs[i], Slot(Some(s.bus.nextQ), Inc(slot.gen), slot.inflight, true));
  }

  lemma ActivationQueues(s: Sys, i: nat)
    requires QueuesOk(s.bus) && NoPoison(s.bus) && i < |s.bus.slots| && i < |s.epochs| && Free(s.bus.slots[i])
    ensures QueuesOk(Activation(s, i).bus) && NoPoison(Activation(s, i).bus)
  {
  }

  lemma ActivationWakes(s: Sys, i: nat)
    requires QueuesOk(s.bus) && WakesPending(s) && i < |s.bus.slots| && i < |s.epochs| && Free(s.bus.slots[i])
    ensures WakesPending(Activation(s, i))
  {
    var s' := Activation(s, i);
    forall j: nat | j < |s'.bus.slots| && Dying(s'.bus.slots[j]) && s'.bus.slots[j].inflight > 0
      ensures Awake(s', j)
    {
      KeepAwake(s, s', j);
    }
  }

  lemma Activated(s: Sys, i: nat)
    requires Inv(s) && 8 <= i < SLOTS && Free(s.bus.slots[i])
    ensures Inv(Activation(s, i))
  {
    ActivationShape(s, i);
    assert Counted(Activation(s, i));
    ActivationQueues(s, i);
    ActivationWakes(s, i);
    forall tid | tid in s.acts
      ensures ActOk(Activation(s, i), s.acts[tid])
    {
      assert ActOk(s, s.acts[tid]);
    }
  }

  lemma UnsubscribeKeeps(s: Sys, i: nat, gen: nat)
    requires Inv(s) && Enabled(s, Unsubscribe(i, gen))
    ensures Inv(Step(s, Unsubscribe(i, gen)))
  {
    var slot := s.bus.slots[i];
    assert SlotOk(slot, s.epochs[i]);
    if slot.alive && slot.gen == gen {
      if slot.inflight == 0 { Freed(s, i); } else { Killed(s, i); }
    }
  }

  // A subscription ends with nobody inside: its slot is free at once.
  ghost function Release1(s: Sys, i: nat): Sys
    requires i < |s.bus.slots| && i < |s.epochs| && s.bus.slots[i].queue.Some?
  {
    var slot := s.bus.slots[i];
    s.(bus := s.bus.(slots := s.bus.slots[i := Slot(None, Inc(slot.gen), slot.inflight, false)],
                     queues := s.bus.queues - {slot.queue.value}),
       epochs := s.epochs[i := s.epochs[i] + 1])
  }

  lemma FreedShape(s: Sys, i: nat)
    requires Shape(s) && 8 <= i < SLOTS && Subscriber(s.bus.slots[i])
    ensures Shape(Release1(s, i))
  {
    var slot := s.bus.slots[i];
    SlotNext(slot, s.epochs[i], Slot(None, Inc(slot.gen), slot.inflight, false));
  }

  lemma FreedQueues(s: Sys, i: nat)
    requires QueuesOk(s.bus) && NoPoison(s.bus) && i < |s.bus.slots| && i < |s.epochs| && Subscriber(s.bus.slots[i])
    ensures QueuesOk(Release1(s, i).bus) && NoPoison(Release1(s, i).bus)
  {
  }

  lemma FreedWakes(s: Sys, i: nat)
    requires QueuesOk(s.bus) && WakesPending(s) && i < |s.bus.slots| && i < |s.epochs| && Subscriber(s.bus.slots[i])
    ensures WakesPending(Release1(s, i))
  {
    var s' := Release1(s, i);
    forall j: nat | j < |s'.bus.slots| && Dying(s'.bus.slots[j]) && s'.bus.slots[j].inflight > 0
      ensures Awake(s', j)
    {
      assert s.bus.slots[j].queue != s.bus.slots[i].queue;
      KeepAwake(s, s', j);
    }
  }

  lemma FreedAct(s: Sys, i: nat, a: Act)
    requires ActOk(s, a) && !Pins(a, i) && i < |s.bus.slots| && i < |s.epochs| && Subscriber(s.bus.slots[i])
    ensures ActOk(Release1(s, i), a)
  {
    PinsAll(a, i);
  }

  lemma Freed(s: Sys, i: nat)
    requires Inv(s) && 8 <= i < SLOTS && Subscriber(s.bus.slots[i]) && s.bus.slots[i].inflight == 0
    ensures Inv(Release1(s, i))
  {
    FreedShape(s, i);
    assert Counted(Release1(s, i));
    FreedQueues(s, i);
    FreedWakes(s, i);
    forall tid | tid in s.acts
      ensures ActOk(Release1(s, i), s.acts[tid])
    {
      Unpinned(s, i, tid);
      FreedAct(s, i, s.acts[tid]);
    }
  }

  lemma PinsAll(a: Act, i: nat)
    requires !Pins(a, i)
    ensures a.Publisher? ==> forall k :: 0 <= k < |a.targets| ==> a.targets[k].i != i
  {
  }

  lemma KilledWakes(s: Sys, i: nat)
    requires Inv(s) && 8 <= i < SLOTS && Subscriber(s.bus.slots[i]) && s.bus.slots[i].inflight > 0
    ensures WakesPending(Step(s, Unsubscribe(i, s.bus.slots[i].gen)))
  {
    var slot := s.bus.slots[i];
    var s' := Step(s, Unsubscribe(i, slot.gen));
    var q := slot.queue.value;
    SendOk(s.bus, q, Poison);
    forall j: nat | j < SLOTS && Dying(s'.bus.slots[j]) && s'.bus.slots[j].inflight > 0
      ensures Awake(s', j)
    {
      if j != i {
        assert s.bus.slots[j].queue != slot.queue;
        KeepAwake(s, s', j);
      }
    }
  }

  lemma KilledQueues(b: Bus, i: nat)
    requires QueuesOk(b) && NoPoison(b) && i < |b.slots| && Subscriber(b.slots[i]) && b.slots[i].inflight > 0
    ensures var b' := UnsubscribeBus(b, i, b.slots[i].gen); QueuesOk(b') && NoPoison(b')
  {
    var slot := b.slots[i];
    var q := slot.queue.value;
    var b1 := b.(slots := b.slots[i := slot.(alive := false, gen := Inc(slot.gen))]);
    assert QueuesOk(b1);
    SendOk(b1, q, Poison);
    assert forall j :: 0 <= j < |b1.slots| && j != i && b1.slots[j].queue.Some? ==> b1.slots[j].queue != Some(q);
  }

  // The pins of a slot whose subscription ends stay what they were.
  lemma KilledAct(s: Sys, i: nat, a: Act)
    requires Shape(s) && ActOk(s, a) && 8 <= i < SLOTS && Subscriber(s.bus.slots[i]) && s.bus.slots[i].inflight > 0
    ensures ActOk(Step(s, Unsubscribe(i, s.bus.slots[i].gen)), a)
  {
    assert SlotOk(s.bus.slots[i], s.epochs[i]);
  }

  // What ending a subscription does to the slots and the epochs.
  lemma KilledSlots(s: Sys, i: nat)
    requires |s.bus.slots| == SLOTS == |s.epochs| && 8 <= i < SLOTS && Subscriber(s.bus.slots[i]) && s.bus.slots[i].inflight > 0
    ensures var s', slot := Step(s, Unsubscribe(i, s.bus.slots[i].gen)), s.bus.slots[i];
            && s'.bus.slots == s.bus.slots[i := slot.(alive := false, gen := Inc(slot.gen))]
            && s'.epochs == s.epochs[i := s.epochs[i] + 1] && s'.acts == s.acts
  {
  }

  lemma KilledShape(s: Sys, s': Sys, i: nat, next: Slot)
    requires Shape(s) && Counted(s) && 8 <= i < SLOTS && Subscriber(s.bus.slots[i]) && s.bus.slots[i].inflight > 0
    requires next == s.bus.slots[i].(alive := false, gen := Inc(s.bus.slots[i].gen))
    requires s'.bus.slots == s.bus.slots[i := next] && s'.epochs == s.epochs[i := s.epochs[i] + 1] && s'.acts == s.acts
    ensures Shape(s') && Counted(s')
  {
    SlotNext(s.bus.slots[i], s.epochs[i], next);
    assert forall j :: 0 <= j < SLOTS ==> s'.bus.slots[j].inflight == s.bus.slots[j].inflight;
  }

  lemma Killed(s: Sys, i: nat)
    requires Inv(s) && 8 <= i < SLOTS && Subscriber(s.bus.slots[i]) && s.bus.slots[i].inflight > 0
    ensures Inv(Step(s, Unsubscribe(i, s.bus.slots[i].gen)))
  {
    var s' := Step(s, Unsubscribe(i, s.bus.slots[i].gen));
    KilledSlots(s, i);
    KilledShape(s, s', i, s'.bus.slots[i]);
    KilledWakes(s, i);
    KilledQueues(s.bus, i);
    forall tid | tid in s'.acts
      ensures ActOk(s', s'.acts[tid])
    {
      KilledAct(s, i, s.acts[tid]);
    }
  }

  /** Every step of every task keeps the invariant. */
  lemma InvStep(s: Sys, e: Event)
    requires Inv(s) && Enabled(s, e)
    ensures Inv(Step(s, e))
  {
    match e
    case Subscribe(t, alloc) => SubscribeKeeps(s, t, alloc);
    case Unsubscribe(i, gen) => UnsubscribeKeeps(s, i, gen);
    case PublishBegin(tid, t, n) => PublishBeginKeeps(s, tid, t, n);
    case PublishOp(tid, skip) => PublishOpKeeps(s, tid, skip);
    case PublishEnd(tid) => PublishEndKeeps(s, tid);
    case DrainBegin(tid, i, gen, forever) => DrainBeginKeeps(s, tid, i, gen, forever);
    case DrainReceive(tid) => DrainReceiveKeeps(s, tid);
    case DrainTimeout(_) => DrainMoveKeeps(s, e);
    case DrainCheck(_) => DrainMoveKeeps(s, e);
    case DrainHandled(_) => DrainMoveKeeps(s, e);
    case DrainEnd(tid) => DrainEndKeeps(s, tid);
  }

  // ── Runs ──────────────────────────────────────────────────────────────

  function Empty(): Sys {
    Sys(Bus(seq(SLOTS, i => Slot(None, 0, 0, false)), map[], 0), seq(SLOTS, i => 0), map[])
  }

  /** `states` is a run of the steps `h` from an empty bus. */
  ghost predicate IsRun(states: seq<Sys>, h: seq<Event>) {
    && |states| == |h| + 1 && states[0] == Empty()
    && (forall k: nat :: k < |h| ==>
         |states[k].bus.slots| == SLOTS == |states[k].epochs| && Enabled(states[k], h[k]) && states[k + 1] == Step(states[k], h[k]))
  }

  lemma EmptyInv()
    ensures Inv(Empty())
  {
    assert forall i: nat :: Pinners(Empty().acts, i) == {};
  }

  lemma {:induction false} InvRun(states: seq<Sys>, h: seq<Event>, n: nat)
    requires IsRun(states, h) && n <= |h|
    ensures Inv(states[n])
    decreases n
  {
    if n == 0 {
      EmptyInv();
    } else {
      InvRun(states, h, n - 1);
      InvStep(states[n - 1], h[n - 1]);
    }
  }

  /** In every interleaving, each call in progress holds a queue that exists:
      no send or receive meets a deleted queue. */
  lemma NoDeletedQueue(states: seq<Sys>, h: seq<Event>, n: nat, tid: nat)
    requires IsRun(states, h) && n <= |h| && tid in states[n].acts
    ensures var s, a := states[n], states[n].acts[tid];
            && (a.Drainer? ==> a.q in s.bus.queues)
            && (a.Publisher? ==> forall k :: 0 <= k < |a.targets| ==> a.targets[k].q in s.bus.queues)
  {
    InvRun(states, h, n);
    assert ActOk(states[n], states[n].acts[tid]);
  }

  /** A slot's count is the calls inside it, and a dead slot keeps its queue
      exactly while some call is inside. */
  lemma PinsCounted(states: seq<Sys>, h: seq<Event>, n: nat, i: nat)
    requires IsRun(states, h) && n <= |h| && i < SLOTS
    ensures |states[n].bus.slots| == SLOTS
    ensures var slot := states[n].bus.slots[i];
            && slot.inflight == |Pinners(states[n].acts, i)|
            && (!slot.alive ==> (slot.queue.Some? <==> Pinners(states[n].acts, i) != {}))
  {
    InvRun(states, h, n);
    var s := states[n];
    var slot := s.bus.slots[i];
    if !slot.alive {
      assert !Reapable(slot);
      if tid :| tid in Pinners(s.acts, i) {
        assert ActOk(s, s.acts[tid]);
      }
    }
  }

  /** No drainer sleeps forever on a dead subscription: while one waits there,
      its queue is not empty, or another drainer is past its receive and not
      yet out, or a publisher is between evicting and resending there. */
  lemma WakeIsPending(states: seq<Sys>, h: seq<Event>, n: nat, tid: nat)
    requires IsRun(states, h) && n <= |h|
    requires tid in states[n].acts && states[n].acts[tid].Drainer? && states[n].acts[tid].phase.Waiting?
    requires states[n].acts[tid].i < |states[n].bus.slots| && !states[n].bus.slots[states[n].acts[tid].i].alive
    ensures var s, i := states[n], states[n].acts[tid].i;
            || Enabled(s, DrainReceive(tid))
            || (exists t :: t in s.acts && t != tid && Passed(s.acts[t], i))
            || (exists t :: t in s.acts && Resending(s.acts[t], i))
  {
    InvRun(states, h, n);
    var s, a := states[n], states[n].acts[tid];
    assert ActOk(s, a);
    PinnedPositive(s, tid, a.i);
    assert Awake(s, a.i);
    if t :| t in s.acts && Passed(s.acts[t], a.i) { assert t != tid; }
  }

  /** What a drain dispatches: a real event, to the very subscription it was
      entered with, while that is still alive. */
  lemma DispatchIsCurrent(states: seq<Sys>, h: seq<Event>, n: nat, tid: nat)
    requires IsRun(states, h) && n < |h| && h[n] == DrainCheck(tid)
    requires tid in states[n + 1].acts && states[n + 1].acts[tid].Drainer? && states[n + 1].acts[tid].phase.Handling?
    ensures var a := states[n + 1].acts[tid];
            && a.phase.m.Real? && a.i < SLOTS && |states[n + 1].epochs| == SLOTS
            && states[n + 1].epochs[a.i] == a.since && states[n + 1].bus.slots[a.i].alive
  {
    InvRun(states, h, n);
    InvRun(states, h, n + 1);
    var s := states[n];
    var a := s.acts[tid];
    assert ActOk(s, a);
    assert SlotOk(s.bus.slots[a.i], s.epochs[a.i]);
  }

  /** A handle from epoch `e` of a slot that is alive at epoch `e'` is accepted
      exactly when the slot was reused a multiple of 128 times since; so a
      stale one is refused for the first 127 reuses. */
  lemma StaleHandle(slot: Slot, e: nat, e': nat)
    requires e % 2 == 1 && e <= e' && SlotOk(slot, e') && slot.alive
    ensures Drainable(slot, e % 256) <==> ((e' - e) / 2) % 128 == 0
    ensures e < e' && (e' - e) / 2 <= 127 ==> !Drainable(slot, e % 256)
  {
    var k := (e' - e) / 2;
    assert e' == e + 2 * k && slot.gen == e' % 256;
    SameByte(e, k);
  }

  lemma SameByte(e: nat, k: nat)
    ensures (e + 2 * k) % 256 == e % 256 <==> k % 128 == 0
  {
    var q, r := k / 128, k % 128;
    assert e + 2 * k == 256 * q + (e + 2 * r);
    ByteOf(e + 2 * r, q);
    ByteNear(e, r);
  }

  lemma ByteOf(x: nat, q: nat)
    ensures (256 * q + x) % 256 == x % 256
  {
  }

  lemma ByteNear(e: nat, r: nat)
    requires r < 128
    ensures (e + 2 * r) % 256 == e % 256 <==> r == 0
  {
  }

  /** An unsubscribe or a drain with a handle that is not the slot's current
      one changes nothing. */
  lemma StaleIsIgnored(s: Sys, i: nat, gen: nat, tid: nat, forever: bool)
    requires Inv(s) && 8 <= i < SLOTS && !Drainable(s.bus.slots[i], gen)
    ensures Step(s, Unsubscribe(i, gen)) == s
    ensures Enabled(s, DrainBegin(tid, i, gen, forever)) ==> Step(s, DrainBegin(tid, i, gen, forever)) == s
  {
    assert SlotOk(s.bus.slots[i], s.epochs[i]);
  }

  // ── The code: the regions under the bus lock ──────────────────────────

  function DyingCount(slots: seq<Slot>): nat {
    if slots == [] then 0
    else DyingCount(slots[..|slots| - 1]) + if Dying(slots[|slots| - 1]) then 1 else 0
  }

  lemma {:induction false} DyingUpdate(slots: seq<Slot>, i: nat, s: Slot)
    requires i < |slots|
    ensures DyingCount(slots[i := s]) + (if Dying(slots[i]) then 1 else 0) == DyingCount(slots) + if Dying(s) then 1 else 0
    decreases |slots|
  {
    var n := |slots| - 1;
    if i == n {
      assert slots[i := s][..n] == slots[..n];
    } else {
      assert slots[i := s][..n] == slots[..n][i := s];
      DyingUpdate(slots[..n], i, s);
    }
  }

  lemma {:induction false} NoneDying(slots: seq<Slot>, i: nat)
    requires i < |slots| && DyingCount(slots) == 0
    ensures !Dying(slots[i])
    decreases |slots|
  {
    if i < |slots| - 1 { NoneDying(slots[..|slots| - 1], i); }
  }

  /** `h` is one above the highest slot of type `t` in use, a dying one too. */
  ghost predicate HighWater(slots: seq<Slot>, t: nat, h: nat) {
    && h <= 8 && |slots| == SLOTS && t < TYPES
    && (h > 0 ==> !Free(slots[t * 8 + h - 1]))
    && (forall i: nat :: t * 8 + h <= i < t * 8 + 8 ==> Free(slots[i]))
  }

  class EventTable {
    const subs: array<Slot>
    const hwm: array<nat>
    var dying: nat
    var queues: map<nat, seq<Msg>>
    var nextQ: nat

    ghost function View(): Bus
      reads this, subs
    {
      Bus(subs[..], queues, nextQ)
    }

    ghost predicate Sized()
      reads this
    {
      subs.Length == SLOTS && hwm.Length == TYPES
    }

    /** The dying count and every high-water mark are exact. */
    ghost predicate Valid()
      reads this, subs, hwm
    {
      && Sized()
      && dying == DyingCount(subs[..])
      && (forall t: nat :: t < TYPES ==> HighWater(subs[..], t, hwm[t]))
      && (forall i: nat :: i < 8 ==> Free(subs[i]))
      && (forall i: nat :: i < SLOTS && subs[i].alive ==> subs[i].queue.Some?)
    }

    constructor Init()
      ensures Valid() && View() == Empty().bus && fresh(subs) && fresh(hwm)
    {
      subs := new Slot[SLOTS](_ => Slot(None, 0, 0, false));
      hwm := new nat[TYPES](_ => 0);
      dying, queues, nextQ := 0, map[], 0;
      new;
      NoDying(subs[..]);
    }

    method RecalcHwmLocked(t: nat)
      requires Sized() && t < TYPES && hwm[t] <= 8
      requires forall i: nat :: t * 8 + hwm[t] <= i < t * 8 + 8 ==> Free(subs[i])
      modifies hwm
      ensures HighWater(subs[..], t, hwm[t])
      ensures forall u: nat :: u < TYPES && u != t ==> hwm[u] == old(hwm[u])
    {
      while hwm[t] > 0 && Free(subs[t * 8 + hwm[t] - 1])
        invariant hwm[t] <= 8
        invariant forall i: nat :: t * 8 + hwm[t] <= i < t * 8 + 8 ==> Free(subs[i])
        invariant forall u: nat :: u < TYPES && u != t ==> hwm[u] == old(hwm[u])
        decreases hwm[t]
      {
        hwm[t] := hwm[t] - 1;
      }
    }

    // One slot, if its last user has left.
    method ReapSlot(t: nat, i: nat)
      requires Valid() && 0 < t < TYPES && t * 8 <= i < t * 8 + 8
      modifies this`dying, this`queues, subs, hwm
      ensures Valid() && subs[..] == old(subs[..])[i := ReapedSlot(old(subs[i]))]
      ensures queues == if Reapable(old(subs[i])) then old(queues) - {old(subs[i]).queue.value} else old(queues)
    {
      var s := subs[i];
      if !s.alive && s.queue.Some? && s.inflight == 0 {
        DyingUpdate(subs[..], i, s.(queue := None));
        queues := queues - {s.queue.value};
        subs[i] := s.(queue := None);
        dying := dying - 1;
        assert subs[..] == old(subs[..])[i := s.(queue := None)];
        RecalcHwmLocked(t);
        forall u: nat | u < TYPES
          ensures HighWater(subs[..], u, hwm[u])
        {
          if u != t { assert HighWater(old(subs[..]), u, hwm[u]); }
        }
      } else {
        assert subs[..] == old(subs[..])[i := s];
      }
    }

    method ReapType(t: nat, ghost was: seq<Slot>, ghost qs: map<nat, seq<Msg>>)
      requires Valid() && 0 < t < TYPES && |was| == SLOTS
      requires subs[..] == ReapedUpTo(was, t * 8) && queues == qs - ReapedQueues(was[..t * 8])
      modifies this`dying, this`queues, subs, hwm
      ensures Valid() && subs[..] == ReapedUpTo(was, t * 8 + 8) && queues == qs - ReapedQueues(was[..t * 8 + 8])
    {
      var p := 0;
      while p < 8
        invariant p <= 8 && Valid()
        invariant subs[..] == ReapedUpTo(was, t * 8 + p)
        invariant queues == qs - ReapedQueues(was[..t * 8 + p])
      {
        var i := t * 8 + p;
        assert subs[i] == was[i];
        ReapedQueuesNext(was, i);
        ReapedNext(was, i);
        ReapSlot(t, i);
        p := p + 1;
      }
    }

    method ReapLocked()
      requires Valid()
      modifies this`dying, this`queues, subs, hwm
      ensures Valid() && View() == Reap(old(View()))
    {
      ghost var was := subs[..];
      var t := 1;
      if dying == 0 {
        NoneLeft(was, was, 0);
        return;
      }
      NoReapFirst(was);
      while t < TYPES && dying > 0
        invariant 1 <= t <= TYPES && Valid()
        invariant subs[..] == ReapedUpTo(was, t * 8)
        invariant queues == old(queues) - ReapedQueues(was[..t * 8])
        decreases TYPES - t
      {
        ReapType(t, was, old(queues));
        t := t + 1;
      }
      if t < TYPES { NoneLeft(was, subs[..], t * 8); } else { assert was[..SLOTS] == was; }
    }

    // One slot gets a new value: the count and the marks that this concerns.
    method SetSlot(t: nat, i: nat, s: Slot)
      requires Valid() && 0 < t < TYPES && t * 8 <= i < t * 8 + 8 && (s.alive ==> s.queue.Some?)
      modifies this`dying, subs, hwm
      ensures Valid() && subs[..] == old(subs[..])[i := s]
    {
      var was := subs[i];
      DyingUpdate(subs[..], i, s);
      subs[i] := s;
      assert subs[..] == old(subs[..])[i := s];
      if Dying(was) && !Dying(s) { dying := dying - 1; }
      if !Dying(was) && Dying(s) { dying := dying + 1; }
      var pos := i - t * 8;
      if Free(s) {
        RecalcHwmLocked(t);
      } else if pos + 1 > hwm[t] {
        hwm[t] := pos + 1;
      }
      forall u: nat | u < TYPES
        ensures HighWater(subs[..], u, hwm[u])
      {
        assert HighWater(old(subs[..]), u, old(hwm[u]));
      }
    }

    method FindFree(t: nat) returns (pos: int)
      requires Sized() && t < TYPES
      ensures pos == match FirstFree(subs[..], t, 0) case None => -1 case Some(i) => i - t * 8
      ensures pos < 8
    {
      var p := 0;
      while p < 8
        invariant p <= 8 && FirstFree(subs[..], t, 0) == FirstFree(subs[..], t, p)
      {
        if subs[t * 8 + p].queue.None? && !subs[t * 8 + p].alive { return p; }
        p := p + 1;
      }
      pos := -1;
    }

    method Subscribe(t: nat) returns (h: nat, ghost alloc: bool)
      requires Valid()
      modifies this, subs, hwm
      ensures Valid()
      ensures t == 0 || t >= TYPES ==> h == INVALID && View() == old(View())
      ensures 0 < t < TYPES ==>
                var r := SubscribeBus(old(View()), t, alloc);
                && View() == r.bus
                && h == match r.slot case None => INVALID case Some(i) => PackHandle(t, r.bus.slots[i].gen, i - t * 8)
    {
      alloc := false;
      h := INVALID;
      if t == 0 || t >= TYPES { return; }
      ReapLocked();
      var pos := FindFree(t);
      if pos < 0 { return; }
      FirstFreeIs(subs[..], t, 0);
      var created := *;
      alloc := created;
      if !created { return; }
      var i := t * 8 + pos;
      var gen := Activate(t, i);
      h := PackHandle(t, gen, pos);
    }

    // A free slot gets a new queue and the next generation.
    method Activate(t: nat, i: nat) returns (gen: nat)
      requires Valid() && 0 < t < TYPES && t * 8 <= i < t * 8 + 8
      modifies this, subs, hwm
      ensures Valid() && gen == Inc(old(subs[i]).gen)
      ensures View() == Bus(old(subs[..])[i := Slot(Some(old(nextQ)), gen, old(subs[i]).inflight, true)],
                            old(queues)[old(nextQ) := []], old(nextQ) + 1)
    {
      gen := (subs[i].gen + 1) % 256;
      var s := Slot(Some(nextQ), gen, subs[i].inflight, true);
      queues := queues[nextQ := []];
      nextQ := nextQ + 1;
      SetSlot(t, i, s);
    }

    method Unsubscribe(h: nat)
      requires Valid()
      modifies this, subs, hwm
      ensures Valid()
      ensures h == INVALID || HandleType(h) == 0 || HandleType(h) >= TYPES ==> View() == old(View())
      ensures h != INVALID && 0 < HandleType(h) < TYPES ==>
                View() == UnsubscribeBus(old(View()), HandleType(h) * 8 + HandlePos(h), HandleGen(h))
    {
      if h == INVALID { return; }
      var t, gen, pos := HandleType(h), HandleGen(h), HandlePos(h);
      if t == 0 || t >= TYPES { return; }
      var i := t * 8 + pos;
      var s := subs[i];
      if !s.alive || s.gen != gen { return; }
      var dead := s.(alive := false, gen := (s.gen + 1) % 256);
      if s.inflight == 0 {
        queues := queues - {s.queue.value};
        SetSlot(t, i, dead.(queue := None));
      } else {
        queues := Send(queues, s.queue.value, Poison);
        SetSlot(t, i, dead);
      }
    }

    method PinIfLive(i: nat, targets: seq<Target>, ghost was: seq<Slot>) returns (more: seq<Target>)
      requires Sized() && i < SLOTS && |was| == SLOTS && subs[..] == PinSlots(was, targets) && !Targeted(targets, i)
      modifies subs
      ensures subs[..] == PinSlots(was, more)
      ensures more == targets + if Subscriber(was[i]) then [Target(i, was[i].queue.value)] else []
    {
      more := targets;
      assert subs[i] == was[i];
      if subs[i].alive && subs[i].queue.Some? {
        PinNext(was, targets, Target(i, subs[i].queue.value));
        more := targets + [Target(i, subs[i].queue.value)];
        subs[i] := subs[i].(inflight := (subs[i].inflight + 1) % 256);
      } else {
        assert targets + [] == targets;
      }
    }

    // The subscribers below position h, each pinned.
    method PinBelow(t: nat, h: nat) returns (targets: seq<Target>)
      requires Sized() && 0 < t < TYPES && h <= 8
      modifies subs
      ensures targets == Targets(old(subs[..]), t, h) && subs[..] == PinSlots(old(subs[..]), targets)
    {
      ghost var was := subs[..];
      targets := [];
      var p := 0;
      while p < h
        invariant p <= h
        invariant targets == Targets(was, t, p) && subs[..] == PinSlots(was, targets)
      {
        TargetsExact(was, t, p, t * 8 + p);
        targets := PinIfLive(t * 8 + p, targets, was);
        assert targets == Targets(was, t, p + 1);
        p := p + 1;
      }
    }

    /** A publish's snapshot: the live subscribers, each pinned. */
    method Snapshot(t: nat) returns (targets: seq<Target>)
      requires Valid() && 0 < t < TYPES
      modifies subs
      ensures Valid() && targets == Targets(old(subs[..]), t, 8)
      ensures subs[..] == PinSlots(old(subs[..]), targets)
    {
      ghost var was := subs[..];
      FreeBeyond(was, t, hwm[t], 8);
      targets := PinBelow(t, hwm[t]);
      SameUse(was, subs[..]);
    }

    /** A publish's end: its pins go, and what they held up is reaped. */
    method Release(targets: seq<Target>)
      requires Valid()
      requires forall k: nat :: k < |targets| ==> targets[k].i < SLOTS
      requires forall k: nat, l: nat :: k < l < |targets| ==> targets[k].i != targets[l].i
      modifies this, subs, hwm
      ensures Valid() && View() == ReleaseBus(old(View()), targets)
    {
      ghost var was := subs[..];
      var k := 0;
      while k < |targets|
        invariant k <= |targets| && unchanged(hwm) && unchanged(this)
        invariant subs[..] == UnpinSlots(was, targets[..k])
      {
        var i := targets[k].i;
        assert targets[..k + 1] == targets[..k] + [targets[k]];
        UnpinNext(was, targets[..k], targets[k]);
        subs[i] := subs[i].(inflight := (subs[i].inflight + 255) % 256);
        k := k + 1;
      }
      assert targets[..k] == targets;
      SameUse(was, subs[..]);
      ReapLocked();
    }

    method SetInflight(i: nat, n: nat)
      requires Valid() && 8 <= i < SLOTS
      modifies subs
      ensures Valid() && subs[..] == old(subs[..])[i := old(subs[i]).(inflight := n)]
    {
      subs[i] := subs[i].(inflight := n);
      assert subs[..] == old(subs[..])[i := old(subs[i]).(inflight := n)];
      SameUse(old(subs[..]), subs[..]);
    }

    /** A drain's entry: the queue it may block on, or None for a stale handle. */
    method DrainEnter(i: nat, gen: nat) returns (q: Option<nat>)
      requires Valid() && 8 <= i < SLOTS
      modifies subs
      ensures Valid()
      ensures Drainable(old(subs[i]), gen) ==> q == old(subs[i]).queue && View() == EnterBus(old(View()), i)
      ensures !Drainable(old(subs[i]), gen) ==> q == None && View() == old(View())
    {
      var s := subs[i];
      if !s.alive || s.gen != gen || s.queue.None? { return None; }
      SetInflight(i, (s.inflight + 1) % 256);
      return s.queue;
    }

    method DrainLeave(i: nat)
      requires Valid() && 8 <= i < SLOTS
      modifies this, subs, hwm
      ensures Valid() && View() == LeaveBus(old(View()), i)
    {
      SetInflight(i, (subs[i].inflight + 255) % 256);
      if !subs[i].alive && subs[i].queue.Some? && subs[i].inflight > 0 {
        queues := Send(queues, subs[i].queue.value, Poison);
      }
      ReapLocked();
    }
  }

  // Beyond the high-water mark there is no subscriber.
  lemma {:induction false} FreeBeyond(slots: seq<Slot>, t: nat, h: nat, p: nat)
    requires HighWater(slots, t, h) && h <= p <= 8
    ensures Targets(slots, t, p) == Targets(slots, t, h)
    decreases p
  {
    if p > h {
      FreeBeyond(slots, t, h, p - 1);
      assert Free(slots[t * 8 + p - 1]);
    }
  }

  lemma {:induction false} SameDying(a: seq<Slot>, b: seq<Slot>)
    requires |a| == |b| && forall i :: 0 <= i < |a| ==> a[i].queue == b[i].queue && a[i].alive == b[i].alive
    ensures DyingCount(a) == DyingCount(b)
    decreases |a|
  {
    if a != [] { SameDying(a[..|a| - 1], b[..|b| - 1]); }
  }

  // Pins change neither the dying count nor a high-water mark.
  lemma SameUse(a: seq<Slot>, b: seq<Slot>)
    requires |a| == |b| && forall i :: 0 <= i < |a| ==> a[i].queue == b[i].queue && a[i].alive == b[i].alive
    ensures DyingCount(a) == DyingCount(b)
    ensures forall t: nat, h: nat :: HighWater(a, t, h) ==> HighWater(b, t, h)
  {
    SameDying(a, b);
  }

  lemma PinNext(slots: seq<Slot>, ts: seq<Target>, x: Target)
    requires x.i < |slots| && !Targeted(ts, x.i)
    ensures PinSlots(slots, ts + [x]) == PinSlots(slots, ts)[x.i := slots[x.i].(inflight := Inc(slots[x.i].inflight))]
    ensures PinSlots(slots, ts)[x.i] == slots[x.i]
  {
    forall j: nat
      ensures Targeted(ts + [x], j) <==> Targeted(ts, j) || x.i == j
    {
      TargetedSnoc(ts, x, j);
    }
  }

  lemma UnpinNext(slots: seq<Slot>, ts: seq<Target>, x: Target)
    requires x.i < |slots| && forall k: nat :: k < |ts| ==> ts[k].i != x.i
    ensures UnpinSlots(slots, ts + [x]) == UnpinSlots(slots, ts)[x.i := slots[x.i].(inflight := Dec(slots[x.i].inflight))]
    ensures UnpinSlots(slots, ts)[x.i] == slots[x.i]
  {
    forall j: nat
      ensures Targeted(ts + [x], j) <==> Targeted(ts, j) || x.i == j
    {
      TargetedSnoc(ts, x, j);
    }
  }

  lemma {:induction false} NoDying(slots: seq<Slot>)
    requires forall i :: 0 <= i < |slots| ==> Free(slots[i])
    ensures DyingCount(slots) == 0
    decreases |slots|
  {
    if slots != [] { NoDying(slots[..|slots| - 1]); }
  }

  ghost function ReapedUpTo(slots: seq<Slot>, n: nat): seq<Slot> {
    seq(|slots|, i requires 0 <= i < |slots| => if i < n then ReapedSlot(slots[i]) else slots[i])
  }

  lemma ReapedQueuesNext(slots: seq<Slot>, i: nat)
    requires i < |slots|
    ensures ReapedQueues(slots[..i + 1]) == ReapedQueues(slots[..i]) + if Reapable(slots[i]) then {slots[i].queue.value} else {}
  {
    assert forall j :: 0 <= j < i ==> slots[..i + 1][j] == slots[..i][j];
    assert slots[..i + 1][i] == slots[i];
  }

  lemma ReapedNext(slots: seq<Slot>, i: nat)
    requires i < |slots|
    ensures ReapedUpTo(slots, i)[i := ReapedSlot(slots[i])] == ReapedUpTo(slots, i + 1)
  {
  }

  // Type 0 has nothing to reap.
  lemma NoReapFirst(slots: seq<Slot>)
    requires |slots| == SLOTS && forall i: nat :: i < 8 ==> Free(slots[i])
    ensures ReapedUpTo(slots, 8) == slots && ReapedQueues(slots[..8]) == {}
  {
  }

  // With no slot dying any more, the rest of the table needs no reaping.
  lemma NoneLeft(was: seq<Slot>, now: seq<Slot>, n: nat)
    requires n <= |was| && now == ReapedUpTo(was, n) && DyingCount(now) == 0
    ensures now == ReapedSlots(was) && ReapedQueues(was[..n]) == ReapedQueues(was)
  {
    forall i: nat | n <= i < |was|
      ensures !Dying(was[i])
    {
      NoneDying(now, i);
    }
    assert forall i :: 0 <= i < n ==> was[..n][i] == was[i];
  }
}
