/** Deferred device writes: a table of devices to save, flushers that read the
    pool's copy and write it under one store lock, and hard removals that take
    the device out of the pool first. The write-back task runs and the snapshot
    callback is installed. Regions under a lock are one step; a save's read and
    its write are two, with the store lock held between them. */
module ZapStoreFlush {
  import opened Wrappers

  const CAP: nat := 64

  datatype State = Free | Dirty | Flushing

  datatype Slot = Slot(ieee: nat, state: State, remarked: bool, high: bool)

  predicate Pending(s: Slot, ieee: nat) { s.state != Free && s.ieee == ieee }

  function FindSlot(slots: seq<Slot>, ieee: nat): (r: Option<nat>)
    ensures r.Some? ==> r.value < |slots| && Pending(slots[r.value], ieee)
    ensures r.None? ==> forall i :: 0 <= i < |slots| ==> !Pending(slots[i], ieee)
  {
    if slots == [] then None
    else if Pending(slots[0], ieee) then Some(0)
    else match FindSlot(slots[1..], ieee) case None => None case Some(i) => Some(i + 1)
  }

  function FindFree(slots: seq<Slot>): (r: Option<nat>)
    ensures r.Some? ==> r.value < |slots| && slots[r.value].state == Free
    ensures r.None? ==> forall i :: 0 <= i < |slots| ==> slots[i].state != Free
  {
    if slots == [] then None
    else if slots[0].state == Free then Some(0)
    else match FindFree(slots[1..]) case None => None case Some(i) => Some(i + 1)
  }

  function MarkSlot(slots: seq<Slot>, ieee: nat): (r: Option<nat>)
    ensures r.Some? ==> r.value < |slots| && (Pending(slots[r.value], ieee) || slots[r.value].state == Free)
  {
    if FindSlot(slots, ieee).Some? then FindSlot(slots, ieee) else FindFree(slots)
  }

  function Marked(s: Slot, ieee: nat, high: bool): Slot {
    if s.state == Free then Slot(ieee, Dirty, false, high)
    else s.(high := s.high || high, remarked := s.remarked || s.state == Flushing)
  }

  function Started(s: Slot): Slot { s.(state := Flushing, remarked := false) }

  /** `done`: the device was written, or was found gone. */
  function Settled(s: Slot, done: bool): Slot {
    if s.remarked then s.(state := Dirty, remarked := false)
    else if done then s.(state := Free)
    else s.(state := Dirty)
  }

  // ── State ─────────────────────────────────────────────────────────────

  /** A copy of the pool's device, read at time `at` by the save `tid` that
      holds the store lock. */
  datatype Copy = Copy(tid: nat, ieee: nat, data: int, at: nat)

  /** The pool and flash, with times: a device's last change in the pool, when
      the copy last stored was read, when it was last found or taken out of the
      pool, when its record was last deleted. `removed`: hard removals that
      returned, for devices not added since. */
  datatype Home = Home(pool: map<nat, int>, store: map<nat, int>, now: nat,
                       changed: map<nat, nat>, storedAt: map<nat, nat>, leftAt: map<nat, nat>, deletedAt: map<nat, nat>,
                       removed: set<nat>, lock: Option<Copy>)

  datatype Phase = Begun | Reading | Done(persisted: bool, dropped: bool)

  /** A save under way: a flusher's, or (idx == CAP) a mark's that met a full
      table. */
  datatype Flight = Flight(idx: nat, ieee: nat, begun: nat, phase: Phase)

  /** `marked`: when each device was last marked in the table. */
  datatype Table = Table(slots: seq<Slot>, marked: map<nat, nat>, flights: map<nat, Flight>)

  datatype DevPhase = Looking | Peeked(idx: nat) | Own | Over(ok: bool)

  /** A zap_store_flush_device: `since` is the device's last mark at the call. */
  datatype Dev = Dev(ieee: nat, since: nat, phase: DevPhase)

  datatype Sys = Sys(home: Home, tab: Table, removing: map<nat, nat>, devs: map<nat, Dev>)

  datatype Event =
    | PoolPut(ieee: nat, data: int)
    | Mark(tid: nat, ieee: nat, high: bool)
    | FlushBegin(tid: nat, idx: nat)
    | SaveRead(tid: nat)
    | SaveWrite(tid: nat, applied: bool, ok: bool)
    | Settle(tid: nat)
    | RemovePool(tid: nat, ieee: nat)
    | RemoveStore(tid: nat)
    | DevBegin(tid: nat, ieee: nat)
    | DevPeek(tid: nat)
    | DevFlush(tid: nat)

  /** A device is stored, or found out of the pool, at `t` or later. */
  predicate Covered(h: Home, ieee: nat, t: nat) {
    (ieee in h.storedAt && h.storedAt[ieee] >= t) || (ieee in h.leftAt && h.leftAt[ieee] >= t)
  }

  function Tick(h: Home): Home { h.(now := h.now + 1) }

  function Put(h: Home, ieee: nat, data: int): Home {
    Tick(h).(pool := h.pool[ieee := data], changed := h.changed[ieee := h.now + 1], removed := h.removed - {ieee})
  }

  function Read(h: Home, tid: nat, ieee: nat): Home {
    if ieee in h.pool then Tick(h).(lock := Some(Copy(tid, ieee, h.pool[ieee], h.now + 1)))
    else Tick(h).(leftAt := h.leftAt[ieee := h.now + 1])
  }

  function Wrote(h: Home, applied: bool, ok: bool): Home
    requires h.lock.Some?
  {
    var c := h.lock.value;
    Tick(h).(store := if applied then h.store[c.ieee := c.data] else h.store,
             storedAt := if ok then h.storedAt[c.ieee := c.at] else h.storedAt, lock := None)
  }

  function TakenOut(h: Home, ieee: nat): Home {
    Tick(h).(pool := h.pool - {ieee}, leftAt := h.leftAt[ieee := h.now + 1])
  }

  function Deleted(h: Home, ieee: nat): Home {
    Tick(h).(store := h.store - {ieee}, deletedAt := h.deletedAt[ieee := h.now + 1],
             removed := if ieee in h.pool then h.removed else h.removed + {ieee})
  }

  function MarkIn(t: Table, i: nat, ieee: nat, high: bool, now: nat): Table
    requires i < |t.slots|
  {
    t.(slots := t.slots[i := Marked(t.slots[i], ieee, high)], marked := t.marked[ieee := now])
  }

  function Launch(t: Table, tid: nat, idx: nat, now: nat): Table
    requires idx < |t.slots|
  {
    t.(slots := t.slots[idx := Started(t.slots[idx])],
       flights := t.flights[tid := Flight(idx, t.slots[idx].ieee, now, Begun)])
  }

  function LaunchIf(t: Table, tid: nat, idx: nat, now: nat): Table {
    if idx < |t.slots| && t.slots[idx].state == Dirty then Launch(t, tid, idx, now) else t
  }

  function Phased(t: Table, tid: nat, phase: Phase): Table
    requires tid in t.flights
  {
    t.(flights := t.flights[tid := t.flights[tid].(phase := phase)])
  }

  function Landed(t: Table, tid: nat): Table
    requires tid in t.flights && t.flights[tid].phase.Done?
  {
    var f := t.flights[tid];
    t.(slots := if f.idx < |t.slots| then t.slots[f.idx := Settled(t.slots[f.idx], f.phase.persisted || f.phase.dropped)] else t.slots,
       flights := t.flights - {tid})
  }

  predicate Enabled(y: Sys, e: Event) {
    match e
    case PoolPut(_, _) => true
    case Mark(tid, _, _) => tid !in y.tab.flights && tid !in y.devs
    case FlushBegin(tid, idx) => tid !in y.tab.flights && tid !in y.devs && idx < CAP
    case SaveRead(tid) => tid in y.tab.flights && y.tab.flights[tid].phase == Begun && y.home.lock.None?
    case SaveWrite(tid, applied, ok) => y.home.lock.Some? && y.home.lock.value.tid == tid && tid in y.tab.flights && (ok ==> applied)
    case Settle(tid) => tid in y.tab.flights && y.tab.flights[tid].phase.Done?
    case RemovePool(tid, _) => tid !in y.removing
    case RemoveStore(tid) => tid in y.removing && y.home.lock.None?
    case DevBegin(tid, _) => tid !in y.devs && tid !in y.tab.flights
    case DevPeek(tid) => tid in y.devs && y.devs[tid].phase == Looking
    case DevFlush(tid) => tid in y.devs && y.devs[tid].phase.Peeked? && y.devs[tid].phase.idx < |y.tab.slots| && tid !in y.tab.flights
  }

  /** What each step does to the pool and flash. */
  function HomeStep(y: Sys, e: Event): Home
    requires Enabled(y, e)
  {
    var h := y.home;
    match e
    case PoolPut(ieee, data) => Put(h, ieee, data)
    case SaveRead(tid) => Read(h, tid, y.tab.flights[tid].ieee)
    case SaveWrite(_, applied, ok) => Wrote(h, applied, ok)
    case RemovePool(_, ieee) => TakenOut(h, ieee)
    case RemoveStore(tid) => Deleted(h, y.removing[tid])
    case _ => Tick(h)
  }

  /** What it does to the table and the saves under way. flush_device's own flush attempt finds its
      slot as it was peeked, or taken by now. */
  function TabStep(y: Sys, e: Event): Table
    requires Enabled(y, e)
  {
    var h, t := y.home, y.tab;
    match e
    case Mark(tid, ieee, high) =>
      (match MarkSlot(t.slots, ieee)
       case Some(i) => MarkIn(t, i, ieee, high, h.now)
       case None => t.(flights := t.flights[tid := Flight(CAP, ieee, h.now, Begun)]))
    case FlushBegin(tid, idx) => LaunchIf(t, tid, idx, h.now)
    case SaveRead(tid) => Phased(t, tid, if t.flights[tid].ieee in h.pool then Reading else Done(false, true))
    case SaveWrite(tid, _, ok) => Phased(t, tid, Done(ok, false))
    case Settle(tid) => Landed(t, tid)
    case DevFlush(tid) =>
      var d := y.devs[tid];
      if t.slots[d.phase.idx].ieee == d.ieee then LaunchIf(t, tid, d.phase.idx, h.now + 1) else t
    case _ => t
  }

  /** What it does to the single-device flushes. */
  function DevsNext(y: Sys, e: Event): map<nat, Dev>
    requires Enabled(y, e)
  {
    var t := y.tab;
    match e
    case DevBegin(tid, ieee) =>
      y.devs[tid := Dev(ieee, if ieee in t.marked then t.marked[ieee] else 0, Looking)]
    case DevPeek(tid) =>
      var d := y.devs[tid];
      var f := FindSlot(t.slots, d.ieee);
      y.devs[tid := d.(phase := if f.None? then Over(true)
                                else if t.slots[f.value].state == Dirty then Peeked(f.value) else Looking)]
    case DevFlush(tid) =>
      var d := y.devs[tid];
      var slot := t.slots[d.phase.idx];
      y.devs[tid := d.(phase := if slot.state == Flushing then Looking
                                else if slot.state == Free || slot.ieee != d.ieee then Over(true) else Own)]
    case Settle(tid) =>
      var p := t.flights[tid].phase;
      if tid in y.devs then y.devs[tid := y.devs[tid].(phase := Over(p.persisted || p.dropped))] else y.devs
    case _ => y.devs
  }

  function RemovalsNext(y: Sys, e: Event): map<nat, nat>
    requires Enabled(y, e)
  {
    match e
    case RemovePool(tid, ieee) => y.removing[tid := ieee]
    case RemoveStore(tid) => y.removing - {tid}
    case _ => y.removing
  }

  function Step(y: Sys, e: Event): Sys
    requires Enabled(y, e)
  {
    Sys(HomeStep(y, e), TabStep(y, e), RemovalsNext(y, e), DevsNext(y, e))
  }

  // ── Invariants ────────────────────────────────────────────────────────

  predicate Apart(a: Slot, b: Slot) { a.state == Free || b.state == Free || a.ieee != b.ieee }

  ghost predicate Unique(slots: seq<Slot>) {
    forall i: nat, j: nat :: i < j < |slots| ==> Apart(slots[i], slots[j])
  }

  ghost predicate TableOk(t: Table) { |t.slots| == CAP && Unique(t.slots) }

  // A flusher owns its slot; a save read, stored or found gone later than it began.
  ghost predicate FlightOk(t: Table, h: Home, tid: nat, f: Flight) {
    && f.idx <= CAP && f.idx <= |t.slots| && f.begun <= h.now
    && (f.idx < |t.slots| ==>
         && Pending(t.slots[f.idx], f.ieee) && t.slots[f.idx].state == Flushing
         && (!t.slots[f.idx].remarked && f.ieee in t.marked ==> t.marked[f.ieee] <= f.begun))
    && (f.phase == Reading <==> h.lock.Some? && h.lock.value.tid == tid)
    && (f.phase == Reading ==> h.lock.value.ieee == f.ieee && f.begun <= h.lock.value.at)
    && (f.phase.Done? && (f.phase.persisted || f.phase.dropped) ==> Covered(h, f.ieee, f.begun))
  }

  ghost predicate InFlight(t: Table, i: nat) {
    exists tid :: tid in t.flights && t.flights[tid].idx == i
  }

  ghost predicate FlightsOk(t: Table, h: Home) {
    && (forall tid :: tid in t.flights ==> FlightOk(t, h, tid, t.flights[tid]))
    && (forall a, b :: a in t.flights && b in t.flights && a != b && t.flights[a].idx < CAP ==> t.flights[a].idx != t.flights[b].idx)
  }

  /** A device marked and no longer in the table was saved, or out of the pool,
      after its last mark. */
  ghost predicate MarksKept(t: Table, h: Home) {
    && (forall d :: d in t.marked && FindSlot(t.slots, d).None? ==> Covered(h, d, t.marked[d]))
    && (forall d :: d in t.marked ==> t.marked[d] <= h.now)
  }

  ghost predicate HomeOk(h: Home) {
    && (forall d :: d in h.removed ==> d !in h.pool && d !in h.store && (h.lock.Some? ==> h.lock.value.ieee != d))
    && (h.lock.Some? ==> LockOk(h, h.lock.value))
    && (forall d :: d in h.storedAt ==> h.storedAt[d] <= h.now)
    && (forall d :: d in h.leftAt ==> h.leftAt[d] <= h.now)
    && (forall d :: d in h.changed ==> h.changed[d] <= h.now)
    && (forall d :: d in h.deletedAt ==> h.deletedAt[d] <= h.now)
    && (forall d :: d in h.pool ==> Synced(h, d))
  }

  // The copy under the lock is the pool's since its last change, and no delete
  // came after it.
  ghost predicate LockOk(h: Home, c: Copy) {
    && c.at <= h.now
    && (c.ieee in h.storedAt ==> h.storedAt[c.ieee] <= c.at)
    && (c.ieee in h.deletedAt ==> h.deletedAt[c.ieee] <= c.at)
    && (c.ieee in h.pool && (c.ieee in h.changed ==> h.changed[c.ieee] <= c.at) ==> h.pool[c.ieee] == c.data)
  }

  /** A device stored since it last changed, and not deleted since, is on flash
      as the pool has it. */
  ghost predicate Synced(h: Home, d: nat) {
    d in h.storedAt && (d in h.changed ==> h.changed[d] <= h.storedAt[d]) && (d in h.deletedAt ==> h.deletedAt[d] <= h.storedAt[d])
    ==> d in h.store && d in h.pool && h.store[d] == h.pool[d]
  }

  ghost predicate DevOk(t: Table, h: Home, d: Dev) {
    && (d.since > 0 ==> d.ieee in t.marked && d.since <= t.marked[d.ieee])
    && (d.phase == Over(true) && d.since > 0 ==> Covered(h, d.ieee, d.since))
    && (d.phase.Peeked? && d.since > 0 ==>
         Covered(h, d.ieee, d.since) || (d.phase.idx < |t.slots| && Pending(t.slots[d.phase.idx], d.ieee)))
  }

  ghost predicate OwnOk(t: Table, tid: nat, d: Dev) {
    tid in t.flights ==> d.phase == Own && t.flights[tid].ieee == d.ieee && d.since <= t.flights[tid].begun
  }

  ghost predicate DevsOk(y: Sys) {
    forall tid :: tid in y.devs ==> DevOk(y.tab, y.home, y.devs[tid]) && OwnOk(y.tab, tid, y.devs[tid])
  }

  ghost predicate Core(y: Sys) {
    && TableOk(y.tab) && FlightsOk(y.tab, y.home) && MarksKept(y.tab, y.home) && HomeOk(y.home)
    && Held(y.tab, y.home)
  }

  // ── Finding ───────────────────────────────────────────────────────────

  lemma FindIs(slots: seq<Slot>, i: nat, ieee: nat)
    requires Unique(slots) && i < |slots| && Pending(slots[i], ieee)
    ensures FindSlot(slots, ieee) == Some(i)
  {
  }

  lemma FoundIf(slots: seq<Slot>, i: nat, ieee: nat)
    requires Unique(slots) && i < |slots|
    ensures Pending(slots[i], ieee) ==> FindSlot(slots, ieee) == Some(i)
  {
    if Pending(slots[i], ieee) { FindIs(slots, i, ieee); }
  }

  lemma FindSwap(slots: seq<Slot>, i: nat, x: Slot, ieee: nat)
    requires Unique(slots) && i < |slots| && Unique(slots[i := x]) && (Pending(slots[i], ieee) <==> Pending(x, ieee))
    ensures FindSlot(slots[i := x], ieee) == FindSlot(slots, ieee)
  {
    var f := FindSlot(slots, ieee);
    if f.Some? {
      FindIs(slots[i := x], f.value, ieee);
    } else {
      var slots' := slots[i := x];
      assert forall j :: 0 <= j < |slots'| ==> !Pending(slots'[j], ieee);
    }
  }

  // ── The pool and flash ────────────────────────────────────────────────

  // Coverage is never lost.
  ghost predicate Later(h: Home, h': Home) {
    && h.now <= h'.now
    && (forall d, t :: Covered(h, d, t) ==> Covered(h', d, t))
  }

  lemma PutKeeps(h: Home, ieee: nat, data: int)
    requires HomeOk(h)
    ensures HomeOk(Put(h, ieee, data)) && Later(h, Put(h, ieee, data))
  {
    var h' := Put(h, ieee, data);
    forall d | d in h'.pool
      ensures Synced(h', d)
    {
      assert d in h.pool ==> Synced(h, d);
    }
  }

  lemma ReadFound(h: Home, tid: nat, ieee: nat)
    requires HomeOk(h) && h.lock.None? && ieee in h.pool
    ensures HomeOk(Read(h, tid, ieee))
  {
    var h' := Read(h, tid, ieee);
    assert LockOk(h', h'.lock.value);
    forall d | d in h'.pool
      ensures Synced(h', d)
    {
      assert Synced(h, d);
    }
  }

  lemma ReadGone(h: Home, tid: nat, ieee: nat)
    requires HomeOk(h) && h.lock.None? && ieee !in h.pool
    ensures HomeOk(Read(h, tid, ieee))
  {
    var h' := Read(h, tid, ieee);
    forall d | d in h'.pool
      ensures Synced(h', d)
    {
      assert Synced(h, d);
    }
  }

  lemma ReadKeeps(h: Home, tid: nat, ieee: nat)
    requires HomeOk(h) && h.lock.None?
    ensures HomeOk(Read(h, tid, ieee)) && Later(h, Read(h, tid, ieee))
  {
    if ieee in h.pool { ReadFound(h, tid, ieee); } else { ReadGone(h, tid, ieee); }
  }

  lemma WroteKeeps(h: Home, applied: bool, ok: bool)
    requires HomeOk(h) && h.lock.Some? && (ok ==> applied)
    ensures HomeOk(Wrote(h, applied, ok)) && Later(h, Wrote(h, applied, ok))
    ensures ok ==> forall t: nat :: t <= h.lock.value.at ==> Covered(Wrote(h, applied, ok), h.lock.value.ieee, t)
  {
    var h' := Wrote(h, applied, ok);
    forall d | d in h'.pool
      ensures Synced(h', d)
    {
      assert Synced(h, d);
    }
  }

  lemma TakenOutKeeps(h: Home, ieee: nat)
    requires HomeOk(h)
    ensures HomeOk(TakenOut(h, ieee)) && Later(h, TakenOut(h, ieee))
  {
    var h' := TakenOut(h, ieee);
    forall d | d in h'.pool
      ensures Synced(h', d)
    {
      assert Synced(h, d);
    }
  }

  lemma DeletedKeeps(h: Home, ieee: nat)
    requires HomeOk(h) && h.lock.None?
    ensures HomeOk(Deleted(h, ieee)) && Later(h, Deleted(h, ieee))
  {
    var h' := Deleted(h, ieee);
    forall d | d in h'.pool
      ensures Synced(h', d)
    {
      assert Synced(h, d);
    }
  }

  lemma TickKeeps(h: Home)
    requires HomeOk(h)
    ensures HomeOk(Tick(h)) && Later(h, Tick(h))
  {
    assert forall d :: d in h.pool ==> Synced(h, d);
    assert forall d :: Synced(h, d) ==> Synced(Tick(h), d);
  }

  lemma HomeKeeps(y: Sys, e: Event)
    requires Enabled(y, e) && HomeOk(y.home)
    ensures HomeOk(HomeStep(y, e)) && Later(y.home, HomeStep(y, e))
  {
    match e
    case PoolPut(ieee, data) => PutKeeps(y.home, ieee, data);
    case SaveRead(tid) => ReadKeeps(y.home, tid, y.tab.flights[tid].ieee);
    case SaveWrite(_, applied, ok) => WroteKeeps(y.home, applied, ok);
    case RemovePool(_, ieee) => TakenOutKeeps(y.home, ieee);
    case RemoveStore(tid) => DeletedKeeps(y.home, y.removing[tid]);
    case _ => TickKeeps(y.home);
  }

  // ── The table ─────────────────────────────────────────────────────────

  lemma SwapOk(t: Table, i: nat, x: Slot)
    requires TableOk(t) && i < CAP && (x.state != Free ==> forall j: nat :: j < CAP && j != i ==> !Pending(t.slots[j], x.ieee))
    ensures Unique(t.slots[i := x])
  {
  }

  lemma MarkTable(t: Table, i: nat, ieee: nat, high: bool, now: nat)
    requires TableOk(t) && MarkSlot(t.slots, ieee) == Some(i)
    ensures TableOk(MarkIn(t, i, ieee, high, now)) && FindSlot(MarkIn(t, i, ieee, high, now).slots, ieee) == Some(i)
    ensures forall d :: d != ieee ==> FindSlot(MarkIn(t, i, ieee, high, now).slots, d) == FindSlot(t.slots, d)
  {
    var x := Marked(t.slots[i], ieee, high);
    if FindSlot(t.slots, ieee).Some? {
      assert forall j: nat :: j < CAP && j != i ==> Apart(t.slots[i], t.slots[j]);
    }
    SwapOk(t, i, x);
    FindIs(MarkIn(t, i, ieee, high, now).slots, i, ieee);
    forall d | d != ieee
      ensures FindSlot(MarkIn(t, i, ieee, high, now).slots, d) == FindSlot(t.slots, d)
    {
      FindSwap(t.slots, i, x, d);
    }
  }

  lemma MarkFlights(t: Table, h: Home, i: nat, ieee: nat, high: bool)
    requires TableOk(t) && FlightsOk(t, h) && MarkSlot(t.slots, ieee) == Some(i)
    ensures FlightsOk(MarkIn(t, i, ieee, high, h.now), h)
  {
    var t' := MarkIn(t, i, ieee, high, h.now);
    forall tid | tid in t'.flights
      ensures FlightOk(t', h, tid, t'.flights[tid])
    {
      var f := t.flights[tid];
      assert FlightOk(t, h, tid, f);
      if f.idx < CAP { FoundIf(t.slots, f.idx, ieee); }
    }
  }

  lemma MarkKept(t: Table, h: Home, i: nat, ieee: nat, high: bool)
    requires TableOk(t) && MarksKept(t, h) && MarkSlot(t.slots, ieee) == Some(i)
    ensures MarksKept(MarkIn(t, i, ieee, high, h.now), h)
  {
    MarkTable(t, i, ieee, high, h.now);
  }

  lemma LaunchTable(t: Table, tid: nat, idx: nat, now: nat)
    requires TableOk(t)
    ensures TableOk(LaunchIf(t, tid, idx, now))
    ensures forall d :: FindSlot(LaunchIf(t, tid, idx, now).slots, d) == FindSlot(t.slots, d)
  {
    if idx < CAP && t.slots[idx].state == Dirty {
      var x := Started(t.slots[idx]);
      assert forall j: nat :: j < CAP && j != idx ==> Apart(t.slots[idx], t.slots[j]) && Apart(t.slots[j], t.slots[idx]);
      SwapOk(t, idx, x);
      forall d
        ensures FindSlot(t.slots[idx := x], d) == FindSlot(t.slots, d)
      {
        FindSwap(t.slots, idx, x, d);
      }
    }
  }

  lemma LaunchFlights(t: Table, h: Home, tid: nat, idx: nat)
    requires TableOk(t) && FlightsOk(t, h) && MarksKept(t, h) && tid !in t.flights
    requires h.lock.Some? ==> h.lock.value.tid in t.flights
    ensures FlightsOk(LaunchIf(t, tid, idx, h.now), h)
  {
    var t' := LaunchIf(t, tid, idx, h.now);
    if idx < CAP && t.slots[idx].state == Dirty {
      forall u | u in t'.flights
        ensures FlightOk(t', h, u, t'.flights[u]) && (u != tid ==> t'.flights[u].idx != idx)
      {
        if u != tid { assert FlightOk(t, h, u, t.flights[u]); }
      }
    }
  }

  lemma PhasedFlights(t: Table, h: Home, tid: nat, phase: Phase)
    requires FlightsOk(t, h) && tid in t.flights && FlightOk(t, h, tid, t.flights[tid].(phase := phase))
    ensures FlightsOk(Phased(t, tid, phase), h)
  {
    var t' := Phased(t, tid, phase);
    forall u | u in t'.flights
      ensures FlightOk(t', h, u, t'.flights[u])
    {
      assert FlightOk(t, h, u, t.flights[u]);
    }
  }

  lemma LandedTable(t: Table, h: Home, tid: nat)
    requires TableOk(t) && tid in t.flights && FlightOk(t, h, tid, t.flights[tid]) && t.flights[tid].phase.Done?
    ensures TableOk(Landed(t, tid))
    ensures forall d :: d != t.flights[tid].ieee ==> FindSlot(Landed(t, tid).slots, d) == FindSlot(t.slots, d)
    ensures FindSlot(Landed(t, tid).slots, t.flights[tid].ieee).None? ==>
              FindSlot(t.slots, t.flights[tid].ieee).None?
              || (t.flights[tid].idx < CAP && Landed(t, tid).slots[t.flights[tid].idx].state == Free)
  {
    var f := t.flights[tid];
    if f.idx < CAP {
      var x := Landed(t, tid).slots[f.idx];
      assert forall j: nat :: j < CAP && j != f.idx ==> Apart(t.slots[f.idx], t.slots[j]) && Apart(t.slots[j], t.slots[f.idx]);
      SwapOk(t, f.idx, x);
      if x.state != Free { FindIs(t.slots[f.idx := x], f.idx, f.ieee); }
      forall d | d != f.ieee
        ensures FindSlot(t.slots[f.idx := x], d) == FindSlot(t.slots, d)
      {
        FindSwap(t.slots, f.idx, x, d);
      }
    }
  }

  lemma LandedFlights(t: Table, h: Home, tid: nat)
    requires TableOk(t) && FlightsOk(t, h) && tid in t.flights && t.flights[tid].phase.Done?
    ensures FlightsOk(Landed(t, tid), h)
  {
    var t' := Landed(t, tid);
    forall u | u in t'.flights
      ensures FlightOk(t', h, u, t'.flights[u])
    {
      assert FlightOk(t, h, u, t.flights[u]);
    }
  }

  /** A slot is freed only after a pool copy read after the device's last mark
      was stored, or the device was out of the pool after it. */
  lemma FreedIsCovered(t: Table, h: Home, tid: nat)
    requires FlightsOk(t, h) && tid in t.flights && t.flights[tid].phase.Done? && t.flights[tid].idx < |t.slots|
    requires Landed(t, tid).slots[t.flights[tid].idx].state == Free && t.flights[tid].ieee in t.marked
    ensures Covered(h, t.flights[tid].ieee, t.marked[t.flights[tid].ieee])
  {
    assert FlightOk(t, h, tid, t.flights[tid]);
  }

  lemma LandedKept(t: Table, h: Home, tid: nat)
    requires TableOk(t) && FlightsOk(t, h) && MarksKept(t, h) && tid in t.flights && t.flights[tid].phase.Done?
    ensures MarksKept(Landed(t, tid), h)
  {
    var f := t.flights[tid];
    assert FlightOk(t, h, tid, f);
    LandedTable(t, h, tid);
    if f.idx < CAP && Landed(t, tid).slots[f.idx].state == Free && f.ieee in t.marked { FreedIsCovered(t, h, tid); }
  }

  // A later home keeps what the flights and marks need of it.
  lemma LaterKeeps(t: Table, h: Home, h': Home)
    requires FlightsOk(t, h) && MarksKept(t, h) && Later(h, h') && h'.lock == h.lock
    ensures FlightsOk(t, h') && MarksKept(t, h')
  {
    forall tid | tid in t.flights
      ensures FlightOk(t, h', tid, t.flights[tid])
    {
      assert FlightOk(t, h, tid, t.flights[tid]);
    }
  }

  function AfterRead(t: Table, h: Home, tid: nat): Table
    requires tid in t.flights
  {
    Phased(t, tid, if t.flights[tid].ieee in h.pool then Reading else Done(false, true))
  }

  lemma ReadOwn(t: Table, h: Home, tid: nat)
    requires h.lock.None? && tid in t.flights && FlightOk(t, h, tid, t.flights[tid])
    ensures FlightOk(AfterRead(t, h, tid), Read(h, tid, t.flights[tid].ieee), tid, AfterRead(t, h, tid).flights[tid])
  {
  }

  lemma ReadOther(t: Table, h: Home, tid: nat, u: nat)
    requires h.lock.None? && tid in t.flights && u in t.flights && u != tid && FlightOk(t, h, u, t.flights[u])
    requires Later(h, Read(h, tid, t.flights[tid].ieee))
    ensures FlightOk(AfterRead(t, h, tid), Read(h, tid, t.flights[tid].ieee), u, t.flights[u])
  {
  }

  lemma ReadStep(t: Table, h: Home, tid: nat)
    requires FlightsOk(t, h) && MarksKept(t, h) && HomeOk(h) && h.lock.None? && tid in t.flights && t.flights[tid].phase == Begun
    ensures FlightsOk(AfterRead(t, h, tid), Read(h, tid, t.flights[tid].ieee)) && MarksKept(t, Read(h, tid, t.flights[tid].ieee))
  {
    var t', h' := AfterRead(t, h, tid), Read(h, tid, t.flights[tid].ieee);
    ReadKeeps(h, tid, t.flights[tid].ieee);
    forall u | u in t'.flights
      ensures FlightOk(t', h', u, t'.flights[u])
    {
      if u == tid { ReadOwn(t, h, tid); } else { ReadOther(t, h, tid, u); }
    }
  }

  lemma WriteOwn(t: Table, h: Home, tid: nat, applied: bool, ok: bool)
    requires h.lock.Some? && h.lock.value.tid == tid && tid in t.flights && FlightOk(t, h, tid, t.flights[tid])
    requires ok ==> Covered(Wrote(h, applied, ok), t.flights[tid].ieee, t.flights[tid].begun)
    ensures FlightOk(Phased(t, tid, Done(ok, false)), Wrote(h, applied, ok), tid, t.flights[tid].(phase := Done(ok, false)))
  {
  }

  lemma WriteOther(t: Table, h: Home, tid: nat, applied: bool, ok: bool, u: nat)
    requires h.lock.Some? && h.lock.value.tid == tid && tid in t.flights
    requires u in t.flights && u != tid && FlightOk(t, h, u, t.flights[u]) && Later(h, Wrote(h, applied, ok))
    ensures FlightOk(Phased(t, tid, Done(ok, false)), Wrote(h, applied, ok), u, t.flights[u])
  {
  }

  lemma WriteStep(t: Table, h: Home, tid: nat, applied: bool, ok: bool)
    requires FlightsOk(t, h) && MarksKept(t, h) && HomeOk(h) && h.lock.Some? && h.lock.value.tid == tid && tid in t.flights && (ok ==> applied)
    ensures FlightsOk(Phased(t, tid, Done(ok, false)), Wrote(h, applied, ok)) && MarksKept(t, Wrote(h, applied, ok))
  {
    var h' := Wrote(h, applied, ok);
    var t' := Phased(t, tid, Done(ok, false));
    WroteKeeps(h, applied, ok);
    forall u | u in t'.flights
      ensures FlightOk(t', h', u, t'.flights[u])
    {
      assert FlightOk(t, h, tid, t.flights[tid]);
      if u == tid { WriteOwn(t, h, tid, applied, ok); } else { WriteOther(t, h, tid, applied, ok, u); }
    }
  }

  // ── Every step ────────────────────────────────────────────────────────

  lemma TickTab(t: Table, h: Home)
    requires FlightsOk(t, h) && MarksKept(t, h) && HomeOk(h)
    ensures FlightsOk(t, Tick(h)) && MarksKept(t, Tick(h))
  {
    TickKeeps(h);
    LaterKeeps(t, h, Tick(h));
  }

  lemma DirectFlights(t: Table, h: Home, tid: nat, ieee: nat)
    requires TableOk(t) && FlightsOk(t, h) && tid !in t.flights && (h.lock.Some? ==> h.lock.value.tid in t.flights)
    ensures FlightsOk(t.(flights := t.flights[tid := Flight(CAP, ieee, h.now, Begun)]), h)
  {
    var t' := t.(flights := t.flights[tid := Flight(CAP, ieee, h.now, Begun)]);
    forall u | u in t'.flights
      ensures FlightOk(t', h, u, t'.flights[u])
    {
      if u != tid { assert FlightOk(t, h, u, t.flights[u]); }
    }
  }

  ghost predicate Held(t: Table, h: Home) { h.lock.Some? ==> h.lock.value.tid in t.flights }

  // The table's invariants, with the home as it is before the clock ticks.
  lemma TabKeeps(t: Table, h: Home, y: Sys, e: Event)
    requires Enabled(y, e) && t == y.tab && h == y.home && Core(y)
    requires e.Mark? || e.FlushBegin? || e.Settle?
    ensures TableOk(TabStep(y, e)) && FlightsOk(TabStep(y, e), h) && MarksKept(TabStep(y, e), h)
  {
    match e
    case Mark(tid, ieee, high) =>
      if MarkSlot(t.slots, ieee).Some? {
        var i := MarkSlot(t.slots, ieee).value;
        MarkTable(t, i, ieee, high, h.now);
        MarkFlights(t, h, i, ieee, high);
        MarkKept(t, h, i, ieee, high);
      } else {
        DirectFlights(t, h, tid, ieee);
      }
    case FlushBegin(tid, idx) =>
      LaunchTable(t, tid, idx, h.now);
      LaunchFlights(t, h, tid, idx);
    case Settle(tid) =>
      assert FlightOk(t, h, tid, t.flights[tid]);
      LandedTable(t, h, tid);
      LandedFlights(t, h, tid);
      LandedKept(t, h, tid);
    case _ => assert false;
  }

  lemma LaunchAll(t: Table, h: Home, tid: nat, idx: nat)
    requires TableOk(t) && FlightsOk(t, h) && MarksKept(t, h) && Held(t, h) && tid !in t.flights
    ensures var t' := LaunchIf(t, tid, idx, h.now); TableOk(t') && FlightsOk(t', h) && MarksKept(t', h)
  {
    LaunchTable(t, tid, idx, h.now);
    LaunchFlights(t, h, tid, idx);
  }

  lemma DevFlushIs(y: Sys, tid: nat)
    requires Enabled(y, DevFlush(tid))
    ensures TabStep(y, DevFlush(tid)) == y.tab
            || TabStep(y, DevFlush(tid)) == LaunchIf(y.tab, tid, y.devs[tid].phase.idx, Tick(y.home).now)
  {
  }

  lemma DevFlushTab(y: Sys, tid: nat)
    requires Enabled(y, DevFlush(tid)) && Core(y)
    ensures var t', h' := TabStep(y, DevFlush(tid)), Tick(y.home);
            TableOk(t') && FlightsOk(t', h') && MarksKept(t', h')
  {
    DevFlushIs(y, tid);
    TickTab(y.tab, y.home);
    LaunchAll(y.tab, Tick(y.home), tid, y.devs[tid].phase.idx);
  }

  lemma CoreTab(y: Sys, e: Event)
    requires Enabled(y, e) && Core(y)
    ensures var t', h' := TabStep(y, e), HomeStep(y, e);
            TableOk(t') && FlightsOk(t', h') && MarksKept(t', h')
  {
    var t, h := y.tab, y.home;
    HomeKeeps(y, e);
    match e
    case SaveRead(tid) => ReadStep(t, h, tid);
    case SaveWrite(tid, applied, ok) => WriteStep(t, h, tid, applied, ok);
    case DevFlush(tid) => DevFlushTab(y, tid);
    case PoolPut(_, _) => LaterKeeps(t, h, HomeStep(y, e));
    case RemovePool(_, _) => LaterKeeps(t, h, HomeStep(y, e));
    case RemoveStore(_) => LaterKeeps(t, h, HomeStep(y, e));
    case DevBegin(_, _) => TickTab(t, h);
    case DevPeek(_) => TickTab(t, h);
    case _ =>
      TabKeeps(t, h, y, e);
      TickTab(TabStep(y, e), h);
  }

  lemma HeldStep(y: Sys, e: Event)
    requires Enabled(y, e) && Core(y)
    ensures Held(TabStep(y, e), HomeStep(y, e))
  {
    if e.Settle? { assert FlightOk(y.tab, y.home, e.tid, y.tab.flights[e.tid]); }
  }

  /** Every step of every task keeps the invariants. */
  lemma CoreStep(y: Sys, e: Event)
    requires Enabled(y, e) && Core(y)
    ensures Core(Step(y, e))
  {
    CoreTab(y, e);
    HomeKeeps(y, e);
    HeldStep(y, e);
  }

  // ── Flushing one device ───────────────────────────────────────────────

  lemma DevSettles(t: Table, h: Home, tid: nat, d: Dev)
    requires FlightsOk(t, h) && tid in t.flights && t.flights[tid].phase.Done? && DevOk(t, h, d)
    ensures DevOk(Landed(t, tid), Tick(h), d)
  {
    var f := t.flights[tid];
    assert FlightOk(t, h, tid, f);
    if f.idx < |t.slots| && Landed(t, tid).slots[f.idx].state == Free && f.ieee in t.marked {
      FreedIsCovered(t, h, tid);
    }
  }

  // A peeked slot still holds the device, or the device is covered.
  lemma DevStays(y: Sys, e: Event, d: Dev)
    requires Enabled(y, e) && Core(y) && DevOk(y.tab, y.home, d)
    ensures DevOk(TabStep(y, e), HomeStep(y, e), d)
  {
    if e.Settle? {
      DevSettles(y.tab, y.home, e.tid, d);
    } else {
      HomeKeeps(y, e);
    }
  }

  // Which flights a step starts or keeps.
  lemma FlightsFrom(y: Sys, e: Event, tid: nat)
    requires Enabled(y, e) && tid in TabStep(y, e).flights && tid in y.devs
    ensures !e.DevFlush? || e.tid != tid ==>
              tid in y.tab.flights && TabStep(y, e).flights[tid].ieee == y.tab.flights[tid].ieee
              && TabStep(y, e).flights[tid].begun == y.tab.flights[tid].begun && !(e.Settle? && e.tid == tid)
  {
  }

  lemma OwnStays(y: Sys, e: Event, tid: nat)
    requires Enabled(y, e) && Core(y) && DevsOk(y) && tid in y.devs && tid in Step(y, e).devs && tid in TabStep(y, e).flights
    ensures OwnOk(TabStep(y, e), tid, Step(y, e).devs[tid])
  {
    FlightsFrom(y, e, tid);
    assert OwnOk(y.tab, tid, y.devs[tid]) && DevOk(y.tab, y.home, y.devs[tid]);
    if e.DevFlush? && e.tid == tid {
      assert y.devs[tid].since <= y.home.now + 1;
    } else {
      assert Step(y, e).devs[tid] == y.devs[tid];
    }
  }

  lemma DevOwn(y: Sys, e: Event, tid: nat)
    requires Enabled(y, e) && Core(y) && DevsOk(y) && tid in Step(y, e).devs
    requires (e.DevBegin? || e.DevPeek? || e.DevFlush? || e.Settle?) && e.tid == tid
    ensures DevOk(TabStep(y, e), HomeStep(y, e), Step(y, e).devs[tid])
  {
    HomeKeeps(y, e);
    match e
    case DevPeek(_) =>
      assert DevOk(y.tab, y.home, y.devs[tid]);
    case DevFlush(_) => assert DevOk(y.tab, y.home, y.devs[tid]);
    case Settle(_) =>
      assert DevOk(y.tab, y.home, y.devs[tid]) && OwnOk(y.tab, tid, y.devs[tid]);
      assert FlightOk(y.tab, y.home, tid, y.tab.flights[tid]);
    case _ =>
  }

  lemma DevsStep(y: Sys, e: Event)
    requires Enabled(y, e) && Core(y) && DevsOk(y)
    ensures DevsOk(Step(y, e))
  {
    var z := Step(y, e);
    forall tid | tid in z.devs
      ensures DevOk(z.tab, z.home, z.devs[tid]) && OwnOk(z.tab, tid, z.devs[tid])
    {
      if tid in y.devs && z.devs[tid] == y.devs[tid] { DevStays(y, e, y.devs[tid]); } else { DevOwn(y, e, tid); }
      if tid in y.devs && tid in z.tab.flights { OwnStays(y, e, tid); }
    }
  }

  // ── Runs ──────────────────────────────────────────────────────────────

  function Initial(pool: map<nat, int>, store: map<nat, int>): Sys {
    Sys(Home(pool, store, 1, map[], map[], map[], map[], {}, None),
        Table(seq(CAP, i => Slot(0, Free, false, false)), map[], map[]), map[], map[])
  }

  ghost predicate Link(ys: seq<Sys>, h: seq<Event>, k: nat) {
    k < |h| && k + 1 < |ys| && Enabled(ys[k], h[k]) && ys[k + 1] == Step(ys[k], h[k])
  }

  ghost predicate IsRun(ys: seq<Sys>, h: seq<Event>, pool: map<nat, int>, store: map<nat, int>) {
    |ys| == |h| + 1 && ys[0] == Initial(pool, store) && forall k: nat :: k < |h| ==> Link(ys, h, k)
  }

  lemma {:induction false} CoreRun(ys: seq<Sys>, h: seq<Event>, pool: map<nat, int>, store: map<nat, int>, n: nat)
    requires IsRun(ys, h, pool, store) && n <= |h|
    ensures Core(ys[n]) && DevsOk(ys[n])
    decreases n
  {
    if n > 0 {
      CoreRun(ys, h, pool, store, n - 1);
      assert Link(ys, h, n - 1);
      CoreStep(ys[n - 1], h[n - 1]);
      DevsStep(ys[n - 1], h[n - 1]);
    }
  }

  /** A marked device that has left the table was saved from a pool copy read
      after its last mark, or was out of the pool after it. */
  lemma NoMarkIsLost(ys: seq<Sys>, h: seq<Event>, pool: map<nat, int>, store: map<nat, int>, n: nat, ieee: nat)
    requires IsRun(ys, h, pool, store) && n <= |h| && ieee in ys[n].tab.marked && FindSlot(ys[n].tab.slots, ieee).None?
    ensures Covered(ys[n].home, ieee, ys[n].tab.marked[ieee])
  {
    CoreRun(ys, h, pool, store, n);
  }

  /** Once every change of a device was marked and nothing of it is pending,
      flash holds it as the pool does, unless it was taken out or deleted
      since. */
  lemma QuietIsSaved(ys: seq<Sys>, h: seq<Event>, pool: map<nat, int>, store: map<nat, int>, n: nat, ieee: nat)
    requires IsRun(ys, h, pool, store) && n <= |h|
    requires var s := ys[n];
             && ieee in s.home.pool && ieee in s.tab.marked && FindSlot(s.tab.slots, ieee).None?
             && (ieee in s.home.changed ==> s.home.changed[ieee] <= s.tab.marked[ieee])
             && (ieee in s.home.leftAt ==> s.home.leftAt[ieee] < s.tab.marked[ieee])
             && (ieee in s.home.deletedAt ==> s.home.deletedAt[ieee] < s.tab.marked[ieee])
    ensures ieee in ys[n].home.store && ys[n].home.store[ieee] == ys[n].home.pool[ieee]
  {
    NoMarkIsLost(ys, h, pool, store, n, ieee);
    CoreRun(ys, h, pool, store, n);
    assert Synced(ys[n].home, ieee);
  }

  /** A hard removal is final: after its store delete, with the device out of
      the pool, no interleaving of marks and flushers writes the record back
      until the device is added to the pool again. */
  lemma {:induction false} RemovedStaysOut(ys: seq<Sys>, h: seq<Event>, pool: map<nat, int>, store: map<nat, int>, a: nat, b: nat, tid: nat)
    requires IsRun(ys, h, pool, store) && a < b <= |h| && h[a] == RemoveStore(tid) && tid in ys[a].removing
    requires var ieee := ys[a].removing[tid];
             ieee !in ys[a].home.pool && forall k, data :: a < k < b ==> h[k] != PoolPut(ieee, data)
    ensures ys[a].removing[tid] in ys[b].home.removed && ys[a].removing[tid] !in ys[b].home.store
    decreases b
  {
    CoreRun(ys, h, pool, store, b);
    assert Link(ys, h, b - 1);
    if b > a + 1 {
      RemovedStaysOut(ys, h, pool, store, a, b - 1, tid);
      RemovedStep(ys[b - 1], h[b - 1], ys[a].removing[tid]);
    }
  }

  lemma RemovedStep(y: Sys, e: Event, ieee: nat)
    requires Enabled(y, e) && ieee in y.home.removed && forall data :: e != PoolPut(ieee, data)
    ensures ieee in HomeStep(y, e).removed
  {
    if e.PoolPut? { assert e != PoolPut(e.ieee, e.data) || e.ieee != ieee; }
  }

  /** zap_store_flush_device returns true only when the device's last mark
      before the call was saved, or the device was out of the pool after it. */
  lemma FlushDeviceIsDurable(ys: seq<Sys>, h: seq<Event>, pool: map<nat, int>, store: map<nat, int>, n: nat, tid: nat)
    requires IsRun(ys, h, pool, store) && n <= |h|
    requires tid in ys[n].devs && ys[n].devs[tid].phase == Over(true) && ys[n].devs[tid].since > 0
    ensures Covered(ys[n].home, ys[n].devs[tid].ieee, ys[n].devs[tid].since)
  {
    CoreRun(ys, h, pool, store, n);
    assert DevOk(ys[n].tab, ys[n].home, ys[n].devs[tid]);
  }

  // ── The code ──────────────────────────────────────────────────────────

  lemma {:induction false} FirstPending(slots: seq<Slot>, ieee: nat, i: nat)
    requires i <= |slots| && (forall j :: 0 <= j < i ==> !Pending(slots[j], ieee)) && (i < |slots| ==> Pending(slots[i], ieee))
    ensures FindSlot(slots, ieee) == if i < |slots| then Some(i) else None
    decreases i
  {
    if i > 0 { FirstPending(slots[1..], ieee, i - 1); }
  }

  lemma {:induction false} FirstFree(slots: seq<Slot>, i: nat)
    requires i <= |slots| && (forall j :: 0 <= j < i ==> slots[j].state != Free) && (i < |slots| ==> slots[i].state == Free)
    ensures FindFree(slots) == if i < |slots| then Some(i) else None
    decreases i
  {
    if i > 0 { FirstFree(slots[1..], i - 1); }
  }

  datatype Outcome = Nothing | Taken(ieee: nat) | Busy

  class DirtyTable {
    const dirty: array<Slot>

    constructor ()
      ensures dirty[..] == Initial(map[], map[]).tab.slots && fresh(dirty)
    {
      dirty := new Slot[CAP](_ => Slot(0, Free, false, false));
    }

    method FindSlotLocked(ieee: nat) returns (idx: int)
      ensures idx == match FindSlot(dirty[..], ieee) case None => -1 case Some(i) => i
    {
      for i := 0 to dirty.Length
        invariant forall j :: 0 <= j < i ==> !Pending(dirty[j], ieee)
      {
        if dirty[i].state != Free && dirty[i].ieee == ieee {
          FirstPending(dirty[..], ieee, i);
          return i;
        }
      }
      FirstPending(dirty[..], ieee, dirty.Length);
      return -1;
    }

    method FindFreeSlotLocked() returns (idx: int)
      ensures idx == match FindFree(dirty[..]) case None => -1 case Some(i) => i
    {
      for i := 0 to dirty.Length
        invariant forall j :: 0 <= j < i ==> dirty[j].state != Free
      {
        if dirty[i].state == Free {
          FirstFree(dirty[..], i);
          return i;
        }
      }
      FirstFree(dirty[..], dirty.Length);
      return -1;
    }

    /** A mark's locked region; false when the table is full and the mark has to
        save the pool's copy itself. */
    method MarkLocked(ieee: nat, high: bool) returns (placed: bool)
      modifies dirty
      ensures placed <==> MarkSlot(old(dirty[..]), ieee).Some?
      ensures dirty[..] == match MarkSlot(old(dirty[..]), ieee)
                           case None => old(dirty[..])
                           case Some(i) => old(dirty[..])[i := Marked(old(dirty[..])[i], ieee, high)]
    {
      var slot := FindSlotLocked(ieee);
      if slot < 0 { slot := FindFreeSlotLocked(); }
      if slot < 0 { return false; }
      var s := dirty[slot];
      if s.state == Free {
        dirty[slot] := Slot(ieee, Dirty, false, high);
      } else {
        if high && !s.high { dirty[slot] := dirty[slot].(high := true); }
        if s.state == Flushing { dirty[slot] := dirty[slot].(remarked := true); }
      }
      return true;
    }

    /** A flush's first locked region; `only` limits it to one device. */
    method FlushBegin(idx: nat, only: Option<nat>) returns (o: Outcome)
      requires idx < dirty.Length
      modifies dirty
      ensures var s := old(dirty[idx]);
              && (o == Busy <==> s.state == Flushing)
              && (o == Nothing <==> s.state == Free || (s.state == Dirty && only.Some? && s.ieee != only.value))
              && (o.Taken? ==> o.ieee == s.ieee && dirty[..] == old(dirty[..])[idx := Started(s)])
              && (!o.Taken? ==> dirty[..] == old(dirty[..]))
    {
      var s := dirty[idx];
      if s.state == Flushing { return Busy; }
      if s.state == Free || (only.Some? && s.ieee != only.value) { return Nothing; }
      dirty[idx] := s.(state := Flushing, remarked := false);
      return Taken(s.ieee);
    }

    method FlushSettle(idx: nat, persisted: bool, dropped: bool)
      requires idx < dirty.Length
      modifies dirty
      ensures dirty[..] == old(dirty[..])[idx := Settled(old(dirty[idx]), persisted || dropped)]
    {
      var s := dirty[idx];
      if s.remarked {
        dirty[idx] := s.(state := Dirty, remarked := false);
      } else if persisted || dropped {
        dirty[idx] := s.(state := Free);
      } else {
        dirty[idx] := s.(state := Dirty);
      }
    }

    /** Whether nothing is being written at this instant: the barriers' test. */
    method NoneFlushing() returns (quiet: bool)
      ensures quiet <==> forall i :: 0 <= i < dirty.Length ==> dirty[i].state != Flushing
    {
      for i := 0 to dirty.Length
        invariant forall j :: 0 <= j < i ==> dirty[j].state != Flushing
      {
        if dirty[i].state == Flushing { return false; }
      }
      return true;
    }
  }
}
