/** The rule store's write-back cache: marks, any number of flushers, readers
    that look at the dirty table before flash, and the flush_now barrier, as
    steps of many tasks. A region under a lock is one step, a flash operation
    another. */
module RuleStore {
  import opened Wrappers

  const CAP: nat := 64

  datatype State = Clean | Write | Tombstone

  /** A slot of the dirty table; the payload counts only in state Write. */
  datatype Slot = Slot(id: nat, state: State, flushing: bool, remarked: bool, payload: int)

  /** The outcome of an edit: the rule's payload, or None for a deletion. */
  type Op = Option<int>

  function OpOf(s: Slot): Op { if s.state == Write then Some(s.payload) else None }

  function Stored(nvs: map<nat, int>, id: nat): Op { if id in nvs then Some(nvs[id]) else None }

  function Store(nvs: map<nat, int>, id: nat, op: Op): map<nat, int> {
    if op.Some? then nvs[id := op.value] else nvs - {id}
  }

  // ── The dirty table ───────────────────────────────────────────────────

  predicate Pending(s: Slot, id: nat) { s.state != Clean && s.id == id }

  function FindSlot(slots: seq<Slot>, id: nat): (r: Option<nat>)
    ensures r.Some? ==> r.value < |slots| && Pending(slots[r.value], id)
    ensures r.None? ==> forall i :: 0 <= i < |slots| ==> !Pending(slots[i], id)
  {
    if slots == [] then None
    else if Pending(slots[0], id) then Some(0)
    else match FindSlot(slots[1..], id) case None => None case Some(i) => Some(i + 1)
  }

  function FindFree(slots: seq<Slot>): (r: Option<nat>)
    ensures r.Some? ==> r.value < |slots| && slots[r.value].state == Clean
    ensures r.None? ==> forall i :: 0 <= i < |slots| ==> slots[i].state != Clean
  {
    if slots == [] then None
    else if slots[0].state == Clean then Some(0)
    else match FindFree(slots[1..]) case None => None case Some(i) => Some(i + 1)
  }

  /** The slot a mark of `id` goes to: its own, else a free one; None when the
      table is full. */
  function MarkSlot(slots: seq<Slot>, id: nat): (r: Option<nat>)
    ensures r.Some? ==> r.value < |slots| && (Pending(slots[r.value], id) || slots[r.value].state == Clean)
  {
    if FindSlot(slots, id).Some? then FindSlot(slots, id) else FindFree(slots)
  }

  function Marked(s: Slot, id: nat, op: Op): Slot {
    Slot(id, if op.Some? then Write else Tombstone, s.flushing, s.flushing, if op.Some? then op.value else 0)
  }

  predicate Startable(s: Slot) { s.state != Clean && !s.flushing }

  function Started(s: Slot): Slot { s.(flushing := true, remarked := false) }

  function Settled(s: Slot, ok: bool): Slot {
    if s.remarked then s.(flushing := false, remarked := false)
    else if ok then s.(flushing := false, state := Clean)
    else s.(flushing := false)
  }

  // ── Tasks ─────────────────────────────────────────────────────────────

  /** A flusher between taking a slot's snapshot and settling the slot. */
  datatype Flight = Flight(idx: nat, id: nat, op: Op, ver: nat, written: bool, ok: bool)

  /** A mark that met a full table and goes to flash itself. */
  datatype Direct = Direct(id: nat, op: Op)

  datatype ReadPhase = Entered | Missed | Returned(r: Op)

  /** A rule_store_load of `id`; `seen` is every value the rule had, as an edit
      history, since the call began. */
  datatype Reader = Reader(id: nat, phase: ReadPhase, seen: set<Op>)

  datatype Stage = Visiting | Waited | Over

  /** A rule_store_flush_now: `targets` is the version of every edit pending
      when it was called, `base` how many deferred writes had failed by then. */
  datatype Now = Now(pass: nat, i: nat, stage: Stage, targets: map<nat, nat>, base: nat)

  datatype Edit = Edit(id: nat, op: Op)

  /** The dirty table and flash. Edits are numbered, `edits` gives each one;
      `vers[i]` is the one that slot i holds, `last` and `held` are each rule's
      newest one and the one flash holds now. `failures` counts the deferred
      writes that failed. */
  datatype Table = Table(slots: seq<Slot>, vers: seq<nat>, nvs: map<nat, int>,
                         clock: nat, last: map<nat, nat>, held: map<nat, nat>, failures: nat,
                         flights: map<nat, Flight>, edits: map<nat, Edit>)

  /** `loader` is what a rule_store_load_all read from flash while it holds the
      flash lock. */
  datatype Sys = Sys(tab: Table, directs: map<nat, Direct>, readers: map<nat, Reader>,
                     nows: map<nat, Now>, loader: Option<map<nat, int>>)

  datatype Event =
    | Mark(tid: nat, id: nat, op: Op)
    | DirectWrite(tid: nat)
    | FlushBegin(tid: nat, idx: nat)
    | FlushWrite(tid: nat, applied: bool, ok: bool)
    | FlushSettle(tid: nat)
    | ReadBegin(tid: nat, id: nat)
    | ReadOverlay(tid: nat)
    | ReadNvs(tid: nat)
    | LoadBegin
    | LoadMerge
    | NowBegin(tid: nat)
    | NowVisit(tid: nat)
    | NowWait(tid: nat)
    | NowCheck(tid: nat)

  /** What a reader should see of `id`: the pending edit, else flash. */
  function Abs(s: Table, id: nat): Op {
    match FindSlot(s.slots, id)
    case Some(i) => OpOf(s.slots[i])
    case None => Stored(s.nvs, id)
  }

  ghost predicate Quiet(s: Table) {
    forall i :: 0 <= i < |s.slots| ==> !s.slots[i].flushing
  }

  ghost predicate AllClean(s: Table) {
    forall i :: 0 <= i < |s.slots| ==> s.slots[i].state == Clean
  }

  // A mark that goes to slot i.
  function MarkIn(s: Table, i: nat, id: nat, op: Op): Table
    requires i < |s.slots| && i < |s.vers|
  {
    s.(slots := s.slots[i := Marked(s.slots[i], id, op)], vers := s.vers[i := s.clock + 1],
       clock := s.clock + 1, last := s.last[id := s.clock + 1], edits := s.edits[s.clock + 1 := Edit(id, op)])
  }

  function DirectDone(s: Table, d: Direct): Table {
    s.(nvs := Store(s.nvs, d.id, d.op), clock := s.clock + 1,
       last := s.last[d.id := s.clock + 1], held := s.held[d.id := s.clock + 1],
       edits := s.edits[s.clock + 1 := Edit(d.id, d.op)])
  }

  // A flusher takes slot idx's snapshot.
  function Launch(s: Table, tid: nat, idx: nat): Table
    requires idx < |s.slots| && idx < |s.vers|
  {
    var slot := s.slots[idx];
    s.(slots := s.slots[idx := Started(slot)],
       flights := s.flights[tid := Flight(idx, slot.id, OpOf(slot), s.vers[idx], false, false)])
  }

  // A slot with nothing pending, or another flusher's, is left alone.
  function LaunchIf(s: Table, tid: nat, idx: nat): Table
    requires |s.slots| == |s.vers|
  {
    if idx < |s.slots| && Startable(s.slots[idx]) then Launch(s, tid, idx) else s
  }

  // Its flash operation; a failed one may have reached flash all the same.
  function Wrote(s: Table, tid: nat, applied: bool, ok: bool): Table
    requires tid in s.flights
  {
    var f := s.flights[tid];
    s.(nvs := if applied then Store(s.nvs, f.id, f.op) else s.nvs,
       held := if applied then s.held[f.id := f.ver] else s.held,
       failures := if ok then s.failures else s.failures + 1,
       flights := s.flights[tid := f.(written := true, ok := ok)])
  }

  function Landed(s: Table, tid: nat): Table
    requires tid in s.flights && s.flights[tid].idx < |s.slots|
  {
    var f := s.flights[tid];
    s.(slots := s.slots[f.idx := Settled(s.slots[f.idx], f.ok)], flights := s.flights - {tid})
  }

  /** When a step can be taken. Marks of one rule are issued one at a time; a
      write or read of flash waits for a load_all that holds the flash lock. */
  ghost predicate Enabled(y: Sys, e: Event) {
    match e
    case Mark(tid, id, _) => tid !in y.directs && forall t :: t in y.directs ==> y.directs[t].id != id
    case DirectWrite(tid) => tid in y.directs && y.loader.None?
    case FlushBegin(tid, idx) => tid !in y.tab.flights && tid !in y.nows && idx < CAP
    case FlushWrite(tid, applied, ok) => tid in y.tab.flights && !y.tab.flights[tid].written && y.loader.None? && (ok ==> applied)
    case FlushSettle(tid) => tid in y.tab.flights && y.tab.flights[tid].written && y.tab.flights[tid].idx < |y.tab.slots|
    case ReadBegin(tid, _) => tid !in y.readers
    case ReadOverlay(tid) => tid in y.readers && y.readers[tid].phase == Entered
    case ReadNvs(tid) => tid in y.readers && y.readers[tid].phase == Missed && y.loader.None?
    case LoadBegin => y.loader.None?
    case LoadMerge => y.loader.Some?
    case NowBegin(tid) => tid !in y.nows && tid !in y.tab.flights
    case NowVisit(tid) => tid in y.nows && tid !in y.tab.flights && y.nows[tid].stage == Visiting && y.nows[tid].i < CAP
    case NowWait(tid) =>
      tid in y.nows && tid !in y.tab.flights && y.nows[tid].stage == Visiting && y.nows[tid].i == CAP && Quiet(y.tab)
    case NowCheck(tid) => tid in y.nows && y.nows[tid].stage == Waited
  }

  /** The versions pending now. */
  function Targets(s: Table): map<nat, nat>
    requires |s.vers| == |s.slots|
  {
    map id | id in s.last && FindSlot(s.slots, id).Some? :: s.vers[FindSlot(s.slots, id).value]
  }

  ghost function Checked(s: Table, n: Now): Now {
    if n.pass >= 2 || AllClean(s) then n.(stage := Over) else Now(2, 0, Visiting, n.targets, n.base)
  }

  function Onward(nows: map<nat, Now>, tid: nat): map<nat, Now> {
    if tid in nows then nows[tid := nows[tid].(i := nows[tid].i + 1)] else nows
  }

  function Phased(y: Sys, tid: nat, phase: ReadPhase): map<nat, Reader>
    requires tid in y.readers
  {
    y.readers[tid := y.readers[tid].(phase := phase)]
  }

  /** What a step does to the table and flash. */
  function TabStep(y: Sys, e: Event): Table
    requires |y.tab.slots| == CAP == |y.tab.vers|
  {
    var s := y.tab;
    match e
    case Mark(_, id, op) => (match MarkSlot(s.slots, id) case None => s case Some(i) => MarkIn(s, i, id, op))
    case DirectWrite(tid) => if tid in y.directs then DirectDone(s, y.directs[tid]) else s
    case FlushBegin(tid, idx) => LaunchIf(s, tid, idx)
    case FlushWrite(tid, applied, ok) => if tid in s.flights then Wrote(s, tid, applied, ok) else s
    case FlushSettle(tid) => if tid in s.flights && s.flights[tid].idx < CAP then Landed(s, tid) else s
    case NowVisit(tid) => if tid in y.nows then LaunchIf(s, tid, y.nows[tid].i) else s
    case _ => s
  }

  // A mark that finds the table full goes to flash itself.
  ghost function DirectsNext(y: Sys, e: Event): map<nat, Direct>
    requires Enabled(y, e)
  {
    match e
    case Mark(tid, id, op) => if MarkSlot(y.tab.slots, id).None? then y.directs[tid := Direct(id, op)] else y.directs
    case DirectWrite(tid) => y.directs - {tid}
    case _ => y.directs
  }

  ghost function ReadersNext(y: Sys, e: Event): map<nat, Reader>
    requires Enabled(y, e)
  {
    var s := y.tab;
    match e
    case ReadBegin(tid, id) => y.readers[tid := Reader(id, Entered, {Abs(s, id)})]
    case ReadOverlay(tid) =>
      var id := y.readers[tid].id;
      Phased(y, tid, if FindSlot(s.slots, id).Some? then Returned(Abs(s, id)) else Missed)
    case ReadNvs(tid) => Phased(y, tid, Returned(Stored(s.nvs, y.readers[tid].id)))
    case _ => y.readers
  }

  // What a step does to the barriers.
  ghost function NowsNext(y: Sys, e: Event): map<nat, Now>
    requires |y.tab.slots| == CAP == |y.tab.vers| && Enabled(y, e)
  {
    var s, nows := y.tab, y.nows;
    match e
    case FlushSettle(tid) => Onward(nows, tid)
    case NowBegin(tid) => nows[tid := Now(1, 0, Visiting, Targets(s), s.failures)]
    case NowVisit(tid) => if Startable(s.slots[nows[tid].i]) then nows else Onward(nows, tid)
    case NowWait(tid) => nows[tid := nows[tid].(stage := Waited)]
    case NowCheck(tid) => nows[tid := Checked(s, nows[tid])]
    case _ => nows
  }

  // Every reader sees the value its rule has now.
  function Watched(s: Table, readers: map<nat, Reader>): map<nat, Reader> {
    map t | t in readers :: readers[t].(seen := readers[t].seen + {Abs(s, readers[t].id)})
  }

  ghost function Step(y: Sys, e: Event): Sys
    requires |y.tab.slots| == CAP == |y.tab.vers| && Enabled(y, e)
  {
    var s' := TabStep(y, e);
    Sys(s', DirectsNext(y, e), Watched(s', ReadersNext(y, e)), NowsNext(y, e),
        if e.LoadBegin? then Some(y.tab.nvs) else if e.LoadMerge? then None else y.loader)
  }

  // ── Invariants ────────────────────────────────────────────────────────

  ghost predicate TableOk(s: Table) {
    && |s.slots| == CAP == |s.vers|
    && (forall i :: 0 <= i < CAP && s.slots[i].state == Clean ==> !s.slots[i].flushing)
    && Unique(s.slots)
  }

  // A flight owns its slot; unless re-marked, the slot still holds its snapshot.
  ghost predicate FlightOk(s: Table, f: Flight) {
    && f.idx < |s.slots| && f.idx < |s.vers|
    && var slot := s.slots[f.idx];
    && slot.state != Clean && slot.flushing && slot.id == f.id && f.ver <= s.vers[f.idx]
    && (!slot.remarked ==> OpOf(slot) == f.op && s.vers[f.idx] == f.ver)
    && (f.ok ==> f.written)
    && (!f.written && f.id in s.held ==> s.held[f.id] <= f.ver)
    && (f.written && f.ok ==> Stored(s.nvs, f.id) == f.op && f.id in s.held && s.held[f.id] >= f.ver)
  }

  ghost predicate FlightsOk(s: Table) {
    && (forall t :: t in s.flights ==> FlightOk(s, s.flights[t]))
    && (forall t, u :: t in s.flights && u in s.flights && t != u ==> s.flights[t].idx != s.flights[u].idx)
    && (forall i :: 0 <= i < |s.slots| && s.slots[i].flushing ==> InFlight(s, i))
  }

  ghost predicate InFlight(s: Table, i: nat) {
    exists t :: t in s.flights && s.flights[t].idx == i
  }

  ghost predicate DirectsOk(s: Table, directs: map<nat, Direct>) {
    && (forall t :: t in directs ==> FindSlot(s.slots, directs[t].id).None?)
    && (forall t, u :: t in directs && u in directs && t != u ==> directs[t].id != directs[u].id)
  }

  // The newest edit of a rule is in its slot, or on flash.
  ghost predicate VersOk(s: Table) {
    && (forall i :: 0 <= i < |s.slots| && i < |s.vers| && s.slots[i].state != Clean ==>
         s.slots[i].id in s.last && s.last[s.slots[i].id] == s.vers[i])
    && (forall id :: id in s.last && FindSlot(s.slots, id).None? ==> id in s.held && s.held[id] >= s.last[id])
    && (forall id :: id in s.last ==> s.last[id] <= s.clock)
    && (forall id :: id in s.held ==> id in s.last && s.held[id] <= s.last[id])
  }

  // What a reader that found nothing pending may still read from flash.
  ghost predicate ReaderOk(s: Table, r: Reader) {
    && Abs(s, r.id) in r.seen
    && (r.phase == Missed ==>
         && Stored(s.nvs, r.id) in r.seen
         && forall t :: t in s.flights && s.flights[t].id == r.id ==> s.flights[t].op in r.seen)
    && (r.phase.Returned? ==> r.phase.r in r.seen)
  }

  ghost predicate ReadersOk(y: Sys) {
    forall t :: t in y.readers ==> ReaderOk(y.tab, y.readers[t])
  }

  ghost predicate Good(s: Table) { TableOk(s) && FlightsOk(s) && VersOk(s) }

  ghost predicate Core(y: Sys) {
    Good(y.tab) && DirectsOk(y.tab, y.directs) && (y.loader.Some? ==> y.loader.value == y.tab.nvs)
  }

  // ── Finding ───────────────────────────────────────────────────────────

  predicate Apart(a: Slot, b: Slot) { a.state == Clean || b.state == Clean || a.id != b.id }

  ghost predicate Unique(slots: seq<Slot>) {
    forall i: nat, j: nat :: i < j < |slots| ==> Apart(slots[i], slots[j])
  }

  lemma FindIs(slots: seq<Slot>, i: nat, id: nat)
    requires Unique(slots) && i < |slots| && Pending(slots[i], id)
    ensures FindSlot(slots, id) == Some(i)
  {
  }

  // A slot replaced by one that is as pending for `id` does not change where it is found.
  lemma FindSwap(slots: seq<Slot>, i: nat, x: Slot, id: nat)
    requires Unique(slots) && i < |slots| && Unique(slots[i := x]) && (Pending(slots[i], id) <==> Pending(x, id))
    ensures FindSlot(slots[i := x], id) == FindSlot(slots, id)
  {
    var f := FindSlot(slots, id);
    if f.Some? {
      FindIs(slots[i := x], f.value, id);
    } else {
      var slots' := slots[i := x];
      assert forall j :: 0 <= j < |slots'| ==> !Pending(slots'[j], id);
    }
  }

  // ── The steps keep the table and the flights ──────────────────────────

  // No flight is for a rule that has no slot.
  lemma NoFlight(s: Table, id: nat, t: nat)
    requires TableOk(s) && FlightsOk(s) && FindSlot(s.slots, id).None? && t in s.flights
    ensures s.flights[t].id != id
  {
    assert FlightOk(s, s.flights[t]);
  }

  // Flights of one rule are one flight.
  lemma OneFlight(s: Table, t: nat, u: nat)
    requires TableOk(s) && FlightsOk(s) && t in s.flights && u in s.flights && t != u
    ensures s.flights[t].id != s.flights[u].id
  {
    assert FlightOk(s, s.flights[t]) && FlightOk(s, s.flights[u]);
  }

  lemma MarkTable(s: Table, id: nat, op: Op, i: nat)
    requires TableOk(s) && MarkSlot(s.slots, id) == Some(i)
    ensures TableOk(MarkIn(s, i, id, op)) && FindSlot(MarkIn(s, i, id, op).slots, id) == Some(i)
  {
    FindIs(MarkIn(s, i, id, op).slots, i, id);
  }

  lemma MarkElsewhere(s: Table, id: nat, op: Op, i: nat, other: nat)
    requires TableOk(s) && MarkSlot(s.slots, id) == Some(i) && other != id
    ensures FindSlot(MarkIn(s, i, id, op).slots, other) == FindSlot(s.slots, other)
  {
    MarkTable(s, id, op, i);
    FindSwap(s.slots, i, Marked(s.slots[i], id, op), other);
  }

  lemma SameInFlight(s: Table, s': Table, i: nat)
    requires InFlight(s, i) && forall t :: t in s.flights ==> t in s'.flights && s'.flights[t].idx == s.flights[t].idx
    ensures InFlight(s', i)
  {
    var t :| t in s.flights && s.flights[t].idx == i;
    assert t in s'.flights && s'.flights[t].idx == i;
  }

  lemma MarkFlights(s: Table, id: nat, op: Op, i: nat)
    requires TableOk(s) && FlightsOk(s) && VersOk(s) && MarkSlot(s.slots, id) == Some(i)
    ensures FlightsOk(MarkIn(s, i, id, op))
  {
    var s' := MarkIn(s, i, id, op);
    forall t | t in s'.flights
      ensures FlightOk(s', s'.flights[t])
    {
      assert FlightOk(s, s.flights[t]);
    }
    forall j | 0 <= j < CAP && s'.slots[j].flushing
      ensures InFlight(s', j)
    {
      SameInFlight(s, s', j);
    }
  }

  lemma MarkVers(s: Table, id: nat, op: Op, i: nat)
    requires TableOk(s) && VersOk(s) && MarkSlot(s.slots, id) == Some(i)
    ensures VersOk(MarkIn(s, i, id, op))
  {
    var s' := MarkIn(s, i, id, op);
    MarkTable(s, id, op, i);
    forall other | other in s'.last && FindSlot(s'.slots, other).None?
      ensures other in s'.held && s'.held[other] >= s'.last[other]
    {
      MarkElsewhere(s, id, op, i, other);
    }
  }

  lemma MarkDirects(s: Table, directs: map<nat, Direct>, id: nat, op: Op, i: nat)
    requires TableOk(s) && DirectsOk(s, directs) && MarkSlot(s.slots, id) == Some(i) && forall t :: t in directs ==> directs[t].id != id
    ensures DirectsOk(MarkIn(s, i, id, op), directs)
  {
    forall t | t in directs
      ensures FindSlot(MarkIn(s, i, id, op).slots, directs[t].id).None?
    {
      MarkElsewhere(s, id, op, i, directs[t].id);
    }
  }

  lemma MarkGood(s: Table, id: nat, op: Op, i: nat)
    requires Good(s) && MarkSlot(s.slots, id) == Some(i)
    ensures Good(MarkIn(s, i, id, op))
  {
    MarkTable(s, id, op, i);
    MarkFlights(s, id, op, i);
    MarkVers(s, id, op, i);
  }

  lemma DirectFlight(s: Table, d: Direct, t: nat)
    requires TableOk(s) && FlightsOk(s) && FindSlot(s.slots, d.id).None? && t in s.flights
    ensures FlightOk(DirectDone(s, d), s.flights[t])
  {
    NoFlight(s, d.id, t);
    assert FlightOk(s, s.flights[t]);
    StoreElsewhere(s.nvs, d.id, d.op, s.flights[t].id);
  }

  lemma DirectVers(s: Table, d: Direct)
    requires TableOk(s) && VersOk(s) && FindSlot(s.slots, d.id).None?
    ensures VersOk(DirectDone(s, d))
  {
  }

  lemma DirectGood(s: Table, d: Direct)
    requires Good(s) && FindSlot(s.slots, d.id).None?
    ensures Good(DirectDone(s, d))
  {
    var s' := DirectDone(s, d);
    DirectVers(s, d);
    forall t | t in s'.flights
      ensures FlightOk(s', s'.flights[t])
    {
      DirectFlight(s, d, t);
    }
    forall j | 0 <= j < CAP && s'.slots[j].flushing
      ensures InFlight(s', j)
    {
      SameInFlight(s, s', j);
    }
  }

  lemma LaunchTable(s: Table, tid: nat, idx: nat)
    requires TableOk(s) && idx < CAP && Startable(s.slots[idx])
    ensures TableOk(Launch(s, tid, idx))
  {
  }

  lemma LaunchFinds(s: Table, tid: nat, idx: nat, id: nat)
    requires TableOk(s) && idx < CAP && Startable(s.slots[idx])
    ensures FindSlot(Launch(s, tid, idx).slots, id) == FindSlot(s.slots, id)
  {
    FindSwap(s.slots, idx, Started(s.slots[idx]), id);
  }

  lemma LaunchNew(s: Table, tid: nat, idx: nat)
    requires Good(s) && tid !in s.flights && idx < CAP && Startable(s.slots[idx])
    ensures FlightOk(Launch(s, tid, idx), Launch(s, tid, idx).flights[tid])
  {
    assert s.last[s.slots[idx].id] == s.vers[idx];
  }

  lemma LaunchOld(s: Table, tid: nat, idx: nat, t: nat)
    requires t in s.flights && t != tid && FlightOk(s, s.flights[t])
    requires idx < |s.slots| == |s.vers| && Startable(s.slots[idx])
    ensures FlightOk(Launch(s, tid, idx), Launch(s, tid, idx).flights[t]) && s.flights[t].idx != idx
  {
  }

  lemma LaunchInFlight(s: Table, tid: nat, idx: nat, j: nat)
    requires |s.slots| == |s.vers| == CAP && FlightsOk(s) && tid !in s.flights && idx < CAP && Startable(s.slots[idx])
    requires j < CAP && Launch(s, tid, idx).slots[j].flushing
    ensures InFlight(Launch(s, tid, idx), j)
  {
    var s' := Launch(s, tid, idx);
    if j == idx { assert s'.flights[tid].idx == j; } else { SameInFlight(s, s', j); }
  }

  lemma LaunchFlights(s: Table, tid: nat, idx: nat)
    requires Good(s) && tid !in s.flights && idx < CAP && Startable(s.slots[idx])
    ensures FlightsOk(Launch(s, tid, idx))
  {
    var s' := Launch(s, tid, idx);
    forall t | t in s'.flights
      ensures FlightOk(s', s'.flights[t]) && (t != tid ==> s'.flights[t].idx != idx)
    {
      if t == tid { LaunchNew(s, tid, idx); } else { LaunchOld(s, tid, idx, t); }
    }
    forall j | 0 <= j < CAP && s'.slots[j].flushing
      ensures InFlight(s', j)
    {
      LaunchInFlight(s, tid, idx, j);
    }
  }

  lemma LaunchVers(s: Table, tid: nat, idx: nat)
    requires TableOk(s) && VersOk(s) && idx < CAP && Startable(s.slots[idx])
    ensures VersOk(Launch(s, tid, idx))
    ensures forall id: nat :: FindSlot(Launch(s, tid, idx).slots, id) == FindSlot(s.slots, id)
  {
    forall id: nat
      ensures FindSlot(Launch(s, tid, idx).slots, id) == FindSlot(s.slots, id)
    {
      LaunchFinds(s, tid, idx, id);
    }
  }

  lemma LaunchGood(s: Table, tid: nat, idx: nat)
    requires Good(s) && tid !in s.flights && idx < CAP && Startable(s.slots[idx])
    ensures Good(Launch(s, tid, idx))
  {
    LaunchTable(s, tid, idx);
    LaunchFlights(s, tid, idx);
    LaunchVers(s, tid, idx);
  }

  lemma LaunchIfGood(s: Table, tid: nat, idx: nat)
    requires Good(s) && tid !in s.flights
    ensures Good(LaunchIf(s, tid, idx))
  {
    if idx < CAP && Startable(s.slots[idx]) { LaunchGood(s, tid, idx); }
  }

  lemma LaunchIfFinds(s: Table, tid: nat, idx: nat, id: nat)
    requires TableOk(s)
    ensures FindSlot(LaunchIf(s, tid, idx).slots, id) == FindSlot(s.slots, id)
    ensures Abs(LaunchIf(s, tid, idx), id) == Abs(s, id)
  {
    if idx < CAP && Startable(s.slots[idx]) { LaunchFinds(s, tid, idx, id); }
  }

  lemma LaunchIfDirects(s: Table, directs: map<nat, Direct>, tid: nat, idx: nat)
    requires TableOk(s) && DirectsOk(s, directs)
    ensures DirectsOk(LaunchIf(s, tid, idx), directs)
  {
    forall t | t in directs
      ensures FindSlot(LaunchIf(s, tid, idx).slots, directs[t].id).None?
    {
      LaunchIfFinds(s, tid, idx, directs[t].id);
    }
  }

  lemma LandedDirects(s: Table, directs: map<nat, Direct>, tid: nat)
    requires TableOk(s) && DirectsOk(s, directs) && tid in s.flights && FlightOk(s, s.flights[tid])
    ensures DirectsOk(Landed(s, tid), directs)
  {
    LandedTable(s, tid);
    forall t | t in directs
      ensures FindSlot(Landed(s, tid).slots, directs[t].id).None?
    {
      LandedElsewhere(s, tid, directs[t].id);
    }
  }

  lemma WroteFlights(s: Table, tid: nat, applied: bool, ok: bool)
    requires TableOk(s) && FlightsOk(s) && tid in s.flights && (ok ==> applied)
    ensures FlightsOk(Wrote(s, tid, applied, ok))
  {
    var s' := Wrote(s, tid, applied, ok);
    var f := s.flights[tid];
    forall t | t in s'.flights
      ensures FlightOk(s', s'.flights[t])
    {
      assert FlightOk(s, s.flights[t]);
      StoreElsewhere(s.nvs, f.id, f.op, s.flights[t].id);
      if t != tid { OneFlight(s, t, tid); }
    }
    forall j | 0 <= j < CAP && s'.slots[j].flushing
      ensures InFlight(s', j)
    {
      SameInFlight(s, s', j);
    }
  }

  lemma WroteVers(s: Table, tid: nat, applied: bool, ok: bool)
    requires TableOk(s) && VersOk(s) && tid in s.flights && FlightOk(s, s.flights[tid])
    ensures VersOk(Wrote(s, tid, applied, ok))
  {
    var f := s.flights[tid];
    assert s.slots[f.idx].id == f.id;
  }

  lemma WroteGood(s: Table, tid: nat, applied: bool, ok: bool)
    requires Good(s) && tid in s.flights && (ok ==> applied)
    ensures Good(Wrote(s, tid, applied, ok))
  {
    WroteFlights(s, tid, applied, ok);
    WroteVers(s, tid, applied, ok);
  }

  lemma LandedTable(s: Table, tid: nat)
    requires TableOk(s) && tid in s.flights && FlightOk(s, s.flights[tid])
    ensures TableOk(Landed(s, tid)) && FindSlot(s.slots, s.flights[tid].id) == Some(s.flights[tid].idx)
    ensures FindSlot(Landed(s, tid).slots, s.flights[tid].id)
            == if Landed(s, tid).slots[s.flights[tid].idx].state == Clean then None else Some(s.flights[tid].idx)
  {
    var s', f := Landed(s, tid), s.flights[tid];
    FindIs(s.slots, f.idx, f.id);
    if s'.slots[f.idx].state != Clean {
      FindIs(s'.slots, f.idx, f.id);
    } else {
      assert forall j :: 0 <= j < CAP ==> !Pending(s'.slots[j], f.id);
    }
  }

  lemma LandedElsewhere(s: Table, tid: nat, id: nat)
    requires TableOk(s) && tid in s.flights && FlightOk(s, s.flights[tid]) && id != s.flights[tid].id
    ensures FindSlot(Landed(s, tid).slots, id) == FindSlot(s.slots, id)
  {
    LandedTable(s, tid);
    FindSwap(s.slots, s.flights[tid].idx, Landed(s, tid).slots[s.flights[tid].idx], id);
  }

  lemma LandedFlights(s: Table, tid: nat)
    requires TableOk(s) && FlightsOk(s) && tid in s.flights && FlightOk(s, s.flights[tid])
    ensures FlightsOk(Landed(s, tid))
  {
    var s', f := Landed(s, tid), s.flights[tid];
    forall t | t in s'.flights
      ensures FlightOk(s', s'.flights[t])
    {
      assert FlightOk(s, s.flights[t]);
    }
    forall j | 0 <= j < CAP && s'.slots[j].flushing
      ensures InFlight(s', j)
    {
      assert InFlight(s, j);
      var t :| t in s.flights && s.flights[t].idx == j;
      assert t in s'.flights && s'.flights[t].idx == j;
    }
  }

  lemma LandedVers(s: Table, tid: nat)
    requires TableOk(s) && VersOk(s) && tid in s.flights && FlightOk(s, s.flights[tid])
    ensures VersOk(Landed(s, tid))
  {
    LandedTable(s, tid);
    forall id: nat | id != s.flights[tid].id
      ensures FindSlot(Landed(s, tid).slots, id) == FindSlot(s.slots, id)
    {
      LandedElsewhere(s, tid, id);
    }
  }

  lemma LandedGood(s: Table, tid: nat)
    requires Good(s) && tid in s.flights
    ensures Good(Landed(s, tid))
  {
    assert FlightOk(s, s.flights[tid]);
    LandedTable(s, tid);
    LandedFlights(s, tid);
    LandedVers(s, tid);
  }

  lemma TabGood(y: Sys, e: Event)
    requires Core(y) && Enabled(y, e)
    ensures Good(TabStep(y, e))
  {
    var s := y.tab;
    match e
    case Mark(_, id, op) => if MarkSlot(s.slots, id).Some? { MarkGood(s, id, op, MarkSlot(s.slots, id).value); }
    case DirectWrite(tid) => DirectGood(s, y.directs[tid]);
    case FlushBegin(tid, idx) => LaunchIfGood(s, tid, idx);
    case FlushWrite(tid, applied, ok) => WroteGood(s, tid, applied, ok);
    case FlushSettle(tid) => LandedGood(s, tid);
    case NowVisit(tid) => LaunchIfGood(s, tid, y.nows[tid].i);
    case _ =>
  }

  // Rules with a direct save under way stay without a slot.
  lemma TabDirects(y: Sys, e: Event)
    requires Core(y) && Enabled(y, e)
    ensures DirectsOk(TabStep(y, e), y.directs)
  {
    var s := y.tab;
    match e
    case Mark(_, id, op) => if MarkSlot(s.slots, id).Some? { MarkDirects(s, y.directs, id, op, MarkSlot(s.slots, id).value); }
    case FlushBegin(tid, idx) => LaunchIfDirects(s, y.directs, tid, idx);
    case FlushSettle(tid) =>
      assert FlightOk(s, s.flights[tid]);
      LandedDirects(s, y.directs, tid);
    case NowVisit(tid) => LaunchIfDirects(s, y.directs, tid, y.nows[tid].i);
    case _ =>
  }

  lemma StepTab(y: Sys, e: Event)
    requires Core(y) && Enabled(y, e)
    ensures Step(y, e).tab == TabStep(y, e)
    ensures Step(y, e).loader.Some? ==> Step(y, e).loader.value == TabStep(y, e).nvs
  {
  }

  lemma StepDirects(y: Sys, e: Event)
    requires Core(y) && Enabled(y, e)
    ensures DirectsOk(TabStep(y, e), Step(y, e).directs)
  {
    TabDirects(y, e);
  }

  /** Every step keeps the table's invariants. */
  lemma CoreStep(y: Sys, e: Event)
    requires Core(y) && Enabled(y, e)
    ensures Core(Step(y, e))
  {
    StepTab(y, e);
    StepDirects(y, e);
    TabGood(y, e);
  }

  // ── The table and flash together are one map ──────────────────────────

  /** What a step does to the map readers see: a mark that found room sets its
      rule, a direct save when it reaches flash; nothing else changes it. */
  function Edited(y: Sys, e: Event, id: nat): Op {
    match e
    case Mark(_, id', op) => if id' == id && MarkSlot(y.tab.slots, id').Some? then op else Abs(y.tab, id)
    case DirectWrite(tid) => if tid in y.directs && y.directs[tid].id == id then y.directs[tid].op else Abs(y.tab, id)
    case _ => Abs(y.tab, id)
  }

  lemma StoreElsewhere(nvs: map<nat, int>, id: nat, op: Op, other: nat)
    ensures Stored(Store(nvs, id, op), other) == if other == id then op else Stored(nvs, other)
  {
  }

  lemma AbsMark(s: Table, id: nat, op: Op, i: nat, x: nat)
    requires TableOk(s) && MarkSlot(s.slots, id) == Some(i)
    ensures Abs(MarkIn(s, i, id, op), x) == if x == id then op else Abs(s, x)
  {
    MarkTable(s, id, op, i);
    if x != id {
      MarkElsewhere(s, id, op, i, x);
      var f := FindSlot(s.slots, x);
      if f.Some? { assert f.value != i; }
    }
  }

  lemma AbsWrote(s: Table, tid: nat, applied: bool, ok: bool, x: nat)
    requires TableOk(s) && tid in s.flights && FlightOk(s, s.flights[tid])
    ensures Abs(Wrote(s, tid, applied, ok), x) == Abs(s, x)
  {
    var f := s.flights[tid];
    FindIs(s.slots, f.idx, f.id);
    StoreElsewhere(s.nvs, f.id, f.op, x);
  }

  lemma AbsLanded(s: Table, tid: nat, x: nat)
    requires TableOk(s) && tid in s.flights && FlightOk(s, s.flights[tid])
    ensures Abs(Landed(s, tid), x) == Abs(s, x)
  {
    var f := s.flights[tid];
    LandedTable(s, tid);
    if x != f.id {
      LandedElsewhere(s, tid, x);
      var g := FindSlot(s.slots, x);
      if g.Some? { assert g.value != f.idx; }
    }
  }

  lemma AbsDirect(s: Table, d: Direct, x: nat)
    requires FindSlot(s.slots, d.id).None?
    ensures Abs(DirectDone(s, d), x) == if x == d.id then d.op else Abs(s, x)
  {
    StoreElsewhere(s.nvs, d.id, d.op, x);
  }

  lemma AbsTab(y: Sys, e: Event, id: nat)
    requires Good(y.tab) && DirectsOk(y.tab, y.directs) && Enabled(y, e)
    ensures Abs(TabStep(y, e), id) == Edited(y, e, id)
  {
    var s := y.tab;
    match e
    case Mark(tid, id', op) => if MarkSlot(s.slots, id').Some? { AbsMark(s, id', op, MarkSlot(s.slots, id').value, id); }
    case DirectWrite(tid) => AbsDirect(s, y.directs[tid], id);
    case FlushBegin(tid, idx) => LaunchIfFinds(s, tid, idx, id);
    case FlushWrite(tid, applied, ok) => AbsWrote(s, tid, applied, ok, id);
    case FlushSettle(tid) => AbsLanded(s, tid, id);
    case NowVisit(tid) => LaunchIfFinds(s, tid, y.nows[tid].i, id);
    case _ =>
  }

  /** The write-back cache behaves as one map, whatever flushers do. */
  lemma AbsStep(y: Sys, e: Event, id: nat)
    requires Core(y) && Enabled(y, e)
    ensures Abs(Step(y, e).tab, id) == Edited(y, e, id)
  {
    AbsTab(y, e, id);
  }

  // ── Readers ───────────────────────────────────────────────────────────

  // What flash and the flights hold of a rule without a slot stays within
  // what its reader has seen.
  lemma MissedStays(y: Sys, e: Event, r: Reader)
    requires TableOk(y.tab) && FlightsOk(y.tab) && DirectsOk(y.tab, y.directs) && Enabled(y, e) && ReaderOk(y.tab, r) && r.phase == Missed
    ensures var s' := TabStep(y, e);
            && (Stored(s'.nvs, r.id) in r.seen || Stored(s'.nvs, r.id) == Abs(s', r.id))
            && forall t :: t in s'.flights && s'.flights[t].id == r.id ==> s'.flights[t].op in r.seen
  {
    var s := y.tab;
    match e
    case DirectWrite(tid) =>
      StoreElsewhere(s.nvs, y.directs[tid].id, y.directs[tid].op, r.id);
    case FlushBegin(tid, idx) => if Startable(s.slots[idx]) { LaunchSeen(s, tid, idx, r); }
    case FlushWrite(tid, applied, ok) => StoreElsewhere(s.nvs, s.flights[tid].id, s.flights[tid].op, r.id);
    case NowVisit(tid) => if Startable(s.slots[y.nows[tid].i]) { LaunchSeen(s, tid, y.nows[tid].i, r); }
    case _ =>
  }

  lemma LaunchSeen(s: Table, tid: nat, idx: nat, r: Reader)
    requires TableOk(s) && idx < CAP && Startable(s.slots[idx]) && ReaderOk(s, r) && r.phase == Missed
    ensures var s' := Launch(s, tid, idx);
            forall t :: t in s'.flights && s'.flights[t].id == r.id ==> s'.flights[t].op in r.seen
  {
    if s.slots[idx].id == r.id { FindIs(s.slots, idx, r.id); }
  }

  // A reader that takes no step of its own, under everyone else's.
  lemma ReaderWaits(y: Sys, e: Event, r: Reader)
    requires Core(y) && Enabled(y, e) && ReaderOk(y.tab, r)
    ensures ReaderOk(TabStep(y, e), r.(seen := r.seen + {Abs(TabStep(y, e), r.id)}))
  {
    if r.phase == Missed { MissedStays(y, e, r); }
  }

  lemma ReadersStep(y: Sys, e: Event)
    requires Core(y) && Enabled(y, e) && ReadersOk(y)
    ensures ReadersOk(Step(y, e))
  {
    var z := Step(y, e);
    StepTab(y, e);
    forall t | t in z.readers
      ensures ReaderOk(z.tab, z.readers[t])
    {
      if t in y.readers && ReadersNext(y, e)[t] == y.readers[t] {
        ReaderWaits(y, e, y.readers[t]);
      } else {
        OwnStep(y, e, t);
      }
    }
  }

  lemma OwnStep(y: Sys, e: Event, t: nat)
    requires Core(y) && Enabled(y, e) && ReadersOk(y)
    requires (e.ReadBegin? || e.ReadOverlay? || e.ReadNvs?) && t == e.tid
    ensures t in Step(y, e).readers && ReaderOk(y.tab, Step(y, e).readers[t])
  {
    var s := y.tab;
    if e.ReadOverlay? {
      var r := y.readers[t];
      assert ReaderOk(s, r);
      if FindSlot(s.slots, r.id).None? {
        forall u | u in s.flights && s.flights[u].id == r.id
          ensures false
        {
          NoFlight(s, r.id, u);
        }
      }
    } else if e.ReadNvs? {
      assert ReaderOk(s, y.readers[t]);
    }
  }

  // ── The barrier ───────────────────────────────────────────────────────

  // Edit `v` of rule `id`, or a newer one, has been written to flash.
  ghost predicate Covered(s: Table, id: nat, v: nat) {
    id in s.held && s.held[id] >= v
  }

  // No flight still carries an edit of `id` older than `v`.
  ghost predicate NoneOlder(s: Table, id: nat, v: nat) {
    forall t :: t in s.flights && s.flights[t].id == id ==> s.flights[t].ver >= v
  }

  ghost predicate Writing(s: Table, j: nat) {
    exists t :: t in s.flights && s.flights[t].idx == j && !s.flights[t].written
  }

  // Among the slots below i, the one of `id` is being written.
  ghost predicate Visited(s: Table, id: nat, i: nat) {
    forall j: nat :: j < i && j < |s.slots| && Pending(s.slots[j], id) ==> Writing(s, j)
  }

  ghost predicate TargetOk(s: Table, n: Now, id: nat, v: nat) {
    && id in s.last && v <= s.last[id]
    && (n.stage == Over || (n.pass >= 2 && n.stage == Waited) ==> Covered(s, id, v))
    && (n.pass >= 2 || n.stage == Waited ==> NoneOlder(s, id, v))
    && (n.pass >= 2 && n.stage == Visiting ==> Covered(s, id, v) || Visited(s, id, n.i))
  }

  // A deferred write failed since the call.
  predicate Failed(s: Table, n: Now) { s.failures > n.base }

  // From the first wait on, every flight began after it: a write that failed
  // counts.
  ghost predicate NoneFailed(s: Table, n: Now) {
    n.pass >= 2 || n.stage == Waited ==> forall t :: t in s.flights && s.flights[t].written ==> s.flights[t].ok
  }

  ghost predicate NowOk(s: Table, n: Now) {
    && n.base <= s.failures
    && (Failed(s, n) || (NoneFailed(s, n) && forall id :: id in n.targets ==> TargetOk(s, n, id, n.targets[id])))
  }

  ghost predicate NowsOk(y: Sys) {
    && (forall t :: t in y.nows ==> NowOk(y.tab, y.nows[t]))
    && FlyingOwn(y.tab, y.nows)
  }

  // A rule's edits and what flash holds of it only get newer.
  ghost predicate Grows(s: Table, s': Table) {
    && s.failures <= s'.failures
    && (forall id :: id in s.last ==> id in s'.last && s'.last[id] >= s.last[id])
    && (forall id :: id in s.held ==> id in s'.held && s'.held[id] >= s.held[id])
  }

  lemma MarkGrows(s: Table, i: nat, id: nat, op: Op)
    requires i < |s.slots| && i < |s.vers| && (id in s.last ==> s.last[id] <= s.clock)
    ensures Grows(s, MarkIn(s, i, id, op))
  {
  }

  lemma DirectGrows(s: Table, d: Direct)
    requires d.id in s.last ==> s.last[d.id] <= s.clock
    requires d.id in s.held ==> s.held[d.id] <= s.clock
    ensures Grows(s, DirectDone(s, d))
  {
  }

  lemma WroteGrows(s: Table, tid: nat, applied: bool, ok: bool)
    requires tid in s.flights && FlightOk(s, s.flights[tid]) && !s.flights[tid].written
    ensures Grows(s, Wrote(s, tid, applied, ok))
  {
  }

  lemma TabGrows(y: Sys, e: Event)
    requires Core(y) && Enabled(y, e)
    ensures Grows(y.tab, TabStep(y, e))
  {
    var s := y.tab;
    match e
    case Mark(_, id, op) =>
      if MarkSlot(s.slots, id).Some? { MarkGrows(s, MarkSlot(s.slots, id).value, id, op); }
    case DirectWrite(tid) =>
      var id := y.directs[tid].id;
      assert id in s.held ==> s.held[id] <= s.last[id] <= s.clock;
      DirectGrows(s, y.directs[tid]);
    case FlushWrite(tid, applied, ok) =>
      if tid in s.flights { WroteGrows(s, tid, applied, ok); }
    case _ =>
  }

  // Without a slot, a rule's newest edit is on flash.
  lemma NoSlotCovered(s: Table, id: nat, v: nat)
    requires Good(s) && id in s.last && v <= s.last[id] && FindSlot(s.slots, id).None?
    ensures Covered(s, id, v)
  {
  }

  lemma LaunchNotOlder(s: Table, tid: nat, idx: nat, id: nat, v: nat)
    requires Good(s) && NoneOlder(s, id, v) && id in s.last && v <= s.last[id]
    ensures NoneOlder(LaunchIf(s, tid, idx), id, v)
  {
  }

  // A step that starts no flight leaves those it leaves as they were.
  lemma FlightsLeft(y: Sys, e: Event, t: nat)
    requires |y.tab.slots| == CAP == |y.tab.vers| && Enabled(y, e) && !e.FlushBegin? && !e.NowVisit? && t in TabStep(y, e).flights
    ensures t in y.tab.flights
    ensures TabStep(y, e).flights[t].id == y.tab.flights[t].id && TabStep(y, e).flights[t].ver == y.tab.flights[t].ver
  {
  }

  lemma NotOlderStays(y: Sys, e: Event, id: nat, v: nat)
    requires Good(y.tab) && Enabled(y, e) && NoneOlder(y.tab, id, v) && id in y.tab.last && v <= y.tab.last[id]
    ensures NoneOlder(TabStep(y, e), id, v)
  {
    if e.FlushBegin? || e.NowVisit? {
      LaunchNotOlder(y.tab, e.tid, if e.FlushBegin? then e.idx else y.nows[e.tid].i, id, v);
    } else {
      forall t | t in TabStep(y, e).flights && TabStep(y, e).flights[t].id == id ensures TabStep(y, e).flights[t].ver >= v {
        FlightsLeft(y, e, t);
      }
    }
  }

  lemma WritingStays(s: Table, s': Table, j: nat)
    requires Writing(s, j) && forall t :: t in s.flights && s.flights[t].idx == j ==> t in s'.flights && s'.flights[t] == s.flights[t]
    ensures Writing(s', j)
  {
    var t :| t in s.flights && s.flights[t].idx == j && !s.flights[t].written;
    assert t in s'.flights && s'.flights[t] == s.flights[t];
  }

  lemma LaunchVisited(s: Table, tid: nat, idx: nat, id: nat, i: nat)
    requires Good(s) && tid !in s.flights && Visited(s, id, i)
    ensures Visited(LaunchIf(s, tid, idx), id, i)
  {
    var s' := LaunchIf(s, tid, idx);
    forall j: nat | j < i && j < |s'.slots| && Pending(s'.slots[j], id)
      ensures Writing(s', j)
    {
      assert Pending(s.slots[j], id);
      WritingStays(s, s', j);
    }
  }

  // A mark of a rule without a slot finds it covered; of one with, changes no flight.
  lemma MarkVisited(s: Table, id: nat, op: Op, m: nat, x: nat, v: nat, i: nat)
    requires Good(s) && MarkSlot(s.slots, id) == Some(m) && Visited(s, x, i) && x in s.last && v <= s.last[x]
    ensures Covered(MarkIn(s, m, id, op), x, v) || Visited(MarkIn(s, m, id, op), x, i)
  {
    var s' := MarkIn(s, m, id, op);
    if x == id && FindSlot(s.slots, id).None? {
      NoSlotCovered(s, x, v);
    } else {
      forall j: nat | j < i && j < |s'.slots| && Pending(s'.slots[j], x)
        ensures Writing(s', j)
      {
        assert Pending(s.slots[j], x);
        WritingStays(s, s', j);
      }
    }
  }

  lemma WroteVisited(s: Table, tid: nat, applied: bool, ok: bool, x: nat, v: nat, i: nat)
    requires Good(s) && tid in s.flights && ok && applied && NoneOlder(s, x, v) && Visited(s, x, i) && !s.flights[tid].written
    ensures Covered(Wrote(s, tid, applied, ok), x, v) || Visited(Wrote(s, tid, applied, ok), x, i)
  {
    var s' := Wrote(s, tid, applied, ok);
    if s.flights[tid].id == x {
      assert s'.held[x] == s.flights[tid].ver >= v;
    } else {
      WroteOther(s, tid, applied, ok, x, i);
    }
  }

  lemma WroteOther(s: Table, tid: nat, applied: bool, ok: bool, x: nat, i: nat)
    requires Good(s) && tid in s.flights && Visited(s, x, i) && s.flights[tid].id != x
    ensures Visited(Wrote(s, tid, applied, ok), x, i)
  {
    var s' := Wrote(s, tid, applied, ok);
    assert FlightOk(s, s.flights[tid]);
    forall j: nat | j < i && j < |s'.slots| && Pending(s'.slots[j], x)
      ensures Writing(s', j)
    {
      WritingStays(s, s', j);
    }
  }

  // The slot of a flight that has written is not a visited one.
  lemma LandedVisited(s: Table, tid: nat, x: nat, i: nat)
    requires Good(s) && tid in s.flights && s.flights[tid].written && Visited(s, x, i)
    ensures Visited(Landed(s, tid), x, i)
  {
    var s' := Landed(s, tid);
    forall j: nat | j < i && j < |s'.slots| && Pending(s'.slots[j], x)
      ensures Writing(s', j)
    {
      assert Pending(s.slots[j], x) by { assert FlightOk(s, s.flights[tid]); }
      var t :| t in s.flights && s.flights[t].idx == j && !s.flights[t].written;
      assert t in s'.flights && s'.flights[t] == s.flights[t];
    }
  }

  predicate FailingWrite(e: Event) { e.FlushWrite? && !e.ok }

  lemma VisitedStays(y: Sys, e: Event, x: nat, v: nat, i: nat)
    requires Core(y) && Enabled(y, e) && Visited(y.tab, x, i) && NoneOlder(y.tab, x, v) && x in y.tab.last && v <= y.tab.last[x]
    ensures FailingWrite(e) || Covered(TabStep(y, e), x, v) || Visited(TabStep(y, e), x, i)
  {
    var s := y.tab;
    match e
    case Mark(_, id, op) => if MarkSlot(s.slots, id).Some? { MarkVisited(s, id, op, MarkSlot(s.slots, id).value, x, v, i); }
    case DirectWrite(tid) => SameVisited(s, TabStep(y, e), x, i);
    case FlushBegin(tid, idx) => LaunchVisited(s, tid, idx, x, i);
    case FlushWrite(tid, applied, ok) => if ok { WroteVisited(s, tid, applied, ok, x, v, i); }
    case FlushSettle(tid) => LandedVisited(s, tid, x, i);
    case NowVisit(tid) => LaunchVisited(s, tid, y.nows[tid].i, x, i);
    case _ =>
  }

  lemma SameVisited(s: Table, s': Table, x: nat, i: nat)
    requires Visited(s, x, i) && s'.slots == s.slots && s'.flights == s.flights
    ensures Visited(s', x, i)
  {
    forall j: nat | j < i && j < |s'.slots| && Pending(s'.slots[j], x)
      ensures Writing(s', j)
    {
      WritingStays(s, s', j);
    }
  }

  // A barrier's targets stay as they should under everyone's steps.
  lemma TargetStays(y: Sys, e: Event, n: Now, id: nat, v: nat)
    requires Core(y) && Enabled(y, e) && TargetOk(y.tab, n, id, v)
    ensures FailingWrite(e) || TargetOk(TabStep(y, e), n, id, v)
  {
    TabGrows(y, e);
    if n.pass >= 2 || n.stage == Waited {
      NotOlderStays(y, e, id, v);
      if n.pass >= 2 && n.stage == Visiting && !Covered(y.tab, id, v) { VisitedStays(y, e, id, v, n.i); }
    }
  }

  lemma NoneFailedStays(y: Sys, e: Event, n: Now)
    requires Core(y) && Enabled(y, e) && NoneFailed(y.tab, n) && !FailingWrite(e)
    ensures NoneFailed(TabStep(y, e), n)
  {
  }

  lemma FailuresGrow(y: Sys, e: Event)
    requires |y.tab.slots| == CAP == |y.tab.vers| && Enabled(y, e)
    ensures TabStep(y, e).failures == if FailingWrite(e) then y.tab.failures + 1 else y.tab.failures
  {
  }

  lemma NowStays(y: Sys, e: Event, n: Now)
    requires Core(y) && Enabled(y, e) && NowOk(y.tab, n)
    ensures NowOk(TabStep(y, e), n)
  {
    FailuresGrow(y, e);
    if !Failed(y.tab, n) && !FailingWrite(e) {
      NoneFailedStays(y, e, n);
      forall id | id in n.targets
        ensures TargetOk(TabStep(y, e), n, id, n.targets[id])
      {
        TargetStays(y, e, n, id, n.targets[id]);
      }
    }
  }

  lemma NowBegins(s: Table)
    requires Good(s)
    ensures NowOk(s, Now(1, 0, Visiting, Targets(s), s.failures))
  {
    forall id | id in Targets(s)
      ensures TargetOk(s, Now(1, 0, Visiting, Targets(s), s.failures), id, Targets(s)[id])
    {
      assert s.slots[FindSlot(s.slots, id).value].id == id;
    }
  }

  // A slot that is not started is clean, or another's flight has it.
  lemma VisitNext(s: Table, n: Now)
    requires Good(s) && NowOk(s, n) && n.stage == Visiting && n.i < CAP && !Startable(s.slots[n.i])
    ensures NowOk(s, n.(i := n.i + 1))
  {
    if !Failed(s, n) && n.pass >= 2 {
      forall id | id in n.targets
        ensures TargetOk(s, n.(i := n.i + 1), id, n.targets[id])
      {
        VisitOne(s, n, id, n.targets[id]);
      }
    }
  }

  lemma VisitOne(s: Table, n: Now, id: nat, v: nat)
    requires Good(s) && TargetOk(s, n, id, v) && n.pass >= 2 && n.stage == Visiting && n.i < CAP && !Startable(s.slots[n.i])
    requires NoneFailed(s, n)
    ensures TargetOk(s, n.(i := n.i + 1), id, v)
  {
    if !Covered(s, id, v) && Pending(s.slots[n.i], id) {
      assert InFlight(s, n.i);
      var t :| t in s.flights && s.flights[t].idx == n.i;
      assert FlightOk(s, s.flights[t]);
      assert Writing(s, n.i);
    }
  }

  // After its own flight the barrier moves on past a slot that is written.
  lemma OwnLanded(s: Table, tid: nat, n: Now)
    requires Good(s) && NowOk(s, n) && tid in s.flights && s.flights[tid].written && s.flights[tid].idx == n.i && n.stage == Visiting
    requires NowOk(Landed(s, tid), n)
    ensures NowOk(Landed(s, tid), n.(i := n.i + 1))
  {
    var s' := Landed(s, tid);
    assert FlightOk(s, s.flights[tid]);
    if !Failed(s', n) && n.pass >= 2 {
      forall id | id in n.targets
        ensures TargetOk(s', n.(i := n.i + 1), id, n.targets[id])
      {
        assert TargetOk(s, n, id, n.targets[id]);
      }
    }
  }

  lemma QuietNoFlight(s: Table)
    requires Good(s) && Quiet(s)
    ensures s.flights == map[]
  {
    assert forall t :: t in s.flights ==> FlightOk(s, s.flights[t]);
  }

  // At an instant with nothing in flight no older edit is, and on the second
  // pass every target is covered.
  lemma WaitEnds(s: Table, n: Now)
    requires Good(s) && NowOk(s, n) && n.stage == Visiting && n.i == CAP && Quiet(s)
    ensures NowOk(s, n.(stage := Waited))
  {
    QuietNoFlight(s);
    if !Failed(s, n) {
      forall id | id in n.targets
        ensures TargetOk(s, n.(stage := Waited), id, n.targets[id])
      {
        assert TargetOk(s, n, id, n.targets[id]);
        if FindSlot(s.slots, id).None? {
          NoSlotCovered(s, id, n.targets[id]);
        } else {
          assert !Writing(s, FindSlot(s.slots, id).value);
        }
      }
    }
  }

  lemma CheckEnds(s: Table, n: Now)
    requires Good(s) && NowOk(s, n) && n.stage == Waited
    ensures NowOk(s, Checked(s, n))
  {
    if !Failed(s, n) {
      forall id | id in n.targets
        ensures TargetOk(s, Checked(s, n), id, n.targets[id])
      {
        assert TargetOk(s, n, id, n.targets[id]);
        if AllClean(s) { NoSlotCovered(s, id, n.targets[id]); }
      }
    }
  }

  lemma NowsStep(y: Sys, e: Event)
    requires Core(y) && Enabled(y, e) && NowsOk(y)
    ensures NowsOk(Step(y, e))
  {
    var z := Step(y, e);
    StepTab(y, e);
    forall t | t in z.nows
      ensures NowOk(z.tab, z.nows[t])
    {
      if t in y.nows && z.nows[t] == y.nows[t] {
        NowStays(y, e, y.nows[t]);
      } else {
        OwnNow(y, e, t);
      }
    }
    OwnFlights(y, e);
  }

  lemma OwnSettle(y: Sys, tid: nat)
    requires Core(y) && Enabled(y, FlushSettle(tid)) && tid in y.nows && NowOk(y.tab, y.nows[tid]) && FlyingOwn(y.tab, y.nows)
    ensures NowOk(Landed(y.tab, tid), y.nows[tid].(i := y.nows[tid].i + 1))
  {
    NowStays(y, FlushSettle(tid), y.nows[tid]);
    assert Landed(y.tab, tid) == TabStep(y, FlushSettle(tid));
    OwnLanded(y.tab, tid, y.nows[tid]);
  }

  // A barrier's own step. The table changes only when its own flight settles.
  lemma OwnNow(y: Sys, e: Event, t: nat)
    requires Core(y) && Enabled(y, e) && NowsOk(y)
    requires t in NowsNext(y, e) && (t !in y.nows || NowsNext(y, e)[t] != y.nows[t])
    ensures NowOk(TabStep(y, e), NowsNext(y, e)[t])
  {
    OwnIs(y, e, t);
    if e.FlushSettle? {
      OwnSettle(y, t);
    } else {
      OwnQuiet(y, e, t);
    }
  }

  // Which steps are a barrier's own, and what they leave of the table.
  lemma OwnIs(y: Sys, e: Event, t: nat)
    requires |y.tab.slots| == CAP == |y.tab.vers| && Enabled(y, e)
    requires t in NowsNext(y, e) && (t !in y.nows || NowsNext(y, e)[t] != y.nows[t])
    ensures (e.NowBegin? || e.NowVisit? || e.NowWait? || e.NowCheck? || e.FlushSettle?) && e.tid == t
    ensures e.FlushSettle? ==> t in y.nows && TabStep(y, e) == Landed(y.tab, t)
                               && NowsNext(y, e)[t] == y.nows[t].(i := y.nows[t].i + 1)
    ensures !e.FlushSettle? ==> TabStep(y, e) == y.tab
  {
  }

  lemma OwnQuiet(y: Sys, e: Event, t: nat)
    requires Good(y.tab) && Enabled(y, e) && (t in y.nows ==> NowOk(y.tab, y.nows[t]))
    requires (e.NowBegin? || e.NowVisit? || e.NowWait? || e.NowCheck?) && e.tid == t
    requires t in NowsNext(y, e) && (t !in y.nows || NowsNext(y, e)[t] != y.nows[t])
    ensures NowOk(y.tab, NowsNext(y, e)[t])
  {
    match e
    case NowBegin(tid) => NowBegins(y.tab);
    case NowVisit(tid) => VisitNext(y.tab, y.nows[tid]);
    case NowWait(tid) => WaitEnds(y.tab, y.nows[tid]);
    case NowCheck(tid) => CheckEnds(y.tab, y.nows[tid]);
  }

  ghost predicate FlyingOwn(s: Table, nows: map<nat, Now>) {
    forall t :: t in nows && t in s.flights ==>
      nows[t].stage == Visiting && nows[t].i < CAP && s.flights[t].idx == nows[t].i
  }

  lemma LaunchOwn(s: Table, nows: map<nat, Now>, tid: nat, idx: nat)
    requires TableOk(s) && FlyingOwn(s, nows) && (tid in nows ==> nows[tid].stage == Visiting && nows[tid].i == idx < CAP)
    ensures FlyingOwn(LaunchIf(s, tid, idx), nows)
  {
  }

  lemma NowOwn(s: Table, nows: map<nat, Now>, tid: nat, n: Now)
    requires FlyingOwn(s, nows) && tid !in s.flights
    ensures FlyingOwn(s, nows[tid := n])
  {
  }

  lemma LandedOwn(s: Table, nows: map<nat, Now>, tid: nat)
    requires FlyingOwn(s, nows) && tid in s.flights && s.flights[tid].idx < |s.slots|
    ensures FlyingOwn(Landed(s, tid), nows)
  {
  }

  lemma OwnFlights(y: Sys, e: Event)
    requires TableOk(y.tab) && Enabled(y, e) && FlyingOwn(y.tab, y.nows)
    ensures FlyingOwn(TabStep(y, e), NowsNext(y, e))
  {
    var s := y.tab;
    match e
    case FlushBegin(tid, idx) => LaunchOwn(s, y.nows, tid, idx);
    case FlushSettle(tid) =>
      LandedOwn(s, y.nows, tid);
      if tid in y.nows { NowOwn(Landed(s, tid), y.nows, tid, Onward(y.nows, tid)[tid]); }
    case NowBegin(tid) => NowOwn(s, y.nows, tid, Now(1, 0, Visiting, Targets(s), s.failures));
    case NowVisit(tid) =>
      LaunchOwn(s, y.nows, tid, y.nows[tid].i);
      NowOwn(s, y.nows, tid, Onward(y.nows, tid)[tid]);
    case NowWait(tid) => NowOwn(s, y.nows, tid, y.nows[tid].(stage := Waited));
    case NowCheck(tid) => CheckOwn(s, y.nows, tid);
    case _ =>
  }

  lemma CheckOwn(s: Table, nows: map<nat, Now>, tid: nat)
    requires FlyingOwn(s, nows) && tid in nows && nows[tid].stage == Waited
    ensures FlyingOwn(s, nows[tid := Checked(s, nows[tid])])
  {
    assert tid !in s.flights;
  }

  // ── Which edit flash holds ────────────────────────────────────────────

  // Edit `v` is rule `id` set to `op`.
  predicate Means(s: Table, v: nat, id: nat, op: Op) {
    v <= s.clock && v in s.edits && s.edits[v] == Edit(id, op)
  }

  // The numbers in slots, flights and on flash mean what is there.
  ghost predicate EditsOk(s: Table) {
    && (forall i :: 0 <= i < |s.slots| && i < |s.vers| && s.slots[i].state != Clean ==>
         Means(s, s.vers[i], s.slots[i].id, OpOf(s.slots[i])))
    && (forall t :: t in s.flights ==> Means(s, s.flights[t].ver, s.flights[t].id, s.flights[t].op))
    && (forall id :: id in s.held ==> Means(s, s.held[id], id, Stored(s.nvs, id)))
  }

  // No edit is renumbered.
  ghost predicate KeepsEdits(s: Table, s': Table) {
    s.clock <= s'.clock && forall v :: v <= s.clock && v in s.edits ==> v in s'.edits && s'.edits[v] == s.edits[v]
  }

  lemma MarkEdits(s: Table, i: nat, id: nat, op: Op)
    requires EditsOk(s) && i < |s.slots| == |s.vers| && OpOf(Marked(s.slots[i], id, op)) == op
    ensures EditsOk(MarkIn(s, i, id, op)) && KeepsEdits(s, MarkIn(s, i, id, op))
  {
  }

  lemma DirectEdits(s: Table, d: Direct)
    requires EditsOk(s)
    ensures EditsOk(DirectDone(s, d)) && KeepsEdits(s, DirectDone(s, d))
  {
    var s' := DirectDone(s, d);
    forall id | id in s'.held ensures Means(s', s'.held[id], id, Stored(s'.nvs, id)) {
      StoreElsewhere(s.nvs, d.id, d.op, id);
    }
  }

  lemma LaunchEdits(s: Table, tid: nat, idx: nat)
    requires EditsOk(s) && |s.slots| == |s.vers|
    ensures EditsOk(LaunchIf(s, tid, idx)) && KeepsEdits(s, LaunchIf(s, tid, idx))
  {
  }

  lemma WroteEdits(s: Table, tid: nat, applied: bool, ok: bool)
    requires EditsOk(s) && tid in s.flights
    ensures EditsOk(Wrote(s, tid, applied, ok)) && KeepsEdits(s, Wrote(s, tid, applied, ok))
  {
    var s', f := Wrote(s, tid, applied, ok), s.flights[tid];
    forall id | id in s'.held ensures Means(s', s'.held[id], id, Stored(s'.nvs, id)) {
      StoreElsewhere(s.nvs, f.id, f.op, id);
    }
  }

  lemma LandedEdits(s: Table, tid: nat)
    requires EditsOk(s) && tid in s.flights && s.flights[tid].idx < |s.slots|
    ensures EditsOk(Landed(s, tid)) && KeepsEdits(s, Landed(s, tid))
  {
  }

  lemma EditsStep(y: Sys, e: Event)
    requires Core(y) && Enabled(y, e) && EditsOk(y.tab)
    ensures EditsOk(TabStep(y, e)) && KeepsEdits(y.tab, TabStep(y, e))
  {
    var s := y.tab;
    match e
    case Mark(_, id, op) => if MarkSlot(s.slots, id).Some? { MarkEdits(s, MarkSlot(s.slots, id).value, id, op); }
    case DirectWrite(tid) => DirectEdits(s, y.directs[tid]);
    case FlushBegin(tid, idx) => LaunchEdits(s, tid, idx);
    case FlushWrite(tid, applied, ok) => WroteEdits(s, tid, applied, ok);
    case FlushSettle(tid) => LandedEdits(s, tid);
    case NowVisit(tid) => LaunchEdits(s, tid, y.nows[tid].i);
    case _ =>
  }

  // What a barrier is called for is what readers see then.
  lemma TargetsPending(s: Table, id: nat)
    requires Good(s) && EditsOk(s) && id in Targets(s)
    ensures Means(s, Targets(s)[id], id, Abs(s, id))
  {
  }

  // ── Runs ──────────────────────────────────────────────────────────────

  function Empty(nvs: map<nat, int>): Sys {
    Sys(Table(seq(CAP, i => Slot(0, Clean, false, false, 0)), seq(CAP, i => 0), nvs, 0, map[], map[], 0, map[], map[]),
        map[], map[], map[], None)
  }

  ghost predicate Link(ys: seq<Sys>, h: seq<Event>, k: nat) {
    && k < |h| && k + 1 < |ys|
    && |ys[k].tab.slots| == CAP == |ys[k].tab.vers| && Enabled(ys[k], h[k]) && ys[k + 1] == Step(ys[k], h[k])
  }

  ghost predicate IsRun(ys: seq<Sys>, h: seq<Event>, nvs: map<nat, int>) {
    |ys| == |h| + 1 && ys[0] == Empty(nvs) && forall k: nat :: k < |h| ==> Link(ys, h, k)
  }

  lemma {:induction false} CoreRun(ys: seq<Sys>, h: seq<Event>, nvs: map<nat, int>, n: nat)
    requires IsRun(ys, h, nvs) && n <= |h|
    ensures Core(ys[n]) && ReadersOk(ys[n]) && NowsOk(ys[n])
    decreases n
  {
    if n > 0 {
      CoreRun(ys, h, nvs, n - 1);
      assert Link(ys, h, n - 1);
      StepKeeps(ys[n - 1], h[n - 1], ys[n]);
    }
  }

  lemma StepKeeps(y: Sys, e: Event, z: Sys)
    requires Core(y) && ReadersOk(y) && NowsOk(y) && Enabled(y, e) && z == Step(y, e)
    ensures Core(z) && ReadersOk(z) && NowsOk(z)
  {
    CoreStep(y, e);
    ReadersStep(y, e);
    NowsStep(y, e);
  }

  lemma EditsNext(y: Sys, e: Event, z: Sys)
    requires Core(y) && Enabled(y, e) && z == Step(y, e) && EditsOk(y.tab)
    ensures EditsOk(z.tab) && KeepsEdits(y.tab, z.tab)
  {
    EditsStep(y, e);
  }

  // The values rule `id` had from state a up to state b.
  ghost function Values(ys: seq<Sys>, id: nat, a: nat, b: nat): set<Op>
    requires b < |ys|
  {
    set k | a <= k <= b :: Abs(ys[k].tab, id)
  }

  lemma SeenGrows(y: Sys, e: Event, tid: nat)
    requires |y.tab.slots| == CAP == |y.tab.vers| && Enabled(y, e) && tid in y.readers
    ensures var z := Step(y, e);
            && tid in z.readers && z.readers[tid].id == y.readers[tid].id
            && z.readers[tid].seen == y.readers[tid].seen + {Abs(z.tab, y.readers[tid].id)}
  {
  }

  lemma SeenBegins(y: Sys, tid: nat, id: nat)
    requires |y.tab.slots| == CAP == |y.tab.vers| && Enabled(y, ReadBegin(tid, id))
    ensures var z := Step(y, ReadBegin(tid, id));
            tid in z.readers && z.readers[tid].id == id && z.readers[tid].seen == {Abs(y.tab, id)} + {Abs(z.tab, id)}
  {
  }

  lemma RunSeen(ys: seq<Sys>, h: seq<Event>, nvs: map<nat, int>, n: nat, tid: nat)
    requires IsRun(ys, h, nvs) && n < |h| && tid in ys[n].readers
    ensures tid in ys[n + 1].readers && ys[n + 1].readers[tid].id == ys[n].readers[tid].id
    ensures ys[n + 1].readers[tid].seen == ys[n].readers[tid].seen + {Abs(ys[n + 1].tab, ys[n].readers[tid].id)}
  {
    CoreRun(ys, h, nvs, n);
    assert Link(ys, h, n);
    SeenGrows(ys[n], h[n], tid);
  }

  lemma RunBegins(ys: seq<Sys>, h: seq<Event>, nvs: map<nat, int>, n: nat, tid: nat, id: nat)
    requires IsRun(ys, h, nvs) && n < |h| && h[n] == ReadBegin(tid, id)
    ensures tid in ys[n + 1].readers && ys[n + 1].readers[tid].id == id
    ensures ys[n + 1].readers[tid].seen == {Abs(ys[n].tab, id)} + {Abs(ys[n + 1].tab, id)}
  {
    CoreRun(ys, h, nvs, n);
    assert Link(ys, h, n);
    SeenBegins(ys[n], tid, id);
  }

  lemma ValuesNext(ys: seq<Sys>, id: nat, a: nat, b: nat)
    requires a <= b < |ys|
    ensures Values(ys, id, a, b) == if a == b then {Abs(ys[b].tab, id)} else Values(ys, id, a, b - 1) + {Abs(ys[b].tab, id)}
  {
  }

  lemma {:induction false} SeenIsValues(ys: seq<Sys>, h: seq<Event>, nvs: map<nat, int>, a: nat, b: nat, tid: nat, id: nat)
    requires IsRun(ys, h, nvs) && 1 <= a <= b <= |h| && h[a - 1] == ReadBegin(tid, id)
    ensures tid in ys[b].readers && ys[b].readers[tid].id == id
    ensures ys[b].readers[tid].seen == Values(ys, id, a, b) + {Abs(ys[a - 1].tab, id)}
    decreases b
  {
    ValuesNext(ys, id, a, b);
    if a == b {
      RunBegins(ys, h, nvs, b - 1, tid, id);
    } else {
      SeenIsValues(ys, h, nvs, a, b - 1, tid, id);
      RunSeen(ys, h, nvs, b - 1, tid);
    }
  }

  /** rule_store_load returns the value its rule had at some instant inside the
      call, for every interleaving of marks, flushers and failing writes. */
  lemma LoadIsLinearizable(ys: seq<Sys>, h: seq<Event>, nvs: map<nat, int>, a: nat, b: nat, tid: nat, id: nat)
    requires IsRun(ys, h, nvs) && 1 <= a <= b <= |h| && h[a - 1] == ReadBegin(tid, id)
    requires tid in ys[b].readers && ys[b].readers[tid].phase.Returned?
    ensures exists k :: a - 1 <= k <= b && ys[b].readers[tid].phase.r == Abs(ys[k].tab, id)
  {
    SeenIsValues(ys, h, nvs, a, b, tid, id);
    CoreRun(ys, h, nvs, b);
    var r := ys[b].readers[tid];
    assert ReaderOk(ys[b].tab, r);
    if r.phase.r in Values(ys, id, a, b) {
      var k :| a <= k <= b && Abs(ys[k].tab, id) == r.phase.r;
    }
  }

  lemma {:induction false} EditsRun(ys: seq<Sys>, h: seq<Event>, nvs: map<nat, int>, n: nat)
    requires IsRun(ys, h, nvs) && n <= |h|
    ensures EditsOk(ys[n].tab)
    decreases n
  {
    if n > 0 {
      EditsRun(ys, h, nvs, n - 1);
      CoreRun(ys, h, nvs, n - 1);
      assert Link(ys, h, n - 1);
      EditsNext(ys[n - 1], h[n - 1], ys[n]);
    }
  }

  lemma {:induction false} EditsKept(ys: seq<Sys>, h: seq<Event>, nvs: map<nat, int>, a: nat, b: nat, v: nat, id: nat, op: Op)
    requires IsRun(ys, h, nvs) && a <= b <= |h| && Means(ys[a].tab, v, id, op)
    ensures Means(ys[b].tab, v, id, op)
    decreases b
  {
    if a < b {
      EditsKept(ys, h, nvs, a, b - 1, v, id, op);
      EditsRun(ys, h, nvs, b - 1);
      CoreRun(ys, h, nvs, b - 1);
      assert Link(ys, h, b - 1);
      EditsNext(ys[b - 1], h[b - 1], ys[b]);
    }
  }

  /** What a rule_store_flush_now is called for: the edit of each rule that is
      pending, numbered, whose outcome readers see at that instant. */
  lemma FlushNowTargets(ys: seq<Sys>, h: seq<Event>, nvs: map<nat, int>, a: nat, n: nat, tid: nat, id: nat)
    requires IsRun(ys, h, nvs) && a < n <= |h| && h[a] == NowBegin(tid) && |ys[a].tab.slots| == CAP == |ys[a].tab.vers|
    ensures tid in ys[a + 1].nows && (id in ys[a + 1].nows[tid].targets <==> FindSlot(ys[a].tab.slots, id).Some?)
    ensures id in ys[a + 1].nows[tid].targets ==>
              Means(ys[n].tab, ys[a + 1].nows[tid].targets[id], id, Abs(ys[a].tab, id))
  {
    CoreRun(ys, h, nvs, a);
    EditsRun(ys, h, nvs, a);
    assert Link(ys, h, a);
    var s := ys[a].tab;
    if FindSlot(s.slots, id).Some? {
      assert id in s.last;
      TargetsPending(s, id);
      EditsKept(ys, h, nvs, a, n, Targets(s)[id], id, Abs(s, id));
    }
  }

  lemma NowStep(y: Sys, e: Event, tid: nat)
    requires |y.tab.slots| == CAP == |y.tab.vers| && Enabled(y, e) && tid in y.nows
    ensures tid in NowsNext(y, e)
    ensures NowsNext(y, e)[tid].targets == y.nows[tid].targets && NowsNext(y, e)[tid].base == y.nows[tid].base
  {
  }

  /** No deferred write fails between two instants. */
  predicate NoFailure(h: seq<Event>, a: nat, b: nat) {
    forall k :: a <= k < b && k < |h| ==> !FailingWrite(h[k])
  }

  // A barrier keeps what it was called for.
  lemma {:induction false} NowKept(ys: seq<Sys>, h: seq<Event>, nvs: map<nat, int>, a: nat, b: nat, tid: nat)
    requires IsRun(ys, h, nvs) && a <= b <= |h| && tid in ys[a].nows
    ensures tid in ys[b].nows && ys[b].nows[tid].targets == ys[a].nows[tid].targets
    ensures ys[b].nows[tid].base == ys[a].nows[tid].base
    ensures NoFailure(h, a, b) ==> ys[b].tab.failures == ys[a].tab.failures
    decreases b
  {
    if a < b {
      NowKept(ys, h, nvs, a, b - 1, tid);
      CoreRun(ys, h, nvs, b - 1);
      assert Link(ys, h, b - 1);
      StepTab(ys[b - 1], h[b - 1]);
      NowStep(ys[b - 1], h[b - 1], tid);
      FailuresGrow(ys[b - 1], h[b - 1]);
    }
  }

  lemma NowBegun(ys: seq<Sys>, h: seq<Event>, nvs: map<nat, int>, a: nat, tid: nat)
    requires IsRun(ys, h, nvs) && a < |h| && h[a] == NowBegin(tid)
    ensures |ys[a].tab.slots| == CAP == |ys[a].tab.vers|
    ensures tid in ys[a + 1].nows && ys[a + 1].nows[tid].base == ys[a + 1].tab.failures
  {
    CoreRun(ys, h, nvs, a);
    assert Link(ys, h, a);
  }

  // What a barrier that is over leaves on flash.
  lemma HeldMeans(ys: seq<Sys>, h: seq<Event>, nvs: map<nat, int>, n: nat, tid: nat, id: nat)
    requires IsRun(ys, h, nvs) && n <= |h| && tid in ys[n].nows && !Failed(ys[n].tab, ys[n].nows[tid])
    requires ys[n].nows[tid].stage == Over && id in ys[n].nows[tid].targets
    ensures exists v :: v >= ys[n].nows[tid].targets[id] && Means(ys[n].tab, v, id, Stored(ys[n].tab.nvs, id))
  {
    CoreRun(ys, h, nvs, n);
    EditsRun(ys, h, nvs, n);
    var s, y := ys[n].tab, ys[n].nows[tid];
    assert NowOk(s, y);
    assert TargetOk(s, y, id, y.targets[id]);
    assert Means(s, s.held[id], id, Stored(s.nvs, id));
  }

  /** When a rule_store_flush_now is over and no deferred write failed since it
      was called (one that failed before may have), flash holds, of every rule
      with an edit pending at the call, that edit or a newer one, whatever
      flushers and marks ran meanwhile: readers saw edit `w` at the call, and
      flash holds the outcome of edit `v`, numbered no lower. */
  lemma FlushNowIsDurable(ys: seq<Sys>, h: seq<Event>, nvs: map<nat, int>, a: nat, n: nat, tid: nat, id: nat)
    requires IsRun(ys, h, nvs) && a < n <= |h| && h[a] == NowBegin(tid) && NoFailure(h, a, n)
    requires tid in ys[n].nows && ys[n].nows[tid].stage == Over && FindSlot(ys[a].tab.slots, id).Some?
    ensures exists v, w ::
              && v >= w
              && Means(ys[n].tab, w, id, Abs(ys[a].tab, id))
              && Means(ys[n].tab, v, id, Stored(ys[n].tab.nvs, id))
  {
    NowBegun(ys, h, nvs, a, tid);
    FlushNowTargets(ys, h, nvs, a, n, tid, id);
    NowKept(ys, h, nvs, a + 1, n, tid);
    HeldMeans(ys, h, nvs, n, tid, id);
    var w := ys[a + 1].nows[tid].targets[id];
    var v :| v >= w && Means(ys[n].tab, v, id, Stored(ys[n].tab.nvs, id));
    assert Means(ys[n].tab, w, id, Abs(ys[a].tab, id));
  }

  // ── Listing all rules ─────────────────────────────────────────────────

  datatype Row = Row(id: nat, payload: int)

  function FindRow(rows: seq<Row>, id: nat): (r: Option<nat>)
    ensures r.Some? ==> r.value < |rows| && rows[r.value].id == id && forall i :: 0 <= i < r.value ==> rows[i].id != id
    ensures r.None? ==> forall i :: 0 <= i < |rows| ==> rows[i].id != id
  {
    if rows == [] then None
    else if rows[0].id == id then Some(0)
    else match FindRow(rows[1..], id) case None => None case Some(i) => Some(i + 1)
  }

  /** One pending edit merged into the rows read from flash: a deletion removes
      its row, an edit replaces it or, while there is room, adds one. */
  function Merge(rows: seq<Row>, slot: Slot, max: nat): seq<Row> {
    var f := FindRow(rows, slot.id);
    match slot.state
    case Clean => rows
    case Tombstone => if f.Some? then rows[..f.value] + rows[f.value + 1..] else rows
    case Write =>
      var row := Row(slot.id, slot.payload);
      if f.Some? then rows[f.value := row] else if |rows| < max then rows + [row] else rows
  }

  function MergeAll(rows: seq<Row>, slots: seq<Slot>, max: nat): seq<Row> {
    if slots == [] then rows else Merge(MergeAll(rows, slots[..|slots| - 1], max), slots[|slots| - 1], max)
  }

  /** The rows are exactly the map, no rule twice. */
  ghost predicate Lists(rows: seq<Row>, m: map<nat, int>) {
    && (forall i: nat, j: nat :: i < j < |rows| ==> rows[i].id != rows[j].id)
    && (forall i: nat :: i < |rows| ==> rows[i].id in m && m[rows[i].id] == rows[i].payload)
    && (forall id :: id in m ==> FindRow(rows, id).Some?)
  }

  function Overlay(m: map<nat, int>, slots: seq<Slot>): map<nat, int> {
    if slots == [] then m
    else
      var below := Overlay(m, slots[..|slots| - 1]);
      var slot := slots[|slots| - 1];
      if slot.state == Clean then below else Store(below, slot.id, OpOf(slot))
  }

  // Stored and pending ids.
  function Ids(m: map<nat, int>, slots: seq<Slot>): set<nat> {
    m.Keys + set i | 0 <= i < |slots| && slots[i].state == Write :: slots[i].id
  }

  lemma {:induction false} RowsCount(rows: seq<Row>, m: map<nat, int>, ids: set<nat>)
    requires Lists(rows, m) && m.Keys <= ids
    ensures |rows| <= |ids|
  {
    RowIds(rows);
    var seen := set i | 0 <= i < |rows| :: rows[i].id;
    assert seen <= ids;
    SubsetSize(seen, ids);
  }

  lemma {:induction false} RowIds(rows: seq<Row>)
    requires forall i: nat, j: nat :: i < j < |rows| ==> rows[i].id != rows[j].id
    ensures |set i | 0 <= i < |rows| :: rows[i].id| == |rows|
    decreases |rows|
  {
    var seen := set i | 0 <= i < |rows| :: rows[i].id;
    if rows == [] {
      assert seen == {};
    } else {
      var n := |rows| - 1;
      var init := rows[..n];
      RowIds(init);
      var below := set i | 0 <= i < |init| :: init[i].id;
      forall x
        ensures x in seen <==> x in below + {rows[n].id}
      {
        if x in below {
          var i :| 0 <= i < |init| && init[i].id == x;
          assert rows[i].id == x;
        }
        if x in seen {
          var i :| 0 <= i < |rows| && rows[i].id == x;
          if i < n { assert init[i].id == x; }
        }
      }
      assert seen == below + {rows[n].id};
    }
  }

  lemma ListsAdd(rows: seq<Row>, m: map<nat, int>, id: nat, payload: int)
    requires Lists(rows, m) && id !in m
    ensures Lists(rows + [Row(id, payload)], m[id := payload])
  {
    var rows' := rows + [Row(id, payload)];
    assert rows'[|rows|].id == id;
    forall x | x in m[id := payload]
      ensures FindRow(rows', x).Some?
    {
      if x in m {
        var i := FindRow(rows, x).value;
        assert rows'[i].id == x;
      }
    }
  }

  lemma MergeAdd(rows: seq<Row>, m: map<nat, int>, slot: Slot, max: nat)
    requires Lists(rows, m) && slot.state == Write && |rows| < max && FindRow(rows, slot.id).None?
    ensures Lists(Merge(rows, slot, max), m[slot.id := slot.payload])
  {
    ListsAdd(rows, m, slot.id, slot.payload);
  }

  lemma MergeReplace(rows: seq<Row>, m: map<nat, int>, slot: Slot, max: nat)
    requires Lists(rows, m) && slot.state == Write && FindRow(rows, slot.id).Some?
    ensures Lists(Merge(rows, slot, max), m[slot.id := slot.payload])
  {
    var f := FindRow(rows, slot.id).value;
    var rows' := rows[f := Row(slot.id, slot.payload)];
    forall id | id in m[slot.id := slot.payload]
      ensures FindRow(rows', id).Some?
    {
      assert id in m;
      var i := FindRow(rows, id).value;
      assert rows'[i].id == id;
    }
  }

  lemma MergeRemove(rows: seq<Row>, m: map<nat, int>, slot: Slot, max: nat)
    requires Lists(rows, m) && slot.state == Tombstone
    ensures Lists(Merge(rows, slot, max), m - {slot.id})
  {
    var f := FindRow(rows, slot.id);
    var rows' := Merge(rows, slot, max);
    if f.Some? {
      assert forall i: nat :: i < |rows'| ==> rows'[i] == rows[if i < f.value then i else i + 1];
      forall id | id in m - {slot.id}
        ensures FindRow(rows', id).Some?
      {
        var i := FindRow(rows, id).value;
        assert rows'[if i < f.value then i else i - 1].id == id;
      }
    } else {
      assert slot.id !in m;
    }
  }

  lemma {:induction false} OverlayIds(m: map<nat, int>, slots: seq<Slot>)
    ensures Overlay(m, slots).Keys <= Ids(m, slots)
    decreases |slots|
  {
    if slots != [] {
      var init := slots[..|slots| - 1];
      OverlayIds(m, init);
      forall id | id in Ids(m, init)
        ensures id in Ids(m, slots)
      {
        if id !in m {
          var i :| 0 <= i < |init| && init[i].state == Write && init[i].id == id;
          assert slots[i].state == Write && slots[i].id == id;
        }
      }
      var slot := slots[|slots| - 1];
      assert slot.state == Write ==> slot.id in Ids(m, slots);
    }
  }

  lemma IdsPrefix(m: map<nat, int>, slots: seq<Slot>, all: set<nat>)
    requires slots != [] && Ids(m, slots) <= all
    ensures Ids(m, slots[..|slots| - 1]) <= all
    ensures slots[|slots| - 1].state == Write ==> slots[|slots| - 1].id in all
  {
    var init := slots[..|slots| - 1];
    forall id | id in Ids(m, init)
      ensures id in Ids(m, slots)
    {
      if id !in m {
        var i :| 0 <= i < |init| && init[i].state == Write && init[i].id == id;
        assert slots[i].state == Write && slots[i].id == id;
      }
    }
    var slot := slots[|slots| - 1];
    assert slot.state == Write ==> slot.id in Ids(m, slots);
  }

  lemma MergeOne(rows: seq<Row>, m: map<nat, int>, slot: Slot, max: nat, all: set<nat>)
    requires Lists(rows, m) && m.Keys <= all && |all| <= max && (slot.state == Write ==> slot.id in all)
    ensures Lists(Merge(rows, slot, max), if slot.state == Clean then m else Store(m, slot.id, OpOf(slot)))
  {
    if slot.state == Tombstone {
      MergeRemove(rows, m, slot, max);
    } else if slot.state == Write {
      if FindRow(rows, slot.id).Some? {
        MergeReplace(rows, m, slot, max);
      } else {
        assert slot.id !in m;
        RowsCount(rows, m, all - {slot.id});
        MergeAdd(rows, m, slot, max);
      }
    }
  }

  lemma {:induction false} MergeAllLists(rows: seq<Row>, m: map<nat, int>, slots: seq<Slot>, max: nat, all: set<nat>)
    requires Lists(rows, m) && Ids(m, slots) <= all && |all| <= max
    ensures Lists(MergeAll(rows, slots, max), Overlay(m, slots))
    decreases |slots|
  {
    if slots != [] {
      var init := slots[..|slots| - 1];
      IdsPrefix(m, slots, all);
      MergeAllLists(rows, m, init, max, all);
      OverlayIds(m, init);
      MergeOne(MergeAll(rows, init, max), Overlay(m, init), slots[|slots| - 1], max, all);
    }
  }

  lemma {:induction false} OverlayIs(m: map<nat, int>, slots: seq<Slot>, id: nat)
    requires Unique(slots)
    ensures Stored(Overlay(m, slots), id) == match FindSlot(slots, id) case Some(i) => OpOf(slots[i]) case None => Stored(m, id)
    decreases |slots|
  {
    if slots != [] {
      var n := |slots| - 1;
      var init := slots[..n];
      assert Unique(init);
      OverlayIs(m, init, id);
      StoreElsewhere(Overlay(m, init), slots[n].id, OpOf(slots[n]), id);
      FindPrefix(slots, id);
    }
  }

  lemma FindPrefix(slots: seq<Slot>, id: nat)
    requires slots != [] && Unique(slots)
    ensures FindSlot(slots, id) == if Pending(slots[|slots| - 1], id) then Some(|slots| - 1) else FindSlot(slots[..|slots| - 1], id)
  {
    var n := |slots| - 1;
    var init := slots[..n];
    if Pending(slots[n], id) {
      FindIs(slots, n, id);
    } else if FindSlot(init, id).Some? {
      var i := FindSlot(init, id).value;
      assert slots[i] == init[i];
      FindIs(slots, i, id);
    } else {
      assert forall i: nat :: i < n ==> slots[i] == init[i];
    }
  }

  /** rule_store_load_all, at the instant of its merge, lists exactly the map
      readers see then, no rule twice, when stored and pending ids fit. */
  lemma LoadAllIsAbs(ys: seq<Sys>, h: seq<Event>, nvs: map<nat, int>, n: nat, rows: seq<Row>, max: nat)
    requires IsRun(ys, h, nvs) && n <= |h| && ys[n].loader.Some? && Lists(rows, ys[n].loader.value)
    requires |Ids(ys[n].tab.nvs, ys[n].tab.slots)| <= max
    ensures var all := MergeAll(rows, ys[n].tab.slots, max);
            && (forall i: nat, j: nat :: i < j < |all| ==> all[i].id != all[j].id)
            && forall id: nat :: Abs(ys[n].tab, id) == match FindRow(all, id) case Some(i) => Some(all[i].payload) case None => None
  {
    CoreRun(ys, h, nvs, n);
    var s := ys[n].tab;
    MergeAllLists(rows, s.nvs, s.slots, max, Ids(s.nvs, s.slots));
    var all := MergeAll(rows, s.slots, max);
    forall id: nat
      ensures Abs(s, id) == match FindRow(all, id) case Some(i) => Some(all[i].payload) case None => None
    {
      OverlayIs(s.nvs, s.slots, id);
    }
  }

  // ── The code ──────────────────────────────────────────────────────────

  lemma {:induction false} FirstPending(slots: seq<Slot>, id: nat, i: nat)
    requires i <= |slots| && (forall j :: 0 <= j < i ==> !Pending(slots[j], id)) && (i < |slots| ==> Pending(slots[i], id))
    ensures FindSlot(slots, id) == if i < |slots| then Some(i) else None
    decreases i
  {
    if i > 0 { FirstPending(slots[1..], id, i - 1); }
  }

  lemma {:induction false} FirstClean(slots: seq<Slot>, i: nat)
    requires i <= |slots| && (forall j :: 0 <= j < i ==> slots[j].state != Clean) && (i < |slots| ==> slots[i].state == Clean)
    ensures FindFree(slots) == if i < |slots| then Some(i) else None
    decreases i
  {
    if i > 0 { FirstClean(slots[1..], i - 1); }
  }

  lemma {:induction false} FirstRow(rows: seq<Row>, id: nat, i: nat)
    requires i <= |rows| && (forall j :: 0 <= j < i ==> rows[j].id != id) && (i < |rows| ==> rows[i].id == id)
    ensures FindRow(rows, id) == if i < |rows| then Some(i) else None
    decreases i
  {
    if i > 0 { FirstRow(rows[1..], id, i - 1); }
  }

  class RuleCache {
    const dirty: array<Slot>
    var nvs: map<nat, int>

    constructor (m: map<nat, int>)
      ensures dirty[..] == Empty(m).tab.slots && nvs == m && fresh(dirty)
    {
      dirty := new Slot[CAP](_ => Slot(0, Clean, false, false, 0));
      nvs := m;
    }

    method FindSlotLocked(id: nat) returns (idx: int)
      ensures idx == match FindSlot(dirty[..], id) case None => -1 case Some(i) => i
    {
      for i := 0 to dirty.Length
        invariant forall j :: 0 <= j < i ==> !Pending(dirty[j], id)
      {
        if dirty[i].state != Clean && dirty[i].id == id {
          FirstPending(dirty[..], id, i);
          return i;
        }
      }
      FirstPending(dirty[..], id, dirty.Length);
      return -1;
    }

    method FindFreeLocked() returns (idx: int)
      ensures idx == match FindFree(dirty[..]) case None => -1 case Some(i) => i
    {
      for i := 0 to dirty.Length
        invariant forall j :: 0 <= j < i ==> dirty[j].state != Clean
      {
        if dirty[i].state == Clean {
          FirstClean(dirty[..], i);
          return i;
        }
      }
      FirstClean(dirty[..], dirty.Length);
      return -1;
    }

    /** A mark's locked region: false when the table is full. */
    method MarkLocked(id: nat, op: Op) returns (placed: bool)
      modifies dirty
      ensures placed <==> MarkSlot(old(dirty[..]), id).Some?
      ensures var m := MarkSlot(old(dirty[..]), id);
              dirty[..] == match m case None => old(dirty[..]) case Some(i) => old(dirty[..])[i := Marked(old(dirty[..])[i], id, op)]
    {
      var idx := FindSlotLocked(id);
      if idx < 0 { idx := FindFreeLocked(); }
      if idx < 0 { return false; }
      var flying := dirty[idx].flushing;
      dirty[idx] := Slot(id, if op.Some? then Write else Tombstone, flying, flying, if op.Some? then op.value else 0);
      return true;
    }

    method Save(id: nat, op: Op) returns (ok: bool, ghost applied: bool)
      modifies this`nvs
      ensures ok ==> applied
      ensures nvs == if applied then Store(old(nvs), id, op) else old(nvs)
    {
      var done, said := *, *;
      applied := done;
      ok := done && said;
      if done { nvs := if op.Some? then nvs[id := op.value] else nvs - {id}; }
    }

    /** A flush's first locked region: the snapshot, or None when the slot is
        clean or in flight. */
    method FlushBegin(idx: nat) returns (snap: Option<Slot>)
      requires idx < dirty.Length
      modifies dirty
      ensures Startable(old(dirty[idx])) ==> snap == Some(old(dirty[idx])) && dirty[..] == old(dirty[..])[idx := Started(old(dirty[idx]))]
      ensures !Startable(old(dirty[idx])) ==> snap == None && dirty[..] == old(dirty[..])
    {
      if dirty[idx].state == Clean || dirty[idx].flushing { return None; }
      snap := Some(dirty[idx]);
      dirty[idx] := dirty[idx].(flushing := true, remarked := false);
    }

    method FlushSettle(idx: nat, ok: bool)
      requires idx < dirty.Length
      modifies dirty
      ensures dirty[..] == old(dirty[..])[idx := Settled(old(dirty[idx]), ok)]
    {
      var slot := dirty[idx];
      slot := slot.(flushing := false);
      if slot.remarked {
        slot := slot.(remarked := false);
      } else if ok {
        slot := slot.(state := Clean);
      }
      dirty[idx] := slot;
    }

    /** A whole flush of one slot with no one else at work: a rule whose write
        succeeds leaves the table, and what readers see stays the same. */
    method FlushSlot(idx: nat) returns (done: bool)
      requires idx < dirty.Length && Unique(dirty[..])
      modifies this`nvs, dirty
      ensures Unique(dirty[..])
      ensures Startable(old(dirty[idx])) && done ==>
                dirty[..] == old(dirty[..])[idx := old(dirty[idx]).(flushing := false, remarked := false, state := Clean)]
                && Stored(nvs, old(dirty[idx]).id) == OpOf(old(dirty[idx]))
      ensures !Startable(old(dirty[idx])) ==> done && dirty[..] == old(dirty[..]) && nvs == old(nvs)
    {
      var snap := FlushBegin(idx);
      if snap.None? { return true; }
      ghost var applied;
      done, applied := Save(snap.value.id, OpOf(snap.value));
      FlushSettle(idx, done);
    }

    /** The reader's first look: what is pending for `id`. */
    method LoadOverlay(id: nat) returns (hit: bool, tombstoned: bool, payload: int)
      ensures hit || tombstoned <==> FindSlot(dirty[..], id).Some?
      ensures var f := FindSlot(dirty[..], id);
              f.Some? ==> (hit <==> dirty[f.value].state == Write) && OpOf(dirty[f.value]) == if hit then Some(payload) else None
      ensures !(hit && tombstoned)
    {
      hit, tombstoned, payload := false, false, 0;
      var idx := FindSlotLocked(id);
      if idx >= 0 {
        if dirty[idx].state == Tombstone { return false, true, 0; }
        if dirty[idx].state == Write { return true, false, dirty[idx].payload; }
      }
    }

    // Where out[..count] lists rule `id`, `count` if nowhere.
    method RowOf(out: array<Row>, count: nat, id: nat) returns (i: nat)
      requires count <= out.Length
      ensures i <= count && FindRow(out[..count], id) == if i < count then Some(i) else None
    {
      i := 0;
      while i < count
        invariant i <= count && forall j :: 0 <= j < i ==> out[j].id != id
      {
        if out[i].id == id { break; }
        i := i + 1;
      }
      FirstRow(out[..count], id, i);
    }

    // An edit replaces the rule's row, or is appended while there is room.
    method PutRow(row: Row, out: array<Row>, count: nat, max: nat, found: nat) returns (n: nat)
      requires found <= count <= max <= out.Length
      modifies out
      ensures n == (if found == count < max then count + 1 else count)
      ensures out[..n] == (if found < count then old(out[..count])[found := row]
                           else if count < max then old(out[..count]) + [row] else old(out[..count]))
    {
      n := count;
      if found < count {
        out[found] := row;
      } else if count < max {
        out[count] := row;
        n := count + 1;
      }
    }

    /** One pending entry merged into out[..count], in place. */
    method MergeCb(slot: Slot, out: array<Row>, count: nat, max: nat) returns (n: nat)
      requires count <= max <= out.Length && slot.state != Clean
      modifies out
      ensures n <= max && out[..n] == Merge(old(out[..count]), slot, max)
    {
      ghost var rows := out[..count];
      var found := RowOf(out, count, slot.id);
      if slot.state != Tombstone {
        n := PutRow(Row(slot.id, slot.payload), out, count, max, found);
      } else if found < count {
        RemoveAt(out, count, found);
        n := count - 1;
        assert rows[found + 1..] == old(out[found + 1..count]);
      } else {
        n := count;
      }
    }

    // The tail shifts down by one.
    method RemoveAt(out: array<Row>, count: nat, found: nat)
      requires found < count <= out.Length
      modifies out
      ensures out[..count - 1] == old(out[..found]) + old(out[found + 1..count])
    {
      ghost var was := out[..];
      var i := found + 1;
      while i < count
        invariant found + 1 <= i <= count
        invariant out[..i - 1] == was[..found] + was[found + 1..i]
        invariant out[i - 1..] == was[i - 1..]
      {
        assert out[i] == was[i];
        out[i - 1] := out[i];
        assert out[..i] == was[..found] + was[found + 1..i] + [was[i]];
        assert was[found + 1..i] + [was[i]] == was[found + 1..i + 1];
        assert out[i..] == was[i..];
        i := i + 1;
      }
    }

    // What flash holds, in the iterator's order, up to `max` rows; `left` is
    // what did not fit.
    method ReadRows(out: array<Row>, max: nat) returns (count: nat, ghost left: set<nat>)
      requires max <= out.Length
      modifies out
      ensures count <= max && left <= nvs.Keys && Lists(out[..count], nvs - left)
      ensures |nvs.Keys| <= max ==> left == {}
    {
      var todo := nvs.Keys;
      count := 0;
      while todo != {} && count < max
        invariant count <= max && todo <= nvs.Keys && |todo| + count == |nvs.Keys|
        invariant Lists(out[..count], nvs - todo)
        decreases todo
      {
        var id :| id in todo;
        ghost var rows := out[..count];
        out[count] := Row(id, nvs[id]);
        assert out[..count + 1] == rows + [Row(id, nvs[id])];
        ListsAdd(rows, nvs - todo, id, nvs[id]);
        assert (nvs - todo)[id := nvs[id]] == nvs - (todo - {id});
        todo := todo - {id};
        count := count + 1;
      }
      left := todo;
    }

    /** Every rule as readers see it, each once, when stored and pending ids
        fit `max`. */
    method LoadAll(out: array<Row>, max: nat) returns (count: nat)
      requires max <= out.Length && Unique(dirty[..])
      modifies out
      ensures count <= max
      ensures |Ids(nvs, dirty[..])| <= max ==> Lists(out[..count], Overlay(nvs, dirty[..]))
    {
      ghost var left;
      count, left := ReadRows(out, max);
      ghost var rows := out[..count];
      assert nvs - {} == nvs;
      for i := 0 to dirty.Length
        invariant count <= max && out[..count] == MergeAll(rows, dirty[..i], max)
      {
        assert dirty[..i + 1][..i] == dirty[..i];
        if dirty[i].state != Clean { count := MergeCb(dirty[i], out, count, max); }
      }
      assert dirty[..dirty.Length] == dirty[..];
      if |Ids(nvs, dirty[..])| <= max { AllListed(rows, nvs, dirty[..], max); }
    }
  }

  lemma AllListed(rows: seq<Row>, m: map<nat, int>, slots: seq<Slot>, max: nat)
    requires |Ids(m, slots)| <= max && (|m.Keys| <= max ==> Lists(rows, m))
    ensures Lists(MergeAll(rows, slots, max), Overlay(m, slots))
  {
    SubsetSize(m.Keys, Ids(m, slots));
    MergeAllLists(rows, m, slots, max, Ids(m, slots));
  }
}
