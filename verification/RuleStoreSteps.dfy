/** What the steps of RuleStore do, in plain terms: where an edit goes, what a load answers, and what
    a flush leaves behind when nothing comes in between. */
module RuleStoreSteps {
  import opened Wrappers
  import opened RuleStore

  // An edit of rule `id` waits in slot i: a payload to write, or a deletion.
  ghost predicate WaitsAt(slots: seq<Slot>, i: nat, id: nat, op: Op) {
    && i < |slots| && slots[i].id == id
    && match op
       case Some(v) => slots[i].state == Write && slots[i].payload == v
       case None => slots[i].state == Tombstone
  }

  ghost predicate Waits(slots: seq<Slot>, id: nat, op: Op) {
    exists i: nat :: WaitsAt(slots, i, id, op)
  }

  // Only slot i changed.
  predicate OnlyAt(was: seq<Slot>, now: seq<Slot>, i: nat) {
    |was| == |now| && forall j :: 0 <= j < |was| && j != i ==> now[j] == was[j]
  }

  predicate NoneWaits(slots: seq<Slot>, id: nat) {
    forall i :: 0 <= i < |slots| ==> slots[i].state == Clean || slots[i].id != id
  }

  /** An edit is never lost: it waits in the table afterwards and no other slot changed, or all 64
      slots wait for other rules and it is on its way to flash by itself, which it then reaches. */
  lemma EditAnswered(y: Sys, tid: nat, id: nat, op: Op)
    requires Core(y) && Enabled(y, Mark(tid, id, op))
    ensures var z := Step(y, Mark(tid, id, op));
            if Waits(z.tab.slots, id, op) then
              && z.directs == y.directs && z.tab.nvs == y.tab.nvs
              && exists i: nat :: WaitsAt(z.tab.slots, i, id, op) && OnlyAt(y.tab.slots, z.tab.slots, i)
            else
              && (forall i :: 0 <= i < 64 ==> y.tab.slots[i].state != Clean && y.tab.slots[i].id != id)
              && z.tab == y.tab && z.directs == y.directs[tid := Direct(id, op)]
  {
    var t := y.tab;
    var m := MarkSlot(t.slots, id);
    if m.Some? {
      var z := Step(y, Mark(tid, id, op));
      assert WaitsAt(z.tab.slots, m.value, id, op) && OnlyAt(t.slots, z.tab.slots, m.value);
    } else {
      assert forall i :: 0 <= i < 64 ==> !Pending(t.slots[i], id);
    }
  }

  lemma DirectReaches(y: Sys, tid: nat)
    requires Core(y) && tid in y.directs && y.loader.None?
    ensures Enabled(y, DirectWrite(tid))
    ensures var z, d := Step(y, DirectWrite(tid)), y.directs[tid];
            && z.tab.nvs == (if d.op.Some? then y.tab.nvs[d.id := d.op.value] else y.tab.nvs - {d.id})
            && z.tab.slots == y.tab.slots && z.directs == y.directs - {tid}
  {
  }

  lemma ReadEnters(y: Sys, tid: nat, id: nat, z: Sys)
    requires Core(y) && Enabled(y, ReadBegin(tid, id)) && z == Step(y, ReadBegin(tid, id))
    ensures z.tab == y.tab && z.loader == y.loader && tid in z.readers && z.readers[tid].id == id && z.readers[tid].phase == Entered
  {
  }

  lemma ReadLooks(y: Sys, tid: nat, z: Sys)
    requires |y.tab.slots| == 64 == |y.tab.vers| && Enabled(y, ReadOverlay(tid)) && z == Step(y, ReadOverlay(tid))
    ensures z.tab == y.tab && z.loader == y.loader && tid in z.readers && z.readers[tid].id == y.readers[tid].id
    ensures z.readers[tid].phase ==
            match FindSlot(y.tab.slots, y.readers[tid].id)
            case Some(i) => Returned(OpOf(y.tab.slots[i]))
            case None => Missed
  {
  }

  /** A load of a rule with an edit waiting answers with that edit, a deletion as no rule. */
  lemma LoadAnswersEdit(y: Sys, tid: nat, id: nat, op: Op)
    requires Core(y) && Enabled(y, ReadBegin(tid, id)) && Waits(y.tab.slots, id, op)
    ensures var y1 := Step(y, ReadBegin(tid, id));
            && |y1.tab.slots| == 64 == |y1.tab.vers| && Enabled(y1, ReadOverlay(tid))
            && var z := Step(y1, ReadOverlay(tid));
            z.tab == y.tab && tid in z.readers && z.readers[tid].phase == Returned(op)
  {
    var y1 := Step(y, ReadBegin(tid, id));
    ReadEnters(y, tid, id, y1);
    ReadLooks(y1, tid, Step(y1, ReadOverlay(tid)));
    var i: nat :| WaitsAt(y.tab.slots, i, id, op);
    FindIs(y.tab.slots, i, id);
  }

  /** A load of a rule with none waiting answers with what flash holds. */
  lemma LoadAnswersFlash(y: Sys, tid: nat, id: nat)
    requires Core(y) && Enabled(y, ReadBegin(tid, id)) && y.loader.None? && NoneWaits(y.tab.slots, id)
    ensures var y1 := Step(y, ReadBegin(tid, id));
            && |y1.tab.slots| == 64 == |y1.tab.vers| && Enabled(y1, ReadOverlay(tid))
            && var y2 := Step(y1, ReadOverlay(tid));
            && |y2.tab.slots| == 64 == |y2.tab.vers| && Enabled(y2, ReadNvs(tid))
            && var z := Step(y2, ReadNvs(tid));
            && z.tab == y.tab && tid in z.readers
            && z.readers[tid].phase == Returned(if id in y.tab.nvs then Some(y.tab.nvs[id]) else None)
  {
    var y1 := Step(y, ReadBegin(tid, id));
    ReadEnters(y, tid, id, y1);
    var y2 := Step(y1, ReadOverlay(tid));
    ReadLooks(y1, tid, y2);
    assert FindSlot(y.tab.slots, id).None?;
  }

  lemma FlushTakes(y: Sys, tid: nat, i: nat, z: Sys)
    requires |y.tab.slots| == 64 == |y.tab.vers| && i < 64 && Enabled(y, FlushBegin(tid, i))
    requires y.tab.slots[i].state != Clean && !y.tab.slots[i].flushing
    requires z == Step(y, FlushBegin(tid, i))
    ensures z.tab.slots == y.tab.slots[i := y.tab.slots[i].(flushing := true, remarked := false)]
    ensures |z.tab.vers| == 64 && z.tab.nvs == y.tab.nvs && z.loader == y.loader && tid in z.tab.flights
    ensures var f := z.tab.flights[tid]; f.idx == i && f.id == y.tab.slots[i].id && f.op == OpOf(y.tab.slots[i]) && !f.written
  {
  }

  lemma FlushWrites(y: Sys, tid: nat, applied: bool, ok: bool, z: Sys)
    requires |y.tab.slots| == 64 == |y.tab.vers| && Enabled(y, FlushWrite(tid, applied, ok)) && z == Step(y, FlushWrite(tid, applied, ok))
    ensures var f := y.tab.flights[tid];
            && z.tab.slots == y.tab.slots && |z.tab.vers| == 64
            && z.tab.nvs == (if !applied then y.tab.nvs else if f.op.Some? then y.tab.nvs[f.id := f.op.value] else y.tab.nvs - {f.id})
            && tid in z.tab.flights && z.tab.flights[tid] == f.(written := true, ok := ok)
  {
  }

  lemma FlushLands(y: Sys, tid: nat, z: Sys, i: nat)
    requires |y.tab.slots| == 64 == |y.tab.vers| && Enabled(y, FlushSettle(tid)) && z == Step(y, FlushSettle(tid))
    requires i == y.tab.flights[tid].idx && !y.tab.slots[i].remarked
    ensures z.tab.nvs == y.tab.nvs
    ensures z.tab.slots ==
            y.tab.slots[i := y.tab.slots[i].(state := if y.tab.flights[tid].ok then Clean else y.tab.slots[i].state, flushing := false)]
  {
  }

  /** A flush of a slot that waits, its three steps in a row: flash holds the edit and the slot is
      clean; when the write fails the slot waits again, and flash holds the edit or what it held. */
  lemma FlushCompletes(y: Sys, tid: nat, i: nat, op: Op, applied: bool, ok: bool)
    requires |y.tab.slots| == 64 == |y.tab.vers| && i < 64 && Enabled(y, FlushBegin(tid, i)) && y.loader.None? && (ok ==> applied)
    requires WaitsAt(y.tab.slots, i, y.tab.slots[i].id, op) && !y.tab.slots[i].flushing
    ensures var y1 := Step(y, FlushBegin(tid, i));
            && |y1.tab.slots| == 64 == |y1.tab.vers| && Enabled(y1, FlushWrite(tid, applied, ok))
            && var y2 := Step(y1, FlushWrite(tid, applied, ok));
            && |y2.tab.slots| == 64 == |y2.tab.vers| && Enabled(y2, FlushSettle(tid))
            && var z, s := Step(y2, FlushSettle(tid)), y.tab.slots[i];
            && z.tab.nvs == (if !applied then y.tab.nvs else if op.Some? then y.tab.nvs[s.id := op.value] else y.tab.nvs - {s.id})
            && z.tab.slots == y.tab.slots[i := s.(state := if ok then Clean else s.state, flushing := false, remarked := false)]
  {
    var y1 := Step(y, FlushBegin(tid, i));
    FlushTakes(y, tid, i, y1);
    var y2 := Step(y1, FlushWrite(tid, applied, ok));
    FlushWrites(y1, tid, applied, ok, y2);
    FlushLands(y2, tid, Step(y2, FlushSettle(tid)), i);
    assert OpOf(y.tab.slots[i]) == op;
  }

  /** A rule edited again while its edit was written keeps the newer one waiting, however the write
      went. */
  lemma EditedMeanwhile(y: Sys, tid: nat)
    requires Core(y) && Enabled(y, FlushSettle(tid)) && y.tab.slots[y.tab.flights[tid].idx].remarked
    ensures var z, i := Step(y, FlushSettle(tid)), y.tab.flights[tid].idx;
            && z.tab.slots == y.tab.slots[i := y.tab.slots[i].(flushing := false, remarked := false)]
            && z.tab.nvs == y.tab.nvs
  {
    assert FlightOk(y.tab, y.tab.flights[tid]);
  }

  // ── The barrier ────────────────────────────────────────────────────

  lemma StepParts(y: Sys, e: Event, z: Sys)
    requires |y.tab.slots| == 64 == |y.tab.vers| && Enabled(y, e) && z == Step(y, e)
    ensures z.nows == NowsNext(y, e) && z.tab == TabStep(y, e)
  {
  }

  /** flush_now starts its first pass at slot 0. */
  lemma BarrierBegins(y: Sys, tid: nat, z: Sys)
    requires |y.tab.slots| == 64 == |y.tab.vers| && Enabled(y, NowBegin(tid)) && z == Step(y, NowBegin(tid))
    ensures tid in z.nows && z.nows[tid].pass == 1 && z.nows[tid].i == 0 && z.nows[tid].stage == Visiting && z.tab == y.tab
  {
    StepParts(y, NowBegin(tid), z);
  }

  /** At each slot it flushes what waits there; a slot with nothing waiting, or one that someone else
      writes, is passed over. */
  lemma BarrierVisits(y: Sys, tid: nat, z: Sys)
    requires |y.tab.slots| == 64 == |y.tab.vers| && Enabled(y, NowVisit(tid)) && z == Step(y, NowVisit(tid))
    ensures var n, s := y.nows[tid], y.tab.slots[y.nows[tid].i];
            if s.state != Clean && !s.flushing then
              && z.nows == y.nows && tid in z.tab.flights && z.tab.flights[tid].idx == n.i && z.tab.flights[tid].id == s.id
              && z.tab.slots == y.tab.slots[n.i := s.(flushing := true, remarked := false)]
            else
              z.tab == y.tab && z.nows == y.nows[tid := n.(i := n.i + 1)]
  {
    StepParts(y, NowVisit(tid), z);
  }

  /** A flush of its own done, it goes on to the next slot. */
  lemma BarrierGoesOn(y: Sys, tid: nat, z: Sys)
    requires |y.tab.slots| == 64 == |y.tab.vers| && Enabled(y, FlushSettle(tid)) && tid in y.nows && z == Step(y, FlushSettle(tid))
    ensures z.nows == y.nows[tid := y.nows[tid].(i := y.nows[tid].i + 1)]
  {
    StepParts(y, FlushSettle(tid), z);
  }

  /** Past the last slot it waits until nothing is being written... */
  lemma BarrierWaits(y: Sys, tid: nat, z: Sys)
    requires |y.tab.slots| == 64 == |y.tab.vers| && Enabled(y, NowWait(tid)) && z == Step(y, NowWait(tid))
    ensures y.nows[tid].i == 64 && forall i :: 0 <= i < 64 ==> !y.tab.slots[i].flushing
    ensures z.nows == y.nows[tid := y.nows[tid].(stage := Waited)] && z.tab == y.tab
  {
    StepParts(y, NowWait(tid), z);
  }

  /** ...and ends there when nothing waits any more, and after the second pass in any case; else the
      second pass starts at slot 0. */
  lemma BarrierEnds(y: Sys, tid: nat, z: Sys)
    requires |y.tab.slots| == 64 == |y.tab.vers| && Enabled(y, NowCheck(tid)) && z == Step(y, NowCheck(tid))
    ensures tid in z.nows && z.tab == y.tab
    ensures var n := y.nows[tid];
            if n.pass >= 2 || forall i :: 0 <= i < 64 ==> y.tab.slots[i].state == Clean then z.nows[tid] == n.(stage := Over)
            else z.nows[tid] == Now(2, 0, Visiting, n.targets, n.base)
  {
    StepParts(y, NowCheck(tid), z);
  }
}
