/** What the steps of ZapStoreFlush do, in plain terms: where a mark goes, and what one flush and
    one hard removal leave behind when nothing comes in between. */
module ZapFlushSteps {
  import opened Wrappers
  import opened ZapStoreFlush

  predicate Waits(t: Table, ieee: nat) {
    exists i :: 0 <= i < |t.slots| && t.slots[i].state != Free && t.slots[i].ieee == ieee
  }

  lemma WaitsIf(t: Table, i: nat, ieee: nat)
    requires i < |t.slots| && t.slots[i].state != Free && t.slots[i].ieee == ieee
    ensures Waits(t, ieee)
  {
  }

  // Slot i after a mark, and the others as they were.
  ghost predicate MarkedAt(was: seq<Slot>, now: seq<Slot>, i: nat, ieee: nat, high: bool) {
    && i < |was| == |now| && (forall j :: 0 <= j < |was| && j != i ==> now[j] == was[j])
    && (was[i].state == Free || was[i].ieee == ieee)
    && now[i] == (if was[i].state == Free then Slot(ieee, Dirty, false, high)
                  else Slot(ieee, was[i].state, was[i].remarked || was[i].state == Flushing, was[i].high || high))
  }

  /** A mark is never lost: the device waits in the table afterwards, or, when all 64 slots wait for
      other devices, a save of it has begun. A slot keeps the higher of two priorities, and one that
      is being written is noted to have newer data. */
  lemma MarkAnswered(y: Sys, tid: nat, ieee: nat, high: bool)
    requires Core(y) && Enabled(y, Mark(tid, ieee, high))
    ensures var z := Step(y, Mark(tid, ieee, high));
            if Waits(z.tab, ieee) then exists i :: MarkedAt(y.tab.slots, z.tab.slots, i, ieee, high)
            else
              && (forall i :: 0 <= i < 64 ==> y.tab.slots[i].state != Free && y.tab.slots[i].ieee != ieee)
              && z.tab == y.tab.(flights := y.tab.flights[tid := Flight(64, ieee, y.home.now, Begun)])
  {
    var t := y.tab;
    var m := MarkSlot(t.slots, ieee);
    if m.Some? {
      var z := Step(y, Mark(tid, ieee, high));
      WaitsIf(z.tab, m.value, ieee);
      assert MarkedAt(t.slots, z.tab.slots, m.value, ieee, high);
    } else {
      assert forall i :: 0 <= i < 64 ==> !Pending(t.slots[i], ieee);
    }
  }

  lemma FlushTakes(y: Sys, tid: nat, idx: nat)
    requires Core(y) && idx < 64 && y.tab.slots[idx].state == Dirty && tid !in y.tab.flights
    requires Enabled(y, FlushBegin(tid, idx))
    ensures var x, z := y.tab.slots[idx].ieee, Step(y, FlushBegin(tid, idx));
            && z.home == Tick(y.home) && z.devs == y.devs && z.removing == y.removing
            && z.tab.slots == y.tab.slots[idx := Slot(x, Flushing, false, y.tab.slots[idx].high)]
            && z.tab.flights == y.tab.flights[tid := Flight(idx, x, y.home.now, Begun)]
  {
  }

  lemma ReadHome(h: Home, tid: nat, x: nat)
    requires h.lock.None?
    ensures var z := Read(h, tid, x);
            && z.pool == h.pool && z.store == h.store
            && (if x in h.pool then z.lock.Some? && z.lock.value.(at := 0) == Copy(tid, x, h.pool[x], 0) else z.lock.None?)
  {
  }

  // The pool's copy is read, or the device found gone.
  lemma ReadTakes(y: Sys, tid: nat, z: Sys, x: nat)
    requires Enabled(y, SaveRead(tid)) && z == Step(y, SaveRead(tid)) && x == y.tab.flights[tid].ieee
    ensures z.home == Read(y.home, tid, x) && z.devs == y.devs && z.removing == y.removing && z.tab.slots == y.tab.slots
    ensures z.tab.flights == y.tab.flights[tid := y.tab.flights[tid].(phase := if x in y.home.pool then Reading else Done(false, true))]
  {
  }

  // A flush that has read the pool's copy, or found the device gone.
  lemma FlushReads(y: Sys, tid: nat, idx: nat)
    requires Core(y) && idx < 64 && y.tab.slots[idx].state == Dirty && y.home.lock.None?
    requires tid !in y.tab.flights && tid !in y.devs
    ensures var x, y1 := y.tab.slots[idx].ieee, Step(y, FlushBegin(tid, idx));
            && Enabled(y1, SaveRead(tid))
            && var y2 := Step(y1, SaveRead(tid));
            && y2.home.pool == y.home.pool && y2.home.store == y.home.store && y2.devs == y.devs && y2.removing == y.removing
            && y2.tab.slots == y.tab.slots[idx := Slot(x, Flushing, false, y.tab.slots[idx].high)]
            && tid in y2.tab.flights && y2.tab.flights - {tid} == y.tab.flights
            && y2.tab.flights[tid].idx == idx && y2.tab.flights[tid].ieee == x
            && y2.tab.flights[tid].phase == (if x in y.home.pool then Reading else Done(false, true))
            && (if x in y.home.pool then
                  y2.home.lock.Some? && y2.home.lock.value.(at := 0) == Copy(tid, x, y.home.pool[x], 0)
                else y2.home.lock.None?)
  {
    FlushTakes(y, tid, idx);
    var y1 := Step(y, FlushBegin(tid, idx));
    var y2 := Step(y1, SaveRead(tid));
    ReadTakes(y1, tid, y2, y.tab.slots[idx].ieee);
    ReadHome(y1.home, tid, y.tab.slots[idx].ieee);
    assert y2.tab.flights - {tid} == y.tab.flights;
  }

  /** A flush of a slot that waits for a device in the pool, its four steps in a row: the pool's copy
      is on flash and the slot is free; when the write fails the slot waits again. */
  lemma FlushCompletes(y: Sys, tid: nat, idx: nat, ok: bool)
    requires Core(y) && idx < 64 && y.tab.slots[idx].state == Dirty && y.home.lock.None?
    requires tid !in y.tab.flights && tid !in y.devs && y.tab.slots[idx].ieee in y.home.pool
    ensures var x, y1 := y.tab.slots[idx].ieee, Step(y, FlushBegin(tid, idx));
            && Enabled(y1, SaveRead(tid)) && Enabled(Step(y1, SaveRead(tid)), SaveWrite(tid, ok, ok))
            && var y3 := Step(Step(y1, SaveRead(tid)), SaveWrite(tid, ok, ok));
            && Enabled(y3, Settle(tid))
            && var z := Step(y3, Settle(tid));
            && z.home.store == (if ok then y.home.store[x := y.home.pool[x]] else y.home.store)
            && z.tab.slots == y.tab.slots[idx := Slot(x, if ok then Free else Dirty, false, y.tab.slots[idx].high)]
            && z.home.pool == y.home.pool && z.home.lock.None? && z.tab.flights == y.tab.flights
  {
    FlushReads(y, tid, idx);
    var y2 := Step(Step(y, FlushBegin(tid, idx)), SaveRead(tid));
    WriteSettles(y2, tid, ok);
  }

  lemma WriteSettles(y: Sys, tid: nat, ok: bool)
    requires y.home.lock.Some? && y.home.lock.value.tid == tid && tid in y.tab.flights && y.tab.flights[tid].idx < |y.tab.slots|
    requires y.tab.slots[y.tab.flights[tid].idx].state == Flushing && !y.tab.slots[y.tab.flights[tid].idx].remarked
    ensures Enabled(y, SaveWrite(tid, ok, ok)) && Enabled(Step(y, SaveWrite(tid, ok, ok)), Settle(tid))
    ensures var z := Step(Step(y, SaveWrite(tid, ok, ok)), Settle(tid));
            var i, c := y.tab.flights[tid].idx, y.home.lock.value;
            && z.home.store == (if ok then y.home.store[c.ieee := c.data] else y.home.store)
            && z.tab.slots == y.tab.slots[i := y.tab.slots[i].(state := if ok then Free else Dirty)]
            && z.home.pool == y.home.pool && z.home.lock.None? && z.tab.flights == y.tab.flights - {tid}
  {
    var z := Step(Step(y, SaveWrite(tid, ok, ok)), Settle(tid));
    assert z.tab.flights == y.tab.flights - {tid};
  }

  /** And of one whose device has left the pool: flash is not touched, and the slot is free. */
  lemma FlushDrops(y: Sys, tid: nat, idx: nat)
    requires Core(y) && idx < 64 && y.tab.slots[idx].state == Dirty && y.home.lock.None?
    requires tid !in y.tab.flights && tid !in y.devs && y.tab.slots[idx].ieee !in y.home.pool
    ensures var x, y1 := y.tab.slots[idx].ieee, Step(y, FlushBegin(tid, idx));
            && Enabled(y1, SaveRead(tid)) && Enabled(Step(y1, SaveRead(tid)), Settle(tid))
            && var z := Step(Step(y1, SaveRead(tid)), Settle(tid));
            && z.home.store == y.home.store && z.home.pool == y.home.pool && z.tab.flights == y.tab.flights
            && z.tab.slots == y.tab.slots[idx := Slot(x, Free, false, y.tab.slots[idx].high)]
  {
    FlushReads(y, tid, idx);
  }

  /** A slot that was marked again while it was written waits once more, however the write went. */
  lemma MarkedMeanwhile(y: Sys, tid: nat)
    requires Core(y) && Enabled(y, Settle(tid)) && y.tab.flights[tid].idx < 64 && y.tab.slots[y.tab.flights[tid].idx].remarked
    ensures var z, i := Step(y, Settle(tid)), y.tab.flights[tid].idx;
            && z.tab.slots == y.tab.slots[i := Slot(y.tab.slots[i].ieee, Dirty, false, y.tab.slots[i].high)]
            && z.home.store == y.home.store
  {
  }

  /** A hard removal: first out of the pool, then off flash; both are gone then. */
  lemma RemovalCompletes(y: Sys, tid: nat, ieee: nat)
    requires Core(y) && Enabled(y, RemovePool(tid, ieee)) && y.home.lock.None?
    ensures var y1 := Step(y, RemovePool(tid, ieee));
            && y1.home.pool == y.home.pool - {ieee} && y1.home.store == y.home.store && y1.tab == y.tab
            && Enabled(y1, RemoveStore(tid))
            && var z := Step(y1, RemoveStore(tid));
            && z.home.pool == y.home.pool - {ieee} && z.home.store == y.home.store - {ieee} && z.tab == y.tab
            && z.removing == y.removing - {tid}
  {
  }

  // flush_device at slot i, which waits for its device: a slot not being written is its own to flush.
  predicate PeekedAt(t: Table, i: nat, ieee: nat, phase: DevPhase) {
    && i < |t.slots| && t.slots[i].ieee == ieee && t.slots[i].state != Free
    && phase == if t.slots[i].state == Dirty then Peeked(i) else Looking
  }

  /** flush_device: true at once when the device does not wait, its own flush of a slot that waits for
      it, and another look while someone else writes the slot. */
  lemma FlushDeviceTurns(y: Sys, tid: nat)
    requires Core(y) && tid in y.devs && Enabled(y, DevPeek(tid))
    ensures var z, d := Step(y, DevPeek(tid)), y.devs[tid];
            && tid in z.devs && z.tab == y.tab && z.home.store == y.home.store
            && if Waits(y.tab, d.ieee) then exists i :: PeekedAt(y.tab, i, d.ieee, z.devs[tid].phase)
               else z.devs[tid].phase == Over(true)
  {
    var d := y.devs[tid];
    var f := FindSlot(y.tab.slots, d.ieee);
    if f.Some? {
      WaitsIf(y.tab, f.value, d.ieee);
      assert PeekedAt(y.tab, f.value, d.ieee, Step(y, DevPeek(tid)).devs[tid].phase);
    }
  }

  /** Its own flush: true when the slot was freed or went to another device since the look, another
      look when someone else writes it; else it takes the slot, and answers true when the device was
      written or had left the pool, false when the write failed. */
  lemma FlushDeviceEnds(y: Sys, tid: nat)
    requires Core(y) && tid in y.devs
    ensures Enabled(y, DevFlush(tid)) ==>
              var z, d := Step(y, DevFlush(tid)), y.devs[tid];
              var slot := y.tab.slots[d.phase.idx];
              && tid in z.devs
              && (slot.state == Flushing ==> z.devs[tid].phase == Looking && z.tab == y.tab)
              && (slot.state != Flushing && (slot.state == Free || slot.ieee != d.ieee) ==> z.devs[tid].phase == Over(true) && z.tab == y.tab)
              && (slot.state == Dirty && slot.ieee == d.ieee ==>
                    && z.devs[tid].phase == Own && tid in z.tab.flights && z.tab.flights[tid].idx == d.phase.idx
                    && z.tab.slots == y.tab.slots[d.phase.idx := Slot(d.ieee, Flushing, false, slot.high)])
    ensures Enabled(y, Settle(tid)) ==>
              var z, p := Step(y, Settle(tid)), y.tab.flights[tid].phase;
              tid in z.devs && z.devs[tid].phase == Over(p.persisted || p.dropped)
  {
  }
}
