/** The shadow table in place: the array, its count and the software timers
    (components/device_shadow/device_shadow.cpp).

    A timer carries the address of its entry as its ID; here the ID is the entry's index. Removal
    moves the last entry into the hole, so the IDs of that entry's timers must move with it. Each
    method is a region the source runs under the table lock, and is proved against the table
    functions of the interleaving machine in `DeviceShadow`. */
module ShadowTable {
  import opened Wrappers
  import opened ShadowPipeline
  import opened DeviceShadow

  type Timer = nat

  datatype Kind = Debounce | Occupancy | NoOccupancy

  datatype Timers = Timers(debounce: Option<Timer>, occupancy: Option<Timer>, noOccupancy: Option<Timer>) {
    function Of(k: Kind): Option<Timer> {
      match k
      case Debounce => debounce
      case Occupancy => occupancy
      case NoOccupancy => noOccupancy
    }

    function With(k: Kind, o: Option<Timer>): Timers {
      match k
      case Debounce => this.(debounce := o)
      case Occupancy => this.(occupancy := o)
      case NoOccupancy => this.(noOccupancy := o)
    }

    predicate Owns(t: Timer) {
      debounce == Some(t) || occupancy == Some(t) || noOccupancy == Some(t)
    }

    predicate Separate() {
      && (debounce.Some? ==> debounce != occupancy && debounce != noOccupancy)
      && (occupancy.Some? ==> occupancy != noOccupancy)
    }
  }

  datatype Entry = Entry(row: Row, timers: Timers)

  function NoTimers(): Timers {
    Timers(None, None, None)
  }

  function Zeroed(): Entry {
    Entry(Row(0, Cell([], Config(0, 0, false, false, [], [], 0, false), false, None, None)), NoTimers())
  }

  function RowsOf(es: seq<Entry>): (t: Table)
    ensures |t| == |es|
    ensures forall i :: 0 <= i < |es| ==> t[i] == es[i].row
  {
    seq(|es|, i requires 0 <= i < |es| => es[i].row)
  }

  // ── Timers ─────────────────────────────────────────────────────────

  /** The live timers: each one's ID is the index of the entry that owns it, no entry holds a
      deleted timer, and handles below `next` are the ones given out so far. */
  ghost predicate TimersOk(es: seq<Entry>, ids: map<Timer, nat>, next: nat) {
    && (forall t :: t in ids ==> Live(es, ids, next, t))
    && (forall i, t :: 0 <= i < |es| && es[i].timers.Owns(t) ==> t in ids && ids[t] == i)
    && (forall i :: 0 <= i < |es| ==> es[i].timers.Separate())
  }

  predicate Live(es: seq<Entry>, ids: map<Timer, nat>, next: nat, t: Timer)
    requires t in ids
  {
    t < next && ids[t] < |es| && es[ids[t]].timers.Owns(t)
  }

  function Deleted(ids: map<Timer, nat>, o: Option<Timer>): map<Timer, nat> {
    if o.Some? then ids - {o.value} else ids
  }

  function AllDeleted(ids: map<Timer, nat>, tm: Timers): map<Timer, nat> {
    Deleted(Deleted(Deleted(ids, tm.occupancy), tm.debounce), tm.noOccupancy)
  }

  function Repointed(ids: map<Timer, nat>, o: Option<Timer>, i: nat): map<Timer, nat> {
    if o.Some? then ids[o.value := i] else ids
  }

  function AllRepointed(ids: map<Timer, nat>, tm: Timers, i: nat): map<Timer, nat> {
    Repointed(Repointed(Repointed(ids, tm.debounce, i), tm.occupancy, i), tm.noOccupancy, i)
  }

  lemma AllDeletedIs(ids: map<Timer, nat>, tm: Timers, t: Timer)
    ensures t in AllDeleted(ids, tm) <==> t in ids && !tm.Owns(t)
    ensures t in AllDeleted(ids, tm) ==> AllDeleted(ids, tm)[t] == ids[t]
  {
  }

  lemma AllRepointedIs(ids: map<Timer, nat>, tm: Timers, i: nat, t: Timer)
    ensures t in AllRepointed(ids, tm, i) <==> t in ids || tm.Owns(t)
    ensures t in AllRepointed(ids, tm, i) ==>
              AllRepointed(ids, tm, i)[t] == if tm.Owns(t) then i else ids[t]
  {
  }

  /** The timer IDs after a removal at `i`. */
  function IdsAfterRemove(es: seq<Entry>, ids: map<Timer, nat>, i: nat): map<Timer, nat>
    requires i < |es|
  {
    var d := AllDeleted(ids, es[i].timers);
    if i == |es| - 1 then d else AllRepointed(d, es[|es| - 1].timers, i)
  }

  lemma IdsAfterRemoveIs(es: seq<Entry>, ids: map<Timer, nat>, next: nat, i: nat, t: Timer)
    requires TimersOk(es, ids, next) && i < |es|
    ensures t in IdsAfterRemove(es, ids, i) <==> t in ids && ids[t] != i
    ensures t in IdsAfterRemove(es, ids, i) ==>
              IdsAfterRemove(es, ids, i)[t] == if ids[t] == |es| - 1 then i else ids[t]
  {
    AllDeletedIs(ids, es[i].timers, t);
    AllRepointedIs(AllDeleted(ids, es[i].timers), es[|es| - 1].timers, i, t);
    assert es[i].timers.Owns(t) <==> t in ids && ids[t] == i;
    assert es[|es| - 1].timers.Owns(t) <==> t in ids && ids[t] == |es| - 1;
  }

  lemma RemoveKeepsLive(es: seq<Entry>, ids: map<Timer, nat>, next: nat, i: nat, t: Timer)
    requires TimersOk(es, ids, next) && i < |es| && t in IdsAfterRemove(es, ids, i)
    ensures Live(SwapRemoved(es, i), IdsAfterRemove(es, ids, i), next, t)
  {
    IdsAfterRemoveIs(es, ids, next, i, t);
    assert Live(es, ids, next, t);
  }

  lemma RemoveKeepsOwned(es: seq<Entry>, ids: map<Timer, nat>, next: nat, i: nat, k: nat, t: Timer)
    requires TimersOk(es, ids, next) && i < |es|
    requires k < |es| - 1 && SwapRemoved(es, i)[k].timers.Owns(t)
    ensures t in IdsAfterRemove(es, ids, i) && IdsAfterRemove(es, ids, i)[t] == k
  {
    var was := if k == i then |es| - 1 else k;
    assert es[was].timers.Owns(t);
    IdsAfterRemoveIs(es, ids, next, i, t);
  }

  /** Compaction keeps every live timer on its entry. */
  lemma RemoveKeepsTimers(es: seq<Entry>, ids: map<Timer, nat>, next: nat, i: nat)
    requires TimersOk(es, ids, next) && i < |es|
    ensures TimersOk(SwapRemoved(es, i), IdsAfterRemove(es, ids, i), next)
  {
    var fs, js := SwapRemoved(es, i), IdsAfterRemove(es, ids, i);
    forall t | t in js ensures Live(fs, js, next, t) {
      RemoveKeepsLive(es, ids, next, i, t);
    }
    forall k: nat, t: Timer | 0 <= k < |fs| && fs[k].timers.Owns(t) ensures t in js && js[t] == k {
      RemoveKeepsOwned(es, ids, next, i, k, t);
    }
  }

  lemma EntryKeepsTimers(es: seq<Entry>, ids: map<Timer, nat>, next: nat, i: nat, r: Row)
    requires TimersOk(es, ids, next) && i < |es|
    ensures TimersOk(es[i := Entry(r, es[i].timers)], ids, next)
  {
    var fs := es[i := Entry(r, es[i].timers)];
    assert forall k :: 0 <= k < |es| ==> fs[k].timers == es[k].timers;
  }

  lemma AppendKeepsTimers(es: seq<Entry>, ids: map<Timer, nat>, next: nat, r: Row)
    requires TimersOk(es, ids, next)
    ensures TimersOk(es + [Entry(r, NoTimers())], ids, next)
  {
    var fs := es + [Entry(r, NoTimers())];
    assert forall k :: 0 <= k < |es| ==> fs[k] == es[k];
    assert fs[|es|].timers == NoTimers();
  }

  lemma CreateKeepsTimers(es: seq<Entry>, ids: map<Timer, nat>, next: nat, i: nat, k: Kind)
    requires TimersOk(es, ids, next) && i < |es| && es[i].timers.Of(k) == None
    ensures TimersOk(es[i := Entry(es[i].row, es[i].timers.With(k, Some(next)))], ids[next := i], next + 1)
  {
    var fs, js := es[i := Entry(es[i].row, es[i].timers.With(k, Some(next)))], ids[next := i];
    assert forall m :: 0 <= m < |es| && m != i ==> fs[m] == es[m];
    forall m: Timer ensures fs[i].timers.Owns(m) <==> es[i].timers.Owns(m) || m == next {
    }
    assert !es[i].timers.Owns(next) by {
      assert es[i].timers.Owns(next) ==> next in ids;
    }
    forall m: nat, t: Timer | 0 <= m < |fs| && fs[m].timers.Owns(t) ensures t in js && js[t] == m {
      assert es[m].timers.Owns(t) ==> t in ids && ids[t] == m && t < next;
    }
  }

  lemma DeleteKeepsTimers(es: seq<Entry>, ids: map<Timer, nat>, next: nat, i: nat, k: Kind)
    requires TimersOk(es, ids, next) && i < |es|
    ensures TimersOk(es[i := Entry(es[i].row, es[i].timers.With(k, None))], Deleted(ids, es[i].timers.Of(k)), next)
  {
    var fs := es[i := Entry(es[i].row, es[i].timers.With(k, None))];
    var js := Deleted(ids, es[i].timers.Of(k));
    assert es[i].timers.Separate();
    assert forall m :: 0 <= m < |es| && m != i ==> fs[m] == es[m];
    forall t: Timer ensures fs[i].timers.Owns(t) <==> es[i].timers.Owns(t) && es[i].timers.Of(k) != Some(t) {
    }
    forall m: nat, t: Timer | 0 <= m < |fs| && fs[m].timers.Owns(t) ensures t in js && js[t] == m {
      assert es[m].timers.Owns(t) ==> t in ids && ids[t] == m;
      assert es[i].timers.Of(k).Some? ==> es[i].timers.Owns(es[i].timers.Of(k).value);
    }
  }

  lemma AllDeletedOf(es: seq<Entry>, ids: map<Timer, nat>, next: nat, i: nat, t: Timer)
    requires TimersOk(es, ids, next) && i < |es|
    ensures t in AllDeleted(ids, es[i].timers) <==> t in ids && ids[t] != i
    ensures t in AllDeleted(ids, es[i].timers) ==> AllDeleted(ids, es[i].timers)[t] == ids[t]
  {
    AllDeletedIs(ids, es[i].timers, t);
    CallbackFindsOwner(es, ids, next, i, t);
  }

  lemma ClearKeepsLive(es: seq<Entry>, ids: map<Timer, nat>, next: nat, i: nat, r: Row, t: Timer)
    requires TimersOk(es, ids, next) && i < |es| && t in AllDeleted(ids, es[i].timers)
    ensures Live(es[i := Entry(r, NoTimers())], AllDeleted(ids, es[i].timers), next, t)
  {
    AllDeletedOf(es, ids, next, i, t);
    assert Live(es, ids, next, t);
  }

  lemma ClearKeepsOwned(es: seq<Entry>, ids: map<Timer, nat>, next: nat, i: nat, r: Row, k: nat, t: Timer)
    requires TimersOk(es, ids, next) && i < |es| && k < |es|
    requires es[i := Entry(r, NoTimers())][k].timers.Owns(t)
    ensures t in AllDeleted(ids, es[i].timers) && AllDeleted(ids, es[i].timers)[t] == k
  {
    assert !NoTimers().Owns(t);
    assert es[k].timers.Owns(t);
    AllDeletedOf(es, ids, next, i, t);
  }

  lemma ClearKeepsTimers(es: seq<Entry>, ids: map<Timer, nat>, next: nat, i: nat, r: Row)
    requires TimersOk(es, ids, next) && i < |es|
    ensures TimersOk(es[i := Entry(r, NoTimers())], AllDeleted(ids, es[i].timers), next)
  {
    var fs, js := es[i := Entry(r, NoTimers())], AllDeleted(ids, es[i].timers);
    forall t | t in js ensures Live(fs, js, next, t) {
      ClearKeepsLive(es, ids, next, i, r, t);
    }
    forall m: nat, t: Timer | 0 <= m < |fs| && fs[m].timers.Owns(t) ensures t in js && js[t] == m {
      ClearKeepsOwned(es, ids, next, i, r, m, t);
    }
  }

  /** A callback finds its own device: what it reads through the timer's ID is the entry that owns
      the timer. */
  lemma CallbackFindsOwner(es: seq<Entry>, ids: map<Timer, nat>, next: nat, i: nat, t: Timer)
    requires TimersOk(es, ids, next) && i < |es|
    ensures es[i].timers.Owns(t) <==> t in ids && ids[t] == i
  {
  }

  lemma RemovedRows(es: seq<Entry>, i: nat)
    requires i < |es| && DeviceShadow.Distinct(RowsOf(es))
    ensures RowsOf(SwapRemoved(es, i)) == SwapRemoved(RowsOf(es), i)
    ensures DeviceShadow.Distinct(RowsOf(SwapRemoved(es, i)))
  {
    SwapRemovedKnown(RowsOf(es), i, 0);
  }

  // ── The blob ───────────────────────────────────────────────────────

  lemma {:induction false} SerializeSnoc(a: seq<Slot>, x: Slot)
    ensures Serialize(a + [x]) == Serialize(a) + (if Volatile(x.key) then [] else [x])
  {
    if a == [] {
      assert a + [x] == [x];
      assert [x][1..] == [];
    } else {
      SerializeSnoc(a[1..], x);
      assert (a + [x])[1..] == a[1..] + [x];
    }
  }

  /** The bytes of an entry's attributes as they go to flash. */
  method SerializeBlob(attrs: seq<Slot>) returns (blob: Blob)
    ensures blob == Serialize(attrs)
  {
    blob := [];
    var i := 0;
    while i < |attrs|
      invariant i <= |attrs|
      invariant blob == Serialize(attrs[..i])
    {
      assert attrs[..i + 1] == attrs[..i] + [attrs[i]];
      SerializeSnoc(attrs[..i], attrs[i]);
      if !Volatile(attrs[i].key) {
        blob := blob + [attrs[i]];
      }
      i := i + 1;
    }
    assert attrs[..|attrs|] == attrs;
  }

  // ── The table ──────────────────────────────────────────────────────

  class Shadow {
    const shadow: array<Entry>
    var count: nat
    var timerIds: map<Timer, nat>
    var nextTimer: nat

    function Entries(): seq<Entry>
      requires count <= shadow.Length
      reads this, shadow
    {
      shadow[..count]
    }

    function Rows(): Table
      requires count <= shadow.Length
      reads this, shadow
    {
      RowsOf(Entries())
    }

    ghost predicate Valid()
      reads this, shadow
    {
      && shadow.Length == 200 && count <= 200
      && DeviceShadow.Distinct(Rows())
      && (forall i :: count <= i < 200 ==> shadow[i] == Zeroed())
      && TimersOk(Entries(), timerIds, nextTimer)
    }

    constructor ()
      ensures Valid() && fresh(shadow) && Entries() == [] && timerIds == map[]
    {
      shadow := new Entry[200](i => Zeroed());
      count := 0;
      timerIds := map[];
      nextTimer := 0;
    }

    method FindEntry(x: Ieee) returns (i: nat)
      requires Valid()
      ensures i == IndexOf(Rows(), x)
    {
      i := 0;
      ghost var rows := Rows();
      while i < count
        invariant i <= count
        invariant forall j :: 0 <= j < i ==> rows[j].ieee != x
      {
        if shadow[i].row.ieee == x {
          IndexIs(rows, x, i);
          return;
        }
        i := i + 1;
      }
      IndexIs(rows, x, i);
    }

    /** The new slot is zeroed before it is filled; the table holds 200 devices. */
    method FindOrCreateEntry(x: Ieee) returns (i: nat)
      requires Valid()
      modifies this`count, shadow
      ensures Valid()
      ensures Rows() == Created(old(Rows()), x)
      ensures i == IndexOf(Rows(), x)
      ensures i == |Rows()| <==> !old(Known(Rows(), x)) && |old(Rows())| == 200
      ensures old(Entries()) <= Entries()
    {
      i := FindEntry(x);
      if i < count || count >= 200 { return; }
      ghost var es := Entries();
      AppendKeepsTimers(es, timerIds, nextTimer, Row(x, FreshCell()));
      CreatedIndex(Rows(), x, x);
      i := count;
      shadow[count] := Entry(Row(x, FreshCell()), NoTimers());
      count := count + 1;
      assert Entries() == es + [Entry(Row(x, FreshCell()), NoTimers())];
      assert Rows() == RowsOf(es) + [Row(x, FreshCell())];
      IndexIs(Rows(), x, i);
    }

    /** Any change of one entry's cell under the table lock. */
    method PutCell(i: nat, c: Cell)
      requires Valid() && i < count
      modifies shadow
      ensures Valid()
      ensures Rows() == SetCell(old(Rows()), i, c)
      ensures forall j :: 0 <= j < count ==> Entries()[j].timers == old(Entries())[j].timers
    {
      ghost var es := Entries();
      EntryKeepsTimers(es, timerIds, nextTimer, i, Row(es[i].row.ieee, c));
      shadow[i] := Entry(Row(shadow[i].row.ieee, c), shadow[i].timers);
      assert Entries() == es[i := Entry(Row(es[i].row.ieee, c), es[i].timers)];
    }

    /** The copy of one entry for flash: nothing when it is clean or when flash already holds these
        bytes. */
    method CopyForFlash(i: nat) returns (write: Option<Blob>)
      requires Valid() && i < count
      modifies shadow
      ensures Valid()
      ensures var c := old(Rows())[i].cell;
              && Rows() == (if c.dirty then SetCell(old(Rows()), i, CopiedCell(c)) else old(Rows()))
              && write == if c.dirty && c.booked != Some(Serialize(c.attrs)) then Some(Serialize(c.attrs)) else None
    {
      var c := shadow[i].row.cell;
      if !c.dirty { return None; }
      var blob := SerializeBlob(c.attrs);
      PutCell(i, c.(dirty := false, booked := Some(blob)));
      return if c.booked == Some(blob) then None else Some(blob);
    }

    /** After a failed write: the entry is looked up again, as it may have moved or gone. */
    method MarkAfterFailure(x: Ieee)
      requires Valid()
      modifies shadow
      ensures Valid()
      ensures Rows() == Remarked(old(Rows()), x)
    {
      var i := FindEntry(x);
      if i < count {
        PutCell(i, shadow[i].row.cell.(dirty := true, booked := None));
      }
    }

    /** A setter's locked half: the settings are stored clamped, and written only when they differ
        from the booked ones. */
    method SetConfigLocked(x: Ieee, cfg: Config, create: bool) returns (found: bool, save: Option<Config>)
      requires Valid()
      modifies this`count, shadow
      ensures Valid()
      ensures var t := if create then Created(old(Rows()), x) else old(Rows());
              && (found <==> Known(t, x))
              && (found ==>
                    var i := IndexOf(t, x);
                    && Rows() == SetCell(t, i, t[i].cell.(config := Clamp(cfg)))
                    && save == if t[i].cell.cfgBooked == Some(Clamp(cfg)) then None else Some(Clamp(cfg)))
              && (!found ==> Rows() == old(Rows()) && save == None)
    {
      var i;
      if create {
        i := FindOrCreateEntry(x);
      } else {
        i := FindEntry(x);
      }
      if i >= count {
        return false, None;
      }
      var c := shadow[i].row.cell;
      PutCell(i, c.(config := Clamp(cfg)));
      return true, if c.cfgBooked == Some(Clamp(cfg)) then None else Some(Clamp(cfg));
    }

    method BookSavedConfig(x: Ieee, cfg: Config)
      requires Valid()
      modifies shadow
      ensures Valid()
      ensures Rows() == Booked(old(Rows()), x, cfg)
    {
      var i := FindEntry(x);
      if i < count {
        PutCell(i, shadow[i].row.cell.(cfgBooked := Some(cfg)));
      }
    }

    /** A timer of an entry is created when it is first armed; the timer heap may be exhausted. */
    method ArmTimer(i: nat, k: Kind, room: bool) returns (armed: bool)
      requires Valid() && i < count
      modifies this`timerIds, this`nextTimer, shadow
      ensures Valid()
      ensures Rows() == old(Rows())
      ensures armed <==> old(Entries())[i].timers.Of(k).Some? || room
      ensures var was := old(Entries()[i]);
              var made := was.timers.Of(k).None? && room;
              && Entries() == old(Entries())[i := if made then Entry(was.row, was.timers.With(k, Some(old(nextTimer)))) else was]
              && timerIds == if made then old(timerIds)[old(nextTimer) := i] else old(timerIds)
    {
      if shadow[i].timers.Of(k).Some? { return true; }
      if !room { return false; }
      ghost var es := Entries();
      CreateKeepsTimers(es, timerIds, nextTimer, i, k);
      shadow[i] := Entry(shadow[i].row, shadow[i].timers.With(k, Some(nextTimer)));
      timerIds := timerIds[nextTimer := i];
      nextTimer := nextTimer + 1;
      assert Entries() == es[i := Entry(es[i].row, es[i].timers.With(k, Some(nextTimer - 1)))];
      assert Rows() == RowsOf(es);
      return true;
    }

    /** Debounce or the occupancy timeout switched off: the idle timer goes. */
    method DropTimer(i: nat, k: Kind)
      requires Valid() && i < count
      modifies this`timerIds, shadow
      ensures Valid()
      ensures Rows() == old(Rows())
      ensures Entries() == old(Entries())[i := Entry(old(Entries()[i].row), old(Entries()[i].timers).With(k, None))]
      ensures timerIds == Deleted(old(timerIds), old(Entries()[i].timers.Of(k)))
    {
      ghost var es := Entries();
      DeleteKeepsTimers(es, timerIds, nextTimer, i, k);
      var o := shadow[i].timers.Of(k);
      if o.Some? {
        timerIds := timerIds - {o.value};
      }
      shadow[i] := Entry(shadow[i].row, shadow[i].timers.With(k, None));
      assert Entries() == es[i := Entry(es[i].row, es[i].timers.With(k, None))];
      assert Rows() == RowsOf(es);
    }

    method DeleteTimer(o: Option<Timer>)
      modifies this`timerIds
      ensures timerIds == Deleted(old(timerIds), o)
    {
      if o.Some? { timerIds := timerIds - {o.value}; }
    }

    method PointTimer(o: Option<Timer>, i: nat)
      modifies this`timerIds
      ensures timerIds == Repointed(old(timerIds), o, i)
    {
      if o.Some? { timerIds := timerIds[o.value := i]; }
    }

    method DeleteTimers(tm: Timers)
      modifies this`timerIds
      ensures timerIds == AllDeleted(old(timerIds), tm)
    {
      DeleteTimer(tm.occupancy);
      DeleteTimer(tm.debounce);
      DeleteTimer(tm.noOccupancy);
    }

    method PointTimers(tm: Timers, i: nat)
      modifies this`timerIds
      ensures timerIds == AllRepointed(old(timerIds), tm, i)
    {
      PointTimer(tm.debounce, i);
      PointTimer(tm.occupancy, i);
      PointTimer(tm.noOccupancy, i);
    }

    /** The attributes of a device and its timers go; its slot and settings stay. */
    method ClearAttrs(x: Ieee) returns (found: bool)
      requires Valid()
      modifies this`timerIds, shadow
      ensures Valid()
      ensures found <==> old(Known(Rows(), x))
      ensures Rows() == if found then Cleared(old(Rows()), IndexOf(old(Rows()), x)) else old(Rows())
      ensures !found ==> Entries() == old(Entries()) && timerIds == old(timerIds)
      ensures found ==>
                var i := old(IndexOf(Rows(), x));
                && Entries() == old(Entries())[i := Entry(Cleared(old(Rows()), i)[i], NoTimers())]
                && timerIds == AllDeleted(old(timerIds), old(Entries())[i].timers)
    {
      var i := FindEntry(x);
      if i >= count { return false; }
      ghost var es := Entries();
      var e := shadow[i];
      var r := Row(e.row.ieee, e.row.cell.(attrs := [], dirty := false, booked := None));
      ClearKeepsTimers(es, timerIds, nextTimer, i, r);
      SetCellIndex(Rows(), i, r.cell, x);
      DeleteTimers(e.timers);
      shadow[i] := Entry(r, NoTimers());
      assert Entries() == es[i := Entry(r, NoTimers())];
      assert Rows() == Cleared(RowsOf(es), i);
      return true;
    }

    /** The last entry moves into the hole and its old slot is wiped. */
    method TakeOut(i: nat)
      requires i < count <= shadow.Length
      modifies this`count, shadow
      ensures count == old(count) - 1
      ensures shadow[..count] == SwapRemoved(old(shadow[..count]), i)
      ensures shadow[count] == Zeroed()
      ensures forall j :: old(count) <= j < shadow.Length ==> shadow[j] == old(shadow[j])
    {
      shadow[i] := Entry(shadow[i].row, NoTimers());
      var last := count - 1;
      if i != last {
        shadow[i] := shadow[last];
      }
      shadow[last] := Zeroed();
      count := count - 1;
    }

    /** The removed device's timers are deleted, the last entry moves into its slot with its timers
        re-pointed there, and the vacated slot is zeroed. */
    method RemoveAt(i: nat)
      requires Valid() && i < count
      modifies this`count, this`timerIds, shadow
      ensures Valid()
      ensures Entries() == SwapRemoved(old(Entries()), i)
      ensures timerIds == IdsAfterRemove(old(Entries()), old(timerIds), i)
    {
      ghost var es := Entries();
      RemoveKeepsTimers(es, timerIds, nextTimer, i);
      RemovedRows(es, i);
      DeleteTimers(shadow[i].timers);
      var moved := i != count - 1;
      TakeOut(i);
      if moved {
        PointTimers(shadow[i].timers, i);
      }
    }

    method RemoveLocked(x: Ieee) returns (found: bool)
      requires Valid()
      modifies this`count, this`timerIds, shadow
      ensures Valid()
      ensures found <==> old(Known(Rows(), x))
      ensures !found ==> Rows() == old(Rows()) && timerIds == old(timerIds)
      ensures found ==>
                var i := old(IndexOf(Rows(), x));
                && Rows() == SwapRemoved(old(Rows()), i)
                && Entries() == SwapRemoved(old(Entries()), i)
                && timerIds == IdsAfterRemove(old(Entries()), old(timerIds), i)
    {
      var i := FindEntry(x);
      if i >= count { return false; }
      RemovedRows(Entries(), i);
      RemoveAt(i);
      return true;
    }

    /** What a timer callback does: it reads the device's IEEE through the timer's ID. */
    method Callback(t: Timer) returns (x: Ieee)
      requires Valid() && t in timerIds
      ensures exists i :: 0 <= i < |Entries()| && Entries()[i].timers.Owns(t) && Entries()[i].row.ieee == x
    {
      assert Live(Entries(), timerIds, nextTimer, t);
      x := shadow[timerIds[t]].row.ieee;
    }
  }
}
