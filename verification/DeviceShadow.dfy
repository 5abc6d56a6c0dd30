/** The shadow table and its flash copy (components/device_shadow/device_shadow.cpp).

    Each device has an entry in RAM and up to two keys on flash: 'a' for its cached attributes and
    'c' for its settings. Copies are taken under the table lock and written after it is released;
    the FlashOrder lock is held from the copy to the write, and over every erase. Reports,
    optimistic writes and timers change entries without FlashOrder. The machine below interleaves
    all of these, with failed flash operations and restarts at any point.

    `ShadowTable` models the table array itself, in place. */
module DeviceShadow {
  import opened Wrappers
  import opened ShadowPipeline

  type Ieee = nat

  /** DeviceConfig; the two lists hold at most eight names once they are clamped. */
  datatype Config = Config(debounceMs: nat, throttleMs: nat, lastSeen: bool, optimistic: bool,
                           filtered: seq<Key>, ignored: seq<Key>, occupancy: nat, chosen: bool)

  type Blob = seq<Slot>

  /** What an entry holds: the cached attributes, the settings, whether the attributes wait for
      flash, and what the two checksums say flash holds (None: not known). */
  datatype Cell = Cell(attrs: seq<Slot>, config: Config, dirty: bool,
                       booked: Option<Blob>, cfgBooked: Option<Config>)

  datatype Row = Row(ieee: Ieee, cell: Cell)

  type Table = seq<Row>

  datatype Flash = Flash(attrs: map<Ieee, Blob>, configs: map<Ieee, Config>)

  /** How a flash write ends. A failed one may have reached flash all the same (the value was set
      and the commit failed). */
  datatype Outcome = Written | FailedClean | FailedLanded

  function Clamp(c: Config): Config {
    c.(filtered := if |c.filtered| > 8 then c.filtered[..8] else c.filtered,
       ignored := if |c.ignored| > 8 then c.ignored[..8] else c.ignored)
  }

  predicate Volatile(k: Key) {
    k == "_last_seen" || k == "linkquality"
  }

  /** What of the cache goes to flash. */
  function Serialize(attrs: seq<Slot>): (b: Blob)
    ensures forall i :: 0 <= i < |b| ==> !Volatile(b[i].key)
  {
    if attrs == [] then []
    else if Volatile(attrs[0].key) then Serialize(attrs[1..])
    else [attrs[0]] + Serialize(attrs[1..])
  }

  lemma {:induction false} SerializeAgain(b: Blob)
    requires forall i :: 0 <= i < |b| ==> !Volatile(b[i].key)
    ensures Serialize(b) == b
  {
    if b != [] {
      SerializeAgain(b[1..]);
    }
  }

  function FreshConfig(): Config {
    Config(0, 0, true, false, [], [], 0, false)
  }

  function FreshCell(): Cell {
    Cell([], FreshConfig(), false, None, None)
  }

  // ── The table as a sequence ────────────────────────────────────────

  function IndexOf(t: Table, x: Ieee): (i: nat)
    ensures i <= |t|
    ensures i < |t| ==> t[i].ieee == x
    ensures forall j :: 0 <= j < i ==> t[j].ieee != x
  {
    if t == [] then 0 else if t[0].ieee == x then 0 else
      var i := 1 + IndexOf(t[1..], x);
      assert forall j :: 1 <= j < i ==> t[j] == t[1..][j - 1];
      i
  }

  predicate Known(t: Table, x: Ieee) {
    IndexOf(t, x) < |t|
  }

  predicate Distinct(t: Table) {
    forall i, j :: 0 <= i < j < |t| ==> t[i].ieee != t[j].ieee
  }

  function SetCell(t: Table, i: nat, c: Cell): Table
    requires i < |t|
  {
    t[i := Row(t[i].ieee, c)]
  }

  function Created(t: Table, x: Ieee): Table {
    if Known(t, x) || |t| >= 200 then t else t + [Row(x, FreshCell())]
  }

  lemma IndexIs(t: Table, x: Ieee, i: nat)
    requires i <= |t| && (i < |t| ==> t[i].ieee == x)
    requires forall j :: 0 <= j < i ==> t[j].ieee != x
    ensures IndexOf(t, x) == i
  {
    var f := IndexOf(t, x);
    assert f < |t| ==> !(f < i);
    assert i < |t| ==> !(i < f);
  }

  lemma IndexAt(t: Table, i: nat)
    requires Distinct(t) && i < |t|
    ensures IndexOf(t, t[i].ieee) == i
  {
    IndexIs(t, t[i].ieee, i);
  }

  lemma SetCellIndex(t: Table, i: nat, c: Cell, x: Ieee)
    requires i < |t|
    ensures IndexOf(SetCell(t, i, c), x) == IndexOf(t, x)
  {
    var u := SetCell(t, i, c);
    var k := IndexOf(t, x);
    assert forall j :: 0 <= j < |t| ==> u[j].ieee == t[j].ieee;
    IndexIs(u, x, k);
  }

  lemma CreatedIndex(t: Table, x: Ieee, y: Ieee)
    ensures Known(t, y) ==> IndexOf(Created(t, x), y) == IndexOf(t, y)
    ensures Known(Created(t, x), y) <==> Known(t, y) || (y == x && |t| < 200)
    ensures Distinct(t) ==> Distinct(Created(t, x))
  {
    var u := Created(t, x);
    var k := IndexOf(t, y);
    if k < |t| {
      IndexIs(u, y, k);
    } else if y == x && |t| < 200 {
      IndexIs(u, y, |t|);
    } else {
      IndexIs(u, y, |u|);
    }
  }

  /** Removal takes out the device and no other. */
  lemma SwapRemovedKnown(t: Table, i: nat, y: Ieee)
    requires Distinct(t) && i < |t|
    ensures Distinct(SwapRemoved(t, i))
    ensures Known(SwapRemoved(t, i), y) <==> Known(t, y) && y != t[i].ieee
    ensures Known(t, y) && y != t[i].ieee ==>
              && IndexOf(SwapRemoved(t, i), y) == (if IndexOf(t, y) == |t| - 1 then i else IndexOf(t, y))
              && SwapRemoved(t, i)[IndexOf(SwapRemoved(t, i), y)] == t[IndexOf(t, y)]
  {
    var u := SwapRemoved(t, i);
    var k := IndexOf(t, y);
    if k < |t| && k != i {
      IndexIs(u, y, if k == |t| - 1 then i else k);
    } else {
      IndexIs(u, y, |u|);
    }
  }

  // ── The machine ────────────────────────────────────────────────────

  /** The task that holds FlashOrder, and what it has in hand. `late` says that a copy was taken
      after the running flush_now began. */
  datatype Job =
    | Free
    | Held
    | Copied(x: Ieee, blob: Blob, late: bool)
    | ReMark(x: Ieee)
    | Saving(x: Ieee, cfg: Config)
    | Booking(x: Ieee, cfg: Config)
    | EraseAttr(x: Ieee)
    | EraseConfig(x: Ieee, attrErased: bool)
    | EraseCleared(x: Ieee)

  /** A running flush_now: the index it comes to next, the devices that had unsaved attributes when
      it was called, those saved since, and those that a failed write, a clear or a move took away
      from it. */
  datatype Scan = Scan(next: nat, owed: set<Ieee>, saved: set<Ieee>, missed: set<Ieee>)

  /** `gone`: devices whose removal has erased both keys and that were not created again.
      `torn`: devices whose last settings save to reach flash was reported as failed. */
  datatype Sys = Sys(table: Table, flash: Flash, job: Job, gone: set<Ieee>, torn: set<Ieee>,
                     scan: Option<Scan>)

  datatype Event =
    | Touch(x: Ieee, attrs: seq<Slot>, mark: bool)
    | Alter(x: Ieee, attrs: seq<Slot>, mark: bool)
    | TakeFlash
    | GiveFlash
    | CopyAttrs(i: nat)
    | WriteAttrs(out: Outcome)
    | MarkAgain
    | SetConfig(x: Ieee, cfg: Config, create: bool)
    | SaveConfig(out: Outcome)
    | BookConfig
    | RemoveRow(x: Ieee)
    | EraseAttrKey(ok: bool)
    | EraseConfigKey(ok: bool)
    | ClearRow(x: Ieee)
    | EraseClearedKey(ok: bool)
    | FlushBegin
    | FlushVisit
    | FlushEnd
    | Restart
    | Restore(x: Ieee)

  /** A device that has an entry again is no longer gone. */
  function NotGone(s: Sys, x: Ieee): set<Ieee> {
    if Known(Created(s.table, x), x) then s.gone - {x} else s.gone
  }

  function Rewritten(t: Table, x: Ieee, attrs: seq<Slot>, mark: bool): Table {
    var i := IndexOf(t, x);
    if i < |t| then
      SetCell(t, i, t[i].cell.(attrs := attrs, dirty := t[i].cell.dirty || mark))
    else t
  }

  function TouchStep(s: Sys, x: Ieee, attrs: seq<Slot>, mark: bool): Sys {
    s.(table := Rewritten(Created(s.table, x), x, attrs, mark), gone := NotGone(s, x))
  }

  function Save(c: Option<Scan>, x: Ieee): Option<Scan> {
    if c.None? then None else Some(c.value.(saved := c.value.saved + {x}))
  }

  function Miss(c: Option<Scan>, x: Ieee): Option<Scan> {
    if c.None? then None else Some(c.value.(missed := c.value.missed + {x}))
  }

  /** The entry after its copy was taken: no longer dirty, and booked as on flash. */
  function CopiedCell(c: Cell): Cell {
    c.(dirty := false, booked := Some(Serialize(c.attrs)))
  }

  function CopyStep(s: Sys, i: nat): Sys {
    if !s.job.Held? || i >= |s.table| || !s.table[i].cell.dirty then s
    else
      var r := s.table[i];
      var blob := Serialize(r.cell.attrs);
      var t := SetCell(s.table, i, CopiedCell(r.cell));
      if r.cell.booked == Some(blob) then s.(table := t, scan := Save(s.scan, r.ieee))
      else s.(table := t, job := Copied(r.ieee, blob, true))
  }

  function WriteStep(s: Sys, out: Outcome): Sys {
    if !s.job.Copied? then s
    else
      var x := s.job.x;
      var f := if out == FailedClean then s.flash else s.flash.(attrs := s.flash.attrs[x := s.job.blob]);
      if out == Written then
        s.(flash := f, job := Held, scan := if s.job.late then Save(s.scan, x) else s.scan)
      else s.(flash := f, job := ReMark(x), scan := if s.job.late then Miss(s.scan, x) else s.scan)
  }

  function Remarked(t: Table, x: Ieee): Table {
    var i := IndexOf(t, x);
    if i < |t| then SetCell(t, i, t[i].cell.(dirty := true, booked := None)) else t
  }

  function MarkAgainStep(s: Sys): Sys {
    if !s.job.ReMark? then s else s.(table := Remarked(s.table, s.job.x), job := Held)
  }

  function SetConfigStep(s: Sys, x: Ieee, cfg: Config, create: bool): Sys {
    if !s.job.Held? then s
    else
      var t := if create then Created(s.table, x) else s.table;
      var i := IndexOf(t, x);
      if i >= |t| then s
      else
        var c := Clamp(cfg);
        var u := SetCell(t, i, t[i].cell.(config := c));
        s.(table := u, gone := s.gone - {x},
           job := if t[i].cell.cfgBooked == Some(c) then Held else Saving(x, c))
  }

  function SaveConfigStep(s: Sys, out: Outcome): Sys {
    if !s.job.Saving? then s
    else
      var x, c := s.job.x, s.job.cfg;
      match out
      case Written =>
        s.(flash := s.flash.(configs := s.flash.configs[x := c]), job := Booking(x, c), torn := s.torn - {x})
      case FailedClean => s.(job := Held)
      case FailedLanded =>
        s.(flash := s.flash.(configs := s.flash.configs[x := c]), job := Held, torn := s.torn + {x})
  }

  function Booked(t: Table, x: Ieee, c: Config): Table {
    var i := IndexOf(t, x);
    if i < |t| then SetCell(t, i, t[i].cell.(cfgBooked := Some(c))) else t
  }

  function BookConfigStep(s: Sys): Sys {
    if !s.job.Booking? then s else s.(table := Booked(s.table, s.job.x, s.job.cfg), job := Held)
  }

  /** A running flush_now and a removal: the removed device is owed nothing any more; an entry
      moved from the part still to come to the part already visited is missed. */
  function Moved(t: Table, c: Option<Scan>, i: nat): Option<Scan>
    requires i < |t|
  {
    if c.None? then None
    else
      var d := c.value.(owed := c.value.owed - {t[i].ieee});
      Some(if i < d.next && d.next <= |t| - 1 then d.(missed := d.missed + {t[|t| - 1].ieee}) else d)
  }

  function RemoveStep(s: Sys, x: Ieee): Sys {
    var i := IndexOf(s.table, x);
    if !s.job.Held? || i >= |s.table| then s
    else s.(table := SwapRemoved(s.table, i), job := EraseAttr(x), scan := Moved(s.table, s.scan, i))
  }

  function EraseAttrStep(s: Sys, ok: bool): Sys {
    if !s.job.EraseAttr? then s
    else s.(flash := if ok then s.flash.(attrs := s.flash.attrs - {s.job.x}) else s.flash,
            job := EraseConfig(s.job.x, ok))
  }

  function EraseConfigStep(s: Sys, ok: bool): Sys {
    if !s.job.EraseConfig? then s
    else
      var x := s.job.x;
      s.(flash := if ok then s.flash.(configs := s.flash.configs - {x}) else s.flash, job := Held,
         gone := if s.job.attrErased && ok && !Known(s.table, x) then s.gone + {x} else s.gone)
  }

  function Cleared(t: Table, i: nat): Table
    requires i < |t|
  {
    SetCell(t, i, t[i].cell.(attrs := [], dirty := false, booked := None))
  }

  function ClearStep(s: Sys, x: Ieee): Sys {
    var i := IndexOf(s.table, x);
    if !s.job.Held? || i >= |s.table| then s
    else s.(table := Cleared(s.table, i), job := EraseCleared(x), scan := Miss(s.scan, x))
  }

  function EraseClearedStep(s: Sys, ok: bool): Sys {
    if !s.job.EraseCleared? then s
    else s.(flash := if ok then s.flash.(attrs := s.flash.attrs - {s.job.x}) else s.flash, job := Held)
  }

  /** The devices with unsaved attributes. */
  function DirtyIn(t: Table): set<Ieee> {
    set i | 0 <= i < |t| && t[i].cell.dirty :: t[i].ieee
  }

  function FlushBeginStep(s: Sys): Sys {
    s.(scan := Some(Scan(0, DirtyIn(s.table), {}, {})),
       job := if s.job.Copied? then s.job.(late := false) else s.job)
  }

  function FlushVisitStep(s: Sys): Sys {
    if s.scan.None? || !s.job.Held? || s.scan.value.next >= |s.table| then s
    else
      var i := s.scan.value.next;
      var u := CopyStep(s, i);
      if u.scan.None? then u else u.(scan := Some(u.scan.value.(next := i + 1)))
  }

  /** The loop ends when it comes to an index past the last entry. */
  predicate FlushDone(s: Sys) {
    s.scan.Some? && s.job.Held? && s.scan.value.next >= |s.table|
  }

  function NoSecrets(b: Blob): Blob {
    if b == [] then [] else if Secret(b[0].key) then NoSecrets(b[1..]) else [b[0]] + NoSecrets(b[1..])
  }

  /** The entry a restart gives a device: settings and attributes from flash, secrets left out. */
  function RestoredCell(c: Cell, f: Flash, x: Ieee): Cell {
    var d := if x in f.configs then
               c.(config := Clamp(f.configs[x]), cfgBooked := Some(Clamp(f.configs[x])))
             else c;
    if x in f.attrs && f.attrs[x] != [] then
      var kept := NoSecrets(f.attrs[x]);
      if |kept| < |f.attrs[x]| then d.(attrs := kept, booked := None, dirty := true)
      else d.(attrs := kept, booked := Some(Serialize(kept)))
    else d
  }

  function RestoreStep(s: Sys, x: Ieee): Sys {
    var t := Created(s.table, x);
    var i := IndexOf(t, x);
    if !s.job.Free? || i >= |t| then s
    else s.(table := SetCell(t, i, RestoredCell(t[i].cell, s.flash, x)), gone := s.gone - {x},
            torn := if x in s.flash.configs then s.torn - {x} else s.torn)
  }

  function Step(s: Sys, e: Event): Sys {
    match e
    case Touch(x, attrs, mark) => TouchStep(s, x, attrs, mark)
    case Alter(x, attrs, mark) => s.(table := Rewritten(s.table, x, attrs, mark))
    case TakeFlash => if s.job.Free? then s.(job := Held) else s
    case GiveFlash => if s.job.Held? then s.(job := Free) else s
    case CopyAttrs(i) => CopyStep(s, i)
    case WriteAttrs(out) => WriteStep(s, out)
    case MarkAgain => MarkAgainStep(s)
    case SetConfig(x, cfg, create) => SetConfigStep(s, x, cfg, create)
    case SaveConfig(out) => SaveConfigStep(s, out)
    case BookConfig => BookConfigStep(s)
    case RemoveRow(x) => RemoveStep(s, x)
    case EraseAttrKey(ok) => EraseAttrStep(s, ok)
    case EraseConfigKey(ok) => EraseConfigStep(s, ok)
    case ClearRow(x) => ClearStep(s, x)
    case EraseClearedKey(ok) => EraseClearedStep(s, ok)
    case FlushBegin => FlushBeginStep(s)
    case FlushVisit => FlushVisitStep(s)
    case FlushEnd => if FlushDone(s) then s.(scan := None) else s
    case Restart => s.(table := [], job := Free, scan := None)
    case Restore(x) => RestoreStep(s, x)
  }

  function Run(s: Sys, es: seq<Event>): Sys
    decreases |es|
  {
    if es == [] then s else Step(Run(s, es[..|es| - 1]), es[|es| - 1])
  }

  /** The events that may give `x` an entry. */
  predicate Creates(e: Event, x: Ieee) {
    (e.Touch? && e.x == x) || (e.SetConfig? && e.x == x && e.create) || (e.Restore? && e.x == x)
  }

  // ── The invariant ──────────────────────────────────────────────────

  predicate Erasing(j: Job, x: Ieee) {
    (j.EraseAttr? || j.EraseConfig?) && j.x == x
  }

  /** The booked attributes are what flash holds, once no write or erase of the entry is on its
      way. */
  predicate AttrsBooked(f: Flash, j: Job, r: Row) {
    r.cell.booked.Some? ==>
      && !Erasing(j, r.ieee) && !(j.EraseCleared? && j.x == r.ieee)
      && (if j.Copied? && j.x == r.ieee then r.cell.booked.value == j.blob
          else if j.ReMark? && j.x == r.ieee then true
          else r.ieee in f.attrs && Serialize(f.attrs[r.ieee]) == r.cell.booked.value)
  }

  predicate ConfigBooked(f: Flash, j: Job, torn: set<Ieee>, r: Row) {
    r.cell.cfgBooked.Some? ==>
      && !Erasing(j, r.ieee)
      && (j.Saving? && j.x == r.ieee ==> r.cell.cfgBooked.value != j.cfg)
      && ((j.Booking? && j.x == r.ieee)
          || (r.ieee in f.configs && (r.ieee !in torn <==> Clamp(f.configs[r.ieee]) == r.cell.cfgBooked.value)))
  }

  predicate JobOk(t: Table, f: Flash, j: Job, torn: set<Ieee>) {
    && (j.Copied? || j.ReMark? || j.Saving? || j.Booking? || j.EraseCleared? ==> Known(t, j.x))
    && (j.Copied? ==> Serialize(j.blob) == j.blob)
    && (j.Saving? || j.Booking? ==> Clamp(j.cfg) == j.cfg)
    && (j.Booking? ==> j.x in f.configs && f.configs[j.x] == j.cfg && j.x !in torn)
    && (j.EraseConfig? && j.attrErased ==> j.x !in f.attrs)
  }

  predicate IsGone(t: Table, f: Flash, x: Ieee) {
    !Known(t, x) && x !in f.attrs && x !in f.configs
  }

  predicate ToCome(t: Table, next: nat, x: Ieee) {
    next <= IndexOf(t, x) < |t| && t[IndexOf(t, x)].cell.dirty
  }

  predicate Owed(t: Table, j: Job, c: Scan, x: Ieee) {
    x in c.saved || x in c.missed || ToCome(t, c.next, x) || (j.Copied? && j.late && j.x == x)
  }

  predicate TableOk(s: Sys) {
    && Distinct(s.table) && |s.table| <= 200
    && forall i :: 0 <= i < |s.table| ==>
         AttrsBooked(s.flash, s.job, s.table[i]) && ConfigBooked(s.flash, s.job, s.torn, s.table[i])
  }

  predicate GoneOk(s: Sys) {
    forall x :: x in s.gone ==> IsGone(s.table, s.flash, x)
  }

  predicate ScanOk(s: Sys) {
    s.scan.Some? ==> forall x :: x in s.scan.value.owed ==> Owed(s.table, s.job, s.scan.value, x)
  }

  predicate Inv(s: Sys) {
    && TableOk(s)
    && JobOk(s.table, s.flash, s.job, s.torn)
    && GoneOk(s)
    && ScanOk(s)
  }

  /** Before the devices are restored: any flash contents. */
  predicate Init(s: Sys) {
    s.table == [] && s.job == Free && s.gone == {} && s.torn == {} && s.scan == None
  }

  lemma InitInv(s: Sys)
    requires Init(s)
    ensures Inv(s)
  {
  }

  // ── Each event keeps it ────────────────────────────────────────────

  /** A change of one entry's attributes, settings or dirty mark keeps every index. */
  lemma SetCellKeeps(s: Sys, i: nat, c: Cell)
    requires Inv(s) && i < |s.table|
    requires c.booked == s.table[i].cell.booked && c.cfgBooked == s.table[i].cell.cfgBooked
    requires s.table[i].cell.dirty ==> c.dirty
    ensures Inv(s.(table := SetCell(s.table, i, c)))
  {
    var u := s.(table := SetCell(s.table, i, c));
    forall x ensures IndexOf(u.table, x) == IndexOf(s.table, x) {
      SetCellIndex(s.table, i, c, x);
    }
    assert forall x :: x in s.gone ==> IsGone(s.table, s.flash, x);
  }

  lemma CreatedRows(s: Sys, x: Ieee)
    requires TableOk(s)
    ensures TableOk(s.(table := Created(s.table, x), gone := NotGone(s, x)))
  {
    CreatedIndex(s.table, x, x);
  }

  lemma CreatedGone(s: Sys, x: Ieee)
    requires GoneOk(s)
    ensures GoneOk(s.(table := Created(s.table, x), gone := NotGone(s, x)))
  {
    forall y | y in NotGone(s, x) ensures IsGone(Created(s.table, x), s.flash, y) {
      CreatedIndex(s.table, x, y);
      assert IsGone(s.table, s.flash, y);
    }
  }

  lemma CreatedScan(s: Sys, x: Ieee)
    requires ScanOk(s)
    ensures ScanOk(s.(table := Created(s.table, x), gone := NotGone(s, x)))
  {
    if s.scan.Some? {
      forall y | y in s.scan.value.owed ensures Owed(Created(s.table, x), s.job, s.scan.value, y) {
        CreatedIndex(s.table, x, y);
        assert Owed(s.table, s.job, s.scan.value, y);
      }
    }
  }

  lemma CreatedKeeps(s: Sys, x: Ieee)
    requires Inv(s)
    ensures Inv(s.(table := Created(s.table, x), gone := NotGone(s, x)))
  {
    CreatedRows(s, x);
    CreatedGone(s, x);
    CreatedScan(s, x);
    if s.job.Copied? || s.job.ReMark? || s.job.Saving? || s.job.Booking? || s.job.EraseCleared? {
      CreatedIndex(s.table, x, s.job.x);
    }
  }

  lemma RewrittenKeeps(s: Sys, x: Ieee, attrs: seq<Slot>, mark: bool)
    requires Inv(s)
    ensures Inv(s.(table := Rewritten(s.table, x, attrs, mark)))
  {
    var i := IndexOf(s.table, x);
    if i < |s.table| {
      SetCellKeeps(s, i, s.table[i].cell.(attrs := attrs, dirty := s.table[i].cell.dirty || mark));
    }
  }

  lemma TouchKeeps(s: Sys, x: Ieee, attrs: seq<Slot>, mark: bool)
    requires Inv(s)
    ensures Inv(TouchStep(s, x, attrs, mark))
  {
    CreatedKeeps(s, x);
    RewrittenKeeps(s.(table := Created(s.table, x), gone := NotGone(s, x)), x, attrs, mark);
  }

  lemma CopyTable(s: Sys, i: nat)
    requires Inv(s) && s.job.Held? && i < |s.table| && s.table[i].cell.dirty
    ensures TableOk(CopyStep(s, i))
  {
    var r, u := s.table[i], CopyStep(s, i);
    forall k | 0 <= k < |u.table|
      ensures AttrsBooked(u.flash, u.job, u.table[k]) && ConfigBooked(u.flash, u.job, u.torn, u.table[k])
    {
      assert AttrsBooked(s.flash, s.job, s.table[k]) && ConfigBooked(s.flash, s.job, s.torn, s.table[k]);
    }
  }

  lemma CopyIndex(s: Sys, i: nat, x: Ieee)
    ensures |CopyStep(s, i).table| == |s.table| && IndexOf(CopyStep(s, i).table, x) == IndexOf(s.table, x)
  {
    if i < |s.table| { SetCellIndex(s.table, i, CopiedCell(s.table[i].cell), x); }
  }

  /** A copied device is on its way to flash, or saved; every other one is owed as before. */
  lemma CopyOwes(s: Sys, i: nat, x: Ieee)
    requires Distinct(s.table) && s.scan.Some? && Owed(s.table, s.job, s.scan.value, x)
    ensures CopyStep(s, i).scan.Some?
    ensures var u := CopyStep(s, i);
            && Owed(u.table, u.job, u.scan.value, x)
            && (s.job.Held? && i < |s.table| && x == s.table[i].ieee && ToCome(s.table, s.scan.value.next, x) ==>
                  x in u.scan.value.saved || u.job == Copied(x, Serialize(s.table[i].cell.attrs), true))
  {
    CopyIndex(s, i, x);
    if i < |s.table| { IndexAt(s.table, i); }
  }

  lemma CopyJob(s: Sys, i: nat)
    requires Inv(s)
    ensures JobOk(CopyStep(s, i).table, CopyStep(s, i).flash, CopyStep(s, i).job, CopyStep(s, i).torn)
    ensures GoneOk(CopyStep(s, i))
  {
    forall x ensures IndexOf(CopyStep(s, i).table, x) == IndexOf(s.table, x) { CopyIndex(s, i, x); }
    if s.job.Held? && i < |s.table| {
      IndexAt(s.table, i);
      SerializeAgain(Serialize(s.table[i].cell.attrs));
    }
    assert forall x :: x in s.gone ==> IsGone(s.table, s.flash, x);
  }

  lemma CopyKeeps(s: Sys, i: nat)
    requires Inv(s)
    ensures Inv(CopyStep(s, i))
  {
    CopyJob(s, i);
    if s.job.Held? && i < |s.table| && s.table[i].cell.dirty { CopyTable(s, i); }
    if s.scan.Some? {
      forall x | x in s.scan.value.owed
        ensures Owed(CopyStep(s, i).table, CopyStep(s, i).job, CopyStep(s, i).scan.value, x)
      {
        CopyOwes(s, i, x);
      }
    }
  }

  lemma VisitKeeps(s: Sys)
    requires Inv(s)
    ensures Inv(FlushVisitStep(s))
  {
    if s.scan.Some? && s.job.Held? && s.scan.value.next < |s.table| {
      var i := s.scan.value.next;
      CopyKeeps(s, i);
      IndexAt(s.table, i);
      var u, v := CopyStep(s, i), FlushVisitStep(s);
      forall x | x in v.scan.value.owed ensures Owed(v.table, v.job, v.scan.value, x) {
        CopyOwes(s, i, x);
        CopyIndex(s, i, x);
      }
    }
  }

  predicate RowOk(s: Sys, r: Row) {
    AttrsBooked(s.flash, s.job, r) && ConfigBooked(s.flash, s.job, s.torn, r)
  }

  /** Two rows of one table with one IEEE are the same row. */
  lemma OnlyRow(t: Table, i: nat, x: Ieee)
    requires Distinct(t) && i < |t|
    ensures t[i].ieee == x <==> Known(t, x) && i == IndexOf(t, x)
  {
    IndexAt(t, i);
  }

  lemma WriteKeeps(s: Sys, out: Outcome)
    requires Inv(s)
    ensures Inv(WriteStep(s, out))
  {
    if s.job.Copied? {
      var u := WriteStep(s, out);
      forall k | 0 <= k < |u.table| ensures RowOk(u, u.table[k]) {
        assert RowOk(s, s.table[k]);
      }
      assert forall x :: x in s.gone ==> IsGone(s.table, s.flash, x);
      if s.scan.Some? {
        forall x | x in u.scan.value.owed ensures Owed(u.table, u.job, u.scan.value, x) {
          assert Owed(s.table, s.job, s.scan.value, x);
        }
      }
    }
  }

  lemma MarkAgainKeeps(s: Sys)
    requires Inv(s)
    ensures Inv(MarkAgainStep(s))
  {
    if s.job.ReMark? {
      var u, i := MarkAgainStep(s), IndexOf(s.table, s.job.x);
      forall k | 0 <= k < |u.table| ensures RowOk(u, u.table[k]) {
        assert RowOk(s, s.table[k]);
        OnlyRow(s.table, k, s.job.x);
      }
      forall x ensures IndexOf(u.table, x) == IndexOf(s.table, x) {
        SetCellIndex(s.table, i, u.table[i].cell, x);
      }
      assert forall x :: x in s.gone ==> IsGone(s.table, s.flash, x);
    }
  }

  lemma ConfigSetKeeps(s: Sys, i: nat, c: Config)
    requires Inv(s) && s.job.Held? && i < |s.table| && Clamp(c) == c
    requires s.table[i].cell.cfgBooked != Some(c)
    ensures Inv(s.(job := Saving(s.table[i].ieee, c)))
  {
    var u := s.(job := Saving(s.table[i].ieee, c));
    IndexAt(s.table, i);
    forall k | 0 <= k < |u.table| ensures RowOk(u, u.table[k]) {
      assert RowOk(s, s.table[k]);
      OnlyRow(s.table, k, s.table[i].ieee);
    }
  }

  lemma ClampTwice(c: Config)
    ensures Clamp(Clamp(c)) == Clamp(c)
  {
  }

  lemma SetConfigKeeps(s: Sys, x: Ieee, cfg: Config, create: bool)
    requires Inv(s)
    ensures Inv(SetConfigStep(s, x, cfg, create))
  {
    var t := if create then Created(s.table, x) else s.table;
    var i := IndexOf(t, x);
    if s.job.Held? && i < |t| {
      CreatedKeeps(s, x);
      var v := s.(table := t, gone := s.gone - {x});
      assert Inv(v) by {
        if !create {
          assert forall y :: y in s.gone ==> IsGone(s.table, s.flash, y);
          assert v == s.(gone := s.gone);
        }
      }
      var c := Clamp(cfg);
      SetCellKeeps(v, i, t[i].cell.(config := c));
      if t[i].cell.cfgBooked != Some(c) {
        ClampTwice(cfg);
        ConfigSetKeeps(v.(table := SetCell(t, i, t[i].cell.(config := c))), i, c);
      }
    }
  }

  lemma SaveConfigKeeps(s: Sys, out: Outcome)
    requires Inv(s)
    ensures Inv(SaveConfigStep(s, out))
  {
    if s.job.Saving? {
      var u := SaveConfigStep(s, out);
      forall k | 0 <= k < |u.table| ensures RowOk(u, u.table[k]) {
        assert RowOk(s, s.table[k]);
      }
      assert forall x :: x in s.gone ==> IsGone(s.table, s.flash, x);
    }
  }

  lemma BookConfigKeeps(s: Sys)
    requires Inv(s)
    ensures Inv(BookConfigStep(s))
  {
    if s.job.Booking? {
      var u, i := BookConfigStep(s), IndexOf(s.table, s.job.x);
      forall k | 0 <= k < |u.table| ensures RowOk(u, u.table[k]) {
        assert RowOk(s, s.table[k]);
        OnlyRow(s.table, k, s.job.x);
      }
      forall x ensures IndexOf(u.table, x) == IndexOf(s.table, x) {
        SetCellIndex(s.table, i, u.table[i].cell, x);
      }
      assert forall x :: x in s.gone ==> IsGone(s.table, s.flash, x);
    }
  }

  lemma MovedOwed(s: Sys, x: Ieee, y: Ieee)
    requires Inv(s) && s.job.Held? && Known(s.table, x) && s.scan.Some?
    requires y in s.scan.value.owed && y != x
    ensures Owed(RemoveStep(s, x).table, RemoveStep(s, x).job, RemoveStep(s, x).scan.value, y)
  {
    assert Owed(s.table, s.job, s.scan.value, y);
    SwapRemovedKnown(s.table, IndexOf(s.table, x), y);
  }

  lemma RemoveKeeps(s: Sys, x: Ieee)
    requires Inv(s)
    ensures Inv(RemoveStep(s, x))
  {
    var i := IndexOf(s.table, x);
    if s.job.Held? && i < |s.table| {
      var u := RemoveStep(s, x);
      SwapRemovedKnown(s.table, i, x);
      forall k | 0 <= k < |u.table| ensures RowOk(u, u.table[k]) {
        var j := if k == i then |s.table| - 1 else k;
        assert RowOk(s, s.table[j]);
        OnlyRow(s.table, j, x);
      }
      forall y | y in u.gone ensures IsGone(u.table, u.flash, y) {
        assert IsGone(s.table, s.flash, y);
        SwapRemovedKnown(s.table, i, y);
      }
      if s.scan.Some? {
        forall y | y in u.scan.value.owed ensures Owed(u.table, u.job, u.scan.value, y) {
          MovedOwed(s, x, y);
        }
      }
    }
  }

  lemma EraseKeeps(s: Sys, ok: bool)
    requires Inv(s)
    ensures Inv(EraseAttrStep(s, ok)) && Inv(EraseConfigStep(s, ok)) && Inv(EraseClearedStep(s, ok))
  {
    if s.job.EraseAttr? || s.job.EraseConfig? || s.job.EraseCleared? {
      var u := if s.job.EraseAttr? then EraseAttrStep(s, ok)
               else if s.job.EraseConfig? then EraseConfigStep(s, ok) else EraseClearedStep(s, ok);
      forall k | 0 <= k < |u.table| ensures RowOk(u, u.table[k]) {
        assert RowOk(s, s.table[k]);
      }
      forall y | y in u.gone ensures IsGone(u.table, u.flash, y) {
        assert y in s.gone ==> IsGone(s.table, s.flash, y);
      }
    }
  }

  lemma ClearKeeps(s: Sys, x: Ieee)
    requires Inv(s)
    ensures Inv(ClearStep(s, x))
  {
    var i := IndexOf(s.table, x);
    if s.job.Held? && i < |s.table| {
      var u := ClearStep(s, x);
      forall y ensures IndexOf(u.table, y) == IndexOf(s.table, y) {
        SetCellIndex(s.table, i, u.table[i].cell, y);
      }
      forall k | 0 <= k < |u.table| ensures RowOk(u, u.table[k]) {
        assert RowOk(s, s.table[k]);
        OnlyRow(s.table, k, x);
      }
      assert forall y :: y in s.gone ==> IsGone(s.table, s.flash, y);
      if s.scan.Some? {
        forall y | y in u.scan.value.owed ensures Owed(u.table, u.job, u.scan.value, y) {
          assert Owed(s.table, s.job, s.scan.value, y);
          OnlyRow(s.table, i, y);
        }
      }
    }
  }

  lemma FlushBeginKeeps(s: Sys)
    requires Inv(s)
    ensures Inv(FlushBeginStep(s))
  {
    var u := FlushBeginStep(s);
    forall k | 0 <= k < |u.table| ensures RowOk(u, u.table[k]) {
      assert RowOk(s, s.table[k]);
    }
    forall x | x in u.scan.value.owed ensures Owed(u.table, u.job, u.scan.value, x) {
      var i :| 0 <= i < |s.table| && s.table[i].cell.dirty && s.table[i].ieee == x;
      IndexAt(s.table, i);
    }
  }

  lemma {:induction false} NoSecretsShort(b: Blob)
    ensures |NoSecrets(b)| <= |b|
    ensures |NoSecrets(b)| == |b| ==> NoSecrets(b) == b
  {
    if b != [] {
      NoSecretsShort(b[1..]);
    }
  }

  lemma RestoredRow(s: Sys, i: nat)
    requires Inv(s) && s.job.Free? && i < |s.table|
    ensures var x := s.table[i].ieee;
            var torn := if x in s.flash.configs then s.torn - {x} else s.torn;
            var r := Row(x, RestoredCell(s.table[i].cell, s.flash, x));
            AttrsBooked(s.flash, s.job, r) && ConfigBooked(s.flash, s.job, torn, r)
    ensures s.table[i].cell.dirty ==> RestoredCell(s.table[i].cell, s.flash, s.table[i].ieee).dirty
  {
    assert RowOk(s, s.table[i]);
    var x := s.table[i].ieee;
    if x in s.flash.attrs {
      NoSecretsShort(s.flash.attrs[x]);
    }
  }

  lemma RestoreKeeps(s: Sys, x: Ieee)
    requires Inv(s)
    ensures Inv(RestoreStep(s, x))
  {
    var t := Created(s.table, x);
    var i := IndexOf(t, x);
    if s.job.Free? && i < |t| {
      CreatedKeeps(s, x);
      var v, u := s.(table := t, gone := NotGone(s, x)), RestoreStep(s, x);
      RestoredRow(v, i);
      forall k | 0 <= k < |u.table| ensures RowOk(u, u.table[k]) {
        assert RowOk(v, v.table[k]);
        OnlyRow(t, k, x);
      }
      forall y ensures IndexOf(u.table, y) == IndexOf(t, y) {
        SetCellIndex(t, i, u.table[i].cell, y);
      }
      assert forall y :: y in v.gone ==> IsGone(v.table, v.flash, y);
    }
  }

  lemma LockKeeps(s: Sys)
    requires Inv(s)
    ensures Inv(Step(s, TakeFlash)) && Inv(Step(s, GiveFlash)) && Inv(Step(s, FlushEnd))
  {
  }

  /** Every event, in every reachable state, keeps the invariant. */
  lemma InvStep(s: Sys, e: Event)
    requires Inv(s)
    ensures Inv(Step(s, e))
  {
    match e {
      case Touch(x, attrs, mark) => TouchKeeps(s, x, attrs, mark);
      case Alter(x, attrs, mark) => RewrittenKeeps(s, x, attrs, mark);
      case TakeFlash => LockKeeps(s);
      case GiveFlash => LockKeeps(s);
      case CopyAttrs(i) => CopyKeeps(s, i);
      case WriteAttrs(out) => WriteKeeps(s, out);
      case MarkAgain => MarkAgainKeeps(s);
      case SetConfig(x, cfg, create) => SetConfigKeeps(s, x, cfg, create);
      case SaveConfig(out) => SaveConfigKeeps(s, out);
      case BookConfig => BookConfigKeeps(s);
      case RemoveRow(x) => RemoveKeeps(s, x);
      case EraseAttrKey(ok) => EraseKeeps(s, ok);
      case EraseConfigKey(ok) => EraseKeeps(s, ok);
      case ClearRow(x) => ClearKeeps(s, x);
      case EraseClearedKey(ok) => EraseKeeps(s, ok);
      case FlushBegin => FlushBeginKeeps(s);
      case FlushVisit => VisitKeeps(s);
      case FlushEnd => LockKeeps(s);
      case Restart => RestartKeeps(s);
      case Restore(x) => RestoreKeeps(s, x);
    }
  }

  lemma RestartKeeps(s: Sys)
    requires Inv(s)
    ensures Inv(Step(s, Restart))
  {
    assert forall y :: y in s.gone ==> IsGone(s.table, s.flash, y);
  }

  lemma {:induction false} InvRun(s: Sys, es: seq<Event>)
    requires Inv(s)
    ensures Inv(Run(s, es))
    decreases |es|
  {
    if es != [] {
      InvRun(s, es[..|es| - 1]);
      InvStep(Run(s, es[..|es| - 1]), es[|es| - 1]);
    }
  }

  // ── Removed devices stay removed ───────────────────────────────────

  lemma RewrittenKnown(t: Table, x: Ieee, attrs: seq<Slot>, mark: bool, y: Ieee)
    ensures Known(Rewritten(t, x, attrs, mark), y) <==> Known(t, y)
  {
    var i := IndexOf(t, x);
    if i < |t| {
      SetCellIndex(t, i, Rewritten(t, x, attrs, mark)[i].cell, y);
    }
  }

  predicate SameKeys(t: Table, u: Table) {
    |u| == |t| && forall i :: 0 <= i < |t| ==> u[i].ieee == t[i].ieee
  }

  lemma SameKeysKnown(t: Table, u: Table, x: Ieee)
    requires SameKeys(t, u)
    ensures Known(u, x) <==> Known(t, x)
  {
    var i := IndexOf(t, x);
    IndexIs(u, x, i);
  }

  lemma UnknownTouch(s: Sys, y: Ieee, attrs: seq<Slot>, mark: bool, x: Ieee)
    requires !Known(s.table, x) && x != y
    ensures !Known(TouchStep(s, y, attrs, mark).table, x)
  {
    CreatedIndex(s.table, y, x);
    RewrittenKnown(Created(s.table, y), y, attrs, mark, x);
  }

  lemma UnknownConfig(s: Sys, y: Ieee, cfg: Config, create: bool, x: Ieee)
    requires !Known(s.table, x) && (create ==> x != y)
    ensures !Known(SetConfigStep(s, y, cfg, create).table, x)
  {
    var t := if create then Created(s.table, y) else s.table;
    CreatedIndex(s.table, y, x);
    var i := IndexOf(t, y);
    if i < |t| { SetCellIndex(t, i, t[i].cell.(config := Clamp(cfg)), x); }
  }

  lemma UnknownRestore(s: Sys, y: Ieee, x: Ieee)
    requires !Known(s.table, x) && x != y
    ensures !Known(RestoreStep(s, y).table, x)
  {
    var t := Created(s.table, y);
    CreatedIndex(s.table, y, x);
    var i := IndexOf(t, y);
    if i < |t| { SetCellIndex(t, i, RestoredCell(t[i].cell, s.flash, y), x); }
  }

  lemma UnknownRemove(s: Sys, y: Ieee, x: Ieee)
    requires Inv(s) && !Known(s.table, x)
    ensures !Known(RemoveStep(s, y).table, x)
  {
    var i := IndexOf(s.table, y);
    if i < |s.table| { SwapRemovedKnown(s.table, i, x); }
  }

  /** The other events change no key of the table. */
  lemma OthersKeepKeys(s: Sys, e: Event)
    requires !e.Touch? && !e.SetConfig? && !e.Restore? && !e.RemoveRow? && !e.Restart?
    ensures SameKeys(s.table, Step(s, e).table)
  {
  }

  /** Only an event that creates an entry of `x` can bring `x` into the table. */
  lemma UnknownStays(s: Sys, e: Event, x: Ieee)
    requires Inv(s) && !Known(s.table, x) && !Creates(e, x)
    ensures !Known(Step(s, e).table, x)
  {
    if e.Touch? {
      UnknownTouch(s, e.x, e.attrs, e.mark, x);
    } else if e.SetConfig? {
      UnknownConfig(s, e.x, e.cfg, e.create, x);
    } else if e.Restore? {
      UnknownRestore(s, e.x, x);
    } else if e.RemoveRow? {
      UnknownRemove(s, e.x, x);
    } else if !e.Restart? {
      OthersKeepKeys(s, e);
      SameKeysKnown(s.table, Step(s, e).table, x);
    }
  }

  /** A device that is gone leaves that set only by being created again. */
  lemma GoneStep(s: Sys, e: Event, x: Ieee)
    requires Inv(s) && x in s.gone && !Creates(e, x)
    ensures x in Step(s, e).gone
  {
    assert IsGone(s.table, s.flash, x);
  }

  predicate NeverCreates(es: seq<Event>, x: Ieee) {
    forall k :: 0 <= k < |es| ==> !Creates(es[k], x)
  }

  lemma {:induction false} UnknownRun(s: Sys, es: seq<Event>, x: Ieee)
    requires Inv(s) && !Known(s.table, x) && NeverCreates(es, x)
    ensures !Known(Run(s, es).table, x)
    decreases |es|
  {
    if es != [] {
      var n := |es| - 1;
      assert NeverCreates(es[..n], x);
      UnknownRun(s, es[..n], x);
      InvRun(s, es[..n]);
      UnknownStays(Run(s, es[..n]), es[n], x);
    }
  }

  lemma {:induction false} GoneRun(s: Sys, es: seq<Event>, x: Ieee)
    requires Inv(s) && x in s.gone && NeverCreates(es, x)
    ensures x in Run(s, es).gone
    decreases |es|
  {
    if es != [] {
      var n := |es| - 1;
      assert NeverCreates(es[..n], x);
      GoneRun(s, es[..n], x);
      InvRun(s, es[..n]);
      GoneStep(Run(s, es[..n]), es[n], x);
    }
  }

  lemma RemoveTakesOut(s: Sys, x: Ieee)
    requires Inv(s) && s.job.Held? && Known(s.table, x)
    ensures Step(s, RemoveRow(x)).job == EraseAttr(x)
    ensures !Known(Step(s, RemoveRow(x)).table, x)
  {
    SwapRemovedKnown(s.table, IndexOf(s.table, x), x);
  }

  lemma UnknownThen(s: Sys, es: seq<Event>, e: Event, x: Ieee)
    requires Inv(s) && !Known(s.table, x) && NeverCreates(es, x) && !Creates(e, x)
    ensures Inv(Step(Run(s, es), e)) && !Known(Step(Run(s, es), e).table, x)
  {
    InvRun(s, es);
    UnknownRun(s, es, x);
    InvStep(Run(s, es), e);
    UnknownStays(Run(s, es), e, x);
  }

  lemma ErasedForGood(s: Sys, x: Ieee, c: seq<Event>)
    requires Inv(s) && s.job == EraseConfig(x, true) && !Known(s.table, x) && NeverCreates(c, x)
    ensures var after := Run(Step(s, EraseConfigKey(true)), c);
            IsGone(after.table, after.flash, x)
  {
    var t := Step(s, EraseConfigKey(true));
    InvStep(s, EraseConfigKey(true));
    assert x in t.gone;
    GoneRun(t, c, x);
    InvRun(t, c);
  }

  /** A remove that found its entry and whose two erases succeeded: whatever sweeps, flush_now,
      setters, removes, reports and restarts do before (`a`), between (`b`) and after them (`c`),
      flash holds neither key of the device until something creates its entry again. */
  lemma RemovedForGood(s: Sys, x: Ieee, a: seq<Event>, b: seq<Event>, c: seq<Event>)
    requires Inv(s) && s.job.Held? && Known(s.table, x)
    requires NeverCreates(a, x) && NeverCreates(b, x) && NeverCreates(c, x)
    requires Run(Step(s, RemoveRow(x)), a).job == EraseAttr(x)
    requires Run(Step(Run(Step(s, RemoveRow(x)), a), EraseAttrKey(true)), b).job == EraseConfig(x, true)
    ensures var before := Run(Step(Run(Step(s, RemoveRow(x)), a), EraseAttrKey(true)), b);
            var after := Run(Step(before, EraseConfigKey(true)), c);
            IsGone(after.table, after.flash, x)
  {
    RemoveTakesOut(s, x);
    InvStep(s, RemoveRow(x));
    UnknownThen(Step(s, RemoveRow(x)), a, EraseAttrKey(true), x);
    var s2 := Step(Run(Step(s, RemoveRow(x)), a), EraseAttrKey(true));
    UnknownRun(s2, b, x);
    InvRun(s2, b);
    ErasedForGood(Run(s2, b), x, c);
  }

  // ── Writes that are skipped ────────────────────────────────────────

  /** A dirty entry is either copied to be written, or flash holds what would be written. */
  lemma CopiedOrSaved(s: Sys, i: nat)
    requires Inv(s) && s.job.Held? && i < |s.table| && s.table[i].cell.dirty
    ensures var x, blob := s.table[i].ieee, Serialize(s.table[i].cell.attrs);
            Step(s, CopyAttrs(i)).job == Copied(x, blob, true)
            || (Step(s, CopyAttrs(i)).job == Held
                && x in s.flash.attrs && Serialize(s.flash.attrs[x]) == blob)
  {
    assert RowOk(s, s.table[i]);
  }

  /** A settings push that is not written because it equals the booked one: flash holds it if and
      only if the last save of the device that reached flash was not reported as failed. */
  lemma ConfigSkipRight(s: Sys, x: Ieee, cfg: Config)
    requires Inv(s) && s.job.Held? && Known(s.table, x)
    requires Step(s, SetConfig(x, cfg, false)).job == Held
    ensures x in s.flash.configs
    ensures Clamp(s.flash.configs[x]) == Clamp(cfg) <==> x !in s.torn
  {
    assert RowOk(s, s.table[IndexOf(s.table, x)]);
  }

  /** A row of the table `[r]`. */
  lemma OneRow(r: Row)
    ensures IndexOf([r], r.ieee) == 0
  {
  }

  // The table `[Row(x, cell)]` and flash with settings `f`.
  function OneSys(x: Ieee, cell: Cell, f: Config, job: Job, torn: set<Ieee>): Sys {
    Sys([Row(x, cell)], Flash(map[], map[x := f]), job, {}, torn, None)
  }

  lemma PushOne(x: Ieee, cell: Cell, f: Config, c: Config, torn: set<Ieee>)
    requires Clamp(c) == c
    ensures SetConfigStep(OneSys(x, cell, f, Held, torn), x, c, false) ==
            OneSys(x, cell.(config := c), f, if cell.cfgBooked == Some(c) then Held else Saving(x, c), torn)
  {
    OneRow(Row(x, cell));
    var none: set<Ieee> := {};
    assert none - {x} == none;
  }

  lemma SaveTorn(x: Ieee, cell: Cell, f: Config, c: Config)
    ensures SaveConfigStep(OneSys(x, cell, f, Saving(x, c), {}), FailedLanded) == OneSys(x, cell, c, Held, {x})
  {
    assert map[x := f][x := c] == map[x := c];
    var none: set<Ieee> := {};
    assert none + {x} == {x};
  }

  /** The failing family is not empty: after a save that reached flash but failed to commit, the
      old settings can be pushed again and are not written, and flash keeps the others. */
  lemma FailedSaveHides(x: Ieee, one: Config, two: Config)
    requires Clamp(one) == one && Clamp(two) == two && one != two
    ensures var cell := FreshCell().(config := one, cfgBooked := Some(one));
            var s := Sys([Row(x, cell)], Flash(map[], map[x := one]), Held, {}, {}, None);
            var u := Run(s, [SetConfig(x, two, false), SaveConfig(FailedLanded), SetConfig(x, one, false)]);
            Inv(s) && u.job == Held && u.flash.configs == map[x := two] && u.table == [Row(x, cell)]
  {
    var cell := FreshCell().(config := one, cfgBooked := Some(one));
    var s := OneSys(x, cell, one, Held, {});
    RunThree(s, SetConfig(x, two, false), SaveConfig(FailedLanded), SetConfig(x, one, false));
    PushOne(x, cell, one, two, {});
    SaveTorn(x, cell.(config := two), one, two);
    PushOne(x, cell.(config := two), two, one, {x});
    assert cell.(config := two).(config := one) == cell;
  }

  lemma RunThree(s: Sys, a: Event, b: Event, c: Event)
    ensures Run(s, [a, b, c]) == Step(Step(Step(s, a), b), c)
  {
    assert [a, b, c][..2] == [a, b];
    assert [a, b][..1] == [a];
    assert [a][..0] == [];
    assert Run(s, []) == s;
    assert Run(s, [a]) == Step(s, a);
    assert Run(s, [a, b]) == Step(Step(s, a), b);
  }

  // ── Flush_now ──────────────────────────────────────────────────────

  /** When flush_now has come to the end of the table, every device that had unsaved attributes
      when it was called, and that was not removed, is saved or was missed. */
  lemma FlushNowCovers(s: Sys)
    requires Inv(s) && FlushDone(s)
    ensures s.scan.value.owed <= s.scan.value.saved + s.scan.value.missed
  {
    forall x | x in s.scan.value.owed ensures x in s.scan.value.saved + s.scan.value.missed {
      assert Owed(s.table, s.job, s.scan.value, x);
    }
  }

  /** Saved means on flash: the bytes of a copy taken since the call, or the bytes flash already
      held and that the entry still serializes to. */
  lemma SavedIsOnFlash(s: Sys, e: Event, x: Ieee)
    requires Inv(s) && s.scan.Some? && x !in s.scan.value.saved && e != FlushBegin
    requires Step(s, e).scan.Some? && x in Step(s, e).scan.value.saved
    ensures x in Step(s, e).flash.attrs
    ensures if s.job.Copied? then s.job == Copied(x, s.job.blob, true) && Step(s, e).flash.attrs[x] == s.job.blob
            else Known(s.table, x)
                 && Serialize(s.flash.attrs[x]) == Serialize(s.table[IndexOf(s.table, x)].cell.attrs)
  {
    if e.CopyAttrs? || e.FlushVisit? {
      var i := if e.CopyAttrs? then e.i else s.scan.value.next;
      CopiedOrSaved(s, i);
      IndexAt(s.table, i);
    }
  }

  /** What makes flush_now miss a device: a failed write, a clear, or a removal that moved its
      entry from the part still to come to the part already visited. */
  predicate Misses(s: Sys, e: Event, x: Ieee) {
    s.scan.Some? &&
    (|| (e.WriteAttrs? && e.out != Written && s.job.Copied? && s.job.late && s.job.x == x)
     || Clears(s, e, x)
     || (e.RemoveRow? && s.job.Held? && Known(s.table, e.x)
         && IndexOf(s.table, e.x) < s.scan.value.next <= |s.table| - 1
         && s.table[|s.table| - 1].ieee == x))
  }

  predicate Clears(s: Sys, e: Event, x: Ieee) {
    e == ClearRow(x) && s.job.Held? && Known(s.table, x)
  }

  predicate Removes(s: Sys, e: Event, x: Ieee) {
    e == RemoveRow(x) && s.job.Held? && Known(s.table, x)
  }

  /** What saves a device: the write of a copy taken since the call, or the visit of a dirty entry
      that would write what is booked as on flash. */
  predicate Saves(s: Sys, e: Event, x: Ieee) {
    || (e == WriteAttrs(Written) && s.job.Copied? && s.job.late && s.job.x == x)
    || (e.CopyAttrs? && Skips(s, e.i, x))
    || (e.FlushVisit? && s.scan.Some? && Skips(s, s.scan.value.next, x))
  }

  predicate Skips(s: Sys, i: nat, x: Ieee) {
    s.job.Held? && i < |s.table| && s.table[i].ieee == x && s.table[i].cell.dirty
    && s.table[i].cell.booked == Some(Serialize(s.table[i].cell.attrs))
  }

  /** And nothing else does. */
  lemma MissedWhy(s: Sys, e: Event, x: Ieee)
    requires s.scan.Some? && x !in s.scan.value.missed && e != FlushBegin
    requires Step(s, e).scan.Some?
    ensures x in Step(s, e).scan.value.missed <==> Misses(s, e, x)
  {
    if e.RemoveRow? {
    } else if e.ClearRow? {
    } else if e.WriteAttrs? {
    } else if e.CopyAttrs? || e.FlushVisit? {
      var i := if e.CopyAttrs? then e.i else s.scan.value.next;
      CopyMisses(s, i);
    } else {
      OthersLeaveScan(s, e);
    }
  }

  lemma CopyMisses(s: Sys, i: nat)
    requires s.scan.Some?
    ensures CopyStep(s, i).scan.Some? && CopyStep(s, i).scan.value.missed == s.scan.value.missed
  {
  }

  lemma OthersLeaveScan(s: Sys, e: Event)
    requires !e.RemoveRow? && !e.ClearRow? && !e.WriteAttrs? && !e.CopyAttrs? && !e.FlushVisit? && !e.FlushBegin?
    ensures Step(s, e).scan == s.scan || Step(s, e).scan == None
  {
  }

  lemma SavedWhy(s: Sys, e: Event, x: Ieee)
    requires s.scan.Some? && Goes(e)
    ensures Step(s, e).scan.Some?
    ensures x in Step(s, e).scan.value.saved <==> x in s.scan.value.saved || Saves(s, e, x)
  {
  }

  lemma OwedWhy(s: Sys, e: Event, x: Ieee)
    requires s.scan.Some? && Goes(e)
    ensures Step(s, e).scan.Some?
    ensures x in Step(s, e).scan.value.owed <==> x in s.scan.value.owed && !Removes(s, e, x)
  {
  }

  // ── A whole call ───────────────────────────────────────────────────

  /** The events inside one call of flush_now. */
  predicate Goes(e: Event) {
    !e.FlushBegin? && !e.FlushEnd? && !e.Restart?
  }

  predicate InCall(es: seq<Event>) {
    forall k :: 0 <= k < |es| ==> Goes(es[k])
  }

  predicate EverMisses(s: Sys, es: seq<Event>, x: Ieee)
    decreases |es|
  {
    es != [] && (EverMisses(s, es[..|es| - 1], x) || Misses(Run(s, es[..|es| - 1]), es[|es| - 1], x))
  }

  predicate EverSaves(s: Sys, es: seq<Event>, x: Ieee)
    decreases |es|
  {
    es != [] && (EverSaves(s, es[..|es| - 1], x) || Saves(Run(s, es[..|es| - 1]), es[|es| - 1], x))
  }

  predicate EverRemoves(s: Sys, es: seq<Event>, x: Ieee)
    decreases |es|
  {
    es != [] && (EverRemoves(s, es[..|es| - 1], x) || Removes(Run(s, es[..|es| - 1]), es[|es| - 1], x))
  }

  predicate EverClears(s: Sys, es: seq<Event>, x: Ieee)
    decreases |es|
  {
    es != [] && (EverClears(s, es[..|es| - 1], x) || Clears(Run(s, es[..|es| - 1]), es[|es| - 1], x))
  }

  lemma {:induction false} CallRun(s: Sys, es: seq<Event>, x: Ieee)
    requires s.scan.Some? && InCall(es)
    ensures var u := Run(s, es);
            && u.scan.Some?
            && (x in u.scan.value.saved <==> x in s.scan.value.saved || EverSaves(s, es, x))
            && (x in u.scan.value.missed <==> x in s.scan.value.missed || EverMisses(s, es, x))
            && (x in u.scan.value.owed <==> x in s.scan.value.owed && !EverRemoves(s, es, x))
    decreases |es|
  {
    if es != [] {
      var n := |es| - 1;
      CallRun(s, es[..n], x);
      var t := Run(s, es[..n]);
      SavedWhy(t, es[n], x);
      OwedWhy(t, es[n], x);
      if x !in t.scan.value.missed { MissedWhy(t, es[n], x); } else { MissedStays(t, es[n], x); }
    }
  }

  lemma MissedStays(s: Sys, e: Event, x: Ieee)
    requires s.scan.Some? && Goes(e) && x in s.scan.value.missed
    ensures Step(s, e).scan.Some? && x in Step(s, e).scan.value.missed
  {
  }

  lemma CallEnds(b: Sys, es: seq<Event>, x: Ieee)
    requires Inv(b) && InCall(es) && b.scan.Some? && b.scan.value.saved == {} && b.scan.value.missed == {}
    requires x in b.scan.value.owed && FlushDone(Run(b, es)) && !EverRemoves(b, es, x)
    ensures x in Run(b, es).scan.value.saved <==> !(EverMisses(b, es, x) && !EverSaves(b, es, x))
  {
    InvRun(b, es);
    CallRun(b, es, x);
    FlushNowCovers(Run(b, es));
  }

  /** One call of flush_now, from its begin to the end of its loop, with anything in between: a
      device that had unsaved attributes and is not removed is saved unless the run misses it, by
      a failed write, a clear or a move, and saves it nowhere. */
  lemma SavedExactly(s: Sys, es: seq<Event>, x: Ieee)
    requires Inv(s) && InCall(es) && x in DirtyIn(s.table)
    requires FlushDone(Run(FlushBeginStep(s), es)) && !EverRemoves(FlushBeginStep(s), es, x)
    ensures var b := FlushBeginStep(s);
            x in Run(b, es).scan.value.saved <==> !(EverMisses(b, es, x) && !EverSaves(b, es, x))
  {
    FlushBeginKeeps(s);
    CallEnds(FlushBeginStep(s), es, x);
  }

  /** What the entry of `x` would write, if it has one. */
  function Bytes(s: Sys, x: Ieee): set<Blob> {
    var i := IndexOf(s.table, x);
    if i < |s.table| then {Serialize(s.table[i].cell.attrs)} else {}
  }

  /** What it would have written at the moments of a run. */
  function Had(s: Sys, es: seq<Event>, x: Ieee): set<Blob>
    decreases |es|
  {
    if es == [] then Bytes(s, x) else Had(s, es[..|es| - 1], x) + Bytes(Run(s, es), x)
  }

  /** A copy taken since the call, and what flash holds for a saved device, are among `had`. */
  predicate OnFlash(s: Sys, had: set<Blob>, x: Ieee) {
    s.scan.Some?
    && (s.job.Copied? && s.job.x == x ==> if s.job.late then s.job.blob in had else x !in s.scan.value.saved)
    && (Erasing(s.job, x) || (s.job.EraseCleared? && s.job.x == x) ==> x !in s.scan.value.saved)
    && (x in s.scan.value.saved ==> x in s.flash.attrs && Serialize(s.flash.attrs[x]) in had)
  }

  lemma CopyOnFlash(s: Sys, i: nat, had: set<Blob>, x: Ieee)
    requires Inv(s) && OnFlash(s, had, x) && Bytes(s, x) <= had
    ensures OnFlash(CopyStep(s, i), had, x)
  {
    if s.job.Held? && i < |s.table| && s.table[i].cell.dirty {
      CopiedOrSaved(s, i);
      IndexAt(s.table, i);
    }
  }

  lemma WriteOnFlash(s: Sys, out: Outcome, had: set<Blob>, x: Ieee)
    requires OnFlash(s, had, x) && (s.job.Copied? ==> Serialize(s.job.blob) == s.job.blob)
    ensures OnFlash(WriteStep(s, out), had, x)
  {
  }

  lemma OtherOnFlash(s: Sys, e: Event, had: set<Blob>, x: Ieee)
    requires Goes(e) && OnFlash(s, had, x) && !Removes(s, e, x) && !Clears(s, e, x)
    requires !e.CopyAttrs? && !e.FlushVisit? && !e.WriteAttrs?
    ensures OnFlash(Step(s, e), had, x)
  {
  }

  lemma StepOnFlash(s: Sys, e: Event, had: set<Blob>, x: Ieee)
    requires Inv(s) && Goes(e) && OnFlash(s, had, x) && Bytes(s, x) <= had
    requires !Removes(s, e, x) && !Clears(s, e, x)
    ensures OnFlash(Step(s, e), had, x)
  {
    if e.CopyAttrs? {
      CopyOnFlash(s, e.i, had, x);
    } else if e.FlushVisit? {
      VisitOnFlash(s, had, x);
    } else if e.WriteAttrs? {
      WriteOnFlash(s, e.out, had, x);
    } else {
      OtherOnFlash(s, e, had, x);
    }
  }

  lemma VisitOnFlash(s: Sys, had: set<Blob>, x: Ieee)
    requires Inv(s) && OnFlash(s, had, x) && Bytes(s, x) <= had
    ensures OnFlash(FlushVisitStep(s), had, x)
  {
    CopyOnFlash(s, s.scan.value.next, had, x);
  }

  lemma {:induction false} RunOnFlash(s: Sys, es: seq<Event>, x: Ieee)
    requires Inv(s) && InCall(es) && s.scan.Some? && x !in s.scan.value.saved
    requires s.job.Copied? ==> !s.job.late
    requires !EverRemoves(s, es, x) && !EverClears(s, es, x)
    ensures OnFlash(Run(s, es), Had(s, es, x), x) && Bytes(Run(s, es), x) <= Had(s, es, x)
    decreases |es|
  {
    if es != [] {
      var n := |es| - 1;
      RunOnFlash(s, es[..n], x);
      InvRun(s, es[..n]);
      StepOnFlash(Run(s, es[..n]), es[n], Had(s, es[..n], x), x);
    }
  }

  lemma {:induction false} ClearMisses(s: Sys, es: seq<Event>, x: Ieee)
    requires s.scan.Some? && InCall(es) && EverClears(s, es, x)
    ensures EverMisses(s, es, x)
    decreases |es|
  {
    var n := |es| - 1;
    CallRun(s, es[..n], x);
    if EverClears(s, es[..n], x) { ClearMisses(s, es[..n], x); }
  }

  lemma CallHolds(b: Sys, es: seq<Event>, x: Ieee)
    requires Inv(b) && InCall(es) && b.scan.Some? && x !in b.scan.value.saved && (b.job.Copied? ==> !b.job.late)
    requires !EverRemoves(b, es, x) && !EverClears(b, es, x) && Run(b, es).scan.Some?
    requires x in Run(b, es).scan.value.saved
    ensures var u := Run(b, es);
            x in u.flash.attrs && Serialize(u.flash.attrs[x]) in Had(b, es, x)
  {
    RunOnFlash(b, es, x);
  }

  /** The promise of flush_now: when it returns, flash holds for every device that had unsaved
      attributes, and was neither removed nor missed, attributes that the device had at some moment
      since the call. A missed device has them all the same if the run saves it and nothing clears it. */
  lemma FlushNowIsDurable(s: Sys, es: seq<Event>, x: Ieee)
    requires Inv(s) && InCall(es) && x in DirtyIn(s.table)
    requires FlushDone(Run(FlushBeginStep(s), es)) && !EverRemoves(FlushBeginStep(s), es, x)
    requires var b := FlushBeginStep(s);
             !EverMisses(b, es, x) || (EverSaves(b, es, x) && !EverClears(b, es, x))
    ensures var u := Run(FlushBeginStep(s), es);
            x in u.flash.attrs && Serialize(u.flash.attrs[x]) in Had(FlushBeginStep(s), es, x)
  {
    var b := FlushBeginStep(s);
    if EverClears(b, es, x) { ClearMisses(b, es, x); }
    SavedExactly(s, es, x);
    FlushBeginKeeps(s);
    CallHolds(b, es, x);
  }

  /** Two devices, the second with unsaved attributes. */
  function TwoRows(a: Ieee, b: Ieee): Sys {
    Sys([Row(a, FreshCell()), Row(b, FreshCell().(dirty := true))], Flash(map[], map[]), Held, {}, {}, None)
  }

  lemma TwoRowsInv(a: Ieee, b: Ieee)
    requires a != b
    ensures Inv(TwoRows(a, b))
    ensures DirtyIn(TwoRows(a, b).table) == {b}
  {
    var t := TwoRows(a, b).table;
    assert t[1].cell.dirty && !t[0].cell.dirty;
  }

  lemma TwoRowsBegin(a: Ieee, b: Ieee)
    requires a != b
    ensures Step(TwoRows(a, b), FlushBegin) == TwoRows(a, b).(scan := Some(Scan(0, {b}, {}, {})))
  {
    TwoRowsInv(a, b);
  }

  lemma TwoRowsVisit(a: Ieee, b: Ieee, owed: set<Ieee>)
    ensures Step(TwoRows(a, b).(scan := Some(Scan(0, owed, {}, {}))), FlushVisit) ==
            TwoRows(a, b).(scan := Some(Scan(1, owed, {}, {})))
  {
  }

  lemma TwoRowsRemove(a: Ieee, b: Ieee)
    requires a != b
    ensures Step(TwoRows(a, b).(scan := Some(Scan(1, {b}, {}, {}))), RemoveRow(a)) ==
            TwoRows(a, b).(table := [TwoRows(a, b).table[1]], job := EraseAttr(a), scan := Some(Scan(1, {b}, {}, {b})))
  {
    var t := TwoRows(a, b).table;
    IndexIs(t, a, 0);
    assert SwapRemoved(t, 0) == [t[1]];
    var none: set<Ieee> := {};
    assert {b} - {a} == {b} && none + {b} == {b};
  }

  lemma TwoRowsVisited(a: Ieee, b: Ieee)
    requires a != b
    ensures Run(TwoRows(a, b), [FlushBegin, FlushVisit, RemoveRow(a)]) ==
            TwoRows(a, b).(table := [TwoRows(a, b).table[1]], job := EraseAttr(a), scan := Some(Scan(1, {b}, {}, {b})))
  {
    RunThree(TwoRows(a, b), FlushBegin, FlushVisit, RemoveRow(a));
    TwoRowsBegin(a, b);
    TwoRowsVisit(a, b, {b});
    TwoRowsRemove(a, b);
  }

  /** A removal during flush_now can hide a device from it: the first entry is visited, then
      removed, the second moves into its place, and the loop ends with the second still unsaved. */
  lemma FlushNowMisses(a: Ieee, b: Ieee)
    requires a != b
    ensures var s := TwoRows(a, b);
            var u := Run(Run(s, [FlushBegin, FlushVisit, RemoveRow(a)]), [EraseAttrKey(true), EraseConfigKey(true)]);
            Inv(s) && FlushDone(u) && b in u.scan.value.owed && b !in u.scan.value.saved
            && u.table == [s.table[1]] && b !in u.flash.attrs
  {
    TwoRowsInv(a, b);
    TwoRowsVisited(a, b);
    var u := Run(TwoRows(a, b), [FlushBegin, FlushVisit, RemoveRow(a)]);
    var e1, e2 := EraseAttrKey(true), EraseConfigKey(true);
    assert [e1, e2][..1] == [e1];
    assert [e1][..0] == [];
    assert Run(u, []) == u;
    assert Run(u, [e1]) == Step(u, e1);
  }
}
