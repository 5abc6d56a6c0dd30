/** The device table on flash: one count and one record per slot, a RAM index
    of the slots' addresses, and saves, deletes and boots that power may cut
    after any flash write (each write is durable when it returns). */
module ZapStore {
  import opened Wrappers

  const MAX_DEVICES: nat := 200

  datatype Device = Device(ieee: nat, data: int)

  /** A stored record; `intact` says its CRC32 matches. */
  datatype Blob = Blob(dev: Device, intact: bool)

  /** `cnt` reads 0 while its key is absent. */
  datatype Nvs = Nvs(cnt: nat, blobs: map<nat, Blob>)

  const Blank := Nvs(0, map[])

  datatype Write = SetCount(n: nat) | SetBlob(i: nat, b: Blob) | EraseBlob(j: nat)

  function Apply(m: Nvs, w: Write): Nvs {
    match w
    case SetCount(n) => m.(cnt := n)
    case SetBlob(i, b) => m.(blobs := m.blobs[i := b])
    case EraseBlob(j) => m.(blobs := m.blobs - {j})
  }

  /** Flash after the first `k` of these writes; fewer when there are fewer. */
  function After(m: Nvs, ws: seq<Write>, k: nat): Nvs
    decreases k
  {
    if k == 0 || ws == [] then m else After(Apply(m, ws[0]), ws[1..], k - 1)
  }

  function Min(a: nat, b: nat): nat { if a < b then a else b }

  // ── The index ─────────────────────────────────────────────────────────

  function SlotIeee(m: Nvs, i: nat): nat {
    if i in m.blobs then m.blobs[i].dev.ieee else 0
  }

  function Index(m: Nvs): (r: seq<nat>)
    ensures |r| == Min(m.cnt, MAX_DEVICES)
  {
    seq(Min(m.cnt, MAX_DEVICES), i requires 0 <= i => SlotIeee(m, i))
  }

  function Find(idx: seq<nat>, ieee: nat): (r: Option<nat>)
    ensures r.Some? ==> r.value < |idx| && idx[r.value] == ieee && ieee !in idx[..r.value]
    ensures r.None? ==> ieee !in idx
  {
    if idx == [] then None
    else if idx[0] == ieee then Some(0)
    else match Find(idx[1..], ieee) case None => None case Some(i) => Some(i + 1)
  }

  // ── What each operation writes ────────────────────────────────────────

  function Sealed(d: Device): Blob { Blob(d, true) }

  /** None when a new device meets a full store. A new device's count is
      written before its record. */
  function SaveWrites(m: Nvs, idx: seq<nat>, d: Device): Option<seq<Write>> {
    match Find(idx, d.ieee)
    case Some(f) => Some([SetBlob(f, Sealed(d))])
    case None =>
      if m.cnt >= MAX_DEVICES then None
      else Some([SetCount(m.cnt + 1), SetBlob(m.cnt, Sealed(d))])
  }

  // Dropping the last slot: the count, then the key when there is one.
  function DropTail(last: nat, present: bool): seq<Write> {
    [SetCount(last)] + (if present then [EraseBlob(last)] else [])
  }

  /** None when there is nothing to delete. The last record moves into the
      deleted slot first. */
  function DeleteWrites(m: Nvs, idx: seq<nat>, ieee: nat): Option<seq<Write>> {
    var count := Min(m.cnt, MAX_DEVICES);
    match Find(idx, ieee)
    case None => None
    case Some(f) =>
      if ieee == 0 || f >= count then None
      else
        var last := count - 1;
        var drop := DropTail(last, last in m.blobs);
        if f == last then Some(drop)
        else if last in m.blobs && m.blobs[last].dev.ieee != ieee then Some([SetBlob(f, m.blobs[last])] + drop)
        else Some([EraseBlob(f)] + drop)
  }

  /** The boot's repair: the tail goes when a lower slot holds its device. */
  function RepairWrites(m: Nvs): seq<Write> {
    if m.cnt < 2 || m.cnt > MAX_DEVICES then []
    else
      var idx := Index(m);
      var tail := idx[m.cnt - 1];
      if tail != 0 && tail in idx[..m.cnt - 1] then DropTail(m.cnt - 1, m.cnt - 1 in m.blobs) else []
  }

  /** What a load returns: intact records in slot order, one per device, the
      lower slot winning. */
  function Load(m: Nvs, n: nat): seq<Device> {
    if n == 0 then []
    else
      var below := Load(m, n - 1);
      if n - 1 !in m.blobs || !m.blobs[n - 1].intact || Holds(below, m.blobs[n - 1].dev.ieee) then below
      else below + [m.blobs[n - 1].dev]
  }

  predicate Holds(ds: seq<Device>, ieee: nat) {
    exists k :: 0 <= k < |ds| && ds[k].ieee == ieee
  }

  // ── Runs ──────────────────────────────────────────────────────────────

  /** `index` is what RAM holds: None until it is built. */
  datatype Store = Store(flash: Nvs, ready: bool, index: Option<seq<nat>>)

  const Fresh := Store(Blank, false, None)

  /** `cut` = Some(k): power is lost after the operation's first k writes. */
  datatype Event =
    | Save(d: Device, cut: Option<nat>)
    | Delete(ieee: nat, cut: Option<nat>)
    | Boot(cut: Option<nat>)

  function InUse(s: Store): seq<nat> {
    if s.index.Some? then s.index.value else Index(s.flash)
  }

  function Dead(m: Nvs): Store { Store(m, false, None) }

  function Step(s: Store, e: Event): Store {
    match e
    case Save(d, cut) =>
      if !s.ready then s
      else
        (match SaveWrites(s.flash, InUse(s), d)
         case None => if cut.Some? then Dead(s.flash) else s.(index := Some(InUse(s)))
         case Some(ws) =>
           if cut.Some? then Dead(After(s.flash, ws, cut.value))
           else s.(flash := After(s.flash, ws, |ws|), index := Some(Noted(InUse(s), d.ieee))))
    case Delete(x, cut) =>
      if !s.ready then s.(index := None)
      else
        (match DeleteWrites(s.flash, InUse(s), x)
         case None => if cut.Some? then Dead(s.flash) else s.(index := None)
         case Some(ws) =>
           if cut.Some? then Dead(After(s.flash, ws, cut.value))
           else s.(flash := After(s.flash, ws, |ws|), index := None))
    case Boot(cut) =>
      var ws := RepairWrites(s.flash);
      if cut.Some? then Dead(After(s.flash, ws, cut.value))
      else Store(After(s.flash, ws, |ws|), true, None)
  }

  // The index after a completed save.
  function Noted(idx: seq<nat>, ieee: nat): seq<nat> {
    if Find(idx, ieee).Some? then idx else idx + [ieee]
  }

  /** The devices saved and not deleted: a save counts once its record is
      written, a delete once its first write is. */
  function Live(s: Store, live: map<nat, Device>, e: Event): map<nat, Device> {
    match e
    case Save(d, cut) =>
      if !s.ready || SaveWrites(s.flash, InUse(s), d).None? then live
      else if cut.Some? && cut.value < |SaveWrites(s.flash, InUse(s), d).value| then live
      else live[d.ieee := d]
    case Delete(x, cut) =>
      if !s.ready || DeleteWrites(s.flash, InUse(s), x).None? || cut == Some(0) then live else live - {x}
    case Boot(_) => live
  }

  function RunStore(h: seq<Event>): Store {
    if h == [] then Fresh else Step(RunStore(h[..|h| - 1]), h[|h| - 1])
  }

  function RunLive(h: seq<Event>): map<nat, Device> {
    if h == [] then map[]
    else Live(RunStore(h[..|h| - 1]), RunLive(h[..|h| - 1]), h[|h| - 1])
  }

  // ── What every write keeps ────────────────────────────────────────────

  // Slot `i` is counted and holds a record.
  ghost predicate Row(m: Nvs, i: nat) { i < m.cnt && i in m.blobs }

  ghost predicate Bounded(m: Nvs) {
    m.cnt <= MAX_DEVICES && forall i: nat :: i in m.blobs ==> m.blobs[i].intact
  }

  // Two rows of one device: only the tail may be the second.
  ghost predicate TailTwin(m: Nvs) {
    forall i: nat, j: nat :: i < j && Row(m, i) && Row(m, j) && m.blobs[i].dev.ieee != 0 && m.blobs[i].dev.ieee == m.blobs[j].dev.ieee
      ==> j == m.cnt - 1
  }

  ghost predicate Unique(m: Nvs) {
    forall i: nat, j: nat :: i < j && Row(m, i) && Row(m, j) && m.blobs[i].dev.ieee != 0 ==> m.blobs[i].dev.ieee != m.blobs[j].dev.ieee
  }

  ghost predicate Twin(m: Nvs, i: nat) {
    Row(m, i) && i == m.cnt - 1 && exists j: nat :: j < i && Row(m, j) && m.blobs[j].dev.ieee == m.blobs[i].dev.ieee
  }

  // Every live device has a row, and each of its rows but a twin at the tail
  // is the live record.
  ghost predicate Keeps(m: Nvs, live: map<nat, Device>) {
    forall x :: x in live && x != 0 ==> KeepsOne(m, live[x], x)
  }

  ghost predicate KeepsOne(m: Nvs, d: Device, x: nat) {
    && d.ieee == x
    && (exists i: nat :: Row(m, i) && m.blobs[i].dev.ieee == x)
    && (forall i: nat :: Row(m, i) && m.blobs[i].dev.ieee == x ==> m.blobs[i].dev == d || Twin(m, i))
  }

  ghost predicate Sound(m: Nvs, live: map<nat, Device>) {
    Bounded(m) && TailTwin(m) && Keeps(m, live)
  }

  ghost predicate Inv(s: Store, live: map<nat, Device>) {
    && Sound(s.flash, live)
    && (s.ready ==> Unique(s.flash))
    && (s.index.Some? ==> s.ready && s.index.value == Index(s.flash))
  }

  lemma IndexAt(m: Nvs, i: nat)
    requires i < m.cnt <= MAX_DEVICES
    ensures Index(m)[i] == SlotIeee(m, i)
  {
  }

  // In a unique table the index finds the device's one row, or there is none.
  lemma FindRow(m: Nvs, x: nat)
    requires Bounded(m) && x != 0
    ensures Find(Index(m), x).Some? ==> Row(m, Find(Index(m), x).value) && m.blobs[Find(Index(m), x).value].dev.ieee == x
    ensures Find(Index(m), x).None? ==> forall i: nat :: Row(m, i) ==> m.blobs[i].dev.ieee != x
  {
    var f := Find(Index(m), x);
    if f.None? {
      forall i: nat | Row(m, i)
        ensures m.blobs[i].dev.ieee != x
      {
        IndexAt(m, i);
        assert Index(m)[i] in Index(m);
      }
    }
  }

  lemma SaveOld(m: Nvs, live: map<nat, Device>, d: Device, f: nat)
    requires Sound(m, live) && Unique(m) && f < m.cnt && SlotIeee(m, f) == d.ieee
    ensures var m' := Apply(m, SetBlob(f, Sealed(d)));
            Bounded(m') && Unique(m') && Sound(m', live[d.ieee := d])
  {
    var m' := Apply(m, SetBlob(f, Sealed(d)));
    assert forall i: nat :: Row(m', i) && i != f ==> Row(m, i) && m'.blobs[i] == m.blobs[i];
    assert forall i: nat :: Row(m, i) && i != f ==> Row(m', i);
    assert Row(m', f);
    var live' := live[d.ieee := d];
    forall x | x in live' && x != 0
      ensures KeepsOne(m', live'[x], x)
    {
      if x != d.ieee {
        KeepUnmoved(m, m', live[x], x);
      }
    }
  }

  // Rows of `x` that stay as they were keep its record.
  lemma KeepUnmoved(m: Nvs, m': Nvs, d: Device, x: nat)
    requires Unique(m) && x != 0 && KeepsOne(m, d, x)
    requires forall i: nat :: Row(m, i) && m.blobs[i].dev.ieee == x ==> Row(m', i) && m'.blobs[i] == m.blobs[i]
    requires forall i: nat :: Row(m', i) && m'.blobs[i].dev.ieee == x ==> Row(m, i) && m.blobs[i] == m'.blobs[i]
    ensures KeepsOne(m', d, x)
  {
    var i: nat :| Row(m, i) && m.blobs[i].dev.ieee == x;
    assert Row(m', i);
  }

  lemma SaveNewCount(m: Nvs, live: map<nat, Device>)
    requires Sound(m, live) && Unique(m) && m.cnt < MAX_DEVICES
    ensures Sound(Apply(m, SetCount(m.cnt + 1)), live)
  {
    var m' := Apply(m, SetCount(m.cnt + 1));
    assert forall i: nat :: Row(m', i) && i != m.cnt ==> Row(m, i);
    assert forall i: nat :: Row(m, i) ==> Row(m', i);
    forall x | x in live && x != 0
      ensures KeepsOne(m', live[x], x)
    {
      var i: nat :| Row(m, i) && m.blobs[i].dev.ieee == x;
      assert Row(m', i);
    }
  }

  lemma SaveNew(m: Nvs, live: map<nat, Device>, d: Device)
    requires Sound(m, live) && Unique(m) && m.cnt < MAX_DEVICES
    requires forall i: nat :: Row(m, i) ==> m.blobs[i].dev.ieee != d.ieee
    ensures var m' := Apply(Apply(m, SetCount(m.cnt + 1)), SetBlob(m.cnt, Sealed(d)));
            Unique(m') && Sound(m', live[d.ieee := d])
  {
    var m' := Apply(Apply(m, SetCount(m.cnt + 1)), SetBlob(m.cnt, Sealed(d)));
    assert forall i: nat :: Row(m', i) && i != m.cnt ==> Row(m, i) && m'.blobs[i] == m.blobs[i];
    assert forall i: nat :: Row(m, i) ==> Row(m', i) && m'.blobs[i] == m.blobs[i];
    assert Row(m', m.cnt);
    var live' := live[d.ieee := d];
    forall x | x in live' && x != 0
      ensures KeepsOne(m', live'[x], x)
    {
      if x != d.ieee {
        KeepUnmoved(m, m', live[x], x);
      }
    }
  }

  // A delete's first write when the last record moves into slot `f`.
  lemma MovedKeepsOne(m: Nvs, d: Device, y: nat, f: nat)
    requires Unique(m) && Row(m, f) && Row(m, m.cnt - 1) && f < m.cnt - 1
    requires y != 0 && y != m.blobs[f].dev.ieee && KeepsOne(m, d, y)
    ensures KeepsOne(Apply(m, SetBlob(f, m.blobs[m.cnt - 1])), d, y)
  {
    var m1 := Apply(m, SetBlob(f, m.blobs[m.cnt - 1]));
    var i: nat :| Row(m, i) && m.blobs[i].dev.ieee == y;
    assert Row(m1, i) && m1.blobs[i] == m.blobs[i];
    assert forall j: nat :: Row(m1, j) ==> Row(m, j) && (j != f ==> m1.blobs[j] == m.blobs[j]);
    assert forall j: nat :: !Twin(m, j) || m.blobs[j].dev.ieee == 0;
  }

  lemma MovedUnique(m: Nvs, f: nat)
    requires Unique(m) && Row(m, f) && Row(m, m.cnt - 1) && f < m.cnt - 1
    ensures TailTwin(Apply(m, SetBlob(f, m.blobs[m.cnt - 1])))
  {
    var m1 := Apply(m, SetBlob(f, m.blobs[m.cnt - 1]));
    forall i: nat, j: nat | i < j && Row(m1, i) && Row(m1, j) && m1.blobs[i].dev.ieee != 0 && m1.blobs[i].dev.ieee == m1.blobs[j].dev.ieee
      ensures j == m1.cnt - 1
    {
      assert Row(m, i) && Row(m, j);
    }
  }

  // The same first write when the tail is a hole: slot `f` becomes one too.
  lemma HoleKeepsOne(m: Nvs, d: Device, y: nat, f: nat)
    requires Unique(m) && Row(m, f) && y != 0 && y != m.blobs[f].dev.ieee && KeepsOne(m, d, y)
    ensures KeepsOne(Apply(m, EraseBlob(f)), d, y)
  {
    var m1 := Apply(m, EraseBlob(f));
    assert forall i: nat :: Row(m1, i) <==> Row(m, i) && i != f;
    KeepUnmoved(m, m1, d, y);
  }

  // The state after the first write of a delete that is not of the last slot.
  function Displaced(m: Nvs, f: nat): Nvs
    requires m.cnt > 0
  {
    if m.cnt - 1 in m.blobs then Apply(m, SetBlob(f, m.blobs[m.cnt - 1])) else Apply(m, EraseBlob(f))
  }

  lemma DisplacedKeepsOne(m: Nvs, d: Device, y: nat, f: nat)
    requires Unique(m) && Row(m, f) && f < m.cnt - 1 && y != 0 && y != m.blobs[f].dev.ieee && KeepsOne(m, d, y)
    ensures KeepsOne(Displaced(m, f), d, y)
  {
    if m.cnt - 1 in m.blobs { MovedKeepsOne(m, d, y, f); } else { HoleKeepsOne(m, d, y, f); }
  }

  lemma DisplacedTwin(m: Nvs, f: nat)
    requires Bounded(m) && Unique(m) && Row(m, f) && f < m.cnt - 1
    ensures Bounded(Displaced(m, f)) && TailTwin(Displaced(m, f))
  {
    if m.cnt - 1 in m.blobs {
      MovedUnique(m, f);
    } else {
      assert forall i: nat :: Row(Displaced(m, f), i) <==> Row(m, i) && i != f;
    }
  }

  lemma DisplacedSound(m: Nvs, live: map<nat, Device>, f: nat, x: nat)
    requires Sound(m, live) && Unique(m) && x != 0 && Row(m, f) && m.blobs[f].dev.ieee == x && f < m.cnt - 1
    ensures Sound(Displaced(m, f), live - {x})
  {
    DisplacedTwin(m, f);
    var live' := live - {x};
    forall y | y in live' && y != 0
      ensures KeepsOne(Displaced(m, f), live'[y], y)
    {
      DisplacedKeepsOne(m, live[y], y, f);
    }
  }

  lemma DisplacedRows(m: Nvs, f: nat, x: nat)
    requires Unique(m) && x != 0 && Row(m, f) && m.blobs[f].dev.ieee == x && f < m.cnt - 1
    ensures forall i: nat :: Row(Displaced(m, f), i) ==> Displaced(m, f).blobs[i].dev.ieee != x
    ensures Row(Displaced(m, f), m.cnt - 1) ==> Twin(Displaced(m, f), m.cnt - 1)
  {
    var m1 := Displaced(m, f);
    forall i: nat | Row(m1, i)
      ensures m1.blobs[i].dev.ieee != x
    {
      assert i != f ==> Row(m, i) && m1.blobs[i] == m.blobs[i];
      assert i == f ==> Row(m, m.cnt - 1) && m1.blobs[i] == m.blobs[m.cnt - 1];
    }
    if Row(m1, m.cnt - 1) {
      assert Row(m1, f) && m1.blobs[f] == m1.blobs[m.cnt - 1];
    }
  }

  // The count write that drops a twin, or a deleted last row.
  lemma DropLast(m: Nvs, live: map<nat, Device>)
    requires Sound(m, live) && m.cnt > 0
    requires Row(m, m.cnt - 1) ==> m.blobs[m.cnt - 1].dev.ieee == 0 || m.blobs[m.cnt - 1].dev.ieee !in live || Twin(m, m.cnt - 1)
    ensures var m' := Apply(m, SetCount(m.cnt - 1)); Sound(m', live) && Unique(m')
  {
    var m' := Apply(m, SetCount(m.cnt - 1));
    assert forall i: nat :: Row(m', i) <==> Row(m, i) && i != m.cnt - 1;
    forall x | x in live && x != 0
      ensures KeepsOne(m', live[x], x)
    {
      var i: nat :| Row(m, i) && m.blobs[i].dev.ieee == x;
      if i == m.cnt - 1 {
        var j: nat :| j < i && Row(m, j) && m.blobs[j].dev.ieee == m.blobs[i].dev.ieee;
        assert Row(m', j);
      } else {
        assert Row(m', i);
      }
    }
  }

  // Erasing a key the count no longer covers changes no row.
  lemma EraseBeyond(m: Nvs, live: map<nat, Device>, k: nat)
    requires Sound(m, live) && m.cnt <= k
    ensures Sound(Apply(m, EraseBlob(k)), live)
    ensures Unique(m) ==> Unique(Apply(m, EraseBlob(k)))
  {
    var m' := Apply(m, EraseBlob(k));
    assert forall i: nat :: Row(m', i) <==> Row(m, i);
    forall x | x in live && x != 0
      ensures KeepsOne(m', live[x], x)
    {
      var i: nat :| Row(m, i) && m.blobs[i].dev.ieee == x;
      assert Row(m', i);
      assert forall i: nat :: Twin(m, i) ==> Twin(m', i);
    }
  }

  lemma DropTailAfter(m: Nvs, last: nat, present: bool, k: nat)
    ensures After(m, DropTail(last, present), k)
            == if k == 0 then m
               else if k == 1 || !present then Apply(m, SetCount(last))
               else Apply(Apply(m, SetCount(last)), EraseBlob(last))
  {
    var ws := DropTail(last, present);
    if k >= 1 {
      var m1 := Apply(m, ws[0]);
      assert After(m, ws, k) == After(m1, ws[1..], k - 1);
      if present && k >= 2 {
        assert After(m1, ws[1..], k - 1) == After(Apply(m1, EraseBlob(last)), ws[1..][1..], k - 2);
      }
    }
  }

  // Dropping the tail, cut anywhere; unique as soon as the count is written.
  lemma DropTailKeeps(m: Nvs, live: map<nat, Device>, present: bool, k: nat)
    requires Sound(m, live) && m.cnt > 0
    requires Row(m, m.cnt - 1) ==> m.blobs[m.cnt - 1].dev.ieee == 0 || m.blobs[m.cnt - 1].dev.ieee !in live || Twin(m, m.cnt - 1)
    ensures Sound(After(m, DropTail(m.cnt - 1, present), k), live)
    ensures k >= 1 ==> Unique(After(m, DropTail(m.cnt - 1, present), k))
  {
    DropTailAfter(m, m.cnt - 1, present, k);
    if k >= 1 {
      DropLast(m, live);
      if k >= 2 && present { EraseBeyond(Apply(m, SetCount(m.cnt - 1)), live, m.cnt - 1); }
    }
  }

  lemma DropTailRows(m: Nvs, present: bool, k: nat)
    requires m.cnt > 0
    ensures var m' := After(m, DropTail(m.cnt - 1, present), k);
            forall i: nat :: Row(m', i) ==> Row(m, i) && m'.blobs[i] == m.blobs[i] && (k >= 1 ==> i != m.cnt - 1)
  {
    DropTailAfter(m, m.cnt - 1, present, k);
  }

  // What a delete writes, case by case.
  lemma DeleteShape(m: Nvs, x: nat)
    requires Sound(m, map[]) && Unique(m) && DeleteWrites(m, Index(m), x).Some?
    ensures x != 0 && Find(Index(m), x).Some? && m.cnt > 0
    ensures var f := Find(Index(m), x).value;
            && Row(m, f) && m.blobs[f].dev.ieee == x
            && var drop := DropTail(m.cnt - 1, m.cnt - 1 in m.blobs);
            && var ws := DeleteWrites(m, Index(m), x).value;
            && (f == m.cnt - 1 ==> ws == drop)
            && (f != m.cnt - 1 ==> f < m.cnt - 1 && |ws| == 1 + |drop| && Apply(m, ws[0]) == Displaced(m, f) && ws[1..] == drop)
  {
    FindRow(m, x);
    var f := Find(Index(m), x).value;
    if f != m.cnt - 1 && m.cnt - 1 in m.blobs {
      assert Row(m, m.cnt - 1);
    }
  }

  lemma SoundForNone(m: Nvs, live: map<nat, Device>)
    requires Sound(m, live)
    ensures Sound(m, map[])
  {
  }

  lemma SoundWithout(m: Nvs, live: map<nat, Device>, x: nat)
    requires Sound(m, live)
    ensures Sound(m, live - {x})
  {
  }

  lemma DeleteLast(m: Nvs, live: map<nat, Device>, x: nat, k: nat)
    requires Sound(m, live) && Unique(m) && x != 0 && m.cnt > 0 && Row(m, m.cnt - 1) && m.blobs[m.cnt - 1].dev.ieee == x
    ensures var m' := After(m, DropTail(m.cnt - 1, true), k);
            && Sound(m', if k == 0 then live else live - {x})
            && (k >= 1 ==> Unique(m') && forall i: nat :: Row(m', i) ==> m'.blobs[i].dev.ieee != x)
  {
    SoundWithout(m, live, x);
    DropTailKeeps(m, live - {x}, true, k);
    DropTailRows(m, true, k);
  }

  // The tail of a table without rows of `x`, whose last record has a twin.
  lemma DropInner(m: Nvs, live: map<nat, Device>, x: nat, present: bool, k: nat)
    requires Sound(m, live) && m.cnt > 0 && (Row(m, m.cnt - 1) ==> Twin(m, m.cnt - 1))
    requires forall i: nat :: Row(m, i) ==> m.blobs[i].dev.ieee != x
    ensures var m' := After(m, DropTail(m.cnt - 1, present), k);
            && Sound(m', live) && (k >= 1 ==> Unique(m'))
            && forall i: nat :: Row(m', i) ==> m'.blobs[i].dev.ieee != x
  {
    DropTailKeeps(m, live, present, k);
    DropTailRows(m, present, k);
  }

  lemma DeleteInner(m: Nvs, live: map<nat, Device>, f: nat, x: nat, k: nat)
    requires Sound(m, live) && Unique(m) && x != 0 && Row(m, f) && m.blobs[f].dev.ieee == x && f < m.cnt - 1
    ensures var m' := After(Displaced(m, f), DropTail(m.cnt - 1, m.cnt - 1 in m.blobs), k);
            && Sound(m', live - {x})
            && (k >= 1 ==> Unique(m'))
            && forall i: nat :: Row(m', i) ==> m'.blobs[i].dev.ieee != x
  {
    DisplacedSound(m, live, f, x);
    DisplacedRows(m, f, x);
    DropInner(Displaced(m, f), live - {x}, x, m.cnt - 1 in m.blobs, k);
  }

  /** A delete cut anywhere keeps every other device, and leaves its own
      either untouched (no write was made) or without any row. */
  lemma DeleteKeeps(m: Nvs, live: map<nat, Device>, x: nat, k: nat)
    requires Sound(m, live) && Unique(m) && DeleteWrites(m, Index(m), x).Some?
    ensures var m' := After(m, DeleteWrites(m, Index(m), x).value, k);
            && Sound(m', if k == 0 then live else live - {x})
            && (k == 0 ==> m' == m)
            && (k >= |DeleteWrites(m, Index(m), x).value| ==> Unique(m'))
            && (k >= 1 ==> forall i: nat :: Row(m', i) ==> m'.blobs[i].dev.ieee != x)
  {
    SoundForNone(m, live);
    DeleteShape(m, x);
    var ws := DeleteWrites(m, Index(m), x).value;
    var f := Find(Index(m), x).value;
    if f == m.cnt - 1 {
      DeleteLast(m, live, x, k);
    } else if k >= 1 {
      DeleteInner(m, live, f, x, k - 1);
      assert After(m, ws, k) == After(Displaced(m, f), ws[1..], k - 1);
    }
  }

  /** The boot's repair, cut anywhere, keeps every device; completed, it leaves
      no device twice. */
  lemma RepairKeeps(m: Nvs, live: map<nat, Device>, k: nat)
    requires Sound(m, live)
    ensures Sound(After(m, RepairWrites(m), k), live)
    ensures k >= |RepairWrites(m)| ==> Unique(After(m, RepairWrites(m), k))
  {
    var ws := RepairWrites(m);
    if ws == [] {
      assert After(m, ws, k) == m;
      forall i: nat, j: nat | i < j && Row(m, i) && Row(m, j) && m.blobs[i].dev.ieee != 0
        ensures m.blobs[i].dev.ieee != m.blobs[j].dev.ieee
      {
        IndexAt(m, i);
        IndexAt(m, j);
        assert Index(m)[..m.cnt - 1][i] == Index(m)[i];
      }
    } else {
      var last := m.cnt - 1;
      IndexAt(m, last);
      var i: nat :| 0 <= i < last && Index(m)[..last][i] == Index(m)[last];
      IndexAt(m, i);
      assert Twin(m, last);
      DropTailKeeps(m, live, last in m.blobs, k);
    }
  }

  lemma SaveOldKeeps(m: Nvs, live: map<nat, Device>, d: Device, k: nat)
    requires Sound(m, live) && Unique(m) && Find(Index(m), d.ieee).Some?
    ensures var m' := After(m, SaveWrites(m, Index(m), d).value, k);
            && Sound(m', if k < 1 then live else live[d.ieee := d])
            && (k >= 1 ==> Unique(m') && Index(m') == Index(m))
  {
    var f := Find(Index(m), d.ieee);
    IndexAt(m, f.value);
    SaveOld(m, live, d, f.value);
    if k >= 1 {
      var m' := Apply(m, SetBlob(f.value, Sealed(d)));
      assert After(m, SaveWrites(m, Index(m), d).value, k) == m';
      assert Index(m') == Index(m);
    }
  }

  lemma AppendKeeps(m: Nvs, live: map<nat, Device>, d: Device, k: nat)
    requires Sound(m, live) && Unique(m) && Find(Index(m), d.ieee).None? && m.cnt < MAX_DEVICES
    ensures var m' := After(m, SaveWrites(m, Index(m), d).value, k);
            && Sound(m', if k < 2 then live else live[d.ieee := d])
            && (k >= 2 ==> Unique(m') && Index(m') == Index(m) + [d.ieee])
  {
    SaveAfter(m, d, k);
    NotRowed(m, d.ieee);
    SaveNewCount(m, live);
    SaveNew(m, live, d);
    AppendIndex(m, d);
  }

  lemma NotRowed(m: Nvs, x: nat)
    requires m.cnt <= MAX_DEVICES && Find(Index(m), x).None?
    ensures forall i: nat :: Row(m, i) ==> m.blobs[i].dev.ieee != x
  {
    forall i: nat | Row(m, i)
      ensures m.blobs[i].dev.ieee != x
    {
      IndexAt(m, i);
      assert Index(m)[i] in Index(m);
    }
  }

  lemma AppendIndex(m: Nvs, d: Device)
    requires m.cnt < MAX_DEVICES
    ensures Index(Apply(Apply(m, SetCount(m.cnt + 1)), SetBlob(m.cnt, Sealed(d)))) == Index(m) + [d.ieee]
  {
  }

  lemma SaveKeeps(m: Nvs, live: map<nat, Device>, d: Device, k: nat)
    requires Sound(m, live) && Unique(m) && SaveWrites(m, Index(m), d).Some?
    ensures var ws := SaveWrites(m, Index(m), d).value;
            && Sound(After(m, ws, k), if k < |ws| then live else live[d.ieee := d])
            && (k >= |ws| ==> Unique(After(m, ws, k)) && Index(After(m, ws, k)) == Noted(Index(m), d.ieee))
  {
    if Find(Index(m), d.ieee).Some? { SaveOldKeeps(m, live, d, k); } else { AppendKeeps(m, live, d, k); }
  }

  lemma InvStep(s: Store, live: map<nat, Device>, e: Event)
    requires Inv(s, live)
    ensures Inv(Step(s, e), Live(s, live, e))
  {
    assert s.ready ==> InUse(s) == Index(s.flash);
    match e
    case Save(d, cut) =>
      if s.ready && SaveWrites(s.flash, InUse(s), d).Some? {
        var ws := SaveWrites(s.flash, InUse(s), d).value;
        SaveKeeps(s.flash, live, d, if cut.Some? then cut.value else |ws|);
      }
    case Delete(x, cut) =>
      if s.ready && DeleteWrites(s.flash, InUse(s), x).Some? {
        var ws := DeleteWrites(s.flash, InUse(s), x).value;
        DeleteKeeps(s.flash, live, x, if cut.Some? then cut.value else |ws|);
      }
    case Boot(cut) =>
      RepairKeeps(s.flash, live, if cut.Some? then cut.value else |RepairWrites(s.flash)|);
  }

  lemma {:induction false} InvRun(h: seq<Event>)
    ensures Inv(RunStore(h), RunLive(h))
    decreases |h|
  {
    if h != [] {
      InvRun(h[..|h| - 1]);
      InvStep(RunStore(h[..|h| - 1]), RunLive(h[..|h| - 1]), h[|h| - 1]);
    }
  }

  // ── What a load returns ───────────────────────────────────────────────

  ghost predicate Distinct(ds: seq<Device>) {
    forall a: nat, b: nat :: a < b < |ds| ==> ds[a].ieee != ds[b].ieee
  }

  // The first intact record of device `x` below slot `n` is in slot `i`.
  ghost predicate FirstAt(m: Nvs, n: nat, i: nat, x: nat) {
    && i < n && i in m.blobs && m.blobs[i].intact && m.blobs[i].dev.ieee == x
    && forall j: nat :: j < i && j in m.blobs && m.blobs[j].intact ==> m.blobs[j].dev.ieee != x
  }

  lemma {:induction false} LoadDistinct(m: Nvs, n: nat)
    ensures Distinct(Load(m, n)) && |Load(m, n)| <= n
    decreases n
  {
    if n != 0 { LoadDistinct(m, n - 1); }
  }

  ghost predicate Recorded(m: Nvs, n: nat, x: nat) {
    exists i: nat :: i < n && i in m.blobs && m.blobs[i].intact && m.blobs[i].dev.ieee == x
  }

  // Slot `n` holds an intact record of `x`.
  predicate Intact(m: Nvs, n: nat, x: nat) {
    n in m.blobs && m.blobs[n].intact && m.blobs[n].dev.ieee == x
  }

  lemma RecordedNext(m: Nvs, n: nat, x: nat)
    ensures Recorded(m, n + 1, x) <==> Recorded(m, n, x) || Intact(m, n, x)
  {
    if Recorded(m, n, x) {
      var i: nat :| i < n && i in m.blobs && m.blobs[i].intact && m.blobs[i].dev.ieee == x;
      assert i < n + 1;
    }
  }

  lemma {:induction false} LoadHolds(m: Nvs, n: nat, x: nat)
    ensures Holds(Load(m, n), x) <==> Recorded(m, n, x)
    decreases n
  {
    if n != 0 {
      var below := Load(m, n - 1);
      LoadHolds(m, n - 1, x);
      RecordedNext(m, n - 1, x);
      if Load(m, n) != below { HoldsSnoc(below, m.blobs[n - 1].dev, x); }
    }
  }

  lemma FirstNext(m: Nvs, n: nat, i: nat, x: nat)
    ensures i < n ==> (FirstAt(m, n + 1, i, x) <==> FirstAt(m, n, i, x))
    ensures FirstAt(m, n + 1, n, x) <==> Intact(m, n, x) && !Recorded(m, n, x)
  {
  }

  // Slot `n` gives device `d` its first record.
  ghost predicate AddsFirst(m: Nvs, n: nat, d: Device) {
    Intact(m, n, d.ieee) && !Recorded(m, n, d.ieee) && m.blobs[n].dev == d
  }

  lemma LoadNext(m: Nvs, n: nat, d: Device)
    ensures d in Load(m, n + 1) <==> d in Load(m, n) || AddsFirst(m, n, d)
  {
    LoadHolds(m, n, d.ieee);
  }

  /** `d` is the first intact record of its device below slot `n`. */
  ghost predicate LoadsFirst(m: Nvs, n: nat, d: Device) {
    exists i: nat :: FirstAt(m, n, i, d.ieee) && m.blobs[i].dev == d
  }

  lemma LoadsFirstNext(m: Nvs, n: nat, d: Device)
    ensures LoadsFirst(m, n + 1, d) <==> LoadsFirst(m, n, d) || AddsFirst(m, n, d)
  {
    FirstNext(m, n, n, d.ieee);
    if LoadsFirst(m, n, d) {
      var i: nat :| FirstAt(m, n, i, d.ieee) && m.blobs[i].dev == d;
      FirstNext(m, n, i, d.ieee);
      assert FirstAt(m, n + 1, i, d.ieee);
    }
    if LoadsFirst(m, n + 1, d) {
      var i: nat :| FirstAt(m, n + 1, i, d.ieee) && m.blobs[i].dev == d;
      FirstNext(m, n, i, d.ieee);
    }
  }

  lemma LoadsFirstStep(m: Nvs, n: nat, d: Device)
    requires d in Load(m, n) <==> LoadsFirst(m, n, d)
    ensures d in Load(m, n + 1) <==> LoadsFirst(m, n + 1, d)
  {
    LoadNext(m, n, d);
    LoadsFirstNext(m, n, d);
  }

  /** A load returns exactly the first intact record of each device. */
  lemma {:induction false} LoadIsFirst(m: Nvs, n: nat, d: Device)
    ensures d in Load(m, n) <==> LoadsFirst(m, n, d)
    decreases n
  {
    if n != 0 {
      var k := n - 1;
      LoadIsFirst(m, k, d);
      LoadsFirstStep(m, k, d);
      assert n == k + 1;
    }
  }

  lemma {:induction false} LeastSlot(m: Nvs, n: nat, j: nat, x: nat)
    requires j < n && j in m.blobs && m.blobs[j].intact && m.blobs[j].dev.ieee == x
    ensures exists i: nat :: FirstAt(m, n, i, x)
    decreases j
  {
    if !FirstAt(m, n, j, x) {
      var i: nat :| i < j && i in m.blobs && m.blobs[i].intact && m.blobs[i].dev.ieee == x;
      LeastSlot(m, n, i, x);
    }
  }

  lemma HoldsSnoc(ds: seq<Device>, d: Device, x: nat)
    ensures Holds(ds + [d], x) <==> Holds(ds, x) || d.ieee == x
  {
    if Holds(ds, x) {
      var k :| 0 <= k < |ds| && ds[k].ieee == x;
      assert (ds + [d])[k].ieee == x;
    }
    if d.ieee == x { assert (ds + [d])[|ds|].ieee == x; }
  }

  // In a sound table the first record of a live device is its record.
  lemma FirstIsLive(m: Nvs, live: map<nat, Device>, x: nat, i: nat)
    requires Sound(m, live) && x in live && x != 0 && FirstAt(m, m.cnt, i, x)
    ensures m.blobs[i].dev == live[x]
  {
    assert Row(m, i);
    assert KeepsOne(m, live[x], x);
    assert !Twin(m, i);
  }

  lemma LoadSound(m: Nvs, live: map<nat, Device>, x: nat)
    requires Sound(m, live) && x in live && x != 0
    ensures forall d: Device :: d.ieee == x ==> (d in Load(m, m.cnt) <==> d == live[x])
  {
    assert KeepsOne(m, live[x], x);
    var r: nat :| Row(m, r) && m.blobs[r].dev.ieee == x;
    LeastSlot(m, m.cnt, r, x);
    var f: nat :| FirstAt(m, m.cnt, f, x);
    FirstIsLive(m, live, x, f);
    forall d: Device | d.ieee == x
      ensures d in Load(m, m.cnt) <==> d == live[x]
    {
      LoadIsFirst(m, m.cnt, d);
      if d in Load(m, m.cnt) {
        var i: nat :| FirstAt(m, m.cnt, i, d.ieee) && m.blobs[i].dev == d;
        FirstIsLive(m, live, x, i);
      }
    }
  }

  /** After any run of saves, deletes, boots and power cuts, a boot and a load
      return, of every device that was saved and not deleted, exactly its last
      saved record, and no device twice. */
  lemma BootLoadsLive(h: seq<Event>, repair: Option<nat>, x: nat)
    requires x in RunLive(h) && x != 0
    ensures var m := RunStore(h + [Boot(repair)]).flash;
            && Distinct(Load(m, m.cnt))
            && forall d: Device :: d.ieee == x ==> (d in Load(m, m.cnt) <==> d == RunLive(h)[x])
  {
    var h' := h + [Boot(repair)];
    assert h'[..|h'| - 1] == h;
    InvRun(h');
    var m := RunStore(h').flash;
    LoadDistinct(m, m.cnt);
    LoadSound(m, RunLive(h'), x);
  }

  lemma StepLast(h: seq<Event>, e: Event)
    ensures RunStore(h + [e]) == Step(RunStore(h), e)
    ensures RunLive(h + [e]) == Live(RunStore(h), RunLive(h), e)
  {
    assert (h + [e])[..|h + [e]| - 1] == h;
  }

  /** A delete of a live device cut after `k` of its writes reads back, after
      a boot, as all or nothing: its last saved record when no write was made,
      no record at all otherwise. */
  lemma CutDeleteAllOrNothing(h: seq<Event>, x: nat, k: nat)
    requires RunStore(h).ready && DeleteWrites(RunStore(h).flash, InUse(RunStore(h)), x).Some?
    ensures var m := RunStore((h + [Delete(x, Some(k))]) + [Boot(None)]).flash;
            && (k == 0 && x in RunLive(h) ==> forall d: Device :: d.ieee == x ==> (d in Load(m, m.cnt) <==> d == RunLive(h)[x]))
            && (k >= 1 ==> !Holds(Load(m, m.cnt), x))
  {
    var h1 := h + [Delete(x, Some(k))];
    InvRun(h);
    StepLast(h, Delete(x, Some(k)));
    StepLast(h1, Boot(None));
    if k == 0 {
      if x in RunLive(h) { BootLoadsLive(h1, None, x); }
    } else {
      CutDeleteRows(RunStore(h), RunLive(h), x, k);
      BootRows(RunStore(h1), x);
      NoRowNoLoad(RunStore(h1 + [Boot(None)]).flash, x);
    }
  }

  lemma CutDeleteRows(s: Store, live: map<nat, Device>, x: nat, k: nat)
    requires Inv(s, live) && s.ready && DeleteWrites(s.flash, InUse(s), x).Some? && k >= 1
    ensures var m := Step(s, Delete(x, Some(k))).flash; forall i: nat :: Row(m, i) ==> m.blobs[i].dev.ieee != x
  {
    DeleteKeeps(s.flash, live, x, k);
  }

  lemma NoRowNoLoad(m: Nvs, x: nat)
    requires forall i: nat :: Row(m, i) ==> m.blobs[i].dev.ieee != x
    ensures !Holds(Load(m, m.cnt), x)
  {
    LoadHolds(m, m.cnt, x);
    assert forall i: nat :: i < m.cnt && i in m.blobs ==> Row(m, i);
  }

  // A boot adds no row.
  lemma BootRows(s: Store, x: nat)
    requires forall i: nat :: Row(s.flash, i) ==> s.flash.blobs[i].dev.ieee != x
    ensures var m := Step(s, Boot(None)).flash; forall i: nat :: Row(m, i) ==> m.blobs[i].dev.ieee != x
  {
    var m := s.flash;
    if RepairWrites(m) != [] {
      DropTailRows(m, m.cnt - 1 in m.blobs, |RepairWrites(m)|);
    }
  }

  // ── When a deleted device comes back ──────────────────────────────────

  ghost predicate HasRow(m: Nvs, x: nat) {
    exists i: nat :: Row(m, i) && m.blobs[i].dev.ieee == x
  }

  // This event stores a record of `x`.
  predicate Stores(s: Store, e: Event, x: nat) {
    && e.Save? && s.ready && e.d.ieee == x && SaveWrites(s.flash, InUse(s), e.d).Some?
    && (e.cut.None? || e.cut.value >= |SaveWrites(s.flash, InUse(s), e.d).value|)
  }

  // This event appends, is cut after its count write, and the key it uncovers
  // holds an old record of `x`.
  predicate UncoversStale(s: Store, e: Event, x: nat) {
    && e.Save? && s.ready && e.cut == Some(1)
    && Find(InUse(s), e.d.ieee).None? && s.flash.cnt < MAX_DEVICES
    && s.flash.cnt in s.flash.blobs && s.flash.blobs[s.flash.cnt].dev.ieee == x
  }

  lemma SaveAfter(m: Nvs, d: Device, k: nat)
    requires Find(Index(m), d.ieee).None? && m.cnt < MAX_DEVICES
    ensures After(m, SaveWrites(m, Index(m), d).value, k)
            == if k == 0 then m
               else if k == 1 then Apply(m, SetCount(m.cnt + 1))
               else Apply(Apply(m, SetCount(m.cnt + 1)), SetBlob(m.cnt, Sealed(d)))
  {
    var ws := SaveWrites(m, Index(m), d).value;
    if k >= 1 {
      var m1 := Apply(m, ws[0]);
      assert After(m, ws, k) == After(m1, ws[1..], k - 1);
      if k >= 2 {
        assert After(m1, ws[1..], k - 1) == After(Apply(m1, ws[1]), ws[1..][1..], k - 2);
      }
    }
  }

  lemma AppendRows(m: Nvs, d: Device, x: nat, k: nat)
    requires Find(Index(m), d.ieee).None? && m.cnt < MAX_DEVICES && !HasRow(m, x)
    ensures HasRow(After(m, SaveWrites(m, Index(m), d).value, k), x)
            <==> (k == 1 && m.cnt in m.blobs && m.blobs[m.cnt].dev.ieee == x) || (k >= 2 && d.ieee == x)
  {
    SaveAfter(m, d, k);
    var m' := After(m, SaveWrites(m, Index(m), d).value, k);
    assert forall i: nat :: Row(m', i) && i != m.cnt ==> Row(m, i) && m'.blobs[i] == m.blobs[i];
    if k >= 1 && m.cnt in m'.blobs { assert Row(m', m.cnt); }
  }

  lemma RewriteRows(m: Nvs, d: Device, x: nat, k: nat)
    requires Bounded(m) && Find(Index(m), d.ieee).Some? && !HasRow(m, x)
    ensures HasRow(After(m, SaveWrites(m, Index(m), d).value, k), x) <==> k >= 1 && d.ieee == x
  {
    var f := Find(Index(m), d.ieee).value;
    var ws := SaveWrites(m, Index(m), d).value;
    if k >= 1 {
      var m' := Apply(m, ws[0]);
      assert After(m, ws, k) == m';
      assert forall i: nat :: Row(m', i) && i != f ==> Row(m, i) && m'.blobs[i] == m.blobs[i];
      assert Row(m', f);
    }
  }

  lemma DisplacedNoRow(m: Nvs, f: nat, x: nat)
    requires f < m.cnt - 1 && !HasRow(m, x)
    ensures !HasRow(Displaced(m, f), x)
  {
    var m1 := Displaced(m, f);
    assert forall i: nat :: Row(m1, i) && i != f ==> Row(m, i) && m1.blobs[i] == m.blobs[i];
    assert f in m1.blobs ==> Row(m, m.cnt - 1) && m1.blobs[f] == m.blobs[m.cnt - 1];
  }

  lemma DeleteRows(m: Nvs, live: map<nat, Device>, y: nat, x: nat, k: nat)
    requires Sound(m, live) && Unique(m) && DeleteWrites(m, Index(m), y).Some? && !HasRow(m, x)
    ensures !HasRow(After(m, DeleteWrites(m, Index(m), y).value, k), x)
  {
    SoundForNone(m, live);
    DeleteShape(m, y);
    var ws := DeleteWrites(m, Index(m), y).value;
    var f := Find(Index(m), y).value;
    if f == m.cnt - 1 {
      DropTailRows(m, m.cnt - 1 in m.blobs, k);
    } else if k >= 1 {
      var m1 := Displaced(m, f);
      DisplacedNoRow(m, f, x);
      DropTailRows(m1, m.cnt - 1 in m.blobs, k - 1);
      assert After(m, ws, k) == After(m1, ws[1..], k - 1);
    }
  }

  /** A device without a row gets one in exactly two ways: a save of it, or a
      new device's append cut after its count write over a key that an earlier
      cut delete left behind. */
  lemma ComesBack(s: Store, live: map<nat, Device>, e: Event, x: nat)
    requires Inv(s, live) && !HasRow(s.flash, x)
    ensures HasRow(Step(s, e).flash, x) <==> Stores(s, e, x) || UncoversStale(s, e, x)
  {
    var m := s.flash;
    match e
    case Save(d, cut) =>
      if s.ready && SaveWrites(m, InUse(s), d).Some? {
        var k := if cut.Some? then cut.value else |SaveWrites(m, InUse(s), d).value|;
        if Find(Index(m), d.ieee).Some? { RewriteRows(m, d, x, k); } else { AppendRows(m, d, x, k); }
      }
    case Delete(y, cut) =>
      if s.ready && DeleteWrites(m, InUse(s), y).Some? {
        DeleteRows(m, live, y, x, if cut.Some? then cut.value else |DeleteWrites(m, InUse(s), y).value|);
      }
    case Boot(cut) =>
      if RepairWrites(m) != [] {
        DropTailRows(m, m.cnt - 1 in m.blobs, if cut.Some? then cut.value else |RepairWrites(m)|);
      }
  }

  // Every delete in the history ran to its end.
  ghost predicate DeletesComplete(h: seq<Event>) {
    forall k: nat :: k < |h| && h[k].Delete? ==> h[k].cut.None?
  }

  // No key at or beyond the count, no device twice, and a row only for the live.
  ghost predicate Exact(m: Nvs, live: map<nat, Device>) {
    && Unique(m)
    && (forall i: nat :: i in m.blobs ==> i < m.cnt)
    && (forall i: nat :: Row(m, i) && m.blobs[i].dev.ieee != 0 ==> m.blobs[i].dev.ieee in live)
  }

  lemma ExactRewrite(m: Nvs, live: map<nat, Device>, d: Device, f: nat)
    requires Exact(m, live) && f < m.cnt && SlotIeee(m, f) == d.ieee && Unique(Apply(m, SetBlob(f, Sealed(d))))
    ensures Exact(Apply(m, SetBlob(f, Sealed(d))), live[d.ieee := d])
  {
    var m' := Apply(m, SetBlob(f, Sealed(d)));
    assert forall i: nat :: Row(m', i) && i != f ==> Row(m, i) && m'.blobs[i] == m.blobs[i];
  }

  lemma ExactAppend(m: Nvs, live: map<nat, Device>, d: Device)
    requires Exact(m, live) && Unique(Apply(Apply(m, SetCount(m.cnt + 1)), SetBlob(m.cnt, Sealed(d))))
    ensures Exact(Apply(m, SetCount(m.cnt + 1)), live)
    ensures Exact(Apply(Apply(m, SetCount(m.cnt + 1)), SetBlob(m.cnt, Sealed(d))), live[d.ieee := d])
  {
    var m1 := Apply(m, SetCount(m.cnt + 1));
    assert forall i: nat :: Row(m1, i) <==> Row(m, i);
    var m2 := Apply(m1, SetBlob(m.cnt, Sealed(d)));
    assert forall i: nat :: Row(m2, i) && i != m.cnt ==> Row(m, i) && m2.blobs[i] == m.blobs[i];
  }

  lemma ExactSave(m: Nvs, live: map<nat, Device>, d: Device, k: nat)
    requires Sound(m, live) && Exact(m, live) && SaveWrites(m, Index(m), d).Some?
    ensures var ws := SaveWrites(m, Index(m), d).value;
            Exact(After(m, ws, k), if k < |ws| then live else live[d.ieee := d])
  {
    var ws := SaveWrites(m, Index(m), d).value;
    if Find(Index(m), d.ieee).Some? {
      var f := Find(Index(m), d.ieee).value;
      IndexAt(m, f);
      SaveOldKeeps(m, live, d, 1);
      if k >= 1 { assert After(m, ws, k) == Apply(m, ws[0]); }
      AfterOne(m, ws[0]);
      ExactRewrite(m, live, d, f);
    } else {
      AppendKeeps(m, live, d, 2);
      SaveAfter(m, d, 2);
      ExactAppend(m, live, d);
      SaveAfter(m, d, k);
    }
  }

  // Dropping the tail slot, from a table whose rows are in `live`.
  lemma ExactDrop(m: Nvs, live: map<nat, Device>)
    requires m.cnt > 0 && forall i: nat :: i in m.blobs ==> i < m.cnt
    requires forall i: nat :: Row(m, i) && i != m.cnt - 1 && m.blobs[i].dev.ieee != 0 ==> m.blobs[i].dev.ieee in live
    ensures var m' := After(m, DropTail(m.cnt - 1, m.cnt - 1 in m.blobs), 2);
            && (forall i: nat :: i in m'.blobs ==> i < m'.cnt)
            && (forall i: nat :: Row(m', i) && m'.blobs[i].dev.ieee != 0 ==> m'.blobs[i].dev.ieee in live)
  {
    DropTailAfter(m, m.cnt - 1, m.cnt - 1 in m.blobs, 2);
    DropTailRows(m, m.cnt - 1 in m.blobs, 2);
  }

  lemma AfterAll(m: Nvs, last: nat, present: bool)
    ensures After(m, DropTail(last, present), |DropTail(last, present)|) == After(m, DropTail(last, present), 2)
  {
    DropTailAfter(m, last, present, 2);
    DropTailAfter(m, last, present, |DropTail(last, present)|);
  }

  lemma ExactDisplaced(m: Nvs, live: map<nat, Device>, f: nat, x: nat)
    requires Exact(m, live) && x != 0 && Row(m, f) && m.blobs[f].dev.ieee == x && f < m.cnt - 1
    ensures var m1 := Displaced(m, f);
            && (forall i: nat :: i in m1.blobs ==> i < m1.cnt)
            && (forall i: nat :: Row(m1, i) && m1.blobs[i].dev.ieee != 0 ==> m1.blobs[i].dev.ieee in live - {x})
  {
    var m1 := Displaced(m, f);
    DisplacedRows(m, f, x);
    forall i: nat | Row(m1, i) && m1.blobs[i].dev.ieee != 0
      ensures m1.blobs[i].dev.ieee in live - {x}
    {
      assert Row(m, if i == f then m.cnt - 1 else i);
    }
  }

  lemma DeleteUnique(m: Nvs, live: map<nat, Device>, x: nat)
    requires Sound(m, live) && Unique(m) && DeleteWrites(m, Index(m), x).Some?
    ensures Unique(After(m, DeleteWrites(m, Index(m), x).value, |DeleteWrites(m, Index(m), x).value|))
  {
    DeleteKeeps(m, live, x, |DeleteWrites(m, Index(m), x).value|);
  }

  lemma DeleteAfter(m: Nvs, live: map<nat, Device>, x: nat)
    requires Sound(m, live) && Unique(m) && DeleteWrites(m, Index(m), x).Some?
    ensures x != 0 && Find(Index(m), x).Some? && m.cnt > 0
    ensures var f := Find(Index(m), x).value;
            var drop := DropTail(m.cnt - 1, m.cnt - 1 in m.blobs);
            && Row(m, f) && m.blobs[f].dev.ieee == x && f <= m.cnt - 1
            && After(m, DeleteWrites(m, Index(m), x).value, |DeleteWrites(m, Index(m), x).value|)
               == After(if f == m.cnt - 1 then m else Displaced(m, f), drop, |drop|)
  {
    SoundForNone(m, live);
    DeleteShape(m, x);
    var ws := DeleteWrites(m, Index(m), x).value;
    var f := Find(Index(m), x).value;
    if f != m.cnt - 1 {
      assert After(m, ws, |ws|) == After(Displaced(m, f), ws[1..], |ws| - 1);
    }
  }

  lemma ExactDelete(m: Nvs, live: map<nat, Device>, x: nat)
    requires Sound(m, live) && Exact(m, live) && DeleteWrites(m, Index(m), x).Some?
    ensures var ws := DeleteWrites(m, Index(m), x).value; Exact(After(m, ws, |ws|), live - {x})
  {
    DeleteAfter(m, live, x);
    DeleteUnique(m, live, x);
    if Find(Index(m), x).value == m.cnt - 1 {
      AfterAll(m, m.cnt - 1, m.cnt - 1 in m.blobs);
      ExactDrop(m, live - {x});
    } else {
      ExactInner(m, live, Find(Index(m), x).value, x);
    }
  }

  lemma ExactInner(m: Nvs, live: map<nat, Device>, f: nat, x: nat)
    requires Exact(m, live) && x != 0 && Row(m, f) && m.blobs[f].dev.ieee == x && f < m.cnt - 1
    ensures var drop := DropTail(m.cnt - 1, m.cnt - 1 in m.blobs);
            var m' := After(Displaced(m, f), drop, |drop|);
            && (forall i: nat :: i in m'.blobs ==> i < m'.cnt)
            && (forall i: nat :: Row(m', i) && m'.blobs[i].dev.ieee != 0 ==> m'.blobs[i].dev.ieee in live - {x})
  {
    var m1 := Displaced(m, f);
    ExactDisplaced(m, live, f, x);
    ExactDrop(m1, live - {x});
    assert m.cnt - 1 in m1.blobs <==> m.cnt - 1 in m.blobs;
    AfterAll(m1, m.cnt - 1, m.cnt - 1 in m.blobs);
  }

  lemma ExactStep(s: Store, live: map<nat, Device>, e: Event)
    requires Inv(s, live) && Exact(s.flash, live) && (e.Delete? ==> e.cut.None?)
    ensures Exact(Step(s, e).flash, Live(s, live, e))
  {
    var m := s.flash;
    match e
    case Save(d, cut) =>
      if s.ready && SaveWrites(m, InUse(s), d).Some? {
        ExactSave(m, live, d, if cut.Some? then cut.value else |SaveWrites(m, InUse(s), d).value|);
      }
    case Delete(x, cut) =>
      if s.ready && DeleteWrites(m, InUse(s), x).Some? {
        ExactDelete(m, live, x);
      }
    case Boot(cut) =>
      NothingToRepair(m);
  }

  lemma NothingToRepair(m: Nvs)
    requires Unique(m)
    ensures RepairWrites(m) == []
  {
    if 2 <= m.cnt <= MAX_DEVICES {
      var tail := Index(m)[m.cnt - 1];
      var below := Index(m)[..m.cnt - 1];
      forall i: nat | i < |below|
        ensures tail == 0 || below[i] != tail
      {
        IndexAt(m, i);
        IndexAt(m, m.cnt - 1);
        assert Row(m, i) && Row(m, m.cnt - 1) && m.blobs[i].dev.ieee != 0 ==> m.blobs[i].dev.ieee != m.blobs[m.cnt - 1].dev.ieee;
      }
    }
  }

  lemma {:induction false} ExactRun(h: seq<Event>)
    requires DeletesComplete(h)
    ensures Exact(RunStore(h).flash, RunLive(h))
    decreases |h|
  {
    if h != [] {
      var g := h[..|h| - 1];
      assert DeletesComplete(g);
      ExactRun(g);
      InvRun(g);
      ExactStep(RunStore(g), RunLive(g), h[|h| - 1]);
    }
  }

  /** When no delete was cut, whatever else was, a boot and a load return the
      live devices and nothing else: no deleted device comes back. */
  lemma LoadIsLive(h: seq<Event>, d: Device)
    requires DeletesComplete(h) && d.ieee != 0
    ensures var m := RunStore(h + [Boot(None)]).flash;
            d in Load(m, m.cnt) <==> d.ieee in RunLive(h) && RunLive(h)[d.ieee] == d
  {
    var h' := h + [Boot(None)];
    StepLast(h, Boot(None));
    ExactRun(h');
    var m := RunStore(h').flash;
    if d.ieee in RunLive(h) {
      BootLoadsLive(h, None, d.ieee);
    } else {
      assert forall i: nat :: Row(m, i) ==> m.blobs[i].dev.ieee != d.ieee;
      NoRowNoLoad(m, d.ieee);
    }
  }

  const A := Device(1, 7)
  const B := Device(2, 8)
  const C := Device(3, 9)
  const D := Device(4, 9)

  ghost predicate At(h: seq<Event>, s: Store, live: map<nat, Device>) {
    RunStore(h) == s && RunLive(h) == live
  }

  // A table of one device over a stale record of B.
  function OverStale(d: Device): Nvs { Nvs(1, map[0 := Sealed(d), 1 := Sealed(B)]) }

  lemma AppendStep(h: seq<Event>, s: Store, live: map<nat, Device>, d: Device)
    requires At(h, s, live) && s.ready && InUse(s) == Index(s.flash) && Find(InUse(s), d.ieee).None? && s.flash.cnt < MAX_DEVICES
    ensures At(h + [Save(d, None)],
               Store(Nvs(s.flash.cnt + 1, s.flash.blobs[s.flash.cnt := Sealed(d)]), true, Some(InUse(s) + [d.ieee])),
               live[d.ieee := d])
  {
    StepLast(h, Save(d, None));
    SaveAfter(s.flash, d, 2);
  }

  lemma Stale0()
    ensures At([Boot(None), Save(A, None)], Store(Nvs(1, map[0 := Sealed(A)]), true, Some([1])), map[1 := A])
  {
    var h: seq<Event> := [];
    StepLast(h, Boot(None));
    assert h + [Boot(None)] == [Boot(None)];
    assert Index(Blank) == [];
    AppendStep([Boot(None)], Store(Blank, true, None), map[], A);
    assert [] + [A.ieee] == [1];
    assert [Boot(None)] + [Save(A, None)] == [Boot(None), Save(A, None)];
  }

  lemma Stale1()
    ensures At([Boot(None), Save(A, None), Save(B, None)],
               Store(Nvs(2, map[0 := Sealed(A), 1 := Sealed(B)]), true, Some([1, 2])), map[1 := A, 2 := B])
  {
    Stale0();
    var s1 := Store(Nvs(1, map[0 := Sealed(A)]), true, Some([1]));
    assert Index(s1.flash) == [1];
    AppendStep([Boot(None), Save(A, None)], s1, map[1 := A], B);
    assert [1] + [B.ieee] == [1, 2];
    assert [Boot(None), Save(A, None)] + [Save(B, None)] == [Boot(None), Save(A, None), Save(B, None)];
  }

  lemma Stale2(h: seq<Event>)
    requires At(h, Store(Nvs(2, map[0 := Sealed(A), 1 := Sealed(B)]), true, Some([1, 2])), map[1 := A, 2 := B])
    ensures At(h + [Delete(1, Some(2))] + [Boot(None)], Store(OverStale(B), true, None), map[2 := B])
  {
    StepLast(h, Delete(1, Some(2)));
    Stale2Writes();
    assert At(h + [Delete(1, Some(2))], Dead(OverStale(B)), map[2 := B]);
    StepLast(h + [Delete(1, Some(2))], Boot(None));
  }

  lemma Stale2Writes()
    ensures var m := Nvs(2, map[0 := Sealed(A), 1 := Sealed(B)]);
            && DeleteWrites(m, [1, 2], 1) == Some([SetBlob(0, Sealed(B))] + DropTail(1, true))
            && After(m, [SetBlob(0, Sealed(B))] + DropTail(1, true), 2) == OverStale(B)
  {
    var m := Nvs(2, map[0 := Sealed(A), 1 := Sealed(B)]);
    var m1 := Apply(m, SetBlob(0, Sealed(B)));
    assert After(m, [SetBlob(0, Sealed(B))] + DropTail(1, true), 2) == After(m1, DropTail(1, true), 1) by {
      assert ([SetBlob(0, Sealed(B))] + DropTail(1, true))[1..] == DropTail(1, true);
    }
    DropTailAfter(m1, 1, true, 1);
  }

  lemma Stale3(h: seq<Event>)
    requires At(h, Store(OverStale(B), true, None), map[2 := B])
    ensures At(h + [Delete(2, None)], Store(Nvs(0, map[1 := Sealed(B)]), true, None), map[])
  {
    StepLast(h, Delete(2, None));
    assert Index(OverStale(B)) == [2];
    assert DeleteWrites(OverStale(B), [2], 2) == Some(DropTail(0, true));
    DropTailAfter(OverStale(B), 0, true, 2);
  }

  lemma Stale4(h: seq<Event>)
    requires At(h, Store(Nvs(0, map[1 := Sealed(B)]), true, None), map[])
    ensures At(h + [Save(C, None)], Store(OverStale(C), true, Some([3])), map[3 := C])
  {
    var m := Nvs(0, map[1 := Sealed(B)]);
    assert Index(m) == [];
    AppendStep(h, Store(m, true, None), map[], C);
    assert [] + [C.ieee] == [3];
  }

  lemma Stale5(h: seq<Event>)
    requires At(h, Store(OverStale(C), true, Some([3])), map[3 := C])
    ensures At(h + [Save(D, Some(1))] + [Boot(None)], Store(OverStale(C).(cnt := 2), true, None), map[3 := C])
  {
    StepLast(h, Save(D, Some(1)));
    StepLast(h + [Save(D, Some(1))], Boot(None));
    assert Index(OverStale(C)) == [3];
    SaveAfter(OverStale(C), D, 1);
    var m := OverStale(C).(cnt := 2);
    assert Index(m) == [3, 2];
    assert Index(m)[..1] == [3];
  }

  /** A deleted device can come back. A and B are stored; the delete of A is cut
      after its count write, leaving B's old record at key 1; B is deleted, C is
      stored, and the append of D is cut after its count write. After the boot
      B is loaded again although its delete completed. */
  lemma DeletedComesBack()
    ensures var h := [Boot(None), Save(A, None), Save(B, None)] + [Delete(1, Some(2))] + [Boot(None)]
                     + [Delete(2, None)] + [Save(C, None)] + [Save(D, Some(1))] + [Boot(None)];
            2 !in RunLive(h) && B in Load(RunStore(h).flash, RunStore(h).flash.cnt)
  {
    var h1 := [Boot(None), Save(A, None), Save(B, None)];
    Stale1();
    Stale2(h1);
    var h2 := h1 + [Delete(1, Some(2))] + [Boot(None)];
    Stale3(h2);
    Stale4(h2 + [Delete(2, None)]);
    Stale5(h2 + [Delete(2, None)] + [Save(C, None)]);
    LoadStale();
  }

  lemma LoadStale()
    ensures B in Load(OverStale(C).(cnt := 2), 2)
  {
    var m := OverStale(C).(cnt := 2);
    assert Load(m, 1) == [C];
    assert !Holds([C], 2);
    assert Load(m, 2)[1] == B;
  }

  // ── The code, over its own RAM and flash ──────────────────────────────

  lemma {:induction false} FindIs(idx: seq<nat>, x: nat, i: nat)
    requires i <= |idx| && x !in idx[..i] && (i < |idx| ==> idx[i] == x)
    ensures Find(idx, x) == if i < |idx| then Some(i) else None
    decreases i
  {
    if i > 0 {
      assert idx[..i][0] == idx[0];
      assert idx[1..][..i - 1] == idx[..i][1..];
      FindIs(idx[1..], x, i - 1);
    }
  }

  lemma AfterOne(m: Nvs, w: Write)
    ensures After(m, [w], 1) == Apply(m, w)
  {
    assert After(m, [w], 1) == After(Apply(m, w), [w][1..], 0);
  }

  lemma AfterFirst(m: Nvs, w: Write, ws: seq<Write>)
    ensures After(m, [w] + ws, |[w] + ws|) == After(Apply(m, w), ws, |ws|)
  {
    assert ([w] + ws)[1..] == ws;
  }

  /** `log` is every flash write since power came on, in order: a power cut
      after `k` of an operation's writes leaves the first k of what it adds. */
  class ZapTable {
    var flash: Nvs
    const idxIeee: array<nat>
    var idxCount: nat
    var idxBuilt: bool
    var ready: bool
    ghost var log: seq<Write>

    ghost predicate Valid()
      reads this, idxIeee
    {
      && idxIeee.Length == MAX_DEVICES && idxCount <= MAX_DEVICES && flash.cnt <= MAX_DEVICES
      && (idxBuilt ==> idxIeee[..idxCount] == Index(flash))
    }

    ghost function View(): Store
      requires idxCount <= idxIeee.Length
      reads this, idxIeee
    {
      Store(flash, ready, if idxBuilt then Some(idxIeee[..idxCount]) else None)
    }

    constructor PowerOn(m: Nvs)
      requires m.cnt <= MAX_DEVICES
      ensures Valid() && View() == Dead(m) && log == [] && fresh(idxIeee)
    {
      flash := m;
      idxIeee := new nat[MAX_DEVICES];
      idxCount := 0;
      idxBuilt := false;
      ready := false;
      log := [];
    }

    method Put(w: Write)
      modifies this`flash, this`log
      ensures flash == Apply(old(flash), w) && log == old(log) + [w]
    {
      flash := match w
        case SetCount(n) => flash.(cnt := n)
        case SetBlob(i, b) => flash.(blobs := flash.blobs[i := b])
        case EraseBlob(j) => flash.(blobs := flash.blobs - {j});
      log := log + [w];
    }

    method IndexBuildLocked()
      requires idxIeee.Length == MAX_DEVICES
      modifies this`idxCount, this`idxBuilt, idxIeee
      ensures idxBuilt && idxCount == |Index(flash)| && idxIeee[..idxCount] == Index(flash)
    {
      var count := flash.cnt;
      if count > MAX_DEVICES { count := MAX_DEVICES; }
      idxCount := 0;
      for i := 0 to count
        invariant idxCount == i
        invariant forall j: nat :: j < i ==> idxIeee[j] == SlotIeee(flash, j)
      {
        idxIeee[i] := if i in flash.blobs then flash.blobs[i].dev.ieee else 0;
        idxCount := i + 1;
      }
      idxBuilt := true;
    }

    method IndexFindLocked(ieee: nat) returns (f: int)
      requires idxCount <= idxIeee.Length
      ensures f == match Find(idxIeee[..idxCount], ieee) case None => -1 case Some(i) => i
    {
      ghost var idx := idxIeee[..idxCount];
      for i := 0 to idxCount
        invariant ieee !in idx[..i]
      {
        if idxIeee[i] == ieee {
          FindIs(idx, ieee, i);
          return i;
        }
        assert idx[..i + 1] == idx[..i] + [idx[i]];
      }
      FindIs(idx, ieee, idxCount);
      return -1;
    }

    method SaveLocked(d: Device) returns (ok: bool)
      requires Valid() && ready
      modifies this, idxIeee
      ensures Valid() && View() == Step(old(View()), Save(d, None))
      ensures ok <==> SaveWrites(old(flash), Index(old(flash)), d).Some?
      ensures log == old(log) + if ok then SaveWrites(old(flash), Index(old(flash)), d).value else []
    {
      var count := flash.cnt;
      ghost var idx := Index(flash);
      if !idxBuilt { IndexBuildLocked(); }
      var found := IndexFindLocked(d.ieee);
      if found < 0 && count >= MAX_DEVICES { return false; }
      if found >= 0 { SaveAt(found, d); } else { Append(d); }
      return true;
    }

    method SaveAt(slot: nat, d: Device)
      requires Valid() && idxBuilt && Find(Index(flash), d.ieee) == Some(slot)
      modifies this`flash, this`log, idxIeee
      ensures Valid() && idxIeee[..idxCount] == Index(old(flash)) && log == old(log) + [SetBlob(slot, Sealed(d))]
      ensures flash == After(old(flash), [SetBlob(slot, Sealed(d))], 1)
    {
      ghost var idx := Index(flash);
      AfterOne(flash, SetBlob(slot, Sealed(d)));
      Put(SetBlob(slot, Sealed(d)));
      idxIeee[slot] := d.ieee;
      assert idxIeee[..idxCount] == idx;
      assert Index(flash) == idx;
    }

    method Append(d: Device)
      requires Valid() && idxBuilt && Find(Index(flash), d.ieee) == None && flash.cnt < MAX_DEVICES
      modifies this`flash, this`log, this`idxCount, idxIeee
      ensures Valid() && idxIeee[..idxCount] == Index(old(flash)) + [d.ieee]
      ensures log == old(log) + [SetCount(old(flash).cnt + 1), SetBlob(old(flash).cnt, Sealed(d))]
      ensures flash == After(old(flash), [SetCount(old(flash).cnt + 1), SetBlob(old(flash).cnt, Sealed(d))], 2)
    {
      var slot := flash.cnt;
      ghost var idx := Index(flash);
      SaveAfter(flash, d, 2);
      Put(SetCount(slot + 1));
      Put(SetBlob(slot, Sealed(d)));
      assert Index(flash) == idx + [d.ieee];
      idxIeee[slot] := d.ieee;
      if slot >= idxCount { idxCount := slot + 1; }
      assert idxIeee[..idxCount] == idx + [d.ieee];
    }

    method SaveDevice(d: Device) returns (ok: bool)
      requires Valid()
      modifies this, idxIeee
      ensures Valid() && View() == Step(old(View()), Save(d, None))
      ensures ok <==> old(ready) && SaveWrites(old(flash), Index(old(flash)), d).Some?
    {
      if !ready { return false; }
      ok := SaveLocked(d);
    }

    // The count, then the tail's key.
    method DropSlot(last: nat)
      modifies this`flash, this`log
      ensures var ws := DropTail(last, last in old(flash).blobs);
              flash == After(old(flash), ws, |ws|) && log == old(log) + ws
      ensures flash.cnt == last
    {
      DropTailAfter(flash, last, last in flash.blobs, |DropTail(last, last in flash.blobs)|);
      Put(SetCount(last));
      if last in flash.blobs { Put(EraseBlob(last)); }
    }

    method DeleteDevice(ieee: nat) returns (ok: bool)
      requires Valid()
      modifies this, idxIeee
      ensures Valid() && View() == Step(old(View()), Delete(ieee, None))
      ensures ok <==> old(ready) && DeleteWrites(old(flash), Index(old(flash)), ieee).Some?
      ensures log == old(log) + if ok then DeleteWrites(old(flash), Index(old(flash)), ieee).value else []
    {
      ok := false;
      if ready && ieee != 0 {
        var count := flash.cnt;
        if count > MAX_DEVICES { count := MAX_DEVICES; }
        if !idxBuilt { IndexBuildLocked(); }
        var found := IndexFindLocked(ieee);
        if 0 <= found < count {
          ok := true;
          DeleteSlot(found, count - 1, ieee);
        }
      }
      idxBuilt := false;
    }

    method DeleteSlot(found: nat, last: nat, ieee: nat)
      requires Find(Index(flash), ieee) == Some(found) && found <= last && last == flash.cnt - 1 && ieee != 0
      requires flash.cnt <= MAX_DEVICES
      modifies this`flash, this`log
      ensures var ws := DeleteWrites(old(flash), Index(old(flash)), ieee).value;
              flash == After(old(flash), ws, |ws|) && log == old(log) + ws
      ensures flash.cnt == last
    {
      ghost var m := flash;
      if found != last {
        var w := if last in flash.blobs && flash.blobs[last].dev.ieee != ieee then SetBlob(found, flash.blobs[last]) else EraseBlob(found);
        Put(w);
        AfterFirst(m, w, DropTail(last, last in m.blobs));
      }
      assert last in flash.blobs <==> last in m.blobs;
      DropSlot(last);
    }

    method RepairInterruptedDelete()
      requires Valid() && !idxBuilt
      modifies this, idxIeee
      ensures ready == old(ready) && !idxBuilt && idxCount <= MAX_DEVICES
      ensures flash == After(old(flash), RepairWrites(old(flash)), |RepairWrites(old(flash))|)
      ensures log == old(log) + RepairWrites(old(flash))
    {
      var count := flash.cnt;
      if count < 2 || count > MAX_DEVICES { return; }
      IndexBuildLocked();
      ghost var idx := Index(flash);
      var tail := idxIeee[count - 1];
      assert tail == idx[count - 1];
      var i := 0;
      var drop := false;
      while tail != 0 && i + 1 < count && !drop
        invariant i <= count - 1
        invariant drop ==> tail != 0 && tail in idx[..count - 1]
        invariant !drop ==> tail !in idx[..i]
        decreases count - i, !drop
      {
        if idxIeee[i] == tail {
          assert idx[..count - 1][i] == tail;
          drop := true;
        } else {
          assert idx[..i + 1] == idx[..i] + [idx[i]];
          i := i + 1;
        }
      }
      idxBuilt := false;
      if drop {
        assert RepairWrites(flash) == DropTail(count - 1, count - 1 in flash.blobs);
        DropSlot(count - 1);
      }
    }

    method Init()
      requires Valid() && !idxBuilt
      modifies this, idxIeee
      ensures Valid() && View() == Step(old(View()), Boot(None))
      ensures log == old(log) + RepairWrites(old(flash))
    {
      ready := false;
      RepairShrinks(flash);
      RepairInterruptedDelete();
      ready := true;
    }

    method LoadDevices(pool: array<Device>, maxCount: nat) returns (loaded: nat)
      requires Valid() && maxCount <= pool.Length
      modifies pool
      ensures loaded <= pool.Length
      ensures pool[..loaded] == if ready then Load(flash, Min(flash.cnt, maxCount)) else []
    {
      loaded := 0;
      if !ready { return; }
      var count := flash.cnt;
      if count > maxCount { count := maxCount; }
      for i := 0 to count
        invariant loaded <= i && pool[..loaded] == Load(flash, i)
      {
        if i in flash.blobs {
          ghost var below := pool[..loaded];
          pool[loaded] := flash.blobs[i].dev;
          assert pool[..loaded] == below;
          if flash.blobs[i].intact {
            var dup := HeldBelow(pool, loaded);
            if !dup {
              assert pool[..loaded + 1] == pool[..loaded] + [pool[loaded]];
              loaded := loaded + 1;
            }
          }
        }
      }
    }
  }

  // Whether pool[n]'s device is among the first n.
  method HeldBelow(pool: array<Device>, n: nat) returns (dup: bool)
    requires n < pool.Length
    ensures dup <==> Holds(pool[..n], pool[n].ieee)
  {
    dup := false;
    var j := 0;
    while j < n && !dup
      invariant j <= n
      invariant dup ==> Holds(pool[..n], pool[n].ieee)
      invariant !dup ==> forall k :: 0 <= k < j ==> pool[..n][k].ieee != pool[n].ieee
      decreases n - j, !dup
    {
      dup := pool[j].ieee == pool[n].ieee;
      assert pool[..n][j] == pool[j];
      if !dup { j := j + 1; }
    }
  }

  lemma RepairShrinks(m: Nvs)
    ensures After(m, RepairWrites(m), |RepairWrites(m)|).cnt <= m.cnt
  {
    var ws := RepairWrites(m);
    if ws != [] { DropTailAfter(m, m.cnt - 1, m.cnt - 1 in m.blobs, |ws|); }
  }
}
