/** Moving the device store from the `nvs` partition to `zhac_data`, boot by
    boot: five marks, trial images, rollbacks to a build that writes `nvs`,
    failing writes and power cuts after any write. The checksum of a store is
    the store itself. */
module DataPart {
  import opened Wrappers

  type Key = nat
  type Entries = map<Key, int>

  /** What one partition holds of the store: the device pool's namespace and
      the shadow cache's. */
  datatype Content = Content(pool: Entries, shadow: Entries)

  const Empty := Content(map[], map[])

  datatype Part = OnNvs | OnData
  datatype Ns = Pool | Shadow

  /** `copied` and `moved` are marks on nvs; `src`, `done` and `live` on
      zhac_data. */
  datatype Disk = Disk(nvs: Content, copied: Option<Content>, moved: bool,
                       data: Content, src: Option<Content>, done: bool, live: bool)

  datatype Write =
    | Put(part: Part, ns: Ns, key: Key, val: int)
    | Drop(part: Part, ns: Ns, key: Key)
    | SetCopied(c: Content) | SetMoved
    | SetSrc(c: Content) | SetDone | ClearDone | SetLive

  function Select(c: Content, ns: Ns): Entries {
    if ns == Pool then c.pool else c.shadow
  }

  function Replace(c: Content, ns: Ns, m: Entries): Content {
    if ns == Pool then c.(pool := m) else c.(shadow := m)
  }

  function Held(d: Disk, part: Part): Content {
    if part == OnNvs then d.nvs else d.data
  }

  function Hold(d: Disk, part: Part, c: Content): Disk {
    if part == OnNvs then d.(nvs := c) else d.(data := c)
  }

  function Apply(d: Disk, w: Write): Disk {
    match w
    case Put(p, ns, k, v) => Hold(d, p, Replace(Held(d, p), ns, Select(Held(d, p), ns)[k := v]))
    case Drop(p, ns, k) => Hold(d, p, Replace(Held(d, p), ns, Select(Held(d, p), ns) - {k}))
    case SetCopied(c) => d.(copied := Some(c))
    case SetMoved => d.(moved := true)
    case SetSrc(c) => d.(src := Some(c))
    case SetDone => d.(done := true)
    case ClearDone => d.(done := false)
    case SetLive => d.(live := true)
  }

  function After(d: Disk, ws: seq<Write>): Disk
    decreases |ws|
  {
    if ws == [] then d else After(Apply(d, ws[0]), ws[1..])
  }

  // ── What a boot writes ────────────────────────────────────────────────

  /** The order each namespace's entries come in, and what fails: `copyAt` is
      how many of the copy's writes were made before one failed, `erased` how
      many leftovers were. */
  datatype Env = Env(nvsPool: seq<Key>, nvsShadow: seq<Key>, dataPool: seq<Key>, dataShadow: seq<Key>,
                     oldPool: seq<Key>, oldShadow: seq<Key>,
                     copyAt: Option<nat>, failCopied: bool, failLive: bool, failMoved: bool, erased: nat)

  function Drops(p: Part, ns: Ns, keys: seq<Key>): seq<Write> {
    if keys == [] then [] else [Drop(p, ns, keys[0])] + Drops(p, ns, keys[1..])
  }

  function Puts(p: Part, ns: Ns, m: Entries, keys: seq<Key>): seq<Write>
    requires forall k :: k in keys ==> k in m
  {
    if keys == [] then [] else [Put(p, ns, keys[0], m[keys[0]])] + Puts(p, ns, m, keys[1..])
  }

  ghost predicate Lists(keys: seq<Key>, m: Entries) {
    forall k: Key :: k in keys <==> k in m
  }

  ghost predicate Orders(d: Disk, env: Env) {
    && Lists(env.nvsPool, d.nvs.pool) && Lists(env.nvsShadow, d.nvs.shadow)
    && Lists(env.dataPool, d.data.pool) && Lists(env.dataShadow, d.data.shadow)
    && Lists(env.oldPool, d.nvs.pool) && Lists(env.oldShadow, d.nvs.shadow)
  }

  ghost function ClearWrites(env: Env): seq<Write> {
    [ClearDone] + Drops(OnData, Pool, env.dataPool) + Drops(OnData, Shadow, env.dataShadow)
  }

  ghost function FillWrites(d: Disk, env: Env): seq<Write>
    requires Orders(d, env)
  {
    Puts(OnData, Pool, d.nvs.pool, env.nvsPool) + Puts(OnData, Shadow, d.nvs.shadow, env.nvsShadow)
  }

  // A copy of the store: "done" goes first and comes back last.
  ghost function CopyWrites(d: Disk, env: Env): seq<Write>
    requires Orders(d, env)
  {
    ClearWrites(env) + FillWrites(d, env) + [SetSrc(d.nvs), SetDone]
  }

  function ConfirmWrites(d: Disk, failLive: bool, failMoved: bool): seq<Write> {
    (if d.live || failLive then [] else [SetLive]) + (if d.moved || failMoved then [] else [SetMoved])
  }

  function Take<T>(s: seq<T>, n: nat): seq<T> {
    if n <= |s| then s[..n] else s
  }

  ghost function EraseWrites(env: Env): seq<Write> {
    Take(Drops(OnNvs, Pool, env.oldPool) + Drops(OnNvs, Shadow, env.oldShadow), env.erased)
  }

  predicate CopyCurrent(d: Disk) {
    d.done && d.src.Some? && (d.src.value == d.nvs || d.nvs.pool == map[])
  }

  // What is written once the store is on zhac_data.
  ghost function SettleWrites(d: Disk, trial: bool, env: Env): seq<Write> {
    if trial then []
    else
      var cw := ConfirmWrites(d, env.failLive, env.failMoved);
      if After(d, cw).live || After(d, cw).moved then cw + EraseWrites(env) else cw
  }

  datatype Boot = Boot(writes: seq<Write>, part: Option<Part>)

  ghost function CopyBoot(d: Disk, trial: bool, env: Env): Boot
    requires Orders(d, env)
  {
    var cw := CopyWrites(d, env);
    if env.copyAt.Some? && env.copyAt.value < |cw| then Boot(cw[..env.copyAt.value], Some(OnNvs))
    else
      var ws := cw + (if env.failCopied then [] else [SetCopied(d.nvs)]);
      Boot(ws + SettleWrites(After(d, ws), trial, env), Some(OnData))
  }

  /** A boot's writes and the partition it runs on (None: the store is shut). */
  ghost function BootOf(d: Disk, trial: bool, env: Env): Boot
    requires Orders(d, env)
  {
    if d.moved || d.live then
      if !d.done then Boot([], None)
      else
        Boot(ConfirmWrites(d, env.failLive, env.failMoved) + (if trial then [] else EraseWrites(env)), Some(OnData))
    else if CopyCurrent(d) then
      var ws := if d.copied == d.src || env.failCopied then [] else [SetCopied(d.src.value)];
      Boot(ws + SettleWrites(After(d, ws), trial, env), Some(OnData))
    else CopyBoot(d, trial, env)
  }

  // ── Runs ──────────────────────────────────────────────────────────────

  /** `on` is where the running image keeps the store; None while it is shut,
      or while an older build runs. */
  datatype State = State(disk: Disk, on: Option<Part>)

  /** `cut` = Some(k): power is lost after k of the event's writes.
      OldBuild(c, wrote): a build that knows only nvs ran and left `c` there,
      having written it or not.
      WipeNvs: a tool erased nvs, marks included. */
  datatype Event =
    | Start(trial: bool, env: Env, cut: Option<nat>)
    | Save(ns: Ns, key: Key, val: Option<int>)
    | Confirm(failLive: bool, failMoved: bool, cut: Option<nat>)
    | OldBuild(c: Content, wrote: bool)
    | WipeNvs

  ghost predicate Possible(s: State, e: Event) {
    && (e.Start? ==> Orders(s.disk, e.env))
    && (e.OldBuild? && !e.wrote ==> e.c == s.disk.nvs)
  }

  function SaveWrite(p: Part, e: Event): Write
    requires e.Save?
  {
    if e.val.Some? then Put(p, e.ns, e.key, e.val.value) else Drop(p, e.ns, e.key)
  }

  ghost function Step(s: State, e: Event): State
    requires Possible(s, e)
  {
    match e
    case Start(trial, env, cut) =>
      var b := BootOf(s.disk, trial, env);
      if cut.Some? then State(After(s.disk, Take(b.writes, cut.value)), None)
      else State(After(s.disk, b.writes), b.part)
    case Save(_, _, _) =>
      if s.on.None? then s else State(Apply(s.disk, SaveWrite(s.on.value, e)), s.on)
    case Confirm(fl, fm, cut) =>
      var ws := if s.on == Some(OnData) then ConfirmWrites(s.disk, fl, fm) else [];
      if cut.Some? then State(After(s.disk, Take(ws, cut.value)), None) else State(After(s.disk, ws), s.on)
    case OldBuild(c, _) => State(s.disk.(nvs := c), None)
    case WipeNvs => State(s.disk.(nvs := Empty, copied := None, moved := false), None)
  }

  /** The store a boot chooses. */
  function ChoosesData(d: Disk): bool { d.moved || d.live || CopyCurrent(d) }

  function Chosen(d: Disk): Content { if ChoosesData(d) then d.data else d.nvs }

  function Edit(c: Content, e: Event): Content
    requires e.Save?
  {
    Replace(c, e.ns, if e.val.Some? then Select(c, e.ns)[e.key := e.val.value] else Select(c, e.ns) - {e.key})
  }

  /** The newest store: every acknowledged save; what an older build last wrote
      before the move is final; nothing, once a wipe took the nvs in use. */
  function Newest(s: State, newest: Content, e: Event): Content {
    match e
    case Start(_, _, _) => newest
    case Save(_, _, _) => if s.on.Some? then Edit(newest, e) else newest
    case Confirm(_, _, _) => newest
    case OldBuild(c, wrote) => if s.disk.moved || s.disk.live || !wrote then newest else c
    case WipeNvs => if ChoosesData(s.disk) then newest else Empty
  }

  /** A boot can tell that nvs now holds `c` and no longer what the copy was
      taken from: no copy is whole, or `c` is a store of its own and not what
      the copy was taken from; or it need not, as the copy holds `c` too. */
  predicate Telling(d: Disk, c: Content) {
    !d.done || (Some(c) != d.src && c.pool != map[]) || d.data == c
  }

  // A change of nvs behind this build's back that its next boot can tell.
  predicate Told(d: Disk, e: Event) {
    match e
    case OldBuild(c, wrote) => wrote && !d.moved && !d.live ==> Telling(d, c)
    case WipeNvs => !ChoosesData(d) ==> Telling(d, Empty)
    case _ => true
  }

  // ── What every write keeps ────────────────────────────────────────────

  predicate Marks(d: Disk) {
    && (d.moved || d.live ==> d.done)
    && (d.done ==> d.src.Some?)
  }

  ghost predicate Inv(s: State, newest: Content) {
    && Marks(s.disk) && Chosen(s.disk) == newest
    && (s.on == Some(OnData) ==> ChoosesData(s.disk))
    && (s.on == Some(OnNvs) ==> !s.disk.done)
  }

  // Every prefix of `ws` leaves sound marks and the store `c` chosen.
  ghost predicate Safe(d: Disk, ws: seq<Write>, c: Content)
    decreases |ws|
  {
    Marks(d) && Chosen(d) == c && (ws != [] ==> Safe(Apply(d, ws[0]), ws[1..], c))
  }

  lemma {:induction false} AfterConcat(d: Disk, a: seq<Write>, b: seq<Write>)
    ensures After(d, a + b) == After(After(d, a), b)
    decreases |a|
  {
    if a == [] {
      assert a + b == b;
    } else {
      assert (a + b)[1..] == a[1..] + b;
      AfterConcat(Apply(d, a[0]), a[1..], b);
    }
  }

  lemma {:induction false} SafeConcat(d: Disk, a: seq<Write>, b: seq<Write>, c: Content)
    requires Safe(d, a, c) && Safe(After(d, a), b, c)
    ensures Safe(d, a + b, c)
    decreases |a|
  {
    if a == [] {
      assert a + b == b;
    } else {
      assert (a + b)[1..] == a[1..] + b;
      SafeConcat(Apply(d, a[0]), a[1..], b, c);
    }
  }

  lemma {:induction false} SafeTake(d: Disk, ws: seq<Write>, n: nat, c: Content)
    requires Safe(d, ws, c)
    ensures Safe(d, Take(ws, n), c) && Safe(After(d, Take(ws, n)), [], c)
    decreases |ws|
  {
    if n > 0 && ws != [] {
      SafeTake(Apply(d, ws[0]), ws[1..], n - 1, c);
      assert Take(ws, n)[1..] == Take(ws[1..], n - 1);
    } else {
      assert Take(ws, n) == [];
    }
  }

  // ── Copying ───────────────────────────────────────────────────────────

  // Entry writes on zhac_data while the store is on nvs.
  ghost predicate DataOnly(ws: seq<Write>) {
    forall i: nat :: i < |ws| ==> (ws[i].Put? || ws[i].Drop?) && ws[i].part == OnData
  }

  // While "done" is clear and no final mark is set, the choice is nvs.
  lemma {:induction false} DataOnlySafe(d: Disk, ws: seq<Write>)
    requires DataOnly(ws) && !d.done && !d.moved && !d.live
    ensures Safe(d, ws, d.nvs) && After(d, ws) == d.(data := After(d, ws).data)
    decreases |ws|
  {
    if ws != [] {
      assert DataOnly(ws[1..]) by { assert forall i: nat :: i < |ws[1..]| ==> ws[1..][i] == ws[i + 1]; }
      assert ws[0].part == OnData;
      DataOnlySafe(Apply(d, ws[0]), ws[1..]);
    }
  }

  lemma {:induction false} DropsAre(p: Part, ns: Ns, keys: seq<Key>)
    ensures forall i: nat :: i < |Drops(p, ns, keys)| ==> Drops(p, ns, keys)[i].Drop? && Drops(p, ns, keys)[i].part == p
    decreases |keys|
  {
    if keys != [] { DropsAre(p, ns, keys[1..]); }
  }

  lemma {:induction false} PutsAre(p: Part, ns: Ns, m: Entries, keys: seq<Key>)
    requires forall k :: k in keys ==> k in m
    ensures forall i: nat :: i < |Puts(p, ns, m, keys)| ==> Puts(p, ns, m, keys)[i].Put? && Puts(p, ns, m, keys)[i].part == p
    decreases |keys|
  {
    if keys != [] { PutsAre(p, ns, m, keys[1..]); }
  }

  lemma {:induction false} DropsEmpty(d: Disk, ns: Ns, keys: seq<Key>)
    requires forall k :: k in Select(d.data, ns) ==> k in keys
    ensures After(d, Drops(OnData, ns, keys)) == d.(data := Replace(d.data, ns, map[]))
    decreases |keys|
  {
    if keys == [] {
      assert Select(d.data, ns) == map[];
    } else {
      var d1 := Apply(d, Drop(OnData, ns, keys[0]));
      assert forall k :: k in keys && k != keys[0] ==> k in keys[1..];
      DropsEmpty(d1, ns, keys[1..]);
      assert Drops(OnData, ns, keys)[1..] == Drops(OnData, ns, keys[1..]);
    }
  }

  lemma {:induction false} PutsFill(d: Disk, ns: Ns, m: Entries, keys: seq<Key>)
    requires forall k :: k in keys ==> k in m
    requires forall k :: k in Select(d.data, ns) ==> k in m && Select(d.data, ns)[k] == m[k]
    requires forall k :: k in m ==> k in Select(d.data, ns) || k in keys
    ensures After(d, Puts(OnData, ns, m, keys)) == d.(data := Replace(d.data, ns, m))
    decreases |keys|
  {
    if keys == [] {
      assert Select(d.data, ns) == m;
    } else {
      var d1 := Apply(d, Put(OnData, ns, keys[0], m[keys[0]]));
      assert forall k :: k in keys && k != keys[0] ==> k in keys[1..];
      PutsFill(d1, ns, m, keys[1..]);
      assert Puts(OnData, ns, m, keys)[1..] == Puts(OnData, ns, m, keys[1..]);
    }
  }

  lemma ClearAfter(d: Disk, env: Env)
    requires Orders(d, env)
    ensures After(d, ClearWrites(env)) == d.(done := false, data := Empty)
  {
    var d1 := d.(done := false);
    var a, b := Drops(OnData, Pool, env.dataPool), Drops(OnData, Shadow, env.dataShadow);
    assert ClearWrites(env)[1..] == a + b;
    AfterConcat(d1, a, b);
    DropsEmpty(d1, Pool, env.dataPool);
    DropsEmpty(After(d1, a), Shadow, env.dataShadow);
  }

  lemma FillAfter(d: Disk, d1: Disk, env: Env)
    requires Orders(d, env) && d1.data == Empty
    ensures After(d1, FillWrites(d, env)) == d1.(data := d.nvs)
  {
    var a := Puts(OnData, Pool, d.nvs.pool, env.nvsPool);
    var b := Puts(OnData, Shadow, d.nvs.shadow, env.nvsShadow);
    AfterConcat(d1, a, b);
    PutsFill(d1, Pool, d.nvs.pool, env.nvsPool);
    PutsFill(After(d1, a), Shadow, d.nvs.shadow, env.nvsShadow);
  }

  lemma ClearSafe(d: Disk, env: Env)
    requires Orders(d, env) && Marks(d) && !ChoosesData(d)
    ensures Safe(d, ClearWrites(env), d.nvs)
  {
    var a, b := Drops(OnData, Pool, env.dataPool), Drops(OnData, Shadow, env.dataShadow);
    assert ClearWrites(env)[1..] == a + b;
    DropsAre(OnData, Pool, env.dataPool);
    DropsAre(OnData, Shadow, env.dataShadow);
    DataOnlySafe(d.(done := false), a + b);
  }

  lemma FillSafe(d: Disk, env: Env)
    requires Orders(d, env) && Marks(d) && !d.moved && !d.live
    ensures Safe(d.(done := false, data := Empty), FillWrites(d, env), d.nvs)
  {
    PutsAre(OnData, Pool, d.nvs.pool, env.nvsPool);
    PutsAre(OnData, Shadow, d.nvs.shadow, env.nvsShadow);
    DataOnlySafe(d.(done := false, data := Empty), FillWrites(d, env));
  }

  lemma SealSafe(d: Disk)
    requires Marks(d) && !d.done && !d.moved && !d.live && d.data == d.nvs
    ensures Safe(d, [SetSrc(d.nvs), SetDone], d.nvs)
    ensures After(d, [SetSrc(d.nvs), SetDone]) == d.(src := Some(d.nvs), done := true)
  {
    var d1 := Apply(d, SetSrc(d.nvs));
    SafeOne(d, SetSrc(d.nvs), d.nvs);
    SafeOne(d1, SetDone, d.nvs);
    SafeConcat(d, [SetSrc(d.nvs)], [SetDone], d.nvs);
    AfterConcat(d, [SetSrc(d.nvs)], [SetDone]);
    assert [SetSrc(d.nvs)] + [SetDone] == [SetSrc(d.nvs), SetDone];
  }

  /** A copy cut or failed anywhere leaves nvs chosen; whole, it is nvs. */
  lemma CopySafe(d: Disk, env: Env)
    requires Orders(d, env) && Marks(d) && !ChoosesData(d)
    ensures Safe(d, CopyWrites(d, env), d.nvs)
    ensures After(d, CopyWrites(d, env)) == d.(data := d.nvs, src := Some(d.nvs), done := true)
  {
    var a, b := ClearWrites(env), FillWrites(d, env);
    var seal := [SetSrc(d.nvs), SetDone];
    ClearAfter(d, env);
    ClearSafe(d, env);
    var d1 := After(d, a);
    FillAfter(d, d1, env);
    FillSafe(d, env);
    SafeConcat(d, a, b, d.nvs);
    AfterConcat(d, a, b);
    SealSafe(After(d1, b));
    SafeConcat(d, a + b, seal, d.nvs);
    AfterConcat(d, a + b, seal);
  }

  // Short of its last write, a copy whose first write was made leaves "done" clear.
  lemma {:induction false} ClearStays(d: Disk, ws: seq<Write>)
    requires !d.done && forall i: nat :: i < |ws| ==> ws[i] != SetDone
    ensures !After(d, ws).done
    decreases |ws|
  {
    if ws != [] {
      assert forall i: nat :: i < |ws[1..]| ==> ws[1..][i] == ws[i + 1];
      ClearStays(Apply(d, ws[0]), ws[1..]);
    }
  }

  lemma CutCopyClear(d: Disk, env: Env, n: nat)
    requires Orders(d, env) && 1 <= n < |CopyWrites(d, env)|
    ensures !After(d, CopyWrites(d, env)[..n]).done
  {
    var cw := CopyWrites(d, env);
    DropsAre(OnData, Pool, env.dataPool);
    DropsAre(OnData, Shadow, env.dataShadow);
    PutsAre(OnData, Pool, d.nvs.pool, env.nvsPool);
    PutsAre(OnData, Shadow, d.nvs.shadow, env.nvsShadow);
    var part := cw[..n];
    assert part[0] == ClearDone;
    assert forall i: nat :: i < |part[1..]| ==> part[1..][i] == cw[i + 1];
    ClearStays(Apply(d, ClearDone), part[1..]);
  }

  // ── Settling on zhac_data ─────────────────────────────────────────────

  lemma SafeOne(d: Disk, w: Write, c: Content)
    requires Marks(d) && Chosen(d) == c && Marks(Apply(d, w)) && Chosen(Apply(d, w)) == c
    ensures Safe(d, [w], c) && After(d, [w]) == Apply(d, w)
  {
    assert [w][1..] == [];
    assert Safe(Apply(d, w), [], c);
    assert After(d, [w]) == After(Apply(d, w), []);
  }

  lemma ConfirmSafe(d: Disk, fl: bool, fm: bool)
    requires Marks(d) && ChoosesData(d)
    ensures Safe(d, ConfirmWrites(d, fl, fm), d.data)
    ensures var d' := After(d, ConfirmWrites(d, fl, fm));
            d' == d.(live := d.live || !fl, moved := d.moved || !fm)
  {
    var a := if d.live || fl then [] else [SetLive];
    var b := if d.moved || fm then [] else [SetMoved];
    if a != [] { SafeOne(d, SetLive, d.data); }
    var d1 := After(d, a);
    if b != [] { SafeOne(d1, SetMoved, d.data); }
    SafeConcat(d, a, b, d.data);
    AfterConcat(d, a, b);
  }

  // Erasing nvs after the move is final leaves the choice alone.
  lemma {:induction false} NvsDropsSafe(d: Disk, ws: seq<Write>)
    requires Marks(d) && (d.moved || d.live) && forall i: nat :: i < |ws| ==> ws[i].Drop? && ws[i].part == OnNvs
    ensures Safe(d, ws, d.data)
    ensures After(d, ws) == d.(nvs := After(d, ws).nvs)
    decreases |ws|
  {
    if ws != [] {
      assert forall i: nat :: i < |ws[1..]| ==> ws[1..][i] == ws[i + 1];
      NvsDropsSafe(Apply(d, ws[0]), ws[1..]);
    }
  }

  lemma EraseSafe(d: Disk, env: Env)
    requires Marks(d) && (d.moved || d.live)
    ensures Safe(d, EraseWrites(env), d.data)
    ensures After(d, EraseWrites(env)) == d.(nvs := After(d, EraseWrites(env)).nvs)
  {
    DropsAre(OnNvs, Pool, env.oldPool);
    DropsAre(OnNvs, Shadow, env.oldShadow);
    NvsDropsSafe(d, EraseWrites(env));
  }

  lemma SettleSafe(d: Disk, trial: bool, env: Env)
    requires Marks(d) && ChoosesData(d)
    ensures Safe(d, SettleWrites(d, trial, env), d.data)
    ensures ChoosesData(After(d, SettleWrites(d, trial, env)))
  {
    if !trial {
      var cw := ConfirmWrites(d, env.failLive, env.failMoved);
      ConfirmSafe(d, env.failLive, env.failMoved);
      var d1 := After(d, cw);
      if d1.live || d1.moved {
        EraseSafe(d1, env);
        SafeConcat(d, cw, EraseWrites(env), d.data);
        AfterConcat(d, cw, EraseWrites(env));
      }
    }
  }

  // ── Boots ─────────────────────────────────────────────────────────────

  // The one write a boot must not lose: clearing "done" before a fresh copy.
  ghost predicate ClearFails(d: Disk, env: Env) {
    !ChoosesData(d) && d.done && env.copyAt == Some(0)
  }

  // `b`, booted from `d`, keeps the chosen store at every write and runs on it.
  ghost predicate BootKeeps(d: Disk, b: Boot) {
    && Safe(d, b.writes, Chosen(d))
    && b.part.Some?
    && var d' := After(d, b.writes);
    && (b.part.value == OnData ==> ChoosesData(d'))
    && (b.part.value == OnNvs ==> !d'.done)
  }

  lemma NoteSafe(d: Disk, c: Content, fail: bool)
    requires Marks(d)
    ensures var ws := if fail then [] else [SetCopied(c)];
            Safe(d, ws, Chosen(d)) && After(d, ws) == (if fail then d else d.(copied := Some(c)))
  {
    if !fail { SafeOne(d, SetCopied(c), Chosen(d)); }
  }

  lemma SettledBoot(d: Disk, ws: seq<Write>, trial: bool, env: Env)
    requires Safe(d, ws, Chosen(d)) && ChoosesData(After(d, ws)) && After(d, ws).data == Chosen(d) && Marks(After(d, ws))
    ensures BootKeeps(d, Boot(ws + SettleWrites(After(d, ws), trial, env), Some(OnData)))
  {
    var d1 := After(d, ws);
    SettleSafe(d1, trial, env);
    SafeConcat(d, ws, SettleWrites(d1, trial, env), Chosen(d));
    AfterConcat(d, ws, SettleWrites(d1, trial, env));
  }

  lemma CopyBootKeeps(d: Disk, trial: bool, env: Env)
    requires Orders(d, env) && Marks(d) && !ChoosesData(d) && !ClearFails(d, env)
    ensures BootKeeps(d, CopyBoot(d, trial, env))
  {
    var cw := CopyWrites(d, env);
    CopySafe(d, env);
    if env.copyAt.Some? && env.copyAt.value < |cw| {
      var n := env.copyAt.value;
      SafeTake(d, cw, n, d.nvs);
      if n > 0 {
        CutCopyClear(d, env, n);
      } else {
        assert cw[..n] == [];
      }
    } else {
      var d1 := After(d, cw);
      var note := if env.failCopied then [] else [SetCopied(d.nvs)];
      NoteSafe(d1, d.nvs, env.failCopied);
      SafeConcat(d, cw, note, d.nvs);
      AfterConcat(d, cw, note);
      SettledBoot(d, cw + note, trial, env);
    }
  }

  /** Each write of a boot, whichever marks fail and wherever power is lost,
      keeps the chosen store; and the boot runs on that store. */
  lemma BootIsSafe(d: Disk, trial: bool, env: Env)
    requires Orders(d, env) && Marks(d) && !ClearFails(d, env)
    ensures BootKeeps(d, BootOf(d, trial, env))
  {
    if d.moved || d.live {
      ConfirmSafe(d, env.failLive, env.failMoved);
      var cw := ConfirmWrites(d, env.failLive, env.failMoved);
      var ew := if trial then [] else EraseWrites(env);
      EraseSafe(After(d, cw), env);
      SafeConcat(d, cw, ew, d.data);
      AfterConcat(d, cw, ew);
    } else if CopyCurrent(d) {
      var fail := d.copied == d.src || env.failCopied;
      NoteSafe(d, d.src.value, fail);
      SettledBoot(d, if fail then [] else [SetCopied(d.src.value)], trial, env);
    } else {
      CopyBootKeeps(d, trial, env);
    }
  }

  lemma InvStep(s: State, newest: Content, e: Event)
    requires Inv(s, newest) && Possible(s, e) && (e.Start? ==> !ClearFails(s.disk, e.env)) && Told(s.disk, e)
    ensures Inv(Step(s, e), Newest(s, newest, e))
  {
    match e
    case Start(trial, env, cut) =>
      var b := BootOf(s.disk, trial, env);
      BootIsSafe(s.disk, trial, env);
      SafeTake(s.disk, b.writes, if cut.Some? then cut.value else |b.writes|, newest);
      assert Take(b.writes, |b.writes|) == b.writes;
    case Save(_, _, _) =>
    case Confirm(fl, fm, cut) =>
      if s.on == Some(OnData) {
        ConfirmSafe(s.disk, fl, fm);
        var ws := ConfirmWrites(s.disk, fl, fm);
        SafeTake(s.disk, ws, if cut.Some? then cut.value else |ws|, newest);
        assert Take(ws, |ws|) == ws;
      }
    case OldBuild(c, wrote) =>
    case WipeNvs =>
  }

  /** Before the move is final, the boot after an older build wrote `c` runs on
      `c` if and only if it can tell; with no mark failing, whatever else is on
      the disk. */
  lemma RollbackExactly(s: State, newest: Content, c: Content, trial: bool, env: Env)
    requires Inv(s, newest) && !s.disk.moved && !s.disk.live
    requires Orders(s.disk.(nvs := c), env) && !ClearFails(s.disk.(nvs := c), env)
    ensures Possible(s, OldBuild(c, true)) && Possible(Step(s, OldBuild(c, true)), Start(trial, env, None))
    ensures var z := Step(Step(s, OldBuild(c, true)), Start(trial, env, None));
            z.on.Some? && (Held(z.disk, z.on.value) == c <==> Telling(s.disk, c))
  {
    RunsOnChosen(Step(s, OldBuild(c, true)), trial, env);
  }

  /** And after a wipe of the nvs in use it runs on an empty store if and only
      if no other copy is left. */
  lemma WipeExactly(s: State, newest: Content, trial: bool, env: Env)
    requires Inv(s, newest) && !ChoosesData(s.disk)
    requires var d := Step(s, WipeNvs).disk; Orders(d, env) && !ClearFails(d, env)
    ensures Possible(Step(s, WipeNvs), Start(trial, env, None))
    ensures var z := Step(Step(s, WipeNvs), Start(trial, env, None));
            z.on.Some? && (Held(z.disk, z.on.value) == Empty <==> !s.disk.done || s.disk.data == Empty)
  {
    RunsOnChosen(Step(s, WipeNvs), trial, env);
  }

  // A boot that clears "done" when it has to runs on the store it chooses.
  lemma RunsOnChosen(s: State, trial: bool, env: Env)
    requires Marks(s.disk) && Orders(s.disk, env) && !ClearFails(s.disk, env)
    ensures var z := Step(s, Start(trial, env, None));
            z.on.Some? && Held(z.disk, z.on.value) == Chosen(s.disk)
  {
    BootIsSafe(s.disk, trial, env);
    var b := BootOf(s.disk, trial, env);
    SafeTake(s.disk, b.writes, |b.writes|, Chosen(s.disk));
    assert Take(b.writes, |b.writes|) == b.writes;
  }

  /** A hub as it ships: a store on nvs, no marks, anything on zhac_data. */
  function Shipped(nvs: Content, junk: Content): State {
    State(Disk(nvs, None, false, junk, None, false, false), None)
  }

  // The history is possible, and no fresh copy failed to clear "done".
  ghost predicate Legal(s: State, h: seq<Event>)
    decreases |h|
  {
    h != [] ==>
      && Possible(s, h[0]) && (h[0].Start? ==> !ClearFails(s.disk, h[0].env))
      && Legal(Step(s, h[0]), h[1..])
  }

  ghost function RunState(s: State, h: seq<Event>): State
    requires Legal(s, h)
    decreases |h|
  {
    if h == [] then s else RunState(Step(s, h[0]), h[1..])
  }

  ghost function RunNewest(s: State, newest: Content, h: seq<Event>): Content
    requires Legal(s, h)
    decreases |h|
  {
    if h == [] then newest else RunNewest(Step(s, h[0]), Newest(s, newest, h[0]), h[1..])
  }

  // Every change of nvs behind this build's back could be told.
  ghost predicate ToldRun(s: State, h: seq<Event>)
    requires Legal(s, h)
    decreases |h|
  {
    h != [] ==> Told(s.disk, h[0]) && ToldRun(Step(s, h[0]), h[1..])
  }

  lemma {:induction false} InvRun(s: State, newest: Content, h: seq<Event>)
    requires Inv(s, newest) && Legal(s, h) && ToldRun(s, h)
    ensures Inv(RunState(s, h), RunNewest(s, newest, h))
    decreases |h|
  {
    if h != [] {
      InvStep(s, newest, h[0]);
      InvRun(Step(s, h[0]), Newest(s, newest, h[0]), h[1..]);
    }
  }

  /** After any run of boots, trials, rollbacks, saves, confirmations, wipes,
      failing marks and power cuts in which each older build's change (and each
      wipe) could be told, the next boot is never shut and runs on the newest
      store, whole: the last acknowledged save, or what an older build wrote
      after it. */
  lemma BootRunsOnNewest(nvs: Content, junk: Content, h: seq<Event>, trial: bool, env: Env)
    requires Legal(Shipped(nvs, junk), h) && ToldRun(Shipped(nvs, junk), h)
    requires var d := RunState(Shipped(nvs, junk), h).disk; Orders(d, env) && !ClearFails(d, env)
    ensures var s := RunState(Shipped(nvs, junk), h);
            var s' := Step(s, Start(trial, env, None));
            s'.on.Some? && Held(s'.disk, s'.on.value) == RunNewest(Shipped(nvs, junk), nvs, h)
  {
    InvRun(Shipped(nvs, junk), nvs, h);
    RunsOnChosen(RunState(Shipped(nvs, junk), h), trial, env);
  }

  // Events that leave the newest store alone: boots, confirmations, an older
  // build once the move is final or one that changed nothing, a wipe of an nvs
  // that is not in use.
  predicate Quiet(s: State, e: Event) {
    match e
    case Start(_, _, _) => true
    case Confirm(_, _, _) => true
    case Save(_, _, _) => s.on.None?
    case OldBuild(c, _) => s.disk.moved || s.disk.live || c == s.disk.nvs
    case WipeNvs => ChoosesData(s.disk)
  }

  ghost predicate QuietRun(s: State, h: seq<Event>)
    requires Legal(s, h)
    decreases |h|
  {
    h != [] ==> Quiet(s, h[0]) && QuietRun(Step(s, h[0]), h[1..])
  }

  lemma QuietStep(s: State, newest: Content, e: Event)
    requires Inv(s, newest) && Possible(s, e) && (e.Start? ==> !ClearFails(s.disk, e.env)) && Quiet(s, e)
    ensures Inv(Step(s, e), newest)
  {
    if !e.OldBuild? { InvStep(s, newest, e); }
  }

  /** An acknowledged save stays in the store that later boots choose, until an
      older build changes nvs before the move is final. */
  lemma {:induction false} SaveSurvives(s: State, newest: Content, h: seq<Event>)
    requires Inv(s, newest) && Legal(s, h) && QuietRun(s, h)
    ensures Chosen(RunState(s, h).disk) == newest
    decreases |h|
  {
    if h != [] {
      QuietStep(s, newest, h[0]);
      SaveSurvives(Step(s, h[0]), newest, h[1..]);
    }
  }

  // ── When "done" cannot be cleared ─────────────────────────────────────

  /** On nvs with a stale copy's "done" still set, a save is the store later
      boots choose exactly when it does not turn nvs back into what the copy
      was taken from (or empty its pool), or the copy happens to agree. */
  lemma SaveOverStaleCopy(d: Disk, e: Event)
    requires Marks(d) && !ChoosesData(d) && e.Save?
    ensures var d' := Step(State(d, Some(OnNvs)), e).disk;
            Chosen(d') == Edit(d.nvs, e) <==>
            !d.done || (Some(Edit(d.nvs, e)) != d.src && Edit(d.nvs, e).pool != map[]) || d.data == Edit(d.nvs, e)
  {
    var d' := Step(State(d, Some(OnNvs)), e).disk;
    assert d'.nvs == Edit(d.nvs, e);
  }

  function One(v: int): Content { Content(map[1 := v], map[]) }

  // A copy of One(10) with one save on top; then an older build wrote One(12).
  const Stale := State(Disk(One(12), Some(One(10)), false, One(11), Some(One(10)), true, false), None)

  const Order1 := Env([1], [], [1], [], [1], [], None, false, true, true, 0)

  lemma ReachStale()
    ensures var s := Shipped(One(10), Empty);
            var first := Order1.(dataPool := []);
            && Possible(s, Start(true, first, None))
            && var s1 := Step(s, Start(true, first, None));
            && s1 == State(Disk(One(10), Some(One(10)), false, One(10), Some(One(10)), true, false), Some(OnData))
            && Step(Step(s1, Save(Pool, 1, Some(11))), OldBuild(One(12), true)) == Stale
  {
    var s := Shipped(One(10), Empty);
    var first := Order1.(dataPool := []);
    CopySafe(s.disk, first);
    var cw := CopyWrites(s.disk, first);
    var d1 := After(s.disk, cw);
    NoteSafe(d1, One(10), false);
    AfterConcat(s.disk, cw, [SetCopied(One(10))]);
    var ws := cw + [SetCopied(One(10))];
    assert ws + [] == ws;
    var s1 := Step(s, Start(true, first, None));
    assert s1.disk.data.pool[1 := 11] == map[1 := 11];
    assert Step(s1, Save(Pool, 1, Some(11))).disk.data == One(11);
  }

  /** A change that cannot be told: the older build writes One(12) and later
      One(10) again, which the copy was taken from. The next boot takes nvs for
      unchanged and runs on the trial's One(11). */
  lemma ChangeBackIsMissed()
    ensures var back := OldBuild(One(10), true);
            && Possible(Stale, back) && !Told(Stale.disk, back)
            && Newest(Stale, One(12), back) == One(10)
            && Possible(Step(Stale, back), Start(true, Order1, None))
            && var z := Step(Step(Stale, back), Start(true, Order1, None));
            z.on == Some(OnData) && z.disk.data == One(11) && One(11) != One(10)
  {
    assert One(11) != One(10) by { assert One(11).pool[1] != One(10).pool[1]; }
    var s := Step(Stale, OldBuild(One(10), true));
    assert [] + SettleWrites(s.disk, true, Order1) == [];
  }

  /** A save acknowledged on nvs after a failed clear can be lost: with the copy
      of One(10) edited to One(11) and nvs now One(12), a boot that cannot clear
      "done" runs on nvs, takes a save back to One(10), and the next boot
      chooses One(11). */
  lemma FailedClearLosesSave()
    ensures var fail := Start(true, Order1.(copyAt := Some(0)), None);
            && Possible(Stale, fail)
            && var s := Step(Step(Stale, fail), Save(Pool, 1, Some(10)));
            && s.on == Some(OnNvs) && s.disk.nvs == One(10)
            && Possible(s, Start(true, Order1, None))
            && var s' := Step(s, Start(true, Order1, None));
            && s'.on == Some(OnData) && s'.disk.data == One(11)
  {
    var fail := Start(true, Order1.(copyAt := Some(0)), None);
    assert One(12) != One(10) by { assert One(12).pool[1] != One(10).pool[1]; }
    assert CopyWrites(Stale.disk, fail.env)[..0] == [];
    var s1 := Step(Stale, fail);
    assert s1 == State(Stale.disk, Some(OnNvs));
    var s := Step(s1, Save(Pool, 1, Some(10)));
    assert s.disk.nvs.pool == map[1 := 10];
    assert [] + SettleWrites(s.disk, true, Order1) == [];
  }

  // ── The code ──────────────────────────────────────────────────────────

  lemma {:induction false} ListAll(todo: set<Key>) returns (keys: seq<Key>)
    ensures forall k: Key :: k in keys <==> k in todo
    decreases todo
  {
    if todo == {} {
      keys := [];
    } else {
      var k :| k in todo;
      keys := ListAll(todo - {k});
      keys := keys + [k];
    }
  }

  lemma {:induction false} DropsConcat(p: Part, ns: Ns, a: seq<Key>, b: seq<Key>)
    ensures Drops(p, ns, a + b) == Drops(p, ns, a) + Drops(p, ns, b)
    decreases |a|
  {
    if a == [] {
      assert a + b == b;
    } else {
      assert (a + b)[1..] == a[1..] + b;
      DropsConcat(p, ns, a[1..], b);
    }
  }

  lemma DropsPrefix(p: Part, ns: Ns, a: seq<Key>, b: seq<Key>)
    ensures |Drops(p, ns, a)| <= |Drops(p, ns, a + b)| && Drops(p, ns, a + b)[..|Drops(p, ns, a)|] == Drops(p, ns, a)
    ensures b == [] ==> |Drops(p, ns, a + b)| == |Drops(p, ns, a)|
  {
    DropsConcat(p, ns, a, b);
  }

  lemma PutsHead(p: Part, ns: Ns, m: Entries, k: Key, rest: seq<Key>)
    requires k in m && forall j :: j in rest ==> j in m
    ensures forall j :: j in [k] + rest ==> j in m
    ensures Puts(p, ns, m, [k] + rest) == [Put(p, ns, k, m[k])] + Puts(p, ns, m, rest)
  {
    assert ([k] + rest)[1..] == rest;
  }

  lemma {:induction false} PutsConcat(p: Part, ns: Ns, m: Entries, a: seq<Key>, b: seq<Key>)
    requires (forall k :: k in a ==> k in m) && (forall k :: k in b ==> k in m)
    ensures Puts(p, ns, m, a + b) == Puts(p, ns, m, a) + Puts(p, ns, m, b)
    decreases |a|
  {
    if a == [] {
      assert a + b == b;
    } else {
      var k, rest := a[0], a[1..];
      PutsConcat(p, ns, m, rest, b);
      PutsHead(p, ns, m, k, rest + b);
      assert a + b == [k] + (rest + b);
      Assoc3([Put(p, ns, k, m[k])], Puts(p, ns, m, rest), Puts(p, ns, m, b));
    }
  }

  lemma Assoc3<T>(a: seq<T>, b: seq<T>, c: seq<T>)
    ensures a + b + c == a + (b + c)
  {
  }

  // Some order of the namespaces' entries that nothing failing depends on.
  lemma AnyOrder(d: Disk) returns (env: Env)
    ensures Orders(d, env) && env.copyAt == None
  {
    var np := ListAll(d.nvs.pool.Keys);
    var nsh := ListAll(d.nvs.shadow.Keys);
    var dp := ListAll(d.data.pool.Keys);
    var dsh := ListAll(d.data.shadow.Keys);
    env := Env(np, nsh, dp, dsh, np, nsh, None, false, false, false, 0);
  }

  lemma Snoc(base: Disk, log: seq<Write>, w: Write)
    ensures After(base, log + [w]) == Apply(After(base, log), w)
  {
    AfterConcat(base, log, [w]);
    assert After(After(base, log), [w]) == After(Apply(After(base, log), w), [w][1..]);
  }

  /** `log` is every write since power came on from `base`; `part` is s_part. */
  class Partitions {
    ghost const base: Disk
    var disk: Disk
    var part: Part
    ghost var log: seq<Write>

    ghost predicate Valid()
      reads this
    {
      disk == After(base, log)
    }

    constructor PowerOn(d: Disk)
      ensures Valid() && disk == d && log == [] && part == OnNvs
    {
      base := d;
      disk := d;
      part := OnNvs;
      log := [];
    }

    // One write, which the flash may refuse.
    method Try(w: Write) returns (ok: bool)
      requires Valid()
      modifies this`disk, this`log
      ensures Valid() && log == old(log) + if ok then [w] else []
      ensures disk == if ok then Apply(old(disk), w) else old(disk)
    {
      ok := *;
      if ok {
        Snoc(base, log, w);
        disk := Apply(disk, w);
        log := log + [w];
      }
    }

    // Every entry of a namespace, one by one, until a write fails.
    method EraseNs(p: Part, ns: Ns) returns (ok: bool, ghost keys: seq<Key>, ghost n: nat)
      requires Valid()
      modifies this`disk, this`log
      ensures Valid() && Lists(keys, Select(Held(old(disk), p), ns))
      ensures n <= |Drops(p, ns, keys)| && (ok ==> n == |Drops(p, ns, keys)|)
      ensures log == old(log) + Drops(p, ns, keys)[..n]
      ensures Held(disk, if p == OnNvs then OnData else OnNvs) == Held(old(disk), if p == OnNvs then OnData else OnNvs)
      ensures Select(Held(disk, p), Other(ns)) == Select(Held(old(disk), p), Other(ns))
    {
      var todo := Select(Held(disk, p), ns).Keys;
      ghost var ds: seq<Write> := [];
      keys := [];
      ok := true;
      while todo != {} && ok
        invariant Valid() && log == old(log) + ds && ds == Drops(p, ns, keys)
        invariant forall k: Key :: k in Select(Held(old(disk), p), ns) <==> k in todo || k in keys
        invariant Held(disk, if p == OnNvs then OnData else OnNvs) == Held(old(disk), if p == OnNvs then OnData else OnNvs)
        invariant Select(Held(disk, p), Other(ns)) == Select(Held(old(disk), p), Other(ns))
        decreases todo, ok
      {
        var k :| k in todo;
        ok := Try(Drop(p, ns, k));
        if ok {
          DropsConcat(p, ns, keys, [k]);
          keys, ds, todo := keys + [k], ds + [Drop(p, ns, k)], todo - {k};
        }
      }
      n := |ds|;
      ghost var rest := ListAll(todo);
      assert ok ==> rest == [] by { if rest != [] { assert rest[0] in rest; } }
      DropsPrefix(p, ns, keys, rest);
      keys := keys + rest;
    }

    // Every entry of one namespace from nvs to zhac_data.
    method CopyNs(ns: Ns) returns (ok: bool, ghost keys: seq<Key>, ghost n: nat)
      requires Valid()
      modifies this`disk, this`log
      ensures Valid() && Lists(keys, Select(old(disk).nvs, ns)) && disk.nvs == old(disk).nvs
      ensures var ws := Puts(OnData, ns, Select(old(disk).nvs, ns), keys);
              n <= |ws| && (ok ==> n == |ws|) && log == old(log) + ws[..n]
    {
      var m := Select(disk.nvs, ns);
      var todo := m.Keys;
      ghost var ps: seq<Write> := [];
      keys := [];
      ok := true;
      while todo != {} && ok
        invariant forall k: Key :: k in m <==> k in todo || k in keys
        invariant Valid() && log == old(log) + ps && ps == Puts(OnData, ns, m, keys)
        invariant disk.nvs == old(disk).nvs
        decreases todo, ok
      {
        var k :| k in todo;
        ok := Try(Put(OnData, ns, k, m[k]));
        if ok {
          PutsConcat(OnData, ns, m, keys, [k]);
          keys, ps, todo := keys + [k], ps + [Put(OnData, ns, k, m[k])], todo - {k};
        }
      }
      n := |ps|;
      ghost var rest := ListAll(todo);
      assert ok ==> rest == [] by { if rest != [] { assert rest[0] in rest; } }
      PutsConcat(OnData, ns, m, keys, rest);
      keys := keys + rest;
      assert Puts(OnData, ns, m, keys)[..n] == ps;
    }

    // Both namespaces of one partition: n writes in the first, m in the second.
    method EraseBoth(p: Part) returns (ok: bool, ghost a: seq<Key>, ghost b: seq<Key>, ghost n: nat, ghost m: nat)
      requires Valid()
      modifies this`disk, this`log
      ensures Valid() && Lists(a, Held(old(disk), p).pool) && Lists(b, Held(old(disk), p).shadow)
      ensures p == OnData ==> disk.nvs == old(disk).nvs
      ensures n <= |Drops(p, Pool, a)| && m <= |Drops(p, Shadow, b)| && (m > 0 ==> n == |Drops(p, Pool, a)|)
      ensures ok ==> n == |Drops(p, Pool, a)| && m == |Drops(p, Shadow, b)|
      ensures log == old(log) + Drops(p, Pool, a)[..n] + Drops(p, Shadow, b)[..m]
    {
      m := 0;
      ok, a, n := EraseNs(p, Pool);
      if ok {
        ok, b, m := EraseNs(p, Shadow);
      } else {
        b := ListAll(Held(old(disk), p).shadow.Keys);
      }
    }

    // Clears what zhac_data holds, "done" first.
    method ClearCopy() returns (ok: bool, ghost env: Env, ghost n: nat)
      requires Valid()
      modifies this`disk, this`log
      ensures Valid() && Orders(old(disk), env) && env.copyAt == None && disk.nvs == old(disk).nvs
      ensures n <= |ClearWrites(env)| && (ok ==> n == |ClearWrites(env)|) && log == old(log) + ClearWrites(env)[..n]
    {
      env := AnyOrder(disk);
      n := 0;
      ok := Try(ClearDone);
      if ok {
        ghost var a, b, na, nb;
        ok, a, b, na, nb := EraseBoth(OnData);
        ClearPrefix(old(log), env, a, b, na, nb);
        env := env.(dataPool := a, dataShadow := b);
        n := 1 + na + nb;
      }
    }

    // Both namespaces: n writes in the first, m in the second.
    method CopyBoth() returns (ok: bool, ghost a: seq<Key>, ghost b: seq<Key>, ghost n: nat, ghost m: nat)
      requires Valid()
      modifies this`disk, this`log
      ensures Valid() && Lists(a, old(disk).nvs.pool) && Lists(b, old(disk).nvs.shadow) && disk.nvs == old(disk).nvs
      ensures var wa, wb := Puts(OnData, Pool, old(disk).nvs.pool, a), Puts(OnData, Shadow, old(disk).nvs.shadow, b);
              && n <= |wa| && m <= |wb| && (m > 0 ==> n == |wa|) && (ok ==> n == |wa| && m == |wb|)
              && log == old(log) + wa[..n] + wb[..m]
    {
      m := 0;
      ok, a, n := CopyNs(Pool);
      if ok {
        ok, b, m := CopyNs(Shadow);
      } else {
        b := ListAll(old(disk).nvs.shadow.Keys);
      }
    }

    // Copies both namespaces; `d` is the disk the copy started from.
    method FillCopy(ghost d: Disk, ghost env0: Env) returns (ok: bool, ghost env: Env, ghost n: nat)
      requires Valid() && Orders(d, env0) && env0.copyAt == None && disk.nvs == d.nvs
      modifies this`disk, this`log
      ensures Valid() && Orders(d, env) && env.copyAt == None && disk.nvs == d.nvs
      ensures ClearWrites(env) == ClearWrites(env0)
      ensures n <= |FillWrites(d, env)| && (ok ==> n == |FillWrites(d, env)|) && log == old(log) + FillWrites(d, env)[..n]
    {
      ghost var a, b, na, nb;
      ok, a, b, na, nb := CopyBoth();
      env := env0.(nvsPool := a, nvsShadow := b);
      n := na + nb;
      Regroup2(old(log), Puts(OnData, Pool, d.nvs.pool, a), Puts(OnData, Shadow, d.nvs.shadow, b), na, nb);
    }

    method SealCopy(sum: Content) returns (ok: bool, ghost n: nat)
      requires Valid()
      modifies this`disk, this`log
      ensures Valid() && n <= 2 && (ok <==> n == 2) && log == old(log) + [SetSrc(sum), SetDone][..n]
    {
      n := 0;
      ok := Try(SetSrc(sum));
      if ok {
        n := 1;
        ok := Try(SetDone);
        if ok { n := 2; }
      }
    }

    // The copy's three stages: n writes of clearing, m of filling, k of sealing.
    method RunCopy() returns (ok: bool, ghost env: Env, ghost n: nat, ghost m: nat, ghost k: nat)
      requires Valid()
      modifies this`disk, this`log
      ensures Valid() && Orders(old(disk), env) && env.copyAt == None
      ensures n <= |ClearWrites(env)| && m <= |FillWrites(old(disk), env)| && k <= 2 && (ok <==> k == 2)
      ensures (m > 0 || k > 0 ==> n == |ClearWrites(env)|) && (k > 0 ==> m == |FillWrites(old(disk), env)|)
      ensures log == old(log) + ClearWrites(env)[..n] + FillWrites(old(disk), env)[..m] + [SetSrc(old(disk).nvs), SetDone][..k]
    {
      ghost var d := disk;
      n, m, k := 0, 0, 0;
      ok, env, n := ClearCopy();
      if ok {
        ok, env, m := FillCopy(d, env);
        if ok { ok, k := SealCopy(disk.nvs); }
      }
    }

    // A fresh copy of the store; when it fails, `env` says after how many writes.
    method TakeCopy() returns (ok: bool, ghost env: Env)
      requires Valid()
      modifies this`disk, this`log
      ensures Valid() && Orders(old(disk), env)
      ensures ok ==> env.copyAt == None && log == old(log) + CopyWrites(old(disk), env)
      ensures !ok ==> env.copyAt.Some? && env.copyAt.value < |CopyWrites(old(disk), env)|
      ensures !ok ==> log == old(log) + CopyWrites(old(disk), env)[..env.copyAt.value]
    {
      ghost var n, m, k;
      ok, env, n, m, k := RunCopy();
      CopyPrefix(old(disk), env, n, m, k);
      Assoc4(old(log), ClearWrites(env)[..n], FillWrites(old(disk), env)[..m], [SetSrc(old(disk).nvs), SetDone][..k]);
      if !ok {
        ghost var at := env.(copyAt := Some(n + m + k));
        SameCopy(old(disk), env, at);
        env := at;
      } else {
        assert CopyWrites(old(disk), env)[..n + m + k] == CopyWrites(old(disk), env);
      }
    }

    method ConfirmMarks() returns (final: bool, ghost failLive: bool, ghost failMoved: bool)
      requires Valid()
      modifies this`disk, this`log
      ensures Valid() && log == old(log) + ConfirmWrites(old(disk), failLive, failMoved)
      ensures final == (disk.live || disk.moved) && disk.nvs == old(disk).nvs
    {
      failLive, failMoved := false, false;
      if !disk.live {
        var ok := Try(SetLive);
        failLive := !ok;
      }
      if !disk.moved {
        var ok := Try(SetMoved);
        failMoved := !ok;
      }
      final := disk.live || disk.moved;
    }

    method EraseOldCopy(ghost env0: Env) returns (ghost env: Env)
      requires Valid() && Lists(env0.oldPool, disk.nvs.pool) && Lists(env0.oldShadow, disk.nvs.shadow)
      modifies this`disk, this`log
      ensures Valid() && log == old(log) + EraseWrites(env)
      ensures env == env0.(oldPool := env.oldPool, oldShadow := env.oldShadow, erased := env.erased)
      ensures Lists(env.oldPool, old(disk).nvs.pool) && Lists(env.oldShadow, old(disk).nvs.shadow)
    {
      env := env0.(erased := 0);
      if disk.nvs.pool == map[] && disk.nvs.shadow == map[] { return; }
      var ok;
      ghost var a, b, na, nb;
      ok, a, b, na, nb := EraseBoth(OnNvs);
      env := env.(oldPool := a, oldShadow := b, erased := na + nb);
      Regroup2(old(log), Drops(OnNvs, Pool, a), Drops(OnNvs, Shadow, b), na, nb);
    }

    // What follows once the store is on zhac_data.
    method Settle(trial: bool, ghost env0: Env) returns (ghost env: Env)
      requires Valid() && Lists(env0.oldPool, disk.nvs.pool) && Lists(env0.oldShadow, disk.nvs.shadow)
      modifies this`disk, this`log
      ensures Valid() && log == old(log) + SettleWrites(old(disk), trial, env)
      ensures env == env0.(oldPool := env.oldPool, oldShadow := env.oldShadow, erased := env.erased,
                           failLive := env.failLive, failMoved := env.failMoved)
      ensures Lists(env.oldPool, old(disk).nvs.pool) && Lists(env.oldShadow, old(disk).nvs.shadow)
    {
      env := env0;
      if trial { return; }
      ghost var d := disk;
      var final;
      ghost var fl, fm;
      final, fl, fm := ConfirmMarks();
      env := env.(failLive := fl, failMoved := fm);
      AfterConcat(base, old(log), ConfirmWrites(d, fl, fm));
      if final { env := EraseOldCopy(env); }
    }

    // The move is final: both marks again, and the leftovers on nvs.
    method MovedBoot(trial: bool, ghost env0: Env) returns (ghost env: Env)
      requires Valid() && Orders(disk, env0) && (disk.moved || disk.live) && disk.done
      modifies this`disk, this`log
      ensures Valid() && Orders(old(disk), env) && BootOf(old(disk), trial, env).part == Some(OnData)
      ensures log == old(log) + BootOf(old(disk), trial, env).writes
    {
      var final;
      ghost var fl, fm;
      final, fl, fm := ConfirmMarks();
      env := env0.(failLive := fl, failMoved := fm);
      if !trial { env := EraseOldCopy(env); }
      assert log == old(log) + (ConfirmWrites(old(disk), fl, fm) + (if trial then [] else EraseWrites(env)));
    }

    method DataPartSelect(trial: bool) returns (open: bool, ghost env: Env)
      requires Valid()
      modifies this
      ensures Valid() && Orders(old(disk), env)
      ensures log == old(log) + BootOf(old(disk), trial, env).writes
      ensures BootOf(old(disk), trial, env).part == if open then Some(part) else None
    {
      open := true;
      if disk.moved || disk.live {
        part := OnData;
        env := AnyOrder(disk);
        if disk.done { env := MovedBoot(trial, env); } else { open := false; }
      } else if disk.done && disk.src.Some? && (disk.src.value == disk.nvs || disk.nvs.pool == map[]) {
        env := AnyOrder(disk);
        env := KeepCopy(trial, env);
        part := OnData;
      } else {
        env := FreshCopy(trial);
      }
    }

    method KeepCopy(trial: bool, ghost env0: Env) returns (ghost env: Env)
      requires Valid() && Orders(disk, env0) && !disk.moved && !disk.live && CopyCurrent(disk)
      modifies this`disk, this`log
      ensures Valid() && Orders(old(disk), env)
      ensures log == old(log) + BootOf(old(disk), trial, env).writes
      ensures BootOf(old(disk), trial, env).part == Some(OnData)
    {
      ghost var d := disk;
      env := env0.(failCopied := false);
      ghost var ws: seq<Write> := [];
      if disk.copied != disk.src {
        var ok := Try(SetCopied(disk.src.value));
        env := env.(failCopied := !ok);
        ws := if ok then [SetCopied(d.src.value)] else [];
      }
      AfterConcat(base, old(log), ws);
      NoteSafe(d, d.src.value, ws == []);
      env := Settle(trial, env);
      KeepBootIs(d, trial, env, ws);
      Assoc3(old(log), ws, SettleWrites(After(d, ws), trial, env));
    }

    method FreshCopy(trial: bool) returns (ghost env: Env)
      requires Valid() && !disk.moved && !disk.live && !CopyCurrent(disk)
      modifies this
      ensures Valid() && Orders(old(disk), env)
      ensures log == old(log) + CopyBoot(old(disk), trial, env).writes
      ensures CopyBoot(old(disk), trial, env).part == Some(part)
    {
      var copied;
      copied, env := TakeCopy();
      if copied {
        env := FinishCopy(trial, env, old(disk), old(log));
        part := OnData;
      } else {
        part := OnNvs;
      }
    }

    // `d` and `l` are the disk and log the copy started from.
    method FinishCopy(trial: bool, ghost env0: Env, ghost d: Disk, ghost l: seq<Write>) returns (ghost env: Env)
      requires Valid() && Orders(d, env0) && env0.copyAt == None && d == After(base, l) && log == l + CopyWrites(d, env0)
      modifies this`disk, this`log
      ensures Valid() && Orders(d, env) && log == l + CopyBoot(d, trial, env).writes
      ensures CopyBoot(d, trial, env).part == Some(OnData)
    {
      ghost var cw := CopyWrites(d, env0);
      CopyKeepsNvs(d, env0);
      AfterConcat(base, l, cw);
      ghost var note, tail;
      env, note, tail := NoteAndSettle(trial, env0, d, cw);
      CopyBootIs(d, trial, env, note);
      Assoc4(l, cw, note, tail);
    }

    // The record of a whole copy on nvs, then what follows it.
    method NoteAndSettle(trial: bool, ghost env0: Env, ghost d: Disk, ghost cw: seq<Write>)
      returns (ghost env: Env, ghost note: seq<Write>, ghost tail: seq<Write>)
      requires Valid() && Orders(d, env0) && env0.copyAt == None && cw == CopyWrites(d, env0)
      requires disk == After(d, cw) && disk.nvs == d.nvs
      modifies this`disk, this`log
      ensures Valid() && Orders(d, env) && env.copyAt == None && cw == CopyWrites(d, env)
      ensures note == (if env.failCopied then [] else [SetCopied(d.nvs)])
      ensures tail == SettleWrites(After(d, cw + note), trial, env) && log == old(log) + note + tail
    {
      var ok := Try(SetCopied(disk.nvs));
      env := env0.(failCopied := !ok);
      note := if ok then [SetCopied(d.nvs)] else [];
      AfterConcat(d, cw, note);
      ghost var d1 := disk;
      assert d1 == After(After(d, cw), note);
      env := Settle(trial, env);
      tail := SettleWrites(d1, trial, env);
      SameCopy(d, env0, env);
    }
  }

  lemma Regroup2<T>(l: seq<T>, a: seq<T>, b: seq<T>, n: nat, m: nat)
    requires n <= |a| && m <= |b| && (m > 0 ==> n == |a|)
    ensures l + a[..n] + b[..m] == l + (a + b)[..n + m]
  {
    assert (a + b)[..n + m] == a[..n] + b[..m];
  }

  lemma Assoc4<T>(a: seq<T>, b: seq<T>, c: seq<T>, d: seq<T>)
    ensures a + b + c + d == a + (b + c + d)
  {
  }

  lemma ClearPrefix(l: seq<Write>, env: Env, a: seq<Key>, b: seq<Key>, n: nat, m: nat)
    requires n <= |Drops(OnData, Pool, a)| && m <= |Drops(OnData, Shadow, b)| && (m > 0 ==> n == |Drops(OnData, Pool, a)|)
    ensures var ws := ClearWrites(env.(dataPool := a, dataShadow := b));
            && |ws| == 1 + |Drops(OnData, Pool, a)| + |Drops(OnData, Shadow, b)|
            && l + [ClearDone] + Drops(OnData, Pool, a)[..n] + Drops(OnData, Shadow, b)[..m] == l + ws[..1 + n + m]
  {
    var da, db := Drops(OnData, Pool, a), Drops(OnData, Shadow, b);
    Regroup3([ClearDone], da, db, 1, n, m);
    Assoc4(l, [ClearDone], da[..n], db[..m]);
  }

  // A boot that keeps a current copy: what it notes, then what it settles.
  lemma KeepBootIs(d: Disk, trial: bool, env: Env, ws: seq<Write>)
    requires Orders(d, env) && !d.moved && !d.live && CopyCurrent(d)
    requires ws == if d.copied == d.src || env.failCopied then [] else [SetCopied(d.src.value)]
    ensures BootOf(d, trial, env) == Boot(ws + SettleWrites(After(d, ws), trial, env), Some(OnData))
  {
  }

  lemma CopyBootIs(d: Disk, trial: bool, env: Env, note: seq<Write>)
    requires Orders(d, env) && env.copyAt == None && note == (if env.failCopied then [] else [SetCopied(d.nvs)])
    ensures CopyBoot(d, trial, env)
            == Boot(CopyWrites(d, env) + note + SettleWrites(After(d, CopyWrites(d, env) + note), trial, env), Some(OnData))
  {
  }

  // The copying reads only the entry orders of what it reads and clears.
  lemma SameCopy(d: Disk, e1: Env, e2: Env)
    requires Orders(d, e1) && Orders(d, e2)
    requires e1.nvsPool == e2.nvsPool && e1.nvsShadow == e2.nvsShadow && e1.dataPool == e2.dataPool && e1.dataShadow == e2.dataShadow
    ensures CopyWrites(d, e1) == CopyWrites(d, e2)
  {
  }

  // A copy stopped n writes into clearing, m into filling, k into sealing.
  lemma CopyPrefix(d: Disk, env: Env, n: nat, m: nat, k: nat)
    requires Orders(d, env) && n <= |ClearWrites(env)| && m <= |FillWrites(d, env)| && k <= 2
    requires (m > 0 || k > 0 ==> n == |ClearWrites(env)|) && (k > 0 ==> m == |FillWrites(d, env)|)
    ensures n + m + k <= |CopyWrites(d, env)|
    ensures CopyWrites(d, env)[..n + m + k] == ClearWrites(env)[..n] + FillWrites(d, env)[..m] + [SetSrc(d.nvs), SetDone][..k]
    ensures n + m + k == |CopyWrites(d, env)| <==> k == 2
  {
    assert |CopyWrites(d, env)| == |ClearWrites(env)| + |FillWrites(d, env)| + 2;
    Regroup3(ClearWrites(env), FillWrites(d, env), [SetSrc(d.nvs), SetDone], n, m, k);
  }

  lemma Regroup3<T>(a: seq<T>, b: seq<T>, c: seq<T>, n: nat, m: nat, k: nat)
    requires n <= |a| && m <= |b| && k <= |c| && (m > 0 || k > 0 ==> n == |a|) && (k > 0 ==> m == |b|)
    ensures (a + b + c)[..n + m + k] == a[..n] + b[..m] + c[..k]
  {
  }

  lemma CopyKeepsNvs(d: Disk, env: Env)
    requires Orders(d, env)
    ensures After(d, CopyWrites(d, env)).nvs == d.nvs
  {
    ClearAfter(d, env);
    var d1 := After(d, ClearWrites(env));
    FillAfter(d, d1, env);
    AfterConcat(d, ClearWrites(env), FillWrites(d, env));
    var d2 := After(d1, FillWrites(d, env));
    var seal := [SetSrc(d.nvs), SetDone];
    AfterConcat(d, ClearWrites(env) + FillWrites(d, env), seal);
    assert seal[1..] == [SetDone];
    assert After(d2, seal) == After(Apply(d2, seal[0]), seal[1..]);
    assert After(Apply(d2, seal[0]), [SetDone]) == Apply(Apply(d2, seal[0]), SetDone);
  }

  function Other(ns: Ns): Ns { if ns == Pool then Shadow else Pool }
}
