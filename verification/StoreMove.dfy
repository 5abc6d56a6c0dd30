/** The move of DataPart in plain terms: what a boot on trial may touch, what a boot off trial makes
    final and erases, and which partition each boot runs on. */
module StoreMove {
  import opened Wrappers
  import opened DataPart

  // ── Which writes touch what ────────────────────────────────────────

  predicate SparesNvs(w: Write) { (w.Put? || w.Drop?) ==> w.part == OnData }

  predicate NotFinal(w: Write) { !w.SetMoved? && !w.SetLive? }

  ghost predicate AllSpare(ws: seq<Write>) { forall i :: 0 <= i < |ws| ==> SparesNvs(ws[i]) }

  ghost predicate NoneFinal(ws: seq<Write>) { forall i :: 0 <= i < |ws| ==> NotFinal(ws[i]) }

  lemma {:induction false} SparedNvs(d: Disk, ws: seq<Write>)
    requires AllSpare(ws)
    ensures After(d, ws).nvs == d.nvs
    decreases |ws|
  {
    if ws != [] {
      assert SparesNvs(ws[0]);
      assert forall i :: 0 <= i < |ws[1..]| ==> ws[1..][i] == ws[i + 1];
      SparedNvs(Apply(d, ws[0]), ws[1..]);
    }
  }

  lemma {:induction false} MarksStay(d: Disk, ws: seq<Write>)
    requires NoneFinal(ws)
    ensures After(d, ws).moved == d.moved && After(d, ws).live == d.live
    decreases |ws|
  {
    if ws != [] {
      assert NotFinal(ws[0]);
      assert forall i :: 0 <= i < |ws[1..]| ==> ws[1..][i] == ws[i + 1];
      MarksStay(Apply(d, ws[0]), ws[1..]);
    }
  }

  lemma Joins(a: seq<Write>, b: seq<Write>)
    ensures AllSpare(a) && AllSpare(b) ==> AllSpare(a + b)
    ensures NoneFinal(a) && NoneFinal(b) ==> NoneFinal(a + b)
  {
  }

  lemma Prefix(ws: seq<Write>, n: nat)
    ensures AllSpare(ws) ==> AllSpare(Take(ws, n))
    ensures NoneFinal(ws) ==> NoneFinal(Take(ws, n))
  {
  }

  // What a copy writes.
  predicate OfCopy(w: Write) { SparesNvs(w) && NotFinal(w) && !w.SetCopied? }

  ghost predicate AllOfCopy(ws: seq<Write>) { forall i :: 0 <= i < |ws| ==> OfCopy(ws[i]) }

  lemma JoinCopies(a: seq<Write>, b: seq<Write>)
    requires AllOfCopy(a) && AllOfCopy(b)
    ensures AllOfCopy(a + b)
  {
  }

  lemma CopySpares(d: Disk, env: Env)
    requires Orders(d, env)
    ensures AllOfCopy(CopyWrites(d, env)) && AllSpare(CopyWrites(d, env)) && NoneFinal(CopyWrites(d, env))
  {
    var a, b := Drops(OnData, Pool, env.dataPool), Drops(OnData, Shadow, env.dataShadow);
    var x, y := Puts(OnData, Pool, d.nvs.pool, env.nvsPool), Puts(OnData, Shadow, d.nvs.shadow, env.nvsShadow);
    DropsAre(OnData, Pool, env.dataPool);
    DropsAre(OnData, Shadow, env.dataShadow);
    PutsAre(OnData, Pool, d.nvs.pool, env.nvsPool);
    PutsAre(OnData, Shadow, d.nvs.shadow, env.nvsShadow);
    JoinCopies([ClearDone], a);
    JoinCopies([ClearDone] + a, b);
    JoinCopies(x, y);
    JoinCopies(ClearWrites(env), FillWrites(d, env));
    JoinCopies(ClearWrites(env) + FillWrites(d, env), [SetSrc(d.nvs), SetDone]);
    OfCopies(CopyWrites(d, env));
  }

  lemma OfCopies(ws: seq<Write>)
    requires AllOfCopy(ws)
    ensures AllSpare(ws) && NoneFinal(ws)
  {
    forall i | 0 <= i < |ws| ensures SparesNvs(ws[i]) && NotFinal(ws[i]) {
      assert OfCopy(ws[i]);
    }
  }

  // ── On trial ───────────────────────────────────────────────────────

  lemma TrialWrites(d: Disk, env: Env)
    requires Orders(d, env)
    ensures AllSpare(BootOf(d, true, env).writes)
    ensures !d.moved && !d.live ==> NoneFinal(BootOf(d, true, env).writes)
  {
    if !d.moved && !d.live && !CopyCurrent(d) {
      var cw := CopyWrites(d, env);
      CopySpares(d, env);
      if env.copyAt.Some? {
        Prefix(cw, env.copyAt.value);
      }
      var note := if env.failCopied then [] else [SetCopied(d.nvs)];
      Joins(cw, note);
      assert (cw + note) + [] == cw + note;
    }
  }

  /** A boot on trial leaves nvs as it was, wherever power is lost, and sets no final mark while
      none is set: the build before can still roll back to its store. */
  lemma TrialKeepsOld(d: Disk, env: Env, n: nat)
    requires Orders(d, env)
    ensures var z := After(d, Take(BootOf(d, true, env).writes, n));
            z.nvs == d.nvs && (!d.moved && !d.live ==> !z.moved && !z.live)
  {
    var ws := BootOf(d, true, env).writes;
    TrialWrites(d, env);
    Prefix(ws, n);
    SparedNvs(d, Take(ws, n));
    if !d.moved && !d.live { MarksStay(d, Take(ws, n)); }
  }

  /** An update that was never confirmed: every boot was on trial. */
  predicate OnTrial(h: seq<Event>) {
    forall i :: 0 <= i < |h| ==> !h[i].Confirm? && (h[i].Start? ==> h[i].trial)
  }

  /** What an event leaves on nvs: an older build its store, a wipe nothing, and a save of this
      build its change when the build stayed on nvs as the copy had failed. */
  ghost function Leaves(s: State, was: Content, e: Event): Content {
    match e
    case OldBuild(c, _) => c
    case WipeNvs => Empty
    case Save(_, _, _) => if s.on == Some(OnNvs) then Edit(was, e) else was
    case _ => was
  }

  ghost function LeftOnNvs(s: State, was: Content, h: seq<Event>): Content
    requires Legal(s, h)
    decreases |h|
  {
    if h == [] then was else LeftOnNvs(Step(s, h[0]), Leaves(s, was, h[0]), h[1..])
  }

  lemma TrialStep(s: State, e: Event)
    requires Possible(s, e) && !e.Confirm? && (e.Start? ==> e.trial) && !s.disk.moved && !s.disk.live
    ensures var z := Step(s, e); !z.disk.moved && !z.disk.live && z.disk.nvs == Leaves(s, s.disk.nvs, e)
  {
    if e.Start? {
      var ws := BootOf(s.disk, true, e.env).writes;
      TrialKeepsOld(s.disk, e.env, if e.cut.Some? then e.cut.value else |ws|);
      assert Take(ws, |ws|) == ws;
    }
  }

  /** Until an update is confirmed no final mark is set, and nvs is what the shipped or an older
      build last left there. */
  lemma {:induction false} TrialRun(s: State, h: seq<Event>)
    requires Legal(s, h) && OnTrial(h) && !s.disk.moved && !s.disk.live
    ensures var z := RunState(s, h).disk; !z.moved && !z.live && z.nvs == LeftOnNvs(s, s.disk.nvs, h)
    decreases |h|
  {
    if h != [] {
      TrialStep(s, h[0]);
      assert forall i :: 0 <= i < |h[1..]| ==> h[1..][i] == h[i + 1];
      TrialRun(Step(s, h[0]), h[1..]);
    }
  }

  // ── Off trial ──────────────────────────────────────────────────────

  function Keys(keys: seq<Key>): set<Key> { set k | k in keys }

  /** The store without the first `n` leftovers: the pool's entries, then the shadow's. */
  function Without(c: Content, pool: seq<Key>, shadow: seq<Key>, n: nat): Content {
    Content(c.pool - Keys(Take(pool, n)), c.shadow - Keys(if n <= |pool| then [] else Take(shadow, n - |pool|)))
  }

  lemma {:induction false} DropsErase(d: Disk, ns: Ns, keys: seq<Key>)
    ensures After(d, Drops(OnNvs, ns, keys)) == d.(nvs := Replace(d.nvs, ns, Select(d.nvs, ns) - Keys(keys)))
    decreases |keys|
  {
    if keys == [] {
      assert Select(d.nvs, ns) - Keys(keys) == Select(d.nvs, ns);
    } else {
      var d1 := Apply(d, Drop(OnNvs, ns, keys[0]));
      DropsErase(d1, ns, keys[1..]);
      assert Drops(OnNvs, ns, keys)[1..] == Drops(OnNvs, ns, keys[1..]);
      KeysNext(keys);
      assert Select(d1.nvs, ns) - Keys(keys[1..]) == Select(d.nvs, ns) - Keys(keys);
    }
  }

  lemma KeysNext(keys: seq<Key>)
    requires keys != []
    ensures Keys(keys) == {keys[0]} + Keys(keys[1..])
  {
  }

  lemma {:induction false} DropsTake(p: Part, ns: Ns, keys: seq<Key>, n: nat)
    ensures |Drops(p, ns, keys)| == |keys| && Take(Drops(p, ns, keys), n) == Drops(p, ns, Take(keys, n))
    decreases |keys|
  {
    if keys != [] {
      if n > 0 {
        DropsTake(p, ns, keys[1..], n - 1);
        assert Take(keys, n)[1..] == Take(keys[1..], n - 1);
        assert Take(Drops(p, ns, keys), n) == [Drop(p, ns, keys[0])] + Take(Drops(p, ns, keys[1..]), n - 1);
      } else {
        DropsTake(p, ns, keys[1..], 0);
      }
    }
  }

  lemma TakeConcat<T>(a: seq<T>, b: seq<T>, n: nat)
    ensures Take(a + b, n) == Take(a, n) + if n <= |a| then [] else Take(b, n - |a|)
  {
  }

  lemma EraseWritesAre(env: Env, pool: seq<Key>, shadow: seq<Key>)
    requires pool == Take(env.oldPool, env.erased)
    requires shadow == if env.erased <= |env.oldPool| then [] else Take(env.oldShadow, env.erased - |env.oldPool|)
    ensures EraseWrites(env) == Drops(OnNvs, Pool, pool) + Drops(OnNvs, Shadow, shadow)
  {
    var n := env.erased;
    DropsTake(OnNvs, Pool, env.oldPool, n);
    DropsTake(OnNvs, Shadow, env.oldShadow, if n <= |env.oldPool| then 0 else n - |env.oldPool|);
    TakeConcat(Drops(OnNvs, Pool, env.oldPool), Drops(OnNvs, Shadow, env.oldShadow), n);
  }

  lemma EraseIs(d: Disk, env: Env)
    ensures After(d, EraseWrites(env)) == d.(nvs := Without(d.nvs, env.oldPool, env.oldShadow, env.erased))
  {
    var pool := Take(env.oldPool, env.erased);
    var shadow := if env.erased <= |env.oldPool| then [] else Take(env.oldShadow, env.erased - |env.oldPool|);
    EraseWritesAre(env, pool, shadow);
    BothErased(d, pool, shadow);
  }

  lemma BothErased(d: Disk, pool: seq<Key>, shadow: seq<Key>)
    ensures After(d, Drops(OnNvs, Pool, pool) + Drops(OnNvs, Shadow, shadow)) ==
            d.(nvs := Content(d.nvs.pool - Keys(pool), d.nvs.shadow - Keys(shadow)))
  {
    AfterConcat(d, Drops(OnNvs, Pool, pool), Drops(OnNvs, Shadow, shadow));
    DropsErase(d, Pool, pool);
    DropsErase(After(d, Drops(OnNvs, Pool, pool)), Shadow, shadow);
  }

  /** With every leftover erased nothing of the store is left on nvs. */
  lemma AllErased(d: Disk, env: Env)
    requires Orders(d, env) && env.erased >= |env.oldPool| + |env.oldShadow|
    ensures Without(d.nvs, env.oldPool, env.oldShadow, env.erased) == Empty
  {
  }

  lemma ConfirmIs(d: Disk, fl: bool, fm: bool)
    ensures After(d, ConfirmWrites(d, fl, fm)) == d.(live := d.live || !fl, moved := d.moved || !fm)
  {
    var a := if d.live || fl then [] else [SetLive];
    var b := if d.moved || fm then [] else [SetMoved];
    AfterConcat(d, a, b);
  }

  // Settled: the marks that did not fail are set, and then the leftovers go.
  function SettledAs(d: Disk, env: Env): Disk {
    var live, moved := d.live || !env.failLive, d.moved || !env.failMoved;
    d.(live := live, moved := moved,
       nvs := if live || moved then Without(d.nvs, env.oldPool, env.oldShadow, env.erased) else d.nvs)
  }

  lemma SettleIs(d: Disk, env: Env)
    ensures After(d, SettleWrites(d, false, env)) == SettledAs(d, env)
  {
    var cw := ConfirmWrites(d, env.failLive, env.failMoved);
    ConfirmIs(d, env.failLive, env.failMoved);
    EraseIs(After(d, cw), env);
    AfterConcat(d, cw, EraseWrites(env));
  }

  /** The disk after a boot that kept the copy it has, or took a new one: the copy, its origin and
      "done" on zhac_data, and the record of it on nvs unless that failed. */
  function Copied(d: Disk, keep: bool, failCopied: bool): Disk {
    var e := if keep then d else d.(data := d.nvs, src := Some(d.nvs), done := true);
    if failCopied then e else e.(copied := e.src)
  }

  // What a boot does before it settles.
  lemma CopiedIs(d: Disk, trial: bool, env: Env) returns (ws: seq<Write>)
    requires Orders(d, env) && !d.moved && !d.live && Marks(d)
    requires CopyCurrent(d) || env.copyAt == None
    ensures BootOf(d, trial, env) == Boot(ws + SettleWrites(After(d, ws), trial, env), Some(OnData))
    ensures After(d, ws) == Copied(d, CopyCurrent(d), env.failCopied)
  {
    if CopyCurrent(d) {
      ws := if d.copied == d.src || env.failCopied then [] else [SetCopied(d.src.value)];
      KeepBootIs(d, trial, env, ws);
      NoteSafe(d, d.src.value, ws == []);
    } else {
      var cw := CopyWrites(d, env);
      CopySafe(d, env);
      var note := if env.failCopied then [] else [SetCopied(d.nvs)];
      NoteSafe(After(d, cw), d.nvs, env.failCopied);
      AfterConcat(d, cw, note);
      CopyBootIs(d, trial, env, note);
      ws := cw + note;
    }
  }

  /** A boot with a final mark runs on zhac_data, repeats the mark that is missing and, off trial,
      erases what is left on nvs; with no whole copy there it is shut and writes nothing. */
  lemma MovedBootIs(d: Disk, trial: bool, env: Env)
    requires Orders(d, env) && (d.moved || d.live)
    ensures var b := BootOf(d, trial, env);
            if !d.done then b == Boot([], None)
            else
              && b.part == Some(OnData)
              && After(d, b.writes) ==
                 if trial then d.(live := d.live || !env.failLive, moved := d.moved || !env.failMoved) else SettledAs(d, env)
  {
    if d.done {
      var cw := ConfirmWrites(d, env.failLive, env.failMoved);
      ConfirmIs(d, env.failLive, env.failMoved);
      EraseIs(After(d, cw), env);
      AfterConcat(d, cw, EraseWrites(env));
      assert cw + [] == cw;
    }
  }

  /** A boot without one keeps a whole copy of what nvs holds, or of an nvs that was wiped since,
      and else takes a new one, all of whose writes were made; it runs on zhac_data and, off trial,
      sets the marks that can be set and erases what nvs held once one of them is. */
  lemma CopiedBootIs(d: Disk, trial: bool, env: Env)
    requires Orders(d, env) && Marks(d) && !d.moved && !d.live
    ensures var b, keep := BootOf(d, trial, env), d.done && (d.src == Some(d.nvs) || d.nvs.pool == map[]);
            keep || env.copyAt == None ==>
              && b.part == Some(OnData)
              && After(d, b.writes) ==
                 if trial then Copied(d, keep, env.failCopied) else SettledAs(Copied(d, keep, env.failCopied), env)
  {
    if CopyCurrent(d) || env.copyAt == None {
      var ws := CopiedIs(d, trial, env);
      var d1 := After(d, ws);
      AfterConcat(d, ws, SettleWrites(d1, trial, env));
      if !trial { SettleIs(d1, env); }
    }
  }

  lemma {:induction false} PutsLength(p: Part, ns: Ns, m: Entries, keys: seq<Key>)
    requires forall k :: k in keys ==> k in m
    ensures |Puts(p, ns, m, keys)| == |keys|
    decreases |keys|
  {
    if keys != [] { PutsLength(p, ns, m, keys[1..]); }
  }

  /** A copy that failed short of its last write leaves the store on nvs, as it was. */
  lemma FailedCopyIs(d: Disk, trial: bool, env: Env)
    requires Orders(d, env) && !d.moved && !d.live && !(d.done && (d.src == Some(d.nvs) || d.nvs.pool == map[])) && Marks(d)
    requires env.copyAt.Some?
             && env.copyAt.value < 3 + |env.dataPool| + |env.dataShadow| + |env.nvsPool| + |env.nvsShadow|
    ensures var b := BootOf(d, trial, env);
            && b.part == Some(OnNvs) && |b.writes| == env.copyAt.value
            && var z := After(d, b.writes); z.nvs == d.nvs && !z.moved && !z.live && z.copied == d.copied
  {
    DropsTake(OnData, Pool, env.dataPool, 0);
    DropsTake(OnData, Shadow, env.dataShadow, 0);
    PutsLength(OnData, Pool, d.nvs.pool, env.nvsPool);
    PutsLength(OnData, Shadow, d.nvs.shadow, env.nvsShadow);
    var cw := CopyWrites(d, env);
    assert |cw| == 3 + |env.dataPool| + |env.dataShadow| + |env.nvsPool| + |env.nvsShadow|;
    CopySpares(d, env);
    Prefix(cw, env.copyAt.value);
    var ws := cw[..env.copyAt.value];
    SparedNvs(d, ws);
    MarksStay(d, ws);
    assert AllOfCopy(ws);
    CopiedStays(d, ws);
  }

  lemma {:induction false} CopiedStays(d: Disk, ws: seq<Write>)
    requires AllOfCopy(ws)
    ensures After(d, ws).copied == d.copied
    decreases |ws|
  {
    if ws != [] {
      assert OfCopy(ws[0]);
      assert forall i :: 0 <= i < |ws[1..]| ==> ws[1..][i] == ws[i + 1];
      CopiedStays(Apply(d, ws[0]), ws[1..]);
    }
  }

  /** A confirmation at run time sets the marks that can be set, while the store is on zhac_data;
      else it writes nothing. It erases nothing: the next boot off trial does. */
  lemma ConfirmedIs(s: State, fl: bool, fm: bool)
    ensures Step(s, Confirm(fl, fm, None)) ==
            if s.on == Some(OnData) then s.(disk := s.disk.(live := s.disk.live || !fl, moved := s.disk.moved || !fm)) else s
  {
    if s.on == Some(OnData) { ConfirmIs(s.disk, fl, fm); }
  }
}
