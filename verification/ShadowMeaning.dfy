/** What the cache of ShadowPipeline and the flash copy of DeviceShadow hold, in plain terms: which
    report a slot reads, which keys are kept from the cache or from flash, and what a restart gives
    back. */
module ShadowMeaning {
  import opened Wrappers
  import P = ShadowPipeline
  import D = DeviceShadow

  // ── The cache ──────────────────────────────────────────────────────

  /** The number of the last report of key `k` in a list, or the length when there is none. */
  function LastOf(attrs: seq<P.Attr>, k: P.Key): (i: nat)
    ensures i <= |attrs|
    ensures i < |attrs| ==> attrs[i].key == k && forall j :: i < j < |attrs| ==> attrs[j].key != k
    ensures i == |attrs| ==> forall j :: 0 <= j < |attrs| ==> attrs[j].key != k
    decreases |attrs|
  {
    if attrs == [] then 0
    else
      var n := |attrs| - 1;
      if attrs[n].key == k then n
      else
        var i := LastOf(attrs[..n], k);
        if i == n then n + 1 else i
  }

  lemma {:induction false} LastToldIs(attrs: seq<P.Attr>, k: P.Key)
    ensures P.LastTold(attrs, k) == if LastOf(attrs, k) < |attrs| then Some(P.Told(attrs[LastOf(attrs, k)])) else None
    decreases |attrs|
  {
    if attrs != [] { LastToldIs(attrs[..|attrs| - 1], k); }
  }

  /** A slot shows a report: the same key and type, a number by its word and a text whole. */
  predicate Shows(s: P.Slot, a: P.Attr) {
    s.key == a.key && s.typ == a.typ && s.value.word == a.value.word && (s.typ == P.VStr ==> s.value == a.value)
  }

  /** After a list of reports, the cache shows of every key the last one; a slot whose key was not
      reported reads as before, and a key occurs once if it did before. */
  lemma ShowsLast(c: seq<P.Slot>, attrs: seq<P.Attr>, i: nat)
    requires i < |P.Upsert(c, attrs)| && Apart(c)
    requires forall j :: 0 <= j < |c| ==> c[j].key != "action_code" && c[j].key != "pin_code"
    ensures var d := P.Upsert(c, attrs);
            var last := LastOf(attrs, d[i].key);
            && (last < |attrs| ==> Shows(d[i], attrs[last]))
            && (last == |attrs| ==> i < |c| && P.Read(d[i]) == P.Read(c[i]))
    ensures Apart(P.Upsert(c, attrs))
  {
    KeysApart(c, attrs);
    var d := P.Upsert(c, attrs);
    LastToldIs(attrs, d[i].key);
    if i < |c| {
      P.SlotReads(c, attrs, i);
      FirstAt(c, i);
    } else {
      P.AddedReads(c, attrs, i);
    }
  }

  /** No key is in two slots. */
  predicate Apart(c: seq<P.Slot>) {
    forall j, k :: 0 <= j < k < |c| ==> c[j].key != c[k].key
  }

  lemma FirstAt(c: seq<P.Slot>, i: nat)
    requires i < |c| && Apart(c)
    ensures P.FirstSlot(c, c[i].key) == i
  {
  }

  lemma {:induction false} KeysApart(c: seq<P.Slot>, attrs: seq<P.Attr>)
    requires Apart(c)
    ensures Apart(P.Upsert(c, attrs))
    decreases |attrs|
  {
    if attrs != [] {
      var n := |attrs| - 1;
      KeysApart(c, attrs[..n]);
      PutApart(P.Upsert(c, attrs[..n]), attrs[n]);
    }
  }

  lemma PutApart(c: seq<P.Slot>, a: P.Attr)
    requires Apart(c)
    ensures Apart(P.Put(c, a))
  {
  }

  /** The keypad's codes never get into the cache, whatever is reported. */
  lemma {:induction false} CodesStayOut(attrs: seq<P.Attr>, i: nat)
    requires i < |P.Upsert([], attrs)|
    ensures P.Upsert([], attrs)[i].key != "action_code" && P.Upsert([], attrs)[i].key != "pin_code"
    decreases |attrs|
  {
    P.AddedReads([], attrs, i);
  }

  /** A key that is new to the cache joins at the end, while it holds fewer than 32. */
  lemma NewKeyJoins(c: seq<P.Slot>, a: P.Attr)
    requires a.key != "action_code" && a.key != "pin_code" && forall j :: 0 <= j < |c| ==> c[j].key != a.key
    ensures var d := P.Put(c, a);
            if |c| < 32 then |d| == |c| + 1 && d[..|c|] == c && Shows(d[|c|], a) else d == c
  {
  }

  /** The report filter lets exactly the other keys through, while there is room, in order. */
  lemma {:induction false} FilterExactly(attrs: seq<P.Attr>, filtered: seq<P.Key>, room: nat)
    requires |attrs| <= room
    ensures forall a :: a in P.Unfiltered(attrs, filtered, room) <==> a in attrs && a.key !in filtered
    ensures |P.Unfiltered(attrs, filtered, room)| <= |attrs|
    decreases |attrs|
  {
    if attrs != [] {
      var n := |attrs| - 1;
      FilterExactly(attrs[..n], filtered, room);
      assert attrs == attrs[..n] + [attrs[n]];
    }
  }

  // ── Flash ──────────────────────────────────────────────────────────

  /** What goes to flash: every slot but those of the last-seen time and the link quality. */
  lemma {:induction false} FlashHolds(attrs: seq<P.Slot>, more: seq<P.Slot>)
    ensures forall s :: s in D.Serialize(attrs) <==> s in attrs && s.key != "_last_seen" && s.key != "linkquality"
    ensures D.Serialize(attrs + more) == D.Serialize(attrs) + D.Serialize(more)
    decreases |attrs|
  {
    if attrs == [] {
      assert attrs + more == more;
    } else {
      FlashHolds(attrs[1..], more);
      assert (attrs + more)[1..] == attrs[1..] + more;
      assert attrs == [attrs[0]] + attrs[1..];
    }
  }

  /** Settings are kept to eight names a list, the first ones, and else as they are given. */
  lemma SettingsKept(c: D.Config)
    ensures var d := D.Clamp(c);
            && d.filtered <= c.filtered && |d.filtered| == (if |c.filtered| < 8 then |c.filtered| else 8)
            && d.ignored <= c.ignored && |d.ignored| == (if |c.ignored| < 8 then |c.ignored| else 8)
            && d.debounceMs == c.debounceMs && d.throttleMs == c.throttleMs && d.lastSeen == c.lastSeen
            && d.optimistic == c.optimistic && d.occupancy == c.occupancy && d.chosen == c.chosen
  {
  }

  lemma {:induction false} NoSecretsIs(b: D.Blob)
    requires forall i :: 0 <= i < |b| ==> b[i].key != "action_code" && b[i].key != "pin_code"
    ensures D.NoSecrets(b) == b
    decreases |b|
  {
    if b != [] { NoSecretsIs(b[1..]); }
  }

  /** A device whose attributes and settings are on flash comes back after a restart with them: its
      settings, and its cache without last-seen time and link quality, booked as saved. */
  lemma RestartGivesBack(s: D.Sys, x: D.Ieee, cell: D.Cell)
    requires x in s.flash.attrs && s.flash.attrs[x] == D.Serialize(cell.attrs) && D.Serialize(cell.attrs) != []
    requires x in s.flash.configs && s.flash.configs[x] == D.Clamp(cell.config)
    requires forall i :: 0 <= i < |cell.attrs| ==> cell.attrs[i].key != "action_code" && cell.attrs[i].key != "pin_code"
    ensures var z := D.Step(D.Step(s, D.Restart), D.Restore(x));
            && |z.table| == 1 && z.table[0].ieee == x
            && z.table[0].cell == D.Cell(D.Serialize(cell.attrs), D.Clamp(cell.config), false,
                                         Some(D.Serialize(cell.attrs)), Some(D.Clamp(cell.config)))
            && z.flash == s.flash
  {
    var b, c := D.Serialize(cell.attrs), D.Clamp(cell.config);
    FlashHolds(cell.attrs, []);
    forall i | 0 <= i < |b| ensures b[i].key != "action_code" && b[i].key != "pin_code" {
      assert b[i] in cell.attrs;
    }
    RestoredIs(s.flash, x, b, c);
    RestoreIs(D.Step(s, D.Restart), x);
  }

  lemma RestoredIs(f: D.Flash, x: D.Ieee, b: D.Blob, c: D.Config)
    requires x in f.attrs && f.attrs[x] == b != [] && x in f.configs && f.configs[x] == c == D.Clamp(c)
    requires forall i :: 0 <= i < |b| ==> b[i].key != "action_code" && b[i].key != "pin_code" && !D.Volatile(b[i].key)
    ensures D.RestoredCell(D.FreshCell(), f, x) == D.Cell(b, c, false, Some(b), Some(c))
  {
    NoSecretsIs(b);
    D.SerializeAgain(b);
  }

  lemma RestoreIs(s: D.Sys, x: D.Ieee)
    requires s.table == [] && s.job.Free?
    ensures D.Step(s, D.Restore(x)).table == [D.Row(x, D.RestoredCell(D.FreshCell(), s.flash, x))]
    ensures D.Step(s, D.Restore(x)).flash == s.flash
  {
    assert D.Created([], x) == [D.Row(x, D.FreshCell())];
    D.IndexIs([D.Row(x, D.FreshCell())], x, 0);
  }
}
