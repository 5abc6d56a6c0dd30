/** The debounce pipeline of a device's shadow entry
    (components/device_shadow/shadow_pipeline.cpp) and the cache it flushes into
    (`upsert_cache`, `flush_pending_entry_locked` in device_shadow.cpp).

    With debounce on, a report is merged into a buffer of 32 attributes and the buffer is written
    to the cache when the timer runs out. The theorem is that a reader of the cache cannot tell:
    after a flush it reads the keys, their order and their values as if every report had been
    written at once. */
module ShadowPipeline {
  import opened Wrappers

  // ATTR_KEY_MAX is 28 with the terminating NUL; keys are compared as whole strings.
  type Key = k: string | |k| <= 27 witness ""

  datatype ValType = VInt | VBool | VFloat | VStr

  /** The union of an attribute: the word that `int_val` names and the 44 bytes that only
      `str_val` reaches. */
  datatype Payload = Payload(word: int, rest: seq<int>)

  /** One reported attribute. */
  datatype Attr = Attr(key: Key, typ: ValType, value: Payload)

  /** One slot of the cache. */
  datatype Slot = Slot(key: Key, typ: ValType, value: Payload)

  /** What a reader takes from a slot: of a number it never sees `rest`. */
  datatype Reading = Number(key: Key, typ: ValType, n: int) | Text(key: Key, text: Payload)

  predicate Secret(k: Key) {
    k == "action_code" || k == "pin_code"
  }

  // ── The cache ──────────────────────────────────────────────────────

  /** The first slot of key `k`, or the length if there is none. */
  function FirstSlot(s: seq<Slot>, k: Key): (i: nat)
    ensures i <= |s|
    ensures i < |s| ==> s[i].key == k
    ensures forall j :: 0 <= j < i ==> s[j].key != k
  {
    if s == [] then 0 else if s[0].key == k then 0 else
      var i := 1 + FirstSlot(s[1..], k);
      assert forall j :: 1 <= j < i ==> s[j] == s[1..][j - 1];
      i
  }

  /** A slot written over: a number leaves the other bytes of the union alone. */
  function Over(was: Payload, a: Attr): Payload {
    if a.typ == VStr then a.value else Payload(a.value.word, was.rest)
  }

  function Blank(): Payload {
    Payload(0, seq(44, i => 0))
  }

  /** One attribute written to the cache. */
  function Put(s: seq<Slot>, a: Attr): seq<Slot> {
    if Secret(a.key) then s
    else
      var i := FirstSlot(s, a.key);
      if i < |s| then s[i := Slot(s[i].key, a.typ, Over(s[i].value, a))]
      else if |s| < 32 then s + [Slot(a.key, a.typ, Over(Blank(), a))]
      else s
  }

  /** A list of attributes written to the cache, one after the other. */
  function Upsert(s: seq<Slot>, attrs: seq<Attr>): seq<Slot>
    decreases |attrs|
  {
    if attrs == [] then s else Put(Upsert(s, attrs[..|attrs| - 1]), attrs[|attrs| - 1])
  }

  function Read(s: Slot): Reading {
    if s.typ == VStr then Text(s.key, s.value) else Number(s.key, s.typ, s.value.word)
  }

  /** What readers see of a cache: its keys, in order, with their values. */
  function View(s: seq<Slot>): (v: seq<Reading>)
    ensures |v| == |s|
    ensures forall i :: 0 <= i < |s| ==> v[i] == Read(s[i])
  {
    seq(|s|, i requires 0 <= i < |s| => Read(s[i]))
  }

  predicate Has(s: seq<Slot>, k: Key) {
    FirstSlot(s, k) < |s|
  }

  lemma ViewKeys(s: seq<Slot>, t: seq<Slot>)
    requires View(s) == View(t)
    ensures |s| == |t|
    ensures forall i :: 0 <= i < |s| ==> s[i].key == t[i].key && s[i].typ == t[i].typ
  {
    assert |View(s)| == |View(t)|;
    forall i | 0 <= i < |s| ensures s[i].key == t[i].key && s[i].typ == t[i].typ {
      assert View(s)[i] == View(t)[i];
    }
  }

  lemma SameFirst(s: seq<Slot>, t: seq<Slot>, k: Key)
    requires |s| == |t|
    requires forall i :: 0 <= i < |s| ==> s[i].key == t[i].key
    ensures FirstSlot(s, k) == FirstSlot(t, k)
  {
    var i, j := FirstSlot(s, k), FirstSlot(t, k);
    forall m | 0 <= m < i ensures t[m].key != k {
      assert s[m].key == t[m].key;
    }
    forall m | 0 <= m < j ensures s[m].key != k {
      assert s[m].key == t[m].key;
    }
  }

  /** Caches that read the same still do after the same write. */
  lemma PutView(s: seq<Slot>, t: seq<Slot>, a: Attr)
    requires View(s) == View(t)
    ensures View(Put(s, a)) == View(Put(t, a))
  {
    ViewKeys(s, t);
    SameFirst(s, t, a.key);
    var p, q := Put(s, a), Put(t, a);
    assert |p| == |q|;
    forall i | 0 <= i < |p| ensures View(p)[i] == View(q)[i] {
      if i < |s| { assert View(s)[i] == View(t)[i]; }
    }
  }

  lemma {:induction false} UpsertView(s: seq<Slot>, t: seq<Slot>, attrs: seq<Attr>)
    requires View(s) == View(t)
    ensures View(Upsert(s, attrs)) == View(Upsert(t, attrs))
    decreases |attrs|
  {
    if attrs != [] {
      var n := |attrs| - 1;
      UpsertView(s, t, attrs[..n]);
      PutView(Upsert(s, attrs[..n]), Upsert(t, attrs[..n]), attrs[n]);
    }
  }

  lemma UpsertNext(c: seq<Slot>, front: seq<Attr>, a: Attr)
    ensures Upsert(c, front + [a]) == Put(Upsert(c, front), a)
  {
    assert (front + [a])[..|front|] == front;
  }

  lemma {:induction false} UpsertConcat(s: seq<Slot>, a: seq<Attr>, b: seq<Attr>)
    ensures Upsert(s, a + b) == Upsert(Upsert(s, a), b)
    decreases |b|
  {
    if b == [] {
      assert a + b == a;
    } else {
      var front, c := b[..|b| - 1], b[|b| - 1];
      UpsertConcat(s, a, front);
      UpsertNext(s, a + front, c);
      UpsertNext(Upsert(s, a), front, c);
      assert b == front + [c] && a + b == a + front + [c];
    }
  }

  /** Writing `a` leaves the answer for another key alone. */
  lemma PutFirst(s: seq<Slot>, a: Attr, k: Key)
    requires k != a.key
    ensures FirstSlot(Put(s, a), k) == FirstSlot(s, k) || (!Has(s, k) && !Has(Put(s, a), k))
  {
    var p := Put(s, a);
    var i, j := FirstSlot(s, k), FirstSlot(p, k);
    assert forall m :: 0 <= m < |s| ==> p[m].key == s[m].key;
    if i < |s| {
      assert p[i].key == k;
      assert j == i;
    } else {
      assert forall m :: 0 <= m < |p| ==> p[m].key != k;
    }
  }

  /** A write that cannot add a slot: its key is secret, already there, or the cache is full. */
  predicate Settled(s: seq<Slot>, k: Key) {
    Secret(k) || Has(s, k) || |s| >= 32
  }

  lemma PutSettles(s: seq<Slot>, a: Attr, b: Attr)
    requires a.key != b.key && Settled(s, a.key)
    ensures Settled(Put(s, b), a.key)
    ensures Settled(Put(s, a), a.key)
  {
    PutFirst(s, b, a.key);
    var p := Put(s, a);
    if Has(s, a.key) && !Secret(a.key) {
      assert p[FirstSlot(s, a.key)].key == a.key;
      assert Has(p, a.key);
    }
  }

  // Writes of two keys that the cache knows.
  lemma PutsOver(s: seq<Slot>, a: Attr, b: Attr)
    requires a.key != b.key && Has(s, a.key) && !Secret(a.key) && !Secret(b.key)
    ensures Put(Put(s, b), a) == Put(Put(s, a), b)
  {
    PutFirst(s, b, a.key);
    PutFirst(s, a, b.key);
  }

  /** A settled write and a write of another key may trade places. */
  lemma PutsCommute(s: seq<Slot>, a: Attr, b: Attr)
    requires a.key != b.key && Settled(s, a.key)
    ensures Put(Put(s, b), a) == Put(Put(s, a), b)
  {
    if !Secret(a.key) && !Secret(b.key) {
      if Has(s, a.key) {
        PutsOver(s, a, b);
      } else {
        PutFirst(s, b, a.key);
      }
    }
  }

  /** A settled write moves in front of a list that does not name its key. */
  lemma {:induction false} PutPasses(s: seq<Slot>, attrs: seq<Attr>, a: Attr)
    requires Settled(s, a.key)
    requires forall i :: 0 <= i < |attrs| ==> attrs[i].key != a.key
    ensures Put(Upsert(s, attrs), a) == Upsert(Put(s, a), attrs)
    ensures Settled(Upsert(s, attrs), a.key)
    decreases |attrs|
  {
    if attrs != [] {
      var n := |attrs| - 1;
      PutPasses(s, attrs[..n], a);
      var t := Upsert(s, attrs[..n]);
      PutsCommute(t, a, attrs[n]);
      PutSettles(t, a, attrs[n]);
    }
  }

  /** Written twice, a key reads as if only the second write had been. */
  lemma PutTwice(s: seq<Slot>, p: Attr, a: Attr)
    requires p.key == a.key
    ensures View(Put(Put(s, p), a)) == View(Put(s, a))
    ensures Settled(Put(s, p), p.key)
  {
    var i := FirstSlot(s, p.key);
    var t := Put(s, p);
    if !Secret(p.key) && (i < |s| || |s| < 32) {
      assert t[i].key == p.key;
      assert FirstSlot(t, p.key) == i;
      var u, v := Put(t, a), Put(s, a);
      assert |u| == |v|;
      forall j | 0 <= j < |u| ensures View(u)[j] == View(v)[j] {
      }
    }
  }

  // ── The debounce buffer ────────────────────────────────────────────

  /** The first pending attribute of key `k`, or the length. */
  function FirstAttr(p: seq<Attr>, k: Key): (i: nat)
    ensures i <= |p|
    ensures i < |p| ==> p[i].key == k
    ensures forall j :: 0 <= j < i ==> p[j].key != k
  {
    if p == [] then 0 else if p[0].key == k then 0 else
      var i := 1 + FirstAttr(p[1..], k);
      assert forall j :: 1 <= j < i ==> p[j] == p[1..][j - 1];
      i
  }

  /** One attribute merged into the buffer. */
  function MergeOne(p: seq<Attr>, a: Attr): seq<Attr> {
    var i := FirstAttr(p, a.key);
    if i < |p| then p[i := a] else if |p| < 32 then p + [a] else p
  }

  function Merge(p: seq<Attr>, attrs: seq<Attr>): seq<Attr>
    decreases |attrs|
  {
    if attrs == [] then p else MergeOne(Merge(p, attrs[..|attrs| - 1]), attrs[|attrs| - 1])
  }

  /** Buffers are built by merging, so no key is in one twice. */
  predicate Distinct(p: seq<Attr>) {
    forall i, j :: 0 <= i < j < |p| ==> p[i].key != p[j].key
  }

  /** The buffer is full and does not know the key: the report is lost. */
  predicate Dropped(p: seq<Attr>, a: Attr) {
    |p| >= 32 && FirstAttr(p, a.key) == |p|
  }

  /** The reports of `attrs` that the buffer keeps. */
  function Kept(p: seq<Attr>, attrs: seq<Attr>): seq<Attr>
    decreases |attrs|
  {
    if attrs == [] then []
    else
      var n := |attrs| - 1;
      Kept(p, attrs[..n]) + (if Dropped(Merge(p, attrs[..n]), attrs[n]) then [] else [attrs[n]])
  }

  lemma MergeOneDistinct(p: seq<Attr>, a: Attr)
    requires Distinct(p)
    ensures Distinct(MergeOne(p, a))
  {
  }

  lemma {:induction false} MergeDistinct(p: seq<Attr>, attrs: seq<Attr>)
    requires Distinct(p)
    ensures Distinct(Merge(p, attrs))
    decreases |attrs|
  {
    if attrs != [] {
      MergeDistinct(p, attrs[..|attrs| - 1]);
      MergeOneDistinct(Merge(p, attrs[..|attrs| - 1]), attrs[|attrs| - 1]);
    }
  }

  /** A list with one attribute in the middle, written one after the other. */
  lemma UpsertAround(s: seq<Slot>, before: seq<Attr>, a: Attr, after: seq<Attr>)
    ensures Upsert(s, before + [a] + after) == Upsert(Put(Upsert(s, before), a), after)
  {
    UpsertConcat(s, before + [a], after);
    UpsertNext(s, before, a);
  }

  /** A newer value put in the place of the older one, then flushed, reads as if it had been
      written after the whole buffer. */
  lemma ReplaceIsPut(s: seq<Slot>, p: seq<Attr>, a: Attr, i: nat)
    requires Distinct(p) && i < |p| && p[i].key == a.key
    ensures View(Upsert(s, p[i := a])) == View(Put(Upsert(s, p), a))
  {
    var before, after := p[..i], p[i + 1..];
    assert p == before + [p[i]] + after;
    assert p[i := a] == before + [a] + after;
    UpsertAround(s, before, p[i], after);
    UpsertAround(s, before, a, after);
    var c := Upsert(s, before);
    PutTwice(c, p[i], a);
    forall j | 0 <= j < |after| ensures after[j].key != a.key {
      assert after[j] == p[i + 1 + j];
    }
    PutPasses(Put(c, p[i]), after, a);
    UpsertView(Put(Put(c, p[i]), a), Put(c, a), after);
  }

  lemma MergeOneThenFlush(s: seq<Slot>, p: seq<Attr>, a: Attr)
    requires Distinct(p)
    ensures View(Upsert(s, MergeOne(p, a))) ==
            (if Dropped(p, a) then View(Upsert(s, p)) else View(Put(Upsert(s, p), a)))
  {
    var i := FirstAttr(p, a.key);
    if i < |p| {
      ReplaceIsPut(s, p, a, i);
    } else if |p| < 32 {
      assert (p + [a])[..|p|] == p;
    }
  }

  /** For every cache, buffer and list of reports: merging and then flushing reads like flushing
      first and writing every report at once, minus the reports of keys that came when the buffer
      held 32 others. */
  lemma {:induction false} DebounceIsDirect(s: seq<Slot>, p: seq<Attr>, attrs: seq<Attr>)
    requires Distinct(p)
    ensures View(Upsert(s, Merge(p, attrs))) == View(Upsert(Upsert(s, p), Kept(p, attrs)))
    decreases |attrs|
  {
    if attrs != [] {
      var n := |attrs| - 1;
      var q, kept, a := Merge(p, attrs[..n]), Kept(p, attrs[..n]), attrs[n];
      DebounceIsDirect(s, p, attrs[..n]);
      MergeDistinct(p, attrs[..n]);
      MergeOneThenFlush(s, q, a);
      var direct := Upsert(Upsert(s, p), kept);
      if Dropped(q, a) {
        assert kept + [] == kept;
      } else {
        assert (kept + [a])[..|kept|] == kept;
        PutView(Upsert(s, q), direct, a);
      }
    }
  }

  /** The keys a list of attributes names. */
  function KeysOf(attrs: seq<Attr>): set<Key> {
    set a | a in attrs :: a.key
  }

  lemma {:induction false} MergeKeys(p: seq<Attr>, attrs: seq<Attr>)
    ensures KeysOf(Merge(p, attrs)) <= KeysOf(p) + KeysOf(attrs)
    decreases |attrs|
  {
    if attrs != [] {
      var n := |attrs| - 1;
      MergeKeys(p, attrs[..n]);
      var q, a := Merge(p, attrs[..n]), attrs[n];
      forall b | b in MergeOne(q, a) ensures b.key in KeysOf(p) + KeysOf(attrs) {
        if b != a {
          assert b in q;
          assert b.key in KeysOf(q);
        }
      }
    }
  }

  /** A buffer of distinct keys is as long as its set of keys. */
  lemma {:induction false} DistinctCount(p: seq<Attr>)
    requires Distinct(p)
    ensures |KeysOf(p)| == |p|
    decreases |p|
  {
    if p == [] {
      assert KeysOf(p) == {};
    } else {
      var n := |p| - 1;
      DistinctCount(p[..n]);
      assert p[n].key !in KeysOf(p[..n]);
      assert p == p[..n] + [p[n]];
      assert KeysOf(p) == KeysOf(p[..n]) + {p[n].key};
    }
  }

  lemma NotDropped(p: seq<Attr>, attrs: seq<Attr>, n: nat)
    requires Distinct(p) && n < |attrs|
    requires |KeysOf(p) + KeysOf(attrs)| <= 32
    ensures !Dropped(Merge(p, attrs[..n]), attrs[n])
  {
    var q, a := Merge(p, attrs[..n]), attrs[n];
    MergeDistinct(p, attrs[..n]);
    DistinctCount(q);
    MergeKeys(p, attrs[..n]);
    assert KeysOf(attrs[..n]) <= KeysOf(attrs);
    assert a in attrs;
    if FirstAttr(q, a.key) == |q| {
      assert a.key !in KeysOf(q);
      assert KeysOf(q) + {a.key} <= KeysOf(p) + KeysOf(attrs);
      SubsetSize(KeysOf(q) + {a.key}, KeysOf(p) + KeysOf(attrs));
    }
  }

  lemma KeptNext(p: seq<Attr>, front: seq<Attr>, a: Attr)
    ensures Kept(p, front + [a]) == if Dropped(Merge(p, front), a) then Kept(p, front) else Kept(p, front) + [a]
  {
    assert (front + [a])[..|front|] == front;
  }

  predicate DroppedAt(p: seq<Attr>, attrs: seq<Attr>, n: nat) {
    n < |attrs| && Dropped(Merge(p, attrs[..n]), attrs[n])
  }

  lemma KeptOn(p: seq<Attr>, front: seq<Attr>, a: Attr)
    requires Kept(p, front) == front && !Dropped(Merge(p, front), a)
    ensures Kept(p, front + [a]) == front + [a]
  {
    KeptNext(p, front, a);
  }

  lemma {:induction false} KeptAll(p: seq<Attr>, attrs: seq<Attr>, front: seq<Attr>)
    requires front <= attrs && forall n: nat :: !DroppedAt(p, attrs, n)
    ensures Kept(p, front) == front
    decreases |front|
  {
    if front != [] {
      var n := |front| - 1;
      var f, a := front[..n], front[n];
      KeptAll(p, attrs, f);
      assert !DroppedAt(p, attrs, n) && attrs[..n] == f && attrs[n] == a;
      KeptOn(p, f, a);
      assert front == f + [a];
    }
  }

  lemma KeptEach(p: seq<Attr>, attrs: seq<Attr>)
    requires Distinct(p) && |KeysOf(p) + KeysOf(attrs)| <= 32
    ensures Kept(p, attrs) == attrs
  {
    forall n: nat ensures !DroppedAt(p, attrs, n) {
      if n < |attrs| { NotDropped(p, attrs, n); }
    }
    KeptAll(p, attrs, attrs);
  }

  /** With at most 32 different keys waiting, debounce is invisible: the merged reports, flushed,
      read exactly as the reports written one by one. */
  lemma DebounceRefinesDirect(s: seq<Slot>, attrs: seq<Attr>)
    requires |KeysOf(attrs)| <= 32
    ensures View(Upsert(s, Merge([], attrs))) == View(Upsert(s, attrs))
  {
    assert KeysOf([]) + KeysOf(attrs) == KeysOf(attrs);
    KeptEach([], attrs);
    DebounceIsDirect(s, [], attrs);
    assert Upsert(s, []) == s;
  }

  /** What a reader takes from a slot that holds the report. */
  function Told(a: Attr): Reading {
    if a.typ == VStr then Text(a.key, a.value) else Number(a.key, a.typ, a.value.word)
  }

  /** A report that no reader would notice: its key is secret, or the cache already reads so, or it
      is full of other keys. */
  predicate Unnoticed(c: seq<Slot>, a: Attr) {
    || Secret(a.key)
    || (if Has(c, a.key) then Read(c[FirstSlot(c, a.key)]) == Told(a) else |c| >= 32)
  }

  lemma PutUnnoticed(c: seq<Slot>, a: Attr)
    ensures View(Put(c, a)) == View(c) <==> Unnoticed(c, a)
  {
    var d, i := Put(c, a), FirstSlot(c, a.key);
    if !Secret(a.key) && i < |c| {
      assert Read(d[i]) == Told(a);
      assert View(d)[i] == Told(a) && View(c)[i] == Read(c[i]);
      if Read(c[i]) == Told(a) {
        assert forall j :: 0 <= j < |c| ==> View(d)[j] == View(c)[j];
      }
    } else if !Secret(a.key) && |c| < 32 {
      assert |View(d)| == |c| + 1;
    }
  }

  /** A report that comes when the buffer is full of other keys is lost; the flushed cache reads like
      the one written at once exactly when nobody would notice the report there. */
  lemma DropMatters(s: seq<Slot>, p: seq<Attr>, a: Attr)
    requires Distinct(p) && Dropped(p, a)
    ensures View(Upsert(s, MergeOne(p, a))) == View(Put(Upsert(s, p), a)) <==> Unnoticed(Upsert(s, p), a)
  {
    MergeOneThenFlush(s, p, a);
    PutUnnoticed(Upsert(s, p), a);
  }

  // ── Exactly when a list reads differently ──────────────────────────

  predicate Waits(p: seq<Attr>, k: Key) {
    FirstAttr(p, k) < |p|
  }

  lemma MergeOneWaits(p: seq<Attr>, a: Attr, k: Key)
    ensures Waits(MergeOne(p, a), k) <==> Waits(p, k) || (k == a.key && !Dropped(p, a))
  {
    var q, i := MergeOne(p, a), FirstAttr(p, k);
    if i < |p| {
      assert q[i].key == k;
    } else if k == a.key && |p| < 32 {
      assert q[|p|].key == k;
    }
  }

  lemma MergeNext(p: seq<Attr>, front: seq<Attr>, a: Attr)
    ensures Merge(p, front + [a]) == MergeOne(Merge(p, front), a)
  {
    assert (front + [a])[..|front|] == front;
  }

  lemma {:induction false} StaysLost(p: seq<Attr>, attrs: seq<Attr>, n: nat, m: nat)
    requires n < m <= |attrs| && Dropped(Merge(p, attrs[..n]), attrs[n])
    ensures !Waits(Merge(p, attrs[..m]), attrs[n].key) && |Merge(p, attrs[..m])| >= 32
    decreases m
  {
    var front, a := attrs[..m - 1], attrs[m - 1];
    assert attrs[..m] == front + [a];
    MergeNext(p, front, a);
    if n < m - 1 { StaysLost(p, attrs, n, m - 1); }
    MergeOneWaits(Merge(p, front), a, attrs[n].key);
  }

  /** A key that finds the buffer full never gets into it before the next flush. */
  lemma LostForever(p: seq<Attr>, attrs: seq<Attr>, n: nat)
    requires n < |attrs| && Dropped(Merge(p, attrs[..n]), attrs[n])
    ensures !Waits(Merge(p, attrs), attrs[n].key)
  {
    StaysLost(p, attrs, n, |attrs|);
    assert attrs[..|attrs|] == attrs;
  }

  /** A reported key that the buffer has no place for. */
  predicate Lost(p: seq<Attr>, attrs: seq<Attr>, k: Key) {
    FirstAttr(attrs, k) < |attrs| && !Waits(Merge(p, attrs), k)
  }

  /** What the last report of a key tells, if there is one. */
  function LastTold(attrs: seq<Attr>, k: Key): Option<Reading>
    decreases |attrs|
  {
    if attrs == [] then None
    else if attrs[|attrs| - 1].key == k then Some(Told(attrs[|attrs| - 1]))
    else LastTold(attrs[..|attrs| - 1], k)
  }

  /** The buffer keeps every report of a key or none. */
  lemma {:induction false} KeptLast(p: seq<Attr>, attrs: seq<Attr>, k: Key)
    ensures LastTold(Kept(p, attrs), k) == if Waits(Merge(p, attrs), k) then LastTold(attrs, k) else None
    decreases |attrs|
  {
    if attrs != [] {
      var n := |attrs| - 1;
      var kept, a := Kept(p, attrs[..n]), attrs[n];
      KeptLast(p, attrs[..n], k);
      MergeOneWaits(Merge(p, attrs[..n]), a, k);
      assert kept + [] == kept && (kept + [a])[..|kept|] == kept;
    }
  }

  /** One write, slot by slot: it changes the first slot of its key, if that is not secret. */
  lemma PutReads(c: seq<Slot>, a: Attr, i: nat)
    requires i < |Put(c, a)|
    ensures i < |c| ==> Put(c, a)[i].key == c[i].key
    ensures i < |c| ==> Read(Put(c, a)[i]) ==
                        if i == FirstSlot(c, a.key) && !Secret(a.key) then Told(a) else Read(c[i])
    ensures i >= |c| ==> i == |c| && !Secret(a.key) && FirstSlot(c, a.key) == |c| && Read(Put(c, a)[i]) == Told(a)
  {
  }

  lemma PutFirsts(c: seq<Slot>, a: Attr, k: Key)
    ensures |c| <= |Put(c, a)|
    ensures Has(c, k) ==> FirstSlot(Put(c, a), k) == FirstSlot(c, k)
    ensures Has(Put(c, a), k) && !Has(c, k) ==> k == a.key && FirstSlot(Put(c, a), k) == |c|
  {
    var d, i := Put(c, a), FirstSlot(c, k);
    assert forall m :: 0 <= m < |c| ==> d[m].key == c[m].key;
    if i < |c| { assert d[i].key == k; }
  }

  /** What a slot of a cache reads after a list of writes: the last report of its key, if it is the
      key's first slot and the key is not secret, else what it read before. */
  lemma {:induction false} SlotReads(c: seq<Slot>, attrs: seq<Attr>, i: nat)
    requires i < |c|
    ensures var d, k := Upsert(c, attrs), c[i].key;
            && |c| <= |d| && d[i].key == k && FirstSlot(d, k) == FirstSlot(c, k)
            && Read(d[i]) == if i == FirstSlot(c, k) && !Secret(k) && LastTold(attrs, k).Some? then LastTold(attrs, k).value
                             else Read(c[i])
    decreases |attrs|
  {
    if attrs != [] {
      var n := |attrs| - 1;
      var d, a := Upsert(c, attrs[..n]), attrs[n];
      SlotReads(c, attrs[..n], i);
      PutFirsts(d, a, c[i].key);
      PutReads(d, a, i);
    }
  }

  /** A slot that the list adds reads the last report of its key. */
  lemma {:induction false} AddedReads(c: seq<Slot>, attrs: seq<Attr>, i: nat)
    requires |c| <= i < |Upsert(c, attrs)|
    ensures var d := Upsert(c, attrs);
            && FirstSlot(d, d[i].key) == i && !Secret(d[i].key)
            && LastTold(attrs, d[i].key) == Some(Read(d[i]))
    decreases |attrs|
  {
    var n := |attrs| - 1;
    var d, a := Upsert(c, attrs[..n]), attrs[n];
    PutReads(d, a, i);
    if i < |d| {
      AddedReads(c, attrs[..n], i);
      PutFirsts(d, a, d[i].key);
    } else {
      PutFirsts(d, a, a.key);
    }
  }

  predicate SameNames(s: seq<Slot>, t: seq<Slot>) {
    |s| == |t| && forall i :: 0 <= i < |s| ==> s[i].key == t[i].key
  }

  lemma PutNames(s: seq<Slot>, t: seq<Slot>, a: Attr)
    requires SameNames(s, t)
    ensures SameNames(Put(s, a), Put(t, a))
    ensures Settled(t, a.key) ==> SameNames(s, Put(t, a))
  {
    SameFirst(s, t, a.key);
  }

  lemma {:induction false} StaysSettled(c: seq<Slot>, attrs: seq<Attr>, m: nat, k: Key)
    requires m <= |attrs| && Settled(Upsert(c, attrs[..m]), k)
    ensures Settled(Upsert(c, attrs), k)
    decreases |attrs|
  {
    var n := |attrs| - 1;
    if m <= n {
      assert attrs[..n][..m] == attrs[..m];
      StaysSettled(c, attrs[..n], m, k);
      PutFirsts(Upsert(c, attrs[..n]), attrs[n], k);
    } else {
      assert attrs[..m] == attrs;
    }
  }

  /** Key `k` comes when the cache that is written at once knows it or has no room for it. */
  predicate FindsNoRoom(c: seq<Slot>, attrs: seq<Attr>, k: Key) {
    Settled(Upsert(c, attrs[..FirstAttr(attrs, k)]), k)
  }

  lemma LostSettled(c: seq<Slot>, p: seq<Attr>, attrs: seq<Attr>, n: nat)
    requires n < |attrs| && Dropped(Merge(p, attrs[..n]), attrs[n]) && FindsNoRoom(c, attrs, attrs[n].key)
    ensures Settled(Upsert(c, attrs[..n]), attrs[n].key)
  {
    var f := FirstAttr(attrs, attrs[n].key);
    assert attrs[..n][..f] == attrs[..f];
    StaysSettled(c, attrs[..n], f, attrs[n].key);
  }

  /** Leaving out the reports of keys without room leaves the names of the cache. */
  lemma {:induction false} NamesSame(c: seq<Slot>, p: seq<Attr>, attrs: seq<Attr>, n: nat)
    requires n <= |attrs|
    requires forall k :: Lost(p, attrs, k) ==> FindsNoRoom(c, attrs, k)
    ensures SameNames(Upsert(c, Kept(p, attrs[..n])), Upsert(c, attrs[..n]))
    decreases n
  {
    if n > 0 {
      var front, a := attrs[..n - 1], attrs[n - 1];
      NamesSame(c, p, attrs, n - 1);
      assert attrs[..n] == front + [a];
      KeptNext(p, front, a);
      UpsertNext(c, front, a);
      UpsertNext(c, Kept(p, front), a);
      PutNames(Upsert(c, Kept(p, front)), Upsert(c, front), a);
      if Dropped(Merge(p, front), a) {
        LostForever(p, attrs, n - 1);
        LostSettled(c, p, attrs, n - 1);
      }
    }
  }

  /** The reports of a key that the buffer loses leave no trace in the end: the key is secret, or
      the last of them tells what the cache reads anyway, or the cache had no room for it. */
  predicate LossHeals(c: seq<Slot>, attrs: seq<Attr>, k: Key) {
    || Secret(k)
    || (if Has(c, k) then LastTold(attrs, k) == Some(Read(c[FirstSlot(c, k)]))
        else |Upsert(c, attrs[..FirstAttr(attrs, k)])| >= 32)
  }

  lemma HealsNoRoom(c: seq<Slot>, attrs: seq<Attr>, k: Key)
    requires LossHeals(c, attrs, k)
    ensures FindsNoRoom(c, attrs, k)
  {
    var i := FirstSlot(c, k);
    if i < |c| { SlotReads(c, attrs[..FirstAttr(attrs, k)], i); }
  }

  lemma HealedView(c: seq<Slot>, p: seq<Attr>, attrs: seq<Attr>)
    requires forall k :: Lost(p, attrs, k) ==> LossHeals(c, attrs, k)
    ensures View(Upsert(c, Kept(p, attrs))) == View(Upsert(c, attrs))
  {
    forall k | Lost(p, attrs, k) ensures FindsNoRoom(c, attrs, k) {
      HealsNoRoom(c, attrs, k);
    }
    NamesSame(c, p, attrs, |attrs|);
    assert attrs[..|attrs|] == attrs;
    var d, e := Upsert(c, Kept(p, attrs)), Upsert(c, attrs);
    forall i | 0 <= i < |d| ensures Read(d[i]) == Read(e[i]) {
      if i < |c| { HealedOld(c, p, attrs, i); } else { HealedNew(c, p, attrs, i); }
    }
  }

  lemma {:induction false} ToldIfReported(attrs: seq<Attr>, k: Key)
    ensures LastTold(attrs, k).Some? <==> FirstAttr(attrs, k) < |attrs|
    decreases |attrs|
  {
    if attrs != [] {
      var n := |attrs| - 1;
      ToldIfReported(attrs[..n], k);
      assert FirstAttr(attrs[..n], k) < n ==> attrs[FirstAttr(attrs[..n], k)].key == k;
    }
  }

  /** A slot of the old cache reads the same in the end, once a loss of its key heals. */
  lemma HealedOld(c: seq<Slot>, p: seq<Attr>, attrs: seq<Attr>, i: nat)
    requires i < |c| && (Lost(p, attrs, c[i].key) ==> LossHeals(c, attrs, c[i].key))
    ensures i < |Upsert(c, attrs)| && i < |Upsert(c, Kept(p, attrs))|
    ensures Read(Upsert(c, Kept(p, attrs))[i]) == Read(Upsert(c, attrs)[i])
  {
    KeptLast(p, attrs, c[i].key);
    ToldIfReported(attrs, c[i].key);
    SlotReads(c, attrs, i);
    SlotReads(c, Kept(p, attrs), i);
  }

  lemma HealedNew(c: seq<Slot>, p: seq<Attr>, attrs: seq<Attr>, i: nat)
    requires SameNames(Upsert(c, Kept(p, attrs)), Upsert(c, attrs)) && |c| <= i < |Upsert(c, attrs)|
    ensures Read(Upsert(c, Kept(p, attrs))[i]) == Read(Upsert(c, attrs)[i])
  {
    KeptLast(p, attrs, Upsert(c, attrs)[i].key);
    AddedReads(c, attrs, i);
    AddedReads(c, Kept(p, attrs), i);
  }

  /** A loss that does not heal is seen. */
  lemma UnhealedSeen(c: seq<Slot>, p: seq<Attr>, attrs: seq<Attr>, k: Key)
    requires Lost(p, attrs, k) && View(Upsert(c, Kept(p, attrs))) == View(Upsert(c, attrs))
    ensures LossHeals(c, attrs, k)
  {
    var i, f := FirstSlot(c, k), FirstAttr(attrs, k);
    var d, e := Upsert(c, Kept(p, attrs)), Upsert(c, attrs);
    ViewKeys(d, e);
    KeptLast(p, attrs, k);
    if i < |c| {
      ToldIfReported(attrs, k);
      SlotReads(c, attrs, i);
      SlotReads(c, Kept(p, attrs), i);
      assert View(d)[i] == View(e)[i];
    } else if !Secret(k) && |Upsert(c, attrs[..f])| < 32 {
      KeyEnters(c, attrs, f);
      NotBefore(c, attrs, k);
      AddedReads(c, Kept(p, attrs), FirstSlot(e, k));
    }
  }

  lemma {:induction false} NotBefore(c: seq<Slot>, attrs: seq<Attr>, k: Key)
    requires !Has(c, k)
    ensures FirstSlot(Upsert(c, attrs), k) >= |c| && |Upsert(c, attrs)| >= |c|
    decreases |attrs|
  {
    if attrs != [] {
      NotBefore(c, attrs[..|attrs| - 1], k);
      PutFirsts(Upsert(c, attrs[..|attrs| - 1]), attrs[|attrs| - 1], k);
    }
  }

  lemma {:induction false} KeyEnters(c: seq<Slot>, attrs: seq<Attr>, f: nat)
    requires f < |attrs| && !Secret(attrs[f].key) && |Upsert(c, attrs[..f])| < 32
    ensures Has(Upsert(c, attrs), attrs[f].key)
    decreases |attrs|
  {
    var n := |attrs| - 1;
    var d, a := Upsert(c, attrs[..n]), attrs[n];
    PutFirsts(d, a, attrs[f].key);
    if f < n {
      assert attrs[..n][..f] == attrs[..f];
      KeyEnters(c, attrs[..n], f);
    } else {
      var i := FirstSlot(d, a.key);
      assert Put(d, a)[i].key == a.key;
    }
  }

  /** For every cache, buffer and list of reports: merged and flushed they read like written at once
      if and only if, of every key that the buffer has no place for, the loss heals by the end. */
  lemma DebounceExactly(s: seq<Slot>, p: seq<Attr>, attrs: seq<Attr>)
    requires Distinct(p)
    ensures View(Upsert(s, Merge(p, attrs))) == View(Upsert(Upsert(s, p), attrs)) <==>
            forall k :: Lost(p, attrs, k) ==> LossHeals(Upsert(s, p), attrs, k)
  {
    var c := Upsert(s, p);
    DebounceIsDirect(s, p, attrs);
    if View(Upsert(s, Merge(p, attrs))) == View(Upsert(c, attrs)) {
      forall k | Lost(p, attrs, k) ensures LossHeals(c, attrs, k) {
        UnhealedSeen(c, p, attrs, k);
      }
    }
    if forall k :: Lost(p, attrs, k) ==> LossHeals(c, attrs, k) {
      HealedView(c, p, attrs);
    }
  }

  // ── Whole runs ─────────────────────────────────────────────────────

  /** What happens to a device whose ignore list is empty: a report, or the timer. */
  datatype Event = Report(attrs: seq<Attr>) | Flush

  datatype State = State(cache: seq<Slot>, pending: seq<Attr>)

  function Step(s: State, e: Event): State {
    match e
    case Report(attrs) => s.(pending := Merge(s.pending, attrs))
    case Flush => State(Upsert(s.cache, s.pending), [])
  }

  function Run(s: State, es: seq<Event>): State
    decreases |es|
  {
    if es == [] then s else Step(Run(s, es[..|es| - 1]), es[|es| - 1])
  }

  /** The same reports without debounce. */
  function Direct(c: seq<Slot>, es: seq<Event>): seq<Slot>
    decreases |es|
  {
    if es == [] then c
    else
      var d := Direct(c, es[..|es| - 1]);
      match es[|es| - 1]
      case Report(attrs) => Upsert(d, attrs)
      case Flush => d
  }

  /** Every report finds room: the keys waiting and the keys it brings are at most 32. */
  predicate Room(s: State, es: seq<Event>) {
    forall n :: 0 <= n < |es| ==> RoomAt(s, es, n)
  }

  predicate RoomAt(s: State, es: seq<Event>, n: nat)
    requires n < |es|
  {
    es[n].Report? ==> |KeysOf(Run(s, es[..n]).pending) + KeysOf(es[n].attrs)| <= 32
  }

  lemma {:induction false} DebounceRun(s: State, es: seq<Event>)
    requires Distinct(s.pending) && Room(s, es)
    ensures Distinct(Run(s, es).pending)
    ensures View(Upsert(Run(s, es).cache, Run(s, es).pending)) ==
            View(Direct(Upsert(s.cache, s.pending), es))
    decreases |es|
  {
    if es != [] {
      var n := |es| - 1;
      var front := es[..n];
      forall k | 0 <= k < n ensures RoomAt(s, front, k) {
        assert RoomAt(s, es, k);
        assert front[..k] == es[..k];
      }
      DebounceRun(s, front);
      assert RoomAt(s, es, n);
      var r, d := Run(s, front), Direct(Upsert(s.cache, s.pending), front);
      match es[n] {
        case Report(attrs) =>
          MergeDistinct(r.pending, attrs);
          KeptEach(r.pending, attrs);
          DebounceIsDirect(r.cache, r.pending, attrs);
          UpsertView(Upsert(r.cache, r.pending), d, attrs);
        case Flush =>
          assert Upsert(Upsert(r.cache, r.pending), []) == Upsert(r.cache, r.pending);
      }
    }
  }

  /** After any run of reports and flushes that ends with a flush, readers see what they would
      have seen without debounce. */
  lemma FlushedReadsDirect(c: seq<Slot>, es: seq<Event>)
    requires |es| > 0 && es[|es| - 1] == Flush
    requires Room(State(c, []), es)
    ensures Run(State(c, []), es).pending == []
    ensures View(Run(State(c, []), es).cache) == View(Direct(c, es))
  {
    DebounceRun(State(c, []), es);
    var r := Run(State(c, []), es);
    assert Upsert(r.cache, []) == r.cache;
    assert Upsert(c, []) == c;
  }

  // ── What does not hold ─────────────────────────────────────────────

  lemma UpsertTwo(s: seq<Slot>, a: Attr, b: Attr)
    ensures Upsert(s, [a]) == Put(s, a)
    ensures Upsert(s, [a, b]) == Put(Put(s, a), b)
  {
    assert [a, b][..1] == [a];
    assert [a][..0] == [];
    assert Upsert(s, []) == s;
  }

  lemma MergeTwo(a: Attr, b: Attr)
    requires a.key == b.key
    ensures Merge([], [a, b]) == [b]
  {
    assert [a, b][..1] == [a];
    assert [a][..0] == [];
    assert MergeOne([], a) == [a];
    assert Merge([], [a]) == [a];
    assert FirstAttr([a], b.key) == 0;
    assert [a][0 := b] == [b];
  }

  lemma PutFresh(a: Attr)
    requires !Secret(a.key)
    ensures Put([], a) == [Slot(a.key, a.typ, Over(Blank(), a))]
  {
  }

  lemma PutAgain(s: Slot, a: Attr)
    requires !Secret(a.key) && s.key == a.key
    ensures Put([s], a) == [Slot(s.key, a.typ, Over(s.value, a))]
  {
  }

  /** The bytes are not the same, only what is read: a text replaced in the buffer by a number
      never reaches the cache, while without debounce its tail stays behind the number. */
  lemma BytesDiffer(text: Attr, number: Attr)
    requires text.key == number.key && !Secret(text.key)
    requires text.typ == VStr && number.typ != VStr
    ensures Upsert([], Merge([], [text, number])) == Upsert([], [text, number])
            <==> text.value.rest == Blank().rest
  {
    MergeTwo(text, number);
    UpsertTwo([], text, number);
    UpsertTwo([], number, number);
    PutFresh(text);
    PutFresh(number);
    var first := Slot(text.key, VStr, text.value);
    PutAgain(first, number);
    var x, y := Slot(number.key, number.typ, Over(Blank(), number)), Slot(first.key, number.typ, Over(first.value, number));
    assert Upsert([], [number]) == [x];
    assert Upsert([], [text, number]) == [y];
    assert x.value.rest == Blank().rest && y.value.rest == text.value.rest;
    assert x.value.word == y.value.word;
    assert x == y <==> text.value.rest == Blank().rest;
    assert [x] == [y] <==> x == y by {
      assert [x][0] == x && [y][0] == y;
    }
  }

  function Repeat(c: char, n: nat): (s: string)
    ensures |s| == n && forall i :: 0 <= i < n ==> s[i] == c
  {
    seq(n, i => c)
  }

  /** Thirty-three different keys, the first of them secret. */
  function ManyKey(i: nat): Key
    requires i < 33
  {
    if i == 0 then "pin_code" else if i <= 27 then Repeat('a', i) else Repeat('b', i - 27)
  }

  function Many(n: nat): (m: seq<Attr>)
    requires n <= 33
    ensures |m| == n
    ensures forall i :: 0 <= i < n ==> m[i] == Attr(ManyKey(i), VInt, Payload(i, Blank().rest))
  {
    seq(n, i requires 0 <= i < n => Attr(ManyKey(i), VInt, Payload(i, Blank().rest)))
  }

  lemma ManyDistinct(i: nat, j: nat)
    requires i < j < 33
    ensures ManyKey(i) != ManyKey(j)
  {
    assert "pin_code"[0] == 'p';
    assert ManyKey(j)[0] != 'p';
    if 1 <= i && j > 27 && i <= 27 {
      assert ManyKey(i)[0] != ManyKey(j)[0];
    }
  }

  lemma NotSecret(i: nat)
    requires 1 <= i < 33
    ensures !Secret(ManyKey(i))
  {
    assert "pin_code"[0] == 'p' && "action_code"[1] == 'c' && |"action_code"| == 11;
    var k := ManyKey(i);
    assert k[0] != 'p';
    if |k| == 11 { assert k[1] != 'c'; }
  }

  lemma ManyFront(n: nat)
    requires 1 <= n <= 33
    ensures Many(n)[..n - 1] == Many(n - 1)
    ensures Many(n) == Many(n - 1) + [Many(n)[n - 1]]
    ensures FirstAttr(Many(n - 1), ManyKey(n - 1)) == n - 1
  {
    var m := Many(n - 1);
    forall j | 0 <= j < n - 1 ensures m[j].key != ManyKey(n - 1) {
      ManyDistinct(j, n - 1);
    }
  }

  lemma {:induction false} ManyMerged(n: nat)
    requires n <= 32
    ensures Merge([], Many(n)) == Many(n)
  {
    if n > 0 {
      ManyMerged(n - 1);
      ManyFront(n);
    }
  }

  /** The cache after the first `n` of them: all but the secret one. */
  predicate AllButSecret(c: seq<Slot>, n: nat)
    requires 1 <= n <= 33
  {
    && |c| == n - 1
    && forall i :: 0 <= i < n - 1 ==> c[i].key == ManyKey(i + 1)
  }

  lemma PutNext(c: seq<Slot>, n: nat, a: Attr)
    requires 1 <= n <= 32 && AllButSecret(c, n) && a.key == ManyKey(n)
    ensures AllButSecret(Put(c, a), n + 1)
  {
    forall j | 0 <= j < |c| ensures c[j].key != ManyKey(n) {
      ManyDistinct(j + 1, n);
    }
    NotSecret(n);
  }

  lemma {:induction false} ManyCached(n: nat)
    requires 1 <= n <= 33
    ensures AllButSecret(Upsert([], Many(n)), n)
  {
    ManyFront(n);
    if n == 1 {
      assert Upsert([], Many(0)) == [];
    } else {
      ManyCached(n - 1);
      PutNext(Upsert([], Many(n - 1)), n - 1, Many(n)[n - 1]);
    }
  }

  /** The limit of 32 is sharp, and secret keys count in it although the cache never holds them:
      of 33 different keys with a secret one among them, debounce loses the last, which a direct
      update keeps. */
  lemma SecretTakesASlot()
    ensures var m := Many(33);
            View(Upsert([], Merge([], m))) != View(Upsert([], m))
  {
    ManyFront(33);
    ManyMerged(32);
    assert Merge([], Many(33)) == Many(32);
    ManyCached(32);
    ManyCached(33);
  }

  // ── The entry in place ─────────────────────────────────────────────

  /** What the report filter lets through: the attributes whose key is not on the list, as far as
      the output has room. */
  function Unfiltered(attrs: seq<Attr>, filtered: seq<Key>, room: nat): seq<Attr>
    decreases |attrs|
  {
    if attrs == [] then []
    else
      var front := Unfiltered(attrs[..|attrs| - 1], filtered, room);
      var a := attrs[|attrs| - 1];
      if a.key in filtered || |front| >= room then front else front + [a]
  }

  /** No key of the list passes, everything passes when the list is empty and there is room, and
      what passes keeps its order. */
  lemma {:induction false} FilterPasses(attrs: seq<Attr>, filtered: seq<Key>, room: nat)
    ensures |Unfiltered(attrs, filtered, room)| <= room
    ensures forall i :: 0 <= i < |Unfiltered(attrs, filtered, room)| ==>
              Unfiltered(attrs, filtered, room)[i].key !in filtered
    ensures filtered == [] && |attrs| <= room ==> Unfiltered(attrs, filtered, room) == attrs
    decreases |attrs|
  {
    if attrs != [] {
      FilterPasses(attrs[..|attrs| - 1], filtered, room);
      assert attrs == attrs[..|attrs| - 1] + [attrs[|attrs| - 1]];
    }
  }

  method InList(k: Key, list: seq<Key>) returns (found: bool)
    ensures found <==> k in list
  {
    var f := 0;
    while f < |list|
      invariant f <= |list|
      invariant k !in list[..f]
    {
      if k == list[f] { return true; }
      f := f + 1;
    }
    return false;
  }

  method Filter(attrs: seq<Attr>, filtered: seq<Key>, out: array<Attr>) returns (n: nat)
    modifies out
    ensures n <= out.Length
    ensures out[..n] == Unfiltered(attrs, filtered, out.Length)
    ensures out[n..] == old(out[n..])
  {
    n := 0;
    var i := 0;
    ghost var before := out[..];
    while i < |attrs| && n < out.Length
      invariant i <= |attrs| && n <= out.Length
      invariant out[..n] == Unfiltered(attrs[..i], filtered, out.Length)
      invariant forall j :: n <= j < out.Length ==> out[j] == before[j]
    {
      assert attrs[..i + 1][..i] == attrs[..i];
      var skip := InList(attrs[i].key, filtered);
      if !skip {
        out[n] := attrs[i];
        n := n + 1;
      }
      i := i + 1;
    }
    FullStays(attrs, i, filtered, out.Length);
    assert attrs[..|attrs|] == attrs;
  }

  lemma {:induction false} FullStays(attrs: seq<Attr>, i: nat, filtered: seq<Key>, room: nat)
    requires i <= |attrs|
    requires i == |attrs| || |Unfiltered(attrs[..i], filtered, room)| >= room
    ensures Unfiltered(attrs, filtered, room) == Unfiltered(attrs[..i], filtered, room)
    decreases |attrs|
  {
    if i == |attrs| {
      assert attrs[..i] == attrs;
    } else {
      assert attrs[..|attrs| - 1][..i] == attrs[..i];
      FullStays(attrs[..|attrs| - 1], i, filtered, room);
    }
  }

  /** The cache and the debounce buffer of one device. */
  class ShadowEntry {
    const attrs: array<Slot>
    var attrCount: nat
    const pending: array<Attr>
    var pendingCount: nat

    predicate Valid()
      reads this
    {
      && attrs.Length == 32 && attrCount <= 32
      && pending.Length == 32 && pendingCount <= 32
    }

    function Cache(): seq<Slot>
      requires Valid()
      reads this, attrs
    {
      attrs[..attrCount]
    }

    function Waiting(): seq<Attr>
      requires Valid()
      reads this, pending
    {
      pending[..pendingCount]
    }

    constructor ()
      ensures Valid() && fresh(attrs) && fresh(pending)
      ensures Cache() == [] && Waiting() == []
    {
      attrs := new Slot[32](i => Slot("", VInt, Payload(0, [])));
      pending := new Attr[32](i => Attr("", VInt, Payload(0, [])));
      attrCount := 0;
      pendingCount := 0;
    }

    method FindSlot(k: Key) returns (j: nat)
      requires Valid()
      ensures j == FirstSlot(Cache(), k)
    {
      j := 0;
      while j < attrCount
        invariant j <= attrCount
        invariant forall m :: 0 <= m < j ==> attrs[m].key != k
      {
        if attrs[j].key == k {
          FirstIs(Cache(), k, j);
          return;
        }
        j := j + 1;
      }
      FirstIs(Cache(), k, j);
    }

    method PutAttr(a: Attr)
      requires Valid()
      modifies this`attrCount, attrs
      ensures Valid()
      ensures Cache() == Put(old(Cache()), a)
    {
      if Secret(a.key) { return; }
      var j := FindSlot(a.key);
      if j < attrCount {
        attrs[j] := Slot(attrs[j].key, a.typ, Over(attrs[j].value, a));
      } else if attrCount < 32 {
        attrs[attrCount] := Slot(a.key, a.typ, Over(Blank(), a));
        attrCount := attrCount + 1;
      }
    }

    method UpsertCache(list: seq<Attr>)
      requires Valid()
      modifies this`attrCount, attrs
      ensures Valid()
      ensures Cache() == Upsert(old(Cache()), list)
    {
      var i := 0;
      while i < |list|
        invariant i <= |list|
        invariant Valid()
        invariant Cache() == Upsert(old(Cache()), list[..i])
      {
        assert list[..i + 1][..i] == list[..i];
        PutAttr(list[i]);
        i := i + 1;
      }
      assert list[..|list|] == list;
    }

    method FindPending(k: Key) returns (j: nat)
      requires Valid()
      ensures j == FirstAttr(Waiting(), k)
    {
      j := 0;
      while j < pendingCount
        invariant j <= pendingCount
        invariant forall m :: 0 <= m < j ==> pending[m].key != k
      {
        if pending[j].key == k {
          FirstAttrIs(Waiting(), k, j);
          return;
        }
        j := j + 1;
      }
      FirstAttrIs(Waiting(), k, j);
    }

    method MergeAttr(a: Attr)
      requires Valid()
      modifies this`pendingCount, pending
      ensures Valid()
      ensures Waiting() == MergeOne(old(Waiting()), a)
    {
      var j := FindPending(a.key);
      if j < pendingCount {
        pending[j] := a;
      } else if pendingCount < 32 {
        pending[pendingCount] := a;
        pendingCount := pendingCount + 1;
      }
    }

    method MergePending(list: seq<Attr>)
      requires Valid()
      modifies this`pendingCount, pending
      ensures Valid()
      ensures Waiting() == Merge(old(Waiting()), list)
    {
      var i := 0;
      while i < |list|
        invariant i <= |list|
        invariant Valid()
        invariant Waiting() == Merge(old(Waiting()), list[..i])
      {
        assert list[..i + 1][..i] == list[..i];
        MergeAttr(list[i]);
        i := i + 1;
      }
      assert list[..|list|] == list;
    }

    // The first `n` waiting attributes are copied out.
    method CopyOut(out: array<Attr>, n: nat)
      requires n <= out.Length && n <= pendingCount <= pending.Length && out != pending
      modifies out
      ensures out[..n] == pending[..n]
    {
      var i := 0;
      while i < n
        invariant i <= n
        invariant forall j :: 0 <= j < i ==> out[j] == pending[j]
      {
        out[i] := pending[i];
        i := i + 1;
      }
    }

    // The others move down.
    method MoveDown(n: nat)
      requires n <= pendingCount <= pending.Length
      modifies pending
      ensures pending[..pendingCount - n] == old(pending[n..pendingCount])
    {
      var remaining := pendingCount - n;
      var i := 0;
      while i < remaining
        invariant i <= remaining
        invariant forall j :: 0 <= j < i ==> pending[j] == old(pending[n + j])
        invariant forall j :: i <= j < pendingCount ==> pending[j] == old(pending[j])
      {
        pending[i] := pending[n + i];
        i := i + 1;
      }
    }

    /** Takes the oldest attributes out of the buffer and moves the others down. */
    method FlushPending(out: array<Attr>) returns (n: nat)
      requires Valid() && out != pending
      modifies this`pendingCount, pending, out
      ensures Valid()
      ensures n == if |old(Waiting())| < out.Length then |old(Waiting())| else out.Length
      ensures out[..n] == old(Waiting())[..n]
      ensures Waiting() == old(Waiting())[n..]
    {
      n := if pendingCount < out.Length then pendingCount else out.Length;
      CopyOut(out, n);
      if n < pendingCount {
        MoveDown(n);
        pendingCount := pendingCount - n;
      } else {
        pendingCount := 0;
      }
    }

    /** The debounce timer ran out: the whole buffer goes to the cache. */
    method FlushPendingEntry() returns (marked: bool)
      requires Valid()
      modifies this, attrs, pending
      ensures Valid()
      ensures State(Cache(), Waiting()) == Step(State(old(Cache()), old(Waiting())), Flush)
      ensures marked <==> old(Waiting()) != []
    {
      var out := new Attr[32](i => Attr("", VInt, Payload(0, [])));
      var n := FlushPending(out);
      assert out[..n] == old(Waiting());
      if n > 0 {
        UpsertCache(out[..n]);
      }
      marked := n > 0;
    }

    /** Where an attribute of the ignore list goes: -1 is the buffer, anything else straight to the
        cache. With an empty list everything goes to the buffer. */
    method DebounceBypass(ignored: seq<Key>, a: Attr) returns (b: int)
      requires Valid()
      ensures a.key !in ignored ==> b == -1
      ensures a.key in ignored ==>
                var j := FirstAttr(Waiting(), a.key);
                b == if j == |Waiting()| then 0
                     else if Waiting()[j].value.word == a.value.word then -1 else j + 1
    {
      var ignore := InList(a.key, ignored);
      if !ignore { return -1; }
      var j := FindPending(a.key);
      if j < pendingCount {
        return if pending[j].value.word == a.value.word then -1 else j + 1;
      }
      return 0;
    }
  }

  lemma FirstIs(s: seq<Slot>, k: Key, i: nat)
    requires i <= |s| && (i < |s| ==> s[i].key == k)
    requires forall j :: 0 <= j < i ==> s[j].key != k
    ensures FirstSlot(s, k) == i
  {
    var f := FirstSlot(s, k);
    assert f < |s| ==> !(f < i);
    assert i < |s| ==> !(i < f);
  }

  lemma FirstAttrIs(p: seq<Attr>, k: Key, i: nat)
    requires i <= |p| && (i < |p| ==> p[i].key == k)
    requires forall j :: 0 <= j < i ==> p[j].key != k
    ensures FirstAttr(p, k) == i
  {
    var f := FirstAttr(p, k);
    assert f < |p| ==> !(f < i);
    assert i < |p| ==> !(i < f);
  }
}
