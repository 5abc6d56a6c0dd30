/** The device pool: a dense array with swap-with-last removal, looked up by
    IEEE and by network address through two open-addressing indexes that are
    rebuilt when marked dirty. */
module ZigbeePool {
  import opened Wrappers

  const MAX_DEVICES: nat := 200
  const HASH: nat := 256
  const EMPTY: nat := 0xFFFF

  datatype Device = Device(ieee: nat, nwk: nat, data: int)

  const Zeroed := Device(0, 0, 0)

  // The two hashes, in the code's 64-bit and 32-bit arithmetic.
  function IeeeHome(ieee: nat): (h: nat)
    ensures h < HASH
  {
    ieee * 2654435761 % 0x1_0000_0000_0000_0000 / 0x1_0000_0000 % HASH
  }

  function NwkHome(nwk: nat): (h: nat)
    ensures h < HASH
  {
    nwk * 2654435761 % 0x1_0000_0000 % HASH
  }

  /** The d-th slot probed from `home`. */
  function Probe(home: nat, d: nat): (s: nat)
    ensures s < HASH
  {
    (home + d) % HASH
  }

  function IeeeKeys(devs: seq<Device>): seq<nat> { seq(|devs|, i requires 0 <= i < |devs| => devs[i].ieee) }
  function NwkKeys(devs: seq<Device>): seq<nat> { seq(|devs|, i requires 0 <= i < |devs| => devs[i].nwk) }

  function IeeeHomes(devs: seq<Device>): seq<nat> { seq(|devs|, i requires 0 <= i < |devs| => IeeeHome(devs[i].ieee)) }
  function NwkHomes(devs: seq<Device>): seq<nat> { seq(|devs|, i requires 0 <= i < |devs| => NwkHome(devs[i].nwk)) }

  /** The linear scan: the first position of `key`. */
  function First(keys: seq<nat>, key: nat): (r: Option<nat>)
    ensures r.Some? ==> r.value < |keys| && keys[r.value] == key && key !in keys[..r.value]
    ensures r.None? ==> key !in keys
  {
    if keys == [] then None
    else if keys[0] == key then Some(0)
    else match First(keys[1..], key) case None => None case Some(i) => Some(i + 1)
  }

  lemma {:induction false} FirstIs(keys: seq<nat>, key: nat, i: nat)
    requires i < |keys| && keys[i] == key && forall j :: 0 <= j < i ==> keys[j] != key
    ensures First(keys, key) == Some(i)
    decreases i
  {
    if i > 0 { FirstIs(keys[1..], key, i - 1); }
  }

  // ── A built index ─────────────────────────────────────────────────────

  // Entry i sits d probes from its home, past earlier entries only.
  ghost predicate PlacedAt(idx: seq<nat>, home: nat, i: nat, d: nat)
    requires |idx| == HASH
  {
    d < HASH && idx[Probe(home, d)] == i && forall e: nat :: e < d ==> idx[Probe(home, e)] < i
  }

  ghost predicate Placed(idx: seq<nat>, home: nat, i: nat)
    requires |idx| == HASH
  {
    exists d: nat :: PlacedAt(idx, home, i, d)
  }

  /** Every entry is placed, and the table holds nothing else. */
  ghost predicate Built(idx: seq<nat>, homes: seq<nat>) {
    && |idx| == HASH
    && (forall s: nat :: s < HASH && idx[s] != EMPTY ==> idx[s] < |homes|)
    && (forall i: nat :: i < |homes| ==> Placed(idx, homes[i], i))
  }

  ghost predicate OneEach(idx: seq<nat>) {
    forall s: nat, t: nat :: s < t < |idx| && idx[s] != EMPTY ==> idx[s] != idx[t]
  }

  lemma {:induction false} Crowd(s: seq<nat>, n: nat)
    requires (forall i: nat :: i < |s| ==> s[i] < n) && forall i: nat, j: nat :: i < j < |s| ==> s[i] != s[j]
    ensures |s| <= n
  {
    Range(n);
    Distinct(s);
    var seen := set i | 0 <= i < |s| :: s[i];
    assert seen <= UpTo(n);
    SubsetSize(seen, UpTo(n));
  }

  function UpTo(n: nat): set<nat> { if n == 0 then {} else UpTo(n - 1) + {n - 1} }

  lemma {:induction false} Range(n: nat)
    ensures |UpTo(n)| == n && forall i: nat :: i in UpTo(n) <==> i < n
    decreases n
  {
    if n > 0 { Range(n - 1); }
  }

  lemma {:induction false} Distinct(s: seq<nat>)
    requires forall i: nat, j: nat :: i < j < |s| ==> s[i] != s[j]
    ensures |set i | 0 <= i < |s| :: s[i]| == |s|
    decreases |s|
  {
    if s != [] {
      var n := |s| - 1;
      var t := s[..n];
      Distinct(t);
      var below := set i | 0 <= i < |t| :: t[i];
      var all := set i | 0 <= i < |s| :: s[i];
      assert forall i :: 0 <= i < n ==> t[i] == s[i];
      assert all == below + {s[n]};
    }
  }

  lemma ProbeReaches(home: nat, s: nat)
    requires s < HASH && home < HASH
    ensures Probe(home, (s + HASH - home) % HASH) == s
  {
    if s >= home { assert (s + HASH - home) % HASH == s - home; } else { assert (s + HASH - home) % HASH == s + HASH - home; }
  }

  /** With fewer entries than slots, probing from anywhere meets an empty slot:
      the rebuild's search for one ends. */
  lemma SomeEmpty(idx: seq<nat>, home: nat, n: nat)
    requires |idx| == HASH && OneEach(idx) && n < HASH && home < HASH && forall s: nat :: s < HASH && idx[s] != EMPTY ==> idx[s] < n
    ensures exists d: nat :: d < HASH && idx[Probe(home, d)] == EMPTY
  {
    if forall s: nat :: s < HASH ==> idx[s] != EMPTY {
      Crowd(idx, n);
    } else {
      var s: nat :| s < HASH && idx[s] == EMPTY;
      ProbeReaches(home, s);
    }
  }

  lemma NextProbe(home: nat, d: nat)
    ensures (Probe(home, d) + 1) % HASH == Probe(home, d + 1)
  {
  }

  lemma ProbesDiffer(home: nat, d: nat, e: nat)
    requires d < e < HASH && home < HASH
    ensures Probe(home, d) != Probe(home, e)
  {
  }

  // Filling an empty slot disturbs no earlier entry.
  lemma FillKeeps(idx: seq<nat>, slot: nat, n: nat, home: nat, i: nat)
    requires |idx| == HASH && slot < HASH && idx[slot] == EMPTY && Placed(idx, home, i) && i < n < EMPTY
    ensures Placed(idx[slot := n], home, i)
  {
    var d: nat :| PlacedAt(idx, home, i, d);
    assert PlacedAt(idx[slot := n], home, i, d);
  }

  // The next entry goes to the first empty slot from its home.
  lemma FillBuilt(idx: seq<nat>, homes: seq<nat>, home: nat, d: nat)
    requires Built(idx, homes) && OneEach(idx) && |homes| < EMPTY && d < HASH && home < HASH
    requires idx[Probe(home, d)] == EMPTY && forall e: nat :: e < d ==> idx[Probe(home, e)] != EMPTY
    ensures var idx' := idx[Probe(home, d) := |homes|]; Built(idx', homes + [home]) && OneEach(idx')
  {
    var idx' := idx[Probe(home, d) := |homes|];
    var homes' := homes + [home];
    forall i: nat | i < |homes'|
      ensures Placed(idx', homes'[i], i)
    {
      if i < |homes| {
        FillKeeps(idx, Probe(home, d), |homes|, homes[i], i);
      } else {
        forall e: nat | e < d
          ensures idx'[Probe(home, e)] < i
        {
          ProbesDiffer(home, e, d);
        }
        assert PlacedAt(idx', home, i, d);
      }
    }
  }

  // ── Looking up ────────────────────────────────────────────────────────

  // What a probe sequence has seen without finding `key`.
  ghost predicate Passed(idx: seq<nat>, keys: seq<nat>, home: nat, n: nat, key: nat)
    requires |idx| == HASH
  {
    forall e: nat :: e < n ==> idx[Probe(home, e)] < |keys| && keys[idx[Probe(home, e)]] != key
  }

  /** In a built index, the probe that ends at an empty slot, or at the table's
      end, had no `key` to find; the one that ends at `key` found its first. */
  lemma ProbeIsScan(idx: seq<nat>, keys: seq<nat>, homes: seq<nat>, home: nat, n: nat, key: nat)
    requires Built(idx, homes) && |keys| == |homes| < EMPTY && n <= HASH && Passed(idx, keys, home, n, key)
    requires forall i: nat :: i < |keys| && keys[i] == key ==> homes[i] == home
    ensures (n == HASH || idx[Probe(home, n)] == EMPTY) ==> First(keys, key) == None
    ensures n < HASH && idx[Probe(home, n)] < |keys| && keys[idx[Probe(home, n)]] == key ==> First(keys, key) == Some(idx[Probe(home, n)])
  {
    var f := First(keys, key);
    if f.Some? {
      var i := f.value;
      var d: nat :| PlacedAt(idx, homes[i], i, d);
      Before(idx, keys, home, i, d, key);
    }
  }

  // The slots before the first match's hold earlier entries, with other keys.
  lemma Before(idx: seq<nat>, keys: seq<nat>, home: nat, i: nat, d: nat, key: nat)
    requires |idx| == HASH && PlacedAt(idx, home, i, d) && i < |keys| < EMPTY && First(keys, key) == Some(i)
    ensures forall e: nat :: e < d ==> idx[Probe(home, e)] < i && keys[idx[Probe(home, e)]] != key
    ensures idx[Probe(home, d)] == i
  {
    forall e: nat | e < d
      ensures keys[idx[Probe(home, e)]] != key
    {
      var j := idx[Probe(home, e)];
      assert keys[..i][j] == keys[j];
    }
  }

  // ── Adding and removing ───────────────────────────────────────────────

  lemma ReplacedOne<T>(s: seq<T>, i: nat, x: T)
    requires i < |s|
    ensures multiset(s[i := x]) == multiset(s) - multiset{s[i]} + multiset{x}
  {
  }

  lemma LastOne<T>(s: seq<T>, x: T)
    ensures multiset(s + [x]) == multiset(s) + multiset{x}
  {
  }

  /** A removal takes out that device and keeps every other. */
  lemma RemovedKeepsOthers(devs: seq<Device>, i: nat)
    requires i < |devs|
    ensures multiset(SwapRemoved(devs, i)) == multiset(devs) - multiset{devs[i]}
  {
    var n := |devs| - 1;
    var front, last := devs[..n], devs[n];
    assert devs == front + [last];
    LastOne(front, last);
    if i < n {
      assert SwapRemoved(devs, i) == front[i := last];
      ReplacedOne(front, i, last);
      assert front[i] in multiset(front);
    } else {
      assert SwapRemoved(devs, i) == front;
    }
  }

  // ── The code ──────────────────────────────────────────────────────────

  class Pool {
    const devs: array<Device>
    var count: nat
    const ieeeIdx: array<nat>
    const nwkIdx: array<nat>
    var dirty: bool
    /** The devices as the indexes were last built for. */
    ghost var built: seq<Device>

    ghost function Devices(): seq<Device>
      requires count <= devs.Length
      reads this, devs
    {
      devs[..count]
    }

    ghost predicate Sized()
      reads this
    {
      devs.Length == MAX_DEVICES && ieeeIdx.Length == HASH && nwkIdx.Length == HASH && ieeeIdx != nwkIdx && count <= MAX_DEVICES
    }

    ghost predicate Valid()
      reads this, ieeeIdx, nwkIdx
    {
      && Sized()
      && (!dirty ==> |built| == count && Built(ieeeIdx[..], IeeeHomes(built)) && Built(nwkIdx[..], NwkHomes(built)))
    }

    constructor ()
      ensures Valid() && count == 0 && dirty && fresh(devs) && fresh(ieeeIdx) && fresh(nwkIdx)
    {
      devs := new Device[MAX_DEVICES](_ => Zeroed);
      ieeeIdx := new nat[HASH](_ => EMPTY);
      nwkIdx := new nat[HASH](_ => EMPTY);
      count, dirty := 0, true;
      built := [];
    }

    // The first empty slot from `home`, n probes on; there is one within d.
    method FindEmpty(idx: array<nat>, home: nat, ghost d: nat) returns (slot: nat, ghost n: nat)
      requires idx.Length == HASH && home < HASH && d < HASH && idx[Probe(home, d)] == EMPTY
      ensures n < HASH && slot == Probe(home, n) && idx[slot] == EMPTY
      ensures forall e: nat :: e < n ==> idx[Probe(home, e)] != EMPTY
    {
      slot := home;
      n := 0;
      while idx[slot] != EMPTY
        invariant n <= d && slot == Probe(home, n)
        invariant forall e: nat :: e < n ==> idx[Probe(home, e)] != EMPTY
        decreases d - n
      {
        NextProbe(home, n);
        slot := (slot + 1) % HASH;
        n := n + 1;
      }
    }

    // The next entry, at the first empty slot from `home`.
    method Insert(idx: array<nat>, home: nat, i: nat, ghost homes: seq<nat>)
      requires idx.Length == HASH && home < HASH && i == |homes| < MAX_DEVICES
      requires Built(idx[..], homes) && OneEach(idx[..])
      modifies idx
      ensures Built(idx[..], homes + [home]) && OneEach(idx[..])
    {
      ghost var was := idx[..];
      SomeEmpty(was, home, i);
      ghost var d: nat :| d < HASH && was[Probe(home, d)] == EMPTY;
      var slot;
      ghost var n;
      slot, n := FindEmpty(idx, home, d);
      assert forall e: nat :: e < n ==> was[Probe(home, e)] != EMPTY;
      FillBuilt(was, homes, home, n);
      idx[slot] := i;
      assert idx[..] == was[slot := i];
    }

    method Clear(idx: array<nat>)
      requires idx.Length == HASH
      modifies idx
      ensures Built(idx[..], []) && OneEach(idx[..])
    {
      for s := 0 to HASH
        invariant forall t: nat :: t < s ==> idx[t] == EMPTY
      {
        idx[s] := EMPTY;
      }
    }

    method HashRebuild()
      requires Sized()
      modifies this`dirty, this`built, ieeeIdx, nwkIdx
      ensures Valid() && !dirty && built == Devices()
    {
      ghost var all := Devices();
      Clear(ieeeIdx);
      Clear(nwkIdx);
      assert IeeeHomes(all[..0]) == [] && NwkHomes(all[..0]) == [];
      for i := 0 to count
        invariant Built(ieeeIdx[..], IeeeHomes(all[..i])) && OneEach(ieeeIdx[..])
        invariant Built(nwkIdx[..], NwkHomes(all[..i])) && OneEach(nwkIdx[..])
      {
        assert IeeeHomes(all[..i + 1]) == IeeeHomes(all[..i]) + [IeeeHome(devs[i].ieee)];
        assert NwkHomes(all[..i + 1]) == NwkHomes(all[..i]) + [NwkHome(devs[i].nwk)];
        Insert(ieeeIdx, IeeeHome(devs[i].ieee), i, IeeeHomes(all[..i]));
        Insert(nwkIdx, NwkHome(devs[i].nwk), i, NwkHomes(all[..i]));
      }
      assert all[..count] == all;
      dirty := false;
      built := all;
    }

    // The probe loop on an index that is not dirty.
    method ProbeIeee(ieee: nat) returns (r: Option<nat>)
      requires Valid() && !dirty
      ensures IeeeKeys(Devices()) == IeeeKeys(built) ==> r == First(IeeeKeys(Devices()), ieee)
      ensures r.Some? ==> r.value < count && devs[r.value].ieee == ieee
    {
      var home := IeeeHome(ieee);
      var slot := home;
      r := None;
      var probes := 0;
      ghost var at, keys := ieeeIdx[..], IeeeKeys(Devices());
      while probes < HASH
        invariant probes <= HASH && (probes < HASH ==> slot == Probe(home, probes))
        invariant at == ieeeIdx[..] && keys == IeeeKeys(Devices()) && Passed(at, keys, home, probes, ieee)
      {
        var i := ieeeIdx[slot];
        assert at[Probe(home, probes)] == i;
        if i == EMPTY { break; }
        assert i < count && keys[i] == devs[i].ieee;
        if devs[i].ieee == ieee {
          r := Some(i);
          break;
        }
        NextProbe(home, probes);
        slot := (slot + 1) % HASH;
        probes := probes + 1;
      }
      IeeeScan(at, Devices(), built, ieee, probes);
    }

    /** The first device a linear scan would meet, whenever the index was dirty
        or no address changed since it was built; at any time, no device with
        another address. */
    method FindByIeee(ieee: nat) returns (r: Option<nat>)
      requires Valid()
      modifies this`dirty, this`built, ieeeIdx, nwkIdx
      ensures Valid() && !dirty
      ensures old(dirty) || IeeeKeys(Devices()) == IeeeKeys(old(built)) ==> r == First(IeeeKeys(Devices()), ieee)
      ensures r.Some? ==> r.value < count && devs[r.value].ieee == ieee
      ensures built == if old(dirty) then Devices() else old(built)
    {
      if dirty { HashRebuild(); }
      r := ProbeIeee(ieee);
    }

    // The probe loop on an index that is not dirty.
    method ProbeNwk(nwk: nat) returns (r: Option<nat>)
      requires Valid() && !dirty
      ensures NwkKeys(Devices()) == NwkKeys(built) ==> r == First(NwkKeys(Devices()), nwk)
      ensures r.Some? ==> r.value < count && devs[r.value].nwk == nwk
    {
      var home := NwkHome(nwk);
      var slot := home;
      r := None;
      var probes := 0;
      ghost var at, keys := nwkIdx[..], NwkKeys(Devices());
      while probes < HASH
        invariant probes <= HASH && (probes < HASH ==> slot == Probe(home, probes))
        invariant at == nwkIdx[..] && keys == NwkKeys(Devices()) && Passed(at, keys, home, probes, nwk)
      {
        var i := nwkIdx[slot];
        assert at[Probe(home, probes)] == i;
        if i == EMPTY { break; }
        assert i < count && keys[i] == devs[i].nwk;
        if devs[i].nwk == nwk {
          r := Some(i);
          break;
        }
        NextProbe(home, probes);
        slot := (slot + 1) % HASH;
        probes := probes + 1;
      }
      NwkScan(at, Devices(), built, nwk, probes);
    }

    method FindByNwk(nwk: nat) returns (r: Option<nat>)
      requires Valid()
      modifies this`dirty, this`built, ieeeIdx, nwkIdx
      ensures Valid() && !dirty
      ensures old(dirty) || NwkKeys(Devices()) == NwkKeys(old(built)) ==> r == First(NwkKeys(Devices()), nwk)
      ensures r.Some? ==> r.value < count && devs[r.value].nwk == nwk
      ensures built == if old(dirty) then Devices() else old(built)
    {
      if dirty { HashRebuild(); }
      r := ProbeNwk(nwk);
    }

    method Add() returns (i: Option<nat>)
      requires Valid()
      modifies this`count, this`dirty, devs
      ensures Valid()
      ensures old(count) >= MAX_DEVICES ==> i == None && Devices() == old(Devices()) && dirty == old(dirty)
      ensures old(count) < MAX_DEVICES ==> i == Some(old(count)) && dirty && Devices() == old(Devices()) + [Zeroed]
    {
      if count >= MAX_DEVICES { return None; }
      i := Some(count);
      devs[count] := Zeroed;
      count := count + 1;
      dirty := true;
      assert devs[..count] == devs[..count - 1] + [Zeroed];
    }

    method Remove(i: nat)
      requires Valid()
      modifies this`count, this`dirty, devs
      ensures Valid()
      ensures i >= old(count) ==> Devices() == old(Devices()) && dirty == old(dirty)
      ensures i < old(count) ==> dirty && Devices() == SwapRemoved(old(Devices()), i)
    {
      if i < count {
        if i < count - 1 { devs[i] := devs[count - 1]; }
        count := count - 1;
        dirty := true;
      }
    }

    /** A caller writes through the pointer it was given; the index is not told. */
    method Mutate(i: nat, d: Device)
      requires Valid() && i < count
      modifies devs
      ensures Valid() && Devices() == old(Devices())[i := d]
    {
      devs[i] := d;
    }

    method MarkDirty()
      requires Valid()
      modifies this`dirty
      ensures Valid() && dirty
    {
      dirty := true;
    }
  }

  lemma IeeeScan(idx: seq<nat>, devs: seq<Device>, built: seq<Device>, ieee: nat, n: nat)
    requires Built(idx, IeeeHomes(built)) && |devs| == |built| <= MAX_DEVICES && n <= HASH
    requires Passed(idx, IeeeKeys(devs), IeeeHome(ieee), n, ieee)
    ensures IeeeKeys(devs) == IeeeKeys(built) ==>
              && ((n == HASH || idx[Probe(IeeeHome(ieee), n)] == EMPTY) ==> First(IeeeKeys(devs), ieee) == None)
              && (n < HASH && idx[Probe(IeeeHome(ieee), n)] < |devs| && devs[idx[Probe(IeeeHome(ieee), n)]].ieee == ieee
                  ==> First(IeeeKeys(devs), ieee) == Some(idx[Probe(IeeeHome(ieee), n)]))
  {
    if IeeeKeys(devs) == IeeeKeys(built) {
      forall i: nat | i < |devs| && IeeeKeys(devs)[i] == ieee
        ensures IeeeHomes(built)[i] == IeeeHome(ieee)
      {
        assert IeeeKeys(built)[i] == ieee;
      }
      ProbeIsScan(idx, IeeeKeys(devs), IeeeHomes(built), IeeeHome(ieee), n, ieee);
    }
  }

  lemma NwkScan(idx: seq<nat>, devs: seq<Device>, built: seq<Device>, nwk: nat, n: nat)
    requires Built(idx, NwkHomes(built)) && |devs| == |built| <= MAX_DEVICES && n <= HASH
    requires Passed(idx, NwkKeys(devs), NwkHome(nwk), n, nwk)
    ensures NwkKeys(devs) == NwkKeys(built) ==>
              && ((n == HASH || idx[Probe(NwkHome(nwk), n)] == EMPTY) ==> First(NwkKeys(devs), nwk) == None)
              && (n < HASH && idx[Probe(NwkHome(nwk), n)] < |devs| && devs[idx[Probe(NwkHome(nwk), n)]].nwk == nwk
                  ==> First(NwkKeys(devs), nwk) == Some(idx[Probe(NwkHome(nwk), n)]))
  {
    if NwkKeys(devs) == NwkKeys(built) {
      forall i: nat | i < |devs| && NwkKeys(devs)[i] == nwk
        ensures NwkHomes(built)[i] == NwkHome(nwk)
      {
        assert NwkKeys(built)[i] == nwk;
      }
      ProbeIsScan(idx, NwkKeys(devs), NwkHomes(built), NwkHome(nwk), n, nwk);
    }
  }
}
