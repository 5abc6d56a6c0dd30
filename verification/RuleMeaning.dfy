/** What the rule engine of SimpleRules does, in plain terms: when a report, an event or a timer
    fires a rule, in which order its events go on, and what the cap on feedback lets through. */
module RuleMeaning {
  import opened Wrappers
  import opened SimpleRules
  import P = ShadowPipeline

  // ── Reports ────────────────────────────────────────────────────────

  /** A trigger on one attribute of a known device, other than those whose every report counts. */
  predicate Watches(t: Trigger) {
    t.DeviceAttr? && t.ieee != 0
    && t.key !in {"", "action", "click", "event", "scene", "action_code", "pin_code"}
  }

  /** A reading at the scale of the literal: a decimal literal is held times 100, and so is every
      float reading; other readings are lifted to meet it. */
  function AtScale(x100: bool, typ: P.ValType, n: int): int {
    if !x100 || typ == P.VFloat then n else 100 * n
  }

  lemma NumberRises(t: Trigger, vt: P.ValType, v: int, wt: P.ValType, w: int, a: int, b: int)
    requires t.DeviceAttr? && t.lit.LitNum? && a == AtScale(t.lit.x100, vt, v) && b == AtScale(t.lit.x100, wt, w)
    ensures Rises(t, Num(vt, v), Num(wt, w)) <==>
            match t.op
            case Gt => b > t.lit.n && a <= t.lit.n
            case Lt => b < t.lit.n && a >= t.lit.n
            case Gte => b >= t.lit.n && a < t.lit.n
            case Lte => b <= t.lit.n && a > t.lit.n
            case Eq => b == t.lit.n && a != t.lit.n
            case Neq => b != t.lit.n && a == t.lit.n
            case Any => w != v
  {
  }

  /** After any run of dispatches, a number that is reported after a number: the rule fires exactly
      when the report comes to it and the comparison holds of the new number and not of the old
      one; a bare attribute when they differ. */
  lemma FiresOnNumber(rules: seq<Rule>, ds: seq<Dispatch>, i: nat, vt: P.ValType, v: int, wt: P.ValType, w: int,
                      a: int, b: int)
    requires i < |rules| && Watches(rules[i].trigger) && rules[i].trigger.lit.LitNum?
    requires LastMet(rules, ds, i) == Some(Num(vt, v))
    requires a == AtScale(rules[i].trigger.lit.x100, vt, v) && b == AtScale(rules[i].trigger.lit.x100, wt, w)
    ensures i < |AfterAll(rules, ds)|
    ensures var t, now := rules[i].trigger, AfterAll(rules, ds);
            var ev, n := Report(t.ieee, t.key, Num(wt, w)), t.lit.n;
            Picks(now, ev, i) <==>
            && Looked(now, ev, i)
            && match t.op
               case Gt => b > n && a <= n
               case Lt => b < n && a >= n
               case Gte => b >= n && a < n
               case Lte => b <= n && a > n
               case Eq => b == n && a != n
               case Neq => b != n && a == n
               case Any => w != v
  {
    var t := rules[i].trigger;
    FiresExactly(rules, ds, Report(t.ieee, t.key, Num(wt, w)), i);
    NumberRises(t, vt, v, wt, w, a, b);
  }

  /** A text that is reported after a text: only equality and its opposite compare texts. */
  lemma FiresOnText(rules: seq<Rule>, ds: seq<Dispatch>, i: nat, v: string, w: string)
    requires i < |rules| && Watches(rules[i].trigger) && rules[i].trigger.lit.LitStr?
    requires LastMet(rules, ds, i) == Some(Str(v))
    ensures i < |AfterAll(rules, ds)|
    ensures var t, now := rules[i].trigger, AfterAll(rules, ds);
            var ev, s := Report(t.ieee, t.key, Str(w)), t.lit.text;
            && (t.op == Eq ==> (Picks(now, ev, i) <==> Looked(now, ev, i) && w == s && v != s))
            && (t.op == Neq ==> (Picks(now, ev, i) <==> Looked(now, ev, i) && w != s && v == s))
            && (t.op == Any ==> (Picks(now, ev, i) <==> Looked(now, ev, i) && w != v))
            && (t.op in {Gt, Lt, Gte, Lte} ==> !Picks(now, ev, i))
  {
    var t := rules[i].trigger;
    FiresExactly(rules, ds, Report(t.ieee, t.key, Str(w)), i);
  }

  /** A number never meets a text: neither kind of report fires a comparison with the other, and a
      bare attribute that changes kind has changed. */
  lemma KindsNeverMeet(rules: seq<Rule>, ds: seq<Dispatch>, ev: Event, i: nat)
    requires i < |rules| && Watches(rules[i].trigger)
    requires ev.Report? && ev.ieee == rules[i].trigger.ieee && ev.key == rules[i].trigger.key
    ensures i < |AfterAll(rules, ds)|
    ensures rules[i].trigger.op != Any && ev.val.Num? != rules[i].trigger.lit.LitNum? && LastMet(rules, ds, i).Some? ==>
              !Picks(AfterAll(rules, ds), ev, i)
    ensures rules[i].trigger.op == Any && LastMet(rules, ds, i).Some?
            && LastMet(rules, ds, i).value.Num? != ev.val.Num? ==>
              (Picks(AfterAll(rules, ds), ev, i) <==> Looked(AfterAll(rules, ds), ev, i))
  {
    FiresExactly(rules, ds, ev, i);
  }

  /** The first number that comes to a rule without memory fires it when the comparison holds, and
      a bare attribute in any case. */
  lemma FirstNumberFires(rules: seq<Rule>, ds: seq<Dispatch>, i: nat, wt: P.ValType, w: int, b: int)
    requires i < |rules| && Watches(rules[i].trigger) && rules[i].trigger.lit.LitNum?
    requires LastMet(rules, ds, i).None? && !rules[i].edge.known
    requires b == AtScale(rules[i].trigger.lit.x100, wt, w)
    ensures i < |AfterAll(rules, ds)|
    ensures var t, now := rules[i].trigger, AfterAll(rules, ds);
            var ev, n := Report(t.ieee, t.key, Num(wt, w)), t.lit.n;
            Picks(now, ev, i) <==>
            && Looked(now, ev, i)
            && match t.op
               case Gt => b > n
               case Lt => b < n
               case Gte => b >= n
               case Lte => b <= n
               case Eq => b == n
               case Neq => b != n
               case Any => true
  {
    var t := rules[i].trigger;
    FiresExactly(rules, ds, Report(t.ieee, t.key, Num(wt, w)), i);
  }

  /** A rule on a whole device fires at every report of it, a rule on one of the momentary keys at
      every report of that key, whatever was reported before. */
  lemma EveryReportFires(rules: seq<Rule>, ds: seq<Dispatch>, ev: Event, i: nat)
    requires i < |rules| && ev.Report? && rules[i].trigger.DeviceAttr? && rules[i].trigger.ieee == ev.ieee != 0
    requires || rules[i].trigger.key == ""
             || (rules[i].trigger.op == Any && rules[i].trigger.key == ev.key
                 && ev.key in {"action", "click", "event", "scene", "action_code", "pin_code"})
    ensures i < |AfterAll(rules, ds)|
    ensures Picks(AfterAll(rules, ds), ev, i) <==> Looked(AfterAll(rules, ds), ev, i)
  {
    TriggerStays(rules, ds, i);
    ScannedAt(AfterAll(rules, ds), ev, i, |AfterAll(rules, ds)|);
  }

  /** A report of another device or key never fires a rule, and a name without a device is inert. */
  lemma OthersNeverFire(rules: seq<Rule>, ds: seq<Dispatch>, ev: Event, i: nat)
    requires i < |rules| && ev.Report? && rules[i].trigger.DeviceAttr?
    requires || rules[i].trigger.ieee == 0 || rules[i].trigger.ieee != ev.ieee
             || (rules[i].trigger.key != "" && rules[i].trigger.key != ev.key)
    ensures !Picks(AfterAll(rules, ds), ev, i)
  {
    TriggerStays(rules, ds, i);
    ScannedAt(AfterAll(rules, ds), ev, i, |AfterAll(rules, ds)|);
  }

  /** A rule event fires the rules of its name, a timer those of its number, a message those of its
      topic and a start those of the start; nothing fires a rule that waits for something else. */
  lemma NamedTriggers(rules: seq<Rule>, ds: seq<Dispatch>, ev: Event, i: nat)
    requires i < |rules| && !ev.Report?
    ensures i < |AfterAll(rules, ds)|
    ensures Picks(AfterAll(rules, ds), ev, i) <==>
            && Looked(AfterAll(rules, ds), ev, i)
            && (ev.RuleEvent? ==> rules[i].trigger == EventNamed(ev.name))
            && (ev.TimerFired? ==> rules[i].trigger == TimerIs(ev.idx))
            && (ev.Mqtt? ==> rules[i].trigger == Topic(ev.topic))
            && (ev.Started? ==> rules[i].trigger == Boot)
  {
    TriggerStays(rules, ds, i);
    ScannedAt(AfterAll(rules, ds), ev, i, |AfterAll(rules, ds)|);
  }

  // The rules picked among the first n, in ascending order.
  predicate Ascends(picked: seq<nat>) {
    forall j, k :: 0 <= j < k < |picked| ==> picked[j] < picked[k]
  }

  lemma {:induction false} PicksAscend(rules: seq<Rule>, ev: Event, n: nat)
    requires n <= |rules|
    ensures Ascends(Scanned(rules, ev, n).1)
  {
    if n > 0 { PicksAscend(rules, ev, n - 1); }
  }

  function Elements(s: seq<nat>): set<nat> { set k | k in s }

  lemma ElementsNext(front: seq<nat>, a: nat)
    requires a !in front
    ensures |Elements(front + [a])| == |Elements(front)| + 1
  {
    assert Elements(front + [a]) == Elements(front) + {a};
  }

  lemma AscendsFront(picked: seq<nat>, front: seq<nat>, a: nat)
    requires Ascends(picked) && picked == front + [a]
    ensures Ascends(front) && a !in front
  {
    forall k | 0 <= k < |front| ensures front[k] == picked[k] && front[k] < a {
      assert picked[k] < picked[|front|];
    }
    forall j, k | 0 <= j < k < |front| ensures front[j] < front[k] {
      assert picked[j] < picked[k];
    }
  }

  lemma {:induction false} AscendingCount(picked: seq<nat>)
    requires Ascends(picked)
    ensures |Elements(picked)| == |picked|
    decreases |picked|
  {
    if picked == [] {
      assert Elements(picked) == {};
    } else {
      var front, a := picked[..|picked| - 1], picked[|picked| - 1];
      AscendsFront(picked, front, a);
      AscendingCount(front);
      ElementsNext(front, a);
    }
  }

  /** An event comes to a rule exactly when the rule is enabled and fewer than 16 rules before it in
      the table are picked for it. */
  lemma ComesTo(rules: seq<Rule>, ev: Event, i: nat)
    requires i < |rules|
    ensures Looked(rules, ev, i) <==>
            rules[i].enabled && |set k: nat | k < i && Picks(rules, ev, k)| < 16
    ensures Picks(rules, ev, i) ==> rules[i].enabled
  {
    var picked := Scanned(rules, ev, i).1;
    PicksAscend(rules, ev, i);
    AscendingCount(picked);
    forall k: nat | k < i ensures k in picked <==> Picks(rules, ev, k) {
      ScannedAt(rules, ev, k, i);
      ScannedAt(rules, ev, k, |rules|);
    }
    assert (set k: nat | k < i && Picks(rules, ev, k)) == Elements(picked);
    ScannedAt(rules, ev, i, |rules|);
  }

  lemma {:induction false} TriggerStays(rules: seq<Rule>, ds: seq<Dispatch>, i: nat)
    requires i < |rules|
    ensures var now := AfterAll(rules, ds); |now| == |rules| && now[i].trigger == rules[i].trigger
    decreases |ds|
  {
    if ds != [] {
      var n := |ds| - 1;
      TriggerStays(rules, ds[..n], i);
      DispatchedAt(AfterAll(rules, ds[..n]), ds[n].ev, ds[n].now, ds[n].works, i);
    }
  }

  /** An edit while the shadow does not know the attribute: the rule keeps its memory when device,
      key, operator and literal stay the same, numbers compared by the number alone; else it forgets. */
  lemma EditKeepsMemory(was: Rule, t: Trigger, acts: seq<Action>)
    requires Watches(t) && was.trigger.DeviceAttr?
    ensures var same := && was.trigger.ieee == t.ieee && was.trigger.key == t.key && was.trigger.op == t.op
                        && was.trigger.lit.LitNum? == t.lit.LitNum?
                        && (t.lit.LitNum? ==> was.trigger.lit.n == t.lit.n) && (t.lit.LitStr? ==> was.trigger.lit.text == t.lit.text);
            Edited(was, t, acts, map[]) == was.(trigger := t, actions := acts, edge := if same then was.edge else NoEdge())
    ensures !NoEdge().known
  {
  }

  /** And while the shadow knows it, the memory is the shadow's value, whatever it was before. */
  lemma EditTakesShadow(was: Rule, t: Trigger, acts: seq<Action>, shadow: Shadow)
    requires Watches(t) && (t.ieee, t.key) in shadow
    ensures var r := Edited(was, t, acts, shadow);
            r == was.(trigger := t, actions := acts, edge := r.edge) && r.edge.known && r.edge.last == shadow[(t.ieee, t.key)]
  {
  }

  // ── Actions and the queue ──────────────────────────────────────────

  /** Whether action `k` fails: an event does at the end of its chain, a log line never, the others
      when their work does. */
  predicate Fails(acts: seq<Action>, id: nat, hop: nat, works: Works, k: nat)
    requires k < |acts|
  {
    match acts[k]
    case Emit(_) => hop >= 8
    case Log => false
    case _ => (id, k) !in works
  }

  /** A run reports the first action that failed, counted from one, and 0 when none did. */
  lemma {:induction false} FirstFailure(acts: seq<Action>, id: nat, hop: nat, works: Works, n: nat)
    requires n <= |acts|
    ensures var f := FailedAt(acts, id, hop, works, n);
            && f <= n
            && (f == 0 ==> forall k :: 0 <= k < n ==> !Fails(acts, id, hop, works, k))
            && (f > 0 ==> Fails(acts, id, hop, works, f - 1) && forall k :: 0 <= k < f - 1 ==> !Fails(acts, id, hop, works, k))
  {
    if n > 0 { FirstFailure(acts, id, hop, works, n - 1); }
  }

  /** The names of the events among some actions. */
  function Names(acts: seq<Action>): seq<string> {
    if acts == [] then [] else (if acts[0].Emit? then [acts[0].name] else []) + Names(acts[1..])
  }

  /** A run within its chain publishes each of its events once, in the order of its actions, one
      hop on; at hop 8 it publishes nothing. */
  lemma {:induction false} EmitsInOrder(acts: seq<Action>, hop: nat)
    ensures hop < 8 ==> Emitted(acts, hop) == seq(|Names(acts)|, k requires 0 <= k < |Names(acts)| => RuleEvent(Names(acts)[k], hop + 1))
    ensures hop >= 8 ==> Emitted(acts, hop) == []
    decreases |acts|
  {
    if hop < 8 && acts != [] {
      var n := |acts| - 1;
      EmitsInOrder(acts[..n], hop);
      NamesLast(acts[..n], acts[n]);
      assert acts[..n] + [acts[n]] == acts;
    }
  }

  lemma {:induction false} NamesLast(acts: seq<Action>, a: Action)
    ensures Names(acts + [a]) == Names(acts) + if a.Emit? then [a.name] else []
    decreases |acts|
  {
    if acts != [] {
      NamesLast(acts[1..], a);
      assert (acts + [a])[1..] == acts[1..] + [a];
    } else {
      assert ([] + [a])[1..] == [];
    }
  }

  function Newest(all: seq<Event>): seq<Event> {
    if |all| <= 16 then all else all[|all| - 16..]
  }

  lemma NewestNext(all: seq<Event>, e: Event)
    ensures Push(Newest(all), e) == Newest(all + [e])
  {
    var n := |all|;
    if n > 16 {
      assert all[n - 16..][1..] == all[n - 15..];
      assert (all + [e])[n - 15..] == all[n - 15..] + [e];
    } else if n == 16 {
      assert (all + [e])[1..] == all[1..] + [e];
    }
  }

  /** What is queued is the newest 16 of what was there and what came, in order. */
  lemma {:induction false} NewestSixteen(q: seq<Event>, out: seq<Event>)
    requires |q| <= 16
    ensures PushAll(q, out) == Newest(q + out)
    decreases |out|
  {
    if out == [] {
      assert q + out == q;
    } else {
      var front, e := out[..|out| - 1], out[|out| - 1];
      NewestSixteen(q, front);
      NewestNext(q + front, e);
      assert q + out == (q + front) + [e];
    }
  }

  /** A rule that publishes the event it waits for is cut at the eighth hop: each dispatch up to it
      publishes one event, one hop on, and the one at hop 8 none. */
  lemma SelfFeeding(r: Rule, name: string, hop: nat, now: nat, works: Works)
    requires r.enabled && r.trigger == EventNamed(name) && r.actions == [Emit(name)]
    ensures Dispatched([r], RuleEvent(name, hop), now, works).1 == if hop < 8 then [RuleEvent(name, hop + 1)] else []
  {
    var ev := RuleEvent(name, hop);
    ScannedOnce(r, ev);
    PairedNext([r], [], 0);
    assert [] + [0] == [0];
    assert Paired([r], [0]) == [(0, r.id)];
    FiredOnce(r, ev, name, now, works);
  }

  lemma ScannedOnce(r: Rule, ev: Event)
    requires ev.RuleEvent? && r.enabled && r.trigger == EventNamed(ev.name)
    ensures Scanned([r], ev, 1) == ([r], [0])
  {
    assert Scanned([r], ev, 0) == ([r], []);
    ScannedNext([r], ev, 0);
    assert Met(r, ev) == (Fire, r);
    assert [r][0 := r] == [r] && [] + [0] == [0];
  }

  lemma FiredOnce(r: Rule, ev: Event, name: string, now: nat, works: Works)
    requires ev.RuleEvent? && r.enabled && r.trigger == EventNamed(name) && r.actions == [Emit(name)]
    ensures FiredAll([r], [(0, r.id)], ev, now, works, 1).1 == if ev.hop < 8 then [RuleEvent(name, ev.hop + 1)] else []
  {
    assert FiredAll([r], [(0, r.id)], ev, now, works, 0) == ([r], []);
    EmitsInOrder([Emit(name)], ev.hop);
    NamesLast([], Emit(name));
    assert [] + [Emit(name)] == [Emit(name)];
  }

  /** What a run of dispatches publishes, in order. */
  function Published(rules: seq<Rule>, ds: seq<Dispatch>): seq<Event>
    decreases |ds|
  {
    if ds == [] then []
    else
      var n := |ds| - 1;
      Published(rules, ds[..n]) + Dispatched(AfterAll(rules, ds[..n]), ds[n].ev, ds[n].now, ds[n].works).1
  }

  function Events(ds: seq<Dispatch>): seq<Event> {
    seq(|ds|, k requires 0 <= k < |ds| => ds[k].ev)
  }

  /** The queue was never too full for what the next dispatch published. */
  predicate HadRoom(rules: seq<Rule>, q: seq<Event>, ds: seq<Dispatch>)
    decreases |ds|
  {
    ds == []
    || (var n := |ds| - 1;
        && HadRoom(rules, q, ds[..n])
        && |QueueAfter(rules, q, ds[..n])| + |Dispatched(AfterAll(rules, ds[..n]), ds[n].ev, ds[n].now, ds[n].works).1| <= 17)
  }

  /** The events dispatched, in order, and then those still queued are the events there were and
      then those published, in order: while the queue has room none is lost, repeated or passed. */
  lemma {:induction false} DispatchedInOrder(rules: seq<Rule>, q: seq<Event>, ds: seq<Dispatch>)
    requires |q| <= 16 && InOrder(rules, q, ds) && HadRoom(rules, q, ds)
    ensures |QueueAfter(rules, q, ds)| <= 16
    ensures Events(ds) + QueueAfter(rules, q, ds) == q + Published(rules, ds)
    decreases |ds|
  {
    if ds != [] {
      var n := |ds| - 1;
      var front := ds[..n];
      InOrderFront(rules, q, ds);
      DispatchedInOrder(rules, q, front);
      EventsNext(ds);
      var w := QueueAfter(rules, q, front);
      var out := Dispatched(AfterAll(rules, front), ds[n].ev, ds[n].now, ds[n].works).1;
      OneMore(Events(front), w, ds[n].ev, out, q, Published(rules, front));
    } else {
      assert Events(ds) == [] && q + [] == q && [] + q == q;
    }
  }

  lemma EventsNext(ds: seq<Dispatch>)
    requires ds != []
    ensures Events(ds) == Events(ds[..|ds| - 1]) + [ds[|ds| - 1].ev]
  {
  }

  lemma InOrderFront(rules: seq<Rule>, q: seq<Event>, ds: seq<Dispatch>)
    requires ds != [] && InOrder(rules, q, ds)
    ensures InOrder(rules, q, ds[..|ds| - 1])
    ensures var w := QueueAfter(rules, q, ds[..|ds| - 1]); w != [] && ds[|ds| - 1].ev == w[0]
  {
    var n := |ds| - 1;
    forall k | 0 <= k < n ensures TakesOldest(rules, q, ds[..n], k) {
      assert TakesOldest(rules, q, ds, k);
      assert ds[..n][..k] == ds[..k];
    }
    assert TakesOldest(rules, q, ds, n);
  }

  lemma OneMore(done: seq<Event>, w: seq<Event>, ev: Event, out: seq<Event>, q: seq<Event>, all: seq<Event>)
    requires w != [] && ev == w[0] && done + w == q + all && |w| <= 16 && |w| + |out| <= 17
    ensures (done + [ev]) + PushAll(w[1..], out) == q + (all + out) && |PushAll(w[1..], out)| <= 16
  {
    NewestSixteen(w[1..], out);
    assert |w[1..] + out| <= 16;
    assert (done + [ev]) + (w[1..] + out) == (done + w) + out;
    assert q + (all + out) == (q + all) + out;
  }

  // ── The cap ────────────────────────────────────────────────────────

  /** An automatic run is let go exactly when its rule is still in place and enabled, unless the
      rule drives a device or a script from an attribute and had its 20 runs in this window. */
  lemma RunsExactly(rules: seq<Rule>, idx: nat, id: nat, now: nat)
    ensures Admitted(rules, idx, id, false, now).1 <==>
            && idx < |rules| && rules[idx].id == id && rules[idx].enabled
            && !(&& Watches(rules[idx].trigger)
                 && (SetAttr in rules[idx].actions || Toggle in rules[idx].actions || Script in rules[idx].actions)
                 && rules[idx].stat.minuteRuns >= 20 && Elapsed(now, rules[idx].stat.minuteStart) < 60)
    ensures Admitted(rules, idx, id, true, now).1 <==> idx < |rules| && rules[idx].id == id
  {
    if idx < |rules| {
      var acts := rules[idx].actions;
      if SetAttr in acts { var k :| 0 <= k < |acts| && acts[k] == SetAttr; }
      if Toggle in acts { var k :| 0 <= k < |acts| && acts[k] == Toggle; }
      if Script in acts { var k :| 0 <= k < |acts| && acts[k] == Script; }
    }
  }

  /** A run that is let go publishes its rule's events and is booked on that rule: one more run, the
      time as the 32-bit clock has it, and the first failed action. No other rule changes, and a run
      that is held publishes nothing. */
  lemma RunBooked(rules: seq<Rule>, idx: nat, id: nat, ev: Option<Event>, manual: bool, now: nat, works: Works)
    ensures var (rs, out) := Fired(rules, idx, id, ev, manual, now, works);
            && |rs| == |rules| && (forall k :: 0 <= k < |rules| && k != idx ==> rs[k] == rules[k])
            && if Admitted(rules, idx, id, manual, now).1 then
                 var hop := if ev.Some? && ev.value.RuleEvent? then ev.value.hop else 0;
                 var failed := FailedAt(rules[idx].actions, id, hop, works, |rules[idx].actions|);
                 var st := rs[idx].stat;
                 && out == Emitted(rules[idx].actions, hop)
                 && st.runs == rules[idx].stat.runs + 1 && st.firedAt == now % 4294967296 && st.skipAction == failed
                 && st.skip == (if failed > 0 then ActionError else NoSkip)
                 && rs[idx] == rules[idx].(stat := st)
               else
                 && out == []
                 && (idx < |rules| ==> rs[idx].stat.runs == rules[idx].stat.runs && rs[idx] == rules[idx].(stat := rs[idx].stat))
  {
  }

  /** The picked rules run one after the other: the last one starts from the table the others left,
      and its events come after theirs. */
  lemma RunInOrder(rules: seq<Rule>, m: seq<(nat, nat)>, x: (nat, nat), ev: Event, now: nat, works: Works)
    ensures var (rs, out) := FiredAll(rules, m, ev, now, works, |m|);
            var (r2, more) := Fired(rs, x.0, x.1, Some(ev), false, now, works);
            FiredAll(rules, m + [x], ev, now, works, |m| + 1) == (r2, out + more)
  {
    FiredFront(rules, m, [x], ev, now, works, |m|);
    var (rs, out) := FiredAll(rules, m, ev, now, works, |m|);
    OneRun(rules, m + [x], ev, now, works, |m|, rs, out, x);
  }

  lemma OneRun(rules: seq<Rule>, m: seq<(nat, nat)>, ev: Event, now: nat, works: Works, n: nat,
               rs: seq<Rule>, out: seq<Event>, x: (nat, nat))
    requires n < |m| && m[n] == x && FiredAll(rules, m, ev, now, works, n) == (rs, out)
    ensures var (r2, more) := Fired(rs, x.0, x.1, Some(ev), false, now, works);
            FiredAll(rules, m, ev, now, works, n + 1) == (r2, out + more)
  {
  }

  lemma {:induction false} FiredFront(rules: seq<Rule>, a: seq<(nat, nat)>, b: seq<(nat, nat)>, ev: Event, now: nat,
                                      works: Works, n: nat)
    requires n <= |a|
    ensures FiredAll(rules, a + b, ev, now, works, n) == FiredAll(rules, a, ev, now, works, n)
  {
    if n > 0 {
      FiredFront(rules, a, b, ev, now, works, n - 1);
      assert (a + b)[n - 1] == a[n - 1];
    }
  }
}
