/** The rule engine (components/simple_rules/simple_rules.cpp): triggers that fire on a change,
    rule-to-rule event chains that die out, and the cap on rules that can feed back.

    Rules without scripts: a script may publish events of its own. Action effects on devices, MQTT
    and timers are left to the outside; whether an action worked is an input. */
module SimpleRules {
  import opened Wrappers
  import P = ShadowPipeline

  // ── Data ───────────────────────────────────────────────────────────

  datatype Val = Num(typ: P.ValType, n: int) | Str(text: string)

  datatype Op = Any | Eq | Neq | Gt | Lt | Gte | Lte

  /** The literal of a comparison; a number with a decimal point is held times 100. */
  datatype Literal = LitNum(n: int, x100: bool) | LitStr(text: string)

  /** `ieee` 0 is a name that no device has. An empty key stands for every attribute. */
  datatype Trigger =
    | DeviceAttr(ieee: nat, key: string, op: Op, lit: Literal)
    | EventNamed(name: string)
    | TimerIs(idx: int)
    | Topic(topic: string)
    | Cron
    | Boot

  datatype Action = SetAttr | Toggle | Publish | Emit(name: string) | Timer | Log | Script

  datatype Event =
    | Report(ieee: nat, key: string, val: Val)
    | RuleEvent(name: string, hop: nat)
    | TimerFired(idx: int)
    | Mqtt(topic: string)
    | Started

  datatype Edge = Edge(known: bool, matched: bool, last: Val)

  datatype Skip = NoSkip | Unchanged | ConditionFalse | ActionError | RateLimited

  datatype Stat = Stat(runs: nat, firedAt: nat, skip: Skip, skipAction: nat,
                       minuteRuns: nat, minuteStart: nat)

  datatype Rule = Rule(id: nat, enabled: bool, trigger: Trigger, actions: seq<Action>,
                       edge: Edge, stat: Stat)

  function NoEdge(): Edge { Edge(false, false, Num(P.VInt, 0)) }

  function NoStat(): Stat { Stat(0, 0, NoSkip, 0, 0, 0) }

  // ── Matching ───────────────────────────────────────────────────────

  function Compare(op: Op, a: int, b: int): bool {
    match op
    case Any => true
    case Eq => a == b
    case Neq => a != b
    case Gt => a > b
    case Lt => a < b
    case Gte => a >= b
    case Lte => a <= b
  }

  /** The comparison of a trigger with a reported value: numbers of any kind with numbers, text
      with text and then only for equality. */
  predicate Holds(op: Op, lit: Literal, v: Val) {
    if op == Any then true
    else match (v, lit)
      case (Num(typ, n), LitNum(m, x100)) => Compare(op, if x100 && typ != P.VFloat then n * 100 else n, m)
      case (Str(a), LitStr(b)) => if op == Eq then a == b else if op == Neq then a != b else false
      case _ => false
  }

  predicate About(t: Trigger, ieee: nat, key: string) {
    t.DeviceAttr? && t.ieee != 0 && t.ieee == ieee && (t.key == "" || t.key == key)
  }

  predicate Matches(t: Trigger, ev: Event) {
    match ev
    case Report(ieee, key, val) => About(t, ieee, key) && (t.key == "" || Holds(t.op, t.lit, val))
    case Started => t.Boot?
    case RuleEvent(name, _) => t.EventNamed? && t.name == name
    case TimerFired(idx) => t.TimerIs? && t.idx == idx
    case Mqtt(topic) => t.Topic? && t.topic == topic
  }

  predicate Momentary(k: string) {
    k == "action" || k == "click" || k == "event" || k == "scene" || k == "action_code" || k == "pin_code"
  }

  predicate HasEdge(t: Trigger) {
    t.DeviceAttr? && t.ieee != 0 && t.key != "" && !Momentary(t.key)
  }

  predicate SameValue(a: Val, b: Val) {
    match (a, b)
    case (Num(_, m), Num(_, n)) => m == n
    case (Str(s), Str(t)) => s == t
    case _ => false
  }

  datatype Verdict = Nothing | Fire | Same | NotMet

  /** What one event means to a rule, and its trigger memory afterwards. */
  function Evaluate(r: Rule, ev: Event): (Verdict, Edge) {
    if !ev.Report? || !r.trigger.DeviceAttr? then
      (if Matches(r.trigger, ev) then Fire else Nothing, r.edge)
    else if !About(r.trigger, ev.ieee, ev.key) then (Nothing, r.edge)
    else
      var holds := Matches(r.trigger, ev);
      if !HasEdge(r.trigger) then (if holds then Fire else NotMet, r.edge)
      else
        var was := r.edge.known && r.edge.matched;
        var changed := !r.edge.known || !SameValue(r.edge.last, ev.val);
        var e := Edge(true, holds, ev.val);
        (if !holds then NotMet
         else if (if r.trigger.op == Any then changed else !was) then Fire
         else Same, e)
  }

  function Remembered(r: Rule, ev: Event): Rule {
    r.(edge := Evaluate(r, ev).1)
  }

  /** A rule loaded while the shadow knows its attribute: the heartbeat that repeats the value
      never fires it. `kept` is what the rule it replaces remembered. */
  function Seeded(r: Rule, kept: Option<Edge>, shadow: Option<Val>): Rule {
    if !HasEdge(r.trigger) then r.(edge := NoEdge())
    else if shadow.Some? then
      Remembered(r.(edge := NoEdge()), Report(r.trigger.ieee, r.trigger.key, shadow.value))
    else r.(edge := if kept.Some? then kept.value else NoEdge())
  }

  lemma HeartbeatNeverFires(r: Rule, kept: Option<Edge>, v: Val)
    requires HasEdge(r.trigger)
    ensures Evaluate(Seeded(r, kept, Some(v)), Report(r.trigger.ieee, r.trigger.key, v)).0 != Fire
    ensures Seeded(r, None, None).edge == NoEdge()
  {
  }

  // ── Chains of rule events ──────────────────────────────────────────

  /** The hop of the event a rule was fired by; anything but a rule event starts a chain. */
  function HopOf(ev: Option<Event>): nat {
    if ev.Some? && ev.value.RuleEvent? then ev.value.hop else 0
  }

  /** The events that a rule's actions publish, in order. */
  function Emitted(actions: seq<Action>, hop: nat): (out: seq<Event>)
    ensures |out| <= |actions|
    ensures hop >= 8 ==> out == []
    ensures forall i :: 0 <= i < |out| ==> out[i].RuleEvent? && out[i].hop == hop + 1
    decreases |actions|
  {
    if actions == [] || hop >= 8 then []
    else
      var front := Emitted(actions[..|actions| - 1], hop);
      var a := actions[|actions| - 1];
      if a.Emit? then front + [RuleEvent(a.name, hop + 1)] else front
  }

  /** The queue of the engine's rule events holds 16; a full one loses its oldest event. */
  function Push(q: seq<Event>, e: Event): (r: seq<Event>)
    ensures |q| <= 16 ==> |r| <= 16
  {
    if |q| < 16 then q + [e] else q[1..] + [e]
  }

  function PushAll(q: seq<Event>, out: seq<Event>): (r: seq<Event>)
    ensures |q| <= 16 ==> |r| <= 16
    decreases |out|
  {
    if out == [] then q else Push(PushAll(q, out[..|out| - 1]), out[|out| - 1])
  }

  lemma {:induction false} PushAllConcat(q: seq<Event>, a: seq<Event>, b: seq<Event>)
    ensures PushAll(q, a + b) == PushAll(PushAll(q, a), b)
    decreases |b|
  {
    if b == [] {
      assert a + b == a;
    } else {
      PushAllConcat(q, a, b[..|b| - 1]);
      assert (a + b)[..|a + b| - 1] == a + b[..|b| - 1];
    }
  }

  /** What one dispatch may publish: at most 16 rules of at most four actions, each event one hop
      on, nothing from hop 8 on. It holds of every rule set, also one edited between dispatches. */
  predicate Publishes(hop: nat, out: seq<Event>) {
    && |out| <= 64
    && (hop >= 8 ==> out == [])
    && forall i :: 0 <= i < |out| ==> out[i].RuleEvent? && out[i].hop == hop + 1
  }

  /** Dispatches that an event of hop `h` can still cause, itself included. */
  function Worth(h: nat): nat
    decreases 8 - h
  {
    if h >= 8 then 1 else 1 + 64 * Worth(h + 1)
  }

  function HopIn(e: Event): nat {
    if e.RuleEvent? then e.hop else 0
  }

  function Load(q: seq<Event>): nat
    decreases |q|
  {
    if q == [] then 0 else Load(q[..|q| - 1]) + Worth(HopIn(q[|q| - 1]))
  }

  lemma {:induction false} LoadFront(q: seq<Event>)
    requires q != []
    ensures Load(q) == Worth(HopIn(q[0])) + Load(q[1..])
    decreases |q|
  {
    if |q| == 1 {
      assert q[..0] == [] && q[1..] == [];
    } else {
      LoadFront(q[..|q| - 1]);
      assert q[..|q| - 1][1..] == q[1..][..|q| - 2];
    }
  }

  lemma LoadPush(q: seq<Event>, e: Event)
    ensures Load(Push(q, e)) <= Load(q) + Worth(HopIn(e))
  {
    if |q| < 16 {
      assert (q + [e])[..|q|] == q;
    } else {
      LoadFront(q);
      assert (q[1..] + [e])[..|q| - 1] == q[1..];
    }
  }

  lemma {:induction false} LoadPushAll(q: seq<Event>, out: seq<Event>, w: nat)
    requires forall i :: 0 <= i < |out| ==> Worth(HopIn(out[i])) == w
    ensures Load(PushAll(q, out)) <= Load(q) + |out| * w
    decreases |out|
  {
    if out != [] {
      var n := |out| - 1;
      LoadPushAll(q, out[..n], w);
      LoadPush(PushAll(q, out[..n]), out[n]);
      MulNext(n, w);
    }
  }

  lemma MulNext(n: nat, w: nat)
    ensures (n + 1) * w == n * w + w
  {
  }

  /** The engine's queues: one for rule events, one for everything else that reaches the rules. */
  datatype Queues = Queues(others: seq<Event>, events: seq<Event>)

  function Left(s: Queues): nat {
    |s.others| * Worth(0) + Load(s.events)
  }

  datatype Turn = FromOthers(out: seq<Event>) | FromEvents(out: seq<Event>)

  /** One dispatch: an event is taken from either queue, and what the rules publish is queued. */
  predicate CanTurn(s: Queues, t: Turn) {
    match t
    case FromOthers(out) => s.others != [] && Publishes(0, out)
    case FromEvents(out) => s.events != [] && Publishes(HopIn(s.events[0]), out)
  }

  function TurnStep(s: Queues, t: Turn): Queues
    requires CanTurn(s, t)
  {
    match t
    case FromOthers(out) => Queues(s.others[1..], PushAll(s.events, out))
    case FromEvents(out) => s.(events := PushAll(s.events[1..], out))
  }

  lemma PublishedLoad(q: seq<Event>, out: seq<Event>, hop: nat)
    requires Publishes(hop, out)
    ensures Load(PushAll(q, out)) < Load(q) + Worth(hop)
  {
    if hop < 8 {
      LoadPushAll(q, out, Worth(hop + 1));
      assert |out| * Worth(hop + 1) <= 64 * Worth(hop + 1) by {
        MulLe(|out|, 64, Worth(hop + 1));
      }
    } else {
      assert PushAll(q, out) == q;
    }
  }

  lemma MulLe(a: nat, b: nat, c: nat)
    requires a <= b
    ensures a * c <= b * c
  {
  }

  /** Every dispatch, in any order of the queues, leaves less to do. */
  lemma TurnShrinks(s: Queues, t: Turn)
    requires CanTurn(s, t)
    ensures Left(TurnStep(s, t)) < Left(s)
  {
    match t {
      case FromOthers(out) =>
        PublishedLoad(s.events, out, 0);
        assert |s.others| * Worth(0) == |s.others[1..]| * Worth(0) + Worth(0);
      case FromEvents(out) =>
        LoadFront(s.events);
        PublishedLoad(s.events[1..], out, HopIn(s.events[0]));
    }
  }

  predicate Turns(ss: seq<Queues>, ts: seq<Turn>) {
    |ss| == |ts| + 1 && forall k :: 0 <= k < |ts| ==> TurnOk(ss, ts, k)
  }

  predicate TurnOk(ss: seq<Queues>, ts: seq<Turn>, k: nat)
    requires |ss| == |ts| + 1 && k < |ts|
  {
    CanTurn(ss[k], ts[k]) && ss[k + 1] == TurnStep(ss[k], ts[k])
  }

  /** Draining to quiet terminates: with no other publisher, no run of dispatches is longer than
      what the queues held at its start is worth. */
  lemma {:induction false} DrainTerminates(ss: seq<Queues>, ts: seq<Turn>)
    requires Turns(ss, ts)
    ensures |ts| + Left(ss[|ts|]) <= Left(ss[0])
    decreases |ts|
  {
    if ts != [] {
      var n := |ts| - 1;
      assert TurnOk(ss, ts, n);
      var sf, tf := ss[..n + 1], ts[..n];
      forall k | 0 <= k < n ensures TurnOk(sf, tf, k) {
        assert TurnOk(ss, ts, k);
      }
      DrainTerminates(sf, tf);
      TurnShrinks(ss[n], ts[n]);
    }
  }

  /** The hops of the queue never go down from front to back. */
  predicate Sorted(q: seq<Event>) {
    forall i, j :: 0 <= i <= j < |q| ==> HopIn(q[i]) <= HopIn(q[j])
  }

  /** The events at the front with the front's hop. */
  function FrontRun(q: seq<Event>, h: nat): (n: nat)
    ensures n <= |q|
    ensures forall i :: 0 <= i < n ==> HopIn(q[i]) == h
    ensures n < |q| ==> HopIn(q[n]) != h
  {
    if q == [] || HopIn(q[0]) != h then 0
    else
      var n := 1 + FrontRun(q[1..], h);
      assert forall i :: 1 <= i < n ==> q[i] == q[1..][i - 1];
      n
  }

  /** How many more dispatches a sorted queue of 16 can see: the events of its lowest hop, and at
      most 16 of every hop after that. */
  function Bound(q: seq<Event>): nat {
    if q == [] then 0
    else if HopIn(q[0]) >= 8 then |q|
    else FrontRun(q, HopIn(q[0])) + 16 * (8 - HopIn(q[0]))
  }

  lemma SortedPush(q: seq<Event>, e: Event)
    requires Sorted(q) && |q| <= 16
    requires forall i :: 0 <= i < |q| ==> HopIn(q[i]) <= HopIn(e)
    ensures Sorted(Push(q, e)) && Push(q, e) != []
    ensures forall i :: 0 <= i < |Push(q, e)| ==> HopIn(Push(q, e)[i]) <= HopIn(e)
  {
  }

  /** What pushing does to the front: the old front stays and no more events have its hop, or only
      later hops are left. */
  lemma FrontAfterPush(q: seq<Event>, e: Event, h: nat)
    requires Sorted(q) && |q| <= 16 && HopIn(e) == h + 1
    requires forall i :: 0 <= i < |q| ==> h <= HopIn(q[i]) <= h + 1
    ensures FrontRun(Push(q, e), h) <= FrontRun(q, h)
    ensures forall i :: 0 <= i < |Push(q, e)| ==> h <= HopIn(Push(q, e)[i]) <= h + 1
  {
    var p, n := Push(q, e), FrontRun(q, h);
    var m := FrontRun(p, h);
    if |q| < 16 {
      assert forall i :: 0 <= i < |q| ==> p[i] == q[i];
      assert n < |p| && HopIn(p[n]) != h;
    } else {
      assert forall i :: 0 <= i < 15 ==> p[i] == q[i + 1];
      assert p[15] == e;
      assert n > 0 ==> HopIn(p[n - 1]) != h;
      assert n == 0 ==> HopIn(p[0]) != h;
    }
  }

  lemma {:induction false} FrontAfterPushAll(q: seq<Event>, out: seq<Event>, h: nat)
    requires Sorted(q) && |q| <= 16
    requires forall i :: 0 <= i < |q| ==> h <= HopIn(q[i]) <= h + 1
    requires forall i :: 0 <= i < |out| ==> out[i].RuleEvent? && out[i].hop == h + 1
    ensures var p := PushAll(q, out);
            && Sorted(p) && |p| <= 16 && FrontRun(p, h) <= FrontRun(q, h)
            && forall i :: 0 <= i < |p| ==> h <= HopIn(p[i]) <= h + 1
    decreases |out|
  {
    if out != [] {
      var n := |out| - 1;
      FrontAfterPushAll(q, out[..n], h);
      var p := PushAll(q, out[..n]);
      SortedPush(p, out[n]);
      FrontAfterPush(p, out[n], h);
    }
  }

  /** Every event of the queue is of the front's hop or the next. */
  predicate TwoHops(q: seq<Event>) {
    && |q| <= 16 && Sorted(q)
    && forall i :: 0 <= i < |q| ==> q[i].RuleEvent? && q[i].hop <= HopIn(q[0]) + 1
  }

  lemma PushAllEvents(q: seq<Event>, out: seq<Event>)
    requires forall i :: 0 <= i < |q| ==> q[i].RuleEvent?
    requires forall i :: 0 <= i < |out| ==> out[i].RuleEvent?
    ensures forall i :: 0 <= i < |PushAll(q, out)| ==> PushAll(q, out)[i].RuleEvent?
    decreases |out|
  {
    if out != [] {
      PushAllEvents(q, out[..|out| - 1]);
    }
  }

  /** A dispatch from such a queue keeps it so and takes one from the bound. */
  lemma DispatchShrinks(q: seq<Event>, out: seq<Event>)
    requires q != [] && TwoHops(q) && Publishes(q[0].hop, out)
    ensures TwoHops(PushAll(q[1..], out))
    ensures Bound(PushAll(q[1..], out)) < Bound(q)
  {
    var h, r := q[0].hop, q[1..];
    assert forall i :: 0 <= i < |r| ==> r[i] == q[i + 1];
    assert Sorted(r);
    FrontAfterPushAll(r, out, h);
    PushAllEvents(r, out);
    var p := PushAll(r, out);
    assert FrontRun(q, h) == 1 + FrontRun(r, h);
    if h >= 8 {
      assert p == r;
    } else if p != [] && HopIn(p[0]) != h {
      assert FrontRun(p, h) == 0;
      assert HopIn(p[0]) == h + 1;
    }
  }

  /** One external event, or up to 16 of them, cause at most 144 dispatches of rule events, however
      many rules republish: at most 16 of each hop 0 to 8. */
  lemma {:induction false} ChainIsShort(qs: seq<seq<Event>>, outs: seq<seq<Event>>)
    requires |qs| == |outs| + 1
    requires |qs[0]| <= 16 && forall i :: 0 <= i < |qs[0]| ==> qs[0][i].RuleEvent? && qs[0][i].hop == 0
    requires forall k :: 0 <= k < |outs| ==> DispatchOk(qs, outs, k)
    ensures TwoHops(qs[|outs|])
    ensures |outs| + Bound(qs[|outs|]) <= 144
    decreases |outs|
  {
    if outs == [] {
    } else {
      var n := |outs| - 1;
      assert DispatchOk(qs, outs, n);
      var qf, of := qs[..n + 1], outs[..n];
      forall k | 0 <= k < n ensures DispatchOk(qf, of, k) {
        assert DispatchOk(qs, outs, k);
      }
      ChainIsShort(qf, of);
      DispatchShrinks(qs[n], outs[n]);
    }
  }

  predicate DispatchOk(qs: seq<seq<Event>>, outs: seq<seq<Event>>, k: nat)
    requires |qs| == |outs| + 1 && k < |outs|
  {
    qs[k] != [] && qs[k][0].RuleEvent? && Publishes(qs[k][0].hop, outs[k])
    && qs[k + 1] == PushAll(qs[k][1..], outs[k])
  }

  // ── The run cap ────────────────────────────────────────────────────

  // mono_s() is a 32-bit count of seconds.
  function Word(t: nat): nat { t % 4294967296 }

  function Elapsed(now: nat, since: nat): nat {
    (Word(now) + 4294967296 - since % 4294967296) % 4294967296
  }

  /** Rules that can feed back: fired by a change of an attribute, driving a device or a script. */
  predicate Drives(actions: seq<Action>) {
    exists i :: 0 <= i < |actions| && (actions[i].SetAttr? || actions[i].Toggle? || actions[i].Script?)
  }

  predicate CanFeedBack(r: Rule) {
    HasEdge(r.trigger) && Drives(r.actions)
  }

  /** One automatic run asks for its turn at `now`: the new counters, and whether it is held. */
  function Capped(st: Stat, now: nat): (Stat, bool) {
    var s := if st.minuteRuns == 0 || Elapsed(now, st.minuteStart) >= 60
             then st.(minuteStart := Word(now), minuteRuns := 0) else st;
    if s.minuteRuns < 20 then (s.(minuteRuns := s.minuteRuns + 1), false)
    else (s.(minuteRuns := if s.minuteRuns == 20 then 21 else s.minuteRuns, skip := RateLimited), true)
  }

  predicate Ascending(log: seq<nat>, now: nat) {
    && (forall i, j :: 0 <= i <= j < |log| ==> log[i] <= log[j])
    && (forall i :: 0 <= i < |log| ==> log[i] <= now)
  }

  /** Of any 41 runs in a row, the last comes more than 60 seconds after the first. */
  predicate Spaced(log: seq<nat>) {
    forall k :: 0 <= k && k + 40 < |log| ==> log[k] + 60 < log[k + 40]
  }

  /** The counters and the runs they stand for: `b` is the first run of the window they count, `a`
      the first of the window before. */
  predicate CapOk(st: Stat, log: seq<nat>, a: nat, b: nat, now: nat) {
    && Ascending(log, now) && Spaced(log)
    && (log == [] ==> st.minuteRuns == 0)
    && (log != [] ==>
          && a <= b < |log| && st.minuteRuns >= 1
          && st.minuteStart == Word(log[b])
          && |log| - b == (if st.minuteRuns <= 20 then st.minuteRuns else 20)
          && b - a <= 20
          && (a == b ==> b == 0) && (a < b ==> log[b] - log[a] >= 60)
          && (forall k :: 0 <= k < b ==> log[k] < log[b])
          && (forall k :: 0 <= k < a ==> log[k] < log[a])
          && (forall k :: b <= k < |log| ==> Elapsed(log[k], log[b]) < 60))
  }

  lemma ElapsedIs(now: nat, w: nat)
    requires w <= now
    ensures Elapsed(now, Word(w)) == (now - w) % 4294967296 == Elapsed(now, w)
    ensures Elapsed(now, w) <= now - w
  {
    var m := 4294967296;
    assert now == m * (now / m) + Word(now);
    assert w == m * (w / m) + Word(w);
    assert Word(w) % m == Word(w);
    var d := Word(now) - Word(w);
    if d >= 0 {
      ModIs(now - w, now / m - w / m, d);
      ModIs(d + m, 1, d);
    } else {
      ModIs(now - w, now / m - w / m - 1, d + m);
      ModIs(d + m, 0, d + m);
    }
  }

  lemma ModIs(x: nat, k: int, r: nat)
    requires r < 4294967296 && x == 4294967296 * k + r
    ensures x % 4294967296 == r && k >= 0
  {
  }

  /** Which windows the counters stand for after a run at `now`. */
  function NextWindow(st: Stat, log: seq<nat>, a: nat, b: nat, now: nat): (nat, nat) {
    if log == [] then (0, 0)
    else if Elapsed(now, st.minuteStart) >= 60 then (b, |log|)
    else (a, b)
  }

  lemma WindowOpens(st: Stat, log: seq<nat>, a: nat, b: nat, now: nat)
    requires CapOk(st, log, a, b, now) && log != [] && Elapsed(now, st.minuteStart) >= 60
    ensures CapOk(Capped(st, now).0, log + [now], b, |log|, now) && !Capped(st, now).1
  {
    var n, l := |log|, log + [now];
    ElapsedIs(now, log[b]);
    forall k | 0 <= k < n ensures l[k] < now {
      assert Elapsed(log[n - 1], log[b]) < 60;
      assert log[n - 1] != now;
      assert log[k] <= log[n - 1];
    }
    forall k | 0 <= k && k + 40 < |l| ensures l[k] + 60 < l[k + 40] {
      if k + 40 == n { assert log[k] < log[b]; }
    }
    ElapsedIs(now, now);
  }

  lemma WindowGoesOn(st: Stat, log: seq<nat>, a: nat, b: nat, now: nat)
    requires CapOk(st, log, a, b, now) && log != [] && Elapsed(now, st.minuteStart) < 60 && st.minuteRuns < 20
    ensures CapOk(Capped(st, now).0, log + [now], a, b, now) && !Capped(st, now).1
  {
    var n, l := |log|, log + [now];
    ElapsedIs(now, log[b]);
    forall k | 0 <= k && k + 40 < |l| ensures l[k] + 60 < l[k + 40] {
      if k + 40 == n {
        assert k < a;
        assert log[k] < log[a];
      }
    }
  }

  lemma WindowFirst(st: Stat, now: nat)
    requires st.minuteRuns == 0
    ensures CapOk(Capped(st, now).0, [now], 0, 0, now) && !Capped(st, now).1
  {
    ElapsedIs(now, now);
  }

  /** One run that asks: when it is let go it joins the log, else the log stays; either way the
      counters keep standing for the log. */
  lemma CappedKeeps(st: Stat, log: seq<nat>, a: nat, b: nat, now: nat)
    requires CapOk(st, log, a, b, now)
    ensures var (s, held) := Capped(st, now);
            var (a', b') := NextWindow(st, log, a, b, now);
            CapOk(s, if held then log else log + [now], if held then a else a', if held then b else b', now)
  {
    if log == [] {
      WindowFirst(st, now);
      assert log + [now] == [now];
    } else if Elapsed(now, st.minuteStart) >= 60 {
      WindowOpens(st, log, a, b, now);
    } else if st.minuteRuns < 20 {
      WindowGoesOn(st, log, a, b, now);
    }
  }

  /** How many runs of the log fall into the seconds `lo` to `hi`. */
  function CountIn(log: seq<nat>, lo: nat, hi: nat): nat
    decreases |log|
  {
    if log == [] then 0
    else CountIn(log[..|log| - 1], lo, hi) + (if lo <= log[|log| - 1] <= hi then 1 else 0)
  }

  lemma {:induction false} CountBelow(log: seq<nat>, lo: nat, hi: nat, k: nat)
    requires k <= |log| && (forall i :: 0 <= i < |log| - k ==> log[i] < lo)
    ensures CountIn(log, lo, hi) <= k
    decreases |log|
  {
    if log != [] && k > 0 {
      CountBelow(log[..|log| - 1], lo, hi, k - 1);
    } else if log != [] {
      CountBelow(log[..|log| - 1], lo, hi, 0);
    }
  }

  /** At most 40 runs in any 60 seconds (61 readings of the clock). */
  lemma {:induction false} AtMostForty(log: seq<nat>, now: nat, t: nat)
    requires Ascending(log, now) && Spaced(log)
    ensures CountIn(log, t, t + 60) <= 40
    decreases |log|
  {
    if |log| > 40 {
      var n := |log| - 1;
      if log[n] > t + 60 {
        AtMostForty(log[..n], now, t);
      } else {
        assert log[n - 40] + 60 < log[n];
        CountBelow(log, t, t + 60, 40);
      }
    } else {
      CountBelow(log, t, t + 60, |log|);
    }
  }

  /** A run is held exactly when 20 runs were let go in the window it falls into. */
  lemma HeldIff(st: Stat, log: seq<nat>, a: nat, b: nat, now: nat)
    requires CapOk(st, log, a, b, now)
    ensures Capped(st, now).1 <==> log != [] && Elapsed(now, log[b]) < 60 && |log| - b == 20
  {
    if log != [] {
      ElapsedIs(now, log[b]);
    }
  }

  // ── The rule table ─────────────────────────────────────────────────

  function FindId(rules: seq<Rule>, id: nat): (i: nat)
    ensures i <= |rules|
    ensures i < |rules| ==> rules[i].id == id
    ensures forall j :: 0 <= j < i ==> rules[j].id != id
  {
    if rules == [] then 0 else if rules[0].id == id then 0 else
      var i := 1 + FindId(rules[1..], id);
      assert forall j :: 1 <= j < i ==> rules[j] == rules[1..][j - 1];
      i
  }

  lemma FindIs(rules: seq<Rule>, id: nat, i: nat)
    requires i <= |rules| && (i < |rules| ==> rules[i].id == id)
    requires forall j :: 0 <= j < i ==> rules[j].id != id
    ensures FindId(rules, id) == i
  {
    var f := FindId(rules, id);
    assert f < |rules| ==> !(f < i);
    assert i < |rules| ==> !(i < f);
  }

  predicate DistinctIds(rules: seq<Rule>) {
    forall i, j :: 0 <= i < j < |rules| ==> rules[i].id != rules[j].id
  }

  type Shadow = map<(nat, string), Val>

  function ShadowOf(t: Trigger, shadow: Shadow): Option<Val> {
    if t.DeviceAttr? && (t.ieee, t.key) in shadow then Some(shadow[(t.ieee, t.key)]) else None
  }

  predicate SameLiteral(a: Literal, b: Literal) {
    match (a, b)
    case (LitNum(m, _), LitNum(n, _)) => m == n
    case (LitStr(s), LitStr(t)) => s == t
    case _ => false
  }

  /** The same trigger, for the memory it keeps: whether a number was written with a decimal point
      is not compared. Triggers that keep no memory are left out. */
  predicate SameTrigger(a: Trigger, b: Trigger) {
    && a.DeviceAttr? && b.DeviceAttr? && a.ieee == b.ieee && a.key == b.key && a.op == b.op
    && SameLiteral(a.lit, b.lit)
  }

  /** A rule takes its trigger memory from the shadow, else from the rule it replaces when that had
      the same trigger. */
  function Seed(r: Rule, prev: Option<Rule>, shadow: Shadow): Rule {
    var kept := if prev.Some? && SameTrigger(prev.value.trigger, r.trigger) then Some(prev.value.edge) else None;
    Seeded(r, kept, ShadowOf(r.trigger, shadow))
  }

  /** One rule of a reload: the counters of the rule it replaces. */
  function Taken(rules: seq<Rule>, f: Rule, shadow: Shadow): Rule {
    var j := FindId(rules, f.id);
    if j < |rules| then Seed(f.(stat := rules[j].stat), Some(rules[j]), shadow)
    else Seed(f.(stat := NoStat()), None, shadow)
  }

  function Reloaded(rules: seq<Rule>, given: seq<Rule>, shadow: Shadow): (r: seq<Rule>)
    ensures |r| == |given|
    ensures forall i :: 0 <= i < |given| ==> r[i] == Taken(rules, given[i], shadow)
  {
    seq(|given|, i requires 0 <= i < |given| => Taken(rules, given[i], shadow))
  }

  function Edited(was: Rule, t: Trigger, acts: seq<Action>, shadow: Shadow): Rule {
    Seed(was.(trigger := t, actions := acts), Some(was), shadow)
  }

  /** The first report after an edit, whatever the rule was before and whatever the report says: it
      fires the rule exactly when the new condition holds and nothing that the rule knows says it
      did before. It knows the shadow's value, or else the memory of the same trigger. */
  lemma EditFires(was: Rule, t: Trigger, acts: seq<Action>, shadow: Shadow, v: Val)
    requires HasEdge(t)
    ensures Evaluate(Edited(was, t, acts, shadow), Report(t.ieee, t.key, v)).0 == Fire <==>
            && Holds(t.op, t.lit, v)
            && (if ShadowOf(t, shadow).Some? then
                  if t.op == Any then !SameValue(ShadowOf(t, shadow).value, v)
                  else !Holds(t.op, t.lit, ShadowOf(t, shadow).value)
                else
                  !(SameTrigger(was.trigger, t) && was.edge.known
                    && (if t.op == Any then SameValue(was.edge.last, v) else was.edge.matched)))
  {
  }

  /** An edit that fires its rule: a rule for one attribute, which has seen it, is moved to another,
      which the shadow does not know; the heartbeat of that attribute fires it. */
  lemma EditedRuleFires(id: nat, ieee: nat, one: string, two: string, v: Val, w: Val)
    requires ieee != 0 && one != "" && two != "" && one != two && !Momentary(one) && !Momentary(two)
    ensures var first, t := DeviceAttr(ieee, one, Any, LitNum(0, false)), DeviceAttr(ieee, two, Any, LitNum(0, false));
            var r := Remembered(Rule(id, true, first, [], NoEdge(), NoStat()), Report(ieee, one, v));
            && Evaluate(r, Report(ieee, one, v)).0 != Fire
            && Evaluate(Edited(r, t, [], map[]), Report(ieee, two, w)).0 == Fire
  {
    var t := DeviceAttr(ieee, two, Any, LitNum(0, false));
    var r := Rule(id, true, DeviceAttr(ieee, one, Any, LitNum(0, false)), [], NoEdge(), NoStat());
    EditFires(Remembered(r, Report(ieee, one, v)), t, [], map[], w);
  }

  /** One rule meets an event; a rule that does not run says why in its counters. */
  function Met(r: Rule, ev: Event): (Verdict, Rule) {
    var (v, e) := Evaluate(r, ev);
    (v, r.(edge := e,
           stat := if v.Same? then r.stat.(skip := Unchanged)
                   else if v.NotMet? then r.stat.(skip := ConditionFalse) else r.stat))
  }

  /** The first `n` rules meet an event; at most 16 are picked, and rules after the sixteenth do
      not see it. */
  function Scanned(rules: seq<Rule>, ev: Event, n: nat): (r: (seq<Rule>, seq<nat>))
    requires n <= |rules|
    ensures |r.0| == |rules| && |r.1| <= 16
    ensures forall k :: 0 <= k < |r.1| ==> r.1[k] < n
    ensures forall k :: n <= k < |rules| ==> r.0[k] == rules[k]
    ensures forall k :: 0 <= k < |rules| ==> SameMinutes(rules[k], r.0[k])
  {
    if n == 0 then (rules, [])
    else
      var (rs, m) := Scanned(rules, ev, n - 1);
      if |m| >= 16 || !rs[n - 1].enabled then (rs, m)
      else
        var (v, r) := Met(rs[n - 1], ev);
        (rs[n - 1 := r], if v.Fire? then m + [n - 1] else m)
  }

  predicate SameMinutes(r: Rule, s: Rule) {
    r.id == s.id && r.stat.minuteRuns == s.stat.minuteRuns && r.stat.minuteStart == s.stat.minuteStart
  }

  /** The actions, by rule and place, whose work succeeds. */
  type Works = set<(nat, nat)>

  /** The first action that fails: an event at the end of its chain, or one whose work failed. */
  function FailedAt(actions: seq<Action>, id: nat, hop: nat, works: Works, n: nat): nat
    requires n <= |actions|
  {
    if n == 0 then 0
    else
      var f := FailedAt(actions, id, hop, works, n - 1);
      if f > 0 then f
      else if actions[n - 1].Emit? then (if hop >= 8 then n else 0)
      else if actions[n - 1].Log? || (id, n - 1) in works then 0 else n
  }

  /** The locked half of a firing: the rule is still there and not held by its cap. */
  function Admitted(rules: seq<Rule>, idx: nat, id: nat, manual: bool, now: nat): (seq<Rule>, bool) {
    if idx >= |rules| || rules[idx].id != id || !(manual || rules[idx].enabled) then (rules, false)
    else if manual || !CanFeedBack(rules[idx]) then (rules, true)
    else
      var (st, held) := Capped(rules[idx].stat, now);
      (rules[idx := rules[idx].(stat := st)], !held)
  }

  /** The run is booked on the live rule, if it is still where it was. */
  function Finished(rules: seq<Rule>, idx: nat, id: nat, failed: nat, now: nat): seq<Rule> {
    if idx >= |rules| || rules[idx].id != id then rules
    else
      var st := rules[idx].stat;
      rules[idx := rules[idx].(stat := st.(runs := st.runs + 1, firedAt := Word(now),
                                           skip := if failed > 0 then ActionError else NoSkip,
                                           skipAction := failed))]
  }

  // ── Every run of one rule ──────────────────────────────────────────

  /** What can happen to the table while rule `x` is watched. `Scan` is an event met, `Run` the
      locked half of a firing, `Book` its end, `Rebind` a trigger bound to another device. */
  datatype Change =
    | Tick(d: nat)
    | Scan(ev: Event)
    | Run(idx: nat, id: nat, manual: bool)
    | Book(idx: nat, id: nat, failed: nat)
    | Reload(given: seq<Rule>, shadow: Shadow)
    | Update(id: nat, t: Trigger, acts: seq<Action>, shadow: Shadow)
    | Enable(id: nat, on: bool, shadow: Shadow)
    | Rebind(idx: nat, t: Trigger, shadow: Shadow)
    | Delete(id: nat)
    | Add(r: Rule, shadow: Shadow)

  function Changed(rules: seq<Rule>, c: Change, now: nat): seq<Rule> {
    match c
    case Tick(_) => rules
    case Scan(ev) => Scanned(rules, ev, |rules|).0
    case Run(idx, id, manual) => Admitted(rules, idx, id, manual, now).0
    case Book(idx, id, failed) => Finished(rules, idx, id, failed, now)
    case Reload(given, shadow) => if DistinctIds(given) then Reloaded(rules, given, shadow) else rules
    case Update(id, t, acts, shadow) =>
      var i := FindId(rules, id);
      if i < |rules| then rules[i := Edited(rules[i], t, acts, shadow)] else rules
    case Enable(id, on, shadow) =>
      var i := FindId(rules, id);
      if i >= |rules| then rules
      else
        var r := rules[i].(enabled := on);
        rules[i := if on then Seed(r, Some(r), shadow) else r]
    case Rebind(idx, t, shadow) =>
      if idx < |rules| then rules[idx := Seed(rules[idx].(trigger := t), None, shadow)] else rules
    case Delete(id) =>
      var i := FindId(rules, id);
      if i < |rules| then SwapRemoved(rules, i) else rules
    case Add(r, shadow) =>
      if FindId(rules, r.id) < |rules| then rules else rules + [Seed(r.(stat := NoStat()), None, shadow)]
  }

  /** A change lets an automatic run of `x` go while `x` can feed back. */
  predicate LetsGo(rules: seq<Rule>, c: Change, x: nat, now: nat) {
    && c.Run? && !c.manual && c.id == x
    && c.idx < |rules| && CanFeedBack(rules[c.idx])
    && Admitted(rules, c.idx, x, false, now).1
  }

  /** The table, the clock, the runs of `x` since it last came into the table, and all its runs. */
  datatype World = World(rules: seq<Rule>, now: nat, log: seq<nat>, a: nat, b: nat, all: seq<nat>)

  function WorldStep(w: World, c: Change, x: nat): World {
    var rules := Changed(w.rules, c, w.now);
    var now := if c.Tick? then w.now + c.d else w.now;
    if FindId(rules, x) == |rules| then World(rules, now, [], 0, 0, w.all)
    else if LetsGo(w.rules, c, x, w.now) then
      var (a, b) := NextWindow(w.rules[c.idx].stat, w.log, w.a, w.b, w.now);
      World(rules, now, w.log + [w.now], a, b, w.all + [w.now])
    else w.(rules := rules, now := now)
  }

  predicate WorldOk(w: World, x: nat) {
    && DistinctIds(w.rules)
    && (FindId(w.rules, x) == |w.rules| ==> w.log == [])
    && (FindId(w.rules, x) < |w.rules| ==>
          CapOk(w.rules[FindId(w.rules, x)].stat, w.log, w.a, w.b, w.now))
  }

  /** Between two tables, rule `x` keeps the counters of its cap, or comes in with fresh ones. */
  predicate KeepsMinutes(rules: seq<Rule>, next: seq<Rule>, x: nat) {
    FindId(next, x) < |next| ==>
      var r := next[FindId(next, x)];
      if FindId(rules, x) < |rules| then SameMinutes(rules[FindId(rules, x)], r)
      else r.stat.minuteRuns == 0
  }

  lemma CapSame(st: Stat, s2: Stat, log: seq<nat>, a: nat, b: nat, now: nat, later: nat)
    requires CapOk(st, log, a, b, now) && now <= later
    requires st.minuteRuns == s2.minuteRuns && st.minuteStart == s2.minuteStart
    ensures CapOk(s2, log, a, b, later)
  {
  }

  lemma CapEmpty(st: Stat, a: nat, b: nat, now: nat)
    requires st.minuteRuns == 0
    ensures CapOk(st, [], a, b, now)
  {
  }

  lemma QuietKeeps(w: World, c: Change, x: nat)
    requires WorldOk(w, x) && !LetsGo(w.rules, c, x, w.now)
    requires DistinctIds(Changed(w.rules, c, w.now)) && KeepsMinutes(w.rules, Changed(w.rules, c, w.now), x)
    ensures WorldOk(WorldStep(w, c, x), x)
  {
    var next := Changed(w.rules, c, w.now);
    var u := WorldStep(w, c, x);
    var i, j := FindId(w.rules, x), FindId(next, x);
    if j < |next| {
      if i < |w.rules| {
        CapSame(w.rules[i].stat, next[j].stat, w.log, w.a, w.b, w.now, u.now);
      } else {
        CapEmpty(next[j].stat, w.a, w.b, u.now);
      }
    }
  }

  /** A rule replaced in its slot by one with its id and counters. */
  lemma SlotKeeps(rules: seq<Rule>, i: nat, r: Rule, x: nat)
    requires DistinctIds(rules) && i < |rules| && SameMinutes(rules[i], r)
    ensures DistinctIds(rules[i := r]) && KeepsMinutes(rules, rules[i := r], x)
    ensures FindId(rules[i := r], x) == FindId(rules, x)
  {
    var next := rules[i := r];
    assert forall k :: 0 <= k < |rules| ==> next[k].id == rules[k].id;
    FindIs(next, x, FindId(rules, x));
  }

  lemma ScanKeeps(rules: seq<Rule>, ev: Event, x: nat)
    requires DistinctIds(rules)
    ensures DistinctIds(Scanned(rules, ev, |rules|).0)
    ensures KeepsMinutes(rules, Scanned(rules, ev, |rules|).0, x)
  {
    var next := Scanned(rules, ev, |rules|).0;
    assert forall k :: 0 <= k < |rules| ==> SameMinutes(rules[k], next[k]);
    FindIs(next, x, FindId(rules, x));
  }

  lemma SeedSame(r: Rule, prev: Option<Rule>, shadow: Shadow)
    ensures SameMinutes(r, Seed(r, prev, shadow))
    ensures Seed(r, prev, shadow).stat == r.stat
  {
  }

  lemma TakenIs(rules: seq<Rule>, f: Rule, shadow: Shadow)
    ensures Taken(rules, f, shadow).id == f.id
    ensures var j := FindId(rules, f.id);
            Taken(rules, f, shadow).stat == if j < |rules| then rules[j].stat else NoStat()
  {
  }

  lemma ReloadKeeps(rules: seq<Rule>, given: seq<Rule>, shadow: Shadow, x: nat)
    requires DistinctIds(given)
    ensures DistinctIds(Reloaded(rules, given, shadow))
    ensures KeepsMinutes(rules, Reloaded(rules, given, shadow), x)
  {
    var next := Reloaded(rules, given, shadow);
    forall k | 0 <= k < |given| ensures next[k].id == given[k].id {
      TakenIs(rules, given[k], shadow);
    }
    var j := FindId(next, x);
    if j < |next| {
      TakenIs(rules, given[j], shadow);
    }
  }

  lemma DeleteKeeps(rules: seq<Rule>, i: nat, x: nat)
    requires DistinctIds(rules) && i < |rules|
    ensures DistinctIds(SwapRemoved(rules, i)) && KeepsMinutes(rules, SwapRemoved(rules, i), x)
  {
    var next := SwapRemoved(rules, i);
    var j := FindId(next, x);
    if j < |next| {
      FindAt(rules, if j == i then |rules| - 1 else j);
    }
  }

  lemma FindAt(rules: seq<Rule>, i: nat)
    requires DistinctIds(rules) && i < |rules|
    ensures FindId(rules, rules[i].id) == i
  {
    FindIs(rules, rules[i].id, i);
  }

  lemma AddKeeps(rules: seq<Rule>, r: Rule, x: nat)
    requires DistinctIds(rules) && FindId(rules, r.id) == |rules| && r.stat == NoStat()
    ensures DistinctIds(rules + [r]) && KeepsMinutes(rules, rules + [r], x)
  {
    var next := rules + [r];
    var i := FindId(rules, x);
    FindIs(next, x, if i < |rules| then i else if x == r.id then |rules| else |next|);
  }

  lemma AdmittedKeeps(rules: seq<Rule>, idx: nat, id: nat, manual: bool, now: nat, x: nat)
    requires DistinctIds(rules)
    ensures var next := Admitted(rules, idx, id, manual, now).0;
            && |next| == |rules| && DistinctIds(next) && FindId(next, x) == FindId(rules, x)
            && forall k :: 0 <= k < |rules| && rules[k].id != id ==> next[k] == rules[k]
  {
    var next := Admitted(rules, idx, id, manual, now).0;
    assert forall k :: 0 <= k < |rules| ==> next[k].id == rules[k].id;
    FindIs(next, x, FindId(rules, x));
  }

  /** A run that asks keeps the counters standing for the log. */
  lemma RunKeeps(w: World, c: Change, x: nat)
    requires WorldOk(w, x) && c.Run?
    ensures WorldOk(WorldStep(w, c, x), x)
  {
    var rules, next := w.rules, Changed(w.rules, c, w.now);
    AdmittedKeeps(rules, c.idx, c.id, c.manual, w.now, x);
    if c.idx < |rules| && next != rules {
      FindAt(rules, c.idx);
      if c.id == x {
        CappedKeeps(rules[c.idx].stat, w.log, w.a, w.b, w.now);
      }
    } else if c.idx < |rules| {
      CapUnchanged(w, c, x);
    }
  }

  /** A let-go run always counts, so it never leaves the table as it was. */
  lemma CapUnchanged(w: World, c: Change, x: nat)
    requires WorldOk(w, x) && c.Run? && c.idx < |w.rules| && Changed(w.rules, c, w.now) == w.rules
    ensures !LetsGo(w.rules, c, x, w.now)
  {
    var r := w.rules[c.idx];
    if LetsGo(w.rules, c, x, w.now) {
      FindAt(w.rules, c.idx);
      CappedKeeps(r.stat, w.log, w.a, w.b, w.now);
      assert Changed(w.rules, c, w.now)[c.idx].stat == Capped(r.stat, w.now).0;
      CapCounts(r.stat, w.log, w.a, w.b, w.now);
    }
  }

  lemma CapCounts(st: Stat, log: seq<nat>, a: nat, b: nat, now: nat)
    requires CapOk(st, log, a, b, now) && !Capped(st, now).1
    ensures Capped(st, now).0 != st
  {
    if log != [] && Elapsed(now, st.minuteStart) >= 60 {
      ElapsedIs(now, now);
    }
  }

  // A change that is not a run keeps the counters of every rule it leaves.
  lemma TableKeeps(rules: seq<Rule>, c: Change, x: nat, now: nat)
    requires DistinctIds(rules) && !c.Run?
    ensures DistinctIds(Changed(rules, c, now)) && KeepsMinutes(rules, Changed(rules, c, now), x)
  {
    SameTable(rules, x);
    match c {
      case Tick(_) =>
      case Scan(ev) => ScanKeeps(rules, ev, x);
      case Book(idx, id, failed) =>
        if idx < |rules| { SlotKeeps(rules, idx, Finished(rules, idx, id, failed, now)[idx], x); }
      case Reload(given, shadow) =>
        if DistinctIds(given) { ReloadKeeps(rules, given, shadow, x); }
      case Delete(id) =>
        if FindId(rules, id) < |rules| { DeleteKeeps(rules, FindId(rules, id), x); }
      case Add(r, shadow) =>
        SeedSame(r.(stat := NoStat()), None, shadow);
        if FindId(rules, r.id) == |rules| { AddKeeps(rules, Seed(r.(stat := NoStat()), None, shadow), x); }
      case _ => EditKeeps(rules, c, x, now);
    }
  }

  lemma ChangeKeeps(w: World, c: Change, x: nat)
    requires WorldOk(w, x)
    ensures WorldOk(WorldStep(w, c, x), x)
  {
    if c.Run? {
      RunKeeps(w, c, x);
    } else {
      TableKeeps(w.rules, c, x, w.now);
      QuietKeeps(w, c, x);
    }
  }

  lemma SameTable(rules: seq<Rule>, x: nat)
    ensures KeepsMinutes(rules, rules, x)
  {
  }

  lemma EditKeeps(rules: seq<Rule>, c: Change, x: nat, now: nat)
    requires DistinctIds(rules) && (c.Update? || c.Enable? || c.Rebind?)
    ensures DistinctIds(Changed(rules, c, now)) && KeepsMinutes(rules, Changed(rules, c, now), x)
  {
    var next := Changed(rules, c, now);
    SameTable(rules, x);
    var i := if c.Rebind? then c.idx else FindId(rules, c.id);
    if i < |rules| {
      SlotKeeps(rules, i, next[i], x);
    }
  }

  function Worlds(w: World, cs: seq<Change>, x: nat): World
    decreases |cs|
  {
    if cs == [] then w else WorldStep(Worlds(w, cs[..|cs| - 1], x), cs[|cs| - 1], x)
  }

  lemma {:induction false} WorldRun(w: World, cs: seq<Change>, x: nat)
    requires WorldOk(w, x)
    ensures WorldOk(Worlds(w, cs, x), x)
    decreases |cs|
  {
    if cs != [] {
      WorldRun(w, cs[..|cs| - 1], x);
      ChangeKeeps(Worlds(w, cs[..|cs| - 1], x), cs[|cs| - 1], x);
    }
  }

  /** Over any run of events, firings, reloads, edits, switches, rebinds, adds and deletes: while a
      rule stays in the table it runs by itself and able to feed back at most 40 times in any 60
      seconds, and at most 20 times from the start of the current window. */
  lemma FeedbackIsBounded(now: nat, cs: seq<Change>, x: nat, t: nat)
    ensures var w := Worlds(World([], now, [], 0, 0, []), cs, x);
            && CountIn(w.log, t, t + 60) <= 40
            && (w.log != [] ==> w.b < |w.log| && |w.log| - w.b <= 20)
  {
    var w0 := World([], now, [], 0, 0, []);
    WorldRun(w0, cs, x);
    var w := Worlds(w0, cs, x);
    if w.log != [] {
      AtMostForty(w.log, w.now, t);
    }
  }

  lemma AdmittedAt(rules: seq<Rule>, j: nat, now: nat)
    requires j < |rules| && rules[j].enabled && CanFeedBack(rules[j])
    ensures Admitted(rules, j, rules[j].id, false, now).1 <==> !Capped(rules[j].stat, now).1
  {
  }

  lemma ReloadedIs(rules: seq<Rule>, given: seq<Rule>, shadow: Shadow, now: nat)
    requires DistinctIds(given)
    ensures var next := Changed(rules, Reload(given, shadow), now);
            |next| == |given| && forall k :: 0 <= k < |given| ==> next[k] == Taken(rules, given[k], shadow)
  {
  }

  lemma TakenFeeds(rules: seq<Rule>, f: Rule, shadow: Shadow)
    requires CanFeedBack(f)
    ensures CanFeedBack(Taken(rules, f, shadow)) && Taken(rules, f, shadow).enabled == f.enabled
  {
    var r := Taken(rules, f, shadow);
    assert r.trigger == f.trigger && r.actions == f.actions;
  }

  /** After a reload, a rule that can feed back is let go exactly when the table did not have it, or
      the counters it had there let it go. */
  lemma ReloadAdmits(rules: seq<Rule>, given: seq<Rule>, shadow: Shadow, j: nat, now: nat)
    requires DistinctIds(given) && j < |given| && given[j].enabled && CanFeedBack(given[j])
    ensures var k := FindId(rules, given[j].id);
            Admitted(Changed(rules, Reload(given, shadow), now), j, given[j].id, false, now).1 <==>
            k == |rules| || !Capped(rules[k].stat, now).1
  {
    TakenIs(rules, given[j], shadow);
    TakenFeeds(rules, given[j], shadow);
    ReloadedIs(rules, given, shadow, now);
    AdmittedAt(Changed(rules, Reload(given, shadow), now), j, now);
  }

  lemma WorldsNext(w: World, cs: seq<Change>, x: nat)
    requires cs != []
    ensures Worlds(w, cs, x) == WorldStep(Worlds(w, cs[..|cs| - 1], x), cs[|cs| - 1], x)
  {
  }

  lemma {:induction false} WorldsThen(w: World, a: seq<Change>, b: seq<Change>, x: nat)
    ensures Worlds(w, a + b, x) == Worlds(Worlds(w, a, x), b, x)
    decreases |b|
  {
    var all := a + b;
    if b == [] {
      assert all == a;
    } else {
      var front := b[..|b| - 1];
      assert all[..|all| - 1] == a + front && all[|all| - 1] == b[|b| - 1];
      WorldsThen(w, a, front, x);
      WorldsNext(w, all, x);
      WorldsNext(Worlds(w, a, x), b, x);
    }
  }

  function Shots(id: nat, k: nat): seq<Change> {
    seq(k, _ => Run(0, id, false))
  }

  function Ran(r: Rule, k: nat, now: nat): Rule {
    if k == 0 then r else r.(stat := r.stat.(minuteRuns := k, minuteStart := Word(now)))
  }

  function Times(now: nat, k: nat): seq<nat> {
    seq(k, _ => now)
  }

  predicate Fresh(r: Rule) {
    r.enabled && CanFeedBack(r) && r.edge == NoEdge() && r.stat == NoStat()
  }

  lemma RanNext(r: Rule, k: nat, now: nat)
    requires Fresh(r) && k < 20
    ensures Capped(Ran(r, k, now).stat, now) == (Ran(r, k + 1, now).stat, false)
  {
    ElapsedIs(now, now);
  }

  lemma ShotStep(v: World, r: Rule, k: nat)
    requires Fresh(r) && k < 20 && v.rules == [Ran(r, k, v.now)]
    ensures var u := WorldStep(v, Run(0, r.id, false), r.id);
            u.rules == [Ran(r, k + 1, v.now)] && u.now == v.now && u.all == v.all + [v.now]
  {
    RanNext(r, k, v.now);
    var q := Ran(r, k, v.now);
    assert q.trigger == r.trigger && q.actions == r.actions;
    assert Changed([q], Run(0, r.id, false), v.now) == [Ran(r, k + 1, v.now)];
  }

  lemma {:induction false} ShotsRun(w: World, r: Rule, k: nat)
    requires Fresh(r) && w.rules == [r] && k <= 20
    ensures var u := Worlds(w, Shots(r.id, k), r.id);
            u.rules == [Ran(r, k, w.now)] && u.now == w.now && u.all == w.all + Times(w.now, k)
  {
    if k > 0 {
      var c := Run(0, r.id, false);
      ShotsRun(w, r, k - 1);
      WorldsOn(w, Shots(r.id, k - 1), c, r.id);
      assert Shots(r.id, k) == Shots(r.id, k - 1) + [c];
      ShotStep(Worlds(w, Shots(r.id, k - 1), r.id), r, k - 1);
      TimesNext(w.all, w.now, k - 1);
    }
  }

  lemma WorldsOn(w: World, cs: seq<Change>, c: Change, x: nat)
    ensures Worlds(w, cs + [c], x) == WorldStep(Worlds(w, cs, x), c, x)
  {
    assert (cs + [c])[..|cs|] == cs;
  }

  lemma TimesNext(all: seq<nat>, now: nat, k: nat)
    ensures all + Times(now, k) + [now] == all + Times(now, k + 1)
  {
    assert Times(now, k + 1) == Times(now, k) + [now];
  }

  /** Twenty runs, a reload that leaves the rule out, and one that reads it back. */
  function Lap(r: Rule): seq<Change> {
    Shots(r.id, 20) + [Reload([], map[]), Reload([r], map[])]
  }

  function Laps(r: Rule, n: nat): seq<Change> {
    if n == 0 then [] else Laps(r, n - 1) + Lap(r)
  }

  lemma OutStep(w: World, x: nat)
    ensures WorldStep(w, Reload([], map[]), x) == World([], w.now, [], 0, 0, w.all)
  {
  }

  lemma BackStep(w: World, r: Rule)
    requires Fresh(r) && w.rules == []
    ensures WorldStep(w, Reload([r], map[]), r.id) == w.(rules := [r])
  {
    assert Changed([], Reload([r], map[]), w.now) == [Taken([], r, map[])] == [r];
  }

  lemma {:induction false} TwoSteps(w: World, c: Change, d: Change, x: nat)
    ensures Worlds(w, [c, d], x) == WorldStep(WorldStep(w, c, x), d, x)
  {
    assert [c, d][..1] == [c] && [c][..0] == [];
    assert Worlds(w, [c], x) == WorldStep(w, c, x);
  }

  /** `cs` leads from `w` back to the table `[r]`, in the same second, over `m` runs. */
  predicate Leads(w: World, cs: seq<Change>, r: Rule, m: nat) {
    var u := Worlds(w, cs, r.id);
    u.rules == [r] && u.now == w.now && u.all == w.all + Times(w.now, m)
  }

  lemma LapRun(w: World, r: Rule)
    requires Fresh(r) && w.rules == [r]
    ensures Leads(w, Lap(r), r, 20)
  {
    var away, back := Reload([], map[]), Reload([r], map[]);
    ShotsRun(w, r, 20);
    var v := Worlds(w, Shots(r.id, 20), r.id);
    WorldsThen(w, Shots(r.id, 20), [away, back], r.id);
    OutStep(v, r.id);
    BackStep(WorldStep(v, away, r.id), r);
    TwoSteps(v, away, back, r.id);
  }

  lemma TimesAdd(now: nat, a: nat, b: nat)
    ensures Times(now, a) + Times(now, b) == Times(now, a + b)
  {
  }

  lemma LeadsOn(w: World, a: seq<Change>, b: seq<Change>, r: Rule, m: nat, k: nat)
    requires Leads(w, a, r, m) && Leads(Worlds(w, a, r.id), b, r, k)
    ensures Leads(w, a + b, r, m + k)
  {
    WorldsThen(w, a, b, r.id);
    TimesAdd(w.now, m, k);
    Assoc(w.all, Times(w.now, m), Times(w.now, k));
  }

  /** A reload that leaves a rule out (it no longer parses, or more rules are stored than fit)
      forgets its counters: with enough of them it runs any number of times in one second. */
  lemma {:induction false} ReloadForgets(w: World, r: Rule, n: nat)
    requires Fresh(r) && w.rules == [r]
    ensures Leads(w, Laps(r, n), r, 20 * n)
  {
    if n > 0 {
      ReloadForgets(w, r, n - 1);
      LapRun(Worlds(w, Laps(r, n - 1), r.id), r);
      LeadsOn(w, Laps(r, n - 1), Lap(r), r, 20 * (n - 1), 20);
    }
  }

  lemma Assoc(a: seq<nat>, b: seq<nat>, c: seq<nat>)
    ensures (a + b) + c == a + (b + c)
  {
  }

  // ── The engine ─────────────────────────────────────────────────────

  predicate Small(rules: seq<Rule>) {
    forall i :: 0 <= i < |rules| ==> |rules[i].actions| <= 4
  }

  /** One rule fired without interruption: the table, and the events its actions publish. */
  function Fired(rules: seq<Rule>, idx: nat, id: nat, ev: Option<Event>, manual: bool, now: nat,
                 works: Works): (seq<Rule>, seq<Event>) {
    var (rs, ok) := Admitted(rules, idx, id, manual, now);
    if !ok then (rs, [])
    else
      var acts := rs[idx].actions;
      (Finished(rs, idx, id, FailedAt(acts, id, HopOf(ev), works, |acts|), now), Emitted(acts, HopOf(ev)))
  }

  /** The first `n` picked rules, fired in order. */
  function FiredAll(rules: seq<Rule>, m: seq<(nat, nat)>, ev: Event, now: nat,
                    works: Works, n: nat): (seq<Rule>, seq<Event>)
    requires n <= |m|
  {
    if n == 0 then (rules, [])
    else
      var (rs, out) := FiredAll(rules, m, ev, now, works, n - 1);
      var (r2, more) := Fired(rs, m[n - 1].0, m[n - 1].1, Some(ev), false, now, works);
      (r2, out + more)
  }

  lemma FiredIs(rules: seq<Rule>, idx: nat, id: nat, ev: Option<Event>, manual: bool, now: nat,
                works: Works)
    requires Small(rules)
    ensures var (rs, out) := Fired(rules, idx, id, ev, manual, now, works);
            && Small(rs) && |out| <= 4
            && (HopOf(ev) >= 8 ==> out == [])
            && forall i :: 0 <= i < |out| ==> out[i].RuleEvent? && out[i].hop == HopOf(ev) + 1
  {
  }

  /** Every dispatch publishes within the bounds the chain argument needs. */
  lemma {:induction false} DispatchPublishes(rules: seq<Rule>, m: seq<(nat, nat)>, ev: Event, now: nat,
                                             works: Works, n: nat)
    requires Small(rules) && n <= |m|
    ensures var (rs, out) := FiredAll(rules, m, ev, now, works, n);
            && Small(rs) && |out| <= 4 * n
            && (HopIn(ev) >= 8 ==> out == [])
            && forall i :: 0 <= i < |out| ==> out[i].RuleEvent? && out[i].hop == HopIn(ev) + 1
  {
    if n > 0 {
      DispatchPublishes(rules, m, ev, now, works, n - 1);
      var (rs, out) := FiredAll(rules, m, ev, now, works, n - 1);
      FiredIs(rs, m[n - 1].0, m[n - 1].1, Some(ev), false, now, works);
    }
  }

  /** What a dispatch does to the table, and the events it publishes. */
  function Dispatched(rules: seq<Rule>, ev: Event, now: nat, works: Works): (seq<Rule>, seq<Event>) {
    var (rs, picked) := Scanned(rules, ev, |rules|);
    FiredAll(rs, Paired(rules, picked), ev, now, works, |picked|)
  }

  lemma DispatchedPublishes(rules: seq<Rule>, ev: Event, now: nat, works: Works)
    requires Small(rules)
    ensures Small(Dispatched(rules, ev, now, works).0)
    ensures Publishes(HopIn(ev), Dispatched(rules, ev, now, works).1)
  {
    ScannedSmall(rules, ev, |rules|);
    var (rs, picked) := Scanned(rules, ev, |rules|);
    DispatchPublishes(rs, Paired(rules, picked), ev, now, works, |picked|);
  }

  // ── Firing on a change ─────────────────────────────────────────────

  datatype Dispatch = Dispatch(ev: Event, now: nat, works: Works)

  function AfterAll(rules: seq<Rule>, ds: seq<Dispatch>): seq<Rule>
    decreases |ds|
  {
    if ds == [] then rules
    else
      var d := ds[|ds| - 1];
      Dispatched(AfterAll(rules, ds[..|ds| - 1]), d.ev, d.now, d.works).0
  }

  /** The queue after dispatches that each take its oldest event; what their rules publish joins
      behind. */
  function QueueAfter(rules: seq<Rule>, q: seq<Event>, ds: seq<Dispatch>): seq<Event>
    decreases |ds|
  {
    if ds == [] then q
    else
      var n := |ds| - 1;
      var w := QueueAfter(rules, q, ds[..n]);
      if w == [] then []
      else PushAll(w[1..], Dispatched(AfterAll(rules, ds[..n]), ds[n].ev, ds[n].now, ds[n].works).1)
  }

  predicate TakesOldest(rules: seq<Rule>, q: seq<Event>, ds: seq<Dispatch>, k: nat)
    requires k < |ds|
  {
    var w := QueueAfter(rules, q, ds[..k]); w != [] && ds[k].ev == w[0]
  }

  predicate InOrder(rules: seq<Rule>, q: seq<Event>, ds: seq<Dispatch>) {
    forall k :: 0 <= k < |ds| ==> TakesOldest(rules, q, ds, k)
  }

  lemma DispatchNext(rules: seq<Rule>, q: seq<Event>, ds: seq<Dispatch>, d: Dispatch)
    requires InOrder(rules, q, ds) && QueueAfter(rules, q, ds) != [] && d.ev == QueueAfter(rules, q, ds)[0]
    ensures InOrder(rules, q, ds + [d])
    ensures var w, (rs, out) := QueueAfter(rules, q, ds), Dispatched(AfterAll(rules, ds), d.ev, d.now, d.works);
            QueueAfter(rules, q, ds + [d]) == PushAll(w[1..], out) && AfterAll(rules, ds + [d]) == rs
  {
    var all := ds + [d];
    assert all[..|ds|] == ds;
    forall k | 0 <= k < |all| ensures TakesOldest(rules, q, all, k) {
      assert all[..k] == ds[..k];
      if k < |ds| { assert TakesOldest(rules, q, ds, k); } else { assert ds[..k] == ds; }
    }
  }

  /** The same rule but for its counters. */
  predicate SameRule(r: Rule, s: Rule) {
    r == s.(stat := r.stat)
  }

  lemma FiredSame(rules: seq<Rule>, idx: nat, id: nat, ev: Option<Event>, manual: bool, now: nat,
                  works: Works, i: nat)
    requires i < |rules|
    ensures var rs := Fired(rules, idx, id, ev, manual, now, works).0;
            |rs| == |rules| && SameRule(rules[i], rs[i])
  {
  }

  lemma {:induction false} FiredAllSame(rules: seq<Rule>, m: seq<(nat, nat)>, ev: Event, now: nat,
                                        works: Works, n: nat, i: nat)
    requires n <= |m| && i < |rules|
    ensures var rs := FiredAll(rules, m, ev, now, works, n).0;
            |rs| == |rules| && SameRule(rules[i], rs[i])
  {
    if n > 0 {
      FiredAllSame(rules, m, ev, now, works, n - 1, i);
      FiredSame(FiredAll(rules, m, ev, now, works, n - 1).0, m[n - 1].0, m[n - 1].1, Some(ev), false, now, works, i);
    }
  }

  /** A dispatch looks at a rule that is enabled and has fewer than 16 picked before it. */
  predicate Looked(rules: seq<Rule>, ev: Event, i: nat)
    requires i < |rules|
  {
    rules[i].enabled && |Scanned(rules, ev, i).1| < 16
  }

  predicate Picks(rules: seq<Rule>, ev: Event, i: nat) {
    i in Scanned(rules, ev, |rules|).1
  }

  lemma {:induction false} ScannedAt(rules: seq<Rule>, ev: Event, i: nat, n: nat)
    requires i < n <= |rules|
    ensures Scanned(rules, ev, n).0[i] == if Looked(rules, ev, i) then Met(rules[i], ev).1 else rules[i]
    ensures i in Scanned(rules, ev, n).1 <==> Looked(rules, ev, i) && Met(rules[i], ev).0.Fire?
    decreases n
  {
    if n > i + 1 {
      ScannedAt(rules, ev, i, n - 1);
    }
  }

  lemma DispatchedAt(rules: seq<Rule>, ev: Event, now: nat, works: Works, i: nat)
    requires i < |rules|
    ensures var rs := Dispatched(rules, ev, now, works).0;
            && |rs| == |rules|
            && SameRule(if Looked(rules, ev, i) then Remembered(rules[i], ev) else rules[i], rs[i])
  {
    var (rs, picked) := Scanned(rules, ev, |rules|);
    ScannedAt(rules, ev, i, |rules|);
    FiredAllSame(rs, Paired(rules, picked), ev, now, works, |picked|, i);
  }

  predicate Tells(t: Trigger, ev: Event) {
    ev.Report? && About(t, ev.ieee, ev.key)
  }

  /** The last value of the trigger's attribute that was reported. */
  function LastReport(t: Trigger, ds: seq<Dispatch>): Option<Val>
    decreases |ds|
  {
    if ds == [] then None
    else
      var d := ds[|ds| - 1];
      if Tells(t, d.ev) then Some(d.ev.val) else LastReport(t, ds[..|ds| - 1])
  }

  /** The last one reported by an event that came to rule `i`. */
  function LastMet(rules: seq<Rule>, ds: seq<Dispatch>, i: nat): Option<Val>
    requires i < |rules|
    decreases |ds|
  {
    if ds == [] then None
    else
      var d, rest := ds[|ds| - 1], AfterAll(rules, ds[..|ds| - 1]);
      if Tells(rules[i].trigger, d.ev) && i < |rest| && Looked(rest, d.ev, i) then Some(d.ev.val)
      else LastMet(rules, ds[..|ds| - 1], i)
  }

  /** Every report of the trigger's attribute came to rule `i`. */
  predicate MeetsAll(rules: seq<Rule>, ds: seq<Dispatch>, i: nat)
    requires i < |rules|
    decreases |ds|
  {
    ds == []
    || (var d, rest := ds[|ds| - 1], AfterAll(rules, ds[..|ds| - 1]);
        && MeetsAll(rules, ds[..|ds| - 1], i)
        && (Tells(rules[i].trigger, d.ev) ==> i < |rest| && Looked(rest, d.ev, i)))
  }

  lemma {:induction false} AfterAllAt(rules: seq<Rule>, ds: seq<Dispatch>, i: nat)
    requires i < |rules| && HasEdge(rules[i].trigger)
    ensures var rs, met, t := AfterAll(rules, ds), LastMet(rules, ds, i), rules[i].trigger;
            && |rs| == |rules| && rs[i].trigger == t && rs[i].enabled == rules[i].enabled
            && rs[i].edge == (if met.Some? then Edge(true, Holds(t.op, t.lit, met.value), met.value)
                              else rules[i].edge)
    decreases |ds|
  {
    if ds != [] {
      var n := |ds| - 1;
      AfterAllAt(rules, ds[..n], i);
      DispatchedAt(AfterAll(rules, ds[..n]), ds[n].ev, ds[n].now, ds[n].works, i);
    }
  }

  /** What the rules promise to fire on: a comparison that goes from not holding to holding, or a
      bare attribute whose value differs. */
  predicate Rises(t: Trigger, was: Val, v: Val)
    requires t.DeviceAttr?
  {
    if t.op == Any then !SameValue(was, v) else Holds(t.op, t.lit, v) && !Holds(t.op, t.lit, was)
  }

  /** Over any run of dispatches, in any table: a report of its attribute fires a rule exactly when
      it comes to the rule and is a change from the last report that did; before the first one, when
      the memory the rule came with says so. */
  lemma FiresExactly(rules: seq<Rule>, ds: seq<Dispatch>, ev: Event, i: nat)
    requires i < |rules| && HasEdge(rules[i].trigger) && Tells(rules[i].trigger, ev)
    ensures i < |AfterAll(rules, ds)|
    ensures var now, met := AfterAll(rules, ds), LastMet(rules, ds, i);
            Picks(now, ev, i) <==>
            && Looked(now, ev, i)
            && (if met.Some? then Rises(rules[i].trigger, met.value, ev.val)
                else Evaluate(rules[i], ev).0.Fire?)
  {
    AfterAllAt(rules, ds, i);
    var now := AfterAll(rules, ds);
    ScannedAt(now, ev, i, |now|);
  }

  lemma {:induction false} MeetsAllLast(rules: seq<Rule>, ds: seq<Dispatch>, i: nat)
    requires i < |rules| && MeetsAll(rules, ds, i)
    ensures LastMet(rules, ds, i) == LastReport(rules[i].trigger, ds)
    decreases |ds|
  {
    if ds != [] {
      MeetsAllLast(rules, ds[..|ds| - 1], i);
    }
  }

  /** A rule that every report of its attribute came to fires exactly on a change; with a report
      that does not come to it, it keeps the promise exactly when there is nothing to fire on. */
  lemma FiresOnChange(rules: seq<Rule>, ds: seq<Dispatch>, ev: Event, i: nat)
    requires i < |rules| && HasEdge(rules[i].trigger) && Tells(rules[i].trigger, ev)
    requires MeetsAll(rules, ds, i) && LastReport(rules[i].trigger, ds).Some?
    ensures i < |AfterAll(rules, ds)|
    ensures var change := Rises(rules[i].trigger, LastReport(rules[i].trigger, ds).value, ev.val);
            (Picks(AfterAll(rules, ds), ev, i) <==> change) <==> Looked(AfterAll(rules, ds), ev, i) || !change
  {
    FiresExactly(rules, ds, ev, i);
    MeetsAllLast(rules, ds, i);
  }

  /** Sixteen rules on the bare attribute, and one behind them that waits for the value 1; all know
      the value 0. */
  function Crowd(ieee: nat, key: string): (rules: seq<Rule>)
    ensures |rules| == 17
  {
    var e := Edge(true, true, Num(P.VInt, 0));
    seq(16, (i: nat) => Rule(i, true, DeviceAttr(ieee, key, Any, LitNum(0, false)), [], e, NoStat()))
    + [Rule(16, true, DeviceAttr(ieee, key, Eq, LitNum(1, false)), [], e.(matched := false), NoStat())]
  }

  lemma {:induction false} CrowdPicks(ieee: nat, key: string, n: nat)
    requires ieee != 0 && key != "" && !Momentary(key) && n <= 16
    ensures |Scanned(Crowd(ieee, key), Report(ieee, key, Num(P.VInt, 1)), n).1| == n
  {
    if n > 0 {
      CrowdPicks(ieee, key, n - 1);
    }
  }

  lemma {:induction false} NonePicked(rules: seq<Rule>, ev: Event, n: nat)
    requires n <= |rules| && forall k :: 0 <= k < n ==> !Met(rules[k], ev).0.Fire?
    ensures Scanned(rules, ev, n).1 == []
  {
    if n > 0 {
      NonePicked(rules, ev, n - 1);
    }
  }

  /** The first report of 1: the sixteen are picked and remember it, the last one does not see it. */
  lemma CrowdAfter(ieee: nat, key: string, now: nat, k: nat)
    requires ieee != 0 && key != "" && !Momentary(key) && k <= 16
    ensures var rules, ev := Crowd(ieee, key), Report(ieee, key, Num(P.VInt, 1));
            var next := Dispatched(rules, ev, now, {}).0;
            && |next| == 17 && (Looked(rules, ev, k) <==> k < 16)
            && SameRule(if k < 16 then Remembered(rules[k], ev) else rules[k], next[k])
            && (k < 16 ==> !Met(next[k], ev).0.Fire?)
  {
    CrowdPicks(ieee, key, k);
    DispatchedAt(Crowd(ieee, key), Report(ieee, key, Num(P.VInt, 1)), now, {}, k);
  }

  // The heartbeat of 1: none of the sixteen fires.
  lemma CrowdQuiet(ieee: nat, key: string, now: nat, next: seq<Rule>)
    requires ieee != 0 && key != "" && !Momentary(key)
    requires next == Dispatched(Crowd(ieee, key), Report(ieee, key, Num(P.VInt, 1)), now, {}).0
    ensures |next| == 17 && Scanned(next, Report(ieee, key, Num(P.VInt, 1)), 16).1 == []
  {
    CrowdAfter(ieee, key, now, 16);
    forall k | 0 <= k < 16 ensures !Met(next[k], Report(ieee, key, Num(P.VInt, 1))).0.Fire? {
      CrowdAfter(ieee, key, now, k);
    }
    NonePicked(next, Report(ieee, key, Num(P.VInt, 1)), 16);
  }

  /** In the table the promise fails: with sixteen firing rules in front, a rule misses the report
      that makes its comparison hold, and fires on the heartbeat that repeats it. */
  lemma CrowdedOut(ieee: nat, key: string, now: nat)
    requires ieee != 0 && key != "" && !Momentary(key)
    ensures var rules, ev := Crowd(ieee, key), Report(ieee, key, Num(P.VInt, 1));
            && HasEdge(rules[16].trigger)
            && !Picks(rules, ev, 16)
            && Picks(AfterAll(rules, [Dispatch(ev, now, {})]), ev, 16)
  {
    var rules, ev := Crowd(ieee, key), Report(ieee, key, Num(P.VInt, 1));
    var next := Dispatched(rules, ev, now, {}).0;
    AfterOne(rules, Dispatch(ev, now, {}));
    CrowdAfter(ieee, key, now, 16);
    ScannedAt(rules, ev, 16, 17);
    CrowdQuiet(ieee, key, now, next);
    ScannedAt(next, ev, 16, 17);
  }

  lemma AfterOne(rules: seq<Rule>, d: Dispatch)
    ensures AfterAll(rules, [d]) == Dispatched(rules, d.ev, d.now, d.works).0
  {
    assert [d][..0] == [] && AfterAll(rules, []) == rules;
  }

  /** The picked rules with their ids. */
  function Paired(rules: seq<Rule>, picked: seq<nat>): (m: seq<(nat, nat)>)
    requires forall k :: 0 <= k < |picked| ==> picked[k] < |rules|
    ensures |m| == |picked|
    ensures forall k :: 0 <= k < |m| ==> m[k] == (picked[k], rules[picked[k]].id)
  {
    seq(|picked|, k requires 0 <= k < |picked| => (picked[k], rules[picked[k]].id))
  }

  /** Once 16 rules are picked the rest of the table is not looked at. */
  lemma {:induction false} ScannedFull(rules: seq<Rule>, ev: Event, n: nat, k: nat)
    requires n <= k <= |rules| && (n == k || |Scanned(rules, ev, n).1| == 16)
    ensures Scanned(rules, ev, k) == Scanned(rules, ev, n)
    decreases k
  {
    if n < k {
      ScannedFull(rules, ev, n, k - 1);
    }
  }

  lemma {:induction false} ScannedSmall(rules: seq<Rule>, ev: Event, n: nat)
    requires Small(rules) && n <= |rules|
    ensures Small(Scanned(rules, ev, n).0)
  {
    if n > 0 {
      ScannedSmall(rules, ev, n - 1);
    }
  }

  lemma EmittedNext(acts: seq<Action>, i: nat, hop: nat)
    requires i < |acts|
    ensures Emitted(acts[..i + 1], hop) ==
            Emitted(acts[..i], hop) + (if hop < 8 && acts[i].Emit? then [RuleEvent(acts[i].name, hop + 1)] else [])
  {
    assert acts[..i + 1][..i] == acts[..i];
  }

  /** The queue after the first `i` actions. */
  ghost function PushedBy(q: seq<Event>, acts: seq<Action>, hop: nat, i: nat): seq<Event>
    requires i <= |acts|
  {
    PushAll(q, Emitted(acts[..i], hop))
  }

  lemma ScannedNext(rules: seq<Rule>, ev: Event, i: nat)
    requires i < |rules| && |Scanned(rules, ev, i).1| < 16
    ensures var (rs, m) := Scanned(rules, ev, i);
            Scanned(rules, ev, i + 1) ==
            if !rules[i].enabled then (rs, m)
            else (rs[i := Met(rules[i], ev).1], if Met(rules[i], ev).0.Fire? then m + [i] else m)
    ensures Scanned(rules, ev, i).0[i] == rules[i]
  {
  }

  lemma PairedNext(rules: seq<Rule>, picked: seq<nat>, i: nat)
    requires i < |rules| && forall k :: 0 <= k < |picked| ==> picked[k] < |rules|
    ensures Paired(rules, picked + [i]) == Paired(rules, picked) + [(i, rules[i].id)]
  {
  }

  lemma FiredNext(rules: seq<Rule>, m: seq<(nat, nat)>, ev: Event, now: nat,
                  works: Works, i: nat)
    requires i < |m|
    ensures var (rs, out) := FiredAll(rules, m, ev, now, works, i);
            var (r2, more) := Fired(rs, m[i].0, m[i].1, Some(ev), false, now, works);
            FiredAll(rules, m, ev, now, works, i + 1) == (r2, out + more)
  {
  }

  lemma FailedNext(acts: seq<Action>, id: nat, hop: nat, works: Works, i: nat)
    requires i < |acts|
    ensures var a, f := acts[i], FailedAt(acts, id, hop, works, i);
            FailedAt(acts, id, hop, works, i + 1) ==
            if f == 0 && !(if a.Emit? then hop < 8 else a.Log? || (id, i) in works) then i + 1 else f
  {
  }

  lemma PushedNext(q: seq<Event>, acts: seq<Action>, hop: nat, i: nat)
    requires i < |acts|
    ensures PushedBy(q, acts, hop, i + 1) ==
            if acts[i].Emit? && hop < 8 then Push(PushedBy(q, acts, hop, i), RuleEvent(acts[i].name, hop + 1))
            else PushedBy(q, acts, hop, i)
  {
    EmittedNext(acts, i, hop);
    var out := Emitted(acts[..i], hop);
    if acts[i].Emit? && hop < 8 {
      PushNext(q, out, RuleEvent(acts[i].name, hop + 1));
    } else {
      assert out + [] == out;
    }
  }

  class RuleEngine {
    var rules: seq<Rule>
    var queue: seq<Event>

    predicate Valid()
      reads this
    {
      && |rules| <= 64 && Small(rules)
      && |queue| <= 16 && forall i :: 0 <= i < |queue| ==> queue[i].RuleEvent?
    }

    constructor ()
      ensures Valid() && rules == [] && queue == []
    {
      rules := [];
      queue := [];
    }

    /** The change test of one rule; its memory is kept up to date whether it fires or not. */
    method EvaluateRule(i: nat, ev: Event) returns (v: Verdict)
      requires i < |rules|
      modifies `rules
      ensures v == Evaluate(old(rules)[i], ev).0
      ensures rules == old(rules)[i := Remembered(old(rules)[i], ev)]
    {
      var r := rules[i];
      var holds := Matches(r.trigger, ev);
      if !ev.Report? || !r.trigger.DeviceAttr? {
        v := if holds then Fire else Nothing;
      } else if !About(r.trigger, ev.ieee, ev.key) {
        v := Nothing;
      } else if !HasEdge(r.trigger) {
        v := if holds then Fire else NotMet;
      } else {
        var was := r.edge.known && r.edge.matched;
        var changed := !r.edge.known || !SameValue(r.edge.last, ev.val);
        rules := rules[i := r.(edge := Edge(true, holds, ev.val))];
        if !holds {
          v := NotMet;
        } else if (if r.trigger.op == Any then changed else !was) {
          v := Fire;
        } else {
          v := Same;
        }
      }
      assert rules == old(rules)[i := Remembered(r, ev)];
    }

    /** One rule meets an event; if it does not run, its counters say why. */
    method MeetRule(i: nat, ev: Event) returns (v: Verdict)
      requires i < |rules|
      modifies `rules
      ensures v == Met(old(rules)[i], ev).0
      ensures rules == old(rules)[i := Met(old(rules)[i], ev).1]
    {
      v := EvaluateRule(i, ev);
      if v.Same? {
        rules := rules[i := rules[i].(stat := rules[i].stat.(skip := Unchanged))];
      } else if v.NotMet? {
        rules := rules[i := rules[i].(stat := rules[i].stat.(skip := ConditionFalse))];
      }
    }

    /** The locked half of a dispatch: the first 16 enabled rules the event fires, with their ids. */
    method Collect(ev: Event) returns (m: seq<(nat, nat)>)
      requires Valid()
      modifies `rules
      ensures Valid()
      ensures rules == Scanned(old(rules), ev, |old(rules)|).0
      ensures m == Paired(old(rules), Scanned(old(rules), ev, |old(rules)|).1)
    {
      m := [];
      var i := 0;
      ghost var was := rules;
      while i < |rules| && |m| < 16
        invariant i <= |rules| == |was|
        invariant rules == Scanned(was, ev, i).0
        invariant m == Paired(was, Scanned(was, ev, i).1)
        decreases |was| - i
      {
        ScannedNext(was, ev, i);
        PairedNext(was, Scanned(was, ev, i).1, i);
        if rules[i].enabled {
          var v := MeetRule(i, ev);
          if v.Fire? {
            m := m + [(i, rules[i].id)];
          }
        }
        i := i + 1;
      }
      ScannedFull(was, ev, i, |was|);
      ScannedSmall(was, ev, |was|);
    }

    /** The run cap, as the source counts it. */
    method OverRunCap(i: nat, now: nat) returns (held: bool)
      requires i < |rules|
      modifies `rules
      ensures !CanFeedBack(old(rules)[i]) ==> !held && rules == old(rules)
      ensures CanFeedBack(old(rules)[i]) ==>
                && held == Capped(old(rules)[i].stat, now).1
                && rules == old(rules)[i := old(rules)[i].(stat := Capped(old(rules)[i].stat, now).0)]
    {
      var r := rules[i];
      if !CanFeedBack(r) { return false; }
      var st := r.stat;
      if st.minuteRuns == 0 || Elapsed(now, st.minuteStart) >= 60 {
        st := st.(minuteStart := Word(now), minuteRuns := 0);
      }
      if st.minuteRuns < 20 {
        rules := rules[i := r.(stat := st.(minuteRuns := st.minuteRuns + 1))];
        return false;
      }
      if st.minuteRuns == 20 {
        st := st.(minuteRuns := 21);
      }
      rules := rules[i := r.(stat := st.(skip := RateLimited))];
      return true;
    }

    /** An event action publishes unless its chain has 8 hops already. */
    method Perform(a: Action, hop: nat, works: bool) returns (ok: bool)
      modifies `queue
      ensures queue == if a.Emit? && hop < 8 then Push(old(queue), RuleEvent(a.name, hop + 1)) else old(queue)
      ensures ok == if a.Emit? then hop < 8 else a.Log? || works
    {
      if a.Emit? {
        if hop >= 8 { return false; }
        queue := Push(queue, RuleEvent(a.name, hop + 1));
        return true;
      }
      return a.Log? || works;
    }

    /** The next of the actions; the first one that fails is remembered. */
    method PerformNext(acts: seq<Action>, id: nat, hop: nat, works: Works, i: nat, failed: nat,
                       ghost q: seq<Event>) returns (f: nat)
      requires i < |acts|
      requires queue == PushedBy(q, acts, hop, i) && failed == FailedAt(acts, id, hop, works, i)
      modifies `queue
      ensures queue == PushedBy(q, acts, hop, i + 1) && f == FailedAt(acts, id, hop, works, i + 1)
    {
      PushedNext(q, acts, hop, i);
      FailedNext(acts, id, hop, works, i);
      var worked := (id, i) in works;
      var ok := Perform(acts[i], hop, worked);
      f := if !ok && failed == 0 then i + 1 else failed;
    }

    /** Runs the actions in order. */
    method Execute(acts: seq<Action>, id: nat, ev: Option<Event>, works: Works) returns (failed: nat)
      modifies `queue
      ensures queue == PushAll(old(queue), Emitted(acts, HopOf(ev)))
      ensures failed == FailedAt(acts, id, HopOf(ev), works, |acts|)
    {
      failed := 0;
      var hop := if ev.Some? && ev.value.RuleEvent? then ev.value.hop else 0;
      var i := 0;
      ghost var q := queue;
      while i < |acts|
        invariant i <= |acts|
        invariant queue == PushedBy(q, acts, hop, i)
        invariant failed == FailedAt(acts, id, hop, works, i)
      {
        failed := PerformNext(acts, id, hop, works, i, failed, q);
        i := i + 1;
      }
      assert acts[..|acts|] == acts;
    }

    /** Fires one rule, picked for an event, by the scheduler or by hand. */
    method FireRule(idx: nat, id: nat, ev: Option<Event>, manual: bool, now: nat,
                    works: Works) returns (ran: bool)
      requires Valid()
      modifies this
      ensures Valid()
      ensures ran == Admitted(old(rules), idx, id, manual, now).1
      ensures rules == Fired(old(rules), idx, id, ev, manual, now, works).0
      ensures queue == PushAll(old(queue), Fired(old(rules), idx, id, ev, manual, now, works).1)
    {
      FiredIs(rules, idx, id, ev, manual, now, works);
      PushAllEvents(queue, Fired(rules, idx, id, ev, manual, now, works).1);
      ran := Admit(idx, id, manual, now);
      if ran {
        var failed := Execute(rules[idx].actions, id, ev, works);
        BookRun(idx, failed, now);
      }
    }

    // The locked half: the rule is still in place, and not held.
    method Admit(idx: nat, id: nat, manual: bool, now: nat) returns (live: bool)
      modifies `rules
      ensures (rules, live) == Admitted(old(rules), idx, id, manual, now)
      ensures live ==> idx < |rules| && rules[idx].id == id
    {
      live := idx < |rules| && rules[idx].id == id && (manual || rules[idx].enabled);
      if live && !manual {
        var held := OverRunCap(idx, now);
        live := !held;
      }
    }

    method BookRun(idx: nat, failed: nat, now: nat)
      requires idx < |rules|
      modifies `rules
      ensures rules == Finished(old(rules), idx, old(rules)[idx].id, failed, now)
    {
      var st := rules[idx].stat;
      rules := rules[idx := rules[idx].(stat := st.(runs := st.runs + 1, firedAt := Word(now),
                                                    skip := if failed > 0 then ActionError else NoSkip,
                                                    skipAction := failed))];
    }

    /** The next of the picked rules is fired. */
    method FireNext(m: seq<(nat, nat)>, i: nat, ev: Event, now: nat, works: Works,
                    ghost rs: seq<Rule>, ghost out: seq<Event>, ghost q: seq<Event>)
      returns (ghost next: seq<Event>)
      requires Valid() && i < |m|
      requires (rules, out) == FiredAll(rs, m, ev, now, works, i) && queue == PushAll(q, out)
      modifies this
      ensures Valid()
      ensures (rules, next) == FiredAll(rs, m, ev, now, works, i + 1) && queue == PushAll(q, next)
    {
      ghost var more := Fired(rules, m[i].0, m[i].1, Some(ev), false, now, works).1;
      next := out + more;
      PushAllConcat(q, out, more);
      FiredNext(rs, m, ev, now, works, i);
      var _ := FireRule(m[i].0, m[i].1, Some(ev), false, now, works);
    }

    /** The picked rules are fired in order. */
    method FireAll(m: seq<(nat, nat)>, ev: Event, now: nat, works: Works) returns (ghost out: seq<Event>)
      requires Valid()
      modifies this
      ensures Valid()
      ensures (rules, out) == FiredAll(old(rules), m, ev, now, works, |m|)
      ensures queue == PushAll(old(queue), out)
    {
      ghost var rs := rules;
      out := [];
      var i := 0;
      while i < |m|
        invariant i <= |m| && Valid()
        invariant (rules, out) == FiredAll(rs, m, ev, now, works, i)
        invariant queue == PushAll(old(queue), out)
      {
        out := FireNext(m, i, ev, now, works, rs, out, old(queue));
        i := i + 1;
      }
    }

    /** One event meets the rules: those it fires are picked under the lock, then fired in order. */
    method DispatchEvent(ev: Event, now: nat, works: Works) returns (ghost out: seq<Event>)
      requires Valid()
      modifies this
      ensures Valid()
      ensures (rules, out) == Dispatched(old(rules), ev, now, works)
      ensures Publishes(HopIn(ev), out)
      ensures queue == PushAll(old(queue), out)
    {
      DispatchedPublishes(rules, ev, now, works);
      var m := Collect(ev);
      out := FireAll(m, ev, now, works);
    }

    /** Drains the rule events until none is left, the oldest first. It always ends, and a queue of
        external events is quiet after at most 144 of them. `clock` gives the time of each dispatch. */
    method DrainRuleEvents(clock: nat -> nat, works: Works) returns (count: nat, ghost ds: seq<Dispatch>)
      requires Valid()
      modifies this
      ensures Valid() && queue == []
      ensures count == |ds| && forall k :: 0 <= k < count ==> ds[k].now == clock(k) && ds[k].works == works
      ensures InOrder(old(rules), old(queue), ds) && QueueAfter(old(rules), old(queue), ds) == []
      ensures rules == AfterAll(old(rules), ds)
      ensures count <= Load(old(queue))
      ensures (forall i :: 0 <= i < |old(queue)| ==> old(queue)[i].hop == 0) ==> count <= 144
    {
      count, ds := 0, [];
      ghost var q0, r0 := queue, rules;
      ghost var short := TwoHops(queue);
      while queue != []
        invariant Valid()
        invariant count == |ds| && forall k :: 0 <= k < count ==> ds[k].now == clock(k) && ds[k].works == works
        invariant InOrder(r0, q0, ds) && queue == QueueAfter(r0, q0, ds) && rules == AfterAll(r0, ds)
        invariant count + Load(queue) <= Load(q0)
        invariant short ==> TwoHops(queue) && count + Bound(queue) <= Bound(q0)
        decreases Load(queue)
      {
        ghost var d := DrainOne(r0, q0, ds, clock(count), works, short);
        ds := ds + [d];
        count := count + 1;
      }
      ExternalBound(q0);
    }

    // The oldest event is taken and meets the rules.
    method DrainOne(ghost r0: seq<Rule>, ghost q0: seq<Event>, ghost ds: seq<Dispatch>, now: nat, works: Works,
                    ghost short: bool) returns (ghost d: Dispatch)
      requires Valid() && queue != []
      requires InOrder(r0, q0, ds) && queue == QueueAfter(r0, q0, ds) && rules == AfterAll(r0, ds)
      requires short ==> TwoHops(queue)
      modifies this
      ensures Valid() && d.now == now && d.works == works
      ensures InOrder(r0, q0, ds + [d]) && queue == QueueAfter(r0, q0, ds + [d]) && rules == AfterAll(r0, ds + [d])
      ensures Load(queue) < Load(old(queue))
      ensures short ==> TwoHops(queue) && Bound(queue) < Bound(old(queue))
    {
      ghost var q := queue;
      var ev := queue[0];
      queue := queue[1..];
      d := Dispatch(ev, now, works);
      DispatchNext(r0, q0, ds, d);
      var out := DispatchEvent(ev, now, works);
      LoadFront(q);
      PublishedLoad(q[1..], out, HopIn(ev));
      if short {
        DispatchShrinks(q, out);
      }
    }

    /** Rules read again from the store: each takes its counters and memory from the one it
        replaces. */
    method Reload(given: seq<Rule>, shadow: Shadow)
      requires Valid() && |given| <= 64 && Small(given)
      modifies `rules
      ensures Valid()
      ensures rules == Reloaded(old(rules), given, shadow)
    {
      var next: seq<Rule> := [];
      var i := 0;
      while i < |given|
        invariant i <= |given| && |next| == i && rules == old(rules)
        invariant forall k :: 0 <= k < i ==> next[k] == Taken(rules, given[k], shadow)
      {
        var j := Find(given[i].id);
        if j < |rules| {
          next := next + [Seed(given[i].(stat := rules[j].stat), Some(rules[j]), shadow)];
        } else {
          next := next + [Seed(given[i].(stat := NoStat()), None, shadow)];
        }
        i := i + 1;
      }
      assert next == Reloaded(rules, given, shadow);
      forall k | 0 <= k < |next| ensures |next[k].actions| <= 4 {
        assert next[k].actions == given[k].actions;
      }
      rules := next;
    }

    method Find(id: nat) returns (i: nat)
      ensures i == FindId(rules, id)
    {
      i := 0;
      while i < |rules|
        invariant i <= |rules|
        invariant forall j :: 0 <= j < i ==> rules[j].id != id
      {
        if rules[i].id == id {
          FindIs(rules, id, i);
          return;
        }
        i := i + 1;
      }
      FindIs(rules, id, i);
    }

    /** An edit keeps the counters and never fires the rule. */
    method UpdateRule(id: nat, t: Trigger, acts: seq<Action>, shadow: Shadow) returns (found: bool)
      requires Valid() && |acts| <= 4
      modifies `rules
      ensures Valid()
      ensures rules == Changed(old(rules), Update(id, t, acts, shadow), 0)
      ensures found <==> FindId(old(rules), id) < |old(rules)|
    {
      var i := Find(id);
      if i >= |rules| { return false; }
      rules := rules[i := Edited(rules[i], t, acts, shadow)];
      return true;
    }

    method DeleteRule(id: nat) returns (found: bool)
      requires Valid()
      modifies `rules
      ensures Valid()
      ensures rules == Changed(old(rules), Delete(id), 0)
      ensures found <==> FindId(old(rules), id) < |old(rules)|
    {
      var i := Find(id);
      if i >= |rules| { return false; }
      var last := rules[|rules| - 1];
      rules := rules[i := last][..|rules| - 1];
      return true;
    }
  }

  lemma PushNext(q: seq<Event>, out: seq<Event>, e: Event)
    ensures PushAll(q, out + [e]) == Push(PushAll(q, out), e)
  {
    assert (out + [e])[..|out|] == out;
  }

  lemma ExternalBound(q: seq<Event>)
    requires |q| <= 16 && forall i :: 0 <= i < |q| ==> q[i].RuleEvent?
    ensures (forall i :: 0 <= i < |q| ==> q[i].hop == 0) ==> TwoHops(q) && Bound(q) <= 144
  {
  }
}
