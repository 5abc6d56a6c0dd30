/** The chip link's session: a 16-slot retransmit window on the sending side, a
    64-entry ring of frames seen on the receiving side, and a channel between
    them that loses, duplicates and reorders. One direction of data within one
    session; the other is the same. */
module HapSession {
  import opened Wrappers

  const WIN: nat := 16
  const RING: nat := 64
  const SLOT_BUF: nat := 4096
  const ACK_TIMEOUT: int := 1000
  const MAX_RETRIES: nat := 5

  /** `needs`: the sender expects an ACK; otherwise the frame bypasses the
      window. */
  datatype Frame = Frame(num: nat, kind: nat, needs: bool, body: seq<int>)

  // ── Sequence numbers ──────────────────────────────────────────────────

  /** The 16-bit counter's next value; 0 is skipped. */
  function NextSeq(s: nat): nat { if s >= 65535 then 1 else s + 1 }

  function SeqAfter(s: nat, n: nat): nat { if n == 0 then s else NextSeq(SeqAfter(s, n - 1)) }

  lemma {:induction false} SeqAfterIs(s: nat, n: nat)
    requires 1 <= s <= 65535
    ensures SeqAfter(s, n) == (s - 1 + n) % 65535 + 1
    decreases n
  {
    if n > 0 {
      SeqAfterIs(s, n - 1);
      var k := s - 1 + n - 1;
      var q, r := k / 65535, k % 65535;
      if r == 65534 { assert k + 1 == 65535 * (q + 1); } else { assert k + 1 == 65535 * q + (r + 1); }
    }
  }

  /** No number is 0, and 65535 in a row are all different. */
  lemma SeqsDiffer(s: nat, m: nat, n: nat)
    requires 1 <= s <= 65535 && m < n < m + 65535
    ensures SeqAfter(s, m) != 0 && SeqAfter(s, m) != SeqAfter(s, n)
  {
    SeqAfterIs(s, m);
    SeqAfterIs(s, n);
    var a, b := s - 1 + m, s - 1 + n;
    assert a == 65535 * (a / 65535) + a % 65535 && b == 65535 * (b / 65535) + b % 65535;
  }

  // ── The two sides ─────────────────────────────────────────────────────

  /** `frame` is what the slot was armed with; its body is kept in the slot's
      buffer. */
  datatype Slot = Slot(active: bool, frame: Frame, retries: nat, sentMs: int)

  datatype Mark = Mark(num: nat, kind: nat)

  /** A first transmission handed to the transport after the lock is released:
      its header, and the slot whose buffer its payload points into. */
  datatype First = First(slot: nat, frame: Frame)

  /** `bufs[i]` is slot i's payload buffer; `scratch` the retransmission taken
      and not sent yet. `accepted`: every ACK-tracked frame the window took;
      `planned` and `out`: how often each is to go out, and went out. `armed`:
      which frame was put into which slot, in order. */
  datatype Sender = Sender(win: seq<Slot>, bufs: seq<seq<int>>, firsts: map<nat, First>, scratch: Option<Frame>,
                           accepted: map<nat, Frame>, planned: map<nat, nat>, out: map<nat, nat>,
                           armed: seq<First>)

  /** `log`: the marks of the ACK-tracked frames dispatched, in order. */
  datatype Receiver = Receiver(ring: seq<Mark>, head: nat, log: seq<Mark>, dispatched: seq<Frame>)

  /** Frames and ACKs once sent may arrive any number of times, or never. */
  datatype Link = Link(a: Sender, b: Receiver, data: set<Frame>, acks: set<nat>)

  function FreeSlot(win: seq<Slot>): (r: Option<nat>)
    ensures r.Some? ==> r.value < |win| && !win[r.value].active
    ensures r.None? ==> forall i :: 0 <= i < |win| ==> win[i].active
  {
    if win == [] then None
    else if !win[0].active then Some(0)
    else match FreeSlot(win[1..]) case None => None case Some(i) => Some(i + 1)
  }

  function SlotOf(win: seq<Slot>, num: nat): (r: Option<nat>)
    ensures r.Some? ==> r.value < |win| && win[r.value].active && win[r.value].frame.num == num
    ensures r.None? ==> forall i :: 0 <= i < |win| ==> !(win[i].active && win[i].frame.num == num)
  {
    if win == [] then None
    else if win[0].active && win[0].frame.num == num then Some(0)
    else match SlotOf(win[1..], num) case None => None case Some(i) => Some(i + 1)
  }

  // memcpy of `body` to the start of a buffer.
  function Copied(buf: seq<int>, body: seq<int>): (r: seq<int>)
    requires |body| <= |buf|
    ensures |r| == |buf| && r[..|body|] == body
  {
    body + buf[|body|..]
  }

  function Arm(a: Sender, tid: nat, f: Frame, now: int): Sender
    requires |a.bufs| == |a.win| == WIN && forall i :: 0 <= i < WIN ==> |a.bufs[i]| == SLOT_BUF
  {
    match FreeSlot(a.win)
    case None => a
    case Some(i) =>
      if |f.body| > SLOT_BUF then a
      else
        Armed(a, i, tid, f, now)
  }

  predicate Due(s: Slot, now: int) { s.active && now - s.sentMs >= ACK_TIMEOUT }

  /** One slot's turn in a tick: nothing, the link declared dead, or a
      retransmission copied out under the lock. */
  function TickSlot(a: Sender, i: nat, now: int): Sender
    requires i < |a.win| && i < |a.bufs|
  {
    var s := a.win[i];
    if !Due(s, now) then a
    else if s.retries >= MAX_RETRIES then a.(win := a.win[i := s.(active := false)])
    else
      var n := if |s.frame.body| <= |a.bufs[i]| then |s.frame.body| else |a.bufs[i]|;
      a.(win := a.win[i := s.(retries := s.retries + 1, sentMs := now)],
         scratch := Some(s.frame.(body := a.bufs[i][..n])),
         planned := a.planned[s.frame.num := Count(a.planned, s.frame.num) + 1])
  }

  function Count(m: map<nat, nat>, k: nat): nat { if k in m then m[k] else 0 }

  function Sent(a: Sender, num: nat): map<nat, nat> { a.out[num := Count(a.out, num) + 1] }

  function Acked(a: Sender, num: nat): Sender {
    match SlotOf(a.win, num)
    case None => a
    case Some(i) => a.(win := a.win[i := a.win[i].(active := false)])
  }

  function Idle(s: Slot): Slot { Slot(false, s.frame.(num := 0), 0, 0) }

  function ResetWin(win: seq<Slot>): seq<Slot> {
    seq(|win|, i requires 0 <= i < |win| => Idle(win[i]))
  }

  predicate Seen(b: Receiver, m: Mark) { m in b.ring }

  /** A frame arrives: an ACK-tracked one still in the ring is only ACKed
      again; any other is dispatched, once marked. */
  function Receive(b: Receiver, f: Frame): Receiver
    requires b.head < |b.ring|
  {
    var m := Mark(f.num, f.kind);
    if f.needs && Seen(b, m) then b
    else if f.needs then
      Receiver(b.ring[b.head := m], (b.head + 1) % |b.ring|, b.log + [m], b.dispatched + [f])
    else b.(dispatched := b.dispatched + [f])
  }

  datatype Event =
    | Send(tid: nat, f: Frame, now: int)
    | FirstTx(tid: nat)
    | TickTake(i: nat, now: int)
    | TickSend
    | Deliver(f: Frame)
    | DeliverAck(num: nat)
    | ResetLink

  /** A number is sent once in a session. */
  predicate Enabled(k: Link, e: Event) {
    match e
    case Send(tid, f, _) => tid !in k.a.firsts && f.num !in k.a.accepted
    case FirstTx(tid) => tid in k.a.firsts && k.a.firsts[tid].slot < |k.a.bufs| && |k.a.firsts[tid].frame.body| <= |k.a.bufs[k.a.firsts[tid].slot]|
    case TickTake(i, _) => i < WIN && k.a.scratch.None?
    case TickSend => k.a.scratch.Some?
    case Deliver(f) => f in k.data
    case DeliverAck(num) => num in k.acks
    case ResetLink => true
  }

  predicate Shape(k: Link) {
    && |k.a.win| == |k.a.bufs| == WIN && |k.b.ring| == RING && k.b.head < RING
    && forall i :: 0 <= i < WIN ==> |k.a.bufs[i]| == SLOT_BUF
  }

  // What a first transmission carries: the slot's buffer as it is by then.
  function FirstFrame(a: Sender, x: First): Frame
    requires x.slot < |a.bufs| && |x.frame.body| <= |a.bufs[x.slot]|
  {
    x.frame.(body := a.bufs[x.slot][..|x.frame.body|])
  }

  function Step(k: Link, e: Event): Link
    requires Shape(k) && Enabled(k, e)
  {
    match e
    case Send(tid, f, now) =>
      if f.num == 0 then k
      else if !f.needs then k.(data := k.data + {f})
      else k.(a := Arm(k.a, tid, f, now))
    case FirstTx(tid) =>
      var x := k.a.firsts[tid];
      k.(a := k.a.(firsts := k.a.firsts - {tid}, out := Sent(k.a, x.frame.num)), data := k.data + {FirstFrame(k.a, x)})
    case TickTake(i, now) => k.(a := TickSlot(k.a, i, now))
    case TickSend =>
      var f := k.a.scratch.value;
      k.(a := k.a.(scratch := None, out := Sent(k.a, f.num)), data := k.data + {f})
    case Deliver(f) => k.(b := Receive(k.b, f), acks := if f.needs then k.acks + {f.num} else k.acks)
    case DeliverAck(num) => k.(a := Acked(k.a, num))
    case ResetLink => k.(a := k.a.(win := ResetWin(k.a.win)))
  }

  // ── Invariants ────────────────────────────────────────────────────────

  // A busy slot holds an accepted frame, its bytes, and its retry count.
  ghost predicate SlotOk(a: Sender, i: nat)
    requires i < |a.win| && i < |a.bufs|
  {
    var s := a.win[i];
    s.active ==>
      && s.frame.num in a.accepted && a.accepted[s.frame.num] == s.frame && s.frame.needs && |s.frame.body| <= SLOT_BUF
      && |a.bufs[i]| == SLOT_BUF && a.bufs[i][..|s.frame.body|] == s.frame.body
      && s.retries <= MAX_RETRIES && Count(a.planned, s.frame.num) == s.retries + 1
  }

  ghost predicate WindowOk(a: Sender) {
    && |a.win| == |a.bufs| == WIN
    && (forall i: nat :: i < WIN ==> SlotOk(a, i))
    && (forall i: nat, j: nat :: i < j < WIN && a.win[i].active && a.win[j].active ==> a.win[i].frame.num != a.win[j].frame.num)
  }

  ghost predicate PendingFirst(a: Sender, num: nat) {
    exists tid :: tid in a.firsts && a.firsts[tid].frame.num == num
  }

  predicate PendingRetry(a: Sender, num: nat) { a.scratch.Some? && a.scratch.value.num == num }

  // Transmissions made and still pending add up to those planned, at most six.
  ghost predicate Counted(a: Sender) {
    && (forall num :: num in a.planned <==> num in a.accepted)
    && (forall num :: num in a.accepted ==>
         && a.accepted[num].num == num && num != 0
         && Count(a.planned, num) <= MAX_RETRIES + 1
         && Count(a.out, num) + (if PendingFirst(a, num) then 1 else 0) + (if PendingRetry(a, num) then 1 else 0) == Count(a.planned, num))
  }

  ghost predicate PendingOk(a: Sender) {
    && (forall tid :: tid in a.firsts ==>
         var x := a.firsts[tid]; x.slot < WIN && x.frame.num in a.accepted && a.accepted[x.frame.num] == x.frame && x.frame.needs && |x.frame.body| <= SLOT_BUF)
    && (forall t, u :: t in a.firsts && u in a.firsts && t != u ==> a.firsts[t].frame.num != a.firsts[u].frame.num)
    && (a.scratch.Some? ==> a.scratch.value.num in a.accepted && a.accepted[a.scratch.value.num] == a.scratch.value)
  }

  // Whatever is on the wire has an accepted frame's header.
  ghost predicate WireOk(k: Link) {
    forall f :: f in k.data && f.needs ==>
      f.num in k.a.accepted && f.kind == k.a.accepted[f.num].kind && |f.body| == |k.a.accepted[f.num].body|
  }

  /** The ring holds the last 64 marks, and nothing but marks or blanks. */
  ghost predicate RingOk(b: Receiver) {
    && |b.ring| == RING && b.head == |b.log| % RING
    && (forall i: nat :: i < |b.log| && i + RING >= |b.log| ==> b.ring[i % RING] == b.log[i])
    && (forall m :: m in b.ring ==> m.num == 0 || m in b.log)
    && (forall i: nat, j: nat :: i < j < |b.log| && b.log[i] == b.log[j] ==> j - i > RING)
  }

  ghost predicate AcksOk(k: Link) {
    forall num :: num in k.acks ==> num in k.a.accepted && Mark(num, k.a.accepted[num].kind) in k.b.log
  }

  ghost predicate Inv(k: Link) {
    && Shape(k) && WindowOk(k.a) && Counted(k.a) && PendingOk(k.a) && WireOk(k) && RingOk(k.b) && AcksOk(k)
  }

  // ── The sending side ──────────────────────────────────────────────────

  lemma ArmWindow(a: Sender, tid: nat, f: Frame, now: int)
    requires WindowOk(a) && (forall i :: 0 <= i < WIN ==> |a.bufs[i]| == SLOT_BUF) && f.num !in a.accepted && f.needs
    ensures WindowOk(Arm(a, tid, f, now)) && forall i :: 0 <= i < WIN ==> |Arm(a, tid, f, now).bufs[i]| == SLOT_BUF
  {
    var a' := Arm(a, tid, f, now);
    forall i: nat | i < WIN
      ensures SlotOk(a', i)
    {
      assert SlotOk(a, i);
    }
    assert forall i: nat :: i < WIN && a.win[i].active ==> SlotOk(a, i);
  }

  // The window's new frame, when there is room.
  function Armed(a: Sender, i: nat, tid: nat, f: Frame, now: int): Sender
    requires i < |a.win| && i < |a.bufs| && |f.body| <= |a.bufs[i]|
  {
    a.(win := a.win[i := Slot(true, f, 0, now)], bufs := a.bufs[i := Copied(a.bufs[i], f.body)],
       firsts := a.firsts[tid := First(i, f)], accepted := a.accepted[f.num := f],
       planned := a.planned[f.num := 1], out := a.out[f.num := 0], armed := a.armed + [First(i, f)])
  }

  lemma ArmedFirst(a: Sender, i: nat, tid: nat, f: Frame, now: int, num: nat)
    requires i < |a.win| && i < |a.bufs| && |f.body| <= |a.bufs[i]| && tid !in a.firsts
    ensures PendingFirst(Armed(a, i, tid, f, now), num) <==> num == f.num || PendingFirst(a, num)
  {
    var a' := Armed(a, i, tid, f, now);
    assert a'.firsts[tid].frame.num == f.num;
    if PendingFirst(a, num) {
      var t :| t in a.firsts && a.firsts[t].frame.num == num;
      assert t in a'.firsts && a'.firsts[t] == a.firsts[t];
    }
  }

  lemma ArmedCounted(a: Sender, i: nat, tid: nat, f: Frame, now: int)
    requires i < |a.win| && i < |a.bufs| && |f.body| <= |a.bufs[i]| && tid !in a.firsts
    requires Counted(a) && PendingOk(a) && f.num !in a.accepted && f.num != 0
    ensures Counted(Armed(a, i, tid, f, now))
  {
    var a' := Armed(a, i, tid, f, now);
    forall num | num in a'.accepted
      ensures Count(a'.planned, num) <= MAX_RETRIES + 1
      ensures Count(a'.out, num) + (if PendingFirst(a', num) then 1 else 0) + (if PendingRetry(a', num) then 1 else 0) == Count(a'.planned, num)
    {
      ArmedFirst(a, i, tid, f, now, num);
    }
  }

  lemma ArmedPending(a: Sender, i: nat, tid: nat, f: Frame, now: int)
    requires i < WIN == |a.win| == |a.bufs| && |f.body| <= SLOT_BUF <= |a.bufs[i]| && tid !in a.firsts
    requires PendingOk(a) && f.num !in a.accepted && f.needs
    ensures PendingOk(Armed(a, i, tid, f, now))
  {
  }

  lemma ArmCounted(a: Sender, tid: nat, f: Frame, now: int)
    requires |a.win| == |a.bufs| == WIN && (forall i :: 0 <= i < WIN ==> |a.bufs[i]| == SLOT_BUF)
    requires Counted(a) && PendingOk(a) && f.num !in a.accepted && f.num != 0 && tid !in a.firsts && f.needs
    ensures Counted(Arm(a, tid, f, now)) && PendingOk(Arm(a, tid, f, now))
  {
    var s := FreeSlot(a.win);
    if s.Some? && |f.body| <= SLOT_BUF {
      ArmedCounted(a, s.value, tid, f, now);
      ArmedPending(a, s.value, tid, f, now);
    }
  }

  // A first transmission that is made is the only one of its frame.
  lemma FirstsLess(a: Sender, a': Sender, tid: nat, num: nat)
    requires tid in a.firsts && a'.firsts == a.firsts - {tid} && PendingOk(a)
    ensures PendingFirst(a', num) <==> num != a.firsts[tid].frame.num && PendingFirst(a, num)
  {
    if PendingFirst(a, num) && num != a.firsts[tid].frame.num {
      var t :| t in a.firsts && a.firsts[t].frame.num == num;
      assert t in a'.firsts && a'.firsts[t] == a.firsts[t];
    }
  }

  lemma FirstTxCounted(a: Sender, tid: nat)
    requires Counted(a) && PendingOk(a) && tid in a.firsts
    ensures var a' := a.(firsts := a.firsts - {tid}, out := Sent(a, a.firsts[tid].frame.num)); Counted(a') && PendingOk(a')
  {
    var n := a.firsts[tid].frame.num;
    var a' := a.(firsts := a.firsts - {tid}, out := Sent(a, n));
    forall num: nat
      ensures PendingFirst(a', num) <==> num != n && PendingFirst(a, num)
    {
      FirstsLess(a, a', tid, num);
    }
    assert PendingFirst(a, n);
  }

  lemma TickWindow(a: Sender, i: nat, now: int)
    requires WindowOk(a) && i < WIN
    ensures WindowOk(TickSlot(a, i, now))
  {
    var a' := TickSlot(a, i, now);
    assert SlotOk(a, i);
    forall j: nat | j < WIN
      ensures SlotOk(a', j)
    {
      assert SlotOk(a, j);
      assert j != i && a.win[i].active && a.win[j].active ==> a.win[i].frame.num != a.win[j].frame.num;
    }
  }

  lemma TickCounted(a: Sender, i: nat, now: int)
    requires WindowOk(a) && Counted(a) && PendingOk(a) && i < WIN && a.scratch.None?
    ensures Counted(TickSlot(a, i, now)) && PendingOk(TickSlot(a, i, now))
  {
    assert SlotOk(a, i);
    var a' := TickSlot(a, i, now);
    assert forall num :: PendingFirst(a', num) <==> PendingFirst(a, num);
  }

  lemma TickSendCounted(a: Sender)
    requires Counted(a) && PendingOk(a) && a.scratch.Some?
    ensures var a' := a.(scratch := None, out := Sent(a, a.scratch.value.num)); Counted(a') && PendingOk(a')
  {
    var a' := a.(scratch := None, out := Sent(a, a.scratch.value.num));
    assert forall num :: PendingFirst(a', num) <==> PendingFirst(a, num);
  }

  // Slots that go idle take nothing with them.
  lemma IdleKeeps(a: Sender, win: seq<Slot>)
    requires WindowOk(a) && Counted(a) && PendingOk(a) && |win| == WIN
    requires forall i: nat :: i < WIN ==> win[i] == a.win[i] || !win[i].active
    ensures var a' := a.(win := win); WindowOk(a') && Counted(a') && PendingOk(a')
  {
    var a' := a.(win := win);
    forall i: nat | i < WIN
      ensures SlotOk(a', i)
    {
      assert SlotOk(a, i);
    }
    assert forall num :: PendingFirst(a', num) <==> PendingFirst(a, num);
  }

  // ── The receiving side ────────────────────────────────────────────────

  lemma ModDiffers(i: nat, n: nat)
    requires i < n < i + 64
    ensures i % 64 != n % 64
  {
    var p, q := i / 64, n / 64;
    assert i == 64 * p + i % 64 && n == 64 * q + n % 64;
  }

  lemma ModNext(n: nat)
    ensures (n % 64 + 1) % 64 == (n + 1) % 64
  {
    var q, r := n / 64, n % 64;
    if r == 63 { assert n + 1 == 64 * (q + 1) + 0; } else { assert n + 1 == 64 * q + (r + 1); }
  }

  lemma NotSeenFar(b: Receiver, m: Mark, i: nat)
    requires RingOk(b) && !Seen(b, m) && i < |b.log|
    ensures b.log[i] == m ==> i + RING < |b.log|
  {
    if i + RING >= |b.log| { assert b.ring[i % RING] in b.ring; }
  }

  lemma RingMark(b: Receiver, m: Mark, f: Frame)
    requires RingOk(b) && !Seen(b, m)
    ensures RingOk(Receiver(b.ring[b.head := m], (b.head + 1) % RING, b.log + [m], b.dispatched + [f]))
  {
    var b' := Receiver(b.ring[b.head := m], (b.head + 1) % RING, b.log + [m], b.dispatched + [f]);
    var n := |b.log|;
    ModNext(n);
    forall i: nat | i < |b'.log| && i + RING >= |b'.log|
      ensures b'.ring[i % RING] == b'.log[i]
    {
      if i < n { ModDiffers(i, n); }
    }
    forall x | x in b'.ring
      ensures x.num == 0 || x in b'.log
    {
      if x == m { assert b'.log[n] == m; } else { assert x in b.ring; }
    }
    forall i: nat, j: nat | i < j < |b'.log| && b'.log[i] == b'.log[j]
      ensures j - i > RING
    {
      if i < n { NotSeenFar(b, m, i); }
    }
  }

  lemma ReceiveRing(b: Receiver, f: Frame)
    requires RingOk(b)
    ensures RingOk(Receive(b, f)) && |Receive(b, f).ring| == RING && Receive(b, f).head < RING
    ensures forall m :: m in b.log ==> m in Receive(b, f).log
    ensures f.needs && f.num != 0 ==> Mark(f.num, f.kind) in Receive(b, f).log
  {
    var m := Mark(f.num, f.kind);
    if f.needs && !Seen(b, m) {
      RingMark(b, m, f);
      assert Receive(b, f).log[|b.log|] == m;
    }
  }

  // ── Every step ────────────────────────────────────────────────────────

  lemma SendKeeps(k: Link, tid: nat, f: Frame, now: int)
    requires Inv(k) && Enabled(k, Send(tid, f, now))
    ensures Inv(Step(k, Send(tid, f, now)))
  {
    if f.num != 0 && f.needs {
      ArmWindow(k.a, tid, f, now);
      ArmCounted(k.a, tid, f, now);
    }
  }

  lemma TxKeeps(k: Link, e: Event)
    requires Inv(k) && Enabled(k, e) && (e.FirstTx? || e.TickSend?)
    ensures Inv(Step(k, e))
  {
    if e.FirstTx? { FirstTxCounted(k.a, e.tid); } else { TickSendCounted(k.a); }
    WindowSame(k.a, Step(k, e).a);
  }

  lemma WindowSame(a: Sender, a': Sender)
    requires WindowOk(a) && a'.win == a.win && a'.bufs == a.bufs && a'.accepted == a.accepted && a'.planned == a.planned
    ensures WindowOk(a')
  {
    assert forall i: nat :: i < WIN && SlotOk(a, i) ==> SlotOk(a', i);
  }

  /** Every step of both sides and the channel keeps the invariant. */
  lemma InvStep(k: Link, e: Event)
    requires Inv(k) && Enabled(k, e)
    ensures Inv(Step(k, e))
  {
    match e
    case Send(tid, f, now) => SendKeeps(k, tid, f, now);
    case FirstTx(_) => TxKeeps(k, e);
    case TickTake(i, now) =>
      TickWindow(k.a, i, now);
      TickCounted(k.a, i, now);
    case TickSend => TxKeeps(k, e);
    case Deliver(f) => ReceiveRing(k.b, f);
    case DeliverAck(num) => IdleKeeps(k.a, Acked(k.a, num).win);
    case ResetLink => IdleKeeps(k.a, ResetWin(k.a.win));
  }

  // ── Runs ──────────────────────────────────────────────────────────────

  function Start(): Link {
    Link(Sender(seq(WIN, i => Slot(false, Frame(0, 0, false, []), 0, 0)), seq(WIN, i => seq(SLOT_BUF, j => 0)),
                map[], None, map[], map[], map[], []),
         Receiver(seq(RING, i => Mark(0, 0)), 0, [], []), {}, {})
  }

  ghost predicate Linked(ks: seq<Link>, h: seq<Event>, n: nat) {
    n < |h| && n + 1 < |ks| && Shape(ks[n]) && Enabled(ks[n], h[n]) && ks[n + 1] == Step(ks[n], h[n])
  }

  ghost predicate IsRun(ks: seq<Link>, h: seq<Event>) {
    |ks| == |h| + 1 && ks[0] == Start() && forall n: nat :: n < |h| ==> Linked(ks, h, n)
  }

  lemma {:induction false} InvRun(ks: seq<Link>, h: seq<Event>, n: nat)
    requires IsRun(ks, h) && n <= |h|
    ensures Inv(ks[n])
    decreases n
  {
    if n > 0 {
      InvRun(ks, h, n - 1);
      assert Linked(ks, h, n - 1);
      InvStep(ks[n - 1], h[n - 1]);
    }
  }

  /** A NEEDS_ACK frame dispatched twice has at least 64 others dispatched in
      between. */
  lemma DispatchedOnce(ks: seq<Link>, h: seq<Event>, n: nat, i: nat, j: nat)
    requires IsRun(ks, h) && n <= |h| && i < j < |ks[n].b.log| && ks[n].b.log[i] == ks[n].b.log[j]
    ensures j - i - 1 >= 64
  {
    InvRun(ks, h, n);
  }

  /** An arriving frame that was not dispatched yet always is, and one dispatched
      before is dropped only while the ring holds it. */
  lemma FreshIsDispatched(ks: seq<Link>, h: seq<Event>, n: nat, f: Frame)
    requires IsRun(ks, h) && n < |h| && h[n] == Deliver(f)
    ensures (!f.needs || Mark(f.num, f.kind) !in ks[n].b.log) ==> ks[n + 1].b.dispatched == ks[n].b.dispatched + [f]
    ensures ks[n + 1].b.dispatched == ks[n].b.dispatched
            || (ks[n + 1].b.dispatched == ks[n].b.dispatched + [f] && (f.needs ==> ks[n + 1].b.log == ks[n].b.log + [Mark(f.num, f.kind)]))
    ensures ks[n + 1].b.dispatched == ks[n].b.dispatched ==> f.needs && Mark(f.num, f.kind) in ks[n].b.ring
    ensures f.needs ==> f.num in ks[n + 1].acks
  {
    InvRun(ks, h, n);
    assert Linked(ks, h, n);
  }

  /** A slot is freed by an ACK only when the peer has dispatched that frame. */
  lemma AckMeansDispatched(ks: seq<Link>, h: seq<Event>, n: nat, num: nat)
    requires IsRun(ks, h) && n < |h| && h[n] == DeliverAck(num) && SlotOf(ks[n].a.win, num).Some?
    ensures Shape(ks[n])
    ensures var f := ks[n].a.win[SlotOf(ks[n].a.win, num).value].frame;
            f.num == num && Mark(num, f.kind) in ks[n].b.log
  {
    InvRun(ks, h, n);
    assert Linked(ks, h, n);
    assert SlotOk(ks[n].a, SlotOf(ks[n].a.win, num).value);
  }

  /** Each ACK-tracked frame goes out at most six times. */
  lemma SixTransmissions(ks: seq<Link>, h: seq<Event>, n: nat, num: nat)
    requires IsRun(ks, h) && n <= |h| && num in ks[n].a.accepted
    ensures Count(ks[n].a.out, num) <= 6
  {
    InvRun(ks, h, n);
  }

  /** A retransmission is the original frame, byte for byte. */
  lemma RetryIsOriginal(ks: seq<Link>, h: seq<Event>, n: nat)
    requires IsRun(ks, h) && n <= |h| && ks[n].a.scratch.Some?
    ensures ks[n].a.scratch.value.num in ks[n].a.accepted
            && ks[n].a.scratch.value == ks[n].a.accepted[ks[n].a.scratch.value.num]
  {
    InvRun(ks, h, n);
  }

  /** Frame j is the last one put into `slot` whose body reaches byte `k`. */
  predicate LastOver(armed: seq<First>, slot: nat, k: nat, j: nat) {
    && j < |armed| && armed[j].slot == slot && k < |armed[j].frame.body|
    && forall i :: j < i < |armed| && armed[i].slot == slot ==> |armed[i].frame.body| <= k
  }

  // Byte `k` of a slot's buffer after those frames.
  function ByteAt(armed: seq<First>, slot: nat, k: nat): int
    decreases |armed|
  {
    if armed == [] then 0
    else
      var x := armed[|armed| - 1];
      if x.slot == slot && k < |x.frame.body| then x.frame.body[k] else ByteAt(armed[..|armed| - 1], slot, k)
  }

  // The byte is that of the last frame that reaches it.
  lemma {:induction false} LastByte(armed: seq<First>, slot: nat, k: nat, own: nat) returns (j: nat)
    requires own < |armed| && armed[own].slot == slot && k < |armed[own].frame.body|
    ensures own <= j && LastOver(armed, slot, k, j) && ByteAt(armed, slot, k) == armed[j].frame.body[k]
    decreases |armed|
  {
    var n := |armed| - 1;
    if armed[n].slot == slot && k < |armed[n].frame.body| {
      j := n;
    } else {
      j := LastByte(armed[..n], slot, k, own);
    }
  }

  lemma LastUnique(armed: seq<First>, slot: nat, k: nat, i: nat, j: nat)
    requires LastOver(armed, slot, k, i) && LastOver(armed, slot, k, j)
    ensures i == j
  {
    assert !(i < j) && !(j < i);
  }

  ghost predicate Remembers(buf: seq<int>, armed: seq<First>, slot: nat) {
    forall k: nat :: k < |buf| ==> buf[k] == ByteAt(armed, slot, k)
  }

  // The buffers hold what the frames armed so far left there.
  ghost predicate HistoryOk(a: Sender) {
    && (forall i: nat :: i < |a.bufs| ==> Remembers(a.bufs[i], a.armed, i))
    && (forall tid :: tid in a.firsts ==> a.firsts[tid] in a.armed)
  }

  lemma ArmedRemembers(buf: seq<int>, armed: seq<First>, slot: nat, i: nat, f: Frame)
    requires Remembers(buf, armed, slot) && |f.body| <= |buf|
    ensures Remembers(if i == slot then Copied(buf, f.body) else buf, armed + [First(i, f)], slot)
  {
    assert (armed + [First(i, f)])[..|armed|] == armed;
  }

  lemma SendHistory(a: Sender, i: nat, tid: nat, f: Frame, now: int)
    requires HistoryOk(a) && i < |a.win| && i < |a.bufs| && |f.body| <= |a.bufs[i]|
    requires forall j :: 0 <= j < |a.bufs| ==> |a.bufs[j]| == SLOT_BUF
    ensures HistoryOk(Armed(a, i, tid, f, now))
  {
    var z := Armed(a, i, tid, f, now);
    forall j: nat | j < |z.bufs| ensures Remembers(z.bufs[j], z.armed, j) {
      ArmedRemembers(a.bufs[j], a.armed, j, i, f);
    }
    assert z.armed[|a.armed|] == First(i, f);
    forall t | t in z.firsts ensures z.firsts[t] in z.armed {
      if t != tid { assert a.firsts[t] in a.armed; }
    }
  }

  lemma HistoryStep(k: Link, e: Event)
    requires Shape(k) && Enabled(k, e) && HistoryOk(k.a)
    ensures HistoryOk(Step(k, e).a)
  {
    if e.Send? && e.f.num != 0 && e.f.needs {
      var s := FreeSlot(k.a.win);
      if s.Some? && |e.f.body| <= SLOT_BUF {
        SendHistory(k.a, s.value, e.tid, e.f, e.now);
      }
    } else {
      HistorySame(k, e);
    }
  }

  // No other step writes a buffer.
  lemma HistorySame(k: Link, e: Event)
    requires Shape(k) && Enabled(k, e) && (e.Send? ==> e.f.num == 0 || !e.f.needs)
    ensures Step(k, e).a.bufs == k.a.bufs && Step(k, e).a.armed == k.a.armed
    ensures forall t :: t in Step(k, e).a.firsts ==> t in k.a.firsts && Step(k, e).a.firsts[t] == k.a.firsts[t]
  {
  }

  lemma {:induction false} HistoryRun(ks: seq<Link>, h: seq<Event>, n: nat)
    requires IsRun(ks, h) && n <= |h|
    ensures HistoryOk(ks[n].a)
    decreases n
  {
    if n > 0 {
      HistoryRun(ks, h, n - 1);
      assert Linked(ks, h, n - 1);
      HistoryStep(ks[n - 1], h[n - 1]);
    }
  }

  // What a first transmission carries, byte by byte.
  lemma FirstBytes(a: Sender, x: First, k: nat) returns (j: nat)
    requires HistoryOk(a) && x in a.armed && x.slot < |a.bufs| && |x.frame.body| <= |a.bufs[x.slot]| && k < |x.frame.body|
    ensures LastOver(a.armed, x.slot, k, j) && FirstFrame(a, x).body[k] == a.armed[j].frame.body[k]
  {
    var own :| 0 <= own < |a.armed| && a.armed[own] == x;
    j := LastByte(a.armed, x.slot, k, own);
    assert Remembers(a.bufs[x.slot], a.armed, x.slot);
  }

  /** A first transmission is the original frame if and only if, of the frames
      put into its slot so far, the last one that reaches each byte of its body
      has that very byte. */
  lemma FirstIsOriginal(ks: seq<Link>, h: seq<Event>, n: nat, tid: nat)
    requires IsRun(ks, h) && n < |h| && h[n] == FirstTx(tid)
    ensures Shape(ks[n]) && Enabled(ks[n], h[n])
    ensures var a, x := ks[n].a, ks[n].a.firsts[tid];
            && x.frame.num in a.accepted
            && (FirstFrame(a, x) == a.accepted[x.frame.num] <==>
                  forall k: nat, j: nat :: k < |x.frame.body| && LastOver(a.armed, x.slot, k, j) ==>
                    a.armed[j].frame.body[k] == x.frame.body[k])
  {
    InvRun(ks, h, n);
    HistoryRun(ks, h, n);
    assert Linked(ks, h, n);
    var a, x := ks[n].a, ks[n].a.firsts[tid];
    var f := FirstFrame(a, x);
    forall k: nat | k < |f.body|
      ensures Carried(a.armed, x.slot, f.body, k)
    {
      var j := FirstBytes(a, x, k);
    }
    SameBytes(a.armed, x, f.body);
  }

  // Byte `k` of `body` is that of the last frame that reaches it.
  ghost predicate Carried(armed: seq<First>, slot: nat, body: seq<int>, k: nat)
    requires k < |body|
  {
    exists j: nat :: LastOver(armed, slot, k, j) && body[k] == armed[j].frame.body[k]
  }

  lemma SameBytes(armed: seq<First>, x: First, body: seq<int>)
    requires |body| == |x.frame.body| && forall k: nat :: k < |body| ==> Carried(armed, x.slot, body, k)
    ensures body == x.frame.body <==>
              forall k: nat, j: nat :: k < |x.frame.body| && LastOver(armed, x.slot, k, j) ==>
                armed[j].frame.body[k] == x.frame.body[k]
  {
    forall k: nat, j: nat | k < |body| && LastOver(armed, x.slot, k, j)
      ensures armed[j].frame.body[k] == body[k]
    {
      assert Carried(armed, x.slot, body, k);
      var i: nat :| LastOver(armed, x.slot, k, i) && body[k] == armed[i].frame.body[k];
      LastUnique(armed, x.slot, k, i, j);
    }
    if forall k: nat, j: nat :: k < |x.frame.body| && LastOver(armed, x.slot, k, j) ==>
         armed[j].frame.body[k] == x.frame.body[k]
    {
      forall k: nat | k < |body|
        ensures body[k] == x.frame.body[k]
      {
        assert Carried(armed, x.slot, body, k);
      }
    }
  }

  /** So it is the original whenever no other frame was put into its slot since,
      whether the slot is still its own or free. */
  lemma UntouchedIsOriginal(ks: seq<Link>, h: seq<Event>, n: nat, tid: nat, own: nat)
    requires IsRun(ks, h) && n < |h| && h[n] == FirstTx(tid) && tid in ks[n].a.firsts
    requires own < |ks[n].a.armed| && ks[n].a.armed[own] == ks[n].a.firsts[tid]
    requires forall i :: own < i < |ks[n].a.armed| ==> ks[n].a.armed[i].slot != ks[n].a.firsts[tid].slot
    ensures Shape(ks[n]) && Enabled(ks[n], h[n])
    ensures var x := ks[n].a.firsts[tid];
            x.frame.num in ks[n].a.accepted && FirstFrame(ks[n].a, x) == ks[n].a.accepted[x.frame.num]
  {
    FirstIsOriginal(ks, h, n, tid);
    var a, x := ks[n].a, ks[n].a.firsts[tid];
    forall k: nat, j: nat | k < |x.frame.body| && LastOver(a.armed, x.slot, k, j)
      ensures a.armed[j].frame.body[k] == x.frame.body[k]
    {
      assert LastOver(a.armed, x.slot, k, own);
      LastUnique(a.armed, x.slot, k, own, j);
    }
  }

  /** And it is torn whenever the newest frame in its slot differs from it in a
      byte both have. */
  lemma NewestTears(ks: seq<Link>, h: seq<Event>, n: nat, tid: nat, j: nat, k: nat)
    requires IsRun(ks, h) && n < |h| && h[n] == FirstTx(tid) && tid in ks[n].a.firsts
    requires j < |ks[n].a.armed| && ks[n].a.armed[j].slot == ks[n].a.firsts[tid].slot
    requires forall i :: j < i < |ks[n].a.armed| ==> ks[n].a.armed[i].slot != ks[n].a.firsts[tid].slot
    requires k < |ks[n].a.firsts[tid].frame.body| && k < |ks[n].a.armed[j].frame.body|
    requires ks[n].a.armed[j].frame.body[k] != ks[n].a.firsts[tid].frame.body[k]
    ensures Shape(ks[n]) && Enabled(ks[n], h[n])
    ensures var x := ks[n].a.firsts[tid];
            x.frame.num in ks[n].a.accepted && FirstFrame(ks[n].a, x) != ks[n].a.accepted[x.frame.num]
  {
    FirstIsOriginal(ks, h, n, tid);
    assert LastOver(ks[n].a.armed, ks[n].a.firsts[tid].slot, k, j);
  }

  const X := Frame(1, 7, true, [10])
  const Y := Frame(2, 7, true, [20])

  /** A first transmission handed over before a reset, and made after another
      frame took its slot, carries that frame's bytes under its own number; and
      the peer dispatches it. */
  lemma TornFirst()
    ensures var k1 := Step(Start(), Send(1, X, 0));
            && Shape(k1) && var k2 := Step(k1, ResetLink);
            && Shape(k2) && Enabled(k2, Send(2, Y, 0)) && var k3 := Step(k2, Send(2, Y, 0));
            && Shape(k3) && Enabled(k3, FirstTx(1)) && var k4 := Step(k3, FirstTx(1));
            var torn := Frame(1, 7, true, [20]);
            && Shape(k4) && Enabled(k4, Deliver(torn))
            && Step(k4, Deliver(torn)).b.dispatched == [torn]
  {
    var k1 := Step(Start(), Send(1, X, 0));
    assert FreeSlot(Start().a.win) == Some(0);
    var k2 := Step(k1, ResetLink);
    assert !k2.a.win[0].active;
    assert FreeSlot(k2.a.win) == Some(0);
    var k3 := Step(k2, Send(2, Y, 0));
    assert k3.a.bufs[0][..1] == [20];
    assert k3.a.firsts[1] == First(0, X);
    var k4 := Step(k3, FirstTx(1));
    assert Frame(1, 7, true, [20]) in k4.data;
  }

  /** However a slot came free (a reset, an ACK of a retransmission, five
      retries without one) while a first transmission from it is still to be
      made: the next frame that takes it tears that transmission, if they differ
      in a byte both have. */
  lemma ReuseTears(k: Link, tid: nat, next: nat, g: Frame, now: int, i: nat)
    requires Shape(k) && Enabled(k, FirstTx(tid)) && Enabled(k, Send(next, g, now))
    requires g.needs && g.num != 0 && |g.body| <= SLOT_BUF && FreeSlot(k.a.win) == Some(k.a.firsts[tid].slot)
    requires i < |g.body| && i < |k.a.firsts[tid].frame.body| && g.body[i] != k.a.firsts[tid].frame.body[i]
    ensures var z, x := Step(k, Send(next, g, now)), k.a.firsts[tid];
            && Shape(z) && Enabled(z, FirstTx(tid)) && z.a.firsts[tid] == x
            && FirstFrame(z.a, x).body[i] == g.body[i] && FirstFrame(z.a, x) != x.frame
  {
    var z, x := Step(k, Send(next, g, now)), k.a.firsts[tid];
    assert z.a.bufs[x.slot] == Copied(k.a.bufs[x.slot], g.body);
    assert FirstFrame(z.a, x).body[i] == z.a.bufs[x.slot][i] == g.body[i];
  }

  // One more step of a run.
  lemma RunNext(ks: seq<Link>, h: seq<Event>, e: Event)
    requires IsRun(ks, h) && Shape(ks[|h|]) && Enabled(ks[|h|], e)
    ensures IsRun(ks + [Step(ks[|h|], e)], h + [e])
  {
    var ls, g := ks + [Step(ks[|h|], e)], h + [e];
    forall n: nat | n < |g| ensures Linked(ls, g, n) {
      if n < |h| { assert Linked(ks, h, n); }
    }
  }

  // X is taken and retransmitted, its first transmission still to be made.
  lemma RetriedBeforeFirst() returns (ks: seq<Link>, h: seq<Event>)
    ensures IsRun(ks, h) && |h| == 3 && Shape(ks[3]) && forall i :: 0 <= i < 3 ==> h[i] != ResetLink
    ensures ks[3].a.firsts == map[1 := First(0, X)] && ks[3].a.accepted == map[1 := X]
    ensures ks[3].a.win[0].active && ks[3].a.win[0].frame.num == 1 && FreeSlot(ks[3].a.win) == Some(1)
    ensures X in ks[3].data && ks[3].b == Start().b
  {
    ks, h := [Start()], [];
    assert FreeSlot(Start().a.win) == Some(0);
    RunNext(ks, h, Send(1, X, 0));
    ks, h := ks + [Step(ks[0], Send(1, X, 0))], h + [Send(1, X, 0)];
    assert ks[1].a.bufs[0][..1] == [10];
    RunNext(ks, h, TickTake(0, 1000));
    ks, h := ks + [Step(ks[1], TickTake(0, 1000))], h + [TickTake(0, 1000)];
    assert ks[2].a.scratch == Some(X);
    RunNext(ks, h, TickSend);
    ks, h := ks + [Step(ks[2], TickSend)], h + [TickSend];
  }

  // X is taken, retransmitted, dispatched and acknowledged, its first
  // transmission still to be made.
  lemma AckedBeforeFirst() returns (ks: seq<Link>, h: seq<Event>)
    ensures IsRun(ks, h) && |h| == 5 && Shape(ks[5]) && forall i :: 0 <= i < 5 ==> h[i] != ResetLink
    ensures 1 in ks[5].a.firsts && ks[5].a.firsts == map[1 := First(0, X)] && ks[5].a.accepted == map[1 := X]
    ensures FreeSlot(ks[5].a.win) == Some(0) && ks[5].b.dispatched == [X]
  {
    ks, h := RetriedBeforeFirst();
    RunNext(ks, h, Deliver(X));
    ks, h := ks + [Step(ks[3], Deliver(X))], h + [Deliver(X)];
    assert Start().b.ring == ks[3].b.ring && forall m :: m in ks[3].b.ring ==> m == Mark(0, 0);
    assert ks[4].b.dispatched == [X] && SlotOf(ks[4].a.win, 1) == Some(0);
    RunNext(ks, h, DeliverAck(1));
    ks, h := ks + [Step(ks[4], DeliverAck(1))], h + [DeliverAck(1)];
    assert !ks[5].a.win[0].active;
  }

  /** So a first transmission is torn in a run with no reset at all. */
  lemma TornAfterAck() returns (ks: seq<Link>, h: seq<Event>)
    ensures IsRun(ks, h) && |h| == 7 && h[6] == FirstTx(1) && forall i :: 0 <= i < 7 ==> h[i] != ResetLink
    ensures 1 in ks[6].a.accepted && ks[6].a.accepted[1] == X && Frame(1, 7, true, [20]) in ks[7].data
  {
    ks, h := AckedBeforeFirst();
    ReuseTears(ks[5], 1, 2, Y, 1000, 0);
    RunNext(ks, h, Send(2, Y, 1000));
    ks, h := ks + [Step(ks[5], Send(2, Y, 1000))], h + [Send(2, Y, 1000)];
    assert FirstFrame(ks[6].a, First(0, X)).body == [20];
    RunNext(ks, h, FirstTx(1));
    ks, h := ks + [Step(ks[6], FirstTx(1))], h + [FirstTx(1)];
  }

  // ── The code ──────────────────────────────────────────────────────────

  lemma {:induction false} FirstFreeSlot(win: seq<Slot>, i: nat)
    requires i <= |win| && (forall j :: 0 <= j < i ==> win[j].active) && (i < |win| ==> !win[i].active)
    ensures FreeSlot(win) == if i < |win| then Some(i) else None
    decreases i
  {
    if i > 0 { FirstFreeSlot(win[1..], i - 1); }
  }

  lemma {:induction false} FirstSlotOf(win: seq<Slot>, num: nat, i: nat)
    requires i <= |win| && (forall j :: 0 <= j < i ==> !(win[j].active && win[j].frame.num == num))
    requires i < |win| ==> win[i].active && win[i].frame.num == num
    ensures SlotOf(win, num) == if i < |win| then Some(i) else None
    decreases i
  {
    if i > 0 { FirstSlotOf(win[1..], num, i - 1); }
  }

  // A slot that is idle stays idle; a busy one stays as it is.
  predicate SameOrIdle(before: Slot, after: Slot) {
    after.active == before.active && (after.active ==> after == before)
  }

  class Session {
    const win: array<Slot>
    const bufs: array<seq<int>>
    const ring: array<Mark>
    var head: nat
    var next: nat

    ghost predicate Valid()
      reads this, bufs
    {
      && win.Length == WIN && bufs.Length == WIN && ring.Length == RING && head < RING && 1 <= next <= 65535
      && forall i :: 0 <= i < WIN ==> |bufs[i]| == SLOT_BUF
    }

    constructor Init()
      ensures Valid() && next == 1 && head == 0
      ensures win[..] == Start().a.win && bufs[..] == Start().a.bufs && ring[..] == Start().b.ring
      ensures fresh(win) && fresh(bufs) && fresh(ring)
    {
      win := new Slot[WIN](_ => Slot(false, Frame(0, 0, false, []), 0, 0));
      bufs := new seq<int>[WIN](_ => seq(SLOT_BUF, j => 0));
      ring := new Mark[RING](_ => Mark(0, 0));
      head, next := 0, 1;
    }

    method NextSeqNumber() returns (s: nat)
      requires Valid()
      modifies this`next
      ensures Valid() && s == old(next) && s != 0 && next == NextSeq(s)
    {
      s := next;
      next := next + 1;
      if next > 65535 { next := 1; }
    }

    method FindFreeSlot() returns (i: int)
      ensures i == match FreeSlot(win[..]) case None => -1 case Some(k) => k
    {
      for k := 0 to win.Length
        invariant forall j :: 0 <= j < k ==> win[j].active
      {
        if !win[k].active {
          FirstFreeSlot(win[..], k);
          return k;
        }
      }
      FirstFreeSlot(win[..], win.Length);
      return -1;
    }

    method FindSlotBySeq(num: nat) returns (i: int)
      ensures i == match SlotOf(win[..], num) case None => -1 case Some(k) => k
    {
      for k := 0 to win.Length
        invariant forall j :: 0 <= j < k ==> !(win[j].active && win[j].frame.num == num)
      {
        if win[k].active && win[k].frame.num == num {
          FirstSlotOf(win[..], num, k);
          return k;
        }
      }
      FirstSlotOf(win[..], num, win.Length);
      return -1;
    }

    /** The locked part of a send of an ACK-tracked frame: the slot its first
        transmission will read from, or None when it is refused. */
    method Accept(f: Frame, now: int) returns (slot: Option<nat>)
      requires Valid()
      modifies win, bufs
      ensures Valid()
      ensures var s := FreeSlot(old(win[..]));
              && slot == (if s.Some? && |f.body| <= SLOT_BUF then s else None)
              && (slot.Some? ==> win[..] == old(win[..])[slot.value := Slot(true, f, 0, now)]
                                 && bufs[..] == old(bufs[..])[slot.value := Copied(old(bufs[..])[slot.value], f.body)])
              && (slot.None? ==> bufs[..] == old(bufs[..])
                                 && forall i :: 0 <= i < WIN ==> SameOrIdle(old(win[i]), win[i]))
    {
      var i := FindFreeSlot();
      if i < 0 { return None; }
      win[i] := Slot(true, f, 0, now);
      if |f.body| > SLOT_BUF {
        win[i] := win[i].(active := false);
        return None;
      }
      bufs[i] := f.body + bufs[i][|f.body|..];
      return Some(i);
    }

    method OnAck(num: nat)
      requires Valid()
      modifies win
      ensures win[..] == match SlotOf(old(win[..]), num)
                         case None => old(win[..])
                         case Some(i) => old(win[..])[i := old(win[..])[i].(active := false)]
    {
      var i := FindSlotBySeq(num);
      if i >= 0 { win[i] := win[i].(active := false); }
    }

    /** One slot's turn in a tick: what to retransmit, copied out under the lock. */
    method TickOne(i: nat, now: int) returns (retry: Option<Frame>, dead: bool)
      requires Valid() && i < WIN
      modifies win
      ensures var s := old(win[i]);
              && dead == (Due(s, now) && s.retries >= MAX_RETRIES)
              && (retry.Some? <==> Due(s, now) && s.retries < MAX_RETRIES)
              && (!Due(s, now) ==> win[..] == old(win[..]))
              && (dead ==> win[..] == old(win[..])[i := s.(active := false)])
              && (retry.Some? ==> win[..] == old(win[..])[i := s.(retries := s.retries + 1, sentMs := now)]
                                  && retry.value == s.frame.(body := bufs[i][..if |s.frame.body| <= SLOT_BUF then |s.frame.body| else SLOT_BUF]))
    {
      retry, dead := None, false;
      var s := win[i];
      if s.active && now - s.sentMs >= ACK_TIMEOUT {
        if s.retries >= MAX_RETRIES {
          win[i] := s.(active := false);
          dead := true;
        } else {
          win[i] := s.(retries := s.retries + 1, sentMs := now);
          var n := |s.frame.body|;
          if n > SLOT_BUF { n := SLOT_BUF; }
          retry := Some(s.frame.(body := bufs[i][..n]));
        }
      }
    }

    method ResetLink()
      requires Valid()
      modifies win
      ensures win[..] == ResetWin(old(win[..]))
    {
      for i := 0 to WIN
        invariant forall j: nat :: j < i ==> win[j] == Idle(old(win[j]))
        invariant forall j: nat :: i <= j < WIN ==> win[j] == old(win[j])
      {
        win[i] := Slot(false, win[i].frame.(num := 0), 0, 0);
      }
    }

    method SeenRecently(num: nat, kind: nat) returns (seen: bool)
      ensures seen == (Mark(num, kind) in ring[..])
    {
      for i := 0 to ring.Length
        invariant Mark(num, kind) !in ring[..i]
      {
        if ring[i].num == num && ring[i].kind == kind { return true; }
        assert ring[..i + 1] == ring[..i] + [ring[i]];
      }
      assert ring[..ring.Length] == ring[..];
      return false;
    }

    /** A data frame arrives: whether to dispatch it and whether to ACK it. */
    method OnData(f: Frame) returns (dispatch: bool, ack: bool)
      requires Valid()
      modifies this`head, ring
      ensures Valid() && ack == f.needs
      ensures var b := Receive(Receiver(old(ring[..]), old(head), [], []), f);
              ring[..] == b.ring && head == b.head && dispatch == (b.dispatched == [f])
    {
      ack := f.needs;
      if f.needs {
        var seen := SeenRecently(f.num, f.kind);
        if seen { return false, true; }
        ring[head] := Mark(f.num, f.kind);
        head := (head + 1) % RING;
      }
      dispatch := true;
    }
  }
}
