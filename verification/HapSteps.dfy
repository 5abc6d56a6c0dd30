/** What the steps of HapSession do, in plain terms: a send, a retransmission turn, an arriving
    frame and an acknowledgement, with the numbers that the source fixes. */
module HapSteps {
  import opened Wrappers
  import opened HapSession

  /** A send of a frame that expects an ACK, while a slot is idle and the payload fits: the frame
      takes an idle slot with its bytes in the slot's buffer, and its first transmission is due. No
      other slot changes. */
  lemma SendTakesSlot(k: Link, tid: nat, f: Frame, now: int)
    requires Inv(k) && Enabled(k, Send(tid, f, now)) && f.num != 0 && f.needs && |f.body| <= 4096
    requires exists i :: 0 <= i < 16 && !k.a.win[i].active
    ensures var z := Step(k, Send(tid, f, now));
            exists i :: 0 <= i < 16 && !k.a.win[i].active
              && z.a.win == k.a.win[i := Slot(true, f, 0, now)] && z.a.bufs[i][..|f.body|] == f.body
              && (forall j :: 0 <= j < 16 && j != i ==> z.a.bufs[j] == k.a.bufs[j])
              && z.a.firsts == k.a.firsts[tid := First(i, f)] && z.data == k.data && z.b == k.b
  {
    var i := FreeSlot(k.a.win).value;
    assert Step(k, Send(tid, f, now)).a == Armed(k.a, i, tid, f, now);
  }

  /** It is refused, and nothing changes, when every slot is busy or the payload does not fit; a
      frame that expects no ACK goes straight onto the wire; number 0 is never sent. */
  lemma SendElse(k: Link, tid: nat, f: Frame, now: int)
    requires Inv(k) && Enabled(k, Send(tid, f, now))
    ensures var z := Step(k, Send(tid, f, now));
            && (f.num != 0 && f.needs && (|f.body| > 4096 || forall i :: 0 <= i < 16 ==> k.a.win[i].active) ==> z == k)
            && (f.num != 0 && !f.needs ==> z == k.(data := k.data + {f}))
            && (f.num == 0 ==> z == k)
  {
    if FreeSlot(k.a.win).Some? { assert !k.a.win[FreeSlot(k.a.win).value].active; }
  }

  /** A first transmission puts one frame on the wire: its own header and length, over the bytes in
      its slot's buffer. */
  lemma FirstOnWire(k: Link, tid: nat)
    requires Inv(k) && Enabled(k, FirstTx(tid))
    ensures var z, x := Step(k, FirstTx(tid)), k.a.firsts[tid];
            && z.data == k.data + {Frame(x.frame.num, x.frame.kind, x.frame.needs, k.a.bufs[x.slot][..|x.frame.body|])}
            && tid !in z.a.firsts && z.a.win == k.a.win && z.a.bufs == k.a.bufs && z.b == k.b
  {
  }

  /** A tick's turn at a busy slot: nothing in the first second; then the frame is copied out for
      another transmission, up to five times, a second apart at least; then the slot is given up. */
  lemma TickTurn(k: Link, i: nat, now: int)
    requires Inv(k) && Enabled(k, TickTake(i, now))
    ensures var z, s := Step(k, TickTake(i, now)), k.a.win[i];
            && (!s.active || now < s.sentMs + 1000 ==> z == k)
            && (s.active && now >= s.sentMs + 1000 && s.retries < 5 ==>
                  && z.a.scratch == Some(s.frame)
                  && z.a.win == k.a.win[i := s.(retries := s.retries + 1, sentMs := now)] && z.data == k.data)
            && (s.active && now >= s.sentMs + 1000 && s.retries >= 5 ==>
                  z.a.win == k.a.win[i := s.(active := false)] && z.a.scratch.None? && z.data == k.data)
  {
    assert SlotOk(k.a, i);
  }

  /** A retransmission copied out goes onto the wire as it is. */
  lemma RetryOnWire(k: Link)
    requires Inv(k) && Enabled(k, TickSend)
    ensures var z := Step(k, TickSend);
            z.data == k.data + {k.a.scratch.value} && z.a.scratch.None? && z.a.win == k.a.win && z.b == k.b
  {
  }

  /** An acknowledgement frees the slot that holds its number, if there is one, and no other. */
  lemma AckFrees(k: Link, num: nat)
    requires Inv(k) && Enabled(k, DeliverAck(num))
    ensures var z := Step(k, DeliverAck(num));
            && |z.a.win| == 16 && z.a == k.a.(win := z.a.win) && z.b == k.b && z.data == k.data && z.acks == k.acks
            && forall i :: 0 <= i < 16 ==>
                 z.a.win[i] == if k.a.win[i].active && k.a.win[i].frame.num == num then k.a.win[i].(active := false) else k.a.win[i]
  {
    var z := Step(k, DeliverAck(num));
    forall i | 0 <= i < 16
      ensures z.a.win[i] == if k.a.win[i].active && k.a.win[i].frame.num == num then k.a.win[i].(active := false) else k.a.win[i]
    {
      var s := SlotOf(k.a.win, num);
      if s.Some? && s.value != i { assert k.a.win[i].active ==> k.a.win[i].frame.num != k.a.win[s.value].frame.num; }
    }
  }

  /** An arriving frame is handed on, unless it expects an ACK and its number and type are among the
      last 64 that were; one that expects an ACK gets it in either case. */
  lemma ArrivalHandedOn(k: Link, f: Frame)
    requires Inv(k) && Enabled(k, Deliver(f))
    ensures var z, m := Step(k, Deliver(f)), Mark(f.num, f.kind);
            var recent := Recent(k.b.log, m);
            && (!f.needs ==> z.b.dispatched == k.b.dispatched + [f] && z.b.log == k.b.log && z.acks == k.acks)
            && (f.needs && f.num != 0 && recent ==> z.b == k.b)
            && (f.needs && f.num != 0 && !recent ==> z.b.dispatched == k.b.dispatched + [f] && z.b.log == k.b.log + [m])
            && (f.needs ==> z.acks == k.acks + {f.num})
            && z.a == k.a && z.data == k.data
  {
    if f.num != 0 { RecentIs(k.b, Mark(f.num, f.kind)); }
  }

  predicate Recent(log: seq<Mark>, m: Mark) {
    exists j :: 0 <= j < |log| && j + 64 >= |log| && log[j] == m
  }

  // The ring holds the last 64 marks, and no older one.
  lemma RecentIs(b: Receiver, m: Mark)
    requires RingOk(b) && m.num != 0
    ensures Seen(b, m) <==> Recent(b.log, m)
  {
    if Recent(b.log, m) {
      var j :| 0 <= j < |b.log| && j + 64 >= |b.log| && b.log[j] == m;
      assert b.ring[j % 64] == m;
    }
    if Seen(b, m) {
      var p :| 0 <= p < |b.ring| && b.ring[p] == m;
      if |b.log| >= 64 {
        var j := LastAt(|b.log|, p);
        assert b.log[j] == m;
      } else {
        assert m in b.log;
        var j :| 0 <= j < |b.log| && b.log[j] == m;
      }
    }
  }

  // The last of n marks that went to place p of the ring.
  lemma LastAt(n: nat, p: nat) returns (j: nat)
    requires n >= 64 && p < 64
    ensures j < n <= j + 64 && j % 64 == p
  {
    var q, r := n / 64, n % 64;
    if p < r {
      j := 64 * q + p;
      Place(q, p);
    } else {
      j := 64 * (q - 1) + p;
      Place(q - 1, p);
    }
  }

  lemma Place(q: nat, p: nat)
    requires p < 64
    ensures (64 * q + p) % 64 == p
  {
  }
}
