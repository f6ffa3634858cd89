/**
 The UART rings of src/uart.c. Each ring has one producer and one consumer, one of them the
 interrupt handler, which can run between any two statements of the other.
 */
module Uart {
  import opened Sequences

  const CR: char := '\r'
  const LF: char := '\n'

  /** A ring buffer: `head` is where the next character is stored, `tail` where the next one is
      read; one slot always stays unused. */
  datatype Ring = Ring(buf: seq<char>, head: nat, tail: nat)

  ghost predicate RingOk(r: Ring) {
    |r.buf| >= 2 && r.head < |r.buf| && r.tail < |r.buf|
  }

  function Next(i: nat, size: nat): nat
    requires size > 0
  {
    (i + 1) % size
  }

  predicate Empty(r: Ring) {
    r.head == r.tail
  }

  predicate Full(r: Ring)
    requires |r.buf| > 0
  {
    Next(r.head, |r.buf|) == r.tail
  }

  /** How many characters the ring holds. */
  function Length(r: Ring): nat
    requires r.head < |r.buf| && r.tail < |r.buf|
  {
    if r.head >= r.tail then r.head - r.tail else r.head + |r.buf| - r.tail
  }

  function Slot(r: Ring, i: nat): nat
    requires r.tail < |r.buf| && i < |r.buf|
  {
    if r.tail + i < |r.buf| then r.tail + i else r.tail + i - |r.buf|
  }

  /** The characters in the ring, oldest first. */
  function Contents(r: Ring): (s: seq<char>)
    requires r.head < |r.buf| && r.tail < |r.buf|
    ensures |s| == Length(r)
    ensures forall i :: 0 <= i < |s| ==> s[i] == r.buf[Slot(r, i)]
  {
    seq(Length(r), i requires 0 <= i < Length(r) => r.buf[Slot(r, i)])
  }

  function Store(r: Ring, c: char): Ring
    requires r.head < |r.buf|
  {
    r.(buf := r.buf[r.head := c])
  }

  function AdvanceHead(r: Ring): Ring
    requires |r.buf| > 0
  {
    r.(head := Next(r.head, |r.buf|))
  }

  function AdvanceTail(r: Ring): Ring
    requires |r.buf| > 0
  {
    r.(tail := Next(r.tail, |r.buf|))
  }

  lemma NextWraps(i: nat, size: nat)
    requires i < size
    ensures Next(i, size) == if i + 1 == size then 0 else i + 1
  {
  }

  lemma FullIsFull(r: Ring)
    requires RingOk(r)
    ensures Empty(r) <==> Contents(r) == []
    ensures Full(r) <==> Length(r) == |r.buf| - 1
    ensures Length(r) < |r.buf|
  {
    NextWraps(r.head, |r.buf|);
  }

  /** Storing in the free slot at the head does not touch the contents. */
  lemma StoreKeeps(r: Ring, c: char)
    requires RingOk(r)
    ensures RingOk(Store(r, c)) && Contents(Store(r, c)) == Contents(r)
  {
    assert forall i :: 0 <= i < Length(r) ==> Slot(r, i) != r.head;
  }

  /** Moving the head past a stored character appends it, while there is room. */
  lemma AdvanceHeadAppends(r: Ring)
    requires RingOk(r) && Length(r) < |r.buf| - 1
    ensures RingOk(AdvanceHead(r)) && Contents(AdvanceHead(r)) == Contents(r) + [r.buf[r.head]]
  {
    NextWraps(r.head, |r.buf|);
    var t := AdvanceHead(r);
    assert Slot(r, Length(r)) == r.head;
    assert Length(t) == Length(r) + 1;
  }

  lemma AdvanceTailDrops(r: Ring)
    requires RingOk(r) && !Empty(r)
    ensures RingOk(AdvanceTail(r)) && Contents(r) != []
    ensures Contents(AdvanceTail(r)) == Contents(r)[1..] && Contents(r)[0] == r.buf[r.tail]
  {
    NextWraps(r.tail, |r.buf|);
    var t := AdvanceTail(r);
    assert Slot(r, 0) == r.tail;
    assert forall i: nat :: i < Length(t) ==> Slot(t, i) == Slot(r, i + 1);
  }

  // ----- Receiving

  /** Where uart_async_getc is: outside, about to enable the interrupt, about to read a
      character, or about to move the tail with the character read. */
  datatype RxPoint = RxIdle | RxEnable | RxRead | RxAdvance(c: char)

  /** `stored` is everything the handler put in the ring, `returned` everything that
      uart_async_getc delivered. */
  datatype Rx = Rx(ring: Ring, at: RxPoint, enabled: bool, stored: seq<char>, returned: seq<char>)

  datatype RxEvent = RxInterrupt(c: char) | RxStatement

  /** uart_irq_rx_handler with `c` waiting in the FIFO. */
  function RxHandler(s: Rx, c: char): Rx
    requires s.ring.head < |s.ring.buf|
  {
    if Full(s.ring) then s.(enabled := false)
    else s.(ring := AdvanceHead(Store(s.ring, c)), stored := s.stored + [c])
  }

  /** The next statement of uart_async_getc; outside, a call is made. */
  function RxMain(s: Rx): Rx
    requires s.ring.tail < |s.ring.buf|
  {
    match s.at
    case RxIdle => s.(at := if Empty(s.ring) then RxEnable else RxRead)
    case RxEnable => s.(enabled := true, at := RxIdle)
    case RxRead => s.(at := RxAdvance(s.ring.buf[s.ring.tail]))
    case RxAdvance(c) => s.(ring := AdvanceTail(s.ring), at := RxIdle, returned := s.returned + [c])
  }

  ghost predicate RxOk(s: Rx) {
    && RingOk(s.ring) && s.stored == s.returned + Contents(s.ring)
    && (s.at.RxRead? || s.at.RxAdvance? ==> !Empty(s.ring))
    && (s.at.RxAdvance? ==> s.at.c == s.ring.buf[s.ring.tail])
  }

  ghost predicate RxStep(s: Rx, e: RxEvent, t: Rx) {
    RingOk(s.ring) && t == match e case RxInterrupt(c) => RxHandler(s, c) case RxStatement => RxMain(s)
  }

  lemma ContentsLength(r: Ring)
    requires RingOk(r)
    ensures |Contents(r)| == Length(r)
  {
  }

  lemma RxHandlerKeeps(s: Rx, c: char)
    requires RxOk(s)
    ensures var t := RxHandler(s, c); RxOk(t) && s.stored <= t.stored && t.returned == s.returned
  {
    hide Contents, Length, Next;
    FullIsFull(s.ring);
    if !Full(s.ring) {
      var m := Store(s.ring, c);
      StoreKeeps(s.ring, c);
      ContentsLength(s.ring);
      ContentsLength(m);
      AdvanceHeadAppends(m);
      FullIsFull(AdvanceHead(m));
      assert s.returned + (Contents(s.ring) + [c]) == s.stored + [c];
      SlotOfTail(s.ring, c);
    }
  }

  /** The slot at the tail of a non-empty ring is not the one the producer writes. */
  lemma SlotOfTail(r: Ring, c: char)
    requires RingOk(r)
    ensures !Empty(r) ==> Store(r, c).buf[r.tail] == r.buf[r.tail]
  {
  }

  lemma RxAdvanceKeeps(s: Rx)
    requires RxOk(s) && s.at.RxAdvance?
    ensures var t := RxMain(s); RxOk(t) && t.stored == s.stored && s.returned <= t.returned
  {
    hide Contents, Length, Next;
    AdvanceTailDrops(s.ring);
    var cs := Contents(s.ring);
    assert cs == [cs[0]] + cs[1..];
    assert s.returned + cs == (s.returned + [s.at.c]) + cs[1..];
  }

  lemma RxStepKeeps(s: Rx, e: RxEvent, t: Rx)
    requires RxOk(s) && RxStep(s, e, t)
    ensures RxOk(t) && s.stored <= t.stored && s.returned <= t.returned
  {
    hide Contents, Length, Next;
    match e {
      case RxInterrupt(c) => RxHandlerKeeps(s, c);
      case RxStatement => if s.at.RxAdvance? { RxAdvanceKeeps(s); }
    }
  }

  ghost predicate RxRun(states: seq<Rx>, events: seq<RxEvent>) {
    |states| == |events| + 1 && forall i :: 0 <= i < |events| ==> RxStep(states[i], events[i], states[i + 1])
  }

  /** However interrupts fall between the statements of uart_async_getc, what it has returned is
      a prefix of what the handler stored, and the ring holds the rest in order. */
  lemma {:induction false} ReceivedInOrder(states: seq<Rx>, events: seq<RxEvent>, k: nat)
    requires RxRun(states, events) && k < |states| && RxOk(states[0])
    ensures RxOk(states[k])
    ensures states[k].returned <= states[k].stored
    ensures Contents(states[k].ring) == states[k].stored[|states[k].returned|..]
  {
    if k > 0 {
      ReceivedInOrder(states, events, k - 1);
      assert RxStep(states[k - 1], events[k - 1], states[k]);
      RxStepKeeps(states[k - 1], events[k - 1], states[k]);
    }
  }

  /** The handler stores the character whenever there is room; on a full ring it only disables the
      interrupt, and the character stays with the UART. */
  lemma RxHandlerStores(s: Rx, c: char)
    requires RingOk(s.ring)
    ensures var t := RxHandler(s, c);
      if Length(s.ring) < |s.ring.buf| - 1
      then t.stored == s.stored + [c] && Contents(t.ring) == Contents(s.ring) + [c] && t.enabled == s.enabled
      else t == s.(enabled := false)
  {
    hide Contents, Length, Next;
    FullIsFull(s.ring);
    if !Full(s.ring) {
      StoreKeeps(s.ring, c);
      ContentsLength(s.ring);
      ContentsLength(Store(s.ring, c));
      AdvanceHeadAppends(Store(s.ring, c));
    }
  }

  /** A call of uart_async_getc, uninterrupted: the oldest character, or else the interrupt is
      enabled and nothing else happens. */
  lemma GetcReturns(s: Rx)
    requires RxOk(s) && s.at == RxIdle
    ensures if Contents(s.ring) != []
      then var t := RxMain(RxMain(RxMain(s)));
        t.at == RxIdle && t.returned == s.returned + [Contents(s.ring)[0]] && t.enabled == s.enabled
      else RxMain(RxMain(s)) == s.(enabled := true)
  {
    hide Contents, Length, Next;
    FullIsFull(s.ring);
    if !Empty(s.ring) { AdvanceTailDrops(s.ring); }
  }

  // ----- Sending

  /** Where uart_async_putc is: outside; about to store a character, or to move the head past it;
      `more` is the line feed still to come after a carriage return; about to enable the
      interrupt, because the ring is full or because there is data to send. */
  datatype TxPoint = TxIdle | TxStore(c: char, more: bool) | TxMove(more: bool) | TxEnable

  /** `put` is everything whose storing was completed, `sent` what the handler gave the UART. */
  datatype Tx = Tx(ring: Ring, at: TxPoint, enabled: bool, put: seq<char>, sent: seq<char>)

  /** The handler, a call of uart_async_putc, or the next statement of the call in progress. */
  datatype TxEvent = TxInterrupt | TxCall(c: char) | TxStatement

  /** uart_irq_tx_handler. */
  function TxHandler(s: Tx): Tx
    requires s.ring.tail < |s.ring.buf|
  {
    if Empty(s.ring) then s.(enabled := false)
    else s.(ring := AdvanceTail(s.ring), sent := s.sent + [s.ring.buf[s.ring.tail]])
  }

  /** The test at the start of uart_async_putc. */
  function TxCheck(s: Tx, c: char): Tx
    requires |s.ring.buf| > 0
  {
    s.(at := if Full(s.ring) then TxEnable else TxStore(c, c == CR))
  }

  function TxMain(s: Tx): Tx
    requires s.ring.head < |s.ring.buf|
  {
    match s.at
    case TxIdle => s
    case TxStore(c, more) => s.(ring := Store(s.ring, c), at := TxMove(more))
    case TxMove(more) =>
      s.(ring := AdvanceHead(s.ring), put := s.put + [s.ring.buf[s.ring.head]],
         at := if more then TxStore(LF, false) else TxEnable)
    case TxEnable => s.(enabled := true, at := TxIdle)
  }

  ghost predicate TxStep(s: Tx, e: TxEvent, t: Tx) {
    RingOk(s.ring) &&
    match e
    case TxInterrupt => t == TxHandler(s)
    case TxCall(c) => s.at == TxIdle && t == TxCheck(s, c)
    case TxStatement => s.at != TxIdle && t == TxMain(s)
  }

  ghost predicate TxOk(s: Tx) {
    && RingOk(s.ring) && s.put == s.sent + Contents(s.ring)
    && (s.at == TxIdle && !Empty(s.ring) ==> s.enabled)
  }

  /** The head is about to move onto the tail. */
  ghost predicate Overrun(s: Tx, e: TxEvent) {
    e == TxStatement && s.at.TxMove? && RingOk(s.ring) && Full(s.ring)
  }

  lemma TxHandlerKeeps(s: Tx)
    requires TxOk(s)
    ensures var t := TxHandler(s); TxOk(t) && t.put == s.put && s.sent <= t.sent
  {
    hide Contents, Length, Next;
    FullIsFull(s.ring);
    if !Empty(s.ring) {
      AdvanceTailDrops(s.ring);
      var cs := Contents(s.ring);
      assert cs == [cs[0]] + cs[1..];
    }
  }

  lemma TxMoveKeeps(s: Tx)
    requires TxOk(s) && s.at.TxMove? && !Full(s.ring)
    ensures var t := TxMain(s); TxOk(t) && s.put <= t.put && t.sent == s.sent
  {
    hide Contents, Length, Next;
    FullIsFull(s.ring);
    AdvanceHeadAppends(s.ring);
    assert (s.sent + Contents(s.ring)) + [s.ring.buf[s.ring.head]] == s.sent + (Contents(s.ring) + [s.ring.buf[s.ring.head]]);
  }

  lemma TxMoveOverruns(s: Tx)
    requires TxOk(s) && s.at.TxMove? && Full(s.ring)
    ensures !TxOk(TxMain(s))
  {
    hide Contents, Length, Next;
    NextWraps(s.ring.head, |s.ring.buf|);
    FullIsFull(AdvanceHead(s.ring));
    assert |TxMain(s).put| == |s.put| + 1;
  }

  /** Exactly when a step keeps the order of the characters: unless it overruns the ring. */
  lemma TxStepKeepsExactly(s: Tx, e: TxEvent, t: Tx)
    requires TxOk(s) && TxStep(s, e, t)
    ensures TxOk(t) <==> !Overrun(s, e)
    ensures !Overrun(s, e) ==> s.put <= t.put && s.sent <= t.sent
  {
    hide Contents, Length, Next;
    match e {
      case TxInterrupt => TxHandlerKeeps(s);
      case TxCall(c) =>
      case TxStatement =>
        match s.at {
          case TxStore(c, more) => StoreKeeps(s.ring, c);
          case TxMove(more) => if Full(s.ring) { TxMoveOverruns(s); } else { TxMoveKeeps(s); }
          case _ =>
        }
    }
  }

  ghost predicate TxRun(states: seq<Tx>, events: seq<TxEvent>) {
    |states| == |events| + 1 && forall i :: 0 <= i < |events| ==> TxStep(states[i], events[i], states[i + 1])
  }

  /** However interrupts fall between the statements of uart_async_putc: up to the first overrun,
      what was sent is a prefix of what was put, the ring holds the rest in order, and whenever no
      call is in progress a ring with characters in it has its interrupt enabled. */
  lemma {:induction false} SentInOrder(states: seq<Tx>, events: seq<TxEvent>, k: nat)
    requires TxRun(states, events) && k < |states| && TxOk(states[0])
    requires forall i :: 0 <= i < k ==> !Overrun(states[i], events[i])
    ensures TxOk(states[k])
    ensures states[k].sent <= states[k].put
    ensures Contents(states[k].ring) == states[k].put[|states[k].sent|..]
    ensures states[k].at == TxIdle && Contents(states[k].ring) != [] ==> states[k].enabled
  {
    if k > 0 {
      SentInOrder(states, events, k - 1);
      assert TxStep(states[k - 1], events[k - 1], states[k]);
      TxStepKeepsExactly(states[k - 1], events[k - 1], states[k]);
    }
    FullIsFull(states[k].ring);
  }

  /** Over a whole run the order is kept at every point if and only if the ring is never overrun. */
  lemma SentInOrderExactly(states: seq<Tx>, events: seq<TxEvent>)
    requires TxRun(states, events) && TxOk(states[0])
    ensures (forall k :: 0 <= k < |states| ==> TxOk(states[k])) <==>
            (forall i :: 0 <= i < |events| ==> !Overrun(states[i], events[i]))
  {
    hide TxOk, Overrun, TxStep;
    if forall k :: 0 <= k < |states| ==> TxOk(states[k]) {
      forall i | 0 <= i < |events| ensures !Overrun(states[i], events[i]) {
        assert TxStep(states[i], events[i], states[i + 1]) && TxOk(states[i]) && TxOk(states[i + 1]);
        TxStepKeepsExactly(states[i], events[i], states[i + 1]);
      }
    }
    if forall i :: 0 <= i < |events| ==> !Overrun(states[i], events[i]) {
      forall k | 0 <= k < |states| ensures TxOk(states[k]) { SentInOrder(states, events, k); }
    }
  }

  /** Free slots that the call in progress still needs. */
  function Needed(at: TxPoint): nat {
    match at
    case TxStore(_, more) => if more then 2 else 1
    case TxMove(more) => if more then 2 else 1
    case _ => 0
  }

  ghost predicate Roomy(s: Tx) {
    RingOk(s.ring) && Length(s.ring) + Needed(s.at) < |s.ring.buf|
  }

  /** A carriage return is put only into a full ring, which refuses it, or with two free slots. */
  ghost predicate CallHasRoom(s: Tx, e: TxEvent) {
    e.TxCall? && e.c == CR && RingOk(s.ring) ==> Full(s.ring) || Length(s.ring) + 2 < |s.ring.buf|
  }

  lemma RoomyKeeps(s: Tx, e: TxEvent, t: Tx)
    requires Roomy(s) && TxStep(s, e, t) && CallHasRoom(s, e)
    ensures Roomy(t) && !Overrun(s, e)
  {
    FullIsFull(s.ring);
    NextWraps(s.ring.head, |s.ring.buf|);
    NextWraps(s.ring.tail, |s.ring.buf|);
    hide Next, Contents;
  }

  /** Only a carriage return put with exactly one free slot can overrun the ring: where every call
      has room, the order is kept over the whole run. */
  lemma {:induction false} RoomKeepsOrder(states: seq<Tx>, events: seq<TxEvent>, k: nat)
    requires TxRun(states, events) && k < |states| && TxOk(states[0]) && Roomy(states[0])
    requires forall i :: 0 <= i < |events| ==> CallHasRoom(states[i], events[i])
    ensures TxOk(states[k]) && Roomy(states[k])
  {
    hide TxOk, Roomy, CallHasRoom, Overrun;
    if k > 0 {
      RoomKeepsOrder(states, events, k - 1);
      assert TxStep(states[k - 1], events[k - 1], states[k]) && CallHasRoom(states[k - 1], events[k - 1]);
      RoomyKeeps(states[k - 1], events[k - 1], states[k]);
      TxStepKeepsExactly(states[k - 1], events[k - 1], states[k]);
    }
  }

  /** The events are one call of uart_async_putc with `c`, interrupted anyhow. */
  ghost predicate OneCall(events: seq<TxEvent>, c: char) {
    events != [] && events[0] == TxCall(c) && forall i :: 1 <= i < |events| ==> !events[i].TxCall?
  }

  /** Every way in which the call can be interrupted keeps the order at every point. */
  ghost predicate CallIsSafe(s: Tx, c: char) {
    forall states, events {:trigger TxRun(states, events), OneCall(events, c)} ::
      TxRun(states, events) && OneCall(events, c) && states[0] == s ==>
        forall k :: 0 <= k < |states| ==> TxOk(states[k])
  }

  lemma RoomIsSafe(s: Tx, c: char)
    requires TxOk(s) && s.at == TxIdle && CallHasRoom(s, TxCall(c))
    ensures CallIsSafe(s, c)
  {
    hide TxOk, CallHasRoom;
    IdleIsRoomy(s);
    forall states, events | TxRun(states, events) && OneCall(events, c) && states[0] == s
      ensures forall k :: 0 <= k < |states| ==> TxOk(states[k])
    {
      assert forall i :: 0 <= i < |events| ==> CallHasRoom(states[i], events[i]) by {
        forall i | 0 <= i < |events| ensures CallHasRoom(states[i], events[i]) {
          if i > 0 { OthersHaveRoom(states[i], events[i]); }
        }
      }
      forall k | 0 <= k < |states| ensures TxOk(states[k]) { RoomKeepsOrder(states, events, k); }
    }
  }

  lemma IdleIsRoomy(s: Tx)
    requires TxOk(s) && s.at == TxIdle
    ensures Roomy(s)
  {
    FullIsFull(s.ring);
  }

  lemma OthersHaveRoom(s: Tx, e: TxEvent)
    requires !e.TxCall?
    ensures CallHasRoom(s, e)
  {
  }

  /** The carriage return takes the last slot. */
  lemma CrFillsRing(s: Tx) returns (s1: Tx, s2: Tx, s3: Tx)
    requires TxOk(s) && s.at == TxIdle && !CallHasRoom(s, TxCall(CR))
    ensures TxStep(s, TxCall(CR), s1) && TxStep(s1, TxStatement, s2) && TxStep(s2, TxStatement, s3)
    ensures TxOk(s3) && s3.at == TxStore(LF, false) && Full(s3.ring)
  {
    FullIsFull(s.ring);
    s1 := TxCheck(s, CR);
    s2 := TxMain(s1);
    StoreKeeps(s.ring, CR);
    s3 := TxMain(s2);
    hide Contents, Length, Next;
    FullIsFull(s2.ring);
    AdvanceHeadAppends(s2.ring);
    ContentsLength(s.ring);
    ContentsLength(s2.ring);
    ContentsLength(s3.ring);
    FullIsFull(s3.ring);
    TxStepKeepsExactly(s1, TxStatement, s2);
    TxStepKeepsExactly(s2, TxStatement, s3);
  }

  /** The line feed overruns it. */
  lemma LfOverruns(s3: Tx) returns (s4: Tx, s5: Tx)
    requires TxOk(s3) && s3.at == TxStore(LF, false) && Full(s3.ring)
    ensures TxStep(s3, TxStatement, s4) && TxStep(s4, TxStatement, s5) && !TxOk(s5)
  {
    s4 := TxMain(s3);
    StoreKeeps(s3.ring, LF);
    s5 := TxMain(s4);
    hide Contents, Length, Next;
    TxStepKeepsExactly(s3, TxStatement, s4);
    TxStepKeepsExactly(s4, TxStatement, s5);
  }

  /** A carriage return put with one free slot, and no interrupt until both characters are in. */
  lemma NoRoomIsUnsafe(s: Tx) returns (states: seq<Tx>, events: seq<TxEvent>)
    requires TxOk(s) && s.at == TxIdle && !CallHasRoom(s, TxCall(CR))
    ensures TxRun(states, events) && OneCall(events, CR) && states[0] == s
    ensures !TxOk(states[|events|])
  {
    hide TxOk, CallHasRoom, TxStep;
    var s1, s2, s3 := CrFillsRing(s);
    var s4, s5 := LfOverruns(s3);
    states := [s, s1, s2, s3, s4, s5];
    events := [TxCall(CR), TxStatement, TxStatement, TxStatement, TxStatement];
    FirstStep(states, events);
  }

  lemma FirstStep(states: seq<Tx>, events: seq<TxEvent>)
    requires |states| == 6 && |events| == 5
    requires TxStep(states[0], events[0], states[1]) && TxStep(states[1], events[1], states[2])
    requires TxStep(states[2], events[2], states[3]) && TxStep(states[3], events[3], states[4])
    requires TxStep(states[4], events[4], states[5])
    ensures TxRun(states, events)
  {
  }

  /** Exactly when a carriage return can be put: the order is kept however the call is interrupted
      if and only if the ring is full, which refuses it, or has two free slots. */
  lemma CrCallExactly(s: Tx)
    requires TxOk(s) && s.at == TxIdle
    ensures CallIsSafe(s, CR) <==> CallHasRoom(s, TxCall(CR))
  {
    hide TxOk, CallHasRoom;
    if CallHasRoom(s, TxCall(CR)) {
      RoomIsSafe(s, CR);
    } else {
      var states, events := NoRoomIsUnsafe(s);
    }
  }

  /** What a call of uart_async_putc puts. */
  function Text(c: char, full: bool): seq<char> {
    if full then [] else if c == CR then [CR, LF] else [c]
  }

  /** How far a call with `c` has come, whose caller had put `before`. */
  ghost predicate PutSoFar(s: Tx, before: seq<char>, c: char, full: bool) {
    match s.at
    case TxStore(x, more) =>
      !full && ((s.put == before && x == c && (more <==> c == CR)) || (c == CR && s.put == before + [CR] && x == LF && !more))
    case TxMove(more) =>
      && !full && s.ring.head < |s.ring.buf|
      && ((s.put == before && s.ring.buf[s.ring.head] == c && (more <==> c == CR)) ||
          (c == CR && s.put == before + [CR] && s.ring.buf[s.ring.head] == LF && !more))
    case _ => s.put == before + Text(c, full)
  }

  lemma PutStep(s: Tx, e: TxEvent, t: Tx, before: seq<char>, c: char, full: bool)
    requires TxStep(s, e, t) && !e.TxCall? && PutSoFar(s, before, c, full)
    ensures PutSoFar(t, before, c, full)
  {
    NextWraps(s.ring.head, |s.ring.buf|);
    if e == TxStatement && s.at.TxMove? {
      assert before + [CR] + [LF] == before + [CR, LF];
    }
  }

  lemma {:induction false} PutProgress(states: seq<Tx>, events: seq<TxEvent>, c: char, k: nat)
    requires TxRun(states, events) && OneCall(events, c) && 1 <= k < |states|
    ensures PutSoFar(states[k], states[0].put, c, |states[0].ring.buf| > 0 && Full(states[0].ring))
  {
    assert TxStep(states[k - 1], events[k - 1], states[k]);
    if k == 1 {
      assert states[0].put + [] == states[0].put;
    } else {
      PutProgress(states, events, c, k - 1);
      PutStep(states[k - 1], events[k - 1], states[k], states[0].put, c, |states[0].ring.buf| > 0 && Full(states[0].ring));
    }
  }

  /** However a call of uart_async_putc is interrupted, once it is over it has put its character,
      with a line feed after a carriage return, and on a full ring nothing. */
  lemma CallPutsAll(states: seq<Tx>, events: seq<TxEvent>, c: char, k: nat)
    requires TxRun(states, events) && OneCall(events, c) && 1 <= k < |states| && RingOk(states[0].ring)
    requires states[k].at == TxIdle
    ensures states[k].put == states[0].put + Text(c, Length(states[0].ring) == |states[0].ring.buf| - 1)
  {
    FullIsFull(states[0].ring);
    PutProgress(states, events, c, k);
  }

  // ----- A carriage return with one free slot

  /** uart_async_putc of a carriage return, uninterrupted, on a ring that passed the test. */
  function PutCr(r: Ring): Ring
    requires RingOk(r)
  {
    AdvanceHead(Store(AdvanceHead(Store(r, CR)), LF))
  }

  /** Exactly when both characters arrive: when two slots were free. With one free slot the
      head meets the tail and the whole ring reads as empty. */
  lemma CrNeedsTwoSlots(r: Ring)
    requires RingOk(r) && !Full(r)
    ensures RingOk(PutCr(r))
    ensures Contents(PutCr(r)) == Contents(r) + [CR, LF] <==> Length(r) + 2 < |r.buf|
    ensures Length(r) + 2 == |r.buf| ==> Contents(PutCr(r)) == []
  {
    FullIsFull(r);
    StoreKeeps(r, CR);
    var a := AdvanceHead(Store(r, CR));
    AdvanceHeadAppends(Store(r, CR));
    StoreKeeps(a, LF);
    var b := Store(a, LF);
    if Length(r) + 2 < |r.buf| {
      AdvanceHeadAppends(b);
      assert Contents(r) + [CR, LF] == Contents(r) + [CR] + [LF];
    } else {
      FullIsFull(b);
      FullIsFull(AdvanceHead(b));
      NextWraps(b.head, |b.buf|);
    }
  }

  // ----- The rings of src/uart.c, one call at a time

  class Buffer {
    const data: array<char>
    var head: nat
    var tail: nat
    var enabled: bool      // this direction's bit of the interrupt enable register

    ghost predicate Valid()
      reads this, data
    {
      RingOk(Abs())
    }

    ghost function Abs(): Ring
      reads this, data
    {
      Ring(data[..], head, tail)
    }

    constructor (size: nat)
      requires size >= 2
      ensures Valid() && fresh(data) && data.Length == size && Contents(Abs()) == [] && !enabled
    {
      data := new char[size];
      head, tail, enabled := 0, 0, false;
      new;
      FullIsFull(Abs());
    }

    method IsFull() returns (full: bool)
      requires Valid()
      ensures full == Full(Abs())
    {
      full := (head + 1) % data.Length == tail;
    }

    method Put(c: char)
      requires Valid() && !Full(Abs())
      modifies this`head, data
      ensures Valid() && Contents(Abs()) == old(Contents(Abs())) + [c] && enabled == old(enabled)
    {
      ghost var r := Abs();
      FullIsFull(r);
      StoreKeeps(r, c);
      data[head] := c;
      assert Abs() == Store(r, c);
      AdvanceHeadAppends(Store(r, c));
      head := (head + 1) % data.Length;
      assert Abs() == AdvanceHead(Store(r, c));
    }

    method Take() returns (c: char)
      requires Valid() && !Empty(Abs())
      modifies this`tail
      ensures Valid() && Contents(old(Abs())) == [c] + Contents(Abs()) && enabled == old(enabled)
    {
      ghost var r := Abs();
      AdvanceTailDrops(r);
      c := data[tail];
      tail := (tail + 1) % data.Length;
      assert Abs() == AdvanceTail(r);
    }

    /** uart_irq_rx_handler with `c` in the FIFO; `stored` is whether there was room. */
    method RxInterruptHandler(c: char) returns (stored: bool)
      requires Valid()
      modifies this`head, this`enabled, data
      ensures Valid() && stored == (|old(Contents(Abs()))| < data.Length - 1)
      ensures Contents(Abs()) == if stored then old(Contents(Abs())) + [c] else old(Contents(Abs()))
      ensures enabled == (old(enabled) && stored)
    {
      FullIsFull(Abs());
      var full := IsFull();
      if full {
        enabled := false;
        return false;
      }
      Put(c);
      return true;
    }

    /** uart_async_getc. */
    method AsyncGetc() returns (c: Option<char>)
      requires Valid()
      modifies this`tail, this`enabled
      ensures Valid()
      ensures c == None ==> old(Contents(Abs())) == [] && Contents(Abs()) == [] && enabled
      ensures c.Some? ==> old(Contents(Abs())) == [c.value] + Contents(Abs()) && enabled == old(enabled)
    {
      FullIsFull(Abs());
      if head == tail {
        enabled := true;
        return None;
      }
      var x := Take();
      return Some(x);
    }

    /** uart_irq_tx_handler: the character given to the UART, if any. */
    method TxInterruptHandler() returns (c: Option<char>)
      requires Valid()
      modifies this`tail, this`enabled
      ensures Valid()
      ensures c == None ==> old(Contents(Abs())) == [] && Contents(Abs()) == [] && !enabled
      ensures c.Some? ==> old(Contents(Abs())) == [c.value] + Contents(Abs()) && enabled == old(enabled)
    {
      FullIsFull(Abs());
      if head == tail {
        enabled := false;
        return None;
      }
      var x := Take();
      return Some(x);
    }

    /** The two statements that store a character, without a test for room. */
    method StoreAndMove(c: char)
      requires Valid()
      modifies this`head, data
      ensures Valid() && Abs() == AdvanceHead(Store(old(Abs()), c)) && enabled == old(enabled)
    {
      ghost var r := Abs();
      NextWraps(head, data.Length);
      data[head] := c;
      assert Abs() == Store(r, c);
      head := (head + 1) % data.Length;
    }

    /** uart_async_putc. A carriage return is followed by a line feed; it is lost together with
        the rest of the ring when only one slot was free. */
    method AsyncPutc(c: char) returns (ok: bool)
      requires Valid()
      modifies this`head, this`enabled, data
      ensures Valid() && enabled && ok == (|old(Contents(Abs()))| < data.Length - 1)
      ensures !ok ==> Abs() == old(Abs())
      ensures ok && c != CR ==> Contents(Abs()) == old(Contents(Abs())) + [c]
      ensures ok && c == CR && |old(Contents(Abs()))| < data.Length - 2 ==> Contents(Abs()) == old(Contents(Abs())) + [CR, LF]
      ensures ok && c == CR && |old(Contents(Abs()))| == data.Length - 2 ==> Contents(Abs()) == []
    {
      FullIsFull(Abs());
      var full := IsFull();
      if full {
        enabled := true;
        return false;
      }
      if c == CR {
        CrNeedsTwoSlots(Abs());
        StoreAndMove(CR);
        StoreAndMove(LF);
      } else {
        Put(c);
      }
      enabled := true;
      return true;
    }
  }
}
