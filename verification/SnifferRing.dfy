// The 32-slot ring between the radio's receive handler and the main loop of the sniffer.  Both
// sides move in small steps, one memory cell at a time, and may interleave anywhere.
module SnifferRing {

  const SIZE: nat := 32        // FRAME_QUEUE_SIZE
  const DATA: nat := 128       // MAX_FRAME_LEN
  const CELLS: nat := 132      // data, len, channel, rssi, timestamp

  // What one slot is meant to hold; a well-sized payload has 1 to 127 bytes.
  datatype Frame = Frame(payload: seq<int>, channel: int, rssi: int, time: int)
  {
    predicate WellSized() { 0 < |payload| <= DATA - 1 }

    // The handler's writes in order: first the four fields after the data, then the data.
    function Cell(k: nat): nat { if k < 4 then DATA + k else k - 4 }

    function Val(k: nat): int
      requires k < 4 + |payload|
    {
      if k == 0 then |payload| else if k == 1 then channel else if k == 2 then rssi else if k == 3 then time
      else payload[k - 4]
    }

    function Writes(): nat { 4 + |payload| }
  }

  type Slot = s: seq<int> | |s| == CELLS witness seq(CELLS, _ => 0)

  // What log_frame reads out of its copy.
  function Read(s: Slot): Frame {
    var len := s[DATA];
    Frame(if 0 <= len <= DATA then s[..len] else s[..DATA], s[DATA + 1], s[DATA + 2], s[DATA + 3])
  }

  datatype Handler = Quiet | Writing(frame: Frame, done: nat)

  datatype Loop = Idle | Copying(part: seq<int>) | Copied(local: Slot)

  datatype State = State(
    slots: seq<Slot>, head: nat, tail: nat,
    counter: nat,              // g_dropped_frames
    handler: Handler, main: Loop,
    accepted: seq<Frame>,      // published by the handler
    logged: seq<Frame>,
    pending: seq<Frame>,       // accepted and not yet taken out
    received: nat,             // well-sized frames seen by the handler
    drops: nat, dropsAtReset: nat)

  function Next(i: nat): nat { if i + 1 == SIZE then 0 else i + 1 }

  // Slot of the i-th pending frame.
  function Nth(tail: nat, i: nat): nat { if tail + i < SIZE then tail + i else tail + i - SIZE }

  function Count(s: State): int {
    if s.head >= s.tail then s.head - s.tail else s.head + SIZE - s.tail
  }

  predicate Full(s: State) { Next(s.head) == s.tail }

  function Start(slots: seq<Slot>): State {
    State(slots, 0, 0, 0, Quiet, Idle, [], [], [], 0, 0, 0)
  }

  datatype Event =
    | Receive(frame: Frame)    // the handler looks at a frame's length and at the queue
    | Write                    // one store of the handler into its slot
    | Publish                  // the handler advances head and returns
    | Check                    // the loop finds the queue non-empty
    | Copy                     // one cell of the loop's memcpy
    | Advance                  // the loop advances tail
    | Log                      // log_frame
    | ResetStats

  predicate Enabled(s: State, e: Event) {
    match e
    case Receive(_) => s.handler.Quiet?
    case Write => s.handler.Writing? && s.handler.done < s.handler.frame.Writes() && s.head < |s.slots|
                  && s.handler.frame.Cell(s.handler.done) < CELLS
    case Publish => s.handler.Writing? && s.handler.done == s.handler.frame.Writes()
    case Check => s.main.Idle?
    case Copy => s.main.Copying? && |s.main.part| < CELLS && s.tail < |s.slots|
    case Advance => s.main.Copying? && |s.main.part| == CELLS
    case Log => s.main.Copied?
    case ResetStats => s.main.Idle?
  }

  function Step(s: State, e: Event): State
    requires Enabled(s, e)
  {
    match e
    case Receive(f) =>
      if !f.WellSized() then s
      else if Full(s) then
        s.(counter := (s.counter + 1) % 0x1_0000_0000, received := s.received + 1, drops := s.drops + 1)
      else s.(handler := Writing(f, 0), received := s.received + 1)
    case Write =>
      var f, k := s.handler.frame, s.handler.done;
      s.(slots := s.slots[s.head := s.slots[s.head][f.Cell(k) := f.Val(k)]], handler := Writing(f, k + 1))
    case Publish =>
      var f := s.handler.frame;
      s.(head := Next(s.head), handler := Quiet, accepted := s.accepted + [f], pending := s.pending + [f])
    case Check => if s.head == s.tail then s else s.(main := Copying([]))
    case Copy => s.(main := Copying(s.main.part + [s.slots[s.tail][|s.main.part|]]))
    case Advance =>
      s.(tail := Next(s.tail), main := Copied(s.main.part), pending := if s.pending == [] then [] else s.pending[1..])
    case Log => s.(main := Idle, logged := s.logged + [Read(s.main.local)])
    case ResetStats => s.(counter := 0, dropsAtReset := s.drops)
  }

  // ---------------------------------------------------------------- invariant

  // The first k writes of f are in the slot.
  ghost predicate Written(slot: Slot, f: Frame, k: nat)
    requires k <= f.Writes() <= 4 + DATA
  {
    forall j :: 0 <= j < k ==> slot[f.Cell(j)] == f.Val(j)
  }

  ghost predicate Holds(slot: Slot, f: Frame) {
    f.WellSized() && Written(slot, f, f.Writes())
  }

  ghost predicate Shape(s: State) {
    && |s.slots| == SIZE && s.head < SIZE && s.tail < SIZE
    && |s.pending| == Count(s)
    && (s.handler.Writing? ==> s.handler.frame.WellSized() && s.handler.done <= s.handler.frame.Writes() && !Full(s))
    && (s.main.Copying? ==> s.head != s.tail && |s.main.part| <= CELLS)
  }

  ghost predicate Stored(s: State)
    requires Shape(s)
  {
    && (forall i :: 0 <= i < |s.pending| ==> Holds(s.slots[Nth(s.tail, i)], s.pending[i]))
    && (s.handler.Writing? ==> Written(s.slots[s.head], s.handler.frame, s.handler.done))
    && (s.main.Copying? ==> forall c :: 0 <= c < |s.main.part| ==> s.main.part[c] == s.slots[s.tail][c])
  }

  function InFlight(s: State): seq<Frame> {
    if s.main.Copied? then [Read(s.main.local)] else []
  }

  ghost predicate Books(s: State) {
    && s.accepted == s.logged + InFlight(s) + s.pending
    && s.received == |s.accepted| + s.drops + (if s.handler.Writing? then 1 else 0)
    && s.drops >= s.dropsAtReset && s.counter == (s.drops - s.dropsAtReset) % 0x1_0000_0000
  }

  ghost predicate Inv(s: State) {
    Shape(s) && Stored(s) && Books(s)
  }

  // A slot with all of a frame's writes in it reads back as the frame.
  lemma {:induction false} HeldReadsBack(slot: Slot, f: Frame)
    requires Holds(slot, f)
    ensures Read(slot) == f
  {
    assert slot[f.Cell(0)] == f.Val(0) && slot[f.Cell(1)] == f.Val(1) && slot[f.Cell(2)] == f.Val(2)
           && slot[f.Cell(3)] == f.Val(3);
    forall i | 0 <= i < |f.payload| ensures slot[i] == f.payload[i] {
      assert slot[f.Cell(i + 4)] == f.Val(i + 4);
    }
  }

  // The handler's slot is none of the pending ones, so not the one the loop copies.
  lemma {:induction false} HandlerSlotIsFree(s: State, i: nat)
    requires Shape(s) && i < |s.pending|
    ensures Nth(s.tail, i) != s.head && Nth(s.tail, 0) == s.tail
  {
  }

  lemma {:induction false} WriteKeeps(s: State)
    requires Inv(s) && Enabled(s, Write)
    ensures Inv(Step(s, Write))
  {
    hide Holds, Read;
    var t := Step(s, Write);
    var f, k := s.handler.frame, s.handler.done;
    forall i | 0 <= i < |t.pending| ensures Holds(t.slots[Nth(t.tail, i)], t.pending[i]) {
      HandlerSlotIsFree(s, i);
    }
    if s.main.Copying? { HandlerSlotIsFree(s, 0); }
    assert Written(t.slots[t.head], f, k + 1);
  }

  lemma {:induction false} PublishKeeps(s: State)
    requires Inv(s) && Enabled(s, Publish)
    ensures Inv(Step(s, Publish))
  {
    hide Written, Read;
    var t := Step(s, Publish);
    assert |t.pending| == Count(t);
    forall i | 0 <= i < |t.pending| ensures Holds(t.slots[Nth(t.tail, i)], t.pending[i]) {
      if i < |s.pending| { assert Holds(s.slots[Nth(s.tail, i)], s.pending[i]); }
    }
    assert s.logged + InFlight(s) + s.pending + [s.handler.frame]
        == s.logged + InFlight(s) + (s.pending + [s.handler.frame]);
  }

  // What the loop has copied when it advances is the oldest pending frame.
  lemma {:induction false} CopyIsOldest(s: State)
    requires Inv(s) && Enabled(s, Advance)
    ensures s.pending != [] && Read(s.main.part) == s.pending[0]
  {
    hide Written, Read;
    assert Holds(s.slots[Nth(s.tail, 0)], s.pending[0]);
    HeldReadsBack(s.slots[s.tail], s.pending[0]);
    assert s.main.part == s.slots[s.tail];
  }

  lemma {:induction false} AdvanceKeeps(s: State)
    requires Inv(s) && Enabled(s, Advance)
    ensures Inv(Step(s, Advance))
  {
    var t := Step(s, Advance);
    CopyIsOldest(s);
    assert Shape(t) && Stored(t) by { AdvanceStored(s); }
    hide Shape, Stored, Read;
    assert s.pending == [s.pending[0]] + t.pending;
    assert s.logged + [] + s.pending == s.logged + [s.pending[0]] + t.pending;
  }

  lemma {:induction false} AdvanceStored(s: State)
    requires Shape(s) && Stored(s) && Enabled(s, Advance) && s.pending != []
    ensures Shape(Step(s, Advance)) && Stored(Step(s, Advance))
  {
    hide Holds, Read;
    var t := Step(s, Advance);
    assert |t.pending| == Count(t);
    forall i | 0 <= i < |t.pending| ensures Holds(t.slots[Nth(t.tail, i)], t.pending[i]) {
      assert Holds(s.slots[Nth(s.tail, i + 1)], s.pending[i + 1]);
      assert Nth(t.tail, i) == Nth(s.tail, i + 1);
    }
  }

  lemma {:induction false} StepKeeps(s: State, e: Event)
    requires Inv(s) && Enabled(s, e)
    ensures Inv(Step(s, e))
  {
    hide Inv, Step;
    match e
    case Write => WriteKeeps(s);
    case Publish => PublishKeeps(s);
    case Advance => AdvanceKeeps(s);
    case Receive(f) => ReceiveKeeps(s, f);
    case _ => OtherKeeps(s, e);
  }

  lemma {:induction false} ReceiveKeeps(s: State, f: Frame)
    requires Inv(s) && Enabled(s, Receive(f))
    ensures Inv(Step(s, Receive(f)))
  {
    hide Holds, Read;
    var t := Step(s, Receive(f));
    assert t.slots == s.slots && t.tail == s.tail && t.pending == s.pending;
    forall i | 0 <= i < |t.pending| ensures Holds(t.slots[Nth(t.tail, i)], t.pending[i]) {}
  }

  lemma {:induction false} OtherKeeps(s: State, e: Event)
    requires Inv(s) && Enabled(s, e) && !e.Write? && !e.Publish? && !e.Advance? && !e.Receive?
    ensures Inv(Step(s, e))
  {
    hide Holds, Read;
    var t := Step(s, e);
    assert t.slots == s.slots && t.tail == s.tail && t.pending == s.pending;
    forall i | 0 <= i < |t.pending| ensures Holds(t.slots[Nth(t.tail, i)], t.pending[i]) {}
  }

  // ---------------------------------------------------------------- runs

  predicate Possible(s: State, events: seq<Event>)
    decreases |events|
  {
    events == [] || (Enabled(s, events[0]) && Possible(Step(s, events[0]), events[1..]))
  }

  function Run(s: State, events: seq<Event>): State
    requires Possible(s, events)
    decreases |events|
  {
    if events == [] then s else Run(Step(s, events[0]), events[1..])
  }

  lemma {:induction false} RunKeeps(s: State, events: seq<Event>)
    requires Inv(s) && Possible(s, events)
    ensures Inv(Run(s, events))
    decreases |events|
  {
    hide Inv, Step, Enabled;
    if events != [] {
      StepKeeps(s, events[0]);
      RunKeeps(Step(s, events[0]), events[1..]);
    }
  }

  // Whatever the interleaving: the frames logged are the accepted ones in order, all but the at
  // most 31 still queued and the one between copy and log; no well-sized frame goes uncounted;
  // and the handler is never in the slot that the loop is copying.
  lemma {:induction false} RingIsFifo(slots: seq<Slot>, events: seq<Event>)
    requires |slots| == SIZE && Possible(Start(slots), events)
    ensures
      var s := Run(Start(slots), events);
      && s.accepted == s.logged + InFlight(s) + s.pending && |s.pending| <= 31
      && s.received == |s.accepted| + s.drops + (if s.handler.Writing? then 1 else 0)
      && s.counter == (s.drops - s.dropsAtReset) % 0x1_0000_0000
      && (s.main.Copying? && s.handler.Writing? ==> s.head != s.tail)
  {
    assert Inv(Start(slots));
    RunKeeps(Start(slots), events);
    hide Run, Possible;
  }

  // A frame of 1 to 127 bytes is dropped exactly when 31 frames wait; any other length is ignored.
  lemma {:induction false} DroppedIffFull(s: State, f: Frame)
    requires Inv(s) && s.handler.Quiet?
    ensures
      var t := Step(s, Receive(f));
      if |f.payload| == 0 || |f.payload| > 127 then t == s
      else if |s.pending| == 31 then t.drops == s.drops + 1 && t.handler.Quiet?
      else t.drops == s.drops && t.handler == Writing(f, 0)
  {
    hide Stored, Books;
  }

  // Neither side is ever stuck in the middle of its work.
  lemma {:induction false} NeverStuck(s: State)
    requires Inv(s)
    ensures s.handler.Writing? ==> Enabled(s, Write) || Enabled(s, Publish)
    ensures s.main.Copying? ==> Enabled(s, Copy) || Enabled(s, Advance)
  {
    hide Stored, Books;
  }

  // ---------------------------------------------------------------- the globals of the sniffer

  class Sniffer {
    const queue: array<Slot>   // g_frame_queue
    var head: nat              // g_queue_head
    var tail: nat              // g_queue_tail
    var dropped: nat           // g_dropped_frames
    var handler: Handler
    var main: Loop
    ghost var run: State

    ghost predicate Valid()
      reads this, queue
    {
      && Inv(run) && run.slots == queue[..] && run.head == head && run.tail == tail && run.counter == dropped
      && run.handler == handler && run.main == main
    }

    constructor ()
      ensures Valid() && fresh(queue) && exists slots :: |slots| == SIZE && run == Start(slots)
    {
      var cells: Slot := seq(CELLS, _ => 0);
      queue := new Slot[SIZE](_ => cells);
      head, tail, dropped, handler, main := 0, 0, 0, Quiet, Idle;
      new;
      run := Start(queue[..]);
      assert Inv(run);
    }

    // The handler's decision (esp_ieee802154_receive_done up to the copy); frame[0] is the length.
    method ReceiveDone(frame: Frame)
      requires Valid() && handler.Quiet?
      modifies this
      ensures Valid() && run == Step(old(run), Receive(frame))
    {
      StepKeeps(run, Receive(frame));
      hide Inv;
      run := Step(run, Receive(frame));
      if |frame.payload| == 0 || |frame.payload| > DATA - 1 { return; }
      var next := if head + 1 == SIZE then 0 else head + 1;
      if next == tail {
        dropped := (dropped + 1) % 0x1_0000_0000;
        return;
      }
      handler := Writing(frame, 0);
    }

    // One store into the slot at head.
    method StoreCell()
      requires Valid() && Enabled(run, Write)
      modifies this, queue
      ensures Valid() && run == Step(old(run), Write)
    {
      StepKeeps(run, Write);
      hide Inv;
      run := Step(run, Write);
      var f, k := handler.frame, handler.done;
      queue[head] := queue[head][f.Cell(k) := f.Val(k)];
      handler := Writing(f, k + 1);
    }

    method AdvanceHead()
      requires Valid() && Enabled(run, Publish)
      modifies this
      ensures Valid() && run == Step(old(run), Publish)
    {
      StepKeeps(run, Publish);
      hide Inv;
      run := Step(run, Publish);
      head := if head + 1 == SIZE then 0 else head + 1;
      handler := Quiet;
    }

    // The head of loop's while.
    method CheckQueue() returns (busy: bool)
      requires Valid() && main.Idle?
      modifies this
      ensures Valid() && run == Step(old(run), Check)
      ensures busy <==> old(run).pending != []
    {
      StepKeeps(run, Check);
      assert run.pending == [] <==> head == tail;
      hide Inv;
      run := Step(run, Check);
      busy := head != tail;
      if busy { main := Copying([]); }
    }

    // One cell of the memcpy into the local frame.
    method CopyCell()
      requires Valid() && Enabled(run, Copy)
      modifies this
      ensures Valid() && run == Step(old(run), Copy)
    {
      StepKeeps(run, Copy);
      hide Inv;
      run := Step(run, Copy);
      main := Copying(main.part + [queue[tail][|main.part|]]);
    }

    method AdvanceTail()
      requires Valid() && Enabled(run, Advance)
      modifies this
      ensures Valid() && run == Step(old(run), Advance)
    {
      StepKeeps(run, Advance);
      hide Inv;
      run := Step(run, Advance);
      main := Copied(main.part);
      tail := if tail + 1 == SIZE then 0 else tail + 1;
    }

    // log_frame gets the oldest accepted frame that has not been logged.
    method LogFrame() returns (frame: Frame)
      requires Valid() && main.Copied?
      modifies this
      ensures Valid() && run == Step(old(run), Log)
      ensures |old(run).logged| < |run.accepted| && frame == run.accepted[|old(run).logged|]
    {
      StepKeeps(run, Log);
      hide Shape, Stored;
      frame := Read(main.local);
      run := Step(run, Log);
      main := Idle;
    }

    method ResetStatistics()
      requires Valid() && main.Idle?
      modifies this
      ensures Valid() && run == Step(old(run), ResetStats)
    {
      StepKeeps(run, ResetStats);
      hide Inv;
      run := Step(run, ResetStats);
      dropped := 0;
    }
  }
}
