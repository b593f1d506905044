/**
  The pipe of `crates/rustlet-client/src/body.rs`: a blocking writer, a
  channel of eight slots and the reader that sends what comes out of it, as a
  state machine over their interleaved steps.

  A call of the writer is cut at its blocking sends, the only places where the
  reader's steps can come between: it leaves the writer `Sending`, and the
  send's own step, completed or refused, says how the call goes on.
*/
module Body {
  import opened Common

  const CHUNK: nat := 64 * 1024
  const IN_FLIGHT: nat := 8

  /** What crosses the channel. */
  datatype Piece = Data(bytes: Bytes) | Failed | End

  /** How a writer went away. */
  datatype Exit = Finished | Aborted | Dropped | Broken

  /** What the call that is sending does once the piece is in the channel. */
  datatype Then = Resume | ThenEnd | Leave(exit: Exit)

  datatype Writer =
    | Idle(buf: Bytes)
    | Sending(piece: Piece, next: Then)
    | Gone(exit: Exit)

  /** What the request's body hands to the connection. */
  datatype Item = Chunk(bytes: Bytes) | Error(kind: Kind)
  datatype Kind = WriterFailed | UnexpectedEof

  /** `Spent`: the error has been handed over, and the next poll ends the body. */
  datatype Reader = Receiving | Spent | Ended | HungUp

  /** `accepted` is what `write` has taken; `refused` whether any call failed with `BrokenPipe`. */
  datatype State = State(
    writer: Writer, queue: seq<Piece>, reader: Reader, items: seq<Item>, accepted: Bytes, refused: bool)

  datatype Step =
    | Write(data: Bytes)
    | Flush
    | Finish
    | Abort
    | Drop
    | SendCompletes
    | SendRefused
    | Poll
    | HangUp

  const Start: State := State(Idle([]), [], Receiving, [], [], false)

  // ------------------------------------------------------------------ steps

  /** The state after a step, or nothing where the step cannot happen. */
  function After(s: State, step: Step): Option<State> {
    match step
    case Write(data) => if s.writer.Idle? then Some(Written(s, s.writer.buf, data)) else None
    case Flush => if s.writer.Idle? then Some(s.(writer := Buffered(s.writer.buf, Resume))) else None
    case Finish => if s.writer.Idle? then Some(s.(writer := Buffered(s.writer.buf, ThenEnd))) else None
    case Abort => if s.writer.Idle? then Some(s.(writer := Sending(Failed, Leave(Aborted)))) else None
    case Drop => if s.writer.Idle? then Some(s.(writer := Gone(Dropped))) else None
    case SendCompletes =>
      if s.writer.Sending? && s.reader.Receiving? && |s.queue| < IN_FLIGHT
      then Some(s.(queue := s.queue + [s.writer.piece], writer := Sent(s.writer.next)))
      else None
    case SendRefused =>
      if s.writer.Sending? && !s.reader.Receiving?
      then Some(s.(writer := Refused(s.writer.next), refused := true))
      else None
    case Poll => Polled(s)
    case HangUp => if s.reader.Receiving? then Some(s.(reader := HungUp, queue := [])) else None
  }

  /** `write`: as much as the buffer has room for; a full buffer is sent. */
  function Written(s: State, buf: Bytes, data: Bytes): State {
    var room := if |buf| < CHUNK then CHUNK - |buf| else 0;
    var n := if |data| < room then |data| else room;
    var full := buf + data[..n];
    s.(accepted := s.accepted + data[..n], writer := if |full| == CHUNK then Buffered(full, Resume) else Idle(full))
  }

  /** `send_buffered`, and the calls that start with it: nothing is sent for an empty buffer. */
  function Buffered(buf: Bytes, next: Then): Writer {
    if buf != [] then Sending(Data(buf), next) else Sent(next)
  }

  function Sent(next: Then): Writer {
    match next
    case Resume => Idle([])
    case ThenEnd => Sending(End, Leave(Finished))
    case Leave(exit) => Gone(exit)
  }

  /** A refused send fails the call; only `abort` ignores it. */
  function Refused(next: Then): Writer {
    match next
    case Resume => Idle([])
    case ThenEnd => Gone(Broken)
    case Leave(exit) => Gone(if exit == Aborted then Aborted else Broken)
  }

  /** One poll of the body; it waits where there is nothing to receive. */
  function Polled(s: State): Option<State> {
    match s.reader
    case Receiving =>
      if s.queue != [] then Some(Received(s, s.queue[0], s.queue[1..]))
      else if s.writer.Gone? then Some(s.(items := s.items + [Error(UnexpectedEof)], reader := Spent))
      else None
    case Spent => Some(s.(reader := Ended))
    case Ended => None
    case HungUp => None
  }

  /** The last piece closes the channel: whatever is queued behind it goes. */
  function Received(s: State, piece: Piece, rest: seq<Piece>): State {
    match piece
    case Data(bytes) => s.(queue := rest, items := s.items + [Chunk(bytes)])
    case Failed => s.(queue := [], items := s.items + [Error(WriterFailed)], reader := Spent)
    case End => s.(queue := [], reader := Ended)
  }

  ghost predicate Next(s: State, t: State) { exists step :: After(s, step) == Some(t) }

  /** A run: the states writer, channel and reader go through, from the start, in any interleaving. */
  ghost predicate Run(states: seq<State>) {
    && states != [] && states[0] == Start
    && forall i :: 0 <= i < |states| - 1 ==> Next(states[i], states[i + 1])
  }

  function Last(states: seq<State>): State
    requires states != []
  {
    states[|states| - 1]
  }

  // -------------------------------------------------------------- invariant

  function Payload(pieces: seq<Piece>): Bytes {
    if pieces == [] then []
    else Payload(pieces[..|pieces| - 1]) + Load(pieces[|pieces| - 1])
  }

  function Load(piece: Piece): Bytes { if piece.Data? then piece.bytes else [] }

  function Delivered(items: seq<Item>): Bytes {
    if items == [] then []
    else Delivered(items[..|items| - 1]) + Carried(items[|items| - 1])
  }

  function Carried(item: Item): Bytes { if item.Chunk? then item.bytes else [] }

  /** The bytes the writer still has in hand. */
  function Held(writer: Writer): Bytes {
    match writer
    case Idle(buf) => buf
    case Sending(piece, _) => Load(piece)
    case Gone(_) => []
  }

  predicate ChunkSized(bytes: Bytes) { 1 <= |bytes| <= CHUNK }

  predicate OnlyChunks(items: seq<Item>) {
    forall i :: 0 <= i < |items| ==> items[i].Chunk? && ChunkSized(items[i].bytes)
  }

  predicate OnlyData(queue: seq<Piece>) {
    forall i :: 0 <= i < |queue| ==> queue[i].Data? && ChunkSized(queue[i].bytes)
  }

  /** The channel's last piece is its only one that is not data, and its writer is then gone. */
  predicate QueueOf(queue: seq<Piece>, writer: Writer) {
    && |queue| <= IN_FLIGHT
    && match writer
       case Idle(_) => OnlyData(queue)
       case Sending(_, _) => OnlyData(queue)
       case Gone(Finished) => ClosedBy(queue, End)
       case Gone(Aborted) => ClosedBy(queue, Failed)
       case Gone(Dropped) => OnlyData(queue)
       case Gone(Broken) => false
  }

  predicate ClosedBy(queue: seq<Piece>, last: Piece) {
    && queue != [] && queue[|queue| - 1] == last
    && forall i :: 0 <= i < |queue| - 1 ==> queue[i].Data? && ChunkSized(queue[i].bytes)
  }

  predicate WriterOk(writer: Writer) {
    match writer
    case Idle(buf) => |buf| < CHUNK
    case Sending(Data(bytes), next) => ChunkSized(bytes) && !next.Leave?
    case Sending(End, next) => next == Leave(Finished)
    case Sending(Failed, next) => next == Leave(Aborted)
    case Gone(_) => true
  }

  /** Whether the writer gave up on bytes it had accepted. */
  predicate GivesUp(writer: Writer) {
    || (writer.Sending? && writer.piece.Failed?)
    || (writer.Gone? && writer.exit != Finished)
  }

  /** Nothing is lost on the way, except what an abandoned writer still held. */
  predicate Conserved(s: State) {
    var out := Delivered(s.items) + Payload(s.queue);
    if GivesUp(s.writer) then out <= s.accepted else out + Held(s.writer) == s.accepted
  }

  predicate Valid(s: State) {
    && WriterOk(s.writer)
    && match s.reader
       case Receiving => OnlyChunks(s.items) && QueueOf(s.queue, s.writer) && Conserved(s) && !s.refused
       case HungUp => OnlyChunks(s.items) && s.queue == [] && Delivered(s.items) <= s.accepted
       case Spent => s.queue == [] && FailedBody(s)
       case Ended => s.queue == [] && (FailedBody(s) || WholeBody(s))
  }

  /** What the connection has sent: every byte that was accepted, from a writer that was finished. */
  predicate WholeBody(s: State) {
    OnlyChunks(s.items) && Delivered(s.items) == s.accepted && s.writer == Gone(Finished) && !s.refused
  }

  /** What the connection has sent: a prefix of them and one error, the last item. */
  predicate FailedBody(s: State) {
    && s.items != []
    && OnlyChunks(s.items[..|s.items| - 1])
    && Delivered(s.items[..|s.items| - 1]) <= s.accepted
    && match s.items[|s.items| - 1]
       case Error(WriterFailed) => s.writer == Gone(Aborted)
       case Error(UnexpectedEof) => s.writer == Gone(Dropped)
       case Chunk(_) => false
  }

  lemma {:induction false} PayloadFront(queue: seq<Piece>)
    requires queue != []
    ensures Payload(queue) == Load(queue[0]) + Payload(queue[1..])
  {
    var front, last, rest := queue[..|queue| - 1], queue[|queue| - 1], queue[1..];
    if front == [] {
      assert rest == [] && Payload(front) == [];
    } else {
      PayloadFront(front);
      assert rest == front[1..] + [last] && front[0] == queue[0];
      PayloadBack(front[1..], last);
      Regroup(Load(queue[0]), Payload(front[1..]), Load(last));
    }
  }

  lemma PayloadBack(queue: seq<Piece>, piece: Piece)
    ensures Payload(queue + [piece]) == Payload(queue) + Load(piece)
  {
    assert (queue + [piece])[..|queue|] == queue;
  }

  lemma DeliveredBack(items: seq<Item>, item: Item)
    ensures Delivered(items + [item]) == Delivered(items) + Carried(item)
    ensures (items + [item])[..|items|] == items
  {
    assert (items + [item])[..|items|] == items;
  }

  // --------------------------------------------------- every step keeps it

  lemma WriteKeeps(s: State, data: Bytes)
    requires Valid(s) && s.writer.Idle?
    ensures Valid(Written(s, s.writer.buf, data))
  {
  }

  lemma SendKeeps(s: State)
    requires Valid(s) && After(s, SendCompletes).Some?
    ensures Valid(After(s, SendCompletes).value)
  {
    PayloadBack(s.queue, s.writer.piece);
    Regroup(Delivered(s.items), Payload(s.queue), Load(s.writer.piece));
    QueueGrows(s.queue, s.writer);
  }

  lemma QueueGrows(queue: seq<Piece>, writer: Writer)
    requires writer.Sending? && WriterOk(writer) && |queue| < IN_FLIGHT && QueueOf(queue, writer)
    ensures QueueOf(queue + [writer.piece], Sent(writer.next)) && WriterOk(Sent(writer.next))
  {
  }

  lemma PollKeeps(s: State)
    requires Valid(s) && Polled(s).Some?
    ensures Valid(Polled(s).value)
  {
    if s.reader.Receiving? && s.queue != [] {
      ReceiveKeeps(s);
    } else if s.reader.Receiving? {
      DeliveredBack(s.items, Error(UnexpectedEof));
    }
  }

  lemma ReceiveKeeps(s: State)
    requires Valid(s) && s.reader.Receiving? && s.queue != []
    ensures Valid(Received(s, s.queue[0], s.queue[1..]))
  {
    var piece := s.queue[0];
    PayloadFront(s.queue);
    if piece.Data? {
      DataKeeps(s, piece.bytes, s.queue[1..]);
    } else {
      LastKeeps(s, piece);
    }
  }

  lemma DataKeeps(s: State, bytes: Bytes, rest: seq<Piece>)
    requires Valid(s) && s.reader.Receiving? && s.queue == [Data(bytes)] + rest && Payload(s.queue) == bytes + Payload(rest)
    ensures Valid(Received(s, Data(bytes), rest))
  {
    DataConserved(s, bytes, rest);
    QueueShrinks(s.queue, s.writer);
    assert s.queue[1..] == rest;
  }

  lemma DataConserved(s: State, bytes: Bytes, rest: seq<Piece>)
    requires Conserved(s) && Payload(s.queue) == bytes + Payload(rest)
    ensures Conserved(Received(s, Data(bytes), rest))
  {
    DeliveredBack(s.items, Chunk(bytes));
    Regroup(Delivered(s.items), bytes, Payload(rest));
  }

  lemma QueueShrinks(queue: seq<Piece>, writer: Writer)
    requires queue != [] && queue[0].Data? && QueueOf(queue, writer)
    ensures QueueOf(queue[1..], writer) && ChunkSized(queue[0].bytes)
  {
  }

  lemma LastKeeps(s: State, piece: Piece)
    requires Valid(s) && s.reader.Receiving? && s.queue != [] && s.queue[0] == piece && !piece.Data?
    ensures Valid(Received(s, piece, s.queue[1..]))
  {
    LastAlone(s.queue, s.writer);
    assert Payload(s.queue) == [];
    DeliveredBack(s.items, Error(WriterFailed));
  }

  /** Only the last piece is not data, so one in front is alone. */
  lemma LastAlone(queue: seq<Piece>, writer: Writer)
    requires queue != [] && !queue[0].Data? && QueueOf(queue, writer)
    ensures queue == [queue[0]] && writer.Gone? && Payload(queue) == []
    ensures writer.exit == if queue[0].End? then Finished else Aborted
  {
    assert Payload(queue[..|queue| - 1]) == [];
  }

  lemma StepKeeps(s: State, step: Step)
    requires Valid(s) && After(s, step).Some?
    ensures Valid(After(s, step).value)
  {
    match step
    case Write(data) => WriteKeeps(s, data);
    case SendCompletes => SendKeeps(s);
    case Poll => PollKeeps(s);
    case SendRefused =>
    case HangUp => HangUpKeeps(s);
    case _ => CallKeeps(s, step);
  }

  lemma CallKeeps(s: State, step: Step)
    requires Valid(s) && s.writer.Idle? && (step.Flush? || step.Finish? || step.Abort? || step.Drop?)
    ensures Valid(After(s, step).value)
  {
    assert s.writer.buf != [] ==> ChunkSized(s.writer.buf);
  }

  lemma HangUpKeeps(s: State)
    requires Valid(s) && s.reader.Receiving?
    ensures Valid(After(s, HangUp).value)
  {
    PrefixOfAll(Delivered(s.items), Payload(s.queue), Held(s.writer), s.accepted);
  }

  lemma {:induction false} RunValid(states: seq<State>)
    requires Run(states)
    ensures Valid(Last(states))
  {
    if |states| > 1 {
      var front := states[..|states| - 1];
      assert forall i :: 0 <= i < |front| ==> front[i] == states[i];
      RunValid(front);
      assert Next(Last(front), Last(states));
      var step :| After(Last(front), step) == Some(Last(states));
      StepKeeps(Last(front), step);
    }
  }

  // --------------------------------------------------------- every run, then

  predicate Clean(items: seq<Item>) { forall i :: 0 <= i < |items| ==> items[i].Chunk? }

  lemma Verdict(s: State)
    requires Valid(s)
    ensures s.reader.Ended? ==> if Clean(s.items) then WholeBody(s) else FailedBody(s)
    ensures s.reader.Spent? ==> FailedBody(s)
  {
    if s.reader.Ended? && FailedBody(s) {
      assert s.items[|s.items| - 1].Error?;
    }
  }

  /**
    A body that ends without an error delivered every byte that was accepted,
    from a writer that was finished, none of whose sends was refused. A body
    that ends with one delivered a prefix of them, and the error is its last
    item and says whether the writer was aborted or dropped.
  */
  lemma BodyIsWholeOrFailed(states: seq<State>)
    requires Run(states)
    ensures var s := Last(states);
      && (s.reader.Ended? && Clean(s.items) ==> WholeBody(s))
      && (s.reader.Ended? && !Clean(s.items) ==> FailedBody(s))
      && (s.reader.Spent? ==> FailedBody(s))
      && (s.reader.Receiving? || s.reader.HungUp? ==> Clean(s.items) && Delivered(s.items) <= s.accepted)
  {
    RunValid(states);
    var s := Last(states);
    if s.reader.Receiving? {
      PrefixOfAll(Delivered(s.items), Payload(s.queue), Held(s.writer), s.accepted);
    }
    Verdict(s);
  }

  lemma PrefixOfAll(a: Bytes, b: Bytes, c: Bytes, all: Bytes)
    requires a + b <= all || a + b + c == all
    ensures a <= all
  {
    assert a <= a + b;
  }

  predicate IsSized(piece: Piece) { piece.Data? ==> 1 <= |piece.bytes| <= 65536 }

  function Undelivered(s: State): seq<Piece> {
    s.queue + if s.writer.Sending? then [s.writer.piece] else []
  }

  /** Never more than nine pieces wait, and every chunk, waiting or delivered, has 1 to 64 KiB. */
  lemma ChunksAreBounded(states: seq<State>)
    requires Run(states)
    ensures var s := Last(states);
      && |Undelivered(s)| <= 9
      && (forall i :: 0 <= i < |Undelivered(s)| ==> IsSized(Undelivered(s)[i]))
      && (forall i :: 0 <= i < |s.items| && s.items[i].Chunk? ==> 1 <= |s.items[i].bytes| <= 65536)
  {
    RunValid(states);
    var s := Last(states);
    SizedQueue(s);
    if s.reader.Spent? || s.reader.Ended? {
      SizedItems(s);
    }
  }

  lemma SizedQueue(s: State)
    requires Valid(s)
    ensures |s.queue| <= IN_FLIGHT && forall i :: 0 <= i < |s.queue| ==> IsSized(s.queue[i])
  {
  }

  lemma SizedItems(s: State)
    requires FailedBody(s) || WholeBody(s)
    ensures forall i :: 0 <= i < |s.items| && s.items[i].Chunk? ==> ChunkSized(s.items[i].bytes)
  {
    if s.items != [] {
      var front := s.items[..|s.items| - 1];
      assert forall i :: 0 <= i < |front| ==> front[i] == s.items[i];
    }
  }

  /** `write` takes a prefix of its data, and some of it whenever there is any. */
  lemma WriteTakes(states: seq<State>, data: Bytes)
    requires Run(states) && Last(states).writer.Idle?
    ensures var s, t := Last(states), After(Last(states), Write(data)).value;
      exists n | 0 <= n <= |data| ::
        t.accepted == s.accepted + data[..n] && (data != [] ==> n > 0) && (n < |data| ==> t.writer.Sending?)
  {
    RunValid(states);
    var s := Last(states);
    var room := CHUNK - |s.writer.buf|;
    var n := if |data| < room then |data| else room;
    assert After(s, Write(data)).value.accepted == s.accepted + data[..n];
  }

  /** The pipe never stalls: while either end is at work, some step other than a hang-up can happen. */
  lemma NeverStalls(states: seq<State>)
    requires Run(states)
    ensures var s := Last(states);
      || (s.writer.Gone? && (s.reader.Ended? || s.reader.HungUp?))
      || s.writer.Idle?
      || exists step: Step :: (step.SendCompletes? || step.SendRefused? || step.Poll?) && After(s, step).Some?
  {
    var s := Last(states);
    var step :=
      if s.writer.Sending? && !s.reader.Receiving? then SendRefused
      else if s.writer.Sending? && |s.queue| < IN_FLIGHT then SendCompletes
      else Poll;
    assert s.writer.Idle? || (s.writer.Gone? && (s.reader.Ended? || s.reader.HungUp?)) || After(s, step).Some?;
  }

  /** The body read to its end, once the writer is gone. */
  function Drained(s: State): State
    requires s.writer.Gone?
    decreases |s.queue|, if s.reader.Receiving? then 2 else if s.reader.Spent? then 1 else 0
  {
    if Polled(s).Some? then Drained(Polled(s).value) else s
  }

  lemma {:induction false} DrainedEnds(s: State)
    requires Valid(s) && s.writer.Gone?
    ensures var t := Drained(s); Valid(t) && t.writer == s.writer && t.accepted == s.accepted && t.refused == s.refused
    ensures s.reader.HungUp? || Drained(s).reader.Ended?
    decreases |s.queue|, if s.reader.Receiving? then 2 else if s.reader.Spent? then 1 else 0
  {
    if Polled(s).Some? {
      PollKeeps(s);
      DrainedEnds(Polled(s).value);
    }
  }

  /** What a connection that reads on gets is decided by how the writer left. */
  lemma ReadToTheEnd(states: seq<State>)
    requires Run(states) && Last(states).writer.Gone? && !Last(states).reader.HungUp?
    ensures var s := Last(states); var t := Drained(s);
      && t.reader.Ended?
      && (s.writer.exit == Finished ==> Clean(t.items) && Delivered(t.items) == s.accepted)
      && (s.writer.exit != Finished ==>
            FailedBody(t) && t.items[|t.items| - 1] == Error(if s.writer.exit == Aborted then WriterFailed else UnexpectedEof))
  {
    var s := Last(states);
    RunValid(states);
    DrainedEnds(s);
    EndTells(Drained(s));
  }

  lemma EndTells(t: State)
    requires Valid(t) && t.reader.Ended? && t.writer.Gone?
    ensures t.writer.exit == Finished ==> Clean(t.items) && Delivered(t.items) == t.accepted
    ensures t.writer.exit != Finished ==>
      FailedBody(t) && t.items[|t.items| - 1] == Error(if t.writer.exit == Aborted then WriterFailed else UnexpectedEof)
  {
  }

  // ------------------------------------------------------- the two ends

  lemma RunGrows(states: seq<State>, step: Step, t: State)
    requires Run(states) && After(Last(states), step) == Some(t)
    ensures Run(states + [t]) && Last(states + [t]) == t && Valid(t)
  {
    var longer := states + [t];
    assert Next(Last(states), t);
    forall i | 0 <= i < |longer| - 1 ensures Next(longer[i], longer[i + 1]) {
      assert i < |states| - 1 ==> Next(states[i], states[i + 1]);
    }
    RunValid(longer);
  }

  /** How a blocking send leaves the call it is in: waiting, sending its next piece, or returning (`BrokenPipe` unless `ok`). */
  datatype SendResult = Waits | Continues | Returns(ok: bool)

  /** What a poll of the body gives. */
  datatype PollResult = Pending | Yields(item: Item) | EndOfBody

  /**
    The pipe as the two ends change it: the writer's fields and calls, the
    channel, the body's polls. Every method is a step of the machine, so the
    object goes through a run of it.
  */
  class Pipe {
    var writer: Writer
    var queue: seq<Piece>
    var reader: Reader
    var items: seq<Item>
    var accepted: Bytes
    var refused: bool
    ghost var run: seq<State>

    function View(): State
      reads this
    {
      State(writer, queue, reader, items, accepted, refused)
    }

    ghost predicate Running()
      reads this
    {
      Run(run) && Last(run) == View()
    }

    constructor ()
      ensures Running() && Valid(View()) && View() == Start
    {
      writer, queue, reader, items, accepted, refused := Idle([]), [], Receiving, [], [], false;
      run := [Start];
    }

    ghost method Record(step: Step)
      requires Run(run) && After(Last(run), step) == Some(View())
      modifies this`run
      ensures Running() && Valid(View())
    {
      RunGrows(run, step, View());
      run := run + [View()];
    }

    method SendBuffered(buf: Bytes, next: Then)
      modifies this`writer
      ensures writer == Buffered(buf, next)
    {
      if buf == [] {
        writer := Sent(next);
      } else {
        writer := Sending(Data(buf), next);
      }
    }

    /** `write` up to its send: what it takes is the count it returns, at once if it is idle again, else if the send succeeds. */
    method Write(data: Bytes) returns (n: nat)
      requires Running() && writer.Idle?
      modifies this
      ensures Running() && Valid(View()) && After(old(View()), Step.Write(data)) == Some(View())
      ensures n <= |data| && accepted == old(accepted) + data[..n] && (data != [] ==> n > 0)
      ensures if writer.Idle? then n == |data| else writer == Sending(Data(old(writer).buf + data[..n]), Resume)
    {
      RunValid(run);
      var room := CHUNK - |writer.buf|;
      n := if |data| < room then |data| else room;
      var buf := writer.buf + data[..n];
      accepted := accepted + data[..n];
      writer := Idle(buf);
      if |buf| == CHUNK {
        SendBuffered(buf, Resume);
      }
      Record(Step.Write(data));
    }

    /** `flush`: it returns at once if the buffer is empty, else as its send does. */
    method Flush()
      requires Running() && writer.Idle?
      modifies this
      ensures Running() && Valid(View()) && After(old(View()), Step.Flush) == Some(View())
      ensures writer.Idle? <==> old(writer).buf == []
    {
      SendBuffered(writer.buf, Resume);
      Record(Step.Flush);
    }

    /** `finish`: the buffer if it holds anything, then the end. */
    method Finish()
      requires Running() && writer.Idle?
      modifies this
      ensures Running() && Valid(View()) && After(old(View()), Step.Finish) == Some(View())
      ensures writer == if old(writer).buf == [] then Sending(End, Leave(Finished)) else Sending(Data(old(writer).buf), ThenEnd)
    {
      SendBuffered(writer.buf, ThenEnd);
      Record(Step.Finish);
    }

    method Abort()
      requires Running() && writer.Idle?
      modifies this
      ensures Running() && Valid(View()) && After(old(View()), Step.Abort) == Some(View())
    {
      writer := Sending(Failed, Leave(Aborted));
      Record(Step.Abort);
    }

    /** The writer dropped without either. */
    method Drop()
      requires Running() && writer.Idle?
      modifies this
      ensures Running() && Valid(View()) && After(old(View()), Step.Drop) == Some(View())
    {
      writer := Gone(Dropped);
      Record(Step.Drop);
    }

    /** `blocking_send`: it waits while the channel is full, and fails exactly when nobody reads any more. */
    method Send() returns (r: SendResult)
      requires Running() && writer.Sending?
      modifies this
      ensures Running() && Valid(View())
      ensures r == Returns(false) <==> !old(reader).Receiving?
      ensures r.Waits? <==> old(reader).Receiving? && |old(queue)| == IN_FLIGHT
      ensures r.Continues? ==> old(writer).next == ThenEnd
      ensures r == Returns(true) ==> old(writer).next != ThenEnd
      ensures match r
        case Waits => View() == old(View())
        case Returns(false) => After(old(View()), SendRefused) == Some(View())
        case _ => After(old(View()), SendCompletes) == Some(View())
    {
      RunValid(run);
      if !reader.Receiving? {
        writer, refused := Refused(writer.next), true;
        Record(SendRefused);
        return Returns(false);
      }
      if |queue| == IN_FLIGHT {
        return Waits;
      }
      r := if writer.next == ThenEnd then Continues else Returns(true);
      queue, writer := queue + [writer.piece], Sent(writer.next);
      Record(SendCompletes);
    }

    /**
      One poll of the body. When it ends, everything accepted has been
      yielded and the writer was finished, or a prefix and one error have.
    */
    method Poll() returns (r: PollResult)
      requires Running() && (reader.Receiving? || reader.Spent?)
      modifies this
      ensures Running() && Valid(View())
      ensures r.Pending? <==> After(old(View()), Step.Poll).None?
      ensures if r.Pending? then View() == old(View()) else After(old(View()), Step.Poll) == Some(View())
      ensures items == old(items) + if r.Yields? then [r.item] else []
      ensures r.EndOfBody? ==> if Clean(items) then WholeBody(View()) else FailedBody(View())
      ensures r.Yields? && r.item.Error? ==> FailedBody(View())
    {
      RunValid(run);
      if reader.Spent? {
        reader := Ended;
        r := EndOfBody;
      } else if queue != [] {
        var piece := queue[0];
        queue := queue[1..];
        r := ReceivePiece(piece);
      } else if writer.Gone? {
        items, reader := items + [Error(UnexpectedEof)], Spent;
        r := Yields(Error(UnexpectedEof));
      } else {
        return Pending;
      }
      Record(Step.Poll);
      Verdict(View());
    }

    /** A piece from the channel; the last one closes it. */
    method ReceivePiece(piece: Piece) returns (r: PollResult)
      modifies this`items, this`reader, this`queue
      ensures View() == Received(old(View()), piece, old(queue)) && !r.Pending?
      ensures items == old(items) + if r.Yields? then [r.item] else []
      ensures (r.EndOfBody? ==> reader.Ended?) && (r.Yields? && r.item.Error? ==> reader.Spent?)
    {
      match piece
      case Data(bytes) =>
        items := items + [Chunk(bytes)];
        return Yields(Chunk(bytes));
      case Failed =>
        items, reader, queue := items + [Error(WriterFailed)], Spent, [];
        return Yields(Error(WriterFailed));
      case End =>
        reader, queue := Ended, [];
        return EndOfBody;
    }

    /** The connection gives the request up. */
    method HangUp()
      requires Running() && reader.Receiving?
      modifies this
      ensures Running() && Valid(View()) && After(old(View()), Step.HangUp) == Some(View())
    {
      reader, queue := HungUp, [];
      Record(Step.HangUp);
    }
  }
}
