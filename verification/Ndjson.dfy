/**
  NDJSON responses (`crates/rustlet-client/src/ndjson.rs`): the items of a
  stream depend on its bytes alone, not on the frames they came in; no byte is
  searched for a newline twice; and the buffer stays bounded.
*/
module Ndjson {
  import opened Common

  const NEWLINE: byte := 10
  const MAX_LINE: nat := 16 * 1024 * 1024

  // ------------------------------------------------------- lines of a text

  /** The complete lines of a text, and what follows the last newline. */
  datatype Split = Split(lines: seq<Bytes>, tail: Bytes)

  predicate OneLine(s: Bytes) { forall i :: 0 <= i < |s| ==> s[i] != NEWLINE }

  /** Where the first newline is, or the end. */
  function LineEnd(text: Bytes): (n: nat)
    ensures n <= |text| && (n < |text| ==> text[n] == NEWLINE) && forall i :: 0 <= i < n ==> text[i] != NEWLINE
  {
    if text == [] || text[0] == NEWLINE then 0 else 1 + LineEnd(text[1..])
  }

  function SplitLines(text: Bytes): Split
    decreases |text|
  {
    var n := LineEnd(text);
    if n == |text| then Split([], text)
    else Ahead(text[..n], SplitLines(text[n + 1..]))
  }

  function Ahead(line: Bytes, rest: Split): Split { Split([line] + rest.lines, rest.tail) }

  function Join(split: Split): Bytes
    decreases |split.lines|
  {
    if split.lines == [] then split.tail
    else split.lines[0] + ([NEWLINE] + Join(Split(split.lines[1..], split.tail)))
  }

  predicate WellSplit(split: Split) {
    OneLine(split.tail) && forall i :: 0 <= i < |split.lines| ==> OneLine(split.lines[i])
  }

  lemma LineEndIs(line: Bytes, more: Bytes)
    requires OneLine(line) && (more == [] || more[0] == NEWLINE)
    ensures LineEnd(line + more) == |line|
  {
    var text := line + more;
    assert forall i :: 0 <= i < |line| ==> text[i] == line[i];
    assert more != [] ==> text[|line|] == NEWLINE;
  }

  lemma SplitFirst(line: Bytes, more: Bytes)
    requires OneLine(line)
    ensures SplitLines(line + ([NEWLINE] + more)) == Ahead(line, SplitLines(more))
  {
    var text := line + ([NEWLINE] + more);
    LineEndIs(line, [NEWLINE] + more);
    assert text[..|line|] == line && text[|line| + 1..] == more;
  }

  lemma SplitTail(tail: Bytes)
    requires OneLine(tail)
    ensures SplitLines(tail) == Split([], tail)
  {
  }

  lemma AheadJoins(line: Bytes, rest: Split)
    requires OneLine(line) && WellSplit(rest)
    ensures WellSplit(Ahead(line, rest)) && Join(Ahead(line, rest)) == line + ([NEWLINE] + Join(rest))
  {
    assert Ahead(line, rest).lines[1..] == rest.lines;
  }

  lemma FirstAhead(split: Split)
    requires split.lines != []
    ensures split == Ahead(split.lines[0], Split(split.lines[1..], split.tail))
  {
    assert split.lines == [split.lines[0]] + split.lines[1..];
  }

  /** Splitting is the inverse of joining with newlines, both ways. */
  lemma {:induction false} SplitJoins(text: Bytes)
    ensures WellSplit(SplitLines(text)) && Join(SplitLines(text)) == text
    decreases |text|
  {
    var n := LineEnd(text);
    if n < |text| {
      var line, more := text[..n], text[n + 1..];
      assert text == line + ([NEWLINE] + more);
      SplitFirst(line, more);
      SplitJoins(more);
      AheadJoins(line, SplitLines(more));
    }
  }

  lemma {:induction false} JoinSplits(split: Split)
    requires WellSplit(split)
    ensures SplitLines(Join(split)) == split
    decreases |split.lines|
  {
    if split.lines == [] {
      SplitTail(split.tail);
    } else {
      var line, rest := split.lines[0], Split(split.lines[1..], split.tail);
      var more := Join(rest);
      JoinSplits(rest);
      assert Join(split) == line + ([NEWLINE] + more);
      SplitFirst(line, more);
      FirstAhead(split);
    }
  }

  // ------------------------------------------------------ items of a stream

  /** Whether a line decodes, by `parse_line` and the stream's check; the item or error it gives is its own. */
  type Decoder = Bytes -> bool

  datatype Trouble = TooLong | Bad(line: Bytes) | Disconnected

  /** An item of the stream, by the line it was decoded from, or the error that ends it. */
  type Item = Result<Bytes, Trouble>

  /** How the body ended: after its last byte, or with a connection that broke. */
  datatype Ending = Whole | BrokenOff

  /** What is made of a line: nothing, an item, or the error that ends the stream. */
  function Judge(decode: Decoder, line: Bytes): Option<Item> {
    if |line| > MAX_LINE then Some(Err(TooLong))
    else if Blank(line) then None
    else if decode(line) then Some(Ok(line))
    else Some(Err(Bad(line)))
  }

  predicate IsAsciiWhitespace(b: byte) { b == 32 || b == 9 || b == 10 || b == 12 || b == 13 }

  predicate Blank(line: Bytes) { forall i :: 0 <= i < |line| ==> IsAsciiWhitespace(line[i]) }

  /** The items of a body, by its lines: the last one may lack its newline; the first error ends them. */
  function Items(decode: Decoder, lines: seq<Bytes>, tail: Bytes, ending: Ending): seq<Item> {
    if lines != [] then
      var more := Items(decode, lines[1..], tail, ending);
      match Judge(decode, lines[0])
      case None => more
      case Some(Ok(item)) => [Ok(item)] + more
      case Some(Err(e)) => [Err(e)]
    else if ending.Whole? then
      if tail == [] || Judge(decode, tail).None? then [] else [Judge(decode, tail).value]
    else
      [Err(if |tail| > MAX_LINE then TooLong else Disconnected)]
  }

  function ItemsOf(decode: Decoder, text: Bytes, ending: Ending): seq<Item> {
    Items(decode, SplitLines(text).lines, SplitLines(text).tail, ending)
  }

  // ------------------------------------------------- the items by the lines

  predicate OnlyLastFails(items: seq<Item>) { forall i :: 0 <= i < |items| - 1 ==> items[i].Ok? }

  /** An error is the last item. */
  lemma {:induction false} ErrorIsLast(decode: Decoder, lines: seq<Bytes>, tail: Bytes, ending: Ending)
    ensures OnlyLastFails(Items(decode, lines, tail, ending))
  {
    if lines != [] {
      ErrorIsLast(decode, lines[1..], tail, ending);
      OneMore(lines[0], Items(decode, lines[1..], tail, ending));
    }
  }

  lemma OneMore(line: Bytes, more: seq<Item>)
    requires OnlyLastFails(more)
    ensures OnlyLastFails([Ok(line)] + more)
  {
    var items := [Ok(line)] + more;
    assert forall i :: 0 < i < |items| ==> items[i] == more[i - 1];
  }

  /** Something other than tabs, newlines, form feeds, carriage returns and spaces. */
  predicate HasInk(line: Bytes) {
    exists i :: 0 <= i < |line| && line[i] != 9 && line[i] != 10 && line[i] != 12 && line[i] != 13 && line[i] != 32
  }

  /** A line the stream has no complaint about. */
  predicate Fine(decode: Decoder, line: Bytes) {
    |line| <= 0x100_0000 && (HasInk(line) ==> decode(line))
  }

  function Complaint(line: Bytes): Item { Err(if |line| > 0x100_0000 then TooLong else Bad(line)) }

  /** The lines with something on them, in order. */
  function Inked(lines: seq<Bytes>): seq<Item> {
    if lines == [] then [] else (if HasInk(lines[0]) then [Ok(lines[0])] else []) + Inked(lines[1..])
  }

  lemma {:induction false} FineLines(decode: Decoder, lines: seq<Bytes>)
    requires forall i :: 0 <= i < |lines| ==> Fine(decode, lines[i])
    ensures forall tail, ending :: Items(decode, lines, tail, ending) == Inked(lines) + Items(decode, [], tail, ending)
  {
    if lines != [] {
      FineLines(decode, lines[1..]);
      assert Blank(lines[0]) <==> !HasInk(lines[0]);
    }
  }

  /** A whole body with only such lines gives each that has something on it; the first other line is the last item. */
  lemma ItemsByLines(decode: Decoder, lines: seq<Bytes>, bad: Bytes, more: seq<Bytes>, tail: Bytes, ending: Ending)
    requires forall i :: 0 <= i < |lines| ==> Fine(decode, lines[i])
    ensures Fine(decode, tail) ==> Items(decode, lines, tail, Whole) == Inked(lines + [tail])
    ensures !Fine(decode, bad) ==> Items(decode, lines + ([bad] + more), tail, ending) == Inked(lines) + [Complaint(bad)]
  {
    FineLines(decode, lines);
    InkedLast(lines, tail);
    assert Blank(tail) <==> !HasInk(tail);
    if !Fine(decode, bad) {
      FirstBad(decode, lines, bad, more, tail, ending);
    }
  }

  lemma {:induction false} InkedLast(lines: seq<Bytes>, tail: Bytes)
    ensures Inked(lines + [tail]) == Inked(lines) + if HasInk(tail) then [Ok(tail)] else []
  {
    if lines == [] {
      assert lines + [tail] == [tail] && [tail][1..] == [];
    } else {
      assert (lines + [tail])[1..] == lines[1..] + [tail];
      InkedLast(lines[1..], tail);
    }
  }

  lemma {:induction false} FirstBad(decode: Decoder, lines: seq<Bytes>, bad: Bytes, more: seq<Bytes>, tail: Bytes, ending: Ending)
    requires (forall i :: 0 <= i < |lines| ==> Fine(decode, lines[i])) && !Fine(decode, bad)
    ensures Items(decode, lines + ([bad] + more), tail, ending)
      == Inked(lines) + [Complaint(bad)]
  {
    var all := lines + ([bad] + more);
    if lines == [] {
      assert all[0] == bad && (Blank(bad) <==> !HasInk(bad));
    } else {
      assert all[0] == lines[0] && all[1..] == lines[1..] + ([bad] + more);
      FirstBad(decode, lines[1..], bad, more, tail, ending);
      assert Blank(lines[0]) <==> !HasInk(lines[0]);
    }
  }

  // ------------------------------------------------------------ the buffer

  lemma TakenAt(buf: Bytes, start: nat, at: nat)
    requires start <= at < |buf| && buf[at] == NEWLINE && forall i :: start <= i < at ==> buf[i] != NEWLINE
    ensures OneLine(buf[start..at]) && buf[start..] == buf[start..at] + ([NEWLINE] + buf[at + 1..])
  {
  }

  /** Bytes in, complete lines out. */
  class LineBuffer {
    var buf: Bytes
    var start: nat
    var scanned: nat
    /** How many bytes have been dropped from the front. */
    ghost var dropped: nat
    /** How many bytes have been compared with a newline. */
    ghost var examined: nat

    /**
      What `scanned` means, and the cost so far: the bytes before it, dropped
      ones included, have been compared once each and the others never.
    */
    ghost predicate Valid()
      reads this
    {
      && start <= scanned <= |buf|
      && (forall i :: start <= i < scanned ==> buf[i] != NEWLINE)
      && examined == dropped + scanned
    }

    /** The bytes not handed out yet. */
    function Contents(): Bytes
      requires start <= |buf|
      reads this
    {
      buf[start..]
    }

    constructor ()
      ensures Valid() && Contents() == [] && buf == [] && examined == 0 && dropped == 0
    {
      buf, start, scanned, dropped, examined := [], 0, 0, 0, 0;
    }

    method Push(data: Bytes)
      requires Valid()
      modifies this
      ensures Valid() && Contents() == old(Contents()) + data && start == 0 && buf == Contents()
      ensures examined == old(examined) && dropped + |buf| == old(dropped + |buf|) + |data|
    {
      if start > 0 {
        dropped := dropped + start;
        buf := buf[start..];
        scanned := scanned - start;
        start := 0;
      }
      buf := buf + data;
    }

    /** The first newline from `scanned` on, each byte looked at once. */
    method FindNewline() returns (at: nat)
      requires Valid()
      modifies this`examined
      ensures scanned <= at <= |buf| && (at < |buf| ==> buf[at] == NEWLINE)
      ensures forall i :: start <= i < at ==> buf[i] != NEWLINE
      ensures examined == dropped + if at < |buf| then at + 1 else at
    {
      at := scanned;
      while at < |buf|
        invariant scanned <= at <= |buf| && examined == dropped + at
        invariant forall i :: start <= i < at ==> buf[i] != NEWLINE
      {
        examined := examined + 1;
        if buf[at] == NEWLINE {
          return;
        }
        at := at + 1;
      }
    }

    /** The next complete line; at the end of the body, what follows the last newline too. */
    method NextLine(eof: bool) returns (line: Option<Bytes>)
      requires Valid()
      modifies this
      ensures Valid() && buf == old(buf) && dropped == old(dropped)
      ensures Handed(old(Contents()), eof, line, Contents())
    {
      var at := FindNewline();
      if at < |buf| {
        line := Some(buf[start..at]);
        TakenAt(buf, start, at);
        start := at + 1;
      } else if eof && start < |buf| {
        line := Some(buf[start..]);
        start := |buf|;
        assert Contents() == [];
      } else {
        scanned := |buf|;
        return None;
      }
      scanned := start;
    }

    function Pending(): nat
      requires start <= |buf|
      reads this
      ensures Pending() == |Contents()|
    {
      |buf| - start
    }
  }

  /** How a line is taken off the front of a text. */
  predicate Handed(text: Bytes, eof: bool, line: Option<Bytes>, rest: Bytes) {
    match line
    case None => OneLine(text) && rest == text && (eof ==> text == [])
    case Some(l) => OneLine(l) && (text == l + ([NEWLINE] + rest) || (eof && text == l && l != [] && rest == []))
  }

  // ------------------------------------------------------------ the stream

  /** What comes after a line is judged: the stream goes on unless that was an error. */
  function Onward(judged: Option<Item>, more: seq<Item>): seq<Item> {
    match judged
    case None => more
    case Some(Ok(item)) => [Ok(item)] + more
    case Some(Err(e)) => [Err(e)]
  }

  lemma ItemsAhead(decode: Decoder, line: Bytes, more: Bytes, ending: Ending)
    requires OneLine(line)
    ensures ItemsOf(decode, line + ([NEWLINE] + more), ending) == Onward(Judge(decode, line), ItemsOf(decode, more, ending))
  {
    SplitFirst(line, more);
    ItemsOfAhead(decode, line, SplitLines(more), ending);
  }

  lemma ItemsOfAhead(decode: Decoder, line: Bytes, rest: Split, ending: Ending)
    ensures Items(decode, Ahead(line, rest).lines, rest.tail, ending)
         == Onward(Judge(decode, line), Items(decode, rest.lines, rest.tail, ending))
  {
    assert Ahead(line, rest).lines[1..] == rest.lines;
  }

  lemma ItemsOfTail(decode: Decoder, tail: Bytes, ending: Ending)
    requires OneLine(tail)
    ensures ItemsOf(decode, tail, ending) == Items(decode, [], tail, ending)
  {
    SplitTail(tail);
  }

  /** At the end of the body the last line needs no newline. */
  lemma ItemsAtEnd(decode: Decoder, tail: Bytes)
    requires OneLine(tail)
    ensures tail != [] ==> ItemsOf(decode, tail, Whole) == Onward(Judge(decode, tail), ItemsOf(decode, [], Whole))
    ensures ItemsOf(decode, [], Whole) == []
  {
    ItemsOfTail(decode, tail, Whole);
    ItemsOfTail(decode, [], Whole);
  }

  /** A line too long is an error whether or not its end has come, and however the body ends. */
  lemma ItemsOverlong(decode: Decoder, text: Bytes, more: Bytes, ending: Ending)
    requires OneLine(text) && |text| > MAX_LINE
    ensures ItemsOf(decode, text + more, ending) == [Err(TooLong)]
  {
    var n := LineEnd(more);
    var line := text + more[..n];
    assert forall i :: 0 <= i < |line| ==> line[i] == if i < |text| then text[i] else more[i - |text|];
    if n < |more| {
      assert text + more == line + ([NEWLINE] + more[n + 1..]);
      ItemsAhead(decode, line, more[n + 1..], ending);
    } else {
      assert text + more == line;
      ItemsOfTail(decode, line, ending);
    }
  }

  /** A stand-in for `ItemsOf`. */
  type Meaning = (Bytes, Ending) -> seq<Item>

  ghost predicate Means(meaning: Meaning, decode: Decoder) {
    forall text, ending {:trigger ItemsOf(decode, text, ending)} :: meaning(text, ending) == ItemsOf(decode, text, ending)
  }

  /** One frame of the body; trailers carry nothing. */
  datatype Frame = Data(bytes: Bytes) | Trailers

  function Carried(frame: Frame): Bytes { if frame.Data? then frame.bytes else [] }

  function Concat(frames: seq<Frame>): Bytes {
    if frames == [] then [] else Carried(frames[0]) + Concat(frames[1..])
  }

  predicate FramesWithin(frames: seq<Frame>, limit: nat) {
    forall i :: 0 <= i < |frames| ==> |Carried(frames[i])| <= limit
  }

  lemma LineTaken(
    meaning: Meaning, decode: Decoder, text: Bytes, eof: bool, line: Bytes, rest: Bytes, more: Bytes, ending: Ending)
    requires Means(meaning, decode)
    requires Handed(text, eof, Some(line), rest) && (eof ==> more == [] && ending == Whole)
    ensures meaning(text + more, ending) == Onward(Judge(decode, line), meaning(rest + more, ending))
  {
    if text == line + ([NEWLINE] + rest) {
      assert text + more == line + ([NEWLINE] + (rest + more));
      ItemsAhead(decode, line, rest + more, ending);
    } else {
      assert text + more == line && rest + more == [];
      ItemsAtEnd(decode, line);
    }
  }

  /** What it means to find no line in `text`, at the end of the body, too far from one, or before a break. */
  lemma NoLine(meaning: Meaning, decode: Decoder, text: Bytes, more: Bytes, ending: Ending)
    requires Means(meaning, decode) && OneLine(text)
    ensures text + more == [] && ending == Whole ==> meaning(text + more, ending) == []
    ensures |text| > MAX_LINE ==> meaning(text + more, ending) == [Err(TooLong)]
    ensures more == [] && ending == BrokenOff && |text| <= MAX_LINE ==> meaning(text + more, ending) == [Err(Disconnected)]
  {
    assert meaning(text + more, ending) == ItemsOf(decode, text + more, ending);
    if |text| > MAX_LINE {
      ItemsOverlong(decode, text, more, ending);
    } else if more == [] {
      assert text + more == text;
      ItemsOfTail(decode, text, ending);
    }
  }

  /** Reading a frame moves its bytes from the body to the buffer. */
  lemma FrameRead(text: Bytes, frames: seq<Frame>)
    requires frames != []
    ensures text + Concat(frames) == (text + Carried(frames[0])) + Concat(frames[1..])
    ensures frames[0].Trailers? ==> text + Concat(frames) == text + Concat(frames[1..])
  {
    assert text + [] == text;
  }

  lemma NothingBefore(s: Bytes)
    ensures [] + s == s
  {
  }

  /** The stream's state; `frames` and `ending` are what the body will still give. */
  class Stream {
    const decode: Decoder
    const lines: LineBuffer
    var eof: bool
    var done: bool
    var frames: seq<Frame>
    var ending: Ending
    ghost const meaning: Meaning
    /** No frame is larger than this. */
    ghost const limit: nat

    /** With the bound on memory: never more than the longest line and one frame. */
    ghost predicate Valid()
      reads this, lines
    {
      && lines.Valid()
      && Means(meaning, decode)
      && (eof ==> frames == [] && ending == Whole)
      && FramesWithin(frames, limit)
      && |lines.buf| <= MAX_LINE + limit
    }

    /** The items still to come. */
    ghost function Remaining(): seq<Item>
      requires lines.start <= |lines.buf|
      reads this, lines
    {
      if done then [] else meaning(lines.Contents() + Concat(frames), ending)
    }

    constructor (
      decode: Decoder, lines: LineBuffer, frames: seq<Frame>, ending: Ending,
      ghost meaning: Meaning, ghost limit: nat)
      requires lines.Valid() && lines.buf == []
      requires Means(meaning, decode) && FramesWithin(frames, limit)
      ensures Valid() && !done && lines.Contents() == [] && this.lines == lines && this.frames == frames
      ensures this.meaning == meaning && this.limit == limit && this.ending == ending
    {
      this.decode, this.lines, this.frames, this.ending := decode, lines, frames, ending;
      this.meaning, this.limit := meaning, limit;
      eof, done := false, false;
    }

    /** A line, if there is one, and what it makes of the items to come. */
    method TakeLine() returns (line: Option<Bytes>)
      requires Valid() && !done
      modifies lines
      ensures Valid()
      ensures line.None? ==> Remaining() == old(Remaining()) && lines.Contents() == old(lines.Contents())
      ensures line.None? ==> OneLine(lines.Contents()) && (eof ==> lines.Contents() == [])
      ensures line.Some? ==> |lines.Contents()| < |old(lines.Contents())|
      ensures line.Some? ==> old(Remaining()) == Onward(Judge(decode, line.value), Remaining())
    {
      ghost var text := lines.Contents();
      line := lines.NextLine(eof);
      if line.Some? {
        LineTaken(meaning, decode, text, eof, line.value, lines.Contents(), Concat(frames), ending);
      }
    }

    /** One frame, or the end of the body, once no line is left. */
    method ReadFrame() returns (broken: bool)
      requires Valid() && !done && !eof && OneLine(lines.Contents()) && |lines.Contents()| <= MAX_LINE
      modifies this, lines
      ensures Valid() && !done
      ensures !broken ==> Remaining() == old(Remaining())
      ensures !broken ==> (eof && frames == []) || (!eof && |frames| < |old(frames)|)
      ensures broken ==> old(Remaining()) == [Err(Disconnected)]
    {
      ghost var text := lines.Contents();
      broken := false;
      if frames != [] {
        FrameRead(text, frames);
        var frame := frames[0];
        frames := frames[1..];
        if frame.Data? {
          lines.Push(frame.bytes);
        }
      } else if ending == BrokenOff {
        NoLine(meaning, decode, text, [], BrokenOff);
        broken := true;
      } else {
        eof := true;
      }
    }

    method JudgeLine(line: Bytes) returns (item: Option<Item>)
      ensures item == Judge(decode, line)
    {
      if |line| > MAX_LINE {
        return Some(Err(TooLong));
      }
      if Blank(line) {
        return None;
      }
      return Some(if decode(line) then Ok(line) else Err(Bad(line)));
    }

    /** The next item, off the front of the items to come. */
    method Next() returns (item: Option<Item>)
      requires Valid()
      modifies this, lines
      ensures Valid()
      ensures old(Remaining()) == Preceded(item, Remaining())
      ensures item.None? || item.value.Err? ==> done
    {
      while true
        invariant Valid() && Remaining() == old(Remaining())
        decreases if eof then 0 else 1, |frames|, |lines.Contents()|
      {
        if done {
          return None;
        }
        var line := TakeLine();
        if line.Some? {
          var judged := JudgeLine(line.value);
          if judged.None? {
            continue;
          }
          done := judged.value.Err?;
          return judged;
        }
        NoLine(meaning, decode, lines.Contents(), Concat(frames), ending);
        if eof {
          done := true;
          return None;
        }
        if lines.Pending() > MAX_LINE {
          done := true;
          return Some(Err(TooLong));
        }
        var broken := ReadFrame();
        if broken {
          done := true;
          return Some(Err(Disconnected));
        }
      }
    }
  }

  /** Everything the stream yields. */
  method Drain(stream: Stream) returns (items: seq<Item>)
    requires stream.Valid()
    modifies stream, stream.lines
    ensures items == old(stream.Remaining())
  {
    ghost var all := stream.Remaining();
    items := [];
    var next := stream.Next();
    while next.Some?
      invariant stream.Valid()
      invariant all == items + Preceded(next, stream.Remaining())
      decreases |all| - |items|
    {
      Regroup(items, [next.value], stream.Remaining());
      items := items + [next.value];
      next := stream.Next();
    }
  }

  function Preceded(next: Option<Item>, more: seq<Item>): seq<Item> {
    if next.None? then [] else [next.value] + more
  }

  method DrainFrames(
    decode: Decoder, lines: LineBuffer, frames: seq<Frame>, ending: Ending, ghost meaning: Meaning)
    returns (items: seq<Item>)
    requires Means(meaning, decode) && lines.Valid() && lines.buf == []
    modifies lines
    ensures items == meaning(Concat(frames), ending)
  {
    FramesFit(frames);
    NothingBefore(Concat(frames));
    var stream := new Stream(decode, lines, frames, ending, meaning, |Concat(frames)|);
    items := Drain(stream);
  }

  method DrainNew(decode: Decoder, frames: seq<Frame>, ending: Ending, ghost meaning: Meaning) returns (items: seq<Item>)
    requires Means(meaning, decode)
    ensures items == meaning(Concat(frames), ending)
  {
    var lines := new LineBuffer();
    items := DrainFrames(decode, lines, frames, ending, meaning);
  }

  ghost function MeaningOf(decode: Decoder): (meaning: Meaning)
    ensures Means(meaning, decode)
  {
    (text, ending) => ItemsOf(decode, text, ending)
  }

  /** The whole stream: what it yields is a function of the bytes alone, however they were framed. */
  method Collect(decode: Decoder, frames: seq<Frame>, ending: Ending) returns (items: seq<Item>)
    ensures items == ItemsOf(decode, Concat(frames), ending)
  {
    items := DrainNew(decode, frames, ending, MeaningOf(decode));
  }

  lemma {:induction false} FramesFit(frames: seq<Frame>)
    ensures FramesWithin(frames, |Concat(frames)|)
  {
    if frames != [] {
      FramesFit(frames[1..]);
      assert forall i :: 1 <= i < |frames| ==> frames[i] == frames[1..][i - 1];
    }
  }
}
