/**
  The detach keys of `crates/rustlet-cli/src/relay.rs`: Ctrl-P Ctrl-Q are
  recognised wherever reads cut the input, and everything before them, and
  nothing else, is forwarded.
*/
module Relay {
  import opened Common

  const DETACH_KEYS: Bytes := [0x10, 0x11]

  predicate PairAt(s: Bytes, i: nat) {
    i + 1 < |s| && s[i] == 0x10 && s[i + 1] == 0x11
  }

  /** Where the keys first come in the input. */
  function FirstPair(s: Bytes): (at: Option<nat>)
    ensures at.None? ==> forall i: nat :: i < |s| ==> !PairAt(s, i)
    ensures at.Some? ==> PairAt(s, at.value) && forall i: nat :: i < at.value ==> !PairAt(s, i)
  {
    FirstPairFrom(s, 0)
  }

  function FirstPairFrom(s: Bytes, from: nat): (at: Option<nat>)
    requires from <= |s|
    ensures at.None? ==> forall i: nat :: from <= i < |s| ==> !PairAt(s, i)
    ensures at.Some? ==> from <= at.value && PairAt(s, at.value) && forall i: nat :: from <= i < at.value ==> !PairAt(s, i)
    decreases |s| - from
  {
    if from == |s| then None else if PairAt(s, from) then Some(from) else FirstPairFrom(s, from + 1)
  }

  /** An unfinished key sequence, which may yet be completed. */
  function HeldBack(s: Bytes): Bytes {
    if s != [] && s[|s| - 1] == DETACH_KEYS[0] then DETACH_KEYS[..1] else []
  }

  /** What is to be forwarded of the whole input, however it was read. */
  function Forwarded(s: Bytes): Bytes {
    match FirstPair(s)
    case Some(k) => s[..k]
    case None => s[..|s| - |HeldBack(s)|]
  }

  class DetachKeys {
    var matched: nat
    /** The input so far, and what of it has been forwarded. */
    ghost var seen: Bytes
    ghost var sent: Bytes

    /** Until the keys come, all of the input is forwarded or held back. */
    ghost predicate Valid()
      reads this
    {
      FirstPair(seen).None? && At(seen, sent, matched)
    }

    constructor ()
      ensures Valid() && seen == [] && sent == [] && matched == 0
    {
      matched, seen, sent := 0, [], [];
    }

    /** The loop's body: what `b` lets through, unless it completes the keys. */
    method FeedByte(b: byte, ghost s: Bytes, ghost before: Bytes) returns (out: Bytes, complete: bool)
      requires NoPair(s) && At(s, before, matched)
      modifies this`matched
      ensures !complete ==> NoPair(s + [b]) && At(s + [b], before + out, matched)
      ensures complete ==> s != [] && PairAt(s + [b], |s| - 1) && before == s[..|s| - 1] && matched == 0
    {
      NextByte(s, before, matched, b);
      out, complete := [], false;
      if b == DETACH_KEYS[matched] {
        matched := matched + 1;
        if matched == |DETACH_KEYS| {
          matched, complete := 0, true;
        }
        assert before + out == before;
        return;
      }
      out := DETACH_KEYS[..matched];
      matched := if b == DETACH_KEYS[0] then 1 else 0;
      if matched == 0 {
        assert before + (out + [b]) == before + out + [b];
        out := out + [b];
      }
    }

    /** The bytes of `input` to forward, and whether the keys are now complete. */
    method Feed(input: Bytes) returns (forward: Bytes, detached: bool)
      requires Valid()
      modifies this
      ensures seen == old(seen) + input && sent == old(sent) + forward
      ensures detached <==> FirstPair(seen).Some?
      ensures sent == Forwarded(seen)
      ensures if detached then matched == 0 else Valid()
    {
      forward := [];
      ghost var s := seen;
      seen := seen + input;
      for i := 0 to |input|
        invariant seen == old(seen) + input && sent == old(sent)
        invariant s == old(seen) + input[..i]
        invariant NoPair(s) && At(s, sent + forward, matched)
      {
        var b := input[i];
        var out, complete := FeedByte(b, s, sent + forward);
        if complete {
          assert s + [b] <= seen;
          PairStands(s, b, seen);
          sent := sent + forward;
          return forward, true;
        }
        assert input[..i + 1] == input[..i] + [b];
        assert sent + (forward + out) == sent + forward + out;
        forward := forward + out;
        s := s + [b];
      }
      assert input[..|input|] == input;
      sent := sent + forward;
      detached := false;
    }
  }

  predicate NoPair(s: Bytes) { forall i: nat :: i < |s| ==> !PairAt(s, i) }

  /** Where the matcher stands after the input `s`, with `sent` forwarded of it. */
  predicate At(s: Bytes, sent: Bytes, matched: nat) {
    && matched < 2
    && s == sent + DETACH_KEYS[..matched]
    && (matched == 1 <==> s != [] && s[|s| - 1] == DETACH_KEYS[0])
  }

  /** One byte more: it completes the keys, starts them, or lets go of what was held. */
  lemma NextByte(s: Bytes, sent: Bytes, matched: nat, b: byte)
    requires NoPair(s) && At(s, sent, matched)
    ensures b == DETACH_KEYS[matched] && matched == 0 ==> NoPair(s + [b]) && At(s + [b], sent, 1)
    ensures b == DETACH_KEYS[matched] && matched == 1 ==> PairAt(s + [b], |s| - 1) && sent == s[..|s| - 1]
    ensures b != DETACH_KEYS[matched] && b == DETACH_KEYS[0]
      ==> NoPair(s + [b]) && At(s + [b], sent + DETACH_KEYS[..matched], 1)
    ensures b != DETACH_KEYS[matched] && b != DETACH_KEYS[0]
      ==> NoPair(s + [b]) && At(s + [b], sent + DETACH_KEYS[..matched] + [b], 0)
  {
    var t := s + [b];
    assert forall i: nat :: i + 1 < |s| ==> PairAt(t, i) == PairAt(s, i);
    assert DETACH_KEYS[..0] == [] && DETACH_KEYS[..1] == [DETACH_KEYS[0]];
  }

  /** A pair completed by `b` is the first of everything that starts so. */
  lemma PairStands(s: Bytes, b: byte, all: Bytes)
    requires s != [] && NoPair(s) && PairAt(s + [b], |s| - 1) && s + [b] <= all
    ensures FirstPair(all) == Some(|s| - 1) && s[..|s| - 1] == all[..|s| - 1]
  {
    var t, at := s + [b], FirstPair(all);
    assert forall i :: 0 <= i < |t| ==> all[i] == t[i];
    assert forall i: nat :: i + 1 < |t| ==> PairAt(all, i) == PairAt(t, i);
    assert forall i: nat :: i + 1 < |s| ==> PairAt(t, i) == PairAt(s, i);
    assert PairAt(all, |s| - 1);
  }

  function Concat(inputs: seq<Bytes>): Bytes {
    if inputs == [] then [] else Concat(inputs[..|inputs| - 1]) + inputs[|inputs| - 1]
  }

  /** What is sent to the session. */
  datatype Outgoing = Stdin(data: Bytes) | StdinEof

  function Data(messages: seq<Outgoing>): Bytes {
    if messages == [] then []
    else
      var last := messages[|messages| - 1];
      Data(messages[..|messages| - 1]) + if last.Stdin? then last.data else []
  }

  predicate OnlyData(messages: seq<Outgoing>) {
    forall i :: 0 <= i < |messages| ==> messages[i].Stdin? && messages[i].data != []
  }

  /** What a session is sent of the input: with keys, what they let through; else all of it. */
  function Relayed(raw: bool, input: Bytes): Bytes { if raw then Forwarded(input) else input }

  predicate Detaches(raw: bool, input: Bytes) { raw && FirstPair(input).Some? }

  lemma DataLast(messages: seq<Outgoing>, last: Outgoing)
    ensures Data(messages + [last]) == Data(messages) + if last.Stdin? then last.data else []
  {
    assert (messages + [last])[..|messages|] == messages;
  }

  method SendData(out: seq<Outgoing>, data: Bytes) returns (sent: seq<Outgoing>)
    requires OnlyData(out)
    ensures OnlyData(sent) && Data(sent) == Data(out) + data
  {
    if data == [] {
      return out;
    }
    DataLast(out, Stdin(data));
    return out + [Stdin(data)];
  }

  /**
    `pump_stdin`: what is sent, and whether it detaches, depend on the bytes
    read alone; data messages are never empty, and the end of the input is
    sent after them exactly if it does not detach.
  */
  method Pump(inputs: seq<Bytes>, raw: bool) returns (out: seq<Outgoing>, detached: bool)
    ensures detached <==> Detaches(raw, Concat(inputs))
    ensures Data(out) == Relayed(raw, Concat(inputs))
    ensures if detached then OnlyData(out) else out != [] && out[|out| - 1] == StdinEof && OnlyData(out[..|out| - 1])
  {
    var messages;
    if raw {
      messages, detached := PumpKeys(inputs);
    } else {
      messages := PumpAll(inputs);
      detached := false;
    }
    if detached {
      return messages, true;
    }
    DataLast(messages, StdinEof);
    out := messages + [StdinEof];
  }

  method PumpAll(inputs: seq<Bytes>) returns (out: seq<Outgoing>)
    ensures OnlyData(out) && Data(out) == Concat(inputs)
  {
    out := [];
    for i := 0 to |inputs|
      invariant OnlyData(out) && Data(out) == Concat(inputs[..i])
    {
      assert inputs[..i + 1][..i] == inputs[..i];
      out := SendData(out, inputs[i]);
    }
    assert inputs[..|inputs|] == inputs;
  }

  /** The loop with the detach keys. */
  method PumpKeys(inputs: seq<Bytes>) returns (out: seq<Outgoing>, detached: bool)
    ensures detached <==> FirstPair(Concat(inputs)).Some?
    ensures OnlyData(out) && Data(out) == Forwarded(Concat(inputs))
  {
    var keys := new DetachKeys();
    out := [];
    for i := 0 to |inputs|
      invariant keys.Valid() && fresh(keys)
      invariant keys.seen == Concat(inputs[..i]) && keys.sent == Data(out) && OnlyData(out)
    {
      var data, now := keys.Feed(inputs[i]);
      out := SendData(out, data);
      assert inputs[..i + 1][..i] == inputs[..i];
      if now {
        Later(inputs, i + 1);
        return out, true;
      }
    }
    assert inputs[..|inputs|] == inputs;
    detached := false;
    StandsStill(keys.seen, keys.sent, keys.matched);
  }

  lemma StandsStill(s: Bytes, sent: Bytes, matched: nat)
    requires FirstPair(s).None? && At(s, sent, matched)
    ensures sent == Forwarded(s)
  {
  }

  /** Reads after the keys change nothing. */
  lemma {:induction false} Later(inputs: seq<Bytes>, n: nat)
    requires n <= |inputs| && FirstPair(Concat(inputs[..n])).Some?
    ensures FirstPair(Concat(inputs)) == FirstPair(Concat(inputs[..n]))
    ensures Forwarded(Concat(inputs)) == Forwarded(Concat(inputs[..n]))
  {
    if n == |inputs| {
      assert inputs[..n] == inputs;
    } else {
      var shorter := inputs[..|inputs| - 1];
      assert shorter[..n] == inputs[..n];
      Later(shorter, n);
      PairStays(Concat(shorter), inputs[|inputs| - 1]);
    }
  }

  lemma PairStays(s: Bytes, more: Bytes)
    requires FirstPair(s).Some?
    ensures FirstPair(s + more) == FirstPair(s) && Forwarded(s + more) == Forwarded(s)
  {
    var k := FirstPair(s).value;
    assert forall i: nat :: i + 1 < |s| ==> PairAt(s + more, i) == PairAt(s, i);
    assert PairAt(s + more, k);
  }
}
