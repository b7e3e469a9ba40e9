/**
 * The telemetry receive loop: the sensor fields of `SocketClient`, updated in
 * place, together with the line buffer and its fill position, which the
 * receive loop keeps across calls. Each read is consumed byte by byte; each
 * `\n` hands the collected line to the record parser and empties the buffer.
 *
 * `Consume` is the pure reference (framing followed by parsing the completed
 * records in order) the methods are proved against.
 */
module Decoder {
  import opened Telemetry
  import opened Framing
  import opened Records

  /** Every completed line, once `strcpy` has cut it at its first NUL, is one the variant can parse. */
  predicate LinesDefined(v: Variant, lines: seq<string>)
  {
    forall i :: 0 <= i < |lines| ==> RecordDefined(v, CString(lines[i]))
  }

  /** The completed lines parsed into the snapshot in the order they arrived. */
  function Decode(v: Variant, snap: Snapshot, lines: seq<string>, atof: string -> real): Snapshot
    requires LinesDefined(v, lines)
    decreases |lines|
  {
    if lines == [] then snap
    else
      var n := |lines| - 1;
      ApplyRecord(v, Decode(v, snap, lines[..n], atof), CString(lines[n]), atof)
  }

  /** The lines of `a + b` are parsable exactly when those of `a` and those of `b` are. */
  lemma LinesDefinedAppend(v: Variant, a: seq<string>, b: seq<string>)
    ensures LinesDefined(v, a + b) <==> LinesDefined(v, a) && LinesDefined(v, b)
  {
    if LinesDefined(v, a + b) {
      forall i | 0 <= i < |a|
        ensures RecordDefined(v, CString(a[i]))
      {
        assert (a + b)[i] == a[i];
      }
      forall i | 0 <= i < |b|
        ensures RecordDefined(v, CString(b[i]))
      {
        assert (a + b)[|a| + i] == b[i];
      }
    }
  }

  /** Parsing `a + b` is parsing `a` and then `b`. */
  lemma {:induction false} DecodeAppend(v: Variant, snap: Snapshot, a: seq<string>, b: seq<string>, atof: string -> real)
    requires LinesDefined(v, a + b)
    ensures LinesDefined(v, a) && LinesDefined(v, b)
    ensures Decode(v, snap, a + b, atof) == Decode(v, Decode(v, snap, a, atof), b, atof)
    decreases |b|
  {
    LinesDefinedAppend(v, a, b);
    if b == [] {
      assert a + b == a;
    } else {
      var n := |b| - 1;
      assert b == b[..n] + [b[n]];
      assert a + b == (a + b[..n]) + [b[n]];
      LinesDefinedAppend(v, a + b[..n], [b[n]]);
      DecodeAppend(v, snap, a, b[..n], atof);
    }
  }

  /** The decoder's state: the partial line and the sensor snapshot. */
  datatype DecoderState = DecoderState(partial: string, snap: Snapshot)

  /** Every line a read of `bytes` completes, given the partial line before it, can be parsed. */
  predicate ReadDefined(v: Variant, partial: string, bytes: string)
  {
    LinesDefined(v, Frame(partial, bytes).records)
  }

  /** The state after consuming `bytes`: the lines they complete are parsed in order; the rest is kept. */
  function Consume(v: Variant, st: DecoderState, bytes: string, atof: string -> real): DecoderState
    requires ReadDefined(v, st.partial, bytes)
  {
    var f := Frame(st.partial, bytes);
    DecoderState(f.partial, Decode(v, st.snap, f.records, atof))
  }

  /**
   * Split invariance of the whole decoder: one read of `a + b` leaves the same
   * partial line and the same sensor values as a read of `a` followed by a
   * read of `b`.
   */
  lemma ConsumeSplit(v: Variant, st: DecoderState, a: string, b: string, atof: string -> real)
    requires ReadDefined(v, st.partial, a + b)
    ensures ReadDefined(v, st.partial, a)
    ensures ReadDefined(v, Frame(st.partial, a).partial, b)
    ensures Consume(v, st, a + b, atof) == Consume(v, Consume(v, st, a, atof), b, atof)
  {
    FrameSplit(st.partial, a, b);
    DecodeAppend(v, st.snap, Frame(st.partial, a).records, Frame(Frame(st.partial, a).partial, b).records, atof);
  }

  /** A byte the decoder can take in state `st`: a `\n` needs the buffered line to be parsable. */
  predicate ByteDefined(v: Variant, st: DecoderState, c: char)
  {
    c == '\n' ==> RecordDefined(v, CString(st.partial))
  }

  /** What one byte does to the decoder: a `\n` parses the buffered line and empties the buffer; any other byte is buffered if there is room. */
  function ConsumeOne(v: Variant, st: DecoderState, c: char, atof: string -> real): DecoderState
    requires ByteDefined(v, st, c)
  {
    if c == '\n' then DecoderState("", ApplyRecord(v, st.snap, CString(st.partial), atof))
    else DecoderState(if |st.partial| < LineCapacity then st.partial + [c] else st.partial, st.snap)
  }

  /** Consuming bytes is consuming them one at a time, left to right. */
  lemma ConsumeByte(v: Variant, st: DecoderState, bytes: string, c: char, atof: string -> real)
    requires ReadDefined(v, st.partial, bytes + [c])
    ensures ReadDefined(v, st.partial, bytes)
    ensures ByteDefined(v, Consume(v, st, bytes, atof), c)
    ensures Consume(v, st, bytes + [c], atof) == ConsumeOne(v, Consume(v, st, bytes, atof), c, atof)
  {
    ConsumeSplit(v, st, bytes, [c], atof);
    var f := Frame(st.partial, bytes);
    assert Frame(f.partial, [c]) == FrameByte(Framed([], f.partial), c) by {
      assert [c][..0] == [];
      assert FrameFrom(Framed([], f.partial), []) == Framed([], f.partial);
    }
    if c == '\n' {
      assert Frame(f.partial, [c]).records == [f.partial];
      assert [f.partial][..0] == [];
    }
  }

  /** `ConsumeByte` for the byte at index `i` of a read that is parsable as a whole. */
  lemma ConsumeNext(v: Variant, st: DecoderState, chunk: string, i: nat, atof: string -> real)
    requires i < |chunk| && ReadDefined(v, st.partial, chunk)
    ensures ReadDefined(v, st.partial, chunk[..i]) && ReadDefined(v, st.partial, chunk[..i + 1])
    ensures ByteDefined(v, Consume(v, st, chunk[..i], atof), chunk[i])
    ensures Consume(v, st, chunk[..i + 1], atof) == ConsumeOne(v, Consume(v, st, chunk[..i], atof), chunk[i], atof)
  {
    assert chunk[..i + 1] + chunk[i + 1..] == chunk;
    ConsumeSplit(v, st, chunk[..i + 1], chunk[i + 1..], atof);
    assert chunk[..i + 1] == chunk[..i] + [chunk[i]];
    ConsumeByte(v, st, chunk[..i], chunk[i], atof);
  }

  /** What one call of `READ` hands the loop: its return value and the buffer it filled. */
  datatype ReadResult = ReadResult(n: int, buffer: string)

  /** `READ` never reports more bytes than its buffer holds. */
  type Read = r: ReadResult | r.n <= |r.buffer| witness ReadResult(0, "")

  /** The bytes a read delivers: none unless it returned a positive count. */
  function Received(r: Read): string
  {
    if r.n > 0 then r.buffer[..r.n] else ""
  }

  /** All bytes a sequence of calls delivers, in order. */
  function Delivered(calls: seq<Read>): string
    decreases |calls|
  {
    if calls == [] then "" else Received(calls[0]) + Delivered(calls[1..])
  }

  /** Reads concatenate: the bytes of `a + b` are those of `a` followed by those of `b`. */
  lemma {:induction false} DeliveredAppend(a: seq<Read>, b: seq<Read>)
    ensures Delivered(a + b) == Delivered(a) + Delivered(b)
    decreases |a|
  {
    if a == [] {
      assert a + b == b;
    } else {
      assert (a + b)[0] == a[0];
      assert (a + b)[1..] == a[1..] + b;
      DeliveredAppend(a[1..], b);
    }
  }

  /**
   * The step of the receive loop at call `k`: consuming what calls `k..`
   * deliver is consuming what call `k` delivers and then the rest.
   */
  lemma ReceiveNext(v: Variant, st: DecoderState, calls: seq<Read>, k: nat, atof: string -> real)
    requires k < |calls| && ReadDefined(v, st.partial, Delivered(calls[k..]))
    ensures ReadDefined(v, st.partial, Received(calls[k]))
    ensures ReadDefined(v, Consume(v, st, Received(calls[k]), atof).partial, Delivered(calls[k + 1..]))
    ensures Consume(v, st, Delivered(calls[k..]), atof)
         == Consume(v, Consume(v, st, Received(calls[k]), atof), Delivered(calls[k + 1..]), atof)
  {
    assert calls[k..][0] == calls[k] && calls[k..][1..] == calls[k + 1..];
    ConsumeSplit(v, st, Received(calls[k]), Delivered(calls[k + 1..]), atof);
  }

  class Receiver {
    /** Which of the two receive loops this models. */
    const variant: Variant
    /** The text-to-number conversion `atof` stands for. */
    const atof: string -> real

    /** `line_sensors[5]`, `proximity_distance`, `color_r`, `color_g`, `color_b` of `SocketClient`. */
    const lineSensors: array<real>
    var proximityDistance: real
    var colorR: real
    var colorG: real
    var colorB: real

    /** The receive loop's `line_buffer[2048]` and `line_pos`, kept across calls. */
    const lineBuffer: array<char>
    var linePos: int

    ghost predicate Valid()
      reads this
    {
      && lineSensors.Length == 5
      && lineBuffer.Length == LineCapacity + 1
      && 0 <= linePos <= LineCapacity
    }

    function Snap(): Snapshot
      reads this, lineSensors
      requires Valid()
    {
      Snapshot(lineSensors[..], proximityDistance, colorR, colorG, colorB)
    }

    function Partial(): string
      reads this, lineBuffer
      requires Valid()
    {
      lineBuffer[..linePos]
    }

    function State(): DecoderState
      reads this, lineSensors, lineBuffer
      requires Valid()
    {
      DecoderState(Partial(), Snap())
    }

    /** A zero-initialised client with an empty line buffer. */
    constructor (variant: Variant, atof: string -> real)
      ensures Valid() && fresh(lineSensors) && fresh(lineBuffer)
      ensures this.variant == variant && this.atof == atof
      ensures State() == DecoderState("", Initial)
    {
      this.variant := variant;
      this.atof := atof;
      lineSensors := new real[5](_ => 0.0);
      lineBuffer := new char[LineCapacity + 1](_ => '\0');
      linePos := 0;
      proximityDistance, colorR, colorG, colorB := 0.0, 0.0, 0.0, 0.0;
      new;
      assert lineSensors[..] == [0.0, 0.0, 0.0, 0.0, 0.0];
    }

    /** `S:` in coppeliasim_client.h: cut the payload at each `,` with `strchr` and write slot after slot. */
    method ParseSensorsHeader(payload: string)
      requires Valid()
      modifies lineSensors
      ensures lineSensors[..] == WriteSlots(old(lineSensors[..]), SplitOn(payload, ','), atof)
    {
      ghost var pieces := SplitOn(payload, ',');
      ghost var before := lineSensors[..];
      var token := payload;
      var idx := 0;
      var more := true;
      while more
        invariant 0 <= idx <= 5 && idx <= |pieces|
        invariant more ==> idx < 5 && idx < |pieces| && pieces[idx..] == SplitOn(token, ',')
        invariant !more ==> idx == |pieces| || idx == 5
        invariant lineSensors[..] == WriteSlots(before, pieces[..idx], atof)
        decreases 5 - idx
      {
        var (head, next) := Cut(token, ',');
        assert pieces[idx] == head;
        WriteSlotsStep(before, pieces, idx, atof);
        lineSensors[idx] := atof(head);
        idx := idx + 1;
        match next
        case None =>
          more := false;
        case Some(tail) =>
          assert pieces[idx..] == SplitOn(tail, ',');
          token := tail;
          more := idx < 5;
      }
      WriteSlotsDone(before, pieces, idx, atof);
    }

    /** `S:` in botoverturns.c: `strtok` the payload and write slot after slot while fewer than five are written. */
    method ParseSensorsStrtok(payload: string)
      requires Valid()
      modifies lineSensors
      ensures lineSensors[..] == WriteSlots(old(lineSensors[..]), Tokens(payload, ','), atof)
    {
      ghost var tokens := Tokens(payload, ',');
      ghost var before := lineSensors[..];
      ghost var remaining := payload;
      var idx := 0;
      var tok := NextToken(payload, ',');
      while tok.Some? && idx < 5
        invariant 0 <= idx <= 5 && idx <= |tokens|
        invariant tok == NextToken(remaining, ',') && tokens[idx..] == Tokens(remaining, ',')
        invariant lineSensors[..] == WriteSlots(before, tokens[..idx], atof)
        decreases 5 - idx
      {
        assert Tokens(remaining, ',') == [tok.value.0] + Tokens(tok.value.1, ',');
        assert tokens[idx] == tok.value.0 && tokens[idx + 1..] == Tokens(tok.value.1, ',');
        WriteSlotsStep(before, tokens, idx, atof);
        lineSensors[idx] := atof(tok.value.0);
        idx := idx + 1;
        remaining := tok.value.1;
        tok := NextToken(tok.value.1, ',');
      }
      assert tok.None? ==> Tokens(remaining, ',') == [];
      WriteSlotsDone(before, tokens, idx, atof);
    }

    /** `C:` in coppeliasim_client.h: red always, green and blue only when their commas are there. */
    method ParseColourHeader(payload: string)
      requires Valid()
      modifies this
      ensures Valid() && linePos == old(linePos)
      ensures Snap() == HeaderColour(old(Snap()), payload, atof)
    {
      var (rText, afterR) := Cut(payload, ',');
      colorR := atof(rText);
      match afterR
      case None =>
      case Some(gb) =>
        var (gText, afterG) := Cut(gb, ',');
        colorG := atof(gText);
        match afterG
        case None =>
        case Some(bText) =>
          colorB := atof(bText);
    }

    /** `C:` in botoverturns.c: three `strtok` calls, one per channel. */
    method ParseColourStrtok(payload: string)
      requires Valid() && |Tokens(payload, ',')| >= 3
      modifies this
      ensures Valid() && linePos == old(linePos)
      ensures var tokens := Tokens(payload, ',');
              Snap() == old(Snap()).(r := atof(tokens[0]), g := atof(tokens[1]), b := atof(tokens[2]))
    {
      ghost var tokens := Tokens(payload, ',');
      var first := NextToken(payload, ',');
      assert first.Some? && tokens == [first.value.0] + Tokens(first.value.1, ',');
      colorR := atof(first.value.0);
      var second := NextToken(first.value.1, ',');
      assert second.Some? && tokens == [first.value.0, second.value.0] + Tokens(second.value.1, ',');
      colorG := atof(second.value.0);
      var third := NextToken(second.value.1, ',');
      assert third.Some? && tokens[2] == third.value.0;
      colorB := atof(third.value.0);
    }

    /** Dispatch one segment on its tag; untagged segments change nothing. */
    method ParseSegment(seg: string)
      requires Valid() && SegmentDefined(variant, seg)
      modifies this, lineSensors
      ensures Valid() && linePos == old(linePos)
      ensures Snap() == ApplySegment(variant, old(Snap()), seg, atof)
    {
      if HasTag(seg, "S:") {
        if variant.Header? {
          ParseSensorsHeader(seg[2..]);
        } else {
          ParseSensorsStrtok(seg[2..]);
        }
      } else if HasTag(seg, "P:") {
        proximityDistance := atof(seg[2..]);
      } else if HasTag(seg, "C:") {
        if variant.Header? {
          ParseColourHeader(seg[2..]);
        } else {
          ParseColourStrtok(seg[2..]);
        }
      }
    }

    /** The `;` loop over one complete line. */
    method ParseLine(line: string)
      requires Valid() && RecordDefined(variant, line)
      modifies this, lineSensors
      ensures Valid() && linePos == old(linePos)
      ensures Snap() == ApplyRecord(variant, old(Snap()), line, atof)
    {
      var rest := line;
      var more := true;
      while more
        invariant Valid() && linePos == old(linePos)
        invariant more ==> RecordDefined(variant, rest)
                           && ApplyRecord(variant, old(Snap()), line, atof) == ApplyRecord(variant, Snap(), rest, atof)
        invariant !more ==> Snap() == ApplyRecord(variant, old(Snap()), line, atof)
        decreases |rest| + (if more then 1 else 0)
      {
        RecordDefinedFirst(variant, rest);
        var (seg, next) := Cut(rest, ';');
        ParseSegment(seg);
        match next
        case None =>
          more := false;
        case Some(tail) =>
          rest := tail;
      }
    }

    /** One byte of a read: a `\n` parses the line buffer's text up to its first NUL and resets `line_pos`; another byte is stored while there is room. */
    method FeedByte(c: char)
      requires Valid() && ByteDefined(variant, State(), c)
      modifies this, lineSensors, lineBuffer
      ensures Valid()
      ensures State() == ConsumeOne(variant, old(State()), c, atof)
    {
      if c == '\n' {
        ParseLine(CString(lineBuffer[..linePos]));
        linePos := 0;
      } else if linePos < LineCapacity {
        lineBuffer[linePos] := c;
        linePos := linePos + 1;
        assert lineBuffer[..linePos] == old(lineBuffer[..linePos]) + [c];
      }
    }

    /** The byte loop over one read. */
    method Feed(chunk: string)
      requires Valid() && ReadDefined(variant, Partial(), chunk)
      modifies this, lineSensors, lineBuffer
      ensures Valid()
      ensures State() == Consume(variant, old(State()), chunk, atof)
    {
      ghost var start := State();
      var i := 0;
      while i < |chunk|
        invariant Valid() && 0 <= i <= |chunk|
        invariant ReadDefined(variant, start.partial, chunk[..i])
        invariant State() == Consume(variant, start, chunk[..i], atof)
      {
        ConsumeNext(variant, start, chunk, i, atof);
        FeedByte(chunk[i]);
        i := i + 1;
      }
      assert chunk[..i] == chunk;
    }

    /** One pass of the outer loop: a read that returned `n <= 0` changes nothing. */
    method Receive(n: int, buffer: string)
      requires Valid() && n <= |buffer|
      requires ReadDefined(variant, Partial(), Received(ReadResult(n, buffer)))
      modifies this, lineSensors, lineBuffer
      ensures Valid()
      ensures State() == Consume(variant, old(State()), Received(ReadResult(n, buffer)), atof)
      ensures n <= 0 ==> State() == old(State())
    {
      if n > 0 {
        Feed(buffer[..n]);
      }
    }

    /** The receive loop over the calls made while `running` holds. */
    method ReceiveLoop(calls: seq<Read>)
      requires Valid()
      requires ReadDefined(variant, Partial(), Delivered(calls))
      modifies this, lineSensors, lineBuffer
      ensures Valid()
      ensures State() == Consume(variant, old(State()), Delivered(calls), atof)
    {
      ghost var start := State();
      assert calls[0..] == calls;
      var k := 0;
      while k < |calls|
        invariant Valid() && 0 <= k <= |calls|
        invariant ReadDefined(variant, Partial(), Delivered(calls[k..]))
        invariant Consume(variant, start, Delivered(calls), atof)
               == Consume(variant, State(), Delivered(calls[k..]), atof)
      {
        ReceiveNext(variant, State(), calls, k, atof);
        Receive(calls[k].n, calls[k].buffer);
        k := k + 1;
      }
      assert Frame(Partial(), "") == Framed([], Partial());
    }
  }
}
