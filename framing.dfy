/**
 * Newline framing, identical in both receive loops: every byte read is
 * consumed in order; a `\n` closes the record collected so far and empties
 * the line buffer; any other byte is appended while the buffer holds fewer
 * than 2047 characters and dropped otherwise. The buffer lives outside the
 * read loop, so a partial line carries over to the next read.
 *
 * `Frame` is the pure reference the imperative receive loop in `Decoder` is
 * proved against.
 */
module Framing {

  /** `line_buffer` / `line` hold 2048 chars, one of them kept for the NUL. */
  const LineCapacity: nat := 2047

  /** The records completed so far and the partial line since the last `\n`. */
  datatype Framed = Framed(records: seq<string>, partial: string)

  /** What one byte of a read does to the framing state. */
  function FrameByte(f: Framed, c: char): Framed
  {
    if c == '\n' then Framed(f.records + [f.partial], "")
    else if |f.partial| < LineCapacity then Framed(f.records, f.partial + [c])
    else f
  }

  /** The bytes of `bytes`, consumed left to right starting from `f`. */
  function FrameFrom(f: Framed, bytes: string): Framed
    decreases |bytes|
  {
    if bytes == [] then f
    else FrameByte(FrameFrom(f, bytes[..|bytes| - 1]), bytes[|bytes| - 1])
  }

  /** The records completed and the partial line left by `bytes`, given the partial line before. */
  function Frame(partial: string, bytes: string): Framed
  {
    FrameFrom(Framed([], partial), bytes)
  }

  /** The first `LineCapacity` characters of a line: what the line buffer keeps of it. */
  function Truncate(s: string): string
  {
    if |s| <= LineCapacity then s else s[..LineCapacity]
  }

  /** The number of `\n` bytes in `s`. */
  function NewlineCount(s: string): nat
    decreases |s|
  {
    if s == [] then 0
    else NewlineCount(s[..|s| - 1]) + (if s[|s| - 1] == '\n' then 1 else 0)
  }

  /** The wire encoding of a list of records: each one followed by `\n`. */
  function Encode(lines: seq<string>): string
    decreases |lines|
  {
    if lines == [] then "" else Encode(lines[..|lines| - 1]) + lines[|lines| - 1] + "\n"
  }

  /** Consuming `a + b` is consuming `a` and then `b`. */
  lemma {:induction false} FrameFromAppend(f: Framed, a: string, b: string)
    ensures FrameFrom(f, a + b) == FrameFrom(FrameFrom(f, a), b)
    decreases |b|
  {
    if b == [] {
      assert a + b == a;
    } else {
      var n := |b| - 1;
      assert (a + b)[..|a + b| - 1] == a + b[..n];
      assert (a + b)[|a + b| - 1] == b[n];
      FrameFromAppend(f, a, b[..n]);
    }
  }

  /** Records already completed are never touched again; new ones are appended after them. */
  lemma {:induction false} FrameFromRecords(f: Framed, bytes: string)
    ensures FrameFrom(f, bytes).records == f.records + Frame(f.partial, bytes).records
    ensures FrameFrom(f, bytes).partial == Frame(f.partial, bytes).partial
    decreases |bytes|
  {
    if bytes != [] {
      FrameFromRecords(f, bytes[..|bytes| - 1]);
    }
  }

  /**
   * Split invariance: one read of `a + b` completes the same records, in the
   * same order, and leaves the same partial line as a read of `a` followed by
   * a read of `b`.
   */
  lemma FrameSplit(partial: string, a: string, b: string)
    ensures Frame(partial, a + b).records
         == Frame(partial, a).records + Frame(Frame(partial, a).partial, b).records
    ensures Frame(partial, a + b).partial == Frame(Frame(partial, a).partial, b).partial
  {
    FrameFromAppend(Framed([], partial), a, b);
    FrameFromRecords(Frame(partial, a), b);
  }

  /** Each `\n` completes exactly one record, and nothing else does. */
  lemma {:induction false} RecordPerNewline(partial: string, bytes: string)
    ensures |Frame(partial, bytes).records| == NewlineCount(bytes)
    decreases |bytes|
  {
    if bytes != [] {
      RecordPerNewline(partial, bytes[..|bytes| - 1]);
    }
  }

  /** The line buffer never holds more than 2047 characters, and no record is longer. */
  lemma {:induction false} LineBounded(partial: string, bytes: string)
    requires |partial| <= LineCapacity
    ensures |Frame(partial, bytes).partial| <= LineCapacity
    ensures forall i :: 0 <= i < |Frame(partial, bytes).records| ==>
              |Frame(partial, bytes).records[i]| <= LineCapacity
    decreases |bytes|
  {
    if bytes != [] {
      LineBounded(partial, bytes[..|bytes| - 1]);
    }
  }

  /** Without a `\n`, a read only extends the partial line, up to its first 2047 characters. */
  lemma {:induction false} FrameWithoutNewline(partial: string, bytes: string)
    requires |partial| <= LineCapacity
    requires '\n' !in bytes
    ensures Frame(partial, bytes) == Framed([], Truncate(partial + bytes))
    decreases |bytes|
  {
    if bytes == [] {
      assert partial + bytes == partial;
    } else {
      var n := |bytes| - 1;
      FrameWithoutNewline(partial, bytes[..n]);
      assert partial + bytes == (partial + bytes[..n]) + [bytes[n]];
      if |partial + bytes[..n]| >= LineCapacity {
        assert (partial + bytes)[..LineCapacity] == (partial + bytes[..n])[..LineCapacity];
      }
    }
  }

  /** After the last `\n` of a read, the partial line is exactly (the kept prefix of) what follows it. */
  lemma PartialAfterLastNewline(partial: string, a: string, b: string)
    requires '\n' !in b
    ensures Frame(partial, a + "\n" + b).partial == Truncate(b)
    ensures |Frame(partial, a + "\n" + b).records| == |Frame(partial, a).records| + 1
  {
    FrameSplit(partial, a + "\n", b);
    FrameSplit(partial, a, "\n");
    assert Frame(Frame(partial, a).partial, "\n") == Framed([Frame(partial, a).partial], "");
    FrameWithoutNewline("", b);
    assert "" + b == b;
  }

  /** One newline-free line followed by `\n` completes that line (its kept prefix) and empties the buffer. */
  lemma FrameLine(line: string)
    requires '\n' !in line
    ensures Frame("", line + "\n") == Framed([Truncate(line)], "")
  {
    FrameSplit("", line, "\n");
    FrameWithoutNewline("", line);
    assert "" + line == line;
    assert Frame(Truncate(line), "\n") == Framed([Truncate(line)], "");
  }

  /**
   * Round trip: framing the encoding of newline-free lines gives back those
   * lines (each cut to 2047 characters) and leaves the line buffer empty.
   */
  lemma {:induction false} FrameEncode(lines: seq<string>)
    requires forall i :: 0 <= i < |lines| ==> '\n' !in lines[i]
    ensures Frame("", Encode(lines)).records == seq(|lines|, i requires 0 <= i < |lines| => Truncate(lines[i]))
    ensures Frame("", Encode(lines)).partial == ""
    decreases |lines|
  {
    if lines != [] {
      var n := |lines| - 1;
      var init, last := lines[..n], lines[n];
      FrameEncode(init);
      assert Encode(lines) == Encode(init) + (last + "\n");
      FrameSplit("", Encode(init), last + "\n");
      FrameLine(last);
      assert seq(|lines|, i requires 0 <= i < |lines| => Truncate(lines[i]))
          == seq(n, i requires 0 <= i < n => Truncate(init[i])) + [Truncate(last)];
    }
  }
}
