/**
 * The sensor snapshot that both telemetry decoders write, and the C string
 * primitives their parsers are built from: `strcpy` (stop at the first NUL),
 * `strchr` followed by cutting the string in place, and `strtok`.
 *
 * A byte of the stream is a Dafny `char`; the protocol is plain text.
 */
module Telemetry {

  datatype Option<T> = None | Some(value: T)

  /** Five line-sensor readings: left corner, left, middle, right, right corner. */
  type Sensors = s: seq<real> | |s| == 5 witness [0.0, 0.0, 0.0, 0.0, 0.0]

  /** The sensor fields of `SocketClient`. */
  datatype Snapshot = Snapshot(line: Sensors, proximity: real, r: real, g: real, b: real)

  /**
   * The line-sensor slots after `arr[idx++] = atof(token)` has run for the
   * tokens in order while fewer than five slots are written: slot `i` takes
   * token `i` when there is one and keeps its value otherwise.
   */
  function WriteSlots(slots: Sensors, tokens: seq<string>, atof: string -> real): Sensors
  {
    seq(5, i requires 0 <= i < 5 => if i < |tokens| then atof(tokens[i]) else slots[i])
  }

  /** Writing one more token changes exactly the next slot. */
  lemma WriteSlotsStep(slots: Sensors, tokens: seq<string>, n: nat, atof: string -> real)
    requires n < |tokens| && n < 5
    ensures WriteSlots(slots, tokens[..n + 1], atof) == WriteSlots(slots, tokens[..n], atof)[n := atof(tokens[n])]
  {
  }

  /** Once every token, or five of them, is written, the slots are final. */
  lemma WriteSlotsDone(slots: Sensors, tokens: seq<string>, n: nat, atof: string -> real)
    requires n <= |tokens| && (n == |tokens| || n == 5)
    ensures WriteSlots(slots, tokens[..n], atof) == WriteSlots(slots, tokens, atof)
  {
  }

  /** A zero-initialised `SocketClient`, as the global `client` starts. */
  const Initial: Snapshot := Snapshot([0.0, 0.0, 0.0, 0.0, 0.0], 0.0, 0.0, 0.0, 0.0)

  /** `strncmp(seg, tag, 2) == 0` for a two-character tag. */
  predicate HasTag(seg: string, tag: string)
    requires |tag| == 2
  {
    |seg| >= 2 && seg[..2] == tag
  }

  /**
   * `strcpy` of a buffer: the text up to, and not including, the first NUL.
   * The contract pins the result down: a NUL-free prefix that stops either at
   * the end of the buffer or at a NUL.
   */
  function CString(s: string): (r: string)
    ensures r <= s
    ensures '\0' !in r
    ensures |r| < |s| ==> s[|r|] == '\0'
  {
    if s == [] || s[0] == '\0' then [] else [s[0]] + CString(s[1..])
  }

  /**
   * `next = strchr(s, sep); if (next) { *next = '\0'; next++; }`: the text
   * before the first `sep` and, when there is a `sep`, the text after it.
   */
  function Cut(s: string, sep: char): (r: (string, Option<string>))
    ensures sep !in r.0
    ensures r.1.None? ==> r.0 == s
    ensures r.1.Some? ==> s == r.0 + [sep] + r.1.value
  {
    if s == [] then ("", None)
    else if s[0] == sep then ("", Some(s[1..]))
    else
      var (head, rest) := Cut(s[1..], sep);
      ([s[0]] + head, rest)
  }

  /** The inverse of concatenation around one separator: `Cut` finds the first `sep`. */
  lemma {:induction false} CutAt(a: string, b: string, sep: char)
    requires sep !in a
    ensures Cut(a + [sep] + b, sep) == (a, Some(b))
    decreases |a|
  {
    if a != [] {
      var s := a + [sep] + b;
      assert s[0] == a[0] != sep;
      assert s[1..] == a[1..] + [sep] + b;
      CutAt(a[1..], b, sep);
      assert [a[0]] + a[1..] == a;
    }
  }

  /** A string with no `sep` is not cut. */
  lemma {:induction false} CutNone(s: string, sep: char)
    requires sep !in s
    ensures Cut(s, sep) == (s, None)
    decreases |s|
  {
    if s != [] {
      CutNone(s[1..], sep);
    }
  }

  /** `pieces` glued back together with `sep` between consecutive pieces. */
  function Join(pieces: seq<string>, sep: char): string
    requires |pieces| >= 1
  {
    if |pieces| == 1 then pieces[0] else pieces[0] + [sep] + Join(pieces[1..], sep)
  }

  /**
   * The pieces a `strchr` cutting loop visits: every piece, empty ones
   * included, between consecutive `sep`s. Gluing the pieces back gives the
   * input, and no piece holds a separator.
   */
  function SplitOn(s: string, sep: char): (pieces: seq<string>)
    ensures |pieces| >= 1
    ensures forall i :: 0 <= i < |pieces| ==> sep !in pieces[i]
    ensures Join(pieces, sep) == s
    decreases |s|
  {
    var (head, rest) := Cut(s, sep);
    match rest
    case None => [head]
    case Some(tail) => [head] + SplitOn(tail, sep)
  }

  /** Splitting undoes joining when no piece holds the separator. */
  lemma {:induction false} SplitJoin(pieces: seq<string>, sep: char)
    requires |pieces| >= 1
    requires forall i :: 0 <= i < |pieces| ==> sep !in pieces[i]
    ensures SplitOn(Join(pieces, sep), sep) == pieces
    decreases |pieces|
  {
    if |pieces| == 1 {
      CutNone(pieces[0], sep);
    } else {
      CutAt(pieces[0], Join(pieces[1..], sep), sep);
      SplitJoin(pieces[1..], sep);
    }
  }

  /** The pieces that are not empty, in order. */
  function NonEmpty(pieces: seq<string>): (r: seq<string>)
    ensures forall i :: 0 <= i < |r| ==> r[i] != ""
    ensures |r| <= |pieces|
  {
    if pieces == [] then []
    else (if pieces[0] == "" then [] else [pieces[0]]) + NonEmpty(pieces[1..])
  }

  /**
   * One call of `strtok(s, sep)`: skip leading separators; the token is the
   * longest run without a separator; scanning resumes after the separator
   * that ended it (or at the end of the string). No token when only
   * separators remain.
   */
  function NextToken(s: string, sep: char): (r: Option<(string, string)>)
    ensures r.None? <==> forall i :: 0 <= i < |s| ==> s[i] == sep
    ensures r.Some? ==> r.value.0 != "" && sep !in r.value.0 && |r.value.1| < |s|
    decreases |s|
  {
    if s == [] then None
    else if s[0] == sep then NextToken(s[1..], sep)
    else
      var (token, rest) := Cut(s, sep);
      Some((token, match rest case None => "" case Some(tail) => tail))
  }

  /** Every token successive `strtok` calls return on `s`. */
  function Tokens(s: string, sep: char): seq<string>
    decreases |s|
  {
    match NextToken(s, sep)
    case None => []
    case Some((token, rest)) => [token] + Tokens(rest, sep)
  }

  /** `strtok` returns exactly the non-empty pieces that `strchr` cutting visits. */
  lemma {:induction false} TokensSkipEmpty(s: string, sep: char)
    ensures Tokens(s, sep) == NonEmpty(SplitOn(s, sep))
    decreases |s|
  {
    if s == [] {
      assert SplitOn(s, sep) == [""];
    } else if s[0] == sep {
      assert Cut(s, sep) == ("", Some(s[1..]));
      assert SplitOn(s, sep) == [""] + SplitOn(s[1..], sep);
      assert NonEmpty(SplitOn(s, sep)) == NonEmpty(SplitOn(s[1..], sep));
      TokensSkipEmpty(s[1..], sep);
    } else {
      var (token, rest) := Cut(s, sep);
      assert token != "" by { assert token[0] == s[0]; }
      match rest
      case None =>
        assert Tokens("", sep) == [];
      case Some(tail) =>
        assert SplitOn(s, sep) == [token] + SplitOn(tail, sep);
        assert NonEmpty(SplitOn(s, sep)) == [token] + NonEmpty(SplitOn(tail, sep));
        TokensSkipEmpty(tail, sep);
    }
  }
}
