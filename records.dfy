/**
 * Parsing of one complete telemetry record: the record is cut at each `;`
 * and every segment is dispatched on its two-character tag (`S:` line
 * sensors, `P:` proximity, `C:` colour; anything else is ignored). Segments
 * are applied left to right and fields a segment does not supply keep their
 * values.
 *
 * The two receive loops share the `;` loop and differ in how a payload is
 * cut at `,`: coppeliasim_client.h cuts with `strchr` (empty pieces count),
 * botoverturns.c with `strtok` (empty pieces are skipped). `atof` is a
 * parameter: any total conversion from text to a number.
 */
module Records {
  import opened Telemetry

  /** Which receive loop parses the record. */
  datatype Variant =
    | Header   // coppeliasim_client.h: strchr cutting, payloads copied into values_copy[256]
    | Strtok   // botoverturns.c: strtok in place

  /** `values_copy` holds 256 chars, one of them the NUL `strcpy` writes. */
  const CopyCapacity: nat := 256

  // ---------------------------------------------------------------------
  // coppeliasim_client.h

  /** The `S:` and `C:` payloads are copied into `values_copy[256]`: longer ones overflow it. */
  predicate HeaderSegmentFits(seg: string)
  {
    (HasTag(seg, "S:") || HasTag(seg, "C:")) ==> |seg| - 2 < CopyCapacity
  }

  /**
   * `C:` in the header: `color_r` always takes the text before the first
   * comma; `color_g` the text between the first and second comma, if there is
   * a comma; `color_b` everything after the second comma, if there is one.
   */
  function HeaderColour(snap: Snapshot, payload: string, atof: string -> real): Snapshot
  {
    var (rText, afterR) := Cut(payload, ',');
    match afterR
    case None => snap.(r := atof(rText))
    case Some(gb) =>
      var (gText, afterG) := Cut(gb, ',');
      match afterG
      case None => snap.(r := atof(rText), g := atof(gText))
      case Some(bText) => snap.(r := atof(rText), g := atof(gText), b := atof(bText))
  }

  function HeaderSegment(snap: Snapshot, seg: string, atof: string -> real): Snapshot
    requires HeaderSegmentFits(seg)
  {
    if HasTag(seg, "S:") then snap.(line := WriteSlots(snap.line, SplitOn(seg[2..], ','), atof))
    else if HasTag(seg, "P:") then snap.(proximity := atof(seg[2..]))
    else if HasTag(seg, "C:") then HeaderColour(snap, seg[2..], atof)
    else snap
  }

  // ---------------------------------------------------------------------
  // botoverturns.c

  /** `C:` calls `strtok` three times and hands each result to `atof`: fewer than three tokens passes it NULL. */
  predicate StrtokSegmentDefined(seg: string)
  {
    HasTag(seg, "C:") ==> |Tokens(seg[2..], ',')| >= 3
  }

  function StrtokSegment(snap: Snapshot, seg: string, atof: string -> real): Snapshot
    requires StrtokSegmentDefined(seg)
  {
    if HasTag(seg, "S:") then snap.(line := WriteSlots(snap.line, Tokens(seg[2..], ','), atof))
    else if HasTag(seg, "P:") then snap.(proximity := atof(seg[2..]))
    else if HasTag(seg, "C:") then
      var tokens := Tokens(seg[2..], ',');
      snap.(r := atof(tokens[0]), g := atof(tokens[1]), b := atof(tokens[2]))
    else snap
  }

  // ---------------------------------------------------------------------
  // Shared by both

  /** A segment the variant parses without undefined behaviour. */
  predicate SegmentDefined(v: Variant, seg: string)
  {
    match v
    case Header => HeaderSegmentFits(seg)
    case Strtok => StrtokSegmentDefined(seg)
  }

  /** Every `;`-separated segment of the record is one the variant can parse. */
  predicate RecordDefined(v: Variant, line: string)
  {
    forall i :: 0 <= i < |SplitOn(line, ';')| ==> SegmentDefined(v, SplitOn(line, ';')[i])
  }

  function ApplySegment(v: Variant, snap: Snapshot, seg: string, atof: string -> real): Snapshot
    requires SegmentDefined(v, seg)
  {
    match v
    case Header => HeaderSegment(snap, seg, atof)
    case Strtok => StrtokSegment(snap, seg, atof)
  }

  /** The first segment of a record and the rest of the record. */
  lemma SplitFirst(line: string)
    ensures SplitOn(line, ';')[0] == Cut(line, ';').0
    ensures Cut(line, ';').1.Some? ==>
              SplitOn(line, ';') == [Cut(line, ';').0] + SplitOn(Cut(line, ';').1.value, ';')
  {
  }

  /** A parsable record starts with a parsable segment and continues with a parsable record. */
  lemma RecordDefinedFirst(v: Variant, line: string)
    requires RecordDefined(v, line)
    ensures SegmentDefined(v, Cut(line, ';').0)
    ensures Cut(line, ';').1.Some? ==> RecordDefined(v, Cut(line, ';').1.value)
  {
    SplitFirst(line);
    var (seg, rest) := Cut(line, ';');
    if rest.Some? {
      var tail := rest.value;
      forall i | 0 <= i < |SplitOn(tail, ';')|
        ensures SegmentDefined(v, SplitOn(tail, ';')[i])
      {
        assert SplitOn(tail, ';')[i] == SplitOn(line, ';')[i + 1];
      }
    }
  }

  /**
   * The `do { next = strchr(seg, ';'); ... seg = next; } while (seg)` loop:
   * apply the segment before the first `;`, then the rest of the record.
   */
  function ApplyRecord(v: Variant, snap: Snapshot, line: string, atof: string -> real): Snapshot
    requires RecordDefined(v, line)
    decreases |line|
  {
    RecordDefinedFirst(v, line);
    var (seg, rest) := Cut(line, ';');
    var next := ApplySegment(v, snap, seg, atof);
    match rest
    case None => next
    case Some(tail) => ApplyRecord(v, next, tail, atof)
  }

  /** Every segment of the list is one the variant can parse. */
  predicate AllDefined(v: Variant, segs: seq<string>)
  {
    forall k :: 0 <= k < |segs| ==> SegmentDefined(v, segs[k])
  }

  /** Segments applied one after another, left to right. */
  function ApplySegments(v: Variant, snap: Snapshot, segs: seq<string>, atof: string -> real): Snapshot
    requires AllDefined(v, segs)
    decreases |segs|
  {
    if segs == [] then snap else ApplySegments(v, ApplySegment(v, snap, segs[0], atof), segs[1..], atof)
  }

  /** A record is its `;`-separated segments applied in order, left to right. */
  lemma {:induction false} RecordIsSegmentsInOrder(v: Variant, snap: Snapshot, line: string, atof: string -> real)
    requires RecordDefined(v, line)
    ensures ApplyRecord(v, snap, line, atof) == ApplySegments(v, snap, SplitOn(line, ';'), atof)
    decreases |line|
  {
    SplitFirst(line);
    var (seg, rest) := Cut(line, ';');
    var segs := SplitOn(line, ';');
    match rest
    case None =>
      assert segs == [seg];
    case Some(tail) =>
      assert segs[1..] == SplitOn(tail, ';');
      RecordDefinedFirst(v, line);
      RecordIsSegmentsInOrder(v, ApplySegment(v, snap, seg, atof), tail, atof);
  }

  /** A segment whose first two characters are not `S:`, `P:` or `C:`. */
  predicate Untagged(seg: string)
  {
    !HasTag(seg, "S:") && !HasTag(seg, "P:") && !HasTag(seg, "C:")
  }

  /**
   * A record none of whose segments carries a known tag (the empty line
   * among them) changes nothing.
   */
  lemma {:induction false} UntaggedRecordChangesNothing(v: Variant, snap: Snapshot, line: string, atof: string -> real)
    requires forall i :: 0 <= i < |SplitOn(line, ';')| ==> Untagged(SplitOn(line, ';')[i])
    ensures RecordDefined(v, line)
    ensures ApplyRecord(v, snap, line, atof) == snap
    decreases |line|
  {
    SplitFirst(line);
    var (seg, rest) := Cut(line, ';');
    match rest
    case None =>
    case Some(tail) =>
      forall i | 0 <= i < |SplitOn(tail, ';')|
        ensures Untagged(SplitOn(tail, ';')[i])
      {
        assert SplitOn(tail, ';')[i] == SplitOn(line, ';')[i + 1];
      }
      UntaggedRecordChangesNothing(v, snap, tail, atof);
  }

  /** `P:` sets the proximity to the rest of the segment and touches nothing else, in both variants. */
  lemma ProximitySegment(v: Variant, snap: Snapshot, text: string, atof: string -> real)
    ensures SegmentDefined(v, "P:" + text)
    ensures ApplySegment(v, snap, "P:" + text, atof) == snap.(proximity := atof(text))
  {
    var seg := "P:" + text;
    assert seg[..2] == "P:" && seg[2..] == text;
  }

  /** How many fields a segment writes: the slots an `S:` fills, one for `P:`, the channels a `C:` fills. */
  function Coverage(v: Variant, seg: string): nat
  {
    if HasTag(seg, "S:") then
      var n := |(match v case Header => SplitOn(seg[2..], ',') case Strtok => Tokens(seg[2..], ','))|;
      if n < 5 then n else 5
    else if HasTag(seg, "P:") then 1
    else if HasTag(seg, "C:") then
      match v
      case Header => var n := |SplitOn(seg[2..], ',')|; if n < 3 then n else 3
      case Strtok => 3
    else 0
  }

  /**
   * `C:` in the header, read through its pieces: `color_r` is always written,
   * `color_g` exactly when there is a comma, `color_b` exactly when there are
   * two, with everything after the second comma as its text.
   */
  lemma HeaderColourPieces(snap: Snapshot, payload: string, atof: string -> real)
    ensures var pieces := SplitOn(payload, ',');
            var after := HeaderColour(snap, payload, atof);
            && after.line == snap.line && after.proximity == snap.proximity
            && after.r == atof(pieces[0])
            && after.g == (if |pieces| >= 2 then atof(pieces[1]) else snap.g)
            && after.b == (if |pieces| >= 3 then atof(Join(pieces[2..], ',')) else snap.b)
  {
    var (rText, afterR) := Cut(payload, ',');
    match afterR
    case None =>
    case Some(gb) =>
      var (gText, afterG) := Cut(gb, ',');
      assert SplitOn(payload, ',') == [rText] + SplitOn(gb, ',');
      match afterG
      case None =>
      case Some(bText) =>
        assert SplitOn(gb, ',') == [gText] + SplitOn(bText, ',');
        assert SplitOn(payload, ',')[2..] == SplitOn(bText, ',');
  }

  /**
   * A later segment with the same tag overwrites an earlier one: when it
   * writes at least as many fields, the earlier segment leaves no trace.
   */
  lemma LaterSegmentOverwrites(v: Variant, snap: Snapshot, first: string, second: string, atof: string -> real)
    requires SegmentDefined(v, first) && SegmentDefined(v, second)
    requires |first| >= 2 && |second| >= 2 && first[..2] == second[..2]
    requires Coverage(v, second) >= Coverage(v, first)
    ensures ApplySegment(v, ApplySegment(v, snap, first, atof), second, atof)
         == ApplySegment(v, snap, second, atof)
  {
    if HasTag(first, "C:") && v.Header? {
      var mid := HeaderColour(snap, first[2..], atof);
      HeaderColourPieces(snap, first[2..], atof);
      HeaderColourPieces(mid, second[2..], atof);
      HeaderColourPieces(snap, second[2..], atof);
    } else if HasTag(first, "S:") {
      var mid := ApplySegment(v, snap, first, atof);
      assert ApplySegment(v, mid, second, atof).line == ApplySegment(v, snap, second, atof).line;
    }
  }

  /** Two segments that begin with the same two characters: the same tag, or alike untagged. */
  predicate SameTag(a: string, b: string)
  {
    |a| >= 2 && |b| >= 2 && a[..2] == b[..2]
  }

  /** A list of segments is parsable exactly when both of its parts are. */
  lemma AllDefinedAppend(v: Variant, a: seq<string>, b: seq<string>)
    ensures AllDefined(v, a + b) <==> AllDefined(v, a) && AllDefined(v, b)
  {
    assert forall k :: 0 <= k < |a| ==> (a + b)[k] == a[k];
    assert forall k :: 0 <= k < |b| ==> (a + b)[|a| + k] == b[k];
  }

  /** Applying `a + b` is applying `a` and then `b`. */
  lemma {:induction false} ApplySegmentsAppend(v: Variant, snap: Snapshot, a: seq<string>, b: seq<string>, atof: string -> real)
    requires AllDefined(v, a) && AllDefined(v, b)
    ensures AllDefined(v, a + b)
    ensures ApplySegments(v, snap, a + b, atof) == ApplySegments(v, ApplySegments(v, snap, a, atof), b, atof)
    decreases |a|
  {
    AllDefinedAppend(v, a, b);
    if a == [] {
      assert a + b == b;
    } else {
      assert (a + b)[1..] == a[1..] + b;
      assert (a + b)[0] == a[0];
      assert AllDefined(v, a[1..]);
      ApplySegmentsAppend(v, ApplySegment(v, snap, a[0], atof), a[1..], b, atof);
    }
  }

  /**
   * Fields no segment supplies keep their values: without an `S:` segment
   * the line slots, without `P:` the proximity, without `C:` all three
   * colour channels.
   */
  lemma {:induction false} UnsuppliedFieldsKept(v: Variant, snap: Snapshot, segs: seq<string>, atof: string -> real)
    requires AllDefined(v, segs)
    ensures var after := ApplySegments(v, snap, segs, atof);
            && ((forall i :: 0 <= i < |segs| ==> !HasTag(segs[i], "S:")) ==> after.line == snap.line)
            && ((forall i :: 0 <= i < |segs| ==> !HasTag(segs[i], "P:")) ==> after.proximity == snap.proximity)
            && ((forall i :: 0 <= i < |segs| ==> !HasTag(segs[i], "C:")) ==> after.r == snap.r && after.g == snap.g && after.b == snap.b)
    decreases |segs|
  {
    if segs != [] {
      var next := ApplySegment(v, snap, segs[0], atof);
      if HasTag(segs[0], "C:") && v.Header? {
        HeaderColourPieces(snap, segs[0][2..], atof);
      }
      assert forall i :: 0 <= i < |segs[1..]| ==> segs[1..][i] == segs[i + 1];
      UnsuppliedFieldsKept(v, next, segs[1..], atof);
    }
  }

  /** A record without an `S:`, `P:` or `C:` segment leaves the fields of that tag as they were. */
  lemma RecordKeepsUnsuppliedFields(v: Variant, snap: Snapshot, line: string, atof: string -> real)
    requires RecordDefined(v, line)
    ensures var segs := SplitOn(line, ';');
            var after := ApplyRecord(v, snap, line, atof);
            && ((forall i :: 0 <= i < |segs| ==> !HasTag(segs[i], "S:")) ==> after.line == snap.line)
            && ((forall i :: 0 <= i < |segs| ==> !HasTag(segs[i], "P:")) ==> after.proximity == snap.proximity)
            && ((forall i :: 0 <= i < |segs| ==> !HasTag(segs[i], "C:")) ==> after.r == snap.r && after.g == snap.g && after.b == snap.b)
  {
    RecordIsSegmentsInOrder(v, snap, line, atof);
    UnsuppliedFieldsKept(v, snap, SplitOn(line, ';'), atof);
  }

  /** Segments with different tags write different fields, so their order does not matter. */
  lemma SegmentsCommute(v: Variant, snap: Snapshot, a: string, b: string, atof: string -> real)
    requires SegmentDefined(v, a) && SegmentDefined(v, b) && !SameTag(a, b)
    ensures ApplySegment(v, ApplySegment(v, snap, a, atof), b, atof)
         == ApplySegment(v, ApplySegment(v, snap, b, atof), a, atof)
  {
    if v.Header? {
      var ab := ApplySegment(v, ApplySegment(v, snap, a, atof), b, atof);
      var ba := ApplySegment(v, ApplySegment(v, snap, b, atof), a, atof);
      if HasTag(a, "C:") {
        HeaderColourPieces(snap, a[2..], atof);
        HeaderColourPieces(ApplySegment(v, snap, b, atof), a[2..], atof);
      }
      if HasTag(b, "C:") {
        HeaderColourPieces(snap, b[2..], atof);
        HeaderColourPieces(ApplySegment(v, snap, a, atof), b[2..], atof);
      }
      assert ab.line == ba.line && ab.proximity == ba.proximity;
      assert ab.r == ba.r && ab.g == ba.g && ab.b == ba.b;
    }
  }

  /**
   * A later segment overwrites an earlier one with the same tag across any
   * segments of other tags between them: when it writes at least as many
   * fields, the earlier segment leaves no trace.
   */
  lemma {:induction false} LaterSegmentOverwritesAcross(v: Variant, snap: Snapshot, first: string, mid: seq<string>, second: string, atof: string -> real)
    requires SegmentDefined(v, first) && SegmentDefined(v, second)
    requires AllDefined(v, mid) && forall i :: 0 <= i < |mid| ==> !SameTag(mid[i], second)
    requires SameTag(first, second) && Coverage(v, second) >= Coverage(v, first)
    ensures ApplySegments(v, snap, [first] + mid + [second], atof) == ApplySegments(v, snap, mid + [second], atof)
    decreases |mid|
  {
    var after := ApplySegment(v, snap, first, atof);
    assert ([first] + mid + [second])[1..] == mid + [second];
    if mid == [] {
      LaterSegmentOverwrites(v, snap, first, second, atof);
      assert ApplySegments(v, ApplySegment(v, after, second, atof), [], atof) == ApplySegment(v, after, second, atof);
      assert ApplySegments(v, ApplySegment(v, snap, second, atof), [], atof) == ApplySegment(v, snap, second, atof);
    } else {
      var m := mid[0];
      var moved := ApplySegment(v, snap, m, atof);
      SegmentsCommute(v, snap, first, m, atof);
      assert (mid + [second])[0] == m && (mid + [second])[1..] == mid[1..] + [second];
      assert ([first] + mid[1..] + [second])[1..] == mid[1..] + [second];
      LaterSegmentOverwritesAcross(v, moved, first, mid[1..], second, atof);
    }
  }

  /**
   * The same inside a longer list: with any segments before `first` and
   * after `second`, the list applies as if `first` were absent.
   */
  lemma LaterSegmentOverwritesIn(v: Variant, snap: Snapshot, head: seq<string>, first: string, mid: seq<string>, second: string, tail: seq<string>, atof: string -> real)
    requires AllDefined(v, head) && AllDefined(v, mid) && AllDefined(v, tail)
    requires SegmentDefined(v, first) && SegmentDefined(v, second)
    requires forall i :: 0 <= i < |mid| ==> !SameTag(mid[i], second)
    requires SameTag(first, second) && Coverage(v, second) >= Coverage(v, first)
    ensures AllDefined(v, head + [first] + mid + [second] + tail) && AllDefined(v, head + mid + [second] + tail)
    ensures ApplySegments(v, snap, head + [first] + mid + [second] + tail, atof)
         == ApplySegments(v, snap, head + mid + [second] + tail, atof)
  {
    var block, kept := [first] + mid + [second], mid + [second];
    AllDefinedAppend(v, [first], mid);
    AllDefinedAppend(v, [first] + mid, [second]);
    AllDefinedAppend(v, mid, [second]);
    assert head + [first] + mid + [second] + tail == head + (block + tail);
    assert head + mid + [second] + tail == head + (kept + tail);
    var before := ApplySegments(v, snap, head, atof);
    ApplySegmentsAppend(v, before, block, tail, atof);
    ApplySegmentsAppend(v, before, kept, tail, atof);
    ApplySegmentsAppend(v, snap, head, block + tail, atof);
    ApplySegmentsAppend(v, snap, head, kept + tail, atof);
    LaterSegmentOverwritesAcross(v, before, first, mid, second, atof);
  }

  /**
   * Segment `i` of a list is overwritten by a later segment `j` with the same
   * tag when no segment between them has that tag and `j` writes at least as
   * many fields: the list applies as if segment `i` were absent.
   */
  lemma LaterSegmentOverwritesAt(v: Variant, snap: Snapshot, segs: seq<string>, i: nat, j: nat, atof: string -> real)
    requires AllDefined(v, segs)
    requires i < j < |segs| && SameTag(segs[i], segs[j]) && Coverage(v, segs[j]) >= Coverage(v, segs[i])
    requires forall k :: i < k < j ==> !SameTag(segs[k], segs[j])
    ensures AllDefined(v, segs[..i] + segs[i + 1..])
    ensures ApplySegments(v, snap, segs, atof) == ApplySegments(v, snap, segs[..i] + segs[i + 1..], atof)
  {
    var head, mid, tail := segs[..i], segs[i + 1..j], segs[j + 1..];
    assert segs == head + [segs[i]] + mid + [segs[j]] + tail;
    assert segs[..i] + segs[i + 1..] == head + mid + [segs[j]] + tail;
    assert forall k :: 0 <= k < |mid| ==> mid[k] == segs[i + 1 + k];
    assert AllDefined(v, head) && AllDefined(v, mid) && AllDefined(v, tail);
    LaterSegmentOverwritesIn(v, snap, head, segs[i], mid, segs[j], tail, atof);
  }

  /** `LaterSegmentOverwritesAt` for the `;`-separated segments of a whole record. */
  lemma RecordLaterSegmentOverwrites(v: Variant, snap: Snapshot, line: string, i: nat, j: nat, atof: string -> real)
    requires RecordDefined(v, line)
    requires var segs := SplitOn(line, ';');
             && i < j < |segs| && SameTag(segs[i], segs[j]) && Coverage(v, segs[j]) >= Coverage(v, segs[i])
             && (forall k :: i < k < j ==> !SameTag(segs[k], segs[j]))
    ensures var segs := SplitOn(line, ';');
            && AllDefined(v, segs[..i] + segs[i + 1..])
            && ApplyRecord(v, snap, line, atof) == ApplySegments(v, snap, segs[..i] + segs[i + 1..], atof)
  {
    RecordIsSegmentsInOrder(v, snap, line, atof);
    LaterSegmentOverwritesAt(v, snap, SplitOn(line, ';'), i, j, atof);
  }

  /**
   * `S:` in the header: k pieces (empty ones included) write slots
   * 0..min(k,5)-1 in order and the other slots keep their values; even an
   * empty payload writes slot 0, with `atof("")`.
   */
  lemma HeaderSensorPieces(snap: Snapshot, payload: string, atof: string -> real)
    requires |payload| < CopyCapacity
    ensures var pieces := SplitOn(payload, ',');
            var after := ApplySegment(Header, snap, "S:" + payload, atof);
            && after.proximity == snap.proximity && after.r == snap.r && after.g == snap.g && after.b == snap.b
            && (forall i :: 0 <= i < 5 ==> after.line[i] == if i < |pieces| then atof(pieces[i]) else snap.line[i])
    ensures ApplySegment(Header, snap, "S:", atof).line[0] == atof("")
  {
    var seg := "S:" + payload;
    assert seg[..2] == "S:" && seg[2..] == payload;
    assert ("S:")[2..] == "";
    assert SplitOn("", ',') == [""];
  }

  /**
   * `S:` in botoverturns.c: only the non-empty pieces count; the first
   * min(k,5) of them write slots 0.. in order, the other slots keep their
   * values, and a payload with no non-empty piece changes nothing.
   */
  lemma StrtokSensorPieces(snap: Snapshot, payload: string, atof: string -> real)
    ensures var pieces := NonEmpty(SplitOn(payload, ','));
            var after := ApplySegment(Strtok, snap, "S:" + payload, atof);
            && after.proximity == snap.proximity && after.r == snap.r && after.g == snap.g && after.b == snap.b
            && (forall i :: 0 <= i < 5 ==> after.line[i] == if i < |pieces| then atof(pieces[i]) else snap.line[i])
            && (pieces == [] ==> after == snap)
  {
    var seg := "S:" + payload;
    assert seg[..2] == "S:" && seg[2..] == payload;
    TokensSkipEmpty(payload, ',');
    var after := ApplySegment(Strtok, snap, seg, atof);
    if NonEmpty(SplitOn(payload, ',')) == [] {
      assert after.line == snap.line;
    }
  }

  /** `C:` in botoverturns.c: with three non-empty pieces, all three channels are overwritten. */
  lemma StrtokColourPieces(snap: Snapshot, payload: string, atof: string -> real)
    requires |NonEmpty(SplitOn(payload, ','))| >= 3
    ensures SegmentDefined(Strtok, "C:" + payload)
    ensures var pieces := NonEmpty(SplitOn(payload, ','));
            ApplySegment(Strtok, snap, "C:" + payload, atof)
              == snap.(r := atof(pieces[0]), g := atof(pieces[1]), b := atof(pieces[2]))
  {
    var seg := "C:" + payload;
    assert seg[..2] == "C:" && seg[2..] == payload;
    TokensSkipEmpty(payload, ',');
  }

  /**
   * A segment both parsers read alike: the `S:` and `C:` payloads fit the
   * header's copy buffer and have no empty piece, and a `C:` payload has
   * exactly three pieces.
   */
  predicate Clean(seg: string)
  {
    (HasTag(seg, "S:") || HasTag(seg, "C:")) ==>
      && |seg| - 2 < CopyCapacity
      && (forall i :: 0 <= i < |SplitOn(seg[2..], ',')| ==> SplitOn(seg[2..], ',')[i] != "")
      && (HasTag(seg, "C:") ==> |SplitOn(seg[2..], ',')| == 3)
  }

  lemma NonEmptyOfNonEmpty(pieces: seq<string>)
    requires forall i :: 0 <= i < |pieces| ==> pieces[i] != ""
    ensures NonEmpty(pieces) == pieces
  {
    if pieces != [] {
      NonEmptyOfNonEmpty(pieces[1..]);
    }
  }

  /** On a clean segment the two parsers agree. */
  lemma CleanSegmentAgrees(snap: Snapshot, seg: string, atof: string -> real)
    requires Clean(seg)
    ensures SegmentDefined(Header, seg) && SegmentDefined(Strtok, seg)
    ensures ApplySegment(Header, snap, seg, atof) == ApplySegment(Strtok, snap, seg, atof)
  {
    if HasTag(seg, "S:") || HasTag(seg, "C:") {
      var pieces := SplitOn(seg[2..], ',');
      TokensSkipEmpty(seg[2..], ',');
      NonEmptyOfNonEmpty(pieces);
      if HasTag(seg, "C:") {
        HeaderColourPieces(snap, seg[2..], atof);
        assert pieces[2..] == [pieces[2]];
      }
    }
  }

  /**
   * The two receive loops decode a record whose segments are all clean to
   * the same snapshot.
   */
  lemma {:induction false} CleanRecordAgrees(snap: Snapshot, line: string, atof: string -> real)
    requires forall i :: 0 <= i < |SplitOn(line, ';')| ==> Clean(SplitOn(line, ';')[i])
    ensures RecordDefined(Header, line) && RecordDefined(Strtok, line)
    ensures ApplyRecord(Header, snap, line, atof) == ApplyRecord(Strtok, snap, line, atof)
    decreases |line|
  {
    forall i | 0 <= i < |SplitOn(line, ';')|
      ensures SegmentDefined(Header, SplitOn(line, ';')[i]) && SegmentDefined(Strtok, SplitOn(line, ';')[i])
    {
      CleanSegmentAgrees(snap, SplitOn(line, ';')[i], atof);
    }
    SplitFirst(line);
    var (seg, rest) := Cut(line, ';');
    CleanSegmentAgrees(snap, seg, atof);
    match rest
    case None =>
    case Some(tail) =>
      forall i | 0 <= i < |SplitOn(tail, ';')|
        ensures Clean(SplitOn(tail, ';')[i])
      {
        assert SplitOn(tail, ';')[i] == SplitOn(line, ';')[i + 1];
      }
      CleanRecordAgrees(ApplySegment(Header, snap, seg, atof), tail, atof);
  }
}
