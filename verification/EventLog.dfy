/** Two-segment rotation of the event log and reading its tail back (src/events.rs). */
module EventLog {
  import opened Wrappers
  import opened Utf8
  import opened Events

  /** The two files; a missing one is None. */
  datatype Segments = Segments(rotated: Option<seq<byte>>, active: Option<seq<byte>>)

  /** Where one append fails: before it changes anything (directory, lock file, lock, the rotated segment),
      reading the size, removing or rotating the active segment, opening it, after some bytes of the record,
      or only in acknowledging the finished record. */
  datatype Fault =
    | NoFault
    | NothingDone
    | StatFails
    | RemoveFails
    | RotateFails
    | OpenFails
    | WriteStops(written: nat)
    | NotAcknowledged

  function Content(segment: Option<seq<byte>>): seq<byte> {
    match segment
    case None => []
    case Some(data) => data
  }

  predicate InBounds(s: Segments) {
    |Content(s.rotated)| <= MAX_EVENT_LOG_BYTES && |Content(s.active)| <= MAX_EVENT_LOG_BYTES
  }

  // ---------------------------------------------------------------- one append

  /** The active segment is rotated away when the record would not fit behind a non-empty one. */
  predicate Rotates(s: Segments, json: Line) {
    && 0 < |Content(s.active)| <= MAX_EVENT_LOG_BYTES
    && |Content(s.active)| + |json| + 1 > MAX_EVENT_LOG_BYTES
  }

  /** The log after a successful append. */
  function Appended(s: Segments, json: Line): Segments {
    var room := MakeRoom(Discarded(s), json);
    Segments(room.rotated, Some(Content(room.active) + json + [NEWLINE]))
  }

  /** An oversized rotated segment is dropped. */
  function Discarded(s: Segments): Segments {
    if |Content(s.rotated)| > MAX_EVENT_LOG_BYTES then s.(rotated := None) else s
  }

  /** An oversized active segment is dropped, a full one is rotated. */
  function MakeRoom(s: Segments, json: Line): Segments {
    if |Content(s.active)| > MAX_EVENT_LOG_BYTES then s.(active := None)
    else if Rotates(s, json) then Segments(s.active, None)
    else s
  }

  /** What one attempt leaves: the segments, whether the whole record is in them, and what the caller is told. */
  datatype Outcome = Outcome(segments: Segments, written: bool, ok: bool)

  function Attempted(s: Segments, json: Line, fault: Fault): Outcome {
    if |json| > MAX_EVENT_RECORD_BYTES || fault == NothingDone then Outcome(s, false, false)
    else
      var d := Discarded(s);
      if fault == StatFails
         || (fault == RemoveFails && |Content(d.active)| > MAX_EVENT_LOG_BYTES)
         || (fault == RotateFails && Rotates(d, json))
      then Outcome(d, false, false)
      else
        var room := MakeRoom(d, json);
        if fault == OpenFails then Outcome(room, false, false)
        else if fault.WriteStops? then
          var n := if fault.written <= |json| then fault.written else |json|;
          Outcome(room.(active := Some(Content(room.active) + json[..n])), false, false)
        else Outcome(Appended(s, json), true, fault != NotAcknowledged)
  }

  /** When an attempt succeeds: the record is small enough, and nothing fails that is needed for it. The active segment
      has to be removed only when it is oversized, and to be rotated only when the record does not fit behind it. */
  lemma AttemptSucceedsIff(s: Segments, json: Line, fault: Fault)
    ensures Attempted(s, json, fault).ok <==>
            && |json| <= 65_536
            && (|| fault == NoFault
                || (fault == RemoveFails && |Content(s.active)| <= 10_485_760)
                || (fault == RotateFails
                    && !(0 < |Content(s.active)| <= 10_485_760 && |Content(s.active)| + |json| + 1 > 10_485_760)))
    ensures Attempted(s, json, fault).ok ==> Attempted(s, json, fault).written
  {
  }

  /** What an attempt leaves of the two segments when it gets as far as the lock: no oversized rotated segment; and what
      was active is still active, or rotated, or gone because it was oversized, with at most a part of the record
      behind it unless all of it was written. */
  lemma AttemptInPlainTerms(s: Segments, json: Line, fault: Fault)
    requires |json| <= 65_536 && fault != NothingDone
    ensures var o := Attempted(s, json, fault);
            var rotated, active := Content(o.segments.rotated), Content(o.segments.active);
            var full := 0 < |Content(s.active)| <= 10_485_760 && |Content(s.active)| + |json| + 1 > 10_485_760;
            var stopped := || fault == StatFails || (fault == RemoveFails && |Content(s.active)| > 10_485_760)
                           || (fault == RotateFails && full);
            var was := if !stopped && (full || |Content(s.active)| > 10_485_760) then [] else Content(s.active);
      && rotated == (if !stopped && full then Content(s.active)
                     else if |Content(s.rotated)| > 10_485_760 then [] else Content(s.rotated))
      && (o.written ==> active == was + json + [0x0A])
      && (!o.written && !(!stopped && fault.WriteStops?) ==> active == was)
      && (!stopped && fault.WriteStops? ==>
            active == was + json[..if fault.written <= |json| then fault.written else |json|])
  {
  }

  class EventFiles {
    var segments: Segments

    constructor ()
      ensures segments == Segments(None, None)
    {
      segments := Segments(None, None);
    }

    /** `persist_event`: true on success. */
    method PersistEvent(json: Line, fault: Fault) returns (ok: bool)
      modifies this
      ensures var o := Attempted(old(segments), json, fault); segments == o.segments && ok == o.ok
      ensures ok ==> |json| <= MAX_EVENT_RECORD_BYTES && segments == Appended(old(segments), json) && InBounds(segments)
      ensures |json| <= MAX_EVENT_RECORD_BYTES && fault == NoFault ==> ok
      // whatever fails, no segment grows past the bound
      ensures |Content(segments.rotated)| <= MAX_EVENT_LOG_BYTES || segments.rotated == old(segments.rotated)
      ensures |Content(segments.active)| <= MAX_EVENT_LOG_BYTES || segments.active == old(segments.active)
    {
      if |json| > MAX_EVENT_RECORD_BYTES { return false; }
      if fault.NothingDone? { return false; }
      if |Content(segments.rotated)| > MAX_EVENT_LOG_BYTES { segments := segments.(rotated := None); }
      if fault.StatFails? { return false; }
      var currentSize := |Content(segments.active)|;
      var appendSize := |json| + 1;
      if currentSize > MAX_EVENT_LOG_BYTES {
        if fault.RemoveFails? { return false; }
        segments := segments.(active := None);
      } else if currentSize > 0 && currentSize + appendSize > MAX_EVENT_LOG_BYTES {
        if fault.RotateFails? { return false; }
        segments := Segments(segments.active, None);
      }
      if fault.OpenFails? { return false; }
      if segments.active.None? { segments := segments.(active := Some([])); }
      if fault.WriteStops? {
        var n := if fault.written <= |json| then fault.written else |json|;
        segments := segments.(active := Some(segments.active.value + json[..n]));
        return false;
      }
      segments := segments.(active := Some(segments.active.value + json));
      segments := segments.(active := Some(segments.active.value + [NEWLINE]));
      return !fault.NotAcknowledged?;
    }
  }

  // ---------------------------------------------------------------- a log built by appends

  function Encode(records: seq<Line>): seq<byte> {
    if records == [] then [] else records[0] + [NEWLINE] + Encode(records[1..])
  }

  lemma {:induction false} EncodeConcat(a: seq<Line>, b: seq<Line>)
    ensures Encode(a + b) == Encode(a) + Encode(b)
  {
    if a == [] {
      assert a + b == b;
    } else {
      assert (a + b)[1..] == a[1..] + b;
      EncodeConcat(a[1..], b);
    }
  }

  lemma EncodeOneMore(records: seq<Line>, json: Line)
    ensures Encode(records + [json]) == Encode(records) + json + [NEWLINE]
  {
    EncodeConcat(records, [json]);
    assert Encode([json]) == json + [NEWLINE] + Encode([]);
  }

  /** The log after successful appends of `records`, starting from no files at all. */
  function Log(records: seq<Line>): Segments {
    if records == [] then Segments(None, None)
    else Appended(Log(records[..|records| - 1]), records[|records| - 1])
  }

  predicate WithinRecordLimit(records: seq<Line>) {
    forall i :: 0 <= i < |records| ==> |records[i]| <= MAX_EVENT_RECORD_BYTES
  }

  /** The segments are, in order and complete, the records from `k` on, split at `m`. */
  ghost predicate HoldsAt(s: Segments, records: seq<Line>, k: nat, m: nat) {
    k <= m <= |records| && Content(s.rotated) == Encode(records[k..m]) && Content(s.active) == Encode(records[m..])
  }

  /** And either nothing was ever dropped or rotated, or the rotated segment is nearly full. */
  ghost predicate Holds(s: Segments, records: seq<Line>, k: nat, m: nat) {
    && HoldsAt(s, records, k, m)
    && InBounds(s)
    && (k == m == 0 || |Content(s.rotated)| > MAX_EVENT_LOG_BYTES - (MAX_EVENT_RECORD_BYTES + 1))
  }

  lemma RoomKeepsHoldsAt(s: Segments, records: seq<Line>, json: Line, k: nat, m: nat) returns (k': nat, m': nat)
    requires HoldsAt(s, records, k, m) && InBounds(s)
    ensures HoldsAt(MakeRoom(s, json), records, k', m') && InBounds(MakeRoom(s, json))
    ensures Rotates(s, json) ==> MakeRoom(s, json).rotated == s.active
    ensures !Rotates(s, json) ==> MakeRoom(s, json) == s && k' == k && m' == m
  {
    if Rotates(s, json) {
      k', m' := m, |records|;
      assert records[m..|records|] == records[m..] && records[|records|..] == [];
    } else {
      k', m' := k, m;
    }
  }

  lemma RoomKeepsHolds(s: Segments, records: seq<Line>, json: Line, k: nat, m: nat) returns (k': nat, m': nat)
    requires Holds(s, records, k, m) && |json| <= MAX_EVENT_RECORD_BYTES
    ensures Holds(MakeRoom(s, json), records, k', m')
  {
    k', m' := RoomKeepsHoldsAt(s, records, json, k, m);
  }

  lemma AppendKeepsHoldsAt(s: Segments, records: seq<Line>, json: Line, k: nat, m: nat) returns (k': nat, m': nat)
    requires HoldsAt(s, records, k, m) && InBounds(s) && |json| <= MAX_EVENT_RECORD_BYTES
    ensures HoldsAt(Appended(s, json), records + [json], k', m') && InBounds(Appended(s, json))
    ensures Rotates(s, json) ==> Appended(s, json).rotated == s.active
    ensures !Rotates(s, json) ==> Appended(s, json).rotated == s.rotated && k' == k && m' == m
  {
    var longer := records + [json];
    k', m' := RoomKeepsHoldsAt(s, records, json, k, m);
    assert longer[k'..m'] == records[k'..m'] && longer[m'..] == records[m'..] + [json];
    EncodeOneMore(records[m'..], json);
  }

  lemma AppendKeepsHolds(s: Segments, records: seq<Line>, json: Line, k: nat, m: nat) returns (k': nat, m': nat)
    requires Holds(s, records, k, m) && |json| <= MAX_EVENT_RECORD_BYTES
    ensures Holds(Appended(s, json), records + [json], k', m')
  {
    k', m' := AppendKeepsHoldsAt(s, records, json, k, m);
  }

  lemma {:induction false} LogSnoc(before: seq<Line>, last: Line)
    ensures Log(before + [last]) == Appended(Log(before), last)
  {
    assert (before + [last])[..|before|] == before;
  }

  lemma NothingHeld()
    ensures Holds(Segments(None, None), [], 0, 0) && Log([]) == Segments(None, None)
  {
  }

  /** One record more on a log `s` that is named, not unfolded. */
  lemma HoldsOneMore(s: Segments, next: Segments, before: seq<Line>, records: seq<Line>, k: nat, m: nat)
    returns (k': nat, m': nat)
    requires Holds(s, before, k, m) && |before| < |records| && records == before + [records[|before|]]
    requires |records[|before|]| <= MAX_EVENT_RECORD_BYTES && next == Appended(s, records[|before|])
    ensures Holds(next, records, k', m')
  {
    k', m' := AppendKeepsHolds(s, before, records[|before|], k, m);
  }

  /** What is on disk is always a contiguous suffix of everything appended, and once a rotation has
      dropped anything the rotated segment alone holds more than 10 MiB minus 65,537 bytes. */
  lemma {:induction false} LogHoldsASuffix(records: seq<Line>) returns (k: nat, m: nat)
    requires WithinRecordLimit(records)
    ensures Holds(Log(records), records, k, m)
    decreases |records|
  {
    if |records| == 0 {
      NothingHeld();
      k, m := 0, 0;
    } else {
      var n := |records| - 1;
      var s, next := Log(records[..n]), Log(records);
      assert records == records[..n] + [records[n]];
      LogSnoc(records[..n], records[n]);
      k, m := LogHoldsASuffix(records[..n]);
      k, m := HoldsOneMore(s, next, records[..n], records, k, m);
    }
  }

  // ---------------------------------------------------------------- reading the tail back

  /** The part of a segment that is read: its last 10 MiB, without the line cut at the front. */
  function Window(data: seq<byte>): seq<byte> {
    if |data| <= MAX_EVENT_TAIL_BYTES then data else AfterNewline(data[|data| - MAX_EVENT_TAIL_BYTES..])
  }

  /** All of a segment within 10 MiB is read; of a longer one, what follows the first newline in its last 10 MiB. */
  lemma WindowStartsALine(data: seq<byte>) returns (j: nat)
    ensures |data| <= 10_485_760 ==> Window(data) == data
    ensures |data| > 10_485_760 ==>
              && |data| - 10_485_760 <= j <= |data| && NoNewline(data[|data| - 10_485_760..j])
              && (if j < |data| then data[j] == 0x0A && Window(data) == data[j + 1..] else Window(data) == [])
  {
    j := 0;
    if |data| > MAX_EVENT_TAIL_BYTES {
      var start := |data| - MAX_EVENT_TAIL_BYTES;
      var last := data[start..];
      j := start + FirstNewline(last);
      CutTail(data, start, FirstNewline(last));
    }
  }

  lemma CutTail(data: seq<byte>, start: nat, n: nat)
    requires start + n <= |data|
    ensures data[start..start + n] == data[start..][..n]
    ensures start + n < |data| ==> data[start + n] == data[start..][n] && data[start + n + 1..] == data[start..][n + 1..]
  {
  }

  function Limit(tail: nat): nat { if tail <= MAX_EVENT_TAIL_LINES then tail else MAX_EVENT_TAIL_LINES }

  function LinesOf(segment: Option<seq<byte>>): seq<Line> { Split(Window(Content(segment))) }

  /** The longest suffix of the kept lines of both segments, oldest first. */
  function TailOf(s: Segments, tail: nat): seq<Line> {
    Suffix(Kept(LinesOf(s.rotated)) + Kept(LinesOf(s.active)), Limit(tail))
  }

  method ReadSegment(segment: Option<seq<byte>>, tail: Tail) returns (lines: nat)
    requires tail.Valid()
    modifies tail
    ensures tail.Valid()
    ensures lines == |LinesOf(segment)| && tail.retained == Suffix(old(tail.retained) + Kept(LinesOf(segment)), tail.limit)
  {
    if segment.None? {
      assert LinesOf(segment) == [] && tail.retained + [] == tail.retained;
      return 0;
    }
    var data := segment.value;
    var readBytes := if |data| <= MAX_EVENT_TAIL_BYTES then |data| else MAX_EVENT_TAIL_BYTES;
    var start := |data| - readBytes;
    var reader := new ByteReader(data[start..]);
    if start > 0 { DiscardPartialLine(reader); } else { assert data[start..] == data; }
    assert reader.rest == Window(data);
    lines := ReadTailFromReader(reader, tail);
  }

  /** `read_tail_segments` over the rotated and then the active segment. */
  method ReadTailSegments(s: Segments, tail: nat) returns (lines: seq<Line>, totalLines: nat)
    ensures lines == TailOf(s, tail) && totalLines == |LinesOf(s.rotated)| + |LinesOf(s.active)|
  {
    var retained := new Tail(Limit(tail));
    var first := ReadSegment(s.rotated, retained);
    ghost var rotated, active := Kept(LinesOf(s.rotated)), Kept(LinesOf(s.active));
    assert [] + rotated == rotated;
    var second := ReadSegment(s.active, retained);
    SuffixOfSuffix(rotated, active, Limit(tail));
    return retained.retained, first + second;
  }

  /** A record as the guard writes it: JSON text on one line, not ending in a carriage return. */
  predicate IsRecord(json: Line) {
    |json| <= MAX_EVENT_RECORD_BYTES && Valid(json) && WithoutCr(json) == json && NEWLINE !in json
  }

  lemma {:induction false} SplitInvertsEncode(records: seq<Line>)
    requires forall i :: 0 <= i < |records| ==> IsRecord(records[i])
    ensures Split(Encode(records)) == records && Kept(records) == records
  {
    if records != [] {
      SplitLine(records[0], Encode(records[1..]));
      SplitInvertsEncode(records[1..]);
      assert IsKept(records[0]);
    }
  }

  lemma WholeSegmentHolds(segment: Option<seq<byte>>, records: seq<Line>)
    requires Content(segment) == Encode(records) && |Content(segment)| <= MAX_EVENT_LOG_BYTES
    requires forall i :: 0 <= i < |records| ==> IsRecord(records[i])
    ensures LinesOf(segment) == records && Kept(LinesOf(segment)) == records
  {
    SplitInvertsEncode(records);
  }

  lemma TailOfHeld(s: Segments, records: seq<Line>, tail: nat, k: nat, m: nat)
    requires Holds(s, records, k, m)
    requires forall i :: 0 <= i < |records| ==> IsRecord(records[i])
    ensures TailOf(s, tail) == Suffix(records[k..], Limit(tail))
    ensures |LinesOf(s.rotated)| + |LinesOf(s.active)| == |records| - k
    ensures |Encode(records[k..])| == |Content(s.rotated)| + |Content(s.active)|
  {
    WholeSegmentHolds(s.rotated, records[k..m]);
    WholeSegmentHolds(s.active, records[m..]);
    assert records[k..] == records[k..m] + records[m..];
    EncodeConcat(records[k..m], records[m..]);
  }

  /** Reading back a log of records gives the longest suffix of what it holds, within the bounds. */
  lemma TailOfLogIsTheLongestSuffix(records: seq<Line>, tail: nat) returns (k: nat)
    requires forall i :: 0 <= i < |records| ==> IsRecord(records[i])
    ensures k <= |records| && TailOf(Log(records), tail) == Suffix(records[k..], if tail <= 1000 then tail else 1000)
    ensures |LinesOf(Log(records).rotated)| + |LinesOf(Log(records).active)| == |records| - k
    ensures k == 0 || |Encode(records[k..])| > MAX_EVENT_LOG_BYTES - (MAX_EVENT_RECORD_BYTES + 1)
  {
    var m;
    k, m := LogHoldsASuffix(records);
    TailOfHeld(Log(records), records, tail, k, m);
  }
}
