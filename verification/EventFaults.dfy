/** What the bounded event log of src/events.rs holds after attempts that may fail anywhere, and after it started
  * from files that were already there. */
module EventFaults {
  import opened Wrappers
  import opened Utf8
  import opened Events
  import opened EventLog

  datatype Attempt = Attempt(json: Line, fault: Fault)

  /** The segments after the attempts, and the records that were written whole. */
  function After(s: Segments, attempts: seq<Attempt>): Segments {
    if attempts == [] then s
    else
      var last := attempts[|attempts| - 1];
      Attempted(After(s, attempts[..|attempts| - 1]), last.json, last.fault).segments
  }

  function Written(s: Segments, attempts: seq<Attempt>): seq<Line> {
    if attempts == [] then []
    else
      var before, last := attempts[..|attempts| - 1], attempts[|attempts| - 1];
      Written(s, before) + (if Attempted(After(s, before), last.json, last.fault).written then [last.json] else [])
  }

  lemma {:induction false} AfterSnoc(s: Segments, before: seq<Attempt>, last: Attempt)
    ensures After(s, before + [last]) == Attempted(After(s, before), last.json, last.fault).segments
    ensures Written(s, before + [last])
         == Written(s, before) + (if Attempted(After(s, before), last.json, last.fault).written then [last.json] else [])
  {
    assert (before + [last])[..|before|] == before;
  }

  predicate OnOneLine(attempts: seq<Attempt>) { forall i :: 0 <= i < |attempts| ==> NEWLINE !in attempts[i].json }

  /** The two segments together are the last records, in order and complete. */
  ghost predicate IsASuffix(s: Segments, records: seq<Line>) { exists k: nat, m: nat :: HoldsAt(s, records, k, m) }

  /** At every moment of the run. */
  ghost predicate AlwaysASuffix(s: Segments, start: seq<Line>, attempts: seq<Attempt>) {
    forall n :: 0 <= n <= |attempts| ==> IsASuffix(After(s, attempts[..n]), start + Written(s, attempts[..n]))
  }

  const NO_FILES := Segments(None, None)

  // ---------------------------------------------------------------- torn records

  /** The write stopped inside the record. */
  predicate Torn(a: Attempt) {
    a.fault.WriteStops? && a.fault.written >= 1 && 0 < |a.json| <= MAX_EVENT_RECORD_BYTES
  }

  lemma {:induction false} EncodeEndsWithNewline(records: seq<Line>)
    ensures Encode(records) == [] || Encode(records)[|Encode(records)| - 1] == NEWLINE
    decreases |records|
  {
    if records != [] { EncodeEndsWithNewline(records[1..]); }
  }

  /** A torn record leaves an active segment that no list of records could have left. */
  lemma TornIsNoSuffix(s: Segments, a: Attempt, records: seq<Line>)
    requires Torn(a) && NEWLINE !in a.json
    ensures !IsASuffix(Attempted(s, a.json, a.fault).segments, records)
  {
    var active := Content(Attempted(s, a.json, a.fault).segments.active);
    var n := if a.fault.written <= |a.json| then a.fault.written else |a.json|;
    assert active[|active| - 1] == a.json[..n][n - 1] == a.json[n - 1];
    forall m | 0 <= m <= |records| ensures active != Encode(records[m..]) { EncodeEndsWithNewline(records[m..]); }
  }

  /** Any other attempt keeps the records in order: it fails without a trace, or after a rotation, or it succeeds. */
  lemma UntornKeepsHolds(s: Segments, records: seq<Line>, a: Attempt, k: nat, m: nat) returns (k': nat, m': nat)
    requires Holds(s, records, k, m) && !Torn(a)
    ensures var o := Attempted(s, a.json, a.fault);
      Holds(o.segments, records + (if o.written then [a.json] else []), k', m')
  {
    var o := Attempted(s, a.json, a.fault);
    assert records + [] == records;
    if o.written {
      k', m' := AppendKeepsHolds(s, records, a.json, k, m);
    } else {
      UntornLeaves(s, a);
      if o.segments == s {
        k', m' := k, m;
      } else {
        k', m' := RoomKeepsHolds(s, records, a.json, k, m);
      }
    }
  }

  /** An attempt that neither succeeds nor tears leaves the log as it was, or with room made for the record. */
  lemma UntornLeaves(s: Segments, a: Attempt)
    requires InBounds(s) && !Torn(a) && !Attempted(s, a.json, a.fault).written
    ensures var after, room := Attempted(s, a.json, a.fault).segments, MakeRoom(s, a.json);
      || after == s
      || (|a.json| <= MAX_EVENT_RECORD_BYTES
          && Content(after.rotated) == Content(room.rotated) && Content(after.active) == Content(room.active))
  {
    var room := MakeRoom(s, a.json);
    assert Discarded(s) == s;
    if a.fault.WriteStops? { assert Content(room.active) + [] == Content(room.active); }
  }

  lemma {:induction false} UntornRunsHold(attempts: seq<Attempt>) returns (k: nat, m: nat)
    requires forall i :: 0 <= i < |attempts| ==> !Torn(attempts[i])
    ensures Holds(After(NO_FILES, attempts), Written(NO_FILES, attempts), k, m)
    decreases |attempts|
  {
    if attempts == [] {
      k, m := 0, 0;
    } else {
      var before, last := attempts[..|attempts| - 1], attempts[|attempts| - 1];
      var k0, m0 := UntornRunsHold(before);
      k, m := UntornKeepsHolds(After(NO_FILES, before), Written(NO_FILES, before), last, k0, m0);
    }
  }

  /** From no files at all, the segments are a contiguous suffix of the records written whole, at every moment of
      a run with arbitrary faults, if and only if no write stopped inside a record. */
  lemma AlwaysASuffixIffNoneTorn(attempts: seq<Attempt>)
    requires OnOneLine(attempts)
    ensures AlwaysASuffix(NO_FILES, [], attempts) <==> forall i :: 0 <= i < |attempts| ==> !Torn(attempts[i])
  {
    if i :| 0 <= i < |attempts| && Torn(attempts[i]) {
      var n := i + 1;
      assert attempts[..n] == attempts[..i] + [attempts[i]];
      AfterSnoc(NO_FILES, attempts[..i], attempts[i]);
      TornIsNoSuffix(After(NO_FILES, attempts[..i]), attempts[i], [] + Written(NO_FILES, attempts[..n]));
      assert !IsASuffix(After(NO_FILES, attempts[..n]), [] + Written(NO_FILES, attempts[..n]));
    } else {
      forall n | 0 <= n <= |attempts| ensures IsASuffix(After(NO_FILES, attempts[..n]), [] + Written(NO_FILES, attempts[..n])) {
        var k, m := UntornRunsHold(attempts[..n]);
        assert [] + Written(NO_FILES, attempts[..n]) == Written(NO_FILES, attempts[..n]);
      }
    }
  }

  const BRACES: Line := [0x7B, 0x7D]

  /** A record torn after its first byte, then one that is acknowledged: read back, the second is no line of the
      log, because the two have run together. */
  lemma TornRecordSwallowsTheNext()
    ensures var torn := Attempted(NO_FILES, BRACES, WriteStops(1));
            var next := Attempted(torn.segments, BRACES, NoFault);
            && !torn.ok && next.ok
            && LinesOf(next.segments.rotated) == [] && LinesOf(next.segments.active) == [[0x7B, 0x7B, 0x7D]]
  {
    var torn := Attempted(NO_FILES, BRACES, WriteStops(1));
    assert Content(torn.segments.active) == [0x7B];
    var next := Attempted(torn.segments, BRACES, NoFault);
    var line: Line := [0x7B, 0x7B, 0x7D];
    assert Content(next.segments.active) == line + [NEWLINE];
    SplitLine(line, []);
    assert line + [NEWLINE] + [] == line + [NEWLINE];
  }

  // ---------------------------------------------------------------- files that were already there

  lemma {:induction false} EncodeIsInjective(a: seq<Line>, b: seq<Line>)
    requires (forall i :: 0 <= i < |a| ==> NEWLINE !in a[i]) && (forall i :: 0 <= i < |b| ==> NEWLINE !in b[i])
    requires Encode(a) == Encode(b)
    ensures a == b
    decreases |a|
  {
    if a != [] && b != [] {
      FirstLineOf(a[0], Encode(a[1..]));
      FirstLineOf(b[0], Encode(b[1..]));
      assert Encode(a) == a[0] + [NEWLINE] + Encode(a[1..]) && Encode(b) == b[0] + [NEWLINE] + Encode(b[1..]);
      assert a[0] == b[0] && Encode(a[1..]) == Encode(b[1..]);
      EncodeIsInjective(a[1..], b[1..]);
      assert a == [a[0]] + a[1..] && b == [b[0]] + b[1..];
    }
  }

  /** The first line and the rest can be read off the bytes. */
  lemma FirstLineOf(line: Line, rest: seq<byte>)
    requires NEWLINE !in line
    ensures var data := line + [NEWLINE] + rest;
      FirstNewline(data) == |line| && data[..|line|] == line && data[|line| + 1..] == rest
  {
    var data := line + [NEWLINE] + rest;
    assert data[|line|] == NEWLINE && forall i :: 0 <= i < |line| ==> data[i] == line[i];
  }

  predicate Lines(records: seq<Line>) { forall i :: 0 <= i < |records| ==> NEWLINE !in records[i] }

  /** The files that were there hold the records `a` and then `b`. */
  predicate StartsWith(s: Segments, a: seq<Line>, b: seq<Line>) {
    Content(s.rotated) == Encode(a) && Content(s.active) == Encode(b) && Lines(a) && Lines(b)
  }

  /** The active file fits, or the rotated one does not either, or the rotated records end the active ones too:
      otherwise the active file is dropped from between. */
  predicate StartsInBounds(a: seq<Line>, b: seq<Line>) {
    || |Encode(b)| <= MAX_EVENT_LOG_BYTES
    || |Encode(a)| > MAX_EVENT_LOG_BYTES
    || a == (a + b)[|b|..]
  }

  lemma FirstAppendHolds(s: Segments, a: seq<Line>, b: seq<Line>, json: Line) returns (k: nat, m: nat)
    requires StartsWith(s, a, b) && StartsInBounds(a, b) && |json| <= MAX_EVENT_RECORD_BYTES
    ensures HoldsAt(Appended(s, json), a + b + [json], k, m) && InBounds(Appended(s, json))
  {
    var present, records := a + b, a + b + [json];
    var d := Discarded(s);
    assert Encode([json]) == json + [NEWLINE] by { EncodeOneMore([], json); assert [] + [json] == [json]; }
    if |Encode(b)| > MAX_EVENT_LOG_BYTES {
      m := |present|;
      k := if |Encode(a)| > MAX_EVENT_LOG_BYTES then m else |b|;
      assert records[m..] == [json] && records[k..m] == present[k..];
    } else {
      var k0 := if |Encode(a)| > MAX_EVENT_LOG_BYTES then |a| else 0;
      assert present[k0..|a|] == (if k0 == 0 then a else []) && present[|a|..] == b;
      k, m := AppendKeepsHoldsAt(d, present, json, k0, |a|);
    }
  }

  /** Where the old rotated records and one new one are all that is held, nothing is missing between them. */
  lemma NothingIsMissing(after: Segments, a: seq<Line>, b: seq<Line>, json: Line, k: nat, m: nat)
    requires Content(after.rotated) == Encode(a) && Content(after.active) == Encode([json])
    requires Lines(a) && Lines(b) && NEWLINE !in json && HoldsAt(after, a + b + [json], k, m)
    ensures a == (a + b)[|b|..]
  {
    var present, records := a + b, a + b + [json];
    EncodeIsInjective(records[m..], [json]);
    EncodeIsInjective(records[k..m], a);
    assert m == |present| && records[k..m] == present[k..];
  }

  lemma FirstAppendLosesTheMiddle(s: Segments, a: seq<Line>, b: seq<Line>, json: Line)
    requires StartsWith(s, a, b) && !StartsInBounds(a, b) && |json| <= MAX_EVENT_RECORD_BYTES && NEWLINE !in json
    ensures !IsASuffix(Appended(s, json), a + b + [json])
  {
    var records := a + b + [json];
    assert Encode([json]) == json + [NEWLINE] by { EncodeOneMore([], json); assert [] + [json] == [json]; }
    var after := Appended(s, json);
    assert Content(after.rotated) == Encode(a) && Content(after.active) == Encode([json]);
    forall k: nat, m: nat ensures !HoldsAt(after, records, k, m) {
      if HoldsAt(after, records, k, m) { NothingIsMissing(after, a, b, json, k, m); }
    }
  }

  /** Attempts that all succeed. */
  predicate AllSucceed(attempts: seq<Attempt>) {
    forall i :: 0 <= i < |attempts| ==>
      attempts[i].fault == NoFault && |attempts[i].json| <= MAX_EVENT_RECORD_BYTES && NEWLINE !in attempts[i].json
  }

  lemma {:induction false} LaterAppendsHold(s: Segments, a: seq<Line>, b: seq<Line>, attempts: seq<Attempt>)
    returns (k: nat, m: nat)
    requires StartsWith(s, a, b) && StartsInBounds(a, b) && AllSucceed(attempts) && attempts != []
    ensures HoldsAt(After(s, attempts), a + b + Written(s, attempts), k, m) && InBounds(After(s, attempts))
    decreases |attempts|
  {
    var n := |attempts| - 1;
    var last, next, written := attempts[n].json, After(s, attempts), Written(s, attempts);
    var sofar, before := After(s, attempts[..n]), Written(s, attempts[..n]);
    assert attempts == attempts[..n] + [attempts[n]];
    AfterSuccess(s, attempts[..n], attempts[n]);
    if n == 0 {
      assert written == [] + [last] == [last];
      k, m := FirstAppendHolds(s, a, b, last);
    } else {
      k, m := LaterAppendsHold(s, a, b, attempts[..n]);
      k, m := HoldsOneMoreAt(sofar, next, a + b, before, written, last, k, m);
    }
  }

  lemma HoldsOneMoreAt(s: Segments, next: Segments, present: seq<Line>, before: seq<Line>, written: seq<Line>,
                       json: Line, k: nat, m: nat) returns (k': nat, m': nat)
    requires HoldsAt(s, present + before, k, m) && InBounds(s) && |json| <= MAX_EVENT_RECORD_BYTES
    requires written == before + [json] && next == Appended(s, json)
    ensures HoldsAt(next, present + written, k', m') && InBounds(next)
  {
    k', m' := AppendKeepsHoldsAt(s, present + before, json, k, m);
    assert present + before + [json] == present + written;
  }

  lemma Succeeds(s: Segments, json: Line)
    requires |json| <= MAX_EVENT_RECORD_BYTES
    ensures Attempted(s, json, NoFault) == Outcome(Appended(s, json), true, true)
  {
  }

  lemma {:induction false} AfterSuccess(s: Segments, before: seq<Attempt>, last: Attempt)
    requires last.fault == NoFault && |last.json| <= MAX_EVENT_RECORD_BYTES
    ensures After(s, before + [last]) == Appended(After(s, before), last.json)
    ensures Written(s, before + [last]) == Written(s, before) + [last.json]
  {
    AfterSnoc(s, before, last);
    Succeeds(After(s, before), last.json);
  }

  /** Started from files that hold records, the segments are a contiguous suffix of those and the appended ones, at
      every moment, if and only if the files were within bounds in the sense above. */
  lemma AlwaysASuffixIffStartedInBounds(s: Segments, a: seq<Line>, b: seq<Line>, attempts: seq<Attempt>)
    requires StartsWith(s, a, b) && AllSucceed(attempts) && attempts != []
    ensures AlwaysASuffix(s, a + b, attempts) <==> StartsInBounds(a, b)
  {
    if StartsInBounds(a, b) {
      forall n | 0 <= n <= |attempts| ensures IsASuffix(After(s, attempts[..n]), a + b + Written(s, attempts[..n])) {
        if n == 0 {
          assert a + b + [] == a + b && (a + b)[..|a|] == a && (a + b)[|a|..] == b;
          assert HoldsAt(s, a + b, 0, |a|);
        } else {
          var k, m := LaterAppendsHold(s, a, b, attempts[..n]);
        }
      }
    } else {
      var first := attempts[0];
      assert attempts[..1] == [] + [first];
      AfterSnoc(s, [], first);
      assert [] + [first.json] == [first.json];
      FirstAppendLosesTheMiddle(s, a, b, first.json);
      assert !IsASuffix(After(s, attempts[..1]), a + b + Written(s, attempts[..1]));
    }
  }
}
