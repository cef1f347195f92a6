/** The bounded event log of src/events.rs: two-segment rotation and the bounded tail reader. */
module Events {
  import opened Utf8

  const MAX_EVENT_LOG_BYTES: nat := 10 * 1024 * 1024
  const MAX_EVENT_RECORD_BYTES: nat := 64 * 1024
  const MAX_EVENT_TAIL_LINES: nat := 1_000
  const MAX_EVENT_TAIL_BYTES: nat := MAX_EVENT_LOG_BYTES

  const NEWLINE: byte := 0x0A
  const CARRIAGE_RETURN: byte := 0x0D

  type Line = seq<byte>

  // ---------------------------------------------------------------- lines of a stream

  /** Index of the first newline, or the length when there is none. */
  function FirstNewline(data: seq<byte>): (n: nat)
    ensures n <= |data|
    ensures forall i :: 0 <= i < n ==> data[i] != NEWLINE
    ensures n < |data| ==> data[n] == NEWLINE
  {
    if data == [] || data[0] == NEWLINE then 0 else 1 + FirstNewline(data[1..])
  }

  /** The raw lines of a stream; a last line without its newline is still a line. */
  function Split(data: seq<byte>): seq<Line>
    decreases |data|
  {
    if data == [] then []
    else
      var n := FirstNewline(data);
      [data[..n]] + (if n == |data| then [] else Split(data[n + 1..]))
  }

  function WithoutCr(line: Line): Line {
    if line != [] && line[|line| - 1] == CARRIAGE_RETURN then line[..|line| - 1] else line
  }

  /** A raw line is kept when it is within the record limit and its text is UTF-8. */
  predicate IsKept(raw: Line) { |raw| <= MAX_EVENT_RECORD_BYTES && Valid(WithoutCr(raw)) }

  function Kept(raws: seq<Line>): seq<Line> {
    if raws == [] then []
    else (if IsKept(raws[0]) then [WithoutCr(raws[0])] else []) + Kept(raws[1..])
  }

  lemma {:induction false} KeptConcat(a: seq<Line>, b: seq<Line>)
    ensures Kept(a + b) == Kept(a) + Kept(b)
  {
    if a == [] {
      assert a + b == b;
    } else {
      assert (a + b)[1..] == a[1..] + b;
      KeptConcat(a[1..], b);
    }
  }

  ghost predicate NoNewline(data: seq<byte>) { forall i :: 0 <= i < |data| ==> data[i] != NEWLINE }

  lemma {:induction false} FirstNewlineSkips(a: seq<byte>, b: seq<byte>)
    requires NoNewline(a)
    ensures FirstNewline(a + b) == |a| + FirstNewline(b)
  {
    if a == [] {
      assert a + b == b;
    } else {
      assert (a + b)[1..] == a[1..] + b;
      FirstNewlineSkips(a[1..], b);
    }
  }

  lemma SplitLine(line: Line, rest: seq<byte>)
    requires NoNewline(line)
    ensures Split(line + [NEWLINE] + rest) == [line] + Split(rest)
  {
    var data := line + [NEWLINE] + rest;
    assert data == line + ([NEWLINE] + rest);
    FirstNewlineSkips(line, [NEWLINE] + rest);
    assert data[..|line|] == line && data[|line| + 1..] == rest;
  }

  lemma SplitLast(line: Line)
    requires NoNewline(line)
    ensures Split(line) == if line == [] then [] else [line]
  {
    FirstNewlineSkips(line, []);
    assert line + [] == line;
    assert line[..|line|] == line;
  }

  // ---------------------------------------------------------------- the bounded tail

  function Bytes(lines: seq<Line>): nat {
    if lines == [] then 0 else |lines[0]| + Bytes(lines[1..])
  }

  predicate Fits(lines: seq<Line>, tail: nat) {
    |lines| <= tail && Bytes(lines) <= MAX_EVENT_TAIL_BYTES
  }

  /** The longest suffix within the line and byte bounds. */
  function Suffix(lines: seq<Line>, tail: nat): (r: seq<Line>)
    ensures Fits(r, tail)
    ensures |r| <= |lines| && r == lines[|lines| - |r|..]
    ensures forall k :: 0 <= k < |lines| - |r| ==> !Fits(lines[k..], tail)
  {
    if lines == [] || Fits(lines, tail) then lines
    else
      var r := Suffix(lines[1..], tail);
      assert forall k :: 0 < k < |lines| - |r| ==> lines[k..] == lines[1..][k - 1..];
      r
  }

  lemma {:induction false} BytesConcat(a: seq<Line>, b: seq<Line>)
    ensures Bytes(a + b) == Bytes(a) + Bytes(b)
  {
    if a == [] {
      assert a + b == b;
    } else {
      assert (a + b)[1..] == a[1..] + b;
      BytesConcat(a[1..], b);
    }
  }

  /** Only one suffix is both within the bounds and longest. */
  lemma SuffixIsUnique(lines: seq<Line>, tail: nat, k: nat)
    requires k <= |lines| && Fits(lines[k..], tail)
    requires k > 0 ==> !Fits(lines[k - 1..], tail)
    ensures Suffix(lines, tail) == lines[k..]
  {
    var m := |lines| - |Suffix(lines, tail)|;
    if m < k {
      CutMiddle(lines, m, k - 1);
      BytesConcat(lines[m..k - 1], lines[k - 1..]);
    }
    assert m == k;
  }

  lemma CutMiddle(lines: seq<Line>, i: nat, j: nat)
    requires i <= j <= |lines|
    ensures lines[i..] == lines[i..j] + lines[j..]
  {
  }

  /** Dropping lines early never changes the tail: only the tail so far has to be remembered. */
  lemma {:induction false} SuffixOfSuffix(a: seq<Line>, b: seq<Line>, tail: nat)
    ensures Suffix(Suffix(a, tail) + b, tail) == Suffix(a + b, tail)
    decreases |a|
  {
    if a != [] && !Fits(a, tail) {
      assert (a + b)[1..] == a[1..] + b;
      BytesConcat(a, b);
      SuffixOfSuffix(a[1..], b, tail);
    }
  }

  /** `retained` and `retained_bytes`. */
  class Tail {
    const limit: nat
    var retained: seq<Line>
    var retainedBytes: nat

    ghost predicate Valid()
      reads this
    {
      retainedBytes == Bytes(retained) && Fits(retained, limit)
    }

    constructor (limit: nat)
      ensures Valid() && this.limit == limit && retained == []
    {
      this.limit, retained, retainedBytes := limit, [], 0;
    }

    method RetainEventLine(line: Line)
      requires Valid()
      modifies this
      ensures Valid() && retained == Suffix(old(retained) + [line], limit)
    {
      ghost var all := retained + [line];
      if limit == 0 { return; }
      BytesConcat(retained, [line]);
      retainedBytes := retainedBytes + |line|;
      retained := retained + [line];
      ghost var dropped := 0;
      while |retained| > limit || retainedBytes > MAX_EVENT_TAIL_BYTES
        invariant dropped <= |all| && retained == all[dropped..] && retainedBytes == Bytes(retained)
        invariant dropped > 0 ==> !Fits(all[dropped - 1..], limit)
        decreases |retained|
      {
        if retained != [] {
          retainedBytes := retainedBytes - |retained[0]|;
          retained := retained[1..];
          dropped := dropped + 1;
        }
      }
      SuffixIsUnique(all, limit, dropped);
    }
  }

  // ---------------------------------------------------------------- reading a stream in pieces

  /** A buffered reader: each fill exposes some non-empty prefix of what is left. */
  class ByteReader {
    var rest: seq<byte>

    constructor (data: seq<byte>)
      ensures rest == data
    {
      rest := data;
    }

    method FillBuf() returns (buffer: seq<byte>)
      ensures buffer <= rest && (buffer == [] <==> rest == [])
    {
      if rest == [] { return []; }
      var n: nat :| 0 < n <= |rest|;
      buffer := rest[..n];
    }

    method Consume(n: nat)
      requires n <= |rest|
      modifies this
      ensures rest == old(rest)[n..]
    {
      rest := rest[n..];
    }
  }

  /** What is buffered of a raw line that may already be too long. */
  function Bounded(raw: Line): Line {
    if |raw| <= MAX_EVENT_RECORD_BYTES then raw else raw[..MAX_EVENT_RECORD_BYTES]
  }

  /** `append_bounded_line_bytes`: the buffer never exceeds the record limit. */
  method AppendBoundedLineBytes(line: Line, tooLong: bool, bytes: seq<byte>, ghost raw: Line)
    returns (longer: Line, stillTooLong: bool)
    requires line == Bounded(raw) && (tooLong <==> |raw| > MAX_EVENT_RECORD_BYTES)
    ensures longer == Bounded(raw + bytes) && (stillTooLong <==> |raw + bytes| > MAX_EVENT_RECORD_BYTES)
    ensures |longer| <= MAX_EVENT_RECORD_BYTES
  {
    if tooLong { return line, true; }
    var remaining := MAX_EVENT_RECORD_BYTES - |line|;
    if |bytes| > remaining { return line + bytes[..remaining], true; }
    return line + bytes, false;
  }

  /** What follows the first newline; nothing when there is none. */
  function AfterNewline(data: seq<byte>): seq<byte> {
    var n := FirstNewline(data);
    if n < |data| then data[n + 1..] else []
  }

  lemma AfterNewlineSkips(gone: seq<byte>, rest: seq<byte>)
    requires NoNewline(gone)
    ensures AfterNewline(gone + rest) == AfterNewline(rest)
  {
    FirstNewlineSkips(gone, rest);
    var n := FirstNewline(rest);
    if n < |rest| { assert (gone + rest)[|gone| + n + 1..] == rest[n + 1..]; }
  }

  lemma FirstNewlineOfPrefix(buffer: seq<byte>, rest: seq<byte>)
    requires buffer <= rest
    ensures FirstNewline(buffer) < |buffer| ==> FirstNewline(rest) == FirstNewline(buffer)
    decreases |buffer|
  {
    if buffer != [] && buffer[0] != NEWLINE { FirstNewlineOfPrefix(buffer[1..], rest[1..]); }
  }

  /** `discard_partial_line`: everything up to and including the first newline goes. */
  method DiscardPartialLine(reader: ByteReader)
    modifies reader
    ensures reader.rest == AfterNewline(old(reader.rest))
  {
    while true
      invariant AfterNewline(reader.rest) == AfterNewline(old(reader.rest))
      decreases |reader.rest|
    {
      var buffer := reader.FillBuf();
      if buffer == [] { return; }
      var newline := FirstNewline(buffer);
      FirstNewlineOfPrefix(buffer, reader.rest);
      if newline < |buffer| {
        reader.Consume(newline + 1);
        return;
      }
      assert reader.rest == buffer + reader.rest[|buffer|..];
      AfterNewlineSkips(buffer, reader.rest[|buffer|..]);
      reader.Consume(|buffer|);
    }
  }

  lemma KeepOneMore(before: seq<Line>, done: seq<Line>, raw: Line, limit: nat)
    ensures Suffix(before + Kept(done + [raw]), limit)
         == if IsKept(raw) then Suffix(Suffix(before + Kept(done), limit) + [WithoutCr(raw)], limit)
            else Suffix(before + Kept(done), limit)
  {
    var all := before + Kept(done);
    KeptConcat(done, [raw]);
    if IsKept(raw) {
      assert Kept([raw]) == [WithoutCr(raw)];
      assert before + Kept(done + [raw]) == all + [WithoutCr(raw)];
      SuffixOfSuffix(all, [WithoutCr(raw)], limit);
    } else {
      assert Kept([raw]) == [];
      assert before + Kept(done + [raw]) == all;
    }
  }

  /** The end of a raw line, in the stream or at its end: strip one CR, keep valid UTF-8. */
  method FinishLine(current: Line, tooLong: bool, tail: Tail, ghost before: seq<Line>, ghost done: seq<Line>, ghost raw: Line)
    requires tail.Valid() && tail.retained == Suffix(before + Kept(done), tail.limit)
    requires current == Bounded(raw) && (tooLong <==> |raw| > MAX_EVENT_RECORD_BYTES)
    modifies tail
    ensures tail.Valid() && tail.retained == Suffix(before + Kept(done + [raw]), tail.limit)
  {
    KeepOneMore(before, done, raw, tail.limit);
    if !tooLong {
      var line := current;
      if line != [] && line[|line| - 1] == CARRIAGE_RETURN { line := line[..|line| - 1]; }
      if Valid(line) { tail.RetainEventLine(line); }
    }
  }

  /** The lines of `data`: those done, then those of the open line followed by the unread rest. */
  ghost predicate Progress(data: seq<byte>, done: seq<Line>, raw: Line, rest: seq<byte>) {
    NoNewline(raw) && Split(data) == done + Split(raw + rest)
  }

  lemma ProgressStart(data: seq<byte>)
    ensures Progress(data, [], [], data)
  {
    assert [] + data == data;
  }

  lemma CutAt(raw: seq<byte>, left: seq<byte>, n: nat)
    requires n < |left|
    ensures raw + left == raw + left[..n] + [left[n]] + left[n + 1..]
  {
  }

  lemma NoNewlineBefore(raw: Line, buffer: seq<byte>)
    requires NoNewline(raw)
    ensures NoNewline(raw + buffer[..FirstNewline(buffer)])
  {
  }

  lemma CutNowhere(raw: Line, left: seq<byte>, buffer: seq<byte>)
    requires NoNewline(raw) && buffer <= left && FirstNewline(buffer) == |buffer|
    ensures NoNewline(raw + buffer) && raw + left == raw + buffer + left[|buffer|..]
  {
    Reassociate(raw, left, |buffer|);
    assert left[..|buffer|] == buffer;
  }

  lemma Reassociate(raw: seq<byte>, left: seq<byte>, n: nat)
    requires n <= |left|
    ensures raw + left == raw + left[..n] + left[n..]
  {
  }

  lemma ProgressAtNewline(data: seq<byte>, done: seq<Line>, raw: Line, left: seq<byte>, buffer: seq<byte>)
    requires Progress(data, done, raw, left) && buffer <= left && FirstNewline(buffer) < |buffer|
    ensures var n := FirstNewline(buffer); Progress(data, done + [raw + buffer[..n]], [], left[n + 1..])
  {
    var n := FirstNewline(buffer);
    var line, rest := raw + buffer[..n], left[n + 1..];
    assert left[n] == buffer[n] && left[..n] == buffer[..n];
    CutAt(raw, left, n);
    NoNewlineBefore(raw, buffer);
    SplitLine(line, rest);
    PrependDone(done, line, rest);
  }

  lemma PrependDone(done: seq<Line>, line: Line, rest: seq<byte>)
    ensures done + ([line] + Split(rest)) == done + [line] + Split([] + rest)
  {
    assert [] + rest == rest;
  }

  lemma ProgressWithoutNewline(data: seq<byte>, done: seq<Line>, raw: Line, left: seq<byte>, buffer: seq<byte>)
    requires Progress(data, done, raw, left) && buffer <= left && FirstNewline(buffer) == |buffer|
    ensures Progress(data, done, raw + buffer, left[|buffer|..])
  {
    CutNowhere(raw, left, buffer);
  }

  lemma ProgressEnd(data: seq<byte>, done: seq<Line>, raw: Line)
    requires Progress(data, done, raw, [])
    ensures Split(data) == if raw == [] then done else done + [raw]
  {
    assert raw + [] == raw;
    SplitLast(raw);
  }

  /** `read_tail_from_reader`: however the stream is cut into buffers, the count is the number of raw
      lines and the tail is the longest suffix of everything kept so far. */
  method ReadTailFromReader(reader: ByteReader, tail: Tail) returns (totalLines: nat)
    requires tail.Valid()
    modifies reader, tail
    ensures tail.Valid() && reader.rest == []
    ensures totalLines == |Split(old(reader.rest))|
    ensures tail.retained == Suffix(old(tail.retained) + Kept(Split(old(reader.rest))), tail.limit)
  {
    ghost var before, data := tail.retained, reader.rest;
    var current: Line, tooLong := [], false;
    totalLines := 0;
    ghost var raw: Line, done: seq<Line> := [], [];
    ProgressStart(data);
    assert before + Kept([]) == before;
    while true
      invariant tail.Valid() && tail.retained == Suffix(before + Kept(done), tail.limit)
      invariant current == Bounded(raw) && (tooLong <==> |raw| > MAX_EVENT_RECORD_BYTES)
      invariant totalLines == |done| && Progress(data, done, raw, reader.rest)
      decreases |reader.rest|
    {
      var buffer := reader.FillBuf();
      if buffer == [] { break; }
      var newline := FirstNewline(buffer);
      if newline < |buffer| {
        ProgressAtNewline(data, done, raw, reader.rest, buffer);
        current, tooLong := AppendBoundedLineBytes(current, tooLong, buffer[..newline], raw);
        raw := raw + buffer[..newline];
        reader.Consume(newline + 1);
        totalLines := totalLines + 1;
        FinishLine(current, tooLong, tail, before, done, raw);
        current, tooLong := [], false;
        done, raw := done + [raw], [];
      } else {
        ProgressWithoutNewline(data, done, raw, reader.rest, buffer);
        current, tooLong := AppendBoundedLineBytes(current, tooLong, buffer, raw);
        raw := raw + buffer;
        reader.Consume(|buffer|);
      }
    }
    ProgressEnd(data, done, raw);
    if current != [] || tooLong {
      totalLines := totalLines + 1;
      FinishLine(current, tooLong, tail, before, done, raw);
    }
  }

  // ---------------------------------------------------------------- in plain terms

  /** What is kept: the raw lines of at most 64 KiB whose text, less one trailing carriage return, is UTF-8. */
  lemma {:induction false} KeptAre(raws: seq<Line>, line: Line)
    ensures line in Kept(raws) <==>
            exists raw :: raw in raws && |raw| <= 65_536 && Valid(line)
                          && line == (if raw != [] && raw[|raw| - 1] == 0x0D then raw[..|raw| - 1] else raw)
    decreases |raws|
  {
    if raws != [] {
      KeptAre(raws[1..], line);
      assert raws == [raws[0]] + raws[1..];
    }
  }

  function Joined(lines: seq<Line>): seq<byte> { if lines == [] then [] else lines[0] + Joined(lines[1..]) }

  lemma {:induction false} BytesAreJoined(lines: seq<Line>)
    ensures Bytes(lines) == |Joined(lines)|
    decreases |lines|
  {
    if lines != [] { BytesAreJoined(lines[1..]); }
  }

  /** The tail has at most so many lines and 10 MiB of text, and one line more would be too many or too much. */
  lemma TailIsFull(lines: seq<Line>, tail: nat)
    ensures var r := Suffix(lines, tail);
      && |r| <= tail && |Joined(r)| <= 10_485_760
      && (|r| < |lines| ==>
            |r| + 1 > tail || |Joined(lines[|lines| - |r| - 1..])| > 10_485_760)
  {
    var r := Suffix(lines, tail);
    BytesAreJoined(r);
    if |r| < |lines| {
      BytesAreJoined(lines[|lines| - |r| - 1..]);
      assert !Fits(lines[|lines| - |r| - 1..], tail);
    }
  }
}
