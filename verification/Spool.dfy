/**
 Reading a spool file: an append-only sequence of newline-terminated records, read incrementally from a
 byte offset. The line parser is a parameter; any total function will do.
 */
module Spool {
  import opened Prelude

  newtype Byte = b: int | 0 <= b < 256

  const NEWLINE: Byte := 10
  const CHUNK_BYTES: nat := 64 * 1024

  type File = seq<Byte>

  datatype Event = Event(eventId: string, body: string)

  datatype Parsed = Known(event: Event) | Opaque(event: Event) | Refused(reason: string)

  type Parser = File -> Parsed

  datatype RejectedLine = RejectedLine(line: File, reason: string, byteOffset: nat, lineNumber: nat)

  /** What reading some stretch of a file yields, in file order. */
  datatype Batch = Batch(events: seq<Event>, opaques: seq<Event>, rejected: seq<RejectedLine>)
  {
    function Then(next: Batch): Batch {
      Batch(events + next.events, opaques + next.opaques, rejected + next.rejected)
    }
  }

  const NOTHING := Batch([], [], [])

  datatype TailResult = TailResult(batch: Batch, newOffset: nat, truncated: bool, bytesRead: nat,
                                   completeLines: nat, partialLine: bool)

  // ---- what a file says -------------------------------------------------------------------------------

  /** The position of the first newline at or after `from`, or the file's length when there is none. */
  function NextNewline(file: File, from: nat): (p: nat)
    requires from <= |file|
    ensures from <= p <= |file| && (p < |file| ==> file[p] == NEWLINE)
    ensures forall k :: from <= k < p ==> file[k] != NEWLINE
    decreases |file| - from
  {
    if from == |file| || file[from] == NEWLINE then from else NextNewline(file, from + 1)
  }

  function Newlines(bytes: File): nat {
    if bytes == [] then 0 else Newlines(bytes[..|bytes| - 1]) + if bytes[|bytes| - 1] == NEWLINE then 1 else 0
  }

  /** What the record in `[start, end)` contributes. */
  function Record(parse: Parser, file: File, start: nat, end: nat): Batch
    requires start <= end <= |file|
  {
    var line := file[start..end];
    if line == [] then NOTHING
    else
      match parse(line)
      case Known(event) => Batch([event], [], [])
      case Opaque(event) => Batch([], [event], [])
      case Refused(reason) => Batch([], [], [RejectedLine(line, reason, start, 1 + Newlines(file[..start]))])
  }

  /** The records between `from` and the file's last newline. */
  ghost function ReadFrom(parse: Parser, file: File, from: nat): Batch
    requires from <= |file|
    decreases |file| - from
  {
    var end := NextNewline(file, from);
    if end == |file| then NOTHING else Record(parse, file, from, end).Then(ReadFrom(parse, file, end + 1))
  }

  /** Just past the last newline at or after `from`, or `from` itself. */
  ghost function Consumed(file: File, from: nat): (r: nat)
    requires from <= |file|
    ensures from <= r <= |file|
    ensures r == from || file[r - 1] == NEWLINE
    ensures forall k :: r <= k < |file| ==> file[k] != NEWLINE
    decreases |file| - from
  {
    var end := NextNewline(file, from);
    if end == |file| then from else Consumed(file, end + 1)
  }

  /** Reading restarts at 0 when the recorded offset is past the end of the file. */
  function StartOf(file: File, offset: nat): (start: nat)
    ensures start <= |file|
  {
    if offset > |file| then 0 else offset
  }

  lemma {:induction false} NewlinesAppend(a: File, b: File)
    ensures Newlines(a + b) == Newlines(a) + Newlines(b)
  {
    if b == [] {
      assert a + b == a;
    } else {
      assert (a + b)[..|a + b| - 1] == a + b[..|b| - 1];
      NewlinesAppend(a, b[..|b| - 1]);
    }
  }

  lemma {:induction false} NoNewlines(bytes: File)
    requires forall k :: 0 <= k < |bytes| ==> bytes[k] != NEWLINE
    ensures Newlines(bytes) == 0
  {
    if bytes != [] {
      NoNewlines(bytes[..|bytes| - 1]);
    }
  }

  /** One record further on, there is one more newline. */
  lemma NewlinesAfter(file: File, start: nat, end: nat)
    requires start <= end < |file| && file[end] == NEWLINE && forall k :: start <= k < end ==> file[k] != NEWLINE
    ensures Newlines(file[..end + 1]) == Newlines(file[..start]) + 1
  {
    NoNewlines(file[start..end]);
    NewlinesAppend(file[..start], file[start..end]);
    assert file[..start] + file[start..end] == file[..end];
    NewlinesAppend(file[..end], [NEWLINE]);
    assert [NEWLINE][..0] == [];
    assert Newlines([NEWLINE]) == 1;
    assert file[..end] + [NEWLINE] == file[..end + 1];
  }

  // ---- the reader -----------------------------------------------------------------------------------------

  method FindNewline(buf: File, cursor: nat) returns (p: nat)
    requires cursor <= |buf|
    ensures p == NextNewline(buf, cursor)
  {
    p := cursor;
    while p < |buf| && buf[p] != NEWLINE
      invariant cursor <= p <= |buf| && NextNewline(buf, cursor) == NextNewline(buf, p)
    {
      p := p + 1;
    }
  }

  /** A read of at least one byte unless `want` is zero or the file has ended; how many is up to the system. */
  method ReadSome(file: File, pos: nat, want: nat) returns (read: nat)
    ensures read <= want && (read > 0 ==> pos + read <= |file|)
    ensures read == 0 <==> want == 0 || pos >= |file|
  {
    if want == 0 || pos >= |file| {
      return 0;
    }
    assert 1 <= want && pos + 1 <= |file|;
    read :| 1 <= read <= want && pos + read <= |file|;
  }

  /** Counts newlines before `upto` a chunk at a time. */
  method CountLinesBefore(file: File, upto: nat) returns (lines: nat)
    requires upto <= |file|
    ensures lines == Newlines(file[..upto])
  {
    var pos, remaining := 0, upto;
    lines := 0;
    while remaining > 0
      invariant pos + remaining == upto && lines == Newlines(file[..pos])
      decreases remaining
    {
      var want := Min(remaining, CHUNK_BYTES);
      var read := ReadSome(file, pos, want);
      if read == 0 {
        break;
      }
      var chunk := file[pos..pos + read];
      var inChunk := CountNewlines(chunk);
      NewlinesAppend(file[..pos], chunk);
      assert file[..pos] + chunk == file[..pos + read];
      lines, pos, remaining := lines + inChunk, pos + read, remaining - read;
    }
  }

  method CountNewlines(chunk: File) returns (n: nat)
    ensures n == Newlines(chunk)
  {
    n := 0;
    for i := 0 to |chunk|
      invariant n == Newlines(chunk[..i])
    {
      Prefix(chunk, i);
      if chunk[i] == NEWLINE {
        n := n + 1;
      }
    }
    assert chunk[..|chunk|] == chunk;
  }

  /** Rejects numbered from some point of the file, renumbered for `preceding` lines before it. */
  function Rebased(rejected: seq<RejectedLine>, preceding: nat): (r: seq<RejectedLine>)
    ensures |r| == |rejected|
    ensures forall i :: 0 <= i < |r| ==> r[i] == rejected[i].(lineNumber := rejected[i].lineNumber + preceding)
  {
    seq(|rejected|, i requires 0 <= i < |rejected| => rejected[i].(lineNumber := rejected[i].lineNumber + preceding))
  }

  method RebaseEach(rejected: seq<RejectedLine>, preceding: nat) returns (r: seq<RejectedLine>)
    ensures r == Rebased(rejected, preceding)
  {
    r := rejected;
    for i := 0 to |r|
      invariant |r| == |rejected|
      invariant forall k :: 0 <= k < i ==> r[k] == Rebased(rejected, preceding)[k]
      invariant forall k :: i <= k < |r| ==> r[k] == rejected[k]
    {
      r := r[i := r[i].(lineNumber := r[i].lineNumber + preceding)];
    }
  }

  lemma RebasedAppend(a: seq<RejectedLine>, b: seq<RejectedLine>, preceding: nat)
    ensures Rebased(a + b, preceding) == Rebased(a, preceding) + Rebased(b, preceding)
  {
  }

  lemma {:induction false} BufferNewline(file: File, start: nat, cursor: nat)
    requires start <= |file| && cursor <= |file| - start
    ensures NextNewline(file, start + cursor) == start + NextNewline(file[start..], cursor)
    decreases |file| - start - cursor
  {
    if start + cursor < |file| && file[start + cursor] != NEWLINE {
      BufferNewline(file, start, cursor + 1);
    }
  }

  /** What has been collected so far, once rebased, is everything before `cursor`. */
  ghost predicate Collected(parse: Parser, file: File, start: nat, cursor: nat, batch: Batch, lines: nat)
    requires start + cursor <= |file|
  {
    var preceding := Newlines(file[..start]);
    && batch.(rejected := Rebased(batch.rejected, preceding)).Then(ReadFrom(parse, file, start + cursor))
       == ReadFrom(parse, file, start)
    && Consumed(file, start + cursor) == Consumed(file, start)
    && Newlines(file[..start + cursor]) == preceding + lines
  }

  lemma StartsCollected(parse: Parser, file: File, start: nat)
    requires start <= |file|
    ensures Collected(parse, file, start, 0, NOTHING, 0)
  {
    assert Rebased([], Newlines(file[..start])) == [];
  }

  /** The record in `[cursor, end)` of the buffer, numbered from the buffer's start. */
  function Provisional(parse: Parser, line: File, byteOffset: nat, lineNumber: nat): Batch {
    if line == [] then NOTHING
    else
      match parse(line)
      case Known(event) => Batch([event], [], [])
      case Opaque(event) => Batch([], [event], [])
      case Refused(reason) => Batch([], [], [RejectedLine(line, reason, byteOffset, lineNumber)])
  }

  lemma CollectsOne(parse: Parser, file: File, start: nat, cursor: nat, end: nat, batch: Batch, lines: nat)
    requires start <= |file| && cursor <= end < |file| - start && end == NextNewline(file[start..], cursor)
    requires Collected(parse, file, start, cursor, batch, lines)
    ensures Collected(parse, file, start, end + 1,
                      batch.Then(Provisional(parse, file[start + cursor..start + end], start + cursor,
                                 lines + 1)), lines + 1)
  {
    hide ReadFrom, Consumed, Newlines, Record, Provisional, NextNewline, Rebased;
    BufferNewline(file, start, cursor);
    NextIs(file, start + cursor);
    NewlinesAfter(file, start + cursor, start + end);
    var preceding := Newlines(file[..start]);
    var one := Provisional(parse, file[start + cursor..start + end], start + cursor, lines + 1);
    RebasedAppend(batch.rejected, one.rejected, preceding);
    OneRebased(parse, file, start + cursor, start + end, preceding, lines);
    ReadsOne(parse, file, start + cursor);
    ThenAssociates(batch.(rejected := Rebased(batch.rejected, preceding)),
                   one.(rejected := Rebased(one.rejected, preceding)),
                   ReadFrom(parse, file, start + end + 1));
  }

  lemma NextIs(file: File, from: nat)
    requires from <= |file|
    ensures var p := NextNewline(file, from);
            && from <= p <= |file| && (p < |file| ==> file[p] == NEWLINE)
            && forall k :: from <= k < p ==> file[k] != NEWLINE
  {
  }

  lemma OneRebased(parse: Parser, file: File, from: nat, end: nat, preceding: nat, lines: nat)
    requires from <= end <= |file| && Newlines(file[..from]) == preceding + lines
    ensures var one := Provisional(parse, file[from..end], from, lines + 1);
            one.(rejected := Rebased(one.rejected, preceding)) == Record(parse, file, from, end)
  {
  }

  lemma ReadsOne(parse: Parser, file: File, from: nat)
    requires from <= |file|
    ensures var end := NextNewline(file, from);
            if end == |file| then ReadFrom(parse, file, from) == NOTHING && Consumed(file, from) == from
            else ReadFrom(parse, file, from) == Record(parse, file, from, end).Then(ReadFrom(parse, file, end + 1))
                 && Consumed(file, from) == Consumed(file, end + 1)
  {
  }

  lemma ThenAssociates(a: Batch, b: Batch, c: Batch)
    ensures a.Then(b).Then(c) == a.Then(b.Then(c))
    ensures a.Then(NOTHING) == a && NOTHING.Then(a) == a
  {
  }

  method ReadBuffer(parse: Parser, ghost file: File, start: nat, buf: File)
    returns (batch: Batch, consumed: nat, lines: nat)
    requires start <= |file| && buf == file[start..]
    ensures ReadFrom(parse, file, start) == batch.(rejected := Rebased(batch.rejected, Newlines(file[..start])))
    ensures consumed <= |buf| && start + consumed == Consumed(file, start) && lines == Newlines(buf)
  {
    hide Collected, Newlines, ReadFrom, Consumed;
    var events, opaques, rejected := [], [], [];
    var cursor := 0;
    lines := 0;
    StartsCollected(parse, file, start);
    var end := FindNewline(buf, 0);
    while end < |buf|
      invariant cursor <= |buf| && end == NextNewline(buf, cursor)
      invariant Collected(parse, file, start, cursor, Batch(events, opaques, rejected), lines)
    {
      var line, lineStart, lineIndex := buf[cursor..end], cursor, lines;
      CollectsOne(parse, file, start, cursor, end, Batch(events, opaques, rejected), lines);
      assert line == file[start + cursor..start + end];
      ghost var before := Batch(events, opaques, rejected);
      cursor := end + 1;
      lines := lines + 1;
      if line != [] {
        match parse(line)
        case Known(event) => events := events + [event];
        case Opaque(event) => opaques := opaques + [event];
        case Refused(reason) => rejected := rejected + [RejectedLine(line, reason, start + lineStart, lineIndex + 1)];
      }
      assert Batch(events, opaques, rejected)
             == before.Then(Provisional(parse, line, start + lineStart, lineIndex + 1));
      end := FindNewline(buf, cursor);
    }
    batch, consumed := Batch(events, opaques, rejected), cursor;
    EndsCollected(parse, file, start, cursor, batch, lines);
  }

  lemma EndsCollected(parse: Parser, file: File, start: nat, cursor: nat, batch: Batch, lines: nat)
    requires start <= |file| && cursor <= |file| - start && NextNewline(file[start..], cursor) == |file| - start
    requires Collected(parse, file, start, cursor, batch, lines)
    ensures ReadFrom(parse, file, start) == batch.(rejected := Rebased(batch.rejected, Newlines(file[..start])))
    ensures start + cursor == Consumed(file, start) && lines == Newlines(file[start..])
  {
    hide ReadFrom, Consumed, Newlines;
    BufferNewline(file, start, cursor);
    NewlinesSplit(file, start);
    NewlinesSplit(file, start + cursor);
    NoNewlines(file[start + cursor..]);
    ReadsOne(parse, file, start + cursor);
    ThenAssociates(batch.(rejected := Rebased(batch.rejected, Newlines(file[..start]))), NOTHING, NOTHING);
  }

  lemma NewlinesSplit(file: File, i: nat)
    requires i <= |file|
    ensures Newlines(file) == Newlines(file[..i]) + Newlines(file[i..])
  {
    NewlinesAppend(file[..i], file[i..]);
    assert file[..i] + file[i..] == file;
  }

  /** Reads the complete records after `offset`, leaving an unterminated last one for a later call. */
  method Tail(parse: Parser, file: File, offset: nat) returns (r: TailResult)
    ensures r.truncated <==> offset > |file|
    ensures r.batch == ReadFrom(parse, file, StartOf(file, offset))
    ensures r.newOffset == Consumed(file, StartOf(file, offset))
    ensures r.partialLine <==> r.newOffset < |file|
    ensures r.bytesRead == |file| - StartOf(file, offset)
    ensures r.completeLines == Newlines(file[StartOf(file, offset)..])
    ensures r.truncated ==> r.batch == ReadFrom(parse, file, 0) && r.bytesRead == |file|
    ensures !r.truncated ==> r.batch == ReadFrom(parse, file, offset) && offset + r.bytesRead == |file|
  {
    hide ReadFrom, Consumed, Newlines;
    var start := StartOf(file, offset);
    var buf := file[start..];
    var batch, consumed, lines := ReadBuffer(parse, file, start, buf);
    if batch.rejected != [] && start > 0 {
      var preceding := CountLinesBefore(file, start);
      var rebased := RebaseEach(batch.rejected, preceding);
      batch := batch.(rejected := rebased);
    } else {
      RebasedNone(batch.rejected, file, start);
    }
    r := TailResult(batch, start + consumed, offset > |file|, |buf|, lines, consumed < |buf|);
  }

  lemma RebasedNone(rejected: seq<RejectedLine>, file: File, start: nat)
    requires start <= |file| && (rejected == [] || start == 0)
    ensures Rebased(rejected, Newlines(file[..start])) == rejected
  {
  }

  // ---- incremental equals batch --------------------------------------------------------------------------

  lemma {:induction false} NextNewlineStays(file: File, more: File, from: nat)
    requires from <= |file| && NextNewline(file, from) < |file|
    ensures NextNewline(file + more, from) == NextNewline(file, from)
    decreases |file| - from
  {
    if file[from] != NEWLINE {
      NextNewlineStays(file, more, from + 1);
    }
  }

  lemma RecordStays(parse: Parser, file: File, more: File, start: nat, end: nat)
    requires start <= end <= |file|
    ensures Record(parse, file + more, start, end) == Record(parse, file, start, end)
  {
    assert (file + more)[start..end] == file[start..end];
    assert (file + more)[..start] == file[..start];
  }

  /** Appending changes nothing already read: a read of the longer file resumes where the shorter one ended. */
  lemma {:induction false} AppendResumes(parse: Parser, file: File, more: File, from: nat)
    requires from <= |file|
    ensures var mid := Consumed(file, from);
            && ReadFrom(parse, file + more, from) == ReadFrom(parse, file, from).Then(ReadFrom(parse, file + more, mid))
            && Consumed(file + more, from) == Consumed(file + more, mid)
    decreases |file| - from
  {
    hide ReadFrom, Consumed, Record, NextNewline;
    NextIs(file, from);
    ReadsOne(parse, file, from);
    ReadsOne(parse, file + more, from);
    var end := NextNewline(file, from);
    if end < |file| {
      NextNewlineStays(file, more, from);
      RecordStays(parse, file, more, from, end);
      AppendResumes(parse, file, more, end + 1);
      ThenAssociates(Record(parse, file, from, end), ReadFrom(parse, file, end + 1),
                     ReadFrom(parse, file + more, Consumed(file, from)));
    } else {
      ThenAssociates(ReadFrom(parse, file + more, from), NOTHING, NOTHING);
    }
  }

  /** A reader that tails after each growth of the file, and everything its calls have returned. */
  datatype Reader = Reader(file: File, offset: nat, got: Batch, everTruncated: bool)
  {
    ghost function GrowAndTail(parse: Parser, more: File): Reader {
      var longer := file + more;
      var start := StartOf(longer, offset);
      Reader(longer, Consumed(longer, start), got.Then(ReadFrom(parse, longer, start)),
             everTruncated || offset > |longer|)
    }
  }

  ghost function Follow(parse: Parser, growth: seq<File>): Reader {
    if growth == [] then Reader([], 0, NOTHING, false)
    else Follow(parse, growth[..|growth| - 1]).GrowAndTail(parse, growth[|growth| - 1])
  }

  /** However a file grows between calls, the calls together return what one call over the final file would. */
  lemma {:induction false} IncrementalIsBatch(parse: Parser, growth: seq<File>)
    ensures var r := Follow(parse, growth);
            && !r.everTruncated && r.offset <= |r.file|
            && r.got == ReadFrom(parse, r.file, 0) && r.offset == Consumed(r.file, 0)
  {
    if growth != [] {
      var n := |growth| - 1;
      IncrementalIsBatch(parse, growth[..n]);
      AppendResumes(parse, Follow(parse, growth[..n]).file, growth[n], 0);
    }
  }

  /** A second look at an unchanged file finds nothing. */
  lemma NothingLeft(parse: Parser, file: File, from: nat)
    requires from <= |file|
    ensures var end := Consumed(file, from);
            ReadFrom(parse, file, end) == NOTHING && Consumed(file, end) == end
  {
  }

  // ---- what the batch means --------------------------------------------------------------------------------

  /** `[start, end)` is one whole record: it begins at `from` or after a newline and runs to the next one. */
  predicate IsRecord(file: File, from: nat, start: nat, end: nat) {
    && from <= start <= end < |file|
    && file[end] == NEWLINE && (forall k :: start <= k < end ==> file[k] != NEWLINE)
    && (start == from || file[start - 1] == NEWLINE)
  }

  /** The line `r` reports, found again by its offset. */
  ghost predicate Locates(parse: Parser, file: File, from: nat, r: RejectedLine) {
    && IsRecord(file, from, r.byteOffset, r.byteOffset + |r.line|)
    && r.line == file[r.byteOffset..r.byteOffset + |r.line|] && r.line != []
    && parse(r.line) == Refused(r.reason)
    && r.lineNumber == 1 + Newlines(file[..r.byteOffset])
  }

  lemma FirstRecord(file: File, from: nat, start: nat, end: nat)
    requires IsRecord(file, from, start, end)
    ensures NextNewline(file, from) <= end
    ensures if start == from then NextNewline(file, from) == end
            else NextNewline(file, from) < start && IsRecord(file, NextNewline(file, from) + 1, start, end)
  {
  }

  lemma LaterRecord(file: File, from: nat, start: nat, end: nat)
    requires from <= |file| && NextNewline(file, from) < |file|
             && IsRecord(file, NextNewline(file, from) + 1, start, end)
    ensures IsRecord(file, from, start, end)
  {
  }

  /** The rejects are exactly the refused records, each with its place in the whole file. */
  lemma {:induction false} RejectsLocate(parse: Parser, file: File, from: nat, r: RejectedLine)
    requires from <= |file|
    ensures r in ReadFrom(parse, file, from).rejected <==> Locates(parse, file, from, r)
    decreases |file| - from
  {
    hide Locates, Record, Newlines;
    NextIs(file, from);
    var end := NextNewline(file, from);
    ReadsOne(parse, file, from);
    if end < |file| {
      RejectsLocate(parse, file, end + 1, r);
      LocatesSplit(parse, file, from, r);
      hide NextNewline, ReadFrom;
      var one, rest := Record(parse, file, from, end), ReadFrom(parse, file, end + 1);
      assert r in ReadFrom(parse, file, from).rejected <==> r in one.rejected || r in rest.rejected;
    } else {
      NoneLocated(parse, file, from, r);
    }
  }

  lemma NoneLocated(parse: Parser, file: File, from: nat, r: RejectedLine)
    requires from <= |file| && NextNewline(file, from) == |file|
    ensures !Locates(parse, file, from, r)
  {
    hide Newlines;
  }

  lemma LocatesSplit(parse: Parser, file: File, from: nat, r: RejectedLine)
    requires from <= |file| && NextNewline(file, from) < |file|
    ensures var end := NextNewline(file, from);
            Locates(parse, file, from, r) <==>
              r in Record(parse, file, from, end).rejected || Locates(parse, file, end + 1, r)
  {
    hide Newlines;
    var end := NextNewline(file, from);
    if Locates(parse, file, from, r) {
      FirstRecord(file, from, r.byteOffset, r.byteOffset + |r.line|);
    }
    if Locates(parse, file, end + 1, r) {
      LaterRecord(file, from, r.byteOffset, r.byteOffset + |r.line|);
    }
  }

  /** Some whole record parses to `p`. */
  ghost predicate Says(parse: Parser, file: File, from: nat, p: Parsed) {
    exists start: nat, end: nat :: IsRecord(file, from, start, end) && start < end && parse(file[start..end]) == p
  }

  lemma SaysSplit(parse: Parser, file: File, from: nat, p: Parsed)
    requires from <= |file| && NextNewline(file, from) < |file|
    ensures var end := NextNewline(file, from);
            Says(parse, file, from, p) <==> (from < end && parse(file[from..end]) == p) || Says(parse, file, end + 1, p)
  {
    var end := NextNewline(file, from);
    if s: nat, t: nat :| IsRecord(file, from, s, t) && s < t && parse(file[s..t]) == p {
      FirstRecord(file, from, s, t);
    }
    if from < end && parse(file[from..end]) == p {
      assert IsRecord(file, from, from, end);
    }
    if s: nat, t: nat :| IsRecord(file, end + 1, s, t) && s < t && parse(file[s..t]) == p {
      LaterRecord(file, from, s, t);
    }
  }

  lemma NothingSaid(parse: Parser, file: File, from: nat, p: Parsed)
    requires from <= |file| && NextNewline(file, from) == |file|
    ensures !Says(parse, file, from, p)
  {
  }

  /** An event is delivered, known or opaque, exactly when some whole record parses to it that way. */
  lemma {:induction false} EventsComplete(parse: Parser, file: File, from: nat, e: Event)
    requires from <= |file|
    ensures e in ReadFrom(parse, file, from).events <==> Says(parse, file, from, Known(e))
    ensures e in ReadFrom(parse, file, from).opaques <==> Says(parse, file, from, Opaque(e))
    decreases |file| - from
  {
    hide Says, ReadFrom;
    ReadsOne(parse, file, from);
    NextIs(file, from);
    var end := NextNewline(file, from);
    if end < |file| {
      EventsComplete(parse, file, end + 1, e);
      SaysSplit(parse, file, from, Known(e));
      SaysSplit(parse, file, from, Opaque(e));
      hide NextNewline;
      var one, rest := Record(parse, file, from, end), ReadFrom(parse, file, end + 1);
      assert e in ReadFrom(parse, file, from).events <==> e in one.events || e in rest.events;
      assert e in ReadFrom(parse, file, from).opaques <==> e in one.opaques || e in rest.opaques;
    } else {
      NothingSaid(parse, file, from, Known(e));
      NothingSaid(parse, file, from, Opaque(e));
    }
  }

  datatype Place = Place(start: nat, end: nat)

  /** `places` are the whole records from `from` on: all of them, nothing else, each once, in file order. */
  ghost predicate Lists(file: File, from: nat, places: seq<Place>) {
    && (forall i :: 0 <= i < |places| ==> IsRecord(file, from, places[i].start, places[i].end))
    && (forall i, j :: 0 <= i < j < |places| ==> places[i].end < places[j].start)
    && (forall start, end :: IsRecord(file, from, start, end) ==> Place(start, end) in places)
  }

  /** What the records at `places` contribute, one after another. */
  ghost function Collect(parse: Parser, file: File, places: seq<Place>): Batch
    requires forall i :: 0 <= i < |places| ==> places[i].start <= places[i].end <= |file|
  {
    if places == [] then NOTHING
    else Record(parse, file, places[0].start, places[0].end).Then(Collect(parse, file, places[1..]))
  }

  ghost function Places(file: File, from: nat): (places: seq<Place>)
    requires from <= |file|
    decreases |file| - from
  {
    var end := NextNewline(file, from);
    if end == |file| then [] else [Place(from, end)] + Places(file, end + 1)
  }

  lemma {:induction false} PlacesList(file: File, from: nat)
    requires from <= |file|
    ensures Lists(file, from, Places(file, from))
    decreases |file| - from
  {
    hide Lists;
    NextIs(file, from);
    var end := NextNewline(file, from);
    if end < |file| {
      PlacesList(file, end + 1);
      MoreListed(file, from, Places(file, end + 1));
      hide NextNewline;
    } else {
      assert Lists(file, from, []) by { NoRecords(file, from); }
    }
  }

  lemma NoRecords(file: File, from: nat)
    requires from <= |file| && NextNewline(file, from) == |file|
    ensures Lists(file, from, [])
  {
  }

  lemma MoreListed(file: File, from: nat, later: seq<Place>)
    requires from <= |file| && NextNewline(file, from) < |file| && Lists(file, NextNewline(file, from) + 1, later)
    ensures Lists(file, from, [Place(from, NextNewline(file, from))] + later)
  {
    NextIs(file, from);
    var end := NextNewline(file, from);
    var places := [Place(from, end)] + later;
    forall i | 0 <= i < |places| ensures IsRecord(file, from, places[i].start, places[i].end) {
      if i > 0 {
        LaterRecord(file, from, later[i - 1].start, later[i - 1].end);
      }
    }
    forall s: nat, t: nat | IsRecord(file, from, s, t) ensures Place(s, t) in places {
      FirstRecord(file, from, s, t);
      assert s == from ==> places[0] == Place(s, t);
    }
  }

  /** A list of the records starts with the first one and goes on with a list of the rest. */
  lemma ListedFirst(file: File, from: nat, places: seq<Place>)
    requires from <= |file| && NextNewline(file, from) < |file| && Lists(file, from, places)
    ensures places != [] && places[0] == Place(from, NextNewline(file, from))
    ensures Lists(file, NextNewline(file, from) + 1, places[1..])
  {
    NextIs(file, from);
    var end := NextNewline(file, from);
    assert IsRecord(file, from, from, end);
    var k :| 0 <= k < |places| && places[k] == Place(from, end);
    hide NextNewline;
    assert k == 0 by {
      assert IsRecord(file, from, places[0].start, places[0].end);
    }
    RestListed(file, from, end, places);
  }

  lemma RestListed(file: File, from: nat, end: nat, places: seq<Place>)
    requires from <= end < |file| && file[end] == NEWLINE
    requires Lists(file, from, places) && places != [] && places[0] == Place(from, end)
    ensures Lists(file, end + 1, places[1..])
  {
    var rest := places[1..];
    forall i | 0 <= i < |rest| ensures IsRecord(file, end + 1, rest[i].start, rest[i].end) {
      assert rest[i] == places[i + 1];
    }
    forall s: nat, t: nat | IsRecord(file, end + 1, s, t) ensures Place(s, t) in rest {
      assert IsRecord(file, from, s, t);
      var m :| 0 <= m < |places| && places[m] == Place(s, t);
      assert m > 0 && rest[m - 1] == places[m];
    }
  }

  /**
   A read delivers every whole record once and in file order: its events, its opaque events and its rejects are
   what the listed records contribute one after another.
   */
  lemma {:induction false} DeliversInOrder(parse: Parser, file: File, from: nat, places: seq<Place>)
    requires from <= |file| && Lists(file, from, places)
    ensures ReadFrom(parse, file, from) == Collect(parse, file, places)
    decreases |file| - from
  {
    hide Lists, ReadFrom, Record;
    ReadsOne(parse, file, from);
    if NextNewline(file, from) < |file| {
      ListedFirst(file, from, places);
      DeliversInOrder(parse, file, NextNewline(file, from) + 1, places[1..]);
    } else {
      NoneListed(file, from, places);
    }
  }

  lemma NoneListed(file: File, from: nat, places: seq<Place>)
    requires from <= |file| && NextNewline(file, from) == |file| && Lists(file, from, places)
    ensures places == []
  {
    hide NextNewline;
    if places != [] {
      FirstRecord(file, from, places[0].start, places[0].end);
    }
  }

  // ---- file names --------------------------------------------------------------------------------------------

  const EXTENSION := ".jsonl"

  datatype SpoolKey = SpoolKey(collector: string, sessionId: string)

  function SpoolFileName(key: SpoolKey): string { key.collector + "." + key.sessionId + EXTENSION }

  function StripSuffix(name: string, suffix: string): Option<string> {
    if |suffix| <= |name| && name[|name| - |suffix|..] == suffix then Some(name[..|name| - |suffix|]) else None
  }

  function FirstDot(s: string, from: nat): (p: nat)
    requires from <= |s|
    ensures from <= p <= |s| && (p < |s| ==> s[p] == '.')
    ensures forall k :: from <= k < p ==> s[k] != '.'
    decreases |s| - from
  {
    if from == |s| || s[from] == '.' then from else FirstDot(s, from + 1)
  }

  function ParseSpoolFileName(name: string): Option<SpoolKey> {
    match StripSuffix(name, EXTENSION)
    case None => None
    case Some(rest) =>
      var dot := FirstDot(rest, 0);
      if dot == |rest| || dot == 0 || dot + 1 == |rest| then None
      else Some(SpoolKey(rest[..dot], rest[dot + 1..]))
  }

  /** The keys the grammar can name: a dot ends the collector, and neither part is empty. */
  predicate Nameable(key: SpoolKey) { key.collector != "" && key.sessionId != "" && '.' !in key.collector }

  /** Printing a parsed name gives it back, so two files never share an offset. */
  lemma ParsedNamePrints(name: string)
    ensures var key := ParseSpoolFileName(name);
            key.Some? ==> SpoolFileName(key.value) == name && Nameable(key.value)
                          && name == key.value.collector + "." + key.value.sessionId + ".jsonl"
  {
    var key := ParseSpoolFileName(name);
    if key.Some? {
      var rest := StripSuffix(name, EXTENSION).value;
      assert name == rest + EXTENSION;
      assert rest == key.value.collector + "." + key.value.sessionId;
    }
  }

  /** A printed key is read back as itself exactly when the grammar can name it. */
  lemma PrintedNameParsesIff(key: SpoolKey)
    ensures ParseSpoolFileName(SpoolFileName(key)) == Some(key) <==> Nameable(key)
  {
    var name, rest := SpoolFileName(key), key.collector + "." + key.sessionId;
    assert name[..|name| - |EXTENSION|] == rest && name[|name| - |EXTENSION|..] == EXTENSION;
    var c := |key.collector|;
    assert rest[c] == '.' && rest[..c] == key.collector && rest[c + 1..] == key.sessionId;
    if Nameable(key) {
      assert forall k :: 0 <= k < c ==> rest[k] == key.collector[k];
      assert FirstDot(rest, 0) == c;
    }
  }

  lemma KeysNameFiles(a: string, b: string)
    requires ParseSpoolFileName(a).Some? && ParseSpoolFileName(a) == ParseSpoolFileName(b)
    ensures a == b
  {
    ParsedNamePrints(a);
    ParsedNamePrints(b);
  }
}
