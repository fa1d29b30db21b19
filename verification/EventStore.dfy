/**
 The console's bounded fact history with its time-bucketed span index: a circular buffer whose every
 eviction keeps the span map, the buckets, the open-span queue and the counters consistent.

 Timestamps are whole milliseconds, already parsed.
 */
module EventStore {
  import opened Prelude

  const BUCKET_MS := 2000

  function BucketIdx(t: int, t0: int): int { (t - t0) / BUCKET_MS }

  /** The last bucket of a half-open interval; an empty one still occupies the bucket it starts in. */
  function LastBucketOf(start: int, end: int, t0: int): int { BucketIdx(Max(start, end - 1), t0) }

  datatype FactType = SpanType | OtherType(name: string)

  datatype Fact =
    | SpanFact(collector: string, tsMs: int, spanId: string, tStartMs: int, tEndMs: int, detail: string)
    | OtherFact(collector: string, tsMs: int, kind: string, detail: string)
  {
    function Type(): FactType { if SpanFact? then SpanType else OtherType(kind) }
  }

  datatype RingEntry = RingEntry(seqNo: nat, fact: Fact)

  /** One span as the store shows it: open while `tEndMs` is `None`, else backed by a ring entry. */
  datatype SpanRecord = SpanRecord(spanId: string, tStartMs: int, tEndMs: Option<int>, detail: string,
                                   bucketStart: int, bucketEnd: int, ringSeq: Option<nat>)

  function ClosedRecord(f: Fact, seqNo: nat, t0: int): SpanRecord
    requires f.SpanFact?
  {
    SpanRecord(f.spanId, f.tStartMs, Some(f.tEndMs), f.detail,
               BucketIdx(f.tStartMs, t0), LastBucketOf(f.tStartMs, f.tEndMs, t0), Some(seqNo))
  }

  function OpenRecord(id: string, tStartMs: int, detail: string, t0: int): SpanRecord {
    SpanRecord(id, tStartMs, None, detail, BucketIdx(tStartMs, t0), BucketIdx(tStartMs, t0), None)
  }

  lemma BucketsGrow(a: int, b: int, t0: int)
    requires a <= b
    ensures BucketIdx(a, t0) <= BucketIdx(b, t0)
  {
  }

  // ---- the bucket index as a value ----------------------------------------------------------------

  type Buckets = map<int, set<string>>

  ghost predicate Has(buckets: Buckets, b: int, id: string) { b in buckets && id in buckets[b] }

  ghost predicate NoEmpty(buckets: Buckets) { forall b :: b in buckets ==> buckets[b] != {} }

  ghost predicate Spans(spanMap: map<string, SpanRecord>, b: int, id: string) {
    id in spanMap && spanMap[id].bucketStart <= b <= spanMap[id].bucketEnd
  }

  /** A span id is in bucket `b` exactly when its record's range says so, and no bucket is kept empty. */
  ghost predicate Indexed(spanMap: map<string, SpanRecord>, buckets: Buckets) {
    && NoEmpty(buckets)
    && forall b, id :: Has(buckets, b, id) <==> Spans(spanMap, b, id)
  }

  /** `after` differs from `before` by `id` alone, and there by membership in `from..last`. */
  ghost predicate Changed(before: Buckets, after: Buckets, id: string, from: int, last: int, present: bool) {
    && (NoEmpty(before) ==> NoEmpty(after))
    && forall b, i :: Has(after, b, i) <==> if i == id && from <= b <= last then present else Has(before, b, i)
  }

  function AddAt(buckets: Buckets, b: int, id: string): (r: Buckets)
    ensures NoEmpty(buckets) ==> NoEmpty(r)
    ensures forall b', i :: Has(r, b', i) <==> Has(buckets, b', i) || (b' == b && i == id)
  {
    var members := if b in buckets then buckets[b] else {};
    assert id in members + {id};
    buckets[b := members + {id}]
  }

  function DeleteAt(buckets: Buckets, b: int, id: string): (r: Buckets)
    ensures NoEmpty(buckets) ==> NoEmpty(r)
    ensures forall b', i :: Has(r, b', i) <==> Has(buckets, b', i) && !(b' == b && i == id)
  {
    if b !in buckets then buckets
    else
      var members := buckets[b] - {id};
      assert forall i :: i in buckets[b] && i != id ==> i in members;
      if members == {} then buckets - {b} else buckets[b := members]
  }

  lemma SameRange(before: Buckets, after: Buckets, id: string, from: int, last: int, last': int, present: bool)
    requires Changed(before, after, id, from, last, present) && (last == last' || (last < from && last' < from))
    ensures Changed(before, after, id, from, last', present)
  {
  }

  method InsertIntoBuckets(before: Buckets, id: string, from: int, last: int) returns (buckets: Buckets)
    ensures Changed(before, buckets, id, from, last, true)
  {
    hide Has, NoEmpty;
    buckets := before;
    var b := from;
    while b <= last
      invariant from <= b <= Max(from, last + 1)
      invariant Changed(before, buckets, id, from, b - 1, true)
    {
      buckets := AddAt(buckets, b, id);
      b := b + 1;
    }
    SameRange(before, buckets, id, from, b - 1, last, true);
  }

  method RemoveFromBuckets(before: Buckets, id: string, from: int, last: int) returns (buckets: Buckets)
    ensures Changed(before, buckets, id, from, last, false)
  {
    hide Has, NoEmpty;
    buckets := before;
    var b := from;
    while b <= last
      invariant from <= b <= Max(from, last + 1)
      invariant Changed(before, buckets, id, from, b - 1, false)
    {
      buckets := DeleteAt(buckets, b, id);
      b := b + 1;
    }
    SameRange(before, buckets, id, from, b - 1, last, false);
  }

  lemma IndexAdds(spanMap: map<string, SpanRecord>, buckets: Buckets, after: Buckets, r: SpanRecord)
    requires r.spanId !in spanMap && Changed(buckets, after, r.spanId, r.bucketStart, r.bucketEnd, true)
    ensures Indexed(spanMap, buckets) ==> Indexed(spanMap[r.spanId := r], after)
  {
    hide Has, NoEmpty;
  }

  lemma IndexDrops(spanMap: map<string, SpanRecord>, buckets: Buckets, after: Buckets, id: string)
    requires id in spanMap
    requires Changed(buckets, after, id, spanMap[id].bucketStart, spanMap[id].bucketEnd, false)
    ensures Indexed(spanMap, buckets) ==> Indexed(spanMap - {id}, after)
  {
    hide Has, NoEmpty;
  }

  lemma IndexExtends(spanMap: map<string, SpanRecord>, buckets: Buckets, after: Buckets, id: string, end: int)
    requires id in spanMap && spanMap[id].bucketStart <= spanMap[id].bucketEnd < end
    requires Changed(buckets, after, id, spanMap[id].bucketEnd + 1, end, true)
    ensures Indexed(spanMap, buckets) ==> Indexed(spanMap[id := spanMap[id].(bucketEnd := end)], after)
  {
    hide Has, NoEmpty;
  }

  /** `after` reconciles the buckets of `id` with a new end, and with the end alone. */
  ghost predicate EndMoved(before: Buckets, after: Buckets, id: string, oldEnd: int, newEnd: int) {
    if oldEnd > newEnd then Changed(before, after, id, newEnd + 1, oldEnd, false)
    else if oldEnd < newEnd then Changed(before, after, id, oldEnd + 1, newEnd, true)
    else after == before
  }

  /** Replacing a record moves only the end of its buckets, so the index stays exact if and only if the
      record still starts in the bucket it started in. */
  lemma IndexReplaces(spanMap: map<string, SpanRecord>, buckets: Buckets, after: Buckets, r: SpanRecord)
    requires r.spanId in spanMap && r.bucketStart <= r.bucketEnd && Indexed(spanMap, buckets)
    requires spanMap[r.spanId].bucketStart <= spanMap[r.spanId].bucketEnd
    requires EndMoved(buckets, after, r.spanId, spanMap[r.spanId].bucketEnd, r.bucketEnd)
    ensures Indexed(spanMap[r.spanId := r], after) <==> r.bucketStart == spanMap[r.spanId].bucketStart
  {
    var old', id := spanMap[r.spanId], r.spanId;
    forall b, i
      ensures Has(after, b, i) <==> if i == id then old'.bucketStart <= b <= r.bucketEnd else Spans(spanMap, b, i)
    {
      assert Has(buckets, b, i) <==> Spans(spanMap, b, i);
    }
    hide Has, NoEmpty;
    assert Has(after, old'.bucketStart, id) <==> old'.bucketStart <= r.bucketEnd;
    assert Has(after, r.bucketStart, id) <==> old'.bucketStart <= r.bucketStart;
    assert Spans(spanMap[id := r], old'.bucketStart, id) <==> r.bucketStart <= old'.bucketStart <= r.bucketEnd;
    assert Spans(spanMap[id := r], r.bucketStart, id);
  }

  /** A span recorded in bucket 0 and closed again from bucket 1 on leaves its old bucket behind. */
  lemma MovedStartExample(buckets: Buckets, after: Buckets)
    requires var r := ClosedRecord(SpanFact("c", 0, "s", 0, 100, ""), 0, 0);
             Indexed(map["s" := r], buckets) && EndMoved(buckets, after, "s", r.bucketEnd, 1)
    ensures !Indexed(map["s" := ClosedRecord(SpanFact("c", 0, "s", 2000, 2100, ""), 1, 0)], after)
  {
    var r := ClosedRecord(SpanFact("c", 0, "s", 0, 100, ""), 0, 0);
    var moved := ClosedRecord(SpanFact("c", 0, "s", 2000, 2100, ""), 1, 0);
    IndexReplaces(map["s" := r], buckets, after, moved);
    assert map["s" := r]["s" := moved] == map["s" := moved];
  }

  // ---- what the span map must say about the ring ------------------------------------------------------

  /** A record is closed exactly when it is backed by a retained fact for its id, and then shows that fact. */
  ghost predicate RecordOk(r: SpanRecord, id: string, history: seq<Fact>, lo: nat, t0: int) {
    && r.spanId == id && r.bucketStart == BucketIdx(r.tStartMs, t0) && r.bucketStart <= r.bucketEnd
    && (r.tEndMs.Some? <==> r.ringSeq.Some?)
    && (r.ringSeq.Some? ==>
          var k := r.ringSeq.value;
          lo <= k < |history| && history[k].SpanFact? && history[k].spanId == id
          && r == ClosedRecord(history[k], k, t0))
  }

  /** The retained facts are `history[lo..]`; every span among them has a record, pointing at its latest fact. */
  ghost predicate SpansMatch(spanMap: map<string, SpanRecord>, history: seq<Fact>, lo: nat, t0: int) {
    && (forall id :: id in spanMap ==> RecordOk(spanMap[id], id, history, lo, t0))
    && (forall k :: lo <= k < |history| && history[k].SpanFact? ==>
          && history[k].spanId in spanMap
          && spanMap[history[k].spanId].ringSeq.Some?
          && k <= spanMap[history[k].spanId].ringSeq.value)
  }

  /** Forgetting the oldest retained fact takes its span's record with it when nothing newer backs it. */
  lemma EvictMatches(spanMap: map<string, SpanRecord>, after: map<string, SpanRecord>, history: seq<Fact>,
                    lo: nat, t0: int)
    requires SpansMatch(spanMap, history, lo, t0) && lo < |history|
    requires after == if history[lo].SpanFact? && spanMap[history[lo].spanId].ringSeq == Some(lo)
                      then spanMap - {history[lo].spanId} else spanMap
    ensures SpansMatch(after, history, lo + 1, t0)
  {
    hide BucketIdx, LastBucketOf;
  }

  lemma PushMatches(spanMap: map<string, SpanRecord>, after: map<string, SpanRecord>, history: seq<Fact>, lo: nat,
                    t0: int, f: Fact)
    requires SpansMatch(spanMap, history, lo, t0) && lo <= |history|
    requires after == if f.SpanFact? then spanMap[f.spanId := ClosedRecord(f, |history|, t0)] else spanMap
    ensures SpansMatch(after, history + [f], lo, t0)
  {
    if f.SpanFact? {
      BucketsGrow(f.tStartMs, Max(f.tStartMs, f.tEndMs - 1), t0);
    }
    hide BucketIdx;
  }

  // ---- records against the facts -------------------------------------------------------------------------

  /** The record shows the fact: its span, from when to when, and its detail. */
  predicate Shows(r: SpanRecord, f: Fact) {
    && f.SpanFact? && r.spanId == f.spanId && r.detail == f.detail
    && r.tStartMs == f.tStartMs && r.tEndMs == Some(f.tEndMs)
  }

  /** Fact `k` is the newest retained fact of its span. */
  ghost predicate Latest(history: seq<Fact>, lo: int, k: int) {
    && 0 <= k && lo <= k < |history| && history[k].SpanFact?
    && forall j :: k < j < |history| && history[j].SpanFact? ==> history[j].spanId != history[k].spanId
  }

  /** The closed records are exactly the spans of the retained facts, each as its newest fact reports it. */
  lemma RecordsShow(spanMap: map<string, SpanRecord>, history: seq<Fact>, lo: nat, t0: int)
    requires SpansMatch(spanMap, history, lo, t0)
    ensures forall k :: Latest(history, lo, k) ==>
              history[k].spanId in spanMap && Shows(spanMap[history[k].spanId], history[k])
    ensures forall id :: id in spanMap && spanMap[id].tEndMs.Some? ==>
              exists k :: Latest(history, lo, k) && history[k].spanId == id
  {
    hide BucketIdx, LastBucketOf;
    forall id | id in spanMap && spanMap[id].tEndMs.Some?
      ensures exists k :: Latest(history, lo, k) && history[k].spanId == id
    {
      assert RecordOk(spanMap[id], id, history, lo, t0);
      assert Latest(history, lo, spanMap[id].ringSeq.value);
    }
  }

  lemma ClosedShows(f: Fact, seqNo: nat, t0: int)
    ensures f.SpanFact? ==> Shows(ClosedRecord(f, seqNo, t0), f)
  {
  }

  /** The record shows a span that started and has not ended, as it was announced. */
  predicate ShowsOpen(r: SpanRecord, id: string, tStartMs: int, detail: string) {
    r.spanId == id && r.tStartMs == tStartMs && r.tEndMs == None && r.detail == detail
  }

  /** What a query over `[tStart, tEnd)` says of the retained facts and the open spans: the span of every newest
      fact that overlaps it, and every open span that has started, each once and nothing else. */
  ghost predicate Answers(out: seq<SpanRecord>, spanMap: map<string, SpanRecord>, history: seq<Fact>, lo: int,
                          tStart: int, tEnd: int) {
    && NoDuplicates(out)
    && (forall k :: Latest(history, lo, k) ==>
          ((exists r :: r in out && Shows(r, history[k])) <==>
             history[k].tStartMs < tEnd && tStart < history[k].tEndMs))
    && (forall id :: IsOpen(spanMap, id) ==>
          (spanMap[id] in out <==> spanMap[id].tStartMs < tEnd && tStart < tEnd))
    && forall r :: r in out ==>
         (IsOpen(spanMap, r.spanId) && spanMap[r.spanId] == r)
         || exists k :: Latest(history, lo, k) && Shows(r, history[k])
  }

  lemma ScanAnswers(out: seq<SpanRecord>, spanMap: map<string, SpanRecord>, history: seq<Fact>, lo: nat, t0: int,
                    tStart: int, tEnd: int)
    requires SpansMatch(spanMap, history, lo, t0) && NoDuplicates(out)
    requires forall r :: r in out <==> r.spanId in spanMap && spanMap[r.spanId] == r && Overlaps(r, tStart, tEnd)
    ensures Answers(out, spanMap, history, lo, tStart, tEnd)
  {
    RecordsShow(spanMap, history, lo, t0);
    assert forall id :: id in spanMap ==> spanMap[id].spanId == id by {
      hide BucketIdx, LastBucketOf;
    }
    hide SpansMatch, Latest;
    forall k | Latest(history, lo, k)
      ensures (exists r :: r in out && Shows(r, history[k])) <==>
                history[k].tStartMs < tEnd && tStart < history[k].tEndMs
    {
      var r := spanMap[history[k].spanId];
      assert Shows(r, history[k]);
    }
  }

  /** A bucket is two seconds long, counted from the store's origin. */
  lemma BucketIs(t: int, t0: int)
    ensures t0 + 2000 * BucketIdx(t, t0) <= t < t0 + 2000 * (BucketIdx(t, t0) + 1)
  {
  }

  /** An interval's last bucket is that of its last millisecond, or of its start when it has none. */
  lemma LastBucketIs(start: int, end: int, t0: int)
    ensures LastBucketOf(start, end, t0) == BucketIdx(if start < end then end - 1 else start, t0)
  {
  }

  // ---- counters -----------------------------------------------------------------------------------------

  /** `counts` holds exactly the keys that occur among `facts`, each with its number of occurrences. */
  ghost predicate Counts<K(!new)>(counts: map<K, nat>, facts: seq<Fact>, key: Fact -> K) {
    forall k :: (k in counts <==> OccurrencesOf(facts, key, k) > 0)
                && (k in counts ==> counts[k] == OccurrencesOf(facts, key, k))
  }

  ghost function OccurrencesOf<K>(facts: seq<Fact>, key: Fact -> K, k: K): nat {
    if facts == [] then 0
    else OccurrencesOf(facts[1..], key, k) + if key(facts[0]) == k then 1 else 0
  }

  lemma {:induction false} OccurrencesAppend<K>(facts: seq<Fact>, f: Fact, key: Fact -> K, k: K)
    ensures OccurrencesOf(facts + [f], key, k) == OccurrencesOf(facts, key, k) + if key(f) == k then 1 else 0
  {
    if facts == [] {
      assert facts + [f] == [f];
    } else {
      assert (facts + [f])[1..] == facts[1..] + [f];
      OccurrencesAppend(facts[1..], f, key, k);
    }
  }

  function Increment<K>(counts: map<K, nat>, k: K): map<K, nat> {
    counts[k := (if k in counts then counts[k] else 0) + 1]
  }

  function Decrement<K>(counts: map<K, nat>, k: K): map<K, nat> {
    if (if k in counts then counts[k] else 0) <= 1 then counts - {k} else counts[k := counts[k] - 1]
  }

  lemma EmptyCounts<K(!new)>(key: Fact -> K)
    ensures Counts(map[], [], key)
  {
  }

  lemma CountsPush<K(!new)>(counts: map<K, nat>, facts: seq<Fact>, f: Fact, key: Fact -> K)
    requires Counts(counts, facts, key)
    ensures Counts(Increment(counts, key(f)), facts + [f], key)
  {
    forall k
      ensures (k in Increment(counts, key(f)) <==> OccurrencesOf(facts + [f], key, k) > 0)
           && (k in Increment(counts, key(f)) ==> Increment(counts, key(f))[k] == OccurrencesOf(facts + [f], key, k))
    {
      OccurrencesAppend(facts, f, key, k);
    }
  }

  lemma CountsDrop<K(!new)>(counts: map<K, nat>, facts: seq<Fact>, key: Fact -> K)
    requires Counts(counts, facts, key) && facts != []
    ensures Counts(Decrement(counts, key(facts[0])), facts[1..], key)
  {
    assert OccurrencesOf(facts, key, key(facts[0])) > 0;
  }

  ghost function TypeKey(): Fact -> FactType { (f: Fact) => f.Type() }

  ghost function CollectorKey(): Fact -> string { (f: Fact) => f.collector }

  lemma {:induction false} OccurrencesAre<K>(facts: seq<Fact>, key: Fact -> K, k: K, p: Fact -> bool)
    requires forall f: Fact :: p(f) <==> key(f) == k
    ensures OccurrencesOf(facts, key, k) == CountOver(facts, p)
  {
    if facts != [] {
      OccurrencesAre(facts[1..], key, k, p);
      CountFront(facts[0], facts[1..], p);
      assert facts == [facts[0]] + facts[1..];
    }
  }

  function IsSpan(): Fact -> bool { (f: Fact) => f.SpanFact? }

  function IsOther(name: string): Fact -> bool { (f: Fact) => f.OtherFact? && f.kind == name }

  function FromCollector(name: string): Fact -> bool { (f: Fact) => f.collector == name }

  /** What the counters say of the facts counted: how many spans, how many of each other kind, how many from each
      collector; a counter that is missing is zero. */
  lemma CountersTell(types: map<FactType, nat>, collectors: map<string, nat>, facts: seq<Fact>, name: string)
    requires Counts(types, facts, TypeKey()) && Counts(collectors, facts, CollectorKey())
    ensures (if SpanType in types then types[SpanType] else 0) == CountOver(facts, IsSpan())
    ensures (if OtherType(name) in types then types[OtherType(name)] else 0) == CountOver(facts, IsOther(name))
    ensures (if name in collectors then collectors[name] else 0) == CountOver(facts, FromCollector(name))
  {
    OccurrencesAre(facts, TypeKey(), SpanType, IsSpan());
    OccurrencesAre(facts, TypeKey(), OtherType(name), IsOther(name));
    OccurrencesAre(facts, CollectorKey(), name, FromCollector(name));
    hide CountOver, OccurrencesOf;
  }

  // ---- the open-span queue --------------------------------------------------------------------------------

  ghost predicate IsOpen(spanMap: map<string, SpanRecord>, id: string) { id in spanMap && spanMap[id].tEndMs == None }

  /** The queue is exactly the open records, each once. */
  ghost predicate Queued(order: seq<string>, spanMap: map<string, SpanRecord>) {
    NoDuplicates(order) && forall id :: id in order <==> IsOpen(spanMap, id)
  }

  function Without(order: seq<string>, id: string): (r: seq<string>)
    ensures NoDuplicates(order) ==> NoDuplicates(r) && forall x :: x in r <==> x in order && x != id
    ensures |r| <= |order|
  {
    if order == [] then []
    else if order[0] == id then order[1..]
    else
      var rest := Without(order[1..], id);
      assert order == [order[0]] + order[1..];
      assert NoDuplicates(order) ==> NoDuplicates(order[1..]) && order[0] !in order[1..];
      assert forall i :: 0 <= i < |rest| ==> rest[i] in rest;
      [order[0]] + rest
  }

  function Except(id: string): string -> bool { (x: string) => x != id }

  /** Taking a span out of the queue leaves the others in their order. */
  lemma {:induction false} WithoutKeepsOrder(order: seq<string>, id: string)
    requires NoDuplicates(order)
    ensures Without(order, id) == Filter(order, Except(id))
  {
    if order != [] {
      WithoutFront(order, id);
      FilterFront(order[0], order[1..], Except(id));
      assert order == [order[0]] + order[1..] && NoDuplicates(order[1..]);
      hide Filter, Without;
      if order[0] == id {
        assert forall x :: x in order[1..] ==> Except(id)(x);
        FilterAll(order[1..], Except(id));
      } else {
        WithoutKeepsOrder(order[1..], id);
      }
    }
  }

  lemma WithoutFront(order: seq<string>, id: string)
    requires order != []
    ensures Without(order, id) == if order[0] == id then order[1..] else [order[0]] + Without(order[1..], id)
  {
  }

  lemma StillInOrder(order: seq<string>, id: string, spanMap: map<string, SpanRecord>)
    requires Queued(order, spanMap) && !IsOpen(spanMap, id)
    ensures Filter(order, Except(id)) == order
  {
    FilterAll(order, Except(id));
  }

  lemma {:induction false} FilterFront(x: string, xs: seq<string>, keep: string -> bool)
    ensures Filter([x] + xs, keep) == (if keep(x) then [x] else []) + Filter(xs, keep)
  {
    if xs == [] {
      assert [x] + xs == [x] && [x][..0] == [];
    } else {
      var n := |xs| - 1;
      FilterFront(x, xs[..n], keep);
      assert ([x] + xs)[..n + 1] == [x] + xs[..n];
    }
  }

  lemma {:induction false} FilterAll(xs: seq<string>, keep: string -> bool)
    requires forall x :: x in xs ==> keep(x)
    ensures Filter(xs, keep) == xs
  {
    if xs != [] {
      var n := |xs| - 1;
      assert xs == xs[..n] + [xs[n]] && keep(xs[n]);
      FilterAll(xs[..n], keep);
    }
  }

  // ---- overlap queries ----------------------------------------------------------------------------------------

  /** Whether a record overlaps `[tStart, tEnd)`; an open span runs to the end of the query. */
  predicate Overlaps(r: SpanRecord, tStart: int, tEnd: int) {
    r.tStartMs < tEnd && tStart < if r.tEndMs.Some? then r.tEndMs.value else tEnd
  }

  /** A record that overlaps the interval occupies one of the interval's buckets, provided it reaches as far as
      its own end, or as the interval's when open. */
  lemma OverlapSharesBucket(r: SpanRecord, tStart: int, tEnd: int, t0: int)
    requires Overlaps(r, tStart, tEnd) && r.bucketStart == BucketIdx(r.tStartMs, t0) && r.bucketStart <= r.bucketEnd
    requires if r.tEndMs.Some? then r.bucketEnd == LastBucketOf(r.tStartMs, r.tEndMs.value, t0)
             else LastBucketOf(tStart, tEnd, t0) <= r.bucketEnd
    ensures var b := Max(r.bucketStart, BucketIdx(tStart, t0));
            BucketIdx(tStart, t0) <= b <= LastBucketOf(tStart, tEnd, t0) && r.bucketStart <= b <= r.bucketEnd
  {
    BucketsGrow(r.tStartMs, Max(tStart, tEnd - 1), t0);
    BucketsGrow(tStart, Max(tStart, tEnd - 1), t0);
    if r.tEndMs.Some? {
      BucketsGrow(tStart, Max(r.tStartMs, r.tEndMs.value - 1), t0);
    }
  }

  /** Where a ring about to write slot `w` keeps fact `k` of `n`. */
  ghost function Slot(k: int, n: nat, w: nat, capacity: nat): int {
    var i := w - (n - k);
    if 0 <= i then i else i + capacity
  }

  /** The ring keeps the last `count` facts, each in its slot. */
  ghost predicate Holds(slots: seq<Option<RingEntry>>, history: seq<Fact>, count: nat, w: nat) {
    && count <= |history| && count <= |slots| && w < |slots| && (count < |slots| ==> w == count)
    && forall k :: |history| - count <= k < |history| ==>
         slots[Slot(k, |history|, w, |slots|)] == Some(RingEntry(k, history[k]))
  }

  /** Overwriting the next slot keeps the newer facts in theirs. */
  lemma WriteHolds(slots: seq<Option<RingEntry>>, history: seq<Fact>, count: nat, w: nat, f: Fact)
    requires Holds(slots, history, count, w) && (count < |slots| ==> count == |history|)
    ensures Holds(slots[w := Some(RingEntry(|history|, f))], history + [f],
                  if count < |slots| then count + 1 else count, if w + 1 == |slots| then 0 else w + 1)
  {
    var n, w' := |history|, if w + 1 == |slots| then 0 else w + 1;
    var slots' := slots[w := Some(RingEntry(n, f))];
    var count' := if count < |slots| then count + 1 else count;
    forall k | n + 1 - count' <= k < n + 1
      ensures slots'[Slot(k, n + 1, w', |slots|)] == Some(RingEntry(k, (history + [f])[k]))
    {
      if k < n {
        assert Slot(k, n + 1, w', |slots|) == Slot(k, n, w, |slots|) != w;
      } else {
        assert Slot(k, n + 1, w', |slots|) == w;
      }
    }
  }

  /** A full ring is about to overwrite its oldest fact. */
  lemma OldestIsNext(slots: seq<Option<RingEntry>>, history: seq<Fact>, count: nat, w: nat)
    requires Holds(slots, history, count, w) && count == |slots|
    ensures slots[w] == Some(RingEntry(|history| - count, history[|history| - count]))
  {
    assert Slot(|history| - count, |history|, w, |slots|) == w;
  }

  lemma EmptyMatches(spanMap: map<string, SpanRecord>, buckets: Buckets, order: seq<string>,
                     history: seq<Fact>, t0: int)
    requires spanMap == map[] && buckets == map[] && order == [] && history == []
    ensures SpansMatch(spanMap, history, 0, t0) && Indexed(spanMap, buckets) && Queued(order, spanMap)
  {
    hide RecordOk;
  }

  /** What the console does to the store. */
  datatype Step =
    | Ingest(fact: Fact) | Open(id: string, tStartMs: int, detail: string) | Query(tStart: int, tEnd: int) | Publish
  {
    /** The step gives no span id a start other than the one `starts` gives it. */
    predicate Agrees(starts: string -> int) {
      match this
      case Ingest(fact) => fact.SpanFact? ==> fact.tStartMs == starts(fact.spanId)
      case Open(id, tStartMs, _) => tStartMs == starts(id)
      case _ => true
    }
  }

  class EventStore {
    const capacity: nat
    const t0Ms: int
    const openSpanCap: nat
    const ring: array<Option<RingEntry>>
    var writeIndex: nat
    var count: nat
    var nextSeq: nat
    var totalSeen: nat
    var spanMap: map<string, SpanRecord>
    var buckets: Buckets
    var perType: map<FactType, nat>
    var perCollector: map<string, nat>
    var openSpanOrder: seq<string>
    var openSpanDropped: nat
    var dirty: bool
    var rev: nat
    var factsCache: Option<seq<Fact>>

    /** Every fact ever ingested. */
    ghost var history: seq<Fact>

    /** The number of the oldest retained fact. */
    ghost function Oldest(): int
      reads this`history, this`count
    {
      |history| - count
    }

    /** The retained facts: the last `capacity` ingested, or all of them. */
    ghost function Window(): seq<Fact>
      reads this`history, this`count
    {
      if count <= |history| then history[|history| - count..] else []
    }

    ghost predicate RingOk()
      reads this`history, this`writeIndex, this`count, this`nextSeq, this`totalSeen, ring
    {
      && ring.Length == capacity && 1 <= capacity && 1 <= openSpanCap
      && nextSeq == totalSeen == |history|
      && count == Min(capacity, |history|)
      && writeIndex < capacity && (count < capacity ==> writeIndex == |history|)
      && Holds(ring[..], history, count, writeIndex)
    }

    ghost predicate CountersOk()
      reads this`history, this`count, this`perType, this`perCollector
    {
      Counts(perType, Window(), TypeKey()) && Counts(perCollector, Window(), CollectorKey())
    }

    ghost predicate SpansOk()
      reads this`history, this`count, this`spanMap
    {
      count <= |history| && SpansMatch(spanMap, history, |history| - count, t0Ms)
    }

    ghost predicate OpenOk()
      reads this`openSpanOrder, this`spanMap
    {
      Queued(openSpanOrder, spanMap) && |openSpanOrder| <= openSpanCap
    }

    ghost predicate CacheOk()
      reads this`history, this`count, this`factsCache, this`dirty
    {
      factsCache.Some? && !dirty ==> factsCache.value == Window()
    }

    ghost predicate IndexOk()
      reads this`spanMap, this`buckets
    {
      Indexed(spanMap, buckets)
    }

    ghost predicate Valid()
      reads this, ring
    {
      RingOk() && CountersOk() && SpansOk() && OpenOk() && CacheOk()
    }

    constructor (capacity: nat, t0Ms: int, openSpanCap: nat)
      requires 1 <= capacity && 1 <= openSpanCap
      ensures Valid() && IndexOk() && history == [] && spanMap == map[] && fresh(ring)
      ensures this.capacity == capacity && this.t0Ms == t0Ms && this.openSpanCap == openSpanCap
    {
      this.capacity, this.t0Ms, this.openSpanCap := capacity, t0Ms, openSpanCap;
      ring := new Option<RingEntry>[capacity](_ => None);
      writeIndex, count, nextSeq, totalSeen := 0, 0, 0, 0;
      spanMap, buckets, perType, perCollector := map[], map[], map[], map[];
      openSpanOrder, openSpanDropped := [], 0;
      dirty, rev, factsCache := false, 0, None;
      history := [];
      new;
      hide *;
      EmptyIsValid();
    }

    lemma EmptyIsValid()
      requires history == [] && count == 0 && writeIndex == 0 && nextSeq == 0 && totalSeen == 0
      requires spanMap == map[] && buckets == map[] && perType == map[] && perCollector == map[]
      requires openSpanOrder == [] && factsCache == None
      requires ring.Length == capacity && 1 <= capacity && 1 <= openSpanCap
      ensures Valid() && IndexOk()
    {
      hide CountersOk, SpansOk, OpenOk, IndexOk, RingOk, Window;
      EmptyRing();
      EmptyCounters();
      EmptyMaps();
    }

    lemma EmptyCounters()
      requires history == [] && count == 0 && perType == map[] && perCollector == map[]
      ensures CountersOk()
    {
      hide Counts, TypeKey, CollectorKey;
      assert Window() == [];
      EmptyCounts(TypeKey());
      EmptyCounts(CollectorKey());
    }

    lemma EmptyMaps()
      requires history == [] && count == 0 && spanMap == map[] && buckets == map[]
               && openSpanOrder == [] && 1 <= openSpanCap
      ensures SpansOk() && OpenOk() && IndexOk()
    {
      hide SpansMatch, Indexed, Queued;
      EmptyMatches(spanMap, buckets, openSpanOrder, history, t0Ms);
    }

    lemma EmptyRing()
      requires history == [] && count == 0 && writeIndex == 0 && nextSeq == 0 && totalSeen == 0
      requires ring.Length == capacity && 1 <= capacity && 1 <= openSpanCap
      ensures RingOk()
    {
    }

    // ---- ingestion ---------------------------------------------------------------------------------

    /** Takes the fact in slot `index`, the oldest retained one, out of the counters, and its span with it when
        no newer fact backs the record. */
    method EvictSlotAt(index: nat, ghost lo: nat)
      requires RingOk() && CountersOk() && SpansOk() && OpenOk() && count == capacity && index == writeIndex
      requires lo == Oldest() < |history|
      modifies this`perType, this`perCollector, this`spanMap, this`buckets
      ensures Counts(perType, history[lo + 1..], TypeKey()) && Counts(perCollector, history[lo + 1..], CollectorKey())
      ensures history[lo].SpanFact? ==> history[lo].spanId in old(spanMap)
      ensures spanMap == if history[lo].SpanFact? && old(spanMap)[history[lo].spanId].ringSeq == Some(lo)
                         then old(spanMap) - {history[lo].spanId} else old(spanMap)
      ensures SpansMatch(spanMap, history, lo + 1, t0Ms) && OpenOk()
      ensures old(IndexOk()) ==> IndexOk()
    {
      CountersFrom(lo);
      hide *;
      var evicted := EntryAt(index, lo);
      DecrementCounters(evicted.fact, lo);
      EvictRecord(evicted.fact, evicted.seqNo);
    }

    lemma CountersFrom(lo: nat)
      requires CountersOk() && lo == Oldest() < |history|
      ensures Counts(perType, history[lo..], TypeKey()) && Counts(perCollector, history[lo..], CollectorKey())
    {
      WindowIs(lo);
      hide Counts, TypeKey, CollectorKey;
    }

    /** The entry in the next slot of a full ring: the oldest retained fact. */
    method EntryAt(index: nat, ghost lo: nat) returns (entry: RingEntry)
      requires RingOk() && count == capacity && index == writeIndex && lo == Oldest() < |history|
      ensures entry == RingEntry(lo, history[lo])
    {
      OldestIsNext(ring[..], history, count, writeIndex);
      hide Holds;
      entry := ring[index].value;
    }

    /** Takes a departing fact out of the counters. */
    method DecrementCounters(fact: Fact, ghost lo: nat)
      requires lo < |history| && fact == history[lo]
      requires Counts(perType, history[lo..], TypeKey()) && Counts(perCollector, history[lo..], CollectorKey())
      modifies this`perType, this`perCollector
      ensures Counts(perType, history[lo + 1..], TypeKey()) && Counts(perCollector, history[lo + 1..], CollectorKey())
    {
      hide Counts, Decrement;
      OneDropped(history, lo);
      CountsDrop(perType, history[lo..], TypeKey());
      CountsDrop(perCollector, history[lo..], CollectorKey());
      perType, perCollector := Decrement(perType, fact.Type()), Decrement(perCollector, fact.collector);
    }

    /** Removes the record a departing fact still backs, with its buckets. */
    method EvictRecord(fact: Fact, seqNo: nat)
      requires SpansOk() && OpenOk() && seqNo == Oldest() < |history| && fact == history[seqNo]
      modifies this`spanMap, this`buckets
      ensures fact.SpanFact? ==> fact.spanId in old(spanMap)
      ensures spanMap == if fact.SpanFact? && old(spanMap)[fact.spanId].ringSeq == Some(seqNo)
                         then old(spanMap) - {fact.spanId} else old(spanMap)
      ensures SpansMatch(spanMap, history, seqNo + 1, t0Ms) && OpenOk()
      ensures old(IndexOk()) ==> IndexOk()
    {
      hide SpansMatch, Indexed, Changed, Queued;
      RecordBehind(spanMap, history, seqNo, t0Ms);
      if fact.SpanFact? && fact.spanId in spanMap {
        var record := spanMap[fact.spanId];
        if record.ringSeq == Some(seqNo) {
          buckets := RemoveFromBuckets(buckets, fact.spanId, record.bucketStart, record.bucketEnd);
          IndexDrops(spanMap, old(buckets), buckets, fact.spanId);
          StillQueued(openSpanOrder, spanMap, fact.spanId);
          spanMap := spanMap - {fact.spanId};
        }
      }
      EvictMatches(old(spanMap), spanMap, history, seqNo, t0Ms);
    }

    /** Records a closed span, replacing an open or older record of the same id in place. */
    method IngestClosedSpan(fact: Fact, seqNo: nat)
      requires fact.SpanFact? && OpenOk()
      requires fact.spanId in spanMap ==> spanMap[fact.spanId].bucketStart <= spanMap[fact.spanId].bucketEnd
      modifies this`spanMap, this`buckets, this`openSpanOrder
      ensures spanMap == old(spanMap)[fact.spanId := ClosedRecord(fact, seqNo, t0Ms)] && OpenOk()
      ensures Shows(spanMap[fact.spanId], fact)
      ensures openSpanOrder == Filter(old(openSpanOrder), Except(fact.spanId))
      ensures old(IndexOk()) ==>
                (IndexOk() <==> (fact.spanId in old(spanMap) ==>
                                   BucketIdx(fact.tStartMs, t0Ms) == old(spanMap)[fact.spanId].bucketStart))
    {
      ClosedShows(fact, seqNo, t0Ms);
      hide Indexed, Changed, BucketIdx, Shows, Filter, Except, Without;
      var id := fact.spanId;
      var record := ClosedRecord(fact, seqNo, t0Ms);
      BucketsGrow(fact.tStartMs, Max(fact.tStartMs, fact.tEndMs - 1), t0Ms);
      if id in spanMap {
        var existing := spanMap[id];
        if existing.tEndMs == None {
          WithoutKeepsOrder(openSpanOrder, id);
          openSpanOrder := Without(openSpanOrder, id);
        }
        if existing.bucketEnd > record.bucketEnd {
          buckets := RemoveFromBuckets(buckets, id, record.bucketEnd + 1, existing.bucketEnd);
        } else if existing.bucketEnd < record.bucketEnd {
          buckets := InsertIntoBuckets(buckets, id, existing.bucketEnd + 1, record.bucketEnd);
        }
        if old(IndexOk()) {
          IndexReplaces(spanMap, old(buckets), buckets, record);
        }
      } else {
        buckets := InsertIntoBuckets(buckets, id, record.bucketStart, record.bucketEnd);
        IndexAdds(spanMap, old(buckets), buckets, record);
      }
      if id !in spanMap || spanMap[id].tEndMs.Some? {
        StillInOrder(old(openSpanOrder), id, spanMap);
      }
      ClosedLeavesQueue(old(openSpanOrder), openSpanOrder, spanMap, record);
      spanMap := spanMap[id := record];
    }

    /** The record of `id` outlives the eviction the next fact will cause. */
    ghost predicate Survives(id: string)
      reads this`spanMap, this`history
    {
      id in spanMap && !(spanMap[id].ringSeq.Some? && spanMap[id].ringSeq.value == |history| - capacity)
    }

    /** The records that outlive it. */
    ghost function Kept(): map<string, SpanRecord>
      reads this`spanMap, this`history
    {
      map id | id in spanMap && Survives(id) :: spanMap[id]
    }

    /** The next fact keeps its span in the bucket it started in. */
    ghost predicate KeepsBucket(fact: Fact)
      reads this`spanMap, this`history
    {
      fact.SpanFact? && Survives(fact.spanId) ==>
        BucketIdx(fact.tStartMs, t0Ms) == spanMap[fact.spanId].bucketStart
    }

    /** A fact that gives its span the start already recorded keeps it in its bucket. */
    lemma SameStartKeepsBucket(fact: Fact)
      requires SpansOk()
      requires fact.SpanFact? && fact.spanId in spanMap ==> fact.tStartMs == spanMap[fact.spanId].tStartMs
      ensures KeepsBucket(fact)
    {
      hide BucketIdx;
    }

    /** Overwrites the next slot of the ring: the window slides by one once the ring is full. */
    method WriteSlot(fact: Fact)
      requires RingOk()
      modifies this`history, this`writeIndex, this`count, this`nextSeq, this`totalSeen, ring
      ensures RingOk() && history == old(history) + [fact]
      ensures count == Min(old(count) + 1, capacity)
    {
      WriteHolds(ring[..], history, count, writeIndex, fact);
      ghost var slots := ring[..];
      hide Holds, RingIndex;
      ring[writeIndex] := Some(RingEntry(nextSeq, fact));
      assert ring[..] == slots[writeIndex := Some(RingEntry(nextSeq, fact))];
      totalSeen, nextSeq := totalSeen + 1, nextSeq + 1;
      if count < capacity {
        count := count + 1;
      }
      writeIndex := RingIndex(writeIndex, 1, capacity);
      history := history + [fact];
    }

    /** `Valid` but for a window that has lost its oldest facts below `lo` already. */
    ghost predicate ValidFrom(lo: nat)
      reads this, ring
    {
      && RingOk() && OpenOk() && lo <= |history| && SpansMatch(spanMap, history, lo, t0Ms)
      && Counts(perType, history[lo..], TypeKey()) && Counts(perCollector, history[lo..], CollectorKey())
    }

    /** Evicts the oldest fact when the ring is full. */
    method MakeRoom() returns (ghost lo: nat)
      requires Valid()
      modifies this`perType, this`perCollector, this`spanMap, this`buckets
      ensures ValidFrom(lo) && lo == |history| - count + if count == capacity then 1 else 0
      ensures spanMap == old(Kept())
      ensures old(IndexOk()) ==> IndexOk()
    {
      hide Counts, SpansMatch, Indexed, Queued, Holds;
      lo := |history| - count;
      WindowIs(lo);
      NoneAt(spanMap, history, lo, t0Ms);
      if count == capacity {
        RecordBehind(spanMap, history, lo, t0Ms);
        EvictSlotAt(writeIndex, lo);
        lo := lo + 1;
      }
    }

    /** Writes the fact into its slot and counts it. */
    method PushFact(fact: Fact, ghost lo: nat) returns (seqNo: nat)
      requires ValidFrom(lo) && lo == |history| - count + if count == capacity then 1 else 0
      modifies this`history, this`writeIndex, this`count, this`nextSeq, this`totalSeen,
               this`perType, this`perCollector, ring
      ensures RingOk() && CountersOk() && count <= |history| && lo == |history| - count
      ensures history == old(history) + [fact] && seqNo == |old(history)|
    {
      hide Counts, SpansMatch, Queued, Holds, Increment, OpenOk;
      seqNo := nextSeq;
      CountsPush(perType, history[lo..], fact, TypeKey());
      CountsPush(perCollector, history[lo..], fact, CollectorKey());
      SliceAppend(history, fact, lo);
      WriteSlot(fact);
      WindowIs(lo);
      perType, perCollector := Increment(perType, fact.Type()), Increment(perCollector, fact.collector);
    }

    /** Gives the fact just written its span record, if it has one. */
    method RecordFact(fact: Fact, seqNo: nat, ghost lo: nat, ghost before: seq<Fact>)
      requires OpenOk() && lo <= |before| == seqNo && SpansMatch(spanMap, before, lo, t0Ms)
      requires history == before + [fact] && count <= |history| && lo == |history| - count
      modifies this`spanMap, this`buckets, this`openSpanOrder
      ensures SpansOk() && OpenOk()
      ensures spanMap == if fact.SpanFact? then old(spanMap)[fact.spanId := ClosedRecord(fact, seqNo, t0Ms)]
                         else old(spanMap)
      ensures old(IndexOk()) ==>
                (IndexOk() <==> (fact.SpanFact? && fact.spanId in old(spanMap) ==>
                                   BucketIdx(fact.tStartMs, t0Ms) == old(spanMap)[fact.spanId].bucketStart))
    {
      hide SpansMatch, Indexed, Queued, BucketIdx, ClosedRecord;
      ghost var kept := spanMap;
      RecordsOrdered(spanMap, before, lo, t0Ms);
      if fact.SpanFact? {
        IngestClosedSpan(fact, seqNo);
      }
      PushMatches(kept, spanMap, before, lo, t0Ms, fact);
    }

    lemma WindowSize()
      requires RingOk()
      ensures count <= |history|
    {
    }

    /** Ingests one fact. The index stays exact if and only if the fact keeps its span, when that is already
        recorded, in the bucket it started in; a span id that keeps one start always does. */
    method IngestFact(fact: Fact)
      requires Valid()
      modifies this, ring
      ensures Valid() && history == old(history) + [fact] && dirty
      ensures old(IndexOk()) ==> (IndexOk() <==> old(KeepsBucket(fact)))
      ensures spanMap == if fact.SpanFact? then old(Kept())[fact.spanId := ClosedRecord(fact, |old(history)|, t0Ms)]
                         else old(Kept())
      ensures fact.SpanFact? ==> Shows(spanMap[fact.spanId], fact)
      ensures openSpanDropped == old(openSpanDropped) && rev == old(rev)
    {
      hide Counts, SpansMatch, Indexed, Queued, Holds, BucketIdx, RingOk, CountersOk, OpenOk, ClosedRecord, Window;
      WindowSize();
      ghost var lo := MakeRoom();
      var seqNo := PushFact(fact, lo);
      RecordFact(fact, seqNo, lo, old(history));
      ClosedShows(fact, seqNo, t0Ms);
      dirty := true;
    }

    /** Makes room for one more open span, dropping the oldest opened when the cap is reached. */
    method DropOldestOpen()
      requires OpenOk() && SpansOk() && 1 <= openSpanCap
      modifies this`spanMap, this`buckets, this`openSpanOrder, this`openSpanDropped
      ensures OpenOk() && SpansOk() && |openSpanOrder| < openSpanCap
      ensures var full := |old(openSpanOrder)| >= openSpanCap;
              && openSpanOrder == (if full then old(openSpanOrder)[1..] else old(openSpanOrder))
              && spanMap == (if full then old(spanMap) - {old(openSpanOrder)[0]} else old(spanMap))
              && openSpanDropped == old(openSpanDropped) + (if full then 1 else 0)
      ensures old(IndexOk()) ==> IndexOk()
    {
      hide SpansMatch, Indexed, Changed, Queued;
      if |openSpanOrder| >= openSpanCap {
        var oldestId := openSpanOrder[0];
        FirstIsOpen(openSpanOrder, spanMap);
        var oldest := spanMap[oldestId];
        buckets := RemoveFromBuckets(buckets, oldestId, oldest.bucketStart, oldest.bucketEnd);
        IndexDrops(spanMap, old(buckets), buckets, oldestId);
        OpenForgotten(spanMap, oldestId, history, |history| - count, t0Ms);
        openSpanOrder, spanMap := openSpanOrder[1..], spanMap - {oldestId};
        openSpanDropped := openSpanDropped + 1;
      }
    }

    /** Ingests a running span: ignored when the id is known, else queued behind the other open spans. */
    method IngestOpenSpan(id: string, tStartMs: int, detail: string)
      requires Valid()
      modifies this`spanMap, this`buckets, this`openSpanOrder, this`openSpanDropped, this`dirty
      ensures Valid() && (old(IndexOk()) ==> IndexOk())
      ensures id in old(spanMap) ==> spanMap == old(spanMap) && buckets == old(buckets)
                                     && openSpanOrder == old(openSpanOrder) && dirty == old(dirty)
      ensures id !in old(spanMap) ==>
                var full := |old(openSpanOrder)| >= openSpanCap;
                && openSpanOrder == (if full then old(openSpanOrder)[1..] else old(openSpanOrder)) + [id]
                && spanMap == (if full then old(spanMap) - {old(openSpanOrder)[0]} else old(spanMap))
                              [id := OpenRecord(id, tStartMs, detail, t0Ms)]
                && ShowsOpen(spanMap[id], id, tStartMs, detail)
      ensures openSpanDropped == old(openSpanDropped)
                                 + if id !in old(spanMap) && |old(openSpanOrder)| >= openSpanCap then 1 else 0
    {
      hide RingOk, CountersOk, OpenOk, SpansOk, Window, Indexed, OpenRecord, ShowsOpen;
      if id !in spanMap {
        OneOpenAtLeast();
        DropOldestOpen();
        AddOpen(id, tStartMs, detail);
        dirty := true;
      }
    }

    lemma OneOpenAtLeast()
      requires RingOk()
      ensures 1 <= openSpanCap
    {
    }

    /** Records a span that has started and not ended. */
    method AddOpen(id: string, tStartMs: int, detail: string)
      requires SpansOk() && OpenOk() && |openSpanOrder| < openSpanCap && id !in spanMap
      modifies this`spanMap, this`buckets, this`openSpanOrder
      ensures SpansOk() && OpenOk() && (old(IndexOk()) ==> IndexOk())
      ensures openSpanOrder == old(openSpanOrder) + [id]
      ensures spanMap == old(spanMap)[id := OpenRecord(id, tStartMs, detail, t0Ms)]
      ensures ShowsOpen(spanMap[id], id, tStartMs, detail)
    {
      hide SpansMatch, Indexed, Changed, Queued, BucketIdx;
      var record := OpenRecord(id, tStartMs, detail, t0Ms);
      buckets := InsertIntoBuckets(buckets, id, record.bucketStart, record.bucketEnd);
      IndexAdds(spanMap, old(buckets), buckets, record);
      OpenRecorded(spanMap, openSpanOrder, record, history, |history| - count, t0Ms);
      spanMap, openSpanOrder := spanMap[id := record], openSpanOrder + [id];
    }

    // ---- queries -----------------------------------------------------------------------------------

    /** Extends every open span's buckets as far as a query reaches; nothing else changes. */
    method ExtendOpenSpans(endBucket: int)
      requires SpansOk() && OpenOk()
      modifies this`spanMap, this`buckets
      ensures SpansOk() && OpenOk() && (old(IndexOk()) ==> IndexOk())
      ensures Extended(old(spanMap), spanMap, spanMap.Keys, endBucket)
    {
      hide SpansMatch, Indexed, Queued, RecordOk, Changed;
      ghost var before, done := spanMap, {};
      var left := spanMap.Keys;
      while left != {}
        invariant left !! done && left + done == before.Keys
        invariant SpansOk() && OpenOk() && (old(IndexOk()) ==> IndexOk())
        invariant Extended(before, spanMap, done, endBucket)
        decreases left
      {
        var id :| id in left;
        var record := spanMap[id];
        RecordsOrdered(spanMap, history, |history| - count, t0Ms);
        if record.tEndMs == None && record.bucketEnd < endBucket {
          ghost var unextended := buckets;
          buckets := InsertIntoBuckets(buckets, id, record.bucketEnd + 1, endBucket);
          IndexExtends(spanMap, unextended, buckets, id, endBucket);
          OpenExtended(spanMap, openSpanOrder, id, endBucket, history, |history| - count, t0Ms);
          spanMap := spanMap[id := record.(bucketEnd := endBucket)];
        }
        left, done := left - {id}, done + {id};
      }
      assert done == spanMap.Keys;
    }

    /**
     The spans overlapping `[tStart, tEnd)`, found through the buckets. On an exact index they are, each
     once, precisely the records a scan of the whole span map would find, for every interval.
     */
    method SpansOverlapping(tStart: int, tEnd: int) returns (out: seq<SpanRecord>)
      requires Valid()
      modifies this`spanMap, this`buckets
      ensures Valid() && (old(IndexOk()) ==> IndexOk())
      ensures Extended(old(spanMap), spanMap, spanMap.Keys, LastBucketOf(tStart, tEnd, t0Ms))
      ensures NoDuplicates(out)
      ensures forall r :: r in out ==> r.spanId in spanMap && spanMap[r.spanId] == r && Overlaps(r, tStart, tEnd)
      ensures old(IndexOk()) ==>
                && (forall id :: id in spanMap && Overlaps(spanMap[id], tStart, tEnd) ==> spanMap[id] in out)
                && Answers(out, spanMap, history, Oldest(), tStart, tEnd)
    {
      hide RingOk, CountersOk, OpenOk, SpansOk, Indexed, BucketIdx, Window, Overlaps, Extended, Answers, Oldest;
      var startBucket, endBucket := BucketIdx(tStart, t0Ms), LastBucketOf(tStart, tEnd, t0Ms);
      ExtendOpenSpans(endBucket);
      NamedRight();
      ExtendedTwice(old(spanMap), spanMap, endBucket);
      ghost var seen;
      out, seen := Collect(spanMap, buckets, startBucket, endBucket, tStart, tEnd);
      if old(IndexOk()) {
        forall id | id in spanMap && Overlaps(spanMap[id], tStart, tEnd) ensures id in seen {
          InSomeBucket(id, tStart, tEnd);
          var b :| startBucket <= b <= endBucket && Has(buckets, b, id);
        }
        ScanIsAnswer(out, tStart, tEnd);
      }
    }

    lemma ScanIsAnswer(out: seq<SpanRecord>, tStart: int, tEnd: int)
      requires SpansOk() && NoDuplicates(out)
      requires forall r :: r in out ==> r.spanId in spanMap && spanMap[r.spanId] == r && Overlaps(r, tStart, tEnd)
      requires forall id :: id in spanMap && Overlaps(spanMap[id], tStart, tEnd) ==> spanMap[id] in out
      ensures Answers(out, spanMap, history, Oldest(), tStart, tEnd)
    {
      hide SpansMatch, Answers, Overlaps;
      ScanAnswers(out, spanMap, history, |history| - count, t0Ms, tStart, tEnd);
    }

    lemma NamedRight()
      requires SpansOk()
      ensures forall id :: id in spanMap ==> spanMap[id].spanId == id
    {
    }

    lemma InSomeBucket(id: string, tStart: int, tEnd: int)
      requires SpansOk() && IndexOk() && id in spanMap && Overlaps(spanMap[id], tStart, tEnd)
      requires Extended(spanMap, spanMap, spanMap.Keys, LastBucketOf(tStart, tEnd, t0Ms))
      ensures exists b :: BucketIdx(tStart, t0Ms) <= b <= LastBucketOf(tStart, tEnd, t0Ms) && Has(buckets, b, id)
    {
      hide BucketIdx;
      var r := spanMap[id];
      assert RecordOk(r, id, history, |history| - count, t0Ms);
      OverlapSharesBucket(r, tStart, tEnd, t0Ms);
      assert Spans(spanMap, Max(r.bucketStart, BucketIdx(tStart, t0Ms)), id);
    }

    /** The ring walked from its oldest slot. */
    method RingFacts() returns (out: seq<Fact>)
      requires RingOk()
      ensures out == Window()
    {
      out := [];
      var start := if count == capacity then writeIndex else 0;
      ghost var lo := |history| - count;
      WindowIs(lo);
      assert lo + count == |history| && history[lo..lo] == [] && history[lo..lo + count] == history[lo..];
      hide *;
      for i := 0 to count
        invariant out == history[lo..lo + i]
      {
        SlotAt(start, i);
        NextFact(history, lo, lo + i);
        out := out + [ring[RingIndex(start, i, capacity)].value.fact];
      }
    }

    lemma NextFact(facts: seq<Fact>, lo: nat, k: nat)
      requires lo <= k < |facts|
      ensures facts[lo..k + 1] == facts[lo..k] + [facts[k]]
    {
    }

    /** Walking from the oldest slot reaches each retained fact in turn. */
    lemma SlotAt(start: nat, i: nat)
      requires RingOk() && start == (if count == capacity then writeIndex else 0) && i < count
      ensures var index := RingIndex(start, i, capacity);
              index < ring.Length && ring[index] ==
                                   Some(RingEntry(|history| - count + i, history[|history| - count + i]))
    {
      var k := |history| - count + i;
      assert ring[..][Slot(k, |history|, writeIndex, capacity)] == Some(RingEntry(k, history[k]));
    }

    lemma NewestWindow()
      requires RingOk()
      ensures |history| >= Min(capacity, |history|) && Window() == history[|history| - Min(capacity, |history|)..]
    {
      hide Holds;
    }

    /** The retained facts, oldest first, remembered until the next flush. Whenever nothing has been
        ingested since the last flush the answer is exactly the window. */
    method Facts() returns (out: seq<Fact>)
      requires Valid()
      modifies this`factsCache
      ensures Valid() && factsCache == Some(out)
      ensures out == if old(factsCache).Some? then old(factsCache).value else Window()
      ensures !dirty ==> out == history[|history| - Min(capacity, |history|)..]
    {
      hide CountersOk, SpansOk, OpenOk, RingOk, Window, Min;
      if factsCache.Some? {
        out := factsCache.value;
      } else {
        out := RingFacts();
        factsCache := Some(out);
      }
      NewestWindow();
    }

    /** Publishes what was ingested since the last flush: one revision, and no stale cache. */
    method Flush()
      requires Valid()
      modifies this`rev, this`dirty, this`factsCache
      ensures Valid() && !dirty
      ensures rev == old(rev) + if old(dirty) then 1 else 0
      ensures factsCache == if old(dirty) then None else old(factsCache)
    {
      hide CountersOk, SpansOk, OpenOk, RingOk;
      if dirty {
        rev, dirty, factsCache := rev + 1, false, None;
      }
    }

    // ---- runs ------------------------------------------------------------------------------------------------

    /** Every recorded span starts where `starts` says its id does. */
    ghost predicate StartsAt(starts: string -> int)
      reads this`spanMap
    {
      forall id :: id in spanMap ==> spanMap[id].tStartMs == starts(id)
    }

    method RunOne(step: Step, ghost starts: string -> int) returns (found: seq<SpanRecord>)
      requires Valid() && IndexOk() && StartsAt(starts) && step.Agrees(starts)
      modifies this, ring
      ensures Valid() && IndexOk() && StartsAt(starts)
      ensures step.Query? ==>
                FoundAll(found, step.tStart, step.tEnd)
                && Answers(found, spanMap, history, Oldest(), step.tStart, step.tEnd)
    {
      hide SpansMatch, Indexed, Queued, Holds, BucketIdx, RingOk, CountersOk,
           Valid, Counts, LastBucketOf, CacheOk, OpenOk;
      found := [];
      match step
      case Ingest(fact) =>
        KeepsStart(fact, starts);
        IngestFact(fact);
      case Open(id, tStartMs, detail) => IngestOpenSpan(id, tStartMs, detail);
      case Query(tStart, tEnd) => found := SpansOverlapping(tStart, tEnd);
      case Publish =>
        Flush();
        var facts := Facts();
    }

    lemma KeepsStart(fact: Fact, starts: string -> int)
      requires Valid() && StartsAt(starts) && (fact.SpanFact? ==> fact.tStartMs == starts(fact.spanId))
      ensures KeepsBucket(fact)
    {
      hide SpansMatch, RingOk, CountersOk, OpenOk, CacheOk;
      SameStartKeepsBucket(fact);
    }

    /** `found` is, without duplicates, what a scan of the whole span map would find. */
    ghost predicate FoundAll(found: seq<SpanRecord>, tStart: int, tEnd: int)
      reads this`spanMap
    {
      && NoDuplicates(found)
      && forall r :: r in found <==> r.spanId in spanMap && spanMap[r.spanId] == r && Overlaps(r, tStart, tEnd)
    }

    /** In any run in which each span id keeps one start, the index stays exact, so each of its queries finds, as
        `RunOne` says, exactly what a full scan would. */
    method Run(steps: seq<Step>, ghost starts: string -> int)
      requires Valid() && IndexOk() && StartsAt(starts) && forall i :: 0 <= i < |steps| ==> steps[i].Agrees(starts)
      modifies this, ring
      ensures Valid() && IndexOk() && StartsAt(starts)
    {
      hide *;
      for i := 0 to |steps|
        invariant Valid() && IndexOk() && StartsAt(starts)
      {
        var found := RunOne(steps[i], starts);
        assert steps[i].Query? ==> FoundAll(found, steps[i].tStart, steps[i].tEnd);
      }
    }

    lemma WindowIs(lo: nat)
      requires count <= |history| && lo == |history| - count
      ensures Window() == history[lo..]
    {
    }
  }

  lemma FirstIsOpen(order: seq<string>, spanMap: map<string, SpanRecord>)
    requires order != [] && Queued(order, spanMap)
    ensures IsOpen(spanMap, order[0]) && Queued(order[1..], spanMap - {order[0]})
  {
    assert order == [order[0]] + order[1..];
    assert forall i :: IsOpen(spanMap - {order[0]}, i) <==> IsOpen(spanMap, i) && i != order[0];
  }

  /** No retained fact stands behind an open record, so it may be dropped. */
  lemma OpenForgotten(spanMap: map<string, SpanRecord>, id: string, history: seq<Fact>, lo: nat, t0: int)
    requires IsOpen(spanMap, id) && SpansMatch(spanMap, history, lo, t0)
    ensures SpansMatch(spanMap - {id}, history, lo, t0)
  {
    hide BucketIdx, LastBucketOf;
  }

  lemma OpenRecorded(spanMap: map<string, SpanRecord>, order: seq<string>, r: SpanRecord, history: seq<Fact>,
                     lo: nat, t0: int)
    requires SpansMatch(spanMap, history, lo, t0) && Queued(order, spanMap) && r.spanId !in spanMap
    requires r == OpenRecord(r.spanId, r.tStartMs, r.detail, t0)
    ensures SpansMatch(spanMap[r.spanId := r], history, lo, t0)
    ensures Queued(order + [r.spanId], spanMap[r.spanId := r])
  {
    hide BucketIdx, LastBucketOf;
    var after := spanMap[r.spanId := r];
    assert r.spanId !in order by { assert !IsOpen(spanMap, r.spanId); }
    forall i ensures IsOpen(after, i) <==> i in order + [r.spanId] {
      assert IsOpen(spanMap, i) <==> i in order;
      if i == r.spanId {
        assert after[i].tEndMs == None;
      }
    }
  }

  /** `after` is `before` with the open records among `ids` reaching bucket `endBucket` at least. */
  ghost predicate Extended(before: map<string, SpanRecord>, after: map<string, SpanRecord>, ids: set<string>,
                           endBucket: int) {
    && after.Keys == before.Keys
    && forall id :: id in before ==>
         after[id] == if id in ids && before[id].tEndMs == None
                      then before[id].(bucketEnd := Max(before[id].bucketEnd, endBucket)) else before[id]
  }

  lemma ExtendedTwice(before: map<string, SpanRecord>, after: map<string, SpanRecord>, endBucket: int)
    requires Extended(before, after, after.Keys, endBucket)
    ensures Extended(after, after, after.Keys, endBucket)
  {
  }

  lemma OpenExtended(spanMap: map<string, SpanRecord>, order: seq<string>, id: string, end: int,
                     history: seq<Fact>, lo: nat, t0: int)
    requires SpansMatch(spanMap, history, lo, t0) && Queued(order, spanMap)
    requires IsOpen(spanMap, id) && spanMap[id].bucketEnd < end
    ensures SpansMatch(spanMap[id := spanMap[id].(bucketEnd := end)], history, lo, t0)
    ensures Queued(order, spanMap[id := spanMap[id].(bucketEnd := end)])
  {
    hide BucketIdx, LastBucketOf;
    assert forall i :: IsOpen(spanMap[id := spanMap[id].(bucketEnd := end)], i) <==> IsOpen(spanMap, i);
  }

  /** What has been collected after looking at the ids in `seen`. */
  ghost predicate Collected(spanMap: map<string, SpanRecord>, seen: set<string>, out: seq<SpanRecord>,
                            tStart: int, tEnd: int) {
    && NoDuplicates(out)
    && (forall r :: r in out ==>
          r.spanId in seen && r.spanId in spanMap && spanMap[r.spanId] == r && Overlaps(r, tStart, tEnd))
    && (forall id :: id in seen && id in spanMap && Overlaps(spanMap[id], tStart, tEnd) ==> spanMap[id] in out)
  }

  lemma CollectOne(spanMap: map<string, SpanRecord>, seen: set<string>, out: seq<SpanRecord>, after: seq<SpanRecord>,
                   id: string, tStart: int, tEnd: int)
    requires Collected(spanMap, seen, out, tStart, tEnd) && id !in seen
    requires forall i :: i in spanMap ==> spanMap[i].spanId == i
    requires after == if id in spanMap && Overlaps(spanMap[id], tStart, tEnd) then out + [spanMap[id]] else out
    ensures Collected(spanMap, seen + {id}, after, tStart, tEnd)
  {
    hide Overlaps;
    if id in spanMap {
      assert spanMap[id] !in out by { assert spanMap[id].spanId == id; }
    }
  }

  /** Walks the buckets of an interval, taking each overlapping record the first time its id turns up. */
  method Collect(spanMap: map<string, SpanRecord>, buckets: Buckets, startBucket: int, endBucket: int,
                 tStart: int, tEnd: int) returns (out: seq<SpanRecord>, ghost all: set<string>)
    requires forall id :: id in spanMap ==> spanMap[id].spanId == id
    ensures Collected(spanMap, all, out, tStart, tEnd)
    ensures forall b, id :: startBucket <= b <= endBucket && Has(buckets, b, id) ==> id in all
  {
    hide Collected, Overlaps;
    var seen: set<string> := {};
    out := [];
    assert Collected(spanMap, seen, out, tStart, tEnd) by { CollectNothing(spanMap, tStart, tEnd); }
    var b := startBucket;
    while b <= endBucket
      invariant startBucket <= b
      invariant Collected(spanMap, seen, out, tStart, tEnd)
      invariant forall b', id :: startBucket <= b' < b && Has(buckets, b', id) ==> id in seen
      decreases endBucket - b
    {
      if b in buckets {
        out, seen := CollectBucket(spanMap, buckets[b], out, seen, tStart, tEnd);
      }
      b := b + 1;
    }
    all := seen;
  }

  lemma CollectNothing(spanMap: map<string, SpanRecord>, tStart: int, tEnd: int)
    ensures Collected(spanMap, {}, [], tStart, tEnd)
  {
  }

  method CollectBucket(spanMap: map<string, SpanRecord>, bucket: set<string>, before: seq<SpanRecord>,
                       seenBefore: set<string>, tStart: int, tEnd: int)
    returns (out: seq<SpanRecord>, seen: set<string>)
    requires forall id :: id in spanMap ==> spanMap[id].spanId == id
    requires Collected(spanMap, seenBefore, before, tStart, tEnd)
    ensures Collected(spanMap, seen, out, tStart, tEnd) && seen == seenBefore + bucket
  {
    hide Collected, Overlaps;
    out, seen := before, seenBefore;
    var left := bucket;
    while left != {}
      invariant left <= bucket && seen == seenBefore + (bucket - left)
      invariant Collected(spanMap, seen, out, tStart, tEnd)
      decreases left
    {
      var id :| id in left;
      left := left - {id};
      if id !in seen {
        ghost var was := out;
        if id in spanMap && Overlaps(spanMap[id], tStart, tEnd) {
          out := out + [spanMap[id]];
        }
        CollectOne(spanMap, seen, was, out, id, tStart, tEnd);
        seen := seen + {id};
      }
    }
  }

  lemma SliceAppend(history: seq<Fact>, f: Fact, lo: nat)
    requires lo <= |history|
    ensures (history + [f])[lo..] == history[lo..] + [f]
  {
  }

  lemma OneDropped(history: seq<Fact>, lo: nat)
    requires lo < |history|
    ensures history[lo..][1..] == history[lo + 1..]
  {
  }

  /** Only the span of the oldest retained fact can be backed by it, and nothing is backed by an evicted one. */
  lemma NoneAt(spanMap: map<string, SpanRecord>, history: seq<Fact>, lo: nat, t0: int)
    requires SpansMatch(spanMap, history, lo, t0)
    ensures forall id :: id in spanMap && spanMap[id].ringSeq.Some? ==> lo <= spanMap[id].ringSeq.value
    ensures forall id :: id in spanMap && spanMap[id].ringSeq == Some(lo) ==>
              lo < |history| && history[lo].SpanFact? && history[lo].spanId == id
  {
  }

  /** The slot `i` steps after `start` in a ring of `n`. */
  function RingIndex(start: nat, i: nat, n: nat): (slot: nat)
    requires start < n && i <= n
    ensures slot == if start + i < n then start + i else start + i - n
  {
    if start + i < n then SmallMod(start + i, n); (start + i) % n
    else WrapMod(start + i, n); (start + i) % n
  }

  lemma WrapMod(x: nat, n: nat)
    requires n <= x < 2 * n
    ensures x % n == x - n
  {
    SmallMod(x - n, n);
    assert x == n * 1 + (x - n);
  }

  lemma SmallMod(x: nat, n: nat)
    requires x < n
    ensures x % n == x
  {
  }

  lemma RecordsOrdered(spanMap: map<string, SpanRecord>, history: seq<Fact>, lo: nat, t0: int)
    requires SpansMatch(spanMap, history, lo, t0)
    ensures forall id :: id in spanMap ==> spanMap[id].bucketStart <= spanMap[id].bucketEnd
  {
  }

  lemma ClosedLeavesQueue(order: seq<string>, after: seq<string>, spanMap: map<string, SpanRecord>, r: SpanRecord)
    requires r.tEndMs.Some? && Queued(order, spanMap)
    requires after == if IsOpen(spanMap, r.spanId) then Without(order, r.spanId) else order
    ensures Queued(after, spanMap[r.spanId := r])
  {
    assert forall i :: IsOpen(spanMap[r.spanId := r], i) <==> IsOpen(spanMap, i) && i != r.spanId;
  }

  /** A retained span fact has a record, closed by it or by a later one. */
  lemma RecordBehind(spanMap: map<string, SpanRecord>, history: seq<Fact>, k: nat, t0: int)
    requires k < |history| && SpansMatch(spanMap, history, k, t0)
    ensures history[k].SpanFact? ==>
              history[k].spanId in spanMap && spanMap[history[k].spanId].ringSeq.Some?
              && spanMap[history[k].spanId].tEndMs.Some?
  {
  }

  /** Forgetting a closed record leaves the open ones as they were. */
  lemma StillQueued(order: seq<string>, spanMap: map<string, SpanRecord>, id: string)
    requires id in spanMap && spanMap[id].tEndMs.Some?
    ensures Queued(order, spanMap) ==> Queued(order, spanMap - {id})
  {
    assert forall i :: IsOpen(spanMap - {id}, i) <==> IsOpen(spanMap, i);
  }
}
