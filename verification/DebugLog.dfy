/**
 The debug server's state: one numbered, bounded log of frames that feeds the snapshot, the replay
 and the live fan-out alike, beside the bounded maps of allocations, sessions and reports.

 Every method is one lock-atomic step; `Valid` is what every interleaving of them keeps.
 */
module DebugLog {
  import opened Prelude

  const SESSION_CAP: nat := 256
  const EMPTY_CURSOR := -1
  const DEFAULT_WINDOW_MS := 180000

  datatype Kind = Fact | Alloc | Gap | Report | SessionInfo | Health | Watchdog | OtherKind

  /** The fields of a frame's payload that the log itself reads or writes. */
  datatype Payload = Payload(
    sessionId: Option<string>, sampleEventId: Option<string>, level: Option<string>,
    pids: Option<seq<int>>, reportVersion: Option<nat>,
    evictedSessionId: Option<string>, evictedSessionIds: seq<string>, body: string)

  datatype Frame = Frame(seqNo: nat, kind: Kind, data: Payload, atMs: int)

  /** A frame as a client reads it. */
  datatype Wire = Numbered(kind: Kind, data: Payload, id: nat) | Unnumbered(kind: Kind, data: Payload) | Reset

  function WireOf(f: Frame): Wire { Numbered(f.kind, f.data, f.seqNo) }

  function Wires(frames: seq<Frame>): (ws: seq<Wire>)
    ensures |ws| == |frames| && forall i :: 0 <= i < |frames| ==> ws[i] == WireOf(frames[i])
  {
    if frames == [] then [] else Wires(frames[..|frames| - 1]) + [WireOf(frames[|frames| - 1])]
  }

  lemma SliceOfAppend<T>(s: seq<T>, x: T, from: nat)
    requires from <= |s|
    ensures (s + [x])[from..|s|] == s[from..] && (s + [x])[from..|s| + 1] == s[from..] + [x]
  {
  }

  function KeepLast<T>(s: seq<T>, n: nat): (r: seq<T>)
    ensures |r| == Min(|s|, n) && r == s[|s| - |r|..]
  {
    if |s| <= n then s else s[|s| - n..]
  }

  ghost function Elems<T>(s: seq<T>): set<T> { set x | x in s }

  lemma AppendNew<T>(s: seq<T>, x: T)
    ensures Elems(s + [x]) == Elems(s) + {x}
    ensures NoDuplicates(s) && x !in Elems(s) ==> NoDuplicates(s + [x])
  {
  }

  lemma Nothing<T>()
    ensures Elems<T>([]) == {} && NoDuplicates<T>([])
    ensures forall n: nat :: KeepLast<T>([], n) == []
  {
  }

  lemma ElemsHas<T>(s: seq<T>, x: T)
    ensures x in Elems(s) <==> x in s
  {
  }

  lemma {:induction false} ElemsCount<T>(s: seq<T>)
    requires NoDuplicates(s)
    ensures |Elems(s)| == |s|
  {
    if s != [] {
      ElemsCount(s[1..]);
      DropFirst(s);
      ElemsHas(s, s[0]);
    }
  }

  /** Appending a new element to a non-empty sequence leaves another one in front. */
  lemma FirstIsOld(s: seq<string>, x: string)
    ensures x !in Elems(s) && s != [] ==> (s + [x])[0] != x
  {
    if s != [] {
      ElemsHas(s, s[0]);
    }
  }

  lemma DropFirst<T>(s: seq<T>)
    requires s != [] && NoDuplicates(s)
    ensures Elems(s[1..]) == Elems(s) - {s[0]} && NoDuplicates(s[1..])
  {
    assert s == [s[0]] + s[1..];
  }

  function KeyOf(id: Option<string>): set<string> { if id.Some? then {id.value} else {} }

  function ListOf(id: Option<string>): seq<string> { if id.Some? then [id.value] else [] }

  lemma ListAdds(s: seq<string>, id: Option<string>)
    ensures Elems(s + ListOf(id)) == Elems(s) + KeyOf(id)
  {
    if id == None {
      assert s + ListOf(id) == s;
    }
  }

  lemma NoSurplusIff(held: set<string>, staleBefore: set<string>, since: seq<string>, named: Option<string>,
                     stale: set<string>)
    requires stale == held * (staleBefore + Forgotten(since)) - Elems(HintsAfter(since)) - KeyOf(named)
    ensures stale == {} <==> KeepsUp(held, staleBefore, since, named)
  {
    hide Forgotten, Elems, HintsAfter;
    if stale != {} {
      var id :| id in stale;
      assert id in held && id in staleBefore + Forgotten(since);
    } else {
      forall id | id in held && id in staleBefore + Forgotten(since)
        ensures id in Elems(HintsAfter(since)) || named == Some(id)
      {
        assert id !in stale;
      }
    }
  }

  // ---- eviction hints ---------------------------------------------------------------------------------

  /** Queueing evictions one by one: each session once, where it was first queued, at most `SESSION_CAP`. */
  ghost function Queued(evictions: seq<string>): seq<string> {
    if evictions == [] then []
    else
      var before, id := Queued(evictions[..|evictions| - 1]), evictions[|evictions| - 1];
      KeepLast(if id in before then before else before + [id], SESSION_CAP)
  }

  /** The hints left of a run of evictions. */
  ghost function HintsAfter(evictions: seq<string>): seq<string> { Queued(evictions) }

  lemma HintsMore(evictions: seq<string>, id: string)
    ensures var before := HintsAfter(evictions);
            HintsAfter(evictions + [id]) == KeepLast(if id in before then before else before + [id], SESSION_CAP)
    ensures HintsAfter([]) == []
  {
    assert (evictions + [id])[..|evictions|] == evictions;
  }

  /** `hints` are some of the evicted sessions, each once, and as many as there are up to the cap. */
  ghost predicate Bounded(evictions: seq<string>, hints: seq<string>) {
    && NoDuplicates(hints) && Elems(hints) <= Elems(evictions)
    && |hints| == Min(|Elems(evictions)|, SESSION_CAP)
  }

  lemma {:induction false} HintsAreBounded(evictions: seq<string>)
    ensures Bounded(evictions, HintsAfter(evictions))
  {
    if evictions == [] {
      Nothing<string>();
    } else {
      var n := |evictions| - 1;
      var before := HintsAfter(evictions[..n]);
      HintsAreBounded(evictions[..n]);
      HintsMore(evictions[..n], evictions[n]);
      hide *;
      QueuesOne(evictions[..n], before, evictions[n]);
      assert evictions[..n] + [evictions[n]] == evictions;
    }
  }

  lemma HintsBounded(evictions: seq<string>)
    ensures NoDuplicates(HintsAfter(evictions)) && Elems(HintsAfter(evictions)) <= Elems(evictions)
    ensures |HintsAfter(evictions)| == Min(|Elems(evictions)|, SESSION_CAP)
  {
    hide HintsAfter;
    HintsAreBounded(evictions);
    hide Elems, NoDuplicates;
  }

  lemma QueuesOne(evictions: seq<string>, before: seq<string>, id: string)
    requires Bounded(evictions, before)
    ensures Bounded(evictions + [id], KeepLast(if id in before then before else before + [id], SESSION_CAP))
  {
    ElemsHas(before, id);
    ElemsCount(before);
    AppendNew(evictions, id);
    AppendNew(before, id);
    if id in before {
      assert Elems(evictions) + {id} == Elems(evictions);
    } else {
      LastAreElems(before + [id], SESSION_CAP);
      hide Elems, NoDuplicates;
      CountsOne(Elems(evictions), Elems(before), id);
    }
  }

  lemma CountsOne(evicted: set<string>, before: set<string>, id: string)
    requires before <= evicted && id !in before && |before| == Min(|evicted|, SESSION_CAP)
    ensures Min(|before| + 1, SESSION_CAP) == Min(|evicted + {id}|, SESSION_CAP)
  {
    if id in evicted {
      assert evicted + {id} == evicted;
      ProperIsFewer(before, evicted);
    }
  }

  /** Beyond the cap exactly the surplus is forgotten. */
  lemma HintsCount(evictions: seq<string>)
    ensures |Forgotten(evictions)| == Max(|Elems(evictions)| - SESSION_CAP, 0)
  {
    HintsBounded(evictions);
    ElemsCount(HintsAfter(evictions));
    hide HintsAfter, Elems, NoDuplicates;
    assert Elems(evictions) == Forgotten(evictions) + Elems(HintsAfter(evictions));
  }

  lemma LastAreElems(s: seq<string>, n: nat)
    requires NoDuplicates(s)
    ensures NoDuplicates(KeepLast(s, n)) && Elems(KeepLast(s, n)) <= Elems(s)
  {
  }

  lemma ProperIsFewer(a: set<string>, b: set<string>)
    requires a < b
    ensures |a| < |b|
  {
    assert b == a + (b - a);
  }

  /** The evicted sessions no hint is left of. */
  ghost function Forgotten(evictions: seq<string>): set<string> { Elems(evictions) - Elems(HintsAfter(evictions)) }

  lemma SplitsForgotten(evictions: seq<string>)
    ensures Forgotten(evictions) <= Elems(evictions)
    ensures Elems(HintsAfter(evictions)) == Elems(evictions) - Forgotten(evictions)
  {
    HintsBounded(evictions);
    hide HintsAfter, Elems, NoDuplicates;
  }

  lemma {:induction false} HintsAreLast(evictions: seq<string>)
    requires NoDuplicates(evictions)
    ensures HintsAfter(evictions) == KeepLast(evictions, SESSION_CAP)
  {
    if evictions != [] {
      var n := |evictions| - 1;
      HintsAreLast(evictions[..n]);
      assert evictions[n] !in evictions[..n];
      KeepLastMore(evictions[..n], evictions[n], SESSION_CAP);
      assert evictions[..n] + [evictions[n]] == evictions;
      HintsMore(evictions[..n], evictions[n]);
      hide HintsAfter, KeepLast;
    } else {
      HintsMore([], "");
    }
  }

  /** Of sessions evicted once each, the oldest beyond the cap are the forgotten ones. */
  lemma OldestForgotten(evictions: seq<string>)
    requires NoDuplicates(evictions)
    ensures HintsAfter(evictions) == KeepLast(evictions, SESSION_CAP)
    ensures forall i :: 0 <= i < |evictions| ==>
              (evictions[i] in Forgotten(evictions) <==> i < |evictions| - SESSION_CAP)
  {
    HintsAreLast(evictions);
    hide HintsAfter;
    forall i | 0 <= i < |evictions|
      ensures evictions[i] in Forgotten(evictions) <==> i < |evictions| - SESSION_CAP
    {
      NewestKept(evictions, i);
    }
  }

  lemma NewestKept(evictions: seq<string>, i: nat)
    requires NoDuplicates(evictions) && i < |evictions|
    ensures evictions[i] in Elems(KeepLast(evictions, SESSION_CAP)) <==> i >= |evictions| - SESSION_CAP
    ensures evictions[i] in Elems(evictions)
  {
    var hints := KeepLast(evictions, SESSION_CAP);
    if i >= |evictions| - SESSION_CAP {
      assert hints[i - (|evictions| - |hints|)] == evictions[i];
    }
  }

  /** Told before a report frame: of the sessions a folding client holds, each that it held wrongly already or
      whose eviction has been forgotten is announced by the frame's hints or named by the frame itself. */
  ghost predicate KeepsUp(held: set<string>, stale: set<string>, evictions: seq<string>, named: Option<string>) {
    forall id :: id in held && id in stale + Forgotten(evictions) ==>
      id in Elems(HintsAfter(evictions)) || named == Some(id)
  }

  /** What a client holding report summaries does with the log's report frames: drop the evicted, add the named. */
  ghost function FoldReports(frames: seq<Frame>): set<string> {
    if frames == [] then {}
    else
      NextFold(FoldReports(frames[..|frames| - 1]), frames[|frames| - 1].kind, frames[|frames| - 1].data)
  }

  ghost function NextFold(held: set<string>, kind: Kind, data: Payload): set<string> {
    if kind == Report then held - Elems(data.evictedSessionIds) + KeyOf(data.sessionId) else held
  }

  lemma FoldMore(frames: seq<Frame>, f: Frame)
    ensures FoldReports(frames + [f]) == NextFold(FoldReports(frames), f.kind, f.data)
  {
    assert (frames + [f])[..|frames|] == frames;
  }

  function ReportNotification(report: Payload, version: nat, evicted: seq<string>): Payload {
    Payload(report.sessionId, None, Some(if report.level.Some? then report.level.value else "session"),
            None, Some(version), None, evicted, "")
  }

  /** The session-keyed maps and their shared first-publication order. */
  datatype Maps = Maps(sessions: map<string, Payload>, reports: map<string, Payload>, order: seq<string>)

  /** `data` has replaced its session's payload of that kind; the first-published session beyond the cap is gone. */
  ghost predicate Stored(before: Maps, kind: Kind, data: Payload, after: Maps, evicted: Option<string>) {
    if data.sessionId == None then evicted == None && after == before
    else
      var id := data.sessionId.value;
      var isNew := id !in before.sessions && id !in before.reports;
      var order := if isNew then before.order + [id] else before.order;
      && evicted == (if |order| > SESSION_CAP then Some(order[0]) else None)
      && after.order == (if |order| > SESSION_CAP then order[1..] else order)
      && after.sessions == (if kind == SessionInfo then before.sessions[id := data] else before.sessions)
                        - KeyOf(evicted)
      && after.reports == (if kind == Report then before.reports[id := data] else before.reports) - KeyOf(evicted)
      && evicted != Some(id)
  }

  /** One connection: the bounded channel behind it and everything its thread has written so far. */
  class Client {
    const capacity: nat
    var queue: seq<Wire>
    var open: bool
    var written: seq<Wire>
    /** The numbered frames start at `from`, after `prelude`, and have reached `upto`. */
    ghost const prelude: seq<Wire>
    ghost const from: nat
    ghost var upto: nat

    constructor (capacity: nat, replay: seq<Wire>, ghost prelude: seq<Wire>, ghost from: nat, ghost upto: nat)
      ensures this.capacity == capacity && queue == [] && open && written == replay
      ensures this.prelude == prelude && this.from == from && this.upto == upto
    {
      this.capacity, this.queue, this.open, this.written := capacity, [], true, replay;
      this.prelude, this.from, this.upto := prelude, from, upto;
    }

    /** Everything sent to this client, read or still queued, is the log from `from` to `upto`: no gap,
        no duplicate, no reordering, and the same bytes whether replayed or live. */
    ghost predicate Follows(history: seq<Frame>)
      reads this
    {
      && from <= upto <= |history|
      && prelude <= written
      && written + queue == prelude + Wires(history[from..upto])
      && |queue| <= capacity
    }

    /** A non-blocking send: refused when the reader is gone or the queue is full. A frame that is taken
        continues the log without a gap. */
    method TrySend(w: Wire, ghost before: seq<Frame>, ghost f: Frame) returns (sent: bool)
      requires Follows(before) && upto == |before| && w == WireOf(f)
      modifies this`queue, this`upto
      ensures sent == (open && |old(queue)| < capacity)
      ensures queue == if sent then old(queue) + [w] else old(queue)
      ensures upto == if sent then |before| + 1 else |before|
      ensures Follows(before + [f])
    {
      SliceOfAppend(before, f, from);
      WiresMore(before[from..], f);
      assert before[from..|before|] == before[from..];
      hide Wires;
      sent := open && |queue| < capacity;
      if sent {
        assert written + (queue + [w]) == (written + queue) + [w];
        queue, upto := queue + [w], upto + 1;
      }
    }
  }

  /** `w` is what publishing this frame put on the wire: its kind, its data, and its number as the id. */
  predicate Carries(w: Wire, kind: Kind, data: Payload, number: int) {
    w.Numbered? && w.kind == kind && w.data == data && w.id == number
  }

  /** The log's `k`th frame is number `k`. */
  ghost predicate NumberedFromZero(history: seq<Frame>) { forall k :: 0 <= k < |history| ==> history[k].seqNo == k }

  /** `ws` is the rest of the log from `from` on, each frame under its own number. */
  ghost predicate Reads(ws: seq<Wire>, history: seq<Frame>, from: nat) {
    && from + |ws| == |history|
    && forall i :: 0 <= i < |ws| ==> Carries(ws[i], history[from + i].kind, history[from + i].data, from + i)
  }

  /** What a client has read after its prelude is the log itself, frame by frame from `from` on, each under its
      own number. */
  lemma ReadsTheLog(c: Client, history: seq<Frame>, i: nat)
    requires c.Follows(history) && NumberedFromZero(history) && i < |c.written| - |c.prelude|
    ensures c.from + i < |history|
    ensures Carries(c.written[|c.prelude| + i], history[c.from + i].kind, history[c.from + i].data, c.from + i)
  {
    assert c.written[|c.prelude| + i] == (c.written + c.queue)[|c.prelude| + i];
  }

  /** Dropping the front after appending keeps the same suffix as appending to the whole. */
  lemma KeepLastMore<T>(s: seq<T>, x: T, n: nat)
    requires n >= 1
    ensures KeepLast(KeepLast(s, n) + [x], n) == KeepLast(s + [x], n)
  {
  }

  lemma KeepLastTail<T>(s: seq<T>, n: nat)
    requires 1 <= n <= |s|
    ensures KeepLast(s, n)[1..] == KeepLast(s, n - 1)
  {
  }

  lemma Wires0()
    ensures Wires([]) == []
  {
  }

  lemma NextSlice<T>(s: seq<T>, k: nat, i: nat)
    requires k <= i < |s|
    ensures s[k..i + 1] == s[k..i] + [s[i]]
  {
  }

  lemma SuffixOfSuffix<T>(s: seq<T>, a: nat, b: nat)
    requires a + b <= |s|
    ensures s[a..][b..] == s[a + b..]
  {
  }

  lemma WiresMore(frames: seq<Frame>, f: Frame)
    ensures Wires(frames + [f]) == Wires(frames) + [WireOf(f)]
  {
    assert (frames + [f])[..|frames|] == frames;
  }

  class DebugState {
    var nextSeq: nat
    var frames: seq<Frame>
    var sessions: map<string, Payload>
    var sessionOrder: seq<string>
    var reports: map<string, Payload>
    var pendingReportEvictions: seq<string>
    var health: Option<Payload>
    var watchdog: seq<int>
    var allocs: map<string, Payload>
    var allocOrder: seq<string>
    var connections: seq<Client>
    const ringCapacity: nat
    const queueCapacity: nat

    /** Every frame ever published, and every client ever subscribed. */
    ghost var history: seq<Frame>
    ghost var clients: set<Client>
    /** The sessions evicted since the last report frame, in order. */
    ghost var evictions: seq<string>
    /** What a folding client held beyond the reports right after the last report frame. */
    ghost var stale: set<string>

    ghost predicate LogOk()
      reads this`nextSeq, this`history, this`frames
    {
      && ringCapacity >= 1
      && nextSeq == |history|
      && (forall i :: 0 <= i < |history| ==> history[i].seqNo == i)
      && frames == KeepLast(history, ringCapacity)
    }

    ghost predicate AllocsOk()
      reads this`allocs, this`allocOrder
    {
      NoDuplicates(allocOrder) && Elems(allocOrder) == allocs.Keys && |allocOrder| <= ringCapacity
    }

    ghost predicate SessionsOk()
      reads this`sessions, this`reports, this`sessionOrder
    {
      && NoDuplicates(sessionOrder) && Elems(sessionOrder) == sessions.Keys + reports.Keys
      && |sessionOrder| <= SESSION_CAP
    }

    ghost predicate HintsOk()
      reads this`pendingReportEvictions, this`evictions
    {
      && pendingReportEvictions == HintsAfter(evictions)
      && NoDuplicates(pendingReportEvictions) && |pendingReportEvictions| <= SESSION_CAP
    }

    /** A client that folds the log holds every report; beyond them only sessions evicted since the last
        report frame, and the stale ones whose eviction was forgotten before it could be announced. */
    ghost predicate FoldOk(held: set<string>)
      reads this`reports, this`evictions, this`stale
    {
      && reports.Keys <= held <= reports.Keys + Elems(evictions) + stale
      && stale <= held
      && reports.Keys !! Elems(evictions) + stale
    }

    ghost predicate ClientsOk()
      reads this`clients, this`connections, this`history, clients
    {
      && (forall c :: c in connections ==> c in clients && c.upto == |history|)
      && NoDuplicates(connections)
      && (forall c :: c in clients ==> c.Follows(history))
    }

    ghost predicate MapsOk()
      reads this`allocs, this`allocOrder, this`sessions, this`reports, this`sessionOrder,
            this`pendingReportEvictions, this`evictions
    {
      AllocsOk() && SessionsOk() && HintsOk()
    }

    ghost predicate Valid()
      reads this, clients
    {
      LogOk() && MapsOk() && FoldOk(FoldReports(history)) && ClientsOk()
    }

    constructor (ringCapacity: nat, queueCapacity: nat)
      ensures Valid() && history == [] && clients == {} && connections == []
      ensures Held() == Maps(map[], map[], []) && evictions == [] && stale == {}
      ensures this.ringCapacity == Max(ringCapacity, 1) && this.queueCapacity == Max(queueCapacity, 1)
    {
      nextSeq, frames, history := 0, [], [];
      sessions, sessionOrder, reports, pendingReportEvictions := map[], [], map[], [];
      health, watchdog, allocs, allocOrder := None, [], map[], [];
      connections, clients, evictions, stale := [], {}, [], {};
      this.ringCapacity, this.queueCapacity := Max(ringCapacity, 1), Max(queueCapacity, 1);
      new;
      Nothing<string>();
      Nothing<Client>();
      assert FoldReports(history) == {} && FoldOk({});
      assert sessions.Keys + reports.Keys == {} && allocs.Keys == {};
      assert reports.Keys !! Elems(evictions) + stale && HintsAfter(evictions) == [];
      hide Elems, NoDuplicates, FoldReports, KeepLast;
    }

    // ---- the allocation map ---------------------------------------------------------------------

    /** Drops the oldest allocations beyond the capacity. */
    method EvictAllocs()
      requires NoDuplicates(allocOrder) && Elems(allocOrder) == allocs.Keys && ringCapacity >= 1
      modifies this`allocs, this`allocOrder
      ensures AllocsOk()
      ensures allocOrder == KeepLast(old(allocOrder), ringCapacity)
      ensures allocs == Only(old(allocs), Elems(allocOrder))
    {
      OnlyAll(allocs, Elems(allocOrder));
      hide Elems, NoDuplicates, Only;
      while |allocOrder| > ringCapacity
        invariant allocOrder == KeepLast(old(allocOrder), |allocOrder|)
        invariant |allocOrder| >= Min(|old(allocOrder)|, ringCapacity)
        invariant NoDuplicates(allocOrder) && Elems(allocOrder) == allocs.Keys
        invariant allocs == Only(old(allocs), Elems(allocOrder))
      {
        DropFirst(allocOrder);
        OnlyLess(old(allocs), Elems(allocOrder), allocOrder[0]);
        allocs := allocs - {allocOrder[0]};
        allocOrder := allocOrder[1..];
      }
    }

    /** First-publication order: a republished id keeps its place, and the oldest beyond the capacity go. */
    method StoreAlloc(id: string, data: Payload)
      requires AllocsOk() && ringCapacity >= 1
      modifies this`allocs, this`allocOrder
      ensures AllocsOk()
      ensures allocOrder == KeepLast(if id in old(allocs) then old(allocOrder) else old(allocOrder) + [id],
                                      ringCapacity)
      ensures allocs == Only(old(allocs)[id := data], Elems(allocOrder))
    {
      hide Elems, NoDuplicates, Only;
      AppendNew(allocOrder, id);
      if id !in allocs {
        allocOrder := allocOrder + [id];
      }
      allocs := allocs[id := data];
      EvictAllocs();
    }

    // ---- sessions and reports ---------------------------------------------------------------------

    ghost function Held(): Maps
      reads this`sessions, this`reports, this`sessionOrder
    {
      Maps(sessions, reports, sessionOrder)
    }

    /** Replaces one session's payload, queueing the session when it was unknown to both maps. */
    method PutPayload(kind: Kind, id: string, data: Payload)
      requires SessionsOk() && (kind == SessionInfo || kind == Report)
      modifies this`sessions, this`reports, this`sessionOrder
      ensures sessions == if kind == SessionInfo then old(sessions)[id := data] else old(sessions)
      ensures reports == if kind == Report then old(reports)[id := data] else old(reports)
      ensures sessionOrder ==
                if id !in old(sessions) && id !in old(reports) then old(sessionOrder) + [id] else old(sessionOrder)
      ensures NoDuplicates(sessionOrder) && Elems(sessionOrder) == sessions.Keys + reports.Keys
    {
      hide Elems, NoDuplicates;
      AppendNew(sessionOrder, id);
      if id !in sessions && id !in reports {
        sessionOrder := sessionOrder + [id];
      }
      if kind == SessionInfo {
        sessions := sessions[id := data];
      } else {
        reports := reports[id := data];
      }
      assert sessions.Keys + reports.Keys == old(sessions.Keys + reports.Keys) + {id};
    }

    /** Replaces the payload of its own session, evicting the first-published session beyond the cap.
        A payload that names no session is dropped. */
    method StoreSessionPayload(kind: Kind, data: Payload) returns (evicted: Option<string>)
      requires SessionsOk() && (kind == SessionInfo || kind == Report)
      modifies this`sessions, this`reports, this`sessionOrder
      ensures SessionsOk() && Stored(old(Held()), kind, data, Held(), evicted)
    {
      hide Elems, NoDuplicates;
      evicted := None;
      if data.sessionId.Some? {
        FirstIsOld(sessionOrder, data.sessionId.value);
        PutPayload(kind, data.sessionId.value, data);
        evicted := EvictSession();
      }
    }

    /** Drops the first-published session, with both its payloads, when there is one too many. */
    method EvictSession() returns (evicted: Option<string>)
      requires NoDuplicates(sessionOrder) && Elems(sessionOrder) == sessions.Keys + reports.Keys
      requires |sessionOrder| <= SESSION_CAP + 1
      modifies this`sessions, this`reports, this`sessionOrder
      ensures SessionsOk()
      ensures evicted == if |old(sessionOrder)| > SESSION_CAP then Some(old(sessionOrder)[0]) else None
      ensures sessionOrder == if evicted.Some? then old(sessionOrder)[1..] else old(sessionOrder)
      ensures sessions == old(sessions) - KeyOf(evicted) && reports == old(reports) - KeyOf(evicted)
    {
      hide Elems, NoDuplicates;
      evicted := None;
      if |sessionOrder| > SESSION_CAP {
        DropFirst(sessionOrder);
        evicted := Some(sessionOrder[0]);
        sessions, reports := sessions - {sessionOrder[0]}, reports - {sessionOrder[0]};
        sessionOrder := sessionOrder[1..];
      }
    }

    /** Forgets the oldest hints beyond the cap. */
    method TrimHints()
      modifies this`pendingReportEvictions
      ensures pendingReportEvictions == KeepLast(old(pendingReportEvictions), SESSION_CAP)
    {
      while |pendingReportEvictions| > SESSION_CAP
        invariant pendingReportEvictions == KeepLast(old(pendingReportEvictions), |pendingReportEvictions|)
        invariant |pendingReportEvictions| >= Min(|old(pendingReportEvictions)|, SESSION_CAP)
      {
        pendingReportEvictions := pendingReportEvictions[1..];
      }
    }

    /** Remembers an evicted session for the next report frame, forgetting the oldest beyond the cap. */
    method QueueReportEviction(id: string)
      requires HintsOk()
      modifies this`pendingReportEvictions, this`evictions
      ensures HintsOk() && evictions == old(evictions) + [id]
    {
      HintsMore(evictions, id);
      HintsBounded(evictions + [id]);
      hide HintsAfter, NoDuplicates, Elems, Forgotten;
      if id !in pendingReportEvictions {
        pendingReportEvictions := pendingReportEvictions + [id];
      }
      evictions := evictions + [id];
      TrimHints();
    }

    // ---- publishing ---------------------------------------------------------------------------------

    /** Stores a session-scoped payload and queues whatever it pushed out. */
    method StoreAndQueue(kind: Kind, data: Payload) returns (evicted: Option<string>)
      requires SessionsOk() && HintsOk() && (kind == SessionInfo || kind == Report)
      modifies this`sessions, this`reports, this`sessionOrder,
               this`pendingReportEvictions, this`evictions
      ensures SessionsOk() && HintsOk() && Stored(old(Held()), kind, data, Held(), evicted)
      ensures evictions == old(evictions) + ListOf(evicted)
    {
      hide NoDuplicates, Elems, Stored;
      evicted := StoreSessionPayload(kind, data);
      if evicted.Some? {
        QueueReportEviction(evicted.value);
      }
    }

    /**
     A report: stored under its session, and announced with every hint there is. `since` are the sessions
     evicted since the last report, this frame's own eviction last: beyond `SESSION_CAP` different ones,
     exactly as many as exceed it are forgotten.
     */
    method RecordReport(data: Payload, seqNo: nat)
      returns (wireData: Payload, ghost evicted: Option<string>, ghost since: seq<string>)
      requires SessionsOk() && HintsOk()
      modifies this`sessions, this`reports, this`sessionOrder, this`pendingReportEvictions, this`evictions
      ensures SessionsOk() && HintsOk()
              && Stored(old(Held()), Report, data.(reportVersion := Some(seqNo)), Held(), evicted)
      ensures pendingReportEvictions == [] && evictions == []
      ensures since == old(evictions) + ListOf(evicted)
      ensures wireData == ReportNotification(data, seqNo, HintsAfter(since))
      ensures |Forgotten(since)| == Max(|Elems(since)| - SESSION_CAP, 0)
    {
      hide NoDuplicates, Elems, Stored, HintsAfter, Forgotten;
      evicted := StoreAndQueue(Report, data.(reportVersion := Some(seqNo)));
      since := evictions;
      HintsCount(since);
      var hints := pendingReportEvictions;
      wireData := ReportNotification(data, seqNo, hints);
      DrainHints();
    }

    method DrainHints()
      modifies this`pendingReportEvictions, this`evictions
      ensures HintsOk() && pendingReportEvictions == [] && evictions == []
    {
      Nothing<string>();
      HintsMore([], "");
      pendingReportEvictions, evictions := [], [];
    }

    /** A session: stored, with whatever it pushed out named in its frame and queued for the next report. */
    method RecordSession(data: Payload) returns (wireData: Payload, ghost evicted: Option<string>)
      requires SessionsOk() && HintsOk()
      modifies this`sessions, this`reports, this`sessionOrder,
               this`pendingReportEvictions, this`evictions
      ensures SessionsOk() && HintsOk() && Stored(old(Held()), SessionInfo, data, Held(), evicted)
      ensures evictions == old(evictions) + ListOf(evicted)
      ensures wireData == if evicted.Some? then data.(evictedSessionId := evicted) else data
    {
      hide NoDuplicates, Elems, Stored;
      var gone := StoreAndQueue(SessionInfo, data);
      evicted, wireData := gone, data;
      if gone.Some? {
        wireData := data.(evictedSessionId := gone);
      }
    }

    /** A report frame, as a folding client and the server see it: what the client holds beyond the reports is
        what it held of the sessions wrongly held before or forgotten since, and is not told of now. */
    ghost predicate Announced(held: set<string>, staleBefore: set<string>, data: Payload, seqNo: nat,
                              wireData: Payload, since: seq<string>)
      reads this`reports, this`stale
    {
      && wireData == ReportNotification(data, seqNo, HintsAfter(since))
      && NextFold(held, Report, wireData) == reports.Keys + stale && reports.Keys !! stale
      && stale == held * (staleBefore + Forgotten(since)) - Elems(HintsAfter(since)) - KeyOf(data.sessionId)
    }

    method AnnounceReport(data: Payload, seqNo: nat, ghost held: set<string>)
      returns (wireData: Payload, ghost evicted: Option<string>, ghost since: seq<string>)
      requires SessionsOk() && HintsOk() && FoldOk(held)
      modifies this`sessions, this`reports, this`sessionOrder, this`pendingReportEvictions, this`evictions, this`stale
      ensures SessionsOk() && HintsOk() && evictions == [] && FoldOk(NextFold(held, Report, wireData))
      ensures Announced(held, old(stale), data, seqNo, wireData, since)
      ensures since == old(evictions) + ListOf(evicted)
      ensures Stored(old(Held()), Report, data.(reportVersion := Some(seqNo)), Held(), evicted)
    {
      hide *;
      ghost var before, was, wasStale := Held(), evictions, stale;
      FoldParts(held);
      wireData, evicted, since := RecordReport(data, seqNo);
      stale := held * (stale + Forgotten(since)) - Elems(HintsAfter(since)) - KeyOf(data.sessionId);
      FoldAfterReport(held, before, data, seqNo, Held(), evicted, was, wasStale, since);
      AnnouncedParts(held, wasStale, data, seqNo, wireData, since);
    }

    lemma FoldParts(held: set<string>)
      requires FoldOk(held)
      ensures reports.Keys <= held <= reports.Keys + Elems(evictions) + stale && stale <= held
      ensures reports.Keys !! Elems(evictions) + stale && Held().reports == reports
    {
    }

    lemma AnnouncedParts(held: set<string>, staleBefore: set<string>, data: Payload, seqNo: nat, wireData: Payload,
                         since: seq<string>)
      requires wireData == ReportNotification(data, seqNo, HintsAfter(since)) && evictions == []
      requires stale == held * (staleBefore + Forgotten(since)) - Elems(HintsAfter(since)) - KeyOf(data.sessionId)
      requires held - Elems(HintsAfter(since)) + KeyOf(data.sessionId) == Held().reports.Keys + stale
      requires Held().reports.Keys !! stale
      ensures Announced(held, staleBefore, data, seqNo, wireData, since) && FoldOk(NextFold(held, Report, wireData))
    {
      Nothing<string>();
      hide Elems, HintsAfter, Forgotten, KeyOf;
    }

    method AnnounceSession(data: Payload, ghost held: set<string>)
      returns (wireData: Payload, ghost evicted: Option<string>)
      requires SessionsOk() && HintsOk() && FoldOk(held)
      modifies this`sessions, this`reports, this`sessionOrder,
               this`pendingReportEvictions, this`evictions
      ensures SessionsOk() && HintsOk() && FoldOk(held)
      ensures Stored(old(Held()), SessionInfo, data, Held(), evicted)
      ensures wireData == if evicted.Some? then data.(evictedSessionId := evicted) else data
      ensures evictions == old(evictions) + ListOf(evicted)
    {
      hide *;
      ghost var before, was := Held(), evictions;
      FoldParts(held);
      wireData, evicted := RecordSession(data);
      ListAdds(was, evicted);
      DropsReport(before, data, Held(), evicted);
      StillFolds(held, before, was, evicted);
    }

    lemma StillFolds(held: set<string>, before: Maps, was: seq<string>, evicted: Option<string>)
      requires before.reports.Keys <= held <= before.reports.Keys + Elems(was) + stale && stale <= held
      requires before.reports.Keys !! Elems(was) + stale
      requires Held().reports.Keys == before.reports.Keys - KeyOf(evicted)
      requires Elems(evictions) == Elems(was) + KeyOf(evicted)
      ensures FoldOk(held)
    {
      hide Elems, KeyOf;
    }

    ghost function Allocated(): (map<string, Payload>, seq<string>)
      reads this`allocs, this`allocOrder
    {
      (allocs, allocOrder)
    }

    method RecordAlloc(kind: Kind, data: Payload)
      requires AllocsOk() && ringCapacity >= 1
      modifies this`allocs, this`allocOrder
      ensures AllocsOk() && AllocRecorded(old(Allocated()), kind, data, ringCapacity, Allocated())
    {
      if kind == Alloc && data.sampleEventId.Some? {
        hide AllocsOk, KeepLast, Only, Elems;
        StoreAlloc(data.sampleEventId.value, data);
      }
    }

    method RecordSessionScoped(kind: Kind, data: Payload, seqNo: nat, ghost held: set<string>)
      returns (wireData: Payload, ghost evicted: Option<string>, ghost since: seq<string>)
      requires SessionsOk() && HintsOk() && FoldOk(held)
      modifies this`sessions, this`reports, this`sessionOrder,
               this`pendingReportEvictions, this`evictions, this`stale
      ensures SessionsOk() && HintsOk() && FoldOk(NextFold(held, kind, wireData))
      ensures kind == Report ==>
                && Announced(held, old(stale), data, seqNo, wireData, since)
                && since == old(evictions) + ListOf(evicted) && evictions == []
      ensures kind != Report ==> stale == old(stale) && evictions == old(evictions) + ListOf(evicted)
      ensures kind == SessionInfo ==> wireData == if evicted.Some? then data.(evictedSessionId := evicted) else data
      ensures kind != Report && kind != SessionInfo ==> wireData == data
      ensures Recorded(old(Held()), kind, data, seqNo, Held(), evicted)
    {
      hide Elems, NoDuplicates, HintsOk, SessionsOk, Stored, FoldOk, Announced, Held;
      wireData, evicted, since := data, None, [];
      if kind == Report {
        wireData, evicted, since := AnnounceReport(data, seqNo, held);
      } else if kind == SessionInfo {
        wireData, evicted := AnnounceSession(data, held);
      }
    }

    /** Updates the maps for one payload and returns what goes on the wire. */
    method Record(kind: Kind, data: Payload, seqNo: nat, ghost held: set<string>)
      returns (wireData: Payload, ghost evicted: Option<string>, ghost since: seq<string>)
      requires MapsOk() && FoldOk(held) && ringCapacity >= 1
      modifies this`allocs, this`allocOrder, this`sessions, this`reports, this`sessionOrder, this`health, this`watchdog,
               this`pendingReportEvictions, this`evictions, this`stale
      ensures MapsOk() && FoldOk(NextFold(held, kind, wireData))
      ensures kind == Report ==>
                && Announced(held, old(stale), data, seqNo, wireData, since)
                && since == old(evictions) + ListOf(evicted) && evictions == []
      ensures kind != Report ==> stale == old(stale) && evictions == old(evictions) + ListOf(evicted)
      ensures kind == SessionInfo ==> wireData == if evicted.Some? then data.(evictedSessionId := evicted) else data
      ensures kind != Report && kind != SessionInfo ==> wireData == data
      ensures Recorded(old(Held()), kind, data, seqNo, Held(), evicted)
      ensures AllocRecorded(old(Allocated()), kind, data, ringCapacity, Allocated())
      ensures health == if kind == Health then Some(data) else old(health)
      ensures watchdog == if kind != Watchdog then old(watchdog) else if data.pids.Some? then data.pids.value else []
    {
      hide Elems, NoDuplicates, HintsOk, SessionsOk, AllocsOk, Recorded, AllocRecorded, NextFold;
      RecordAlloc(kind, data);
      wireData, evicted, since := RecordSessionScoped(kind, data, seqNo, held);
      if kind == Health {
        health := Some(data);
      } else if kind == Watchdog {
        watchdog := if data.pids.Some? then data.pids.value else [];
      }
    }

    // ---- the log and its readers ----------------------------------------------------------------------

    /** Offers one frame to every connection and drops the connections that cannot take it. */
    method Broadcast(w: Wire, ghost f: Frame)
      requires ClientsOk() && w == WireOf(f)
      modifies this`connections, this`history, connections
      ensures history == old(history) + [f] && ClientsOk()
      ensures forall c :: c in connections <==> c in old(connections) && old(c.open) && old(|c.queue|) < c.capacity
      ensures forall c :: c in old(connections) ==> c.written == old(c.written) && c.open == old(c.open)
    {
      hide Wires, Client.Follows;
      ghost var before := history;
      ghost var takers := set c | c in connections && c.open && |c.queue| < c.capacity;
      var all, kept: seq<Client>, i := connections, [], 0;
      history := history + [f];
      FollowsMore(before, f);
      while i < |all|
        invariant 0 <= i <= |all|
        invariant history == before + [f] && connections == all
        invariant forall j :: i <= j < |all| ==> unchanged(all[j])
        invariant forall c :: c in all ==> c.written == old(c.written) && c.open == old(c.open)
        invariant forall c :: c in kept <==> c in all[..i] && c in takers
        invariant forall c :: c in kept ==> c.upto == |before| + 1
        invariant NoDuplicates(kept)
        invariant forall j :: i <= j < |all| ==> all[j].Follows(before)
        invariant forall c :: c in clients ==> c.Follows(history)
      {
        var c := all[i];
        assert all[..i + 1] == all[..i] + [c];
        assert c !in all[..i];
        var sent := c.TrySend(w, before, f);
        if sent {
          kept := kept + [c];
        }
        i := i + 1;
      }
      assert all[..|all|] == all;
      connections := kept;
    }

    lemma FollowsMore(before: seq<Frame>, f: Frame)
      requires forall c :: c in clients ==> c.Follows(before)
      ensures forall c :: c in clients ==> c.Follows(before + [f])
    {
      forall c | c in clients ensures c.Follows(before + [f]) {
        assert (before + [f])[c.from..c.upto] == before[c.from..c.upto];
      }
    }

    /** Appends to the ring, dropping its oldest frames beyond the capacity. */
    method PushFrame(f: Frame)
      requires ringCapacity >= 1
      modifies this`frames
      ensures frames == KeepLast(old(frames) + [f], ringCapacity)
    {
      ghost var all := frames + [f];
      frames := frames + [f];
      while |frames| > ringCapacity
        invariant |all| >= |frames| >= Min(|all|, ringCapacity)
        invariant frames == KeepLast(all, |frames|)
      {
        KeepLastTail(all, |frames|);
        frames := frames[1..];
      }
    }

    /** Offers a frame to every connection and appends it to the ring. */
    method Append(f: Frame)
      requires LogOk() && ClientsOk() && f.seqNo == nextSeq
      modifies this`nextSeq, this`frames, this`connections, this`history, connections
      ensures LogOk() && ClientsOk() && history == old(history) + [f]
      ensures forall c :: c in connections <==> c in old(connections) && old(c.open) && old(|c.queue|) < c.capacity
    {
      hide ClientsOk, Wires, KeepLast;
      KeepLastMore(history, f, ringCapacity);
      Broadcast(WireOf(f), f);
      PushFrame(f);
      nextSeq := nextSeq + 1;
    }

    /**
     Appends one frame to the log, updates the maps it feeds and offers it to every connection. `since` are
     the sessions evicted since the last report frame, and `stale` what a client folding the log then held
     beyond the reports. Right after a report frame such a client holds exactly the reports if and only if
     it `KeepsUp`; from a correct fold that fails only beyond `SESSION_CAP` different evictions.
     */
    method Publish(kind: Kind, data: Payload, atMs: int)
      returns (ghost wireData: Payload, ghost evicted: Option<string>, ghost since: seq<string>)
      requires Valid()
      modifies this, connections
      ensures Valid() && clients == old(clients)
      ensures history == old(history) + [Frame(old(nextSeq), kind, wireData, atMs)]
      ensures forall c :: c in connections <==> c in old(connections) && old(c.open) && old(|c.queue|) < c.capacity
      ensures kind == Report ==>
                && since == old(evictions) + ListOf(evicted) && evictions == []
                && wireData == ReportNotification(data, old(nextSeq), HintsAfter(since))
                && stale == FoldReports(history) - reports.Keys
                && (FoldReports(history) == reports.Keys <==>
                      KeepsUp(FoldReports(old(history)), old(stale), since, data.sessionId))
                && (old(stale) == {} && |Elems(since)| <= SESSION_CAP ==> FoldReports(history) == reports.Keys)
      ensures kind != Report ==> stale == old(stale) && evictions == old(evictions) + ListOf(evicted)
      ensures kind == SessionInfo ==> wireData == if evicted.Some? then data.(evictedSessionId := evicted) else data
      ensures kind != Report && kind != SessionInfo ==> wireData == data
      ensures Recorded(old(Held()), kind, data, old(nextSeq), Held(), evicted)
      ensures AllocRecorded(old(Allocated()), kind, data, ringCapacity, Allocated())
      ensures health == if kind == Health then Some(data) else old(health)
      ensures watchdog == if kind != Watchdog then old(watchdog) else if data.pids.Some? then data.pids.value else []
    {
      hide Elems, NoDuplicates, HintsOk, SessionsOk, AllocsOk, Recorded, AllocRecorded, NextFold, FoldReports, Wires,
           KeepLast, FoldOk, ClientsOk, LogOk, Announced, KeyOf, ListOf, HintsAfter, KeepsUp;
      assert ringCapacity >= 1 && nextSeq == |history| by { PositiveCapacity(); }
      var seqNo := nextSeq;
      ghost var held := FoldReports(history);
      var wire;
      wire, evicted, since := Record(kind, data, seqNo, held);
      wireData := wire;
      var f := Frame(seqNo, kind, wire, atMs);
      FoldMore(history, f);
      if kind == Report {
        StaleIff(held, old(stale), data, seqNo, wire, since);
      }
      Append(f);
    }

    lemma PositiveCapacity()
      requires LogOk()
      ensures ringCapacity >= 1 && nextSeq == |history|
    {
    }

    /** The exact condition, told from what the client held and the sessions evicted since the last report. */
    lemma StaleIff(held: set<string>, staleBefore: set<string>, data: Payload, seqNo: nat, wireData: Payload,
                   since: seq<string>)
      requires Announced(held, staleBefore, data, seqNo, wireData, since)
      ensures wireData == ReportNotification(data, seqNo, HintsAfter(since))
      ensures stale == NextFold(held, Report, wireData) - reports.Keys
      ensures NextFold(held, Report, wireData) == reports.Keys <==> KeepsUp(held, staleBefore, since, data.sessionId)
      ensures staleBefore == {} && |Elems(since)| <= SESSION_CAP ==> NextFold(held, Report, wireData) == reports.Keys
    {
      HintsCount(since);
      hide NextFold, ReportNotification, HintsAfter, Elems, Forgotten;
      NoSurplusIff(held, staleBefore, since, data.sessionId, stale);
      assert stale != {} ==> reports.Keys + stale != reports.Keys;
    }

    /** The ring is the newest part of the log, numbered without a gap. */
    lemma RingIsSuffix()
      requires LogOk()
      ensures frames == history[nextSeq - |frames|..]
      ensures forall i :: 0 <= i < |frames| ==> frames[i].seqNo == nextSeq - |frames| + i
      ensures frames == [] <==> nextSeq == 0
    {
    }

    /** The wire frames after a cursor, oldest first. */
    method ReplayAfter(last: int) returns (replay: seq<Wire>)
      requires LogOk() && (frames == [] || last + 1 >= frames[0].seqNo)
      ensures replay == Wires(history[Max(0, Min(last + 1, nextSeq))..])
    {
      RingIsSuffix();
      hide LogOk, Wires;
      ghost var base := nextSeq - |frames|;
      ghost var k := if frames == [] || last + 1 >= nextSeq then |frames| else last + 1 - base;
      assert base + k == Max(0, Min(last + 1, nextSeq));
      hide Max, Min;
      replay := WiresAfter(frames, last, k);
      SuffixOfSuffix(history, base, k);
    }

    /** The current payloads, for a client that has seen nothing: one frame per session, one notice per
        report, and the latest health. */
    ghost predicate IsFresh(out: seq<Wire>)
      reads this`sessions, this`reports, this`health
    {
      exists ks, rs :: Lists(ks, sessions.Keys) && Lists(rs, reports.Keys)
                       && out == Walked(sessions, ks, SessionFrame) + Walked(reports, rs, NoticeOf)
                                 + if health.Some? then [Unnumbered(Health, health.value)] else []
    }

    method FreshFrames() returns (out: seq<Wire>)
      ensures IsFresh(out)
    {
      hide Lists, Walked;
      ghost var ks, rs;
      var first, second;
      first, ks := Walk(sessions, SessionFrame);
      second, rs := Walk(reports, NoticeOf);
      out := first + second + if health.Some? then [Unnumbered(Health, health.value)] else [];
    }

    /**
     Registers a connection. The replay is computed and the connection added in one step, so every frame
     is either replayed or sent live: never both, never neither. A cursor whose next frame has left the
     ring gets a reset, and only such a cursor does.
     */
    method Subscribe(cursor: Option<int>) returns (c: Client, reset: bool)
      requires Valid()
      modifies this`connections, this`clients
      ensures Valid() && fresh(c) && clients == old(clients) + {c} && connections == old(connections) + [c]
      ensures c.open && c.capacity == queueCapacity && c.queue == []
      ensures reset <==> cursor.Some? && frames != [] && cursor.value + 1 < frames[0].seqNo
      ensures reset ==> c.written == c.prelude == [Reset] && c.from == nextSeq
      ensures cursor.Some? && !reset ==>
                && c.prelude == [] && c.from == Max(0, Min(cursor.value + 1, nextSeq))
                && c.written == Wires(history[c.from..])
      ensures cursor == None ==> c.from == nextSeq && c.written == c.prelude && IsFresh(c.prelude)
    {
      hide MapsOk, FoldOk, LogOk, Wires, IsFresh;
      var replay: seq<Wire> := [];
      ghost var prelude: seq<Wire>, from: nat := [], nextSeq;
      PositiveCapacity();
      Wires0();
      reset := false;
      match cursor {
        case None =>
          replay := FreshFrames();
          prelude := replay;
        case Some(last) =>
          if frames != [] && last + 1 < frames[0].seqNo {
            reset, replay, prelude := true, [Reset], [Reset];
          } else {
            from := Max(0, Min(last + 1, nextSeq));
            replay := ReplayAfter(last);
          }
      }
      c := new Client(queueCapacity, replay, prelude, from, nextSeq);
      assert history[nextSeq..] == [] && history[from..nextSeq] == history[from..];
      assert c.Follows(history);
      connections, clients := connections + [c], clients + {c};
    }

    /**
     A client that lost its connection subscribes again with the id it read last. While the frame after that is
     still in the ring there is no reset, and what it reads next is exactly the frames after the one it read
     last, up to the newest: over both connections it has read every frame from where it started, once.
     */
    method Resume(c: Client) returns (again: Client, reset: bool)
      requires Valid() && c in clients && |c.prelude| < |c.written| && c.written[|c.written| - 1].Numbered?
      modifies this`connections, this`clients
      ensures Valid() && fresh(again) && clients == old(clients) + {again}
      ensures ResumesAt(again, reset, old(NextOf(c)))
    {
      LastRead(c);
      hide *;
      again, reset := SubscribeAfter(c.written[|c.written| - 1].id, NextOf(c));
    }

    /** The number of the frame after those the client has read. */
    ghost function NextOf(c: Client): int
      reads c
    {
      c.from + |c.written| - |c.prelude|
    }

    /** Subscribing with the number of a frame already published. */
    method SubscribeAfter(last: nat, ghost next: int) returns (c: Client, reset: bool)
      requires Valid() && last + 1 == next <= nextSeq
      modifies this`connections, this`clients
      ensures Valid() && fresh(c) && clients == old(clients) + {c}
      ensures ResumesAt(c, reset, next)
    {
      OldestNumber();
      assert Max(0, Min(next, nextSeq)) == next;
      hide *;
      c, reset := Subscribe(Some(last));
      ResumesThere(c, reset, next);
    }

    /** Only a frame that has left the ring resets; else the client reads the log from `next` on, and no more. */
    ghost predicate ResumesAt(c: Client, reset: bool, next: int)
      reads this`nextSeq, this`frames, this`history, c
    {
      && 0 <= next <= nextSeq
      && (reset <==> next < nextSeq - |frames|)
      && (!reset ==> c.prelude == [] && Reads(c.written, history, next))
    }

    lemma ResumesThere(c: Client, reset: bool, next: nat)
      requires Valid() && next <= nextSeq
      requires if frames == [] then nextSeq == 0 else frames[0].seqNo == nextSeq - |frames|
      requires reset <==> frames != [] && next < frames[0].seqNo
      requires !reset ==> c.prelude == [] && c.from == next && c.written == Wires(history[c.from..])
      ensures ResumesAt(c, reset, next)
    {
      if !reset {
        ResumeReads(c.written, next);
      }
      hide Valid, Reads;
    }

    lemma OldestNumber()
      requires LogOk()
      ensures if frames == [] then nextSeq == 0 else frames[0].seqNo == nextSeq - |frames|
    {
      RingIsSuffix();
      hide LogOk;
    }

    /** The id read last is the number of the last frame read. */
    lemma LastRead(c: Client)
      requires Valid() && c in clients && |c.prelude| < |c.written| && c.written[|c.written| - 1].Numbered?
      ensures c.written[|c.written| - 1].id + 1 == NextOf(c) <= nextSeq
    {
      ClientFollows(c);
      hide Valid, Client.Follows, NumberedFromZero;
      ReadsTheLog(c, history, |c.written| - |c.prelude| - 1);
    }

    lemma ClientFollows(c: Client)
      requires Valid() && c in clients
      ensures c.Follows(history) && NumberedFromZero(history) && nextSeq == |history|
    {
      hide MapsOk, FoldOk, Client.Follows;
    }

    /** A replay without a reset is the rest of the log. */
    lemma ResumeReads(written: seq<Wire>, from: nat)
      requires Valid() && from <= nextSeq && written == Wires(history[from..])
      ensures Reads(written, history, from)
    {
      hide MapsOk, FoldOk, ClientsOk;
    }

    /** The connection's thread takes the next frame off its queue and writes it. */
    method Drain(c: Client)
      requires Valid() && c in clients && c.queue != []
      modifies c`queue, c`written
      ensures Valid()
      ensures c.written == old(c.written) + [old(c.queue)[0]] && c.queue == old(c.queue)[1..]
    {
      hide MapsOk, FoldOk, LogOk, Wires;
      assert c.written + c.queue == (c.written + [c.queue[0]]) + c.queue[1..];
      c.written, c.queue := c.written + [c.queue[0]], c.queue[1..];
    }

    /** The client goes away; the next publication drops its connection. */
    method HangUp(c: Client)
      requires Valid() && c in clients
      modifies c`open
      ensures Valid() && !c.open
    {
      hide MapsOk, FoldOk, LogOk, Wires;
      c.open := false;
    }

    method DisconnectAll()
      requires Valid()
      modifies this`connections
      ensures Valid() && connections == []
    {
      hide MapsOk, FoldOk, LogOk, Wires;
      connections := [];
    }

    /**
     The last `windowMs` of the log. `asOfSeq` is the newest frame's number, -1 on an empty log, if and
     only if the window is not negative or lets no frame through; so a client that subscribes from it
     continues without a gap.
     */
    method Snapshot(windowMs: int) returns (view: View)
      requires Valid()
      ensures var now := if frames == [] then 0 else frames[|frames| - 1].atMs;
              && view.events == PayloadsOf(frames, Fact, now - windowMs)
              && view.allocations == PayloadsOf(frames, Alloc, now - windowMs)
              && view.coverageGaps == PayloadsOf(frames, Gap, now - windowMs)
              && (view.asOfSeq == nextSeq - 1
                  <==> windowMs >= 0 || forall i :: 0 <= i < |frames| ==> frames[i].atMs < now - windowMs)
      ensures view.watchdog == watchdog && EMPTY_CURSOR <= view.asOfSeq < nextSeq
    {
      hide MapsOk, FoldOk, ClientsOk;
      RingIsSuffix();
      hide LogOk;
      var lower := (if frames == [] then 0 else frames[|frames| - 1].atMs) - windowMs;
      view := Project(frames, lower, if nextSeq == 0 then EMPTY_CURSOR else nextSeq - 1);
      LastPassingIff(frames, lower, nextSeq - 1);
      view := view.(watchdog := watchdog);
    }

    /** The snapshot route: for any window a client can ask for the cursor is the newest frame's number, so a client
        that subscribes from it misses nothing. */
    method SnapshotRoute(seconds: Option<int>) returns (view: View)
      requires Valid()
      ensures view.asOfSeq == nextSeq - 1 && view.watchdog == watchdog
      ensures seconds == None || seconds.value <= 0 ==>
                view.events == PayloadsOf(frames, Fact,
                                         (if frames == [] then 0 else frames[|frames| - 1].atMs) - 180000)
    {
      hide Valid;
      view := Snapshot(ParseWindowMs(seconds));
    }
  }

  /** The window of a snapshot request, of which `seconds` is what parsed: always positive. */
  function ParseWindowMs(seconds: Option<int>): (ms: int)
    ensures ms > 0 && (seconds.Some? && seconds.value > 0 ==> ms == 1000 * seconds.value)
  {
    if seconds.Some? && seconds.value > 0 then seconds.value * 1000 else DEFAULT_WINDOW_MS
  }

  /** The number of the last frame recorded no earlier than `lower`, or `otherwise`. */
  ghost function LastPassing(frames: seq<Frame>, lower: int, otherwise: int): int {
    if frames == [] then otherwise
    else if frames[|frames| - 1].atMs >= lower then frames[|frames| - 1].seqNo
    else LastPassing(frames[..|frames| - 1], lower, otherwise)
  }

  lemma {:induction false} LastPassingBelow(frames: seq<Frame>, lower: int, otherwise: int, bound: int)
    requires forall i :: 0 <= i < |frames| ==> frames[i].seqNo < bound
    ensures LastPassing(frames, lower, otherwise) < bound
       <==> otherwise < bound || exists i :: 0 <= i < |frames| && frames[i].atMs >= lower
    ensures (forall i :: 0 <= i < |frames| ==> frames[i].atMs < lower) ==>
              LastPassing(frames, lower, otherwise) == otherwise
    ensures EMPTY_CURSOR <= otherwise ==> EMPTY_CURSOR <= LastPassing(frames, lower, otherwise)
  {
    if frames != [] {
      LastPassingBelow(frames[..|frames| - 1], lower, otherwise, bound);
    }
  }

  /** The newest number is the answer exactly when the newest frame passes or none does. */
  lemma LastPassingIff(frames: seq<Frame>, lower: int, newest: int)
    requires forall i :: 0 <= i < |frames| ==> frames[i].seqNo == newest + 1 - |frames| + i
    requires EMPTY_CURSOR <= newest
    ensures LastPassing(frames, lower, newest) == newest
       <==> (frames == [] || frames[|frames| - 1].atMs >= lower
             || forall i :: 0 <= i < |frames| ==> frames[i].atMs < lower)
    ensures EMPTY_CURSOR <= LastPassing(frames, lower, newest) <= newest
  {
    if frames != [] {
      LastPassingBelow(frames[..|frames| - 1], lower, newest, newest);
      LastPassingBelow(frames, lower, newest, newest + 1);
    }
  }

  method Project(frames: seq<Frame>, lower: int, otherwise: int) returns (view: View)
    ensures view == View(PayloadsOf(frames, Fact, lower), PayloadsOf(frames, Alloc, lower),
                         PayloadsOf(frames, Gap, lower), [], LastPassing(frames, lower, otherwise))
  {
    view := View([], [], [], [], otherwise);
    for i := 0 to |frames|
      invariant view == View(PayloadsOf(frames[..i], Fact, lower), PayloadsOf(frames[..i], Alloc, lower),
                             PayloadsOf(frames[..i], Gap, lower), [], LastPassing(frames[..i], lower, otherwise))
    {
      var frame := frames[i];
      Prefix(frames, i);
      if frame.atMs >= lower {
        match frame.kind {
          case Fact => view := view.(events := view.events + [frame.data]);
          case Alloc => view := view.(allocations := view.allocations + [frame.data]);
          case Gap => view := view.(coverageGaps := view.coverageGaps + [frame.data]);
          case _ =>
        }
        view := view.(asOfSeq := frame.seqNo);
      }
    }
    assert frames[..|frames|] == frames;
  }

  datatype View = View(events: seq<Payload>, allocations: seq<Payload>, coverageGaps: seq<Payload>,
                       watchdog: seq<int>, asOfSeq: int)

  /** The payloads of one kind recorded no earlier than `lower`, in order. */
  ghost function PayloadsOf(frames: seq<Frame>, kind: Kind, lower: int): seq<Payload> {
    if frames == [] then []
    else
      var f := frames[|frames| - 1];
      PayloadsOf(frames[..|frames| - 1], kind, lower) + if f.kind == kind && f.atMs >= lower then [f.data] else []
  }

  /** Projecting keeps frame order: what comes first in the log comes first in the snapshot. */
  lemma {:induction false} PayloadsInOrder(first: seq<Frame>, later: seq<Frame>, kind: Kind, lower: int)
    ensures PayloadsOf(first + later, kind, lower) == PayloadsOf(first, kind, lower) + PayloadsOf(later, kind, lower)
  {
    if later == [] {
      assert first + later == first;
    } else {
      var n := |later| - 1;
      PayloadsInOrder(first, later[..n], kind, lower);
      assert (first + later)[..|first| + n] == first + later[..n];
      assert (first + later)[|first| + n] == later[n];
    }
  }

  lemma PayloadOf(f: Frame, kind: Kind, lower: int)
    ensures PayloadsOf([f], kind, lower) == if f.kind == kind && f.atMs >= lower then [f.data] else []
  {
    assert [f][..0] == [];
  }

  /** What a report looks like on the wire: its session, its level or "session", the version given, and the
      evictions it announces. */
  lemma NotificationShows(report: Payload, version: nat, evicted: seq<string>)
    ensures var n := ReportNotification(report, version, evicted);
            && n.sessionId == report.sessionId && n.reportVersion == Some(version) && n.evictedSessionIds == evicted
            && n.level == Some(if report.level.Some? then report.level.value else "session")
  {
  }

  /** A client without a cursor is told of every session and every report, and of the latest health, once each. */
  lemma FreshTellsAll(d: DebugState, out: seq<Wire>)
    requires d.IsFresh(out)
    ensures |out| == |d.sessions| + |d.reports| + if d.health.Some? then 1 else 0
    ensures forall id :: id in d.sessions ==> Unnumbered(SessionInfo, d.sessions[id]) in out
    ensures forall id :: id in d.reports ==> exists w :: w in out && Notifies(w, d.reports[id])
    ensures d.health.Some? ==> Unnumbered(Health, d.health.value) in out
  {
    var ks, rs :| Lists(ks, d.sessions.Keys) && Lists(rs, d.reports.Keys)
                  && out == Walked(d.sessions, ks, SessionFrame) + Walked(d.reports, rs, NoticeOf)
                            + if d.health.Some? then [Unnumbered(Health, d.health.value)] else [];
    hide DebugState.IsFresh;
    ListsAll(d.sessions, ks, SessionFrame);
    ListsAll(d.reports, rs, NoticeOf);
    hide Walked, Lists;
    var first, second := Walked(d.sessions, ks, SessionFrame), Walked(d.reports, rs, NoticeOf);
    ToldOf(d.sessions, d.reports, first, second, out);
    assert d.health.Some? ==> out[|out| - 1] == Unnumbered(Health, d.health.value);
  }

  lemma ToldOf(sessions: map<string, Payload>, reports: map<string, Payload>, first: seq<Wire>, second: seq<Wire>,
               out: seq<Wire>)
    requires first + second <= out
    requires forall id :: id in sessions ==> SessionFrame(sessions[id]) in first
    requires forall id :: id in reports ==> NoticeOf(reports[id]) in second
    ensures forall id :: id in sessions ==> Unnumbered(SessionInfo, sessions[id]) in out
    ensures forall id :: id in reports ==> exists w :: w in out && Notifies(w, reports[id])
  {
    forall w | w in first + second ensures w in out {
      var i :| 0 <= i < |first + second| && (first + second)[i] == w;
      assert out[i] == w;
    }
    forall id | id in reports ensures exists w :: w in out && Notifies(w, reports[id]) {
      assert NoticeOf(reports[id]) in first + second;
      assert Notifies(NoticeOf(reports[id]), reports[id]);
    }
  }

  /** The notice of a report sent to a fresh client: its session and version, zero if none, and no evictions. */
  predicate Notifies(w: Wire, report: Payload) {
    w.Unnumbered? && w.kind == Report && w.data.sessionId == report.sessionId && w.data.evictedSessionIds == []
    && w.data.reportVersion == Some(if report.reportVersion.Some? then report.reportVersion.value else 0)
  }

  lemma ListsAll(m: map<string, Payload>, ks: seq<string>, frame: Payload -> Wire)
    requires Lists(ks, m.Keys)
    ensures |Walked(m, ks, frame)| == |m|
    ensures forall k :: k in m ==> frame(m[k]) in Walked(m, ks, frame)
  {
    ElemsCount(ks);
    assert |m| == |m.Keys|;
    forall k | k in m ensures frame(m[k]) in Walked(m, ks, frame) {
      assert k in Elems(ks);
      var i :| 0 <= i < |ks| && ks[i] == k;
      assert Walked(m, ks, frame)[i] == frame(m[k]);
    }
  }

  /** The report notice a fresh client gets: the stored version, and no evictions. */
  function NoticeOf(report: Payload): Wire {
    Unnumbered(Report,
           ReportNotification(report, if report.reportVersion.Some? then report.reportVersion.value else 0, []))
  }

  function SessionFrame(p: Payload): Wire { Unnumbered(SessionInfo, p) }

  /** `ks` lists `keys`, each once. */
  ghost predicate Lists(ks: seq<string>, keys: set<string>) { NoDuplicates(ks) && Elems(ks) == keys }

  ghost function Walked(m: map<string, Payload>, ks: seq<string>, frame: Payload -> Wire): seq<Wire> {
    Mapped(ks, (k: string) => if k in m then frame(m[k]) else Reset)
  }

  /** One wire frame per map entry, in the order `ks` the map was walked. */
  method Walk(m: map<string, Payload>, frame: Payload -> Wire) returns (out: seq<Wire>, ghost ks: seq<string>)
    ensures Lists(ks, m.Keys) && out == Walked(m, ks, frame)
  {
    hide Elems, NoDuplicates;
    out, ks := [], [];
    var left := m.Keys;
    Nothing<string>();
    while left != {}
      invariant left <= m.Keys && Lists(ks, m.Keys - left) && out == Walked(m, ks, frame)
      decreases left
    {
      var k :| k in left;
      AppendNew(ks, k);
      assert (ks + [k])[..|ks|] == ks;
      assert m.Keys - (left - {k}) == (m.Keys - left) + {k};
      out, ks, left := out + [frame(m[k])], ks + [k], left - {k};
    }
  }

  method WiresAfter(frames: seq<Frame>, last: int, ghost k: nat) returns (out: seq<Wire>)
    requires k <= |frames| && forall i :: 0 <= i < |frames| ==> (frames[i].seqNo > last <==> i >= k)
    ensures out == Wires(frames[k..])
  {
    hide Wires;
    Wires0();
    assert frames[k..k] == [];
    out := [];
    for i := 0 to |frames|
      invariant i <= k ==> out == []
      invariant i >= k ==> out == Wires(frames[k..i])
    {
      if frames[i].seqNo > last {
        NextSlice(frames, k, i);
        WiresMore(frames[k..i], frames[i]);
        out := out + [WireOf(frames[i])];
      }
    }
    assert frames[k..|frames|] == frames[k..];
  }

  /** What one publication does to the session-keyed maps. */
  ghost predicate Recorded(before: Maps, kind: Kind, data: Payload, seqNo: nat, after: Maps, evicted: Option<string>) {
    match kind
    case Report => Stored(before, kind, data.(reportVersion := Some(seqNo)), after, evicted)
    case SessionInfo => Stored(before, kind, data, after, evicted)
    case _ => after == before && evicted == None
  }

  /** What one publication does to the allocations: a known id keeps its place, the oldest beyond the capacity go. */
  ghost predicate AllocRecorded(before: (map<string, Payload>, seq<string>), kind: Kind, data: Payload, capacity: nat,
                                after: (map<string, Payload>, seq<string>)) {
    if kind == Alloc && data.sampleEventId.Some? then
      var id := data.sampleEventId.value;
      && after.1 == KeepLast(if id in before.0 then before.1 else before.1 + [id], capacity)
      && after.0 == Only(before.0[id := data], Elems(after.1))
    else after == before
  }

  lemma DropsReport(before: Maps, data: Payload, after: Maps, evicted: Option<string>)
    requires Stored(before, SessionInfo, data, after, evicted)
    ensures after.reports.Keys == before.reports.Keys - KeyOf(evicted)
  {
  }

  lemma FoldAfterReport(held: set<string>, before: Maps, data: Payload, seqNo: nat, after: Maps,
                         evicted: Option<string>,
                        evictions: seq<string>, stale: set<string>, since: seq<string>)
    requires before.reports.Keys <= held <= before.reports.Keys + Elems(evictions) + stale
    requires stale <= held && before.reports.Keys !! Elems(evictions) + stale
    requires Stored(before, Report, data.(reportVersion := Some(seqNo)), after, evicted)
    requires since == evictions + ListOf(evicted)
    ensures var surplus := held * (stale + Forgotten(since)) - Elems(HintsAfter(since)) - KeyOf(data.sessionId);
            && held - Elems(HintsAfter(since)) + KeyOf(data.sessionId) == after.reports.Keys + surplus
            && after.reports.Keys !! surplus
  {
    ListAdds(evictions, evicted);
    SplitsForgotten(since);
    hide *;
    FoldAtReport(held, before, data.(reportVersion := Some(seqNo)), after, evicted, Elems(evictions),
                 stale, Elems(since),
                 Forgotten(since), Elems(HintsAfter(since)));
  }

  /** The set argument behind a report frame: what is held afterwards, and what of it is stale. */
  lemma FoldAtReport(held: set<string>, before: Maps, data: Payload, after: Maps, evicted: Option<string>,
                     evictedSince: set<string>, stale: set<string>,
                     since: set<string>, lost: set<string>, hints: set<string>)
    requires before.reports.Keys <= held <= before.reports.Keys + evictedSince + stale
    requires stale <= held && before.reports.Keys !! evictedSince + stale
    requires Stored(before, Report, data, after, evicted)
    requires since == evictedSince + KeyOf(evicted) && lost <= since && hints == since - lost
    ensures var adrift := held * (stale + lost) - hints - KeyOf(data.sessionId);
            held - hints + KeyOf(data.sessionId) == after.reports.Keys + adrift && after.reports.Keys !! adrift
  {
    assert after.reports.Keys == before.reports.Keys + KeyOf(data.sessionId) - KeyOf(evicted);
    assert KeyOf(evicted) !! KeyOf(data.sessionId);
    hide Stored, KeyOf;
  }

  // ---- a run that forgets -------------------------------------------------------------------------------------

  /** The payload of session `id` and nothing else. */
  function For(id: string): Payload { Payload(Some(id), None, None, None, None, None, [], "") }

  /** "v", then `n` further sessions. */
  function Names(n: nat): (ids: seq<string>)
    ensures |ids| == n + 1 && forall i :: 0 <= i <= n ==> |ids[i]| == i + 1
  {
    seq(n + 1, i requires 0 <= i <= n => if i == 0 then "v" else seq(i + 1, _ => 'a'))
  }

  lemma NamesMore(n: nat)
    ensures Names(n + 1) == Names(n) + [Names(n + 1)[n + 1]] && NoDuplicates(Names(n)) && Names(n)[0] == "v"
  {
  }

  /** The sessions kept, and those evicted, once all of `ids` have been published in order. */
  ghost predicate Through(ids: seq<string>, order: seq<string>, evictions: seq<string>) {
    order == KeepLast(ids, SESSION_CAP) && evictions == ids[..|ids| - |order|]
  }

  lemma ThroughNext(ids: seq<string>, id: string, order: seq<string>, evictions: seq<string>, after: seq<string>,
                    evicted: Option<string>)
    requires Through(ids, order, evictions)
    requires var all := order + [id];
             if |all| > SESSION_CAP then evicted == Some(all[0]) && after == all[1..]
             else evicted == None && after == all
    ensures Through(ids + [id], after, evictions + ListOf(evicted))
  {
    if |order| == SESSION_CAP {
      var k := |ids| - SESSION_CAP;
      assert order[0] == ids[k] && ids[..k + 1] == ids[..k] + [ids[k]];
      assert (ids + [id])[..k + 1] == ids[..k + 1];
      assert after == (ids + [id])[k + 1..];
    } else {
      assert order == ids && after == ids + [id];
      assert evictions == [] && ListOf(evicted) == [] && (ids + [id])[..0] == [];
    }
  }

  lemma NewName(n: nat, order: seq<string>)
    requires order == KeepLast(Names(n), SESSION_CAP)
    ensures Names(n + 1)[n + 1] !in Elems(order)
  {
    var ids, id := Names(n), Names(n + 1)[n + 1];
    forall i | 0 <= i < |order| ensures order[i] != id {
      assert order[i] == ids[|ids| - |order| + i];
    }
  }

  lemma ThroughOne(n: nat, kind: Kind, before: Maps, data: Payload, after: Maps, evicted: Option<string>,
                   evictions: seq<string>)
    requires Through(Names(n), before.order, evictions)
             && Elems(before.order) == before.sessions.Keys + before.reports.Keys
    requires data.sessionId == Some(Names(n + 1)[n + 1]) && Stored(before, kind, data, after, evicted)
    ensures Through(Names(n + 1), after.order, evictions + ListOf(evicted))
  {
    var ids, id := Names(n), Names(n + 1)[n + 1];
    NamesMore(n);
    NewName(n, before.order);
    hide Names, Elems, KeepLast, ListOf;
    assert id !in before.sessions.Keys + before.reports.Keys;
    ThroughNext(ids, id, before.order, evictions, after.order, evicted);
  }

  /** "v" has reported, `n` sessions have followed, and nobody listens. */
  ghost predicate Followed(d: DebugState, n: nat)
    reads d, d.clients
  {
    && d.Valid() && d.connections == [] && d.stale == {} && FoldReports(d.history) == {"v"} && d.reports.Keys <= {"v"}
    && Through(Names(n), d.sessionOrder, d.evictions)
  }

  /** "v" reports, `n` sessions follow without a report, then one more session reports: a client folding the log
      is right if and only if at most `SESSION_CAP` sessions were evicted in between, the last one included. */
  method ReportAfter(n: nat) returns (d: DebugState)
    ensures fresh(d) && d.Valid()
    ensures FoldReports(d.history) == d.reports.Keys <==> n + 2 <= 2 * SESSION_CAP
    ensures n + 2 > 2 * SESSION_CAP ==> "v" in FoldReports(d.history) && "v" !in d.reports
  {
    d := FirstReport();
    for i := 0 to n
      invariant fresh(d) && fresh(d.clients) && Followed(d, i)
    {
      OneMoreSession(d, i);
    }
    LastReport(d, n);
  }

  lemma FirstStored(data: Payload, after: Maps, evicted: Option<string>, since: seq<string>)
    requires Stored(Maps(map[], map[], []), Report, data, after, evicted) && data.sessionId == Some("v")
    requires since == [] + ListOf(evicted)
    ensures Through(Names(0), after.order, []) && after.reports.Keys == {"v"} && |Elems(since)| == 0
  {
    assert Names(0) == ["v"];
    assert evicted == None && after.order == ["v"];
    assert since == [];
    hide Elems;
    Nothing<string>();
  }

  lemma FollowsNow(d: DebugState, n: nat)
    requires d.Valid() && (forall c :: c !in d.connections) && d.stale == {}
    requires FoldReports(d.history) == {"v"} && d.reports.Keys <= {"v"}
             && Through(Names(n), d.sessionOrder, d.evictions)
    ensures Followed(d, n)
  {
    hide DebugState.Valid, FoldReports, Names, Through;
    FirstIsIn(d.connections);
  }

  lemma FirstIsIn<T>(s: seq<T>)
    ensures s == [] || s[0] in s
  {
  }

  lemma NamesOne(id: string)
    ensures For(id).sessionId == Some(id)
  {
  }

  lemma StoredAs(before: Maps, kind: Kind, data: Payload, seqNo: nat, after: Maps, evicted: Option<string>)
    requires Recorded(before, kind, data, seqNo, after, evicted) && (kind == Report || kind == SessionInfo)
    ensures Stored(before, kind, if kind == Report then data.(reportVersion := Some(seqNo)) else data, after, evicted)
  {
  }

  method FirstReport() returns (d: DebugState)
    ensures fresh(d) && d.clients == {} && Followed(d, 0)
  {
    hide *;
    d := new DebugState(1, 1);
    ghost var before, seqNo, data := d.Held(), d.nextSeq, For("v");
    ghost var wire, evicted, since := d.Publish(Report, For("v"), 0);
    NamesOne("v");
    StoredAs(before, Report, data, seqNo, d.Held(), evicted);
    FirstStored(data.(reportVersion := Some(seqNo)), d.Held(), evicted, since);
    HeldIs(d);
    FollowsNow(d, 0);
  }

  lemma HeldIs(d: DebugState)
    ensures d.Held() == Maps(d.sessions, d.reports, d.sessionOrder)
  {
  }

  lemma FollowedMeans(d: DebugState, n: nat)
    requires Followed(d, n)
    ensures d.Valid() && d.connections == [] && d.stale == {}
    ensures FoldReports(d.history) == {"v"} && d.reports.Keys <= {"v"} && Through(Names(n), d.sessionOrder, d.evictions)
    ensures Elems(d.sessionOrder) == d.sessions.Keys + d.reports.Keys && d.nextSeq == |d.history|
  {
  }

  method OneMoreSession(d: DebugState, i: nat)
    requires Followed(d, i)
    modifies d
    ensures d.clients == old(d.clients) && Followed(d, i + 1)
  {
    hide *;
    FollowedMeans(d, i);
    HeldIs(d);
    ghost var before, was, log, data := d.Held(), d.evictions, d.history, For(Names(i + 1)[i + 1]);
    var seqNo := d.nextSeq;
    ghost var wire, evicted, since := d.Publish(SessionInfo, For(Names(i + 1)[i + 1]), 0);
    NamesOne(Names(i + 1)[i + 1]);
    StoredAs(before, SessionInfo, data, seqNo, d.Held(), evicted);
    ThroughOne(i, SessionInfo, before, data, d.Held(), evicted, was);
    DropsReport(before, data, d.Held(), evicted);
    HeldIs(d);
    FoldKept(log, d.history[|log|]);
    FollowsNow(d, i + 1);
  }

  lemma FoldKept(frames: seq<Frame>, f: Frame)
    requires f.kind != Report
    ensures FoldReports(frames + [f]) == FoldReports(frames)
  {
    FoldMore(frames, f);
  }

  /** The report frame of a session not seen before adds that session alone. */
  lemma LastFold(d: DebugState, log: seq<Frame>, f: Frame, named: string)
    requires d.Valid() && d.history == log + [f] && f.kind == Report && f.data.sessionId == Some(named)
    requires FoldReports(log) == {"v"} && named in d.reports && FoldReports(d.history) != d.reports.Keys
    ensures "v" in FoldReports(d.history) && "v" !in d.reports
  {
    FoldMore(log, f);
    hide FoldReports, Elems;
  }

  lemma NamedReports(before: Maps, data: Payload, after: Maps, evicted: Option<string>, id: string)
    requires Stored(before, Report, data, after, evicted) && data.sessionId == Some(id)
    ensures id in after.reports
  {
  }

  method LastReport(d: DebugState, n: nat)
    requires Followed(d, n)
    modifies d
    ensures d.Valid()
    ensures FoldReports(d.history) == d.reports.Keys <==> n + 2 <= 2 * SESSION_CAP
    ensures n + 2 > 2 * SESSION_CAP ==> "v" in FoldReports(d.history) && "v" !in d.reports
  {
    hide *;
    FollowedMeans(d, n);
    HeldIs(d);
    ghost var id := Names(n + 1)[n + 1];
    ghost var before, was, log, data := d.Held(), d.evictions, d.history, For(id);
    var seqNo := d.nextSeq;
    ghost var wire, evicted, since := d.Publish(Report, For(Names(n + 1)[n + 1]), 0);
    NamesOne(id);
    StoredAs(before, Report, data, seqNo, d.Held(), evicted);
    ThroughOne(n, Report, before, data.(reportVersion := Some(seqNo)), d.Held(), evicted, was);
    HeldIs(d);
    VictimForgotten(n, d.sessionOrder, since);
    if n + 2 > 2 * SESSION_CAP {
      NamedReports(before, data.(reportVersion := Some(seqNo)), d.Held(), evicted, id);
      NoticeNames(data, seqNo, HintsAfter(since));
      LastFold(d, log, d.history[|log|], id);
    }
  }

  lemma NoticeNames(data: Payload, seqNo: nat, hints: seq<string>)
    ensures ReportNotification(data, seqNo, hints).sessionId == data.sessionId
  {
  }

  /** The first of the names is forgotten exactly when more than `SESSION_CAP` have gone since. */
  lemma VictimForgotten(n: nat, order: seq<string>, since: seq<string>)
    requires Through(Names(n + 1), order, since)
    ensures KeepsUp({"v"}, {}, since, Some(Names(n + 1)[n + 1])) <==> n + 2 <= 2 * SESSION_CAP
  {
    NamesMore(n + 1);
    assert NoDuplicates(since) && |since| == Max(n + 2 - SESSION_CAP, 0);
    assert since != [] ==> since[0] == "v";
    assert Names(n + 1)[n + 1] != "v";
    hide Names, Through;
    OldestForgotten(since);
    VictimDecides(since, Names(n + 1)[n + 1]);
  }

  lemma VictimDecides(since: seq<string>, named: string)
    requires named != "v" && (since != [] ==> since[0] == "v")
    requires forall i :: 0 <= i < |since| ==> (since[i] in Forgotten(since) <==> i < |since| - SESSION_CAP)
    ensures KeepsUp({"v"}, {}, since, Some(named)) <==> |since| <= SESSION_CAP
  {
    hide HintsAfter;
    if since == [] {
      Nothing<string>();
    }
    if |since| > SESSION_CAP {
      assert since[0] in Forgotten(since);
    }
  }
}
