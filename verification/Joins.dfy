/**
 From a session's events to its impact records: correlating spans, merging the energy samples'
 windows into a coverage, and assembling one record per session, tool call and task.
 */
module Joins {
  import opened Prelude
  import opened Attribution
  import AttributionLaws

  // ---- correlation ------------------------------------------------------------------------------

  datatype Event =
    | ActionSpan(spanId: SpanId, toolName: string, locus: Locus, tStart: Option<int>, tEnd: Option<int>,
                 pids: seq<int>, taskId: Option<string>)
    | Energy(energy: EnergySample)
    | Process(process: ProcessSample)
    | OtherEvent
  {
    predicate Spans() { ActionSpan? && tStart.Some? && tEnd.Some? }

    function AsSpan(): Span
      requires Spans()
    {
      Span(spanId, toolName, locus, tStart.value, tEnd.value, pids, taskId)
    }
  }

  ghost function SpansOf(events: seq<Event>): seq<Span> {
    if events == [] then []
    else
      var e := events[|events| - 1];
      SpansOf(events[..|events| - 1]) + if e.Spans() then [e.AsSpan()] else []
  }

  /** The pids the bootstrap spans report. */
  ghost function RootPids(events: seq<Event>): set<int> {
    set i, p | 0 <= i < |events| && events[i].Spans() && events[i].toolName == BOOTSTRAP_TOOL_NAME
               && p in events[i].pids :: p
  }

  /** A span is collected exactly when some action span whose times parsed reports it, field by field. */
  lemma {:induction false} SpansShow(events: seq<Event>, s: Span)
    ensures s in SpansOf(events) <==>
              ActionSpan(s.spanId, s.toolName, s.locus, Some(s.tStart), Some(s.tEnd), s.pids, s.taskId) in events
  {
    if events != [] {
      var n := |events| - 1;
      SpansShow(events[..n], s);
      assert events == events[..n] + [events[n]];
    }
  }

  predicate StrictlyIncreasing(xs: seq<int>) { forall i, j :: 0 <= i < j < |xs| ==> xs[i] < xs[j] }

  function InsertDistinct(x: int, xs: seq<int>): (r: seq<int>)
    requires StrictlyIncreasing(xs)
    ensures StrictlyIncreasing(r) && forall y :: y in r <==> y == x || y in xs
  {
    if xs == [] || x < xs[0] then [x] + xs
    else if x == xs[0] then xs
    else
      var rest := InsertDistinct(x, xs[1..]);
      InsertAbove(x, xs, rest);
      [xs[0]] + rest
  }

  lemma InsertAbove(x: int, xs: seq<int>, rest: seq<int>)
    requires xs != [] && StrictlyIncreasing(xs) && xs[0] < x && forall y :: y in rest <==> y == x || y in xs[1..]
    ensures forall i :: 0 <= i < |rest| ==> xs[0] < rest[i]
  {
    forall i | 0 <= i < |rest| ensures xs[0] < rest[i] {
      assert rest[i] in rest;
      if rest[i] in xs[1..] {
        var k :| 0 <= k < |xs[1..]| && xs[1..][k] == rest[i];
        assert xs[k + 1] == rest[i];
      }
    }
  }

  /** Sorting and then dropping equal neighbours. */
  function SortedDistinct(xs: seq<int>): (r: seq<int>)
    ensures StrictlyIncreasing(r) && forall y :: y in r <==> y in xs
  {
    if xs == [] then [] else InsertDistinct(xs[0], SortedDistinct(xs[1..]))
  }

  method Correlate(events: seq<Event>) returns (tree: SessionTree)
    ensures tree.spans == SpansOf(events)
    ensures StrictlyIncreasing(tree.rootPids) && forall p :: p in tree.rootPids <==> p in RootPids(events)
    ensures tree.skippedEvents == CountOver(events, (e: Event) => e.ActionSpan? && !e.Spans())
  {
    var spans: seq<Span>, rootPids: seq<int>, skipped: nat := [], [], 0;
    for i := 0 to |events|
      invariant spans == SpansOf(events[..i])
      invariant forall p :: p in rootPids <==> p in RootPids(events[..i])
      invariant skipped == CountOver(events[..i], (e: Event) => e.ActionSpan? && !e.Spans())
    {
      Prefix(events, i);
      RootPidsMore(events, i);
      var e := events[i];
      if e.Spans() {
        if e.toolName == BOOTSTRAP_TOOL_NAME {
          rootPids := rootPids + e.pids;
        }
        spans := spans + [e.AsSpan()];
      } else if e.ActionSpan? {
        skipped := skipped + 1;
      }
    }
    assert events[..|events|] == events;
    tree := SessionTree(spans, SortedDistinct(rootPids), skipped);
  }

  lemma RootPidsMore(events: seq<Event>, i: nat)
    requires i < |events|
    ensures forall p :: p in RootPids(events[..i + 1])
                   <==> p in RootPids(events[..i])
                        || (events[i].Spans() && events[i].toolName == BOOTSTRAP_TOOL_NAME && p in events[i].pids)
  {
    forall p
      ensures p in RootPids(events[..i + 1])
         <==> p in RootPids(events[..i])
              || (events[i].Spans() && events[i].toolName == BOOTSTRAP_TOOL_NAME && p in events[i].pids)
    {
      if events[i].Spans() && events[i].toolName == BOOTSTRAP_TOOL_NAME && p in events[i].pids {
        assert events[..i + 1][i] == events[i];
      }
      if p in RootPids(events[..i]) {
        var k :| 0 <= k < i && events[..i][k].Spans() && events[..i][k].toolName == BOOTSTRAP_TOOL_NAME
                 && p in events[..i][k].pids;
        assert events[..i + 1][k] == events[..i][k];
      }
      if p in RootPids(events[..i + 1]) {
        var k :| 0 <= k <= i && events[..i + 1][k].Spans() && events[..i + 1][k].toolName == BOOTSTRAP_TOOL_NAME
                 && p in events[..i + 1][k].pids;
        assert k < i ==> events[..i][k] == events[k];
      }
    }
  }

  // ---- coverage ---------------------------------------------------------------------------------

  datatype Interval = Interval(start: int, end: int)

  ghost predicate Covers(windows: seq<Interval>, t: int) {
    exists i :: 0 <= i < |windows| && windows[i].start <= t < windows[i].end
  }

  /** Sorted, non-empty, and with a gap between any two. */
  ghost predicate Separated(windows: seq<Interval>) {
    && (forall i :: 0 <= i < |windows| ==> windows[i].start < windows[i].end)
    && (forall i, j :: 0 <= i < j < |windows| ==> windows[i].end < windows[j].start)
  }

  ghost predicate SortedByStart(windows: seq<Interval>) {
    forall i, j :: 0 <= i < j < |windows| ==> windows[i].start <= windows[j].start
  }

  predicate Before(a: Interval, b: Interval) { a.start < b.start || (a.start == b.start && a.end <= b.end) }

  function InsertSorted(w: Interval, ws: seq<Interval>): (r: seq<Interval>)
    ensures multiset(r) == multiset(ws) + multiset{w}
  {
    if ws == [] || Before(w, ws[0]) then [w] + ws
    else
      assert ws == [ws[0]] + ws[1..];
      [ws[0]] + InsertSorted(w, ws[1..])
  }

  lemma {:induction false} InsertStaysSorted(w: Interval, ws: seq<Interval>)
    requires SortedByStart(ws)
    ensures SortedByStart(InsertSorted(w, ws))
  {
    if ws != [] && !Before(w, ws[0]) {
      var rest := InsertSorted(w, ws[1..]);
      InsertStaysSorted(w, ws[1..]);
      hide InsertSorted;
      forall i | 0 <= i < |rest| ensures ws[0].start <= rest[i].start {
        assert rest[i] in multiset(rest);
        assert rest[i] == w || rest[i] in ws[1..];
      }
    }
  }

  function Sorted(ws: seq<Interval>): (r: seq<Interval>)
    ensures multiset(r) == multiset(ws)
  {
    if ws == [] then []
    else
      assert ws == [ws[0]] + ws[1..];
      InsertSorted(ws[0], Sorted(ws[1..]))
  }

  lemma {:induction false} SortedIsSorted(ws: seq<Interval>)
    ensures SortedByStart(Sorted(ws))
  {
    if ws != [] {
      SortedIsSorted(ws[1..]);
      InsertStaysSorted(ws[0], Sorted(ws[1..]));
    }
  }

  /** The windows of the samples that parsed and have positive length. */
  function SampleWindows(samples: seq<EnergySample>): (ws: seq<Interval>)
    ensures forall w :: w in ws <==> exists i :: 0 <= i < |samples| && Measures(samples[i], w)
  {
    if samples == [] then []
    else
      var n := |samples| - 1;
      var s, before := samples[n], SampleWindows(samples[..n]);
      var ws := before + if s.Parsed() && s.tStart.value < s.tEnd.value
                           then [Interval(s.tStart.value, s.tEnd.value)] else [];
      assert forall i :: 0 <= i < n ==> samples[..n][i] == samples[i];
      ws
  }

  predicate Measures(s: EnergySample, w: Interval) {
    s.Parsed() && s.tStart.value < s.tEnd.value && w == Interval(s.tStart.value, s.tEnd.value)
  }

  /** Merges sorted windows that overlap or touch. */
  method MergeWindows(windows: seq<Interval>) returns (merged: seq<Interval>)
    requires SortedByStart(windows) && forall i :: 0 <= i < |windows| ==> windows[i].start < windows[i].end
    ensures Separated(merged) && forall t :: Covers(merged, t) <==> Covers(windows, t)
  {
    hide Covers;
    merged := [];
    for i := 0 to |windows|
      invariant Separated(merged)
      invariant forall t :: Covers(merged, t) <==> Covers(windows[..i], t)
      invariant merged != [] ==> forall k :: i <= k < |windows| ==> merged[|merged| - 1].start <= windows[k].start
    {
      var w := windows[i];
      if merged != [] && w.start <= merged[|merged| - 1].end {
        var last := merged[|merged| - 1];
        Stretched(merged, merged[|merged| - 1 := Interval(last.start, Max(last.end, w.end))], windows, i);
        merged := merged[|merged| - 1 := Interval(last.start, Max(last.end, w.end))];
      } else {
        Appended(merged, windows, i);
        merged := merged + [w];
      }
    }
    assert windows[..|windows|] == windows;
  }

  /** The union of the samples' windows: sorted, strictly separated, and covering the same instants. */
  method EnergyCoverageWindows(samples: seq<EnergySample>) returns (merged: seq<Interval>)
    ensures Separated(merged)
    ensures forall t :: Covers(merged, t) <==> Sampled(samples, t)
  {
    var windows := Sorted(SampleWindows(samples));
    SortedIsSorted(SampleWindows(samples));
    forall i | 0 <= i < |windows| ensures windows[i].start < windows[i].end {
      assert windows[i] in multiset(windows) && windows[i] in SampleWindows(samples);
    }
    merged := MergeWindows(windows);
    hide Covers, Sampled;
    forall t ensures Covers(windows, t) <==> Sampled(samples, t) {
      SameInstants(samples, windows, t);
    }
  }

  /** Instant `t` lies inside some parsed sample. */
  ghost predicate Sampled(samples: seq<EnergySample>, t: int) {
    exists i :: 0 <= i < |samples| && samples[i].Parsed() && samples[i].tStart.value <= t < samples[i].tEnd.value
  }

  lemma Appended(merged: seq<Interval>, windows: seq<Interval>, i: nat)
    requires i < |windows| && forall t :: Covers(merged, t) <==> Covers(windows[..i], t)
    ensures forall t :: Covers(merged + [windows[i]], t) <==> Covers(windows[..i + 1], t)
  {
    hide Covers;
    forall t ensures Covers(merged + [windows[i]], t) <==> Covers(windows[..i + 1], t) {
      CoversMore(merged, windows[i], t);
      CoversMore(windows[..i], windows[i], t);
      assert windows[..i + 1] == windows[..i] + [windows[i]];
    }
  }

  lemma CoversMore(ws: seq<Interval>, w: Interval, t: int)
    ensures Covers(ws + [w], t) <==> Covers(ws, t) || w.start <= t < w.end
  {
    if Covers(ws, t) {
      var k :| 0 <= k < |ws| && ws[k].start <= t < ws[k].end;
      assert (ws + [w])[k] == ws[k];
    }
    if w.start <= t < w.end {
      assert (ws + [w])[|ws|] == w;
    }
  }

  lemma Stretched(before: seq<Interval>, after: seq<Interval>, windows: seq<Interval>, i: nat)
    requires before != [] && i < |windows| && Separated(before)
    requires var last := before[|before| - 1];
             && last.start <= windows[i].start <= last.end
             && after == before[|before| - 1 := Interval(last.start, Max(last.end, windows[i].end))]
    requires windows[i].start < windows[i].end
    requires forall t :: Covers(before, t) <==> Covers(windows[..i], t)
    ensures Separated(after)
    ensures forall t :: Covers(after, t) <==> Covers(windows[..i + 1], t)
  {
    hide Covers;
    var n := |before| - 1;
    var last, w := before[n], windows[i];
    assert before == before[..n] + [last] && after == before[..n] + [Interval(last.start, Max(last.end, w.end))];
    forall t ensures Covers(after, t) <==> Covers(windows[..i + 1], t) {
      CoversMore(before[..n], last, t);
      CoversMore(before[..n], Interval(last.start, Max(last.end, w.end)), t);
      CoversMore(windows[..i], w, t);
      assert windows[..i + 1] == windows[..i] + [w];
    }
  }

  lemma SameInstants(samples: seq<EnergySample>, windows: seq<Interval>, t: int)
    requires multiset(windows) == multiset(SampleWindows(samples))
    ensures Covers(windows, t) <==> Sampled(samples, t)
  {
    hide Sorted;
    var ws := SampleWindows(samples);
    if Covers(windows, t) {
      var k :| 0 <= k < |windows| && windows[k].start <= t < windows[k].end;
      assert windows[k] in multiset(windows);
      assert windows[k] in ws;
      var i :| 0 <= i < |samples| && Measures(samples[i], windows[k]);
    }
    if i :| 0 <= i < |samples| && samples[i].Parsed() && samples[i].tStart.value <= t < samples[i].tEnd.value {
      var w := Interval(samples[i].tStart.value, samples[i].tEnd.value);
      assert Measures(samples[i], w) && w in ws;
      assert w in multiset(windows);
      var k :| 0 <= k < |windows| && windows[k] == w;
    }
  }

  function CoveredMs(windows: seq<Interval>, t0: int, t1: int): nat {
    if windows == [] then 0
    else
      var w := windows[|windows| - 1];
      CoveredMs(windows[..|windows| - 1], t0, t1) + OverlapMs(w.start, w.end, t0, t1)
  }

  /** The milliseconds of `[t0, t1)` inside some window. */
  ghost function CoveredInstants(windows: seq<Interval>, t0: int, t1: int): set<int> {
    set t | t0 <= t < t1 && Covers(windows, t)
  }

  /** A window separated from the earlier ones adds exactly its own part of `[t0, t1)`. */
  lemma NextWindowIsNew(before: seq<Interval>, w: Interval, t0: int, t1: int)
    requires Separated(before + [w])
    ensures CoveredInstants(before + [w], t0, t1)
         == CoveredInstants(before, t0, t1) + Instants(Max(w.start, t0), Min(w.end, t1))
    ensures CoveredInstants(before, t0, t1) !! Instants(Max(w.start, t0), Min(w.end, t1))
  {
    forall t ensures Covers(before + [w], t) <==> Covers(before, t) || w.start <= t < w.end {
      CoversMore(before, w, t);
    }
    forall t | Covers(before, t) ensures t < w.start {
      var k :| 0 <= k < |before| && before[k].start <= t < before[k].end;
      assert (before + [w])[k] == before[k] && (before + [w])[|before|] == w;
    }
    hide Covers, Separated;
    forall t
      ensures t in CoveredInstants(before + [w], t0, t1)
         <==> t in CoveredInstants(before, t0, t1) || t in Instants(Max(w.start, t0), Min(w.end, t1))
    {
    }
  }

  /** Separated windows share no instant, so their overlaps add up to the number of covered instants. */
  lemma {:induction false} CoveredIsCount(windows: seq<Interval>, t0: int, t1: int)
    requires Separated(windows)
    ensures CoveredMs(windows, t0, t1) == |CoveredInstants(windows, t0, t1)|
  {
    if windows == [] {
      assert CoveredInstants(windows, t0, t1) == {};
    } else {
      var n := |windows| - 1;
      assert windows == windows[..n] + [windows[n]];
      CoveredIsCount(windows[..n], t0, t1);
      NextWindowIsNew(windows[..n], windows[n], t0, t1);
      hide CoveredInstants;
    }
  }

  /** Fraction of `[t0, t1)` inside `windows`, clamped to one. */
  function CoverageFraction(windows: seq<Interval>, t0: int, t1: int): real {
    if t1 <= t0 then 0.0
    else MinR(MaxR(CoveredMs(windows, t0, t1) as real / (t1 - t0) as real, 0.0), 1.0)
  }

  /** Over separated windows the fraction counts covered milliseconds exactly; the clamp changes nothing. */
  lemma CoverageIsExact(windows: seq<Interval>, t0: int, t1: int)
    requires Separated(windows) && t0 < t1
    ensures CoverageFraction(windows, t0, t1) == |CoveredInstants(windows, t0, t1)| as real / (t1 - t0) as real
  {
    CoveredIsCount(windows, t0, t1);
    CoveredAtMost(windows, t0, t1);
    RatioInUnit(CoveredMs(windows, t0, t1), t1 - t0);
    hide CoveredMs, CoveredInstants, Separated;
  }

  lemma RatioInUnit(part: nat, whole: nat)
    requires part <= whole && 0 < whole
    ensures 0.0 <= part as real / whole as real <= 1.0
  {
    var q, w := part as real / whole as real, whole as real;
    assert q * w == part as real;
    Compares(q, 1.0, w);
    Compares(0.0, q, w);
  }

  lemma Compares(a: real, b: real, w: real)
    requires 0.0 < w && a * w <= b * w
    ensures a <= b
  {
    Difference(a, b, w);
    Signs(a - b, w);
  }

  lemma Difference(a: real, b: real, w: real)
    ensures (a - b) * w == a * w - b * w
  {
  }

  lemma Signs(x: real, w: real)
    requires 0.0 < w
    ensures 0.0 < x ==> 0.0 < x * w
  {
  }

  lemma CoveredAtMost(windows: seq<Interval>, t0: int, t1: int)
    requires t0 < t1
    ensures |CoveredInstants(windows, t0, t1)| <= t1 - t0
  {
    assert CoveredInstants(windows, t0, t1) <= Instants(t0, t1);
    hide Covers, CoveredInstants;
    SubsetSize(CoveredInstants(windows, t0, t1), Instants(t0, t1));
  }

  lemma {:induction false} SubsetSize(a: set<int>, b: set<int>)
    requires a <= b
    ensures |a| <= |b|
  {
    assert b == a + (b - a);
  }

  // ---- impact records -----------------------------------------------------------------------------

  datatype Unit = SessionUnit | ToolCallUnit(spanId: SpanId) | TaskUnit(taskId: string)

  datatype Breakdown = Breakdown(attributed: real, baselineIdle: real, orphaned: real, total: real)

  /** The local half of one record: no joules at all when nothing measured the machine. */
  datatype ImpactJoin = ImpactJoin(unit: Unit, joules: Option<real>, coverage: real, breakdown: Option<Breakdown>)

  function MinStart(spans: seq<Span>): int
    requires spans != []
  {
    var n := |spans| - 1;
    if n == 0 then spans[n].tStart else Min(MinStart(spans[..n]), spans[n].tStart)
  }

  function MaxEnd(spans: seq<Span>): int
    requires spans != []
  {
    var n := |spans| - 1;
    if n == 0 then spans[n].tEnd else Max(MaxEnd(spans[..n]), spans[n].tEnd)
  }

  function ById(id: SpanId): Span -> bool { (s: Span) => s.spanId == id }

  function ByTask(task: string): Span -> bool { (s: Span) => s.taskId == Some(task) }

  /** What every record of one session shares. */
  datatype JoinCtx = JoinCtx(sessionId: string, a: Apportionment, coverage: seq<Interval>,
                             measured: bool, tree: SessionTree,
                             tStart: Option<int>, tEnd: Option<int>)
  {
    function Spans(): seq<Span> { Attributable(tree.spans) }

    /** Joules over the distinct ids of `ids`. */
    ghost function JoulesOf(ids: set<SpanId>): real { MapSum(Only(a.perSpanJ, ids)) }

    ghost function Attributed(): real { JoulesOf(IdsOf(Spans())) }

    ghost function SessionJ(): real { Attributed() + a.orphanedJ + a.baselineIdleJ }

    ghost function GroupJoin(unit: Unit, spans: seq<Span>): ImpactJoin
      requires spans != []
    {
      if measured
      then ImpactJoin(unit, Some(JoulesOf(IdsOf(spans))),
                      CoverageFraction(coverage, MinStart(spans), MaxEnd(spans)), None)
      else ImpactJoin(unit, None, 0.0, None)
    }

    ghost function SessionJoin(): ImpactJoin {
      if measured then
        ImpactJoin(SessionUnit, Some(SessionJ()),
          if tStart.Some? && tEnd.Some? then CoverageFraction(coverage, tStart.value, tEnd.value) else 0.0,
          Some(Breakdown(Attributed(), a.baselineIdleJ, a.orphanedJ, SessionJ())))
      else ImpactJoin(SessionUnit, None, 0.0, None)
    }

    /** The record of one unit. */
    ghost predicate IsJoin(j: ImpactJoin) {
      match j.unit
      case SessionUnit => j == SessionJoin()
      case ToolCallUnit(id) => Filter(Spans(), ById(id)) != [] && j == GroupJoin(j.unit, Filter(Spans(), ById(id)))
      case TaskUnit(task) =>
        Filter(Spans(), ByTask(task)) != [] && j == GroupJoin(j.unit, Filter(Spans(), ByTask(task)))
    }
  }

  function TaskIds(spans: seq<Span>): set<string> {
    set i | 0 <= i < |spans| && spans[i].taskId.Some? :: spans[i].taskId.value
  }

  /** Adds up the joules of a set of distinct ids. */
  method SumIds(m: map<SpanId, real>, ids: set<SpanId>) returns (j: real)
    ensures j == MapSum(Only(m, ids))
  {
    j := 0.0;
    var left, done: set<SpanId> := ids, {};
    assert Only(m, done) == map[];
    while left != {}
      invariant left !! done && left + done == ids
      invariant j == MapSum(Only(m, done))
      decreases left
    {
      var id :| id in left;
      OneMoreId(m, done, id);
      j := j + At(m, id);
      left, done := left - {id}, done + {id};
    }
    assert done == ids;
  }

  lemma OneMoreId(m: map<SpanId, real>, done: set<SpanId>, id: SpanId)
    requires id !in done
    ensures MapSum(Only(m, done + {id})) == MapSum(Only(m, done)) + At(m, id)
  {
    if id in m {
      OnlyAdds(m, done, id);
      MapSumUpdate(Only(m, done), id, m[id]);
    } else {
      assert Only(m, done + {id}) == Only(m, done);
    }
  }

  method SpanGroupJoin(ctx: JoinCtx, unit: Unit, spans: seq<Span>) returns (j: ImpactJoin)
    requires spans != []
    ensures j == ctx.GroupJoin(unit, spans)
  {
    if !ctx.measured {
      return ImpactJoin(unit, None, 0.0, None);
    }
    var t0, t1 := spans[0].tStart, spans[0].tEnd;
    assert spans[..1] == [spans[0]];
    for i := 1 to |spans|
      invariant t0 == MinStart(spans[..i]) && t1 == MaxEnd(spans[..i])
    {
      Prefix(spans, i);
      t0, t1 := Min(t0, spans[i].tStart), Max(t1, spans[i].tEnd);
    }
    assert spans[..|spans|] == spans;
    var joules := SumIds(ctx.a.perSpanJ, IdsOf(spans));
    j := ImpactJoin(unit, Some(joules), CoverageFraction(ctx.coverage, t0, t1), None);
  }

  method SessionRecord(ctx: JoinCtx) returns (j: ImpactJoin)
    ensures j == ctx.SessionJoin()
  {
    var attributed := SumIds(ctx.a.perSpanJ, IdsOf(ctx.Spans()));
    var sessionJ := attributed + ctx.a.orphanedJ + ctx.a.baselineIdleJ;
    if !ctx.measured {
      j := ImpactJoin(SessionUnit, None, 0.0, None);
    } else {
      var coverage := if ctx.tStart.Some? && ctx.tEnd.Some?
                      then CoverageFraction(ctx.coverage, ctx.tStart.value, ctx.tEnd.value) else 0.0;
      j := ImpactJoin(SessionUnit, Some(sessionJ), coverage,
                      Some(Breakdown(attributed, ctx.a.baselineIdleJ, ctx.a.orphanedJ, sessionJ)));
    }
  }

  ghost function UnitsOf(joins: seq<ImpactJoin>): set<Unit> { set i | 0 <= i < |joins| :: joins[i].unit }

  lemma OneMoreUnit(joins: seq<ImpactJoin>, j: ImpactJoin)
    ensures UnitsOf(joins + [j]) == UnitsOf(joins) + {j.unit}
  {
    assert (joins + [j])[|joins|] == j;
    forall u | u in UnitsOf(joins) ensures u in UnitsOf(joins + [j]) {
      var i :| 0 <= i < |joins| && joins[i].unit == u;
      assert (joins + [j])[i] == joins[i];
    }
  }

  ghost function ToolCallJ(): ImpactJoin -> real {
    (j: ImpactJoin) => if j.unit.ToolCallUnit? && j.joules.Some? then j.joules.value else 0.0
  }

  lemma GroupOfId(spans: seq<Span>, id: SpanId)
    requires id in IdsOf(spans)
    ensures Filter(spans, ById(id)) != [] && IdsOf(Filter(spans, ById(id))) == {id}
  {
    var group := Filter(spans, ById(id));
    var i :| 0 <= i < |spans| && spans[i].spanId == id;
    assert spans[i] in group;
    assert group[0] in group;
    forall k | 0 <= k < |group| ensures group[k].spanId == id { assert group[k] in group; }
    assert group[0].spanId in IdsOf(group);
  }

  lemma GroupOfTask(spans: seq<Span>, task: string)
    requires task in TaskIds(spans)
    ensures Filter(spans, ByTask(task)) != []
  {
    var i :| 0 <= i < |spans| && spans[i].taskId == Some(task);
    assert spans[i] in Filter(spans, ByTask(task));
  }

  /** The records so far: each its unit's record, no unit twice. */
  ghost predicate Assembled(ctx: JoinCtx, joins: seq<ImpactJoin>, units: set<Unit>) {
    && (forall i :: 0 <= i < |joins| ==> ctx.IsJoin(joins[i]))
    && UnitsOf(joins) == units
    && |joins| == |units|
  }

  lemma AssembleMore(ctx: JoinCtx, joins: seq<ImpactJoin>, units: set<Unit>, j: ImpactJoin)
    requires Assembled(ctx, joins, units) && ctx.IsJoin(j) && j.unit !in units
    ensures Assembled(ctx, joins + [j], units + {j.unit})
    ensures SumOver(joins + [j], ToolCallJ()) == SumOver(joins, ToolCallJ()) + ToolCallJ()(j)
  {
    hide JoinCtx.IsJoin;
    OneMoreUnit(joins, j);
    SumAppend(joins, j, ToolCallJ());
  }

  ghost function ToolUnits(ids: set<SpanId>): set<Unit> { set id | id in ids :: ToolCallUnit(id) }

  ghost function TaskUnits(tasks: set<string>): set<Unit> { set t | t in tasks :: TaskUnit(t) }

  /**
   One record for the session, one for each attributable span id, one for each task, none twice, in the
   order of their unit keys; and the tool calls' joules add up to the session's attributed share.
   */
  method BuildJoins(ctx: JoinCtx) returns (joins: seq<ImpactJoin>)
    ensures Assembled(ctx, joins, {SessionUnit} + ToolUnits(IdsOf(ctx.Spans())) + TaskUnits(TaskIds(ctx.Spans())))
    ensures InKeyOrder(ctx.sessionId, joins)
    ensures joins[0] == ctx.SessionJoin()
    ensures ctx.measured ==> SumOver(joins, ToolCallJ()) == ctx.Attributed()
  {
    var session := SessionRecord(ctx);
    joins := [session];
    ghost var units := {SessionUnit};
    OneMoreUnit([], session);
    assert UnitsOf(joins) == units by { assert [] + [session] == joins; }
    assert SumOver(joins, ToolCallJ()) == 0.0 by { assert joins[..0] == []; }
    var out;
    out, units := ToolCallRecords(ctx, joins, units);
    out, units := TaskRecords(ctx, out, units);
    SortKeeps(ctx.sessionId, out, ToolCallJ());
    joins := SortByKey(ctx.sessionId, out);
    SortedAssembled(ctx, out, joins, units);
    SessionComesFirst(ctx, joins);
  }

  lemma SortedAssembled(ctx: JoinCtx, joins: seq<ImpactJoin>, sorted: seq<ImpactJoin>, units: set<Unit>)
    requires Assembled(ctx, joins, units) && multiset(sorted) == multiset(joins)
    ensures Assembled(ctx, sorted, units)
  {
    hide JoinCtx.IsJoin;
    assert |sorted| == |multiset(sorted)|;
    forall i | 0 <= i < |sorted| ensures sorted[i] in joins {
      assert sorted[i] in multiset(sorted);
    }
    forall i | 0 <= i < |joins| ensures joins[i] in sorted {
      assert joins[i] in multiset(joins);
    }
  }

  lemma SessionComesFirst(ctx: JoinCtx, joins: seq<ImpactJoin>)
    requires InKeyOrder(ctx.sessionId, joins) && SessionUnit in UnitsOf(joins)
    requires forall i :: 0 <= i < |joins| ==> ctx.IsJoin(joins[i])
    ensures joins != [] && joins[0] == ctx.SessionJoin()
  {
    var k :| 0 <= k < |joins| && joins[k].unit == SessionUnit;
    hide InKeyOrder, KeyOf;
    KeyZero(ctx.sessionId, joins, k);
    if joins[0].unit != SessionUnit {
      SessionBelow(ctx.sessionId, joins[0].unit);
    }
  }

  lemma KeyZero(sessionId: string, joins: seq<ImpactJoin>, k: nat)
    requires InKeyOrder(sessionId, joins) && k < |joins|
    ensures AtMost(KeyOf(sessionId, joins[0].unit), KeyOf(sessionId, joins[k].unit))
  {
    AtMostItself(KeyOf(sessionId, joins[0].unit));
  }

  // ---- unit keys ---------------------------------------------------------------------------------------

  function KeyOf(sessionId: string, unit: Unit): string {
    match unit
    case SessionUnit => "session:" + sessionId
    case ToolCallUnit(id) => "tool_call:" + sessionId + ":" + id
    case TaskUnit(task) => "task:" + sessionId + ":" + task
  }

  /** The order of strings, character by character. */
  predicate AtMost(a: string, b: string) {
    a == "" || (b != "" && (a[0] < b[0] || (a[0] == b[0] && AtMost(a[1..], b[1..]))))
  }

  lemma {:induction false} AtMostItself(a: string)
    ensures AtMost(a, a)
  {
    if a != "" {
      AtMostItself(a[1..]);
    }
  }

  lemma {:induction false} AtMostTotal(a: string, b: string)
    ensures AtMost(a, b) || AtMost(b, a)
  {
    if a != "" && b != "" {
      AtMostTotal(a[1..], b[1..]);
    }
  }

  lemma {:induction false} AtMostChains(a: string, b: string, c: string)
    requires AtMost(a, b) && AtMost(b, c)
    ensures AtMost(a, c)
  {
    if a != "" && a[0] == b[0] && b[0] == c[0] {
      AtMostChains(a[1..], b[1..], c[1..]);
    }
  }

  /** "session:" sorts before "task:" and "tool_call:". */
  lemma SessionBelow(sessionId: string, unit: Unit)
    requires unit != SessionUnit
    ensures !AtMost(KeyOf(sessionId, unit), KeyOf(sessionId, SessionUnit))
  {
    assert KeyOf(sessionId, unit)[0] == 't' && KeyOf(sessionId, SessionUnit)[0] == 's';
  }

  lemma {:induction false} SamePrefix(prefix: string, a: string, b: string)
    ensures AtMost(prefix + a, prefix + b) <==> AtMost(a, b)
  {
    if prefix == "" {
      assert prefix + a == a && prefix + b == b;
    } else {
      SamePrefix(prefix[1..], a, b);
      assert (prefix + a)[1..] == prefix[1..] + a && (prefix + b)[1..] == prefix[1..] + b;
    }
  }

  /** In key order the tasks come before the tool calls, and each of the two is in the order of its ids. */
  lemma KeysSort(sessionId: string, a: string, b: string)
    ensures !AtMost(KeyOf(sessionId, ToolCallUnit(a)), KeyOf(sessionId, TaskUnit(b)))
    ensures AtMost(KeyOf(sessionId, ToolCallUnit(a)), KeyOf(sessionId, ToolCallUnit(b))) <==> AtMost(a, b)
    ensures AtMost(KeyOf(sessionId, TaskUnit(a)), KeyOf(sessionId, TaskUnit(b))) <==> AtMost(a, b)
  {
    var tool, task := KeyOf(sessionId, ToolCallUnit(a)), KeyOf(sessionId, TaskUnit(b));
    assert tool[0] == 't' == task[0] && tool[1..][0] == 'o' && task[1..][0] == 'a';
    SamePrefix("tool_call:" + sessionId + ":", a, b);
    SamePrefix("task:" + sessionId + ":", a, b);
  }

  predicate InKeyOrder(sessionId: string, joins: seq<ImpactJoin>) {
    forall i, j :: 0 <= i < j < |joins| ==> AtMost(KeyOf(sessionId, joins[i].unit), KeyOf(sessionId, joins[j].unit))
  }

  function InsertByKey(sessionId: string, x: ImpactJoin, joins: seq<ImpactJoin>): seq<ImpactJoin> {
    if joins == [] then [x]
    else
      var n := |joins| - 1;
      if AtMost(KeyOf(sessionId, joins[n].unit), KeyOf(sessionId, x.unit)) then joins + [x]
      else InsertByKey(sessionId, x, joins[..n]) + [joins[n]]
  }

  function SortByKey(sessionId: string, joins: seq<ImpactJoin>): seq<ImpactJoin> {
    if joins == [] then [] else InsertByKey(sessionId, joins[|joins| - 1], SortByKey(sessionId, joins[..|joins| - 1]))
  }

  lemma {:induction false} InsertHolds(sessionId: string, x: ImpactJoin, joins: seq<ImpactJoin>, f: ImpactJoin -> real)
    ensures var r := InsertByKey(sessionId, x, joins);
            multiset(r) == multiset(joins) + multiset{x} && SumOver(r, f) == SumOver(joins, f) + f(x)
  {
    hide AtMost, KeyOf;
    SumAppend(joins, x, f);
    if joins != [] {
      var n := |joins| - 1;
      assert joins == joins[..n] + [joins[n]];
      InsertHolds(sessionId, x, joins[..n], f);
      SumAppend(joins[..n], joins[n], f);
      SumAppend(InsertByKey(sessionId, x, joins[..n]), joins[n], f);
      hide SumOver;
    }
  }

  ghost predicate Below(sessionId: string, joins: seq<ImpactJoin>, key: string) {
    forall i :: 0 <= i < |joins| ==> AtMost(KeyOf(sessionId, joins[i].unit), key)
  }

  lemma InsertBelow(sessionId: string, x: ImpactJoin, joins: seq<ImpactJoin>, key: string)
    requires Below(sessionId, joins, key) && AtMost(KeyOf(sessionId, x.unit), key)
    ensures Below(sessionId, InsertByKey(sessionId, x, joins), key)
  {
    hide AtMost, KeyOf;
    var r := InsertByKey(sessionId, x, joins);
    InsertHolds(sessionId, x, joins, (j: ImpactJoin) => 0.0);
    hide InsertByKey;
    forall i | 0 <= i < |r| ensures AtMost(KeyOf(sessionId, r[i].unit), key) {
      assert r[i] in multiset(r);
      assert r[i] == x || r[i] in joins;
    }
  }

  lemma {:induction false} InsertOrders(sessionId: string, x: ImpactJoin, joins: seq<ImpactJoin>)
    requires InKeyOrder(sessionId, joins)
    ensures InKeyOrder(sessionId, InsertByKey(sessionId, x, joins))
  {
    hide AtMost, KeyOf;
    if joins != [] {
      var n := |joins| - 1;
      var last, key := KeyOf(sessionId, joins[n].unit), KeyOf(sessionId, x.unit);
      if AtMost(last, key) {
        forall i | 0 <= i < n ensures AtMost(KeyOf(sessionId, joins[i].unit), key) {
          AtMostChains(KeyOf(sessionId, joins[i].unit), last, key);
        }
      } else {
        InsertOrders(sessionId, x, joins[..n]);
        AtMostTotal(last, key);
        InsertBelow(sessionId, x, joins[..n], last);
      }
    }
  }

  /** Sorting by key neither loses nor repeats a record, and keeps every total. */
  lemma {:induction false} SortKeeps(sessionId: string, joins: seq<ImpactJoin>, f: ImpactJoin -> real)
    ensures var r := SortByKey(sessionId, joins);
            InKeyOrder(sessionId, r) && multiset(r) == multiset(joins) && SumOver(r, f) == SumOver(joins, f)
  {
    if joins != [] {
      var n := |joins| - 1;
      assert joins == joins[..n] + [joins[n]];
      SortKeeps(sessionId, joins[..n], f);
      InsertHolds(sessionId, joins[n], SortByKey(sessionId, joins[..n]), f);
      InsertOrders(sessionId, joins[n], SortByKey(sessionId, joins[..n]));
      hide InsertByKey;
    }
  }

  method ToolCallRecords(ctx: JoinCtx, before: seq<ImpactJoin>, ghost units: set<Unit>)
    returns (joins: seq<ImpactJoin>, ghost all: set<Unit>)
    requires Assembled(ctx, before, units) && units == {SessionUnit} && SumOver(before, ToolCallJ()) == 0.0
    ensures all == units + ToolUnits(IdsOf(ctx.Spans())) && Assembled(ctx, joins, all) && before <= joins
    ensures ctx.measured ==> SumOver(joins, ToolCallJ()) == ctx.Attributed()
  {
    hide Assembled, JoinCtx.IsJoin, IdsOf, MapSum, SumOver;
    joins := before;
    var left, done: set<SpanId> := IdsOf(ctx.Spans()), {};
    all := units;
    assert Only(ctx.a.perSpanJ, done) == map[];
    EmptySum<SpanId>();
    while left != {}
      invariant left !! done && left + done == IdsOf(ctx.Spans())
      invariant all == units + ToolUnits(done) && Assembled(ctx, joins, all) && before <= joins
      invariant ctx.measured ==> SumOver(joins, ToolCallJ()) == ctx.JoulesOf(done)
      decreases left
    {
      var id :| id in left;
      GroupOfId(ctx.Spans(), id);
      var j := SpanGroupJoin(ctx, ToolCallUnit(id), Filter(ctx.Spans(), ById(id)));
      assert ctx.IsJoin(j) by { ToolCallIsJoin(ctx, j, id); }
      AssembleMore(ctx, joins, all, j);
      OneMoreId(ctx.a.perSpanJ, done, id);
      OneId(ctx.a.perSpanJ, id);
      assert ToolUnits(done + {id}) == ToolUnits(done) + {ToolCallUnit(id)};
      joins, all := joins + [j], all + {j.unit};
      left, done := left - {id}, done + {id};
    }
    assert done == IdsOf(ctx.Spans());
  }

  lemma EmptySum<K>()
    ensures MapSum<K>(map[]) == 0.0
  {
  }

  lemma ToolCallIsJoin(ctx: JoinCtx, j: ImpactJoin, id: SpanId)
    requires Filter(ctx.Spans(), ById(id)) != []
    requires j == ctx.GroupJoin(ToolCallUnit(id), Filter(ctx.Spans(), ById(id)))
    ensures ctx.IsJoin(j)
  {
  }

  lemma OneId(m: map<SpanId, real>, id: SpanId)
    ensures MapSum(Only(m, {id})) == At(m, id)
  {
    OneMoreId(m, {}, id);
    assert {} + {id} == {id} && Only(m, {}) == map[];
  }

  method TaskRecords(ctx: JoinCtx, before: seq<ImpactJoin>, ghost units: set<Unit>)
    returns (joins: seq<ImpactJoin>, ghost all: set<Unit>)
    requires Assembled(ctx, before, units) && units == {SessionUnit} + ToolUnits(IdsOf(ctx.Spans()))
    ensures all == units + TaskUnits(TaskIds(ctx.Spans())) && Assembled(ctx, joins, all) && before <= joins
    ensures SumOver(joins, ToolCallJ()) == SumOver(before, ToolCallJ())
  {
    hide Assembled, JoinCtx.IsJoin, IdsOf, TaskIds, MapSum, SumOver;
    joins := before;
    var left, done: set<string> := TaskIds(ctx.Spans()), {};
    all := units;
    while left != {}
      invariant left !! done && left + done == TaskIds(ctx.Spans())
      invariant all == units + TaskUnits(done) && Assembled(ctx, joins, all) && before <= joins
      invariant SumOver(joins, ToolCallJ()) == SumOver(before, ToolCallJ())
      decreases left
    {
      var task :| task in left;
      GroupOfTask(ctx.Spans(), task);
      var j := SpanGroupJoin(ctx, TaskUnit(task), Filter(ctx.Spans(), ByTask(task)));
      assert ctx.IsJoin(j) by { TaskIsJoin(ctx, j, task); }
      AssembleMore(ctx, joins, all, j);
      assert TaskUnits(done + {task}) == TaskUnits(done) + {TaskUnit(task)};
      joins, all := joins + [j], all + {j.unit};
      left, done := left - {task}, done + {task};
    }
    assert done == TaskIds(ctx.Spans());
  }

  lemma TaskIsJoin(ctx: JoinCtx, j: ImpactJoin, task: string)
    requires Filter(ctx.Spans(), ByTask(task)) != []
    requires j == ctx.GroupJoin(TaskUnit(task), Filter(ctx.Spans(), ByTask(task)))
    ensures ctx.IsJoin(j)
  {
  }

  // ---- from events to records -------------------------------------------------------------------------

  ghost function EnergySamples(events: seq<Event>): seq<EnergySample> {
    if events == [] then []
    else
      var e := events[|events| - 1];
      EnergySamples(events[..|events| - 1]) + if e.Energy? then [e.energy] else []
  }

  ghost function ProcessSamples(events: seq<Event>): seq<ProcessSample> {
    if events == [] then []
    else
      var e := events[|events| - 1];
      ProcessSamples(events[..|events| - 1]) + if e.Process? then [e.process] else []
  }

  /** The samples are those the events carry. */
  lemma {:induction false} SamplesShow(events: seq<Event>, s: EnergySample, p: ProcessSample)
    ensures s in EnergySamples(events) <==> Energy(s) in events
    ensures p in ProcessSamples(events) <==> Process(p) in events
  {
    if events != [] {
      var n := |events| - 1;
      SamplesShow(events[..n], s, p);
      assert events == events[..n] + [events[n]];
    }
  }

  /** Spans keep the order of their events; so do the samples. */
  lemma {:induction false} SpansInOrder(first: seq<Event>, later: seq<Event>)
    ensures SpansOf(first + later) == SpansOf(first) + SpansOf(later)
  {
    if later == [] {
      assert first + later == first;
    } else {
      var n := |later| - 1;
      SpansInOrder(first, later[..n]);
      assert (first + later)[..|first| + n] == first + later[..n] && (first + later)[|first| + n] == later[n];
    }
  }

  lemma {:induction false} EnergyInOrder(first: seq<Event>, later: seq<Event>)
    ensures EnergySamples(first + later) == EnergySamples(first) + EnergySamples(later)
  {
    if later == [] {
      assert first + later == first;
    } else {
      var n := |later| - 1;
      EnergyInOrder(first, later[..n]);
      assert (first + later)[..|first| + n] == first + later[..n] && (first + later)[|first| + n] == later[n];
    }
  }

  lemma {:induction false} ProcessesInOrder(first: seq<Event>, later: seq<Event>)
    ensures ProcessSamples(first + later) == ProcessSamples(first) + ProcessSamples(later)
  {
    if later == [] {
      assert first + later == first;
    } else {
      var n := |later| - 1;
      ProcessesInOrder(first, later[..n]);
      assert (first + later)[..|first| + n] == first + later[..n] && (first + later)[|first| + n] == later[n];
    }
  }

  method SplitEvents(events: seq<Event>) returns (samples: seq<EnergySample>, procs: seq<ProcessSample>)
    ensures samples == EnergySamples(events) && procs == ProcessSamples(events)
  {
    samples, procs := [], [];
    for i := 0 to |events|
      invariant samples == EnergySamples(events[..i]) && procs == ProcessSamples(events[..i])
    {
      Prefix(events, i);
      match events[i]
      case Energy(s) => samples := samples + [s];
      case Process(p) => procs := procs + [p];
      case _ =>
    }
    assert events[..|events|] == events;
  }

  /** What the samples that parsed reported in all. */
  ghost function MeasuredJ(samples: seq<EnergySample>): real {
    SumOver(samples, (s: EnergySample) => if s.Parsed() then SampleEnergy(s) else 0.0)
  }

  predicate Measured(samples: seq<EnergySample>) { exists i :: 0 <= i < |samples| && samples[i].Parsed() }

  /** Some sample's bounds parsed. */
  ghost predicate SomeParsed(samples: seq<EnergySample>) {
    exists s :: s in samples && s.tStart.Some? && s.tEnd.Some?
  }

  lemma MeasuredIff(samples: seq<EnergySample>)
    ensures Measured(samples) <==> SomeParsed(samples)
  {
    if s :| s in samples && s.tStart.Some? && s.tEnd.Some? {
      var i :| 0 <= i < |samples| && samples[i] == s;
      assert samples[i].Parsed();
    }
  }

  /** Every paid id is attributable, so the session unit is charged exactly what was measured. */
  lemma SessionIsWhole(ctx: JoinCtx, session: Session, samples: seq<EnergySample>, skippedProcs: nat)
    requires session.Valid() && session.tree == ctx.tree && Accounts(ctx.a, session, samples, skippedProcs)
    ensures ctx.SessionJ() == MeasuredJ(samples)
  {
    OnlyAll(ctx.a.perSpanJ, IdsOf(ctx.Spans()));
    AttributionLaws.SumsAgree(samples, session.EnteringOf(),
                              (s: EnergySample) => if s.Parsed() then SampleEnergy(s) else 0.0);
  }

  /** The ids carried by remote or zero-length spans alone. */
  ghost predicate Unpayable(spans: seq<Span>, id: SpanId) {
    forall span :: span in spans && span.spanId == id ==> span.locus == Remote || span.tEnd <= span.tStart
  }

  lemma UnpayableHasNoUnit(spans: seq<Span>, id: SpanId)
    requires Unpayable(spans, id)
    ensures id !in IdsOf(Attributable(spans))
  {
    var all := Attributable(spans);
    forall i | 0 <= i < |all| ensures all[i].spanId != id {
      assert all[i] in spans && all[i].IsAttributable();
    }
  }

  /** The milliseconds of `[t0, t1)` some sample covers. */
  ghost function SampledInstants(samples: seq<EnergySample>, t0: int, t1: int): set<int> {
    set t | t0 <= t < t1 && Sampled(samples, t)
  }

  /** The part of `[t0, t1)` some sample covers; nothing of an interval without a length. */
  ghost function CoverageOf(samples: seq<EnergySample>, t0: int, t1: int): real {
    if t1 <= t0 then 0.0 else |SampledInstants(samples, t0, t1)| as real / (t1 - t0) as real
  }

  lemma CoverageIsOf(windows: seq<Interval>, samples: seq<EnergySample>, t0: int, t1: int)
    requires Separated(windows) && forall t :: Covers(windows, t) <==> Sampled(samples, t)
    ensures CoverageFraction(windows, t0, t1) == CoverageOf(samples, t0, t1)
  {
    if t0 < t1 {
      CoverageIsExact(windows, t0, t1);
      assert CoveredInstants(windows, t0, t1) == SampledInstants(samples, t0, t1);
      hide CoverageFraction;
    }
  }

  /** The record of one unit, told from the samples, the spans and what the spans were paid. */
  ghost predicate RecordOf(j: ImpactJoin, a: Apportionment, samples: seq<EnergySample>, spans: seq<Span>,
                           tStart: Option<int>, tEnd: Option<int>) {
    if !SomeParsed(samples) then j.joules == None && j.coverage == 0.0 && j.breakdown == None
    else
      match j.unit
      case SessionUnit =>
        && j.joules == Some(MeasuredJ(samples))
        && j.coverage == (if tStart.Some? && tEnd.Some? then CoverageOf(samples, tStart.value, tEnd.value) else 0.0)
        && j.breakdown.Some? && j.breakdown.value.total == MeasuredJ(samples)
        && j.breakdown.value.orphaned == a.orphanedJ && j.breakdown.value.baselineIdle == a.baselineIdleJ
        && j.breakdown.value.attributed == MapSum(Only(a.perSpanJ, MemberIds(spans, SessionUnit)))
      case _ => GroupRecord(j, a, samples, spans)
  }

  /** The spans of a unit: local, with a duration, and under its id or task if it has one. */
  predicate Member(span: Span, unit: Unit) {
    && span.locus != Remote && span.tStart < span.tEnd
    && match unit
       case SessionUnit => true
       case ToolCallUnit(id) => span.spanId == id
       case TaskUnit(task) => span.taskId == Some(task)
  }

  ghost function MemberIds(spans: seq<Span>, unit: Unit): set<SpanId> {
    set span | span in spans && Member(span, unit) :: span.spanId
  }

  /** From the unit's earliest start to its latest end. */
  ghost predicate Extent(spans: seq<Span>, unit: Unit, lo: int, hi: int) {
    && (forall span :: span in spans && Member(span, unit) ==> lo <= span.tStart && span.tEnd <= hi)
    && (exists span :: span in spans && Member(span, unit) && span.tStart == lo)
    && (exists span :: span in spans && Member(span, unit) && span.tEnd == hi)
  }

  /** The record of a tool call or a task: what its distinct ids were paid, and the coverage of its extent. */
  ghost predicate GroupRecord(j: ImpactJoin, a: Apportionment, samples: seq<EnergySample>, spans: seq<Span>) {
    && j.joules == Some(MapSum(Only(a.perSpanJ, MemberIds(spans, j.unit)))) && j.breakdown == None
    && exists lo, hi :: Extent(spans, j.unit, lo, hi) && j.coverage == CoverageOf(samples, lo, hi)
  }

  lemma {:induction false} ExtremesAre(spans: seq<Span>)
    requires spans != []
    ensures forall s :: s in spans ==> MinStart(spans) <= s.tStart && s.tEnd <= MaxEnd(spans)
    ensures (exists s :: s in spans && s.tStart == MinStart(spans)) && exists s :: s in spans && s.tEnd == MaxEnd(spans)
  {
    var n := |spans| - 1;
    assert spans == spans[..n] + [spans[n]];
    if n > 0 {
      ExtremesAre(spans[..n]);
      var first :| first in spans[..n] && first.tStart == MinStart(spans[..n]);
      var last :| last in spans[..n] && last.tEnd == MaxEnd(spans[..n]);
      assert first in spans && last in spans && spans[n] in spans;
    }
  }

  /** The group a unit's record is built from is its members. */
  lemma GroupIs(spans: seq<Span>, unit: Unit, keep: Span -> bool)
    requires forall s: Span :: s.IsAttributable() && keep(s) <==> Member(s, unit)
    ensures var group := Filter(Attributable(spans), keep);
            && IdsOf(group) == MemberIds(spans, unit)
            && (group != [] ==> Extent(spans, unit, MinStart(group), MaxEnd(group)))
  {
    var group := Filter(Attributable(spans), keep);
    assert forall s :: s in group <==> s in spans && Member(s, unit);
    hide Filter, Attributable, Member;
    IdsAre(group, spans, unit);
    if group != [] {
      ExtremesAre(group);
    }
  }

  lemma IdsAre(group: seq<Span>, spans: seq<Span>, unit: Unit)
    requires forall s :: s in group <==> s in spans && Member(s, unit)
    ensures IdsOf(group) == MemberIds(spans, unit)
  {
    hide Member;
    forall id | id in MemberIds(spans, unit) ensures id in IdsOf(group) {
      var s :| s in spans && Member(s, unit) && s.spanId == id;
      var i :| 0 <= i < |group| && group[i] == s;
    }
    forall id | id in IdsOf(group) ensures id in MemberIds(spans, unit) {
      var i :| 0 <= i < |group| && group[i].spanId == id;
      assert group[i] in group;
    }
  }

  lemma JoinIsRecord(ctx: JoinCtx, j: ImpactJoin, samples: seq<EnergySample>)
    requires ctx.IsJoin(j) && ctx.measured == Measured(samples) && ctx.SessionJ() == MeasuredJ(samples)
    requires Separated(ctx.coverage) && forall t :: Covers(ctx.coverage, t) <==> Sampled(samples, t)
    ensures RecordOf(j, ctx.a, samples, ctx.tree.spans, ctx.tStart, ctx.tEnd)
  {
    hide CoverageFraction, CoverageOf, Separated, Covers, Sampled, Measured, MeasuredJ, Attributable, IdsOf, MapSum,
         MemberIds, Extent, Filter;
    MeasuredIff(samples);
    hide SomeParsed;
    forall t0: int, t1: int ensures CoverageFraction(ctx.coverage, t0, t1) == CoverageOf(samples, t0, t1) {
      CoverageIsOf(ctx.coverage, samples, t0, t1);
    }
    match j.unit
    case SessionUnit => AllMembers(ctx.tree.spans);
    case ToolCallUnit(id) => GroupIs(ctx.tree.spans, j.unit, ById(id));
    case TaskUnit(task) => GroupIs(ctx.tree.spans, j.unit, ByTask(task));
  }

  lemma AllMembers(spans: seq<Span>)
    ensures IdsOf(Attributable(spans)) == MemberIds(spans, SessionUnit)
  {
    assert forall s :: s in Attributable(spans) <==> s in spans && Member(s, SessionUnit);
    hide Attributable;
    IdsAre(Attributable(spans), spans, SessionUnit);
  }

  /** The session, each id and each task that some local span with a duration carries. */
  ghost function AllUnits(spans: seq<Span>): set<Unit> {
    {SessionUnit} + (set span | span in spans && Member(span, SessionUnit) :: ToolCallUnit(span.spanId))
    + (set span | span in spans && Member(span, SessionUnit) && span.taskId.Some? :: TaskUnit(span.taskId.value))
  }

  lemma UnitsAre(spans: seq<Span>)
    ensures var all := Attributable(spans);
            AllUnits(spans) == {SessionUnit} + ToolUnits(IdsOf(all)) + TaskUnits(TaskIds(all))
  {
    var all := Attributable(spans);
    AllMembers(spans);
    assert forall s :: s in all <==> s in spans && Member(s, SessionUnit);
    hide Attributable, Member, IdsOf;
    forall t ensures t in TaskIds(all) <==> exists s :: s in spans && Member(s, SessionUnit) && s.taskId == Some(t) {
      if t in TaskIds(all) {
        var i :| 0 <= i < |all| && all[i].taskId == Some(t);
        assert all[i] in all;
      }
      if s :| s in spans && Member(s, SessionUnit) && s.taskId == Some(t) {
        var i :| 0 <= i < |all| && all[i] == s;
      }
    }
    hide TaskIds;
  }

  /** What the records of a session say about the energy its samples measured. */
  ghost predicate Derives(joins: seq<ImpactJoin>, a: Apportionment, samples: seq<EnergySample>, spans: seq<Span>,
                          tStart: Option<int>, tEnd: Option<int>) {
    && joins != [] && joins[0].unit == SessionUnit
    && UnitsOf(joins) == AllUnits(spans) && |joins| == |AllUnits(spans)|
    && (forall i :: 0 <= i < |joins| ==> RecordOf(joins[i], a, samples, spans, tStart, tEnd))
    && (SomeParsed(samples) ==>
          joins[0].breakdown.Some? && SumOver(joins, ToolCallJ()) == joins[0].breakdown.value.attributed)
    && (forall id :: Unpayable(spans, id) ==> At(a.perSpanJ, id) == 0.0 && ToolCallUnit(id) !in UnitsOf(joins))
  }

  lemma RecordsDerive(ctx: JoinCtx, joins: seq<ImpactJoin>, session: Session, samples: seq<EnergySample>,
                      skippedProcs: nat)
    requires session.Valid() && session.tree == ctx.tree && ctx.measured == Measured(samples)
    requires Separated(ctx.coverage) && forall t :: Covers(ctx.coverage, t) <==> Sampled(samples, t)
    requires Accounts(ctx.a, session, samples, skippedProcs)
    requires Assembled(ctx, joins, AllUnits(ctx.tree.spans))
    requires joins != [] && joins[0] == ctx.SessionJoin()
    requires ctx.measured ==> SumOver(joins, ToolCallJ()) == ctx.Attributed()
    ensures Derives(joins, ctx.a, samples, ctx.tree.spans, ctx.tStart, ctx.tEnd)
  {
    hide Accounts, IdsOf, Attributable, SumOver, MapSum, Measured, TaskIds, At, ToolUnits, TaskUnits, UnitsOf, AllUnits,
         Separated, Covers, Sampled, JoinCtx.IsJoin, RecordOf, Unpayable;
    SessionIsWhole(ctx, session, samples, skippedProcs);
    MeasuredIff(samples);
    hide SomeParsed;
    forall i | 0 <= i < |joins| ensures RecordOf(joins[i], ctx.a, samples, ctx.tree.spans, ctx.tStart, ctx.tEnd) {
      JoinIsRecord(ctx, joins[i], samples);
    }
    forall id | Unpayable(ctx.tree.spans, id)
      ensures At(ctx.a.perSpanJ, id) == 0.0 && ToolCallUnit(id) !in UnitsOf(joins)
    {
      UnpayableUnpaid(ctx, joins, session, samples, skippedProcs, id);
    }
  }

  lemma UnpayableUnpaid(ctx: JoinCtx, joins: seq<ImpactJoin>, session: Session, samples: seq<EnergySample>,
                        skippedProcs: nat, id: SpanId)
    requires session.Valid() && session.tree == ctx.tree && Accounts(ctx.a, session, samples, skippedProcs)
    requires UnitsOf(joins) == AllUnits(ctx.tree.spans) && Unpayable(ctx.tree.spans, id)
    ensures At(ctx.a.perSpanJ, id) == 0.0 && ToolCallUnit(id) !in UnitsOf(joins)
  {
    AttributionLaws.NeverPaid(ctx.a, session, samples, skippedProcs, id);
    hide Accounts, UnitsOf;
  }

  /**
   The whole derivation of one session. With any parsed sample the session record carries exactly the
   energy measured, each tool call and task what its span ids were paid, the tool calls together the
   attributed part, and every record the exact coverage of its extent; without one, no record carries any.
   */
  method DeriveSession(sessionId: string, events: seq<Event>, tStart: Option<int>, tEnd: Option<int>)
    returns (joins: seq<ImpactJoin>, a: Apportionment)
    ensures Derives(joins, a, EnergySamples(events), SpansOf(events), tStart, tEnd) && InKeyOrder(sessionId, joins)
  {
    hide Accounts, Assembled, Derives, Separated, Covers, Sampled, InKeyOrder;
    var samples, procs := SplitEvents(events);
    var tree := Correlate(events);
    var traces;
    a, traces := Run(samples, procs, tree);
    var merged := EnergyCoverageWindows(samples);
    var ctx := JoinCtx(sessionId, a, merged, Measured(samples), tree, tStart, tEnd);
    joins := BuildJoins(ctx);
    UnitsAre(tree.spans);
    RecordsDerive(ctx, joins, SessionOf(procs, tree), samples, Skipped(procs));
  }
}
