/**
 Apportions machine energy samples over the spans of one session: cpu-time weights where process
 data covers a sample's window, wall-clock slices where none does, everything else to baseline.

 Joules, cpu milliseconds and fractions are `real`; timestamps are whole milliseconds, already parsed
 (`None` stands for a timestamp that did not parse).
 */
module Attribution {
  import opened Prelude

  type SpanId = string

  const BOOTSTRAP_TOOL_NAME := "__session__"

  datatype Locus = Local | Remote | Hybrid | Unknown

  datatype Span = Span(spanId: SpanId, toolName: string, locus: Locus, tStart: int, tEnd: int,
                       pids: seq<int>, taskId: Option<string>)
  {
    predicate IsAttributable() { tEnd > tStart && locus != Remote }

    predicate Overlaps(t0: int, t1: int) { tStart < t1 && tEnd > t0 }

    /** A local span with no duration: observed, but nothing can pay it. */
    predicate IsDegenerate() { locus != Remote && tEnd <= tStart && toolName != BOOTSTRAP_TOOL_NAME }
  }

  datatype SessionTree = SessionTree(spans: seq<Span>, rootPids: seq<int>, skippedEvents: nat)

  datatype EnergyKind = Cpu | Dram | Gpu | OtherKind | Total

  datatype Component = Component(kind: EnergyKind, energyJ: real)

  datatype EnergySample = EnergySample(tStart: Option<int>, tEnd: Option<int>, components: seq<Component>)
  {
    predicate Parsed() { tStart.Some? && tEnd.Some? }
  }

  datatype ProcessDelta = ProcessDelta(pid: int, cpuMs: nat, orphanTagged: bool)

  datatype ProcessSample = ProcessSample(tStart: Option<int>, tEnd: Option<int>, processes: seq<ProcessDelta>)
  {
    predicate Usable() { tStart.Some? && tEnd.Some? && tStart.value < tEnd.value }
  }

  /** A process sample whose bounds parsed and have positive length. */
  datatype Window = Window(tStart: int, tEnd: int, processes: seq<ProcessDelta>)

  datatype Policy = L2CpuTime | L1WallClock

  datatype Apportionment = Apportionment(
    perSpanJ: map<SpanId, real>, baselineIdleJ: real, orphanedJ: real,
    unmeasuredRemoteSpans: nat, degenerateSpans: nat,
    samplesL1: nat, samplesL2: nat, degenerateSamples: nat,
    skippedEvents: nat, unobservedProcessWindows: nat)
  {
    ghost function TotalJ(): real { MapSum(perSpanJ) + orphanedJ + baselineIdleJ }
  }

  const NOTHING_PLACED := Apportionment(map[], 0.0, 0.0, 0, 0, 0, 0, 0, 0, 0)

  datatype AllocRow = AllocRow(spanId: SpanId, overlapMs: real, cpuDeltaMs: real, allocatedJ: real,
                               l1AllocatedJ: real, excluded: bool)

  datatype SampleTrace = SampleTrace(sampleIndex: nat, totalJ: real, denominatorCpuMs: real,
                                     policy: Option<Policy>, rows: seq<AllocRow>, orphanedJ: real,
                                     baselineJ: real, l1ShadowSumShare: real, rootCpuDeltaMs: real)

  // ---- the energy a sample reports ------------------------------------------------------------

  /** Joules of the components of one kind, or of all of them when `only` is `None`. */
  ghost function ComponentSum(cs: seq<Component>, only: Option<EnergyKind>): real {
    if cs == [] then 0.0
    else
      var c := cs[|cs| - 1];
      ComponentSum(cs[..|cs| - 1], only)
      + if only == None || only == Some(c.kind) then c.energyJ else 0.0
  }

  /** The collector's own total when it emitted one, otherwise the sum of the parts. */
  ghost function SampleEnergy(s: EnergySample): real {
    if exists i :: 0 <= i < |s.components| && s.components[i].kind == Total
    then ComponentSum(s.components, Some(Total))
    else ComponentSum(s.components, None)
  }

  method SampleEnergyJ(s: EnergySample) returns (j: real)
    ensures j == SampleEnergy(s)
  {
    var total, sawTotal, sumAll := 0.0, false, 0.0;
    for i := 0 to |s.components|
      invariant total == ComponentSum(s.components[..i], Some(Total))
      invariant sumAll == ComponentSum(s.components[..i], None)
      invariant sawTotal == exists k :: 0 <= k < i && s.components[k].kind == Total
    {
      var component := s.components[i];
      assert s.components[..i + 1][..i] == s.components[..i];
      sumAll := sumAll + component.energyJ;
      if component.kind == Total {
        sawTotal := true;
        total := total + component.energyJ;
      }
    }
    assert s.components[..|s.components|] == s.components;
    return if sawTotal then total else sumAll;
  }

  // ---- overlaps, claims and the per-pid table ---------------------------------------------------

  /** Milliseconds shared by two half-open intervals. */
  function OverlapMs(a0: int, a1: int, b0: int, b1: int): nat {
    Max(Min(a1, b1) - Max(a0, b0), 0)
  }

  predicate ClaimsPid(span: Span, pid: int, rootPids: seq<int>) {
    if span.pids == [] then pid in rootPids else pid in span.pids
  }

  function ClaimantIds(active: seq<Span>, pid: int, rootPids: seq<int>): seq<SpanId> {
    if active == [] then []
    else
      var rest := ClaimantIds(active[1..], pid, rootPids);
      if ClaimsPid(active[0], pid, rootPids) then [active[0].spanId] + rest else rest
  }

  /** What one window says about one pid: the longest delta any row reported, and whether any was orphaned. */
  datatype PidEntry = PidEntry(cpuMs: nat, orphan: bool)

  ghost function PidTable(rows: seq<ProcessDelta>): map<int, PidEntry> {
    if rows == [] then map[]
    else
      var table, row := PidTable(rows[..|rows| - 1]), rows[|rows| - 1];
      table[row.pid := Observe(table, row)]
  }

  function Observe(table: map<int, PidEntry>, row: ProcessDelta): PidEntry {
    if row.pid in table
    then PidEntry(Max(table[row.pid].cpuMs, row.cpuMs), table[row.pid].orphan || row.orphanTagged)
    else PidEntry(row.cpuMs, row.orphanTagged)
  }

  method DeduplicateByPid(rows: seq<ProcessDelta>) returns (table: map<int, PidEntry>)
    ensures table == PidTable(rows)
  {
    table := map[];
    for i := 0 to |rows|
      invariant table == PidTable(rows[..i])
    {
      assert rows[..i + 1][..i] == rows[..i];
      table := table[rows[i].pid := Observe(table, rows[i])];
    }
    assert rows[..|rows|] == rows;
  }

  /** The table's meaning: exactly the pids observed, each with its longest delta and any orphan tag. */
  lemma {:induction false} PidTableMeaning(rows: seq<ProcessDelta>, pid: int)
    ensures pid in PidTable(rows) <==> exists i :: 0 <= i < |rows| && rows[i].pid == pid
    ensures pid in PidTable(rows) ==>
              && (forall i :: 0 <= i < |rows| && rows[i].pid == pid ==> rows[i].cpuMs <= PidTable(rows)[pid].cpuMs)
              && (exists i :: 0 <= i < |rows| && rows[i].pid == pid && rows[i].cpuMs == PidTable(rows)[pid].cpuMs)
              && (PidTable(rows)[pid].orphan <==>
                  exists i :: 0 <= i < |rows| && rows[i].pid == pid && rows[i].orphanTagged)
  {
    if rows != [] {
      var n := |rows| - 1;
      PidTableMeaning(rows[..n], pid);
      assert forall i :: 0 <= i < n ==> rows[..n][i] == rows[i];
      assert rows[n].pid == pid ==> pid in PidTable(rows);
    }
  }

  // ---- cpu-time weights -------------------------------------------------------------------------

  /** The part of a pid's cpu time that falls inside an energy window. */
  function Portion(cpuMs: int, fraction: real): real { cpuMs as real * fraction }

  /** The part of a pid's cpu time inside the energy window, divided between its claimants. */
  function EqualShare(cpuMs: nat, fraction: real, parts: nat): real
    requires parts > 0
  {
    Portion(cpuMs, fraction) / parts as real
  }

  /** Everything about one energy window that decides who claims a pid. */
  datatype Claims = Claims(active: seq<Span>, rootPids: seq<int>)
  {
    /** How many active spans carrying `id` claim `pid`. */
    ghost function Of(id: SpanId, pid: int): nat { multiset(ClaimantIds(active, pid, rootPids))[id] }

    ghost function Claimants(pid: int): nat { |ClaimantIds(active, pid, rootPids)| }

    ghost predicate ToOrphan(pid: int, entry: PidEntry) { entry.orphan || Claimants(pid) == 0 }

    /** One claimant's equal share of the part of a pid's cpu time inside the energy window. */
    ghost function Share(fraction: real, pid: int, entry: PidEntry): real {
      EqualShare(entry.cpuMs, fraction, Claimants(pid) + if ToOrphan(pid, entry) then 1 else 0)
    }

    ghost function SpanShare(fraction: real, id: SpanId): (int, PidEntry) -> real {
      (pid: int, entry: PidEntry) => Times(Of(id, pid), Share(fraction, pid, entry))
    }

    ghost function OrphanShare(fraction: real): (int, PidEntry) -> real {
      (pid: int, entry: PidEntry) => if ToOrphan(pid, entry) then Share(fraction, pid, entry) else 0.0
    }

    ghost function RootShare(fraction: real): (int, PidEntry) -> real {
      (pid: int, entry: PidEntry) => if pid in rootPids then Portion(entry.cpuMs, fraction) else 0.0
    }
  }

  ghost function WholeDelta(fraction: real): (int, PidEntry) -> real {
    (pid: int, entry: PidEntry) => Portion(entry.cpuMs, fraction)
  }

  /** The part of a process window that lies inside the energy window. */
  function Fraction(w: Window, t0: int, t1: int): real
    requires w.tStart < w.tEnd
  {
    OverlapMs(w.tStart, w.tEnd, t0, t1) as real / (w.tEnd - w.tStart) as real
  }

  ghost predicate PositiveLength(ws: seq<Window>) {
    forall i :: 0 <= i < |ws| ==> ws[i].tStart < ws[i].tEnd
  }

  ghost function SpanWeight(ws: seq<Window>, c: Claims, t0: int, t1: int, id: SpanId): real
    requires PositiveLength(ws)
  {
    if ws == [] then 0.0
    else
      var n := |ws| - 1;
      SpanWeight(ws[..n], c, t0, t1, id) + Tally(PidTable(ws[n].processes), c.SpanShare(Fraction(ws[n], t0, t1), id))
  }

  ghost function OrphanWeight(ws: seq<Window>, c: Claims, t0: int, t1: int): real
    requires PositiveLength(ws)
  {
    if ws == [] then 0.0
    else
      var n := |ws| - 1;
      OrphanWeight(ws[..n], c, t0, t1) + Tally(PidTable(ws[n].processes), c.OrphanShare(Fraction(ws[n], t0, t1)))
  }

  ghost function RootWeight(ws: seq<Window>, c: Claims, t0: int, t1: int): real
    requires PositiveLength(ws)
  {
    if ws == [] then 0.0
    else
      var n := |ws| - 1;
      RootWeight(ws[..n], c, t0, t1) + Tally(PidTable(ws[n].processes), c.RootShare(Fraction(ws[n], t0, t1)))
  }

  /** All the cpu time observed, windows scaled by their overlap and pids counted once per window. */
  ghost function ObservedWeight(ws: seq<Window>, t0: int, t1: int): real
    requires PositiveLength(ws)
  {
    if ws == [] then 0.0
    else
      var n := |ws| - 1;
      ObservedWeight(ws[..n], t0, t1) + Tally(PidTable(ws[n].processes), WholeDelta(Fraction(ws[n], t0, t1)))
  }

  datatype Weights = Weights(perSpan: map<SpanId, real>, orphan: real, root: real)
  {
    ghost function Placed(): real { MapSum(perSpan) + orphan }
  }

  function IdsOf(spans: seq<Span>): set<SpanId> { set i | 0 <= i < |spans| :: spans[i].spanId }

  /** The claimants of a pid are active spans, one entry per claiming span. */
  lemma {:induction false} ClaimantsAreActive(active: seq<Span>, pid: int, rootPids: seq<int>)
    ensures forall id :: id in ClaimantIds(active, pid, rootPids)
                    <==> exists i :: 0 <= i < |active| && active[i].spanId == id && ClaimsPid(active[i], pid, rootPids)
  {
    if active != [] {
      ClaimantsAreActive(active[1..], pid, rootPids);
      assert active == [active[0]] + active[1..];
      forall id
        ensures id in ClaimantIds(active, pid, rootPids)
           <==> exists i :: 0 <= i < |active| && active[i].spanId == id && ClaimsPid(active[i], pid, rootPids)
      {
        if i :| 0 <= i < |active| && active[i].spanId == id && ClaimsPid(active[i], pid, rootPids) {
          if i > 0 { assert active[1..][i - 1] == active[i]; }
        }
        if id in ClaimantIds(active[1..], pid, rootPids) {
          var i :| 0 <= i < |active[1..]| && active[1..][i].spanId == id && ClaimsPid(active[1..][i], pid, rootPids);
          assert active[i + 1].spanId == id;
        }
      }
    }
  }

  /** What `id` is due when every entry of `claimants` is worth `share`. */
  ghost function Due(claimants: seq<SpanId>, id: SpanId, share: real): real {
    Times(multiset(claimants)[id], share)
  }

  lemma DueStep(claimants: seq<SpanId>, next: SpanId, id: SpanId, share: real)
    ensures Due(claimants + [next], id, share) == Due(claimants, id, share) + if id == next then share else 0.0
  {
    var k := multiset(claimants)[id];
    assert multiset(claimants + [next])[id] == if id == next then k + 1 else k;
  }

  /** `paid` is `before` with every entry of `claimants` paid `share` once. */
  ghost predicate PaidOut(before: map<SpanId, real>, paid: map<SpanId, real>, claimants: seq<SpanId>, share: real) {
    && (forall id :: At(paid, id) == At(before, id) + Due(claimants, id, share))
    && MapSum(paid) == MapSum(before) + Times(|claimants|, share)
    && paid.Keys == before.Keys + (set id | id in claimants)
  }

  lemma PayOne(before: map<SpanId, real>, paid: map<SpanId, real>, done: seq<SpanId>, next: SpanId, share: real)
    requires PaidOut(before, paid, done, share)
    ensures PaidOut(before, AddTo(paid, next, share), done + [next], share)
  {
    assert Times(|done| + 1, share) == Times(|done|, share) + share;
    AddToSum(paid, next, share);
    hide MapSum, Times, Due, At;
    forall id ensures At(AddTo(paid, next, share), id) == At(before, id) + Due(done + [next], id, share) {
      DueStep(done, next, id, share);
      AddsAt(paid, next, share, id);
    }
  }

  /** Pays every claimant of one pid its share. */
  method PayClaimants(before: map<SpanId, real>, claimants: seq<SpanId>, share: real)
    returns (paid: map<SpanId, real>)
    ensures PaidOut(before, paid, claimants, share)
  {
    paid := before;
    for i := 0 to |claimants|
      invariant PaidOut(before, paid, claimants[..i], share)
    {
      assert claimants[..i + 1] == claimants[..i] + [claimants[i]];
      PayOne(before, paid, claimants[..i], claimants[i], share);
      paid := AddTo(paid, claimants[i], share);
    }
    assert claimants[..|claimants|] == claimants;
  }

  /** A pid's cpu time is exactly what its claimants and the orphan bucket are paid for it. */
  lemma SharesAddUp(c: Claims, fraction: real, pid: int, entry: PidEntry)
    ensures Times(c.Claimants(pid), c.Share(fraction, pid, entry)) + c.OrphanShare(fraction)(pid, entry)
         == WholeDelta(fraction)(pid, entry)
  {
    var n, share := c.Claimants(pid), c.Share(fraction, pid, entry);
    var all := n + if c.ToOrphan(pid, entry) then 1 else 0;
    TimesIsProduct(all, share);
    assert share * all as real == entry.cpuMs as real * fraction;
    assert Times(all, share) == Times(n, share) + if c.ToOrphan(pid, entry) then share else 0.0;
  }

  /** `after` is `before` plus what the entries of `table` are worth at `fraction`. */
  ghost predicate Weighed(before: Weights, after: Weights, c: Claims, table: map<int, PidEntry>, fraction: real) {
    && (forall id :: At(after.perSpan, id) == At(before.perSpan, id) + Tally(table, c.SpanShare(fraction, id)))
    && after.orphan == before.orphan + Tally(table, c.OrphanShare(fraction))
    && after.root == before.root + Tally(table, c.RootShare(fraction))
    && after.Placed() == before.Placed() + Tally(table, WholeDelta(fraction))
    && after.perSpan.Keys <= before.perSpan.Keys + IdsOf(c.active)
  }

  /** `after` is `before` with one pid's cpu time split between its claimants. */
  ghost predicate Split(before: Weights, after: Weights, c: Claims, pid: int, entry: PidEntry, fraction: real) {
    && PaidOut(before.perSpan, after.perSpan, ClaimantIds(c.active, pid, c.rootPids), c.Share(fraction, pid, entry))
    && after.orphan == before.orphan + c.OrphanShare(fraction)(pid, entry)
    && after.root == before.root + c.RootShare(fraction)(pid, entry)
  }

  /** One more pid weighed moves every tally by that pid's term. */
  lemma WeighPid(before: Weights, mid: Weights, after: Weights, c: Claims, table: map<int, PidEntry>,
                 done: set<int>, pid: int, fraction: real)
    requires pid in table && pid !in done
    requires Weighed(before, mid, c, Only(table, done), fraction)
    requires Split(mid, after, c, pid, table[pid], fraction)
    ensures Weighed(before, after, c, Only(table, done + {pid}), fraction)
  {
    hide MapSum, Tally, Times, Claims.Share, Claims.ToOrphan, At, EqualShare, Portion;
    var entry := table[pid];
    forall id
      ensures At(after.perSpan, id)
           == At(before.perSpan, id) + Tally(Only(table, done + {pid}), c.SpanShare(fraction, id))
    {
      TallyOnly(table, done, pid, c.SpanShare(fraction, id));
    }
    TallyOnly(table, done, pid, c.OrphanShare(fraction));
    TallyOnly(table, done, pid, c.RootShare(fraction));
    TallyOnly(table, done, pid, WholeDelta(fraction));
    SharesAddUp(c, fraction, pid, entry);
    ClaimantsAreActive(c.active, pid, c.rootPids);
  }

  /** Splits one pid's cpu time equally between every claimant and, if it is due a part, the orphan bucket. */
  method SplitPid(before: Weights, c: Claims, pid: int, entry: PidEntry, fraction: real) returns (after: Weights)
    ensures Split(before, after, c, pid, entry, fraction)
  {
    hide Portion, EqualShare, PaidOut, ClaimantIds, At;
    var root := before.root;
    if pid in c.rootPids {
      root := root + Portion(entry.cpuMs, fraction);
    }
    var claimants := ClaimantIds(c.active, pid, c.rootPids);
    var toOrphan := entry.orphan || claimants == [];
    var share := EqualShare(entry.cpuMs, fraction, |claimants| + if toOrphan then 1 else 0);
    var perSpan := PayClaimants(before.perSpan, claimants, share);
    after := Weights(perSpan, if toOrphan then before.orphan + share else before.orphan, root);
  }

  /** One process window's pids, each split between its claimants. */
  method WeighWindow(window: Window, c: Claims, t0: int, t1: int, before: Weights) returns (weights: Weights)
    requires window.tStart < window.tEnd
    ensures Weighed(before, weights, c, PidTable(window.processes), Fraction(window, t0, t1))
  {
    hide *;
    var table := DeduplicateByPid(window.processes);
    weights := WeighTable(table, c, Fraction(window, t0, t1), before);
  }

  lemma WeighNothing(before: Weights, c: Claims, fraction: real)
    ensures Weighed(before, before, c, map[], fraction)
  {
  }

  method WeighTable(table: map<int, PidEntry>, c: Claims, fraction: real, before: Weights) returns (weights: Weights)
    ensures Weighed(before, weights, c, table, fraction)
  {
    hide Weighed;
    weights := before;
    var left: set<int> := table.Keys;
    assert Only(table, table.Keys - left) == map[];
    WeighNothing(before, c, fraction);
    while left != {}
      invariant left <= table.Keys
      invariant Weighed(before, weights, c, Only(table, table.Keys - left), fraction)
      decreases left
    {
      SomeMember(left);
      var pid :| pid in left;
      var after := SplitPid(weights, c, pid, table[pid], fraction);
      WeighPid(before, weights, after, c, table, table.Keys - left, pid, fraction);
      assert table.Keys - (left - {pid}) == (table.Keys - left) + {pid};
      weights, left := after, left - {pid};
    }
    assert Only(table, table.Keys - left) == table;
  }

  /** `weights` is what the process windows `ws` say about the energy window. */
  ghost predicate WeightsOf(weights: Weights, ws: seq<Window>, c: Claims, t0: int, t1: int)
    requires PositiveLength(ws)
  {
    && (forall id :: At(weights.perSpan, id) == SpanWeight(ws, c, t0, t1, id))
    && weights.orphan == OrphanWeight(ws, c, t0, t1)
    && weights.root == RootWeight(ws, c, t0, t1)
    && weights.Placed() == ObservedWeight(ws, t0, t1)
    && weights.perSpan.Keys <= IdsOf(c.active)
  }

  lemma WeighOneWindow(before: Weights, after: Weights, ws: seq<Window>, i: nat, c: Claims, t0: int, t1: int)
    requires i < |ws| && PositiveLength(ws)
    requires WeightsOf(before, ws[..i], c, t0, t1)
    requires Weighed(before, after, c, PidTable(ws[i].processes), Fraction(ws[i], t0, t1))
    ensures WeightsOf(after, ws[..i + 1], c, t0, t1)
  {
    hide MapSum, Tally, PidTable, IdsOf, At, Fraction, Claims.SpanShare, Claims.OrphanShare, Claims.RootShare;
    Prefix(ws, i);
  }

  /** CPU-time weights for one energy window: each weight pinned down, and nothing observed lost or invented. */
  method CpuWeights(windows: seq<Window>, c: Claims, t0: int, t1: int) returns (weights: Weights)
    requires PositiveLength(windows)
    ensures WeightsOf(weights, windows, c, t0, t1)
  {
    weights := Weights(map[], 0.0, 0.0);
    assert WeightsOf(weights, windows[..0], c, t0, t1);
    hide WeightsOf, Weighed;
    for i := 0 to |windows|
      invariant WeightsOf(weights, windows[..i], c, t0, t1)
    {
      var after := WeighWindow(windows[i], c, t0, t1, weights);
      WeighOneWindow(weights, after, windows, i, c, t0, t1);
      weights := after;
    }
    assert windows[..|windows|] == windows;
  }

  // ---- the policy, one sample at a time -----------------------------------------------------------

  function Attributable(spans: seq<Span>): seq<Span> { Filter(spans, (s: Span) => s.IsAttributable()) }

  function Remotes(spans: seq<Span>): seq<Span> { Filter(spans, (s: Span) => s.locus == Remote) }

  function Degenerates(spans: seq<Span>): seq<Span> { Filter(spans, (s: Span) => s.IsDegenerate()) }

  function Overlapping(spans: seq<Span>, t0: int, t1: int): seq<Span> {
    Filter(spans, (s: Span) => s.Overlaps(t0, t1))
  }

  function Active(tree: SessionTree, t0: int, t1: int): seq<Span> { Overlapping(Attributable(tree.spans), t0, t1) }

  function Covering(ws: seq<Window>, t0: int, t1: int): (covering: seq<Window>)
    ensures PositiveLength(ws) ==> PositiveLength(covering)
  {
    var covering := Filter(ws, (w: Window) => OverlapMs(w.tStart, w.tEnd, t0, t1) > 0);
    assert forall i :: 0 <= i < |covering| ==> covering[i] in ws;
    covering
  }

  /** The share of the energy window one span was open for. */
  function WallShare(span: Span, t0: int, t1: int): real
    requires t0 < t1
  {
    OverlapMs(span.tStart, span.tEnd, t0, t1) as real / (t1 - t0) as real
  }

  function ShareOf(t0: int, t1: int): Span -> real {
    (s: Span) => if t0 < t1 then WallShare(s, t0, t1) else 0.0
  }

  ghost function IdShareOf(t0: int, t1: int, id: SpanId): Span -> real {
    (s: Span) => if t0 < t1 && s.spanId == id then WallShare(s, t0, t1) else 0.0
  }

  ghost function WallShares(active: seq<Span>, t0: int, t1: int): real
    requires t0 < t1
  {
    SumOver(active, ShareOf(t0, t1))
  }

  ghost function IdWallShares(active: seq<Span>, t0: int, t1: int, id: SpanId): real
    requires t0 < t1
  {
    SumOver(active, IdShareOf(t0, t1, id))
  }

  function RemoteRow(t0: int, t1: int): Span -> AllocRow {
    (span: Span) => AllocRow(span.spanId, OverlapMs(span.tStart, span.tEnd, t0, t1) as real, 0.0, 0.0, 0.0, true)
  }

  /** What the policy makes of one sample. */
  datatype Verdict = Unparsed | Degenerate | Unplaced | ByCpuTime | ByWallClock

  /** The usable process windows and the spans a session's samples are judged against. */
  datatype Session = Session(windows: seq<Window>, tree: SessionTree)
  {
    ghost predicate Valid() { PositiveLength(windows) }

    ghost function Judge(s: EnergySample): Verdict
      requires Valid()
    {
      if !s.Parsed() then Unparsed
      else if s.tEnd.value <= s.tStart.value then Degenerate
      else
        var t0, t1 := s.tStart.value, s.tEnd.value;
        var active, covering := Active(tree, t0, t1), Covering(windows, t0, t1);
        if covering != [] then
          if active == [] && OrphanWeight(covering, Claims(active, tree.rootPids), t0, t1) <= 0.0
          then Unplaced else ByCpuTime
        else if active != [] then ByWallClock
        else Unplaced
    }

    /** Joules per weighed cpu millisecond: the whole sample over the larger of the observed cpu time
        and one core for the whole window. Nothing is paid when no cpu time was observed. */
    ghost function CpuRate(s: EnergySample): real
      requires Valid() && s.Parsed() && s.tStart.value < s.tEnd.value
    {
      var t0, t1 := s.tStart.value, s.tEnd.value;
      var observed := ObservedWeight(Covering(windows, t0, t1), t0, t1);
      if observed > 0.0 then SampleEnergy(s) / MaxR(observed, (t1 - t0) as real) else 0.0
    }

    /** Joules per unit of wall-clock share, scaled down when concurrent spans claim more than the window. */
    ghost function WallRate(s: EnergySample): real
      requires s.Parsed() && s.tStart.value < s.tEnd.value
    {
      var t0, t1 := s.tStart.value, s.tEnd.value;
      SampleEnergy(s) / MaxR(1.0, WallShares(Active(tree, t0, t1), t0, t1))
    }

    /** The joules span id `id` is paid out of `s`. */
    ghost function Paid(s: EnergySample, id: SpanId): real
      requires Valid()
    {
      match Judge(s)
      case ByCpuTime =>
        var t0, t1 := s.tStart.value, s.tEnd.value;
        Scale(CpuRate(s),
              SpanWeight(Covering(windows, t0, t1), Claims(Active(tree, t0, t1), tree.rootPids), t0, t1, id))
      case ByWallClock =>
        Scale(WallRate(s),
              IdWallShares(Active(tree, s.tStart.value, s.tEnd.value), s.tStart.value, s.tEnd.value, id))
      case _ => 0.0
    }

    ghost function Orphaned(s: EnergySample): real
      requires Valid()
    {
      if Judge(s) == ByCpuTime then
        var t0, t1 := s.tStart.value, s.tEnd.value;
        Scale(CpuRate(s),
              OrphanWeight(Covering(windows, t0, t1), Claims(Active(tree, t0, t1), tree.rootPids), t0, t1))
      else 0.0
    }

    /** What no span and no orphan is paid. */
    ghost function Baseline(s: EnergySample): real
      requires Valid()
    {
      match Judge(s)
      case Unparsed => 0.0
      case ByCpuTime =>
        var t0, t1 := s.tStart.value, s.tEnd.value;
        SampleEnergy(s) - Scale(CpuRate(s), ObservedWeight(Covering(windows, t0, t1), t0, t1))
      case ByWallClock =>
        var t0, t1 := s.tStart.value, s.tEnd.value;
        SampleEnergy(s) - Scale(WallRate(s), WallShares(Active(tree, t0, t1), t0, t1))
      case _ => SampleEnergy(s)
    }

    /** The cpu-time weight span id `id` carried in `s`: zero unless cpu time was what divided it. */
    ghost function CpuMs(s: EnergySample, id: SpanId): real
      requires Valid()
    {
      if Judge(s) == ByCpuTime && Observed(s) > 0.0 then
        var t0, t1 := s.tStart.value, s.tEnd.value;
        SpanWeight(Covering(windows, t0, t1), Claims(Active(tree, t0, t1), tree.rootPids), t0, t1, id)
      else 0.0
    }

    /** All the cpu time observed in the sample's window. */
    ghost function Observed(s: EnergySample): real
      requires Valid() && s.Parsed()
    {
      var t0, t1 := s.tStart.value, s.tEnd.value;
      ObservedWeight(Covering(windows, t0, t1), t0, t1)
    }

    ghost function RootCpu(s: EnergySample): real
      requires Valid() && s.Parsed()
    {
      var t0, t1 := s.tStart.value, s.tEnd.value;
      RootWeight(Covering(windows, t0, t1), Claims(Active(tree, t0, t1), tree.rootPids), t0, t1)
    }

    ghost function RowFor(s: EnergySample): Span -> AllocRow
      requires Valid() && s.Parsed() && s.tStart.value < s.tEnd.value
    {
      var t0, t1 := s.tStart.value, s.tEnd.value;
      (span: Span) => AllocRow(span.spanId, OverlapMs(span.tStart, span.tEnd, t0, t1) as real,
        if Valid() then CpuMs(s, span.spanId) else 0.0, if Valid() then Paid(s, span.spanId) else 0.0,
        Scale(SampleEnergy(s), ShareOf(t0, t1)(span)), false)
    }

    /** The record one sample leaves: remote rows with nothing, then one row per active span. */
    ghost function TraceOf(index: nat, s: EnergySample): SampleTrace
      requires Valid() && s.Parsed()
    {
      if s.tEnd.value <= s.tStart.value then
        SampleTrace(index, SampleEnergy(s), 0.0, None, [], 0.0, SampleEnergy(s), 0.0, 0.0)
      else
        var t0, t1 := s.tStart.value, s.tEnd.value;
        SampleTrace(index, SampleEnergy(s), (t1 - t0) as real, PolicyOf(Judge(s)),
          Mapped(Overlapping(Remotes(tree.spans), t0, t1), RemoteRow(t0, t1))
            + Mapped(Active(tree, t0, t1), RowFor(s)),
          Orphaned(s), Baseline(s), WallShares(Active(tree, t0, t1), t0, t1), RootCpu(s))
    }

    /** One trace per sample that entered the join, in order. */
    ghost function Traces(samples: seq<EnergySample>): seq<SampleTrace>
      requires Valid()
    {
      if samples == [] then []
      else
        var n := |samples| - 1;
        Traces(samples[..n]) + if samples[n].Parsed() then [TraceOf(n, samples[n])] else []
    }

    /** The energy that enters the join. */
    ghost function Entering(s: EnergySample): real { if s.Parsed() then SampleEnergy(s) else 0.0 }

    ghost function PaidTo(id: SpanId): EnergySample -> real { s => if Valid() then Paid(s, id) else 0.0 }

    ghost function OrphanedOf(): EnergySample -> real { s => if Valid() then Orphaned(s) else 0.0 }

    ghost function BaselineOf(): EnergySample -> real { s => if Valid() then Baseline(s) else 0.0 }

    ghost function EnteringOf(): EnergySample -> real { s => Entering(s) }

    ghost function Judged(v: Verdict): EnergySample -> bool { s => Valid() && Judge(s) == v }

    ghost function UnobservedIn(): EnergySample -> bool { s => Unobserved(s) }

    /** The process windows covering `s` listed no process at all. */
    ghost predicate Unobserved(s: EnergySample) {
      && s.Parsed() && s.tStart.value < s.tEnd.value
      && var covering := Covering(windows, s.tStart.value, s.tEnd.value);
         covering != [] && forall i :: 0 <= i < |covering| ==> covering[i].processes == []
    }
  }

  // ---- paying ---------------------------------------------------------------------------------------

  /** The capped fraction times a weight's share of the total is the weight times one common rate. */
  lemma CappedShare(energy: real, total: real, windowMs: real, weight: real)
    requires total > 0.0 && windowMs > 0.0
    ensures energy * MinR(total / windowMs, 1.0) * (weight / total) == energy / MaxR(total, windowMs) * weight
  {
    var share := weight / total;
    if total <= windowMs {
      var busy := total / windowMs;
      assert busy * windowMs == total;
      assert busy > 1.0 ==> busy * windowMs > 1.0 * windowMs;
      var per := energy / windowMs;
      assert energy == per * windowMs;
      assert energy * busy == per * (windowMs * busy) == per * total;
      assert per * total * share == per * (total * share) == per * weight;
    } else {
      var per := energy / total;
      var busy := total / windowMs;
      assert busy * windowMs == total;
      assert busy <= 1.0 ==> busy * windowMs <= 1.0 * windowMs;
      assert energy == per * total;
      assert per * total * share == per * (total * share) == per * weight;
    }
  }

  /** What one sample has paid so far, beside the session's running tallies. */
  datatype Payment = Payment(perSpanJ: map<SpanId, real>, sampleJ: map<SpanId, real>, sampleCpuMs: map<SpanId, real>,
                             attributed: real)

  /** `p` is `before` with every id's weight in `due` paid at `rate`. */
  ghost predicate PaidAt(before: map<SpanId, real>, p: Payment, due: map<SpanId, real>, rate: real) {
    && (forall id :: At(p.sampleJ, id) == Scale(rate, At(due, id)))
    && (forall id :: At(p.sampleCpuMs, id) == At(due, id))
    && (forall id :: At(p.perSpanJ, id) == At(before, id) + At(p.sampleJ, id))
    && MapSum(p.perSpanJ) == MapSum(before) + Scale(rate, MapSum(due))
    && MapSum(p.sampleJ) == p.attributed == Scale(rate, MapSum(due))
    && p.sampleJ.Keys == due.Keys
    && p.perSpanJ.Keys == before.Keys + due.Keys
  }

  function Pay(p: Payment, id: SpanId, joules: real, cpuMs: real): Payment {
    Payment(AddTo(p.perSpanJ, id, joules), AddTo(p.sampleJ, id, joules), AddTo(p.sampleCpuMs, id, cpuMs),
            p.attributed + joules)
  }

  lemma PayAt(p: Payment, id: SpanId, joules: real, cpuMs: real, k: SpanId)
    ensures At(Pay(p, id, joules, cpuMs).perSpanJ, k) == At(p.perSpanJ, k) + if k == id then joules else 0.0
    ensures At(Pay(p, id, joules, cpuMs).sampleJ, k) == At(p.sampleJ, k) + if k == id then joules else 0.0
    ensures At(Pay(p, id, joules, cpuMs).sampleCpuMs, k) == At(p.sampleCpuMs, k) + if k == id then cpuMs else 0.0
  {
  }

  lemma PayWeightAt(before: map<SpanId, real>, p: Payment, due: map<SpanId, real>, rate: real,
                    id: SpanId, weight: real, joules: real, k: SpanId)
    requires PaidAt(before, p, due, rate)
    requires id !in due && joules == Scale(rate, weight)
    ensures At(Pay(p, id, joules, weight).sampleJ, k) == Scale(rate, At(due[id := weight], k))
    ensures At(Pay(p, id, joules, weight).sampleCpuMs, k) == At(due[id := weight], k)
    ensures At(Pay(p, id, joules, weight).perSpanJ, k) == At(before, k) + At(Pay(p, id, joules, weight).sampleJ, k)
  {
    hide MapSum, Pay, Scale;
    PayAt(p, id, joules, weight, k);
    assert At(p.sampleJ, k) == Scale(rate, At(due, k)) && At(p.sampleCpuMs, k) == At(due, k);
    if k == id {
      assert At(due, k) == 0.0;
      ScaleAdd(rate, 0.0, 0.0);
    } else {
      assert At(due[id := weight], k) == At(due, k);
    }
  }

  lemma PayWeightTotals(before: map<SpanId, real>, p: Payment, due: map<SpanId, real>, rate: real,
                        id: SpanId, weight: real, joules: real)
    requires PaidAt(before, p, due, rate)
    requires id !in due && joules == Scale(rate, weight)
    ensures MapSum(Pay(p, id, joules, weight).perSpanJ) == MapSum(before) + Scale(rate, MapSum(due[id := weight]))
    ensures MapSum(Pay(p, id, joules, weight).sampleJ) == Pay(p, id, joules, weight).attributed
         == Scale(rate, MapSum(due[id := weight]))
  {
    AddToSum(p.perSpanJ, id, joules);
    AddToSum(p.sampleJ, id, joules);
    MapSumUpdate(due, id, weight);
    hide MapSum, Scale;
    ScaleAdd(rate, MapSum(due), weight);
  }

  lemma PayOneWeight(before: map<SpanId, real>, p: Payment, due: map<SpanId, real>, rate: real,
                     id: SpanId, weight: real, joules: real)
    requires PaidAt(before, p, due, rate)
    requires id !in due && joules == Scale(rate, weight)
    ensures PaidAt(before, Pay(p, id, joules, weight), due[id := weight], rate)
  {
    hide MapSum, At, Scale;
    var q := Pay(p, id, joules, weight);
    forall k
      ensures At(q.sampleJ, k) == Scale(rate, At(due[id := weight], k))
      ensures At(q.sampleCpuMs, k) == At(due[id := weight], k)
      ensures At(q.perSpanJ, k) == At(before, k) + At(q.sampleJ, k)
    {
      PayWeightAt(before, p, due, rate, id, weight, joules, k);
    }
    PayWeightTotals(before, p, due, rate, id, weight, joules);
  }

  lemma PayNothing(before: map<SpanId, real>, rate: real)
    ensures PaidAt(before, Payment(before, map[], map[], 0.0), map[], rate)
  {
  }

  /** What a weight is paid: the capped share of the sample, divided in proportion. */
  function CappedJoules(energyJ: real, totalW: real, windowMs: real, weight: real): (joules: real)
    requires totalW > 0.0 && windowMs > 0.0
    ensures joules == Scale(energyJ / MaxR(totalW, windowMs), weight)
  {
    CappedShare(energyJ, totalW, windowMs, weight);
    var activeJ := energyJ * MinR(totalW / windowMs, 1.0);
    activeJ * (weight / totalW)
  }

  method PayByCpuTime(before: map<SpanId, real>, weights: Weights, totalW: real, energyJ: real, windowMs: real)
    returns (p: Payment, orphanJ: real)
    requires totalW > 0.0 && windowMs > 0.0
    ensures PaidAt(before, p, weights.perSpan, energyJ / MaxR(totalW, windowMs))
    ensures orphanJ == Scale(energyJ / MaxR(totalW, windowMs), weights.orphan)
  {
    hide *;
    orphanJ := CappedJoules(energyJ, totalW, windowMs, weights.orphan);
    ghost var rate := energyJ / MaxR(totalW, windowMs);
    p := Payment(before, map[], map[], 0.0);
    ghost var done: set<SpanId> := {};
    var left := weights.perSpan.Keys;
    PayNothing(before, rate);
    OnlyEnds(weights.perSpan);
    while left != {}
      invariant left == weights.perSpan.Keys - done && done <= weights.perSpan.Keys
      invariant PaidAt(before, p, Only(weights.perSpan, done), rate)
      decreases left
    {
      var id :| id in left;
      var weight := weights.perSpan[id];
      var joules := CappedJoules(energyJ, totalW, windowMs, weight);
      OnlyAdds(weights.perSpan, done, id);
      PayOneWeight(before, p, Only(weights.perSpan, done), rate, id, weight, joules);
      p := Pay(p, id, joules, weight);
      done, left := done + {id}, left - {id};
    }
    assert done == weights.perSpan.Keys;
  }

  // ---- wall-clock payment -----------------------------------------------------------------------------

  /** `p` is `before` with every span's wall-clock share paid at `rate`. */
  ghost predicate SlicedAt(before: map<SpanId, real>, p: Payment, spans: seq<Span>, t0: int, t1: int, rate: real) {
    && (forall id :: At(p.sampleJ, id) == Scale(rate, SumOver(spans, IdShareOf(t0, t1, id))))
    && (forall id :: At(p.perSpanJ, id) == At(before, id) + At(p.sampleJ, id))
    && MapSum(p.perSpanJ) == MapSum(before) + Scale(rate, SumOver(spans, ShareOf(t0, t1)))
    && MapSum(p.sampleJ) == p.attributed == Scale(rate, SumOver(spans, ShareOf(t0, t1)))
    && p.sampleJ.Keys == IdsOf(spans)
    && p.perSpanJ.Keys == before.Keys + IdsOf(spans)
    && p.sampleCpuMs == map[]
  }

  function Slice(p: Payment, id: SpanId, joules: real): Payment {
    Payment(AddTo(p.perSpanJ, id, joules), AddTo(p.sampleJ, id, joules), p.sampleCpuMs, p.attributed + joules)
  }

  lemma SliceAt(before: map<SpanId, real>, p: Payment, spans: seq<Span>, i: nat, t0: int, t1: int,
                rate: real, joules: real, k: SpanId)
    requires i < |spans| && t0 < t1
    requires SlicedAt(before, p, spans[..i], t0, t1, rate)
    requires joules == Scale(rate, WallShare(spans[i], t0, t1))
    ensures At(AddTo(p.sampleJ, spans[i].spanId, joules), k)
              == Scale(rate, SumOver(spans[..i + 1], IdShareOf(t0, t1, k)))
    ensures At(AddTo(p.perSpanJ, spans[i].spanId, joules), k)
         == At(before, k) + At(AddTo(p.sampleJ, spans[i].spanId, joules), k)
  {
    hide MapSum, At, AddTo, WallShare, Scale;
    Prefix(spans, i);
    AddsAt(p.sampleJ, spans[i].spanId, joules, k);
    AddsAt(p.perSpanJ, spans[i].spanId, joules, k);
    assert At(p.sampleJ, k) == Scale(rate, SumOver(spans[..i], IdShareOf(t0, t1, k)));
    ScaleAdd(rate, SumOver(spans[..i], IdShareOf(t0, t1, k)), IdShareOf(t0, t1, k)(spans[i]));
  }

  lemma IdsOfPrefix(spans: seq<Span>, i: nat)
    requires i < |spans|
    ensures IdsOf(spans[..i + 1]) == IdsOf(spans[..i]) + {spans[i].spanId}
  {
    Prefix(spans, i);
    assert spans[..i + 1][i].spanId in IdsOf(spans[..i + 1]);
    forall j | 0 <= j < i ensures spans[..i][j].spanId in IdsOf(spans[..i + 1]) {
      assert spans[..i + 1][j] == spans[..i][j];
    }
  }

  lemma SliceOne(before: map<SpanId, real>, p: Payment, spans: seq<Span>, i: nat, t0: int, t1: int,
                 rate: real, joules: real)
    requires i < |spans| && t0 < t1
    requires SlicedAt(before, p, spans[..i], t0, t1, rate)
    requires joules == Scale(rate, WallShare(spans[i], t0, t1))
    ensures SlicedAt(before, Slice(p, spans[i].spanId, joules), spans[..i + 1], t0, t1, rate)
  {
    hide MapSum, At, WallShare, IdsOf, Scale;
    var id := spans[i].spanId;
    Prefix(spans, i);
    forall k
      ensures At(AddTo(p.sampleJ, id, joules), k) == Scale(rate, SumOver(spans[..i + 1], IdShareOf(t0, t1, k)))
      ensures At(AddTo(p.perSpanJ, id, joules), k) == At(before, k) + At(AddTo(p.sampleJ, id, joules), k)
    {
      SliceAt(before, p, spans, i, t0, t1, rate, joules, k);
    }
    AddToSum(p.perSpanJ, id, joules);
    AddToSum(p.sampleJ, id, joules);
    ScaleAdd(rate, SumOver(spans[..i], ShareOf(t0, t1)), WallShare(spans[i], t0, t1));
    IdsOfPrefix(spans, i);
  }

  lemma SliceNothing(before: map<SpanId, real>, t0: int, t1: int, rate: real)
    ensures SlicedAt(before, Payment(before, map[], map[], 0.0), [], t0, t1, rate)
  {
  }

  /** What a wall-clock share is paid: scaled down when the shares add up to more than the whole sample. */
  function ScaledJoules(energyJ: real, claimed: real, share: real): (joules: real)
    ensures joules == Scale(energyJ / MaxR(1.0, claimed), share)
  {
    var scale := if claimed > 1.0 then 1.0 / claimed else 1.0;
    energyJ * share * scale
  }

  method PayByWallClock(before: map<SpanId, real>, active: seq<Span>, energyJ: real, t0: int, t1: int)
    returns (p: Payment)
    requires t0 < t1
    ensures SlicedAt(before, p, active, t0, t1, energyJ / MaxR(1.0, WallShares(active, t0, t1)))
  {
    var claimed := SumOver(active, ShareOf(t0, t1));
    ghost var rate := energyJ / MaxR(1.0, claimed);
    assert rate == energyJ / MaxR(1.0, WallShares(active, t0, t1));
    hide *;
    p := Payment(before, map[], map[], 0.0);
    SliceNothing(before, t0, t1, rate);
    for i := 0 to |active|
      invariant SlicedAt(before, p, active[..i], t0, t1, rate)
    {
      var joules := ScaledJoules(energyJ, claimed, WallShare(active[i], t0, t1));
      SliceOne(before, p, active, i, t0, t1, rate, joules);
      p := Slice(p, active[i].spanId, joules);
    }
    assert active[..|active|] == active;
  }

  // ---- one sample ---------------------------------------------------------------------------------------

  function PolicyOf(v: Verdict): Option<Policy> {
    match v
    case ByCpuTime => Some(L2CpuTime)
    case ByWallClock => Some(L1WallClock)
    case _ => None
  }

  /** Where every joule of one sample went. */
  datatype Placement = Placement(policy: Option<Policy>, perSpanJ: map<SpanId, real>, sampleJ: map<SpanId, real>,
                                 sampleCpuMs: map<SpanId, real>, orphanedJ: real, baselineJ: real, rootCpuMs: real)

  ghost predicate PlacedBy(session: Session, s: EnergySample, before: map<SpanId, real>, p: Placement)
    requires session.Valid() && s.Parsed() && s.tStart.value < s.tEnd.value
  {
    && p.policy == PolicyOf(session.Judge(s))
    && (forall id :: At(p.perSpanJ, id) == At(before, id) + session.Paid(s, id))
    && (forall id :: At(p.sampleJ, id) == session.Paid(s, id))
    && (forall id :: At(p.sampleCpuMs, id) == session.CpuMs(s, id))
    && p.orphanedJ == session.Orphaned(s)
    && p.baselineJ == session.Baseline(s)
    && p.rootCpuMs == session.RootCpu(s)
    && MapSum(p.perSpanJ) + p.orphanedJ + p.baselineJ == MapSum(before) + SampleEnergy(s)
    && MapSum(p.sampleJ) + p.orphanedJ + p.baselineJ == SampleEnergy(s)
    && p.perSpanJ.Keys <= before.Keys + IdsOf(Active(session.tree, s.tStart.value, s.tEnd.value))
    && p.sampleJ.Keys <= IdsOf(Active(session.tree, s.tStart.value, s.tEnd.value))
  }

  /** With cpu time observed, every payment of a sample is read off its weights at one rate. */
  lemma PaidByWeight(session: Session, s: EnergySample, weights: Weights, id: SpanId)
    requires session.Valid() && session.Judge(s) == ByCpuTime && session.Observed(s) > 0.0
    requires var t0, t1 := s.tStart.value, s.tEnd.value;
             WeightsOf(weights, Covering(session.windows, t0, t1),
                       Claims(Active(session.tree, t0, t1), session.tree.rootPids), t0, t1)
    ensures session.Paid(s, id) == Scale(session.CpuRate(s), At(weights.perSpan, id))
    ensures session.CpuMs(s, id) == At(weights.perSpan, id)
    ensures session.Orphaned(s) == Scale(session.CpuRate(s), weights.orphan)
    ensures session.RootCpu(s) == weights.root
    ensures session.Baseline(s)
         == SampleEnergy(s) - Scale(session.CpuRate(s), MapSum(weights.perSpan) + weights.orphan)
  {
    hide MapSum, Scale, SampleEnergy, Session.CpuRate, Covering, Active, IdsOf, At, Session.Judge,
         SpanWeight, OrphanWeight, RootWeight, ObservedWeight;
  }

  lemma PlacedByCpuTime(session: Session, s: EnergySample, before: map<SpanId, real>, weights: Weights,
                        paid: Payment, p: Placement)
    requires session.Valid() && session.Judge(s) == ByCpuTime && session.Observed(s) > 0.0
    requires var t0, t1 := s.tStart.value, s.tEnd.value;
             WeightsOf(weights, Covering(session.windows, t0, t1),
                       Claims(Active(session.tree, t0, t1), session.tree.rootPids), t0, t1)
    requires PaidAt(before, paid, weights.perSpan, session.CpuRate(s))
    requires p == Placement(Some(L2CpuTime), paid.perSpanJ, paid.sampleJ, paid.sampleCpuMs,
                            Scale(session.CpuRate(s), weights.orphan),
                            SampleEnergy(s) - (paid.attributed + Scale(session.CpuRate(s), weights.orphan)),
                            weights.root)
    ensures PlacedBy(session, s, before, p)
  {
    hide MapSum, Scale, SampleEnergy, Session.CpuRate, Session.Observed, Session.Baseline, Session.Orphaned,
         Session.Paid, Session.CpuMs, Session.RootCpu, Active, Covering, IdsOf, At,
         SpanWeight, OrphanWeight, RootWeight, ObservedWeight;
    ScaleAdd(session.CpuRate(s), MapSum(weights.perSpan), weights.orphan);
    forall id
      ensures session.Paid(s, id) == Scale(session.CpuRate(s), At(weights.perSpan, id))
      ensures session.CpuMs(s, id) == At(weights.perSpan, id)
    {
      PaidByWeight(session, s, weights, id);
    }
    PaidByWeight(session, s, weights, "");
  }

  lemma PlacedByWallClock(session: Session, s: EnergySample, before: map<SpanId, real>, paid: Payment, p: Placement)
    requires session.Valid() && session.Judge(s) == ByWallClock
    requires var t0, t1 := s.tStart.value, s.tEnd.value;
             SlicedAt(before, paid, Active(session.tree, t0, t1), t0, t1, session.WallRate(s))
    requires p == Placement(Some(L1WallClock), paid.perSpanJ, paid.sampleJ, paid.sampleCpuMs, 0.0,
                            SampleEnergy(s) - paid.attributed, 0.0)
    ensures PlacedBy(session, s, before, p)
  {
    assert session.RootCpu(s) == 0.0;
    hide MapSum, Scale, SampleEnergy, Session.WallRate, SumOver, Covering, Active, IdsOf;
  }

  /** A sample no policy divides, or whose windows observed no cpu time, is wholly baseline. */
  lemma PlacedInBaseline(session: Session, s: EnergySample, before: map<SpanId, real>, p: Placement)
    requires session.Valid() && s.Parsed() && s.tStart.value < s.tEnd.value
    requires session.Judge(s) == Unplaced || (session.Judge(s) == ByCpuTime && session.Observed(s) <= 0.0)
    requires p == Placement(PolicyOf(session.Judge(s)), before, map[], map[], 0.0, SampleEnergy(s), session.RootCpu(s))
    ensures PlacedBy(session, s, before, p)
  {
    assert MapSum(p.sampleJ) == 0.0;
    hide MapSum, SampleEnergy, SpanWeight, OrphanWeight, RootWeight, ObservedWeight, Covering, Active, IdsOf;
  }

  /** Divides one sample: by cpu time where process data covers it, by wall clock where none does. */
  method PlaceSample(before: map<SpanId, real>, session: Session, s: EnergySample, energyJ: real)
    returns (p: Placement)
    requires session.Valid() && s.Parsed() && s.tStart.value < s.tEnd.value && energyJ == SampleEnergy(s)
    ensures PlacedBy(session, s, before, p)
  {
    hide PlacedBy, WeightsOf, PaidAt, SlicedAt, SampleEnergy, Active, Covering;
    var t0, t1 := s.tStart.value, s.tEnd.value;
    var active, covering := Active(session.tree, t0, t1), Covering(session.windows, t0, t1);
    if covering != [] {
      p := PlaceByCpuTime(before, session, s, energyJ, active, covering);
    } else if active != [] {
      var paid := PayByWallClock(before, active, energyJ, t0, t1);
      p := Placement(Some(L1WallClock), paid.perSpanJ, paid.sampleJ, paid.sampleCpuMs, 0.0,
                     energyJ - paid.attributed, 0.0);
      PlacedByWallClock(session, s, before, paid, p);
    } else {
      p := Placement(None, before, map[], map[], 0.0, energyJ, 0.0);
      PlacedInBaseline(session, s, before, p);
    }
  }

  method PlaceByCpuTime(before: map<SpanId, real>, session: Session, s: EnergySample, energyJ: real,
                        active: seq<Span>, covering: seq<Window>) returns (p: Placement)
    requires session.Valid() && s.Parsed() && s.tStart.value < s.tEnd.value && energyJ == SampleEnergy(s)
    requires active == Active(session.tree, s.tStart.value, s.tEnd.value)
    requires covering == Covering(session.windows, s.tStart.value, s.tEnd.value) && covering != []
    ensures PlacedBy(session, s, before, p)
  {
    hide PlacedBy, PaidAt, SampleEnergy, Active, Covering, MapSum, SpanWeight, OrphanWeight, RootWeight, ObservedWeight;
    var t0, t1 := s.tStart.value, s.tEnd.value;
    var weights := CpuWeights(covering, Claims(active, session.tree.rootPids), t0, t1);
    var perSpan := SumValues(weights.perSpan);
    var totalW := perSpan + weights.orphan;
    assert totalW == session.Observed(s);
    if active == [] && weights.orphan <= 0.0 {
      p := Placement(None, before, map[], map[], 0.0, energyJ, weights.root);
      PlacedInBaseline(session, s, before, p);
    } else if totalW > 0.0 {
      var paid, orphanJ := PayByCpuTime(before, weights, totalW, energyJ, (t1 - t0) as real);
      p := Placement(Some(L2CpuTime), paid.perSpanJ, paid.sampleJ, paid.sampleCpuMs, orphanJ,
                     energyJ - (paid.attributed + orphanJ), weights.root);
      PlacedByCpuTime(session, s, before, weights, paid, p);
    } else {
      p := Placement(Some(L2CpuTime), before, map[], map[], 0.0, energyJ, weights.root);
      PlacedInBaseline(session, s, before, p);
    }
  }

  // ---- one trace ------------------------------------------------------------------------------------------

  /** The rows of the active spans, read back from what the sample just paid. */
  method ActiveRows(session: Session, s: EnergySample, energyJ: real, p: Placement, ghost before: map<SpanId, real>)
    returns (rows: seq<AllocRow>, shadow: real)
    requires session.Valid() && s.Parsed() && s.tStart.value < s.tEnd.value && energyJ == SampleEnergy(s)
    requires PlacedBy(session, s, before, p)
    ensures rows == Mapped(Active(session.tree, s.tStart.value, s.tEnd.value), session.RowFor(s))
    ensures shadow == WallShares(Active(session.tree, s.tStart.value, s.tEnd.value), s.tStart.value, s.tEnd.value)
  {
    assert forall id :: At(p.sampleJ, id) == session.Paid(s, id) && At(p.sampleCpuMs, id) == session.CpuMs(s, id);
    hide SampleEnergy, Session.Paid, Session.CpuMs, Active, PlacedBy, Scale, At, WallShare, OverlapMs;
    var t0, t1 := s.tStart.value, s.tEnd.value;
    var active := Active(session.tree, t0, t1);
    rows, shadow := [], 0.0;
    for i := 0 to |active|
      invariant rows == Mapped(active[..i], session.RowFor(s))
      invariant shadow == SumOver(active[..i], ShareOf(t0, t1))
    {
      Prefix(active, i);
      var span := active[i];
      var l1Share := WallShare(span, t0, t1);
      shadow := shadow + l1Share;
      rows := rows + [AllocRow(span.spanId, OverlapMs(span.tStart, span.tEnd, t0, t1) as real,
                               At(p.sampleCpuMs, span.spanId), At(p.sampleJ, span.spanId),
                               Scale(energyJ, l1Share), false)];
    }
    assert active[..|active|] == active;
  }

  method RemoteRows(spans: seq<Span>, t0: int, t1: int) returns (rows: seq<AllocRow>)
    ensures rows == Mapped(Overlapping(Remotes(spans), t0, t1), RemoteRow(t0, t1))
  {
    var remote := Remotes(spans);
    rows := [];
    for i := 0 to |remote|
      invariant rows == Mapped(Overlapping(remote[..i], t0, t1), RemoteRow(t0, t1))
    {
      Prefix(remote, i);
      if remote[i].Overlaps(t0, t1) {
        var kept := Overlapping(remote[..i], t0, t1);
        assert Overlapping(remote[..i + 1], t0, t1) == kept + [remote[i]];
        assert (kept + [remote[i]])[..|kept|] == kept;
        rows := rows + [RemoteRow(t0, t1)(remote[i])];
      }
    }
    assert remote[..|remote|] == remote;
  }

  // ---- the whole session ------------------------------------------------------------------------------------

  function AsWindow(p: ProcessSample): Window {
    if p.Usable() then Window(p.tStart.value, p.tEnd.value, p.processes) else Window(0, 0, [])
  }

  ghost function UsableWindows(procs: seq<ProcessSample>): (ws: seq<Window>)
    ensures PositiveLength(ws)
  {
    if procs == [] then []
    else
      var p := procs[|procs| - 1];
      UsableWindows(procs[..|procs| - 1]) + if p.Usable() then [AsWindow(p)] else []
  }

  method ParseWindows(procs: seq<ProcessSample>) returns (windows: seq<Window>, skipped: nat)
    ensures windows == UsableWindows(procs)
    ensures skipped == CountOver(procs, (p: ProcessSample) => !p.Usable())
  {
    windows, skipped := [], 0;
    for i := 0 to |procs|
      invariant windows == UsableWindows(procs[..i])
      invariant skipped == CountOver(procs[..i], (p: ProcessSample) => !p.Usable())
    {
      Prefix(procs, i);
      if procs[i].Usable() {
        windows := windows + [AsWindow(procs[i])];
      } else {
        skipped := skipped + 1;
      }
    }
    assert procs[..|procs|] == procs;
  }

  /** The span ids of `spans` that some parsed, positive-length sample overlaps. */
  ghost function SeenIds(spans: seq<Span>, samples: seq<EnergySample>): set<SpanId> {
    if samples == [] then {}
    else SeenIds(spans, samples[..|samples| - 1]) + NewlySeen(spans, samples[|samples| - 1])
  }

  /** The ids one sample adds to the distinct spans seen. */
  function NewlySeen(spans: seq<Span>, s: EnergySample): set<SpanId> {
    if s.Parsed() && s.tStart.value < s.tEnd.value
    then IdsOf(Overlapping(spans, s.tStart.value, s.tEnd.value)) else {}
  }

  /** `out` accounts for `samples`: every joule placed where the policy puts it, every sample counted once. */
  ghost predicate Accounts(out: Apportionment, session: Session, samples: seq<EnergySample>, skippedProcs: nat)
    requires session.Valid()
  {
    && (forall id :: At(out.perSpanJ, id) == SumOver(samples, session.PaidTo(id)))
    && out.orphanedJ == SumOver(samples, session.OrphanedOf())
    && out.baselineIdleJ == SumOver(samples, session.BaselineOf())
    && out.TotalJ() == SumOver(samples, session.EnteringOf())
    && out.perSpanJ.Keys <= IdsOf(Attributable(session.tree.spans))
    && Counts(out, session, samples, skippedProcs)
  }

  ghost predicate Counts(out: Apportionment, session: Session, samples: seq<EnergySample>, skippedProcs: nat)
    requires session.Valid()
  {
    && out.samplesL2 == CountOver(samples, session.Judged(ByCpuTime))
    && out.samplesL1 == CountOver(samples, session.Judged(ByWallClock))
    && out.degenerateSamples == CountOver(samples, session.Judged(Degenerate))
    && out.skippedEvents == skippedProcs + CountOver(samples, session.Judged(Unparsed))
    && out.unobservedProcessWindows == CountOver(samples, session.UnobservedIn())
  }

  /** `after` is `before` with one more sample placed. */
  ghost predicate AddsSample(before: Apportionment, after: Apportionment, session: Session, s: EnergySample)
    requires session.Valid()
  {
    && (forall id :: At(after.perSpanJ, id) == At(before.perSpanJ, id) + session.Paid(s, id))
    && after.orphanedJ == before.orphanedJ + session.Orphaned(s)
    && after.baselineIdleJ == before.baselineIdleJ + session.Baseline(s)
    && after.TotalJ() == before.TotalJ() + session.Entering(s)
    && after.perSpanJ.Keys <= before.perSpanJ.Keys + IdsOf(Attributable(session.tree.spans))
    && CountsSample(before, after, session, s)
  }

  ghost predicate CountsSample(before: Apportionment, after: Apportionment, session: Session, s: EnergySample)
    requires session.Valid()
  {
    && after.samplesL2 == before.samplesL2 + (if session.Judge(s) == ByCpuTime then 1 else 0)
    && after.samplesL1 == before.samplesL1 + (if session.Judge(s) == ByWallClock then 1 else 0)
    && after.degenerateSamples == before.degenerateSamples + (if session.Judge(s) == Degenerate then 1 else 0)
    && after.skippedEvents == before.skippedEvents + (if session.Judge(s) == Unparsed then 1 else 0)
    && after.unobservedProcessWindows == before.unobservedProcessWindows + (if session.Unobserved(s) then 1 else 0)
  }

  lemma AccountsMore(before: Apportionment, after: Apportionment, session: Session, samples: seq<EnergySample>,
                     i: nat, skippedProcs: nat)
    requires session.Valid() && i < |samples|
    requires Accounts(before, session, samples[..i], skippedProcs) && AddsSample(before, after, session, samples[i])
    ensures Accounts(after, session, samples[..i + 1], skippedProcs)
  {
    hide MapSum, Session.Paid, Session.Orphaned, Session.Baseline, Session.Entering, Session.Judge,
         Session.Unobserved, IdsOf, Attributable, Apportionment.TotalJ, At;
    Prefix(samples, i);
  }

  lemma ActiveIds(session: Session, t0: int, t1: int)
    ensures IdsOf(Active(session.tree, t0, t1)) <= IdsOf(Attributable(session.tree.spans))
  {
    var active, all := Active(session.tree, t0, t1), Attributable(session.tree.spans);
    forall id | id in IdsOf(active) ensures id in IdsOf(all) {
      var i :| 0 <= i < |active| && active[i].spanId == id;
      assert active[i] in all;
      var j :| 0 <= j < |all| && all[j] == active[i];
      assert all[j].spanId == id;
    }
  }

  /** A degenerate sample is booked as baseline and divided by nothing. */
  lemma AddsDegenerate(before: Apportionment, after: Apportionment, session: Session, s: EnergySample)
    requires session.Valid() && s.Parsed() && s.tEnd.value <= s.tStart.value
    requires after == before.(degenerateSamples := before.degenerateSamples + 1,
                              baselineIdleJ := before.baselineIdleJ + SampleEnergy(s))
    ensures AddsSample(before, after, session, s)
  {
    hide MapSum, SampleEnergy, IdsOf, Attributable, At;
    assert session.Judge(s) == Degenerate;
  }

  /** A placed sample moves the tallies by exactly what was placed. */
  lemma AddsPlaced(before: Apportionment, after: Apportionment, session: Session, s: EnergySample,
                   p: Placement, unobserved: bool)
    requires session.Valid() && s.Parsed() && s.tStart.value < s.tEnd.value
    requires PlacedBy(session, s, before.perSpanJ, p) && (unobserved <==> session.Unobserved(s))
    requires after == before.(
               perSpanJ := p.perSpanJ,
               orphanedJ := before.orphanedJ + p.orphanedJ,
               baselineIdleJ := before.baselineIdleJ + p.baselineJ,
               samplesL2 := before.samplesL2 + if p.policy == Some(L2CpuTime) then 1 else 0,
               samplesL1 := before.samplesL1 + if p.policy == Some(L1WallClock) then 1 else 0,
               unobservedProcessWindows := before.unobservedProcessWindows + if unobserved then 1 else 0)
    ensures AddsSample(before, after, session, s)
  {
    assert session.Judge(s) != Degenerate && session.Judge(s) != Unparsed;
    hide MapSum, SampleEnergy, IdsOf, Attributable, At, Session.Judge, Session.Paid, Session.CpuMs, Session.Orphaned,
         Session.Baseline, Session.Unobserved;
    ActiveIds(session, s.tStart.value, s.tEnd.value);
  }

  // ---- a trace against its own total ------------------------------------------------------------------------

  function AllocatedOf(): AllocRow -> real { (row: AllocRow) => row.allocatedJ }

  /** Row `i` shows an id that an earlier paid row already shows. */
  ghost predicate Repeats(rows: seq<AllocRow>, i: nat)
    requires i < |rows|
  {
    !rows[i].excluded && exists j :: 0 <= j < i && !rows[j].excluded && rows[j].spanId == rows[i].spanId
  }

  /** What the rows that repeat an id show a second time. */
  ghost function RepeatedJ(rows: seq<AllocRow>): real {
    if rows == [] then 0.0
    else
      var n := |rows| - 1;
      RepeatedJ(rows[..n]) + if Repeats(rows, n) then rows[n].allocatedJ else 0.0
  }

  /** The trace places its whole sample, counting each id once. */
  ghost predicate Balances(trace: SampleTrace) {
    SumOver(trace.rows, AllocatedOf()) + trace.orphanedJ + trace.baselineJ == trace.totalJ + RepeatedJ(trace.rows)
  }

  /** The ids of the rows that are not excluded. */
  ghost function PaidIds(rows: seq<AllocRow>): set<SpanId> {
    set i | 0 <= i < |rows| && !rows[i].excluded :: rows[i].spanId
  }

  /** Excluded rows show nothing, every other row what `m` holds for its id. */
  ghost predicate ReadsFrom(rows: seq<AllocRow>, m: map<SpanId, real>) {
    forall i :: 0 <= i < |rows| ==> rows[i].allocatedJ == if rows[i].excluded then 0.0 else At(m, rows[i].spanId)
  }

  /** Rows add up to the map they are read from, plus whatever repeated ids show again. */
  lemma {:induction false} RowTotals(rows: seq<AllocRow>, m: map<SpanId, real>)
    requires ReadsFrom(rows, m)
    ensures SumOver(rows, AllocatedOf()) == MapSum(Only(m, PaidIds(rows))) + RepeatedJ(rows)
  {
    if rows == [] {
      assert Only(m, PaidIds(rows)) == map[];
    } else {
      var n := |rows| - 1;
      var before, row := rows[..n], rows[n];
      RowTotals(before, m);
      RowIds(rows, m);
    }
  }

  lemma RowIds(rows: seq<AllocRow>, m: map<SpanId, real>)
    requires rows != [] && ReadsFrom(rows, m)
    ensures var n := |rows| - 1;
            MapSum(Only(m, PaidIds(rows))) - MapSum(Only(m, PaidIds(rows[..n])))
            == if Repeats(rows, n) then 0.0 else rows[n].allocatedJ
  {
    var n := |rows| - 1;
    var before, row := PaidIds(rows[..n]), rows[n];
    assert PaidIds(rows) == if row.excluded then before else before + {row.spanId} by {
      assert forall i :: 0 <= i < n ==> rows[..n][i] == rows[i];
      assert row.excluded || row.spanId in PaidIds(rows);
      forall id | id in before ensures id in PaidIds(rows) {
        var i :| 0 <= i < n && !rows[..n][i].excluded && rows[..n][i].spanId == id;
        assert !rows[i].excluded && rows[i].spanId == id;
      }
    }
    assert Repeats(rows, n) <==> !row.excluded && row.spanId in before by {
      assert forall i :: 0 <= i < n ==> rows[..n][i] == rows[i];
    }
    if !row.excluded {
      if row.spanId in before {
        assert before + {row.spanId} == before;
      } else if row.spanId in m {
        OnlyAdds(m, before, row.spanId);
        MapSumUpdate(Only(m, before), row.spanId, m[row.spanId]);
      } else {
        assert Only(m, before + {row.spanId}) == Only(m, before);
      }
    }
  }

  lemma RowsRead(remote: seq<AllocRow>, rows: seq<AllocRow>, active: seq<Span>, m: map<SpanId, real>)
    requires |rows| == |active|
    requires forall i :: 0 <= i < |remote| ==> remote[i].excluded && remote[i].allocatedJ == 0.0
    requires forall i :: 0 <= i < |rows| ==> !rows[i].excluded && rows[i].spanId == active[i].spanId
                                             && rows[i].allocatedJ == At(m, active[i].spanId)
    ensures ReadsFrom(remote + rows, m) && IdsOf(active) <= PaidIds(remote + rows)
  {
    hide At;
    forall i | 0 <= i < |active| ensures active[i].spanId in PaidIds(remote + rows) {
      assert (remote + rows)[|remote| + i] == rows[i];
    }
  }

  lemma TraceBalances(session: Session, s: EnergySample, before: map<SpanId, real>, p: Placement, trace: SampleTrace)
    requires session.Valid() && s.Parsed() && s.tStart.value < s.tEnd.value
    requires PlacedBy(session, s, before, p)
    requires trace == session.TraceOf(trace.sampleIndex, s)
    ensures Balances(trace)
  {
    hide MapSum, Session.Judge, Session.Paid, Session.CpuMs, Session.Orphaned, Session.Baseline, SampleEnergy,
         Active, Remotes, Overlapping, Session.RootCpu, Mapped, At, SumOver, RepeatedJ, PaidIds, ReadsFrom, Only,
         IdsOf, Scale, ShareOf, OverlapMs;
    var t0, t1 := s.tStart.value, s.tEnd.value;
    var active := Active(session.tree, t0, t1);
    var remote := Mapped(Overlapping(Remotes(session.tree.spans), t0, t1), RemoteRow(t0, t1));
    var rows := Mapped(active, session.RowFor(s));
    RowsRead(remote, rows, active, p.sampleJ);
    RowTotals(remote + rows, p.sampleJ);
    OnlyAll(p.sampleJ, PaidIds(remote + rows));
  }

  /** Places one parsed sample and records the decision from the same values. */
  method ApportionSample(index: nat, s: EnergySample, session: Session, before: Apportionment)
    returns (after: Apportionment, trace: SampleTrace)
    requires session.Valid() && s.Parsed()
    ensures AddsSample(before, after, session, s)
    ensures trace == session.TraceOf(index, s) && Balances(trace)
  {
    var energyJ := SampleEnergyJ(s);
    var t0, t1 := s.tStart.value, s.tEnd.value;
    if t1 <= t0 {
      after := before.(degenerateSamples := before.degenerateSamples + 1,
                       baselineIdleJ := before.baselineIdleJ + energyJ);
      AddsDegenerate(before, after, session, s);
      trace := SampleTrace(index, energyJ, 0.0, None, [], 0.0, energyJ, 0.0, 0.0);
    } else {
      after, trace := ApportionWindow(index, s, session, before, energyJ);
    }
  }

  lemma PlacedMeans(session: Session, s: EnergySample, before: map<SpanId, real>, p: Placement)
    requires session.Valid() && s.Parsed() && s.tStart.value < s.tEnd.value && PlacedBy(session, s, before, p)
    ensures p.policy == PolicyOf(session.Judge(s)) && p.orphanedJ == session.Orphaned(s)
    ensures p.baselineJ == session.Baseline(s) && p.rootCpuMs == session.RootCpu(s)
  {
    hide SampleEnergy, Session.Judge, Session.Paid, Session.CpuMs, Session.Orphaned, Session.Baseline,
         Session.RootCpu, MapSum, At;
  }

  lemma PlacedTrace(index: nat, session: Session, s: EnergySample, before: map<SpanId, real>, p: Placement,
                    trace: SampleTrace)
    requires session.Valid() && s.Parsed() && s.tStart.value < s.tEnd.value && PlacedBy(session, s, before, p)
    requires var t0, t1 := s.tStart.value, s.tEnd.value;
             trace == SampleTrace(index, SampleEnergy(s), (t1 - t0) as real, p.policy,
                        Mapped(Overlapping(Remotes(session.tree.spans), t0, t1), RemoteRow(t0, t1))
                          + Mapped(Active(session.tree, t0, t1), session.RowFor(s)),
                        p.orphanedJ, p.baselineJ, WallShares(Active(session.tree, t0, t1), t0, t1), p.rootCpuMs)
    ensures trace == session.TraceOf(index, s) && Balances(trace)
  {
    hide PlacedBy, SampleEnergy, Balances, Active, Remotes, Overlapping, Mapped, WallShares;
    PlacedMeans(session, s, before, p);
    TraceBalances(session, s, before, p, trace);
  }

  /** Moves the session's tallies by what was placed. */
  method TallySample(session: Session, s: EnergySample, before: Apportionment, p: Placement)
    returns (after: Apportionment)
    requires session.Valid() && s.Parsed() && s.tStart.value < s.tEnd.value && PlacedBy(session, s, before.perSpanJ, p)
    ensures AddsSample(before, after, session, s)
  {
    var covering := Covering(session.windows, s.tStart.value, s.tEnd.value);
    var unobserved := covering != [] && forall i :: 0 <= i < |covering| ==> covering[i].processes == [];
    assert unobserved <==> session.Unobserved(s);
    hide *;
    after := before.(
      perSpanJ := p.perSpanJ,
      orphanedJ := before.orphanedJ + p.orphanedJ,
      baselineIdleJ := before.baselineIdleJ + p.baselineJ,
      samplesL2 := before.samplesL2 + if p.policy == Some(L2CpuTime) then 1 else 0,
      samplesL1 := before.samplesL1 + if p.policy == Some(L1WallClock) then 1 else 0,
      unobservedProcessWindows := before.unobservedProcessWindows + if unobserved then 1 else 0);
    AddsPlaced(before, after, session, s, p, unobserved);
  }

  method ApportionWindow(index: nat, s: EnergySample, session: Session, before: Apportionment, energyJ: real)
    returns (after: Apportionment, trace: SampleTrace)
    requires session.Valid() && s.Parsed() && s.tStart.value < s.tEnd.value && energyJ == SampleEnergy(s)
    ensures AddsSample(before, after, session, s)
    ensures trace == session.TraceOf(index, s) && Balances(trace)
  {
    var t0, t1 := s.tStart.value, s.tEnd.value;
    hide *;
    var remote := RemoteRows(session.tree.spans, t0, t1);
    var p := PlaceSample(before.perSpanJ, session, s, energyJ);
    var rows, shadow := ActiveRows(session, s, energyJ, p, before.perSpanJ);
    after := TallySample(session, s, before, p);
    trace := SampleTrace(index, energyJ, (t1 - t0) as real, p.policy, remote + rows, p.orphanedJ, p.baselineJ,
                         shadow, p.rootCpuMs);
    PlacedTrace(index, session, s, before.perSpanJ, p, trace);
  }

  lemma AddsUnparsed(before: Apportionment, session: Session, s: EnergySample)
    requires session.Valid() && !s.Parsed()
    ensures AddsSample(before, before.(skippedEvents := before.skippedEvents + 1), session, s)
  {
    hide MapSum;
  }

  lemma NothingNew(spans: seq<Span>, s: EnergySample)
    requires !s.Parsed()
    ensures NewlySeen(spans, s) == {}
  {
  }

  /** The distinct-span counters are apart from the joules. */
  lemma CountersApart(out: Apportionment, session: Session, samples: seq<EnergySample>, skippedProcs: nat,
                      remote: nat, degenerate: nat)
    requires session.Valid()
    ensures Accounts(out, session, samples, skippedProcs)
       <==> Accounts(out.(unmeasuredRemoteSpans := remote, degenerateSpans := degenerate), session, samples,
                     skippedProcs)
  {
  }

  lemma AccountsForNothing(session: Session, skippedProcs: nat)
    requires session.Valid()
    ensures Accounts(NOTHING_PLACED.(skippedEvents := skippedProcs), session, [], skippedProcs)
  {
  }

  lemma SeenMore(spans: seq<Span>, samples: seq<EnergySample>, i: nat)
    requires i < |samples|
    ensures SeenIds(spans, samples[..i + 1]) == SeenIds(spans, samples[..i]) + NewlySeen(spans, samples[i])
  {
    Prefix(samples, i);
  }

  /** Which process samples could not be used, and how many. */
  ghost function Skipped(procs: seq<ProcessSample>): nat { CountOver(procs, (p: ProcessSample) => !p.Usable()) }

  ghost function SessionOf(procs: seq<ProcessSample>, tree: SessionTree): (session: Session)
    ensures session.Valid()
  {
    Session(UsableWindows(procs), tree)
  }

  lemma TracesMore(session: Session, samples: seq<EnergySample>, i: nat)
    requires session.Valid() && i < |samples|
    ensures session.Traces([]) == [] && samples[..0] == [] && samples[..|samples|] == samples
    ensures session.Traces(samples[..i + 1]) ==
            session.Traces(samples[..i]) + if samples[i].Parsed() then [session.TraceOf(i, samples[i])] else []
  {
    Prefix(samples, i);
    hide Session.TraceOf;
  }

  lemma NothingSeen(spans: seq<Span>, session: Session)
    requires session.Valid()
    ensures SeenIds(spans, []) == {} && session.Traces([]) == []
  {
  }

  /** Places a sample when it parsed and counts it as skipped when it did not. */
  method PlaceOrSkip(index: nat, s: EnergySample, session: Session, before: Apportionment)
    returns (after: Apportionment, traces: seq<SampleTrace>)
    requires session.Valid()
    ensures AddsSample(before, after, session, s)
    ensures traces == (if s.Parsed() then [session.TraceOf(index, s)] else []) && AllBalance(traces)
  {
    hide AddsSample, Session.TraceOf, Session.Valid, Balances;
    if s.Parsed() {
      var trace;
      after, trace := ApportionSample(index, s, session, before);
      traces := [trace];
    } else {
      AddsUnparsed(before, session, s);
      after, traces := before.(skippedEvents := before.skippedEvents + 1), [];
    }
  }

  ghost predicate AllBalance(traces: seq<SampleTrace>) { forall k :: 0 <= k < |traces| ==> Balances(traces[k]) }

  lemma AllBalanceMore(traces: seq<SampleTrace>, more: seq<SampleTrace>)
    requires AllBalance(traces) && AllBalance(more)
    ensures AllBalance(traces + more)
  {
  }

  /**
   Apportions a session's samples over its spans. The aggregate accounts for every sample, and the
   traces are the decisions themselves, one per sample that entered the join.
   */
  method Run(samples: seq<EnergySample>, procs: seq<ProcessSample>, tree: SessionTree)
    returns (out: Apportionment, traces: seq<SampleTrace>)
    ensures Accounts(out, SessionOf(procs, tree), samples, Skipped(procs))
    ensures traces == SessionOf(procs, tree).Traces(samples) && AllBalance(traces)
    ensures out.unmeasuredRemoteSpans == |SeenIds(Remotes(tree.spans), samples)|
    ensures out.degenerateSpans == |SeenIds(Degenerates(tree.spans), samples)|
  {
    var windows, skipped := ParseWindows(procs);
    var session := Session(windows, tree);
    assert session == SessionOf(procs, tree) && session.Valid() && skipped == Skipped(procs);
    hide *;
    var remoteSeen, degenerateSeen;
    out, traces, remoteSeen, degenerateSeen :=
      PlaceAll(samples, session, skipped, Remotes(tree.spans), Degenerates(tree.spans));
    CountersApart(out, session, samples, skipped, |remoteSeen|, |degenerateSeen|);
    out := out.(unmeasuredRemoteSpans := |remoteSeen|, degenerateSpans := |degenerateSeen|);
  }

  /** Places the samples in order, and notes which of the spans that are never paid they overlap. */
  method PlaceAll(samples: seq<EnergySample>, session: Session, skipped: nat, remote: seq<Span>, degenerate: seq<Span>)
    returns (out: Apportionment, traces: seq<SampleTrace>, remoteSeen: set<SpanId>, degenerateSeen: set<SpanId>)
    requires session.Valid()
    ensures Accounts(out, session, samples, skipped)
    ensures traces == session.Traces(samples) && AllBalance(traces)
    ensures remoteSeen == SeenIds(remote, samples) && degenerateSeen == SeenIds(degenerate, samples)
  {
    remoteSeen, degenerateSeen, out, traces := {}, {}, NOTHING_PLACED.(skippedEvents := skipped), [];
    AccountsForNothing(session, skipped);
    NothingSeen(remote, session);
    NothingSeen(degenerate, session);
    assert samples[..0] == [] && samples[..|samples|] == samples;
    hide *;
    AllBalanceEmpty();
    for i := 0 to |samples|
      invariant Accounts(out, session, samples[..i], skipped)
      invariant traces == session.Traces(samples[..i]) && AllBalance(traces)
      invariant remoteSeen == SeenIds(remote, samples[..i])
      invariant degenerateSeen == SeenIds(degenerate, samples[..i])
    {
      TracesMore(session, samples, i);
      SeenMore(remote, samples, i);
      SeenMore(degenerate, samples, i);
      var after, decided := PlaceOrSkip(i, samples[i], session, out);
      AllBalanceMore(traces, decided);
      AccountsMore(out, after, session, samples, i, skipped);
      out, traces := after, traces + decided;
      if samples[i].Parsed() {
        remoteSeen := remoteSeen + NewlySeen(remote, samples[i]);
        degenerateSeen := degenerateSeen + NewlySeen(degenerate, samples[i]);
      } else {
        NothingNew(remote, samples[i]);
        NothingNew(degenerate, samples[i]);
      }
    }
  }

  lemma AllBalanceEmpty()
    ensures AllBalance([])
  {
  }
}
