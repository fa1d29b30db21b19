/**
 Laws of the apportionment policy, over every sample, process sample and tree: how a payment is
 bounded, what it depends on, and how the traces relate to the aggregate.
 */
module AttributionLaws {
  import opened Prelude
  import opened Attribution

  // ---- bounds -----------------------------------------------------------------------------------

  lemma {:induction false} TallyAtMost<K(!new), V(!new)>(m: map<K, V>, f: (K, V) -> real, g: (K, V) -> real)
    requires forall k, v :: 0.0 <= f(k, v) <= g(k, v)
    ensures 0.0 <= Tally(m, f) <= Tally(m, g)
    decreases |m|
  {
    if m != map[] {
      var k :| k in m;
      var rest := m - {k};
      assert rest.Keys == m.Keys - {k} && m == rest[k := m[k]];
      TallyAtMost(rest, f, g);
      TallyAdd(rest, k, m[k], f);
      TallyAdd(rest, k, m[k], g);
    } else {
      assert Tally(m, f) == 0.0 && Tally(m, g) == 0.0;
    }
  }

  lemma {:induction false} SumAtMost<T(!new)>(xs: seq<T>, f: T -> real, g: T -> real)
    requires forall x :: 0.0 <= f(x) <= g(x)
    ensures 0.0 <= SumOver(xs, f) <= SumOver(xs, g)
  {
    if xs != [] {
      SumAtMost(xs[..|xs| - 1], f, g);
    }
  }

  lemma {:induction false} TimesGrows(a: nat, b: nat, x: real)
    requires a <= b && 0.0 <= x
    ensures 0.0 <= Times(a, x) <= Times(b, x)
    decreases b
  {
    if a < b {
      TimesGrows(a, b - 1, x);
    } else if a > 0 {
      TimesGrows(a - 1, b - 1, x);
    }
  }

  lemma FractionBounds(w: Window, t0: int, t1: int)
    requires w.tStart < w.tEnd
    ensures 0.0 <= Fraction(w, t0, t1)
  {
  }

  lemma ShareBounds(c: Claims, fraction: real, pid: int, entry: PidEntry, id: SpanId)
    requires 0.0 <= fraction
    ensures 0.0 <= c.SpanShare(fraction, id)(pid, entry) <= WholeDelta(fraction)(pid, entry)
    ensures 0.0 <= c.OrphanShare(fraction)(pid, entry) <= WholeDelta(fraction)(pid, entry)
  {
    var share := c.Share(fraction, pid, entry);
    assert 0.0 <= share by {
      NonNegativeShare(entry.cpuMs, fraction, c.Claimants(pid) + if c.ToOrphan(pid, entry) then 1 else 0);
    }
    SharesAddUp(c, fraction, pid, entry);
    TimesGrows(c.Of(id, pid), c.Claimants(pid), share);
  }

  lemma NonNegativeShare(cpuMs: nat, fraction: real, parts: nat)
    requires 0.0 <= fraction && parts > 0
    ensures 0.0 <= EqualShare(cpuMs, fraction, parts)
  {
    assert 0.0 <= cpuMs as real * fraction;
  }

  /** No weight is negative, and none exceeds the cpu time observed. */
  lemma {:induction false} WeightBounds(ws: seq<Window>, c: Claims, t0: int, t1: int, id: SpanId)
    requires PositiveLength(ws)
    ensures 0.0 <= SpanWeight(ws, c, t0, t1, id) <= ObservedWeight(ws, t0, t1)
    ensures 0.0 <= OrphanWeight(ws, c, t0, t1) <= ObservedWeight(ws, t0, t1)
  {
    if ws != [] {
      var n := |ws| - 1;
      WeightBounds(ws[..n], c, t0, t1, id);
      var fraction, table := Fraction(ws[n], t0, t1), PidTable(ws[n].processes);
      FractionBounds(ws[n], t0, t1);
      forall pid: int, entry: PidEntry
        ensures 0.0 <= c.SpanShare(fraction, id)(pid, entry) <= WholeDelta(fraction)(pid, entry)
        ensures 0.0 <= c.OrphanShare(fraction)(pid, entry) <= WholeDelta(fraction)(pid, entry)
      {
        ShareBounds(c, fraction, pid, entry, id);
      }
      TallyAtMost(table, c.SpanShare(fraction, id), WholeDelta(fraction));
      TallyAtMost(table, c.OrphanShare(fraction), WholeDelta(fraction));
    }
  }

  lemma RateBounds(energy: real, part: real, whole: real, cap: real)
    requires 0.0 <= energy && 0.0 <= part <= whole <= cap && 0.0 < cap
    ensures 0.0 <= Scale(energy / cap, part) <= Scale(energy / cap, whole) <= energy
  {
    var rate := energy / cap;
    assert rate * cap == energy;
    assert 0.0 <= rate;
    assert rate * part <= rate * whole <= rate * cap;
  }

  /**
   For a sample of non-negative energy, every payment and the baseline lie between zero and the whole
   sample. In an L2 window the payment is the weight times energy / max(W, C); in an L1 window the
   wall-clock share times energy / max(1, sum of shares).
   */
  lemma PaymentBounds(session: Session, s: EnergySample, id: SpanId)
    requires session.Valid() && 0.0 <= SampleEnergy(s)
    ensures 0.0 <= session.Paid(s, id) <= SampleEnergy(s)
    ensures 0.0 <= session.Orphaned(s) <= SampleEnergy(s)
    ensures 0.0 <= session.Baseline(s) <= SampleEnergy(s)
  {
    if session.Judge(s) == ByCpuTime {
      CpuPaymentBounds(session, s, id);
    } else if session.Judge(s) == ByWallClock {
      WallPaymentBounds(session, s, id);
    }
  }

  lemma CpuPaymentBounds(session: Session, s: EnergySample, id: SpanId)
    requires session.Valid() && 0.0 <= SampleEnergy(s) && session.Judge(s) == ByCpuTime
    ensures 0.0 <= session.Paid(s, id) <= SampleEnergy(s)
    ensures 0.0 <= session.Orphaned(s) <= SampleEnergy(s)
    ensures 0.0 <= session.Baseline(s) <= SampleEnergy(s)
  {
    var t0, t1 := s.tStart.value, s.tEnd.value;
    var covering, claims := Covering(session.windows, t0, t1),
                         Claims(Active(session.tree, t0, t1), session.tree.rootPids);
    var observed := ObservedWeight(covering, t0, t1);
    WeightBounds(covering, claims, t0, t1, id);
    ScaleAdd(0.0, 0.0, 0.0);
    assert session.CpuRate(s) == if observed > 0.0 then SampleEnergy(s) / MaxR(observed, (t1 - t0) as real) else 0.0;
    hide SampleEnergy, SpanWeight, OrphanWeight, ObservedWeight, Covering, Active;
    if observed > 0.0 {
      var cap := MaxR(observed, (t1 - t0) as real);
      RateBounds(SampleEnergy(s), SpanWeight(covering, claims, t0, t1, id), observed, cap);
      RateBounds(SampleEnergy(s), OrphanWeight(covering, claims, t0, t1), observed, cap);
    }
  }

  lemma WallPaymentBounds(session: Session, s: EnergySample, id: SpanId)
    requires session.Valid() && 0.0 <= SampleEnergy(s) && session.Judge(s) == ByWallClock
    ensures 0.0 <= session.Paid(s, id) <= SampleEnergy(s)
    ensures 0.0 <= session.Baseline(s) <= SampleEnergy(s)
  {
    var t0, t1 := s.tStart.value, s.tEnd.value;
    var active := Active(session.tree, t0, t1);
    SumAtMost(active, IdShareOf(t0, t1, id), ShareOf(t0, t1));
    hide SampleEnergy, SumOver, Active;
    RateBounds(SampleEnergy(s), IdWallShares(active, t0, t1, id), WallShares(active, t0, t1),
               MaxR(1.0, WallShares(active, t0, t1)));
  }

  // ---- who is paid ------------------------------------------------------------------------------

  lemma {:induction false} SumOfZeros<T(!new)>(xs: seq<T>, f: T -> real)
    requires forall i :: 0 <= i < |xs| ==> f(xs[i]) == 0.0
    ensures SumOver(xs, f) == 0.0
  {
    if xs != [] {
      SumOfZeros(xs[..|xs| - 1], f);
    }
  }

  lemma {:induction false} TallyOfZeros<K(!new), V(!new)>(m: map<K, V>, f: (K, V) -> real)
    requires forall k, v :: f(k, v) == 0.0
    ensures Tally(m, f) == 0.0
  {
    TallyAtMost(m, f, f);
    if m != map[] {
      var k :| k in m;
      var rest := m - {k};
      assert rest.Keys == m.Keys - {k} && m == rest[k := m[k]];
      TallyOfZeros(rest, f);
      TallyAdd(rest, k, m[k], f);
    }
  }

  /** A span id that no active span carries has no weight. */
  lemma {:induction false} InactiveWeightless(ws: seq<Window>, c: Claims, t0: int, t1: int, id: SpanId)
    requires PositiveLength(ws) && id !in IdsOf(c.active)
    ensures SpanWeight(ws, c, t0, t1, id) == 0.0
  {
    if ws != [] {
      var n := |ws| - 1;
      InactiveWeightless(ws[..n], c, t0, t1, id);
      var f := c.SpanShare(Fraction(ws[n], t0, t1), id);
      forall pid: int, entry: PidEntry ensures f(pid, entry) == 0.0 {
        ClaimantsAreActive(c.active, pid, c.rootPids);
        assert forall i :: 0 <= i < |c.active| ==> c.active[i].spanId in IdsOf(c.active);
        var ids := ClaimantIds(c.active, pid, c.rootPids);
        assert id !in ids && id !in multiset(ids);
      }
      TallyOfZeros(PidTable(ws[n].processes), f);
    }
  }

  /** Only ids of attributable spans open during the sample are paid out of it. */
  lemma InactiveUnpaid(session: Session, s: EnergySample, id: SpanId)
    requires session.Valid()
    requires s.Parsed() && s.tStart.value < s.tEnd.value ==>
               id !in IdsOf(Active(session.tree, s.tStart.value, s.tEnd.value))
    ensures session.Paid(s, id) == 0.0
  {
    ScaleAdd(if session.Judge(s) == ByWallClock then session.WallRate(s) else 0.0, 0.0, 0.0);
    if session.Judge(s) == ByCpuTime {
      var t0, t1 := s.tStart.value, s.tEnd.value;
      ScaleAdd(session.CpuRate(s), 0.0, 0.0);
      InactiveWeightless(Covering(session.windows, t0, t1), Claims(Active(session.tree, t0, t1), session.tree.rootPids),
                         t0, t1, id);
    } else if session.Judge(s) == ByWallClock {
      var t0, t1 := s.tStart.value, s.tEnd.value;
      SumOfZeros(Active(session.tree, t0, t1), IdShareOf(t0, t1, id));
    }
  }

  /** No remote or zero-length span ever receives joules: an id only such spans carry is worth nothing. */
  lemma NeverPaid(out: Apportionment, session: Session, samples: seq<EnergySample>, skippedProcs: nat, id: SpanId)
    requires session.Valid() && Accounts(out, session, samples, skippedProcs)
    requires forall span :: span in session.tree.spans && span.spanId == id ==>
               span.locus == Remote || span.tEnd <= span.tStart
    ensures At(out.perSpanJ, id) == 0.0
  {
    var all := Attributable(session.tree.spans);
    forall i | 0 <= i < |all| ensures all[i].spanId != id {
      assert all[i] in session.tree.spans && all[i].IsAttributable();
    }
    assert id !in IdsOf(all);
  }

  // ---- traces and aggregate -----------------------------------------------------------------------

  /** The joules a trace shows for a span id: what any of its paid rows for that id says. */
  ghost function ShownJ(rows: seq<AllocRow>, id: SpanId): real {
    if id in PaidIds(rows)
    then var i :| 0 <= i < |rows| && !rows[i].excluded && rows[i].spanId == id; rows[i].allocatedJ
    else 0.0
  }

  /** Rows that all show `v` for `id` show `v`, after any number of excluded rows. */
  lemma ShownInRows(remote: seq<AllocRow>, rows: seq<AllocRow>, active: seq<Span>, id: SpanId, v: real)
    requires |rows| == |active| && forall i :: 0 <= i < |remote| ==> remote[i].excluded
    requires forall i :: 0 <= i < |rows| ==> !rows[i].excluded && rows[i].spanId == active[i].spanId
    requires forall i :: 0 <= i < |rows| && active[i].spanId == id ==> rows[i].allocatedJ == v
    ensures ShownJ(remote + rows, id) == if id in IdsOf(active) then v else 0.0
  {
    var all := remote + rows;
    assert forall i :: 0 <= i < |remote| ==> all[i].excluded;
    forall i | 0 <= i < |active| ensures !all[|remote| + i].excluded && active[i].spanId in PaidIds(all) {
      assert all[|remote| + i] == rows[i];
    }
  }

  lemma ShownIsPaid(session: Session, s: EnergySample, index: nat, id: SpanId)
    requires session.Valid() && s.Parsed()
    ensures ShownJ(session.TraceOf(index, s).rows, id) == session.Paid(s, id)
  {
    if s.tStart.value < s.tEnd.value {
      hide Session.Paid, Session.CpuMs, Session.Judge, Session.Orphaned, Session.Baseline, Session.RootCpu, ShownJ,
           Active, Overlapping, Remotes, Mapped, Scale, SampleEnergy, OverlapMs, ShareOf, IdsOf;
      var t0, t1 := s.tStart.value, s.tEnd.value;
      var active := Active(session.tree, t0, t1);
      var remote := Mapped(Overlapping(Remotes(session.tree.spans), t0, t1), RemoteRow(t0, t1));
      ShownInRows(remote, Mapped(active, session.RowFor(s)), active, id, session.Paid(s, id));
      if id !in IdsOf(active) {
        InactiveUnpaid(session, s, id);
      }
    }
  }

  ghost function ShownBy(id: SpanId): SampleTrace -> real { (trace: SampleTrace) => ShownJ(trace.rows, id) }

  ghost function OrphanedIn(): SampleTrace -> real { (trace: SampleTrace) => trace.orphanedJ }

  ghost function BaselineIn(): SampleTrace -> real { (trace: SampleTrace) => trace.baselineJ }

  /** A reading of the traces that agrees with the policy sample by sample has the policy's sum. */
  lemma {:induction false} TracesSum(session: Session, samples: seq<EnergySample>, g: SampleTrace -> real,
                                     f: EnergySample -> real)
    requires session.Valid()
    requires forall index: nat, s: EnergySample :: s.Parsed() ==> g(session.TraceOf(index, s)) == f(s)
    requires forall s: EnergySample :: !s.Parsed() ==> f(s) == 0.0
    ensures SumOver(session.Traces(samples), g) == SumOver(samples, f)
  {
    hide Session.TraceOf;
    if samples != [] {
      var n := |samples| - 1;
      var traces := session.Traces(samples[..n]);
      TracesSum(session, samples[..n], g, f);
      if samples[n].Parsed() {
        var trace := session.TraceOf(n, samples[n]);
        SumAppend(traces, trace, g);
        assert session.Traces(samples) == traces + [trace];
      } else {
        assert session.Traces(samples) == traces;
      }
    }
  }

  /** Every sample that entered the join left exactly one trace. */
  lemma {:induction false} OneTraceEach(session: Session, samples: seq<EnergySample>)
    requires session.Valid()
    ensures |session.Traces(samples)| == CountOver(samples, (s: EnergySample) => s.Parsed())
  {
    if samples != [] {
      OneTraceEach(session, samples[..|samples| - 1]);
    }
  }

  lemma UnparsedPlacesNothing(session: Session, s: EnergySample, id: SpanId)
    requires session.Valid() && !s.Parsed()
    ensures session.Paid(s, id) == session.Orphaned(s) == session.Baseline(s) == 0.0
  {
  }

  lemma OneTrace(session: Session, s: EnergySample, index: nat)
    requires session.Valid() && s.Parsed()
    ensures session.TraceOf(index, s).orphanedJ == session.Orphaned(s)
    ensures session.TraceOf(index, s).baselineJ == session.Baseline(s)
  {
  }

  /** Summed over the traces, each id's rows, the orphan bucket and the baseline are the aggregate's own. */
  lemma TracesAgree(out: Apportionment, session: Session, samples: seq<EnergySample>, skippedProcs: nat, id: SpanId)
    requires session.Valid() && Accounts(out, session, samples, skippedProcs)
    ensures SumOver(session.Traces(samples), ShownBy(id)) == At(out.perSpanJ, id)
    ensures SumOver(session.Traces(samples), OrphanedIn()) == out.orphanedJ
    ensures SumOver(session.Traces(samples), BaselineIn()) == out.baselineIdleJ
  {
    hide Session.TraceOf, Session.Paid, Session.Orphaned, Session.Baseline, ShownJ, SumOver, MapSum;
    forall index: nat, s: EnergySample | s.Parsed()
      ensures ShownBy(id)(session.TraceOf(index, s)) == session.PaidTo(id)(s)
      ensures OrphanedIn()(session.TraceOf(index, s)) == session.OrphanedOf()(s)
      ensures BaselineIn()(session.TraceOf(index, s)) == session.BaselineOf()(s)
    {
      ShownIsPaid(session, s, index, id);
      OneTrace(session, s, index);
    }
    forall s: EnergySample | !s.Parsed()
      ensures session.PaidTo(id)(s) == session.OrphanedOf()(s) == session.BaselineOf()(s) == 0.0
    {
      UnparsedPlacesNothing(session, s, id);
    }
    TracesSum(session, samples, ShownBy(id), session.PaidTo(id));
    TracesSum(session, samples, OrphanedIn(), session.OrphanedOf());
    TracesSum(session, samples, BaselineIn(), session.BaselineOf());
  }

  // ---- what apportionment depends on ---------------------------------------------------------------

  /** Fewer rows, no longer deltas and no more orphan tags. */
  lemma TableGrows(a: seq<ProcessDelta>, b: seq<ProcessDelta>, pid: int)
    requires forall i :: 0 <= i < |a| ==> a[i] in b
    requires pid in PidTable(a)
    ensures pid in PidTable(b) && PidTable(a)[pid].cpuMs <= PidTable(b)[pid].cpuMs
    ensures PidTable(a)[pid].orphan ==> PidTable(b)[pid].orphan
  {
    PidTableMeaning(a, pid);
    PidTableMeaning(b, pid);
    hide PidTable;
    var i :| 0 <= i < |a| && a[i].pid == pid && a[i].cpuMs == PidTable(a)[pid].cpuMs;
    var j :| 0 <= j < |b| && b[j] == a[i];
    if PidTable(a)[pid].orphan {
      var k :| 0 <= k < |a| && a[k].pid == pid && a[k].orphanTagged;
      var l :| 0 <= l < |b| && b[l] == a[k];
      assert b[l].pid == pid && b[l].orphanTagged;
    }
  }

  /** Rows in another order describe the same pids. */
  lemma TableIgnoresOrder(a: seq<ProcessDelta>, b: seq<ProcessDelta>)
    requires multiset(a) == multiset(b)
    ensures PidTable(a) == PidTable(b)
  {
    forall i | 0 <= i < |a| ensures a[i] in b { assert a[i] in multiset(b); }
    forall i | 0 <= i < |b| ensures b[i] in a { assert b[i] in multiset(a); }
    hide PidTable;
    forall pid: int
      ensures (pid in PidTable(a) <==> pid in PidTable(b))
              && (pid in PidTable(a) ==> PidTable(a)[pid] == PidTable(b)[pid])
    {
      if pid in PidTable(a) { TableGrows(a, b, pid); }
      if pid in PidTable(b) { TableGrows(b, a, pid); }
    }
  }

  /** A row that reports no more than its pid's longest delta, and no orphan tag the pid lacks, adds nothing:
      a repeated row is one, a shorter untagged row another. */
  lemma TableIgnoresShorterRow(rows: seq<ProcessDelta>, row: ProcessDelta)
    requires exists i :: 0 <= i < |rows| && rows[i].pid == row.pid && row.cpuMs <= rows[i].cpuMs
    requires row.orphanTagged ==> exists i :: 0 <= i < |rows| && rows[i].pid == row.pid && rows[i].orphanTagged
    ensures PidTable(rows + [row]) == PidTable(rows)
  {
    PidTableMeaning(rows, row.pid);
    assert (rows + [row])[..|rows|] == rows;
    assert PidTable(rows)[row.pid := PidTable(rows)[row.pid]] == PidTable(rows);
  }

  /** Window by window, the same bounds and the same pid table. */
  ghost predicate Alike(a: seq<Window>, b: seq<Window>) {
    && |a| == |b|
    && forall i :: 0 <= i < |a| ==> a[i].tStart == b[i].tStart && a[i].tEnd == b[i].tEnd
                                    && PidTable(a[i].processes) == PidTable(b[i].processes)
  }

  lemma {:induction false} WeightsAlike(a: seq<Window>, b: seq<Window>, c: Claims, t0: int, t1: int, id: SpanId)
    requires PositiveLength(a) && PositiveLength(b) && Alike(a, b)
    ensures SpanWeight(a, c, t0, t1, id) == SpanWeight(b, c, t0, t1, id)
    ensures OrphanWeight(a, c, t0, t1) == OrphanWeight(b, c, t0, t1)
    ensures RootWeight(a, c, t0, t1) == RootWeight(b, c, t0, t1)
    ensures ObservedWeight(a, t0, t1) == ObservedWeight(b, t0, t1)
  {
    hide Tally, PidTable;
    if a != [] {
      WeightsAlike(a[..|a| - 1], b[..|b| - 1], c, t0, t1, id);
    }
  }

  lemma {:induction false} CoveringAlike(a: seq<Window>, b: seq<Window>, t0: int, t1: int)
    requires Alike(a, b)
    ensures Alike(Covering(a, t0, t1), Covering(b, t0, t1))
  {
    hide PidTable;
    if a != [] {
      var n := |a| - 1;
      CoveringAlike(a[..n], b[..n], t0, t1);
    }
  }

  /** Sessions whose process windows agree up to their pid tables treat every sample the same way. */
  lemma PolicyAlike(a: Session, b: Session, s: EnergySample, id: SpanId)
    requires a.Valid() && b.Valid() && a.tree == b.tree && Alike(a.windows, b.windows)
    ensures a.Judge(s) == b.Judge(s)
    ensures a.Paid(s, id) == b.Paid(s, id)
    ensures a.Orphaned(s) == b.Orphaned(s)
    ensures a.Baseline(s) == b.Baseline(s)
  {
    hide SpanWeight, OrphanWeight, RootWeight, ObservedWeight, Covering, Active, SampleEnergy, Scale, PidTable,
         WallShares, IdWallShares;
    if s.Parsed() && s.tStart.value < s.tEnd.value {
      var t0, t1 := s.tStart.value, s.tEnd.value;
      CoveringAlike(a.windows, b.windows, t0, t1);
      var ca, cb := Covering(a.windows, t0, t1), Covering(b.windows, t0, t1);
      WeightsAlike(ca, cb, Claims(Active(a.tree, t0, t1), a.tree.rootPids), t0, t1, id);
      assert ca == [] <==> cb == [];
      assert a.Judge(s) == b.Judge(s);
      hide Alike, Session.Judge;
      assert a.Judge(s) == ByCpuTime ==> a.CpuRate(s) == b.CpuRate(s);
      assert a.WallRate(s) == b.WallRate(s);
      hide Session.CpuRate, Session.WallRate;
    }
  }

  lemma {:induction false} SumsAgree<T(!new)>(xs: seq<T>, f: T -> real, g: T -> real)
    requires forall x :: f(x) == g(x)
    ensures SumOver(xs, f) == SumOver(xs, g)
  {
    if xs != [] {
      SumsAgree(xs[..|xs| - 1], f, g);
    }
  }

  /** Apportionment reads process rows only through each pid's longest delta and orphan tag. */
  lemma DependsOnTablesOnly(outA: Apportionment, outB: Apportionment, a: Session, b: Session,
                            samples: seq<EnergySample>, skippedA: nat, skippedB: nat, id: SpanId)
    requires a.Valid() && b.Valid() && a.tree == b.tree && Alike(a.windows, b.windows)
    requires Accounts(outA, a, samples, skippedA) && Accounts(outB, b, samples, skippedB)
    ensures At(outA.perSpanJ, id) == At(outB.perSpanJ, id)
    ensures outA.orphanedJ == outB.orphanedJ && outA.baselineIdleJ == outB.baselineIdleJ
  {
    hide Session.Paid, Session.Orphaned, Session.Baseline, Session.Judge, Alike, SumOver, MapSum, At;
    forall s: EnergySample
      ensures a.PaidTo(id)(s) == b.PaidTo(id)(s)
      ensures a.OrphanedOf()(s) == b.OrphanedOf()(s)
      ensures a.BaselineOf()(s) == b.BaselineOf()(s)
    {
      PolicyAlike(a, b, s, id);
    }
    SumsAgree(samples, a.PaidTo(id), b.PaidTo(id));
    SumsAgree(samples, a.OrphanedOf(), b.OrphanedOf());
    SumsAgree(samples, a.BaselineOf(), b.BaselineOf());
  }

  // ---- a trace against its own total -----------------------------------------------------------------

  /** What the module promises of a trace: its rows, the orphans and the baseline are the whole sample. */
  ghost predicate Conserves(trace: SampleTrace) {
    SumOver(trace.rows, AllocatedOf()) + trace.orphanedJ + trace.baselineJ == trace.totalJ
  }

  /** Rows of one sign cannot cancel: what they repeat is nothing only when every repeat is. */
  lemma {:induction false} RepeatsCost(rows: seq<AllocRow>, negative: bool)
    requires forall i :: 0 <= i < |rows| ==> if negative then rows[i].allocatedJ <= 0.0 else 0.0 <= rows[i].allocatedJ
    ensures if negative then RepeatedJ(rows) <= 0.0 else 0.0 <= RepeatedJ(rows)
    ensures RepeatedJ(rows) == 0.0 <==> forall i :: 0 <= i < |rows| && Repeats(rows, i) ==> rows[i].allocatedJ == 0.0
  {
    if rows != [] {
      var n := |rows| - 1;
      RepeatsCost(rows[..n], negative);
      forall i | 0 <= i < n ensures Repeats(rows[..n], i) <==> Repeats(rows, i) {
        if Repeats(rows, i) {
          var j :| 0 <= j < i && !rows[j].excluded && rows[j].spanId == rows[i].spanId;
          assert !rows[..n][j].excluded && rows[..n][j].spanId == rows[..n][i].spanId;
        }
        if Repeats(rows[..n], i) {
          var j :| 0 <= j < i && !rows[..n][j].excluded && rows[..n][j].spanId == rows[..n][i].spanId;
          assert !rows[j].excluded && rows[j].spanId == rows[i].spanId;
        }
      }
    }
  }

  lemma {:induction false} OneShareCounts(active: seq<Span>, t0: int, t1: int, i: nat)
    requires t0 < t1 && i < |active|
    requires forall k :: 0 <= k < |active| ==> active[k].IsAttributable() && active[k].Overlaps(t0, t1)
    ensures 0.0 < SumOver(active, IdShareOf(t0, t1, active[i].spanId))
  {
    var n, f := |active| - 1, IdShareOf(t0, t1, active[i].spanId);
    assert 0.0 < f(active[i]);
    assert 0.0 <= f(active[n]);
    hide WallShare, OverlapMs, IdShareOf;
    if i < n {
      assert active[..n][i] == active[i];
      OneShareCounts(active[..n], t0, t1, i);
    } else {
      SumAtMost(active[..n], f, f);
    }
  }

  lemma SignedScale(energy: real, cap: real, w: real)
    requires 0.0 < cap && 0.0 <= w
    ensures Scale(energy / cap, w) == 0.0 <==> energy == 0.0 || w == 0.0
    ensures 0.0 <= energy ==> 0.0 <= Scale(energy / cap, w)
    ensures energy <= 0.0 ==> Scale(energy / cap, w) <= 0.0
  {
    var rate := energy / cap;
    assert rate * cap == energy;
    ProductSign(rate, cap);
    ProductSign(rate, w);
  }

  lemma ProductSign(a: real, b: real)
    requires 0.0 <= b
    ensures a * b == 0.0 <==> a == 0.0 || b == 0.0
    ensures 0.0 <= a ==> 0.0 <= a * b
    ensures a <= 0.0 ==> a * b <= 0.0
  {
  }

  /** An active span of a sample with energy goes unpaid exactly when cpu time divided the sample and it had none. */
  lemma UnpaidIff(session: Session, s: EnergySample, i: nat)
    requires session.Valid() && SampleEnergy(s) != 0.0 && s.Parsed() && s.tStart.value < s.tEnd.value
    requires i < |Active(session.tree, s.tStart.value, s.tEnd.value)|
    ensures var id := Active(session.tree, s.tStart.value, s.tEnd.value)[i].spanId;
            session.Paid(s, id) == 0.0 <==> session.Judge(s) == ByCpuTime && session.CpuMs(s, id) == 0.0
  {
    var t0, t1 := s.tStart.value, s.tEnd.value;
    var active := Active(session.tree, t0, t1);
    var id := active[i].spanId;
    assert session.Judge(s) == ByCpuTime || session.Judge(s) == ByWallClock;
    if session.Judge(s) == ByCpuTime {
      var covering, claims := Covering(session.windows, t0, t1), Claims(active, session.tree.rootPids);
      WeightBounds(covering, claims, t0, t1, id);
      UnpaidByCpu(session, s, SpanWeight(covering, claims, t0, t1, id));
    } else {
      forall k | 0 <= k < |active| ensures active[k].IsAttributable() && active[k].Overlaps(t0, t1) {
        assert active[k] in active;
      }
      OneShareCounts(active, t0, t1, i);
      SignedScale(SampleEnergy(s), MaxR(1.0, WallShares(active, t0, t1)), IdWallShares(active, t0, t1, id));
    }
  }

  lemma UnpaidByCpu(session: Session, s: EnergySample, w: real)
    requires session.Valid() && session.Judge(s) == ByCpuTime && 0.0 <= w
    ensures session.Observed(s) > 0.0 ==> (Scale(session.CpuRate(s), w) == 0.0 <==> SampleEnergy(s) == 0.0 || w == 0.0)
    ensures session.Observed(s) <= 0.0 ==> Scale(session.CpuRate(s), w) == 0.0
    ensures 0.0 <= SampleEnergy(s) ==> 0.0 <= Scale(session.CpuRate(s), w)
    ensures SampleEnergy(s) <= 0.0 ==> Scale(session.CpuRate(s), w) <= 0.0
  {
    assert s.Parsed() && s.tStart.value < s.tEnd.value;
    hide Session.Judge, SampleEnergy, ObservedWeight, Covering;
    var t0, t1 := s.tStart.value, s.tEnd.value;
    if session.Observed(s) > 0.0 {
      SignedScale(SampleEnergy(s), MaxR(session.Observed(s), (t1 - t0) as real), w);
    }
  }

  /** A payment has the sign of its sample's energy. */
  lemma PaidSign(session: Session, s: EnergySample, id: SpanId)
    requires session.Valid()
    ensures 0.0 <= SampleEnergy(s) ==> 0.0 <= session.Paid(s, id)
    ensures SampleEnergy(s) <= 0.0 ==> session.Paid(s, id) <= 0.0
  {
    hide SampleEnergy;
    if session.Judge(s) == ByCpuTime {
      CpuSign(session, s, id);
    } else if session.Judge(s) == ByWallClock {
      WallSign(session, s, id);
    }
  }

  lemma CpuSign(session: Session, s: EnergySample, id: SpanId)
    requires session.Valid() && session.Judge(s) == ByCpuTime
    ensures 0.0 <= SampleEnergy(s) ==> 0.0 <= session.Paid(s, id)
    ensures SampleEnergy(s) <= 0.0 ==> session.Paid(s, id) <= 0.0
  {
    assert s.Parsed();
    var t0, t1 := s.tStart.value, s.tEnd.value;
    var covering, claims := Covering(session.windows, t0, t1),
                         Claims(Active(session.tree, t0, t1), session.tree.rootPids);
    hide SampleEnergy, Session.CpuRate, SpanWeight, Active;
    WeightBounds(covering, claims, t0, t1, id);
    UnpaidByCpu(session, s, SpanWeight(covering, claims, t0, t1, id));
  }

  lemma WallSign(session: Session, s: EnergySample, id: SpanId)
    requires session.Valid() && session.Judge(s) == ByWallClock
    ensures 0.0 <= SampleEnergy(s) ==> 0.0 <= session.Paid(s, id)
    ensures SampleEnergy(s) <= 0.0 ==> session.Paid(s, id) <= 0.0
  {
    assert s.Parsed() && s.tStart.value < s.tEnd.value;
    var t0, t1 := s.tStart.value, s.tEnd.value;
    var active := Active(session.tree, t0, t1);
    SumAtMost(active, IdShareOf(t0, t1, id), ShareOf(t0, t1));
    hide SampleEnergy, SumOver, Active;
    SignedScale(SampleEnergy(s), MaxR(1.0, WallShares(active, t0, t1)), IdWallShares(active, t0, t1, id));
  }

  /** `r` excluded rows, and then one for each active span in order. */
  ghost predicate Lined(rows: seq<AllocRow>, r: nat, active: seq<Span>) {
    && |rows| == r + |active|
    && (forall k :: 0 <= k < r ==> rows[k].excluded)
    && forall k :: 0 <= k < |active| ==> rows[r + k].spanId == active[k].spanId && !rows[r + k].excluded
  }

  /** The rows of a positive-length sample: the excluded ones, then one for each active span in order. */
  lemma RowsOf(session: Session, s: EnergySample, index: nat) returns (r: nat)
    requires session.Valid() && s.Parsed() && s.tStart.value < s.tEnd.value
    ensures var rows, active := session.TraceOf(index, s).rows, Active(session.tree, s.tStart.value, s.tEnd.value);
            && |rows| == r + |active| && Lined(rows, r, active)
            && (forall i :: 0 <= i < r ==> rows[i].excluded && rows[i].allocatedJ == 0.0)
            && forall k :: 0 <= k < |active| ==> rows[r + k].allocatedJ == session.Paid(s, active[k].spanId)
  {
    hide Session.Paid, Session.CpuMs, Session.Judge, Session.Orphaned, Session.Baseline, Session.RootCpu,
         Active, Overlapping, Remotes, Scale, SampleEnergy, OverlapMs, ShareOf, WallShares, Lined;
    var t0, t1 := s.tStart.value, s.tEnd.value;
    var active := Active(session.tree, t0, t1);
    var remote := Mapped(Overlapping(Remotes(session.tree.spans), t0, t1), RemoteRow(t0, t1));
    var mine := Mapped(active, session.RowFor(s));
    r := |remote|;
    assert session.TraceOf(index, s).rows == remote + mine;
    hide Session.TraceOf;
    RowsShow(remote, mine, active, session, s);
  }

  lemma RowsShow(remote: seq<AllocRow>, mine: seq<AllocRow>, active: seq<Span>, session: Session, s: EnergySample)
    requires session.Valid() && s.Parsed() && s.tStart.value < s.tEnd.value
    requires forall i :: 0 <= i < |remote| ==> remote[i].excluded && remote[i].allocatedJ == 0.0
    requires |mine| == |active| && forall k :: 0 <= k < |active| ==> mine[k] == session.RowFor(s)(active[k])
    ensures Lined(remote + mine, |remote|, active)
    ensures forall i :: 0 <= i < |remote| ==> (remote + mine)[i].excluded && (remote + mine)[i].allocatedJ == 0.0
    ensures forall k :: 0 <= k < |active| ==>
              (remote + mine)[|remote| + k].allocatedJ == session.Paid(s, active[k].spanId)
  {
    hide Session.Paid, Session.CpuMs, SampleEnergy, OverlapMs, ShareOf, Scale;
    var rows := remote + mine;
    forall k | 0 <= k < |active|
      ensures rows[|remote| + k].spanId == active[k].spanId && !rows[|remote| + k].excluded
      ensures rows[|remote| + k].allocatedJ == session.Paid(s, active[k].spanId)
    {
      assert rows[|remote| + k] == mine[k];
    }
  }

  /** Span id `id` is worth nothing in a sample with energy: cpu time divides it, and the id has none. */
  ghost predicate Costless(session: Session, s: EnergySample, id: SpanId)
    requires session.Valid()
  {
    session.Judge(s) == ByCpuTime && session.CpuMs(s, id) == 0.0
  }

  /** No two spans active in the sample share an id that is worth anything. */
  ghost predicate RepeatsCostless(session: Session, s: EnergySample)
    requires session.Valid() && s.Parsed()
  {
    var active := Active(session.tree, s.tStart.value, s.tEnd.value);
    forall i, j :: 0 <= j < i < |active| && active[j].spanId == active[i].spanId
        ==> Costless(session, s, active[i].spanId)
  }

  /** No two spans active in the sample share an id. */
  ghost predicate DistinctActive(session: Session, s: EnergySample)
    requires s.Parsed()
  {
    var active := Active(session.tree, s.tStart.value, s.tEnd.value);
    forall i, j :: 0 <= j < i < |active| ==> active[j].spanId != active[i].spanId
  }

  /** A row repeats an id exactly when its span follows another active span with that id. */
  lemma RepeatsAre(rows: seq<AllocRow>, r: nat, active: seq<Span>, i: nat)
    requires Lined(rows, r, active) && i < |rows|
    ensures Repeats(rows, i) <==> r <= i && exists j :: 0 <= j < i - r && active[j].spanId == active[i - r].spanId
  {
    if Repeats(rows, i) {
      var j :| 0 <= j < i && !rows[j].excluded && rows[j].spanId == rows[i].spanId;
      assert rows[j] == rows[r + (j - r)] && rows[i] == rows[r + (i - r)];
      assert active[j - r].spanId == active[i - r].spanId;
    }
    if r <= i {
      if j :| 0 <= j < i - r && active[j].spanId == active[i - r].spanId {
        assert !rows[r + j].excluded && rows[r + j].spanId == rows[r + (i - r)].spanId;
      }
    }
  }

  /** Nothing is shown twice exactly when no repeated id is worth anything. */
  lemma RepeatedIff(session: Session, s: EnergySample, index: nat)
    requires session.Valid() && s.Parsed() && s.tStart.value < s.tEnd.value && SampleEnergy(s) != 0.0
    ensures RepeatedJ(session.TraceOf(index, s).rows) == 0.0 <==> RepeatsCostless(session, s)
  {
    var rows, active := session.TraceOf(index, s).rows, Active(session.tree, s.tStart.value, s.tEnd.value);
    var r := RowsOf(session, s, index);
    hide Session.TraceOf, Session.Paid, Session.CpuMs, Session.Judge, SampleEnergy, Active,
         Repeats, RepeatedJ, Costless;
    forall i | 0 <= i < |rows|
      ensures if SampleEnergy(s) < 0.0 then rows[i].allocatedJ <= 0.0 else 0.0 <= rows[i].allocatedJ
    {
      if i >= r {
        assert rows[i] == rows[r + (i - r)];
        PaidSign(session, s, active[i - r].spanId);
      }
    }
    RepeatsCost(rows, SampleEnergy(s) < 0.0);
    RepeatsPaid(session, s, rows, r, active);
  }

  lemma RepeatsPaid(session: Session, s: EnergySample, rows: seq<AllocRow>, r: nat, active: seq<Span>)
    requires session.Valid() && s.Parsed() && s.tStart.value < s.tEnd.value && SampleEnergy(s) != 0.0
    requires active == Active(session.tree, s.tStart.value, s.tEnd.value) && Lined(rows, r, active)
    requires forall k :: 0 <= k < |active| ==> rows[r + k].allocatedJ == session.Paid(s, active[k].spanId)
    ensures (forall i :: 0 <= i < |rows| && Repeats(rows, i) ==> rows[i].allocatedJ == 0.0)
              <==> RepeatsCostless(session, s)
  {
    hide Session.Paid, Session.CpuMs, Session.Judge, SampleEnergy, Active, Repeats;
    forall k | 0 <= k < |active|
      ensures rows[r + k].allocatedJ == 0.0 <==> Costless(session, s, active[k].spanId)
    {
      UnpaidIff(session, s, k);
    }
    hide Costless, Lined;
    forall i | 0 <= i < |rows| ensures Repeats(rows, i) <==>
      r <= i && exists j :: 0 <= j < i - r && active[j].spanId == active[i - r].spanId
    {
      RepeatsAre(rows, r, active, i);
    }
    if forall i :: 0 <= i < |rows| && Repeats(rows, i) ==> rows[i].allocatedJ == 0.0 {
      forall i, j | 0 <= j < i < |active| && active[j].spanId == active[i].spanId
        ensures Costless(session, s, active[i].spanId)
      {
        assert active[j].spanId == active[(r + i) - r].spanId;
        assert Repeats(rows, r + i);
      }
    }
    if RepeatsCostless(session, s) {
      forall i | 0 <= i < |rows| && Repeats(rows, i) ensures rows[i].allocatedJ == 0.0 {
        var j :| 0 <= j < i - r && active[j].spanId == active[i - r].spanId;
        assert rows[i] == rows[r + (i - r)];
      }
    }
  }

  /**
   Rows are looked up by span id, so two active spans with one id both show the merged amount. Told from
   the spans, windows and sample alone: a trace adds up to its sample if and only if the sample is
   degenerate, carries no energy, or divides by cpu time an id any two active spans share has none of.
   */
  lemma TraceConservesIff(session: Session, s: EnergySample, index: nat)
    requires session.Valid() && s.Parsed() && Balances(session.TraceOf(index, s))
    ensures Conserves(session.TraceOf(index, s)) <==>
              s.tEnd.value <= s.tStart.value || SampleEnergy(s) == 0.0 || RepeatsCostless(session, s)
  {
    var rows := session.TraceOf(index, s).rows;
    if s.tEnd.value <= s.tStart.value {
      assert rows == [] && RepeatedJ(rows) == 0.0;
    } else if SampleEnergy(s) == 0.0 {
      NothingRepeated(session, s, index);
    } else {
      RepeatedIff(session, s, index);
    }
  }

  lemma NothingRepeated(session: Session, s: EnergySample, index: nat)
    requires session.Valid() && s.Parsed() && s.tStart.value < s.tEnd.value && SampleEnergy(s) == 0.0
    ensures RepeatedJ(session.TraceOf(index, s).rows) == 0.0
  {
    var rows, active := session.TraceOf(index, s).rows, Active(session.tree, s.tStart.value, s.tEnd.value);
    var r := RowsOf(session, s, index);
    hide Session.TraceOf, Session.Paid, Session.CpuMs, Session.Judge, SampleEnergy, Active, Repeats, RepeatedJ;
    forall i | 0 <= i < |rows| ensures rows[i].allocatedJ == 0.0 {
      if i >= r {
        assert rows[i] == rows[r + (i - r)];
        PaidSign(session, s, active[i - r].spanId);
      }
    }
    RepeatsCost(rows, false);
  }

  /** With distinct active ids the rows, the orphans and the baseline of a trace are exactly its sample. */
  lemma DistinctIdsConserve(session: Session, s: EnergySample, index: nat)
    requires session.Valid() && s.Parsed() && Balances(session.TraceOf(index, s)) && DistinctActive(session, s)
    ensures Conserves(session.TraceOf(index, s))
  {
    hide Session.TraceOf, Balances, Conserves, SampleEnergy, Active;
    TraceConservesIff(session, s, index);
  }

  /** Each trace of a run is its sample's. */
  lemma {:induction false} TraceIsSamples(session: Session, samples: seq<EnergySample>, k: nat)
    requires session.Valid() && k < |session.Traces(samples)|
    ensures var trace := session.Traces(samples)[k];
            && trace.sampleIndex < |samples| && samples[trace.sampleIndex].Parsed()
            && trace == session.TraceOf(trace.sampleIndex, samples[trace.sampleIndex])
  {
    hide Session.Judge, Session.Orphaned, Session.Baseline, Session.RootCpu, SampleEnergy, WallShares;
    var n := |samples| - 1;
    if k < |session.Traces(samples[..n])| {
      TraceIsSamples(session, samples[..n], k);
    }
  }

  /** What a run promises of its traces: each adds up to its sample exactly when the sample's spans and windows
      allow it, and always when its active ids are distinct. */
  lemma RunTracesConserve(session: Session, samples: seq<EnergySample>, traces: seq<SampleTrace>, k: nat)
    requires session.Valid() && traces == session.Traces(samples) && AllBalance(traces) && k < |traces|
    ensures traces[k].sampleIndex < |samples| && samples[traces[k].sampleIndex].Parsed()
    ensures var s := samples[traces[k].sampleIndex];
            && (Conserves(traces[k]) <==>
                  s.tEnd.value <= s.tStart.value || SampleEnergy(s) == 0.0 || RepeatsCostless(session, s))
            && (DistinctActive(session, s) ==> Conserves(traces[k]))
  {
    TraceIsSamples(session, samples, k);
    var s := samples[traces[k].sampleIndex];
    assert Balances(traces[k]);
    hide Session.TraceOf, Session.Traces, Balances, Conserves, SampleEnergy, Active;
    TraceConservesIff(session, s, traces[k].sampleIndex);
    if DistinctActive(session, s) {
      DistinctIdsConserve(session, s, traces[k].sampleIndex);
    }
  }

  lemma Twice<T(!new), R>(x: T, keep: T -> bool, f: T -> real, g: T -> R)
    ensures Filter([x, x], keep) == if keep(x) then [x, x] else []
    ensures SumOver([x, x], f) == f(x) + f(x)
    ensures Mapped([x, x], g) == [g(x), g(x)]
  {
    assert [x, x][..1] == [x] && [x][..0] == [];
    assert Filter([x], keep) == if keep(x) then [x] else [];
    assert SumOver([x], f) == f(x);
  }

  /** One wall-clock sample of 7 J, and two spans open for all of it under one id. */
  const TWIN := Span("a", "Bash", Local, 0, 10, [], None)
  const TWIN_SAMPLE := EnergySample(Some(0), Some(10), [Component(Total, 7.0)])
  const TWIN_SESSION := Session([], SessionTree([TWIN, TWIN], [], 0))

  lemma TwinEnergy()
    ensures SampleEnergy(TWIN_SAMPLE) == 7.0
  {
    assert TWIN_SAMPLE.components[0].kind == Total;
    assert TWIN_SAMPLE.components[..0] == [];
  }

  lemma TwinSpans()
    ensures Active(TWIN_SESSION.tree, 0, 10) == [TWIN, TWIN] && Remotes(TWIN_SESSION.tree.spans) == []
  {
    Twice(TWIN, (x: Span) => x.IsAttributable(), ShareOf(0, 10), ShareOf(0, 10));
    Twice(TWIN, (x: Span) => x.Overlaps(0, 10), ShareOf(0, 10), ShareOf(0, 10));
    Twice(TWIN, (x: Span) => x.locus == Remote, ShareOf(0, 10), ShareOf(0, 10));
    hide SumOver;
  }

  lemma TwinsActive()
    ensures Active(TWIN_SESSION.tree, 0, 10) == [TWIN, TWIN] && Remotes(TWIN_SESSION.tree.spans) == []
    ensures TWIN_SESSION.Judge(TWIN_SAMPLE) == ByWallClock
    ensures SampleEnergy(TWIN_SAMPLE) == 7.0
  {
    TwinSpans();
    TwinEnergy();
    hide SampleEnergy, Active, Remotes;
  }

  lemma TwinsPaid()
    ensures TWIN_SESSION.Paid(TWIN_SAMPLE, "a") == 7.0 && TWIN_SESSION.Baseline(TWIN_SAMPLE) == 0.0
  {
    TwinsActive();
    hide Active, SampleEnergy, Session.Judge, Remotes;
    Twice(TWIN, (x: Span) => true, ShareOf(0, 10), ShareOf(0, 10));
    Twice(TWIN, (x: Span) => true, IdShareOf(0, 10, "a"), ShareOf(0, 10));
    assert WallShare(TWIN, 0, 10) == 1.0;
    hide SumOver;
    assert TWIN_SESSION.WallRate(TWIN_SAMPLE) == 3.5;
  }

  lemma TwinRows()
    ensures var row := TWIN_SESSION.RowFor(TWIN_SAMPLE)(TWIN);
            TWIN_SESSION.TraceOf(0, TWIN_SAMPLE).rows == [row, row]
  {
    TwinsActive();
    Twice(TWIN, (x: Span) => true, ShareOf(0, 10), TWIN_SESSION.RowFor(TWIN_SAMPLE));
    hide Session.Paid, Session.Baseline, Session.Orphaned, Session.RootCpu, SampleEnergy, Session.Judge,
         Active, Remotes,
         SumOver, Session.CpuMs, WallShares, Scale;
    assert Overlapping([], 0, 10) == [];
  }

  lemma TwinRow()
    ensures var trace := TWIN_SESSION.TraceOf(0, TWIN_SAMPLE);
            TWIN_SESSION.RowFor(TWIN_SAMPLE)(TWIN).allocatedJ == 7.0 && trace.baselineJ == 0.0 && trace.orphanedJ == 0.0
            && trace.totalJ == 7.0
  {
    TwinsActive();
    TwinsPaid();
    hide Session.Paid, Session.Baseline, Session.RootCpu, SampleEnergy, Session.Judge, Active, Remotes, SumOver,
         Session.CpuMs, WallShares, Overlapping, Mapped, Scale;
    assert TWIN.spanId == "a" && TWIN_SAMPLE.Parsed();
    assert TWIN_SESSION.RowFor(TWIN_SAMPLE)(TWIN).allocatedJ == TWIN_SESSION.Paid(TWIN_SAMPLE, TWIN.spanId);
  }

  /** Two active spans under one id: the rows show the merged joules twice, so they exceed the sample. */
  lemma RepeatedIdExample()
    ensures !Conserves(TWIN_SESSION.TraceOf(0, TWIN_SAMPLE))
  {
    hide Session.TraceOf, Session.RowFor, SumOver;
    var row := TWIN_SESSION.RowFor(TWIN_SAMPLE)(TWIN);
    TwinRows();
    TwinRow();
    Twice(row, (r: AllocRow) => true, AllocatedOf(), AllocatedOf());
  }
}
