/**
 The sampling sidecar: watched process trees, the window that is open, and the two kinds of event each
 window ends with. What the clock, the tracker and the process table answer is part of the input.
 */
module Sampler {
  import opened Prelude

  const ORPHAN_TAIL_S := 60.0
  const KWH_TO_J := 3600000.0

  // ---- what the environment answers -----------------------------------------------------------------------

  datatype Inspection = Failed | Seen(cpuSeconds: real, rssBytes: nat, alive: bool)

  datatype Key = Key(sessionId: string, spanId: string)

  /** What inspecting the `n`th pid of a watch says, this window. */
  type Inspector = (Key, nat) -> Inspection

  /** The tracker's energy fields, in kWh; a missing field reads as zero. */
  datatype Reading = Reading(cpu: real, ram: real, gpu: real, total: real)

  /** Component kinds a live tracker can name, with their methods. */
  type Methods = map<string, string>

  /** The answers one window boundary gets: clock readings, the tracker's reading, a rebuilt tracker, the next start. */
  datatype Boundary = Boundary(tEnd: real, now: real, inspect: Inspector, reading: Option<Reading>,
                               rebuilt: Option<Methods>, tOpen: real, startOk: bool)

  // ---- state --------------------------------------------------------------------------------------------------

  datatype Watch = Watch(key: Key, pids: seq<int>, lastCpu: map<int, real>, orphanSince: Option<real>)

  datatype Entry = Entry(pid: int, cpuMs: nat, rssBytes: nat, orphanOf: Option<string>)

  datatype Component = Component(kind: string, energyJ: real, tag: string)

  datatype Event =
    | EnergySample(sessionId: string, tStart: real, tEnd: real, components: seq<Component>)
    | ProcessSample(sessionId: string, tStart: real, tEnd: real, processes: seq<Entry>)

  datatype Window = Window(index: nat, tStart: real, measured: bool)

  /** A JSON field: not there, of the wrong type, or a string. */
  datatype Field = Absent | Unusable | Text(text: string)

  /** A control op. A watch carries what opening its spool file and reading its baselines will give. */
  datatype Op =
    | WatchOp(session: Field, span: Field, pids: Option<seq<int>>, opens: bool, baseline: nat -> Option<real>)
    | UnwatchOp(session: Field, span: Field, at: real)
    | RemoveSessionOp(session: Field)
    | Ping(id: string)
    | Shutdown
    | Unrecognised

  // ---- one watch ------------------------------------------------------------------------------------------------

  /** Rounds to the nearest integer, halves to the even one. */
  function Round(x: real): (r: int)
    ensures -0.5 <= r as real - x <= 0.5
    ensures x >= 0.0 ==> r >= 0
    ensures x == x.Floor as real + 0.5 ==> r % 2 == 0
  {
    var low := x.Floor;
    var over := x - low as real;
    if over < 0.5 || (over == 0.5 && low % 2 == 0) then low else low + 1
  }

  function DeltaMs(previous: real, cpu: real): (ms: nat) { Round(MaxR(0.0, cpu - previous) * 1000.0) }

  /** A watch part-way through being sampled. */
  datatype Sample = Sample(lastCpu: map<int, real>, entries: seq<Entry>, anyAlive: bool)

  function SampleOne(w: Watch, s: Sample, pid: int, seen: Inspection): Sample {
    if seen.Failed? || !seen.alive then s
    else
      var previous := if pid in s.lastCpu then s.lastCpu[pid] else seen.cpuSeconds;
      Sample(s.lastCpu[pid := seen.cpuSeconds],
             s.entries + [Entry(pid, DeltaMs(previous, seen.cpuSeconds), seen.rssBytes,
                                if w.orphanSince.Some? then Some(w.key.spanId) else None)],
             true)
  }

  ghost function Sampled(w: Watch, inspect: Inspector, n: nat): Sample
    requires n <= |w.pids|
  {
    if n == 0 then Sample(w.lastCpu, [], false)
    else SampleOne(w, Sampled(w, inspect, n - 1), w.pids[n - 1], inspect(w.key, n - 1))
  }

  /** Samples each pid of a watch once: the watch with its readings brought up to date, and an entry per live tree. */
  method SampleWatch(w: Watch, inspect: Inspector) returns (s: Sample)
    ensures s == Sampled(w, inspect, |w.pids|)
  {
    var lastCpu, entries, anyAlive := w.lastCpu, [], false;
    for i := 0 to |w.pids|
      invariant Sample(lastCpu, entries, anyAlive) == Sampled(w, inspect, i)
    {
      var pid := w.pids[i];
      var seen := inspect(w.key, i);
      if seen.Seen? && seen.alive {
        anyAlive := true;
        var previous := if pid in lastCpu then lastCpu[pid] else seen.cpuSeconds;
        lastCpu := lastCpu[pid := seen.cpuSeconds];
        var deltaMs := DeltaMs(previous, seen.cpuSeconds);
        entries := entries + [Entry(pid, deltaMs, seen.rssBytes,
                                    if w.orphanSince.Some? then Some(w.key.spanId) else None)];
      }
    }
    s := Sample(lastCpu, entries, anyAlive);
  }

  // ---- telescoping ------------------------------------------------------------------------------------------------

  ghost function ReportedMs(entries: seq<Entry>, pid: int): nat {
    if entries == [] then 0
    else
      var e := entries[|entries| - 1];
      ReportedMs(entries[..|entries| - 1], pid) + if e.pid == pid then e.cpuMs else 0
  }

  ghost function Reports(entries: seq<Entry>, pid: int): nat {
    if entries == [] then 0
    else Reports(entries[..|entries| - 1], pid) + if entries[|entries| - 1].pid == pid then 1 else 0
  }

  ghost predicate Baselined(w: Watch) { forall pid :: pid in w.pids ==> pid in w.lastCpu }

  /** The live readings of `pid` never fall below the one before. */
  ghost predicate Rising(w: Watch, inspect: Inspector, pid: int)
    requires Baselined(w)
  {
    forall n :: 0 <= n < |w.pids| && w.pids[n] == pid ==>
      var s := Sampled(w, inspect, n);
      var seen := inspect(w.key, n);
      seen.Seen? && seen.alive && pid in s.lastCpu ==> s.lastCpu[pid] <= seen.cpuSeconds
  }

  /** `ms` is within half a millisecond per report of the seconds from `start` to `end`. */
  predicate Tracks(ms: nat, reports: nat, start: real, end: real) {
    -(reports as real) <= 2.0 * (ms as real - 1000.0 * (end - start)) <= reports as real
  }

  predicate AtLeast(ms: nat, reports: nat, start: real, end: real) {
    -(reports as real) <= 2.0 * (ms as real - 1000.0 * (end - start))
  }

  lemma DeltaTracks(previous: real, cpu: real)
    ensures AtLeast(DeltaMs(previous, cpu), 1, previous, cpu)
    ensures previous <= cpu ==> Tracks(DeltaMs(previous, cpu), 1, previous, cpu)
  {
  }

  lemma ReportOne(entries: seq<Entry>, e: Entry, pid: int)
    ensures ReportedMs(entries + [e], pid) == ReportedMs(entries, pid) + if e.pid == pid then e.cpuMs else 0
    ensures Reports(entries + [e], pid) == Reports(entries, pid) + if e.pid == pid then 1 else 0
  {
    assert (entries + [e])[..|entries|] == entries;
  }

  lemma {:induction false} ReportMany(a: seq<Entry>, b: seq<Entry>, pid: int)
    ensures ReportedMs(a + b, pid) == ReportedMs(a, pid) + ReportedMs(b, pid)
    ensures Reports(a + b, pid) == Reports(a, pid) + Reports(b, pid)
  {
    if b == [] {
      assert a + b == a;
    } else {
      var n := |b| - 1;
      ReportMany(a, b[..n], pid);
      assert a + b == a + b[..n] + [b[n]];
      ReportOne(a + b[..n], b[n], pid);
    }
  }

  lemma {:induction false} WindowTelescopes(w: Watch, inspect: Inspector, pid: int, n: nat)
    requires n <= |w.pids| && Baselined(w) && pid in w.pids
    ensures var s := Sampled(w, inspect, n);
            && w.lastCpu.Keys <= s.lastCpu.Keys
            && AtLeast(ReportedMs(s.entries, pid), Reports(s.entries, pid), w.lastCpu[pid], s.lastCpu[pid])
            && (Rising(w, inspect, pid) ==>
                  Tracks(ReportedMs(s.entries, pid), Reports(s.entries, pid), w.lastCpu[pid], s.lastCpu[pid]))
  {
    if n > 0 {
      WindowTelescopes(w, inspect, pid, n - 1);
      var s, s' := Sampled(w, inspect, n - 1), Sampled(w, inspect, n);
      var seen, p := inspect(w.key, n - 1), w.pids[n - 1];
      if seen.Seen? && seen.alive {
        assert p in s.lastCpu;
        DeltaTracks(s.lastCpu[p], seen.cpuSeconds);
        hide DeltaMs;
        ReportOne(s.entries, s'.entries[|s.entries|], pid);
      }
    }
  }

  // ---- all watches ------------------------------------------------------------------------------------------------

  function TotalMs(entries: seq<Entry>): nat {
    if entries == [] then 0 else TotalMs(entries[..|entries| - 1]) + entries[|entries| - 1].cpuMs
  }

  function EntriesAt(m: map<string, seq<Entry>>, sid: string): seq<Entry> { if sid in m then m[sid] else [] }

  function CpuAt(m: map<string, nat>, sid: string): nat { if sid in m then m[sid] else 0 }

  /** What one window collects: the watches it keeps, and each session's entries and CPU total. */
  datatype Collection = Collection(kept: seq<Watch>, processes: map<string, seq<Entry>>, cpu: map<string, nat>)

  predicate Expired(w: Watch, now: real) { w.orphanSince.Some? && now - w.orphanSince.value >= ORPHAN_TAIL_S }

  function CollectOne(c: Collection, w: Watch, s: Sample): Collection {
    var sid := w.key.sessionId;
    Collection(if w.orphanSince.Some? && !s.anyAlive then c.kept else c.kept + [w.(lastCpu := s.lastCpu)],
               c.processes[sid := EntriesAt(c.processes, sid) + s.entries],
               c.cpu[sid := CpuAt(c.cpu, sid) + TotalMs(s.entries)])
  }

  ghost function Collected(outputs: seq<string>, watches: seq<Watch>, now: real, inspect: Inspector): Collection {
    if watches == [] then Collection([], map sid | sid in outputs :: [], map sid | sid in outputs :: 0)
    else
      var n := |watches| - 1;
      var c := Collected(outputs, watches[..n], now, inspect);
      if Expired(watches[n], now) then c else CollectOne(c, watches[n], Sampled(watches[n], inspect, |watches[n].pids|))
  }

  lemma {:induction false} TotalAppend(a: seq<Entry>, b: seq<Entry>)
    ensures TotalMs(a + b) == TotalMs(a) + TotalMs(b)
  {
    if b == [] {
      assert a + b == a;
    } else {
      var n := |b| - 1;
      TotalAppend(a, b[..n]);
      assert (a + b)[..|a| + n] == a + b[..n];
    }
  }

  function MsIn(): Entry -> real { (e: Entry) => e.cpuMs as real }

  lemma {:induction false} TotalIsSum(entries: seq<Entry>)
    ensures TotalMs(entries) as real == SumOver(entries, MsIn())
  {
    if entries != [] {
      TotalIsSum(entries[..|entries| - 1]);
    }
  }

  lemma {:induction false} CpuIsTotal(outputs: seq<string>, watches: seq<Watch>, now: real, inspect: Inspector,
                                      sid: string)
    ensures var c := Collected(outputs, watches, now, inspect);
            CpuAt(c.cpu, sid) == TotalMs(EntriesAt(c.processes, sid))
  {
    if watches != [] {
      var n := |watches| - 1;
      CpuIsTotal(outputs, watches[..n], now, inspect, sid);
      var c, s := Collected(outputs, watches[..n], now, inspect), Sampled(watches[n], inspect, |watches[n].pids|);
      hide Sampled, TotalMs;
      TotalAppend(EntriesAt(c.processes, sid), s.entries);
    } else {
      assert TotalMs([]) == 0;
    }
  }

  /** The CPU time energy is shared out by is all the CPU time the same window's process samples report. */
  lemma CpuIsReported(outputs: seq<string>, watches: seq<Watch>, now: real, inspect: Inspector, sid: string)
    ensures var c := Collected(outputs, watches, now, inspect);
            CpuAt(c.cpu, sid) as real == SumOver(EntriesAt(c.processes, sid), MsIn())
  {
    CpuIsTotal(outputs, watches, now, inspect, sid);
    TotalIsSum(EntriesAt(Collected(outputs, watches, now, inspect).processes, sid));
  }

  // ---- energy ---------------------------------------------------------------------------------------------------

  function Joules(kwh: real): real { MaxR(0.0, kwh) * KWH_TO_J }

  function TagOf(methods: Methods, kind: string): string { if kind in methods then methods[kind] else "other" }

  function Components(r: Reading, methods: Methods): seq<Component> {
    var gpuJ := Joules(r.gpu);
    [Component("cpu", Joules(r.cpu), TagOf(methods, "cpu")), Component("dram", Joules(r.ram), TagOf(methods, "dram"))] +
      (if "gpu" in methods || gpuJ > 0.0 then [Component("gpu", gpuJ, TagOf(methods, "gpu"))] else []) +
      [Component("total", Joules(r.total), TagOf(methods, "cpu"))]
  }

  function CpuTotal(cpu: map<string, nat>, sessions: seq<string>): nat {
    if sessions == [] then 0 else CpuTotal(cpu, sessions[..|sessions| - 1]) + CpuAt(cpu, sessions[|sessions| - 1])
  }

  /** A session's share of the machine: by CPU time, or evenly when nobody used any. */
  function ShareOf(cpu: map<string, nat>, sessions: seq<string>, sid: string): real
    requires sessions != []
  {
    var total := CpuTotal(cpu, sessions);
    if total > 0 then Scale(1.0 / total as real, CpuAt(cpu, sid) as real) else Scale(1.0 / |sessions| as real, 1.0)
  }

  function Sliced(components: seq<Component>, share: real): seq<Component> {
    Mapped(components, (c: Component) => c.(energyJ := Scale(c.energyJ, share)))
  }

  function EnergyEvents(sessions: seq<string>, components: seq<Component>, tStart: real, tEnd: real,
                        cpu: map<string, nat>): seq<Event>
  {
    if sessions == [] then []
    else Mapped(sessions, (sid: string) => EnergySample(sid, tStart, tEnd,
                                                                   Sliced(components, ShareOf(cpu, sessions, sid))))
  }

  function ProcessEvents(sessions: seq<string>, tStart: real, tEnd: real,
                         processes: map<string, seq<Entry>>): seq<Event> {
    Mapped(sessions, (sid: string) => ProcessSample(sid, tStart, tEnd, EntriesAt(processes, sid)))
  }

  lemma {:induction false} ScaledSum(xs: seq<string>, rate: real, f: string -> real, g: string -> real)
    requires forall x :: x in xs ==> g(x) == Scale(rate, f(x))
    ensures SumOver(xs, g) == Scale(rate, SumOver(xs, f))
  {
    hide Scale;
    ScaleAdd(rate, 0.0, 0.0);
    if xs != [] {
      var n := |xs| - 1;
      ScaledSum(xs[..n], rate, f, g);
      ScaleAdd(rate, SumOver(xs[..n], f), f(xs[n]));
    }
  }

  lemma {:induction false} CpuTotalIsSum(cpu: map<string, nat>, sessions: seq<string>)
    ensures SumOver(sessions, (sid: string) => CpuAt(cpu, sid) as real) == CpuTotal(cpu, sessions) as real
  {
    if sessions != [] {
      CpuTotalIsSum(cpu, sessions[..|sessions| - 1]);
    }
  }

  lemma {:induction false} OnesSum(sessions: seq<string>)
    ensures SumOver(sessions, (sid: string) => 1.0) == |sessions| as real
  {
    if sessions != [] {
      OnesSum(sessions[..|sessions| - 1]);
    }
  }

  lemma InverseScale(n: nat)
    requires n > 0
    ensures Scale(1.0 / n as real, n as real) == 1.0
  {
  }

  /** The shares of one window add up to the whole machine. */
  lemma SharesAreWhole(cpu: map<string, nat>, sessions: seq<string>)
    requires sessions != []
    ensures SumOver(sessions, (sid: string) => ShareOf(cpu, sessions, sid)) == 1.0
  {
    var total := CpuTotal(cpu, sessions);
    var share := (sid: string) => ShareOf(cpu, sessions, sid);
    if total > 0 {
      CpuTotalIsSum(cpu, sessions);
      ScaledSum(sessions, 1.0 / total as real, (sid: string) => CpuAt(cpu, sid) as real, share);
      InverseScale(total);
    } else {
      OnesSum(sessions);
      ScaledSum(sessions, 1.0 / |sessions| as real, (sid: string) => 1.0, share);
      InverseScale(|sessions|);
    }
  }

  /** What session `k`'s event says about component `i`. */
  function SliceAt(events: seq<Event>, i: nat): seq<real>
    requires forall k :: 0 <= k < |events| ==> events[k].EnergySample? && i < |events[k].components|
  {
    seq(|events|, k requires 0 <= k < |events| => events[k].components[i].energyJ)
  }

  lemma {:induction false} SlicesSum(sessions: seq<string>, slices: seq<real>, g: string -> real)
    requires |slices| == |sessions| && forall k :: 0 <= k < |slices| ==> slices[k] == g(sessions[k])
    ensures SumOver(slices, (x: real) => x) == SumOver(sessions, g)
  {
    if sessions != [] {
      var n := |sessions| - 1;
      SlicesSum(sessions[..n], slices[..n], g);
    }
  }

  /** One energy event per session, and for each component the slices add up to what the tracker measured. */
  lemma EnergyConserved(sessions: seq<string>, components: seq<Component>, tStart: real, tEnd: real,
                        cpu: map<string, nat>, i: nat)
    requires sessions != [] && i < |components|
    ensures var events := EnergyEvents(sessions, components, tStart, tEnd, cpu);
            && |events| == |sessions|
            && (forall k :: 0 <= k < |events| ==>
                  && events[k].EnergySample? && events[k].sessionId == sessions[k]
                   && |events[k].components| == |components|
                  && events[k].components[i].kind == components[i].kind)
            && SumOver(SliceAt(events, i), (x: real) => x) == components[i].energyJ
  {
    var events := EnergyEvents(sessions, components, tStart, tEnd, cpu);
    var share := (sid: string) => ShareOf(cpu, sessions, sid);
    var slice := (sid: string) => Scale(components[i].energyJ, ShareOf(cpu, sessions, sid));
    hide ShareOf, Scale;
    SlicesSum(sessions, SliceAt(events, i), slice);
    ScaledSum(sessions, components[i].energyJ, share, slice);
    SharesAreWhole(cpu, sessions);
    ScaleByOne(components[i].energyJ);
  }

  lemma ScaleByOne(rate: real)
    ensures Scale(rate, 1.0) == rate
  {
  }
}
