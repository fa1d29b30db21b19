/**
 The sampler as it changes: control ops, window boundaries, and the loop that keeps the two apart.
 */
module SamplerLoop {
  import opened Prelude
  import S = Sampler

  type Watch = S.Watch
  type Key = S.Key
  type Op = S.Op
  type Event = S.Event
  type Boundary = S.Boundary

  predicate OneWatchPerKey(watches: seq<Watch>) {
    forall i, j :: 0 <= i < j < |watches| ==> watches[i].key != watches[j].key
  }

  /** Replaces the watch with the same key where it stands, or adds one at the end. */
  function PutWatch(watches: seq<Watch>, w: Watch): seq<Watch> {
    if watches == [] then [w]
    else
      var n := |watches| - 1;
      if watches[n].key == w.key then watches[..n] + [w] else PutWatch(watches[..n], w) + [watches[n]]
  }

  /** Marks the watch at `key`, if there is one, as orphaned at `at`. */
  function Orphan(watches: seq<Watch>, key: Key, at: real): seq<Watch> {
    Mapped(watches, (w: Watch) => if w.key == key then w.(orphanSince := Some(at)) else w)
  }

  function Baseline(pids: seq<int>, read: nat -> Option<real>): Option<map<int, real>> {
    if pids == [] then Some(map[])
    else
      var n := |pids| - 1;
      var before := Baseline(pids[..n], read);
      if before == None || read(n) == None then None else Some(before.value[pids[n] := read(n).value])
  }

  function UsableId(f: S.Field): Option<string> { if f.Text? && f.text != "" then Some(f.text) else None }

  /** The sampler's fields as one value. */
  datatype Sampling = Sampling(mainSession: string, outputs: seq<string>, watches: seq<Watch>,
                               tracker: Option<S.Methods>,
                               window: Option<S.Window>, index: nat, spool: seq<Event>)
  {
    function SessionOf(f: S.Field): S.Field { if f.Absent? then S.Text(mainSession) else f }

    ghost function Applied(op: Op): Sampling {
      match op
      case WatchOp(session, span, pids, opens, baseline) =>
        var sid, spid := UsableId(SessionOf(session)), UsableId(span);
        if sid == None || spid == None || pids == None || (sid.value !in outputs && !opens) then this
        else
          var added := if sid.value in outputs then this else this.(outputs := outputs + [sid.value]);
          var lastCpu := Baseline(pids.value, baseline);
          if lastCpu == None then added
          else
            var w := S.Watch(S.Key(sid.value, spid.value), pids.value, lastCpu.value, None);
            added.(watches := PutWatch(watches, w))
      case UnwatchOp(session, span, at) =>
        var sid := SessionOf(session);
        if sid.Text? && span.Text? then this.(watches := Orphan(watches, S.Key(sid.text, span.text), at)) else this
      case RemoveSessionOp(session) =>
        var sid := UsableId(session);
        if sid == None then this
        else this.(outputs := Filter(outputs, (o: string) => o != sid.value),
                   watches := Filter(watches, (w: Watch) => w.key.sessionId != sid.value))
      case Ping(_) => this
      case Shutdown => this
      case Unrecognised => this
    }

    ghost function AppliedAll(ops: seq<Op>): Sampling {
      if ops == [] then this else AppliedAll(ops[..|ops| - 1]).Applied(ops[|ops| - 1])
    }

    /** The tracker had a reading for the window being closed. */
    predicate Measured(b: Boundary) { window.Some? && window.value.measured && tracker.Some? && b.reading.Some? }

    ghost function Closed(b: Boundary, final: bool): Sampling {
      if window == None then this
      else
        var c := S.Collected(outputs, watches, b.now, b.inspect);
        var tStart := window.value.tStart;
        var energy :=
          if Measured(b) then S.EnergyEvents(outputs, S.Components(b.reading.value, tracker.value),
                                               tStart, b.tEnd, c.cpu)
          else [];
        this.(window := None, watches := c.kept,
              spool := spool + energy + S.ProcessEvents(outputs, tStart, b.tEnd, c.processes),
              tracker := if Measured(b) || final then tracker else b.rebuilt)
    }

    ghost function Opened(b: Boundary): Sampling {
      this.(index := index + 1, window := Some(S.Window(index + 1, b.tOpen, tracker.Some? && b.startOk)))
    }

    ghost function Ticked(b: Boundary): Sampling { Closed(b, false).Opened(b) }

    /** No session is listed twice, no span is watched twice, every watch's session has an output and its pids
        a baseline. */
    ghost predicate Valid() {
      && NoDuplicates(outputs) && OneWatchPerKey(watches)
      && (forall w :: w in watches ==> w.key.sessionId in outputs && S.Baselined(w))
      && (window.Some? && window.value.measured ==> tracker.Some?)
    }
  }

  // ---- what ops and windows keep ---------------------------------------------------------------------------------

  lemma {:induction false} PutKeeps(watches: seq<Watch>, w: Watch)
    requires OneWatchPerKey(watches)
    ensures OneWatchPerKey(PutWatch(watches, w))
    ensures forall v :: v in PutWatch(watches, w) <==> v == w || (v in watches && v.key != w.key)
  {
    if watches != [] {
      var n := |watches| - 1;
      assert watches == watches[..n] + [watches[n]];
      if watches[n].key != w.key {
        PutKeeps(watches[..n], w);
        var put := PutWatch(watches[..n], w);
        forall i | 0 <= i < |put| ensures put[i].key != watches[n].key {
          assert put[i] in put;
        }
      }
    }
  }

  lemma {:induction false} FilterKeeps(outputs: seq<string>, keep: string -> bool)
    requires NoDuplicates(outputs)
    ensures NoDuplicates(Filter(outputs, keep))
  {
    if outputs != [] {
      var n := |outputs| - 1;
      FilterKeeps(outputs[..n], keep);
      var kept := Filter(outputs[..n], keep);
      forall i | 0 <= i < |kept| ensures kept[i] != outputs[n] {
        assert kept[i] in outputs[..n];
      }
    }
  }

  lemma {:induction false} FilterWatchesKeeps(watches: seq<Watch>, keep: Watch -> bool)
    requires OneWatchPerKey(watches)
    ensures OneWatchPerKey(Filter(watches, keep))
  {
    if watches != [] {
      var n := |watches| - 1;
      FilterWatchesKeeps(watches[..n], keep);
      var kept := Filter(watches[..n], keep);
      forall i | 0 <= i < |kept| ensures kept[i].key != watches[n].key {
        assert kept[i] in watches[..n];
      }
    }
  }

  lemma {:induction false} BaselineCovers(pids: seq<int>, read: nat -> Option<real>)
    ensures Baseline(pids, read).Some? ==> forall pid :: pid in pids ==> pid in Baseline(pids, read).value
  {
    if pids != [] {
      BaselineCovers(pids[..|pids| - 1], read);
      assert pids == pids[..|pids| - 1] + [pids[|pids| - 1]];
    }
  }

  lemma AppliedKeepsValid(s: Sampling, op: Op)
    requires s.Valid()
    ensures s.Applied(op).Valid()
  {
    match op
    case WatchOp(session, span, pids, opens, baseline) => WatchKeepsValid(s, op);
    case UnwatchOp(session, span, at) =>
      if s.SessionOf(session).Text? && span.Text? {
        var after := Orphan(s.watches, S.Key(s.SessionOf(session).text, span.text), at);
        forall w | w in after ensures w.key.sessionId in s.outputs && S.Baselined(w) {
          var i :| 0 <= i < |after| && after[i] == w;
          assert s.watches[i] in s.watches && S.Baselined(s.watches[i]);
        }
      }
    case RemoveSessionOp(session) =>
      if UsableId(session).Some? {
        FilterKeeps(s.outputs, (o: string) => o != session.text);
        FilterWatchesKeeps(s.watches, (w: Watch) => w.key.sessionId != session.text);
      }
    case _ =>
  }

  lemma WatchKeepsValid(s: Sampling, op: Op)
    requires s.Valid() && op.WatchOp?
    ensures s.Applied(op).Valid()
  {
    var sid, spid := UsableId(s.SessionOf(op.session)), UsableId(op.span);
    if sid.Some? && spid.Some? && op.pids.Some? && (sid.value in s.outputs || op.opens) {
      var lastCpu := Baseline(op.pids.value, op.baseline);
      if lastCpu.Some? {
        BaselineCovers(op.pids.value, op.baseline);
        PutKeeps(s.watches, S.Watch(S.Key(sid.value, spid.value), op.pids.value, lastCpu.value, None));
      }
    }
  }

  /** The watch an op asks for, when it is usable and its spool and every baseline can be read. */
  ghost function Asked(s: Sampling, op: Op): Option<Watch>
    requires op.WatchOp?
  {
    var sid, spid := UsableId(s.SessionOf(op.session)), UsableId(op.span);
    if sid == None || spid == None || op.pids == None || (sid.value !in s.outputs && !op.opens) then None
    else if Baseline(op.pids.value, op.baseline) == None then None
    else Some(S.Watch(S.Key(sid.value, spid.value), op.pids.value, Baseline(op.pids.value, op.baseline).value, None))
  }

  /** A watch op replaces the watch of its own span and no other, with the baselines just read;
      otherwise it adds none. */
  lemma WatchTakesEffect(s: Sampling, op: Op, w: Watch)
    requires s.Valid() && op.WatchOp?
    ensures var asked := Asked(s, op);
            w in s.Applied(op).watches <==>
              if asked.Some? then w == asked.value || (w in s.watches && w.key != asked.value.key) else w in s.watches
    ensures Asked(s, op).Some? ==> S.Baselined(Asked(s, op).value)
                                   && Asked(s, op).value.key.sessionId in s.Applied(op).outputs
  {
    if Asked(s, op).Some? {
      PutKeeps(s.watches, Asked(s, op).value);
      BaselineCovers(op.pids.value, op.baseline);
    }
  }

  lemma {:induction false} SampledGrows(w: Watch, inspect: S.Inspector, n: nat)
    requires n <= |w.pids|
    ensures w.lastCpu.Keys <= S.Sampled(w, inspect, n).lastCpu.Keys
  {
    if n > 0 {
      SampledGrows(w, inspect, n - 1);
    }
  }

  /** The watch after the window: the same one, with its readings brought up to date. */
  ghost function Resampled(w: Watch, inspect: S.Inspector): Watch {
    w.(lastCpu := S.Sampled(w, inspect, |w.pids|).lastCpu)
  }

  ghost predicate Survives(w: Watch, now: real, inspect: S.Inspector) {
    !S.Expired(w, now) && (w.orphanSince.None? || S.Sampled(w, inspect, |w.pids|).anyAlive)
  }

  /** A window keeps exactly the open watches and the orphans that are both recent and alive. */
  lemma {:induction false} KeptIff(outputs: seq<string>, watches: seq<Watch>, now: real, inspect: S.Inspector, w: Watch)
    ensures w in S.Collected(outputs, watches, now, inspect).kept <==>
              exists v :: v in watches && Survives(v, now, inspect) && w == Resampled(v, inspect)
  {
    if watches != [] {
      var n := |watches| - 1;
      assert watches == watches[..n] + [watches[n]];
      KeptIff(outputs, watches[..n], now, inspect, w);
      var before, c := S.Collected(outputs, watches[..n], now, inspect), S.Collected(outputs, watches, now, inspect);
      hide S.Sampled, S.Collected;
      assert c.kept == before.kept
                             + if Survives(watches[n], now, inspect) then [Resampled(watches[n], inspect)] else [] by {
        CollectedOne(outputs, watches, now, inspect);
      }
    }
  }

  lemma CollectedOne(outputs: seq<string>, watches: seq<Watch>, now: real, inspect: S.Inspector)
    requires watches != []
    ensures var n := |watches| - 1;
            S.Collected(outputs, watches, now, inspect).kept ==
              S.Collected(outputs, watches[..n], now, inspect).kept +
              if Survives(watches[n], now, inspect) then [Resampled(watches[n], inspect)] else []
  {
    hide S.Sampled;
  }

  lemma {:induction false} CollectedKeeps(outputs: seq<string>, watches: seq<Watch>, now: real, inspect: S.Inspector)
    requires OneWatchPerKey(watches)
    ensures OneWatchPerKey(S.Collected(outputs, watches, now, inspect).kept)
  {
    if watches != [] {
      var n := |watches| - 1;
      CollectedKeeps(outputs, watches[..n], now, inspect);
      CollectedOne(outputs, watches, now, inspect);
      var kept := S.Collected(outputs, watches[..n], now, inspect).kept;
      hide S.Collected, S.Sampled;
      forall k | 0 <= k < |kept| ensures kept[k].key != watches[n].key {
        KeptIff(outputs, watches[..n], now, inspect, kept[k]);
        var v :| v in watches[..n] && Survives(v, now, inspect) && kept[k] == Resampled(v, inspect);
      }
    }
  }

  lemma TickedKeepsValid(s: Sampling, b: Boundary)
    requires s.Valid()
    ensures s.Ticked(b).Valid()
  {
    ClosedKeepsValid(s, b, false);
  }

  lemma ClosedKeepsValid(s: Sampling, b: Boundary, final: bool)
    requires s.Valid()
    ensures s.Closed(b, final).Valid()
  {
    if s.window.Some? {
      CollectedKeeps(s.outputs, s.watches, b.now, b.inspect);
      var c := S.Collected(s.outputs, s.watches, b.now, b.inspect);
      hide S.Collected, S.EnergyEvents, S.ProcessEvents;
      forall w | w in c.kept ensures w.key.sessionId in s.outputs && S.Baselined(w) {
        KeptIff(s.outputs, s.watches, b.now, b.inspect, w);
        var v :| v in s.watches && Survives(v, b.now, b.inspect) && w == Resampled(v, b.inspect);
        SampledGrows(v, b.inspect, |v.pids|);
        hide S.Sampled;
      }
    }
  }

  /** `written` is one energy sample per session, if there are any, and then one process sample per session. */
  ghost predicate WindowEvents(written: seq<Event>, sessions: seq<string>, energies: nat, tStart: real, tEnd: real,
                               processes: map<string, seq<S.Entry>>) {
    && |written| == energies + |sessions| && energies in {0, |sessions|}
    && (forall k :: 0 <= k < energies ==> written[k].EnergySample? && written[k].sessionId == sessions[k])
    && forall k :: 0 <= k < |sessions| ==>
         written[energies + k] == S.ProcessSample(sessions[k], tStart, tEnd, S.EntriesAt(processes, sessions[k]))
  }

  lemma EnergyShapes(sessions: seq<string>, components: seq<S.Component>, tStart: real, tEnd: real,
                     cpu: map<string, nat>)
    ensures var events := S.EnergyEvents(sessions, components, tStart, tEnd, cpu);
            |events| == |sessions|
            && forall k :: 0 <= k < |events| ==> events[k].EnergySample? && events[k].sessionId == sessions[k]
  {
    hide S.ShareOf;
  }

  lemma EventShapes(sessions: seq<string>, components: seq<S.Component>, tStart: real, tEnd: real, c: S.Collection,
                    measured: bool)
    ensures var energy := if measured then S.EnergyEvents(sessions, components, tStart, tEnd, c.cpu) else [];
            WindowEvents(energy + S.ProcessEvents(sessions, tStart, tEnd, c.processes), sessions,
                         if measured then |sessions| else 0, tStart, tEnd, c.processes)
  {
    hide S.EnergyEvents, S.ProcessEvents, S.EntriesAt, WindowEvents;
    if measured {
      EnergyShapes(sessions, components, tStart, tEnd, c.cpu);
    }
    ProcessShapes(sessions, tStart, tEnd, c.processes);
    OneThenOther(if measured then S.EnergyEvents(sessions, components, tStart, tEnd, c.cpu) else [],
                 S.ProcessEvents(sessions, tStart, tEnd, c.processes), sessions, tStart, tEnd, c.processes);
  }

  lemma ProcessShapes(sessions: seq<string>, tStart: real, tEnd: real, processes: map<string, seq<S.Entry>>)
    ensures var events := S.ProcessEvents(sessions, tStart, tEnd, processes);
            |events| == |sessions|
            && forall k :: 0 <= k < |sessions| ==>
                 events[k] == S.ProcessSample(sessions[k], tStart, tEnd, S.EntriesAt(processes, sessions[k]))
  {
    hide S.EntriesAt;
  }

  lemma OneThenOther(energy: seq<Event>, events: seq<Event>, sessions: seq<string>, tStart: real, tEnd: real,
                     processes: map<string, seq<S.Entry>>)
    requires |energy| in {0, |sessions|} && |events| == |sessions|
    requires forall k :: 0 <= k < |energy| ==> energy[k].EnergySample? && energy[k].sessionId == sessions[k]
    requires forall k :: 0 <= k < |sessions| ==>
               events[k] == S.ProcessSample(sessions[k], tStart, tEnd, S.EntriesAt(processes, sessions[k]))
    ensures WindowEvents(energy + events, sessions, |energy|, tStart, tEnd, processes)
  {
    hide S.EntriesAt;
    forall k | 0 <= k < |sessions|
      ensures (energy + events)[|energy| + k]
           == S.ProcessSample(sessions[k], tStart, tEnd, S.EntriesAt(processes, sessions[k]))
    {
      assert (energy + events)[|energy| + k] == events[k];
    }
  }

  /** What closing the window at `b` writes. */
  ghost function Written(s: Sampling, b: Boundary): seq<Event>
    requires s.window.Some?
  {
    var c, tStart := S.Collected(s.outputs, s.watches, b.now, b.inspect), s.window.value.tStart;
    (if s.Measured(b) then S.EnergyEvents(s.outputs, S.Components(b.reading.value, s.tracker.value),
                                        tStart, b.tEnd, c.cpu)
     else []) + S.ProcessEvents(s.outputs, tStart, b.tEnd, c.processes)
  }

  lemma WrittenOnce(s: Sampling, b: Boundary, final: bool)
    requires s.window.Some?
    ensures s.Closed(b, final).spool == s.spool + Written(s, b)
  {
    hide S.Collected, S.Components, S.EnergyEvents, S.ProcessEvents;
  }

  /** A closing window writes energy samples only from a reading, and process samples always. */
  lemma WindowEmits(s: Sampling, b: Boundary, final: bool)
    requires s.window.Some?
    ensures s.Closed(b, final).spool == s.spool + Written(s, b)
    ensures WindowEvents(Written(s, b), s.outputs, if s.Measured(b) then |s.outputs| else 0,
                         s.window.value.tStart, b.tEnd,
                         S.Collected(s.outputs, s.watches, b.now, b.inspect).processes)
  {
    WrittenOnce(s, b, final);
    hide Sampling.Closed, S.Collected, S.Components, S.EnergyEvents, S.ProcessEvents, WindowEvents;
    var c := S.Collected(s.outputs, s.watches, b.now, b.inspect);
    var components := if s.Measured(b) then S.Components(b.reading.value, s.tracker.value) else [];
    EventShapes(s.outputs, components, s.window.value.tStart, b.tEnd, c, s.Measured(b));
  }

  // ---- the sidecar's object ------------------------------------------------------------------------------------

  class Sampler {
    const sessionId: string
    var outputs: seq<string>
    var watches: seq<Watch>
    var tracker: Option<S.Methods>
    var window: Option<S.Window>
    var windowIndex: nat
    var spool: seq<Event>

    ghost function Now(): Sampling
      reads this
    {
      Sampling(sessionId, outputs, watches, tracker, window, windowIndex, spool)
    }

    constructor (sessionId: string)
      ensures this.sessionId == sessionId && Now().Valid()
      ensures outputs == [sessionId] && watches == [] && window == None && tracker == None && spool == []
    {
      this.sessionId := sessionId;
      outputs, watches, tracker, window, windowIndex, spool := [sessionId], [], None, None, 0, [];
    }

    /** Opens a spool for a session unless it has one; `ready` is false when that fails. */
    method AddSession(sid: string, opens: bool) returns (ready: bool)
      modifies this
      ensures ready <==> (sid in old(outputs) || opens)
      ensures Now() == old(Now()).(outputs := if sid !in old(outputs) && opens then old(outputs) + [sid]
                                         else old(outputs))
    {
      if sid in outputs {
        return true;
      }
      if opens {
        outputs := outputs + [sid];
      }
      ready := opens;
    }

    method RemoveSession(sid: string)
      modifies this
      ensures Now() == old(Now()).(outputs := Filter(old(outputs), (o: string) => o != sid),
                                   watches := Filter(old(watches), (w: Watch) => w.key.sessionId != sid))
    {
      outputs := Filter(outputs, (o: string) => o != sid);
      watches := Filter(watches, (w: Watch) => w.key.sessionId != sid);
    }

    method ReadBaselines(pids: seq<int>, read: nat -> Option<real>) returns (r: Option<map<int, real>>)
      ensures r == Baseline(pids, read)
    {
      var lastCpu: map<int, real> := map[];
      for i := 0 to |pids|
        invariant Baseline(pids[..i], read) == Some(lastCpu)
      {
        Prefix(pids, i);
        if read(i).None? {
          NoBaseline(pids, read, i + 1);
          return None;
        }
        lastCpu := lastCpu[pids[i] := read(i).value];
      }
      assert pids[..|pids|] == pids;
      r := Some(lastCpu);
    }

    /** A watch op: a session's spool first, then the baselines, then the watch itself. */
    method OpWatch(session: S.Field, span: S.Field, pids: Option<seq<int>>, opens: bool, baseline: nat -> Option<real>)
      modifies this
      ensures Now() == old(Now()).Applied(S.WatchOp(session, span, pids, opens, baseline))
    {
      var sid := UsableId(if session.Absent? then S.Text(sessionId) else session);
      if sid == None {
        return;
      }
      var spid := UsableId(span);
      if spid == None || pids == None {
        return;
      }
      var ready := AddSession(sid.value, opens);
      if !ready {
        return;
      }
      var lastCpu := ReadBaselines(pids.value, baseline);
      if lastCpu == None {
        return;
      }
      watches := PutWatch(watches, S.Watch(S.Key(sid.value, spid.value), pids.value, lastCpu.value, None));
    }

    method ApplyOp(op: Op)
      requires Now().Valid()
      modifies this
      ensures Now() == old(Now()).Applied(op) && Now().Valid()
    {
      AppliedKeepsValid(Now(), op);
      match op
      case WatchOp(session, span, pids, opens, baseline) => OpWatch(session, span, pids, opens, baseline);
      case UnwatchOp(session, span, at) =>
        var sid := if session.Absent? then S.Text(sessionId) else session;
        if sid.Text? && span.Text? {
          watches := Orphan(watches, S.Key(sid.text, span.text), at);
        }
      case RemoveSessionOp(session) =>
        var sid := UsableId(session);
        if sid.Some? {
          RemoveSession(sid.value);
        }
      case _ =>
    }

    /** Samples every watch, dropping the orphans whose tail is over. */
    method CollectProcessSamples(now: real, inspect: S.Inspector) returns (c: S.Collection)
      modifies this
      ensures c == S.Collected(old(outputs), old(watches), now, inspect)
      ensures Now() == old(Now()).(watches := c.kept)
    {
      hide S.Sampled;
      c := S.Collection([], map sid | sid in outputs :: [], map sid | sid in outputs :: 0);
      for i := 0 to |watches|
        invariant Now() == old(Now()) && c == S.Collected(outputs, watches[..i], now, inspect)
      {
        Prefix(watches, i);
        var w := watches[i];
        if !(w.orphanSince.Some? && now - w.orphanSince.value >= S.ORPHAN_TAIL_S) {
          var sample := S.SampleWatch(w, inspect);
          c := S.CollectOne(c, w, sample);
        }
      }
      assert watches[..|watches|] == watches;
      watches := c.kept;
    }

    method EmitEnergySamples(components: seq<S.Component>, tStart: real, tEnd: real, cpu: map<string, nat>)
      modifies this`spool
      ensures spool == old(spool) + S.EnergyEvents(outputs, components, tStart, tEnd, cpu)
    {
      if outputs == [] {
        return;
      }
      var events: seq<Event> := [];
      for i := 0 to |outputs|
        invariant spool == old(spool) && |events| == i
        invariant forall k :: 0 <= k < i ==>
                    events[k] == S.EnergySample(outputs[k], tStart, tEnd,
                                                S.Sliced(components, S.ShareOf(cpu, outputs, outputs[k])))
      {
        var share := S.ShareOf(cpu, outputs, outputs[i]);
        events := events + [S.EnergySample(outputs[i], tStart, tEnd, S.Sliced(components, share))];
      }
      assert events == S.EnergyEvents(outputs, components, tStart, tEnd, cpu);
      spool := spool + events;
    }

    method EmitProcessSamples(tStart: real, tEnd: real, processes: map<string, seq<S.Entry>>)
      modifies this`spool
      ensures spool == old(spool) + S.ProcessEvents(outputs, tStart, tEnd, processes)
    {
      var events: seq<Event> := [];
      for i := 0 to |outputs|
        invariant spool == old(spool) && |events| == i
        invariant forall k :: 0 <= k < i ==>
                    events[k] == S.ProcessSample(outputs[k], tStart, tEnd, S.EntriesAt(processes, outputs[k]))
      {
        events := events + [S.ProcessSample(outputs[i], tStart, tEnd, S.EntriesAt(processes, outputs[i]))];
      }
      assert events == S.ProcessEvents(outputs, tStart, tEnd, processes);
      spool := spool + events;
    }

    /** Closes the open window: energy only when the tracker had a reading, processes always. */
    method CloseWindow(b: Boundary, final: bool)
      requires Now().Valid()
      modifies this
      ensures Now() == old(Now()).Closed(b, final) && Now().Valid()
    {
      hide S.Collected, S.EnergyEvents, S.ProcessEvents, S.Components;
      ClosedKeepsValid(Now(), b, final);
      hide Sampling.Valid;
      if window == None {
        return;
      }
      var tStart, measured := window.value.tStart, window.value.measured && tracker.Some? && b.reading.Some?;
      window := None;
      var c := CollectProcessSamples(b.now, b.inspect);
      if measured {
        EmitEnergySamples(S.Components(b.reading.value, tracker.value), tStart, b.tEnd, c.cpu);
      }
      EmitProcessSamples(tStart, b.tEnd, c.processes);
      if !measured && !final {
        tracker := b.rebuilt;
      }
    }

    method OpenWindow(b: Boundary)
      modifies this
      ensures Now() == old(Now()).Opened(b)
    {
      windowIndex := windowIndex + 1;
      window := Some(S.Window(windowIndex, b.tOpen, tracker.Some? && b.startOk));
    }

    method Tick(b: Boundary)
      requires Now().Valid()
      modifies this
      ensures Now() == old(Now()).Ticked(b) && Now().Valid()
    {
      hide Sampling.Closed;
      TickedKeepsValid(Now(), b);
      CloseWindow(b, false);
      OpenWindow(b);
    }

    /** Flushes the window in flight, then closes every spool: each session's last window is written exactly once,
        short as it may be, and nothing can be written after it. */
    method Finish(b: Boundary)
      requires Now().Valid()
      modifies this
      ensures Now() == old(Now()).Closed(b, true).(tracker := None, outputs := [])
      ensures window == None && outputs == [] && tracker == None
      ensures old(window) == None ==> spool == old(spool)
      ensures old(window).Some? ==>
                && spool == old(spool) + Written(old(Now()), b)
                && WindowEvents(Written(old(Now()), b), old(outputs),
                                if old(Now()).Measured(b) then |old(outputs)| else 0,
                                old(window).value.tStart, b.tEnd,
                                S.Collected(old(outputs), old(watches), b.now, b.inspect).processes)
    {
      ghost var before := Now();
      hide Written, WindowEvents, S.Collected, S.EnergyEvents, S.ProcessEvents;
      if window.Some? {
        WindowEmits(before, b, true);
      }
      CloseWindow(b, true);
      tracker := None;
      outputs := [];
    }
  }

  lemma {:induction false} NoBaseline(pids: seq<int>, read: nat -> Option<real>, i: nat)
    requires i <= |pids| && Baseline(pids[..i], read) == None
    ensures Baseline(pids, read) == None
    decreases |pids|
  {
    if i < |pids| {
      var n := |pids| - 1;
      assert pids[..n][..i] == pids[..i];
      NoBaseline(pids[..n], read, i);
    } else {
      assert pids[..i] == pids;
    }
  }

  // ---- the loop ---------------------------------------------------------------------------------------------

  /** What the control queue yields: an op, or nothing before the window is due to close. */
  datatype Arrival = Arrives(op: Op) | Due(b: Boundary)

  datatype Loop = Loop(sampler: Sampling, pending: seq<Op>, answered: seq<string>, stopped: bool)
  {
    ghost function Next(a: Arrival): Loop {
      if stopped then this
      else
        match a
        case Due(b) => Loop(sampler.Ticked(b).AppliedAll(pending), [], answered, false)
        case Arrives(op) =>
          match op
          case Shutdown => this.(stopped := true)
          case Ping(id) => this.(answered := answered + [id])
          case _ => this.(pending := pending + [op])
    }

    ghost function After(arrivals: seq<Arrival>): Loop {
      if arrivals == [] then this else After(arrivals[..|arrivals| - 1]).Next(arrivals[|arrivals| - 1])
    }
  }

  /** Drives the sampler until shutdown: ops wait for the window in flight to close. */
  method RunLoop(sampler: Sampler, arrivals: seq<Arrival>)
    returns (pending: seq<Op>, answered: seq<string>, stopped: bool)
    requires sampler.Now().Valid()
    modifies sampler
    ensures sampler.Now().Valid()
    ensures Loop(sampler.Now(), pending, answered, stopped) == Loop(old(sampler.Now()), [], [], false).After(arrivals)
  {
    hide Sampling.Ticked, Sampling.Applied, Sampling.Valid;
    pending, answered, stopped := [], [], false;
    ghost var start := Loop(sampler.Now(), [], [], false);
    for i := 0 to |arrivals|
      invariant sampler.Now().Valid() && !stopped
      invariant Loop(sampler.Now(), pending, answered, stopped) == start.After(arrivals[..i])
    {
      Prefix(arrivals, i);
      match arrivals[i]
      case Due(b) =>
        sampler.Tick(b);
        var queued := pending;
        pending := [];
        ApplyQueued(sampler, queued);
      case Arrives(op) =>
        match op
        case Shutdown =>
          stopped := true;
          StaysStopped(start, arrivals, i + 1);
          return;
        case Ping(id) => answered := answered + [id];
        case _ => pending := pending + [op];
    }
    assert arrivals[..|arrivals|] == arrivals;
  }

  method ApplyQueued(sampler: Sampler, queued: seq<Op>)
    requires sampler.Now().Valid()
    modifies sampler
    ensures sampler.Now() == old(sampler.Now()).AppliedAll(queued) && sampler.Now().Valid()
  {
    hide Sampling.Applied, Sampling.Valid;
    for i := 0 to |queued|
      invariant sampler.Now() == old(sampler.Now()).AppliedAll(queued[..i]) && sampler.Now().Valid()
    {
      Prefix(queued, i);
      sampler.ApplyOp(queued[i]);
    }
    assert queued[..|queued|] == queued;
  }

  lemma {:induction false} StaysStopped(l: Loop, arrivals: seq<Arrival>, i: nat)
    requires i <= |arrivals| && l.After(arrivals[..i]).stopped
    ensures l.After(arrivals) == l.After(arrivals[..i])
    decreases |arrivals|
  {
    if i < |arrivals| {
      var n := |arrivals| - 1;
      assert arrivals[..n][..i] == arrivals[..i];
      StaysStopped(l, arrivals[..n], i);
    } else {
      assert arrivals[..i] == arrivals;
    }
  }

  // ---- ops wait for the window ------------------------------------------------------------------------------------

  predicate OpsOnly(arrivals: seq<Arrival>) {
    forall i :: 0 <= i < |arrivals| ==> arrivals[i].Arrives? && !arrivals[i].op.Shutdown?
  }

  /** Ops touch nothing but the queue until the window closes. */
  lemma {:induction false} OpsOnlyQueue(l: Loop, before: seq<Arrival>, during: seq<Arrival>)
    requires OpsOnly(during)
    ensures l.After(before + during).sampler == l.After(before).sampler
    ensures l.After(before + during).stopped == l.After(before).stopped
  {
    hide Sampling.Ticked, Sampling.AppliedAll;
    if during == [] {
      assert before + during == before;
    } else {
      var n := |during| - 1;
      assert (before + during)[..|before| + n] == before + during[..n];
      OpsOnlyQueue(l, before, during[..n]);
    }
  }

  lemma {:induction false} OpsEmitNothing(s: Sampling, ops: seq<Op>)
    ensures s.AppliedAll(ops).spool == s.spool && s.AppliedAll(ops).window == s.window
  {
    if ops != [] {
      OpsEmitNothing(s, ops[..|ops| - 1]);
      hide Filter, PutWatch, Orphan, Baseline;
    }
  }

  /**
   Whatever ops arrive while a window is open, the events written when it closes are the same, and so is
   everything about the sampler except what those ops then do to the next window.
   */
  lemma OpsNeverReachTheirWindow(l: Loop, before: seq<Arrival>, some: seq<Arrival>, other: seq<Arrival>, b: Boundary)
    requires OpsOnly(some) && OpsOnly(other)
    ensures l.After(before + some + [Due(b)]).sampler.spool == l.After(before + other + [Due(b)]).sampler.spool
    ensures l.After(before + some + [Due(b)]).sampler.window == l.After(before + other + [Due(b)]).sampler.window
  {
    ClosesAlike(l, before, some, b);
    ClosesAlike(l, before, other, b);
  }

  lemma ClosesAlike(l: Loop, before: seq<Arrival>, during: seq<Arrival>, b: Boundary)
    requires OpsOnly(during)
    ensures var start, end := l.After(before), l.After(before + during + [Due(b)]);
            if start.stopped then end.sampler == start.sampler
            else end.sampler.spool == start.sampler.Ticked(b).spool
                 && end.sampler.window == start.sampler.Ticked(b).window
  {
    hide Sampling.Ticked, Sampling.AppliedAll;
    OpsOnlyQueue(l, before, during);
    assert (before + during + [Due(b)])[..|before + during|] == before + during;
    OpsEmitNothing(l.After(before).sampler.Ticked(b), l.After(before + during).pending);
  }

  /** Shutdown is acted on at once: the window in flight is neither closed nor re-opened, and no waiting op is
      applied. */
  lemma ShutdownIsImmediate(l: Loop, before: seq<Arrival>, rest: seq<Arrival>)
    ensures var after := l.After(before + [Arrives(S.Shutdown)] + rest);
            after.stopped && after.sampler == l.After(before).sampler && after.answered == l.After(before).answered
  {
    var all, n := before + [Arrives(S.Shutdown)] + rest, |before| + 1;
    assert all[..n] == before + [Arrives(S.Shutdown)];
    assert all[..n][..|before|] == before;
    StaysStopped(l, all, n);
  }

  lemma {:induction false} AppliedAllKeepsValid(s: Sampling, ops: seq<Op>)
    requires s.Valid()
    ensures s.AppliedAll(ops).Valid()
  {
    hide Sampling.Applied, Sampling.Valid;
    if ops != [] {
      AppliedAllKeepsValid(s, ops[..|ops| - 1]);
      AppliedKeepsValid(s.AppliedAll(ops[..|ops| - 1]), ops[|ops| - 1]);
    }
  }

  /** At every moment of every run, each watch's session has an output and each watched pid a baseline. */
  lemma {:induction false} RunStaysValid(l: Loop, arrivals: seq<Arrival>)
    requires l.sampler.Valid()
    ensures l.After(arrivals).sampler.Valid()
  {
    hide Sampling.Ticked, Sampling.AppliedAll, Sampling.Valid;
    if arrivals != [] {
      var n := |arrivals| - 1;
      RunStaysValid(l, arrivals[..n]);
      var before := l.After(arrivals[..n]);
      if arrivals[n].Due? {
        TickedKeepsValid(before.sampler, arrivals[n].b);
        AppliedAllKeepsValid(before.sampler.Ticked(arrivals[n].b), before.pending);
      }
    }
  }
}
