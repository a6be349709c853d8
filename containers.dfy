/** The per-container rate engine of `run_docker` (statsd-agent.py:179-255): each
    cycle folds one stats payload per container into a memory percentage, a CPU
    percentage and two byte rates, against the previous sample kept per container
    name in five dictionaries. The container runtime's answers and the clock are
    inputs. */
module ContainerRates {

  import opened Wrappers
  import opened Text

  /** The fields of a container stats payload the engine reads, each missing when
      its JSON path finds nothing. `perCpu` is the length of
      `cpu_stats.cpu_usage.percpu_usage` when that list is present. */
  datatype Stats = Stats(
    memUsage: Option<real>,      // memory_stats.usage
    memLimit: Option<real>,      // memory_stats.limit
    totalUsage: Option<real>,    // cpu_stats.cpu_usage.total_usage
    systemUsage: Option<real>,   // cpu_stats.system_cpu_usage
    perCpu: Option<nat>,         // length(cpu_stats.cpu_usage.percpu_usage)
    txBytes: Option<real>,       // networks.eth0.tx_bytes
    rxBytes: Option<real>)       // networks.eth0.rx_bytes

  /** Python's `x or d` on a looked-up number: a missing value and a zero are both
      false, so both give the default. */
  function Or(x: Option<real>, d: real): (r: real)
    ensures x.None? || x.value == 0.0 ==> r == d
    ensures x.Some? && x.value != 0.0 ==> r == x.value
  {
    if x.Some? && x.value != 0.0 then x.value else d
  }

  /** `100.0 * (mem_usage / mem_limit) if mem_limit > 0 else 0`, after the defaults
      `or 0` and `or 1`. A missing or zero limit reads as 1, so the percentage is then
      100 times the usage; only a negative limit reaches the `else 0`. */
  function MemPercent(s: Stats): real {
    var usage := Or(s.memUsage, 0.0);
    var limit := Or(s.memLimit, 1.0);
    if limit > 0.0 then 100.0 * (usage / limit) else 0.0
  }

  lemma MemPercentCases(s: Stats)
    ensures var r := MemPercent(s);
      && (s.memLimit.None? || s.memLimit.value == 0.0 ==> r == 100.0 * Or(s.memUsage, 0.0))
      && (s.memLimit.Some? && s.memLimit.value < 0.0 ==> r == 0.0)
      && (s.memLimit.Some? && s.memLimit.value > 0.0 ==> r * s.memLimit.value == 100.0 * Or(s.memUsage, 0.0))
      && (s.memUsage.None? ==> r == 0.0)
  {
  }

  /** `(cpu_delta / system_delta) * num_cpus * 100.0` when both deltas are positive,
      else 0. */
  function CpuPercent(cpuDelta: real, systemDelta: real, numCpus: nat): real {
    if systemDelta > 0.0 && cpuDelta > 0.0 then (cpuDelta / systemDelta) * numCpus as real * 100.0 else 0.0
  }

  /** The percentage is never negative, is positive exactly when both deltas are,
      and is then the CPU share scaled to the number of CPUs. */
  lemma CpuPercentCases(cpuDelta: real, systemDelta: real, numCpus: nat)
    requires numCpus >= 1
    ensures var r := CpuPercent(cpuDelta, systemDelta, numCpus);
      && r >= 0.0
      && (r > 0.0 <==> systemDelta > 0.0 && cpuDelta > 0.0)
      && (r > 0.0 ==> r * systemDelta == cpuDelta * numCpus as real * 100.0)
  {
    if systemDelta > 0.0 && cpuDelta > 0.0 {
      var q := cpuDelta / systemDelta;
      assert q > 0.0;
      assert q * systemDelta == cpuDelta;
    }
  }

  /** A sample payload: 10,982,983 ns of container CPU against 3,970,000 of system
      time on 4 CPUs is about 1106.6 percent. */
  lemma CpuPercentExample()
    ensures 1106.5 < CpuPercent(10982983.0, 3970000.0, 4) < 1106.7
  {
    CpuPercentCases(10982983.0, 3970000.0, 4);
    var r := CpuPercent(10982983.0, 3970000.0, 4);
    assert r * 3970000.0 == 10982983.0 * 400.0;
  }

  /** `tx / elapsed if tx > 0 and elapsed > 0 else 0`. */
  function ByteRate(delta: real, elapsed: real): real {
    if delta > 0.0 && elapsed > 0.0 then delta / elapsed else 0.0
  }

  /** The rate is never negative, is positive exactly when the delta and the elapsed
      time both are, and then times the elapsed time gives back the delta. */
  lemma ByteRateCases(delta: real, elapsed: real)
    ensures ByteRate(delta, elapsed) >= 0.0
    ensures ByteRate(delta, elapsed) > 0.0 <==> delta > 0.0 && elapsed > 0.0
    ensures ByteRate(delta, elapsed) > 0.0 ==> ByteRate(delta, elapsed) * elapsed == delta
  {
    if delta > 0.0 && elapsed > 0.0 {
      assert delta / elapsed > 0.0;
    }
  }

  /** The four values computed for one container in one cycle. */
  datatype Reading = Reading(memPercent: real, cpuPercent: real, txRate: real, rxRate: real)

  /** The five dictionaries of previous values, keyed by container name. */
  datatype Prior = Prior(cpu: map<string, real>, system: map<string, real>, tx: map<string, real>,
                         rx: map<string, real>, timer: map<string, real>)

  const Empty := Prior(map[], map[], map[], map[], map[])

  /** `d.get(name, 0)`, and the value `d.setdefault(name, 0)` returns. */
  function Prev(m: map<string, real>, name: string): real {
    if name in m then m[name] else 0.0
  }

  /** `num_cpus`: the per-CPU list's length, `or 1`. */
  function NumCpus(s: Stats): (n: nat)
    requires s.perCpu.Some?
    ensures n >= 1
    ensures s.perCpu.value >= 1 ==> n == s.perCpu.value
    ensures s.perCpu.value == 0 ==> n == 1
  {
    if s.perCpu.value == 0 then 1 else s.perCpu.value
  }

  /** One container's step: the reading and the new previous values, or None when
      the payload has no per-CPU list, for which `length(null)` raises and ends the
      container loop after the memory gauge was queued and before anything was stored. */
  function Step(p: Prior, name: string, s: Stats, now: real): Option<(Prior, Reading)> {
    if s.perCpu.None? then None else Some((Stored(p, name, s, now), Measure(p, name, s, now)))
  }

  /** The reading of a step: each quantity against the container's previous values. */
  function Measure(p: Prior, name: string, s: Stats, now: real): Reading
    requires s.perCpu.Some?
  {
    var elapsed := now - Prev(p.timer, name);
    Reading(MemPercent(s),
            CpuPercent(Or(s.totalUsage, 0.0) - Prev(p.cpu, name), Or(s.systemUsage, 0.0) - Prev(p.system, name),
                       NumCpus(s)),
            ByteRate(Or(s.txBytes, 0.0) - Prev(p.tx, name), elapsed),
            ByteRate(Or(s.rxBytes, 0.0) - Prev(p.rx, name), elapsed))
  }

  /** The previous values after a step: the current totals, counters and time under `name`. */
  function Stored(p: Prior, name: string, s: Stats, now: real): Prior {
    Prior(p.cpu[name := Or(s.totalUsage, 0.0)], p.system[name := Or(s.systemUsage, 0.0)],
          p.tx[name := Or(s.txBytes, 0.0)], p.rx[name := Or(s.rxBytes, 0.0)], p.timer[name := now])
  }

  /** Every map holds `name`. */
  predicate Tracks(p: Prior, name: string) {
    name in p.cpu && name in p.system && name in p.tx && name in p.rx && name in p.timer
  }

  /** Agreement of two maps everywhere except at `name`, where the second may have
      gained an entry; nothing is removed. */
  predicate SameElsewhere(m: map<string, real>, m': map<string, real>, name: string) {
    m'.Keys == m.Keys + {name} && forall k :: k in m && k != name ==> m'[k] == m[k]
  }

  lemma UpdateSameElsewhere(m: map<string, real>, name: string, v: real)
    ensures SameElsewhere(m, m[name := v], name)
  {
  }

  /** A step stores the current totals, counters and time under `name` and leaves
      every other container's entries, and the set of names, as they were apart from
      adding `name`. */
  lemma StepState(p: Prior, name: string, s: Stats, now: real)
    ensures var q := Stored(p, name, s, now);
      && Tracks(q, name)
      && Prev(q.cpu, name) == Or(s.totalUsage, 0.0) && Prev(q.system, name) == Or(s.systemUsage, 0.0)
      && Prev(q.tx, name) == Or(s.txBytes, 0.0) && Prev(q.rx, name) == Or(s.rxBytes, 0.0)
      && Prev(q.timer, name) == now
      && SameElsewhere(p.cpu, q.cpu, name) && SameElsewhere(p.system, q.system, name)
      && SameElsewhere(p.tx, q.tx, name) && SameElsewhere(p.rx, q.rx, name)
      && SameElsewhere(p.timer, q.timer, name)
  {
    UpdateSameElsewhere(p.cpu, name, Or(s.totalUsage, 0.0));
    UpdateSameElsewhere(p.system, name, Or(s.systemUsage, 0.0));
    UpdateSameElsewhere(p.tx, name, Or(s.txBytes, 0.0));
    UpdateSameElsewhere(p.rx, name, Or(s.rxBytes, 0.0));
    UpdateSameElsewhere(p.timer, name, now);
  }

  /** The CPU percentage a step reports is never negative, and is positive exactly
      when both the container's and the system's CPU totals grew. */
  lemma StepCpuBounds(p: Prior, name: string, s: Stats, now: real)
    requires s.perCpu.Some?
    ensures var r := Measure(p, name, s, now).cpuPercent;
      && r >= 0.0
      && (r > 0.0 <==> Or(s.totalUsage, 0.0) > Prev(p.cpu, name) && Or(s.systemUsage, 0.0) > Prev(p.system, name))
  {
    CpuPercentCases(Or(s.totalUsage, 0.0) - Prev(p.cpu, name), Or(s.systemUsage, 0.0) - Prev(p.system, name),
                    NumCpus(s));
  }

  /** The byte rates a step reports are never negative, whatever the counters do;
      each is positive exactly when its counter grew and time moved forward since the
      container's previous sample, and is then the growth per second. */
  lemma StepRateBounds(p: Prior, name: string, s: Stats, now: real)
    requires s.perCpu.Some?
    ensures var r := Measure(p, name, s, now);
      var elapsed := now - Prev(p.timer, name);
      var tx := Or(s.txBytes, 0.0) - Prev(p.tx, name);
      var rx := Or(s.rxBytes, 0.0) - Prev(p.rx, name);
      && r.txRate >= 0.0 && r.rxRate >= 0.0
      && (r.txRate > 0.0 <==> tx > 0.0 && elapsed > 0.0)
      && (r.rxRate > 0.0 <==> rx > 0.0 && elapsed > 0.0)
      && (r.txRate > 0.0 ==> r.txRate * elapsed == tx)
      && (r.rxRate > 0.0 ==> r.rxRate * elapsed == rx)
  {
    var r := Measure(p, name, s, now);
    var elapsed := now - Prev(p.timer, name);
    var tx := Or(s.txBytes, 0.0) - Prev(p.tx, name);
    var rx := Or(s.rxBytes, 0.0) - Prev(p.rx, name);
    TxRateOf(p, name, s, now);
    RxRateOf(p, name, s, now);
    var t, x := r.txRate, r.rxRate;
    assert t == ByteRate(tx, elapsed) && x == ByteRate(rx, elapsed);
    ByteRateCases(tx, elapsed);
    ByteRateCases(rx, elapsed);
  }

  /** A container seen for the first time is measured against zero: its CPU
      percentage is its whole usage over the whole system usage, and its byte rates
      are the whole counters over the time since the epoch. */
  lemma FirstSighting(p: Prior, name: string, s: Stats, now: real)
    requires s.perCpu.Some? && name !in p.cpu && name !in p.system && name !in p.tx && name !in p.rx
    requires name !in p.timer
    ensures var r := Measure(p, name, s, now);
      && r.cpuPercent == CpuPercent(Or(s.totalUsage, 0.0), Or(s.systemUsage, 0.0), NumCpus(s))
      && r.txRate == ByteRate(Or(s.txBytes, 0.0), now)
      && r.rxRate == ByteRate(Or(s.rxBytes, 0.0), now)
  {
  }

  /** The same payload twice, later in time: the second reading has zero CPU and
      zero byte rates, the same memory percentage, and the stored values change only
      in the time. */
  lemma RepeatedSampleIsZero(p: Prior, name: string, s: Stats, t1: real, t2: real)
    requires s.perCpu.Some?
    ensures var r := Measure(Stored(p, name, s, t1), name, s, t2);
      && r.cpuPercent == 0.0 && r.txRate == 0.0 && r.rxRate == 0.0
      && r.memPercent == Measure(p, name, s, t1).memPercent
  {
    StepState(p, name, s, t1);
  }

  /** Storing the same payload again changes only the time. */
  lemma RepeatedSampleKeepsCounters(p: Prior, name: string, s: Stats, t1: real, t2: real)
    ensures var q := Stored(p, name, s, t1);
      Stored(q, name, s, t2) == q.(timer := q.timer[name := t2])
  {
    var q := Stored(p, name, s, t1);
    assert q.cpu[name := Or(s.totalUsage, 0.0)] == q.cpu;
    assert q.system[name := Or(s.systemUsage, 0.0)] == q.system;
    assert q.tx[name := Or(s.txBytes, 0.0)] == q.tx;
    assert q.rx[name := Or(s.rxBytes, 0.0)] == q.rx;
  }

  /** A counter that went down (the container restarted) reports a zero rate and
      becomes the new baseline, so the next increase is measured from it. */
  lemma CounterReset(p: Prior, name: string, s1: Stats, s2: Stats, t1: real, t2: real)
    requires s1.perCpu.Some? && s2.perCpu.Some?
    requires Or(s1.txBytes, 0.0) < Prev(p.tx, name)
    requires Or(s2.txBytes, 0.0) > Or(s1.txBytes, 0.0) && t2 > t1
    ensures Measure(p, name, s1, t1).txRate == 0.0
    ensures Measure(Stored(p, name, s1, t1), name, s2, t2).txRate * (t2 - t1)
            == Or(s2.txBytes, 0.0) - Or(s1.txBytes, 0.0)
  {
    TxRateOf(p, name, s1, t1);
    var q := Stored(p, name, s1, t1);
    assert Prev(q.tx, name) == Or(s1.txBytes, 0.0) && Prev(q.timer, name) == t1;
    TxRateOf(q, name, s2, t2);
    ByteRateCases(Or(s2.txBytes, 0.0) - Or(s1.txBytes, 0.0), t2 - t1);
  }

  /** The received-bytes rate of one reading on its own, so that a proof about one
      rate need not unfold the whole of Measure. */
  lemma RxRateOf(p: Prior, name: string, s: Stats, now: real)
    requires s.perCpu.Some?
    ensures Measure(p, name, s, now).rxRate == ByteRate(Or(s.rxBytes, 0.0) - Prev(p.rx, name), now - Prev(p.timer, name))
  {
  }

  /** The sent-bytes rate of one reading on its own, as RxRateOf. */
  lemma TxRateOf(p: Prior, name: string, s: Stats, now: real)
    requires s.perCpu.Some?
    ensures Measure(p, name, s, now).txRate == ByteRate(Or(s.txBytes, 0.0) - Prev(p.tx, name), now - Prev(p.timer, name))
  {
  }

  /** `Names[0].strip('/')`: the container's first name without the slashes around
      it. A container without names ends the loop (`IndexError`, or `TypeError` when
      the list is missing, which is modelled as empty). */
  function ContainerName(names: seq<string>): (r: Option<string>)
    ensures r.None? <==> names == []
    ensures r.Some? ==> r.value == [] || (r.value[0] != '/' && r.value[|r.value| - 1] != '/')
    ensures r.Some? ==> exists i, j :: 0 <= i <= j <= |names[0]| && r.value == names[0][i..j]
                          && AllIn(names[0][..i], {'/'}) && AllIn(names[0][j..], {'/'})
  {
    if names == [] then None
    else
      StripPiece(names[0], {'/'});
      Some(Strip(names[0], {'/'}))
  }

  /** One entry of `/containers/json?all=1` with the answer of its stats request
      and the time read after it. */
  datatype Container = Container(names: seq<string>, stats: Stats, now: real)

  /** A gauge queued in the pipeline: metric name and value. */
  datatype Gauge = Gauge(metric: string, value: real)

  function Tagged(path: string, name: string): string {
    path + ",service=" + name
  }

  function MemGauge(name: string, s: Stats): Gauge {
    Gauge(Tagged("system.memory.virtual.percent", name), MemPercent(s))
  }

  /** The gauges queued for one container after the memory gauge, in order; the disk
      gauge is always 0. */
  function RestGauges(name: string, r: Reading): seq<Gauge> {
    [Gauge(Tagged("system.cpu.percent", name), r.cpuPercent),
     Gauge(Tagged("system.network.send_rate", name), r.txRate),
     Gauge(Tagged("system.network.recv_rate", name), r.rxRate),
     Gauge(Tagged("system.disk.root.percent", name), 0.0)]
  }

  /** The outcome of a cycle over the container list: the previous values afterwards,
      the gauges queued, and whether every container was processed (otherwise the
      exception ended `run_docker`). */
  datatype CycleResult = CycleResult(prior: Prior, gauges: seq<Gauge>, completed: bool)

  function CycleStep(c: CycleResult, x: Container): CycleResult {
    if !c.completed then c
    else
      match ContainerName(x.names)
      case None => c.(completed := false)
      case Some(name) =>
        match Step(c.prior, name, x.stats, x.now)
        case None => CycleResult(c.prior, c.gauges + [MemGauge(name, x.stats)], false)
        case Some((q, r)) => CycleResult(q, c.gauges + [MemGauge(name, x.stats)] + RestGauges(name, r), true)
  }

  /** One pass of the `for container in containers` loop, from the previous values p. */
  function Cycle(p: Prior, cs: seq<Container>): CycleResult {
    if cs == [] then CycleResult(p, [], true)
    else CycleStep(Cycle(p, cs[..|cs| - 1]), cs[|cs| - 1])
  }

  /** A cycle only adds names to the maps and never removes any: a container that
      disappears keeps its previous values. */
  lemma {:induction false} CycleKeepsNames(p: Prior, cs: seq<Container>)
    ensures var q := Cycle(p, cs).prior;
      p.cpu.Keys <= q.cpu.Keys && p.system.Keys <= q.system.Keys && p.tx.Keys <= q.tx.Keys
      && p.rx.Keys <= q.rx.Keys && p.timer.Keys <= q.timer.Keys
  {
    if cs != [] {
      CycleKeepsNames(p, cs[..|cs| - 1]);
      var c := Cycle(p, cs[..|cs| - 1]);
      var x := cs[|cs| - 1];
      if c.completed && ContainerName(x.names).Some? && x.stats.perCpu.Some? {
        StepState(c.prior, ContainerName(x.names).value, x.stats, x.now);
      }
    }
  }

  /** A completed cycle queues five gauges per container. */
  lemma {:induction false} CycleGaugeCount(p: Prior, cs: seq<Container>)
    ensures var c := Cycle(p, cs); c.completed ==> |c.gauges| == 5 * |cs|
  {
    if cs != [] {
      CycleGaugeCount(p, cs[..|cs| - 1]);
    }
  }

  /** A payload without a per-CPU list (an empty `{}` answer included) ends the loop:
      the container's memory gauge is already queued, and no previous value changes. */
  lemma MissingPerCpuStops(p: Prior, cs: seq<Container>, x: Container)
    requires Cycle(p, cs).completed && x.names != [] && x.stats.perCpu.None?
    ensures var c := Cycle(p, cs + [x]);
      && !c.completed && c.prior == Cycle(p, cs).prior
      && c.gauges == Cycle(p, cs).gauges + [MemGauge(ContainerName(x.names).value, x.stats)]
  {
    assert (cs + [x])[..|cs|] == cs;
  }

  /** The engine object: the five dictionaries of `run_docker` as fields. */
  class Engine {
    var prevCpu: map<string, real>
    var prevSystem: map<string, real>
    var prevTxBytes: map<string, real>
    var prevRxBytes: map<string, real>
    var prevTimer: map<string, real>

    function State(): Prior
      reads this
    {
      Prior(prevCpu, prevSystem, prevTxBytes, prevRxBytes, prevTimer)
    }

    constructor ()
      ensures State() == Empty
    {
      prevCpu, prevSystem := map[], map[];
      prevTxBytes, prevRxBytes, prevTimer := map[], map[], map[];
    }

    /** The body of the container loop for one container, in the source's order of
        statements; None when the per-CPU length lookup raises. */
    method Update(name: string, stats: Stats, now: real) returns (r: Option<Reading>)
      modifies this
      ensures Step(old(State()), name, stats, now).None? ==> r.None? && State() == old(State())
      ensures Step(old(State()), name, stats, now).Some? ==>
                r == Some(Step(old(State()), name, stats, now).value.1)
                && State() == Step(old(State()), name, stats, now).value.0
    {
      ghost var p := State();
      var memPercent := MemPercent(stats);

      var totalUsage := Or(stats.totalUsage, 0.0);
      var cpuDelta := totalUsage - Prev(prevCpu, name);
      var systemUsage := Or(stats.systemUsage, 0.0);
      var systemDelta := systemUsage - Prev(prevSystem, name);
      if stats.perCpu.None? {
        return None;
      }
      var numCpus := NumCpus(stats);
      var cpuPercent := CpuPercent(cpuDelta, systemDelta, numCpus);
      prevCpu, prevSystem := prevCpu[name := totalUsage], prevSystem[name := systemUsage];

      var txBytes := Or(stats.txBytes, 0.0);
      var rxBytes := Or(stats.rxBytes, 0.0);
      // `setdefault(name, 0)`: the 0 it may store is overwritten below in any case
      var tx := txBytes - Prev(prevTxBytes, name);
      var rx := rxBytes - Prev(prevRxBytes, name);
      var elapsed := now - Prev(prevTimer, name);
      prevTimer := prevTimer[name := now];
      var txRate := ByteRate(tx, elapsed);
      var rxRate := ByteRate(rx, elapsed);
      prevTxBytes := prevTxBytes[name := txBytes];
      prevRxBytes := prevRxBytes[name := rxBytes];
      assert State() == Stored(p, name, stats, now);
      r := Some(Reading(memPercent, cpuPercent, txRate, rxRate));
      assert r.value == Measure(p, name, stats, now);
    }

    /** One pass over the container list, queuing the gauges in the pipeline. */
    method RunCycle(containers: seq<Container>) returns (gauges: seq<Gauge>, completed: bool)
      modifies this
      ensures Cycle(old(State()), containers) == CycleResult(State(), gauges, completed)
    {
      gauges := [];
      var i := 0;
      while i < |containers|
        invariant i <= |containers|
        invariant Cycle(old(State()), containers[..i]) == CycleResult(State(), gauges, true)
      {
        var container := containers[i];
        assert containers[..i + 1][..i] == containers[..i];
        var name := ContainerName(container.names);
        if name.None? {
          CycleStops(old(State()), containers, i + 1);
          return gauges, false;
        }
        gauges := gauges + [MemGauge(name.value, container.stats)];
        var reading := Update(name.value, container.stats, container.now);
        if reading.None? {
          CycleStops(old(State()), containers, i + 1);
          return gauges, false;
        }
        gauges := gauges + RestGauges(name.value, reading.value);
        i := i + 1;
      }
      assert containers[..i] == containers;
      completed := true;
    }
  }

  /** Once a prefix of the list stops the cycle, the rest of the list changes nothing. */
  lemma {:induction false} CycleStops(p: Prior, cs: seq<Container>, n: nat)
    requires n <= |cs| && !Cycle(p, cs[..n]).completed
    ensures Cycle(p, cs) == Cycle(p, cs[..n])
    decreases |cs| - n
  {
    if n < |cs| {
      assert cs[..n + 1][..n] == cs[..n];
      CycleStops(p, cs, n + 1);
    } else {
      assert cs[..n] == cs;
    }
  }
}
