/** The host network rates of `network` (statsd-agent.py:128-154). The source keeps
    the previous byte counters and their time in three module globals; here they are
    the fields of one sampler object. psutil's per-interface counters and the clock
    are inputs. */
module HostNetwork {

  /** psutil's per-interface counters: bytes sent and received, and the error
      counts `errin` (errors while receiving) and `errout` (errors while sending). */
  datatype NicCounters = NicCounters(bytesSent: real, bytesRecv: real, errin: real, errout: real)

  /** The four gauges of one sample. */
  datatype NetReport = NetReport(sendRate: real, recvRate: real, sendErrors: real, recvErrors: real)

  /** How a call of `network` ends: the interface has no counters (early return),
      the time since the last sample is zero (`ZeroDivisionError`), or a report. */
  datatype NetOutcome = UnknownNic | ZeroElapsed | Reported(report: NetReport)

  /** The three globals `prev_bytes_sent`, `prev_bytes_recv`, `prev_timer`. */
  datatype NetState = NetState(sent: real, recv: real, timer: real)

  /** Their values at import time. */
  const Initial := NetState(0.0, 0.0, 0.0)

  /** The error gauges as statsd-agent.py:153-154 label them: `send_errors` carries
      `errin` and `recv_errors` carries `errout`. */
  function ErrorGaugesAsWritten(c: NicCounters): (r: (real, real)) {
    (c.errin, c.errout)
  }

  /** The error gauges with each count under its own name. */
  function ErrorGauges(c: NicCounters): (r: (real, real))
    ensures r.0 == c.errout && r.1 == c.errin
  {
    (c.errout, c.errin)
  }

  /** One call of `network` on the globals `prev`: the byte counters are replaced
      before the division, the time only after it, and no delta or elapsed time is
      checked for sign. */
  function NetStep(prev: NetState, counters: map<string, NicCounters>, nic: string, timer: real)
    : (r: (NetState, NetOutcome))
  {
    if nic !in counters then (prev, UnknownNic)
    else
      var c := counters[nic];
      var elapsed := timer - prev.timer;
      var replaced := NetState(c.bytesSent, c.bytesRecv, prev.timer);
      if elapsed == 0.0 then (replaced, ZeroElapsed)
      else
        var (sendErrors, recvErrors) := ErrorGauges(c);
        (replaced.(timer := timer),
         Reported(NetReport((c.bytesSent - prev.sent) / elapsed, (c.bytesRecv - prev.recv) / elapsed,
                            sendErrors, recvErrors)))
  }

  /** What one call does: an unknown interface leaves the globals alone; otherwise the
      byte counters become the current ones and, unless no time has passed, the rates
      are the byte deltas per second since the previous sample and the time is
      replaced too. */
  lemma NetStepCases(prev: NetState, counters: map<string, NicCounters>, nic: string, timer: real)
    ensures var (next, out) := NetStep(prev, counters, nic, timer);
      && (nic !in counters <==> out == UnknownNic)
      && (nic !in counters ==> next == prev)
      && (nic in counters ==> next.sent == counters[nic].bytesSent && next.recv == counters[nic].bytesRecv)
      && (nic in counters && timer == prev.timer ==> out == ZeroElapsed && next.timer == prev.timer)
      && (nic in counters && timer != prev.timer ==>
            && out.Reported? && next.timer == timer
            && out.report.sendRate * (timer - prev.timer) == counters[nic].bytesSent - prev.sent
            && out.report.recvRate * (timer - prev.timer) == counters[nic].bytesRecv - prev.recv)
  {
  }

  /** The first call divides the whole counters by the time since the epoch. */
  lemma FirstCall(counters: map<string, NicCounters>, nic: string, timer: real)
    requires nic in counters && timer > 0.0
    ensures var out := NetStep(Initial, counters, nic, timer).1;
      out.Reported? && out.report.sendRate == counters[nic].bytesSent / timer
  {
  }

  /** Nothing guards against a counter that went down: with time moving forward, a
      smaller counter gives a negative rate. */
  lemma CounterResetGivesNegativeRate(prev: NetState, counters: map<string, NicCounters>, nic: string,
                                      timer: real)
    requires nic in counters && timer > prev.timer && counters[nic].bytesSent < prev.sent
    ensures var out := NetStep(prev, counters, nic, timer).1; out.Reported? && out.report.sendRate < 0.0
  {
    var elapsed := timer - prev.timer;
    var delta := counters[nic].bytesSent - prev.sent;
    var out := NetStep(prev, counters, nic, timer).1;
    assert out.report.sendRate * elapsed == delta;
  }

  /** After a call that failed on zero elapsed time, the next call measures its bytes
      from the counters of the failed call but its time from the sample before it. */
  lemma AfterZeroElapsed(prev: NetState, c1: map<string, NicCounters>, c2: map<string, NicCounters>,
                         nic: string, t2: real)
    requires nic in c1 && nic in c2 && t2 != prev.timer
    ensures var (mid, out1) := NetStep(prev, c1, nic, prev.timer);
      var out2 := NetStep(mid, c2, nic, t2).1;
      && out1 == ZeroElapsed
      && out2.Reported?
      && out2.report.sendRate * (t2 - prev.timer) == c2[nic].bytesSent - c1[nic].bytesSent
  {
    var mid := NetStep(prev, c1, nic, prev.timer).0;
    assert mid == NetState(c1[nic].bytesSent, c1[nic].bytesRecv, prev.timer);
    NetStepCases(mid, c2, nic, t2);
  }

  /** The labels as written swap the directions. Whenever a call reports, the
      program's `send_errors` is the count `NetStep` reports as receive errors and
      its `recv_errors` the count reported as send errors; so, as soon as the two
      counts differ (an interface with 5 receive errors and no send error, say),
      the program's `send_errors` is not the number of errors made while sending. */
  lemma AsWrittenSwapsDirections(prev: NetState, counters: map<string, NicCounters>, nic: string, timer: real)
    requires nic in counters && timer != prev.timer
    ensures var out := NetStep(prev, counters, nic, timer).1;
      var c := counters[nic];
      && out.Reported?
      && ErrorGaugesAsWritten(c) == (out.report.recvErrors, out.report.sendErrors)
      && (c.errin != c.errout ==> ErrorGaugesAsWritten(c).0 != out.report.sendErrors)
  {
    var out := NetStep(prev, counters, nic, timer).1;
    assert out.report.sendErrors == counters[nic].errout;
  }

  /** The sampler object: the three globals as fields. */
  class NetworkSampler {
    var prevBytesSent: real
    var prevBytesRecv: real
    var prevTimer: real

    function State(): NetState
      reads this
    {
      NetState(prevBytesSent, prevBytesRecv, prevTimer)
    }

    constructor ()
      ensures State() == Initial
    {
      prevBytesSent, prevBytesRecv, prevTimer := 0.0, 0.0, 0.0;
    }

    /** `network(...)` for the interface `nic`, with `counters` standing for
        `psutil.net_io_counters(True)` and `timer` for `time.time()`. */
    method Sample(counters: map<string, NicCounters>, nic: string, timer: real) returns (r: NetOutcome)
      modifies this
      ensures (State(), r) == NetStep(old(State()), counters, nic, timer)
    {
      if nic !in counters {
        return UnknownNic;
      }
      var net := counters[nic];
      var sent := net.bytesSent - prevBytesSent;
      var recv := net.bytesRecv - prevBytesRecv;
      prevBytesSent := net.bytesSent;
      prevBytesRecv := net.bytesRecv;
      var elapsed := timer - prevTimer;
      if elapsed == 0.0 {
        return ZeroElapsed;
      }
      var sendRate := sent / elapsed;
      var recvRate := recv / elapsed;
      prevTimer := timer;
      var (sendErrors, recvErrors) := ErrorGauges(net);
      r := Reported(NetReport(sendRate, recvRate, sendErrors, recvErrors));
    }
  }
}
