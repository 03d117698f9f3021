/**
 The `/api/metrics` handler of server.js: the network part of its answer.
 It keeps one snapshot of the previous totals (`prevNet`, none at first),
 derives bytes-per-second rates from it, and then overwrites it. The clock
 (`Date.now()`) and the counter file are parameters of each call.
 */
module NetMetrics {
  import opened JsText
  import opened NetDev

  /** The totals seen at one call, and the time of that call in
      milliseconds. */
  datatype Snapshot = Snapshot(rx: int, tx: int, ts: int)

  /** The `net` object of the response. */
  datatype NetReport = NetReport(rxBytes: int, txBytes: int, rxBps: int, txBps: int)

  /** JavaScript `Math.round(num / den)` over exact rationals, for a
      positive `den`. */
  function RoundDiv(num: int, den: int): int
    requires den > 0
  {
    (2 * num + den) / (2 * den)
  }

  /** `RoundDiv` is the nearest integer, a half rounded up (toward
      positive infinity). */
  lemma RoundDivSpec(num: int, den: int)
    requires den > 0
    ensures var r := RoundDiv(num, den);
      den * (2 * r - 1) <= 2 * num < den * (2 * r + 1)
  {
    DivBounds(2 * num + den, 2 * den);
  }

  lemma DivBounds(a: int, b: int)
    requires b > 0
    ensures b * (a / b) <= a < b * (a / b) + b
  {
  }

  /** There is only one such integer. */
  lemma RoundDivUnique(num: int, den: int, r: int)
    requires den > 0
    requires den * (2 * r - 1) <= 2 * num < den * (2 * r + 1)
    ensures r == RoundDiv(num, den)
  {
    var q := RoundDiv(num, den);
    RoundDivSpec(num, den);
    if r < q {
      MulMono(den, 2 * r + 1, 2 * q - 1);
    } else if r > q {
      MulMono(den, 2 * q + 1, 2 * r - 1);
    }
  }

  lemma MulMono(k: int, a: int, b: int)
    requires k > 0 && a <= b
    ensures k * a <= k * b
  {
  }

  /** `Math.round(delta / dt)` with `dt = ms / 1000` seconds. */
  function Rate(delta: int, ms: int): int
    requires ms > 0
  {
    RoundDiv(1000 * delta, ms)
  }

  /** The rate is `1000 * delta / ms` rounded to the nearest integer. */
  lemma RateSpec(delta: int, ms: int)
    requires ms > 0
    ensures var r := Rate(delta, ms);
      ms * (2 * r - 1) <= 2000 * delta < ms * (2 * r + 1)
  {
    RoundDivSpec(1000 * delta, ms);
  }

  /** What one call answers, from the snapshot it finds, the totals it
      reads and the current time: the totals as read, and rates of zero
      on the first call or when no time has passed. */
  function Report(prev: Option<Snapshot>, totals: NetTotals, now: int): (r: NetReport)
    ensures r.rxBytes == totals.rx && r.txBytes == totals.tx
    ensures prev.None? || now - prev.value.ts <= 0 ==> r.rxBps == 0 && r.txBps == 0
  {
    if prev.Some? && now - prev.value.ts > 0 then
      var ms := now - prev.value.ts;
      NetReport(totals.rx, totals.tx, Rate(totals.rx - prev.value.rx, ms), Rate(totals.tx - prev.value.tx, ms))
    else
      NetReport(totals.rx, totals.tx, 0, 0)
  }

  /** Otherwise each rate is the counter's growth per second, rounded. */
  lemma ReportRates(prev: Option<Snapshot>, totals: NetTotals, now: int)
    requires prev.Some? && now - prev.value.ts > 0
    ensures var r, ms := Report(prev, totals, now), now - prev.value.ts;
      ms * (2 * r.rxBps - 1) <= 2000 * (totals.rx - prev.value.rx) < ms * (2 * r.rxBps + 1) &&
      ms * (2 * r.txBps - 1) <= 2000 * (totals.tx - prev.value.tx) < ms * (2 * r.txBps + 1)
  {
    var ms := now - prev.value.ts;
    RateSpec(totals.rx - prev.value.rx, ms);
    RateSpec(totals.tx - prev.value.tx, ms);
  }

  /** Counters that did not move give a rate of zero. */
  lemma IdleRate(ms: int)
    requires ms > 0
    ensures Rate(0, ms) == 0
  {
    RoundDivUnique(0, ms, 0);
  }

  /** More bytes over the same interval never give a lower rate. */
  lemma RateMonotone(d1: int, d2: int, ms: int)
    requires ms > 0 && d1 <= d2
    ensures Rate(d1, ms) <= Rate(d2, ms)
  {
    var r1, r2 := Rate(d1, ms), Rate(d2, ms);
    RateSpec(d1, ms);
    RateSpec(d2, ms);
    if r1 > r2 {
      MulMono(ms, 2 * r2 + 1, 2 * r1 - 1);
    }
  }

  /** A whole number of bytes per second over a whole number of seconds is
      reported exactly. */
  lemma ExactRate(bps: int, secs: int)
    requires secs > 0
    ensures Rate(bps * secs, 1000 * secs) == bps
  {
    var ms := 1000 * secs;
    assert 2000 * (bps * secs) == ms * (2 * bps);
    RoundDivUnique(1000 * (bps * secs), ms, bps);
  }

  /** The worked example: 2000 and 1000 more bytes over two seconds. */
  lemma TwoSecondExample(t: int)
    ensures Report(Some(Snapshot(1000, 500, t)), NetTotals(3000, 1500), t + 2000) ==
            NetReport(3000, 1500, 1000, 500)
  {
    ExactRate(1000, 2);
    ExactRate(500, 2);
  }

  /** The module-level state of the handler. */
  class NetMeter {
    var prevNet: Option<Snapshot>

    constructor()
      ensures prevNet == None
    {
      prevNet := None;
    }

    /** One `/api/metrics` call at time `now`, with the counter file's text
        (`None` when it cannot be read): the rates against the previous
        snapshot, then the snapshot overwritten with this call's totals. */
    method Metrics(now: int, file: Option<string>) returns (report: NetReport)
      modifies this
      ensures report == Report(old(prevNet), ReadResult(file), now)
      ensures prevNet == Some(Snapshot(ReadResult(file).rx, ReadResult(file).tx, now))
    {
      var totals := ReadNetTotals(file);
      var rxRate, txRate := 0, 0;
      if prevNet.Some? {
        var dt := now - prevNet.value.ts;
        if dt > 0 {
          rxRate := Rate(totals.rx - prevNet.value.rx, dt);
          txRate := Rate(totals.tx - prevNet.value.tx, dt);
        }
      }
      prevNet := Some(Snapshot(totals.rx, totals.tx, now));
      report := NetReport(totals.rx, totals.tx, rxRate, txRate);
    }
  }
}
