/**
 The `GET /stats/:id` route of routes/docker.js: from one (non-streamed)
 Docker stats sample it derives a CPU percentage, the memory in use in
 megabytes and the memory percentage of the limit. Arithmetic is over
 exact reals; the IEEE rounding and the final `toFixed(2)` rendering are
 not modelled.
 */
module ContainerStats {
  import opened JsText

  /** The fields of a Docker stats sample the route reads. The memory
      fields may be absent (`None`). */
  datatype StatsSample = StatsSample(
    cpuTotal: real,          // cpu_stats.cpu_usage.total_usage
    preCpuTotal: real,       // precpu_stats.cpu_usage.total_usage
    systemCpu: real,         // cpu_stats.system_cpu_usage
    preSystemCpu: real,      // precpu_stats.system_cpu_usage
    perCpu: seq<real>,       // cpu_stats.cpu_usage.percpu_usage
    memUsage: Option<real>,  // memory_stats.usage
    memLimit: Option<real>)  // memory_stats.limit

  /** The response, before rendering each number with two decimals. */
  datatype ContainerLoad = ContainerLoad(cpu: real, memMb: real, memPercent: real)

  function CpuDelta(s: StatsSample): real {
    s.cpuTotal - s.preCpuTotal
  }

  function SystemDelta(s: StatsSample): real {
    s.systemCpu - s.preSystemCpu
  }

  /** The container's share of the host's CPU time between the two
      readings, scaled by the number of CPUs: 100 per fully busy CPU. No
      system time elapsed gives 0. */
  function CpuPercent(s: StatsSample): (p: real)
    ensures SystemDelta(s) <= 0.0 ==> p == 0.0
  {
    if SystemDelta(s) > 0.0 then
      (CpuDelta(s) / SystemDelta(s)) * (|s.perCpu| as real) * 100.0
    else 0.0
  }

  /** Otherwise the percentage is exactly the CPU delta over the system
      delta, times 100 per CPU. */
  lemma CpuPercentSpec(s: StatsSample)
    requires SystemDelta(s) > 0.0
    ensures CpuPercent(s) * SystemDelta(s) == CpuDelta(s) * (|s.perCpu| as real) * 100.0
  {
    var q := CpuDelta(s) / SystemDelta(s);
    assert q * SystemDelta(s) == CpuDelta(s);
  }

  /** A container that used no more than the time that elapsed is between
      0 and 100 per CPU. */
  lemma CpuPercentBounds(s: StatsSample)
    requires 0.0 <= CpuDelta(s) <= SystemDelta(s)
    ensures 0.0 <= CpuPercent(s) <= (|s.perCpu| as real) * 100.0
  {
    if SystemDelta(s) > 0.0 {
      var q := CpuDelta(s) / SystemDelta(s);
      assert 0.0 <= q <= 1.0;
    }
  }

  /** The worked example: 2e8 out of 1e9 on four CPUs is 80 percent. */
  lemma CpuPercentExample(s: StatsSample)
    requires CpuDelta(s) == 200000000.0 && SystemDelta(s) == 1000000000.0
    requires |s.perCpu| == 4
    ensures CpuPercent(s) == 80.0
  {
    assert CpuDelta(s) / SystemDelta(s) == 0.2;
  }

  /** `memory_stats.usage || 0`: a missing usage counts as none. */
  function MemUsage(s: StatsSample): (u: real)
    ensures s.memUsage.None? ==> u == 0.0
    ensures s.memUsage.Some? ==> u == s.memUsage.value
  {
    if s.memUsage.Some? && s.memUsage.value != 0.0 then s.memUsage.value else 0.0
  }

  /** `memory_stats.limit || 1`: a missing or zero limit becomes 1, so the
      limit is never zero. */
  function MemLimit(s: StatsSample): (l: real)
    ensures l != 0.0
    ensures s.memLimit.None? || s.memLimit.value == 0.0 ==> l == 1.0
    ensures s.memLimit.Some? && s.memLimit.value != 0.0 ==> l == s.memLimit.value
  {
    if s.memLimit.Some? && s.memLimit.value != 0.0 then s.memLimit.value else 1.0
  }

  /** `(memUsage / memLimit) * 100`. */
  function MemPercent(s: StatsSample): real {
    (MemUsage(s) / MemLimit(s)) * 100.0
  }

  /** The percentage times the limit is 100 times the usage. */
  lemma MemPercentSpec(s: StatsSample)
    ensures MemPercent(s) * MemLimit(s) == MemUsage(s) * 100.0
  {
    var q := MemUsage(s) / MemLimit(s);
    assert q * MemLimit(s) == MemUsage(s);
  }

  /** Without a usable limit the "percentage" is the usage in bytes times
      100. */
  lemma MemPercentNoLimit(s: StatsSample)
    requires s.memLimit.None? || s.memLimit.value == 0.0
    ensures MemPercent(s) == MemUsage(s) * 100.0
  {
  }

  /** Usage within a positive limit is between 0 and 100 percent. */
  lemma MemPercentBounds(s: StatsSample)
    requires s.memLimit.Some? && s.memLimit.value > 0.0
    requires 0.0 <= MemUsage(s) <= s.memLimit.value
    ensures 0.0 <= MemPercent(s) <= 100.0
  {
    var q := MemUsage(s) / MemLimit(s);
    assert 0.0 <= q <= 1.0;
  }

  /** `memUsage / 1024 / 1024`: bytes to mebibytes. */
  function MemMb(s: StatsSample): real {
    MemUsage(s) / 1024.0 / 1024.0
  }

  lemma MemMbSpec(s: StatsSample)
    ensures MemMb(s) * 1048576.0 == MemUsage(s)
  {
    var k := MemUsage(s) / 1024.0;
    assert k * 1024.0 == MemUsage(s);
    assert MemMb(s) * 1024.0 == k;
  }

  /** The route's answer for one sample. */
  function Load(s: StatsSample): (r: ContainerLoad)
    ensures SystemDelta(s) <= 0.0 ==> r.cpu == 0.0
    ensures SystemDelta(s) > 0.0 ==>
              r.cpu * SystemDelta(s) == CpuDelta(s) * (|s.perCpu| as real) * 100.0
    ensures r.memMb * 1048576.0 == MemUsage(s)
    ensures r.memPercent * MemLimit(s) == MemUsage(s) * 100.0
  {
    MemMbSpec(s);
    MemPercentSpec(s);
    var r := ContainerLoad(CpuPercent(s), MemMb(s), MemPercent(s));
    assert SystemDelta(s) > 0.0 ==>
             r.cpu * SystemDelta(s) == CpuDelta(s) * (|s.perCpu| as real) * 100.0 by {
      if SystemDelta(s) > 0.0 {
        CpuPercentSpec(s);
      }
    }
    r
  }
}
