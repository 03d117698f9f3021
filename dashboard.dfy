/**
 The live charts of public/js/dashboard.js. Each chart keeps three parallel
 series (time labels, CPU values, memory values); an update appends one
 sample to each and, once the labels exceed ten, drops the oldest entry of
 each, so a chart shows the ten most recent samples. The fetched container
 or process list, the fetched stats and the clock reading are parameters;
 drawing (`chart.update()`) is not modelled.
 */
module Dashboard {

  /** The number of samples a chart keeps. */
  const Cap: nat := 10

  /** Append `x`, then drop the first element when `full`. */
  function Pushed<T>(s: seq<T>, x: T, full: bool): seq<T> {
    if full then (s + [x])[1..] else s + [x]
  }

  /** Whether appending to a series of this length overflows the window. */
  predicate Overflows<T>(s: seq<T>) {
    |s| + 1 > Cap
  }

  /** One update of a single series on its own. */
  function Recent<T>(s: seq<T>, x: T): seq<T> {
    Pushed(s, x, Overflows(s))
  }

  /** A window within the cap stays within it, grows by one until full,
      and always ends with the new sample. */
  lemma RecentShape<T>(s: seq<T>, x: T)
    requires |s| <= Cap
    ensures |Recent(s, x)| == if |s| < Cap then |s| + 1 else Cap
    ensures Recent(s, x)[|Recent(s, x)| - 1] == x
  {
  }

  /** Below the cap nothing is dropped; at the cap exactly the oldest
      sample is. */
  lemma RecentDropsOldest<T>(s: seq<T>, x: T)
    ensures |s| < Cap ==> Recent(s, x) == s + [x]
    ensures |s| == Cap ==> Recent(s, x) == s[1..] + [x]
  {
  }

  /** The last `n` elements of `s` (all of them when there are fewer). */
  function Last<T>(s: seq<T>, n: nat): (r: seq<T>)
    ensures |r| == if |s| < n then |s| else n
  {
    if |s| < n then s else s[|s| - n..]
  }

  /** The series after feeding the samples `xs`, one update each, to an
      empty chart. */
  function Feed<T>(xs: seq<T>): seq<T> {
    if xs == [] then [] else Recent(Feed(xs[..|xs| - 1]), xs[|xs| - 1])
  }

  /** After any number of updates a chart holds exactly the `Cap` most
      recent samples, oldest first. */
  lemma {:induction false} FeedKeepsLast<T>(xs: seq<T>)
    ensures Feed(xs) == Last(xs, Cap)
  {
    if xs != [] {
      var init, x := xs[..|xs| - 1], xs[|xs| - 1];
      FeedKeepsLast(init);
      assert xs == init + [x];
      if |init| < Cap {
        assert Feed(xs) == init + [x];
      } else {
        var w := Last(init, Cap);
        assert |w| == Cap;
        assert Feed(xs) == w[1..] + [x];
        assert w[1..] == init[|init| - Cap + 1..];
        assert xs[|xs| - Cap..] == init[|init| - Cap + 1..] + [x];
      }
    }
  }

  /** The values one stats request gives a chart. */
  datatype StatsReply = StatsReply(cpu: string, mem: string)

  /** A line chart's data: `labels` and the two datasets. */
  class ChartWindow {
    var labels: seq<string>
    var cpuData: seq<string>
    var memData: seq<string>

    /** The series run in parallel and within the cap. */
    predicate Valid()
      reads this
    {
      |labels| == |cpuData| == |memData| <= Cap
    }

    /** A chart created with empty data. */
    constructor()
      ensures labels == [] && cpuData == [] && memData == []
      ensures Valid()
    {
      labels, cpuData, memData := [], [], [];
    }

    /** The three pushes, then the three shifts when the labels exceed the
        cap. Only the labels' length decides the shift. */
    method Push(t: string, cpu: string, mem: string)
      modifies this
      ensures labels == Pushed(old(labels), t, Overflows(old(labels)))
      ensures cpuData == Pushed(old(cpuData), cpu, Overflows(old(labels)))
      ensures memData == Pushed(old(memData), mem, Overflows(old(labels)))
      ensures old(Valid()) ==>
                Valid() && labels == Recent(old(labels), t) &&
                cpuData == Recent(old(cpuData), cpu) && memData == Recent(old(memData), mem)
    {
      labels := labels + [t];
      cpuData := cpuData + [cpu];
      memData := memData + [mem];
      if |labels| > Cap {
        labels := labels[1..];
        cpuData := cpuData[1..];
        memData := memData[1..];
      }
    }
  }

  /** The page's two charts. */
  class DashboardPage {
    var dockerChart: ChartWindow
    var pm2Chart: ChartWindow

    predicate Valid()
      reads this, dockerChart, pm2Chart
    {
      dockerChart != pm2Chart && dockerChart.Valid() && pm2Chart.Valid()
    }

    /** `initCharts`: two new, empty charts. */
    constructor()
      ensures fresh(dockerChart) && fresh(pm2Chart)
      ensures dockerChart.labels == [] && pm2Chart.labels == []
      ensures Valid()
    {
      dockerChart := new ChartWindow();
      pm2Chart := new ChartWindow();
    }

    /** `updateDockerStats`, given the container ids it fetched, the stats
        each id would return and the time label: nothing happens without a
        container; otherwise the first container's stats go to the Docker
        chart, and the PM2 chart is untouched. */
    method UpdateDockerStats(containers: seq<string>, stats: string -> StatsReply, t: string)
      requires Valid()
      modifies dockerChart
      ensures Valid()
      ensures unchanged(pm2Chart)
      ensures containers == [] ==> unchanged(dockerChart)
      ensures containers != [] ==>
                var reply := stats(containers[0]);
                dockerChart.labels == Recent(old(dockerChart.labels), t) &&
                dockerChart.cpuData == Recent(old(dockerChart.cpuData), reply.cpu) &&
                dockerChart.memData == Recent(old(dockerChart.memData), reply.mem)
    {
      if |containers| == 0 {
        return;
      }
      var reply := stats(containers[0]);
      dockerChart.Push(t, reply.cpu, reply.mem);
    }

    /** `updatePm2Stats`: the same for the first PM2 process and the PM2
        chart. */
    method UpdatePm2Stats(procs: seq<string>, stats: string -> StatsReply, t: string)
      requires Valid()
      modifies pm2Chart
      ensures Valid()
      ensures unchanged(dockerChart)
      ensures procs == [] ==> unchanged(pm2Chart)
      ensures procs != [] ==>
                var reply := stats(procs[0]);
                pm2Chart.labels == Recent(old(pm2Chart.labels), t) &&
                pm2Chart.cpuData == Recent(old(pm2Chart.cpuData), reply.cpu) &&
                pm2Chart.memData == Recent(old(pm2Chart.memData), reply.mem)
    {
      if |procs| == 0 {
        return;
      }
      var reply := stats(procs[0]);
      pm2Chart.Push(t, reply.cpu, reply.mem);
    }
  }
}
