# Host dashboard: telemetry and control core

This project models the logic of a small Node.js host dashboard.

- `server.js` has two control routes. PM2 process actions are gated by an allow-list. Docker container actions are gated by a lookup in an object of commands.
- `server.js` also has the network half of `/api/metrics`. It sums the receive and transmit byte counters of `/proc/net/dev` over the interfaces that are not excluded. It keeps the previous totals in process-wide state and derives bytes-per-second rates from them.
- `routes/docker.js` has the `/stats/:id` computation: CPU percent, memory in MB and memory percent of the limit.
- `public/js/dashboard.js` keeps two line charts. Each holds the ten most recent samples in three parallel series.

Modules:

- `JsText` (`js_text.dfy`) models the JavaScript string operations the parser relies on:
  - `split('\n')` and `slice(2)`;
  - `filter(Boolean)`;
  - `replace(/:/, ' ')`, which rewrites only the first colon;
  - `trim()` and `split(/\s+/)`, with ECMAScript's set of white-space and line-terminator characters;
  - `startsWith`;
  - `parseInt(x, 10) || 0`.
- `NetDev` (`net_dev.dfy`) models `readNetTotals`. The loop is a method proved against a function over the counter lines. Lemmas then pin down what that function computes on a table in the kernel's layout. In that layout the name is padded, each counter is right-aligned in its column, and runs of blanks of any length separate the fields.
- `NetMetrics` (`net_metrics.dfy`) models the `prevNet` state as a class, and the `Math.round` rate over exact rationals.
- `ControlActions` (`control_actions.dfy`) covers:
  - the two allow-lists and the commands they select, with parse-back and injectivity lemmas;
  - the Docker gate as it is written, a JavaScript property read;
  - the two route handlers. They call the external `run` primitive, which records each command in a ghost log.
- `ContainerStats` (`container_stats.dfy`) models the stats arithmetic over exact reals.
- `Dashboard` (`dashboard.dfy`) models a chart as a class with three sequence fields. The page is a class holding two distinct charts.

The clock (`Date.now()`, `toLocaleTimeString()`), the contents of `/proc/net/dev` and the HTTP answers the dashboard fetches are parameters. A read failure of the counter file is `None`.

## Model

| member | source | states |
|---|---|---|
| JsText.IndexOfSpec | server.js:27 | the index found is the first occurrence of the separator, or the length when there is none |
| JsText.SplitOnPieces | server.js:27 | no piece of `split(sep)` contains the separator |
| JsText.SplitJoin | server.js:27 | splitting pieces joined with a separator they avoid gives back exactly those pieces |
| JsText.JoinSplit | server.js:27 | joining the pieces of a split with the separator gives back the original text |
| JsText.SplitOnAt | server.js:27 | text up to the first separator is the first piece; the rest is split on its own |
| JsText.SpaceRunSpec | server.js:30 | the leading run measured by `trim` is white space and is followed by a non-space |
| JsText.TrimEndSpec | server.js:30 | trimming the end leaves a prefix that ends in a non-space, and only white space was removed |
| JsText.TrimEnds | server.js:30 | a trimmed text is empty or starts and ends with a non-space |
| JsText.TrimUnpadded | server.js:30 | trimming white-space padding off an unpadded text gives that text |
| JsText.SplitWsPieces | server.js:30 | the fields of `split(/\s+/)` hold no white space, and none is empty when the text is trimmed and non-empty |
| JsText.SplitWsWordGap | server.js:30 | a word followed by a white-space run of any length is the first field, and the whole run is dropped |
| JsText.SplitWsInterleave | server.js:30 | non-empty space-free words separated by white-space runs of any lengths split back into exactly those words |
| JsText.ReplaceFirstAt | server.js:30 | `replace(/:/, ' ')` rewrites the first colon only, leaving all later ones |
| JsText.ReplaceFirstAbsent | server.js:30 | without a colon the line is unchanged |
| JsText.DigitRun | server.js:34-35 | `parseInt` reads the longest prefix of decimal digits: the prefix is all digits and the next character, if any, is not one |
| JsText.DecimalValue | server.js:34-35 | the decimal rendering of a natural number has that value |
| JsText.ParseIntNoNumber | server.js:34-35 | an empty string or one starting with anything but white space, a sign or a digit is not a number |
| JsText.ParseIntSkipsSpace | server.js:34-35 | leading white space does not change the result of `parseInt` |
| JsText.ParseIntPlain | server.js:34-35 | a digit run is read as its value, whatever non-digit text follows it |
| JsText.ParseIntSign | server.js:34-35 | a leading `-` negates the digit run's value and a leading `+` keeps it |
| JsText.DecimalParses | server.js:34-35 | `parseInt` reads back every decimal counter the kernel writes |
| NetDev.NonEmpty | server.js:27 | `filter(Boolean)` keeps exactly the non-empty lines: every line it keeps is non-empty and was in the list, and every non-empty line of the list is kept |
| NetDev.NonEmptyAppend | server.js:27 | filtering works line by line and keeps the order: the filter of two runs of lines is the two filters in sequence |
| NetDev.LineParts | server.js:30 | a line always yields at least one field, so the interface name `parts[0]` exists |
| NetDev.SumCounterLines | server.js:28-37 | the loop's totals are the sum, over the lines, of field 1 and field 9 of every line whose interface is not excluded |
| NetDev.ReadNetTotals | server.js:24-42 | `readNetTotals` gives the totals of the file's counter lines, or zeros when the file cannot be read |
| NetDev.SumOverAppend | server.js:29-36 | the totals of two runs of lines are the sum of their totals |
| NetDev.SumOverNonEmpty | server.js:27 | dropping lines that add nothing does not change the sum |
| NetDev.EmptyLineTotals | server.js:30-35 | an empty line adds nothing |
| NetDev.NonEmptySum | server.js:27 | `filter(Boolean)` does not change the totals |
| NetDev.EmptyLineIgnored | server.js:27 | an empty line anywhere leaves the totals unchanged |
| NetDev.HeaderLinesIgnored | server.js:27 | the two header lines never reach the loop; the counter lines are the non-empty body lines |
| NetDev.TerminatedLines | server.js:27 | a table ending in a line break gives exactly its non-empty body lines |
| NetDev.ExcludedLinesIgnored | server.js:32 | lines of `lo`, `docker*` and `veth*` interfaces do not change the totals |
| NetDev.KernelLineParts | server.js:30 | a kernel row's line splits into its interface name followed by its counters in decimal, whatever the name's padding and the column widths |
| NetDev.KernelLineTotals | server.js:31-36 | a kernel row in any column layout adds its first and ninth counters, or nothing when its interface is excluded |
| NetDev.RowLinesTotals | server.js:29-37 | the totals over kernel rows, each in any column layout, are the sums of their received and transmitted bytes over the rows not excluded |
| NetDev.KernelTableLines | server.js:27 | the counter lines of a table in the kernel's layout are exactly its row lines, whatever the header lines say |
| NetDev.KernelTableTotals | server.js:24-38 | `readNetTotals` over a whole table in the kernel's layout (padded names, aligned columns) gives exactly the expected received and transmitted sums |
| NetMetrics.RoundDivSpec | server.js:58-59 | the rounded quotient is the nearest integer, with halves rounded up as `Math.round` does |
| NetMetrics.RoundDivUnique | server.js:58-59 | no other integer satisfies those bounds |
| NetMetrics.RateSpec | server.js:56-59 | a rate is the growth in bytes per second over an interval given in milliseconds, rounded to the nearest integer |
| NetMetrics.Report | server.js:52-65 | the reported byte counts are the totals read; both rates are zero on the first call or when no time has passed |
| NetMetrics.ReportRates | server.js:55-59 | otherwise each rate is that counter's growth per second, rounded |
| NetMetrics.IdleRate | server.js:58-59 | counters that did not move give a rate of zero |
| NetMetrics.RateMonotone | server.js:58-59 | more bytes over the same interval never give a lower rate |
| NetMetrics.ExactRate | server.js:56-59 | a whole number of bytes per second over whole seconds is reported exactly |
| NetMetrics.TwoSecondExample | server.js:52-65 | 2000 and 1000 more bytes over two seconds are reported as 1000 and 500 bytes per second |
| NetMetrics.NetMeter.constructor | server.js:23 | there is no previous snapshot at start-up |
| NetMetrics.NetMeter.Metrics | server.js:52-65 | a call answers the report for the old snapshot, the totals read and the time, then stores this call's totals and time |
| ControlActions.Pm2Command | server.js:4-5 | a PM2 request gets a command exactly when its action is one of restart, stop, delete and start |
| ControlActions.Pm2RoundTrip | server.js:6 | the command run for an allowed action is `pm2 <action> <pmid>`: it reads back as that action and that process id |
| ControlActions.Pm2CommandInjective | server.js:4-6 | two different allowed requests never run the same command |
| ControlActions.DockerCommand | server.js:15-16 | a Docker request gets a command exactly when its action is restart, stop or remove |
| ControlActions.DockerRoundTrip | server.js:15 | the command for each action reads back as that action and that container, with removal always forced (`rm -f`) |
| ControlActions.DockerCommandInjective | server.js:15 | two different allowed Docker requests never run the same command |
| ControlActions.Lookup | server.js:16 | a property read finds exactly an own key's value, else the inherited `Object.prototype` member of that name, else `undefined` |
| ControlActions.DockerLookupOwnKeys | server.js:15-16 | on the object's own keys the lookup gives exactly the selected command |
| ControlActions.DockerGateAsWrittenAdmits | server.js:16 | the gate as written admits exactly the three actions and the names inherited from `Object.prototype` |
| ControlActions.DockerGateAdmitsToString | server.js:16-17 | `toString` passes the gate as written although it names no action, and what reaches `run` is not a command |
| ControlActions.ControlApi.constructor | server.js:7 | no command has been run at start-up |
| ControlActions.ControlApi.Run | server.js:7 | `run` receives one command, recorded in the log |
| ControlActions.ControlApi.PostPm2 | server.js:2-9 | a rejected action answers 400 `invalid action` and runs nothing; an allowed one runs exactly its one command and answers `run`'s result |
| ControlActions.ControlApi.PostDocker | server.js:13-19 | the same for the Docker route, with the corrected gate |
| ContainerStats.CpuPercent | routes/docker.js:33-36 | no elapsed system time gives 0 percent |
| ContainerStats.CpuPercentSpec | routes/docker.js:27-36 | otherwise the percentage times the system delta is the CPU delta times 100 per CPU |
| ContainerStats.CpuPercentBounds | routes/docker.js:27-36 | a container that used no more CPU time than elapsed is between 0 and 100 per CPU |
| ContainerStats.CpuPercentExample | routes/docker.js:33-36 | 2e8 of 1e9 on four CPUs is 80 percent |
| ContainerStats.MemUsage | routes/docker.js:38 | a missing usage counts as zero |
| ContainerStats.MemLimit | routes/docker.js:39 | a missing or zero limit becomes 1, so the limit is never zero |
| ContainerStats.MemPercentSpec | routes/docker.js:40 | the percentage times the limit is 100 times the usage |
| ContainerStats.MemPercentNoLimit | routes/docker.js:39-40 | without a usable limit the percentage is the usage times 100 |
| ContainerStats.MemPercentBounds | routes/docker.js:40 | usage within a positive limit is between 0 and 100 percent |
| ContainerStats.MemMbSpec | routes/docker.js:44 | the megabyte figure times 1048576 is the usage in bytes |
| ContainerStats.Load | routes/docker.js:27-46 | the answer's CPU is 0 without elapsed system time and otherwise the CPU delta over the system delta times 100 per CPU; its MB figure is the usage over 1048576; its percentage is 100 times the usage over the limit |
| Dashboard.RecentShape | public/js/dashboard.js:92-100 | a window within ten samples stays within ten, grows by one until full, and ends with the new sample |
| Dashboard.RecentDropsOldest | public/js/dashboard.js:92-100 | below ten nothing is dropped; at ten exactly the oldest sample is |
| Dashboard.FeedKeepsLast | public/js/dashboard.js:92-100 | after any number of updates a chart holds exactly the ten most recent samples, oldest first |
| Dashboard.Last | public/js/dashboard.js:96 | the window length is the number of samples, capped at ten |
| Dashboard.ChartWindow.constructor | public/js/dashboard.js:57-79 | a chart starts with three empty series |
| Dashboard.ChartWindow.Push | public/js/dashboard.js:92-100 | the three series each get the new value, and all three lose their oldest entry when the labels exceed ten; parallel series within the cap stay parallel and within it |
| Dashboard.DashboardPage.constructor | public/js/dashboard.js:53-80 | the page starts with two new, distinct, empty charts |
| Dashboard.DashboardPage.UpdateDockerStats | public/js/dashboard.js:82-103 | no container leaves both charts unchanged; otherwise the first container's stats enter the Docker chart and the PM2 chart is untouched |
| Dashboard.DashboardPage.UpdatePm2Stats | public/js/dashboard.js:105-126 | no process leaves both charts unchanged; otherwise the first process's stats enter the PM2 chart and the Docker chart is untouched |

## Left out

- The memory half of `/api/metrics` (`os.totalmem`, `os.freemem`, `usedPct`) is left out. It is floating-point arithmetic over values from the operating system.
- IEEE-754 doubles are left out. Byte totals and rates are exact integers, and the stats arithmetic is over exact reals. Precision loss above 2^53 and `NaN` from missing CPU fields are not modelled.
- `toFixed(2)` rendering of the stats answer is left out (string formatting of floats).
- ContainerStats.CpuPercent: the model always has a `percpu_usage` list. In the source, a sample without that list makes `percpu_usage.length` throw a TypeError once the system delta is positive. The async handler has no `catch` for it, so the request gets no answer. That path is not modelled.
- `ContainerStats.MemUsage`: a usage that is present but `NaN` is not modelled. The source would turn it into 0.
- `readFileSync` is a parameter of `NetDev.ReadNetTotals`. A file that cannot be read is `None`; the `catch` branch is the only way this model reaches it.
- `NetDev.SumCounterLines`: the `for` loop of `readNetTotals` is written as a separate method called by `NetDev.ReadNetTotals`.
- `Date.now()` and the dashboard's time label are parameters.
- `run`, the shell-command primitive, is not shown in the source. The model records the command it receives and stands for its result by that command. What `run` does with a failing command, or with a value that is not a string, is not part of this model.
- Express routing, `requireAuth`, the `/api/health` route, routes/pm2.js and routes/auth.js are left out: framework glue and authentication outside this core.
- The `/containers` and `/restart/:id` routes of routes/docker.js are left out. They forward to the Docker engine client and hold no logic.
- `loadDocker`, `loadPM2`, `restartDocker`, `restartPM2`, the `setInterval` timers and `chart.update()` in dashboard.js are left out: DOM rendering, timers and network calls.
- The test-process scripts are left out (sample workloads, not part of the dashboard).
- Concurrency between handlers and pollers is not modelled. Each call is one uninterrupted step.

## Findings

| source | as written | input that shows it | evidently intended | confidence | as-written member | corrected member |
|---|---|---|---|---|---|---|
| server.js:15-17 | the Docker gate tests `!map[action]` on a plain object literal, so any name inherited from `Object.prototype` is truthy and passes | `POST /api/docker/web/toString` (also `constructor`, `valueOf`, `__proto__`, …) passes the gate, and `run` receives a function instead of a command | only the three own keys restart, stop and remove reach `run`, as the comment at server.js:12 says; everything else gets 400 `invalid action` | not executed | ControlActions.DockerGateAdmitsToString | ControlActions.DockerCommand |
