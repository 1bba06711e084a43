# libp2p perf harness: a Dafny model

This project models the orchestration engine of the libp2p perf benchmark.
The engine is the runner in `perf/runner/src/index.ts`, together with the
server side of its address discovery in
`perf/impl/js-libp2p/webrtc-roamhq-wrtc/index.ts`.

The runner works in this order:
- It measures two baselines on a pair of remote hosts: a ping series and an iperf3 throughput series.
- It selects the implementation versions to run, and rsyncs and builds them on both hosts.
- It runs three benchmarks: upload, download and latency. For each version, it stops the previous server and starts a new one.
- When the version supports WebRTC Direct, it discovers the address the server actually listens on by reading the server's discovery file.
- It runs one remote client loop per transport stack and turns the loop's output into values.

The remote hosts are an oracle: `Shell.Hosts` answers every command given the commands issued before it. Every command the runner sends is a `Shell.Command` value, and the model keeps the full command trace. The contracts can therefore state both the outcome and the exact commands issued, such as exactly one server start per version, or no discovery for a TCP-only version.

The modules are:
- `JsText`: the JavaScript string operations used: `trim`, `split`, `join`, `indexOf`, `replace` with a string pattern, and map-then-filter.
- `Probes`: the ping and iperf3 scrapers. Their regular expressions are written out position by position.
- `Discovery`: `cat | grep | tail -1` on the discovery file, the listen-address pattern, and the loopback rewrite.
- `Catalog`: the version filter and the list of implementations to build.
- `Shell`: commands, `execCommand` (failure ends the process), `execSync` (failure throws), and the bash client loop with its timeout sentinel 124.
- `Executor`: specification functions for one benchmark: discovery, clients, versions, and the shape of the results.
- `Runner`: the runner's loops, written as loops and each proved equal to its `Executor` function.
- `Harness`: `main` with its baselines, build and three benchmarks.
- `WrtcPerf`: the WebRTC perf executable: transport check, `splitHostPort`, listen and dial addresses, discovery lines, and `main`.
- `RoundTrip`: the server's discovery lines read back by the runner, and the bind address as each side sees it.

Some behaviours of the code that the model keeps as written:
- **Ping failures are fatal.** `runPing` runs the ping through `execCommand`, which calls `process.exit(1)` on a non-zero status (perf/runner/src/index.ts:257-268). So the `catch` around it in `main` (index.ts:15-19) never sees a ping failure, and its placeholder is never used. The same holds for the iperf server's stop and start commands. Only the iperf client, a plain `execSync` (index.ts:111), throws an error that `main` catches (index.ts:21-25). In that case the placeholder `{unit: "bit/s", results: []}` stays.
- **Value count follows output lines, not iterations.** `runClient` keeps one value per line of the loop's output that `JSON.parse` accepts (index.ts:241-252). A perf client may print several lines per iteration. So the proved bound is the number of output lines.
- **The loop status comes only from the last iteration.** The remote loop `for i in {1..n}; do timeout … || [ $? -eq 124 ]; done` exits with the status of its last iteration. A failing iteration before it does not end the run. For `n <= 0`, bash's brace expansion counts down, so the loop runs `2 - n` times.
- **Discovery uses the grep the command line holds.** The grep at index.ts:276 is a bracket expression, not the literal marker (see "## Findings"). `Executor.DiscoverOnce` uses it through `Discovery.DiscoveredAddrAsWritten`. The intended marker grep is `Discovery.DiscoveredAddr`. `Discovery.DiscoveriesAgree` proves the two find the same address on any file whose every line carries the marker, and that is every file the perf server writes.

## Model

| member | source | states |
|---|---|---|
| JsText.Trim | perf/runner/src/index.ts:241 | trim() removes only white space: the result is no longer than the input, has no white space at either end, and is empty exactly when the input is all white space |
| JsText.TrimAround | perf/runner/src/index.ts:277 | white space around a core that does not start or end with white space is removed and the core is kept whole |
| JsText.Split | perf/runner/src/index.ts:241 | split on one character gives at least one piece; no piece holds the separator; joining the pieces with it gives the input back |
| JsText.SplitJoin | perf/runner/src/index.ts:87 | split inverts join: splitting a join of separator-free pieces gives those pieces |
| JsText.IndexOf | perf/runner/src/index.ts:287 | indexOf finds the first occurrence of the pattern, and finds none exactly when it occurs nowhere |
| JsText.ReplaceFirst | perf/runner/src/index.ts:287 | replace with a string pattern leaves a string without the pattern unchanged; otherwise only the first occurrence is replaced, by the replacement text when it holds no '$' |
| JsText.SubstituteLiteral | perf/runner/src/index.ts:287 | a replacement text without '$' is inserted verbatim (no $-pattern expansion) |
| JsText.FilterMap | perf/runner/src/index.ts:88-93 | map-then-drop-null keeps at most one value per line; no line parses gives no values; every line parses gives one value per line |
| JsText.FilterMapAppend | perf/runner/src/index.ts:88-93 | each line is kept on its own merits and in order: the values of two line lists concatenated are the values of each, concatenated |
| Probes.LastMs | perf/runner/src/index.ts:90 | the greedy `(.*)` of /time=(.*) ms/ ends at the last " ms" reachable without crossing a line terminator |
| Probes.PingMatchFrom | perf/runner/src/index.ts:90 | /time=(.*) ms/ matches at the leftmost possible "time=", takes the longest group, and matches nowhere when it reports no match |
| Probes.PingMatchWhole | perf/runner/src/index.ts:90 | a match that starts the line and whose " ms" ends it is the match /time=(.*) ms/ takes |
| Probes.PingGroup | perf/runner/src/index.ts:90-91 | on the line "time=<c> ms" the captured group is exactly c, whatever c holds apart from line terminators |
| Probes.PingLineValue | perf/runner/src/index.ts:90-91 | such a line yields c parsed by parseFloat and divided by 1000, from milliseconds to seconds |
| Probes.PingExample | perf/runner/src/index.ts:87-95 | the ping line "time=23.4 ms" becomes 0.0234 seconds |
| Probes.PingTimesJoin | perf/runner/src/index.ts:87-93 | ping times are scraped line by line: the times of two outputs joined by a newline are the times of each, in order |
| Probes.IperfMatchAtShape | perf/runner/src/index.ts:117 | at one position, the iperf pattern matches exactly when a decimal number there (a digit run, optionally '.' and a second digit run) is followed by a space, one word character and "bits/sec". The match gives that number's text and that unit letter |
| Probes.IperfShapeGreedy | perf/runner/src/index.ts:117 | backtracking cannot pick a different number: wherever the pattern can match at a position, its number takes both digit runs whole, and the fraction whenever a digit follows the '.' |
| Probes.IperfMatchFrom | perf/runner/src/index.ts:117 | the iperf pattern matches at the leftmost position where it can, and nowhere when it reports no match |
| Probes.IperfLineValue | perf/runner/src/index.ts:117-123 | every line "<number> <letter>bits/sec" yields its number parsed and multiplied by its unit letter's multiplier |
| Probes.IperfLineRates | perf/runner/src/index.ts:114-127 | such a line on its own is a one-value series: 'G', 'M' and 'K' multiply by 1e9, 1e6 and 1e3, and every other unit letter keeps the parsed number |
| Probes.IperfExample | perf/runner/src/index.ts:114-129 | the iperf line "10.5 Gbits/sec" becomes 10.5e9 bit/s |
| Probes.IperfExampleLine | perf/runner/src/index.ts:117-123 | the number and unit letter of "10.5 Gbits/sec" are "10.5" and 'G', and the multiplier for 'G' is 1e9 |
| Probes.IperfRatesJoin | perf/runner/src/index.ts:114-127 | bit rates are scraped line by line: the rates of two outputs joined by a newline are the rates of each, in order |
| Discovery.TerminatedAppend | perf/impl/js-libp2p/webrtc-roamhq-wrtc/index.ts:90 | appending whole lines to a file gives the file of all the lines in order |
| Discovery.FileLinesOfTerminated | perf/runner/src/index.ts:276 | reading back a file of newline-free lines, as grep and tail see it, gives exactly those lines |
| Discovery.LastSelected | perf/runner/src/index.ts:276 | `grep … \| tail -1` gives the last line of the file that the grep selects, with no selected line after it, and nothing exactly when it selects no line |
| Discovery.LastSelectedEnd | perf/runner/src/index.ts:276 | when the last line of the file is selected, tail prints that line, whatever precedes it |
| Discovery.SpaceEnd | perf/runner/src/index.ts:280 | `\s+` runs to the first character that is not white space |
| Discovery.NonSpaceEnd | perf/runner/src/index.ts:280 | `[^\s]+` runs to the first white-space character |
| Discovery.ListenMatchAt | perf/runner/src/index.ts:280 | at one position, the listen-address pattern matches exactly when the marker is followed by white space, /ip4/ or /ip6/ and a character that is not white space. Its group is then the whole run of non-white-space from /ip4/ or /ip6/ up to the next white space or the end |
| Discovery.ListenMatchFrom | perf/runner/src/index.ts:280 | the listen-address pattern matches at the leftmost possible position, and nowhere when it reports no match |
| Discovery.ListenToken | perf/runner/src/index.ts:280-281 | the pattern finds an address exactly when it can match somewhere in the text. The address is taken at the leftmost place where it matches. It starts with /ip4/ or /ip6/ and runs up to the next white space or the end of the text |
| Discovery.ExtractListenAddr | perf/runner/src/index.ts:277-288 | the discovery fails exactly when the trimmed output holds no match, and a captured address without "/ip4/127.0.0.1/" is returned as it is |
| Discovery.LoopbackRewritten | perf/runner/src/index.ts:287 | an address that starts with /ip4/127.0.0.1/ gets the server's public address in its place and keeps the rest |
| Discovery.NoMarkerNoToken | perf/runner/src/index.ts:280 | text without the [LISTEN_ADDR] marker yields no address |
| Discovery.GrepsAgreeOnMarkedLines | perf/runner/src/index.ts:276 | on a file whose every line carries the marker, the bracket-expression grep and the marker grep select the same line |
| Discovery.DiscoveredAddr | perf/runner/src/index.ts:275-289 | with the marker grep, a file without a marked line gives no address |
| Discovery.DiscoveredAddrAsWritten | perf/runner/src/index.ts:275-289 | with the bracket-expression grep the runner sends, there is no address when the grep selects no line. An address comes only from a last selected line that carries the marker |
| Discovery.UnmarkedLastLine | perf/runner/src/index.ts:276-284 | when the last line the grep selects holds no marker, the pattern finds nothing and the discovery fails |
| Discovery.DiscoveriesAgree | perf/runner/src/index.ts:276 | on a file whose every line carries the marker, the discovery as written and the one with the marker grep give the same result |
| Catalog.VersionsToRun | perf/runner/src/index.ts:27 | the filter keeps exactly the versions it names, keeps the whole table when it holds "all", and never adds rows |
| Catalog.VersionsToRunAppend | perf/runner/src/index.ts:27 | the filter keeps table order: filtering two parts of a table filters each part and keeps them in that order |
| Catalog.Implementations | perf/runner/src/index.ts:29 | the implementation names of the selected versions, one per version, in order |
| Catalog.FirstOccurrences | perf/runner/src/index.ts:29 | new Set(...) holds every name once and no other name |
| Catalog.FirstOccurrencesOrdered | perf/runner/src/index.ts:29 | the set's names come in the order of their first occurrence |
| Catalog.ImplsToBuildSpec | perf/runner/src/index.ts:29 | the build list is the space-joined list of names; it names each selected implementation exactly once, nothing else, in order of first appearance |
| Shell.Run | perf/runner/src/index.ts:257-268 | execCommand appends the command to the trace, succeeds exactly when the status is 0, and otherwise ends the process instead of throwing |
| Shell.RunThrowing | perf/runner/src/index.ts:111 | plain execSync succeeds exactly when the status is 0 and otherwise throws, never ending the process itself |
| Shell.BraceWordsSteps | perf/runner/src/index.ts:236 | `{a..b}` expands to words that start at a, end at b, and step by one towards b, so there are \|b - a\| + 1 of them |
| Shell.BraceExpansion | perf/runner/src/index.ts:236 | the loop body runs once per word of `{1..n}`: n times for n >= 1, and 2 - n times for n <= 0, counting down through 0 |
| Shell.LoopStatus | perf/runner/src/index.ts:234-236 | the loop succeeds exactly when it ran nothing or its last iteration exited 0 or 124 (the timeout sentinel); its status is 0 or 1 |
| Shell.LoopOutput | perf/runner/src/index.ts:236 | the loop's output is every iteration's output in order, failed iterations included |
| Shell.LoopRunIsForLoop | perf/runner/src/index.ts:234-236 | running the iterations one after another, keeping the guarded status of the last and all the output, is the bash for loop over the iterations the oracle answers |
| Shell.RunLoop | perf/runner/src/index.ts:234-239 | the client loop runs through execCommand, so it never throws. It succeeds exactly when its last iteration exits 0 or 124, and then its output is that of every iteration, in order. It also succeeds whenever every iteration exits 0 or 124 |
| Executor.ClientRun | perf/runner/src/index.ts:225-255 | runClient issues exactly one loop command and never throws |
| Executor.ClientRunOutcome | perf/runner/src/index.ts:234-241 | a client run ends the process exactly when the last iteration of its loop fails other than by the timeout. Otherwise its values come from the output of all the iterations |
| Executor.ClientValuesBound | perf/runner/src/index.ts:241-254 | a client never reports more values than its trimmed output has lines, and reports one per line when every line parses |
| Executor.DiscoverOnce | perf/runner/src/index.ts:172-173 | the run ends exactly when the sleep or the remote read exits non-zero. The discovery throws the no-listen-address error exactly when both succeed and the as-written discovery finds no address in the file read; otherwise it returns that address. It issues the sleep, then the read |
| Executor.Discover | perf/runner/src/index.ts:167-176 | the discovery loop starts no server |
| Executor.DiscoverStops | perf/runner/src/index.ts:173 | a failed discovery ends the loop: later stacks add nothing |
| Executor.NoDiscoveryWithoutWebRTC | perf/runner/src/index.ts:168-169 | a version without webrtc-direct discovers nothing and issues no command |
| Executor.DiscoveryCaptures | perf/runner/src/index.ts:167-176 | for a version with webrtc-direct, a completed discovery loop has captured an address |
| Executor.Clients | perf/runner/src/index.ts:178-198 | the client loop gives one result per transport stack |
| Executor.ClientsStarts | perf/runner/src/index.ts:178-198 | the client loop starts no server |
| Executor.ClientsStops | perf/runner/src/index.ts:239 | a failed client ends the loop: later stacks add nothing |
| Executor.VersionRun | perf/runner/src/index.ts:148-198 | one version starts exactly one server and gives one result per transport stack |
| Executor.AcrossVersions | perf/runner/src/index.ts:148-199 | a completed benchmark started exactly one server per version, one after another |
| Executor.AcrossVersionsStops | perf/runner/src/index.ts:148 | a failed version ends the benchmark: later versions add nothing |
| Executor.StackLabelsAt | perf/runner/src/index.ts:192-197 | a version contributes one label per transport stack: its implementation, its id and that stack, in stack order |
| Executor.ClientsLabels | perf/runner/src/index.ts:178-198 | the results of one version carry the labels of its stacks, in order |
| Executor.ResultsFollowMatrix | perf/runner/src/index.ts:143-210 | a completed benchmark holds one result per version and stack, in version order and then stack order |
| Executor.MatrixEntries | perf/runner/src/index.ts:192-197 | every result names a version to run and one of that version's own stacks |
| Executor.TcpOnlyVersion | perf/runner/src/index.ts:161-176 | a version without webrtc-direct starts its server without the transport flag, goes straight to its clients, and every client dials the server's public address on port 4001 |
| Runner.RunClient | perf/runner/src/index.ts:225-255 | the parse loop over the output lines computes ClientRun's values and trace |
| Runner.ParseLines | perf/runner/src/index.ts:243-252 | the parse loop keeps, in order, the value of every line that parses and drops the others |
| Runner.DiscoverRound | perf/runner/src/index.ts:168-175 | one pass of the discovery loop either extends Discover by one stack, with a discovery for a webrtc-direct stack and no command for any other, or ends the whole loop with the discovery's failure |
| Runner.DiscoverLoop | perf/runner/src/index.ts:167-176 | the discovery loop computes Discover's address and trace |
| Runner.ClientsRound | perf/runner/src/index.ts:178-198 | one pass of the client loop either pushes one more result, labelled with the version and the stack, exactly as Clients does for the stacks so far plus this one, or ends the whole loop with the client's failure |
| Runner.ClientsLoop | perf/runner/src/index.ts:178-198 | the push loop computes Clients' results and trace |
| Runner.RunVersion | perf/runner/src/index.ts:148-198 | one round of the version loop computes VersionRun |
| Runner.RunBenchmarkAcrossVersions | perf/runner/src/index.ts:143-210 | runBenchmarkAcrossVersions returns the name, unit and byte counts of its arguments and the results of AcrossVersions, or stops with its failure |
| Harness.RunPing | perf/runner/src/index.ts:79-96 | runPing sends one ping command and never throws. It succeeds exactly when the ping exits 0, and otherwise ends the process. Its series is the ping times scraped from the output, in seconds, with at most one value per output line |
| Harness.RunIperf | perf/runner/src/index.ts:98-130 | runIPerf ends the process exactly when the iperf server's stop or start fails. It throws exactly when both succeed and the iperf client fails. Otherwise its series is the bit rates scraped from the client's output, in bit/s |
| Harness.CopyAndBuild | perf/runner/src/index.ts:291-299 | the build succeeds exactly when rsync and then make succeed, and otherwise ends the process |
| Harness.Bench | perf/runner/src/index.ts:35-44 | a benchmark succeeds exactly when the loop over the versions does, and holds that loop's results. It carries the name, unit and byte counts of its arguments, with one result per version and stack. A failure is the loop's failure |
| Harness.Baselines | perf/runner/src/index.ts:12-25 | a failing ping ends the run with its status, and so does a failing stop or start of the iperf server. The run goes on exactly when neither happens. A failing iperf client leaves the empty bit/s placeholder. Otherwise the probes' series are kept |
| Harness.Benchmarks | perf/runner/src/index.ts:34-65 | the benchmarks succeed exactly when the upload, download and latency loops each succeed, each one run from where the one before it ended. They hold those loops' results in that order, with their names, units and byte counts, each shaped by the version matrix |
| Harness.RunAll | perf/runner/src/index.ts:7-77 | main ends on a failing ping. Otherwise it gives a report exactly when the iperf server's stop and start, both builds and the three benchmarks succeed. The report holds the ping series in seconds and the iperf probe's series in bit/s, or the empty placeholder after a failed iperf client. It also holds the three benchmarks' results over the filtered versions |
| WrtcPerf.ParseTransport | perf/impl/js-libp2p/webrtc-roamhq-wrtc/index.ts:57-63 | exactly "tcp" and "webrtc-direct" are accepted, each as its own transport |
| WrtcPerf.SplitHostPort | perf/impl/js-libp2p/webrtc-roamhq-wrtc/index.ts:119-131 | an undefined address is "Invalid server address"; otherwise the host is the text before the first ':', and the port is the text up to the next ':' or the end, undefined without ':' |
| WrtcPerf.SplitHostPortJoin | perf/impl/js-libp2p/webrtc-roamhq-wrtc/index.ts:119-131 | a host and a port without ':', joined by ':', split back into that host and port |
| WrtcPerf.ListenAddr | perf/impl/js-libp2p/webrtc-roamhq-wrtc/index.ts:65-73 | the listen address is an /ip4/ multiaddr |
| WrtcPerf.ListenAddrNoSpace | perf/impl/js-libp2p/webrtc-roamhq-wrtc/index.ts:65-73 | a listen address built from a host and port without white space has none either |
| WrtcPerf.TargetText | perf/impl/js-libp2p/webrtc-roamhq-wrtc/index.ts:96-104 | a WebRTC Direct client dials the server address verbatim; a TCP client needs an address and dials an /ip4/ multiaddr |
| WrtcPerf.RunServerFlag | perf/impl/js-libp2p/webrtc-roamhq-wrtc/index.ts:133 | server mode exactly when --run-server is the string 'true' (its default 'false' is not) |
| WrtcPerf.TransportFlag | perf/impl/js-libp2p/webrtc-roamhq-wrtc/index.ts:20-23 | the default transport 'tcp' is supported and selects TCP |
| WrtcPerf.Start | perf/impl/js-libp2p/webrtc-roamhq-wrtc/index.ts:42-104 | an unsupported transport fails before any node exists; a node gets exactly one transport; a server fails exactly without an address, listens on the split address, and appends one discovery line per listen address; a client dials TargetText |
| RoundTrip.ListenLinesTerminated | perf/impl/js-libp2p/webrtc-roamhq-wrtc/index.ts:89-90 | the server's appended text is a file of whole "[LISTEN_ADDR] <ma>" lines |
| RoundTrip.ServerLinesRead | perf/runner/src/index.ts:276 | the runner reads back the earlier lines and then the server's marked lines |
| RoundTrip.MarkedLineToken | perf/runner/src/index.ts:277-280 | one discovery line, trimmed and matched, gives back the address written into it |
| RoundTrip.ServerFileDiscovered | perf/runner/src/index.ts:275-289 | whatever lines precede them, the discovery as written finds the last address the server appended, with a loopback host replaced by the public address. The marker grep finds the same address |
| RoundTrip.DiscoverOnceFindsServer | perf/runner/src/index.ts:172-173 | after the sleep, a discovery file holding the server's lines makes the discovery return the server's last address, rewritten to the public IP |
| RoundTrip.DiscoveredAddrDialed | perf/runner/src/index.ts:229-231 | that rewritten address is never empty, so a WebRTC Direct client dials exactly it and not "<ip>:4001" |
| RoundTrip.StrayLineHidesAddress | perf/runner/src/index.ts:276 | as written, a last line without the marker but with a letter of [LISTEN_ADDR] makes the discovery fail; the marker grep still finds the server's address |
| RoundTrip.StrayLineThrows | perf/runner/src/index.ts:276-284 | a discovery that reads the file "[LISTEN_ADDR] /ip4/127.0.0.1/udp/4001/webrtc-direct\nDONE\n" throws the no-listen-address error |
| RoundTrip.StrayLineStopsDiscovery | perf/runner/src/index.ts:168-173 | on that file, the discovery loop of a version whose only stack is WebRTC Direct throws |
| RoundTrip.StrayLineExample | perf/runner/src/index.ts:276 | the file "[LISTEN_ADDR] /ip4/127.0.0.1/udp/4001/webrtc-direct\nDONE\n" gives no address as written, and /ip4/10.0.0.1/udp/4001/webrtc-direct with the marker grep |
| RoundTrip.ServerBindSplit | perf/runner/src/index.ts:160-162 | the bind address 0.0.0.0:4001 the runner passes splits into host 0.0.0.0 and port 4001 on the server |
| RoundTrip.ServerBindListensTcp | perf/impl/js-libp2p/webrtc-roamhq-wrtc/index.ts:65-73 | so a TCP server listens on /ip4/0.0.0.0/tcp/4001 |
| RoundTrip.ServerBindListensWebRTCDirect | perf/impl/js-libp2p/webrtc-roamhq-wrtc/index.ts:65-73 | and a WebRTC Direct server on /ip4/0.0.0.0/udp/4001/webrtc-direct |
| RoundTrip.TcpClientTarget | perf/runner/src/index.ts:229-231 | a TCP client of the runner is handed <ip>:4001 and dials /ip4/<ip>/tcp/4001 |

## Left out

- Logging to stderr (`console.error`, `console.log`) is left out. It changes no result.
- Writing the report file (`fs.writeFileSync` of benchmark-results.json) is left out. `Harness.RunAll` returns the report instead.
- Command-line parsing by yargs and `parseArgs` is left out. The inputs of `main` are parameters. Only two defaults are modelled: the WebRTC executable's `--run-server` default 'false', decoded by `=== 'true'`, and its `--transport` default 'tcp'. yargs' `'all'` default for the test filter is passed as the list `["all"]`.
- Whether `--run-server` followed by a value-less option trips `parseArgs` depends on the perf wrapper script, which is not part of this model.
- `Number(...)` conversion of the byte counts in the WebRTC executable is left out.
- The libp2p node is left out: `createLibp2p`, `start`, `getMultiaddrs`, the perf protocol and `multiaddr()` parsing. `WrtcPerf.Start` takes the node's listen addresses as a parameter. It yields the text handed to `multiaddr()` rather than a parsed address.
- `JSON.parse` and `parseFloat` are parameters. Numbers are exact reals; IEEE double rounding is not modelled.
- Time is left out. `sleep 2` is one more command answered by the oracle, and the readiness race it covers is the oracle's choice.
- Concurrency between the remote processes is left out. The oracle sees the whole command history instead.
- The text of the shell commands (ssh options, quoting, redirections) is left out. Each command is a `Shell.Command` value carrying its parameters.
- An uncaught exception in the async `main` (a failed discovery) rejects its promise and ends the process. The model keeps it as a `Thrown` outcome of `Harness.RunAll`.
- DiscoveredAddr: its own contract gives only the no-marked-line direction. What it finds on a server's file is stated by `RoundTrip.ServerFileDiscovered`, and `Discovery.DiscoveriesAgree` ties it to the discovery as written.

## Findings

| source | as written | input that shows it | evidently intended | confidence | as-written member | corrected member |
|---|---|---|---|---|---|---|
| perf/runner/src/index.ts:276 | In a template literal, `\[` is just `[`. So the remote `grep "[LISTEN_ADDR]"` receives a bracket expression, which selects any line holding one of the characters `L I S T E N _ A D R`. `tail -1` then picks the last such line. | The discovery file "[LISTEN_ADDR] /ip4/127.0.0.1/udp/4001/webrtc-direct\nDONE\n". `tail -1` picks "DONE", which holds no address, so the discovery throws (`RoundTrip.StrayLineThrows`, and for the whole discovery loop `RoundTrip.StrayLineStopsDiscovery`). | Select only lines holding the literal marker `[LISTEN_ADDR]`. Here that gives /ip4/10.0.0.1/udp/4001/webrtc-direct for server 10.0.0.1. | medium; not executed. The perf server only ever appends marked lines, on which both greps agree (`Discovery.GrepsAgreeOnMarkedLines`). | RoundTrip.StrayLineHidesAddress | Discovery.DiscoveredAddr |
