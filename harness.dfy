/** The runner's main flow (main, runPing, runIPerf and
    copyAndBuildPerfImplementations in perf/runner/src/index.ts): the two
    baseline probes with their fallbacks, the choice of versions, the build
    on both hosts and the three benchmarks. Writing the report file is left
    to the caller; the report is the value returned. */
module Harness {
  import opened JsText
  import opened Shell
  import opened Catalog
  import opened Probes
  import opened Executor
  import opened Runner

  /** Number.MAX_SAFE_INTEGER. */
  const MaxSafeInteger: int := 9007199254740991

  datatype BenchmarkResults<V> = BenchmarkResults(benchmarks: seq<Benchmark<V>>, pings: Baseline, iperf: Baseline)

  // ------------------------------------------------------------ the probes

  function PingCount(testing: bool): nat { if testing then 1 else 100 }

  function PingCommand(clientPublicIP: string, serverPublicIP: string, testing: bool): Command {
    Ping(clientPublicIP, PingCount(testing), serverPublicIP)
  }

  /** runPing. The ping runs under execCommand, so a failing ping ends the
      process: the outcome is never a thrown error, and the fallback in main
      cannot take effect for it. */
  function RunPing(hosts: Hosts, trace: seq<Command>, clientPublicIP: string, serverPublicIP: string, testing: bool,
                   parseFloat: string -> Number): (r: Step<Baseline>)
    ensures r.trace == trace + [PingCommand(clientPublicIP, serverPublicIP, testing)]
    ensures !r.out.Thrown?
    ensures r.out.Ok? <==> hosts.exec(trace, PingCommand(clientPublicIP, serverPublicIP, testing)).code == 0
    ensures r.out.Ok? ==> r.out.value.unit == Seconds
    ensures r.out.Ok? ==>
      r.out.value.results == PingTimes(parseFloat, hosts.exec(trace, PingCommand(clientPublicIP, serverPublicIP, testing)).stdout)
    ensures r.out.Ok? ==>
      |r.out.value.results| <= |Split(hosts.exec(trace, PingCommand(clientPublicIP, serverPublicIP, testing)).stdout, '\n')|
  {
    var run := Run(hosts, trace, PingCommand(clientPublicIP, serverPublicIP, testing));
    match run.out
    case Ok(stdout) => Step(Ok(Baseline(Seconds, PingTimes(parseFloat, stdout))), run.trace)
    case Fatal(f) => Step(Fatal(f), run.trace)
    case Thrown(f) => Step(Thrown(f), run.trace)
  }

  function IperfSeconds(testing: bool): nat { if testing then 1 else 60 }

  function IperfCommand(clientPublicIP: string, serverPublicIP: string, testing: bool): Command {
    IperfClient(clientPublicIP, serverPublicIP, IperfSeconds(testing))
  }

  /** runIPerf. Stopping and starting the iperf server go through
      execCommand and end the process on failure; only the client run, a
      plain execSync, throws an error that main can catch. */
  function RunIperf(hosts: Hosts, trace: seq<Command>, clientPublicIP: string, serverPublicIP: string, testing: bool,
                    parseFloat: string -> Number): (r: Step<Baseline>)
    ensures var stop := hosts.exec(trace, KillIperf(serverPublicIP));
      var start := hosts.exec(trace + [KillIperf(serverPublicIP)], StartIperf(serverPublicIP));
      var client := hosts.exec(trace + [KillIperf(serverPublicIP), StartIperf(serverPublicIP)], IperfCommand(clientPublicIP, serverPublicIP, testing));
      && (r.out.Fatal? <==> stop.code != 0 || start.code != 0)
      && (r.out.Thrown? <==> stop.code == 0 && start.code == 0 && client.code != 0)
      && (r.out.Ok? ==> r.out.value == Baseline(BitsPerSecond, IperfRates(parseFloat, client.stdout)))
    ensures !r.out.Fatal? ==>
      r.trace == trace + [KillIperf(serverPublicIP), StartIperf(serverPublicIP), IperfCommand(clientPublicIP, serverPublicIP, testing)]
  {
    var kill := Run(hosts, trace, KillIperf(serverPublicIP));
    if !kill.out.Ok? then Step(Propagate(kill.out), kill.trace)
    else
      var start := Run(hosts, kill.trace, StartIperf(serverPublicIP));
      if !start.out.Ok? then Step(Propagate(start.out), start.trace)
      else
        var client := RunThrowing(hosts, start.trace, IperfCommand(clientPublicIP, serverPublicIP, testing));
        assert start.trace == trace + [KillIperf(serverPublicIP), StartIperf(serverPublicIP)];
        match client.out
        case Ok(stdout) => Step(Ok(Baseline(BitsPerSecond, IperfRates(parseFloat, stdout))), client.trace)
        case Fatal(f) => Step(Fatal(f), client.trace)
        case Thrown(f) => Step(Thrown(f), client.trace)
  }

  // ------------------------------------------------------------ the build

  /** copyAndBuildPerfImplementations: rsync, then make, both fatal on failure. */
  function CopyAndBuild(hosts: Hosts, trace: seq<Command>, ip: string, impls: string): (r: Step<()>)
    ensures r.out.Ok? <==> hosts.exec(trace, Rsync(ip)).code == 0 && hosts.exec(trace + [Rsync(ip)], Make(ip, impls)).code == 0
    ensures r.out.Ok? ==> r.trace == trace + [Rsync(ip), Make(ip, impls)]
    ensures !r.out.Thrown?
  {
    var copy := Run(hosts, trace, Rsync(ip));
    if !copy.out.Ok? then Step(Propagate(copy.out), copy.trace)
    else
      var make := Run(hosts, copy.trace, Make(ip, impls));
      assert copy.trace + [Make(ip, impls)] == trace + [Rsync(ip), Make(ip, impls)];
      if !make.out.Ok? then Step(Propagate(make.out), make.trace) else Step(Ok(()), make.trace)
  }

  // ------------------------------------------------------------ the three benchmarks

  function IterationCount(testing: bool): int { if testing then 1 else 10 }

  function UploadArgs(clientPublicIP: string, serverPublicIP: string, testing: bool): BenchArgs {
    BenchArgs("throughput/upload", clientPublicIP, serverPublicIP, MaxSafeInteger, 0, BitsPerSecond,
              IterationCount(testing), if testing then 5 else 20)
  }

  function DownloadArgs(clientPublicIP: string, serverPublicIP: string, testing: bool): BenchArgs {
    BenchArgs("throughput/download", clientPublicIP, serverPublicIP, 0, MaxSafeInteger, BitsPerSecond,
              IterationCount(testing), if testing then 5 else 20)
  }

  function LatencyArgs(clientPublicIP: string, serverPublicIP: string, testing: bool): BenchArgs {
    BenchArgs("Connection establishment + 1 byte round trip latencies", clientPublicIP, serverPublicIP, 1, 1, Seconds,
              if testing then 1 else 100, MaxSafeInteger)
  }

  /** One benchmark of main: it succeeds exactly when the loop over the
      versions does, holds that loop's results, and has one result per
      version and stack. */
  method Bench<V>(args: BenchArgs, versionsToRun: seq<Version>, hosts: Hosts, parse: string -> Option<V>, trace0: seq<Command>)
    returns (benchmark: Outcome<Benchmark<V>>, trace: seq<Command>)
    ensures var spec := AcrossVersions(args, versionsToRun, hosts, parse, trace0);
      && trace == spec.trace
      && (benchmark.Ok? <==> spec.out.Ok?)
      && (benchmark.Ok? ==> benchmark.value.results == spec.out.value)
      && (!benchmark.Ok? ==> benchmark == Propagate(spec.out))
    ensures benchmark.Ok? ==>
      && benchmark.value.name == args.name
      && benchmark.value.unit == args.unit
      && benchmark.value.parameters == Parameters(args.uploadBytes, args.downloadBytes)
      && Labels(benchmark.value.results) == Matrix(versionsToRun)
  {
    benchmark, trace := RunBenchmarkAcrossVersions(args, versionsToRun, hosts, parse, trace0);
    if benchmark.Ok? {
      ResultsFollowMatrix(args, versionsToRun, hosts, parse, trace0);
    }
  }

  /** The baseline probes of main with their fallbacks: a ping that fails
      ends the run, an iperf client that fails leaves the empty placeholder,
      and the run goes on exactly when neither the ping nor the iperf
      server's stop or start failed. */
  method Baselines(hosts: Hosts, clientPublicIP: string, serverPublicIP: string, testing: bool, parseFloat: string -> Number)
    returns (fatal: Option<Failure>, pings: Baseline, iperf: Baseline, trace: seq<Command>)
    ensures var ping := PingCommand(clientPublicIP, serverPublicIP, testing);
      var probe := RunIperf(hosts, [ping], clientPublicIP, serverPublicIP, testing, parseFloat);
      && (hosts.exec([], ping).code != 0 ==> fatal == Some(CommandFailed(ping, hosts.exec([], ping).code)))
      && (fatal.None? <==> hosts.exec([], ping).code == 0 && !probe.out.Fatal?)
      && (hosts.exec([], ping).code == 0 && probe.out.Fatal? ==> fatal == Some(probe.out.failure))
      && (fatal.None? ==> trace == probe.trace)
    ensures fatal.None? ==> pings == Baseline(Seconds, PingTimes(parseFloat, hosts.exec([], PingCommand(clientPublicIP, serverPublicIP, testing)).stdout))
    ensures iperf.unit == BitsPerSecond
    ensures var probe := RunIperf(hosts, [PingCommand(clientPublicIP, serverPublicIP, testing)], clientPublicIP, serverPublicIP, testing, parseFloat);
      fatal.None? ==> (probe.out.Thrown? ==> iperf == Baseline(BitsPerSecond, [])) && (probe.out.Ok? ==> iperf == probe.out.value)
  {
    fatal := None;
    pings := Baseline(Seconds, []);
    iperf := Baseline(BitsPerSecond, []);
    var ping := RunPing(hosts, [], clientPublicIP, serverPublicIP, testing, parseFloat);
    trace := ping.trace;
    if ping.out.Fatal? {
      fatal := Some(ping.out.failure);
      return;
    }
    pings := ping.out.value;
    assert trace == [PingCommand(clientPublicIP, serverPublicIP, testing)];
    var probe := RunIperf(hosts, trace, clientPublicIP, serverPublicIP, testing, parseFloat);
    trace := probe.trace;
    if probe.out.Fatal? {
      fatal := Some(probe.out.failure);
      return;
    }
    if probe.out.Ok? {
      iperf := probe.out.value;
    }
  }

  /** The three loops over the versions main runs, each from the trace the
      one before it left: upload, download, latency. */
  function Suite<V>(hosts: Hosts, clientPublicIP: string, serverPublicIP: string, testing: bool,
                    versionsToRun: seq<Version>, parse: string -> Option<V>, trace0: seq<Command>): seq<Step<seq<Result<V>>>>
  {
    var upload := AcrossVersions(UploadArgs(clientPublicIP, serverPublicIP, testing), versionsToRun, hosts, parse, trace0);
    var download := AcrossVersions(DownloadArgs(clientPublicIP, serverPublicIP, testing), versionsToRun, hosts, parse, upload.trace);
    var latency := AcrossVersions(LatencyArgs(clientPublicIP, serverPublicIP, testing), versionsToRun, hosts, parse, download.trace);
    [upload, download, latency]
  }

  /** The three benchmarks of main, in order; the first failure ends the run. */
  method Benchmarks<V>(hosts: Hosts, clientPublicIP: string, serverPublicIP: string, testing: bool,
                       versionsToRun: seq<Version>, parse: string -> Option<V>, trace0: seq<Command>)
    returns (benchmarks: Outcome<seq<Benchmark<V>>>, trace: seq<Command>)
    ensures var suite := Suite(hosts, clientPublicIP, serverPublicIP, testing, versionsToRun, parse, trace0);
      && (benchmarks.Ok? <==> suite[0].out.Ok? && suite[1].out.Ok? && suite[2].out.Ok?)
      && (benchmarks.Ok? ==> |benchmarks.value| == 3 && trace == suite[2].trace)
      && (benchmarks.Ok? ==> && benchmarks.value[0].results == suite[0].out.value
                             && benchmarks.value[1].results == suite[1].out.value
                             && benchmarks.value[2].results == suite[2].out.value)
    ensures benchmarks.Ok? ==>
      var bs := benchmarks.value;
      && |bs| == 3
      && bs[0].name == "throughput/upload" && bs[0].unit == BitsPerSecond
      && bs[0].parameters == Parameters(MaxSafeInteger, 0)
      && bs[1].name == "throughput/download" && bs[1].unit == BitsPerSecond
      && bs[1].parameters == Parameters(0, MaxSafeInteger)
      && bs[2].name == "Connection establishment + 1 byte round trip latencies" && bs[2].unit == Seconds
      && bs[2].parameters == Parameters(1, 1)
      && Labels(bs[0].results) == Matrix(versionsToRun)
      && Labels(bs[1].results) == Matrix(versionsToRun)
      && Labels(bs[2].results) == Matrix(versionsToRun)
  {
    ghost var suite := Suite(hosts, clientPublicIP, serverPublicIP, testing, versionsToRun, parse, trace0);
    var upload, download, latency;
    assert suite[0] == AcrossVersions(UploadArgs(clientPublicIP, serverPublicIP, testing), versionsToRun, hosts, parse, trace0);
    upload, trace := Bench(UploadArgs(clientPublicIP, serverPublicIP, testing), versionsToRun, hosts, parse, trace0);
    assert suite[1] == AcrossVersions(DownloadArgs(clientPublicIP, serverPublicIP, testing), versionsToRun, hosts, parse, trace);
    if !upload.Ok? {
      assert !suite[0].out.Ok?;
      benchmarks := Propagate(upload);
      return;
    }
    download, trace := Bench(DownloadArgs(clientPublicIP, serverPublicIP, testing), versionsToRun, hosts, parse, trace);
    assert suite[2] == AcrossVersions(LatencyArgs(clientPublicIP, serverPublicIP, testing), versionsToRun, hosts, parse, trace);
    if !download.Ok? {
      assert !suite[1].out.Ok?;
      benchmarks := Propagate(download);
      return;
    }
    latency, trace := Bench(LatencyArgs(clientPublicIP, serverPublicIP, testing), versionsToRun, hosts, parse, trace);
    if !latency.Ok? {
      assert !suite[2].out.Ok?;
      benchmarks := Propagate(latency);
      return;
    }
    benchmarks := Ok([upload.value, download.value, latency.value]);
  }

  /** main: the report, or the failure that ends the process. The report
      comes exactly when the ping, the iperf server's stop and start, both
      builds and the three benchmarks succeed, and it holds what each of
      them produced. */
  method RunAll<V>(hosts: Hosts, clientPublicIP: string, serverPublicIP: string, testing: bool, testFilter: seq<string>,
                   versions: seq<Version>, parseFloat: string -> Number, parse: string -> Option<V>)
    returns (report: Outcome<BenchmarkResults<V>>, trace: seq<Command>)
    ensures var ping := PingCommand(clientPublicIP, serverPublicIP, testing);
      hosts.exec([], ping).code != 0 ==> report == Fatal(CommandFailed(ping, hosts.exec([], ping).code))
    ensures var ping := PingCommand(clientPublicIP, serverPublicIP, testing);
      var probe := RunIperf(hosts, [ping], clientPublicIP, serverPublicIP, testing, parseFloat);
      var versionsToRun := VersionsToRun(versions, testFilter);
      var server := CopyAndBuild(hosts, probe.trace, serverPublicIP, ImplsToBuild(versionsToRun));
      var client := CopyAndBuild(hosts, server.trace, clientPublicIP, ImplsToBuild(versionsToRun));
      var suite := Suite(hosts, clientPublicIP, serverPublicIP, testing, versionsToRun, parse, client.trace);
      && (report.Ok? <==> && hosts.exec([], ping).code == 0 && !probe.out.Fatal?
                          && server.out.Ok? && client.out.Ok?
                          && suite[0].out.Ok? && suite[1].out.Ok? && suite[2].out.Ok?)
      && (report.Ok? ==> |report.value.benchmarks| == 3 && trace == suite[2].trace)
      && (report.Ok? ==> && report.value.benchmarks[0].results == suite[0].out.value
                         && report.value.benchmarks[1].results == suite[1].out.value
                         && report.value.benchmarks[2].results == suite[2].out.value)
      && (report.Ok? && probe.out.Ok? ==> report.value.iperf == probe.out.value)
      && (report.Ok? && probe.out.Thrown? ==> report.value.iperf == Baseline(BitsPerSecond, []))
    ensures report.Ok? ==> report.value.pings.unit == Seconds && report.value.iperf.unit == BitsPerSecond
    ensures report.Ok? ==>
      report.value.pings.results == PingTimes(parseFloat, hosts.exec([], PingCommand(clientPublicIP, serverPublicIP, testing)).stdout)
    ensures report.Ok? ==>
      && |report.value.benchmarks| == 3
      && Labels(report.value.benchmarks[0].results) == Matrix(VersionsToRun(versions, testFilter))
      && Labels(report.value.benchmarks[1].results) == Matrix(VersionsToRun(versions, testFilter))
      && Labels(report.value.benchmarks[2].results) == Matrix(VersionsToRun(versions, testFilter))
  {
    var fatal, pings, iperf;
    fatal, pings, iperf, trace := Baselines(hosts, clientPublicIP, serverPublicIP, testing, parseFloat);
    if fatal.Some? {
      report := Fatal(fatal.value);
      return;
    }

    var versionsToRun := VersionsToRun(versions, testFilter);
    var implsToBuild := ImplsToBuild(versionsToRun);

    var build := CopyAndBuild(hosts, trace, serverPublicIP, implsToBuild);
    trace := build.trace;
    if !build.out.Ok? {
      report := Propagate(build.out);
      return;
    }
    build := CopyAndBuild(hosts, trace, clientPublicIP, implsToBuild);
    trace := build.trace;
    if !build.out.Ok? {
      report := Propagate(build.out);
      return;
    }

    var benchmarks;
    benchmarks, trace := Benchmarks(hosts, clientPublicIP, serverPublicIP, testing, versionsToRun, parse, trace);
    if !benchmarks.Ok? {
      report := Propagate(benchmarks);
      return;
    }
    report := Ok(BenchmarkResults(benchmarks.value, pings, iperf));
  }
}
