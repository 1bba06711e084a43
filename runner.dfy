/** The runner's loops as it writes them: the parse loop of runClient and
    the nested loops of runBenchmarkAcrossVersions
    (perf/runner/src/index.ts:143-255), each proved to compute the
    corresponding function of Executor. */
module Runner {
  import opened JsText
  import opened Shell
  import opened Catalog
  import opened Executor

  /** The parse loop of runClient: each line parsed on its own, the ones
      that fail dropped. */
  method ParseLines<V>(lines: seq<string>, parse: string -> Option<V>) returns (combined: seq<V>)
    ensures combined == FilterMap(lines, parse)
  {
    combined := [];
    var i := 0;
    while i < |lines|
      invariant 0 <= i <= |lines|
      invariant combined == FilterMap(lines[..i], parse)
    {
      FilterMapStep(lines, i, parse);
      match parse(lines[i]) {
        case Some(value) => combined := combined + [value];
        case None =>
      }
      i := i + 1;
    }
    assert lines[..i] == lines;
  }

  /** runClient: the client loop, then the parse loop on its trimmed output. */
  method RunClient<V>(args: BenchArgs, v: Version, transportStack: string, serverListenAddr: Option<string>,
                      hosts: Hosts, parse: string -> Option<V>, trace0: seq<Command>)
    returns (result: Outcome<seq<V>>, trace: seq<Command>)
    ensures var spec := ClientRun(args, v, transportStack, serverListenAddr, hosts, parse, trace0);
      result == spec.out && trace == spec.trace
  {
    var run := RunLoop(hosts, trace0, ClientCommand(args, v, transportStack, serverListenAddr));
    trace := run.trace;
    if !run.out.Ok? {
      result := Propagate(run.out);
      return;
    }
    var combined := ParseLines(Split(Trim(run.out.value), '\n'), parse);
    result := Ok(combined);
  }

  /** One more round of the client loop, for the stack list extended by t. */
  lemma ClientsSnoc<V>(args: BenchArgs, v: Version, init: seq<string>, t: string, serverListenAddr: Option<string>,
                       hosts: Hosts, parse: string -> Option<V>, trace: seq<Command>)
    requires Clients(args, v, init, serverListenAddr, hosts, parse, trace).out.Ok?
    ensures var prev := Clients(args, v, init, serverListenAddr, hosts, parse, trace);
      var c := ClientRun(args, v, t, serverListenAddr, hosts, parse, prev.trace);
      var r := Clients(args, v, init + [t], serverListenAddr, hosts, parse, trace);
      && r.trace == c.trace
      && (c.out.Ok? ==> r.out == Ok(prev.out.value + [Result(c.out.value, v.implementation, v.id, t)]))
      && (!c.out.Ok? ==> r.out == Propagate(c.out))
  {
    assert (init + [t])[..|init|] == init;
    ClientsNext(args, v, init + [t], serverListenAddr, hosts, parse, trace);
  }


  /** One more stack of the discovery loop, after stacks that all succeeded. */
  lemma DiscoverSnoc(serverPublicIP: string, init: seq<string>, t: string, hosts: Hosts, trace: seq<Command>)
    requires Discover(serverPublicIP, init, hosts, trace).out.Ok?
    ensures var prev := Discover(serverPublicIP, init, hosts, trace);
      Discover(serverPublicIP, init + [t], hosts, trace)
        == if t == WebRTCDirect then DiscoverOnce(serverPublicIP, hosts, prev.trace) else prev
  {
    assert (init + [t])[..|init|] == init;
  }

  /** One pass of the discovery loop: the j-th stack, after the earlier
      stacks have left `addr`. A failure is the outcome of the whole loop. */
  method DiscoverRound(serverPublicIP: string, stacks: seq<string>, j: nat, hosts: Hosts,
                       ghost trace0: seq<Command>, addr: Option<string>, trace: seq<Command>)
    returns (out: Outcome<Option<string>>, next: seq<Command>)
    requires j < |stacks|
    requires Discover(serverPublicIP, stacks[..j], hosts, trace0) == Step(Ok(addr), trace)
    ensures out.Ok? ==> Discover(serverPublicIP, stacks[..j + 1], hosts, trace0) == Step(out, next)
    ensures !out.Ok? ==> Discover(serverPublicIP, stacks, hosts, trace0) == Step(out, next)
  {
    if stacks[j] == WebRTCDirect {
      var d := DiscoverOnce(serverPublicIP, hosts, trace);
      out, next := d.out, d.trace;
    } else {
      out, next := Ok(addr), trace;
    }
    DiscoverSnoc(serverPublicIP, stacks[..j], stacks[j], hosts, trace0);
    PrefixSnoc(stacks, j);
    if !out.Ok? {
      DiscoverStops(serverPublicIP, stacks, j + 1, hosts, trace0);
    }
  }

  /** The discovery loop of one round, from the trace after the server start. */
  method DiscoverLoop(serverPublicIP: string, stacks: seq<string>, hosts: Hosts, trace0: seq<Command>)
    returns (serverListenAddr: Outcome<Option<string>>, trace: seq<Command>)
    ensures var spec := Discover(serverPublicIP, stacks, hosts, trace0);
      serverListenAddr == spec.out && trace == spec.trace
  {
    var addr: Option<string> := None;
    trace := trace0;
    var j := 0;
    while j < |stacks|
      invariant 0 <= j <= |stacks|
      invariant Discover(serverPublicIP, stacks[..j], hosts, trace0) == Step(Ok(addr), trace)
    {
      var out;
      out, trace := DiscoverRound(serverPublicIP, stacks, j, hosts, trace0, addr, trace);
      if !out.Ok? {
        serverListenAddr := out;
        return;
      }
      addr := out.value;
      j := j + 1;
    }
    assert stacks[..j] == stacks;
    serverListenAddr := Ok(addr);
  }

  /** One pass of the client loop: the client run for the j-th stack, after
      the earlier stacks have pushed `pushed`. A failure is the outcome of
      the whole loop. */
  method ClientsRound<V>(args: BenchArgs, version: Version, j: nat, serverListenAddr: Option<string>, hosts: Hosts,
                         parse: string -> Option<V>, ghost trace0: seq<Command>, ghost pushed: seq<Result<V>>,
                         trace: seq<Command>)
    returns (values: Outcome<seq<V>>, next: seq<Command>)
    requires j < |version.transportStacks|
    requires Clients(args, version, version.transportStacks[..j], serverListenAddr, hosts, parse, trace0).out.Ok?
    requires Clients(args, version, version.transportStacks[..j], serverListenAddr, hosts, parse, trace0).out.value == pushed
    requires Clients(args, version, version.transportStacks[..j], serverListenAddr, hosts, parse, trace0).trace == trace
    ensures values.Ok? ==>
      var spec := Clients(args, version, version.transportStacks[..j + 1], serverListenAddr, hosts, parse, trace0);
      && spec.out.Ok?
      && spec.out.value == pushed + [Result(values.value, version.implementation, version.id, version.transportStacks[j])]
      && spec.trace == next
    ensures !values.Ok? ==>
      var spec := Clients(args, version, version.transportStacks, serverListenAddr, hosts, parse, trace0);
      spec.out == Propagate(values) && spec.trace == next
  {
    var stacks := version.transportStacks;
    values, next := RunClient(args, version, stacks[j], serverListenAddr, hosts, parse, trace);
    ClientsSnoc(args, version, stacks[..j], stacks[j], serverListenAddr, hosts, parse, trace0);
    PrefixSnoc(stacks, j);
    if !values.Ok? {
      ClientsStops(args, version, stacks, j + 1, serverListenAddr, hosts, parse, trace0);
    }
  }

  /** The client loop of one round. */
  method ClientsLoop<V>(args: BenchArgs, version: Version, serverListenAddr: Option<string>, hosts: Hosts,
                        parse: string -> Option<V>, trace0: seq<Command>)
    returns (results: Outcome<seq<Result<V>>>, trace: seq<Command>)
    ensures var spec := Clients(args, version, version.transportStacks, serverListenAddr, hosts, parse, trace0);
      results == spec.out && trace == spec.trace
  {
    var stacks := version.transportStacks;
    var pushed: seq<Result<V>> := [];
    trace := trace0;
    var j := 0;
    while j < |stacks|
      invariant 0 <= j <= |stacks|
      invariant Clients(args, version, stacks[..j], serverListenAddr, hosts, parse, trace0).out.Ok?
      invariant Clients(args, version, stacks[..j], serverListenAddr, hosts, parse, trace0).out.value == pushed
      invariant Clients(args, version, stacks[..j], serverListenAddr, hosts, parse, trace0).trace == trace
    {
      var values;
      values, trace := ClientsRound(args, version, j, serverListenAddr, hosts, parse, trace0, pushed, trace);
      if !values.Ok? {
        results := Propagate(values);
        return;
      }
      pushed := pushed + [Result(values.value, version.implementation, version.id, stacks[j])];
      j := j + 1;
    }
    assert stacks[..j] == stacks;
    results := Ok(pushed);
  }

  /** One round of the version loop: kill, start, the discovery loop and the
      client loop. */
  method RunVersion<V>(args: BenchArgs, version: Version, hosts: Hosts, parse: string -> Option<V>, trace0: seq<Command>)
    returns (results: Outcome<seq<Result<V>>>, trace: seq<Command>)
    ensures var spec := VersionRun(args, version, hosts, parse, trace0);
      results == spec.out && trace == spec.trace
  {
    var kill := Run(hosts, trace0, KillServer(args.serverPublicIP));
    trace := kill.trace;
    if !kill.out.Ok? {
      results := Propagate(kill.out);
      return;
    }
    var start := Run(hosts, trace, StartCommand(args, version));
    trace := start.trace;
    if !start.out.Ok? {
      results := Propagate(start.out);
      return;
    }
    var addr, t := DiscoverLoop(args.serverPublicIP, version.transportStacks, hosts, trace);
    trace := t;
    if !addr.Ok? {
      results := Propagate(addr);
      return;
    }
    results, trace := ClientsLoop(args, version, addr.value, hosts, parse, trace);
  }

  /** runBenchmarkAcrossVersions: the results of every version in order, and
      the name, unit and byte counts copied from the arguments. */
  method RunBenchmarkAcrossVersions<V>(args: BenchArgs, versionsToRun: seq<Version>, hosts: Hosts,
                                       parse: string -> Option<V>, trace0: seq<Command>)
    returns (benchmark: Outcome<Benchmark<V>>, trace: seq<Command>)
    ensures var spec := AcrossVersions(args, versionsToRun, hosts, parse, trace0);
      && trace == spec.trace
      && (benchmark.Ok? <==> spec.out.Ok?)
      && (benchmark.Ok? ==> benchmark.value == Benchmark(args.name, args.unit, spec.out.value,
                                                           Parameters(args.uploadBytes, args.downloadBytes)))
      && (!benchmark.Ok? ==> benchmark == Propagate(spec.out))
  {
    var results: seq<Result<V>> := [];
    trace := trace0;
    var i := 0;
    while i < |versionsToRun|
      invariant 0 <= i <= |versionsToRun|
      invariant AcrossVersions(args, versionsToRun[..i], hosts, parse, trace0).out == Ok(results)
      invariant AcrossVersions(args, versionsToRun[..i], hosts, parse, trace0).trace == trace
    {
      assert versionsToRun[..i + 1][..i] == versionsToRun[..i];
      var r, t := RunVersion(args, versionsToRun[i], hosts, parse, trace);
      trace := t;
      if !r.Ok? {
        AcrossVersionsStops(args, versionsToRun, i + 1, hosts, parse, trace0);
        benchmark := Propagate(r);
        return;
      }
      results := results + r.value;
      i := i + 1;
    }
    assert versionsToRun[..i] == versionsToRun;
    benchmark := Ok(Benchmark(args.name, args.unit, results, Parameters(args.uploadBytes, args.downloadBytes)));
  }
}
