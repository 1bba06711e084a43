/** One benchmark across the selected versions (runBenchmarkAcrossVersions,
    runClient and the discovery step in perf/runner/src/index.ts): per
    version the server is stopped and started, its listen address is
    discovered when it serves WebRTC Direct, and the client loop runs once
    per transport stack. The specification functions recurse on a prefix so
    that they read like the state of the loops after each round. */
module Executor {
  import opened JsText
  import opened Shell
  import opened Catalog
  import Discovery
  import Probes

  const WebRTCDirect: string := "webrtc-direct"
  /** The address every server binds to, with the fixed port. */
  const ServerBind: string := "0.0.0.0:4001"

  /** ArgsRunBenchmarkAcrossVersions. */
  datatype BenchArgs = BenchArgs(
    name: string, clientPublicIP: string, serverPublicIP: string,
    uploadBytes: int, downloadBytes: int, unit: Probes.Unit,
    iterations: int, durationSecondsPerIteration: int)

  /** One series of result values, labelled with what produced it. */
  datatype Result<V> = Result(result: seq<V>, implementation: string, version: string, transportStack: string)

  datatype Parameters = Parameters(uploadBytes: int, downloadBytes: int)

  datatype Benchmark<V> = Benchmark(name: string, unit: Probes.Unit, results: seq<Result<V>>, parameters: Parameters)

  // ------------------------------------------------------------ one client run

  /** The address a client dials: the discovered listen address for a
      WebRTC Direct stack when one was captured and is not empty, the
      server's public address on port 4001 otherwise. */
  function ServerAddress(transportStack: string, serverListenAddr: Option<string>, serverPublicIP: string): string
  {
    if transportStack == WebRTCDirect && serverListenAddr.Some? && serverListenAddr.value != ""
    then serverListenAddr.value
    else serverPublicIP + ":4001"
  }

  function ClientCommand(args: BenchArgs, v: Version, transportStack: string, serverListenAddr: Option<string>): (c: Command)
    ensures c.ClientLoop?
  {
    ClientLoop(args.clientPublicIP, args.iterations, args.durationSecondsPerIteration,
      PerfRun(v.implementation, v.id, ServerAddress(transportStack, serverListenAddr, args.serverPublicIP),
              transportStack, args.uploadBytes, args.downloadBytes))
  }

  /** The values one client loop reports: its trimmed output split into
      lines, each line parsed on its own, the ones that fail to parse
      dropped. */
  function ClientValues<V>(parse: string -> Option<V>, stdout: string): seq<V>
  {
    FilterMap(Split(Trim(stdout), '\n'), parse)
  }

  /** runClient: the loop runs under execCommand, so a failing loop ends the
      process; otherwise the output of all its iterations becomes values. */
  function ClientRun<V>(args: BenchArgs, v: Version, transportStack: string, serverListenAddr: Option<string>,
                        hosts: Hosts, parse: string -> Option<V>, trace: seq<Command>): (r: Step<seq<V>>)
    ensures r.trace == trace + [ClientCommand(args, v, transportStack, serverListenAddr)]
    ensures !r.out.Thrown?
  {
    var run := RunLoop(hosts, trace, ClientCommand(args, v, transportStack, serverListenAddr));
    match run.out
    case Ok(stdout) => Step(Ok(ClientValues(parse, stdout)), run.trace)
    case Fatal(f) => Step(Fatal(f), run.trace)
    case Thrown(f) => Step(Thrown(f), run.trace)
  }

  /** A client run ends the process exactly when the last iteration of its
      loop fails other than by the timeout; otherwise its values come from
      the output of all the iterations. */
  lemma ClientRunOutcome<V>(args: BenchArgs, v: Version, transportStack: string, serverListenAddr: Option<string>,
                            hosts: Hosts, parse: string -> Option<V>, trace: seq<Command>)
    ensures var cmd := ClientCommand(args, v, transportStack, serverListenAddr);
      var r := ClientRun(args, v, transportStack, serverListenAddr, hosts, parse, trace);
      && (r.out.Fatal? <==> hosts.iteration(trace, cmd, BraceCount(args.iterations) - 1).code !in {0, 124})
      && (r.out.Ok? ==> r.out.value == ClientValues(parse, ForLoop(Iterations(hosts, trace, cmd, BraceCount(args.iterations))).stdout))
  {
  }

  /** The client's values never outnumber the lines it printed, and output
      made only of parseable lines is kept whole. */
  lemma ClientValuesBound<V>(parse: string -> Option<V>, stdout: string)
    ensures |ClientValues(parse, stdout)| <= |Split(Trim(stdout), '\n')|
    ensures (forall k :: 0 <= k < |Split(Trim(stdout), '\n')| ==> parse(Split(Trim(stdout), '\n')[k]).Some?) ==>
      |ClientValues(parse, stdout)| == |Split(Trim(stdout), '\n')|
  {
  }

  // ------------------------------------------------------------ discovery

  /** One discovery: sleep 2, then the remote pipeline on the discovery file.
      A missing address throws. */
  function DiscoverOnce(serverPublicIP: string, hosts: Hosts, trace: seq<Command>): (r: Step<Option<string>>)
    ensures r.out.Ok? ==> r.out.value.Some?
    ensures r.out.Thrown? ==> r.out.failure.NoListenAddr?
    ensures r.trace == trace + [Sleep(2)] || r.trace == trace + [Sleep(2), ReadListenFile(serverPublicIP)]
    ensures var sleep := hosts.exec(trace, Sleep(2));
      var read := hosts.exec(trace + [Sleep(2)], ReadListenFile(serverPublicIP));
      var found := Discovery.DiscoveredAddrAsWritten(read.stdout, serverPublicIP);
      && (r.out.Fatal? <==> sleep.code != 0 || read.code != 0)
      && (r.out.Thrown? <==> sleep.code == 0 && read.code == 0 && found.None?)
      && (r.out.Ok? ==> r.out.value == found)
      && (r.out.Thrown? ==> r.out.failure == NoListenAddr(Trim(Discovery.PipelineOutput(read.stdout, Discovery.BracketGrep))))
  {
    var sleep := Run(hosts, trace, Sleep(2));
    if !sleep.out.Ok? then Step(Propagate(sleep.out), sleep.trace)
    else
      var read := Run(hosts, sleep.trace, ReadListenFile(serverPublicIP));
      if !read.out.Ok? then Step(Propagate(read.out), read.trace)
      else
        var file := read.out.value;
        match Discovery.DiscoveredAddrAsWritten(file, serverPublicIP)
        case None => Step(Thrown(NoListenAddr(Trim(Discovery.PipelineOutput(file, Discovery.BracketGrep)))), read.trace)
        case Some(addr) => Step(Ok(Some(addr)), read.trace)
  }

  /** The discovery loop over a version's stacks: one discovery per
      WebRTC Direct entry, the last one kept. */
  function Discover(serverPublicIP: string, stacks: seq<string>, hosts: Hosts, trace: seq<Command>): (r: Step<Option<string>>)
    ensures Starts(r.trace) == Starts(trace)
    decreases |stacks|
  {
    if stacks == [] then Step(Ok(None), trace)
    else
      var prev := Discover(serverPublicIP, stacks[..|stacks| - 1], hosts, trace);
      if !prev.out.Ok? || stacks[|stacks| - 1] != WebRTCDirect then prev
      else
        var d := DiscoverOnce(serverPublicIP, hosts, prev.trace);
        StartsSnoc(prev.trace, Sleep(2));
        StartsSnoc(prev.trace + [Sleep(2)], ReadListenFile(serverPublicIP));
        assert prev.trace + [Sleep(2), ReadListenFile(serverPublicIP)] == prev.trace + [Sleep(2)] + [ReadListenFile(serverPublicIP)];
        d
  }

  /** A failed discovery ends the loop: later stacks change nothing. */
  lemma {:induction false} DiscoverStops(serverPublicIP: string, stacks: seq<string>, n: nat, hosts: Hosts, trace: seq<Command>)
    requires n <= |stacks|
    requires !Discover(serverPublicIP, stacks[..n], hosts, trace).out.Ok?
    ensures Discover(serverPublicIP, stacks, hosts, trace) == Discover(serverPublicIP, stacks[..n], hosts, trace)
    decreases |stacks| - n
  {
    if n < |stacks| {
      var init := stacks[..|stacks| - 1];
      assert init[..n] == stacks[..n];
      DiscoverStops(serverPublicIP, init, n, hosts, trace);
    } else {
      assert stacks[..n] == stacks;
    }
  }

  /** Without a WebRTC Direct stack nothing is discovered and no command is issued. */
  lemma {:induction false} NoDiscoveryWithoutWebRTC(serverPublicIP: string, stacks: seq<string>, hosts: Hosts, trace: seq<Command>)
    requires WebRTCDirect !in stacks
    ensures Discover(serverPublicIP, stacks, hosts, trace) == Step(Ok(None), trace)
    decreases |stacks|
  {
    if stacks != [] {
      var init := stacks[..|stacks| - 1];
      assert WebRTCDirect !in init by {
        forall k | 0 <= k < |init| ensures init[k] != WebRTCDirect {
          assert init[k] == stacks[k];
        }
      }
      NoDiscoveryWithoutWebRTC(serverPublicIP, init, hosts, trace);
    }
  }

  /** With a WebRTC Direct stack, a discovery loop that completes has
      captured an address. */
  lemma {:induction false} DiscoveryCaptures(serverPublicIP: string, stacks: seq<string>, hosts: Hosts, trace: seq<Command>)
    requires WebRTCDirect in stacks
    requires Discover(serverPublicIP, stacks, hosts, trace).out.Ok?
    ensures Discover(serverPublicIP, stacks, hosts, trace).out.value.Some?
    decreases |stacks|
  {
    var init := stacks[..|stacks| - 1];
    if stacks[|stacks| - 1] != WebRTCDirect {
      assert WebRTCDirect in init by {
        var k :| 0 <= k < |stacks| && stacks[k] == WebRTCDirect;
        assert init[k] == stacks[k];
      }
      DiscoveryCaptures(serverPublicIP, init, hosts, trace);
    }
  }

  // ------------------------------------------------------------ clients

  /** The client loop over a version's stacks, one labelled result each. */
  function Clients<V>(args: BenchArgs, v: Version, stacks: seq<string>, serverListenAddr: Option<string>,
                      hosts: Hosts, parse: string -> Option<V>, trace: seq<Command>): (r: Step<seq<Result<V>>>)
    ensures r.out.Ok? ==> |r.out.value| == |stacks|
    decreases |stacks|
  {
    if stacks == [] then Step(Ok([]), trace)
    else
      var prev := Clients(args, v, stacks[..|stacks| - 1], serverListenAddr, hosts, parse, trace);
      if !prev.out.Ok? then prev
      else
        var t := stacks[|stacks| - 1];
        var c := ClientRun(args, v, t, serverListenAddr, hosts, parse, prev.trace);
        if !c.out.Ok? then Step(Propagate(c.out), c.trace)
        else Step(Ok(prev.out.value + [Result(c.out.value, v.implementation, v.id, t)]), c.trace)
  }

  /** The client loop starts no server. */
  lemma {:induction false} ClientsStarts<V>(args: BenchArgs, v: Version, stacks: seq<string>, serverListenAddr: Option<string>,
                                            hosts: Hosts, parse: string -> Option<V>, trace: seq<Command>)
    ensures Starts(Clients(args, v, stacks, serverListenAddr, hosts, parse, trace).trace) == Starts(trace)
    decreases |stacks|
  {
    if stacks != [] {
      var init := stacks[..|stacks| - 1];
      ClientsStarts(args, v, init, serverListenAddr, hosts, parse, trace);
      var prev := Clients(args, v, init, serverListenAddr, hosts, parse, trace);
      if prev.out.Ok? {
        StartsSnoc(prev.trace, ClientCommand(args, v, stacks[|stacks| - 1], serverListenAddr));
      }
    }
  }

  /** One more round of the client loop, after rounds that all succeeded. */
  lemma ClientsNext<V>(args: BenchArgs, v: Version, stacks: seq<string>, serverListenAddr: Option<string>,
                       hosts: Hosts, parse: string -> Option<V>, trace: seq<Command>)
    requires stacks != []
    requires Clients(args, v, stacks[..|stacks| - 1], serverListenAddr, hosts, parse, trace).out.Ok?
    ensures var prev := Clients(args, v, stacks[..|stacks| - 1], serverListenAddr, hosts, parse, trace);
      var t := stacks[|stacks| - 1];
      var c := ClientRun(args, v, t, serverListenAddr, hosts, parse, prev.trace);
      var r := Clients(args, v, stacks, serverListenAddr, hosts, parse, trace);
      && r.trace == c.trace
      && (c.out.Ok? ==> r.out == Ok(prev.out.value + [Result(c.out.value, v.implementation, v.id, t)]))
      && (!c.out.Ok? ==> r.out == Propagate(c.out))
  {
  }

  lemma {:induction false} ClientsStops<V>(args: BenchArgs, v: Version, stacks: seq<string>, n: nat, serverListenAddr: Option<string>,
                                            hosts: Hosts, parse: string -> Option<V>, trace: seq<Command>)
    requires n <= |stacks|
    requires !Clients(args, v, stacks[..n], serverListenAddr, hosts, parse, trace).out.Ok?
    ensures Clients(args, v, stacks, serverListenAddr, hosts, parse, trace)
         == Clients(args, v, stacks[..n], serverListenAddr, hosts, parse, trace)
    decreases |stacks| - n
  {
    if n < |stacks| {
      var init := stacks[..|stacks| - 1];
      assert init[..n] == stacks[..n];
      ClientsStops(args, v, init, n, serverListenAddr, hosts, parse, trace);
    } else {
      assert stacks[..n] == stacks;
    }
  }

  // ------------------------------------------------------------ versions

  function StartCommand(args: BenchArgs, v: Version): Command {
    StartServer(args.serverPublicIP, v.implementation, v.id, ServerBind, WebRTCDirect in v.transportStacks)
  }

  /** One version: stop the old server, start this one, discover, run the clients. */
  function VersionRun<V>(args: BenchArgs, v: Version, hosts: Hosts, parse: string -> Option<V>, trace: seq<Command>): (r: Step<seq<Result<V>>>)
    ensures r.out.Ok? ==> Starts(r.trace) == Starts(trace) + 1
    ensures r.out.Ok? ==> |r.out.value| == |v.transportStacks|
  {
    var kill := Run(hosts, trace, KillServer(args.serverPublicIP));
    if !kill.out.Ok? then Step(Propagate(kill.out), kill.trace)
    else
      var start := Run(hosts, kill.trace, StartCommand(args, v));
      if !start.out.Ok? then Step(Propagate(start.out), start.trace)
      else
        var d := Discover(args.serverPublicIP, v.transportStacks, hosts, start.trace);
        if !d.out.Ok? then Step(Propagate(d.out), d.trace)
        else
          StartsSnoc(trace, KillServer(args.serverPublicIP));
          StartsSnoc(kill.trace, StartCommand(args, v));
          ClientsStarts(args, v, v.transportStacks, d.out.value, hosts, parse, d.trace);
          Clients(args, v, v.transportStacks, d.out.value, hosts, parse, d.trace)
  }

  /** The benchmark's loop over the versions to run. */
  function AcrossVersions<V>(args: BenchArgs, versions: seq<Version>, hosts: Hosts, parse: string -> Option<V>, trace: seq<Command>): (r: Step<seq<Result<V>>>)
    ensures r.out.Ok? ==> Starts(r.trace) == Starts(trace) + |versions|
    decreases |versions|
  {
    if versions == [] then Step(Ok([]), trace)
    else
      var prev := AcrossVersions(args, versions[..|versions| - 1], hosts, parse, trace);
      if !prev.out.Ok? then prev
      else
        var cur := VersionRun(args, versions[|versions| - 1], hosts, parse, prev.trace);
        if !cur.out.Ok? then cur
        else Step(Ok(prev.out.value + cur.out.value), cur.trace)
  }

  lemma {:induction false} AcrossVersionsStops<V>(args: BenchArgs, versions: seq<Version>, n: nat, hosts: Hosts,
                                                  parse: string -> Option<V>, trace: seq<Command>)
    requires n <= |versions|
    requires !AcrossVersions(args, versions[..n], hosts, parse, trace).out.Ok?
    ensures AcrossVersions(args, versions, hosts, parse, trace) == AcrossVersions(args, versions[..n], hosts, parse, trace)
    decreases |versions| - n
  {
    if n < |versions| {
      var init := versions[..|versions| - 1];
      assert init[..n] == versions[..n];
      AcrossVersionsStops(args, init, n, hosts, parse, trace);
    } else {
      assert versions[..n] == versions;
    }
  }

  // ------------------------------------------------------------ the shape of the results

  /** The label (implementation, version, transport stack) of each result. */
  function Labels<V>(results: seq<Result<V>>): (r: seq<(string, string, string)>)
    decreases |results|
  {
    if results == [] then []
    else
      var x := results[|results| - 1];
      Labels(results[..|results| - 1]) + [(x.implementation, x.version, x.transportStack)]
  }

  /** The labels one version contributes, one per stack in table order. */
  function StackLabels(v: Version, stacks: seq<string>): (r: seq<(string, string, string)>)
    decreases |stacks|
  {
    if stacks == [] then []
    else StackLabels(v, stacks[..|stacks| - 1]) + [(v.implementation, v.id, stacks[|stacks| - 1])]
  }

  lemma {:induction false} StackLabelsAt(v: Version, stacks: seq<string>)
    ensures |StackLabels(v, stacks)| == |stacks|
    ensures forall k :: 0 <= k < |stacks| ==> StackLabels(v, stacks)[k] == (v.implementation, v.id, stacks[k])
    decreases |stacks|
  {
    if stacks != [] {
      var init := stacks[..|stacks| - 1];
      StackLabelsAt(v, init);
      forall k | 0 <= k < |init| ensures StackLabels(v, stacks)[k] == (v.implementation, v.id, stacks[k]) {
        assert init[k] == stacks[k];
      }
    }
  }

  /** The version-by-stack matrix in row order. */
  function Matrix(versions: seq<Version>): seq<(string, string, string)>
    decreases |versions|
  {
    if versions == [] then []
    else Matrix(versions[..|versions| - 1]) + StackLabels(versions[|versions| - 1], versions[|versions| - 1].transportStacks)
  }

  lemma LabelsSnoc<V>(results: seq<Result<V>>, x: Result<V>)
    ensures Labels(results + [x]) == Labels(results) + [(x.implementation, x.version, x.transportStack)]
  {
    assert (results + [x])[..|results|] == results;
  }

  lemma {:induction false} LabelsAppend<V>(a: seq<Result<V>>, b: seq<Result<V>>)
    ensures Labels(a + b) == Labels(a) + Labels(b)
    decreases |b|
  {
    if b == [] {
      assert a + b == a;
    } else {
      var init := b[..|b| - 1];
      assert a + b == (a + init) + [b[|b| - 1]];
      LabelsAppend(a, init);
      LabelsSnoc(a + init, b[|b| - 1]);
      LabelsSnoc(init, b[|b| - 1]);
      assert init + [b[|b| - 1]] == b;
    }
  }

  lemma {:induction false} ClientsLabels<V>(args: BenchArgs, v: Version, stacks: seq<string>, serverListenAddr: Option<string>,
                                             hosts: Hosts, parse: string -> Option<V>, trace: seq<Command>)
    requires Clients(args, v, stacks, serverListenAddr, hosts, parse, trace).out.Ok?
    ensures Labels(Clients(args, v, stacks, serverListenAddr, hosts, parse, trace).out.value) == StackLabels(v, stacks)
    decreases |stacks|
  {
    if stacks != [] {
      var init := stacks[..|stacks| - 1];
      var t := stacks[|stacks| - 1];
      var prev := Clients(args, v, init, serverListenAddr, hosts, parse, trace);
      assert prev.out.Ok?;
      var c := ClientRun(args, v, t, serverListenAddr, hosts, parse, prev.trace);
      ClientsNext(args, v, stacks, serverListenAddr, hosts, parse, trace);
      assert c.out.Ok?;
      var x := Result(c.out.value, v.implementation, v.id, t);
      ClientsLabels(args, v, init, serverListenAddr, hosts, parse, trace);
      LabelsSnoc(prev.out.value, x);
    }
  }

  /** A completed benchmark holds one result per version and stack, in the
      order of the versions and, within one, of its stacks. */
  lemma {:induction false} ResultsFollowMatrix<V>(args: BenchArgs, versions: seq<Version>, hosts: Hosts,
                                                  parse: string -> Option<V>, trace: seq<Command>)
    requires AcrossVersions(args, versions, hosts, parse, trace).out.Ok?
    ensures Labels(AcrossVersions(args, versions, hosts, parse, trace).out.value) == Matrix(versions)
    decreases |versions|
  {
    if versions != [] {
      var init := versions[..|versions| - 1];
      var v := versions[|versions| - 1];
      ResultsFollowMatrix(args, init, hosts, parse, trace);
      var prev := AcrossVersions(args, init, hosts, parse, trace);
      var kill := Run(hosts, prev.trace, KillServer(args.serverPublicIP));
      var start := Run(hosts, kill.trace, StartCommand(args, v));
      var d := Discover(args.serverPublicIP, v.transportStacks, hosts, start.trace);
      ClientsLabels(args, v, v.transportStacks, d.out.value, hosts, parse, d.trace);
      LabelsAppend(prev.out.value, VersionRun(args, v, hosts, parse, prev.trace).out.value);
    }
  }

  /** The label names a version of the list and one of that version's stacks. */
  predicate FromVersions(versions: seq<Version>, entry: (string, string, string)) {
    exists i, j :: 0 <= i < |versions| && 0 <= j < |versions[i].transportStacks| &&
      entry == (versions[i].implementation, versions[i].id, versions[i].transportStacks[j])
  }

  /** Every entry of the matrix names a version to run and one of its own stacks. */
  lemma {:induction false} MatrixEntries(versions: seq<Version>)
    ensures forall k :: 0 <= k < |Matrix(versions)| ==> FromVersions(versions, Matrix(versions)[k])
    decreases |versions|
  {
    if versions != [] {
      var init := versions[..|versions| - 1];
      var last := |versions| - 1;
      MatrixEntries(init);
      var m := Matrix(versions);
      forall k | 0 <= k < |m| ensures FromVersions(versions, m[k]) {
        if k < |Matrix(init)| {
          assert FromVersions(init, Matrix(init)[k]);
          var i, j :| 0 <= i < |init| && 0 <= j < |init[i].transportStacks| &&
            Matrix(init)[k] == (init[i].implementation, init[i].id, init[i].transportStacks[j]);
          assert versions[i] == init[i];
        } else {
          var j := k - |Matrix(init)|;
          StackLabelsAt(versions[last], versions[last].transportStacks);
          assert m[k] == (versions[last].implementation, versions[last].id, versions[last].transportStacks[j]);
        }
      }
    }
  }

  /** A version without WebRTC Direct goes straight from its start to its
      clients, and every client dials the server's public address on port 4001. */
  lemma TcpOnlyVersion<V>(args: BenchArgs, v: Version, hosts: Hosts, parse: string -> Option<V>, trace: seq<Command>)
    requires WebRTCDirect !in v.transportStacks
    requires hosts.exec(trace, KillServer(args.serverPublicIP)).code == 0
    requires hosts.exec(trace + [KillServer(args.serverPublicIP)], StartCommand(args, v)).code == 0
    ensures VersionRun(args, v, hosts, parse, trace)
         == Clients(args, v, v.transportStacks, None, hosts, parse, trace + [KillServer(args.serverPublicIP), StartCommand(args, v)])
    ensures !StartCommand(args, v).webrtcDirect
    ensures forall t :: t in v.transportStacks ==>
      ClientCommand(args, v, t, None).perf.serverAddress == args.serverPublicIP + ":4001"
  {
    var t1 := trace + [KillServer(args.serverPublicIP)];
    NoDiscoveryWithoutWebRTC(args.serverPublicIP, v.transportStacks, hosts, t1 + [StartCommand(args, v)]);
    assert t1 + [StartCommand(args, v)] == trace + [KillServer(args.serverPublicIP), StartCommand(args, v)];
  }
}
