/** The remote shell, seen from the runner (execCommand and execSync in
    perf/runner/src/index.ts). Every command is a value; what the hosts answer
    is an oracle that may depend on every command issued before, which is how
    a start, a sleep or a kill changes what later commands see. */
module Shell {

  /** One invocation of an implementation's perf executable in client mode. */
  datatype PerfRun = PerfRun(
    implementation: string, id: string, serverAddress: string, transport: string,
    uploadBytes: int, downloadBytes: int)

  datatype Command =
      /** ping -c <count> <target>, run on host */
    | Ping(host: string, count: nat, target: string)
      /** kill $(cat pidfile); rm pidfile; rm server.log || true */
    | KillIperf(host: string)
      /** nohup iperf3 -s … & echo $! > pidfile */
    | StartIperf(host: string)
      /** iperf3 -c <target> -t <seconds> -N, run with execSync */
    | IperfClient(host: string, target: string, seconds: nat)
      /** rsync of ../impl to host */
    | Rsync(host: string)
      /** cd impl && make <impls> */
    | Make(host: string, impls: string)
      /** kill $(cat pidfile); rm pidfile; rm server.log; rm <discovery file> || true */
    | KillServer(host: string)
      /** nohup ./impl/<impl>/<id>/perf --run-server --server-address <addr>[ --transport webrtc-direct] … */
    | StartServer(host: string, implementation: string, id: string, serverAddress: string, webrtcDirect: bool)
      /** sleep <seconds>, run locally */
    | Sleep(seconds: nat)
      /** cat <discovery file>; the oracle's stdout is the file as cat prints it,
          the grep and tail that follow it on the remote host are modelled */
    | ReadListenFile(host: string)
      /** for i in {1..<iterations>}; do timeout <seconds>s <perf> || [ $? -eq 124 ]; done */
    | ClientLoop(host: string, iterations: int, timeoutSeconds: int, perf: PerfRun)

  /** Exit status and standard output of one command. */
  datatype Exec = Exec(code: int, stdout: string)

  /** The hosts as an oracle: `exec` answers a command given the commands
      issued before it; `iteration` answers the i-th body of a ClientLoop
      (the perf executable under `timeout`, whose own status is 124 when the
      time limit ends it). */
  datatype Hosts = Hosts(
    exec: (seq<Command>, Command) -> Exec,
    iteration: (seq<Command>, Command, nat) -> Exec)

  datatype Failure =
    | CommandFailed(command: Command, code: int)
    | NoListenAddr(output: string)

  /** Ok, or the process exits through process.exit(1) (Fatal), or a
      JavaScript exception is thrown that a caller may catch (Thrown). */
  datatype Outcome<+T> = Ok(value: T) | Fatal(failure: Failure) | Thrown(failure: Failure)

  /** A failure carried over to a result of another type. */
  function Propagate<T, U>(o: Outcome<T>): (r: Outcome<U>)
    requires !o.Ok?
    ensures r.Fatal? <==> o.Fatal?
    ensures !r.Ok? && r.failure == o.failure
  {
    if o.Fatal? then Fatal(o.failure) else Thrown(o.failure)
  }

  /** The outcome of a stretch of the run and the command trace after it. */
  datatype Step<+T> = Step(out: Outcome<T>, trace: seq<Command>)

  /** execCommand: a non-zero status ends the process. */
  function Run(hosts: Hosts, trace: seq<Command>, cmd: Command): (r: Step<string>)
    ensures r.trace == trace + [cmd]
    ensures r.out.Ok? <==> hosts.exec(trace, cmd).code == 0
    ensures !r.out.Thrown?
  {
    var e := hosts.exec(trace, cmd);
    Step(if e.code == 0 then Ok(e.stdout) else Fatal(CommandFailed(cmd, e.code)), trace + [cmd])
  }

  /** Plain execSync: a non-zero status throws. */
  function RunThrowing(hosts: Hosts, trace: seq<Command>, cmd: Command): (r: Step<string>)
    ensures r.trace == trace + [cmd]
    ensures r.out.Ok? <==> hosts.exec(trace, cmd).code == 0
    ensures !r.out.Fatal?
  {
    var e := hosts.exec(trace, cmd);
    Step(if e.code == 0 then Ok(e.stdout) else Thrown(CommandFailed(cmd, e.code)), trace + [cmd])
  }

  // --------------------------------------------------- the remote client loop

  /** How many times bash runs the body of `for i in {1..n}`: at least once. */
  function BraceCount(n: int): (c: nat)
    ensures c >= 1
  {
    if n >= 1 then n else 2 - n
  }

  /** The words the brace expansion {a..b} produces: a, then one step at a
      time towards b, then b. */
  function BraceWords(a: int, b: int): (w: seq<int>)
    decreases if a <= b then b - a else a - b
  {
    if a == b then [a]
    else if a < b then [a] + BraceWords(a + 1, b)
    else [a] + BraceWords(a - 1, b)
  }

  /** {a..b} starts at a, ends at b, and moves by one towards b at each step. */
  lemma {:induction false} BraceWordsSteps(a: int, b: int)
    ensures var w := BraceWords(a, b);
      && |w| == (if a <= b then b - a + 1 else a - b + 1)
      && w[0] == a && w[|w| - 1] == b
      && forall k :: 0 <= k < |w| - 1 ==> w[k + 1] == w[k] + (if a <= b then 1 else -1)
    decreases if a <= b then b - a else a - b
  {
    if a < b {
      BraceWordsSteps(a + 1, b);
    } else if a > b {
      BraceWordsSteps(a - 1, b);
    }
  }

  /** The loop body runs once per word of {1..n}: n times for n >= 1, and
      for n <= 0, counting down through 0, 2 - n times. */
  lemma BraceExpansion(n: int)
    ensures |BraceWords(1, n)| == BraceCount(n)
  {
    BraceWordsSteps(1, n);
  }

  /** Status of `body || [ $? -eq 124 ]`. */
  function Guarded(code: int): (g: int)
  {
    if code == 0 || code == 124 then 0 else 1
  }

  /** The status of a bash for loop is that of the last body it ran (0 when
      it ran none); its output is all the bodies' output in order. */
  function ForLoop(runs: seq<Exec>): (e: Exec)
    decreases |runs|
  {
    if runs == [] then Exec(0, "")
    else
      var prev := ForLoop(runs[..|runs| - 1]);
      Exec(Guarded(runs[|runs| - 1].code), prev.stdout + runs[|runs| - 1].stdout)
  }

  /** The timeout sentinel is no failure, and only the last iteration decides
      the loop's status: a loop succeeds exactly when it ran nothing or its
      last iteration exited 0 or 124. */
  lemma LoopStatus(runs: seq<Exec>)
    ensures ForLoop(runs).code == 0 <==>
      runs == [] || runs[|runs| - 1].code == 0 || runs[|runs| - 1].code == 124
    ensures ForLoop(runs).code in {0, 1}
  {
  }

  /** Every iteration's output reaches stdout, in order, failed ones included. */
  lemma {:induction false} LoopOutput(runs: seq<Exec>, more: seq<Exec>)
    ensures ForLoop(runs + more).stdout == ForLoop(runs).stdout + ForLoop(more).stdout
    decreases |more|
  {
    if more == [] {
      assert runs + more == runs;
    } else {
      var init := more[..|more| - 1];
      assert (runs + more)[..|runs + more| - 1] == runs + init;
      LoopOutput(runs, init);
    }
  }

  /** The iterations the loop command runs, answered by the oracle. */
  function Iterations(hosts: Hosts, trace: seq<Command>, cmd: Command, n: nat): (runs: seq<Exec>)
    ensures |runs| == n
    ensures forall i :: 0 <= i < n ==> runs[i] == hosts.iteration(trace, cmd, i)
  {
    if n == 0 then [] else Iterations(hosts, trace, cmd, n - 1) + [hosts.iteration(trace, cmd, n - 1)]
  }

  /** The first n iterations of the loop command as bash runs them: the
      status of the last one, guarded, and all their output in order. */
  function LoopRun(hosts: Hosts, trace: seq<Command>, cmd: Command, n: nat): (e: Exec)
  {
    if n == 0 then Exec(0, "")
    else
      var prev := LoopRun(hosts, trace, cmd, n - 1);
      var last := hosts.iteration(trace, cmd, n - 1);
      Exec(Guarded(last.code), prev.stdout + last.stdout)
  }

  /** LoopRun is the bash for loop over the iterations the oracle answers. */
  lemma {:induction false} LoopRunIsForLoop(hosts: Hosts, trace: seq<Command>, cmd: Command, n: nat)
    ensures LoopRun(hosts, trace, cmd, n) == ForLoop(Iterations(hosts, trace, cmd, n))
  {
    if n > 0 {
      LoopRunIsForLoop(hosts, trace, cmd, n - 1);
      var runs := Iterations(hosts, trace, cmd, n);
      assert runs[..n - 1] == Iterations(hosts, trace, cmd, n - 1);
    }
  }

  /** execCommand on the ssh call that runs the client loop: the remote loop's
      status decides, a non-zero one ends the process. The status is that of
      the last iteration alone, and the output is every iteration's, in order. */
  function RunLoop(hosts: Hosts, trace: seq<Command>, cmd: Command): (r: Step<string>)
    requires cmd.ClientLoop?
    ensures r.trace == trace + [cmd]
    ensures !r.out.Thrown?
    ensures r.out.Ok? <==> hosts.iteration(trace, cmd, BraceCount(cmd.iterations) - 1).code in {0, 124}
    ensures r.out.Ok? ==> r.out.value == ForLoop(Iterations(hosts, trace, cmd, BraceCount(cmd.iterations))).stdout
    ensures (forall i :: 0 <= i < BraceCount(cmd.iterations) ==>
               hosts.iteration(trace, cmd, i).code in {0, 124}) ==> r.out.Ok?
  {
    var e := LoopRun(hosts, trace, cmd, BraceCount(cmd.iterations));
    LoopRunIsForLoop(hosts, trace, cmd, BraceCount(cmd.iterations));
    LoopStatus(Iterations(hosts, trace, cmd, BraceCount(cmd.iterations)));
    Step(if e.code == 0 then Ok(e.stdout) else Fatal(CommandFailed(cmd, e.code)), trace + [cmd])
  }

  /** How many server starts a trace holds. */
  function Starts(trace: seq<Command>): (n: nat)
    ensures n <= |trace|
    decreases |trace|
  {
    if trace == [] then 0
    else Starts(trace[..|trace| - 1]) + (if trace[|trace| - 1].StartServer? then 1 else 0)
  }

  lemma StartsSnoc(trace: seq<Command>, cmd: Command)
    ensures Starts(trace + [cmd]) == Starts(trace) + (if cmd.StartServer? then 1 else 0)
  {
    assert (trace + [cmd])[..|trace|] == trace;
  }
}
