/** The perf executable of the js-libp2p WebRTC implementation
    (perf/impl/js-libp2p/webrtc-roamhq-wrtc/index.ts): the transport check,
    the host/port split of --server-address, the listen and dial addresses
    built from it, the discovery lines a server appends, and the decoding of
    --run-server. The libp2p node is outside the model: what it reports as
    its listen addresses is a parameter. */
module WrtcPerf {
  import opened JsText

  datatype Transport = Tcp | WebRTCDirect

  function TransportName(t: Transport): string {
    match t
    case Tcp => "tcp"
    case WebRTCDirect => "webrtc-direct"
  }

  /** The transport check at the start of main: the two supported names and
      nothing else. */
  function ParseTransport(transport: string): (r: Option<Transport>)
    ensures r.Some? ==> TransportName(r.value) == transport
    ensures r.None? ==> forall t :: TransportName(t) != transport
  {
    if transport == "tcp" then Some(Tcp)
    else if transport == "webrtc-direct" then Some(WebRTCDirect)
    else None
  }

  datatype Failure = UnsupportedTransport(transport: string) | InvalidServerAddress

  datatype Result<+T> = Ok(value: T) | Err(failure: Failure)

  /** host and port of splitHostPort; an absent port is JavaScript's undefined. */
  datatype HostPort = HostPort(host: string, port: Option<string>)

  /** splitHostPort. An undefined address makes split throw, and the catch
      turns that into "Invalid server address". Otherwise the host is the
      text before the first ':', the port the text between the first and the
      second ':' (undefined when there is no ':'), and anything after a
      second ':' is dropped. */
  function SplitHostPort(address: Option<string>): (r: Result<HostPort>)
    ensures r.Err? <==> address.None?
    ensures r.Err? ==> r.failure == InvalidServerAddress
    ensures r.Ok? ==> ':' !in r.value.host
    ensures r.Ok? ==> (r.value.port.None? <==> ':' !in address.value)
    ensures r.Ok? && r.value.port.None? ==> r.value.host == address.value
    ensures r.Ok? && r.value.port.Some? ==>
      var n := |r.value.host| + 1 + |r.value.port.value|;
      && ':' !in r.value.port.value
      && n <= |address.value|
      && address.value[..n] == r.value.host + ":" + r.value.port.value
      && (n == |address.value| || address.value[n] == ':')
  {
    match address
    case None => Err(InvalidServerAddress)
    case Some(a) =>
      var parts := Split(a, ':');
      if |parts| == 1 then
        assert a == parts[0];
        Ok(HostPort(parts[0], None))
      else
        var rest := Join(parts[1..], ":");
        assert a == parts[0] + ":" + rest;
        assert parts[1..][0] == parts[1];
        var n := |parts[0]| + 1 + |parts[1]|;
        assert |parts[1..]| == 1 ==> rest == parts[1];
        assert |parts[1..]| > 1 ==> rest == parts[1] + ":" + Join(parts[2..], ":") by {
          if |parts[1..]| > 1 { assert parts[1..][1..] == parts[2..]; }
        }
        assert a[..n] == parts[0] + ":" + parts[1];
        assert ':' in a by { assert a[|parts[0]|] == ':'; }
        Ok(HostPort(parts[0], Some(parts[1])))
  }

  /** A host and a port without ':' come back apart. */
  lemma SplitHostPortJoin(host: string, port: string)
    requires ':' !in host && ':' !in port
    ensures SplitHostPort(Some(host + ":" + port)) == Ok(HostPort(host, Some(port)))
  {
    assert Join([host, port], [':']) == host + ":" + port by {
      assert [host, port][1..] == [port];
    }
    SplitJoin([host, port], ':');
  }

  /** How a template literal prints the port: undefined prints as "undefined". */
  function Interp(port: Option<string>): string {
    match port
    case None => "undefined"
    case Some(p) => p
  }

  /** The listen multiaddr of a server, before the node parses it. */
  function ListenAddr(t: Transport, hp: HostPort): (ma: string)
    ensures |ma| > 5 && ma[..5] == "/ip4/"
  {
    match t
    case Tcp => "/ip4/" + hp.host + "/tcp/" + Interp(hp.port)
    case WebRTCDirect => "/ip4/" + hp.host + "/udp/" + Interp(hp.port) + "/webrtc-direct"
  }

  predicate NoSpace(s: string) {
    forall k :: 0 <= k < |s| ==> !IsSpace(s[k])
  }

  lemma NoSpaceConcat(a: string, b: string)
    requires NoSpace(a) && NoSpace(b)
    ensures NoSpace(a + b)
  {
    forall k | 0 <= k < |a + b| ensures !IsSpace((a + b)[k]) {
      if k < |a| {
        assert (a + b)[k] == a[k];
      } else {
        assert (a + b)[k] == b[k - |a|];
      }
    }
  }

  lemma ProtocolsNoSpace()
    ensures NoSpace("/ip4/") && NoSpace("/tcp/") && NoSpace("/udp/") && NoSpace("/webrtc-direct")
  {
  }

  /** A listen address built from a host and port without white space has
      none either, so it survives as one token wherever it is printed. */
  lemma ListenAddrNoSpace(t: Transport, hp: HostPort)
    requires NoSpace(hp.host) && NoSpace(Interp(hp.port))
    ensures NoSpace(ListenAddr(t, hp))
  {
    ProtocolsNoSpace();
    var port := Interp(hp.port);
    NoSpaceConcat("/ip4/", hp.host);
    match t
    case Tcp =>
      NoSpaceConcat("/ip4/" + hp.host, "/tcp/");
      NoSpaceConcat("/ip4/" + hp.host + "/tcp/", port);
    case WebRTCDirect =>
      NoSpaceConcat("/ip4/" + hp.host, "/udp/");
      NoSpaceConcat("/ip4/" + hp.host + "/udp/", port);
      NoSpaceConcat("/ip4/" + hp.host + "/udp/" + port, "/webrtc-direct");
  }

  /** The text a client hands to multiaddr(): for tcp the address built from
      the host and port, for WebRTC Direct the server address verbatim (None
      is undefined). */
  function TargetText(t: Transport, serverAddress: Option<string>): (r: Result<Option<string>>)
    ensures t == WebRTCDirect ==> r == Ok(serverAddress)
    ensures t == Tcp ==> (r.Ok? <==> serverAddress.Some?)
    ensures t == Tcp && r.Ok? ==> r.value.Some? && |r.value.value| > 5 && r.value.value[..5] == "/ip4/"
  {
    match t
    case Tcp =>
      (match SplitHostPort(serverAddress)
       case Err(f) => Err(f)
       case Ok(hp) => Ok(Some("/ip4/" + hp.host + "/tcp/" + Interp(hp.port))))
    case WebRTCDirect => Ok(serverAddress)
  }

  // ------------------------------------------------------------ the discovery lines

  /** The discovery line for one listen address. */
  function ListenLine(ma: string): string {
    "[LISTEN_ADDR] " + ma + "\n"
  }

  /** Everything the server appends to the discovery file, address by address. */
  function ListenLines(mas: seq<string>): string
    decreases |mas|
  {
    if mas == [] then "" else ListenLines(mas[..|mas| - 1]) + ListenLine(mas[|mas| - 1])
  }

  lemma ListenLinesSnoc(mas: seq<string>, ma: string)
    ensures ListenLines(mas + [ma]) == ListenLines(mas) + ListenLine(ma)
  {
    assert (mas + [ma])[..|mas|] == mas;
  }

  /** The --run-server value, defaulting to 'false': server mode exactly when it is 'true'. */
  function RunServerFlag(value: Option<string>): (on: bool)
    ensures on <==> value == Some("true")
  {
    (if value.None? then "false" else value.value) == "true"
  }

  /** The --transport value, defaulting to 'tcp': the default is supported
      and selects TCP, and a given value is taken as it is. */
  function TransportFlag(value: Option<string>): (transport: string)
    ensures value.None? ==> ParseTransport(transport) == Some(Tcp)
    ensures value.Some? ==> transport == value.value
  {
    if value.None? then "tcp" else value.value
  }

  // ------------------------------------------------------------ main

  /** The node configuration that main builds: its transports and, for a
      server, its listen addresses. */
  datatype Config = Config(transports: seq<Transport>, listen: Option<seq<string>>)

  /** What main leads to: a server that appended its discovery lines, or a
      client about to dial the given target. */
  datatype Launch = Server(config: Config, appended: string) | Client(config: Config, target: Option<string>)

  /** main up to the point where the node runs. `listening` is what the
      started node reports as its addresses. */
  method Start(runServer: bool, serverAddress: Option<string>, transport: string, listening: Config -> seq<string>)
    returns (r: Result<Launch>)
    ensures ParseTransport(transport).None? ==> r == Err(UnsupportedTransport(transport))
    ensures r.Ok? ==> ParseTransport(transport).Some? && r.value.config.transports == [ParseTransport(transport).value]
    ensures runServer && ParseTransport(transport).Some? ==> (r.Ok? <==> serverAddress.Some?)
    ensures runServer && r.Ok? ==>
      && r.value.Server?
      && r.value.config.listen == Some([ListenAddr(ParseTransport(transport).value, SplitHostPort(serverAddress).value)])
      && r.value.appended == ListenLines(listening(r.value.config))
    ensures !runServer && ParseTransport(transport).Some? ==>
      (r.Ok? <==> TargetText(ParseTransport(transport).value, serverAddress).Ok?)
    ensures !runServer && r.Ok? ==>
      && r.value.Client?
      && r.value.config.listen.None?
      && r.value.target == TargetText(ParseTransport(transport).value, serverAddress).value
  {
    var config := Config([], None);
    var t: Transport;
    match ParseTransport(transport) {
      case None =>
        r := Err(UnsupportedTransport(transport));
        return;
      case Some(parsed) =>
        t := parsed;
        config := config.(transports := config.transports + [t]);
    }

    if runServer {
      var hp := SplitHostPort(serverAddress);
      if hp.Err? {
        r := Err(hp.failure);
        return;
      }
      config := config.(listen := Some([ListenAddr(t, hp.value)]));
    }

    if runServer {
      var mas := listening(config);
      var appended := "";
      for i := 0 to |mas|
        invariant appended == ListenLines(mas[..i])
      {
        PrefixSnoc(mas, i);
        ListenLinesSnoc(mas[..i], mas[i]);
        appended := appended + ListenLine(mas[i]);
      }
      assert mas[..|mas|] == mas;
      r := Ok(Server(config, appended));
    } else {
      var target := TargetText(t, serverAddress);
      if target.Err? {
        r := Err(target.failure);
        return;
      }
      r := Ok(Client(config, target.value));
    }
  }
}
