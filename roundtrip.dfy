/** The two halves of the discovery handshake put together: what a WebRTC
    Direct server appends to the discovery file (WrtcPerf) read back by the
    runner's discovery (Discovery, Executor), and the addresses the runner's
    fixed server address turns into on the server side. */
module RoundTrip {
  import opened JsText
  import opened Discovery
  import Shell
  import Executor
  import WrtcPerf

  /** A discovery line without its newline. */
  function MarkedLine(ma: string): string {
    "[LISTEN_ADDR] " + ma
  }

  /** The lines of the appended text, newlines removed. */
  function MarkedLines(mas: seq<string>): (lines: seq<string>)
    ensures |lines| == |mas|
    ensures forall k :: 0 <= k < |mas| ==> lines[k] == MarkedLine(mas[k])
  {
    seq(|mas|, k requires 0 <= k < |mas| => MarkedLine(mas[k]))
  }

  /** The server's appended text is a file of whole marked lines. */
  lemma {:induction false} ListenLinesTerminated(mas: seq<string>)
    ensures WrtcPerf.ListenLines(mas) == Terminated(MarkedLines(mas))
    decreases |mas|
  {
    if mas != [] {
      var init := mas[..|mas| - 1];
      ListenLinesTerminated(init);
      assert MarkedLines(mas) == MarkedLines(init) + [MarkedLine(mas[|mas| - 1])];
      assert MarkedLines(mas)[..|mas| - 1] == MarkedLines(init);
    }
  }

  /** An address that the pattern's group 1 can take whole. */
  predicate Capturable(ma: string) {
    IpPrefixAt(ma, 0) && |ma| > 5 && forall t :: 0 <= t < |ma| ==> !IsSpace(ma[t])
  }

  /** A discovery line is the marker, one space, and the address. */
  lemma MarkedLineShape(ma: string)
    ensures |MarkedLine(ma)| == |ma| + 14
    ensures MarkedLine(ma)[..13] == Marker && MarkedLine(ma)[13] == ' ' && MarkedLine(ma)[14..] == ma
  {
  }

  lemma MarkedLineHasMarker(ma: string)
    ensures HasMarker(MarkedLine(ma))
  {
    MarkedLineShape(ma);
    assert OccursAt(MarkedLine(ma), Marker, 0);
  }

  lemma MarkedLineNoNewline(ma: string)
    requires '\n' !in ma
    ensures '\n' !in MarkedLine(ma)
  {
    assert '\n' !in "[LISTEN_ADDR] ";
  }

  /** trim() only takes the newline off a discovery line. */
  lemma MarkedLineTrim(ma: string)
    requires Capturable(ma)
    ensures Trim(MarkedLine(ma) + "\n") == MarkedLine(ma)
  {
    var body := MarkedLine(ma);
    MarkedLineShape(ma);
    assert "" + body + "\n" == body + "\n";
    assert body[0] == '[';
    assert body[|body| - 1] == ma[|ma| - 1];
    TrimAround("", body, "\n");
  }

  /** The pattern, anchored at the start of a discovery line, captures the address. */
  lemma MarkedLineMatch(ma: string)
    requires Capturable(ma)
    ensures ListenMatchAt(MarkedLine(ma), 0) == Some(ma)
  {
    var body := MarkedLine(ma);
    MarkedLineShape(ma);
    assert OccursAt(body, Marker, 0);
    assert body[14] == ma[0];
    assert SpaceEnd(body, 13) == 14;
    assert body[14..19] == ma[..5];
    assert IpPrefixAt(body, 14);
    forall t | 19 <= t < |body| ensures !IsSpace(body[t]) {
      assert body[t] == ma[t - 14];
    }
    assert NonSpaceEnd(body, 19) == |body|;
    assert body[14..|body|] == ma;
  }

  /** One discovery line, as the remote pipeline prints it, yields its address. */
  lemma MarkedLineToken(ma: string)
    requires Capturable(ma)
    ensures ListenToken(Trim(MarkedLine(ma) + "\n")) == Some(ma)
  {
    MarkedLineTrim(ma);
    MarkedLineMatch(ma);
  }

  /** Server to runner: whatever lines precede them, the discovery as
      written finds the address of the last line a server appended, with a
      loopback host replaced by the server's public address; so does the
      discovery with the marker grep. */
  lemma ServerFileDiscovered(prior: seq<string>, mas: seq<string>, serverPublicIP: string)
    requires forall k :: 0 <= k < |prior| ==> '\n' !in prior[k]
    requires forall k :: 0 <= k < |mas| ==> '\n' !in mas[k]
    requires mas != [] && Capturable(mas[|mas| - 1])
    ensures var file := Terminated(prior) + WrtcPerf.ListenLines(mas);
      var addr := ReplaceFirst(mas[|mas| - 1], Loopback, "/ip4/" + serverPublicIP + "/");
      && DiscoveredAddrAsWritten(file, serverPublicIP) == Some(addr)
      && DiscoveredAddr(file, serverPublicIP) == Some(addr)
  {
    var lines := prior + MarkedLines(mas);
    ServerLinesRead(prior, mas);
    MarkedLineHasMarker(mas[|mas| - 1]);
    MarkedLineSelected(MarkedLine(mas[|mas| - 1]));
    LastSelectedEnd(prior, MarkedLines(mas), MarkerGrep);
    LastSelectedEnd(prior, MarkedLines(mas), BracketGrep);
    MarkedLineToken(mas[|mas| - 1]);
  }

  /** Reading back the discovery file gives the prior lines and then the
      server's marked lines. */
  lemma ServerLinesRead(prior: seq<string>, mas: seq<string>)
    requires forall k :: 0 <= k < |prior| ==> '\n' !in prior[k]
    requires forall k :: 0 <= k < |mas| ==> '\n' !in mas[k]
    ensures Terminated(prior) + WrtcPerf.ListenLines(mas) == Terminated(prior + MarkedLines(mas))
    ensures FileLines(Terminated(prior + MarkedLines(mas))) == prior + MarkedLines(mas)
  {
    ListenLinesTerminated(mas);
    TerminatedAppend(prior, MarkedLines(mas));
    var lines := prior + MarkedLines(mas);
    forall k | 0 <= k < |lines| ensures '\n' !in lines[k] {
      if k >= |prior| {
        MarkedLineNoNewline(mas[k - |prior|]);
      }
    }
    FileLinesOfTerminated(lines);
  }

  /** The same, as the runner's discovery step sees it: after the sleep, the
      remote read of a discovery file holding the server's lines gives the
      listen address for the WebRTC Direct client. */
  lemma DiscoverOnceFindsServer(serverPublicIP: string, hosts: Shell.Hosts, trace: seq<Shell.Command>,
                                prior: seq<string>, mas: seq<string>)
    requires forall k :: 0 <= k < |prior| ==> '\n' !in prior[k]
    requires forall k :: 0 <= k < |mas| ==> '\n' !in mas[k]
    requires mas != [] && Capturable(mas[|mas| - 1])
    requires hosts.exec(trace, Shell.Sleep(2)).code == 0
    requires hosts.exec(trace + [Shell.Sleep(2)], Shell.ReadListenFile(serverPublicIP))
          == Shell.Exec(0, Terminated(prior) + WrtcPerf.ListenLines(mas))
    ensures Executor.DiscoverOnce(serverPublicIP, hosts, trace).out
         == Shell.Ok(Some(ReplaceFirst(mas[|mas| - 1], Loopback, "/ip4/" + serverPublicIP + "/")))
  {
    ServerFileDiscovered(prior, mas, serverPublicIP);
  }

  /** The rewritten address is never empty, so a WebRTC Direct client dials exactly it
      rather than falling back to "<ip>:4001". */
  lemma DiscoveredAddrDialed(ma: string, serverPublicIP: string)
    requires Capturable(ma)
    ensures var addr := ReplaceFirst(ma, Loopback, "/ip4/" + serverPublicIP + "/");
      Executor.ServerAddress(Executor.WebRTCDirect, Some(addr), serverPublicIP) == addr
  {
    ReplaceFirstNonEmpty(ma, Loopback, "/ip4/" + serverPublicIP + "/");
  }

  /** Rewriting a non-empty address with a replacement that does not start with '$'
      leaves it non-empty. */
  lemma ReplaceFirstNonEmpty(s: string, pat: string, rep: string)
    requires s != "" && rep != "" && rep[0] != '$'
    ensures ReplaceFirst(s, pat, rep) != ""
  {
    match IndexOf(s, pat)
    case None =>
    case Some(p) =>
      var before, after := s[..p], s[p + |pat|..];
      SubstituteNonEmpty(rep, pat, before, after);
      assert ReplaceFirst(s, pat, rep) == before + Substitute(rep, pat, before, after) + after;
  }

  lemma SubstituteNonEmpty(rep: string, matched: string, before: string, after: string)
    requires rep != "" && rep[0] != '$'
    ensures Substitute(rep, matched, before, after) != ""
  {
    assert Substitute(rep, matched, before, after) == [rep[0]] + Substitute(rep[1..], matched, before, after);
  }

  // ------------------------------------------------------- the bracket grep

  /** The as-written discovery loses the address when the discovery file
      ends with a line that holds no marker but one of the characters of
      the bracket expression [LISTEN_ADDR]; the intended marker grep still
      finds it. */
  lemma StrayLineHidesAddress(prior: seq<string>, mas: seq<string>, stray: string, serverPublicIP: string)
    requires forall k :: 0 <= k < |prior| ==> '\n' !in prior[k]
    requires forall k :: 0 <= k < |mas| ==> '\n' !in mas[k]
    requires mas != [] && Capturable(mas[|mas| - 1])
    requires '\n' !in stray && !HasMarker(stray) && BracketGrep(stray)
    ensures var file := Terminated(prior) + WrtcPerf.ListenLines(mas) + stray + "\n";
      && DiscoveredAddrAsWritten(file, serverPublicIP) == None
      && DiscoveredAddr(file, serverPublicIP)
           == Some(ReplaceFirst(mas[|mas| - 1], Loopback, "/ip4/" + serverPublicIP + "/"))
  {
    var lines := prior + MarkedLines(mas);
    ServerLinesRead(prior, mas);
    var all := lines + [stray];
    assert all[..|all| - 1] == lines;
    assert Terminated(all) == Terminated(lines) + stray + "\n";
    forall k | 0 <= k < |all| ensures '\n' !in all[k] {
      if k < |lines| { assert all[k] == lines[k]; }
    }
    FileLinesOfTerminated(all);
    // the bracket grep keeps the stray line, which the pattern cannot match
    LastSelectedEnd(lines, [stray], BracketGrep);
    NoMarkerWithNewline(stray);
    NoMarkerInTrim(stray + "\n");
    NoMarkerNoToken(Trim(stray + "\n"));
    // the marker grep skips it and keeps the server's last line
    assert !MarkerGrep(stray);
    assert LastSelected(all, MarkerGrep) == LastSelected(lines, MarkerGrep);
    MarkedLineHasMarker(mas[|mas| - 1]);
    LastSelectedEnd(prior, MarkedLines(mas), MarkerGrep);
    MarkedLineToken(mas[|mas| - 1]);
  }

  /** One such file: a server line on the loopback address followed by "DONE". */
  lemma StrayLineExample()
    ensures DiscoveredAddrAsWritten(ExampleFile, "10.0.0.1") == None
    ensures DiscoveredAddr(ExampleFile, "10.0.0.1") == Some("/ip4/10.0.0.1/udp/4001/webrtc-direct")
  {
    ExampleFileLines();
    ExampleAddr();
    ExampleStray();
    StrayLineHidesAddress([], [ExampleListen], "DONE", "10.0.0.1");
  }

  const ExampleListen: string := "/ip4/127.0.0.1/udp/4001/webrtc-direct"
  /** The file "[LISTEN_ADDR] /ip4/127.0.0.1/udp/4001/webrtc-direct\nDONE\n". */
  /** The stray "DONE" line carries up to the runner: a discovery that reads ExampleFile
      throws for want of a listen address. */
  lemma StrayLineThrows(hosts: Shell.Hosts, trace: seq<Shell.Command>)
    requires hosts.exec(trace, Shell.Sleep(2)).code == 0
    requires hosts.exec(trace + [Shell.Sleep(2)], Shell.ReadListenFile("10.0.0.1")) == Shell.Exec(0, ExampleFile)
    ensures var r := Executor.DiscoverOnce("10.0.0.1", hosts, trace);
      r.out.Thrown? && r.out.failure.NoListenAddr?
  {
    StrayLineExample();
  }

  /** And so does the discovery loop of a version whose only stack is WebRTC Direct. */
  lemma StrayLineStopsDiscovery(hosts: Shell.Hosts, trace: seq<Shell.Command>)
    requires hosts.exec(trace, Shell.Sleep(2)).code == 0
    requires hosts.exec(trace + [Shell.Sleep(2)], Shell.ReadListenFile("10.0.0.1")) == Shell.Exec(0, ExampleFile)
    ensures Executor.Discover("10.0.0.1", [Executor.WebRTCDirect], hosts, trace).out.Thrown?
  {
    StrayLineThrows(hosts, trace);
    assert [Executor.WebRTCDirect][..0] == [];
  }

  const ExampleFile: string := MarkedLine(ExampleListen) + "\n" + "DONE" + "\n"

  lemma ExampleFileLines()
    ensures Terminated([]) + WrtcPerf.ListenLines([ExampleListen]) + "DONE" + "\n" == ExampleFile
  {
    var none: seq<string> := [];
    assert [ExampleListen][..0] == none;
    assert Terminated([]) == "";
    assert WrtcPerf.ListenLines([ExampleListen]) == MarkedLine(ExampleListen) + "\n";
  }

  lemma ExampleVisible()
    ensures forall t :: 0 <= t < |ExampleListen| ==> !IsSpace(ExampleListen[t])
  {
  }

  lemma ExampleAddr()
    ensures '\n' !in ExampleListen && Capturable(ExampleListen)
    ensures ReplaceFirst(ExampleListen, Loopback, "/ip4/" + "10.0.0.1" + "/") == "/ip4/10.0.0.1/udp/4001/webrtc-direct"
  {
    var ma := ExampleListen;
    ExampleVisible();
    assert IpPrefixAt(ma, 0);
    assert ma[..|Loopback|] == Loopback;
    LoopbackRewritten(ma, "10.0.0.1");
    assert ma[|Loopback|..] == "udp/4001/webrtc-direct";
    ExampleRewrite();
  }

  lemma ExampleRewrite()
    ensures "/ip4/" + "10.0.0.1" + "/" + "udp/4001/webrtc-direct" == "/ip4/10.0.0.1/udp/4001/webrtc-direct"
  {
  }

  lemma ExampleStray()
    ensures '\n' !in "DONE" && !HasMarker("DONE") && BracketGrep("DONE")
  {
    assert "DONE"[0] in "LISTEN_ADR";
  }

  // ------------------------------------------------- the server's own address

  /** The runner starts every server with the bind address 0.0.0.0:4001,
      which the server splits into host and port ... */
  lemma ServerBindSplit()
    ensures WrtcPerf.SplitHostPort(Some(Executor.ServerBind)) == WrtcPerf.Ok(WrtcPerf.HostPort("0.0.0.0", Some("4001")))
  {
    assert Executor.ServerBind == "0.0.0.0" + ":" + "4001";
    WrtcPerf.SplitHostPortJoin("0.0.0.0", "4001");
  }

  /** ... and listens on port 4001 of every interface, over TCP ... */
  lemma ServerBindListensTcp()
    ensures WrtcPerf.ListenAddr(WrtcPerf.Tcp, WrtcPerf.HostPort("0.0.0.0", Some("4001"))) == "/ip4/0.0.0.0/tcp/4001"
  {
  }

  /** ... or over UDP for WebRTC Direct. */
  lemma ServerBindListensWebRTCDirect()
    ensures WrtcPerf.ListenAddr(WrtcPerf.WebRTCDirect, WrtcPerf.HostPort("0.0.0.0", Some("4001")))
         == "/ip4/0.0.0.0/udp/4001/webrtc-direct"
  {
  }

  /** A TCP client of the runner dials <serverPublicIP>:4001 and the
      implementation turns that into /ip4/<serverPublicIP>/tcp/4001. */
  lemma TcpClientTarget(transportStack: string, serverListenAddr: Option<string>, serverPublicIP: string)
    requires transportStack != Executor.WebRTCDirect
    requires ':' !in serverPublicIP
    ensures WrtcPerf.TargetText(WrtcPerf.Tcp, Some(Executor.ServerAddress(transportStack, serverListenAddr, serverPublicIP)))
         == WrtcPerf.Ok(Some("/ip4/" + serverPublicIP + "/tcp/4001"))
  {
    assert ':' !in "4001";
    var address := Executor.ServerAddress(transportStack, serverListenAddr, serverPublicIP);
    assert address == serverPublicIP + ":" + "4001";
    WrtcPerf.SplitHostPortJoin(serverPublicIP, "4001");
    assert "/ip4/" + serverPublicIP + "/tcp/" + "4001" == "/ip4/" + serverPublicIP + "/tcp/4001";
  }
}
