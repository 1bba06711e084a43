/** Listen-address discovery (getWebRTCDirectListenAddr, perf/runner/src/index.ts:275-289):
    the remote `cat <file> | grep … | tail -1` pipeline that picks the last
    marked line of the discovery file, the regular expression
    /\[LISTEN_ADDR\]\s+(\/ip[46]\/[^\s]+)/ that pulls the address out of it,
    and the rewrite of a loopback host to the server's public address. */
module Discovery {
  import opened JsText

  const Marker: string := "[LISTEN_ADDR]"
  const Loopback: string := "/ip4/127.0.0.1/"

  // ------------------------------------------------------ the discovery file

  /** A file made of the given lines, each ended by '\n' (what appending
      whole lines produces). */
  function Terminated(lines: seq<string>): (file: string)
    decreases |lines|
  {
    if lines == [] then "" else Terminated(lines[..|lines| - 1]) + lines[|lines| - 1] + "\n"
  }

  lemma {:induction false} TerminatedAppend(a: seq<string>, b: seq<string>)
    ensures Terminated(a + b) == Terminated(a) + Terminated(b)
    decreases |b|
  {
    if b == [] {
      assert a + b == a;
    } else {
      assert (a + b)[..|a + b| - 1] == a + b[..|b| - 1];
      TerminatedAppend(a, b[..|b| - 1]);
    }
  }

  /** The lines of a file as grep and tail see them: the pieces between
      newlines, without the empty piece after a final newline. */
  function FileLines(file: string): (lines: seq<string>)
    ensures forall k :: 0 <= k < |lines| ==> '\n' !in lines[k]
  {
    var pieces := Split(file, '\n');
    if pieces[|pieces| - 1] == "" then pieces[..|pieces| - 1] else pieces
  }

  lemma {:induction false} TerminatedIsJoin(lines: seq<string>)
    ensures Terminated(lines) == Join(lines + [""], "\n")
    decreases |lines|
  {
    if lines != [] {
      var init := lines[..|lines| - 1];
      TerminatedIsJoin(init);
      assert lines + [""] == init + [lines[|lines| - 1], ""];
      JoinConcat(init + [lines[|lines| - 1]], [""], "\n");
      if init == [] {
        assert init + [lines[|lines| - 1]] == [lines[|lines| - 1]];
      } else {
        JoinConcat(init, [lines[|lines| - 1]], "\n");
        JoinConcat(init, [""], "\n");
        assert init + [lines[|lines| - 1]] + [""] == init + [lines[|lines| - 1], ""];
      }
    }
  }

  /** Reading back a file of whole lines gives those lines. */
  lemma FileLinesOfTerminated(lines: seq<string>)
    requires forall k :: 0 <= k < |lines| ==> '\n' !in lines[k]
    ensures FileLines(Terminated(lines)) == lines
  {
    TerminatedIsJoin(lines);
    SplitJoin(lines + [""], '\n');
    assert (lines + [""])[..|lines|] == lines;
  }

  // ---------------------------------------------------------- grep | tail -1

  predicate HasMarker(line: string) {
    IndexOf(line, Marker).Some?
  }

  /** Line k is selected and no later line is. */
  predicate LastAt(lines: seq<string>, select: string -> bool, k: int) {
    0 <= k < |lines| && select(lines[k]) && forall j :: k < j < |lines| ==> !select(lines[j])
  }

  /** The last line that `select` keeps, if any (`grep … | tail -1`). */
  function LastSelected(lines: seq<string>, select: string -> bool): (r: Option<string>)
    ensures r.Some? ==> exists k :: LastAt(lines, select, k) && lines[k] == r.value
    ensures r.None? ==> forall k :: 0 <= k < |lines| ==> !select(lines[k])
    decreases |lines|
  {
    if lines == [] then None
    else if select(lines[|lines| - 1]) then
      assert LastAt(lines, select, |lines| - 1);
      Some(lines[|lines| - 1])
    else
      UnselectedLast(lines, select);
      LastSelected(lines[..|lines| - 1], select)
  }

  /** An unselected last line changes neither which line is last selected
      nor whether any is. */
  lemma UnselectedLast(lines: seq<string>, select: string -> bool)
    requires lines != [] && !select(lines[|lines| - 1])
    ensures var init := lines[..|lines| - 1];
      && (forall k :: LastAt(init, select, k) ==> LastAt(lines, select, k) && init[k] == lines[k])
      && ((forall k :: 0 <= k < |init| ==> !select(init[k])) ==> forall k :: 0 <= k < |lines| ==> !select(lines[k]))
  {
    var init := lines[..|lines| - 1];
    assert forall j :: 0 <= j < |init| ==> init[j] == lines[j];
  }

  /** Whatever precedes it, a selected last line is the one tail prints. */
  lemma LastSelectedEnd(prior: seq<string>, tail: seq<string>, select: string -> bool)
    requires tail != [] && select(tail[|tail| - 1])
    ensures LastSelected(prior + tail, select) == Some(tail[|tail| - 1])
  {
  }

  /** What the remote pipeline prints: the chosen line and its newline, or nothing. */
  function PipelineOutput(file: string, select: string -> bool): (out: string)
  {
    match LastSelected(FileLines(file), select)
    case None => ""
    case Some(line) => line + "\n"
  }

  /** The grep the discovery evidently intends: lines holding the literal marker. */
  predicate MarkerGrep(line: string) {
    HasMarker(line)
  }

  /** The grep the runner actually sends. Line 276 is a template literal, in
      which `\[` is just `[`, so grep receives the bracket expression
      [LISTEN_ADDR]: any line holding one of those letters or '_'. */
  predicate BracketGrep(line: string) {
    exists k :: 0 <= k < |line| && line[k] in "LISTEN_ADR"
  }

  // ---------------------------------------------------------- the pattern

  /** End of the run of white space (\s) that starts at k. */
  function SpaceEnd(s: string, k: nat): (e: nat)
    requires k <= |s|
    ensures k <= e <= |s|
    ensures forall t :: k <= t < e ==> IsSpace(s[t])
    ensures e == |s| || !IsSpace(s[e])
    decreases |s| - k
  {
    if k < |s| && IsSpace(s[k]) then SpaceEnd(s, k + 1) else k
  }

  /** End of the run of non-white-space ([^\s]) that starts at k. */
  function NonSpaceEnd(s: string, k: nat): (e: nat)
    requires k <= |s|
    ensures k <= e <= |s|
    ensures forall t :: k <= t < e ==> !IsSpace(s[t])
    ensures e == |s| || IsSpace(s[e])
    decreases |s| - k
  {
    if k < |s| && !IsSpace(s[k]) then NonSpaceEnd(s, k + 1) else k
  }

  predicate IpPrefixAt(s: string, k: int) {
    0 <= k && k + 5 <= |s| && (s[k..k + 5] == "/ip4/" || s[k..k + 5] == "/ip6/")
  }

  /** Where the pattern can match: the marker at i, a non-empty run of white
      space up to k, then /ip4/ or /ip6/ and a character that is not white space. */
  predicate ShapeAt(s: string, i: int, k: int) {
    && OccursAt(s, Marker, i) && i + |Marker| < k && IpPrefixAt(s, k) && k + 5 < |s| && !IsSpace(s[k + 5])
    && forall t :: i + |Marker| <= t < k ==> IsSpace(s[t])
  }

  /** tok is what s holds from k on, up to white space or the end of s. */
  predicate RunAt(s: string, k: int, tok: string) {
    0 <= k && k + |tok| <= |s| && s[k..k + |tok|] == tok && (k + |tok| == |s| || IsSpace(s[k + |tok|]))
  }

  /** The pattern anchored at i, giving group 1. Both \s+ and [^\s]+ are
      greedy and what follows each cannot be matched by the character it
      gives back, so the runs are taken whole. */
  function ListenMatchAt(s: string, i: nat): (r: Option<string>)
    requires i <= |s|
    ensures r.Some? <==> exists k :: ShapeAt(s, i, k)
    ensures r.Some? ==> exists k :: ShapeAt(s, i, k) && RunAt(s, k, r.value)
    ensures r.Some? ==> IpPrefixAt(r.value, 0) && |r.value| > 5
    ensures r.Some? ==> forall t :: 0 <= t < |r.value| ==> !IsSpace(r.value[t])
  {
    if !OccursAt(s, Marker, i) then None
    else
      var k := SpaceEnd(s, i + |Marker|);
      ShapeAtSpaceEnd(s, i);
      if k == i + |Marker| || !IpPrefixAt(s, k) then None
      else
        var m := NonSpaceEnd(s, k + 5);
        if m == k + 5 then None
        else
          TokenShape(s, k, m);
          assert ShapeAt(s, i, k) && RunAt(s, k, s[k..m]);
          Some(s[k..m])
  }

  /** The white space after the marker can only end where the address starts. */
  lemma ShapeAtSpaceEnd(s: string, i: nat)
    requires OccursAt(s, Marker, i)
    ensures forall k :: ShapeAt(s, i, k) ==> k == SpaceEnd(s, i + |Marker|)
  {
    var e := SpaceEnd(s, i + |Marker|);
    forall k | ShapeAt(s, i, k) ensures k == e {
      IpPrefixNoSpace(s, k);
      assert !IsSpace(s[k]);
    }
  }

  lemma IpPrefixNoSpace(s: string, k: int)
    requires IpPrefixAt(s, k)
    ensures forall t :: k <= t < k + 5 ==> !IsSpace(s[t])
  {
    forall t | k <= t < k + 5 ensures !IsSpace(s[t]) {
      assert s[t] == s[k..k + 5][t - k];
    }
  }

  /** A run of non-white-space after /ip4/ or /ip6/ is a token with that prefix. */
  lemma TokenShape(s: string, k: nat, m: nat)
    requires k + 5 < m <= |s| && IpPrefixAt(s, k)
    requires forall t :: k + 5 <= t < m ==> !IsSpace(s[t])
    ensures IpPrefixAt(s[k..m], 0) && |s[k..m]| > 5
    ensures forall t :: 0 <= t < |s[k..m]| ==> !IsSpace(s[k..m][t])
  {
    IpPrefixNoSpace(s, k);
    var token := s[k..m];
    assert token[0..5] == s[k..k + 5];
    forall t | 0 <= t < |token| ensures !IsSpace(token[t]) {
      assert token[t] == s[k + t];
    }
  }

  /** The leftmost position at or after i where the pattern matches. */
  function ListenMatchFrom(s: string, i: nat): (r: Option<nat>)
    requires i <= |s|
    ensures r.Some? ==> i <= r.value <= |s| && ListenMatchAt(s, r.value).Some?
    ensures r.Some? ==> forall q :: i <= q < r.value ==> ListenMatchAt(s, q).None?
    ensures r.None? ==> forall q :: i <= q <= |s| ==> ListenMatchAt(s, q).None?
    decreases |s| - i
  {
    if ListenMatchAt(s, i).Some? then Some(i)
    else if i == |s| then None
    else ListenMatchFrom(s, i + 1)
  }

  /** No match starts before n when none of the positions before n matches. */
  lemma NoShapeBelow(s: string, n: int)
    requires forall q :: 0 <= q < n && q <= |s| ==> ListenMatchAt(s, q).None?
    ensures forall q, k :: q < n ==> !ShapeAt(s, q, k)
  {
    forall q, k | q < n ensures !ShapeAt(s, q, k) {
      if 0 <= q <= |s| {
        assert ListenMatchAt(s, q).None?;
      }
    }
  }

  /** Group 1 of the first match in s, the token that starts with /ip4/ or
      /ip6/ and runs to the next white space; None when there is no match. */
  function ListenToken(s: string): (r: Option<string>)
    ensures r.None? <==> forall i, k :: !ShapeAt(s, i, k)
    ensures r.Some? ==> exists i, k :: && ShapeAt(s, i, k) && RunAt(s, k, r.value)
                                       && forall q, k' :: q < i ==> !ShapeAt(s, q, k')
    ensures r.Some? ==> IpPrefixAt(r.value, 0) && |r.value| > 5
    ensures r.Some? ==> forall t :: 0 <= t < |r.value| ==> !IsSpace(r.value[t])
  {
    match ListenMatchFrom(s, 0)
    case None =>
      NoShapeBelow(s, |s| + 1);
      None
    case Some(i) =>
      NoShapeBelow(s, i);
      ListenMatchAt(s, i)
  }

  /** getWebRTCDirectListenAddr after the remote command: None is the
      error it throws; otherwise the token with its first "/ip4/127.0.0.1/"
      replaced by "/ip4/<serverPublicIP>/". */
  function ExtractListenAddr(stdout: string, serverPublicIP: string): (r: Option<string>)
    ensures r.None? <==> ListenToken(Trim(stdout)).None?
    ensures r.Some? && IndexOf(ListenToken(Trim(stdout)).value, Loopback).None? ==>
      r.value == ListenToken(Trim(stdout)).value
  {
    match ListenToken(Trim(stdout))
    case None => None
    case Some(token) => Some(ReplaceFirst(token, Loopback, "/ip4/" + serverPublicIP + "/"))
  }

  /** A token that starts with the loopback segment gets the public address
      in its place, and keeps everything after it. */
  lemma LoopbackRewritten(token: string, serverPublicIP: string)
    requires |token| >= |Loopback| && token[..|Loopback|] == Loopback
    requires '$' !in serverPublicIP
    ensures ReplaceFirst(token, Loopback, "/ip4/" + serverPublicIP + "/")
         == "/ip4/" + serverPublicIP + "/" + token[|Loopback|..]
  {
    assert OccursAt(token, Loopback, 0);
    var rep := "/ip4/" + serverPublicIP + "/";
    assert '$' !in rep by {
      forall k | 0 <= k < |rep| ensures rep[k] != '$' {
        if 5 <= k < |rep| - 1 { assert rep[k] == serverPublicIP[k - 5]; }
      }
    }
    assert token[..0] == "";
  }

  /** The discovery as the runner evidently intends it, on the file
      contents: the marker grep, then the pattern and the rewrite. */
  function DiscoveredAddr(file: string, serverPublicIP: string): (r: Option<string>)
    ensures LastSelected(FileLines(file), MarkerGrep).None? ==> r.None?
  {
    ExtractListenAddr(PipelineOutput(file, MarkerGrep), serverPublicIP)
  }

  /** The discovery as the runner performs it, with the bracket-expression
      grep the command line really holds: an address comes only from the
      last line that grep selects, and only when that line carries the
      marker. */
  function DiscoveredAddrAsWritten(file: string, serverPublicIP: string): (r: Option<string>)
    ensures LastSelected(FileLines(file), BracketGrep).None? ==> r.None?
    ensures r.Some? ==> HasMarker(LastSelected(FileLines(file), BracketGrep).value)
  {
    UnmarkedLastLine(file, BracketGrep, serverPublicIP);
    ExtractListenAddr(PipelineOutput(file, BracketGrep), serverPublicIP)
  }

  /** A last selected line without the marker yields no address. */
  lemma UnmarkedLastLine(file: string, select: string -> bool, serverPublicIP: string)
    ensures var last := LastSelected(FileLines(file), select);
      last.Some? && !HasMarker(last.value) ==> ExtractListenAddr(PipelineOutput(file, select), serverPublicIP).None?
  {
    var last := LastSelected(FileLines(file), select);
    if last.Some? && !HasMarker(last.value) {
      NoMarkerWithNewline(last.value);
      NoMarkerInTrim(last.value + "\n");
      NoMarkerNoToken(Trim(last.value + "\n"));
    }
  }

  /** A line the pattern cannot match where the marker is missing. */
  lemma NoMarkerNoToken(s: string)
    requires !HasMarker(s)
    ensures ListenToken(s).None?
  {
  }

  /** The marker, whose last character is ']', cannot end at an added newline. */
  lemma NoMarkerWithNewline(s: string)
    requires !HasMarker(s)
    ensures !HasMarker(s + "\n")
  {
    MarkerEnd();
    AbsentAppend(s, Marker, '\n');
    assert s + "\n" == s + ['\n'];
  }

  lemma MarkerEnd()
    ensures Marker != [] && Marker[|Marker| - 1] == ']'
  {
  }

  /** Trim keeps a slice, so it cannot create the marker. */
  lemma NoMarkerInTrim(s: string)
    requires !HasMarker(s)
    ensures !HasMarker(Trim(s))
  {
    AbsentInTrim(s, Marker);
  }

  /** A line with the marker holds its letter 'L', so the bracket grep keeps it. */
  lemma MarkedLineSelected(line: string)
    requires HasMarker(line)
    ensures BracketGrep(line)
  {
    var p := IndexOf(line, Marker).value;
    assert line[p + 1] == Marker[1];
  }

  /** On a file whose every line carries the marker (all the server ever
      writes), the two greps select the same line. */
  lemma {:induction false} GrepsAgreeOnMarkedLines(lines: seq<string>)
    requires forall k :: 0 <= k < |lines| ==> HasMarker(lines[k])
    ensures LastSelected(lines, BracketGrep) == LastSelected(lines, MarkerGrep)
  {
    if lines != [] {
      MarkedLineSelected(lines[|lines| - 1]);
    }
  }

  /** So on such a file the discovery as written finds what the intended one finds. */
  lemma DiscoveriesAgree(file: string, serverPublicIP: string)
    requires forall k :: 0 <= k < |FileLines(file)| ==> HasMarker(FileLines(file)[k])
    ensures DiscoveredAddrAsWritten(file, serverPublicIP) == DiscoveredAddr(file, serverPublicIP)
  {
    GrepsAgreeOnMarkedLines(FileLines(file));
  }
}
