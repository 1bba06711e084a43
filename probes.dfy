/** The baseline probes' text scrapers (runPing and runIPerf in
    perf/runner/src/index.ts): which lines of the probe output are kept, in
    what order, and how each kept token becomes a number. Regular-expression
    matching is written out position by position; parseFloat is the host's
    and is a parameter. Numbers are exact reals, not IEEE doubles. */
module Probes {
  import opened JsText

  /** What parseFloat returns: a finite value, or NaN / an infinity. */
  datatype Number = Finite(value: real) | NotFinite

  datatype Unit = Seconds | BitsPerSecond

  /** PingResults and IperfResults: a unit and the measured series. */
  datatype Baseline = Baseline(unit: Unit, results: seq<Number>)

  function DivideBy(n: Number, d: real): (r: Number)
    requires d != 0.0
  {
    match n
    case Finite(x) => Finite(x / d)
    case NotFinite => NotFinite
  }

  function MultiplyBy(n: Number, m: real): (r: Number)
    requires m > 0.0
  {
    match n
    case Finite(x) => Finite(x * m)
    case NotFinite => NotFinite
  }

  // ------------------------------------------------------------ ping: /time=(.*) ms/

  /** No line terminator among s[a..b] ('.' of a regular expression matches them all). */
  predicate TermFree(s: string, a: int, b: int) {
    forall t :: a <= t < b && 0 <= t < |s| ==> !IsLineTerminator(s[t])
  }

  /** /time=(.*) ms/ can match with "time=" at i and " ms" at j (the group is s[i+5..j]). */
  predicate PingMatchAt(s: string, i: int, j: int) {
    0 <= i && i + 5 <= j && j + 3 <= |s| && s[i..i + 5] == "time=" && s[j..j + 3] == " ms" && TermFree(s, i + 5, j)
  }

  predicate MsAt(s: string, j: int) {
    0 <= j && j + 3 <= |s| && s[j..j + 3] == " ms"
  }

  /** The greedy end of the group: the last " ms" at or after k reachable from
      `from` without crossing a line terminator. */
  function LastMs(s: string, from: nat, k: nat): (r: Option<nat>)
    requires from <= k <= |s| && TermFree(s, from, k)
    ensures r.Some? ==> k <= r.value && MsAt(s, r.value) && TermFree(s, from, r.value)
    ensures r.Some? ==> forall j :: r.value < j && MsAt(s, j) ==> !TermFree(s, from, j)
    ensures r.None? ==> forall j :: k <= j && MsAt(s, j) ==> !TermFree(s, from, j)
    decreases |s| - k
  {
    if k + 3 > |s| then None
    else if IsLineTerminator(s[k]) then
      assert forall j :: k < j ==> !TermFree(s, from, j);
      None
    else
      match LastMs(s, from, k + 1)
      case Some(j) => Some(j)
      case None => if s[k..k + 3] == " ms" then Some(k) else None
  }

  /** The leftmost-greedy match at or after i: the start of "time=" and the start of " ms". */
  function PingMatchFrom(s: string, i: nat): (r: Option<(nat, nat)>)
    ensures r.Some? ==> i <= r.value.0 && PingMatchAt(s, r.value.0, r.value.1)
    ensures r.Some? ==> forall p, j :: i <= p < r.value.0 ==> !PingMatchAt(s, p, j)
    ensures r.Some? ==> forall j :: r.value.1 < j ==> !PingMatchAt(s, r.value.0, j)
    ensures r.None? ==> forall p, j :: i <= p ==> !PingMatchAt(s, p, j)
    decreases |s| - i
  {
    if i + 5 > |s| then None
    else if s[i..i + 5] != "time=" then PingMatchFrom(s, i + 1)
    else
      match LastMs(s, i + 5, i + 5)
      case Some(j) => Some((i, j))
      case None => PingMatchFrom(s, i + 1)
  }

  /** The value one ping line contributes: the group, parsed and converted from ms to s. */
  function PingValue(parseFloat: string -> Number, line: string): Option<Number>
  {
    match PingMatchFrom(line, 0)
    case None => None
    case Some((i, j)) => Some(DivideBy(parseFloat(line[i + 5..j]), 1000.0))
  }

  /** runPing's parsing: one value per matching line of stdout split on '\n', in order. */
  function PingTimes(parseFloat: string -> Number, stdout: string): (r: seq<Number>)
  {
    FilterMap(Split(stdout, '\n'), line => PingValue(parseFloat, line))
  }

  /** "time=<c> ms" matches with "time=" at 0 and " ms" at its end. */
  lemma PingLineMatch(c: string)
    requires TermFree(c, 0, |c|)
    ensures |"time=" + c + " ms"| == |c| + 8
    ensures PingMatchAt("time=" + c + " ms", 0, |c| + 5)
  {
    var s := "time=" + c + " ms";
    assert s[0..5] == "time=";
    assert s[|c| + 5..|c| + 8] == " ms";
    forall t | 5 <= t < |c| + 5 ensures !IsLineTerminator(s[t]) {
      assert s[t] == c[t - 5];
    }
  }

  /** A match at the very start that ends with the line is the one taken. */
  lemma PingMatchWhole(s: string, j0: nat)
    requires PingMatchAt(s, 0, j0) && j0 + 3 == |s|
    ensures PingMatchFrom(s, 0) == Some((0, j0))
  {
    var r := PingMatchFrom(s, 0);
    assert r.Some?;
    assert r.value.0 == 0;
    assert PingMatchAt(s, 0, r.value.1);
  }

  /** A line "time=<c> ms" yields exactly <c>, whatever <c> holds besides line terminators. */
  lemma PingGroup(c: string)
    requires TermFree(c, 0, |c|)
    ensures PingMatchFrom("time=" + c + " ms", 0) == Some((0, |c| + 5))
  {
    PingLineMatch(c);
    PingMatchWhole("time=" + c + " ms", |c| + 5);
  }

  /** The value of such a line is <c> parsed, in seconds. */
  lemma PingLineValue(parseFloat: string -> Number, c: string)
    requires TermFree(c, 0, |c|)
    ensures PingValue(parseFloat, "time=" + c + " ms") == Some(DivideBy(parseFloat(c), 1000.0))
  {
    var s := "time=" + c + " ms";
    PingGroup(c);
    assert s[5..|c| + 5] == c;
  }

  lemma PingExampleText()
    ensures "time=23.4 ms" == "time=" + "23.4" + " ms"
    ensures TermFree("23.4", 0, 4)
  {
  }

  lemma PingExampleSingleLine()
    ensures '\n' !in "time=23.4 ms"
  {
  }

  /** "time=23.4 ms" becomes 0.0234 seconds. */
  lemma PingExample(parseFloat: string -> Number)
    requires parseFloat("23.4") == Finite(23.4)
    ensures PingTimes(parseFloat, "time=23.4 ms") == [Finite(0.0234)]
  {
    PingExampleText();
    PingLineValue(parseFloat, "23.4");
    PingExampleSingleLine();
    SplitNoSeparator("time=23.4 ms", '\n');
    FilterMapSingle("time=23.4 ms", l => PingValue(parseFloat, l));
  }

  // --------------------------------------- iperf: /(\d+(?:\.\d+)?) (\w)bits\/sec/

  predicate IsDigit(c: char) { '0' <= c <= '9' }

  predicate IsWordChar(c: char) { 'a' <= c <= 'z' || 'A' <= c <= 'Z' || IsDigit(c) || c == '_' }

  /** End of the run of digits that starts at k. */
  function DigitsEnd(s: string, k: nat): (e: nat)
    requires k <= |s|
    ensures k <= e <= |s|
    ensures forall t :: k <= t < e ==> IsDigit(s[t])
    ensures e == |s| || !IsDigit(s[e])
    decreases |s| - k
  {
    if k < |s| && IsDigit(s[k]) then DigitsEnd(s, k + 1) else k
  }

  /** Every character of t is a decimal digit. */
  predicate AllDigits(t: string) {
    forall k :: 0 <= k < |t| ==> IsDigit(t[k])
  }

  /** What (\d+(?:\.\d+)?) matches: a digit run, optionally followed by '.' and a second digit run. */
  predicate DecimalText(t: string) {
    (|t| > 0 && AllDigits(t))
    || exists d :: 0 < d < |t| - 1 && t[d] == '.' && AllDigits(t[..d]) && AllDigits(t[d + 1..])
  }

  /** The pattern can match with the number at s[i..e], the space at e and the unit letter at e + 1. */
  predicate IperfShapeAt(s: string, i: int, e: int) {
    0 <= i < e && e + 10 <= |s| && DecimalText(s[i..e])
    && s[e] == ' ' && IsWordChar(s[e + 1]) && s[e + 2..e + 10] == "bits/sec"
  }

  /** Where the greedy number starting at i ends: both digit runs are taken whole, and the
      fraction whenever a digit follows the '.'. */
  function NumberEnd(s: string, i: nat): (e: nat)
    requires i <= |s|
    ensures i <= e <= |s|
  {
    var a := DigitsEnd(s, i);
    if a + 1 < |s| && s[a] == '.' && IsDigit(s[a + 1]) then DigitsEnd(s, a + 1) else a
  }

  /** A digit run from k that stops at a non-digit at e ends at e. */
  lemma DigitsEndAt(s: string, k: nat, e: nat)
    requires k <= e < |s| && !IsDigit(s[e])
    requires forall t :: k <= t < e ==> IsDigit(s[t])
    ensures DigitsEnd(s, k) == e
  {
  }

  /** Backtracking cannot change the outcome: wherever the pattern can match at i, the number
      is the greedy one. */
  lemma IperfShapeGreedy(s: string, i: nat, e: int)
    requires i <= |s| && IperfShapeAt(s, i, e)
    ensures DigitsEnd(s, i) > i && e == NumberEnd(s, i)
  {
    var t := s[i..e];
    if |t| > 0 && AllDigits(t) {
      SliceDigits(s, i, e, 0, |t|);
      DigitsEndAt(s, i, e);
    } else {
      var d :| 0 < d < |t| - 1 && t[d] == '.' && AllDigits(t[..d]) && AllDigits(t[d + 1..]);
      FractionDigits(t, d);
      SliceDigits(s, i, e, 0, d);
      SliceDigits(s, i, e, d + 1, |t|);
      FractionGreedy(s, i, i + d, e);
    }
  }

  /** The digits of a decimal number with a fraction, by position. */
  lemma FractionDigits(t: string, d: nat)
    requires 0 < d < |t| - 1 && AllDigits(t[..d]) && AllDigits(t[d + 1..])
    ensures forall k :: 0 <= k < d ==> IsDigit(t[k])
    ensures forall k :: d < k < |t| ==> IsDigit(t[k])
  {
    forall k | 0 <= k < d ensures IsDigit(t[k]) {
      assert t[k] == t[..d][k];
    }
    forall k | d < k < |t| ensures IsDigit(t[k]) {
      assert t[k] == t[d + 1..][k - d - 1];
    }
  }

  /** Digits of the slice s[i..e] are digits of s. */
  lemma SliceDigits(s: string, i: nat, e: nat, lo: nat, hi: nat)
    requires i <= e <= |s| && lo <= hi <= e - i
    requires forall k :: lo <= k < hi ==> IsDigit(s[i..e][k])
    ensures forall q :: i + lo <= q < i + hi ==> IsDigit(s[q])
  {
    forall q | i + lo <= q < i + hi ensures IsDigit(s[q]) {
      assert s[q] == s[i..e][q - i];
    }
  }

  /** A number with a fraction, followed by a non-digit, is both digit runs whole. */
  lemma FractionGreedy(s: string, i: nat, a: nat, e: nat)
    requires i < a && a + 1 < e < |s| && !IsDigit(s[e]) && s[a] == '.'
    requires forall q :: i <= q < a ==> IsDigit(s[q])
    requires forall q :: a + 1 <= q < e ==> IsDigit(s[q])
    ensures DigitsEnd(s, i) > i && e == NumberEnd(s, i)
  {
    DigitsEndAt(s, i, a);
    DigitsEndAt(s, a + 1, e);
    assert IsDigit(s[a + 1]);
  }

  /** The greedy number, when followed by " <letter>bits/sec", is a match. */
  lemma IperfGreedyShape(s: string, i: nat)
    requires i <= |s| && DigitsEnd(s, i) > i
    requires var e := NumberEnd(s, i);
      e + 10 <= |s| && s[e] == ' ' && IsWordChar(s[e + 1]) && s[e + 2..e + 10] == "bits/sec"
    ensures IperfShapeAt(s, i, NumberEnd(s, i))
  {
    var a, e := DigitsEnd(s, i), NumberEnd(s, i);
    if a + 1 < |s| && s[a] == '.' && IsDigit(s[a + 1]) {
      FractionText(s, i, a, e);
    } else {
      DigitSlice(s, i, a);
    }
  }

  /** A stretch of digits of s is a digit run. */
  lemma DigitSlice(s: string, a: nat, b: nat)
    requires a <= b <= |s|
    requires forall q :: a <= q < b ==> IsDigit(s[q])
    ensures AllDigits(s[a..b])
  {
    var t := s[a..b];
    forall k | 0 <= k < |t| ensures IsDigit(t[k]) {
      assert t[k] == s[a + k];
    }
  }

  /** Two digit runs around a '.' are a decimal number. */
  lemma FractionText(s: string, i: nat, a: nat, e: nat)
    requires i < a && a + 1 < e <= |s| && s[a] == '.'
    requires forall q :: i <= q < a ==> IsDigit(s[q])
    requires forall q :: a + 1 <= q < e ==> IsDigit(s[q])
    ensures DecimalText(s[i..e])
  {
    var t, d := s[i..e], a - i;
    DigitSlice(s, i, a);
    DigitSlice(s, a + 1, e);
    assert t[..d] == s[i..a];
    assert t[d + 1..] == s[a + 1..e];
    assert t[d] == '.';
  }

  /** The regular expression anchored at i, giving the number text and the unit letter. */
  function IperfMatchAt(s: string, i: nat): (r: Option<(string, char)>)
    requires i <= |s|
  {
    var e := NumberEnd(s, i);
    if DigitsEnd(s, i) > i && e + 10 <= |s| && s[e] == ' ' && IsWordChar(s[e + 1]) && s[e + 2..e + 10] == "bits/sec"
    then Some((s[i..e], s[e + 1]))
    else None
  }

  /** The pattern matches at i exactly when it can, and then gives the number text and the
      unit letter of a way it can match. */
  lemma IperfMatchAtShape(s: string, i: nat)
    requires i <= |s|
    ensures IperfMatchAt(s, i).Some? <==> exists e :: IperfShapeAt(s, i, e)
    ensures var r := IperfMatchAt(s, i);
      r.Some? ==> exists e :: IperfShapeAt(s, i, e) && r.value.0 == s[i..e] && r.value.1 == s[e + 1]
  {
    if IperfMatchAt(s, i).Some? {
      IperfGreedyShape(s, i);
    } else {
      IperfShapeOnly(s, i);
    }
  }

  /** The greedy number is the only one the pattern can match at i. */
  lemma IperfShapeOnly(s: string, i: nat)
    requires i <= |s|
    ensures forall e :: IperfShapeAt(s, i, e) ==> DigitsEnd(s, i) > i && e == NumberEnd(s, i)
  {
    forall e | IperfShapeAt(s, i, e) ensures DigitsEnd(s, i) > i && e == NumberEnd(s, i) {
      IperfShapeGreedy(s, i, e);
    }
  }

  /** The leftmost position at or after i where the pattern matches. */
  function IperfMatchFrom(s: string, i: nat): (r: Option<nat>)
    requires i <= |s|
    ensures r.Some? ==> i <= r.value <= |s| && IperfMatchAt(s, r.value).Some?
    ensures r.Some? ==> forall q :: i <= q < r.value ==> IperfMatchAt(s, q).None?
    ensures r.None? ==> forall q :: i <= q <= |s| ==> IperfMatchAt(s, q).None?
    decreases |s| - i
  {
    if IperfMatchAt(s, i).Some? then Some(i)
    else if i == |s| then None
    else IperfMatchFrom(s, i + 1)
  }

  /** 1e9, 1e6 and 1e3 for G, M and K; 1 for any other unit letter. */
  function Multiplier(u: char): (m: real)
    ensures m > 0.0
  {
    if u == 'G' then 1000000000.0 else if u == 'M' then 1000000.0 else if u == 'K' then 1000.0 else 1.0
  }

  function IperfValue(parseFloat: string -> Number, line: string): Option<Number>
  {
    match IperfMatchFrom(line, 0)
    case None => None
    case Some(i) =>
      var (num, u) := IperfMatchAt(line, i).value;
      Some(MultiplyBy(parseFloat(num), Multiplier(u)))
  }

  /** runIPerf's parsing: one bit rate per matching line, in order. */
  function IperfRates(parseFloat: string -> Number, stdout: string): (r: seq<Number>)
  {
    FilterMap(Split(stdout, '\n'), line => IperfValue(parseFloat, line))
  }

  /** "10.5 Gbits/sec" becomes 10.5e9 bits per second. */
  lemma IperfExample(parseFloat: string -> Number, stdout: string)
    requires stdout == "10.5 Gbits/sec" && parseFloat("10.5") == Finite(10.5)
    ensures IperfRates(parseFloat, stdout) == [Finite(10500000000.0)]
  {
    IperfExampleLine(parseFloat, stdout);
    SplitNoSeparator(stdout, '\n');
    FilterMapSingle(stdout, line => IperfValue(parseFloat, line));
  }

  lemma IperfExampleLine(parseFloat: string -> Number, line: string)
    requires line == "10.5 Gbits/sec" && parseFloat("10.5") == Finite(10.5)
    ensures IperfValue(parseFloat, line) == Some(Finite(10500000000.0))
  {
    assert IsDigit(line[0]) && IsDigit(line[1]) && line[2] == '.' && IsDigit(line[3]) && line[4] == ' ';
    assert DigitsEnd(line, 0) == 2;
    assert DigitsEnd(line, 3) == 4;
    assert line[6..14] == "bits/sec" && line[5] == 'G';
    assert line[0..4] == "10.5";
    assert IperfMatchAt(line, 0) == Some(("10.5", 'G'));
  }

  /** A line "<num> <u>bits/sec" yields <num> parsed and scaled by the unit letter's multiplier,
      for every decimal number text and every word character. */
  lemma IperfLineValue(parseFloat: string -> Number, num: string, u: char)
    requires DecimalText(num) && IsWordChar(u)
    ensures IperfValue(parseFloat, num + " " + [u] + "bits/sec") == Some(MultiplyBy(parseFloat(num), Multiplier(u)))
  {
    var line := num + " " + [u] + "bits/sec";
    var e := |num|;
    assert line[0..e] == num && line[e] == ' ' && line[e + 1] == u;
    assert line[e + 2..e + 10] == "bits/sec";
    IperfShapeGreedy(line, 0, e);
    assert IperfMatchAt(line, 0) == Some((num, u));
    assert IperfMatchFrom(line, 0) == Some(0);
  }

  /** Such a line alone is a one-value series, in bit/s: 'G', 'M' and 'K' scale by 1e9, 1e6
      and 1e3, and every other unit letter by 1. */
  lemma IperfLineRates(parseFloat: string -> Number, num: string, u: char)
    requires DecimalText(num) && IsWordChar(u)
    ensures var rates := IperfRates(parseFloat, num + " " + [u] + "bits/sec");
      && (u == 'G' ==> rates == [MultiplyBy(parseFloat(num), 1000000000.0)])
      && (u == 'M' ==> rates == [MultiplyBy(parseFloat(num), 1000000.0)])
      && (u == 'K' ==> rates == [MultiplyBy(parseFloat(num), 1000.0)])
      && (u != 'G' && u != 'M' && u != 'K' ==> rates == [parseFloat(num)])
  {
    var line := num + " " + [u] + "bits/sec";
    assert '\n' !in line by {
      if |num| > 0 && AllDigits(num) {
        assert forall k :: 0 <= k < |num| ==> num[k] != '\n';
      } else {
        var d :| 0 < d < |num| - 1 && num[d] == '.' && AllDigits(num[..d]) && AllDigits(num[d + 1..]);
        forall k | 0 <= k < |num| ensures num[k] != '\n' {
          if k < d {
            assert num[k] == num[..d][k];
          } else if k > d {
            assert num[k] == num[d + 1..][k - d - 1];
          }
        }
      }
      assert forall k :: 0 <= k < |line| ==> line[k] != '\n' by {
        forall k | 0 <= k < |line| ensures line[k] != '\n' {
          if k < |num| {
            assert line[k] == num[k];
          }
        }
      }
    }
    IperfLineValue(parseFloat, num, u);
    SplitNoSeparator(line, '\n');
    FilterMapSingle(line, l => IperfValue(parseFloat, l));
    if u != 'G' && u != 'M' && u != 'K' {
      match parseFloat(num)
      case Finite(x) => assert x * 1.0 == x;
      case NotFinite =>
    }
  }

  /** A probe line is kept on its own merits: the rates of two outputs joined
      by a newline are the rates of the first followed by those of the second. */
  lemma {:induction false} IperfRatesJoin(parseFloat: string -> Number, a: string, b: string)
    ensures IperfRates(parseFloat, a + "\n" + b) == IperfRates(parseFloat, a) + IperfRates(parseFloat, b)
  {
    var f := line => IperfValue(parseFloat, line);
    var pa, pb := Split(a, '\n'), Split(b, '\n');
    JoinConcat(pa, pb, "\n");
    SplitJoin(pa + pb, '\n');
    FilterMapAppend(pa, pb, f);
  }

  lemma {:induction false} PingTimesJoin(parseFloat: string -> Number, a: string, b: string)
    ensures PingTimes(parseFloat, a + "\n" + b) == PingTimes(parseFloat, a) + PingTimes(parseFloat, b)
  {
    var f := line => PingValue(parseFloat, line);
    var pa, pb := Split(a, '\n'), Split(b, '\n');
    JoinConcat(pa, pb, "\n");
    SplitJoin(pa + pb, '\n');
    FilterMapAppend(pa, pb, f);
  }
}
