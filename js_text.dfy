/** The few JavaScript string operations the harness relies on, with their
    ECMAScript semantics: String.prototype.trim, split on one character,
    Array.prototype.join, indexOf and replace with a string pattern, and the
    map-then-drop-null idiom used to scrape lines. */
module JsText {

  datatype Option<+T> = None | Some(value: T)

  /** WhiteSpace and LineTerminator of ECMAScript: what trim() removes and what
      \s matches in a regular expression. */
  predicate IsSpace(c: char) {
    var n := c as int;
    n == 0x09 || n == 0x0A || n == 0x0B || n == 0x0C || n == 0x0D || n == 0x20 ||
    n == 0xA0 || n == 0x1680 || (0x2000 <= n <= 0x200A) || n == 0x2028 || n == 0x2029 ||
    n == 0x202F || n == 0x205F || n == 0x3000 || n == 0xFEFF
  }

  /** The characters a regular-expression '.' does not match. */
  predicate IsLineTerminator(c: char) {
    c == '\n' || c == '\r' || c as int == 0x2028 || c as int == 0x2029
  }

  /** A prefix one element longer. */
  lemma PrefixSnoc<T>(s: seq<T>, j: nat)
    requires j < |s|
    ensures s[..j + 1] == s[..j] + [s[j]]
  {
  }

  // ---------------------------------------------------------------- trim

  function TrimStart(s: string): (r: string)
    ensures |r| <= |s| && r == s[|s| - |r|..]
    ensures r == [] || !IsSpace(r[0])
    ensures forall k :: 0 <= k < |s| - |r| ==> IsSpace(s[k])
  {
    if s != [] && IsSpace(s[0]) then TrimStart(s[1..]) else s
  }

  function TrimEnd(s: string): (r: string)
    ensures |r| <= |s| && r == s[..|r|]
    ensures r == [] || !IsSpace(r[|r| - 1])
    ensures forall k :: |r| <= k < |s| ==> IsSpace(s[k])
  {
    if s != [] && IsSpace(s[|s| - 1]) then TrimEnd(s[..|s| - 1]) else s
  }

  /** String.prototype.trim: the longest slice of s without white space at
      either end, obtained by removing only white space. */
  function Trim(s: string): (r: string)
    ensures |r| <= |s|
    ensures r == [] || (!IsSpace(r[0]) && !IsSpace(r[|r| - 1]))
    ensures (forall k :: 0 <= k < |s| ==> IsSpace(s[k])) <==> r == []
  {
    TrimEnd(TrimStart(s))
  }

  /** Trim gives a slice of its input. */
  lemma TrimSlice(s: string) returns (off: nat)
    ensures off + |Trim(s)| <= |s|
    ensures Trim(s) == s[off..off + |Trim(s)|]
  {
    off := |s| - |TrimStart(s)|;
    DropTake(s, off, |Trim(s)|);
  }

  lemma DropTake<T>(s: seq<T>, off: nat, n: nat)
    requires off + n <= |s|
    ensures s[off..][..n] == s[off..off + n]
  {
  }

  lemma {:induction false} TrimStartKeeps(pre: string, core: string)
    requires forall k :: 0 <= k < |pre| ==> IsSpace(pre[k])
    requires core == [] || !IsSpace(core[0])
    ensures TrimStart(pre + core) == core
    decreases |pre|
  {
    if pre == [] {
      assert pre + core == core;
    } else {
      assert (pre + core)[1..] == pre[1..] + core;
      TrimStartKeeps(pre[1..], core);
    }
  }

  lemma {:induction false} TrimEndKeeps(core: string, post: string)
    requires forall k :: 0 <= k < |post| ==> IsSpace(post[k])
    requires core == [] || !IsSpace(core[|core| - 1])
    ensures TrimEnd(core + post) == core
    decreases |post|
  {
    if post == [] {
      assert core + post == core;
    } else {
      assert (core + post)[..|core + post| - 1] == core + post[..|post| - 1];
      TrimEndKeeps(core, post[..|post| - 1]);
    }
  }

  /** Trimming removes exactly the white space around a core that neither
      starts nor ends with white space. */
  lemma TrimAround(pre: string, core: string, post: string)
    requires forall k :: 0 <= k < |pre| ==> IsSpace(pre[k])
    requires forall k :: 0 <= k < |post| ==> IsSpace(post[k])
    requires core != [] && !IsSpace(core[0]) && !IsSpace(core[|core| - 1])
    ensures Trim(pre + core + post) == core
  {
    assert pre + core + post == pre + (core + post);
    TrimStartKeeps(pre, core + post);
    TrimEndKeeps(core, post);
  }

  // ---------------------------------------------------------- split, join

  /** Array.prototype.join. */
  function Join(parts: seq<string>, sep: string): (r: string)
    decreases |parts|
  {
    if |parts| == 0 then ""
    else if |parts| == 1 then parts[0]
    else parts[0] + sep + Join(parts[1..], sep)
  }

  /** Index of the first c in s, or |s| when there is none. */
  function CharIndex(s: string, c: char): (i: nat)
    ensures i <= |s|
    ensures forall k :: 0 <= k < i ==> s[k] != c
    ensures i < |s| ==> s[i] == c
  {
    if s == [] then 0 else if s[0] == c then 0 else 1 + CharIndex(s[1..], c)
  }

  /** String.prototype.split with a one-character separator: the pieces
      between the separators, never fewer than one, none holding the
      separator, and joined back by it they give s. */
  function Split(s: string, sep: char): (r: seq<string>)
    ensures |r| >= 1
    ensures forall k :: 0 <= k < |r| ==> sep !in r[k]
    ensures Join(r, [sep]) == s
    decreases |s|
  {
    var i := CharIndex(s, sep);
    if i == |s| then
      assert s[..i] == s;
      [s]
    else
      var rest := Split(s[i + 1..], sep);
      assert s == s[..i] + [sep] + s[i + 1..];
      [s[..i]] + rest
  }

  /** A string without the separator splits into itself alone. */
  lemma SplitNoSeparator(s: string, sep: char)
    requires sep !in s
    ensures Split(s, sep) == [s]
  {
    assert forall k :: 0 <= k < |s| ==> s[k] != sep;
  }

  /** Joining two non-empty lists of pieces. */
  lemma {:induction false} JoinConcat(p: seq<string>, q: seq<string>, sep: string)
    requires |p| >= 1 && |q| >= 1
    ensures Join(p + q, sep) == Join(p, sep) + sep + Join(q, sep)
    decreases |p|
  {
    if |p| == 1 {
      assert (p + q)[1..] == q;
    } else {
      assert (p + q)[1..] == p[1..] + q;
      JoinConcat(p[1..], q, sep);
    }
  }

  /** Split undoes Join when no part holds the separator. */
  lemma {:induction false} SplitJoin(parts: seq<string>, sep: char)
    requires |parts| >= 1
    requires forall k :: 0 <= k < |parts| ==> sep !in parts[k]
    ensures Split(Join(parts, [sep]), sep) == parts
    decreases |parts|
  {
    var s := Join(parts, [sep]);
    if |parts| == 1 {
      assert CharIndex(s, sep) == |s|;
    } else {
      var head := parts[0];
      assert s == head + [sep] + Join(parts[1..], [sep]);
      assert CharIndex(s, sep) == |head| by {
        assert s[|head|] == sep;
        forall k | 0 <= k < |head| ensures s[k] != sep {
          assert s[k] == head[k];
        }
      }
      assert s[..|head|] == head;
      assert s[|head| + 1..] == Join(parts[1..], [sep]);
      SplitJoin(parts[1..], sep);
      assert [head] + parts[1..] == parts;
    }
  }

  // ------------------------------------------------------ indexOf, replace

  predicate OccursAt(s: string, pat: string, p: int) {
    0 <= p && p + |pat| <= |s| && s[p..p + |pat|] == pat
  }

  /** The first position at or after `from` where pat occurs in s. */
  function IndexOfFrom(s: string, pat: string, from: nat): (r: Option<nat>)
    ensures r.Some? ==> from <= r.value && OccursAt(s, pat, r.value)
    ensures r.Some? ==> forall q :: from <= q < r.value ==> !OccursAt(s, pat, q)
    ensures r.None? ==> forall q :: from <= q ==> !OccursAt(s, pat, q)
    decreases |s| - from
  {
    if from + |pat| > |s| then None
    else if s[from..from + |pat|] == pat then Some(from)
    else IndexOfFrom(s, pat, from + 1)
  }

  /** String.prototype.indexOf, with None for -1. */
  function IndexOf(s: string, pat: string): (r: Option<nat>)
    ensures r.Some? ==> OccursAt(s, pat, r.value) && forall q :: 0 <= q < r.value ==> !OccursAt(s, pat, q)
    ensures r.None? <==> forall q :: !OccursAt(s, pat, q)
  {
    IndexOfFrom(s, pat, 0)
  }

  /** pat occurs nowhere in s. */
  ghost predicate Absent(s: string, pat: string) {
    forall q :: !OccursAt(s, pat, q)
  }

  /** A pattern that does not end with c cannot appear by appending c. */
  lemma AbsentAppend(s: string, pat: string, c: char)
    requires pat != [] && pat[|pat| - 1] != c
    requires Absent(s, pat)
    ensures Absent(s + [c], pat)
  {
    var t := s + [c];
    forall q ensures !OccursAt(t, pat, q) {
      if 0 <= q && q + |pat| <= |s| {
        assert t[q..q + |pat|] == s[q..q + |pat|];
        assert !OccursAt(s, pat, q);
      } else if 0 <= q && q + |pat| == |t| {
        assert t[q..q + |pat|][|pat| - 1] == c;
      }
    }
  }

  /** What is not at a + q in s is not at q in s[a..b]. */
  lemma AbsentAtSlice(s: string, pat: string, a: nat, b: nat, q: nat)
    requires a <= b <= |s|
    requires !OccursAt(s, pat, a + q)
    ensures !OccursAt(s[a..b], pat, q)
  {
    if q + |pat| <= b - a {
      var w := s[a..b][q..q + |pat|];
      var k :| 0 <= k < |pat| && s[a + q..a + q + |pat|][k] != pat[k];
      assert w[k] == s[a + q + k] == s[a + q..a + q + |pat|][k];
    }
  }

  /** A pattern absent from s is absent from every slice of s. */
  lemma AbsentInSlice(s: string, pat: string, t: string, a: nat)
    requires a + |t| <= |s| && t == s[a..a + |t|]
    requires Absent(s, pat)
    ensures Absent(t, pat)
  {
    forall q | 0 <= q ensures !OccursAt(t, pat, q) {
      AbsentAtSlice(s, pat, a, a + |t|, q);
    }
  }

  /** Trim cannot create an occurrence of a pattern. */
  lemma AbsentInTrim(s: string, pat: string)
    requires Absent(s, pat)
    ensures Absent(Trim(s), pat)
  {
    var off := TrimSlice(s);
    AbsentInSlice(s, pat, Trim(s), off);
  }

  /** GetSubstitution of ECMA-262 for a string pattern (no capture groups):
      the replacement text with $$, $&, $` and $' expanded; every other '$'
      stays literal. */
  function Substitute(rep: string, matched: string, before: string, after: string): (r: string)
    decreases |rep|
  {
    if rep == [] then ""
    else if rep[0] == '$' && |rep| >= 2 && rep[1] == '$' then "$" + Substitute(rep[2..], matched, before, after)
    else if rep[0] == '$' && |rep| >= 2 && rep[1] == '&' then matched + Substitute(rep[2..], matched, before, after)
    else if rep[0] == '$' && |rep| >= 2 && rep[1] == '`' then before + Substitute(rep[2..], matched, before, after)
    else if rep[0] == '$' && |rep| >= 2 && rep[1] == '\'' then after + Substitute(rep[2..], matched, before, after)
    else [rep[0]] + Substitute(rep[1..], matched, before, after)
  }

  /** A replacement without '$' is inserted verbatim. */
  lemma {:induction false} SubstituteLiteral(rep: string, matched: string, before: string, after: string)
    requires '$' !in rep
    ensures Substitute(rep, matched, before, after) == rep
    decreases |rep|
  {
    if rep != [] {
      SubstituteLiteral(rep[1..], matched, before, after);
      assert [rep[0]] + rep[1..] == rep;
    }
  }

  /** String.prototype.replace with a string pattern: only the first
      occurrence is replaced; without one, s is returned unchanged. */
  function ReplaceFirst(s: string, pat: string, rep: string): (r: string)
    ensures IndexOf(s, pat).None? ==> r == s
    ensures IndexOf(s, pat).Some? && '$' !in rep ==>
      var p := IndexOf(s, pat).value; r == s[..p] + rep + s[p + |pat|..]
  {
    match IndexOf(s, pat)
    case None => s
    case Some(p) =>
      assert '$' !in rep ==> Substitute(rep, pat, s[..p], s[p + |pat|..]) == rep by {
        if '$' !in rep { SubstituteLiteral(rep, pat, s[..p], s[p + |pat|..]); }
      }
      s[..p] + Substitute(rep, pat, s[..p], s[p + |pat|..]) + s[p + |pat|..]
  }

  // ------------------------------------------------------------ filter-map

  /** lines.map(f).filter(x => x !== null): the values f yields, in the order
      of the lines they come from. */
  function FilterMap<T>(lines: seq<string>, f: string -> Option<T>): (r: seq<T>)
    ensures |r| <= |lines|
    ensures (forall k :: 0 <= k < |lines| ==> f(lines[k]).None?) ==> r == []
    ensures (forall k :: 0 <= k < |lines| ==> f(lines[k]).Some?) ==> |r| == |lines|
    decreases |lines|
  {
    if lines == [] then []
    else
      var prev := FilterMap(lines[..|lines| - 1], f);
      match f(lines[|lines| - 1])
      case None => prev
      case Some(x) => prev + [x]
  }

  /** Scraping distributes over concatenation: a line is kept or dropped on
      its own, and the order of the kept values is that of the lines. */
  lemma {:induction false} FilterMapAppend<T>(a: seq<string>, b: seq<string>, f: string -> Option<T>)
    ensures FilterMap(a + b, f) == FilterMap(a, f) + FilterMap(b, f)
    decreases |b|
  {
    if b == [] {
      assert a + b == a;
    } else {
      var b' := b[..|b| - 1];
      assert (a + b)[..|a + b| - 1] == a + b';
      assert (a + b)[|a + b| - 1] == b[|b| - 1];
      FilterMapAppend(a, b', f);
    }
  }

  /** One more line of a prefix: its value, if any, comes after the earlier ones. */
  lemma FilterMapStep<T>(lines: seq<string>, i: nat, f: string -> Option<T>)
    requires i < |lines|
    ensures FilterMap(lines[..i + 1], f)
         == FilterMap(lines[..i], f) + (match f(lines[i]) case None => [] case Some(x) => [x])
  {
    assert lines[..i + 1][..i] == lines[..i];
  }

  /** One line: kept as its value when f accepts it, dropped otherwise. */
  lemma FilterMapSingle<T>(line: string, f: string -> Option<T>)
    ensures FilterMap([line], f) == (match f(line) case None => [] case Some(x) => [x])
  {
    assert [line][..0] == [];
  }
}
