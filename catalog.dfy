/** The version table and the choice of what to run and build (main,
    perf/runner/src/index.ts:27-29). */
module Catalog {
  import opened JsText

  /** One row of the static version table. */
  datatype Version = Version(implementation: string, id: string, transportStacks: seq<string>)

  predicate Selected(filter: seq<string>, v: Version) {
    "all" in filter || v.implementation in filter
  }

  /** versions.filter(...): the rows whose implementation the filter names,
      or every row when it holds "all", in table order. */
  function VersionsToRun(versions: seq<Version>, filter: seq<string>): (r: seq<Version>)
    ensures |r| <= |versions|
    ensures "all" in filter ==> r == versions
    ensures forall v :: v in r <==> v in versions && Selected(filter, v)
    decreases |versions|
  {
    if versions == [] then []
    else
      var last := versions[|versions| - 1];
      var prev := VersionsToRun(versions[..|versions| - 1], filter);
      assert versions == versions[..|versions| - 1] + [last];
      if Selected(filter, last) then prev + [last] else prev
  }

  /** The filter keeps the table's order: filtering a table made of two
      parts filters each part and keeps them in that order. */
  lemma {:induction false} VersionsToRunAppend(a: seq<Version>, b: seq<Version>, filter: seq<string>)
    ensures VersionsToRun(a + b, filter) == VersionsToRun(a, filter) + VersionsToRun(b, filter)
    decreases |b|
  {
    if b == [] {
      assert a + b == a;
    } else {
      assert (a + b)[..|a + b| - 1] == a + b[..|b| - 1];
      VersionsToRunAppend(a, b[..|b| - 1], filter);
    }
  }

  /** The implementation names of the selected versions, in order. */
  function Implementations(versions: seq<Version>): (r: seq<string>)
    ensures |r| == |versions|
    ensures forall k :: 0 <= k < |r| ==> r[k] == versions[k].implementation
  {
    seq(|versions|, k requires 0 <= k < |versions| => versions[k].implementation)
  }

  predicate NoDuplicates(s: seq<string>) {
    forall i, j :: 0 <= i < j < |s| ==> s[i] != s[j]
  }

  /** Index of the first occurrence of x in s. */
  function FirstIndex(s: seq<string>, x: string): (i: nat)
    requires x in s
    ensures i < |s| && s[i] == x && x !in s[..i]
  {
    if s[0] == x then 0
    else
      var i := 1 + FirstIndex(s[1..], x);
      assert s[1..][..i - 1] == s[1..i];
      i
  }

  /** Array.from(new Set(s)): every element once, in order of first occurrence. */
  function FirstOccurrences(s: seq<string>): (r: seq<string>)
    ensures NoDuplicates(r)
    ensures forall x :: x in r <==> x in s
    decreases |s|
  {
    if s == [] then []
    else
      var init := s[..|s| - 1];
      var prev := FirstOccurrences(init);
      assert forall x :: x in s <==> x in init || x == s[|s| - 1] by {
        assert s == init + [s[|s| - 1]];
      }
      if s[|s| - 1] in init then prev else prev + [s[|s| - 1]]
  }

  lemma FirstIndexOfPrefix(s: seq<string>, n: nat, x: string)
    requires n <= |s| && x in s[..n]
    ensures FirstIndex(s, x) == FirstIndex(s[..n], x)
  {
    var i, j := FirstIndex(s, x), FirstIndex(s[..n], x);
    assert s[..n][..j] == s[..j];
    forall t | 0 <= t < j ensures s[t] != x {
      assert s[..j][t] == s[t];
    }
    forall t | 0 <= t < i ensures s[t] != x {
      assert s[..i][t] == s[t];
    }
  }

  /** An element seen for the first time at the end is first found there. */
  lemma FirstIndexOfNew(s: seq<string>)
    requires s != [] && s[|s| - 1] !in s[..|s| - 1]
    ensures FirstIndex(s, s[|s| - 1]) == |s| - 1
  {
    forall t | 0 <= t < |s| - 1 ensures s[t] != s[|s| - 1] {
      assert s[t] == s[..|s| - 1][t];
    }
  }

  /** r lists elements of s in the order of their first occurrences in s. */
  predicate FirstOrdered(s: seq<string>, r: seq<string>) {
    && (forall k :: 0 <= k < |r| ==> r[k] in s)
    && (forall i, j :: 0 <= i < j < |r| ==> FirstIndex(s, r[i]) < FirstIndex(s, r[j]))
  }

  /** Extending s leaves the first occurrences of what is already in it. */
  lemma FirstOrderedExtend(s: seq<string>, n: nat, r: seq<string>)
    requires n <= |s| && FirstOrdered(s[..n], r)
    ensures FirstOrdered(s, r)
  {
    forall k | 0 <= k < |r| ensures r[k] in s && FirstIndex(s, r[k]) == FirstIndex(s[..n], r[k]) {
      FirstIndexOfPrefix(s, n, r[k]);
    }
  }

  lemma FirstOrderedSnoc(s: seq<string>, r: seq<string>, x: string)
    requires FirstOrdered(s, r) && x in s
    requires forall k :: 0 <= k < |r| ==> FirstIndex(s, r[k]) < FirstIndex(s, x)
    ensures FirstOrdered(s, r + [x])
  {
    var r' := r + [x];
    forall k | 0 <= k < |r| ensures r'[k] == r[k] {
    }
  }

  /** The order of a Set's iteration: insertion order, that is, the order of
      the first occurrences in s. */
  lemma {:induction false} FirstOccurrencesOrdered(s: seq<string>)
    ensures FirstOrdered(s, FirstOccurrences(s))
    decreases |s|
  {
    if s != [] {
      var init := s[..|s| - 1];
      var x := s[|s| - 1];
      var prev := FirstOccurrences(init);
      FirstOccurrencesOrdered(init);
      FirstOrderedExtend(s, |s| - 1, prev);
      if x !in init {
        FirstIndexOfNew(s);
        forall k | 0 <= k < |prev| ensures FirstIndex(s, prev[k]) < |s| - 1 {
          FirstIndexOfPrefix(s, |s| - 1, prev[k]);
        }
        FirstOrderedSnoc(s, prev, x);
      }
    }
  }

  /** implsToBuild: the distinct implementations of the versions to run,
      joined by single spaces. */
  function ImplsToBuild(versionsToRun: seq<Version>): (r: string)
  {
    Join(FirstOccurrences(Implementations(versionsToRun)), " ")
  }

  /** The build list names each selected implementation once, in order of
      first appearance among the versions to run, and nothing else. */
  lemma ImplsToBuildSpec(versionsToRun: seq<Version>)
    ensures var names := FirstOccurrences(Implementations(versionsToRun));
      && ImplsToBuild(versionsToRun) == Join(names, " ")
      && NoDuplicates(names)
      && (forall v :: v in versionsToRun ==> v.implementation in names)
      && (forall x :: x in names ==> exists v :: v in versionsToRun && v.implementation == x)
      && (forall i, j :: 0 <= i < j < |names| ==>
            FirstIndex(Implementations(versionsToRun), names[i]) < FirstIndex(Implementations(versionsToRun), names[j]))
  {
    var impls := Implementations(versionsToRun);
    FirstOccurrencesOrdered(impls);
    forall v | v in versionsToRun ensures v.implementation in impls {
      var k :| 0 <= k < |versionsToRun| && versionsToRun[k] == v;
      assert impls[k] == v.implementation;
    }
    forall x | x in impls ensures exists v :: v in versionsToRun && v.implementation == x {
      var k :| 0 <= k < |impls| && impls[k] == x;
      assert versionsToRun[k] in versionsToRun;
    }
  }
}
