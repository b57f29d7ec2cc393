/** `utility::split` (stdsc/stdsc_utility.cpp): the maximal runs of characters that are not
    delimiters, in order. */
module Splitting {
  import opened Bytes

  /** `find_first_not_of`: the first position from `from` on that holds no delimiter, or the
      length of the string where the library function returns `npos`. */
  function FirstNotOf(s: string, delims: string, from: nat): (i: nat)
    requires from <= |s|
    ensures from <= i <= |s|
    ensures forall k :: from <= k < i ==> s[k] in delims
    ensures i < |s| ==> s[i] !in delims
    decreases |s| - from
  {
    if from == |s| || s[from] !in delims then from else FirstNotOf(s, delims, from + 1)
  }

  /** `find_first_of`, likewise. */
  function FirstOf(s: string, delims: string, from: nat): (i: nat)
    requires from <= |s|
    ensures from <= i <= |s|
    ensures forall k :: from <= k < i ==> s[k] !in delims
    ensures i < |s| ==> s[i] in delims
    decreases |s| - from
  {
    if from == |s| || s[from] in delims then from else FirstOf(s, delims, from + 1)
  }

  datatype Span = Span(start: nat, end: nat)

  /** A run of non-delimiters that cannot be extended on either side. */
  ghost predicate MaximalRun(s: string, delims: string, r: Span) {
    && r.start < r.end <= |s|
    && (forall k :: r.start <= k < r.end ==> s[k] !in delims)
    && (r.start == 0 || s[r.start - 1] in delims)
    && (r.end == |s| || s[r.end] in delims)
  }

  /** The runs from a position on. */
  function Runs(s: string, delims: string, from: nat): seq<Span>
    requires from <= |s|
    decreases |s| - from
  {
    var i := FirstNotOf(s, delims, from);
    if i == |s| then []
    else
      var j := FirstOf(s, delims, i);
      [Span(i, j)] + Runs(s, delims, j)
  }

  function Slices(s: string, runs: seq<Span>): seq<string> {
    if runs == [] then []
    else
      (if runs[0].start <= runs[0].end <= |s| then [s[runs[0].start..runs[0].end]] else []) + Slices(s, runs[1..])
  }

  /** The specification of `split`. */
  function Tokens(s: string, delims: string): seq<string> {
    Slices(s, Runs(s, delims, 0))
  }

  method Split(str: string, delims: string) returns (vec: seq<string>)
    ensures vec == Tokens(str, delims)
  {
    var index := FirstNotOf(str, delims, 0);
    var strSize := |str|;
    vec := [];
    assert Runs(str, delims, 0) == Runs(str, delims, index) by { SkipDelimiters(str, delims, 0); }
    while index < strSize
      invariant index <= strSize
      invariant index < strSize ==> str[index] !in delims
      invariant vec + Slices(str, Runs(str, delims, index)) == Tokens(str, delims)
      decreases strSize - index
    {
      var nextIndex := FirstOf(str, delims, index);
      vec := vec + [str[index..nextIndex]];
      SkipDelimiters(str, delims, nextIndex);
      if nextIndex + 1 <= strSize {
        index := FirstNotOf(str, delims, nextIndex + 1);
      } else {
        index := strSize;
      }
    }
  }

  /** Delimiters before the first run do not matter. */
  lemma SkipDelimiters(s: string, delims: string, from: nat)
    requires from <= |s|
    ensures var i := FirstNotOf(s, delims, from); FirstNotOf(s, delims, i) == i && Runs(s, delims, from) == Runs(s, delims, i)
    ensures from < |s| && s[from] in delims ==> FirstNotOf(s, delims, from) == FirstNotOf(s, delims, from + 1)
  {
  }

  // ---- exactly the maximal runs ------------------------------------------------------

  /** Two runs that cannot be extended and meet are the same. */
  lemma SameRun(s: string, delims: string, r: Span, i: nat, j: nat)
    requires MaximalRun(s, delims, r) && i < j <= |s| && i <= r.start < j
    requires forall k :: i <= k < j ==> s[k] !in delims
    requires j == |s| || s[j] in delims
    ensures r == Span(i, j)
  {
  }

  /** The first run from a position on is maximal, and every other one starts behind it. */
  lemma FirstRun(s: string, delims: string, from: nat, r: Span)
    requires from <= |s| && FirstNotOf(s, delims, from) < |s|
    requires from == 0 || from == |s| || s[from] in delims || s[from - 1] in delims
    ensures var i := FirstNotOf(s, delims, from);
      var j := FirstOf(s, delims, i);
      && from <= i < j <= |s| && (j == |s| || s[j] in delims)
      && MaximalRun(s, delims, Span(i, j))
      && (MaximalRun(s, delims, r) && r.start >= from ==> r == Span(i, j) || r.start >= j)
  {
    var i := FirstNotOf(s, delims, from);
    var j := FirstOf(s, delims, i);
    assert i > from ==> s[i - 1] in delims;
    if MaximalRun(s, delims, r) && from <= r.start < j {
      assert s[r.start] !in delims;
      SameRun(s, delims, r, i, j);
    }
  }

  lemma NoRun(s: string, delims: string, from: nat, r: Span)
    requires from <= |s| && FirstNotOf(s, delims, from) == |s| && MaximalRun(s, delims, r)
    ensures r.start < from
  {
    assert s[r.start] !in delims;
  }

  /** `split` finds a run if and only if it is a maximal run of the string. */
  lemma {:induction false} RunsAreMaximal(s: string, delims: string, from: nat, r: Span)
    requires from <= |s|
    requires from == 0 || from == |s| || s[from] in delims || s[from - 1] in delims
    ensures r in Runs(s, delims, from) <==> MaximalRun(s, delims, r) && r.start >= from
    decreases |s| - from
  {
    var i := FirstNotOf(s, delims, from);
    if i < |s| {
      var j := FirstOf(s, delims, i);
      FirstRun(s, delims, from, r);
      RunsAreMaximal(s, delims, j, r);
      InFront(Span(i, j), Runs(s, delims, j), r);
    } else if MaximalRun(s, delims, r) {
      NoRun(s, delims, from, r);
    }
  }

  lemma InFront(x: Span, rest: seq<Span>, r: Span)
    ensures r in [x] + rest <==> r == x || r in rest
  {
  }

  ghost predicate Ordered(rs: seq<Span>, from: nat, end: nat) {
    && (forall k :: 0 <= k < |rs| ==> from <= rs[k].start < rs[k].end <= end)
    && (forall k, l :: 0 <= k < l < |rs| ==> rs[k].end <= rs[l].start)
  }

  lemma OrderedPrepend(r: Span, rest: seq<Span>, from: nat, end: nat)
    requires from <= r.start < r.end <= end && Ordered(rest, r.end, end)
    ensures Ordered([r] + rest, from, end)
  {
    var rs := [r] + rest;
    assert forall k :: 0 < k < |rs| ==> rs[k] == rest[k - 1];
  }

  /** The runs come in order and do not overlap. */
  lemma {:induction false} RunsInOrder(s: string, delims: string, from: nat)
    requires from <= |s|
    ensures Ordered(Runs(s, delims, from), from, |s|)
    decreases |s| - from
  {
    var i := FirstNotOf(s, delims, from);
    if i < |s| {
      var j := FirstOf(s, delims, i);
      RunsInOrder(s, delims, j);
      OrderedPrepend(Span(i, j), Runs(s, delims, j), from, |s|);
    }
  }

  // ---- tokens ------------------------------------------------------------------------

  ghost predicate IsToken(t: string, delims: string) {
    t != [] && forall k :: 0 <= k < |t| ==> t[k] !in delims
  }

  function Without(s: string, delims: string): string {
    if s == [] then [] else (if s[0] in delims then [] else [s[0]]) + Without(s[1..], delims)
  }

  lemma {:induction false} WithoutDelimiters(s: string, delims: string, i: nat, j: nat)
    requires i <= j <= |s| && forall k :: i <= k < j ==> s[k] in delims
    ensures Without(s[i..], delims) == Without(s[j..], delims)
    decreases j - i
  {
    if i < j {
      assert s[i..][1..] == s[i + 1..];
      WithoutDelimiters(s, delims, i + 1, j);
    }
  }

  lemma {:induction false} WithoutToken(s: string, delims: string, i: nat, j: nat)
    requires i <= j <= |s| && forall k :: i <= k < j ==> s[k] !in delims
    ensures Without(s[i..], delims) == s[i..j] + Without(s[j..], delims)
    decreases j - i
  {
    if i < j {
      assert s[i..][1..] == s[i + 1..];
      WithoutToken(s, delims, i + 1, j);
      assert s[i..j] == [s[i]] + s[i + 1..j];
    }
  }

  lemma SlicesFirst(s: string, r: Span, rest: seq<Span>)
    requires r.start <= r.end <= |s|
    ensures Slices(s, [r] + rest) == [s[r.start..r.end]] + Slices(s, rest)
  {
    assert ([r] + rest)[1..] == rest;
  }

  /** The string from a position on, up to and including its first run. */
  lemma FirstToken(s: string, delims: string, from: nat)
    requires from <= |s| && FirstNotOf(s, delims, from) < |s|
    ensures var i := FirstNotOf(s, delims, from);
      var j := FirstOf(s, delims, i);
      && i < j
      && Without(s[from..], delims) == s[i..j] + Without(s[j..], delims)
      && Slices(s, Runs(s, delims, from)) == [s[i..j]] + Slices(s, Runs(s, delims, j))
  {
    var i := FirstNotOf(s, delims, from);
    var j := FirstOf(s, delims, i);
    WithoutDelimiters(s, delims, from, i);
    WithoutToken(s, delims, i, j);
    SlicesFirst(s, Span(i, j), Runs(s, delims, j));
  }

  ghost predicate AreTokens(ts: seq<string>, delims: string) {
    forall k :: 0 <= k < |ts| ==> IsToken(ts[k], delims)
  }

  lemma TokenInFront(t: string, ts: seq<string>, delims: string)
    requires IsToken(t, delims) && AreTokens(ts, delims)
    ensures AreTokens([t] + ts, delims) && Concat([t] + ts) == t + Concat(ts)
  {
    assert ([t] + ts)[1..] == ts;
  }

  /** Tokens are non-empty and free of delimiters, and put together they are the string with
      its delimiters removed: nothing else is lost or reordered. */
  lemma {:induction false} TokensFrom(s: string, delims: string, from: nat)
    requires from <= |s|
    ensures var ts := Slices(s, Runs(s, delims, from));
      AreTokens(ts, delims) && Concat(ts) == Without(s[from..], delims)
    decreases |s| - from
  {
    var i := FirstNotOf(s, delims, from);
    if i < |s| {
      var j := FirstOf(s, delims, i);
      FirstToken(s, delims, from);
      TokensFrom(s, delims, j);
      assert IsToken(s[i..j], delims);
      TokenInFront(s[i..j], Slices(s, Runs(s, delims, j)), delims);
    } else {
      WithoutDelimiters(s, delims, from, i);
    }
  }

  /** Without delimiters the whole string is the only token. */
  lemma NoDelimiters(s: string)
    ensures Tokens(s, "") == if s == [] then [] else [s]
  {
    if s != [] {
      var j := FirstOf(s, "", 0);
      assert j == |s| && Runs(s, "", j) == [];
      var rs := Runs(s, "", 0);
      assert rs == [Span(0, |s|)];
      assert rs[1..] == [] && s[0..|s|] == s;
      assert Slices(s, rs) == [s[0..|s|]] + Slices(s, rs[1..]);
    }
  }

  // ---- splitting what was joined -----------------------------------------------------

  /** Tokens with separators behind each; only the last separator may be empty. */
  function Join(ts: seq<string>, seps: seq<string>): string
    requires |ts| == |seps|
  {
    if ts == [] then [] else ts[0] + seps[0] + Join(ts[1..], seps[1..])
  }

  ghost predicate Separators(seps: seq<string>, delims: string) {
    forall k :: 0 <= k < |seps| ==>
      && (k < |seps| - 1 ==> seps[k] != [])
      && forall l :: 0 <= l < |seps[k]| ==> seps[k][l] in delims
  }

  lemma FirstOfAt(s: string, delims: string, from: nat, j: nat)
    requires from <= j <= |s|
    requires forall k :: from <= k < j ==> s[k] !in delims
    requires j == |s| || s[j] in delims
    ensures FirstOf(s, delims, from) == j
  {
  }

  lemma {:induction false} SkipTo(s: string, delims: string, from: nat, to: nat)
    requires from <= to <= |s| && forall k :: from <= k < to ==> s[k] in delims
    ensures FirstNotOf(s, delims, from) == FirstNotOf(s, delims, to)
    decreases |s| - from
  {
    if from < to {
      SkipTo(s, delims, from + 1, to);
    }
  }

  lemma RunsSkipTo(s: string, delims: string, from: nat, to: nat)
    requires from <= to <= |s| && forall k :: from <= k < to ==> s[k] in delims
    ensures Runs(s, delims, from) == Runs(s, delims, to)
  {
    SkipTo(s, delims, from, to);
  }

  /** A token behind a head, with a separator between it and what follows. */
  lemma FirstJoined(head: string, t: string, sep: string, tail: string, delims: string)
    requires IsToken(t, delims) && (forall k :: 0 <= k < |sep| ==> sep[k] in delims)
    requires sep == [] ==> tail == []
    ensures var s := head + t + sep + tail;
      && Runs(s, delims, |head|) == [Span(|head|, |head + t|)] + Runs(s, delims, |head + t + sep|)
      && s[|head|..|head + t|] == t
  {
    var s := head + t + sep + tail;
    var i, j, n := |head|, |head + t|, |head + t + sep|;
    assert forall k :: i <= k < j ==> s[k] == t[k - i];
    assert s[i] == t[0];
    assert forall k :: j <= k < n ==> s[k] == sep[k - j];
    assert sep != [] ==> s[j] == sep[0];
    FirstOfAt(s, delims, i, j);
    RunsSkipTo(s, delims, j, n);
  }

  lemma SeparatorsTail(seps: seq<string>, delims: string)
    requires seps != [] && Separators(seps, delims)
    ensures Separators(seps[1..], delims)
  {
    forall k | 0 <= k < |seps[1..]|
      ensures (k < |seps[1..]| - 1 ==> seps[1..][k] != []) && forall l :: 0 <= l < |seps[1..][k]| ==> seps[1..][k][l] in delims
    {
      assert seps[1..][k] == seps[k + 1];
    }
  }

  /** Splitting a string that was joined from tokens with separators returns the tokens;
      `head` is what stands in front. */
  lemma {:induction false} SplitJoinedFrom(head: string, ts: seq<string>, seps: seq<string>, delims: string)
    requires |ts| == |seps| && Separators(seps, delims)
    requires AreTokens(ts, delims)
    ensures Slices(head + Join(ts, seps), Runs(head + Join(ts, seps), delims, |head|)) == ts
    decreases |ts|
  {
    var s := head + Join(ts, seps);
    if ts != [] {
      var t, sep, tail := ts[0], seps[0], Join(ts[1..], seps[1..]);
      assert s == head + t + sep + tail;
      FirstJoined(head, t, sep, tail, delims);
      SeparatorsTail(seps, delims);
      SplitJoinedFrom(head + t + sep, ts[1..], seps[1..], delims);
      SlicesFirst(s, Span(|head|, |head + t|), Runs(s, delims, |head + t + sep|));
    }
  }

  lemma SplitJoined(lead: string, ts: seq<string>, seps: seq<string>, delims: string)
    requires |ts| == |seps| && Separators(seps, delims)
    requires AreTokens(ts, delims)
    requires forall k :: 0 <= k < |lead| ==> lead[k] in delims
    ensures Tokens(lead + Join(ts, seps), delims) == ts
  {
    SplitJoinedFrom(lead, ts, seps, delims);
    RunsSkipTo(lead + Join(ts, seps), delims, 0, |lead|);
  }

  lemma {:induction false} SlicesAt(s: string, rs: seq<Span>)
    requires forall k :: 0 <= k < |rs| ==> rs[k].start < rs[k].end <= |s|
    ensures |Slices(s, rs)| == |rs|
    ensures forall k :: 0 <= k < |rs| ==> Slices(s, rs)[k] == s[rs[k].start..rs[k].end]
  {
    if rs != [] {
      SlicesAt(s, rs[1..]);
      assert Slices(s, rs) == [s[rs[0].start..rs[0].end]] + Slices(s, rs[1..]);
      forall k | 0 < k < |rs| ensures Slices(s, rs)[k] == s[rs[k].start..rs[k].end] {
        assert rs[k] == rs[1..][k - 1];
      }
    }
  }

  /** Everything `split` promises, for every string and every set of delimiters: its tokens are
      the maximal runs of non-delimiters, all of them, in order, and together they are the
      string without its delimiters. */
  lemma SplitTheorem(s: string, delims: string)
    ensures var ts, rs := Tokens(s, delims), Runs(s, delims, 0);
      && |ts| == |rs|
      && (forall k :: 0 <= k < |rs| ==> rs[k].start < rs[k].end <= |s| && ts[k] == s[rs[k].start..rs[k].end])
      && (forall k, l :: 0 <= k < l < |rs| ==> rs[k].end <= rs[l].start)
      && AreTokens(ts, delims) && Concat(ts) == Without(s, delims)
    ensures forall r: Span :: r in Runs(s, delims, 0) <==> MaximalRun(s, delims, r)
  {
    TokensFrom(s, delims, 0);
    RunsInOrder(s, delims, 0);
    SlicesAt(s, Runs(s, delims, 0));
    assert s[0..] == s;
    forall r: Span ensures r in Runs(s, delims, 0) <==> MaximalRun(s, delims, r) {
      RunsAreMaximal(s, delims, 0, r);
    }
  }
}
