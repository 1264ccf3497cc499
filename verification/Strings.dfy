/**
 `strchr` and `strtok_r`. A string is a position in an array of bytes; it ends at the first zero byte from there on.
 Positions stand for pointers, and None for a null pointer.
 */
module Strings {
  import opened Memories
  import opened Wrappers

  // ----- Zero-terminated strings -----

  /** A zero byte follows at or after `p`. */
  ghost predicate Terminated(b: seq<Byte>, p: nat) {
    p < |b| && exists k :: p <= k < |b| && b[k] == 0
  }

  /** Where the string at `p` ends. */
  ghost function End(b: seq<Byte>, p: nat): (z: nat)
    requires Terminated(b, p)
    ensures p <= z < |b| && b[z] == 0
    ensures forall k :: p <= k < z ==> b[k] != 0
    decreases |b| - p
  {
    if b[p] == 0 then p else End(b, p + 1)
  }

  lemma EndUnique(b: seq<Byte>, p: nat, z: nat)
    requires p <= z < |b| && b[z] == 0 && forall k :: p <= k < z ==> b[k] != 0
    ensures Terminated(b, p) && End(b, p) == z
  {
  }

  ghost function Contents(b: seq<Byte>, p: nat): seq<Byte>
    requires Terminated(b, p)
  {
    b[p..End(b, p)]
  }

  /**
   `strchr`: the first `c` in the string at `s`, or null. Asked for the zero byte it gives the end of the string.
   */
  method StrChr(a: array<Byte>, s: Option<nat>, c: Byte) returns (r: Option<nat>)
    requires s.Some? ==> Terminated(a[..], s.value)
    ensures s.None? ==> r.None?
    ensures s.Some? && r.Some? ==>
              s.value <= r.value <= End(a[..], s.value) && a[r.value] == c && c !in a[s.value..r.value]
    ensures s.Some? ==> (r.Some? <==> c == 0 || c in Contents(a[..], s.value))
  {
    if s.None? {
      return None;
    }
    ghost var z := End(a[..], s.value);
    var i := s.value;
    while true
      invariant s.value <= i <= z && c !in a[s.value..i]
      decreases z - i
    {
      if a[i] == c {
        return Some(i);
      } else if a[i] == 0 {
        return None;
      } else {
        i := i + 1;
      }
    }
  }

  // ----- What one call does -----

  /** The first position from `p` on that holds no delimiter, or the end `z`. */
  function SkipDelims(b: seq<Byte>, delims: seq<Byte>, p: nat, z: nat): (t: nat)
    requires p <= z < |b|
    ensures p <= t <= z && (t < z ==> b[t] !in delims)
    ensures forall k :: p <= k < t ==> b[k] in delims
    decreases z - p
  {
    if p == z || b[p] !in delims then p else SkipDelims(b, delims, p + 1, z)
  }

  /** The first position from `p` on that holds a delimiter, or the end `z`. */
  function TokenEnd(b: seq<Byte>, delims: seq<Byte>, p: nat, z: nat): (e: nat)
    requires p <= z < |b|
    ensures p <= e <= z && (e < z ==> b[e] in delims)
    ensures forall k :: p <= k < e ==> b[k] !in delims
    decreases z - p
  {
    if p == z || b[p] in delims then p else TokenEnd(b, delims, p + 1, z)
  }

  /** What a call leaves: the token it returns, the bytes, and the saved position. */
  datatype Outcome = Outcome(token: Option<nat>, b: seq<Byte>, save: nat)

  function Call(b: seq<Byte>, delims: seq<Byte>, p: nat, z: nat): (o: Outcome)
    requires p <= z < |b|
    ensures |o.b| == |b| && p <= o.save <= z
  {
    var t := SkipDelims(b, delims, p, z);
    if t == z then Outcome(None, b, z)
    else
      var e := TokenEnd(b, delims, t, z);
      if e < z then Outcome(Some(t), b[e := 0], e + 1) else Outcome(Some(t), b, z)
  }

  /** The first loop of `strtok_r`. */
  method SkipLoop(a: array<Byte>, d: array<Byte>, delim: nat, start: nat) returns (p: nat)
    requires Terminated(a[..], start) && Terminated(d[..], delim)
    ensures p == SkipDelims(a[..], Contents(d[..], delim), start, End(a[..], start))
  {
    ghost var b, delims, z := a[..], Contents(d[..], delim), End(a[..], start);
    p := start;
    var found := StrChr(d, Some(delim), a[p]);
    while found.Some? && a[p] != 0
      invariant start <= p <= z && SkipDelims(b, delims, start, z) == SkipDelims(b, delims, p, z)
      invariant found.Some? <==> a[p] == 0 || a[p] in delims
      decreases z - p
    {
      p := p + 1;
      found := StrChr(d, Some(delim), a[p]);
    }
  }

  /** The second loop of `strtok_r`. */
  method TokenLoop(a: array<Byte>, d: array<Byte>, delim: nat, start: nat) returns (p: nat)
    requires Terminated(a[..], start) && Terminated(d[..], delim)
    ensures p == TokenEnd(a[..], Contents(d[..], delim), start, End(a[..], start))
  {
    ghost var b, delims, z := a[..], Contents(d[..], delim), End(a[..], start);
    p := start;
    var found := StrChr(d, Some(delim), a[p]);
    while found.None?
      invariant start <= p <= z && TokenEnd(b, delims, start, z) == TokenEnd(b, delims, p, z)
      invariant found.Some? <==> a[p] == 0 || a[p] in delims
      decreases z - p
    {
      p := p + 1;
      found := StrChr(d, Some(delim), a[p]);
    }
  }

  lemma EndFrom(b: seq<Byte>, p: nat, t: nat)
    requires Terminated(b, p) && p <= t <= End(b, p)
    ensures Terminated(b, t) && End(b, t) == End(b, p)
  {
    EndUnique(b, t, End(b, p));
  }

  /** `strtok_r` once it is known where to start. */
  method TokenFrom(a: array<Byte>, from: nat, d: array<Byte>, delim: nat) returns (token: Option<nat>, save: nat)
    requires Terminated(a[..], from) && Terminated(d[..], delim)
    modifies a
    ensures Outcome(token, a[..], save) == old(Call(a[..], Contents(d[..], delim), from, End(a[..], from)))
  {
    var start := SkipLoop(a, d, delim, from);
    EndFrom(a[..], from, start);
    if a[start] == 0 {
      return None, start;
    }
    var p := TokenLoop(a, d, delim, start);
    token, save := Some(start), p;
    if a[p] != 0 {
      a[p] := 0;
      save := p + 1;
    }
  }

  /**
   `strtok_r`, with `*save_ptr` passed in and out. The delimiters may lie in the same memory as the string that is cut:
   they are read before the one write.
   */
  method StrTokR(a: array<Byte>, s: Option<nat>, d: array<Byte>, delim: Option<nat>, saved: Option<nat>)
    returns (token: Option<nat>, save: Option<nat>)
    requires delim.Some? ==> Terminated(d[..], delim.value)
    requires delim.Some? && s.Some? ==> Terminated(a[..], s.value)
    requires delim.Some? && s.None? && saved.Some? ==> Terminated(a[..], saved.value)
    modifies a
    ensures delim.None? || (s.None? && saved.None?) ==> token.None? && save == saved && a[..] == old(a[..])
    ensures delim.Some? && (s.Some? || saved.Some?) ==>
      var p := if s.Some? then s.value else saved.value;
      && save.Some?
      && Outcome(token, a[..], save.value) == old(Call(a[..], Contents(d[..], delim.value), p, End(a[..], p)))
  {
    token, save := None, saved;
    if delim.None? {
      return;
    }
    var from := if s.None? then saved else s;
    if from.None? {
      return;
    }
    var at;
    token, at := TokenFrom(a, from.value, d, delim.value);
    save := Some(at);
  }

  // ----- Repeated calls -----

  /** A maximal run of bytes that are not delimiters, within the string from `s` to `z`. */
  ghost predicate IsRun(b: seq<Byte>, delims: seq<Byte>, s: nat, z: nat, i: nat, j: nat)
    requires s <= z < |b|
  {
    && s <= i < j <= z
    && (forall k :: i <= k < j ==> b[k] !in delims)
    && (i == s || b[i - 1] in delims)
    && (j == z || b[j] in delims)
  }

  datatype Run = Run(start: nat, end: nat)

  /** The runs in the order in which they come. */
  function Runs(b: seq<Byte>, delims: seq<Byte>, p: nat, z: nat): seq<Run>
    requires p <= z < |b|
    decreases z - p
  {
    var t := SkipDelims(b, delims, p, z);
    if t == z then []
    else
      var e := TokenEnd(b, delims, t, z);
      [Run(t, e)] + Runs(b, delims, if e < z then e + 1 else z, z)
  }

  function NextStart(b: seq<Byte>, delims: seq<Byte>, p: nat, z: nat): (n: nat)
    requires p <= z < |b|
    ensures p <= n <= z
  {
    var e := TokenEnd(b, delims, SkipDelims(b, delims, p, z), z);
    if e < z then e + 1 else z
  }

  lemma {:induction false} RunsSound(b: seq<Byte>, delims: seq<Byte>, p: nat, z: nat, k: nat)
    requires p <= z < |b| && k < |Runs(b, delims, p, z)|
    ensures var r := Runs(b, delims, p, z)[k]; IsRun(b, delims, p, z, r.start, r.end)
    decreases k
  {
    if k > 0 {
      RunsSound(b, delims, NextStart(b, delims, p, z), z, k - 1);
    }
  }

  lemma {:induction false} RunsComplete(b: seq<Byte>, delims: seq<Byte>, p: nat, z: nat, i: nat, j: nat)
    requires p <= z < |b| && IsRun(b, delims, p, z, i, j)
    ensures Run(i, j) in Runs(b, delims, p, z)
    decreases z - p
  {
    var t := SkipDelims(b, delims, p, z);
    var e := TokenEnd(b, delims, t, z);
    assert b[i] !in delims;
    if i <= e {
      assert i == t && j == e;
    } else {
      RunsComplete(b, delims, NextStart(b, delims, p, z), z, i, j);
    }
  }

  lemma {:induction false} RunsOrdered(b: seq<Byte>, delims: seq<Byte>, p: nat, z: nat, k: nat, l: nat)
    requires p <= z < |b| && k < l < |Runs(b, delims, p, z)|
    ensures Runs(b, delims, p, z)[k].end < Runs(b, delims, p, z)[l].start
    decreases k
  {
    var n := NextStart(b, delims, p, z);
    if k == 0 {
      RunsSound(b, delims, n, z, l - 1);
    } else {
      RunsOrdered(b, delims, n, z, k - 1, l - 1);
    }
  }

  /** `Runs` lists the maximal runs, all of them, in order and once each. */
  lemma RunsAreAll(b: seq<Byte>, delims: seq<Byte>, p: nat, z: nat)
    requires p <= z < |b|
    ensures forall i: nat, j: nat :: IsRun(b, delims, p, z, i, j) <==> Run(i, j) in Runs(b, delims, p, z)
    ensures var runs := Runs(b, delims, p, z); forall k, l :: 0 <= k < l < |runs| ==> runs[k].end < runs[l].start
  {
    var runs := Runs(b, delims, p, z);
    forall i: nat, j: nat | IsRun(b, delims, p, z, i, j)
      ensures Run(i, j) in runs
    {
      RunsComplete(b, delims, p, z, i, j);
    }
    forall i: nat, j: nat | Run(i, j) in runs
      ensures IsRun(b, delims, p, z, i, j)
    {
      var k: nat :| k < |runs| && runs[k] == Run(i, j);
      RunsSound(b, delims, p, z, k);
    }
    forall k, l | 0 <= k < l < |runs|
      ensures runs[k].end < runs[l].start
    {
      RunsOrdered(b, delims, p, z, k, l);
    }
  }

  /** The outcome of the last of `n` calls in a row, each going on from where the one before it stopped. */
  function Calls(b: seq<Byte>, delims: seq<Byte>, p: nat, z: nat, n: nat): (o: Outcome)
    requires p <= z < |b| && n > 0
    ensures |o.b| == |b| && p <= o.save <= z
    decreases n
  {
    var o := Call(b, delims, p, z);
    if n == 1 then o else Calls(o.b, delims, o.save, z, n - 1)
  }

  /** The runs from `p` on do not depend on the bytes before `p`. */
  lemma {:induction false} RunsSame(b: seq<Byte>, c: seq<Byte>, delims: seq<Byte>, p: nat, z: nat)
    requires p <= z < |b| && |c| == |b| && forall k :: p <= k < |b| ==> c[k] == b[k]
    ensures Runs(c, delims, p, z) == Runs(b, delims, p, z)
    ensures SkipDelims(c, delims, p, z) == SkipDelims(b, delims, p, z)
    decreases z - p
  {
    SkipSame(b, c, delims, p, z);
    var t := SkipDelims(b, delims, p, z);
    EndSame(b, c, delims, t, z);
    var n := NextStart(b, delims, p, z);
    if n > p {
      RunsSame(b, c, delims, n, z);
    }
  }

  lemma {:induction false} SkipSame(b: seq<Byte>, c: seq<Byte>, delims: seq<Byte>, p: nat, z: nat)
    requires p <= z < |b| && |c| == |b| && forall k :: p <= k < |b| ==> c[k] == b[k]
    ensures SkipDelims(c, delims, p, z) == SkipDelims(b, delims, p, z)
    decreases z - p
  {
    if p < z {
      SkipSame(b, c, delims, p + 1, z);
    }
  }

  lemma {:induction false} EndSame(b: seq<Byte>, c: seq<Byte>, delims: seq<Byte>, p: nat, z: nat)
    requires p <= z < |b| && |c| == |b| && forall k :: p <= k < |b| ==> c[k] == b[k]
    ensures TokenEnd(c, delims, p, z) == TokenEnd(b, delims, p, z)
    decreases z - p
  {
    if p < z {
      EndSame(b, c, delims, p + 1, z);
    }
  }

  /**
   Completeness: the calls return the maximal delimiter-free runs of the string one after the other, and then null for
   ever.
   */
  lemma {:induction false} CallsReturnRuns(b: seq<Byte>, delims: seq<Byte>, p: nat, z: nat, n: nat)
    requires p <= z < |b| && n > 0
    ensures var runs := Runs(b, delims, p, z);
      Calls(b, delims, p, z, n).token == if n <= |runs| then Some(runs[n - 1].start) else None
    decreases n
  {
    if n > 1 {
      var o := Call(b, delims, p, z);
      CallsReturnRuns(o.b, delims, o.save, z, n - 1);
      RunsSame(b, o.b, delims, o.save, z);
    }
  }

  /** One of the first `n` runs ends at `x`. */
  ghost predicate EndsAt(runs: seq<Run>, n: nat, x: nat) {
    exists k :: 0 <= k < n && k < |runs| && runs[k].end == x
  }

  /** `c` is `b` with the delimiters that end the first `n` runs overwritten by zero, and nothing else. */
  ghost predicate CutAt(b: seq<Byte>, c: seq<Byte>, runs: seq<Run>, n: nat, z: nat) {
    |c| == |b| && forall x: nat {:trigger c[x]} :: x < |b| ==> c[x] == if x < z && EndsAt(runs, n, x) then 0 else b[x]
  }

  lemma EndsAtCons(run: Run, runs: seq<Run>, n: nat, x: nat)
    requires n > 0
    ensures EndsAt([run] + runs, n, x) <==> run.end == x || EndsAt(runs, n - 1, x)
  {
    var all := [run] + runs;
    if EndsAt(runs, n - 1, x) {
      var k :| 0 <= k < n - 1 && k < |runs| && runs[k].end == x;
      assert all[k + 1].end == x;
    }
    if run.end == x {
      assert all[0].end == x;
    }
    if EndsAt(all, n, x) && run.end != x {
      var k :| 0 <= k < n && k < |all| && all[k].end == x;
      assert runs[k - 1].end == x;
    }
  }

  /** The calls overwrite exactly the delimiter that ends each token they return, and nothing else. */
  lemma {:induction false} CallsCut(b: seq<Byte>, delims: seq<Byte>, p: nat, z: nat, n: nat)
    requires p <= z < |b| && n > 0
    ensures CutAt(b, Calls(b, delims, p, z, n).b, Runs(b, delims, p, z), n, z)
    decreases n
  {
    var o := Call(b, delims, p, z);
    if n > 1 {
      CallsCut(o.b, delims, o.save, z, n - 1);
      RunsSame(b, o.b, delims, o.save, z);
    }
    if o.token.Some? {
      var run := Run(o.token.value, TokenEnd(b, delims, o.token.value, z));
      var rest := Runs(b, delims, o.save, z);
      forall x: nat | x < |b|
        ensures EndsAt([run] + rest, n, x) <==> run.end == x || EndsAt(rest, n - 1, x)
      {
        EndsAtCons(run, rest, n, x);
      }
    }
  }

  /**
   Each token returned is, from its call on and whatever calls follow, a zero-terminated string with exactly the bytes
   of its run.
   */
  lemma TokensReadBack(b: seq<Byte>, delims: seq<Byte>, p: nat, n: nat, k: nat)
    requires Terminated(b, p) && k < n && k < |Runs(b, delims, p, End(b, p))|
    ensures var c, run := Calls(b, delims, p, End(b, p), n).b, Runs(b, delims, p, End(b, p))[k];
      && Calls(b, delims, p, End(b, p), k + 1).token == Some(run.start)
      && Terminated(c, run.start) && End(c, run.start) == run.end && Contents(c, run.start) == b[run.start..run.end]
  {
    var z := End(b, p);
    var run, c := Runs(b, delims, p, z)[k], Calls(b, delims, p, z, n).b;
    CallsReturnRuns(b, delims, p, z, k + 1);
    RunBytes(b, delims, p, z, n, k);
    EndUnique(c, run.start, run.end);
    assert Contents(c, run.start) == b[run.start..run.end];
  }

  /** After the calls a run still holds its bytes, and a zero byte follows. */
  lemma RunBytes(b: seq<Byte>, delims: seq<Byte>, p: nat, z: nat, n: nat, k: nat)
    requires p <= z < |b| && b[z] == 0 && k < n && k < |Runs(b, delims, p, z)|
    ensures var c, run := Calls(b, delims, p, z, n).b, Runs(b, delims, p, z)[k];
      && p <= run.start < run.end <= z && c[run.end] == 0
      && forall x :: run.start <= x < run.end ==> c[x] == b[x]
  {
    var runs := Runs(b, delims, p, z);
    var run := runs[k];
    CallsCut(b, delims, p, z, n);
    RunsSound(b, delims, p, z, k);
    forall x | run.start <= x < run.end
      ensures !EndsAt(runs, n, x)
    {
      NoEndInside(b, delims, p, z, k, n, x);
    }
    assert EndsAt(runs, n, run.end);
  }

  lemma NoEndInside(b: seq<Byte>, delims: seq<Byte>, p: nat, z: nat, k: nat, n: nat, x: nat)
    requires p <= z < |b| && k < |Runs(b, delims, p, z)|
    requires Runs(b, delims, p, z)[k].start <= x < Runs(b, delims, p, z)[k].end
    ensures !EndsAt(Runs(b, delims, p, z), n, x)
  {
    var runs := Runs(b, delims, p, z);
    forall l | 0 <= l < n && l < |runs|
      ensures runs[l].end != x
    {
      if l < k {
        RunsOrdered(b, delims, p, z, l, k);
      } else if k < l {
        RunsOrdered(b, delims, p, z, k, l);
        RunsSound(b, delims, p, z, l);
      }
    }
  }

  lemma {:induction false} CallsStayInside(b: seq<Byte>, delims: seq<Byte>, p: nat, z: nat, n: nat)
    requires p <= z < |b| && n > 0 && b[z] == 0 && forall k :: p <= k < z ==> b[k] != 0
    ensures var o := Calls(b, delims, p, z, n);
      && o.b[z] == 0 && (forall k :: o.save <= k < z ==> o.b[k] != 0)
      && forall x :: 0 <= x < |b| && !(p <= x < z) ==> o.b[x] == b[x]
    decreases n
  {
    if n > 1 {
      var o := Call(b, delims, p, z);
      CallsStayInside(o.b, delims, o.save, z, n - 1);
    }
  }

  /** The saved position never leaves the string and its terminator, and no call writes outside it. */
  lemma SaveStaysInside(b: seq<Byte>, delims: seq<Byte>, p: nat, n: nat)
    requires Terminated(b, p) && n > 0
    ensures var o := Calls(b, delims, p, End(b, p), n);
      && p <= o.save <= End(b, p) && |o.b| == |b|
      && Terminated(o.b, o.save) && End(o.b, o.save) == End(b, p)
      && forall x :: 0 <= x < |b| && !(p <= x < End(b, p)) ==> o.b[x] == b[x]
  {
    var z := End(b, p);
    CallsStayInside(b, delims, p, z, n);
    EndUnique(Calls(b, delims, p, z, n).b, Calls(b, delims, p, z, n).save, z);
  }
}
