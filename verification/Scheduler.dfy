/** The process table, round-robin scheduling, and the life of a process, for any number of slots. */
module Scheduler {
  import opened Arithmetic

  datatype Status = Unused | Runnable | Exited

  datatype Process = Process(pid: nat, status: Status, sp: nat, pageTable: nat)

  type Procs = seq<Process>

  // ----- Choosing the next process -----

  predicate Eligible(p: Process) {
    p.status == Runnable && p.pid > 0
  }

  /** The slot that round `i` of the search looks at. */
  function SlotAt(n: nat, pid: nat, i: nat): nat
    requires n > 0
  {
    (pid + i) % n
  }

  /** The first round from `i` on whose slot is eligible, or the number of slots. */
  function SearchFrom(ps: Procs, pid: nat, i: nat): (r: nat)
    requires |ps| > 0 && i <= |ps|
    ensures i <= r <= |ps|
    ensures r < |ps| ==> Eligible(ps[SlotAt(|ps|, pid, r)])
    ensures forall j :: i <= j < r ==> !Eligible(ps[SlotAt(|ps|, pid, j)])
    decreases |ps| - i
  {
    if i == |ps| || Eligible(ps[SlotAt(|ps|, pid, i)]) then i else SearchFrom(ps, pid, i + 1)
  }

  /** The slot `yield` picks: the first eligible one after the current process, else the idle process in slot 0. */
  function NextSlot(ps: Procs, current: nat): (next: nat)
    requires current < |ps|
    ensures next < |ps|
  {
    var r := SearchFrom(ps, ps[current].pid, 0);
    if r == |ps| then 0 else SlotAt(|ps|, ps[current].pid, r)
  }

  /** The first unused slot, or the number of slots. */
  function FreeSlot(ps: Procs, i: nat := 0): (r: nat)
    requires i <= |ps|
    ensures i <= r <= |ps|
    ensures r < |ps| ==> ps[r].status == Unused
    ensures forall j :: i <= j < r ==> ps[j].status != Unused
    decreases |ps| - i
  {
    if i == |ps| || ps[i].status == Unused then i else FreeSlot(ps, i + 1)
  }

  // ----- Runs -----

  datatype State = State(procs: Procs, current: nat)

  /** `Create` puts a process with the given stack pointer and page table into the first unused slot. */
  datatype Event = Create(sp: nat, pageTable: nat) | Yield | Exit

  predicate Enabled(s: State, e: Event) {
    match e
    case Create(_, _) => FreeSlot(s.procs) < |s.procs|
    case Yield => s.current < |s.procs|
    case Exit => 0 < s.current < |s.procs|
  }

  function Step(s: State, e: Event): State
    requires Enabled(s, e)
  {
    match e
    case Create(sp, pageTable) =>
      var i := FreeSlot(s.procs);
      s.(procs := s.procs[i := Process(i + 1, Runnable, sp, pageTable)])
    case Yield => s.(current := NextSlot(s.procs, s.current))
    case Exit =>
      var ps := s.procs[s.current := s.procs[s.current].(status := Exited)];
      State(ps, NextSlot(ps, s.current))
  }

  ghost predicate Legal(s: State, es: seq<Event>)
    decreases es
  {
    es == [] || (Enabled(s, es[0]) && Legal(Step(s, es[0]), es[1..]))
  }

  function Exec(s: State, es: seq<Event>): State
    requires Legal(s, es)
    decreases es
  {
    if es == [] then s else Exec(Step(s, es[0]), es[1..])
  }

  /** After `init_proc`: the idle process in slot 0 with pid 0, running, and every other slot unused. */
  predicate Booted(s: State) {
    && |s.procs| > 0 && s.current == 0
    && s.procs[0].pid == 0 && s.procs[0].status == Runnable
    && forall i :: 0 < i < |s.procs| ==> s.procs[i].status == Unused
  }

  /** What every run keeps. */
  predicate Inv(s: State) {
    && s.current < |s.procs|
    && s.procs[0].pid == 0 && s.procs[0].status == Runnable
    && (forall i :: 0 < i < |s.procs| && s.procs[i].status != Unused ==> s.procs[i].pid == i + 1)
    && s.procs[s.current].status == Runnable
  }

  /** How many slots lie from `current` up to `t`, going round. */
  function Distance(n: nat, current: nat, t: nat): nat
    requires current < n && t < n
  {
    if current <= t then t - current else t + n - current
  }

  lemma SlotAtIs(n: nat, pid: nat, i: nat)
    requires 0 < n && pid <= n && i <= n
    ensures SlotAt(n, pid, i) == if pid + i < n then pid + i else if pid + i < 2 * n then pid + i - n else 0
  {
    var x := pid + i;
    if x < n {
      DivModUnique(x, n, 0, x);
    } else if x < 2 * n {
      DivModUnique(x, n, 1, x - n);
    } else {
      DivModUnique(x, n, 2, 0);
    }
  }

  /**
   The round in which the search reaches slot `t`: right after the current slot for a process, from slot 0 for idle.
   */
  function RoundOf(n: nat, pid: nat, t: nat): nat
    requires pid <= n && t < n
  {
    if pid <= t then t - pid else t + n - pid
  }

  lemma RoundReaches(n: nat, pid: nat, t: nat)
    requires pid <= n && t < n
    ensures RoundOf(n, pid, t) < n && SlotAt(n, pid, RoundOf(n, pid, t)) == t
  {
    SlotAtIs(n, pid, RoundOf(n, pid, t));
  }

  /**
   `yield` picks an eligible process whenever there is one: the one at the least cyclic distance after the current
   one, which the current process itself is last to be. It picks idle exactly when no other process is runnable.
   */
  lemma NextIsNearest(s: State)
    requires Inv(s)
    ensures var next := NextSlot(s.procs, s.current);
      && (next == 0 <==> forall t :: 0 < t < |s.procs| ==> s.procs[t].status != Runnable)
      && (next != 0 ==> s.procs[next].status == Runnable)
      && (next != 0 && next != s.current ==>
            forall t :: 0 < t < |s.procs| && t != s.current && s.procs[t].status == Runnable ==>
            Distance(|s.procs|, s.current, next) <= Distance(|s.procs|, s.current, t))
      && (next == s.current && next != 0 ==>
            forall t :: 0 < t < |s.procs| && t != s.current ==> s.procs[t].status != Runnable)
  {
    var n, pid := |s.procs|, s.procs[s.current].pid;
    var r := SearchFrom(s.procs, pid, 0);
    forall t | 0 < t < n && s.procs[t].status == Runnable
      ensures r <= RoundOf(n, pid, t)
    {
      RoundReaches(n, pid, t);
    }
    if r < n {
      SlotAtIs(n, pid, r);
    }
  }

  // ----- The life of a process -----

  lemma BootInv(s: State)
    requires Booted(s)
    ensures Inv(s)
  {
  }

  lemma StepInv(s: State, e: Event)
    requires Inv(s) && Enabled(s, e)
    ensures Inv(Step(s, e))
  {
  }

  lemma {:induction false} ExecInv(s: State, es: seq<Event>)
    requires Inv(s) && Legal(s, es)
    ensures Inv(Exec(s, es))
    decreases es
  {
    if es != [] {
      StepInv(s, es[0]);
      ExecInv(Step(s, es[0]), es[1..]);
    }
  }

  /** How far a slot has come: unused, then runnable, then exited. */
  function Rank(x: Status): nat {
    match x case Unused => 0 case Runnable => 1 case Exited => 2
  }

  /** A slot keeps its place in the order unused, runnable, exited or moves up; a used slot keeps its pid. */
  ghost predicate MovesOn(s: State, t: State) {
    && |t.procs| == |s.procs|
    && (forall i :: 0 <= i < |s.procs| ==> Rank(s.procs[i].status) <= Rank(t.procs[i].status))
    && (forall i :: 0 <= i < |s.procs| && s.procs[i].status != Unused ==> t.procs[i].pid == s.procs[i].pid)
  }

  /** In every run: slots only move on, and the idle process never leaves slot 0. */
  lemma {:induction false} ExecMovesOn(s: State, es: seq<Event>)
    requires Inv(s) && Legal(s, es)
    ensures MovesOn(s, Exec(s, es))
    decreases es
  {
    if es != [] {
      StepInv(s, es[0]);
      ExecMovesOn(Step(s, es[0]), es[1..]);
    }
  }

  /** An exited process is never current again, so what follows `proc_exit` in its system call is never reached. */
  lemma ExitedStaysOff(s: State, es: seq<Event>)
    requires Inv(s) && Enabled(s, Exit) && Legal(Step(s, Exit), es)
    ensures var t := Exec(Step(s, Exit), es);
      |t.procs| == |s.procs| && t.procs[s.current].status == Exited && t.current != s.current
  {
    var s1 := Step(s, Exit);
    StepInv(s, Exit);
    ExecInv(s1, es);
    ExecMovesOn(s1, es);
    assert Rank(s1.procs[s.current].status) <= Rank(Exec(s1, es).procs[s.current].status);
  }

  // ----- Bounded waiting -----

  /** One switch brings a waiting process strictly closer, or makes it current. */
  lemma SwitchCloser(s: State, t: nat)
    requires Inv(s) && 0 < t < |s.procs| && t != s.current && s.procs[t].status == Runnable
    ensures var next := NextSlot(s.procs, s.current);
      next != s.current && Distance(|s.procs|, next, t) < Distance(|s.procs|, s.current, t)
  {
    NextIsNearest(s);
    var next := NextSlot(s.procs, s.current);
    assert s.procs[t].status == Runnable;
    assert Distance(|s.procs|, s.current, next) <= Distance(|s.procs|, s.current, t);
  }

  lemma ExitCloser(s: State, t: nat)
    requires Inv(s) && Enabled(s, Exit) && 0 < t < |s.procs| && t != s.current && s.procs[t].status == Runnable
    ensures Distance(|s.procs|, Step(s, Exit).current, t) < Distance(|s.procs|, s.current, t)
  {
    var n, pid := |s.procs|, s.procs[s.current].pid;
    var ps := s.procs[s.current := s.procs[s.current].(status := Exited)];
    var r := SearchFrom(ps, pid, 0);
    RoundReaches(n, pid, t);
    SlotAtIs(n, pid, r);
  }

  /** The switches in a run. */
  function Switches(es: seq<Event>): nat
    decreases es
  {
    if es == [] then 0 else (if es[0].Create? then 0 else 1) + Switches(es[1..])
  }

  /**
   Bounded waiting: a process that is runnable becomes current within as many switches as the slots between the
   current one and it, whatever is created or exits meanwhile.
   */
  lemma {:induction false} BoundedWaiting(s: State, es: seq<Event>, t: nat) returns (i: nat)
    requires Inv(s) && Legal(s, es)
    requires 0 < t < |s.procs| && s.procs[t].status == Runnable
    requires Switches(es) >= Distance(|s.procs|, s.current, t)
    ensures i <= |es| && Legal(s, es[..i]) && Exec(s, es[..i]).current == t
    decreases es
  {
    if s.current == t {
      i := 0;
      assert es[..0] == [];
    } else {
      var e := es[0];
      var s1 := Step(s, e);
      StepInv(s, e);
      match e {
        case Create(_, _) =>
        case Yield => SwitchCloser(s, t);
        case Exit => ExitCloser(s, t);
      }
      var k := BoundedWaiting(s1, es[1..], t);
      i := k + 1;
      assert es[..i][1..] == es[1..][..k];
    }
  }
}
