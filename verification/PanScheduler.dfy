/** The scheduling loop of pan (pan.c): launches, signals and reaped children. */
module PanScheduler {
  import opened Wrappers
  import opened Numbers

  const SIGHUP: nat := 1
  const SIGINT: nat := 2
  const SIGKILL: nat := 9
  const SIGUSR1: nat := 10
  const SIGUSR2: nat := 12
  const SIGALRM: nat := 14
  const SIGTERM: nat := 15

  /** One place for a child: its process group, 0 if free, and whether it has been signalled. */
  datatype Slot = Slot(pgrp: nat, stopping: bool)

  /** What the environment answers when a launch is attempted: a signal that
      arrives first (0: none), the random command choice, and the process id
      fork returns (0: the child could not be started). */
  datatype Try = Try(signal: nat, choice: nat, pid: nat)

  /** How wait reports a child; Odd stands for the reports that should never
      happen (stopped, or none of the known forms), after which it lives on. */
  datatype How = Exited(code: nat) | Signaled(sig: nat) | Odd

  /** What wait answers: a report on the child pid; none if there is no such child. */
  datatype Wait = Wait(pid: nat, how: How)

  /** Everything the environment decides in one round of the main loop. */
  datatype Round = Round(tries: seq<Try>, stopFile: bool, signal: nat, wait: Wait)

  /** The number of occupied slots. */
  function Occupied(s: seq<Slot>): nat { if s == [] then 0 else (if s[0].pgrp != 0 then 1 else 0) + Occupied(s[1..]) }

  lemma {:induction false} OccupiedUpdate(s: seq<Slot>, i: nat, x: Slot)
    requires i < |s|
    ensures Occupied(s[i := x]) == Occupied(s) - (if s[i].pgrp != 0 then 1 else 0) + (if x.pgrp != 0 then 1 else 0)
    decreases |s|
  {
    if i > 0 {
      assert s[i := x][1..] == s[1..][i - 1 := x];
      OccupiedUpdate(s[1..], i - 1, x);
    } else {
      assert s[i := x][1..] == s[1..];
    }
  }

  ghost predicate SomeFree(s: seq<Slot>) { exists i :: 0 <= i < |s| && s[i].pgrp == 0 }

  ghost predicate AllFree(s: seq<Slot>) { forall i :: 0 <= i < |s| ==> s[i].pgrp == 0 }

  lemma FreeTail(s: seq<Slot>)
    requires s != []
    ensures SomeFree(s) <==> s[0].pgrp == 0 || SomeFree(s[1..])
    ensures AllFree(s) <==> s[0].pgrp == 0 && AllFree(s[1..])
  {
    var t := s[1..];
    assert forall i :: 0 <= i < |t| ==> t[i] == s[i + 1];
    forall i | 1 <= i < |s| ensures s[i] == t[i - 1] {
    }
    if SomeFree(t) {
      var i :| 0 <= i < |t| && t[i].pgrp == 0;
      assert s[i + 1].pgrp == 0;
    }
  }

  lemma {:induction false} OccupiedBound(s: seq<Slot>)
    ensures Occupied(s) <= |s|
    ensures Occupied(s) < |s| <==> SomeFree(s)
    ensures Occupied(s) == 0 <==> AllFree(s)
    decreases |s|
  {
    if s != [] {
      OccupiedBound(s[1..]);
      FreeTail(s);
    }
  }

  /** The process groups in the slots. */
  function Groups(s: seq<Slot>): multiset<nat> {
    if s == [] then multiset{} else GroupOf(s[0]) + Groups(s[1..])
  }

  /** What slot x contributes to the groups. */
  function GroupOf(x: Slot): multiset<nat> { if x.pgrp != 0 then multiset{x.pgrp} else multiset{} }

  lemma {:induction false} GroupsUpdate(s: seq<Slot>, i: nat, x: Slot)
    requires i < |s|
    ensures GroupOf(s[i]) <= Groups(s)
    ensures Groups(s[i := x]) == Groups(s) - GroupOf(s[i]) + GroupOf(x)
    decreases |s|
  {
    if i > 0 {
      assert s[i := x][1..] == s[1..][i - 1 := x];
      GroupsUpdate(s[1..], i - 1, x);
      Exchange(GroupOf(s[0]), Groups(s[1..]), GroupOf(s[i]), GroupOf(x));
    } else {
      assert s[i := x][1..] == s[1..];
    }
  }

  lemma Exchange(a: multiset<nat>, b: multiset<nat>, c: multiset<nat>, d: multiset<nat>)
    requires c <= b
    ensures c <= a + b && a + (b - c + d) == a + b - c + d
  {
  }

  lemma {:induction false} GroupsAre(s: seq<Slot>)
    ensures |Groups(s)| == Occupied(s)
    ensures forall g :: g in Groups(s) <==> g != 0 && Has(s, g)
    decreases |s|
  {
    if s != [] {
      GroupsAre(s[1..]);
      forall g ensures Has(s, g) <==> s[0].pgrp == g || Has(s[1..], g) {
        HasTail(s, g);
      }
    }
  }

  lemma HasTail(s: seq<Slot>, g: nat)
    requires s != []
    ensures Has(s, g) <==> s[0].pgrp == g || Has(s[1..], g)
  {
    if Has(s[1..], g) {
      var i :| 0 <= i < |s[1..]| && s[1..][i].pgrp == g;
      assert s[i + 1].pgrp == g;
    }
    if Has(s, g) && s[0].pgrp != g {
      var i :| 0 <= i < |s| && s[i].pgrp == g;
      assert s[1..][i - 1].pgrp == g;
    }
  }

  /** Some slot has this process group; 0 stands for a free slot. */
  ghost predicate Has(s: seq<Slot>, g: nat) { exists i :: 0 <= i < |s| && s[i].pgrp == g }

  /** The first slot with this process group. */
  ghost function FirstWith(s: seq<Slot>, g: nat): (i: nat)
    requires Has(s, g)
    ensures i < |s| && s[i].pgrp == g && forall j :: 0 <= j < i ==> s[j].pgrp != g
    decreases |s|
  {
    if s[0].pgrp == g then 0
    else
      assert Has(s[1..], g) by {
        var i :| 0 <= i < |s| && s[i].pgrp == g;
        assert s[1..][i - 1].pgrp == g;
      }
      FirstWith(s[1..], g) + 1
  }

  /** The errors a report counts for, with the slot of the child if it has one. */
  function Faults(how: How, slot: Option<Slot>): int {
    match how
    case Odd => 1
    case Exited(code) => if code == 0 || (code == 130 && slot.Some? && slot.value.stopping) then 0 else 1
    case Signaled(_) => if slot.Some? && !slot.value.stopping then 1 else 0
  }

  /** The slot a report on cpid concerns. */
  ghost function SlotFor(s: seq<Slot>, cpid: nat): Option<Slot> {
    if Has(s, cpid) then Some(s[FirstWith(s, cpid)]) else None
  }

  /** The slots after a report on cpid: its slot, if it has one, is free. */
  ghost function Freed(s: seq<Slot>, cpid: nat): seq<Slot> {
    if Has(s, cpid) then s[FirstWith(s, cpid) := Slot(0, s[FirstWith(s, cpid)].stopping)] else s
  }

  /** A position that advances by one and wraps around is the count modulo n. */
  lemma NextInCycle(k: nat, n: nat)
    requires n > 0
    ensures (k + 1) % n == if k % n + 1 >= n then 0 else k % n + 1
  {
    var q, r := k / n, k % n;
    assert k == q * n + r;
    if r + 1 >= n {
      assert (q + 1) * n + 0 == q * n + n;
      DivModUnique(k + 1, n, q + 1, 0);
    } else {
      DivModUnique(k + 1, n, q, r + 1);
    }
  }

  /** The signal to pass on when sig arrives and `last` was passed on before. */
  function Ratchet(last: nat, send: nat, sig: nat): nat {
    if last == 0 then sig
    else if last == SIGUSR1 then SIGINT
    else if last == sig then SIGTERM
    else if last == SIGTERM then SIGHUP
    else if last == SIGHUP then SIGKILL
    else send
  }

  /** The signal passed on for the n-th of a series of signals sig, each
      propagated, which clears the pending one, before the next arrives. */
  function Nth(sig: nat, n: nat): nat { if n == 0 then 0 else Ratchet(Nth(sig, n - 1), 0, sig) }

  /** Interrupts and alarms escalate up to a kill; the fifth passes nothing on,
      and the series starts again. */
  lemma {:induction false} Escalates(sig: nat, n: nat)
    requires sig == SIGINT || sig == SIGALRM
    ensures Nth(sig, n) == [0, sig, SIGTERM, SIGHUP, SIGKILL][n % 5]
    decreases n
  {
    if n > 0 {
      Escalates(sig, n - 1);
    }
  }

  /** Repeated termination signals never escalate. */
  lemma {:induction false} TerminationStays(n: nat)
    requires n > 0
    ensures Nth(SIGTERM, n) == SIGTERM
    decreases n
  {
    if n > 1 {
      TerminationStays(n - 1);
    }
  }

  /** A hangup alternates with a termination. */
  lemma {:induction false} HangupAlternates(n: nat)
    requires n > 0
    ensures Nth(SIGHUP, n) == if n % 2 == 1 then SIGHUP else SIGTERM
    decreases n
  {
    if n > 1 {
      HangupAlternates(n - 1);
    }
  }

  /** SIGUSR1 becomes an interrupt, then nothing. */
  lemma {:induction false} UserSignals(n: nat)
    ensures Nth(SIGUSR1, n) == [0, SIGUSR1, SIGINT][n % 3]
    decreases n
  {
    if n > 0 {
      UserSignals(n - 1);
    }
  }

  /** The kernel's children of pan: started, and their end not yet reported. */
  datatype Children = Children(all: multiset<nat>) {
    predicate Has(pid: nat) { pid in all }

    function Start(pid: nat): Children { Children(all + multiset{pid}) }

    /** After a report: a child that has ended is gone. */
    function Report(w: Wait): Children { if w.how.Odd? then this else Children(all - multiset{w.pid}) }

    predicate None() { all == multiset{} }
  }

  const NO_CHILDREN: Children := Children(multiset{})

  /** The children that lost their slot to an odd report and have not ended. */
  function Lost(kids: Children, s: seq<Slot>): multiset<nat> { kids.all - Groups(s) }

  /** The number of active children is that of the children that have not ended;
      every slot belongs to one of them; and every one of them has a slot unless
      there was an odd report. */
  ghost predicate Tracked(active: nat, kids: Children, s: seq<Slot>, odd: bool) {
    forall n: nat {:trigger Exactly(n, active)} :: Exactly(n, active) ==>
      n == |kids.all| && 0 !in kids.all && Groups(s) <= kids.all && (!odd ==> Groups(s) == kids.all)
  }

  /** In sequential mode the commands are attempted in cyclic order. */
  ghost predicate InOrder(sequential: bool, cnt: nat, c: nat, attempted: seq<nat>)
    requires cnt > 0
  {
    && (sequential ==> c == |attempted| % cnt && forall k :: 0 <= k < |attempted| ==> attempted[k] == k % cnt)
    && (forall k :: 0 <= k < |attempted| ==> attempted[k] < cnt)
  }

  lemma NoneTracked(s: seq<Slot>)
    requires forall i :: 0 <= i < |s| ==> s[i].pgrp == 0
    ensures Tracked(0, NO_CHILDREN, s, false)
  {
    OccupiedBound(s);
    GroupsAre(s);
  }

  /** The active children are those with a slot and the lost ones. */
  lemma TrackedBound(active: nat, kids: Children, s: seq<Slot>, odd: bool)
    requires Tracked(active, kids, s, odd)
    ensures !kids.Has(0) && active == Occupied(s) + |Lost(kids, s)| && (!odd ==> active == Occupied(s))
    ensures active < |s| ==> Has(s, 0)
    ensures active == 0 ==> kids.None() && forall i :: 0 <= i < |s| ==> s[i].pgrp == 0
  {
    assert Exactly(active, active);
    assert kids.all == Groups(s) + Lost(kids, s);
    OccupiedBound(s);
    GroupsAre(s);
    if active < |s| {
      var i :| 0 <= i < |s| && s[i].pgrp == 0;
    }
  }

  lemma TrackedStart(active: nat, kids: Children, s: seq<Slot>, odd: bool, i: nat, pid: nat)
    requires Tracked(active, kids, s, odd) && i < |s| && s[i].pgrp == 0 && pid != 0
    ensures Tracked(active + 1, kids.Start(pid), s[i := Slot(pid, false)], odd)
  {
    assert Exactly(active, active);
    GroupsUpdate(s, i, Slot(pid, false));
  }

  lemma GroupsMarked(s: seq<Slot>, i: nat)
    requires i < |s|
    ensures Groups(s[i := Slot(s[i].pgrp, true)]) == Groups(s)
  {
    var g := GroupOf(s[i]);
    GroupsUpdate(s, i, Slot(s[i].pgrp, true));
    TakenAndPut(Groups(s), g);
  }

  lemma TakenAndPut(a: multiset<nat>, c: multiset<nat>)
    requires c <= a
    ensures a - c + c == a
  {
  }

  lemma TrackedMark(active: nat, kids: Children, s: seq<Slot>, odd: bool, i: nat)
    requires Tracked(active, kids, s, odd) && i < |s|
    ensures Tracked(active, kids, s[i := Slot(s[i].pgrp, true)], odd)
  {
    GroupsMarked(s, i);
    assert Exactly(active, active);
  }

  /** What a report does to the process groups in the slots. */
  lemma FreedGroups(s: seq<Slot>, pid: nat)
    requires pid != 0
    ensures Groups(Freed(s, pid)) == Groups(s) - multiset{pid}
    ensures pid in Groups(s) <==> Has(s, pid)
  {
    GroupsAre(s);
    if Has(s, pid) {
      var i := FirstWith(s, pid);
      GroupsUpdate(s, i, Slot(0, s[i].stopping));
    }
  }

  lemma OneLess(all: multiset<nat>, g: multiset<nat>, pid: nat)
    requires g <= all && pid in all
    ensures |all - multiset{pid}| == |all| - 1 && g - multiset{pid} <= all - multiset{pid} && g - multiset{pid} <= all
    ensures 0 !in all ==> 0 !in all - multiset{pid}
  {
    assert all == (all - multiset{pid}) + multiset{pid};
  }

  lemma TrackedReport(active: nat, kids: Children, s: seq<Slot>, odd: bool, w: Wait)
    requires Tracked(active, kids, s, odd) && kids.Has(w.pid)
    ensures w.pid != 0 && active > 0
    ensures Tracked(active - (if w.how.Odd? then 0 else 1), kids.Report(w), Freed(s, w.pid), odd || w.how.Odd?)
  {
    assert Exactly(active, active);
    FreedGroups(s, w.pid);
    OneLess(kids.all, Groups(s), w.pid);
  }

  /** An odd report on a child with a slot adds it to the lost ones; the end of
      a child without a slot takes it away; no other report changes them. */
  lemma LostAfter(active: nat, kids: Children, s: seq<Slot>, odd: bool, w: Wait)
    requires Tracked(active, kids, s, odd) && kids.Has(w.pid)
    ensures Lost(kids.Report(w), Freed(s, w.pid)) ==
      if w.how.Odd? && Has(s, w.pid) then Lost(kids, s) + multiset{w.pid}
      else if !w.how.Odd? && !Has(s, w.pid) then Lost(kids, s) - multiset{w.pid}
      else Lost(kids, s)
  {
    assert Exactly(active, active);
    FreedGroups(s, w.pid);
  }

  class Scheduler {
    const running: array<Slot>
    /** The number of commands. */
    const cnt: nat
    const sequential: bool
    const hasBrakes: bool
    var numActive: nat
    /** Launches still to do; -1 for no limit. */
    var starts: int
    var c: nat
    var stop: nat
    var goIdle: nat
    var forkInRoad: bool
    var recSignal: nat
    var sendSignal: nat
    var lastSent: nat
    /** The kernel's side. */
    var kids: Children
    /** The starts the run began with, the successful launches, the ends that
        were reported, the commands attempted, and whether there was an odd report. */
    ghost const starts0: int
    ghost var launched: nat
    ghost var ended: nat
    ghost var attempted: seq<nat>
    ghost var odd: bool

    ghost predicate Valid()
      reads this, running
    {
      Counted() && Cyclic()
    }

    /** The children are tracked, within their limit, and no start is forgotten. */
    ghost predicate Counted()
      reads this, running
    {
      && Tracked(numActive, kids, running[..], odd) && numActive <= running.Length && launched == ended + numActive
      && (starts0 == -1 ==> starts == -1) && (starts0 != -1 ==> starts0 >= 0 && starts >= 0 && starts + launched == starts0)
    }

    ghost predicate Cyclic()
      reads this
    {
      cnt > 0 && c < cnt && InOrder(sequential, cnt, c, attempted)
    }

    /** starts: what the user asked for; -1 asks for the default, 0 for no limit. */
    constructor (keepActive: nat, cnt: nat, sequential: bool, hasBrakes: bool, forkInRoad: bool, starts: int)
      requires keepActive > 0 && cnt > 0
      ensures Valid() && (starts != 0 ==> Calm()) && this.hasBrakes == hasBrakes
      ensures numActive == 0 && launched == 0 && attempted == [] && !odd && stop == 0
      ensures fresh(running) && running.Length == keepActive && this.cnt == cnt && this.sequential == sequential
      ensures starts0 == if starts == -1 then (if sequential then cnt else 1) else if starts == 0 then -1
                         else if starts < keepActive then keepActive else starts
    {
      running := new Slot[keepActive](_ => Slot(0, false));
      this.cnt, this.sequential, this.hasBrakes := cnt, sequential, hasBrakes;
      var limit := if starts == -1 then (if sequential then cnt else 1) else if starts == 0 then -1
                   else if starts < keepActive then keepActive else starts;
      this.starts, starts0 := limit, limit;
      numActive, c, stop, goIdle, recSignal, sendSignal, lastSent := 0, 0, 0, 0, 0, 0, 0;
      this.forkInRoad := forkInRoad;
      kids, launched, ended, attempted, odd := NO_CHILDREN, 0, 0, [], false;
      new;
      NoneTracked(running[..]);
    }

    /** The signal ratchet. */
    method WaitHandler(sig: nat)
      modifies this`recSignal, this`sendSignal, this`lastSent
      ensures recSignal == if sig == 0 then old(recSignal) else sig
      ensures sendSignal == if sig == 0 || sig == SIGUSR2 then old(sendSignal) else Ratchet(old(lastSent), old(sendSignal), sig)
      ensures lastSent == if sig == 0 then 0 else if sig == SIGUSR2 then old(lastSent) else sendSignal
    {
      if sig == 0 {
        lastSent := 0;
      } else {
        recSignal := sig;
        if sig == SIGUSR2 {
          return;
        }
        if lastSent == 0 {
          sendSignal := sig;
        } else if lastSent == SIGUSR1 {
          sendSignal := SIGINT;
        } else if lastSent == sig {
          sendSignal := SIGTERM;
        } else if lastSent == SIGTERM {
          sendSignal := SIGHUP;
        } else if lastSent == SIGHUP {
          sendSignal := SIGKILL;
        }
        lastSent := sendSignal;
      }
    }

    /** Find a slot for the child: there always is one, so the abort that
        follows an unsuccessful search is never reached. */
    method FindSlot() returns (i: nat)
      requires Counted() && numActive < running.Length
      ensures Has(running[..], 0) && i == FirstWith(running[..], 0)
    {
      TrackedBound(numActive, kids, running[..], odd);
      ghost var k :| 0 <= k < running.Length && running[..][k].pgrp == 0;
      i := 0;
      while running[i].pgrp != 0
        invariant i < running.Length && forall j :: 0 <= j < i ==> running[j].pgrp != 0
        invariant exists j :: i <= j < running.Length && running[j].pgrp == 0
        decreases running.Length - i
      {
        i := i + 1;
      }
    }

    /** No signal is pending, only the end of the starts has asked for a stop,
        and there is such an end. */
    ghost predicate Calm()
      reads this
    {
      recSignal == 0 && (stop > 0 ==> starts == 0) && starts0 != -1
    }

    /** One attempt to start a child in a free slot. */
    method Attempt(t: Try)
      requires Valid() && numActive < running.Length && starts != 0
      modifies this`c, this`numActive, this`starts, this`kids, this`launched, this`attempted, running
      ensures Valid() && numActive <= old(numActive) + 1 && launched >= old(launched)
      ensures |attempted| == |old(attempted)| + 1 && old(attempted) <= attempted
    {
      if !sequential {
        c := t.choice % cnt;
      }
      StartChild(t.pid);
      Advance();
    }

    /** run_child: the child takes the first free slot, is counted and uses up
        one start; one that does not start changes nothing. */
    method StartChild(pid: nat)
      requires Counted() && numActive < running.Length && starts != 0
      modifies this`numActive, this`starts, this`kids, this`launched, running
      ensures Counted() && Has(old(running[..]), 0)
      ensures kids == (if pid != 0 then old(kids).Start(pid) else old(kids))
      ensures pid == 0 ==> running[..] == old(running[..]) && numActive == old(numActive) && starts == old(starts) && launched == old(launched)
      ensures pid != 0 ==> running[..] == old(running[..])[FirstWith(old(running[..]), 0) := Slot(pid, false)]
      ensures pid != 0 ==> numActive == old(numActive) + 1 && launched == old(launched) + 1
      ensures pid != 0 ==> starts == if old(starts) > 0 then old(starts) - 1 else old(starts)
    {
      var i := FindSlot();
      if pid != 0 {
        ghost var before := running[..];
        TrackedStart(numActive, kids, before, odd, i, pid);
        running[i] := Slot(pid, false);
        assert running[..] == before[i := Slot(pid, false)];
        kids := kids.Start(pid);
        numActive := numActive + 1;
        if starts > 0 {
          starts := starts - 1;
        }
        launched := launched + 1;
      }
    }

    /** Record the attempt and go on to the next command. */
    method Advance()
      requires Cyclic()
      modifies this`c, this`attempted
      ensures Cyclic() && attempted == old(attempted) + [old(c)]
    {
      attempted := attempted + [c];
      if sequential {
        NextInCycle(|attempted| - 1, cnt);
        c := c + 1;
        if c >= cnt {
          c := 0;
        }
      }
    }

    /** Start children while there is room and there are starts left. */
    method Launch(tries: seq<Try>)
      requires Valid()
      modifies this`c, this`numActive, this`starts, this`kids, this`launched, this`attempted, this`recSignal, this`sendSignal, this`lastSent, running
      ensures Valid() && old(attempted) <= attempted && launched >= old(launched)
      ensures old(Calm()) && (forall k :: 0 <= k < |tries| ==> tries[k].signal == 0) ==> Calm()
    {
      var k := 0;
      while numActive < running.Length && starts != 0 && k < |tries|
        invariant 0 <= k <= |tries| && Valid() && old(attempted) <= attempted && launched >= old(launched)
        invariant old(Calm()) && (forall i :: 0 <= i < |tries| ==> tries[i].signal == 0) ==> Calm()
        decreases |tries| - k
      {
        if tries[k].signal != 0 {
          WaitHandler(tries[k].signal);
        }
        if stop > 0 || recSignal != 0 || goIdle > 0 {
          break;
        }
        Attempt(tries[k]);
        k := k + 1;
      }
    }

    /** Every occupied slot is marked as being stopped. */
    method PropagateSignal()
      requires Valid()
      modifies this`recSignal, this`sendSignal, running
      ensures Valid() && recSignal == 0
      ensures forall i :: 0 <= i < running.Length ==>
        running[i] == if old(running[i]).pgrp == 0 then old(running[i]) else Slot(old(running[i]).pgrp, true)
    {
      var i := 0;
      while i < running.Length
        invariant 0 <= i <= running.Length && Valid()
        invariant forall j :: i <= j < running.Length ==> running[j] == old(running[j])
        invariant forall j :: 0 <= j < i ==>
          running[j] == if old(running[j]).pgrp == 0 then old(running[j]) else Slot(old(running[j]).pgrp, true)
      {
        if running[i].pgrp != 0 {
          ghost var before := running[..];
          TrackedMark(numActive, kids, before, odd, i);
          running[i] := Slot(running[i].pgrp, true);
          assert running[..] == before[i := running[i]];
        }
        i := i + 1;
      }
      recSignal, sendSignal := 0, 0;
    }

    method IdleOrStop()
      modifies this`goIdle, this`stop
      ensures goIdle + stop == old(goIdle + stop) + 1
    {
      if forkInRoad { goIdle := goIdle + 1; } else { stop := stop + 1; }
    }

    /** React to a signal that has been received. */
    method HandleSignal()
      requires Valid() && recSignal != 0
      modifies this`recSignal, this`sendSignal, this`forkInRoad, this`goIdle, this`stop, running
      ensures Valid() && recSignal == 0 && goIdle + stop == old(goIdle + stop) + 1
    {
      if recSignal == SIGUSR2 {
        IdleOrStop();
        recSignal, sendSignal := 0, 0;
      } else {
        if recSignal == SIGUSR1 {
          forkInRoad := false;
        }
        PropagateSignal();
        IdleOrStop();
      }
    }

    /** wait: a report on one of the children; 0 if there is nothing to report. */
    method Await(w: Wait) returns (cpid: nat)
      modifies this`kids
      ensures cpid == if old(kids).Has(w.pid) then w.pid else 0
      ensures kids == if old(kids).Has(w.pid) then old(kids).Report(w) else old(kids)
    {
      cpid := 0;
      if kids.Has(w.pid) {
        cpid := w.pid;
        kids := kids.Report(w);
      }
    }

    /** Handle one report: an end counts the child down; either way the first
        slot with its process group becomes free if there is one.  The errors
        the report counts for are returned. */
    method CheckPids(w: Wait) returns (err: int)
      requires Valid()
      modifies this`numActive, this`kids, this`ended, this`odd, running
      ensures Valid()
      ensures !old(kids).Has(w.pid) ==>
        running[..] == old(running[..]) && numActive == old(numActive) && kids == old(kids) && odd == old(odd) && err == 0
      ensures old(kids).Has(w.pid) ==>
        && running[..] == Freed(old(running[..]), w.pid) && err == Faults(w.how, SlotFor(old(running[..]), w.pid))
        && numActive == old(numActive) - (if w.how.Odd? then 0 else 1)
        && kids == old(kids).Report(w) && odd == (old(odd) || w.how.Odd?)
    {
      err := 0;
      if kids.Has(w.pid) {
        TrackedReport(numActive, kids, running[..], odd, w);
      }
      var cpid := Await(w);
      if cpid > 0 {
        CountDown(w.how);
        err := Judge(w.how, cpid);
      }
    }

    method CountDown(how: How)
      requires numActive > 0
      modifies this`numActive, this`ended, this`odd
      ensures odd == (old(odd) || how.Odd?) && numActive == old(numActive) - (if how.Odd? then 0 else 1)
      ensures numActive + ended == old(numActive + ended)
    {
      if how.Signaled? || how.Exited? {
        numActive := numActive - 1;
        ended := ended + 1;
      } else {
        odd := true;
      }
    }

    /** Free the child's slot, and find out what its report counts for. */
    method Judge(how: How, cpid: nat) returns (err: int)
      modifies running
      ensures running[..] == Freed(old(running[..]), cpid) && err == Faults(how, SlotFor(old(running[..]), cpid))
    {
      err := if how.Odd? || (how.Exited? && how.code != 0) then 1 else 0;
      ghost var s := running[..];
      var i := SlotOf(cpid);
      if i < running.Length {
        if how.Exited? && how.code == 130 && running[i].stopping {
          err := err - 1;
        }
        if how.Signaled? && !running[i].stopping {
          err := err + 1;
        }
        running[i] := Slot(0, running[i].stopping);
        assert running[..] == s[i := running[i]];
      }
    }

    /** The search for the child's slot, up to the end of the slots. */
    method SlotOf(cpid: nat) returns (i: nat)
      ensures if Has(running[..], cpid) then i == FirstWith(running[..], cpid) else i == running.Length
    {
      i := 0;
      while i < running.Length && running[i].pgrp != cpid
        invariant i <= running.Length && forall j :: 0 <= j < i ==> running[j].pgrp != cpid
        decreases running.Length - i
      {
        i := i + 1;
      }
      if i < running.Length {
        assert running[..][i].pgrp == cpid;
      }
    }

    /** The first half of a round: launch, and ask for a stop when the starts are used up. */
    method LaunchHalf(r: Round)
      requires Valid()
      modifies this`c, this`numActive, this`starts, this`kids, this`launched, this`attempted, this`recSignal, this`sendSignal, this`lastSent, this`stop, running
      ensures Valid() && old(attempted) <= attempted
      ensures old(Calm()) && Quiet(r, hasBrakes) ==> Calm()
    {
      Launch(r.tries);
      if starts == 0 {
        stop := stop + 1;
      } else if starts == -1 && r.stopFile {
        stop := stop + 1;
      }
    }

    /** A signal that arrives, or has arrived, is handled. */
    method React(r: Round)
      requires Valid()
      modifies this`recSignal, this`sendSignal, this`lastSent, this`forkInRoad, this`goIdle, this`stop, running
      ensures Valid() && (old(Calm()) && Quiet(r, hasBrakes) ==> Calm())
    {
      if r.signal != 0 {
        WaitHandler(r.signal);
      }
      if recSignal != 0 {
        HandleSignal();
      }
    }

    /** The second half: react to a signal, reap a child. */
    method ReapHalf(r: Round)
      requires Valid()
      modifies this`numActive, this`kids, this`ended, this`odd, this`recSignal, this`sendSignal, this`lastSent, this`forkInRoad, this`goIdle, this`stop, running
      ensures Valid() && (!r.wait.how.Odd? && !old(odd) ==> !odd)
      ensures old(Calm()) && Quiet(r, hasBrakes) ==> Calm()
    {
      React(r);
      var err := CheckPids(r.wait);
      if err != 0 {
        Complain();
      }
    }

    /** An error idles the loop or, with brakes, stops it. */
    method Complain()
      modifies this`recSignal, this`sendSignal, this`lastSent, this`goIdle
      ensures recSignal == if hasBrakes then SIGINT else old(recSignal)
    {
      if forkInRoad { goIdle := goIdle + 1; }
      if hasBrakes { WaitHandler(SIGINT); }
    }

    /** Every child that was started has ended, and no slot is occupied. */
    ghost predicate Empty()
      reads this, running
    {
      numActive == 0 && kids.None() && launched == ended && forall i :: 0 <= i < running.Length ==> running[i].pgrp == 0
    }

    lemma NoneActive()
      requires Valid() && numActive == 0
      ensures Empty()
    {
      TrackedBound(numActive, kids, running[..], odd);
      assert forall i :: 0 <= i < running.Length ==> running[..][i].pgrp == running[i].pgrp;
    }

    /** One round of the main loop; done if it leaves the loop. */
    method OneRound(r: Round) returns (done: bool)
      requires Valid()
      modifies this, running
      ensures Valid() && old(attempted) <= attempted
      ensures !r.wait.how.Odd? && !old(odd) ==> !odd
      ensures done <==> stop > 0 && numActive == 0
      ensures done ==> Empty()
      ensures old(Calm()) && Quiet(r, hasBrakes) ==> Calm()
    {
      LaunchHalf(r);
      ReapHalf(r);
      if stop > 0 && numActive == 0 {
        NoneActive();
        return true;
      }
      if goIdle > 0 && numActive == 0 {
        goIdle := 0;
        WaitHandler(0);
      }
      return false;
    }

    /** Any number of rounds, up to the one that leaves the loop.  The loop is
        only left when every child that was started has ended; if nothing
        disturbs the run, every requested start has then happened.  Without odd
        reports every active child has a slot all the time. */
    method Run(rounds: seq<Round>) returns (done: bool)
      requires Valid()
      modifies this, running
      ensures Valid() && old(attempted) <= attempted
      ensures done ==> stop > 0 && Empty()
      ensures done && old(Calm()) && AllQuiet(rounds, hasBrakes) ==> launched == starts0
      ensures !old(odd) && NoneOdd(rounds) ==> !odd && numActive == Occupied(running[..])
    {
      var k := 0;
      done := false;
      while k < |rounds| && !done
        invariant 0 <= k <= |rounds| && Valid() && old(attempted) <= attempted
        invariant old(Calm()) && AllQuiet(rounds, hasBrakes) ==> Calm()
        invariant !old(odd) && NoneOdd(rounds) ==> !odd
        invariant done ==> stop > 0 && Empty()
        decreases |rounds| - k
      {
        done := OneRound(rounds[k]);
        k := k + 1;
      }
      TrackedBound(numActive, kids, running[..], odd);
    }
  }

  /** A round in which no signal arrives; with brakes, a report is of a success. */
  predicate Quiet(r: Round, brakes: bool) {
    && r.signal == 0 && (forall k :: 0 <= k < |r.tries| ==> r.tries[k].signal == 0)
    && (brakes ==> r.wait.how == Exited(0))
  }

  predicate AllQuiet(rounds: seq<Round>, brakes: bool) { forall k :: 0 <= k < |rounds| ==> Quiet(rounds[k], brakes) }

  /** No child is reported as stopped, or in an unknown way. */
  predicate NoneOdd(rounds: seq<Round>) { forall k :: 0 <= k < |rounds| ==> !rounds[k].wait.how.Odd? }
}
