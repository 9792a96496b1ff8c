/**
 No deadlock and termination, for any number of requests.
 */
module ProtocolLiveness {
  import opened Options
  import opened Store
  import opened Protocol
  import opened ProtocolInvariant

  // ---- Waiting ----

  function WaitLevel(c: Call): nat {
    if c.pc.PutUser? then 2 else if c.pc.PutWallet? then 1 else 0
  }

  lemma WaitsDescend(base: Tables, s: State, i: nat, j: nat)
    requires Inv(base, s) && WaitsFor(s, i, j)
    ensures WaitLevel(s.calls[j]) < WaitLevel(s.calls[i])
    ensures !s.calls[j].pc.Finished?
  {
    assert CallOk(base, s, s.calls[i]) && CallOk(base, s, s.calls[j]);
  }

  // In reachable states a request waits only for its own keys: the email it is
  // about to insert, or the user its wallet is for. Drawn ids never collide.
  lemma WaitsForItsKey(base: Tables, s: State, i: nat, j: nat)
    requires Inv(base, s) && i < |s.calls| && j < |s.calls| && i != j
    ensures var c, d := s.calls[i], s.calls[j];
            WaitsFor(s, i, j) <==>
              || (c.pc.PutUser? && c.req.CreateUser? && exists u :: u in d.writes.users && u.email == c.req.email)
              || (c.pc.PutWallet? && c.req.CreateWallet?
                  && exists w :: w in d.writes.wallets && w.userId == c.req.userId)
              || (c.pc.PutWallet? && c.req.CreateUser? && c.uid.Some?
                  && exists w :: w in d.writes.wallets && w.userId == c.uid.value)
  {
    var c, d := s.calls[i], s.calls[j];
    assert CallOk(base, s, c) && CallOk(base, s, d) && Apart(c, d);
  }

  // A waiting request holds no wallet row. It holds a user row exactly when it
  // is a CreateUser whose wallet key a CreateWallet entered first, and that
  // CreateWallet waits for nobody.
  lemma WhatWaitersHold(base: Tables, s: State, i: nat, j: nat)
    requires Inv(base, s) && WaitsFor(s, i, j)
    ensures s.calls[i].writes.wallets == []
    ensures s.calls[i].writes.users != [] <==> s.calls[i].req.CreateUser? && s.calls[j].req.CreateWallet?
    ensures s.calls[i].writes.users != [] ==> !Blocked(s, j)
  {
    var c, d := s.calls[i], s.calls[j];
    assert CallOk(base, s, c) && CallOk(base, s, d) && Apart(c, d);
    if c.pc.PutWallet? {
      assert d.writes.wallets == [WalletRow(d)];
    } else {
      assert d.writes.users == [UserRow(d)];
    }
  }

  ghost predicate WaitChain(s: State, chain: seq<nat>) {
    forall k :: 0 <= k < |chain| - 1 ==> WaitsFor(s, chain[k], chain[k + 1])
  }

  lemma TailIsChain(s: State, chain: seq<nat>)
    requires WaitChain(s, chain) && chain != []
    ensures WaitChain(s, chain[1..])
  {
    forall k | 0 <= k < |chain[1..]| - 1 ensures WaitsFor(s, chain[1..][k], chain[1..][k + 1]) {
      assert WaitsFor(s, chain[k + 1], chain[k + 2]);
    }
  }

  lemma {:induction false} ChainDescends(base: Tables, s: State, chain: seq<nat>)
    requires Inv(base, s) && |chain| >= 2 && WaitChain(s, chain)
    ensures chain[0] < |s.calls| && chain[|chain| - 1] < |s.calls|
    ensures WaitLevel(s.calls[chain[|chain| - 1]]) + |chain| - 1 <= WaitLevel(s.calls[chain[0]])
  {
    assert WaitsFor(s, chain[0], chain[1]);
    WaitsDescend(base, s, chain[0], chain[1]);
    if |chain| > 2 {
      TailIsChain(s, chain);
      ChainDescends(base, s, chain[1..]);
    }
  }

  // The waits-for graph has no cycle, and no chain of waiting is longer than two.
  lemma NoWaitCycle(base: Tables, s0: State, run: seq<Label>, chain: seq<nat>)
    requires Init(base, s0) && IsRun(s0, run)
    requires |chain| >= 2 && WaitChain(After(s0, run), chain)
    ensures chain[0] != chain[|chain| - 1] && |chain| <= 3
  {
    InitEstablishesInv(base, s0);
    RunKeepsInv(base, s0, run);
    ChainDescends(base, After(s0, run), chain);
  }

  // A request that waits need not wait for ever: its statement can be cancelled,
  // and a writing request is then answered with the driver's error.
  lemma WaitCanBeCancelled(base: Tables, s: State, i: nat)
    requires Inv(base, s) && i < |s.calls| && !s.calls[i].pc.Finished?
    ensures CanStep(s, Label(i, true))
    ensures Blocked(s, i) ==>
              var c' := Step(s, Label(i, true)).calls[i];
              c'.pc.Rollback? && c'.reply == Some(Failed(DatabaseError))
  {
    assert CallOk(base, s, s.calls[i]);
  }

  // ---- Progress ----

  ghost predicate AllFinished(s: State) {
    forall i :: 0 <= i < |s.calls| ==> s.calls[i].pc.Finished?
  }

  // From an unfinished request, follow the waits to one that can move.
  lemma FindMover(base: Tables, s: State, i: nat) returns (j: nat)
    requires Inv(base, s) && i < |s.calls| && !s.calls[i].pc.Finished?
    ensures CanStep(s, Label(j, false))
    decreases WaitLevel(s.calls[i])
  {
    j := i;
    if Blocked(s, i) {
      var k: nat :| k < |s.calls| && WaitsFor(s, i, k);
      WaitsDescend(base, s, i, k);
      j := FindMover(base, s, k);
    }
  }

  // ---- Termination ----

  function Rank(pc: Pc): nat {
    match pc
    case Start => 8
    case Check => 7
    case DrawUser => 6
    case PutUser => 5
    case DrawWallet => 4
    case PutWallet => 3
    case RefCheck => 2
    case Commit => 1
    case Rollback => 1
    case ReadWallet => 1
    case Finished => 0
  }

  function Work(calls: seq<Call>): nat {
    if calls == [] then 0 else Rank(calls[0].pc) + Work(calls[1..])
  }

  lemma {:induction false} WorkUpdate(calls: seq<Call>, i: nat, c: Call)
    requires i < |calls|
    ensures Work(calls[i := c]) == Work(calls) - Rank(calls[i].pc) + Rank(c.pc)
  {
    if i > 0 {
      assert calls[i := c][1..] == calls[1..][i - 1 := c];
      WorkUpdate(calls[1..], i - 1, c);
    } else {
      assert calls[i := c][1..] == calls[1..];
    }
  }

  lemma {:induction false} WorkBound(calls: seq<Call>)
    ensures Work(calls) <= 8 * |calls|
  {
    if calls != [] {
      WorkBound(calls[1..]);
    }
  }

  lemma RankDrops(s: State, c: Call, fault: bool)
    requires !c.pc.Finished?
    ensures Rank(NextCall(s, c, fault).pc) < Rank(c.pc)
  {
  }

  // Every step, faulty or not, uses up work.
  lemma StepDescends(s: State, l: Label)
    requires CanStep(s, l)
    ensures Work(Step(s, l).calls) < Work(s.calls)
  {
    RankDrops(s, s.calls[l.call], l.fault);
    WorkUpdate(s.calls, l.call, Step(s, l).calls[l.call]);
  }

  lemma {:induction false} RunDescends(s: State, run: seq<Label>)
    requires IsRun(s, run)
    ensures Work(After(s, run).calls) + |run| <= Work(s.calls)
    decreases |run|
  {
    if run != [] {
      StepDescends(s, run[0]);
      RunDescends(Step(s, run[0]), run[1..]);
    }
  }

  // A run of n requests has at most 8n steps, and one that can go no further
  // without a fault has answered every request.
  lemma RunsEnd(base: Tables, s0: State, run: seq<Label>)
    requires Init(base, s0) && IsRun(s0, run)
    ensures |run| <= 8 * |s0.calls|
    ensures AllFinished(After(s0, run)) || exists i :: CanStep(After(s0, run), Label(i, false))
  {
    var s := After(s0, run);
    InitEstablishesInv(base, s0);
    RunKeepsInv(base, s0, run);
    RunDescends(s0, run);
    WorkBound(s0.calls);
    if !AllFinished(s) {
      var i :| 0 <= i < |s.calls| && !s.calls[i].pc.Finished?;
      var j := FindMover(base, s, i);
    }
  }

  // A run without faults that answers every request.
  ghost predicate Completes(s: State, rest: seq<Label>) {
    IsRun(s, rest) && AllFinished(After(s, rest)) && forall k :: 0 <= k < |rest| ==> !rest[k].fault
  }

  lemma CompletesCons(s: State, l: Label, tail: seq<Label>)
    requires CanStep(s, l) && !l.fault && Completes(Step(s, l), tail)
    ensures Completes(s, [l] + tail)
  {
    RunCons(s, l, tail);
  }

  lemma Advance(base: Tables, s: State) returns (l: Label)
    requires Inv(base, s) && !AllFinished(s)
    ensures CanStep(s, l) && !l.fault && Inv(base, Step(s, l)) && Work(Step(s, l).calls) < Work(s.calls)
  {
    var i :| 0 <= i < |s.calls| && !s.calls[i].pc.Finished?;
    var j := FindMover(base, s, i);
    l := Label(j, false);
    StepKeepsInv(base, s, l);
    StepDescends(s, l);
  }

  // From any reachable state, faults or not so far, the requests in flight can
  // all be answered with no further fault.
  lemma {:induction false} CanAlwaysComplete(base: Tables, s: State) returns (rest: seq<Label>)
    requires Inv(base, s)
    ensures Completes(s, rest)
    decreases Work(s.calls)
  {
    if AllFinished(s) {
      rest := [];
    } else {
      var l := Advance(base, s);
      var tail := CanAlwaysComplete(base, Step(s, l));
      CompletesCons(s, l, tail);
      rest := [l] + tail;
    }
  }
}
