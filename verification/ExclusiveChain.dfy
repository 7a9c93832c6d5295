/**
 The promise chain that serialises discoveries in apps/goose-extension/src/activation.ts: every accepted
 job waits for the one that was last when it came, whether that one succeeds or fails.
 */
module ExclusiveChain {

  const MAX_QUEUED := 16

  datatype Phase = Waiting | Running | Settled(ok: bool)

  /** The job each job waits for (-1 for none), its phase, the last job, and the counter of the source. */
  datatype Chain = Chain(after: seq<int>, phases: seq<Phase>, tail: int, queued: int)

  class Exclusive {
    var queued: int
    var tail: int
    ghost var chain: Chain

    ghost predicate Valid()
      reads this
    {
      chain.queued == queued && chain.tail == tail && Inv(chain)
    }

    constructor ()
      ensures Valid() && chain == Chain([], [], -1, 0)
    {
      queued, tail := 0, -1;
      chain := Chain([], [], -1, 0);
    }

    /** The job's number, or -1 when it is refused as "busy". */
    method Submit() returns (job: int)
      requires Valid()
      modifies this
      ensures Valid()
      ensures Unsettled(old(chain).phases) >= MAX_QUEUED ==> job == -1 && chain == old(chain)
      ensures Unsettled(old(chain).phases) < MAX_QUEUED ==> job == |old(chain).phases| && Accept(old(chain), chain)
    {
      if queued >= MAX_QUEUED { return -1; }
      job := tail + 1;
      AcceptKeepsInv(chain, Chain(chain.after + [tail], chain.phases + [Waiting], job, queued + 1));
      chain := Chain(chain.after + [tail], chain.phases + [Waiting], job, queued + 1);
      queued, tail := queued + 1, job;
    }

    /** The awaited job has settled: this one runs. */
    method Start(job: int)
      requires Valid() && CanStart(chain, job)
      modifies this`chain
      ensures Valid() && Begin(old(chain), chain, job)
    {
      BeginKeepsInv(chain, chain.(phases := chain.phases[job := Running]), job);
      chain := chain.(phases := chain.phases[job := Running]);
    }

    method Settle(job: int, ok: bool)
      requires Valid() && 0 <= job < |chain.phases| && chain.phases[job] == Running
      modifies this
      ensures Valid() && End(old(chain), chain, job, ok)
    {
      EndKeepsInv(chain, chain.(phases := chain.phases[job := Settled(ok)], queued := queued - 1), job, ok);
      chain := chain.(phases := chain.phases[job := Settled(ok)], queued := queued - 1);
      queued := queued - 1;
    }
  }

  function Unsettled(phases: seq<Phase>): nat {
    if phases == [] then 0 else (if phases[0].Settled? then 0 else 1) + Unsettled(phases[1..])
  }

  ghost predicate Accept(c: Chain, d: Chain) {
    d == Chain(c.after + [c.tail], c.phases + [Waiting], |c.phases|, c.queued + 1) && c.queued < MAX_QUEUED
  }

  ghost predicate CanStart(c: Chain, job: int) {
    0 <= job < |c.phases| && |c.after| == |c.phases| && c.phases[job] == Waiting &&
    (c.after[job] == -1 || (0 <= c.after[job] < |c.phases| && c.phases[c.after[job]].Settled?))
  }

  ghost predicate Begin(c: Chain, d: Chain, job: int) {
    CanStart(c, job) && d == c.(phases := c.phases[job := Running])
  }

  ghost predicate End(c: Chain, d: Chain, job: int, ok: bool) {
    0 <= job < |c.phases| && c.phases[job] == Running
    && d == c.(phases := c.phases[job := Settled(ok)], queued := c.queued - 1)
  }

  ghost predicate Step(c: Chain, d: Chain) {
    Accept(c, d) || (exists job :: Begin(c, d, job)) || (exists job, ok :: End(c, d, job, ok))
  }

  ghost predicate Run(run: seq<Chain>) {
    run != [] && run[0] == Chain([], [], -1, 0) && forall i :: 0 <= i < |run| - 1 ==> Step(run[i], run[i + 1])
  }

  /** Jobs wait for their predecessor, so all before a started job have settled. */
  ghost predicate Inv(c: Chain) {
    |c.after| == |c.phases| && c.tail == |c.phases| - 1
    && (forall i :: 0 <= i < |c.after| ==> c.after[i] == i - 1)
    && (forall i, j :: 0 <= i < j < |c.phases| && c.phases[j] != Waiting ==> c.phases[i].Settled?)
    && c.queued == Unsettled(c.phases) <= MAX_QUEUED
  }

  lemma {:induction false} UnsettledAfter(phases: seq<Phase>, i: int, p: Phase)
    requires 0 <= i < |phases|
    ensures Unsettled(phases[i := p])
         == Unsettled(phases) - (if phases[i].Settled? then 0 else 1) + (if p.Settled? then 0 else 1)
  {
    if i == 0 {
      assert phases[i := p][1..] == phases[1..];
    } else {
      UnsettledAfter(phases[1..], i - 1, p);
      assert phases[i := p][1..] == phases[1..][i - 1 := p];
    }
  }

  lemma {:induction false} UnsettledAppended(phases: seq<Phase>)
    ensures Unsettled(phases + [Waiting]) == Unsettled(phases) + 1
  {
    if phases == [] {
      assert phases + [Waiting] == [Waiting];
    } else {
      UnsettledAppended(phases[1..]);
      assert (phases + [Waiting])[1..] == phases[1..] + [Waiting];
    }
  }

  lemma AcceptKeepsInv(c: Chain, d: Chain)
    requires Inv(c) && Accept(c, d)
    ensures Inv(d)
  {
    UnsettledAppended(c.phases);
  }

  lemma BeginKeepsInv(c: Chain, d: Chain, job: int)
    requires Inv(c) && Begin(c, d, job)
    ensures Inv(d)
  {
    UnsettledAfter(c.phases, job, Running);
  }

  lemma EndKeepsInv(c: Chain, d: Chain, job: int, ok: bool)
    requires Inv(c) && End(c, d, job, ok)
    ensures Inv(d)
  {
    UnsettledAfter(c.phases, job, Settled(ok));
  }

  lemma {:induction false} RunsKeepInv(run: seq<Chain>)
    requires Run(run)
    ensures Inv(run[|run| - 1])
    decreases |run|
  {
    if |run| > 1 {
      RunsKeepInv(run[..|run| - 1]);
      var c, d := run[|run| - 2], run[|run| - 1];
      assert Step(run[|run| - 2], run[|run| - 2 + 1]);
      if Accept(c, d) {
        AcceptKeepsInv(c, d);
      } else if job :| Begin(c, d, job) {
        BeginKeepsInv(c, d, job);
      } else {
        var job, ok :| End(c, d, job, ok);
        EndKeepsInv(c, d, job, ok);
      }
    }
  }

  /** In every run at most one job runs at a time, jobs start in the order they came, and a failed job holds up nobody. */
  lemma OneJobAtATimeInOrder(run: seq<Chain>)
    requires Run(run)
    ensures var c := run[|run| - 1];
            && (forall i, j :: 0 <= i < |c.phases| && 0 <= j < |c.phases| && c.phases[i] == c.phases[j] == Running ==> i == j)
            && (forall i, j :: 0 <= i < j < |c.phases| && c.phases[j] != Waiting ==> c.phases[i].Settled?)
            && (Unsettled(c.phases) > 0 ==> exists job :: 0 <= job < |c.phases| && (c.phases[job] == Running || CanStart(c, job)))
  {
    RunsKeepInv(run);
    var c := run[|run| - 1];
    if Unsettled(c.phases) > 0 {
      var job := FirstUnsettled(c.phases);
      assert c.after[job] == job - 1;
      assert c.phases[job] == Running || CanStart(c, job);
    }
  }

  lemma {:induction false} FirstUnsettled(phases: seq<Phase>) returns (job: int)
    requires Unsettled(phases) > 0
    ensures 0 <= job < |phases| && !phases[job].Settled? && forall i :: 0 <= i < job ==> phases[i].Settled?
  {
    if !phases[0].Settled? {
      job := 0;
    } else {
      job := FirstUnsettled(phases[1..]);
      job := job + 1;
    }
  }

  ghost predicate Path(path: seq<Chain>) {
    path != [] && forall i :: 0 <= i < |path| - 1 ==> Step(path[i], path[i + 1])
  }

  /** The job that is next either runs, and can settle, or can start. */
  lemma NextTurn(c: Chain) returns (d: Chain)
    requires Inv(c) && Unsettled(c.phases) > 0
    ensures Step(c, d) && Inv(d) && |d.phases| == |c.phases|
    ensures Unsettled(d.phases) < Unsettled(c.phases) || (Unsettled(d.phases) == Unsettled(c.phases) && Running in d.phases && Running !in c.phases)
  {
    var job := FirstUnsettled(c.phases);
    if c.phases[job] == Running {
      d := c.(phases := c.phases[job := Settled(true)], queued := c.queued - 1);
      assert End(c, d, job, true);
      EndKeepsInv(c, d, job, true);
      UnsettledAfter(c.phases, job, Settled(true));
    } else {
      d := c.(phases := c.phases[job := Running]);
      assert Begin(c, d, job);
      BeginKeepsInv(c, d, job);
      UnsettledAfter(c.phases, job, Running);
      assert d.phases[job] == Running;
      assert Running !in c.phases;
    }
  }

  /** No job is held up for ever: starts and settlements alone settle every accepted job. */
  lemma {:induction false} EveryJobSettles(c: Chain) returns (path: seq<Chain>)
    requires Inv(c)
    ensures Path(path) && path[0] == c
    ensures var end := path[|path| - 1]; |end.phases| == |c.phases| && forall i :: 0 <= i < |end.phases| ==> end.phases[i].Settled?
    decreases Unsettled(c.phases), Running !in c.phases
  {
    if Unsettled(c.phases) == 0 {
      path := [c];
      AllSettled(c.phases);
    } else {
      var d := NextTurn(c);
      var rest := EveryJobSettles(d);
      path := [c] + rest;
      forall i | 0 <= i < |path| - 1 ensures Step(path[i], path[i + 1]) {
        if i > 0 { assert Step(rest[i - 1], rest[i - 1 + 1]); }
      }
    }
  }

  lemma {:induction false} AllSettled(phases: seq<Phase>)
    requires Unsettled(phases) == 0
    ensures forall i :: 0 <= i < |phases| ==> phases[i].Settled?
  {
    if phases != [] {
      AllSettled(phases[1..]);
      assert forall i :: 1 <= i < |phases| ==> phases[i] == phases[1..][i - 1];
    }
  }
}
