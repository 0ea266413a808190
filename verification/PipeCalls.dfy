/** What a whole call of `pipewrite` or `piperead` does in a run, however often it sleeps. */
module PipeCalls {
  import opened Basics
  import opened PipeRing
  import opened PipeRuns

  /** What has been appended to s. */
  function Growth(s: seq<byte>, s': seq<byte>): (bs: seq<byte>) {
    if |s| <= |s'| then s'[|s|..] else []
  }

  /** The bytes that went into the pipe in the steps of process p from moment a to moment b. */
  function Added(states: seq<State>, labels: seq<Label>, p: nat, a: nat, b: nat): (bs: seq<byte>)
    requires a <= b <= |labels| < |states|
  {
    if a == b then []
    else
      Added(states, labels, p, a, b - 1)
      + if labels[b - 1] == Act(p) then Growth(states[b - 1].accepted, states[b].accepted) else []
  }

  /** The bytes that came out of the pipe in the steps of process p from moment a to moment b. */
  function Taken(states: seq<State>, labels: seq<Label>, p: nat, a: nat, b: nat): (bs: seq<byte>)
    requires a <= b <= |labels| < |states|
  {
    if a == b then []
    else
      Taken(states, labels, p, a, b - 1)
      + if labels[b - 1] == Act(p) then Growth(states[b - 1].delivered, states[b].delivered) else []
  }

  /** From moment a to moment b process p is in one call, or has just finished it. */
  predicate OneCall(labels: seq<Label>, p: nat, t: Task, a: nat, b: nat) {
    && a < b <= |labels| && labels[a] == Start(p, t)
    && forall k :: a < k < b ==> !(labels[k].Start? && labels[k].p == p)
  }

  // ------------------------------------------------------------------
  // Whose bytes they are

  /** Bytes enter only by a writer's step and leave only by a reader's, and none is ever taken back. */
  lemma WhoMovesBytes(s: State, a: Label)
    requires Fifo(s) && Enabled(s, a)
    ensures s.accepted <= Next(s, a).accepted && s.delivered <= Next(s, a).delivered
    ensures Next(s, a).accepted != s.accepted ==> a.Act? && s.procs[a.p].Have? && s.procs[a.p].task.Write?
    ensures Next(s, a).delivered != s.delivered ==> a.Act? && s.procs[a.p].Have? && s.procs[a.p].task.Read?
  {
  }

  /** An end of the pipe is closed by `pipeclose` of that end, and never opened again. */
  lemma WhoCloses(s: State, a: Label)
    requires Fifo(s) && Enabled(s, a)
    ensures Next(s, a).writeopen <==> s.writeopen && !(a.Act? && s.procs[a.p].task == Close(true))
    ensures Next(s, a).readopen <==> s.readopen && !(a.Act? && s.procs[a.p].task == Close(false))
  {
  }

  // ------------------------------------------------------------------
  // pipewrite

  /** A process in, or past, a write of buf, of which the bytes `done` are in. */
  predicate Writing(c: Ctl, buf: seq<byte>, done: seq<byte>) {
    && done <= buf
    && (HasTask(c) ==> c.task == Write(buf, |done|))
    && (c.Leave? ==> done == buf)
  }

  lemma WriteAct(s: State, p: nat, buf: seq<byte>, done: seq<byte>, s': State)
    requires Fifo(s) && Enabled(s, Act(p)) && Writing(s.procs[p], buf, done) && s' == Next(s, Act(p))
    ensures p < |s'.procs| && Writing(s'.procs[p], buf, done + Growth(s.accepted, s'.accepted))
  {
    var j := FillTo(s.ring, s.procs[p].task);
    assert Growth(s.accepted, s'.accepted) == buf[|done|..j];
    assert done + buf[|done|..j] == buf[..j];
  }

  lemma WriteOther(s: State, a: Label, p: nat, buf: seq<byte>, done: seq<byte>, s': State)
    requires Fifo(s) && Enabled(s, a) && p < |s.procs| && Writing(s.procs[p], buf, done) && s' == Next(s, a)
    requires a != Act(p) && !(a.Start? && a.p == p)
    ensures p < |s'.procs| && Writing(s'.procs[p], buf, done)
  {
  }

  lemma CallStarts(states: seq<State>, labels: seq<Label>, p: nat, t: Task, a: nat)
    requires IsRun(states, labels) && a < |labels| && labels[a] == Start(p, t)
    ensures p < |states[a + 1].procs| && states[a + 1].procs[p] == Want(t)
    ensures Added(states, labels, p, a, a + 1) == [] && Taken(states, labels, p, a, a + 1) == []
  {
    RunKeepsFifo(states, labels, a);
    assert StepAt(states, labels, a);
  }

  lemma WriteStep(states: seq<State>, labels: seq<Label>, p: nat, buf: seq<byte>, k: nat, done: seq<byte>)
    requires IsRun(states, labels) && k < |labels| && p < |states[k].procs| && Writing(states[k].procs[p], buf, done)
    requires !(labels[k].Start? && labels[k].p == p)
    ensures p < |states[k + 1].procs|
    ensures Writing(states[k + 1].procs[p], buf,
                    done + if labels[k] == Act(p) then Growth(states[k].accepted, states[k + 1].accepted) else [])
  {
    RunKeepsFifo(states, labels, k);
    assert StepAt(states, labels, k);
    if labels[k] == Act(p) {
      WriteAct(states[k], p, buf, done, states[k + 1]);
    } else {
      WriteOther(states[k], labels[k], p, buf, done, states[k + 1]);
      assert done + [] == done;
    }
  }

  lemma {:induction false} WriteGoes(states: seq<State>, labels: seq<Label>, p: nat, buf: seq<byte>, a: nat, b: nat)
    requires IsRun(states, labels) && OneCall(labels, p, Write(buf, 0), a, b)
    ensures p < |states[b].procs| && Writing(states[b].procs[p], buf, Added(states, labels, p, a, b))
    decreases b
  {
    if b == a + 1 {
      CallStarts(states, labels, p, Write(buf, 0), a);
    } else {
      WriteGoes(states, labels, p, buf, a, b - 1);
      WriteStep(states, labels, p, buf, b - 1, Added(states, labels, p, a, b - 1));
    }
  }

  /**
   Whatever the others do and however often it sleeps, a call of `pipewrite` puts a prefix
   of its buffer into the pipe, byte by byte in order.  When it returns normally that is the
   whole buffer; it gives up only on a full pipe, when it has been killed or nobody reads.
   */
  lemma WriteIsWhole(states: seq<State>, labels: seq<Label>, p: nat, buf: seq<byte>, a: nat, b: nat)
    requires IsRun(states, labels) && OneCall(labels, p, Write(buf, 0), a, b)
    ensures Added(states, labels, p, a, b) <= buf
    ensures labels[b - 1] == Release(p) ==> Added(states, labels, p, a, b) == buf
    ensures labels[b - 1] == Act(p) && p < |states[b].procs| && states[b].procs[p].Idle? ==>
              && |Added(states, labels, p, a, b)| < |buf|
              && Good(states[b].ring) && |Window(states[b].ring)| == PIPESIZE
              && (!states[b].readopen || p in states[b].killed)
  {
    WriteGoes(states, labels, p, buf, a, b);
    RunKeepsFifo(states, labels, b - 1);
    RunKeepsFifo(states, labels, b);
    assert StepAt(states, labels, b - 1);
    if b > a + 1 {
      WriteGoes(states, labels, p, buf, a, b - 1);
      WriteEnds(states[b - 1], labels[b - 1], p, buf, Added(states, labels, p, a, b - 1));
    }
  }

  lemma WriteEnds(s: State, a: Label, p: nat, buf: seq<byte>, done: seq<byte>)
    requires Fifo(s) && Enabled(s, a) && p < |s.procs| && Writing(s.procs[p], buf, done)
    ensures a == Release(p) ==> done == buf
    ensures a == Act(p) && Next(s, a).procs[p].Idle? ==>
              && |done + Growth(s.accepted, Next(s, a).accepted)| < |buf|
              && Good(Next(s, a).ring) && |Window(Next(s, a).ring)| == PIPESIZE
              && (!Next(s, a).readopen || p in Next(s, a).killed)
  {
    if a == Act(p) {
      var j := FillTo(s.ring, s.procs[p].task);
      PutAllWindow(s.ring, buf[|done|..j]);
    }
  }

  // ------------------------------------------------------------------
  // piperead

  /** Process p copied out the bytes `got` in one step between a and b: as many of n as there were. */
  predicate CopiedOut(states: seq<State>, labels: seq<Label>, p: nat, n: nat, a: nat, b: nat, got: seq<byte>)
    requires b <= |labels| < |states|
  {
    exists k :: a < k < b && CopiedAt(states[k], labels[k], p, n, got)
  }

  /** Nothing is copied out only at the end of file. */
  predicate CopiedAt(s: State, a: Label, p: nat, n: nat, got: seq<byte>) {
    && a == Act(p) && Good(s.ring)
    && got == Window(s.ring)[..Min(n, |Window(s.ring)|)]
    && (|Window(s.ring)| == 0 ==> !s.writeopen)
  }

  /** A process in, or past, a read of n bytes. */
  predicate Reading(states: seq<State>, labels: seq<Label>, p: nat, n: nat, a: nat, b: nat)
    requires a <= b <= |labels| < |states|
  {
    && p < |states[b].procs|
    && var (c, got) := (states[b].procs[p], Taken(states, labels, p, a, b));
       && (HasTask(c) ==> c.task == Read(n))
       && (HasTask(c) && !c.Wake? ==> got == [])
       && (c.Wake? || c.Leave? || got != [] ==> CopiedOut(states, labels, p, n, a, b, got))
  }

  lemma {:induction false} ReadGoes(states: seq<State>, labels: seq<Label>, p: nat, n: nat, a: nat, b: nat)
    requires IsRun(states, labels) && OneCall(labels, p, Read(n), a, b)
    ensures Reading(states, labels, p, n, a, b)
    decreases b
  {
    if b == a + 1 {
      CallStarts(states, labels, p, Read(n), a);
    } else {
      ReadGoes(states, labels, p, n, a, b - 1);
      ReadStep(states, labels, p, n, a, b);
    }
  }

  lemma ReadStep(states: seq<State>, labels: seq<Label>, p: nat, n: nat, a: nat, b: nat)
    requires IsRun(states, labels) && a + 1 < b <= |labels| && Reading(states, labels, p, n, a, b - 1)
    requires !(labels[b - 1].Start? && labels[b - 1].p == p)
    ensures Reading(states, labels, p, n, a, b)
  {
    var s, l, got := states[b - 1], labels[b - 1], Taken(states, labels, p, a, b - 1);
    RunKeepsFifo(states, labels, b - 1);
    assert StepAt(states, labels, b - 1);
    if l == Act(p) {
      ReadAct(s, p, n, states[b]);
      var g := Growth(s.delivered, states[b].delivered);
      assert got + g == g;
    } else {
      ReadOther(s, l, p, states[b]);
      assert got + [] == got;
      StillCopied(states, labels, p, n, a, b, got);
    }
  }

  lemma ReadAct(s: State, p: nat, n: nat, s': State)
    requires Fifo(s) && Enabled(s, Act(p)) && s.procs[p] == Have(Read(n)) && s' == Next(s, Act(p))
    ensures |s'.procs| == |s.procs|
    ensures var (g, c) := (Growth(s.delivered, s'.delivered), s'.procs[p]);
            if c == Wake(Read(n)) then CopiedAt(s, Act(p), p, n, g)
            else g == [] && (c == Sleep1(Read(n)) || c == Idle)
  {
    FullAndEmpty(s.ring);
  }

  lemma ReadOther(s: State, a: Label, p: nat, s': State)
    requires Fifo(s) && Enabled(s, a) && p < |s.procs| && a != Act(p) && !(a.Start? && a.p == p)
    requires HasTask(s.procs[p]) ==> s.procs[p].task.Read?
    requires s' == Next(s, a)
    ensures |s'.procs| == |s.procs|
    ensures var (c, c') := (s.procs[p], s'.procs[p]);
            && (HasTask(c') ==> HasTask(c) && c'.task == c.task && (c'.Wake? <==> c.Wake?))
            && (c'.Leave? ==> c.Leave? || c.Wake?)
  {
  }

  lemma StillCopied(states: seq<State>, labels: seq<Label>, p: nat, n: nat, a: nat, b: nat, got: seq<byte>)
    requires 0 < b <= |labels| < |states|
    ensures CopiedOut(states, labels, p, n, a, b - 1, got) ==> CopiedOut(states, labels, p, n, a, b, got)
  {
  }

  /**
   A call of `piperead` takes its bytes out in one step: as many of the n as there are then,
   from the front of the pipe, and none only at the end of file.  That has happened when it
   returns normally.
   */
  lemma ReadIsWhole(states: seq<State>, labels: seq<Label>, p: nat, n: nat, a: nat, b: nat)
    requires IsRun(states, labels) && OneCall(labels, p, Read(n), a, b)
    ensures var got := Taken(states, labels, p, a, b);
            got != [] || labels[b - 1] == Release(p) ==> CopiedOut(states, labels, p, n, a, b, got)
  {
    ReadGoes(states, labels, p, n, a, b);
    if labels[b - 1] == Release(p) {
      RunKeepsFifo(states, labels, b - 1);
      assert StepAt(states, labels, b - 1);
      ReadGoes(states, labels, p, n, a, b - 1);
      var got := Taken(states, labels, p, a, b - 1);
      assert got + [] == got;
      StillCopied(states, labels, p, n, a, b, got);
    }
  }
}
