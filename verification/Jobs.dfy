/** services/jobs.py, the thread-pool backend: _run writes a shared Job one field at a time while any
    number of pollers read it one field at a time, in the order as_dict evaluates them. */
module Jobs {
  import opened Base

  datatype JobState = Pending | Running | Completed | Failed

  /** What the submitted function does. Its value may be None. An exception outside Exception, such
      as a thread kill, is not caught. */
  datatype Outcome = Returns(value: Option<string>) | Raises(message: string) | Dies

  /** The next write of _run: the state, a timestamp, the outcome's field, the final state, a
      timestamp. */
  datatype Pc = ToStart | ToStamp | ToCall | ToComplete | ToFail | ToClose | Closed

  datatype Job = Job(state: JobState, result: Option<string>, error: Option<string>, stamps: nat,
      outcome: Outcome, pc: Pc)

  /** A poll of a job found by get: about to read the state, the result, the error. */
  datatype Poll =
    | Found(id: nat)
    | StateRead(id: nat, state: JobState)
    | ResultRead(id: nat, state: JobState, result: Option<string>)

  datatype Snapshot = Snapshot(id: nat, state: JobState, result: Option<string>, error: Option<string>)

  datatype Reading = Reading(id: nat, state: JobState)

  datatype State = State(
    jobs: map<nat, Job>,
    polls: map<nat, Poll>,
    readings: seq<Reading>,   // every read of a state field, in the order they happen
    snapshots: seq<Snapshot>) // every completed as_dict

  datatype Step =
    | Submit(id: nat, outcome: Outcome) // ids are fresh
    | Advance(id: nat)
    | Get(p: nat, id: nat)
    | ReadState(p: nat)
    | ReadResult(p: nat)
    | ReadError(p: nat)

  /** _run's next field write. */
  function Write(j: Job): Job {
    match j.pc
    case ToStart => j.(state := Running, pc := ToStamp)
    case ToStamp => j.(stamps := j.stamps + 1, pc := ToCall)
    case ToCall =>
      (match j.outcome
       case Returns(v) => j.(result := v, pc := ToComplete)
       case Raises(m) => j.(error := Some(m), pc := ToFail)
       case Dies => j.(pc := ToClose))
    case ToComplete => j.(state := Completed, pc := ToClose)
    case ToFail => j.(state := Failed, pc := ToClose)
    case ToClose => j.(stamps := j.stamps + 1, pc := Closed)
    case Closed => j
  }

  /** One step; a step that is not enabled changes nothing. */
  function Apply(s: State, step: Step): State {
    match step
    case Submit(id, outcome) =>
      if id in s.jobs then s else s.(jobs := s.jobs[id := Job(Pending, None, None, 0, outcome, ToStart)])
    case Advance(id) => if id in s.jobs then s.(jobs := s.jobs[id := Write(s.jobs[id])]) else s
    case Get(p, id) => if id in s.jobs then s.(polls := s.polls[p := Found(id)]) else s
    case ReadState(p) =>
      if p in s.polls && s.polls[p].Found? && s.polls[p].id in s.jobs then
        var id := s.polls[p].id;
        s.(polls := s.polls[p := StateRead(id, s.jobs[id].state)],
           readings := s.readings + [Reading(id, s.jobs[id].state)])
      else s
    case ReadResult(p) =>
      if p in s.polls && s.polls[p].StateRead? && s.polls[p].id in s.jobs then
        s.(polls := s.polls[p := ResultRead(s.polls[p].id, s.polls[p].state, s.jobs[s.polls[p].id].result)])
      else s
    case ReadError(p) =>
      if p in s.polls && s.polls[p].ResultRead? && s.polls[p].id in s.jobs then
        var poll := s.polls[p];
        s.(polls := s.polls - {p},
           snapshots := s.snapshots + [Snapshot(poll.id, poll.state, poll.result, s.jobs[poll.id].error)])
      else s
  }

  function Run(steps: seq<Step>): State {
    if steps == [] then State(map[], map[], [], []) else Apply(Run(steps[..|steps| - 1]), steps[|steps| - 1])
  }

  /** The order in which states may be seen: pending, running, then one terminal state for good. */
  ghost predicate NotAfter(a: JobState, b: JobState) {
    a == b || a.Pending? || (a.Running? && (b.Completed? || b.Failed?))
  }

  /** What the fields of a job say at each point of _run. */
  ghost predicate JobFits(j: Job) {
    match j.pc
    case ToStart => j.state.Pending? && j.result.None? && j.error.None?
    case ToStamp => j.state.Running? && j.result.None? && j.error.None?
    case ToCall => j.state.Running? && j.result.None? && j.error.None?
    case ToComplete => j.state.Running? && j.outcome == Returns(j.result) && j.error.None?
    case ToFail => j.state.Running? && j.error.Some? && j.outcome == Raises(j.error.value) && j.result.None?
    case _ => Settled(j.state, j.result, j.error, j.outcome)
  }

  /** A finished outcome as the fields must show it. */
  ghost predicate Settled(state: JobState, result: Option<string>, error: Option<string>, outcome: Outcome) {
    match outcome
    case Returns(v) => state.Completed? && result == v && error.None?
    case Raises(m) => state.Failed? && result.None? && error == Some(m)
    case Dies => state.Running? && result.None? && error.None?
  }

  /** A half-read poll that saw a terminal state has seen the job's final fields so far. */
  ghost predicate PollFits(p: Poll, jobs: map<nat, Job>) {
    p.id in jobs &&
    var j := jobs[p.id];
    match p
    case Found(_) => true
    case StateRead(_, state) => NotAfter(state, j.state)
    case ResultRead(_, state, result) =>
      NotAfter(state, j.state) && (state.Completed? || state.Failed? ==> result == j.result)
  }

  ghost predicate SnapshotFits(snap: Snapshot, jobs: map<nat, Job>) {
    snap.id in jobs &&
    (snap.state.Completed? || snap.state.Failed? ==>
       Settled(snap.state, snap.result, snap.error, jobs[snap.id].outcome))
  }

  ghost predicate Inv(s: State) {
    && (forall id :: id in s.jobs ==> JobFits(s.jobs[id]))
    && (forall p :: p in s.polls ==> PollFits(s.polls[p], s.jobs))
    && (forall i :: 0 <= i < |s.snapshots| ==> SnapshotFits(s.snapshots[i], s.jobs))
    && (forall i :: 0 <= i < |s.readings| ==>
          && s.readings[i].id in s.jobs
          && NotAfter(s.readings[i].state, s.jobs[s.readings[i].id].state))
    && (forall i, j :: 0 <= i < j < |s.readings| && s.readings[i].id == s.readings[j].id ==>
          NotAfter(s.readings[i].state, s.readings[j].state))
  }

  /** A write keeps the outcome, moves the state forward, and touches nothing of a finished job's
      result or error. */
  lemma WriteFits(j: Job)
    requires JobFits(j)
    ensures var j' := Write(j);
      && JobFits(j') && j'.outcome == j.outcome && NotAfter(j.state, j'.state)
      && (j.state.Completed? || j.state.Failed? ==> j'.state == j.state && j'.result == j.result && j'.error == j.error)
  {
  }

  lemma {:induction false} AdvanceKeepsInv(s: State, id: nat)
    requires Inv(s) && id in s.jobs
    ensures Inv(Apply(s, Advance(id)))
  {
    var s' := Apply(s, Advance(id));
    WriteFits(s.jobs[id]);
    forall p | p in s'.polls
      ensures PollFits(s'.polls[p], s'.jobs)
    {
      assert PollFits(s.polls[p], s.jobs);
    }
    forall i | 0 <= i < |s'.snapshots|
      ensures SnapshotFits(s'.snapshots[i], s'.jobs)
    {
      assert SnapshotFits(s.snapshots[i], s.jobs);
    }
  }

  lemma {:induction false} StepKeepsInv(s: State, step: Step)
    requires Inv(s)
    ensures Inv(Apply(s, step))
  {
    match step
    case Advance(id) =>
      if id in s.jobs {
        AdvanceKeepsInv(s, id);
      }
    case ReadError(p) =>
      if p in s.polls && s.polls[p].ResultRead? {
        assert PollFits(s.polls[p], s.jobs);
        assert JobFits(s.jobs[s.polls[p].id]);
      }
    case _ =>
  }

  lemma {:induction false} RunKeepsInv(steps: seq<Step>)
    ensures Inv(Run(steps))
  {
    if steps != [] {
      RunKeepsInv(steps[..|steps| - 1]);
      StepKeepsInv(Run(steps[..|steps| - 1]), steps[|steps| - 1]);
    }
  }

  /** Main result: for every interleaving, a snapshot that says completed carries the function's
      value and no error, and one that says failed carries the exception's message and no result. */
  lemma {:induction false} SnapshotsAreWhole(steps: seq<Step>, i: nat)
    requires i < |Run(steps).snapshots|
    ensures var snap := Run(steps).snapshots[i];
      && snap.id in Run(steps).jobs
      && var outcome := Run(steps).jobs[snap.id].outcome;
      && (snap.state.Completed? ==> outcome == Returns(snap.result) && snap.error.None?)
      && (snap.state.Failed? ==> snap.error.Some? && outcome == Raises(snap.error.value) && snap.result.None?)
  {
    RunKeepsInv(steps);
    assert SnapshotFits(Run(steps).snapshots[i], Run(steps).jobs);
  }

  /** Main result: successive reads of one job's state, by any pollers, only move from pending to
      running to one terminal state. */
  lemma {:induction false} StatesOnlyMoveForward(steps: seq<Step>, i: nat, j: nat)
    requires i < j < |Run(steps).readings| && Run(steps).readings[i].id == Run(steps).readings[j].id
    ensures NotAfter(Run(steps).readings[i].state, Run(steps).readings[j].state)
  {
    RunKeepsInv(steps);
  }

  /** A submitted id is found by every later get, and stays tied to the same function. */
  lemma {:induction false} SubmittedJobsStayKnown(steps: seq<Step>, more: seq<Step>, id: nat, p: nat)
    requires id in Run(steps).jobs
    ensures var s := Run(steps + more);
      && id in s.jobs && s.jobs[id].outcome == Run(steps).jobs[id].outcome
      && p in Apply(s, Get(p, id)).polls && Apply(s, Get(p, id)).polls[p] == Found(id)
    decreases |more|
  {
    if more == [] {
      assert steps + more == steps;
    } else {
      var all := steps + more;
      assert all[..|all| - 1] == steps + more[..|more| - 1];
      SubmittedJobsStayKnown(steps, more[..|more| - 1], id, p);
    }
  }

  // ---------------------------------------------------------------------------------------------
  // A poll reports what it found.
  // ---------------------------------------------------------------------------------------------

  /** No step of poller p. */
  ghost predicate NoStepOf(steps: seq<Step>, p: nat) {
    forall i :: 0 <= i < |steps| ==> steps[i].Submit? || steps[i].Advance? || steps[i].p != p
  }

  lemma {:induction false} RunSnoc(steps: seq<Step>, step: Step)
    ensures Run(steps + [step]) == Apply(Run(steps), step)
  {
    assert (steps + [step])[..|steps|] == steps;
  }

  /** Steps of others leave a poll where it was. */
  lemma {:induction false} OthersKeepPoll(steps: seq<Step>, others: seq<Step>, p: nat)
    requires NoStepOf(others, p) && p in Run(steps).polls
    ensures p in Run(steps + others).polls && Run(steps + others).polls[p] == Run(steps).polls[p]
    decreases |others|
  {
    if others == [] {
      assert steps + others == steps;
    } else {
      var init, step := others[..|others| - 1], others[|others| - 1];
      OthersKeepPoll(steps, init, p);
      RunSnoc(steps + init, step);
      assert steps + init + [step] == steps + others;
    }
  }

  /** A job only moves forward, and not at all once it is closed. */
  lemma {:induction false} JobsMoveForward(steps: seq<Step>, more: seq<Step>, id: nat)
    requires id in Run(steps).jobs
    ensures var before, after := Run(steps).jobs[id], Run(steps + more).jobs;
      && id in after && NotAfter(before.state, after[id].state) && after[id].outcome == before.outcome
      && (before.pc.Closed? ==> after[id] == before)
    decreases |more|
  {
    if more == [] {
      assert steps + more == steps;
    } else {
      var init, step := more[..|more| - 1], more[|more| - 1];
      JobsMoveForward(steps, init, id);
      RunSnoc(steps + init, step);
      assert steps + init + [step] == steps + more;
      RunKeepsInv(steps + init);
      WriteFits(Run(steps + init).jobs[id]);
    }
  }

  function FieldsOf(steps: seq<Step>, id: nat): Job
    requires id in Run(steps).jobs
  {
    Run(steps).jobs[id]
  }

  /** The steps of one poll with others in between, up to each of its reads. */
  function UpToState(steps: seq<Step>, p: nat, id: nat, a: seq<Step>): seq<Step> { steps + [Get(p, id)] + a }

  function UpToResult(steps: seq<Step>, p: nat, id: nat, a: seq<Step>, b: seq<Step>): seq<Step> {
    UpToState(steps, p, id, a) + [ReadState(p)] + b
  }

  function UpToError(steps: seq<Step>, p: nat, id: nat, a: seq<Step>, b: seq<Step>, c: seq<Step>): seq<Step> {
    UpToResult(steps, p, id, a, b) + [ReadResult(p)] + c
  }

  lemma {:induction false} FieldsMoveForward(steps: seq<Step>, p: nat, id: nat, a: seq<Step>, b: seq<Step>,
      c: seq<Step>)
    requires id in Run(steps).jobs
    ensures id in Run(UpToState(steps, p, id, a)).jobs
    ensures id in Run(UpToResult(steps, p, id, a, b)).jobs
    ensures id in Run(UpToError(steps, p, id, a, b, c)).jobs
    ensures NotAfter(FieldsOf(steps, id).state, FieldsOf(UpToState(steps, p, id, a), id).state)
    ensures FieldsOf(steps, id).pc.Closed? ==>
              && FieldsOf(UpToState(steps, p, id, a), id) == FieldsOf(steps, id)
              && FieldsOf(UpToResult(steps, p, id, a, b), id) == FieldsOf(steps, id)
              && FieldsOf(UpToError(steps, p, id, a, b, c), id) == FieldsOf(steps, id)
  {
    JobsMoveForward(steps, [Get(p, id)] + a, id);
    assert steps + ([Get(p, id)] + a) == UpToState(steps, p, id, a);
    JobsMoveForward(UpToState(steps, p, id, a), [ReadState(p)] + b, id);
    assert UpToState(steps, p, id, a) + ([ReadState(p)] + b) == UpToResult(steps, p, id, a, b);
    JobsMoveForward(UpToResult(steps, p, id, a, b), [ReadResult(p)] + c, id);
    assert UpToResult(steps, p, id, a, b) + ([ReadResult(p)] + c) == UpToError(steps, p, id, a, b, c);
  }

  /** Whatever happens in between, a poll adds one snapshot, with the state, the result and the error the
      job's fields hold when each is read. */
  lemma {:induction false} PollReadsTheFields(steps: seq<Step>, p: nat, id: nat, a: seq<Step>, b: seq<Step>,
      c: seq<Step>)
    requires id in Run(steps).jobs && NoStepOf(a, p) && NoStepOf(b, p) && NoStepOf(c, p)
    ensures id in Run(UpToState(steps, p, id, a)).jobs
    ensures id in Run(UpToResult(steps, p, id, a, b)).jobs
    ensures id in Run(UpToError(steps, p, id, a, b, c)).jobs
    ensures Run(UpToError(steps, p, id, a, b, c) + [ReadError(p)]).snapshots
         == Run(UpToError(steps, p, id, a, b, c)).snapshots
            + [Snapshot(id, FieldsOf(UpToState(steps, p, id, a), id).state,
                        FieldsOf(UpToResult(steps, p, id, a, b), id).result,
                        FieldsOf(UpToError(steps, p, id, a, b, c), id).error)]
  {
    FieldsMoveForward(steps, p, id, a, b, c);
    var x, y, z := UpToState(steps, p, id, a), UpToResult(steps, p, id, a, b), UpToError(steps, p, id, a, b, c);
    RunSnoc(steps, Get(p, id));
    OthersKeepPoll(steps + [Get(p, id)], a, p);
    RunSnoc(x, ReadState(p));
    OthersKeepPoll(x + [ReadState(p)], b, p);
    RunSnoc(y, ReadResult(p));
    OthersKeepPoll(y + [ReadResult(p)], c, p);
    RunSnoc(z, ReadError(p));
  }

  /** Main result: a poll's state is not before the job's when the poll began, and a poll begun on a
      finished job reports its outcome. */
  lemma {:induction false} PollsAreCurrent(steps: seq<Step>, p: nat, id: nat, a: seq<Step>, b: seq<Step>, c: seq<Step>)
    requires id in Run(steps).jobs && NoStepOf(a, p) && NoStepOf(b, p) && NoStepOf(c, p)
    ensures var z := UpToError(steps, p, id, a, b, c);
      var old', new' := Run(z).snapshots, Run(z + [ReadError(p)]).snapshots;
      && |new'| == |old'| + 1
      && var snap, job := new'[|old'|], Run(steps).jobs[id];
         && snap.id == id && NotAfter(job.state, snap.state)
         && (job.pc.Closed? ==> Settled(snap.state, snap.result, snap.error, job.outcome))
  {
    PollReadsTheFields(steps, p, id, a, b, c);
    FieldsMoveForward(steps, p, id, a, b, c);
    RunKeepsInv(steps);
    assert JobFits(FieldsOf(steps, id));
  }

  // ---------------------------------------------------------------------------------------------
  // One job run to its end, in place.
  // ---------------------------------------------------------------------------------------------

  function WritesLeft(pc: Pc): nat {
    match pc
    case ToStart => 5
    case ToStamp => 4
    case ToCall => 3
    case ToComplete => 2
    case ToFail => 2
    case ToClose => 1
    case Closed => 0
  }

  function Finish(j: Job): Job
    decreases WritesLeft(j.pc)
  {
    if j.pc.Closed? then j else Finish(Write(j))
  }

  /** Left to run, every job ends with its outcome in place. */
  lemma {:induction false} FinishSettles(j: Job)
    requires JobFits(j)
    ensures Finish(j).pc.Closed? && Settled(Finish(j).state, Finish(j).result, Finish(j).error, j.outcome)
    decreases WritesLeft(j.pc)
  {
    WriteFits(j);
    if !j.pc.Closed? {
      FinishSettles(Write(j));
    }
  }

  /** It is stamped twice on the way, and nothing else about it changes. */
  lemma {:induction false} FinishStampsTwice(j: Job)
    requires j.pc.ToStart?
    ensures Finish(j).stamps == j.stamps + 2 && Finish(j).outcome == j.outcome
  {
    FinishUnfolds(j);
  }

  /** Submitting under a fresh id makes a pending job with no result and no error. */
  lemma SubmitStartsPending(s: State, id: nat, outcome: Outcome)
    requires id !in s.jobs
    ensures var jobs := Apply(s, Submit(id, outcome)).jobs;
      && jobs.Keys == s.jobs.Keys + {id} && (forall k :: k in s.jobs ==> jobs[k] == s.jobs[k])
      && jobs[id].state.Pending? && jobs[id].result.None? && jobs[id].error.None?
      && jobs[id].outcome == outcome && jobs[id].pc.ToStart?
  {
  }

  /** From any reachable state a known job that keeps advancing ends closed, with its outcome in place. */
  lemma {:induction false} AdvancingCloses(steps: seq<Step>, id: nat) returns (more: seq<Step>)
    requires id in Run(steps).jobs
    ensures |more| <= WritesLeft(Run(steps).jobs[id].pc) && forall i :: 0 <= i < |more| ==> more[i] == Advance(id)
    ensures id in Run(steps + more).jobs && Run(steps + more).jobs[id] == Finish(Run(steps).jobs[id])
    decreases WritesLeft(Run(steps).jobs[id].pc)
  {
    var job := Run(steps).jobs[id];
    if job.pc.Closed? {
      more := [];
      assert steps + more == steps;
    } else {
      RunSnoc(steps, Advance(id));
      var rest := AdvancingCloses(steps + [Advance(id)], id);
      more := [Advance(id)] + rest;
      assert steps + more == steps + [Advance(id)] + rest;
    }
  }

  /** What a poller can see of a job. */
  datatype Fields = Fields(state: JobState, result: Option<string>, error: Option<string>, stamps: nat)

  function Visible(j: Job): Fields { Fields(j.state, j.result, j.error, j.stamps) }

  /** The fields before and after each of the remaining writes, in order. */
  function Trace(j: Job): seq<Fields>
    decreases WritesLeft(j.pc)
  {
    [Visible(j)] + if j.pc.Closed? then [] else Trace(Write(j))
  }

  class SharedJob {
    var state: JobState
    var result: Option<string>
    var error: Option<string>
    var stamps: nat

    constructor ()
      ensures state == Pending && result == None && error == None && stamps == 0
    {
      state, result, error, stamps := Pending, None, None, 0;
    }

    /** as_dict: the state, then the result, then the error. */
    method AsDict(id: nat) returns (snapshot: Snapshot)
      ensures snapshot == Snapshot(id, state, result, error)
    {
      var s := state;
      var r := result;
      var e := error;
      return Snapshot(id, s, r, e);
    }

    /** trace is what the fields hold between one assignment and the next. */
    method Execute(outcome: Outcome) returns (ghost trace: seq<Fields>)
      modifies this
      ensures var start := Job(old(state), old(result), old(error), old(stamps), outcome, ToStart);
        && Job(state, result, error, stamps, outcome, Closed) == Finish(start)
        && trace == Trace(start)
    {
      ghost var start := Job(state, result, error, stamps, outcome, ToStart);
      trace := [Fields(state, result, error, stamps)];
      state := Running;
      trace := trace + [Fields(state, result, error, stamps)];
      stamps := stamps + 1;
      trace := trace + [Fields(state, result, error, stamps)];
      match outcome {
        case Returns(value) =>
          result := value;
          trace := trace + [Fields(state, result, error, stamps)];
          state := Completed;
        case Raises(message) =>
          error := Some(message);
          trace := trace + [Fields(state, result, error, stamps)];
          state := Failed;
        case Dies =>
      }
      trace := trace + [Fields(state, result, error, stamps)];
      stamps := stamps + 1;
      trace := trace + [Fields(state, result, error, stamps)];
      FinishUnfolds(start);
      TraceUnfolds(start);
    }
  }

  lemma {:induction false} FinishUnfolds(j: Job)
    requires j.pc.ToStart?
    ensures Finish(j) == if j.outcome.Dies? then Write(Write(Write(Write(j)))) else Write(Write(Write(Write(Write(j)))))
  {
    var called := Write(Write(Write(j)));
    assert Finish(j) == Finish(Write(j)) == Finish(Write(Write(j))) == Finish(called);
    assert Finish(called) == Finish(Write(called));
  }

  lemma {:induction false} TraceUnfolds(j: Job)
    requires j.pc.ToStart?
    ensures var called := Write(Write(Write(j)));
      var last := Write(called);
      Trace(j) == [Visible(j), Visible(Write(j)), Visible(Write(Write(j))), Visible(called), Visible(last)]
                  + if j.outcome.Dies? then [] else [Visible(Write(last))]
  {
    var called := Write(Write(Write(j)));
    assert Trace(j) == [Visible(j)] + Trace(Write(j));
    assert Trace(Write(j)) == [Visible(Write(j))] + Trace(Write(Write(j)));
    assert Trace(Write(Write(j))) == [Visible(Write(Write(j)))] + Trace(called);
    assert Trace(called) == [Visible(called)] + Trace(Write(called));
    if j.outcome.Dies? {
      assert Write(called).pc.Closed? && Trace(Write(called)) == [Visible(Write(called))];
    } else {
      assert Trace(Write(called)) == [Visible(Write(called))] + Trace(Write(Write(called)));
      assert Trace(Write(Write(called))) == [Visible(Write(Write(called)))];
    }
  }
}
