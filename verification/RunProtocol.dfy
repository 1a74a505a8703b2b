/**
 Analysis runs of shared repositories. Relaunches, retries, joins, reconciliations
 and the worker's own status writes interleave between single-document updates; a
 partial unique index admits one non-terminal run per repository.
 */
module RunProtocol {
  import opened Wrappers

  datatype Status = Pending | Running | Completed | Failed {
    /** Whether the unique index covers the status: "pending" and what sorts after. */
    predicate InFlight() {
      Pending? || Running?
    }
  }

  /**
   One run document. Ids are positions, in insertion order. `owner` and `sentBy`
   record which request inserted it and which requests sent it to the worker.
   */
  datatype RunDoc = RunDoc(
    repo: nat, status: Status, retriedAt: Option<nat>, owner: nat, sentBy: seq<nat>)

  /** Where a request stands, between two of its writes. */
  datatype Request =
    | Claiming(repo: nat, after: Option<nat>)   // about to insert the next run
    | Stamping(run: nat, failed: nat)           // inserted `run`, about to stamp the failed one
    | Dispatching(run: nat)                     // about to hand its run to the worker
    | MarkingFailed(run: nat)                   // the worker could not be reached
    | Probing(run: nat, observed: Status)       // reconciling, with the status it read
    | Ended

  datatype State = State(runs: seq<RunDoc>, requests: seq<Request>)

  datatype Event =
    | Create(repo: nat)                       // the creator of a repository, about to insert its run
    | Join(repo: nat)
    | Relaunch(repo: nat)
    | Reconcile(run: nat)
    | Claim(request: nat)
    | Stamp(request: nat, now: nat)
    | Dispatch(request: nat, reached: bool)
    | MarkFailed(request: nat)
    | Settle(request: nat)
    | Crash(request: nat)
    | Worker(run: nat, status: Status)

  // ------------------------------------------------------------ the store's part

  /** The partial unique index: some other run of `repo` is in flight. */
  predicate Held(runs: seq<RunDoc>, repo: nat, but: int) {
    exists i :: 0 <= i < |runs| && i != but && runs[i].repo == repo && runs[i].status.InFlight()
  }

  /** The repository's newest run. */
  function Latest(runs: seq<RunDoc>, repo: nat, n: nat): (r: Option<nat>)
    requires n <= |runs|
    ensures r.Some? ==> r.value < n && runs[r.value].repo == repo
    ensures forall i :: 0 <= i < n && runs[i].repo == repo ==> r.Some? && i <= r.value
  {
    if n == 0 then None
    else if runs[n - 1].repo == repo then Some(n - 1)
    else Latest(runs, repo, n - 1)
  }

  // --------------------------------------------------------------------- steps

  function Start(s: State, q: Request): State {
    s.(requests := s.requests + [q])
  }

  function Move(s: State, i: nat, q: Request): State
    requires i < |s.requests|
  {
    s.(requests := s.requests[i := q])
  }

  function Write(s: State, run: nat, d: RunDoc): State {
    if run < |s.runs| then s.(runs := s.runs[run := d]) else s
  }

  function Step(s: State, e: Event): State {
    match e
    case Create(repo) => Start(s, Claiming(repo, None))
    case Join(repo) =>
      var latest := Latest(s.runs, repo, |s.runs|);
      if latest.Some? && s.runs[latest.value].status.Failed? then Start(s, Claiming(repo, latest))
      else s
    case Relaunch(repo) =>
      var latest := Latest(s.runs, repo, |s.runs|);
      if latest.None? || s.runs[latest.value].status.Failed? then Start(s, Claiming(repo, latest))
      else s
    case Reconcile(run) =>
      if run < |s.runs| && s.runs[run].status.InFlight() then
        Start(s, Probing(run, s.runs[run].status))
      else s
    case Worker(run, status) =>
      if run < |s.runs| && (status.InFlight() ==> !Held(s.runs, s.runs[run].repo, run)) then
        Write(s, run, s.runs[run].(status := status))
      else s
    case _ =>
      if e.request < |s.requests| then Advance(s, e, e.request, s.requests[e.request]) else s
  }

  /** The next write of a request that is under way. */
  function Advance(s: State, e: Event, i: nat, q: Request): State
    requires i < |s.requests| && q == s.requests[i]
  {
    match (e, q)
    case (Claim(_), Claiming(repo, failed)) =>
      if Held(s.runs, repo, -1) then Move(s, i, Ended)
      else
        var run := |s.runs|;
        var next := if failed.Some? then Stamping(run, failed.value) else Dispatching(run);
        Move(s.(runs := s.runs + [RunDoc(repo, Pending, None, i, [])]), i, next)
    case (Stamp(_, now), Stamping(run, failed)) =>
      if failed < |s.runs| && s.runs[failed].retriedAt.None? then
        Move(Write(s, failed, s.runs[failed].(retriedAt := Some(now))), i, Dispatching(run))
      else Move(s, i, Dispatching(run))
    case (Dispatch(_, reached), Dispatching(run)) =>
      if run < |s.runs| then
        var d := s.runs[run];
        Move(Write(s, run, d.(sentBy := d.sentBy + [i])), i,
             if reached then Ended else MarkingFailed(run))
      else s
    case (MarkFailed(_), MarkingFailed(run)) =>
      if run < |s.runs| then Move(Write(s, run, s.runs[run].(status := Failed)), i, Ended) else s
    case (Settle(_), Probing(run, observed)) =>
      if run < |s.runs| && s.runs[run].status == observed then
        Move(Write(s, run, s.runs[run].(status := Failed)), i, Ended)
      else Move(s, i, Ended)
    case (Crash(_), _) => Move(s, i, Ended)
    case _ => s
  }

  /** Run `i` is the repository's newest. */
  ghost predicate NewestOf(runs: seq<RunDoc>, repo: nat, i: nat) {
    i < |runs| && runs[i].repo == repo && forall j :: i < j < |runs| ==> runs[j].repo != repo
  }

  ghost predicate NoRunOf(runs: seq<RunDoc>, repo: nat) {
    forall i :: 0 <= i < |runs| ==> runs[i].repo != repo
  }

  /** A join goes on to claim a run exactly when the newest one failed. */
  lemma {:induction false} JoinClaimsExactly(s: State, repo: nat)
    ensures var s' := Step(s, Join(repo));
            && s'.runs == s.runs
            && (s'.requests != s.requests
                <==> exists i: nat :: NewestOf(s.runs, repo, i) && s.runs[i].status.Failed?)
            && (forall i: nat :: NewestOf(s.runs, repo, i) && s.runs[i].status.Failed? ==>
                  s'.requests == s.requests + [Claiming(repo, Some(i))])
  {
    var latest := Latest(s.runs, repo, |s.runs|);
    assert forall i: nat :: NewestOf(s.runs, repo, i) ==> latest == Some(i);
    assert latest.Some? ==> NewestOf(s.runs, repo, latest.value);
  }

  /** A relaunch does when there is none, or the newest one failed. */
  lemma {:induction false} RelaunchClaimsExactly(s: State, repo: nat)
    ensures var s' := Step(s, Relaunch(repo));
            && s'.runs == s.runs
            && (s'.requests != s.requests
                <==> NoRunOf(s.runs, repo)
                     || exists i: nat :: NewestOf(s.runs, repo, i) && s.runs[i].status.Failed?)
            && (NoRunOf(s.runs, repo) ==> s'.requests == s.requests + [Claiming(repo, None)])
            && (forall i: nat :: NewestOf(s.runs, repo, i) && s.runs[i].status.Failed? ==>
                  s'.requests == s.requests + [Claiming(repo, Some(i))])
  {
    var latest := Latest(s.runs, repo, |s.runs|);
    assert forall i: nat :: NewestOf(s.runs, repo, i) ==> latest == Some(i);
    assert latest.Some? ==> NewestOf(s.runs, repo, latest.value);
  }

  // ---------------------------------------------------------------- invariants

  ghost predicate OneInFlight(runs: seq<RunDoc>) {
    forall i, j :: 0 <= i < j < |runs| && runs[i].status.InFlight() && runs[j].status.InFlight()
      ==> runs[i].repo != runs[j].repo
  }

  /** A run went out at most once, and only from the request that inserted it. */
  ghost predicate DispatchedOnce(runs: seq<RunDoc>) {
    forall i :: 0 <= i < |runs| ==> runs[i].sentBy == [] || runs[i].sentBy == [runs[i].owner]
  }

  ghost predicate HasSuccessor(runs: seq<RunDoc>, i: nat)
    requires i < |runs|
  {
    exists j :: i < j < |runs| && runs[j].repo == runs[i].repo
  }

  /** A run marked as retried has a strictly newer run beside it. */
  ghost predicate RetriedHaveSuccessor(runs: seq<RunDoc>) {
    forall i :: 0 <= i < |runs| && runs[i].retriedAt.Some? ==> HasSuccessor(runs, i)
  }

  /** Request `i` owns `run`, inserted by it and not yet sent. */
  predicate Owns(runs: seq<RunDoc>, i: int, run: nat) {
    run < |runs| && runs[run].owner == i && runs[run].sentBy == []
  }

  predicate Sound(runs: seq<RunDoc>, i: int, q: Request) {
    match q
    case Claiming(repo, failed) =>
      failed.Some? ==> failed.value < |runs| && runs[failed.value].repo == repo
    case Stamping(run, failed) =>
      Owns(runs, i, run) && failed < run && runs[failed].repo == runs[run].repo
    case Dispatching(run) => Owns(runs, i, run)
    case MarkingFailed(run) => run < |runs| && runs[run].sentBy == [i]
    case Probing(run, observed) => run < |runs| && observed.InFlight()
    case Ended => true
  }

  ghost predicate AllSound(s: State) {
    forall i :: 0 <= i < |s.requests| ==> Sound(s.runs, i, s.requests[i])
  }

  ghost predicate Consistent(s: State) {
    && OneInFlight(s.runs) && DispatchedOnce(s.runs) && RetriedHaveSuccessor(s.runs)
    && AllSound(s)
  }

  // ------------------------------------------------------ one step keeps them all

  /** No run leaves its repository, changes hands or is removed. */
  ghost predicate Extends(runs: seq<RunDoc>, runs': seq<RunDoc>) {
    && |runs| <= |runs'|
    && forall i :: 0 <= i < |runs| ==>
         && runs'[i].repo == runs[i].repo && runs'[i].owner == runs[i].owner
         && runs[i].sentBy <= runs'[i].sentBy
         && (runs[i].retriedAt.Some? ==> runs'[i].retriedAt == runs[i].retriedAt)
  }

  lemma StepExtends(s: State, e: Event)
    ensures Extends(s.runs, Step(s, e).runs)
  {
  }

  lemma StepOneInFlight(s: State, e: Event)
    requires OneInFlight(s.runs)
    ensures OneInFlight(Step(s, e).runs)
  {
    var runs' := Step(s, e).runs;
    forall i, j | 0 <= i < j < |runs'| && runs'[i].status.InFlight() && runs'[j].status.InFlight()
      ensures runs'[i].repo != runs'[j].repo
    {
      if e.Worker? && (i == e.run || j == e.run) {
        assert Held(s.runs, s.runs[e.run].repo, e.run) || runs'[i].repo != runs'[j].repo;
      }
    }
  }

  lemma SuccessorStays(runs: seq<RunDoc>, runs': seq<RunDoc>, i: nat)
    requires i < |runs| && HasSuccessor(runs, i) && Extends(runs, runs')
    ensures HasSuccessor(runs', i)
  {
    var j :| i < j < |runs| && runs[j].repo == runs[i].repo;
    assert runs'[j].repo == runs'[i].repo;
  }

  lemma StepRetried(s: State, e: Event)
    requires RetriedHaveSuccessor(s.runs) && AllSound(s)
    ensures RetriedHaveSuccessor(Step(s, e).runs)
  {
    hide AllSound, HasSuccessor;
    var runs' := Step(s, e).runs;
    StepExtends(s, e);
    forall i | 0 <= i < |runs'| && runs'[i].retriedAt.Some? ensures HasSuccessor(runs', i) {
      if i < |s.runs| && s.runs[i].retriedAt.Some? {
        SuccessorStays(s.runs, runs', i);
      } else {
        StampedNow(s, e, i);
      }
    }
  }

  lemma StampedNow(s: State, e: Event, i: nat)
    requires AllSound(s) && i < |Step(s, e).runs| && Step(s, e).runs[i].retriedAt.Some?
    requires i < |s.runs| ==> s.runs[i].retriedAt.None?
    ensures HasSuccessor(Step(s, e).runs, i)
  {
    var q := s.requests[e.request];
    assert Sound(s.runs, e.request, q);
    assert i < q.run && Step(s, e).runs[q.run].repo == Step(s, e).runs[i].repo;
  }

  lemma StepDispatched(s: State, e: Event)
    requires DispatchedOnce(s.runs) && AllSound(s)
    ensures DispatchedOnce(Step(s, e).runs)
  {
    if e.Dispatch? && e.request < |s.requests| {
      assert Sound(s.runs, e.request, s.requests[e.request]);
    }
  }

  /** A run is sent only by the request holding it. */
  lemma StepSends(s: State, e: Event, run: nat)
    requires AllSound(s) && run < |s.runs|
    ensures Step(s, e).runs[run].sentBy != s.runs[run].sentBy ==>
              e.Dispatch? && e.request == s.runs[run].owner
  {
    if e.Dispatch? && e.request < |s.requests| {
      assert Sound(s.runs, e.request, s.requests[e.request]);
    }
  }

  predicate Moves(s: State, e: Event, i: nat) {
    !e.Create? && !e.Join? && !e.Relaunch? && !e.Reconcile? && !e.Worker? && e.request == i
  }

  lemma OthersSound(s: State, e: Event, i: nat)
    requires AllSound(s) && i < |s.requests| && !Moves(s, e, i)
    ensures i < |Step(s, e).requests| && Step(s, e).requests[i] == s.requests[i]
    ensures Sound(Step(s, e).runs, i, s.requests[i])
  {
    var q := s.requests[i];
    assert Sound(s.runs, i, q);
    assert Extends(s.runs, Step(s, e).runs) by { StepExtends(s, e); }
    assert i < |Step(s, e).requests| && Step(s, e).requests[i] == q;
    if q.Stamping? || q.Dispatching? || q.MarkingFailed? {
      StepSends(s, e, q.run);
    }
  }

  lemma MoverSound(s: State, e: Event, i: nat)
    requires AllSound(s) && i < |s.requests| && Moves(s, e, i)
    ensures i < |Step(s, e).requests| && Sound(Step(s, e).runs, i, Step(s, e).requests[i])
  {
    assert Sound(s.runs, i, s.requests[i]);
  }

  lemma StepSound(s: State, e: Event)
    requires AllSound(s)
    ensures AllSound(Step(s, e))
  {
    var s' := Step(s, e);
    forall i | 0 <= i < |s'.requests| ensures Sound(s'.runs, i, s'.requests[i]) {
      if i >= |s.requests| {
        NewcomerSound(s, e);
      } else if Moves(s, e, i) {
        MoverSound(s, e, i);
      } else {
        OthersSound(s, e, i);
      }
    }
  }

  lemma NewcomerSound(s: State, e: Event)
    requires |Step(s, e).requests| > |s.requests|
    ensures |Step(s, e).requests| == |s.requests| + 1
    ensures Sound(Step(s, e).runs, |s.requests|, Step(s, e).requests[|s.requests|])
  {
  }

  lemma StepKeeps(s: State, e: Event)
    requires Consistent(s)
    ensures Consistent(Step(s, e))
  {
    hide *;
    Parts(s);
    StepOneInFlight(s, e);
    StepDispatched(s, e);
    StepRetried(s, e);
    StepSound(s, e);
    Whole(Step(s, e));
  }

  lemma Parts(s: State)
    requires Consistent(s)
    ensures OneInFlight(s.runs) && DispatchedOnce(s.runs) && RetriedHaveSuccessor(s.runs)
    ensures AllSound(s)
  {
  }

  lemma Whole(s: State)
    requires OneInFlight(s.runs) && DispatchedOnce(s.runs) && RetriedHaveSuccessor(s.runs)
    requires AllSound(s)
    ensures Consistent(s)
  {
  }

  // ----------------------------------------------------------------- whole runs

  function Run(es: seq<Event>): State
    decreases |es|
  {
    if es == [] then State([], []) else Step(Run(es[..|es| - 1]), es[|es| - 1])
  }

  /**
   In every interleaving, with crashes anywhere and any worker write the index
   admits: one non-terminal run per repository, each run dispatched at most once
   and only by its inserter, every retried run followed by a newer one.
   */
  lemma {:induction false} EveryRunIsConsistent(es: seq<Event>)
    ensures Consistent(Run(es))
    decreases |es|
  {
    hide Consistent, Step;
    if es == [] {
      NothingYet();
    } else {
      EveryRunIsConsistent(es[..|es| - 1]);
      StepKeeps(Run(es[..|es| - 1]), es[|es| - 1]);
    }
  }

  lemma NothingYet()
    ensures Consistent(State([], []))
  {
  }

  // --------------------------------------------------------------- reconciliation

  /** Settling changes at most one run, only an in-flight one, and only to FAILED. */
  lemma {:induction false} SettleSparesTerminalRuns(s: State, request: nat, i: nat)
    requires AllSound(s) && i < |s.runs|
    ensures var s' := Step(s, Settle(request));
            s'.runs[i] != s.runs[i] ==>
              && s.runs[i].status.InFlight()
              && s'.runs[i] == s.runs[i].(status := Failed)
              && s.requests[request] == Probing(i, s.runs[i].status)
  {
    if request < |s.requests| {
      assert Sound(s.runs, request, s.requests[request]);
    }
  }

  /** A status written after the probe survives the settlement. */
  lemma {:induction false} LateStatusSurvives(s: State, run: nat, written: Status)
    requires run < |s.runs| && s.runs[run].status.InFlight() && written != s.runs[run].status
    requires !written.InFlight() || !Held(s.runs, s.runs[run].repo, run)
    ensures var probed := Step(s, Reconcile(run));
            var moved := Step(probed, Worker(run, written));
            Step(moved, Settle(|s.requests|)).runs == s.runs[run := s.runs[run].(status := written)]
  {
  }

  /**
   Releasing a dead claim: after a probe and its settlement the repository admits a
   new run, and whoever is waiting to claim it gets one and owns it.
   */
  lemma {:induction false} SettlingFreesTheClaim(s: State, run: nat, request: nat)
    requires Consistent(s) && run < |s.runs| && s.runs[run].status.InFlight()
    requires request < |s.requests| && s.requests[request].Claiming?
    requires s.requests[request].repo == s.runs[run].repo
    ensures Step(s, Claim(request)).runs == s.runs
    ensures var settled := Step(Step(s, Reconcile(run)), Settle(|s.requests|));
            var claimed := Step(settled, Claim(request));
            && |claimed.runs| == |s.runs| + 1
            && Owns(claimed.runs, request, |s.runs|)
            && claimed.runs[|s.runs|].repo == s.runs[run].repo
  {
    assert Held(s.runs, s.runs[run].repo, -1);
    var probed := Step(s, Reconcile(run));
    assert probed.requests[|s.requests|] == Probing(run, s.runs[run].status);
    var settled := Step(probed, Settle(|s.requests|));
    assert settled.runs == s.runs[run := s.runs[run].(status := Failed)];
    assert settled.requests[request] == s.requests[request];
    assert !Held(settled.runs, s.runs[run].repo, -1) by {
      forall i | 0 <= i < |settled.runs| && settled.runs[i].repo == s.runs[run].repo
        ensures !settled.runs[i].status.InFlight()
      {
        if i < run { assert !s.runs[i].status.InFlight(); }
        if run < i { assert !s.runs[i].status.InFlight(); }
      }
    }
  }

  /** The claim is exclusive: a claim succeeds exactly when no run is in flight. */
  lemma {:induction false} ClaimIsExclusive(s: State, request: nat)
    requires request < |s.requests| && s.requests[request].Claiming?
    ensures var repo := s.requests[request].repo;
            var s' := Step(s, Claim(request));
            && (|s'.runs| == |s.runs| + 1 <==> !Held(s.runs, repo, -1))
            && (forall other: nat :: other < |s'.requests| && s'.requests[other].Claiming?
                  && s'.requests[other].repo == repo && !Held(s.runs, repo, -1)
                  ==> Step(s', Claim(other)).runs == s'.runs)
  {
    var repo := s.requests[request].repo;
    var s' := Step(s, Claim(request));
    if !Held(s.runs, repo, -1) {
      assert s'.runs[|s.runs|].repo == repo && s'.runs[|s.runs|].status.InFlight();
      assert Held(s'.runs, repo, -1);
    }
  }

  // ---------------------------------------------------- a request left to itself

  /**
   A claim with no run in flight, left to itself, ends with one more run, PENDING and
   sent once by it; the failed predecessor is stamped unless it was stamped before.
   */
  lemma {:induction false} RetryRunsThrough(s: State, k: nat, repo: nat, failed: nat, now: nat)
    requires AllSound(s) && k < |s.requests| && s.requests[k] == Claiming(repo, Some(failed))
    requires !Held(s.runs, repo, -1)
    ensures var s' := Step(Step(Step(s, Claim(k)), Stamp(k, now)), Dispatch(k, true));
            && s'.requests == s.requests[k := Ended] && |s'.runs| == |s.runs| + 1
            && s'.runs[|s.runs|] == RunDoc(repo, Pending, None, k, [k])
            && failed < |s.runs|
            && s'.runs[failed].retriedAt
               == (if s.runs[failed].retriedAt.Some? then s.runs[failed].retriedAt else Some(now))
            && s'.runs[failed].(retriedAt := s.runs[failed].retriedAt) == s.runs[failed]
            && (forall i :: 0 <= i < |s.runs| && i != failed ==> s'.runs[i] == s.runs[i])
  {
    assert Sound(s.runs, k, s.requests[k]);
    var n := |s.runs|;
    var claimed := Step(s, Claim(k));
    assert claimed.requests[k] == Stamping(n, failed);
    var stamped := Step(claimed, Stamp(k, now));
    assert stamped.requests[k] == Dispatching(n) && stamped.runs[n] == RunDoc(repo, Pending, None, k, []);
    assert [] + [k] == [k];
  }

  /** The same without a predecessor, and with a worker that is not reached. */
  lemma {:induction false} FirstRunGoesOut(s: State, k: nat, repo: nat, reached: bool)
    requires k < |s.requests| && s.requests[k] == Claiming(repo, None) && !Held(s.runs, repo, -1)
    ensures var sent := Step(Step(s, Claim(k)), Dispatch(k, reached));
            var s' := if reached then sent else Step(sent, MarkFailed(k));
            && s'.requests == s.requests[k := Ended]
            && s'.runs == s.runs + [RunDoc(repo, if reached then Pending else Failed, None, k, [k])]
  {
    var n := |s.runs|;
    var claimed := Step(s, Claim(k));
    assert claimed.requests[k] == Dispatching(n);
    assert [] + [k] == [k];
    var sent := Step(claimed, Dispatch(k, reached));
    assert sent.runs[n] == RunDoc(repo, Pending, None, k, [k]);
  }

  ghost predicate AnotherInFlight(runs: seq<RunDoc>, i: nat)
    requires i < |runs|
  {
    exists j :: && 0 <= j < |runs| && j != i && runs[j].repo == runs[i].repo
                && runs[j].status in {Pending, Running}
  }

  /** The worker's write takes effect exactly when the unique index admits it. */
  lemma {:induction false} WorkerWritesExactly(s: State, i: nat, status: Status)
    requires i < |s.runs|
    ensures var s' := Step(s, Worker(i, status));
            && s'.requests == s.requests
            && s'.runs == (if status in {Pending, Running} && AnotherInFlight(s.runs, i) then s.runs
                           else s.runs[i := s.runs[i].(status := status)])
  {
  }

  /** A probe starts for a run in flight only, and remembers the status it saw. */
  lemma {:induction false} ProbesInFlight(s: State, i: nat)
    ensures var s' := Step(s, Reconcile(i));
            && s'.runs == s.runs
            && s'.requests == s.requests
                 + (if i < |s.runs| && s.runs[i].status in {Pending, Running}
                    then [Probing(i, s.runs[i].status)] else [])
  {
  }

  // ------------------------------------------------------------ terminal statuses

  /** A worker write of another status that the unique index admits. */
  predicate Rewrites(s: State, e: Event, i: nat)
    requires i < |s.runs|
  {
    && e.Worker? && e.run == i && e.status != s.runs[i].status
    && (e.status.InFlight() ==> !Held(s.runs, s.runs[i].repo, i))
  }

  /** A request that could not reach the worker marks run `i` failed. */
  predicate GivesUp(s: State, e: Event, i: nat) {
    e.MarkFailed? && e.request < |s.requests| && s.requests[e.request] == MarkingFailed(i)
  }

  /** A terminal status is left in two ways, and in no other. */
  lemma {:induction false} TerminalChangesExactly(s: State, e: Event, i: nat)
    requires AllSound(s) && i < |s.runs| && !s.runs[i].status.InFlight()
    ensures Step(s, e).runs[i].status != s.runs[i].status
            <==> Rewrites(s, e, i) || (GivesUp(s, e, i) && s.runs[i].status.Completed?)
  {
    if !e.Create? && !e.Join? && !e.Relaunch? && !e.Reconcile? && !e.Worker?
       && e.request < |s.requests|
    {
      assert Sound(s.runs, e.request, s.requests[e.request]);
    }
  }

  /** The request is on its way to sending run `i`, or about to mark it failed. */
  predicate Launching(q: Request, i: nat) {
    (q.Stamping? || q.Dispatching? || q.MarkingFailed?) && q.run == i
  }

  ghost predicate Launched(s: State, i: nat) {
    forall k :: 0 <= k < |s.requests| ==> !Launching(s.requests[k], i)
  }

  ghost predicate WorkerDone(es: seq<Event>, i: nat) {
    forall k :: 0 <= k < |es| ==> !(es[k].Worker? && es[k].run == i)
  }

  /** Only a claim starts launching a run, and its run is a new one. */
  lemma StaysLaunched(s: State, e: Event, i: nat)
    requires i < |s.runs| && Launched(s, i)
    ensures Launched(Step(s, e), i)
  {
    var s' := Step(s, e);
    forall k | 0 <= k < |s'.requests| ensures !Launching(s'.requests[k], i) {
      if k < |s.requests| { assert !Launching(s.requests[k], i); }
    }
  }

  function Append(es: seq<Event>, more: seq<Event>): seq<Event> {
    es + more
  }

  /** Whatever follows without a worker write to run `i` leaves its status alone. */
  ghost predicate Final(es: seq<Event>, i: nat)
    requires i < |Run(es).runs|
  {
    forall more :: WorkerDone(more, i) ==>
      && i < |Run(Append(es, more)).runs|
      && Run(Append(es, more)).runs[i].status == Run(es).runs[i].status
  }

  /**
   Over whole runs: once the worker is done with a run, its terminal status is final
   if and only if it is FAILED, or no request can still mark the run failed.
   */
  lemma {:induction false} TerminalIsFinalExactly(es: seq<Event>, i: nat)
    requires i < |Run(es).runs| && !Run(es).runs[i].status.InFlight()
    ensures Final(es, i) <==> Run(es).runs[i].status.Failed? || Launched(Run(es), i)
  {
    hide Run;
    if Run(es).runs[i].status.Failed? || Launched(Run(es), i) {
      forall more | WorkerDone(more, i)
        ensures i < |Run(Append(es, more)).runs|
        ensures Run(Append(es, more)).runs[i].status == Run(es).runs[i].status
      {
        StaysTerminal(es, more, i);
      }
    } else {
      var more := MarkedLate(es, i);
      assert Run(Append(es, more)).runs[i].status.Failed?;
    }
  }

  lemma {:induction false} StaysTerminal(es: seq<Event>, more: seq<Event>, i: nat)
    requires i < |Run(es).runs| && !Run(es).runs[i].status.InFlight() && WorkerDone(more, i)
    requires Run(es).runs[i].status.Failed? || Launched(Run(es), i)
    ensures i < |Run(Append(es, more)).runs|
    ensures Run(Append(es, more)).runs[i].status == Run(es).runs[i].status
    ensures Launched(Run(es), i) ==> Launched(Run(Append(es, more)), i)
    decreases |more|
  {
    hide Run, Step;
    if more == [] {
      assert Append(es, more) == es;
    } else {
      var n := |more| - 1;
      StaysTerminal(es, more[..n], i);
      var s := Run(Append(es, more[..n]));
      assert Append(es, more) == Append(es, more[..n]) + [more[n]];
      Then(Append(es, more[..n]), more[n]);
      EveryRunIsConsistent(Append(es, more[..n]));
      TerminalChangesExactly(s, more[n], i);
      StepExtends(s, more[n]);
      if Launched(Run(es), i) { StaysLaunched(s, more[n], i); }
    }
  }

  /** A request still launching a completed run can end up marking it failed. */
  lemma {:induction false} MarkedLate(es: seq<Event>, i: nat) returns (more: seq<Event>)
    requires i < |Run(es).runs| && !Launched(Run(es), i)
    ensures WorkerDone(more, i)
    ensures i < |Run(Append(es, more)).runs| && Run(Append(es, more)).runs[i].status.Failed?
  {
    hide Run, Step;
    var k :| 0 <= k < |Run(es).requests| && Launching(Run(es).requests[k], i);
    var now := es;
    if Run(now).requests[k].Stamping? {
      Then(now, Stamp(k, 0));
      StampStep(Run(now), k, i);
      now := now + [Stamp(k, 0)];
    }
    if Run(now).requests[k].Dispatching? {
      Then(now, Dispatch(k, false));
      DispatchStep(Run(now), k, i);
      now := now + [Dispatch(k, false)];
    }
    Then(now, MarkFailed(k));
    MarkStep(Run(now), k, i);
    now := now + [MarkFailed(k)];
    more := now[|es|..];
    assert Append(es, more) == now;
  }

  lemma StampStep(s: State, k: nat, i: nat)
    requires k < |s.requests| && s.requests[k].Stamping? && s.requests[k].run == i < |s.runs|
    ensures var s' := Step(s, Stamp(k, 0));
            k < |s'.requests| && s'.requests[k] == Dispatching(i) && i < |s'.runs|
  {
  }

  lemma DispatchStep(s: State, k: nat, i: nat)
    requires k < |s.requests| && s.requests[k] == Dispatching(i) && i < |s.runs|
    ensures var s' := Step(s, Dispatch(k, false));
            k < |s'.requests| && s'.requests[k] == MarkingFailed(i) && i < |s'.runs|
  {
  }

  lemma MarkStep(s: State, k: nat, i: nat)
    requires k < |s.requests| && s.requests[k] == MarkingFailed(i) && i < |s.runs|
    ensures var s' := Step(s, MarkFailed(k)); i < |s'.runs| && s'.runs[i].status.Failed?
  {
  }

  // -------------------------------------------------------------- counterexample

  /**
   A terminal status is not final: a dispatch that timed out after the worker had
   accepted it marks its run FAILED although the worker completed it.
   */
  lemma CompletedOverwritten() returns (es: seq<Event>)
    ensures es != [] && es[|es| - 1] == MarkFailed(0)
    ensures Run(es[..|es| - 1]).runs == [RunDoc(3, Completed, None, 0, [0])]
    ensures Run(es).runs == [RunDoc(3, Failed, None, 0, [0])]
  {
    hide Run, Step;
    var sent := Unreached();
    Then(sent, Worker(0, Completed));
    var done := sent + [Worker(0, Completed)];
    Then(done, MarkFailed(0));
    es := done + [MarkFailed(0)];
    assert es[..|es| - 1] == done;
    CompletedThenFailed(Run(sent));
  }

  /** A run handed to the worker by a request that believes it did not get through. */
  lemma Unreached() returns (es: seq<Event>)
    ensures Run(es) == State([RunDoc(3, Pending, None, 0, [0])], [MarkingFailed(0)])
  {
    hide Run, Step;
    NothingRun();
    Then([], Create(3));
    Then([] + [Create(3)], Claim(0));
    Then([] + [Create(3)] + [Claim(0)], Dispatch(0, false));
    es := [] + [Create(3)] + [Claim(0)] + [Dispatch(0, false)];
    ThreeSteps();
  }

  lemma NothingRun()
    ensures Run([]) == State([], [])
  {
  }

  lemma ThreeSteps()
    ensures Step(Step(Step(State([], []), Create(3)), Claim(0)), Dispatch(0, false))
            == State([RunDoc(3, Pending, None, 0, [0])], [MarkingFailed(0)])
  {
    var claiming := State([], [Claiming(3, None)]);
    assert Step(State([], []), Create(3)) == claiming;
    assert Step(claiming, Claim(0)) == State([RunDoc(3, Pending, None, 0, [])], [Dispatching(0)]);
    assert [] + [0] == [0];
  }

  lemma CompletedThenFailed(s: State)
    requires s == State([RunDoc(3, Pending, None, 0, [0])], [MarkingFailed(0)])
    ensures Step(s, Worker(0, Completed)).runs == [RunDoc(3, Completed, None, 0, [0])]
    ensures Step(Step(s, Worker(0, Completed)), MarkFailed(0)).runs == [RunDoc(3, Failed, None, 0, [0])]
  {
  }

  lemma Then(es: seq<Event>, e: Event)
    ensures Run(es + [e]) == Step(Run(es), e)
  {
    assert (es + [e])[..|es|] == es;
  }
}
