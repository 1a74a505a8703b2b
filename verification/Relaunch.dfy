/**
 Relaunching a repository at the worker's analyzer version: which row a caller
 lands on, and why asking twice adds nothing.
 */
module Relaunch {
  import opened Wrappers
  import opened RunProtocol
  import opened Text

  /** Where source is stored: a digest of url and commit, or one upload's archive. */
  datatype Blob = GitBlob(url: string, commit: string) | Upload(id: nat)

  datatype Row = Row(
    url: string, commit: Option<string>, blob: Blob, analyzer: string, ran: Option<string>,
    count: int)

  /** The stored rows, the (user, row) links and the runs; ids are positions. */
  datatype Db = Db(rows: seq<Row>, links: set<(nat, nat)>, runs: seq<RunDoc>)

  datatype Reply =
    | Landed(repo: nat, status: Status)
    | Conflict
    | NotFound
    | WorkerUnreachable
    | DuplicateKey
    | NoAccess
    | NoVersion

  /** One request: its number, the time it reads, and whether it reaches the worker. */
  datatype Call = Call(id: nat, now: nat, reached: bool)

  // ------------------------------------------------------------------- versions

  /** Version order is opaque: `parse` ranks the strings that are versions. */
  predicate IsBehind(parse: string -> Option<real>, value: string, current: string) {
    if parse(value).Some? && parse(current).Some? then parse(value).value < parse(current).value
    else value != current
  }

  predicate IsStale(parse: string -> Option<real>, row: Row, current: string) {
    && IsBehind(parse, row.analyzer, current)
    && (row.ran.None? || IsBehind(parse, row.ran.value, current))
  }

  /** The versions a row names: the one it was asked at, and the one it ran at. */
  function Named(row: Row): set<string> {
    {row.analyzer} + (if row.ran.Some? then {row.ran.value} else {})
  }

  /** A row is stale when the worker is newer than every version it names. */
  lemma {:induction false} StaleExactly(parse: string -> Option<real>, row: Row, current: string)
    requires parse(current).Some? && forall v :: v in Named(row) ==> parse(v).Some?
    ensures IsStale(parse, row, current)
            <==> forall v :: v in Named(row) ==> parse(current).value > parse(v).value
  {
    assert row.analyzer in Named(row);
    assert row.ran.Some? ==> row.ran.value in Named(row);
  }

  /** Opaque versions are behind one another exactly when they differ. */
  lemma OpaqueVersions(parse: string -> Option<real>, a: string, b: string)
    requires parse(a).None? || parse(b).None?
    ensures !IsBehind(parse, a, a) || parse(a).Some?
    ensures IsBehind(parse, a, b) <==> IsBehind(parse, b, a)
    ensures IsBehind(parse, a, b) <==> a != b
  {
  }

  // -------------------------------------------------------------------- lookups

  /** A row of the same source: the commit of a remote, or the archive uploaded. */
  predicate SameSource(a: Row, b: Row) {
    if b.commit.Some? then a.url == b.url && a.commit == b.commit
    else a.blob == b.blob && a.commit.None?
  }

  /** A live row of the source whose output is at `version`. */
  predicate AtFloor(a: Row, source: Row, version: string) {
    && SameSource(a, source) && a.count > 0
    && (a.ran == Some(version) || (a.ran.None? && a.analyzer == version))
  }

  /** A live row owning the source's unique key; a zip's key does not name the commit. */
  predicate OwnsKey(a: Row, source: Row, version: string) {
    && a.count > 0 && a.analyzer == version
    && (if source.commit.Some? then a.url == source.url && a.commit == source.commit
        else a.blob == source.blob)
  }

  /** The two partial unique indexes, asked about one stored row and a new one. */
  predicate Collides(a: Row, b: Row) {
    && a.count > 0 && a.analyzer == b.analyzer
    && ((b.commit.Some? && a.url == b.url && a.commit == b.commit) || a.blob == b.blob)
  }

  function FindLive(rows: seq<Row>, source: Row, version: string, n: nat): (r: Option<nat>)
    requires n <= |rows|
    ensures r.Some? ==> r.value < n && AtFloor(rows[r.value], source, version)
    ensures r.None? ==> forall i :: 0 <= i < n ==> !AtFloor(rows[i], source, version)
  {
    if n == 0 then None
    else
      var best := FindLive(rows, source, version, n - 1);
      if AtFloor(rows[n - 1], source, version)
         && (best.None? || Less(rows[best.value].analyzer, rows[n - 1].analyzer))
      then Some(n - 1) else best
  }

  function FindLiveByKey(rows: seq<Row>, source: Row, version: string, n: nat): (r: Option<nat>)
    requires n <= |rows|
    ensures r.Some? ==> r.value < n && OwnsKey(rows[r.value], source, version)
    ensures r.None? ==> forall i :: 0 <= i < n ==> !OwnsKey(rows[i], source, version)
  {
    if n == 0 then None
    else
      var found := FindLiveByKey(rows, source, version, n - 1);
      if found.Some? then found
      else if OwnsKey(rows[n - 1], source, version) then Some(n - 1)
      else None
  }

  /** The version of the output a row holds, or will. */
  function OutputVersion(row: Row): string {
    if row.ran.Some? then row.ran.value else row.analyzer
  }

  /** The lookup answers with a live row of the source at the version, if there is one. */
  lemma {:induction false} FindsOutput(rows: seq<Row>, source: Row, version: string)
    ensures var r := FindLive(rows, source, version, |rows|);
            && (r.Some? ==>
                  && rows[r.value].count > 0 && OutputVersion(rows[r.value]) == version
                  && rows[r.value].commit == source.commit
                  && (source.commit.Some? ==> rows[r.value].url == source.url)
                  && (source.commit.None? ==> rows[r.value].blob == source.blob))
            && (r.None? ==>
                  forall row :: row in rows && row.count > 0 && OutputVersion(row) == version
                    && row.commit == source.commit
                    ==> if source.commit.Some? then row.url != source.url else row.blob != source.blob)
  {
  }

  /** Among several, the lookup prefers the greatest version asked for, in string order. */
  lemma {:induction false} PrefersGreatest(rows: seq<Row>, source: Row, version: string, n: nat)
    requires n <= |rows|
    ensures var r := FindLive(rows, source, version, n);
            forall i :: 0 <= i < n && AtFloor(rows[i], source, version) ==>
              r.Some? && !Less(rows[r.value].analyzer, rows[i].analyzer)
  {
    if n > 0 {
      PrefersGreatest(rows, source, version, n - 1);
      var before, now := FindLive(rows, source, version, n - 1), FindLive(rows, source, version, n);
      forall i | 0 <= i < n && AtFloor(rows[i], source, version)
        ensures now.Some? && !Less(rows[now.value].analyzer, rows[i].analyzer)
      {
        LessIsStrict(rows[i].analyzer, rows[i].analyzer);
        if now.value == n - 1 && before.Some? && Less(rows[n - 1].analyzer, rows[i].analyzer) && i < n - 1 {
          LessTransitive(rows[before.value].analyzer, rows[n - 1].analyzer, rows[i].analyzer);
        }
      }
    }
  }

  predicate AnyCollides(rows: seq<Row>, row: Row) {
    exists i :: 0 <= i < |rows| && Collides(rows[i], row)
  }

  /** The row a relaunch inserts: the source carried over, at the new version. */
  function Fresh(source: Row, version: string): Row {
    Row(source.url, source.commit,
        if source.commit.Some? then GitBlob(source.url, source.commit.value) else source.blob,
        version, None, 1)
  }

  /** Source shapes as every writer of rows leaves them. */
  predicate Shaped(row: Row) {
    row.blob == (if row.commit.Some? then GitBlob(row.url, row.commit.value)
                 else row.blob) && (row.commit.None? ==> row.blob.Upload?)
  }

  ghost predicate AllShaped(rows: seq<Row>) {
    forall i :: 0 <= i < |rows| ==> Shaped(rows[i])
  }

  // ----------------------------------------------------------------------- runs

  /** A run inserted and sent by one request. */
  function NewRun(repo: nat, call: Call): RunDoc {
    RunDoc(repo, if call.reached then Pending else Failed, None, call.id, [call.id])
  }

  /** The first stamp of a retried run stays. */
  function Stamped(runs: seq<RunDoc>, run: nat, now: nat): seq<RunDoc>
    requires run < |runs|
  {
    if runs[run].retriedAt.None? then runs[run := runs[run].(retriedAt := Some(now))] else runs
  }

  /** A run of `repo` still in flight. */
  function Candidate(runs: seq<RunDoc>, repo: nat, n: nat): (r: Option<nat>)
    requires n <= |runs|
    ensures r.Some? ==> r.value < n && runs[r.value].repo == repo && runs[r.value].status.InFlight()
    ensures r.None? ==> forall i :: 0 <= i < n ==> !(runs[i].repo == repo && runs[i].status.InFlight())
  {
    if n == 0 then None
    else if runs[n - 1].repo == repo && runs[n - 1].status.InFlight() then Some(n - 1)
    else Candidate(runs, repo, n - 1)
  }

  /** The runs once a run in flight that is confirmed dead has been settled. */
  function Reconciled(runs: seq<RunDoc>, repo: nat, dead: nat -> bool): seq<RunDoc> {
    var c := Candidate(runs, repo, |runs|);
    if c.Some? && dead(c.value) then runs[c.value := runs[c.value].(status := Failed)] else runs
  }

  /** A relaunch at the current version has nothing to do: the latest run has not failed. */
  predicate NothingToRepair(runs: seq<RunDoc>, repo: nat) {
    var latest := Latest(runs, repo, |runs|);
    latest.Some? && !runs[latest.value].status.Failed?
  }

  /**
   One more run of the repository, its newest, inserted and sent once by this call. A
   predecessor carries a stamp, an earlier one is kept, and nothing else has changed.
   */
  ghost predicate Restarted(runs: seq<RunDoc>, runs': seq<RunDoc>, repo: nat, call: Call) {
    var n := |runs|;
    && |runs'| == n + 1 && Latest(runs', repo, n + 1) == Some(n)
    && runs'[n].owner == call.id && runs'[n].sentBy == [call.id] && runs'[n].retriedAt == None
    && runs'[n].status == (if call.reached then Pending else Failed)
    && forall i :: 0 <= i < n ==>
         && runs'[i].(retriedAt := runs[i].retriedAt) == runs[i]
         && runs'[i].retriedAt == (if Latest(runs, repo, n) == Some(i) && runs[i].retriedAt.None?
                                   then Some(call.now) else runs[i].retriedAt)
  }

  /** A repair starts a run, unless one is in flight already. */
  ghost predicate Repaired(runs: seq<RunDoc>, runs': seq<RunDoc>, repo: nat, call: Call, r: Reply) {
    if Held(runs, repo, -1) then runs' == runs && r == Landed(repo, Pending)
    else
      && Restarted(runs, runs', repo, call)
      && r == (if call.reached then Landed(repo, Pending) else WorkerUnreachable)
  }

  /** What joining does to the runs: a failed analysis is restarted, any other left alone. */
  ghost predicate JoinedRuns(runs: seq<RunDoc>, runs': seq<RunDoc>, repo: nat, call: Call, r: Reply) {
    var latest := Latest(runs, repo, |runs|);
    if latest.Some? && runs[latest.value].status.Failed? then Repaired(runs, runs', repo, call, r)
    else
      && runs' == runs
      && r == Landed(repo, if latest.Some? then runs[latest.value].status else Pending)
  }

  /** An answer of "pending" after a repair means that a run is in flight. */
  lemma {:induction false} PendingIsInFlight(
      runs: seq<RunDoc>, runs': seq<RunDoc>, repo: nat, call: Call, r: Reply)
    requires Repaired(runs, runs', repo, call, r) && r.Landed?
    ensures Held(runs', repo, -1)
  {
    if !Held(runs, repo, -1) {
      var n := |runs|;
      assert runs'[n].repo == repo && runs'[n].status.InFlight();
    }
  }

  // ---------------------------------------------------------------- the requests

  class Store {
    var rows: seq<Row>
    var links: set<(nat, nat)>
    var runs: seq<RunDoc>

    ghost function State(): Db
      reads this
    {
      Db(rows, links, runs)
    }

    /** Links and runs belong to stored rows. */
    ghost predicate InRange()
      reads this
    {
      && (forall l :: l in links ==> l.1 < |rows|)
      && (forall i :: 0 <= i < |runs| ==> runs[i].repo < |rows|)
    }

    method AddToCount(repo: nat, d: int)
      requires repo < |rows|
      modifies this`rows
      ensures rows == old(rows)[repo := old(rows)[repo].(count := old(rows)[repo].count + d)]
    {
      rows := rows[repo := rows[repo].(count := rows[repo].count + d)];
    }

    /** Claims a slot, then links; an existing link gives the slot back. */
    method AcquireRepoLink(repo: nat, user: nat) returns (r: Option<Reply>)
      requires repo < |rows|
      modifies this`rows, this`links
      ensures old(rows[repo].count) <= 0 ==> r == Some(NotFound)
      ensures old(rows[repo].count) > 0 && (user, repo) in old(links) ==> r == Some(Conflict)
      ensures r.Some? ==> rows == old(rows) && links == old(links)
      ensures r.None? <==> old(rows[repo].count) > 0 && (user, repo) !in old(links)
      ensures r.None? ==>
                && rows == old(rows)[repo := old(rows)[repo].(count := old(rows)[repo].count + 1)]
                && links == old(links) + {(user, repo)}
    {
      if rows[repo].count <= 0 {
        return Some(NotFound);
      }
      AddToCount(repo, 1);
      if (user, repo) in links {
        AddToCount(repo, -1);
        return Some(Conflict);
      }
      links := links + {(user, repo)};
      r := None;
    }

    /** Dispatches a run; one the worker did not take is marked failed. */
    method Dispatch(run: nat, call: Call) returns (r: Reply)
      requires run < |runs|
      modifies this`runs
      ensures var d := old(runs)[run];
              runs == old(runs)[run := d.(sentBy := d.sentBy + [call.id],
                                          status := if call.reached then d.status else Failed)]
      ensures r == (if call.reached then Landed(runs[run].repo, Pending) else WorkerUnreachable)
    {
      runs := runs[run := runs[run].(sentBy := runs[run].sentBy + [call.id])];
      if !call.reached {
        runs := runs[run := runs[run].(status := Failed)];
        return WorkerUnreachable;
      }
      r := Landed(runs[run].repo, Pending);
    }

    method ClaimNextRun(repo: nat, call: Call) returns (run: Option<nat>)
      modifies this`runs
      ensures run == (if Held(old(runs), repo, -1) then None else Some(|old(runs)|))
      ensures runs == old(runs) + (if run.Some? then [RunDoc(repo, Pending, None, call.id, [])] else [])
    {
      if Held(runs, repo, -1) {
        return None;
      }
      run := Some(|runs|);
      runs := runs + [RunDoc(repo, Pending, None, call.id, [])];
    }

    method RetryFailedRun(repo: nat, failed: nat, call: Call) returns (r: Reply)
      requires failed < |runs|
      modifies this`runs
      ensures r == Landed(repo, Pending) || (!call.reached && r == WorkerUnreachable)
      ensures Held(old(runs), repo, -1) ==> runs == old(runs)
      ensures !Held(old(runs), repo, -1) ==>
                runs == Stamped(old(runs), failed, call.now) + [NewRun(repo, call)]
      ensures Latest(old(runs), repo, |old(runs)|) == Some(failed) ==>
                Repaired(old(runs), runs, repo, call, r)
    {
      var retry := ClaimNextRun(repo, call);
      if retry.None? {
        return Landed(repo, Pending);
      }
      runs := Stamped(runs, failed, call.now);
      r := Dispatch(retry.value, call);
      assert [] + [call.id] == [call.id];
    }

    /** Links the caller to an existing analysis, restarting one that failed. */
    method JoinAnalysis(repo: nat, user: nat, call: Call) returns (r: Reply)
      requires repo < |rows|
      modifies this
      ensures rows == Joined(old(State()), repo, user).rows
      ensures links == Joined(old(State()), repo, user).links
      ensures r == Conflict <==> old(rows[repo].count) > 0 && (user, repo) in old(links)
      ensures r == NotFound <==> old(rows[repo].count) <= 0
      ensures r.Conflict? || r.NotFound? ==> runs == old(runs)
      ensures r.Landed? ==> r.repo == repo
      ensures r.WorkerUnreachable? ==> !call.reached
      ensures r.Conflict? || r.NotFound? || JoinedRuns(old(runs), runs, repo, call, r)
      ensures r.Conflict? || r.NotFound? || r.Landed? || r.WorkerUnreachable?
      ensures old(InRange()) ==> InRange()
      ensures old(AllShaped(rows)) ==> AllShaped(rows)
    {
      var refused := AcquireRepoLink(repo, user);
      if refused.Some? {
        return refused.value;
      }
      var latest := Latest(runs, repo, |runs|);
      if latest.None? {
        return Landed(repo, Pending);
      }
      if runs[latest.value].status.Failed? {
        r := RetryFailedRun(repo, latest.value, call);
        return;
      }
      r := Landed(repo, runs[latest.value].status);
    }

    /** Inserts a row, links its first holder, and dispatches its run. */
    method StartNewAnalysis(row: Row, user: nat, call: Call) returns (r: Reply)
      requires InRange()
      modifies this
      ensures r == DuplicateKey <==> AnyCollides(old(rows), row)
      ensures r == DuplicateKey ==> unchanged(this)
      ensures r != DuplicateKey ==>
                && rows == old(rows) + [row] && links == old(links) + {(user, |old(rows)|)}
                && runs == old(runs) + [NewRun(|old(rows)|, call)]
                && r == (if call.reached then Landed(|old(rows)|, Pending) else WorkerUnreachable)
      ensures r != DuplicateKey ==>
                Restarted(old(runs), runs, |old(rows)|, call) && InRange()
    {
      if AnyCollides(rows, row) {
        return DuplicateKey;
      }
      var repo := |rows|;
      rows := rows + [row];
      links := links + {(user, repo)};
      var run := |runs|;
      runs := runs + [RunDoc(repo, Pending, None, call.id, [])];
      r := Dispatch(run, call);
      assert [] + [call.id] == [call.id];
    }

    /** A repair of the caller's own row: there is nowhere newer to go. */
    method RelaunchAtCurrentVersion(repo: nat, call: Call) returns (r: Reply)
      modifies this`runs
      ensures r.Landed? ==> r == Landed(repo, Pending)
      ensures r.Conflict? || r.Landed? || (r.WorkerUnreachable? && !call.reached)
      ensures r == Conflict <==> NothingToRepair(old(runs), repo)
      ensures r == Conflict ==> runs == old(runs)
      ensures r != Conflict ==> Repaired(old(runs), runs, repo, call, r)
      ensures r.Landed? ==> Held(runs, repo, -1)
    {
      var latest := Latest(runs, repo, |runs|);
      if latest.None? {
        var repair := ClaimNextRun(repo, call);
        if repair.Some? {
          r := Dispatch(repair.value, call);
          assert [] + [call.id] == [call.id];
          assert r.Landed? ==> runs[|old(runs)|].repo == repo;
          return;
        }
        return Landed(repo, Pending);
      }
      if runs[latest.value].status.Failed? {
        r := RetryFailedRun(repo, latest.value, call);
        if r.Landed? { PendingIsInFlight(old(runs), runs, repo, call, r); }
        return;
      }
      r := Conflict;
    }

    /** Moves the caller onto an analysis of the same source at `version`. */
    method RelaunchAtNewVersion(source: Row, user: nat, version: string, call: Call)
      returns (r: Reply)
      requires AllShaped(rows) && Shaped(source)
      requires InRange()
      modifies this
      ensures rows == Moved(old(State()), source, user, version).rows
      ensures links == Moved(old(State()), source, user, version).links
      ensures r == Conflict <==> Refused(old(State()), source, user, version)
      ensures r == Conflict ==> runs == old(runs)
      ensures r.Landed? ==> r.repo == Landing(old(rows), source, version)
      ensures r != Conflict ==>
                var n := Landing(old(rows), source, version);
                if n == |old(rows)| then
                  && Restarted(old(runs), runs, n, call)
                  && r == (if call.reached then Landed(n, Pending) else WorkerUnreachable)
                else JoinedRuns(old(runs), runs, n, call, r)
      ensures r.Conflict? || r.Landed? || (r.WorkerUnreachable? && !call.reached)
      ensures AllShaped(rows) && InRange()
    {
      hide Restarted, Repaired, JoinedRuns, Collides;
      var existing := FindLive(rows, source, version, |rows|);
      if existing.None? {
        CollisionIsFound(rows, source, version);
        r := StartNewAnalysis(Fresh(source, version), user, call);
        if r != DuplicateKey {
          return;
        }
        existing := FindLiveByKey(rows, source, version, |rows|);
      }
      r := JoinAnalysis(existing.value, user, call);
    }

    /** Settles the repository's run in flight when the worker confirms it dead. */
    method Reconcile(repo: nat, dead: nat -> bool)
      modifies this`runs
      ensures runs == Reconciled(old(runs), repo, dead)
    {
      var candidate := Candidate(runs, repo, |runs|);
      if candidate.None? || !dead(candidate.value) {
        return;
      }
      runs := runs[candidate.value := runs[candidate.value].(status := Failed)];
    }

    /**
     Access to the remote is checked first, then the worker's version, and nothing is
     written before both. A dead run is settled next. The branch is chosen by the same
     predicate the API reports as `stale`.
     */
    method RelaunchRepo(
        repo: nat, user: nat, version: Option<string>, parse: string -> Option<real>,
        remote: bool, dead: nat -> bool, call: Call)
      returns (r: Reply)
      requires AllShaped(rows) && repo < |rows|
      requires InRange()
      modifies this
      ensures r == NoAccess <==> old(rows[repo]).commit.Some? && !remote
      ensures r == NoVersion <==> r != NoAccess && version.None?
      ensures r.NoAccess? || r.NoVersion? ==> unchanged(this)
      ensures !r.NoAccess? && !r.NoVersion? ==>
                && State().(runs := []) == Relaunched(old(State()), repo, user, version.value, parse).(runs := [])
                && (r.Conflict? || r.Landed? || (r.WorkerUnreachable? && !call.reached))
                && (r == Conflict ==> runs == Reconciled(old(runs), repo, dead))
                && (r != Conflict ==>
                      RelaunchedRuns(old(State()), repo, version.value, parse,
                                     Reconciled(old(runs), repo, dead), runs, call, r))
                && (r == Conflict <==>
                      if IsStale(parse, old(rows[repo]), version.value)
                      then Refused(old(State()), old(rows[repo]), user, version.value)
                      else NothingToRepair(Reconciled(old(runs), repo, dead), repo))
                && (r.Landed? ==> (r.repo != repo <==> IsStale(parse, old(rows[repo]), version.value)))
      ensures AllShaped(rows) && InRange()
    {
      if rows[repo].commit.Some? && !remote {
        return NoAccess;
      }
      if version.None? {
        return NoVersion;
      }
      Reconcile(repo, dead);
      if !IsStale(parse, rows[repo], version.value) {
        r := RelaunchAtCurrentVersion(repo, call);
        return;
      }
      LandsElsewhere(rows, repo, version.value, parse);
      r := RelaunchAtNewVersion(rows[repo], user, version.value, call);
    }
  }

  /**
   A run in flight that is confirmed dead does not block its repository: once settled
   the latest run counts as failed, so a relaunch there is a retry.
   */
  lemma {:induction false} DeadRunIsRepaired(runs: seq<RunDoc>, repo: nat, dead: nat -> bool, i: nat)
    requires OneInFlight(runs) && Latest(runs, repo, |runs|) == Some(i)
    requires runs[i].status.InFlight() && dead(i)
    ensures !NothingToRepair(Reconciled(runs, repo, dead), repo)
    ensures !Held(Reconciled(runs, repo, dead), repo, -1)
  {
    var c := Candidate(runs, repo, |runs|);
    assert c.Some? && c.value == i;
    LatestIgnoresStatus(runs, Reconciled(runs, repo, dead), repo, |runs|);
  }

  lemma {:induction false} LatestIgnoresStatus(runs: seq<RunDoc>, runs': seq<RunDoc>, repo: nat, n: nat)
    requires n <= |runs| == |runs'| && forall i :: 0 <= i < n ==> runs'[i].repo == runs[i].repo
    ensures Latest(runs', repo, n) == Latest(runs, repo, n)
  {
    if n > 0 { LatestIgnoresStatus(runs, runs', repo, n - 1); }
  }

  // ------------------------------------------------------------- specifications

  /** One user joins one row: a slot and a link, or nothing. */
  function Joined(db: Db, repo: nat, user: nat): Db {
    if repo < |db.rows| && db.rows[repo].count > 0 && (user, repo) !in db.links then
      db.(rows := db.rows[repo := db.rows[repo].(count := db.rows[repo].count + 1)],
          links := db.links + {(user, repo)})
    else db
  }

  /** The row a move to `version` lands on: a new one where no live row will do. */
  function Landing(rows: seq<Row>, source: Row, version: string): nat {
    var floor := FindLive(rows, source, version, |rows|);
    var key := FindLiveByKey(rows, source, version, |rows|);
    if floor.Some? then floor.value else if key.Some? then key.value else |rows|
  }

  function Moved(db: Db, source: Row, user: nat, version: string): Db {
    var n := Landing(db.rows, source, version);
    if n < |db.rows| then Joined(db, n, user)
    else db.(rows := db.rows + [Fresh(source, version)], links := db.links + {(user, n)})
  }

  predicate Refused(db: Db, source: Row, user: nat, version: string) {
    Landing(db.rows, source, version) < |db.rows|
    && (user, Landing(db.rows, source, version)) in db.links
  }

  function Relaunched(
      db: Db, repo: nat, user: nat, version: string, parse: string -> Option<real>): Db
    requires repo < |db.rows|
  {
    if IsStale(parse, db.rows[repo], version) then Moved(db, db.rows[repo], user, version) else db
  }

  /** What a relaunch that is not refused does to the settled runs. */
  ghost predicate RelaunchedRuns(
      db: Db, repo: nat, version: string, parse: string -> Option<real>, runs: seq<RunDoc>,
      runs': seq<RunDoc>, call: Call, r: Reply)
    requires repo < |db.rows|
  {
    if !IsStale(parse, db.rows[repo], version) then
      Repaired(runs, runs', repo, call, r) && (r.Landed? ==> Held(runs', repo, -1))
    else
      var n := Landing(db.rows, db.rows[repo], version);
      if n == |db.rows| then
        && Restarted(runs, runs', n, call)
        && r == (if call.reached then Landed(n, Pending) else WorkerUnreachable)
      else JoinedRuns(runs, runs', n, call, r)
  }

  /** Losing the insertion race names a winner: the unique key's owner is found. */
  lemma CollisionIsFound(rows: seq<Row>, source: Row, version: string)
    requires AllShaped(rows) && Shaped(source)
    ensures AnyCollides(rows, Fresh(source, version))
            <==> FindLiveByKey(rows, source, version, |rows|).Some?
  {
    var row := Fresh(source, version);
    forall i | 0 <= i < |rows| ensures Collides(rows[i], row) <==> OwnsKey(rows[i], source, version) {
      assert Shaped(rows[i]);
    }
  }

  /** Being stale rules out the caller's own row, by floor and by key. */
  lemma LandsElsewhere(rows: seq<Row>, repo: nat, version: string, parse: string -> Option<real>)
    requires repo < |rows| && IsStale(parse, rows[repo], version)
    ensures Landing(rows, rows[repo], version) != repo
  {
  }

  // ------------------------------------------------------------------ idempotence

  /** Rows that differ at most in how far above zero they are counted. */
  ghost predicate SameButCount(rows: seq<Row>, rows': seq<Row>) {
    && |rows| == |rows'|
    && forall i :: 0 <= i < |rows| ==>
         rows'[i] == rows[i].(count := rows'[i].count) && (rows'[i].count > 0 <==> rows[i].count > 0)
  }

  lemma {:induction false} LookupsIgnoreCount(
      rows: seq<Row>, rows': seq<Row>, source: Row, version: string, n: nat)
    requires SameButCount(rows, rows') && n <= |rows|
    ensures FindLive(rows', source, version, n) == FindLive(rows, source, version, n)
    ensures FindLiveByKey(rows', source, version, n) == FindLiveByKey(rows, source, version, n)
  {
    if n > 0 {
      LookupsIgnoreCount(rows, rows', source, version, n - 1);
      assert rows'[n - 1] == rows[n - 1].(count := rows'[n - 1].count);
    }
  }

  lemma {:induction false} FirstOfSource(rows: seq<Row>, row: Row, source: Row, version: string, n: nat)
    requires n <= |rows|
    requires FindLive(rows, source, version, n).None? && FindLiveByKey(rows, source, version, n).None?
    ensures FindLive(rows + [row], source, version, n).None?
    ensures FindLiveByKey(rows + [row], source, version, n).None?
  {
    var rs := rows + [row];
    forall i | 0 <= i < n
      ensures !AtFloor(rs[i], source, version) && !OwnsKey(rs[i], source, version)
    {
      assert rs[i] == rows[i];
    }
  }

  /**
   A relaunch settles where its source lands: any later relaunch of the same source
   at that version, by this holder or another, lands on the row this one used.
   */
  lemma {:induction false} LandingSettles(db: Db, source: Row, other: Row, user: nat, version: string)
    requires AllShaped(db.rows) && Shaped(source) && Shaped(other) && SameSource(other, source)
    ensures var n := Landing(db.rows, source, version);
            && Landing(Moved(db, source, user, version).rows, other, version) == n
            && n < |Moved(db, source, user, version).rows|
            && (user, n) in Moved(db, source, user, version).links
  {
    var n := Landing(db.rows, source, version);
    var rows' := Moved(db, source, user, version).rows;
    SameLookups(rows', source, other, version, |rows'|);
    if n < |db.rows| {
      assert db.rows[n].count > 0;
      LookupsIgnoreCount(db.rows, rows', source, version, |db.rows|);
    } else {
      FirstOfSource(db.rows, Fresh(source, version), source, version, |db.rows|);
      assert AtFloor(rows'[n], source, version);
    }
  }

  lemma {:induction false} SameLookups(
      rows: seq<Row>, source: Row, other: Row, version: string, n: nat)
    requires n <= |rows| && Shaped(source) && Shaped(other) && SameSource(other, source)
    ensures FindLive(rows, other, version, n) == FindLive(rows, source, version, n)
    ensures FindLiveByKey(rows, other, version, n) == FindLiveByKey(rows, source, version, n)
  {
    if n > 0 { SameLookups(rows, source, other, version, n - 1); }
  }

  /**
   Idempotence: relaunching a stale repository again at the same version answers
   409, adds no row and no link, and leaves every count alone. The first relaunch
   may have created a row, joined one found by version floor, or joined one found
   only through the unique key.
   */
  lemma {:induction false} RelaunchTwice(
      db: Db, repo: nat, user: nat, version: string, parse: string -> Option<real>)
    requires AllShaped(db.rows) && repo < |db.rows| && IsStale(parse, db.rows[repo], version)
    ensures var once := Relaunched(db, repo, user, version, parse);
            && repo < |once.rows| && IsStale(parse, once.rows[repo], version)
            && Refused(once, once.rows[repo], user, version)
            && Relaunched(once, repo, user, version, parse) == once
  {
    var once := Relaunched(db, repo, user, version, parse);
    LandsElsewhere(db.rows, repo, version, parse);
    assert Shaped(db.rows[repo]);
    LandingSettles(db, db.rows[repo], db.rows[repo], user, version);
    assert once.rows[repo] == db.rows[repo];
  }

  /** Two holders of one source end on the same row, and it is counted for both. */
  lemma {:induction false} HoldersConverge(
      db: Db, a: nat, b: nat, user: nat, other: nat, version: string, parse: string -> Option<real>)
    requires AllShaped(db.rows) && a < |db.rows| && b < |db.rows| && user != other
    requires SameSource(db.rows[b], db.rows[a])
    requires IsStale(parse, db.rows[a], version) && IsStale(parse, db.rows[b], version)
    ensures var n := Landing(db.rows, db.rows[a], version);
            var once := Relaunched(db, a, user, version, parse);
            && b < |once.rows|
            && var twice := Relaunched(once, b, other, version, parse);
            && {(user, n), (other, n)} <= twice.links && |twice.rows| == |once.rows|
            && twice.rows[n].count
               == once.rows[n].count + (if (other, n) in db.links then 0 else 1)
  {
    var once := Relaunched(db, a, user, version, parse);
    assert Shaped(db.rows[a]) && Shaped(db.rows[b]);
    LandsElsewhere(db.rows, a, version, parse);
    SameLookups(db.rows, db.rows[a], db.rows[b], version, |db.rows|);
    LandsElsewhere(db.rows, b, version, parse);
    LandingSettles(db, db.rows[a], db.rows[b], user, version);
    assert once.rows[b] == db.rows[b];
  }

  /**
   The worker may stamp the new row with another version before the second call;
   the version floor then misses it and the unique key still finds it.
   */
  lemma {:induction false} RelaunchAfterStamp(
      db: Db, repo: nat, user: nat, version: string, parse: string -> Option<real>, ran: string)
    requires AllShaped(db.rows) && repo < |db.rows| && IsStale(parse, db.rows[repo], version)
    requires Landing(db.rows, db.rows[repo], version) == |db.rows|
    ensures var once := Relaunched(db, repo, user, version, parse);
            && |once.rows| == |db.rows| + 1
            && var n := |db.rows|;
            var stamped := once.(rows := once.rows[n := once.rows[n].(ran := Some(ran))]);
            && (ran != version ==> FindLive(stamped.rows, db.rows[repo], version, n + 1).None?)
            && Refused(stamped, db.rows[repo], user, version)
            && Relaunched(stamped, repo, user, version, parse) == stamped
  {
    var n := |db.rows|;
    var source := db.rows[repo];
    var row := Fresh(source, version).(ran := Some(ran));
    var once := Relaunched(db, repo, user, version, parse);
    var rows' := once.rows[n := once.rows[n].(ran := Some(ran))];
    assert rows' == db.rows + [row];
    FirstOfSource(db.rows, row, source, version, n);
    assert OwnsKey(rows'[n], source, version);
    assert rows'[repo] == source;
  }
}
