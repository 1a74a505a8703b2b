/**
 The reference count of a shared repository. Requests interleave between their
 single-document writes and may crash between any two of them.
 */
module RepoCount {
  import opened Counting

  /** A repository row: its content-addressed unique key and its `user_count`. */
  datatype Repo = Repo(key: nat, count: int)

  datatype Link = Link(user: nat, repo: nat, live: bool)

  /** Where a request stands, between two of its writes. */
  datatype Request =
    | Creating(repo: nat, user: nat)   // row inserted with one slot, link not yet written
    | Joining(repo: nat, user: nat)    // slot claimed, link not yet written
    | Undoing(repo: nat)               // the link existed, the slot not yet given back
    | Unlinking(link: nat)             // a delete that has read its link
    | Releasing(repo: nat)             // link deleted, the slot not yet given back
    | Leaked(repo: nat)                // ended without giving its slot back
    | Ended

  datatype State = State(repos: seq<Repo>, links: seq<Link>, requests: seq<Request>)

  datatype Event =
    | Create(user: nat, key: nat)
    | Join(user: nat, repo: nat)
    | WriteLink(request: nat)
    | Undo(request: nat)
    | Delete(link: nat)
    | Unlink(request: nat)
    | Release(request: nat)
    | Crash(request: nat)

  predicate Live(s: State, r: nat) {
    r < |s.repos| && s.repos[r].count > 0
  }

  /** The partial unique index on rows still counted. */
  predicate KeyTaken(repos: seq<Repo>, key: nat) {
    exists r :: 0 <= r < |repos| && repos[r].count > 0 && repos[r].key == key
  }

  /** The unique index on links. */
  predicate Linked(links: seq<Link>, user: nat, repo: nat) {
    exists l :: 0 <= l < |links| && links[l] == Link(user, repo, true)
  }

  function Add(repos: seq<Repo>, r: nat, d: int): (rs: seq<Repo>)
    ensures |rs| == |repos|
  {
    if r < |repos| then repos[r := repos[r].(count := repos[r].count + d)] else repos
  }

  function Set(s: State, i: nat, q: Request): State
    requires i < |s.requests|
  {
    s.(requests := s.requests[i := q])
  }

  function Step(s: State, e: Event): State {
    match e
    case Create(user, key) =>
      if KeyTaken(s.repos, key) then s
      else s.(repos := s.repos + [Repo(key, 1)],
              requests := s.requests + [Creating(|s.repos|, user)])
    case Join(user, repo) =>
      if !Live(s, repo) then s
      else s.(repos := Add(s.repos, repo, 1), requests := s.requests + [Joining(repo, user)])
    case Delete(link) =>
      if link < |s.links| && s.links[link].live then s.(requests := s.requests + [Unlinking(link)])
      else s
    case _ =>
      if e.request < |s.requests| then Advance(s, e, s.requests[e.request]) else s
  }

  /** The next write of a request that is under way. */
  function Advance(s: State, e: Event, q: Request): State
    requires !e.Create? && !e.Join? && !e.Delete? && e.request < |s.requests|
    requires q == s.requests[e.request]
  {
    var i := e.request;
    match (e, q)
    case (WriteLink(_), Joining(repo, user)) =>
      if Linked(s.links, user, repo) then Set(s, i, Undoing(repo))
      else Set(s.(links := s.links + [Link(user, repo, true)]), i, Ended)
    case (WriteLink(_), Creating(repo, user)) =>
      if Linked(s.links, user, repo) then Set(s, i, Leaked(repo))
      else Set(s.(links := s.links + [Link(user, repo, true)]), i, Ended)
    case (Undo(_), Undoing(repo)) => Set(s.(repos := Add(s.repos, repo, -1)), i, Ended)
    case (Unlink(_), Unlinking(link)) =>
      if link < |s.links| then
        Set(s.(links := s.links[link := s.links[link].(live := false)]),
            i, Releasing(s.links[link].repo))
      else s
    case (Release(_), Releasing(repo)) => Set(s.(repos := Add(s.repos, repo, -1)), i, Ended)
    case (Crash(_), Creating(repo, _)) => Set(s, i, Leaked(repo))
    case (Crash(_), Joining(repo, _)) => Set(s, i, Leaked(repo))
    case (Crash(_), Undoing(repo)) => Set(s, i, Leaked(repo))
    case (Crash(_), Releasing(repo)) => Set(s, i, Leaked(repo))
    case (Crash(_), Unlinking(_)) => Set(s, i, Ended)
    case _ => s
  }

  // ---------------------------------------------------------------- invariants

  predicate Holds(q: Request, r: nat) {
    match q
    case Creating(repo, _) => repo == r
    case Joining(repo, _) => repo == r
    case Undoing(repo) => repo == r
    case Releasing(repo) => repo == r
    case Leaked(repo) => repo == r
    case _ => false
  }

  predicate On(l: Link, r: nat) {
    l.live && l.repo == r
  }

  /** How many links list repository `r`. */
  function LinksOf(links: seq<Link>, r: nat): nat {
    Count(links, l => On(l, r))
  }

  /** Slots of `r` held outside links: in-flight claims and releases, and leaks. */
  function HoldersOf(requests: seq<Request>, r: nat): nat {
    Count(requests, q => Holds(q, r))
  }

  /** By how much `user_count` exceeds the slots in use. */
  function Drift(s: State, r: nat): int
    requires r < |s.repos|
  {
    s.repos[r].count - LinksOf(s.links, r) - HoldersOf(s.requests, r)
  }

  /** Every slot is accounted for: links, in-flight claims and releases, and leaks. */
  ghost predicate Counted(s: State) {
    forall r :: 0 <= r < |s.repos| ==>
      s.repos[r].count == LinksOf(s.links, r) + HoldersOf(s.requests, r)
  }

  predicate Known(q: Request, s: State) {
    match q
    case Unlinking(link) => link < |s.links|
    case Ended => true
    case _ => q.repo < |s.repos|
  }

  ghost predicate InRange(s: State) {
    && (forall l :: 0 <= l < |s.links| ==> s.links[l].repo < |s.repos|)
    && (forall i :: 0 <= i < |s.requests| ==> Known(s.requests[i], s))
  }

  /** At most one counted row per key. */
  ghost predicate UniqueKeys(repos: seq<Repo>) {
    forall i, j :: 0 <= i < j < |repos| && repos[i].count > 0 && repos[j].count > 0
      ==> repos[i].key != repos[j].key
  }

  /** A user links a repository at most once. */
  ghost predicate UniqueLinks(links: seq<Link>) {
    forall i, j :: 0 <= i < j < |links| && links[i].live ==> links[i] != links[j]
  }

  ghost predicate Consistent(s: State) {
    InRange(s) && UniqueKeys(s.repos) && UniqueLinks(s.links)
  }

  /** A delete that is about to count down for a link of `r` already deleted. */
  predicate StaleUnlink(s: State, e: Event, r: nat) {
    && e.Unlink? && e.request < |s.requests| && s.requests[e.request].Unlinking?
    && s.requests[e.request].link < |s.links|
    && s.links[s.requests[e.request].link] == Link(s.links[s.requests[e.request].link].user, r, false)
  }

  predicate Opens(e: Event) {
    e.Create? || e.Join? || e.Delete?
  }

  // ------------------------------------------------------ one step, and its drift

  lemma {:induction false} StepDrift(s: State, e: Event, r: nat)
    requires InRange(s) && r < |s.repos|
    ensures r < |Step(s, e).repos|
    ensures Drift(Step(s, e), r) == Drift(s, r) - (if StaleUnlink(s, e, r) then 1 else 0)
  {
    if Opens(e) {
      OpenDrift(s, e, r);
    } else if e.request < |s.requests| {
      AdvanceDrift(s, e, r);
    }
  }

  lemma OpenDrift(s: State, e: Event, r: nat)
    requires Opens(e) && r < |s.repos|
    ensures r < |Step(s, e).repos| && Drift(Step(s, e), r) == Drift(s, r)
  {
    var q := if e.Create? then Creating(|s.repos|, e.user)
             else if e.Join? then Joining(e.repo, e.user)
             else Unlinking(e.link);
    CountAppend(s.requests, q, x => Holds(x, r));
  }

  lemma AdvanceDrift(s: State, e: Event, r: nat)
    requires InRange(s) && r < |s.repos| && !Opens(e) && e.request < |s.requests|
    ensures r < |Step(s, e).repos|
    ensures Drift(Step(s, e), r) == Drift(s, r) - (if StaleUnlink(s, e, r) then 1 else 0)
  {
    hide LinksOf, Count, Linked;
    var q := s.requests[e.request];
    var s' := Advance(s, e, q);
    assert Known(q, s);
    AdvanceLinks(s, e, r);
    if s' != s {
      assert s'.requests == s.requests[e.request := s'.requests[e.request]];
      CountUpdate(s.requests, e.request, s'.requests[e.request], x => Holds(x, r));
    }
  }

  lemma AdvanceLinks(s: State, e: Event, r: nat)
    requires InRange(s) && r < |s.repos| && !Opens(e) && e.request < |s.requests|
    ensures var q := s.requests[e.request];
            LinksOf(Advance(s, e, q).links, r)
            == LinksOf(s.links, r)
               + (if e.WriteLink? && (q.Creating? || q.Joining?) && q.repo == r
                     && !Linked(s.links, q.user, r) then 1 else 0)
               - (if e.Unlink? && q.Unlinking? && q.link < |s.links| && On(s.links[q.link], r)
                  then 1 else 0)
  {
    hide Advance, LinksOf;
    var q := s.requests[e.request];
    assert Known(q, s);
    AdvancedLinks(s, e);
    if e.WriteLink? && (q.Creating? || q.Joining?) {
      OneMoreLink(s.links, Link(q.user, q.repo, true), r);
    } else if e.Unlink? && q.Unlinking? {
      OneLinkLess(s.links, q.link, r);
    }
  }

  /** What a request's write does to the links. */
  lemma AdvancedLinks(s: State, e: Event)
    requires !Opens(e) && e.request < |s.requests|
    ensures var q := s.requests[e.request];
            Advance(s, e, q).links
            == if e.WriteLink? && (q.Creating? || q.Joining?) then
                 s.links + (if Linked(s.links, q.user, q.repo) then [] else [Link(q.user, q.repo, true)])
               else if e.Unlink? && q.Unlinking? && q.link < |s.links| then
                 s.links[q.link := s.links[q.link].(live := false)]
               else s.links
  {
    hide Linked;
  }

  lemma OneMoreLink(links: seq<Link>, l: Link, r: nat)
    requires l.live
    ensures LinksOf(links + [l], r) == LinksOf(links, r) + (if l.repo == r then 1 else 0)
    ensures links + [] == links
  {
    CountAppend(links, l, x => On(x, r));
  }

  lemma OneLinkLess(links: seq<Link>, i: nat, r: nat)
    requires i < |links|
    ensures LinksOf(links[i := links[i].(live := false)], r)
            == LinksOf(links, r) - (if On(links[i], r) then 1 else 0)
  {
    CountUpdate(links, i, links[i].(live := false), x => On(x, r));
  }

  /** A row starts with its creator's slot and nothing else. */
  lemma NewRowDrift(s: State, e: Event)
    requires InRange(s) && |Step(s, e).repos| > |s.repos|
    ensures |Step(s, e).repos| == |s.repos| + 1 && Drift(Step(s, e), |s.repos|) == 0
  {
    var r := |s.repos|;
    CountNone(s.links, l => On(l, r));
    forall i | 0 <= i < |s.requests| ensures !Holds(s.requests[i], r) {
      assert Known(s.requests[i], s);
    }
    CountNone(s.requests, q => Holds(q, r));
    CountAppend(s.requests, Creating(r, e.user), q => Holds(q, r));
  }

  lemma StepInRange(s: State, e: Event)
    requires InRange(s)
    ensures InRange(Step(s, e))
  {
    var s' := Step(s, e);
    forall i | 0 <= i < |s'.requests| ensures Known(s'.requests[i], s') {
      if i < |s.requests| { assert Known(s.requests[i], s); }
    }
  }

  lemma StepUnique(s: State, e: Event)
    requires InRange(s) && UniqueKeys(s.repos) && UniqueLinks(s.links)
    ensures UniqueKeys(Step(s, e).repos) && UniqueLinks(Step(s, e).links)
  {
    var s' := Step(s, e);
    StepOnlyLowers(s, e);
    assert forall l :: 0 <= l < |s.links| ==>
      s'.links[l] == s.links[l] || s'.links[l] == s.links[l].(live := false);
  }

  /** A row that is no longer counted is never counted again. */
  lemma StepOnlyLowers(s: State, e: Event)
    ensures |s.repos| <= |Step(s, e).repos| && |s.links| <= |Step(s, e).links|
    ensures forall r :: 0 <= r < |s.repos| ==>
              && Step(s, e).repos[r].key == s.repos[r].key
              && (Step(s, e).repos[r].count > 0 ==> s.repos[r].count > 0)
              && (s.repos[r].count <= 0 ==> Step(s, e).repos[r].count <= s.repos[r].count)
  {
  }

  // ----------------------------------------------------------------- whole runs

  function Init(es: seq<Event>): seq<Event>
    requires es != []
  {
    es[..|es| - 1]
  }

  function Last(es: seq<Event>): Event
    requires es != []
  {
    es[|es| - 1]
  }

  function Run(es: seq<Event>): State
    decreases |es|
  {
    if es == [] then State([], [], []) else Step(Run(Init(es)), Last(es))
  }

  /** How many stale deletes of `r` a run performs. */
  function StaleUnlinks(es: seq<Event>, r: nat): nat
    decreases |es|
  {
    if es == [] then 0
    else StaleUnlinks(Init(es), r) + (if StaleUnlink(Run(Init(es)), Last(es), r) then 1 else 0)
  }

  /** In every interleaving, keys and links stay unique, whatever crashes. */
  lemma {:induction false} RunConsistent(es: seq<Event>)
    ensures Consistent(Run(es))
    decreases |es|
  {
    if es != [] {
      RunConsistent(Init(es));
      StepInRange(Run(Init(es)), Last(es));
      StepUnique(Run(Init(es)), Last(es));
    }
  }

  /** Conservation: the count is off by exactly the stale deletes performed. */
  lemma {:induction false} RunDrift(es: seq<Event>, r: nat)
    requires r < |Run(es).repos|
    ensures Run(es).repos[r].count
            == LinksOf(Run(es).links, r) + HoldersOf(Run(es).requests, r) - StaleUnlinks(es, r)
    decreases |es|
  {
    hide Step, StaleUnlink, LinksOf, HoldersOf;
    if es != [] {
      var s, e := Run(Init(es)), Last(es);
      RunConsistent(Init(es));
      if r < |s.repos| {
        RunDrift(Init(es), r);
        StepDrift(s, e, r);
      } else {
        NewRowDrift(s, e);
        NoStaleBefore(es, r);
      }
    }
  }

  lemma {:induction false} NoStaleBefore(es: seq<Event>, r: nat)
    requires es != [] && |Run(Init(es)).repos| <= r
    ensures StaleUnlinks(es, r) == 0
    decreases |es|
  {
    RunConsistent(Init(es));
    if Init(es) != [] {
      StepOnlyLowers(Run(Init(Init(es))), Last(Init(es)));
      NoStaleBefore(Init(es), r);
    }
  }

  /** Every slot is accounted for exactly when no delete was stale. */
  lemma {:induction false} CountedExactly(es: seq<Event>)
    ensures Counted(Run(es)) <==> forall r :: 0 <= r < |Run(es).repos| ==> StaleUnlinks(es, r) == 0
  {
    hide Run, StaleUnlinks, LinksOf, HoldersOf;
    var s := Run(es);
    if Counted(s) {
      forall r | 0 <= r < |s.repos| ensures StaleUnlinks(es, r) == 0 {
        RunDrift(es, r);
      }
    } else {
      var r :| 0 <= r < |s.repos|
               && s.repos[r].count != LinksOf(s.links, r) + HoldersOf(s.requests, r);
      RunDrift(es, r);
    }
  }

  // -------------------------------------------- at most one delete request per link

  function Deletes(es: seq<Event>, link: nat): nat {
    Count(es, e => e == Delete(link))
  }

  /** Deletes of a link under way or done. */
  function Spent(s: State, link: nat): nat {
    Count(s.requests, q => q == Unlinking(link))
    + (if link < |s.links| && !s.links[link].live then 1 else 0)
  }

  lemma {:induction false} SpentStep(s: State, e: Event, link: nat)
    requires InRange(s)
    ensures Spent(Step(s, e), link) <= Spent(s, link) + (if e == Delete(link) then 1 else 0)
  {
    var s' := Step(s, e);
    if Opens(e) {
      if |s'.requests| > |s.requests| {
        var q := s'.requests[|s.requests|];
        CountAppend(s.requests, q, x => x == Unlinking(link));
      }
    } else if s' != s {
      var q := s'.requests[e.request];
      assert Known(s.requests[e.request], s);
      assert s'.requests == s.requests[e.request := q];
      CountUpdate(s.requests, e.request, q, x => x == Unlinking(link));
    }
  }

  lemma {:induction false} SpentBounded(es: seq<Event>, link: nat)
    ensures Spent(Run(es), link) <= Deletes(es, link)
    decreases |es|
  {
    hide Step, Consistent;
    if es != [] {
      RunConsistent(Init(es));
      SpentBounded(Init(es), link);
      SpentStep(Run(Init(es)), Last(es), link);
      assert es == Init(es) + [Last(es)];
      CountAppend(Init(es), Last(es), e => e == Delete(link));
    }
  }

  lemma {:induction false} DeletesMonotone(es: seq<Event>, link: nat)
    requires es != []
    ensures Deletes(Init(es), link) <= Deletes(es, link)
  {
    assert es == Init(es) + [Last(es)];
    CountAppend(Init(es), Last(es), e => e == Delete(link));
  }

  /** When no link is deleted by two requests, no delete is stale. */
  lemma {:induction false} OneDeleteIsNeverStale(es: seq<Event>, r: nat)
    requires forall l: nat :: Deletes(es, l) <= 1
    ensures StaleUnlinks(es, r) == 0
    decreases |es|
  {
    if es != [] {
      forall l: nat ensures Deletes(Init(es), l) <= 1 { DeletesMonotone(es, l); }
      OneDeleteIsNeverStale(Init(es), r);
      var s, e := Run(Init(es)), Last(es);
      if StaleUnlink(s, e, r) {
        var link := s.requests[e.request].link;
        SpentBounded(Init(es), link);
        CountPositive(s.requests, e.request, q => q == Unlinking(link));
      }
    }
  }

  /**
   The promise of the counter. In every interleaving of creates, joins and deletes,
   with a crash allowed between any two writes: when no link is deleted twice, the
   count is the live links plus the slots still held elsewhere.
   */
  lemma {:induction false} EverySlotAccounted(es: seq<Event>)
    requires forall l: nat :: Deletes(es, l) <= 1
    ensures Consistent(Run(es)) && Counted(Run(es))
  {
    RunConsistent(es);
    forall r | 0 <= r < |Run(es).repos| ensures StaleUnlinks(es, r) == 0 {
      OneDeleteIsNeverStale(es, r);
    }
    CountedExactly(es);
  }

  // ----------------------------------------------------- what the counter is for

  /** A linked repository is counted, so deduplication and its unique key see it. */
  lemma LinkedIsLive(s: State, l: nat)
    requires Counted(s) && InRange(s) && l < |s.links| && s.links[l].live
    ensures Live(s, s.links[l].repo) && KeyTaken(s.repos, s.repos[s.links[l].repo].key)
  {
    CountPositive(s.links, l, x => On(x, s.links[l].repo));
  }

  /** At zero nobody lists the repository and no request is about to. */
  lemma ZeroIsUnreferenced(s: State, r: nat)
    requires Counted(s) && r < |s.repos|
    ensures s.repos[r].count >= LinksOf(s.links, r) >= 0
    ensures s.repos[r].count == 0 ==>
              && (forall l :: 0 <= l < |s.links| ==> !On(s.links[l], r))
              && (forall i :: 0 <= i < |s.requests| ==> !Holds(s.requests[i], r))
  {
    if s.repos[r].count == 0 {
      forall l | 0 <= l < |s.links| ensures !On(s.links[l], r) {
        if On(s.links[l], r) { CountPositive(s.links, l, x => On(x, r)); }
      }
      forall i | 0 <= i < |s.requests| ensures !Holds(s.requests[i], r) {
        if Holds(s.requests[i], r) { CountPositive(s.requests, i, q => Holds(q, r)); }
      }
    }
  }

  /** A repository that reached zero is never revived, however the run goes on. */
  lemma {:induction false} NeverRevived(es: seq<Event>, more: seq<Event>, r: nat)
    requires r < |Run(es).repos| && Run(es).repos[r].count <= 0
    ensures r < |Run(es + more).repos| && Run(es + more).repos[r].count <= 0
    ensures Run(es + more).repos[r].key == Run(es).repos[r].key
    decreases |more|
  {
    hide Step;
    if more == [] {
      assert es + more == es;
    } else {
      NeverRevived(es, Init(more), r);
      assert Init(es + more) == es + Init(more) && Last(es + more) == Last(more);
      StepOnlyLowers(Run(es + Init(more)), Last(more));
    }
  }

  // --------------------------------------------------- where a live link comes from

  /** The step writes the link of `user` to `r`. */
  predicate Writes(s: State, e: Event, user: nat, r: nat) {
    && e.WriteLink? && e.request < |s.requests| && !Linked(s.links, user, r)
    && s.requests[e.request] in {Joining(r, user), Creating(r, user)}
  }

  predicate Removes(s: State, e: Event, l: nat) {
    e.Unlink? && e.request < |s.requests| && s.requests[e.request] == Unlinking(l)
  }

  /** Link `l` is not removed after step `k`. */
  ghost predicate Kept(es: seq<Event>, k: nat, l: nat) {
    forall j :: k < j < |es| ==> !Removes(Run(es[..j]), es[j], l)
  }

  /** Step `k` wrote the link of `user` to `r`, as number `l`, and it was kept. */
  ghost predicate WroteAt(es: seq<Event>, k: nat, user: nat, r: nat, l: nat) {
    && k < |es| && Writes(Run(es[..k]), es[k], user, r)
    && l == |Run(es[..k]).links| && Kept(es, k, l)
  }

  lemma WroteEarlier(es: seq<Event>, k: nat, user: nat, r: nat, l: nat)
    requires es != [] && k < |Init(es)|
    ensures WroteAt(es, k, user, r, l)
            <==> WroteAt(Init(es), k, user, r, l) && !Removes(Run(Init(es)), Last(es), l)
  {
    hide Run, Removes, Writes;
    assert forall j :: 0 <= j <= |Init(es)| ==> Init(es)[..j] == es[..j];
    assert es[..|Init(es)|] == Init(es);
  }

  /** A live link stays as long as no step removes it. */
  lemma LinkStays(s: State, e: Event, l: nat)
    requires l < |s.links| && !Removes(s, e, l)
    ensures l < |Step(s, e).links| && Step(s, e).links[l] == s.links[l]
  {
  }

  lemma WritesNow(s: State, e: Event, user: nat, r: nat)
    requires Writes(s, e, user, r)
    ensures Step(s, e).links == s.links + [Link(user, r, true)]
  {
  }

  lemma LinkWasThere(s: State, e: Event, l: nat)
    requires l < |Step(s, e).links| && Step(s, e).links[l].live
    ensures l < |s.links| ==> s.links[l] == Step(s, e).links[l] && !Removes(s, e, l)
    ensures l >= |s.links| ==>
              l == |s.links| && Writes(s, e, Step(s, e).links[l].user, Step(s, e).links[l].repo)
  {
  }

  lemma Unfolds(es: seq<Event>)
    requires es != []
    ensures Run(es) == Step(Run(Init(es)), Last(es))
  {
  }

  lemma {:induction false} WrittenIsLive(es: seq<Event>, k: nat, user: nat, r: nat, l: nat)
    requires WroteAt(es, k, user, r, l)
    ensures l < |Run(es).links| && Run(es).links[l] == Link(user, r, true)
    decreases |es|
  {
    hide Run, Step, Writes, Removes;
    Unfolds(es);
    if k < |Init(es)| {
      WroteEarlier(es, k, user, r, l);
      WrittenIsLive(Init(es), k, user, r, l);
      LinkStays(Run(Init(es)), Last(es), l);
    } else {
      assert es[..k] == Init(es);
      WritesNow(Run(Init(es)), Last(es), user, r);
    }
  }

  lemma {:induction false} LiveWasWritten(es: seq<Event>, l: nat) returns (k: nat)
    requires l < |Run(es).links| && Run(es).links[l].live
    ensures WroteAt(es, k, Run(es).links[l].user, Run(es).links[l].repo, l)
    decreases |es|
  {
    hide Run, Step, Writes, Removes;
    if es == [] { NoLinks(); }
    Unfolds(es);
    var s, link := Run(Init(es)), Run(es).links[l];
    LinkWasThere(s, Last(es), l);
    if l < |s.links| {
      k := LiveWasWritten(Init(es), l);
      WroteEarlier(es, k, link.user, link.repo, l);
    } else {
      k := |Init(es)|;
      assert es[..k] == Init(es);
    }
  }

  lemma NoLinks()
    ensures Run([]) == State([], [], [])
  {
  }

  /** A creator is there from the step that inserts its row. */
  lemma CreatorSince(s: State, e: Event, i: nat)
    requires i < |Step(s, e).requests| && Step(s, e).requests[i].Creating?
    ensures i < |s.requests| ==> s.requests[i] == Step(s, e).requests[i] && !(e.WriteLink? && e.request == i)
    ensures i >= |s.requests| ==>
              i == |s.requests| && Step(s, e).requests[i].repo == |s.repos| && e.Create?
  {
  }

  /** Only inserting a row makes a creator, and of that row only. */
  ghost predicate OneCreator(s: State) {
    forall i, j :: 0 <= i < j < |s.requests| && s.requests[i].Creating? && s.requests[j].Creating?
      ==> s.requests[i].repo != s.requests[j].repo
  }

  lemma {:induction false} RunOneCreator(es: seq<Event>)
    ensures OneCreator(Run(es))
    decreases |es|
  {
    hide Run, Step;
    if es == [] {
      NoLinks();
    } else {
      RunConsistent(Init(es));
      RunOneCreator(Init(es));
      Unfolds(es);
      var s, s' := Run(Init(es)), Run(es);
      forall i, j | 0 <= i < j < |s'.requests| && s'.requests[i].Creating? && s'.requests[j].Creating?
        ensures s'.requests[i].repo != s'.requests[j].repo
      {
        CreatorSince(s, Last(es), i);
        CreatorSince(s, Last(es), j);
        assert Known(s.requests[i], s);
      }
    }
  }

  lemma {:induction false} RowsOnlyAdded(es: seq<Event>, k: nat)
    requires k <= |es|
    ensures |Run(es[..k]).repos| <= |Run(es).repos|
    decreases |es|
  {
    if k < |es| {
      StepOnlyLowers(Run(Init(es)), Last(es));
      RowsOnlyAdded(Init(es), k);
      assert Init(es)[..k] == es[..k];
    } else {
      assert es[..k] == es;
    }
  }

  /** A creator that has not written its link leaves the row's links to joins. */
  lemma {:induction false} OnlyJoinsWrote(es: seq<Event>, i: nat, k: nat)
    requires i < |Run(es).requests| && Run(es).requests[i].Creating? && k < |es| && es[k].WriteLink?
    requires es[k].request < |Run(es[..k]).requests|
    ensures var q := Run(es[..k]).requests[es[k].request];
            q.Creating? ==> q.repo != Run(es).requests[i].repo
    decreases |es|
  {
    hide Run, Step;
    Unfolds(es);
    var s := Run(Init(es));
    var q := Run(es[..k]).requests[es[k].request];
    RunOneCreator(Init(es));
    CreatorSince(s, Last(es), i);
    if k == |Init(es)| {
      assert es[..k] == Init(es);
    } else {
      assert Init(es)[..k] == es[..k];
      if i < |s.requests| {
        OnlyJoinsWrote(Init(es), i, k);
      } else {
        RunConsistent(es[..k]);
        RowsOnlyAdded(Init(es), k);
        assert Known(q, Run(es[..k]));
      }
    }
  }

  /** The user's own join wrote its link, and no delete has removed it. */
  ghost predicate JoinKept(es: seq<Event>, user: nat, r: nat) {
    exists k: nat, l: nat :: WroteAt(es, k, user, r, l)
      && Run(es[..k]).requests[es[k].request] == Joining(r, user)
  }

  lemma JoinedSince(s: State, e: Event, i: nat)
    requires i < |Step(s, e).requests| && Step(s, e).requests[i].Joining?
    ensures i < |s.requests| ==> s.requests[i] == Step(s, e).requests[i]
    ensures i >= |s.requests| ==>
              e == Join(Step(s, e).requests[i].user, Step(s, e).requests[i].repo)
  {
  }

  lemma {:induction false} JoinedBefore(es: seq<Event>, i: nat)
    requires i < |Run(es).requests| && Run(es).requests[i].Joining?
    ensures Join(Run(es).requests[i].user, Run(es).requests[i].repo) in es
    decreases |es|
  {
    hide Run, Step;
    if es == [] { NoLinks(); }
    Unfolds(es);
    JoinedSince(Run(Init(es)), Last(es), i);
    if i < |Run(Init(es)).requests| { JoinedBefore(Init(es), i); }
  }

  /**
   A creator's link collides if and only if the same user's own join has written its
   link meanwhile and no delete has removed it; without such a join it never does.
   */
  lemma {:induction false} CreatorCollidesExactly(es: seq<Event>, i: nat)
    requires i < |Run(es).requests| && Run(es).requests[i].Creating?
    ensures var r, u := Run(es).requests[i].repo, Run(es).requests[i].user;
            && (Step(Run(es), WriteLink(i)).requests[i] == Leaked(r) <==> JoinKept(es, u, r))
            && (JoinKept(es, u, r) ==> Join(u, r) in es)
  {
    hide Run, Kept;
    var s := Run(es);
    var r, u := s.requests[i].repo, s.requests[i].user;
    if Linked(s.links, u, r) {
      var l :| 0 <= l < |s.links| && s.links[l] == Link(u, r, true);
      var k := LiveWasWritten(es, l);
      OnlyJoinsWrote(es, i, k);
      assert WroteAt(es, k, u, r, l);
    }
    if JoinKept(es, u, r) {
      var k: nat, l: nat :| WroteAt(es, k, u, r, l) && Run(es[..k]).requests[es[k].request] == Joining(r, u);
      WrittenIsLive(es, k, u, r, l);
      JoinedBefore(es[..k], es[k].request);
      assert forall e :: e in es[..k] ==> e in es;
    }
  }

  // --------------------------------------------------------- where a slot may leak

  /** The step leaves a slot of `r` leaked: a crash, or a creator's link that collides. */
  predicate Leaks(s: State, e: Event, i: nat, r: nat) {
    && i < |s.requests|
    && ((e == Crash(i) && Holds(s.requests[i], r) && !s.requests[i].Leaked?)
        || (e == WriteLink(i) && s.requests[i].Creating? && s.requests[i].repo == r
            && Linked(s.links, s.requests[i].user, r)))
  }

  lemma LeakedNow(s: State, e: Event, i: nat)
    requires i < |Step(s, e).requests| && Step(s, e).requests[i].Leaked?
    ensures i < |s.requests|
    ensures s.requests[i] == Step(s, e).requests[i] || Leaks(s, e, i, Step(s, e).requests[i].repo)
  {
  }

  /** Every leaked slot was left by a crash or by a creator's colliding link. */
  lemma {:induction false} LeakedBecause(es: seq<Event>, i: nat) returns (k: nat)
    requires i < |Run(es).requests| && Run(es).requests[i].Leaked?
    ensures k < |es| && Leaks(Run(es[..k]), es[k], i, Run(es).requests[i].repo)
    decreases |es|
  {
    hide Run, Step, Leaks;
    if es == [] { NoLinks(); }
    Unfolds(es);
    var s := Run(Init(es));
    LeakedNow(s, Last(es), i);
    if s.requests[i] == Run(es).requests[i] {
      k := LeakedBecause(Init(es), i);
      assert Init(es)[..k] == es[..k];
    } else {
      k := |Init(es)|;
      assert es[..k] == Init(es);
    }
  }

  ghost predicate NoLeaks(es: seq<Event>) {
    forall k, i: nat, r: nat :: 0 <= k < |es| ==> !Leaks(Run(es[..k]), es[k], i, r)
  }

  /** Every request has run to its end: nothing is in flight and nothing leaked. */
  ghost predicate AllEnded(s: State) {
    forall i :: 0 <= i < |s.requests| ==> s.requests[i].Ended?
  }

  ghost predicate AllStopped(s: State) {
    forall i :: 0 <= i < |s.requests| ==> s.requests[i].Ended? || s.requests[i].Leaked?
  }

  /**
   When everything has run its course without a crash, a creator's colliding link or a
   stale delete, the count is exactly the live links.
   */
  lemma {:induction false} QuietRunBalances(es: seq<Event>, r: nat)
    requires NoLeaks(es) && AllStopped(Run(es)) && StaleUnlinks(es, r) == 0
    requires r < |Run(es).repos|
    ensures AllEnded(Run(es)) && Run(es).repos[r].count == LinksOf(Run(es).links, r)
  {
    hide Run, StaleUnlinks, LinksOf, Leaks;
    var s := Run(es);
    forall i | 0 <= i < |s.requests| ensures s.requests[i].Ended? {
      if s.requests[i].Leaked? { var k := LeakedBecause(es, i); }
    }
    RunDrift(es, r);
    CountNone(s.requests, q => Holds(q, r));
  }

  /** The next step of a request that is under way. */
  function NextOf(q: Request, i: nat): Event {
    match q
    case Undoing(_) => Undo(i)
    case Unlinking(_) => Unlink(i)
    case Releasing(_) => Release(i)
    case _ => WriteLink(i)
  }

  function StepsLeft(q: Request): nat {
    match q
    case Creating(_, _) => 1
    case Joining(_, _) => 2
    case Undoing(_) => 1
    case Unlinking(_) => 2
    case Releasing(_) => 1
    case _ => 0
  }

  /** A request left alone comes to its end, and disturbs no other. */
  lemma {:induction false} RequestsProceed(s: State, i: nat)
    requires InRange(s) && i < |s.requests| && StepsLeft(s.requests[i]) > 0
    ensures var s' := Step(s, NextOf(s.requests[i], i));
            && |s'.requests| == |s.requests| && StepsLeft(s'.requests[i]) < StepsLeft(s.requests[i])
            && (forall j :: 0 <= j < |s.requests| && j != i ==> s'.requests[j] == s.requests[j])
  {
    assert Known(s.requests[i], s);
  }

  /** Joining a repository one already lists changes nothing in the end. */
  lemma {:induction false} JoinTwiceIsUndone(s: State, user: nat, r: nat)
    requires InRange(s) && Live(s, r) && Linked(s.links, user, r)
    ensures var i := |s.requests|;
            var s' := Step(Step(Step(s, Join(user, r)), WriteLink(i)), Undo(i));
            s'.repos == s.repos && s'.links == s.links && s'.requests == s.requests + [Ended]
  {
    var i := |s.requests|;
    var joined := Step(s, Join(user, r));
    assert joined.requests[i] == Joining(r, user);
    var refused := Step(joined, WriteLink(i));
    assert refused.requests == s.requests + [Undoing(r)];
  }

  /** Joining a counted repository for the first time adds one slot and one link. */
  lemma {:induction false} JoinCounts(s: State, user: nat, r: nat)
    requires Live(s, r) && !Linked(s.links, user, r)
    ensures var i := |s.requests|;
            var s' := Step(Step(s, Join(user, r)), WriteLink(i));
            && s'.repos == s.repos[r := s.repos[r].(count := s.repos[r].count + 1)]
            && s'.links == s.links + [Link(user, r, true)] && s'.requests == s.requests + [Ended]
  {
    var joined := Step(s, Join(user, r));
    assert joined.requests[|s.requests|] == Joining(r, user);
  }

  /** Deleting a live link, left alone, gives back its slot. */
  lemma {:induction false} DeleteCounts(s: State, link: nat)
    requires InRange(s) && link < |s.links| && s.links[link].live
    ensures var i, r := |s.requests|, s.links[link].repo;
            var s' := Step(Step(Step(s, Delete(link)), Unlink(i)), Release(i));
            && s'.repos == s.repos[r := s.repos[r].(count := s.repos[r].count - 1)]
            && s'.links == s.links[link := s.links[link].(live := false)]
            && s'.requests == s.requests + [Ended]
  {
    var i := |s.requests|;
    var read := Step(s, Delete(link));
    assert read.requests[i] == Unlinking(link);
    var gone := Step(read, Unlink(i));
    assert gone.requests == s.requests + [Releasing(s.links[link].repo)];
  }

  /** A row is refused exactly when a counted row has its key, and a join exactly at zero. */
  lemma {:induction false} AdmitsExactly(s: State, user: nat, key: nat, r: nat)
    ensures Step(s, Create(user, key)) == s
            <==> exists i :: 0 <= i < |s.repos| && s.repos[i].count > 0 && s.repos[i].key == key
    ensures Step(s, Join(user, r)) == s <==> |s.repos| <= r || s.repos[r].count <= 0
  {
    var made := Step(s, Create(user, key));
    assert made != s ==> |made.repos| == |s.repos| + 1;
    var joined := Step(s, Join(user, r));
    assert joined != s ==> |joined.requests| == |s.requests| + 1;
  }

  /** Creating a repository nobody counts under its key gives a row with one holder. */
  lemma {:induction false} CreateCounts(s: State, user: nat, key: nat)
    requires InRange(s) && !KeyTaken(s.repos, key)
    ensures var i, r := |s.requests|, |s.repos|;
            var s' := Step(Step(s, Create(user, key)), WriteLink(i));
            && s'.repos == s.repos + [Repo(key, 1)] && s'.links == s.links + [Link(user, r, true)]
            && s'.requests == s.requests + [Ended]
  {
    var i := |s.requests|;
    var made := Step(s, Create(user, key));
    assert made.requests[i] == Creating(|s.repos|, user);
  }

  // ------------------------------------------------------------- counterexamples

  lemma Then(es: seq<Event>, e: Event, r: nat)
    ensures Run(es + [e]) == Step(Run(es), e)
    ensures StaleUnlinks(es + [e], r)
            == StaleUnlinks(es, r) + (if StaleUnlink(Run(es), e, r) then 1 else 0)
  {
    assert Init(es + [e]) == es;
  }

  /**
   Two deletes of one link, both read before either is applied, count down twice:
   a repository drops to zero, out of its unique key, while another user lists it.
   */
  lemma DeletedTwice() returns (es: seq<Event>)
    ensures var s := Run(es);
            && |s.links| == 2 && s.links[1] == Link(2, 0, true)
            && s.repos == [Repo(7, 0)] && !KeyTaken(s.repos, 7)
            && StaleUnlinks(es, 0) == 1
  {
    hide Run, StaleUnlinks, Step;
    es := BothUnlinked();
    es := Twice(es, Release(2), Release(3));
    BothReleased(State([Repo(7, 2)], [Link(1, 0, false), Link(2, 0, true)],
                       [Ended, Ended, Releasing(0), Releasing(0)]));
  }

  lemma Twice(es: seq<Event>, d: Event, e: Event) returns (more: seq<Event>)
    ensures Run(more) == Step(Step(Run(es), d), e)
    ensures StaleUnlinks(more, 0)
            == StaleUnlinks(es, 0) + (if StaleUnlink(Run(es), d, 0) then 1 else 0)
               + (if StaleUnlink(Step(Run(es), d), e, 0) then 1 else 0)
  {
    hide Run, StaleUnlinks, Step;
    Then(es, d, 0);
    Then(es + [d], e, 0);
    more := es + [d] + [e];
  }

  lemma BothReleased(s: State)
    requires s == State([Repo(7, 2)], [Link(1, 0, false), Link(2, 0, true)],
                        [Ended, Ended, Releasing(0), Releasing(0)])
    ensures var s' := Step(Step(s, Release(2)), Release(3));
            && s'.links == s.links && s'.repos == [Repo(7, 0)] && !KeyTaken(s'.repos, 7)
            && !StaleUnlink(s, Release(2), 0) && !StaleUnlink(Step(s, Release(2)), Release(3), 0)
  {
  }

  /** Both deletes have removed the one link, and neither has counted down. */
  lemma BothUnlinked() returns (es: seq<Event>)
    ensures Run(es) == State([Repo(7, 2)], [Link(1, 0, false), Link(2, 0, true)],
                             [Ended, Ended, Releasing(0), Releasing(0)])
    ensures StaleUnlinks(es, 0) == 1
  {
    hide Run, StaleUnlinks, Step;
    es := SharedRow();
    var s := Run(es);
    es := Twice(es, Delete(0), Delete(0));
    BothRead(s);
    s := Run(es);
    es := Twice(es, Unlink(2), Unlink(3));
    BothUnlink(s);
  }

  lemma BothRead(s: State)
    requires s == State([Repo(7, 2)], [Link(1, 0, true), Link(2, 0, true)], [Ended, Ended])
    ensures Step(Step(s, Delete(0)), Delete(0))
            == s.(requests := [Ended, Ended, Unlinking(0), Unlinking(0)])
    ensures !StaleUnlink(s, Delete(0), 0) && !StaleUnlink(Step(s, Delete(0)), Delete(0), 0)
  {
  }

  lemma BothUnlink(s: State)
    requires s == State([Repo(7, 2)], [Link(1, 0, true), Link(2, 0, true)],
                        [Ended, Ended, Unlinking(0), Unlinking(0)])
    ensures Step(Step(s, Unlink(2)), Unlink(3))
            == State([Repo(7, 2)], [Link(1, 0, false), Link(2, 0, true)],
                     [Ended, Ended, Releasing(0), Releasing(0)])
    ensures !StaleUnlink(s, Unlink(2), 0) && StaleUnlink(Step(s, Unlink(2)), Unlink(3), 0)
  {
  }

  lemma SharedRow() returns (es: seq<Event>)
    ensures Run(es) == State([Repo(7, 2)], [Link(1, 0, true), Link(2, 0, true)], [Ended, Ended])
    ensures StaleUnlinks(es, 0) == 0
  {
    Then([], Create(1, 7), 0);
    Then([Create(1, 7)], WriteLink(0), 0);
    es := [Create(1, 7)] + [WriteLink(0)];
    assert Run(es) == State([Repo(7, 1)], [Link(1, 0, true)], [Ended]);
    Then(es, Join(2, 0), 0);
    Then(es + [Join(2, 0)], WriteLink(1), 0);
    es := es + [Join(2, 0)] + [WriteLink(1)];
  }

  /**
   The creator's own link can collide: the same user may join the row in the moment
   between its insertion and the creator's link. The creator's slot then leaks.
   */
  lemma CreatorCanCollide() returns (es: seq<Event>)
    ensures Run(es) == State([Repo(7, 2)], [Link(1, 0, true)], [Leaked(0), Ended])
  {
    Then([], Create(1, 7), 0);
    Then([Create(1, 7)], Join(1, 0), 0);
    es := [Create(1, 7)] + [Join(1, 0)];
    assert Run(es) == State([Repo(7, 2)], [], [Creating(0, 1), Joining(0, 1)]);
    Then(es, WriteLink(1), 0);
    es := es + [WriteLink(1)];
    assert Run(es).links[0] == Link(1, 0, true);
    Then(es, WriteLink(0), 0);
    es := es + [WriteLink(0)];
  }
}
