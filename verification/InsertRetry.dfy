/**
 Chunked insertion with per-document retry, against a server that answers each
 chunk as it likes.
 */
module InsertRetry {
  import opened Counting
  import opened Batching

  datatype Doc = Doc(key: nat, body: nat)

  datatype WriteError = WriteError(index: int, code: int)

  /** What the server did with a chunk: the keys now stored and the errors it reports. */
  datatype Answer = Answer(stored: set<nat>, errors: seq<WriteError>)

  /** The server's answer to call number `n`, with these keys stored, for this chunk. */
  type Server = (nat, set<nat>, seq<Doc>) -> Answer

  const DUPLICATE_KEY := 11000
  const THROTTLE_CODES := {429, 16500}

  function Keys(docs: seq<Doc>): set<nat> {
    set d | d in docs :: d.key
  }

  function Indices(errors: seq<WriteError>): set<int> {
    set e | e in errors :: e.index
  }

  /** Each error names its own document of the chunk. */
  ghost predicate WellIndexed(errors: seq<WriteError>, n: nat) {
    && (forall i :: 0 <= i < |errors| ==> 0 <= errors[i].index < n)
    && (forall i, j :: 0 <= i < j < |errors| ==> errors[i].index != errors[j].index)
  }

  predicate NotRefused(errors: seq<WriteError>, j: int) {
    forall e :: e in errors && e.index == j ==> e.code == DUPLICATE_KEY
  }

  /**
   The server keeps what it has, stores nothing it was not sent, and stores what it
   reports no error for; a duplicate is there already. Of the documents it refuses
   it may have stored some.
   */
  ghost predicate Honest(stored: set<nat>, chunk: seq<Doc>, a: Answer) {
    && WellIndexed(a.errors, |chunk|)
    && stored <= a.stored <= stored + Keys(chunk)
    && forall j :: 0 <= j < |chunk| && NotRefused(a.errors, j) ==> chunk[j].key in a.stored
  }

  ghost predicate AlwaysHonest(server: Server) {
    forall n, stored, chunk :: Honest(stored, chunk, server(n, stored, chunk))
  }

  // ---------------------------------------------------------- sorting one answer

  predicate Throttled(e: WriteError, n: nat) {
    e.code != DUPLICATE_KEY && e.code in THROTTLE_CODES && 0 <= e.index < n
  }

  predicate Permanent(e: WriteError) {
    e.code != DUPLICATE_KEY && e.code !in THROTTLE_CODES
  }

  predicate Duplicate(e: WriteError) {
    e.code == DUPLICATE_KEY
  }

  function Dups(errors: seq<WriteError>): nat {
    Count(errors, e => Duplicate(e))
  }

  function Perms(errors: seq<WriteError>): nat {
    Count(errors, e => Permanent(e))
  }

  function Codes(errors: seq<WriteError>): set<int> {
    set e | e in errors && Permanent(e) :: e.code
  }

  /** The documents to send again, in the order their errors came. */
  function Retried(chunk: seq<Doc>, errors: seq<WriteError>): seq<Doc> {
    if errors == [] then []
    else
      var e := errors[|errors| - 1];
      Retried(chunk, errors[..|errors| - 1])
      + (if Throttled(e, |chunk|) then [chunk[e.index]] else [])
  }

  /** The documents the answer leaves stored, and those it refuses for good. */
  ghost function Landed(chunk: seq<Doc>, errors: seq<WriteError>): multiset<Doc>
    requires WellIndexed(errors, |chunk|)
  {
    Clean(chunk, Indices(errors), |chunk|) + Picked(chunk, errors, e => Duplicate(e))
  }

  ghost function Refused(chunk: seq<Doc>, errors: seq<WriteError>): multiset<Doc>
    requires WellIndexed(errors, |chunk|)
  {
    Picked(chunk, errors, e => Permanent(e))
  }

  /** The first `n` documents whose index no error names. */
  ghost function Clean(chunk: seq<Doc>, indices: set<int>, n: nat): multiset<Doc>
    requires n <= |chunk|
  {
    if n == 0 then multiset{}
    else Clean(chunk, indices, n - 1) + (if n - 1 in indices then multiset{} else multiset{chunk[n - 1]})
  }

  /** The documents named by the errors that satisfy `f`. */
  ghost function Picked(chunk: seq<Doc>, errors: seq<WriteError>, f: WriteError -> bool): multiset<Doc>
    requires forall i :: 0 <= i < |errors| ==> 0 <= errors[i].index < |chunk|
  {
    if errors == [] then multiset{}
    else
      var e := errors[|errors| - 1];
      Picked(chunk, errors[..|errors| - 1], f)
      + (if f(e) then multiset{chunk[e.index]} else multiset{})
  }

  /**
   Sorts the errors of one chunk: what counts as succeeded, what to send again and
   what has failed for good.
   */
  method SortErrors(chunk: seq<Doc>, errors: seq<WriteError>)
    returns (succeeded: int, again: seq<Doc>, failed: nat, codes: set<int>)
    ensures succeeded == Dups(errors) + |chunk| - |Indices(errors)|
    ensures again == Retried(chunk, errors)
    ensures failed == Perms(errors)
    ensures codes == Codes(errors)
  {
    succeeded, again, failed, codes := 0, [], 0, {};
    var errored: set<int> := {};
    for k := 0 to |errors|
      invariant succeeded == Dups(errors[..k])
      invariant again == Retried(chunk, errors[..k])
      invariant failed == Perms(errors[..k])
      invariant codes == Codes(errors[..k])
      invariant errored == Indices(errors[..k])
    {
      var e := errors[k];
      assert errors[..k + 1] == errors[..k] + [e];
      OneMoreError(chunk, errors[..k], e);
      errored := errored + {e.index};
      if e.code == DUPLICATE_KEY {
        succeeded := succeeded + 1;
      } else if e.code in THROTTLE_CODES {
        if 0 <= e.index < |chunk| {
          again := again + [chunk[e.index]];
        }
      } else {
        failed := failed + 1;
        codes := codes + {e.code};
      }
    }
    assert errors[..|errors|] == errors;
    succeeded := succeeded + |chunk| - |errored|;
  }

  lemma OneMoreError(chunk: seq<Doc>, errors: seq<WriteError>, e: WriteError)
    ensures Dups(errors + [e])
            == Dups(errors) + (if e.code == DUPLICATE_KEY then 1 else 0)
    ensures Perms(errors + [e])
            == Perms(errors) + (if Permanent(e) then 1 else 0)
    ensures Retried(chunk, errors + [e])
            == Retried(chunk, errors) + (if Throttled(e, |chunk|) then [chunk[e.index]] else [])
    ensures Indices(errors + [e]) == Indices(errors) + {e.index}
    ensures Codes(errors + [e]) == Codes(errors) + (if Permanent(e) then {e.code} else {})
  {
    CountAppend(errors, e, x => Duplicate(x));
    CountAppend(errors, e, x => Permanent(x));
    assert (errors + [e])[..|errors|] == errors;
  }

  // ------------------------------------------------------ what sorting conserves

  lemma CleanStep(chunk: seq<Doc>, indices: set<int>, n: nat)
    requires n <= |chunk|
    ensures n == 0 ==> Clean(chunk, indices, n) == multiset{}
    ensures n > 0 && n - 1 in indices ==> Clean(chunk, indices, n) == Clean(chunk, indices, n - 1)
    ensures n > 0 && n - 1 !in indices ==>
              Clean(chunk, indices, n) == Clean(chunk, indices, n - 1) + multiset{chunk[n - 1]}
  {
  }

  lemma {:induction false} CleanWithout(chunk: seq<Doc>, indices: set<int>, i: nat, n: nat)
    requires i < |chunk| && n <= |chunk| && i !in indices
    ensures Clean(chunk, indices, n)
            == Clean(chunk, indices + {i}, n) + (if i < n then multiset{chunk[i]} else multiset{})
  {
    hide Clean;
    CleanStep(chunk, indices, n);
    CleanStep(chunk, indices + {i}, n);
    if n > 0 {
      CleanWithout(chunk, indices, i, n - 1);
      var before, after := Clean(chunk, indices, n - 1), Clean(chunk, indices + {i}, n - 1);
      if i < n - 1 && n - 1 !in indices {
        assert before + multiset{chunk[n - 1]} == (after + multiset{chunk[n - 1]}) + multiset{chunk[i]};
      }
    }
  }

  lemma {:induction false} CleanAll(chunk: seq<Doc>, n: nat)
    requires n <= |chunk|
    ensures Clean(chunk, {}, n) == multiset(chunk[..n])
  {
    if n > 0 {
      CleanAll(chunk, n - 1);
      assert chunk[..n] == chunk[..n - 1] + [chunk[n - 1]];
    }
  }

  /** Every document of the chunk is stored, sent again or refused, once. */
  lemma {:induction false} SortingConserves(chunk: seq<Doc>, errors: seq<WriteError>)
    requires WellIndexed(errors, |chunk|)
    ensures Landed(chunk, errors) + multiset(Retried(chunk, errors)) + Refused(chunk, errors)
            == multiset(chunk)
    decreases |errors|
  {
    hide Picked, Clean, Retried, Duplicate, Permanent, Throttled;
    if errors == [] {
      CleanAll(chunk, |chunk|);
      NoErrors(chunk);
      assert chunk[..|chunk|] == chunk && Indices(errors) == {};
    } else {
      var rest, e := errors[..|errors| - 1], errors[|errors| - 1];
      assert errors == rest + [e];
      SortingConserves(chunk, rest);
      OneMoreError(chunk, rest, e);
      CleanWithout(chunk, Indices(rest), e.index, |chunk|);
      OneMorePicked(chunk, rest, e, x => Duplicate(x));
      OneMorePicked(chunk, rest, e, x => Permanent(x));
      OneKind(e, |chunk|);
      Rebalance(Clean(chunk, Indices(rest), |chunk|), Clean(chunk, Indices(errors), |chunk|),
                multiset{chunk[e.index]},
                Picked(chunk, rest, x => Duplicate(x)), Picked(chunk, errors, x => Duplicate(x)),
                multiset(Retried(chunk, rest)), multiset(Retried(chunk, errors)),
                Picked(chunk, rest, x => Permanent(x)), Picked(chunk, errors, x => Permanent(x)));
    }
  }

  /** The two totals count the documents they speak of. */
  lemma SortingCounts(chunk: seq<Doc>, errors: seq<WriteError>)
    requires WellIndexed(errors, |chunk|)
    ensures |Landed(chunk, errors)| == Dups(errors) + |chunk| - |Indices(errors)|
    ensures |Refused(chunk, errors)| == Perms(errors)
  {
    CleanCount(chunk, errors);
    PickedCount(chunk, errors, e => Duplicate(e));
    PickedCount(chunk, errors, e => Permanent(e));
  }

  lemma {:induction false} CleanCount(chunk: seq<Doc>, errors: seq<WriteError>)
    requires WellIndexed(errors, |chunk|)
    ensures |Clean(chunk, Indices(errors), |chunk|)| == |chunk| - |Indices(errors)|
    decreases |errors|
  {
    hide Clean;
    if errors == [] {
      CleanAll(chunk, |chunk|);
      assert chunk[..|chunk|] == chunk && Indices(errors) == {};
    } else {
      var rest, e := errors[..|errors| - 1], errors[|errors| - 1];
      assert errors == rest + [e];
      CleanCount(chunk, rest);
      OneMoreError(chunk, rest, e);
      CleanWithout(chunk, Indices(rest), e.index, |chunk|);
    }
  }

  lemma {:induction false} PickedCount(chunk: seq<Doc>, errors: seq<WriteError>, f: WriteError -> bool)
    requires forall i :: 0 <= i < |errors| ==> 0 <= errors[i].index < |chunk|
    ensures |Picked(chunk, errors, f)| == Count(errors, f)
  {
    if errors != [] { PickedCount(chunk, errors[..|errors| - 1], f); }
  }

  lemma NoErrors(chunk: seq<Doc>)
    ensures Picked(chunk, [], x => Duplicate(x)) == multiset{} == Picked(chunk, [], x => Permanent(x))
    ensures Retried(chunk, []) == [] && Dups([]) == Perms([]) == 0
  {
  }

  lemma OneKind(e: WriteError, n: nat)
    requires 0 <= e.index < n
    ensures Duplicate(e) || Throttled(e, n) || Permanent(e)
    ensures !(Duplicate(e) && Throttled(e, n))
    ensures !(Duplicate(e) && Permanent(e))
    ensures !(Throttled(e, n) && Permanent(e))
  {
  }

  lemma OneMorePicked(chunk: seq<Doc>, errors: seq<WriteError>, e: WriteError, f: WriteError -> bool)
    requires forall i :: 0 <= i < |errors| ==> 0 <= errors[i].index < |chunk|
    requires 0 <= e.index < |chunk|
    ensures Picked(chunk, errors + [e], f)
            == Picked(chunk, errors, f) + (if f(e) then multiset{chunk[e.index]} else multiset{})
  {
    assert (errors + [e])[..|errors|] == errors;
  }

  /** A document leaves the clean ones for exactly one of the other three piles. */
  lemma Rebalance(
      clean: multiset<Doc>, clean': multiset<Doc>, d: multiset<Doc>,
      a: multiset<Doc>, a': multiset<Doc>, b: multiset<Doc>, b': multiset<Doc>,
      c: multiset<Doc>, c': multiset<Doc>)
    requires clean == clean' + d
    requires (a' == a + d && b' == b && c' == c) || (a' == a && b' == b + d && c' == c)
             || (a' == a && b' == b && c' == c + d)
    ensures clean' + a' + b' + c' == clean + a + b + c
  {
  }

  /**
   Without well-indexed errors the count of a chunk comes out right exactly when the
   errors, those throttled out of range apart, are as many as the indices they name.
   */
  lemma {:induction false} TallyExactly(chunk: seq<Doc>, errors: seq<WriteError>)
    ensures (Dups(errors) + |chunk| - |Indices(errors)|) + |Retried(chunk, errors)| + Perms(errors)
            == |chunk|
            <==> |errors| - Count(errors, e => Unplaced(e, |chunk|)) == |Indices(errors)|
  {
    TallyOfErrors(chunk, errors);
  }

  /** A throttled error whose index is no document of the chunk. */
  predicate Unplaced(e: WriteError, n: nat) {
    e.code in THROTTLE_CODES && !(0 <= e.index < n)
  }

  lemma {:induction false} TallyOfErrors(chunk: seq<Doc>, errors: seq<WriteError>)
    ensures Dups(errors) + |Retried(chunk, errors)| + Perms(errors)
            == |errors| - Count(errors, e => Unplaced(e, |chunk|))
  {
    if errors != [] {
      TallyOfErrors(chunk, errors[..|errors| - 1]);
    }
  }

  /** A throttled error without an index loses its document from both counts. */
  lemma UnplacedIsLost()
    ensures var chunk, errors := [Doc(1, 0), Doc(2, 0)], [WriteError(-1, 429)];
            (Dups(errors) + |chunk| - |Indices(errors)|) + |Retried(chunk, errors)| + Perms(errors) == 1
  {
    var chunk, errors := [Doc(1, 0), Doc(2, 0)], [WriteError(-1, 429)];
    assert errors == [] + [errors[0]];
    OneMoreError(chunk, [], errors[0]);
    assert Indices(errors) == {-1};
  }

  // ------------------------------------------------------------ rounds and attempts

  /** The books of the documents sent so far. */
  ghost predicate Booked(
      docs: multiset<Doc>, landed: multiset<Doc>, again: multiset<Doc>, lost: multiset<Doc>,
      succeeded: int, failed: int)
  {
    landed + again + lost == docs && succeeded == |landed| && failed == |lost|
  }

  ghost predicate AllStored(docs: multiset<Doc>, stored: set<nat>) {
    forall d :: d in docs ==> d.key in stored
  }

  lemma {:induction false} LandedIsStored(stored: set<nat>, chunk: seq<Doc>, a: Answer)
    requires Honest(stored, chunk, a)
    ensures AllStored(Landed(chunk, a.errors), a.stored)
  {
    forall d | d in Landed(chunk, a.errors) ensures d.key in a.stored {
      if d in Clean(chunk, Indices(a.errors), |chunk|) {
        var j := CleanIndex(chunk, Indices(a.errors), |chunk|, d);
        assert NotRefused(a.errors, j);
      } else {
        var i := PickedIndex(chunk, a.errors, e => Duplicate(e), d);
        forall e | e in a.errors && e.index == a.errors[i].index ensures e.code == DUPLICATE_KEY {
          var k :| 0 <= k < |a.errors| && a.errors[k] == e;
        }
        assert NotRefused(a.errors, a.errors[i].index);
      }
    }
  }

  lemma {:induction false} CleanIndex(chunk: seq<Doc>, indices: set<int>, n: nat, d: Doc)
    returns (j: nat)
    requires n <= |chunk| && d in Clean(chunk, indices, n)
    ensures j < n && j !in indices && chunk[j] == d
  {
    if n - 1 !in indices && chunk[n - 1] == d {
      j := n - 1;
    } else {
      j := CleanIndex(chunk, indices, n - 1, d);
    }
  }

  lemma {:induction false} PickedIndex(
      chunk: seq<Doc>, errors: seq<WriteError>, f: WriteError -> bool, d: Doc)
    returns (i: nat)
    requires forall i :: 0 <= i < |errors| ==> 0 <= errors[i].index < |chunk|
    requires d in Picked(chunk, errors, f)
    ensures i < |errors| && f(errors[i]) && chunk[errors[i].index] == d
  {
    var n := |errors| - 1;
    if f(errors[n]) && chunk[errors[n].index] == d {
      i := n;
    } else {
      i := PickedIndex(chunk, errors[..n], f, d);
    }
  }

  /** By how much one answer makes the counts exceed its chunk. */
  function ChunkExcess(chunk: seq<Doc>, errors: seq<WriteError>): int {
    |errors| - Count(errors, e => Unplaced(e, |chunk|)) - |Indices(errors)|
  }

  /** What the server stores after these chunks, sent in this order. */
  function StoreAfter(server: Server, stored: set<nat>, sent: seq<seq<Doc>>): set<nat> {
    if sent == [] then stored
    else
      var n := |sent| - 1;
      server(n, StoreAfter(server, stored, sent[..n]), sent[n]).stored
  }

  /** The excess over all chunks sent. */
  function Excess(server: Server, stored: set<nat>, sent: seq<seq<Doc>>): int {
    if sent == [] then 0
    else
      var n := |sent| - 1;
      Excess(server, stored, sent[..n])
      + ChunkExcess(sent[n], server(n, StoreAfter(server, stored, sent[..n]), sent[n]).errors)
  }

  /** The server's answer to the last chunk sent. */
  function LastAnswer(server: Server, stored: set<nat>, sent: seq<seq<Doc>>): Answer
    requires sent != []
  {
    var n := |sent| - 1;
    server(n, StoreAfter(server, stored, sent[..n]), sent[n])
  }

  /** What the answers to the chunks after the first `from` left throttled, in order. */
  function LeftThrottled(server: Server, stored: set<nat>, sent: seq<seq<Doc>>, from: nat): seq<Doc>
    requires from <= |sent|
    decreases |sent|
  {
    if |sent| == from then []
    else
      LeftThrottled(server, stored, sent[..|sent| - 1], from)
      + Retried(sent[|sent| - 1], LastAnswer(server, stored, sent).errors)
  }

  /** How many documents the answers refused for good, and with which codes. */
  function Refusals(server: Server, stored: set<nat>, sent: seq<seq<Doc>>): nat {
    if sent == [] then 0
    else
      Refusals(server, stored, sent[..|sent| - 1]) + Perms(LastAnswer(server, stored, sent).errors)
  }

  function RefusedCodes(server: Server, stored: set<nat>, sent: seq<seq<Doc>>): set<int> {
    if sent == [] then {}
    else
      RefusedCodes(server, stored, sent[..|sent| - 1]) + Codes(LastAnswer(server, stored, sent).errors)
  }

  // The rounds: each sends what is pending, chunk by chunk, and leaves pending what
  // its answers throttled.

  function SentIn(server: Server, stored: set<nat>, docs: seq<Doc>, chunkSize: nat, rounds: nat)
    : seq<seq<Doc>>
    requires chunkSize >= 1
    decreases rounds, 0
  {
    if rounds == 0 then []
    else
      SentIn(server, stored, docs, chunkSize, rounds - 1)
      + Batches(PendingAfter(server, stored, docs, chunkSize, rounds - 1), chunkSize)
  }

  function PendingAfter(server: Server, stored: set<nat>, docs: seq<Doc>, chunkSize: nat, rounds: nat)
    : seq<Doc>
    requires chunkSize >= 1
    decreases rounds, 1
  {
    if rounds == 0 then docs
    else
      LeftThrottled(server, stored, SentIn(server, stored, docs, chunkSize, rounds),
                    |SentIn(server, stored, docs, chunkSize, rounds - 1)|)
  }

  /** Once nothing is pending, further rounds send nothing. */
  lemma {:induction false} RoundsEnd(
      server: Server, stored: set<nat>, docs: seq<Doc>, chunkSize: nat, k: nat, rounds: nat)
    requires chunkSize >= 1 && k <= rounds && PendingAfter(server, stored, docs, chunkSize, k) == []
    ensures PendingAfter(server, stored, docs, chunkSize, rounds) == []
    ensures SentIn(server, stored, docs, chunkSize, rounds) == SentIn(server, stored, docs, chunkSize, k)
    decreases rounds
  {
    hide SentIn, PendingAfter;
    if k < rounds {
      RoundsEnd(server, stored, docs, chunkSize, k, rounds - 1);
      NextRound(server, stored, docs, chunkSize, rounds - 1);
    }
  }

  /** What is sent again: the documents of the chunk that a throttling error names. */
  lemma {:induction false} RetriedExactly(chunk: seq<Doc>, errors: seq<WriteError>, d: Doc)
    ensures d in Retried(chunk, errors)
            <==> exists e :: e in errors && e.code in {429, 16500} && 0 <= e.index < |chunk|
                             && chunk[e.index] == d
  {
    if errors != [] {
      var n := |errors| - 1;
      RetriedExactly(chunk, errors[..n], d);
      assert forall e :: e in errors <==> e in errors[..n] || e == errors[n];
    }
  }

  ghost predicate Unthrottled(errors: seq<WriteError>) {
    forall e :: e in errors ==> e.code !in {429, 16500}
  }

  ghost predicate NoThrottling(server: Server, stored: set<nat>, sent: seq<seq<Doc>>, from: nat) {
    forall k :: from < k <= |sent| ==> Unthrottled(LastAnswer(server, stored, sent[..k]).errors)
  }

  lemma {:induction false} NothingLeft(server: Server, stored: set<nat>, sent: seq<seq<Doc>>, from: nat)
    requires from <= |sent| && NoThrottling(server, stored, sent, from)
    ensures LeftThrottled(server, stored, sent, from) == []
    decreases |sent|
  {
    if from < |sent| {
      var n := |sent| - 1;
      assert forall k :: 0 <= k <= n ==> sent[..n][..k] == sent[..k];
      NothingLeft(server, stored, sent[..n], from);
      assert sent[..|sent|] == sent;
      var again := Retried(sent[n], LastAnswer(server, stored, sent).errors);
      if again != [] { RetriedExactly(sent[n], LastAnswer(server, stored, sent).errors, again[0]); }
    }
  }

  /** One round below the budget without throttling, and nothing is given up. */
  lemma {:induction false} NothingGivenUp(
      server: Server, stored: set<nat>, docs: seq<Doc>, chunkSize: nat, maxAttempts: nat, k: nat)
    requires chunkSize >= 1 && k < maxAttempts
    requires NoThrottling(server, stored, SentIn(server, stored, docs, chunkSize, k + 1),
                          |SentIn(server, stored, docs, chunkSize, k)|)
    ensures PendingAfter(server, stored, docs, chunkSize, maxAttempts) == []
  {
    NothingLeft(server, stored, SentIn(server, stored, docs, chunkSize, k + 1),
                |SentIn(server, stored, docs, chunkSize, k)|);
    RoundsEnd(server, stored, docs, chunkSize, k + 1, maxAttempts);
  }

  /** How many documents fail when these are inserted, and what is stored afterwards. */
  function Failures(server: Server, stored: set<nat>, docs: seq<Doc>, chunkSize: nat, maxAttempts: nat): nat
    requires chunkSize >= 1
  {
    Refusals(server, stored, SentIn(server, stored, docs, chunkSize, maxAttempts))
    + |PendingAfter(server, stored, docs, chunkSize, maxAttempts)|
  }

  function StoredBy(server: Server, stored: set<nat>, docs: seq<Doc>, chunkSize: nat, maxAttempts: nat): set<nat>
    requires chunkSize >= 1
  {
    StoreAfter(server, stored, SentIn(server, stored, docs, chunkSize, maxAttempts))
  }

  lemma {:induction false} NothingToInsert(server: Server, stored: set<nat>, chunkSize: nat, maxAttempts: nat)
    requires chunkSize >= 1
    ensures Failures(server, stored, [], chunkSize, maxAttempts) == 0
    ensures StoredBy(server, stored, [], chunkSize, maxAttempts) == stored
  {
    RoundsEnd(server, stored, [], chunkSize, 0, maxAttempts);
  }

  /** A server that reports no error, and a budget of one round: nothing fails. */
  lemma {:induction false} UnerringFailsNothing(
      server: Server, stored: set<nat>, docs: seq<Doc>, chunkSize: nat, maxAttempts: nat)
    requires chunkSize >= 1 && maxAttempts >= 1
    requires forall n, st, chunk :: server(n, st, chunk).errors == []
    ensures Failures(server, stored, docs, chunkSize, maxAttempts) == 0
  {
    NothingFails(server, stored, docs, chunkSize, maxAttempts);
  }

  ghost predicate NoErrorsAtAll(server: Server, stored: set<nat>, sent: seq<seq<Doc>>) {
    forall k :: 0 < k <= |sent| ==> LastAnswer(server, stored, sent[..k]).errors == []
  }

  /** A budget of one round and a server without errors, and nothing fails. */
  lemma {:induction false} NothingFails(
      server: Server, stored: set<nat>, docs: seq<Doc>, chunkSize: nat, maxAttempts: nat)
    requires chunkSize >= 1 && maxAttempts >= 1
    requires NoErrorsAtAll(server, stored, SentIn(server, stored, docs, chunkSize, maxAttempts))
    ensures PendingAfter(server, stored, docs, chunkSize, maxAttempts) == []
    ensures Refusals(server, stored, SentIn(server, stored, docs, chunkSize, maxAttempts)) == 0
  {
    var sent := SentIn(server, stored, docs, chunkSize, maxAttempts);
    var first := SentIn(server, stored, docs, chunkSize, 1);
    SentGrows(server, stored, docs, chunkSize, 1, maxAttempts);
    assert forall k :: 0 <= k <= |first| ==> first[..k] == sent[..k];
    NothingGivenUp(server, stored, docs, chunkSize, maxAttempts, 0);
    NothingRefused(server, stored, sent);
  }

  lemma {:induction false} SentGrows(
      server: Server, stored: set<nat>, docs: seq<Doc>, chunkSize: nat, k: nat, rounds: nat)
    requires chunkSize >= 1 && k <= rounds
    ensures SentIn(server, stored, docs, chunkSize, k) <= SentIn(server, stored, docs, chunkSize, rounds)
    decreases rounds
  {
    hide SentIn, PendingAfter;
    if k < rounds {
      SentGrows(server, stored, docs, chunkSize, k, rounds - 1);
      NextRound(server, stored, docs, chunkSize, rounds - 1);
    }
  }

  lemma {:induction false} NothingRefused(server: Server, stored: set<nat>, sent: seq<seq<Doc>>)
    requires NoErrorsAtAll(server, stored, sent)
    ensures Refusals(server, stored, sent) == 0
    decreases |sent|
  {
    if sent != [] {
      var n := |sent| - 1;
      assert forall k :: 0 <= k <= n ==> sent[..n][..k] == sent[..k];
      NothingRefused(server, stored, sent[..n]);
      assert sent[..|sent|] == sent;
    }
  }

  lemma OneMoreSent(server: Server, stored: set<nat>, sent: seq<seq<Doc>>, chunk: seq<Doc>)
    ensures var a := server(|sent|, StoreAfter(server, stored, sent), chunk);
            && StoreAfter(server, stored, sent + [chunk]) == a.stored
            && Excess(server, stored, sent + [chunk])
               == Excess(server, stored, sent) + ChunkExcess(chunk, a.errors)
            && Refusals(server, stored, sent + [chunk]) == Refusals(server, stored, sent) + Perms(a.errors)
            && RefusedCodes(server, stored, sent + [chunk])
               == RefusedCodes(server, stored, sent) + Codes(a.errors)
            && (forall from: nat :: from <= |sent| ==>
                  LeftThrottled(server, stored, sent + [chunk], from)
                  == LeftThrottled(server, stored, sent, from) + Retried(chunk, a.errors))
  {
    assert (sent + [chunk])[..|sent|] == sent;
  }

  /** Chunks of the right size, holding documents of the input only. */
  ghost predicate SentFrom(sent: seq<seq<Doc>>, docs: seq<Doc>, chunkSize: nat) {
    forall c :: c in sent ==> 1 <= |c| <= chunkSize && forall d :: d in c ==> d in docs
  }

  lemma {:induction false} RetriedFrom(chunk: seq<Doc>, errors: seq<WriteError>)
    ensures forall d :: d in Retried(chunk, errors) ==> d in chunk
  {
    if errors != [] { RetriedFrom(chunk, errors[..|errors| - 1]); }
  }

  /** Each document stored, again pending or lost, once; what was stored is among them. */
  ghost predicate Settles(
      docs: seq<Doc>, landed: multiset<Doc>, again: seq<Doc>, lost: multiset<Doc>,
      succeeded: int, failed: int, stored: set<nat>, stored': set<nat>)
  {
    && Booked(multiset(docs), landed, multiset(again), lost, succeeded, failed)
    && AllStored(landed, stored') && stored <= stored' <= stored + Keys(docs)
  }

  /** One chunk: sent, its errors sorted, and the books kept. */
  method InsertChunk(server: Server, call: nat, stored: set<nat>, chunk: seq<Doc>)
    returns (stored': set<nat>, succeeded: int, again: seq<Doc>, failed: nat, codes: set<int>,
             ghost landed: multiset<Doc>, ghost lost: multiset<Doc>)
    ensures stored' == server(call, stored, chunk).stored
    ensures succeeded + |again| + failed
            == |chunk| + ChunkExcess(chunk, server(call, stored, chunk).errors)
    ensures var errors := server(call, stored, chunk).errors;
            again == Retried(chunk, errors) && failed == Perms(errors) && codes == Codes(errors)
    ensures forall d :: d in again ==> d in chunk
    ensures (codes == {} <==> failed == 0) && DUPLICATE_KEY !in codes
    ensures AlwaysHonest(server) ==>
              Settles(chunk, landed, again, lost, succeeded, failed, stored, stored')
  {
    var a := server(call, stored, chunk);
    stored' := a.stored;
    landed, lost := multiset{}, multiset{};
    if AlwaysHonest(server) {
      assert Honest(stored, chunk, a);
      landed, lost := Landed(chunk, a.errors), Refused(chunk, a.errors);
      SortingConserves(chunk, a.errors);
      SortingCounts(chunk, a.errors);
      LandedIsStored(stored, chunk, a);
    }
    CodesTell(a.errors);
    TallyOfErrors(chunk, a.errors);
    RetriedFrom(chunk, a.errors);
    if a.errors == [] {
      assert Codes([]) == {};
      succeeded, again, failed, codes := |chunk|, [], 0, {};
    } else {
      succeeded, again, failed, codes := SortErrors(chunk, a.errors);
    }
  }

  lemma {:induction false} CodesTell(errors: seq<WriteError>)
    ensures Codes(errors) == {} <==> Perms(errors) == 0
    ensures DUPLICATE_KEY !in Codes(errors)
  {
    if errors != [] {
      var n := |errors| - 1;
      assert errors == errors[..n] + [errors[n]];
      CodesTell(errors[..n]);
      OneMoreError([], errors[..n], errors[n]);
    }
  }

  /** One round: the pending documents, chunk by chunk. */
  method InsertRound(
      server: Server, ghost start: set<nat>, ghost before: seq<seq<Doc>>, call: nat,
      stored: set<nat>, pending: seq<Doc>, chunkSize: nat)
    returns (call': nat, stored': set<nat>, succeeded: int, again: seq<Doc>, failed: nat,
             codes: set<int>, ghost sent: seq<seq<Doc>>,
             ghost landed: multiset<Doc>, ghost lost: multiset<Doc>)
    requires chunkSize >= 1 && call == |before| && stored == StoreAfter(server, start, before)
    ensures call' == |sent| && before <= sent && stored' == StoreAfter(server, start, sent)
    ensures sent == before + Batches(pending, chunkSize)
    ensures again == LeftThrottled(server, start, sent, |before|)
    ensures failed == Refusals(server, start, sent) - Refusals(server, start, before)
    ensures RefusedCodes(server, start, sent) == RefusedCodes(server, start, before) + codes
    ensures SentFrom(sent[|before|..], pending, chunkSize) && forall d :: d in again ==> d in pending
    ensures succeeded + |again| + failed
            == |pending| + Excess(server, start, sent) - Excess(server, start, before)
    ensures (codes == {} <==> failed == 0) && DUPLICATE_KEY !in codes
    ensures AlwaysHonest(server) ==>
              Settles(pending, landed, again, lost, succeeded, failed, stored, stored')
  {
    hide *;
    call', stored', succeeded, again, failed, codes := call, stored, 0, [], 0, {};
    sent, landed, lost := before, multiset{}, multiset{};
    RoundStarts(server, start, before, pending, stored, chunkSize);
    var i := 0;
    assert pending[0..] == pending;
    while i < |pending|
      invariant 0 <= i <= |pending|
      invariant call' == |sent| && before <= sent && stored' == StoreAfter(server, start, sent)
      invariant sent + Batches(pending[i..], chunkSize) == before + Batches(pending, chunkSize)
      invariant again == LeftThrottled(server, start, sent, |before|)
      invariant failed == Refusals(server, start, sent) - Refusals(server, start, before)
      invariant RefusedCodes(server, start, sent) == RefusedCodes(server, start, before) + codes
      invariant SentFrom(sent[|before|..], pending, chunkSize) && forall d :: d in again ==> d in pending
      invariant succeeded + |again| + failed
                == i + Excess(server, start, sent) - Excess(server, start, before)
      invariant (codes == {} <==> failed == 0) && DUPLICATE_KEY !in codes
      invariant AlwaysHonest(server) ==>
                  Settles(pending[..i], landed, again, lost, succeeded, failed, stored, stored')
    {
      var end := if i + chunkSize <= |pending| then i + chunkSize else |pending|;
      var chunk := pending[i..end];
      var st, s, t, f, c, l, x := InsertChunk(server, call', stored', chunk);
      OneMoreSent(server, start, sent, chunk);
      OneMoreChunk(sent, before, pending, chunk, chunkSize);
      SendFirst(sent, pending, i, end, chunkSize);
      if AlwaysHonest(server) {
        SettlesMore(pending[..i], landed, again, lost, succeeded, failed, stored, stored',
                    chunk, l, t, x, s, f, st);
      }
      call', stored', succeeded, again := call' + 1, st, succeeded + s, again + t;
      failed, codes, landed, lost := failed + f, codes + c, landed + l, lost + x;
      sent := sent + [chunk];
      i := end;
    }
    assert pending[..i] == pending && pending[i..] == [];
    NoBatches<Doc>(chunkSize);
  }

  lemma NoBatches<T>(size: nat)
    requires size >= 1
    ensures Batches<T>([], size) == []
  {
  }

  lemma FirstBatch(pending: seq<Doc>, i: nat, end: nat, size: nat)
    requires size >= 1 && i < |pending|
    requires end == if i + size <= |pending| then i + size else |pending|
    ensures Batches(pending[i..], size) == [pending[i..end]] + Batches(pending[end..], size)
  {
    var rest := pending[i..];
    if |rest| <= size {
      assert pending[i..end] == rest && pending[end..] == [];
    } else {
      assert rest[..size] == pending[i..end] && rest[size..] == pending[end..];
    }
  }

  lemma SendFirst(sent: seq<seq<Doc>>, pending: seq<Doc>, i: nat, end: nat, size: nat)
    requires size >= 1 && i < |pending|
    requires end == if i + size <= |pending| then i + size else |pending|
    ensures sent + [pending[i..end]] + Batches(pending[end..], size) == sent + Batches(pending[i..], size)
    ensures pending[..end] == pending[..i] + pending[i..end]
  {
    hide Batches;
    FirstBatch(pending, i, end, size);
  }

  lemma RoundStarts(server: Server, start: set<nat>, before: seq<seq<Doc>>, pending: seq<Doc>, stored: set<nat>, chunkSize: nat)
    ensures SentFrom(before[|before|..], pending, chunkSize)
    ensures LeftThrottled(server, start, before, |before|) == []
    ensures Settles(pending[..0], multiset{}, [], multiset{}, 0, 0, stored, stored)
  {
  }

  lemma OneMoreChunk(
      sent: seq<seq<Doc>>, before: seq<seq<Doc>>, pending: seq<Doc>, chunk: seq<Doc>, chunkSize: nat)
    requires before <= sent && SentFrom(sent[|before|..], pending, chunkSize)
    requires 1 <= |chunk| <= chunkSize && forall d :: d in chunk ==> d in pending
    ensures SentFrom((sent + [chunk])[|before|..], pending, chunkSize)
  {
    assert (sent + [chunk])[|before|..] == sent[|before|..] + [chunk];
  }

  lemma SettlesMore(
      docs: seq<Doc>, landed: multiset<Doc>, again: seq<Doc>, lost: multiset<Doc>,
      s: int, f: int, stored: set<nat>, stored': set<nat>,
      more: seq<Doc>, l: multiset<Doc>, t: seq<Doc>, x: multiset<Doc>, s': int, f': int, later: set<nat>)
    requires Settles(docs, landed, again, lost, s, f, stored, stored')
    requires Settles(more, l, t, x, s', f', stored', later)
    ensures Settles(docs + more, landed + l, again + t, lost + x, s + s', f + f', stored, later)
  {
    KeysWithin(docs, docs + more);
    KeysWithin(more, docs + more);
  }

  lemma SettlesOn(
      docs: seq<Doc>, landed: multiset<Doc>, pending: seq<Doc>, lost: multiset<Doc>,
      s: int, f: int, stored: set<nat>, stored': set<nat>,
      l: multiset<Doc>, again: seq<Doc>, x: multiset<Doc>, s': int, f': int, later: set<nat>)
    requires Settles(docs, landed, pending, lost, s, f, stored, stored') && (forall d :: d in pending ==> d in docs)
    requires Settles(pending, l, again, x, s', f', stored', later)
    ensures Settles(docs, landed + l, again, lost + x, s + s', f + f', stored, later)
  {
    KeysWithin(pending, docs);
    assert (landed + l) + multiset(again) + (lost + x) == landed + multiset(pending) + lost;
  }

  lemma NothingSent(server: Server, docs: seq<Doc>, stored: set<nat>, chunkSize: nat)
    ensures Settles(docs, multiset{}, docs, multiset{}, 0, 0, stored, stored)
    ensures SentFrom([], docs, chunkSize)
    ensures StoreAfter(server, stored, []) == stored && Excess(server, stored, []) == 0
    ensures Refusals(server, stored, []) == 0 && RefusedCodes(server, stored, []) == {}
    ensures chunkSize >= 1 ==> Ran(server, stored, docs, chunkSize, 0, [], docs, 0, 0, {})
  {
  }

  /** What is left over counts as failed, and the books close. */
  lemma Settled(
      docs: seq<Doc>, landed: multiset<Doc>, pending: seq<Doc>, lost: multiset<Doc>, s: int, f: int,
      stored: set<nat>, stored': set<nat>)
    requires Settles(docs, landed, pending, lost, s, f, stored, stored')
    ensures AllStored(landed, stored') && stored <= stored' <= stored + Keys(docs)
    ensures landed + (lost + multiset(pending)) == multiset(docs)
    ensures s == |landed| && f + |pending| == |lost + multiset(pending)|
    ensures s + f + |pending| == |docs|
    ensures pending == [] ==> lost + multiset(pending) == lost
  {
    assert |multiset(docs)| == |docs| && |multiset(pending)| == |pending|;
  }

  /**
   The documents are sent in rounds until nothing is pending or the budget is spent,
   and given up only then. Against any server the totals miss the number of documents by the
   excess over the chunks sent. If each answer is honest, every document ends as
   succeeded or failed, once; each one counted as succeeded has its key stored, and
   nothing outside the input was stored. The codes are empty exactly when none failed.
   */
  method InsertMany(
      server: Server, stored: set<nat>, docs: seq<Doc>, chunkSize: nat, maxAttempts: nat)
    returns (stored': set<nat>, succeeded: int, failed: nat, codes: set<int>,
             ghost sent: seq<seq<Doc>>, ghost landed: multiset<Doc>, ghost lost: multiset<Doc>)
    requires chunkSize >= 1
    ensures succeeded + failed == |docs| + Excess(server, stored, sent)
    ensures sent == SentIn(server, stored, docs, chunkSize, maxAttempts)
    ensures failed == Failures(server, stored, docs, chunkSize, maxAttempts)
    ensures stored' == StoredBy(server, stored, docs, chunkSize, maxAttempts)
    ensures var given := PendingAfter(server, stored, docs, chunkSize, maxAttempts);
            && failed == Refusals(server, stored, sent) + |given|
            && codes == RefusedCodes(server, stored, sent) + (if given == [] then {} else {429, 16500})
    ensures SentFrom(sent, docs, chunkSize) && stored' == StoreAfter(server, stored, sent)
    ensures codes == {} <==> failed == 0
    ensures DUPLICATE_KEY !in codes
    ensures AlwaysHonest(server) ==>
              && succeeded + failed == |docs|
              && landed + lost == multiset(docs) && succeeded == |landed| && failed == |lost|
              && AllStored(landed, stored') && stored <= stored' <= stored + Keys(docs)
  {
    hide *;
    stored', succeeded, failed, codes := stored, 0, 0, {};
    sent, landed, lost := [], multiset{}, multiset{};
    NothingSent(server, docs, stored, chunkSize);
    if docs == [] {
      RanToTheEnd(server, stored, docs, chunkSize, 0, maxAttempts, sent, docs, 0, 0, {});
      return;
    }
    var pending, call := docs, 0;
    var attempt := 0;
    while attempt < maxAttempts && pending != []
      invariant attempt <= maxAttempts
      invariant Ran(server, stored, docs, chunkSize, attempt, sent, pending, succeeded, failed, codes)
      invariant call == |sent| && stored' == StoreAfter(server, stored, sent)
      invariant AlwaysHonest(server) ==>
                  Settles(docs, landed, pending, lost, succeeded, failed, stored, stored')
    {
      var n, st, s, t, f, c, all, l, x :=
        InsertRound(server, stored, sent, call, stored', pending, chunkSize);
      RanOn(server, stored, docs, chunkSize, attempt, sent, pending, succeeded, failed, codes,
            all, t, s, f, c);
      if AlwaysHonest(server) {
        PendingIsInput(server, stored, docs, chunkSize, attempt, sent, pending, succeeded, failed, codes);
        SettlesOn(docs, landed, pending, lost, succeeded, failed, stored, stored', l, t, x, s, f, st);
      }
      call, stored', pending, sent := n, st, t, all;
      succeeded, failed, codes := succeeded + s, failed + f, codes + c;
      landed, lost := landed + l, lost + x;
      attempt := attempt + 1;
    }
    RanToTheEnd(server, stored, docs, chunkSize, attempt, maxAttempts, sent, pending,
                succeeded, failed, codes);
    if AlwaysHonest(server) {
      Settled(docs, landed, pending, lost, succeeded, failed, stored, stored');
    }
    CodesClose(codes, failed, |pending|);
    if pending != [] {
      failed := failed + |pending|;
      codes := codes + THROTTLE_CODES;
      lost := lost + multiset(pending);
    }
  }

  lemma CodesClose(codes: set<int>, failed: nat, given: nat)
    requires (codes == {} <==> failed == 0) && DUPLICATE_KEY !in codes
    ensures codes + {} == codes
    ensures given > 0 ==> codes + THROTTLE_CODES != {}
    ensures DUPLICATE_KEY !in codes + THROTTLE_CODES && THROTTLE_CODES == {429, 16500}
  {
    assert 429 in codes + THROTTLE_CODES;
  }

  /** The books after `k` rounds, whatever the server answered. */
  ghost predicate Ran(
      server: Server, stored: set<nat>, docs: seq<Doc>, chunkSize: nat, k: nat, sent: seq<seq<Doc>>,
      pending: seq<Doc>, succeeded: int, failed: nat, codes: set<int>)
    requires chunkSize >= 1
  {
    && sent == SentIn(server, stored, docs, chunkSize, k)
    && pending == PendingAfter(server, stored, docs, chunkSize, k)
    && failed == Refusals(server, stored, sent) && codes == RefusedCodes(server, stored, sent)
    && succeeded + failed + |pending| == |docs| + Excess(server, stored, sent)
    && SentFrom(sent, docs, chunkSize) && (forall d :: d in pending ==> d in docs)
    && (codes == {} <==> failed == 0) && DUPLICATE_KEY !in codes
  }

  lemma PendingIsInput(
      server: Server, stored: set<nat>, docs: seq<Doc>, chunkSize: nat, k: nat, sent: seq<seq<Doc>>,
      pending: seq<Doc>, succeeded: int, failed: nat, codes: set<int>)
    requires chunkSize >= 1
    requires Ran(server, stored, docs, chunkSize, k, sent, pending, succeeded, failed, codes)
    ensures forall d :: d in pending ==> d in docs
  {
  }

  lemma RanOn(
      server: Server, stored: set<nat>, docs: seq<Doc>, chunkSize: nat, k: nat, sent: seq<seq<Doc>>,
      pending: seq<Doc>, succeeded: int, failed: nat, codes: set<int>,
      all: seq<seq<Doc>>, again: seq<Doc>, s: int, f: nat, c: set<int>)
    requires chunkSize >= 1
    requires Ran(server, stored, docs, chunkSize, k, sent, pending, succeeded, failed, codes)
    requires all == sent + Batches(pending, chunkSize)
    requires again == LeftThrottled(server, stored, all, |sent|)
    requires f == Refusals(server, stored, all) - Refusals(server, stored, sent)
    requires RefusedCodes(server, stored, all) == RefusedCodes(server, stored, sent) + c
    requires SentFrom(all[|sent|..], pending, chunkSize) && forall d :: d in again ==> d in pending
    requires s + |again| + f == |pending| + Excess(server, stored, all) - Excess(server, stored, sent)
    requires (c == {} <==> f == 0) && DUPLICATE_KEY !in c
    ensures Ran(server, stored, docs, chunkSize, k + 1, all, again, succeeded + s, failed + f, codes + c)
  {
    hide SentIn, PendingAfter, SentFrom, LeftThrottled, Refusals, RefusedCodes, Excess, Batches;
    NextRound(server, stored, docs, chunkSize, k);
    SentMore(sent, all, docs, pending, chunkSize);
  }

  lemma RanToTheEnd(
      server: Server, stored: set<nat>, docs: seq<Doc>, chunkSize: nat, k: nat, maxAttempts: nat,
      sent: seq<seq<Doc>>, pending: seq<Doc>, succeeded: int, failed: nat, codes: set<int>)
    requires chunkSize >= 1 && k <= maxAttempts && (pending == [] || k == maxAttempts)
    requires Ran(server, stored, docs, chunkSize, k, sent, pending, succeeded, failed, codes)
    ensures sent == SentIn(server, stored, docs, chunkSize, maxAttempts)
    ensures pending == PendingAfter(server, stored, docs, chunkSize, maxAttempts)
    ensures failed == Refusals(server, stored, sent) && codes == RefusedCodes(server, stored, sent)
    ensures succeeded + failed + |pending| == |docs| + Excess(server, stored, sent)
    ensures SentFrom(sent, docs, chunkSize)
    ensures (codes == {} <==> failed == 0) && DUPLICATE_KEY !in codes
    ensures Failures(server, stored, docs, chunkSize, maxAttempts) == failed + |pending|
    ensures StoredBy(server, stored, docs, chunkSize, maxAttempts) == StoreAfter(server, stored, sent)
  {
    hide SentIn, PendingAfter;
    if pending == [] { RoundsEnd(server, stored, docs, chunkSize, k, maxAttempts); }
  }

  lemma NextRound(server: Server, stored: set<nat>, docs: seq<Doc>, chunkSize: nat, k: nat)
    requires chunkSize >= 1
    ensures SentIn(server, stored, docs, chunkSize, k + 1)
            == SentIn(server, stored, docs, chunkSize, k)
               + Batches(PendingAfter(server, stored, docs, chunkSize, k), chunkSize)
    ensures PendingAfter(server, stored, docs, chunkSize, k + 1)
            == LeftThrottled(server, stored, SentIn(server, stored, docs, chunkSize, k + 1),
                             |SentIn(server, stored, docs, chunkSize, k)|)
  {
  }

  /** A document throttled once is sent again and succeeds in the second round. */
  lemma ThrottledOnce(server: Server, code: int, maxAttempts: nat)
    requires code in {429, 16500} && maxAttempts >= 2
    requires forall n, stored, chunk ::
               server(n, stored, chunk).errors == if n == 0 then [WriteError(0, code)] else []
    ensures var d := Doc(1, 0);
            && SentIn(server, {}, [d], 1, maxAttempts) == [[d], [d]]
            && PendingAfter(server, {}, [d], 1, maxAttempts) == []
            && Refusals(server, {}, [[d], [d]]) == 0
  {
    hide *;
    var d := Doc(1, 0);
    var once, twice := [[d]], [[d], [d]];
    OneThrottled(d, code);
    NoRoundYet(server, d);
    assert [] + once == once && once + once == twice && [] + [d] == [d];
    OneMoreSent(server, {}, [], [d]);
    assert LeftThrottled(server, {}, once, 0) == [d] && Refusals(server, {}, once) == 0;
    OneMoreSent(server, {}, once, [d]);
    assert LeftThrottled(server, {}, twice, 1) == [] && Refusals(server, {}, twice) == 0;
    NextRound(server, {}, [d], 1, 0);
    assert SentIn(server, {}, [d], 1, 1) == once && PendingAfter(server, {}, [d], 1, 1) == [d];
    NextRound(server, {}, [d], 1, 1);
    assert SentIn(server, {}, [d], 1, 2) == twice && PendingAfter(server, {}, [d], 1, 2) == [];
    RoundsEnd(server, {}, [d], 1, 2, maxAttempts);
  }

  lemma OneThrottled(d: Doc, code: int)
    requires code in {429, 16500}
    ensures Batches([d], 1) == [[d]]
    ensures Retried([d], [WriteError(0, code)]) == [d] && Perms([WriteError(0, code)]) == 0
    ensures Retried([d], []) == [] && Perms([]) == 0
  {
    var first := [WriteError(0, code)];
    assert first == [] + [first[0]];
    OneMoreError([d], [], first[0]);
  }

  lemma NoRoundYet(server: Server, d: Doc)
    ensures SentIn(server, {}, [d], 1, 0) == [] && PendingAfter(server, {}, [d], 1, 0) == [d]
    ensures LeftThrottled(server, {}, [], 0) == [] && LeftThrottled(server, {}, [[d]], 1) == []
    ensures Refusals(server, {}, []) == 0
  {
  }

  lemma SentMore(
      sent: seq<seq<Doc>>, all: seq<seq<Doc>>, docs: seq<Doc>, pending: seq<Doc>, chunkSize: nat)
    requires SentFrom(sent, docs, chunkSize) && sent <= all
    requires SentFrom(all[|sent|..], pending, chunkSize) && forall d :: d in pending ==> d in docs
    ensures SentFrom(all, docs, chunkSize)
  {
    assert all == sent + all[|sent|..];
  }

  lemma KeysWithin(pending: seq<Doc>, docs: seq<Doc>)
    requires forall d :: d in pending ==> d in docs
    ensures Keys(pending) <= Keys(docs)
  {
  }
}
