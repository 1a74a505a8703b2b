/**
 Reading a thread: pages walked backwards from the newest message, and the pager
 metadata of questions that were answered more than once.
 */
module ChatPaging {
  import opened Wrappers
  import opened ChatTree

  ghost predicate Ascending(s: seq<nat>) {
    forall j, k :: 0 <= j < k < |s| ==> s[j] < s[k]
  }

  ghost predicate Distinct(s: seq<nat>) {
    forall j, k :: 0 <= j < k < |s| ==> s[j] != s[k]
  }

  lemma LastIsGreatest(s: seq<nat>)
    requires Ascending(s) && s != []
    ensures s[|s| - 1] in s && forall i :: i in s ==> i <= s[|s| - 1]
    ensures Ascending(s[..|s| - 1])
    ensures forall i :: i in s[..|s| - 1] <==> i in s && i != s[|s| - 1]
  {
    assert s == s[..|s| - 1] + [s[|s| - 1]];
  }

  /** An ascending list is determined by its elements. */
  lemma {:induction false} SameAscending(a: seq<nat>, b: seq<nat>)
    requires Ascending(a) && Ascending(b) && forall i :: i in a <==> i in b
    ensures a == b
    decreases |a|
  {
    assert (a == [] || a[0] in a) && (b == [] || b[0] in b);
    if a != [] && b != [] {
      hide Ascending;
      LastIsGreatest(a);
      LastIsGreatest(b);
      assert a[|a| - 1] in b && b[|b| - 1] in a;
      assert a[|a| - 1] <= b[|b| - 1] && b[|b| - 1] <= a[|a| - 1];
      var a', b' := a[..|a| - 1], b[..|b| - 1];
      forall i: nat ensures i in a' <==> i in b' {
        assert i in a' <==> i in a && i != a[|a| - 1];
        assert i in b' <==> i in b && i != b[|b| - 1];
      }
      SameAscending(a', b');
      assert a == a' + [a[|a| - 1]] && b == b' + [b[|b| - 1]];
    }
  }

  // ------------------------------------------------------------------ paging

  /** The active messages below `n`, oldest first. */
  function ActiveBelow(active: set<nat>, n: nat): seq<nat> {
    if n == 0 then []
    else if n - 1 in active then ActiveBelow(active, n - 1) + [n - 1]
    else ActiveBelow(active, n - 1)
  }

  lemma {:induction false} ActiveBelowLists(active: set<nat>, n: nat)
    ensures forall i :: i in ActiveBelow(active, n) <==> i in active && i < n
    ensures Ascending(ActiveBelow(active, n))
  {
    if n > 0 {
      ActiveBelowLists(active, n - 1);
      var ids := ActiveBelow(active, n - 1);
      assert forall k :: 0 <= k < |ids| ==> ids[k] in ids;
    }
  }

  /** The store's answer to the page query: active messages below `n`, newest first. */
  function NewestFirst(active: set<nat>, n: nat, limit: nat): (ids: seq<nat>) {
    if n == 0 || limit == 0 then []
    else if n - 1 in active then [n - 1] + NewestFirst(active, n - 1, limit - 1)
    else NewestFirst(active, n - 1, limit)
  }

  function Reverse(ids: seq<nat>): seq<nat> {
    if ids == [] then [] else Reverse(ids[1..]) + [ids[0]]
  }

  lemma {:induction false} ReverseAt(ids: seq<nat>)
    ensures |Reverse(ids)| == |ids|
    ensures forall k :: 0 <= k < |ids| ==> Reverse(ids)[k] == ids[|ids| - 1 - k]
  {
    if ids != [] { ReverseAt(ids[1..]); }
  }

  /** The last `limit` elements of a list. */
  function LastOf(ids: seq<nat>, limit: nat): seq<nat> {
    if |ids| <= limit then ids else ids[|ids| - limit..]
  }

  lemma LastOfAppend(ids: seq<nat>, x: nat, limit: nat)
    requires limit > 0
    ensures LastOf(ids + [x], limit) == LastOf(ids, limit - 1) + [x]
  {
  }

  /** The query, reversed, is the end of the list of active messages. */
  lemma {:induction false} QueryIsLast(active: set<nat>, n: nat, limit: nat)
    ensures Reverse(NewestFirst(active, n, limit)) == LastOf(ActiveBelow(active, n), limit)
  {
    hide LastOf, Reverse;
    if n == 0 || limit == 0 {
      LastOfNone(ActiveBelow(active, n), limit);
    } else if n - 1 in active {
      var q := NewestFirst(active, n - 1, limit - 1);
      QueryIsLast(active, n - 1, limit - 1);
      LastOfAppend(ActiveBelow(active, n - 1), n - 1, limit);
      ReverseCons(n - 1, q);
    } else {
      QueryIsLast(active, n - 1, limit);
    }
  }

  lemma LastOfNone(ids: seq<nat>, limit: nat)
    requires ids == [] || limit == 0
    ensures LastOf(ids, limit) == [] == Reverse([])
  {
  }

  lemma ReverseCons(x: nat, ids: seq<nat>)
    ensures Reverse([x] + ids) == Reverse(ids) + [x]
  {
    assert ([x] + ids)[1..] == ids;
  }

  /** Dropping the one over-fetched row, if it came, leaves the page. */
  lemma TrimPage(q: seq<nat>, all: seq<nat>, limit: nat)
    requires Reverse(q) == LastOf(all, limit + 1)
    ensures Reverse(if |q| > limit then q[..limit] else q) == LastOf(all, limit)
    ensures |q| > limit <==> |all| > limit
  {
    hide Reverse;
    ReverseAt(q);
    if |q| > limit { ReverseAt(q[..limit]); }
  }

  datatype Reply =
    | InvalidCursor
    | Page(messages: seq<nat>, variants: map<nat, Position>, next: Option<nat>)

  /** The order in which the store returns the rows of an unsorted query. */
  ghost predicate RowOrder(order: seq<nat> -> seq<nat>) {
    forall s :: Ascending(s) ==> Rows(order(s), s)
  }

  ghost predicate Rows(r: seq<nat>, s: seq<nat>) {
    Distinct(r) && forall i :: i in r <==> i in s
  }

  /**
   One page. Without a cursor the newest messages, with one those strictly older;
   a cursor that is no message of the thread is refused.
   */
  method GetThreadMessages(
      nodes: seq<Node>, active: set<nat>, hasVariants: bool, limit: nat, before: Option<nat>,
      order: seq<nat> -> seq<nat>)
    returns (r: Reply)
    requires RowOrder(order) && forall i :: i in active ==> i < |nodes|
    ensures r.InvalidCursor? <==> before.Some? && |nodes| <= before.value
    ensures r.Page? ==>
              var all := ActiveBelow(active, Bound(nodes, before));
              && r.messages == LastOf(all, limit) && (forall m :: m in r.messages ==> m < |nodes|)
              && r.next == (if 0 < limit < |all| then Some(r.messages[0]) else None)
    ensures r.Page? && (hasVariants || Linear(nodes)) ==> r.variants == VariantsOf(nodes, Parents(nodes, r.messages))
  {
    hide Reverse, NewestFirst, RowOrder, Linear;
    var bound := |nodes|;
    if before.Some? {
      if |nodes| <= before.value { return InvalidCursor; }
      bound := before.value;
    }
    var messages := NewestFirst(active, bound, limit + 1);
    QueryIsLast(active, bound, limit + 1);
    ActiveBelowLists(active, bound);
    TrimPage(messages, ActiveBelow(active, bound), limit);
    var hasMore := |messages| > limit;
    if hasMore { messages := messages[..limit]; }
    messages := Reverse(messages);
    assert forall m :: m in messages ==> m in ActiveBelow(active, bound);
    var next := if hasMore && messages != [] then Some(messages[0]) else None;
    var variants := map[];
    if hasVariants {
      variants := Annotate(nodes, messages, order);
    }
    if Linear(nodes) { NothingToAnnotate(nodes, Parents(nodes, messages)); }
    r := Page(messages, variants, next);
  }

  function Bound(nodes: seq<Node>, before: Option<nat>): nat {
    if before.Some? then before.value else |nodes|
  }

  lemma {:induction false} BelowSplits(active: set<nat>, m: nat, n: nat)
    requires m <= n
    ensures ActiveBelow(active, m) <= ActiveBelow(active, n)
    ensures forall k :: |ActiveBelow(active, m)| <= k < |ActiveBelow(active, n)|
              ==> m <= ActiveBelow(active, n)[k]
  {
    if m < n { BelowSplits(active, m, n - 1); }
  }

  lemma CutAt(all: seq<nat>, older: seq<nat>, m: nat)
    requires Ascending(all) && older <= all && m < |all|
    requires forall k :: 0 <= k < |older| ==> older[k] < all[m]
    requires forall k :: |older| <= k < |all| ==> all[m] <= all[k]
    ensures older == all[..m]
  {
    if older != [] {
      var k := |older| - 1;
      assert older[k] == all[k] < all[m];
      assert k < m;
    }
    assert all[m] <= all[|older|];
    assert m <= |older|;
  }

  /** A page and everything older than its first message make up the list. */
  lemma PageCompletes(active: set<nat>, n: nat, limit: nat)
    requires 0 < limit < |ActiveBelow(active, n)|
    ensures var all := ActiveBelow(active, n);
            var first := LastOf(all, limit)[0];
            && first < n && first in active
            && all == ActiveBelow(active, first) + LastOf(all, limit)
  {
    hide ActiveBelow;
    var all := ActiveBelow(active, n);
    var m := |all| - limit;
    ActiveBelowLists(active, n);
    ActiveBelowLists(active, all[m]);
    assert all[m] in all;
    BelowSplits(active, all[m], n);
    var older := ActiveBelow(active, all[m]);
    assert forall k :: 0 <= k < |older| ==> older[k] in older;
    CutAt(all, older, m);
  }

  /**
   Following the cursors to the end: reading terminates, and the pages, older in
   front of newer, are exactly the active messages in id order.
   */
  method ReadAll(
      nodes: seq<Node>, active: set<nat>, hasVariants: bool, limit: nat,
      order: seq<nat> -> seq<nat>)
    returns (all: seq<nat>)
    requires RowOrder(order) && limit >= 1 && forall i :: i in active ==> i < |nodes|
    ensures all == ActiveBelow(active, |nodes|)
  {
    hide ActiveBelow, RowOrder, Linear, VariantsOf, Parents;
    all := [];
    var before: Option<nat> := None;
    var more := true;
    while more
      invariant before.Some? ==> before.value < |nodes|
      invariant more ==> ActiveBelow(active, Bound(nodes, before)) + all == ActiveBelow(active, |nodes|)
      invariant !more ==> all == ActiveBelow(active, |nodes|)
      decreases more, Bound(nodes, before)
    {
      ghost var older := ActiveBelow(active, Bound(nodes, before));
      var r := GetThreadMessages(nodes, active, hasVariants, limit, before, order);
      if |older| > limit { PageCompletes(active, Bound(nodes, before), limit); }
      all := r.messages + all;
      before, more := r.next, r.next.Some?;
    }
  }

  // --------------------------------------------------------- variant metadata

  datatype Position = Position(index: nat, count: nat, prev: Option<nat>, next: Option<nat>)

  function Insert(x: nat, s: seq<nat>): (r: seq<nat>)
    ensures forall i :: i in r <==> i == x || i in s
    ensures Ascending(s) && x !in s ==> Ascending(r)
  {
    if s == [] || x <= s[0] then [x] + s
    else
      assert s == [s[0]] + s[1..];
      var rest := Insert(x, s[1..]);
      assert forall k :: 0 <= k < |rest| ==> rest[k] in rest;
      [s[0]] + rest
  }

  function Sorted(s: seq<nat>): (r: seq<nat>)
    ensures forall i :: i in r <==> i in s
    ensures Distinct(s) ==> Ascending(r)
  {
    if s == [] then []
    else
      assert s == [s[0]] + s[1..];
      assert Distinct(s) ==> s[0] !in s[1..];
      Insert(s[0], Sorted(s[1..]))
  }

  /** Place `k` of an ordered group, numbered from one, and its two neighbours. */
  function Place(ordered: seq<nat>, k: nat): Position
    requires k < |ordered|
  {
    Position(k + 1, |ordered|,
             if k > 0 then Some(ordered[k - 1]) else None,
             if k + 1 < |ordered| then Some(ordered[k + 1]) else None)
  }

  /** Numbers the answers of one group; a question answered once has no pager. */
  function VariantPositions(group: seq<nat>): (m: map<nat, Position>)
    requires Distinct(group)
  {
    if |group| < 2 then map[]
    else
      var ordered := Sorted(group);
      map k | 0 <= k < |ordered| :: ordered[k] := Place(ordered, k)
  }

  /** How many answers to the same question were stored before answer `i`. */
  function Rank(nodes: seq<Node>, i: nat): nat
    requires i < |nodes|
  {
    var p := nodes[i].parent;
    |IdsBelow(nodes, (x: Node) => x.parent == p && x.role.Ai?, i)|
  }

  function PositionOf(nodes: seq<Node>, i: nat): Position
    requires IsAnswer(nodes, i)
  {
    var answers := Answers(nodes, nodes[i].parent);
    RankInAnswers(nodes, i);
    Place(answers, Rank(nodes, i))
  }

  /** The metadata of the answers to some questions, those answered once left out. */
  ghost function VariantsOf(nodes: seq<Node>, parents: set<Option<nat>>): map<nat, Position> {
    map i: nat | i < |nodes| && nodes[i].role.Ai? && nodes[i].parent in parents
                 && |Answers(nodes, nodes[i].parent)| >= 2
      :: PositionOf(nodes, i)
  }

  /** The questions whose answers are on a page. */
  function Parents(nodes: seq<Node>, page: seq<nat>): set<Option<nat>>
    requires forall m :: m in page ==> m < |nodes|
  {
    set m | m in page && nodes[m].role.Ai? :: nodes[m].parent
  }

  lemma {:induction false} IdsSplit(nodes: seq<Node>, f: Node -> bool, m: nat, n: nat)
    requires m <= n <= |nodes|
    ensures IdsBelow(nodes, f, m) <= IdsBelow(nodes, f, n)
    ensures m < n && f(nodes[m]) ==>
              |IdsBelow(nodes, f, m)| < |IdsBelow(nodes, f, n)|
              && IdsBelow(nodes, f, n)[|IdsBelow(nodes, f, m)|] == m
    decreases n
  {
    if m < n - 1 {
      IdsSplit(nodes, f, m, n - 1);
    }
  }

  /** An answer's place in its group is the number of answers stored before it. */
  lemma RankInAnswers(nodes: seq<Node>, i: nat)
    requires IsAnswer(nodes, i)
    ensures var answers := Answers(nodes, nodes[i].parent);
            Rank(nodes, i) < |answers| && answers[Rank(nodes, i)] == i
  {
    var p := nodes[i].parent;
    IdsSplit(nodes, (x: Node) => x.parent == p && x.role.Ai?, i, |nodes|);
  }

  lemma PlaceIsRank(nodes: seq<Node>, p: Option<nat>, k: nat)
    requires k < |Answers(nodes, p)|
    ensures var i := Answers(nodes, p)[k];
            IsAnswer(nodes, i) && nodes[i].parent == p && Rank(nodes, i) == k
  {
    var answers := Answers(nodes, p);
    var i := answers[k];
    assert i in answers;
    RankInAnswers(nodes, i);
    assert answers[Rank(nodes, i)] == answers[k];
  }

  /** Numbering a group in any row order gives each answer its rank. */
  lemma GroupPositions(nodes: seq<Node>, p: Option<nat>, group: seq<nat>)
    requires Distinct(group) && Rows(group, Answers(nodes, p))
    ensures var m := VariantPositions(group);
            && (forall i :: i in m <==>
                  IsAnswer(nodes, i) && nodes[i].parent == p && |Answers(nodes, p)| >= 2)
            && (forall i :: i in m && IsAnswer(nodes, i) ==> m[i] == PositionOf(nodes, i))
  {
    hide Place, Answers;
    var answers := Answers(nodes, p);
    OrderedGroup(nodes, p, group);
    AnswersAre(nodes, p);
    forall k | 0 <= k < |answers|
      ensures IsAnswer(nodes, answers[k]) && nodes[answers[k]].parent == p
      ensures Place(answers, k) == PositionOf(nodes, answers[k])
    {
      PlaceIsRank(nodes, p, k);
    }
  }

  lemma AnswersAre(nodes: seq<Node>, p: Option<nat>)
    ensures forall i :: i in Answers(nodes, p) <==> IsAnswer(nodes, i) && nodes[i].parent == p
  {
  }

  lemma OrderedGroup(nodes: seq<Node>, p: Option<nat>, group: seq<nat>)
    requires Distinct(group) && Rows(group, Answers(nodes, p))
    ensures Sorted(group) == Answers(nodes, p) && |group| == |Answers(nodes, p)|
  {
    SameAscending(Sorted(group), Answers(nodes, p));
    SameLength(group);
  }

  lemma {:induction false} SameLength(s: seq<nat>)
    ensures |Sorted(s)| == |s|
  {
    if s != [] {
      SameLength(s[1..]);
      InsertLength(s[0], Sorted(s[1..]));
    }
  }

  lemma {:induction false} InsertLength(x: nat, s: seq<nat>)
    ensures |Insert(x, s)| == |s| + 1
  {
    if s != [] && s[0] < x { InsertLength(x, s[1..]); }
  }

  function Get(groups: map<Option<nat>, seq<nat>>, p: Option<nat>): seq<nat> {
    if p in groups then groups[p] else []
  }

  /** The rows of one question, in the order they came. */
  function OfParent(nodes: seq<Node>, rows: seq<nat>, p: Option<nat>): (r: seq<nat>)
    ensures forall i :: i in r <==> i in rows && i < |nodes| && nodes[i].parent == p
    ensures Distinct(rows) ==> Distinct(r)
    decreases |rows|
  {
    if rows == [] then []
    else
      var last, rest := rows[|rows| - 1], rows[..|rows| - 1];
      assert forall i :: i in rows <==> i in rest || i == last;
      var r := OfParent(nodes, rest, p);
      assert Distinct(rows) ==> last !in rest;
      if last < |nodes| && nodes[last].parent == p then r + [last] else r
  }

  method Annotate(nodes: seq<Node>, page: seq<nat>, order: seq<nat> -> seq<nat>)
    returns (annotations: map<nat, Position>)
    requires RowOrder(order) && forall m :: m in page ==> m < |nodes|
    ensures annotations == VariantsOf(nodes, Parents(nodes, page))
  {
    hide VariantsOf, VariantPositions, OfParent, Rows, Answers;
    annotations := map[];
    var parents := Parents(nodes, page);
    var found := IdsBelow(nodes, (x: Node) => x.role.Ai? && x.parent in parents, |nodes|);
    var siblings := order(found);
    assert Rows(siblings, found) by { assert Ascending(found); }
    RowsAreFound(siblings, found);
    var groups := GroupByParent(nodes, siblings);
    KeysAreParents(nodes, page, siblings, groups.Keys);
    NoVariants(nodes);
    var rest := groups.Keys;
    ghost var done: set<Option<nat>> := {};
    while rest != {}
      invariant done + rest == groups.Keys
      invariant annotations == VariantsOf(nodes, done)
    {
      var p :| p in rest;
      GroupRows(nodes, parents, siblings, p);
      AddGroup(nodes, done, p, groups[p]);
      annotations := annotations + VariantPositions(groups[p]);
      rest, done := rest - {p}, done + {p};
    }
  }

  lemma RowsAreFound(r: seq<nat>, s: seq<nat>)
    requires Rows(r, s)
    ensures Distinct(r) && forall i :: i in r ==> i in s
  {
  }

  method GroupByParent(nodes: seq<Node>, rows: seq<nat>)
    returns (groups: map<Option<nat>, seq<nat>>)
    requires forall i :: i in rows ==> i < |nodes|
    ensures forall p :: p in groups <==> OfParent(nodes, rows, p) != []
    ensures forall p :: p in groups ==> groups[p] == OfParent(nodes, rows, p)
  {
    groups := map[];
    for k := 0 to |rows|
      invariant forall p :: p in groups <==> OfParent(nodes, rows[..k], p) != []
      invariant forall p :: p in groups ==> groups[p] == OfParent(nodes, rows[..k], p)
    {
      assert rows[k] in rows;
      var p := nodes[rows[k]].parent;
      assert rows[..k + 1][..k] == rows[..k];
      groups := groups[p := Get(groups, p) + [rows[k]]];
    }
    assert rows[..|rows|] == rows;
  }

  /** The questions found are those on the page: each shown answer finds itself. */
  lemma KeysAreParents(nodes: seq<Node>, page: seq<nat>, rows: seq<nat>, keys: set<Option<nat>>)
    requires forall m :: m in page ==> m < |nodes|
    requires var parents := Parents(nodes, page);
             Rows(rows, IdsBelow(nodes, (x: Node) => x.role.Ai? && x.parent in parents, |nodes|))
    requires forall p :: p in keys <==> OfParent(nodes, rows, p) != []
    ensures keys == Parents(nodes, page)
  {
    forall p ensures p in keys <==> p in Parents(nodes, page) {
      var r := OfParent(nodes, rows, p);
      assert r == [] || r[0] in r;
      if p in Parents(nodes, page) {
        var m :| m in page && nodes[m].role.Ai? && nodes[m].parent == p;
        assert m in rows && m in r;
      }
    }
  }

  lemma NoVariants(nodes: seq<Node>)
    ensures VariantsOf(nodes, {}) == map[]
  {
  }

  lemma AddGroup(nodes: seq<Node>, done: set<Option<nat>>, p: Option<nat>, group: seq<nat>)
    requires Distinct(group) && Rows(group, Answers(nodes, p))
    ensures VariantsOf(nodes, done) + VariantPositions(group) == VariantsOf(nodes, done + {p})
  {
    hide VariantPositions, Answers;
    GroupPositions(nodes, p, group);
  }

  lemma GroupRows(nodes: seq<Node>, parents: set<Option<nat>>, siblings: seq<nat>, p: Option<nat>)
    requires p in parents
    requires Rows(siblings, IdsBelow(nodes, (x: Node) => x.role.Ai? && x.parent in parents, |nodes|))
    ensures Distinct(OfParent(nodes, siblings, p))
    ensures Rows(OfParent(nodes, siblings, p), Answers(nodes, p))
  {
  }

  /** Skipping the metadata of a thread without variants loses nothing. */
  lemma NothingToAnnotate(nodes: seq<Node>, parents: set<Option<nat>>)
    requires Linear(nodes)
    ensures VariantsOf(nodes, parents) == map[]
  {
    forall i | IsAnswer(nodes, i) ensures |Answers(nodes, nodes[i].parent)| < 2 {
      if |Answers(nodes, nodes[i].parent)| >= 2 {
        var j, k := TwoAnswers(nodes, nodes[i].parent);
      }
    }
  }

  lemma TwoAnswers(nodes: seq<Node>, p: Option<nat>) returns (j: nat, k: nat)
    requires |Answers(nodes, p)| >= 2
    ensures IsAnswer(nodes, j) && IsAnswer(nodes, k) && j < k
    ensures nodes[j].parent == nodes[k].parent == p
  {
    var answers := Answers(nodes, p);
    assert answers[0] in answers && answers[1] in answers;
    j, k := answers[0], answers[1];
  }

  ghost predicate SameQuestion(nodes: seq<Node>, i: int, j: int) {
    IsAnswer(nodes, i) && IsAnswer(nodes, j) && nodes[i].parent == nodes[j].parent
  }

  /** A pager goes to each answer that has another beside it and stands with one shown. */
  lemma {:induction false} PagersExactly(nodes: seq<Node>, page: seq<nat>, i: nat)
    requires forall m :: m in page ==> m < |nodes|
    ensures i in VariantsOf(nodes, Parents(nodes, page))
            <==> && (exists m :: m in page && SameQuestion(nodes, i, m))
                 && exists j :: j != i && SameQuestion(nodes, i, j)
  {
    if IsAnswer(nodes, i) {
      var answers := Answers(nodes, nodes[i].parent);
      RankInAnswers(nodes, i);
      if |answers| >= 2 {
        var k := if answers[0] == i then answers[1] else answers[0];
        assert k in answers && k != i && SameQuestion(nodes, i, k);
      }
      if j :| j != i && SameQuestion(nodes, i, j) {
        assert j in answers && i in answers;
      }
      if i in VariantsOf(nodes, Parents(nodes, page)) {
        var m :| m in page && nodes[m].role.Ai? && nodes[m].parent == nodes[i].parent;
        assert SameQuestion(nodes, i, m);
      }
    }
  }

  // ------------------------------------------------------- what a pager may rely on

  /** Neighbours are mutual and numbered consecutively from 1 to `count`. */
  lemma Neighbours(nodes: seq<Node>, i: nat)
    requires IsAnswer(nodes, i)
    ensures var here := PositionOf(nodes, i);
            && 1 <= here.index <= here.count
            && (here.index == 1 <==> here.prev.None?)
            && (here.index == here.count <==> here.next.None?)
            && (here.next.Some? ==>
                  var j := here.next.value;
                  && IsAnswer(nodes, j) && nodes[j].parent == nodes[i].parent && i < j
                  && PositionOf(nodes, j).index == here.index + 1
                  && PositionOf(nodes, j).prev == Some(i))
            && (here.prev.Some? ==>
                  var j := here.prev.value;
                  && IsAnswer(nodes, j) && nodes[j].parent == nodes[i].parent && j < i
                  && PositionOf(nodes, j).index == here.index - 1
                  && PositionOf(nodes, j).next == Some(i))
  {
    var p := nodes[i].parent;
    var k := Rank(nodes, i);
    RankInAnswers(nodes, i);
    if k > 0 { PlaceIsRank(nodes, p, k - 1); }
    if k + 1 < |Answers(nodes, p)| { PlaceIsRank(nodes, p, k + 1); }
  }

  lemma {:induction false} IdsGrow(nodes: seq<Node>, x: Node, f: Node -> bool, n: nat)
    requires n <= |nodes|
    ensures IdsBelow(nodes + [x], f, n) == IdsBelow(nodes, f, n)
  {
    if n > 0 { IdsGrow(nodes, x, f, n - 1); }
  }

  /** Storing a message: one more answer where it is an answer, else the same group. */
  lemma AnswersGrow(nodes: seq<Node>, x: Node, p: Option<nat>)
    ensures Answers(nodes + [x], p)
            == Answers(nodes, p) + (if x.parent == p && x.role.Ai? then [|nodes|] else [])
  {
    IdsGrow(nodes, x, (y: Node) => y.parent == p && y.role.Ai?, |nodes|);
  }

  /** Numbers never change as answers are added, and neither does the way back. */
  lemma {:induction false} StablePositions(nodes: seq<Node>, x: Node, i: nat)
    requires IsAnswer(nodes, i)
    ensures IsAnswer(nodes + [x], i)
    ensures PositionOf(nodes + [x], i).index == PositionOf(nodes, i).index
    ensures PositionOf(nodes + [x], i).prev == PositionOf(nodes, i).prev
    ensures PositionOf(nodes, i).next.Some? ==>
              PositionOf(nodes + [x], i).next == PositionOf(nodes, i).next
  {
    var p := nodes[i].parent;
    IdsGrow(nodes, x, (y: Node) => y.parent == p && y.role.Ai?, i);
    AnswersGrow(nodes, x, p);
    RankInAnswers(nodes, i);
  }

  /** A regenerated answer is the last of its group, next to at least one other. */
  lemma {:induction false} RegeneratedIsLast(nodes: seq<Node>, t: nat, checkpoint: nat)
    requires IsAnswer(nodes, t)
    ensures var ns := nodes + [Node(Ai, checkpoint, nodes[t].parent)];
            var here := PositionOf(ns, |nodes|);
            && here.index == here.count == |Answers(nodes, nodes[t].parent)| + 1
            && here.index >= 2 && here.prev.Some? && here.next.None?
            && |nodes| in VariantPositions(Answers(ns, nodes[t].parent))
            && VariantPositions(Answers(ns, nodes[t].parent))[|nodes|] == here
  {
    var p := nodes[t].parent;
    var x := Node(Ai, checkpoint, p);
    AnswersGrow(nodes, x, p);
    assert t in Answers(nodes, p);
    IdsGrow(nodes, x, (y: Node) => y.parent == p && y.role.Ai?, |nodes|);
    GroupPositions(nodes + [x], p, Answers(nodes + [x], p));
  }
}
