/**
 A chat thread as a message tree. Messages are numbered by insertion, so an id is
 a position in `nodes`; the stored `active` flags are kept as the set of ids whose
 flag is true. A turn's parent is the checkpoint of the answer it follows.
 */
module ChatTree {
  import opened Wrappers

  datatype Role = Human | Ai

  datatype Node = Node(role: Role, checkpoint: nat, parent: Option<nat>)

  // ------------------------------------------------------------ tree queries

  /** The ids below `n` whose message satisfies `f`, in id order. */
  function IdsBelow(nodes: seq<Node>, f: Node -> bool, n: nat): (ids: seq<nat>)
    requires n <= |nodes|
    ensures forall i :: i in ids <==> 0 <= i < n && f(nodes[i])
    ensures forall j, k :: 0 <= j < k < |ids| ==> ids[j] < ids[k]
  {
    if n == 0 then []
    else
      var ids := IdsBelow(nodes, f, n - 1);
      assert forall i :: i in ids ==> i < n - 1;
      assert forall k :: 0 <= k < |ids| ==> ids[k] in ids;
      if f(nodes[n - 1]) then ids + [n - 1] else ids
  }

  /** The messages branching from `p`: the question asked there and its answers. */
  function Group(nodes: seq<Node>, p: Option<nat>): seq<nat> {
    IdsBelow(nodes, (x: Node) => x.parent == p, |nodes|)
  }

  function Humans(nodes: seq<Node>, p: Option<nat>): seq<nat> {
    IdsBelow(nodes, (x: Node) => x.parent == p && x.role.Human?, |nodes|)
  }

  function Answers(nodes: seq<Node>, p: Option<nat>): seq<nat> {
    IdsBelow(nodes, (x: Node) => x.parent == p && x.role.Ai?, |nodes|)
  }

  predicate IsAnswer(nodes: seq<Node>, i: int) {
    0 <= i < |nodes| && nodes[i].role.Ai?
  }

  /** Message `i` was asked or given in reply to answer `a`. */
  predicate Follows(nodes: seq<Node>, a: int, i: int) {
    IsAnswer(nodes, a) && 0 <= i < |nodes| && nodes[i].parent == Some(nodes[a].checkpoint)
  }

  // How the stored messages hang together.

  ghost predicate DistinctCheckpoints(nodes: seq<Node>) {
    forall i, j :: IsAnswer(nodes, i) && IsAnswer(nodes, j) && i != j
      ==> nodes[i].checkpoint != nodes[j].checkpoint
  }

  ghost predicate HasEarlierAnswer(nodes: seq<Node>, i: int) {
    exists a :: a < i && Follows(nodes, a, i)
  }

  /** Every turn but the first follows an answer stored before it. */
  ghost predicate Rooted(nodes: seq<Node>) {
    forall i :: 0 <= i < |nodes| && nodes[i].parent.Some? ==> HasEarlierAnswer(nodes, i)
  }

  /** A branching point has one question, stored before every answer to it. */
  ghost predicate OneQuestion(nodes: seq<Node>) {
    forall i, j :: 0 <= j < |nodes| && IsQuestion(nodes, i, nodes[j].parent) && i != j
      ==> nodes[j].role.Ai? && i < j
  }

  ghost predicate HasQuestion(nodes: seq<Node>, p: Option<nat>) {
    exists i :: IsQuestion(nodes, i, p)
  }

  ghost predicate Asked(nodes: seq<Node>) {
    forall j :: IsAnswer(nodes, j) ==> HasQuestion(nodes, nodes[j].parent)
  }

  ghost predicate HasAnswer(nodes: seq<Node>, p: Option<nat>) {
    exists j :: IsAnswer(nodes, j) && nodes[j].parent == p
  }

  ghost predicate Answered(nodes: seq<Node>) {
    forall i :: 0 <= i < |nodes| ==> HasAnswer(nodes, nodes[i].parent)
  }

  ghost predicate Links(nodes: seq<Node>) {
    DistinctCheckpoints(nodes) && Rooted(nodes) && OneQuestion(nodes) && Asked(nodes)
  }

  ghost predicate Tree(nodes: seq<Node>) {
    Links(nodes) && Answered(nodes)
  }

  predicate IsQuestion(nodes: seq<Node>, i: int, p: Option<nat>) {
    0 <= i < |nodes| && nodes[i].role.Human? && nodes[i].parent == p
  }

  // ---------------------------------------------------------------- branches

  datatype Turn = Turn(question: nat, answer: nat)

  function Last(b: seq<Turn>): Turn
    requires b != []
  {
    b[|b| - 1]
  }

  function Init(b: seq<Turn>): seq<Turn>
    requires b != []
  {
    b[..|b| - 1]
  }

  /** The branching point a path stops at, where a next turn would be asked. */
  function Tip(nodes: seq<Node>, b: seq<Turn>): Option<nat>
  {
    if b == [] || |nodes| <= Last(b).answer then None else Some(nodes[Last(b).answer].checkpoint)
  }

  /** A question asked at `p` and an answer to it. */
  predicate IsTurn(nodes: seq<Node>, p: Option<nat>, t: Turn) {
    && t.question < t.answer && IsQuestion(nodes, t.question, p)
    && IsAnswer(nodes, t.answer) && nodes[t.answer].parent == p
  }

  /** A path of turns from the root, each continuing the answer before it. */
  predicate IsPath(nodes: seq<Node>, b: seq<Turn>)
    decreases |b|
  {
    b == []
    || (&& IsPath(nodes, Init(b))
        && (Init(b) != [] ==> Last(Init(b)).answer < Last(b).question < |nodes|)
        && IsTurn(nodes, Tip(nodes, Init(b)), Last(b)))
  }

  predicate Childless(nodes: seq<Node>, p: Option<nat>) {
    forall i :: 0 <= i < |nodes| ==> nodes[i].parent != p
  }

  /** A path from the root to a leaf: no message branches from where it stops. */
  predicate IsBranch(nodes: seq<Node>, b: seq<Turn>) {
    IsPath(nodes, b) && Childless(nodes, Tip(nodes, b))
  }

  /** The messages of a path. */
  function Ids(b: seq<Turn>): set<nat>
    decreases |b|
  {
    if b == [] then {} else Ids(Init(b)) + {Last(b).question, Last(b).answer}
  }

  lemma {:induction false} IdsBounded(nodes: seq<Node>, b: seq<Turn>)
    requires IsPath(nodes, b)
    ensures forall i :: i in Ids(b) ==> b != [] && i <= Last(b).answer
    decreases |b|
  {
    if b != [] { IdsBounded(nodes, Init(b)); }
  }

  lemma {:induction false} PathGrows(nodes: seq<Node>, more: seq<Node>, b: seq<Turn>)
    requires IsPath(nodes, b)
    ensures IsPath(nodes + more, b) && Tip(nodes + more, b) == Tip(nodes, b)
    decreases |b|
  {
    if b != [] { PathGrows(nodes, more, Init(b)); }
  }

  // -------------------------------------------------------------- operations

  /** The newest active answer below `n`, whose checkpoint the next turn continues. */
  function ActiveLeaf(nodes: seq<Node>, active: set<nat>, n: nat): (leaf: Option<nat>)
    requires n <= |nodes|
  {
    if n == 0 then None
    else if nodes[n - 1].role.Ai? && n - 1 in active then Some(nodes[n - 1].checkpoint)
    else ActiveLeaf(nodes, active, n - 1)
  }

  /** The last active answer of a list, else its last answer. */
  function Chosen(active: set<nat>, answers: seq<nat>): (c: nat)
    requires answers != []
    ensures c in answers
  {
    var k := LastActive(active, answers, |answers|);
    if k.Some? then answers[k.value] else answers[|answers| - 1]
  }

  function LastActive(active: set<nat>, answers: seq<nat>, n: nat): (k: Option<nat>)
    requires n <= |answers|
    ensures k.Some? ==> k.value < n && answers[k.value] in active
    ensures k.None? ==> forall j :: 0 <= j < n ==> answers[j] !in active
  {
    if n == 0 then None
    else if answers[n - 1] in active then Some(n - 1)
    else LastActive(active, answers, n - 1)
  }

  lemma FollowsLater(nodes: seq<Node>, a: int, i: int)
    requires Links(nodes) && Follows(nodes, a, i)
    ensures a < i
  {
    assert HasEarlierAnswer(nodes, i);
  }

  lemma FollowersAreLater(nodes: seq<Node>, a: nat)
    requires Links(nodes) && IsAnswer(nodes, a)
    ensures forall i :: i in Answers(nodes, Some(nodes[a].checkpoint)) ==> a < i && IsAnswer(nodes, i)
  {
    forall i | i in Answers(nodes, Some(nodes[a].checkpoint)) ensures a < i {
      FollowsLater(nodes, a, i);
    }
  }

  /** The follow-ups of answer `a` to the end of its branch. */
  ghost function WalkDown(nodes: seq<Node>, active: set<nat>, a: nat): set<nat>
    requires Links(nodes) && IsAnswer(nodes, a)
    decreases |nodes| - a
  {
    var p := Some(nodes[a].checkpoint);
    FollowersAreLater(nodes, a);
    if Answers(nodes, p) == [] then {}
    else
      var c := Chosen(active, Answers(nodes, p));
      (set h <- Humans(nodes, p)) + {c} + WalkDown(nodes, active, c)
  }

  /** What selecting answer `t` puts on the conversation. */
  ghost function Kept(nodes: seq<Node>, active: set<nat>, t: nat): set<nat>
    requires Links(nodes) && IsAnswer(nodes, t)
  {
    (set h <- Humans(nodes, nodes[t].parent)) + {t} + WalkDown(nodes, active, t)
  }

  /** The active set after selecting `t`: one range update, then one keyed update. */
  ghost function Selected(nodes: seq<Node>, active: set<nat>, t: nat): set<nat>
    requires Links(nodes) && IsAnswer(nodes, t)
  {
    var lower := Group(nodes, nodes[t].parent)[0];
    (set i | i in active && i < lower) + Kept(nodes, active, t)
  }

  /** No question of the thread has more than one answer. */
  ghost predicate Linear(nodes: seq<Node>) {
    forall i, j :: IsAnswer(nodes, i) && IsAnswer(nodes, j) && nodes[i].parent == nodes[j].parent
      ==> i == j
  }

  /** The active messages are exactly one root-to-leaf path. */
  ghost predicate Consistent(nodes: seq<Node>, active: set<nat>, hasVariants: bool, b: seq<Turn>) {
    && Tree(nodes)
    && IsBranch(nodes, b)
    && active == Ids(b)
    && (hasVariants || Linear(nodes))
  }

  ghost predicate Fresh(nodes: seq<Node>, checkpoint: nat) {
    forall i :: 0 <= i < |nodes| ==>
      nodes[i].checkpoint != checkpoint && nodes[i].parent != Some(checkpoint)
  }

  /** The range update of a regeneration: ids from `t` on leave, save the replacement. */
  function Superseded(active: set<nat>, t: nat, replacement: nat): set<nat> {
    set i | i in active && !(t <= i && i != replacement)
  }

  datatype Status = Done | NotFound | Conflict

  /** One thread's stored messages. */
  class Thread {
    var nodes: seq<Node>
    var active: set<nat>
    var hasVariants: bool
    ghost var branch: seq<Turn>

    ghost predicate Valid()
      reads this
    {
      Consistent(nodes, active, hasVariants, branch)
    }

    constructor ()
      ensures Valid() && nodes == [] && !hasVariants
    {
      nodes, active, hasVariants, branch := [], {}, false, [];
    }

    /** An ordinary turn: a question and its answer, continuing the active leaf. */
    method Append(checkpoint: nat)
      requires Valid() && Fresh(nodes, checkpoint)
      modifies this
      ensures Valid()
      ensures nodes == Grown(old(nodes), checkpoint, Tip(old(nodes), old(branch)))
      ensures branch == old(branch) + [Turn(|old(nodes)|, |old(nodes)| + 1)]
      ensures hasVariants == old(hasVariants)
    {
      hide Consistent, Tip, ActiveLeaf;
      var n := |nodes|;
      var parent := ActiveLeaf(nodes, active, n);
      AppendKeeps(nodes, active, hasVariants, checkpoint, branch);
      nodes := nodes + [Node(Human, checkpoint, parent), Node(Ai, checkpoint, parent)];
      active := active + {n, n + 1};
      branch := branch + [Turn(n, n + 1)];
    }

    /**
     Another answer to the question of an active answer: it is stored beside the
     old one, and a range update over the ids from `target` on then hides the old
     answer with everything that grew out of it.
     */
    method Regenerate(target: nat, checkpoint: nat) returns (status: Status)
      requires Valid() && Fresh(nodes, checkpoint)
      modifies this
      ensures Valid()
      ensures status == NotFound <==> !IsAnswer(old(nodes), target)
      ensures status == Conflict <==> IsAnswer(old(nodes), target) && target !in old(active)
      ensures status != Done ==> unchanged(this)
      ensures status == Done ==>
                && nodes == old(nodes) + [Node(Ai, checkpoint, old(nodes)[target].parent)]
                && hasVariants
                && exists k :: 0 <= k < |old(branch)| && old(branch)[k].answer == target
                     && branch == old(branch)[..k] + [old(branch)[k].(answer := |old(nodes)|)]
    {
      hide Consistent, Fresh;
      if target >= |nodes| || nodes[target].role.Human? {
        return NotFound;
      }
      if target !in active {
        return Conflict;
      }
      var n := |nodes|;
      ghost var k := RegenerateKeeps(nodes, active, hasVariants, branch, target, checkpoint);
      nodes := nodes + [Node(Ai, checkpoint, nodes[target].parent)];
      active := Superseded(active + {n}, target, n);
      hasVariants := true;
      branch := branch[..k] + [branch[k].(answer := n)];
      status := Done;
    }

    /**
     Puts any answer of the thread on the conversation, with the follow-ups it last
     had. The active messages stay one branch when the answer's question is active.
     */
    method SelectVariant(target: nat) returns (status: Status)
      requires Valid()
      modifies this`active, this`branch
      ensures status == (if IsAnswer(nodes, target) then Done else NotFound)
      ensures status != Done ==> unchanged(this)
      ensures status == Done ==> active == Selected(nodes, old(active), target)
      ensures status == Done && Group(nodes, nodes[target].parent)[0] in old(active) ==> Valid()
    {
      hide Consistent, Selected, Links;
      if target >= |nodes| || nodes[target].role.Human? {
        return NotFound;
      }
      QuestionLeads(nodes, active, hasVariants, branch, target);
      var lower := Group(nodes, nodes[target].parent)[0];
      var keep := KeepBranch(target);
      SelectedIs(nodes, active, target);
      if lower in active {
        branch := SelectKeeps(nodes, active, hasVariants, branch, target);
      }
      active := (set i | i in active && i < lower) + keep;
      status := Done;
    }

    /** The messages selecting `target` keeps: its question, itself and the walk down. */
    method KeepBranch(target: nat) returns (keep: set<nat>)
      requires Links(nodes) && IsAnswer(nodes, target)
      ensures keep == Kept(nodes, active, target)
    {
      hide Chosen, Links, Humans, Answers;
      keep := (set h <- Humans(nodes, nodes[target].parent)) + {target};
      var cursor := target;
      var children := Answers(nodes, Some(nodes[cursor].checkpoint));
      while children != []
        invariant IsAnswer(nodes, cursor) && children == Answers(nodes, Some(nodes[cursor].checkpoint))
        invariant keep + WalkDown(nodes, active, cursor) == Kept(nodes, active, target)
        decreases |nodes| - cursor
      {
        FollowersAreLater(nodes, cursor);
        var chosen := Chosen(active, children);
        keep := keep + (set h <- Humans(nodes, Some(nodes[cursor].checkpoint))) + {chosen};
        cursor := chosen;
        children := Answers(nodes, Some(nodes[cursor].checkpoint));
      }
    }
  }

  /** The newest active answer is the leaf of the active branch. */
  lemma {:induction false} LeafIsTip(nodes: seq<Node>, b: seq<Turn>, n: nat)
    requires IsPath(nodes, b) && n <= |nodes|
    requires b != [] ==> Last(b).answer < n
    ensures ActiveLeaf(nodes, Ids(b), n) == Tip(nodes, b)
    decreases n
  {
    IdsBounded(nodes, b);
    if n != 0 && (b == [] || Last(b).answer < n - 1) {
      LeafIsTip(nodes, b, n - 1);
    }
  }

  function Grown(nodes: seq<Node>, checkpoint: nat, parent: Option<nat>): seq<Node> {
    nodes + [Node(Human, checkpoint, parent), Node(Ai, checkpoint, parent)]
  }

  lemma AppendKeeps(
      nodes: seq<Node>, active: set<nat>, hasVariants: bool, checkpoint: nat, b: seq<Turn>)
    requires Consistent(nodes, active, hasVariants, b) && Fresh(nodes, checkpoint)
    ensures ActiveLeaf(nodes, active, |nodes|) == Tip(nodes, b)
    ensures Consistent(Grown(nodes, checkpoint, Tip(nodes, b)), active + {|nodes|, |nodes| + 1},
                       hasVariants, b + [Turn(|nodes|, |nodes| + 1)])
  {
    hide *;
    Parts(nodes, active, hasVariants, b);
    LeafIsTip(nodes, b, |nodes|);
    AppendKeepsTree(nodes, checkpoint, b);
    AppendExtends(nodes, checkpoint, b);
    Whole(Grown(nodes, checkpoint, Tip(nodes, b)), active + {|nodes|, |nodes| + 1}, hasVariants,
          b + [Turn(|nodes|, |nodes| + 1)]);
  }

  lemma Parts(nodes: seq<Node>, active: set<nat>, hasVariants: bool, b: seq<Turn>)
    requires Consistent(nodes, active, hasVariants, b)
    ensures Tree(nodes) && IsBranch(nodes, b) && IsPath(nodes, b) && active == Ids(b)
    ensures hasVariants || Linear(nodes)
    ensures b != [] ==> Last(b).answer < |nodes|
  {
    hide Tree, Childless, Linear, Ids;
  }

  lemma Whole(nodes: seq<Node>, active: set<nat>, hasVariants: bool, b: seq<Turn>)
    requires Tree(nodes) && IsBranch(nodes, b) && active == Ids(b)
    requires hasVariants || Linear(nodes)
    ensures Consistent(nodes, active, hasVariants, b)
  {
    hide Tree, IsBranch, Linear, Ids;
  }

  // Storing one more message.

  lemma StepDistinct(nodes: seq<Node>, x: Node)
    requires DistinctCheckpoints(nodes)
    requires x.role.Ai? ==> forall i :: IsAnswer(nodes, i) ==> nodes[i].checkpoint != x.checkpoint
    ensures DistinctCheckpoints(nodes + [x])
  {
    var ns := nodes + [x];
    forall i, j | IsAnswer(ns, i) && IsAnswer(ns, j) && i != j
      ensures ns[i].checkpoint != ns[j].checkpoint
    {
      assert i < |nodes| ==> IsAnswer(nodes, i);
      assert j < |nodes| ==> IsAnswer(nodes, j);
    }
  }

  lemma StepRooted(nodes: seq<Node>, x: Node)
    requires Rooted(nodes)
    requires x.parent.Some? ==> exists a :: IsAnswer(nodes, a) && x.parent == Some(nodes[a].checkpoint)
    ensures Rooted(nodes + [x])
  {
    var ns := nodes + [x];
    forall i | 0 <= i < |ns| && ns[i].parent.Some? ensures HasEarlierAnswer(ns, i) {
      if i < |nodes| {
        assert HasEarlierAnswer(nodes, i);
        var a :| a < i && Follows(nodes, a, i);
        assert Follows(ns, a, i);
      } else {
        var a :| IsAnswer(nodes, a) && x.parent == Some(nodes[a].checkpoint);
        assert Follows(ns, a, i);
      }
    }
  }

  lemma StepOneQuestion(nodes: seq<Node>, x: Node)
    requires OneQuestion(nodes)
    requires x.role.Human? ==> forall i :: 0 <= i < |nodes| ==> nodes[i].parent != x.parent
    ensures OneQuestion(nodes + [x])
  {
    var ns := nodes + [x];
    forall i, j | 0 <= j < |ns| && IsQuestion(ns, i, ns[j].parent) && i != j
      ensures ns[j].role.Ai? && i < j
    {
      if i < |nodes| && j < |nodes| {
        assert IsQuestion(nodes, i, nodes[j].parent);
      }
    }
  }

  lemma StepAsked(nodes: seq<Node>, x: Node)
    requires Asked(nodes)
    requires x.role.Ai? ==> HasQuestion(nodes, x.parent)
    ensures Asked(nodes + [x])
  {
    var ns := nodes + [x];
    forall j | IsAnswer(ns, j) ensures HasQuestion(ns, ns[j].parent) {
      if j < |nodes| { assert IsAnswer(nodes, j); }
      assert HasQuestion(nodes, ns[j].parent);
      var i :| IsQuestion(nodes, i, ns[j].parent);
      assert IsQuestion(ns, i, ns[j].parent);
    }
  }

  lemma StepLinks(nodes: seq<Node>, x: Node)
    requires Links(nodes)
    requires x.role.Ai? ==> forall i :: IsAnswer(nodes, i) ==> nodes[i].checkpoint != x.checkpoint
    requires x.parent.Some? ==> exists a :: IsAnswer(nodes, a) && x.parent == Some(nodes[a].checkpoint)
    requires x.role.Human? ==> forall i :: 0 <= i < |nodes| ==> nodes[i].parent != x.parent
    requires x.role.Ai? ==> HasQuestion(nodes, x.parent)
    ensures Links(nodes + [x])
  {
    StepDistinct(nodes, x);
    StepRooted(nodes, x);
    StepOneQuestion(nodes, x);
    StepAsked(nodes, x);
  }

  /** A stored answer answers its own point and leaves the others answered. */
  lemma StepAnswered(nodes: seq<Node>, x: Node)
    requires x.role.Ai?
    requires forall i :: 0 <= i < |nodes| && nodes[i].parent != x.parent
               ==> HasAnswer(nodes, nodes[i].parent)
    ensures Answered(nodes + [x])
  {
    var ns := nodes + [x];
    assert IsAnswer(ns, |nodes|);
    forall i | 0 <= i < |ns| ensures HasAnswer(ns, ns[i].parent) {
      if ns[i].parent != x.parent {
        var j :| IsAnswer(nodes, j) && nodes[j].parent == ns[i].parent;
        assert IsAnswer(ns, j);
      }
    }
  }

  lemma AppendKeepsTree(nodes: seq<Node>, checkpoint: nat, b: seq<Turn>)
    requires Tree(nodes) && IsBranch(nodes, b) && Fresh(nodes, checkpoint)
    ensures Tree(Grown(nodes, checkpoint, Tip(nodes, b)))
    ensures Linear(nodes) ==> Linear(Grown(nodes, checkpoint, Tip(nodes, b)))
  {
    hide DistinctCheckpoints, Rooted, OneQuestion, Asked;
    var p := Tip(nodes, b);
    var human := Node(Human, checkpoint, p);
    var ai := Node(Ai, checkpoint, p);
    if b != [] { assert IsAnswer(nodes, Last(b).answer); }
    StepLinks(nodes, human);
    var mid := nodes + [human];
    assert forall i :: IsAnswer(mid, i) ==> IsAnswer(nodes, i) && mid[i] == nodes[i];
    assert IsQuestion(mid, |nodes|, p);
    if b != [] { assert IsAnswer(mid, Last(b).answer); }
    StepLinks(mid, ai);
    forall i | 0 <= i < |mid| && mid[i].parent != p ensures HasAnswer(mid, mid[i].parent) {
      assert HasAnswer(nodes, nodes[i].parent);
      var j :| IsAnswer(nodes, j) && nodes[j].parent == nodes[i].parent;
      assert IsAnswer(mid, j);
    }
    StepAnswered(mid, ai);
    assert mid + [ai] == Grown(nodes, checkpoint, p);
    if Linear(nodes) { GrownLinear(nodes, checkpoint, p); }
  }

  lemma GrownLinear(nodes: seq<Node>, checkpoint: nat, p: Option<nat>)
    requires Linear(nodes) && forall i :: 0 <= i < |nodes| ==> nodes[i].parent != p
    ensures Linear(Grown(nodes, checkpoint, p))
  {
    var ns := Grown(nodes, checkpoint, p);
    forall i, j | IsAnswer(ns, i) && IsAnswer(ns, j) && ns[i].parent == ns[j].parent
      ensures i == j
    {
      if i < |nodes| && j < |nodes| { assert IsAnswer(nodes, i) && IsAnswer(nodes, j); }
    }
  }

  lemma AppendExtends(nodes: seq<Node>, checkpoint: nat, b: seq<Turn>)
    requires IsBranch(nodes, b) && Fresh(nodes, checkpoint)
    ensures IsBranch(Grown(nodes, checkpoint, Tip(nodes, b)), b + [Turn(|nodes|, |nodes| + 1)])
    ensures Ids(b + [Turn(|nodes|, |nodes| + 1)]) == Ids(b) + {|nodes|, |nodes| + 1}
  {
    hide Childless, Fresh;
    var t := Turn(|nodes|, |nodes| + 1);
    var c := b + [t];
    assert Init(c) == b && Last(c) == t;
    var p := Tip(nodes, b);
    PathGrows(nodes, [Node(Human, checkpoint, p), Node(Ai, checkpoint, p)], b);
    TipIsOld(nodes, checkpoint, b);
    FreshTip(nodes, checkpoint, p);
  }

  lemma TipIsOld(nodes: seq<Node>, checkpoint: nat, b: seq<Turn>)
    requires IsPath(nodes, b) && Fresh(nodes, checkpoint)
    ensures Tip(nodes, b) != Some(checkpoint)
  {
  }

  lemma FreshTip(nodes: seq<Node>, checkpoint: nat, p: Option<nat>)
    requires Fresh(nodes, checkpoint) && p != Some(checkpoint)
    ensures Childless(Grown(nodes, checkpoint, p), Some(checkpoint))
  {
  }

  // --------------------------------------------------------- paths and their cuts

  /** Cutting a path at turn `k`: what lies below it is the path before it. */
  lemma {:induction false} Cut(nodes: seq<Node>, b: seq<Turn>, k: nat)
    requires IsPath(nodes, b) && k < |b|
    ensures IsPath(nodes, b[..k]) && IsTurn(nodes, Tip(nodes, b[..k]), b[k])
    ensures k > 0 ==> Last(b[..k]).answer < b[k].question
    ensures Ids(b[..k]) == set i | i in Ids(b) && i < b[k].question
    ensures b[k].question in Ids(b) && b[k].answer in Ids(b)
    ensures forall i :: i in Ids(b) && i < b[k].answer ==> i in Ids(b[..k]) || i == b[k].question
    decreases |b|
  {
    IdsBounded(nodes, Init(b));
    if k == |b| - 1 {
      assert b[..k] == Init(b);
    } else {
      Cut(nodes, Init(b), k);
      assert Init(b)[..k] == b[..k];
      TurnsAscend(nodes, b, k);
    }
  }

  lemma {:induction false} TurnsAscend(nodes: seq<Node>, b: seq<Turn>, k: nat)
    requires IsPath(nodes, b) && k < |b| - 1
    ensures b[k].answer < Last(b).question
    decreases |b|
  {
    if k < |b| - 2 {
      TurnsAscend(nodes, Init(b), k);
    }
  }

  /** Every message of a path belongs to one of its turns. */
  lemma {:induction false} TurnOf(b: seq<Turn>, i: nat) returns (k: nat)
    requires i in Ids(b)
    ensures k < |b| && (b[k].question == i || b[k].answer == i)
    decreases |b|
  {
    if i == Last(b).question || i == Last(b).answer {
      k := |b| - 1;
    } else {
      k := TurnOf(Init(b), i);
    }
  }

  lemma {:induction false} AnswerTurn(nodes: seq<Node>, b: seq<Turn>, t: nat) returns (k: nat)
    requires IsPath(nodes, b) && t in Ids(b) && IsAnswer(nodes, t)
    ensures k < |b| && b[k].answer == t
  {
    k := TurnOf(b, t);
    Cut(nodes, b, k);
  }

  lemma {:induction false} QuestionTurn(nodes: seq<Node>, b: seq<Turn>, q: nat) returns (k: nat)
    requires IsPath(nodes, b) && q in Ids(b) && q < |nodes| && nodes[q].role.Human?
    ensures k < |b| && b[k].question == q
  {
    k := TurnOf(b, q);
    Cut(nodes, b, k);
  }

  lemma {:induction false} RegenerateKeeps(
      nodes: seq<Node>, active: set<nat>, hasVariants: bool, b: seq<Turn>, t: nat, checkpoint: nat)
    returns (k: nat)
    requires Consistent(nodes, active, hasVariants, b) && Fresh(nodes, checkpoint)
    requires IsAnswer(nodes, t) && t in active
    ensures k < |b| && b[k].answer == t
    ensures var n := |nodes|;
            Consistent(nodes + [Node(Ai, checkpoint, nodes[t].parent)],
                       Superseded(active + {n}, t, n),
                       true, b[..k] + [b[k].(answer := n)])
  {
    hide Links, Answered, Linear, Childless, Fresh;
    var n := |nodes|;
    var x := Node(Ai, checkpoint, nodes[t].parent);
    var ns := nodes + [x];
    k := AnswerTurn(nodes, b, t);
    Cut(nodes, b, k);
    var c := b[..k] + [b[k].(answer := n)];
    assert Init(c) == b[..k] && Last(c) == b[k].(answer := n);
    RegenerateKeepsTree(nodes, t, checkpoint);
    PathGrows(nodes, [x], b[..k]);
    FreshLeaf(nodes, t, checkpoint);
    IdsBounded(nodes, b);
    assert Ids(c) == Ids(b[..k]) + {b[k].question, n};
  }

  lemma FreshLeaf(nodes: seq<Node>, t: nat, checkpoint: nat)
    requires Fresh(nodes, checkpoint) && IsAnswer(nodes, t)
    ensures Childless(nodes + [Node(Ai, checkpoint, nodes[t].parent)], Some(checkpoint))
  {
  }

  lemma UnansweredIsChildless(nodes: seq<Node>, p: Option<nat>)
    requires Answered(nodes) && Answers(nodes, p) == []
    ensures Childless(nodes, p)
  {
    forall i | 0 <= i < |nodes| ensures nodes[i].parent != p {
      PointIsAnswered(nodes, i);
    }
  }

  lemma PointIsAnswered(nodes: seq<Node>, i: nat)
    requires Answered(nodes) && i < |nodes|
    ensures Answers(nodes, nodes[i].parent) != []
  {
    assert HasAnswer(nodes, nodes[i].parent);
    var j :| IsAnswer(nodes, j) && nodes[j].parent == nodes[i].parent;
    assert j in Answers(nodes, nodes[i].parent);
  }

  lemma RegenerateKeepsTree(nodes: seq<Node>, t: nat, checkpoint: nat)
    requires Tree(nodes) && Fresh(nodes, checkpoint) && IsAnswer(nodes, t)
    ensures Tree(nodes + [Node(Ai, checkpoint, nodes[t].parent)])
  {
    hide DistinctCheckpoints, OneQuestion;
    assert HasQuestion(nodes, nodes[t].parent);
    if nodes[t].parent.Some? {
      assert HasEarlierAnswer(nodes, t);
      var a :| a < t && Follows(nodes, a, t);
    }
    StepLinks(nodes, Node(Ai, checkpoint, nodes[t].parent));
    forall i | 0 <= i < |nodes| ensures HasAnswer(nodes, nodes[i].parent) {}
    StepAnswered(nodes, Node(Ai, checkpoint, nodes[t].parent));
  }

  // ------------------------------------------------------------------ selection

  /** A group lists its one question first. */
  lemma {:induction false} GroupOf(nodes: seq<Node>, t: nat) returns (q: nat)
    requires Links(nodes) && IsAnswer(nodes, t)
    ensures IsTurn(nodes, nodes[t].parent, Turn(q, t))
    ensures Humans(nodes, nodes[t].parent) == [q]
    ensures Group(nodes, nodes[t].parent) != [] && Group(nodes, nodes[t].parent)[0] == q
  {
    var p := nodes[t].parent;
    assert HasQuestion(nodes, p);
    q :| IsQuestion(nodes, q, p);
    OnlyQuestion(nodes, p, q);
    FirstOfGroup(nodes, p, q);
    assert IsQuestion(nodes, q, nodes[t].parent);
  }

  lemma OnlyQuestion(nodes: seq<Node>, p: Option<nat>, q: nat)
    requires Links(nodes) && IsQuestion(nodes, q, p)
    ensures Humans(nodes, p) == [q]
  {
    hide Links;
    var hs := Humans(nodes, p);
    assert q in hs;
    assert |hs| == 1 || hs[0] < hs[|hs| - 1];
    forall k | 0 <= k < |hs| ensures hs[k] == q {
      assert hs[k] in hs;
      SameQuestion(nodes, hs[k], q);
    }
  }

  lemma FirstOfGroup(nodes: seq<Node>, p: Option<nat>, q: nat)
    requires Links(nodes) && IsQuestion(nodes, q, p)
    ensures Group(nodes, p) != [] && Group(nodes, p)[0] == q
  {
    var g := Group(nodes, p);
    assert q in g && g[0] in g;
    var k :| 0 <= k < |g| && g[k] == q;
    assert g[0] <= g[k];
    assert IsQuestion(nodes, q, nodes[g[0]].parent);
  }

  lemma QuestionLeads(nodes: seq<Node>, active: set<nat>, hasVariants: bool, b: seq<Turn>, t: nat)
    requires Consistent(nodes, active, hasVariants, b) && IsAnswer(nodes, t)
    ensures Links(nodes) && Group(nodes, nodes[t].parent) != []
  {
    var _ := GroupOf(nodes, t);
  }

  lemma SelectedIs(nodes: seq<Node>, active: set<nat>, t: nat)
    requires Links(nodes) && IsAnswer(nodes, t) && Group(nodes, nodes[t].parent) != []
    ensures Selected(nodes, active, t)
            == (set i | i in active && i < Group(nodes, nodes[t].parent)[0]) + Kept(nodes, active, t)
  {
  }

  /** Walking down from the end of a path completes it to a branch. */
  lemma {:induction false} WalkCompletes(nodes: seq<Node>, active: set<nat>, b: seq<Turn>)
    returns (c: seq<Turn>)
    requires Tree(nodes) && IsPath(nodes, b) && b != []
    ensures b <= c && IsBranch(nodes, c)
    ensures Ids(c) == Ids(b) + WalkDown(nodes, active, Last(b).answer)
    decreases |nodes| - Last(b).answer
  {
    hide Links, Answered, Childless;
    var a := Last(b).answer;
    var p := Some(nodes[a].checkpoint);
    if Answers(nodes, p) == [] {
      c := b;
      UnansweredIsChildless(nodes, p);
    } else {
      FollowersAreLater(nodes, a);
      var t := Chosen(active, Answers(nodes, p));
      var q := GroupOf(nodes, t);
      var d := b + [Turn(q, t)];
      assert Init(d) == b && Last(d) == Turn(q, t);
      FollowsLater(nodes, a, q);
      c := WalkCompletes(nodes, active, d);
    }
  }

  /** Selecting an answer whose question is active leaves one branch active. */
  lemma {:induction false} SelectKeeps(
      nodes: seq<Node>, active: set<nat>, hasVariants: bool, b: seq<Turn>, t: nat)
    returns (c: seq<Turn>)
    requires Consistent(nodes, active, hasVariants, b) && IsAnswer(nodes, t)
    requires Group(nodes, nodes[t].parent) != [] && Group(nodes, nodes[t].parent)[0] in active
    ensures Consistent(nodes, Selected(nodes, active, t), hasVariants, c)
  {
    hide Links, Answered, Childless, Linear, WalkDown, Humans, Group;
    var q := GroupOf(nodes, t);
    var k := QuestionTurn(nodes, b, q);
    Cut(nodes, b, k);
    var d := b[..k] + [Turn(q, t)];
    assert Init(d) == b[..k] && Last(d) == Turn(q, t);
    c := WalkCompletes(nodes, active, d);
  }

  /**
   Exactness: selecting an answer leaves the active messages one root-to-leaf path
   if and only if the answer's question was active.
   */
  lemma {:induction false} SelectKeepsExactly(
      nodes: seq<Node>, active: set<nat>, hasVariants: bool, b: seq<Turn>, t: nat)
    requires Consistent(nodes, active, hasVariants, b) && IsAnswer(nodes, t)
    ensures (exists c :: Consistent(nodes, Selected(nodes, active, t), hasVariants, c))
            <==> Group(nodes, nodes[t].parent)[0] in active
  {
    var q := GroupOf(nodes, t);
    if q in active {
      var c := SelectKeeps(nodes, active, hasVariants, b, t);
    }
    if c :| Consistent(nodes, Selected(nodes, active, t), hasVariants, c) {
      QuestionWasActive(nodes, active, b, t, q, c);
    }
  }

  /** The thread after two turns and a regeneration of the first answer. */
  lemma TwoTurnsRegenerated() returns (nodes: seq<Node>, b: seq<Turn>)
    ensures nodes == [Node(Human, 1, None), Node(Ai, 1, None), Node(Human, 2, Some(1)),
                      Node(Ai, 2, Some(1)), Node(Ai, 3, None)]
    ensures b == [Turn(0, 4)] && Consistent(nodes, {0, 4}, true, b)
  {
    hide Consistent;
    var turns;
    nodes, turns := TwoTurns();
    hide Ids;
    OffSecond(nodes);
    var k := RegenerateKeeps(nodes, {0, 1, 2, 3}, false, turns, 1, 3);
    assert k == 0 && turns[..0] + [turns[0].(answer := 4)] == [Turn(0, 4)];
    assert Superseded({0, 1, 2, 3} + {4}, 1, 4) == {0, 4};
    nodes, b := nodes + [Node(Ai, 3, None)], [Turn(0, 4)];
  }

  lemma OffSecond(nodes: seq<Node>)
    requires nodes == [Node(Human, 1, None), Node(Ai, 1, None), Node(Human, 2, Some(1)),
                       Node(Ai, 2, Some(1))]
    ensures Fresh(nodes, 3) && IsAnswer(nodes, 1)
  {
  }

  lemma TwoTurns() returns (nodes: seq<Node>, b: seq<Turn>)
    ensures nodes == [Node(Human, 1, None), Node(Ai, 1, None), Node(Human, 2, Some(1)),
                      Node(Ai, 2, Some(1))]
    ensures b == [Turn(0, 1), Turn(2, 3)] && Consistent(nodes, {0, 1, 2, 3}, false, b)
  {
    hide Consistent;
    Nothing();
    AppendKeeps([], {}, false, 1, []);
    nodes, b := [Node(Human, 1, None), Node(Ai, 1, None)], [Turn(0, 1)];
    assert Grown([], 1, None) == nodes && [] + b == b && {} + {0, 1} == {0, 1};
    AppendKeeps(nodes, {0, 1}, false, 2, b);
    assert {0, 1} + {2, 3} == {0, 1, 2, 3} && b + [Turn(2, 3)] == [Turn(0, 1), Turn(2, 3)];
    nodes, b := Grown(nodes, 2, Some(1)), [Turn(0, 1), Turn(2, 3)];
  }

  lemma Nothing()
    ensures Consistent([], {}, false, [])
  {
  }

  /**
   Selecting an answer whose question is not active: the second turn stays hidden
   under the first answer, so no path is what becomes active.
   */
  lemma SelectedOffBranch() returns (nodes: seq<Node>)
    ensures |nodes| == 5 && Consistent(nodes, {0, 4}, true, [Turn(0, 4)]) && IsAnswer(nodes, 3)
    ensures forall c :: !Consistent(nodes, Selected(nodes, {0, 4}, 3), true, c)
  {
    hide Consistent, Selected, Group;
    var b;
    nodes, b := TwoTurnsRegenerated();
    SelectKeepsExactly(nodes, {0, 4}, true, b, 3);
    SecondQuestion(nodes);
  }

  lemma SecondQuestion(nodes: seq<Node>)
    requires nodes == [Node(Human, 1, None), Node(Ai, 1, None), Node(Human, 2, Some(1)),
                       Node(Ai, 2, Some(1)), Node(Ai, 3, None)]
    ensures Group(nodes, Some(1)) != [] && Group(nodes, Some(1))[0] !in {0, 4}
  {
    var group := Group(nodes, Some(1));
    assert 2 in group;
    assert group[0] in group;
  }

  lemma {:induction false} QuestionWasActive(
      nodes: seq<Node>, active: set<nat>, b: seq<Turn>, t: nat, q: nat, c: seq<Turn>)
    requires Tree(nodes) && IsBranch(nodes, b) && active == Ids(b) && IsAnswer(nodes, t)
    requires IsTurn(nodes, nodes[t].parent, Turn(q, t)) && Humans(nodes, nodes[t].parent) == [q]
    requires Group(nodes, nodes[t].parent)[0] == q
    requires IsPath(nodes, c) && Ids(c) == Selected(nodes, active, t)
    ensures q in active
  {
    hide Links, Answered, Childless, WalkDown, Humans, Group, IsPath, Ids;
    assert q in Kept(nodes, active, t);
    var k := QuestionTurn(nodes, c, q);
    Cut(nodes, c, k);
    if k == 0 {
      FirstQuestion(nodes, b, q);
    } else {
      var a := Last(c[..k]).answer;
      Cut(nodes, c, k - 1);
      assert a == c[k - 1].answer && a in Ids(c) && a < q;
      WalkIsLater(nodes, active, t);
      assert a in active;
      ContinuesThrough(nodes, b, a, q);
    }
  }

  lemma {:induction false} WalkIsLater(nodes: seq<Node>, active: set<nat>, t: nat)
    requires Links(nodes) && IsAnswer(nodes, t)
    ensures forall i :: i in WalkDown(nodes, active, t) ==> t < i
    decreases |nodes| - t
  {
    var p := Some(nodes[t].checkpoint);
    if Answers(nodes, p) != [] {
      FollowersAreLater(nodes, t);
      var c := Chosen(active, Answers(nodes, p));
      WalkIsLater(nodes, active, c);
      forall h | h in Humans(nodes, p) ensures t < h { FollowsLater(nodes, t, h); }
    }
  }

  lemma {:induction false} FirstQuestion(nodes: seq<Node>, b: seq<Turn>, q: nat)
    requires Tree(nodes) && IsBranch(nodes, b) && IsQuestion(nodes, q, None)
    ensures q in Ids(b)
  {
    assert b != [];
    Cut(nodes, b, 0);
    assert IsQuestion(nodes, q, nodes[b[0].question].parent);
  }

  /** An active answer that was followed up is followed on the branch by that question. */
  lemma {:induction false} ContinuesThrough(nodes: seq<Node>, b: seq<Turn>, a: nat, q: nat)
    requires Tree(nodes) && IsBranch(nodes, b) && a in Ids(b) && IsAnswer(nodes, a)
    requires IsQuestion(nodes, q, Some(nodes[a].checkpoint))
    ensures q in Ids(b)
  {
    hide Links, Answered, IsPath, Ids;
    var j := AnswerTurn(nodes, b, a);
    NotTheLeaf(nodes, b, a, q);
    Cut(nodes, b, j + 1);
    assert Last(b[..j + 1]) == b[j];
    SameQuestion(nodes, q, b[j + 1].question);
  }

  lemma NotTheLeaf(nodes: seq<Node>, b: seq<Turn>, a: nat, q: nat)
    requires IsBranch(nodes, b) && b != [] && IsAnswer(nodes, a)
    requires IsQuestion(nodes, q, Some(nodes[a].checkpoint))
    ensures Last(b).answer != a
  {
  }

  lemma SameQuestion(nodes: seq<Node>, i: nat, j: nat)
    requires Links(nodes) && i < |nodes| && j < |nodes|
    requires nodes[i].role.Human? && nodes[j].role.Human? && nodes[i].parent == nodes[j].parent
    ensures i == j
  {
    assert IsQuestion(nodes, i, nodes[j].parent);
  }
}
