/**
 Coming back to an answer: when selecting it again restores the conversation that
 grew out of it, exactly.
 */
module ChatRoundTrip {
  import opened Wrappers
  import opened ChatTree

  /** `a` is the newest answer to its question. */
  ghost predicate Newest(nodes: seq<Node>, a: nat)
    requires a < |nodes|
  {
    forall i :: IsAnswer(nodes, i) && nodes[i].parent == nodes[a].parent ==> i <= a
  }

  /** The part of a path that lies beyond message `i`. */
  function Beyond(b: seq<Turn>, i: nat): set<nat> {
    set j | j in Ids(b) && i < j
  }

  lemma {:induction false} BeyondTurn(nodes: seq<Node>, b: seq<Turn>, k: nat)
    requires IsPath(nodes, b) && k < |b|
    ensures Ids(b) == Ids(b[..k]) + {b[k].question, b[k].answer} + Beyond(b, b[k].answer)
    ensures k + 1 < |b| ==>
              Beyond(b, b[k].answer)
              == {b[k + 1].question, b[k + 1].answer} + Beyond(b, b[k + 1].answer)
    ensures k + 1 == |b| ==> Beyond(b, b[k].answer) == {}
  {
    hide IsPath, IsTurn;
    Cut(nodes, b, k);
    IdsBounded(nodes, b);
    if k + 1 < |b| {
      Cut(nodes, b, k + 1);
      assert Last(b[..k + 1]) == b[k] && Init(b[..k + 1]) == b[..k];
    }
  }

  /** The branching point of turn `k`: the root, or the answer of the turn before it. */
  lemma TurnParent(nodes: seq<Node>, b: seq<Turn>, k: nat)
    requires IsPath(nodes, b) && k < |b|
    ensures IsAnswer(nodes, b[k].answer)
    ensures k == 0 ==> nodes[b[k].answer].parent == None
    ensures k > 0 ==>
              && IsAnswer(nodes, b[k - 1].answer)
              && nodes[b[k].answer].parent == Some(nodes[b[k - 1].answer].checkpoint)
  {
    hide IsPath;
    Cut(nodes, b, k);
    if k > 0 {
      Cut(nodes, b, k - 1);
      assert Last(b[..k]) == b[k - 1];
    }
  }

  /** On a path, the only answer asked at turn `k`'s branching point is turn `k`'s. */
  lemma {:induction false} OneAnswerPerTurn(nodes: seq<Node>, b: seq<Turn>, k: nat, a: nat)
    requires DistinctCheckpoints(nodes) && IsPath(nodes, b) && k < |b|
    requires b[k].answer < |nodes|
    requires a in Ids(b) && IsAnswer(nodes, a) && nodes[a].parent == nodes[b[k].answer].parent
    ensures a == b[k].answer
  {
    hide IsPath, Ids;
    var j := AnswerTurn(nodes, b, a);
    TurnParent(nodes, b, j);
    TurnParent(nodes, b, k);
    if j > 0 && k > 0 {
      SameTurn(nodes, b, j - 1, k - 1);
    }
  }

  lemma {:induction false} SameTurn(nodes: seq<Node>, b: seq<Turn>, j: nat, k: nat)
    requires IsPath(nodes, b) && j < |b| && k < |b| && b[j].answer == b[k].answer
    ensures j == k
  {
    if j < k {
      assert b[..k + 1][j] == b[j] && Last(b[..k + 1]) == b[k];
      PrefixPath(nodes, b, k + 1);
      TurnsAscend(nodes, b[..k + 1], j);
    } else if k < j {
      assert b[..j + 1][k] == b[k] && Last(b[..j + 1]) == b[j];
      PrefixPath(nodes, b, j + 1);
      TurnsAscend(nodes, b[..j + 1], k);
    }
  }

  lemma {:induction false} PrefixPath(nodes: seq<Node>, b: seq<Turn>, n: nat)
    requires IsPath(nodes, b) && n <= |b|
    ensures IsPath(nodes, b[..n])
    decreases |b|
  {
    if n == |b| {
      assert b[..n] == b;
    } else {
      PrefixPath(nodes, Init(b), n);
      assert Init(b)[..n] == b[..n];
    }
  }

  /** The turn after turn `k` is a question and an answer asked at answer `k`. */
  lemma {:induction false} NextTurn(nodes: seq<Node>, b: seq<Turn>, k: nat)
    requires Links(nodes) && IsPath(nodes, b) && k + 1 < |b|
    ensures IsAnswer(nodes, b[k].answer) && IsAnswer(nodes, b[k + 1].answer)
    ensures var p := Some(nodes[b[k].answer].checkpoint);
            && nodes[b[k + 1].answer].parent == p
            && b[k + 1].answer in Answers(nodes, p)
            && Humans(nodes, p) == [b[k + 1].question]
  {
    hide Links, IsPath;
    Cut(nodes, b, k);
    Cut(nodes, b, k + 1);
    assert Last(b[..k + 1]) == b[k];
    var q := GroupOf(nodes, b[k + 1].answer);
    assert b[k + 1].question in Humans(nodes, Some(nodes[b[k].answer].checkpoint));
  }

  // ------------------------------------------------- selecting an active answer

  lemma {:induction false} WalkFollowsBranch(nodes: seq<Node>, b: seq<Turn>, k: nat)
    requires Tree(nodes) && IsBranch(nodes, b) && k < |b| && IsAnswer(nodes, b[k].answer)
    ensures WalkDown(nodes, Ids(b), b[k].answer) == Beyond(b, b[k].answer)
    decreases |b| - k
  {
    hide Links, Answered, IsPath, Childless;
    var p := Some(nodes[b[k].answer].checkpoint);
    BeyondTurn(nodes, b, k);
    if k + 1 == |b| {
      LeafHasNoAnswers(nodes, b);
    } else {
      NextTurn(nodes, b, k);
      BranchChoice(nodes, b, k);
      WalkFollowsBranch(nodes, b, k + 1);
    }
  }

  lemma LeafHasNoAnswers(nodes: seq<Node>, b: seq<Turn>)
    requires IsBranch(nodes, b)
    ensures Answers(nodes, Tip(nodes, b)) == []
  {
    FirstIn(Answers(nodes, Tip(nodes, b)));
  }

  lemma FirstIn(ids: seq<nat>)
    ensures ids != [] ==> ids[0] in ids
  {
  }

  lemma {:induction false} BranchChoice(nodes: seq<Node>, b: seq<Turn>, k: nat)
    requires Links(nodes) && IsPath(nodes, b) && k + 1 < |b| && IsAnswer(nodes, b[k].answer)
    requires b[k + 1].answer in Answers(nodes, Some(nodes[b[k].answer].checkpoint))
    requires IsAnswer(nodes, b[k + 1].answer)
    ensures Chosen(Ids(b), Answers(nodes, Some(nodes[b[k].answer].checkpoint))) == b[k + 1].answer
  {
    var answers := Answers(nodes, Some(nodes[b[k].answer].checkpoint));
    Cut(nodes, b, k + 1);
    var j := LastActive(Ids(b), answers, |answers|);
    assert j.Some?;
    assert answers[j.value] in answers;
    OneAnswerPerTurn(nodes, b, k + 1, answers[j.value]);
  }

  /** Selecting an answer that is already active changes no flag. */
  lemma {:induction false} ReselectChangesNothing(nodes: seq<Node>, b: seq<Turn>, t: nat)
    requires Tree(nodes) && IsBranch(nodes, b) && IsAnswer(nodes, t) && t in Ids(b)
    ensures Selected(nodes, Ids(b), t) == Ids(b)
  {
    hide Tree, Links, IsPath, Childless, Selected, WalkDown, Beyond, Ids;
    TreeIsDistinct(nodes);
    var k := AnswerTurn(nodes, b, t);
    Cut(nodes, b, k);
    BeyondTurn(nodes, b, k);
    SelectedThrough(nodes, b, k, b);
    WalkFollowsBranch(nodes, b, k);
  }

  // --------------------------------------------- selecting an answer left behind

  /** An answer on a path comes with the answer it follows. */
  lemma {:induction false} AskedOnPath(nodes: seq<Node>, c: seq<Turn>, a: nat, i: nat)
    requires DistinctCheckpoints(nodes) && IsPath(nodes, c)
    requires Follows(nodes, a, i) && IsAnswer(nodes, i) && i in Ids(c)
    ensures a in Ids(c)
  {
    hide IsPath, Ids;
    var m := AnswerTurn(nodes, c, i);
    TurnParent(nodes, c, m);
    Cut(nodes, c, m - 1);
  }

  /** Below an answer that is not on the branch, nothing is. */
  lemma {:induction false} NothingActiveBelow(nodes: seq<Node>, c: seq<Turn>, a: nat)
    requires DistinctCheckpoints(nodes) && IsPath(nodes, c) && IsAnswer(nodes, a) && a !in Ids(c)
    ensures forall i :: i in Answers(nodes, Some(nodes[a].checkpoint)) ==> i !in Ids(c)
  {
    hide IsPath, Ids;
    forall i | i in Answers(nodes, Some(nodes[a].checkpoint)) ensures i !in Ids(c) {
      if i in Ids(c) { AskedOnPath(nodes, c, a, i); }
    }
  }

  /** With nothing active below, the walk picks the newest answer at every step. */
  lemma {:induction false} WalkRestores(nodes: seq<Node>, b: seq<Turn>, k: nat, c: seq<Turn>)
    requires Tree(nodes) && IsPath(nodes, b) && IsPath(nodes, c) && k < |b|
    requires IsAnswer(nodes, b[k].answer) && b[k].answer !in Ids(c)
    requires forall j :: k < j < |b| ==> b[j].answer < |nodes|
    ensures WalkDown(nodes, Ids(c), b[k].answer) == Beyond(b, b[k].answer)
            <==> && (forall j :: k < j < |b| ==> Newest(nodes, b[j].answer))
                 && Childless(nodes, Tip(nodes, b))
    decreases |b| - k
  {
    hide Tree, Links, Answered, IsPath, Childless, Newest, WalkDown, Ids, Chosen;
    var a := b[k].answer;
    BeyondTurn(nodes, b, k);
    TreeIsDistinct(nodes);
    NothingActiveBelow(nodes, c, a);
    if k + 1 == |b| {
      WalkEndsAtLeaf(nodes, Ids(c), a);
    } else {
      var next := b[k + 1];
      NextTurn(nodes, b, k);
      NewestIsLast(nodes, Ids(c), next.answer);
      WalkTurn(nodes, Ids(c), a, next.question);
      var chosen := Chosen(Ids(c), Answers(nodes, Some(nodes[a].checkpoint)));
      if chosen == next.answer {
        WalkRestores(nodes, b, k + 1, c);
        WalkIsLater(nodes, Ids(c), chosen);
        QuestionBelow(nodes, b, k + 1);
        SameBeyond(next.question, chosen, WalkDown(nodes, Ids(c), chosen), Beyond(b, chosen));
      } else {
        WalkLeaves(nodes, b, k, chosen);
      }
    }
  }

  /** One step of the walk, past a question and the answer chosen for it. */
  lemma WalkTurn(nodes: seq<Node>, active: set<nat>, a: nat, q: nat)
    requires Links(nodes) && IsAnswer(nodes, a)
    requires Humans(nodes, Some(nodes[a].checkpoint)) == [q]
    requires Answers(nodes, Some(nodes[a].checkpoint)) != []
    ensures var c := Chosen(active, Answers(nodes, Some(nodes[a].checkpoint)));
            && IsAnswer(nodes, c) && nodes[c].parent == Some(nodes[a].checkpoint)
            && WalkDown(nodes, active, a) == {q, c} + WalkDown(nodes, active, c)
  {
    hide Links;
    FollowersAreLater(nodes, a);
  }

  lemma SameBeyond(q: nat, a: nat, walk: set<nat>, rest: set<nat>)
    requires q < a && forall i :: i in walk || i in rest ==> a < i
    ensures {q, a} + walk == {q, a} + rest <==> walk == rest
  {
    if {q, a} + walk == {q, a} + rest {
      assert forall i :: i in walk ==> i in {q, a} + rest;
      assert forall i :: i in rest ==> i in {q, a} + walk;
    }
  }

  /** A walk that leaves the path does not visit what lies beyond on the path. */
  lemma {:induction false} WalkLeaves(nodes: seq<Node>, b: seq<Turn>, k: nat, i: nat)
    requires DistinctCheckpoints(nodes) && IsPath(nodes, b) && k + 1 < |b|
    requires b[k + 1].answer < |nodes| && IsAnswer(nodes, i)
    requires nodes[i].parent == nodes[b[k + 1].answer].parent && i != b[k + 1].answer
    ensures i !in Beyond(b, b[k].answer)
  {
    hide IsPath, Ids;
    if i in Ids(b) { OneAnswerPerTurn(nodes, b, k + 1, i); }
  }

  lemma TreeIsDistinct(nodes: seq<Node>)
    requires Tree(nodes)
    ensures Links(nodes) && DistinctCheckpoints(nodes)
  {
  }

  lemma QuestionBelow(nodes: seq<Node>, b: seq<Turn>, k: nat)
    requires IsPath(nodes, b) && k < |b|
    ensures b[k].question < b[k].answer
  {
    Cut(nodes, b, k);
  }

  lemma WalkEndsAtLeaf(nodes: seq<Node>, active: set<nat>, a: nat)
    requires Tree(nodes) && IsAnswer(nodes, a)
    ensures WalkDown(nodes, active, a) == {} <==> Childless(nodes, Some(nodes[a].checkpoint))
  {
    hide Links;
    var p := Some(nodes[a].checkpoint);
    if Answers(nodes, p) == [] {
      UnansweredIsChildless(nodes, p);
    } else {
      var i := Answers(nodes, p)[0];
      assert i in Answers(nodes, p);
      assert Chosen(active, Answers(nodes, p)) in WalkDown(nodes, active, a);
    }
  }

  /** Among inactive answers the last is chosen, and the last is the newest. */
  lemma NewestIsLast(nodes: seq<Node>, active: set<nat>, a: nat)
    requires IsAnswer(nodes, a) && a in Answers(nodes, nodes[a].parent)
    requires forall i :: i in Answers(nodes, nodes[a].parent) ==> i !in active
    ensures Chosen(active, Answers(nodes, nodes[a].parent)) == a <==> Newest(nodes, a)
  {
    var answers := Answers(nodes, nodes[a].parent);
    var last := answers[|answers| - 1];
    assert forall k :: 0 <= k < |answers| ==> answers[k] in answers;
    forall i | i in answers ensures i <= last {
      var k :| 0 <= k < |answers| && answers[k] == i;
    }
    forall i | IsAnswer(nodes, i) && nodes[i].parent == nodes[a].parent ensures i <= last {
      assert i in answers;
    }
  }

  /** Two paths through one question agree up to it. */
  lemma {:induction false} SamePrefix(nodes: seq<Node>, b: seq<Turn>, k: nat, c: seq<Turn>, m: nat)
    requires Links(nodes) && IsPath(nodes, b) && IsPath(nodes, c) && k < |b| && m < |c|
    requires b[k].question == c[m].question
    ensures b[..k] == c[..m]
    decreases k + m
  {
    hide Links, IsPath, Ids;
    Cut(nodes, b, k);
    Cut(nodes, c, m);
    if k > 0 && m > 0 {
      assert Last(b[..k]) == b[k - 1] && Last(c[..m]) == c[m - 1];
      Cut(nodes, b, k - 1);
      Cut(nodes, c, m - 1);
      SameAnswer(nodes, b[k - 1].answer, c[m - 1].answer);
      SameQuestion(nodes, b[k - 1].question, c[m - 1].question);
      SamePrefix(nodes, b, k - 1, c, m - 1);
      assert b[..k] == b[..k - 1] + [b[k - 1]] && c[..m] == c[..m - 1] + [c[m - 1]];
    }
  }

  lemma SameAnswer(nodes: seq<Node>, i: nat, j: nat)
    requires Links(nodes) && IsAnswer(nodes, i) && IsAnswer(nodes, j)
    requires nodes[i].checkpoint == nodes[j].checkpoint
    ensures i == j
  {
  }

  /**
   The round trip. A conversation `b` was left at its turn `k`; the thread has since
   grown to `nodes` with `c` active, which still asks turn `k`'s question but not
   its answer. Selecting that answer restores exactly `b` if and only if every
   follow-up of `b` is still the newest answer to its question and nothing was
   added after `b`'s last answer.
   */
  lemma {:induction false} RestoresExactly(nodes: seq<Node>, b: seq<Turn>, k: nat, c: seq<Turn>)
    requires Tree(nodes) && IsPath(nodes, b) && IsBranch(nodes, c) && k < |b|
    requires b[k].question in Ids(c) && b[k].answer !in Ids(c)
    requires IsAnswer(nodes, b[k].answer) && forall j :: k < j < |b| ==> b[j].answer < |nodes|
    ensures Selected(nodes, Ids(c), b[k].answer) == Ids(b)
            <==> && (forall j :: k < j < |b| ==> Newest(nodes, b[j].answer))
                 && Childless(nodes, Tip(nodes, b))
  {
    hide Tree, Links, Answered, IsPath, Childless, Newest, Selected, WalkDown, Beyond, Ids;
    TreeIsDistinct(nodes);
    WalkRestores(nodes, b, k, c);
    WalkIsLater(nodes, Ids(c), b[k].answer);
    SelectedThrough(nodes, b, k, c);
    SplitAt(nodes, b, k, WalkDown(nodes, Ids(c), b[k].answer));
  }

  /** Selecting turn `k`'s answer from a path through its question. */
  lemma {:induction false} SelectedThrough(nodes: seq<Node>, b: seq<Turn>, k: nat, c: seq<Turn>)
    requires Links(nodes) && IsPath(nodes, b) && IsPath(nodes, c) && k < |b|
    requires IsAnswer(nodes, b[k].answer) && b[k].question in Ids(c)
    ensures Group(nodes, nodes[b[k].answer].parent) != []
    ensures Selected(nodes, Ids(c), b[k].answer)
            == Ids(b[..k]) + {b[k].question, b[k].answer} + WalkDown(nodes, Ids(c), b[k].answer)
  {
    hide Links, IsPath, Ids, WalkDown, Humans, Group;
    var t := b[k].answer;
    Cut(nodes, b, k);
    var q := GroupOf(nodes, t);
    assert b[k].question in Humans(nodes, nodes[t].parent) by { IsHuman(nodes, b[k].question); }
    var m := QuestionTurn(nodes, c, q);
    Cut(nodes, c, m);
    SamePrefix(nodes, b, k, c, m);
  }

  lemma IsHuman(nodes: seq<Node>, q: nat)
    requires q < |nodes| && nodes[q].role.Human?
    ensures q in Humans(nodes, nodes[q].parent)
  {
  }

  /** Two sets beyond message `t` complete the same path to the same set only if equal. */
  lemma SplitAt(nodes: seq<Node>, b: seq<Turn>, k: nat, walk: set<nat>)
    requires IsPath(nodes, b) && k < |b| && forall i :: i in walk ==> b[k].answer < i
    ensures Ids(b[..k]) + {b[k].question, b[k].answer} + walk == Ids(b)
            <==> walk == Beyond(b, b[k].answer)
  {
    hide IsPath;
    Cut(nodes, b, k);
    BeyondTurn(nodes, b, k);
    var low := Ids(b[..k]) + {b[k].question, b[k].answer};
    if low + walk == Ids(b) {
      assert forall i :: i in Beyond(b, b[k].answer) ==> i in low + walk;
      assert forall i :: i in walk ==> i in Ids(b);
    }
  }

  /** Regenerating an answer and selecting it again, when nothing else happened. */
  lemma {:induction false} RegenerateRoundTrip(nodes: seq<Node>, b: seq<Turn>, k: nat, checkpoint: nat)
    requires Tree(nodes) && IsBranch(nodes, b) && k < |b| && Fresh(nodes, checkpoint)
    requires IsAnswer(nodes, b[k].answer) && forall j :: k < j < |b| ==> b[j].answer < |nodes|
    ensures var t := b[k].answer;
            var ns := nodes + [Node(Ai, checkpoint, nodes[t].parent)];
            && Tree(ns)
            && (Selected(ns, Superseded(Ids(b) + {|nodes|}, t, |nodes|), t) == Ids(b)
                <==> forall j :: k < j < |b| ==> Newest(nodes, b[j].answer))
  {
    hide Links, Answered, IsPath, Childless, Newest, Fresh, Linear;
    var t := b[k].answer;
    var x := Node(Ai, checkpoint, nodes[t].parent);
    var ns := nodes + [x];
    Cut(nodes, b, k);
    var k' := RegenerateKeeps(nodes, Ids(b), true, b, t, checkpoint);
    SameTurn(nodes, b, k, k');
    var c := b[..k] + [b[k].(answer := |nodes|)];
    assert Init(c) == b[..k] && Last(c) == b[k].(answer := |nodes|);
    PathGrows(nodes, [x], b);
    assert t !in Ids(c);
    RestoresExactly(ns, b, k, c);
    forall j | k < j < |b| ensures Newest(ns, b[j].answer) <==> Newest(nodes, b[j].answer) {
      SameTurnParents(nodes, b, k, j);
      NewestGrows(nodes, x, b[j].answer);
    }
    LeafStays(nodes, x, b, k);
  }

  lemma {:induction false} SameTurnParents(nodes: seq<Node>, b: seq<Turn>, k: nat, j: nat)
    requires Tree(nodes) && IsPath(nodes, b) && k < j < |b|
    ensures b[k].answer < |nodes| && b[j].answer < |nodes|
    ensures nodes[b[k].answer].parent != nodes[b[j].answer].parent
  {
    hide Links, Answered, IsPath;
    Cut(nodes, b, k);
    Cut(nodes, b, j);
    if nodes[b[k].answer].parent == nodes[b[j].answer].parent {
      TreeIsDistinct(nodes);
      OneAnswerPerTurn(nodes, b, j, b[k].answer);
      SameTurn(nodes, b, k, j);
    }
  }

  lemma NewestGrows(nodes: seq<Node>, x: Node, a: nat)
    requires a < |nodes| && x.parent != nodes[a].parent
    ensures Newest(nodes + [x], a) <==> Newest(nodes, a)
  {
    var ns := nodes + [x];
    if Newest(ns, a) {
      forall i | IsAnswer(nodes, i) && nodes[i].parent == nodes[a].parent ensures i <= a {
        assert IsAnswer(ns, i);
      }
    }
    if Newest(nodes, a) {
      forall i | IsAnswer(ns, i) && ns[i].parent == ns[a].parent ensures i <= a {
        assert IsAnswer(nodes, i);
      }
    }
  }

  lemma LeafStays(nodes: seq<Node>, x: Node, b: seq<Turn>, k: nat)
    requires IsBranch(nodes, b) && k < |b| && Last(b).answer < |nodes|
    requires b[k].answer < |nodes| && x.parent == nodes[b[k].answer].parent
    ensures Childless(nodes + [x], Tip(nodes + [x], b))
  {
  }

  // ------------------------------------------------------------- counterexample

  /** Two turns, the second answered twice, with the older answer on the branch. */
  lemma AnsweredTwice() returns (nodes: seq<Node>, b: seq<Turn>)
    ensures nodes == [Node(Human, 1, None), Node(Ai, 1, None), Node(Human, 2, Some(1)),
                      Node(Ai, 2, Some(1)), Node(Ai, 3, Some(1))]
    ensures b == [Turn(0, 1), Turn(2, 3)] && Tree(nodes) && IsBranch(nodes, b)
  {
    hide Consistent, IsPath, Tree, Fresh, Ids;
    nodes, b := TwoTurns();
    TwoTurnsLeave(nodes, b);
    var k := RegenerateKeeps(nodes, {0, 1, 2, 3}, false, b, 3, 3);
    Parts(nodes, {0, 1, 2, 3}, false, b);
    var more := [Node(Ai, 3, Some(1))];
    PathGrows(nodes, more, b);
    nodes := nodes + more;
    Parts(nodes, Superseded({0, 1, 2, 3} + {4}, 3, 4), true, b[..k] + [b[k].(answer := 4)]);
  }

  lemma TwoTurnsLeave(nodes: seq<Node>, b: seq<Turn>)
    requires nodes == [Node(Human, 1, None), Node(Ai, 1, None), Node(Human, 2, Some(1)),
                       Node(Ai, 2, Some(1))]
    ensures Fresh(nodes, 3) && IsAnswer(nodes, 3)
  {
  }

  /**
   The round trip fails below an answer that is not the newest: after regenerating the
   first answer and selecting it again, the walk takes the other second answer.
   */
  lemma ComesBackElsewhere() returns (nodes: seq<Node>, b: seq<Turn>)
    ensures b == [Turn(0, 1), Turn(2, 3)] && Tree(nodes) && IsBranch(nodes, b)
    ensures Fresh(nodes, 4) && IsAnswer(nodes, 1)
    ensures var ns := nodes + [Node(Ai, 4, nodes[1].parent)];
            Tree(ns) && Selected(ns, Superseded(Ids(b) + {|nodes|}, 1, |nodes|), 1) != Ids(b)
  {
    hide Tree, IsBranch, Selected, Ids;
    nodes, b := AnsweredTwice();
    FourIsNew(nodes);
    RegenerateRoundTrip(nodes, b, 0, 4);
    assert b[0].answer == 1 && b[1].answer == 3;
  }

  lemma FourIsNew(nodes: seq<Node>)
    requires nodes == [Node(Human, 1, None), Node(Ai, 1, None), Node(Human, 2, Some(1)),
                       Node(Ai, 2, Some(1)), Node(Ai, 3, Some(1))]
    ensures Fresh(nodes, 4) && IsAnswer(nodes, 1) && IsAnswer(nodes, 3) && !Newest(nodes, 3)
  {
    assert IsAnswer(nodes, 4) && nodes[4].parent == nodes[3].parent;
  }
}
