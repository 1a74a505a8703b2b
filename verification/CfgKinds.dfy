/**
 Which nodes are branches: an execution visits one exactly each time it makes a choice.
 */
module CfgKinds {
  import opened Wrappers
  import opened Cfg
  import opened CfgSimulation

  /** How many choices an execution makes: tests of conditions, and cases picked. */
  function Choices(s: Stmt, r: Run): nat
    requires Fits(s, r)
    decreases r, s
  {
    match s
    case Simple => 0
    case Return => 0
    case If(thn, els) =>
      if r.Skip? then 1
      else if r.thn then 1 + Choices(thn, r.sub)
      else 1 + Choices(els.value, r.sub)
    case While(body) => ChoicesLoop(body, r)
    case For(body) => ChoicesLoop(body, r)
    case Switch(cases) => if r.Skip? then 1 else 1 + ChoicesSeq(cases[r.i].body, r.sub)
    case Block(stmts) => ChoicesSeq(stmts, r)
  }

  function ChoicesLoop(body: Stmt, r: Run): nat
    requires FitsLoop(body, r)
    decreases r, body
  {
    if r.Done? then 1
    else if Returns(r.first) then 1 + Choices(body, r.first)
    else 1 + Choices(body, r.first) + ChoicesLoop(body, r.rest)
  }

  function ChoicesSeq(ss: seq<Stmt>, r: Run): nat
    requires FitsSeq(ss, r)
    decreases r, ss
  {
    if ss == [] then 0
    else if Returns(r.first) then Choices(ss[0], r.first)
    else Choices(ss[0], r.first) + ChoicesSeq(ss[1..], r.rest)
  }

  function BranchesOn(kinds: seq<Kind>, tr: seq<nat>): nat {
    if tr == [] then 0
    else
      var x := tr[|tr| - 1];
      BranchesOn(kinds, tr[..|tr| - 1]) + (if x < |kinds| && kinds[x] == Branch then 1 else 0)
  }

  lemma {:induction false} BranchesConcat(kinds: seq<Kind>, a: seq<nat>, b: seq<nat>)
    ensures BranchesOn(kinds, a + b) == BranchesOn(kinds, a) + BranchesOn(kinds, b)
    decreases |b|
  {
    if b == [] {
      assert a + b == a;
    } else {
      assert (a + b)[..|a + b| - 1] == a + b[..|b| - 1];
      BranchesConcat(kinds, a, b[..|b| - 1]);
    }
  }

  lemma BranchesOne(kinds: seq<Kind>, x: nat)
    requires x < |kinds|
    ensures BranchesOn(kinds, [x]) == if kinds[x] == Branch then 1 else 0
  {
    assert [x][..0] == [];
  }

  /** The nodes from `n` on are laid out so. */
  predicate Placed(kinds: seq<Kind>, n: nat, layout: seq<Kind>) {
    n + |layout| <= |kinds| && kinds[n..n + |layout|] == layout
  }

  lemma PlacedParts(kinds: seq<Kind>, n: nat, a: seq<Kind>, b: seq<Kind>)
    requires Placed(kinds, n, a + b)
    ensures Placed(kinds, n, a) && Placed(kinds, n + |a|, b)
  {
    var all := kinds[n..n + |a + b|];
    assert all[..|a|] == a && all[|a|..] == b;
  }

  lemma PlacedHead(kinds: seq<Kind>, n: nat, k: Kind, rest: seq<Kind>)
    requires Placed(kinds, n, [k] + rest)
    ensures n < |kinds| && kinds[n] == k && Placed(kinds, n + 1, rest)
  {
    PlacedParts(kinds, n, [k], rest);
    assert kinds[n..n + 1][0] == k;
  }

  /** A statement's execution visits as many branch nodes as it makes choices. */
  lemma {:induction false} BranchPerChoice(s: Stmt, n: nat, r: Run, kinds: seq<Kind>)
    requires Fits(s, r) && Placed(kinds, n, Layout(s))
    ensures BranchesOn(kinds, Trace(s, n, r)) == Choices(s, r)
    decreases r, s, 1
  {
    match s
    case Simple =>
      PlacedHead(kinds, n, Statement, []);
      BranchesOne(kinds, n);
    case Return =>
      PlacedHead(kinds, n, Statement, []);
      BranchesOne(kinds, n);
    case If(_, _) => IfBranches(s, n, r, kinds);
    case While(body) => LoopStmtBranches(s, body, n, r, kinds);
    case For(body) => LoopStmtBranches(s, body, n, r, kinds);
    case Switch(_) => SwitchBranches(s, n, r, kinds);
    case Block(stmts) => SeqBranches(stmts, n, r, kinds);
  }

  lemma {:induction false} IfBranches(s: Stmt, n: nat, r: Run, kinds: seq<Kind>)
    requires s.If? && Fits(s, r) && Placed(kinds, n, Layout(s))
    ensures BranchesOn(kinds, Trace(s, n, r)) == Choices(s, r)
    decreases r, s, 0
  {
    hide Layout, BranchesOn;
    if s.els.Some? {
      IfElseLayout(s);
      assert [Branch] + Layout(s.thn) + Layout(s.els.value)
             == [Branch] + (Layout(s.thn) + Layout(s.els.value));
      PlacedHead(kinds, n, Branch, Layout(s.thn) + Layout(s.els.value));
      PlacedParts(kinds, n + 1, Layout(s.thn), Layout(s.els.value));
    } else {
      IfUnfolds(s, n, [], n);
      PlacedHead(kinds, n, Branch, Layout(s.thn));
    }
    BranchesOne(kinds, n);
    if r.Take? {
      if r.thn {
        BranchPerChoice(s.thn, n + 1, r.sub, kinds);
        BranchesConcat(kinds, [n], Trace(s.thn, n + 1, r.sub));
      } else {
        BranchPerChoice(s.els.value, n + 1 + Size(s.thn), r.sub, kinds);
        BranchesConcat(kinds, [n], Trace(s.els.value, n + 1 + Size(s.thn), r.sub));
      }
    }
  }

  lemma {:induction false} LoopStmtBranches(s: Stmt, body: Stmt, n: nat, r: Run, kinds: seq<Kind>)
    requires (s == While(body) || s == For(body)) && Fits(s, r) && Placed(kinds, n, Layout(s))
    ensures BranchesOn(kinds, Trace(s, n, r)) == Choices(s, r)
    decreases r, s, 0
  {
    hide Layout, BranchesOn;
    LoopUnfolds(s, body, n, [], n);
    PlacedHead(kinds, n, Branch, Layout(body));
    LoopBranches(body, n, r, kinds);
    BranchesOne(kinds, n);
    BranchesConcat(kinds, [n], TraceLoop(body, n, r));
  }

  lemma {:induction false} LoopBranches(body: Stmt, n: nat, r: Run, kinds: seq<Kind>)
    requires FitsLoop(body, r) && n < |kinds| && kinds[n] == Branch && Placed(kinds, n + 1, Layout(body))
    ensures 1 + BranchesOn(kinds, TraceLoop(body, n, r)) == ChoicesLoop(body, r)
    decreases r, body
  {
    hide Layout, Trace;
    if r.Then? {
      BranchPerChoice(body, n + 1, r.first, kinds);
      if !Returns(r.first) {
        LoopBranches(body, n, r.rest, kinds);
        BranchesOne(kinds, n);
        BranchesConcat(kinds, Trace(body, n + 1, r.first), [n]);
        BranchesConcat(kinds, Trace(body, n + 1, r.first) + [n], TraceLoop(body, n, r.rest));
      }
    }
  }

  lemma {:induction false} SwitchBranches(s: Stmt, n: nat, r: Run, kinds: seq<Kind>)
    requires s.Switch? && Fits(s, r) && Placed(kinds, n, Layout(s))
    ensures BranchesOn(kinds, Trace(s, n, r)) == Choices(s, r)
    decreases r, s, 0
  {
    hide LayoutCases, BranchesOn;
    PlacedHead(kinds, n, Branch, LayoutCases(s.cases));
    BranchesOne(kinds, n);
    if r.PickCase? {
      CaseBranches(s.cases, n + 1, r.i, r.sub, kinds);
      var m := CaseStart(s.cases, n + 1, r.i);
      var tr := TraceSeq(s.cases[r.i].body, m + 1, r.sub);
      BranchesOne(kinds, m);
      BranchesConcat(kinds, [n], [m]);
      BranchesConcat(kinds, [n] + [m], tr);
      assert [n, m] + tr == ([n] + [m]) + tr;
    }
  }

  lemma {:induction false} CaseBranches(cases: seq<Case>, n: nat, i: nat, r: Run, kinds: seq<Kind>)
    requires i < |cases| && FitsSeq(cases[i].body, r) && Placed(kinds, n, LayoutCases(cases))
    ensures var m := CaseStart(cases, n, i);
            && m < |kinds| && kinds[m] == Statement
            && BranchesOn(kinds, TraceSeq(cases[i].body, m + 1, r)) == ChoicesSeq(cases[i].body, r)
    decreases r, cases
  {
    var layout, rest := LayoutSeq(cases[0].body), LayoutCases(cases[1..]);
    assert LayoutCases(cases) == [Statement] + (layout + rest);
    hide LayoutCases, LayoutSeq, BranchesOn;
    PlacedHead(kinds, n, Statement, layout + rest);
    PlacedParts(kinds, n + 1, layout, rest);
    if i == 0 {
      SeqBranches(cases[0].body, n + 1, r, kinds);
    } else {
      CaseBranches(cases[1..], n + 1 + SizeSeq(cases[0].body), i - 1, r, kinds);
    }
  }

  lemma {:induction false} SeqBranches(ss: seq<Stmt>, n: nat, r: Run, kinds: seq<Kind>)
    requires FitsSeq(ss, r) && Placed(kinds, n, LayoutSeq(ss))
    ensures BranchesOn(kinds, TraceSeq(ss, n, r)) == ChoicesSeq(ss, r)
    decreases r, ss
  {
    if ss != [] {
      SeqLayout(ss);
      hide LayoutSeq, Layout;
      PlacedParts(kinds, n, Layout(ss[0]), LayoutSeq(ss[1..]));
      BranchPerChoice(ss[0], n, r.first, kinds);
      if !Returns(r.first) {
        SeqBranches(ss[1..], n + Size(ss[0]), r.rest, kinds);
        BranchesConcat(kinds, Trace(ss[0], n, r.first), TraceSeq(ss[1..], n + Size(ss[0]), r.rest));
      }
    }
  }

  /** In a finished graph an execution meets one branch node per choice. */
  lemma {:induction false} MethodBranches(body: seq<Stmt>, r: Run)
    requires FitsSeq(body, r)
    ensures BranchesOn(MethodNodes(body), [ENTRY] + TraceSeq(body, 2, r) + [EXIT]) == ChoicesSeq(body, r)
  {
    hide LayoutSeq;
    var kinds := MethodNodes(body);
    assert kinds[2..] == LayoutSeq(body);
    SeqBranches(body, 2, r, kinds);
    BranchesOne(kinds, ENTRY);
    BranchesOne(kinds, EXIT);
    BranchesConcat(kinds, [ENTRY], TraceSeq(body, 2, r));
    BranchesConcat(kinds, [ENTRY] + TraceSeq(body, 2, r), [EXIT]);
  }
}
