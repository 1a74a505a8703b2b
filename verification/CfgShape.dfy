/**
 The shape of a finished graph: every node lies on a walk from entry to exit, the
 graph is one weak component, and the complexity formula never needs its clamp.
 */
module CfgShape {
  import opened Wrappers
  import opened Cfg
  import opened CfgSimulation
  import opened CfgFrontier
  import opened CfgReach
  import opened CfgExits

  predicate AllSame(frontier: seq<nat>) {
    forall i :: 0 <= i < |frontier| ==> frontier[i] == frontier[0]
  }

  /** Every nested block and `try` is entered from a one-node frontier. */
  predicate OneEntry(s: Stmt, n: nat, entry: seq<nat>, exit: nat)
    decreases s
  {
    match s
    case Simple => true
    case Return => true
    case If(thn, els) =>
      && OneEntry(thn, n + 1, [n], exit)
      && (els.Some? ==> OneEntry(els.value, n + 1 + Size(thn), [n], exit))
    case While(body) => OneEntry(body, n + 1, [n], exit)
    case For(body) => OneEntry(body, n + 1, [n], exit)
    case Switch(cases) => OneEntryCases(cases, n + 1, exit)
    case Block(stmts) => AllSame(entry) && OneEntrySeq(stmts, n, [Pick(entry, exit)], exit)
    case Try(block, catches, fin) =>
      var k := n + SizeSeq(block);
      var m := k + SizeCatches(catches);
      && AllSame(entry)
      && OneEntrySeq(block, n, [Pick(entry, exit)], exit)
      && OneEntryCatches(catches, k, exit)
      && (fin != [] ==> OneEntrySeq(fin, m + 1, [m], exit))
  }

  predicate OneEntrySeq(ss: seq<Stmt>, n: nat, entry: seq<nat>, exit: nat)
    decreases ss
  {
    ss == []
    || (&& OneEntry(ss[0], n, entry, exit)
        && OneEntrySeq(ss[1..], n + Size(ss[0]), StmtFrag(ss[0], n, entry, exit).last, exit))
  }

  predicate OneEntryCatches(cs: seq<Catch>, n: nat, exit: nat)
    decreases cs
  {
    cs == []
    || (&& OneEntrySeq(cs[0].body, n + 1, [n], exit)
        && OneEntryCatches(cs[1..], n + 1 + SizeSeq(cs[0].body), exit))
  }

  predicate OneEntryCases(cs: seq<Case>, n: nat, exit: nat)
    decreases cs
  {
    cs == []
    || (&& OneEntrySeq(cs[0].body, n + 1, [n], exit)
        && OneEntryCases(cs[1..], n + 1 + SizeSeq(cs[0].body), exit))
  }

  // ---------------------------------------------------------- reachability

  ghost predicate Reach(g: set<Edge>, u: nat, v: nat) {
    exists tr :: Walk(g, u, tr) && End(u, tr) == v
  }

  lemma Stay(g: set<Edge>, u: nat)
    ensures Reach(g, u, u)
  {
    assert Walk(g, u, []) && End(u, []) == u;
  }

  lemma Hop(g: set<Edge>, u: nat, v: nat)
    requires (u, v) in g
    ensures Reach(g, u, v)
  {
    WalkCons(g, u, v, []);
    assert Walk(g, u, [v] + []) && End(u, [v] + []) == v;
  }

  lemma Chain(g: set<Edge>, u: nat, v: nat, w: nat)
    requires Reach(g, u, v) && Reach(g, v, w)
    ensures Reach(g, u, w)
  {
    var a :| Walk(g, u, a) && End(u, a) == v;
    var b :| Walk(g, v, b) && End(v, b) == w;
    WalkConcat(g, u, a, b);
    assert Walk(g, u, a + b) && End(u, a + b) == w;
  }

  ghost predicate ToAny(g: set<Edge>, m: nat, last: seq<nat>, exit: nat) {
    Reach(g, m, exit) || exists x :: x in last && Reach(g, m, x)
  }

  lemma ToVia(g: set<Edge>, m: nat, mid: seq<nat>, last: seq<nat>, exit: nat)
    requires ToAny(g, m, mid, exit) && forall x :: x in mid ==> ToAny(g, x, last, exit)
    ensures ToAny(g, m, last, exit)
  {
    if !Reach(g, m, exit) {
      var x :| x in mid && Reach(g, m, x);
      ToChain(g, m, x, last, exit);
    }
  }

  lemma ToChain(g: set<Edge>, m: nat, x: nat, last: seq<nat>, exit: nat)
    requires Reach(g, m, x) && ToAny(g, x, last, exit)
    ensures ToAny(g, m, last, exit)
  {
    if Reach(g, x, exit) {
      Chain(g, m, x, exit);
    } else {
      var y :| y in last && Reach(g, x, y);
      Chain(g, m, x, y);
    }
  }

  lemma ToMore(g: set<Edge>, m: nat, last: seq<nat>, more: seq<nat>, exit: nat)
    requires ToAny(g, m, last, exit) && forall x :: x in last ==> x in more
    ensures ToAny(g, m, more, exit)
  {
  }

  // ---------------------------------------------------- every node leads to the exit

  ghost predicate Known(x: nat, entry: seq<nat>, lo: nat, hi: nat) {
    x in entry || Inside(x, lo, hi)
  }

  lemma {:induction false} LeadsOut(
      s: Stmt, n: nat, entry: seq<nat>, exit: nat, g: set<Edge>, m: nat)
    requires Ordered(s) && OneEntry(s, n, entry, exit) && Below(entry, n) && exit < n
    requires Known(m, entry, n, n + Size(s)) && StmtFrag(s, n, entry, exit).edges <= g
    ensures ToAny(g, m, StmtFrag(s, n, entry, exit).last, exit)
    decreases s, 2
  {
    match s
    case Block(stmts) =>
      assert entry[0] in entry;
      SeqLeadsOut(stmts, n, [entry[0]], exit, g, m);
    case Try(_, _, _) => TryLeadsOut(s, n, entry, exit, g, m);
    case _ =>
      HeadLeadsOut(s, n, entry, exit, g, n);
      if m in entry {
        assert (m, n) in Into(entry, n);
        Hop(g, m, n);
        ToChain(g, m, n, StmtFrag(s, n, entry, exit).last, exit);
      } else {
        HeadLeadsOut(s, n, entry, exit, g, m);
      }
  }

  /** The statements that start with a node of their own. */
  lemma {:induction false} HeadLeadsOut(
      s: Stmt, n: nat, entry: seq<nat>, exit: nat, g: set<Edge>, m: nat)
    requires Ordered(s) && OneEntry(s, n, entry, exit) && Below(entry, n) && exit < n
    requires !s.Block? && !s.Try? && Inside(m, n, n + Size(s))
    requires StmtFrag(s, n, entry, exit).edges <= g
    ensures ToAny(g, m, StmtFrag(s, n, entry, exit).last, exit)
    decreases s, 1
  {
    match s
    case Simple => Stay(g, n);
    case Return => Hop(g, n, exit);
    case If(_, _) => IfLeadsOut(s, n, entry, exit, g, m);
    case While(body) => LoopLeadsOut(s, body, n, entry, exit, g, m);
    case For(body) => LoopLeadsOut(s, body, n, entry, exit, g, m);
    case Switch(_) => SwitchLeadsOut(s, n, entry, exit, g, m);
  }

  lemma {:induction false} IfLeadsOut(
      s: Stmt, n: nat, entry: seq<nat>, exit: nat, g: set<Edge>, m: nat)
    requires s.If? && Ordered(s) && OneEntry(s, n, entry, exit) && Below(entry, n) && exit < n
    requires Inside(m, n, n + Size(s)) && StmtFrag(s, n, entry, exit).edges <= g
    ensures ToAny(g, m, StmtFrag(s, n, entry, exit).last, exit)
    decreases s, 0
  {
    var k := n + 1 + Size(s.thn);
    var t := StmtFrag(s.thn, n + 1, [n], exit);
    var last := StmtFrag(s, n, entry, exit).last;
    if s.els.None? {
      IfUnfolds(s, n, entry, exit);
    } else {
      IfElseUnfolds(s, n, entry, exit);
    }
    if m < k {
      LeadsOut(s.thn, n + 1, [n], exit, g, m);
      ToMore(g, m, t.last, last, exit);
    } else {
      LeadsOut(s.els.value, k, [n], exit, g, m);
      ToMore(g, m, StmtFrag(s.els.value, k, [n], exit).last, last, exit);
    }
  }

  lemma {:induction false} LoopLeadsOut(
      s: Stmt, body: Stmt, n: nat, entry: seq<nat>, exit: nat, g: set<Edge>, m: nat)
    requires (s == While(body) || s == For(body)) && Ordered(s) && OneEntry(s, n, entry, exit)
    requires Below(entry, n) && exit < n
    requires Inside(m, n, n + Size(s)) && StmtFrag(s, n, entry, exit).edges <= g
    ensures ToAny(g, m, StmtFrag(s, n, entry, exit).last, exit)
    decreases s, 0
  {
    Stay(g, n);
    var b := StmtFrag(body, n + 1, [n], exit);
    LeadsOut(body, n + 1, [n], exit, g, m);
    forall x | x in b.last ensures ToAny(g, x, [n], exit) {
      assert (x, n) in Into(b.last, n);
      Hop(g, x, n);
      assert n in [n];
    }
    ToVia(g, m, b.last, [n], exit);
  }

  lemma {:induction false} SwitchLeadsOut(
      s: Stmt, n: nat, entry: seq<nat>, exit: nat, g: set<Edge>, m: nat)
    requires s.Switch? && Ordered(s) && OneEntry(s, n, entry, exit) && Below(entry, n) && exit < n
    requires Inside(m, n, n + Size(s)) && StmtFrag(s, n, entry, exit).edges <= g
    ensures ToAny(g, m, StmtFrag(s, n, entry, exit).last, exit)
    decreases s, 0
  {
    var c := CasesFrag(s.cases, n + 1, n, exit);
    var last := StmtFrag(s, n, entry, exit).last;
    if m != n {
      CasesLeadOut(s.cases, n + 1, n, exit, g, m);
      ToMore(g, m, c.last, last, exit);
    } else if c.last == [] {
      Stay(g, n);
      assert n in last;
    } else {
      assert s.cases != [];
      assert s.cases[0..] == s.cases;
      CasesUnfold(s.cases, 0, n + 1, n, exit);
      Hop(g, n, n + 1);
      CasesLeadOut(s.cases, n + 1, n, exit, g, n + 1);
      ToMore(g, n + 1, c.last, last, exit);
      ToChain(g, n, n + 1, last, exit);
    }
  }

  lemma {:induction false} TryLeadsOut(
      s: Stmt, n: nat, entry: seq<nat>, exit: nat, g: set<Edge>, m: nat)
    requires s.Try? && Ordered(s) && OneEntry(s, n, entry, exit) && Below(entry, n) && exit < n
    requires Known(m, entry, n, n + Size(s)) && StmtFrag(s, n, entry, exit).edges <= g
    ensures ToAny(g, m, StmtFrag(s, n, entry, exit).last, exit)
    decreases s, 0
  {
    hide StmtFrag;
    var k := n + SizeSeq(s.block);
    var j := k + SizeCatches(s.catches);
    assert entry[0] in entry;
    TryLayout(s);
    TryUnfolds(s, n, entry, exit);
    var b := SeqFrag(s.block, n, [entry[0]], exit);
    var c := CatchesFrag(s.catches, k, entry, exit);
    if m in entry || m < k {
      SeqLeadsOut(s.block, n, [entry[0]], exit, g, m);
      ToMore(g, m, b.last, b.last + c.last, exit);
    } else if m < j {
      CatchesLeadOut(s.catches, k, entry, exit, g, m);
      ToMore(g, m, c.last, b.last + c.last, exit);
    }
    if s.fin != [] {
      var f := SeqFrag(s.fin, j + 1, [j], exit);
      SeqLeadsOut(s.fin, j + 1, [j], exit, g, j);
      if m in entry || m < j {
        forall x | x in b.last + c.last ensures ToAny(g, x, f.last, exit) {
          assert (x, j) in Into(b.last + c.last, j);
          Hop(g, x, j);
          ToChain(g, x, j, f.last, exit);
        }
        ToVia(g, m, b.last + c.last, f.last, exit);
      } else {
        SeqLeadsOut(s.fin, j + 1, [j], exit, g, m);
      }
    }
  }

  lemma {:induction false} SeqLeadsOut(
      ss: seq<Stmt>, n: nat, entry: seq<nat>, exit: nat, g: set<Edge>, m: nat)
    requires OrderedSeq(ss) && OneEntrySeq(ss, n, entry, exit) && Below(entry, n) && exit < n
    requires Known(m, entry, n, n + SizeSeq(ss)) && SeqFrag(ss, n, entry, exit).edges <= g
    ensures ToAny(g, m, SeqFrag(ss, n, entry, exit).last, exit)
    decreases ss
  {
    hide SeqFrag, StmtFrag, LayoutSeq, Layout, Ordered, Open, OneEntry, Contained;
    if ss == [] {
      NoStmts(n, entry, exit);
      Stay(g, m);
    } else {
      var f := StmtFrag(ss[0], n, entry, exit);
      var k := n + Size(ss[0]);
      StmtShaped(ss[0], n, entry, exit);
      SeqHead(ss, n, entry, exit);
      if m in entry || m < k {
        LeadsOut(ss[0], n, entry, exit, g, m);
        if ss[1..] != [] {
          FrontierBelow(f, entry, n, k, exit, true);
          forall x | x in f.last ensures ToAny(g, x, SeqFrag(ss, n, entry, exit).last, exit) {
            SeqLeadsOut(ss[1..], k, f.last, exit, g, x);
          }
          ToVia(g, m, f.last, SeqFrag(ss, n, entry, exit).last, exit);
        }
      } else {
        FrontierBelow(f, entry, n, k, exit, true);
        SeqLeadsOut(ss[1..], k, f.last, exit, g, m);
      }
    }
  }

  lemma {:induction false} CatchesLeadOut(
      cs: seq<Catch>, n: nat, entry: seq<nat>, exit: nat, g: set<Edge>, m: nat)
    requires OrderedCatches(cs) && OneEntryCatches(cs, n, exit) && exit < n
    requires Inside(m, n, n + SizeCatches(cs)) && CatchesFrag(cs, n, entry, exit).edges <= g
    ensures ToAny(g, m, CatchesFrag(cs, n, entry, exit).last, exit)
    decreases cs
  {
    hide CatchesFrag, SeqFrag, LayoutCatches, LayoutSeq, OrderedSeq, OneEntrySeq;
    NoCatches(n, entry, exit);
    assert cs != [];
    var k := n + 1 + SizeSeq(cs[0].body);
    assert cs[0..] == cs;
    CatchesUnfold(cs, 0, n, entry, exit);
    var last := CatchesFrag(cs, n, entry, exit).last;
    if m < k {
      SeqLeadsOut(cs[0].body, n + 1, [n], exit, g, m);
      ToMore(g, m, SeqFrag(cs[0].body, n + 1, [n], exit).last, last, exit);
    } else {
      CatchesLeadOut(cs[1..], k, entry, exit, g, m);
      ToMore(g, m, CatchesFrag(cs[1..], k, entry, exit).last, last, exit);
    }
  }

  lemma {:induction false} CasesLeadOut(
      cs: seq<Case>, n: nat, switch: nat, exit: nat, g: set<Edge>, m: nat)
    requires OrderedCases(cs) && OneEntryCases(cs, n, exit) && exit < n
    requires Inside(m, n, n + SizeCases(cs)) && CasesFrag(cs, n, switch, exit).edges <= g
    ensures ToAny(g, m, CasesFrag(cs, n, switch, exit).last, exit)
    decreases cs
  {
    hide CasesFrag, SeqFrag, LayoutCases, LayoutSeq, OrderedSeq, OneEntrySeq;
    NoCases(n, switch, exit);
    assert cs != [];
    var k := n + 1 + SizeSeq(cs[0].body);
    assert cs[0..] == cs;
    CasesUnfold(cs, 0, n, switch, exit);
    var last := CasesFrag(cs, n, switch, exit).last;
    if m < k {
      SeqLeadsOut(cs[0].body, n + 1, [n], exit, g, m);
      ToMore(g, m, SeqFrag(cs[0].body, n + 1, [n], exit).last, last, exit);
    } else {
      CasesLeadOut(cs[1..], k, switch, exit, g, m);
      ToMore(g, m, CasesFrag(cs[1..], k, switch, exit).last, last, exit);
    }
  }

  // ------------------------------------------------------------- whole methods

  /** The graph read without edge directions. */
  function Undirected(g: set<Edge>): set<Edge> {
    g + set e <- g :: (e.1, e.0)
  }

  ghost predicate WeaklyConnected(g: set<Edge>, nodes: nat) {
    forall u, v :: 0 <= u < nodes && 0 <= v < nodes ==> Reach(Undirected(g), u, v)
  }

  ghost predicate IsLeast(g: set<Edge>, u: nat) {
    forall w: nat :: w < u ==> !Reach(g, u, w)
  }

  ghost predicate HasPredecessor(g: set<Edge>, m: nat) {
    exists w :: (w, m) in g
  }

  /** The least node of each weak component. */
  ghost function Components(g: set<Edge>, nodes: nat): set<nat> {
    set u: nat | u < nodes && IsLeast(Undirected(g), u)
  }

  /** McCabe's formula with the builder's clamp, for `c` weak components. */
  function Complexity(edges: nat, nodes: nat, c: nat): int {
    var v := edges - nodes + 2 * c;
    if nodes == 0 || v < 1 then 1 else v
  }

  /** Every node is reached from the entry. */
  ghost predicate AllReached(body: seq<Stmt>) {
    forall m: nat :: m < |MethodNodes(body)| ==> Reach(MethodEdges(body), ENTRY, m)
  }

  /** Every node leads to the exit. */
  ghost predicate AllLeadOut(body: seq<Stmt>) {
    forall m: nat :: m < |MethodNodes(body)| ==> Reach(MethodEdges(body), m, EXIT)
  }

  lemma {:induction false} WalkStays(g: set<Edge>, u: nat, tr: seq<nat>, r: iset<nat>)
    requires Walk(g, u, tr) && u in r && Closed(g, r)
    ensures End(u, tr) in r
    decreases |tr|
  {
    if tr != [] {
      WalkStays(g, tr[0], tr[1..], r);
      assert End(tr[0], tr[1..]) == End(u, tr);
    }
  }

  lemma ReachedClosed(g: set<Edge>, u: nat)
    ensures Closed(g, iset v: nat | Reach(g, u, v))
  {
    forall e | e in g && Reach(g, u, e.0) ensures Reach(g, u, e.1) {
      Hop(g, e.0, e.1);
      Chain(g, u, e.0, e.1);
    }
  }

  lemma LeadingBackClosed(g: set<Edge>, v: nat)
    ensures BackClosed(g, iset u: nat | Reach(g, u, v))
  {
    forall e | e in g && Reach(g, e.1, v) ensures Reach(g, e.0, v) {
      Hop(g, e.0, e.1);
      Chain(g, e.0, e.1, v);
    }
  }

  /**
   When nothing follows a statement that leaves nothing open, as the language demands,
   every node is reached from the entry if and only if every `finally` is entered.
   */
  lemma {:induction false} EveryNodeReachedExactly(body: seq<Stmt>)
    requires OrderedSeq(body)
    ensures AllReached(body) <==> EnteredSeq(body, false)
  {
    if body == [] {
      Hop(MethodEdges(body), ENTRY, EXIT);
      Stay(MethodEdges(body), ENTRY);
    } else if EnteredSeq(body, false) {
      forall m: nat | m < |MethodNodes(body)| ensures Reach(MethodEdges(body), ENTRY, m) {
        NodeReached(body, m);
      }
    } else {
      var j := SeqCutOff(body, 2, [ENTRY], EXIT, false);
      assert NoneTo(MethodEdges(body), j);
      if Reach(MethodEdges(body), ENTRY, j) {
        var tr :| Walk(MethodEdges(body), ENTRY, tr) && End(ENTRY, tr) == j;
        ArrivesByEdge(MethodEdges(body), ENTRY, tr);
      }
    }
  }

  lemma {:induction false} NodeReached(body: seq<Stmt>, m: nat)
    requires body != [] && OrderedSeq(body) && EnteredSeq(body, false) && m < |MethodNodes(body)|
    ensures Reach(MethodEdges(body), ENTRY, m)
  {
    var g := MethodEdges(body);
    var f := SeqFrag(body, 2, [ENTRY], EXIT);
    var r := iset v: nat | Reach(g, ENTRY, v);
    hide SeqFrag, MethodEdges;
    assert f.edges <= g by { BodyEdges(body); }
    ReachedClosed(g, ENTRY);
    Stay(g, ENTRY);
    if Inside(m, 2, 2 + SizeSeq(body)) {
      SeqReaches(body, 2, [ENTRY], EXIT, g, r, false, m);
    } else if m == EXIT {
      var x := LeavesBody(body);
      if x != ENTRY { SeqReaches(body, 2, [ENTRY], EXIT, g, r, false, x); }
      assert (x, EXIT) in g && EXIT in r;
    }
  }

  lemma BodyEdges(body: seq<Stmt>)
    requires body != []
    ensures var f := SeqFrag(body, 2, [ENTRY], EXIT);
            && f.edges <= MethodEdges(body)
            && (forall x :: x in f.last && x != EXIT ==> (x, EXIT) in MethodEdges(body))
            && (forall e :: e in MethodEdges(body) ==> e in f.edges || (e.0 in f.last && e.1 == EXIT))
  {
  }

  /** Some node of the body, or the entry, is joined to the exit. */
  lemma {:induction false} LeavesBody(body: seq<Stmt>) returns (x: nat)
    requires body != [] && OrderedSeq(body)
    ensures (x, EXIT) in MethodEdges(body) && (x == ENTRY || Inside(x, 2, 2 + SizeSeq(body)))
  {
    hide SeqFrag, MethodEdges, LayoutSeq;
    var f := SeqFrag(body, 2, [ENTRY], EXIT);
    BodyEdges(body);
    SeqShaped(body, 2, [ENTRY], EXIT);
    if f.last != [] {
      x := f.last[0];
      assert x in f.last;
    } else {
      SeqClosedReturns(body);
      ListExits(body, 2, [ENTRY], EXIT);
      var e :| e in f.edges && e.1 == EXIT;
      x := e.0;
    }
  }

  /**
   Every node lies on a walk from entry to exit if and only if every `finally` is
   entered and nothing dropped by a nested block or `try` is left without a way on.
   */
  lemma {:induction false} EveryNodeOnAWalkExactly(body: seq<Stmt>)
    requires OrderedSeq(body)
    ensures AllReached(body) && AllLeadOut(body)
            <==> EnteredSeq(body, false) && LeadsSeq(body, All)
  {
    EveryNodeReachedExactly(body);
    if body == [] {
      Hop(MethodEdges(body), ENTRY, EXIT);
      Stay(MethodEdges(body), EXIT);
    } else if EnteredSeq(body, false) {
      if LeadsSeq(body, All) {
        BodyLeadsOut(body);
      } else {
        BodyTraps(body);
      }
    }
  }

  lemma {:induction false} BodyLeadsOut(body: seq<Stmt>)
    requires body != [] && OrderedSeq(body) && EnteredSeq(body, false) && LeadsSeq(body, All)
    ensures AllLeadOut(body)
  {
    hide SeqFrag, MethodEdges, LayoutSeq, FeedsSeq;
    var g := MethodEdges(body);
    var out := iset u: nat | Reach(g, u, EXIT);
    BodyEdges(body);
    LeadingBackClosed(g, EXIT);
    Stay(g, EXIT);
    SeqLeads(body, 2, [ENTRY], EXIT, g, out, All, false);
    if FeedsSeq(body, All).Nothing? { SeqFeedsNothing(body, All); }
    assert ENTRY in Kept([ENTRY], FeedsSeq(body, All));
    forall m: nat | m < |MethodNodes(body)| ensures Reach(g, m, EXIT) {
      assert m == ENTRY || m == EXIT || Inside(m, 2, 2 + SizeSeq(body));
    }
  }

  lemma {:induction false} BodyTraps(body: seq<Stmt>)
    requires body != [] && OrderedSeq(body) && !LeadsSeq(body, All)
    ensures !AllLeadOut(body)
  {
    hide SeqFrag, MethodEdges, LayoutSeq, LeadsSeq, OrderedSeq;
    var g := MethodEdges(body);
    BodyEdges(body);
    var r := SeqTraps(body, 2, [ENTRY], EXIT, g, All);
    var x :| x in r;
    if Reach(g, x, EXIT) {
      var tr :| Walk(g, x, tr) && End(x, tr) == EXIT;
      WalkStays(g, x, tr, iset v: nat | v in r);
    }
    assert x < |MethodNodes(body)|;
  }

  lemma ClosesToExit(body: seq<Stmt>, m: nat)
    requires body != []
    requires ToAny(MethodEdges(body), m, SeqFrag(body, 2, [ENTRY], EXIT).last, EXIT)
    ensures Reach(MethodEdges(body), m, EXIT)
  {
    var g := MethodEdges(body);
    if !Reach(g, m, EXIT) {
      var x :| x in SeqFrag(body, 2, [ENTRY], EXIT).last && Reach(g, m, x);
      assert (x, EXIT) in g;
      Hop(g, x, EXIT);
      Chain(g, m, x, EXIT);
    }
  }

  /** Blocks entered from one node leave nothing behind. */
  lemma {:induction false} OneEntryLeadsOut(body: seq<Stmt>)
    requires OrderedSeq(body) && OneEntrySeq(body, 2, [ENTRY], EXIT)
    ensures AllLeadOut(body)
    ensures EnteredSeq(body, false) ==> LeadsSeq(body, All)
  {
    var g := MethodEdges(body);
    if body == [] {
      Hop(g, ENTRY, EXIT);
      Stay(g, EXIT);
    } else {
      Stay(g, EXIT);
      forall m: nat | m < |MethodNodes(body)| ensures Reach(g, m, EXIT) {
        if m != EXIT {
          SeqLeadsOut(body, 2, [ENTRY], EXIT, g, m);
          ClosesToExit(body, m);
        }
      }
      if !LeadsSeq(body, All) { BodyTraps(body); }
    }
  }

  /** Edges join existing nodes, none leaves the exit and none enters the entry. */
  ghost predicate StaysInside(g: set<Edge>, nodes: nat) {
    forall e :: e in g ==> e.0 < nodes && e.1 < nodes && e.0 != EXIT && e.1 != ENTRY
  }

  lemma {:induction false} MethodEdgesStayInside(body: seq<Stmt>)
    requires OrderedSeq(body)
    ensures |MethodNodes(body)| >= 2 && StaysInside(MethodEdges(body), |MethodNodes(body)|)
  {
    if body != [] {
      SeqShaped(body, 2, [ENTRY], EXIT);
    }
  }

  /** A walk that goes anywhere arrives by an edge. */
  lemma {:induction false} ArrivesByEdge(g: set<Edge>, u: nat, tr: seq<nat>)
    requires Walk(g, u, tr) && tr != []
    ensures HasPredecessor(g, End(u, tr))
    decreases |tr|
  {
    if |tr| == 1 {
      assert (u, End(u, tr)) in g;
    } else {
      ArrivesByEdge(g, tr[0], tr[1..]);
      assert End(tr[0], tr[1..]) == End(u, tr);
    }
  }

  lemma {:induction false} ReverseWalk(g: set<Edge>, u: nat, tr: seq<nat>)
    requires Walk(g, u, tr)
    ensures Reach(Undirected(g), u, End(u, tr)) && Reach(Undirected(g), End(u, tr), u)
    decreases |tr|
  {
    var h := Undirected(g);
    if tr == [] {
      Stay(h, u);
    } else {
      ReverseWalk(g, tr[0], tr[1..]);
      assert End(tr[0], tr[1..]) == End(u, tr);
      assert (u, tr[0]) in h && (tr[0], u) in h;
      Hop(h, u, tr[0]);
      Hop(h, tr[0], u);
      Chain(h, u, tr[0], End(u, tr));
      Chain(h, End(u, tr), tr[0], u);
    }
  }

  // ------------------------------------------------------------ components

  lemma Symmetric(g: set<Edge>, u: nat, v: nat)
    requires Reach(Undirected(g), u, v)
    ensures Reach(Undirected(g), v, u)
  {
    var h := Undirected(g);
    var tr :| Walk(h, u, tr) && End(u, tr) == v;
    ReverseWalk(h, u, tr);
    assert Undirected(h) == h;
  }

  /** Joined directly, or over the edge between `a` and `b`. */
  ghost predicate Via(h: set<Edge>, a: nat, b: nat, u: nat, w: nat) {
    Reach(h, u, w) || (Reach(h, u, a) && Reach(h, b, w)) || (Reach(h, u, b) && Reach(h, a, w))
  }

  lemma {:induction false} WithoutEdge(g: set<Edge>, a: nat, b: nat, u: nat, tr: seq<nat>)
    requires (a, b) in g && Walk(Undirected(g), u, tr)
    ensures Via(Undirected(g - {(a, b)}), a, b, u, End(u, tr))
    decreases |tr|
  {
    var h := Undirected(g - {(a, b)});
    if tr == [] {
      Stay(h, u);
    } else {
      var t, w := tr[0], End(u, tr);
      WithoutEdge(g, a, b, t, tr[1..]);
      assert End(t, tr[1..]) == w;
      if (u, t) in h {
        Hop(h, u, t);
        ChainVia(h, a, b, u, t, w);
      } else {
        Stay(h, u);
      }
    }
  }

  lemma ChainVia(h: set<Edge>, a: nat, b: nat, u: nat, t: nat, w: nat)
    requires Reach(h, u, t) && Via(h, a, b, t, w)
    ensures Via(h, a, b, u, w)
  {
    if Reach(h, t, w) { Chain(h, u, t, w); }
    if Reach(h, t, a) { Chain(h, u, t, a); }
    if Reach(h, t, b) { Chain(h, u, t, b); }
  }

  /** An edge joins two components into one at most: one least node is lost. */
  lemma {:induction false} OneLeastLost(g: set<Edge>, a: nat, b: nat, nodes: nat, u: nat, v: nat)
    requires (a, b) in g
    requires var h := g - {(a, b)};
             u in Components(h, nodes) - Components(g, nodes)
             && v in Components(h, nodes) - Components(g, nodes)
    ensures u == v
  {
    var h := Undirected(g - {(a, b)});
    var w := Lost(g, a, b, u);
    var x := Lost(g, a, b, v);
    if Reach(h, u, a) && Reach(h, b, w) && Reach(h, v, a) && Reach(h, b, x) {
      SameLeast(g - {(a, b)}, u, a, v);
    } else if Reach(h, u, b) && Reach(h, a, w) && Reach(h, v, b) && Reach(h, a, x) {
      SameLeast(g - {(a, b)}, u, b, v);
    } else if Reach(h, u, a) && Reach(h, b, w) {
      Chain(h, v, b, w);
      Chain(h, u, a, x);
    } else {
      Chain(h, v, a, w);
      Chain(h, u, b, x);
    }
  }

  lemma Lost(g: set<Edge>, a: nat, b: nat, u: nat) returns (w: nat)
    requires (a, b) in g && IsLeast(Undirected(g - {(a, b)}), u) && !IsLeast(Undirected(g), u)
    ensures var h := Undirected(g - {(a, b)});
            w < u && ((Reach(h, u, a) && Reach(h, b, w)) || (Reach(h, u, b) && Reach(h, a, w)))
  {
    w :| w < u && Reach(Undirected(g), u, w);
    var tr :| Walk(Undirected(g), u, tr) && End(u, tr) == w;
    WithoutEdge(g, a, b, u, tr);
  }

  lemma SameLeast(g: set<Edge>, u: nat, a: nat, v: nat)
    requires Reach(Undirected(g), u, a) && Reach(Undirected(g), v, a)
    requires IsLeast(Undirected(g), u) && IsLeast(Undirected(g), v)
    ensures u == v
  {
    Symmetric(g, u, a);
    Symmetric(g, v, a);
    Chain(Undirected(g), u, a, v);
    Chain(Undirected(g), v, a, u);
  }

  /** The numbers below `n`. */
  function UpTo(n: nat): (s: set<nat>)
    ensures |s| == n && forall u: nat :: u in s <==> u < n
  {
    if n == 0 then {} else UpTo(n - 1) + {n - 1}
  }

  /** Any graph has at least as many edges as its nodes outnumber its components. */
  lemma {:induction false} EdgesJoinComponents(g: set<Edge>, nodes: nat)
    ensures nodes <= |Components(g, nodes)| + |g|
    decreases |g|
  {
    var all := Components(g, nodes);
    if g == {} {
      forall u: nat | u < nodes ensures u in all {
        forall w: nat | w < u ensures !Reach(Undirected(g), u, w) {
          assert Undirected(g) == {};
        }
      }
      assert all == UpTo(nodes);
    } else {
      var e: Edge :| e in g;
      var (a, b) := e;
      var h := g - {(a, b)};
      EdgesJoinComponents(h, nodes);
      var lost := Components(h, nodes) - all;
      if lost != {} {
        var u :| u in lost;
        forall v | v in lost ensures v == u { OneLeastLost(g, a, b, nodes, u, v); }
        assert lost == {u};
      }
      Bounded(Components(h, nodes), all, lost);
    }
  }

  lemma Bounded(a: set<nat>, b: set<nat>, lost: set<nat>)
    requires lost == a - b && |lost| <= 1
    ensures |a| <= |b| + 1
  {
    assert a == (a * b) + lost;
    assert b == (a * b) + (b - a);
  }

  /** The clamp never fires: McCabe's number of any graph with nodes is at least 1. */
  lemma {:induction false} ClampNeverFires(g: set<Edge>, nodes: nat)
    requires nodes > 0
    ensures var c := |Components(g, nodes)|;
            1 <= c && |g| - nodes + 2 * c >= 1
            && Complexity(|g|, nodes, c) == |g| - nodes + 2 * c
  {
    EdgesJoinComponents(g, nodes);
    assert 0 in Components(g, nodes);
  }

  lemma ConnectedOnce(g: set<Edge>, n: nat, hub: nat)
    requires 0 < n && hub < n
    requires forall m: nat :: m < n ==> Reach(g, hub, m) || Reach(g, m, hub)
    ensures WeaklyConnected(g, n) && Components(g, n) == {ENTRY}
  {
    var h := Undirected(g);
    forall u: nat | u < n ensures Reach(h, hub, u) && Reach(h, u, hub) {
      if Reach(g, hub, u) {
        var a :| Walk(g, hub, a) && End(hub, a) == u;
        ReverseWalk(g, hub, a);
      } else {
        var a :| Walk(g, u, a) && End(u, a) == hub;
        ReverseWalk(g, u, a);
      }
    }
    forall u, v | 0 <= u < n && 0 <= v < n ensures Reach(h, u, v) {
      Chain(h, u, hub, v);
    }
    forall u: nat | u < n && u != ENTRY ensures u !in Components(g, n) {
      assert Reach(h, u, ENTRY);
    }
  }

  /**
   The shape theorem. Edges join existing nodes, none enters the entry or leaves the
   exit. When every node is reached from the entry, or every node leads to the exit,
   the graph is one weak component with at least one edge fewer than nodes.
   */
  lemma {:induction false} MethodShape(body: seq<Stmt>)
    requires OrderedSeq(body)
    ensures var g := MethodEdges(body);
            var n := |MethodNodes(body)|;
            && StaysInside(g, n)
            && (AllReached(body) || AllLeadOut(body) ==>
                  && WeaklyConnected(g, n) && Components(g, n) == {ENTRY}
                  && |g| >= n - 1
                  && Complexity(|g|, n, |Components(g, n)|) == |g| - n + 2)
  {
    var g := MethodEdges(body);
    var n := |MethodNodes(body)|;
    hide MethodEdges, MethodNodes, OrderedSeq;
    MethodEdgesStayInside(body);
    if AllReached(body) {
      ConnectedOnce(g, n, ENTRY);
    } else if AllLeadOut(body) {
      ConnectedOnce(g, n, EXIT);
    }
    EdgesJoinComponents(g, n);
    ClampNeverFires(g, n);
  }

  // ------------------------------------------------------------- counterexamples

  /**
   `if (c) a; else b; { d }` strands `b`: the block takes over `a` alone, and nothing
   leads on from `b`.
   */
  lemma ElseIsStranded()
    ensures var body := [If(Simple, Some(Simple)), Block([Simple])];
            LegalSeq(body) && AllReached(body) && !AllLeadOut(body)
  {
    var choice, block := If(Simple, Some(Simple)), Block([Simple]);
    var body := [choice, block];
    assert [Simple][1..] == [] && body[1..] == [block] && [block][1..] == [];
    assert LegalSeq([Simple]) && LegalSeq([block]) && Legal(choice) && Completes(choice);
    assert LegalSeq(body[1..]) && LegalSeq(body);
    assert EnteredSeq([Simple], false) && EnteredSeq([block], false) && EnteredSeq(body, false);
    assert FeedsSeq([Simple], All).All? && FeedsSeq([block], All).Head?;
    assert !Leads(choice, Head) && !LeadsSeq(body, All);
    LegalSeqIsOrdered(body);
    EveryNodeReachedExactly(body);
    EveryNodeOnAWalkExactly(body);
  }

  /** A `finally` after a `try` that always returns is cut off from the entry. */
  lemma FinallyIsCutOff()
    ensures var body := [Try([Return], [], [Simple])];
            && LegalSeq(body) && !EnteredSeq(body, false)
            && |MethodNodes(body)| == 5 && !HasPredecessor(MethodEdges(body), 3)
  {
    var body := [Try([Return], [], [Simple])];
    hide StmtFrag, SeqFrag, Layout, LayoutSeq, LegalSeq, EnteredSeq;
    FinallyIsLegal();
    FinallyFrag();
    SingletonFrag(body[0], 2, [ENTRY]);
    assert MethodEdges(body) == {(0, 2), (2, 1), (3, 4), (4, 1)};
  }

  lemma FinallyIsLegal()
    ensures var body := [Try([Return], [], [Simple])];
            LegalSeq(body) && !EnteredSeq(body, false)
  {
    var body := [Try([Return], [], [Simple])];
    assert LegalSeq([Return]) && LegalSeq([Simple]) && !OpenSeq([Return]);
    assert body[1..] == [];
  }

  lemma FinallyFrag()
    ensures var s := Try([Return], [], [Simple]);
            && StmtFrag(s, 2, [ENTRY], EXIT) == Frag({(0, 2), (2, 1), (3, 4)}, [4])
            && Layout(s) == [Statement, Statement, Statement]
  {
    hide StmtFrag, SeqFrag, Layout, LayoutSeq;
    var s := Try([Return], [], [Simple]);
    LeafFrags(2, [ENTRY]);
    LeafFrags(4, [3]);
    TryLayout(s);
    TryUnfolds(s, 2, [ENTRY], EXIT);
    NoCatches(3, [ENTRY], EXIT);
    SingletonFrag(Return, 2, [ENTRY]);
    SingletonFrag(Simple, 4, [3]);
  }

  lemma LeafFrags(n: nat, entry: seq<nat>)
    ensures StmtFrag(Return, n, entry, EXIT) == Frag(Into(entry, n) + {(n, EXIT)}, [])
    ensures StmtFrag(Simple, n, entry, EXIT) == Frag(Into(entry, n), [n])
    ensures Layout(Return) == Layout(Simple) == [Statement]
  {
  }

  lemma SingletonFrag(s: Stmt, n: nat, entry: seq<nat>)
    ensures SeqFrag([s], n, entry, EXIT) == StmtFrag(s, n, entry, EXIT)
    ensures LayoutSeq([s]) == Layout(s)
  {
    SeqHead([s], n, entry, EXIT);
    SeqLayout([s]);
  }

  /**
   Not every such `finally` is: one without statements of its own heads the frontier
   of the branch it stands in, and the branch node is joined to it.
   */
  lemma EmptyFinallyIsReached()
    ensures var body := [If(Try([Return], [], [Block([])]), None)];
            && LegalSeq(body) && !OpenSeq([Return])
            && AllReached(body) && (2, 4) in MethodEdges(body)
  {
    var s := Try([Return], [], [Block([])]);
    var body := [If(s, None)];
    assert [Block([])][1..] == [] && [Return][1..] == [] && body[1..] == [];
    assert LegalSeq([Return]) && LegalSeq([Block([])]) && LegalSeq(body);
    assert KeepsHeadSeq([Block([])]) && EnteredSeq(body, false);
    LegalSeqIsOrdered(body);
    EveryNodeReachedExactly(body);
    hide StmtFrag, SeqFrag, Layout, LayoutSeq;
    IfUnfolds(body[0], 2, [ENTRY], EXIT);
    SingletonFrag(body[0], 2, [ENTRY]);
    EmptyFinallyFrag();
  }

  lemma EmptyFinallyFrag()
    ensures StmtFrag(Try([Return], [], [Block([])]), 3, [2], EXIT).last == [4]
  {
    var s := Try([Return], [], [Block([])]);
    hide StmtFrag, SeqFrag, Layout, LayoutSeq;
    LeafFrags(3, [2]);
    SingletonFrag(Return, 3, [2]);
    TryLayout(s);
    TryUnfolds(s, 3, [2], EXIT);
    NoCatches(4, [2], EXIT);
    SingletonFrag(Block([]), 5, [4]);
    EmptyBlockFrag(5, [4]);
  }

  lemma EmptyBlockFrag(n: nat, entry: seq<nat>)
    requires entry != []
    ensures StmtFrag(Block([]), n, entry, EXIT) == Frag({}, [entry[0]])
  {
  }
}
