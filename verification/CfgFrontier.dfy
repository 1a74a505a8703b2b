/**
 Where a fragment's edges and frontier lie: the range facts every argument about
 the whole graph is built from.
 */
module CfgFrontier {
  import opened Cfg
  import opened CfgSimulation

  /** The statement leaves a non-empty frontier. */
  predicate Open(s: Stmt)
    decreases s
  {
    match s
    case Simple => true
    case Return => false
    case If(thn, els) => Open(thn) || els.None? || Open(els.value)
    case While(_) => true
    case For(_) => true
    case Switch(_) => true
    case Block(stmts) => OpenSeq(stmts)
    case Try(block, catches, fin) =>
      if fin == [] then OpenSeq(block) || OpenCatches(catches) else OpenSeq(fin)
  }

  /** A list is as open as its last statement. */
  predicate OpenSeq(ss: seq<Stmt>)
    decreases ss
  {
    ss == [] || (if ss[1..] == [] then Open(ss[0]) else OpenSeq(ss[1..]))
  }

  predicate OpenCatches(cs: seq<Catch>)
    decreases cs
  {
    cs != [] && (OpenSeq(cs[0].body) || OpenCatches(cs[1..]))
  }

  predicate OpenCases(cs: seq<Case>)
    decreases cs
  {
    cs != [] && (OpenSeq(cs[0].body) || OpenCases(cs[1..]))
  }

  /**
   Whether a statement can complete in the language's sense: a `try` does when its
   block or a catch does and its `finally` does too.
   */
  predicate Completes(s: Stmt)
    decreases s
  {
    match s
    case Simple => true
    case Return => false
    case If(thn, els) => Completes(thn) || els.None? || Completes(els.value)
    case While(_) => true
    case For(_) => true
    case Switch(cases) => !HasDefault(cases) || CompletesCases(cases)
    case Block(stmts) => CompletesSeq(stmts)
    case Try(block, catches, fin) =>
      (CompletesSeq(block) || CompletesCatches(catches)) && CompletesSeq(fin)
  }

  predicate CompletesSeq(ss: seq<Stmt>)
    decreases ss
  {
    ss == [] || (Completes(ss[0]) && CompletesSeq(ss[1..]))
  }

  predicate CompletesCatches(cs: seq<Catch>)
    decreases cs
  {
    cs != [] && (CompletesSeq(cs[0].body) || CompletesCatches(cs[1..]))
  }

  predicate CompletesCases(cs: seq<Case>)
    decreases cs
  {
    cs != [] && (CompletesSeq(cs[0].body) || CompletesCases(cs[1..]))
  }

  /**
   The language's rule for code without `break`, `continue` and `throw`: no statement
   follows one that cannot complete.
   */
  predicate Legal(s: Stmt)
    decreases s
  {
    match s
    case Simple => true
    case Return => true
    case If(thn, els) => Legal(thn) && (els.Some? ==> Legal(els.value))
    case While(body) => Legal(body)
    case For(body) => Legal(body)
    case Switch(cases) => LegalCases(cases)
    case Block(stmts) => LegalSeq(stmts)
    case Try(block, catches, fin) => LegalSeq(block) && LegalCatches(catches) && LegalSeq(fin)
  }

  predicate LegalSeq(ss: seq<Stmt>)
    decreases ss
  {
    ss == [] || (Legal(ss[0]) && (ss[1..] == [] || Completes(ss[0])) && LegalSeq(ss[1..]))
  }

  predicate LegalCatches(cs: seq<Catch>)
    decreases cs
  {
    cs == [] || (LegalSeq(cs[0].body) && LegalCatches(cs[1..]))
  }

  predicate LegalCases(cs: seq<Case>)
    decreases cs
  {
    cs == [] || (LegalSeq(cs[0].body) && LegalCases(cs[1..]))
  }

  /** No statement follows one that leaves nothing open: all the translation needs. */
  predicate Ordered(s: Stmt)
    decreases s
  {
    match s
    case Simple => true
    case Return => true
    case If(thn, els) => Ordered(thn) && (els.Some? ==> Ordered(els.value))
    case While(body) => Ordered(body)
    case For(body) => Ordered(body)
    case Switch(cases) => OrderedCases(cases)
    case Block(stmts) => OrderedSeq(stmts)
    case Try(block, catches, fin) => OrderedSeq(block) && OrderedCatches(catches) && OrderedSeq(fin)
  }

  predicate OrderedSeq(ss: seq<Stmt>)
    decreases ss
  {
    ss == [] || (Ordered(ss[0]) && (ss[1..] == [] || Open(ss[0])) && OrderedSeq(ss[1..]))
  }

  predicate OrderedCatches(cs: seq<Catch>)
    decreases cs
  {
    cs == [] || (OrderedSeq(cs[0].body) && OrderedCatches(cs[1..]))
  }

  predicate OrderedCases(cs: seq<Case>)
    decreases cs
  {
    cs == [] || (OrderedSeq(cs[0].body) && OrderedCases(cs[1..]))
  }

  /** What can complete leaves something open, so legal code is ordered. */
  lemma {:induction false} LegalIsOrdered(s: Stmt)
    ensures Completes(s) ==> Open(s)
    ensures Legal(s) ==> Ordered(s)
    decreases s
  {
    match s
    case Simple =>
    case Return =>
    case If(thn, els) =>
      LegalIsOrdered(thn);
      if els.Some? { LegalIsOrdered(els.value); }
    case While(body) => LegalIsOrdered(body);
    case For(body) => LegalIsOrdered(body);
    case Switch(cases) => LegalCasesOrdered(cases);
    case Block(stmts) => LegalSeqIsOrdered(stmts);
    case Try(block, catches, fin) =>
      LegalSeqIsOrdered(block);
      LegalCatchesOrdered(catches);
      LegalSeqIsOrdered(fin);
  }

  lemma {:induction false} LegalSeqIsOrdered(ss: seq<Stmt>)
    ensures CompletesSeq(ss) ==> OpenSeq(ss)
    ensures LegalSeq(ss) ==> OrderedSeq(ss)
    decreases ss
  {
    if ss != [] {
      LegalIsOrdered(ss[0]);
      LegalSeqIsOrdered(ss[1..]);
    }
  }

  lemma {:induction false} LegalCatchesOrdered(cs: seq<Catch>)
    ensures CompletesCatches(cs) ==> OpenCatches(cs)
    ensures LegalCatches(cs) ==> OrderedCatches(cs)
    decreases cs
  {
    if cs != [] {
      LegalSeqIsOrdered(cs[0].body);
      LegalCatchesOrdered(cs[1..]);
    }
  }

  lemma {:induction false} LegalCasesOrdered(cs: seq<Case>)
    ensures CompletesCases(cs) ==> OpenCases(cs)
    ensures LegalCases(cs) ==> OrderedCases(cs)
    decreases cs
  {
    if cs != [] {
      LegalSeqIsOrdered(cs[0].body);
      LegalCasesOrdered(cs[1..]);
    }
  }

  predicate Below(frontier: seq<nat>, n: nat) {
    frontier != [] && forall x :: x in frontier ==> x < n
  }

  predicate Inside(x: nat, lo: nat, hi: nat) { lo <= x < hi }

  /** Edges start at the entry or inside, and end inside or, off the frontier, at the exit. */
  ghost predicate Contained(f: Frag, entry: seq<nat>, lo: nat, hi: nat, exit: nat) {
    && (forall e :: e in f.edges ==> e.0 in entry || Inside(e.0, lo, hi))
    && (forall e :: e in f.edges && !Inside(e.1, lo, hi) ==>
          e.1 == exit && Inside(e.0, lo, hi) && e.0 !in f.last)
  }

  ghost predicate Shaped(f: Frag, entry: seq<nat>, lo: nat, hi: nat, exit: nat, opens: bool) {
    && Contained(f, entry, lo, hi, exit)
    && (f.last != [] <==> opens)
    && (forall x :: x in f.last ==> x in entry || Inside(x, lo, hi))
  }

  lemma LoopShaped(n: nat, entry: seq<nat>, b: Frag, hi: nat, exit: nat, opens: bool)
    requires Below(entry, n) && exit < n < hi
    requires Shaped(b, [n], n + 1, hi, exit, opens) && (n + 1 == hi ==> b.last == [n])
    ensures Shaped(LoopFrag(n, entry, b), entry, n, hi, exit, true)
  {
    assert b.last != [] ==> b.last[0] in b.last;
  }

  lemma IfCombines(n: nat, entry: seq<nat>, t: Frag, hi: nat, exit: nat, opens: bool)
    requires Below(entry, n) && exit < n < hi
    requires Shaped(t, [n], n + 1, hi, exit, opens) && (n + 1 == hi ==> t.last == [n])
    ensures Shaped(Frag(Into(entry, n) + t.edges + Labelled(n, t.last), t.last + [n]),
                   entry, n, hi, exit, true)
  {
    assert t.last != [] ==> t.last[0] in t.last;
  }

  lemma IfElseCombines(n: nat, entry: seq<nat>, t: Frag, e: Frag, m: nat, hi: nat, exit: nat,
                       thnOpens: bool, elsOpens: bool)
    requires Below(entry, n) && exit < n < m <= hi
    requires Shaped(t, [n], n + 1, m, exit, thnOpens) && (n + 1 == m ==> t.last == [n])
    requires Shaped(e, [n], m, hi, exit, elsOpens) && (m == hi ==> e.last == [n])
    ensures Shaped(Frag(Into(entry, n) + t.edges + Labelled(n, t.last) + e.edges + Labelled(n, e.last),
                        t.last + e.last),
                   entry, n, hi, exit, thnOpens || elsOpens)
  {
    assert t.last != [] ==> t.last[0] in t.last;
    assert e.last != [] ==> e.last[0] in e.last;
  }

  lemma SeqCombines(f: Frag, r: Frag, entry: seq<nat>, n: nat, m: nat, hi: nat, exit: nat,
                    opens: bool, restOpens: bool)
    requires Below(entry, n) && exit < n <= m <= hi
    requires Shaped(f, entry, n, m, exit, opens) && (n == m ==> f.last == [entry[0]])
    requires opens && Shaped(r, f.last, m, hi, exit, restOpens)
    requires m == hi ==> r.last == [f.last[0]]
    ensures Shaped(Frag(f.edges + r.edges, r.last), entry, n, hi, exit, restOpens)
  {
    assert f.last[0] in f.last && entry[0] in entry;
  }

  lemma CasesCombine(b: Frag, r: Frag, switch: nat, n: nat, m: nat, hi: nat, exit: nat,
                     opens: bool, restOpens: bool)
    requires switch < n && exit < n < m <= hi
    requires Shaped(b, [n], n + 1, m, exit, opens) && (n + 1 == m ==> b.last == [n])
    requires Shaped(r, [switch], m, hi, exit, restOpens)
    requires forall x :: x in r.last ==> Inside(x, m, hi)
    ensures Shaped(Frag({(switch, n)} + b.edges + r.edges, b.last + r.last), [switch], n, hi, exit,
                   opens || restOpens)
  {
  }

  lemma {:induction false} StmtShaped(s: Stmt, n: nat, entry: seq<nat>, exit: nat)
    requires Ordered(s) && Below(entry, n) && exit < n
    ensures Shaped(StmtFrag(s, n, entry, exit), entry, n, n + Size(s), exit, Open(s))
    ensures Size(s) == 0 ==> StmtFrag(s, n, entry, exit).last == [entry[0]]
    decreases s
  {
    match s
    case Simple =>
    case Return =>
    case If(_, _) => IfShaped(s, n, entry, exit);
    case While(body) => LoopStmtShaped(s, body, n, entry, exit);
    case For(body) => LoopStmtShaped(s, body, n, entry, exit);
    case Switch(_) => SwitchShaped(s, n, entry, exit);
    case Block(_) => BlockShaped(s, n, entry, exit);
    case Try(_, _, _) => TryShaped(s, n, entry, exit);
  }

  lemma {:induction false} LoopStmtShaped(s: Stmt, body: Stmt, n: nat, entry: seq<nat>, exit: nat)
    requires (s == While(body) || s == For(body)) && Ordered(s) && Below(entry, n) && exit < n
    ensures Shaped(StmtFrag(s, n, entry, exit), entry, n, n + Size(s), exit, Open(s))
    ensures Size(s) != 0
    decreases s, 0
  {
    hide StmtFrag, LoopFrag, Layout, Shaped;
    LoopUnfolds(s, body, n, entry, exit);
    StmtShaped(body, n + 1, [n], exit);
    LoopShaped(n, entry, StmtFrag(body, n + 1, [n], exit), n + Size(s), exit, Open(body));
  }

  lemma {:induction false} BlockShaped(s: Stmt, n: nat, entry: seq<nat>, exit: nat)
    requires s.Block? && Ordered(s) && Below(entry, n) && exit < n
    ensures Shaped(StmtFrag(s, n, entry, exit), entry, n, n + Size(s), exit, Open(s))
    ensures Size(s) == 0 ==> StmtFrag(s, n, entry, exit).last == [entry[0]]
    decreases s, 0
  {
    assert entry[0] in entry;
    SeqShaped(s.stmts, n, [entry[0]], exit);
  }

  lemma {:induction false} TryShaped(s: Stmt, n: nat, entry: seq<nat>, exit: nat)
    requires s.Try? && Ordered(s) && Below(entry, n) && exit < n
    ensures Shaped(StmtFrag(s, n, entry, exit), entry, n, n + Size(s), exit, Open(s))
    ensures Size(s) == 0 ==> StmtFrag(s, n, entry, exit).last == [entry[0]]
    decreases s, 0
  {
    hide StmtFrag, SeqFrag, CatchesFrag, Layout, LayoutSeq, LayoutCatches, Shaped;
    var k := n + SizeSeq(s.block);
    var m := k + SizeCatches(s.catches);
    assert entry[0] in entry;
    TryLayout(s);
    TryUnfolds(s, n, entry, exit);
    SeqShaped(s.block, n, [entry[0]], exit);
    CatchesShaped(s.catches, k, entry, exit);
    var b := SeqFrag(s.block, n, [entry[0]], exit);
    var c := CatchesFrag(s.catches, k, entry, exit);
    TryCombines(b, c, entry, n, k, m, exit, OpenSeq(s.block), OpenCatches(s.catches));
    if s.fin != [] {
      SeqShaped(s.fin, m + 1, [m], exit);
      FinallyCombines(Frag(b.edges + c.edges, b.last + c.last), SeqFrag(s.fin, m + 1, [m], exit),
                      entry, n, m, n + Size(s), exit,
                      OpenSeq(s.block) || OpenCatches(s.catches), OpenSeq(s.fin));
    }
  }

  lemma TryCombines(b: Frag, c: Frag, entry: seq<nat>, n: nat, k: nat, m: nat, exit: nat,
                    blockOpens: bool, catchOpens: bool)
    requires Below(entry, n) && exit < n <= k <= m
    requires Shaped(b, [entry[0]], n, k, exit, blockOpens) && (n == k ==> b.last == [entry[0]])
    requires Shaped(c, entry, k, m, exit, catchOpens) && (k == m ==> c.last == [])
    requires forall x :: x in c.last ==> Inside(x, k, m)
    ensures Shaped(Frag(b.edges + c.edges, b.last + c.last), entry, n, m, exit,
                   blockOpens || catchOpens)
  {
    assert entry[0] in entry;
  }

  lemma FinallyCombines(t: Frag, f: Frag, entry: seq<nat>, n: nat, m: nat, hi: nat, exit: nat,
                        tryOpens: bool, opens: bool)
    requires Below(entry, n) && exit < n <= m < hi
    requires Shaped(t, entry, n, m, exit, tryOpens)
    requires Shaped(f, [m], m + 1, hi, exit, opens) && (m + 1 == hi ==> f.last == [m])
    ensures Shaped(Frag(t.edges + Into(t.last, m) + f.edges, f.last), entry, n, hi, exit, opens)
  {
  }

  lemma {:induction false} CatchesShaped(cs: seq<Catch>, n: nat, entry: seq<nat>, exit: nat)
    requires OrderedCatches(cs) && Below(entry, n) && exit < n
    ensures Shaped(CatchesFrag(cs, n, entry, exit), entry, n, n + SizeCatches(cs), exit,
                   OpenCatches(cs))
    ensures SizeCatches(cs) == 0 ==> CatchesFrag(cs, n, entry, exit).last == []
    ensures forall x :: x in CatchesFrag(cs, n, entry, exit).last ==> Inside(x, n, n + SizeCatches(cs))
    decreases cs
  {
    hide CatchesFrag, SeqFrag, LayoutCatches, LayoutSeq, Shaped;
    if cs == [] {
      NoCatches(n, entry, exit);
      NothingShaped(entry, n, exit);
    } else {
      var m := n + 1 + SizeSeq(cs[0].body);
      assert cs[0..] == cs;
      CatchesUnfold(cs, 0, n, entry, exit);
      SeqShaped(cs[0].body, n + 1, [n], exit);
      CatchesShaped(cs[1..], m, entry, exit);
      RightIn(SeqFrag(cs[0].body, n + 1, [n], exit), n, m, exit, OpenSeq(cs[0].body));
      CatchesCombine(SeqFrag(cs[0].body, n + 1, [n], exit), CatchesFrag(cs[1..], m, entry, exit),
                     entry, n, m, n + SizeCatches(cs), exit,
                     OpenSeq(cs[0].body), OpenCatches(cs[1..]));
    }
  }

  lemma NothingShaped(entry: seq<nat>, n: nat, exit: nat)
    ensures Shaped(Frag({}, []), entry, n, n, exit, false)
  {
  }

  /** The frontier of a fragment entered from its own first node is its own. */
  lemma RightIn(b: Frag, n: nat, m: nat, exit: nat, opens: bool)
    requires n < m && Shaped(b, [n], n + 1, m, exit, opens)
    ensures forall x :: x in b.last ==> Inside(x, n, m)
  {
  }

  lemma CatchesCombine(b: Frag, r: Frag, entry: seq<nat>, n: nat, m: nat, hi: nat, exit: nat,
                       opens: bool, restOpens: bool)
    requires Below(entry, n) && exit < n < m <= hi
    requires Shaped(b, [n], n + 1, m, exit, opens) && (n + 1 == m ==> b.last == [n])
    requires Shaped(r, entry, m, hi, exit, restOpens)
    requires forall x :: x in r.last ==> Inside(x, m, hi)
    ensures Shaped(Frag(Into(entry, n) + b.edges + r.edges, b.last + r.last), entry, n, hi, exit,
                   opens || restOpens)
  {
  }

  lemma {:induction false} SwitchShaped(s: Stmt, n: nat, entry: seq<nat>, exit: nat)
    requires s.Switch? && Ordered(s) && Below(entry, n) && exit < n
    ensures Shaped(StmtFrag(s, n, entry, exit), entry, n, n + Size(s), exit, Open(s))
    ensures Size(s) != 0
    decreases s, 0
  {
    hide CasesFrag, LayoutCases, Shaped;
    CasesShaped(s.cases, n + 1, n, exit);
    SwitchCombines(n, entry, CasesFrag(s.cases, n + 1, n, exit), n + Size(s), exit, OpenCases(s.cases));
  }

  lemma SwitchCombines(n: nat, entry: seq<nat>, c: Frag, hi: nat, exit: nat, opens: bool)
    requires Below(entry, n) && exit < n < hi && Shaped(c, [n], n + 1, hi, exit, opens)
    requires forall x :: x in c.last ==> Inside(x, n + 1, hi)
    ensures Shaped(Frag(Into(entry, n) + c.edges, if c.last == [] then [n] else c.last),
                   entry, n, hi, exit, true)
  {
  }

  lemma {:induction false} IfShaped(s: Stmt, n: nat, entry: seq<nat>, exit: nat)
    requires s.If? && Ordered(s) && Below(entry, n) && exit < n
    ensures Shaped(StmtFrag(s, n, entry, exit), entry, n, n + Size(s), exit, Open(s))
    ensures Size(s) != 0
    decreases s, 0
  {
    hide StmtFrag, Layout, Shaped;
    var t := StmtFrag(s.thn, n + 1, [n], exit);
    StmtShaped(s.thn, n + 1, [n], exit);
    if s.els.Some? {
      var m := n + 1 + Size(s.thn);
      StmtShaped(s.els.value, m, [n], exit);
      IfElseUnfolds(s, n, entry, exit);
      IfElseCombines(n, entry, t, StmtFrag(s.els.value, m, [n], exit), m, n + Size(s), exit,
                     Open(s.thn), Open(s.els.value));
    } else {
      IfUnfolds(s, n, entry, exit);
      IfCombines(n, entry, t, n + Size(s), exit, Open(s.thn));
    }
  }

  lemma {:induction false} SeqShaped(ss: seq<Stmt>, n: nat, entry: seq<nat>, exit: nat)
    requires OrderedSeq(ss) && Below(entry, n) && exit < n
    ensures Shaped(SeqFrag(ss, n, entry, exit), entry, n, n + SizeSeq(ss), exit, OpenSeq(ss))
    ensures SizeSeq(ss) == 0 ==>
              SeqFrag(ss, n, entry, exit).last == if ss == [] then entry else [entry[0]]
    decreases ss
  {
    if ss != [] {
      var f := StmtFrag(ss[0], n, entry, exit);
      var m := n + Size(ss[0]);
      StmtShaped(ss[0], n, entry, exit);
      if ss[1..] != [] {
        assert entry[0] in entry;
        SeqShaped(ss[1..], m, f.last, exit);
        SeqCombines(f, SeqFrag(ss[1..], m, f.last, exit), entry, n, m, n + SizeSeq(ss), exit,
                    Open(ss[0]), OpenSeq(ss[1..]));
      } else {
        assert SeqFrag(ss[1..], m, f.last, exit) == Frag({}, f.last) && OpenSeq(ss[1..]);
        assert SeqFrag(ss, n, entry, exit) == Frag(f.edges, f.last);
        assert LayoutSeq(ss) == Layout(ss[0]) + LayoutSeq(ss[1..]) && LayoutSeq(ss[1..]) == [];
        assert SizeSeq(ss) == Size(ss[0]);
      }
    }
  }

  lemma {:induction false} CasesShaped(cs: seq<Case>, n: nat, switch: nat, exit: nat)
    requires OrderedCases(cs) && switch < n && exit < n
    ensures Shaped(CasesFrag(cs, n, switch, exit), [switch], n, n + SizeCases(cs), exit,
                   OpenCases(cs))
    ensures forall x :: x in CasesFrag(cs, n, switch, exit).last ==> Inside(x, n, n + SizeCases(cs))
    decreases cs
  {
    hide CasesFrag, SeqFrag, LayoutCases, LayoutSeq, Shaped;
    if cs == [] {
      NoCases(n, switch, exit);
      NothingShaped([switch], n, exit);
    } else {
      var m := n + 1 + SizeSeq(cs[0].body);
      assert cs[0..] == cs;
      CasesUnfold(cs, 0, n, switch, exit);
      SeqShaped(cs[0].body, n + 1, [n], exit);
      CasesShaped(cs[1..], m, switch, exit);
      RightIn(SeqFrag(cs[0].body, n + 1, [n], exit), n, m, exit, OpenSeq(cs[0].body));
      CasesCombine(SeqFrag(cs[0].body, n + 1, [n], exit), CasesFrag(cs[1..], m, switch, exit),
                   switch, n, m, n + SizeCases(cs), exit,
                   OpenSeq(cs[0].body), OpenCases(cs[1..]));
    }
  }
}
