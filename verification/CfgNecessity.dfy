/**
 The simulation condition is exact: in a method without unreachable statements,
 every execution is a walk of the graph if and only if the method is clean.
 */
module CfgNecessity {
  import opened Wrappers
  import opened Cfg
  import opened CfgSimulation
  import opened CfgFrontier

  /** A statement built without `try`. */
  predicate TryFree(s: Stmt)
    decreases s
  {
    match s
    case Simple => true
    case Return => true
    case If(thn, els) => TryFree(thn) && (els.Some? ==> TryFree(els.value))
    case While(body) => TryFree(body)
    case For(body) => TryFree(body)
    case Switch(cases) => TryFreeCases(cases)
    case Block(stmts) => TryFreeSeq(stmts)
    case Try(_, _, _) => false
  }

  predicate TryFreeSeq(ss: seq<Stmt>)
    decreases ss
  {
    ss == [] || (TryFree(ss[0]) && TryFreeSeq(ss[1..]))
  }

  predicate TryFreeCases(cs: seq<Case>)
    decreases cs
  {
    cs == [] || (TryFreeSeq(cs[0].body) && TryFreeCases(cs[1..]))
  }

  /** Legal code without `try`. */
  predicate Live(s: Stmt) {
    Legal(s) && TryFree(s)
  }

  predicate LiveSeq(ss: seq<Stmt>) {
    LegalSeq(ss) && TryFreeSeq(ss)
  }

  predicate LiveCases(cs: seq<Case>) {
    LegalCases(cs) && TryFreeCases(cs)
  }

  /** A statement that can complete has ends, if executions come to it at all. */
  lemma {:induction false} CompletesHasEnds(s: Stmt, n: nat, live: set<nat>)
    requires TryFree(s) && Completes(s) && live != {}
    ensures Ends(s, n, live) != {}
    decreases s
  {
    match s
    case Simple => assert n in Ends(s, n, live);
    case While(_) => assert n in Ends(s, n, live);
    case For(_) => assert n in Ends(s, n, live);
    case If(thn, els) =>
      assert n in {n};
      if Completes(thn) {
        CompletesHasEnds(thn, n + 1, {n});
      } else if els.None? {
        assert n in Ends(s, n, live);
      } else {
        CompletesHasEnds(els.value, n + 1 + Size(thn), {n});
      }
    case Switch(cases) =>
      if HasDefault(cases) {
        CompletesCasesHaveEnds(cases, n + 1);
      } else {
        assert n in Ends(s, n, live);
      }
    case Block(stmts) => CompletesSeqHasEnds(stmts, n, live);
  }

  lemma {:induction false} CompletesSeqHasEnds(ss: seq<Stmt>, n: nat, live: set<nat>)
    requires TryFreeSeq(ss) && CompletesSeq(ss) && live != {}
    ensures EndsSeq(ss, n, live) != {}
    decreases ss
  {
    if ss != [] {
      CompletesHasEnds(ss[0], n, live);
      CompletesSeqHasEnds(ss[1..], n + Size(ss[0]), Ends(ss[0], n, live));
    }
  }

  lemma {:induction false} CompletesCasesHaveEnds(cs: seq<Case>, n: nat)
    requires TryFreeCases(cs) && CompletesCases(cs)
    ensures EndsCases(cs, n) != {}
    decreases cs
  {
    if CompletesSeq(cs[0].body) {
      assert n in {n};
      CompletesSeqHasEnds(cs[0].body, n + 1, {n});
    } else {
      CompletesCasesHaveEnds(cs[1..], n + 1 + SizeSeq(cs[0].body));
    }
  }

  /** In a clean statement the ends are among the nodes left open. */
  lemma {:induction false} EndsAreOpen(s: Stmt, n: nat, entry: seq<nat>, live: set<nat>, exit: nat)
    requires Clean(s, n, entry, live, exit) && forall p :: p in live ==> p in entry
    ensures forall x :: x in Ends(s, n, live) ==> x in StmtFrag(s, n, entry, exit).last
    decreases s, 1
  {
    match s
    case Simple =>
    case Return =>
    case While(_) =>
    case For(_) =>
    case If(_, _) => IfEndsAreOpen(s, n, entry, live, exit);
    case Switch(cases) =>
      hide CasesFrag;
      CasesEndsAreOpen(cases, n + 1, n, exit);
    case Block(stmts) =>
      hide SeqFrag;
      SeqEndsAreOpen(stmts, n, [Pick(entry, exit)], live, exit);
  }

  lemma {:induction false} IfEndsAreOpen(s: Stmt, n: nat, entry: seq<nat>, live: set<nat>, exit: nat)
    requires s.If? && Clean(s, n, entry, live, exit)
    ensures forall x :: x in Ends(s, n, live) ==> x in StmtFrag(s, n, entry, exit).last
    decreases s, 0
  {
    hide StmtFrag, Layout;
    EndsAreOpen(s.thn, n + 1, [n], {n}, exit);
    if s.els.Some? {
      IfElseUnfolds(s, n, entry, exit);
      EndsAreOpen(s.els.value, n + 1 + Size(s.thn), [n], {n}, exit);
    } else {
      IfUnfolds(s, n, entry, exit);
    }
  }

  lemma {:induction false} SeqEndsAreOpen(
      ss: seq<Stmt>, n: nat, entry: seq<nat>, live: set<nat>, exit: nat)
    requires CleanSeq(ss, n, entry, live, exit) && forall p :: p in live ==> p in entry
    ensures forall x :: x in EndsSeq(ss, n, live) ==> x in SeqFrag(ss, n, entry, exit).last
    decreases ss
  {
    if ss != [] {
      EndsAreOpen(ss[0], n, entry, live, exit);
      SeqEndsAreOpen(ss[1..], n + Size(ss[0]), StmtFrag(ss[0], n, entry, exit).last,
                     Ends(ss[0], n, live), exit);
    }
  }

  lemma {:induction false} CasesEndsAreOpen(cs: seq<Case>, n: nat, switch: nat, exit: nat)
    requires CleanCases(cs, n, exit)
    ensures forall x :: x in EndsCases(cs, n) ==> x in CasesFrag(cs, n, switch, exit).last
    decreases cs
  {
    if cs != [] {
      SeqEndsAreOpen(cs[0].body, n + 1, [n], {n}, exit);
      CasesEndsAreOpen(cs[1..], n + 1 + SizeSeq(cs[0].body), switch, exit);
    }
  }

  /** A statement that owns nodes runs past its end at one of them. */
  lemma {:induction false} EndsInside(s: Stmt, n: nat, live: set<nat>)
    requires Size(s) != 0
    ensures forall x :: x in Ends(s, n, live) ==> Inside(x, n, n + Size(s))
  {
    if live != {} {
      forall x | x in Ends(s, n, live) ensures Inside(x, n, n + Size(s)) {
        var r, p := RunTo(s, n, live, x);
        TraceInRange(s, n, r);
        TraceNotEmpty(s, n, r);
        assert x in Trace(s, n, r);
      }
    }
  }

  /** Only a statement without nodes is run without visiting any. */
  lemma {:induction false} TraceNotEmpty(s: Stmt, n: nat, r: Run)
    requires Fits(s, r) && !Returns(r) && Size(s) != 0
    ensures Trace(s, n, r) != []
    decreases r, s
  {
    if s.Block? { SeqTraceNotEmpty(s.stmts, n, r); }
  }

  lemma {:induction false} SeqTraceNotEmpty(ss: seq<Stmt>, n: nat, r: Run)
    requires FitsSeq(ss, r) && !Returns(r) && SizeSeq(ss) != 0
    ensures TraceSeq(ss, n, r) != []
    decreases r, ss
  {
    if Size(ss[0]) != 0 {
      TraceNotEmpty(ss[0], n, r.first);
    } else {
      SeqTraceNotEmpty(ss[1..], n + Size(ss[0]), r.rest);
    }
  }

  // ------------------------------------------------------- runs that exist

  /** Every `try`-free live statement has an execution. */
  lemma {:induction false} SomeRun(s: Stmt) returns (r: Run)
    requires Live(s)
    ensures Fits(s, r)
    decreases s
  {
    match s
    case Simple => r := Step;
    case Return => r := Stop;
    case If(thn, _) =>
      var t := SomeRun(thn);
      r := Take(true, t);
    case While(_) => r := Done;
    case For(_) => r := Done;
    case Switch(cases) =>
      if HasDefault(cases) {
        assert cases != [] && LegalCases(cases) && TryFreeCases(cases);
        var b := SomeSeqRun(cases[0].body);
        r := PickCase(0, b);
      } else {
        r := Skip;
      }
    case Block(stmts) => r := SomeSeqRun(stmts);
  }

  lemma {:induction false} SomeSeqRun(ss: seq<Stmt>) returns (r: Run)
    requires LiveSeq(ss)
    ensures FitsSeq(ss, r)
    decreases ss
  {
    if ss == [] { return Done; }
    var first := SomeRun(ss[0]);
    if Returns(first) { return Then(first, Done); }
    var rest := SomeSeqRun(ss[1..]);
    r := Then(first, rest);
  }

  /** Each of a statement's ends is where some execution runs past it. */
  lemma {:induction false} RunTo(s: Stmt, n: nat, live: set<nat>, x: nat) returns (r: Run, p: nat)
    requires x in Ends(s, n, live)
    ensures p in live && Fits(s, r) && !Returns(r) && End(p, Trace(s, n, r)) == x
    decreases s
  {
    p :| p in live;
    match s
    case Simple => r := Step;
    case While(_) => r := Done;
    case For(_) => r := Done;
    case If(thn, els) => r := IfRunTo(s, n, live, x, p);
    case Switch(cases) =>
      if x == n && !HasDefault(cases) {
        r := Skip;
      } else {
        var i, b := CaseRunTo(cases, n + 1, x);
        r := PickCase(i, b);
        PickEnds(s, n, p, i, b);
      }
    case Block(stmts) => r, p := SeqRunTo(stmts, n, live, x);
  }

  lemma {:induction false} IfRunTo(s: Stmt, n: nat, live: set<nat>, x: nat, p: nat) returns (r: Run)
    requires s.If? && x in Ends(s, n, live)
    ensures Fits(s, r) && !Returns(r) && End(p, Trace(s, n, r)) == x
    decreases s, 0
  {
    if x in Ends(s.thn, n + 1, {n}) {
      var sub, q := RunTo(s.thn, n + 1, {n}, x);
      r := Take(true, sub);
      TakeEnds(s, n, p, r);
    } else if s.els.None? {
      r := Skip;
    } else {
      var sub, q := RunTo(s.els.value, n + 1 + Size(s.thn), {n}, x);
      r := Take(false, sub);
      TakeEnds(s, n, p, r);
    }
  }

  /** Taking a branch ends where the branch does. */
  lemma TakeEnds(s: Stmt, n: nat, p: nat, r: Run)
    requires s.If? && r.Take?
    requires if r.thn then Fits(s.thn, r.sub) else s.els.Some? && Fits(s.els.value, r.sub)
    ensures Fits(s, r) && (Returns(r) <==> Returns(r.sub))
    ensures End(p, Trace(s, n, r))
            == End(n, if r.thn then Trace(s.thn, n + 1, r.sub)
                      else Trace(s.els.value, n + 1 + Size(s.thn), r.sub))
  {
    hide Layout;
    WalkCons({}, p, n, if r.thn then Trace(s.thn, n + 1, r.sub)
                       else Trace(s.els.value, n + 1 + Size(s.thn), r.sub));
  }

  /** Picking a case ends where the case does. */
  lemma PickEnds(s: Stmt, n: nat, p: nat, i: nat, b: Run)
    requires s.Switch? && i < |s.cases| && FitsSeq(s.cases[i].body, b)
    ensures var r := PickCase(i, b);
            var m := CaseStart(s.cases, n + 1, i);
            && Fits(s, r) && (Returns(r) <==> Returns(b))
            && End(p, Trace(s, n, r)) == End(m, TraceSeq(s.cases[i].body, m + 1, b))
  {
    hide FitsSeq, TraceSeq;
    var m := CaseStart(s.cases, n + 1, i);
    var tr := TraceSeq(s.cases[i].body, m + 1, b);
    WalkCons({}, n, m, tr);
    WalkCons({}, p, n, [m] + tr);
    assert [n, m] + tr == [n] + ([m] + tr);
  }

  lemma {:induction false} SeqRunTo(ss: seq<Stmt>, n: nat, live: set<nat>, x: nat)
    returns (r: Run, p: nat)
    requires x in EndsSeq(ss, n, live)
    ensures p in live && FitsSeq(ss, r) && !Returns(r) && End(p, TraceSeq(ss, n, r)) == x
    decreases ss
  {
    if ss == [] { return Done, x; }
    var rest, mid := SeqRunTo(ss[1..], n + Size(ss[0]), Ends(ss[0], n, live), x);
    var first, start := RunTo(ss[0], n, live, mid);
    r, p := Then(first, rest), start;
    WalkConcat({}, p, Trace(ss[0], n, first), TraceSeq(ss[1..], n + Size(ss[0]), rest));
  }

  lemma {:induction false} CaseRunTo(cs: seq<Case>, n: nat, x: nat) returns (i: nat, r: Run)
    requires x in EndsCases(cs, n)
    ensures i < |cs| && FitsSeq(cs[i].body, r) && !Returns(r)
    ensures var m := CaseStart(cs, n, i); End(m, TraceSeq(cs[i].body, m + 1, r)) == x
    decreases cs
  {
    if x in EndsSeq(cs[0].body, n + 1, {n}) {
      var b, p := SeqRunTo(cs[0].body, n + 1, {n}, x);
      i, r := 0, b;
    } else {
      var j, b := CaseRunTo(cs[1..], n + 1 + SizeSeq(cs[0].body), x);
      i, r := j + 1, b;
    }
  }

  // ------------------------------------------------------------- necessity

  /** Every edge of `g` leaving `x` stays between `lo` and `hi`. */
  ghost predicate Stuck(g: set<Edge>, x: nat, lo: nat, hi: nat) {
    Inside(x, lo, hi) && forall e :: e in g && e.0 == x ==> Inside(e.1, lo, hi)
  }

  /** The trace leaves the graph already, or will with whatever node it visits next. */
  ghost predicate Derails(g: set<Edge>, p: nat, tr: seq<nat>, returning: bool, lo: nat, hi: nat) {
    !Walk(g, p, tr) || (!returning && Stuck(g, End(p, tr), lo, hi))
  }

  /** `g` adds to the fragment's own edges only edges leaving its frontier. */
  ghost predicate Extends(g: set<Edge>, f: Frag, lo: nat, hi: nat) {
    forall e :: e in g && Inside(e.0, lo, hi) ==> e in f.edges || e.0 in f.last
  }

  lemma DerailsWider(g: set<Edge>, p: nat, tr: seq<nat>, returning: bool, lo: nat, hi: nat, lo': nat, hi': nat)
    requires Derails(g, p, tr, returning, lo, hi) && lo' <= lo && hi <= hi'
    ensures Derails(g, p, tr, returning, lo', hi')
  {
  }

  /** A trace that derails from `x` derails when reached from `p`. */
  lemma DerailsCons(g: set<Edge>, p: nat, x: nat, tr: seq<nat>, returning: bool,
                    lo: nat, hi: nat, lo': nat, hi': nat)
    requires Derails(g, x, tr, returning, lo, hi) && lo' <= lo && hi <= hi'
    ensures Derails(g, p, [x] + tr, returning, lo', hi')
  {
    WalkCons(g, p, x, tr);
  }

  lemma StuckDerails(g: set<Edge>, p: nat, x: nat, lo: nat, hi: nat)
    requires Stuck(g, x, lo, hi)
    ensures Derails(g, p, [x], false, lo, hi)
  {
  }

  lemma DerailsOn(g: set<Edge>, p: nat, a: seq<nat>, b: seq<nat>, lo: nat, mid: nat, hi: nat)
    requires Derails(g, p, a, false, lo, mid) && mid <= hi
    requires b != [] ==> !Inside(b[0], lo, mid)
    ensures Derails(g, p, a + b, false, lo, hi)
    ensures b != [] ==> !Walk(g, p, a + b)
  {
    WalkConcat(g, p, a, b);
    if b == [] { assert a + b == a; }
  }

  // What the whole graph adds to a fragment, it adds to each part of it.

  lemma SeqSplits(g: set<Edge>, f: Frag, r: Frag, entry: seq<nat>, n: nat, m: nat, hi: nat, exit: nat,
                  opens: bool, restOpens: bool)
    requires Below(entry, n) && exit < n <= m <= hi
    requires Shaped(f, entry, n, m, exit, opens) && Shaped(r, f.last, m, hi, exit, restOpens)
    requires Extends(g, Frag(f.edges + r.edges, r.last), n, hi)
    ensures Extends(g, f, n, m) && Extends(g, r, m, hi)
  {
  }

  lemma LoopSplits(g: set<Edge>, b: Frag, entry: seq<nat>, n: nat, hi: nat, exit: nat, opens: bool)
    requires Below(entry, n) && exit < n < hi
    requires Shaped(b, [n], n + 1, hi, exit, opens)
    requires Extends(g, LoopFrag(n, entry, b), n, hi)
    ensures Extends(g, b, n + 1, hi)
  {
  }

  lemma IfSplits(g: set<Edge>, t: Frag, entry: seq<nat>, n: nat, hi: nat, exit: nat, opens: bool)
    requires Below(entry, n) && exit < n < hi
    requires Shaped(t, [n], n + 1, hi, exit, opens)
    requires Extends(g, Frag(Into(entry, n) + t.edges + Labelled(n, t.last), t.last + [n]), n, hi)
    ensures Extends(g, t, n + 1, hi)
  {
  }

  lemma IfElseSplits(g: set<Edge>, t: Frag, e: Frag, entry: seq<nat>, n: nat, m: nat, hi: nat, exit: nat,
                     thnOpens: bool, elsOpens: bool)
    requires Below(entry, n) && exit < n < m <= hi
    requires Shaped(t, [n], n + 1, m, exit, thnOpens) && Shaped(e, [n], m, hi, exit, elsOpens)
    requires Extends(g, Frag(Into(entry, n) + t.edges + Labelled(n, t.last) + e.edges + Labelled(n, e.last),
                             t.last + e.last), n, hi)
    ensures Extends(g, t, n + 1, m) && Extends(g, e, m, hi)
  {
  }

  lemma CasesSplits(g: set<Edge>, b: Frag, r: Frag, switch: nat, n: nat, m: nat, hi: nat, exit: nat,
                    opens: bool, restOpens: bool)
    requires switch < n && exit < n < m <= hi
    requires Shaped(b, [n], n + 1, m, exit, opens) && Shaped(r, [switch], m, hi, exit, restOpens)
    requires Extends(g, Frag({(switch, n)} + b.edges + r.edges, b.last + r.last), n, hi)
    ensures Extends(g, b, n + 1, m) && Extends(g, r, m, hi)
  {
  }

  lemma SwitchSplits(g: set<Edge>, c: Frag, entry: seq<nat>, n: nat, hi: nat, exit: nat, opens: bool)
    requires Below(entry, n) && exit < n < hi
    requires Shaped(c, [n], n + 1, hi, exit, opens)
    requires forall x :: x in c.last ==> Inside(x, n + 1, hi)
    requires Extends(g, Frag(Into(entry, n) + c.edges, if c.last == [] then [n] else c.last), n, hi)
    ensures Extends(g, c, n + 1, hi)
    ensures c.last != [] ==> Stuck(g, n, n, hi)
  {
  }

  lemma {:induction false} SingletonSeq(ss: seq<Stmt>, n: nat, entry: seq<nat>, exit: nat)
    requires |ss| == 1
    ensures SeqFrag(ss, n, entry, exit) == StmtFrag(ss[0], n, entry, exit) && SizeSeq(ss) == Size(ss[0])
  {
    var f := StmtFrag(ss[0], n, entry, exit);
    assert SeqFrag(ss[1..], n + Size(ss[0]), f.last, exit) == Frag({}, f.last);
    assert LayoutSeq(ss) == Layout(ss[0]) + LayoutSeq(ss[1..]) && LayoutSeq(ss[1..]) == [];
  }

  lemma {:induction false} ReturnVisits(ss: seq<Stmt>, n: nat, r: Run)
    requires FitsSeq(ss, r) && Returns(r)
    ensures TraceSeq(ss, n, r) != []
    decreases r, ss
  {
    if Returns(r.first) {
      if ss[0].Block? { ReturnVisits(ss[0].stmts, n, r.first); }
    } else {
      ReturnVisits(ss[1..], n + Size(ss[0]), r.rest);
    }
  }

  lemma {:induction false} StmtDerails(
      s: Stmt, n: nat, entry: seq<nat>, live: set<nat>, exit: nat, g: set<Edge>)
    returns (r: Run, p: nat)
    requires Live(s) && Below(entry, n) && exit < n && !Clean(s, n, entry, live, exit)
    requires live != {} && forall q :: q in live ==> q in entry && (s.Block? ==> q == entry[0])
    requires Extends(g, StmtFrag(s, n, entry, exit), n, n + Size(s))
    ensures p in live && Fits(s, r) && Derails(g, p, Trace(s, n, r), Returns(r), n, n + Size(s))
    decreases s, 1
  {
    p :| p in live;
    match s
    case If(_, _) => r := IfDerails(s, n, entry, exit, g, p);
    case While(body) => r := LoopDerails(s, body, n, entry, exit, g, p);
    case For(body) => r := LoopDerails(s, body, n, entry, exit, g, p);
    case Switch(_) => r := SwitchDerails(s, n, entry, exit, g, p);
    case Block(stmts) =>
      assert entry[0] in entry;
      r, p := SeqDerails(stmts, n, [entry[0]], live, exit, g);
  }

  lemma {:induction false} IfDerails(
      s: Stmt, n: nat, entry: seq<nat>, exit: nat, g: set<Edge>, p: nat) returns (r: Run)
    requires s.If? && Live(s) && Below(entry, n) && exit < n && !Clean(s, n, entry, {p}, exit)
    requires Extends(g, StmtFrag(s, n, entry, exit), n, n + Size(s))
    ensures Fits(s, r) && Derails(g, p, Trace(s, n, r), Returns(r), n, n + Size(s))
    decreases s, 0
  {
    hide Extends, Stuck, StmtFrag, Layout, Live, Derails, Walk;
    var m, hi := n + 1 + Size(s.thn), n + Size(s);
    IfContext(s, n, entry, exit, g);
    if !Clean(s.thn, n + 1, [n], {n}, exit) {
      var sub, q := StmtDerails(s.thn, n + 1, [n], {n}, exit, g);
      r := Take(true, sub);
      DerailsCons(g, p, n, Trace(s.thn, n + 1, sub), Returns(sub), n + 1, m, n, hi);
    } else {
      var sub, q := StmtDerails(s.els.value, m, [n], {n}, exit, g);
      r := Take(false, sub);
      DerailsCons(g, p, n, Trace(s.els.value, m, sub), Returns(sub), m, hi, n, hi);
    }
  }

  lemma {:induction false} IfContext(s: Stmt, n: nat, entry: seq<nat>, exit: nat, g: set<Edge>)
    requires s.If? && Live(s) && Below(entry, n) && exit < n
    requires Extends(g, StmtFrag(s, n, entry, exit), n, n + Size(s))
    ensures var m := n + 1 + Size(s.thn);
            && m <= n + Size(s) && Live(s.thn)
            && Extends(g, StmtFrag(s.thn, n + 1, [n], exit), n + 1, m)
            && (s.els.Some? ==>
                  && n + Size(s) == m + Size(s.els.value) && Live(s.els.value)
                  && Extends(g, StmtFrag(s.els.value, m, [n], exit), m, n + Size(s)))
  {
    hide Extends, Shaped, StmtFrag, Layout;
    var m := n + 1 + Size(s.thn);
    LegalIsOrdered(s.thn);
    StmtShaped(s.thn, n + 1, [n], exit);
    if s.els.Some? {
      LegalIsOrdered(s.els.value);
      StmtShaped(s.els.value, m, [n], exit);
      IfElseUnfolds(s, n, entry, exit);
      IfElseSplits(g, StmtFrag(s.thn, n + 1, [n], exit), StmtFrag(s.els.value, m, [n], exit),
                   entry, n, m, n + Size(s), exit, Open(s.thn), Open(s.els.value));
    } else {
      IfUnfolds(s, n, entry, exit);
      IfSplits(g, StmtFrag(s.thn, n + 1, [n], exit), entry, n, n + Size(s), exit, Open(s.thn));
    }
  }

  lemma {:induction false} LoopDerails(
      s: Stmt, body: Stmt, n: nat, entry: seq<nat>, exit: nat, g: set<Edge>, p: nat) returns (r: Run)
    requires (s == While(body) || s == For(body)) && Live(s)
    requires Below(entry, n) && exit < n && !Clean(s, n, entry, {p}, exit)
    requires Extends(g, StmtFrag(s, n, entry, exit), n, n + Size(s))
    ensures Fits(s, r) && Derails(g, p, Trace(s, n, r), Returns(r), n, n + Size(s))
    decreases s, 0
  {
    hide Extends, Shaped, StmtFrag, LoopFrag, Layout, Derails, Stuck, Walk, Fits, Returns, Trace;
    var hi := n + Size(s);
    LoopUnfolds(s, body, n, entry, exit);
    LegalIsOrdered(body);
    StmtShaped(body, n + 1, [n], exit);
    LoopSplits(g, StmtFrag(body, n + 1, [n], exit), entry, n, hi, exit, Open(body));
    var sub, q := StmtDerails(body, n + 1, [n], {n}, exit, g);
    var tr := Trace(body, n + 1, sub);
    r := Then(sub, Done);
    LoopOnce(s, body, n, sub);
    if Returns(sub) {
      DerailsCons(g, p, n, tr, true, n + 1, hi, n, hi);
    } else {
      DerailsOn(g, n, tr, [n], n + 1, hi, hi);
      DerailsCons(g, p, n, tr + [n], false, n + 1, hi, n, hi);
    }
  }

  /** One round of a loop. */
  lemma LoopOnce(s: Stmt, body: Stmt, n: nat, sub: Run)
    requires (s == While(body) || s == For(body)) && Fits(body, sub)
    ensures var r := Then(sub, Done);
            && Fits(s, r) && (Returns(r) <==> Returns(sub))
            && Trace(s, n, r)
               == [n] + (if Returns(sub) then Trace(body, n + 1, sub) else Trace(body, n + 1, sub) + [n])
  {
    var r := Then(sub, Done);
    assert FitsLoop(body, Done) && TraceLoop(body, n, Done) == [];
    assert FitsLoop(body, r);
    assert !Returns(sub) ==> TraceLoop(body, n, r) == Trace(body, n + 1, sub) + [n];
  }

  lemma LiveSwitch(s: Stmt)
    requires s.Switch? && Live(s)
    ensures LiveCases(s.cases)
  {
  }

  lemma {:induction false} SwitchContext(s: Stmt, n: nat, entry: seq<nat>, exit: nat, g: set<Edge>)
    requires s.Switch? && Live(s) && Below(entry, n) && exit < n
    requires Extends(g, StmtFrag(s, n, entry, exit), n, n + Size(s))
    ensures n + Size(s) == n + 1 + SizeCases(s.cases)
    ensures Extends(g, CasesFrag(s.cases, n + 1, n, exit), n + 1, n + Size(s))
    ensures CasesFrag(s.cases, n + 1, n, exit).last != [] ==> Stuck(g, n, n, n + Size(s))
  {
    hide Extends, Shaped, Live, CasesFrag, LayoutCases;
    assert LiveCases(s.cases) by { hide StmtFrag, Layout; LiveSwitch(s); }
    LegalCasesOrdered(s.cases);
    CasesShaped(s.cases, n + 1, n, exit);
    SwitchSplits(g, CasesFrag(s.cases, n + 1, n, exit), entry, n, n + Size(s), exit,
                 OpenCases(s.cases));
  }

  lemma {:induction false} SwitchDerails(
      s: Stmt, n: nat, entry: seq<nat>, exit: nat, g: set<Edge>, p: nat) returns (r: Run)
    requires s.Switch? && Live(s) && Below(entry, n) && exit < n && !Clean(s, n, entry, {p}, exit)
    requires Extends(g, StmtFrag(s, n, entry, exit), n, n + Size(s))
    ensures Fits(s, r) && Derails(g, p, Trace(s, n, r), Returns(r), n, n + Size(s))
    decreases s, 0
  {
    hide Extends, Stuck, StmtFrag, CasesFrag, Derails, Walk, LayoutCases;
    SwitchContext(s, n, entry, exit, g);
    if !CleanCases(s.cases, n + 1, exit) {
      var i, sub := CaseDerails(s.cases, n + 1, n, exit, g);
      r := PickCase(i, sub);
      var m := CaseStart(s.cases, n + 1, i);
      var tr := TraceSeq(s.cases[i].body, m + 1, sub);
      DerailsCons(g, n, m, tr, Returns(sub), n + 1, n + Size(s), n, n + Size(s));
      DerailsCons(g, p, n, [m] + tr, Returns(sub), n, n + Size(s), n, n + Size(s));
      assert [n, m] + tr == [n] + ([m] + tr);
    } else {
      r := Skip;
      StuckDerails(g, p, n, n, n + Size(s));
    }
  }

  lemma {:induction false} CasesContext(cs: seq<Case>, n: nat, switch: nat, exit: nat, g: set<Edge>)
    requires cs != [] && LiveCases(cs) && switch < n && exit < n
    requires Extends(g, CasesFrag(cs, n, switch, exit), n, n + SizeCases(cs))
    ensures var m := n + 1 + SizeSeq(cs[0].body);
            && n + SizeCases(cs) == m + SizeCases(cs[1..])
            && Extends(g, SeqFrag(cs[0].body, n + 1, [n], exit), n + 1, m)
            && Extends(g, CasesFrag(cs[1..], m, switch, exit), m, n + SizeCases(cs))
  {
    hide Extends, CasesFrag, Shaped;
    var m := n + 1 + SizeSeq(cs[0].body);
    assert cs[0..] == cs;
    CasesUnfold(cs, 0, n, switch, exit);
    LegalSeqIsOrdered(cs[0].body);
    SeqShaped(cs[0].body, n + 1, [n], exit);
    LegalCasesOrdered(cs[1..]);
    CasesShaped(cs[1..], m, switch, exit);
    CasesSplits(g, SeqFrag(cs[0].body, n + 1, [n], exit), CasesFrag(cs[1..], m, switch, exit),
                switch, n, m, n + SizeCases(cs), exit,
                OpenSeq(cs[0].body), OpenCases(cs[1..]));
  }

  lemma {:induction false} CaseDerails(
      cs: seq<Case>, n: nat, switch: nat, exit: nat, g: set<Edge>) returns (i: nat, r: Run)
    requires LiveCases(cs) && switch < n && exit < n && !CleanCases(cs, n, exit)
    requires Extends(g, CasesFrag(cs, n, switch, exit), n, n + SizeCases(cs))
    ensures i < |cs| && FitsSeq(cs[i].body, r)
    ensures var m := CaseStart(cs, n, i);
            Derails(g, m, TraceSeq(cs[i].body, m + 1, r), Returns(r), n, n + SizeCases(cs))
    decreases cs
  {
    hide Extends, Stuck, CasesFrag, SeqFrag, Derails, LayoutCases, LayoutSeq, CompletesSeq;
    assert cs != [];
    var m := n + 1 + SizeSeq(cs[0].body);
    CasesContext(cs, n, switch, exit, g);
    if !CleanSeq(cs[0].body, n + 1, [n], {n}, exit) {
      i := 0;
      var b, p := SeqDerails(cs[0].body, n + 1, [n], {n}, exit, g);
      r := b;
      DerailsWider(g, n, TraceSeq(cs[0].body, n + 1, r), Returns(r), n + 1, m, n, n + SizeCases(cs));
    } else {
      var j, b := CaseDerails(cs[1..], m, switch, exit, g);
      i, r := j + 1, b;
      var k := CaseStart(cs[1..], m, j);
      DerailsWider(g, k, TraceSeq(cs[i].body, k + 1, r), Returns(r),
                   m, n + SizeCases(cs), n, n + SizeCases(cs));
    }
  }

  lemma {:induction false} SeqContext(ss: seq<Stmt>, n: nat, entry: seq<nat>, exit: nat, g: set<Edge>)
    requires ss != [] && LiveSeq(ss) && Below(entry, n) && exit < n
    requires Extends(g, SeqFrag(ss, n, entry, exit), n, n + SizeSeq(ss))
    ensures var f := StmtFrag(ss[0], n, entry, exit);
            var m := n + Size(ss[0]);
            && n + SizeSeq(ss) == m + SizeSeq(ss[1..])
            && Extends(g, f, n, m)
            && (ss[1..] != [] ==>
                  && Below(f.last, m)
                  && Extends(g, SeqFrag(ss[1..], m, f.last, exit), m, n + SizeSeq(ss)))
  {
    hide Extends;
    var f := StmtFrag(ss[0], n, entry, exit);
    var m := n + Size(ss[0]);
    LegalIsOrdered(ss[0]);
    StmtShaped(ss[0], n, entry, exit);
    assert entry[0] in entry;
    if |ss| == 1 {
      SingletonSeq(ss, n, entry, exit);
    } else {
      LegalSeqIsOrdered(ss[1..]);
      SeqShaped(ss[1..], m, f.last, exit);
      SeqSplits(g, f, SeqFrag(ss[1..], m, f.last, exit), entry, n, m, n + SizeSeq(ss), exit,
                Open(ss[0]), OpenSeq(ss[1..]));
    }
  }

  lemma DerailsAfter(g: set<Edge>, p: nat, a: seq<nat>, b: seq<nat>, returning: bool,
                     lo: nat, mid: nat, hi: nat)
    requires Derails(g, End(p, a), b, returning, mid, hi) && lo <= mid
    ensures Derails(g, p, a + b, returning, lo, hi)
  {
    WalkConcat(g, p, a, b);
  }

  lemma {:induction false} SeqDerails(
      ss: seq<Stmt>, n: nat, entry: seq<nat>, live: set<nat>, exit: nat, g: set<Edge>)
    returns (r: Run, p: nat)
    requires LiveSeq(ss) && Below(entry, n) && exit < n && !CleanSeq(ss, n, entry, live, exit)
    requires live != {} && forall q :: q in live ==> q in entry && (ss[0].Block? ==> q == entry[0])
    requires Extends(g, SeqFrag(ss, n, entry, exit), n, n + SizeSeq(ss))
    ensures p in live
    ensures FitsSeq(ss, r) && Derails(g, p, TraceSeq(ss, n, r), Returns(r), n, n + SizeSeq(ss))
    decreases ss
  {
    hide Extends, Stuck, SeqFrag, StmtFrag, Derails, Ends;
    var f := StmtFrag(ss[0], n, entry, exit);
    var m := n + Size(ss[0]);
    var ends := Ends(ss[0], n, live);
    SeqContext(ss, n, entry, exit, g);
    if !Clean(ss[0], n, entry, live, exit) {
      var first, q := StmtDerails(ss[0], n, entry, live, exit, g);
      r := ExtendDerailed(ss, n, g, first, q);
      p := q;
    } else {
      CompletesHasEnds(ss[0], n, live);
      EndsAreOpen(ss[0], n, entry, live, exit);
      if ss[1].Block? && exists b :: b in ends && b != f.last[0] {
        var b :| b in ends && b != f.last[0];
        DroppedNode(ss, n, entry, live, exit, g, b);
        var first, q := RunTo(ss[0], n, live, b);
        r := ExtendDerailed(ss, n, g, first, q);
        p := q;
      } else {
        var rest, mid := SeqDerails(ss[1..], m, f.last, ends, exit, g);
        var first, q := RunTo(ss[0], n, live, mid);
        r, p := Then(first, rest), q;
        DerailsAfter(g, p, Trace(ss[0], n, first), TraceSeq(ss[1..], m, rest),
                     Returns(rest), n, m, n + SizeSeq(ss));
      }
    }
  }

  /** A first statement that derails takes every completion of the list with it. */
  lemma {:induction false} ExtendDerailed(
      ss: seq<Stmt>, n: nat, g: set<Edge>, first: Run, p: nat) returns (r: Run)
    requires LiveSeq(ss) && ss != [] && Fits(ss[0], first)
    requires Derails(g, p, Trace(ss[0], n, first), Returns(first), n, n + Size(ss[0]))
    ensures FitsSeq(ss, r) && Derails(g, p, TraceSeq(ss, n, r), Returns(r), n, n + SizeSeq(ss))
  {
    if Returns(first) {
      r := Then(first, Done);
    } else {
      var m := n + Size(ss[0]);
      var rest := SomeSeqRun(ss[1..]);
      r := Then(first, rest);
      var tr := TraceSeq(ss[1..], m, rest);
      SeqInRange(ss[1..], m, rest);
      if Returns(rest) { ReturnVisits(ss[1..], m, rest); }
      assert tr != [] ==> tr[0] in tr;
      DerailsOn(g, p, Trace(ss[0], n, first), tr, n, m, n + SizeSeq(ss));
    }
  }

  /** An end that a following block is not entered from leads nowhere else. */
  lemma {:induction false} DroppedNode(
      ss: seq<Stmt>, n: nat, entry: seq<nat>, live: set<nat>, exit: nat, g: set<Edge>, b: nat)
    requires LiveSeq(ss) && |ss| > 1 && ss[1].Block? && Below(entry, n) && exit < n
    requires Clean(ss[0], n, entry, live, exit)
    requires forall q :: q in live ==> q in entry && (ss[0].Block? ==> q == entry[0])
    requires StmtFrag(ss[0], n, entry, exit).last != []
    requires b in Ends(ss[0], n, live) && b != StmtFrag(ss[0], n, entry, exit).last[0]
    requires Extends(g, SeqFrag(ss, n, entry, exit), n, n + SizeSeq(ss))
    ensures Stuck(g, b, n, n + Size(ss[0]))
  {
    hide Ends;
    var f := StmtFrag(ss[0], n, entry, exit);
    var m := n + Size(ss[0]);
    LegalIsOrdered(ss[0]);
    StmtShaped(ss[0], n, entry, exit);
    EndsAreOpen(ss[0], n, entry, live, exit);
    if Size(ss[0]) != 0 { EndsInside(ss[0], n, live); }
    var one := [f.last[0]];
    assert f.last[0] in f.last && b in f.last;
    assert SeqFrag(ss[1..], m, f.last, exit) == SeqFrag(ss[1..], m, one, exit);
    LegalSeqIsOrdered(ss[1..]);
    SeqShaped(ss[1..], m, one, exit);
  }

  /**
   Exactness: in legal code without `try`, every execution of a method is a walk of
   its graph if and only if the method is clean.
   */
  lemma {:induction false} SimulatesExactlyWhenClean(body: seq<Stmt>)
    requires LiveSeq(body)
    ensures CleanSeq(body, 2, [ENTRY], {ENTRY}, EXIT)
            <==> forall r :: FitsSeq(body, r) ==>
                   Walk(MethodEdges(body), ENTRY, TraceSeq(body, 2, r) + [EXIT])
  {
    var g := MethodEdges(body);
    if CleanSeq(body, 2, [ENTRY], {ENTRY}, EXIT) {
      forall r | FitsSeq(body, r)
        ensures Walk(g, ENTRY, TraceSeq(body, 2, r) + [EXIT])
      {
        MethodSimulates(body, r);
      }
    } else {
      LegalSeqIsOrdered(body);
      SeqShaped(body, 2, [ENTRY], EXIT);
      var r, p := SeqDerails(body, 2, [ENTRY], {ENTRY}, EXIT, g);
      WalkConcat(g, ENTRY, TraceSeq(body, 2, r), [EXIT]);
    }
  }

  /**
   `if (c) a; else switch (x) { default: return; } { b }` is clean: two nodes are left
   open, but executions come to the block from the first alone.
   */
  lemma ReturningSwitchIsClean()
    ensures var body := [If(Simple, Some(Switch([Case(true, [Return])]))), Block([Simple])];
            LiveSeq(body) && CleanSeq(body, 2, [ENTRY], {ENTRY}, EXIT)
  {
    var choice := If(Simple, Some(Switch([Case(true, [Return])])));
    var body := [choice, Block([Simple])];
    hide *;
    ReturningSwitch(2);
    BlockOfOne(2 + Size(choice), [3, 4], 3);
    assert body[1..] == [Block([Simple])] && body[0] == choice;
    TwoStatements(body);
  }

  lemma ReturningSwitch(n: nat)
    ensures var s := If(Simple, Some(Switch([Case(true, [Return])])));
            && Live(s) && Completes(s) && Clean(s, n, [ENTRY], {ENTRY}, EXIT)
            && Ends(s, n, {ENTRY}) == {n + 1}
            && StmtFrag(s, n, [ENTRY], EXIT).last == [n + 1, n + 2]
  {
    var other := Switch([Case(true, [Return])]);
    var s := If(Simple, Some(other));
    hide StmtFrag, CasesFrag, Layout, LegalCases, TryFreeCases, CleanCases, EndsCases;
    PlainIs(n + 1, [n], {n});
    AlwaysReturns(n + 2, [n], {n});
    IfElseUnfolds(s, n, [ENTRY], EXIT);
    assert ENTRY in {ENTRY};
  }

  lemma PlainIs(n: nat, entry: seq<nat>, live: set<nat>)
    ensures Layout(Simple) == [Statement] && StmtFrag(Simple, n, entry, EXIT).last == [n]
  {
  }

  lemma AlwaysReturns(n: nat, entry: seq<nat>, live: set<nat>)
    ensures var s := Switch([Case(true, [Return])]);
            Live(s) && Clean(s, n, entry, live, EXIT) && Ends(s, n, live) == {}
            && StmtFrag(s, n, entry, EXIT).last == [n]
  {
    var cases := [Case(true, [Return])];
    hide StmtFrag, SeqFrag, CasesFrag, Layout, LayoutSeq, LayoutCases;
    assert HasDefault(cases) by { assert cases[0].isDefault; }
    assert [Return][1..] == [] && cases[1..] == [] && cases[0..] == cases;
    assert CasesFrag(cases, n + 1, n, EXIT).last == [] by {
      CasesUnfold(cases, 0, n + 1, n, EXIT);
      NoCases(n + 2 + SizeSeq([Return]), n, EXIT);
      SingletonSeq([Return], n + 2, [n + 1], EXIT);
      ReturnIs(n + 2, [n + 1]);
    }
    SwitchLast(Switch(cases), n, entry, EXIT);
    assert CleanSeq([Return], n + 2, [n + 1], {n + 1}, EXIT);
    assert EndsSeq([Return], n + 2, {n + 1}) == {};
    assert LegalSeq([Return]) && TryFreeSeq([Return]);
  }

  lemma ReturnIs(n: nat, entry: seq<nat>)
    ensures StmtFrag(Return, n, entry, EXIT).last == []
  {
  }

  lemma SwitchLast(s: Stmt, n: nat, entry: seq<nat>, exit: nat)
    requires s.Switch?
    ensures var c := CasesFrag(s.cases, n + 1, n, exit);
            StmtFrag(s, n, entry, exit).last == if c.last == [] then [n] else c.last
  {
    hide CasesFrag;
  }

  lemma BlockOfOne(n: nat, entry: seq<nat>, p: nat)
    requires entry != [] && p == entry[0]
    ensures var ss := [Block([Simple])]; LiveSeq(ss) && CleanSeq(ss, n, entry, {p}, EXIT)
  {
    assert [Simple][1..] == [] && [Block([Simple])][1..] == [];
    assert LegalSeq([Simple]) && TryFreeSeq([Simple]) && CleanSeq([Simple], n, [p], {p}, EXIT);
  }

  lemma TwoStatements(body: seq<Stmt>)
    requires |body| == 2 && Live(body[0]) && Completes(body[0]) && LiveSeq(body[1..])
    requires Clean(body[0], 2, [ENTRY], {ENTRY}, EXIT)
    requires CleanSeq(body[1..], 2 + Size(body[0]), StmtFrag(body[0], 2, [ENTRY], EXIT).last,
                      Ends(body[0], 2, {ENTRY}), EXIT)
    ensures LiveSeq(body) && CleanSeq(body, 2, [ENTRY], {ENTRY}, EXIT)
  {
    hide Clean, Legal, TryFree, Ends, StmtFrag, Layout;
  }

  /** `if (c) a; { b }` drops the false branch: the block is entered from `a` alone. */
  lemma BlockAfterIfIsDropped()
    ensures var body := [If(Simple, None), Block([Simple])];
            var r := Then(Skip, Then(Then(Step, Done), Done));
            && FitsSeq(body, r)
            && !Walk(MethodEdges(body), ENTRY, TraceSeq(body, 2, r) + [EXIT])
  {
    var body := [If(Simple, None), Block([Simple])];
    var r := Then(Skip, Then(Then(Step, Done), Done));
    assert body[1..] == [Block([Simple])] && body[1..][1..] == [];
    assert Fits(Block([Simple]), r.rest.first) by { assert [Simple][1..] == []; }
    assert FitsSeq(body[1..], r.rest);
    assert TraceSeq(body[1..], 4, r.rest) == [4];
    var tr := TraceSeq(body, 2, r) + [EXIT];
    assert tr == [2, 4, EXIT];
    DroppedEdge();
    assert tr[1..][0] == 4 && !Walk(MethodEdges(body), 2, tr[1..]);
  }

  lemma DroppedEdge()
    ensures (2, 4) !in MethodEdges([If(Simple, None), Block([Simple])])
  {
    var body := [If(Simple, None), Block([Simple])];
    assert body[1..] == [Block([Simple])] && body[1..][1..] == [];
    assert StmtFrag(body[0], 2, [ENTRY], EXIT).last == [3, 2];
    assert SeqFrag(body[1..], 4, [3, 2], EXIT).edges == {(3, 4)};
  }
}
