/**
 Simulation: every structured execution of a method is a walk of its graph.

 An execution is a `Run`, one choice per branch, any number of iterations per
 loop, and a stop at the first return. `Trace` lists the nodes it visits.
 */
module CfgSimulation {
  import opened Cfg

  /**
   One execution. `Then`/`Done` is the run of a statement list, and also of a loop:
   one `Then` per completed test of the condition that enters the body.
   */
  datatype Run =
    | Step
    | Stop
    | Take(thn: bool, sub: Run)
    | Skip
    | PickCase(i: nat, sub: Run)
    | Done
    | Then(first: Run, rest: Run)

  predicate Returns(r: Run) {
    match r
    case Stop => true
    case Take(_, sub) => Returns(sub)
    case PickCase(_, sub) => Returns(sub)
    case Then(first, rest) => Returns(first) || Returns(rest)
    case _ => false
  }

  predicate HasDefault(cases: seq<Case>) {
    exists i :: 0 <= i < |cases| && cases[i].isDefault
  }

  /** `r` is an execution of `s`. A `try` has no modelled execution. */
  predicate Fits(s: Stmt, r: Run)
    decreases r, s
  {
    match s
    case Simple => r.Step?
    case Return => r.Stop?
    case If(thn, els) =>
      || (r.Take? && r.thn && Fits(thn, r.sub))
      || (r.Take? && !r.thn && els.Some? && Fits(els.value, r.sub))
      || (r.Skip? && els.None?)
    case While(body) => FitsLoop(body, r)
    case For(body) => FitsLoop(body, r)
    case Switch(cases) =>
      || (r.PickCase? && r.i < |cases| && FitsSeq(cases[r.i].body, r.sub))
      || (r.Skip? && !HasDefault(cases))
    case Block(stmts) => FitsSeq(stmts, r)
    case Try(_, _, _) => false
  }

  predicate FitsLoop(body: Stmt, r: Run)
    decreases r, body
  {
    || r.Done?
    || (r.Then? && Fits(body, r.first)
        && if Returns(r.first) then r.rest.Done? else FitsLoop(body, r.rest))
  }

  predicate FitsSeq(ss: seq<Stmt>, r: Run)
    decreases r, ss
  {
    if ss == [] then r.Done?
    else
      && r.Then?
      && Fits(ss[0], r.first)
      && if Returns(r.first) then r.rest.Done? else FitsSeq(ss[1..], r.rest)
  }

  /** The number of the node of case `i`, the first case's being `n`. */
  function CaseStart(cases: seq<Case>, n: nat, i: nat): nat
    requires i < |cases|
  {
    if i == 0 then n else CaseStart(cases[1..], n + 1 + SizeSeq(cases[0].body), i - 1)
  }

  /** The nodes `r` visits in `s`, whose nodes are numbered in source order from `n`. */
  function Trace(s: Stmt, n: nat, r: Run): seq<nat>
    requires Fits(s, r)
    decreases r, s
  {
    match s
    case Simple => [n]
    case Return => [n]
    case If(thn, els) =>
      if r.Skip? then [n]
      else if r.thn then [n] + Trace(thn, n + 1, r.sub)
      else [n] + Trace(els.value, n + 1 + Size(thn), r.sub)
    case While(body) => [n] + TraceLoop(body, n, r)
    case For(body) => [n] + TraceLoop(body, n, r)
    case Switch(cases) =>
      if r.Skip? then [n]
      else
        var m := CaseStart(cases, n + 1, r.i);
        [n, m] + TraceSeq(cases[r.i].body, m + 1, r.sub)
    case Block(stmts) => TraceSeq(stmts, n, r)
  }

  /** The nodes visited after the loop condition `cond` was first reached. */
  function TraceLoop(body: Stmt, cond: nat, r: Run): seq<nat>
    requires FitsLoop(body, r)
    decreases r, body
  {
    if r.Done? then []
    else if Returns(r.first) then Trace(body, cond + 1, r.first)
    else Trace(body, cond + 1, r.first) + [cond] + TraceLoop(body, cond, r.rest)
  }

  function TraceSeq(ss: seq<Stmt>, n: nat, r: Run): seq<nat>
    requires FitsSeq(ss, r)
    decreases r, ss
  {
    if ss == [] then []
    else if Returns(r.first) then Trace(ss[0], n, r.first)
    else Trace(ss[0], n, r.first) + TraceSeq(ss[1..], n + Size(ss[0]), r.rest)
  }

  // ----------------------------------------------------------------- walks

  /** Following `tr` from `p` uses only edges of `g`. */
  predicate Walk(g: set<Edge>, p: nat, tr: seq<nat>)
    decreases |tr|
  {
    tr == [] || ((p, tr[0]) in g && Walk(g, tr[0], tr[1..]))
  }

  function End(p: nat, tr: seq<nat>): nat {
    if tr == [] then p else tr[|tr| - 1]
  }

  lemma {:induction false} WalkConcat(g: set<Edge>, p: nat, a: seq<nat>, b: seq<nat>)
    ensures Walk(g, p, a + b) <==> Walk(g, p, a) && Walk(g, End(p, a), b)
    ensures End(p, a + b) == End(End(p, a), b)
    decreases |a|
  {
    if a == [] {
      assert a + b == b;
    } else {
      assert (a + b)[1..] == a[1..] + b;
      WalkConcat(g, a[0], a[1..], b);
    }
  }

  lemma WalkCons(g: set<Edge>, p: nat, n: nat, tr: seq<nat>)
    ensures Walk(g, p, [n] + tr) <==> (p, n) in g && Walk(g, n, tr)
    ensures End(p, [n] + tr) == End(n, tr)
  {
    assert ([n] + tr)[1..] == tr;
  }

  // ------------------------------------------------------------- condition

  /** The nodes at which executions run past `s` when they come to it from `live`. */
  function Ends(s: Stmt, n: nat, live: set<nat>): set<nat>
    decreases s
  {
    if live == {} then {} else
    match s
    case Simple => {n}
    case Return => {}
    case If(thn, els) =>
      Ends(thn, n + 1, {n})
      + (if els.Some? then Ends(els.value, n + 1 + Size(thn), {n}) else {n})
    case While(_) => {n}
    case For(_) => {n}
    case Switch(cases) => EndsCases(cases, n + 1) + (if HasDefault(cases) then {} else {n})
    case Block(stmts) => EndsSeq(stmts, n, live)
    case Try(_, _, _) => {}
  }

  function EndsSeq(ss: seq<Stmt>, n: nat, live: set<nat>): set<nat>
    decreases ss
  {
    if ss == [] then live else EndsSeq(ss[1..], n + Size(ss[0]), Ends(ss[0], n, live))
  }

  function EndsCases(cs: seq<Case>, n: nat): set<nat>
    decreases cs
  {
    if cs == [] then {}
    else EndsSeq(cs[0].body, n + 1, {n}) + EndsCases(cs[1..], n + 1 + SizeSeq(cs[0].body))
  }

  /**
   What the translation needs of its input: executions come to a nested block only
   from the node it is entered from, and a switch without a default leaves only
   itself open. `live` holds the nodes executions come from.
   */
  predicate Clean(s: Stmt, n: nat, entry: seq<nat>, live: set<nat>, exit: nat)
    decreases s
  {
    match s
    case Simple => true
    case Return => true
    case If(thn, els) =>
      && Clean(thn, n + 1, [n], {n}, exit)
      && (els.Some? ==> Clean(els.value, n + 1 + Size(thn), [n], {n}, exit))
    case While(body) => Clean(body, n + 1, [n], {n}, exit)
    case For(body) => Clean(body, n + 1, [n], {n}, exit)
    case Switch(cases) =>
      && CleanCases(cases, n + 1, exit)
      && (HasDefault(cases) || CasesFrag(cases, n + 1, n, exit).last == [])
    case Block(stmts) =>
      && (forall p :: p in live ==> p == Pick(entry, exit))
      && CleanSeq(stmts, n, [Pick(entry, exit)], live, exit)
    case Try(_, _, _) => false
  }

  predicate CleanSeq(ss: seq<Stmt>, n: nat, entry: seq<nat>, live: set<nat>, exit: nat)
    decreases ss
  {
    ss == []
    || (&& Clean(ss[0], n, entry, live, exit)
        && CleanSeq(ss[1..], n + Size(ss[0]), StmtFrag(ss[0], n, entry, exit).last,
                    Ends(ss[0], n, live), exit))
  }

  predicate CleanCases(cs: seq<Case>, n: nat, exit: nat)
    decreases cs
  {
    cs == []
    || (&& CleanSeq(cs[0].body, n + 1, [n], {n}, exit)
        && CleanCases(cs[1..], n + 1 + SizeSeq(cs[0].body), exit))
  }

  // ------------------------------------------------------- where executions end

  /** An execution that runs past `s` does so at one of its ends. */
  lemma {:induction false} EndsThere(s: Stmt, n: nat, live: set<nat>, r: Run, p: nat)
    requires Fits(s, r) && !Returns(r) && p in live
    ensures End(p, Trace(s, n, r)) in Ends(s, n, live)
    decreases r, s, 1
  {
    match s
    case Simple =>
    case If(_, _) => IfEndsThere(s, n, live, r, p);
    case While(body) =>
      LoopEndsThere(body, n, r);
      WalkCons({}, p, n, TraceLoop(body, n, r));
    case For(body) =>
      LoopEndsThere(body, n, r);
      WalkCons({}, p, n, TraceLoop(body, n, r));
    case Switch(_) => SwitchEndsThere(s, n, live, r, p);
    case Block(stmts) => SeqEndsThere(stmts, n, live, r, p);
  }

  lemma {:induction false} IfEndsThere(s: Stmt, n: nat, live: set<nat>, r: Run, p: nat)
    requires s.If? && Fits(s, r) && !Returns(r) && p in live
    ensures End(p, Trace(s, n, r)) in Ends(s, n, live)
    decreases r, s, 0
  {
    if r.Take? {
      if r.thn { EndsThere(s.thn, n + 1, {n}, r.sub, n); }
      else { EndsThere(s.els.value, n + 1 + Size(s.thn), {n}, r.sub, n); }
      WalkCons({}, p, n, Trace(s, n, r)[1..]);
    }
  }

  lemma {:induction false} SwitchEndsThere(s: Stmt, n: nat, live: set<nat>, r: Run, p: nat)
    requires s.Switch? && Fits(s, r) && !Returns(r) && p in live
    ensures End(p, Trace(s, n, r)) in Ends(s, n, live)
    decreases r, s, 0
  {
    if r.PickCase? {
      CaseEndsThere(s.cases, n + 1, r.i, r.sub);
      var m := CaseStart(s.cases, n + 1, r.i);
      var tr := TraceSeq(s.cases[r.i].body, m + 1, r.sub);
      WalkCons({}, n, m, tr);
      WalkCons({}, p, n, [m] + tr);
      assert [n, m] + tr == [n] + ([m] + tr);
    }
  }

  lemma {:induction false} LoopEndsThere(body: Stmt, n: nat, r: Run)
    requires FitsLoop(body, r) && !Returns(r)
    ensures End(n, TraceLoop(body, n, r)) == n
    decreases r, body
  {
    if r.Then? {
      LoopEndsThere(body, n, r.rest);
      WalkConcat({}, n, Trace(body, n + 1, r.first) + [n], TraceLoop(body, n, r.rest));
    }
  }

  lemma {:induction false} SeqEndsThere(ss: seq<Stmt>, n: nat, live: set<nat>, r: Run, p: nat)
    requires FitsSeq(ss, r) && !Returns(r) && p in live
    ensures End(p, TraceSeq(ss, n, r)) in EndsSeq(ss, n, live)
    decreases r, ss
  {
    if ss != [] {
      var tr := Trace(ss[0], n, r.first);
      EndsThere(ss[0], n, live, r.first, p);
      SeqEndsThere(ss[1..], n + Size(ss[0]), Ends(ss[0], n, live), r.rest, End(p, tr));
      WalkConcat({}, p, tr, TraceSeq(ss[1..], n + Size(ss[0]), r.rest));
    }
  }

  lemma {:induction false} CaseEndsThere(cs: seq<Case>, n: nat, i: nat, r: Run)
    requires i < |cs| && FitsSeq(cs[i].body, r) && !Returns(r)
    ensures var m := CaseStart(cs, n, i);
            End(m, TraceSeq(cs[i].body, m + 1, r)) in EndsCases(cs, n)
    decreases r, cs
  {
    if i == 0 {
      SeqEndsThere(cs[0].body, n + 1, {n}, r, n);
    } else {
      CaseEndsThere(cs[1..], n + 1 + SizeSeq(cs[0].body), i - 1, r);
    }
  }

  // ------------------------------------------------------------ simulation

  /** A trace that is a walk of `g` ending where the fragment says it does. */
  ghost predicate Follows(g: set<Edge>, p: nat, tr: seq<nat>, returning: bool, last: seq<nat>, exit: nat) {
    && Walk(g, p, tr)
    && if returning then (End(p, tr), exit) in g else End(p, tr) in last
  }

  lemma {:induction false} StmtSimulates(
      s: Stmt, n: nat, entry: seq<nat>, live: set<nat>, exit: nat, r: Run, p: nat, g: set<Edge>)
    requires Clean(s, n, entry, live, exit) && Fits(s, r) && p in entry && p in live
    requires StmtFrag(s, n, entry, exit).edges <= g
    ensures Follows(g, p, Trace(s, n, r), Returns(r), StmtFrag(s, n, entry, exit).last, exit)
    decreases r, s, 1
  {
    match s
    case Simple => assert (p, n) in Into(entry, n);
    case Return => assert (p, n) in Into(entry, n);
    case If(thn, els) =>
      assert (p, n) in Into(entry, n);
      IfSimulates(s, n, entry, live, exit, r, g);
      WalkCons(g, p, n, Trace(s, n, r)[1..]);
    case While(body) =>
      assert (p, n) in Into(entry, n);
      LoopSimulates(body, n, entry, exit, r, g);
      WalkCons(g, p, n, TraceLoop(body, n, r));
    case For(body) =>
      assert (p, n) in Into(entry, n);
      LoopSimulates(body, n, entry, exit, r, g);
      WalkCons(g, p, n, TraceLoop(body, n, r));
    case Switch(cases) =>
      assert (p, n) in Into(entry, n);
      SwitchSimulates(s, n, entry, live, exit, r, g);
      WalkCons(g, p, n, Trace(s, n, r)[1..]);
    case Block(stmts) => SeqSimulates(stmts, n, [entry[0]], live, exit, r, p, g);
  }

  lemma {:induction false} IfSimulates(
      s: Stmt, n: nat, entry: seq<nat>, live: set<nat>, exit: nat, r: Run, g: set<Edge>)
    requires s.If? && Clean(s, n, entry, live, exit) && Fits(s, r)
    requires StmtFrag(s, n, entry, exit).edges <= g
    ensures Trace(s, n, r)[0] == n
    ensures Follows(g, n, Trace(s, n, r)[1..], Returns(r), StmtFrag(s, n, entry, exit).last, exit)
    decreases r, s, 0
  {
    if r.Skip? {
    } else if r.thn {
      StmtSimulates(s.thn, n + 1, [n], {n}, exit, r.sub, n, g);
    } else {
      StmtSimulates(s.els.value, n + 1 + Size(s.thn), [n], {n}, exit, r.sub, n, g);
    }
  }

  lemma {:induction false} SwitchSimulates(
      s: Stmt, n: nat, entry: seq<nat>, live: set<nat>, exit: nat, r: Run, g: set<Edge>)
    requires s.Switch? && Clean(s, n, entry, live, exit) && Fits(s, r)
    requires StmtFrag(s, n, entry, exit).edges <= g
    ensures Trace(s, n, r)[0] == n
    ensures Follows(g, n, Trace(s, n, r)[1..], Returns(r), StmtFrag(s, n, entry, exit).last, exit)
    decreases r, s, 0
  {
    if r.PickCase? {
      CaseSimulates(s.cases, n + 1, n, exit, r.i, r.sub, g);
      var m := CaseStart(s.cases, n + 1, r.i);
      var tr := TraceSeq(s.cases[r.i].body, m + 1, r.sub);
      WalkCons(g, n, m, tr);
      assert Trace(s, n, r)[1..] == [m] + tr;
    }
  }

  lemma {:induction false} LoopSimulates(
      body: Stmt, n: nat, entry: seq<nat>, exit: nat, r: Run, g: set<Edge>)
    requires Clean(body, n + 1, [n], {n}, exit) && FitsLoop(body, r)
    requires LoopFrag(n, entry, StmtFrag(body, n + 1, [n], exit)).edges <= g
    ensures Follows(g, n, TraceLoop(body, n, r), Returns(r), [n], exit)
    decreases r, body
  {
    hide StmtFrag, Follows, Clean, Fits, Trace;
    if r.Done? {
      StaysAt(g, n, exit);
    } else {
      var b := StmtFrag(body, n + 1, [n], exit);
      var tr := Trace(body, n + 1, r.first);
      StmtSimulates(body, n + 1, [n], {n}, exit, r.first, n, g);
      if Returns(r.first) {
        ReturnsFrom(g, n, tr, b.last, [n], exit);
      } else {
        LoopSimulates(body, n, entry, exit, r.rest, g);
        FollowsBack(g, n, tr, TraceLoop(body, n, r.rest), Returns(r.rest), b.last, exit);
      }
    }
  }

  lemma StaysAt(g: set<Edge>, n: nat, exit: nat)
    ensures Follows(g, n, [], false, [n], exit)
  {
  }

  lemma ReturnsFrom(g: set<Edge>, n: nat, tr: seq<nat>, a: seq<nat>, b: seq<nat>, exit: nat)
    requires Follows(g, n, tr, true, a, exit)
    ensures Follows(g, n, tr, true, b, exit)
  {
  }

  /** After one round back to the condition, and on from there. */
  lemma FollowsBack(g: set<Edge>, n: nat, tr: seq<nat>, rest: seq<nat>, returning: bool,
                    last: seq<nat>, exit: nat)
    requires Follows(g, n, tr, false, last, exit) && Into(last, n) <= g
    requires Follows(g, n, rest, returning, [n], exit)
    ensures Follows(g, n, tr + [n] + rest, returning, [n], exit)
  {
    assert (End(n, tr), n) in Into(last, n);
    WalkCons(g, End(n, tr), n, rest);
    WalkConcat(g, n, tr, [n] + rest);
    assert tr + [n] + rest == tr + ([n] + rest);
  }

  lemma {:induction false} SeqSimulates(
      ss: seq<Stmt>, n: nat, entry: seq<nat>, live: set<nat>, exit: nat, r: Run, p: nat, g: set<Edge>)
    requires CleanSeq(ss, n, entry, live, exit) && FitsSeq(ss, r) && p in entry && p in live
    requires SeqFrag(ss, n, entry, exit).edges <= g
    ensures Follows(g, p, TraceSeq(ss, n, r), Returns(r), SeqFrag(ss, n, entry, exit).last, exit)
    decreases r, ss
  {
    if ss != [] {
      var f := StmtFrag(ss[0], n, entry, exit);
      StmtSimulates(ss[0], n, entry, live, exit, r.first, p, g);
      if !Returns(r.first) {
        var tr := Trace(ss[0], n, r.first);
        EndsThere(ss[0], n, live, r.first, p);
        SeqSimulates(ss[1..], n + Size(ss[0]), f.last, Ends(ss[0], n, live), exit, r.rest, End(p, tr), g);
        WalkConcat(g, p, tr, TraceSeq(ss[1..], n + Size(ss[0]), r.rest));
      }
    }
  }

  lemma {:induction false} CaseSimulates(
      cases: seq<Case>, n: nat, switch: nat, exit: nat, i: nat, r: Run, g: set<Edge>)
    requires i < |cases| && CleanCases(cases, n, exit) && FitsSeq(cases[i].body, r)
    requires CasesFrag(cases, n, switch, exit).edges <= g
    ensures var m := CaseStart(cases, n, i);
            && (switch, m) in g
            && Follows(g, m, TraceSeq(cases[i].body, m + 1, r), Returns(r),
                       CasesFrag(cases, n, switch, exit).last, exit)
    decreases r, cases
  {
    hide CasesFrag, SeqFrag, LayoutCases, LayoutSeq, CleanSeq, Returns;
    var m := n + 1 + SizeSeq(cases[0].body);
    assert cases[0..] == cases;
    CasesUnfold(cases, 0, n, switch, exit);
    if i == 0 {
      SeqSimulates(cases[0].body, n + 1, [n], {n}, exit, r, n, g);
    } else {
      CaseSimulates(cases[1..], m, switch, exit, i - 1, r, g);
    }
  }

  /**
   The simulation theorem: in a clean method every execution is a walk from the
   entry node, and the node it ends on is joined to the exit node.
   */
  lemma {:induction false} MethodSimulates(body: seq<Stmt>, r: Run)
    requires CleanSeq(body, 2, [ENTRY], {ENTRY}, EXIT) && FitsSeq(body, r)
    ensures Walk(MethodEdges(body), ENTRY, TraceSeq(body, 2, r) + [EXIT])
  {
    var g := MethodEdges(body);
    var tr := TraceSeq(body, 2, r);
    if body != [] {
      SeqSimulates(body, 2, [ENTRY], {ENTRY}, EXIT, r, ENTRY, g);
      SeqInRange(body, 2, r);
    }
    assert tr != [] ==> tr[|tr| - 1] in tr;
    assert (End(ENTRY, tr), EXIT) in g;
    WalkConcat(g, ENTRY, tr, [EXIT]);
  }

  /** Traces stay inside the range of node numbers the statements own. */
  lemma {:induction false} TraceInRange(s: Stmt, n: nat, r: Run)
    requires Fits(s, r)
    ensures Within(Trace(s, n, r), n, n + Size(s))
    decreases r, s, 1
  {
    match s
    case Simple =>
    case Return =>
    case If(_, _) => IfInRange(s, n, r);
    case While(body) =>
      LoopUnfolds(s, body, n, [], n);
      LoopInRange(body, n, r);
    case For(body) =>
      LoopUnfolds(s, body, n, [], n);
      LoopInRange(body, n, r);
    case Switch(_) => SwitchInRange(s, n, r);
    case Block(stmts) => SeqInRange(stmts, n, r);
  }

  lemma {:induction false} SwitchInRange(s: Stmt, n: nat, r: Run)
    requires s.Switch? && Fits(s, r)
    ensures Within(Trace(s, n, r), n, n + Size(s))
    decreases r, s, 0
  {
    hide LayoutCases, LayoutSeq;
    if r.PickCase? { CaseInRange(s.cases, n + 1, r.i, r.sub); }
  }

  lemma {:induction false} IfInRange(s: Stmt, n: nat, r: Run)
    requires s.If? && Fits(s, r)
    ensures Within(Trace(s, n, r), n, n + Size(s))
    decreases r, s, 0
  {
    hide Layout;
    if s.els.Some? { IfElseLayout(s); } else { IfUnfolds(s, n, [], n); }
    if r.Take? {
      if r.thn { TraceInRange(s.thn, n + 1, r.sub); }
      else { TraceInRange(s.els.value, n + 1 + Size(s.thn), r.sub); }
    }
  }

  lemma {:induction false} LoopInRange(body: Stmt, n: nat, r: Run)
    requires FitsLoop(body, r)
    ensures Within(TraceLoop(body, n, r), n, n + 1 + Size(body))
    decreases r, body
  {
    if r.Then? {
      TraceInRange(body, n + 1, r.first);
      if !Returns(r.first) { LoopInRange(body, n, r.rest); }
    }
  }

  lemma {:induction false} SeqInRange(ss: seq<Stmt>, n: nat, r: Run)
    requires FitsSeq(ss, r)
    ensures Within(TraceSeq(ss, n, r), n, n + SizeSeq(ss))
    decreases r, ss
  {
    if ss != [] {
      TraceInRange(ss[0], n, r.first);
      if !Returns(r.first) { SeqInRange(ss[1..], n + Size(ss[0]), r.rest); }
    }
  }

  predicate Within(tr: seq<nat>, lo: nat, hi: nat) {
    forall x :: x in tr ==> lo <= x < hi
  }

  lemma {:induction false} CaseInRange(cases: seq<Case>, n: nat, i: nat, r: Run)
    requires i < |cases| && FitsSeq(cases[i].body, r)
    ensures var m := CaseStart(cases, n, i);
            && n <= m < n + SizeCases(cases)
            && Within(TraceSeq(cases[i].body, m + 1, r), n, n + SizeCases(cases))
    decreases r, cases
  {
    if i == 0 {
      SeqInRange(cases[0].body, n + 1, r);
    } else {
      CaseInRange(cases[1..], n + 1 + SizeSeq(cases[0].body), i - 1, r);
    }
  }
}
