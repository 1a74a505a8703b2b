/**
 Which nodes are reached from the entry: every one, if and only if every `finally` is
 entered.
 */
module CfgReach {
  import opened Cfg
  import opened CfgFrontier

  lemma FrontierBelow(f: Frag, entry: seq<nat>, n: nat, k: nat, exit: nat, opens: bool)
    requires Below(entry, n) && n <= k && Shaped(f, entry, n, k, exit, opens) && opens
    ensures Below(f.last, k)
  {
  }

  // -------------------------------------------- which nodes are reached from the entry

  /** The head of the frontier before a statement is the head of the one after it. */
  predicate KeepsHead(s: Stmt)
    decreases s
  {
    match s
    case Block(stmts) => KeepsHeadSeq(stmts)
    case Try(block, _, fin) => fin == [] && KeepsHeadSeq(block)
    case _ => false
  }

  predicate KeepsHeadSeq(ss: seq<Stmt>)
    decreases ss
  {
    ss == [] || (KeepsHead(ss[0]) && KeepsHeadSeq(ss[1..]))
  }

  /**
   Every `finally` is entered: something before it is left open, or its node heads
   the frontier of a branch or loop body, which the branch node is joined to. `led`
   says that the head of this statement's frontier is so joined.
   */
  predicate Entered(s: Stmt, led: bool)
    decreases s
  {
    match s
    case Simple => true
    case Return => true
    case If(thn, els) => Entered(thn, true) && (els.Some? ==> Entered(els.value, true))
    case While(body) => Entered(body, true)
    case For(body) => Entered(body, true)
    case Switch(cases) => EnteredCases(cases, led)
    case Block(stmts) => EnteredSeq(stmts, led)
    case Try(block, catches, fin) =>
      && EnteredSeq(block, led && fin == [])
      && EnteredCatches(catches, led && fin == [] && !OpenSeq(block))
      && EnteredSeq(fin, led)
      && (fin == [] || OpenSeq(block) || OpenCatches(catches) || (led && KeepsHeadSeq(fin)))
  }

  predicate EnteredSeq(ss: seq<Stmt>, led: bool)
    decreases ss
  {
    ss == [] || (Entered(ss[0], led && KeepsHeadSeq(ss[1..])) && EnteredSeq(ss[1..], led))
  }

  predicate EnteredCatches(cs: seq<Catch>, led: bool)
    decreases cs
  {
    cs == []
    || (EnteredSeq(cs[0].body, led) && EnteredCatches(cs[1..], led && !OpenSeq(cs[0].body)))
  }

  predicate EnteredCases(cs: seq<Case>, led: bool)
    decreases cs
  {
    cs == []
    || (EnteredSeq(cs[0].body, led) && EnteredCases(cs[1..], led && !OpenSeq(cs[0].body)))
  }

  /** The head of the new frontier is the old one, or a node of the statement. */
  ghost predicate HeadIs(f: Frag, entry: seq<nat>, lo: nat, hi: nat, kept: bool)
    requires entry != []
  {
    if kept then f.last != [] && f.last[0] == entry[0]
    else f.last != [] ==> Inside(f.last[0], lo, hi)
  }

  lemma {:induction false} StmtHead(s: Stmt, n: nat, entry: seq<nat>, exit: nat)
    requires Ordered(s) && Below(entry, n) && exit < n
    ensures HeadIs(StmtFrag(s, n, entry, exit), entry, n, n + Size(s), KeepsHead(s))
    decreases s, 1
  {
    match s
    case Simple =>
    case Return =>
    case While(_) =>
    case For(_) =>
    case If(_, _) => IfHead(s, n, entry, exit);
    case Switch(cases) =>
      CasesShaped(cases, n + 1, n, exit);
      var c := CasesFrag(cases, n + 1, n, exit);
      assert c.last != [] ==> c.last[0] in c.last;
    case Block(stmts) =>
      assert entry[0] in entry;
      ListHead(stmts, n, [entry[0]], exit);
    case Try(_, _, _) => TryHead(s, n, entry, exit);
  }

  lemma {:induction false} IfHead(s: Stmt, n: nat, entry: seq<nat>, exit: nat)
    requires s.If? && Ordered(s) && Below(entry, n) && exit < n
    ensures HeadIs(StmtFrag(s, n, entry, exit), entry, n, n + Size(s), false)
    decreases s, 0
  {
    hide StmtFrag, Layout, Contained;
    StmtShaped(s.thn, n + 1, [n], exit);
    var t := StmtFrag(s.thn, n + 1, [n], exit);
    assert t.last != [] ==> t.last[0] in t.last;
    if s.els.Some? {
      var e := StmtFrag(s.els.value, n + 1 + Size(s.thn), [n], exit);
      StmtShaped(s.els.value, n + 1 + Size(s.thn), [n], exit);
      assert e.last != [] ==> e.last[0] in e.last;
      IfElseUnfolds(s, n, entry, exit);
    } else {
      IfUnfolds(s, n, entry, exit);
    }
  }

  lemma {:induction false} TryHead(s: Stmt, n: nat, entry: seq<nat>, exit: nat)
    requires s.Try? && Ordered(s) && Below(entry, n) && exit < n
    ensures HeadIs(StmtFrag(s, n, entry, exit), entry, n, n + Size(s), KeepsHead(s))
    decreases s, 0
  {
    hide StmtFrag, SeqFrag, CatchesFrag, LayoutSeq, LayoutCatches, Contained;
    var k := n + SizeSeq(s.block);
    var j := k + SizeCatches(s.catches);
    assert entry[0] in entry;
    TryLayout(s);
    TryUnfolds(s, n, entry, exit);
    if s.fin == [] {
      ListHead(s.block, n, [entry[0]], exit);
      CatchesShaped(s.catches, k, entry, exit);
      var c := CatchesFrag(s.catches, k, entry, exit);
      assert c.last != [] ==> c.last[0] in c.last;
    } else {
      SeqShaped(s.fin, j + 1, [j], exit);
      var f := SeqFrag(s.fin, j + 1, [j], exit);
      assert f.last != [] ==> f.last[0] in f.last;
    }
  }

  lemma {:induction false} ListHead(ss: seq<Stmt>, n: nat, entry: seq<nat>, exit: nat)
    requires OrderedSeq(ss) && Below(entry, n) && exit < n
    ensures HeadIs(SeqFrag(ss, n, entry, exit), entry, n, n + SizeSeq(ss), KeepsHeadSeq(ss))
    decreases ss
  {
    hide SeqFrag, StmtFrag, LayoutSeq, Layout, Ordered, Open, Contained;
    if ss == [] {
      NoStmts(n, entry, exit);
    } else {
      var f := StmtFrag(ss[0], n, entry, exit);
      SeqHead(ss, n, entry, exit);
      StmtHead(ss[0], n, entry, exit);
      StmtShaped(ss[0], n, entry, exit);
      if ss[1..] != [] {
        FrontierBelow(f, entry, n, n + Size(ss[0]), exit, true);
        ListHead(ss[1..], n + Size(ss[0]), f.last, exit);
      }
    }
  }

  /** Nothing leads out of `r`. */
  ghost predicate Closed(g: set<Edge>, r: iset<nat>) {
    forall e :: e in g && e.0 in r ==> e.1 in r
  }

  ghost predicate HeadIn(last: seq<nat>, r: iset<nat>) {
    last == [] || last[0] in r
  }

  /** What holds the entry frontier and is closed under edges holds the statement. */
  lemma {:induction false} EntryReaches(
      s: Stmt, n: nat, entry: seq<nat>, exit: nat, g: set<Edge>, r: iset<nat>, led: bool, m: nat)
    requires Ordered(s) && Entered(s, led) && Below(entry, n) && exit < n
    requires StmtFrag(s, n, entry, exit).edges <= g && Closed(g, r)
    requires (forall e :: e in entry ==> e in r) && (led ==> HeadIn(StmtFrag(s, n, entry, exit).last, r))
    requires Inside(m, n, n + Size(s))
    ensures m in r
    decreases s, 1
  {
    assert entry[0] in entry;
    if s.Block? {
      SeqReaches(s.stmts, n, [entry[0]], exit, g, r, led, m);
    } else if s.Try? {
      TryReaches(s, n, entry, exit, g, r, led, m);
    } else {
      assert (entry[0], n) in Into(entry, n);
      if m != n {
        match s {
          case If(_, _) => IfReaches(s, n, entry, exit, g, r, m);
          case While(body) => LoopReaches(s, body, n, entry, exit, g, r, m);
          case For(body) => LoopReaches(s, body, n, entry, exit, g, r, m);
          case Switch(cases) => CasesReach(cases, n + 1, n, exit, g, r, led, m);
        }
      }
    }
  }

  lemma {:induction false} IfReaches(
      s: Stmt, n: nat, entry: seq<nat>, exit: nat, g: set<Edge>, r: iset<nat>, m: nat)
    requires s.If? && Ordered(s) && Entered(s, false) && exit < n && n in r
    requires StmtFrag(s, n, entry, exit).edges <= g && Closed(g, r)
    requires Inside(m, n + 1, n + Size(s))
    ensures m in r
    decreases s, 0
  {
    hide StmtFrag, Layout;
    var k := n + 1 + Size(s.thn);
    var t := StmtFrag(s.thn, n + 1, [n], exit);
    if s.els.None? {
      IfUnfolds(s, n, entry, exit);
    } else {
      IfElseUnfolds(s, n, entry, exit);
    }
    if m < k {
      HeadIsLed(g, r, n, t.last);
      EntryReaches(s.thn, n + 1, [n], exit, g, r, true, m);
    } else {
      HeadIsLed(g, r, n, StmtFrag(s.els.value, k, [n], exit).last);
      EntryReaches(s.els.value, k, [n], exit, g, r, true, m);
    }
  }

  lemma HeadIsLed(g: set<Edge>, r: iset<nat>, n: nat, last: seq<nat>)
    requires Closed(g, r) && n in r && Labelled(n, last) <= g
    ensures HeadIn(last, r)
  {
    assert last != [] ==> (n, last[0]) in Labelled(n, last);
  }

  lemma {:induction false} LoopReaches(
      s: Stmt, body: Stmt, n: nat, entry: seq<nat>, exit: nat, g: set<Edge>, r: iset<nat>, m: nat)
    requires (s == While(body) || s == For(body)) && Ordered(s) && Entered(s, false)
    requires exit < n && n in r && StmtFrag(s, n, entry, exit).edges <= g && Closed(g, r)
    requires Inside(m, n + 1, n + Size(s))
    ensures m in r
    decreases s, 0
  {
    hide StmtFrag, Layout;
    LoopUnfolds(s, body, n, entry, exit);
    HeadIsLed(g, r, n, StmtFrag(body, n + 1, [n], exit).last);
    EntryReaches(body, n + 1, [n], exit, g, r, true, m);
  }

  lemma {:induction false} TryReaches(
      s: Stmt, n: nat, entry: seq<nat>, exit: nat, g: set<Edge>, r: iset<nat>, led: bool, m: nat)
    requires s.Try? && Ordered(s) && Entered(s, led) && Below(entry, n) && exit < n
    requires StmtFrag(s, n, entry, exit).edges <= g && Closed(g, r)
    requires (forall e :: e in entry ==> e in r) && (led ==> HeadIn(StmtFrag(s, n, entry, exit).last, r))
    requires Inside(m, n, n + Size(s))
    ensures m in r
    decreases s, 0, 1
  {
    hide StmtFrag, SeqFrag, CatchesFrag, LayoutSeq, LayoutCatches;
    var k := n + SizeSeq(s.block);
    var j := k + SizeCatches(s.catches);
    assert entry[0] in entry;
    TryLayout(s);
    TryUnfolds(s, n, entry, exit);
    TryOpens(s, n, entry, exit);
    if m < k {
      SeqReaches(s.block, n, [entry[0]], exit, g, r, led && s.fin == [], m);
    } else if m < j {
      CatchesReach(s.catches, k, entry, exit, g, r, led && s.fin == [] && !OpenSeq(s.block), m);
    } else {
      FinallyReached(s, n, entry, exit, g, r, led);
      if m != j { SeqReaches(s.fin, j + 1, [j], exit, g, r, led, m); }
    }
  }

  lemma {:induction false} TryOpens(s: Stmt, n: nat, entry: seq<nat>, exit: nat)
    requires s.Try? && Ordered(s) && Below(entry, n) && exit < n
    ensures var k := n + SizeSeq(s.block);
            var b := SeqFrag(s.block, n, [entry[0]], exit);
            var c := CatchesFrag(s.catches, k, entry, exit);
            && (b.last != [] <==> OpenSeq(s.block)) && (c.last != [] <==> OpenCatches(s.catches))
            && (forall x :: x in b.last ==> x == entry[0] || Inside(x, n, k))
            && (forall x :: x in c.last ==> Inside(x, k, k + SizeCatches(s.catches)))
  {
    hide SeqFrag, CatchesFrag, LayoutSeq, LayoutCatches, OpenSeq, OpenCatches, Contained;
    assert entry[0] in entry;
    SeqShaped(s.block, n, [entry[0]], exit);
    CatchesShaped(s.catches, n + SizeSeq(s.block), entry, exit);
  }

  lemma {:induction false} FinallyReached(
      s: Stmt, n: nat, entry: seq<nat>, exit: nat, g: set<Edge>, r: iset<nat>, led: bool)
    requires s.Try? && s.fin != [] && Ordered(s) && Entered(s, led) && Below(entry, n) && exit < n
    requires StmtFrag(s, n, entry, exit).edges <= g && Closed(g, r)
    requires (forall e :: e in entry ==> e in r) && (led ==> HeadIn(StmtFrag(s, n, entry, exit).last, r))
    ensures n + SizeSeq(s.block) + SizeCatches(s.catches) in r
    decreases s, 0, 0
  {
    hide StmtFrag, SeqFrag, CatchesFrag, LayoutSeq, LayoutCatches;
    var k := n + SizeSeq(s.block);
    var j := k + SizeCatches(s.catches);
    assert entry[0] in entry;
    TryUnfolds(s, n, entry, exit);
    TryOpens(s, n, entry, exit);
    var b := SeqFrag(s.block, n, [entry[0]], exit);
    var c := CatchesFrag(s.catches, k, entry, exit);
    if b.last + c.last == [] {
      ListHead(s.fin, j + 1, [j], exit);
    } else {
      var x := (b.last + c.last)[0];
      assert (x, j) in Into(b.last + c.last, j);
      if Inside(x, n, k) {
        SeqReaches(s.block, n, [entry[0]], exit, g, r, false, x);
      } else if Inside(x, k, j) {
        CatchesReach(s.catches, k, entry, exit, g, r, false, x);
      }
    }
  }

  lemma {:induction false} SeqReaches(
      ss: seq<Stmt>, n: nat, entry: seq<nat>, exit: nat, g: set<Edge>, r: iset<nat>, led: bool, m: nat)
    requires OrderedSeq(ss) && EnteredSeq(ss, led) && Below(entry, n) && exit < n
    requires SeqFrag(ss, n, entry, exit).edges <= g && Closed(g, r)
    requires (forall e :: e in entry ==> e in r) && (led ==> HeadIn(SeqFrag(ss, n, entry, exit).last, r))
    requires Inside(m, n, n + SizeSeq(ss))
    ensures m in r
    decreases ss
  {
    hide SeqFrag, StmtFrag, LayoutSeq, Layout, Ordered, Open, Contained, Entered, KeepsHead;
    NoStmts(n, entry, exit);
    assert ss != [];
    var f := StmtFrag(ss[0], n, entry, exit);
    var k := n + Size(ss[0]);
    var keeps := led && KeepsHeadSeq(ss[1..]);
    SeqHead(ss, n, entry, exit);
    StmtShaped(ss[0], n, entry, exit);
    if ss[1..] != [] {
      FrontierBelow(f, entry, n, k, exit, true);
      ListHead(ss[1..], k, f.last, exit);
    }
    if m < k {
      EntryReaches(ss[0], n, entry, exit, g, r, keeps, m);
    } else {
      assert ss[1..] != [];
      forall x | x in f.last ensures x in r {
        if x !in entry { EntryReaches(ss[0], n, entry, exit, g, r, keeps, x); }
      }
      SeqReaches(ss[1..], k, f.last, exit, g, r, led, m);
    }
  }

  lemma {:induction false} CatchesReach(
      cs: seq<Catch>, n: nat, entry: seq<nat>, exit: nat, g: set<Edge>, r: iset<nat>, led: bool, m: nat)
    requires OrderedCatches(cs) && EnteredCatches(cs, led) && Below(entry, n) && exit < n
    requires CatchesFrag(cs, n, entry, exit).edges <= g && Closed(g, r)
    requires (forall e :: e in entry ==> e in r) && (led ==> HeadIn(CatchesFrag(cs, n, entry, exit).last, r))
    requires Inside(m, n, n + SizeCatches(cs))
    ensures m in r
    decreases cs
  {
    hide CatchesFrag, SeqFrag, LayoutCatches, LayoutSeq, OrderedSeq, EnteredSeq, OpenSeq, Contained;
    NoCatches(n, entry, exit);
    assert cs != [];
    var k := n + 1 + SizeSeq(cs[0].body);
    assert cs[0..] == cs;
    CatchesUnfold(cs, 0, n, entry, exit);
    SeqShaped(cs[0].body, n + 1, [n], exit);
    assert entry[0] in entry && (entry[0], n) in Into(entry, n);
    if m < k {
      if m != n { SeqReaches(cs[0].body, n + 1, [n], exit, g, r, led, m); }
    } else {
      CatchesReach(cs[1..], k, entry, exit, g, r, led && !OpenSeq(cs[0].body), m);
    }
  }

  lemma {:induction false} CasesReach(
      cs: seq<Case>, n: nat, switch: nat, exit: nat, g: set<Edge>, r: iset<nat>, led: bool, m: nat)
    requires OrderedCases(cs) && EnteredCases(cs, led) && switch < n && exit < n
    requires CasesFrag(cs, n, switch, exit).edges <= g && Closed(g, r)
    requires switch in r && (led ==> HeadIn(CasesFrag(cs, n, switch, exit).last, r))
    requires Inside(m, n, n + SizeCases(cs))
    ensures m in r
    decreases cs
  {
    hide CasesFrag, SeqFrag, LayoutCases, LayoutSeq, OrderedSeq, EnteredSeq, OpenSeq, Contained;
    NoCases(n, switch, exit);
    assert cs != [];
    var k := n + 1 + SizeSeq(cs[0].body);
    assert cs[0..] == cs;
    CasesUnfold(cs, 0, n, switch, exit);
    SeqShaped(cs[0].body, n + 1, [n], exit);
    if m < k {
      if m != n { SeqReaches(cs[0].body, n + 1, [n], exit, g, r, led, m); }
    } else {
      CasesReach(cs[1..], k, switch, exit, g, r, led && !OpenSeq(cs[0].body), m);
    }
  }

  // ----------------------------------------------- which nodes are cut off from it

  ghost predicate NoneTo(g: set<Edge>, j: nat) {
    forall e :: e in g ==> e.1 != j
  }

  ghost predicate NotHead(last: seq<nat>, j: nat) {
    last == [] || last[0] != j
  }

  /** A `finally` that is not entered has no edge to its node. */
  lemma {:induction false} CutOff(s: Stmt, n: nat, entry: seq<nat>, exit: nat, led: bool)
    returns (j: nat)
    requires Ordered(s) && !Entered(s, led) && Below(entry, n) && exit < n
    ensures Inside(j, n, n + Size(s)) && NoneTo(StmtFrag(s, n, entry, exit).edges, j)
    ensures led ==> NotHead(StmtFrag(s, n, entry, exit).last, j)
    decreases s, 1
  {
    match s
    case If(_, _) => j := IfCutOff(s, n, entry, exit);
    case While(body) => j := LoopCutOff(s, body, n, entry, exit);
    case For(body) => j := LoopCutOff(s, body, n, entry, exit);
    case Switch(cases) => j := CasesCutOff(cases, n + 1, n, exit, led);
    case Block(stmts) =>
      assert entry[0] in entry;
      j := SeqCutOff(stmts, n, [entry[0]], exit, led);
    case Try(_, _, _) => j := TryCutOff(s, n, entry, exit, led);
  }

  lemma {:induction false} IfCutOff(s: Stmt, n: nat, entry: seq<nat>, exit: nat) returns (j: nat)
    requires s.If? && Ordered(s) && !Entered(s, false) && Below(entry, n) && exit < n
    ensures Inside(j, n, n + Size(s)) && NoneTo(StmtFrag(s, n, entry, exit).edges, j)
    ensures NotHead(StmtFrag(s, n, entry, exit).last, j)
    decreases s, 0
  {
    hide StmtFrag, Layout;
    var k := n + 1 + Size(s.thn);
    StmtShaped(s.thn, n + 1, [n], exit);
    StmtHead(s.thn, n + 1, [n], exit);
    if s.els.None? {
      IfUnfolds(s, n, entry, exit);
      j := CutOff(s.thn, n + 1, [n], exit, true);
    } else {
      IfElseUnfolds(s, n, entry, exit);
      StmtShaped(s.els.value, k, [n], exit);
      StmtHead(s.els.value, k, [n], exit);
      if !Entered(s.thn, true) {
        j := CutOff(s.thn, n + 1, [n], exit, true);
      } else {
        j := CutOff(s.els.value, k, [n], exit, true);
      }
    }
  }

  lemma {:induction false} LoopCutOff(s: Stmt, body: Stmt, n: nat, entry: seq<nat>, exit: nat)
    returns (j: nat)
    requires (s == While(body) || s == For(body)) && Ordered(s) && !Entered(s, false)
    requires Below(entry, n) && exit < n
    ensures Inside(j, n, n + Size(s)) && NoneTo(StmtFrag(s, n, entry, exit).edges, j)
    ensures NotHead(StmtFrag(s, n, entry, exit).last, j)
    decreases s, 0
  {
    hide StmtFrag, Layout;
    LoopUnfolds(s, body, n, entry, exit);
    j := CutOff(body, n + 1, [n], exit, true);
  }

  lemma {:induction false} TryCutOff(s: Stmt, n: nat, entry: seq<nat>, exit: nat, led: bool)
    returns (j: nat)
    requires s.Try? && Ordered(s) && !Entered(s, led) && Below(entry, n) && exit < n
    ensures Inside(j, n, n + Size(s)) && NoneTo(StmtFrag(s, n, entry, exit).edges, j)
    ensures led ==> NotHead(StmtFrag(s, n, entry, exit).last, j)
    decreases s, 0
  {
    hide StmtFrag, SeqFrag, CatchesFrag, LayoutSeq, LayoutCatches;
    var k := n + SizeSeq(s.block);
    var m := k + SizeCatches(s.catches);
    assert entry[0] in entry;
    TryLayout(s);
    TryUnfolds(s, n, entry, exit);
    TryOpens(s, n, entry, exit);
    SeqShaped(s.block, n, [entry[0]], exit);
    CatchesShaped(s.catches, k, entry, exit);
    var b := SeqFrag(s.block, n, [entry[0]], exit);
    var c := CatchesFrag(s.catches, k, entry, exit);
    assert c.last != [] ==> c.last[0] in c.last;
    if s.fin != [] {
      SeqShaped(s.fin, m + 1, [m], exit);
      ListHead(s.fin, m + 1, [m], exit);
    }
    if !EnteredSeq(s.block, led && s.fin == []) {
      j := SeqCutOff(s.block, n, [entry[0]], exit, led && s.fin == []);
    } else if !EnteredCatches(s.catches, led && s.fin == [] && !OpenSeq(s.block)) {
      j := CatchesCutOff(s.catches, k, entry, exit, led && s.fin == [] && !OpenSeq(s.block));
      ListHead(s.block, n, [entry[0]], exit);
    } else if !EnteredSeq(s.fin, led) {
      j := SeqCutOff(s.fin, m + 1, [m], exit, led);
    } else {
      j := m;
      assert b.last + c.last == [] && Into([], m) == {};
    }
  }

  lemma {:induction false} SeqCutOff(
      ss: seq<Stmt>, n: nat, entry: seq<nat>, exit: nat, led: bool) returns (j: nat)
    requires OrderedSeq(ss) && !EnteredSeq(ss, led) && Below(entry, n) && exit < n
    ensures Inside(j, n, n + SizeSeq(ss)) && NoneTo(SeqFrag(ss, n, entry, exit).edges, j)
    ensures led ==> NotHead(SeqFrag(ss, n, entry, exit).last, j)
    decreases ss
  {
    hide SeqFrag, StmtFrag, LayoutSeq, Layout, Ordered, Open, Entered, KeepsHead;
    assert ss != [];
    var f := StmtFrag(ss[0], n, entry, exit);
    var k := n + Size(ss[0]);
    var keeps := led && KeepsHeadSeq(ss[1..]);
    SeqHead(ss, n, entry, exit);
    StmtShaped(ss[0], n, entry, exit);
    if ss[1..] != [] {
      FrontierBelow(f, entry, n, k, exit, true);
      ListHead(ss[1..], k, f.last, exit);
      SeqShaped(ss[1..], k, f.last, exit);
      if !Entered(ss[0], keeps) {
        j := CutOff(ss[0], n, entry, exit, keeps);
      } else {
        j := SeqCutOff(ss[1..], k, f.last, exit, led);
      }
    } else {
      j := CutOff(ss[0], n, entry, exit, keeps);
    }
  }

  lemma {:induction false} CatchesCutOff(
      cs: seq<Catch>, n: nat, entry: seq<nat>, exit: nat, led: bool) returns (j: nat)
    requires OrderedCatches(cs) && !EnteredCatches(cs, led) && Below(entry, n) && exit < n
    ensures Inside(j, n, n + SizeCatches(cs)) && NoneTo(CatchesFrag(cs, n, entry, exit).edges, j)
    ensures led ==> NotHead(CatchesFrag(cs, n, entry, exit).last, j)
    decreases cs
  {
    hide CatchesFrag, SeqFrag, LayoutCatches, LayoutSeq, OrderedSeq, EnteredSeq, OpenSeq;
    var k := n + 1 + SizeSeq(cs[0].body);
    assert cs[0..] == cs;
    CatchesUnfold(cs, 0, n, entry, exit);
    SeqShaped(cs[0].body, n + 1, [n], exit);
    CatchesShaped(cs[1..], k, entry, exit);
    var b, c := SeqFrag(cs[0].body, n + 1, [n], exit), CatchesFrag(cs[1..], k, entry, exit);
    assert c.last != [] ==> c.last[0] in c.last;
    assert b.last != [] ==> b.last[0] in b.last;
    if !EnteredSeq(cs[0].body, led) {
      j := SeqCutOff(cs[0].body, n + 1, [n], exit, led);
    } else {
      j := CatchesCutOff(cs[1..], k, entry, exit, led && !OpenSeq(cs[0].body));
    }
  }

  lemma {:induction false} CasesCutOff(
      cs: seq<Case>, n: nat, switch: nat, exit: nat, led: bool) returns (j: nat)
    requires OrderedCases(cs) && !EnteredCases(cs, led) && switch < n && exit < n
    ensures Inside(j, n, n + SizeCases(cs)) && NoneTo(CasesFrag(cs, n, switch, exit).edges, j)
    ensures led ==> NotHead(CasesFrag(cs, n, switch, exit).last, j)
    decreases cs
  {
    hide CasesFrag, SeqFrag, LayoutCases, LayoutSeq, OrderedSeq, EnteredSeq, OpenSeq;
    var k := n + 1 + SizeSeq(cs[0].body);
    assert cs[0..] == cs;
    CasesUnfold(cs, 0, n, switch, exit);
    SeqShaped(cs[0].body, n + 1, [n], exit);
    CasesShaped(cs[1..], k, switch, exit);
    var b, c := SeqFrag(cs[0].body, n + 1, [n], exit), CasesFrag(cs[1..], k, switch, exit);
    assert c.last != [] ==> c.last[0] in c.last;
    assert b.last != [] ==> b.last[0] in b.last;
    if !EnteredSeq(cs[0].body, led) {
      j := SeqCutOff(cs[0].body, n + 1, [n], exit, led);
    } else {
      j := CasesCutOff(cs[1..], k, switch, exit, led && !OpenSeq(cs[0].body));
    }
  }
}
