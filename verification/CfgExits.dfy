/**
 Which nodes lead to the exit: every one, if and only if nothing that a nested block
 or `try` fails to take over from the frontier before it is left without a way on.
 */
module CfgExits {
  import opened Cfg
  import opened CfgFrontier
  import opened CfgReach

  /** The part of a frontier from which the code goes on. */
  datatype Part = All | Head | Nothing

  function Kept(last: seq<nat>, part: Part): set<nat> {
    match part
    case All => set x | x in last
    case Head => if last == [] then {} else {last[0]}
    case Nothing => {}
  }

  function Cap(part: Part): Part {
    if part.All? then Head else part
  }

  /** What is left for the later arms of a statement when an earlier one is open. */
  function Rest(part: Part, open: bool): Part {
    if part.Head? && open then Nothing else part
  }

  /** The part of its entry frontier a statement goes on from, given that of its own. */
  function Feeds(s: Stmt, part: Part): Part
    decreases s
  {
    match s
    case Block(stmts) => Cap(FeedsSeq(stmts, part))
    case Try(block, catches, fin) =>
      if catches != [] then All else Cap(FeedsSeq(block, if fin != [] then All else part))
    case _ => All
  }

  function FeedsSeq(ss: seq<Stmt>, part: Part): Part
    decreases ss
  {
    if ss == [] then part else Feeds(ss[0], FeedsSeq(ss[1..], part))
  }

  predicate HasReturn(s: Stmt)
    decreases s
  {
    match s
    case Simple => false
    case Return => true
    case If(thn, els) => HasReturn(thn) || (els.Some? && HasReturn(els.value))
    case While(body) => HasReturn(body)
    case For(body) => HasReturn(body)
    case Switch(cases) => CasesReturn(cases)
    case Block(stmts) => SeqReturns(stmts)
    case Try(block, catches, fin) => SeqReturns(block) || CatchesReturn(catches) || SeqReturns(fin)
  }

  predicate SeqReturns(ss: seq<Stmt>)
    decreases ss
  {
    ss != [] && (HasReturn(ss[0]) || SeqReturns(ss[1..]))
  }

  predicate CatchesReturn(cs: seq<Catch>)
    decreases cs
  {
    cs != [] && (SeqReturns(cs[0].body) || CatchesReturn(cs[1..]))
  }

  predicate CasesReturn(cs: seq<Case>)
    decreases cs
  {
    cs != [] && (SeqReturns(cs[0].body) || CasesReturn(cs[1..]))
  }

  /**
   Every node of the statement has a way on when the code goes on from `part` of its
   frontier. What is dropped must find its way inside: a branch through an arm, a loop
   through a return; a plain statement has none.
   */
  predicate Leads(s: Stmt, part: Part)
    decreases s
  {
    match s
    case Simple => !part.Nothing?
    case Return => true
    case If(thn, els) =>
      && Leads(thn, part)
      && (els.Some? ==> Leads(els.value, Rest(part, Open(thn))))
      && (part.Nothing? ==> Size(thn) > 0 || (els.Some? && Size(els.value) > 0))
    case While(body) => Leads(body, All) && (part.Nothing? ==> HasReturn(body))
    case For(body) => Leads(body, All) && (part.Nothing? ==> HasReturn(body))
    case Switch(cases) => LeadsCases(cases, part) && (part.Nothing? ==> cases != [])
    case Block(stmts) => LeadsSeq(stmts, part)
    case Try(block, catches, fin) =>
      if fin != [] then
        && LeadsSeq(block, All) && LeadsCatches(catches, All)
        && !FeedsSeq(fin, part).Nothing? && LeadsSeq(fin, part)
      else
        LeadsSeq(block, part) && LeadsCatches(catches, Rest(part, OpenSeq(block)))
  }

  predicate LeadsSeq(ss: seq<Stmt>, part: Part)
    decreases ss
  {
    ss == [] || (Leads(ss[0], FeedsSeq(ss[1..], part)) && LeadsSeq(ss[1..], part))
  }

  predicate LeadsCatches(cs: seq<Catch>, part: Part)
    decreases cs
  {
    cs == []
    || (&& LeadsSeq(cs[0].body, part) && !FeedsSeq(cs[0].body, part).Nothing?
        && LeadsCatches(cs[1..], Rest(part, OpenSeq(cs[0].body))))
  }

  predicate LeadsCases(cs: seq<Case>, part: Part)
    decreases cs
  {
    cs == []
    || (&& LeadsSeq(cs[0].body, part) && !FeedsSeq(cs[0].body, part).Nothing?
        && LeadsCases(cs[1..], Rest(part, OpenSeq(cs[0].body))))
  }

  // ----------------------------------------------------------------- small facts

  /** Only what owns no node can go on from nothing. */
  lemma {:induction false} FeedsNothing(s: Stmt, part: Part)
    requires Feeds(s, part).Nothing?
    ensures part.Nothing? && Size(s) == 0 && !(s.Try? && s.fin != [])
    decreases s
  {
    match s
    case Block(stmts) => SeqFeedsNothing(stmts, part);
    case Try(block, catches, fin) =>
      SeqFeedsNothing(block, if fin != [] then All else part);
      TryLayout(s);
      NoCatches(0, [], 0);
  }

  lemma {:induction false} SeqFeedsNothing(ss: seq<Stmt>, part: Part)
    requires FeedsSeq(ss, part).Nothing?
    ensures part.Nothing? && SizeSeq(ss) == 0
    decreases ss
  {
    if ss != [] {
      FeedsNothing(ss[0], FeedsSeq(ss[1..], part));
      SeqFeedsNothing(ss[1..], part);
    }
  }

  lemma NoNodesNoEdges(f: Frag, entry: seq<nat>, n: nat, exit: nat, opens: bool)
    requires Shaped(f, entry, n, n, exit, opens)
    ensures f.edges == {}
  {
  }

  lemma {:induction false} ClosedReturns(s: Stmt)
    requires !Open(s)
    ensures HasReturn(s)
    decreases s
  {
    match s
    case Return =>
    case If(thn, els) => ClosedReturns(thn);
    case Block(stmts) => SeqClosedReturns(stmts);
    case Try(block, catches, fin) => if fin == [] { SeqClosedReturns(block); } else { SeqClosedReturns(fin); }
  }

  lemma {:induction false} SeqClosedReturns(ss: seq<Stmt>)
    requires !OpenSeq(ss)
    ensures SeqReturns(ss)
    decreases ss
  {
    if ss[1..] == [] { ClosedReturns(ss[0]); } else { SeqClosedReturns(ss[1..]); }
  }

  ghost predicate Exits(g: set<Edge>, exit: nat) {
    exists e :: e in g && e.1 == exit
  }

  lemma ExitsEither(a: set<Edge>, b: set<Edge>, exit: nat)
    ensures Exits(a + b, exit) <==> Exits(a, exit) || Exits(b, exit)
  {
    if Exits(a, exit) { var e :| e in a && e.1 == exit; assert e in a + b; }
    if Exits(b, exit) { var e :| e in b && e.1 == exit; assert e in a + b; }
  }

  lemma EntersNoExit(frontier: seq<nat>, n: nat, exit: nat)
    requires n != exit
    ensures !Exits(Into(frontier, n), exit)
  {
  }

  lemma LedNoExit(f: Frag, n: nat, hi: nat, exit: nat, opens: bool)
    requires exit < n && Shaped(f, [n], n + 1, hi, exit, opens)
    ensures !Exits(Labelled(n, f.last), exit)
  {
    assert f.last != [] ==> f.last[0] in f.last;
  }

  /** A statement has an edge to the exit if and only if it holds a return. */
  lemma {:induction false} ReturnsExit(s: Stmt, n: nat, entry: seq<nat>, exit: nat)
    requires Ordered(s) && Below(entry, n) && exit < n
    ensures Exits(StmtFrag(s, n, entry, exit).edges, exit) <==> HasReturn(s)
    decreases s, 1
  {
    match s
    case Simple => EntersNoExit(entry, n, exit);
    case Return => assert (n, exit) in StmtFrag(s, n, entry, exit).edges;
    case If(_, _) => IfExits(s, n, entry, exit);
    case While(body) => LoopExits(s, body, n, entry, exit);
    case For(body) => LoopExits(s, body, n, entry, exit);
    case Switch(cases) =>
      EntersNoExit(entry, n, exit);
      CasesExit(cases, n + 1, n, exit);
      ExitsEither(Into(entry, n), CasesFrag(cases, n + 1, n, exit).edges, exit);
    case Block(stmts) =>
      assert entry[0] in entry;
      ListExits(stmts, n, [entry[0]], exit);
    case Try(_, _, _) => TryExits(s, n, entry, exit);
  }

  lemma {:induction false} IfExits(s: Stmt, n: nat, entry: seq<nat>, exit: nat)
    requires s.If? && Ordered(s) && Below(entry, n) && exit < n
    ensures Exits(StmtFrag(s, n, entry, exit).edges, exit) <==> HasReturn(s)
    decreases s, 0
  {
    hide StmtFrag, Layout, Exits, Shaped;
    var k := n + 1 + Size(s.thn);
    var t := StmtFrag(s.thn, n + 1, [n], exit);
    ReturnsExit(s.thn, n + 1, [n], exit);
    StmtShaped(s.thn, n + 1, [n], exit);
    EntersNoExit(entry, n, exit);
    LedNoExit(t, n, k, exit, Open(s.thn));
    ExitsEither(Into(entry, n), t.edges, exit);
    ExitsEither(Into(entry, n) + t.edges, Labelled(n, t.last), exit);
    if s.els.Some? {
      var e := StmtFrag(s.els.value, k, [n], exit);
      IfElseUnfolds(s, n, entry, exit);
      ReturnsExit(s.els.value, k, [n], exit);
      StmtShaped(s.els.value, k, [n], exit);
      ElseLedNoExit(e, n, k, n + Size(s), exit, Open(s.els.value));
      var before := Into(entry, n) + t.edges + Labelled(n, t.last);
      ExitsEither(before, e.edges, exit);
      ExitsEither(before + e.edges, Labelled(n, e.last), exit);
    } else {
      IfUnfolds(s, n, entry, exit);
    }
  }

  lemma ElseLedNoExit(f: Frag, n: nat, k: nat, hi: nat, exit: nat, opens: bool)
    requires exit < n < k && Shaped(f, [n], k, hi, exit, opens)
    ensures !Exits(Labelled(n, f.last), exit)
  {
    assert f.last != [] ==> f.last[0] in f.last;
  }

  lemma {:induction false} LoopExits(s: Stmt, body: Stmt, n: nat, entry: seq<nat>, exit: nat)
    requires (s == While(body) || s == For(body)) && Ordered(s) && Below(entry, n) && exit < n
    ensures Exits(StmtFrag(s, n, entry, exit).edges, exit) <==> HasReturn(s)
    decreases s, 0
  {
    hide StmtFrag, Layout, Exits, Shaped;
    var b := StmtFrag(body, n + 1, [n], exit);
    LoopUnfolds(s, body, n, entry, exit);
    LoopFragIs(n, entry, b);
    ReturnsExit(body, n + 1, [n], exit);
    StmtShaped(body, n + 1, [n], exit);
    EntersNoExit(entry, n, exit);
    EntersNoExit(b.last, n, exit);
    LedNoExit(b, n, n + Size(s), exit, Open(body));
    ExitsEither(Into(entry, n), b.edges, exit);
    ExitsEither(Into(entry, n) + b.edges, Labelled(n, b.last), exit);
    ExitsEither(Into(entry, n) + b.edges + Labelled(n, b.last), Into(b.last, n), exit);
  }

  lemma {:induction false} TryExits(s: Stmt, n: nat, entry: seq<nat>, exit: nat)
    requires s.Try? && Ordered(s) && Below(entry, n) && exit < n
    ensures Exits(StmtFrag(s, n, entry, exit).edges, exit) <==> HasReturn(s)
    decreases s, 0
  {
    hide StmtFrag, SeqFrag, CatchesFrag, LayoutSeq, LayoutCatches, Exits;
    var k := n + SizeSeq(s.block);
    var j := k + SizeCatches(s.catches);
    assert entry[0] in entry;
    TryUnfolds(s, n, entry, exit);
    ListExits(s.block, n, [entry[0]], exit);
    CatchesExit(s.catches, k, entry, exit);
    var b, c := SeqFrag(s.block, n, [entry[0]], exit), CatchesFrag(s.catches, k, entry, exit);
    ExitsEither(b.edges, c.edges, exit);
    if s.fin != [] {
      var f := SeqFrag(s.fin, j + 1, [j], exit);
      ListExits(s.fin, j + 1, [j], exit);
      EntersNoExit(b.last + c.last, j, exit);
      ExitsEither(b.edges + c.edges, Into(b.last + c.last, j), exit);
      ExitsEither(b.edges + c.edges + Into(b.last + c.last, j), f.edges, exit);
    }
  }

  lemma {:induction false} ListExits(ss: seq<Stmt>, n: nat, entry: seq<nat>, exit: nat)
    requires OrderedSeq(ss) && Below(entry, n) && exit < n
    ensures Exits(SeqFrag(ss, n, entry, exit).edges, exit) <==> SeqReturns(ss)
    decreases ss
  {
    hide SeqFrag, StmtFrag, LayoutSeq, Layout, Ordered, Open, Contained, HasReturn;
    if ss == [] {
      NoStmts(n, entry, exit);
    } else {
      var f := StmtFrag(ss[0], n, entry, exit);
      var k := n + Size(ss[0]);
      SeqHead(ss, n, entry, exit);
      ReturnsExit(ss[0], n, entry, exit);
      if ss[1..] != [] {
        StmtShaped(ss[0], n, entry, exit);
        FrontierBelow(f, entry, n, k, exit, true);
        ListExits(ss[1..], k, f.last, exit);
        ExitsEither(f.edges, SeqFrag(ss[1..], k, f.last, exit).edges, exit);
      }
    }
  }

  lemma {:induction false} CatchesExit(cs: seq<Catch>, n: nat, entry: seq<nat>, exit: nat)
    requires OrderedCatches(cs) && Below(entry, n) && exit < n
    ensures Exits(CatchesFrag(cs, n, entry, exit).edges, exit) <==> CatchesReturn(cs)
    decreases cs
  {
    hide CatchesFrag, SeqFrag, LayoutCatches, LayoutSeq, Exits;
    if cs == [] {
      NoCatches(n, entry, exit);
      NoEdgeNoExit(exit);
    } else {
      var k := n + 1 + SizeSeq(cs[0].body);
      assert cs[0..] == cs;
      CatchesUnfold(cs, 0, n, entry, exit);
      ListExits(cs[0].body, n + 1, [n], exit);
      CatchesExit(cs[1..], k, entry, exit);
      EntersNoExit(entry, n, exit);
      var b := SeqFrag(cs[0].body, n + 1, [n], exit);
      ExitsEither(Into(entry, n), b.edges, exit);
      ExitsEither(Into(entry, n) + b.edges, CatchesFrag(cs[1..], k, entry, exit).edges, exit);
    }
  }

  lemma NoEdgeNoExit(exit: nat)
    ensures !Exits({}, exit)
  {
  }

  lemma {:induction false} CasesExit(cs: seq<Case>, n: nat, switch: nat, exit: nat)
    requires OrderedCases(cs) && switch < n && exit < n
    ensures Exits(CasesFrag(cs, n, switch, exit).edges, exit) <==> CasesReturn(cs)
    decreases cs
  {
    hide CasesFrag, SeqFrag, LayoutCases, LayoutSeq, Exits;
    if cs == [] {
      NoCases(n, switch, exit);
      NoEdgeNoExit(exit);
    } else {
      var k := n + 1 + SizeSeq(cs[0].body);
      assert cs[0..] == cs;
      CasesUnfold(cs, 0, n, switch, exit);
      ListExits(cs[0].body, n + 1, [n], exit);
      CasesExit(cs[1..], k, switch, exit);
      EntersNoExit([switch], n, exit);
      assert Into([switch], n) == {(switch, n)};
      var b := SeqFrag(cs[0].body, n + 1, [n], exit);
      ExitsEither(Into([switch], n), b.edges, exit);
      ExitsEither(Into([switch], n) + b.edges, CasesFrag(cs[1..], k, switch, exit).edges, exit);
    }
  }

  // ----------------------------------------------------- every node leads to the exit

  /** Whatever leads into `out` belongs to it. */
  ghost predicate BackClosed(g: set<Edge>, out: iset<nat>) {
    forall e :: e in g && e.1 in out ==> e.0 in out
  }

  ghost predicate Holds(out: iset<nat>, nodes: set<nat>) {
    forall x :: x in nodes ==> x in out
  }

  ghost predicate HoldsRange(out: iset<nat>, lo: nat, hi: nat) {
    forall m :: Inside(m, lo, hi) ==> m in out
  }

  lemma EntersOut(g: set<Edge>, out: iset<nat>, entry: seq<nat>, n: nat)
    requires Into(entry, n) <= g && BackClosed(g, out) && n in out
    ensures forall x :: x in entry ==> x in out
  {
    assert forall x :: x in entry ==> (x, n) in Into(entry, n);
  }

  /**
   A set that holds the exit, what leads into it and what the code goes on from holds
   the whole statement, and what the statement goes on from.
   */
  lemma {:induction false} StmtLeads(
      s: Stmt, n: nat, entry: seq<nat>, exit: nat, g: set<Edge>, out: iset<nat>, part: Part, led: bool)
    requires Ordered(s) && Entered(s, led) && Leads(s, part) && Below(entry, n) && exit < n
    requires StmtFrag(s, n, entry, exit).edges <= g && BackClosed(g, out) && exit in out
    requires Holds(out, Kept(StmtFrag(s, n, entry, exit).last, part))
    ensures HoldsRange(out, n, n + Size(s)) && Holds(out, Kept(entry, Feeds(s, part)))
    decreases s, 1
  {
    match s
    case Simple => EntersOut(g, out, entry, n);
    case Return =>
      assert (n, exit) in g;
      EntersOut(g, out, entry, n);
    case If(_, _) => IfLeads(s, n, entry, exit, g, out, part);
    case While(body) => LoopLeads(s, body, n, entry, exit, g, out, part);
    case For(body) => LoopLeads(s, body, n, entry, exit, g, out, part);
    case Switch(_) => SwitchLeads(s, n, entry, exit, g, out, part, led);
    case Block(stmts) =>
      assert entry[0] in entry;
      SeqLeads(stmts, n, [entry[0]], exit, g, out, part, led);
    case Try(_, _, _) => TryLeads(s, n, entry, exit, g, out, part, led);
  }

  lemma {:induction false} IfLeads(
      s: Stmt, n: nat, entry: seq<nat>, exit: nat, g: set<Edge>, out: iset<nat>, part: Part)
    requires s.If? && Ordered(s) && Entered(s, false) && Leads(s, part) && Below(entry, n) && exit < n
    requires StmtFrag(s, n, entry, exit).edges <= g && BackClosed(g, out) && exit in out
    requires Holds(out, Kept(StmtFrag(s, n, entry, exit).last, part))
    ensures HoldsRange(out, n, n + Size(s)) && Holds(out, Kept(entry, All))
    decreases s, 0
  {
    hide StmtFrag, Layout, Feeds, Open;
    var k := n + 1 + Size(s.thn);
    var t := StmtFrag(s.thn, n + 1, [n], exit);
    StmtShaped(s.thn, n + 1, [n], exit);
    if s.els.None? {
      IfUnfolds(s, n, entry, exit);
      StmtLeads(s.thn, n + 1, [n], exit, g, out, part, true);
    } else {
      var rest := Rest(part, Open(s.thn));
      IfElseUnfolds(s, n, entry, exit);
      StmtLeads(s.thn, n + 1, [n], exit, g, out, part, true);
      StmtLeads(s.els.value, k, [n], exit, g, out, rest, true);
      if Feeds(s.els.value, rest).Nothing? { FeedsNothing(s.els.value, rest); }
    }
    if Feeds(s.thn, part).Nothing? { FeedsNothing(s.thn, part); }
    assert n in out;
    EntersOut(g, out, entry, n);
  }

  lemma {:induction false} LoopLeads(
      s: Stmt, body: Stmt, n: nat, entry: seq<nat>, exit: nat, g: set<Edge>, out: iset<nat>, part: Part)
    requires (s == While(body) || s == For(body)) && Ordered(s) && Entered(s, false) && Leads(s, part)
    requires Below(entry, n) && exit < n
    requires StmtFrag(s, n, entry, exit).edges <= g && BackClosed(g, out) && exit in out
    requires Holds(out, Kept(StmtFrag(s, n, entry, exit).last, part))
    ensures HoldsRange(out, n, n + Size(s)) && Holds(out, Kept(entry, All))
    decreases s, 0
  {
    hide StmtFrag, Layout, Feeds;
    var b := StmtFrag(body, n + 1, [n], exit);
    LoopUnfolds(s, body, n, entry, exit);
    LoopFragIs(n, entry, b);
    if part.Nothing? && n !in out {
      LoopEscapes(body, n, exit, g, out);
      assert false;
    }
    EntersOut(g, out, entry, n);
    assert forall x :: x in b.last ==> (x, n) in Into(b.last, n);
    StmtLeads(body, n + 1, [n], exit, g, out, All, true);
  }

  /** A loop with a return leads out, for its condition reaches the return. */
  lemma {:induction false} LoopEscapes(body: Stmt, n: nat, exit: nat, g: set<Edge>, out: iset<nat>)
    requires Ordered(body) && Entered(body, true) && HasReturn(body) && exit < n
    requires BackClosed(g, out) && exit in out
    requires var b := StmtFrag(body, n + 1, [n], exit); b.edges + Labelled(n, b.last) <= g
    ensures n in out
  {
    hide StmtFrag;
    var b := StmtFrag(body, n + 1, [n], exit);
    if n !in out {
      var r := iset v: nat | v !in out;
      HeadIsLed(g, r, n, b.last);
      ReturnsExit(body, n + 1, [n], exit);
      StmtShaped(body, n + 1, [n], exit);
      var e :| e in b.edges && e.1 == exit;
      EntryReaches(body, n + 1, [n], exit, g, r, true, e.0);
      assert false;
    }
  }

  lemma {:induction false} SwitchLeads(
      s: Stmt, n: nat, entry: seq<nat>, exit: nat, g: set<Edge>, out: iset<nat>, part: Part, led: bool)
    requires s.Switch? && Ordered(s) && Entered(s, led) && Leads(s, part) && Below(entry, n) && exit < n
    requires StmtFrag(s, n, entry, exit).edges <= g && BackClosed(g, out) && exit in out
    requires Holds(out, Kept(StmtFrag(s, n, entry, exit).last, part))
    ensures HoldsRange(out, n, n + Size(s)) && Holds(out, Kept(entry, All))
    decreases s, 0
  {
    hide CasesFrag, LayoutCases;
    NoCases(n + 1, n, exit);
    CasesLead(s.cases, n + 1, n, exit, g, out, part, led);
    assert n in out;
    EntersOut(g, out, entry, n);
  }

  lemma {:induction false} TryLeads(
      s: Stmt, n: nat, entry: seq<nat>, exit: nat, g: set<Edge>, out: iset<nat>, part: Part, led: bool)
    requires s.Try? && Ordered(s) && Entered(s, led) && Leads(s, part) && Below(entry, n) && exit < n
    requires StmtFrag(s, n, entry, exit).edges <= g && BackClosed(g, out) && exit in out
    requires Holds(out, Kept(StmtFrag(s, n, entry, exit).last, part))
    ensures HoldsRange(out, n, n + Size(s)) && Holds(out, Kept(entry, Feeds(s, part)))
    decreases s, 0
  {
    hide StmtFrag, SeqFrag, CatchesFrag, LayoutSeq, LayoutCatches, FeedsSeq;
    var k := n + SizeSeq(s.block);
    var j := k + SizeCatches(s.catches);
    assert entry[0] in entry;
    TryLayout(s);
    TryUnfolds(s, n, entry, exit);
    TryOpens(s, n, entry, exit);
    NoCatches(k, entry, exit);
    var b := SeqFrag(s.block, n, [entry[0]], exit);
    var c := CatchesFrag(s.catches, k, entry, exit);
    if s.fin != [] {
      SeqLeads(s.fin, j + 1, [j], exit, g, out, part, led);
      EntersOut(g, out, b.last + c.last, j);
      SeqLeads(s.block, n, [entry[0]], exit, g, out, All, false);
      CatchesLead(s.catches, k, entry, exit, g, out, All, false);
    } else {
      SeqLeads(s.block, n, [entry[0]], exit, g, out, part, led);
      CatchesLead(s.catches, k, entry, exit, g, out, Rest(part, OpenSeq(s.block)),
                  led && !OpenSeq(s.block));
    }
  }

  lemma {:induction false} SeqLeads(
      ss: seq<Stmt>, n: nat, entry: seq<nat>, exit: nat, g: set<Edge>, out: iset<nat>, part: Part,
      led: bool)
    requires OrderedSeq(ss) && EnteredSeq(ss, led) && LeadsSeq(ss, part) && Below(entry, n) && exit < n
    requires SeqFrag(ss, n, entry, exit).edges <= g && BackClosed(g, out) && exit in out
    requires Holds(out, Kept(SeqFrag(ss, n, entry, exit).last, part))
    ensures HoldsRange(out, n, n + SizeSeq(ss)) && Holds(out, Kept(entry, FeedsSeq(ss, part)))
    decreases ss
  {
    hide SeqFrag, StmtFrag, LayoutSeq, Layout, Ordered, Open, Contained, Entered, Leads, Feeds, Kept;
    if ss == [] {
      NoStmts(n, entry, exit);
    } else {
      var f := StmtFrag(ss[0], n, entry, exit);
      var k := n + Size(ss[0]);
      SeqHead(ss, n, entry, exit);
      if ss[1..] != [] {
        StmtShaped(ss[0], n, entry, exit);
        FrontierBelow(f, entry, n, k, exit, true);
        SeqLeads(ss[1..], k, f.last, exit, g, out, part, led);
      }
      StmtLeads(ss[0], n, entry, exit, g, out, FeedsSeq(ss[1..], part), led && KeepsHeadSeq(ss[1..]));
    }
  }

  lemma {:induction false} CatchesLead(
      cs: seq<Catch>, n: nat, entry: seq<nat>, exit: nat, g: set<Edge>, out: iset<nat>, part: Part,
      led: bool)
    requires OrderedCatches(cs) && EnteredCatches(cs, led) && LeadsCatches(cs, part)
    requires Below(entry, n) && exit < n
    requires CatchesFrag(cs, n, entry, exit).edges <= g && BackClosed(g, out) && exit in out
    requires Holds(out, Kept(CatchesFrag(cs, n, entry, exit).last, part))
    ensures HoldsRange(out, n, n + SizeCatches(cs))
    ensures cs != [] ==> Holds(out, Kept(entry, All))
    decreases cs
  {
    hide CatchesFrag, SeqFrag, LayoutCatches, LayoutSeq, OrderedSeq, EnteredSeq, OpenSeq, LeadsSeq,
         FeedsSeq, Contained;
    if cs == [] {
      NoCatches(n, entry, exit);
    } else {
      var k := n + 1 + SizeSeq(cs[0].body);
      assert cs[0..] == cs;
      CatchesUnfold(cs, 0, n, entry, exit);
      SeqShaped(cs[0].body, n + 1, [n], exit);
      SeqLeads(cs[0].body, n + 1, [n], exit, g, out, part, led);
      assert n in out;
      EntersOut(g, out, entry, n);
      CatchesLead(cs[1..], k, entry, exit, g, out, Rest(part, OpenSeq(cs[0].body)),
                  led && !OpenSeq(cs[0].body));
    }
  }

  lemma {:induction false} CasesLead(
      cs: seq<Case>, n: nat, switch: nat, exit: nat, g: set<Edge>, out: iset<nat>, part: Part,
      led: bool)
    requires OrderedCases(cs) && EnteredCases(cs, led) && LeadsCases(cs, part)
    requires switch < n && exit < n
    requires CasesFrag(cs, n, switch, exit).edges <= g && BackClosed(g, out) && exit in out
    requires Holds(out, Kept(CasesFrag(cs, n, switch, exit).last, part))
    ensures HoldsRange(out, n, n + SizeCases(cs)) && (cs != [] ==> switch in out)
    decreases cs
  {
    hide CasesFrag, SeqFrag, LayoutCases, LayoutSeq, OrderedSeq, EnteredSeq, OpenSeq, LeadsSeq,
         FeedsSeq, Contained;
    if cs == [] {
      NoCases(n, switch, exit);
    } else {
      var k := n + 1 + SizeSeq(cs[0].body);
      assert cs[0..] == cs;
      CasesUnfold(cs, 0, n, switch, exit);
      SeqShaped(cs[0].body, n + 1, [n], exit);
      SeqLeads(cs[0].body, n + 1, [n], exit, g, out, part, led);
      assert n in out && (switch, n) in g;
      CasesLead(cs[1..], k, switch, exit, g, out, Rest(part, OpenSeq(cs[0].body)),
                led && !OpenSeq(cs[0].body));
    }
  }

  // ------------------------------------------------------- what has no way on at all

  /** Edges and kept nodes of a fragment leave its entry only where it goes on from. */
  ghost predicate FedBy(f: Frag, entry: seq<nat>, lo: nat, hi: nat, feeds: Part, part: Part) {
    && (forall e :: e in f.edges && !Inside(e.0, lo, hi) ==> e.0 in Kept(entry, feeds))
    && (forall x :: x in Kept(f.last, part) && !Inside(x, lo, hi) ==> x in Kept(entry, feeds))
  }

  lemma {:induction false} StmtFedBy(s: Stmt, n: nat, entry: seq<nat>, exit: nat, part: Part)
    requires Ordered(s) && Below(entry, n) && exit < n
    ensures FedBy(StmtFrag(s, n, entry, exit), entry, n, n + Size(s), Feeds(s, part), part)
  {
    hide StmtFrag, Layout, Feeds;
    StmtShaped(s, n, entry, exit);
    var f := StmtFrag(s, n, entry, exit);
    assert f.last != [] ==> f.last[0] in f.last;
    if Feeds(s, part).Nothing? {
      FeedsNothing(s, part);
      NoNodesNoEdges(f, entry, n, exit, Open(s));
    } else if Feeds(s, part).Head? {
      OnlyHead(s, n, entry, exit, part);
    }
  }

  /** A nested block, or a try without catches, takes over the head alone. */
  lemma {:induction false} OnlyHead(s: Stmt, n: nat, entry: seq<nat>, exit: nat, part: Part)
    requires Ordered(s) && Below(entry, n) && exit < n && Feeds(s, part).Head?
    ensures FedBy(StmtFrag(s, n, entry, exit), entry, n, n + Size(s), Head, part)
  {
    hide SeqFrag, CatchesFrag, LayoutSeq, LayoutCatches;
    assert entry[0] in entry;
    var f := StmtFrag(s, n, entry, exit);
    assert f.last != [] ==> f.last[0] in f.last;
    if s.Block? {
      SeqShaped(s.stmts, n, [entry[0]], exit);
    } else {
      var k := n + SizeSeq(s.block);
      TryLayout(s);
      TryUnfolds(s, n, entry, exit);
      NoCatches(k, entry, exit);
      SeqShaped(s.block, n, [entry[0]], exit);
      if s.fin != [] { SeqShaped(s.fin, k + 1, [k], exit); }
    }
  }

  lemma {:induction false} SeqFedBy(ss: seq<Stmt>, n: nat, entry: seq<nat>, exit: nat, part: Part)
    requires OrderedSeq(ss) && Below(entry, n) && exit < n
    ensures FedBy(SeqFrag(ss, n, entry, exit), entry, n, n + SizeSeq(ss), FeedsSeq(ss, part), part)
    decreases ss
  {
    hide SeqFrag, StmtFrag, LayoutSeq, Layout, Ordered, Open, Contained, Feeds, Kept;
    if ss == [] {
      NoStmts(n, entry, exit);
    } else {
      var f := StmtFrag(ss[0], n, entry, exit);
      var k := n + Size(ss[0]);
      SeqHead(ss, n, entry, exit);
      StmtFedBy(ss[0], n, entry, exit, FeedsSeq(ss[1..], part));
      if ss[1..] != [] {
        StmtShaped(ss[0], n, entry, exit);
        FrontierBelow(f, entry, n, k, exit, true);
        SeqFedBy(ss[1..], k, f.last, exit, part);
      }
    }
  }

  /** Out of the fragment `g` leads only from what the code goes on from. */
  ghost predicate Confined(g: set<Edge>, f: Frag, lo: nat, hi: nat, part: Part) {
    forall e :: e in g && Inside(e.0, lo, hi) ==> e in f.edges || e.0 in Kept(f.last, part)
  }

  /** A non-empty set of the fragment's nodes that nothing leads out of. */
  ghost predicate Trap(g: set<Edge>, r: set<nat>, lo: nat, hi: nat) {
    && r != {} && (forall x :: x in r ==> Inside(x, lo, hi))
    && (forall e :: e in g && e.0 in r ==> e.1 in r)
  }

  lemma AloneIsTrap(g: set<Edge>, n: nat, lo: nat, hi: nat)
    requires Inside(n, lo, hi) && forall e :: e in g && e.0 == n ==> e.1 == n
    ensures Trap(g, {n}, lo, hi)
  {
    assert n in {n};
  }

  lemma {:induction false} StmtTraps(
      s: Stmt, n: nat, entry: seq<nat>, exit: nat, g: set<Edge>, part: Part) returns (r: set<nat>)
    requires Ordered(s) && !Leads(s, part) && Below(entry, n) && exit < n
    requires Confined(g, StmtFrag(s, n, entry, exit), n, n + Size(s), part)
    ensures Trap(g, r, n, n + Size(s))
    decreases s, 1
  {
    match s
    case Simple =>
      r := {n};
      AloneIsTrap(g, n, n, n + 1);
    case If(_, _) => r := IfTraps(s, n, entry, exit, g, part);
    case While(body) => r := LoopTraps(s, body, n, entry, exit, g, part);
    case For(body) => r := LoopTraps(s, body, n, entry, exit, g, part);
    case Switch(_) => r := SwitchTraps(s, n, entry, exit, g, part);
    case Block(stmts) =>
      assert entry[0] in entry;
      r := SeqTraps(stmts, n, [entry[0]], exit, g, part);
    case Try(_, _, _) => r := TryTraps(s, n, entry, exit, g, part);
  }

  lemma {:induction false} IfTraps(
      s: Stmt, n: nat, entry: seq<nat>, exit: nat, g: set<Edge>, part: Part) returns (r: set<nat>)
    requires s.If? && Ordered(s) && !Leads(s, part) && Below(entry, n) && exit < n
    requires Confined(g, StmtFrag(s, n, entry, exit), n, n + Size(s), part)
    ensures Trap(g, r, n, n + Size(s))
    decreases s, 0
  {
    hide StmtFrag, Layout, Open, Shaped, Confined;
    var k, hi := n + 1 + Size(s.thn), n + Size(s);
    var t := StmtFrag(s.thn, n + 1, [n], exit);
    StmtShaped(s.thn, n + 1, [n], exit);
    if s.els.None? {
      IfUnfolds(s, n, entry, exit);
      ThenConfined(g, t, entry, n, hi, exit, part, Open(s.thn));
      if !Leads(s.thn, part) {
        r := StmtTraps(s.thn, n + 1, [n], exit, g, part);
      } else {
        NoNodesNoEdges(t, [n], n + 1, exit, Open(s.thn));
        r := {n};
        AloneIsTrap(g, n, n, hi);
      }
    } else {
      var e := StmtFrag(s.els.value, k, [n], exit);
      var rest := Rest(part, Open(s.thn));
      IfElseUnfolds(s, n, entry, exit);
      StmtShaped(s.els.value, k, [n], exit);
      ElseConfined(g, t, e, entry, n, k, hi, exit, part, Open(s.thn), Open(s.els.value));
      if !Leads(s.thn, part) {
        r := StmtTraps(s.thn, n + 1, [n], exit, g, part);
      } else if !Leads(s.els.value, rest) {
        r := StmtTraps(s.els.value, k, [n], exit, g, rest);
      } else {
        NoNodesNoEdges(t, [n], n + 1, exit, Open(s.thn));
        NoNodesNoEdges(e, [n], k, exit, Open(s.els.value));
        r := {n};
        AloneIsTrap(g, n, n, hi);
      }
    }
  }

  /** What confines an if confines its arm; dropped and without nodes, it has no way on. */
  lemma ThenConfined(g: set<Edge>, t: Frag, entry: seq<nat>, n: nat, hi: nat, exit: nat, part: Part, opens: bool)
    requires Below(entry, n) && exit < n < hi && Shaped(t, [n], n + 1, hi, exit, opens)
    requires Confined(g, Frag(Into(entry, n) + t.edges + Labelled(n, t.last), t.last + [n]), n, hi, part)
    ensures Confined(g, t, n + 1, hi, part)
    ensures part.Nothing? && t.edges == {} ==> forall e :: e in g && e.0 == n ==> e in Labelled(n, t.last)
    ensures n + 1 == hi ==> Labelled(n, t.last) <= {(n, n)}
  {
    assert t.last != [] ==> t.last[0] in t.last;
  }

  lemma ElseConfined(
      g: set<Edge>, t: Frag, e: Frag, entry: seq<nat>, n: nat, k: nat, hi: nat, exit: nat, part: Part,
      opens: bool, elseOpens: bool)
    requires Below(entry, n) && exit < n < k <= hi
    requires Shaped(t, [n], n + 1, k, exit, opens) && Shaped(e, [n], k, hi, exit, elseOpens)
    requires Confined(g, Frag(Into(entry, n) + t.edges + Labelled(n, t.last) + e.edges + Labelled(n, e.last),
                              t.last + e.last), n, hi, part)
    ensures Confined(g, t, n + 1, k, part) && Confined(g, e, k, hi, Rest(part, opens))
    ensures part.Nothing? && t.edges == {} && e.edges == {} ==>
              forall d :: d in g && d.0 == n ==> d in Labelled(n, t.last) + Labelled(n, e.last)
    ensures n + 1 == k ==> Labelled(n, t.last) <= {(n, n)}
    ensures k == hi ==> Labelled(n, e.last) <= {(n, n)}
  {
    assert t.last != [] ==> t.last[0] in t.last && (t.last + e.last)[0] == t.last[0];
    assert e.last != [] ==> e.last[0] in e.last;
  }

  lemma {:induction false} LoopTraps(
      s: Stmt, body: Stmt, n: nat, entry: seq<nat>, exit: nat, g: set<Edge>, part: Part)
    returns (r: set<nat>)
    requires (s == While(body) || s == For(body)) && Ordered(s) && !Leads(s, part)
    requires Below(entry, n) && exit < n
    requires Confined(g, StmtFrag(s, n, entry, exit), n, n + Size(s), part)
    ensures Trap(g, r, n, n + Size(s))
    decreases s, 0
  {
    hide StmtFrag, Layout;
    var b := StmtFrag(body, n + 1, [n], exit);
    LoopUnfolds(s, body, n, entry, exit);
    LoopFragIs(n, entry, b);
    StmtShaped(body, n + 1, [n], exit);
    if !Leads(body, All) {
      r := StmtTraps(body, n + 1, [n], exit, g, All);
    } else {
      LoopCloses(s, body, n, entry, exit);
      var hi := n + Size(s);
      r := set x: nat | x < hi && Inside(x, n, hi);
      assert Inside(n, n, hi) && n in r;
    }
  }

  /** A loop without a return keeps to itself. */
  lemma {:induction false} LoopCloses(s: Stmt, body: Stmt, n: nat, entry: seq<nat>, exit: nat)
    requires (s == While(body) || s == For(body)) && Ordered(s) && !HasReturn(body)
    requires Below(entry, n) && exit < n
    ensures forall e :: e in StmtFrag(s, n, entry, exit).edges ==> Inside(e.1, n, n + Size(s))
  {
    hide StmtFrag, Layout;
    StmtShaped(s, n, entry, exit);
    ReturnsExit(s, n, entry, exit);
  }

  lemma {:induction false} SwitchTraps(
      s: Stmt, n: nat, entry: seq<nat>, exit: nat, g: set<Edge>, part: Part) returns (r: set<nat>)
    requires s.Switch? && Ordered(s) && !Leads(s, part) && Below(entry, n) && exit < n
    requires Confined(g, StmtFrag(s, n, entry, exit), n, n + Size(s), part)
    ensures Trap(g, r, n, n + Size(s))
    decreases s, 0
  {
    hide CasesFrag, LayoutCases;
    CasesShaped(s.cases, n + 1, n, exit);
    NoCases(n + 1, n, exit);
    if !LeadsCases(s.cases, part) {
      r := CasesTrap(s.cases, n + 1, n, exit, g, part);
    } else {
      r := {n};
      AloneIsTrap(g, n, n, n + Size(s));
    }
  }

  lemma {:induction false} TryTraps(
      s: Stmt, n: nat, entry: seq<nat>, exit: nat, g: set<Edge>, part: Part) returns (r: set<nat>)
    requires s.Try? && Ordered(s) && !Leads(s, part) && Below(entry, n) && exit < n
    requires Confined(g, StmtFrag(s, n, entry, exit), n, n + Size(s), part)
    ensures Trap(g, r, n, n + Size(s))
    decreases s, 0
  {
    hide StmtFrag, SeqFrag, CatchesFrag, LayoutSeq, LayoutCatches, FeedsSeq, Shaped, Confined;
    var k := n + SizeSeq(s.block);
    var j, hi := k + SizeCatches(s.catches), n + Size(s);
    assert entry[0] in entry;
    TryLayout(s);
    TryUnfolds(s, n, entry, exit);
    TryOpens(s, n, entry, exit);
    SeqShaped(s.block, n, [entry[0]], exit);
    CatchesShaped(s.catches, k, entry, exit);
    var b, c := SeqFrag(s.block, n, [entry[0]], exit), CatchesFrag(s.catches, k, entry, exit);
    var open := OpenSeq(s.block);
    if s.fin != [] {
      var f := SeqFrag(s.fin, j + 1, [j], exit);
      SeqShaped(s.fin, j + 1, [j], exit);
      FinallyConfined(g, b, c, f, entry, n, k, j, hi, exit, part, open, OpenCatches(s.catches),
                      OpenSeq(s.fin));
      if !LeadsSeq(s.block, All) {
        r := SeqTraps(s.block, n, [entry[0]], exit, g, All);
      } else if !LeadsCatches(s.catches, All) {
        r := CatchesTrap(s.catches, k, entry, exit, g, All);
      } else if FeedsSeq(s.fin, part).Nothing? {
        SeqFeedsNothing(s.fin, part);
        NoNodesNoEdges(f, [j], j + 1, exit, OpenSeq(s.fin));
        r := {j};
        AloneIsTrap(g, j, n, hi);
      } else {
        r := SeqTraps(s.fin, j + 1, [j], exit, g, part);
      }
    } else {
      TryConfined(g, b, c, entry, n, k, j, exit, part, open, OpenCatches(s.catches));
      if !LeadsSeq(s.block, part) {
        r := SeqTraps(s.block, n, [entry[0]], exit, g, part);
      } else {
        r := CatchesTrap(s.catches, k, entry, exit, g, Rest(part, open));
      }
    }
  }

  lemma TryConfined(
      g: set<Edge>, b: Frag, c: Frag, entry: seq<nat>, n: nat, k: nat, j: nat, exit: nat, part: Part,
      opens: bool, catchOpens: bool)
    requires Below(entry, n) && exit < n <= k <= j
    requires Shaped(b, [entry[0]], n, k, exit, opens) && Shaped(c, entry, k, j, exit, catchOpens)
    requires forall x :: x in c.last ==> Inside(x, k, j)
    requires Confined(g, Frag(b.edges + c.edges, b.last + c.last), n, j, part)
    ensures Confined(g, b, n, k, part) && Confined(g, c, k, j, Rest(part, opens))
  {
    assert entry[0] in entry;
    assert c.last != [] ==> c.last[0] in c.last;
    assert b.last != [] ==> b.last[0] in b.last && (b.last + c.last)[0] == b.last[0];
  }

  lemma FinallyConfined(
      g: set<Edge>, b: Frag, c: Frag, f: Frag, entry: seq<nat>, n: nat, k: nat, j: nat, hi: nat, exit: nat,
      part: Part, opens: bool, catchOpens: bool, finOpens: bool)
    requires Below(entry, n) && exit < n <= k <= j < hi
    requires Shaped(b, [entry[0]], n, k, exit, opens) && Shaped(c, entry, k, j, exit, catchOpens)
    requires forall x :: x in c.last ==> Inside(x, k, j)
    requires Shaped(f, [j], j + 1, hi, exit, finOpens)
    requires Confined(g, Frag(b.edges + c.edges + Into(b.last + c.last, j) + f.edges, f.last), n, hi, part)
    ensures Confined(g, b, n, k, All) && Confined(g, c, k, j, All) && Confined(g, f, j + 1, hi, part)
    ensures part.Nothing? && f.edges == {} ==> forall e :: e in g ==> e.0 != j
  {
    assert entry[0] in entry;
    assert f.last != [] ==> f.last[0] in f.last;
  }

  lemma {:induction false} SeqTraps(
      ss: seq<Stmt>, n: nat, entry: seq<nat>, exit: nat, g: set<Edge>, part: Part) returns (r: set<nat>)
    requires OrderedSeq(ss) && !LeadsSeq(ss, part) && Below(entry, n) && exit < n
    requires Confined(g, SeqFrag(ss, n, entry, exit), n, n + SizeSeq(ss), part)
    ensures Trap(g, r, n, n + SizeSeq(ss))
    decreases ss
  {
    hide SeqFrag, StmtFrag, LayoutSeq, Layout, Ordered, Open, Leads, Feeds, Kept;
    var f := StmtFrag(ss[0], n, entry, exit);
    var k := n + Size(ss[0]);
    SeqHead(ss, n, entry, exit);
    if ss[1..] == [] {
      r := StmtTraps(ss[0], n, entry, exit, g, part);
    } else {
      StmtShaped(ss[0], n, entry, exit);
      FrontierBelow(f, entry, n, k, exit, true);
      SeqShaped(ss[1..], k, f.last, exit);
      if !Leads(ss[0], FeedsSeq(ss[1..], part)) {
        SeqFedBy(ss[1..], k, f.last, exit, part);
        r := StmtTraps(ss[0], n, entry, exit, g, FeedsSeq(ss[1..], part));
      } else {
        r := SeqTraps(ss[1..], k, f.last, exit, g, part);
      }
    }
  }

  lemma {:induction false} CatchesTrap(
      cs: seq<Catch>, n: nat, entry: seq<nat>, exit: nat, g: set<Edge>, part: Part)
    returns (r: set<nat>)
    requires OrderedCatches(cs) && !LeadsCatches(cs, part) && Below(entry, n) && exit < n
    requires Confined(g, CatchesFrag(cs, n, entry, exit), n, n + SizeCatches(cs), part)
    ensures Trap(g, r, n, n + SizeCatches(cs))
    decreases cs
  {
    hide CatchesFrag, SeqFrag, LayoutCatches, LayoutSeq, OrderedSeq, OpenSeq, LeadsSeq, FeedsSeq;
    var k := n + 1 + SizeSeq(cs[0].body);
    assert cs[0..] == cs;
    CatchesUnfold(cs, 0, n, entry, exit);
    SeqShaped(cs[0].body, n + 1, [n], exit);
    CatchesShaped(cs[1..], k, entry, exit);
    var b, c := SeqFrag(cs[0].body, n + 1, [n], exit), CatchesFrag(cs[1..], k, entry, exit);
    ArmsConfined(g, Into(entry, n), b, c, n, k, n + SizeCatches(cs), part, OpenSeq(cs[0].body));
    if !LeadsSeq(cs[0].body, part) {
      r := SeqTraps(cs[0].body, n + 1, [n], exit, g, part);
    } else if FeedsSeq(cs[0].body, part).Nothing? {
      SeqFeedsNothing(cs[0].body, part);
      NoNodesNoEdges(b, [n], n + 1, exit, OpenSeq(cs[0].body));
      r := {n};
      AloneIsTrap(g, n, n, n + SizeCatches(cs));
    } else {
      r := CatchesTrap(cs[1..], k, entry, exit, g, Rest(part, OpenSeq(cs[0].body)));
    }
  }

  /** What confines a list of arms confines the first one's body and the others. */
  lemma ArmsConfined(
      g: set<Edge>, enters: set<Edge>, b: Frag, c: Frag, n: nat, k: nat, hi: nat, part: Part, open: bool)
    requires n < k <= hi && (b.last != [] <==> open)
    requires Confined(g, Frag(enters + b.edges + c.edges, b.last + c.last), n, hi, part)
    requires forall e :: e in enters ==> e.0 < n
    requires forall e :: e in b.edges ==> Inside(e.0, n, k)
    requires forall e :: e in c.edges ==> e.0 < n || Inside(e.0, k, hi)
    requires forall x :: x in b.last ==> Inside(x, n, k)
    requires forall x :: x in c.last ==> Inside(x, k, hi)
    ensures Confined(g, b, n + 1, k, part) && Confined(g, c, k, hi, Rest(part, open))
  {
    assert c.last != [] ==> c.last[0] in c.last;
    assert b.last != [] ==> b.last[0] in b.last && (b.last + c.last)[0] == b.last[0];
  }

  lemma {:induction false} CasesTrap(
      cs: seq<Case>, n: nat, switch: nat, exit: nat, g: set<Edge>, part: Part) returns (r: set<nat>)
    requires OrderedCases(cs) && !LeadsCases(cs, part) && switch < n && exit < n
    requires Confined(g, CasesFrag(cs, n, switch, exit), n, n + SizeCases(cs), part)
    ensures Trap(g, r, n, n + SizeCases(cs))
    decreases cs
  {
    hide CasesFrag, SeqFrag, LayoutCases, LayoutSeq, OrderedSeq, OpenSeq, LeadsSeq, FeedsSeq;
    var k := n + 1 + SizeSeq(cs[0].body);
    assert cs[0..] == cs;
    CasesUnfold(cs, 0, n, switch, exit);
    SeqShaped(cs[0].body, n + 1, [n], exit);
    CasesShaped(cs[1..], k, switch, exit);
    var b, c := SeqFrag(cs[0].body, n + 1, [n], exit), CasesFrag(cs[1..], k, switch, exit);
    ArmsConfined(g, {(switch, n)}, b, c, n, k, n + SizeCases(cs), part, OpenSeq(cs[0].body));
    if !LeadsSeq(cs[0].body, part) {
      r := SeqTraps(cs[0].body, n + 1, [n], exit, g, part);
    } else if FeedsSeq(cs[0].body, part).Nothing? {
      SeqFeedsNothing(cs[0].body, part);
      NoNodesNoEdges(b, [n], n + 1, exit, OpenSeq(cs[0].body));
      r := {n};
      AloneIsTrap(g, n, n, n + SizeCases(cs));
    } else {
      r := CasesTrap(cs[1..], k, switch, exit, g, Rest(part, OpenSeq(cs[0].body)));
    }
  }
}
