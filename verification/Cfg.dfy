/**
 The control-flow-graph builder: a translation from Java statement trees to a
 directed graph that threads a frontier of "last nodes".

 `StmtFrag` specifies what one call adds to the graph; `Builder` is the mutating
 builder itself, proved against that specification.
 */
module Cfg {
  import opened Wrappers

  datatype Case = Case(isDefault: bool, body: seq<Stmt>)
  datatype Catch = Catch(body: seq<Stmt>)

  /** `Simple` stands for every statement that becomes one plain node. */
  datatype Stmt =
    | Simple
    | Return
    | If(thn: Stmt, els: Option<Stmt>)
    | While(body: Stmt)
    | For(body: Stmt)
    | Try(block: seq<Stmt>, catches: seq<Catch>, fin: seq<Stmt>)
    | Switch(cases: seq<Case>)
    | Block(stmts: seq<Stmt>)

  datatype Kind = Entry | Exit | Statement | Branch

  type Edge = (nat, nat)

  /** What translating a statement adds: edges, and the frontier it leaves open. */
  datatype Frag = Frag(edges: set<Edge>, last: seq<nat>)

  const ENTRY: nat := 0
  const EXIT: nat := 1

  // ---------------------------------------------------------------- layout

  /** The kinds of the nodes a statement owns, in source order. */
  function Layout(s: Stmt): seq<Kind>
    decreases s
  {
    match s
    case Simple => [Statement]
    case Return => [Statement]
    case If(thn, els) =>
      [Branch] + Layout(thn) + (if els.Some? then Layout(els.value) else [])
    case While(body) => [Branch] + Layout(body)
    case For(body) => [Branch] + Layout(body)
    case Try(block, catches, fin) =>
      LayoutSeq(block) + LayoutCatches(catches)
      + (if fin == [] then [] else [Statement] + LayoutSeq(fin))
    case Switch(cases) => [Branch] + LayoutCases(cases)
    case Block(stmts) => LayoutSeq(stmts)
  }

  function LayoutSeq(ss: seq<Stmt>): seq<Kind>
    decreases ss
  {
    if ss == [] then [] else Layout(ss[0]) + LayoutSeq(ss[1..])
  }

  function LayoutCatches(cs: seq<Catch>): seq<Kind>
    decreases cs
  {
    if cs == [] then [] else [Statement] + LayoutSeq(cs[0].body) + LayoutCatches(cs[1..])
  }

  function LayoutCases(cs: seq<Case>): seq<Kind>
    decreases cs
  {
    if cs == [] then [] else [Statement] + LayoutSeq(cs[0].body) + LayoutCases(cs[1..])
  }

  function Size(s: Stmt): nat { |Layout(s)| }
  function SizeSeq(ss: seq<Stmt>): nat { |LayoutSeq(ss)| }
  function SizeCatches(cs: seq<Catch>): nat { |LayoutCatches(cs)| }
  function SizeCases(cs: seq<Case>): nat { |LayoutCases(cs)| }

  // ------------------------------------------------------------- fragments

  /** One edge from every frontier node to `dst`. */
  function Into(frontier: seq<nat>, dst: nat): set<Edge> {
    set src | src in frontier :: (src, dst)
  }

  /** The extra edge a branch node gets to the head of its branch's frontier. */
  function Labelled(cond: nat, last: seq<nat>): set<Edge> {
    if last == [] then {} else {(cond, last[0])}
  }

  /** The single node a nested block or try is entered from. */
  function Pick(frontier: seq<nat>, exit: nat): nat {
    if frontier == [] then exit else frontier[0]
  }

  /** The graph a statement adds when its first node is numbered `n`. */
  function StmtFrag(s: Stmt, n: nat, entry: seq<nat>, exit: nat): Frag
    decreases s
  {
    match s
    case Simple => Frag(Into(entry, n), [n])
    case Return => Frag(Into(entry, n) + {(n, exit)}, [])
    case If(thn, els) =>
      var t := StmtFrag(thn, n + 1, [n], exit);
      var edges := Into(entry, n) + t.edges + Labelled(n, t.last);
      if els.None? then Frag(edges, t.last + [n])
      else
        var e := StmtFrag(els.value, n + 1 + Size(thn), [n], exit);
        Frag(edges + e.edges + Labelled(n, e.last), t.last + e.last)
    case While(body) =>
      LoopFrag(n, entry, StmtFrag(body, n + 1, [n], exit))
    case For(body) =>
      LoopFrag(n, entry, StmtFrag(body, n + 1, [n], exit))
    case Block(stmts) => SeqFrag(stmts, n, [Pick(entry, exit)], exit)
    case Try(block, catches, fin) =>
      var b := SeqFrag(block, n, [Pick(entry, exit)], exit);
      var c := CatchesFrag(catches, n + SizeSeq(block), entry, exit);
      var last := b.last + c.last;
      if fin == [] then Frag(b.edges + c.edges, last)
      else
        var m := n + SizeSeq(block) + SizeCatches(catches);
        var f := SeqFrag(fin, m + 1, [m], exit);
        Frag(b.edges + c.edges + Into(last, m) + f.edges, f.last)
    case Switch(cases) =>
      var c := CasesFrag(cases, n + 1, n, exit);
      Frag(Into(entry, n) + c.edges, if c.last == [] then [n] else c.last)
  }

  function LoopFrag(n: nat, entry: seq<nat>, body: Frag): Frag {
    Frag(Into(entry, n) + body.edges + Labelled(n, body.last) + Into(body.last, n), [n])
  }

  function SeqFrag(ss: seq<Stmt>, n: nat, entry: seq<nat>, exit: nat): Frag
    decreases ss
  {
    if ss == [] then Frag({}, entry)
    else
      var f := StmtFrag(ss[0], n, entry, exit);
      var r := SeqFrag(ss[1..], n + Size(ss[0]), f.last, exit);
      Frag(f.edges + r.edges, r.last)
  }

  function CatchesFrag(cs: seq<Catch>, n: nat, entry: seq<nat>, exit: nat): Frag
    decreases cs
  {
    if cs == [] then Frag({}, [])
    else
      var b := SeqFrag(cs[0].body, n + 1, [n], exit);
      var r := CatchesFrag(cs[1..], n + 1 + SizeSeq(cs[0].body), entry, exit);
      Frag(Into(entry, n) + b.edges + r.edges, b.last + r.last)
  }

  function CasesFrag(cs: seq<Case>, n: nat, switch: nat, exit: nat): Frag
    decreases cs
  {
    if cs == [] then Frag({}, [])
    else
      var b := SeqFrag(cs[0].body, n + 1, [n], exit);
      var r := CasesFrag(cs[1..], n + 1 + SizeSeq(cs[0].body), switch, exit);
      Frag({(switch, n)} + b.edges + r.edges, b.last + r.last)
  }

  /** The finished graph of a method body: its node kinds by id, and its edges. */
  function MethodNodes(body: seq<Stmt>): seq<Kind> {
    [Entry, Exit] + LayoutSeq(body)
  }

  function MethodEdges(body: seq<Stmt>): set<Edge> {
    if body == [] then {(ENTRY, EXIT)}
    else
      var f := SeqFrag(body, 2, [ENTRY], EXIT);
      f.edges + (set src | src in f.last && src != EXIT :: (src, EXIT))
  }

  // --------------------------------------------------------------- builder

  // Unfolding steps, one per loop or branching statement, so that the builder's
  // methods reason about one level of the specification at a time.

  lemma {:induction false} IfUnfolds(s: Stmt, n: nat, entry: seq<nat>, exit: nat)
    requires s.If? && s.els.None?
    ensures Layout(s) == [Branch] + Layout(s.thn) && Size(s) == 1 + Size(s.thn)
    ensures var t := StmtFrag(s.thn, n + 1, [n], exit);
            StmtFrag(s, n, entry, exit)
            == Frag(Into(entry, n) + t.edges + Labelled(n, t.last), t.last + [n])
  {
  }

  lemma {:induction false} IfElseUnfolds(s: Stmt, n: nat, entry: seq<nat>, exit: nat)
    requires s.If? && s.els.Some?
    ensures Layout(s) == [Branch] + Layout(s.thn) + Layout(s.els.value)
    ensures Size(s) == 1 + Size(s.thn) + Size(s.els.value)
    ensures var t := StmtFrag(s.thn, n + 1, [n], exit);
            var e := StmtFrag(s.els.value, n + 1 + Size(s.thn), [n], exit);
            StmtFrag(s, n, entry, exit)
            == Frag(Into(entry, n) + t.edges + Labelled(n, t.last) + e.edges + Labelled(n, e.last),
                    t.last + e.last)
  {
    hide *;
    IfElseLayout(s);
    IfElseFrag(s, n, entry, exit);
  }

  lemma {:induction false} IfElseLayout(s: Stmt)
    requires s.If? && s.els.Some?
    ensures Layout(s) == [Branch] + Layout(s.thn) + Layout(s.els.value)
    ensures Size(s) == 1 + Size(s.thn) + Size(s.els.value)
  {
  }

  lemma {:induction false} IfElseFrag(s: Stmt, n: nat, entry: seq<nat>, exit: nat)
    requires s.If? && s.els.Some?
    ensures var t := StmtFrag(s.thn, n + 1, [n], exit);
            var e := StmtFrag(s.els.value, n + 1 + Size(s.thn), [n], exit);
            StmtFrag(s, n, entry, exit)
            == Frag(Into(entry, n) + t.edges + Labelled(n, t.last) + e.edges + Labelled(n, e.last),
                    t.last + e.last)
  {
    hide Into, Labelled, Layout;
  }

  lemma {:induction false} LoopUnfolds(s: Stmt, body: Stmt, n: nat, entry: seq<nat>, exit: nat)
    requires s == While(body) || s == For(body)
    ensures Layout(s) == [Branch] + Layout(body) && Size(s) == 1 + Size(body)
    ensures StmtFrag(s, n, entry, exit) == LoopFrag(n, entry, StmtFrag(body, n + 1, [n], exit))
  {
  }

  lemma LoopFragIs(n: nat, entry: seq<nat>, b: Frag)
    ensures LoopFrag(n, entry, b)
            == Frag(Into(entry, n) + b.edges + Labelled(n, b.last) + Into(b.last, n), [n])
  {
  }

  lemma NoStmts(n: nat, entry: seq<nat>, exit: nat)
    ensures LayoutSeq([]) == [] && SizeSeq([]) == 0 && SeqFrag([], n, entry, exit) == Frag({}, entry)
  {
  }

  /** The first statement of a list and the rest. */
  lemma {:induction false} SeqHead(ss: seq<Stmt>, n: nat, entry: seq<nat>, exit: nat)
    requires ss != []
    ensures SizeSeq(ss) == Size(ss[0]) + SizeSeq(ss[1..])
    ensures var f := StmtFrag(ss[0], n, entry, exit);
            var r := SeqFrag(ss[1..], n + Size(ss[0]), f.last, exit);
            SeqFrag(ss, n, entry, exit) == Frag(f.edges + r.edges, r.last)
    ensures ss[1..] == [] ==>
              var f := StmtFrag(ss[0], n, entry, exit);
              SeqFrag(ss, n, entry, exit) == f && SizeSeq(ss) == Size(ss[0])
  {
    hide SeqFrag, StmtFrag, LayoutSeq, Layout;
    assert ss[0..] == ss;
    SeqUnfolds(ss, 0, n, entry, exit);
    var f := StmtFrag(ss[0], n, entry, exit);
    NoStmts(n + Size(ss[0]), f.last, exit);
    assert Frag(f.edges + {}, f.last) == f;
  }

  lemma {:induction false} SeqUnfolds(ss: seq<Stmt>, i: nat, n: nat, entry: seq<nat>, exit: nat)
    requires i < |ss|
    ensures LayoutSeq(ss[i..]) == Layout(ss[i]) + LayoutSeq(ss[i + 1..])
    ensures SizeSeq(ss[i..]) == Size(ss[i]) + SizeSeq(ss[i + 1..])
    ensures var f := StmtFrag(ss[i], n, entry, exit);
            var r := SeqFrag(ss[i + 1..], n + Size(ss[i]), f.last, exit);
            SeqFrag(ss[i..], n, entry, exit) == Frag(f.edges + r.edges, r.last)
  {
    hide SeqFrag, LayoutSeq, StmtFrag, Layout;
    assert ss[i..][0] == ss[i] && ss[i..][1..] == ss[i + 1..];
    SeqLayout(ss[i..]);
    SeqFragment(ss[i..], n, entry, exit);
  }

  lemma {:induction false} SeqLayout(ss: seq<Stmt>)
    requires ss != []
    ensures LayoutSeq(ss) == Layout(ss[0]) + LayoutSeq(ss[1..])
    ensures SizeSeq(ss) == Size(ss[0]) + SizeSeq(ss[1..])
  {
    hide Layout;
  }

  lemma {:induction false} SeqFragment(ss: seq<Stmt>, n: nat, entry: seq<nat>, exit: nat)
    requires ss != []
    ensures var f := StmtFrag(ss[0], n, entry, exit);
            var r := SeqFrag(ss[1..], n + Size(ss[0]), f.last, exit);
            SeqFrag(ss, n, entry, exit) == Frag(f.edges + r.edges, r.last)
  {
    hide StmtFrag, LayoutSeq, Layout;
  }

  lemma {:induction false} CatchesUnfold(cs: seq<Catch>, i: nat, n: nat, entry: seq<nat>, exit: nat)
    requires i < |cs|
    ensures LayoutCatches(cs[i..])
            == [Statement] + LayoutSeq(cs[i].body) + LayoutCatches(cs[i + 1..])
    ensures SizeCatches(cs[i..]) == 1 + SizeSeq(cs[i].body) + SizeCatches(cs[i + 1..])
    ensures var b := SeqFrag(cs[i].body, n + 1, [n], exit);
            var r := CatchesFrag(cs[i + 1..], n + 1 + SizeSeq(cs[i].body), entry, exit);
            CatchesFrag(cs[i..], n, entry, exit)
            == Frag(Into(entry, n) + b.edges + r.edges, b.last + r.last)
  {
    assert cs[i..][0] == cs[i] && cs[i..][1..] == cs[i + 1..];
  }

  lemma {:induction false} CasesUnfold(cs: seq<Case>, i: nat, n: nat, switch: nat, exit: nat)
    requires i < |cs|
    ensures LayoutCases(cs[i..])
            == [Statement] + LayoutSeq(cs[i].body) + LayoutCases(cs[i + 1..])
    ensures SizeCases(cs[i..]) == 1 + SizeSeq(cs[i].body) + SizeCases(cs[i + 1..])
    ensures var b := SeqFrag(cs[i].body, n + 1, [n], exit);
            var r := CasesFrag(cs[i + 1..], n + 1 + SizeSeq(cs[i].body), switch, exit);
            CasesFrag(cs[i..], n, switch, exit)
            == Frag({(switch, n)} + b.edges + r.edges, b.last + r.last)
  {
    assert cs[i..][0] == cs[i] && cs[i..][1..] == cs[i + 1..];
  }

  lemma NoCatches(n: nat, entry: seq<nat>, exit: nat)
    ensures LayoutCatches([]) == [] && SizeCatches([]) == 0
    ensures CatchesFrag([], n, entry, exit) == Frag({}, [])
  {
  }

  lemma NoCases(n: nat, switch: nat, exit: nat)
    ensures LayoutCases([]) == [] && SizeCases([]) == 0
    ensures CasesFrag([], n, switch, exit) == Frag({}, [])
  {
  }

  lemma {:induction false} TryLayout(s: Stmt)
    requires s.Try?
    ensures Size(s) == |Layout(s)|
    ensures SizeSeq(s.block) == |LayoutSeq(s.block)| && SizeSeq(s.fin) == |LayoutSeq(s.fin)|
    ensures SizeCatches(s.catches) == |LayoutCatches(s.catches)|
    ensures Layout(s) == LayoutSeq(s.block) + LayoutCatches(s.catches)
                         + (if s.fin == [] then [] else [Statement] + LayoutSeq(s.fin))
  {
  }

  lemma {:induction false} TryUnfolds(s: Stmt, n: nat, entry: seq<nat>, exit: nat)
    requires s.Try?
    ensures var b := SeqFrag(s.block, n, [Pick(entry, exit)], exit);
            var c := CatchesFrag(s.catches, n + SizeSeq(s.block), entry, exit);
            var m := n + SizeSeq(s.block) + SizeCatches(s.catches);
            StmtFrag(s, n, entry, exit)
            == if s.fin == [] then Frag(b.edges + c.edges, b.last + c.last)
               else var f := SeqFrag(s.fin, m + 1, [m], exit);
                    Frag(b.edges + c.edges + Into(b.last + c.last, m) + f.edges, f.last)
  {
  }

  /** The mutable graph and node counter the translation writes into. */
  class Builder {
    var nodes: map<nat, Kind>
    var edges: set<Edge>
    var counter: nat
    ghost var kinds: seq<Kind>

    /** The node ids are exactly 0 to `counter - 1`, and `kinds` lists their kinds. */
    ghost predicate Valid()
      reads this`nodes, this`counter, this`kinds
    {
      counter == |kinds| && nodes == map i: nat | i < |kinds| :: kinds[i]
    }

    constructor ()
      ensures Valid() && kinds == [] && edges == {} && counter == 0
    {
      nodes, edges, counter := map[], {}, 0;
      kinds := [];
    }

    method AddNode(kind: Kind) returns (nid: nat)
      requires Valid()
      modifies this`nodes, this`counter, this`kinds
      ensures Valid() && nid == old(counter) && counter == nid + 1 && kinds == old(kinds) + [kind]
    {
      nid := counter;
      counter := counter + 1;
      nodes := nodes[nid := kind];
      kinds := kinds + [kind];
    }

    method AddEdge(src: nat, dst: nat)
      modifies this`edges
      ensures edges == old(edges) + {(src, dst)}
    {
      edges := edges + {(src, dst)};
    }

    method Connect(frontier: seq<nat>, dst: nat)
      modifies this`edges
      ensures edges == old(edges) + Into(frontier, dst)
    {
      for i := 0 to |frontier|
        invariant edges == old(edges) + Into(frontier[..i], dst)
      {
        AddEdge(frontier[i], dst);
        assert frontier[..i + 1] == frontier[..i] + [frontier[i]];
      }
      assert frontier[..|frontier|] == frontier;
    }

    /** The frontier of the whole body falls through to the exit node. */
    method Finish(last: seq<nat>, exit: nat)
      modifies this`edges
      ensures edges == old(edges) + set src | src in last && src != exit :: (src, exit)
    {
      for i := 0 to |last|
        invariant edges == old(edges) + set src | src in last[..i] && src != exit :: (src, exit)
      {
        assert last[..i + 1] == last[..i] + [last[i]];
        if last[i] != exit {
          AddEdge(last[i], exit);
        }
      }
      assert last[..|last|] == last;
    }

    method AddLabelled(cond: nat, last: seq<nat>)
      modifies this`edges
      ensures edges == old(edges) + Labelled(cond, last)
    {
      if last != [] {
        AddEdge(cond, last[0]);
      }
    }

    method ProcessBlock(ss: seq<Stmt>, entry: nat, exit: nat) returns (last: seq<nat>)
      requires Valid()
      modifies this
      ensures Valid() && kinds == old(kinds) + LayoutSeq(ss) && counter == old(counter) + SizeSeq(ss)
      ensures edges == old(edges) + SeqFrag(ss, old(counter), [entry], exit).edges
      ensures last == SeqFrag(ss, old(counter), [entry], exit).last
      decreases ss
    {
      hide LayoutSeq, SeqFrag;
      NoStmts(counter, [entry], exit);
      if ss == [] {
        return [entry];
      }
      last := [entry];
      ghost var all := SeqFrag(ss, counter, last, exit);
      assert ss[0..] == ss;
      for i := 0 to |ss|
        invariant Valid() && kinds + LayoutSeq(ss[i..]) == old(kinds) + LayoutSeq(ss)
        invariant counter + SizeSeq(ss[i..]) == old(counter) + SizeSeq(ss)
        invariant edges + SeqFrag(ss[i..], counter, last, exit).edges == old(edges) + all.edges
        invariant SeqFrag(ss[i..], counter, last, exit).last == all.last
      {
        hide *;
        SeqUnfolds(ss, i, counter, last, exit);
        last := ProcessStatement(ss[i], last, exit);
      }
      assert ss[|ss|..] == [];
      NoStmts(counter, last, exit);
      assert kinds == kinds + [] && edges == edges + {};
    }

    method ProcessStatement(s: Stmt, entry: seq<nat>, exit: nat) returns (last: seq<nat>)
      requires Valid()
      modifies this
      ensures Valid() && kinds == old(kinds) + Layout(s) && counter == old(counter) + Size(s)
      ensures edges == old(edges) + StmtFrag(s, old(counter), entry, exit).edges
      ensures last == StmtFrag(s, old(counter), entry, exit).last
      decreases s, 1
    {
      match s
      case Simple =>
        var node := AddNode(Statement);
        Connect(entry, node);
        last := [node];
      case Return =>
        var ret := AddNode(Statement);
        Connect(entry, ret);
        AddEdge(ret, exit);
        last := [];
      case If(_, _) => last := ProcessIf(s, entry, exit);
      case While(body) => last := ProcessLoop(s, body, entry, exit);
      case For(body) => last := ProcessLoop(s, body, entry, exit);
      case Try(_, _, _) => last := ProcessTry(s, entry, exit);
      case Switch(_) => last := ProcessSwitch(s, entry, exit);
      case Block(stmts) => last := ProcessBlock(stmts, Pick(entry, exit), exit);
    }

    method ProcessIf(s: Stmt, entry: seq<nat>, exit: nat) returns (last: seq<nat>)
      requires s.If?
      requires Valid()
      modifies this
      ensures Valid() && kinds == old(kinds) + Layout(s) && counter == old(counter) + Size(s)
      ensures edges == old(edges) + StmtFrag(s, old(counter), entry, exit).edges
      ensures last == StmtFrag(s, old(counter), entry, exit).last
      decreases s, 0
    {
      hide *;
      if s.els.None? {
        IfUnfolds(s, counter, entry, exit);
      } else {
        IfElseUnfolds(s, counter, entry, exit);
      }
      var cond := AddNode(Branch);
      Connect(entry, cond);
      var thenLast := ProcessStatement(s.thn, [cond], exit);
      AddLabelled(cond, thenLast);
      if s.els.None? {
        last := thenLast + [cond];
        assert kinds == old(kinds) + ([Branch] + Layout(s.thn));
      } else {
        var elseLast := ProcessStatement(s.els.value, [cond], exit);
        AddLabelled(cond, elseLast);
        last := thenLast + elseLast;
        assert kinds == old(kinds) + ([Branch] + Layout(s.thn) + Layout(s.els.value));
      }
    }

    method ProcessLoop(s: Stmt, body: Stmt, entry: seq<nat>, exit: nat) returns (last: seq<nat>)
      requires s == While(body) || s == For(body)
      requires Valid()
      modifies this
      ensures Valid() && kinds == old(kinds) + Layout(s) && counter == old(counter) + Size(s)
      ensures edges == old(edges) + StmtFrag(s, old(counter), entry, exit).edges
      ensures last == StmtFrag(s, old(counter), entry, exit).last
      decreases s, 0
    {
      hide *;
      LoopUnfolds(s, body, counter, entry, exit);
      LoopFragIs(counter, entry, StmtFrag(body, counter + 1, [counter], exit));
      var cond := AddNode(Branch);
      Connect(entry, cond);
      var bodyLast := ProcessStatement(body, [cond], exit);
      AddLabelled(cond, bodyLast);
      Connect(bodyLast, cond);
      last := [cond];
      assert kinds == old(kinds) + ([Branch] + Layout(body));
    }

    method ProcessTry(s: Stmt, entry: seq<nat>, exit: nat) returns (last: seq<nat>)
      requires s.Try?
      requires Valid()
      modifies this
      ensures Valid() && kinds == old(kinds) + Layout(s) && counter == old(counter) + Size(s)
      ensures edges == old(edges) + StmtFrag(s, old(counter), entry, exit).edges
      ensures last == StmtFrag(s, old(counter), entry, exit).last
      decreases s, 0
    {
      hide *;
      TryLayout(s);
      TryUnfolds(s, counter, entry, exit);
      last := ProcessBlock(s.block, Pick(entry, exit), exit);
      var catchLast := ProcessCatches(s.catches, entry, exit);
      last := last + catchLast;
      assert kinds == old(kinds) + (LayoutSeq(s.block) + LayoutCatches(s.catches));
      if s.fin != [] {
        var node := AddNode(Statement);
        Connect(last, node);
        last := ProcessBlock(s.fin, node, exit);
        assert kinds == old(kinds) + Layout(s);
      }
    }

    method ProcessCatches(cs: seq<Catch>, entry: seq<nat>, exit: nat) returns (last: seq<nat>)
      requires Valid()
      modifies this
      ensures Valid() && kinds == old(kinds) + LayoutCatches(cs) && counter == old(counter) + SizeCatches(cs)
      ensures edges == old(edges) + CatchesFrag(cs, old(counter), entry, exit).edges
      ensures last == CatchesFrag(cs, old(counter), entry, exit).last
      decreases cs
    {
      hide *;
      last := [];
      ghost var all := CatchesFrag(cs, counter, entry, exit);
      assert cs[0..] == cs;
      for i := 0 to |cs|
        invariant Valid() && kinds + LayoutCatches(cs[i..]) == old(kinds) + LayoutCatches(cs)
        invariant counter + SizeCatches(cs[i..]) == old(counter) + SizeCatches(cs)
        invariant edges + CatchesFrag(cs[i..], counter, entry, exit).edges == old(edges) + all.edges
        invariant last + CatchesFrag(cs[i..], counter, entry, exit).last == all.last
      {
        CatchesUnfold(cs, i, counter, entry, exit);
        var node := AddNode(Statement);
        Connect(entry, node);
        var catchLast := ProcessBlock(cs[i].body, node, exit);
        last := last + catchLast;
      }
      assert cs[|cs|..] == [];
      NoCatches(counter, entry, exit);
    }

    method ProcessSwitch(s: Stmt, entry: seq<nat>, exit: nat) returns (last: seq<nat>)
      requires s.Switch?
      requires Valid()
      modifies this
      ensures Valid() && kinds == old(kinds) + Layout(s) && counter == old(counter) + Size(s)
      ensures edges == old(edges) + StmtFrag(s, old(counter), entry, exit).edges
      ensures last == StmtFrag(s, old(counter), entry, exit).last
      decreases s, 0
    {
      var switch := AddNode(Branch);
      Connect(entry, switch);
      last := ProcessCases(s.cases, switch, exit);
      if last == [] {
        last := [switch];
      }
    }

    method ProcessCases(cs: seq<Case>, switch: nat, exit: nat) returns (last: seq<nat>)
      requires Valid()
      modifies this
      ensures Valid() && kinds == old(kinds) + LayoutCases(cs) && counter == old(counter) + SizeCases(cs)
      ensures edges == old(edges) + CasesFrag(cs, old(counter), switch, exit).edges
      ensures last == CasesFrag(cs, old(counter), switch, exit).last
      decreases cs
    {
      hide *;
      last := [];
      ghost var all := CasesFrag(cs, counter, switch, exit);
      assert cs[0..] == cs;
      for i := 0 to |cs|
        invariant Valid() && kinds + LayoutCases(cs[i..]) == old(kinds) + LayoutCases(cs)
        invariant counter + SizeCases(cs[i..]) == old(counter) + SizeCases(cs)
        invariant edges + CasesFrag(cs[i..], counter, switch, exit).edges == old(edges) + all.edges
        invariant last + CasesFrag(cs[i..], counter, switch, exit).last == all.last
      {
        CasesUnfold(cs, i, counter, switch, exit);
        var node := AddNode(Statement);
        AddEdge(switch, node);
        var caseLast := ProcessBlock(cs[i].body, node, exit);
        last := last + caseLast;
      }
      assert cs[|cs|..] == [];
      NoCases(counter, switch, exit);
    }
  }

  /** Builds a method's graph: dense ids in source order, and exactly `MethodEdges`. */
  method BuildMethodCfg(body: seq<Stmt>) returns (b: Builder)
    ensures fresh(b) && b.counter == |MethodNodes(body)|
    ensures b.nodes == map i: nat | i < |MethodNodes(body)| :: MethodNodes(body)[i]
    ensures b.edges == MethodEdges(body)
  {
    b := new Builder();
    var entry := b.AddNode(Entry);
    var exit := b.AddNode(Exit);
    if body != [] {
      var last := b.ProcessBlock(body, entry, exit);
      b.Finish(last, exit);
    } else {
      b.AddEdge(entry, exit);
    }
  }
}
