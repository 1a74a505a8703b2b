/**
 The data-flow graph of one method: definitions, uses and writes of its variables in
 source order, joined through two caches of the latest definition.
 */
module Dfg {
  import opened Wrappers

  // --------------------------------------------------------------------- source

  /** Expressions as far as they are told apart; a qualifier is plain text. */
  datatype Expr =
    | Member(qualifier: string, member: string, selectors: seq<Expr>)
    | This(selectors: seq<Expr>)
    | Call(qualifier: string, arguments: seq<Expr>)
    | Assign(target: Expr, value: Expr)
    | Binary(left: Expr, right: Expr)
    | New(arguments: seq<Expr>)
    | Cast(operand: Expr)
    | Ternary(condition: Expr, ifTrue: Expr, ifFalse: Expr)
    | Literal

  datatype Declarator = Declarator(name: string, init: Option<Expr>)

  datatype Stmt =
    | Local(declarators: seq<Declarator>)
    | Expression(expr: Expr)
    | If(condition: Expr, thenPart: Stmt, elsePart: Option<Stmt>)
    | While(condition: Expr, body: Stmt)
    | For(test: Option<Expr>, body: Stmt)
    | Return(result: Option<Expr>)
    | Block(stmts: seq<Stmt>)
    | Try(block: seq<Stmt>, catches: seq<Catch>, finallyBlock: seq<Stmt>)
    | Unanalyzed

  datatype Catch = Catch(block: seq<Stmt>)

  // --------------------------------------------------------- variables of expressions

  function Lower(c: char): char {
    if 'A' <= c <= 'Z' then c - 'A' + 'a' else c
  }

  /** Whether the text contains "this" in any case. */
  predicate NamesThis(s: string) {
    exists i :: 0 <= i <= |s| - 4
                && Lower(s[i]) == 't' && Lower(s[i + 1]) == 'h'
                && Lower(s[i + 2]) == 'i' && Lower(s[i + 3]) == 's'
  }

  function VarsOfAll(es: seq<Expr>, fields: set<string>): seq<string>
    decreases es
  {
    if es == [] then []
    else VarsOfAll(es[..|es| - 1], fields) + VarsOf(es[|es| - 1], fields)
  }

  /** The fields and call arguments reached through `this`. */
  function VarsOfThis(selectors: seq<Expr>, fields: set<string>): seq<string>
    decreases selectors
  {
    if selectors == [] then []
    else
      VarsOfThis(selectors[..|selectors| - 1], fields)
      + match selectors[|selectors| - 1]
        case Call(_, arguments) => VarsOfAll(arguments, fields)
        case Member(_, member, _) => if member != "" && member in fields then [member] else []
        case _ => []
  }

  function VarsOf(e: Expr, fields: set<string>): seq<string>
    decreases e
  {
    match e
    case Member(qualifier, member, selectors) =>
      (if member == "" then []
       else if qualifier == "" then [member]
       else if NamesThis(qualifier) && member in fields then [member]
       else [])
      + VarsOfAll(selectors, fields)
    case This(selectors) => VarsOfThis(selectors, fields)
    case Call(_, arguments) => VarsOfAll(arguments, fields)
    case Assign(target, value) => VarsOf(target, fields) + VarsOf(value, fields)
    case Binary(left, right) => VarsOf(left, fields) + VarsOf(right, fields)
    case New(arguments) => VarsOfAll(arguments, fields)
    case Cast(operand) => VarsOf(operand, fields)
    case Ternary(c, t, f) => VarsOf(c, fields) + VarsOf(t, fields) + VarsOf(f, fields)
    case Literal => []
  }

  // ------------------------------------------------------- what a method does, flattened

  /** A declaration with the names its initialiser uses, an assignment, or plain uses. */
  datatype Op =
    | Declare(name: string, inits: seq<string>)
    | Write(rhs: seq<string>, lhs: seq<string>)
    | Use(names: seq<string>)

  function OpsOfDeclarators(ds: seq<Declarator>, fields: set<string>): seq<Op> {
    if ds == [] then []
    else
      var d := ds[|ds| - 1];
      OpsOfDeclarators(ds[..|ds| - 1], fields)
      + [Declare(d.name, if d.init.Some? then VarsOf(d.init.value, fields) else [])]
  }

  function OpsOfSelectors(selectors: seq<Expr>, fields: set<string>): seq<Op>
    decreases selectors
  {
    if selectors == [] then []
    else
      var sel := selectors[|selectors| - 1];
      OpsOfSelectors(selectors[..|selectors| - 1], fields)
      + (if sel.Call? then OpsOfExpr(sel, fields) else [])
  }

  function OpsOfExpr(e: Expr, fields: set<string>): seq<Op>
    decreases e
  {
    match e
    case Assign(target, value) => [Write(VarsOf(value, fields), VarsOf(target, fields))]
    case Call(_, arguments) => [Use(VarsOfAll(arguments, fields))]
    case Binary(left, right) => [Use(VarsOf(left, fields) + VarsOf(right, fields))]
    case This(selectors) => OpsOfSelectors(selectors, fields)
    case _ => []
  }

  function OpsOfBlock(ss: seq<Stmt>, fields: set<string>): seq<Op>
    decreases ss
  {
    if ss == [] then []
    else OpsOfBlock(ss[..|ss| - 1], fields) + OpsOfStmt(ss[|ss| - 1], fields)
  }

  function OpsOfCatches(cs: seq<Catch>, fields: set<string>): seq<Op>
    decreases cs
  {
    if cs == [] then []
    else OpsOfCatches(cs[..|cs| - 1], fields) + OpsOfBlock(cs[|cs| - 1].block, fields)
  }

  function OpsOfStmt(s: Stmt, fields: set<string>): seq<Op>
    decreases s
  {
    match s
    case Local(ds) => OpsOfDeclarators(ds, fields)
    case Expression(e) => OpsOfExpr(e, fields)
    case If(c, a, b) =>
      [Use(VarsOf(c, fields))] + OpsOfStmt(a, fields)
      + (if b.Some? then OpsOfStmt(b.value, fields) else [])
    case While(c, body) => [Use(VarsOf(c, fields))] + OpsOfStmt(body, fields)
    case For(test, body) =>
      (if test.Some? then OpsOfExpr(test.value, fields) else []) + OpsOfStmt(body, fields)
    case Return(r) => if r.Some? then [Use(VarsOf(r.value, fields))] else []
    case Block(ss) => OpsOfBlock(ss, fields)
    case Try(block, catches, last) =>
      OpsOfBlock(block, fields) + OpsOfCatches(catches, fields) + OpsOfBlock(last, fields)
    case Unanalyzed => []
  }

  // ------------------------------------------------------------------- the graph

  /** The canonical key of a variable: by where it was declared, as far as is known. */
  datatype Key = ParamKey(name: string) | LocalKey(name: string) | FieldKey(name: string)

  datatype Operation = Def | Used | Written

  datatype Node = Node(name: string, operation: Operation, key: Key)

  datatype Kind = DefUse | Init | Flow

  datatype Graph = Graph(nodes: seq<Node>, edges: map<(nat, nat), Kind>)

  /** How the body refers to a variable: as a field when the class has one of that name. */
  function BodyKey(name: string, fields: set<string>): Key {
    if name in fields then FieldKey(name) else LocalKey(name)
  }

  predicate Defines(x: Node) {
    x.operation != Used
  }

  /** Backward scan: the newest definition or write under `key`. */
  function LastByKey(nodes: seq<Node>, key: Key): (r: Option<nat>)
    ensures r.Some? ==> r.value < |nodes|
  {
    if nodes == [] then None
    else
      var n := |nodes| - 1;
      if Defines(nodes[n]) && nodes[n].key == key then Some(n) else LastByKey(nodes[..n], key)
  }

  /** Backward scan: the newest definition or write of the variable, whatever its key. */
  function LastByName(nodes: seq<Node>, name: string): (r: Option<nat>)
    ensures r.Some? ==> r.value < |nodes|
  {
    if nodes == [] then None
    else
      var n := |nodes| - 1;
      if Defines(nodes[n]) && nodes[n].name == name then Some(n) else LastByName(nodes[..n], name)
  }

  /** What a use is connected to: by key first, then by bare name. */
  function Resolve(nodes: seq<Node>, name: string, fields: set<string>): (r: Option<nat>)
    ensures r.Some? ==> r.value < |nodes|
  {
    var byKey := LastByKey(nodes, BodyKey(name, fields));
    if byKey.Some? then byKey else LastByName(nodes, name)
  }

  /** Adds an edge unless there is one. */
  function WithEdge(edges: map<(nat, nat), Kind>, src: nat, dst: nat, kind: Kind)
    : map<(nat, nat), Kind>
  {
    if (src, dst) in edges then edges else edges[(src, dst) := kind]
  }

  function WithNode(g: Graph, x: Node): Graph {
    g.(nodes := g.nodes + [x])
  }

  function WithUse(g: Graph, name: string, fields: set<string>): Graph {
    var source := Resolve(g.nodes, name, fields);
    var u := |g.nodes|;
    Graph(g.nodes + [Node(name, Used, BodyKey(name, fields))],
          if source.Some? then WithEdge(g.edges, source.value, u, DefUse) else g.edges)
  }

  function WithUses(g: Graph, names: seq<string>, fields: set<string>): Graph {
    if names == [] then g
    else WithUse(WithUses(g, names[..|names| - 1], fields), names[|names| - 1], fields)
  }

  /** Uses of an initialiser, each flowing into definition `d`. */
  function WithInits(g: Graph, d: nat, names: seq<string>, fields: set<string>): Graph {
    if names == [] then g
    else
      var before := WithInits(g, d, names[..|names| - 1], fields);
      var after := WithUse(before, names[|names| - 1], fields);
      after.(edges := WithEdge(after.edges, |before.nodes|, d, Init))
  }

  /** Edges from each of the `n` uses starting at `first` into node `dst`. */
  function WithFlows(edges: map<(nat, nat), Kind>, first: nat, n: nat, dst: nat): map<(nat, nat), Kind> {
    if n == 0 then edges
    else WithEdge(WithFlows(edges, first, n - 1, dst), first + n - 1, dst, Flow)
  }

  function WithWrites(g: Graph, first: nat, n: nat, names: seq<string>, fields: set<string>): Graph {
    if names == [] then g
    else
      var before := WithWrites(g, first, n, names[..|names| - 1], fields);
      var name := names[|names| - 1];
      Graph(before.nodes + [Node(name, Written, BodyKey(name, fields))],
            WithFlows(before.edges, first, n, |before.nodes|))
  }

  function Apply(g: Graph, op: Op, fields: set<string>): Graph {
    match op
    case Declare(name, inits) =>
      WithInits(WithNode(g, Node(name, Def, LocalKey(name))), |g.nodes|, inits, fields)
    case Write(rhs, lhs) => WithWrites(WithUses(g, rhs, fields), |g.nodes|, |rhs|, lhs, fields)
    case Use(names) => WithUses(g, names, fields)
  }

  function ApplyAll(g: Graph, ops: seq<Op>, fields: set<string>): Graph
    decreases |ops|
  {
    if ops == [] then g
    else Apply(ApplyAll(g, ops[..|ops| - 1], fields), ops[|ops| - 1], fields)
  }

  lemma {:induction false} ApplyConcat(g: Graph, a: seq<Op>, b: seq<Op>, fields: set<string>)
    ensures ApplyAll(g, a + b, fields) == ApplyAll(ApplyAll(g, a, fields), b, fields)
    decreases |b|
  {
    hide Apply;
    if b == [] {
      assert a + b == a;
    } else {
      assert (a + b)[..|a + b| - 1] == a + b[..|b| - 1];
      ApplyConcat(g, a, b[..|b| - 1], fields);
    }
  }

  lemma ApplyOne(g: Graph, op: Op, fields: set<string>)
    ensures ApplyAll(g, [op], fields) == Apply(g, op, fields)
  {
    assert [op][..0] == [];
  }

  /** Parameters are implicit definitions, under keys of their own. */
  function WithParams(names: seq<string>): Graph {
    if names == [] then Graph([], map[])
    else
      var name := names[|names| - 1];
      WithNode(WithParams(names[..|names| - 1]), Node(name, Def, ParamKey(name)))
  }

  // ------------------------------------------------------------------- the builder

  class Builder {
    const fields: set<string>
    var nodes: seq<Node>
    var edges: map<(nat, nat), Kind>
    var lastDef: map<Key, nat>
    var lastDefByName: map<string, nat>

    ghost function State(): Graph
      reads this`nodes, this`edges
    {
      Graph(nodes, edges)
    }

    /** The two caches hold what a backward scan would find. */
    ghost predicate Valid()
      reads this`nodes, this`lastDef, this`lastDefByName
    {
      && (forall k :: LastByKey(nodes, k) == if k in lastDef then Some(lastDef[k]) else None)
      && (forall v :: LastByName(nodes, v) == if v in lastDefByName then Some(lastDefByName[v]) else None)
    }

    constructor (fields: set<string>)
      ensures Valid() && State() == Graph([], map[]) && this.fields == fields
    {
      this.fields := fields;
      nodes, edges, lastDef, lastDefByName := [], map[], map[], map[];
    }

    method AddNode(name: string, operation: Operation, key: Key) returns (id: nat)
      requires Valid()
      modifies this`nodes, this`lastDef, this`lastDefByName
      ensures Valid() && id == |old(nodes)|
      ensures nodes == old(nodes) + [Node(name, operation, key)]
    {
      id := |nodes|;
      assert (nodes + [Node(name, operation, key)])[..id] == nodes;
      nodes := nodes + [Node(name, operation, key)];
      if operation != Used {
        lastDef := lastDef[key := id];
        lastDefByName := lastDefByName[name := id];
      }
    }

    method AddVarNode(name: string, operation: Operation) returns (id: nat)
      requires Valid()
      modifies this`nodes, this`lastDef, this`lastDefByName
      ensures Valid() && id == |old(nodes)|
      ensures nodes == old(nodes) + [Node(name, operation, BodyKey(name, fields))]
    {
      var key := if name in fields then FieldKey(name) else LocalKey(name);
      id := AddNode(name, operation, key);
    }

    method AddEdge(src: nat, dst: nat, kind: Kind)
      modifies this`edges
      ensures edges == WithEdge(old(edges), src, dst, kind)
    {
      if (src, dst) !in edges {
        edges := edges[(src, dst) := kind];
      }
    }

    /** Connects the latest definition, by key first and then by bare name. */
    method ConnectDefToUse(name: string, use: nat)
      requires Valid()
      modifies this`edges
      ensures var source := Resolve(nodes, name, fields);
              edges == if source.Some? then WithEdge(old(edges), source.value, use, DefUse)
                       else old(edges)
    {
      var key := BodyKey(name, fields);
      if key in lastDef {
        AddEdge(lastDef[key], use, DefUse);
      } else if name in lastDefByName {
        AddEdge(lastDefByName[name], use, DefUse);
      }
    }

    /** One use: its node, then its edge. The node defines nothing, so order is free. */
    method AddUse(name: string) returns (id: nat)
      requires Valid()
      modifies this`nodes, this`edges, this`lastDef, this`lastDefByName
      ensures Valid() && id == |old(nodes)|
      ensures State() == WithUse(old(State()), name, fields)
    {
      UseResolvesBefore(nodes, name, fields);
      id := AddVarNode(name, Used);
      ConnectDefToUse(name, id);
    }

    method AddUses(names: seq<string>)
      requires Valid()
      modifies this`nodes, this`edges, this`lastDef, this`lastDefByName
      ensures Valid() && |nodes| == |old(nodes)| + |names|
      ensures State() == WithUses(old(State()), names, fields)
    {
      for k := 0 to |names|
        invariant Valid() && |nodes| == |old(nodes)| + k
        invariant State() == WithUses(old(State()), names[..k], fields)
      {
        assert names[..k + 1][..k] == names[..k];
        var _ := AddUse(names[k]);
      }
      assert names[..|names|] == names;
    }

    /** The uses of an initialiser, each flowing into the definition already made. */
    method AnalyzeInitializer(def: nat, names: seq<string>)
      requires Valid()
      modifies this`nodes, this`edges, this`lastDef, this`lastDefByName
      ensures Valid()
      ensures State() == WithInits(old(State()), def, names, fields)
    {
      hide WithUse;
      for k := 0 to |names|
        invariant Valid()
        invariant State() == WithInits(old(State()), def, names[..k], fields)
      {
        assert names[..k + 1][..k] == names[..k];
        var use := AddUse(names[k]);
        AddEdge(use, def, Init);
      }
      assert names[..|names|] == names;
    }

    method AnalyzeLocalVarDecl(declarators: seq<Declarator>)
      requires Valid()
      modifies this`nodes, this`edges, this`lastDef, this`lastDefByName
      ensures Valid()
      ensures State() == ApplyAll(old(State()), OpsOfDeclarators(declarators, fields), fields)
    {
      hide Apply;
      for k := 0 to |declarators|
        invariant Valid()
        invariant State() == ApplyAll(old(State()), OpsOfDeclarators(declarators[..k], fields), fields)
      {
        var d := declarators[k];
        ghost var before := State();
        var def := AddNode(d.name, Def, LocalKey(d.name));
        var names := if d.init.Some? then VarsOf(d.init.value, fields) else [];
        AnalyzeInitializer(def, names);
        assert declarators[..k + 1][..k] == declarators[..k];
        ApplyConcat(old(State()), OpsOfDeclarators(declarators[..k], fields),
                    [Declare(d.name, names)], fields);
        ApplyOne(before, Declare(d.name, names), fields);
        DeclareApplies(before, d.name, names, fields);
      }
      assert declarators[..|declarators|] == declarators;
    }

    method AddFlows(first: nat, n: nat, dst: nat)
      modifies this`edges
      ensures edges == WithFlows(old(edges), first, n, dst)
    {
      for j := 0 to n
        invariant edges == WithFlows(old(edges), first, j, dst)
      {
        AddEdge(first + j, dst, Flow);
      }
    }

    method AnalyzeAssignment(rhs: seq<string>, lhs: seq<string>)
      requires Valid()
      modifies this`nodes, this`edges, this`lastDef, this`lastDefByName
      ensures Valid()
      ensures State() == Apply(old(State()), Write(rhs, lhs), fields)
    {
      var first := |nodes|;
      AddUses(rhs);
      ghost var start := State();
      for k := 0 to |lhs|
        invariant Valid()
        invariant State() == WithWrites(start, first, |rhs|, lhs[..k], fields)
      {
        assert lhs[..k + 1][..k] == lhs[..k];
        var def := AddVarNode(lhs[k], Written);
        AddFlows(first, |rhs|, def);
      }
      assert lhs[..|lhs|] == lhs;
    }

    method AnalyzeExpression(e: Expr)
      requires Valid()
      modifies this`nodes, this`edges, this`lastDef, this`lastDefByName
      ensures Valid()
      ensures State() == ApplyAll(old(State()), OpsOfExpr(e, fields), fields)
      decreases e
    {
      hide Apply, VarsOf;
      ghost var before := State();
      match e {
        case Assign(target, value) =>
          AnalyzeAssignment(VarsOf(value, fields), VarsOf(target, fields));
          ApplyOne(before, Write(VarsOf(value, fields), VarsOf(target, fields)), fields);
        case Call(_, arguments) =>
          AddUses(VarsOfAll(arguments, fields));
          UsesApply(before, VarsOfAll(arguments, fields), fields);
        case Binary(left, right) =>
          AddUses(VarsOf(left, fields) + VarsOf(right, fields));
          UsesApply(before, VarsOf(left, fields) + VarsOf(right, fields), fields);
        case This(selectors) =>
          for k := 0 to |selectors|
            invariant Valid()
            invariant State() == ApplyAll(before, OpsOfSelectors(selectors[..k], fields), fields)
          {
            assert selectors[..k + 1][..k] == selectors[..k];
            if selectors[k].Call? {
              AnalyzeExpression(selectors[k]);
              ApplyConcat(before, OpsOfSelectors(selectors[..k], fields),
                          OpsOfExpr(selectors[k], fields), fields);
            } else {
              assert OpsOfSelectors(selectors[..k], fields) + [] == OpsOfSelectors(selectors[..k], fields);
            }
          }
          assert selectors[..|selectors|] == selectors;
        case _ =>
      }
    }

    method AnalyzeBlock(ss: seq<Stmt>)
      requires Valid()
      modifies this`nodes, this`edges, this`lastDef, this`lastDefByName
      ensures Valid()
      ensures State() == ApplyAll(old(State()), OpsOfBlock(ss, fields), fields)
      decreases ss, 0
    {
      hide Apply, ApplyAll, OpsOfStmt;
      NoOps(State(), fields);
      for k := 0 to |ss|
        invariant Valid()
        invariant State() == ApplyAll(old(State()), OpsOfBlock(ss[..k], fields), fields)
      {
        assert ss[..k + 1][..k] == ss[..k];
        AnalyzeStatement(ss[k]);
        ApplyConcat(old(State()), OpsOfBlock(ss[..k], fields), OpsOfStmt(ss[k], fields), fields);
      }
      assert ss[..|ss|] == ss;
    }

    method AnalyzeCatches(cs: seq<Catch>)
      requires Valid()
      modifies this`nodes, this`edges, this`lastDef, this`lastDefByName
      ensures Valid()
      ensures State() == ApplyAll(old(State()), OpsOfCatches(cs, fields), fields)
      decreases cs, 0
    {
      hide Apply, ApplyAll, OpsOfBlock;
      NoOps(State(), fields);
      for k := 0 to |cs|
        invariant Valid()
        invariant State() == ApplyAll(old(State()), OpsOfCatches(cs[..k], fields), fields)
      {
        assert cs[..k + 1][..k] == cs[..k];
        AnalyzeBlock(cs[k].block);
        ApplyConcat(old(State()), OpsOfCatches(cs[..k], fields), OpsOfBlock(cs[k].block, fields), fields);
      }
      assert cs[..|cs|] == cs;
    }

    method AnalyzeStatement(s: Stmt)
      requires Valid()
      modifies this`nodes, this`edges, this`lastDef, this`lastDefByName
      ensures Valid()
      ensures State() == ApplyAll(old(State()), OpsOfStmt(s, fields), fields)
      decreases s, 1
    {
      hide Apply, ApplyAll, OpsOfBlock, OpsOfCatches, OpsOfExpr, OpsOfDeclarators, VarsOf;
      ghost var g := State();
      NoOps(g, fields);
      match s {
        case Local(ds) => AnalyzeLocalVarDecl(ds);
        case Expression(e) => AnalyzeExpression(e);
        case If(c, a, b) =>
          AddUses(VarsOf(c, fields));
          UsesApply(g, VarsOf(c, fields), fields);
          AnalyzeStatement(a);
          ApplyConcat(g, [Use(VarsOf(c, fields))], OpsOfStmt(a, fields), fields);
          if b.Some? {
            AnalyzeStatement(b.value);
            ApplyConcat(g, [Use(VarsOf(c, fields))] + OpsOfStmt(a, fields),
                        OpsOfStmt(b.value, fields), fields);
          } else {
            assert [Use(VarsOf(c, fields))] + OpsOfStmt(a, fields) + [] == [Use(VarsOf(c, fields))] + OpsOfStmt(a, fields);
          }
        case While(c, body) =>
          AddUses(VarsOf(c, fields));
          UsesApply(g, VarsOf(c, fields), fields);
          AnalyzeStatement(body);
          ApplyConcat(g, [Use(VarsOf(c, fields))], OpsOfStmt(body, fields), fields);
        case For(test, body) =>
          if test.Some? {
            AnalyzeExpression(test.value);
          }
          AnalyzeStatement(body);
          ApplyConcat(g, if test.Some? then OpsOfExpr(test.value, fields) else [],
                      OpsOfStmt(body, fields), fields);
        case Return(r) =>
          if r.Some? {
            AddUses(VarsOf(r.value, fields));
            UsesApply(g, VarsOf(r.value, fields), fields);
          }
        case Block(ss) => AnalyzeBlock(ss);
        case Try(block, catches, last) =>
          AnalyzeBlock(block);
          AnalyzeCatches(catches);
          ApplyConcat(g, OpsOfBlock(block, fields), OpsOfCatches(catches, fields), fields);
          AnalyzeBlock(last);
          ApplyConcat(g, OpsOfBlock(block, fields) + OpsOfCatches(catches, fields),
                      OpsOfBlock(last, fields), fields);
        case Unanalyzed =>
      }
    }
  }

  lemma NoOps(g: Graph, fields: set<string>)
    ensures ApplyAll(g, [], fields) == g
  {
  }

  lemma DeclareApplies(g: Graph, name: string, inits: seq<string>, fields: set<string>)
    ensures Apply(g, Declare(name, inits), fields)
            == WithInits(WithNode(g, Node(name, Def, LocalKey(name))), |g.nodes|, inits, fields)
  {
  }

  lemma UsesApply(g: Graph, names: seq<string>, fields: set<string>)
    ensures ApplyAll(g, [Use(names)], fields) == WithUses(g, names, fields)
  {
    ApplyOne(g, Use(names), fields);
  }

  /** A use node defines nothing, so resolving after adding it is resolving before. */
  lemma UseResolvesBefore(nodes: seq<Node>, name: string, fields: set<string>)
    ensures Resolve(nodes + [Node(name, Used, BodyKey(name, fields))], name, fields)
            == Resolve(nodes, name, fields)
  {
    assert (nodes + [Node(name, Used, BodyKey(name, fields))])[..|nodes|] == nodes;
  }

  /** The graph a method's parameters and body have. */
  function MethodDfg(params: seq<string>, body: seq<Stmt>, fields: set<string>): Graph {
    ApplyAll(WithParams(params), OpsOfBlock(body, fields), fields)
  }

  method BuildMethodDfg(params: seq<string>, body: seq<Stmt>, fields: set<string>)
    returns (nodes: seq<Node>, edges: map<(nat, nat), Kind>)
    ensures Graph(nodes, edges) == MethodDfg(params, body, fields)
  {
    hide ApplyAll, OpsOfBlock;
    var b := new Builder(fields);
    for k := 0 to |params|
      invariant b.Valid() && b.State() == WithParams(params[..k])
    {
      assert params[..k + 1][..k] == params[..k];
      var _ := b.AddNode(params[k], Def, ParamKey(params[k]));
    }
    assert params[..|params|] == params;
    b.AnalyzeBlock(body);
    nodes, edges := b.nodes, b.edges;
  }
}
