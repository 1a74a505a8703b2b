/**
 What the data-flow graph of a method says: each use's edge comes from the newest
 definition, and the graph has no cycles unless a variable initialises itself.
 */
module DfgTheorems {
  import opened Wrappers
  import opened Dfg

  // ----------------------------------------------------------------- invariants

  /** The first `params` nodes are the parameters; the body names variables its own way. */
  ghost predicate Keyed(nodes: seq<Node>, params: nat, fields: set<string>) {
    && params <= |nodes|
    && forall i :: 0 <= i < |nodes| ==> KeyedAt(nodes[i], i, params, fields)
  }

  predicate KeyedAt(x: Node, i: int, params: nat, fields: set<string>) {
    if i < params then x.operation == Def && x.key == ParamKey(x.name)
    else if x.operation == Def then x.key == LocalKey(x.name)
    else x.key == BodyKey(x.name, fields)
  }

  /** Every edge joins nodes of the graph. */
  ghost predicate Within(g: Graph) {
    forall a, b :: (a, b) in g.edges ==> a < |g.nodes| && b < |g.nodes|
  }

  /** A use has one edge in, from what its variable resolved to when it was added. */
  ghost predicate ResolvedAt(g: Graph, u: nat, fields: set<string>)
    requires u < |g.nodes|
  {
    forall s: nat ::
      && ((s, u) in g.edges <==> Resolve(g.nodes[..u], g.nodes[u].name, fields) == Some(s))
      && ((s, u) in g.edges ==> g.edges[(s, u)] == DefUse)
  }

  ghost predicate UsesResolved(g: Graph, fields: set<string>) {
    forall u :: 0 <= u < |g.nodes| && g.nodes[u].operation == Used ==> ResolvedAt(g, u, fields)
  }

  ghost predicate Sound(g: Graph, params: nat, fields: set<string>) {
    Keyed(g.nodes, params, fields) && Within(g) && UsesResolved(g, fields)
  }

  /** Growing a graph: old nodes stay, and new edges end at `lo` or later nodes only. */
  ghost predicate Grows(g: Graph, g': Graph, d: nat) {
    && g.nodes <= g'.nodes
    && (forall e :: e in g.edges ==> e in g'.edges && g'.edges[e] == g.edges[e])
    && (forall a, b :: (a, b) in g'.edges && (a, b) !in g.edges ==>
          b == d || |g.nodes| <= b)
  }

  lemma UsesStayResolved(g: Graph, g': Graph, d: nat, fields: set<string>)
    requires UsesResolved(g, fields) && Grows(g, g', d)
    requires d < |g.nodes| ==> g.nodes[d].operation != Used
    ensures forall u :: 0 <= u < |g.nodes| && g.nodes[u].operation == Used ==> ResolvedAt(g', u, fields)
  {
    forall u | 0 <= u < |g.nodes| && g.nodes[u].operation == Used ensures ResolvedAt(g', u, fields) {
      assert ResolvedAt(g, u, fields);
      assert g'.nodes[..u] == g.nodes[..u] && g'.nodes[u] == g.nodes[u];
    }
  }

  lemma {:induction false} UseSound(g: Graph, name: string, params: nat, fields: set<string>)
    requires Sound(g, params, fields)
    ensures Sound(WithUse(g, name, fields), params, fields)
    ensures Grows(g, WithUse(g, name, fields), |g.nodes|)
  {
    hide Resolve;
    var g' := WithUse(g, name, fields);
    var u := |g.nodes|;
    assert g'.nodes[..u] == g.nodes;
    UsesStayResolved(g, g', u, fields);
    assert ResolvedAt(g', u, fields);
  }

  lemma {:induction false} UsesSound(g: Graph, names: seq<string>, params: nat, fields: set<string>)
    requires Sound(g, params, fields)
    ensures Sound(WithUses(g, names, fields), params, fields)
    ensures |WithUses(g, names, fields).nodes| == |g.nodes| + |names|
  {
    hide Sound, WithUse;
    if names != [] {
      UsesSound(g, names[..|names| - 1], params, fields);
      UseSound(WithUses(g, names[..|names| - 1], fields), names[|names| - 1], params, fields);
      UseLength(WithUses(g, names[..|names| - 1], fields), names[|names| - 1], fields);
    }
  }

  lemma UseLength(g: Graph, name: string, fields: set<string>)
    ensures WithUse(g, name, fields).nodes == g.nodes + [Node(name, Used, BodyKey(name, fields))]
  {
  }

  /** An edge into a node that is no use disturbs no use. */
  lemma EdgeSound(g: Graph, src: nat, dst: nat, kind: Kind, params: nat, fields: set<string>)
    requires Sound(g, params, fields) && src < |g.nodes| && dst < |g.nodes|
    requires g.nodes[dst].operation != Used
    ensures Sound(g.(edges := WithEdge(g.edges, src, dst, kind)), params, fields)
  {
    var g' := g.(edges := WithEdge(g.edges, src, dst, kind));
    UsesStayResolved(g, g', dst, fields);
  }

  lemma NodeSound(g: Graph, x: Node, params: nat, fields: set<string>)
    requires Sound(g, params, fields) && x.operation != Used
    requires KeyedAt(x, |g.nodes|, params, fields)
    ensures Sound(WithNode(g, x), params, fields)
  {
    UsesStayResolved(g, WithNode(g, x), |g.nodes|, fields);
  }

  lemma {:induction false} InitsSound(
      g: Graph, d: nat, names: seq<string>, params: nat, fields: set<string>)
    requires Sound(g, params, fields) && d < |g.nodes| && g.nodes[d].operation != Used
    ensures Sound(WithInits(g, d, names, fields), params, fields)
    ensures g.nodes <= WithInits(g, d, names, fields).nodes
    ensures |WithInits(g, d, names, fields).nodes| == |g.nodes| + |names|
  {
    hide Sound, WithUse, WithEdge;
    if names != [] {
      var before := WithInits(g, d, names[..|names| - 1], fields);
      var name := names[|names| - 1];
      InitsSound(g, d, names[..|names| - 1], params, fields);
      UseSound(before, name, params, fields);
      UseLength(before, name, fields);
      EdgeSound(WithUse(before, name, fields), |before.nodes|, d, Init, params, fields);
    }
  }

  lemma {:induction false} FlowsSound(
      g: Graph, first: nat, n: nat, dst: nat, params: nat, fields: set<string>)
    requires Sound(g, params, fields) && dst < |g.nodes| && first + n <= |g.nodes|
    requires g.nodes[dst].operation != Used
    ensures Sound(g.(edges := WithFlows(g.edges, first, n, dst)), params, fields)
  {
    hide Sound, WithEdge;
    if n > 0 {
      FlowsSound(g, first, n - 1, dst, params, fields);
      EdgeSound(g.(edges := WithFlows(g.edges, first, n - 1, dst)), first + n - 1, dst, Flow, params, fields);
    } else {
      assert g.(edges := g.edges) == g;
    }
  }

  lemma {:induction false} WritesSound(
      g: Graph, first: nat, n: nat, names: seq<string>, params: nat, fields: set<string>)
    requires Sound(g, params, fields) && first + n <= |g.nodes|
    ensures Sound(WithWrites(g, first, n, names, fields), params, fields)
    ensures |WithWrites(g, first, n, names, fields).nodes| == |g.nodes| + |names|
  {
    hide Sound, WithFlows;
    if names != [] {
      var before := WithWrites(g, first, n, names[..|names| - 1], fields);
      var x := Node(names[|names| - 1], Written, BodyKey(names[|names| - 1], fields));
      WritesSound(g, first, n, names[..|names| - 1], params, fields);
      BodyStart(before, params, fields);
      NodeSound(before, x, params, fields);
      FlowsSound(WithNode(before, x), first, n, |before.nodes|, params, fields);
    }
  }

  lemma BodyStart(g: Graph, params: nat, fields: set<string>)
    requires Sound(g, params, fields)
    ensures params <= |g.nodes|
  {
  }

  lemma ApplySound(g: Graph, op: Op, params: nat, fields: set<string>)
    requires Sound(g, params, fields)
    ensures Sound(Apply(g, op, fields), params, fields)
  {
    hide Sound, WithUses, WithWrites, WithInits;
    BodyStart(g, params, fields);
    match op {
      case Declare(name, inits) =>
        var x := Node(name, Def, LocalKey(name));
        NodeSound(g, x, params, fields);
        InitsSound(WithNode(g, x), |g.nodes|, inits, params, fields);
      case Write(rhs, lhs) =>
        UsesSound(g, rhs, params, fields);
        WritesSound(WithUses(g, rhs, fields), |g.nodes|, |rhs|, lhs, params, fields);
      case Use(names) => UsesSound(g, names, params, fields);
    }
  }

  lemma {:induction false} ParamsSound(names: seq<string>, fields: set<string>)
    ensures Sound(WithParams(names), |names|, fields)
    ensures |WithParams(names).nodes| == |names| && WithParams(names).edges == map[]
  {
    if names != [] {
      ParamsSound(names[..|names| - 1], fields);
    }
  }

  lemma {:induction false} ApplyAllSound(g: Graph, ops: seq<Op>, params: nat, fields: set<string>)
    requires Sound(g, params, fields)
    ensures Sound(ApplyAll(g, ops, fields), params, fields)
    decreases |ops|
  {
    hide Sound, Apply;
    if ops != [] {
      ApplyAllSound(g, ops[..|ops| - 1], params, fields);
      ApplySound(ApplyAll(g, ops[..|ops| - 1], fields), ops[|ops| - 1], params, fields);
    }
  }

  // ------------------------------------------------- uses come from the newest definition

  function After(r: Option<nat>): nat {
    if r.Some? then r.value + 1 else 0
  }

  lemma {:induction false} LastByKeyIs(nodes: seq<Node>, key: Key)
    ensures var r := LastByKey(nodes, key);
            && (r.Some? ==> Defines(nodes[r.value]) && nodes[r.value].key == key)
            && forall i :: After(r) <= i < |nodes| && Defines(nodes[i]) ==> nodes[i].key != key
  {
    if nodes != [] { LastByKeyIs(nodes[..|nodes| - 1], key); }
  }

  /** The backward scan by name finds the greatest id that defines or writes the variable. */
  lemma {:induction false} LastByNameIs(nodes: seq<Node>, name: string)
    ensures var r := LastByName(nodes, name);
            && (r.Some? ==> Defines(nodes[r.value]) && nodes[r.value].name == name)
            && forall i :: After(r) <= i < |nodes| && Defines(nodes[i]) ==> nodes[i].name != name
  {
    if nodes != [] { LastByNameIs(nodes[..|nodes| - 1], name); }
  }

  predicate FieldWrite(x: Node, name: string) {
    Defines(x) && x.key == FieldKey(name)
  }

  predicate OtherDefinition(x: Node, name: string) {
    Defines(x) && x.name == name && x.key != FieldKey(name)
  }

  /** A local of the field's name was declared after the field was last written. */
  ghost predicate Shadowed(nodes: seq<Node>, name: string) {
    exists i, j :: 0 <= i < j < |nodes| && FieldWrite(nodes[i], name) && OtherDefinition(nodes[j], name)
                   && forall k :: j < k < |nodes| ==> !FieldWrite(nodes[k], name)
  }

  /**
   Looking a variable up by key first finds its newest definition exactly when no
   local of a field's name was declared since that field was last written.
   */
  lemma {:induction false} NewestExactly(nodes: seq<Node>, params: nat, fields: set<string>, name: string)
    requires Keyed(nodes, params, fields)
    ensures Resolve(nodes, name, fields) == LastByName(nodes, name) <==> !Shadowed(nodes, name)
  {
    hide LastByKey, LastByName;
    var byKey, byName := LastByKey(nodes, BodyKey(name, fields)), LastByName(nodes, name);
    LastByKeyIs(nodes, BodyKey(name, fields));
    LastByNameIs(nodes, name);
    forall i | 0 <= i < |nodes| ensures KeyedAt(nodes[i], i, params, fields) {}
    if byKey.Some? && byKey != byName {
      var i, j := byKey.value, byName.value;
      assert i < j;
      assert FieldWrite(nodes[i], name) && OtherDefinition(nodes[j], name);
      assert Shadowed(nodes, name);
    } else {
      assert !Shadowed(nodes, name);
    }
  }

  /** No parameter and no local of the method has a field's name. */
  ghost predicate Unshared(params: seq<string>, ops: seq<Op>, fields: set<string>) {
    && (forall i :: 0 <= i < |params| ==> params[i] !in fields)
    && (forall i :: 0 <= i < |ops| && ops[i].Declare? ==> ops[i].name !in fields)
  }

  ghost predicate FieldsByKey(nodes: seq<Node>, fields: set<string>) {
    forall i :: 0 <= i < |nodes| && nodes[i].name in fields ==> nodes[i].key == FieldKey(nodes[i].name)
  }

  lemma UnsharedIsNotShadowed(nodes: seq<Node>, fields: set<string>, params: nat, name: string)
    requires FieldsByKey(nodes, fields) && Keyed(nodes, params, fields)
    ensures !Shadowed(nodes, name)
  {
    forall i | 0 <= i < |nodes| ensures KeyedAt(nodes[i], i, params, fields) {}
  }

  // The nodes an operation adds.

  function UseNodes(names: seq<string>, fields: set<string>): seq<Node> {
    if names == [] then []
    else
      var name := names[|names| - 1];
      UseNodes(names[..|names| - 1], fields) + [Node(name, Used, BodyKey(name, fields))]
  }

  function WriteNodes(names: seq<string>, fields: set<string>): seq<Node> {
    if names == [] then []
    else
      var name := names[|names| - 1];
      WriteNodes(names[..|names| - 1], fields) + [Node(name, Written, BodyKey(name, fields))]
  }

  function NodesOf(op: Op, fields: set<string>): seq<Node> {
    match op
    case Declare(name, inits) => [Node(name, Def, LocalKey(name))] + UseNodes(inits, fields)
    case Write(rhs, lhs) => UseNodes(rhs, fields) + WriteNodes(lhs, fields)
    case Use(names) => UseNodes(names, fields)
  }

  lemma {:induction false} UsesAdd(g: Graph, names: seq<string>, fields: set<string>)
    ensures WithUses(g, names, fields).nodes == g.nodes + UseNodes(names, fields)
  {
    if names != [] { UsesAdd(g, names[..|names| - 1], fields); }
  }

  lemma {:induction false} InitsAdd(g: Graph, d: nat, names: seq<string>, fields: set<string>)
    ensures WithInits(g, d, names, fields).nodes == g.nodes + UseNodes(names, fields)
  {
    if names != [] { InitsAdd(g, d, names[..|names| - 1], fields); }
  }

  lemma {:induction false} WritesAdd(g: Graph, first: nat, n: nat, names: seq<string>, fields: set<string>)
    ensures WithWrites(g, first, n, names, fields).nodes == g.nodes + WriteNodes(names, fields)
  {
    if names != [] { WritesAdd(g, first, n, names[..|names| - 1], fields); }
  }

  lemma ApplyAdds(g: Graph, op: Op, fields: set<string>)
    ensures Apply(g, op, fields).nodes == g.nodes + NodesOf(op, fields)
  {
    match op {
      case Declare(name, inits) =>
        InitsAdd(WithNode(g, Node(name, Def, LocalKey(name))), |g.nodes|, inits, fields);
      case Write(rhs, lhs) =>
        UsesAdd(g, rhs, fields);
        WritesAdd(WithUses(g, rhs, fields), |g.nodes|, |rhs|, lhs, fields);
      case Use(names) => UsesAdd(g, names, fields);
    }
  }

  lemma {:induction false} UseNodesAre(names: seq<string>, fields: set<string>)
    ensures |UseNodes(names, fields)| == |names|
    ensures forall i :: 0 <= i < |names| ==>
              UseNodes(names, fields)[i] == Node(names[i], Used, BodyKey(names[i], fields))
  {
    if names != [] { UseNodesAre(names[..|names| - 1], fields); }
  }

  lemma {:induction false} WriteNodesAre(names: seq<string>, fields: set<string>)
    ensures |WriteNodes(names, fields)| == |names|
    ensures forall i :: 0 <= i < |names| ==>
              WriteNodes(names, fields)[i] == Node(names[i], Written, BodyKey(names[i], fields))
  {
    if names != [] { WriteNodesAre(names[..|names| - 1], fields); }
  }

  lemma {:induction false} UnsharedNodes(params: seq<string>, ops: seq<Op>, fields: set<string>)
    requires Unshared(params, ops, fields)
    ensures FieldsByKey(ApplyAll(WithParams(params), ops, fields).nodes, fields)
    decreases |ops|
  {
    hide Apply;
    if ops == [] {
      UnsharedParams(params, fields);
    } else {
      var n := |ops| - 1;
      var g := ApplyAll(WithParams(params), ops[..n], fields);
      UnsharedNodes(params, ops[..n], fields);
      ApplyAdds(g, ops[n], fields);
      OpFieldsByKey(ops[n], fields);
    }
  }

  lemma OpFieldsByKey(op: Op, fields: set<string>)
    requires op.Declare? ==> op.name !in fields
    ensures FieldsByKey(NodesOf(op, fields), fields)
  {
    match op {
      case Declare(_, inits) => UseNodesAre(inits, fields);
      case Write(rhs, lhs) =>
        UseNodesAre(rhs, fields);
        WriteNodesAre(lhs, fields);
      case Use(names) => UseNodesAre(names, fields);
    }
  }

  lemma {:induction false} UnsharedParams(params: seq<string>, fields: set<string>)
    requires forall i :: 0 <= i < |params| ==> params[i] !in fields
    ensures FieldsByKey(WithParams(params).nodes, fields)
  {
    if params != [] { UnsharedParams(params[..|params| - 1], fields); }
  }

  /**
   In every method, a use has exactly one edge in when its variable resolves to
   something, none otherwise; and that edge comes from the greatest earlier id that
   defines or writes the variable exactly when the variable is not shadowed there.
   */
  lemma {:induction false} UsesResolve(params: seq<string>, body: seq<Stmt>, fields: set<string>, u: nat)
    requires u < |MethodDfg(params, body, fields).nodes|
    requires MethodDfg(params, body, fields).nodes[u].operation == Used
    ensures var g := MethodDfg(params, body, fields);
            var name := g.nodes[u].name;
            && ResolvedAt(g, u, fields)
            && (Resolve(g.nodes[..u], name, fields) == LastByName(g.nodes[..u], name)
                <==> !Shadowed(g.nodes[..u], name))
  {
    hide ResolvedAt, Shadowed, Resolve, LastByName;
    var ops := OpsOfBlock(body, fields);
    var g := MethodDfg(params, body, fields);
    ParamsSound(params, fields);
    ApplyAllSound(WithParams(params), ops, |params|, fields);
    KeyedUpTo(g.nodes, |params|, fields, u);
    NewestExactly(g.nodes[..u], |params|, fields, g.nodes[u].name);
  }

  lemma KeyedUpTo(nodes: seq<Node>, params: nat, fields: set<string>, u: nat)
    requires Keyed(nodes, params, fields) && u < |nodes| && nodes[u].operation == Used
    ensures Keyed(nodes[..u], params, fields)
  {
    assert KeyedAt(nodes[u], u, params, fields);
  }

  /**
   Where no parameter or local has a field's name, every use has a def-use edge if and
   only if an earlier definition or write of its variable exists, and the edge's
   source is the greatest such id.
   */
  lemma {:induction false} UsesComeFromNewest(
      params: seq<string>, body: seq<Stmt>, fields: set<string>, u: nat, s: nat)
    requires Unshared(params, OpsOfBlock(body, fields), fields)
    requires u < |MethodDfg(params, body, fields).nodes|
    requires MethodDfg(params, body, fields).nodes[u].operation == Used
    ensures var g := MethodDfg(params, body, fields);
            && ((s, u) in g.edges <==> LastByName(g.nodes[..u], g.nodes[u].name) == Some(s))
            && ((s, u) in g.edges ==> g.edges[(s, u)] == DefUse)
  {
    hide Shadowed, Resolve, LastByName, Sound;
    var ops := OpsOfBlock(body, fields);
    var g := MethodDfg(params, body, fields);
    UsesResolve(params, body, fields, u);
    UnsharedNodes(params, ops, fields);
    ParamsSound(params, fields);
    ApplyAllSound(WithParams(params), ops, |params|, fields);
    SoundIsKeyed(g, |params|, fields);
    KeyedUpTo(g.nodes, |params|, fields, u);
    UnsharedIsNotShadowed(g.nodes[..u], fields, |params|, g.nodes[u].name);
  }

  lemma SoundIsKeyed(g: Graph, params: nat, fields: set<string>)
    requires Sound(g, params, fields)
    ensures Keyed(g.nodes, params, fields) && Within(g)
  {
  }

  /**
   `this.x = 1; int x; return x;`: the local returned is the newest definition, and
   its use is joined to the write of the field.
   */
  lemma LocalIsTakenForField()
    ensures var body := [Expression(Assign(This([Member("", "x", [])]), Literal)),
                         Local([Declarator("x", None)]),
                         Return(Some(Member("", "x", [])))];
            var g := MethodDfg([], body, {"x"});
            && |g.nodes| == 3 && g.nodes[2].operation == Used && (0, 2) in g.edges
            && LastByName(g.nodes[..2], "x") == Some(1)
  {
    var body := [Expression(Assign(This([Member("", "x", [])]), Literal)),
                 Local([Declarator("x", None)]),
                 Return(Some(Member("", "x", [])))];
    hide ApplyAll, OpsOfBlock, LastByName;
    FieldThenLocal();
    ThreeNodes();
  }

  lemma FieldThenLocal()
    ensures var body := [Expression(Assign(This([Member("", "x", [])]), Literal)),
                         Local([Declarator("x", None)]),
                         Return(Some(Member("", "x", [])))];
            OpsOfBlock(body, {"x"}) == [Write([], ["x"]), Declare("x", []), Use(["x"])]
  {
    var write := Expression(Assign(This([Member("", "x", [])]), Literal));
    var local := Local([Declarator("x", None)]);
    var body := [write, local, Return(Some(Member("", "x", [])))];
    assert VarsOf(This([Member("", "x", [])]), {"x"}) == ["x"] by {
      assert [Member("", "x", [])][..0] == [];
    }
    assert VarsOf(Member("", "x", []), {"x"}) == ["x"];
    assert OpsOfStmt(local, {"x"}) == [Declare("x", [])] by {
      assert [Declarator("x", None)][..0] == [];
    }
    assert body[..2] == [write, local] && [write, local][..1] == [write] && [write][..0] == [];
    assert OpsOfBlock([write], {"x"}) == [Write([], ["x"])];
    assert OpsOfBlock([write, local], {"x"}) == [Write([], ["x"]), Declare("x", [])];
  }

  lemma ThreeNodes()
    ensures var g := ApplyAll(WithParams([]), [Write([], ["x"]), Declare("x", []), Use(["x"])], {"x"});
            && |g.nodes| == 3 && g.nodes[2].operation == Used && (0, 2) in g.edges
            && LastByName(g.nodes[..2], "x") == Some(1)
  {
    var written, declared := Node("x", Written, FieldKey("x")), Node("x", Def, LocalKey("x"));
    var ops := [Write([], ["x"]), Declare("x", []), Use(["x"])];
    var two := Graph([written, declared], map[]);
    assert ops[..2] == [ops[0], ops[1]] && ops[..2][..1] == [ops[0]] && ops[..2][..1][..0] == [];
    FirstTwo();
    UseJoinsWrite(two);
    ApplyTwo(ops, two);
  }

  lemma ApplyTwo(ops: seq<Op>, two: Graph)
    requires ops == [Write([], ["x"]), Declare("x", []), Use(["x"])]
    requires ApplyAll(WithParams([]), [ops[0], ops[1]], {"x"}) == two
    ensures ApplyAll(WithParams([]), ops, {"x"}) == WithUse(two, "x", {"x"})
  {
    assert ops[..2] == [ops[0], ops[1]] && ["x"][..0] == [];
    assert WithUses(two, [], {"x"}) == two;
  }

  lemma FirstTwo()
    ensures ApplyAll(WithParams([]), [Write([], ["x"]), Declare("x", [])], {"x"})
            == Graph([Node("x", Written, FieldKey("x")), Node("x", Def, LocalKey("x"))], map[])
  {
    var ops := [Write([], ["x"]), Declare("x", [])];
    assert ops[..1] == [ops[0]] && [ops[0]][..0] == [] && ["x"][..0] == [];
    var none := Graph([], map[]);
    var one := Graph([Node("x", Written, FieldKey("x"))], map[]);
    assert Apply(none, ops[0], {"x"}) == one;
    assert ApplyAll(none, [ops[0]], {"x"}) == one;
  }

  lemma UseJoinsWrite(two: Graph)
    requires two == Graph([Node("x", Written, FieldKey("x")), Node("x", Def, LocalKey("x"))], map[])
    ensures var g := WithUse(two, "x", {"x"});
            && |g.nodes| == 3 && g.nodes[2].operation == Used && (0, 2) in g.edges
            && LastByName(g.nodes[..2], "x") == Some(1)
  {
    var nodes := two.nodes;
    assert nodes[..1] == [nodes[0]] && [nodes[0]][..0] == [];
    assert LastByKey([nodes[0]], FieldKey("x")) == Some(0);
    assert LastByKey(nodes, FieldKey("x")) == Some(0);
    assert WithUse(two, "x", {"x"}).nodes[..2] == nodes;
  }

  // ----------------------------------------------------------- values flow to writes

  lemma {:induction false} FlowEdges(edges: map<(nat, nat), Kind>, first: nat, n: nat, dst: nat)
    ensures var after := WithFlows(edges, first, n, dst);
            && (forall e :: e in after <==> e in edges || (e.1 == dst && first <= e.0 < first + n))
            && (forall e :: e in after ==> after[e] == if e in edges then edges[e] else Flow)
  {
    if n > 0 { FlowEdges(edges, first, n - 1, dst); }
  }

  /** Into the writes of an assignment lead edges from all its uses, and no others. */
  lemma {:induction false} AssignmentFlows(
      g: Graph, first: nat, n: nat, names: seq<string>, fields: set<string>, a: nat, w: nat)
    requires Within(g) && first + n == |g.nodes| && |g.nodes| <= w < |g.nodes| + |names|
    ensures var g' := WithWrites(g, first, n, names, fields);
            && ((a, w) in g'.edges <==> first <= a < first + n)
            && ((a, w) in g'.edges ==> g'.edges[(a, w)] == Flow)
  {
    WritesAdd(g, first, n, names[..|names| - 1], fields);
    WriteNodesAre(names[..|names| - 1], fields);
    var before := WithWrites(g, first, n, names[..|names| - 1], fields);
    FlowEdges(before.edges, first, n, |before.nodes|);
    if w < |before.nodes| {
      AssignmentFlows(g, first, n, names[..|names| - 1], fields, a, w);
    } else {
      WritesBelow(g, first, n, names[..|names| - 1], fields);
    }
  }

  lemma {:induction false} WritesBelow(g: Graph, first: nat, n: nat, names: seq<string>, fields: set<string>)
    requires Within(g) && first + n <= |g.nodes|
    ensures forall a, b :: (a, b) in WithWrites(g, first, n, names, fields).edges ==>
              b < |WithWrites(g, first, n, names, fields).nodes|
  {
    if names != [] {
      var before := WithWrites(g, first, n, names[..|names| - 1], fields);
      WritesBelow(g, first, n, names[..|names| - 1], fields);
      FlowEdges(before.edges, first, n, |before.nodes|);
    }
  }

  /** Into a declared variable lead edges from all uses of its initialiser, and no others. */
  lemma {:induction false} DeclarationFlows(
      g: Graph, d: nat, names: seq<string>, fields: set<string>, a: nat)
    requires d < |g.nodes| && forall b: nat :: (b, d) !in g.edges
    ensures var g' := WithInits(g, d, names, fields);
            && ((a, d) in g'.edges <==> |g.nodes| <= a < |g.nodes| + |names|)
            && ((a, d) in g'.edges ==> g'.edges[(a, d)] == Init)
  {
    hide Resolve;
    if names != [] {
      DeclarationFlows(g, d, names[..|names| - 1], fields, a);
      InitsAdd(g, d, names[..|names| - 1], fields);
      UseNodesAre(names[..|names| - 1], fields);
    }
  }

  // Edges once drawn stay, and later operations draw none into earlier nodes.

  lemma GrowsOn(g: Graph, g': Graph, g'': Graph, d: nat, d': nat)
    requires Grows(g, g', d) && Grows(g', g'', d') && (d' == d || |g.nodes| <= d')
    ensures Grows(g, g'', d)
  {
    forall a, b | (a, b) in g''.edges && (a, b) !in g.edges ensures b == d || |g.nodes| <= b {
      assert (a, b) in g'.edges || b == d' || |g'.nodes| <= b;
    }
  }

  lemma UseGrows(g: Graph, name: string, fields: set<string>)
    ensures Grows(g, WithUse(g, name, fields), |g.nodes|)
  {
    hide Resolve;
  }

  lemma {:induction false} UsesGrow(g: Graph, names: seq<string>, fields: set<string>)
    ensures Grows(g, WithUses(g, names, fields), |g.nodes|)
  {
    hide Grows, WithUse;
    if names == [] {
      SameGrows(g, |g.nodes|);
    } else {
      var before := WithUses(g, names[..|names| - 1], fields);
      UsesGrow(g, names[..|names| - 1], fields);
      UseGrows(before, names[|names| - 1], fields);
      UsesAdd(g, names[..|names| - 1], fields);
      GrowsOn(g, before, WithUses(g, names, fields), |g.nodes|, |before.nodes|);
    }
  }

  lemma SameGrows(g: Graph, d: nat)
    ensures Grows(g, g, d)
  {
  }

  lemma {:induction false} InitsGrow(g: Graph, d: nat, names: seq<string>, fields: set<string>)
    ensures Grows(g, WithInits(g, d, names, fields), d)
  {
    hide Grows, WithUse;
    if names == [] {
      SameGrows(g, d);
    } else {
      var before := WithInits(g, d, names[..|names| - 1], fields);
      var name := names[|names| - 1];
      InitsGrow(g, d, names[..|names| - 1], fields);
      InitsAdd(g, d, names[..|names| - 1], fields);
      UseGrows(before, name, fields);
      GrowsOn(g, before, WithUse(before, name, fields), d, |before.nodes|);
      EdgeGrows(WithUse(before, name, fields), |before.nodes|, d, Init);
      GrowsOn(g, WithUse(before, name, fields), WithInits(g, d, names, fields), d, d);
    }
  }

  lemma EdgeGrows(g: Graph, src: nat, dst: nat, kind: Kind)
    ensures Grows(g, g.(edges := WithEdge(g.edges, src, dst, kind)), dst)
  {
  }

  lemma {:induction false} WritesGrow(g: Graph, first: nat, n: nat, names: seq<string>, fields: set<string>)
    ensures Grows(g, WithWrites(g, first, n, names, fields), |g.nodes|)
  {
    hide WithFlows;
    if names != [] {
      var before := WithWrites(g, first, n, names[..|names| - 1], fields);
      WritesGrow(g, first, n, names[..|names| - 1], fields);
      FlowEdges(before.edges, first, n, |before.nodes|);
    }
  }

  lemma ApplyGrows(g: Graph, op: Op, fields: set<string>)
    ensures Grows(g, Apply(g, op, fields), |g.nodes|)
  {
    hide Grows, WithUses, WithInits, WithWrites;
    var d := |g.nodes|;
    match op {
      case Declare(name, inits) =>
        var g1 := WithNode(g, Node(name, Def, LocalKey(name)));
        NodeGrows(g, Node(name, Def, LocalKey(name)), d);
        InitsGrow(g1, d, inits, fields);
        GrowsOn(g, g1, Apply(g, op, fields), d, d);
      case Write(rhs, lhs) =>
        var g1 := WithUses(g, rhs, fields);
        UsesGrow(g, rhs, fields);
        UsesAdd(g, rhs, fields);
        WritesGrow(g1, d, |rhs|, lhs, fields);
        GrowsOn(g, g1, Apply(g, op, fields), d, |g1.nodes|);
      case Use(names) => UsesGrow(g, names, fields);
    }
  }

  lemma NodeGrows(g: Graph, x: Node, d: nat)
    ensures Grows(g, WithNode(g, x), d)
  {
  }

  lemma {:induction false} RunGrows(g: Graph, ops: seq<Op>, k: nat, fields: set<string>)
    requires k <= |ops|
    ensures var g' := ApplyAll(g, ops[..k], fields);
            Grows(g', ApplyAll(g, ops, fields), |g'.nodes|)
    decreases |ops|
  {
    hide Apply, Grows;
    var g' := ApplyAll(g, ops[..k], fields);
    if k == |ops| {
      assert ops[..k] == ops;
      SameGrows(g', |g'.nodes|);
    } else {
      var n := |ops| - 1;
      var before := ApplyAll(g, ops[..n], fields);
      RunGrows(g, ops[..n], k, fields);
      assert ops[..n][..k] == ops[..k];
      ApplyGrows(before, ops[n], fields);
      NodesGrow(g', before, |g'.nodes|);
      GrowsOn(g', before, ApplyAll(g, ops, fields), |g'.nodes|, |before.nodes|);
    }
  }

  lemma NodesGrow(g: Graph, g': Graph, d: nat)
    requires Grows(g, g', d)
    ensures |g.nodes| <= |g'.nodes|
  {
  }

  /** What a later graph keeps of an earlier one: its nodes, and all edges into them. */
  lemma EdgesInto(g: Graph, g': Graph, a: nat, b: nat)
    requires Grows(g, g', |g.nodes|) && b < |g.nodes|
    ensures g'.nodes[b] == g.nodes[b] && ((a, b) in g'.edges <==> (a, b) in g.edges)
    ensures (a, b) in g.edges ==> g'.edges[(a, b)] == g.edges[(a, b)]
  {
  }

  /** The graph before operation `k` of a method. */
  function Before(params: seq<string>, ops: seq<Op>, k: nat, fields: set<string>): Graph
    requires k <= |ops|
  {
    ApplyAll(WithParams(params), ops[..k], fields)
  }

  /** Every node but the parameters belongs to one operation. */
  lemma {:induction false} OwnerOf(params: seq<string>, ops: seq<Op>, fields: set<string>, w: nat)
    returns (k: nat)
    requires |params| <= w < |ApplyAll(WithParams(params), ops, fields).nodes|
    ensures k < |ops|
    ensures var first := |Before(params, ops, k, fields).nodes|;
            && first <= w < first + |NodesOf(ops[k], fields)|
            && ApplyAll(WithParams(params), ops, fields).nodes[w] == NodesOf(ops[k], fields)[w - first]
    decreases |ops|
  {
    hide Apply, NodesOf;
    if ops == [] {
      ParamsSound(params, fields);
    } else {
      var n := |ops| - 1;
      var before := ApplyAll(WithParams(params), ops[..n], fields);
      ApplyAdds(before, ops[n], fields);
      if w < |before.nodes| {
        k := OwnerOf(params, ops[..n], fields, w);
        assert ops[..n][..k] == ops[..k];
      } else {
        k := n;
      }
    }
  }

  /** The nodes of operation `k` and the edges into them, in the finished graph. */
  lemma {:induction false} FromOperation(params: seq<string>, ops: seq<Op>, k: nat, fields: set<string>, a: nat, b: nat)
    requires k < |ops|
    requires var g := Before(params, ops, k, fields);
             |g.nodes| <= b < |g.nodes| + |NodesOf(ops[k], fields)|
    ensures var g := Before(params, ops, k, fields);
            var step := Apply(g, ops[k], fields);
            var whole := ApplyAll(WithParams(params), ops, fields);
            && step.nodes == g.nodes + NodesOf(ops[k], fields) <= whole.nodes
            && ((a, b) in whole.edges <==> (a, b) in step.edges)
            && ((a, b) in step.edges ==> whole.edges[(a, b)] == step.edges[(a, b)])
  {
    hide Apply, NodesOf;
    var g := Before(params, ops, k, fields);
    var step := Apply(g, ops[k], fields);
    assert ops[..k + 1][..k] == ops[..k];
    assert ApplyAll(WithParams(params), ops[..k + 1], fields) == step;
    ApplyAdds(g, ops[k], fields);
    RunGrows(WithParams(params), ops, k + 1, fields);
    EdgesInto(step, ApplyAll(WithParams(params), ops, fields), a, b);
  }

  lemma {:induction false} BeforeWithin(params: seq<string>, ops: seq<Op>, k: nat, fields: set<string>)
    requires k <= |ops|
    ensures Sound(Before(params, ops, k, fields), |params|, fields) && Within(Before(params, ops, k, fields))
  {
    hide Sound;
    ParamsSound(params, fields);
    ApplyAllSound(WithParams(params), ops[..k], |params|, fields);
    SoundIsKeyed(Before(params, ops, k, fields), |params|, fields);
  }

  /**
   In a finished graph every written node belongs to an assignment, and into it lead
   exactly the uses of that assignment's right side, as flow edges.
   */
  lemma {:induction false} WritesTakeTheirUses(params: seq<string>, body: seq<Stmt>, fields: set<string>, w: nat)
    returns (k: nat, i: nat)
    requires w < |MethodDfg(params, body, fields).nodes|
    requires MethodDfg(params, body, fields).nodes[w].operation == Written
    ensures var g := MethodDfg(params, body, fields);
            var ops := OpsOfBlock(body, fields);
            k < |ops| && ops[k].Write? && i < |ops[k].lhs|
            && var first := |Before(params, ops, k, fields).nodes|;
            var n := |ops[k].rhs|;
            && w == first + n + i && g.nodes[w].name == ops[k].lhs[i]
            && (forall j :: 0 <= j < n ==>
                  g.nodes[first + j] == Node(ops[k].rhs[j], Used, BodyKey(ops[k].rhs[j], fields)))
            && (forall a: nat :: (a, w) in g.edges <==> first <= a < first + n)
            && (forall a: nat :: (a, w) in g.edges ==> g.edges[(a, w)] == Flow)
  {
    hide ApplyAll, Apply, NodesOf, Before, OpsOfBlock;
    var ops := OpsOfBlock(body, fields);
    var g := MethodDfg(params, body, fields);
    WrittenIsNoParam(params, ops, fields, w);
    k := OwnerOf(params, ops, fields, w);
    var op, before := ops[k], Before(params, ops, k, fields);
    var first := |before.nodes|;
    KindOfOp(op, fields, w - first);
    var n := |op.rhs|;
    i := w - first - n;
    forall a: nat
      ensures (a, w) in g.edges <==> first <= a < first + n
      ensures (a, w) in g.edges ==> g.edges[(a, w)] == Flow
    {
      FlowsIntoWrite(params, ops, k, fields, w, a);
    }
    FromOperation(params, ops, k, fields, 0, w);
    WriteLayout(op, fields);
    forall j | 0 <= j < n
      ensures g.nodes[first + j] == Node(op.rhs[j], Used, BodyKey(op.rhs[j], fields))
    {
      assert g.nodes[first + j] == NodesOf(op, fields)[j];
    }
  }

  lemma WriteLayout(op: Op, fields: set<string>)
    requires op.Write?
    ensures |NodesOf(op, fields)| == |op.rhs| + |op.lhs|
    ensures forall j :: 0 <= j < |op.rhs| ==>
              NodesOf(op, fields)[j] == Node(op.rhs[j], Used, BodyKey(op.rhs[j], fields))
  {
    UseNodesAre(op.rhs, fields);
    WriteNodesAre(op.lhs, fields);
  }

  lemma DeclareLayout(op: Op, fields: set<string>)
    requires op.Declare?
    ensures |NodesOf(op, fields)| == 1 + |op.inits| && NodesOf(op, fields)[0].name == op.name
    ensures forall j :: 0 <= j < |op.inits| ==>
              NodesOf(op, fields)[1 + j] == Node(op.inits[j], Used, BodyKey(op.inits[j], fields))
  {
    UseNodesAre(op.inits, fields);
  }

  lemma {:induction false} FlowsIntoWrite(
      params: seq<string>, ops: seq<Op>, k: nat, fields: set<string>, w: nat, a: nat)
    requires k < |ops| && ops[k].Write?
    requires var first, op := |Before(params, ops, k, fields).nodes|, ops[k];
             first + |op.rhs| <= w < first + |op.rhs| + |op.lhs|
    ensures var first := |Before(params, ops, k, fields).nodes|;
            var edges := ApplyAll(WithParams(params), ops, fields).edges;
            && ((a, w) in edges <==> first <= a < first + |ops[k].rhs|)
            && ((a, w) in edges ==> edges[(a, w)] == Flow)
  {
    hide ApplyAll, Sound, Before, NodesOf, WithUses, WithWrites;
    var op, before := ops[k], Before(params, ops, k, fields);
    var uses := WithUses(before, op.rhs, fields);
    WriteLayout(op, fields);
    BeforeWithin(params, ops, k, fields);
    UsesSound(before, op.rhs, |params|, fields);
    SoundIsKeyed(uses, |params|, fields);
    FromOperation(params, ops, k, fields, a, w);
    AssignmentFlows(uses, |before.nodes|, |op.rhs|, op.lhs, fields, a, w);
  }

  lemma {:induction false} FlowsIntoDefinition(
      params: seq<string>, ops: seq<Op>, k: nat, fields: set<string>, a: nat)
    requires k < |ops| && ops[k].Declare?
    ensures var d := |Before(params, ops, k, fields).nodes|;
            var edges := ApplyAll(WithParams(params), ops, fields).edges;
            && ((a, d) in edges <==> d < a <= d + |ops[k].inits|)
            && ((a, d) in edges ==> edges[(a, d)] == Init)
  {
    hide ApplyAll, Sound, Before, NodesOf, WithInits;
    var op, before := ops[k], Before(params, ops, k, fields);
    var d := |before.nodes|;
    DeclareLayout(op, fields);
    BeforeWithin(params, ops, k, fields);
    FromOperation(params, ops, k, fields, a, d);
    DeclarationFlows(WithNode(before, Node(op.name, Def, LocalKey(op.name))), d, op.inits, fields, a);
  }

  lemma WrittenIsNoParam(params: seq<string>, ops: seq<Op>, fields: set<string>, w: nat)
    requires w < |ApplyAll(WithParams(params), ops, fields).nodes|
    requires ApplyAll(WithParams(params), ops, fields).nodes[w].operation == Written
    ensures |params| <= w
  {
    var g := ApplyAll(WithParams(params), ops, fields);
    ParamsSound(params, fields);
    ApplyAllSound(WithParams(params), ops, |params|, fields);
    assert KeyedAt(g.nodes[w], w, |params|, fields);
  }

  /** Which operation a node comes from, and where it stands in it. */
  lemma KindOfOp(op: Op, fields: set<string>, i: nat)
    requires i < |NodesOf(op, fields)|
    ensures NodesOf(op, fields)[i].operation == Written ==>
              && op.Write? && |op.rhs| <= i < |op.rhs| + |op.lhs|
              && NodesOf(op, fields)[i].name == op.lhs[i - |op.rhs|]
    ensures NodesOf(op, fields)[i].operation == Def ==> op.Declare? && i == 0
  {
    match op {
      case Declare(_, inits) => UseNodesAre(inits, fields);
      case Write(rhs, lhs) =>
        UseNodesAre(rhs, fields);
        WriteNodesAre(lhs, fields);
      case Use(names) => UseNodesAre(names, fields);
    }
  }

  /**
   In a finished graph every definition in the body belongs to a declaration, and into
   it lead exactly the uses of that declaration's initialiser, as init edges.
   */
  lemma {:induction false} DefinitionsTakeTheirInits(
      params: seq<string>, body: seq<Stmt>, fields: set<string>, d: nat)
    returns (k: nat)
    requires |params| <= d < |MethodDfg(params, body, fields).nodes|
    requires MethodDfg(params, body, fields).nodes[d].operation == Def
    ensures var g := MethodDfg(params, body, fields);
            var ops := OpsOfBlock(body, fields);
            k < |ops| && ops[k].Declare?
            && var n := |ops[k].inits|;
            && d == |Before(params, ops, k, fields).nodes| && g.nodes[d].name == ops[k].name
            && d + n < |g.nodes|
            && (forall j :: 0 <= j < n ==>
                  g.nodes[d + 1 + j] == Node(ops[k].inits[j], Used, BodyKey(ops[k].inits[j], fields)))
            && (forall a: nat :: (a, d) in g.edges <==> d < a <= d + n)
            && (forall a: nat :: (a, d) in g.edges ==> g.edges[(a, d)] == Init)
  {
    hide ApplyAll, Apply, NodesOf, Before, OpsOfBlock;
    var ops := OpsOfBlock(body, fields);
    var g := MethodDfg(params, body, fields);
    k := OwnerOf(params, ops, fields, d);
    var op, before := ops[k], Before(params, ops, k, fields);
    KindOfOp(op, fields, d - |before.nodes|);
    var n := |op.inits|;
    DeclareLayout(op, fields);
    forall a: nat
      ensures (a, d) in g.edges <==> d < a <= d + n
      ensures (a, d) in g.edges ==> g.edges[(a, d)] == Init
    {
      FlowsIntoDefinition(params, ops, k, fields, a);
    }
    FromOperation(params, ops, k, fields, 0, d);
    forall j | 0 <= j < n
      ensures g.nodes[d + 1 + j] == Node(op.inits[j], Used, BodyKey(op.inits[j], fields))
    {
      assert g.nodes[d + 1 + j] == NodesOf(op, fields)[1 + j];
    }
  }

  /** Nothing flows into a parameter. */
  lemma {:induction false} ParametersTakeNothing(params: seq<string>, body: seq<Stmt>, fields: set<string>, a: nat, p: nat)
    requires p < |params|
    ensures var g := MethodDfg(params, body, fields);
            p < |g.nodes| && (a, p) !in g.edges && g.nodes[p].operation == Def
            && g.nodes[p].key == ParamKey(g.nodes[p].name)
  {
    var ops := OpsOfBlock(body, fields);
    ParamsSound(params, fields);
    RunGrows(WithParams(params), ops, 0, fields);
    EdgesInto(WithParams(params), MethodDfg(params, body, fields), a, p);
    assert KeyedAt(WithParams(params).nodes[p], p, |params|, fields);
  }

  // ------------------------------------------------------------------------ cycles

  /** A topological rank: every edge leads upwards. */
  ghost predicate Ascends(edges: map<(nat, nat), Kind>, rank: nat -> nat) {
    forall a, b :: (a, b) in edges ==> rank(a) < rank(b)
  }

  ghost predicate Acyclic(g: Graph) {
    exists rank: nat -> nat :: Ascends(g.edges, rank)
  }

  /** All nodes but `d` rank below `bound`, and `d` at `top`. */
  ghost predicate Ranked(g: Graph, rank: nat -> nat, bound: nat, d: nat, top: nat) {
    && Within(g) && Ascends(g.edges, rank)
    && (forall i :: 0 <= i < |g.nodes| && i != d ==> rank(i) < bound)
    && (d < |g.nodes| ==> rank(d) == top)
  }

  function Extend(rank: nat -> nat, x: nat, r: nat): nat -> nat {
    y => if y == x then r else rank(y)
  }

  /** A use not resolved to `d` ranks next, below `d` wherever that stands. */
  lemma UseRanked(
      g: Graph, name: string, fields: set<string>, rank: nat -> nat, bound: nat, d: nat, top: nat)
    requires Ranked(g, rank, bound, d, top)
    requires d < |g.nodes| ==> Resolve(g.nodes, name, fields) != Some(d)
    requires d != |g.nodes|
    ensures Ranked(WithUse(g, name, fields), Extend(rank, |g.nodes|, bound), bound + 1, d, top)
  {
    hide Resolve;
    var g' := WithUse(g, name, fields);
    var rank' := Extend(rank, |g.nodes|, bound);
    forall a, b | (a, b) in g'.edges ensures rank'(a) < rank'(b) {
      if (a, b) in g.edges { assert rank(a) < rank(b); }
    }
  }

  lemma {:induction false} UsesRanked(
      g: Graph, names: seq<string>, fields: set<string>, rank: nat -> nat, bound: nat, d: nat)
    returns (rank': nat -> nat)
    requires Ranked(g, rank, bound, d, 0) && |g.nodes| + |names| < d
    ensures Ranked(WithUses(g, names, fields), rank', bound + |names|, d, 0)
  {
    hide Ranked, WithUse;
    if names == [] {
      rank' := rank;
    } else {
      var n := |names| - 1;
      var before := WithUses(g, names[..n], fields);
      rank' := UsesRanked(g, names[..n], fields, rank, bound, d);
      UsesAdd(g, names[..n], fields);
      UseNodesAre(names[..n], fields);
      UseRanked(before, names[n], fields, rank', bound + n, d, 0);
      rank' := Extend(rank', |before.nodes|, bound + n);
    }
  }

  /** An initialiser's uses rank below the definition they flow into. */
  lemma {:induction false} InitsRanked(
      g: Graph, d: nat, names: seq<string>, fields: set<string>, rank: nat -> nat, bound: nat, top: nat)
    returns (rank': nat -> nat)
    requires d < |g.nodes| && Ranked(g, rank, bound, d, top) && bound + |names| <= top
    requires forall i :: 0 <= i < |names| ==> Resolve(g.nodes, names[i], fields) != Some(d)
    ensures Ranked(WithInits(g, d, names, fields), rank', bound + |names|, d, top)
  {
    hide Resolve, WithUse, Ranked;
    if names == [] {
      rank' := rank;
    } else {
      var n := |names| - 1;
      var before := WithInits(g, d, names[..n], fields);
      rank' := InitsRanked(g, d, names[..n], fields, rank, bound, top);
      InitsAdd(g, d, names[..n], fields);
      UsesDoNotResolve(g.nodes, names[..n], names[n], fields);
      UseRanked(before, names[n], fields, rank', bound + n, d, top);
      rank' := Extend(rank', |before.nodes|, bound + n);
      UseLength(before, names[n], fields);
      EdgeRanked(WithUse(before, names[n], fields), |before.nodes|, d, Init, rank', bound + n + 1, d, top);
    }
  }

  lemma EdgeRanked(
      g: Graph, src: nat, dst: nat, kind: Kind, rank: nat -> nat, bound: nat, d: nat, top: nat)
    requires Ranked(g, rank, bound, d, top) && src < |g.nodes| && dst < |g.nodes|
    requires rank(src) < rank(dst) || (src != d && dst == d && bound <= top)
    ensures Ranked(g.(edges := WithEdge(g.edges, src, dst, kind)), rank, bound, d, top)
  {
  }

  lemma {:induction false} UsesDoNotResolve(nodes: seq<Node>, names: seq<string>, name: string, fields: set<string>)
    ensures Resolve(nodes + UseNodes(names, fields), name, fields) == Resolve(nodes, name, fields)
  {
    if names == [] {
      assert nodes + UseNodes(names, fields) == nodes;
    } else {
      var n := |names| - 1;
      UsesDoNotResolve(nodes, names[..n], name, fields);
      var all := nodes + UseNodes(names, fields);
      assert all[..|all| - 1] == nodes + UseNodes(names[..n], fields);
    }
  }

  lemma {:induction false} FlowsRanked(
      g: Graph, first: nat, n: nat, dst: nat, rank: nat -> nat, bound: nat, d: nat)
    requires Ranked(g, rank, bound, d, 0) && first + n <= dst < |g.nodes| < d
    requires forall i :: first <= i < first + n ==> rank(i) < rank(dst)
    ensures Ranked(g.(edges := WithFlows(g.edges, first, n, dst)), rank, bound, d, 0)
  {
    hide Ranked;
    if n == 0 {
      assert g.(edges := g.edges) == g;
    } else {
      FlowsRanked(g, first, n - 1, dst, rank, bound, d);
      EdgeRanked(g.(edges := WithFlows(g.edges, first, n - 1, dst)), first + n - 1, dst, Flow, rank, bound, d, 0);
    }
  }

  lemma NodeRanked(g: Graph, x: Node, rank: nat -> nat, bound: nat, d: nat)
    requires Ranked(g, rank, bound, d, 0) && |g.nodes| + 1 < d
    ensures Ranked(WithNode(g, x), Extend(rank, |g.nodes|, bound), bound + 1, d, 0)
    ensures forall i :: 0 <= i < |g.nodes| ==> Extend(rank, |g.nodes|, bound)(i) < bound
  {
    var g', rank' := WithNode(g, x), Extend(rank, |g.nodes|, bound);
    forall a, b | (a, b) in g'.edges ensures rank'(a) < rank'(b) {
      assert rank(a) < rank(b);
    }
  }

  /** Writes come after the uses that flow into them. */
  lemma {:induction false} WritesRanked(
      g: Graph, first: nat, n: nat, names: seq<string>, fields: set<string>, rank: nat -> nat,
      bound: nat, d: nat)
    returns (rank': nat -> nat)
    requires Ranked(g, rank, bound, d, 0) && first + n <= |g.nodes| && |g.nodes| + |names| + 1 < d
    ensures Ranked(WithWrites(g, first, n, names, fields), rank', bound + |names|, d, 0)
  {
    hide Ranked, WithFlows;
    if names == [] {
      rank' := rank;
    } else {
      var m := |names| - 1;
      var before := WithWrites(g, first, n, names[..m], fields);
      var x := Node(names[m], Written, BodyKey(names[m], fields));
      rank' := WritesRanked(g, first, n, names[..m], fields, rank, bound, d);
      WritesAdd(g, first, n, names[..m], fields);
      WriteNodesAre(names[..m], fields);
      NodeRanked(before, x, rank', bound + m, d);
      rank' := Extend(rank', |before.nodes|, bound + m);
      FlowsRanked(WithNode(before, x), first, n, |before.nodes|, rank', bound + m + 1, d);
    }
  }

  /** A declaration whose initialiser uses its own variable before anything hides it. */
  ghost predicate SelfInit(earlier: seq<Op>, op: Op, fields: set<string>) {
    && op.Declare? && op.name in op.inits
    && (op.name !in fields || !WrittenIn(earlier, op.name))
  }

  ghost predicate WrittenIn(ops: seq<Op>, name: string) {
    exists i :: 0 <= i < |ops| && ops[i].Write? && name in ops[i].lhs
  }

  ghost predicate SelfInitialises(ops: seq<Op>, fields: set<string>) {
    exists k :: 0 <= k < |ops| && SelfInit(ops[..k], ops[k], fields)
  }

  /** All nodes rank below `bound`; the exception `Ranked` allows is no node at all. */
  ghost predicate RankedAll(g: Graph, rank: nat -> nat, bound: nat) {
    Within(g) && Ascends(g.edges, rank) && forall i :: 0 <= i < |g.nodes| ==> rank(i) < bound
  }

  lemma AllIsRanked(g: Graph, rank: nat -> nat, bound: nat, d: nat)
    requires |g.nodes| <= d
    ensures RankedAll(g, rank, bound) <==> Ranked(g, rank, bound, d, 0)
  {
  }

  /** A new definition resolves its own name unless a field write under it is in the way. */
  lemma {:induction false} OwnDefinition(nodes: seq<Node>, x: string, name: string, fields: set<string>)
    ensures Resolve(nodes + [Node(x, Def, LocalKey(x))], name, fields) == Some(|nodes|)
            <==> name == x && (x !in fields || LastByKey(nodes, FieldKey(x)).None?)
  {
    var all := nodes + [Node(x, Def, LocalKey(x))];
    assert all[..|all| - 1] == nodes;
  }

  ghost predicate HasKey(nodes: seq<Node>, key: Key) {
    exists i :: 0 <= i < |nodes| && Defines(nodes[i]) && nodes[i].key == key
  }

  lemma HasKeyIs(nodes: seq<Node>, key: Key)
    ensures HasKey(nodes, key) <==> LastByKey(nodes, key).Some?
  {
    LastByKeyIs(nodes, key);
  }

  lemma HasKeyConcat(a: seq<Node>, b: seq<Node>, key: Key)
    ensures HasKey(a + b, key) <==> HasKey(a, key) || HasKey(b, key)
  {
    if HasKey(a, key) {
      var i :| 0 <= i < |a| && Defines(a[i]) && a[i].key == key;
      assert (a + b)[i] == a[i];
    }
    if HasKey(b, key) {
      var i :| 0 <= i < |b| && Defines(b[i]) && b[i].key == key;
      assert (a + b)[|a| + i] == b[i];
    }
    if HasKey(a + b, key) {
      var i :| 0 <= i < |a + b| && Defines((a + b)[i]) && (a + b)[i].key == key;
      assert if i < |a| then (a + b)[i] == a[i] else (a + b)[i] == b[i - |a|];
    }
  }

  lemma {:induction false} OpWritesField(op: Op, name: string, fields: set<string>)
    requires name in fields
    ensures HasKey(NodesOf(op, fields), FieldKey(name)) <==> op.Write? && name in op.lhs
  {
    match op {
      case Declare(_, inits) => UseNodesAre(inits, fields);
      case Write(rhs, lhs) =>
        UseNodesAre(rhs, fields);
        WriteNodesAre(lhs, fields);
        if name in lhs {
          var i :| 0 <= i < |lhs| && lhs[i] == name;
          assert NodesOf(op, fields)[|rhs| + i] == WriteNodes(lhs, fields)[i];
        }
      case Use(names) => UseNodesAre(names, fields);
    }
  }

  /** A field has a definition under its own key exactly when the body has written it. */
  lemma {:induction false} FieldWritten(params: seq<string>, ops: seq<Op>, name: string, fields: set<string>)
    requires name in fields
    ensures HasKey(ApplyAll(WithParams(params), ops, fields).nodes, FieldKey(name)) <==> WrittenIn(ops, name)
    decreases |ops|
  {
    hide HasKey, Apply;
    if ops == [] {
      NoFieldParams(params, name);
    } else {
      var n := |ops| - 1;
      var g := ApplyAll(WithParams(params), ops[..n], fields);
      FieldWritten(params, ops[..n], name, fields);
      ApplyAdds(g, ops[n], fields);
      HasKeyConcat(g.nodes, NodesOf(ops[n], fields), FieldKey(name));
      OpWritesField(ops[n], name, fields);
      WrittenMore(ops, name);
    }
  }

  lemma WrittenMore(ops: seq<Op>, name: string)
    requires ops != []
    ensures WrittenIn(ops, name)
            <==> WrittenIn(ops[..|ops| - 1], name) || (ops[|ops| - 1].Write? && name in ops[|ops| - 1].lhs)
  {
    var n := |ops| - 1;
    if WrittenIn(ops[..n], name) {
      var i :| 0 <= i < n && ops[..n][i].Write? && name in ops[..n][i].lhs;
      assert ops[i] == ops[..n][i];
    }
    if WrittenIn(ops, name) {
      var i :| 0 <= i < |ops| && ops[i].Write? && name in ops[i].lhs;
      assert i < n ==> ops[..n][i] == ops[i];
    }
  }

  lemma {:induction false} NoFieldParams(params: seq<string>, name: string)
    ensures !HasKey(WithParams(params).nodes, FieldKey(name))
  {
    if params != [] {
      var n := |params| - 1;
      NoFieldParams(params[..n], name);
      HasKeyConcat(WithParams(params[..n]).nodes, [Node(params[n], Def, ParamKey(params[n]))], FieldKey(name));
    }
  }

  /** One operation keeps a rank, unless it declares a variable initialised by itself. */
  lemma {:induction false} OpRanked(
      g: Graph, earlier: seq<Op>, op: Op, params: seq<string>, fields: set<string>,
      rank: nat -> nat, bound: nat)
    returns (rank': nat -> nat, bound': nat)
    requires g == ApplyAll(WithParams(params), earlier, fields)
    requires RankedAll(g, rank, bound) && !SelfInit(earlier, op, fields)
    ensures RankedAll(Apply(g, op, fields), rank', bound')
  {
    hide RankedAll, Ranked, Resolve, ApplyAll;
    var d := |g.nodes|;
    match op {
      case Declare(x, inits) =>
        var top := bound + |inits|;
        var g1 := WithNode(g, Node(x, Def, LocalKey(x)));
        DefinitionRanked(g, x, rank, bound, top);
        if x in fields { FieldWritten(params, earlier, x, fields); HasKeyIs(g.nodes, FieldKey(x)); }
        forall i | 0 <= i < |inits| ensures Resolve(g1.nodes, inits[i], fields) != Some(d) {
          OwnDefinition(g.nodes, x, inits[i], fields);
          assert inits[i] in inits;
        }
        rank' := InitsRanked(g1, d, inits, fields, Extend(rank, d, top), bound, top);
        bound' := top + 1;
        InitsAdd(g1, d, inits, fields);
        DefinitionSettles(WithInits(g1, d, inits, fields), rank', top, d);
      case Write(rhs, lhs) =>
        var out := d + |rhs| + |lhs| + 3;
        AllIsRanked(g, rank, bound, out);
        rank' := UsesRanked(g, rhs, fields, rank, bound, out);
        UsesAdd(g, rhs, fields);
        UseNodesAre(rhs, fields);
        rank' := WritesRanked(WithUses(g, rhs, fields), d, |rhs|, lhs, fields, rank', bound + |rhs|, out);
        bound' := bound + |rhs| + |lhs|;
        WritesAdd(WithUses(g, rhs, fields), d, |rhs|, lhs, fields);
        WriteNodesAre(lhs, fields);
        AllIsRanked(Apply(g, op, fields), rank', bound', out);
      case Use(names) =>
        var out := d + |names| + 2;
        AllIsRanked(g, rank, bound, out);
        rank' := UsesRanked(g, names, fields, rank, bound, out);
        bound' := bound + |names|;
        UsesAdd(g, names, fields);
        UseNodesAre(names, fields);
        AllIsRanked(Apply(g, op, fields), rank', bound', out);
    }
  }

  lemma DefinitionRanked(g: Graph, x: string, rank: nat -> nat, bound: nat, top: nat)
    requires RankedAll(g, rank, bound)
    ensures Ranked(WithNode(g, Node(x, Def, LocalKey(x))), Extend(rank, |g.nodes|, top), bound, |g.nodes|, top)
  {
    var rank' := Extend(rank, |g.nodes|, top);
    forall a, b | (a, b) in g.edges ensures rank'(a) < rank'(b) {
      assert rank(a) < rank(b);
    }
  }

  lemma DefinitionSettles(g: Graph, rank: nat -> nat, top: nat, d: nat)
    requires Ranked(g, rank, top, d, top)
    ensures RankedAll(g, rank, top + 1)
  {
  }

  lemma {:induction false} RunRanked(params: seq<string>, ops: seq<Op>, fields: set<string>)
    returns (rank: nat -> nat, bound: nat)
    requires !SelfInitialises(ops, fields)
    ensures RankedAll(ApplyAll(WithParams(params), ops, fields), rank, bound)
    decreases |ops|
  {
    hide Apply, SelfInit;
    if ops == [] {
      ParamsSound(params, fields);
      rank, bound := (x: nat) => 0, 1;
    } else {
      var n := |ops| - 1;
      forall k | 0 <= k < n ensures !SelfInit(ops[..n][..k], ops[..n][k], fields) {
        assert ops[..n][..k] == ops[..k];
      }
      rank, bound := RunRanked(params, ops[..n], fields);
      rank, bound := OpRanked(ApplyAll(WithParams(params), ops[..n], fields), ops[..n], ops[n],
                              params, fields, rank, bound);
    }
  }

  // A variable that initialises itself closes a cycle.

  /** The use of `d`'s own name in its initialiser is joined to it both ways. */
  lemma {:induction false} InitCycle(g: Graph, d: nat, names: seq<string>, i: nat, fields: set<string>)
    returns (u: nat)
    requires i < |names| && Resolve(g.nodes, names[i], fields) == Some(d)
    ensures (d, u) in WithInits(g, d, names, fields).edges && (u, d) in WithInits(g, d, names, fields).edges
  {
    hide Resolve;
    var n := |names| - 1;
    var before := WithInits(g, d, names[..n], fields);
    if i < n {
      u := InitCycle(g, d, names[..n], i, fields);
    } else {
      u := |before.nodes|;
      InitsAdd(g, d, names[..n], fields);
      UsesDoNotResolve(g.nodes, names[..n], names[n], fields);
    }
  }

  lemma {:induction false} SelfInitCycle(params: seq<string>, ops: seq<Op>, k: nat, fields: set<string>)
    returns (d: nat, u: nat)
    requires k < |ops| && SelfInit(ops[..k], ops[k], fields)
    ensures var g := ApplyAll(WithParams(params), ops, fields);
            (d, u) in g.edges && (u, d) in g.edges
  {
    hide Resolve, HasKey;
    var g := ApplyAll(WithParams(params), ops[..k], fields);
    var x := ops[k].name;
    var g1 := WithNode(g, Node(x, Def, LocalKey(x)));
    if x in fields { FieldWritten(params, ops[..k], x, fields); HasKeyIs(g.nodes, FieldKey(x)); }
    OwnDefinition(g.nodes, x, x, fields);
    d := |g.nodes|;
    var i :| 0 <= i < |ops[k].inits| && ops[k].inits[i] == x;
    u := InitCycle(g1, d, ops[k].inits, i, fields);
    assert ops[..k + 1][..k] == ops[..k];
    RunGrows(WithParams(params), ops, k + 1, fields);
  }

  /**
   The data-flow graph of a method has a topological rank exactly when no declarator's
   initialiser uses the variable being declared, field writes that hide it apart.
   */
  lemma {:induction false} AcyclicExactly(params: seq<string>, body: seq<Stmt>, fields: set<string>)
    ensures Acyclic(MethodDfg(params, body, fields))
            <==> !SelfInitialises(OpsOfBlock(body, fields), fields)
  {
    hide SelfInit, ApplyAll;
    var ops := OpsOfBlock(body, fields);
    var g := MethodDfg(params, body, fields);
    if SelfInitialises(ops, fields) {
      var k :| 0 <= k < |ops| && SelfInit(ops[..k], ops[k], fields);
      var d, u := SelfInitCycle(params, ops, k, fields);
      forall rank: nat -> nat ensures !Ascends(g.edges, rank) {
        assert !(rank(d) < rank(u) && rank(u) < rank(d));
      }
    } else {
      var rank, bound := RunRanked(params, ops, fields);
      assert Ascends(g.edges, rank);
    }
  }

  /**
   `String name = this.name;` closes a cycle: the field was never written, so its use
   resolves by name to the local it initialises.
   */
  lemma FieldCopyIsCyclic()
    ensures var init := This([Member("", "name", [])]);
            !Acyclic(MethodDfg([], [Local([Declarator("name", Some(init))])], {"name"}))
  {
    var init := This([Member("", "name", [])]);
    var declarators := [Declarator("name", Some(init))];
    var body := [Local(declarators)];
    var op := Declare("name", ["name"]);
    assert VarsOf(init, {"name"}) == ["name"] by { assert [Member("", "name", [])][..0] == []; }
    assert OpsOfDeclarators(declarators, {"name"}) == [op] by {
      assert declarators[..0] == [] && OpsOfDeclarators([], {"name"}) == [];
    }
    assert OpsOfBlock(body, {"name"}) == [op] by {
      assert body[..0] == [] && OpsOfBlock([], {"name"}) == [];
    }
    assert op.name in op.inits && SelfInit([op][..0], [op][0], {"name"});
    AcyclicExactly([], body, {"name"});
  }

  /** Where no local has a field's name: exactly when no initialiser names its variable. */
  lemma {:induction false} AcyclicUnshared(params: seq<string>, body: seq<Stmt>, fields: set<string>)
    requires Unshared(params, OpsOfBlock(body, fields), fields)
    ensures var ops := OpsOfBlock(body, fields);
            Acyclic(MethodDfg(params, body, fields))
            <==> forall k :: 0 <= k < |ops| && ops[k].Declare? ==> ops[k].name !in ops[k].inits
  {
    var ops := OpsOfBlock(body, fields);
    AcyclicExactly(params, body, fields);
    forall k | 0 <= k < |ops|
      ensures SelfInit(ops[..k], ops[k], fields) <==> ops[k].Declare? && ops[k].name in ops[k].inits
    {
    }
  }
}
