/**
 What the data-flow graph draws, read off the source: where a name occurs, which
 declarators, assignments and reads stand in a body, and that the graph holds these
 and nothing else.
 */
module DfgSource {
  import opened Wrappers
  import opened Dfg
  import opened DfgTheorems

  /** The four letters stand at `i`, in either case. */
  predicate ThisAt(s: string, i: int) {
    && 0 <= i && i + 4 <= |s|
    && s[i] in {'t', 'T'} && s[i + 1] in {'h', 'H'} && s[i + 2] in {'i', 'I'} && s[i + 3] in {'s', 'S'}
  }

  lemma LowerIs(c: char, d: char)
    requires 'a' <= d <= 'z'
    ensures Lower(c) == d <==> c == d || c == d - 'a' + 'A'
  {
  }

  lemma LettersAt(s: string, i: int)
    requires 0 <= i <= |s| - 4
    ensures ThisAt(s, i) <==>
              && Lower(s[i]) == 't' && Lower(s[i + 1]) == 'h'
              && Lower(s[i + 2]) == 'i' && Lower(s[i + 3]) == 's'
  {
    hide Lower;
    LowerIs(s[i], 't');
    LowerIs(s[i + 1], 'h');
    LowerIs(s[i + 2], 'i');
    LowerIs(s[i + 3], 's');
  }

  /** A qualifier names `this` when the four letters stand in it somewhere. */
  lemma NamesThisExactly(s: string)
    ensures NamesThis(s) <==> exists i :: ThisAt(s, i)
  {
    hide Lower;
    if i :| ThisAt(s, i) {
      LettersAt(s, i);
    }
    if NamesThis(s) {
      var i :| 0 <= i <= |s| - 4
               && Lower(s[i]) == 't' && Lower(s[i + 1]) == 'h'
               && Lower(s[i + 2]) == 'i' && Lower(s[i + 3]) == 's';
      LettersAt(s, i);
    }
  }

  /** An expression as it stands somewhere, reached through `this` or not. */
  datatype Spot = Spot(expr: Expr, throughThis: bool)

  function Spots(es: seq<Expr>, throughThis: bool): seq<Spot> {
    seq(|es|, i requires 0 <= i < |es| => Spot(es[i], throughThis))
  }

  /** The expressions directly under one that are analysed. */
  function Parts(s: Spot): (ps: seq<Spot>)
    ensures forall i :: 0 <= i < |ps| ==> ps[i].expr < s.expr
  {
    match s.expr
    case Call(_, arguments) => Spots(arguments, false)
    case _ =>
      if s.throughThis then []
      else match s.expr
        case Member(_, _, selectors) => Spots(selectors, false)
        case This(selectors) => Spots(selectors, true)
        case Assign(target, value) => Spots([target, value], false)
        case Binary(left, right) => Spots([left, right], false)
        case New(arguments) => Spots(arguments, false)
        case Cast(operand) => Spots([operand], false)
        case Ternary(c, t, f) => Spots([c, t, f], false)
        case Literal => []
  }

  /** The variable an expression itself names: a bare name, or a field through `this`. */
  predicate Names(s: Spot, name: string, fields: set<string>) {
    && s.expr.Member? && s.expr.member == name && name != ""
    && if s.throughThis then name in fields
       else s.expr.qualifier == "" || (NamesThis(s.expr.qualifier) && name in fields)
  }

  function Own(s: Spot, fields: set<string>): seq<string> {
    if s.expr.Member? && Names(s, s.expr.member, fields) then [s.expr.member] else []
  }

  /** All names under an expression, in source order. */
  function Listed(s: Spot, fields: set<string>): seq<string>
    decreases s.expr, 1
  {
    Own(s, fields) + ListedAll(s.expr, Parts(s), fields)
  }

  function ListedAll(above: Expr, ss: seq<Spot>, fields: set<string>): seq<string>
    requires forall i :: 0 <= i < |ss| ==> ss[i].expr < above
    decreases above, 0, |ss|
  {
    if ss == [] then []
    else ListedAll(above, ss[..|ss| - 1], fields) + Listed(ss[|ss| - 1], fields)
  }

  /** The expression found by going down from part to part. */
  function Locate(s: Spot, path: seq<nat>): Option<Spot>
    decreases |path|
  {
    if path == [] then Some(s)
    else if path[0] < |Parts(s)| then Locate(Parts(s)[path[0]], path[1..])
    else None
  }

  /** The name stands somewhere under the expression, where it is analysed. */
  ghost predicate Occurs(name: string, s: Spot, fields: set<string>) {
    exists path :: Locate(s, path).Some? && Names(Locate(s, path).value, name, fields)
  }

  lemma {:induction false} OccursBelow(name: string, s: Spot, fields: set<string>)
    ensures Occurs(name, s, fields)
            <==> Names(s, name, fields)
                 || exists i :: 0 <= i < |Parts(s)| && Occurs(name, Parts(s)[i], fields)
  {
    if Occurs(name, s, fields) {
      var path :| Locate(s, path).Some? && Names(Locate(s, path).value, name, fields);
      if path != [] {
        var rest := path[1..];
        assert Locate(Parts(s)[path[0]], rest) == Locate(s, path);
        assert Occurs(name, Parts(s)[path[0]], fields);
      }
    }
    if Names(s, name, fields) {
      assert Locate(s, []).Some?;
    }
    if i :| 0 <= i < |Parts(s)| && Occurs(name, Parts(s)[i], fields) {
      var path :| Locate(Parts(s)[i], path).Some? && Names(Locate(Parts(s)[i], path).value, name, fields);
      assert ([i] + path)[1..] == path;
      assert Locate(s, [i] + path) == Locate(Parts(s)[i], path);
    }
  }

  lemma {:induction false} ListedOccur(name: string, s: Spot, fields: set<string>)
    ensures name in Listed(s, fields) <==> Occurs(name, s, fields)
    decreases s.expr, 1
  {
    OccursBelow(name, s, fields);
    AllListedOccur(name, s.expr, Parts(s), fields);
  }

  lemma {:induction false} AllListedOccur(name: string, above: Expr, ss: seq<Spot>, fields: set<string>)
    requires forall i :: 0 <= i < |ss| ==> ss[i].expr < above
    ensures name in ListedAll(above, ss, fields)
            <==> exists i :: 0 <= i < |ss| && Occurs(name, ss[i], fields)
    decreases above, 0, |ss|
  {
    hide Occurs, Listed;
    if ss != [] {
      var n := |ss| - 1;
      AllListedOccur(name, above, ss[..n], fields);
      ListedOccur(name, ss[n], fields);
      if i :| 0 <= i < |ss| && Occurs(name, ss[i], fields) {
        assert i < n ==> ss[..n][i] == ss[i];
      }
      if i :| 0 <= i < n && Occurs(name, ss[..n][i], fields) {
        assert ss[i] == ss[..n][i];
      }
    }
  }

  // The names extracted are the names listed.

  lemma {:induction false} VarsAreListed(e: Expr, fields: set<string>)
    ensures VarsOf(e, fields) == Listed(Spot(e, false), fields)
    decreases e, 2
  {
    match e
    case Member(_, _, selectors) =>
      hide ListedAll, VarsOfAll;
      AllVarsAreListed(e, selectors, fields);
    case This(selectors) =>
      hide ListedAll, VarsOfThis;
      ThisVarsAreListed(e, selectors, fields);
    case Call(_, arguments) =>
      hide ListedAll, VarsOfAll;
      AllVarsAreListed(e, arguments, fields);
    case New(arguments) =>
      hide ListedAll, VarsOfAll;
      AllVarsAreListed(e, arguments, fields);
    case Assign(target, value) => PairIsListed(e, target, value, fields);
    case Binary(left, right) => PairIsListed(e, left, right, fields);
    case Cast(operand) =>
      VarsAreListed(operand, fields);
      OneListed(e, Spot(operand, false), fields);
      assert Parts(Spot(e, false)) == [Spot(operand, false)];
    case Ternary(_, _, _) => TernaryIsListed(e, fields);
    case Literal =>
  }

  lemma {:induction false} PairIsListed(e: Expr, a: Expr, b: Expr, fields: set<string>)
    requires e == Assign(a, b) || e == Binary(a, b)
    ensures VarsOf(e, fields) == Listed(Spot(e, false), fields)
    decreases e, 1
  {
    hide ListedAll;
    VarsAreListed(a, fields);
    VarsAreListed(b, fields);
    TwoListed(e, Spot(a, false), Spot(b, false), fields);
    assert Parts(Spot(e, false)) == [Spot(a, false), Spot(b, false)];
    assert Own(Spot(e, false), fields) == [];
  }

  lemma {:induction false} TernaryIsListed(e: Expr, fields: set<string>)
    requires e.Ternary?
    ensures VarsOf(e, fields) == Listed(Spot(e, false), fields)
    decreases e, 1
  {
    hide ListedAll;
    var c, t, f := e.condition, e.ifTrue, e.ifFalse;
    VarsAreListed(c, fields);
    VarsAreListed(t, fields);
    VarsAreListed(f, fields);
    ThreeListed(e, Spot(c, false), Spot(t, false), Spot(f, false), fields);
    assert Parts(Spot(e, false)) == [Spot(c, false), Spot(t, false), Spot(f, false)];
    assert Own(Spot(e, false), fields) == [];
  }

  lemma OneListed(above: Expr, a: Spot, fields: set<string>)
    requires a.expr < above
    ensures ListedAll(above, [a], fields) == Listed(a, fields)
  {
    assert [a][..0] == [];
  }

  lemma TwoListed(above: Expr, a: Spot, b: Spot, fields: set<string>)
    requires a.expr < above && b.expr < above
    ensures ListedAll(above, [a, b], fields) == Listed(a, fields) + Listed(b, fields)
  {
    OneListed(above, a, fields);
    assert [a, b][..1] == [a];
  }

  lemma ThreeListed(above: Expr, a: Spot, b: Spot, c: Spot, fields: set<string>)
    requires a.expr < above && b.expr < above && c.expr < above
    ensures ListedAll(above, [a, b, c], fields)
            == Listed(a, fields) + Listed(b, fields) + Listed(c, fields)
  {
    TwoListed(above, a, b, fields);
    assert [a, b, c][..2] == [a, b];
  }

  lemma {:induction false} AllVarsAreListed(above: Expr, es: seq<Expr>, fields: set<string>)
    requires forall i :: 0 <= i < |es| ==> es[i] < above
    ensures VarsOfAll(es, fields) == ListedAll(above, Spots(es, false), fields)
    decreases above, 0, |es|
  {
    if es != [] {
      var n := |es| - 1;
      AllVarsAreListed(above, es[..n], fields);
      VarsAreListed(es[n], fields);
      assert Spots(es, false)[..n] == Spots(es[..n], false);
    }
  }

  lemma {:induction false} ThisVarsAreListed(above: Expr, selectors: seq<Expr>, fields: set<string>)
    requires forall i :: 0 <= i < |selectors| ==> selectors[i] < above
    ensures VarsOfThis(selectors, fields) == ListedAll(above, Spots(selectors, true), fields)
    decreases above, 0, |selectors|
  {
    if selectors != [] {
      var n := |selectors| - 1;
      ThisVarsAreListed(above, selectors[..n], fields);
      assert Spots(selectors, true)[..n] == Spots(selectors[..n], true);
      SelectorIsListed(selectors[n], fields);
    }
  }

  lemma {:induction false} SelectorIsListed(sel: Expr, fields: set<string>)
    ensures Listed(Spot(sel, true), fields)
            == match sel
               case Call(_, arguments) => VarsOfAll(arguments, fields)
               case Member(_, member, _) => if member != "" && member in fields then [member] else []
               case _ => []
    decreases sel, 1
  {
    if sel.Call? {
      AllVarsAreListed(sel, sel.arguments, fields);
    } else {
      assert Parts(Spot(sel, true)) == [];
      assert ListedAll(sel, [], fields) == [];
    }
  }

  // ------------------------------------------------------------- what stands in a body

  /** A declarator, an assignment, or expressions read together. */
  datatype Site =
    | Declared(declarator: Declarator)
    | Assigned(target: Expr, value: Expr)
    | Reading(exprs: seq<Expr>)

  /** What an expression does as a statement, or as the test of a `for`. */
  function ExprSites(e: Expr): seq<Site> {
    match e
    case Assign(target, value) => [Assigned(target, value)]
    case Call(_, arguments) => [Reading(arguments)]
    case Binary(left, right) => [Reading([left, right])]
    case This(selectors) => CallSites(selectors)
    case _ => []
  }

  function CallSites(selectors: seq<Expr>): seq<Site> {
    if selectors == [] then []
    else
      CallSites(selectors[..|selectors| - 1])
      + match selectors[|selectors| - 1]
        case Call(_, arguments) => [Reading(arguments)]
        case _ => []
  }

  /** What a statement does itself, before the statements inside it. */
  function OwnSites(s: Stmt): seq<Site> {
    match s
    case Local(ds) => seq(|ds|, i requires 0 <= i < |ds| => Declared(ds[i]))
    case Expression(e) => ExprSites(e)
    case If(c, _, _) => [Reading([c])]
    case While(c, _) => [Reading([c])]
    case For(Some(test), _) => ExprSites(test)
    case Return(Some(e)) => [Reading([e])]
    case _ => []
  }

  ghost predicate AllBelow(ss: seq<Stmt>, above: Stmt) {
    forall i :: 0 <= i < |ss| ==> ss[i] < above
  }

  function Blocks(cs: seq<Catch>): (ss: seq<Stmt>)
    ensures forall st :: st in ss ==> exists i :: 0 <= i < |cs| && st in cs[i].block
  {
    if cs == [] then []
    else
      var n := |cs| - 1;
      assert forall i :: 0 <= i < n ==> cs[..n][i] == cs[i];
      Blocks(cs[..n]) + cs[n].block
  }

  /** The statements directly inside one, in source order. */
  function Inner(s: Stmt): (ss: seq<Stmt>)
    ensures AllBelow(ss, s)
  {
    match s
    case If(_, a, None) => [a]
    case If(_, a, Some(b)) => [a, b]
    case While(_, body) => [body]
    case For(_, body) => [body]
    case Block(ss) => ss
    case Try(block, catches, last) =>
      BlocksBelow(s);
      block + Blocks(catches) + last
    case _ => []
  }

  lemma BlocksBelow(s: Stmt)
    requires s.Try?
    ensures AllBelow(s.block, s) && AllBelow(Blocks(s.catches), s) && AllBelow(s.finallyBlock, s)
    ensures AllBelow(s.block + Blocks(s.catches), s)
    ensures AllBelow(s.block + Blocks(s.catches) + s.finallyBlock, s)
  {
    var inner := Blocks(s.catches);
    forall k | 0 <= k < |inner| ensures inner[k] < s {
      assert inner[k] in inner;
      var i :| 0 <= i < |s.catches| && inner[k] in s.catches[i].block;
      assert s.catches[i] < s;
    }
  }

  /** Everything a statement does, in source order. */
  function SitesIn(s: Stmt): seq<Site>
    decreases s, 1
  {
    OwnSites(s) + SitesOf(s, Inner(s))
  }

  function SitesOf(above: Stmt, ss: seq<Stmt>): seq<Site>
    requires AllBelow(ss, above)
    decreases above, 0, |ss|
  {
    if ss == [] then [] else SitesOf(above, ss[..|ss| - 1]) + SitesIn(ss[|ss| - 1])
  }

  /** The statement found by going inside, from statement to statement. */
  function Find(s: Stmt, path: seq<nat>): Option<Stmt>
    decreases |path|
  {
    if path == [] then Some(s)
    else if path[0] < |Inner(s)| then Find(Inner(s)[path[0]], path[1..])
    else None
  }

  /** A statement somewhere inside does this. */
  ghost predicate StandsIn(s: Stmt, site: Site) {
    exists path :: Find(s, path).Some? && site in OwnSites(Find(s, path).value)
  }

  lemma {:induction false} StandsBelow(s: Stmt, site: Site)
    ensures StandsIn(s, site)
            <==> site in OwnSites(s) || exists i :: 0 <= i < |Inner(s)| && StandsIn(Inner(s)[i], site)
  {
    if StandsIn(s, site) {
      var path :| Find(s, path).Some? && site in OwnSites(Find(s, path).value);
      if path != [] {
        var rest := path[1..];
        assert Find(Inner(s)[path[0]], rest) == Find(s, path);
        assert StandsIn(Inner(s)[path[0]], site);
      }
    }
    if site in OwnSites(s) {
      assert Find(s, []).Some?;
    }
    if i :| 0 <= i < |Inner(s)| && StandsIn(Inner(s)[i], site) {
      var path :| Find(Inner(s)[i], path).Some? && site in OwnSites(Find(Inner(s)[i], path).value);
      assert ([i] + path)[1..] == path;
      assert Find(s, [i] + path) == Find(Inner(s)[i], path);
    }
  }

  lemma {:induction false} SitesStand(s: Stmt, site: Site)
    ensures site in SitesIn(s) <==> StandsIn(s, site)
    decreases s, 1
  {
    StandsBelow(s, site);
    AllSitesStand(s, Inner(s), site);
  }

  lemma {:induction false} AllSitesStand(above: Stmt, ss: seq<Stmt>, site: Site)
    requires AllBelow(ss, above)
    ensures site in SitesOf(above, ss) <==> exists i :: 0 <= i < |ss| && StandsIn(ss[i], site)
    decreases above, 0, |ss|
  {
    hide StandsIn, SitesIn;
    if ss != [] {
      var n := |ss| - 1;
      AllSitesStand(above, ss[..n], site);
      SitesStand(ss[n], site);
      if i :| 0 <= i < |ss| && StandsIn(ss[i], site) {
        assert i < n ==> ss[..n][i] == ss[i];
      }
      if i :| 0 <= i < n && StandsIn(ss[..n][i], site) {
        assert ss[i] == ss[..n][i];
      }
    }
  }

  // The operations of a method are its sites, each with the names listed under it.

  function ListedIn(es: seq<Expr>, fields: set<string>): seq<string> {
    if es == [] then []
    else ListedIn(es[..|es| - 1], fields) + Listed(Spot(es[|es| - 1], false), fields)
  }

  function OpOf(site: Site, fields: set<string>): Op {
    match site
    case Declared(d) => Declare(d.name, if d.init.Some? then Listed(Spot(d.init.value, false), fields) else [])
    case Assigned(target, value) => Write(Listed(Spot(value, false), fields), Listed(Spot(target, false), fields))
    case Reading(exprs) => Use(ListedIn(exprs, fields))
  }

  function OpsOfSites(sites: seq<Site>, fields: set<string>): seq<Op> {
    seq(|sites|, i requires 0 <= i < |sites| => OpOf(sites[i], fields))
  }

  lemma {:induction false} ReadTogether(es: seq<Expr>, fields: set<string>)
    ensures VarsOfAll(es, fields) == ListedIn(es, fields)
  {
    if es != [] {
      ReadTogether(es[..|es| - 1], fields);
      VarsAreListed(es[|es| - 1], fields);
    }
  }

  lemma ListedInOne(e: Expr, fields: set<string>)
    ensures ListedIn([e], fields) == VarsOf(e, fields)
  {
    VarsAreListed(e, fields);
    assert [e][..0] == [];
  }

  lemma ListedInTwo(a: Expr, b: Expr, fields: set<string>)
    ensures ListedIn([a, b], fields) == VarsOf(a, fields) + VarsOf(b, fields)
  {
    ListedInOne(a, fields);
    VarsAreListed(b, fields);
    assert [a, b][..1] == [a];
  }

  lemma SitesConcat(a: seq<Site>, b: seq<Site>, fields: set<string>)
    ensures OpsOfSites(a + b, fields) == OpsOfSites(a, fields) + OpsOfSites(b, fields)
  {
  }

  lemma {:induction false} ExprOpsAreSites(e: Expr, fields: set<string>)
    ensures OpsOfExpr(e, fields) == OpsOfSites(ExprSites(e), fields)
  {
    match e
    case Assign(target, value) =>
      VarsAreListed(target, fields);
      VarsAreListed(value, fields);
    case Call(_, arguments) => ReadTogether(arguments, fields);
    case Binary(left, right) => ListedInTwo(left, right, fields);
    case This(selectors) => SelectorOpsAreSites(selectors, fields);
    case _ =>
  }

  lemma {:induction false} SelectorOpsAreSites(selectors: seq<Expr>, fields: set<string>)
    ensures OpsOfSelectors(selectors, fields) == OpsOfSites(CallSites(selectors), fields)
  {
    if selectors != [] {
      var n := |selectors| - 1;
      SelectorOpsAreSites(selectors[..n], fields);
      var last := if selectors[n].Call? then [Reading(selectors[n].arguments)] else [];
      if selectors[n].Call? { ReadTogether(selectors[n].arguments, fields); }
      SitesConcat(CallSites(selectors[..n]), last, fields);
      assert CallSites(selectors) == CallSites(selectors[..n]) + last;
    }
  }

  lemma {:induction false} DeclaratorOpsAreSites(ds: seq<Declarator>, fields: set<string>)
    ensures OpsOfDeclarators(ds, fields) == OpsOfSites(OwnSites(Local(ds)), fields)
  {
    if ds != [] {
      var n := |ds| - 1;
      hide VarsOf;
      DeclaratorOpsAreSites(ds[..n], fields);
      SitesConcat(OwnSites(Local(ds[..n])), [Declared(ds[n])], fields);
      if ds[n].init.Some? { VarsAreListed(ds[n].init.value, fields); }
      assert OwnSites(Local(ds)) == OwnSites(Local(ds[..n])) + [Declared(ds[n])];
    }
  }

  lemma {:induction false} OpsAreSites(s: Stmt, fields: set<string>)
    ensures OpsOfStmt(s, fields) == OpsOfSites(SitesIn(s), fields)
    decreases s, 3
  {
    hide SitesOf, OpsOfExpr, OpsOfDeclarators, OpsOfBlock, ExprSites, VarsOf;
    SitesConcat(OwnSites(s), SitesOf(s, Inner(s)), fields);
    NothingInside(s);
    match s
    case Local(ds) => DeclaratorOpsAreSites(ds, fields);
    case Expression(e) => ExprOpsAreSites(e, fields);
    case If(_, _, _) => IfOpsAreSites(s, fields);
    case While(c, body) =>
      ListedInOne(c, fields);
      OpsAreSites(body, fields);
      OneInside(s, body);
      assert OpsOfSites([Reading([c])], fields) == [Use(VarsOf(c, fields))];
    case For(test, body) =>
      if test.Some? { ExprOpsAreSites(test.value, fields); }
      OpsAreSites(body, fields);
      OneInside(s, body);
    case Return(r) => if r.Some? { ListedInOne(r.value, fields); }
    case Block(ss) => BlockOpsAreSites(s, ss, fields);
    case Try(_, _, _) => TryOpsAreSites(s, fields);
    case Unanalyzed =>
  }

  lemma NothingInside(above: Stmt)
    ensures SitesOf(above, []) == []
  {
  }

  lemma {:induction false} IfOpsAreSites(s: Stmt, fields: set<string>)
    requires s.If?
    ensures OpsOfStmt(s, fields) == OpsOfSites(SitesIn(s), fields)
    decreases s, 2
  {
    hide SitesOf, VarsOf;
    var c, a := s.condition, s.thenPart;
    SitesConcat(OwnSites(s), SitesOf(s, Inner(s)), fields);
    ListedInOne(c, fields);
    assert OpsOfSites([Reading([c])], fields) == [Use(VarsOf(c, fields))];
    OpsAreSites(a, fields);
    if s.elsePart.Some? {
      var b := s.elsePart.value;
      OpsAreSites(b, fields);
      TwoInside(s, a, b);
      SitesConcat(SitesIn(a), SitesIn(b), fields);
    } else {
      OneInside(s, a);
    }
  }

  lemma OneInside(above: Stmt, a: Stmt)
    requires a < above
    ensures SitesOf(above, [a]) == SitesIn(a)
  {
    assert [a][..0] == [];
  }

  lemma TwoInside(above: Stmt, a: Stmt, b: Stmt)
    requires a < above && b < above
    ensures SitesOf(above, [a, b]) == SitesIn(a) + SitesIn(b)
  {
    OneInside(above, a);
    assert [a, b][..1] == [a];
  }

  lemma {:induction false} InsideConcat(above: Stmt, a: seq<Stmt>, b: seq<Stmt>)
    requires AllBelow(a, above) && AllBelow(b, above) && AllBelow(a + b, above)
    ensures SitesOf(above, a + b) == SitesOf(above, a) + SitesOf(above, b)
    decreases |b|
  {
    hide SitesIn;
    if b == [] {
      assert a + b == a;
    } else {
      var n, all := |b| - 1, a + b;
      var first, last := SitesOf(above, b[..n]), SitesIn(b[n]);
      assert all[..|all| - 1] == a + b[..n] && all[|all| - 1] == b[n];
      InsideConcat(above, a, b[..n]);
      assert SitesOf(above, all) == (SitesOf(above, a) + first) + last;
      assert (SitesOf(above, a) + first) + last == SitesOf(above, a) + (first + last);
    }
  }

  lemma {:induction false} BlockOpsAreSites(above: Stmt, ss: seq<Stmt>, fields: set<string>)
    requires AllBelow(ss, above)
    ensures OpsOfBlock(ss, fields) == OpsOfSites(SitesOf(above, ss), fields)
    decreases above, 0, |ss|
  {
    hide SitesIn, OpsOfStmt;
    if ss != [] {
      var n := |ss| - 1;
      BlockOpsAreSites(above, ss[..n], fields);
      OpsAreSites(ss[n], fields);
      SitesConcat(SitesOf(above, ss[..n]), SitesIn(ss[n]), fields);
    }
  }

  lemma {:induction false} TryOpsAreSites(s: Stmt, fields: set<string>)
    requires s.Try?
    ensures OpsOfStmt(s, fields) == OpsOfSites(SitesOf(s, Inner(s)), fields)
    decreases s, 2
  {
    hide SitesOf, OpsOfBlock, OpsOfCatches, OpsOfSites, Blocks, AllBelow;
    BlocksBelow(s);
    var block, catches, last := s.block, Blocks(s.catches), s.finallyBlock;
    InsideConcat(s, block + catches, last);
    InsideConcat(s, block, catches);
    SitesConcat(SitesOf(s, block) + SitesOf(s, catches), SitesOf(s, last), fields);
    SitesConcat(SitesOf(s, block), SitesOf(s, catches), fields);
    BlockOpsAreSites(s, block, fields);
    CatchOpsAreSites(s, s.catches, fields);
    BlockOpsAreSites(s, last, fields);
  }

  lemma {:induction false} CatchOpsAreSites(above: Stmt, cs: seq<Catch>, fields: set<string>)
    requires AllBelow(Blocks(cs), above)
    ensures OpsOfCatches(cs, fields) == OpsOfSites(SitesOf(above, Blocks(cs)), fields)
    decreases above, 1, |cs|
  {
    hide SitesOf, OpsOfBlock;
    if cs == [] {
      NothingInside(above);
    } else {
      var n := |cs| - 1;
      var before, block := Blocks(cs[..n]), cs[n].block;
      assert Blocks(cs) == before + block;
      assert AllBelow(before, above) && AllBelow(block, above) by {
        assert forall i :: 0 <= i < |before| ==> before[i] == Blocks(cs)[i];
        assert forall i :: 0 <= i < |block| ==> block[i] == Blocks(cs)[|before| + i];
      }
      CatchOpsAreSites(above, cs[..n], fields);
      BlockOpsAreSites(above, block, fields);
      InsideConcat(above, before, block);
      SitesConcat(SitesOf(above, before), SitesOf(above, block), fields);
    }
  }

  /** A method's operations are those of its sites, in source order. */
  lemma {:induction false} MethodOpsAreSites(body: seq<Stmt>, fields: set<string>)
    ensures OpsOfBlock(body, fields) == OpsOfSites(SitesIn(Block(body)), fields)
  {
    hide SitesOf, OpsOfBlock;
    BlockOpsAreSites(Block(body), body, fields);
    assert OwnSites(Block(body)) == [] && Inner(Block(body)) == body;
  }

  // --------------------------------------------------------------- what the graph holds

  ghost predicate OccursIn(es: seq<Expr>, name: string, fields: set<string>) {
    exists i :: 0 <= i < |es| && Occurs(name, Spot(es[i], false), fields)
  }

  lemma OccursInLast(es: seq<Expr>, name: string, fields: set<string>)
    requires es != []
    ensures OccursIn(es, name, fields)
            <==> OccursIn(es[..|es| - 1], name, fields) || Occurs(name, Spot(es[|es| - 1], false), fields)
  {
    hide Occurs;
    var n := |es| - 1;
    if i :| 0 <= i < |es| && Occurs(name, Spot(es[i], false), fields) {
      assert i < n ==> es[..n][i] == es[i];
    }
    if i :| 0 <= i < n && Occurs(name, Spot(es[..n][i], false), fields) {
      assert es[i] == es[..n][i];
    }
  }

  /** The name stands where the site reads: initialiser, right side, condition, and so on. */
  ghost predicate ReadBy(site: Site, name: string, fields: set<string>) {
    match site
    case Declared(d) => d.init.Some? && Occurs(name, Spot(d.init.value, false), fields)
    case Assigned(_, value) => Occurs(name, Spot(value, false), fields)
    case Reading(exprs) => OccursIn(exprs, name, fields)
  }

  /** The name stands on the left side of the assignment. */
  ghost predicate WrittenBy(site: Site, name: string, fields: set<string>) {
    site.Assigned? && Occurs(name, Spot(site.target, false), fields)
  }

  function ReadNames(op: Op): seq<string> {
    match op
    case Declare(_, inits) => inits
    case Write(rhs, _) => rhs
    case Use(names) => names
  }

  lemma {:induction false} ListedTogether(es: seq<Expr>, name: string, fields: set<string>)
    ensures name in ListedIn(es, fields) <==> OccursIn(es, name, fields)
  {
    hide Occurs, OccursIn, Listed;
    if es == [] {
      assert !OccursIn([], name, fields) by { NowhereInNone(name, fields); }
    } else {
      ListedTogether(es[..|es| - 1], name, fields);
      ListedOccur(name, Spot(es[|es| - 1], false), fields);
      OccursInLast(es, name, fields);
    }
  }

  lemma NowhereInNone(name: string, fields: set<string>)
    ensures !OccursIn([], name, fields)
  {
  }

  lemma {:induction false} OpReads(site: Site, name: string, fields: set<string>)
    ensures name in ReadNames(OpOf(site, fields)) <==> ReadBy(site, name, fields)
    ensures OpOf(site, fields).Write? <==> site.Assigned?
    ensures OpOf(site, fields).Declare? <==> site.Declared?
    ensures site.Declared? ==> OpOf(site, fields).name == site.declarator.name
    ensures site.Assigned? ==>
              (name in OpOf(site, fields).lhs <==> WrittenBy(site, name, fields))
  {
    hide Occurs;
    match site
    case Declared(d) => if d.init.Some? { ListedOccur(name, Spot(d.init.value, false), fields); }
    case Assigned(target, value) =>
      ListedOccur(name, Spot(target, false), fields);
      ListedOccur(name, Spot(value, false), fields);
    case Reading(exprs) => ListedTogether(exprs, name, fields);
  }

  /** The operation of a site that stands in the body. */
  lemma {:induction false} OpAt(body: seq<Stmt>, fields: set<string>, site: Site) returns (k: nat)
    requires StandsIn(Block(body), site)
    ensures k < |OpsOfBlock(body, fields)| && OpsOfBlock(body, fields)[k] == OpOf(site, fields)
  {
    hide StandsIn, SitesIn, OpOf;
    MethodOpsAreSites(body, fields);
    SitesStand(Block(body), site);
    k :| 0 <= k < |SitesIn(Block(body))| && SitesIn(Block(body))[k] == site;
  }

  lemma {:induction false} SiteAt(body: seq<Stmt>, fields: set<string>, k: nat) returns (site: Site)
    requires k < |OpsOfBlock(body, fields)|
    ensures StandsIn(Block(body), site) && OpsOfBlock(body, fields)[k] == OpOf(site, fields)
  {
    hide StandsIn, SitesIn, OpOf;
    MethodOpsAreSites(body, fields);
    site := SitesIn(Block(body))[k];
    SitesStand(Block(body), site);
  }

  ghost predicate UseOf(g: Graph, u: nat, name: string, fields: set<string>) {
    u < |g.nodes| && g.nodes[u] == Node(name, Used, BodyKey(name, fields))
  }

  /** Every name a site of the body reads has a use. */
  lemma {:induction false} ReadsAreDrawn(
      params: seq<string>, body: seq<Stmt>, fields: set<string>, site: Site, name: string)
    returns (u: nat)
    requires StandsIn(Block(body), site) && ReadBy(site, name, fields)
    ensures UseOf(MethodDfg(params, body, fields), u, name, fields)
  {
    hide StandsIn, OpOf, ReadBy, ApplyAll, Apply, OpsOfBlock, NodesOf;
    var k := OpAt(body, fields, site);
    OpReads(site, name, fields);
    var ops := OpsOfBlock(body, fields);
    var j :| 0 <= j < |ReadNames(ops[k])| && ReadNames(ops[k])[j] == name;
    u := ReadNode(params, ops, k, fields, j);
  }

  lemma {:induction false} ReadNode(params: seq<string>, ops: seq<Op>, k: nat, fields: set<string>, j: nat)
    returns (u: nat)
    requires k < |ops| && j < |ReadNames(ops[k])|
    ensures UseOf(ApplyAll(WithParams(params), ops, fields), u, ReadNames(ops[k])[j], fields)
  {
    hide ApplyAll, Apply;
    var first := |Before(params, ops, k, fields).nodes|;
    var i := if ops[k].Declare? then 1 + j else j;
    match ops[k] {
      case Declare(_, inits) => DeclareLayout(ops[k], fields);
      case Write(_, _) => WriteLayout(ops[k], fields);
      case Use(names) => UseNodesAre(names, fields);
    }
    u := first + i;
    FromOperation(params, ops, k, fields, 0, u);
    assert ApplyAll(WithParams(params), ops, fields).nodes[u] == NodesOf(ops[k], fields)[i];
  }

  /** A use of the name has an edge of this kind into `dst`. */
  ghost predicate Feeds(g: Graph, name: string, dst: nat, kind: Kind, fields: set<string>) {
    exists u: nat :: UseOf(g, u, name, fields) && (u, dst) in g.edges && g.edges[(u, dst)] == kind
  }

  /** Into `dst` lead edges from a use of each name the site reads, and from nothing else. */
  ghost predicate FedBy(g: Graph, dst: nat, kind: Kind, site: Site, fields: set<string>) {
    && (forall name :: ReadBy(site, name, fields) ==> Feeds(g, name, dst, kind, fields))
    && (forall u: nat :: (u, dst) in g.edges ==>
          && u < |g.nodes| && ReadBy(site, g.nodes[u].name, fields)
          && UseOf(g, u, g.nodes[u].name, fields))
  }

  /** The edges into `dst` come from the nodes of the names read, one each from `first` on. */
  ghost predicate TakesRun(g: Graph, dst: nat, kind: Kind, first: nat, names: seq<string>, fields: set<string>) {
    && (forall j: nat :: j < |names| ==> UseOf(g, first + j, names[j], fields))
    && (forall a: nat :: (a, dst) in g.edges <==> first <= a < first + |names|)
    && (forall a: nat :: (a, dst) in g.edges ==> g.edges[(a, dst)] == kind)
  }

  lemma RunIsFed(
      g: Graph, dst: nat, kind: Kind, first: nat, site: Site, fields: set<string>)
    requires TakesRun(g, dst, kind, first, ReadNames(OpOf(site, fields)), fields)
    ensures FedBy(g, dst, kind, site, fields)
  {
    hide OpOf, ReadBy;
    var names := ReadNames(OpOf(site, fields));
    forall name | ReadBy(site, name, fields) ensures Feeds(g, name, dst, kind, fields) {
      OpReads(site, name, fields);
      var j :| 0 <= j < |names| && names[j] == name;
      assert UseOf(g, first + j, name, fields);
    }
    forall u: nat | (u, dst) in g.edges
      ensures u < |g.nodes| && ReadBy(site, g.nodes[u].name, fields)
      ensures UseOf(g, u, g.nodes[u].name, fields)
    {
      var j: nat := u - first;
      assert UseOf(g, first + j, names[j], fields);
      OpReads(site, names[j], fields);
    }
  }

  lemma {:induction false} DefinitionTakesRun(params: seq<string>, ops: seq<Op>, k: nat, fields: set<string>)
    requires k < |ops| && ops[k].Declare?
    ensures var g := ApplyAll(WithParams(params), ops, fields);
            var d := |Before(params, ops, k, fields).nodes|;
            && d < |g.nodes| && g.nodes[d] == Node(ops[k].name, Def, LocalKey(ops[k].name))
            && TakesRun(g, d, Init, d + 1, ops[k].inits, fields)
  {
    hide ApplyAll, Apply, NodesOf, Before;
    var g := ApplyAll(WithParams(params), ops, fields);
    var d := |Before(params, ops, k, fields).nodes|;
    DeclareLayout(ops[k], fields);
    DeclareHead(ops[k], fields);
    FromOperation(params, ops, k, fields, 0, d);
    assert g.nodes[d] == NodesOf(ops[k], fields)[0];
    forall j: nat | j < |ops[k].inits| ensures UseOf(g, d + 1 + j, ops[k].inits[j], fields) {
      assert g.nodes[d + 1 + j] == NodesOf(ops[k], fields)[1 + j];
    }
    forall a: nat
      ensures (a, d) in g.edges <==> d + 1 <= a < d + 1 + |ops[k].inits|
      ensures (a, d) in g.edges ==> g.edges[(a, d)] == Init
    {
      FlowsIntoDefinition(params, ops, k, fields, a);
    }
  }

  lemma {:induction false} WriteTakesRun(
      params: seq<string>, ops: seq<Op>, k: nat, fields: set<string>, i: nat)
    requires k < |ops| && ops[k].Write? && i < |ops[k].lhs|
    ensures var g := ApplyAll(WithParams(params), ops, fields);
            var first := |Before(params, ops, k, fields).nodes|;
            var w := first + |ops[k].rhs| + i;
            && w < |g.nodes| && g.nodes[w] == Node(ops[k].lhs[i], Written, BodyKey(ops[k].lhs[i], fields))
            && TakesRun(g, w, Flow, first, ops[k].rhs, fields)
  {
    hide ApplyAll, Apply, NodesOf, Before;
    var g := ApplyAll(WithParams(params), ops, fields);
    var first := |Before(params, ops, k, fields).nodes|;
    var w := first + |ops[k].rhs| + i;
    WriteLayout(ops[k], fields);
    WriteTail(ops[k], fields, i);
    FromOperation(params, ops, k, fields, 0, w);
    assert g.nodes[w] == NodesOf(ops[k], fields)[|ops[k].rhs| + i];
    forall j: nat | j < |ops[k].rhs| ensures UseOf(g, first + j, ops[k].rhs[j], fields) {
      assert g.nodes[first + j] == NodesOf(ops[k], fields)[j];
    }
    forall a: nat
      ensures (a, w) in g.edges <==> first <= a < first + |ops[k].rhs|
      ensures (a, w) in g.edges ==> g.edges[(a, w)] == Flow
    {
      FlowsIntoWrite(params, ops, k, fields, w, a);
    }
  }

  /**
   Every declarator anywhere in the body has its definition, and into it lead init
   edges from a use of each name in its initialiser and from nothing else.
   */
  lemma {:induction false} DeclaratorsAreDrawn(
      params: seq<string>, body: seq<Stmt>, fields: set<string>, d: Declarator) returns (def: nat)
    requires StandsIn(Block(body), Declared(d))
    ensures var g := MethodDfg(params, body, fields);
            && def < |g.nodes| && g.nodes[def] == Node(d.name, Def, LocalKey(d.name))
            && FedBy(g, def, Init, Declared(d), fields)
  {
    hide StandsIn, OpOf, ApplyAll, OpsOfBlock, Before, TakesRun, FedBy;
    var ops := OpsOfBlock(body, fields);
    var k := OpAt(body, fields, Declared(d));
    OpReads(Declared(d), "", fields);
    def := |Before(params, ops, k, fields).nodes|;
    DefinitionTakesRun(params, ops, k, fields);
    RunIsFed(MethodDfg(params, body, fields), def, Init, def + 1, Declared(d), fields);
  }

  lemma DeclareHead(op: Op, fields: set<string>)
    requires op.Declare?
    ensures |NodesOf(op, fields)| > 0 && NodesOf(op, fields)[0] == Node(op.name, Def, LocalKey(op.name))
  {
  }

  /**
   Every name on the left of an assignment anywhere in the body has its write, and into
   it lead flow edges from a use of each name on the right and from nothing else.
   */
  lemma {:induction false} AssignmentsAreDrawn(
      params: seq<string>, body: seq<Stmt>, fields: set<string>, target: Expr, value: Expr, x: string)
    returns (w: nat)
    requires StandsIn(Block(body), Assigned(target, value))
    requires WrittenBy(Assigned(target, value), x, fields)
    ensures var g := MethodDfg(params, body, fields);
            && w < |g.nodes| && g.nodes[w] == Node(x, Written, BodyKey(x, fields))
            && FedBy(g, w, Flow, Assigned(target, value), fields)
  {
    hide StandsIn, OpOf, WrittenBy, ApplyAll, OpsOfBlock, Before, TakesRun, FedBy;
    var ops := OpsOfBlock(body, fields);
    var site := Assigned(target, value);
    var k := OpAt(body, fields, site);
    OpReads(site, x, fields);
    var i :| 0 <= i < |ops[k].lhs| && ops[k].lhs[i] == x;
    var first := |Before(params, ops, k, fields).nodes|;
    w := first + |ops[k].rhs| + i;
    WriteTakesRun(params, ops, k, fields, i);
    RunIsFed(MethodDfg(params, body, fields), w, Flow, first, site, fields);
  }

  lemma WriteTail(op: Op, fields: set<string>, i: nat)
    requires op.Write? && i < |op.lhs|
    ensures |op.rhs| + i < |NodesOf(op, fields)|
    ensures NodesOf(op, fields)[|op.rhs| + i] == Node(op.lhs[i], Written, BodyKey(op.lhs[i], fields))
  {
    UseNodesAre(op.rhs, fields);
    WriteNodesAre(op.lhs, fields);
  }

  /** The node is one that the site calls for. */
  ghost predicate DrawnFor(x: Node, site: Site, fields: set<string>) {
    match x.operation
    case Def => site.Declared? && x == Node(site.declarator.name, Def, LocalKey(site.declarator.name))
    case Written => WrittenBy(site, x.name, fields) && x.key == BodyKey(x.name, fields)
    case Used => ReadBy(site, x.name, fields) && x.key == BodyKey(x.name, fields)
  }

  /** The graph holds the parameters, and otherwise only what sites of the body call for. */
  lemma {:induction false} NothingElseIsDrawn(params: seq<string>, body: seq<Stmt>, fields: set<string>, i: nat)
    returns (site: Site)
    requires |params| <= i < |MethodDfg(params, body, fields).nodes|
    ensures StandsIn(Block(body), site)
    ensures DrawnFor(MethodDfg(params, body, fields).nodes[i], site, fields)
  {
    hide StandsIn, OpOf, ReadBy, WrittenBy, ApplyAll, OpsOfBlock, NodesOf, Before;
    var ops := OpsOfBlock(body, fields);
    var k := OwnerOf(params, ops, fields, i);
    site := SiteAt(body, fields, k);
    var x := MethodDfg(params, body, fields).nodes[i];
    OpReads(site, x.name, fields);
    NodeOfOp(ops[k], fields, i - |Before(params, ops, k, fields).nodes|);
  }

  lemma NodeOfOp(op: Op, fields: set<string>, i: nat)
    requires i < |NodesOf(op, fields)|
    ensures var x := NodesOf(op, fields)[i];
            match x.operation
            case Def => op.Declare? && x == Node(op.name, Def, LocalKey(op.name))
            case Written => op.Write? && x.name in op.lhs && x.key == BodyKey(x.name, fields)
            case Used => x.name in ReadNames(op) && x.key == BodyKey(x.name, fields)
  {
    match op {
      case Declare(_, inits) => UseNodesAre(inits, fields);
      case Write(rhs, lhs) =>
        UseNodesAre(rhs, fields);
        WriteNodesAre(lhs, fields);
      case Use(names) => UseNodesAre(names, fields);
    }
  }

  /** The parameters come first, in order. */
  lemma {:induction false} ParametersAreDrawn(params: seq<string>, body: seq<Stmt>, fields: set<string>, i: nat)
    requires i < |params|
    ensures var g := MethodDfg(params, body, fields);
            i < |g.nodes| && g.nodes[i] == Node(params[i], Def, ParamKey(params[i]))
  {
    ParamNode(params, i);
    RunGrows(WithParams(params), OpsOfBlock(body, fields), 0, fields);
    EdgesInto(WithParams(params), MethodDfg(params, body, fields), 0, i);
  }

  lemma {:induction false} ParamNode(params: seq<string>, i: nat)
    requires i < |params|
    ensures |WithParams(params).nodes| == |params|
    ensures WithParams(params).nodes[i] == Node(params[i], Def, ParamKey(params[i]))
  {
    var n := |params| - 1;
    ParamsSound(params, {});
    ParamsSound(params[..n], {});
    if i < n { ParamNode(params[..n], i); }
  }
}
