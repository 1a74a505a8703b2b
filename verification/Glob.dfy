/**
 Globs compiled to regular expressions, and the recursive listing that asks the
 database for a superset of what it needs.
 */
module Glob {
  import opened Wrappers
  import opened Text

  // ---------------------------------------------------- what a glob means, directly

  predicate NoSlash(s: string) {
    '/' !in s
  }

  predicate OneLine(s: string) {
    '\n' !in s
  }

  predicate DoubleStar(p: string) {
    |p| >= 2 && p[0] == '*' && p[1] == '*'
  }

  /** What a leading double star takes up: itself and the one slash after it, if any. */
  function AfterDoubleStar(p: string): string
    requires DoubleStar(p)
  {
    if |p| > 2 && p[2] == '/' then p[3..] else p[2..]
  }

  /**
   Double stars stand for any text, a star for any text without a slash, a question
   mark for one character that is no slash, anything else for itself.
   */
  ghost predicate Matches(p: string, path: string)
    decreases |p|
  {
    if p == "" then path == ""
    else if DoubleStar(p) then
      exists k :: 0 <= k <= |path| && Matches(AfterDoubleStar(p), path[k..])
    else if p[0] == '*' then
      exists k :: 0 <= k <= |path| && NoSlash(path[..k]) && Matches(p[1..], path[k..])
    else if p[0] == '?' then path != "" && path[0] != '/' && Matches(p[1..], path[1..])
    else path != "" && path[0] == p[0] && Matches(p[1..], path[1..])
  }

  // ------------------------------------------------------------- regular expressions

  datatype Class = Dot | Not(c: char) | Only(c: char)

  /** One character class, once or any number of times. */
  datatype Item = Item(class_: Class, starred: bool)

  predicate Admits(k: Class, c: char) {
    match k
    case Dot => c != '\n'
    case Not(d) => c != d
    case Only(d) => c == d
  }

  /** An anchored expression accepts a text when its items consume all of it. */
  predicate Accepts(items: seq<Item>, s: string)
    decreases |items| + |s|
  {
    if items == [] then s == ""
    else if items[0].starred then
      || Accepts(items[1..], s)
      || (s != "" && Admits(items[0].class_, s[0]) && Accepts(items, s[1..]))
    else s != "" && Admits(items[0].class_, s[0]) && Accepts(items[1..], s[1..])
  }

  /** The characters the compiler escapes. */
  predicate IsMeta(c: char) {
    c in "\\.+^${}()|[]"
  }

  /** The character class a text starts with, and how many characters name it. */
  function ParseClass(s: string): Option<(Class, nat)>
    requires s != ""
  {
    if s[0] == '.' then Some((Dot, 1))
    else if s[0] == '\\' then
      if |s| > 1 && IsMeta(s[1]) then Some((Only(s[1]), 2)) else None
    else if s[0] == '[' then
      if |s| > 3 && s[1] == '^' && s[3] == ']' && !IsMeta(s[2]) && s[2] != '-'
      then Some((Not(s[2]), 4)) else None
    else if IsMeta(s[0]) || s[0] == '*' || s[0] == '?' then None
    else Some((Only(s[0]), 1))
  }

  function ParseItems(s: string): Option<seq<Item>>
    decreases |s|
  {
    if s == "" then Some([])
    else
      var k := ParseClass(s);
      if k.None? || k.value.1 > |s| || k.value.1 == 0 then None
      else
        var n := k.value.1;
        var starred := |s| > n && s[n] == '*';
        var rest := ParseItems(if starred then s[n + 1..] else s[n..]);
        if rest.None? then None else Some([Item(k.value.0, starred)] + rest.value)
  }

  /** An expression anchored at both ends; anything else is not one this produces. */
  function Parse(r: string): Option<seq<Item>> {
    if |r| >= 2 && r[0] == '^' && r[|r| - 1] == '$' then ParseItems(r[1..|r| - 1]) else None
  }

  // ------------------------------------------------------------------- the compiler

  datatype Atom = AnyText | AnySegment | AnyChar | Lit(c: char)

  /** The pattern as the compiler reads it, left to right. */
  function Atoms(p: string): (a: seq<Atom>)
    ensures forall i :: 0 <= i < |a| && a[i].Lit? ==> a[i].c != '*' && a[i].c != '?'
    decreases |p|
  {
    if p == "" then []
    else if DoubleStar(p) then [AnyText] + Atoms(AfterDoubleStar(p))
    else if p[0] == '*' then [AnySegment] + Atoms(p[1..])
    else if p[0] == '?' then [AnyChar] + Atoms(p[1..])
    else [Lit(p[0])] + Atoms(p[1..])
  }

  function Emit(a: Atom): string {
    match a
    case AnyText => ".*"
    case AnySegment => "[^/]*"
    case AnyChar => "[^/]"
    case Lit(c) => if IsMeta(c) then "\\" + [c] else [c]
  }

  function EmitAll(a: seq<Atom>): string {
    if a == [] then "" else Emit(a[0]) + EmitAll(a[1..])
  }

  function ItemOf(a: Atom): Item {
    match a
    case AnyText => Item(Dot, true)
    case AnySegment => Item(Not('/'), true)
    case AnyChar => Item(Not('/'), false)
    case Lit(c) => Item(Only(c), false)
  }

  function ItemsOf(a: seq<Atom>): (items: seq<Item>)
    ensures |items| == |a|
  {
    if a == [] then [] else [ItemOf(a[0])] + ItemsOf(a[1..])
  }

  /**
   The compiled expression is well formed, and accepts exactly the paths the glob
   matches.
   */
  method GlobToRegex(pattern: string) returns (regex: string)
    ensures Parse(regex) == Some(ItemsOf(Atoms(pattern)))
    ensures forall path :: OneLine(path) ==>
              (Accepts(Parse(regex).value, path) <==> Matches(pattern, path))
  {
    hide Atoms, EmitAll, Emit, Parse, Accepts, Matches;
    var result := "";
    var i := 0;
    while i < |pattern|
      invariant 0 <= i <= |pattern|
      invariant result + EmitAll(Atoms(pattern[i..])) == EmitAll(Atoms(pattern))
    {
      ghost var rest, before := pattern[i..], result;
      var c := pattern[i];
      if c == '*' && i + 1 < |pattern| && pattern[i + 1] == '*' {
        result := result + ".*";
        i := i + 2;
        if i < |pattern| && pattern[i] == '/' {
          i := i + 1;
        }
      } else if c == '*' {
        result := result + "[^/]*";
        i := i + 1;
      } else if c == '?' {
        result := result + "[^/]";
        i := i + 1;
      } else if c in "\\.+^${}()|[]" {
        result := result + ("\\" + [c]);
        i := i + 1;
      } else {
        result := result + [c];
        i := i + 1;
      }
      assert pattern[i..] == AfterToken(rest);
      assert result == before + Token(rest);
      EmittedSoFar(before, rest);
    }
    regex := "^" + result + "$";
    NothingLeft(result, pattern[i..]);
    CompiledMeans(pattern, regex);
  }

  lemma EmittedSoFar(before: string, rest: string)
    requires rest != ""
    ensures (before + Token(rest)) + EmitAll(Atoms(AfterToken(rest))) == before + EmitAll(Atoms(rest))
  {
    AtomsStep(rest);
  }

  lemma NothingLeft(result: string, rest: string)
    requires rest == ""
    ensures result + EmitAll(Atoms(rest)) == result
  {
  }

  lemma CompiledMeans(pattern: string, regex: string)
    requires regex == "^" + EmitAll(Atoms(pattern)) + "$"
    ensures Parse(regex) == Some(ItemsOf(Atoms(pattern)))
    ensures forall path :: OneLine(path) ==>
              (Accepts(Parse(regex).value, path) <==> Matches(pattern, path))
  {
    hide EmitAll, Accepts, Matches;
    assert regex[1..|regex| - 1] == EmitAll(Atoms(pattern));
    ParseEmitted(Atoms(pattern));
    forall path | OneLine(path)
      ensures Accepts(Parse(regex).value, path) <==> Matches(pattern, path)
    {
      CompilationIsFaithful(pattern, path);
    }
  }

  /** What the compiler emits for the head of a pattern, and what it goes on with. */
  function Token(p: string): string
    requires p != ""
  {
    if DoubleStar(p) then ".*"
    else if p[0] == '*' then "[^/]*"
    else if p[0] == '?' then "[^/]"
    else if IsMeta(p[0]) then "\\" + [p[0]]
    else [p[0]]
  }

  function AfterToken(p: string): string
    requires p != ""
  {
    if DoubleStar(p) then AfterDoubleStar(p) else p[1..]
  }

  /** One round of the compiler's loop. */
  lemma AtomsStep(p: string)
    requires p != ""
    ensures Atoms(p) != [] && Atoms(p)[1..] == Atoms(AfterToken(p)) && Emit(Atoms(p)[0]) == Token(p)
    ensures EmitAll(Atoms(p)) == Token(p) + EmitAll(Atoms(AfterToken(p)))
  {
  }

  predicate Literal(a: seq<Atom>) {
    forall i :: 0 <= i < |a| && a[i].Lit? ==> a[i].c != '*' && a[i].c != '?'
  }

  /** What is emitted parses back: nothing emitted reads as anything else. */
  lemma {:induction false} ParseEmitted(a: seq<Atom>)
    requires Literal(a)
    ensures ParseItems(EmitAll(a)) == Some(ItemsOf(a))
  {
    if a != [] {
      ParseEmitted(a[1..]);
      NoLeadingStar(a[1..]);
      ParseEmittedItem(a[0], EmitAll(a[1..]));
    }
  }

  lemma ParseEmittedItem(a: Atom, tail: string)
    requires a.Lit? ==> a.c != '*' && a.c != '?'
    requires tail != "" ==> tail[0] != '*'
    requires ParseItems(tail).Some?
    ensures ParseItems(Emit(a) + tail) == Some([ItemOf(a)] + ParseItems(tail).value)
  {
    hide Emit;
    EmittedIs(a);
    var s := Emit(a) + tail;
    var n := |Emit(a)|;
    assert s[n..] == tail;
    if a.AnyText? {
      assert s[0] == '.' && s[1] == '*';
    } else if a.Lit? {
      assert s[0] == Emit(a)[0];
    } else {
      assert s[0] == '[' && s[1] == '^' && s[2] == '/' && s[3] == ']';
    }
  }

  lemma EmittedIs(a: Atom)
    ensures var e := Emit(a);
            && (a.AnyText? ==> |e| == 2 && e[0] == '.' && e[1] == '*')
            && (a.AnySegment? ==> |e| == 5 && e[4] == '*')
            && (a.AnyChar? ==> |e| == 4)
            && (a.AnySegment? || a.AnyChar? ==>
                  e[0] == '[' && e[1] == '^' && e[2] == '/' && e[3] == ']')
            && (a.Lit? && IsMeta(a.c) ==> |e| == 2 && e[0] == '\\' && e[1] == a.c)
            && (a.Lit? && !IsMeta(a.c) ==> |e| == 1 && e[0] == a.c)
  {
  }

  lemma NoLeadingStar(a: seq<Atom>)
    requires Literal(a)
    ensures EmitAll(a) != "" ==> EmitAll(a)[0] != '*'
  {
  }

  // ---------------------------------------------------- the expression means the glob

  predicate Throughout(k: Class, s: string) {
    forall c :: c in s ==> Admits(k, c)
  }

  /** A starred item takes a prefix its class admits throughout. */
  lemma {:induction false} StarTakes(items: seq<Item>, s: string) returns (k: nat)
    requires items != [] && items[0].starred && Accepts(items, s)
    ensures k <= |s| && Throughout(items[0].class_, s[..k]) && Accepts(items[1..], s[k..])
    decreases |s|
  {
    if Accepts(items[1..], s) {
      assert s[0..] == s;
      k := 0;
    } else {
      k := StarTakes(items, s[1..]);
      assert s[..k + 1] == [s[0]] + s[1..][..k] && s[k + 1..] == s[1..][k..];
      k := k + 1;
    }
  }

  /** And any such prefix will do. */
  lemma {:induction false} StarMayTake(items: seq<Item>, s: string, k: nat)
    requires items != [] && items[0].starred
    requires k <= |s| && Throughout(items[0].class_, s[..k]) && Accepts(items[1..], s[k..])
    ensures Accepts(items, s)
  {
    if k == 0 {
      assert s[0..] == s;
    } else {
      assert s[..k][0] == s[0] && s[1..][k - 1..] == s[k..];
      assert s[..k] == [s[0]] + s[1..][..k - 1];
      StarMayTake(items, s[1..], k - 1);
    }
  }

  /** Compilation preserves meaning, for every pattern and every one-line path. */
  lemma {:induction false} CompilationIsFaithful(p: string, path: string)
    requires OneLine(path)
    ensures Accepts(ItemsOf(Atoms(p)), path) <==> Matches(p, path)
    decreases |p|
  {
    if p != "" {
      AtomsStep(p);
      var items := ItemsOf(Atoms(p));
      var rest := AfterToken(p);
      assert items[1..] == ItemsOf(Atoms(rest));
      forall k | 0 <= k <= |path| ensures Accepts(items[1..], path[k..]) <==> Matches(rest, path[k..]) {
        CompilationIsFaithful(rest, path[k..]);
      }
      if p[0] == '*' {
        StarIsFaithful(items, p, path);
      }
    }
  }

  lemma {:induction false} StarIsFaithful(items: seq<Item>, p: string, path: string)
    requires OneLine(path) && p != "" && p[0] == '*' && items != []
    requires items[0] == Item(if DoubleStar(p) then Dot else Not('/'), true)
    requires forall k :: 0 <= k <= |path| ==>
               (Accepts(items[1..], path[k..]) <==> Matches(AfterToken(p), path[k..]))
    ensures Accepts(items, path) <==> Matches(p, path)
  {
    forall k | 0 <= k <= |path|
      ensures Throughout(items[0].class_, path[..k]) <==> (DoubleStar(p) || NoSlash(path[..k]))
    {
      assert forall c :: c in path[..k] ==> c in path;
    }
    if Accepts(items, path) {
      var k := StarTakes(items, path);
      assert Matches(AfterToken(p), path[k..]);
    }
    if Matches(p, path) {
      var k :| 0 <= k <= |path| && (DoubleStar(p) || NoSlash(path[..k]))
               && Matches(AfterToken(p), path[k..]);
      StarMayTake(items, path, k);
    }
  }

  // ------------------------------------------------------- what a pattern reaches

  function Slashes(s: string): nat {
    if s == "" then 0 else (if s[0] == '/' then 1 else 0) + Slashes(s[1..])
  }

  predicate NoDoubleStar(p: string) {
    forall i :: 0 <= i < |p| - 1 ==> !(p[i] == '*' && p[i + 1] == '*')
  }

  lemma {:induction false} SlashesFrom(s: string, k: nat)
    requires k <= |s| && NoSlash(s[..k])
    ensures Slashes(s[k..]) == Slashes(s)
  {
    if k == 0 {
      assert s[0..] == s;
    } else {
      assert s[0] == s[..k][0] && s[1..][k - 1..] == s[k..];
      assert forall c :: c in s[1..][..k - 1] ==> c in s[..k];
      SlashesFrom(s[1..], k - 1);
    }
  }

  /** Without a double star a pattern matches at its own depth only. */
  lemma {:induction false} MatchesAtItsDepth(p: string, path: string)
    requires NoDoubleStar(p) && Matches(p, path)
    ensures Slashes(path) == Slashes(p)
    decreases |p|
  {
    if p != "" {
      assert !DoubleStar(p);
      var rest := p[1..];
      forall i | 0 <= i < |rest| - 1 ensures !(rest[i] == '*' && rest[i + 1] == '*') {
        assert rest[i] == p[i + 1] && rest[i + 1] == p[i + 2];
      }
      if p[0] == '*' {
        var k :| 0 <= k <= |path| && NoSlash(path[..k]) && Matches(p[1..], path[k..]);
        MatchesAtItsDepth(p[1..], path[k..]);
        SlashesFrom(path, k);
      } else {
        MatchesAtItsDepth(p[1..], path[1..]);
      }
    }
  }

  /** A leading double star reaches the rest of the pattern at any depth, none included. */
  lemma MatchesAtAnyDepth(p: string, above: string, path: string)
    requires Matches(p, path)
    ensures Matches("**/" + p, path) && Matches("**/" + p, above + "/" + path)
  {
    var deep := "**/" + p;
    assert AfterDoubleStar(deep) == p;
    assert path[0..] == path;
    assert (above + "/" + path)[|above| + 1..] == path;
  }

  // ----------------------------------------------------------- the listing's prefilter

  /** The directories above a path: what stands before each of its slashes. */
  predicate Ancestor(a: string, path: string) {
    |a| < |path| && a == path[..|a|] && path[|a|] == '/'
  }

  /** Appending what the listing asks for beneath a match. */
  lemma {:induction false} MatchesBeneath(p: string, a: string, path: string)
    requires Matches(p, a) && Ancestor(a, path)
    ensures Matches(p + "/**", path)
    decreases |p|
  {
    var below := p + "/**";
    if p == "" {
      AnythingMatches(path[1..]);
      assert below[1..] == "**";
    } else if DoubleStar(p) {
      var k :| 0 <= k <= |a| && Matches(AfterDoubleStar(p), a[k..]);
      assert Ancestor(a[k..], path[k..]);
      if p == "**" {
        assert AfterDoubleStar(below) == "**";
        AnythingMatches(path[0..]);
      } else {
        assert AfterDoubleStar(below) == AfterDoubleStar(p) + "/**";
        MatchesBeneath(AfterDoubleStar(p), a[k..], path[k..]);
      }
    } else if p[0] == '*' {
      var k :| 0 <= k <= |a| && NoSlash(a[..k]) && Matches(p[1..], a[k..]);
      assert Ancestor(a[k..], path[k..]) && path[..k] == a[..k];
      assert below[1..] == p[1..] + "/**" && !DoubleStar(below);
      MatchesBeneath(p[1..], a[k..], path[k..]);
    } else {
      assert Ancestor(a[1..], path[1..]) && path[0] == a[0];
      assert below[1..] == p[1..] + "/**" && !DoubleStar(below);
      MatchesBeneath(p[1..], a[1..], path[1..]);
    }
  }

  lemma AnythingMatches(path: string)
    ensures Matches("**", path)
  {
    assert AfterDoubleStar("**") == "" && path[|path|..] == "";
    assert Matches("", path[|path|..]);
  }

  function Strip(s: string): string {
    RStrip(LStrip(s))
  }

  function LStrip(s: string): string {
    if s != "" && s[0] == '/' then LStrip(s[1..]) else s
  }

  function RStrip(s: string): string {
    if s != "" && s[|s| - 1] == '/' then RStrip(s[..|s| - 1]) else s
  }

  /** The pattern of a recursive listing, below the directory it is asked for. */
  function FullPattern(directory: string, pattern: string): string {
    (if Strip(directory) != "" then Strip(directory) + "/" else "") + RStrip(pattern)
  }

  /** The characters that mean something to a regular expression. */
  const SPECIAL := ".^$*+?{}[]\\|()"

  /** Every special character is escaped, but for the two the compiler translates. */
  lemma SpecialIsEscaped(c: char)
    ensures IsMeta(c) <==> c in SPECIAL && c != '*' && c != '?'
  {
    assert c in SPECIAL <==> exists i :: 0 <= i < |SPECIAL| && SPECIAL[i] == c;
  }

  predicate OnlySlashes(s: string) {
    forall c :: c in s ==> c == '/'
  }

  lemma {:induction false} LStripIs(s: string) returns (k: nat)
    ensures k <= |s| && LStrip(s) == s[k..] && OnlySlashes(s[..k])
    ensures LStrip(s) == "" || LStrip(s)[0] != '/'
  {
    if s != "" && s[0] == '/' {
      var j := LStripIs(s[1..]);
      k := j + 1;
      assert s[..k] == [s[0]] + s[1..][..j];
    } else {
      k := 0;
    }
  }

  lemma {:induction false} RStripIs(s: string) returns (k: nat)
    ensures k <= |s| && RStrip(s) == s[..k] && OnlySlashes(s[k..])
    ensures RStrip(s) == "" || RStrip(s)[|RStrip(s)| - 1] != '/'
  {
    if s != "" && s[|s| - 1] == '/' {
      k := RStripIs(s[..|s| - 1]);
      assert s[k..] == s[..|s| - 1][k..] + [s[|s| - 1]];
    } else {
      k := |s|;
    }
  }

  /** Stripping takes the slashes off both ends and nothing else. */
  lemma {:induction false} StripIs(s: string) returns (i: nat, j: nat)
    ensures i <= j <= |s| && Strip(s) == s[i..j] && OnlySlashes(s[..i]) && OnlySlashes(s[j..])
    ensures Strip(s) != "" ==> Strip(s)[0] != '/' && Strip(s)[|Strip(s)| - 1] != '/'
  {
    i := LStripIs(s);
    var k := RStripIs(s[i..]);
    j := i + k;
    assert s[i..][..k] == s[i..j] && s[i..][k..] == s[j..];
  }

  /** Text without wildcards matches itself. */
  lemma {:induction false} PlainPrefix(q: string, p: string, path: string)
    requires '*' !in q && '?' !in q
    ensures Matches(q + p, path) <==> q <= path && Matches(p, path[|q|..])
    decreases |q|
  {
    if q == "" {
      assert q + p == p && path[0..] == path;
    } else {
      assert q[0] in q && (q + p)[1..] == q[1..] + p && (q + p)[0] == q[0];
      if path != "" {
        PlainPrefix(q[1..], p, path[1..]);
        assert q <= path <==> q[0] == path[0] && q[1..] <= path[1..];
        assert q <= path ==> path[1..][|q| - 1..] == path[|q|..];
      }
    }
  }

  /** A listing asked for a plain directory holds what matches the pattern below it. */
  lemma {:induction false} ListsBelow(directory: string, pattern: string, path: string)
    requires '*' !in directory && '?' !in directory
    ensures var d := Strip(directory);
            Matches(FullPattern(directory, pattern), path)
            <==> if d == "" then Matches(RStrip(pattern), path)
                 else d + "/" <= path && Matches(RStrip(pattern), path[|d| + 1..])
  {
    var d := Strip(directory);
    var i, j := StripIs(directory);
    assert forall c :: c in d ==> c in directory;
    if d != "" { PlainPrefix(d + "/", RStrip(pattern), path); }
    assert "" + RStrip(pattern) == RStrip(pattern);
  }

  /** The paths that satisfy a query, in the catalogue's order. */
  function Select(paths: seq<string>, f: string -> bool): seq<string> {
    if paths == [] then []
    else
      var n := |paths| - 1;
      Select(paths[..n], f) + (if f(paths[n]) then [paths[n]] else [])
  }

  ghost function MatchingFiles(paths: seq<string>, p: string): seq<string> {
    if paths == [] then []
    else
      var n := |paths| - 1;
      MatchingFiles(paths[..n], p) + (if Matches(p, paths[n]) then [paths[n]] else [])
  }

  /** The matching directories above a path, among its first `n` characters. */
  ghost function DirsAbove(path: string, p: string, n: nat): set<string>
    requires n <= |path|
  {
    if n == 0 then {}
    else
      DirsAbove(path, p, n - 1)
      + (if path[n - 1] == '/' && Matches(p, path[..n - 1]) then {path[..n - 1] + "/"} else {})
  }

  ghost function MatchingDirs(paths: seq<string>, p: string): set<string> {
    if paths == [] then {}
    else
      var n := |paths| - 1;
      MatchingDirs(paths[..n], p) + DirsAbove(paths[n], p, |paths[n]|)
  }

  lemma {:induction false} DirsAboveAre(path: string, p: string, n: nat)
    requires n <= |path|
    ensures forall d :: d in DirsAbove(path, p, n)
              <==> exists a :: |a| < n && Ancestor(a, path) && Matches(p, a) && d == a + "/"
  {
    hide Matches;
    if n > 0 {
      DirsAboveAre(path, p, n - 1);
      var last := path[..n - 1];
      forall d ensures d in DirsAbove(path, p, n)
                 <==> exists a :: |a| < n && Ancestor(a, path) && Matches(p, a) && d == a + "/"
      {
        if a :| |a| < n && Ancestor(a, path) && Matches(p, a) && d == a + "/" {
          assert |a| < n - 1 || a == last;
        }
        if path[n - 1] == '/' && Matches(p, last) && d == last + "/" {
          assert Ancestor(last, path);
        }
      }
    }
  }

  /** A file is listed as often as it is catalogued, if it matches. */
  lemma {:induction false} MatchingFilesAre(paths: seq<string>, p: string, f: string)
    ensures multiset(MatchingFiles(paths, p))[f] == if Matches(p, f) then multiset(paths)[f] else 0
  {
    hide Matches;
    if paths != [] {
      var n := |paths| - 1;
      MatchingFilesAre(paths[..n], p, f);
      assert paths == paths[..n] + [paths[n]];
    }
  }

  /** A directory is listed when it lies above a path of the catalogue and matches. */
  lemma {:induction false} MatchingDirsAre(paths: seq<string>, p: string, d: string)
    ensures d in MatchingDirs(paths, p)
            <==> exists path, a :: path in paths && Ancestor(a, path) && Matches(p, a) && d == a + "/"
  {
    if paths != [] {
      var n := |paths| - 1;
      MatchingDirsAre(paths[..n], p, d);
      DirsAboveAre(paths[n], p, |paths[n]|);
      assert forall path :: path in paths <==> path in paths[..n] || path == paths[n];
    }
  }

  /**
   The prefilter loses nothing: what it drops matches neither itself nor through a
   directory above it.
   */
  lemma {:induction false} PrefilterLosesNothing(paths: seq<string>, p: string, f: string -> bool)
    requires forall path :: path in paths ==> (f(path) <==> Matches(p, path) || Matches(p + "/**", path))
    ensures MatchingFiles(Select(paths, f), p) == MatchingFiles(paths, p)
    ensures MatchingDirs(Select(paths, f), p) == MatchingDirs(paths, p)
  {
    hide Matches, DirsAbove, MatchingFiles, MatchingDirs;
    if paths == [] {
    } else {
      var n := |paths| - 1;
      var path := paths[n];
      PrefilterLosesNothing(paths[..n], p, f);
      assert paths == paths[..n] + [path];
      OneMorePath(paths[..n], path, p);
      if f(path) {
        OneMorePath(Select(paths[..n], f), path, p);
      } else {
        NothingBeneath(path, p);
        assert Select(paths, f) == Select(paths[..n], f);
      }
    }
  }

  lemma NoPaths(p: string)
    ensures MatchingFiles([], p) == [] && MatchingDirs([], p) == {}
  {
  }

  lemma OneMorePath(paths: seq<string>, path: string, p: string)
    ensures MatchingFiles(paths + [path], p)
            == MatchingFiles(paths, p) + (if Matches(p, path) then [path] else [])
    ensures MatchingDirs(paths + [path], p) == MatchingDirs(paths, p) + DirsAbove(path, p, |path|)
  {
    assert (paths + [path])[..|paths|] == paths;
  }

  lemma NothingBeneath(path: string, p: string)
    requires !Matches(p + "/**", path)
    ensures DirsAbove(path, p, |path|) == {}
  {
    hide Matches, DirsAbove;
    DirsAboveAre(path, p, |path|);
    forall a | Ancestor(a, path) ensures !Matches(p, a) {
      if Matches(p, a) { MatchesBeneath(p, a, path); }
    }
  }

  // ------------------------------------------------------------ order and pages

  function SortTexts(s: seq<string>): (r: seq<string>)
    ensures multiset(r) == multiset(s)
  {
    if s == [] then []
    else
      assert s == s[..|s| - 1] + [s[|s| - 1]];
      Insert(s[|s| - 1], SortTexts(s[..|s| - 1]))
  }

  lemma {:induction false} SortTextsInOrder(s: seq<string>)
    ensures InOrder(SortTexts(s))
  {
    if s != [] {
      SortTextsInOrder(s[..|s| - 1]);
      InsertKeepsOrder(s[|s| - 1], SortTexts(s[..|s| - 1]));
    }
  }

  /** A set of texts as a list in order, each once. */
  ghost predicate Lists(s: seq<string>, texts: set<string>) {
    InOrder(s) && multiset(s) == multiset(texts)
  }

  method SortSet(texts: set<string>) returns (s: seq<string>)
    ensures Lists(s, texts)
  {
    s := [];
    var rest := texts;
    while rest != {}
      invariant rest <= texts && InOrder(s) && multiset(s) == multiset(texts - rest)
      decreases |rest|
    {
      var x :| x in rest;
      InsertKeepsOrder(x, s);
      s := Insert(x, s);
      rest := rest - {x};
      assert texts - rest == (texts - rest - {x}) + {x};
    }
  }

  /** The entries a page shows, from an offset on. */
  function Page(entries: seq<string>, offset: int, size: nat): seq<string> {
    var from := if offset < 0 then 0 else if offset > |entries| then |entries| else offset;
    entries[from..if from + size > |entries| then |entries| else from + size]
  }

  /** What a reader sees who asks for page after page until one is empty. */
  function ReadOn(entries: seq<string>, offset: nat, size: nat): seq<string>
    requires size >= 1
    decreases |entries| - offset
  {
    var page := Page(entries, offset, size);
    if page == [] then [] else page + ReadOn(entries, offset + size, size)
  }

  /** A page is a run of at most `size` entries from the offset, negative ones counting as 0. */
  lemma PageFrom(entries: seq<string>, offset: int, size: nat, i: nat)
    ensures offset < 0 ==> Page(entries, offset, size) == Page(entries, 0, size)
    ensures 0 <= offset ==>
              && (i < |Page(entries, offset, size)| <==> i < size && offset + i < |entries|)
              && (i < |Page(entries, offset, size)| ==> Page(entries, offset, size)[i] == entries[offset + i])
  {
  }

  lemma PageIs(entries: seq<string>, offset: nat, size: nat)
    requires size >= 1
    ensures offset >= |entries| ==> Page(entries, offset, size) == []
    ensures offset < |entries| ==>
              Page(entries, offset, size) != []
              && Page(entries, offset, size)
                 + (if offset + size <= |entries| then entries[offset + size..] else [])
                 == entries[offset..]
  {
  }

  /** The pages show every entry once, in order. */
  lemma {:induction false} PagesShowAll(entries: seq<string>, offset: nat, size: nat)
    requires size >= 1
    ensures ReadOn(entries, offset, size) == if offset <= |entries| then entries[offset..] else []
    decreases |entries| - offset
  {
    hide Page;
    PageIs(entries, offset, size);
    if offset < |entries| {
      PagesShowAll(entries, offset + size, size);
    }
  }

  /** Two answers to one request list the same, whatever order the database keeps. */
  lemma {:induction false} ListingIsUnique(
      dirs: seq<string>, dirs': seq<string>, files: seq<string>, files': seq<string>, all: set<string>)
    requires Lists(dirs, all) && Lists(dirs', all)
    requires InOrder(files) && InOrder(files') && multiset(files) == multiset(files')
    ensures dirs + files == dirs' + files'
  {
    OrderIsUnique(dirs, dirs');
    OrderIsUnique(files, files');
  }

  /**
   The recursive listing. It asks the database for the paths that match the pattern
   or lie beneath a match, and shows a page of what matching the whole catalogue
   would: the directories in order, then the files in order.
   */
  method RecursiveListing(
      catalogue: seq<string>, directory: string, pattern: string, offset: int, size: nat)
    returns (page: seq<string>, total: nat, dirs: seq<string>, files: seq<string>)
    requires forall path :: path in catalogue ==> OneLine(path)
    ensures Lists(dirs, MatchingDirs(catalogue, FullPattern(directory, pattern))) && InOrder(files)
    ensures multiset(files)
            == (if pattern != "" && pattern[|pattern| - 1] == '/' then multiset{}
                else multiset(MatchingFiles(catalogue, FullPattern(directory, pattern))))
    ensures total == |dirs + files| && page == Page(dirs + files, offset, size)
  {
    hide Matches, Accepts, Parse, FullPattern, Select, DirsAbove, MatchingFiles, MatchingDirs,
         SortTexts, InOrder;
    var dirsOnly := pattern != "" && pattern[|pattern| - 1] == '/';
    var full := FullPattern(directory, pattern);
    var fileRegex := GlobToRegex(full);
    var dirRegex := GlobToRegex(full + "/**");
    var fileItems, dirItems := Parse(fileRegex).value, Parse(dirRegex).value;
    var combined := (path: string) => Accepts(fileItems, path) || Accepts(dirItems, path);
    var docs := Select(catalogue, combined);
    PrefilterLosesNothing(catalogue, full, combined);
    SelectFrom(catalogue, combined);
    NoPaths(full);
    var matchedDirs, matchedFiles := {}, [];
    for k := 0 to |docs|
      invariant matchedDirs == MatchingDirs(docs[..k], full)
      invariant matchedFiles == if dirsOnly then [] else MatchingFiles(docs[..k], full)
    {
      var path := docs[k];
      assert path in docs && docs[..k + 1] == docs[..k] + [path];
      OneMorePath(docs[..k], path, full);
      if !dirsOnly && Accepts(fileItems, path) {
        matchedFiles := matchedFiles + [path];
      }
      var above := Above(path, full, fileItems);
      matchedDirs := matchedDirs + above;
    }
    assert docs[..|docs|] == docs;
    var sortedDirs := SortSet(matchedDirs);
    var sortedFiles := SortTexts(matchedFiles);
    SortTextsInOrder(matchedFiles);
    var entries := sortedDirs + sortedFiles;
    page, total, dirs, files := Page(entries, offset, size), |entries|, sortedDirs, sortedFiles;
  }

  /** The directories above one path that the compiled pattern accepts. */
  method Above(path: string, ghost full: string, items: seq<Item>) returns (dirs: set<string>)
    requires forall a :: OneLine(a) ==> (Accepts(items, a) <==> Matches(full, a))
    requires OneLine(path)
    ensures dirs == DirsAbove(path, full, |path|)
  {
    hide Matches, Accepts;
    dirs := {};
    for k := 0 to |path|
      invariant dirs == DirsAbove(path, full, k)
    {
      assert forall c :: c in path[..k] ==> c in path;
      if path[k] == '/' && Accepts(items, path[..k]) {
        dirs := dirs + {path[..k] + "/"};
      }
    }
  }

  lemma {:induction false} SelectFrom(paths: seq<string>, f: string -> bool)
    ensures forall path :: path in Select(paths, f) ==> path in paths
  {
    if paths != [] { SelectFrom(paths[..|paths| - 1], f); }
  }
}
