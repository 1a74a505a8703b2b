/**
 The file tree of the graph explorer: common directories stripped, a trie of path
 segments built, chains of single folders collapsed.
 */
module FileTree {
  import opened Text

  // -------------------------------------------------------------------- the trie

  /** A map under construction, in insertion order; a value is a nested map or a file. */
  datatype Entry = Dir(entries: seq<Item>) | File(file: nat)
  datatype Item = Item(name: string, value: Entry)

  /** Where a map holds `name`, or its size. */
  function Position(items: seq<Item>, name: string): (k: nat)
    ensures k <= |items| && (k < |items| ==> items[k].name == name)
    ensures forall j :: 0 <= j < k ==> items[j].name != name
  {
    if items == [] then 0
    else
      var k := Position(items[..|items| - 1], name);
      if k < |items| - 1 then k
      else if items[|items| - 1].name == name then |items| - 1
      else |items|
  }

  /** Nothing stored stands in the way of the path: no file on it, nothing at its end. */
  predicate Free(items: seq<Item>, parts: seq<string>)
    decreases |parts|
  {
    parts != [] ==>
      var k := Position(items, parts[0]);
      k < |items| ==>
        |parts| > 1 && items[k].value.Dir? && Free(items[k].value.entries, parts[1..])
  }

  /** The maps after walking down `parts`, creating what is missing, and setting the file. */
  function Insert(items: seq<Item>, parts: seq<string>, file: nat): seq<Item>
    requires parts != [] && Free(items, parts)
    decreases |parts|
  {
    var k := Position(items, parts[0]);
    if |parts| == 1 then items + [Item(parts[0], File(file))]
    else if k == |items| then items + [Item(parts[0], Dir(Insert([], parts[1..], file)))]
    else items[k := Item(parts[0], Dir(Insert(items[k].value.entries, parts[1..], file)))]
  }

  /** The files below some entries, each with the path that leads to it. */
  function Stored(items: seq<Item>, prefix: string): multiset<(string, nat)>
    decreases items
  {
    if items == [] then multiset{}
    else Stored(items[..|items| - 1], prefix) + StoredIn(items[|items| - 1], prefix)
  }

  function StoredIn(item: Item, prefix: string): multiset<(string, nat)>
    decreases item
  {
    match item.value
    case File(f) => multiset{(prefix + item.name, f)}
    case Dir(entries) => Stored(entries, prefix + item.name + "/")
  }

  lemma StoredMore(items: seq<Item>, item: Item, prefix: string)
    ensures Stored(items + [item], prefix) == Stored(items, prefix) + StoredIn(item, prefix)
  {
    assert (items + [item])[..|items|] == items;
  }

  lemma {:induction false} StoredUpdate(items: seq<Item>, k: nat, item: Item, prefix: string)
    requires k < |items|
    ensures Stored(items[k := item], prefix) + StoredIn(items[k], prefix)
            == Stored(items, prefix) + StoredIn(item, prefix)
    decreases |items|
  {
    hide StoredIn;
    var n := |items| - 1;
    if k == n {
      assert items[k := item][..n] == items[..n];
    } else {
      StoredUpdate(items[..n], k, item, prefix);
      assert items[k := item][..n] == items[..n][k := item];
      Swap(Stored(items[..n][k := item], prefix), StoredIn(items[k], prefix),
           Stored(items[..n], prefix), StoredIn(item, prefix), StoredIn(items[n], prefix));
    }
  }

  lemma Swap<T>(a: multiset<T>, b: multiset<T>, c: multiset<T>, d: multiset<T>, e: multiset<T>)
    requires a + b == c + d
    ensures (a + e) + b == (c + e) + d
  {
    assert (a + e) + b == (a + b) + e;
    assert (c + e) + d == (c + d) + e;
  }

  lemma Cancel<T>(a: multiset<T>, b: multiset<T>, c: multiset<T>, x: multiset<T>)
    requires a + b == c + (b + x)
    ensures a == c + x
  {
    assert c + (b + x) == (c + x) + b;
    assert a == (a + b) - b;
    assert c + x == ((c + x) + b) - b;
  }

  /** Inserting a file adds it under its own path and moves nothing else. */
  lemma {:induction false} InsertStores(items: seq<Item>, parts: seq<string>, file: nat, prefix: string)
    requires parts != [] && Free(items, parts)
    ensures Stored(Insert(items, parts, file), prefix)
            == Stored(items, prefix) + multiset{(prefix + Join(parts, '/'), file)}
    decreases |parts|
  {
    hide Stored;
    var k := Position(items, parts[0]);
    if |parts| == 1 {
      StoredMore(items, Item(parts[0], File(file)), prefix);
    } else {
      var below := if k < |items| then items[k].value.entries else [];
      var deeper := prefix + parts[0] + "/";
      InsertStores(below, parts[1..], file, deeper);
      assert deeper + Join(parts[1..], '/') == prefix + Join(parts, '/');
      var item := Item(parts[0], Dir(Insert(below, parts[1..], file)));
      if k < |items| {
        StoredUpdate(items, k, item, prefix);
        assert prefix + items[k].name + "/" == deeper;
        Cancel(Stored(Insert(items, parts, file), prefix), Stored(below, deeper),
               Stored(items, prefix), multiset{(prefix + Join(parts, '/'), file)});
      } else {
        NothingStored(deeper);
        StoredMore(items, item, prefix);
      }
    }
  }

  lemma NothingStored(prefix: string)
    ensures Stored([], prefix) == multiset{}
  {
  }

  /** An insertion touches the entry of its first segment, or appends one. */
  lemma InsertShape(items: seq<Item>, parts: seq<string>, file: nat)
    requires parts != [] && Free(items, parts)
    ensures var k := Position(items, parts[0]);
            var items' := Insert(items, parts, file);
            && k < |items'| == (if k < |items| then |items| else |items| + 1)
            && items'[k].name == parts[0]
            && (forall i :: 0 <= i < |items| && i != k ==> items'[i] == items[i])
            && (|parts| > 1 ==>
                  items'[k].value
                  == Dir(Insert(if k < |items| then items[k].value.entries else [], parts[1..], file)))
  {
  }

  /** Neither path leads through the other. */
  predicate Apart(a: seq<string>, b: seq<string>) {
    !(a <= b) && !(b <= a)
  }

  /** Inserting one path leaves room for any path apart from it. */
  lemma {:induction false} StaysFree(items: seq<Item>, parts: seq<string>, file: nat, other: seq<string>)
    requires parts != [] && other != [] && Free(items, parts) && Free(items, other)
    requires Apart(parts, other)
    ensures Free(Insert(items, parts, file), other)
    decreases |parts|
  {
    var k := Position(items, parts[0]);
    var items' := Insert(items, parts, file);
    hide Insert;
    InsertShape(items, parts, file);
    if parts[0] == other[0] {
      var below := if k < |items| then items[k].value.entries else [];
      assert |parts| > 1 && |other| > 1;
      assert Apart(parts[1..], other[1..]);
      StaysFree(below, parts[1..], file, other[1..]);
      assert Position(items', other[0]) == k;
    } else {
      var j := Position(items, other[0]);
      assert forall i :: 0 <= i < |items| ==> items'[i].name == items[i].name;
      assert Position(items', other[0]) == (if j < |items| then j else |items'|);
    }
  }

  // ------------------------------------------------------------ the common prefix

  predicate Agree(parsed: seq<seq<string>>, i: nat) {
    forall f :: 0 <= f < |parsed| ==>
      i < |parsed[f]| && i < |parsed[0]| && parsed[f][i] == parsed[0][i]
  }

  /** The segments all paths start with, file names apart. */
  method CommonLength(parsed: seq<seq<string>>) returns (common: nat)
    requires parsed != [] && forall f :: 0 <= f < |parsed| ==> parsed[f] != []
    ensures forall f :: 0 <= f < |parsed| ==> common < |parsed[f]|
    ensures forall i :: 0 <= i < common ==> Agree(parsed, i)
    ensures |parsed| == 1 ==> common == 0
    ensures |parsed| > 1 ==>
              !Agree(parsed, common) || exists f :: 0 <= f < |parsed| && |parsed[f]| == common + 1
  {
    common := 0;
    if |parsed| > 1 {
      var shortest := ShortestLength(parsed);
      var maxLen := shortest - 1;
      var i := 0;
      while i < maxLen
        invariant 0 <= i <= maxLen && common == i
        invariant forall j :: 0 <= j < i ==> Agree(parsed, j)
      {
        if !AllAgree(parsed, i) {
          break;
        }
        common := i + 1;
        i := i + 1;
      }
    }
  }

  predicate AllAgree(parsed: seq<seq<string>>, i: nat)
    requires parsed != [] && forall f :: 0 <= f < |parsed| ==> i < |parsed[f]|
  {
    forall f :: 0 <= f < |parsed| ==> parsed[f][i] == parsed[0][i]
  }

  method ShortestLength(parsed: seq<seq<string>>) returns (n: nat)
    requires parsed != []
    ensures forall f :: 0 <= f < |parsed| ==> n <= |parsed[f]|
    ensures exists f :: 0 <= f < |parsed| && |parsed[f]| == n
  {
    n := |parsed[0]|;
    for k := 1 to |parsed|
      invariant forall f :: 0 <= f < k ==> n <= |parsed[f]|
      invariant exists f :: 0 <= f < k && |parsed[f]| == n
    {
      if |parsed[k]| < n { n := |parsed[k]|; }
    }
  }

  /** The text a path's first `n` segments take, with their slashes. */
  function Lead(parts: seq<string>, n: nat): string
    requires n < |parts|
  {
    if n == 0 then "" else parts[0] + "/" + Lead(parts[1..], n - 1)
  }

  lemma {:induction false} LeadAndRest(parts: seq<string>, n: nat)
    requires n < |parts|
    ensures Lead(parts, n) + Join(parts[n..], '/') == Join(parts, '/')
  {
    if n > 0 {
      LeadAndRest(parts[1..], n - 1);
      assert parts[1..][n - 1..] == parts[n..];
    }
  }

  lemma {:induction false} SameLead(a: seq<string>, b: seq<string>, n: nat)
    requires n < |a| && n < |b| && forall i :: 0 <= i < n ==> a[i] == b[i]
    ensures Lead(a, n) == Lead(b, n)
  {
    if n > 0 {
      assert forall i :: 0 <= i < n - 1 ==> a[1..][i] == a[i + 1] && b[1..][i] == b[i + 1];
      SameLead(a[1..], b[1..], n - 1);
    }
  }

  // --------------------------------------------------------------- the final nodes

  datatype Node =
    | FolderNode(id: nat, name: string, children: seq<Node>)
    | FileNode(id: nat, name: string, file: nat)

  /** The leaves below some nodes, each with the names on the way down to it. */
  function Leaves(nodes: seq<Node>, prefix: string): multiset<(string, nat)>
    decreases nodes
  {
    if nodes == [] then multiset{}
    else Leaves(nodes[..|nodes| - 1], prefix) + LeavesOf(nodes[|nodes| - 1], prefix)
  }

  function LeavesOf(node: Node, prefix: string): multiset<(string, nat)>
    decreases node
  {
    match node
    case FileNode(_, name, f) => multiset{(prefix + name, f)}
    case FolderNode(_, name, children) => Leaves(children, prefix + name + "/")
  }

  function Ids(nodes: seq<Node>): multiset<nat>
    decreases nodes
  {
    if nodes == [] then multiset{} else Ids(nodes[..|nodes| - 1]) + IdsOf(nodes[|nodes| - 1])
  }

  function IdsOf(node: Node): multiset<nat>
    decreases node
  {
    match node
    case FileNode(id, _, _) => multiset{id}
    case FolderNode(id, _, children) => multiset{id} + Ids(children)
  }

  /** The numbers from `low` up to `high`. */
  function Range(low: nat, high: nat): multiset<nat> {
    if high <= low then multiset{} else Range(low, high - 1) + multiset{high - 1}
  }

  lemma {:induction false} RangeJoins(a: nat, b: nat, c: nat)
    requires a <= b <= c
    ensures Range(a, b) + Range(b, c) == Range(a, c)
  {
    hide Range;
    if b < c {
      RangeJoins(a, b, c - 1);
      RangeNext(a, c - 1);
      RangeNext(b, c - 1);
    } else {
      RangeEmpty(b);
    }
  }

  /** A folder is not there to hold one folder only, and none is empty. */
  predicate Branches(nodes: seq<Node>)
    decreases nodes
  {
    forall i :: 0 <= i < |nodes| ==> BranchesAt(nodes[i])
  }

  predicate BranchesAt(node: Node)
    decreases node
  {
    node.FolderNode? ==>
      && node.children != []
      && !(|node.children| == 1 && node.children[0].FolderNode?)
      && Branches(node.children)
  }

  // Sorting by name.

  type Order = (string, string) -> bool

  /** What the locale's comparison promises. */
  ghost predicate Total(le: Order) {
    && (forall a, b :: le(a, b) || le(b, a))
    && (forall a, b, c :: le(a, b) && le(b, c) ==> le(a, c))
  }

  ghost predicate Sorted(nodes: seq<Node>, le: Order) {
    forall i, j :: 0 <= i < j < |nodes| ==> le(nodes[i].name, nodes[j].name)
  }

  /** Folders before files, each kind by name, all the way down. */
  ghost predicate Arranged(nodes: seq<Node>, le: Order)
    decreases nodes
  {
    && (exists k :: 0 <= k <= |nodes| && SplitsAt(nodes, k)
                    && Sorted(nodes[..k], le) && Sorted(nodes[k..], le))
    && forall i :: 0 <= i < |nodes| ==> ArrangedAt(nodes[i], le)
  }

  predicate SplitsAt(nodes: seq<Node>, k: int) {
    forall i :: 0 <= i < |nodes| ==> (nodes[i].FolderNode? <==> i < k)
  }

  ghost predicate ArrangedAt(node: Node, le: Order)
    decreases node
  {
    node.FolderNode? ==> Arranged(node.children, le)
  }

  function InsertSorted(node: Node, nodes: seq<Node>, le: Order): (r: seq<Node>)
    ensures forall x :: x in r <==> x == node || x in nodes
    ensures |r| == |nodes| + 1
    ensures Total(le) && Sorted(nodes, le) ==> Sorted(r, le)
  {
    if nodes == [] then [node]
    else
      var n := |nodes| - 1;
      assert nodes == nodes[..n] + [nodes[n]];
      if le(nodes[n].name, node.name) then nodes + [node]
      else
        var r := InsertSorted(node, nodes[..n], le);
        assert forall i :: 0 <= i < |r| ==> r[i] in r;
        assert forall x :: x in nodes[..n] ==> x in nodes;
        r + [nodes[n]]
  }

  /** A stable sort by name. */
  function SortByName(nodes: seq<Node>, le: Order): (r: seq<Node>)
    ensures forall x :: x in r <==> x in nodes
    ensures |r| == |nodes|
    ensures Total(le) ==> Sorted(r, le)
  {
    if nodes == [] then []
    else
      var n := |nodes| - 1;
      assert nodes == nodes[..n] + [nodes[n]];
      InsertSorted(nodes[n], SortByName(nodes[..n], le), le)
  }

  lemma NodesMore(nodes: seq<Node>, node: Node, prefix: string)
    ensures Leaves(nodes + [node], prefix) == Leaves(nodes, prefix) + LeavesOf(node, prefix)
    ensures Ids(nodes + [node]) == Ids(nodes) + IdsOf(node)
  {
    assert (nodes + [node])[..|nodes|] == nodes;
  }

  lemma {:induction false} NodesConcat(a: seq<Node>, b: seq<Node>, prefix: string)
    ensures Leaves(a + b, prefix) == Leaves(a, prefix) + Leaves(b, prefix)
    ensures Ids(a + b) == Ids(a) + Ids(b)
    decreases |b|
  {
    hide LeavesOf, IdsOf, Leaves, Ids;
    if b == [] {
      assert a + b == a;
      NoNodes(prefix);
    } else {
      var n := |b| - 1;
      NodesConcat(a, b[..n], prefix);
      assert a + b == (a + b[..n]) + [b[n]] && b == b[..n] + [b[n]];
      NodesMore(a + b[..n], b[n], prefix);
      NodesMore(b[..n], b[n], prefix);
    }
  }

  lemma NoNodes(prefix: string)
    ensures Leaves([], prefix) == multiset{} && Ids([]) == multiset{}
  {
  }

  lemma {:induction false} InsertKeepsNodes(node: Node, nodes: seq<Node>, le: Order, prefix: string)
    ensures Leaves(InsertSorted(node, nodes, le), prefix) == Leaves(nodes, prefix) + LeavesOf(node, prefix)
    ensures Ids(InsertSorted(node, nodes, le)) == Ids(nodes) + IdsOf(node)
  {
    hide LeavesOf, IdsOf, Leaves, Ids;
    if nodes == [] {
      NodesMore([], node, prefix);
      assert [] + [node] == [node];
    } else {
      var n := |nodes| - 1;
      assert nodes == nodes[..n] + [nodes[n]];
      if le(nodes[n].name, node.name) {
        NodesMore(nodes, node, prefix);
      } else {
        InsertKeepsNodes(node, nodes[..n], le, prefix);
        NodesMore(InsertSorted(node, nodes[..n], le), nodes[n], prefix);
        NodesMore(nodes[..n], nodes[n], prefix);
      }
    }
  }

  lemma {:induction false} SortKeepsNodes(nodes: seq<Node>, le: Order, prefix: string)
    ensures Leaves(SortByName(nodes, le), prefix) == Leaves(nodes, prefix)
    ensures Ids(SortByName(nodes, le)) == Ids(nodes)
  {
    hide LeavesOf, IdsOf, Leaves, Ids;
    if nodes != [] {
      var n := |nodes| - 1;
      assert nodes == nodes[..n] + [nodes[n]];
      SortKeepsNodes(nodes[..n], le, prefix);
      InsertKeepsNodes(nodes[n], SortByName(nodes[..n], le), le, prefix);
      NodesMore(nodes[..n], nodes[n], prefix);
    }
  }

  // ---------------------------------------------------------- from trie to nodes

  function Size(items: seq<Item>): nat
    decreases items
  {
    if items == [] then 0 else Size(items[..|items| - 1]) + SizeOf(items[|items| - 1])
  }

  function SizeOf(item: Item): nat
    decreases item
  {
    if item.value.Dir? then 1 + Size(item.value.entries) else 1
  }

  lemma {:induction false} SizeAt(items: seq<Item>, k: nat)
    requires k < |items|
    ensures SizeOf(items[k]) <= Size(items)
    decreases |items|
  {
    if k < |items| - 1 { SizeAt(items[..|items| - 1], k); }
  }

  /** No nested map is empty. */
  predicate Filled(items: seq<Item>)
    decreases items
  {
    forall i :: 0 <= i < |items| ==> FilledAt(items[i])
  }

  predicate FilledAt(item: Item)
    decreases item
  {
    item.value.Dir? ==> item.value.entries != [] && Filled(item.value.entries)
  }

  lemma {:induction false} InsertFills(items: seq<Item>, parts: seq<string>, file: nat)
    requires parts != [] && Free(items, parts) && Filled(items)
    ensures Filled(Insert(items, parts, file)) && Insert(items, parts, file) != []
    decreases |parts|
  {
    if |parts| > 1 {
      var k := Position(items, parts[0]);
      if k < |items| {
        assert FilledAt(items[k]);
        InsertFills(items[k].value.entries, parts[1..], file);
      } else {
        InsertFills([], parts[1..], file);
      }
    }
  }

  // One entry for each name, all the way down.

  function ItemNames(items: seq<Item>): multiset<string> {
    if items == [] then multiset{} else ItemNames(items[..|items| - 1]) + multiset{items[|items| - 1].name}
  }

  ghost predicate AtMostOnce(names: multiset<string>) {
    forall n :: names[n] <= 1
  }

  /** A map holds each name once, and no name holds a slash. */
  ghost predicate Keyed(items: seq<Item>)
    decreases items
  {
    && AtMostOnce(ItemNames(items))
    && forall i :: 0 <= i < |items| ==> '/' !in items[i].name && KeyedAt(items[i])
  }

  ghost predicate KeyedAt(item: Item)
    decreases item
  {
    item.value.Dir? ==> Keyed(item.value.entries)
  }

  lemma NamesMore(items: seq<Item>, item: Item)
    ensures ItemNames(items + [item]) == ItemNames(items) + multiset{item.name}
  {
    assert (items + [item])[..|items|] == items;
  }

  lemma {:induction false} SameNames(items: seq<Item>, k: nat, item: Item)
    requires k < |items| && items[k].name == item.name
    ensures ItemNames(items[k := item]) == ItemNames(items)
  {
    var n := |items| - 1;
    if k == n {
      assert items[k := item][..n] == items[..n];
    } else {
      SameNames(items[..n], k, item);
      assert items[k := item][..n] == items[..n][k := item];
    }
  }

  lemma {:induction false} AbsentName(items: seq<Item>, name: string)
    requires forall i :: 0 <= i < |items| ==> items[i].name != name
    ensures ItemNames(items)[name] == 0
  {
    if items != [] { AbsentName(items[..|items| - 1], name); }
  }

  lemma {:induction false} InsertKeys(items: seq<Item>, parts: seq<string>, file: nat)
    requires parts != [] && Free(items, parts) && Keyed(items)
    requires forall i :: 0 <= i < |parts| ==> '/' !in parts[i]
    ensures Keyed(Insert(items, parts, file))
    decreases |parts|
  {
    hide ItemNames;
    var k := Position(items, parts[0]);
    var below := if k < |items| then items[k].value.entries else [];
    var item := if |parts| == 1 then Item(parts[0], File(file))
                else Item(parts[0], Dir(Insert(below, parts[1..], file)));
    if |parts| > 1 {
      if k == |items| { NoKeys(); } else { assert KeyedAt(items[k]); }
      InsertKeys(below, parts[1..], file);
    }
    if k < |items| {
      SameNames(items, k, item);
    } else {
      AbsentName(items, parts[0]);
      NamesMore(items, item);
    }
  }

  lemma NoKeys()
    ensures Keyed([])
  {
  }

  /** The first segment of a name. */
  function First(name: string): string {
    name[..Find(name, '/')]
  }

  function Firsts(nodes: seq<Node>): multiset<string> {
    if nodes == [] then multiset{} else Firsts(nodes[..|nodes| - 1]) + multiset{First(nodes[|nodes| - 1].name)}
  }

  /** Siblings share no first segment, and a file's name is one segment. */
  ghost predicate Segmented(nodes: seq<Node>)
    decreases nodes
  {
    && AtMostOnce(Firsts(nodes))
    && forall i :: 0 <= i < |nodes| ==> SegmentedAt(nodes[i])
  }

  ghost predicate SegmentedAt(node: Node)
    decreases node
  {
    match node
    case FileNode(_, name, _) => '/' !in name
    case FolderNode(_, _, children) => Segmented(children)
  }

  ghost predicate EachSegmented(nodes: seq<Node>) {
    forall i :: 0 <= i < |nodes| ==> SegmentedAt(nodes[i])
  }

  lemma FirstsMore(nodes: seq<Node>, node: Node)
    ensures Firsts(nodes + [node]) == Firsts(nodes) + multiset{First(node.name)}
  {
    assert (nodes + [node])[..|nodes|] == nodes;
  }

  lemma {:induction false} FirstsConcat(a: seq<Node>, b: seq<Node>)
    ensures Firsts(a + b) == Firsts(a) + Firsts(b)
    decreases |b|
  {
    if b == [] {
      assert a + b == a;
    } else {
      assert (a + b)[..|a + b| - 1] == a + b[..|b| - 1];
      FirstsConcat(a, b[..|b| - 1]);
    }
  }

  lemma {:induction false} SortKeepsFirsts(nodes: seq<Node>, le: Order)
    ensures Firsts(SortByName(nodes, le)) == Firsts(nodes)
  {
    if nodes != [] {
      var n := |nodes| - 1;
      SortKeepsFirsts(nodes[..n], le);
      InsertKeepsFirsts(nodes[n], SortByName(nodes[..n], le), le);
    }
  }

  lemma {:induction false} InsertKeepsFirsts(node: Node, nodes: seq<Node>, le: Order)
    ensures Firsts(InsertSorted(node, nodes, le)) == Firsts(nodes) + multiset{First(node.name)}
  {
    if nodes == [] {
      FirstsMore([], node);
      assert [] + [node] == [node];
    } else {
      var n := |nodes| - 1;
      if le(nodes[n].name, node.name) {
        FirstsMore(nodes, node);
      } else {
        InsertKeepsFirsts(node, nodes[..n], le);
        FirstsMore(InsertSorted(node, nodes[..n], le), nodes[n]);
      }
    }
  }

  /** A folder's name starts with its entry's, followed by those it swallowed. */
  lemma FirstOfFolder(name: string, name': string)
    requires '/' !in name && (name' == name || name + "/" <= name')
    ensures First(name') == name
  {
    if name' == name {
      FindNone(name, '/');
    } else {
      var rest := name'[|name| + 1..];
      assert name' == name + ['/'] + rest;
      FindFirst(name, '/', rest);
    }
  }

  lemma SortedSegmented(folders: seq<Node>, files: seq<Node>, items: seq<Item>, le: Order)
    requires Firsts(folders) + Firsts(files) == ItemNames(items) && AtMostOnce(ItemNames(items))
    requires EachSegmented(folders) && EachSegmented(files)
    ensures Segmented(SortByName(folders, le) + SortByName(files, le))
  {
    hide SortByName, Firsts, ItemNames, SegmentedAt;
    var a, b := SortByName(folders, le), SortByName(files, le);
    SortKeepsFirsts(folders, le);
    SortKeepsFirsts(files, le);
    FirstsConcat(a, b);
    forall i | 0 <= i < |a + b| ensures SegmentedAt((a + b)[i]) {
      if i < |a| { assert a[i] in a; } else { assert b[i - |a|] in b; }
    }
  }

  /** The same files lead to the same paths, whatever stands before them. */
  ghost predicate SameFiles(a: seq<Item>, from: string, b: seq<Item>, to: string) {
    forall p: string :: Stored(a, p + from) == Stored(b, p + to)
  }

  /** Merges a folder with its only entry while that is a folder too. */
  method Collapse(name: string, entries: seq<Item>) returns (name': string, inner: seq<Item>)
    requires entries != [] && Filled(entries)
    ensures SameFiles(inner, name' + "/", entries, name + "/")
    ensures Size(inner) <= Size(entries) && Filled(inner) && inner != []
    ensures !(|inner| == 1 && inner[0].value.Dir?)
    ensures (name' == name || name + "/" <= name') && (Keyed(entries) ==> Keyed(inner))
  {
    name', inner := name, entries;
    while |inner| == 1 && inner[0].value.Dir?
      invariant SameFiles(inner, name' + "/", entries, name + "/")
      invariant Size(inner) <= Size(entries) && Filled(inner) && inner != []
      invariant (name' == name || name + "/" <= name') && (Keyed(entries) ==> Keyed(inner))
      decreases Size(inner)
    {
      assert Keyed(inner) ==> KeyedAt(inner[0]);
      OnlyEntry(name', inner);
      assert FilledAt(inner[0]);
      name' := name' + "/" + inner[0].name;
      inner := inner[0].value.entries;
    }
  }

  lemma OnlyEntry(name: string, inner: seq<Item>)
    requires |inner| == 1 && inner[0].value.Dir?
    ensures Size(inner[0].value.entries) < Size(inner)
    ensures SameFiles(inner[0].value.entries, name + "/" + inner[0].name + "/", inner, name + "/")
  {
    SizeAt(inner, 0);
    var deeper := name + "/" + inner[0].name + "/";
    forall p: string
      ensures Stored(inner[0].value.entries, p + deeper) == Stored(inner, p + (name + "/"))
    {
      StoredMore([], inner[0], p + (name + "/"));
      assert [] + [inner[0]] == inner;
      assert p + (name + "/") + inner[0].name + "/" == p + deeper;
    }
  }

  /** The nodes hold the files of the entries, under the same paths. */
  ghost predicate Shows(nodes: seq<Node>, items: seq<Item>) {
    forall p: string :: Leaves(nodes, p) == Stored(items, p)
  }

  ghost predicate ShowsBoth(a: seq<Node>, b: seq<Node>, items: seq<Item>) {
    forall p: string :: Leaves(a, p) + Leaves(b, p) == Stored(items, p)
  }

  lemma ShowsFolder(
      folders: seq<Node>, files: seq<Node>, items: seq<Item>, item: Item, node: Node, inner: seq<Item>)
    requires ShowsBoth(folders, files, items) && item.value.Dir? && node.FolderNode?
    requires Shows(node.children, inner)
    requires SameFiles(inner, node.name + "/", item.value.entries, item.name + "/")
    ensures ShowsBoth(folders + [node], files, items + [item])
  {
    hide Leaves, Stored;
    forall p: string
      ensures Leaves(folders + [node], p) + Leaves(files, p) == Stored(items + [item], p)
    {
      NodesMore(folders, node, p);
      StoredMore(items, item, p);
      assert p + node.name + "/" == p + (node.name + "/");
      assert p + item.name + "/" == p + (item.name + "/");
    }
  }

  lemma ShowsFile(folders: seq<Node>, files: seq<Node>, items: seq<Item>, item: Item, node: Node)
    requires ShowsBoth(folders, files, items) && item.value.File? && node.FileNode?
    requires node.name == item.name && node.file == item.value.file
    ensures ShowsBoth(folders, files + [node], items + [item])
  {
    hide Leaves, Stored;
    forall p: string
      ensures Leaves(folders, p) + Leaves(files + [node], p) == Stored(items + [item], p)
    {
      NodesMore(files, node, p);
      StoredMore(items, item, p);
    }
  }

  predicate AllFolders(nodes: seq<Node>) {
    forall i :: 0 <= i < |nodes| ==> nodes[i].FolderNode?
  }

  predicate AllFiles(nodes: seq<Node>) {
    forall i :: 0 <= i < |nodes| ==> nodes[i].FileNode?
  }

  ghost predicate EachArranged(nodes: seq<Node>, le: Order) {
    forall i :: 0 <= i < |nodes| ==> ArrangedAt(nodes[i], le)
  }

  method MapToNodes(items: seq<Item>, counter: nat, le: Order)
    returns (nodes: seq<Node>, counter': nat)
    requires Filled(items) && Total(le)
    ensures |nodes| == |items| && (|items| == 1 ==> (nodes[0].FolderNode? <==> items[0].value.Dir?))
    ensures Shows(nodes, items)
    ensures counter <= counter' && Ids(nodes) == Range(counter, counter')
    ensures Branches(nodes) && Arranged(nodes, le)
    ensures Keyed(items) ==> Segmented(nodes)
    decreases Size(items)
  {
    hide Firsts, ItemNames, Keyed, Segmented, EachSegmented;
    hide Leaves, Stored, Ids, Range, Arranged, Filled, Branches, Size, Shows, ShowsBoth, SameFiles;
    var folders: seq<Node>, files: seq<Node> := [], [];
    counter' := counter;
    Nothing(counter);
    NoSegments();
    for k := 0 to |items|
      invariant |folders| + |files| == k && AllFolders(folders) && AllFiles(files)
      invariant k == 1 ==> (folders != [] <==> items[0].value.Dir?)
      invariant ShowsBoth(folders, files, items[..k])
      invariant counter <= counter' && Ids(folders) + Ids(files) == Range(counter, counter')
      invariant Branches(folders) && EachArranged(folders, le)
      invariant Keyed(items) ==> Firsts(folders) + Firsts(files) == ItemNames(items[..k])
      invariant Keyed(items) ==> EachSegmented(folders) && EachSegmented(files)
    {
      var item := items[k];
      assert items[..k + 1] == items[..k] + [item];
      SizeAt(items, k);
      FilledHere(items, k);
      match item.value {
        case Dir(entries) =>
          SizeOfDir(item);
          var name, inner := Collapse(item.name, entries);
          var id := counter';
          var children, next := MapToNodes(inner, id + 1, le);
          var node := FolderNode(id, name, children);
          ShowsFolder(folders, files, items[..k], item, node, inner);
          NumberFolder(folders, files, node, counter, next);
          BranchesMore(folders, node);
          FolderSegment(items, k, folders, name, node);
          folders, counter' := folders + [node], next;
        case File(f) =>
          var node := FileNode(counter', item.name, f);
          ShowsFile(folders, files, items[..k], item, node);
          NumberFile(folders, files, node, counter);
          FileSegment(items, k, files, node);
          files, counter' := files + [node], counter' + 1;
      }
    }
    assert items[..|items|] == items;
    nodes := SortByName(folders, le) + SortByName(files, le);
    Finish(folders, files, items, le);
    if Keyed(items) { AllSegmented(folders, files, items, le); }
  }

  lemma NoSegments()
    ensures Firsts([]) + Firsts([]) == ItemNames([]) && EachSegmented([])
  {
  }

  lemma FolderSegment(items: seq<Item>, k: nat, folders: seq<Node>, name: string, node: Node)
    requires k < |items| && items[k].value.Dir? && node.FolderNode? && node.name == name
    requires name == items[k].name || items[k].name + "/" <= name
    ensures Firsts(folders + [node]) == Firsts(folders) + multiset{First(name)}
    ensures ItemNames(items[..k + 1]) == ItemNames(items[..k]) + multiset{items[k].name}
    ensures Keyed(items) ==> First(name) == items[k].name && Keyed(items[k].value.entries)
    ensures EachSegmented(folders) && Segmented(node.children) ==> EachSegmented(folders + [node])
  {
    assert items[..k + 1] == items[..k] + [items[k]];
    NamesMore(items[..k], items[k]);
    FirstsMore(folders, node);
    if Keyed(items) {
      assert KeyedAt(items[k]);
      FirstOfFolder(items[k].name, name);
    }
  }

  lemma FileSegment(items: seq<Item>, k: nat, files: seq<Node>, node: Node)
    requires k < |items| && node.FileNode? && node.name == items[k].name
    ensures ItemNames(items[..k + 1]) == ItemNames(items[..k]) + multiset{items[k].name}
    ensures Firsts(files + [node]) == Firsts(files) + multiset{First(node.name)}
    ensures Keyed(items) ==> First(node.name) == items[k].name
    ensures Keyed(items) && EachSegmented(files) ==> EachSegmented(files + [node])
  {
    assert items[..k + 1] == items[..k] + [items[k]];
    NamesMore(items[..k], items[k]);
    FirstsMore(files, node);
    if Keyed(items) { FirstOfFolder(items[k].name, node.name); }
  }

  lemma AllSegmented(folders: seq<Node>, files: seq<Node>, items: seq<Item>, le: Order)
    requires Keyed(items) && Firsts(folders) + Firsts(files) == ItemNames(items)
    requires EachSegmented(folders) && EachSegmented(files)
    ensures Segmented(SortByName(folders, le) + SortByName(files, le))
  {
    SortedSegmented(folders, files, items, le);
  }

  lemma Nothing(counter: nat)
    ensures ShowsBoth([], [], []) && Ids([]) + Ids([]) == Range(counter, counter) && Branches([])
  {
  }

  lemma FilledHere(items: seq<Item>, k: nat)
    requires Filled(items) && k < |items|
    ensures items[k].value.Dir? ==> items[k].value.entries != [] && Filled(items[k].value.entries)
  {
    assert FilledAt(items[k]);
  }

  lemma SizeOfDir(item: Item)
    requires item.value.Dir?
    ensures Size(item.value.entries) < SizeOf(item)
  {
  }

  lemma NumberFolder(folders: seq<Node>, files: seq<Node>, node: Node, low: nat, next: nat)
    requires node.FolderNode? && low <= node.id < next
    requires Ids(folders) + Ids(files) == Range(low, node.id)
    requires Ids(node.children) == Range(node.id + 1, next)
    ensures Ids(folders + [node]) + Ids(files) == Range(low, next)
  {
    hide Ids, Range;
    NodesMore(folders, node, "");
    RangeNext(low, node.id);
    RangeJoins(low, node.id + 1, next);
    Reorder(Ids(folders), Ids(files), multiset{node.id}, Ids(node.children));
  }

  lemma RangeEmpty(b: nat)
    ensures Range(b, b) == multiset{}
  {
  }

  lemma RangeNext(low: nat, id: nat)
    requires low <= id
    ensures Range(low, id + 1) == Range(low, id) + multiset{id}
  {
  }

  lemma Reorder(a: multiset<nat>, b: multiset<nat>, x: multiset<nat>, c: multiset<nat>)
    ensures (a + (x + c)) + b == ((a + b) + x) + c
  {
  }

  lemma NumberFile(folders: seq<Node>, files: seq<Node>, node: Node, low: nat)
    requires node.FileNode? && low <= node.id
    requires Ids(folders) + Ids(files) == Range(low, node.id)
    ensures Ids(folders) + Ids(files + [node]) == Range(low, node.id + 1)
  {
    NodesMore(files, node, "");
  }

  lemma BranchesMore(folders: seq<Node>, node: Node)
    requires Branches(folders) && BranchesAt(node)
    ensures Branches(folders + [node])
  {
  }

  /** Sorting the two kinds and putting folders first keeps everything said of them. */
  lemma Finish(folders: seq<Node>, files: seq<Node>, items: seq<Item>, le: Order)
    requires ShowsBoth(folders, files, items) && AllFolders(folders) && AllFiles(files)
    requires Branches(folders) && EachArranged(folders, le) && Total(le)
    ensures var nodes := SortByName(folders, le) + SortByName(files, le);
            && Shows(nodes, items) && Ids(nodes) == Ids(folders) + Ids(files)
            && Branches(nodes) && Arranged(nodes, le)
            && |nodes| == |folders| + |files|
            && (nodes != [] ==> (nodes[0].FolderNode? <==> folders != []))
  {
    hide Leaves, Stored, Ids, SortByName, Sorted, LeavesOf, IdsOf;
    var a, b := SortByName(folders, le), SortByName(files, le);
    forall p: string ensures Leaves(a + b, p) == Stored(items, p) {
      SortKeepsNodes(folders, le, p);
      SortKeepsNodes(files, le, p);
      NodesConcat(a, b, p);
    }
    SortKeepsNodes(folders, le, "");
    SortKeepsNodes(files, le, "");
    NodesConcat(a, b, "");
    forall i | 0 <= i < |a| ensures a[i].FolderNode? && BranchesAt(a[i]) && ArrangedAt(a[i], le) {
      assert a[i] in a;
      var j :| 0 <= j < |folders| && folders[j] == a[i];
    }
    forall i | 0 <= i < |b| ensures b[i].FileNode? {
      assert b[i] in b;
      var j :| 0 <= j < |files| && files[j] == b[i];
    }
    var nodes := a + b;
    assert nodes[..|a|] == a && nodes[|a|..] == b && SplitsAt(nodes, |a|);
    forall i | 0 <= i < |nodes| ensures BranchesAt(nodes[i]) && ArrangedAt(nodes[i], le) {
      if i >= |a| { assert nodes[i] == b[i - |a|]; }
    }
  }

  // ---------------------------------------------------------------- the whole build

  /** The first `n` files, each under its own path. */
  function FilesUpTo(files: seq<string>, n: nat): multiset<(string, nat)>
    requires n <= |files|
  {
    if n == 0 then multiset{} else FilesUpTo(files, n - 1) + multiset{(files[n - 1], n - 1)}
  }

  ghost predicate AllApart(files: seq<string>) {
    forall i, j :: 0 <= i < j < |files| ==> Apart(Split(files[i], '/'), Split(files[j], '/'))
  }

  lemma ApartRest(a: seq<string>, b: seq<string>, n: nat)
    requires Apart(a, b) && n < |a| && n < |b| && forall i :: 0 <= i < n ==> a[i] == b[i]
    ensures Apart(a[n..], b[n..])
  {
    assert a == a[..n] + a[n..] && b == b[..n] + b[n..] && a[..n] == b[..n];
  }

  /** A run of whole directories that every path starts with: nothing, or up to a slash. */
  ghost predicate SharedBy(files: seq<string>, p: string) {
    && (p == "" || p[|p| - 1] == '/')
    && forall f :: 0 <= f < |files| ==> p <= files[f]
  }

  ghost predicate LongestShared(files: seq<string>, p: string) {
    SharedBy(files, p) && forall q :: SharedBy(files, q) ==> |q| <= |p|
  }

  lemma SplitOff(head: string, tail: string)
    requires '/' !in head
    ensures Split(head + "/" + tail, '/') == [head] + Split(tail, '/')
  {
    hide Find;
    var s := head + "/" + tail;
    FindFirst(head, '/', tail);
    assert s == head + ['/'] + tail && s[..|head|] == head && s[|head| + 1..] == tail;
  }

  lemma SplitOffMore(a: string, k: nat, b: string)
    requires k < |a| && a[k] == '/' && '/' !in a[..k]
    ensures Split(a + "/" + b, '/') == [a[..k]] + Split(a[k + 1..] + "/" + b, '/')
  {
    hide Split;
    var s, t := a + "/" + b, a[..k] + "/" + (a[k + 1..] + "/" + b);
    assert s == t;
    SplitOff(a[..k], a[k + 1..] + "/" + b);
  }

  lemma SplitStep(s: string)
    ensures var k := Find(s, '/');
            Split(s, '/') == if k == |s| then [s] else [s[..k]] + Split(s[k + 1..], '/')
  {
    hide Find;
  }

  lemma {:induction false} SplitTwo(a: string, b: string)
    ensures Split(a + "/" + b, '/') == Split(a, '/') + Split(b, '/')
    decreases |a|
  {
    hide Find, Split;
    var k := Find(a, '/');
    SplitStep(a);
    if k == |a| {
      assert a[..k] == a;
      SplitOff(a, b);
    } else {
      SplitOffMore(a, k, b);
      SplitTwo(a[k + 1..], b);
      var first, rest := [a[..k]], Split(a[k + 1..], '/');
      assert first + (rest + Split(b, '/')) == (first + rest) + Split(b, '/');
    }
  }

  lemma {:induction false} LeadIs(parts: seq<string>, n: nat)
    requires 0 < n < |parts|
    ensures Lead(parts, n) == Join(parts[..n], '/') + "/"
  {
    if n > 1 {
      LeadIs(parts[1..], n - 1);
      assert parts[..n][1..] == parts[1..][..n - 1] && parts[..n][0] == parts[0];
    } else {
      assert Lead(parts[1..], 0) == "";
    }
  }

  lemma {:induction false} LeadLonger(parts: seq<string>, m: nat, n: nat)
    requires m <= n < |parts|
    ensures |Lead(parts, m)| <= |Lead(parts, n)|
  {
    if m > 0 { LeadLonger(parts[1..], m - 1, n - 1); }
  }

  /** A shared run of directories is made of segments all paths start with. */
  lemma {:induction false} SharedSegments(files: seq<string>, q: string) returns (m: nat)
    requires files != [] && SharedBy(files, q) && q != ""
    ensures 0 < m && forall f :: 0 <= f < |files| ==> m < |Split(files[f], '/')|
    ensures forall f :: 0 <= f < |files| ==>
              && Split(files[f], '/')[..m] == Split(files[0], '/')[..m]
              && q == Lead(Split(files[f], '/'), m)
  {
    var a := q[..|q| - 1];
    assert q == a + "/";
    m := |Split(a, '/')|;
    forall f | 0 <= f < |files|
      ensures m < |Split(files[f], '/')| && Split(files[f], '/')[..m] == Split(a, '/')
      ensures q == Lead(Split(files[f], '/'), m)
    {
      var rest := files[f][|q|..];
      assert files[f] == a + "/" + rest;
      SplitTwo(a, rest);
      var parts := Split(files[f], '/');
      assert parts[..m] == Split(a, '/');
      LeadIs(parts, m);
      JoinSplit(a, '/');
    }
  }

  lemma PrefixesAgree(parsed: seq<seq<string>>, m: nat)
    requires forall f :: 0 <= f < |parsed| ==> m < |parsed[f]|
    requires forall f :: 0 <= f < |parsed| ==> parsed[f][..m] == parsed[0][..m]
    ensures forall i :: 0 <= i < m ==> Agree(parsed, i)
  {
    forall i, f | 0 <= i < m && 0 <= f < |parsed| ensures parsed[f][i] == parsed[0][i] {
      assert parsed[f][..m][i] == parsed[0][..m][i];
    }
  }

  /** What is stripped is the longest run of whole directories the paths share. */
  lemma {:induction false} StripsLongest(files: seq<string>, parsed: seq<seq<string>>, common: nat)
    requires |files| > 1 && |parsed| == |files|
    requires forall f :: 0 <= f < |files| ==> parsed[f] == Split(files[f], '/') && common < |parsed[f]|
    requires forall i :: 0 <= i < common ==> Agree(parsed, i)
    requires !Agree(parsed, common) || exists f :: 0 <= f < |parsed| && |parsed[f]| == common + 1
    ensures LongestShared(files, Lead(parsed[0], common))
  {
    var prefix := Lead(parsed[0], common);
    if common > 0 { LeadIs(parsed[0], common); }
    forall f | 0 <= f < |files| ensures prefix <= files[f] {
      Spells(files, parsed, common, f);
    }
    forall q | SharedBy(files, q) ensures |q| <= |prefix| {
      if q != "" {
        var m := SharedSegments(files, q);
        PrefixesAgree(parsed, m);
        assert m <= common;
        LeadLonger(parsed[0], m, common);
      }
    }
  }

  lemma {:induction false} LeavesBegin(nodes: seq<Node>, prefix: string, path: string, file: nat)
    requires (path, file) in Leaves(nodes, prefix)
    ensures prefix <= path
    decreases nodes
  {
    var n := |nodes| - 1;
    if (path, file) in Leaves(nodes[..n], prefix) {
      LeavesBegin(nodes[..n], prefix, path, file);
    } else if nodes[n].FolderNode? {
      LeavesBegin(nodes[n].children, prefix + nodes[n].name + "/", path, file);
    }
  }

  lemma {:induction false} EachIsAmong(files: seq<string>, n: nat, f: nat)
    requires f < n <= |files|
    ensures (files[f], f) in FilesUpTo(files, n)
  {
    if f < n - 1 { EachIsAmong(files, n - 1, f); }
  }

  /** With all shared directories stripped, one folder cannot hold everything. */
  lemma {:induction false} NotOneFolder(files: seq<string>, nodes: seq<Node>, prefix: string)
    requires LongestShared(files, prefix) && Leaves(nodes, prefix) == FilesUpTo(files, |files|)
    ensures !(|nodes| == 1 && nodes[0].FolderNode?)
  {
    if |nodes| == 1 && nodes[0].FolderNode? {
      var deeper := prefix + nodes[0].name + "/";
      assert nodes[..0] == [];
      forall f | 0 <= f < |files| ensures deeper <= files[f] {
        EachIsAmong(files, |files|, f);
        assert (files[f], f) in LeavesOf(nodes[0], prefix);
        LeavesBegin(nodes[0].children, deeper, files[f], f);
      }
      assert SharedBy(files, deeper);
    }
  }

  /**
   Builds the tree. Its leaves are the files, one each, and the stripped prefix
   with the names on the way down spells each file's path. The prefix is the longest
   run of whole directories the paths share, so that several files never end up in
   one folder. Ids are distinct, no folder holds one folder only, siblings share no
   first segment, a file's name is one segment, and folders come before files, each
   by name.
   */
  method BuildFileTree(files: seq<string>, le: Order) returns (nodes: seq<Node>, ghost prefix: string)
    requires AllApart(files) && Total(le)
    ensures Leaves(nodes, prefix) == FilesUpTo(files, |files|)
    ensures exists count :: Ids(nodes) == Range(0, count)
    ensures Branches(nodes) && Arranged(nodes, le) && Segmented(nodes)
    ensures files == [] ==> nodes == []
    ensures |files| == 1 ==> prefix == ""
    ensures |files| > 1 ==> LongestShared(files, prefix) && !(|nodes| == 1 && nodes[0].FolderNode?)
  {
    hide Leaves, Stored, Ids, Range, Arranged, Branches, Free, Filled, Total, Shows, LongestShared,
         Keyed, Segmented, Insert, Split, AllAgree;
    if files == [] {
      nodes, prefix := [], "";
      EmptyTree(le);
      return;
    }
    var parsed := seq(|files|, f requires 0 <= f < |files| => Split(files[f], '/'));
    var common := CommonLength(parsed);
    prefix := Lead(parsed[0], common);
    var root: seq<Item> := [];
    EmptyTrie(prefix);
    NoKeys();
    forall j | 0 <= j < |files| ensures Free(root, parsed[j][common..]) { EmptyIsFree(parsed[j][common..]); }
    for f := 0 to |files|
      invariant Filled(root) && Keyed(root) && Stored(root, prefix) == FilesUpTo(files, f)
      invariant forall j :: f <= j < |files| ==> Free(root, parsed[j][common..])
    {
      var parts := parsed[f][common..];
      InsertStores(root, parts, f, prefix);
      InsertFills(root, parts, f);
      PiecesAreWhole(files[f], '/');
      InsertKeys(root, parts, f);
      Spells(files, parsed, common, f);
      forall j | f < j < |files| ensures Free(Insert(root, parts, f), parsed[j][common..]) {
        RestApart(files, parsed, common, f, j);
        StaysFree(root, parts, f, parsed[j][common..]);
      }
      root := Insert(root, parts, f);
    }
    var count: nat;
    nodes, count := MapToNodes(root, 0, le);
    ShownUnder(nodes, root, prefix);
    if |files| > 1 {
      StripsLongest(files, parsed, common);
      NotOneFolder(files, nodes, prefix);
    }
  }

  lemma EmptyTree(le: Order)
    ensures Leaves([], "") == multiset{} && Branches([]) && Arranged([], le) && Segmented([])
    ensures Ids([]) == Range(0, 0)
  {
    var nodes: seq<Node> := [];
    assert SplitsAt(nodes, 0) && Sorted(nodes[..0], le) && Sorted(nodes[0..], le);
  }

  lemma EmptyTrie(prefix: string)
    ensures Filled([]) && Stored([], prefix) == multiset{}
  {
  }

  lemma EmptyIsFree(parts: seq<string>)
    ensures Free([], parts)
  {
  }

  lemma ShownUnder(nodes: seq<Node>, items: seq<Item>, prefix: string)
    requires Shows(nodes, items)
    ensures Leaves(nodes, prefix) == Stored(items, prefix)
  {
  }

  /** The stripped prefix and the rest spell the path. */
  lemma Spells(files: seq<string>, parsed: seq<seq<string>>, common: nat, f: nat)
    requires |parsed| == |files| && f < |files|
    requires forall i :: 0 <= i < |files| ==> parsed[i] == Split(files[i], '/') && common < |parsed[i]|
    requires forall i :: 0 <= i < common ==> Agree(parsed, i)
    ensures Lead(parsed[0], common) + Join(parsed[f][common..], '/') == files[f]
  {
    forall i | 0 <= i < common ensures parsed[f][i] == parsed[0][i] {
      assert Agree(parsed, i);
    }
    SameLead(parsed[f], parsed[0], common);
    LeadAndRest(parsed[f], common);
    JoinSplit(files[f], '/');
  }

  lemma RestApart(files: seq<string>, parsed: seq<seq<string>>, common: nat, f: nat, j: nat)
    requires |parsed| == |files| && f < j < |files| && AllApart(files)
    requires forall i :: 0 <= i < |files| ==> parsed[i] == Split(files[i], '/') && common < |parsed[i]|
    requires forall i :: 0 <= i < common ==> Agree(parsed, i)
    ensures Apart(parsed[f][common..], parsed[j][common..])
  {
    forall i | 0 <= i < common ensures parsed[f][i] == parsed[j][i] {
      assert Agree(parsed, i);
    }
    ApartRest(parsed[f], parsed[j], common);
  }
}
