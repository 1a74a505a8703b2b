/**
 One analysis of a repository: files partitioned and batched, each processed on its
 own, and the statistics added up at the end.
 */
module PipelineStats {
  import opened Wrappers
  import opened Counting
  import opened InsertRetry
  import opened Batching

  type Path = string
  type Language = nat

  // ------------------------------------------------------------------ one file

  /** What the world answers while one file is processed. */
  datatype Effects = Effects(
    fileStored: bool,             // the file's own document could be written
    sourceRead: bool,             // its source could be fetched
    astPersisted: bool,
    cfg: Option<seq<Doc>>,        // the graphs built, None when the builder failed
    cfgRaises: Option<set<nat>>,  // writing them raised, with these keys stored
    dfg: Option<seq<Doc>>,
    dfgRaises: Option<set<nat>>,
    documented: bool,
    content: string,
    indexRaises: bool,
    indexed: bool)

  datatype FileResult = FileResult(
    filePersisted: bool, astPersisted: bool,
    cfgPersisted: int, cfgFailed: int, cfgBuilt: bool,
    dfgPersisted: int, dfgFailed: int, dfgBuilt: bool,
    docPersisted: bool, ragPersisted: bool)

  const SKIPPED := FileResult(false, false, 0, 0, false, 0, 0, false, false, false)

  /** The graphs a builder delivered; none when it failed. */
  function Delivered(graphs: Option<seq<Doc>>): seq<Doc> {
    if graphs.Some? then graphs.value else []
  }

  function Built(graphs: Option<seq<Doc>>): nat {
    |Delivered(graphs)|
  }

  /** The keys stored in the two graph collections. */
  datatype Stores = Stores(cfg: set<nat>, dfg: set<nat>) {
    ghost predicate Within(later: Stores) {
      cfg <= later.cfg && dfg <= later.dfg
    }
  }

  /** As many documents as counted, of those given, all in the store. */
  ghost predicate InStore(landed: multiset<Doc>, count: int, docs: multiset<Doc>, stored: set<nat>) {
    |landed| == count && landed <= docs && AllStored(landed, stored)
  }

  lemma InStoreMore(
      a: multiset<Doc>, s: int, docs: multiset<Doc>, stored: set<nat>,
      b: multiset<Doc>, t: int, more: multiset<Doc>, stored': set<nat>)
    requires InStore(a, s, docs, stored) && InStore(b, t, more, stored') && stored <= stored'
    ensures InStore(a + b, s + t, docs + more, stored')
  {
  }

  /** How documents are written. */
  datatype Writer = Writer(server: Server, chunkSize: nat, maxAttempts: nat)

  /** How many graphs of one file fail, and what its collection holds afterwards. */
  function GraphFailures(w: Writer, stored: set<nat>, graphs: Option<seq<Doc>>, raises: Option<set<nat>>): nat
    requires w.chunkSize >= 1
  {
    if graphs.None? then 0
    else if raises.Some? then |graphs.value|
    else Failures(w.server, stored, graphs.value, w.chunkSize, w.maxAttempts)
  }

  function GraphsStored(w: Writer, stored: set<nat>, graphs: Option<seq<Doc>>, raises: Option<set<nat>>): set<nat>
    requires w.chunkSize >= 1
  {
    if graphs.None? then stored
    else if raises.Some? then stored + raises.value
    else StoredBy(w.server, stored, graphs.value, w.chunkSize, w.maxAttempts)
  }

  /** The graphs of one file. A failed build answers with the sentinel -1. */
  method PersistScopedGraphs(
      server: Server, stored: set<nat>, graphs: Option<seq<Doc>>, raises: Option<set<nat>>,
      chunkSize: nat, maxAttempts: nat)
    returns (stored': set<nat>, succeeded: int, failed: int, ghost landed: multiset<Doc>)
    requires AlwaysHonest(server) && chunkSize >= 1
    ensures graphs.None? ==> succeeded == 0 && failed == -1
    ensures graphs.Some? ==> succeeded >= 0 && failed >= 0 && succeeded + failed == |graphs.value|
    ensures raises.Some? && graphs.Some? ==> succeeded == 0
    ensures var w := Writer(server, chunkSize, maxAttempts);
            && stored' == GraphsStored(w, stored, graphs, raises)
            && (graphs.Some? ==> failed == GraphFailures(w, stored, graphs, raises))
    ensures stored <= stored' && InStore(landed, succeeded, multiset(Delivered(graphs)), stored')
  {
    if graphs.None? {
      return stored, 0, -1, multiset{};
    }
    if raises.Some? {
      return stored + raises.value, 0, |graphs.value|, multiset{};
    }
    var docs: seq<Doc> := [];
    for k := 0 to |graphs.value|
      invariant docs == graphs.value[..k]
    {
      docs := docs + [graphs.value[k]];
    }
    assert docs == graphs.value;
    if docs != [] {
      var st, s, f, codes, sent, l, lost := InsertMany(server, stored, docs, chunkSize, maxAttempts);
      return st, s, f, l;
    }
    NothingToInsert(server, stored, chunkSize, maxAttempts);
    return stored, |graphs.value|, 0, multiset{};
  }

  /** A result that tells what became of its file. */
  predicate Truthful(r: FileResult, e: Effects) {
    && r.cfgBuilt == e.cfg.Some? && r.dfgBuilt == e.dfg.Some?
    && r.cfgPersisted >= 0 && r.cfgFailed >= 0 && r.dfgPersisted >= 0 && r.dfgFailed >= 0
    && r.cfgPersisted + r.cfgFailed == Built(e.cfg)
    && r.dfgPersisted + r.dfgFailed == Built(e.dfg)
    && r.astPersisted == e.astPersisted && r.docPersisted == e.documented
    && r.ragPersisted == (e.documented && e.content != "" && e.indexed)
    && r.filePersisted
  }

  /** Whether processing ended in a result of its own rather than a skip. */
  predicate Completes(e: Effects) {
    e.fileStored && e.sourceRead && !(e.documented && e.content != "" && e.indexRaises)
  }

  /** The graphs counted as persisted, by collection. */
  datatype Landed = Landed(cfg: multiset<Doc>, dfg: multiset<Doc>)

  const NONE_LANDED := Landed(multiset{}, multiset{})

  /** The graph collections after one file, whatever became of it. */
  function AfterFile(w: Writer, stores: Stores, e: Effects): Stores
    requires w.chunkSize >= 1
  {
    if e.fileStored && e.sourceRead then
      Stores(GraphsStored(w, stores.cfg, e.cfg, e.cfgRaises), GraphsStored(w, stores.dfg, e.dfg, e.dfgRaises))
    else stores
  }

  /** The failures a completed file's result counts are those of its insertions. */
  predicate CountsFailures(w: Writer, stores: Stores, e: Effects, r: FileResult)
    requires w.chunkSize >= 1
  {
    Completes(e) ==>
      && r.cfgFailed == GraphFailures(w, stores.cfg, e.cfg, e.cfgRaises)
      && r.dfgFailed == GraphFailures(w, stores.dfg, e.dfg, e.dfgRaises)
  }

  /** One file's artifacts; None stands for an exception that escapes. */
  method ComputeFileRepresentations(
      server: Server, stores: Stores, e: Effects, chunkSize: nat, maxAttempts: nat)
    returns (r: Option<FileResult>, stores': Stores, ghost landed: Landed)
    requires AlwaysHonest(server) && chunkSize >= 1
    ensures r.Some? && r.value.filePersisted <==> Completes(e)
    ensures r.None? <==> e.fileStored && !Completes(e)
    ensures r.Some? && !Completes(e) ==> r.value == SKIPPED
    ensures Completes(e) ==> Truthful(r.value, e)
    ensures stores.Within(stores')
    ensures Completes(e) ==>
              && InStore(landed.cfg, r.value.cfgPersisted, multiset(Delivered(e.cfg)), stores'.cfg)
              && InStore(landed.dfg, r.value.dfgPersisted, multiset(Delivered(e.dfg)), stores'.dfg)
    ensures !Completes(e) ==> landed == NONE_LANDED
    ensures var w := Writer(server, chunkSize, maxAttempts);
            && stores' == AfterFile(w, stores, e)
            && (r.Some? ==> CountsFailures(w, stores, e, r.value))
  {
    hide InStore;
    stores', landed := stores, NONE_LANDED;
    if !e.fileStored {
      r := Some(SKIPPED);
      return;
    }
    if !e.sourceRead {
      r := None;
      return;
    }
    var cfg, cfgOk, cfgErr, c :=
      PersistScopedGraphs(server, stores.cfg, e.cfg, e.cfgRaises, chunkSize, maxAttempts);
    var dfg, dfgOk, dfgErr, d :=
      PersistScopedGraphs(server, stores.dfg, e.dfg, e.dfgRaises, chunkSize, maxAttempts);
    stores' := Stores(cfg, dfg);
    var rag := false;
    if e.documented && e.content != "" {
      if e.indexRaises {
        r := None;
        return;
      }
      rag := e.indexed;
    }
    landed := Landed(c, d);
    r := Some(FileResult(
      true, e.astPersisted,
      cfgOk, if e.cfg.Some? then cfgErr else 0, e.cfg.Some?,
      dfgOk, if e.dfg.Some? then dfgErr else 0, e.dfg.Some?,
      e.documented, rag));
  }

  // ------------------------------------------------------------------ a batch

  function Total<T>(s: seq<T>, f: T -> int): int {
    if s == [] then 0 else Total(s[..|s| - 1], f) + f(s[|s| - 1])
  }

  /** Each path's result is its own: truthful, or a skip that claims nothing. */
  ghost predicate Reports(paths: seq<Path>, effects: Path -> Effects, results: seq<FileResult>) {
    && |results| == |paths|
    && forall i :: 0 <= i < |paths| ==>
         if Completes(effects(paths[i])) then Truthful(results[i], effects(paths[i]))
         else results[i] == SKIPPED
  }

  /** The graph collections after these files. */
  function AfterFiles(w: Writer, stores: Stores, paths: seq<Path>, effects: Path -> Effects): Stores
    requires w.chunkSize >= 1
  {
    if paths == [] then stores
    else AfterFile(w, AfterFiles(w, stores, paths[..|paths| - 1], effects), effects(paths[|paths| - 1]))
  }

  /** Each result counts the failures of its own file, written after those before it. */
  ghost predicate CountsAll(
      w: Writer, stores: Stores, paths: seq<Path>, effects: Path -> Effects, results: seq<FileResult>)
    requires w.chunkSize >= 1
  {
    && |results| == |paths|
    && forall i :: 0 <= i < |paths| ==>
         CountsFailures(w, AfterFiles(w, stores, paths[..i], effects), effects(paths[i]), results[i])
  }

  lemma OneMoreCounts(
      w: Writer, stores: Stores, paths: seq<Path>, effects: Path -> Effects, results: seq<FileResult>,
      path: Path, r: FileResult)
    requires w.chunkSize >= 1 && CountsAll(w, stores, paths, effects, results)
    requires CountsFailures(w, AfterFiles(w, stores, paths, effects), effects(path), r)
    ensures CountsAll(w, stores, paths + [path], effects, results + [r])
    ensures AfterFiles(w, stores, paths + [path], effects)
            == AfterFile(w, AfterFiles(w, stores, paths, effects), effects(path))
  {
    hide CountsFailures, AfterFile;
    var all := paths + [path];
    assert all[..|paths|] == paths;
    forall i | 0 <= i < |all|
      ensures CountsFailures(w, AfterFiles(w, stores, all[..i], effects), effects(all[i]), (results + [r])[i])
    {
      if i < |paths| { assert all[..i] == paths[..i]; }
    }
  }

  lemma CountsPrefix(
      w: Writer, stores: Stores, paths: seq<Path>, effects: Path -> Effects, results: seq<FileResult>, n: nat)
    requires w.chunkSize >= 1 && CountsAll(w, stores, paths, effects, results) && n < |paths|
    ensures CountsAll(w, stores, paths[..n], effects, results[..n])
    ensures CountsFailures(w, AfterFiles(w, stores, paths[..n], effects), effects(paths[n]), results[n])
  {
    hide CountsFailures, AfterFiles;
    assert forall i :: 0 <= i < n ==> paths[..n][..i] == paths[..i];
  }

  lemma {:induction false} CountsConcat(
      w: Writer, stores: Stores, a: seq<Path>, ra: seq<FileResult>, b: seq<Path>, rb: seq<FileResult>,
      effects: Path -> Effects)
    requires w.chunkSize >= 1 && CountsAll(w, stores, a, effects, ra)
    requires CountsAll(w, AfterFiles(w, stores, a, effects), b, effects, rb)
    ensures CountsAll(w, stores, a + b, effects, ra + rb)
    ensures AfterFiles(w, stores, a + b, effects) == AfterFiles(w, AfterFiles(w, stores, a, effects), b, effects)
    decreases |b|
  {
    hide CountsFailures, AfterFile, AfterFiles;
    var mid := AfterFiles(w, stores, a, effects);
    assert |rb| == |b|;
    hide CountsAll;
    if b == [] {
      NothingCounted(w, mid, effects);
      assert a + b == a && ra + rb == ra;
    } else {
      var n := |b| - 1;
      CountsPrefix(w, mid, b, effects, rb, n);
      CountsConcat(w, stores, a, ra, b[..n], rb[..n], effects);
      OneMoreCounts(w, stores, a + b[..n], effects, ra + rb[..n], b[n], rb[n]);
      OneMoreCounts(w, mid, b[..n], effects, rb[..n], b[n], rb[n]);
      assert b == b[..n] + [b[n]];
      assert a + b == (a + b[..n]) + [b[n]] && ra + rb == (ra + rb[..n]) + [rb[n]];
    }
  }

  lemma NothingCounted(w: Writer, stores: Stores, effects: Path -> Effects)
    requires w.chunkSize >= 1
    ensures CountsAll(w, stores, [], effects, []) && AfterFiles(w, stores, [], effects) == stores
  {
  }

  /** The graphs built for the files that were processed to the end. */
  ghost function GraphDocs(
      paths: seq<Path>, effects: Path -> Effects, graphs: Effects -> Option<seq<Doc>>): multiset<Doc>
  {
    if paths == [] then multiset{}
    else
      var e := effects(paths[|paths| - 1]);
      GraphDocs(paths[..|paths| - 1], effects, graphs)
      + (if Completes(e) then multiset(Delivered(graphs(e))) else multiset{})
  }

  /** As many graphs as the results count are in the stores. */
  ghost predicate Kept(
      landed: Landed, paths: seq<Path>, effects: Path -> Effects, results: seq<FileResult>,
      stores: Stores)
  {
    && InStore(landed.cfg, Total(results, (r: FileResult) => r.cfgPersisted),
               GraphDocs(paths, effects, (e: Effects) => e.cfg), stores.cfg)
    && InStore(landed.dfg, Total(results, (r: FileResult) => r.dfgPersisted),
               GraphDocs(paths, effects, (e: Effects) => e.dfg), stores.dfg)
  }

  function Both(a: Landed, b: Landed): Landed {
    Landed(a.cfg + b.cfg, a.dfg + b.dfg)
  }

  lemma NothingKept(effects: Path -> Effects, stores: Stores)
    ensures Kept(NONE_LANDED, [], effects, [], stores)
  {
  }

  lemma OneMoreKept(
      landed: Landed, paths: seq<Path>, effects: Path -> Effects, results: seq<FileResult>,
      stores: Stores, path: Path, r: FileResult, more: Landed, stores': Stores)
    requires Kept(landed, paths, effects, results, stores) && stores.Within(stores')
    requires var e := effects(path);
             if Completes(e) then
               && InStore(more.cfg, r.cfgPersisted, multiset(Delivered(e.cfg)), stores'.cfg)
               && InStore(more.dfg, r.dfgPersisted, multiset(Delivered(e.dfg)), stores'.dfg)
             else more == NONE_LANDED && r == SKIPPED
    ensures Kept(Both(landed, more), paths + [path], effects, results + [r], stores')
  {
    hide InStore, Completes, Delivered, Total, GraphDocs;
    OneMoreIn(landed.cfg, paths, effects, results, stores.cfg, path, r, more.cfg, stores'.cfg,
              (r: FileResult) => r.cfgPersisted, (e: Effects) => e.cfg);
    OneMoreIn(landed.dfg, paths, effects, results, stores.dfg, path, r, more.dfg, stores'.dfg,
              (r: FileResult) => r.dfgPersisted, (e: Effects) => e.dfg);
  }

  lemma OneMoreIn(
      landed: multiset<Doc>, paths: seq<Path>, effects: Path -> Effects, results: seq<FileResult>,
      stored: set<nat>, path: Path, r: FileResult, more: multiset<Doc>, stored': set<nat>,
      count: FileResult -> int, graphs: Effects -> Option<seq<Doc>>)
    requires InStore(landed, Total(results, count), GraphDocs(paths, effects, graphs), stored)
    requires stored <= stored'
    requires var e := effects(path);
             if Completes(e) then InStore(more, count(r), multiset(Delivered(graphs(e))), stored')
             else more == multiset{} && count(r) == 0
    ensures InStore(landed + more, Total(results + [r], count),
                    GraphDocs(paths + [path], effects, graphs), stored')
  {
    hide InStore, Completes;
    assert (paths + [path])[..|paths|] == paths && (results + [r])[..|results|] == results;
    var e := effects(path);
    NoneInStore(stored');
    InStoreMore(landed, Total(results, count), GraphDocs(paths, effects, graphs), stored, more, count(r),
                if Completes(e) then multiset(Delivered(graphs(e))) else multiset{}, stored');
  }

  lemma NoneInStore(stored: set<nat>)
    ensures InStore(multiset{}, 0, multiset{}, stored)
  {
  }

  lemma {:induction false} TotalConcat<T>(a: seq<T>, b: seq<T>, f: T -> int)
    ensures Total(a + b, f) == Total(a, f) + Total(b, f)
  {
    if b == [] {
      assert a + b == a;
    } else {
      assert (a + b)[..|a + b| - 1] == a + b[..|b| - 1];
      TotalConcat(a, b[..|b| - 1], f);
    }
  }

  lemma {:induction false} GraphDocsConcat(
      a: seq<Path>, b: seq<Path>, effects: Path -> Effects, graphs: Effects -> Option<seq<Doc>>)
    ensures GraphDocs(a + b, effects, graphs)
            == GraphDocs(a, effects, graphs) + GraphDocs(b, effects, graphs)
  {
    if b == [] {
      assert a + b == a;
    } else {
      assert (a + b)[..|a + b| - 1] == a + b[..|b| - 1];
      GraphDocsConcat(a, b[..|b| - 1], effects, graphs);
    }
  }

  lemma KeptConcat(
      landed: Landed, a: seq<Path>, effects: Path -> Effects, ra: seq<FileResult>, stores: Stores,
      more: Landed, b: seq<Path>, rb: seq<FileResult>, stores': Stores)
    requires Kept(landed, a, effects, ra, stores) && Kept(more, b, effects, rb, stores')
    requires stores.Within(stores')
    ensures Kept(Both(landed, more), a + b, effects, ra + rb, stores')
  {
    hide InStore, Total, GraphDocs;
    TotalConcat(ra, rb, (r: FileResult) => r.cfgPersisted);
    TotalConcat(ra, rb, (r: FileResult) => r.dfgPersisted);
    GraphDocsConcat(a, b, effects, (e: Effects) => e.cfg);
    GraphDocsConcat(a, b, effects, (e: Effects) => e.dfg);
    InStoreMore(landed.cfg, Total(ra, (r: FileResult) => r.cfgPersisted),
                GraphDocs(a, effects, (e: Effects) => e.cfg), stores.cfg,
                more.cfg, Total(rb, (r: FileResult) => r.cfgPersisted),
                GraphDocs(b, effects, (e: Effects) => e.cfg), stores'.cfg);
    InStoreMore(landed.dfg, Total(ra, (r: FileResult) => r.dfgPersisted),
                GraphDocs(a, effects, (e: Effects) => e.dfg), stores.dfg,
                more.dfg, Total(rb, (r: FileResult) => r.dfgPersisted),
                GraphDocs(b, effects, (e: Effects) => e.dfg), stores'.dfg);
  }

  method ProcessFileBatch(
      server: Server, stores: Stores, paths: seq<Path>, effects: Path -> Effects,
      chunkSize: nat, maxAttempts: nat)
    returns (results: seq<FileResult>, stores': Stores, ghost landed: Landed)
    requires AlwaysHonest(server) && chunkSize >= 1
    ensures Reports(paths, effects, results)
    ensures stores.Within(stores') && Kept(landed, paths, effects, results, stores')
    ensures var w := Writer(server, chunkSize, maxAttempts);
            CountsAll(w, stores, paths, effects, results) && stores' == AfterFiles(w, stores, paths, effects)
  {
    hide Truthful, Completes, InStore, Kept, CountsFailures, CountsAll, AfterFiles;
    ghost var w := Writer(server, chunkSize, maxAttempts);
    results, stores', landed := [], stores, NONE_LANDED;
    NothingKept(effects, stores);
    NothingCounted(w, stores, effects);
    for k := 0 to |paths|
      invariant CountsAll(w, stores, paths[..k], effects, results)
      invariant stores' == AfterFiles(w, stores, paths[..k], effects)
      invariant Reports(paths[..k], effects, results)
      invariant stores.Within(stores') && Kept(landed, paths[..k], effects, results, stores')
    {
      var r, st, l :=
        ComputeFileRepresentations(server, stores', effects(paths[k]), chunkSize, maxAttempts);
      var result := if r.None? then SKIPPED else r.value;
      assert paths[..k + 1] == paths[..k] + [paths[k]];
      assert CountsFailures(w, stores', effects(paths[k]), result) by { SkipCountsNothing(w, stores', effects(paths[k])); }
      OneMoreCounts(w, stores, paths[..k], effects, results, paths[k], result);
      OneMoreKept(landed, paths[..k], effects, results, stores', paths[k], result, l, st);
      results, stores', landed := results + [result], st, Both(landed, l);
    }
    assert paths[..|paths|] == paths;
  }

  lemma SkipCountsNothing(w: Writer, stores: Stores, e: Effects)
    requires w.chunkSize >= 1
    ensures !Completes(e) ==> CountsFailures(w, stores, e, SKIPPED)
  {
  }

  lemma ReportsConcat(
      a: seq<Path>, b: seq<Path>, effects: Path -> Effects, ra: seq<FileResult>, rb: seq<FileResult>)
    requires Reports(a, effects, ra) && Reports(b, effects, rb)
    ensures Reports(a + b, effects, ra + rb)
  {
    hide Truthful, Completes;
  }

  // --------------------------------------------------- partitioning and batching

  /** The language a path is analyzed in, None for one that is only cataloged. */
  function LanguageOf(path: Path, detect: Path -> Option<Language>, targeted: set<Language>): Option<Language> {
    if detect(path).Some? && (targeted == {} || detect(path).value in targeted) then detect(path)
    else None
  }

  /** The paths of one language, or those only cataloged, in their order. */
  function OfLanguage(
      paths: seq<Path>, detect: Path -> Option<Language>, targeted: set<Language>, l: Option<Language>)
    : seq<Path>
  {
    if paths == [] then []
    else
      var n := |paths| - 1;
      OfLanguage(paths[..n], detect, targeted, l)
      + (if LanguageOf(paths[n], detect, targeted) == l then [paths[n]] else [])
  }

  lemma OfLanguageMore(
      paths: seq<Path>, path: Path, detect: Path -> Option<Language>, targeted: set<Language>,
      l: Option<Language>)
    ensures OfLanguage(paths + [path], detect, targeted, l)
            == OfLanguage(paths, detect, targeted, l)
               + (if LanguageOf(path, detect, targeted) == l then [path] else [])
  {
    assert (paths + [path])[..|paths|] == paths;
  }

  /** The analyzed paths, language by language in the given order. */
  ghost function Grouped(
      order: seq<Language>, paths: seq<Path>, detect: Path -> Option<Language>,
      targeted: set<Language>)
    : seq<Path>
  {
    if order == [] then []
    else
      var n := |order| - 1;
      Grouped(order[..n], paths, detect, targeted)
      + OfLanguage(paths, detect, targeted, Some(order[n]))
  }

  ghost predicate Distinct(order: seq<Language>) {
    forall i, j :: 0 <= i < j < |order| ==> order[i] != order[j]
  }

  lemma {:induction false} GroupedMore(
      order: seq<Language>, paths: seq<Path>, path: Path, detect: Path -> Option<Language>,
      targeted: set<Language>)
    requires Distinct(order)
    ensures var l := LanguageOf(path, detect, targeted);
            multiset(Grouped(order, paths + [path], detect, targeted))
            == multiset(Grouped(order, paths, detect, targeted))
               + (if l.Some? && l.value in order then multiset{path} else multiset{})
  {
    hide OfLanguage, LanguageOf;
    if order != [] {
      var n := |order| - 1;
      GroupedMore(order[..n], paths, path, detect, targeted);
      OfLanguageMore(paths, path, detect, targeted, Some(order[n]));
      assert forall l :: l in order <==> l in order[..n] || l == order[n];
    }
  }

  /** Every path is in exactly one group or in the rest. */
  lemma {:induction false} GroupsCover(
      order: seq<Language>, paths: seq<Path>, detect: Path -> Option<Language>,
      targeted: set<Language>)
    requires Distinct(order)
    requires forall l :: l !in order ==> OfLanguage(paths, detect, targeted, Some(l)) == []
    ensures multiset(paths)
            == multiset(Grouped(order, paths, detect, targeted))
               + multiset(OfLanguage(paths, detect, targeted, None))
  {
    hide OfLanguage, Grouped;
    if paths == [] {
      NoPathsGrouped(order, detect, targeted);
    } else {
      var n := |paths| - 1;
      assert paths == paths[..n] + [paths[n]];
      forall l: Language ensures OfLanguage(paths, detect, targeted, Some(l))
                       == OfLanguage(paths[..n], detect, targeted, Some(l))
                          + (if LanguageOf(paths[n], detect, targeted) == Some(l) then [paths[n]] else [])
      {
        OfLanguageMore(paths[..n], paths[n], detect, targeted, Some(l));
      }
      GroupsCover(order, paths[..n], detect, targeted);
      GroupedMore(order, paths[..n], paths[n], detect, targeted);
      OfLanguageMore(paths[..n], paths[n], detect, targeted, None);
    }
  }

  lemma {:induction false} NoPathsGrouped(
      order: seq<Language>, detect: Path -> Option<Language>, targeted: set<Language>)
    ensures Grouped(order, [], detect, targeted) == []
    ensures OfLanguage([], detect, targeted, None) == []
  {
    if order != [] { NoPathsGrouped(order[..|order| - 1], detect, targeted); }
  }

  ghost predicate Keyed(order: seq<Language>, groups: map<Language, seq<Path>>) {
    (forall l :: l in groups <==> l in order) && Distinct(order)
  }

  /**
   A path is in its language's group exactly when one is detected and, with languages
   targeted, targeted; otherwise it is among the others.
   */
  ghost predicate Placed(
      paths: seq<Path>, detect: Path -> Option<Language>, targeted: set<Language>,
      groups: map<Language, seq<Path>>, other: seq<Path>)
  {
    && (forall l, p :: l in groups && p in groups[l] ==>
          p in paths && detect(p) == Some(l) && (targeted == {} || l in targeted))
    && (forall p :: p in paths && detect(p).Some? && (targeted == {} || detect(p).value in targeted) ==>
          detect(p).value in groups && p in groups[detect(p).value])
    && (forall p :: p in other <==>
          && p in paths
          && (detect(p).None? || (targeted != {} && detect(p).value !in targeted)))
  }

  /**
   Sorts paths into groups by language and a rest. Every path goes to exactly one
   place, and each group is that language's paths in their order.
   */
  method Partition(paths: seq<Path>, detect: Path -> Option<Language>, targeted: set<Language>)
    returns (order: seq<Language>, groups: map<Language, seq<Path>>, other: seq<Path>)
    ensures Keyed(order, groups)
    ensures multiset(paths)
            == multiset(Grouped(order, paths, detect, targeted)) + multiset(other)
    ensures forall l :: l in groups ==> groups[l] == OfLanguage(paths, detect, targeted, Some(l))
    ensures other == OfLanguage(paths, detect, targeted, None)
    ensures Placed(paths, detect, targeted, groups, other)
  {
    hide OfLanguage, Grouped, Placed;
    order, groups, other := [], map[], [];
    NoneYet(detect, targeted);
    for k := 0 to |paths|
      invariant Keyed(order, groups)
      invariant forall l :: OfLanguage(paths[..k], detect, targeted, Some(l)) == Got(groups, l)
      invariant other == OfLanguage(paths[..k], detect, targeted, None)
    {
      var path := paths[k];
      assert paths[..k + 1] == paths[..k] + [path];
      forall l ensures OfLanguage(paths[..k + 1], detect, targeted, l)
                       == OfLanguage(paths[..k], detect, targeted, l)
                          + (if LanguageOf(path, detect, targeted) == l then [path] else [])
      {
        OfLanguageMore(paths[..k], path, detect, targeted, l);
      }
      var detected := detect(path);
      if detected.Some? && (targeted == {} || detected.value in targeted) {
        var l := detected.value;
        if l !in groups {
          order, groups := order + [l], groups[l := []];
        }
        groups := groups[l := groups[l] + [path]];
      } else {
        other := other + [path];
      }
    }
    assert paths[..|paths|] == paths;
    GroupsCover(order, paths, detect, targeted);
    Sorted(paths, detect, targeted, groups, other);
  }

  /** Where each path is found, when each group is its language's paths. */
  lemma Sorted(
      paths: seq<Path>, detect: Path -> Option<Language>, targeted: set<Language>,
      groups: map<Language, seq<Path>>, other: seq<Path>)
    requires forall l :: OfLanguage(paths, detect, targeted, Some(l)) == Got(groups, l)
    requires other == OfLanguage(paths, detect, targeted, None)
    ensures Placed(paths, detect, targeted, groups, other)
  {
    hide OfLanguage;
    forall l, p: Path | l in groups && p in groups[l]
      ensures p in paths && detect(p) == Some(l) && (targeted == {} || l in targeted)
    {
      assert groups[l] == Got(groups, l);
      InLanguage(paths, detect, targeted, Some(l), p);
    }
    forall p: Path | p in paths && detect(p).Some? && (targeted == {} || detect(p).value in targeted)
      ensures detect(p).value in groups && p in groups[detect(p).value]
    {
      assert p in Got(groups, detect(p).value) by {
        InLanguage(paths, detect, targeted, detect(p), p);
      }
    }
    forall p: Path
      ensures p in other <==>
              && p in paths
              && (detect(p).None? || (targeted != {} && detect(p).value !in targeted))
    {
      InLanguage(paths, detect, targeted, None, p);
    }
  }

  lemma {:induction false} InLanguage(
      paths: seq<Path>, detect: Path -> Option<Language>, targeted: set<Language>, l: Option<Language>,
      p: Path)
    ensures p in OfLanguage(paths, detect, targeted, l)
            <==> p in paths && LanguageOf(p, detect, targeted) == l
  {
    if paths != [] {
      var n := |paths| - 1;
      InLanguage(paths[..n], detect, targeted, l, p);
      assert forall x :: x in paths <==> x in paths[..n] || x == paths[n];
    }
  }

  function Got(groups: map<Language, seq<Path>>, l: Language): seq<Path> {
    if l in groups then groups[l] else []
  }

  lemma NoneYet(detect: Path -> Option<Language>, targeted: set<Language>)
    ensures forall l :: OfLanguage([], detect, targeted, l) == []
  {
  }

  // ------------------------------------------------------------- the whole analysis

  datatype Stats = Stats(
    filesDetected: nat, fileSuccess: int, fileFailed: int,
    astSuccess: nat, astFailed: nat,
    cfgSuccess: int, cfgFailed: int, cfgBuildFailed: nat,
    dfgSuccess: int, dfgFailed: int, dfgBuildFailed: nat,
    docSuccess: nat, docFailed: nat, ragSuccess: nat, ragFailed: nat)

  function StatsOf(detected: nat, catalogOk: int, catalogFailed: int, results: seq<FileResult>): Stats {
    Stats(
      detected,
      catalogOk + Count(results, (r: FileResult) => r.filePersisted),
      catalogFailed + Count(results, (r: FileResult) => !r.filePersisted),
      Count(results, (r: FileResult) => r.astPersisted),
      Count(results, (r: FileResult) => !r.astPersisted),
      Total(results, (r: FileResult) => r.cfgPersisted),
      Total(results, (r: FileResult) => r.cfgFailed),
      Count(results, (r: FileResult) => !r.cfgBuilt),
      Total(results, (r: FileResult) => r.dfgPersisted),
      Total(results, (r: FileResult) => r.dfgFailed),
      Count(results, (r: FileResult) => !r.dfgBuilt),
      Count(results, (r: FileResult) => r.docPersisted),
      Count(results, (r: FileResult) => !r.docPersisted),
      Count(results, (r: FileResult) => r.docPersisted && r.ragPersisted),
      Count(results, (r: FileResult) => r.docPersisted && !r.ragPersisted))
  }

  ghost function GraphsBuilt(
      paths: seq<Path>, effects: Path -> Effects, graphs: Effects -> Option<seq<Doc>>): nat
  {
    |GraphDocs(paths, effects, graphs)|
  }

  predicate AstStored(e: Effects) {
    Completes(e) && e.astPersisted
  }

  predicate Documented(e: Effects) {
    Completes(e) && e.documented
  }

  predicate Indexed(e: Effects) {
    Completes(e) && e.documented && e.content != "" && e.indexed
  }

  predicate HasCfg(e: Effects) {
    Completes(e) && e.cfg.Some?
  }

  predicate HasDfg(e: Effects) {
    Completes(e) && e.dfg.Some?
  }

  /** What the statistics of the analyzed files say about them, one figure at a time. */
  ghost predicate Tells(st: Stats, analyzed: seq<Path>, effects: Path -> Effects) {
    && st.astSuccess == Count(analyzed, p => AstStored(effects(p)))
    && st.docSuccess == Count(analyzed, p => Documented(effects(p)))
    && st.ragSuccess == Count(analyzed, p => Indexed(effects(p)))
    && st.cfgBuildFailed == |analyzed| - Count(analyzed, p => HasCfg(effects(p)))
    && st.dfgBuildFailed == |analyzed| - Count(analyzed, p => HasDfg(effects(p)))
  }

  /** What the statistics of an analysis must add up to. */
  ghost predicate Balanced(
      st: Stats, paths: seq<Path>, analyzed: seq<Path>, effects: Path -> Effects, catalogued: nat)
  {
    && st.filesDetected == |paths| && st.fileSuccess + st.fileFailed == |paths|
    && st.fileSuccess == catalogued + Count(analyzed, p => Completes(effects(p)))
    && catalogued + |analyzed| <= |paths| && st.fileFailed >= 0
    && Tells(st, analyzed, effects)
    && st.astSuccess + st.astFailed == |analyzed|
    && st.docSuccess + st.docFailed == |analyzed|
    && st.ragSuccess + st.ragFailed == st.docSuccess
    && st.cfgSuccess >= 0 && st.cfgFailed >= 0 && st.dfgSuccess >= 0 && st.dfgFailed >= 0
    && st.cfgSuccess + st.cfgFailed == GraphsBuilt(analyzed, effects, (e: Effects) => e.cfg)
    && st.dfgSuccess + st.dfgFailed == GraphsBuilt(analyzed, effects, (e: Effects) => e.dfg)
  }

  lemma {:induction false} StatsBalance(
      detected: nat, ok: int, failed: int, analyzed: seq<Path>, effects: Path -> Effects,
      results: seq<FileResult>)
    requires Reports(analyzed, effects, results)
    ensures var st := StatsOf(detected, ok, failed, results);
            && st.fileSuccess + st.fileFailed == ok + failed + |analyzed|
            && st.fileSuccess == ok + Count(analyzed, p => Completes(effects(p)))
            && st.fileFailed >= failed && Tells(st, analyzed, effects)
            && st.astSuccess + st.astFailed == |analyzed|
            && st.docSuccess + st.docFailed == |analyzed|
            && st.ragSuccess + st.ragFailed == st.docSuccess
            && st.cfgSuccess >= 0 && st.cfgFailed >= 0 && st.dfgSuccess >= 0 && st.dfgFailed >= 0
            && st.cfgSuccess + st.cfgFailed == GraphsBuilt(analyzed, effects, (e: Effects) => e.cfg)
            && st.dfgSuccess + st.dfgFailed == GraphsBuilt(analyzed, effects, (e: Effects) => e.dfg)
    decreases |results|
  {
    if results != [] {
      var n := |results| - 1;
      StatsBalance(detected, ok, failed, analyzed[..n], effects, results[..n]);
    }
  }

  function ExtensionsOf(paths: seq<Path>, ext: Path -> string, x: string): nat {
    Count(paths, p => ext(p) == x)
  }

  /** The tally of a list of extensions. */
  function Tally(keys: seq<string>, counter: map<string, nat>): nat
    requires forall k :: k in keys ==> k in counter
  {
    if keys == [] then 0 else Tally(keys[..|keys| - 1], counter) + counter[keys[|keys| - 1]]
  }

  lemma {:induction false} TallyBump(keys: seq<string>, counter: map<string, nat>, x: string, n: nat)
    requires forall k :: k in keys ==> k in counter
    requires forall i, j :: 0 <= i < j < |keys| ==> keys[i] != keys[j]
    ensures Tally(keys, counter[x := n])
            == Tally(keys, counter) + (if x in keys then n - counter[x] else 0)
  {
    if keys != [] {
      var m := |keys| - 1;
      TallyBump(keys[..m], counter, x, n);
      assert forall k :: k in keys <==> k in keys[..m] || k == keys[m];
    }
  }

  lemma TallyNew(keys: seq<string>, counter: map<string, nat>, x: string)
    requires (forall k :: k in keys ==> k in counter) && x in counter
    ensures Tally(keys + [x], counter) == Tally(keys, counter) + counter[x]
  {
    assert (keys + [x])[..|keys|] == keys;
  }

  lemma NoExtensions(ext: Path -> string)
    ensures Tally([], map[]) == 0 && forall x :: ExtensionsOf([], ext, x) == 0
  {
  }

  lemma OneMoreExtension(paths: seq<Path>, path: Path, ext: Path -> string, x: string)
    ensures ExtensionsOf(paths + [path], ext, x)
            == ExtensionsOf(paths, ext, x) + (if ext(path) == x then 1 else 0)
  {
    CountAppend(paths, path, p => ext(p) == x);
  }

  /** How many detected files have each extension; together, all of them. */
  method CountExtensions(paths: seq<Path>, ext: Path -> string)
    returns (keys: seq<string>, counter: map<string, nat>)
    ensures forall k :: k in keys <==> k in counter
    ensures forall i, j :: 0 <= i < j < |keys| ==> keys[i] != keys[j]
    ensures forall k :: k in counter ==> counter[k] == ExtensionsOf(paths, ext, k)
    ensures Tally(keys, counter) == |paths|
  {
    hide ExtensionsOf, Tally;
    keys, counter := [], map[];
    NoExtensions(ext);
    for k := 0 to |paths|
      invariant forall x :: x in keys <==> x in counter
      invariant forall i, j :: 0 <= i < j < |keys| ==> keys[i] != keys[j]
      invariant forall x :: ExtensionsOf(paths[..k], ext, x) == (if x in counter then counter[x] else 0)
      invariant Tally(keys, counter) == k
    {
      var x := ext(paths[k]);
      assert paths[..k + 1] == paths[..k] + [paths[k]];
      forall y ensures ExtensionsOf(paths[..k + 1], ext, y)
                       == ExtensionsOf(paths[..k], ext, y) + (if x == y then 1 else 0)
      {
        OneMoreExtension(paths[..k], paths[k], ext, y);
      }
      if x !in counter {
        TallyBump(keys, counter, x, 0);
        TallyNew(keys, counter[x := 0], x);
        keys, counter := keys + [x], counter[x := 0];
      }
      TallyBump(keys, counter, x, counter[x] + 1);
      counter := counter[x := counter[x] + 1];
    }
    assert paths[..|paths|] == paths;
  }

  /** One document for each path. */
  function DocsOf(paths: seq<Path>, doc: Path -> Doc): seq<Doc> {
    seq(|paths|, i requires 0 <= i < |paths| => doc(paths[i]))
  }

  /** The documents counted for these paths: as many as that, theirs, and in the store. */
  ghost predicate Catalogued(
      landed: multiset<Doc>, succeeded: int, paths: seq<Path>, doc: Path -> Doc, stored: set<nat>)
  {
    InStore(landed, succeeded, multiset(DocsOf(paths, doc)), stored)
  }

  /** The files kept without analysis: one document each. */
  method PersistFileDocuments(
      server: Server, stored: set<nat>, paths: seq<Path>, doc: Path -> Doc,
      chunkSize: nat, maxAttempts: nat)
    returns (stored': set<nat>, succeeded: int, failed: int, ghost landed: multiset<Doc>)
    requires AlwaysHonest(server) && chunkSize >= 1
    ensures succeeded >= 0 && failed >= 0 && succeeded + failed == |paths|
    ensures stored <= stored' && Catalogued(landed, succeeded, paths, doc, stored')
    ensures failed == Failures(server, stored, DocsOf(paths, doc), chunkSize, maxAttempts)
    ensures stored' == StoredBy(server, stored, DocsOf(paths, doc), chunkSize, maxAttempts)
  {
    var docs := DocsOf(paths, doc);
    var st, s, f, codes, sent, l, lost := InsertMany(server, stored, docs, chunkSize, maxAttempts);
    return st, s, f, l;
  }

  lemma CataloguedMore(
      a: multiset<Doc>, s: int, paths: seq<Path>, stored: set<nat>,
      b: multiset<Doc>, t: int, more: seq<Path>, stored': set<nat>, doc: Path -> Doc)
    requires Catalogued(a, s, paths, doc, stored) && Catalogued(b, t, more, doc, stored')
    requires stored <= stored'
    ensures Catalogued(a + b, s + t, paths + more, doc, stored')
  {
    assert DocsOf(paths + more, doc) == DocsOf(paths, doc) + DocsOf(more, doc);
    InStoreMore(a, s, multiset(DocsOf(paths, doc)), stored, b, t, multiset(DocsOf(more, doc)), stored');
  }

  /** The file collection after these batches of the catalog, and how many documents failed. */
  function AfterCatalog(w: Writer, stored: set<nat>, batches: seq<seq<Path>>, doc: Path -> Doc): set<nat>
    requires w.chunkSize >= 1
  {
    if batches == [] then stored
    else
      var n := |batches| - 1;
      StoredBy(w.server, AfterCatalog(w, stored, batches[..n], doc), DocsOf(batches[n], doc),
               w.chunkSize, w.maxAttempts)
  }

  function CatalogFailures(w: Writer, stored: set<nat>, batches: seq<seq<Path>>, doc: Path -> Doc): nat
    requires w.chunkSize >= 1
  {
    if batches == [] then 0
    else
      var n := |batches| - 1;
      CatalogFailures(w, stored, batches[..n], doc)
      + Failures(w.server, AfterCatalog(w, stored, batches[..n], doc), DocsOf(batches[n], doc),
                 w.chunkSize, w.maxAttempts)
  }

  /** With a server that reports no error, every document of the catalog is counted. */
  lemma {:induction false} CatalogComplete(w: Writer, stored: set<nat>, batches: seq<seq<Path>>, doc: Path -> Doc)
    requires w.chunkSize >= 1 && w.maxAttempts >= 1
    requires forall n, st, chunk :: w.server(n, st, chunk).errors == []
    ensures CatalogFailures(w, stored, batches, doc) == 0
  {
    if batches != [] {
      var n := |batches| - 1;
      CatalogComplete(w, stored, batches[..n], doc);
      UnerringFailsNothing(w.server, AfterCatalog(w, stored, batches[..n], doc), DocsOf(batches[n], doc),
                           w.chunkSize, w.maxAttempts);
    }
  }

  /** And so is every graph, where writing does not raise. */
  lemma {:induction false} GraphsComplete(w: Writer, stored: set<nat>, graphs: Option<seq<Doc>>)
    requires w.chunkSize >= 1 && w.maxAttempts >= 1
    requires forall n, st, chunk :: w.server(n, st, chunk).errors == []
    ensures GraphFailures(w, stored, graphs, None) == 0
  {
    if graphs.Some? {
      UnerringFailsNothing(w.server, stored, graphs.value, w.chunkSize, w.maxAttempts);
    }
  }

  /** The rest of the catalog, batch by batch. */
  method CatalogBatches(
      server: Server, stored: set<nat>, paths: seq<Path>, doc: Path -> Doc, batchSize: nat,
      chunkSize: nat, maxAttempts: nat)
    returns (stored': set<nat>, succeeded: int, failed: int, ghost landed: multiset<Doc>)
    requires AlwaysHonest(server) && chunkSize >= 1 && batchSize >= 1
    ensures succeeded >= 0 && failed >= 0 && succeeded + failed == |paths|
    ensures Catalogued(landed, succeeded, paths, doc, stored')
    ensures var w := Writer(server, chunkSize, maxAttempts);
            && failed == CatalogFailures(w, stored, Batches(paths, batchSize), doc)
            && stored' == AfterCatalog(w, stored, Batches(paths, batchSize), doc)
  {
    hide Catalogued, Failures, StoredBy, DocsOf;
    ghost var w := Writer(server, chunkSize, maxAttempts);
    NothingCatalogued(doc, stored);
    var batches := Batches(paths, batchSize);
    stored', succeeded, failed, landed := stored, 0, 0, multiset{};
    for k := 0 to |batches|
      invariant succeeded >= 0 && failed >= 0
      invariant succeeded + failed == |Flatten(batches[..k])|
      invariant Catalogued(landed, succeeded, Flatten(batches[..k]), doc, stored')
      invariant failed == CatalogFailures(w, stored, batches[..k], doc)
      invariant stored' == AfterCatalog(w, stored, batches[..k], doc)
    {
      var st, s, f, l :=
        PersistFileDocuments(server, stored', batches[k], doc, chunkSize, maxAttempts);
      assert batches[..k + 1] == batches[..k] + [batches[k]];
      FlattenAppend(batches[..k], batches[k]);
      CataloguedMore(landed, succeeded, Flatten(batches[..k]), stored', l, s, batches[k], st, doc);
      stored', succeeded, failed, landed := st, succeeded + s, failed + f, landed + l;
    }
    assert batches[..|batches|] == batches;
  }

  lemma NothingCatalogued(doc: Path -> Doc, stored: set<nat>)
    ensures Catalogued(multiset{}, 0, [], doc, stored)
  {
  }

  /** One language's files, batch by batch. */
  method AnalyzeBatches(
      server: Server, stores: Stores, paths: seq<Path>, effects: Path -> Effects, batchSize: nat,
      chunkSize: nat, maxAttempts: nat)
    returns (results: seq<FileResult>, stores': Stores, ghost landed: Landed)
    requires AlwaysHonest(server) && chunkSize >= 1 && batchSize >= 1
    ensures Reports(paths, effects, results)
    ensures stores.Within(stores') && Kept(landed, paths, effects, results, stores')
    ensures var w := Writer(server, chunkSize, maxAttempts);
            CountsAll(w, stores, paths, effects, results) && stores' == AfterFiles(w, stores, paths, effects)
  {
    hide Reports, Kept, CountsAll, AfterFiles;
    ghost var w := Writer(server, chunkSize, maxAttempts);
    NothingCounted(w, stores, effects);
    var batches := Batches(paths, batchSize);
    results, stores', landed := [], stores, NONE_LANDED;
    NothingReported(effects);
    NothingKept(effects, stores);
    for k := 0 to |batches|
      invariant Reports(Flatten(batches[..k]), effects, results)
      invariant stores.Within(stores') && Kept(landed, Flatten(batches[..k]), effects, results, stores')
      invariant CountsAll(w, stores, Flatten(batches[..k]), effects, results)
      invariant stores' == AfterFiles(w, stores, Flatten(batches[..k]), effects)
    {
      var rs, st, l := ProcessFileBatch(server, stores', batches[k], effects, chunkSize, maxAttempts);
      assert batches[..k + 1] == batches[..k] + [batches[k]];
      FlattenAppend(batches[..k], batches[k]);
      ReportsConcat(Flatten(batches[..k]), batches[k], effects, results, rs);
      KeptConcat(landed, Flatten(batches[..k]), effects, results, stores', l, batches[k], rs, st);
      CountsConcat(w, stores, Flatten(batches[..k]), results, batches[k], rs, effects);
      results, stores', landed := results + rs, st, Both(landed, l);
    }
    assert batches[..|batches|] == batches;
  }

  lemma NothingReported(effects: Path -> Effects)
    ensures Reports([], effects, [])
  {
  }

  /** The integrity gate: files were found and none is counted as recorded. */
  predicate Gate(st: Stats) {
    st.filesDetected > 0 && st.fileSuccess == 0
  }

  /** The file documents written: those catalogued, and those of the files analyzed. */
  function Recorded(analyzed: seq<Path>, effects: Path -> Effects, catalogued: nat): nat {
    catalogued + Count(analyzed, p => effects(p).fileStored)
  }

  /**
   The analysis. Its statistics account for every detected file once and for every
   graph built, what they count as persisted is stored, and what they count as failed
   is what the insertions gave up. It fails exactly when files were found, none was
   catalogued and none was processed to the end.
   */
  method Analyze(
      server: Server, stored: set<nat>, stores: Stores, paths: seq<Path>,
      detect: Path -> Option<Language>, targeted: set<Language>, effects: Path -> Effects,
      doc: Path -> Doc, ext: Path -> string, batchSize: nat, chunkSize: nat, maxAttempts: nat)
    returns (ok: bool, stats: Stats, extensions: seq<string>, byExtension: map<string, nat>,
             catalogued: nat, stored': set<nat>, stores': Stores,
             ghost analyzed: seq<Path>, ghost landed: multiset<Doc>, ghost graphs: Landed,
             ghost results: seq<FileResult>)
    requires AlwaysHonest(server) && chunkSize >= 1 && batchSize >= 1
    ensures multiset(paths)
            == multiset(analyzed) + multiset(OfLanguage(paths, detect, targeted, None))
    ensures Balanced(stats, paths, analyzed, effects, catalogued)
    ensures Catalogued(landed, catalogued, OfLanguage(paths, detect, targeted, None), doc, stored')
    ensures InStore(graphs.cfg, stats.cfgSuccess, GraphDocs(analyzed, effects, (e: Effects) => e.cfg), stores'.cfg)
    ensures InStore(graphs.dfg, stats.dfgSuccess, GraphDocs(analyzed, effects, (e: Effects) => e.dfg), stores'.dfg)
    ensures (forall x :: x in extensions <==> x in byExtension)
            && Tally(extensions, byExtension) == stats.filesDetected
    ensures var w, other := Writer(server, chunkSize, maxAttempts), OfLanguage(paths, detect, targeted, None);
            && Reports(analyzed, effects, results) && CountsAll(w, stores, analyzed, effects, results)
            && catalogued + CatalogFailures(w, stored, Batches(other, batchSize), doc) == |other|
            && stats == StatsOf(|paths|, catalogued, |other| - catalogued, results)
            && stores' == AfterFiles(w, stores, analyzed, effects)
    ensures !ok <==> && paths != [] && catalogued == 0
                     && forall p :: p in analyzed ==> !Completes(effects(p))
  {
    hide OfLanguage, Grouped, Reports, StatsOf, GraphsBuilt, Tells, Catalogued, Kept, InStore,
         CountsAll, AfterFiles, AfterCatalog, CatalogFailures, DocsOf, Batches, Completes, GraphDocs,
         Total, Tally;
    ghost var w := Writer(server, chunkSize, maxAttempts);
    var order, groups, other := Partition(paths, detect, targeted);
    var st, catalogOk, catalogFailed, l :=
      CatalogBatches(server, stored, other, doc, batchSize, chunkSize, maxAttempts);
    catalogued, stored', landed := catalogOk, st, l;
    var rows: seq<FileResult> := [];
    NothingCounted(w, stores, effects);
    stores', graphs := stores, NONE_LANDED;
    NothingReported(effects);
    NothingKept(effects, stores);
    NoGroups(paths, detect, targeted);
    for k := 0 to |order|
      invariant Reports(Grouped(order[..k], paths, detect, targeted), effects, rows)
      invariant Kept(graphs, Grouped(order[..k], paths, detect, targeted), effects, rows, stores')
      invariant CountsAll(w, stores, Grouped(order[..k], paths, detect, targeted), effects, rows)
      invariant stores' == AfterFiles(w, stores, Grouped(order[..k], paths, detect, targeted), effects)
    {
      var l := order[k];
      var rs, st, more :=
        AnalyzeBatches(server, stores', groups[l], effects, batchSize, chunkSize, maxAttempts);
      assert order[..k + 1] == order[..k] + [l];
      OneMoreGroup(order[..k], l, paths, detect, targeted);
      ReportsConcat(Grouped(order[..k], paths, detect, targeted), groups[l], effects, rows, rs);
      KeptConcat(graphs, Grouped(order[..k], paths, detect, targeted), effects, rows, stores',
                 more, groups[l], rs, st);
      CountsConcat(w, stores, Grouped(order[..k], paths, detect, targeted), rows, groups[l], rs, effects);
      rows, stores', graphs := rows + rs, st, Both(graphs, more);
    }
    assert order[..|order|] == order;
    analyzed, results := Grouped(order, paths, detect, targeted), rows;
    extensions, byExtension := CountExtensions(paths, ext);
    stats := StatsOf(|paths|, catalogOk, catalogFailed, rows);
    StatsBalance(|paths|, catalogOk, catalogFailed, analyzed, effects, rows);
    SameSize(paths, analyzed, other);
    DetectedIs(|paths|, catalogOk, catalogFailed, rows);
    StoredAsCounted(graphs, analyzed, effects, rows, stores', |paths|, catalogOk, catalogFailed);
    NoneSatisfy(analyzed, p => Completes(effects(p)));
    ok := !Gate(stats);
  }

  lemma {:induction false} NoneSatisfy<T>(s: seq<T>, f: T -> bool)
    ensures Count(s, f) == 0 <==> forall x :: x in s ==> !f(x)
  {
    if forall x :: x in s ==> !f(x) {
      CountNone(s, f);
    } else {
      var x :| x in s && f(x);
      var i :| 0 <= i < |s| && s[i] == x;
      CountPositive(s, i, f);
    }
  }

  /**
   The gate never misses a run that recorded nothing. It fails a run that did record
   file documents exactly when none came from the catalogue and, of the files whose
   document was written, none was processed to the end.
   */
  lemma {:induction false} GateTellsExactly(
      st: Stats, paths: seq<Path>, analyzed: seq<Path>, effects: Path -> Effects, catalogued: nat)
    requires Balanced(st, paths, analyzed, effects, catalogued)
    ensures paths != [] && Recorded(analyzed, effects, catalogued) == 0 ==> Gate(st)
    ensures Gate(st) && Recorded(analyzed, effects, catalogued) > 0
            <==> && catalogued == 0 && (exists p :: p in analyzed && effects(p).fileStored)
                 && (forall p :: p in analyzed ==> !Completes(effects(p)))
  {
    NoneSatisfy(analyzed, p => Completes(effects(p)));
    NoneSatisfy(analyzed, p => effects(p).fileStored);
  }

  /** One file whose document is written but whose source cannot be read fails the run. */
  lemma StoredButFailed(p: Path, effects: Path -> Effects)
    requires effects(p).fileStored && !effects(p).sourceRead
    ensures var st := StatsOf(1, 0, 0, [SKIPPED]);
            && Balanced(st, [p], [p], effects, 0)
            && Recorded([p], effects, 0) == 1 && Gate(st)
  {
    assert Reports([p], effects, [SKIPPED]);
    StatsBalance(1, 0, 0, [p], effects, [SKIPPED]);
    NoneSatisfy([p], q => Completes(effects(q)));
    CountAppend([], p, q => effects(q).fileStored);
    assert [] + [p] == [p];
  }

  lemma StoredAsCounted(
      graphs: Landed, analyzed: seq<Path>, effects: Path -> Effects, results: seq<FileResult>,
      stores: Stores, detected: nat, ok: int, failed: int)
    requires Kept(graphs, analyzed, effects, results, stores)
    ensures var st := StatsOf(detected, ok, failed, results);
            && InStore(graphs.cfg, st.cfgSuccess, GraphDocs(analyzed, effects, (e: Effects) => e.cfg), stores.cfg)
            && InStore(graphs.dfg, st.dfgSuccess, GraphDocs(analyzed, effects, (e: Effects) => e.dfg), stores.dfg)
  {
    hide InStore;
  }

  lemma DetectedIs(detected: nat, ok: int, failed: int, results: seq<FileResult>)
    ensures StatsOf(detected, ok, failed, results).filesDetected == detected
  {
  }

  lemma NoGroups(paths: seq<Path>, detect: Path -> Option<Language>, targeted: set<Language>)
    ensures Grouped([], paths, detect, targeted) == []
  {
  }

  lemma OneMoreGroup(
      order: seq<Language>, l: Language, paths: seq<Path>, detect: Path -> Option<Language>,
      targeted: set<Language>)
    ensures Grouped(order + [l], paths, detect, targeted)
            == Grouped(order, paths, detect, targeted) + OfLanguage(paths, detect, targeted, Some(l))
  {
    assert (order + [l])[..|order|] == order;
  }

  lemma SameSize(paths: seq<Path>, a: seq<Path>, b: seq<Path>)
    requires multiset(paths) == multiset(a) + multiset(b)
    ensures |paths| == |a| + |b|
  {
    assert |multiset(paths)| == |paths| && |multiset(a)| == |a| && |multiset(b)| == |b|;
  }
}
