/** The content walk of `build_site` (src/injest/build.rs:134-225): the walker's entries are
    sorted by depth (a stable sort), then every `index.md` / `index.html` is split into front
    matter and body, recorded in `pages`, classified into `sc_backing`, and its directory
    components are inserted into the `site_children` graph. */
module BuildWalk {
  import opened Wrappers
  import opened Meta
  import opened Paths
  import opened BuildConfig

  /** What mapping a walked file gives: its text, nothing (a directory or an unreadable file,
      which the source maps to an empty buffer), or bytes that are not UTF-8. */
  datatype FileData = Unreadable | Utf8(text: string) | NotUtf8

  /** One entry of the directory walk (`ignore::DirEntry`), with its depth below the root. */
  datatype WalkEntry = WalkEntry(path: string, depth: nat, data: FileData)

  /** The TOML deserialisation of a front matter is not modelled: it is any partial
      function from text to `ConfigMeta`. */
  type ConfigParser = string -> Option<ConfigMeta>

  datatype BuildError =
    | StripPrefix          // the entry is not below the site root
    | FolderName           // "folder cannot start with non-ascii-alphanumeric character!"
    | NotUtf8Content       // `from_utf8` failed on an index document
    | TomlError            // the front matter does not deserialise
    | BadConfiguration     // more than one of category / subcategory / series / redirect

  // ---------------------------------------------------------------------------------------
  // Depth order: `sitebuild_traveller.sort_by(|a, b| a.depth().cmp(&b.depth()))`, a stable sort.

  ghost predicate SortedByDepth(s: seq<WalkEntry>)
  {
    forall i, j :: 0 <= i < j < |s| ==> s[i].depth <= s[j].depth
  }

  /** `x` placed before the first entry that is not shallower than it. */
  function InsertByDepth(x: WalkEntry, s: seq<WalkEntry>): seq<WalkEntry>
  {
    if s == [] then [x]
    else if x.depth <= s[0].depth then [x] + s
    else [s[0]] + InsertByDepth(x, s[1..])
  }

  /** The walk entries in non-decreasing depth, entries of equal depth in their walk order. */
  function SortByDepth(s: seq<WalkEntry>): seq<WalkEntry>
  {
    if s == [] then [] else InsertByDepth(s[0], SortByDepth(s[1..]))
  }

  /** The entries of depth `d`, in order. */
  function AtDepth(s: seq<WalkEntry>, d: nat): seq<WalkEntry>
  {
    if s == [] then []
    else (if s[0].depth == d then [s[0]] else []) + AtDepth(s[1..], d)
  }

  lemma {:induction false} InsertByDepthMultiset(x: WalkEntry, s: seq<WalkEntry>)
    ensures multiset(InsertByDepth(x, s)) == multiset(s) + multiset{x}
  {
    if s != [] && x.depth > s[0].depth {
      InsertByDepthMultiset(x, s[1..]);
      assert s == [s[0]] + s[1..];
    }
  }

  lemma {:induction false} InsertByDepthBound(x: WalkEntry, s: seq<WalkEntry>, m: nat)
    requires x.depth >= m && forall i :: 0 <= i < |s| ==> s[i].depth >= m
    ensures forall i :: 0 <= i < |InsertByDepth(x, s)| ==> InsertByDepth(x, s)[i].depth >= m
  {
    if s != [] && x.depth > s[0].depth {
      InsertByDepthBound(x, s[1..], m);
    }
  }

  lemma {:induction false} InsertByDepthSorted(x: WalkEntry, s: seq<WalkEntry>)
    requires SortedByDepth(s)
    ensures SortedByDepth(InsertByDepth(x, s))
  {
    if s != [] && x.depth > s[0].depth {
      InsertByDepthSorted(x, s[1..]);
      InsertByDepthBound(x, s[1..], s[0].depth);
    }
  }

  lemma AtDepthCons(e: WalkEntry, t: seq<WalkEntry>, d: nat)
    ensures AtDepth([e] + t, d) == (if e.depth == d then [e] else []) + AtDepth(t, d)
  {
    assert ([e] + t)[0] == e;
    assert ([e] + t)[1..] == t;
  }

  lemma {:induction false} InsertByDepthAtDepth(x: WalkEntry, s: seq<WalkEntry>, d: nat)
    ensures AtDepth(InsertByDepth(x, s), d) == (if x.depth == d then [x] else []) + AtDepth(s, d)
  {
    if s == [] {
      AtDepthCons(x, [], d);
    } else if x.depth <= s[0].depth {
      AtDepthCons(x, s, d);
    } else {
      var t := InsertByDepth(x, s[1..]);
      InsertByDepthAtDepth(x, s[1..], d);
      AtDepthCons(s[0], t, d);
      var rest := AtDepth(s[1..], d);
      assert AtDepth(t, d) == (if x.depth == d then [x] else []) + rest;
      assert AtDepth(s, d) == (if s[0].depth == d then [s[0]] else []) + rest;
      if x.depth == d {
        assert s[0].depth != d;
        assert AtDepth(s, d) == rest;
        assert AtDepth([s[0]] + t, d) == AtDepth(t, d);
      } else {
        assert AtDepth(t, d) == rest;
      }
    }
  }

  /** The sorted walk is ordered by depth and holds exactly the walked entries. */
  lemma {:induction false} SortByDepthSorted(s: seq<WalkEntry>)
    ensures SortedByDepth(SortByDepth(s))
    ensures multiset(SortByDepth(s)) == multiset(s)
  {
    if s != [] {
      SortByDepthSorted(s[1..]);
      InsertByDepthSorted(s[0], SortByDepth(s[1..]));
      InsertByDepthMultiset(s[0], SortByDepth(s[1..]));
      assert s == [s[0]] + s[1..];
    }
  }

  /** The sort is stable: the entries of each depth keep their walk order. */
  lemma {:induction false} SortByDepthStable(s: seq<WalkEntry>, d: nat)
    ensures AtDepth(SortByDepth(s), d) == AtDepth(s, d)
  {
    if s != [] {
      SortByDepthStable(s[1..], d);
      InsertByDepthAtDepth(s[0], SortByDepth(s[1..]), d);
    }
  }

  // ---------------------------------------------------------------------------------------
  // What one walk entry does.

  /** The decision `build_site` takes for one walk entry. */
  datatype EntryAction =
    | Skip
    | Fail(error: BuildError)
    | AddIndex(key: string, dir: seq<string>, page: PageMeta, body: Option<string>,
               kind: Result<ConfigurationType, ConfigError>)

  predicate IsIndexName(name: string)
  {
    name == "index.md" || name == "index.html"
  }

  /** The text `from_utf8` gives for a mapped file, if any. */
  function TextOf(data: FileData): Option<string>
  {
    match data
    case Unreadable => Some("")
    case Utf8(t) => Some(t)
    case NotUtf8 => None
  }

  /** The action for one entry: relativise its path against the site root, skip the root
      itself, reject a path ending in `..`, and for an index document split and parse its
      front matter; every other file is skipped. */
  function ActionOf(base: string, entry: WalkEntry, parse: ConfigParser): EntryAction
  {
    match PathRelativize(base, entry.path)
    case Err(_) => Fail(StripPrefix)
    case Ok(pathStr) =>
      var comps := Components(pathStr);
      if comps == [] then Skip
      else if comps[|comps| - 1] == ".." then Fail(FolderName)
      else if !IsIndexName(comps[|comps| - 1]) then Skip
      else
        match TextOf(entry.data)
        case None => Fail(NotUtf8Content)
        case Some(text) =>
          var (cfg, body) := SplitFrontMatter(text);
          match parse(cfg)
          case None => Fail(TomlError)
          case Some(meta) => AddIndex(pathStr, comps[..|comps| - 1], meta.page, body, Classify(meta))
  }

  predicate Fails(a: EntryAction)
  {
    a.Fail? || (a.AddIndex? && a.kind.Err?)
  }

  /** An index document below the root with a front matter that parses is recorded under its
      relative path, with the page part of its front matter, the body after the first `===`,
      its directory components, and its classification. */
  lemma IndexEntryAction(base: seq<string>, dir: seq<string>, name: string, depth: nat, text: string,
                         parse: ConfigParser)
    requires AllComponents(base) && AllComponents(dir) && IsIndexName(name)
    requires parse(SplitFrontMatter(text).0).Some?
    ensures var meta := parse(SplitFrontMatter(text).0).value;
            ActionOf(Join(base), WalkEntry(Join(base + dir + [name]), depth, Utf8(text)), parse)
            == AddIndex(Join(dir + [name]), dir, meta.page, SplitFrontMatter(text).1, Classify(meta))
  {
    assert '/' !in name by {
      assert name == "index.md" || name == "index.html";
    }
    assert AllComponents(dir + [name]);
    assert base + dir + [name] == base + (dir + [name]);
    RelativizeJoined(base, dir + [name]);
    ComponentsJoin(dir + [name]);
    assert (dir + [name])[..|dir|] == dir;
  }

  /** Files that are not index documents leave the build untouched. */
  lemma OtherFilesSkipped(base: seq<string>, path: seq<string>, depth: nat, data: FileData, parse: ConfigParser)
    requires AllComponents(base) && AllComponents(path) && path != [] && !IsIndexName(path[|path| - 1])
    requires path[|path| - 1] != ".."
    ensures ActionOf(Join(base), WalkEntry(Join(base + path), depth, data), parse) == Skip
  {
    RelativizeJoined(base, path);
    ComponentsJoin(path);
  }

  // ---------------------------------------------------------------------------------------
  // The state `build_site` builds up.

  /** An edge `cs[k-1] -> cs[k]` that inserting the first `n` components of `cs` into a graph
      with the nodes `nodes` adds: `cs[k]` was not yet a node and a previous component exists. */
  ghost predicate NewEdge(nodes: set<string>, cs: seq<string>, n: int, e: (string, string))
    requires n <= |cs|
  {
    exists k :: 0 < k < n && cs[k - 1] != "" && cs[k] !in nodes && cs[k] !in cs[..k] && e == (cs[k - 1], cs[k])
  }

  /** An index document is recorded: its key is in `pages` and `sc_backing`, and each of its
      directory components is a node of the graph. */
  predicate Recorded(a: EntryAction, pages: map<string, (PageMeta, Option<string>)>,
                     scBacking: map<string, ConfigurationType>, nodes: set<string>)
    requires a.AddIndex?
  {
    a.key in pages && a.key in scBacking && forall c :: c in a.dir ==> c in nodes
  }

  /** Recording survives growing maps and node sets. */
  lemma RecordedGrows(a: EntryAction, p: map<string, (PageMeta, Option<string>)>, q: map<string, ConfigurationType>,
                      n: set<string>, p': map<string, (PageMeta, Option<string>)>, q': map<string, ConfigurationType>,
                      n': set<string>)
    requires a.AddIndex? && Recorded(a, p, q, n)
    requires p.Keys <= p'.Keys && q.Keys <= q'.Keys && n <= n'
    ensures Recorded(a, p', q', n')
  {
  }

  /** The state of a build: `pages`, `sc_backing` and the `site_children` graph. */
  datatype Site = Site(pages: map<string, (PageMeta, Option<string>)>, scBacking: map<string, ConfigurationType>,
                       nodes: set<string>, edges: set<(string, string)>)

  const EmptySite := Site(map[], map[], {}, {})

  /** The edges that inserting the components `cs` into a graph with the nodes `nodes` adds. */
  function NewEdges(nodes: set<string>, cs: seq<string>): set<(string, string)>
  {
    set k | 0 < k < |cs| && cs[k - 1] != "" && cs[k] !in nodes && cs[k] !in cs[..k] :: (cs[k - 1], cs[k])
  }

  /** The component at `i` adds at most one edge to those of the components before it. */
  lemma NewEdgeAt(nodes: set<string>, cs: seq<string>, i: nat)
    requires i < |cs|
    ensures forall e :: NewEdge(nodes, cs, i + 1, e) <==>
      (NewEdge(nodes, cs, i, e) ||
       (0 < i && cs[i - 1] != "" && cs[i] !in nodes && cs[i] !in cs[..i] && e == (cs[i - 1], cs[i])))
  {
    forall e | NewEdge(nodes, cs, i + 1, e)
      ensures NewEdge(nodes, cs, i, e) ||
        (0 < i && cs[i - 1] != "" && cs[i] !in nodes && cs[i] !in cs[..i] && e == (cs[i - 1], cs[i]))
    {
      var k :| 0 < k < i + 1 && cs[k - 1] != "" && cs[k] !in nodes && cs[k] !in cs[..k] && e == (cs[k - 1], cs[k]);
      if k < i {
        assert NewEdge(nodes, cs, i, e);
      }
    }
  }

  /** The edges the component loop adds after its last component are `NewEdges`. */
  lemma NewEdgesAreNewEdge(nodes: set<string>, cs: seq<string>)
    ensures forall e :: e in NewEdges(nodes, cs) <==> NewEdge(nodes, cs, |cs|, e)
  {
    forall e | NewEdge(nodes, cs, |cs|, e) ensures e in NewEdges(nodes, cs) {
      var k :| 0 < k < |cs| && cs[k - 1] != "" && cs[k] !in nodes && cs[k] !in cs[..k] && e == (cs[k - 1], cs[k]);
    }
  }

  /** What one entry's action does to the build: an index document is put in `pages`, its
      directories are added to the graph, and it is put in `sc_backing` when its
      classification succeeds (a bad configuration leaves the first two updates in place). */
  function Step(s: Site, a: EntryAction): Site
  {
    match a
    case AddIndex(key, dir, page, body, kind) =>
      Site(s.pages[key := (page, body)],
           if kind.Ok? then s.scBacking[key := kind.value] else s.scBacking,
           s.nodes + (set c | c in dir),
           s.edges + NewEdges(s.nodes, dir))
    case _ => s
  }

  /** The build after a run of actions taken in order. */
  function Walk(s: Site, acts: seq<EntryAction>): Site
  {
    if acts == [] then s else Step(Walk(s, acts[..|acts| - 1]), acts[|acts| - 1])
  }

  lemma WalkSnoc(s: Site, acts: seq<EntryAction>, i: nat)
    requires i < |acts|
    ensures Walk(s, acts[..i + 1]) == Step(Walk(s, acts[..i]), acts[i])
  {
    assert acts[..i + 1][..i] == acts[..i];
  }

  /** The error a failing action raises. */
  function ErrorOf(a: EntryAction): BuildError
    requires Fails(a)
  {
    if a.Fail? then a.error else BuildError.BadConfiguration
  }

  class SiteBuilder {
    /** `pages`: relative path of an index document to its page meta and body. */
    var pages: map<string, (PageMeta, Option<string>)>
    /** `sc_backing`: relative path of an index document to its configuration type. */
    var scBacking: map<string, ConfigurationType>
    /** `site_children`: the directory graph, as its node and edge sets. */
    var nodes: set<string>
    var edges: set<(string, string)>

    constructor ()
      ensures pages == map[] && scBacking == map[] && nodes == {} && edges == {}
    {
      pages := map[];
      scBacking := map[];
      nodes := {};
      edges := {};
    }

    /** The component loop (build.rs:192-202): every component becomes a node; an edge from
        the previous component is added only for a component that was newly added. Nothing
        is removed. */
    method InsertComponents(cs: seq<string>)
      modifies this
      ensures pages == old(pages) && scBacking == old(scBacking)
      ensures nodes == old(nodes) + (set c | c in cs)
      ensures edges == old(edges) + NewEdges(old(nodes), cs)
    {
      var previous := "";
      var i := 0;
      while i < |cs|
        invariant 0 <= i <= |cs|
        invariant pages == old(pages) && scBacking == old(scBacking)
        invariant previous == if i == 0 then "" else cs[i - 1]
        invariant forall c :: c in nodes <==> c in old(nodes) || c in cs[..i]
        invariant forall e :: e in edges <==> e in old(edges) || NewEdge(old(nodes), cs, i, e)
      {
        var nodestr := cs[i];
        assert cs[..i + 1] == cs[..i] + [nodestr];
        if nodestr !in nodes {
          nodes := nodes + {nodestr};
          if previous != "" {
            edges := edges + {(previous, nodestr)};
            assert NewEdge(old(nodes), cs, i + 1, (previous, nodestr));
          }
        }
        NewEdgeAt(old(nodes), cs, i);
        previous := nodestr;
        i := i + 1;
      }
      assert cs[..|cs|] == cs;
      NewEdgesAreNewEdge(old(nodes), cs);
    }

    /** One iteration of the walk loop (build.rs:151-221): the error the entry raises, if
        any, and the build after its action. */
    method Ingest(base: string, entry: WalkEntry, parse: ConfigParser) returns (r: Result<(), BuildError>)
      modifies this
      ensures var a := ActionOf(base, entry, parse);
        && (r.Err? <==> Fails(a))
        && (Fails(a) ==> r == Err(ErrorOf(a)))
      ensures State() == Step(old(State()), ActionOf(base, entry, parse))
    {
      var a := ActionOf(base, entry, parse);
      match a
      case Skip =>
        r := Ok(());
      case Fail(e) =>
        r := Err(e);
      case AddIndex(key, dir, page, body, kind) =>
        pages := pages[key := (page, body)];
        InsertComponents(dir);
        match kind
        case Ok(t) =>
          scBacking := scBacking[key := t];
          r := Ok(());
        case Err(_) =>
          r := Err(BuildError.BadConfiguration);
    }

    /** The walk loop (build.rs:150-222) over the sorted entries, from an empty build: every
        entry is ingested in order until one fails. */
    method IngestAll(base: string, sorted: seq<WalkEntry>, parse: ConfigParser) returns (r: Result<(), BuildError>)
      requires State() == EmptySite
      modifies this
      ensures var acts := Actions(base, sorted, parse);
        r.Ok? <==> forall k :: 0 <= k < |acts| ==> !Fails(acts[k])
      ensures var acts := Actions(base, sorted, parse);
        r.Ok? ==> State() == Walk(EmptySite, acts)
      ensures var acts := Actions(base, sorted, parse);
        r.Err? ==> exists n :: 0 <= n < |acts| && FirstFailure(acts, n) && r == Err(ErrorOf(acts[n]))
                              && State() == Walk(EmptySite, acts[..n + 1])
    {
      ghost var acts := Actions(base, sorted, parse);
      assert acts[..0] == [];
      var i := 0;
      while i < |sorted|
        invariant 0 <= i <= |sorted|
        invariant forall k :: 0 <= k < i ==> !Fails(acts[k])
        invariant State() == Walk(EmptySite, acts[..i])
      {
        ActionsIndex(base, sorted, parse, i);
        WalkSnoc(EmptySite, acts, i);
        var step := Ingest(base, sorted[i], parse);
        if step.Err? {
          assert Fails(acts[i]) && FirstFailure(acts, i);
          r := step;
          return;
        }
        i := i + 1;
      }
      assert acts[..|sorted|] == acts;
      r := Ok(());
    }

    /** The build this builder holds. */
    function State(): Site
      reads this
    {
      Site(pages, scBacking, nodes, edges)
    }
  }

  /** The sorted walk holds the same entries as the walk. */
  lemma SortedSameEntries(entries: seq<WalkEntry>)
    ensures forall e :: e in entries <==> e in SortByDepth(entries)
  {
    SortByDepthSorted(entries);
    forall e ensures e in entries <==> e in SortByDepth(entries) {
      assert e in entries <==> e in multiset(entries);
      assert e in SortByDepth(entries) <==> e in multiset(SortByDepth(entries));
    }
  }

  /** The actions of a run of entries, in order. */
  function Actions(base: string, s: seq<WalkEntry>, parse: ConfigParser): (r: seq<EntryAction>)
    ensures |r| == |s|
  {
    if s == [] then [] else Actions(base, s[..|s| - 1], parse) + [ActionOf(base, s[|s| - 1], parse)]
  }

  lemma {:induction false} ActionsIndex(base: string, s: seq<WalkEntry>, parse: ConfigParser, k: nat)
    requires k < |s|
    ensures Actions(base, s, parse)[k] == ActionOf(base, s[k], parse)
  {
    if k < |s| - 1 {
      ActionsIndex(base, s[..|s| - 1], parse, k);
    }
  }

  /** The action at `n` is the first that fails. */
  predicate FirstFailure(acts: seq<EntryAction>, n: int)
    requires 0 <= n < |acts|
  {
    Fails(acts[n]) && forall k :: 0 <= k < n ==> !Fails(acts[k])
  }

  /** The walk's entries succeed exactly when the sorted walk's actions do. */
  lemma EntriesSucceed(base: string, entries: seq<WalkEntry>, parse: ConfigParser, acts: seq<EntryAction>)
    requires acts == Actions(base, SortByDepth(entries), parse)
    ensures (forall k :: 0 <= k < |acts| ==> !Fails(acts[k])) <==>
            (forall e :: e in entries ==> !Fails(ActionOf(base, e, parse)))
  {
    SortedSameEntries(entries);
    var sorted := SortByDepth(entries);
    if forall k :: 0 <= k < |acts| ==> !Fails(acts[k]) {
      forall e | e in entries ensures !Fails(ActionOf(base, e, parse)) {
        var k :| 0 <= k < |sorted| && sorted[k] == e;
        ActionsIndex(base, sorted, parse, k);
      }
    }
    if forall e :: e in entries ==> !Fails(ActionOf(base, e, parse)) {
      forall k | 0 <= k < |acts| ensures !Fails(acts[k]) {
        ActionsIndex(base, sorted, parse, k);
        assert sorted[k] in entries;
      }
    }
  }

  /** In a walk without failures every index document is recorded at the end. */
  lemma {:induction false} WalkRecords(s: Site, acts: seq<EntryAction>)
    requires forall k :: 0 <= k < |acts| ==> !Fails(acts[k])
    ensures var w := Walk(s, acts);
      forall k :: 0 <= k < |acts| && acts[k].AddIndex? ==> Recorded(acts[k], w.pages, w.scBacking, w.nodes)
  {
    if acts != [] {
      var init := acts[..|acts| - 1];
      var last := acts[|acts| - 1];
      WalkRecords(s, init);
      var v := Walk(s, init);
      var w := Step(v, last);
      assert Walk(s, acts) == w;
      forall k | 0 <= k < |acts| && acts[k].AddIndex?
        ensures Recorded(acts[k], w.pages, w.scBacking, w.nodes)
      {
        if k < |acts| - 1 {
          assert acts[k] == init[k];
          RecordedGrows(acts[k], v.pages, v.scBacking, v.nodes, w.pages, w.scBacking, w.nodes);
        } else {
          assert !Fails(last);
        }
      }
    }
  }

  /** Some index document of the run is recorded under `key`. */
  ghost predicate IndexedAt(acts: seq<EntryAction>, key: string)
  {
    exists k :: 0 <= k < |acts| && acts[k].AddIndex? && acts[k].key == key
  }

  /** Some index document of the run lies below the directory `c`. */
  ghost predicate DirectoryOf(acts: seq<EntryAction>, c: string)
  {
    exists k :: 0 <= k < |acts| && acts[k].AddIndex? && c in acts[k].dir
  }

  /** `pages` holds exactly the index documents of the walk, and the graph's nodes are
      exactly their directories: nothing else is recorded. */
  lemma {:induction false} WalkContents(s: Site, acts: seq<EntryAction>)
    ensures forall key :: key in Walk(s, acts).pages <==> key in s.pages || IndexedAt(acts, key)
    ensures forall c :: c in Walk(s, acts).nodes <==> c in s.nodes || DirectoryOf(acts, c)
  {
    if acts != [] {
      var init := acts[..|acts| - 1];
      var last := acts[|acts| - 1];
      WalkContents(s, init);
      forall key ensures IndexedAt(acts, key) <==> IndexedAt(init, key) || (last.AddIndex? && last.key == key) {
        if IndexedAt(acts, key) {
          var k :| 0 <= k < |acts| && acts[k].AddIndex? && acts[k].key == key;
          if k < |acts| - 1 {
            assert init[k] == acts[k];
          }
        }
        if IndexedAt(init, key) {
          var k :| 0 <= k < |init| && init[k].AddIndex? && init[k].key == key;
          assert acts[k] == init[k];
        }
      }
      forall c ensures DirectoryOf(acts, c) <==> DirectoryOf(init, c) || (last.AddIndex? && c in last.dir) {
        if DirectoryOf(acts, c) {
          var k :| 0 <= k < |acts| && acts[k].AddIndex? && c in acts[k].dir;
          if k < |acts| - 1 {
            assert init[k] == acts[k];
          }
        }
        if DirectoryOf(init, c) {
          var k :| 0 <= k < |init| && init[k].AddIndex? && c in init[k].dir;
          assert acts[k] == init[k];
        }
      }
    }
  }

  /** An index document that no later document of the walk replaces keeps its page meta and
      body in `pages`, and its classification in `sc_backing` when that succeeded. */
  lemma {:induction false} WalkKeepsLast(s: Site, acts: seq<EntryAction>, k: nat)
    requires k < |acts| && acts[k].AddIndex?
    requires forall j :: k < j < |acts| && acts[j].AddIndex? ==> acts[j].key != acts[k].key
    ensures acts[k].key in Walk(s, acts).pages
    ensures Walk(s, acts).pages[acts[k].key] == (acts[k].page, acts[k].body)
    ensures acts[k].kind.Ok? ==> acts[k].key in Walk(s, acts).scBacking &&
                                 Walk(s, acts).scBacking[acts[k].key] == acts[k].kind.value
  {
    var init := acts[..|acts| - 1];
    if k < |acts| - 1 {
      forall j | k < j < |init| && init[j].AddIndex? ensures init[j].key != init[k].key {
        assert init[j] == acts[j];
      }
      WalkKeepsLast(s, init, k);
      assert init[k] == acts[k];
    }
  }

  /** The depth order decides the graph: with `b/index.md` walked before `a/b/index.md`, `b`
      is already a node when `a/b` is inserted, so no edge `a -> b` is added; in the
      opposite order the edge is added. */
  lemma EdgesFollowOrder(p: PageMeta, body: Option<string>, kind: Result<ConfigurationType, ConfigError>)
    ensures var shallow := AddIndex("b/index.md", ["b"], p, body, kind);
            var deep := AddIndex("a/b/index.md", ["a", "b"], p, body, kind);
            Walk(EmptySite, [shallow, deep]).edges == {} &&
            Walk(EmptySite, [deep, shallow]).edges == {("a", "b")}
  {
    var shallow := AddIndex("b/index.md", ["b"], p, body, kind);
    var deep := AddIndex("a/b/index.md", ["a", "b"], p, body, kind);
    var cs := ["a", "b"];
    assert cs[..1] == ["a"] && cs[..0] == [];
    assert NewEdges({}, ["b"]) == {};
    assert NewEdges({"b"}, cs) == {};
    assert NewEdges({}, cs) == {("a", "b")} by {
      assert ("a", "b") in NewEdges({}, cs) by {
        assert 0 < 1 < |cs| && cs[0] != "" && cs[1] !in {} && cs[1] !in cs[..1];
      }
      forall e | e in NewEdges({}, cs) ensures e == ("a", "b") {
        var k :| 0 < k < |cs| && e == (cs[k - 1], cs[k]);
        assert k == 1;
      }
    }
    var nodesAB := {} + (set c | c in cs);
    assert nodesAB == {"a", "b"};
    assert NewEdges(nodesAB, ["b"]) == {};
    var nodesB := {} + (set c | c in ["b"]);
    assert nodesB == {"b"};
    var w1 := Step(EmptySite, shallow);
    assert w1.nodes == nodesB && w1.edges == {};
    assert [shallow, deep][..1] == [shallow] && [shallow][..0] == [];
    assert Walk(EmptySite, [shallow]) == w1;
    assert Walk(EmptySite, [shallow, deep]) == Step(w1, deep);
    var v1 := Step(EmptySite, deep);
    assert v1.nodes == nodesAB && v1.edges == {("a", "b")};
    assert [deep, shallow][..1] == [deep] && [deep][..0] == [];
    assert Walk(EmptySite, [deep]) == v1;
    assert Walk(EmptySite, [deep, shallow]) == Step(v1, shallow);
  }

  /** A build without failures records every index document of the walk. */
  lemma BuildRecordsEntries(base: string, entries: seq<WalkEntry>, parse: ConfigParser)
    requires forall e :: e in entries ==> !Fails(ActionOf(base, e, parse))
    ensures var w := Walk(EmptySite, Actions(base, SortByDepth(entries), parse));
      forall e :: e in entries && ActionOf(base, e, parse).AddIndex? ==>
        Recorded(ActionOf(base, e, parse), w.pages, w.scBacking, w.nodes)
  {
    var sorted := SortByDepth(entries);
    var acts := Actions(base, sorted, parse);
    EntriesSucceed(base, entries, parse, acts);
    WalkRecords(EmptySite, acts);
    SortedSameEntries(entries);
    forall e | e in entries && ActionOf(base, e, parse).AddIndex?
      ensures Recorded(ActionOf(base, e, parse), Walk(EmptySite, acts).pages, Walk(EmptySite, acts).scBacking,
                       Walk(EmptySite, acts).nodes)
    {
      var k :| 0 <= k < |sorted| && sorted[k] == e;
      ActionsIndex(base, sorted, parse, k);
    }
  }

  /** `build_site`'s walk: sort the entries by depth and ingest them in that order, stopping
      at the first error. The build succeeds exactly when no entry fails (`EntriesSucceed`
      restates this over the walk's entries), and then holds the walk of all the sorted
      entries' actions; otherwise it reports the error of the first
      failing entry in depth order and holds the walk up to and including that entry. */
  method BuildSite(base: string, entries: seq<WalkEntry>, parse: ConfigParser)
    returns (r: Result<(), BuildError>, site: SiteBuilder)
    ensures fresh(site)
    ensures var acts := Actions(base, SortByDepth(entries), parse);
      r.Ok? <==> forall k :: 0 <= k < |acts| ==> !Fails(acts[k])
    ensures var acts := Actions(base, SortByDepth(entries), parse);
      r.Ok? ==> site.State() == Walk(EmptySite, acts)
    ensures var acts := Actions(base, SortByDepth(entries), parse);
      r.Err? ==> exists n :: 0 <= n < |acts| && FirstFailure(acts, n) && r == Err(ErrorOf(acts[n]))
                            && site.State() == Walk(EmptySite, acts[..n + 1])
  {
    var sorted := SortByDepth(entries);
    site := new SiteBuilder();
    r := site.IngestAll(base, sorted, parse);
  }
}
