/**
  The reasoner registry of the knowledge base: factories by type name, a
  cache of plugin libraries, the pool of loaded reasoners, the data-file
  handlers of a reasoner, and the reading of a reasoner's configuration
  tree into settings and data files.

  Whatever the registry cannot see is a parameter: whether a plugin
  library opens (`opens`), the name a plugin reports (`pluginName`),
  whether a reasoner accepts its configuration (`accepts`), and which
  predicates a reasoner currently defines (`current`).
 */
module Reasoner {
  import opened Wrappers
  import opened Terms
  import opened Lexer

  // ---------------------------------------------------------------------
  // Configuration trees
  // ---------------------------------------------------------------------

  /** A property tree: a value and an ordered list of keyed children. */
  datatype Tree = Tree(value: string, kids: seq<Child>)
  datatype Child = Child(key: string, tree: Tree)

  /** A leaf has no children (`ptree::empty`). */
  predicate IsLeaf(t: Tree) {
    t.kids == []
  }

  /** The first child under `key`, as the tree's `get_child_optional`. */
  function Subtree(t: Tree, key: string): (r: Option<Tree>)
    ensures r.Some? <==> exists i :: 0 <= i < |t.kids| && t.kids[i].key == key
    ensures r.Some? ==> exists i :: 0 <= i < |t.kids| && t.kids[i].key == key && t.kids[i].tree == r.value
  {
    SubtreeFrom(t.kids, key, 0)
  }

  function SubtreeFrom(kids: seq<Child>, key: string, i: nat): (r: Option<Tree>)
    requires i <= |kids|
    ensures r.Some? <==> exists j :: i <= j < |kids| && kids[j].key == key
    ensures r.Some? ==> exists j :: i <= j < |kids| && kids[j].key == key && kids[j].tree == r.value
                                    && forall k :: i <= k < j ==> kids[k].key != key
    decreases |kids| - i
  {
    if i == |kids| then None
    else if kids[i].key == key then Some(kids[i].tree)
    else SubtreeFrom(kids, key, i + 1)
  }

  /** The value under `key`, as the tree's `get_optional<std::string>`. */
  function Get(t: Tree, key: string): (r: Option<string>)
    ensures r.Some? <==> Subtree(t, key).Some?
    ensures r.Some? ==> r.value == Subtree(t, key).value.value
  {
    match Subtree(t, key)
    case Some(sub) => Some(sub.value)
    case None => None
  }

  // ---------------------------------------------------------------------
  // Settings
  // ---------------------------------------------------------------------

  /** `":"(k1, k2)`: the key of a setting nested under `k1`. */
  function Colon(k1: Term, k2: string): (r: Term)
    ensures r.Pred? && IndicatorOf(r) == Indicator(":", 2)
  {
    Pred(":", [k1, Str(k2)])
  }

  /** What a reasoner is configured with. */
  datatype DataFile = DataFile(path: string, format: string)
  datatype Configuration = Configuration(settings: seq<(Term, Term)>, dataFiles: seq<DataFile>)

  /** The settings a subtree under `key` contributes: a leaf is one
      setting, an inner tree contributes its children's settings. */
  function Setting(key: Term, t: Tree): (r: seq<(Term, Term)>)
    decreases t, |t.kids| + 1
  {
    if IsLeaf(t) then [(key, Str(t.value))] else SettingsFrom(key, t, 0)
  }

  /** The settings of the children of `t` from the `i`-th on, each keyed
      under `key`; children with an empty key (list items) are skipped. */
  function SettingsFrom(key: Term, t: Tree, i: nat): (r: seq<(Term, Term)>)
    requires i <= |t.kids|
    decreases t, |t.kids| - i
  {
    if i == |t.kids| then []
    else
      var c := t.kids[i];
      (if c.key == "" then [] else Setting(Colon(key, c.key), c.tree)) + SettingsFrom(key, t, i + 1)
  }

  /** The settings of a whole configuration: every top-level child, an
      empty key included, keyed by its own name. */
  function TopSettings(cfg: Tree, i: nat): (r: seq<(Term, Term)>)
    requires i <= |cfg.kids|
    decreases |cfg.kids| - i
  {
    if i == |cfg.kids| then []
    else Setting(Str(cfg.kids[i].key), cfg.kids[i].tree) + TopSettings(cfg, i + 1)
  }

  /** A data source that names a `file`. */
  predicate HasFile(src: Tree) {
    Get(src, "file").Some?
  }

  /** The data file a source names, with its `format` or the empty format. */
  function FileOf(src: Tree): (r: DataFile)
    requires HasFile(src)
    ensures Get(src, "file") == Some(r.path)
    ensures Get(src, "format").Some? ==> r.format == Get(src, "format").value
    ensures Get(src, "format").None? ==> r.format == ""
  {
    DataFile(Get(src, "file").value, Get(src, "format").GetOr(""))
  }

  /** The positions from `i` on of the sources that name a file: exactly
      those positions, in increasing order. */
  function FileSources(sources: seq<Child>, i: nat): (r: seq<nat>)
    requires i <= |sources|
    ensures forall k :: 0 <= k < |r| ==> i <= r[k] < |sources| && HasFile(sources[r[k]].tree)
    ensures forall k, l :: 0 <= k < l < |r| ==> r[k] < r[l]
    decreases |sources| - i
  {
    if i == |sources| then []
    else if HasFile(sources[i].tree) then [i] + FileSources(sources, i + 1)
    else FileSources(sources, i + 1)
  }

  /** No source that names a file is left out of `FileSources`. */
  lemma {:induction false} FileSourcesComplete(sources: seq<Child>, i: nat, j: nat)
    requires i <= j < |sources| && HasFile(sources[j].tree)
    ensures j in FileSources(sources, i)
    decreases |sources| - i
  {
    if i < j {
      FileSourcesComplete(sources, i + 1, j);
    }
  }

  /** The data files listed under `data-sources`: one per source that
      names a file, in source order; a source without `file` is skipped. */
  function FilesFrom(sources: seq<Child>, i: nat): (r: seq<DataFile>)
    requires i <= |sources|
    ensures |r| <= |sources| - i
    ensures forall d :: d in r ==> exists j :: i <= j < |sources| && Get(sources[j].tree, "file") == Some(d.path)
    decreases |sources| - i
  {
    if i == |sources| then []
    else
      var src := sources[i].tree;
      (if HasFile(src) then [FileOf(src)] else []) + FilesFrom(sources, i + 1)
  }

  /** The files read from `i` on are, in order, the data files of
      exactly the sources from `i` on that name a file. */
  predicate Selects(sources: seq<Child>, i: nat)
    requires i <= |sources|
  {
    var f, x := FilesFrom(sources, i), FileSources(sources, i);
    |f| == |x| && forall k :: 0 <= k < |f| ==> f[k] == FileOf(sources[x[k]].tree)
  }

  lemma {:induction false} FilesFromSelects(sources: seq<Child>, i: nat)
    requires i <= |sources|
    ensures |FilesFrom(sources, i)| == |FileSources(sources, i)|
    ensures forall k :: 0 <= k < |FilesFrom(sources, i)| ==>
              FilesFrom(sources, i)[k] == FileOf(sources[FileSources(sources, i)[k]].tree)
    decreases |sources| - i
  {
    if i < |sources| {
      FilesFromSelects(sources, i + 1);
      SelectsStep(sources, i);
    }
  }

  lemma SelectsStep(sources: seq<Child>, i: nat)
    requires i < |sources| && Selects(sources, i + 1)
    ensures Selects(sources, i)
  {
    if HasFile(sources[i].tree) {
      SelectsListed(sources, i);
    } else {
      assert FilesFrom(sources, i) == FilesFrom(sources, i + 1);
      assert FileSources(sources, i) == FileSources(sources, i + 1);
    }
  }

  lemma SelectsListed(sources: seq<Child>, i: nat)
    requires i < |sources| && HasFile(sources[i].tree) && Selects(sources, i + 1)
    ensures Selects(sources, i)
  {
    var f, f' := FilesFrom(sources, i), FilesFrom(sources, i + 1);
    var x, x' := FileSources(sources, i), FileSources(sources, i + 1);
    assert f == [FileOf(sources[i].tree)] + f';
    assert x == [i] + x';
    forall k | 0 < k < |f|
      ensures f[k] == FileOf(sources[x[k]].tree)
    {
      assert f[k] == f'[k - 1];
      assert x[k] == x'[k - 1];
    }
  }

  /** Every source that names a file contributes its data file. */
  lemma {:induction false} FilesFromComplete(sources: seq<Child>, i: nat, j: nat)
    requires i <= j < |sources| && HasFile(sources[j].tree)
    ensures FileOf(sources[j].tree) in FilesFrom(sources, i)
  {
    FilesFromSelects(sources, i);
    FileSourcesComplete(sources, i, j);
    var ix := FileSources(sources, i);
    var k :| 0 <= k < |ix| && ix[k] == j;
    assert FilesFrom(sources, i)[k] == FileOf(sources[j].tree);
  }

  /** `ReasonerConfiguration::loadPropertyTree`. */
  function LoadPropertyTree(cfg: Tree): (r: Configuration)
    ensures r.settings == TopSettings(cfg, 0)
    ensures Subtree(cfg, "data-sources").None? ==> r.dataFiles == []
    ensures Subtree(cfg, "data-sources").Some? ==> r.dataFiles == FilesFrom(Subtree(cfg, "data-sources").value.kids, 0)
  {
    var files := match Subtree(cfg, "data-sources")
                 case Some(ds) => FilesFrom(ds.kids, 0)
                 case None => [];
    Configuration(TopSettings(cfg, 0), files)
  }

  // The meaning of the settings: leaves by their key paths.

  /** The leaves of `t` with the path of non-empty keys leading to each,
      in tree order. */
  function Leaves(t: Tree): (r: seq<(seq<string>, string)>)
    decreases t, |t.kids| + 1
  {
    if IsLeaf(t) then [([], t.value)] else LeavesFrom(t, 0)
  }

  function LeavesFrom(t: Tree, i: nat): (r: seq<(seq<string>, string)>)
    requires i <= |t.kids|
    decreases t, |t.kids| - i
  {
    if i == |t.kids| then []
    else
      var c := t.kids[i];
      (if c.key == "" then [] else Under(c.key, Leaves(c.tree))) + LeavesFrom(t, i + 1)
  }

  /** The same leaves, one level further down under `k`. */
  function Under(k: string, ls: seq<(seq<string>, string)>): (r: seq<(seq<string>, string)>)
    ensures |r| == |ls|
    ensures forall i :: 0 <= i < |ls| ==> r[i] == ([k] + ls[i].0, ls[i].1)
  {
    if ls == [] then [] else [([k] + ls[0].0, ls[0].1)] + Under(k, ls[1..])
  }

  /** The key a path is filed under: `":"(":"(key, p1), p2) ...`. */
  function Nest(key: Term, path: seq<string>): (r: Term)
    decreases |path|
  {
    if path == [] then key else Nest(Colon(key, path[0]), path[1..])
  }

  /** Leaves as settings below `key`. */
  function Encode(key: Term, ls: seq<(seq<string>, string)>): (r: seq<(Term, Term)>)
    ensures |r| == |ls|
    ensures forall i :: 0 <= i < |ls| ==> r[i] == (Nest(key, ls[i].0), Str(ls[i].1))
  {
    if ls == [] then [] else [(Nest(key, ls[0].0), Str(ls[0].1))] + Encode(key, ls[1..])
  }

  /** The path a setting key spells, read back from its nesting. */
  function KeyPath(k: Term): (r: seq<string>)
  {
    match k
    case Str(s) => [s]
    case Pred(f, args) =>
      if f == ":" && |args| == 2 && args[1].Str? then KeyPath(args[0]) + [args[1].str] else []
    case _ => []
  }

  lemma {:induction false} EncodeAppend(key: Term, a: seq<(seq<string>, string)>, b: seq<(seq<string>, string)>)
    ensures Encode(key, a + b) == Encode(key, a) + Encode(key, b)
  {
  }

  lemma {:induction false} EncodeUnder(key: Term, k: string, ls: seq<(seq<string>, string)>)
    ensures Encode(key, Under(k, ls)) == Encode(Colon(key, k), ls)
  {
    var l := Encode(key, Under(k, ls));
    var r := Encode(Colon(key, k), ls);
    forall i | 0 <= i < |ls|
      ensures l[i] == r[i]
    {
      assert Under(k, ls)[i].0 == [k] + ls[i].0;
      assert ([k] + ls[i].0)[1..] == ls[i].0;
    }
  }

  /** The settings of a subtree are its leaves, each keyed by the nested
      `":"` term of its key path and valued by its text. */
  lemma {:induction false} SettingsAreLeaves(key: Term, t: Tree)
    ensures Setting(key, t) == Encode(key, Leaves(t))
    decreases t, |t.kids| + 1
  {
    if !IsLeaf(t) {
      SettingsFromAreLeaves(key, t, 0);
    }
  }

  lemma {:induction false} SettingsFromAreLeaves(key: Term, t: Tree, i: nat)
    requires i <= |t.kids|
    ensures SettingsFrom(key, t, i) == Encode(key, LeavesFrom(t, i))
    decreases t, |t.kids| - i
  {
    if i < |t.kids| {
      var c := t.kids[i];
      SettingsFromAreLeaves(key, t, i + 1);
      var here := if c.key == "" then [] else Under(c.key, Leaves(c.tree));
      if c.key != "" {
        SettingsAreLeaves(Colon(key, c.key), c.tree);
        EncodeUnder(key, c.key, Leaves(c.tree));
      }
      EncodeAppend(key, here, LeavesFrom(t, i + 1));
    }
  }

  /** A setting key can be read back as the path it was nested from. */
  lemma {:induction false} NestReadsBack(key: Term, path: seq<string>)
    ensures KeyPath(Nest(key, path)) == KeyPath(key) + path
    decreases |path|
  {
    if path != [] {
      NestReadsBack(Colon(key, path[0]), path[1..]);
      assert KeyPath(Colon(key, path[0])) == KeyPath(key) + [path[0]];
      assert KeyPath(key) + [path[0]] + path[1..] == KeyPath(key) + path;
    }
  }

  /** The paths of the leaves never contain an empty key. */
  lemma {:induction false} LeafPathsNonEmpty(t: Tree)
    ensures forall i, j :: 0 <= i < |Leaves(t)| && 0 <= j < |Leaves(t)[i].0| ==> Leaves(t)[i].0[j] != ""
    decreases t, |t.kids| + 1
  {
    if !IsLeaf(t) {
      LeafPathsFromNonEmpty(t, 0);
    }
  }

  lemma {:induction false} LeafPathsFromNonEmpty(t: Tree, i: nat)
    requires i <= |t.kids|
    ensures forall a, j :: 0 <= a < |LeavesFrom(t, i)| && 0 <= j < |LeavesFrom(t, i)[a].0| ==> LeavesFrom(t, i)[a].0[j] != ""
    decreases t, |t.kids| - i
  {
    if i < |t.kids| {
      var c := t.kids[i];
      LeafPathsFromNonEmpty(t, i + 1);
      if c.key != "" {
        LeafPathsNonEmpty(c.tree);
        var u := Under(c.key, Leaves(c.tree));
        forall a, j | 0 <= a < |u| && 0 <= j < |u[a].0|
          ensures u[a].0[j] != ""
        {
          assert u[a].0 == [c.key] + Leaves(c.tree)[a].0;
          if j > 0 {
            assert u[a].0[j] == Leaves(c.tree)[a].0[j - 1];
          }
        }
      }
    }
  }

  /** `{"a": {"b": "1", "": "x"}, "c": "2"}` gives `":"(a, b) = 1` and
      `c = 2`; the list item is skipped. */
  lemma {:induction false} SettingsExample()
    ensures LoadPropertyTree(ExampleConfig()).settings
            == [(Pred(":", [Str("a"), Str("b")]), Str("1")), (Str("c"), Str("2"))]
  {
    var a := Tree("", [Child("b", Tree("1", [])), Child("", Tree("x", []))]);
    assert SettingsFrom(Str("a"), a, 2) == [];
    assert SettingsFrom(Str("a"), a, 1) == [];
    assert Setting(Colon(Str("a"), "b"), Tree("1", [])) == [(Pred(":", [Str("a"), Str("b")]), Str("1"))];
    assert SettingsFrom(Str("data-sources"), ExampleSources(), 0) == [];
  }

  /** The data sources of the same configuration: the first keeps its
      format, the second is skipped, the third gets the empty format. */
  lemma {:induction false} DataSourcesExample()
    ensures LoadPropertyTree(ExampleConfig()).dataFiles == [DataFile("kb.owl", "rdf-xml"), DataFile("facts.pl", "")]
  {
    var cfg := ExampleConfig();
    assert SubtreeFrom(cfg.kids, "data-sources", 2) == Some(ExampleSources());
    assert Subtree(cfg, "data-sources") == Some(ExampleSources());
    ExampleFiles();
  }

  lemma {:induction false} ExampleFiles()
    ensures FilesFrom(ExampleSources().kids, 0) == [DataFile("kb.owl", "rdf-xml"), DataFile("facts.pl", "")]
  {
    var ds := ExampleSources().kids;
    SourceFiles();
    assert FilesFrom(ds, 3) == [];
    assert FilesFrom(ds, 2) == [DataFile("facts.pl", "")];
    assert FilesFrom(ds, 1) == [DataFile("facts.pl", "")];
  }

  lemma {:induction false} SourceFiles()
    ensures var ds := ExampleSources();
            Get(ds.kids[0].tree, "file") == Some("kb.owl") && Get(ds.kids[0].tree, "format") == Some("rdf-xml")
            && Get(ds.kids[1].tree, "file").None?
            && Get(ds.kids[2].tree, "file") == Some("facts.pl") && Get(ds.kids[2].tree, "format").None?
  {
    var ds := ExampleSources();
    assert SubtreeFrom(ds.kids[0].tree.kids, "format", 1) == Some(Tree("rdf-xml", []));
    assert SubtreeFrom(ds.kids[1].tree.kids, "file", 1).None?;
    assert SubtreeFrom(ds.kids[2].tree.kids, "format", 1).None?;
  }

  /** A configuration with a nested setting, a list item, a plain
      setting and three data sources, the middle one without `file`. */
  function ExampleConfig(): (r: Tree)
  {
    Tree("", [Child("a", Tree("", [Child("b", Tree("1", [])), Child("", Tree("x", []))])),
              Child("c", Tree("2", [])),
              Child("data-sources", ExampleSources())])
  }

  function ExampleSources(): (r: Tree)
  {
    Tree("", [Child("", Tree("", [Child("file", Tree("kb.owl", [])), Child("format", Tree("rdf-xml", []))])),
              Child("", Tree("", [Child("format", Tree("owl", []))])),
              Child("", Tree("", [Child("file", Tree("facts.pl", []))]))])
  }

  // ---------------------------------------------------------------------
  // Data-file handlers of a reasoner
  // ---------------------------------------------------------------------

  type Loader = DataFile -> bool

  /** `DataFile::hasUnknownFormat`, which is not part of this model. */
  type FormatTest = DataFile -> bool

  /** `addDataFileHandler`: the handler for `format`, replacing any earlier one. */
  function AddDataFileHandler(h: map<string, Loader>, format: string, fn: Loader): (r: map<string, Loader>)
    ensures r.Keys == h.Keys + {format}
    ensures r[format] == fn
    ensures forall k :: k in h && k != format ==> r[k] == h[k]
  {
    h[format := fn]
  }

  /** `loadDataFile`: a file of unknown format goes to `unknown` (the
      reasoner's `loadDataFileWithUnknownFormat`), one with a registered
      format to its handler, and any other is ignored. */
  function LoadDataFile(h: map<string, Loader>, d: DataFile, isUnknown: FormatTest, unknown: Loader): (r: bool)
    ensures !isUnknown(d) && d.format !in h ==> !r
  {
    if isUnknown(d) then unknown(d)
    else if d.format in h then h[d.format](d)
    else false
  }

  /** The default `loadDataFileWithUnknownFormat` loads nothing. */
  function NoUnknownFormat(d: DataFile): (r: bool)
    ensures !r
  {
    false
  }

  /** With the default for unknown formats, a file loads only through a
      handler registered for its format. */
  lemma {:induction false} LoadedThroughHandler(h: map<string, Loader>, d: DataFile, isUnknown: FormatTest)
    ensures LoadDataFile(h, d, isUnknown, NoUnknownFormat) <==> !isUnknown(d) && d.format in h && h[d.format](d)
  {
  }

  /** The handler registered last for a format decides; other formats keep
      theirs. */
  lemma {:induction false} LastHandlerDecides(h: map<string, Loader>, format: string, fn: Loader, d: DataFile,
                                              isUnknown: FormatTest, unknown: Loader)
    ensures d.format == format && !isUnknown(d) ==>
              LoadDataFile(AddDataFileHandler(h, format, fn), d, isUnknown, unknown) == fn(d)
    ensures d.format != format ==>
              LoadDataFile(AddDataFileHandler(h, format, fn), d, isUnknown, unknown) == LoadDataFile(h, d, isUnknown, unknown)
  {
  }

  // ---------------------------------------------------------------------
  // The registry
  // ---------------------------------------------------------------------

  /** A factory: one of the built-in reasoner types, or a plugin library
      reporting its own name. */
  datatype Factory = Typed(typeName: string) | FromPlugin(path: string, pluginName: string) {
    function Name(): string {
      match this
      case Typed(n) => n
      case FromPlugin(_, n) => n
    }
  }

  /**
    A reasoner instance: its ID, the factory that created it, and a serial
    number standing for the object itself. The pool holds shared pointers
    and compares them by address, so two reasoners with the same ID and
    factory are still different members; `loadReasoner` gives each new
    instance the running index, which no earlier instance has.
   */
  datatype Instance = Instance(id: string, factory: Factory, serial: nat)

  /** A cached plugin library and whether it loaded. */
  datatype Plugin = Plugin(path: string, loaded: bool)

  datatype Manager = Manager(factories: map<string, Factory>, plugins: map<string, Plugin>,
                             pool: seq<Instance>, index: nat)

  /** `addReasonerFactory`: the factory for `name`, replacing any earlier one. */
  function AddReasonerFactory(m: Manager, name: string, f: Factory): (r: Manager)
    ensures r.factories.Keys == m.factories.Keys + {name} && r.factories[name] == f
    ensures forall k :: k in m.factories && k != name ==> r.factories[k] == m.factories[k]
    ensures r.plugins == m.plugins && r.pool == m.pool && r.index == m.index
  {
    m.(factories := m.factories[name := f])
  }

  /** A fresh registry knows the four built-in types, each by its own name. */
  function NewManager(): (m: Manager)
    ensures m.factories.Keys == {"Mongolog", "Prolog", "ESG", "SWRL"}
    ensures forall k :: k in m.factories ==> m.factories[k] == Typed(k)
    ensures m.plugins == map[] && m.pool == [] && m.index == 0
  {
    var m0 := Manager(map[], map[], [], 0);
    AddReasonerFactory(AddReasonerFactory(AddReasonerFactory(AddReasonerFactory(
      m0, "Mongolog", Typed("Mongolog")), "Prolog", Typed("Prolog")), "ESG", Typed("ESG")), "SWRL", Typed("SWRL"))
  }

  /** Registering twice under one name keeps only the second factory. */
  lemma {:induction false} FactoryReplaced(m: Manager, name: string, f: Factory, g: Factory)
    ensures AddReasonerFactory(AddReasonerFactory(m, name, f), name, g) == AddReasonerFactory(m, name, g)
  {
  }

  /** The members of `pool` for which `keep` holds, in pool order. */
  function Select(pool: seq<Instance>, keep: Instance -> bool): (r: seq<Instance>)
    ensures |r| <= |pool|
    ensures forall x :: x in r <==> x in pool && keep(x)
  {
    if pool == [] then [] else Select(pool[..|pool| - 1], keep) + (if keep(pool[|pool| - 1]) then [pool[|pool| - 1]] else [])
  }

  /** Selection keeps the order: it distributes over concatenation. */
  lemma {:induction false} SelectAppend(a: seq<Instance>, b: seq<Instance>, keep: Instance -> bool)
    ensures Select(a + b, keep) == Select(a, keep) + Select(b, keep)
    decreases |b|
  {
    if b != [] {
      var b0 := b[..|b| - 1];
      var last := b[|b| - 1];
      assert (a + b)[..|a + b| - 1] == a + b0;
      assert (a + b)[|a + b| - 1] == last;
      SelectAppend(a, b0, keep);
      var tail := if keep(last) then [last] else [];
      assert Select(a + b, keep) == Select(a + b0, keep) + tail;
      assert Select(b, keep) == Select(b0, keep) + tail;
    } else {
      assert a + b == a;
    }
  }

  /** `addReasoner`: the reasoner joins the end of the pool. */
  function AddReasoner(m: Manager, x: Instance): (r: Manager)
    ensures r.pool == m.pool + [x] && r.factories == m.factories && r.plugins == m.plugins && r.index == m.index
  {
    m.(pool := m.pool + [x])
  }

  function Other(x: Instance): Instance -> bool {
    y => y != x
  }

  /** `removeReasoner`: every occurrence leaves the pool, the rest stay in
      order. */
  function RemoveReasoner(m: Manager, x: Instance): (r: Manager)
    ensures x !in r.pool
    ensures forall y :: y != x ==> (y in r.pool <==> y in m.pool)
    ensures r.factories == m.factories && r.plugins == m.plugins && r.index == m.index
  {
    m.(pool := Select(m.pool, Other(x)))
  }

  /** Removing a reasoner that was not pooled before it was added gives
      back the registry as it was. */
  lemma {:induction false} RemoveUndoesAdd(m: Manager, x: Instance)
    requires x !in m.pool
    ensures RemoveReasoner(AddReasoner(m, x), x) == m
  {
    SelectAppend(m.pool, [x], Other(x));
    SelectNone(m.pool, Other(x));
    assert Select([x], Other(x)) == [];
  }

  /** Selecting by a condition that holds throughout keeps the pool. */
  lemma {:induction false} SelectNone(pool: seq<Instance>, keep: Instance -> bool)
    requires forall x :: x in pool ==> keep(x)
    ensures Select(pool, keep) == pool
    decreases |pool|
  {
    if pool != [] {
      var init, last := pool[..|pool| - 1], pool[|pool| - 1];
      assert forall x :: x in init ==> x in pool;
      SelectNone(init, keep);
      assert last in pool;
      assert Select(pool, keep) == Select(init, keep) + [last];
      assert init + [last] == pool;
    }
  }

  /** `getReasonerForPredicate`: the pool members that currently define
      the predicate, in pool order. */
  method ReasonersForPredicate(pool: seq<Instance>, current: (Instance, Indicator) -> bool, p: Indicator)
    returns (out: seq<Instance>)
    ensures out == Select(pool, x => current(x, p))
    ensures forall x :: x in out <==> x in pool && current(x, p)
  {
    out := [];
    var i := 0;
    while i < |pool|
      invariant 0 <= i <= |pool|
      invariant out == Select(pool[..i], x => current(x, p))
    {
      assert pool[..i + 1][..i] == pool[..i];
      if current(pool[i], p) {
        out := out + [pool[i]];
      }
      i := i + 1;
    }
    assert pool[..i] == pool;
  }

  /** `loadReasonerPlugin`: a path is opened at most once; afterwards the
      cached plugin answers, and only if it loaded. */
  function LoadReasonerPlugin(m: Manager, path: string, opens: string -> bool, pluginName: string -> string)
    : (r: (Manager, Option<Factory>))
    ensures r.0.plugins.Keys == m.plugins.Keys + {path}
    ensures path in m.plugins ==> r.0 == m
    ensures r.1.Some? <==> r.0.plugins[path].loaded
    ensures r.1.Some? ==> r.1.value.FromPlugin? && r.1.value.path == path
    ensures r.0.factories == m.factories && r.0.pool == m.pool && r.0.index == m.index
    ensures path !in m.plugins ==> r.0.plugins == m.plugins[path := Plugin(path, opens(path))]
    ensures path !in m.plugins ==> (r.1.Some? <==> opens(path))
  {
    if path !in m.plugins then
      var p := Plugin(path, opens(path));
      (m.(plugins := m.plugins[path := p]), if p.loaded then Some(FromPlugin(path, pluginName(path))) else None)
    else if m.plugins[path].loaded then (m, Some(FromPlugin(path, pluginName(path))))
    else (m, None)
  }

  /** Asking again changes nothing and gets the same answer, however the
      library would open now: a failed load is never retried. */
  lemma {:induction false} PluginCached(m: Manager, path: string, opens: string -> bool, opens2: string -> bool, pluginName: string -> string)
    ensures var (m1, f1) := LoadReasonerPlugin(m, path, opens, pluginName);
            LoadReasonerPlugin(m1, path, opens2, pluginName) == (m1, f1)
  {
  }

  /** The factory a configuration asks for: its `lib`, else its `type`. */
  function FindFactory(m: Manager, cfg: Tree, opens: string -> bool, pluginName: string -> string)
    : (r: (Manager, Option<Factory>))
    ensures r.0.factories == m.factories && r.0.pool == m.pool && r.0.index == m.index
    ensures Get(cfg, "lib").None? ==> r.0 == m
    ensures Get(cfg, "lib").Some? ==>
              var lib := Get(cfg, "lib").value;
              lib in r.0.plugins && (r.1.Some? <==> r.0.plugins[lib].loaded)
              && (r.1.Some? ==> r.1.value == FromPlugin(lib, pluginName(lib)))
    ensures Get(cfg, "lib").Some? ==>
              var lib := Get(cfg, "lib").value;
              (lib in m.plugins ==> r.0 == m)
              && (lib !in m.plugins ==> r.0.plugins == m.plugins[lib := Plugin(lib, opens(lib))] && (r.1.Some? <==> opens(lib)))
    ensures Get(cfg, "lib").None? && Get(cfg, "type").None? ==> r.1.None?
    ensures Get(cfg, "lib").None? && Get(cfg, "type").Some? ==>
              var ty := Get(cfg, "type").value;
              (r.1.Some? <==> ty in m.factories) && (r.1.Some? ==> r.1.value == m.factories[ty])
  {
    match Get(cfg, "lib")
    case Some(lib) => LoadReasonerPlugin(m, lib, opens, pluginName)
    case None =>
      match Get(cfg, "type")
      case Some(ty) => (m, if ty in m.factories then Some(m.factories[ty]) else None)
      case None => (m, None)
  }

  /** The outcome of `loadReasoner`: the reasoner joined the pool, it
      rejected its configuration, or no factory was found (the source
      throws `ReasonerError`). */
  datatype Outcome = Added(x: Instance) | Rejected(x: Instance) | NoFactory

  /** `std::to_string` of a natural number. */
  function NatToString(n: nat): (r: string)
    ensures |r| > 0
    decreases n
  {
    if n < 10 then [DigitChar(n)] else NatToString(n / 10) + [DigitChar(n % 10)]
  }

  function DigitChar(d: nat): (r: char)
    requires d < 10
    ensures IsDigit(r) && DigitValue(r) == d
  {
    ('0' as int + d) as char
  }

  /** The ID of a new reasoner: its `name`, else the factory name and the
      running index. */
  function ReasonerId(cfg: Tree, f: Factory, index: nat): (r: string)
    ensures Get(cfg, "name").Some? ==> r == Get(cfg, "name").value
    ensures Get(cfg, "name").None? ==> r == f.Name() + NatToString(index)
  {
    match Get(cfg, "name")
    case Some(n) => n
    case None => f.Name() + NatToString(index)
  }

  /** `loadReasoner`. */
  function LoadReasoner(m: Manager, cfg: Tree, opens: string -> bool, pluginName: string -> string,
                        accepts: (Instance, Configuration) -> bool): (r: (Manager, Outcome))
    ensures r.0.factories == m.factories
    ensures r.1.NoFactory? ==> r.0.pool == m.pool && r.0.index == m.index
    ensures r.1.NoFactory? <==> FindFactory(m, cfg, opens, pluginName).1.None?
    ensures !r.1.NoFactory? ==> r.0.index == m.index + 1
    ensures !r.1.NoFactory? ==> r.1.x.id == ReasonerId(cfg, r.1.x.factory, m.index) && r.1.x.serial == m.index
    ensures !r.1.NoFactory? ==> FindFactory(m, cfg, opens, pluginName).1 == Some(r.1.x.factory)
    ensures r.0.plugins == FindFactory(m, cfg, opens, pluginName).0.plugins
    ensures r.1.Added? <==> !r.1.NoFactory? && accepts(r.1.x, LoadPropertyTree(cfg))
    ensures r.1.Added? ==> r.0.pool == m.pool + [r.1.x]
    ensures !r.1.Added? ==> r.0.pool == m.pool
    ensures Get(cfg, "lib").Some? && !r.1.NoFactory? ==> r.1.x.factory == FromPlugin(Get(cfg, "lib").value, pluginName(Get(cfg, "lib").value))
  {
    var (m1, factory) := FindFactory(m, cfg, opens, pluginName);
    match factory
    case None => (m1, NoFactory)
    case Some(f) =>
      var x := Instance(ReasonerId(cfg, f, m.index), f, m.index);
      var m2 := if accepts(x, LoadPropertyTree(cfg)) then AddReasoner(m1, x) else m1;
      (m2.(index := m.index + 1), if accepts(x, LoadPropertyTree(cfg)) then Added(x) else Rejected(x))
  }

  /** Every pooled reasoner was created before the running index. */
  predicate Fresh(m: Manager) {
    forall x :: x in m.pool ==> x.serial < m.index
  }

  /** Loading keeps the pool fresh, and the reasoner it adds is a new
      member. */
  lemma {:induction false} LoadKeepsFresh(m: Manager, cfg: Tree, opens: string -> bool, pluginName: string -> string,
                       accepts: (Instance, Configuration) -> bool)
    requires Fresh(m)
    ensures var (m1, out) := LoadReasoner(m, cfg, opens, pluginName, accepts);
            Fresh(m1) && (out.Added? ==> out.x !in m.pool)
  {
  }

  /**
    Loading one configuration twice pools two distinct reasoners, and
    removing the first leaves the second in the pool, as removal by
    pointer does.
   */
  lemma {:induction false} RemoveKeepsTwin(m: Manager, cfg: Tree, opens: string -> bool, pluginName: string -> string,
                        accepts: (Instance, Configuration) -> bool)
    requires Fresh(m)
    ensures var (m1, o1) := LoadReasoner(m, cfg, opens, pluginName, accepts);
            var (m2, o2) := LoadReasoner(m1, cfg, opens, pluginName, accepts);
            o1.Added? && o2.Added? ==>
              o1.x != o2.x && o1.x !in RemoveReasoner(m2, o1.x).pool && o2.x in RemoveReasoner(m2, o1.x).pool
  {
    var (m1, o1) := LoadReasoner(m, cfg, opens, pluginName, accepts);
    var (m2, o2) := LoadReasoner(m1, cfg, opens, pluginName, accepts);
    if o1.Added? && o2.Added? {
      assert o1.x.serial == m.index && o2.x.serial == m.index + 1;
      assert o2.x in m2.pool;
    }
  }

  /** A configuration naming both a library and a type uses the library. */
  lemma {:induction false} LibBeforeType(m: Manager, cfg: Tree, opens: string -> bool, pluginName: string -> string,
                      accepts: (Instance, Configuration) -> bool)
    requires Get(cfg, "lib").Some? && Get(cfg, "type").Some?
    ensures var (m1, out) := LoadReasoner(m, cfg, opens, pluginName, accepts);
            !out.NoFactory? ==> out.x.factory.FromPlugin?
  {
  }

  // The decimal index in generated IDs.

  lemma {:induction false} DigitsValueOfPrefix(s: string, t: string, b: nat)
    requires b <= |s| && b <= |t| && s[..b] == t[..b]
    ensures DigitsValue(s, 0, b) == DigitsValue(t, 0, b)
    decreases b
  {
    if b > 0 {
      assert s[b - 1] == s[..b][b - 1] == t[..b][b - 1] == t[b - 1];
      assert s[..b - 1] == s[..b][..b - 1];
      assert t[..b - 1] == t[..b][..b - 1];
      DigitsValueOfPrefix(s, t, b - 1);
    }
  }

  /** The number lexer reads a written index back as the index. */
  lemma {:induction false} NatToStringReadsBack(n: nat)
    ensures DigitsValue(NatToString(n), 0, |NatToString(n)|) == n
    decreases n
  {
    var s := NatToString(n);
    if n >= 10 {
      var h := NatToString(n / 10);
      NatToStringReadsBack(n / 10);
      assert s == h + [DigitChar(n % 10)];
      assert s[..|h|] == h[..|h|];
      DigitsValueOfPrefix(s, h, |h|);
    }
  }

  /** Different indices give different IDs, so two unnamed reasoners from
      one factory never share an ID. */
  lemma {:induction false} DistinctIndices(cfg: Tree, f: Factory, i: nat, j: nat)
    requires Get(cfg, "name").None? && i != j
    ensures ReasonerId(cfg, f, i) != ReasonerId(cfg, f, j)
  {
    NatToStringReadsBack(i);
    NatToStringReadsBack(j);
    var a := ReasonerId(cfg, f, i);
    var b := ReasonerId(cfg, f, j);
    assert a[|f.Name()|..] == NatToString(i);
    assert b[|f.Name()|..] == NatToString(j);
  }
}
