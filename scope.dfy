/**
 * `CompletionContext::scope_completions_`: the names in scope at the cursor,
 * gathered by walking outward from the leaf, then library entries that no
 * local name shadows, then the local names in ascending order.
 */
module Scope {
  import opened Wrappers
  import opened StrOrder
  import opened OrderedMap
  import opened Completion

  // ---------------------------------------------------------------------------
  // The syntax tree, as the walk sees it
  // ---------------------------------------------------------------------------

  datatype SyntaxKind = Equation | Math | MathFrac | MathAttach | In | OtherKind(name: string)

  /** What `analyze_import` makes of an import's source: the value's `name()` and `scope()`. */
  datatype ImportedValue = ImportedValue(name: Option<string>, scope: Option<seq<(string, Value)>>)

  /** A closure parameter, with the identifiers its pattern binds. */
  datatype ClosureParam =
    | PosParam(bindings: seq<string>)
    | NamedParam(name: string)
    | SpreadParam(sink: Option<string>)

  /**
   * A syntax node, by the one cast that succeeds on it. `analyzed` is the result
   * of analysing the import's source expression (`None` when there is no source
   * expression or the analysis fails).
   */
  datatype Node =
    | LetBinding(closure: bool, bindings: seq<string>)
    | ModuleImport(hasImportList: bool, analyzed: Option<ImportedValue>)
    | Closure(params: seq<ClosureParam>)
    | OtherNode

  /**
   * What the walk asks of a node's parent: the pattern's bindings when the parent
   * is a `for` loop, and the kind of the node's previous sibling.
   */
  datatype ParentInfo = ParentInfo(forPattern: Option<seq<string>>, prevSiblingKind: Option<SyntaxKind>)

  /**
   * One step of the outward walk: the current ancestor (the leaf at first), its
   * preceding siblings nearest first, and its parent (`None` at the root).
   */
  datatype Level = Level(node: Node, preceding: seq<Node>, parent: Option<ParentInfo>)

  /** One call of `try_insert`. */
  datatype Binding = Binding(name: string, kind: CompletionKind)

  // ---------------------------------------------------------------------------
  // The bindings the walk visits, in walk order
  // ---------------------------------------------------------------------------

  function Tagged(names: seq<string>, kind: CompletionKind): seq<Binding>
  {
    seq(|names|, i requires 0 <= i < |names| => Binding(names[i], kind))
  }

  function Classified(scope: seq<(string, Value)>): seq<Binding>
  {
    seq(|scope|, i requires 0 <= i < |scope| => Binding(scope[i].0, KindOfValue(scope[i].1)))
  }

  /** What one sibling contributes: a `let` binding's names or an import's names. */
  function NodeBindings(n: Node): seq<Binding>
  {
    match n
    case LetBinding(closure, names) => Tagged(names, if closure then Func else Variable)
    case ModuleImport(hasImportList, analyzed) =>
      if analyzed.None? then []
      else if !hasImportList then
        (if analyzed.value.name.Some? then [Binding(analyzed.value.name.value, Module)] else [])
      else if analyzed.value.scope.Some? then Classified(analyzed.value.scope.value)
      else []
    case _ => []
  }

  function SiblingBindings(nodes: seq<Node>): seq<Binding>
  {
    if nodes == [] then [] else NodeBindings(nodes[0]) + SiblingBindings(nodes[1..])
  }

  function ParamBindings(params: seq<ClosureParam>): seq<Binding>
  {
    if params == [] then []
    else
      var here := match params[0]
        case PosParam(names) => Tagged(names, Variable)
        case NamedParam(name) => [Binding(name, Variable)]
        case SpreadParam(sink) => if sink.Some? then [Binding(sink.value, Variable)] else [];
      here + ParamBindings(params[1..])
  }

  /** What a step up contributes: a `for` pattern unless the node follows `in`, a closure's parameters. */
  function ParentBindings(node: Node, p: ParentInfo): seq<Binding>
  {
    (if p.forPattern.Some? && p.prevSiblingKind != Some(In) then Tagged(p.forPattern.value, Variable) else [])
    + (if node.Closure? then ParamBindings(node.params) else [])
  }

  function LevelBindings(l: Level): seq<Binding>
  {
    SiblingBindings([l.node] + l.preceding)
    + (if l.parent.Some? then ParentBindings(l.node, l.parent.value) else [])
  }

  /** Every `try_insert` of the walk, in order; the walk stops at the first level without a parent. */
  function WalkBindings(walk: seq<Level>): seq<Binding>
  {
    if walk == [] then []
    else LevelBindings(walk[0]) + (if walk[0].parent.Some? then WalkBindings(walk[1..]) else [])
  }

  // ---------------------------------------------------------------------------
  // `defined`
  // ---------------------------------------------------------------------------

  /** The `try_insert` closure: empty names are dropped, and the first kind recorded for a name stays. */
  function TryInsert(d: seq<(string, CompletionKind)>, b: Binding): (r: seq<(string, CompletionKind)>)
    requires Sorted(d)
    ensures Sorted(r)
  {
    if b.name == "" then d else InsertVacant(d, b.name, b.kind)
  }

  function InsertAll(d: seq<(string, CompletionKind)>, bs: seq<Binding>): (r: seq<(string, CompletionKind)>)
    requires Sorted(d)
    ensures Sorted(r)
    decreases |bs|
  {
    if bs == [] then d else InsertAll(TryInsert(d, bs[0]), bs[1..])
  }

  /** The kind of the first binding named `k`, if any. */
  function FirstKind(bs: seq<Binding>, k: string): Option<CompletionKind>
  {
    if bs == [] then None
    else if bs[0].name == k then Some(bs[0].kind)
    else FirstKind(bs[1..], k)
  }

  /** `defined` once the whole walk is done. */
  function Defined(walk: seq<Level>): seq<(string, CompletionKind)>
  {
    InsertAll([], WalkBindings(walk))
  }

  lemma {:induction false} InsertAllAppend(d: seq<(string, CompletionKind)>, a: seq<Binding>, b: seq<Binding>)
    requires Sorted(d)
    ensures InsertAll(d, a + b) == InsertAll(InsertAll(d, a), b)
    decreases |a|
  {
    if a != [] {
      assert (a + b)[0] == a[0] && (a + b)[1..] == a[1..] + b;
      InsertAllAppend(TryInsert(d, a[0]), a[1..], b);
    } else {
      assert a + b == b;
    }
  }

  /**
   * What a run of `try_insert` calls leaves in the map: a name already there, or
   * the empty name, is unchanged; any other name gets the kind of its FIRST binding.
   */
  lemma {:induction false} InsertAllLookup(d: seq<(string, CompletionKind)>, bs: seq<Binding>, k: string)
    requires Sorted(d)
    ensures Lookup(InsertAll(d, bs), k) == if k == "" || Lookup(d, k).Some? then Lookup(d, k) else FirstKind(bs, k)
    decreases |bs|
  {
    if bs != [] {
      var d' := TryInsert(d, bs[0]);
      InsertAllLookup(d', bs[1..], k);
      LookupKeys(d, k);
      LookupKeys(d, bs[0].name);
    }
  }

  /**
   * The kind recorded for a name after the walk is that of the first binding of
   * it in walk order, and the empty name is never recorded.
   */
  lemma DefinedLookup(walk: seq<Level>, k: string)
    ensures Lookup(Defined(walk), k) == if k == "" then None else FirstKind(WalkBindings(walk), k)
    ensures k in Keys(Defined(walk)) <==> k != "" && FirstKind(WalkBindings(walk), k).Some?
  {
    InsertAllLookup([], WalkBindings(walk), k);
    LookupKeys(Defined(walk), k);
  }

  /** Of two runs of bindings, the earlier one decides a name it binds at all. */
  lemma {:induction false} FirstKindAppend(a: seq<Binding>, b: seq<Binding>, k: string)
    ensures FirstKind(a + b, k) == if FirstKind(a, k).Some? then FirstKind(a, k) else FirstKind(b, k)
  {
    if a != [] {
      assert (a + b)[0] == a[0] && (a + b)[1..] == a[1..] + b;
      FirstKindAppend(a[1..], b, k);
    } else {
      assert a + b == b;
    }
  }

  /**
   * Nearer scopes shadow farther ones: a name bound at the leaf's own level (by
   * the leaf, a preceding sibling or the step to its parent) takes the kind of
   * that binding, whatever the ancestors bind it to; otherwise the rest of the
   * walk decides.
   */
  lemma NearerLevelShadows(walk: seq<Level>, k: string)
    requires walk != [] && k != ""
    ensures FirstKind(LevelBindings(walk[0]), k).Some? ==>
              Lookup(Defined(walk), k) == FirstKind(LevelBindings(walk[0]), k)
    ensures FirstKind(LevelBindings(walk[0]), k).None? && walk[0].parent.Some? ==>
              Lookup(Defined(walk), k) == Lookup(Defined(walk[1..]), k)
  {
    DefinedLookup(walk, k);
    DefinedLookup(walk[1..], k);
    FirstKindAppend(LevelBindings(walk[0]),
      if walk[0].parent.Some? then WalkBindings(walk[1..]) else [], k);
  }

  /**
   * Within one level the current node comes first and earlier siblings follow,
   * nearest first: a name the node itself binds is decided by the node.
   */
  lemma NodeShadowsPrecedingSiblings(l: Level, k: string)
    requires FirstKind(NodeBindings(l.node), k).Some?
    ensures FirstKind(LevelBindings(l), k) == FirstKind(NodeBindings(l.node), k)
  {
    var sibs := [l.node] + l.preceding;
    assert sibs[1..] == l.preceding;
    FirstKindAppend(NodeBindings(l.node), SiblingBindings(l.preceding), k);
    FirstKindAppend(SiblingBindings(sibs),
      if l.parent.Some? then ParentBindings(l.node, l.parent.value) else [], k);
  }

  /**
   * The bindings one node contributes: a `let`'s names, as `Func` for a closure
   * binding and `Variable` otherwise; a bare import only the module's own name,
   * as `Module`; an import with a list every scope entry, classified by its value.
   */
  lemma NodeBindingsKinds(n: Node, b: Binding)
    ensures n.LetBinding? ==>
      (b in NodeBindings(n) <==> b.name in n.bindings && b.kind == (if n.closure then Func else Variable))
    ensures n.ModuleImport? && n.analyzed.Some? && !n.hasImportList ==>
      (b in NodeBindings(n) <==> n.analyzed.value.name == Some(b.name) && b.kind == Module)
    ensures n.ModuleImport? && n.analyzed.Some? && n.hasImportList ==>
      (b in NodeBindings(n) <==>
         n.analyzed.value.scope.Some? &&
         exists i :: 0 <= i < |n.analyzed.value.scope.value| &&
           n.analyzed.value.scope.value[i].0 == b.name &&
           KindOfValue(n.analyzed.value.scope.value[i].1) == b.kind)
    ensures n.ModuleImport? && n.analyzed.None? ==> NodeBindings(n) == []
    ensures n.Closure? || n.OtherNode? ==> NodeBindings(n) == []
  {
    if n.LetBinding? && b.name in n.bindings && b.kind == (if n.closure then Func else Variable) {
      var i :| 0 <= i < |n.bindings| && n.bindings[i] == b.name;
      assert NodeBindings(n)[i] == b;
    }
    if n.ModuleImport? && n.analyzed.Some? && n.hasImportList && n.analyzed.value.scope.Some? {
      var scope := n.analyzed.value.scope.value;
      if exists i :: 0 <= i < |scope| && scope[i].0 == b.name && KindOfValue(scope[i].1) == b.kind {
        var i :| 0 <= i < |scope| && scope[i].0 == b.name && KindOfValue(scope[i].1) == b.kind;
        assert NodeBindings(n)[i] == b;
      }
    }
  }

  // ---------------------------------------------------------------------------
  // The completions offered
  // ---------------------------------------------------------------------------

  /** The leaf's parent is one of the math kinds. */
  predicate InMath(parentKind: Option<SyntaxKind>)
  {
    parentKind == Some(Equation) || parentKind == Some(Math)
    || parentKind == Some(MathFrac) || parentKind == Some(MathAttach)
  }

  /** The standard library's two scopes, in their iteration order. */
  datatype Library = Library(global: seq<(string, Value)>, math: seq<(string, Value)>)

  function LibraryScope(lib: Library, parentKind: Option<SyntaxKind>): seq<(string, Value)>
  {
    if InMath(parentKind) then lib.math else lib.global
  }

  /** The library loop: a `value_completion` call per entry the filter keeps and no local name shadows. */
  function LibraryEntries(scope: seq<(string, Value)>, filter: Value -> bool,
                          defined: seq<(string, CompletionKind)>, parens: bool): seq<Entry>
  {
    if scope == [] then []
    else
      var (name, value) := scope[|scope| - 1];
      LibraryEntries(scope[..|scope| - 1], filter, defined, parens)
      + (if filter(value) && Lookup(defined, name).None? then [ValueCompletion(name, value, parens)] else [])
  }

  /** The completion pushed for a local name. */
  function LocalCompletion(name: string, kind: CompletionKind): Completion
  {
    if kind == Func then Completion(kind, name, Some(name + "(${})"), None, Some(TriggerSuggest))
    else Completion(kind, name, None, None, None)
  }

  /** The final loop over `defined`, in its iteration order. */
  function LocalEntries(defined: seq<(string, CompletionKind)>): seq<Entry>
  {
    if defined == [] then []
    else
      var (name, kind) := defined[|defined| - 1];
      LocalEntries(defined[..|defined| - 1])
      + (if name != "" then [Item(LocalCompletion(name, kind))] else [])
  }

  lemma LibraryEntriesSnoc(scope: seq<(string, Value)>, i: nat, filter: Value -> bool,
                           defined: seq<(string, CompletionKind)>, parens: bool)
    requires i < |scope|
    ensures LibraryEntries(scope[..i + 1], filter, defined, parens)
            == LibraryEntries(scope[..i], filter, defined, parens)
               + (if filter(scope[i].1) && Lookup(defined, scope[i].0).None?
                  then [ValueCompletion(scope[i].0, scope[i].1, parens)] else [])
  {
    assert scope[..i + 1][..i] == scope[..i];
  }

  lemma LocalEntriesSnoc(defined: seq<(string, CompletionKind)>, i: nat)
    requires i < |defined|
    ensures LocalEntries(defined[..i + 1])
            == LocalEntries(defined[..i])
               + (if defined[i].0 != "" then [Item(LocalCompletion(defined[i].0, defined[i].1))] else [])
  {
    assert defined[..i + 1][..i] == defined[..i];
  }

  /** Everything `scope_completions_` appends. */
  function ScopeEntries(walk: seq<Level>, parentKind: Option<SyntaxKind>, lib: Library,
                        parens: bool, filter: Value -> bool): seq<Entry>
  {
    LibraryEntries(LibraryScope(lib, parentKind), filter, Defined(walk), parens)
    + LocalEntries(Defined(walk))
  }

  /** The library loop's output followed by the local loop's output is what the routine appends. */
  lemma ScopeEntriesSplit(start: seq<Entry>, walk: seq<Level>, parentKind: Option<SyntaxKind>, lib: Library,
                          parens: bool, filter: Value -> bool, mid: seq<Entry>, post: seq<Entry>)
    requires mid == start + LibraryEntries(LibraryScope(lib, parentKind), filter, Defined(walk), parens)
    requires post == mid + LocalEntries(Defined(walk))
    ensures post == start + ScopeEntries(walk, parentKind, lib, parens, filter)
  {
  }

  /** Only `value_completion` calls come from the library loop, one per kept entry, in scope order. */
  lemma {:induction false} LibraryEntriesMembers(scope: seq<(string, Value)>, filter: Value -> bool,
                                                 defined: seq<(string, CompletionKind)>, parens: bool)
    ensures forall e | e in LibraryEntries(scope, filter, defined, parens) ::
              e.ValueCompletion? && e.parens == parens && (e.name, e.value) in scope
              && filter(e.value) && Lookup(defined, e.name).None?
    ensures forall i | 0 <= i < |scope| && filter(scope[i].1) && Lookup(defined, scope[i].0).None? ::
              ValueCompletion(scope[i].0, scope[i].1, parens) in LibraryEntries(scope, filter, defined, parens)
    decreases |scope|
  {
    if scope != [] {
      var init := scope[..|scope| - 1];
      LibraryEntriesMembers(init, filter, defined, parens);
      forall i | 0 <= i < |scope| && filter(scope[i].1) && Lookup(defined, scope[i].0).None?
        ensures ValueCompletion(scope[i].0, scope[i].1, parens) in LibraryEntries(scope, filter, defined, parens)
      {
        if i < |init| { assert init[i] == scope[i]; }
      }
    }
  }

  /** With no empty key, the local loop pushes one completion per entry of `defined`, in its order. */
  lemma {:induction false} LocalEntriesAt(defined: seq<(string, CompletionKind)>)
    requires "" !in Keys(defined)
    ensures |LocalEntries(defined)| == |defined|
    ensures forall i | 0 <= i < |defined| ::
              LocalEntries(defined)[i] == Item(LocalCompletion(defined[i].0, defined[i].1))
    decreases |defined|
  {
    if defined != [] {
      var init := defined[..|defined| - 1];
      assert Keys(init) <= Keys(defined) by {
        forall x | x in Keys(init) ensures x in Keys(defined) {
          var i :| 0 <= i < |init| && init[i].0 == x;
          assert defined[i].0 == x;
        }
      }
      assert defined[|defined| - 1].0 in Keys(defined);
      LocalEntriesAt(init);
    }
  }

  /**
   * The local loop over `defined`: one completion per name bound in the walk,
   * never for the empty name, in strictly ascending name order, each with the
   * kind of the nearest binding of its name.
   */
  lemma LocalEntriesOfWalk(walk: seq<Level>, loc: seq<Entry>)
    requires loc == LocalEntries(Defined(walk))
    ensures forall i, j | 0 <= i < j < |loc| :: loc[i].Item? && loc[j].Item? && Less(loc[i].c.caption, loc[j].c.caption)
    ensures forall i | 0 <= i < |loc| ::
      loc[i].Item? && loc[i].c.caption != "" && FirstKind(WalkBindings(walk), loc[i].c.caption) == Some(loc[i].c.kind)
    ensures forall x | x != "" && FirstKind(WalkBindings(walk), x).Some? ::
      exists i :: 0 <= i < |loc| && loc[i].c.caption == x
  {
    var d := Defined(walk);
    DefinedLookup(walk, "");
    LocalEntriesAt(d);
    forall i, j | 0 <= i < j < |loc|
      ensures loc[i].Item? && loc[j].Item? && Less(loc[i].c.caption, loc[j].c.caption)
    {
      assert loc[i].c.caption == d[i].0 && loc[j].c.caption == d[j].0;
    }
    forall i | 0 <= i < |loc|
      ensures loc[i].Item? && loc[i].c.caption != "" && FirstKind(WalkBindings(walk), loc[i].c.caption) == Some(loc[i].c.kind)
    {
      assert loc[i].c.caption == d[i].0 && loc[i].c.kind == d[i].1;
      assert d[i].0 in Keys(d);
      LookupAt(d, i);
      DefinedLookup(walk, d[i].0);
    }
    forall x | x != "" && FirstKind(WalkBindings(walk), x).Some?
      ensures exists i :: 0 <= i < |loc| && loc[i].c.caption == x
    {
      DefinedLookup(walk, x);
      var k :| 0 <= k < |d| && d[k].0 == x;
      assert loc[k].c.caption == x;
    }
  }

  /**
   * The local completions follow every library completion and come in strictly
   * ascending name order, so no name is offered twice.
   */
  lemma ScopeCompletionsOrder(walk: seq<Level>, parentKind: Option<SyntaxKind>, lib: Library,
                              parens: bool, filter: Value -> bool)
    ensures var r := ScopeEntries(walk, parentKind, lib, parens, filter);
      forall i, j | 0 <= i < |r| && 0 <= j < |r| && r[i].ValueCompletion? && r[j].Item? :: i < j
    ensures var r := ScopeEntries(walk, parentKind, lib, parens, filter);
      forall i, j | 0 <= i < j < |r| && r[i].Item? && r[j].Item? :: Less(r[i].c.caption, r[j].c.caption)
  {
    var d := Defined(walk);
    var lib' := LibraryEntries(LibraryScope(lib, parentKind), filter, d, parens);
    var loc := LocalEntries(d);
    var r := ScopeEntries(walk, parentKind, lib, parens, filter);
    LocalEntriesOfWalk(walk, loc);
    LibraryEntriesMembers(LibraryScope(lib, parentKind), filter, d, parens);
    assert forall i | 0 <= i < |lib'| :: r[i] == lib'[i] && lib'[i] in lib' && r[i].ValueCompletion?;
    assert forall i | |lib'| <= i < |r| :: r[i] == loc[i - |lib'|];
    assert forall k | 0 <= k < |loc| :: loc[k].Item?;
  }

  /**
   * Each local completion carries the kind of the nearest binding of its name,
   * and every bound non-empty name gets one.
   */
  lemma ScopeLocalCompletions(walk: seq<Level>, parentKind: Option<SyntaxKind>, lib: Library,
                              parens: bool, filter: Value -> bool)
    ensures var r := ScopeEntries(walk, parentKind, lib, parens, filter);
      forall i | 0 <= i < |r| && r[i].Item? ::
        r[i].c.caption != "" && FirstKind(WalkBindings(walk), r[i].c.caption) == Some(r[i].c.kind)
    ensures var r := ScopeEntries(walk, parentKind, lib, parens, filter);
      forall x | x != "" && FirstKind(WalkBindings(walk), x).Some? ::
        exists i :: 0 <= i < |r| && r[i].Item? && r[i].c.caption == x
  {
    var d := Defined(walk);
    var lib' := LibraryEntries(LibraryScope(lib, parentKind), filter, d, parens);
    var loc := LocalEntries(d);
    var r := ScopeEntries(walk, parentKind, lib, parens, filter);
    LocalEntriesOfWalk(walk, loc);
    LibraryEntriesMembers(LibraryScope(lib, parentKind), filter, d, parens);
    assert forall i | 0 <= i < |lib'| :: r[i] == lib'[i] && lib'[i] in lib' && r[i].ValueCompletion?;
    forall i | 0 <= i < |r| && r[i].Item?
      ensures r[i].c.caption != "" && FirstKind(WalkBindings(walk), r[i].c.caption) == Some(r[i].c.kind)
    {
      assert r[i] == loc[i - |lib'|];
    }
    forall x | x != "" && FirstKind(WalkBindings(walk), x).Some?
      ensures exists i :: 0 <= i < |r| && r[i].Item? && r[i].c.caption == x
    {
      var k :| 0 <= k < |loc| && loc[k].c.caption == x;
      assert r[|lib'| + k] == loc[k];
    }
  }

  /**
   * A local `Func` completion inserts `name(${})` and re-triggers suggestions;
   * a local completion of any other kind inserts its label as is. Neither has a detail.
   */
  lemma ScopeLocalCompletionFormat(walk: seq<Level>, parentKind: Option<SyntaxKind>, lib: Library,
                                   parens: bool, filter: Value -> bool)
    ensures var r := ScopeEntries(walk, parentKind, lib, parens, filter);
      forall i | 0 <= i < |r| && r[i].Item? ::
        r[i].c.detail.None? &&
        (r[i].c.kind == Func ==> r[i].c.apply == Some(r[i].c.caption + "(${})") && r[i].c.command == Some(TriggerSuggest)) &&
        (r[i].c.kind != Func ==> r[i].c.apply.None? && r[i].c.command.None?)
  {
    var d := Defined(walk);
    var lib' := LibraryEntries(LibraryScope(lib, parentKind), filter, d, parens);
    var r := ScopeEntries(walk, parentKind, lib, parens, filter);
    DefinedLookup(walk, "");
    LocalEntriesAt(d);
    LibraryEntriesMembers(LibraryScope(lib, parentKind), filter, d, parens);
    assert forall i | 0 <= i < |lib'| :: r[i] == lib'[i] && lib'[i] in lib' && r[i].ValueCompletion?;
    forall i | 0 <= i < |r| && r[i].Item?
      ensures i >= |lib'| && r[i].c == LocalCompletion(d[i - |lib'|].0, d[i - |lib'|].1)
    {
      assert r[i] == LocalEntries(d)[i - |lib'|];
    }
  }

  /**
   * The library completions: the math scope is used exactly when the leaf's
   * parent is an equation, math, fraction or attachment node, the global scope
   * otherwise; an entry is offered exactly when the filter keeps its value and
   * no local binding of its name was found.
   */
  lemma ScopeLibraryCompletions(walk: seq<Level>, parentKind: Option<SyntaxKind>, lib: Library,
                                parens: bool, filter: Value -> bool, name: string, value: Value)
    ensures var scope := if InMath(parentKind) then lib.math else lib.global;
      ValueCompletion(name, value, parens) in ScopeEntries(walk, parentKind, lib, parens, filter)
      <==> (name, value) in scope && filter(value) && (name == "" || FirstKind(WalkBindings(walk), name).None?)
    ensures forall e | e in ScopeEntries(walk, parentKind, lib, parens, filter) && e.ValueCompletion? ::
      e.parens == parens
  {
    var d := Defined(walk);
    var scope := LibraryScope(lib, parentKind);
    LibraryEntriesMembers(scope, filter, d, parens);
    LocalEntriesAt(d) by { DefinedLookup(walk, ""); }
    DefinedLookup(walk, name);
    LookupKeys(d, name);
    if (name, value) in scope && filter(value) && (name == "" || FirstKind(WalkBindings(walk), name).None?) {
      var i :| 0 <= i < |scope| && scope[i] == (name, value);
    }
  }

  // ---------------------------------------------------------------------------
  // The walk, step by step
  // ---------------------------------------------------------------------------

  /** A `for ident in ... { try_insert(...) }` loop. */
  method TryInsertEach(defined: seq<(string, CompletionKind)>, bs: seq<Binding>)
    returns (d: seq<(string, CompletionKind)>)
    requires Sorted(defined)
    ensures Sorted(d) && d == InsertAll(defined, bs)
  {
    d := defined;
    for i := 0 to |bs|
      invariant Sorted(d)
      invariant InsertAll(d, bs[i..]) == InsertAll(defined, bs)
    {
      assert bs[i..][1..] == bs[i + 1..];
      d := TryInsert(d, bs[i]);
    }
    assert bs[|bs|..] == [];
  }

  /** The inner `while let`: the node itself, then each preceding sibling, nearest first. */
  method ScanSiblings(defined: seq<(string, CompletionKind)>, siblings: seq<Node>)
    returns (d: seq<(string, CompletionKind)>)
    requires Sorted(defined)
    ensures Sorted(d) && d == InsertAll(defined, SiblingBindings(siblings))
  {
    d := defined;
    var j := 0;
    while j < |siblings|
      invariant 0 <= j <= |siblings|
      invariant Sorted(d)
      invariant InsertAll(d, SiblingBindings(siblings[j..])) == InsertAll(defined, SiblingBindings(siblings))
    {
      assert siblings[j..][0] == siblings[j] && siblings[j..][1..] == siblings[j + 1..];
      var here := NodeBindings(siblings[j]);
      InsertAllAppend(d, here, SiblingBindings(siblings[j + 1..]));
      d := TryInsertEach(d, here);
      j := j + 1;
    }
    assert siblings[j..] == [];
  }

  /** The step to the parent: a `for` loop's pattern, then a closure's parameters. */
  method StepUp(defined: seq<(string, CompletionKind)>, node: Node, parent: ParentInfo)
    returns (d: seq<(string, CompletionKind)>)
    requires Sorted(defined)
    ensures Sorted(d) && d == InsertAll(defined, ParentBindings(node, parent))
  {
    var forBindings := if parent.forPattern.Some? && parent.prevSiblingKind != Some(In)
                       then Tagged(parent.forPattern.value, Variable) else [];
    var closureBindings := if node.Closure? then ParamBindings(node.params) else [];
    InsertAllAppend(defined, forBindings, closureBindings);
    d := TryInsertEach(defined, forBindings);
    d := TryInsertEach(d, closureBindings);
  }

  /** What the rest of the walk inserts, from level `i` on: its siblings, then, if it has a parent, the step up and the levels above. */
  lemma WalkLevel(walk: seq<Level>, i: nat, d: seq<(string, CompletionKind)>)
    requires i < |walk| && Sorted(d)
    ensures walk[i].parent.None? ==>
      InsertAll(d, WalkBindings(walk[i..])) == InsertAll(d, SiblingBindings([walk[i].node] + walk[i].preceding))
    ensures walk[i].parent.Some? ==>
      InsertAll(d, WalkBindings(walk[i..]))
      == InsertAll(InsertAll(InsertAll(d, SiblingBindings([walk[i].node] + walk[i].preceding)),
                             ParentBindings(walk[i].node, walk[i].parent.value)),
                   WalkBindings(walk[i + 1..]))
  {
    var level := walk[i];
    assert walk[i..][0] == level && walk[i..][1..] == walk[i + 1..];
    var siblings := SiblingBindings([level.node] + level.preceding);
    if level.parent.Some? {
      var up := ParentBindings(level.node, level.parent.value);
      var rest := WalkBindings(walk[i + 1..]);
      assert WalkBindings(walk[i..]) == siblings + up + rest;
      InsertAllAppend(d, siblings + up, rest);
      InsertAllAppend(d, siblings, up);
    } else {
      assert WalkBindings(walk[i..]) == siblings + [];
      assert siblings + [] == siblings;
    }
  }

  /**
   * The outer `while let`: each level's siblings, then one level up, until a
   * node without a parent. The result is `defined`.
   */
  method CollectDefined(walk: seq<Level>) returns (defined: seq<(string, CompletionKind)>)
    ensures Sorted(defined)
    ensures defined == Defined(walk)
  {
    defined := [];
    var i := 0;
    while i < |walk|
      invariant 0 <= i <= |walk|
      invariant Sorted(defined)
      invariant InsertAll(defined, WalkBindings(walk[i..])) == Defined(walk)
    {
      var level := walk[i];
      WalkLevel(walk, i, defined);
      defined := ScanSiblings(defined, [level.node] + level.preceding);
      if level.parent.None? {
        break;
      }
      defined := StepUp(defined, level.node, level.parent.value);
      i := i + 1;
    }
  }
}
