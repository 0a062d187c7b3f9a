/**
 * The completion context: the buffer the three routines append to, and what
 * they read of the cursor's surroundings.
 */
module Context {
  import opened Wrappers
  import opened OrderedMap
  import opened Completion
  import opened Scope
  import opened Params

  class CompletionContext {
    /** The leaf under the cursor and the levels above it, as the outward walk visits them. */
    const leaf: seq<Level>
    /** `leaf.parent_kind()`. */
    const leafParentKind: Option<SyntaxKind>
    /** `world().library()`. */
    const library: Library
    /** The text before the cursor. */
    const before: string
    /** The completions collected so far. */
    var completions: seq<Entry>
    /** The `enrich(prefix, suffix)` calls made so far, in order. */
    var enrichments: seq<(string, string)>

    constructor (leaf: seq<Level>, leafParentKind: Option<SyntaxKind>, library: Library, before: string)
      ensures this.leaf == leaf && this.leafParentKind == leafParentKind
      ensures this.library == library && this.before == before
      ensures completions == [] && enrichments == []
    {
      this.leaf := leaf;
      this.leafParentKind := leafParentKind;
      this.library := library;
      this.before := before;
      completions := [];
      enrichments := [];
    }

    /**
     * `scope_completions_`: appends the library completions no local name
     * shadows, then the local names; earlier completions are left as they were.
     */
    method ScopeCompletions(parens: bool, filter: Value -> bool)
      modifies this
      ensures completions == old(completions) + ScopeEntries(leaf, leafParentKind, library, parens, filter)
      ensures enrichments == old(enrichments)
    {
      var defined := CollectDefined(leaf);
      var inMath := leafParentKind == Some(Equation) || leafParentKind == Some(Math)
                    || leafParentKind == Some(MathFrac) || leafParentKind == Some(MathAttach);
      var scope := if inMath then library.math else library.global;
      assert scope == LibraryScope(library, leafParentKind);
      PushLibrary(scope, filter, defined, parens);
      ghost var mid := completions;
      PushLocals(defined);
      ScopeEntriesSplit(old(completions), leaf, leafParentKind, library, parens, filter, mid, completions);
    }

    /** The loop over the library scope of `scope_completions_`. */
    method PushLibrary(scope: seq<(string, Value)>, filter: Value -> bool,
                       defined: seq<(string, CompletionKind)>, parens: bool)
      modifies this
      ensures completions == old(completions) + LibraryEntries(scope, filter, defined, parens)
      ensures enrichments == old(enrichments)
    {
      for i := 0 to |scope|
        invariant completions == old(completions) + LibraryEntries(scope[..i], filter, defined, parens)
        invariant enrichments == old(enrichments)
      {
        LibraryEntriesSnoc(scope, i, filter, defined, parens);
        var (name, value) := scope[i];
        if filter(value) && Lookup(defined, name).None? {
          completions := completions + [ValueCompletion(name, value, parens)];
        }
      }
      assert scope[..|scope|] == scope;
    }

    /** The final loop of `scope_completions_`, over `defined` in key order. */
    method PushLocals(defined: seq<(string, CompletionKind)>)
      modifies this
      ensures completions == old(completions) + LocalEntries(defined)
      ensures enrichments == old(enrichments)
    {
      for i := 0 to |defined|
        invariant completions == old(completions) + LocalEntries(defined[..i])
        invariant enrichments == old(enrichments)
      {
        LocalEntriesSnoc(defined, i);
        var (name, kind) := defined[i];
        if name != "" {
          completions := completions + [Item(LocalCompletion(name, kind))];
        }
      }
      assert defined[..|defined|] == defined;
    }

    /**
     * `param_completions`: nothing when the callee does not resolve; otherwise
     * the completions of the offered parameters are appended, and `enrich` is
     * called when the text before the cursor ends with a comma.
     */
    method ParamCompletions(resolved: Option<Signature>, setRule: bool, args: seq<Arg>)
      modifies this
      ensures resolved.None? ==> completions == old(completions) && enrichments == old(enrichments)
      ensures resolved.Some? ==>
        completions == old(completions) + ParamEntries(resolved.value.named, ExcludedNames(args), setRule)
      ensures resolved.Some? ==>
        enrichments == old(enrichments) + (if EndsWith(before, ',') then [(" ", "")] else [])
    {
      if resolved.None? {
        return;
      }
      PushParams(resolved.value.named, ExcludedNames(args), setRule);
      if EndsWith(before, ',') {
        enrichments := enrichments + [(" ", "")];
      }
    }

    /** The loop over the named parameters of `param_completions`. */
    method PushParams(named: seq<ParamSpec>, exclude: seq<string>, setRule: bool)
      modifies this
      ensures completions == old(completions) + ParamEntries(named, exclude, setRule)
      ensures enrichments == old(enrichments)
    {
      for i := 0 to |named|
        invariant completions == old(completions) + ParamEntries(named[..i], exclude, setRule)
        invariant enrichments == old(enrichments)
      {
        ParamEntriesSnoc(named, i, exclude, setRule);
        var param := named[i];
        // the two `continue`s: an argument already names it, or a set rule cannot take it
        if param.name in exclude || (setRule && !param.settable) {
          continue;
        }
        if param.named {
          completions := completions + [Item(ParamCompletion(param))];
        }
        ghost var mid := completions;
        if param.positional {
          completions := completions + [CastCompletions(param.input)];
        }
        OfferedTurn(old(completions), named, i, exclude, setRule, mid, completions);
      }
      assert named[..|named|] == named;
    }

    /**
     * `named_param_value_completions`: nothing unless `name` is a named
     * parameter of the resolved callee; otherwise its default value, its cast
     * completions and, for `font`, the font completions are appended, and
     * `enrich` is called when the text before the cursor ends with a colon.
     */
    method NamedParamValueCompletions(resolved: Option<Signature>, name: string)
      modifies this
      ensures completions == old(completions) + ValueEntries(resolved, name)
      ensures enrichments == old(enrichments)
        + (if ValueTarget(resolved, name).Some? && EndsWith(before, ':') then [(" ", "")] else [])
    {
      if resolved.None? {
        return;
      }
      var found := FindNamed(resolved.value.named, name);
      if found.None? {
        return;
      }
      var param := found.value;
      if !param.named {
        return;
      }
      if param.expr.Some? {
        completions := completions + [Item(DefaultCompletion(param))];
      }
      completions := completions + [CastCompletions(param.input)];
      if name == "font" {
        completions := completions + [FontCompletions];
      }
      if EndsWith(before, ':') {
        enrichments := enrichments + [(" ", "")];
      }
    }
  }
}
