# Scope and parameter completions of the tinymist language server

This project models three completion routines of tinymist's Typst language
server:

- `CompletionContext::scope_completions_` offers the names in scope at the cursor.
- `param_completions` offers the named parameters of the function being called.
- `named_param_value_completions` offers values for one named parameter.

All three append to the completion context's `completions` buffer. The model
proves what they append and that nothing already in the buffer is disturbed.

`scope_completions_` works in three steps:

1. It walks outward from the leaf under the cursor: the node itself, then its
   preceding siblings (nearest first), then the step up to the parent, until a
   node has no parent. Every name that a `let`, an import, a `for` pattern or a
   closure parameter binds goes into an ordered map `defined`. A name is
   recorded only once, with the kind of its first (nearest) binding, and the
   empty name is never recorded.
2. It offers the entries of the standard library's global scope, or of its math
   scope when the leaf's parent is a math node. An entry is offered only if the
   caller's filter keeps its value and no local name shadows it.
3. It offers one completion per local name, in ascending name order. A function
   inserts `name(${})` and re-triggers suggestions.

`param_completions` goes through the callee's named parameters. It skips a
parameter that is already given as a named argument, and in a set rule it skips
one that is not settable. For the rest it offers a `name: ${}` completion (when
the parameter is named) and the parameter's cast completions (when it is
positional). It then calls `enrich(" ", "")` when the text before the cursor
ends with a comma.

`named_param_value_completions` looks up one named parameter. It offers the
parameter's default value, then its cast completions, then the font
completions when the parameter is `font`. It then calls `enrich(" ", "")` when
the text before the cursor ends with a colon.

## Layout

- `wrappers.dfy`: `Option`.
- `str_order.dfy`: the key order of `defined`. Rust's `BTreeMap<EcoString, _>`
  compares strings byte-wise, which for UTF-8 is the lexicographic order of
  code points, with a proper prefix first.
- `ordered_map.dfy`: `defined` as a strictly ascending association list, and
  the vacant-entry insertion.
- `completion.dfy`: completion kinds, values, completion items, and the
  entries of the completion buffer.
- `scope.dfy`: the walk, `try_insert`, the library and local completions of
  `scope_completions_`, as specification functions and step-by-step methods.
- `params.dfy`: parameter signatures, the `exclude` list, and the
  specification functions of the two parameter routines.
- `context.dfy`: the class `CompletionContext`, whose methods append to the
  `completions` field the way the three routines do.

## Model

| member | source | states |
|---|---|---|
| StrOrder.LessIrreflexive | crates/tinymist-query/src/upstream/complete/ext.rs:21 | no key of `defined` sorts before itself |
| StrOrder.LessTransitive | crates/tinymist-query/src/upstream/complete/ext.rs:21 | the key order of `defined` is transitive |
| StrOrder.LessTotal | crates/tinymist-query/src/upstream/complete/ext.rs:21 | any two distinct keys are ordered one way or the other |
| OrderedMap.InsertVacant | crates/tinymist-query/src/upstream/complete/ext.rs:27-29 | the map stays sorted; a key already present leaves the map unchanged; an absent key is added with the given value and the map grows by exactly that key; every other key keeps its value |
| OrderedMap.LookupKeys | crates/tinymist-query/src/upstream/complete/ext.rs:127 | `contains_key` holds exactly for the keys of the map |
| OrderedMap.LookupAt | crates/tinymist-query/src/upstream/complete/ext.rs:132 | iterating the sorted map yields each key with the value looked up for it |
| Completion.KindOfValue | crates/tinymist-query/src/upstream/complete/ext.rs:63-68 | an imported function is `Func`, a module `Module`, a type `Type`, and anything else `Constant`, in both directions |
| Scope.TryInsert | crates/tinymist-query/src/upstream/complete/ext.rs:22-30 | `defined` stays a strictly ordered map after each insertion |
| Scope.InsertAllLookup | crates/tinymist-query/src/upstream/complete/ext.rs:22-30 | after a run of insertions, an empty name and a name already present are unchanged; any other name gets the kind of its first binding in the run |
| Scope.DefinedLookup | crates/tinymist-query/src/upstream/complete/ext.rs:32-112 | after the walk, a name maps to the kind of its first binding in walk order; the empty name is absent; a name is defined exactly when it is non-empty and bound somewhere on the walk |
| Scope.NearerLevelShadows | crates/tinymist-query/src/upstream/complete/ext.rs:32-112 | a name bound at the leaf's level takes that binding's kind whatever the ancestors bind; otherwise the levels above decide |
| Scope.NodeShadowsPrecedingSiblings | crates/tinymist-query/src/upstream/complete/ext.rs:34-76 | a name the current node binds is decided by the node, not by earlier siblings or the step up |
| Scope.NodeBindingsKinds | crates/tinymist-query/src/upstream/complete/ext.rs:36-73 | a `let` binds its names as `Func` for a closure and `Variable` otherwise; an import without a list binds only the module's name as `Module`; an import with a list binds each scope entry with its value's kind; a failed analysis and any other node bind nothing (each an if-and-only-if) |
| Scope.TryInsertEach | crates/tinymist-query/src/upstream/complete/ext.rs:41-43 | the loop's result is sorted and equals inserting the bindings one by one in order |
| Scope.ScanSiblings | crates/tinymist-query/src/upstream/complete/ext.rs:34-76 | the inner `while let` leaves `defined` equal to inserting the bindings of the node and then of each preceding sibling, nearest first |
| Scope.StepUp | crates/tinymist-query/src/upstream/complete/ext.rs:78-105 | the step to the parent inserts the `for` pattern (unless the node follows `in`) and then the closure's parameters |
| Scope.CollectDefined | crates/tinymist-query/src/upstream/complete/ext.rs:32-112 | the outer `while let` stops at a node without a parent and leaves `defined` sorted and equal to the insertions of the whole walk |
| Scope.LibraryEntriesMembers | crates/tinymist-query/src/upstream/complete/ext.rs:126-130 | the library loop makes only `value_completion` calls with the caller's `parens`; each is for a scope entry that the filter keeps and that is not defined locally; and every such entry gets one |
| Scope.LocalEntriesAt | crates/tinymist-query/src/upstream/complete/ext.rs:132-155 | with no empty key, the final loop pushes exactly one completion per entry of `defined`, in the map's order |
| Scope.LocalEntriesOfWalk | crates/tinymist-query/src/upstream/complete/ext.rs:132-155 | the local completions have strictly ascending labels; each label is non-empty and carries the kind of its nearest binding; every bound non-empty name gets one |
| Scope.ScopeCompletionsOrder | crates/tinymist-query/src/upstream/complete/ext.rs:122-155 | every library completion precedes every local one, and local labels strictly ascend, so no local name is offered twice |
| Scope.ScopeLocalCompletions | crates/tinymist-query/src/upstream/complete/ext.rs:132-155 | in the routine's whole output, each pushed item is a non-empty bound name with its nearest binding's kind, and every bound non-empty name appears |
| Scope.ScopeLocalCompletionFormat | crates/tinymist-query/src/upstream/complete/ext.rs:133-153 | a local `Func` completion inserts `name(${})` and re-triggers suggestions; any other kind inserts nothing extra and has no command; none has a detail |
| Scope.ScopeLibraryCompletions | crates/tinymist-query/src/upstream/complete/ext.rs:114-130 | a library entry is offered exactly when it is in the math scope (if the leaf's parent is an equation, math, fraction or attachment node) or else the global scope, the filter keeps it, and no local binding of its name exists; every library completion uses the caller's `parens` |
| Context.CompletionContext.ScopeCompletions | crates/tinymist-query/src/upstream/complete/ext.rs:20-156 | appends exactly the library completions and then the local completions; earlier completions and the `enrich` log are untouched |
| Context.CompletionContext.PushLibrary | crates/tinymist-query/src/upstream/complete/ext.rs:126-130 | the library loop appends exactly its `value_completion` calls |
| Context.CompletionContext.PushLocals | crates/tinymist-query/src/upstream/complete/ext.rs:132-155 | the final loop appends exactly the local completions |
| Params.ExcludedNamesSpec | crates/tinymist-query/src/upstream/complete/ext.rs:185-191 | a name is in `exclude` exactly when a named argument carries it |
| Params.ParamEntriesSound | crates/tinymist-query/src/upstream/complete/ext.rs:195-223 | only parameter completions and cast calls are appended; each completion comes from an offered named parameter and each cast call from an offered positional one |
| Params.ParamEntriesComplete | crates/tinymist-query/src/upstream/complete/ext.rs:195-223 | every offered named parameter gets its completion, and every offered positional one its cast call |
| Params.ParamEntriesOnce | crates/tinymist-query/src/upstream/complete/ext.rs:195-217 | with distinct parameter names, no two pushed completions share a label |
| Params.ParamCompletionsOffer | crates/tinymist-query/src/upstream/complete/ext.rs:184-217 | a parameter gets a completion exactly when no named argument gives it, it is settable or the call is not a set rule, and it is named; that completion is of kind `Param`, inserts `name: ${}` and re-triggers suggestions |
| Context.CompletionContext.ParamCompletions | crates/tinymist-query/src/upstream/complete/ext.rs:160-228 | an unresolved callee changes nothing; otherwise it appends exactly the offered parameters' completions and cast calls, and records one `enrich(" ", "")` exactly when the text before the cursor ends with a comma |
| Context.CompletionContext.PushParams | crates/tinymist-query/src/upstream/complete/ext.rs:195-223 | the loop over the named parameters appends exactly each offered parameter's completion and cast call, in table order |
| Params.FindNamed | crates/tinymist-query/src/upstream/complete/ext.rs:256-258 | a found parameter is in the table under the looked-up name; no parameter carries the name when nothing is found |
| Params.FindNamedDistinct | crates/tinymist-query/src/upstream/complete/ext.rs:256-258 | in a table without repeated names, looking up a parameter's name finds that parameter |
| Params.ValueEntries | crates/tinymist-query/src/upstream/complete/ext.rs:254-276 | nothing is appended exactly when the callee is unresolved, the name is not a parameter, or the parameter is not named; otherwise the default-value completion comes first exactly when there is a default, and it is the only item; the cast completions are always included; the font completions are included exactly for `font`, after the cast completions |
| Context.CompletionContext.NamedParamValueCompletions | crates/tinymist-query/src/upstream/complete/ext.rs:231-281 | appends exactly the value completions of the parameter, and records one `enrich(" ", "")` exactly when a parameter was found and the text before the cursor ends with a colon |

## Left out

- The syntax tree is an input. The walk receives, per level, the node, its preceding siblings nearest first, and what it needs of the parent: a `for` loop's pattern and the kind of the node's previous sibling. Casting nodes, `children()` and `prev_sibling()` are not modelled.
- `analyze_import` and `world()` are inputs. An import carries the result of analysing its source (`None` when that fails), and the library is a value of the context. The log line written when the analysis fails is left out.
- `resolve_callee`, the `Repr::With` unwrapping and `analyze_dyn_signature` are one input `Option<Signature>`. It holds the primary signature's named parameters in the map's iteration order, keyed by each parameter's own name.
- `value_completion`, `cast_completions` and `font_completions` are not part of this model. Each call is recorded as a marker entry in the completion buffer, with its arguments.
- `enrich` edits completions already in the buffer, and its code is not part of this model. Each call is recorded in a separate `enrichments` log, so the claim that earlier completions are untouched is about these routines and not about `enrich`'s effect.
- `plain_docs_sentence` is not part of this model. A detail is recorded as the docs it was built from.
- Values are reduced to which variant they are (function, module, type, other). Nothing else about a value is read by these routines.
- The two `continue`s of the parameter loop are written as one combined guard. Neither check has a side effect, so the loop behaves the same.
