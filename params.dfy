/**
 * `param_completions` and `named_param_value_completions`: completions drawn
 * from the named parameters of the callee's primary signature.
 */
module Params {
  import opened Wrappers
  import opened Completion

  /** One parameter of a signature. */
  datatype ParamSpec = ParamSpec(
    name: string,
    docs: string,
    input: CastInfo,
    expr: Option<string>,
    named: bool,
    positional: bool,
    settable: bool)

  /** The callee's primary signature: its named-parameter map, keyed by parameter name, in iteration order. */
  datatype Signature = Signature(named: seq<ParamSpec>)

  /** An argument already written in the call. */
  datatype Arg = PosArg | NamedArg(name: string) | SpreadArg

  /** The named-parameter table is a map: no name twice. */
  predicate DistinctNames(named: seq<ParamSpec>)
  {
    forall i, j :: 0 <= i < j < |named| ==> named[i].name != named[j].name
  }

  /** The `exclude` list: the names of the named arguments, in argument order. */
  function ExcludedNames(args: seq<Arg>): seq<string>
  {
    if args == [] then []
    else (if args[0].NamedArg? then [args[0].name] else []) + ExcludedNames(args[1..])
  }

  /** A name is excluded exactly when some named argument carries it. */
  lemma {:induction false} ExcludedNamesSpec(args: seq<Arg>, x: string)
    ensures x in ExcludedNames(args) <==> NamedArg(x) in args
  {
    if args != [] {
      ExcludedNamesSpec(args[1..], x);
      assert args == [args[0]] + args[1..];
    }
  }

  /** A parameter survives the two `continue`s of the loop. */
  predicate Offered(p: ParamSpec, exclude: seq<string>, setRule: bool)
  {
    p.name !in exclude && (!setRule || p.settable)
  }

  /** The completion pushed for a named parameter. */
  function ParamCompletion(p: ParamSpec): Completion
  {
    Completion(Param, p.name, Some(p.name + ": ${}"), Some(DocsSentence(p.docs)), Some(TriggerSuggest))
  }

  /** One turn of the loop over the named parameters. */
  function ParamStep(p: ParamSpec, exclude: seq<string>, setRule: bool): seq<Entry>
  {
    if !Offered(p, exclude, setRule) then []
    else
      (if p.named then [Item(ParamCompletion(p))] else [])
      + (if p.positional then [CastCompletions(p.input)] else [])
  }

  /** Everything the loop over the named parameters appends. */
  function ParamEntries(named: seq<ParamSpec>, exclude: seq<string>, setRule: bool): seq<Entry>
  {
    if named == [] then []
    else ParamEntries(named[..|named| - 1], exclude, setRule) + ParamStep(named[|named| - 1], exclude, setRule)
  }

  /** Pushing one more parameter's turn onto what the loop has done so far. */
  lemma ParamEntriesSnoc(named: seq<ParamSpec>, i: nat, exclude: seq<string>, setRule: bool)
    requires i < |named|
    ensures ParamEntries(named[..i + 1], exclude, setRule)
            == ParamEntries(named[..i], exclude, setRule) + ParamStep(named[i], exclude, setRule)
  {
    assert named[..i + 1][..i] == named[..i];
  }

  /** One offered parameter's turn of the loop, as its two pushes build it. */
  lemma OfferedTurn(start: seq<Entry>, named: seq<ParamSpec>, i: nat, exclude: seq<string>, setRule: bool,
                    mid: seq<Entry>, post: seq<Entry>)
    requires i < |named| && Offered(named[i], exclude, setRule)
    requires mid == start + ParamEntries(named[..i], exclude, setRule)
                   + (if named[i].named then [Item(ParamCompletion(named[i]))] else [])
    requires post == mid + (if named[i].positional then [CastCompletions(named[i].input)] else [])
    ensures post == start + ParamEntries(named[..i + 1], exclude, setRule)
  {
    ParamEntriesSnoc(named, i, exclude, setRule);
  }

  /**
   * Nothing but parameter completions and `cast_completions` calls is appended,
   * and each comes from a parameter that is offered: not already given as a
   * named argument and, in a set rule, settable. A completion comes only from a
   * `named` parameter, a cast call only from a `positional` one.
   */
  lemma {:induction false} ParamEntriesSound(named: seq<ParamSpec>, exclude: seq<string>, setRule: bool)
    ensures forall e | e in ParamEntries(named, exclude, setRule) :: e.Item? || e.CastCompletions?
    ensures forall e | e in ParamEntries(named, exclude, setRule) && e.Item? ::
      exists p :: p in named && Offered(p, exclude, setRule) && p.named && e.c == ParamCompletion(p)
    ensures forall e | e in ParamEntries(named, exclude, setRule) && e.CastCompletions? ::
      exists p :: p in named && Offered(p, exclude, setRule) && p.positional && e.input == p.input
    decreases |named|
  {
    if named != [] {
      var init := named[..|named| - 1];
      var last := named[|named| - 1];
      ParamEntriesSound(init, exclude, setRule);
      assert forall p | p in init :: p in named;
      assert last in named;
    }
  }

  /** Every offered named parameter gets its completion, every offered positional one its cast call. */
  lemma {:induction false} ParamEntriesComplete(named: seq<ParamSpec>, exclude: seq<string>, setRule: bool)
    ensures forall p | p in named && Offered(p, exclude, setRule) && p.named ::
      Item(ParamCompletion(p)) in ParamEntries(named, exclude, setRule)
    ensures forall p | p in named && Offered(p, exclude, setRule) && p.positional ::
      CastCompletions(p.input) in ParamEntries(named, exclude, setRule)
    decreases |named|
  {
    if named != [] {
      var init := named[..|named| - 1];
      ParamEntriesComplete(init, exclude, setRule);
      assert forall p | p in named :: p in init || p == named[|named| - 1];
    }
  }

  /** No two completion items in `r` carry the same label. */
  predicate CaptionsDistinct(r: seq<Entry>)
  {
    forall i, j | 0 <= i < j < |r| && r[i].Item? && r[j].Item? :: r[i].c.caption != r[j].c.caption
  }

  /** Appending items labelled `name` to items labelled otherwise keeps the labels distinct. */
  lemma CaptionsDistinctAppend(head: seq<Entry>, step: seq<Entry>, name: string)
    requires CaptionsDistinct(head) && CaptionsDistinct(step)
    requires forall e | e in head && e.Item? :: e.c.caption != name
    requires forall e | e in step && e.Item? :: e.c.caption == name
    ensures CaptionsDistinct(head + step)
  {
    var r := head + step;
    forall i, j | 0 <= i < j < |r| && r[i].Item? && r[j].Item?
      ensures r[i].c.caption != r[j].c.caption
    {
      if j < |head| {
        assert r[i] == head[i] && r[j] == head[j];
      } else if i < |head| {
        assert r[i] == head[i] && r[i] in head;
        assert r[j] == step[j - |head|] && r[j] in step;
      } else {
        assert r[i] == step[i - |head|] && r[j] == step[j - |head|];
      }
    }
  }

  /** With distinct parameter names, no two completions carry the same label: one per parameter. */
  lemma {:induction false} ParamEntriesOnce(named: seq<ParamSpec>, exclude: seq<string>, setRule: bool)
    requires DistinctNames(named)
    ensures CaptionsDistinct(ParamEntries(named, exclude, setRule))
    decreases |named|
  {
    if named != [] {
      var init := named[..|named| - 1];
      var last := named[|named| - 1];
      var head := ParamEntries(init, exclude, setRule);
      assert DistinctNames(init);
      ParamEntriesOnce(init, exclude, setRule);
      ParamEntriesSound(init, exclude, setRule);
      assert forall p | p in init :: p.name != last.name;
      var step := ParamStep(last, exclude, setRule);
      assert forall e | e in head && e.Item? :: e.c.caption != last.name;
      assert forall e | e in step && e.Item? :: e.c.caption == last.name;
      CaptionsDistinctAppend(head, step, last.name);
    }
  }

  /**
   * The three promises of `param_completions` about the named arguments and the
   * setRule mode, in terms of the call's arguments: no completion for a parameter
   * already given as a named argument; in a set rule, none for a parameter that
   * is not settable; exactly one, inserting `name: ${}` and re-triggering
   * suggestions, for every other named parameter.
   */
  lemma ParamCompletionsOffer(sig: Signature, args: seq<Arg>, setRule: bool, p: ParamSpec)
    requires DistinctNames(sig.named) && p in sig.named
    ensures var r := ParamEntries(sig.named, ExcludedNames(args), setRule);
      (exists i :: 0 <= i < |r| && r[i].Item? && r[i].c.caption == p.name)
      <==> NamedArg(p.name) !in args && (!setRule || p.settable) && p.named
    ensures var r := ParamEntries(sig.named, ExcludedNames(args), setRule);
      forall i | 0 <= i < |r| && r[i].Item? && r[i].c.caption == p.name ::
        r[i].c == ParamCompletion(p) && r[i].c.kind == Param
        && r[i].c.apply == Some(p.name + ": ${}") && r[i].c.command == Some(TriggerSuggest)
  {
    var exclude := ExcludedNames(args);
    ExcludedNamesSpec(args, p.name);
    var r := ParamEntries(sig.named, exclude, setRule);
    ParamEntriesSound(sig.named, exclude, setRule);
    ParamEntriesComplete(sig.named, exclude, setRule);
    forall i | 0 <= i < |r| && r[i].Item? && r[i].c.caption == p.name
      ensures r[i].c == ParamCompletion(p) && Offered(p, exclude, setRule) && p.named
    {
      assert r[i] in r;
      var q :| q in sig.named && Offered(q, exclude, setRule) && q.named && r[i].c == ParamCompletion(q);
      var a :| 0 <= a < |sig.named| && sig.named[a] == p;
      var b :| 0 <= b < |sig.named| && sig.named[b] == q;
      assert a == b;
    }
    if Offered(p, exclude, setRule) && p.named {
      var i :| 0 <= i < |r| && r[i] == Item(ParamCompletion(p));
      assert r[i].c.caption == p.name;
    }
  }

  // ---------------------------------------------------------------------------
  // named_param_value_completions
  // ---------------------------------------------------------------------------

  /** `named.get(name)`. */
  function FindNamed(named: seq<ParamSpec>, name: string): (r: Option<ParamSpec>)
    ensures r.Some? ==> r.value in named && r.value.name == name
    ensures r.None? ==> forall p | p in named :: p.name != name
  {
    if named == [] then None
    else if named[0].name == name then Some(named[0])
    else FindNamed(named[1..], name)
  }

  /** In a table without repeated names, looking a parameter up by its name finds it. */
  lemma FindNamedDistinct(named: seq<ParamSpec>, p: ParamSpec)
    requires DistinctNames(named) && p in named
    ensures FindNamed(named, p.name) == Some(p)
  {
    var r := FindNamed(named, p.name);
    var q := r.value;
    var a :| 0 <= a < |named| && named[a] == p;
    var b :| 0 <= b < |named| && named[b] == q;
    assert a == b;
  }

  /** The parameter whose values are completed, if the routine gets past its early returns. */
  function ValueTarget(resolved: Option<Signature>, name: string): Option<ParamSpec>
  {
    if resolved.None? then None
    else
      match FindNamed(resolved.value.named, name)
      case None => None
      case Some(p) => if p.named then Some(p) else None
  }

  /** The completion of a parameter's default value. */
  function DefaultCompletion(p: ParamSpec): Completion
    requires p.expr.Some?
  {
    Completion(Constant, p.expr.value, None, Some(DocsSentence(p.docs)), None)
  }

  /** Everything `named_param_value_completions` appends. */
  function ValueEntries(resolved: Option<Signature>, name: string): (r: seq<Entry>)
    ensures r == [] <==> ValueTarget(resolved, name).None?
    ensures ValueTarget(resolved, name).Some? ==>
      var p := ValueTarget(resolved, name).value;
      p in resolved.value.named && p.name == name && p.named
      && (p.expr.Some? <==> exists i :: 0 <= i < |r| && r[i].Item?)
      && (p.expr.Some? ==> r[0] == Item(DefaultCompletion(p)))
      && (forall i | 0 < i < |r| :: !r[i].Item?)
      && CastCompletions(p.input) in r
      && (FontCompletions in r <==> name == "font")
      && (forall i, j | 0 <= i < |r| && 0 <= j < |r| && r[i].CastCompletions? && r[j].FontCompletions? :: i < j)
  {
    match ValueTarget(resolved, name)
    case None => []
    case Some(p) =>
      var r := (if p.expr.Some? then [Item(DefaultCompletion(p))] else [])
        + [CastCompletions(p.input)]
        + (if name == "font" then [FontCompletions] else []);
      assert p.expr.Some? ==> r[0].Item?;
      r
  }
}
