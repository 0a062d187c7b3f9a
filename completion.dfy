/**
 * The completion buffer that the three routines append to, and the values
 * they inspect.
 */
module Completion {
  import opened Wrappers

  /** The completion kinds these routines produce. */
  datatype CompletionKind = Func | Variable | Module | Type | Constant | Param

  /** A Typst value, as far as these routines look at it: which variant it is. */
  datatype Value =
    | FuncValue(repr: string)
    | ModuleValue(repr: string)
    | TypeValue(repr: string)
    | OtherValue(repr: string)

  /** The kind a value imported through an import list is offered as. */
  function KindOfValue(v: Value): (k: CompletionKind)
    ensures k == Func <==> v.FuncValue?
    ensures k == Module <==> v.ModuleValue?
    ensures k == Type <==> v.TypeValue?
    ensures k == Constant <==> v.OtherValue?
  {
    match v
    case FuncValue(_) => Func
    case ModuleValue(_) => Module
    case TypeValue(_) => Type
    case OtherValue(_) => Constant
  }

  /** A parameter's accepted input, handed on to `cast_completions` untouched. */
  datatype CastInfo = CastInfo(describe: string)

  /** The detail line of a completion: `plain_docs_sentence` of some docs. */
  datatype Detail = DocsSentence(docs: string)

  /** A completion item; its `label` is called `caption` here (`label` is a Dafny keyword). */
  datatype Completion = Completion(
    kind: CompletionKind,
    caption: string,
    apply: Option<string>,
    detail: Option<Detail>,
    command: Option<string>)

  /** The command that re-opens the suggestion list after a completion is applied. */
  const TriggerSuggest: string := "editor.action.triggerSuggest"

  /**
   * One step of appending to `completions`. `Item` is a completion pushed by
   * these routines themselves; the other three stand for whatever a call to
   * `value_completion`, `cast_completions` or `font_completions` appends.
   */
  datatype Entry =
    | Item(c: Completion)
    | ValueCompletion(name: string, value: Value, parens: bool)
    | CastCompletions(input: CastInfo)
    | FontCompletions

  /** `s.ends_with(c)`. */
  predicate EndsWith(s: string, c: char)
  {
    |s| > 0 && s[|s| - 1] == c
  }
}
