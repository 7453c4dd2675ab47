/** The vocabulary shared by the mutation hooks: what a failed request throws,
    the effects an outcome handler runs, and how optional flags are read. */
module Mutation {
  import opened Wrappers

  /** A thrown value: an `Error` with its message, or any other value, which
      may or may not carry a `message` property. */
  datatype Thrown = ErrorValue(message: string) | OtherValue(messageProperty: Option<string>)

  /** One observable effect of an outcome handler, in the order it runs.
      `S` is what the caller's success handler receives and `A` what its error
      handler receives besides the error. */
  datatype Effect<S, A> =
    | Invalidate(queryKey: seq<string>)
    | SuccessToast(text: string)
    | ErrorToast(text: string, description: string)
    | CallerOnSuccess(result: S)
    | CallerOnError(error: Thrown, extra: A)

  /** Cache invalidation comes first, notifications second, caller handlers last. */
  function Stage<S, A>(e: Effect<S, A>): nat {
    match e
    case Invalidate(_) => 0
    case SuccessToast(_) => 1
    case ErrorToast(_, _) => 1
    case CallerOnSuccess(_) => 2
    case CallerOnError(_, _) => 2
  }

  /** The effects run stage by stage, at most one per stage. */
  predicate InStageOrder<S, A>(effects: seq<Effect<S, A>>) {
    forall i, j :: 0 <= i < j < |effects| ==> Stage(effects[i]) < Stage(effects[j])
  }

  /** `if (flag)` on an optional boolean: only an explicit `true` is truthy. */
  predicate Truthy(flag: Option<bool>) {
    flag == Some(true)
  }

  /** A boolean parameter with a destructuring default: the default applies
      only when the caller left the flag out. */
  function FlagOr(flag: Option<bool>, default: bool): (on: bool)
    ensures flag.None? ==> on == default
    ensures flag.Some? ==> on == flag.value
  {
    flag.GetOr(default)
  }

  /** Up to one effect of each stage, listed in stage order, are in stage order. */
  lemma StagedEffectsInOrder<S, A>(first: seq<Effect<S, A>>, second: seq<Effect<S, A>>, third: seq<Effect<S, A>>)
    requires |first| <= 1 && |second| <= 1 && |third| <= 1
    requires forall e :: e in first ==> Stage(e) == 0
    requires forall e :: e in second ==> Stage(e) == 1
    requires forall e :: e in third ==> Stage(e) == 2
    ensures InStageOrder(first + second + third)
  {
    var all := first + second + third;
    forall k | 0 <= k < |all|
      ensures Stage(all[k]) == if k < |first| then 0 else if k < |first| + |second| then 1 else 2
    {
      if k < |first| {
        assert all[k] == first[k];
      } else if k < |first| + |second| {
        assert all[k] == second[k - |first|];
      } else {
        assert all[k] == third[k - |first| - |second|];
      }
    }
  }
}
