/** The profile-update mutation: the user it yields and the effects of its
    outcome. The "NO_CHANGES" error is treated as nothing to do. */
module EditUserProfile {
  import opened Wrappers
  import opened Records
  import opened Mutation

  const NoChanges := "NO_CHANGES"
  const ProfileUpdatedText := "Profile updated successfully"
  const ProfileFailedText := "Failed to update user"
  const UnknownDescription := "An unknown error"

  /** What the hook's caller configures; both toasts default to on. */
  datatype Options = Options(
    hasOnSuccess: bool,
    hasOnError: bool,
    showSuccessToast: Option<bool>,
    showErrorToast: Option<bool>)

  /** The server's answer to the update request. */
  datatype Response = Response(status: nat, data: User)

  /** The caller's error handler receives the error alone. */
  type ProfileEffect = Effect<User, ()>

  /** The thrown value's `message` property is exactly "NO_CHANGES". */
  predicate IsNoChanges(error: Thrown) {
    match error
    case ErrorValue(m) => m == NoChanges
    case OtherValue(m) => m == Some(NoChanges)
  }

  /** The success handler: invalidate the cached user, then notify unless told
      not to, then hand the updated user to the caller. */
  function OnSuccess(opts: Options, user: User): (effects: seq<ProfileEffect>)
    ensures |effects| >= 1 && effects[0] == Invalidate(["user"])
    ensures SuccessToast("Profile updated successfully") in effects <==> FlagOr(opts.showSuccessToast, true)
    ensures CallerOnSuccess(user) in effects <==> opts.hasOnSuccess
    ensures forall e :: e in effects ==>
              e == Invalidate(["user"]) || e == SuccessToast("Profile updated successfully") || e == CallerOnSuccess(user)
    ensures InStageOrder(effects)
  {
    var invalidate: seq<ProfileEffect> := [Invalidate(["user"])];
    var toast: seq<ProfileEffect> := if FlagOr(opts.showSuccessToast, true) then [SuccessToast(ProfileUpdatedText)] else [];
    var callback: seq<ProfileEffect> := if opts.hasOnSuccess then [CallerOnSuccess(user)] else [];
    StagedEffectsInOrder(invalidate, toast, callback);
    invalidate + toast + callback
  }

  /** The error handler: nothing at all for "NO_CHANGES"; otherwise notify
      unless told not to, then hand the error, unchanged, to the caller. */
  function OnError(opts: Options, error: Thrown): (effects: seq<ProfileEffect>)
    ensures IsNoChanges(error) ==> effects == []
    ensures ErrorToast("Failed to update user", if error.ErrorValue? then error.message else "An unknown error") in effects
        <==> !IsNoChanges(error) && FlagOr(opts.showErrorToast, true)
    ensures CallerOnError(error, ()) in effects <==> !IsNoChanges(error) && opts.hasOnError
    ensures forall e :: e in effects ==>
              || e == ErrorToast("Failed to update user", if error.ErrorValue? then error.message else "An unknown error")
              || e == CallerOnError(error, ())
    ensures InStageOrder(effects)
  {
    if IsNoChanges(error) then []
    else
      var toast: seq<ProfileEffect> := if FlagOr(opts.showErrorToast, true)
        then [ErrorToast(ProfileFailedText, if error.ErrorValue? then error.message else UnknownDescription)]
        else [];
      var callback: seq<ProfileEffect> := if opts.hasOnError then [CallerOnError(error, ())] else [];
      var none: seq<ProfileEffect> := [];
      StagedEffectsInOrder(none, toast, callback);
      assert none + toast + callback == toast + callback;
      toast + callback
  }

  /** One mutation from request to handler: a successful request yields the
      response's `data` as the updated user. */
  function Mutate(opts: Options, sent: Result<Response, Thrown>): seq<ProfileEffect> {
    match sent
    case Success(response) => OnSuccess(opts, response.data)
    case Failure(error) => OnError(opts, error)
  }

  /** A successful update hands the caller exactly the user in the response,
      after the cached user has been invalidated. */
  lemma SuccessYieldsResponseUser(opts: Options, response: Response)
    requires opts.hasOnSuccess
    ensures var effects := Mutate(opts, Success(response));
            effects[0] == Invalidate(["user"])
            && CallerOnSuccess(response.data) in effects
            && forall e :: e in effects && e.CallerOnSuccess? ==> e.result == response.data
  {
  }

  /** With the flags left out, every outcome except "NO_CHANGES" is announced. */
  lemma ToastsOnByDefault(hasOnSuccess: bool, hasOnError: bool, sent: Result<Response, Thrown>)
    ensures var effects := Mutate(Options(hasOnSuccess, hasOnError, None, None), sent);
            (sent.Success? ==> SuccessToast("Profile updated successfully") in effects)
            && (sent.Failure? && !IsNoChanges(sent.error) ==> exists e :: e in effects && e.ErrorToast?)
  {
    if sent.Failure? && !IsNoChanges(sent.error) {
      var error := sent.error;
      var toast: ProfileEffect := ErrorToast(ProfileFailedText, if error.ErrorValue? then error.message else UnknownDescription);
      assert toast in Mutate(Options(hasOnSuccess, hasOnError, None, None), sent);
    }
  }

  /** The caller's error handler runs for every error except "NO_CHANGES",
      whatever the toast flag says. */
  lemma CallerHearsEveryRealError(opts: Options, error: Thrown)
    requires opts.hasOnError
    ensures CallerOnError(error, ()) in Mutate(opts, Failure(error)) <==> !IsNoChanges(error)
    ensures CallerOnError(error, ()) in Mutate(opts.(showErrorToast := Some(false)), Failure(error)) <==> !IsNoChanges(error)
  {
  }
}
