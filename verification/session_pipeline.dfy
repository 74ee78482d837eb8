/**
 * The request mediator wired to the session: the effects the error
 * interceptor asks for are carried out against the authentication state, a
 * logout request becoming the logout transition together with its own
 * navigation. What is left is the list of router navigations, in order.
 */
module SessionPipeline {
  import opened Effects
  import opened AuthService
  import opened ErrorInterceptor

  datatype Applied = Applied(state: AuthState, navigations: seq<Effect>)
  datatype Exchange<T> = Exchange(state: AuthState, outcome: Outcome<T>, navigations: seq<Effect>)

  /** Carries out `effects` from left to right. */
  function ApplyEffects(s: AuthState, effects: seq<Effect>): (out: Applied)
    ensures |out.navigations| == |effects|
    ensures forall i :: 0 <= i < |out.navigations| ==> out.navigations[i].Navigate?
    ensures out.state.isLoading == s.isLoading
    ensures CallLogout !in effects ==> out.state == s && out.navigations == effects
    ensures CallLogout in effects ==> !IsAuthenticated(out.state) && out.state.stored == Missing
    decreases |effects|
  {
    if |effects| == 0 then Applied(s, [])
    else
      var (next, issued) :=
        match effects[0]
        case CallLogout => var o := Logout(s); (o.state, o.effects)
        case Navigate(_) => (s, [effects[0]]);
      var rest := ApplyEffects(next, effects[1..]);
      assert effects == [effects[0]] + effects[1..];
      Applied(rest.state, issued + rest.navigations)
  }

  /** A response passes through the error interceptor and its effects are applied to the session. */
  function HandleResponse<T>(s: AuthState, response: Response<T>): (x: Exchange<T>)
    ensures response.Ok? ==> x == Exchange(s, Delivered(response.value), [])
    ensures response.Failed? ==> x.outcome.Thrown? && x.outcome.error.status == response.error.status
  {
    var h := Handle(response);
    var applied := ApplyEffects(s, h.effects);
    Exchange(applied.state, h.outcome, applied.navigations)
  }

  /** 401: the session is logged out once, the only navigation is to the login page, and the error is re-thrown. */
  lemma UnauthorizedLogsOut<T>(s: AuthState, message: string)
    ensures var x := HandleResponse<T>(s, Failed(HttpErrorResponse(401, message)));
            && !IsAuthenticated(x.state)
            && x.state.stored == Missing
            && x.navigations == [Navigate(LoginRoute)]
            && Occurrences(x.navigations, Navigate(UnauthorizedRoute)) == 0
            && x.outcome == Thrown(NormalizedError(FixedMessages()[401], 401, HttpErrorResponse(401, message)))
  {
    var x := HandleResponse<T>(s, Failed(HttpErrorResponse(401, message)));
    assert Handle<T>(Failed(HttpErrorResponse(401, message))).effects == [CallLogout];
    assert Navigate(UnauthorizedRoute) != Navigate(LoginRoute);
  }

  /** 403: the session is kept as it was and the only effect is one navigation to the unauthorized page. */
  lemma ForbiddenKeepsSession<T>(s: AuthState, message: string)
    ensures var x := HandleResponse<T>(s, Failed(HttpErrorResponse(403, message)));
            && x.state == s
            && x.navigations == [Navigate(UnauthorizedRoute)]
            && x.outcome.Thrown? && x.outcome.error.status == 403
  {
    assert Handle<T>(Failed(HttpErrorResponse(403, message))).effects == [Navigate(UnauthorizedRoute)];
  }

  /** Any other failing status leaves the session alone and navigates nowhere, but is still re-thrown. */
  lemma OtherStatusesHaveNoSessionEffect<T>(s: AuthState, e: HttpErrorResponse)
    requires e.status != 401 && e.status != 403
    ensures var x := HandleResponse<T>(s, Failed(e));
            && x.state == s
            && x.navigations == []
            && x.outcome == Thrown(NormalizedError(StatusMessage(e), e.status, e))
  {
  }

  /** An admin who logs in and then meets a 403 is sent to the unauthorized page and stays a logged-in admin. */
  lemma AdminForbiddenScenario<T>(stored: Stored, message: string)
    ensures var loggedIn := Login(Restore(stored), "admin@angular.com", "admin123", true).state;
            var x := HandleResponse<T>(loggedIn, Failed(HttpErrorResponse(403, message)));
            && IsAdmin(loggedIn)
            && IsAuthenticated(x.state) && IsAdmin(x.state)
            && x.navigations == [Navigate(UnauthorizedRoute)]
  {
    var loggedIn := Login(Restore(stored), "admin@angular.com", "admin123", true).state;
    assert ValidCredentials("admin@angular.com", "admin123");
    ForbiddenKeepsSession<T>(loggedIn, message);
  }
}
