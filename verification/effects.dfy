/**
 * Side effects the session pipeline performs on its collaborators, returned as
 * data instead of being performed: a router navigation and a call to the
 * authentication service's logout.
 */
module Effects {

  datatype Effect =
    | Navigate(commands: seq<string>)   // router.navigate(commands)
    | CallLogout                        // authService.logout()

  /** How many times `e` occurs in `effects`. */
  function Occurrences(effects: seq<Effect>, e: Effect): nat {
    multiset(effects)[e]
  }
}
