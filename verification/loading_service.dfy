/**
 * The global loading indicator: a count of pending operations and the flag
 * shown to the user, which is raised by `show` and lowered once the count
 * returns to zero.
 */
module LoadingService {

  datatype LoadingState = LoadingState(count: int, isLoading: bool)

  const Initial := LoadingState(0, false)

  /** The count is never negative and the flag is up exactly while something is pending. */
  predicate Valid(s: LoadingState) {
    s.count >= 0 && (s.isLoading <==> s.count > 0)
  }

  function Show(s: LoadingState): (t: LoadingState)
    ensures t.count == s.count + 1 && t.isLoading
    ensures Valid(s) ==> Valid(t)
  {
    LoadingState(s.count + 1, true)
  }

  /** `hide()`: the count drops by one but not below zero; the flag falls only at zero. */
  function Hide(s: LoadingState): (t: LoadingState)
    ensures t.count >= 0
    ensures s.count >= 1 ==> t.count == s.count - 1
    ensures s.count <= 0 ==> t.count == 0
    ensures t.count == 0 ==> !t.isLoading
    ensures t.count != 0 ==> t.isLoading == s.isLoading
    ensures Valid(s) ==> Valid(t)
  {
    var count := if s.count - 1 > 0 then s.count - 1 else 0;   // Math.max(0, count - 1)
    if count == 0 then LoadingState(count, false) else LoadingState(count, s.isLoading)
  }

  /** `forceHide()`: back to the initial state from anywhere. */
  function ForceHide(s: LoadingState): (t: LoadingState)
    ensures t == Initial && Valid(t)
  {
    LoadingState(0, false)
  }

  function ShowTimes(s: LoadingState, n: nat): LoadingState
    decreases n
  {
    if n == 0 then s else ShowTimes(Show(s), n - 1)
  }

  function HideTimes(s: LoadingState, n: nat): LoadingState
    decreases n
  {
    if n == 0 then s else HideTimes(Hide(s), n - 1)
  }

  /** n shows add exactly n to a valid state and leave it loading (when n > 0). */
  lemma {:induction false} ShowTimesCount(s: LoadingState, n: nat)
    requires Valid(s)
    ensures Valid(ShowTimes(s, n))
    ensures ShowTimes(s, n).count == s.count + n
    decreases n
  {
    if n > 0 {
      ShowTimesCount(Show(s), n - 1);
    }
  }

  /** k hides take a valid state's count down by k, clamped at zero. */
  lemma {:induction false} HideTimesCount(s: LoadingState, k: nat)
    requires Valid(s)
    ensures Valid(HideTimes(s, k))
    ensures HideTimes(s, k).count == if s.count >= k then s.count - k else 0
    decreases k
  {
    if k > 0 {
      HideTimesCount(Hide(s), k - 1);
    }
  }

  /** Balanced show/hide pairs end with the indicator off; fewer hides keep it on. */
  lemma BalancedShowHide(n: nat, k: nat)
    ensures k >= n ==> !HideTimes(ShowTimes(Initial, n), k).isLoading
    ensures k < n ==> HideTimes(ShowTimes(Initial, n), k).isLoading
  {
    ShowTimesCount(Initial, n);
    HideTimesCount(ShowTimes(Initial, n), k);
  }
}
