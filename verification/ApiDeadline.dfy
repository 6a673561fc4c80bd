/**
 Trying the API's URLs under one deadline (src/api.rs). Time is a number of
 nanoseconds and timers are ideal: an attempt that needs longer than its budget
 ends, as a timeout, when the budget does.
 */
module ApiDeadline {
  import opened Prelude

  datatype Kind = Timeout | Network | Server | Authentication | Forbidden | Other

  predicate Retryable(k: Kind) { k == Timeout || k == Network || k == Server }

  /** How long an attempt would take, and how it would end. */
  datatype Attempt = Attempt(needs: nat, outcome: Result<nat, Kind>)

  /** What the attempt gives within a budget. */
  function Within(a: Attempt, budget: nat): Result<nat, Kind> {
    if a.needs <= budget then a.outcome else Err(Timeout)
  }

  function Spends(a: Attempt, budget: nat): nat { if a.needs <= budget then a.needs else budget }

  /** What the first attempts took: each what it needed, or its budget if that was less. */
  function SpentOn(attempts: seq<Attempt>, budgets: seq<nat>): nat
    requires |budgets| <= |attempts|
  {
    if budgets == [] then 0
    else
      var last := |budgets| - 1;
      SpentOn(attempts, budgets[..last]) + if attempts[last].needs < budgets[last] then attempts[last].needs else budgets[last]
  }

  /** Every budget is an equal share, for the attempts still to come, of what the ones before left. */
  predicate Budgeted(attempts: seq<Attempt>, timeout: nat, budgets: seq<nat>)
    requires |budgets| <= |attempts|
  {
    budgets == []
    || var last := |budgets| - 1;
       && Budgeted(attempts, timeout, budgets[..last])
       && SpentOn(attempts, budgets[..last]) <= timeout
       && budgets[last] == Share(timeout - SpentOn(attempts, budgets[..last]), |attempts| - last)
  }

  lemma OneMoreBudget(attempts: seq<Attempt>, timeout: nat, budgets: seq<nat>, budget: nat)
    requires |budgets| < |attempts| && Budgeted(attempts, timeout, budgets) && SpentOn(attempts, budgets) <= timeout
    requires budget == Share(timeout - SpentOn(attempts, budgets), |attempts| - |budgets|)
    ensures Budgeted(attempts, timeout, budgets + [budget])
    ensures SpentOn(attempts, budgets + [budget]) == SpentOn(attempts, budgets) + Spends(attempts[|budgets|], budget)
  {
    hide Share;
    assert (budgets + [budget])[..|budgets|] == budgets;
  }

  /** Another attempt follows a timeout, a network or a server failure, and nothing else. */
  lemma TriesNextKinds(a: Attempt, budget: nat)
    ensures TriesNext(Within(a, budget)) <==> a.needs > budget || a.outcome in [Err(Timeout), Err(Network), Err(Server)]
    ensures Within(a, budget) == if a.needs > budget then Err(Timeout) else a.outcome
  {
  }

  predicate TriesNext(r: Result<nat, Kind>) { r.Err? && Retryable(r.error) }

  /** The budget of the next of k attempts, rounded down. */
  function Share(left: nat, k: nat): (share: nat)
    requires k >= 1
  {
    left / k
  }

  lemma ShareBounds(left: nat, k: nat)
    requires k >= 1
    ensures Share(left, k) * k <= left < (Share(left, k) + 1) * k
    ensures Share(left, k) <= left
  {
    var share, over := left / k, left % k;
    assert left == share * k + over;
    assert (share + 1) * k == share * k + k;
    Grows(share, 1, k);
  }

  lemma Grows(share: nat, j: nat, k: nat)
    requires j <= k
    ensures share * j <= share * k && j * share <= k * share
  {
    assert share * k == share * j + share * (k - j);
  }

  /** A share of what is left for k attempts leaves the others no smaller a share. */
  lemma SharesNeverShrink(left: nat, k: nat, spent: nat)
    requires k >= 2 && spent <= Share(left, k)
    ensures left - spent >= 0 && Share(left - spent, k - 1) >= Share(left, k)
    ensures left > 0 ==> left - spent > 0
  {
    hide Share;
    var share := Share(left, k);
    ShareBounds(left, k);
    Grows(share, 2, k);
    assert share * k == share * (k - 1) + share;
    AtLeastShare(left - spent, k - 1, share);
  }

  lemma AtLeastShare(n: nat, k: nat, share: nat)
    requires k >= 1 && n >= share * k
    ensures Share(n, k) >= share
  {
    hide Share;
    ShareBounds(n, k);
    var q := Share(n, k);
    if q + 1 <= share {
      Grows(k, q + 1, share);
    }
  }

  /**
   The loop over the URLs: the attempts together fit in the timeout, the first
   of n gets a floor(timeout / n) share and none a smaller one than the one
   before; an attempt follows exactly a retryable failure, and the result is the
   last attempt's.
   */
  method WithFallback(attempts: seq<Attempt>, timeout: nat)
    returns (r: Result<nat, Kind>, budgets: seq<nat>, spent: nat)
    requires attempts != []
    ensures |budgets| <= |attempts| && spent == SpentOn(attempts, budgets) <= timeout
    ensures Budgeted(attempts, timeout, budgets)
    ensures timeout == 0 ==> r == Err(Timeout) && budgets == []
    ensures timeout > 0 ==> 1 <= |budgets| <= |attempts| && budgets[0] == Share(timeout, |attempts|)
    ensures forall i :: 0 <= i < |budgets| ==> budgets[i] >= Share(timeout, |attempts|)
    ensures forall i :: 0 < i < |budgets| ==> budgets[i - 1] <= budgets[i]
    ensures forall i :: 0 <= i < |budgets| - 1 ==> TriesNext(Within(attempts[i], budgets[i]))
    ensures timeout > 0 ==> r == Within(attempts[|budgets| - 1], budgets[|budgets| - 1])
    ensures timeout > 0 && |budgets| < |attempts| ==> !TriesNext(r)
  {
    hide Share, Within, TriesNext, SpentOn, Budgeted;
    NothingSpent(attempts, timeout);
    var n := |attempts|;
    budgets, spent := [], 0;
    var index := 0;
    while true
      invariant index == |budgets| < n && spent == SpentOn(attempts, budgets) <= timeout
      invariant Budgeted(attempts, timeout, budgets)
      invariant timeout > 0 ==> spent < timeout
      invariant timeout == 0 ==> index == 0
      invariant index == 0 ==> spent == 0
      invariant index > 0 ==> budgets[0] == Share(timeout, n) && budgets[index - 1] <= Share(timeout - spent, n - index)
      invariant Share(timeout, n) <= Share(timeout - spent, n - index)
      invariant forall i :: 0 <= i < index ==> budgets[i] >= Share(timeout, n) && TriesNext(Within(attempts[i], budgets[i]))
      invariant forall i :: 0 < i < index ==> budgets[i - 1] <= budgets[i]
      decreases n - index
    {
      var remaining := timeout - spent;
      if remaining == 0 {
        return Err(Timeout), budgets, spent;
      }
      var budget := Share(remaining, n - index);
      r := Within(attempts[index], budget);
      OneMoreBudget(attempts, timeout, budgets, budget);
      budgets := budgets + [budget];
      if index + 1 < n {
        SharesNeverShrink(remaining, n - index, Spends(attempts[index], budget));
      }
      ShareBounds(remaining, n - index);
      spent := spent + Spends(attempts[index], budget);
      if index + 1 == n || !TriesNext(r) {
        return;
      }
      index := index + 1;
    }
  }

  lemma NothingSpent(attempts: seq<Attempt>, timeout: nat)
    ensures SpentOn(attempts, []) == 0 && Budgeted(attempts, timeout, [])
  {
  }
}
