/**
 * The points ledger of the server (Points::CalculateService): a table of default amounts per
 * action, an optional explicit amount that overrides it, and an award that only ever adds a
 * positive amount to a user's balance.
 */
module Points {
  import opened Wrappers

  /** The `action:` symbols passed to the ledger; `Other` is any symbol missing from the table. */
  datatype Action =
    | PostCreated
    | SympathyGiven
    | SympathyReceived
    | ReplyCreated
    | BestAnswerSelected
    | BestAnswerReceived
    | Other(name: string)

  /** `POINT_RULES[action]`: the table's entry, nil for an action it does not list. */
  function PointRule(a: Action): (r: Option<int>)
    ensures r.None? <==> a.Other?
    ensures r.Some? ==> r.value >= 0
  {
    match a
    case PostCreated => Some(10)
    case SympathyGiven => Some(0)
    case SympathyReceived => Some(1)
    case ReplyCreated => Some(5)
    case BestAnswerSelected => Some(50)
    case BestAnswerReceived => Some(30)
    case Other(_) => None
  }

  /** `@amount || POINT_RULES[@action] || 0`. In Ruby only nil is falsy, so an explicit 0
    * or a negative amount still overrides the table. */
  function ResolveAmount(a: Action, amount: Option<int>): (r: int)
    ensures amount.Some? ==> r == amount.value
    ensures amount.None? && a.Other? ==> r == 0
    ensures amount.None? && !a.Other? ==> Some(r) == PointRule(a)
  {
    match amount
    case Some(v) => v
    case None => PointRule(a).GetOr(0)
  }

  /** The hash `call` returns: `{success: true, points_added:, total_points:}` or
    * `{success: false, error:}` when the call raised. */
  datatype LedgerResult = Awarded(pointsAdded: int, totalPoints: int) | LedgerError

  /** `CalculateService.call(user:, action:, amount:)` for a user whose balance is `balance`;
    * `None` is a nil user, on which `add_points` / `total_points` raise and the error is
    * rescued into `LedgerError`. */
  function Calculate(balance: Option<int>, a: Action, amount: Option<int>): (r: LedgerResult)
    ensures balance.None? <==> r.LedgerError?
    ensures r.Awarded? ==> r.pointsAdded >= 0 && r.totalPoints == balance.value + r.pointsAdded
    ensures r.Awarded? && ResolveAmount(a, amount) > 0 ==> r.pointsAdded == ResolveAmount(a, amount)
    ensures r.Awarded? && ResolveAmount(a, amount) <= 0 ==> r.pointsAdded == 0
  {
    match balance
    case None => LedgerError
    case Some(b) =>
      var toAdd := ResolveAmount(a, amount);
      if toAdd > 0 then Awarded(toAdd, b + toAdd) else Awarded(0, b)
  }

  /** The ledger never lowers a balance, whatever the action and the amount. */
  lemma {:induction false} CalculateNeverLowers(b: int, a: Action, amount: Option<int>)
    ensures Calculate(Some(b), a, amount).Awarded?
    ensures Calculate(Some(b), a, amount).totalPoints >= b
  {
  }

  /** The amounts the services rely on, read off the table with no explicit amount. */
  lemma DefaultAmounts()
    ensures ResolveAmount(PostCreated, None) == 10
    ensures ResolveAmount(SympathyGiven, None) == 0
    ensures ResolveAmount(SympathyReceived, None) == 1
    ensures ResolveAmount(ReplyCreated, None) == 5
    ensures ResolveAmount(BestAnswerSelected, None) == 50
    ensures ResolveAmount(BestAnswerReceived, None) == 30
  {
  }
}
