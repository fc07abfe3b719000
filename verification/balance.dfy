/**
 The decision logic of the wallet top-up endpoint (`POST /api/balance/add`):
 who is asking, whether the amount is acceptable, and which wallet row the
 atomic increment touches.

 The session lookup becomes the `caller` argument, the JSON body becomes the
 `amount` argument, and the user table becomes a map from user id to balance
 that is updated in one step. Balances are exact reals.
 */
module Balance {
  import opened Wrappers

  type UserId = string

  /** Every user's stored balance. */
  type Wallets = map<UserId, real>

  /** The `amount` field of the request body: a JSON number, or anything
      else (a string, a boolean, null, an object, or no field at all). */
  datatype Amount = Number(value: real) | NotANumber

  /** The handler's answers: 401, 400, 500 when the caller has no wallet row
      (the update throws and the handler catches it), and 200 with the new
      balance. */
  datatype Response = Unauthorized | InvalidAmount | ServerError | Ok(balance: real)

  /** What the handler answers and the wallets afterwards. */
  datatype Step = Step(response: Response, wallets: Wallets)

  /** The amount check: a number greater than zero, with no upper bound. */
  predicate IsPositiveNumber(a: Amount) {
    a.Number? && a.value > 0.0
  }

  /** No user has a negative balance. */
  predicate NonNegative(w: Wallets) {
    forall u :: u in w ==> w[u] >= 0.0
  }

  /** `after` is `before` with exactly `delta` added to `u`'s row and every
      other row, and the set of rows, left as it was. */
  predicate OnlyRowCredited(before: Wallets, after: Wallets, u: UserId, delta: real) {
    && after.Keys == before.Keys
    && u in before
    && after[u] == before[u] + delta
    && forall v :: v in before && v != u ==> after[v] == before[v]
  }

  /** The handler. Identity is checked before the amount, so an anonymous
      request with a bad amount is answered `Unauthorized`; every refusal
      leaves the wallets untouched; an accepted request credits exactly the
      caller's row by exactly the amount and reports that row's new value. */
  function AddBalance(w: Wallets, caller: Option<UserId>, amount: Amount): (s: Step)
    ensures caller.None? ==> s == Step(Unauthorized, w)
    ensures caller.Some? && !IsPositiveNumber(amount) ==> s == Step(InvalidAmount, w)
    ensures caller.Some? && IsPositiveNumber(amount) && caller.value !in w ==> s.response == ServerError
    ensures s.response.Ok? <==> caller.Some? && IsPositiveNumber(amount) && caller.value in w
    ensures !s.response.Ok? ==> s.wallets == w
    ensures s.response.Ok? ==>
      && OnlyRowCredited(w, s.wallets, caller.value, amount.value)
      && s.response.balance == s.wallets[caller.value]
  {
    match caller
    case None => Step(Unauthorized, w)
    case Some(u) =>
      if !IsPositiveNumber(amount) then Step(InvalidAmount, w)
      else if u !in w then Step(ServerError, w)
      else
        var w' := w[u := w[u] + amount.value];
        Step(Ok(w'[u]), w')
  }

  /** A top-up never makes a balance negative. */
  lemma AddBalancePreservesNonNegative(w: Wallets, caller: Option<UserId>, amount: Amount)
    requires NonNegative(w)
    ensures NonNegative(AddBalance(w, caller, amount).wallets)
  {
  }

  /** Two top-ups leave the same wallets in either order: each is a single
      atomic increment of one row, so neither can lose the other's update. */
  lemma AddBalanceCommutes(w: Wallets, a: Option<UserId>, x: Amount, b: Option<UserId>, y: Amount)
    ensures AddBalance(AddBalance(w, a, x).wallets, b, y).wallets
         == AddBalance(AddBalance(w, b, y).wallets, a, x).wallets
  {
  }

  /** One request to the endpoint. */
  datatype Request = Request(caller: Option<UserId>, amount: Amount)

  /** The wallets after serving `reqs` one after the other. */
  function Replay(w: Wallets, reqs: seq<Request>): Wallets
    decreases |reqs|
  {
    if reqs == [] then w
    else Replay(AddBalance(w, reqs[0].caller, reqs[0].amount).wallets, reqs[1..])
  }

  /** The total of the acceptable amounts that `u` asked for in `reqs`. */
  function CreditedTo(u: UserId, reqs: seq<Request>): real
    decreases |reqs|
  {
    if reqs == [] then 0.0
    else
      var mine := if reqs[0].caller == Some(u) && IsPositiveNumber(reqs[0].amount)
                  then reqs[0].amount.value else 0.0;
      mine + CreditedTo(u, reqs[1..])
  }

  /** Serving a sequence of requests keeps the set of rows and credits each
      existing row with exactly the acceptable amounts its owner sent:
      nothing is lost and nothing is credited twice. */
  lemma {:induction false} ReplayCredits(w: Wallets, reqs: seq<Request>, u: UserId)
    requires u in w
    ensures Replay(w, reqs).Keys == w.Keys
    ensures Replay(w, reqs)[u] == w[u] + CreditedTo(u, reqs)
    decreases |reqs|
  {
    if reqs != [] {
      var w1 := AddBalance(w, reqs[0].caller, reqs[0].amount).wallets;
      assert w1.Keys == w.Keys;
      ReplayCredits(w1, reqs[1..], u);
    }
  }

  /** Serving any sequence of requests keeps every balance non-negative. */
  lemma {:induction false} ReplayPreservesNonNegative(w: Wallets, reqs: seq<Request>)
    requires NonNegative(w)
    ensures NonNegative(Replay(w, reqs))
    decreases |reqs|
  {
    if reqs != [] {
      AddBalancePreservesNonNegative(w, reqs[0].caller, reqs[0].amount);
      ReplayPreservesNonNegative(AddBalance(w, reqs[0].caller, reqs[0].amount).wallets, reqs[1..]);
    }
  }
}
