/** Sending one order over a channel that loses requests and replies
    (src/execution/retry.py:39-93, src/execution/alpaca_executor.py:472-507). */
module Retry {
  import opened Prelude
  import opened Sizing

  /** What becomes of one call. The broker may book an order whose reply is then lost; a
      failure says whether it is worth trying again. */
  datatype Attempt = Answered | Failed(booked: bool, retryable: bool) {
    predicate Books() {
      Answered? || booked
    }

    predicate TryAgain() {
      Failed? && retryable
    }
  }

  /** What the channel and the broker do with each call in turn. */
  type Weather = nat -> Attempt

  function Pow2(n: nat): (r: real)
    ensures r >= 1.0
  {
    if n == 0 then 1.0 else 2.0 * Pow2(n - 1)
  }

  function Delay(base: real, n: nat): real {
    base * Pow2(n)
  }

  /** The delay before each of the first `n` retries. */
  function Backoff(base: real, n: nat): (naps: seq<real>)
    ensures |naps| == if base > 0.0 then n else 0
  {
    if n == 0 || base <= 0.0 then [] else Backoff(base, n - 1) + [Delay(base, n - 1)]
  }

  lemma BackoffNext(base: real, n: nat)
    ensures Backoff(base, n + 1) == if base > 0.0 then Backoff(base, n) + [Delay(base, n)] else Backoff(base, n)
  {
  }

  /** Doubling `n` times from `base` adds up to `base * (2^n - 1)`. */
  predicate AddsUp(total: real, base: real, power: real) {
    total == base * (power - 1.0)
  }

  lemma OneMoreDoubling(total: real, base: real, n: nat)
    requires AddsUp(total, base, Pow2(n))
    ensures AddsUp(total + Delay(base, n), base, Pow2(n + 1))
  {
  }

  /** After `n` failures that were retried, exactly `base * (2^n - 1)` has been slept. */
  lemma {:induction false} BackoffTotal(base: real, n: nat)
    requires base >= 0.0
    ensures AddsUp(Sum(Backoff(base, n)), base, Pow2(n))
  {
    if n > 0 {
      BackoffTotal(base, n - 1);
      OneMoreDoubling(Sum(Backoff(base, n - 1)), base, n - 1);
      if base > 0.0 {
        SumGrows(Backoff(base, n - 1), Delay(base, n - 1));
      } else {
        NothingAddsUp(base, Pow2(n));
      }
    }
  }

  lemma NothingAddsUp(base: real, power: real)
    requires base == 0.0
    ensures AddsUp(0.0, base, power)
  {
  }

  lemma DelayIsPositive(base: real, n: nat)
    requires base >= 0.0
    ensures Delay(base, n) > 0.0 <==> base > 0.0
  {
  }

  /** How many calls are made in all, once `done` have failed and are worth repeating: up
      to the first that is not, and never more than the retries allow. */
  function Calls(weather: Weather, retries: nat, done: nat): (n: nat)
    requires done <= retries
    ensures done < n <= retries + 1
    ensures forall i :: done <= i < n - 1 ==> weather(i).TryAgain()
    ensures n <= retries ==> !weather(n - 1).TryAgain()
    decreases retries - done
  {
    if done == retries || !weather(done).TryAgain() then done + 1 else Calls(weather, retries, done + 1)
  }

  /** No other number of calls fits. */
  lemma CallsAreDetermined(weather: Weather, retries: nat, n: nat)
    requires 1 <= n <= retries + 1
    requires forall i :: 0 <= i < n - 1 ==> weather(i).TryAgain()
    requires n <= retries ==> !weather(n - 1).TryAgain()
    ensures n == Calls(weather, retries, 0)
  {
  }

  /** The broker's book: an order under an id it already has is not a new order. */
  class Exchange {
    var orders: seq<string>

    constructor ()
      ensures orders == []
    {
      orders := [];
    }

    method Submit(id: string, attempt: Attempt)
      modifies this
      ensures orders == if attempt.Books() && id !in old(orders) then old(orders) + [id] else old(orders)
    {
      if attempt.Books() && id !in orders {
        orders := orders + [id];
      }
    }
  }

  /** The book after the first `n` calls, each under its own id. */
  function Booked(before: seq<string>, ids: nat -> string, weather: Weather, n: nat): seq<string> {
    if n == 0 then before
    else
      var orders := Booked(before, ids, weather, n - 1);
      if weather(n - 1).Books() && ids(n - 1) !in orders then orders + [ids(n - 1)] else orders
  }

  lemma BookedNext(before: seq<string>, ids: nat -> string, weather: Weather, n: nat)
    ensures var orders := Booked(before, ids, weather, n);
            Booked(before, ids, weather, n + 1) ==
              if weather(n).Books() && ids(n) !in orders then orders + [ids(n)] else orders
  {
  }

  /** One id for every call: at most one order, and a new one exactly when the id was new
      and some call got through. A re-decided bar sends the id it sent before. */
  lemma {:induction false} OneIdOneOrder(before: seq<string>, id: string, weather: Weather, n: nat)
    ensures Booked(before, _ => id, weather, n)
            == before + if id !in before && exists i :: 0 <= i < n && weather(i).Books() then [id] else []
  {
    if n > 0 {
      OneIdOneOrder(before, id, weather, n - 1);
      if weather(n - 1).Books() {
        assert exists i :: 0 <= i < n && weather(i).Books();
      }
    }
  }

  /** Call, and call again only after a failure that is worth repeating. */
  method ExecuteWithRetry(exchange: Exchange, id: string, weather: Weather, maxRetries: int, baseDelay: real)
    returns (result: Attempt, calls: nat, naps: seq<real>)
    modifies exchange
    ensures calls == Calls(weather, if maxRetries < 0 then 0 else maxRetries, 0)
    ensures result == weather(calls - 1)
    ensures naps == Backoff(MaxReal(baseDelay, 0.0), calls - 1)
    ensures exchange.orders == Booked(old(exchange.orders), _ => id, weather, calls)
  {
    var retries := if maxRetries < 0 then 0 else maxRetries;
    var base := MaxReal(baseDelay, 0.0);
    var delay := base;
    naps, calls := [], 0;
    while true
      invariant base >= 0.0 && 0 <= calls <= retries
      invariant forall i :: 0 <= i < calls ==> weather(i).TryAgain()
      invariant delay == Delay(base, calls)
      invariant naps == Backoff(base, calls)
      invariant exchange.orders == Booked(old(exchange.orders), _ => id, weather, calls)
      decreases retries - calls
    {
      hide Delay, Backoff, Booked, Calls;
      result := weather(calls);
      BookedNext(old(exchange.orders), _ => id, weather, calls);
      exchange.Submit(id, result);
      if !result.TryAgain() || calls >= retries {
        calls := calls + 1;
        CallsAreDetermined(weather, retries, calls);
        return;
      }
      DelayIsPositive(base, calls);
      BackoffNext(base, calls);
      if delay > 0.0 {
        naps := naps + [delay];
      }
      delay := Delay(base, calls + 1);
      calls := calls + 1;
    }
  }

  /** One order: a single id goes with every call, so however the channel behaves the
      account gains at most one order under it, none if it had one already, and the
      caller's success means it has exactly that one. */
  method PlaceOrder(exchange: Exchange, id: string, weather: Weather, maxRetries: int, baseDelay: real)
    returns (placed: bool, ghost calls: nat)
    modifies exchange
    ensures exchange.orders == old(exchange.orders)
              + if id !in old(exchange.orders) && exists i :: 0 <= i < calls && weather(i).Books() then [id] else []
    ensures placed ==> id in exchange.orders
    ensures 1 <= calls <= (if maxRetries < 0 then 0 else maxRetries) + 1
    ensures placed <==> weather(calls - 1).Answered?
    ensures forall i :: 0 <= i < calls - 1 ==> weather(i).TryAgain()
  {
    var result, n, naps := ExecuteWithRetry(exchange, id, weather, maxRetries, baseDelay);
    OneIdOneOrder(old(exchange.orders), id, weather, n);
    calls := n;
    placed := result.Answered?;
    assert placed ==> weather(calls - 1).Books();
  }
}
