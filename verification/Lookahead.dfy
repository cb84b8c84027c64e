/** A replay never looks ahead: what it trades before bar `k` is fixed by the bars and
    signals before `k`, in every sizing mode. */
module Lookahead {
  import opened Prelude
  import opened Sizing
  import opened Ledgers
  import opened Strategy
  import opened Replay
  import opened Chronicle

  /** Two inputs that cannot be told apart before bar `k`. */
  ghost predicate SameBefore(b1: seq<Bar>, s1: seq<Act>, b2: seq<Bar>, s2: seq<Act>, k: nat) {
    && k <= |b1| && k <= |b2| && b1[..k] == b2[..k]
    && forall j: nat :: j < k ==> SignalFor(s1, j) == SignalFor(s2, j)
  }

  lemma {:induction false} SamePast(m: Machine, b1: seq<Bar>, s1: seq<Act>, b2: seq<Bar>, s2: seq<Act>, k: nat)
    requires 1 <= k && SameBefore(b1, s1, b2, s2, k)
    ensures Replayed(m, b1, s1, k).mind == Replayed(m, b2, s2, k).mind
    ensures Replayed(m, b1, s1, k).acct.legs == Replayed(m, b2, s2, k).acct.legs
  {
    if k > 1 {
      assert b1[..k][..k - 1] == b1[..k - 1] && b2[..k][..k - 1] == b2[..k - 1];
      assert b1[k - 1] == b1[..k][k - 1] == b2[..k][k - 1] == b2[k - 1];
      SamePast(m, b1, s1, b2, s2, k - 1);
      var closed, bar, act := HistoryAt(m, b1, k - 1), b1[k - 1], SignalFor(s1, k - 1);
      m.TurnIsJudged(Opens(b1), closed, Replayed(m, b1, s1, k - 1), bar, act);
      m.TurnIsJudged(Opens(b2), closed, Replayed(m, b2, s2, k - 1), bar, act);
    }
  }

  /** The legs that were over before bar `k` for a reason the market gave. */
  function ClosedBefore(legs: seq<Leg>, k: int): (kept: seq<Leg>)
    ensures forall leg :: leg in kept ==> leg in legs && leg.Trade? && leg.exitIdx < k && leg.reason != Forced
  {
    if |legs| == 0 then []
    else
      var last := legs[|legs| - 1];
      ClosedBefore(legs[..|legs| - 1], k) + if last.Trade? && last.exitIdx < k && last.reason != Forced then [last] else []
  }

  lemma {:induction false} ClosedBeforeSplits(past: seq<Leg>, later: seq<Leg>, k: int)
    requires forall i :: 0 <= i < |past| ==> past[i].Trade? && past[i].exitIdx < k && past[i].reason != Forced
    requires forall i :: 0 <= i < |later| ==> later[i].Trade? && (later[i].exitIdx >= k || later[i].reason == Forced)
    ensures ClosedBefore(past + later, k) == past
  {
    if |later| > 0 {
      assert (past + later)[..|past + later| - 1] == past + later[..|later| - 1];
      ClosedBeforeSplits(past, later[..|later| - 1], k);
    } else if |past| > 0 {
      var front := past[..|past| - 1];
      assert past + later == past && past == front + [past[|past| - 1]] && front + [] == front;
      ClosedBeforeSplits(front, [], k);
    }
  }

  /** A turn appends at most one leg, and it ends on that turn's bar. */
  lemma {:induction false} LegsOnlyGrow(m: Machine, bars: seq<Bar>, signals: seq<Act>, k: nat, j: nat)
    requires Numbered(bars) && 1 <= k <= j <= |bars|
    ensures var past, all := Replayed(m, bars, signals, k).acct.legs, Replayed(m, bars, signals, j).acct.legs;
            && |past| <= |all| && all[..|past|] == past
            && forall i :: |past| <= i < |all| ==> all[i].Trade? && all[i].exitIdx >= k
    decreases j
  {
    hide Machine.Turn, Machine.Judge;
    if k < j {
      LegsOnlyGrow(m, bars, signals, k, j - 1);
      m.TurnIsJudged(Opens(bars), HistoryAt(m, bars, j - 1), Replayed(m, bars, signals, j - 1), bars[j - 1],
                     SignalFor(signals, j - 1));
      assert bars[j - 1].index == j - 1;
    }
  }

  /** Everything booked before bar `k` ended before it, for a reason the market gave. */
  lemma PastIsClosed(m: Machine, bars: seq<Bar>, signals: seq<Act>, k: nat)
    requires Numbered(bars) && 1 <= k <= |bars|
    ensures var past := Replayed(m, bars, signals, k).acct.legs;
            forall i :: 0 <= i < |past| ==> past[i].Trade? && past[i].exitIdx < k && past[i].reason != Forced
  {
    SoFarHolds(m, bars, signals, k);
  }

  /** The rest of a run ends later, or only because the data did. */
  lemma RunExtends(m: Machine, bars: seq<Bar>, signals: seq<Act>, k: nat)
    requires Numbered(bars) && 1 <= k <= |bars|
    ensures var past, all := Replayed(m, bars, signals, k).acct.legs, RunLedger(m, bars, signals).legs;
            && |past| <= |all| && all == past + all[|past|..]
            && forall i :: |past| <= i < |all| ==> all[i].Trade? && (all[i].exitIdx >= k || all[i].reason == Forced)
  {
    LegsOnlyGrow(m, bars, signals, k, |bars|);
  }

  /** What a run had closed before bar `k` is what its replay up to `k` had booked. */
  lemma ClosedBeforeIsReplayed(m: Machine, bars: seq<Bar>, signals: seq<Act>, k: nat)
    requires Numbered(bars) && 1 <= k <= |bars|
    ensures ClosedBefore(RunLedger(m, bars, signals).legs, k) == Replayed(m, bars, signals, k).acct.legs
  {
    var past := Replayed(m, bars, signals, k).acct.legs;
    PastIsClosed(m, bars, signals, k);
    RunExtends(m, bars, signals, k);
    ClosedBeforeSplits(past, RunLedger(m, bars, signals).legs[|past|..], k);
  }

  /** No lookahead. Runs over two histories that agree before bar `k` close the same
      positions before `k`, at the same prices and sizes, whatever comes afterwards. */
  lemma NoLookahead(m: Machine, b1: seq<Bar>, s1: seq<Act>, b2: seq<Bar>, s2: seq<Act>, k: nat)
    requires Numbered(b1) && Numbered(b2) && SameBefore(b1, s1, b2, s2, k)
    ensures ClosedBefore(RunLedger(m, b1, s1).legs, k) == ClosedBefore(RunLedger(m, b2, s2).legs, k)
  {
    if k == 0 {
      NothingBeforeZero(m, b1, s1);
      NothingBeforeZero(m, b2, s2);
    } else {
      SamePast(m, b1, s1, b2, s2, k);
      ClosedBeforeIsReplayed(m, b1, s1, k);
      ClosedBeforeIsReplayed(m, b2, s2, k);
    }
  }

  lemma NothingBeforeZero(m: Machine, bars: seq<Bar>, signals: seq<Act>)
    requires Numbered(bars)
    ensures ClosedBefore(RunLedger(m, bars, signals).legs, 0) == []
  {
    var legs := RunLedger(m, bars, signals).legs;
    RunIsChronicle(m, bars, signals);
    assert legs == [] + legs;
    ClosedBeforeSplits([], legs, 0);
  }

  /** A run over the first `k` bars trades what the long run had traded by then, apart
      from the position it force-closes at its own end. */
  lemma PrefixRunAgrees(m: Machine, bars: seq<Bar>, signals: seq<Act>, k: nat)
    requires Numbered(bars) && k <= |bars|
    ensures ClosedBefore(RunLedger(m, bars[..k], signals).legs, k) == ClosedBefore(RunLedger(m, bars, signals).legs, k)
  {
    NoLookahead(m, bars[..k], signals, bars, signals, k);
  }

  /** An entry is decided and sized before its own bar is known: two bars that open alike
      lead to the same order. */
  lemma EntrySeesOnlyTheOpen(m: Machine, closed: seq<real>, mind: Mind, a: Bar, b: Bar, act: Act, veto: string)
    requires mind.position.None? && a.index == b.index && a.open == b.open
    ensures var (ma, ia) := m.Step(closed, mind, a, act, veto);
            var (mb, ib) := m.Step(closed, mind, b, act, veto);
            ma == mb && ia[..if |ia| == 0 then 0 else 1] == ib[..if |ib| == 0 then 0 else 1]
  {
    var entry := m.EntryIntent(closed, mind, a, act, veto);
    assert entry == m.EntryIntent(closed, mind, b, act, veto);
  }
}
