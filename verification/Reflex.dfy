/**
 The cooldown claim of a reflex rule (TryMarkTriggered in repository/reflex_repository.go): one atomic
 conditional UPDATE, raced by any number of evaluators whose clocks need not agree.

 Times and cooldowns are integers in one unit.
 */
module Reflex {
  import opened Prelude

  datatype Row = Row(isActive: bool, lastTriggeredAt: Option<int>, triggerCount: nat)

  /** WHERE is_active AND (last_triggered_at IS NULL OR last_triggered_at < now - cooldown) */
  predicate Claimable(r: Row, now: int, cooldown: int) {
    r.isActive && (r.lastTriggeredAt.None? || r.lastTriggeredAt.value < now - cooldown)
  }

  class Rule {
    var row: Row

    constructor (row: Row)
      ensures this.row == row
    {
      this.row := row;
    }

    method TryMarkTriggered(now: int, cooldown: int) returns (won: bool)
      modifies this
      ensures var last := old(row.lastTriggeredAt);
        won <==> old(row.isActive) && (last.None? || now - last.value > cooldown)
      ensures row == Apply(old(row), Claim(now, cooldown))
    {
      if row.isActive && (row.lastTriggeredAt.None? || row.lastTriggeredAt.value < now - cooldown) {
        row := row.(lastTriggeredAt := Some(now), triggerCount := row.triggerCount + 1);
        return true;
      }
      return false;
    }
  }

  // ---------- any interleaving of evaluators ----------

  /** A claim by some evaluator with its own clock reading, or the rule being switched on or off. */
  datatype Event = Claim(now: int, cooldown: int) | Switch(isActive: bool)

  predicate Wins(r: Row, e: Event) {
    e.Claim? && Claimable(r, e.now, e.cooldown)
  }

  function Apply(r: Row, e: Event): Row {
    if e.Switch? then r.(isActive := e.isActive)
    else if Wins(r, e) then r.(lastTriggeredAt := Some(e.now), triggerCount := r.triggerCount + 1)
    else r
  }

  function Run(r: Row, events: seq<Event>): Row {
    if events == [] then r else Apply(Run(r, events[..|events| - 1]), events[|events| - 1])
  }

  /** The times of the winning claims, in the order they were made. */
  function WinTimes(r: Row, events: seq<Event>): seq<int> {
    if events == [] then []
    else
      var before, last := events[..|events| - 1], events[|events| - 1];
      WinTimes(r, before) + (if Wins(Run(r, before), last) then [last.now] else [])
  }

  ghost predicate CooldownAtLeast(events: seq<Event>, c: int) {
    forall i :: 0 <= i < |events| && events[i].Claim? ==> events[i].cooldown >= c
  }

  ghost predicate Spaced(times: seq<int>, c: int) {
    forall i :: 0 < i < |times| ==> times[i] > times[i - 1] + c
  }

  /** Winning claims are more than the cooldown apart, and trigger_count counts them. */
  lemma {:induction false} WinsAreSpaced(r: Row, events: seq<Event>, c: int)
    requires CooldownAtLeast(events, c)
    ensures var wins, end := WinTimes(r, events), Run(r, events);
      && Spaced(wins, c)
      && (wins != [] && r.lastTriggeredAt.Some? ==> wins[0] > r.lastTriggeredAt.value + c)
      && end.triggerCount == r.triggerCount + |wins|
      && end.lastTriggeredAt == (if wins == [] then r.lastTriggeredAt else Some(wins[|wins| - 1]))
  {
    if events == [] {
    } else {
      WinsAreSpaced(r, events[..|events| - 1], c);
    }
  }

  /** What the rule was switched to last. */
  function SwitchedOn(r: Row, events: seq<Event>): bool {
    if events == [] then r.isActive
    else if events[|events| - 1].Switch? then events[|events| - 1].isActive
    else SwitchedOn(r, events[..|events| - 1])
  }

  lemma {:induction false} RunSwitches(r: Row, events: seq<Event>)
    ensures Run(r, events).isActive == SwitchedOn(r, events)
  {
    if events == [] {
    } else {
      RunSwitches(r, events[..|events| - 1]);
    }
  }

  /**
   In every run a claim wins exactly when the rule is switched on and more than the cooldown has passed since the
   claim that won last, or, if none has, since the time stored at first, if there is one.
   */
  lemma ClaimWinsExactly(r: Row, events: seq<Event>, now: int, cooldown: int)
    ensures var wins, longer := WinTimes(r, events), WinTimes(r, events + [Claim(now, cooldown)]);
      var last := if wins == [] then r.lastTriggeredAt else Some(wins[|wins| - 1]);
      longer == if SwitchedOn(r, events) && (last.None? || now - last.value > cooldown) then wins + [now] else wins
  {
    var all := events + [Claim(now, cooldown)];
    assert all[..|all| - 1] == events;
    RunSwitches(r, events);
    LastWin(r, events);
    assert WinTimes(r, events) + [] == WinTimes(r, events);
  }

  lemma {:induction false} LastWin(r: Row, events: seq<Event>)
    ensures var wins := WinTimes(r, events);
      Run(r, events).lastTriggeredAt == if wins == [] then r.lastTriggeredAt else Some(wins[|wins| - 1])
  {
    if events == [] {
    } else {
      LastWin(r, events[..|events| - 1]);
    }
  }

  /** The i-th and the j-th of spaced times. */
  lemma {:induction false} SpacedApart(times: seq<int>, c: int, i: nat, j: nat)
    requires Spaced(times, c) && i <= j < |times|
    ensures times[j] - times[i] >= (j - i) * (c + 1)
  {
    if i == j {
    } else {
      SpacedApart(times, c, i, j - 1);
      assert (j - i) * (c + 1) == (j - 1 - i) * (c + 1) + (c + 1);
    }
  }

  /** The winning claims a window holds: those from the i-th up to, not including, the j-th. */
  ghost predicate InWindow(times: seq<int>, i: nat, j: nat, start: int, length: int) {
    i <= j <= |times| && forall k :: i <= k < j ==> start <= times[k] <= start + length
  }

  /**
   Any window of a given length holds at most length / (cooldown + 1) + 1 winning claims; that is never more
   than length / cooldown + 1.
   */
  lemma WindowBound(r: Row, events: seq<Event>, c: int, i: nat, j: nat, start: int, length: nat)
    requires c > 0 && CooldownAtLeast(events, c)
    requires InWindow(WinTimes(r, events), i, j, start, length)
    ensures j - i <= length / (c + 1) + 1 <= length / c + 1
  {
    var wins := WinTimes(r, events);
    WinsAreSpaced(r, events, c);
    if i < j {
      SpacedApart(wins, c, i, j - 1);
      assert wins[j - 1] - wins[i] <= length;
      QuotientAtLeast(length, c + 1, j - 1 - i);
    }
    QuotientShrinks(length, c);
  }

  lemma QuotientAtLeast(n: nat, d: nat, q: nat)
    requires d > 0 && q * d <= n
    ensures q <= n / d
  {
    var r := n / d;
    DivMod(n, d);
    TimesMonotone(r + 1, q, d);
    assert (r + 1) * d == r * d + d;
  }

  lemma QuotientShrinks(n: nat, c: nat)
    requires c > 0
    ensures n / (c + 1) <= n / c
  {
    var q := n / (c + 1);
    DivMod(n, c + 1);
    assert q * (c + 1) == q * c + q;
    QuotientAtLeast(n, c, q);
  }

  /** n claims exactly cooldown + 1 apart. */
  function EvenClaims(start: int, c: int, n: nat): seq<Event> {
    if n == 0 then [] else EvenClaims(start, c, n - 1) + [Claim(EvenTime(start, c, n - 1), c)]
  }

  function EvenTime(start: int, c: int, i: int): int { start + i * (c + 1) }

  /** They all win, so the first bound is reached in windows of every length. */
  lemma {:induction false} BoundIsReached(start: int, c: int, n: nat)
    requires c >= 0
    ensures var r, events := Row(true, None, 0), EvenClaims(start, c, n);
      && Run(r, events) == Row(true, if n == 0 then None else Some(EvenTime(start, c, n - 1)), n)
      && |WinTimes(r, events)| == n
      && forall i :: 0 <= i < n ==> WinTimes(r, events)[i] == EvenTime(start, c, i)
  {
    if n == 0 {
    } else {
      BoundIsReached(start, c, n - 1);
      var events := EvenClaims(start, c, n);
      assert events[..|events| - 1] == EvenClaims(start, c, n - 1);
      EvenStep(start, c, n - 2);
    }
  }

  lemma EvenStep(start: int, c: int, i: int)
    ensures EvenTime(start, c, i + 1) == EvenTime(start, c, i) + c + 1
  {
    assert (i + 1) * (c + 1) == i * (c + 1) + (c + 1);
  }
}
