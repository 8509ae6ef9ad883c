/** services/core/ai_limits.ts: the daily quota of free questions. Two values
    are kept in local storage, the day of the last reset and the number of
    questions asked since; "today" is the UTC date string the caller reads
    from the clock. */
module AiLimits {
  import opened Wrappers

  /** The default `freeDailyLimit`. */
  const FreeDailyLimit: int := 20

  /** The stored pair: the date (None while nothing is stored) and the count
      (a missing count reads as 0). */
  datatype QuotaState = QuotaState(date: Option<string>, count: int)

  /** What `getRemaining` returns: `Infinity` for a pro user, else a number. */
  datatype Remaining = Unlimited | Finite(n: nat)

  /** The stored pair after `canAsk`: reset to today and 0 on a new day. */
  function AfterCanAsk(s: QuotaState, isPro: bool, today: string): (r: QuotaState)
    ensures isPro || s.date == Some(today) ==> r == s
    ensures !isPro ==> r.date == Some(today)
    ensures !isPro && s.date != Some(today) ==> r.count == 0
  {
    if isPro then s
    else if s.date != Some(today) then QuotaState(Some(today), 0)
    else s
  }

  /** The answer of `canAsk`. */
  function Allows(s: QuotaState, isPro: bool, limit: int, today: string): bool {
    isPro || AfterCanAsk(s, isPro, today).count < limit
  }

  /** The stored pair after `registerAsk`. */
  function AfterRegister(s: QuotaState, isPro: bool, today: string): (r: QuotaState)
    ensures isPro ==> r == s
    ensures !isPro ==> r.date == Some(today)
    ensures !isPro && s.date == Some(today) ==> r.count == s.count + 1
    ensures !isPro && s.date != Some(today) ==> r.count == 1
  {
    if isPro then s
    else
      var count := if s.date != Some(today) then 0 else s.count;
      QuotaState(Some(today), count + 1)
  }

  /** The answer of `getRemaining`: it reads the count only, whatever day it
      belongs to. */
  function RemainingOf(s: QuotaState, isPro: bool, limit: int): (r: Remaining)
    ensures r.Unlimited? <==> isPro
    ensures r.Finite? ==> r.n >= limit - s.count
    ensures r.Finite? && r.n > 0 ==> r.n == limit - s.count
  {
    if isPro then Unlimited
    else if limit - s.count > 0 then Finite(limit - s.count)
    else Finite(0)
  }

  /** The two local-storage keys, as fields. */
  class QuotaStorage {
    var date: Option<string>
    var count: int

    constructor()
      ensures date == None && count == 0
    {
      date := None;
      count := 0;
    }

    function State(): QuotaState
      reads this
    {
      QuotaState(date, count)
    }

    /** `canAsk(isPro, freeDailyLimit)`. */
    method CanAsk(isPro: bool, freeDailyLimit: int, today: string) returns (ok: bool)
      modifies this
      ensures ok == Allows(old(State()), isPro, freeDailyLimit, today)
      ensures State() == AfterCanAsk(old(State()), isPro, today)
    {
      if isPro {
        return true;
      }
      var stored := date;
      var c := count;
      if stored != Some(today) {
        date := Some(today);
        count := 0;
        c := 0;
      }
      ok := c < freeDailyLimit;
    }

    /** `registerAsk(isPro)`. */
    method RegisterAsk(isPro: bool, today: string)
      modifies this
      ensures State() == AfterRegister(old(State()), isPro, today)
    {
      if isPro {
        return;
      }
      var stored := date;
      var c := count;
      if stored != Some(today) {
        date := Some(today);
        c := 0;
      }
      c := c + 1;
      count := c;
    }

    /** `getRemaining(isPro, freeDailyLimit)`. */
    method GetRemaining(isPro: bool, freeDailyLimit: int) returns (r: Remaining)
      ensures r == RemainingOf(State(), isPro, freeDailyLimit)
    {
      if isPro {
        return Unlimited;
      }
      var c := count;
      r := if freeDailyLimit - c > 0 then Finite(freeDailyLimit - c) else Finite(0);
    }
  }

  /** A pro user may always ask, and neither call touches the stored pair. */
  lemma ProIsUnmetered(s: QuotaState, limit: int, today: string)
    ensures Allows(s, true, limit, today)
    ensures AfterCanAsk(s, true, today) == s && AfterRegister(s, true, today) == s
    ensures RemainingOf(s, true, limit) == Unlimited
  {
  }

  /** `canAsk` answers from the count of today only: on a new day it is
      `0 < limit`, on the same day `count < limit`. */
  lemma CanAskAnswers(s: QuotaState, limit: int, today: string)
    ensures s.date != Some(today) ==> (Allows(s, false, limit, today) <==> 0 < limit)
    ensures s.date == Some(today) ==> (Allows(s, false, limit, today) <==> s.count < limit)
  {
  }

  /** `getRemaining` is `max(0, limit - count)`, never negative, and does not
      look at the date: after midnight it still reports yesterday's count
      until `canAsk` or `registerAsk` resets it. */
  lemma RemainingIgnoresDate(s: QuotaState, limit: int, d: Option<string>)
    ensures RemainingOf(s, false, limit) == Finite(if limit - s.count > 0 then limit - s.count else 0)
    ensures RemainingOf(s.(date := d), false, limit) == RemainingOf(s, false, limit)
  {
  }

  /** A stale read: yesterday's exhausted quota shows nothing remaining although
      `canAsk` would allow a question today. */
  lemma StaleRemaining()
    ensures RemainingOf(QuotaState(Some("2024-01-01"), FreeDailyLimit), false, FreeDailyLimit) == Finite(0)
    ensures Allows(QuotaState(Some("2024-01-01"), FreeDailyLimit), false, FreeDailyLimit, "2024-01-02")
  {
  }

  /** The stored pair after `n` calls of `registerAsk` on day `today`. */
  function RegisteredTimes(s: QuotaState, today: string, n: nat): QuotaState {
    if n == 0 then s else AfterRegister(RegisteredTimes(s, today, n - 1), false, today)
  }

  /** Starting from a pair of another day, `n` registrations leave today's
      date with count `n`. */
  lemma {:induction false} RegisteredTimesCount(s: QuotaState, today: string, n: nat)
    requires s.date != Some(today)
    ensures n > 0 ==> RegisteredTimes(s, today, n) == QuotaState(Some(today), n)
  {
    if n > 1 {
      RegisteredTimesCount(s, today, n - 1);
    }
  }

  /** On a fresh day, `canAsk` stays true for exactly the first `limit`
      registrations: after `n` of them it answers `n < limit`, so after
      `limit` of them it refuses. */
  lemma {:induction false} QuotaRunsOut(s: QuotaState, today: string, limit: int, n: nat)
    requires s.date != Some(today)
    ensures Allows(RegisteredTimes(s, today, n), false, limit, today) <==> n < limit
  {
    RegisteredTimesCount(s, today, n);
    if n == 0 {
      assert RegisteredTimes(s, today, 0) == s;
    }
  }
}
