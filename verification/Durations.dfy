/** Python durations as their `total_seconds()` compares them: whole
    microseconds, rounded to the nearest double. */
module Durations {
  const SECOND := 1_000_000

  const TWO_TO_THE_53 := 0x20_0000_0000_0000

  /** `n / m` to the nearest whole number, a half to the even one. */
  function RoundHalfEven(n: nat, m: nat): nat
    requires m > 0
  {
    var q, r := n / m, n % m;
    if 2 * r < m || (2 * r == m && q % 2 == 0) then q else q + 1
  }

  /** `n / m` to 53 significant bits, at least when there are as many. */
  function ToDouble(n: nat, m: nat): nat
    requires m > 0
    decreases n - m
  {
    if n < TWO_TO_THE_53 * m then RoundHalfEven(n, m) else 2 * ToDouble(n, 2 * m)
  }

  /** `total_seconds()`, in units of 2^-20 seconds. Below 2^33 seconds doubles
      lie closer than that, but both tell any two microseconds apart, and only
      the order of two durations is ever asked for. */
  function TotalSeconds(micros: int): int {
    var rounded: int := ToDouble(16384 * if micros < 0 then -micros else micros, 15625);
    if micros < 0 then -rounded else rounded
  }

  /** 2^33 seconds: 272 years. */
  const SHORT := 0x2_0000_0000 * SECOND

  lemma ShortDurationsApart(a: nat, b: nat)
    requires a < SHORT && a < b
    ensures TotalSeconds(a) < TotalSeconds(b)
  {
    assert a * 16384 + 16384 <= TWO_TO_THE_53 * 15625;
    if b >= SHORT {
      assert b * 16384 >= TWO_TO_THE_53 * 15625;
      LongStaysLong(16384 * b, 31250);
    }
  }

  /** Against a limit of less than 272 years, either way, any two durations
      compare as their microseconds do. */
  lemma ShortLimitsCompareExactly(micros: int, limit: int)
    requires -SHORT < limit < SHORT
    ensures TotalSeconds(micros) <= TotalSeconds(limit) <==> micros <= limit
  {
    hide TotalSeconds;
    Odd(micros);
    Odd(limit);
    if 0 <= micros < limit {
      ShortDurationsApart(micros, limit);
    } else if 0 <= limit < micros {
      ShortDurationsApart(limit, micros);
    } else if micros < limit < 0 {
      ShortDurationsApart(-limit, -micros);
    } else if limit < micros < 0 {
      ShortDurationsApart(-micros, -limit);
    } else {
      Positive(micros);
      Positive(-micros);
      Positive(limit);
      Positive(-limit);
    }
  }

  lemma Odd(micros: int)
    ensures TotalSeconds(-micros) == -TotalSeconds(micros)
  {
  }

  lemma Positive(micros: int)
    ensures micros > 0 ==> TotalSeconds(micros) > 0
  {
    if micros > 0 {
      ShortDurationsApart(0, micros);
    }
  }

  lemma Scaled(a: int, b: int, m: nat)
    ensures a <= b ==> m * a <= m * b
  {
  }

  lemma {:induction false} LongStaysLong(n: nat, m: nat)
    requires m > 0 && 2 * n >= TWO_TO_THE_53 * m
    ensures 2 * ToDouble(n, m) >= TWO_TO_THE_53
    decreases n - m
  {
    if n < TWO_TO_THE_53 * m {
      var q := n / m;
      assert n == m * q + n % m;
      Scaled(2 * q + 2, TWO_TO_THE_53, m);
    } else {
      LongStaysLong(n, 2 * m);
    }
  }

  /** At 365 000 days doubles lie almost four microseconds apart: one
      microsecond more is the same double, two are the next. */
  lemma DurableLimitRounds(micros: nat)
    ensures TotalSeconds(micros) <= TotalSeconds(365_000 * 86_400 * SECOND) <==> micros <= 365_000 * 86_400 * SECOND + 1
  {
    var n := 16384 * micros;
    assert ToDouble(n, 31250) == if n < TWO_TO_THE_53 * 31250 then RoundHalfEven(n, 31250) else 2 * ToDouble(n, 62500);
    if n >= TWO_TO_THE_53 * 62500 {
      LongStaysLong(n, 125000);
    }
    LimitIsADouble();
    NearLimit(n);
  }

  lemma LimitIsADouble()
    ensures TotalSeconds(365_000 * 86_400 * SECOND) == 31_536_000_000 * 0x10_0000
  {
    var n := 16384 * (365_000 * 86_400 * SECOND);
    assert ToDouble(n, 62500) == RoundHalfEven(n, 62500);
    assert ToDouble(n, 31250) == 2 * ToDouble(n, 62500);
    assert ToDouble(n, 15625) == 2 * ToDouble(n, 31250);
  }

  lemma NearLimit(n: nat)
    ensures RoundHalfEven(n, 62500) <= 31_536_000_000 * 0x4_0000 <==> n <= 31_536_000_000 * 0x4_0000 * 62500 + 31250
  {
  }
}
