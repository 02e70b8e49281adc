/** Supervision of the dev server and its restart delays
    (control-plane/cmd/runtimed/devserver.go). */
module DevServer {

  const SECOND := 1_000_000_000
  const MAX_BACKOFF := 30 * SECOND
  const FAST_FAIL_WINDOW := 10 * SECOND
  const MAX_FAST_FAILS := 5

  const TWO_63 := 0x8000_0000_0000_0000
  const TWO_64 := 0x1_0000_0000_0000_0000
  const TWO_43 := 0x800_0000_0000

  function Pow2(n: nat): (p: nat)
    ensures p >= 1
  {
    if n == 0 then 1 else 2 * Pow2(n - 1)
  }

  /** The 64-bit two's complement value of an integer. */
  function Wrap(x: int): (w: int)
    ensures -TWO_63 <= w < TWO_63
  {
    (x + TWO_63) % TWO_64 - TWO_63
  }

  /** Go's `x << n` on int64: a count of 64 or more shifts every bit out. */
  function Shl(x: int, n: nat): int {
    if n >= 64 then 0 else Wrap(x * Pow2(n))
  }

  function Backoff(fastFails: int): int {
    var n := if fastFails < 1 then 1 else fastFails;
    var d := Shl(SECOND, n - 1);
    if d <= 0 || d > MAX_BACKOFF then MAX_BACKOFF else d
  }

  function Min(a: int, b: int): int {
    if a < b then a else b
  }

  lemma {:induction false} Pow2Adds(a: nat, b: nat)
    ensures Pow2(a + b) == Pow2(a) * Pow2(b)
  {
    if a > 0 {
      Pow2Adds(a - 1, b);
    }
  }

  lemma {:induction false} Pow2Grows(a: nat, b: nat)
    requires a <= b
    ensures Pow2(a) <= Pow2(b)
    decreases b - a
  {
    if a < b {
      Pow2Grows(a + 1, b);
    }
  }

  lemma {:induction false} Powers()
    ensures Pow2(4) == 16 && Pow2(5) == 32 && Pow2(33) == 8_589_934_592
  {
    assert Pow2(4) == 16;
    assert Pow2(8) == 256 by { Pow2Adds(4, 4); }
    assert Pow2(16) == 65536 by { Pow2Adds(8, 8); }
    assert Pow2(32) == 4_294_967_296 by { Pow2Adds(16, 16); }
  }

  /** A multiple of 2^43 stays one when it wraps, so what is positive of it is large. */
  lemma {:induction false} WrappedMultiple(m: int)
    ensures var w := Wrap(m * TWO_43); w <= 0 || w >= TWO_43
  {
    var x := m * TWO_43;
    var w := Wrap(x);
    var q := (x + TWO_63) / TWO_64;
    assert w == x - q * TWO_64;
    assert TWO_64 == 0x20_0000 * TWO_43;
    var r := m - q * 0x20_0000;
    assert w == r * TWO_43;
    if w > 0 {
      assert r >= 1;
    }
  }

  /** From a count of 34 on, the shifted second wraps; its factor 2^9 keeps it away from the
      small positive values. */
  lemma {:induction false} ShiftWraps(k: nat)
    requires 34 <= k < 64
    ensures var d := Shl(SECOND, k); d <= 0 || d > MAX_BACKOFF
  {
    var p := Pow2(k - 34);
    Pow2Adds(34, k - 34);
    Pow34();
    Regroup(SECOND, Pow2(34), p, 1_953_125, TWO_43);
    WrappedMultiple(1_953_125 * p);
  }

  lemma {:induction false} Pow34()
    ensures Pow2(34) == 17_179_869_184 && SECOND * Pow2(34) == 1_953_125 * TWO_43
  {
    Powers();
    assert Pow2(34) == 2 * Pow2(33);
  }

  lemma {:induction false} Regroup(a: int, b: int, p: int, c: int, d: int)
    requires a * b == c * d
    ensures a * (b * p) == c * p * d
  {
    assert a * (b * p) == a * b * p;
    assert c * d * p == c * p * d;
  }

  lemma {:induction false} ShiftIsExact(k: nat)
    requires k <= 33
    ensures Shl(SECOND, k) == SECOND * Pow2(k)
  {
    Powers();
    Pow2Grows(k, 33);
    var x := SECOND * Pow2(k);
    assert 0 <= x < TWO_63;
    assert (x + TWO_63) % TWO_64 == x + TWO_63;
  }

  /** 2^(n-1) seconds for a count of at least one, and never more than thirty. */
  function CappedPower(n: int): int {
    Min(Pow2((if n < 1 then 1 else n) - 1), 30) * SECOND
  }

  /** For every count, negative ones and those whose shift wraps included, the delay is
      2^(count-1) seconds capped at thirty. */
  lemma {:induction false} BackoffIsCappedPower(n: int)
    ensures Backoff(n) == CappedPower(n)
  {
    var k := (if n < 1 then 1 else n) - 1;
    Powers();
    if k <= 4 {
      Pow2Grows(k, 4);
      ShiftIsExact(k);
    } else {
      Pow2Grows(5, k);
      if k <= 33 {
        ShiftIsExact(k);
      } else if k < 64 {
        ShiftWraps(k);
      }
    }
  }

  // --- the supervisor -------------------------------------------------------------------------

  /** When the context of a round is cancelled: before the run, during it, or in the wait. */
  datatype Cancel = Never | BeforeRun | DuringRun | DuringWait

  /** One pass of the loop as the supervisor meets it. A run that cannot start is a short one. */
  datatype Round = Round(duration: nat, starts: bool, cancel: Cancel)

  /** It lasted less than ten seconds. */
  predicate Fast(r: Round) {
    r.duration < 10_000_000_000
  }

  /** The number of consecutive fast runs up to and including run `i`. */
  function Streak(rounds: seq<Round>, i: nat): nat
    requires i < |rounds|
  {
    if !Fast(rounds[i]) then 0 else 1 + if i == 0 then 0 else Streak(rounds, i - 1)
  }

  predicate LastFiveFast(rounds: seq<Round>, i: nat)
    requires i < |rounds|
  {
    && i >= 4 && Fast(rounds[i]) && Fast(rounds[i - 1])
    && Fast(rounds[i - 2]) && Fast(rounds[i - 3]) && Fast(rounds[i - 4])
  }

  lemma {:induction false} StreakCovers(rounds: seq<Round>, i: nat, n: nat)
    requires i < |rounds|
    ensures Streak(rounds, i) >= n <==> n <= i + 1 && forall j :: i - n < j <= i ==> Fast(rounds[j])
  {
    if n > 0 && Fast(rounds[i]) && i > 0 {
      StreakCovers(rounds, i - 1, n - 1);
    }
  }

  lemma {:induction false} FiveFastIff(rounds: seq<Round>, i: nat)
    requires i < |rounds|
    ensures LastFiveFast(rounds, i) <==> Streak(rounds, i) >= MAX_FAST_FAILS
  {
    StreakCovers(rounds, i, 5);
  }

  datatype End = GaveUp | Cancelled | StillWatching

  class Supervisor {
    var running: bool
    var restarts: nat

    constructor ()
      ensures !running && restarts == 0
    {
      running, restarts := false, 0;
    }

    /** Blocks until the child exits; nothing runs afterwards. */
    method RunOnce(r: Round)
      requires !running
      modifies this`running
      ensures !running
    {
      if !r.starts {
        return;
      }
      running := true;
      running := false;
    }

    method Delay(fastFails: int) returns (delay: int)
      ensures delay == CappedPower(fastFails)
    {
      BackoffIsCappedPower(fastFails);
      delay := Backoff(fastFails);
    }

    /** The supervisor gives up at the first run that closes a series of five fast ones, and
        otherwise goes on until it is cancelled; each wait is the backoff of the streak of fast
        runs before it. `rounds` is as much of its environment as it gets to see; `ran` counts
        the runs it has counted as restarts. */
    method Supervise(rounds: seq<Round>) returns (end: End, ran: nat, delays: seq<int>)
      requires !running
      modifies this
      ensures !running && restarts == old(restarts) + ran && ran <= |rounds|
      ensures end == GaveUp <==> ran > 0 && LastFiveFast(rounds, ran - 1)
      ensures end == Cancelled ==>
        || (ran < |rounds| && (rounds[ran].cancel == BeforeRun || rounds[ran].cancel == DuringRun))
        || (ran > 0 && rounds[ran - 1].cancel == DuringWait)
      ensures end == StillWatching ==> ran == |rounds|
      ensures Undisturbed(rounds, if ran == 0 then 0 else ran - 1)
      ensures |delays| == if end == GaveUp then ran - 1 else ran
      ensures Waits(rounds, delays)
    {
      var fastFails: int := 0;
      ran, delays := 0, [];
      while ran < |rounds|
        invariant ran <= |rounds| && |delays| == ran && !running && restarts == old(restarts) + ran
        invariant fastFails == (if ran == 0 then 0 else Streak(rounds, ran - 1)) && fastFails < MAX_FAST_FAILS
        invariant Undisturbed(rounds, ran)
        invariant Waits(rounds, delays)
      {
        var r := rounds[ran];
        if r.cancel == BeforeRun {
          LastNotFive(rounds, ran);
          return Cancelled, ran, delays;
        }
        RunOnce(r);
        if r.cancel == DuringRun {
          LastNotFive(rounds, ran);
          return Cancelled, ran, delays;
        }
        restarts := restarts + 1;
        fastFails := if r.duration < FAST_FAIL_WINDOW then fastFails + 1 else 0;
        FiveFastIff(rounds, ran);
        if fastFails >= MAX_FAST_FAILS {
          return GaveUp, ran + 1, delays;
        }
        var delay := Delay(fastFails);
        delays := delays + [delay];
        ran := ran + 1;
        if r.cancel == DuringWait {
          return Cancelled, ran, delays;
        }
      }
      LastNotFive(rounds, ran);
      return StillWatching, ran, delays;
    }
  }

  /** The first `n` rounds neither cancelled nor gave up. */
  ghost predicate Undisturbed(rounds: seq<Round>, n: nat) {
    n <= |rounds| && forall i :: 0 <= i < n ==> rounds[i].cancel == Never && !LastFiveFast(rounds, i)
  }

  ghost predicate Waits(rounds: seq<Round>, delays: seq<int>) {
    |delays| <= |rounds| && forall i :: 0 <= i < |delays| ==> delays[i] == CappedPower(Streak(rounds, i))
  }

  lemma {:induction false} LastNotFive(rounds: seq<Round>, n: nat)
    requires Undisturbed(rounds, n)
    ensures n > 0 ==> !LastFiveFast(rounds, n - 1)
  {
  }

  /** A wait follows a run that does not close five fast ones, so it lasts 1, 2, 4 or 8 seconds:
      2^(streak - 1), or 1 after a slow run. The cap of thirty is never reached. */
  lemma {:induction false} WaitsAreShort(rounds: seq<Round>, i: nat)
    requires i < |rounds| && !LastFiveFast(rounds, i)
    ensures CappedPower(Streak(rounds, i)) in {SECOND, 2 * SECOND, 4 * SECOND, 8 * SECOND}
  {
    FiveFastIff(rounds, i);
    assert Pow2(0) == 1 && Pow2(1) == 2 && Pow2(2) == 4 && Pow2(3) == 8;
  }
}
