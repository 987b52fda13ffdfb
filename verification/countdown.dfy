/** The countdown of src/components/timeRedirection.tsx: it starts at
    `seconds`, an interval takes one second off every tick, and an effect that
    runs at mount and after every change redirects when the count reads zero.
    Timer ticks are discrete events; the navigation itself is left to the
    caller. The interval is never stopped at zero, so the count goes on below
    zero until the navigation unmounts the component. */
module Countdown {
  import opened Wrappers

  datatype Timer = Timer(secondsLeft: int)

  function Mount(seconds: int): (t: Timer)
    ensures t.secondsLeft == seconds
  {
    Timer(seconds)
  }

  function Tick(t: Timer): (u: Timer)
    ensures u.secondsLeft == t.secondsLeft - 1
  {
    Timer(t.secondsLeft - 1)
  }

  /** The redirect effect fires for a count of exactly zero. */
  predicate RedirectFires(t: Timer)
  {
    t.secondsLeft == 0
  }

  /** The timer after `n` ticks from mount. */
  function After(seconds: int, n: nat): (t: Timer)
    ensures t.secondsLeft == seconds - n
  {
    if n == 0 then Mount(seconds) else Tick(After(seconds, n - 1))
  }

  /** The redirect fires after exactly `seconds` ticks and at no other time; a
      negative start never redirects. */
  lemma RedirectOnlyAtSeconds(seconds: int, n: nat)
    ensures RedirectFires(After(seconds, n)) <==> n == seconds
  {
  }

  /** The unit after the count: `sekundę` for one, `sekundy` for anything else. */
  function UnitWord(secondsLeft: int): (w: string)
    ensures w == "sekundę" <==> secondsLeft == 1
    ensures w == "sekundę" || w == "sekundy"
  {
    if secondsLeft == 1 then "sekundę" else "sekundy"
  }

  /** During a countdown from two or more seconds the singular `sekundę` is
      shown exactly once: one tick before the redirect. */
  lemma SingularShownOnce(seconds: int, n: nat)
    requires seconds >= 2
    ensures UnitWord(After(seconds, n).secondsLeft) == "sekundę" <==> n + 1 == seconds
  {
  }

  /** Runs the countdown for `ticks` ticks and reports the final count, how many
      times the redirect effect fired (at mount and after each tick), and after
      how many ticks it first fired. */
  method Simulate(seconds: int, ticks: nat) returns (left: int, redirects: nat, first: Option<nat>)
    ensures left == seconds - ticks
    ensures redirects == (if 0 <= seconds <= ticks then 1 else 0)
    ensures first == (if 0 <= seconds <= ticks then Some(seconds as nat) else None)
  {
    var t := Mount(seconds);
    var n: nat := 0;
    redirects := 0;
    first := None;
    if RedirectFires(t) {
      redirects := 1;
      first := Some(0);
    }
    while n < ticks
      invariant n <= ticks
      invariant t.secondsLeft == seconds - n
      invariant redirects == (if 0 <= seconds <= n then 1 else 0)
      invariant first == (if 0 <= seconds <= n then Some(seconds as nat) else None)
    {
      t := Tick(t);
      n := n + 1;
      if RedirectFires(t) {
        redirects := redirects + 1;
        first := Some(n);
      }
    }
    left := t.secondsLeft;
  }
}
