/**
 The bounded wait of the controller: look, then wait for a tick or for the deadline. Times are in
 milliseconds. A tick is due every five seconds; one that finds an earlier one still waiting is dropped.
 A look takes time, but it is given the deadline too: it is cut off there, and one that starts there ends
 at once. When a tick and the deadline are both there, either may win.
 */
module BoundedWait {
  const INTERVAL: nat := 5000

  datatype Finding = Ready | NotYet | Failed

  // One look: how long it would take, what it finds, and which way a tie after it falls.
  datatype Look = Look(takes: nat, finding: Finding, tickWins: bool)

  // Killed: there was no further look, as when the process ends.
  datatype Outcome = Done | Error | TimedOut | Killed

  // How a wait ends, when, and after how many looks.
  datatype Result = Result(outcome: Outcome, end: nat, looks: nat)

  // When a look that starts at `now` ends, under the context of the wait.
  function LookEnd(now: nat, takes: nat, timeout: nat): (t: nat)
    ensures now <= t && (now <= timeout ==> t <= timeout)
  {
    if timeout <= now then now else if now + takes < timeout then now + takes else timeout
  }

  // When the next tick is received after a look that ends at t, if one was last received at r.
  function NextTick(t: nat, r: nat): (n: nat)
    requires r <= t
    ensures t <= n && n / INTERVAL > r / INTERVAL
  {
    if t / INTERVAL > r / INTERVAL then t else INTERVAL * (t / INTERVAL + 1)
  }

  // The deadline is there first, or wins the tie.
  predicate GivesUp(t: nat, tick: nat, timeout: nat, tickWins: bool) {
    timeout <= tick && (!tickWins || (timeout < tick && t < tick))
  }

  // The wait from a look that starts at `now`, when the last tick was received.
  function Wait(now: nat, looks: seq<Look>, timeout: nat): Result
    decreases looks
  {
    if looks == [] then Result(Killed, now, 0)
    else
      var t := LookEnd(now, looks[0].takes, timeout);
      if looks[0].finding == Failed then Result(Error, t, 1)
      else if looks[0].finding == Ready then Result(Done, t, 1)
      else
        var tick := NextTick(t, now);
        if GivesUp(t, tick, timeout, looks[0].tickWins) then Result(TimedOut, if t < timeout then timeout else t, 1)
        else
          var rest := Wait(tick, looks[1..], timeout);
          rest.(looks := rest.looks + 1)
  }

  function Poll(looks: seq<Look>, timeout: nat): Result { Wait(0, looks, timeout) }

  // It succeeds only on a look that found the condition true, after looks that found it not yet so.
  lemma {:induction false} DoneMeansSeen(now: nat, looks: seq<Look>, timeout: nat)
    ensures var w := Wait(now, looks, timeout);
      && w.looks <= |looks|
      && (w.outcome == Done <==> w.looks > 0 && looks[w.looks - 1].finding == Ready)
      && (w.outcome == Error <==> w.looks > 0 && looks[w.looks - 1].finding == Failed)
      && forall i :: 0 <= i < w.looks - 1 ==> looks[i].finding == NotYet
    decreases |looks|
  {
    if looks != [] && looks[0].finding == NotYet {
      DoneMeansSeen(NextTick(LookEnd(now, looks[0].takes, timeout), now), looks[1..], timeout);
    }
  }

  // Each look but the first takes a tick of its own, and none is taken after the deadline.
  lemma {:induction false} LooksAreBounded(now: nat, looks: seq<Look>, timeout: nat)
    requires now <= timeout
    ensures var w := Wait(now, looks, timeout);
      && w.looks <= 1 + timeout / INTERVAL - now / INTERVAL
      && w.end <= timeout && (w.outcome == TimedOut ==> w.end == timeout)
    decreases |looks|
  {
    if looks != [] && looks[0].finding == NotYet {
      var t := LookEnd(now, looks[0].takes, timeout);
      var tick := NextTick(t, now);
      if !GivesUp(t, tick, timeout, looks[0].tickWins) {
        LooksAreBounded(tick, looks[1..], timeout);
      }
    }
  }

  // However long the looks would take and whichever way ties fall, a wait looks at most once and then once
  // for each whole interval of its timeout; it is over by the deadline, and times out only there.
  lemma PollIsBounded(looks: seq<Look>, timeout: nat)
    ensures var w := Poll(looks, timeout);
      w.looks <= 1 + timeout / INTERVAL && w.end <= timeout && (w.outcome == TimedOut ==> w.end == timeout)
  {
    LooksAreBounded(0, looks, timeout);
  }

  // A tick is received at t exactly when one fell due while the look ran; else the next one due is, whenever
  // it is.
  lemma NextTickIsFirst(t: nat, r: nat, k: nat)
    requires r <= t
    ensures r < k * INTERVAL <= t ==> NextTick(t, r) == t
    ensures t < k * INTERVAL ==> NextTick(t, r) <= k * INTERVAL
    ensures NextTick(t, r) == t || exists m: nat :: NextTick(t, r) == m * INTERVAL && m * INTERVAL > t
  {
    if r < k * INTERVAL <= t {
      assert k <= t / INTERVAL && r / INTERVAL < k;
    }
    if t < k * INTERVAL {
      assert t / INTERVAL + 1 <= k;
      assert (t / INTERVAL + 1) * INTERVAL <= k * INTERVAL;
    }
    assert NextTick(t, r) != t ==> NextTick(t, r) == (t / INTERVAL + 1) * INTERVAL && (t / INTERVAL + 1) * INTERVAL > t;
  }

  // A look that finds nothing is followed by another at the next tick, however long it took, exactly when that
  // tick comes before the deadline, or with it and wins; otherwise the wait times out.
  lemma LooksAgainExactlyWhen(now: nat, look: Look, rest: seq<Look>, timeout: nat)
    requires now <= timeout && look.finding == NotYet
    ensures var w := Wait(now, [look] + rest, timeout);
      var t := if now + look.takes < timeout then now + look.takes else timeout;
      var tick := NextTick(t, now);
      var again := tick < timeout || (tick == timeout && look.tickWins);
      if again then w == Wait(tick, rest, timeout).(looks := 1 + Wait(tick, rest, timeout).looks)
      else w == Result(TimedOut, timeout, 1)
  {
    assert ([look] + rest)[1..] == rest;
  }

  // Looks that take no time, find nothing, and whose ticks win every tie.
  function Instant(n: nat): seq<Look> { seq(n, _ => Look(0, NotYet, true)) }

  lemma {:induction false} InstantLooks(k: nat, n: nat, timeout: nat)
    requires k * INTERVAL <= timeout && timeout / INTERVAL - k < n
    ensures Wait(k * INTERVAL, Instant(n), timeout).looks == 1 + timeout / INTERVAL - k
    decreases n
  {
    assert Instant(n)[1..] == Instant(n - 1);
    if (k + 1) * INTERVAL <= timeout {
      InstantLooks(k + 1, n - 1, timeout);
    }
  }

  // The bound is reached, for every timeout.
  lemma BoundIsReached(timeout: nat)
    ensures Poll(Instant(1 + timeout / INTERVAL), timeout).looks == 1 + timeout / INTERVAL
  {
    InstantLooks(0, 1 + timeout / INTERVAL, timeout);
  }

  // ---------------------------------------------------------------- the program

  // Waits for the tick or the deadline, after a look that ends at t.
  method Select(t: nat, received: nat, timeout: nat, tickWins: bool) returns (tick: nat, expired: bool)
    requires received <= t
    ensures tick == NextTick(t, received) && expired == GivesUp(t, tick, timeout, tickWins)
  {
    var queued := t / INTERVAL > received / INTERVAL;
    tick := if queued then t else INTERVAL * (t / INTERVAL + 1);
    if t >= timeout {
      expired := !queued || !tickWins;
    } else {
      expired := tick > timeout || (tick == timeout && !tickWins);
    }
  }

  method PollLoop(looks: seq<Look>, timeout: nat) returns (r: Result)
    ensures r == Poll(looks, timeout)
  {
    var now: nat, looked: nat, left := 0, 0, looks;
    while left != []
      invariant Poll(looks, timeout) == Wait(now, left, timeout).(looks := looked + Wait(now, left, timeout).looks)
      decreases |left|
    {
      var look := left[0];
      left, looked := left[1..], looked + 1;
      var t := LookEnd(now, look.takes, timeout);
      if look.finding == Failed {
        return Result(Error, t, looked);
      }
      if look.finding == Ready {
        return Result(Done, t, looked);
      }
      var tick, expired := Select(t, now, timeout, look.tickWins);
      if expired {
        return Result(TimedOut, if t < timeout then timeout else t, looked);
      }
      now := tick;
    }
    r := Result(Killed, now, looked);
  }
}
