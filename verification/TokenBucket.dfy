/**
 The per-host token bucket in front of BMC probes: one token a second, three at most. Time is exact.
 An event is one critical section: a caller's first look-up of the host, or one try at a token.
 */
module TokenBucket {
  datatype Bucket = Bucket(tokens: real, last: real) {
    // Tokens at a later time.
    function Refilled(now: real): real {
      if tokens + (now - last) > BURST then BURST else tokens + (now - last)
    }

    predicate Admits(now: real) { Refilled(now) >= 1.0 }

    function After(now: real): Bucket {
      Bucket(if Admits(now) then Refilled(now) - 1.0 else Refilled(now), now)
    }

    // How long a refused caller sleeps before it tries again.
    function Wait(now: real): real { 1.0 - Refilled(now) }

    predicate Valid() { 0.0 <= tokens <= BURST }
  }

  const BURST: real := 3.0

  // ---------------------------------------------------------------- one host

  // Tries in time order, none before `from`.
  predicate Ordered(tries: seq<real>, from: real) {
    tries == [] || (from <= tries[0] && Ordered(tries[1..], tries[0]))
  }

  // How many of the tries made between lo and hi are admitted.
  function Admitted(b: Bucket, tries: seq<real>, lo: real, hi: real): nat
    decreases tries
  {
    if tries == [] then 0
    else (if lo <= tries[0] <= hi && b.Admits(tries[0]) then 1 else 0) + Admitted(b.After(tries[0]), tries[1..], lo, hi)
  }

  lemma {:induction false} NoneAfter(b: Bucket, tries: seq<real>, lo: real, hi: real)
    requires Ordered(tries, b.last) && hi < b.last
    ensures Admitted(b, tries, lo, hi) == 0
    decreases tries
  {
    if tries != [] {
      NoneAfter(b.After(tries[0]), tries[1..], lo, hi);
    }
  }

  // From inside the window, admissions are paid for by the tokens in hand and the time left.
  lemma {:induction false} PaidFor(b: Bucket, tries: seq<real>, lo: real, hi: real)
    requires b.Valid() && Ordered(tries, b.last) && b.last <= hi
    ensures Admitted(b, tries, lo, hi) as real <= b.tokens + (hi - b.last)
    decreases tries
  {
    if tries != [] {
      if tries[0] <= hi {
        PaidFor(b.After(tries[0]), tries[1..], lo, hi);
      } else {
        NoneAfter(b.After(tries[0]), tries[1..], lo, hi);
      }
    }
  }

  // Any window of T seconds admits at most 3 + T tries.
  lemma {:induction false} HostBound(b: Bucket, tries: seq<real>, lo: real, hi: real)
    requires b.Valid() && Ordered(tries, b.last) && lo <= hi
    ensures Admitted(b, tries, lo, hi) as real <= BURST + (hi - lo)
    decreases tries
  {
    if hi < b.last {
      NoneAfter(b, tries, lo, hi);
    } else if lo <= b.last {
      PaidFor(b, tries, lo, hi);
    } else if tries != [] {
      if lo <= tries[0] <= hi {
        PaidFor(b.After(tries[0]), tries[1..], lo, hi);
      } else {
        HostBound(b.After(tries[0]), tries[1..], lo, hi);
      }
    }
  }

  // n tries, one a second from `at`.
  function Ticks(at: real, n: nat): seq<real>
    decreases n
  {
    if n == 0 then [] else [at] + Ticks(at + 1.0, n - 1)
  }

  lemma {:induction false} TicksAdmitted(at: real, n: nat, hi: real)
    requires 1.0 <= at && at + n as real <= hi + 1.0
    ensures Ordered(Ticks(at, n), at - 1.0) && Ordered(Ticks(at, n), 0.0) && Admitted(Bucket(0.0, at - 1.0), Ticks(at, n), 0.0, hi) == n
    decreases n
  {
    if n > 0 {
      TicksAdmitted(at + 1.0, n - 1, hi);
      assert Bucket(0.0, at - 1.0).After(at) == Bucket(0.0, at);
      assert Ticks(at, n)[1..] == Ticks(at + 1.0, n - 1);
    }
  }

  // The bound is attained: a burst of three and then one a second gets through in full.
  lemma BoundIsTight(n: nat)
    ensures var tries := [0.0, 0.0, 0.0] + Ticks(1.0, n);
      Ordered(tries, 0.0) && Admitted(Bucket(BURST, 0.0), tries, 0.0, n as real) == 3 + n
  {
    TicksAdmitted(1.0, n, n as real);
    assert Bucket(0.0, 1.0 - 1.0) == Bucket(0.0, 0.0);
    AdmittedNow(0.0, Ticks(1.0, n), n as real);
    AdmittedNow(1.0, [0.0] + Ticks(1.0, n), n as real);
    AdmittedNow(2.0, [0.0] + ([0.0] + Ticks(1.0, n)), n as real);
    assert [0.0, 0.0, 0.0] + Ticks(1.0, n) == [0.0] + ([0.0] + ([0.0] + Ticks(1.0, n)));
  }

  lemma AdmittedNow(left: real, rest: seq<real>, hi: real)
    requires 0.0 <= left <= 2.0 && 0.0 <= hi && Ordered(rest, 0.0)
    ensures Ordered([0.0] + rest, 0.0)
    ensures Admitted(Bucket(left + 1.0, 0.0), [0.0] + rest, 0.0, hi) == 1 + Admitted(Bucket(left, 0.0), rest, 0.0, hi)
  {
    assert ([0.0] + rest)[1..] == rest;
    assert Bucket(left + 1.0, 0.0).After(0.0) == Bucket(left, 0.0);
  }

  // A refused caller that nobody overtakes is admitted once it has waited as long as it was told, and no
  // sooner.
  lemma OneWaitIsEnough(b: Bucket, now: real, wake: real)
    requires b.Valid() && b.last <= now <= wake && !b.Admits(now)
    ensures b.After(now).Admits(wake) <==> now + b.Wait(now) <= wake
  {
  }

  // ---------------------------------------------------------------- many hosts

  datatype Event = Look(host: string, at: real) | Try(host: string, at: real)

  type Table = map<string, Bucket>

  function Next(t: Table, e: Event): Table
    requires e.Try? ==> e.host in t
  {
    match e
    case Look(host, at) => if host in t then t else t[host := Bucket(BURST, at)]
    case Try(host, at) => t[host := t[host].After(at)]
  }

  // Callers look a host up before they try, and each host's sections run in time order.
  predicate IsRun(t: Table, log: seq<Event>)
    decreases log
  {
    log == [] || (
      && (log[0].Try? ==> log[0].host in t && t[log[0].host].last <= log[0].at)
      && IsRun(Next(t, log[0]), log[1..]))
  }

  // Admissions of one host in the whole interleaved run.
  function AdmittedTo(t: Table, log: seq<Event>, host: string, lo: real, hi: real): nat
    requires IsRun(t, log)
    decreases log
  {
    if log == [] then 0
    else
      (if log[0].Try? && log[0].host == host && lo <= log[0].at <= hi && t[host].Admits(log[0].at) then 1 else 0)
      + AdmittedTo(Next(t, log[0]), log[1..], host, lo, hi)
  }

  // The times one host is tried at, and the time its bucket is made.
  function Tries(log: seq<Event>, host: string): seq<real> {
    if log == [] then []
    else (if log[0].Try? && log[0].host == host then [log[0].at] else []) + Tries(log[1..], host)
  }

  function FirstLook(log: seq<Event>, host: string): real {
    if log == [] then 0.0
    else if log[0].host == host then log[0].at
    else FirstLook(log[1..], host)
  }

  function StartOf(t: Table, log: seq<Event>, host: string): Bucket {
    if host in t then t[host] else Bucket(BURST, FirstLook(log, host))
  }

  // Hosts do not affect one another: a host's admissions are those of its own tries alone.
  lemma {:induction false} HostsIndependent(t: Table, log: seq<Event>, host: string, lo: real, hi: real)
    requires IsRun(t, log)
    ensures AdmittedTo(t, log, host, lo, hi) == Admitted(StartOf(t, log, host), Tries(log, host), lo, hi)
    ensures Ordered(Tries(log, host), StartOf(t, log, host).last)
    decreases log
  {
    if log != [] {
      HostsIndependent(Next(t, log[0]), log[1..], host, lo, hi);
      if log[0].Try? && log[0].host == host {
        assert Tries(log, host)[1..] == Tries(log[1..], host);
      } else {
        assert Tries(log, host) == Tries(log[1..], host);
      }
    }
  }

  // For every host, every interleaving and every window of hi - lo seconds.
  lemma RateBound(log: seq<Event>, host: string, lo: real, hi: real)
    requires IsRun(map[], log) && lo <= hi
    ensures AdmittedTo(map[], log, host, lo, hi) as real <= BURST + (hi - lo)
  {
    HostsIndependent(map[], log, host, lo, hi);
    HostBound(StartOf(map[], log, host), Tries(log, host), lo, hi);
  }

  // ---------------------------------------------------------------- the program

  class Entry {
    var tokens: real
    var last: real

    ghost function Value(): Bucket reads this { Bucket(tokens, last) }

    constructor (now: real)
      ensures Value() == Bucket(BURST, now)
    {
      tokens, last := BURST, now;
    }

    // One pass under the bucket's lock.
    method TakeOrWait(now: real) returns (admitted: bool, wait: real)
      modifies this
      ensures Value() == old(Value()).After(now)
      ensures admitted == old(Value()).Admits(now)
      ensures !admitted ==> wait == old(Value()).Wait(now)
    {
      wait := 0.0;
      tokens := tokens + (now - last);
      if tokens > BURST {
        tokens := BURST;
      }
      last := now;
      if tokens >= 1.0 {
        tokens := tokens - 1.0;
        return true, wait;
      }
      wait := 1.0 - tokens;
      admitted := false;
    }

    // The loop of a caller with nobody else on its host: it sleeps at most once. `late` is how late
    // the timer fires; `cancelled`, whether the caller gives up during that sleep.
    method AcquireAlone(start: real, late: real, cancelled: bool) returns (ok: bool, waits: nat)
      requires Value().Valid() && last <= start && 0.0 <= late
      modifies this
      ensures Value().Valid() && waits <= 1
      ensures waits == 0 <==> old(Value()).Admits(start)
      ensures ok <==> waits == 0 || !cancelled
    {
      var now := start;
      waits := 0;
      while true
        invariant Value().Valid() && last <= now && waits <= 1
        invariant waits == 0 ==> now == start && Value() == old(Value())
        invariant waits == 1 ==> Value().Admits(now) && !cancelled && !old(Value()).Admits(start)
        decreases 2 - waits
      {
        var admitted, wait := TakeOrWait(now);
        if admitted {
          return true, waits;
        }
        waits := waits + 1;
        if cancelled {
          return false, waits;
        }
        now := now + wait + late;
      }
    }
  }

  class Limiter {
    var buckets: map<string, Entry>

    constructor ()
      ensures buckets == map[]
    {
      buckets := map[];
    }

    ghost predicate Valid()
      reads this, buckets.Values
    {
      && (forall h, g :: h in buckets && g in buckets && h != g ==> buckets[h] != buckets[g])
      && forall h :: h in buckets ==> buckets[h].Value().Valid()
    }

    ghost function Table(): Table
      reads this, buckets.Values
    {
      map h | h in buckets :: buckets[h].Value()
    }

    // The look-up under the table's lock.
    method Lookup(host: string, now: real) returns (b: Entry)
      requires Valid()
      modifies this
      ensures Valid() && host in buckets && buckets[host] == b
      ensures if host in old(buckets) then buckets == old(buckets) else fresh(b) && buckets == old(buckets)[host := b]
      ensures Table() == Next(old(Table()), Look(host, now))
    {
      if host !in buckets {
        b := new Entry(now);
        buckets := buckets[host := b];
      } else {
        b := buckets[host];
      }
    }

    // One try at a host's bucket is one step of the table, and touches no other host.
    method Try(host: string, now: real) returns (admitted: bool, wait: real)
      requires Valid() && host in buckets && buckets[host].last <= now
      modifies buckets[host]
      ensures Valid() && buckets[host].last == now
      ensures Table() == Next(old(Table()), Event.Try(host, now))
      ensures admitted == old(Table())[host].Admits(now)
      ensures !admitted ==> wait == old(Table())[host].Wait(now)
    {
      admitted, wait := buckets[host].TakeOrWait(now);
    }
  }
}
