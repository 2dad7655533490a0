/**
 Folding the boot event stream into one state per node. Phases and times are specified as maxima over
 the events of a bucket, so what they depend on is plain: which events there are, not in what order.
 */
module EventFold {
  import opened Options

  // `Other` is any text that names no stage.
  datatype Phase =
    | Unknown | Discover | Tftp | Kernel | Initramfs | Config | Maintenance | Apid | Bootstrap | Ready
    | Other(text: string)

  datatype Event = Event(timestamp: int, mac: string, ip: string, interface: string, phase: Phase)

  datatype NodeState = NodeState(mac: string, ip: string, interface: string, phase: Phase, lastSeen: int)

  const PHASE_ORDER: seq<Phase> := [Discover, Tftp, Kernel, Initramfs, Config, Maintenance, Apid, Bootstrap, Ready]

  function Ordinal(p: Phase): int {
    match p
    case Unknown => -1
    case Other(_) => -1
    case Discover => 0
    case Tftp => 1
    case Kernel => 2
    case Initramfs => 3
    case Config => 4
    case Maintenance => 5
    case Apid => 6
    case Bootstrap => 7
    case Ready => 8
  }

  // The stages of a boot, in the order it goes through them; a phase that is no stage is before them all.
  lemma StagesInOrder(text: string)
    ensures Ordinal(Unknown) == Ordinal(Other(text)) < Ordinal(Discover) < Ordinal(Tftp) < Ordinal(Kernel) < Ordinal(Initramfs)
    ensures Ordinal(Initramfs) < Ordinal(Config) < Ordinal(Maintenance) < Ordinal(Apid) < Ordinal(Bootstrap) < Ordinal(Ready)
  {
  }

  // ---------------------------------------------------------------- bindings

  predicate Binds(e: Event) { e.phase == Tftp && e.mac != "" && e.ip != "" }

  // The last binding event of an address wins.
  function Bindings(events: seq<Event>): map<string, string> {
    if events == [] then map[]
    else
      var b, e := Bindings(events[..|events| - 1]), events[|events| - 1];
      if Binds(e) then b[e.ip := e.mac] else b
  }

  // Each address is bound to at most one MAC.
  ghost predicate UniqueBinding(events: seq<Event>) {
    forall d, e :: d in events && e in events && Binds(d) && Binds(e) && d.ip == e.ip ==> d.mac == e.mac
  }

  lemma {:induction false} BindingsMean(events: seq<Event>)
    ensures forall ip :: ip in Bindings(events) <==> exists e :: e in events && Binds(e) && e.ip == ip
    ensures forall ip :: ip in Bindings(events) ==> exists e :: e in events && Binds(e) && e.ip == ip && e.mac == Bindings(events)[ip]
  {
    if events != [] {
      var front := events[..|events| - 1];
      BindingsMean(front);
      assert events == front + [events[|events| - 1]];
    }
  }

  // ---------------------------------------------------------------- buckets

  // The MAC an event belongs to, once bindings are applied.
  function Resolve(e: Event, b: map<string, string>): string {
    if e.mac == "" && e.ip != "" && e.ip in b then b[e.ip] else e.mac
  }

  // The one bucket of an event; none if it names no node.
  function Key(e: Event, b: map<string, string>): Option<string> {
    if Resolve(e, b) != "" then Some(Resolve(e, b))
    else if e.ip != "" then Some("ip:" + e.ip)
    else None
  }

  ghost predicate In(e: Event, events: seq<Event>, b: map<string, string>, key: string) {
    e in events && Key(e, b) == Some(key)
  }

  // The phase is the furthest of the bucket; the time is its latest.
  ghost predicate Furthest(events: seq<Event>, b: map<string, string>, key: string, phase: Phase) {
    && (phase == Unknown || (Ordinal(phase) >= 0 && exists e :: In(e, events, b, key) && e.phase == phase))
    && forall e :: In(e, events, b, key) ==> Ordinal(e.phase) <= Ordinal(phase)
  }

  ghost predicate Latest(events: seq<Event>, b: map<string, string>, key: string, t: int) {
    && (t == 0 || (t > 0 && exists e :: In(e, events, b, key) && e.timestamp == t))
    && forall e :: In(e, events, b, key) ==> e.timestamp <= t
  }

  // The address last seen: an event of the bucket sets its own, or, if it has none, one bound to the MAC if
  // there is one; which of several is not determined.
  ghost predicate LastAddress(events: seq<Event>, b: map<string, string>, key: string, ip: string) {
    if events == [] then ip == ""
    else
      var e := events[|events| - 1];
      if Key(e, b) != Some(key) then LastAddress(events[..|events| - 1], b, key, ip)
      else if e.ip != "" then ip == e.ip
      else if HasAddress(b, key) then ip in b && b[ip] == key
      else LastAddress(events[..|events| - 1], b, key, ip)
  }

  ghost predicate HasAddress(b: map<string, string>, mac: string) { exists ip :: ip in b && b[ip] == mac }

  // The last interface named in the bucket.
  function LastInterface(events: seq<Event>, b: map<string, string>, key: string): string {
    if events == [] then ""
    else
      var e := events[|events| - 1];
      if Key(e, b) == Some(key) && e.interface != "" then e.interface
      else LastInterface(events[..|events| - 1], b, key)
  }

  // A bucket has its MAC exactly when one of its events has.
  ghost predicate OwnMac(events: seq<Event>, b: map<string, string>, key: string, mac: string) {
    mac == if (exists e :: In(e, events, b, key) && Resolve(e, b) != "") then key else ""
  }

  ghost predicate Holds(events: seq<Event>, b: map<string, string>, key: string, st: NodeState) {
    && Furthest(events, b, key, st.phase) && Latest(events, b, key, st.lastSeen)
    && LastAddress(events, b, key, st.ip) && st.interface == LastInterface(events, b, key)
    && OwnMac(events, b, key, st.mac)
  }

  ghost predicate Summarizes(events: seq<Event>, b: map<string, string>, key: string, st: NodeState) {
    (exists e :: In(e, events, b, key)) && Holds(events, b, key, st)
  }

  ghost predicate IsFold(events: seq<Event>, b: map<string, string>, states: map<string, NodeState>) {
    && (forall e, key :: In(e, events, b, key) ==> key in states)
    && forall key :: key in states ==> Summarizes(events, b, key, states[key])
  }

  // Where an event lands: in the bucket of its own MAC; else of the MAC its address is bound to; else of its
  // address.
  predicate Lands(e: Event, b: map<string, string>, key: string) {
    if e.mac != "" then key == e.mac
    else if e.ip in b then key == b[e.ip]
    else e.ip != "" && key == "ip:" + e.ip
  }

  // An address is bound to the MAC of the last event that offered it to one.
  lemma {:induction false} BoundToLast(events: seq<Event>, ip: string, mac: string)
    ensures ip in Bindings(events) && Bindings(events)[ip] == mac <==> exists k ::
      && 0 <= k < |events| && events[k].phase == Tftp && events[k].ip == ip != "" && events[k].mac == mac != ""
      && forall j :: k < j < |events| && events[j].phase == Tftp && events[j].ip == ip ==> events[j].mac == ""
  {
    if events != [] {
      var n := |events| - 1;
      var front, e := events[..n], events[n];
      BoundToLast(front, ip, mac);
      if Binds(e) && e.ip == ip {
        assert e.mac == mac ==> events[n].phase == Tftp && events[n].ip == ip;
      } else {
        if k :| 0 <= k < n && front[k].phase == Tftp && front[k].ip == ip != "" && front[k].mac == mac != ""
                && forall j :: k < j < n && front[j].phase == Tftp && front[j].ip == ip ==> front[j].mac == "" {
          assert events[k] == front[k];
          forall j | k < j < |events| && events[j].phase == Tftp && events[j].ip == ip ensures events[j].mac == "" {
            if j < n { assert events[j] == front[j]; }
          }
        }
      }
    }
  }

  lemma LandsMeans(events: seq<Event>, e: Event, key: string)
    ensures In(e, events, Bindings(events), key) <==> e in events && Lands(e, Bindings(events), key)
  {
    BindingsMean(events);
  }

  // The buckets of a fold are those some event lands in, each event in one.
  lemma BucketsAre(events: seq<Event>, states: map<string, NodeState>, key: string)
    requires IsFold(events, Bindings(events), states)
    ensures key in states <==> exists e :: e in events && Lands(e, Bindings(events), key)
  {
    var b := Bindings(events);
    if key in states {
      var e :| In(e, events, b, key);
      LandsMeans(events, e, key);
    }
    if e :| e in events && Lands(e, b, key) {
      LandsMeans(events, e, key);
    }
  }

  // ---------------------------------------------------------------- what the fold depends on

  ghost predicate SameEvents(a: seq<Event>, b: seq<Event>) { forall e :: e in a <==> e in b }

  lemma SameBindings(a: seq<Event>, b: seq<Event>)
    requires SameEvents(a, b) && UniqueBinding(a)
    ensures Bindings(a) == Bindings(b)
  {
    BindingsMean(a);
    BindingsMean(b);
  }

  // Reordering events, or repeating them, changes no bucket, no phase and no last-seen time, as long
  // as each address is bound to one MAC.
  lemma OrderDoesNotMatter(a: seq<Event>, b: seq<Event>, s: map<string, NodeState>, t: map<string, NodeState>)
    requires SameEvents(a, b) && UniqueBinding(a)
    requires IsFold(a, Bindings(a), s) && IsFold(b, Bindings(b), t)
    ensures s.Keys == t.Keys
    ensures forall key :: key in s && key in t ==> s[key].phase == t[key].phase && s[key].lastSeen == t[key].lastSeen
  {
    SameBindings(a, b);
    var m := Bindings(a);
    forall key ensures key in s <==> key in t {
      if key in s { var e :| In(e, a, m, key); assert In(e, b, m, key); }
      if key in t { var e :| In(e, b, m, key); assert In(e, a, m, key); }
    }
    forall key | key in s && key in t
      ensures s[key].phase == t[key].phase && s[key].lastSeen == t[key].lastSeen
    {
      SameSummary(a, b, m, key, s[key], t[key]);
    }
  }

  lemma SameSummary(a: seq<Event>, b: seq<Event>, m: map<string, string>, key: string, s: NodeState, t: NodeState)
    requires forall e :: In(e, a, m, key) <==> In(e, b, m, key)
    requires Summarizes(a, m, key, s) && Summarizes(b, m, key, t)
    ensures s.phase == t.phase && s.lastSeen == t.lastSeen
  {
    SamePhase(a, b, m, key, s.phase, t.phase);
    SameTime(a, b, m, key, s.lastSeen, t.lastSeen);
  }

  lemma SamePhase(a: seq<Event>, b: seq<Event>, m: map<string, string>, key: string, p: Phase, q: Phase)
    requires forall e :: In(e, a, m, key) <==> In(e, b, m, key)
    requires Furthest(a, m, key, p) && Furthest(b, m, key, q)
    ensures p == q
  {
    PhaseGrows(a, m, b, m, key, p, q);
    PhaseGrows(b, m, a, m, key, q, p);
  }

  lemma SameTime(a: seq<Event>, b: seq<Event>, m: map<string, string>, key: string, t: int, u: int)
    requires forall e :: In(e, a, m, key) <==> In(e, b, m, key)
    requires Latest(a, m, key, t) && Latest(b, m, key, u)
    ensures t == u
  {
    TimeGrows(a, m, b, m, key, t, u);
    TimeGrows(b, m, a, m, key, u, t);
  }

  lemma PhaseGrows(a: seq<Event>, m: map<string, string>, b: seq<Event>, n: map<string, string>, key: string, p: Phase, q: Phase)
    requires forall e :: In(e, a, m, key) ==> In(e, b, n, key)
    requires Furthest(a, m, key, p) && Furthest(b, n, key, q)
    ensures Ordinal(p) <= Ordinal(q)
  {
    if p != Unknown {
      var e :| In(e, a, m, key) && e.phase == p;
      assert In(e, b, n, key);
    }
  }

  lemma TimeGrows(a: seq<Event>, m: map<string, string>, b: seq<Event>, n: map<string, string>, key: string, t: int, u: int)
    requires forall e :: In(e, a, m, key) ==> In(e, b, n, key)
    requires Latest(a, m, key, t) && Latest(b, n, key, u)
    ensures t <= u
  {
    if t > 0 {
      var e :| In(e, a, m, key) && e.timestamp == t;
      assert In(e, b, n, key);
    }
  }

  // Appending events never sets a MAC back, as long as each address stays bound to one MAC.
  lemma NeverRegresses(events: seq<Event>, more: seq<Event>, s: map<string, NodeState>, t: map<string, NodeState>, mac: string)
    requires UniqueBinding(events + more) && mac in s && !("ip:" <= mac)
    requires IsFold(events, Bindings(events), s) && IsFold(events + more, Bindings(events + more), t)
    ensures mac in t && Ordinal(s[mac].phase) <= Ordinal(t[mac].phase) && s[mac].lastSeen <= t[mac].lastSeen
  {
    var b, c := Bindings(events), Bindings(events + more);
    forall e | In(e, events, b, mac) ensures In(e, events + more, c, mac) {
      StaysIn(events, more, e, mac);
    }
    var e :| In(e, events, b, mac);
    assert In(e, events + more, c, mac);
    PhaseGrows(events, b, events + more, c, mac, s[mac].phase, t[mac].phase);
    TimeGrows(events, b, events + more, c, mac, s[mac].lastSeen, t[mac].lastSeen);
  }

  lemma StaysIn(events: seq<Event>, more: seq<Event>, e: Event, mac: string)
    requires UniqueBinding(events + more) && In(e, events, Bindings(events), mac) && !("ip:" <= mac)
    ensures In(e, events + more, Bindings(events + more), mac)
  {
    assert Resolve(e, Bindings(events)) == mac by {
      assert "ip:" <= "ip:" + e.ip;
    }
    StaysResolved(events, more, e);
    assert e in events + more;
  }

  lemma StaysResolved(events: seq<Event>, more: seq<Event>, e: Event)
    requires UniqueBinding(events + more) && e in events && Resolve(e, Bindings(events)) != ""
    ensures Resolve(e, Bindings(events + more)) == Resolve(e, Bindings(events))
  {
    BindingsMean(events);
    BindingsMean(events + more);
    if e.mac == "" {
      var d :| d in events && Binds(d) && d.ip == e.ip && d.mac == Bindings(events)[e.ip];
      assert d in events + more;
    }
  }

  lemma BindingsSnoc(events: seq<Event>, e: Event)
    ensures Bindings(events + [e]) == if Binds(e) then Bindings(events)[e.ip := e.mac] else Bindings(events)
  {
    assert (events + [e])[..|events + [e]| - 1] == events;
  }

  function Acked(ip: string, m: string): seq<Event> { [Event(1, m, ip, "", Tftp), Event(2, "", ip, "", Kernel)] }

  function Reacked(ip: string, m: string, n: string): seq<Event> { Acked(ip, m) + [Event(3, n, ip, "", Tftp)] }

  lemma AckedBindings(ip: string, m: string, n: string)
    requires ip != "" && m != "" && n != ""
    ensures Bindings(Acked(ip, m)) == map[ip := m] && Bindings(Reacked(ip, m, n)) == map[ip := n]
  {
    var d, e, f := Event(1, m, ip, "", Tftp), Event(2, "", ip, "", Kernel), Event(3, n, ip, "", Tftp);
    BindingsSnoc([], d);
    BindingsSnoc([d], e);
    BindingsSnoc(Acked(ip, m), f);
    assert [] + [d] == [d] && [d] + [e] == Acked(ip, m);
  }

  lemma ReackedBucket(ip: string, m: string, n: string, g: Event)
    requires ip != "" && m != "" && n != "" && m != n && In(g, Reacked(ip, m, n), map[ip := n], m)
    ensures g.phase == Tftp
  {
    var all := Reacked(ip, m, n);
    var k :| 0 <= k < |all| && all[k] == g;
    assert all[0] == Acked(ip, m)[0] && all[1] == Acked(ip, m)[1];
  }

  lemma AckedPhase(ip: string, m: string, n: string, p: Phase)
    requires ip != "" && m != "" && n != "" && Furthest(Acked(ip, m), Bindings(Acked(ip, m)), m, p)
    ensures Ordinal(Kernel) <= Ordinal(p)
  {
    AckedBindings(ip, m, n);
    assert In(Acked(ip, m)[1], Acked(ip, m), map[ip := m], m);
  }

  lemma ReackedPhase(ip: string, m: string, n: string, q: Phase)
    requires ip != "" && m != "" && n != "" && m != n
    requires Furthest(Reacked(ip, m, n), Bindings(Reacked(ip, m, n)), m, q)
    ensures Ordinal(q) <= Ordinal(Tftp)
  {
    AckedBindings(ip, m, n);
    forall g | In(g, Reacked(ip, m, n), map[ip := n], m) ensures g.phase == Tftp {
      ReackedBucket(ip, m, n, g);
    }
  }

  // Without that, it can: an address that moves to another MAC takes its events along.
  lemma RebindingRegresses(ip: string, m: string, n: string, p: Phase, q: Phase)
    requires ip != "" && m != "" && n != "" && m != n
    requires Furthest(Acked(ip, m), Bindings(Acked(ip, m)), m, p)
    requires Furthest(Reacked(ip, m, n), Bindings(Reacked(ip, m, n)), m, q)
    ensures Ordinal(q) < Ordinal(p)
  {
    AckedPhase(ip, m, n, p);
    ReackedPhase(ip, m, n, q);
  }

  // ---------------------------------------------------------------- the program

  // No event names as its MAC the key of an address bucket that a binding would claim.
  ghost predicate NoClash(events: seq<Event>) {
    var b := Bindings(events);
    forall e, ip :: e in events && ip in b ==> Resolve(e, b) != "ip:" + ip
  }

  method PhaseOrdinal(p: Phase) returns (i: int)
    ensures i == Ordinal(p)
  {
    i := 0;
    assert forall k :: 0 <= k < |PHASE_ORDER| ==> Ordinal(PHASE_ORDER[k]) == k;
    while i < |PHASE_ORDER|
      invariant 0 <= i <= |PHASE_ORDER|
      invariant Ordinal(p) < 0 || i <= Ordinal(p)
    {
      if PHASE_ORDER[i] == p {
        return i;
      }
      i := i + 1;
    }
    i := -1;
  }

  const BLANK: NodeState := NodeState("", "", "", Unknown, 0)

  lemma InSnoc(events: seq<Event>, e: Event, b: map<string, string>, key: string)
    ensures forall d :: In(d, events + [e], b, key) <==> In(d, events, b, key) || (d == e && Key(e, b) == Some(key))
  {
  }

  lemma OtherBucket(events: seq<Event>, e: Event, b: map<string, string>, key: string, st: NodeState)
    requires Summarizes(events, b, key, st) && Key(e, b) != Some(key)
    ensures Summarizes(events + [e], b, key, st)
  {
    InSnoc(events, e, b, key);
    assert (events + [e])[..|events|] == events;
    var d :| In(d, events, b, key);
    assert In(d, events + [e], b, key);
    PhaseSnoc(events, e, b, key, st.phase);
    TimeSnoc(events, e, b, key, st.lastSeen);
    AddressSnoc(events, e, b, key, st.ip, st.ip);
    MacSnoc(events, e, b, key, st.mac);
  }

  lemma PhaseSnoc(events: seq<Event>, e: Event, b: map<string, string>, key: string, p: Phase)
    requires Furthest(events, b, key, p)
    ensures Furthest(events + [e], b, key, if Key(e, b) == Some(key) && Ordinal(e.phase) > Ordinal(p) then e.phase else p)
  {
    InSnoc(events, e, b, key);
    assert Key(e, b) == Some(key) ==> In(e, events + [e], b, key);
    if p != Unknown {
      var d :| In(d, events, b, key) && d.phase == p;
      assert In(d, events + [e], b, key);
    }
  }

  lemma TimeSnoc(events: seq<Event>, e: Event, b: map<string, string>, key: string, t: int)
    requires Latest(events, b, key, t)
    ensures Latest(events + [e], b, key, if Key(e, b) == Some(key) && e.timestamp > t then e.timestamp else t)
  {
    InSnoc(events, e, b, key);
    assert Key(e, b) == Some(key) ==> In(e, events + [e], b, key);
    if t > 0 {
      var d :| In(d, events, b, key) && d.timestamp == t;
      assert In(d, events + [e], b, key);
    }
  }

  lemma AddressSnoc(events: seq<Event>, e: Event, b: map<string, string>, key: string, was: string, ip: string)
    requires LastAddress(events, b, key, was)
    requires if Key(e, b) != Some(key) then ip == was
             else if e.ip != "" then ip == e.ip
             else if HasAddress(b, key) then ip in b && b[ip] == key
             else ip == was
    ensures LastAddress(events + [e], b, key, ip)
  {
    assert (events + [e])[..|events|] == events;
  }

  lemma MacSnoc(events: seq<Event>, e: Event, b: map<string, string>, key: string, mac: string)
    requires OwnMac(events, b, key, mac)
    ensures OwnMac(events + [e], b, key, if Key(e, b) == Some(key) && Resolve(e, b) != "" then Resolve(e, b) else mac)
  {
    InSnoc(events, e, b, key);
  }

  // A bucket's state after one event, once its MAC and address are settled.
  function Seen(st: NodeState, e: Event, mac: string, ip: string): NodeState {
    NodeState(mac, ip,
              if e.interface != "" then e.interface else st.interface,
              if Ordinal(e.phase) > Ordinal(st.phase) then e.phase else st.phase,
              if e.timestamp > st.lastSeen then e.timestamp else st.lastSeen)
  }

  lemma SeenHolds(st: NodeState, e: Event, b: map<string, string>, events: seq<Event>, key: string, ip: string)
    requires Key(e, b) == Some(key) && Holds(events, b, key, st)
    requires LastAddress(events + [e], b, key, ip)
    ensures Holds(events + [e], b, key, Seen(st, e, if Resolve(e, b) != "" then Resolve(e, b) else st.mac, ip))
  {
    PhaseSnoc(events, e, b, key, st.phase);
    TimeSnoc(events, e, b, key, st.lastSeen);
    MacSnoc(events, e, b, key, st.mac);
    InterfaceSnoc(events, e, b, key);
  }

  lemma InterfaceSnoc(events: seq<Event>, e: Event, b: map<string, string>, key: string)
    requires Key(e, b) == Some(key)
    ensures LastInterface(events + [e], b, key) == if e.interface != "" then e.interface else LastInterface(events, b, key)
  {
    assert (events + [e])[..|events|] == events;
  }

  lemma SeenSummarizes(st: NodeState, e: Event, b: map<string, string>, events: seq<Event>, key: string, ip: string)
    requires Key(e, b) == Some(key) && Holds(events, b, key, st)
    requires LastAddress(events + [e], b, key, ip)
    ensures Summarizes(events + [e], b, key, Seen(st, e, if Resolve(e, b) != "" then Resolve(e, b) else st.mac, ip))
  {
    SeenHolds(st, e, b, events, key, ip);
    assert In(e, events + [e], b, key);
  }

  // One event of a bucket.
  method Observe(st: NodeState, e: Event, b: map<string, string>, ghost events: seq<Event>, ghost key: string) returns (out: NodeState)
    requires Key(e, b) == Some(key) && Holds(events, b, key, st)
    ensures Summarizes(events + [e], b, key, out)
  {
    var mac, ip := st.mac, st.ip;
    if Resolve(e, b) != "" {
      mac := Resolve(e, b);
      if e.ip != "" {
        ip := e.ip;
      } else {
        var known := BindingIP(b, mac);
        assert known.None? ==> !HasAddress(b, key);
        if known.Some? {
          ip := known.value;
        }
      }
    } else {
      ip := e.ip;
    }
    var p := PhaseOrdinal(e.phase);
    var q := PhaseOrdinal(st.phase);
    AddressSnoc(events, e, b, key, st.ip, ip);
    SeenSummarizes(st, e, b, events, key, ip);
    out := NodeState(mac, ip,
                     if e.interface != "" then e.interface else st.interface,
                     if p > q then e.phase else st.phase,
                     if e.timestamp > st.lastSeen then e.timestamp else st.lastSeen);
  }

  // Some address bound to a MAC: map order decides which.
  method BindingIP(b: map<string, string>, mac: string) returns (r: Option<string>)
    ensures r.Some? ==> r.value in b && b[r.value] == mac
    ensures r.None? ==> forall ip :: ip in b ==> b[ip] != mac
  {
    var left := b.Keys;
    while left != {}
      invariant left <= b.Keys && forall ip :: ip in b && ip !in left ==> b[ip] != mac
    {
      var ip :| ip in left;
      if b[ip] == mac {
        return Some(ip);
      }
      left := left - {ip};
    }
    r := None;
  }

  method FoldState(events: seq<Event>) returns (states: map<string, NodeState>, merges: nat)
    ensures merges == 0 <==> NoClash(events)
    ensures merges == 0 ==> IsFold(events, Bindings(events), states)
  {
    var b: map<string, string> := map[];
    for i := 0 to |events|
      invariant b == Bindings(events[..i])
    {
      assert events[..i + 1] == events[..i] + [events[i]];
      BindingsSnoc(events[..i], events[i]);
      if Binds(events[i]) {
        b := b[events[i].ip := events[i].mac];
      }
    }
    assert events[..|events|] == events;
    states := map[];
    for i := 0 to |events|
      invariant IsFold(events[..i], b, states)
    {
      assert events[..i + 1] == events[..i] + [events[i]];
      states := Record(states, events[i], b, events[..i]);
    }
    ClashIsAKey(events, states);
    states, merges := MergeBound(states, b);
  }

  method Record(was: map<string, NodeState>, e: Event, b: map<string, string>, ghost events: seq<Event>) returns (states: map<string, NodeState>)
    requires IsFold(events, b, was)
    ensures IsFold(events + [e], b, states)
  {
    var key := Key(e, b);
    if key.None? {
      NoBucket(was, e, b, events);
      return was;
    }
    var st := if key.value in was then was[key.value] else BLANK;
    BucketHolds(was, b, events, key.value);
    st := Observe(st, e, b, events, key.value);
    OneBucket(was, e, b, events, key.value, st);
    states := was[key.value := st];
  }

  lemma BucketHolds(was: map<string, NodeState>, b: map<string, string>, events: seq<Event>, key: string)
    requires IsFold(events, b, was)
    ensures Holds(events, b, key, if key in was then was[key] else BLANK)
  {
    if key !in was { NothingYet(events, b, key); }
  }

  lemma NoBucket(was: map<string, NodeState>, e: Event, b: map<string, string>, events: seq<Event>)
    requires IsFold(events, b, was) && Key(e, b).None?
    ensures IsFold(events + [e], b, was)
  {
    forall k | k in was ensures Summarizes(events + [e], b, k, was[k]) {
      OtherBucket(events, e, b, k, was[k]);
    }
    forall d, k | In(d, events + [e], b, k) ensures k in was {
      InSnoc(events, e, b, k);
    }
  }

  lemma OneBucket(was: map<string, NodeState>, e: Event, b: map<string, string>, events: seq<Event>, key: string, st: NodeState)
    requires IsFold(events, b, was) && Key(e, b) == Some(key) && Summarizes(events + [e], b, key, st)
    ensures IsFold(events + [e], b, was[key := st])
  {
    forall k | k in was && k != key ensures Summarizes(events + [e], b, k, was[k]) {
      OtherBucket(events, e, b, k, was[k]);
    }
    forall d, k | In(d, events + [e], b, k) ensures k in was || k == key {
      InSnoc(events, e, b, k);
    }
  }

  // There is a fold of every event list.
  lemma {:induction false} FoldExists(events: seq<Event>, b: map<string, string>) returns (states: map<string, NodeState>)
    ensures IsFold(events, b, states)
  {
    if events == [] {
      states := map[];
    } else {
      var front, e := events[..|events| - 1], events[|events| - 1];
      assert events == front + [e];
      var was := FoldExists(front, b);
      var key := Key(e, b);
      if key.None? {
        NoBucket(was, e, b, front);
        states := was;
      } else {
        var st := if key.value in was then was[key.value] else BLANK;
        BucketHolds(was, b, front, key.value);
        var ip := if e.ip != "" then e.ip else if x :| x in b && b[x] == key.value then x else st.ip;
        AddressSnoc(front, e, b, key.value, st.ip, ip);
        SeenSummarizes(st, e, b, front, key.value, ip);
        var next := Seen(st, e, if Resolve(e, b) != "" then Resolve(e, b) else st.mac, ip);
        OneBucket(was, e, b, front, key.value, next);
        states := was[key.value := next];
      }
    }
  }

  lemma {:induction false} NothingYet(events: seq<Event>, b: map<string, string>, key: string)
    requires forall e :: !In(e, events, b, key)
    ensures Holds(events, b, key, BLANK)
  {
    if events != [] {
      var front, last := events[..|events| - 1], events[|events| - 1];
      assert events == front + [last];
      InSnoc(front, last, b, key);
      assert !In(last, events, b, key);
      NothingYet(front, b, key);
    }
  }

  // The merge finds work exactly when some event's own MAC is the key of an address bucket.
  lemma ClashIsAKey(events: seq<Event>, states: map<string, NodeState>)
    requires IsFold(events, Bindings(events), states)
    ensures NoClash(events) <==> forall ip :: ip in Bindings(events) ==> "ip:" + ip !in states
  {
    var b := Bindings(events);
    if ip :| ip in b && "ip:" + ip in states {
      var e :| In(e, events, b, "ip:" + ip);
      if Resolve(e, b) == "" {
        assert ("ip:" + e.ip)[3..] == e.ip && ("ip:" + ip)[3..] == ip;
        BindingsMean(events);
      }
    }
    if e, ip :| e in events && ip in b && Resolve(e, b) == "ip:" + ip {
      assert In(e, events, b, "ip:" + ip);
    }
  }

  // Folds leftover address buckets into the MAC they turn out to be bound to.
  method MergeBound(was: map<string, NodeState>, b: map<string, string>) returns (states: map<string, NodeState>, merges: nat)
    ensures merges == 0 <==> forall ip :: ip in b ==> "ip:" + ip !in was
    ensures merges == 0 ==> states == was
  {
    states, merges := was, 0;
    var left := b.Keys;
    while left != {}
      invariant left <= b.Keys
      invariant merges == 0 ==> states == was && forall ip :: ip in b && ip !in left ==> "ip:" + ip !in was
      invariant merges > 0 ==> exists ip :: ip in b && "ip:" + ip in was
    {
      var ip :| ip in left;
      left := left - {ip};
      if "ip:" + ip in states {
        var from, mac := states["ip:" + ip], b[ip];
        var into := if mac in states then states[mac] else BLANK;
        var p := PhaseOrdinal(from.phase);
        var q := PhaseOrdinal(into.phase);
        states := states[mac := NodeState(mac,
                                          if into.ip == "" then ip else into.ip,
                                          if into.interface == "" then from.interface else into.interface,
                                          if p > q then from.phase else into.phase,
                                          if from.lastSeen > into.lastSeen then from.lastSeen else into.lastSeen)];
        states := states - {"ip:" + ip};
        merges := merges + 1;
      }
    }
  }

  // ---------------------------------------------------------------- when a MAC can be set back

  // No MAC looks like the key of an address bucket.
  ghost predicate PlainMacs(events: seq<Event>) { forall e :: e in events ==> !("ip:" <= e.mac) }

  lemma PlainMeansNoClash(events: seq<Event>)
    requires PlainMacs(events)
    ensures NoClash(events)
  {
    var b := Bindings(events);
    BindingsMean(events);
    forall e, ip | e in events && ip in b ensures Resolve(e, b) != "ip:" + ip {
      assert "ip:" <= "ip:" + ip;
    }
  }

  ghost predicate NotBehind(st: NodeState, t: map<string, NodeState>, mac: string) {
    mac in t && Ordinal(st.phase) <= Ordinal(t[mac].phase) && st.lastSeen <= t[mac].lastSeen
  }

  // Whatever events are appended, the MAC is not set back.
  ghost predicate NeverSetBack(events: seq<Event>, mac: string, st: NodeState) {
    forall more: seq<Event>, t: map<string, NodeState> ::
      PlainMacs(more) && IsFold(events + more, Bindings(events + more), t) ==> NotBehind(st, t, mac)
  }

  ghost predicate Names(e: Event, events: seq<Event>, mac: string) { e in events && e.mac == mac }

  // The furthest phase and the latest time of the MAC are those of events that name it themselves.
  ghost predicate OwnBest(events: seq<Event>, mac: string, st: NodeState) {
    && (exists d :: Names(d, events, mac) && Ordinal(d.phase) >= Ordinal(st.phase))
    && (st.lastSeen == 0 || exists e :: Names(e, events, mac) && e.timestamp >= st.lastSeen)
  }

  lemma OwnIsIn(events: seq<Event>, more: seq<Event>, e: Event, mac: string)
    requires Names(e, events, mac) && mac != ""
    ensures In(e, events + more, Bindings(events + more), mac)
  {
    assert e in events + more;
  }

  lemma OwnBestIsSafe(events: seq<Event>, more: seq<Event>, mac: string, st: NodeState, t: map<string, NodeState>)
    requires mac != "" && OwnBest(events, mac, st) && IsFold(events + more, Bindings(events + more), t)
    requires 0 <= st.lastSeen
    ensures NotBehind(st, t, mac)
  {
    var d :| Names(d, events, mac) && Ordinal(d.phase) >= Ordinal(st.phase);
    OwnIsIn(events, more, d, mac);
    if st.lastSeen != 0 {
      var e :| Names(e, events, mac) && e.timestamp >= st.lastSeen;
      OwnIsIn(events, more, e, mac);
    }
  }

  // One event for every address that was seen without a MAC, binding it to n.
  function Takeover(events: seq<Event>, n: string): seq<Event> {
    if events == [] then []
    else
      var e := events[|events| - 1];
      Takeover(events[..|events| - 1], n) + if e.mac == "" && e.ip != "" then [Event(0, n, e.ip, "", Tftp)] else []
  }

  lemma {:induction false} TakeoverMeans(events: seq<Event>, n: string)
    requires n != ""
    ensures forall f :: f in Takeover(events, n) ==> Binds(f) && f.mac == n
    ensures forall e :: e in events && e.mac == "" && e.ip != "" ==> Event(0, n, e.ip, "", Tftp) in Takeover(events, n)
  {
    if events != [] {
      var front, last := events[..|events| - 1], events[|events| - 1];
      TakeoverMeans(front, n);
      assert events == front + [last];
    }
  }

  lemma {:induction false} LastBinderWins(a: seq<Event>, b: seq<Event>, n: string, f: Event)
    requires (forall g :: g in b ==> Binds(g) && g.mac == n) && f in b
    ensures f.ip in Bindings(a + b) && Bindings(a + b)[f.ip] == n
  {
    var front, last := b[..|b| - 1], b[|b| - 1];
    assert b == front + [last] && a + b == (a + front) + [last];
    BindingsSnoc(a + front, last);
    if f != last {
      LastBinderWins(a, front, n, f);
    }
  }

  // After the takeover a MAC keeps just the events that name it.
  lemma OnlyOwnLeft(events: seq<Event>, n: string, mac: string, g: Event)
    requires n != "" && n != mac && mac != "" && !("ip:" <= mac)
    requires In(g, events + Takeover(events, n), Bindings(events + Takeover(events, n)), mac)
    ensures Names(g, events, mac)
  {
    var more := Takeover(events, n);
    TakeoverMeans(events, n);
    assert "ip:" <= "ip:" + g.ip;
    if g.mac == "" && g.ip != "" {
      LastBinderWins(events, more, n, Event(0, n, g.ip, "", Tftp));
    }
  }

  // A bucket with no event but those that name the MAC, and not behind, has the best of its own.
  lemma OwnBucketHasOwnBest(events: seq<Event>, all: seq<Event>, c: map<string, string>, mac: string, st: NodeState, u: NodeState)
    requires forall g :: In(g, all, c, mac) ==> Names(g, events, mac)
    requires Summarizes(all, c, mac, u) && Ordinal(st.phase) <= Ordinal(u.phase) && 0 <= st.lastSeen <= u.lastSeen
    ensures OwnBest(events, mac, st)
  {
    var g :| In(g, all, c, mac);
    if u.phase != Unknown {
      var d :| In(d, all, c, mac) && d.phase == u.phase;
      assert Names(d, events, mac);
    } else {
      assert Names(g, events, mac) && Ordinal(st.phase) <= -1 <= Ordinal(g.phase);
    }
    if u.lastSeen > 0 {
      var d :| In(d, all, c, mac) && d.timestamp == u.lastSeen;
      assert Names(d, events, mac);
    }
  }

  lemma TakeoverSetsBack(events: seq<Event>, n: string, mac: string, st: NodeState, t: map<string, NodeState>)
    requires n != "" && n != mac && mac != "" && !("ip:" <= mac) && 0 <= st.lastSeen
    requires IsFold(events + Takeover(events, n), Bindings(events + Takeover(events, n)), t)
    ensures NotBehind(st, t, mac) ==> OwnBest(events, mac, st)
  {
    var all := events + Takeover(events, n);
    if NotBehind(st, t, mac) {
      forall g | In(g, all, Bindings(all), mac) ensures Names(g, events, mac) {
        OnlyOwnLeft(events, n, mac, g);
      }
      OwnBucketHasOwnBest(events, all, Bindings(all), mac, st, t[mac]);
    }
  }

  // Exactly when appending events cannot set a MAC back: its furthest phase and its latest time each
  // come from an event that names it, not from one that only its address ties to it.
  lemma NeverSetBackExactlyWhen(events: seq<Event>, s: map<string, NodeState>, mac: string)
    requires PlainMacs(events) && IsFold(events, Bindings(events), s) && mac in s && !("ip:" <= mac)
    ensures NeverSetBack(events, mac, s[mac]) <==> OwnBest(events, mac, s[mac])
  {
    var e :| In(e, events, Bindings(events), mac);
    assert mac != "";
    if OwnBest(events, mac, s[mac]) {
      forall more: seq<Event>, t: map<string, NodeState> | PlainMacs(more) && IsFold(events + more, Bindings(events + more), t)
        ensures NotBehind(s[mac], t, mac)
      {
        OwnBestIsSafe(events, more, mac, s[mac], t);
      }
    } else {
      var n := "x" + mac;
      var more := Takeover(events, n);
      TakeoverMeans(events, n);
      assert n[0] == 'x' && "ip:"[0] == 'i';
      assert PlainMacs(more);
      var t := FoldExists(events + more, Bindings(events + more));
      TakeoverSetsBack(events, n, mac, s[mac], t);
    }
  }
}
