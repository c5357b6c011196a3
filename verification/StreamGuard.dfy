/** The concurrent-stream caps: counts of open streams per principal and per organization. */
module StreamGuard {
  import opened Wrappers

  /** The map keys token:<id>, user:<id> and org:<id>, the last with `none` for no organization. */
  datatype Key = Token(id: nat) | User(id: nat) | Org(org: Option<nat>)

  type Counts = map<Key, nat>

  datatype Limits = Limits(perPrincipal: nat, perOrg: nat)

  function Count(counts: Counts, key: Key): nat {
    if key in counts then counts[key] else 0
  }

  function Bumped(counts: Counts, key: Key, delta: int): Counts {
    var n := Count(counts, key) + delta;
    if n <= 0 then counts - {key} else counts[key := n]
  }

  predicate Admits(counts: Counts, limits: Limits, principal: Key, org: Key) {
    Count(counts, principal) < limits.perPrincipal && Count(counts, org) < limits.perOrg
  }

  /** The release closure of one admitted stream. */
  class Stream {
    const principal: Key
    const org: Key
    var released: bool

    constructor (principal: Key, org: Key)
      ensures this.principal == principal && this.org == org && !released
    {
      this.principal, this.org, released := principal, org, false;
    }
  }

  class Guard {
    var counts: Counts

    constructor ()
      ensures counts == map[]
    {
      counts := map[];
    }

    method Bump(key: Key, delta: int)
      modifies this
      ensures counts == Bumped(old(counts), key, delta)
    {
      var n := Count(counts, key) + delta;
      if n <= 0 { counts := counts - {key}; } else { counts := counts[key := n]; }
    }

    // Either a new stream, or the 429 answer.
    method Open(limits: Limits, principal: Key, org: Key) returns (s: Option<Stream>)
      modifies this
      ensures s.Some? <==> Admits(old(counts), limits, principal, org)
      ensures s.None? ==> counts == old(counts)
      ensures s.Some? ==>
                && fresh(s.value) && s.value.principal == principal && s.value.org == org && !s.value.released
                && counts == Bumped(Bumped(old(counts), principal, 1), org, 1)
    {
      if Count(counts, principal) >= limits.perPrincipal || Count(counts, org) >= limits.perOrg { return None; }
      Bump(principal, 1);
      Bump(org, 1);
      var stream := new Stream(principal, org);
      return Some(stream);
    }

    // The handler of both the close and the finish event.
    method Release(s: Stream)
      modifies this, s
      ensures s.released
      ensures counts == if old(s.released) then old(counts) else Bumped(Bumped(old(counts), s.principal, -1), s.org, -1)
    {
      if s.released { return; }
      s.released := true;
      Bump(s.principal, -1);
      Bump(s.org, -1);
    }
  }

  // ---------------------------------------------------------------- runs

  datatype Held = Held(principal: Key, org: Key, released: bool)

  /** `streams` is every stream ever admitted; an expiry or a failed re-check ends in a Close or a Finish. */
  datatype State = State(counts: Counts, streams: seq<Held>)

  datatype Event = Request(principal: Key, org: Key) | Close(stream: nat) | Finish(stream: nat)

  function Release(s: State, i: nat): State {
    if i >= |s.streams| || s.streams[i].released then s
    else
      var h := s.streams[i];
      State(Bumped(Bumped(s.counts, h.principal, -1), h.org, -1), s.streams[i := h.(released := true)])
  }

  function Apply(s: State, limits: Limits, e: Event): State {
    match e
    case Request(principal, org) =>
      if !Admits(s.counts, limits, principal, org) then s
      else State(Bumped(Bumped(s.counts, principal, 1), org, 1), s.streams + [Held(principal, org, false)])
    case Close(i) => Release(s, i)
    case Finish(i) => Release(s, i)
  }

  function After(limits: Limits, events: seq<Event>): State {
    if events == [] then State(map[], [])
    else Apply(After(limits, events[..|events| - 1]), limits, events[|events| - 1])
  }

  predicate AreEvents(events: seq<Event>) {
    forall i :: 0 <= i < |events| && events[i].Request? ==> !events[i].principal.Org? && events[i].org.Org?
  }

  /** The admitted streams of a key that are not released. */
  function Live(streams: seq<Held>, key: Key): nat {
    if streams == [] then 0
    else
      var h := streams[|streams| - 1];
      Live(streams[..|streams| - 1], key) + if !h.released && (h.principal == key || h.org == key) then 1 else 0
  }

  ghost predicate IsExact(s: State, limits: Limits) {
    && (forall i :: 0 <= i < |s.streams| ==> !s.streams[i].principal.Org? && s.streams[i].org.Org?)
    && (forall key :: key in s.counts ==> s.counts[key] > 0)
    && (forall key :: Count(s.counts, key) == Live(s.streams, key))
    && (forall key :: Live(s.streams, key) <= if key.Org? then limits.perOrg else limits.perPrincipal)
  }

  lemma {:induction false} LiveOpens(streams: seq<Held>, h: Held, key: Key)
    ensures Live(streams + [h], key)
            == Live(streams, key) + if !h.released && (h.principal == key || h.org == key) then 1 else 0
  {
    assert (streams + [h])[..|streams|] == streams;
  }

  lemma {:induction false} LiveReleases(streams: seq<Held>, i: nat, key: Key)
    requires i < |streams| && !streams[i].released
    ensures Live(streams, key) == Live(streams[i := streams[i].(released := true)], key)
                                  + if streams[i].principal == key || streams[i].org == key then 1 else 0
  {
    var after := streams[i := streams[i].(released := true)];
    var n := |streams| - 1;
    if i == n {
      assert after[..n] == streams[..n];
    } else {
      LiveReleases(streams[..n], i, key);
      assert after[..n] == streams[..n][i := streams[i].(released := true)];
    }
  }

  /** Raising or lowering two counts together leaves no zero behind. */
  lemma BothBumped(counts: Counts, a: Key, b: Key, delta: int)
    requires a != b && (delta == 1 || (delta == -1 && a in counts && b in counts))
    requires forall key :: key in counts ==> counts[key] > 0
    ensures var after := Bumped(Bumped(counts, a, delta), b, delta);
            forall key :: (key in after ==> after[key] > 0)
                          && Count(after, key) == Count(counts, key) + if key == a || key == b then delta else 0
  {
  }

  lemma StaysExact(s: State, limits: Limits, e: Event)
    requires IsExact(s, limits) && (e.Request? ==> !e.principal.Org? && e.org.Org?)
    ensures IsExact(Apply(s, limits, e), limits)
  {
    var t := Apply(s, limits, e);
    if e.Request? {
      if Admits(s.counts, limits, e.principal, e.org) {
        forall key
          ensures Live(t.streams, key) == Live(s.streams, key) + if e.principal == key || e.org == key then 1 else 0
        {
          LiveOpens(s.streams, Held(e.principal, e.org, false), key);
        }
        hide Live, Bumped;
        BothBumped(s.counts, e.principal, e.org, 1);
      }
    } else if e.stream < |s.streams| && !s.streams[e.stream].released {
      var h := s.streams[e.stream];
      forall key
        ensures Live(s.streams, key) == Live(t.streams, key) + if h.principal == key || h.org == key then 1 else 0
      {
        LiveReleases(s.streams, e.stream, key);
      }
      hide Live, Bumped;
      BothBumped(s.counts, h.principal, h.org, -1);
    }
  }

  lemma {:induction false} RunIsExact(limits: Limits, events: seq<Event>)
    requires AreEvents(events)
    ensures IsExact(After(limits, events), limits)
  {
    if events != [] {
      var earlier := events[..|events| - 1];
      RunIsExact(limits, earlier);
      StaysExact(After(limits, earlier), limits, events[|events| - 1]);
    }
  }

  /**
   In every reachable state the count of each key is the number of its admitted streams still open,
   is within its cap, and is stored exactly when it is not zero.
   */
  lemma {:induction false} CountsAreExact(limits: Limits, events: seq<Event>, key: Key)
    requires AreEvents(events)
    ensures var s := After(limits, events);
            && (key in s.counts <==> Live(s.streams, key) > 0)
            && (key in s.counts ==> s.counts[key] == Live(s.streams, key))
            && Live(s.streams, key) <= if key.Org? then limits.perOrg else limits.perPrincipal
  {
    RunIsExact(limits, events);
    hide After, Live;
    assert Count(After(limits, events).counts, key) == Live(After(limits, events).streams, key);
  }

  /** A request is admitted exactly when its principal and its organization both have a stream to spare. */
  lemma {:induction false} AdmittedIff(limits: Limits, events: seq<Event>, principal: Key, org: Key)
    requires AreEvents(events) && !principal.Org? && org.Org?
    ensures var s := After(limits, events);
            Apply(s, limits, Request(principal, org)).streams != s.streams <==>
              Live(s.streams, principal) < limits.perPrincipal && Live(s.streams, org) < limits.perOrg
  {
    RunIsExact(limits, events);
    hide After, Live;
    var s := After(limits, events);
    assert |s.streams + [Held(principal, org, false)]| > |s.streams|;
  }

  /** The end of an open stream, by whichever event comes first, frees a place of its principal and its organization. */
  lemma {:induction false} EndFreesThePlaces(limits: Limits, events: seq<Event>, i: nat, key: Key)
    requires AreEvents(events) && i < |After(limits, events).streams| && !After(limits, events).streams[i].released
    ensures var s := After(limits, events);
            Apply(s, limits, Close(i)) == Apply(s, limits, Finish(i))
    ensures var (s, s') := (After(limits, events), Apply(After(limits, events), limits, Close(i)));
            && |s'.streams| == |s.streams| && s'.streams[i].released
            && Count(s'.counts, key)
               == Count(s.counts, key) - if s.streams[i].principal == key || s.streams[i].org == key then 1 else 0
  {
    RunIsExact(limits, events);
    var s := After(limits, events);
    StaysExact(s, limits, Close(i));
    LiveReleases(s.streams, i, key);
    hide After, Live, Bumped;
  }

  lemma {:induction false} NoneLive(streams: seq<Held>, key: Key)
    requires forall i :: 0 <= i < |streams| ==> streams[i].released
    ensures Live(streams, key) == 0
  {
    if streams != [] {
      NoneLive(streams[..|streams| - 1], key);
    }
  }

  /** Once every admitted stream has ended, by one event or by both, nothing is left in the map. */
  lemma {:induction false} AllEndedLeavesNothing(limits: Limits, events: seq<Event>)
    requires AreEvents(events)
    requires forall i :: 0 <= i < |After(limits, events).streams| ==> After(limits, events).streams[i].released
    ensures After(limits, events).counts == map[]
  {
    RunIsExact(limits, events);
    var s := After(limits, events);
    hide After;
    forall key ensures key !in s.counts {
      NoneLive(s.streams, key);
      assert Count(s.counts, key) == 0;
    }
  }
}
