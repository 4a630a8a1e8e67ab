/**
 Consecutive-failure counters (utils/redis/hc_track.py): one hash per cluster, a field per URL, and a lifetime of
 60 s that every call renews for the whole hash.
 */
module HealthTrack {
  import opened Wrappers

  const LIFETIME := 60

  /** A Redis hash and the time at which it expires; a new hash has none until EXPIRE runs. */
  datatype Hash = Hash(fields: map<string, int>, deadline: Option<int>)

  datatype Event = Event(time: int, url: string, status: string)

  /** What a reader sees at a time: an expired hash is no hash. */
  function Live(h: Option<Hash>, now: int): Option<Hash> {
    if h.Some? && (h.value.deadline.Some? ==> now < h.value.deadline.value) then h else None
  }

  function Fields(h: Option<Hash>): map<string, int> {
    if h.Some? then h.value.fields else map[]
  }

  function Counter(h: Option<Hash>, url: string, now: int): int {
    var fields := Fields(Live(h, now));
    if url in fields then fields[url] else 0
  }

  /** The effect of one call on its cluster's hash. */
  function Track(h: Option<Hash>, e: Event): Option<Hash> {
    var live := Live(h, e.time);
    if e.status == "healthy" then Some(Hash(Fields(live)[e.url := 0], Some(e.time + LIFETIME)))
    else if e.status == "unhealthy" then
      Some(Hash(Fields(live)[e.url := Counter(h, e.url, e.time) + 1], Some(e.time + LIFETIME)))
    else if live.Some? then Some(live.value.(deadline := Some(e.time + LIFETIME)))
    else h
  }

  /** One report: a status sets or increments the field of a fresh or surviving hash; every report renews its 60 s. */
  lemma {:induction false} TrackIs(h: Option<Hash>, e: Event)
    ensures var alive := h.Some? && (h.value.deadline == None || e.time < h.value.deadline.value);
      var fields := if alive then h.value.fields else map[];
      var failures := if e.url in fields then fields[e.url] else 0;
      Track(h, e) ==
        if e.status == "healthy" then Some(Hash(fields[e.url := 0], Some(e.time + 60)))
        else if e.status == "unhealthy" then Some(Hash(fields[e.url := failures + 1], Some(e.time + 60)))
        else if alive then Some(Hash(fields, Some(e.time + 60)))
        else h
  {
  }

  class HcTrack {
    var hashes: map<string, Hash>

    function Of(cluster: string): Option<Hash>
      reads this
    {
      if cluster in hashes then Some(hashes[cluster]) else None
    }

    constructor ()
      ensures hashes == map[]
    {
      hashes := map[];
    }

    /** HSET */
    method SetField(cluster: string, url: string, n: int, now: int)
      modifies this
      ensures Fields(Live(Of(cluster), now)) == Fields(Live(old(Of(cluster)), now))[url := n]
      ensures Live(Of(cluster), now).Some?
      ensures hashes.Keys == old(hashes).Keys + {cluster}
      ensures forall other | other in old(hashes) && other != cluster :: hashes[other] == old(hashes)[other]
    {
      var live := Live(Of(cluster), now);
      var deadline := if live.Some? then live.value.deadline else None;
      hashes := hashes[cluster := Hash(Fields(live)[url := n], deadline)];
    }

    /** `track_consecutive_failures`; its `time` argument is ignored by the program. */
    method TrackConsecutiveFailures(url: string, status: string, cluster: string, now: int)
      modifies this
      ensures Of(cluster) == Track(old(Of(cluster)), Event(now, url, status))
      ensures forall other | other != cluster :: Of(other) == old(Of(other))
    {
      if status == "healthy" {
        SetField(cluster, url, 0, now);
      } else if status == "unhealthy" {
        var current := Counter(Of(cluster), url, now);
        SetField(cluster, url, current + 1, now);
      }
      if Live(Of(cluster), now).Some? {
        hashes := hashes[cluster := hashes[cluster].(deadline := Some(now + LIFETIME))];
      }
    }
  }

  // ---------- traces of one cluster ----------

  ghost predicate InOrder(events: seq<Event>) {
    forall i, j | 0 <= i < j < |events| :: events[i].time <= events[j].time
  }

  function After(events: seq<Event>): Option<Hash> {
    if events == [] then None else Track(After(events[..|events| - 1]), events[|events| - 1])
  }

  /** Counting restarts at position i: at the very start, after a healthy report of the URL, or after a 60 s silence. */
  predicate Restart(events: seq<Event>, url: string, now: int, i: nat)
    requires i <= |events|
  {
    || i == 0
    || (events[i - 1].url == url && events[i - 1].status == "healthy")
    || (if i < |events| then events[i].time else now) - events[i - 1].time >= 60
  }

  /** s is the latest such position. */
  ghost predicate CountsFrom(events: seq<Event>, url: string, now: int, s: nat) {
    s <= |events| && Restart(events, url, now, s) && forall i | s < i <= |events| :: !Restart(events, url, now, i)
  }

  function Failures(events: seq<Event>, url: string): nat {
    if events == [] then 0
    else
      var last := events[|events| - 1];
      Failures(events[..|events| - 1], url) + if last.url == url && last.status == "unhealthy" then 1 else 0
  }

  /** A hash that outlives the last event was renewed by it. */
  lemma {:induction false} LiveWasRenewed(events: seq<Event>)
    requires events != [] && InOrder(events)
    ensures var last := events[|events| - 1];
      var h := After(events);
      && (h.Some? ==> h.value.deadline.Some?)
      && (Live(h, last.time).Some? ==> h.value.deadline.value == last.time + LIFETIME)
  {
    if |events| > 1 {
      LiveWasRenewed(events[..|events| - 1]);
    }
  }

  lemma {:induction false} LatestBefore(events: seq<Event>, url: string, now: int, s: nat)
    requires events != [] && CountsFrom(events, url, now, s) && s < |events|
    ensures CountsFrom(events[..|events| - 1], url, events[|events| - 1].time, s)
  {
    var front, time := events[..|events| - 1], events[|events| - 1].time;
    forall i | 0 <= i <= |front| ensures Restart(front, url, time, i) == Restart(events, url, now, i) {
    }
    assert Restart(front, url, time, s);
    forall i | s < i <= |front| ensures !Restart(front, url, time, i) {
      assert !Restart(events, url, now, i);
    }
  }

  /** An event that does not restart counting adds its failure, if it is one, to the counter. */
  lemma {:induction false} OneMoreEvent(events: seq<Event>, url: string, s: nat)
    requires s < |events| && InOrder(events)
    requires !(events[|events| - 1].url == url && events[|events| - 1].status == "healthy")
    requires var front := events[..|events| - 1];
      Counter(After(front), url, events[|events| - 1].time) == Failures(front[s..], url)
    ensures Counter(After(events), url, events[|events| - 1].time) == Failures(events[s..], url)
  {
    hide InOrder;
    var front := events[..|events| - 1];
    assert events[s..][..|events[s..]| - 1] == front[s..];
  }

  /** The live counter of a URL is the number of its failures since counting last restarted. */
  lemma {:induction false} CounterMeansFailuresSince(events: seq<Event>, url: string, now: int, s: nat)
    requires InOrder(events) && (events != [] ==> events[|events| - 1].time <= now)
    requires CountsFrom(events, url, now, s)
    ensures Counter(After(events), url, now) == Failures(events[s..], url)
    decreases |events|
  {
    if events != [] {
      var front, last := events[..|events| - 1], events[|events| - 1];
      LiveWasRenewed(events);
      if s < |events| {
        hide Counter, After, Failures, InOrder;
        LatestBefore(events, url, now, s);
        CounterMeansFailuresSince(front, url, last.time, s);
        assert !Restart(events, url, now, |events|);
        OneMoreEvent(events, url, s);
        SameCounterLater(events, url, now);
      } else {
        assert events[s..] == [];
        if now - last.time < LIFETIME {
          assert last.url == url && last.status == "healthy";
        }
      }
    }
  }

  /** Nothing changes between events less than a lifetime apart. */
  lemma {:induction false} SameCounterLater(events: seq<Event>, url: string, now: int)
    requires events != [] && InOrder(events)
    requires events[|events| - 1].time <= now < events[|events| - 1].time + LIFETIME
    ensures Counter(After(events), url, now) == Counter(After(events), url, events[|events| - 1].time)
  {
    LiveWasRenewed(events);
  }

  /** There is always exactly one such position. */
  lemma {:induction false} CountsFromSomewhere(events: seq<Event>, url: string, now: int) returns (s: nat)
    ensures CountsFrom(events, url, now, s)
    ensures forall t | CountsFrom(events, url, now, t) :: t == s
  {
    s := |events|;
    while !Restart(events, url, now, s)
      decreases s
      invariant s <= |events| && forall i | s < i <= |events| :: !Restart(events, url, now, i)
    {
      s := s - 1;
    }
  }
}
