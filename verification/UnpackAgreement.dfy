/**
 The interleaved protocol and the single call are the same program: a run that is left alone, without faults, commits
 exactly what the single call commits, leaves the active snapshots as they were and ends with the same parent.
 */
module UnpackAgreement {
  import opened Wrappers
  import opened ChainIds
  import opened Snapshots
  import opened Unpack
  import opened UnpackRaces

  /**
   Where a run stands that began at a layer with the committed snapshots c and the active ones as given: the layers
   below its own are dealt with, and for a missing layer its key alone is active in addition.
   */
  ghost predicate Alone(c: Committed, active: map<Key, Snapshot>, s: Store, run: Run) {
    var image := run.image;
    && run.i <= |image.diffIds| == |image.layers|
    && s.committed == Unpacked(c, image, run.i) && run.parent == Before(image, run.i)
    && (run.phase.Finished? <==> run.i == |image.diffIds|)
    && match run.phase
       case Stating => s.active == active
       case Preparing => s.active == active && Missing(s.committed, image, run.i)
       case Applying(key) =>
         && Missing(s.committed, image, run.i) && key !in active
         && s.active == active[key := Snapshot(run.parent, LayersBelow(s.committed, image, run.i))]
       case Committing(key) =>
         && Missing(s.committed, image, run.i) && key !in active
         && s.active == active[key := Layered(s.committed, image, run.i)]
       case Finished => s.active == active
       case _ => false
  }

  function LayersBelow(c: Committed, image: Image, i: nat): seq<DiffId>
    requires i <= |image.diffIds| && (i > 0 ==> Name(image, i) in c)
  {
    if i == 0 then [] else c[Name(image, i)].layers
  }

  lemma {:induction false} OneMoreLayer(c: Committed, image: Image, i: nat)
    requires i < |image.diffIds| == |image.layers|
    ensures var before := Unpacked(c, image, i);
      Unpacked(c, image, i + 1)
        == if Missing(before, image, i) then before[Name(image, i + 1) := Layered(before, image, i)] else before
  {
    hide Name, Layered;
  }

  lemma {:induction false} BeginsAlone(s: Store, image: Image)
    requires |image.layers| == |image.diffIds|
    ensures Alone(s.committed, s.active, s, Begin(image))
  {
  }

  lemma {:induction false} StatStaysAlone(
    c: Committed, active: map<Key, Snapshot>, s: Store, run: Run, e: Event)
    requires Alone(c, active, s, run) && run.i < |run.image.diffIds|
    requires e.StatCall? && Awaits(run, e) && e.fault == Normal
    ensures var (t, after) := Call(s, run, e); Alone(c, active, t, after) && after.image == run.image
  {
    OneMoreLayer(c, run.image, run.i);
    assert Current(run) == Name(run.image, run.i + 1);
    hide ChainOf, Unpacked, Layered, Name, Current, LayersBelow;
  }

  lemma {:induction false} CommitStaysAlone(
    c: Committed, active: map<Key, Snapshot>, s: Store, run: Run, e: Event)
    requires Alone(c, active, s, run) && run.i < |run.image.diffIds|
    requires e.CommitCall? && Awaits(run, e) && e.fault == Normal
    ensures var (t, after) := Call(s, run, e); Alone(c, active, t, after) && after.image == run.image
  {
    OneMoreLayer(c, run.image, run.i);
    assert Current(run) == Name(run.image, run.i + 1);
    hide ChainOf, Unpacked, Layered, Name, Current, LayersBelow;
    var key := run.phase.key;
    assert s.active - {key} == active;
    assert Commit(s, Current(run), key) == Success(Store(s.committed[Current(run) := s.active[key]], active));
  }

  /** Every RPC of such a run leaves it standing there, at the same layer or the next. */
  lemma {:induction false} CallStaysAlone(
    c: Committed, active: map<Key, Snapshot>, s: Store, run: Run, e: Event)
    requires Alone(c, active, s, run) && run.i < |run.image.diffIds|
    requires OwnCall(e) && Awaits(run, e) && e.fault == Normal && (e.PrepareCall? ==> e.key !in s.active)
    ensures var (t, after) := Call(s, run, e); Alone(c, active, t, after) && after.image == run.image
  {
    hide ChainOf, Unpacked, Name;
    if e.StatCall? {
      StatStaysAlone(c, active, s, run, e);
    } else if e.CommitCall? {
      CommitStaysAlone(c, active, s, run, e);
    }
  }

  /** Only this run moves, and no RPC fails of itself. */
  ghost predicate OnlyRuns(events: seq<Event>, pid: Pid) {
    forall e | e in events :: OwnCall(e) && e.pid == pid && e.fault == Normal
  }

  lemma {:induction false} StaysAlone(
    c: Committed, active: map<Key, Snapshot>, w: World, events: seq<Event>, pid: Pid)
    requires Inv(w) && Possible(w, events) && OnlyRuns(events, pid)
    requires pid in w.runs && Alone(c, active, w.store, w.runs[pid])
    ensures pid in After(w, events).runs && After(w, events).runs[pid].image == w.runs[pid].image
    ensures Alone(c, active, After(w, events).store, After(w, events).runs[pid])
    decreases |events|
  {
    hide Alone, Call;
    if events != [] {
      var e := events[0];
      assert e in events;
      CallStaysAlone(c, active, w.store, w.runs[pid], e);
      NextKeepsInv(w, e);
      StaysAlone(c, active, Next(w, e), events[1..], pid);
    }
  }

  /**
   A whole call, in any world, from its beginning until it has finished: the store is what the single call without
   faults leaves, the active snapshots are as before, and the parent is the top of the chain.
   */
  lemma {:induction false} LeftAloneIsTheCall(w: World, events: seq<Event>, pid: Pid, image: Image)
    requires Inv(w) && Possible(w, events) && OnlyRuns(events, pid)
    requires pid in w.runs && w.runs[pid] == Begin(image) && |image.layers| == |image.diffIds|
    requires pid in After(w, events).runs && After(w, events).runs[pid].phase.Finished?
    ensures After(w, events).store == Store(Unpacked(w.store.committed, image, |image.diffIds|), w.store.active)
    ensures After(w, events).runs[pid].parent == Before(image, |image.diffIds|)
  {
    BeginsAlone(w.store, image);
    StaysAlone(w.store.committed, w.store.active, w, events, pid);
  }

  /** And there is such a call from every reachable state. */
  lemma {:induction false} TheCallIsPossible(w: World, pid: Pid, image: Image) returns (events: seq<Event>)
    requires Inv(w) && pid in w.runs && w.runs[pid] == Begin(image) && |image.layers| == |image.diffIds|
    ensures Possible(w, events) && OnlyRuns(events, pid)
    ensures pid in After(w, events).runs && After(w, events).runs[pid].phase.Finished?
    ensures After(w, events).store == Store(Unpacked(w.store.committed, image, |image.diffIds|), w.store.active)
  {
    events := LeftAloneItFinishes(w, pid);
    LeftAloneIsTheCall(w, events, pid, image);
  }
}
