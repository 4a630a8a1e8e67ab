/**
 What the interleaved protocol's snapshots hold.  Nothing compares an unpacked layer with the diff id the config
 gives it, so a sound store stays sound exactly when no Commit of a layer that differs takes effect.
 */
module UnpackContents {
  import opened Wrappers
  import opened ChainIds
  import opened Snapshots
  import opened UnpackRaces

  /** The active snapshot of a run holds the layers below, and once applied the blob of its own layer. */
  ghost predicate Holds(s: Store, run: Run) {
    run.i < |run.image.diffIds| == |run.image.layers| ==>
      match run.phase
      case Applying(key) => key in s.active && s.active[key] == Snapshot(run.parent, run.image.diffIds[..run.i])
      case Committing(key) =>
        key in s.active &&
        s.active[key] == Snapshot(run.parent, run.image.diffIds[..run.i] + [run.image.layers[run.i]])
      case _ => true
  }

  /** Everything committed is what its name says, and so is everything on the way there. */
  ghost predicate Clean(w: World) {
    Inv(w) && Sound(w.store) && forall pid | pid in w.runs :: Holds(w.store, w.runs[pid])
  }

  lemma {:induction false} FreshIsClean(w: World)
    requires Fresh(w) && Sound(w.store)
    ensures Clean(w)
  {
  }

  /** A Commit that takes effect although the layer is not the one the config names. */
  ghost predicate Mislabels(s: Store, run: Run, e: Event)
    requires run.i < |run.image.diffIds| == |run.image.layers|
  {
    && e.CommitCall? && e.fault != Lost && Current(run) !in s.committed
    && run.image.layers[run.i] != run.image.diffIds[run.i]
  }

  ghost predicate Tainted(s: Store) {
    exists c :: c in s.committed && s.committed[c].layers != LayersOf(c)
  }

  lemma {:induction false} NextPrefix(run: Run)
    requires run.i < |run.image.diffIds|
    ensures var ds := run.image.diffIds;
      && LayersOf(Current(run)) == ds[..run.i + 1] == ds[..run.i] + [ds[run.i]]
      && ParentOf(Current(run)) == (if run.i == 0 then None else Some(ChainOf(ds[..run.i])))
  {
    var ds := run.image.diffIds;
    LayersOfChain(ds[..run.i + 1]);
    assert ds[..run.i + 1][..run.i] == ds[..run.i];
  }

  lemma {:induction false} CommitIsClean(s: Store, run: Run, e: Event)
    requires Sound(s) && OnTrack(s, run) && Holds(s, run) && run.i < |run.image.diffIds|
    requires Awaits(run, e) && e.CommitCall?
    ensures var t := Call(s, run, e).0; if Mislabels(s, run, e) then Tainted(t) else Sound(t)
  {
    NextPrefix(run);
    hide ChainOf, LayersOf, ParentOf, InPlace, Sound;
    var name, key := Current(run), run.phase.key;
    if name !in s.committed && e.fault != Lost {
      var t := Commit(s, name, key).value;
      if Mislabels(s, run, e) {
        assert t.committed[name].layers != LayersOf(name);
      } else {
        PresentParent(s, run);
        SoundAdd(s, name, s.active - {key});
      }
    }
  }

  lemma {:induction false} PresentParent(s: Store, run: Run)
    requires InPlace(s, run)
    ensures Present(s, run.parent)
  {
    hide ChainOf;
  }

  lemma {:induction false} CallKeepsClean(s: Store, run: Run, e: Event)
    requires Sound(s) && OnTrack(s, run) && Holds(s, run) && run.i < |run.image.diffIds|
    requires OwnCall(e) && Awaits(run, e)
    ensures var (t, after) := Call(s, run, e);
      if Mislabels(s, run, e) then Tainted(t) else Sound(t) && Holds(t, after)
  {
    hide ChainOf;
    if e.CommitCall? {
      CommitIsClean(s, run, e);
    } else if e.PrepareCall? && run.i > 0 {
      LayersOfChain(run.image.diffIds[..run.i]);
    }
  }

  lemma {:induction false} BystanderHolds(s: Store, t: Store, run: Run)
    requires Holds(s, run) && forall k | k in Held(run) :: SameKey(s.active, t.active, k)
    ensures Holds(t, run)
  {
    match run.phase
    case Applying(key) => assert key in Held(run);
    case Committing(key) => assert key in Held(run);
    case _ =>
  }

  // ---------- one step ----------

  /** A Commit that takes effect although its layer is not the one the config names. */
  ghost predicate MislabelsIn(w: World, e: Event)
    requires Enabled(w, e)
  {
    OwnCall(e) && Mislabels(w.store, w.runs[e.pid], e)
  }

  lemma {:induction false} OthersKeysUntouched(w: World, e: Event, q: Pid)
    requires Inv(w) && Enabled(w, e) && OwnCall(e) && q in w.runs && q != e.pid
    ensures forall k | k in Held(w.runs[q]) :: SameKey(w.store.active, Next(w, e).store.active, k)
  {
    hide Call;
    var run := w.runs[e.pid];
    assert RunOk(w, run) && RunOk(w, w.runs[q]);
    CallIsTidy(w.store, run, e);
    OwnCallKeepsKeysApart(w, e);
    assert Next(w, e).runs[e.pid].created !! Next(w, e).runs[q].created;
  }

  lemma {:induction false} BeginHolds(s: Store, image: Image)
    ensures Holds(s, Begin(image))
  {
  }

  lemma {:induction false} SameCommittedSameSound(s: Store, t: Store)
    requires Sound(s) && t.committed == s.committed
    ensures Sound(t)
  {
  }

  lemma {:induction false} NextKeepsClean(w: World, e: Event)
    requires Clean(w) && Enabled(w, e)
    ensures if MislabelsIn(w, e) then Tainted(Next(w, e).store) else Clean(Next(w, e))
  {
    hide Call, Sound, Tainted, Holds;
    NextKeepsInv(w, e);
    if OwnCall(e) {
      var run := w.runs[e.pid];
      assert RunOk(w, run);
      CallKeepsClean(w.store, run, e);
      if !MislabelsIn(w, e) {
        forall q | q in w.runs && q != e.pid ensures Holds(Next(w, e).store, w.runs[q]) {
          OthersKeysUntouched(w, e, q);
          BystanderHolds(w.store, Next(w, e).store, w.runs[q]);
        }
      }
    } else if e.OtherClients? {
      SameCommittedSameSound(w.store, Next(w, e).store);
      forall pid | pid in w.runs ensures Holds(Next(w, e).store, w.runs[pid]) {
        BystanderHolds(w.store, Next(w, e).store, w.runs[pid]);
      }
    } else {
      BeginHolds(w.store, e.image);
    }
  }

  // ---------- whole histories ----------

  /** No Commit of a mislabelled layer takes effect. */
  ghost predicate Faithful(w: World, events: seq<Event>)
    requires Possible(w, events)
    decreases |events|
  {
    events == [] || (!MislabelsIn(w, events[0]) && Faithful(Next(w, events[0]), events[1..]))
  }

  lemma {:induction false} TaintStays(s: Store, t: Store)
    requires Tainted(s) && Grows(s, t)
    ensures !Sound(t)
  {
    var c :| c in s.committed && s.committed[c].layers != LayersOf(c);
    assert t.committed[c].layers != LayersOf(c);
  }

  /** Over whole histories the store stays sound exactly when every layer that was committed was the one named. */
  lemma {:induction false} SoundExactlyWhenFaithful(w: World, events: seq<Event>)
    requires Clean(w) && Possible(w, events)
    ensures Sound(After(w, events).store) <==> Faithful(w, events)
    decreases |events|
  {
    hide Sound, Holds, Tainted;
    if events != [] {
      var e := events[0];
      NextKeepsClean(w, e);
      if MislabelsIn(w, e) {
        NextKeepsInv(w, e);
        HistoryIsSafe(Next(w, e), events[1..]);
        TaintStays(Next(w, e).store, After(w, events).store);
      } else {
        SoundExactlyWhenFaithful(Next(w, e), events[1..]);
      }
    }
  }

  /** The image is what its config claims, layer by layer. */
  predicate Consistent(image: Image) {
    |image.diffIds| == |image.layers| ==> image.layers == image.diffIds
  }

  /** It is enough that every image is what its config claims. */
  lemma {:induction false} ConsistentImagesAreFaithful(w: World, events: seq<Event>)
    requires Possible(w, events)
    requires forall pid | pid in w.runs :: Consistent(w.runs[pid].image)
    requires forall e | e in events && e.Spawn? :: Consistent(e.image)
    ensures Faithful(w, events)
    decreases |events|
  {
    hide Call;
    if events != [] {
      var e := events[0];
      assert e in events;
      forall pid | pid in Next(w, e).runs ensures Consistent(Next(w, e).runs[pid].image) {
        if OwnCall(e) && pid == e.pid {
          ImageStays(w.store, w.runs[pid], e);
        }
      }
      ConsistentImagesAreFaithful(Next(w, e), events[1..]);
    }
  }

  lemma {:induction false} ImageStays(s: Store, run: Run, e: Event)
    requires OwnCall(e) && Awaits(run, e) && run.i < |run.image.diffIds| == |run.image.layers|
    ensures Call(s, run, e).1.image == run.image
  {
  }

  /** After a faithful history a finished run's chain holds exactly the layers the config names, prefix by prefix. */
  lemma {:induction false} FinishedRunsHaveTheirLayers(w: World, events: seq<Event>, pid: Pid)
    requires Fresh(w) && Sound(w.store) && Possible(w, events) && Faithful(w, events)
    requires pid in After(w, events).runs && After(w, events).runs[pid].phase.Finished?
    ensures HasChain(After(w, events).store, After(w, events).runs[pid].image.diffIds)
  {
    hide ChainOf, HasChain, Sound, Faithful;
    FreshIsClean(w);
    SoundExactlyWhenFaithful(w, events);
    FinishedRunsHaveTheirChain(w, events, pid);
    var diffs := After(w, events).runs[pid].image.diffIds;
    if diffs == [] {
      NoLayersNoChain(After(w, events).store);
    } else {
      assert diffs[..|diffs|] == diffs;
      SoundHasChain(After(w, events).store, diffs);
    }
  }

  lemma {:induction false} NoLayersNoChain(s: Store)
    ensures HasChain(s, [])
  {
  }
}
