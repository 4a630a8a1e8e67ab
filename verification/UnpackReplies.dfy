/**
 What each reply means to a run of `grpc_unpack`, told without the run's own program: what it does to the store, where
 the run goes from there, and which runs end by raising.
 */
module UnpackReplies {
  import opened Wrappers
  import opened ChainIds
  import opened Snapshots
  import opened UnpackRaces

  /** The run is done with its layer: the layer's chain is the parent, and the next layer is looked up, if any. */
  ghost predicate Moved(run: Run, after: Run) {
    && run.i < |run.image.diffIds| && after.image == run.image && after.i == run.i + 1
    && after.parent == Some(ChainOf(run.image.diffIds[..run.i + 1]))
    && after.phase == if run.i + 1 < |run.image.layers| then Stating else Finished
  }

  /** A run starts by raising when layers and diff ids differ in number, and is done at once without layers. */
  lemma {:induction false} Beginnings(image: Image)
    ensures Begin(image).phase == if |image.layers| != |image.diffIds| then Raised
                                  else if |image.layers| == 0 then Finished else Stating
    ensures Begin(image).i == 0 && Begin(image).parent == None && Begin(image).created == {}
  {
  }

  /** Stat: any error but NOT_FOUND raises; a layer that is there is skipped, a missing one prepared. */
  lemma {:induction false} StatReplies(s: Store, run: Run, e: Event)
    requires e.StatCall? && Awaits(run, e) && run.i < |run.image.diffIds| == |run.image.layers|
    ensures var (t, after) := Call(s, run, e); var name := ChainOf(run.image.diffIds[..run.i + 1]);
      && t == s
      && (e.fault != Normal ==> after.phase == Raised)
      && (e.fault == Normal && name in s.committed ==> Moved(run, after))
      && (e.fault == Normal && name !in s.committed ==> after == run.(phase := Preparing))
  {
  }

  /** Prepare: a fresh key on top of the parent's layers; any error raises, though a late one leaves the key. */
  lemma {:induction false} PrepareReplies(s: Store, run: Run, e: Event)
    requires e.PrepareCall? && Awaits(run, e) && run.i < |run.image.diffIds| == |run.image.layers|
    requires e.key !in s.active && (run.parent.Some? ==> run.parent.value in s.committed)
    ensures var (t, after) := Call(s, run, e);
      var layers := if run.parent.Some? then s.committed[run.parent.value].layers else [];
      && t.committed == s.committed
      && t.active == (if e.fault == Lost then s.active else s.active[e.key := Snapshot(run.parent, layers)])
      && after.phase == (if e.fault == Normal then Applying(e.key) else Raised)
      && after.i == run.i && after.parent == run.parent
  {
  }

  /** Apply: the blob of this layer on top of what the key holds; any error raises and leaves the key. */
  lemma {:induction false} ApplyReplies(s: Store, run: Run, e: Event)
    requires e.ApplyCall? && Awaits(run, e) && run.i < |run.image.diffIds| == |run.image.layers|
    requires run.phase.key in s.active
    ensures var (t, after) := Call(s, run, e); var key := run.phase.key;
      && t.committed == s.committed && t.active.Keys == s.active.Keys
      && (forall k | k in s.active && k != key :: t.active[k] == s.active[k])
      && (e.fault == Normal ==>
            t.active[key] == Snapshot(s.active[key].parent, s.active[key].layers + [run.image.layers[run.i]]))
      && after.phase == (if e.fault == Normal then Committing(key) else Raised)
      && after.i == run.i && after.parent == run.parent
  {
  }

  /** Commit: the key becomes the snapshot; a lost race is cleaned up and passed over, an error is raised. */
  lemma {:induction false} CommitReplies(s: Store, run: Run, e: Event)
    requires e.CommitCall? && Awaits(run, e) && run.i < |run.image.diffIds| == |run.image.layers|
    requires run.phase.key in s.active
    ensures var (t, after) := Call(s, run, e); var key := run.phase.key;
      var name := ChainOf(run.image.diffIds[..run.i + 1]);
      && (name in s.committed || e.fault == Lost ==> t == s)
      && (name !in s.committed && e.fault != Lost ==>
            t.committed == s.committed[name := s.active[key]] && t.active == s.active - {key})
      && (e.fault != Normal ==> after == run.(phase := Removing(key, true)))
      && (e.fault == Normal && name in s.committed ==> after == run.(phase := Removing(key, false)))
      && (e.fault == Normal && name !in s.committed ==> Moved(run, after))
  {
  }

  /** Remove: its errors are swallowed; then the run raises or goes on, as the failed Commit said. */
  lemma {:induction false} RemoveReplies(s: Store, run: Run, e: Event)
    requires e.RemoveCall? && Awaits(run, e) && run.i < |run.image.diffIds| == |run.image.layers|
    ensures var (t, after) := Call(s, run, e); var key := run.phase.key;
      && t.committed == s.committed
      && t.active == (if e.fault == Lost then s.active else s.active - {key})
      && (if run.phase.raising then after.phase == Raised else Moved(run, after))
  {
    assert run.phase.key !in s.active ==> s.active - {run.phase.key} == s.active;
  }

  /** Any waiting RPC of any run may come next, with any fault. */
  lemma {:induction false} AnyoneMayMove(w: World, e: Event)
    requires Inv(w) && OwnCall(e) && e.pid in w.runs && (e.PrepareCall? ==> e.key !in w.used)
    requires match w.runs[e.pid].phase
             case Stating => e.StatCall?
             case Preparing => e.PrepareCall?
             case Applying(_) => e.ApplyCall?
             case Committing(_) => e.CommitCall?
             case Removing(_, _) => e.RemoveCall?
             case _ => false
    ensures Enabled(w, e)
  {
    assert RunOk(w, w.runs[e.pid]);
  }

  // ---------- which runs raise ----------

  /** An error of the run's own Stat, Prepare, Apply or Commit. */
  predicate Trouble(e: Event, pid: Pid) {
    OwnCall(e) && e.pid == pid && !e.RemoveCall? && e.fault != Normal
  }

  lemma {:induction false} TroubleDooms(s: Store, run: Run, e: Event)
    requires OnTrack(s, run) && StillGood(run) && run.i < |run.image.diffIds|
    requires OwnCall(e) && Awaits(run, e) && (e.PrepareCall? ==> e.key !in s.active)
    ensures StillGood(Call(s, run, e).1) <==> !Trouble(e, e.pid)
  {
    hide ChainOf;
    assert run.i > 0 ==> ChainOf(run.image.diffIds[..run.i]) in s.committed;
  }

  lemma {:induction false} DoomedStays(s: Store, run: Run, e: Event)
    requires !StillGood(run) && run.i < |run.image.diffIds| == |run.image.layers|
    requires OwnCall(e) && Awaits(run, e)
    ensures !StillGood(Call(s, run, e).1)
  {
  }

  lemma {:induction false} FailsExactlyWhenTrouble(w: World, events: seq<Event>, pid: Pid)
    requires Inv(w) && Possible(w, events) && pid in w.runs
    ensures pid in After(w, events).runs
    ensures StillGood(After(w, events).runs[pid]) <==>
      StillGood(w.runs[pid]) && forall e | e in events :: !Trouble(e, pid)
    decreases |events|
  {
    hide Call, OnTrack, StillGood;
    if events != [] {
      var e, rest := events[0], events[1..];
      NextKeepsInv(w, e);
      assert RunOk(w, w.runs[pid]);
      if OwnCall(e) && e.pid == pid {
        OneMore(w, e);
      }
      FailsExactlyWhenTrouble(Next(w, e), rest, pid);
      assert events == [e] + rest;
    }
  }

  lemma {:induction false} OneMore(w: World, e: Event)
    requires Inv(w) && Enabled(w, e) && OwnCall(e)
    ensures StillGood(Call(w.store, w.runs[e.pid], e).1) <==> StillGood(w.runs[e.pid]) && !Trouble(e, e.pid)
  {
    var run := w.runs[e.pid];
    assert RunOk(w, run);
    hide Call;
    if StillGood(run) {
      TroubleDooms(w.store, run, e);
    } else {
      DoomedStays(w.store, run, e);
    }
  }

  /** In any history a run has raised or is about to exactly when its image is malformed or it met an error. */
  lemma {:induction false} RunsFailExactlyWhen(w: World, events: seq<Event>, pid: Pid)
    requires Inv(w) && Possible(w, events) && pid !in w.runs && pid in After(w, events).runs
    ensures var run := After(w, events).runs[pid];
      (run.phase.Raised? || (run.phase.Removing? && run.phase.raising)) <==>
      |run.image.layers| != |run.image.diffIds| || exists e :: e in events && Trouble(e, pid)
    decreases |events|
  {
    var e, rest := events[0], events[1..];
    assert events == [e] + rest;
    NextKeepsInv(w, e);
    if e.Spawn? && e.pid == pid {
      FailsExactlyWhenTrouble(Next(w, e), rest, pid);
      ImageKept(Next(w, e), rest, pid);
    } else {
      assert !Trouble(e, pid);
      RunsFailExactlyWhen(Next(w, e), rest, pid);
    }
  }

  lemma {:induction false} ImageKept(w: World, events: seq<Event>, pid: Pid)
    requires Possible(w, events) && pid in w.runs
    ensures pid in After(w, events).runs && After(w, events).runs[pid].image == w.runs[pid].image
    decreases |events|
  {
    if events != [] {
      ImageKept(Next(w, events[0]), events[1..], pid);
    }
  }

  /** So a run that met an error never finishes. */
  lemma {:induction false} TroubledRunsNeverFinish(w: World, events: seq<Event>, pid: Pid)
    requires Inv(w) && Possible(w, events) && pid !in w.runs && pid in After(w, events).runs
    requires exists e :: e in events && Trouble(e, pid)
    ensures !After(w, events).runs[pid].phase.Finished?
  {
    RunsFailExactlyWhen(w, events, pid);
  }
}
