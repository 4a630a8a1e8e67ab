/**
 Any number of `grpc_unpack` runs interleaved RPC by RPC on one snapshotter, with other clients alongside.
 Every RPC may fail before or after it takes effect.
 */
module UnpackRaces {
  import opened Wrappers
  import opened ChainIds
  import opened Snapshots

  type Pid = nat

  datatype Phase =
    | Stating
    | Preparing
    | Applying(key: Key)
    | Committing(key: Key)
    | Removing(key: Key, raising: bool)
    | Finished
    | Raised

  /** One call: its image, the layer it is at, the parent chain so far, and the keys it made and abandoned. */
  datatype Run = Run(image: Image, i: nat, parent: Option<ChainId>, phase: Phase, created: set<Key>, leaked: set<Key>)

  datatype World = World(store: Store, used: set<Key>, runs: map<Pid, Run>)

  /** What happens to an RPC: it succeeds or fails on its merits, errs without effect, or errs after its effect. */
  datatype Fault = Normal | Lost | Late

  datatype Event =
    | Spawn(pid: Pid, image: Image)
    | StatCall(pid: Pid, fault: Fault)
    | PrepareCall(pid: Pid, key: Key, fault: Fault)
    | ApplyCall(pid: Pid, fault: Fault, debris: seq<DiffId>)
    | CommitCall(pid: Pid, fault: Fault)
    | RemoveCall(pid: Pid, fault: Fault)
    | OtherClients(active: map<Key, Snapshot>)

  // ---------- the program of one run ----------

  function Begin(image: Image): Run {
    var phase := if |image.diffIds| != |image.layers| then Raised else if image.layers == [] then Finished else Stating;
    Run(image, 0, None, phase, {}, {})
  }

  function Current(run: Run): ChainId
    requires run.i < |run.image.diffIds|
  {
    ChainOf(run.image.diffIds[..run.i + 1])
  }

  /** The current layer is done. */
  function Advance(run: Run): Run
    requires run.i < |run.image.diffIds|
  {
    run.(i := run.i + 1, parent := Some(Current(run)),
         phase := if run.i + 1 == |run.image.layers| then Finished else Stating)
  }

  /** The RPC a run is about to make. */
  predicate Awaits(run: Run, e: Event) {
    match e
    case StatCall(_, _) => run.phase.Stating?
    case PrepareCall(_, _, _) => run.phase.Preparing?
    case ApplyCall(_, _, _) => run.phase.Applying?
    case CommitCall(_, _) => run.phase.Committing?
    case RemoveCall(_, _) => run.phase.Removing?
    case _ => false
  }

  predicate OwnCall(e: Event) {
    !e.Spawn? && !e.OtherClients?
  }

  ghost predicate Enabled(w: World, e: Event) {
    match e
    case Spawn(pid, _) => pid !in w.runs
    case OtherClients(active) =>
      // other clients use fresh keys and leave the keys that runs are working on alone
      && (forall k | k in active && k !in w.store.active :: k !in w.used)
      && (forall pid, k | pid in w.runs && k in Held(w.runs[pid]) :: SameKey(w.store.active, active, k))
    case _ =>
      && e.pid in w.runs && Awaits(w.runs[e.pid], e)
      && w.runs[e.pid].i < |w.runs[e.pid].image.diffIds| == |w.runs[e.pid].image.layers|
      && (e.PrepareCall? ==> e.key !in w.used)
  }

  ghost predicate SameKey(before: map<Key, Snapshot>, after: map<Key, Snapshot>, k: Key) {
    (k in before <==> k in after) && (k in before ==> before[k] == after[k])
  }

  /** The key a run is still responsible for. */
  function Held(run: Run): set<Key> {
    match run.phase
    case Applying(key) => {key}
    case Committing(key) => {key}
    case Removing(key, _) => {key}
    case _ => {}
  }

  /** The store and the run after the run's own RPC. */
  function Call(s: Store, run: Run, e: Event): (r: (Store, Run))
    requires OwnCall(e) && Awaits(run, e) && run.i < |run.image.diffIds| == |run.image.layers|
  {
    var raised := run.(phase := Raised);
    match e
    case StatCall(_, fault) =>
      if fault != Normal then (s, raised)
      else if Stat(s, Current(run)) then (s, Advance(run))
      else (s, run.(phase := Preparing))
    case PrepareCall(_, key, fault) =>
      var reply := Prepare(s, key, run.parent);
      if reply.Failure? || fault == Lost then (s, raised)
      else if fault == Late then (reply.value, raised.(created := run.created + {key}, leaked := run.leaked + {key}))
      else (reply.value, run.(phase := Applying(key), created := run.created + {key}))
    case ApplyCall(_, fault, debris) =>
      var key := run.phase.key;
      var reply := Apply(s, key, run.image.layers[run.i]);
      if reply.Failure? then (s, raised)
      else if fault != Normal then
        // a failed Apply leaves anything at all in the active snapshot, and nothing removes the key
        (s.(active := s.active[key := s.active[key].(layers := debris)]), raised.(leaked := run.leaked + {key}))
      else (reply.value, run.(phase := Committing(key)))
    case CommitCall(_, fault) =>
      var key := run.phase.key;
      var reply := Commit(s, Current(run), key);
      if fault == Lost then (s, run.(phase := Removing(key, true)))
      else if reply.Success? then
        (reply.value, if fault == Late then run.(phase := Removing(key, true)) else Advance(run))
      else (s, run.(phase := Removing(key, fault == Late || reply.error != AlreadyExists)))
    case RemoveCall(_, fault) =>
      var Removing(key, raising) := run.phase;
      var next := if raising then raised else Advance(run);
      var reply := Remove(s, key);
      if fault == Lost then (s, next.(leaked := run.leaked + {key}))
      else (if reply.Success? then reply.value else s, next)
  }

  ghost function Next(w: World, e: Event): World
    requires Enabled(w, e)
  {
    match e
    case Spawn(pid, image) => w.(runs := w.runs[pid := Begin(image)])
    case OtherClients(active) => w.(store := w.store.(active := active), used := w.used + active.Keys)
    case _ =>
      var (store, run) := Call(w.store, w.runs[e.pid], e);
      World(store, if e.PrepareCall? then w.used + {e.key} else w.used, w.runs[e.pid := run])
  }

  // ---------- the invariant ----------

  /** Every prefix of the image's chain up to the run's layer is committed, and the parent is the last of them. */
  ghost predicate InPlace(s: Store, run: Run) {
    && run.i <= |run.image.diffIds| == |run.image.layers|
    && run.parent == (if run.i == 0 then None else Some(ChainOf(run.image.diffIds[..run.i])))
    && forall m | 1 <= m <= run.i :: ChainOf(run.image.diffIds[..m]) in s.committed
  }

  /** What the store holds for a run that has not raised. */
  ghost predicate OnTrack(s: Store, run: Run) {
    && InPlace(s, run)
    && (run.phase.Finished? <==> run.i == |run.image.layers|)
    && match run.phase
       case Applying(key) => key in s.active
       case Committing(key) => key in s.active
       case Removing(key, raising) => !raising ==> Current(run) in s.committed
       case _ => true
  }

  ghost predicate RunOk(w: World, run: Run) {
    && (!run.phase.Raised? ==> OnTrack(w.store, run))
    && run.created <= w.used
    && Held(run) <= run.created
    && (forall k | k in run.created && k in w.store.active :: k in Held(run) || k in run.leaked)
  }

  ghost predicate KeysApart(runs: map<Pid, Run>) {
    forall p, q | p in runs && q in runs && p != q :: runs[p].created !! runs[q].created
  }

  ghost predicate Inv(w: World) {
    && (forall k | k in w.store.active :: k in w.used)
    && (forall pid | pid in w.runs :: RunOk(w, w.runs[pid]))
    && KeysApart(w.runs)
  }

  lemma {:induction false} AdvanceStaysOnTrack(s: Store, run: Run)
    requires InPlace(s, run) && run.i < |run.image.diffIds| && Current(run) in s.committed
    ensures OnTrack(s, Advance(run))
  {
    hide ChainOf;
  }

  /** What one RPC achieves, whatever the image: nothing committed is lost, and the run stays on track or raises. */
  lemma {:induction false} CallIsSafe(s: Store, run: Run, e: Event)
    requires OnTrack(s, run) && run.i < |run.image.diffIds| && OwnCall(e) && Awaits(run, e)
    ensures var (t, after) := Call(s, run, e); Grows(s, t) && (!after.phase.Raised? ==> OnTrack(t, after))
  {
    hide ChainOf;
    var (t, after) := Call(s, run, e);
    if Current(run) in t.committed {
      AdvanceStaysOnTrack(t, run);
    }
  }

  // ---------- keys ----------

  /** Keys of the run after its RPC: only fresh ones are added, and an active one is held or recorded as leaked. */
  ghost predicate TidyCall(s: Store, t: Store, run: Run, after: Run, e: Event) {
    && after.created == run.created + (if e.PrepareCall? && after.created != run.created then {e.key} else {})
    && Held(after) <= after.created
    && (forall k | k !in after.created :: SameKey(s.active, t.active, k))
    && (forall k | k in after.created && k in t.active :: k in Held(after) || k in after.leaked)
  }

  ghost predicate Tidy(s: Store, run: Run) {
    Held(run) <= run.created && forall k | k in run.created && k in s.active :: k in Held(run) || k in run.leaked
  }

  lemma {:induction false} CallIsTidy(s: Store, run: Run, e: Event)
    requires Tidy(s, run)
    requires OwnCall(e) && Awaits(run, e) && run.i < |run.image.diffIds| == |run.image.layers|
    requires e.PrepareCall? ==> e.key !in run.created
    requires e.ApplyCall? ==> run.phase.key in s.active
    requires e.CommitCall? && Current(run) !in s.committed ==> run.phase.key in s.active
    ensures var (t, after) := Call(s, run, e); TidyCall(s, t, run, after, e)
  {
  }

  // ---------- every step keeps the invariant ----------

  /** A run whose keys were not touched is still fine in a store that only grew. */
  lemma {:induction false} BystanderKept(s: Store, t: Store, run: Run)
    requires Grows(s, t) && Tidy(s, run) && forall k | k in run.created :: SameKey(s.active, t.active, k)
    ensures OnTrack(s, run) ==> OnTrack(t, run)
    ensures Tidy(t, run)
  {
    if OnTrack(s, run) {
      assert Held(run) <= run.created;
      match run.phase
      case Applying(key) => assert key in Held(run);
      case Committing(key) => assert key in Held(run);
      case _ =>
    }
  }

  lemma {:induction false} OwnCallKeepsKeysApart(w: World, e: Event)
    requires Inv(w) && Enabled(w, e) && OwnCall(e)
    ensures KeysApart(Next(w, e).runs)
  {
    var run := w.runs[e.pid];
    assert RunOk(w, run);
    CallIsTidy(w.store, run, e);
    forall q | q in w.runs && q != e.pid ensures Call(w.store, run, e).1.created !! w.runs[q].created {
      assert RunOk(w, w.runs[q]);
    }
  }

  lemma {:induction false} OwnCallKeepsInv(w: World, e: Event)
    requires Inv(w) && Enabled(w, e) && OwnCall(e)
    ensures Inv(Next(w, e)) && Grows(w.store, Next(w, e).store)
  {
    hide Call, Grows, InPlace;
    var run := w.runs[e.pid];
    var (t, after) := Call(w.store, run, e);
    assert RunOk(w, run);
    CallIsSafe(w.store, run, e);
    CallIsTidy(w.store, run, e);
    OwnCallKeepsKeysApart(w, e);
    var w' := Next(w, e);
    forall pid | pid in w'.runs ensures RunOk(w', w'.runs[pid]) {
      if pid != e.pid {
        BystanderKept(w.store, t, w.runs[pid]);
      }
    }
    forall k | k in t.active ensures k in w'.used {
      assert k !in after.created ==> SameKey(w.store.active, t.active, k);
    }
  }

  lemma {:induction false} OtherClientsKeepInv(w: World, e: Event)
    requires Inv(w) && Enabled(w, e) && e.OtherClients?
    ensures Inv(Next(w, e)) && Grows(w.store, Next(w, e).store)
  {
    var w' := Next(w, e);
    forall pid | pid in w'.runs ensures RunOk(w', w'.runs[pid]) {
      var run := w.runs[pid];
      assert RunOk(w, run);
      assert forall k | k in Held(run) :: SameKey(w.store.active, w'.store.active, k);
      match run.phase
      case Applying(key) => assert key in Held(run);
      case Committing(key) => assert key in Held(run);
      case _ =>
    }
  }

  lemma {:induction false} NextKeepsInv(w: World, e: Event)
    requires Inv(w) && Enabled(w, e)
    ensures Inv(Next(w, e)) && Grows(w.store, Next(w, e).store)
  {
    if OwnCall(e) {
      OwnCallKeepsInv(w, e);
    } else if e.OtherClients? {
      OtherClientsKeepInv(w, e);
    } else {
      assert Held(Begin(e.image)) == {};
    }
  }

  // ---------- whole histories ----------

  ghost predicate Possible(w: World, events: seq<Event>)
    decreases |events|
  {
    events == [] || (Enabled(w, events[0]) && Possible(Next(w, events[0]), events[1..]))
  }

  ghost function After(w: World, events: seq<Event>): World
    requires Possible(w, events)
    decreases |events|
  {
    if events == [] then w else After(Next(w, events[0]), events[1..])
  }

  /** No run has started yet. */
  ghost predicate Fresh(w: World) {
    w.runs == map[] && forall k | k in w.store.active :: k in w.used
  }

  /** Safety over whole histories, whatever the images: no committed snapshot is ever lost or changed. */
  lemma {:induction false} HistoryIsSafe(w: World, events: seq<Event>)
    requires Inv(w) && Possible(w, events)
    ensures Inv(After(w, events)) && Grows(w.store, After(w, events).store)
    decreases |events|
  {
    if events != [] {
      NextKeepsInv(w, events[0]);
      HistoryIsSafe(Next(w, events[0]), events[1..]);
    }
  }

  /** However it was interleaved, and whichever Commit races it lost, a finished run leaves its whole chain there. */
  lemma {:induction false} FinishedRunsHaveTheirChain(w: World, events: seq<Event>, pid: Pid)
    requires Fresh(w) && Possible(w, events)
    requires pid in After(w, events).runs && After(w, events).runs[pid].phase.Finished?
    ensures var end := After(w, events);
      var diffs := end.runs[pid].image.diffIds;
      && (forall m | 1 <= m <= |diffs| :: ChainOf(diffs[..m]) in end.store.committed)
      && end.runs[pid].parent == (if diffs == [] then None else Some(ChainOf(diffs)))
  {
    hide ChainOf;
    HistoryIsSafe(w, events);
    var end := After(w, events);
    assert RunOk(end, end.runs[pid]);
    assert end.runs[pid].image.diffIds[..end.runs[pid].i] == end.runs[pid].image.diffIds;
  }

  // ---------- what is left behind ----------

  /** Where the code abandons a key: a failed Apply, a lost Prepare reply, a Remove that did nothing. */
  predicate Abandons(e: Event, pid: Pid) {
    match e
    case PrepareCall(p, _, fault) => p == pid && fault == Late
    case ApplyCall(p, fault, _) => p == pid && fault != Normal
    case RemoveCall(p, fault) => p == pid && fault == Lost
    case _ => false
  }

  lemma {:induction false} NothingAbandoned(w: World, events: seq<Event>, pid: Pid)
    requires Possible(w, events) && forall e | e in events :: !Abandons(e, pid)
    requires pid in w.runs ==> w.runs[pid].leaked == {}
    ensures pid in After(w, events).runs ==> After(w, events).runs[pid].leaked == {}
    decreases |events|
  {
    if events != [] {
      var e := events[0];
      assert e in events;
      assert pid in Next(w, e).runs ==> Next(w, e).runs[pid].leaked == {};
      NothingAbandoned(Next(w, e), events[1..], pid);
    }
  }

  /** When no Apply fails and every Remove works, a call that has ended, well or badly, leaves no active key. */
  lemma {:induction false} EndedRunsLeaveNoKeys(w: World, events: seq<Event>, pid: Pid)
    requires Fresh(w) && Possible(w, events) && forall e | e in events :: !Abandons(e, pid)
    requires pid in After(w, events).runs
    requires After(w, events).runs[pid].phase.Finished? || After(w, events).runs[pid].phase.Raised?
    ensures After(w, events).runs[pid].created !! After(w, events).store.active.Keys
  {
    HistoryIsSafe(w, events);
    NothingAbandoned(w, events, pid);
    assert RunOk(After(w, events), After(w, events).runs[pid]);
  }

  // ---------- every run ends ----------

  /** An upper bound on the RPCs a run can still make: at most five a layer. */
  function Remaining(run: Run): nat {
    var later := if run.i < |run.image.layers| then 5 * (|run.image.layers| - run.i - 1) else 0;
    match run.phase
    case Stating => later + 5
    case Preparing => later + 4
    case Applying(_) => later + 3
    case Committing(_) => later + 2
    case Removing(_, _) => later + 1
    case Finished => 0
    case Raised => 0
  }

  /** How many RPCs of one run there are in a history. */
  function CallsOf(events: seq<Event>, pid: Pid): nat {
    if events == [] then 0
    else (if OwnCall(events[0]) && events[0].pid == pid then 1 else 0) + CallsOf(events[1..], pid)
  }

  lemma {:induction false} CallMakesProgress(s: Store, run: Run, e: Event)
    requires OwnCall(e) && Awaits(run, e) && run.i < |run.image.diffIds| == |run.image.layers|
    ensures Remaining(Call(s, run, e).1) < Remaining(run)
  {
  }

  /** No run is ever held up by the others: it makes at most five RPCs a layer, in any history. */
  lemma {:induction false} CallsAreBounded(w: World, events: seq<Event>, pid: Pid)
    requires Possible(w, events) && pid in w.runs
    ensures pid in After(w, events).runs
    ensures CallsOf(events, pid) + Remaining(After(w, events).runs[pid]) <= Remaining(w.runs[pid])
    decreases |events|
  {
    if events != [] {
      var e := events[0];
      if OwnCall(e) && e.pid == pid {
        CallMakesProgress(w.store, w.runs[pid], e);
      }
      CallsAreBounded(Next(w, e), events[1..], pid);
    }
  }

  // ---------- no run is held up ----------

  lemma {:induction false} UnusedKey(used: set<Key>) returns (uuid: nat)
    ensures forall k | k in used :: k.uuid < uuid
  {
    if used == {} {
      uuid := 0;
    } else {
      var k :| k in used;
      var rest := UnusedKey(used - {k});
      uuid := if k.uuid < rest then rest else k.uuid + 1;
      assert used == (used - {k}) + {k};
    }
  }

  /** The RPC a run makes next, without a fault, under a fresh key where it needs one. */
  lemma {:induction false} UnfinishedRunsCanMove(w: World, pid: Pid) returns (e: Event)
    requires Inv(w) && pid in w.runs && !w.runs[pid].phase.Finished? && !w.runs[pid].phase.Raised?
    ensures Enabled(w, e) && OwnCall(e) && e.pid == pid && e.fault == Normal
  {
    assert RunOk(w, w.runs[pid]);
    match w.runs[pid].phase {
      case Stating => e := StatCall(pid, Normal);
      case Preparing =>
        var uuid := UnusedKey(w.used);
        e := PrepareCall(pid, Key("unpack", uuid), Normal);
      case Applying(_) => e := ApplyCall(pid, Normal, []);
      case Committing(_) => e := CommitCall(pid, Normal);
      case Removing(_, _) => e := RemoveCall(pid, Normal);
    }
  }

  /** The run has not raised and is not cleaning up in order to. */
  predicate StillGood(run: Run) {
    !run.phase.Raised? && (run.phase.Removing? ==> !run.phase.raising)
  }

  lemma {:induction false} GoodStaysGood(s: Store, run: Run, e: Event)
    requires OnTrack(s, run) && StillGood(run) && run.i < |run.image.diffIds|
    requires OwnCall(e) && Awaits(run, e) && e.fault == Normal && (e.PrepareCall? ==> e.key !in s.active)
    ensures StillGood(Call(s, run, e).1)
  {
    hide ChainOf;
    assert run.i > 0 ==> ChainOf(run.image.diffIds[..run.i]) in s.committed;
  }

  /** From any reachable state a run that has not failed, left alone from there, finishes. */
  lemma {:induction false} LeftAloneItFinishes(w: World, pid: Pid) returns (events: seq<Event>)
    requires Inv(w) && pid in w.runs && StillGood(w.runs[pid])
    ensures Possible(w, events) && forall e | e in events :: OwnCall(e) && e.pid == pid && e.fault == Normal
    ensures pid in After(w, events).runs && After(w, events).runs[pid].phase.Finished?
    decreases Remaining(w.runs[pid])
  {
    hide OnTrack, Call, Remaining;
    events := [];
    if !w.runs[pid].phase.Finished? {
      var e := UnfinishedRunsCanMove(w, pid);
      assert RunOk(w, w.runs[pid]);
      CallMakesProgress(w.store, w.runs[pid], e);
      GoodStaysGood(w.store, w.runs[pid], e);
      NextKeepsInv(w, e);
      var rest := LeftAloneItFinishes(Next(w, e), pid);
      events := [e] + rest;
      assert events[1..] == rest;
    }
  }
}
