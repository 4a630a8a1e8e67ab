/**
 Any sequence of successful operations on any pods, with the CNI attachments: what is live at each point, and what is
 left once everything is deleted.
 */
module PodHistories {
  import opened Snapshots
  import opened PodLifecycle

  datatype Op =
    | Create(image: Image, pod: Pod, cniWorks: bool)
    | Add(image: Image, app: Handle)
    | Drop(app: Handle)
    | Delete(pod: Pod, apps: seq<Handle>)

  /** The handles of all containers and the pods not deleted yet. */
  datatype Live = Live(handles: set<Handle>, pods: set<Pod>)

  const NOTHING := Live({}, {})

  /** A container that is live and is no pod's pause container. */
  ghost predicate IsApp(live: Live, h: Handle) {
    h in live.handles && forall pod | pod in live.pods :: pod.pause != h
  }

  ghost predicate Step(before: Machine, after: Machine, snapshotter: string, live: Live, op: Op) {
    match op
    case Create(image, pod, cniWorks) => Created(before, after, snapshotter, image, pod, cniWorks)
    case Add(image, app) => Launched(before, after, snapshotter, image, app)
    case Drop(app) => IsApp(live, app) && after == Erased(before, snapshotter, app)
    case Delete(pod, apps) =>
      && pod in live.pods && (forall app | app in apps :: IsApp(live, app))
      && (forall i, j | 0 <= i < j < |apps| :: apps[i] != apps[j])
      && after == Deleted(before, snapshotter, pod, apps)
  }

  ghost function StepLive(live: Live, op: Op): Live {
    match op
    case Create(_, pod, _) => Live(live.handles + {pod.pause}, live.pods + {pod})
    case Add(_, app) => live.(handles := live.handles + {app})
    case Drop(app) => live.(handles := live.handles - {app})
    case Delete(pod, apps) => Live(live.handles - HandleSet(apps) - {pod.pause}, live.pods - {pod})
  }

  ghost function LiveAfter(live: Live, ops: seq<Op>): Live
    decreases |ops|
  {
    if ops == [] then live else LiveAfter(StepLive(live, ops[0]), ops[1..])
  }

  ghost predicate History(machines: seq<Machine>, snapshotter: string, live: Live, ops: seq<Op>)
    decreases |ops|
  {
    && |machines| == |ops| + 1
    && (ops != [] ==>
          && Step(machines[0], machines[1], snapshotter, live, ops[0])
          && History(machines[1..], snapshotter, StepLive(live, ops[0]), ops[1..]))
  }

  /** Every pod has its own live pause container. */
  ghost predicate PausesLive(live: Live) {
    && (forall p | p in live.pods :: p.pause in live.handles)
    && forall p, q | p in live.pods && q in live.pods && p != q :: p.pause != q.pause
  }

  /** m holds what m0 held plus exactly what is live. */
  ghost predicate HoldsLive(m0: Machine, m: Machine, snapshotter: string, live: Live) {
    FreshKeys(m) && Over(m0, m, snapshotter, live.handles) && PausesLive(live)
  }

  lemma {:induction false} StepKeepsFresh(before: Machine, after: Machine, snapshotter: string, live: Live, op: Op)
    requires FreshKeys(before) && Step(before, after, snapshotter, live, op)
    ensures FreshKeys(after)
  {
    if op.Delete? {
      EraseAllKeepsFresh(before, snapshotter, op.apps);
    }
  }

  lemma {:induction false} LaunchedIsNew(
    m0: Machine, before: Machine, after: Machine, snapshotter: string, image: Image, live: set<Handle>, h: Handle)
    requires Over(m0, before, snapshotter, live) && Launched(before, after, snapshotter, image, h)
    ensures h !in live
  {
    assert h in live ==> h.cid in Cids(live);
  }

  lemma {:induction false} DeleteHoldsLive(
    m0: Machine, m: Machine, snapshotter: string, live: Live, pod: Pod, apps: seq<Handle>)
    requires Over(m0, m, snapshotter, live.handles) && PausesLive(live)
    requires Step(m, Deleted(m, snapshotter, pod, apps), snapshotter, live, Delete(pod, apps))
    ensures Over(m0, Deleted(m, snapshotter, pod, apps), snapshotter, StepLive(live, Delete(pod, apps)).handles)
    ensures PausesLive(StepLive(live, Delete(pod, apps)))
  {
    hide Erased, Over;
    EraseAllRemoves(m0, m, snapshotter, live.handles, apps);
    var m1, handles := EraseAll(m, snapshotter, apps), live.handles - HandleSet(apps);
    EraseRemoves(m0, m1, snapshotter, handles, pod.pause);
    OverIgnoresAttachments(
      m0, Erased(m1, snapshotter, pod.pause), Deleted(m, snapshotter, pod, apps), snapshotter, handles - {pod.pause});
  }

  lemma {:induction false} OverIgnoresAttachments(
    m0: Machine, m: Machine, m': Machine, snapshotter: string, live: set<Handle>)
    requires Over(m0, m, snapshotter, live) && m' == m.(attachments := m'.attachments)
    ensures Over(m0, m', snapshotter, live)
  {
  }

  lemma {:induction false} StepHoldsLive(
    m0: Machine, before: Machine, after: Machine, snapshotter: string, live: Live, op: Op)
    requires Step(before, after, snapshotter, live, op) && HoldsLive(m0, before, snapshotter, live)
    ensures HoldsLive(m0, after, snapshotter, StepLive(live, op))
  {
    hide Over, Launched, FreshKeys, Erased, Deleted;
    StepKeepsFresh(before, after, snapshotter, live, op);
    match op {
      case Create(image, pod, _) =>
        var next := after.(attachments := before.attachments);
        LaunchAdds(m0, before, next, snapshotter, image, live.handles, pod.pause);
        LaunchedIsNew(m0, before, next, snapshotter, image, live.handles, pod.pause);
        OverIgnoresAttachments(m0, next, after, snapshotter, live.handles + {pod.pause});
      case Add(image, app) => LaunchAdds(m0, before, after, snapshotter, image, live.handles, app);
      case Drop(app) => EraseRemoves(m0, before, snapshotter, live.handles, app);
      case Delete(pod, apps) => DeleteHoldsLive(m0, before, snapshotter, live, pod, apps);
    }
  }

  /** However operations on any pods are interleaved, the machine holds exactly what is still live. */
  lemma {:induction false} HistoryHoldsLive(
    m0: Machine, machines: seq<Machine>, snapshotter: string, live: Live, ops: seq<Op>)
    requires History(machines, snapshotter, live, ops) && HoldsLive(m0, machines[0], snapshotter, live)
    ensures HoldsLive(m0, machines[|ops|], snapshotter, LiveAfter(live, ops))
    decreases |ops|
  {
    hide HoldsLive, Step, StepLive;
    if ops != [] {
      StepHoldsLive(m0, machines[0], machines[1], snapshotter, live, ops[0]);
      HistoryHoldsLive(m0, machines[1..], snapshotter, StepLive(live, ops[0]), ops[1..]);
    }
  }

  // ---------- attachments over such a sequence ----------

  ghost predicate PodAt(live: Live, a: Attachment) {
    exists pod :: pod in live.pods && AttachmentOf(pod) == a
  }

  ghost predicate CreatedAt(ops: seq<Op>, a: Attachment) {
    exists i :: 0 <= i < |ops| && ops[i].Create? && AttachmentOf(ops[i].pod) == a
  }

  /** ADD worked for some pod at a. */
  ghost predicate AttachedAt(ops: seq<Op>, a: Attachment) {
    exists i :: 0 <= i < |ops| && ops[i].Create? && AttachmentOf(ops[i].pod) == a && ops[i].cniWorks
  }

  lemma {:induction false} StepElsewhere(before: Machine, after: Machine, snapshotter: string, live: Live, op: Op)
    requires Step(before, after, snapshotter, live, op)
    ensures forall a :: !(op.Create? || op.Delete?) || AttachmentOf(op.pod) != a ==>
      (a in after.attachments <==> a in before.attachments)
    ensures op.Create? ==> (AttachmentOf(op.pod) in after.attachments <==>
                              op.cniWorks || AttachmentOf(op.pod) in before.attachments)
    ensures op.Delete? ==> op.pod in live.pods && (AttachmentOf(op.pod) in after.attachments <==>
                              (op.pod.pause.cid == "" || op.pod.network == "") &&
                              AttachmentOf(op.pod) in before.attachments)
  {
    hide Erased, Launched;
    if op.Delete? {
      EraseAllKeepsAttachments(before, snapshotter, op.apps);
      ErasedKeepsAttachments(EraseAll(before, snapshotter, op.apps), snapshotter, op.pod.pause);
    } else if op.Drop? {
      ErasedKeepsAttachments(before, snapshotter, op.app);
    } else if op.Add? {
      LaunchedKeepsAttachments(before, after, snapshotter, op.image, op.app);
    }
  }

  lemma {:induction false} LaunchedKeepsAttachments(
    before: Machine, after: Machine, snapshotter: string, image: Image, h: Handle)
    requires Launched(before, after, snapshotter, image, h)
    ensures after.attachments == before.attachments
  {
  }

  lemma {:induction false} PodsStayNamed(before: Machine, after: Machine, snapshotter: string, live: Live, op: Op)
    requires Step(before, after, snapshotter, live, op) && forall pod | pod in live.pods :: pod.pause.cid != ""
    ensures forall pod | pod in StepLive(live, op).pods :: pod.pause.cid != ""
  {
  }

  lemma {:induction false} PodAtNext(live: Live, op: Op, a: Attachment)
    ensures op.Create? ==> (PodAt(StepLive(live, op), a) <==> PodAt(live, a) || AttachmentOf(op.pod) == a)
    ensures op.Add? || op.Drop? ==> (PodAt(StepLive(live, op), a) <==> PodAt(live, a))
    ensures op.Delete? && AttachmentOf(op.pod) != a ==> (PodAt(StepLive(live, op), a) <==> PodAt(live, a))
  {
    if PodAt(live, a) {
      var pod :| pod in live.pods && AttachmentOf(pod) == a;
      assert !op.Delete? || pod != op.pod ==> pod in StepLive(live, op).pods;
    }
    if op.Create? {
      assert op.pod in StepLive(live, op).pods;
    }
  }

  lemma {:induction false} CreatedAtHead(ops: seq<Op>, a: Attachment)
    requires ops != []
    ensures CreatedAt(ops, a) <==> CreatedAt(ops[1..], a) || (ops[0].Create? && AttachmentOf(ops[0].pod) == a)
    ensures AttachedAt(ops, a) <==>
      AttachedAt(ops[1..], a) || (ops[0].Create? && AttachmentOf(ops[0].pod) == a && ops[0].cniWorks)
  {
    var rest := ops[1..];
    assert forall i | 0 < i < |ops| :: ops[i] == rest[i - 1];
    assert forall i | 0 <= i < |rest| :: rest[i] == ops[i + 1];
  }

  /** An attachment to a named network is there at the end exactly when it was at the start and no pod ever used it. */
  lemma {:induction false} NamedNetwork(
    machines: seq<Machine>, snapshotter: string, live: Live, ops: seq<Op>, a: Attachment)
    requires History(machines, snapshotter, live, ops) && LiveAfter(live, ops).pods == {}
    requires a.network != "" && forall pod | pod in live.pods :: pod.pause.cid != ""
    ensures a in machines[|ops|].attachments <==>
      a in machines[0].attachments && !PodAt(live, a) && !CreatedAt(ops, a)
    decreases |ops|
  {
    hide Step, StepLive, CreatedAt, PodAt;
    if ops == [] {
      NoPodNowhere(live, a);
      NothingCreated(a);
    } else {
      var op := ops[0];
      StepElsewhere(machines[0], machines[1], snapshotter, live, op);
      PodsStayNamed(machines[0], machines[1], snapshotter, live, op);
      PodAtNext(live, op, a);
      CreatedAtHead(ops, a);
      if op.Delete? && AttachmentOf(op.pod) == a {
        PodIsSomewhere(live, op.pod);
      }
      NamedNetwork(machines[1..], snapshotter, StepLive(live, op), ops[1..], a);
    }
  }

  lemma {:induction false} PodIsSomewhere(live: Live, pod: Pod)
    requires pod in live.pods
    ensures PodAt(live, AttachmentOf(pod))
  {
  }

  lemma {:induction false} NoPodNowhere(live: Live, a: Attachment)
    requires live.pods == {}
    ensures !PodAt(live, a)
  {
  }

  lemma {:induction false} NothingCreated(a: Attachment)
    ensures !CreatedAt([], a) && !AttachedAt([], a)
  {
  }

  /** DEL is never called for the empty network name: what ADD made there stays. */
  lemma {:induction false} UnnamedNetwork(
    machines: seq<Machine>, snapshotter: string, live: Live, ops: seq<Op>, a: Attachment)
    requires History(machines, snapshotter, live, ops) && a.network == ""
    ensures a in machines[|ops|].attachments <==> a in machines[0].attachments || AttachedAt(ops, a)
    decreases |ops|
  {
    hide Step, StepLive, AttachedAt;
    if ops == [] {
      NothingCreated(a);
    } else {
      StepElsewhere(machines[0], machines[1], snapshotter, live, ops[0]);
      CreatedAtHead(ops, a);
      UnnamedNetwork(machines[1..], snapshotter, StepLive(live, ops[0]), ops[1..], a);
    }
  }

  /** The attachment is not there before a pod uses it; or, without a network name, it was there or ADD failed. */
  ghost predicate Undone(attachments: set<Attachment>, op: Op) {
    op.Create? ==>
      var a := AttachmentOf(op.pod);
      if a.network != "" then a !in attachments else op.cniWorks ==> a in attachments
  }

  /**
   Conservation over interleaved pods: once all of them and all their containers are deleted, containers, tasks and
   active snapshots are as at the start, and the attachments are exactly when each pod's own is undone.
   */
  lemma {:induction false} HistoryConserves(
    machines: seq<Machine>, snapshotter: string, ops: seq<Op>)
    requires History(machines, snapshotter, NOTHING, ops) && FreshKeys(machines[0])
    requires LiveAfter(NOTHING, ops) == NOTHING
    ensures AsBefore(machines[0], machines[|ops|])
    ensures machines[|ops|].attachments == machines[0].attachments <==>
      forall i | 0 <= i < |ops| :: Undone(machines[0].attachments, ops[i])
  {
    var m0, m := machines[0], machines[|ops|];
    NothingYet(m0, snapshotter);
    HistoryHoldsLive(m0, machines, snapshotter, NOTHING, ops);
    NothingLive(m0, m, snapshotter);
    AttachmentsConserved(machines, snapshotter, ops);
  }

  lemma {:induction false} AttachmentsConserved(machines: seq<Machine>, snapshotter: string, ops: seq<Op>)
    requires History(machines, snapshotter, NOTHING, ops) && LiveAfter(NOTHING, ops).pods == {}
    ensures machines[|ops|].attachments == machines[0].attachments <==>
      forall i | 0 <= i < |ops| :: Undone(machines[0].attachments, ops[i])
  {
    var before, after := machines[0].attachments, machines[|ops|].attachments;
    hide History;
    forall i | 0 <= i < |ops| && !Undone(before, ops[i]) ensures after != before {
      var a := AttachmentOf(ops[i].pod);
      if a.network != "" {
        NamedNetwork(machines, snapshotter, NOTHING, ops, a);
      } else {
        UnnamedNetwork(machines, snapshotter, NOTHING, ops, a);
      }
    }
    if forall i | 0 <= i < |ops| :: Undone(before, ops[i]) {
      forall a: Attachment ensures a in after <==> a in before {
        SameAttachment(machines, snapshotter, ops, a);
      }
    }
  }

  lemma {:induction false} SameAttachment(
    machines: seq<Machine>, snapshotter: string, ops: seq<Op>, a: Attachment)
    requires History(machines, snapshotter, NOTHING, ops) && LiveAfter(NOTHING, ops).pods == {}
    requires forall i | 0 <= i < |ops| :: Undone(machines[0].attachments, ops[i])
    ensures a in machines[|ops|].attachments <==> a in machines[0].attachments
  {
    hide History;
    if a.network == "" {
      UnnamedNetwork(machines, snapshotter, NOTHING, ops, a);
    } else {
      NamedNetwork(machines, snapshotter, NOTHING, ops, a);
      NoPodNowhere(NOTHING, a);
    }
  }
}
