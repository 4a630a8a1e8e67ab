/** The pod manager of utils/containerd/containerd_interface.py, acting on one machine. */
module PodManagement {
  import opened Wrappers
  import opened ChainIds
  import opened Snapshots
  import opened Unpack
  import opened PodLifecycle

  /** What one launch attempt leaves behind in any case: fresh keys, nothing committed lost, attachments untouched. */
  ghost predicate Harmless(before: Machine, after: Machine) {
    && FreshKeys(after) && before.uuids <= after.uuids
    && after.attachments == before.attachments
    && after.stores.Keys == before.stores.Keys
    && forall s | s in before.stores :: Grows(before.stores[s], after.stores[s])
  }

  /** The machine with one more read-write snapshot. */
  function WithKey(m: Machine, snapshotter: string, key: Key, parent: ChainId): Machine
    requires Accepts(m, snapshotter, parent)
  {
    var s := m.stores[snapshotter];
    var snapshot := Snapshot(Some(parent), s.committed[parent].layers);
    m.(stores := m.stores[snapshotter := s.(active := s.active[key := snapshot])])
  }

  function AppId(podName: string, spec: Spec): string {
    podName + "-" + spec.name
  }

  ghost function AppIds(podName: string, specs: seq<Spec>): set<string> {
    set spec | spec in specs :: AppId(podName, spec)
  }

  /** Whatever was live before, exactly these handles are live in addition now. */
  ghost predicate AddsExactly(before: Machine, after: Machine, snapshotter: string, hs: seq<Handle>) {
    forall m0, live | Over(m0, before, snapshotter, live) ::
      Over(m0, after, snapshotter, live + HandleSet(hs)) && live !! HandleSet(hs)
  }

  /** The same snapshotters, and exactly these ids more among the containers and the tasks. */
  ghost predicate RecordsGrew(start: Machine, m: Machine, ids: set<string>) {
    && m.stores.Keys == start.stores.Keys
    && m.containers.Keys == start.containers.Keys + ids && m.tasks.Keys == start.tasks.Keys + ids
  }

  lemma {:induction false} OwnNameOwnId(podName: string, a: Spec, b: Spec)
    ensures AppId(podName, a) == AppId(podName, b) <==> a.name == b.name
  {
    var k := |podName + "-"|;
    assert AppId(podName, a)[k..] == a.name && AppId(podName, b)[k..] == b.name;
  }

  class PodManager {
    const configured: string
    const images: map<string, Image>
    var machine: Machine
    var cache: Option<string>

    /** The snapshotter cache is unset or the effective default; keys carry uuids already drawn. */
    ghost predicate Valid()
      reads this
    {
      FreshKeys(machine) && Agrees(cache, configured)
    }

    constructor (configured: string, images: map<string, Image>, machine: Machine)
      requires FreshKeys(machine)
      ensures Valid() && this.machine == machine && cache == None
      ensures this.configured == configured && this.images == images
    {
      this.configured, this.images, this.machine, this.cache := configured, images, machine, None;
    }

    /** `_snapshotter_value_cache or DEFAULT_SNAPSHOTTER or "overlayfs"` */
    function SnapshotterName(): string
      reads this
    {
      if cache.Some? then cache.value else Effective(configured)
    }

    /** Why an image cannot be unpacked on this machine, if it cannot. */
    function UnpackRefusal(m: Machine, name: string): Option<Error> {
      if name !in images then Some(UnknownImage)
      else if |images[name].layers| != |images[name].diffIds| then Some(LengthMismatch)
      else if images[name].layers != [] && Effective(configured) !in m.stores then Some(Rpc)
      else None
    }

    /** Why a container with this id cannot be launched on this machine, if it cannot. */
    function Refusal(m: Machine, cid: string, imageName: string): (refusal: Option<Error>)
      ensures refusal == None ==> imageName in images
    {
      if UnpackRefusal(m, imageName).Some? then UnpackRefusal(m, imageName)
      else if images[imageName].layers == [] then Some(NoLayers)
      else if cid == "" || cid in m.containers || cid in m.tasks then Some(Rpc)
      else None
    }

    /** A refusal, told by what is known and what is there. */
    lemma {:induction false} RefusalMeans(m: Machine, cid: string, imageName: string)
      ensures Refusal(m, cid, imageName) == None <==>
        && imageName in images && |images[imageName].layers| == |images[imageName].diffIds| > 0
        && Effective(configured) in m.stores && cid != "" && cid !in m.containers && cid !in m.tasks
      ensures Refusal(m, cid, imageName) ==
        if imageName !in images then Some(UnknownImage)
        else if |images[imageName].layers| != |images[imageName].diffIds| then Some(LengthMismatch)
        else if |images[imageName].layers| > 0 && Effective(configured) !in m.stores then Some(Rpc)
        else if |images[imageName].layers| == 0 then Some(NoLayers)
        else if cid == "" || cid in m.containers || cid in m.tasks then Some(Rpc)
        else None
    {
    }

    lemma {:induction false} SpecAccepted(m: Machine, podName: string, spec: Spec)
      ensures Refusal(m, AppId(podName, spec), spec.image) == None <==>
        && spec.image in images && |images[spec.image].layers| == |images[spec.image].diffIds| > 0
        && Effective(configured) in m.stores
        && podName + "-" + spec.name !in m.containers && podName + "-" + spec.name !in m.tasks
    {
      RefusalMeans(m, AppId(podName, spec), spec.image);
      assert |AppId(podName, spec)| > 0;
    }

    /** All specs are accepted, told the same way. */
    lemma {:induction false} AcceptedMeans(m: Machine, podName: string, specs: seq<Spec>)
      ensures AllAccepted(m, podName, specs) <==>
        && (forall spec | spec in specs ::
              && spec.image in images && |images[spec.image].layers| == |images[spec.image].diffIds| > 0
              && Effective(configured) in m.stores
              && podName + "-" + spec.name !in m.containers && podName + "-" + spec.name !in m.tasks)
        && forall i, j | 0 <= i < j < |specs| :: specs[i].name != specs[j].name
    {
      hide Refusal, AppId;
      forall spec | spec in specs
        ensures Refusal(m, AppId(podName, spec), spec.image) == None <==>
          && spec.image in images && |images[spec.image].layers| == |images[spec.image].diffIds| > 0
          && Effective(configured) in m.stores
          && podName + "-" + spec.name !in m.containers && podName + "-" + spec.name !in m.tasks
      {
        SpecAccepted(m, podName, spec);
      }
      forall i, j | 0 <= i < j < |specs|
        ensures AppId(podName, specs[i]) == AppId(podName, specs[j]) <==> specs[i].name == specs[j].name
      {
        OwnNameOwnId(podName, specs[i], specs[j]);
      }
    }

    /** Every spec can be launched on this machine, and under an id of its own. */
    ghost predicate AllAccepted(m: Machine, podName: string, specs: seq<Spec>) {
      && (forall spec | spec in specs :: Refusal(m, AppId(podName, spec), spec.image) == None)
      && forall i, j | 0 <= i < j < |specs| :: AppId(podName, specs[i]) != AppId(podName, specs[j])
    }

    lemma {:induction false} AcceptedAppend(m: Machine, podName: string, front: seq<Spec>, spec: Spec)
      ensures AllAccepted(m, podName, front + [spec]) <==>
        && AllAccepted(m, podName, front)
        && Refusal(m, AppId(podName, spec), spec.image) == None && AppId(podName, spec) !in AppIds(podName, front)
      ensures AppIds(podName, front + [spec]) == AppIds(podName, front) + {AppId(podName, spec)}
    {
      hide Refusal, AppId;
      var specs := front + [spec];
      assert forall i | 0 <= i < |front| :: specs[i] == front[i];
      assert specs[|front|] == spec;
      forall i | 0 <= i < |front| ensures AppId(podName, front[i]) in AppIds(podName, front) {
        assert front[i] in front;
      }
    }

    /** Launching the specs one after the other meets no refusal that was not there at the start. */
    lemma {:induction false} AcceptedNext(start: Machine, m: Machine, podName: string, specs: seq<Spec>, i: nat)
      requires i < |specs| && RecordsGrew(start, m, AppIds(podName, specs[..i]))
      ensures AllAccepted(start, podName, specs[..i + 1]) <==>
        AllAccepted(start, podName, specs[..i]) && Refusal(m, AppId(podName, specs[i]), specs[i].image) == None
      ensures AppIds(podName, specs[..i + 1]) == AppIds(podName, specs[..i]) + {AppId(podName, specs[i])}
    {
      hide AllAccepted, AppIds, AppId;
      assert specs[..i + 1] == specs[..i] + [specs[i]];
      AcceptedAppend(start, podName, specs[..i], specs[i]);
    }

    lemma {:induction false} AcceptedPrefix(m: Machine, podName: string, specs: seq<Spec>, i: nat)
      requires i <= |specs| && AllAccepted(m, podName, specs)
      ensures AllAccepted(m, podName, specs[..i])
    {
    }

    lemma {:induction false} AcceptsNone(m: Machine, podName: string, specs: seq<Spec>)
      ensures AllAccepted(m, podName, specs[..0]) && RecordsGrew(m, m, AppIds(podName, specs[..0]))
    {
    }

    lemma {:induction false} OwnIdsOwnHandles(m: Machine, podName: string, specs: seq<Spec>, hs: seq<Handle>)
      requires AllAccepted(m, podName, specs) && |hs| == |specs|
      requires forall i | 0 <= i < |specs| :: hs[i].cid == AppId(podName, specs[i])
      ensures forall i, j | 0 <= i < j < |hs| :: hs[i] != hs[j]
    {
      hide AppId, Refusal;
    }

    /** The pause container of a pod is in the way of none of its apps. */
    lemma {:induction false} PauseBlocksNothing(m: Machine, m': Machine, podName: string, specs: seq<Spec>)
      requires RecordsGrew(m, m', {podName})
      ensures AllAccepted(m', podName, specs) <==> AllAccepted(m, podName, specs)
    {
      forall i | 0 <= i < |specs|
        ensures Refusal(m', AppId(podName, specs[i]), specs[i].image)
             == Refusal(m, AppId(podName, specs[i]), specs[i].image)
      {
        assert |AppId(podName, specs[i])| > |podName|;
      }
    }

    /** Resolve an image, unpack it into the current snapshotter, and return the top of its chain. */
    method EnsureUnpacked(name: string) returns (r: Result<Option<ChainId>, Error>)
      requires Valid()
      modifies this`machine
      ensures Valid() && Harmless(old(machine), machine)
      ensures machine.containers == old(machine.containers) && machine.tasks == old(machine.tasks)
      ensures r == if UnpackRefusal(old(machine), name).Some? then Failure(UnpackRefusal(old(machine), name).value)
                   else Success(Before(images[name], |images[name].layers|))
      ensures machine.stores ==
        if r.Failure? || images[name].layers == [] then old(machine.stores)
        else old(machine.stores)[Effective(configured) := Store(
          Unpacked(old(machine.stores)[Effective(configured)].committed, images[name], |images[name].layers|),
          old(machine.stores)[Effective(configured)].active)]
    {
      if name !in images {
        return Failure(UnknownImage);
      }
      var image, snapshotter := images[name], SnapshotterName();
      if |image.layers| != |image.diffIds| {
        return Failure(LengthMismatch);
      }
      if image.layers == [] {
        return Success(None);
      }
      if snapshotter !in machine.stores {
        return Failure(Rpc);
      }
      var remote := new Snapshotter(machine.stores[snapshotter], machine.uuids);
      var prepared;
      r, prepared := remote.GrpcUnpack(image, NO_FAULTS);
      NoFaultsNoStop(machine.stores[snapshotter].committed, image, 0);
      machine := machine.(stores := machine.stores[snapshotter := remote.store], uuids := remote.uuids);
    }

    /** `chain_id_for_image` */
    method ChainIdForImage(name: string) returns (r: Result<ChainId, Error>)
      ensures r == if name !in images then Failure(UnknownImage)
                   else if images[name].diffIds == [] then Failure(NoLayers)
                   else Success(ChainOf(images[name].diffIds))
    {
      if name !in images {
        return Failure(UnknownImage);
      }
      var chain := ComputeChainId(images[name].diffIds);
      r := if chain.None? then Failure(NoLayers) else Success(chain.value);
    }

    /** One Prepare attempt for a read-write snapshot. */
    method TryPrepare(snapshotter: string, key: Key, parent: ChainId) returns (ok: bool)
      requires FreshKeys(machine) && key.uuid < machine.uuids
      requires forall s | s in machine.stores :: key !in machine.stores[s].active
      modifies this`machine
      ensures ok <==> Accepts(old(machine), snapshotter, parent)
      ensures FreshKeys(machine)
      ensures machine == if ok then WithKey(old(machine), snapshotter, key, parent) else old(machine)
    {
      if snapshotter !in machine.stores {
        return false;
      }
      var reply := Prepare(machine.stores[snapshotter], key, Some(parent));
      if reply.Failure? {
        return false;
      }
      machine := machine.(stores := machine.stores[snapshotter := reply.value]);
      return true;
    }

    /** `prepare_rw_snapshot`: the cached snapshotter first, then every candidate; the one that worked is cached. */
    method PrepareRwSnapshot(parent: ChainId, hint: string) returns (r: Result<Key, Error>)
      requires FreshKeys(machine)
      modifies this`machine, this`cache
      ensures var chosen := Chosen(old(machine), old(cache), configured, parent);
        var key := Key(hint, old(machine).uuids);
        var drawn := old(machine).(uuids := old(machine).uuids + 1);
        if chosen.Some? then
          r == Success(key) && cache == chosen && machine == WithKey(drawn, chosen.value, key, parent)
        else
          r == Failure(NoSnapshotter) && cache == old(cache) && machine == drawn
      ensures FreshKeys(machine)
    {
      var key := Key(hint, machine.uuids);
      machine := machine.(uuids := machine.uuids + 1);
      if cache.Some? {
        var ok := TryPrepare(cache.value, key, parent);
        if ok {
          return Success(key);
        }
      }
      var names := Candidates(configured);
      for i := 0 to |names|
        invariant FreshKeys(machine)
        invariant machine == old(machine).(uuids := old(machine).uuids + 1) && cache == old(cache)
        invariant FirstAccepting(old(machine), names, parent) == FirstAccepting(old(machine), names[i..], parent)
      {
        var ok := TryPrepare(names[i], key, parent);
        if ok {
          cache := Some(names[i]);
          return Success(key);
        }
        assert names[i..][1..] == names[i + 1..];
      }
      return Failure(NoSnapshotter);
    }

    /**
     What creating a pod and adding a container share: unpack, prepare a snapshot on the image's chain, create the
     container, start its task.  It uses the effective default snapshotter throughout.
     */
    method Launch(cid: string, imageName: string, hint: string) returns (r: Result<Handle, Error>)
      requires Valid()
      modifies this`machine, this`cache
      ensures Valid() && Harmless(old(machine), machine)
      ensures r.Success? <==>
        && imageName in images && |images[imageName].layers| == |images[imageName].diffIds| > 0
        && Effective(configured) in old(machine).stores
        && cid != "" && cid !in old(machine).containers && cid !in old(machine).tasks
      ensures r.Failure? ==> Refusal(old(machine), cid, imageName) == Some(r.error)
      ensures r.Success? ==>
        && r.value.cid == cid && r.value.key.hint == hint && cache == Some(Effective(configured))
        && Launched(old(machine), machine, Effective(configured), images[imageName], r.value)
    {
      RefusalMeans(machine, cid, imageName);
      hide Chosen, Unpacked, Harmless, Launched, WithContainer;
      var unpacked := EnsureUnpacked(imageName);
      if unpacked.Failure? {
        return Failure(unpacked.error);
      }
      var chain := ChainIdForImage(imageName);
      if chain.Failure? {
        return Failure(chain.error);
      }
      ghost var image := images[imageName];
      assert image.diffIds[..|image.diffIds|] == image.diffIds;
      assert unpacked.value == Some(chain.value);
      ghost var ready := machine;
      ChoiceAgreesExactlyWhen(machine, cache, configured, chain.value);
      Ready(old(machine), ready, Effective(configured), image);
      var key := PrepareRwSnapshot(chain.value, hint);
      PreparedIsHarmless(old(machine), ready, Effective(configured), key.value, chain.value);
      ghost var prepared := machine;
      if cid == "" || cid in machine.containers {
        return Failure(Rpc);
      }
      machine := machine.(containers := machine.containers[cid := SnapshotterName()]);
      HarmlessRecords(old(machine), prepared, machine);
      if cid in machine.tasks {
        return Failure(Rpc);
      }
      machine := machine.(tasks := machine.tasks[cid := Running]);
      HarmlessRecords(old(machine), prepared, machine);
      RecordedIsLaunched(old(machine), ready, machine, Effective(configured), image, Handle(cid, key.value));
      return Success(Handle(cid, key.value));
    }

    /** `create_pod`.  A failed CNI ADD is only reported. */
    method CreatePod(name: string, pauseImage: string, network: string, ifname: string, cniWorks: bool)
      returns (r: Result<Pod, Error>)
      requires Valid()
      modifies this`machine, this`cache
      ensures Valid()
      ensures r.Success? <==>
        && pauseImage in images && |images[pauseImage].layers| == |images[pauseImage].diffIds| > 0
        && Effective(configured) in old(machine).stores
        && name != "" && name !in old(machine).containers && name !in old(machine).tasks
      ensures r.Failure? ==> Refusal(old(machine), name, pauseImage) == Some(r.error) && Harmless(old(machine), machine)
      ensures r.Success? ==>
        && r.value == Pod(name, r.value.pause, network, ifname)
        && r.value.pause.cid == name && r.value.pause.key.hint == name + "-pause-rootfs"
        && machine.attachments ==
             old(machine).attachments + (if cniWorks then {Attachment(network, name, ifname)} else {})
        && Created(old(machine), machine, Effective(configured), images[pauseImage], r.value, cniWorks)
    {
      var pause := Launch(name, pauseImage, name + "-pause-rootfs");
      if pause.Failure? {
        return Failure(pause.error);
      }
      if cniWorks {
        machine := machine.(attachments := machine.attachments + {Attachment(network, name, ifname)});
      }
      return Success(Pod(name, pause.value, network, ifname));
    }

    /** `add_container` */
    method AddContainer(pod: Pod, spec: Spec) returns (r: Result<Handle, Error>)
      requires Valid()
      modifies this`machine, this`cache
      ensures Valid() && Harmless(old(machine), machine)
      ensures r.Success? <==>
        && spec.image in images && |images[spec.image].layers| == |images[spec.image].diffIds| > 0
        && Effective(configured) in old(machine).stores
        && pod.name + "-" + spec.name !in old(machine).containers
        && pod.name + "-" + spec.name !in old(machine).tasks
      ensures r.Failure? ==> Refusal(old(machine), AppId(pod.name, spec), spec.image) == Some(r.error)
      ensures r.Success? ==>
        && r.value.cid == AppId(pod.name, spec) == pod.name + "-" + spec.name
        && r.value.key.hint == pod.name + "-" + spec.name + "-rootfs"
        && Launched(old(machine), machine, Effective(configured), images[spec.image], r.value)
    {
      r := Launch(AppId(pod.name, spec), spec.image, AppId(pod.name, spec) + "-rootfs");
    }

    /**
     `add_containers`: it succeeds exactly when every spec is accepted at the start under an id of its own; then every
     spec got its own container, and exactly those were added to what was live.
     */
    method AddContainers(pod: Pod, specs: seq<Spec>) returns (r: Result<seq<Handle>, Error>)
      requires Valid()
      modifies this`machine, this`cache
      ensures Valid() && Harmless(old(machine), machine)
      ensures r.Success? <==>
        && (forall spec | spec in specs ::
              && spec.image in images && |images[spec.image].layers| == |images[spec.image].diffIds| > 0
              && Effective(configured) in old(machine).stores
              && pod.name + "-" + spec.name !in old(machine).containers
              && pod.name + "-" + spec.name !in old(machine).tasks)
        && forall i, j | 0 <= i < j < |specs| :: specs[i].name != specs[j].name
      ensures r.Success? ==>
        && |r.value| == |specs|
        && (forall i | 0 <= i < |specs| :: r.value[i].cid == pod.name + "-" + specs[i].name)
        && (forall i, j | 0 <= i < j < |specs| :: r.value[i] != r.value[j])
        && RecordsGrew(old(machine), machine, AppIds(pod.name, specs))
        && AddsExactly(old(machine), machine, Effective(configured), r.value)
    {
      AcceptedMeans(machine, pod.name, specs);
      hide AddsExactly, Harmless, Launched, Refusal, AllAccepted, AppIds, RecordsGrew;
      var added: seq<Handle> := [];
      ghost var eff := Effective(configured);
      ghost var start := machine;
      AddNone(machine, eff);
      HarmlessToWait(machine);
      AcceptsNone(machine, pod.name, specs);
      for i := 0 to |specs|
        invariant Valid() && Harmless(start, machine) && |added| == i
        invariant forall k | 0 <= k < i :: added[k].cid == AppId(pod.name, specs[k])
        invariant RecordsGrew(start, machine, AppIds(pod.name, specs[..i]))
        invariant AllAccepted(start, pod.name, specs[..i])
        invariant AddsExactly(start, machine, eff, added)
      {
        ghost var before := machine;
        var handle := AddContainer(pod, specs[i]);
        HarmlessInTurn(start, before, machine);
        AcceptedNext(start, before, pod.name, specs, i);
        RefusalMeans(before, AppId(pod.name, specs[i]), specs[i].image);
        if handle.Failure? {
          if AllAccepted(start, pod.name, specs) {
            AcceptedPrefix(start, pod.name, specs, i + 1);
          }
          return Failure(handle.error);
        }
        var h := handle.value;
        LaunchedRecords(before, machine, eff, images[specs[i].image], h);
        RecordsGrewMore(start, before, machine, AppIds(pod.name, specs[..i]), h.cid);
        AddOneMore(start, before, machine, eff, images[specs[i].image], added, h);
        added := added + [h];
      }
      assert specs[..|specs|] == specs;
      OwnIdsOwnHandles(start, pod.name, specs, added);
      return Success(added);
    }

    /** `stop_and_delete_task`: SIGTERM, delete, and if that fails SIGKILL and delete; then the container record. */
    method StopAndDeleteTask(cid: string, survivesTerm: bool)
      requires FreshKeys(machine)
      modifies this`machine
      ensures machine == old(machine).(
        tasks := old(machine).tasks - {cid}, containers := old(machine).containers - {cid})
      ensures FreshKeys(machine)
    {
      if cid in machine.tasks && !survivesTerm {
        machine := machine.(tasks := machine.tasks[cid := Stopped]);
      }
      var deleted := DeleteTask(cid);
      if !deleted && cid in machine.tasks {
        machine := machine.(tasks := machine.tasks[cid := Stopped]);
        deleted := DeleteTask(cid);
      }
      assert machine.tasks == old(machine).tasks - {cid};
      machine := machine.(containers := machine.containers - {cid});
    }

    /** The tasks.Delete RPC is refused while the process runs. */
    method DeleteTask(cid: string) returns (ok: bool)
      requires FreshKeys(machine)
      modifies this`machine
      ensures ok <==> cid in old(machine).tasks && old(machine).tasks[cid] == Stopped
      ensures machine == if ok then old(machine).(tasks := old(machine).tasks - {cid}) else old(machine)
    {
      ok := cid in machine.tasks && machine.tasks[cid] == Stopped;
      if ok {
        machine := machine.(tasks := machine.tasks - {cid});
      }
    }

    /** `_snap_remove_active`: errors are swallowed. */
    method SnapRemoveActive(snapshotter: string, key: Key)
      requires FreshKeys(machine)
      modifies this`machine
      ensures machine == old(machine).(stores := if snapshotter in old(machine).stores then
        old(machine).stores[snapshotter := old(machine).stores[snapshotter].(
          active := old(machine).stores[snapshotter].active - {key})] else old(machine).stores)
      ensures FreshKeys(machine)
    {
      if snapshotter in machine.stores {
        var reply := Remove(machine.stores[snapshotter], key);
        if reply.Success? {
          machine := machine.(stores := machine.stores[snapshotter := reply.value]);
        } else {
          assert machine.stores[snapshotter].active - {key} == machine.stores[snapshotter].active;
          assert machine.stores == machine.stores[snapshotter := machine.stores[snapshotter]];
        }
      }
    }

    /** `delete_container` */
    method DeleteContainer(app: Handle, stubborn: set<string>)
      requires Valid()
      modifies this`machine
      ensures Valid()
      ensures machine == Erased(old(machine), Effective(configured), app)
      ensures machine.containers == old(machine).containers - ({app.cid} - {""})
      ensures machine.tasks == old(machine).tasks - ({app.cid} - {""})
      ensures Deactivated(old(machine), machine, Effective(configured), {app.key})
      ensures machine.attachments == old(machine).attachments
    {
      ErasedIs(machine, Effective(configured), app);
      if app.cid != "" {
        StopAndDeleteTask(app.cid, app.cid in stubborn);
      }
      SnapRemoveActive(SnapshotterName(), app.key);
    }

    /** `delete_pod`: the apps, the CNI attachment, then the pause container. */
    method DeletePod(pod: Pod, apps: seq<Handle>, stubborn: set<string>)
      requires Valid()
      modifies this`machine
      ensures Valid()
      ensures machine == Deleted(old(machine), Effective(configured), pod, apps)
      ensures var ids := IdsOf(apps) + {pod.pause.cid} - {""};
        && machine.containers == old(machine).containers - ids && machine.tasks == old(machine).tasks - ids
        && machine.attachments == old(machine).attachments - (
             if pod.pause.cid != "" && pod.network != "" then {Attachment(pod.network, pod.pause.cid, pod.ifname)}
             else {})
      ensures Deactivated(old(machine), machine, Effective(configured), KeysOf(apps) + {pod.pause.key})
    {
      ghost var start := machine;
      DeletedIs(machine, Effective(configured), pod, apps);
      for i := 0 to |apps|
        invariant Valid()
        invariant EraseAll(start, Effective(configured), apps) == EraseAll(machine, Effective(configured), apps[i..])
      {
        DeleteContainer(apps[i], stubborn);
        assert apps[i..][1..] == apps[i + 1..];
      }
      if pod.pause.cid != "" && pod.network != "" {
        machine := machine.(attachments :=
          machine.attachments - {Attachment(pod.network, pod.pause.cid, pod.ifname)});
      }
      DeleteContainer(pod.pause, stubborn);
    }

    /**
     A whole pod life: create it, add containers, delete it with all of them.  It succeeds exactly when the pause
     container and every spec are accepted at the start.  Containers, tasks and active snapshots
     are as before; the attachments are as before exactly when the network name is not empty and the attachment was
     not there already, or, with an empty name, when ADD did not create one.
     */
    method PodLife(name: string, pauseImage: string, network: string, ifname: string, cniWorks: bool,
                   specs: seq<Spec>, stubborn: set<string>) returns (ok: bool)
      requires Valid()
      modifies this`machine, this`cache
      ensures Valid()
      ensures ok <==>
        && pauseImage in images && |images[pauseImage].layers| == |images[pauseImage].diffIds| > 0
        && Effective(configured) in old(machine).stores
        && name != "" && name !in old(machine).containers && name !in old(machine).tasks
        && (forall spec | spec in specs ::
              && spec.image in images && |images[spec.image].layers| == |images[spec.image].diffIds| > 0
              && name + "-" + spec.name !in old(machine).containers && name + "-" + spec.name !in old(machine).tasks)
        && forall i, j | 0 <= i < j < |specs| :: specs[i].name != specs[j].name
      ensures ok ==> AsBefore(old(machine), machine)
      ensures ok ==> var a := Attachment(network, name, ifname);
        machine.attachments == old(machine).attachments <==>
          if network != "" then a !in old(machine).attachments
          else cniWorks ==> a in old(machine).attachments
    {
      RefusalMeans(machine, name, pauseImage);
      AcceptedMeans(machine, name, specs);
      hide Over, Launched, AddsExactly, AsBefore, Refusal, AllAccepted, AppIds, Created, Deleted, Deactivated;
      ghost var m0, eff := machine, Effective(configured);
      var created := CreatePod(name, pauseImage, network, ifname, cniWorks);
      if created.Failure? {
        return false;
      }
      var pod := created.value;
      ghost var m1 := machine;
      CreatedRecords(m0, m1, eff, images[pauseImage], pod, cniWorks);
      PauseBlocksNothing(m0, m1, name, specs);
      AcceptedMeans(m1, name, specs);
      var apps := AddContainers(pod, specs);
      if apps.Failure? {
        return false;
      }
      ghost var m2 := machine;
      LifeRestores(m0, m1, m2, eff, images[pauseImage], pod, apps.value, cniWorks);
      DeletePod(pod, apps.value, stubborn);
      return true;
    }
  }

  lemma {:induction false} NoFaultsNoStop(c: Committed, image: Image, i: nat)
    requires i <= |image.diffIds|
    ensures Stop(c, image, NO_FAULTS, i) == |image.diffIds|
    decreases |image.diffIds| - i
  {
    if i < |image.diffIds| {
      NoFaultsNoStop(c, image, i + 1);
    }
  }

  /** The machine after unpacking an image into a snapshotter. */
  ghost predicate UnpackedInto(before: Machine, ready: Machine, snapshotter: string, image: Image) {
    && |image.layers| == |image.diffIds| > 0 && snapshotter in before.stores
    && ready.stores == before.stores[snapshotter := Store(
         Unpacked(before.stores[snapshotter].committed, image, |image.layers|), before.stores[snapshotter].active)]
  }

  lemma {:induction false} Ready(before: Machine, ready: Machine, snapshotter: string, image: Image)
    requires UnpackedInto(before, ready, snapshotter, image)
    ensures Accepts(ready, snapshotter, Name(image, |image.layers|))
  {
  }

  lemma {:induction false} PreparedIsHarmless(
    before: Machine, ready: Machine, snapshotter: string, key: Key, parent: ChainId)
    requires Harmless(before, ready) && Accepts(ready, snapshotter, parent) && key.uuid == ready.uuids
    ensures Harmless(before, WithKey(ready.(uuids := ready.uuids + 1), snapshotter, key, parent))
  {
  }

  /** Container and task records play no part in it. */
  lemma {:induction false} HarmlessRecords(before: Machine, prepared: Machine, after: Machine)
    requires Harmless(before, prepared)
    requires after == prepared.(containers := after.containers, tasks := after.tasks)
    ensures Harmless(before, after)
  {
  }

  lemma {:induction false} RecordedIsLaunched(
    before: Machine, ready: Machine, after: Machine, snapshotter: string, image: Image, h: Handle)
    requires UnpackedInto(before, ready, snapshotter, image) && before.uuids <= ready.uuids == h.key.uuid
    requires Accepts(ready, snapshotter, Name(image, |image.layers|)) && ready.attachments == before.attachments
    requires h.cid != "" && h.cid !in before.containers && h.cid !in before.tasks
    requires after == WithKey(ready.(uuids := ready.uuids + 1), snapshotter, h.key, Name(image, |image.layers|)).(
      containers := before.containers[h.cid := snapshotter], tasks := before.tasks[h.cid := Running])
    ensures Launched(before, after, snapshotter, image, h)
  {
    hide Unpacked, Name;
  }

  lemma {:induction false} HarmlessToWait(m: Machine)
    requires FreshKeys(m)
    ensures Harmless(m, m)
  {
  }

  lemma {:induction false} HarmlessInTurn(a: Machine, b: Machine, c: Machine)
    requires Harmless(a, b) && Harmless(b, c)
    ensures Harmless(a, c)
  {
  }

  lemma {:induction false} AddNone(m: Machine, snapshotter: string)
    ensures AddsExactly(m, m, snapshotter, [])
  {
    assert forall live: set<Handle> :: live + HandleSet([]) == live;
  }

  lemma {:induction false} OneMore(
    m0: Machine, before: Machine, after: Machine, snapshotter: string, image: Image, live: set<Handle>,
    added: seq<Handle>, h: Handle)
    requires FreshKeys(before) && Launched(before, after, snapshotter, image, h)
    requires Over(m0, before, snapshotter, live + HandleSet(added)) && live !! HandleSet(added)
    ensures Over(m0, after, snapshotter, live + HandleSet(added + [h])) && live !! HandleSet(added + [h])
  {
    var now := live + HandleSet(added);
    LaunchAdds(m0, before, after, snapshotter, image, now, h);
    assert live + HandleSet(added + [h]) == now + {h};
    assert h in live ==> h.cid in Cids(now);
  }

  lemma {:induction false} AddOneMore(
    start: Machine, before: Machine, after: Machine, snapshotter: string, image: Image, added: seq<Handle>, h: Handle)
    requires FreshKeys(before) && Launched(before, after, snapshotter, image, h)
    requires AddsExactly(start, before, snapshotter, added)
    ensures AddsExactly(start, after, snapshotter, added + [h])
  {
    hide Over, Launched;
    forall m0, live | Over(m0, start, snapshotter, live)
      ensures Over(m0, after, snapshotter, live + HandleSet(added + [h])) && live !! HandleSet(added + [h])
    {
      OneMore(m0, before, after, snapshotter, image, live, added, h);
    }
  }

  lemma {:induction false} CreatedAndAdded(
    m0: Machine, m1: Machine, m2: Machine, snapshotter: string, image: Image, pause: Handle, apps: seq<Handle>)
    requires FreshKeys(m0)
    requires Launched(m0, m1.(attachments := m0.attachments), snapshotter, image, pause)
    requires AddsExactly(m1, m2, snapshotter, apps)
    ensures Over(m0, m2, snapshotter, {pause} + HandleSet(apps)) && pause !in apps
  {
    NothingYet(m0, snapshotter);
    LaunchAdds(m0, m0, m1.(attachments := m0.attachments), snapshotter, image, {}, pause);
    assert {} + {pause} == {pause};
    assert Over(m0, m1, snapshotter, {pause});
    assert {pause} !! HandleSet(apps);
  }

  lemma {:induction false} LaunchedRecords(
    before: Machine, after: Machine, snapshotter: string, image: Image, h: Handle)
    requires Launched(before, after, snapshotter, image, h)
    ensures RecordsGrew(before, after, {h.cid})
  {
    hide WithContainer;
  }

  lemma {:induction false} RecordsGrewMore(a: Machine, b: Machine, c: Machine, ids: set<string>, id: string)
    requires RecordsGrew(a, b, ids) && RecordsGrew(b, c, {id})
    ensures RecordsGrew(a, c, ids + {id})
  {
  }

  lemma {:induction false} CreatedRecords(
    before: Machine, after: Machine, snapshotter: string, image: Image, pod: Pod, cniWorks: bool)
    requires Created(before, after, snapshotter, image, pod, cniWorks)
    ensures RecordsGrew(before, after, {pod.pause.cid})
  {
    LaunchedRecords(before, after.(attachments := before.attachments), snapshotter, image, pod.pause);
    hide Launched;
  }

  /** Creating a pod, adding apps and nothing else, and deleting it with them. */
  lemma {:induction false} LifeRestores(
    m0: Machine, m1: Machine, m2: Machine, snapshotter: string, image: Image, pod: Pod, apps: seq<Handle>,
    cniWorks: bool)
    requires FreshKeys(m0) && Created(m0, m1, snapshotter, image, pod, cniWorks)
    requires AddsExactly(m1, m2, snapshotter, apps) && m2.attachments == m1.attachments
    requires forall i, j | 0 <= i < j < |apps| :: apps[i] != apps[j]
    ensures var m3, a := Deleted(m2, snapshotter, pod, apps), Attachment(pod.network, pod.pause.cid, pod.ifname);
      && AsBefore(m0, m3)
      && (m3.attachments == m0.attachments <==>
            if pod.network != "" then a !in m0.attachments else cniWorks ==> a in m0.attachments)
  {
    hide Over, Launched, AddsExactly, AsBefore, Erased;
    CreatedAndAdded(m0, m1, m2, snapshotter, image, pod.pause, apps);
    DeleteRestores(m0, m2, snapshotter, pod.pause, apps);
    EraseAllKeepsAttachments(m2, snapshotter, apps);
    var erased := Erased(EraseAll(m2, snapshotter, apps), snapshotter, pod.pause);
    ErasedKeepsAttachments(EraseAll(m2, snapshotter, apps), snapshotter, pod.pause);
    AsBeforeIgnoresAttachments(m0, erased, Deleted(m2, snapshotter, pod, apps));
    LaunchedIsNamed(m0, m1, snapshotter, image, pod.pause);
  }

  lemma {:induction false} LaunchedIsNamed(m0: Machine, m1: Machine, snapshotter: string, image: Image, h: Handle)
    requires Launched(m0, m1.(attachments := m0.attachments), snapshotter, image, h)
    ensures h.cid != ""
  {
  }

  lemma {:induction false} AsBeforeIgnoresAttachments(m0: Machine, m: Machine, m': Machine)
    requires AsBefore(m0, m) && m' == m.(attachments := m'.attachments)
    ensures AsBefore(m0, m')
  {
  }
}
