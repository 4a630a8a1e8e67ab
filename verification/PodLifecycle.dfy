/**
 Pods on one machine: `create_pod`, `add_containers`, `delete_container`, `delete_pod`, with the snapshotter cache.
 RPCs succeed or fail on the state of the machine; a task may survive SIGTERM but not SIGKILL, and a CNI ADD may fail.
 */
module PodLifecycle {
  import opened Wrappers
  import opened ChainIds
  import opened Snapshots
  import opened Unpack

  datatype Task = Running | Stopped

  datatype Attachment = Attachment(network: string, cid: string, ifname: string)

  /** What containerd and CNI hold: per-snapshotter stores, containers (with their snapshotter), tasks, attachments. */
  datatype Machine = Machine(
    stores: map<string, Store>, containers: map<string, string>, tasks: map<string, Task>,
    attachments: set<Attachment>, uuids: nat)

  /** What is needed to delete a container: its id and its read-write snapshot key. */
  datatype Handle = Handle(cid: string, key: Key)

  datatype Pod = Pod(name: string, pause: Handle, network: string, ifname: string)

  function AttachmentOf(pod: Pod): Attachment {
    Attachment(pod.network, pod.pause.cid, pod.ifname)
  }

  datatype Spec = Spec(name: string, image: string)

  // ---------- snapshotter selection ----------

  /** `DEFAULT_SNAPSHOTTER or "overlayfs"` */
  function Effective(configured: string): string {
    if configured != "" then configured else "overlayfs"
  }

  function Dedupe(names: seq<string>): seq<string> {
    if names == [] then []
    else
      var front, last := names[..|names| - 1], names[|names| - 1];
      if last in front then Dedupe(front) else Dedupe(front) + [last]
  }

  function Qualified(names: seq<string>): seq<string> {
    seq(|names|, i requires 0 <= i < |names| => "io.containerd.snapshotter.v1." + names[i])
  }

  function Known(): seq<string> {
    ["overlayfs", "native", "btrfs", "zfs", "stargz"]
  }

  lemma {:induction false} KnownAre()
    ensures Known() == ["overlayfs", "native", "btrfs", "zfs", "stargz"]
    ensures forall i, j | 0 <= i < j < |Known()| :: Known()[i] != Known()[j]
  {
  }

  function Candidates(configured: string): seq<string> {
    var raw := Dedupe((if configured != "" then [configured] else []) + Known());
    raw + Qualified(raw)
  }

  /** Prepare on this snapshotter would succeed: it is known and the parent is committed there. */
  predicate Accepts(m: Machine, snapshotter: string, parent: ChainId) {
    snapshotter in m.stores && parent in m.stores[snapshotter].committed
  }

  function FirstAccepting(m: Machine, names: seq<string>, parent: ChainId): (first: Option<string>)
    ensures first.Some? ==> Accepts(m, first.value, parent)
  {
    if names == [] then None
    else if Accepts(m, names[0], parent) then Some(names[0])
    else FirstAccepting(m, names[1..], parent)
  }

  /** The snapshotter `prepare_rw_snapshot` ends up using: the cached one if it works, else the first that does. */
  function Chosen(m: Machine, cache: Option<string>, configured: string, parent: ChainId): (chosen: Option<string>)
    ensures chosen.Some? ==> Accepts(m, chosen.value, parent)
  {
    if cache.Some? && Accepts(m, cache.value, parent) then cache
    else FirstAccepting(m, Candidates(configured), parent)
  }

  predicate Agrees(cache: Option<string>, configured: string) {
    cache == None || cache == Some(Effective(configured))
  }

  lemma {:induction false} DedupeKeepsFirst(names: seq<string>)
    requires names != []
    ensures Dedupe(names) != [] && Dedupe(names)[0] == names[0]
  {
    if |names| > 1 {
      DedupeKeepsFirst(names[..|names| - 1]);
    } else {
      assert names[..0] == [];
    }
  }

  /** The first candidate is always the effective default. */
  lemma {:induction false} FirstCandidate(configured: string)
    ensures Candidates(configured) != [] && Candidates(configured)[0] == Effective(configured)
  {
    DedupeKeepsFirst((if configured != "" then [configured] else []) + Known());
  }

  lemma {:induction false} DedupeWithFirst(first: string, names: seq<string>)
    requires forall i, j | 0 <= i < j < |names| :: names[i] != names[j]
    ensures first !in names ==> Dedupe([first] + names) == [first] + names
    ensures forall k | 0 <= k < |names| && names[k] == first ::
      Dedupe([first] + names) == [first] + names[..k] + names[k + 1..]
  {
    if first !in names {
      DedupeDistinct([first] + names);
    }
    forall k | 0 <= k < |names| && names[k] == first
      ensures Dedupe([first] + names) == [first] + names[..k] + names[k + 1..]
    {
      DedupeRepeat(first, names, k);
    }
  }

  lemma {:induction false} DedupeRepeat(first: string, names: seq<string>, k: nat)
    requires forall i, j | 0 <= i < j < |names| :: names[i] != names[j]
    requires k < |names| && names[k] == first
    ensures Dedupe([first] + names) == [first] + names[..k] + names[k + 1..]
  {
    var front, last := names[..|names| - 1], names[|names| - 1];
    assert ([first] + names)[..|names|] == [first] + front && ([first] + names)[|names|] == last;
    if k == |names| - 1 {
      DedupeDistinct([first] + front);
      assert names[..k] == front && names[k + 1..] == [];
    } else {
      DedupeRepeat(first, front, k);
      assert names[..k] == front[..k] && names[k + 1..] == front[k + 1..] + [last];
      assert last !in [first] + front;
    }
  }

  lemma {:induction false} NamesAre(configured: string)
    ensures var names := Dedupe((if configured != "" then [configured] else []) + Known());
      && (configured == "" ==> names == Known())
      && (configured != "" && configured !in Known() ==> names == [configured] + Known())
      && (forall k | 0 <= k < |Known()| && Known()[k] == configured ::
            configured != "" ==> names == [configured] + Known()[..k] + Known()[k + 1..])
  {
    KnownAre();
    hide Known, Dedupe;
    if configured == "" {
      assert [] + Known() == Known();
      DedupeDistinct(Known());
    } else {
      DedupeWithFirst(configured, Known());
    }
  }

  lemma {:induction false} QualifiedFollow(names: seq<string>)
    ensures var all := names + Qualified(names);
      && |all| == 2 * |names| && all[..|names|] == names
      && forall i | 0 <= i < |names| :: all[|names| + i] == "io.containerd.snapshotter.v1." + all[i]
  {
  }

  /** The snapshotters that are tried: the configured one, then the five known ones, plain and then qualified. */
  lemma {:induction false} CandidatesAre(configured: string)
    ensures Known() == ["overlayfs", "native", "btrfs", "zfs", "stargz"]
    ensures var all, n := Candidates(configured), |Candidates(configured)| / 2;
      && |all| == 2 * n
      && (configured == "" ==> all[..n] == Known())
      && (configured != "" && configured !in Known() ==> all[..n] == [configured] + Known())
      && (forall k | 0 <= k < |Known()| && Known()[k] == configured ::
            configured != "" ==> all[..n] == [configured] + Known()[..k] + Known()[k + 1..])
      && forall i | 0 <= i < n :: all[n + i] == "io.containerd.snapshotter.v1." + all[i]
  {
    KnownAre();
    hide Known, Dedupe, Qualified;
    NamesAre(configured);
    QualifiedFollow(Dedupe((if configured != "" then [configured] else []) + Known()));
  }

  /** Without a configured snapshotter the default is overlayfs. */
  lemma {:induction false} DefaultIs(configured: string)
    ensures Effective(configured) == if |configured| == 0 then "overlayfs" else configured
  {
  }

  /** The cached snapshotter if it works, else the first candidate that does, where working means it has the parent. */
  lemma {:induction false} ChosenIs(
    m: Machine, cache: Option<string>, configured: string, parent: ChainId, name: string)
    ensures var all := Candidates(configured);
      var works := (s: string) => s in m.stores && parent in m.stores[s].committed;
      Chosen(m, cache, configured, parent) == Some(name) <==>
        if cache.Some? && works(cache.value) then name == cache.value
        else exists k :: 0 <= k < |all| && all[k] == name && works(name) && forall j | 0 <= j < k :: !works(all[j])
  {
    hide Candidates;
    FirstAcceptingIs(m, Candidates(configured), parent, name);
  }

  lemma {:induction false} FirstAcceptingIs(m: Machine, names: seq<string>, parent: ChainId, name: string)
    ensures FirstAccepting(m, names, parent) == Some(name) <==>
      exists k :: 0 <= k < |names| && names[k] == name && Accepts(m, name, parent) &&
        forall j | 0 <= j < k :: !Accepts(m, names[j], parent)
  {
    if names != [] {
      var rest := names[1..];
      FirstAcceptingIs(m, rest, parent, name);
      if Accepts(m, names[0], parent) {
        assert names[0] == name ==> names[0] == name && Accepts(m, name, parent);
      } else {
        forall k | 0 <= k < |rest| && rest[k] == name && Accepts(m, name, parent) &&
          forall j | 0 <= j < k :: !Accepts(m, rest[j], parent)
          ensures names[k + 1] == name && forall j | 0 <= j < k + 1 :: !Accepts(m, names[j], parent)
        {
          assert forall j | 0 < j < k + 1 :: names[j] == rest[j - 1];
        }
        forall k | 0 <= k < |names| && names[k] == name && Accepts(m, name, parent) &&
          forall j | 0 <= j < k :: !Accepts(m, names[j], parent)
          ensures k > 0 && rest[k - 1] == name && forall j | 0 <= j < k - 1 :: !Accepts(m, rest[j], parent)
        {
          assert forall j | 0 <= j < k - 1 :: rest[j] == names[j + 1];
        }
      }
    }
  }

  /**
   From an agreeing cache, the choice keeps agreeing exactly when the effective default accepts the parent or no
   candidate does; otherwise the cache moves away from the snapshotter that deletes will use.
   */
  lemma {:induction false} ChoiceAgreesExactlyWhen(
    m: Machine, cache: Option<string>, configured: string, parent: ChainId)
    requires Agrees(cache, configured)
    ensures Agrees(Chosen(m, cache, configured, parent), configured) <==>
      || Accepts(m, Effective(configured), parent)
      || forall name | name in Candidates(configured) :: !Accepts(m, name, parent)
    ensures Accepts(m, Effective(configured), parent) ==>
      Chosen(m, cache, configured, parent) == Some(Effective(configured))
  {
    hide Candidates, Accepts;
    FirstCandidate(configured);
    NoneAcceptsExactlyWhen(m, Candidates(configured), parent);
  }

  lemma {:induction false} NoneAcceptsExactlyWhen(m: Machine, names: seq<string>, parent: ChainId)
    ensures FirstAccepting(m, names, parent) == None <==> forall name | name in names :: !Accepts(m, name, parent)
  {
    if names != [] {
      NoneAcceptsExactlyWhen(m, names[1..], parent);
      assert names == [names[0]] + names[1..];
    }
  }

  /** A machine on which the cache moves: only the native snapshotter knows the parent. */
  lemma {:induction false} CacheCanMove(parent: ChainId, content: Snapshot)
    ensures var stores := map["overlayfs" := Store(map[], map[]), "native" := Store(map[parent := content], map[])];
      var m := Machine(stores, map[], map[], {}, 0);
      Agrees(None, "") && Chosen(m, None, "", parent) == Some("native") && !Agrees(Some("native"), "")
  {
    var stores := map["overlayfs" := Store(map[], map[]), "native" := Store(map[parent := content], map[])];
    var m := Machine(stores, map[], map[], {}, 0);
    var names, builtIn := Candidates(""), ["overlayfs", "native", "btrfs", "zfs", "stargz"];
    DedupeDistinct(builtIn);
    assert [] + builtIn == builtIn;
    assert names[0] == "overlayfs" && names[1] == "native" && names[1..][0] == "native";
    assert FirstAccepting(m, names, parent) == FirstAccepting(m, names[1..], parent) == Some("native");
  }

  lemma {:induction false} DedupeDistinct(names: seq<string>)
    requires forall i, j | 0 <= i < j < |names| :: names[i] != names[j]
    ensures Dedupe(names) == names
  {
    if names != [] {
      DedupeDistinct(names[..|names| - 1]);
      assert names == names[..|names| - 1] + [names[|names| - 1]];
    }
  }

  // ---------- resources ----------

  ghost predicate FreshKeys(m: Machine) {
    forall s, k | s in m.stores && k in m.stores[s].active :: k.uuid < m.uuids
  }

  /** One container more: its records, its task, its snapshot key on the given snapshotter, and the image's layers. */
  ghost predicate Launched(before: Machine, after: Machine, snapshotter: string, image: Image, h: Handle) {
    && h.cid != "" && h.cid !in before.containers && h.cid !in before.tasks
    && after.containers == before.containers[h.cid := snapshotter]
    && after.tasks == before.tasks[h.cid := Running]
    && after.attachments == before.attachments
    && |image.layers| == |image.diffIds| > 0
    && snapshotter in before.stores
    && before.uuids <= h.key.uuid < after.uuids
    && after.stores == before.stores[snapshotter := WithContainer(before.stores[snapshotter], image, h.key)]
  }

  /** The image unpacked, and a read-write snapshot on top of its chain. */
  function WithContainer(s: Store, image: Image, key: Key): Store
    requires |image.layers| == |image.diffIds| > 0
  {
    var committed := Unpacked(s.committed, image, |image.layers|);
    var chain := Name(image, |image.layers|);
    Store(committed, s.active[key := Snapshot(Some(chain), committed[chain].layers)])
  }

  /** One container less. */
  function Erased(m: Machine, snapshotter: string, h: Handle): Machine {
    m.(containers := if h.cid == "" then m.containers else m.containers - {h.cid},
       tasks := if h.cid == "" then m.tasks else m.tasks - {h.cid},
       stores := if snapshotter in m.stores then
                   m.stores[snapshotter := m.stores[snapshotter].(active := m.stores[snapshotter].active - {h.key})]
                 else m.stores)
  }

  function EraseAll(m: Machine, snapshotter: string, hs: seq<Handle>): Machine
    decreases |hs|
  {
    if hs == [] then m else EraseAll(Erased(m, snapshotter, hs[0]), snapshotter, hs[1..])
  }

  ghost predicate DistinctHandles(live: set<Handle>) {
    && (forall h | h in live :: h.cid != "")
    && forall g, h | g in live && h in live && g != h :: g.cid != h.cid && g.key != h.key
  }

  ghost function Cids(live: set<Handle>): set<string> { set h | h in live :: h.cid }

  ghost function Keys(live: set<Handle>): set<Key> { set h | h in live :: h.key }

  ghost function HandleSet(hs: seq<Handle>): set<Handle> { set h | h in hs }

  lemma {:induction false} HandleSetHead(hs: seq<Handle>)
    requires hs != []
    ensures HandleSet(hs) == {hs[0]} + HandleSet(hs[1..])
  {
    assert hs == [hs[0]] + hs[1..];
  }

  /** r is r0 with some extra keys. */
  ghost predicate RecordsOver<K, V>(r0: map<K, V>, r: map<K, V>, extra: set<K>) {
    && extra !! r0.Keys
    && r.Keys == r0.Keys + extra
    && forall k | k in r0 :: r[k] == r0[k]
  }

  lemma {:induction false} RecordsAdd<K, V>(r0: map<K, V>, r: map<K, V>, extra: set<K>, k: K, v: V)
    requires RecordsOver(r0, r, extra) && k !in r
    ensures RecordsOver(r0, r[k := v], extra + {k})
  {
  }

  lemma {:induction false} RecordsDrop<K, V>(r0: map<K, V>, r: map<K, V>, extra: set<K>, k: K)
    requires RecordsOver(r0, r, extra) && k in extra
    ensures RecordsOver(r0, r - {k}, extra - {k})
  {
  }

  /** One snapshotter's store grew by layers and has the active snapshots of s0 and exactly the extra keys. */
  ghost predicate StoreOver(s0: Store, s: Store, extra: set<Key>) {
    Grows(s0, s) && RecordsOver(s0.active, s.active, extra)
  }

  ghost predicate StoresOver(t0: map<string, Store>, t: map<string, Store>, snapshotter: string, extra: set<Key>) {
    && t.Keys == t0.Keys
    && (forall s | s in t0 && s != snapshotter :: t[s] == t0[s])
    && (if snapshotter in t0 then StoreOver(t0[snapshotter], t[snapshotter], extra) else extra == {})
  }

  /** m holds what m0 held plus exactly the containers, tasks and keys of the live handles, and maybe more layers. */
  ghost predicate Over(m0: Machine, m: Machine, snapshotter: string, live: set<Handle>) {
    && DistinctHandles(live)
    && RecordsOver(m0.containers, m.containers, Cids(live))
    && RecordsOver(m0.tasks, m.tasks, Cids(live))
    && StoresOver(m0.stores, m.stores, snapshotter, Keys(live))
  }

  lemma {:induction false} LiveAdd(live: set<Handle>, h: Handle)
    requires DistinctHandles(live) && h.cid != "" && h.cid !in Cids(live) && h.key !in Keys(live)
    ensures DistinctHandles(live + {h})
    ensures Cids(live + {h}) == Cids(live) + {h.cid} && Keys(live + {h}) == Keys(live) + {h.key}
  {
    forall g | g in live ensures g.cid != h.cid && g.key != h.key {
      assert g.cid in Cids(live) && g.key in Keys(live);
    }
  }

  lemma {:induction false} LiveDrop(live: set<Handle>, h: Handle)
    requires DistinctHandles(live) && h in live
    ensures DistinctHandles(live - {h})
    ensures Cids(live - {h}) == Cids(live) - {h.cid} && Keys(live - {h}) == Keys(live) - {h.key}
    ensures h.cid in Cids(live) && h.key in Keys(live)
  {
  }

  /** A launch adds exactly its handle to what is live. */
  lemma {:induction false} LaunchAdds(
    m0: Machine, before: Machine, after: Machine, snapshotter: string, image: Image, live: set<Handle>, h: Handle)
    requires FreshKeys(before)
    requires Over(m0, before, snapshotter, live) && Launched(before, after, snapshotter, image, h)
    ensures Over(m0, after, snapshotter, live + {h})
  {
    LiveAdd(live, h);
    RecordsAdd(m0.containers, before.containers, Cids(live), h.cid, snapshotter);
    RecordsAdd(m0.tasks, before.tasks, Cids(live), h.cid, Running);
    var s, chain := before.stores[snapshotter], Name(image, |image.layers|);
    assert h.key !in s.active;
    var t := WithContainer(s, image, h.key);
    RecordsAdd(m0.stores[snapshotter].active, s.active, Keys(live), h.key, t.active[h.key]);
    GrowsTransitive(m0.stores[snapshotter], s, t);
  }

  /** A deletion takes exactly its handle away, whatever else is live. */
  lemma {:induction false} EraseRemoves(m0: Machine, m: Machine, snapshotter: string, live: set<Handle>, h: Handle)
    requires Over(m0, m, snapshotter, live) && h in live
    ensures Over(m0, Erased(m, snapshotter, h), snapshotter, live - {h})
  {
    LiveDrop(live, h);
    RecordsDrop(m0.containers, m.containers, Cids(live), h.cid);
    RecordsDrop(m0.tasks, m.tasks, Cids(live), h.cid);
    RecordsDrop(m0.stores[snapshotter].active, m.stores[snapshotter].active, Keys(live), h.key);
  }

  /** Containers, tasks and active snapshots are as they were; committed layers may have been added. */
  ghost predicate AsBefore(m0: Machine, m: Machine) {
    && m.containers == m0.containers && m.tasks == m0.tasks && m.stores.Keys == m0.stores.Keys
    && forall s | s in m0.stores :: Grows(m0.stores[s], m.stores[s]) && m.stores[s].active == m0.stores[s].active
  }

  lemma {:induction false} NothingLive(m0: Machine, m: Machine, snapshotter: string)
    requires Over(m0, m, snapshotter, {})
    ensures AsBefore(m0, m)
  {
    assert Cids({}) == {} && Keys({}) == {};
  }

  lemma {:induction false} EraseAllRemoves(
    m0: Machine, m: Machine, snapshotter: string, live: set<Handle>, hs: seq<Handle>)
    requires Over(m0, m, snapshotter, live) && HandleSet(hs) <= live
    requires forall i, j | 0 <= i < j < |hs| :: hs[i] != hs[j]
    ensures Over(m0, EraseAll(m, snapshotter, hs), snapshotter, live - HandleSet(hs))
    decreases |hs|
  {
    hide Over, Erased;
    if hs == [] {
      assert live - HandleSet([]) == live;
    } else {
      HandleSetHead(hs);
      assert hs[0] !in HandleSet(hs[1..]);
      EraseRemoves(m0, m, snapshotter, live, hs[0]);
      EraseAllRemoves(m0, Erased(m, snapshotter, hs[0]), snapshotter, live - {hs[0]}, hs[1..]);
      assert live - HandleSet(hs) == live - {hs[0]} - HandleSet(hs[1..]);
    }
  }

  lemma {:induction false} NothingYet(m: Machine, snapshotter: string)
    ensures Over(m, m, snapshotter, {})
  {
    assert Cids({}) == {} && Keys({}) == {};
  }

  /** Deleting a pod with all its apps, when nothing else was launched since m0, restores m0. */
  lemma {:induction false} DeleteRestores(
    m0: Machine, m: Machine, snapshotter: string, pause: Handle, apps: seq<Handle>)
    requires Over(m0, m, snapshotter, {pause} + HandleSet(apps))
    requires pause !in apps && forall i, j | 0 <= i < j < |apps| :: apps[i] != apps[j]
    ensures AsBefore(m0, Erased(EraseAll(m, snapshotter, apps), snapshotter, pause))
  {
    var live := {pause} + HandleSet(apps);
    EraseAllRemoves(m0, m, snapshotter, live, apps);
    assert live - HandleSet(apps) == {pause};
    EraseRemoves(m0, EraseAll(m, snapshotter, apps), snapshotter, {pause}, pause);
    assert {pause} - {pause} == {};
    NothingLive(m0, Erased(EraseAll(m, snapshotter, apps), snapshotter, pause), snapshotter);
  }

  // ---------- whole operations on pods ----------

  /** The pause container launched and, if ADD works, the attachment made. */
  ghost predicate Created(
    before: Machine, after: Machine, snapshotter: string, image: Image, pod: Pod, cniWorks: bool)
  {
    && Launched(before, after.(attachments := before.attachments), snapshotter, image, pod.pause)
    && after.attachments == before.attachments + (if cniWorks then {AttachmentOf(pod)} else {})
  }

  /** The apps, the attachment and the pause container gone; DEL is skipped for an empty network or container name. */
  function Deleted(m: Machine, snapshotter: string, pod: Pod, apps: seq<Handle>): Machine {
    var all := Erased(EraseAll(m, snapshotter, apps), snapshotter, pod.pause);
    if pod.pause.cid != "" && pod.network != "" then
      all.(attachments := all.attachments - {AttachmentOf(pod)})
    else all
  }

  lemma {:induction false} EraseAllKeepsAttachments(m: Machine, snapshotter: string, hs: seq<Handle>)
    ensures EraseAll(m, snapshotter, hs).attachments == m.attachments
    decreases |hs|
  {
    if hs != [] {
      EraseAllKeepsAttachments(Erased(m, snapshotter, hs[0]), snapshotter, hs[1..]);
    }
  }

  lemma {:induction false} EraseAllKeepsFresh(m: Machine, snapshotter: string, hs: seq<Handle>)
    requires FreshKeys(m)
    ensures FreshKeys(EraseAll(m, snapshotter, hs))
    decreases |hs|
  {
    if hs != [] {
      EraseAllKeepsFresh(Erased(m, snapshotter, hs[0]), snapshotter, hs[1..]);
    }
  }

  lemma {:induction false} ErasedKeepsAttachments(m: Machine, snapshotter: string, h: Handle)
    ensures Erased(m, snapshotter, h).attachments == m.attachments
  {
  }

  // ---------- the same, told by what is there ----------

  /** These keys are no longer active on one snapshotter, and nothing else about the snapshots is different. */
  ghost predicate Deactivated(before: Machine, after: Machine, snapshotter: string, keys: set<Key>) {
    && after.stores.Keys == before.stores.Keys
    && forall s | s in before.stores ::
         && after.stores[s].committed == before.stores[s].committed
         && after.stores[s].active == before.stores[s].active - if s == snapshotter then keys else {}
  }

  lemma {:induction false} ErasedIs(m: Machine, snapshotter: string, h: Handle)
    ensures var after := Erased(m, snapshotter, h);
      && after.containers == m.containers - ({h.cid} - {""}) && after.tasks == m.tasks - ({h.cid} - {""})
      && after.attachments == m.attachments && Deactivated(m, after, snapshotter, {h.key})
  {
  }

  lemma {:induction false} DeactivatedTwice(
    a: Machine, b: Machine, c: Machine, snapshotter: string, first: set<Key>, second: set<Key>)
    requires Deactivated(a, b, snapshotter, first) && Deactivated(b, c, snapshotter, second)
    ensures Deactivated(a, c, snapshotter, first + second)
  {
  }

  ghost function IdsOf(hs: seq<Handle>): set<string> { set h | h in hs :: h.cid }

  ghost function KeysOf(hs: seq<Handle>): set<Key> { set h | h in hs :: h.key }

  lemma {:induction false} FirstOf(hs: seq<Handle>)
    requires hs != []
    ensures IdsOf(hs) == {hs[0].cid} + IdsOf(hs[1..]) && KeysOf(hs) == {hs[0].key} + KeysOf(hs[1..])
  {
    assert hs == [hs[0]] + hs[1..];
  }

  lemma {:induction false} EraseAllIs(m: Machine, snapshotter: string, hs: seq<Handle>)
    ensures var after := EraseAll(m, snapshotter, hs);
      && after.containers == m.containers - (IdsOf(hs) - {""}) && after.tasks == m.tasks - (IdsOf(hs) - {""})
      && after.attachments == m.attachments && Deactivated(m, after, snapshotter, KeysOf(hs))
    decreases |hs|
  {
    if hs == [] {
      assert IdsOf(hs) == {} && KeysOf(hs) == {};
    } else {
      hide Erased, Deactivated, IdsOf, KeysOf;
      var next := Erased(m, snapshotter, hs[0]);
      FirstOf(hs);
      ErasedIs(m, snapshotter, hs[0]);
      EraseAllIs(next, snapshotter, hs[1..]);
      DeactivatedTwice(m, next, EraseAll(m, snapshotter, hs), snapshotter, {hs[0].key}, KeysOf(hs[1..]));
    }
  }

  /** A deletion of a pod: exactly the named ids, keys and the attachment are gone. */
  lemma {:induction false} DeletedIs(m: Machine, snapshotter: string, pod: Pod, apps: seq<Handle>)
    ensures var after := Deleted(m, snapshotter, pod, apps);
      var ids := IdsOf(apps) + {pod.pause.cid} - {""};
      && after.containers == m.containers - ids && after.tasks == m.tasks - ids
      && after.attachments == m.attachments - (
           if pod.pause.cid != "" && pod.network != "" then {Attachment(pod.network, pod.pause.cid, pod.ifname)}
           else {})
      && Deactivated(m, after, snapshotter, KeysOf(apps) + {pod.pause.key})
  {
    var erased := EraseAll(m, snapshotter, apps);
    var last := Erased(erased, snapshotter, pod.pause);
    EraseAllIs(m, snapshotter, apps);
    ErasedIs(erased, snapshotter, pod.pause);
    hide EraseAll, Erased, IdsOf, KeysOf;
    DeactivatedTwice(m, erased, last, snapshotter, KeysOf(apps), {pod.pause.key});
  }

  /** A launch. */
  lemma {:induction false} LaunchedExactly(
    before: Machine, after: Machine, snapshotter: string, image: Image, h: Handle)
    ensures Launched(before, after, snapshotter, image, h) <==>
      && |image.layers| == |image.diffIds| > 0 && snapshotter in before.stores
      && h.cid != "" && h.cid !in before.containers && h.cid !in before.tasks
      && before.uuids <= h.key.uuid < after.uuids
      && after.containers == before.containers[h.cid := snapshotter]
      && after.tasks == before.tasks[h.cid := Running]
      && after.attachments == before.attachments
      && var committed, top := Unpacked(before.stores[snapshotter].committed, image, |image.layers|),
                               ChainOf(image.diffIds);
         top in committed &&
         after.stores == before.stores[snapshotter := Store(
           committed, before.stores[snapshotter].active[h.key := Snapshot(Some(top), committed[top].layers)])]
  {
    assert image.diffIds[..|image.diffIds|] == image.diffIds;
  }
}
