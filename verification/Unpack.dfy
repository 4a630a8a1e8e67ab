/** One `grpc_unpack` call on its own: what it commits, what it prepares, and what a retry has left to do. */
module Unpack {
  import opened Wrappers
  import opened ChainIds
  import opened Snapshots

  type Committed = map<ChainId, Snapshot>

  datatype Error = LengthMismatch | NoLayers | UnknownImage | NoSnapshotter | Rpc

  /** Layers at which Apply, or Commit (with something other than ALREADY_EXISTS), returns an error. */
  datatype Faults = Faults(apply: set<nat>, commit: set<nat>)

  const NO_FAULTS := Faults({}, {})

  function Name(image: Image, m: nat): ChainId
    requires 1 <= m <= |image.diffIds|
  {
    ChainOf(image.diffIds[..m])
  }

  function Before(image: Image, m: nat): Option<ChainId>
    requires m <= |image.diffIds|
  {
    if m == 0 then None else Some(Name(image, m))
  }

  /** The committed snapshots once the first m layers are dealt with. */
  function Unpacked(c: Committed, image: Image, m: nat): (r: Committed)
    requires m <= |image.diffIds| == |image.layers|
    ensures forall k | 1 <= k <= m :: Name(image, k) in r
    ensures forall name | name in c :: name in r && r[name] == c[name]
  {
    if m == 0 then c
    else
      var rest := Unpacked(c, image, m - 1);
      if Name(image, m) in rest then rest
      else
        rest[Name(image, m) := Layered(rest, image, m - 1)]
  }

  /** Layer i on top of its parent. */
  function Layered(c: Committed, image: Image, i: nat): Snapshot
    requires i < |image.diffIds| == |image.layers| && (i > 0 ==> Name(image, i) in c)
  {
    Snapshot(Before(image, i), (if i == 0 then [] else c[Name(image, i)].layers) + [image.layers[i]])
  }

  /** Layer i has no snapshot yet. */
  predicate Missing(c: Committed, image: Image, i: nat)
    requires i < |image.diffIds|
  {
    Name(image, i + 1) !in c
  }

  /** The first layer from i on at which the call raises, or the number of layers. */
  function Stop(c: Committed, image: Image, faults: Faults, i: nat): (stop: nat)
    requires i <= |image.diffIds|
    ensures i <= stop <= |image.diffIds|
    decreases |image.diffIds| - i
  {
    if i == |image.diffIds| || (Missing(c, image, i) && (i in faults.apply || i in faults.commit)) then i
    else Stop(c, image, faults, i + 1)
  }

  /** The layers below m that have no snapshot, in order. */
  function MissingBelow(c: Committed, image: Image, m: nat): seq<nat>
    requires m <= |image.diffIds|
  {
    if m == 0 then []
    else MissingBelow(c, image, m - 1) + if Missing(c, image, m - 1) then [m - 1] else []
  }

  /** Different prefixes have different names, so handling the first m layers says nothing about later ones. */
  lemma {:induction false} UnpackedOnlyAddsPrefixes(c: Committed, image: Image, m: nat, name: ChainId)
    requires m <= |image.diffIds| == |image.layers|
    requires forall k | 1 <= k <= m :: name != Name(image, k)
    ensures name in Unpacked(c, image, m) <==> name in c
  {
    if m > 0 {
      UnpackedOnlyAddsPrefixes(c, image, m - 1, name);
    }
  }

  lemma {:induction false} LaterLayersUntouched(c: Committed, image: Image, m: nat, i: nat)
    requires m <= i < |image.diffIds| == |image.layers|
    ensures Missing(Unpacked(c, image, m), image, i) == Missing(c, image, i)
  {
    forall k | 1 <= k <= m ensures Name(image, i + 1) != Name(image, k) {
      if Name(image, i + 1) == Name(image, k) {
        ChainIsInjective(image.diffIds[..i + 1], image.diffIds[..k]);
      }
    }
    UnpackedOnlyAddsPrefixes(c, image, m, Name(image, i + 1));
  }

  // ---------- idempotence and resumption ----------

  lemma {:induction false} NothingToUnpack(c: Committed, image: Image, m: nat)
    requires m <= |image.diffIds| == |image.layers| && forall k | 1 <= k <= m :: Name(image, k) in c
    ensures Unpacked(c, image, m) == c
  {
    if m > 0 {
      NothingToUnpack(c, image, m - 1);
    }
  }

  /** Carrying on from the first j layers is the same as not having stopped. */
  lemma {:induction false} UnpackedInTwoCalls(c: Committed, image: Image, j: nat, m: nat)
    requires j <= m <= |image.diffIds| == |image.layers|
    ensures Unpacked(Unpacked(c, image, j), image, m) == Unpacked(c, image, m)
  {
    hide Layered, Name;
    if m == j {
      NothingToUnpack(Unpacked(c, image, j), image, j);
    } else {
      UnpackedInTwoCalls(c, image, j, m - 1);
    }
  }

  /** A second call after a successful one finds every layer, whatever would have faulted, and changes nothing. */
  lemma {:induction false} SecondCallChangesNothing(c: Committed, image: Image, faults: Faults)
    requires |image.diffIds| == |image.layers|
    ensures var n, done := |image.diffIds|, Unpacked(c, image, |image.diffIds|);
      Stop(done, image, faults, 0) == n && Unpacked(done, image, n) == done && MissingBelow(done, image, n) == []
  {
    var n := |image.diffIds|;
    UnpackedInTwoCalls(c, image, n, n);
    NothingMissing(Unpacked(c, image, n), image, faults, 0);
    NothingMissingBelow(Unpacked(c, image, n), image, n);
  }

  lemma {:induction false} NothingMissing(c: Committed, image: Image, faults: Faults, i: nat)
    requires i <= |image.diffIds| && forall k | 0 <= k < |image.diffIds| :: !Missing(c, image, k)
    ensures Stop(c, image, faults, i) == |image.diffIds|
    decreases |image.diffIds| - i
  {
    if i < |image.diffIds| {
      NothingMissing(c, image, faults, i + 1);
    }
  }

  lemma {:induction false} NothingMissingBelow(c: Committed, image: Image, m: nat)
    requires m <= |image.diffIds| && forall k | 0 <= k < m :: !Missing(c, image, k)
    ensures MissingBelow(c, image, m) == []
  {
    if m > 0 {
      NothingMissingBelow(c, image, m - 1);
    }
  }

  lemma {:induction false} MissingMembers(c: Committed, image: Image, m: nat, k: nat)
    requires m <= |image.diffIds|
    ensures k in MissingBelow(c, image, m) <==> k < m && Missing(c, image, k)
  {
    if m > 0 {
      MissingMembers(c, image, m - 1, k);
    }
  }

  /** After a call that raised at layer i, a retry prepares only layers from i on and completes the same chain. */
  lemma {:induction false} RetryResumes(c: Committed, image: Image, faults: Faults, k: nat)
    requires |image.diffIds| == |image.layers|
    ensures var n, stop := |image.diffIds|, Stop(c, image, faults, 0);
      var left := Unpacked(c, image, stop);
      && (k in MissingBelow(left, image, n) <==> stop <= k < n && Missing(c, image, k))
      && Unpacked(left, image, n) == Unpacked(c, image, n)
  {
    var n, stop := |image.diffIds|, Stop(c, image, faults, 0);
    UnpackedInTwoCalls(c, image, stop, n);
    MissingMembers(Unpacked(c, image, stop), image, n, k);
    if stop <= k < n {
      LaterLayersUntouched(c, image, stop, k);
    } else if k < stop {
      assert Name(image, k + 1) in Unpacked(c, image, stop);
    }
  }

  /** What one more layer does to the snapshots: nothing to those there, and a missing one is made. */
  lemma {:induction false} OneLayerMore(c: Committed, image: Image, i: nat)
    requires i < |image.diffIds| == |image.layers|
    ensures var before, after := Unpacked(c, image, i), Unpacked(c, image, i + 1);
      && (forall name | name in before :: name in after && after[name] == before[name])
      && (Missing(c, image, i) ==>
            Name(image, i + 1) in after && after[Name(image, i + 1)] == Layered(before, image, i))
  {
    hide Name, Before, Layered;
    LaterLayersUntouched(c, image, i, i);
  }

  lemma {:induction false} NewSnapshotEndsInItsLayer(c: Committed, image: Image, m: nat, i: nat)
    requires i < m <= |image.diffIds| == |image.layers| && Missing(c, image, i)
    ensures var layers := Unpacked(c, image, m)[Name(image, i + 1)].layers;
      layers != [] && layers[|layers| - 1] == image.layers[i]
  {
    hide Name, Before, Unpacked, Missing;
    OneLayerMore(c, image, m - 1);
    if i < m - 1 {
      NewSnapshotEndsInItsLayer(c, image, m - 1, i);
    }
  }

  lemma {:induction false} NameMeaning(image: Image, m: nat)
    requires 1 <= m <= |image.diffIds|
    ensures ParentOf(Name(image, m)) == Before(image, m - 1)
    ensures LayersOf(Name(image, m))
      == (if m == 1 then [] else LayersOf(Name(image, m - 1))) + [image.diffIds[m - 1]]
  {
    var ds := image.diffIds;
    LayersOfChain(ds[..m]);
    assert ds[..m][..m - 1] == ds[..m - 1] && ds[..m] == ds[..m - 1] + [ds[m - 1]];
    if m > 1 {
      LayersOfChain(ds[..m - 1]);
    }
  }

  // ---------- the same, told by identifiers ----------

  lemma {:induction false} LayersNamed(c: Committed, image: Image, m: nat, i: nat)
    requires i < m <= |image.diffIds| == |image.layers|
    ensures var after, name := Unpacked(c, image, m), Name(image, i + 1);
      && name in after && (i > 0 ==> Name(image, i) in after)
      && after[name] ==
           if name in c then c[name]
           else Snapshot(Before(image, i), (if i == 0 then [] else after[Name(image, i)].layers) + [image.layers[i]])
  {
    hide Name, Unpacked, Before;
    OneLayerMore(c, image, m - 1);
    if i < m - 1 {
      LayersNamed(c, image, m - 1, i);
    }
  }

  /**
   After the first m layers each of them has its snapshot.  One that was there is there unchanged; a new one stands on
   the identifier of the layers before it, and holds that one's layers and its own.
   */
  lemma {:induction false} LayersAre(c: Committed, image: Image, m: nat, i: nat)
    requires i < m <= |image.diffIds| == |image.layers|
    ensures var after, diffs := Unpacked(c, image, m), image.diffIds;
      var name := ChainOf(diffs[..i + 1]);
      && name in after && (i > 0 ==> ChainOf(diffs[..i]) in after)
      && after[name] ==
           if name in c then c[name]
           else Snapshot(
             if i == 0 then None else Some(ChainOf(diffs[..i])),
             (if i == 0 then [] else after[ChainOf(diffs[..i])].layers) + [image.layers[i]])
  {
    LayersNamed(c, image, m, i);
    hide Unpacked, ChainOf;
  }

  /** Nothing else is added. */
  lemma {:induction false} OnlyLayers(c: Committed, image: Image, m: nat, name: ChainId) returns (k: nat)
    requires m <= |image.diffIds| == |image.layers| && name in Unpacked(c, image, m) && name !in c
    ensures 1 <= k <= m && name == ChainOf(image.diffIds[..k])
  {
    hide ChainOf, Layered;
    k := m;
    if m > 0 && name in Unpacked(c, image, m - 1) {
      k := OnlyLayers(c, image, m - 1, name);
    }
  }

  /** A call stops at the first layer that has no snapshot and faults. */
  lemma {:induction false} StopIsFirst(c: Committed, image: Image, faults: Faults, i: nat)
    requires i <= |image.diffIds|
    ensures var stop := Stop(c, image, faults, i);
      && (forall j | i <= j < stop ::
            ChainOf(image.diffIds[..j + 1]) in c || (j !in faults.apply && j !in faults.commit))
      && (stop < |image.diffIds| ==>
            ChainOf(image.diffIds[..stop + 1]) !in c && (stop in faults.apply || stop in faults.commit))
    decreases |image.diffIds| - i
  {
    hide ChainOf;
    if i < Stop(c, image, faults, i) {
      StopIsFirst(c, image, faults, i + 1);
    }
  }

  /** The layers that are prepared: those without a snapshot, in order. */
  lemma {:induction false} MissingInOrder(c: Committed, image: Image, m: nat, k: nat)
    requires m <= |image.diffIds|
    ensures k in MissingBelow(c, image, m) <==> k < m && ChainOf(image.diffIds[..k + 1]) !in c
    ensures var missing := MissingBelow(c, image, m);
      forall i, j | 0 <= i < j < |missing| :: missing[i] < missing[j]
  {
    MissingMembers(c, image, m, k);
    hide ChainOf, Missing;
    if m > 0 {
      MissingInOrder(c, image, m - 1, k);
      var front := MissingBelow(c, image, m - 1);
      forall i | 0 <= i < |front| ensures front[i] < m - 1 {
        MissingMembers(c, image, m - 1, front[i]);
      }
    }
  }

  // ---------- soundness, exactly when the new layers are what the config says ----------

  /** On a sound store, a layer that is what the config says makes the snapshot its name stands for. */
  lemma {:induction false} GoodLayerIsNamed(c: Committed, active: map<Key, Snapshot>, image: Image, i: nat)
    requires i < |image.diffIds| == |image.layers| && Sound(Store(c, active)) && (i > 0 ==> Name(image, i) in c)
    requires image.layers[i] == image.diffIds[i]
    ensures var name := Name(image, i + 1);
      Layered(c, image, i) == Snapshot(ParentOf(name), LayersOf(name)) && Present(Store(c, active), ParentOf(name))
  {
    NameMeaning(image, i + 1);
    hide Name, LayersOf, ParentOf;
    if i > 0 {
      assert Name(image, i) in Store(c, active).committed;
    }
  }

  lemma {:induction false} GoodLayersKeepSound(c: Committed, active: map<Key, Snapshot>, image: Image, m: nat)
    requires m <= |image.diffIds| == |image.layers| && Sound(Store(c, active))
    requires forall i | 0 <= i < m && Missing(c, image, i) :: image.layers[i] == image.diffIds[i]
    ensures Sound(Store(Unpacked(c, image, m), active))
  {
    hide Name, Sound, Layered;
    if m > 0 {
      GoodLayersKeepSound(c, active, image, m - 1);
      LaterLayersUntouched(c, image, m - 1, m - 1);
      var rest := Store(Unpacked(c, image, m - 1), active);
      if Name(image, m) !in rest.committed {
        GoodLayerIsNamed(rest.committed, active, image, m - 1);
        SoundAdd(rest, Name(image, m), active);
      }
    }
  }

  /** A layer that is not what the config says makes a snapshot that is not what its name stands for. */
  lemma {:induction false} BadLayerTaints(c: Committed, active: map<Key, Snapshot>, image: Image, m: nat, i: nat)
    requires i < m <= |image.diffIds| == |image.layers|
    requires Missing(c, image, i) && image.layers[i] != image.diffIds[i]
    ensures !Sound(Store(Unpacked(c, image, m), active))
  {
    var done, name := Unpacked(c, image, m), Name(image, i + 1);
    assert name in done;
    hide Name, Unpacked, Missing, Before, LayersOf, ParentOf;
    NewSnapshotEndsInItsLayer(c, image, m, i);
    NameMeaning(image, i + 1);
    assert LayersOf(name)[|LayersOf(name)| - 1] == image.diffIds[i];
    assert done[name].layers != LayersOf(name);
    assert name in Store(done, active).committed;
  }

  /**
   A completed call on a sound store leaves it sound if and only if every layer that was missing unpacks to the
   diff id the config gives it: the code passes that id along but never compares.
   */
  lemma {:induction false} SoundIffLayersMatch(c: Committed, active: map<Key, Snapshot>, image: Image)
    requires |image.diffIds| == |image.layers| && Sound(Store(c, active))
    ensures Sound(Store(Unpacked(c, image, |image.diffIds|), active)) <==>
      forall i | 0 <= i < |image.diffIds| && Missing(c, image, i) :: image.layers[i] == image.diffIds[i]
  {
    hide Sound, Unpacked, Missing;
    var n := |image.diffIds|;
    if forall i | 0 <= i < n && Missing(c, image, i) :: image.layers[i] == image.diffIds[i] {
      GoodLayersKeepSound(c, active, image, n);
    } else {
      var i :| 0 <= i < n && Missing(c, image, i) && image.layers[i] != image.diffIds[i];
      BadLayerTaints(c, active, image, n, i);
    }
  }

  /** Such an input: one layer that unpacks to something else than the config says. */
  lemma {:induction false} MislabelledLayerIsKept()
    ensures var image := Image(["delivered"], ["promised"]);
      && Sound(Store(map[], map[]))
      && Unpacked(map[], image, 1) == map[Base("promised") := Snapshot(None, ["delivered"])]
      && !Sound(Store(Unpacked(map[], image, 1), map[]))
  {
    var image := Image(["delivered"], ["promised"]);
    assert Name(image, 1) == Base("promised");
    assert Layered(map[], image, 0).layers == [] + ["delivered"] == ["delivered"];
    assert Unpacked(map[], image, 1) == Unpacked(map[], image, 0)[Base("promised") := Layered(map[], image, 0)];
  }

  /** The state of one snapshotter, updated in place by the call. */
  class Snapshotter {
    var store: Store
    var uuids: nat

    /** Keys in use carry uuids already drawn. */
    ghost predicate Valid()
      reads this
    {
      forall k | k in store.active :: k.uuid < uuids
    }

    constructor (initial: Store, drawn: nat)
      requires forall k | k in initial.active :: k.uuid < drawn
      ensures Valid() && store == initial && uuids == drawn
    {
      store, uuids := initial, drawn;
    }

    /** Prepare, Apply and Commit one missing layer. */
    method UnpackLayer(image: Image, i: nat, faults: Faults) returns (ok: bool)
      requires Valid()
      requires i < |image.diffIds| == |image.layers|
      requires Missing(store.committed, image, i) && (i > 0 ==> Name(image, i) in store.committed)
      modifies this
      ensures Valid() && old(uuids) <= uuids
      ensures ok <==> i !in faults.apply && i !in faults.commit
      ensures store.committed == old(
        if ok then store.committed[Name(image, i + 1) := Layered(store.committed, image, i)] else store.committed)
      ensures i !in faults.apply ==> store.active == old(store).active
      ensures i in faults.apply ==>
        exists key :: key !in old(store).active && store.active.Keys == old(store).active.Keys + {key}
    {
      var key := Key("unpack", uuids);
      uuids := uuids + 1;
      store := Prepare(store, key, Before(image, i)).value;
      if i in faults.apply {
        assert key !in old(store).active && store.active.Keys == old(store).active.Keys + {key};
        return false;
      }
      store := Apply(store, key, image.layers[i]).value;
      if i in faults.commit {
        store := Remove(store, key).value;
        assert store.active == old(store).active;
        return false;
      }
      store := Commit(store, Name(image, i + 1), key).value;
      assert store.active == old(store).active;
      return true;
    }

    /**
     `grpc_unpack`.  It stops at the first missing layer that faults; what was committed before stays.
     A failed Commit removes its key, a failed Apply leaves it.
     */
    method GrpcUnpack(image: Image, faults: Faults)
      returns (r: Result<Option<ChainId>, Error>, prepared: seq<nat>)
      requires Valid()
      modifies this
      ensures Valid() && old(uuids) <= uuids
      ensures |image.layers| != |image.diffIds| ==>
        r == Failure(LengthMismatch) && prepared == [] && store == old(store)
      ensures |image.layers| == |image.diffIds| ==>
        var n, stop := |image.diffIds|, Stop(old(store).committed, image, faults, 0);
        && r == (if stop == n then Success(Before(image, n)) else Failure(Rpc))
        && store.committed == Unpacked(old(store).committed, image, stop)
        && prepared == MissingBelow(old(store).committed, image, if stop == n then n else stop + 1)
        && (stop == n || stop !in faults.apply ==> store.active == old(store).active)
        && (stop < n && stop in faults.apply ==>
              exists key :: key !in old(store).active && store.active.Keys == old(store).active.Keys + {key})
    {
      hide Layered, ChainOf;
      prepared := [];
      if |image.diffIds| != |image.layers| {
        return Failure(LengthMismatch), prepared;
      }
      ghost var c := store.committed;
      var parent: Option<ChainId> := None;
      for i := 0 to |image.layers|
        invariant Valid() && old(uuids) <= uuids
        invariant store.committed == Unpacked(c, image, i)
        invariant store.active == old(store).active
        invariant parent == Before(image, i)
        invariant prepared == MissingBelow(c, image, i)
        invariant Stop(c, image, faults, 0) == Stop(c, image, faults, i)
      {
        var current := ChainOf(image.diffIds[..i + 1]);
        LaterLayersUntouched(c, image, i, i);
        if !Stat(store, current) {
          prepared := prepared + [i];
          var ok := UnpackLayer(image, i, faults);
          if !ok {
            return Failure(Rpc), prepared;
          }
        }
        parent := Some(current);
      }
      return Success(parent), prepared;
    }
  }
}
