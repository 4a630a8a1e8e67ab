/** One containerd snapshotter as an abstract store, and the snapshot RPCs as functions on it. */
module Snapshots {
  import opened Wrappers
  import opened ChainIds

  /** Keys end in a fresh uuid. */
  datatype Key = Key(hint: string, uuid: nat)

  datatype Snapshot = Snapshot(parent: Option<ChainId>, layers: seq<DiffId>)

  datatype Store = Store(committed: map<ChainId, Snapshot>, active: map<Key, Snapshot>)

  datatype Code = AlreadyExists | NotFound | Other

  /** diff_ids is what the config claims; layers is what each layer blob of the manifest really unpacks to. */
  datatype Image = Image(layers: seq<DiffId>, diffIds: seq<DiffId>)

  predicate Stat(s: Store, name: ChainId) {
    name in s.committed
  }

  predicate Present(s: Store, parent: Option<ChainId>) {
    parent.Some? ==> parent.value in s.committed
  }

  function Prepare(s: Store, key: Key, parent: Option<ChainId>): Result<Store, Code> {
    if key in s.active then Failure(AlreadyExists)
    else if !Present(s, parent) then Failure(NotFound)
    else
      var layers := if parent.Some? then s.committed[parent.value].layers else [];
      Success(s.(active := s.active[key := Snapshot(parent, layers)]))
  }

  /** Unpack one layer into the mounts of an active snapshot. */
  function Apply(s: Store, key: Key, layer: DiffId): Result<Store, Code> {
    if key !in s.active then Failure(NotFound)
    else Success(s.(active := s.active[key := s.active[key].(layers := s.active[key].layers + [layer])]))
  }

  function Commit(s: Store, name: ChainId, key: Key): Result<Store, Code> {
    if name in s.committed then Failure(AlreadyExists)
    else if key !in s.active then Failure(NotFound)
    else Success(Store(s.committed[name := s.active[key]], s.active - {key}))
  }

  function Remove(s: Store, key: Key): Result<Store, Code> {
    if key !in s.active then Failure(NotFound) else Success(s.(active := s.active - {key}))
  }

  /** The snapshot named by a chain id holds exactly the layers the id stands for, on top of its parent. */
  ghost predicate Sound(s: Store) {
    forall c | c in s.committed ::
      s.committed[c] == Snapshot(ParentOf(c), LayersOf(c)) && Present(s, ParentOf(c))
  }

  /** Nothing committed is lost or changed. */
  ghost predicate Grows(s: Store, t: Store) {
    forall c | c in s.committed :: c in t.committed && t.committed[c] == s.committed[c]
  }

  /** The whole chain of an image is there, every prefix with exactly its layers. */
  ghost predicate HasChain(s: Store, diffs: seq<DiffId>) {
    forall m | 1 <= m <= |diffs| ::
      ChainOf(diffs[..m]) in s.committed &&
      s.committed[ChainOf(diffs[..m])] == Snapshot(if m == 1 then None else Some(ChainOf(diffs[..m - 1])), diffs[..m])
  }

  lemma {:induction false} SoundHasChain(s: Store, diffs: seq<DiffId>)
    requires Sound(s) && diffs != [] && ChainOf(diffs) in s.committed
    ensures HasChain(s, diffs)
  {
    forall m | 1 <= m <= |diffs|
      ensures ChainOf(diffs[..m]) in s.committed
      ensures s.committed[ChainOf(diffs[..m])]
        == Snapshot(if m == 1 then None else Some(ChainOf(diffs[..m - 1])), diffs[..m])
    {
      PrefixCommitted(s, diffs, m);
      LayersOfChain(diffs[..m]);
      assert m > 1 ==> diffs[..m][..m - 1] == diffs[..m - 1];
    }
  }

  lemma {:induction false} PrefixCommitted(s: Store, diffs: seq<DiffId>, m: nat)
    requires Sound(s) && 1 <= m <= |diffs| && ChainOf(diffs) in s.committed
    ensures ChainOf(diffs[..m]) in s.committed
    decreases |diffs| - m
  {
    if m == |diffs| {
      assert diffs[..m] == diffs;
    } else {
      PrefixCommitted(s, diffs, m + 1);
      assert diffs[..m + 1][..m] == diffs[..m];
      assert ParentOf(ChainOf(diffs[..m + 1])) == Some(ChainOf(diffs[..m]));
    }
  }

  /** Committing a name with the content it stands for keeps the store sound. */
  lemma {:induction false} SoundAdd(s: Store, name: ChainId, active: map<Key, Snapshot>)
    requires Sound(s) && name !in s.committed && Present(s, ParentOf(name))
    ensures var t := Store(s.committed[name := Snapshot(ParentOf(name), LayersOf(name))], active);
      Sound(t) && Grows(s, t)
  {
  }

  lemma {:induction false} GrowsTransitive(s: Store, t: Store, u: Store)
    requires Grows(s, t) && Grows(t, u)
    ensures Grows(s, u)
  {
  }
}
