/**
 Layer chain identifiers ("Layer ChainID", OCI Image Format Specification, image configuration), with the digest
 as a free constructor: the identifier of one layer is its diff id, that of more layers is a digest of the
 identifier of all but the last and the last diff id.
 */
module ChainIds {
  import opened Wrappers

  type DiffId = string

  datatype ChainId = Base(diff: DiffId) | Digest(chain: ChainId, diff: DiffId)

  /** The recurrence of the specification. */
  function ChainOf(diffs: seq<DiffId>): ChainId
    requires diffs != []
  {
    var last := |diffs| - 1;
    if last == 0 then Base(diffs[0]) else Digest(ChainOf(diffs[..last]), diffs[last])
  }

  /** The two clauses of the specification. */
  lemma {:induction false} ChainRecurrence(diffs: seq<DiffId>, last: DiffId)
    ensures ChainOf([last]) == Base(last)
    ensures diffs != [] ==> ChainOf(diffs + [last]) == Digest(ChainOf(diffs), last)
  {
    assert (diffs + [last])[..|diffs|] == diffs;
  }

  /** The layers an identifier stands for. */
  function LayersOf(chain: ChainId): (diffs: seq<DiffId>)
    ensures diffs != []
  {
    match chain
    case Base(d) => [d]
    case Digest(c, d) => LayersOf(c) + [d]
  }

  function ParentOf(chain: ChainId): Option<ChainId> {
    match chain
    case Base(_) => None
    case Digest(c, _) => Some(c)
  }

  /** `_compute_chain_id`; None is its ValueError. */
  method ComputeChainId(diffs: seq<DiffId>) returns (r: Option<ChainId>)
    ensures r == if diffs == [] then None else Some(ChainOf(diffs))
  {
    if diffs == [] {
      return None;
    }
    var chain := Base(diffs[0]);
    for i := 1 to |diffs|
      invariant chain == ChainOf(diffs[..i])
    {
      chain := Digest(chain, diffs[i]);
      assert diffs[..i + 1][..i] == diffs[..i];
    }
    assert diffs[..|diffs|] == diffs;
    return Some(chain);
  }

  /** Identifiers and non-empty layer lists are in one-to-one correspondence. */
  lemma {:induction false} LayersOfChain(diffs: seq<DiffId>)
    requires diffs != []
    ensures LayersOf(ChainOf(diffs)) == diffs
    ensures ParentOf(ChainOf(diffs)) == if |diffs| == 1 then None else Some(ChainOf(diffs[..|diffs| - 1]))
  {
    if |diffs| > 1 {
      LayersOfChain(diffs[..|diffs| - 1]);
      assert diffs == diffs[..|diffs| - 1] + [diffs[|diffs| - 1]];
    }
  }

  lemma {:induction false} ChainOfLayers(chain: ChainId)
    ensures ChainOf(LayersOf(chain)) == chain
  {
    match chain
    case Base(_) =>
    case Digest(c, d) =>
      ChainOfLayers(c);
      assert (LayersOf(c) + [d])[..|LayersOf(c)|] == LayersOf(c);
  }

  lemma {:induction false} ChainIsInjective(s: seq<DiffId>, t: seq<DiffId>)
    requires s != [] && t != [] && ChainOf(s) == ChainOf(t)
    ensures s == t
  {
    LayersOfChain(s);
    LayersOfChain(t);
  }
}
