/** Free addresses of a CIDR block (network/ip_address_interface.py), with addresses as numbers. */
module FreeIps {
  import opened Wrappers

  type Address = nat

  /** A block as written: an address and a prefix length. */
  datatype Cidr = Cidr(address: Address, prefix: nat)

  datatype ValueError = ValueError

  function Pow2(n: nat): (p: nat)
    ensures p > 0
  {
    if n == 0 then 1 else 2 * Pow2(n - 1)
  }

  function Size(c: Cidr): (size: nat)
    requires c.prefix <= 32
    ensures size > 0
  {
    Pow2(32 - c.prefix)
  }

  /** `ip_network` is strict: the prefix is at most 32, the address fits and has no host bits set. */
  predicate IsNetwork(c: Cidr) {
    c.prefix <= 32 && c.address % Size(c) == 0 && c.address + Size(c) <= Pow2(32)
  }

  /** The first host address and the one past the last: all of a /31 or /32, else without the first and last address. */
  function FirstHost(c: Cidr): Address {
    if c.prefix >= 31 then c.address else c.address + 1
  }

  function EndOfHosts(c: Cidr): Address
    requires c.prefix <= 32
  {
    if c.prefix >= 31 then c.address + Size(c) else c.address + Size(c) - 1
  }

  function Range(lo: nat, hi: nat): seq<nat>
    decreases hi - lo
  {
    if lo >= hi then [] else [lo] + Range(lo + 1, hi)
  }

  function Hosts(c: Cidr): seq<Address>
    requires c.prefix <= 32
  {
    Range(FirstHost(c), EndOfHosts(c))
  }

  function NotIn(s: seq<Address>, taken: set<Address>): seq<Address> {
    if s == [] then [] else (if s[0] in taken then [] else [s[0]]) + NotIn(s[1..], taken)
  }

  /** `s[:count]`, which counts from the end when the count is negative; no count keeps everything. */
  function UpTo<T>(s: seq<T>, count: Option<int>): seq<T> {
    match count
    case None => s
    case Some(n) =>
      if n >= |s| then s else if n >= 0 then s[..n] else if n + |s| >= 0 then s[..n + |s|] else []
  }

  /** `get_free_ips` */
  function GetFreeIps(c: Cidr, taken: set<Address>, count: Option<int>): Result<seq<Address>, ValueError> {
    if !IsNetwork(c) then Failure(ValueError.ValueError) else Success(UpTo(NotIn(Hosts(c), taken), count))
  }

  // ---------- what is returned ----------

  ghost predicate Ascending(s: seq<nat>) {
    forall i, j | 0 <= i < j < |s| :: s[i] < s[j]
  }

  lemma {:induction false} RangeIsInterval(lo: nat, hi: nat)
    ensures Ascending(Range(lo, hi)) && forall x: nat :: x in Range(lo, hi) <==> lo <= x < hi
    decreases hi - lo
  {
    if lo < hi {
      RangeIsInterval(lo + 1, hi);
      var rest := Range(lo + 1, hi);
      forall j | 0 <= j < |rest| ensures lo < rest[j] {
        assert rest[j] in rest;
      }
    }
  }

  lemma {:induction false} NotInFilters(s: seq<Address>, taken: set<Address>)
    requires Ascending(s)
    ensures Ascending(NotIn(s, taken)) && forall x: nat :: x in NotIn(s, taken) <==> x in s && x !in taken
  {
    if s != [] {
      NotInFilters(s[1..], taken);
      var rest := NotIn(s[1..], taken);
      assert s == [s[0]] + s[1..];
      forall j | 0 <= j < |rest| ensures s[0] < rest[j] {
        assert rest[j] in s[1..];
      }
    }
  }

  /** x is a host address of the block that is not allocated. */
  ghost predicate IsFree(c: Cidr, taken: set<Address>, x: Address)
    requires c.prefix <= 32
  {
    FirstHost(c) <= x < EndOfHosts(c) && x !in taken
  }

  /** All free addresses, in ascending order. */
  function Free(c: Cidr, taken: set<Address>): seq<Address>
    requires c.prefix <= 32
  {
    NotIn(Hosts(c), taken)
  }

  lemma {:induction false} FreeAreFree(c: Cidr, taken: set<Address>)
    requires c.prefix <= 32
    ensures Ascending(Free(c, taken)) && forall x: nat :: x in Free(c, taken) <==> IsFree(c, taken, x)
  {
    RangeIsInterval(FirstHost(c), EndOfHosts(c));
    NotInFilters(Hosts(c), taken);
  }

  lemma {:induction false} PowersOfTwo(n: nat)
    ensures Pow2(0) == 1 && Pow2(n + 1) == 2 * Pow2(n) && Pow2(8) == 256
  {
    assert Pow2(4) == 16 && Pow2(8) == 16 * Pow2(4);
  }

  /** A block is refused exactly when its prefix is too long, it has host bits set, or it does not fit into 32 bits. */
  lemma {:induction false} RefusedExactlyWhen(c: Cidr, taken: set<Address>, count: Option<int>)
    ensures GetFreeIps(c, taken, count) == Failure(ValueError.ValueError) <==>
      c.prefix > 32 || c.address % Pow2(32 - c.prefix) != 0 || c.address + Pow2(32 - c.prefix) > Pow2(32)
  {
  }

  /** Without a count: all free hosts, ascending.  Hosts are all addresses between the first and the last of a block,
      both of a /31, and the one of a /32. */
  lemma {:induction false} FreeListsTheFree(c: Cidr, taken: set<Address>)
    requires IsNetwork(c)
    ensures GetFreeIps(c, taken, None) == Success(Free(c, taken)) && Ascending(Free(c, taken))
    ensures forall x: nat :: x in Free(c, taken) <==>
      x !in taken &&
      if c.prefix == 32 then x == c.address
      else if c.prefix == 31 then x == c.address || x == c.address + 1
      else c.address < x < c.address + Pow2(32 - c.prefix) - 1
  {
    FreeAreFree(c, taken);
    assert Pow2(0) == 1 && Pow2(1) == 2;
  }

  /** A count below 0 drops that many from the end. */
  lemma {:induction false} NegativeCountDrops(c: Cidr, taken: set<Address>, count: int)
    requires IsNetwork(c) && count < 0
    ensures var free := Free(c, taken);
      GetFreeIps(c, taken, Some(count)) == Success(if |free| + count > 0 then free[..|free| + count] else [])
  {
  }

  /** For a count >= 0: ascending, free, as many as asked or all there are, and smaller than every free one left out. */
  lemma {:induction false} SmallestFreeOnes(c: Cidr, taken: set<Address>, count: nat)
    requires IsNetwork(c)
    ensures GetFreeIps(c, taken, Some(count)).Success?
    ensures var r, free := GetFreeIps(c, taken, Some(count)).value, |Free(c, taken)|;
      && |r| == (if count < free then count else free)
      && Ascending(r)
      && (forall x: nat | x in r :: IsFree(c, taken, x))
      && (forall x: nat, y: nat | x in r && IsFree(c, taken, y) && y !in r :: x < y)
  {
    FreeAreFree(c, taken);
    var all, r := Free(c, taken), GetFreeIps(c, taken, Some(count)).value;
    assert r <= all;
    forall x: nat, y: nat | x in r && IsFree(c, taken, y) && y !in r ensures x < y {
      assert y in all;
      var j :| 0 <= j < |all| && all[j] == y;
      var i :| 0 <= i < |r| && r[i] == x;
    }
  }

  // ---------- allocating again and again ----------

  /** Ask for each count in turn and record what was returned; the addresses handed out, in order. */
  function HandOut(c: Cidr, taken: set<Address>, counts: seq<nat>): seq<Address>
    requires IsNetwork(c)
    decreases |counts|
  {
    if counts == [] then []
    else
      var now := GetFreeIps(c, taken, Some(counts[0])).value;
      now + HandOut(c, taken + (set x | x in now), counts[1..])
  }

  function Total(counts: seq<nat>): nat {
    if counts == [] then 0 else counts[0] + Total(counts[1..])
  }

  /** Recording a prefix of the free list leaves the rest of it free. */
  lemma {:induction false} TakingAPrefix(s: seq<Address>, taken: set<Address>, n: nat)
    requires Ascending(s) && n <= |NotIn(s, taken)|
    ensures NotIn(s, taken + (set x | x in NotIn(s, taken)[..n])) == NotIn(s, taken)[n..]
  {
    var all := NotIn(s, taken);
    var more := taken + set x | x in all[..n];
    NotInFilters(s, taken);
    NotInFilters(s, more);
    forall x: nat ensures x in NotIn(s, more) <==> x in all[n..] {
      assert all == all[..n] + all[n..];
    }
    SameMembersSameList(NotIn(s, more), all[n..]);
  }

  lemma {:induction false} SameMembersSameList(s: seq<nat>, t: seq<nat>)
    requires Ascending(s) && Ascending(t) && forall x: nat :: x in s <==> x in t
    ensures s == t
  {
    assert s != [] ==> s[0] in t;
    assert t != [] ==> t[0] in s;
    if s != [] && t != [] {
      assert s[0] == t[0];
      forall x: nat ensures x in s[1..] <==> x in t[1..] {
        assert x in s <==> x in t;
        assert s == [s[0]] + s[1..] && t == [t[0]] + t[1..];
      }
      SameMembersSameList(s[1..], t[1..]);
    }
  }

  lemma {:induction false} RecordingAPrefix(c: Cidr, taken: set<Address>, n: nat)
    requires IsNetwork(c) && n <= |Free(c, taken)|
    ensures Free(c, taken + (set x | x in Free(c, taken)[..n])) == Free(c, taken)[n..]
  {
    hide Range, NotIn, FirstHost, EndOfHosts;
    RangeIsInterval(FirstHost(c), EndOfHosts(c));
    TakingAPrefix(Hosts(c), taken, n);
  }

  lemma {:induction false} HandOutStep(c: Cidr, taken: set<Address>, counts: seq<nat>) returns (n: nat)
    requires IsNetwork(c) && counts != []
    ensures var free := Free(c, taken);
      && n == (if counts[0] < |free| then counts[0] else |free|)
      && HandOut(c, taken, counts) == free[..n] + HandOut(c, taken + (set x | x in free[..n]), counts[1..])
  {
    hide NotIn, Hosts;
    var free := Free(c, taken);
    n := if counts[0] < |free| then counts[0] else |free|;
    assert GetFreeIps(c, taken, Some(counts[0])).value == free[..n];
  }

  lemma {:induction false} Rejoined<T>(s: seq<T>, n: nat, k: nat)
    requires n + k <= |s|
    ensures s[..n] + s[n..][..k] == s[..n + k]
  {
  }

  /**
   Over any run the addresses handed out are the free list of the start, cut at what was asked for in all: none is
   repeated, each is free, they come in ascending order, and asking for enough exhausts exactly the free hosts.
   */
  lemma {:induction false} HandOutIsThePrefix(c: Cidr, taken: set<Address>, counts: seq<nat>)
    requires IsNetwork(c)
    ensures var free, total := Free(c, taken), Total(counts);
      HandOut(c, taken, counts) == free[..if total < |free| then total else |free|]
    decreases |counts|
  {
    if counts != [] {
      var free := Free(c, taken);
      var n := HandOutStep(c, taken, counts);
      RecordingAPrefix(c, taken, n);
      hide HandOut, Free;
      HandOutIsThePrefix(c, taken + (set x | x in free[..n]), counts[1..]);
      var total := Total(counts[1..]);
      Rejoined(free, n, if total < |free| - n then total else |free| - n);
    }
  }

  /** How many hosts a block has: 2^(32-p) - 2, or all of them for /31 and /32. */
  lemma {:induction false} HostCount(c: Cidr)
    requires IsNetwork(c)
    ensures |Hosts(c)| == if c.prefix >= 31 then Size(c) else Size(c) - 2
    ensures c.prefix == 31 ==> |Hosts(c)| == 2
    ensures c.prefix == 32 ==> Hosts(c) == [c.address]
  {
    RangeLength(FirstHost(c), EndOfHosts(c));
    assert Pow2(0) == 1 && Pow2(1) == 2;
    if c.prefix < 31 {
      assert Pow2(32 - c.prefix) == 2 * Pow2(31 - c.prefix);
    }
  }

  lemma {:induction false} RangeLength(lo: nat, hi: nat)
    ensures |Range(lo, hi)| == if lo < hi then hi - lo else 0
    decreases hi - lo
  {
    if lo < hi {
      RangeLength(lo + 1, hi);
    }
  }
}
