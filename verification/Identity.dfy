/** Request identity: the wrapping id allocator and the set of live ids. */
module Identity {
  import opened LittleEndian
  import opened Wrappers

  /** The number of ids that name a request: every 64-bit value but the reserved 0. */
  const IDS: nat := 0xFFFF_FFFF_FFFF_FFFF

  function Successor(id: U64): U64 {
    if id == 0xFFFF_FFFF_FFFF_FFFF then 1 else id + 1
  }

  /** The id an allocation starting at `next` hands out. */
  function Handed(next: U64): U64 {
    if next == 0 then 1 else next
  }

  /** The `k`-th id handed out, counted from 0. */
  function Nth(start: U64, k: nat): U64 {
    if k == 0 then Handed(start) else Successor(Nth(start, k - 1))
  }

  class RequestIdAllocator {
    var next: U64

    constructor (start: U64)
      ensures next == start
    {
      next := start;
    }

    method Allocate() returns (id: U64)
      modifies this
      ensures id == Handed(old(next)) && next == Successor(id)
      ensures forall k: nat :: Nth(next, k) == Nth(old(next), k + 1)
    {
      if next == 0 { next := 1; }
      id := next;
      var advanced := (next + 1) % 0x1_0000_0000_0000_0000;
      next := if advanced == 0 then 1 else advanced;
      forall k: nat ensures Nth(next, k) == Nth(old(next), k + 1) { Shift(old(next), k); }
    }
  }

  lemma {:induction false} Shift(start: U64, k: nat)
    ensures Nth(Successor(Handed(start)), k) == Nth(start, k + 1)
  {
    if k > 0 { Shift(start, k - 1); }
  }

  /** The `k`-th id in closed form: ids count through all nonzero values and start over. */
  lemma {:induction false} ClosedForm(start: U64, k: nat)
    ensures Nth(start, k) == 1 + (Handed(start) - 1 + k) % IDS
  {
    if k > 0 { ClosedForm(start, k - 1); }
  }

  /** No allocation hands out the reserved id, and fewer than `IDS` allocations never repeat one. */
  lemma NeverRepeats(start: U64, i: nat, j: nat)
    requires i < j <= i + IDS
    ensures Nth(start, i) != 0
    ensures Nth(start, i) == Nth(start, j) <==> j == i + IDS
  {
    ClosedForm(start, i);
    ClosedForm(start, j);
    var n, step := Handed(start) - 1 + i, j - i;
    assert Handed(start) - 1 + j == n + step;
    Wraps(n, step);
  }

  /** Two allocations hand out one id if and only if they lie a multiple of `IDS` apart. */
  lemma SameIdExactly(start: U64, i: nat, j: nat)
    requires i <= j
    ensures Nth(start, i) == Nth(start, j) <==> (j - i) % IDS == 0
  {
    ClosedForm(start, i);
    ClosedForm(start, j);
    var n, step := Handed(start) - 1 + i, j - i;
    assert Handed(start) - 1 + j == n + step;
    SameResidue(n, step);
  }

  lemma SameResidue(n: nat, step: nat)
    ensures (n + step) % IDS == n % IDS <==> step % IDS == 0
  {
    var q, r, e, f := n / IDS, n % IDS, step / IDS, step % IDS;
    assert n == q * IDS + r && step == e * IDS + f;
    assert n + step == (q + e) * IDS + (r + f);
    if r + f < IDS {
      Residue(n + step, q + e, r + f);
    } else {
      assert n + step == (q + e + 1) * IDS + (r + f - IDS);
      Residue(n + step, q + e + 1, r + f - IDS);
    }
  }

  /** A step of fewer than `IDS` moves a residue; a step of `IDS` does not. */
  lemma Wraps(n: nat, step: nat)
    requires 0 < step <= IDS
    ensures (n + step) % IDS == n % IDS <==> step == IDS
  {
    var q, r := n / IDS, n % IDS;
    assert n == q * IDS + r;
    if r + step < IDS {
      Residue(n + step, q, r + step);
    } else {
      Residue(n + step, q + 1, r + step - IDS);
    }
  }

  lemma Residue(n: nat, q: nat, r: nat)
    requires n == q * IDS + r && r < IDS
    ensures n % IDS == r
  {
  }

  datatype RegistryError = Reserved | LiveReuse

  class InFlightRegistry {
    var live: set<U64>

    constructor ()
      ensures live == {}
    {
      live := {};
    }

    method Insert(id: U64) returns (result: Option<RegistryError>)
      modifies this
      ensures result == if id == 0 then Some(Reserved) else if id in old(live) then Some(LiveReuse) else None
      ensures live == if result.None? then old(live) + {id} else old(live)
    {
      if id == 0 { return Some(Reserved); }
      if id in live { return Some(LiveReuse); }
      live := live + {id};
      return None;
    }

    method Retire(id: U64) returns (was: bool)
      modifies this
      ensures was <==> id in old(live)
      ensures live == old(live) - {id}
    {
      was := id in live;
      live := live - {id};
    }

    /** A snapshot of the live ids in an order nobody may rely on. */
    method LiveIds() returns (ids: seq<U64>)
      ensures |ids| == |live| && forall id :: id in ids <==> id in live
    {
      ids := [];
      var rest := live;
      while rest != {}
        invariant rest <= live && |ids| + |rest| == |live|
        invariant forall id :: id in ids <==> id in live && id !in rest
        decreases |rest|
      {
        var id :| id in rest;
        rest := rest - {id};
        ids := ids + [id];
      }
    }
  }
}
