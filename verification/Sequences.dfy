/** Facts about concatenation that proofs spell out. */
module Sequences {
  lemma Associate<T>(a: seq<T>, b: seq<T>, c: seq<T>)
    ensures (a + b) + c == a + (b + c)
  {
  }

  /** The parts one after another. */
  function Flatten<T>(parts: seq<seq<T>>): seq<T> {
    if parts == [] then [] else parts[0] + Flatten(parts[1..])
  }

  lemma {:induction false} FlattenAppend<T>(a: seq<seq<T>>, b: seq<seq<T>>)
    ensures Flatten(a + b) == Flatten(a) + Flatten(b)
  {
    if a == [] {
      assert a + b == b;
    } else {
      FlattenAppend(a[1..], b);
      assert (a + b)[1..] == a[1..] + b;
      Associate(a[0], Flatten(a[1..]), Flatten(b));
    }
  }

  lemma FlattenCut<T>(parts: seq<seq<T>>, k: nat)
    requires k <= |parts|
    ensures Flatten(parts) == Flatten(parts[..k]) + Flatten(parts[k..])
  {
    assert parts == parts[..k] + parts[k..];
    FlattenAppend(parts[..k], parts[k..]);
  }

  lemma FlattenNext<T>(parts: seq<seq<T>>, k: nat)
    requires k < |parts|
    ensures Flatten(parts[..k + 1]) == Flatten(parts[..k]) + parts[k]
  {
    assert parts[..k + 1] == parts[..k] + [parts[k]];
    FlattenAppend(parts[..k], [parts[k]]);
    assert Flatten([parts[k]]) == parts[k] + Flatten([parts[k]][1..]);
  }

  lemma FlattenLast<T>(parts: seq<seq<T>>, part: seq<T>, rest: seq<T>)
    ensures Flatten(parts + [part]) + rest == Flatten(parts) + (part + rest)
  {
    FlattenAppend(parts, [part]);
    assert Flatten([part]) == part + Flatten<T>([]);
    Associate(Flatten(parts), part, rest);
  }

  /** Moving the head of a stream to the parts loses nothing. */
  lemma HeadMoves<T>(parts: seq<seq<T>>, head: seq<T>, stream: seq<T>)
    requires head <= stream
    ensures Flatten(parts + [head]) + stream[|head|..] == Flatten(parts) + stream
  {
    FlattenLast(parts, head, stream[|head|..]);
    assert stream == head + stream[|head|..];
  }
}
