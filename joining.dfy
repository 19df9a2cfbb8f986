/** JavaScript's `parts.join('')` on an array of strings, and the facts
    about it that the serializer's proofs use. */
module Joining {
  /** `parts.join('')`. */
  function Join(parts: seq<string>): string
    decreases |parts|
  {
    if parts == [] then "" else parts[0] + Join(parts[1..])
  }

  lemma ConcatAssociates<T>(a: seq<T>, b: seq<T>, c: seq<T>)
    ensures (a + b) + c == a + (b + c)
  {
  }

  /** Joining two arrays one after the other gives the two texts one after
      the other. */
  lemma {:induction false} JoinAppend(p: seq<string>, q: seq<string>)
    ensures Join(p + q) == Join(p) + Join(q)
    decreases |p|
  {
    if p != [] {
      assert (p + q)[0] == p[0] && (p + q)[1..] == p[1..] + q;
      JoinAppend(p[1..], q);
      ConcatAssociates(p[0], Join(p[1..]), Join(q));
    } else {
      assert p + q == q;
    }
  }

  /** Empty strings add nothing to a join. */
  lemma {:induction false} JoinEmpty(parts: seq<string>)
    requires forall k :: 0 <= k < |parts| ==> parts[k] == ""
    ensures Join(parts) == ""
    decreases |parts|
  {
    if parts != [] {
      JoinEmpty(parts[1..]);
    }
  }

  lemma JoinSingle(x: string)
    ensures Join([x]) == x
  {
    assert [x][1..] == [];
    assert x + "" == x;
  }

  lemma JoinPair(x: string, y: string)
    ensures Join([x, y]) == x + y
  {
    assert [x, y][1..] == [y];
    JoinSingle(y);
  }
}
