/** Facts about finite sets used by the loops that walk a map's keys. */
module Sets {
  lemma DisjointUnionSize<T>(a: set<T>, b: set<T>)
    requires a !! b
    ensures |a + b| == |a| + |b|
  {
    assert a * b == {};
  }

  /** Visiting one more symbol grows the visited joined symbols by at most that symbol. */
  lemma JoinedStep(visited: set<string>, quoted: set<string>, s: string)
    requires s !in visited
    ensures |(visited + {s}) * quoted| == |visited * quoted| + (if s in quoted then 1 else 0)
  {
    if s in quoted {
      assert (visited + {s}) * quoted == visited * quoted + {s};
      DisjointUnionSize(visited * quoted, {s});
    } else {
      assert (visited + {s}) * quoted == visited * quoted;
    }
  }

  lemma SubsetSize<T>(a: set<T>, b: set<T>)
    requires a <= b
    ensures |a| <= |b|
  {
    assert b == a + (b - a);
    DisjointUnionSize(a, b - a);
  }
}
