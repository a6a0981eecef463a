/** Facts about sets and lists that several modules need. */
module Collections {
  lemma {:induction false} SubsetSize<T>(a: set<T>, b: set<T>)
    requires a <= b
    ensures |a| <= |b|
  {
    if a == {} {
    } else {
      var x :| x in a;
      SubsetSize(a - {x}, b - {x});
    }
  }

  /** Two lists with the same elements still have the same elements once a common one is taken out. */
  lemma TakeOut<T>(a: seq<T>, b: seq<T>) returns (j: nat)
    requires multiset(a) == multiset(b) && a != []
    ensures j < |b| && b[j] == a[|a| - 1]
    ensures multiset(a[..|a| - 1]) == multiset(b[..j] + b[j + 1..])
  {
    var front, last := a[..|a| - 1], a[|a| - 1];
    assert a == front + [last];
    assert last in multiset(b);
    j :| 0 <= j < |b| && b[j] == last;
    var before, after := b[..j], b[j + 1..];
    assert b == before + [last] + after;
    assert multiset(b) - multiset{last} == multiset(before) + multiset(after) == multiset(before + after);
    assert multiset(a) - multiset{last} == multiset(front);
  }
}
