/**
 profile.OrderHeaders: the keys of an unordered header map, sorted into the order the
 profile dictates.
 */
module HeaderOrder {
  import opened Text

  type Headers = map<string, seq<string>>
  type Rank = map<string, nat>

  function RankOf(order: seq<string>): Rank {
    if order == [] then map[]
    else RankOf(order[..|order| - 1])[Lower(order[|order| - 1]) := |order| - 1]
  }

  /** rank gives every lower-cased name of order the position of its last occurrence. */
  ghost predicate IsRank(order: seq<string>, rank: Rank) {
    && (forall i :: 0 <= i < |order| ==> Lower(order[i]) in rank)
    && forall n :: n in rank ==>
         && rank[n] < |order|
         && Lower(order[rank[n]]) == n
         && forall j :: rank[n] < j < |order| ==> Lower(order[j]) != n
  }

  lemma {:induction false} RankOfIsRank(order: seq<string>)
    ensures IsRank(order, RankOf(order))
  {
    if order != [] {
      var last := |order| - 1;
      var before := RankOf(order[..last]);
      RankOfIsRank(order[..last]);
      assert order == order[..last] + [order[last]];
      forall n | n in RankOf(order)
        ensures RankOf(order)[n] < |order| && Lower(order[RankOf(order)[n]]) == n
        ensures forall j :: RankOf(order)[n] < j < |order| ==> Lower(order[j]) != n
      {
        if n != Lower(order[last]) {
          assert n in before;
        }
      }
      forall j | 0 <= j < |order| ensures Lower(order[j]) in RankOf(order) {
        if j < last { assert Lower(order[..last][j]) in before; }
      }
    }
  }

  /** The comparator handed to the sort. */
  predicate Less(rank: Rank, a: string, b: string) {
    if Lower(a) in rank && Lower(b) in rank then rank[Lower(a)] < rank[Lower(b)]
    else if Lower(a) in rank then true
    else if Lower(b) in rank then false
    else LexLess(a, b)
  }

  /** Neither sorts before the other although they differ: two spellings of a ranked name. */
  predicate Tied(rank: Rank, a: string, b: string) {
    a != b && Lower(a) == Lower(b) && Lower(a) in rank
  }

  ghost predicate Sorted(rank: Rank, keys: seq<string>) {
    forall i, j :: 0 <= i < j < |keys| ==> !Less(rank, keys[j], keys[i])
  }

  /** keys is one possible result for a map with these keys. */
  ghost predicate IsOrdering(rank: Rank, keys: seq<string>, names: set<string>) {
    multiset(keys) == multiset(names) && Sorted(rank, keys)
  }

  lemma OrderingIsDistinct(rank: Rank, keys: seq<string>, names: set<string>)
    requires IsOrdering(rank, keys, names)
    ensures forall i, j :: 0 <= i < j < |keys| ==> keys[i] != keys[j]
  {
    forall i, j | 0 <= i < j < |keys| ensures keys[i] != keys[j] {
      assert keys == keys[..j] + keys[j..];
      assert keys[i] in keys[..j] && keys[j] in keys[j..];
      assert multiset(keys) == multiset(keys[..j]) + multiset(keys[j..]);
      assert multiset(keys)[keys[i]] == multiset(names)[keys[i]] <= 1;
    }
  }

  // ---- The comparator is a strict weak order ----

  lemma LessIsStrictWeakOrder(order: seq<string>, rank: Rank, a: string, b: string, c: string)
    requires IsRank(order, rank)
    ensures !Less(rank, a, a)
    ensures Less(rank, a, b) ==> !Less(rank, b, a)
    ensures Less(rank, a, b) && Less(rank, b, c) ==> Less(rank, a, c)
    ensures !Less(rank, a, b) && !Less(rank, b, a) <==> a == b || Tied(rank, a, b)
    ensures !Less(rank, b, a) && !Less(rank, c, b) ==> !Less(rank, c, a)
  {
    LexTotal(a, a);
    LexTotal(a, b);
    LexTotal(b, c);
    LexTotal(a, c);
    if LexLess(a, b) && LexLess(b, c) { LexTransitive(a, b, c); }
    if LexLess(c, a) && LexLess(a, b) { LexTransitive(c, a, b); }
  }

  // ---- Stable sorting (the library's sort.SliceStable) ----

  /** Places x before the first element that must come after it. */
  function StableInsert(rank: Rank, x: string, keys: seq<string>): seq<string> {
    if keys == [] then [x]
    else if Less(rank, keys[0], x) then [keys[0]] + StableInsert(rank, x, keys[1..])
    else [x] + keys
  }

  function StableSort(rank: Rank, keys: seq<string>): seq<string> {
    if keys == [] then [] else StableInsert(rank, keys[0], StableSort(rank, keys[1..]))
  }

  lemma {:induction false} StableInsertSorts(order: seq<string>, rank: Rank, x: string, keys: seq<string>)
    requires IsRank(order, rank) && Sorted(rank, keys)
    ensures multiset(StableInsert(rank, x, keys)) == multiset([x]) + multiset(keys)
    ensures Sorted(rank, StableInsert(rank, x, keys))
  {
    if keys != [] {
      var head, rest := keys[0], keys[1..];
      assert keys == [head] + rest;
      if Less(rank, head, x) {
        assert Sorted(rank, rest);
        StableInsertSorts(order, rank, x, rest);
        var tail := StableInsert(rank, x, rest);
        forall j | 0 <= j < |tail| ensures !Less(rank, tail[j], head) {
          assert tail[j] in multiset(tail);
          if tail[j] != x {
            assert tail[j] in multiset(rest) && tail[j] in rest;
          } else {
            LessIsStrictWeakOrder(order, rank, head, x, x);
          }
        }
        Prepend(rank, head, tail);
      } else {
        forall j | 0 <= j < |keys| ensures !Less(rank, keys[j], x) {
          LessIsStrictWeakOrder(order, rank, x, head, keys[j]);
          LessIsStrictWeakOrder(order, rank, head, head, head);
        }
        Prepend(rank, x, keys);
      }
    }
  }

  lemma Prepend(rank: Rank, x: string, keys: seq<string>)
    requires Sorted(rank, keys) && forall j :: 0 <= j < |keys| ==> !Less(rank, keys[j], x)
    ensures Sorted(rank, [x] + keys)
  {
  }

  lemma {:induction false} StableSortSorts(order: seq<string>, rank: Rank, keys: seq<string>)
    requires IsRank(order, rank)
    ensures multiset(StableSort(rank, keys)) == multiset(keys)
    ensures Sorted(rank, StableSort(rank, keys))
  {
    if keys != [] {
      StableSortSorts(order, rank, keys[1..]);
      StableInsertSorts(order, rank, keys[0], StableSort(rank, keys[1..]));
      assert keys == [keys[0]] + keys[1..];
    }
  }

  /** A sorted input is left alone, so every ordering of the keys is a possible result. */
  lemma {:induction false} SortedIsFixed(rank: Rank, keys: seq<string>)
    requires Sorted(rank, keys)
    ensures StableSort(rank, keys) == keys
  {
    if keys != [] {
      assert keys == [keys[0]] + keys[1..];
      SortedIsFixed(rank, keys[1..]);
      if keys[1..] != [] {
        assert !Less(rank, keys[1], keys[0]);
      }
    }
  }

  // ---- The operation ----

  method BuildRank(order: seq<string>) returns (rank: Rank)
    ensures rank == RankOf(order)
  {
    rank := map[];
    for i := 0 to |order|
      invariant rank == RankOf(order[..i])
    {
      rank := rank[Lower(order[i]) := i];
      assert order[..i + 1][..i] == order[..i];
    }
    assert order[..|order|] == order;
  }

  /** The result is some ordering of the map's keys; map iteration order is arbitrary. */
  method OrderHeaders(order: seq<string>, h: Headers) returns (keys: seq<string>)
    ensures IsOrdering(RankOf(order), keys, h.Keys)
  {
    var rank := BuildRank(order);
    var found: seq<string> := [];
    var todo := h.Keys;
    while todo != {}
      invariant todo <= h.Keys
      invariant multiset(found) + multiset(todo) == multiset(h.Keys)
      decreases |todo|
    {
      var k :| k in todo;
      todo := todo - {k};
      found := found + [k];
    }
    keys := StableSort(rank, found);
    RankOfIsRank(order);
    StableSortSorts(order, rank, found);
  }

  // ---- What the order says ----

  /** Ranked names come first, by last position in the profile's list; the rest are alphabetical. */
  lemma OrderingMeaning(order: seq<string>, rank: Rank, keys: seq<string>, i: nat, j: nat)
    requires IsRank(order, rank) && Sorted(rank, keys)
    requires i < j < |keys| && keys[i] != keys[j]
    ensures Lower(keys[j]) in rank ==> Lower(keys[i]) in rank && rank[Lower(keys[i])] <= rank[Lower(keys[j])]
    ensures Lower(keys[i]) !in rank ==> Lower(keys[j]) !in rank && LexLess(keys[i], keys[j])
  {
    assert !Less(rank, keys[j], keys[i]);
    LexTotal(keys[i], keys[j]);
  }

  ghost predicate NoTies(rank: Rank, names: set<string>) {
    forall a, b :: a in names && b in names ==> !Tied(rank, a, b)
  }

  /** Two sorted arrangements of the same keys start with the same key or with tied ones. */
  lemma FirstKeys(order: seq<string>, rank: Rank, a: seq<string>, b: seq<string>)
    requires IsRank(order, rank)
    requires Sorted(rank, a) && Sorted(rank, b) && multiset(a) == multiset(b) && a != [] && b != []
    ensures a[0] in b && b[0] in a
    ensures a[0] == b[0] || Tied(rank, a[0], b[0])
  {
    assert a[0] in multiset(b) && b[0] in multiset(a);
    var i :| 0 <= i < |b| && b[i] == a[0];
    var j :| 0 <= j < |a| && a[j] == b[0];
    if a[0] != b[0] {
      assert !Less(rank, b[i], b[0]) && !Less(rank, a[j], a[0]);
      LessIsStrictWeakOrder(order, rank, a[0], b[0], b[0]);
    }
  }

  lemma Rest(keys: seq<string>)
    requires keys != []
    ensures keys == [keys[0]] + keys[1..]
    ensures multiset(keys[1..]) == multiset(keys) - multiset{keys[0]}
    ensures forall k :: k in keys[1..] ==> k in keys
  {
    assert keys == [keys[0]] + keys[1..];
  }

  lemma {:induction false} OrderingUnique(order: seq<string>, rank: Rank, a: seq<string>, b: seq<string>)
    requires IsRank(order, rank)
    requires Sorted(rank, a) && Sorted(rank, b) && multiset(a) == multiset(b)
    requires forall x, y :: x in a && y in a ==> !Tied(rank, x, y)
    ensures a == b
    decreases |a|
  {
    assert |a| == |multiset(a)| == |multiset(b)| == |b|;
    if a != [] {
      FirstKeys(order, rank, a, b);
      var restA, restB := a[1..], b[1..];
      Rest(a);
      Rest(b);
      assert a[0] == b[0];
      OrderingUnique(order, rank, restA, restB);
    }
  }

  /** Swapping two tied keys of an ordering gives another ordering. */
  lemma SwapTied(order: seq<string>, rank: Rank, keys: seq<string>, i: nat, j: nat) returns (other: seq<string>)
    requires IsRank(order, rank) && Sorted(rank, keys)
    requires i < |keys| && j < |keys| && Tied(rank, keys[i], keys[j])
    ensures Sorted(rank, other) && multiset(other) == multiset(keys) && other != keys
  {
    other := keys[i := keys[j]][j := keys[i]];
    assert multiset(other) == multiset(keys);
    forall p, q | 0 <= p < q < |other| ensures !Less(rank, other[q], other[p]) {
      assert !Less(rank, keys[q], keys[p]);
      assert Lower(other[p]) == Lower(keys[p]) && Lower(other[q]) == Lower(keys[q]);
    }
    assert other[i] == keys[j];
  }

  lemma SetOrdering(order: seq<string>, rank: Rank, names: set<string>) returns (keys: seq<string>)
    requires IsRank(order, rank)
    ensures IsOrdering(rank, keys, names)
  {
    var found: seq<string> := [];
    var todo := names;
    while todo != {}
      invariant todo <= names
      invariant multiset(found) + multiset(todo) == multiset(names)
    {
      var k :| k in todo;
      todo := todo - {k};
      found := found + [k];
    }
    StableSortSorts(order, rank, found);
    keys := StableSort(rank, found);
  }

  /**
   Exactly when the result does not depend on map iteration: no two keys are different
   spellings of one ranked name.
   */
  lemma DeterministicIffNoTies(order: seq<string>, rank: Rank, names: set<string>)
    requires IsRank(order, rank)
    ensures (forall a, b :: IsOrdering(rank, a, names) && IsOrdering(rank, b, names) ==> a == b)
            <==> NoTies(rank, names)
  {
    if NoTies(rank, names) {
      forall a, b | IsOrdering(rank, a, names) && IsOrdering(rank, b, names) ensures a == b {
        assert forall x :: x in a ==> x in multiset(a);
        OrderingUnique(order, rank, a, b);
      }
    } else {
      var x, y :| x in names && y in names && Tied(rank, x, y);
      var keys := SetOrdering(order, rank, names);
      assert x in multiset(keys) && y in multiset(keys);
      var i :| 0 <= i < |keys| && keys[i] == x;
      var j :| 0 <= j < |keys| && keys[j] == y;
      var other := SwapTied(order, rank, keys, i, j);
      assert IsOrdering(rank, other, names);
    }
  }
}
