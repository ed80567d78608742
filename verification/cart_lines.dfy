/** The server's cart table: one row per (user, product) with a quantity, kept in
    insertion order, together with the map view, lookup, filtering and summing
    used by the cart and checkout handlers. */
module CartLines {
  import opened Outcomes

  type UserId = nat
  type ProductId = nat

  /** The identity of a cart line: at most one line exists per key. */
  datatype Key = Key(user: UserId, product: ProductId)

  /** One row of the cart table. */
  datatype CartLine = CartLine(user: UserId, product: ProductId, quantity: int) {
    function KeyOf(): Key {
      Key(user, product)
    }
  }

  /** All cart rows of all users, oldest first. */
  type Cart = seq<CartLine>

  ghost predicate UniqueKeys(c: Cart) {
    forall i, j :: 0 <= i < j < |c| ==> c[i].KeyOf() != c[j].KeyOf()
  }

  ghost predicate PositiveQuantities(c: Cart) {
    forall i :: 0 <= i < |c| ==> c[i].quantity >= 1
  }

  /** The table invariant: lines are unique per (user, product) and a line
      never sits at a quantity below 1. */
  ghost predicate Valid(c: Cart) {
    UniqueKeys(c) && PositiveQuantities(c)
  }

  /** The cart as a map from key to quantity (a later row overrides an earlier
      one, which never happens in a valid cart). */
  function View(c: Cart): map<Key, int> {
    if |c| == 0 then map[]
    else View(c[..|c| - 1])[c[|c| - 1].KeyOf() := c[|c| - 1].quantity]
  }

  /** Position of the last line with key `k`: the row the ORM's
      `get(user=…, product=…)` returns when it is the only one. */
  function Find(c: Cart, k: Key): (r: Option<nat>)
    ensures r.Some? <==> k in View(c)
    ensures r.Some? ==> r.value < |c| && c[r.value].KeyOf() == k && View(c)[k] == c[r.value].quantity
    ensures r.None? ==> forall i :: 0 <= i < |c| ==> c[i].KeyOf() != k
  {
    if |c| == 0 then None
    else if c[|c| - 1].KeyOf() == k then Some(|c| - 1)
    else Find(c[..|c| - 1], k)
  }

  /** No row after the one `Find` returns carries the key: `Find` gives the last. */
  lemma {:induction false} FindLast(c: Cart, k: Key)
    requires Find(c, k).Some?
    ensures forall j :: Find(c, k).value < j < |c| ==> c[j].KeyOf() != k
    decreases |c|
  {
    var n := |c| - 1;
    if c[n].KeyOf() != k {
      FindLast(c[..n], k);
    }
  }

  /** Two different rows carry key `k`, which `UniqueKeys` rules out. */
  ghost predicate SharedKey(c: Cart, k: Key) {
    exists i, j :: 0 <= i < j < |c| && c[i].KeyOf() == k && c[j].KeyOf() == k
  }

  /** Another row before the one `Find` returns carries `k` as well: the ORM's
      `get` then raises `MultipleObjectsReturned` instead of returning a row. */
  function Duplicated(c: Cart, k: Key): bool {
    match Find(c, k)
    case None => false
    case Some(i) => PrefixHas(c, i, k)
  }

  /** Some row before position `n` carries key `k`. */
  function PrefixHas(c: Cart, n: nat, k: Key): bool
    requires n <= |c|
  {
    n > 0 && (c[n - 1].KeyOf() == k || PrefixHas(c, n - 1, k))
  }

  /** `PrefixHas` is the search for an index below `n` holding the key. */
  lemma {:induction false} PrefixHasIndex(c: Cart, n: nat, k: Key)
    requires n <= |c|
    ensures PrefixHas(c, n, k) <==> exists j :: 0 <= j < n && c[j].KeyOf() == k
    decreases n
  {
    if n > 0 {
      PrefixHasIndex(c, n - 1, k);
    }
  }

  /** The search for a second row finds one exactly when two rows share the key. */
  lemma DuplicatedShared(c: Cart, k: Key)
    ensures Duplicated(c, k) <==> SharedKey(c, k)
  {
    if Find(c, k).Some? {
      PrefixHasIndex(c, Find(c, k).value, k);
      FindLast(c, k);
    }
  }

  /** In a table with unique keys no key is duplicated. */
  lemma UniqueNotDuplicated(c: Cart, k: Key)
    requires UniqueKeys(c)
    ensures !Duplicated(c, k)
  {
    if Find(c, k).Some? {
      PrefixHasIndex(c, Find(c, k).value, k);
    }
  }

  /** The cart without row `i` (a row's `delete()`). */
  function Delete(c: Cart, i: nat): (r: Cart)
    requires i < |c|
    ensures |r| == |c| - 1
    ensures forall j :: 0 <= j < i ==> r[j] == c[j]
    ensures forall j :: i <= j < |r| ==> r[j] == c[j + 1]
  {
    c[..i] + c[i + 1..]
  }

  /** The rows `keep` accepts, in table order (a queryset `filter`). */
  function Filter(c: Cart, keep: CartLine -> bool): (r: Cart)
    ensures |r| <= |c|
    ensures forall l :: l in r <==> l in c && keep(l)
  {
    if |c| == 0 then []
    else
      assert c == c[..|c| - 1] + [c[|c| - 1]];
      Filter(c[..|c| - 1], keep) + (if keep(c[|c| - 1]) then [c[|c| - 1]] else [])
  }

  function Mine(u: UserId): CartLine -> bool {
    (l: CartLine) => l.user == u
  }

  function NotMine(u: UserId): CartLine -> bool {
    (l: CartLine) => l.user != u
  }

  /** The lines of user `u`. */
  function OwnedBy(c: Cart, u: UserId): Cart {
    Filter(c, Mine(u))
  }

  /** The lines of every user except `u`. */
  function Without(c: Cart, u: UserId): Cart {
    Filter(c, NotMine(u))
  }

  /** The view with every key of user `u` dropped. */
  function DropUser(v: map<Key, int>, u: UserId): map<Key, int> {
    map k | k in v && k.user != u :: v[k]
  }

  /** Sum of a weight over lines. */
  function SumOf(lines: seq<CartLine>, w: CartLine -> int): int {
    if |lines| == 0 then 0 else SumOf(lines[..|lines| - 1], w) + w(lines[|lines| - 1])
  }

  function Quantity(l: CartLine): int {
    l.quantity
  }

  /** A line's subtotal, unit price times quantity, over a price function in cents. */
  function Subtotal(price: ProductId -> nat): CartLine -> int {
    (l: CartLine) => price(l.product) * l.quantity
  }

  // ---------------------------------------------------------------------------
  // View lemmas

  lemma ViewAppend(c: Cart, l: CartLine)
    ensures View(c + [l]) == View(c)[l.KeyOf() := l.quantity]
  {
    assert (c + [l])[..|c|] == c;
  }

  /** In a valid table the last row's key does not occur before it. */
  lemma LastKeyFresh(c: Cart)
    requires UniqueKeys(c) && |c| > 0
    ensures c[|c| - 1].KeyOf() !in View(c[..|c| - 1])
  {
    var n := |c| - 1;
    assert Find(c[..n], c[n].KeyOf()).None?;
  }

  lemma {:induction false} ViewUpdate(c: Cart, i: nat, l: CartLine)
    requires UniqueKeys(c) && i < |c| && l.KeyOf() == c[i].KeyOf()
    ensures View(c[i := l]) == View(c)[l.KeyOf() := l.quantity]
  {
    var n := |c| - 1;
    var init := c[..n];
    assert c == init + [c[n]];
    ViewAppend(init, c[n]);
    if i == n {
      assert c[i := l] == init + [l];
      ViewAppend(init, l);
    } else {
      var k, kn := l.KeyOf(), c[n].KeyOf();
      assert c[i := l] == init[i := l] + [c[n]];
      assert kn != k;
      assert UniqueKeys(init);
      ViewUpdate(init, i, l);
      ViewAppend(init[i := l], c[n]);
      UpdatesCommute(View(init), k, l.quantity, kn, c[n].quantity);
    }
  }

  lemma UpdateTwice(v: map<Key, int>, k: Key, q: int, q': int)
    ensures v[k := q][k := q'] == v[k := q']
  {
  }

  lemma UpdateSame(v: map<Key, int>, k: Key)
    requires k in v
    ensures v[k := v[k]] == v
  {
  }

  lemma RemoveMissing(v: map<Key, int>, k: Key)
    requires k !in v
    ensures v - {k} == v
  {
  }

  lemma UpdateThenRemove(v: map<Key, int>, k: Key, q: int)
    ensures v[k := q] - {k} == v - {k}
  {
  }

  lemma RemoveOtherKey(v: map<Key, int>, k: Key, q: int, k': Key)
    requires k != k'
    ensures v[k := q] - {k'} == (v - {k'})[k := q]
  {
  }

  lemma UpdatesCommute(v: map<Key, int>, k: Key, q: int, k': Key, q': int)
    requires k != k'
    ensures v[k := q][k' := q'] == v[k' := q'][k := q]
  {
  }

  lemma {:induction false} ViewDelete(c: Cart, i: nat)
    requires UniqueKeys(c) && i < |c|
    ensures View(Delete(c, i)) == View(c) - {c[i].KeyOf()}
  {
    var n := |c| - 1;
    var init, l := c[..n], c[n];
    assert c == init + [l];
    ViewAppend(init, l);
    if i == n {
      assert Delete(c, i) == init;
      LastKeyFresh(c);
      UpdateThenRemove(View(init), l.KeyOf(), l.quantity);
    } else {
      DeleteSnoc(init, l, i);
      assert l.KeyOf() != c[i].KeyOf();
      assert UniqueKeys(init);
      ViewDelete(init, i);
      ViewAppend(Delete(init, i), l);
      RemoveOtherKey(View(init), l.KeyOf(), l.quantity, c[i].KeyOf());
    }
  }

  lemma DeleteSnoc(c: Cart, l: CartLine, i: nat)
    requires i < |c|
    ensures Delete(c + [l], i) == Delete(c, i) + [l]
  {
    assert (c + [l])[..i] == c[..i];
    assert (c + [l])[i + 1..] == c[i + 1..] + [l];
  }


  lemma {:induction false} ViewWithout(c: Cart, u: UserId)
    ensures View(Without(c, u)) == DropUser(View(c), u)
  {
    if |c| > 0 {
      var n := |c| - 1;
      var init := c[..n];
      assert View(c) == View(init)[c[n].KeyOf() := c[n].quantity];
      assert Without(c, u) == Without(init, u) + (if c[n].user != u then [c[n]] else []);
      ViewWithout(init, u);
      DropUserUpdate(View(init), u, c[n].KeyOf(), c[n].quantity);
      if c[n].user != u {
        ViewAppend(Without(init, u), c[n]);
      } else {
        assert Without(c, u) == Without(init, u);
      }
    }
  }

  /** Dropping a user after setting a key: the key survives exactly when it is another user's. */
  lemma DropUserUpdate(v: map<Key, int>, u: UserId, k: Key, q: int)
    ensures DropUser(v[k := q], u) == if k.user != u then DropUser(v, u)[k := q] else DropUser(v, u)
  {
  }


  // ---------------------------------------------------------------------------
  // Preservation of the table invariant

  lemma AppendUnique(c: Cart, l: CartLine)
    requires UniqueKeys(c) && l.KeyOf() !in View(c)
    ensures UniqueKeys(c + [l])
  {
    assert Find(c, l.KeyOf()).None?;
  }

  lemma UpdateUnique(c: Cart, i: nat, l: CartLine)
    requires UniqueKeys(c) && i < |c| && l.KeyOf() == c[i].KeyOf()
    ensures UniqueKeys(c[i := l])
  {
  }

  lemma AppendValid(c: Cart, l: CartLine)
    requires Valid(c) && l.KeyOf() !in View(c) && l.quantity >= 1
    ensures Valid(c + [l])
  {
    AppendUnique(c, l);
  }

  lemma UpdateValid(c: Cart, i: nat, l: CartLine)
    requires Valid(c) && i < |c| && l.KeyOf() == c[i].KeyOf() && l.quantity >= 1
    ensures Valid(c[i := l])
  {
    UpdateUnique(c, i, l);
  }

  lemma DeleteUnique(c: Cart, i: nat)
    requires UniqueKeys(c) && i < |c|
    ensures UniqueKeys(Delete(c, i))
  {
    var r := Delete(c, i);
    forall a, b | 0 <= a < b < |r|
      ensures r[a].KeyOf() != r[b].KeyOf()
    {
      var a' := if a < i then a else a + 1;
      var b' := if b < i then b else b + 1;
      assert r[a] == c[a'] && r[b] == c[b'];
    }
  }

  lemma DeleteValid(c: Cart, i: nat)
    requires Valid(c) && i < |c|
    ensures Valid(Delete(c, i))
  {
    DeleteUnique(c, i);
  }


  /** Filtering keeps the table invariant: a subsequence of unique rows is unique. */
  lemma {:induction false} FilterValid(c: Cart, keep: CartLine -> bool)
    requires Valid(c)
    ensures Valid(Filter(c, keep))
  {
    if |c| > 0 {
      var n := |c| - 1;
      var init, l := c[..n], c[n];
      assert Valid(init);
      FilterValid(init, keep);
      if keep(l) {
        assert forall j :: 0 <= j < n ==> init[j].KeyOf() != l.KeyOf() by {
          forall j | 0 <= j < n
            ensures init[j].KeyOf() != l.KeyOf()
          {
            assert init[j] == c[j];
          }
        }
        FilterFresh(init, keep, l.KeyOf());
        AppendValid(Filter(init, keep), l);
      }
    }
  }

  /** A key no row carries is carried by no filtered row either. */
  lemma {:induction false} FilterFresh(c: Cart, keep: CartLine -> bool, k: Key)
    requires forall j :: 0 <= j < |c| ==> c[j].KeyOf() != k
    ensures k !in View(Filter(c, keep))
    decreases |c|
  {
    if |c| > 0 {
      var n := |c| - 1;
      var init, l := c[..n], c[n];
      FilterFresh(init, keep, k);
      if keep(l) {
        assert Filter(c, keep) == Filter(init, keep) + [l];
        ViewAppend(Filter(init, keep), l);
      } else {
        assert Filter(c, keep) == Filter(init, keep);
      }
    }
  }

  // ---------------------------------------------------------------------------
  // Sum and filter lemmas

  /** Filtering twice, the second test implying the first, is filtering once by the second. */
  lemma {:induction false} FilterTwice(c: Cart, keep1: CartLine -> bool, keep2: CartLine -> bool)
    requires forall l :: keep2(l) ==> keep1(l)
    ensures Filter(Filter(c, keep1), keep2) == Filter(c, keep2)
  {
    if |c| > 0 {
      var n := |c| - 1;
      var tail := if keep1(c[n]) then [c[n]] else [];
      FilterTwice(c[..n], keep1, keep2);
      FilterConcat(Filter(c[..n], keep1), tail, keep2);
      assert tail[..0] == [];
    }
  }

  /** Filtering by a test no row passes leaves nothing. */
  lemma {:induction false} FilterNone(c: Cart, keep: CartLine -> bool)
    requires forall l :: l in c ==> !keep(l)
    ensures Filter(c, keep) == []
  {
    if |c| > 0 {
      assert c[|c| - 1] in c;
      FilterNone(c[..|c| - 1], keep);
    }
  }

  lemma {:induction false} SumOfConcat(a: seq<CartLine>, b: seq<CartLine>, w: CartLine -> int)
    ensures SumOf(a + b, w) == SumOf(a, w) + SumOf(b, w)
  {
    if |b| > 0 {
      var n := |b| - 1;
      assert (a + b)[..|a + b| - 1] == a + b[..n];
      SumOfConcat(a, b[..n], w);
    } else {
      assert a + b == a;
    }
  }

  lemma FilterSnoc(c: Cart, l: CartLine, keep: CartLine -> bool)
    ensures Filter(c + [l], keep) == Filter(c, keep) + (if keep(l) then [l] else [])
  {
    assert (c + [l])[..|c|] == c;
  }

  lemma {:induction false} FilterConcat(a: Cart, b: Cart, keep: CartLine -> bool)
    ensures Filter(a + b, keep) == Filter(a, keep) + Filter(b, keep)
  {
    if |b| > 0 {
      var n := |b| - 1;
      var init, l := b[..n], b[n];
      assert b == init + [l];
      assert a + b == (a + init) + [l];
      FilterSnoc(a + init, l, keep);
      FilterSnoc(init, l, keep);
      FilterConcat(a, init, keep);
    } else {
      assert a + b == a;
    }
  }



  /** The filtered sum over a concatenation is the sum of the filtered sums. */
  lemma FilteredSumConcat(a: Cart, b: Cart, keep: CartLine -> bool, w: CartLine -> int)
    ensures SumOf(Filter(a + b, keep), w) == SumOf(Filter(a, keep), w) + SumOf(Filter(b, keep), w)
  {
    FilterConcat(a, b, keep);
    SumOfConcat(Filter(a, keep), Filter(b, keep), w);
  }

  /** What a single line contributes to a filtered sum. */
  function Contribution(l: CartLine, keep: CartLine -> bool, w: CartLine -> int): int {
    if keep(l) then w(l) else 0
  }

  lemma FilteredSumSingle(l: CartLine, keep: CartLine -> bool, w: CartLine -> int)
    ensures SumOf(Filter([l], keep), w) == Contribution(l, keep, w)
  {
    assert [l][..0] == [];
  }

  /** Replacing row `i` by `mid` (one row for an update, none for a delete)
      changes a filtered sum by exactly the contributions swapped. */
  lemma FilteredSumSplice(c: Cart, i: nat, mid: Cart, keep: CartLine -> bool, w: CartLine -> int)
    requires i < |c|
    ensures SumOf(Filter(c[..i] + mid + c[i + 1..], keep), w)
         == SumOf(Filter(c, keep), w) - Contribution(c[i], keep, w) + SumOf(Filter(mid, keep), w)
  {
    assert c == c[..i] + [c[i]] + c[i + 1..];
    FilteredSumConcat(c[..i] + mid, c[i + 1..], keep, w);
    FilteredSumConcat(c[..i], mid, keep, w);
    FilteredSumConcat(c[..i] + [c[i]], c[i + 1..], keep, w);
    FilteredSumConcat(c[..i], [c[i]], keep, w);
    FilteredSumSingle(c[i], keep, w);
  }

  lemma FilteredSumAppend(c: Cart, l: CartLine, keep: CartLine -> bool, w: CartLine -> int)
    ensures SumOf(Filter(c + [l], keep), w) == SumOf(Filter(c, keep), w) + Contribution(l, keep, w)
  {
    FilteredSumConcat(c, [l], keep, w);
    FilteredSumSingle(l, keep, w);
  }

  /** A sum of positive quantities is zero exactly when there is nothing to sum. */
  lemma {:induction false} QuantitySumPositive(lines: seq<CartLine>)
    requires forall i :: 0 <= i < |lines| ==> lines[i].quantity >= 1
    ensures SumOf(lines, Quantity) >= |lines|
  {
    if |lines| > 0 {
      QuantitySumPositive(lines[..|lines| - 1]);
    }
  }
}
