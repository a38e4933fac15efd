/** Grouping items by a hashable key into an insertion-ordered dictionary
    of lists, as the loops `if k not in d: d[k] = []; d[k].append(x)` do.
    A Python dictionary remembers its keys in first-insertion order and
    keeps the first key object it was given for each hash-equal class. */
module Grouping {

  import opened PyValues
  import opened Seqs

  /** An item with the key it is grouped under and the Python object that
      key came from (what the dictionary keeps as its key). */
  datatype Keyed<T> = Keyed(key: Key, keyValue: Value, item: T)

  /** An insertion-ordered dictionary from keys to lists: its keys in
      order, the key objects, and the lists. */
  datatype Table<T> = Table(order: seq<Key>, keyValues: map<Key, Value>, rows: map<Key, seq<T>>)

  predicate Distinct<K(==)>(ks: seq<K>)
  {
    forall i, j :: 0 <= i < j < |ks| ==> ks[i] != ks[j]
  }

  /** The dictionary's keys are exactly the keys in its order, each once. */
  predicate Consistent<T>(t: Table<T>)
  {
    Distinct(t.order) &&
    (forall k :: k in t.order ==> k in t.rows && k in t.keyValues) &&
    (forall k :: k in t.rows ==> k in t.order) &&
    (forall k :: k in t.keyValues ==> k in t.order)
  }

  function KeysOf<T>(xs: seq<Keyed<T>>): (ks: seq<Key>)
    ensures |ks| == |xs| && forall i :: 0 <= i < |xs| ==> ks[i] == xs[i].key
  {
    seq(|xs|, i requires 0 <= i < |xs| => xs[i].key)
  }

  function ItemsOf<T>(xs: seq<Keyed<T>>): (ts: seq<T>)
    ensures |ts| == |xs| && forall i :: 0 <= i < |xs| ==> ts[i] == xs[i].item
  {
    seq(|xs|, i requires 0 <= i < |xs| => xs[i].item)
  }

  /** The position of the first occurrence of `k`. */
  function FirstIndex<K(==)>(ks: seq<K>, k: K): (i: nat)
    requires k in ks
    ensures i < |ks| && ks[i] == k && k !in ks[..i]
  {
    if ks[0] == k then 0
    else
      var i := FirstIndex(ks[1..], k);
      assert ks[1..][..i] == ks[1..i + 1];
      1 + i
  }

  lemma {:induction false} FirstIndexSnoc<K>(ks: seq<K>, k: K, x: K)
    requires x in ks
    ensures FirstIndex(ks + [k], x) == FirstIndex(ks, x)
  {
    if ks[0] != x {
      assert (ks + [k])[1..] == ks[1..] + [k];
      FirstIndexSnoc(ks[1..], k, x);
    }
  }

  lemma {:induction false} FirstIndexLast<K>(ks: seq<K>, k: K)
    requires k !in ks
    ensures FirstIndex(ks + [k], k) == |ks|
  {
    if ks != [] {
      assert (ks + [k])[1..] == ks[1..] + [k];
      FirstIndexLast(ks[1..], k);
    }
  }

  /** The distinct keys of `ks` in the order of their first occurrence. */
  function FirstSeen<K(==)>(ks: seq<K>): (r: seq<K>)
    ensures forall i :: 0 <= i < |r| ==> r[i] in ks
    ensures forall i :: 0 <= i < |ks| ==> ks[i] in r
    ensures Distinct(r)
    ensures IsSubseq(r, ks)
  {
    if ks == [] then []
    else
      var front, k := ks[..|ks| - 1], ks[|ks| - 1];
      var r0 := FirstSeen(front);
      assert ks == front + [k];
      if k in front then
        SubseqExtend(r0, front, k);
        r0
      else
        SubseqSnoc(r0, front, k);
        r0 + [k]
  }

  lemma FirstSeenSnoc<K>(ks: seq<K>, k: K)
    ensures FirstSeen(ks + [k]) == if k in ks then FirstSeen(ks) else FirstSeen(ks) + [k]
  {
    assert (ks + [k])[..|ks|] == ks;
  }

  /** The keys come in the order of their first occurrences. */
  lemma {:induction false} FirstSeenOrder<K>(ks: seq<K>)
    ensures forall i, j :: 0 <= i < j < |FirstSeen(ks)| ==>
      FirstIndex(ks, FirstSeen(ks)[i]) < FirstIndex(ks, FirstSeen(ks)[j])
  {
    if ks != [] {
      var front, k := ks[..|ks| - 1], ks[|ks| - 1];
      assert ks == front + [k];
      FirstSeenOrder(front);
      FirstSeenSnoc(front, k);
      var r0, r := FirstSeen(front), FirstSeen(ks);
      forall i, j | 0 <= i < j < |r| ensures FirstIndex(ks, r[i]) < FirstIndex(ks, r[j]) {
        assert r[i] == r0[i];
        FirstIndexSnoc(front, k, r[i]);
        if j < |r0| {
          FirstIndexSnoc(front, k, r[j]);
        } else {
          FirstIndexLast(front, k);
        }
      }
    }
  }

  /** The items filed under `k`, in their order in `xs`. */
  function Members<T>(xs: seq<Keyed<T>>, k: Key): (r: seq<T>)
    ensures |r| <= |xs|
  {
    if xs == [] then []
    else
      var x := xs[|xs| - 1];
      Members(xs[..|xs| - 1], k) + (if x.key == k then [x.item] else [])
  }

  lemma MembersSnoc<T>(xs: seq<Keyed<T>>, x: Keyed<T>, k: Key)
    ensures Members(xs + [x], k) == Members(xs, k) + (if x.key == k then [x.item] else [])
  {
    assert (xs + [x])[..|xs|] == xs;
  }

  /** The members of `k` are exactly the items keyed `k`, in order. */
  lemma MembersSpec<T>(xs: seq<Keyed<T>>, k: Key)
    ensures IsSubseq(Members(xs, k), ItemsOf(xs))
    ensures |Members(xs, k)| == |FilterKey(xs, k)|
    ensures Members(xs, k) == ItemsOf(FilterKey(xs, k))
  {
    MembersSubseq(xs, k);
    MembersFiltered(xs, k);
  }

  /** The members of `k` are a subsequence of all the items. */
  lemma {:induction false} MembersSubseq<T>(xs: seq<Keyed<T>>, k: Key)
    ensures IsSubseq(Members(xs, k), ItemsOf(xs))
  {
    if xs != [] {
      var front, x := xs[..|xs| - 1], xs[|xs| - 1];
      var m0, i0 := Members(front, k), ItemsOf(front);
      MembersSubseq(front, k);
      assert xs == front + [x];
      ItemsOfSnoc(front, x);
      MembersSnoc(front, x, k);
      assert ItemsOf(xs) == i0 + [x.item];
      if x.key == k {
        assert Members(xs, k) == m0 + [x.item];
        SubseqSnoc(m0, i0, x.item);
      } else {
        assert Members(xs, k) == m0;
        SubseqExtend(m0, i0, x.item);
      }
    }
  }

  /** The members of `k` are the items of the entries keyed `k`. */
  lemma {:induction false} MembersFiltered<T>(xs: seq<Keyed<T>>, k: Key)
    ensures Members(xs, k) == ItemsOf(FilterKey(xs, k))
  {
    if xs != [] {
      var front, x := xs[..|xs| - 1], xs[|xs| - 1];
      MembersFiltered(front, k);
      assert xs == front + [x];
      FilterKeySnoc(front, x, k);
      MembersSnoc(front, x, k);
      if x.key == k {
        ItemsOfSnoc(FilterKey(front, k), x);
      }
    }
  }

  lemma ItemsOfSnoc<T>(xs: seq<Keyed<T>>, x: Keyed<T>)
    ensures ItemsOf(xs + [x]) == ItemsOf(xs) + [x.item]
  {
  }

  /** The entries of `xs` keyed `k` (an independent statement of
      membership: `[x for x in xs if x.key == k]`). */
  function FilterKey<T>(xs: seq<Keyed<T>>, k: Key): (r: seq<Keyed<T>>)
    ensures forall i :: 0 <= i < |r| ==> r[i] in xs && r[i].key == k
    ensures forall i :: 0 <= i < |xs| && xs[i].key == k ==> xs[i] in r
  {
    if xs == [] then []
    else (if xs[0].key == k then [xs[0]] else []) + FilterKey(xs[1..], k)
  }

  lemma FilterKeySnoc<T>(xs: seq<Keyed<T>>, x: Keyed<T>, k: Key)
    ensures FilterKey(xs + [x], k) == FilterKey(xs, k) + (if x.key == k then [x] else [])
  {
    if xs != [] {
      assert (xs + [x])[1..] == xs[1..] + [x];
      FilterKeySnoc(xs[1..], x, k);
    }
  }

  /** The key object a dictionary keeps: the one of the first item with a
      hash-equal key. */
  function KeyValueOf<T>(xs: seq<Keyed<T>>, k: Key): Value
    requires k in KeysOf(xs)
  {
    xs[FirstIndex(KeysOf(xs), k)].keyValue
  }

  /** The dictionary the grouping loop builds from `xs`. */
  function GroupBy<T>(xs: seq<Keyed<T>>): Table<T>
  {
    Table(FirstSeen(KeysOf(xs)), KeyValuesOf(xs), RowsOf(xs))
  }

  function RowsOf<T>(xs: seq<Keyed<T>>): (m: map<Key, seq<T>>)
    ensures forall k :: k in m <==> k in KeysOf(xs)
  {
    map k | k in KeysOf(xs) :: Members(xs, k)
  }

  function KeyValuesOf<T>(xs: seq<Keyed<T>>): (m: map<Key, Value>)
    ensures forall k :: k in m <==> k in KeysOf(xs)
  {
    map k | k in KeysOf(xs) :: KeyValueOf(xs, k)
  }

  lemma GroupByConsistent<T>(xs: seq<Keyed<T>>)
    ensures Consistent(GroupBy(xs))
  {
  }

  /** One turn of a grouping loop (`groups.setdefault(key, []).append(item)`):
      a known key gets the item appended to its list; a new key is added at
      the end with a one-item list. */
  function Insert<T>(t: Table<T>, x: Keyed<T>): Table<T>
  {
    if x.key in t.rows then Table(t.order, t.keyValues, t.rows[x.key := t.rows[x.key] + [x.item]])
    else Table(t.order + [x.key], t.keyValues[x.key := x.keyValue], t.rows[x.key := [x.item]])
  }

  /** The table a grouping loop has built after running over `xs`. */
  function GroupLoop<T>(xs: seq<Keyed<T>>): Table<T>
  {
    if xs == [] then Table([], map[], map[])
    else Insert(GroupLoop(xs[..|xs| - 1]), xs[|xs| - 1])
  }

  lemma GroupLoopSnoc<T>(xs: seq<Keyed<T>>, x: Keyed<T>)
    ensures GroupLoop(xs + [x]) == Insert(GroupLoop(xs), x)
  {
    assert (xs + [x])[..|xs|] == xs;
  }

  /** The loop builds exactly the table `GroupBy` describes. */
  lemma {:induction false} GroupLoopIsGroupBy<T>(xs: seq<Keyed<T>>)
    ensures GroupLoop(xs) == GroupBy(xs)
  {
    if xs != [] {
      var front, x := xs[..|xs| - 1], xs[|xs| - 1];
      assert xs == front + [x];
      GroupLoopIsGroupBy(front);
      GroupLoopSnoc(front, x);
      GroupByStep(front, x);
    } else {
      assert KeysOf(xs) == [];
      assert RowsOf(xs) == map[] && KeyValuesOf(xs) == map[];
      assert FirstSeen(KeysOf(xs)) == [];
    }
  }

  /** One step of the loop on the table `GroupBy` describes. */
  lemma GroupByStep<T>(xs: seq<Keyed<T>>, x: Keyed<T>)
    ensures GroupBy(xs + [x]) == Insert(GroupBy(xs), x)
  {
    var ks := KeysOf(xs);
    assert KeysOf(xs + [x]) == ks + [x.key];
    FirstSeenSnoc(ks, x.key);
    RowsStep(xs, x);
    KeyValuesStep(xs, x);
  }

  lemma RowsStep<T>(xs: seq<Keyed<T>>, x: Keyed<T>)
    ensures var rows := RowsOf(xs);
      RowsOf(xs + [x]) ==
        if x.key in rows then rows[x.key := rows[x.key] + [x.item]] else rows[x.key := [x.item]]
  {
    var ks := KeysOf(xs);
    var rows, rows' := RowsOf(xs), RowsOf(xs + [x]);
    var expected := if x.key in rows then rows[x.key := rows[x.key] + [x.item]] else rows[x.key := [x.item]];
    KeysSnoc(xs, x);
    assert forall k :: k in rows' <==> k in expected;
    forall k | k in rows' ensures rows'[k] == expected[k] {
      MembersSnoc(xs, x, k);
      if x.key !in ks {
        MembersAbsent(xs, x.key);
      }
    }
  }

  /** Each key's list passed through `f`. */
  function MapMembers<T, U>(xs: seq<Keyed<T>>, f: seq<T> -> U): (m: map<Key, U>)
    ensures forall k :: k in m <==> k in KeysOf(xs)
  {
    map k | k in KeysOf(xs) :: f(Members(xs, k))
  }

  /** A new item changes only the entry of its own key. */
  lemma MapMembersStep<T, U>(xs: seq<Keyed<T>>, x: Keyed<T>, f: seq<T> -> U)
    ensures MapMembers(xs + [x], f) == MapMembers(xs, f)[x.key := f(Members(xs + [x], x.key))]
  {
    var m, m' := MapMembers(xs, f), MapMembers(xs + [x], f);
    var expected := m[x.key := f(Members(xs + [x], x.key))];
    KeysSnoc(xs, x);
    assert forall k :: k in m' <==> k in expected;
    forall k | k in m' ensures m'[k] == expected[k] {
      assert m'[k] == f(Members(xs + [x], k));
      if k != x.key {
        MembersSnoc(xs, x, k);
        assert Members(xs, k) + [] == Members(xs, k);
        assert m[k] == f(Members(xs, k));
      }
    }
  }

  lemma KeysSnoc<T>(xs: seq<Keyed<T>>, x: Keyed<T>)
    ensures KeysOf(xs + [x]) == KeysOf(xs) + [x.key]
    ensures forall k :: k in KeysOf(xs + [x]) <==> k in KeysOf(xs) || k == x.key
  {
    assert KeysOf(xs + [x]) == KeysOf(xs) + [x.key];
  }

  lemma MembersAbsent<T>(xs: seq<Keyed<T>>, k: Key)
    requires k !in KeysOf(xs)
    ensures Members(xs, k) == []
  {
    MembersSpec(xs, k);
  }

  lemma KeyValuesStep<T>(xs: seq<Keyed<T>>, x: Keyed<T>)
    ensures var kv := KeyValuesOf(xs);
      KeyValuesOf(xs + [x]) == if x.key in kv then kv else kv[x.key := x.keyValue]
  {
    var ks := KeysOf(xs);
    KeysSnoc(xs, x);
    var kv, kv' := KeyValuesOf(xs), KeyValuesOf(xs + [x]);
    var expected := if x.key in ks then kv else kv[x.key := x.keyValue];
    assert forall k :: k in kv' <==> k in expected;
    forall k | k in kv' ensures kv'[k] == expected[k] {
      KeyValueSnoc(xs, x, k);
    }
  }

  /** The key object kept for `k` once `x` is appended: the earlier one,
      or `x`'s for a key seen the first time. */
  lemma KeyValueSnoc<T>(xs: seq<Keyed<T>>, x: Keyed<T>, k: Key)
    requires k in KeysOf(xs) || k == x.key
    ensures k in KeysOf(xs + [x])
    ensures KeyValueOf(xs + [x], k) == if k in KeysOf(xs) then KeyValueOf(xs, k) else x.keyValue
  {
    var ks := KeysOf(xs);
    KeysSnoc(xs, x);
    if k in ks {
      FirstIndexSnoc(ks, x.key, k);
    } else {
      FirstIndexLast(ks, x.key);
    }
  }

  /** Each member of a key's list is the item of an entry with that key. */
  lemma MemberPosition<T>(xs: seq<Keyed<T>>, k: Key, c: T) returns (m: nat)
    requires c in Members(xs, k)
    ensures m < |xs| && xs[m].key == k && xs[m].item == c
  {
    MembersSpec(xs, k);
    var fk := FilterKey(xs, k);
    var j :| 0 <= j < |fk| && ItemsOf(fk)[j] == c;
    m :| 0 <= m < |xs| && xs[m] == fk[j];
  }

  /** Every item lands in the list of its key. */
  lemma GroupByCovers<T>(xs: seq<Keyed<T>>, i: nat)
    requires i < |xs|
    ensures xs[i].key in GroupBy(xs).rows && xs[i].item in GroupBy(xs).rows[xs[i].key]
  {
    MembersSpec(xs, xs[i].key);
    assert xs[i] in FilterKey(xs, xs[i].key);
    var f := FilterKey(xs, xs[i].key);
    var j :| 0 <= j < |f| && f[j] == xs[i];
    assert ItemsOf(f)[j] == xs[i].item;
  }

  /** The total length of the lists of the keys in `order`. */
  function TotalSize<T>(order: seq<Key>, rows: map<Key, seq<T>>): nat
    requires forall k :: k in order ==> k in rows
  {
    if order == [] then 0
    else TotalSize(order[..|order| - 1], rows) + |rows[order[|order| - 1]]|
  }

  lemma {:induction false} TotalSizeOther<T>(order: seq<Key>, rows: map<Key, seq<T>>, k: Key, v: seq<T>)
    requires forall j :: j in order ==> j in rows
    requires k !in order
    ensures TotalSize(order, rows[k := v]) == TotalSize(order, rows)
  {
    if order != [] {
      TotalSizeOther(order[..|order| - 1], rows, k, v);
    }
  }

  lemma {:induction false} TotalSizeUpdate<T>(order: seq<Key>, rows: map<Key, seq<T>>, k: Key, v: seq<T>)
    requires forall j :: j in order ==> j in rows
    requires Distinct(order) && k in order
    ensures TotalSize(order, rows[k := v]) == TotalSize(order, rows) - |rows[k]| + |v|
  {
    var front, last := order[..|order| - 1], order[|order| - 1];
    assert order == front + [last];
    if last == k {
      TotalSizeOther(front, rows, k, v);
    } else {
      assert k in front;
      TotalSizeUpdate(front, rows, k, v);
    }
  }

  /** The lists together hold every item exactly once: their lengths add
      up to the number of items. */
  lemma GroupBySizes<T>(xs: seq<Keyed<T>>)
    ensures TotalSize(GroupBy(xs).order, GroupBy(xs).rows) == |xs|
  {
    GroupLoopIsGroupBy(xs);
    LoopSizes(xs);
  }

  /** Each key listed once, and listed exactly when it has a list. */
  ghost predicate Covered<T>(t: Table<T>)
  {
    Distinct(t.order) && forall k :: k in t.order <==> k in t.rows
  }

  /** Inserting an item keeps the table covered and lengthens the lists
      by one item in all. */
  lemma InsertSize<T>(t: Table<T>, x: Keyed<T>)
    requires Covered(t)
    ensures Covered(Insert(t, x))
    ensures TotalSize(Insert(t, x).order, Insert(t, x).rows) == TotalSize(t.order, t.rows) + 1
  {
    var t' := Insert(t, x);
    if x.key in t.rows {
      TotalSizeUpdate(t.order, t.rows, x.key, t.rows[x.key] + [x.item]);
    } else {
      var rows' := t.rows[x.key := [x.item]];
      assert t'.order == t.order + [x.key] && t'.rows == rows';
      assert t'.order[..|t.order|] == t.order;
      TotalSizeOther(t.order, t.rows, x.key, [x.item]);
      assert TotalSize(t'.order, rows') == TotalSize(t.order, rows') + |rows'[x.key]|;
    }
  }

  lemma {:induction false} LoopSizes<T>(xs: seq<Keyed<T>>)
    ensures Covered(GroupLoop(xs))
    ensures TotalSize(GroupLoop(xs).order, GroupLoop(xs).rows) == |xs|
  {
    if xs != [] {
      var front, x := xs[..|xs| - 1], xs[|xs| - 1];
      LoopSizes(front);
      InsertSize(GroupLoop(front), x);
    }
  }

  /** The groups of `GroupBy` are never empty. */
  lemma GroupsNonEmpty<T>(xs: seq<Keyed<T>>)
    ensures Consistent(GroupBy(xs))
    ensures forall k :: k in GroupBy(xs).rows ==> GroupBy(xs).rows[k] != []
  {
    GroupByConsistent(xs);
    forall k | k in GroupBy(xs).rows ensures GroupBy(xs).rows[k] != [] {
      var i := FirstIndex(KeysOf(xs), k);
      GroupByCovers(xs, i);
    }
  }
}
