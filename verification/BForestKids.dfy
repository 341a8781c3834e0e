/** What the edits of a single node do to its list of children. */
module BForestKids {
  import opened Prelude
  import opened BForestLevels
  import opened BForestPool

  lemma KidsInnerInsert(keys: seq<Key>, tree: seq<Node>, ck: Option<Key>, index: nat, key: Key, child: Node)
    requires |tree| == |keys| + 1 && index <= |keys|
    ensures Kids(Inner(InsertAt(keys, index, key), InsertAt(tree, index + 1, child)), ck)
         == InsertAt(Kids(Inner(keys, tree), ck), index + 1, Sub(Some(key), child))
  {
  }

  lemma KidsLeafInsert(keys: seq<Key>, vals: seq<Value>, ck: Option<Key>, index: nat, key: Key, value: Value)
    requires |vals| == |keys| && index <= |keys|
    ensures Kids(Leaf(InsertAt(keys, index, key), InsertAt(vals, index, value)), ck)
         == InsertAt(Kids(Leaf(keys, vals), ck), index, Entry(key, value))
  {
  }

  lemma KidsInnerSplit(keys: seq<Key>, tree: seq<Node>, ck: Option<Key>, m: nat)
    requires |tree| == |keys| + 1 && 0 < m < |tree|
    ensures Kids(Inner(keys[..m - 1], tree[..m]), ck) == Kids(Inner(keys, tree), ck)[..m]
    ensures Kids(Inner(keys[m..], tree[m..]), Some(keys[m - 1])) == Kids(Inner(keys, tree), ck)[m..]
  {
  }

  lemma KidsLeafSplit(keys: seq<Key>, vals: seq<Value>, ck: Option<Key>, ck': Option<Key>, m: nat)
    requires |vals| == |keys| && m <= |keys|
    ensures Kids(Leaf(keys[..m], vals[..m]), ck) == Kids(Leaf(keys, vals), ck)[..m]
    ensures Kids(Leaf(keys[m..], vals[m..]), ck') == Kids(Leaf(keys, vals), ck)[m..]
  {
  }

  lemma KidsLeafRemove(keys: seq<Key>, vals: seq<Value>, ck: Option<Key>, index: nat)
    requires |vals| == |keys| && index < |keys|
    ensures Kids(Leaf(RemoveAt(keys, index), RemoveAt(vals, index)), ck) == RemoveAt(Kids(Leaf(keys, vals), ck), index)
  {
  }

  /** Removing a sub-tree; when it is the first one, its successor inherits the critical key of the node. */
  lemma KidsInnerRemove(d: NodeData, ck: Option<Key>, index: nat)
    requires WellFormed(d, false) && index < |d.tree|
    ensures index > 0 || |d.tree| == 1 ==> Kids(InnerWithout(d, index), ck) == RemoveAt(Kids(d, ck), index)
    ensures index == 0 && |d.tree| > 1 ==> Kids(InnerWithout(d, index), ck) == [Sub(ck, d.tree[1])] + Kids(d, ck)[2..]
  {
  }

  lemma KidsInnerJoin(l: NodeData, critKey: Key, r: NodeData, ck: Option<Key>)
    requires WellFormed(l, false) && WellFormed(r, false)
    ensures Kids(Inner(l.keys + [critKey] + r.keys, l.tree + r.tree), ck) == Kids(l, ck) + Kids(r, Some(critKey))
  {
  }

  lemma KidsLeafJoin(l: NodeData, r: NodeData, ck: Option<Key>, ck': Option<Key>)
    requires WellFormed(l, true) && WellFormed(r, true)
    ensures Kids(Leaf(l.keys + r.keys, l.vals + r.vals), ck) == Kids(l, ck) + Kids(r, ck')
  {
  }

  /** Inserting into one half of a split list is inserting into the whole. */
  lemma InsertIntoHalf<T>(s: seq<T>, m: nat, at: nat, x: T)
    requires m <= |s| && at <= |s|
    ensures at <= m ==> InsertAt(s[..m], at, x) + s[m..] == InsertAt(s, at, x)
    ensures m <= at ==> s[..m] + InsertAt(s[m..], at - m, x) == InsertAt(s, at, x)
  {
  }
}
