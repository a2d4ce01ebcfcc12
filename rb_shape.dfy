// The red-black fix-up of timeseries/cs207rbtree.py on the logical tree:
// what `recolored`, `rotate_left`, `rotate_right`, `balance`, `update` and
// `set` do to the tree a ref denotes. The ref-level code in RbTree is proved
// to denote exactly these trees; the properties of `set` are proved here.
//
// The source finds the parent of a node by a key search from the root
// (`get_parent`), so every operation below names a position by the key of
// the node there, which picks out one node in a tree in search order.
module RbShape {
  import opened Results
  import opened DbStorage
  import opened SearchTree

  /** `BinaryNode.blacken` and `BinaryNode.redden`. */
  function Blacken(p: Paint): Paint { if p == Red then Black else p }

  function Redden(p: Paint): Paint { if p == Black then Red else p }

  /** A node that `is_red`; an empty child is not red. */
  predicate IsRed<V>(t: Tree<V>) { t.T? && t.paint == Red }

  function BlackenT<V>(t: Tree<V>): Tree<V>
  {
    if t.Empty? then t else t.(paint := Blacken(t.paint))
  }

  function ReddenT<V>(t: Tree<V>): Tree<V>
  {
    if t.Empty? then t else t.(paint := Redden(t.paint))
  }

  /** Every node has a red-black colour. */
  predicate Colored<V>(t: Tree<V>)
  {
    match t
    case Empty => true
    case T(l, _, _, r, p) => p != NoColor && Colored(l) && Colored(r)
  }

  /** `_insert` on the logical tree. */
  function InsertT<V>(t: Tree<V>, key: int, v: V, paint: Paint): Tree<V>
  {
    match t
    case Empty => T(Empty, key, v, Empty, paint)
    case T(l, k, x, r, p) =>
      if key < k then T(InsertT(l, key, v, paint), k, x, r, p)
      else if key > k then T(l, k, x, InsertT(r, key, v, paint), p)
      else T(l, k, v, r, p)
  }

  /** `rotate_left`: the right child becomes the head, colours unchanged. */
  function RotateLeftT<V>(t: Tree<V>): Tree<V>
    requires t.T? && t.right.T?
  {
    var x := t.right;
    T(T(t.left, t.key, t.value, x.left, t.paint), x.key, x.value, x.right, x.paint)
  }

  /** `rotate_right`: the left child becomes the head, colours unchanged. */
  function RotateRightT<V>(t: Tree<V>): Tree<V>
    requires t.T? && t.left.T?
  {
    var x := t.left;
    T(x.left, x.key, x.value, T(x.right, t.key, t.value, t.right, t.paint), x.paint)
  }

  /** `recolored`: the node turns red, its children black. */
  function RecoloredT<V>(t: Tree<V>): Tree<V>
    requires t.T?
  {
    T(BlackenT(t.left), t.key, t.value, BlackenT(t.right), Redden(t.paint))
  }

  /** After a rotation to the right: the node rotated down is reddened and
      the new head blackened. */
  function FixRightT<V>(u: Tree<V>): Tree<V>
    requires u.T?
  {
    T(u.left, u.key, u.value, ReddenT(u.right), Blacken(u.paint))
  }

  function FixLeftT<V>(u: Tree<V>): Tree<V>
    requires u.T?
  {
    T(ReddenT(u.left), u.key, u.value, u.right, Blacken(u.paint))
  }

  /** `balance` at the head of `t`: nothing for an empty or red head;
      otherwise the first red child with a red child is fixed, by
      `recolored` when the other child is red and by one or two rotations
      otherwise. */
  function BalanceLocalT<V>(t: Tree<V>): Tree<V>
  {
    if t.Empty? || t.paint == Red then t
    else if IsRed(t.left) && (IsRed(t.left.left) || IsRed(t.left.right)) then BalanceLeftT(t)
    else if IsRed(t.right) && (IsRed(t.right.right) || IsRed(t.right.left)) then BalanceRightT(t)
    else t
  }

  /** The cases of a red left child with a red child: a red uncle is
      recoloured; a red outer grandchild takes a right rotation, a red
      inner one a left rotation of the child first. */
  function BalanceLeftT<V>(t: Tree<V>): Tree<V>
    requires t.T? && IsRed(t.left) && (IsRed(t.left.left) || IsRed(t.left.right))
  {
    if IsRed(t.right) then RecoloredT(t)
    else if IsRed(t.left.left) then FixRightT(RotateRightT(t))
    else FixRightT(RotateRightT(t.(left := RotateLeftT(t.left))))
  }

  /** The mirror cases, for a red right child. */
  function BalanceRightT<V>(t: Tree<V>): Tree<V>
    requires t.T? && IsRed(t.right) && (IsRed(t.right.right) || IsRed(t.right.left))
  {
    if IsRed(t.left) then RecoloredT(t)
    else if IsRed(t.right.right) then FixLeftT(RotateLeftT(t))
    else FixLeftT(RotateLeftT(t.(right := RotateRightT(t.right))))
  }

  /** The side of a parent a child hangs on, as `get_parent` reports it. */
  datatype Side = L | R

  /** `balance` of the node with key `k`, wherever the walk finds it. */
  function BalanceAtT<V>(t: Tree<V>, k: int): Tree<V>
  {
    match t
    case Empty => t
    case T(l, x, v, r, p) =>
      if k < x then T(BalanceAtT(l, k), x, v, r, p)
      else if k > x then T(l, x, v, BalanceAtT(r, k), p)
      else BalanceLocalT(t)
  }

  /** The key of the node whose child holds `c`: what `get_parent` finds. */
  function ParentKey<V>(t: Tree<V>, c: int): int
    requires Ordered(t) && c in Keys(t) && c != t.key
  {
    assert Keys(t) == Keys(t.left) + {t.key} + Keys(t.right);
    var s := if c < t.key then t.left else t.right;
    assert c in Keys(s);
    if s.key == c then t.key else ParentKey(s, c)
  }

  /** `balance` of the child of node `c` on the side of `key`, if any. */
  function BalanceChildT<V>(t: Tree<V>, c: int, key: int): Tree<V>
    requires Ordered(t) && c in Keys(t)
  {
    FindKey(t, c);
    var n := Find(t, c);
    var s := if key < n.key then n.left else n.right;
    if s.Empty? then t else BalanceAtT(t, s.key)
  }

  /** `update`: from the node with key `c` up to the head, each round
      balances the child of the current node on the side of the inserted
      `key`, then the child of its parent on that side, then moves to the
      parent; at the head, its child on that side and then the head itself
      are balanced. */
  function UpdateT<V>(t: Tree<V>, key: int, c: int): Tree<V>
    requires Ordered(t) && c in Keys(t)
    decreases Depth(t, c)
  {
    if t.key == c then
      var t1 := BalanceChildT(t, c, key);
      BalanceLocalT(t1)
    else
      var p := ParentKey(t, c);
      ParentKeyFacts(t, c);
      var t1 := BalanceChildT(t, c, key);
      BalanceChildBelow(t, c, key, p);
      var t2 := BalanceChildT(t1, p, key);
      BalanceChildBelow(t1, p, key, p);
      UpdateT(t2, key, p)
  }

  /** `set`: insert a red node (or a new value), `update` from it, then
      blacken the head. */
  function SetT<V>(t: Tree<V>, key: int, v: V): Tree<V>
    requires Ordered(t)
  {
    InsertFacts(t, key, v, Red);
    BlackenT(UpdateT(InsertT(t, key, v, Red), key, key))
  }

  // ---------------------------------------------------------------------
  // The walk.

  /** In search order the walk to `k` stops at the node holding `k`, whose
      subtree lies inside the tree. */
  lemma {:induction false} FindKey<V>(t: Tree<V>, k: int)
    requires Ordered(t)
    ensures Find(t, k).T? <==> k in Keys(t)
    ensures Find(t, k).T? ==> Find(t, k).key == k
    ensures Keys(Find(t, k)) <= Keys(t) && Ordered(Find(t, k))
  {
    match t
    case Empty =>
    case T(l, x, _, r, _) =>
      if k < x {
        FindKey(l, k);
      } else if k > x {
        FindKey(r, k);
      }
  }

  /** A subtree met on the walk to `j` contains the subtrees met further
      down, and not `j` itself below its head. */
  lemma {:induction false} FindNested<V>(t: Tree<V>, j: int, k: int)
    requires Ordered(t) && k in Keys(Find(t, j)) && k != j
    ensures Keys(Find(t, k)) <= Keys(Find(t, j)) && j !in Keys(Find(t, k))
  {
    FindKey(t, j);
    match t
    case Empty =>
    case T(l, x, _, r, _) =>
      if j < x {
        FindKey(l, j);
        FindNested(l, j, k);
      } else if j > x {
        FindKey(r, j);
        FindNested(r, j, k);
      } else if k < x {
        FindKey(l, k);
      } else {
        FindKey(r, k);
      }
  }

  /** Walking to `k` inside the subtree met on the walk to `j` ends where
      walking to `k` from the head does. */
  lemma {:induction false} FindWithin<V>(t: Tree<V>, j: int, k: int)
    requires Ordered(t) && k in Keys(Find(t, j))
    ensures Find(Find(t, j), k) == Find(t, k)
  {
    match t
    case Empty =>
    case T(l, x, _, r, _) =>
      if j < x {
        FindKey(l, j);
        FindWithin(l, j, k);
      } else if j > x {
        FindKey(r, j);
        FindWithin(r, j, k);
      }
  }

  /** The walk of `get_parent` for `key` is at subtree `sub` of `t` and on
      course: `sub` holds the key exactly when `t` does, is the subtree at
      its own key, and the key's parent is found within it. */
  ghost predicate OnWalk<V>(t: Tree<V>, sub: Tree<V>, key: int)
  {
    Ordered(t) ==>
      t.T? && t.key != key &&
      (key in Keys(t) <==> key in Keys(sub)) &&
      (sub.T? ==>
         sub.key != key && sub == Find(t, sub.key) && Ordered(sub) &&
         (key in Keys(t) ==> ParentKey(t, key) == ParentKey(sub, key)))
  }

  lemma OnWalkStart<V>(t: Tree<V>, key: int)
    requires t.T? && t.key != key
    ensures OnWalk(t, t, key)
  {
  }

  /** When neither child holds the key, the walk goes on to the child on
      the key's side. */
  lemma OnWalkStep<V>(t: Tree<V>, sub: Tree<V>, key: int)
    requires OnWalk(t, sub, key) && sub.T?
    requires !(sub.left.T? && sub.left.key == key) && !(sub.right.T? && sub.right.key == key)
    ensures OnWalk(t, if key < sub.key then sub.left else sub.right, key)
  {
    if Ordered(t) {
      assert Keys(sub) == Keys(sub.left) + {sub.key} + Keys(sub.right);
      var c := if key < sub.key then sub.left else sub.right;
      if c.T? {
        FindWithin(t, sub.key, c.key);
      }
    }
  }

  /** When a child holds the key, the node is the key's parent, and the
      key's side is the left one exactly when the key is smaller. */
  lemma OnWalkFound<V>(t: Tree<V>, sub: Tree<V>, key: int)
    requires Ordered(t) && OnWalk(t, sub, key) && sub.T?
    requires (sub.left.T? && sub.left.key == key) || (sub.right.T? && sub.right.key == key)
    ensures key in Keys(t) && key != t.key && ParentKey(t, key) == sub.key && sub == Find(t, sub.key)
    ensures (sub.left.T? && sub.left.key == key) <==> key < sub.key
  {
    assert Keys(sub) == Keys(sub.left) + {sub.key} + Keys(sub.right);
    if sub.left.T? && sub.left.key == key {
      assert key in Keys(sub.left);
    } else {
      assert key in Keys(sub.right);
    }
  }

  lemma {:induction false} ParentKeyFacts<V>(t: Tree<V>, c: int)
    requires Ordered(t) && c in Keys(t) && c != t.key
    ensures ParentKey(t, c) in Keys(t) && ParentKey(t, c) != c
    ensures Depth(t, ParentKey(t, c)) + 1 == Depth(t, c)
    ensures c in Keys(Find(t, ParentKey(t, c)))
    ensures var n := Find(t, ParentKey(t, c));
      n.T? && (if c < n.key then n.left else n.right).T? && (if c < n.key then n.left else n.right).key == c
  {
    var s := if c < t.key then t.left else t.right;
    if s.key != c {
      ParentKeyFacts(s, c);
      FindKey(s, ParentKey(s, c));
    }
  }

  // ---------------------------------------------------------------------
  // Rebalancing keeps the entries.

  lemma RotateLeftEntries<V>(t: Tree<V>)
    requires t.T? && t.right.T?
    ensures Entries(RotateLeftT(t)) == Entries(t)
  {
    var x := t.right;
    var a, b, c, d, e := Entries(t.left), [(t.key, t.value)], Entries(x.left), [(x.key, x.value)], Entries(x.right);
    assert Entries(RotateLeftT(t)) == (a + b + c) + d + e;
    assert Entries(t) == a + b + (c + d + e);
    ConcatRegroup(a, b, c, d, e);
  }

  lemma RotateRightEntries<V>(t: Tree<V>)
    requires t.T? && t.left.T?
    ensures Entries(RotateRightT(t)) == Entries(t)
  {
    var x := t.left;
    var a, b, c, d, e := Entries(x.left), [(x.key, x.value)], Entries(x.right), [(t.key, t.value)], Entries(t.right);
    assert Entries(RotateRightT(t)) == a + b + (c + d + e);
    assert Entries(t) == (a + b + c) + d + e;
    ConcatRegroup(a, b, c, d, e);
  }

  /** Moving the brackets of a five-part concatenation. */
  lemma ConcatRegroup<T>(a: seq<T>, b: seq<T>, c: seq<T>, d: seq<T>, e: seq<T>)
    ensures (a + b + c) + d + e == a + b + (c + d + e)
  {
    assert (a + b + c) + d + e == a + b + c + d + e;
    assert a + b + (c + d + e) == a + b + c + d + e;
  }

  /** A red child of the head has a red child. */
  predicate RedRed<V>(t: Tree<V>)
  {
    t.T? &&
    ((IsRed(t.left) && (IsRed(t.left.left) || IsRed(t.left.right))) ||
     (IsRed(t.right) && (IsRed(t.right.left) || IsRed(t.right.right))))
  }

  /** What `balance` does to a black head: nothing unless a red child has
      a red child; then, when both children are red, the head turns red
      and the children black; otherwise the rotations leave a black head
      with two red children. An empty or red head is left alone. */
  lemma BalanceLocalCases<V>(t: Tree<V>)
    ensures t.Empty? || t.paint == Red || !RedRed(t) ==> BalanceLocalT(t) == t
    ensures t.T? && t.paint == Black && RedRed(t) && IsRed(t.left) && IsRed(t.right) ==>
      var b := BalanceLocalT(t);
      b == RecoloredT(t) && b.paint == Red && b.left.paint == Black && b.right.paint == Black
    ensures t.T? && t.paint == Black && RedRed(t) && !(IsRed(t.left) && IsRed(t.right)) ==>
      var b := BalanceLocalT(t);
      b.T? && b.paint == Black && IsRed(b.left) && IsRed(b.right)
  {
  }

  /** `balance` only rotates and recolours: the in-order entries stay. */
  lemma BalanceLocalEntries<V>(t: Tree<V>)
    ensures Entries(BalanceLocalT(t)) == Entries(t)
  {
    if t.T? && t.paint != Red {
      var l, r := t.left, t.right;
      if IsRed(l) && (IsRed(l.left) || IsRed(l.right)) {
        if IsRed(r) {
        } else if IsRed(l.left) {
          RotateRightEntries(t);
        } else {
          RotateLeftEntries(l);
          RotateRightEntries(t.(left := RotateLeftT(l)));
        }
      } else if IsRed(r) && (IsRed(r.right) || IsRed(r.left)) {
        if IsRed(l) {
        } else if IsRed(r.right) {
          RotateLeftEntries(t);
        } else {
          RotateRightEntries(r);
          RotateLeftEntries(t.(right := RotateRightT(r)));
        }
      }
    }
  }

  lemma {:induction false} BalanceAtEntries<V>(t: Tree<V>, k: int)
    ensures Entries(BalanceAtT(t, k)) == Entries(t)
  {
    match t
    case Empty =>
    case T(l, x, _, r, _) =>
      if k < x {
        BalanceAtEntries(l, k);
      } else if k > x {
        BalanceAtEntries(r, k);
      } else {
        BalanceLocalEntries(t);
      }
  }

  /** Balancing below the node with key `j` leaves that node's depth. */
  lemma {:induction false} BalanceAtBelow<V>(t: Tree<V>, k: int, j: int)
    requires Ordered(t) && j in Keys(t) && k in Keys(Find(t, j)) && k != j
    ensures Depth(BalanceAtT(t, k), j) == Depth(t, j)
  {
    match t
    case Empty =>
    case T(l, x, _, r, _) =>
      FindKey(t, j);
      if j < x {
        FindKey(l, j);
        BalanceAtBelow(l, k, j);
      } else if j > x {
        FindKey(r, j);
        BalanceAtBelow(r, k, j);
      }
  }

  lemma BalanceChildBelow<V>(t: Tree<V>, c: int, key: int, j: int)
    requires Ordered(t) && c in Keys(t) && j in Keys(t) && (c == j || c in Keys(Find(t, j)))
    ensures Entries(BalanceChildT(t, c, key)) == Entries(t)
    ensures Ordered(BalanceChildT(t, c, key)) && Keys(BalanceChildT(t, c, key)) == Keys(t)
    ensures Depth(BalanceChildT(t, c, key), j) == Depth(t, j)
  {
    FindKey(t, c);
    var n := Find(t, c);
    var s := if key < n.key then n.left else n.right;
    if s.T? {
      BalanceAtEntries(t, s.key);
      OrderedIffIncreasing(t);
      OrderedIffIncreasing(BalanceAtT(t, s.key));
      SameEntries(t, BalanceAtT(t, s.key));
      assert s.key in Keys(Find(t, c));
      if c != j {
        FindNested(t, j, c);
      }
      BalanceAtBelow(t, s.key, j);
    }
  }

  lemma {:induction false} UpdateEntries<V>(t: Tree<V>, key: int, c: int)
    requires Ordered(t) && c in Keys(t)
    ensures Entries(UpdateT(t, key, c)) == Entries(t)
    decreases Depth(t, c)
  {
    if t.key == c {
      BalanceChildBelow(t, c, key, c);
      BalanceLocalEntries(BalanceChildT(t, c, key));
    } else {
      var p := ParentKey(t, c);
      ParentKeyFacts(t, c);
      var t1 := BalanceChildT(t, c, key);
      BalanceChildBelow(t, c, key, p);
      var t2 := BalanceChildT(t1, p, key);
      BalanceChildBelow(t1, p, key, p);
      UpdateEntries(t2, key, p);
    }
  }

  // ---------------------------------------------------------------------
  // Colours.

  lemma BalanceLocalColored<V>(t: Tree<V>)
    requires Colored(t)
    ensures Colored(BalanceLocalT(t))
  {
    if t.T? && t.paint != Red {
      var l, r := t.left, t.right;
      assert Colored(l) && Colored(r);
      if l.T? {
        assert Colored(l.left) && Colored(l.right);
      }
      if r.T? {
        assert Colored(r.left) && Colored(r.right);
      }
    }
  }

  lemma {:induction false} BalanceAtColored<V>(t: Tree<V>, k: int)
    requires Colored(t)
    ensures Colored(BalanceAtT(t, k))
  {
    match t
    case Empty =>
    case T(l, x, _, r, _) =>
      if k < x {
        BalanceAtColored(l, k);
      } else if k > x {
        BalanceAtColored(r, k);
      } else {
        BalanceLocalColored(t);
      }
  }

  lemma {:induction false} UpdateColored<V>(t: Tree<V>, key: int, c: int)
    requires Ordered(t) && c in Keys(t) && Colored(t)
    ensures Colored(UpdateT(t, key, c))
    decreases Depth(t, c)
  {
    FindKey(t, c);
    var n := Find(t, c);
    var s := if key < n.key then n.left else n.right;
    if s.T? {
      BalanceAtColored(t, s.key);
    }
    var t1 := BalanceChildT(t, c, key);
    if t.key == c {
      BalanceLocalColored(t1);
    } else {
      var p := ParentKey(t, c);
      ParentKeyFacts(t, c);
      BalanceChildBelow(t, c, key, p);
      FindKey(t1, p);
      var m := Find(t1, p);
      var s' := if key < m.key then m.left else m.right;
      if s'.T? {
        BalanceAtColored(t1, s'.key);
      }
      var t2 := BalanceChildT(t1, p, key);
      BalanceChildBelow(t1, p, key, p);
      UpdateColored(t2, key, p);
    }
  }

  // ---------------------------------------------------------------------
  // What `set` promises.

  /** `_insert` maps the key to the new value and keeps every other entry
      and the search order; a new node gets the given colour. */
  lemma {:induction false} InsertFacts<V>(t: Tree<V>, key: int, v: V, paint: Paint)
    ensures Keys(InsertT(t, key, v, paint)) == Keys(t) + {key}
    ensures forall k :: Lookup(InsertT(t, key, v, paint), k) == if k == key then Some(v) else Lookup(t, k)
    ensures Ordered(t) ==> Ordered(InsertT(t, key, v, paint))
    ensures Colored(t) && paint != NoColor ==> Colored(InsertT(t, key, v, paint))
  {
    match t
    case Empty =>
    case T(l, k, _, r, _) =>
      if key < k {
        InsertFacts(l, key, v, paint);
      } else if key > k {
        InsertFacts(r, key, v, paint);
      }
  }

  /** After `set` the tree is in search order, maps the key to the new
      value and every other key to its old value, and has a black head. */
  lemma SetFacts<V>(t: Tree<V>, key: int, v: V)
    requires Ordered(t)
    ensures Ordered(SetT(t, key, v)) && Keys(SetT(t, key, v)) == Keys(t) + {key}
    ensures forall k :: Lookup(SetT(t, key, v), k) == if k == key then Some(v) else Lookup(t, k)
    ensures Colored(t) ==> Colored(SetT(t, key, v)) && SetT(t, key, v).paint == Black
  {
    var t0 := InsertT(t, key, v, Red);
    InsertFacts(t, key, v, Red);
    var u := UpdateT(t0, key, key);
    UpdateEntries(t0, key, key);
    assert Entries(BlackenT(u)) == Entries(u);
    SameEntries(t0, BlackenT(u));
    if Colored(t) {
      UpdateColored(t0, key, key);
    }
  }
}
