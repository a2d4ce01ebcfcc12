// The logical content of a binary tree, independent of how its nodes are
// referenced or stored: what `BinaryTree.get` finds by walking it, its
// in-order sequence of entries, and the search-order invariant that both
// tree files in timeseries/ rely on.
module SearchTree {
  import opened Results
  import opened DbStorage

  datatype Tree<V> = Empty | T(left: Tree<V>, key: int, value: V, right: Tree<V>, paint: Paint)

  function Keys<V>(t: Tree<V>): set<int>
  {
    match t
    case Empty => {}
    case T(l, k, _, r, _) => Keys(l) + {k} + Keys(r)
  }

  /** The walk of `get`: left on a smaller key, right on a larger one,
      stop at an equal one or at an empty child. */
  function Lookup<V>(t: Tree<V>, k: int): Option<V>
  {
    match t
    case Empty => None
    case T(l, key, v, r, _) => if k < key then Lookup(l, k) else if k > key then Lookup(r, k) else Some(v)
  }

  /** The subtree the same walk stops at: the node holding `k`, or Empty. */
  function Find<V>(t: Tree<V>, k: int): Tree<V>
  {
    match t
    case Empty => Empty
    case T(l, key, _, r, _) => if k < key then Find(l, k) else if k > key then Find(r, k) else t
  }

  /** How many nodes the walk passes before it stops. */
  function Depth<V>(t: Tree<V>, k: int): nat
  {
    match t
    case Empty => 0
    case T(l, key, _, r, _) => if k < key then 1 + Depth(l, k) else if k > key then 1 + Depth(r, k) else 0
  }

  /** Search order: every key left of a node is smaller, every key right of
      it larger. Keys are then distinct. */
  predicate Ordered<V>(t: Tree<V>)
  {
    match t
    case Empty => true
    case T(l, k, _, r, _) =>
      Ordered(l) && Ordered(r) && (forall j | j in Keys(l) :: j < k) && (forall j | j in Keys(r) :: k < j)
  }

  /** The in-order sequence of (key, value) entries. */
  function Entries<V>(t: Tree<V>): seq<(int, V)>
  {
    match t
    case Empty => []
    case T(l, k, v, r, _) => Entries(l) + [(k, v)] + Entries(r)
  }

  /** Keys strictly increase along a sequence of entries. */
  predicate KeysIncrease<V>(s: seq<(int, V)>)
  {
    forall i, j | 0 <= i < j < |s| :: s[i].0 < s[j].0
  }

  /** The value the first entry with key `k` carries. */
  function Assoc<V>(s: seq<(int, V)>, k: int): Option<V>
  {
    if s == [] then None else if s[0].0 == k then Some(s[0].1) else Assoc(s[1..], k)
  }

  function MapValues<V, W>(t: Tree<V>, f: V -> W): Tree<W>
  {
    match t
    case Empty => Empty
    case T(l, k, v, r, p) => T(MapValues(l, f), k, f(v), MapValues(r, f), p)
  }

  /** Entry of the rightmost node, where `_find_max` stops. */
  function Rightmost<V>(t: Tree<V>): (int, V)
    requires t.T?
  {
    if t.right.Empty? then (t.key, t.value) else Rightmost(t.right)
  }

  /** The tree `_delete` leaves, or `None` for its KeyError: the node with
      the key gives way to its only child, or, when it has two, to a node of
      colour `paint` holding the largest entry of its left subtree. */
  function DeleteT<V>(t: Tree<V>, key: int, paint: Paint): Option<Tree<V>>
  {
    match t
    case Empty => None
    case T(l, k, v, r, p) =>
      if key < k then
        match DeleteT(l, key, paint)
        case None => None
        case Some(l') => Some(t.(left := l'))
      else if key > k then
        match DeleteT(r, key, paint)
        case None => None
        case Some(r') => Some(t.(right := r'))
      else if l.T? && r.T? then
        var m := Rightmost(l);
        match DeleteT(l, m.0, paint)
        case None => None
        case Some(l') => Some(T(l', m.0, m.1, r, paint))
      else if l.T? then Some(l)
      else Some(r)
  }

  // ---------------------------------------------------------------------
  // Facts about entries and search order.

  /** Some entry of `s` has key `k`. */
  ghost predicate HasKey<V>(s: seq<(int, V)>, k: int)
  {
    exists i :: 0 <= i < |s| && s[i].0 == k
  }

  /** The entries hold exactly the tree's keys. */
  lemma EntriesKeys<V>(t: Tree<V>)
    ensures forall i | 0 <= i < |Entries(t)| :: Entries(t)[i].0 in Keys(t)
    ensures forall k | k in Keys(t) :: HasKey(Entries(t), k)
  {
    EntriesInKeys(t);
    KeysInEntries(t);
  }

  lemma {:induction false} EntriesInKeys<V>(t: Tree<V>)
    ensures forall i | 0 <= i < |Entries(t)| :: Entries(t)[i].0 in Keys(t)
  {
    match t
    case Empty =>
    case T(l, k, v, r, _) =>
      EntriesInKeys(l);
      EntriesInKeys(r);
      var s := Entries(t);
      assert s == Entries(l) + [(k, v)] + Entries(r);
      assert Keys(t) == Keys(l) + {k} + Keys(r);
      forall i | 0 <= i < |s| ensures s[i].0 in Keys(t) {
        if i < |Entries(l)| {
          assert s[i] == Entries(l)[i];
        } else if i == |Entries(l)| {
          assert s[i] == (k, v);
        } else {
          assert s[i] == Entries(r)[i - |Entries(l)| - 1];
        }
      }
  }

  lemma {:induction false} KeysInEntries<V>(t: Tree<V>)
    ensures forall k | k in Keys(t) :: HasKey(Entries(t), k)
  {
    match t
    case Empty =>
    case T(l, k, v, r, _) =>
      KeysInEntries(l);
      KeysInEntries(r);
      var s := Entries(t);
      assert s == Entries(l) + [(k, v)] + Entries(r);
      assert Keys(t) == Keys(l) + {k} + Keys(r);
      forall j | j in Keys(t) ensures HasKey(s, j) {
        if j in Keys(l) {
          var i :| 0 <= i < |Entries(l)| && Entries(l)[i].0 == j;
          assert s[i] == Entries(l)[i];
        } else if j == k {
          assert s[|Entries(l)|] == (k, v);
        } else {
          var i :| 0 <= i < |Entries(r)| && Entries(r)[i].0 == j;
          assert s[|Entries(l)| + 1 + i] == Entries(r)[i];
        }
      }
  }

  lemma {:induction false} OrderedIncreasing<V>(t: Tree<V>)
    requires Ordered(t)
    ensures KeysIncrease(Entries(t))
  {
    match t
    case Empty =>
    case T(l, k, v, r, _) =>
      OrderedIncreasing(l);
      OrderedIncreasing(r);
      EntriesKeys(l);
      EntriesKeys(r);
      var el, er := Entries(l), Entries(r);
      var s := Entries(t);
      assert s == el + [(k, v)] + er;
      var nl := |el|;
      forall i, j | 0 <= i < j < |s| ensures s[i].0 < s[j].0 {
        if j < nl {
          assert s[i] == el[i] && s[j] == el[j];
        } else if i > nl {
          assert s[i] == er[i - nl - 1] && s[j] == er[j - nl - 1];
        } else {
          if i < nl {
            assert s[i] == el[i] && el[i].0 in Keys(l);
          }
          if j > nl {
            assert s[j] == er[j - nl - 1] && er[j - nl - 1].0 in Keys(r);
          }
        }
      }
  }

  lemma {:induction false} IncreasingOrdered<V>(t: Tree<V>)
    requires KeysIncrease(Entries(t))
    ensures Ordered(t)
  {
    match t
    case Empty =>
    case T(l, k, v, r, _) =>
      EntriesKeys(l);
      EntriesKeys(r);
      var el, er := Entries(l), Entries(r);
      var s := Entries(t);
      assert s == el + [(k, v)] + er;
      var nl := |el|;
      assert KeysIncrease(el) by {
        forall i, j | 0 <= i < j < nl ensures el[i].0 < el[j].0 {
          assert s[i] == el[i] && s[j] == el[j];
        }
      }
      assert KeysIncrease(er) by {
        forall i, j | 0 <= i < j < |er| ensures er[i].0 < er[j].0 {
          assert s[nl + 1 + i] == er[i] && s[nl + 1 + j] == er[j];
        }
      }
      IncreasingOrdered(l);
      IncreasingOrdered(r);
      forall j | j in Keys(l) ensures j < k {
        var i :| 0 <= i < nl && el[i].0 == j;
        assert s[i] == el[i] && s[nl] == (k, v);
      }
      forall j | j in Keys(r) ensures k < j {
        var i :| 0 <= i < |er| && er[i].0 == j;
        assert s[nl + 1 + i] == er[i] && s[nl] == (k, v);
      }
  }

  /** A tree is in search order exactly when its in-order keys increase. */
  lemma OrderedIffIncreasing<V>(t: Tree<V>)
    ensures Ordered(t) <==> KeysIncrease(Entries(t))
  {
    if Ordered(t) {
      OrderedIncreasing(t);
    }
    if KeysIncrease(Entries(t)) {
      IncreasingOrdered(t);
    }
  }

  lemma {:induction false} AssocAppend<V>(a: seq<(int, V)>, b: seq<(int, V)>, k: int)
    ensures Assoc(a + b, k) == if Assoc(a, k).Some? then Assoc(a, k) else Assoc(b, k)
  {
    if a != [] {
      assert (a + b)[0] == a[0];
      assert (a + b)[1..] == a[1..] + b;
      AssocAppend(a[1..], b, k);
    } else {
      assert a + b == b;
    }
  }

  lemma {:induction false} AssocAbsent<V>(s: seq<(int, V)>, k: int)
    requires forall i | 0 <= i < |s| :: s[i].0 != k
    ensures Assoc(s, k) == None
  {
    if s != [] {
      AssocAbsent(s[1..], k);
    }
  }

  /** In search order, the walk of `get` finds exactly the entry with that
      key: the tree is a map from its keys to their values. */
  lemma {:induction false} LookupIsAssoc<V>(t: Tree<V>, k: int)
    requires Ordered(t)
    ensures Lookup(t, k) == Assoc(Entries(t), k)
  {
    match t
    case Empty =>
    case T(l, key, v, r, _) =>
      EntriesKeys(l);
      EntriesKeys(r);
      var el, er := Entries(l), Entries(r);
      assert Entries(t) == el + ([(key, v)] + er);
      AssocAppend(el, [(key, v)] + er, k);
      AssocAppend([(key, v)], er, k);
      if k < key {
        LookupIsAssoc(l, k);
        if Assoc(el, k).None? {
          forall i | 0 <= i < |er| ensures er[i].0 != k {
            assert er[i].0 in Keys(r);
          }
          AssocAbsent(er, k);
        }
      } else if k > key {
        LookupIsAssoc(r, k);
        forall i | 0 <= i < |el| ensures el[i].0 != k {
          assert el[i].0 in Keys(l);
        }
        AssocAbsent(el, k);
      } else {
        forall i | 0 <= i < |el| ensures el[i].0 != k {
          assert el[i].0 in Keys(l);
        }
        AssocAbsent(el, k);
      }
  }

  /** In search order, `get` finds a key exactly when the tree holds it. */
  lemma {:induction false} LookupFindsKeys<V>(t: Tree<V>, k: int)
    requires Ordered(t)
    ensures Lookup(t, k).Some? <==> k in Keys(t)
  {
    match t
    case Empty =>
    case T(l, key, _, r, _) =>
      if k < key {
        LookupFindsKeys(l, k);
      } else if k > key {
        LookupFindsKeys(r, k);
      }
  }

  /** Two trees with the same in-order entries are the same map, and one is
      in search order exactly when the other is: what rotations rely on. */
  lemma SameEntries<V>(t1: Tree<V>, t2: Tree<V>)
    requires Entries(t1) == Entries(t2) && Ordered(t1)
    ensures Ordered(t2) && Keys(t2) == Keys(t1)
    ensures forall k :: Lookup(t2, k) == Lookup(t1, k)
  {
    OrderedIffIncreasing(t1);
    OrderedIffIncreasing(t2);
    EntriesKeys(t1);
    EntriesKeys(t2);
    forall k ensures k in Keys(t1) <==> k in Keys(t2) {
      if k in Keys(t1) {
        var i :| 0 <= i < |Entries(t1)| && Entries(t1)[i].0 == k;
      }
      if k in Keys(t2) {
        var i :| 0 <= i < |Entries(t2)| && Entries(t2)[i].0 == k;
      }
    }
    forall k ensures Lookup(t2, k) == Lookup(t1, k) {
      LookupIsAssoc(t1, k);
      LookupIsAssoc(t2, k);
    }
  }

  /** Relabelling values leaves the walk alone. */
  lemma {:induction false} LookupMapValues<V, W>(t: Tree<V>, f: V -> W, k: int)
    ensures Lookup(MapValues(t, f), k) == if Lookup(t, k).Some? then Some(f(Lookup(t, k).value)) else None
  {
    match t
    case Empty =>
    case T(l, key, _, r, _) =>
      if k < key {
        LookupMapValues(l, f, k);
      } else if k > key {
        LookupMapValues(r, f, k);
      }
  }

  /** Relabelling values keeps the keys and the search order. */
  lemma {:induction false} MapValuesKeys<V, W>(t: Tree<V>, f: V -> W)
    ensures Keys(MapValues(t, f)) == Keys(t)
    ensures Ordered(MapValues(t, f)) <==> Ordered(t)
  {
    match t
    case Empty =>
    case T(l, _, _, r, _) =>
      MapValuesKeys(l, f);
      MapValuesKeys(r, f);
  }

  /** In search order the rightmost entry holds the largest key, and the
      walk for that key finds it. */
  lemma {:induction false} RightmostIsMax<V>(t: Tree<V>)
    requires t.T? && Ordered(t)
    ensures Rightmost(t).0 in Keys(t)
    ensures forall k | k in Keys(t) :: k <= Rightmost(t).0
    ensures Lookup(t, Rightmost(t).0) == Some(Rightmost(t).1)
  {
    if t.right.T? {
      RightmostIsMax(t.right);
    }
  }
}
