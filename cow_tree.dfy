// The copy-on-write tree shared by timeseries/cs207bst.py and
// timeseries/cs207rbtree.py: lazily loaded references to nodes and values,
// the walk of `get`, path-copying `_insert` and `_delete`, `_find_max`,
// and the recursive `store` that `commit` triggers.
//
// A Python node object is referenced by exactly one ref object of the live
// tree, so refs and nodes are modelled as values: a ref is its cached
// referent (if any) and its address (0 when it has none). Loading a node
// caches it in its ref; the cache changes nothing observable and is not
// tracked.
module CowTree {
  import opened Results
  import opened DbStorage
  import opened SearchTree
  import PyText

  /** A value the tree holds in memory: the int, float or str passed to
      `set`, or the text `ValueRef.get` read back from the file. A float
      carries the text `str()` gives it. */
  datatype Scalar = Int(i: int) | Float(x: real, text: string) | Str(s: string)

  /** `str(v)`: what `ValueRef.store` writes for a value. */
  function Text(v: Scalar): string
  {
    match v
    case Int(i) => PyText.ShowInt(i)
    case Float(_, t) => t
    case Str(s) => s
  }

  datatype ValueRef = ValueRef(referent: Option<Scalar>, address: nat)
  datatype NodeRef = NodeRef(referent: Option<Node>, address: nat)
  datatype Node = Node(left: NodeRef, key: int, value: ValueRef, right: NodeRef, paint: Paint)

  /** `BinaryNodeRef()`: no node, no address. */
  const EmptyRef: NodeRef := NodeRef(None, 0)

  type Records = map<nat, Record>

  predicate IsNodeAt(recs: Records, a: nat) { 0 < a && a in recs && recs[a].NodeRecord? }

  predicate IsTextAt(recs: Records, a: nat) { 0 < a && a in recs && recs[a].TextRecord? }

  predicate ChildOk(recs: Records, child: nat, parent: nat)
  {
    child == 0 || (child < parent && IsNodeAt(recs, child))
  }

  /** The file holds a tree written children first: a node record points
      only to earlier node records and to a value record. */
  ghost predicate Wf(recs: Records)
  {
    forall a | IsNodeAt(recs, a) ::
      ChildOk(recs, recs[a].left, a) && ChildOk(recs, recs[a].right, a) && IsTextAt(recs, recs[a].value)
  }

  ghost predicate ValueRefOk(recs: Records, v: ValueRef)
  {
    if v.address == 0 then v.referent.Some? else IsTextAt(recs, v.address)
  }

  /** Every address a ref holds names a node record. */
  ghost predicate RefOk(recs: Records, r: NodeRef)
  {
    (r.address != 0 ==> IsNodeAt(recs, r.address)) &&
    match r.referent
    case None => true
    case Some(n) => RefOk(recs, n.left) && RefOk(recs, n.right) && ValueRefOk(recs, n.value)
  }

  ghost predicate NodeOk(recs: Records, n: Node)
  {
    RefOk(recs, n.left) && RefOk(recs, n.right) && ValueRefOk(recs, n.value)
  }

  ghost predicate OptNodeOk(recs: Records, node: Option<Node>)
  {
    node.Some? ==> NodeOk(recs, node.value)
  }

  /** `BinaryNodeRef.bytes_to_referent`: a node whose refs hold addresses
      only. */
  function Decode(recs: Records, a: nat): (n: Node)
    requires Wf(recs) && IsNodeAt(recs, a)
    ensures NodeOk(recs, n)
  {
    var rec := recs[a];
    Node(NodeRef(None, rec.left), rec.key, ValueRef(None, rec.value), NodeRef(None, rec.right), rec.paint)
  }

  /** `_follow` on a node ref: the cached node, else the node read from its
      address, else None. */
  function Follow(recs: Records, r: NodeRef): (node: Option<Node>)
    requires Wf(recs) && RefOk(recs, r)
    ensures OptNodeOk(recs, node)
    ensures node.None? <==> r.referent.None? && r.address == 0
  {
    match r.referent
    case Some(n) => Some(n)
    case None => if r.address == 0 then None else Some(Decode(recs, r.address))
  }

  /** `_follow` on a value ref: the cached value, else the text read from
      its address. */
  function FollowValue(recs: Records, v: ValueRef): Scalar
    requires ValueRefOk(recs, v)
  {
    match v.referent
    case Some(x) => x
    case None => Str(recs[v.address].text)
  }

  function Max(a: nat, b: nat): nat { if a < b then b else a }

  /** Height of the cached part below a ref. */
  function Height(r: NodeRef): nat
  {
    match r.referent
    case None => 0
    case Some(n) => 1 + Max(Height(n.left), Height(n.right))
  }

  /** Together with `Reach`, a measure that decreases from a node to each
      node `Follow` gives for its children. */
  function Rank(node: Option<Node>): nat
  {
    match node
    case None => 0
    case Some(n) => 1 + Max(Height(n.left), Height(n.right))
  }

  function Reach(node: Option<Node>): nat
  {
    match node
    case None => 0
    case Some(n) => Max(n.left.address, n.right.address)
  }

  predicate Below(child: Option<Node>, parent: Option<Node>)
  {
    Rank(child) < Rank(parent) || (Rank(child) == Rank(parent) && Reach(child) < Reach(parent))
  }

  lemma FollowChild(recs: Records, n: Node)
    requires Wf(recs) && NodeOk(recs, n)
    ensures Below(Follow(recs, n.left), Some(n)) && Below(Follow(recs, n.right), Some(n))
  {
  }

  // ---------------------------------------------------------------------
  // What a ref denotes.

  /** The tree stored at a node record, values as the text read back. */
  ghost function Load(recs: Records, a: nat): Tree<Scalar>
    requires Wf(recs) && IsNodeAt(recs, a)
    decreases a
  {
    var rec := recs[a];
    T(if rec.left == 0 then Empty else Load(recs, rec.left),
      rec.key, Str(recs[rec.value].text),
      if rec.right == 0 then Empty else Load(recs, rec.right),
      rec.paint)
  }

  /** The tree a ref denotes in memory: cached nodes as they are now,
      anything not yet loaded as it is in the file. */
  ghost function View(recs: Records, r: NodeRef): Tree<Scalar>
    requires Wf(recs) && RefOk(recs, r)
    decreases Height(r)
  {
    match r.referent
    case Some(n) => T(View(recs, n.left), n.key, FollowValue(recs, n.value), View(recs, n.right), n.paint)
    case None => if r.address == 0 then Empty else Load(recs, r.address)
  }

  ghost function OptView(recs: Records, node: Option<Node>): Tree<Scalar>
    requires Wf(recs) && OptNodeOk(recs, node)
  {
    match node
    case None => Empty
    case Some(n) => T(View(recs, n.left), n.key, FollowValue(recs, n.value), View(recs, n.right), n.paint)
  }

  /** Following a ref does not change what it denotes. */
  lemma ViewFollow(recs: Records, r: NodeRef)
    requires Wf(recs) && RefOk(recs, r)
    ensures View(recs, r) == OptView(recs, Follow(recs, r))
  {
  }

  // ---------------------------------------------------------------------
  // get, _insert, _find_max, _delete

  /** The loop of `BinaryTree.get`: walks from the root and returns the
      value of the node with the key, or raises KeyError. */
  method Search(recs: Records, root: NodeRef, key: int) returns (r: Result<Scalar>)
    requires Wf(recs) && RefOk(recs, root)
    ensures r.Ok? <==> Lookup(View(recs, root), key).Some?
    ensures r.Ok? ==> Lookup(View(recs, root), key) == Some(r.value)
    ensures r.Err? ==> r.error == KeyError
  {
    ViewFollow(recs, root);
    var node := Follow(recs, root);
    while node.Some?
      invariant OptNodeOk(recs, node)
      invariant Lookup(OptView(recs, node), key) == Lookup(View(recs, root), key)
      decreases Rank(node), Reach(node)
    {
      var n := node.value;
      FollowChild(recs, n);
      if key < n.key {
        ViewFollow(recs, n.left);
        node := Follow(recs, n.left);
      } else if key > n.key {
        ViewFollow(recs, n.right);
        node := Follow(recs, n.right);
      } else {
        return Ok(FollowValue(recs, n.value));
      }
    }
    return Err(KeyError);
  }

  /** `_insert`: copies the nodes on the walk to `key` into fresh nodes
      without address; a missing key gets a new leaf with two empty refs and
      the node constructor's default colour `paint`, a present key a clone
      of its node holding the new value ref. */
  function Insert(recs: Records, node: Option<Node>, key: int, v: ValueRef, paint: Paint): (r: NodeRef)
    requires Wf(recs) && OptNodeOk(recs, node) && ValueRefOk(recs, v)
    ensures RefOk(recs, r) && r.address == 0 && r.referent.Some?
    ensures Keys(View(recs, r)) == Keys(OptView(recs, node)) + {key}
    ensures forall k :: (Lookup(View(recs, r), k) ==
                          if k == key then Some(FollowValue(recs, v)) else Lookup(OptView(recs, node), k))
    decreases Rank(node), Reach(node)
  {
    match node
    case None => NodeRef(Some(Node(EmptyRef, key, v, EmptyRef, paint)), 0)
    case Some(n) =>
      FollowChild(recs, n);
      ViewFollow(recs, n.left);
      ViewFollow(recs, n.right);
      if key < n.key then
        NodeRef(Some(n.(left := Insert(recs, Follow(recs, n.left), key, v, paint))), 0)
      else if key > n.key then
        NodeRef(Some(n.(right := Insert(recs, Follow(recs, n.right), key, v, paint))), 0)
      else
        NodeRef(Some(n.(value := v)), 0)
  }

  /** `_insert` keeps search order. */
  lemma {:induction false} InsertOrdered(recs: Records, node: Option<Node>, key: int, v: ValueRef, paint: Paint)
    requires Wf(recs) && OptNodeOk(recs, node) && ValueRefOk(recs, v)
    requires Ordered(OptView(recs, node))
    ensures Ordered(View(recs, Insert(recs, node, key, v, paint)))
    decreases Rank(node), Reach(node)
  {
    match node
    case None =>
    case Some(n) =>
      FollowChild(recs, n);
      ViewFollow(recs, n.left);
      ViewFollow(recs, n.right);
      if key < n.key {
        InsertOrdered(recs, Follow(recs, n.left), key, v, paint);
      } else if key > n.key {
        InsertOrdered(recs, Follow(recs, n.right), key, v, paint);
      }
  }

  /** The node the walk to `key` stops at, if any. */
  ghost function Reached(recs: Records, node: Option<Node>, key: int): Option<Node>
    requires Wf(recs) && OptNodeOk(recs, node)
    decreases Rank(node), Reach(node)
  {
    match node
    case None => None
    case Some(n) =>
      FollowChild(recs, n);
      if key < n.key then Reached(recs, Follow(recs, n.left), key)
      else if key > n.key then Reached(recs, Follow(recs, n.right), key)
      else Some(n)
  }

  /** The sibling refs the walk to `key` passes by, top-down. */
  ghost function OffPath(recs: Records, node: Option<Node>, key: int): seq<NodeRef>
    requires Wf(recs) && OptNodeOk(recs, node)
    decreases Rank(node), Reach(node)
  {
    match node
    case None => []
    case Some(n) =>
      FollowChild(recs, n);
      if key < n.key then [n.right] + OffPath(recs, Follow(recs, n.left), key)
      else if key > n.key then [n.left] + OffPath(recs, Follow(recs, n.right), key)
      else []
  }

  /** Every ref on the walk to `key` holds a node and no address yet. */
  ghost predicate FreshPath(r: NodeRef, key: int)
    decreases Height(r)
  {
    r.address == 0 && r.referent.Some? &&
    var n := r.referent.value;
    if key < n.key then FreshPath(n.left, key) else if key > n.key then FreshPath(n.right, key) else true
  }

  /** Copy on write: `_insert` builds new nodes along the walk only and
      shares every sibling subtree with the old tree, ref for ref; the node
      for `key` is the old one with only its value ref replaced, or a new
      leaf. */
  lemma {:induction false} InsertCopiesPath(recs: Records, node: Option<Node>, key: int, v: ValueRef, paint: Paint)
    requires Wf(recs) && OptNodeOk(recs, node) && ValueRefOk(recs, v)
    ensures var r := Insert(recs, node, key, v, paint);
      FreshPath(r, key) && OffPath(recs, r.referent, key) == OffPath(recs, node, key) &&
      Reached(recs, r.referent, key) ==
        Some(match Reached(recs, node, key)
             case Some(m) => m.(value := v)
             case None => Node(EmptyRef, key, v, EmptyRef, paint))
    decreases Rank(node), Reach(node)
  {
    match node
    case None =>
    case Some(n) =>
      FollowChild(recs, n);
      if key < n.key {
        InsertCopiesPath(recs, Follow(recs, n.left), key, v, paint);
      } else if key > n.key {
        InsertCopiesPath(recs, Follow(recs, n.right), key, v, paint);
      }
  }

  /** The node `_find_max` returns: the last one down the right spine. */
  function MaxNode(recs: Records, n: Node): (m: Node)
    requires Wf(recs) && NodeOk(recs, n)
    ensures NodeOk(recs, m)
    ensures (m.key, FollowValue(recs, m.value)) == Rightmost(OptView(recs, Some(n)))
    decreases Rank(Some(n)), Reach(Some(n))
  {
    FollowChild(recs, n);
    ViewFollow(recs, n.right);
    match Follow(recs, n.right)
    case None => n
    case Some(c) => MaxNode(recs, c)
  }

  /** `_find_max`: follows right refs until there is none. */
  method FindMax(recs: Records, n: Node) returns (m: Node)
    requires Wf(recs) && NodeOk(recs, n)
    ensures m == MaxNode(recs, n)
    ensures (m.key, FollowValue(recs, m.value)) == Rightmost(OptView(recs, Some(n)))
  {
    m := n;
    while true
      invariant NodeOk(recs, m) && MaxNode(recs, m) == MaxNode(recs, n)
      decreases Rank(Some(m)), Reach(Some(m))
    {
      FollowChild(recs, m);
      var next := Follow(recs, m.right);
      if next.None? {
        return;
      }
      m := next.value;
    }
  }

  /** `_delete`: copies the walk to `key` like `_insert`; the node with the
      key is replaced by its only child, or, when it has two, by a node
      built from the largest entry of its left subtree (deleted from there)
      with the node constructor's default colour `paint`. A missing key is
      the KeyError. */
  function Delete(recs: Records, node: Option<Node>, key: int, paint: Paint): (r: Result<NodeRef>)
    requires Wf(recs) && OptNodeOk(recs, node)
    ensures r.Ok? ==> RefOk(recs, r.value)
    ensures r.Err? ==> r.error == KeyError
    decreases Rank(node), Reach(node)
  {
    match node
    case None => Err(KeyError)
    case Some(n) =>
      FollowChild(recs, n);
      if key < n.key then
        match Delete(recs, Follow(recs, n.left), key, paint)
        case Err(e) => Err(e)
        case Ok(l) => Ok(NodeRef(Some(n.(left := l)), 0))
      else if key > n.key then
        match Delete(recs, Follow(recs, n.right), key, paint)
        case Err(e) => Err(e)
        case Ok(r) => Ok(NodeRef(Some(n.(right := r)), 0))
      else
        var left := Follow(recs, n.left);
        var right := Follow(recs, n.right);
        if left.Some? && right.Some? then
          var replacement := MaxNode(recs, left.value);
          match Delete(recs, left, replacement.key, paint)
          case Err(e) => Err(e)
          case Ok(l) => Ok(NodeRef(Some(Node(l, replacement.key, replacement.value, n.right, paint)), 0))
        else if left.Some? then Ok(n.left)
        else Ok(n.right)
  }

  /** What a successful delete leaves: search order, the other keys, and
      the other keys' values. */
  ghost predicate Removed(old_: Tree<Scalar>, new_: Tree<Scalar>, key: int)
  {
    Ordered(new_) && Keys(new_) == Keys(old_) - {key} &&
    forall k :: Lookup(new_, k) == if k == key then None else Lookup(old_, k)
  }

  /** Removing the root of a tree in search order that has at most one
      child leaves that child. */
  lemma RemoveRootWithOneChild(t: Tree<Scalar>)
    requires t.T? && Ordered(t) && (t.left.Empty? || t.right.Empty?)
    ensures Removed(t, if t.left.T? then t.left else t.right, t.key)
  {
    var c := if t.left.T? then t.left else t.right;
    assert t.key !in Keys(c);
    assert Keys(c) == Keys(t) - {t.key};
    forall k ensures Lookup(c, k) == if k == t.key then None else Lookup(t, k) {
      LookupFindsKeys(t.left, k);
      LookupFindsKeys(t.right, k);
    }
  }

  /** Replacing the root by the largest entry of its left subtree, deleted
      from there, removes the root's key. */
  lemma RemoveRootByMax(t: Tree<Scalar>, l: Tree<Scalar>, m: (int, Scalar), p: Paint)
    requires t.T? && Ordered(t) && t.left.T? && m == Rightmost(t.left)
    requires Removed(t.left, l, m.0)
    ensures Removed(t, T(l, m.0, m.1, t.right, p), t.key)
  {
    RightmostIsMax(t.left);
    var u := T(l, m.0, m.1, t.right, p);
    forall k ensures Lookup(u, k) == if k == t.key then None else Lookup(t, k) {
      LookupFindsKeys(t.left, k);
      LookupFindsKeys(t.right, k);
    }
  }

  /** Deleting below the root, on the side the key lies on. */
  lemma RemoveBelow(t: Tree<Scalar>, sub: Tree<Scalar>, key: int)
    requires t.T? && Ordered(t) && key != t.key
    requires Removed(if key < t.key then t.left else t.right, sub, key)
    ensures key in Keys(t) <==> key in Keys(if key < t.key then t.left else t.right)
    ensures Removed(t, if key < t.key then t.(left := sub) else t.(right := sub), key)
  {
    forall k ensures Lookup(if key < t.key then t.(left := sub) else t.(right := sub), k) ==
                     if k == key then None else Lookup(t, k) {
    }
  }

  /** In search order `_delete` succeeds exactly when the key is present
      and then removes that key and nothing else. */
  lemma {:induction false} DeleteRemoves(recs: Records, node: Option<Node>, key: int, paint: Paint)
    requires Wf(recs) && OptNodeOk(recs, node) && Ordered(OptView(recs, node))
    ensures var r := Delete(recs, node, key, paint);
      (r.Ok? <==> key in Keys(OptView(recs, node))) &&
      (r.Ok? ==> Removed(OptView(recs, node), View(recs, r.value), key))
    decreases Rank(node), Reach(node), 1
  {
    match node
    case None =>
    case Some(n) =>
      FollowChild(recs, n);
      ViewFollow(recs, n.left);
      ViewFollow(recs, n.right);
      var t := OptView(recs, node);
      if key < n.key {
        var sub := Follow(recs, n.left);
        DeleteRemoves(recs, sub, key, paint);
        if Delete(recs, sub, key, paint).Ok? {
          RemoveBelow(t, View(recs, Delete(recs, sub, key, paint).value), key);
        }
      } else if key > n.key {
        var sub := Follow(recs, n.right);
        DeleteRemoves(recs, sub, key, paint);
        if Delete(recs, sub, key, paint).Ok? {
          RemoveBelow(t, View(recs, Delete(recs, sub, key, paint).value), key);
        }
      } else {
        DeleteAtNode(recs, n, paint);
      }
  }

  /** The case of `DeleteRemoves` where the walk has reached the key. */
  lemma {:induction false} DeleteAtNode(recs: Records, n: Node, paint: Paint)
    requires Wf(recs) && NodeOk(recs, n) && Ordered(OptView(recs, Some(n)))
    ensures var r := Delete(recs, Some(n), n.key, paint);
      r.Ok? && Removed(OptView(recs, Some(n)), View(recs, r.value), n.key)
    decreases Rank(Some(n)), Reach(Some(n)), 0
  {
    FollowChild(recs, n);
    ViewFollow(recs, n.left);
    ViewFollow(recs, n.right);
    var t := OptView(recs, Some(n));
    var left := Follow(recs, n.left);
    var right := Follow(recs, n.right);
    if left.Some? && right.Some? {
      var replacement := MaxNode(recs, left.value);
      RightmostIsMax(t.left);
      DeleteRemoves(recs, left, replacement.key, paint);
      var l := Delete(recs, left, replacement.key, paint).value;
      RemoveRootByMax(t, View(recs, l), (replacement.key, FollowValue(recs, replacement.value)), paint);
    } else {
      RemoveRootWithOneChild(t);
    }
  }

  /** `_delete` on refs builds the tree `DeleteT` describes, and fails
      exactly where `DeleteT` does. */
  lemma {:induction false} ViewDelete(recs: Records, node: Option<Node>, key: int, paint: Paint)
    requires Wf(recs) && OptNodeOk(recs, node)
    ensures var r := Delete(recs, node, key, paint);
      var d := DeleteT(OptView(recs, node), key, paint);
      (r.Ok? <==> d.Some?) && (r.Ok? ==> View(recs, r.value) == d.value)
    decreases Rank(node), Reach(node), 1
  {
    match node
    case None =>
    case Some(n) =>
      if key < n.key {
        ViewDeleteLeft(recs, n, key, paint);
      } else if key > n.key {
        ViewDeleteRight(recs, n, key, paint);
      } else {
        ViewDeleteAtNode(recs, n, paint);
      }
  }

  /** The case of `ViewDelete` where the walk goes left. */
  lemma {:induction false} ViewDeleteLeft(recs: Records, n: Node, key: int, paint: Paint)
    requires Wf(recs) && NodeOk(recs, n) && key < n.key
    ensures var r := Delete(recs, Some(n), key, paint);
      var d := DeleteT(OptView(recs, Some(n)), key, paint);
      (r.Ok? <==> d.Some?) && (r.Ok? ==> View(recs, r.value) == d.value)
    decreases Rank(Some(n)), Reach(Some(n)), 0
  {
    FollowChild(recs, n);
    ViewFollow(recs, n.left);
    ViewDelete(recs, Follow(recs, n.left), key, paint);
  }

  /** The case of `ViewDelete` where the walk goes right. */
  lemma {:induction false} ViewDeleteRight(recs: Records, n: Node, key: int, paint: Paint)
    requires Wf(recs) && NodeOk(recs, n) && key > n.key
    ensures var r := Delete(recs, Some(n), key, paint);
      var d := DeleteT(OptView(recs, Some(n)), key, paint);
      (r.Ok? <==> d.Some?) && (r.Ok? ==> View(recs, r.value) == d.value)
    decreases Rank(Some(n)), Reach(Some(n)), 0
  {
    FollowChild(recs, n);
    ViewFollow(recs, n.right);
    ViewDelete(recs, Follow(recs, n.right), key, paint);
  }

  /** The case of `ViewDelete` where the walk has reached the key. */
  lemma {:induction false} ViewDeleteAtNode(recs: Records, n: Node, paint: Paint)
    requires Wf(recs) && NodeOk(recs, n)
    ensures var r := Delete(recs, Some(n), n.key, paint);
      var d := DeleteT(OptView(recs, Some(n)), n.key, paint);
      (r.Ok? <==> d.Some?) && (r.Ok? ==> View(recs, r.value) == d.value)
    decreases Rank(Some(n)), Reach(Some(n)), 0
  {
    FollowChild(recs, n);
    ViewFollow(recs, n.left);
    ViewFollow(recs, n.right);
    var left := Follow(recs, n.left);
    if left.Some? && Follow(recs, n.right).Some? {
      var replacement := MaxNode(recs, left.value);
      ViewDelete(recs, left, replacement.key, paint);
    }
  }

  // ---------------------------------------------------------------------
  // store and commit

  /** The text a value ref has in the file, or will have once stored. */
  function StoredText(recs: Records, v: ValueRef): string
    requires ValueRefOk(recs, v)
  {
    if v.address != 0 then recs[v.address].text else Text(v.referent.value)
  }

  /** What a ref denotes in the file once `store` has run. A ref that
      already has an address is not written again, so it keeps the tree of
      its record even when its node was changed in memory. */
  ghost function DiskView(recs: Records, r: NodeRef): Tree<Scalar>
    requires Wf(recs) && RefOk(recs, r)
    decreases Height(r)
  {
    if r.address != 0 then Load(recs, r.address)
    else
      match r.referent
      case None => Empty
      case Some(n) => T(DiskView(recs, n.left), n.key, Str(StoredText(recs, n.value)), DiskView(recs, n.right), n.paint)
  }

  /** `str()` applied to a value: the form it comes back in after a
      commit. */
  function Stringify(v: Scalar): Scalar { Str(Text(v)) }

  /** The file only grows: every record keeps its address and content. */
  ghost predicate Extends(before: Records, after: Records)
  {
    forall a | a in before :: a in after && after[a] == before[a]
  }

  lemma {:induction false} LoadExtends(before: Records, after: Records, a: nat)
    requires Wf(before) && Wf(after) && Extends(before, after) && IsNodeAt(before, a)
    ensures Load(after, a) == Load(before, a)
    decreases a
  {
    var rec := before[a];
    if rec.left != 0 {
      LoadExtends(before, after, rec.left);
    }
    if rec.right != 0 {
      LoadExtends(before, after, rec.right);
    }
  }

  /** Appending records changes nothing a ref denotes, in memory or on
      disk. */
  lemma {:induction false} ViewExtends(before: Records, after: Records, r: NodeRef)
    requires Wf(before) && Wf(after) && Extends(before, after) && RefOk(before, r)
    ensures RefOk(after, r)
    ensures View(after, r) == View(before, r) && DiskView(after, r) == DiskView(before, r)
    decreases Height(r)
  {
    if r.address != 0 {
      LoadExtends(before, after, r.address);
    }
    match r.referent
    case None =>
    case Some(n) =>
      ViewExtends(before, after, n.left);
      ViewExtends(before, after, n.right);
  }

  /** `ValueRef.store`: writes `str` of the value unless the ref already
      has an address. */
  method StoreValue(s: Storage, v: ValueRef) returns (v': ValueRef)
    requires s.Valid() && Wf(s.records) && ValueRefOk(s.records, v)
    modifies s`records, s`end, s`locked
    ensures s.Valid() && Wf(s.records) && Extends(old(s.records), s.records)
    ensures IsTextAt(s.records, v'.address) && v'.referent == v.referent
    ensures s.records[v'.address].text == StoredText(old(s.records), v)
    ensures FollowValue(s.records, v') == FollowValue(old(s.records), v)
    ensures v.address != 0 ==> v' == v && s.records == old(s.records)
  {
    if v.referent.Some? && v.address == 0 {
      ghost var before := s.records;
      var a := s.Write(TextRecord(Text(v.referent.value)));
      WfAppendText(before, a, Text(v.referent.value));
      v' := v.(address := a);
    } else {
      v' := v;
    }
  }

  /** Appending a value record at a fresh address keeps the file well
      formed. */
  lemma WfAppendText(before: Records, a: nat, text: string)
    requires Wf(before) && 0 < a && a !in before
    ensures Wf(before[a := TextRecord(text)]) && Extends(before, before[a := TextRecord(text)])
    ensures IsTextAt(before[a := TextRecord(text)], a)
  {
    var after := before[a := TextRecord(text)];
    forall x | IsNodeAt(after, x)
      ensures ChildOk(after, after[x].left, x) && ChildOk(after, after[x].right, x) && IsTextAt(after, after[x].value)
    {
      assert IsNodeAt(before, x);
    }
  }

  lemma ExtendsTransitive(a: Records, b: Records, c: Records)
    requires Extends(a, b) && Extends(b, c)
    ensures Extends(a, c)
  {
  }

  lemma FollowValueExtends(before: Records, after: Records, v: ValueRef)
    requires Extends(before, after) && ValueRefOk(before, v)
    ensures ValueRefOk(after, v) && FollowValue(after, v) == FollowValue(before, v)
    ensures StoredText(after, v) == StoredText(before, v)
  {
  }

  /** Appending a node record whose children and value are already in the
      file keeps it written children first. */
  lemma WfAppendNode(before: Records, a: nat, rec: Record)
    requires Wf(before) && 0 < a && forall x | x in before :: x < a
    requires rec.NodeRecord?
    requires rec.left == 0 || IsNodeAt(before, rec.left)
    requires rec.right == 0 || IsNodeAt(before, rec.right)
    requires IsTextAt(before, rec.value)
    ensures Wf(before[a := rec]) && Extends(before, before[a := rec])
  {
    var after := before[a := rec];
    forall x | IsNodeAt(after, x)
      ensures ChildOk(after, after[x].left, x) && ChildOk(after, after[x].right, x) && IsTextAt(after, after[x].value)
    {
      if x != a {
        assert IsNodeAt(before, x);
      }
    }
  }

  /** A value ref whose cached value is the one its record holds. */
  ghost predicate CleanValue(recs: Records, v: ValueRef)
    requires ValueRefOk(recs, v)
  {
    v.address != 0 && v.referent.Some? ==> Text(v.referent.value) == recs[v.address].text
  }

  /** Every cached node that has an address is still what its record says:
      nothing stored was changed in memory. */
  ghost predicate Clean(recs: Records, r: NodeRef)
    requires Wf(recs) && RefOk(recs, r)
    decreases Height(r)
  {
    match r.referent
    case None => true
    case Some(n) =>
      Clean(recs, n.left) && Clean(recs, n.right) && CleanValue(recs, n.value) &&
      (r.address != 0 ==>
         recs[r.address] == NodeRecord(n.left.address, n.key, n.value.address, n.right.address, n.paint) &&
         (n.left.address == 0 ==> n.left.referent.None?) &&
         (n.right.address == 0 ==> n.right.referent.None?))
  }

  ghost predicate OptClean(recs: Records, node: Option<Node>)
    requires Wf(recs) && OptNodeOk(recs, node)
  {
    node.Some? ==> Clean(recs, node.value.left) && Clean(recs, node.value.right) && CleanValue(recs, node.value.value)
  }

  lemma {:induction false} LoadStringified(recs: Records, a: nat)
    requires Wf(recs) && IsNodeAt(recs, a)
    ensures MapValues(Load(recs, a), Stringify) == Load(recs, a)
    decreases a
  {
    var rec := recs[a];
    if rec.left != 0 {
      LoadStringified(recs, rec.left);
    }
    if rec.right != 0 {
      LoadStringified(recs, rec.right);
    }
  }

  /** For a clean ref, `store` persists exactly the tree in memory, each
      value turned into its `str()`. */
  lemma {:induction false} CleanDiskView(recs: Records, r: NodeRef)
    requires Wf(recs) && RefOk(recs, r) && Clean(recs, r)
    ensures DiskView(recs, r) == MapValues(View(recs, r), Stringify)
    decreases Height(r)
  {
    if r.address != 0 {
      LoadStringified(recs, r.address);
    }
    match r.referent
    case None =>
    case Some(n) =>
      CleanDiskView(recs, n.left);
      CleanDiskView(recs, n.right);
  }

  lemma FollowClean(recs: Records, r: NodeRef)
    requires Wf(recs) && RefOk(recs, r) && Clean(recs, r)
    ensures OptClean(recs, Follow(recs, r))
  {
  }

  /** `_insert` keeps a clean tree clean: it only adds nodes without
      address. */
  lemma {:induction false} InsertClean(recs: Records, node: Option<Node>, key: int, v: ValueRef, paint: Paint)
    requires Wf(recs) && OptNodeOk(recs, node) && ValueRefOk(recs, v)
    requires OptClean(recs, node) && CleanValue(recs, v)
    ensures Clean(recs, Insert(recs, node, key, v, paint))
    decreases Rank(node), Reach(node)
  {
    match node
    case None =>
    case Some(n) =>
      FollowChild(recs, n);
      FollowClean(recs, n.left);
      FollowClean(recs, n.right);
      if key < n.key {
        InsertClean(recs, Follow(recs, n.left), key, v, paint);
      } else if key > n.key {
        InsertClean(recs, Follow(recs, n.right), key, v, paint);
      }
  }

  lemma {:induction false} MaxNodeClean(recs: Records, n: Node)
    requires Wf(recs) && NodeOk(recs, n) && OptClean(recs, Some(n))
    ensures OptClean(recs, Some(MaxNode(recs, n)))
    decreases Rank(Some(n)), Reach(Some(n))
  {
    FollowChild(recs, n);
    FollowClean(recs, n.right);
    match Follow(recs, n.right)
    case None =>
    case Some(c) => MaxNodeClean(recs, c);
  }

  /** `_delete` keeps a clean tree clean. */
  lemma {:induction false} DeleteClean(recs: Records, node: Option<Node>, key: int, paint: Paint)
    requires Wf(recs) && OptNodeOk(recs, node) && OptClean(recs, node)
    ensures Delete(recs, node, key, paint).Ok? ==> Clean(recs, Delete(recs, node, key, paint).value)
    decreases Rank(node), Reach(node)
  {
    match node
    case None =>
    case Some(n) =>
      FollowChild(recs, n);
      FollowClean(recs, n.left);
      FollowClean(recs, n.right);
      if key < n.key {
        DeleteClean(recs, Follow(recs, n.left), key, paint);
      } else if key > n.key {
        DeleteClean(recs, Follow(recs, n.right), key, paint);
      } else {
        var left := Follow(recs, n.left);
        if left.Some? && Follow(recs, n.right).Some? {
          var replacement := MaxNode(recs, left.value);
          MaxNodeClean(recs, left.value);
          DeleteClean(recs, left, replacement.key, paint);
        }
      }
  }

  lemma {:induction false} CleanExtends(before: Records, after: Records, r: NodeRef)
    requires Wf(before) && Wf(after) && Extends(before, after) && RefOk(before, r) && Clean(before, r)
    ensures RefOk(after, r) && Clean(after, r)
    decreases Height(r)
  {
    ViewExtends(before, after, r);
    match r.referent
    case None =>
    case Some(n) =>
      CleanExtends(before, after, n.left);
      CleanExtends(before, after, n.right);
  }

  /** `r'` is `r` after `store`: every node ref of `r` that held a node
      and no address now has the address of a record of that node, whose
      children and value are the stored forms of its own; every other ref
      is unchanged. */
  ghost predicate StoredAs(recs: Records, r: NodeRef, r': NodeRef)
    decreases Height(r)
  {
    if r.referent.Some? && r.address == 0 then
      var n := r.referent.value;
      r'.referent.Some? &&
      var n' := r'.referent.value;
      IsNodeAt(recs, r'.address) &&
      recs[r'.address] == NodeRecord(n'.left.address, n.key, n'.value.address, n'.right.address, n.paint) &&
      n'.key == n.key && n'.paint == n.paint &&
      StoredValueAs(recs, n.value, n'.value) &&
      StoredAs(recs, n.left, n'.left) && StoredAs(recs, n.right, n'.right)
    else r' == r
  }

  ghost predicate StoredValueAs(recs: Records, v: ValueRef, v': ValueRef)
  {
    v'.referent == v.referent && IsTextAt(recs, v'.address) &&
    (v.address != 0 ==> v' == v) &&
    (v.address == 0 ==> v.referent.Some? && recs[v'.address].text == Text(v.referent.value))
  }

  lemma {:induction false} StoredAsExtends(before: Records, after: Records, r: NodeRef, r': NodeRef)
    requires Extends(before, after) && StoredAs(before, r, r')
    ensures StoredAs(after, r, r')
    decreases Height(r)
  {
    if r.referent.Some? && r.address == 0 {
      StoredAsExtends(before, after, r.referent.value.left, r'.referent.value.left);
      StoredAsExtends(before, after, r.referent.value.right, r'.referent.value.right);
    }
  }

  /** What `store` achieves: the stored ref denotes the same tree in
      memory, its record denotes what `DiskView` said it would persist, an
      address-less result is an empty ref, and a clean tree stays clean. */
  lemma {:induction false} StoredMeaning(before: Records, after: Records, r: NodeRef, r': NodeRef)
    requires Wf(before) && Wf(after) && Extends(before, after)
    requires RefOk(before, r) && StoredAs(after, r, r')
    ensures RefOk(after, r')
    ensures View(after, r') == View(before, r)
    ensures DiskView(after, r') == DiskView(before, r)
    ensures r'.address == 0 ==> r'.referent.None?
    ensures Clean(before, r) ==> Clean(after, r')
    decreases Height(r)
  {
    ViewExtends(before, after, r);
    if r.referent.Some? && r.address == 0 {
      var n, n' := r.referent.value, r'.referent.value;
      StoredMeaning(before, after, n.left, n'.left);
      StoredMeaning(before, after, n.right, n'.right);
      assert NodeOk(after, n');
      if n'.left.address != 0 {
        assert DiskView(after, n'.left) == Load(after, n'.left.address);
      }
      if n'.right.address != 0 {
        assert DiskView(after, n'.right) == Load(after, n'.right.address);
      }
    } else if Clean(before, r) {
      CleanExtends(before, after, r);
    }
  }

  /** `BinaryNodeRef.store`: a ref holding a node and no address first
      stores the node's value, left and right refs (`store_refs`), then
      writes the node record and takes its address; any other ref is left
      as it is. The file only grows. */
  method Store(s: Storage, r: NodeRef) returns (r': NodeRef)
    requires s.Valid() && Wf(s.records) && RefOk(s.records, r)
    modifies s`records, s`end, s`locked
    ensures s.Valid() && Wf(s.records) && Extends(old(s.records), s.records)
    ensures StoredAs(s.records, r, r')
    ensures r.address != 0 || r.referent.None? ==> s.records == old(s.records)
    decreases Height(r)
  {
    if r.referent.Some? && r.address == 0 {
      var n := r.referent.value;
      ghost var s0 := s.records;
      var value := StoreValue(s, n.value);
      ghost var s1 := s.records;
      ViewExtends(s0, s1, n.left);
      ViewExtends(s0, s1, n.right);
      var left := Store(s, n.left);
      ghost var s2 := s.records;
      ViewExtends(s1, s2, n.right);
      var right := Store(s, n.right);
      ghost var s3 := s.records;
      ExtendsTransitive(s1, s2, s3);
      StoredMeaning(s1, s2, n.left, left);
      StoredMeaning(s2, s3, n.right, right);
      StoredAsExtends(s2, s3, n.left, left);
      ViewExtends(s2, s3, left);
      var rec := NodeRecord(left.address, n.key, value.address, right.address, n.paint);
      assert forall x | x in s3 :: x < s.end;
      WfAppendNode(s3, s.end, rec);
      var a := s.Write(rec);
      ghost var s4 := s.records;
      StoredAsExtends(s3, s4, n.left, left);
      StoredAsExtends(s3, s4, n.right, right);
      ExtendsTransitive(s0, s1, s3);
      ExtendsTransitive(s0, s3, s4);
      r' := NodeRef(Some(Node(left, n.key, value, right, n.paint)), a);
    } else {
      r' := r;
    }
  }
}
