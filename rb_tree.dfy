// timeseries/cs207rbtree.py: the red-black variant of the copy-on-write
// tree. `_insert`, `_delete`, `_find_max`, `get` and `store` are those of
// CowTree (new nodes red); `recolored`, `rotate_left`, `rotate_right`,
// `balance` and `update` change node objects in place.
//
// A node changed in place keeps its ref and hence its address: `Put`
// below. Such a node is reached from the head by its key, which is how
// `get_parent` finds it too. Every ref-level operation is proved to denote
// the tree-level operation of RbShape.
module RbTree {
  import opened Results
  import opened DbStorage
  import opened SearchTree
  import opened CowTree
  import opened RbShape
  import Bst

  /** The ref `r` now caching the node `n`: a node object changed in place. */
  function Put(r: NodeRef, n: Node): NodeRef
  {
    NodeRef(Some(n), r.address)
  }

  /** `is_red` of the node a ref leads to; an empty ref is not red. */
  function IsRedRef(recs: Records, r: NodeRef): (b: bool)
    requires Wf(recs) && RefOk(recs, r)
    ensures b <==> IsRed(View(recs, r))
  {
    ViewFollow(recs, r);
    var node := Follow(recs, r);
    node.Some? && node.value.paint == Red
  }

  /** `blacken` of the node a ref leads to, if any. */
  function BlackenRef(recs: Records, r: NodeRef): (r': NodeRef)
    requires Wf(recs) && RefOk(recs, r)
    ensures RefOk(recs, r') && r'.address == r.address
    ensures View(recs, r') == BlackenT(View(recs, r))
  {
    ViewFollow(recs, r);
    match Follow(recs, r)
    case None => r
    case Some(n) => Put(r, n.(paint := Blacken(n.paint)))
  }

  /** `redden` of the node a ref leads to, if any. */
  function ReddenRef(recs: Records, r: NodeRef): (r': NodeRef)
    requires Wf(recs) && RefOk(recs, r)
    ensures RefOk(recs, r') && r'.address == r.address
    ensures View(recs, r') == ReddenT(View(recs, r))
  {
    ViewFollow(recs, r);
    match Follow(recs, r)
    case None => r
    case Some(n) => Put(r, n.(paint := Redden(n.paint)))
  }

  /** `rotate_left` at `r`: the slot that held `r` gets the right child's
      ref, the node takes over its right child's left ref, and the right
      child's node takes `r` as its left ref. */
  function RotateLeftRef(recs: Records, r: NodeRef): (r': NodeRef)
    requires Wf(recs) && RefOk(recs, r) && View(recs, r).T? && View(recs, r).right.T?
    ensures RefOk(recs, r') && r'.referent.Some?
    ensures View(recs, r') == RotateLeftT(View(recs, r))
  {
    ViewFollow(recs, r);
    var n := Follow(recs, r).value;
    ViewFollow(recs, n.right);
    var m := Follow(recs, n.right).value;
    Put(n.right, m.(left := Put(r, n.(right := m.left))))
  }

  /** `rotate_right` at `r`, the mirror image. */
  function RotateRightRef(recs: Records, r: NodeRef): (r': NodeRef)
    requires Wf(recs) && RefOk(recs, r) && View(recs, r).T? && View(recs, r).left.T?
    ensures RefOk(recs, r') && r'.referent.Some?
    ensures View(recs, r') == RotateRightT(View(recs, r))
  {
    ViewFollow(recs, r);
    var n := Follow(recs, r).value;
    ViewFollow(recs, n.left);
    var m := Follow(recs, n.left).value;
    Put(n.left, m.(right := Put(r, n.(left := m.right))))
  }

  /** `recolored`: the node reddened, its children blackened. */
  function RecoloredRef(recs: Records, r: NodeRef): (r': NodeRef)
    requires Wf(recs) && RefOk(recs, r) && View(recs, r).T?
    ensures RefOk(recs, r') && r'.referent.Some?
    ensures View(recs, r') == RecoloredT(View(recs, r))
  {
    ViewFollow(recs, r);
    var n := Follow(recs, r).value;
    Put(r, Node(BlackenRef(recs, n.left), n.key, n.value, BlackenRef(recs, n.right), Redden(n.paint)))
  }

  /** After a rotation to the right: `curr_node.redden()` on the node now
      on the right, `blacken()` on the new head. */
  function FixRightRef(recs: Records, r: NodeRef): (r': NodeRef)
    requires Wf(recs) && RefOk(recs, r) && View(recs, r).T?
    ensures RefOk(recs, r') && r'.referent.Some?
    ensures View(recs, r') == FixRightT(View(recs, r))
  {
    ViewFollow(recs, r);
    var n := Follow(recs, r).value;
    Put(r, n.(right := ReddenRef(recs, n.right), paint := Blacken(n.paint)))
  }

  function FixLeftRef(recs: Records, r: NodeRef): (r': NodeRef)
    requires Wf(recs) && RefOk(recs, r) && View(recs, r).T?
    ensures RefOk(recs, r') && r'.referent.Some?
    ensures View(recs, r') == FixLeftT(View(recs, r))
  {
    ViewFollow(recs, r);
    var n := Follow(recs, r).value;
    Put(r, n.(left := ReddenRef(recs, n.left), paint := Blacken(n.paint)))
  }

  /** `balance(node_ref)` where `r` is `node_ref`; the result is what the
      slot holding `node_ref` holds afterwards. */
  function BalanceLocalRef(recs: Records, r: NodeRef): (r': NodeRef)
    requires Wf(recs) && RefOk(recs, r)
    ensures RefOk(recs, r')
    ensures View(recs, r') == BalanceLocalT(View(recs, r))
  {
    ViewFollow(recs, r);
    var node := Follow(recs, r);
    if node.None? || node.value.paint == Red then r
    else
      var n := node.value;
      ViewFollow(recs, n.left);
      ViewFollow(recs, n.right);
      var l, rt := Follow(recs, n.left), Follow(recs, n.right);
      if IsRedRef(recs, n.left) && (IsRedRef(recs, l.value.left) || IsRedRef(recs, l.value.right)) then
        BalanceLeftRef(recs, r)
      else if IsRedRef(recs, n.right) && (IsRedRef(recs, rt.value.right) || IsRedRef(recs, rt.value.left)) then
        BalanceRightRef(recs, r)
      else r
  }

  /** The branch of `balance` for a red left child with a red child. */
  function BalanceLeftRef(recs: Records, r: NodeRef): (r': NodeRef)
    requires Wf(recs) && RefOk(recs, r)
    requires var t := View(recs, r); t.T? && IsRed(t.left) && (IsRed(t.left.left) || IsRed(t.left.right))
    ensures RefOk(recs, r')
    ensures View(recs, r') == BalanceLeftT(View(recs, r))
  {
    ViewFollow(recs, r);
    var n := Follow(recs, r).value;
    ViewFollow(recs, n.left);
    var l := Follow(recs, n.left).value;
    if IsRedRef(recs, n.right) then RecoloredRef(recs, r)
    else if IsRedRef(recs, l.left) then FixRightRef(recs, RotateRightRef(recs, r))
    else FixRightRef(recs, RotateRightRef(recs, Put(r, n.(left := RotateLeftRef(recs, n.left)))))
  }

  /** The branch of `balance` for a red right child with a red child. */
  function BalanceRightRef(recs: Records, r: NodeRef): (r': NodeRef)
    requires Wf(recs) && RefOk(recs, r)
    requires var t := View(recs, r); t.T? && IsRed(t.right) && (IsRed(t.right.right) || IsRed(t.right.left))
    ensures RefOk(recs, r')
    ensures View(recs, r') == BalanceRightT(View(recs, r))
  {
    ViewFollow(recs, r);
    var n := Follow(recs, r).value;
    ViewFollow(recs, n.right);
    var m := Follow(recs, n.right).value;
    if IsRedRef(recs, n.left) then RecoloredRef(recs, r)
    else if IsRedRef(recs, m.right) then FixLeftRef(recs, RotateLeftRef(recs, r))
    else FixLeftRef(recs, RotateLeftRef(recs, Put(r, n.(right := RotateRightRef(recs, n.right)))))
  }

  /** `balance` of the node with key `k`, changed in place where the walk
      from `r` finds it. */
  function BalanceAtRef(recs: Records, r: NodeRef, k: int): (r': NodeRef)
    requires Wf(recs) && RefOk(recs, r)
    ensures RefOk(recs, r')
    ensures View(recs, r') == BalanceAtT(View(recs, r), k)
    decreases Rank(Follow(recs, r)), Reach(Follow(recs, r))
  {
    ViewFollow(recs, r);
    match Follow(recs, r)
    case None => r
    case Some(n) =>
      FollowChild(recs, n);
      if k < n.key then Put(r, n.(left := BalanceAtRef(recs, n.left, k)))
      else if k > n.key then Put(r, n.(right := BalanceAtRef(recs, n.right, k)))
      else BalanceLocalRef(recs, r)
  }

  /** The node object with key `k`, reached from `r`: `_follow` of the ref
      the source holds for it. */
  function FindNode(recs: Records, r: NodeRef, k: int): (node: Option<Node>)
    requires Wf(recs) && RefOk(recs, r)
    ensures OptNodeOk(recs, node)
    ensures OptView(recs, node) == Find(View(recs, r), k)
    decreases Rank(Follow(recs, r)), Reach(Follow(recs, r))
  {
    ViewFollow(recs, r);
    match Follow(recs, r)
    case None => None
    case Some(n) =>
      FollowChild(recs, n);
      if k < n.key then FindNode(recs, n.left, k)
      else if k > n.key then FindNode(recs, n.right, k)
      else Some(n)
  }

  /** One `balance` call of `update`: on the child of the node with key
      `c` on the side of the inserted `key`. */
  function BalanceChildRef(recs: Records, r: NodeRef, c: int, key: int): (r': NodeRef)
    requires Wf(recs) && RefOk(recs, r) && Ordered(View(recs, r)) && c in Keys(View(recs, r))
    ensures RefOk(recs, r')
    ensures View(recs, r') == BalanceChildT(View(recs, r), c, key)
  {
    FindKey(View(recs, r), c);
    var n := FindNode(recs, r, c).value;
    var s := if key < n.key then n.left else n.right;
    ViewFollow(recs, s);
    match Follow(recs, s)
    case None => r
    case Some(m) => BalanceAtRef(recs, r, m.key)
  }

  /** `_insert` denotes the logical insert. */
  lemma {:induction false} ViewInsert(recs: Records, node: Option<Node>, key: int, v: ValueRef, paint: Paint)
    requires Wf(recs) && OptNodeOk(recs, node) && ValueRefOk(recs, v)
    ensures View(recs, Insert(recs, node, key, v, paint)) == InsertT(OptView(recs, node), key, FollowValue(recs, v), paint)
    decreases Rank(node), Reach(node)
  {
    match node
    case None =>
    case Some(n) =>
      FollowChild(recs, n);
      ViewFollow(recs, n.left);
      ViewFollow(recs, n.right);
      if key < n.key {
        ViewInsert(recs, Follow(recs, n.left), key, v, paint);
      } else if key > n.key {
        ViewInsert(recs, Follow(recs, n.right), key, v, paint);
      }
  }

  /** What `get_parent` returns: the tree's own ref when the key is at the
      head, else the parent node and the side the key's node hangs on. */
  datatype Parent = HeadRef(ref: NodeRef) | Child(node: Node, side: Side)

  /** What `get_parent` promises for a key below the head: the parent
      node of the key's node and the side it hangs on, or KeyError when the
      key is absent. */
  ghost predicate ParentFound(recs: Records, t: Tree<Scalar>, key: int, r: Result<Parent>)
    requires Wf(recs) && Ordered(t) && t.T? && t.key != key
  {
    (r.Ok? <==> key in Keys(t)) &&
    (r.Err? ==> r.error == KeyError) &&
    (r.Ok? ==>
       r.value.Child? && NodeOk(recs, r.value.node) &&
       r.value.node.key == ParentKey(t, key) &&
       OptView(recs, Some(r.value.node)) == Find(t, r.value.node.key) &&
       (r.value.side == L <==> key < r.value.node.key))
  }

  /** The walk of `get_parent` from the tree ref `root`: AttributeError on
      an empty tree, the root ref for the head's key, else down the tree,
      checking both children of each node for the key, until the walk runs
      out (KeyError). */
  method WalkParent(recs: Records, root: NodeRef, key: int) returns (r: Result<Parent>)
    requires Wf(recs) && RefOk(recs, root)
    ensures View(recs, root).Empty? ==> r == Err(AttributeError)
    ensures View(recs, root).T? && View(recs, root).key == key ==> r == Ok(HeadRef(root))
    ensures var t := View(recs, root);
      Ordered(t) && t.T? && t.key != key ==> ParentFound(recs, t, key, r)
  {
    ViewFollow(recs, root);
    var cur := Follow(recs, root);
    if cur.None? {
      return Err(AttributeError);
    }
    if cur.value.key == key {
      return Ok(HeadRef(root));
    }
    ghost var t := View(recs, root);
    OnWalkStart(t, key);
    while cur.Some?
      invariant OptNodeOk(recs, cur) && OnWalk(t, OptView(recs, cur), key)
      decreases Rank(cur), Reach(cur)
    {
      var n := cur.value;
      FollowChild(recs, n);
      ViewFollow(recs, n.left);
      ViewFollow(recs, n.right);
      var left := Follow(recs, n.left);
      var right := Follow(recs, n.right);
      if left.Some? && left.value.key == key {
        if Ordered(t) {
          OnWalkFound(t, OptView(recs, cur), key);
        }
        return Ok(Child(n, L));
      } else if right.Some? && right.value.key == key {
        if Ordered(t) {
          OnWalkFound(t, OptView(recs, cur), key);
        }
        return Ok(Child(n, R));
      }
      OnWalkStep(t, OptView(recs, cur), key);
      // The node under the cursor never holds the key, so the walk moves.
      if key < n.key {
        cur := left;
      } else {
        cur := right;
      }
    }
    r := Err(KeyError);
  }

  class BinaryTree {
    var storage: Storage
    var treeRef: NodeRef

    /** The tree ref is well formed over the file. Nothing requires the
        stored tree to be in search order: nodes changed in place after they
        were stored are not written again. */
    ghost predicate Valid()
      reads this, storage
    {
      Bst.FileOk(storage) && RefOk(storage.records, treeRef)
    }

    ghost function Contents(): Tree<Scalar>
      reads this, storage
      requires Valid()
    {
      View(storage.records, treeRef)
    }

    constructor (storage: Storage)
      requires Bst.FileOk(storage)
      ensures this.storage == storage && Valid() && Contents() == Bst.Committed(storage)
    {
      this.storage := storage;
      treeRef := NodeRef(None, storage.RootAddress());
    }

    /** `_refresh_tree_ref`. */
    method Refresh()
      requires Bst.FileOk(storage)
      modifies this`treeRef
      ensures Valid() && Contents() == Bst.Committed(storage)
      ensures treeRef == NodeRef(None, storage.RootAddress())
    {
      treeRef := NodeRef(None, storage.RootAddress());
    }

    /** `get`: reloads the committed root unless the storage is locked,
        then walks to the key. */
    method Get(key: int) returns (r: Result<Scalar>)
      requires Valid()
      modifies this`treeRef
      ensures Valid()
      ensures old(storage.locked) ==> treeRef == old(treeRef)
      ensures !old(storage.locked) ==> Contents() == Bst.Committed(storage)
      ensures r.Ok? <==> Lookup(Contents(), key).Some?
      ensures r.Ok? ==> Lookup(Contents(), key) == Some(r.value)
      ensures r.Err? ==> r.error == KeyError
    {
      if !storage.locked {
        Refresh();
      }
      r := Search(storage.records, treeRef, key);
    }

    /** `get_parent`: reloads the committed root unless the storage is
        locked, then walks. */
    method GetParent(key: int) returns (r: Result<Parent>)
      requires Valid()
      modifies this`treeRef
      ensures Valid()
      ensures old(storage.locked) ==> treeRef == old(treeRef)
      ensures !old(storage.locked) ==> Contents() == Bst.Committed(storage)
      ensures Contents().Empty? ==> r == Err(AttributeError)
      ensures Contents().T? && Contents().key == key ==> r == Ok(HeadRef(treeRef))
      ensures Ordered(Contents()) && Contents().T? && Contents().key != key ==>
        ParentFound(storage.records, Contents(), key, r)
    {
      if !storage.locked {
        Refresh();
      }
      r := WalkParent(storage.records, treeRef, key);
    }

    /** `get_ref`: the ref of the node with the key; the same walk as
        `get_parent`, returning the child's ref it stops at. */
    method GetRef(key: int) returns (r: Result<NodeRef>)
      requires Valid()
      modifies this`treeRef
      ensures Valid()
      ensures old(storage.locked) ==> treeRef == old(treeRef)
      ensures !old(storage.locked) ==> Contents() == Bst.Committed(storage)
      ensures Contents().Empty? ==> r == Err(AttributeError)
      ensures Ordered(Contents()) && Contents().T? ==>
        (r.Ok? <==> key in Keys(Contents())) &&
        (r.Err? ==> r.error == KeyError) &&
        (r.Ok? ==> RefOk(storage.records, r.value) && View(storage.records, r.value) == Find(Contents(), key))
    {
      var parent := GetParent(key);
      ghost var t := Contents();
      match parent
      case Err(e) =>
        r := Err(e);
      case Ok(HeadRef(ref)) =>
        r := Ok(ref);
      case Ok(Child(n, side)) =>
        r := Ok(if side == L then n.left else n.right);
        if Ordered(t) && t.T? {
          ParentKeyFacts(t, key);
          FindWithin(t, n.key, key);
        }
    }

    /** `update`: from the node with key `key` up to the head. Each round
        finds the parent of the current node with `get_parent`, balances
        the current node's child on the side of `key`, then the parent's
        child on that side, and moves to the parent; at the head it
        balances the head's child on that side and then the head. The
        current ref is named by its node's key; the grandparent lookup the
        source makes only to obtain the parent's ref is not needed. */
    method Update(key: int)
      requires Valid() && storage.locked
      requires Ordered(Contents()) && key in Keys(Contents())
      modifies this`treeRef
      ensures Valid() && Contents() == UpdateT(old(Contents()), key, key)
    {
      var recs := storage.records;
      ghost var target := UpdateT(Contents(), key, key);
      var c := key;
      ViewFollow(recs, treeRef);
      while Follow(recs, treeRef).value.key != c
        invariant Valid() && storage.locked && storage.records == recs
        invariant Ordered(Contents()) && c in Keys(Contents())
        invariant Follow(recs, treeRef).Some? && Follow(recs, treeRef).value.key == Contents().key
        invariant UpdateT(Contents(), key, c) == target
        decreases Depth(Contents(), c)
      {
        var parent := GetParent(c);
        ghost var t := Contents();
        var p := parent.value.node.key;
        ParentKeyFacts(t, c);
        treeRef := BalanceChildRef(recs, treeRef, c, key);
        BalanceChildBelow(t, c, key, p);
        ghost var t1 := Contents();
        treeRef := BalanceChildRef(recs, treeRef, p, key);
        BalanceChildBelow(t1, p, key, p);
        c := p;
        ViewFollow(recs, treeRef);
      }
      treeRef := BalanceChildRef(recs, treeRef, c, key);
      treeRef := BalanceLocalRef(recs, treeRef);
    }

    /** `_insert` of a red node holding `v` from the current head. */
    method InsertRed(key: int, v: Scalar)
      requires Valid()
      modifies this`treeRef
      ensures Valid() && Contents() == InsertT(old(Contents()), key, v, Red)
    {
      var recs := storage.records;
      ViewFollow(recs, treeRef);
      var node := Follow(recs, treeRef);
      var value := ValueRef(Some(v), 0);
      ViewInsert(recs, node, key, value, Red);
      treeRef := Insert(recs, node, key, value, Red);
    }

    /** `self._follow(self._tree_ref).blacken()`. */
    method BlackenHead()
      requires Valid()
      modifies this`treeRef
      ensures Valid() && Contents() == BlackenT(old(Contents()))
    {
      treeRef := BlackenRef(storage.records, treeRef);
    }

    /** `set`: refreshes the root when this call takes the lock, inserts a
        red node (or a new value ref) by `_insert`, looks up its ref,
        rebalances with `update` and blackens the head. */
    method Set(key: int, v: Scalar)
      requires Valid()
      requires Ordered(if storage.locked then Contents() else Bst.Committed(storage))
      modifies this`treeRef, storage`locked
      ensures Valid() && storage.locked
      ensures var base := if old(storage.locked) then old(Contents()) else Bst.Committed(storage);
        Contents() == SetT(base, key, v)
    {
      var acquired := storage.Lock();
      if acquired {
        Refresh();
      }
      ghost var base := Contents();
      InsertFacts(base, key, v, Red);
      InsertRed(key, v);
      var _ := GetRef(key);
      Update(key);
      BlackenHead();
    }

    /** `delete`: `_delete` with red as the default colour of a rebuilt
        node, and no rebalancing. A missing key raises KeyError before the
        tree ref is replaced. */
    method Delete(key: int) returns (r: Result<()>)
      requires Valid()
      modifies this`treeRef, storage`locked
      ensures Valid() && storage.locked
      ensures var base := if old(storage.locked) then old(Contents()) else Bst.Committed(storage);
        (r.Err? ==> r.error == KeyError && Contents() == base) &&
        (r.Ok? <==> DeleteT(base, key, Red).Some?) &&
        (r.Ok? ==> Contents() == DeleteT(base, key, Red).value) &&
        (Ordered(base) ==> (r.Ok? <==> key in Keys(base)) && (r.Ok? ==> Removed(base, Contents(), key)))
    {
      var acquired := storage.Lock();
      if acquired {
        Refresh();
      }
      var recs := storage.records;
      ViewFollow(recs, treeRef);
      var node := Follow(recs, treeRef);
      ViewDelete(recs, node, key, Red);
      if Ordered(Contents()) {
        DeleteRemoves(recs, node, key, Red);
      }
      match CowTree.Delete(recs, node, key, Red)
      case Ok(t) =>
        treeRef := t;
        r := Ok(());
      case Err(e) =>
        r := Err(e);
    }

    /** `commit`: stores every node and value without an address, writes
        the root's address into the superblock and unlocks. The file then
        holds what `DiskView` says: the tree in memory, values as text,
        except below nodes that were already stored, which keep their
        stored form. */
    method Commit() returns (r: Result<()>)
      requires Valid()
      modifies this`treeRef, storage`records, storage`end, storage`locked, storage`header
      ensures Valid() && Contents() == old(Contents())
      ensures r.Ok? ==> Bst.Committed(storage) == DiskView(old(storage.records), old(treeRef)) && !storage.locked
      ensures r.Ok? && old(Clean(storage.records, treeRef)) ==>
        Bst.Committed(storage) == MapValues(old(Contents()), Stringify)
      ensures r.Err? ==> r.error == StructError && Bst.Committed(storage) == old(Bst.Committed(storage))
    {
      ghost var before := storage.records;
      ghost var root := storage.RootAddress();
      if Clean(before, treeRef) {
        CleanDiskView(before, treeRef);
      }
      var stored := Store(storage, treeRef);
      StoredMeaning(before, storage.records, treeRef, stored);
      treeRef := stored;
      if root != 0 {
        LoadExtends(before, storage.records, root);
      }
      r := storage.CommitRootAddress(treeRef.address);
    }
  }

  /** After `set` the head is black, the tree is in search order, the key
      maps to the new value and every other key keeps its value. */
  lemma SetBlackHead(t: Tree<Scalar>, key: int, v: Scalar)
    requires Ordered(t) && Colored(t)
    ensures SetT(t, key, v).T? && SetT(t, key, v).paint == Black
    ensures Ordered(SetT(t, key, v)) && Lookup(SetT(t, key, v), key) == Some(v)
  {
    SetFacts(t, key, v);
  }

  /** The `DBDB` facade of the red-black file: the same checks as the
      unbalanced one, over the red-black tree. */
  class DBDB {
    var storage: Storage
    var tree: BinaryTree

    ghost predicate Valid()
      reads this, tree, storage
    {
      tree.storage == storage && tree.Valid()
    }

    /** `connect` followed by `DBDB(f)`. */
    constructor Connect(image: FileImage)
      requires Bst.FileImageOk(image)
      ensures Valid() && fresh(storage) && fresh(tree) && !storage.closed && !storage.locked
      ensures storage.Image() == EnsureSuperblock(image)
      ensures tree.Contents() == Bst.Committed(storage) == Bst.FileTree(image)
    {
      var s := new Storage(image);
      storage := s;
      tree := new BinaryTree(s);
    }

    /** `close`: the result is the file as the next connection finds it. */
    method Close() returns (image: FileImage)
      requires Valid()
      modifies storage`locked, storage`closed
      ensures Valid() && storage.closed && image == storage.Image() && Bst.FileImageOk(image)
    {
      storage.Close();
      image := storage.Image();
    }

    /** `get`: ValueError on a closed database, KeyError on a missing key,
        otherwise `int()`, then `float()`, of the value the tree holds: the
        text read from the file, or the value itself while a `set` is not
        yet committed. */
    method Get(key: int) returns (r: Result<Bst.PyValue>)
      requires Valid()
      modifies tree`treeRef
      ensures Valid()
      ensures storage.closed ==> r == Err(ValueError("Database closed.")) && tree.treeRef == old(tree.treeRef)
      ensures !storage.closed && !old(storage.locked) ==> tree.Contents() == Bst.Committed(storage)
      ensures !storage.closed && old(storage.locked) ==> tree.treeRef == old(tree.treeRef)
      ensures !storage.closed ==>
        (r.Ok? <==> Lookup(tree.Contents(), key).Some?) &&
        (r.Ok? ==> r.value == Bst.CoerceAsWritten(Lookup(tree.Contents(), key).value)) &&
        (r.Err? ==> r.error == KeyError)
    {
      if storage.closed {
        return Err(ValueError("Database closed."));
      }
      var found := tree.Get(key);
      match found
      case Ok(v) => r := Ok(Bst.CoerceAsWritten(v));
      case Err(e) => r := Err(e);
    }

    /** `set`: TypeError for a key, then a value, of another type; then
        ValueError on a closed database; then the balanced `set`. */
    method Set(key: Bst.Arg, value: Bst.Arg) returns (r: Result<()>)
      requires Valid()
      requires key.Given? ==> key.v.Int?
      requires Ordered(if storage.locked then tree.Contents() else Bst.Committed(storage))
      modifies tree`treeRef, storage`locked
      ensures Valid()
      ensures Bst.CheckTypes(key, value).Err? ==>
        r == Bst.CheckTypes(key, value) && tree.treeRef == old(tree.treeRef) && storage.locked == old(storage.locked)
      ensures Bst.CheckTypes(key, value).Ok? && storage.closed ==>
        r == Err(ValueError("Database closed.")) && tree.treeRef == old(tree.treeRef) && storage.locked == old(storage.locked)
      ensures Bst.CheckTypes(key, value).Ok? && !storage.closed ==>
        r.Ok? && storage.locked &&
        var base := if old(storage.locked) then old(tree.Contents()) else Bst.Committed(storage);
        tree.Contents() == SetT(base, key.v.i, value.v)
    {
      r := Bst.CheckTypes(key, value);
      if r.Err? {
        return;
      }
      if storage.closed {
        return Err(ValueError("Database closed."));
      }
      tree.Set(key.v.i, value.v);
    }

    /** `delete`: ValueError on a closed database, then the tree's
        `delete`. */
    method Delete(key: int) returns (r: Result<()>)
      requires Valid()
      modifies tree`treeRef, storage`locked
      ensures Valid()
      ensures storage.closed ==> r == Err(ValueError("Database closed.")) && tree.treeRef == old(tree.treeRef)
      ensures !storage.closed ==>
        var base := if old(storage.locked) then old(tree.Contents()) else Bst.Committed(storage);
        (r.Err? ==> r.error == KeyError && tree.Contents() == base) &&
        (r.Ok? ==> DeleteT(base, key, Red) == Some(tree.Contents())) &&
        (Ordered(base) ==> (r.Ok? <==> key in Keys(base)) && (r.Ok? ==> Removed(base, tree.Contents(), key)))
    {
      if storage.closed {
        return Err(ValueError("Database closed."));
      }
      r := tree.Delete(key);
    }

    /** `commit`: ValueError on a closed database, then the tree's
        `commit`. */
    method Commit() returns (r: Result<()>)
      requires Valid()
      modifies tree`treeRef, storage`records, storage`end, storage`locked, storage`header
      ensures Valid() && tree.Contents() == old(tree.Contents())
      ensures storage.closed ==> r == Err(ValueError("Database closed.")) && storage.Image() == old(storage.Image())
      ensures !storage.closed && r.Ok? ==>
        Bst.Committed(storage) == DiskView(old(storage.records), old(tree.treeRef)) && !storage.locked
      ensures !storage.closed && r.Err? ==> r.error == StructError && Bst.Committed(storage) == old(Bst.Committed(storage))
    {
      if storage.closed {
        return Err(ValueError("Database closed."));
      }
      r := tree.Commit();
    }
  }
}
