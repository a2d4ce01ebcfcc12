# cs207 time series and tree database, modelled in Dafny

This project models two parts of the cs207 time-series repository and proves properties of them.

**The tree database.** Two files implement it: `timeseries/cs207bst.py`, a plain binary search tree, and `timeseries/cs207rbtree.py`, a red-black tree. They share the same storage and reference layers.

- **Storage.** A database file is an append-only log. A 4096-byte superblock at the front holds the root address as an 8-byte big-endian integer. After it come length-prefixed records.
  - The model keeps the file as a map from address to decoded record, plus the end offset, the `locked` flag and the `closed` flag (module `DbStorage`).
  - The root address is packed and unpacked byte by byte (module `BigEndian`).
- **Lazy references.** A `ValueRef` or `BinaryNodeRef` holds a cached referent, an address, or both.
  - Refs and nodes are modelled as values (module `CowTree`).
  - `View` is the tree a ref denotes in memory; `DiskView` is the tree a commit makes of it.
- **Copy-on-write tree.** `get`, `_insert`, `_delete` and `_find_max` copy only the nodes on the search path.
  - `store` writes a node's value and children before the node itself, and skips any ref that already has an address.
  - `commit` stores the tree and then writes the root address.
- **Red-black fix-up.** The in-place steps `rotate_left`, `rotate_right`, `recolored`, `balance` and the `update` loop are each modelled twice:
  - as functions on the logical tree (module `RbShape`);
  - as functions on refs that keep each stored node's address, proved to denote the same trees (module `RbTree`).
- **Facade.** `RbTree.BinaryTree` and `Bst.BinaryTree` are classes whose methods update the tree ref and the storage. The `DBDB` facade adds:
  - the type check on keys and values;
  - the closed-database check;
  - the conversion of the value `get` finds back to int or float. Module `PyText` models `str()` of an int and the decimal forms `int()` and `float()` read, as exact numbers; the forms it leaves out are listed under "Left out".
  - `DBDB.get` is modelled as written: before a commit it applies `int()` to the value that was set, not to its text (see "Findings").

**The time series.** `timeseries/TimeSeries.py` and `timeseries/ArrayTimeSeries.py` are modelled in modules `Series` and `ArraySeries`:

- constructor validation;
- `binsearch_helper`, as a loop proved against a recursive definition;
- the four cases of `interpolate`, with the interpolation formula left as a parameter;
- indexing, item assignment, membership and `__repr__`;
- pointwise arithmetic with its length and time-domain checks.

Two things the source's comments or docstrings suggest turn out otherwise:

- **`binsearch_helper` always terminates.** Its docstring warns that it may not. In fact each round strictly shrinks the range.
  - Whenever `seq[0] < val < seq[-1]` and `val` is not in `seq`, it returns an index `k` with `seq[k-1] < val < seq[k]`, even when `seq` is not sorted (`Series.BinSearch`).
  - "The smallest element greater than `val`" holds only when `seq` is increasing.
- **The duplicate-times message is wrong.** `TimeSeries.__init__` reports repeated times with the length message ("Input times and values must have the same length"). The model keeps that text, and `ArraySeries.ChecksAgree` proves it is the only difference from `ArrayTimeSeries`.

## Model

| member | source | states |
|---|---|---|
| BigEndian.Encode | timeseries/cs207bst.py:449-451 | packing a value below 256^n gives exactly n bytes |
| BigEndian.Decode | timeseries/cs207bst.py:442-447 | unpacking n bytes gives a value below 256^n |
| BigEndian.DecodeEncode | timeseries/cs207bst.py:442-451 | unpacking what was packed gives the value back |
| BigEndian.EncodeDecode | timeseries/cs207bst.py:442-451 | packing what was unpacked gives the bytes back, so "!Q" is a bijection on 8-byte strings |
| BigEndian.DecodeZeros | timeseries/cs207bst.py:409-416 | the zero padding of a fresh superblock unpacks to 0 |
| DbStorage.EnsureSuperblock | timeseries/cs207bst.py:409-416 | a short file is zero-padded to 4096 bytes, so the first record starts after the superblock; the records are kept; a full file is unchanged |
| DbStorage.FreshFileHasNoRoot | timeseries/cs207bst.py:494-499 | a new, empty file names root address 0, the empty tree |
| DbStorage.Storage.constructor | timeseries/cs207bst.py:398-408 | opening a file ensures its superblock and leaves it unlocked and open |
| DbStorage.Storage.Lock | timeseries/cs207bst.py:418-426 | the lock is held afterwards; the result is true exactly when it was not held before |
| DbStorage.Storage.Unlock | timeseries/cs207bst.py:427-432 | the lock is released |
| DbStorage.Storage.Write | timeseries/cs207bst.py:464-475 | the address returned is the old end of file, where no record was; that record is added, the lock is taken and kept, and no other record changes; the end grows by the 8-byte length plus the payload |
| DbStorage.Storage.Read | timeseries/cs207bst.py:476-481 | the record at that address; that it is exactly what `write` stored there is `DbStorage.WriteThenRead` |
| DbStorage.WriteThenRead | timeseries/cs207bst.py:464-481 | reading at the address `write` returned gives back exactly what was written, and that address is at least 4096 |
| DbStorage.Storage.CommitRootAddress | timeseries/cs207bst.py:483-493 | a root that fits 8 bytes is read back by `get_root_address`, the rest of the superblock is kept and the lock is released; a larger one is the struct error, with the header unchanged and the lock held |
| DbStorage.Storage.Close | timeseries/cs207bst.py:501-506 | the file is unlocked and closed |
| SearchTree.EntriesKeys | timeseries/cs207bst.py:290-308 | the in-order entries hold exactly the tree's keys |
| SearchTree.OrderedIffIncreasing | timeseries/cs207bst.py:290-308 | a tree is in search order exactly when its in-order keys strictly increase |
| SearchTree.OrderedIncreasing | timeseries/cs207bst.py:290-308 | search order gives strictly increasing in-order keys |
| SearchTree.IncreasingOrdered | timeseries/cs207bst.py:290-308 | strictly increasing in-order keys give search order |
| SearchTree.LookupIsAssoc | timeseries/cs207bst.py:257-274 | in search order, the walk of `get` finds what a scan of the in-order entries finds |
| SearchTree.LookupFindsKeys | timeseries/cs207bst.py:257-274 | in search order, the walk finds a key exactly when the tree holds it |
| SearchTree.SameEntries | timeseries/cs207rbtree.py:554-624 | trees with the same in-order entries hold the same keys with the same values and are both in search order |
| SearchTree.LookupMapValues | timeseries/cs207bst.py:87-93 | converting every value leaves the keys where they are and converts what each finds |
| SearchTree.MapValuesKeys | timeseries/cs207bst.py:87-93 | converting every value keeps the keys and the search order |
| SearchTree.RightmostIsMax | timeseries/cs207bst.py:356-362 | the end of the right spine holds the largest key and its value |
| CowTree.Decode | timeseries/cs207bst.py:136-144 | a node read from a record has refs that hold addresses only, and they name valid records |
| CowTree.Follow | timeseries/cs207bst.py:80-86 | a ref gives its cached node, else the node at its address; it gives None exactly when it has neither |
| CowTree.ViewFollow | timeseries/cs207bst.py:351-354 | following a ref does not change the tree it denotes, so loading is idempotent |
| CowTree.Search | timeseries/cs207bst.py:257-274 | the loop returns the value stored under the key, and raises KeyError exactly when there is none (also on the empty tree) |
| CowTree.Insert | timeseries/cs207bst.py:290-308 | the new root ref has no address; it holds the old keys plus the key; the key maps to the new value and every other key to its old value |
| CowTree.InsertOrdered | timeseries/cs207bst.py:290-308 | inserting keeps search order |
| CowTree.InsertCopiesPath | timeseries/cs207rbtree.py:783-816 | only the nodes on the search path are new; every ref hanging off the path is reused unchanged; an existing key's node is cloned with only its value ref replaced; a missing key becomes a new leaf of the given colour with two empty refs |
| CowTree.MaxNode | timeseries/cs207bst.py:356-362 | the node reached down the right spine holds the largest entry |
| CowTree.FindMax | timeseries/cs207bst.py:356-362 | the `_find_max` loop returns that node |
| CowTree.Delete | timeseries/cs207bst.py:317-349 | a failed delete is the KeyError |
| CowTree.DeleteRemoves | timeseries/cs207bst.py:317-349 | in search order, `_delete` succeeds exactly when the key is present, and then the result is in search order with that key gone and every other key keeping its value |
| CowTree.DeleteAtNode | timeseries/cs207bst.py:332-348 | at the node with the key, a two-child node gives way to the largest entry of its left subtree, which is deleted from there; otherwise its only child (or nothing) replaces it |
| CowTree.RemoveRootWithOneChild | timeseries/cs207bst.py:345-348 | a root with at most one child is removed by that child |
| CowTree.RemoveRootByMax | timeseries/cs207bst.py:335-344 | replacing a root by its left subtree's maximum, with that maximum deleted below, removes the root's key |
| CowTree.RemoveBelow | timeseries/cs207bst.py:322-331 | deleting on the side where the key lies removes it from the whole tree |
| CowTree.ViewDelete | timeseries/cs207rbtree.py:833-874 | on refs, `_delete` builds exactly the tree `DeleteT` describes, and fails exactly where `DeleteT` does |
| CowTree.StoreValue | timeseries/cs207bst.py:87-93 | a value ref with an address writes nothing; one without gets the address of a new text record holding `str()` of its value; it denotes the same value either way |
| CowTree.Store | timeseries/cs207bst.py:200-208 | storing a ref only appends to the file; a ref with an address (or no node) writes nothing; the result is the ref as stored (`StoredAs`) |
| CowTree.StoredMeaning | timeseries/cs207bst.py:120-124 | a stored ref denotes the same tree in memory and on disk as before, and every ref it holds has an address |
| CowTree.CleanDiskView | timeseries/cs207bst.py:245-250 | when no stored node was changed in place, a commit persists the tree in memory with every value turned into its text |
| CowTree.LoadStringified | timeseries/cs207bst.py:75-77 | values read back from the file are text already |
| CowTree.InsertClean | timeseries/cs207bst.py:290-308 | inserting never changes a stored node in place |
| CowTree.DeleteClean | timeseries/cs207bst.py:317-349 | deleting never changes a stored node in place |
| CowTree.ViewExtends | timeseries/cs207bst.py:464-475 | appending records does not change what any ref denotes |
| CowTree.LoadExtends | timeseries/cs207bst.py:464-475 | appending records does not change any stored tree |
| Bst.BinaryTree.constructor | timeseries/cs207bst.py:236-243 | a new tree denotes the committed tree |
| Bst.BinaryTree.Refresh | timeseries/cs207bst.py:252-255 | the tree ref becomes the superblock's root address, so the tree is the committed one |
| Bst.BinaryTree.Get | timeseries/cs207bst.py:257-274 | the tree is refreshed only when unlocked; the value under the key is returned, KeyError exactly when the key is absent |
| Bst.BinaryTree.Set | timeseries/cs207bst.py:276-288 | refreshes only on newly taking the lock; afterwards the keys are the base keys plus the key, which maps to the value, every other key unchanged |
| Bst.BinaryTree.Delete | timeseries/cs207bst.py:310-316 | refreshes only on newly taking the lock; succeeds exactly when the key is present and removes it; KeyError leaves the tree as it was |
| Bst.BinaryTree.Commit | timeseries/cs207bst.py:245-250 | the committed tree becomes the tree in memory with values as text, and the lock is released; a root address too large to pack is the struct error and the committed tree is kept |
| Bst.CheckTypes | timeseries/cs207bst.py:607-611 | TypeError names the key when the key is not int, float or str, else the value when the value is not; otherwise it succeeds |
| Bst.CoerceAsWritten | timeseries/cs207bst.py:579-597 | the conversion `get` applies as written: on an int or a text it agrees with the corrected `Coerce`; a float that was set and not yet committed always comes back as an int |
| Bst.Coerce | timeseries/cs207bst.py:579-597 | the corrected conversion: `int()`, then `float()`, then the text itself, applied to the value's committed text; an int comes back as that int |
| Bst.CommittedConversion | timeseries/cs207bst.py:579-597 | on committed text `get` as written gives what `Coerce` promises, and so it does on any text value; the two differ only on a value cached from a `set` |
| Bst.CoerceCases | timeseries/cs207bst.py:588-597 | a float whose text `int()` refuses and `float()` reads back comes back as that float; a text comes back as the int `int()` reads, else the float `float()` reads, else as itself |
| Bst.FloatBeforeCommitTruncates | timeseries/cs207bst.py:579-597 | the float 2.5 comes back as 2 from `get` as written before a commit, and as 2.5 from its committed text |
| Bst.TestValuesComeBack | timeseries/test_cs207bst.py:30-98 | after a commit the float 42.1 comes back as 42.1, the text "apple" as "apple" and the text "42" as the int 42, as the round-trip tests assert |
| Bst.IntRoundTrip | timeseries/cs207bst.py:579-597 | an int comes back as the same int, committed or not |
| Bst.DBDB.Connect | timeseries/cs207bst.py:549-560 | connecting ensures the superblock and reads the tree the file committed |
| Bst.DBDB.Close | timeseries/cs207bst.py:567-569 | closing leaves a file a later connection can open |
| Bst.DBDB.Get | timeseries/cs207bst.py:579-597 | ValueError("Database closed.") on a closed database; otherwise KeyError exactly when the key is absent, else `int()`, then `float()`, of the value the tree holds, which is the cached value itself while a `set` is uncommitted (`CoerceAsWritten`) |
| Bst.DBDB.Set | timeseries/cs207bst.py:600-614 | the type checks come first and change nothing; then the closed check; then the tree's `set` |
| Bst.DBDB.Delete | timeseries/cs207bst.py:616-624 | the closed check, then the tree's `delete` |
| Bst.BinaryTree.StoreTree | timeseries/cs207bst.py:248 | storing the tree ref appends every unstored node and value, keeps the tree in memory and the committed tree, and leaves a ref whose disk view is the tree with values as text |
| Bst.DBDB.Commit | timeseries/cs207bst.py:571-577 | the closed check, then the tree's `commit` |
| Bst.FileValuesAreText | timeseries/cs207bst.py:64-85 | every value of a committed tree read from a file is text: `ValueRef` writes the `str()` of its referent and reads back the decoded string |
| Bst.GetFromFile | timeseries/cs207bst.py:579-597 | on a fresh connection every value is text, so `get` returns the committed entry converted as `Coerce` promises, or KeyError |
| Bst.SetCommitClose | timeseries/cs207bst.py:245-250 | after set, commit and close the file maps the key to the value's text |
| Bst.CommitThenReopen | timeseries/test_cs207bst.py:6-98 | any value set and committed is read back after reopening as `Coerce` of it; an int as that int |
| Bst.SetClose | timeseries/test_cs207bst.py:108-116 | closing without commit leaves the file naming the same tree |
| Bst.SetWithoutCommitIsLost | timeseries/test_cs207bst.py:108-116 | a key set without commit is a KeyError after reopening |
| Bst.GetAfterSet | timeseries/cs207bst.py:579-597 | within one connection `get` sees a `set` before any commit: the storage stays locked, so `BinaryTree.get` (lines 257-274) does not reload, and `int()` applies to the value itself, truncating a float |
| PyText.DigitChar | timeseries/cs207bst.py:65-73 | the digit character of a number below 10 |
| PyText.ShowNat | timeseries/cs207bst.py:65-73 | `str()` of a natural number is a non-empty string of digits |
| PyText.ShowInt | timeseries/cs207bst.py:65-73 | `str()` of an int is an optional minus sign then digits |
| PyText.DigitsValueOfShowNat | timeseries/cs207bst.py:65-73 | the digits `str()` writes read back as the same number |
| PyText.StripLeft | timeseries/cs207bst.py:592 | the leading whitespace `int()` ignores, every character `str.isspace()` accepts, is removed, and nothing else |
| PyText.StripRight | timeseries/cs207bst.py:592 | the trailing whitespace `int()` ignores, every character `str.isspace()` accepts, is removed, and nothing else |
| PyText.ParseInt | timeseries/cs207bst.py:592 | text that `int()` accepts contains a digit |
| PyText.ParseShowInt | timeseries/cs207bst.py:592 | `int(str(i)) == i` |
| PyText.ParseSignedDigits | timeseries/cs207bst.py:592 | an optional sign followed by digits parses as their signed value |
| PyText.StripUnpadded | timeseries/cs207bst.py:592 | text without surrounding whitespace is unchanged by stripping |
| PyText.SignedDigitsShape | timeseries/cs207bst.py:592 | a signed run of digits splits into its sign and its digits |
| PyText.PointIsNotInt | timeseries/cs207bst.py:590-595 | text with a decimal point is not an int, so `get` falls back to `float()` |
| PyText.ParseFloat | timeseries/cs207bst.py:595 | `float()` on the decimal forms: text it accepts contains a digit, and on int text it agrees with `int()` (`ParseFloatExtendsParseInt`) |
| PyText.ParseFloatExtendsParseInt | timeseries/cs207bst.py:595 | `float()` accepts every int text, with the same value as an exact number |
| PyText.FirstIndex | timeseries/cs207bst.py:595 | the first position holding a mark, or the length when there is none |
| PyText.FirstIndexNone | timeseries/cs207bst.py:595 | text without a mark has none |
| PyText.Trunc | timeseries/cs207bst.py:592 | `int()` of a float truncates toward zero |
| PyText.Pow10 | timeseries/cs207bst.py:595 | a power of ten is positive |
| RbShape.FindKey | timeseries/cs207rbtree.py:399-439 | in search order, the walk of `get_ref` reaches a node exactly when the key is present, and that node holds the key |
| RbShape.FindNested | timeseries/cs207rbtree.py:399-439 | a key found below another key's node has its node inside that node |
| RbShape.FindWithin | timeseries/cs207rbtree.py:399-439 | searching from a node on the path reaches the same node as searching from the root |
| RbShape.OnWalkStart | timeseries/cs207rbtree.py:441-485 | the `get_parent` walk starts at the root |
| RbShape.OnWalkStep | timeseries/cs207rbtree.py:441-485 | each step of the walk goes to the side where the key lies |
| RbShape.OnWalkFound | timeseries/cs207rbtree.py:441-485 | when a child holds the key, the current node is its parent, and the side reported is L exactly when the key is smaller |
| RbShape.ParentKeyFacts | timeseries/cs207rbtree.py:441-485 | every key below the root has a parent one level up, holding it as its left or right child |
| RbShape.RotateLeftEntries | timeseries/cs207rbtree.py:554-588 | a left rotation keeps the in-order entries |
| RbShape.RotateRightEntries | timeseries/cs207rbtree.py:591-624 | a right rotation keeps the in-order entries |
| RbShape.BalanceLocalEntries | timeseries/cs207rbtree.py:627-716 | `balance` keeps the in-order entries |
| RbShape.BalanceAtEntries | timeseries/cs207rbtree.py:627-716 | balancing any one node keeps the in-order entries |
| RbShape.BalanceAtBelow | timeseries/cs207rbtree.py:720-779 | balancing a node below another leaves that other node's depth unchanged |
| RbShape.BalanceChildBelow | timeseries/cs207rbtree.py:720-779 | balancing the parent of the current node keeps entries, order and keys, and the depth of every node above it |
| RbShape.UpdateEntries | timeseries/cs207rbtree.py:720-779 | the `update` loop keeps the in-order entries |
| RbShape.BalanceLocalColored | timeseries/cs207rbtree.py:627-716 | `balance` leaves every node red or black |
| RbShape.BalanceAtColored | timeseries/cs207rbtree.py:627-716 | balancing any one node leaves every node red or black |
| RbShape.UpdateColored | timeseries/cs207rbtree.py:720-779 | `update` leaves every node red or black |
| RbShape.InsertFacts | timeseries/cs207rbtree.py:783-816 | red insertion adds the key, maps it to the value, keeps the other entries and the search order |
| RbShape.SetFacts | timeseries/cs207rbtree.py:487-529 | `set` keeps search order, adds the key with its value, keeps every other entry, and leaves a black root |
| RbTree.IsRedRef | timeseries/cs207rbtree.py:290-298 | a ref is red exactly when the node it denotes is red; an empty ref is not red |
| RbTree.BlackenRef | timeseries/cs207rbtree.py:270-274 | blackening keeps the address and turns a red node black |
| RbTree.ReddenRef | timeseries/cs207rbtree.py:275-279 | reddening keeps the address and turns a black node red |
| RbTree.RotateLeftRef | timeseries/cs207rbtree.py:554-588 | relinking the refs denotes the left rotation of the tree |
| RbTree.RotateRightRef | timeseries/cs207rbtree.py:591-624 | relinking the refs denotes the right rotation of the tree |
| RbTree.RecoloredRef | timeseries/cs207rbtree.py:533-551 | the node turns red and its two children black |
| RbTree.FixRightRef | timeseries/cs207rbtree.py:627-716 | the right-side case of `balance` on refs denotes it on the tree |
| RbTree.FixLeftRef | timeseries/cs207rbtree.py:627-716 | the left-side case of `balance` on refs denotes it on the tree |
| RbTree.BalanceLocalRef | timeseries/cs207rbtree.py:627-716 | `balance` on refs denotes `balance` on the logical tree |
| RbShape.BalanceLocalCases | timeseries/cs207rbtree.py:627-716 | an empty or red head, or one with no red child that has a red child, is left alone; otherwise exactly one case fires: with two red children the head turns red and both children black, else the rotations leave a black head with two red children |
| RbTree.BalanceLeftRef | timeseries/cs207rbtree.py:627-716 | the red-left-child cases: recolour under a red uncle, else one or two rotations |
| RbTree.BalanceRightRef | timeseries/cs207rbtree.py:627-716 | the red-right-child cases: recolour under a red uncle, else one or two rotations |
| RbTree.BalanceAtRef | timeseries/cs207rbtree.py:627-716 | balancing the node with a given key, reached through its parent's link, denotes the same on the tree |
| RbTree.FindNode | timeseries/cs207rbtree.py:399-439 | the node the walk reaches denotes the subtree at the key |
| RbTree.BalanceChildRef | timeseries/cs207rbtree.py:720-779 | one round of `update` on refs denotes it on the tree |
| RbTree.ViewInsert | timeseries/cs207rbtree.py:783-816 | `_insert` on refs denotes red insertion on the tree |
| RbTree.WalkParent | timeseries/cs207rbtree.py:441-485 | AttributeError on an empty tree; the tree ref itself for the root's key; otherwise the parent node and side of the key, or KeyError when it is absent |
| RbTree.BinaryTree.constructor | timeseries/cs207rbtree.py:344-355 | a new tree denotes the committed tree |
| RbTree.BinaryTree.Refresh | timeseries/cs207rbtree.py:367-370 | the tree ref becomes the superblock's root address |
| RbTree.BinaryTree.Get | timeseries/cs207rbtree.py:372-397 | refreshes only when unlocked; goes left on a smaller key and right on a larger; returns the value on a match, KeyError on reaching an empty child, also on an empty tree |
| RbTree.BinaryTree.GetParent | timeseries/cs207rbtree.py:441-485 | the contract of `WalkParent` on the tree's own root |
| RbTree.BinaryTree.GetRef | timeseries/cs207rbtree.py:399-439 | AttributeError on an empty tree; otherwise the ref whose tree is the subtree at the key, or KeyError exactly when it is absent |
| RbTree.BinaryTree.Update | timeseries/cs207rbtree.py:720-779 | the loop of rounds from the new node up to the root leaves the tree `UpdateT` describes |
| RbTree.BinaryTree.InsertRed | timeseries/cs207rbtree.py:783-816 | the tree becomes the red insertion of the key |
| RbTree.BinaryTree.BlackenHead | timeseries/cs207rbtree.py:528-529 | the head of the tree turns black |
| RbTree.BinaryTree.Set | timeseries/cs207rbtree.py:487-529 | refreshes only on newly taking the lock; the tree becomes `SetT` of the base: insert red, `update`, blacken the head |
| RbTree.SetBlackHead | timeseries/cs207rbtree.py:528-529 | after `set` the root is black, the tree is in search order and maps the key to the value |
| RbTree.BinaryTree.Delete | timeseries/cs207rbtree.py:820-874 | refreshes only on newly taking the lock; the tree becomes `DeleteT` of the base, with no rebalancing; KeyError leaves the tree ref as it was; in search order it succeeds exactly when the key is present and removes only it |
| RbTree.BinaryTree.Commit | timeseries/cs207rbtree.py:357-365 | the committed tree becomes the disk view of the tree in memory (exactly the tree with values as text when no stored node was changed in place); the struct error keeps the committed tree |
| RbTree.DBDB.Connect | timeseries/cs207rbtree.py:1118-1129 | connecting ensures the superblock and reads the tree the file committed |
| RbTree.DBDB.Close | timeseries/cs207rbtree.py:1136-1138 | closing leaves a file a later connection can open |
| RbTree.DBDB.Get | timeseries/cs207rbtree.py:1148-1171 | ValueError on a closed database; otherwise KeyError exactly when the key is absent, else `int()`, then `float()`, of the value the tree holds, the cached value itself while a `set` is uncommitted |
| RbTree.DBDB.Set | timeseries/cs207rbtree.py:1173-1196 | the type checks, then the closed check, then the tree's `set` |
| RbTree.DBDB.Delete | timeseries/cs207rbtree.py:1198-1210 | the closed check, then the tree's `delete` |
| RbTree.DBDB.Commit | timeseries/cs207rbtree.py:1140-1146 | the closed check, then the tree's `commit` |
| RbExamples.SetEach | timeseries/cs207rbtree.py:487-529 | setting keys in turn keeps search order and holds exactly the old keys and the new ones |
| RbExamples.OneBalancingTree | timeseries/test_cs207rbtree_more.py:184-209 | the tree that setting 0 to 5 in turn builds |
| RbExamples.OneBalancing | timeseries/test_cs207rbtree_more.py:184-209 | after setting 0 to 5, 3 is the right child of 1 |
| RbExamples.TwoBalancingTree | timeseries/test_cs207rbtree_more.py:211-247 | the tree that setting 7, 3, 18, 10, 22, 8, 11, 26, 12 in turn builds |
| RbExamples.TwoBalancing | timeseries/test_cs207rbtree_more.py:211-247 | after those sets, 7 and 18 are the left and right children of 10 |
| RbExamples.BalanceAfterUpdate | timeseries/test_cs207rbtree_more.py:249-286 | setting 27 on that tree makes 22 the left child of 26 and 26 the right child of 18 |
| RbExamples.DeleteWithoutRebalancing | timeseries/test_cs207rbtree_more.py:288-307 | deleting 4 after setting 0 to 5 leaves 5 the right child of 3 |
| Series.Numbers | timeseries/TimeSeries.py:90-91 | the stored series keeps the numbers in order |
| Series.CheckInputs | timeseries/TimeSeries.py:64-78 | ValueError on unequal lengths, then on repeated times; then TypeError on a non-numeric value, then on a non-numeric time; it succeeds exactly when none applies, and keeps the times and values |
| Series.CheckAccepts | timeseries/TimeSeries.py:64-78 | every well-formed series passes the checks unchanged |
| Series.CheckRejectsRepeats | timeseries/TimeSeries.py:69-71 | numeric inputs of equal length pass exactly when the times are distinct |
| Series.PyIndex | timeseries/TimeSeries.py:101-102 | Python's index rule: a negative index counts from the end |
| Series.IndexOf | timeseries/TimeSeries.py:306 | `list.index`: the first position holding the value |
| Series.Search | timeseries/TimeSeries.py:236-247 | a result lies within the searched range |
| Series.BinSearch | timeseries/TimeSeries.py:188-247 | the loop always terminates; ValueError only when a midpoint equals `val`; when `seq[0] < val < seq[-1]` and `val` is absent it succeeds with `seq[k-1] < val < seq[k]`, and on an increasing sequence `k` is the first index above `val`; the copy of this loop in timeseries/ArrayTimeSeries.py (lines 95-155) is the same and is modelled by this one member |
| Series.SearchMeaning | timeseries/TimeSeries.py:188-247 | for every sequence and value: the ValueError only when the value is present; strictly inside the range and absent, the result sits between its neighbours; on an increasing sequence it is the first index above the value |
| Series.SuccessorIsFirstAbove | timeseries/TimeSeries.py:218-222 | on an increasing sequence, the index with `seq[k-1] < val < seq[k]` is the smallest one holding an element above `val` |
| Series.SearchErrHits | timeseries/TimeSeries.py:246-247 | the ValueError is raised only when `val` is in the sequence |
| Series.SearchFindsSuccessor | timeseries/TimeSeries.py:236-247 | between a smaller and a larger element the search finds the position of the first one above |
| Series.SearchPastFirst | timeseries/TimeSeries.py:236-247 | above the first element the result is never 0 |
| Series.SearchExamples | timeseries/TimeSeries.py:228-234 | the doctests: 5.1 gives 6, 4.5 gives 5, 8.9 gives 9 over `range(10)` |
| Series.NextIndex | timeseries/TimeSeries.py:319-320 | inside the range, the neighbours `next_index - 1` and `next_index` enclose the time |
| Series.SearchBetween | timeseries/TimeSeries.py:319-320 | inside the range, `binsearch_helper` succeeds and returns those neighbours |
| Series.ValueAtHit | timeseries/TimeSeries.py:305-306 | an existing time gives the value at its first position |
| Series.ValueAtOutside | timeseries/TimeSeries.py:309-314 | a time below the range gives the first value, one above it the last |
| Series.ValueAtBetween | timeseries/TimeSeries.py:318-338 | any other time gives the formula applied to the two enclosing points |
| Series.InterpolateValues | timeseries/TimeSeries.py:303-338 | IndexError when the series is empty and a time is asked for; otherwise one value per requested time, each chosen by those cases |
| Series.Interpolated | timeseries/TimeSeries.py:249-340 | the result has exactly the requested times and the values chosen by those cases; a time asked for twice is the constructor's ValueError |
| Series.InterpolateMixture | timeseries/test_TimeSeries.py:418-423 | the mixture test's six times: below the range twice, two between stored times, above the range twice; the result has exactly those times and, for any formula, the first value, the formula on the enclosing points, or the last value |
| Series.InterpolateMixtureLinear | timeseries/test_TimeSeries.py:418-423 | with the source's linear formula the values are exactly the test's 0, 0, 3.5, 5, -3, -3 |
| Series.Linear | timeseries/TimeSeries.py:336 | the interpolation line passes through both enclosing points, and is flat between equal values |
| Series.InterpolatedIs | timeseries/TimeSeries.py:249-340 | `interpolate` succeeds with given values whenever they are the ones chosen case by case and no time repeats |
| Series.CheckAligned | timeseries/TimeSeries.py:347-353 | ValueError unless both series have the same length and identical times |
| Series.Arith | timeseries/TimeSeries.py:356-368 | a number applies to every value; a series must have the same length and times, else ValueError; the result keeps the times and combines values position by position (`+`, `-`, `*`) |
| Series.RSub | timeseries/TimeSeries.py:388-393 | a number minus a series, value by value, times kept |
| Series.Neg | timeseries/TimeSeries.py:428-430 | every value negated, times kept |
| Series.PosIsIdentity | timeseries/TimeSeries.py:432-433 | `+x` copies `x`, which is also `x + 0` and `x * 1` |
| Series.Equal | timeseries/TimeSeries.py:396-406 | after the same checks, one truth value per position, true exactly where the values agree |
| Series.ConstIsConstantSeries | timeseries/TimeSeries.py:356-368 | a number behaves as the series holding it at every time |
| Series.AddThenSub | timeseries/TimeSeries.py:374-386 | in exact arithmetic, subtracting what was added gives the series back |
| Series.NegFacts | timeseries/TimeSeries.py:428-430 | negating twice gives the series back, and `-x + c` equals `c - x` |
| Series.SubIsAddNeg | timeseries/TimeSeries.py:374-386 | subtracting a series is adding its negation |
| Series.EqualReflexive | timeseries/TimeSeries.py:396-406 | a series of exact numbers equals itself at every position |
| Series.ShowAll | timeseries/TimeSeries.py:114-129 | one text per value, in order |
| Series.JoinSnoc | timeseries/TimeSeries.py:114-129 | joining one more part adds the separator and that part |
| Series.ShownIsJoin | timeseries/TimeSeries.py:114-129 | the loop's text so far is the first values joined by ", " |
| Series.ReprShape | timeseries/TimeSeries.py:114-129 | at most ten values are shown; ", ... " is appended exactly when there are more than ten |
| Series.ReprLoop | timeseries/TimeSeries.py:114-129 | the loop builds that text |
| Series.TimeSeries.constructor | timeseries/TimeSeries.py:90-91 | the object holds the checked times and values |
| Series.TimeSeries.Make | timeseries/TimeSeries.py:46-91 | the object exists exactly when the checks pass, and holds their result; otherwise the checks' error |
| Series.TimeSeries.Len | timeseries/TimeSeries.py:96-97 | the number of values, which is the number of times |
| Series.TimeSeries.GetItem | timeseries/TimeSeries.py:101-102 | the value at a Python index, IndexError outside `-n .. n-1` |
| Series.TimeSeries.SetItem | timeseries/TimeSeries.py:106-107 | only the value at that index changes, the times do not, and it reads back; IndexError changes nothing |
| Series.TimeSeries.Contains | timeseries/TimeSeries.py:110-111 | true exactly when some value (not time) equals the argument |
| Series.TimeSeries.Repr | timeseries/TimeSeries.py:114-129 | the `__repr__` text for this object |
| Series.TimeSeries.Interpolate | timeseries/TimeSeries.py:249-340 | the new series is what `Interpolated` describes, or its error |
| ArraySeries.ArrayTimeSeries.constructor | timeseries/ArrayTimeSeries.py:87-89 | the object holds the checked arrays and their length |
| ArraySeries.ArrayTimeSeries.Make | timeseries/ArrayTimeSeries.py:46-89 | the object exists exactly when the checks pass; its length is the number of values supplied |
| ArraySeries.ArrayTimeSeries.Len | timeseries/ArrayTimeSeries.py:91-92 | the recorded length is the number of values and of times |
| ArraySeries.ArrayTimeSeries.Interpolate | timeseries/ArrayTimeSeries.py:157-251 | the new series is what `Interpolated` describes, with this class's duplicate message; its length is the number of requested times |
| ArraySeries.ChecksAgree | timeseries/ArrayTimeSeries.py:64-85 | the two constructors accept the same inputs and differ only in the message for repeated times |

## Left out

- File I/O, seeking, flushing and `portalocker` locking are not modelled. A file is the map of decoded records plus the `locked` and `closed` flags. A connection starts from a file image and `close` returns one.
- `connect`'s open-or-create choice is not modelled; a missing file is the empty image.
- Crash atomicity of the superblock write is not modelled.
- `pickle` and UTF-8 encoding are not modelled, being foreign serialisers. A record is its decoded content, a node's pickle is taken to be a fixed 64 bytes, and a text record is one byte per character.
- Keys are `int` only. Python's comparison of mixed int, float and str keys is not modelled, and nor is the TypeError a comparison of an int with a str raises.
- `str()` of a float is not computed: a float value carries its own text.
- Series, ArraySeries and PyText: numbers are exact reals. Float rounding, `inf`, `nan` and complex values are not modelled.
- Series.AddThenSub: holds for exact reals only. With floats, `TimeSeries([0], [1.0]) + 1e16 - 1e16` holds 0.0.
- Series.EqualReflexive: holds for exact reals only. A series holding `float('nan')` is not equal to itself at that position.
- PyText.ParseInt: underscores between digits ("1_000") and non-ASCII decimal digits, which `int()` accepts, are not modelled; such text comes back as text.
- PyText.ParseFloat: "inf", "infinity", "nan", underscores and non-ASCII digits are not modelled, and nor is rounding to a double or overflow to `inf` ("1e400"); the value is the exact number the text denotes.
- ParseFloatExtendsParseInt: "the same value" is exact. `float()` rounds an int text beyond 2^53 and gives `inf` past the double range.
- PyText.Trunc: `int()` of an infinite or nan float raises; floats are exact reals here, so neither arises.
- The interpolation formula is left as a parameter of type `Lerp`, since the source computes it in floating point; `Series.Linear` states it in exact arithmetic and the mixture test is checked with it.
- Series.TimeSeries.GetItem and Series.TimeSeries.SetItem: slices are not modelled (a slice reads a list of values, and assigning to one can change the number of values), and nor is `__setitem__` storing a non-numeric value, which the source does without a check; the index is an int and the value a number.
- The text of each value in `__repr__` is a parameter `show`.
- Series.CheckAligned, Series.Arith: the error message keeps only its fixed suffix (" must have the same length", " must have the same time points"). The `str()` of both operands that the source puts in front is left out.
- Series.Arith: `NotImplemented` for operands of another type is not modelled. Operands are a number or a series.
- `__radd__` and `__rmul__` only swap operands and are not modelled separately.
- `__str__`, `__iter__`, `values`, `times`, `items`, the iterator methods and `lazy` are not modelled. They only present the same lists.
- `__abs__` and `__bool__` are not modelled: they use `math.sqrt` on floats.
- The `TypeError('Data must be a sequence!')` check is not modelled: the model's inputs are always sequences.
- The NotImplementedError for numpy array inputs is not modelled.
- numpy arrays in `ArrayTimeSeries` are sequences.
- RbTree.BinaryTree.Set and RbTree.DBDB.Set require the tree they start from to be in search order. The loop of `update` is proved against `UpdateT`, whose definition walks a tree in search order. The in-memory tree is proved ordered after every insert. A tree read back from a file that was committed after in-place rotations of already stored nodes is not proved ordered: such nodes are not written back, so the file may hold a mix of old and new links.
- Rebalancing after delete is absent in the source and is not added.
- Bst.BinaryTree.Delete and Bst.DBDB.Delete are specified by the keys and values they leave, not by the shape of the tree.
- Red-black invariants (no red node with a red child, equal black heights) are not proved: the source does not maintain them after `delete`, and `update` does not promise them.
- timeseries/lazy.py is not part of this model (deferred thunks over Python callables).
- timeseries/SimulatedTimeSeries.py and timeseries/StreamTimeSeriesInterface.py are not part of this model (generator plumbing).
- timeseries/FileStorageManager.py and timeseries/SMTimeSeries.py are not part of this model (stubs that only raise NotImplementedError).
- The interface classes, `TimeSeries_Class.py`, `TimeSeries_Week2.py`, the REST API specification and `tsbtreedb/settings.py` are not part of this model.

## Findings

| source | as written | input that shows it | evidently intended | confidence | as-written member | corrected member |
|---|---|---|---|---|---|---|
| timeseries/cs207bst.py:579-597 | `get` applies `int()` to the value it finds. Before a commit that value is the Python float that was set, and `int()` truncates it; `Bst.DBDB.Get`, `RbTree.DBDB.Get` and `Bst.GetAfterSet` model this through `CoerceAsWritten` | `set(1, 2.5)` then `get(1)` on the same connection returns 2; after commit and reopen the text "2.5" makes `int()` fail and `float()` return 2.5 | the same value whether or not it has been committed: the conversion of its stored text, 2.5 here (the same code is at timeseries/cs207rbtree.py:1148-1171) | not executed | Bst.FloatBeforeCommitTruncates | Bst.Coerce |
