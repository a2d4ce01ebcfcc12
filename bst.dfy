// timeseries/cs207bst.py: the unbalanced copy-on-write binary search tree
// over a `Storage` file, and the `DBDB` facade that checks argument types,
// refuses a closed database and turns the text read back into an int or a
// float where it can.
module Bst {
  import opened Results
  import opened DbStorage
  import opened SearchTree
  import opened CowTree
  import PyText

  /** The superblock names no tree, or a node record. */
  ghost predicate RootOk(recs: Records, header: seq<byte>)
  {
    |header| >= 8 && (RootAddressOf(header) == 0 || IsNodeAt(recs, RootAddressOf(header)))
  }

  /** The tree a root address names in the file. */
  ghost function RootTree(recs: Records, root: nat): Tree<Scalar>
    requires Wf(recs) && (root == 0 || IsNodeAt(recs, root))
  {
    if root == 0 then Empty else Load(recs, root)
  }

  /** A file this program can open: well laid out, written children first,
      its superblock (once ensured) naming no tree or a node record. */
  ghost predicate FileImageOk(img: FileImage)
  {
    ImageOk(img) && Wf(img.records) &&
    var p := EnsureSuperblock(img);
    RootOk(p.records, p.header)
  }

  /** The committed tree of a file at rest. */
  ghost function FileTree(img: FileImage): Tree<Scalar>
    requires FileImageOk(img)
  {
    var p := EnsureSuperblock(img);
    RootTree(p.records, RootAddressOf(p.header))
  }

  /** A file whose committed tree is in search order (a missing or empty
      file names none). */
  ghost predicate DbImageOk(img: FileImage)
  {
    FileImageOk(img) && Ordered(FileTree(img))
  }

  /** An open storage whose superblock names no tree or a node record. */
  ghost predicate FileOk(s: Storage)
    reads s
  {
    s.Valid() && Wf(s.records) && RootOk(s.records, s.header)
  }

  /** An open storage whose superblock names a tree in search order. */
  ghost predicate StorageOk(s: Storage)
    reads s
  {
    FileOk(s) && Ordered(RootTree(s.records, s.RootAddress()))
  }

  /** The last committed tree: what a new connection would see. */
  ghost function Committed(s: Storage): Tree<Scalar>
    reads s
    requires FileOk(s)
  {
    RootTree(s.records, s.RootAddress())
  }

  class BinaryTree {
    var storage: Storage
    var treeRef: NodeRef

    /** The tree ref is well formed over the file, every stored node it
        caches is unchanged since it was read, and the tree it denotes is
        in search order. */
    ghost predicate Valid()
      reads this, storage
    {
      StorageOk(storage) && RefOk(storage.records, treeRef) && Clean(storage.records, treeRef) &&
      Ordered(View(storage.records, treeRef))
    }

    /** The tree as this connection sees it, uncommitted changes included. */
    ghost function Contents(): Tree<Scalar>
      reads this, storage
      requires Valid()
    {
      View(storage.records, treeRef)
    }

    constructor (storage: Storage)
      requires StorageOk(storage)
      ensures this.storage == storage && Valid() && Contents() == Committed(storage)
    {
      this.storage := storage;
      treeRef := NodeRef(None, storage.RootAddress());
    }

    /** `_refresh_tree_ref`: a fresh ref to the root address the
        superblock holds, dropping whatever was not committed. */
    method Refresh()
      requires StorageOk(storage)
      modifies this`treeRef
      ensures Valid() && Contents() == Committed(storage)
      ensures treeRef == NodeRef(None, storage.RootAddress())
    {
      treeRef := NodeRef(None, storage.RootAddress());
    }

    /** `get`: reloads the committed root unless the storage is locked by a
        pending change, then walks to the key. */
    method Get(key: int) returns (r: Result<Scalar>)
      requires Valid()
      modifies this`treeRef
      ensures Valid()
      ensures old(storage.locked) ==> treeRef == old(treeRef)
      ensures !old(storage.locked) ==> Contents() == Committed(storage)
      ensures r.Ok? <==> key in Keys(Contents())
      ensures r.Ok? ==> Lookup(Contents(), key) == Some(r.value)
      ensures r.Err? ==> r.error == KeyError
    {
      if !storage.locked {
        Refresh();
      }
      r := Search(storage.records, treeRef, key);
      LookupFindsKeys(Contents(), key);
    }

    /** `set`: refreshes the root only when this call takes the lock, then
        replaces the tree by `_insert` of a new value ref. Nothing is
        written to the file. */
    method Set(key: int, v: Scalar)
      requires Valid()
      modifies this`treeRef, storage`locked
      ensures Valid() && storage.locked
      ensures var base := if old(storage.locked) then old(Contents()) else Committed(storage);
        Keys(Contents()) == Keys(base) + {key} &&
        forall k :: Lookup(Contents(), k) == if k == key then Some(v) else Lookup(base, k)
    {
      var acquired := storage.Lock();
      if acquired {
        Refresh();
      }
      var recs := storage.records;
      ViewFollow(recs, treeRef);
      FollowClean(recs, treeRef);
      var node := Follow(recs, treeRef);
      var value := ValueRef(Some(v), 0);
      InsertOrdered(recs, node, key, value, NoColor);
      InsertClean(recs, node, key, value, NoColor);
      treeRef := Insert(recs, node, key, value, NoColor);
    }

    /** `delete`: like `set`, but `_delete`; a missing key raises KeyError
        before the tree ref is replaced (after the refresh, if any). */
    method Delete(key: int) returns (r: Result<()>)
      requires Valid()
      modifies this`treeRef, storage`locked
      ensures Valid() && storage.locked
      ensures var base := if old(storage.locked) then old(Contents()) else Committed(storage);
        (r.Ok? <==> key in Keys(base)) &&
        (r.Ok? ==> Removed(base, Contents(), key)) &&
        (r.Err? ==> r.error == KeyError && Contents() == base)
    {
      var acquired := storage.Lock();
      if acquired {
        Refresh();
      }
      var recs := storage.records;
      ViewFollow(recs, treeRef);
      FollowClean(recs, treeRef);
      var node := Follow(recs, treeRef);
      DeleteRemoves(recs, node, key, NoColor);
      DeleteClean(recs, node, key, NoColor);
      match CowTree.Delete(recs, node, key, NoColor)
      case Ok(t) =>
        treeRef := t;
        r := Ok(());
      case Err(e) =>
        r := Err(e);
    }

    /** `commit`: stores every node and value not yet in the file, then
        writes the root's address into the superblock and unlocks. The
        committed tree is then the tree in memory with each value turned
        into its `str()`. A root address "!Q" cannot pack raises
        struct.error with the lock held. */
    method Commit() returns (r: Result<()>)
      requires Valid()
      modifies this`treeRef, storage`records, storage`end, storage`locked, storage`header
      ensures Valid() && Contents() == old(Contents())
      ensures r.Ok? ==> Committed(storage) == MapValues(old(Contents()), Stringify) && !storage.locked
      ensures r.Err? ==> r.error == StructError && Committed(storage) == old(Committed(storage))
    {
      StoreTree();
      ghost var stored := DiskView(storage.records, treeRef);
      assert stored == RootTree(storage.records, treeRef.address);
      MapValuesKeys(Contents(), Stringify);
      r := storage.CommitRootAddress(treeRef.address);
      if r.Ok? {
        assert storage.RootAddress() == treeRef.address;
        assert Committed(storage) == stored;
      }
    }

    /** The first half of `commit`, `_tree_ref.store`: every node and value
        not yet in the file is appended; the superblock is untouched. */
    method StoreTree()
      requires Valid()
      modifies this`treeRef, storage`records, storage`end, storage`locked
      ensures Valid() && Contents() == old(Contents())
      ensures storage.header == old(storage.header)
      ensures Committed(storage) == old(Committed(storage))
      ensures treeRef.address == 0 ==> treeRef.referent.None?
      ensures DiskView(storage.records, treeRef) == MapValues(Contents(), Stringify)
    {
      ghost var before := storage.records;
      ghost var root := storage.RootAddress();
      CleanDiskView(before, treeRef);
      MapValuesKeys(View(before, treeRef), Stringify);
      var stored := Store(storage, treeRef);
      StoredMeaning(before, storage.records, treeRef, stored);
      treeRef := stored;
      if root != 0 {
        LoadExtends(before, storage.records, root);
      }
    }
  }

  /** A value as `DBDB.get` hands it back. */
  datatype PyValue = PyInt(i: int) | PyFloat(x: real) | PyStr(s: string)

  /** An argument of `DBDB.set`: an int, float or str, or a value of some
      other type. */
  datatype Arg = Given(v: Scalar) | Other(typeName: string)

  /** The type checks of `DBDB.set`, key first. */
  function CheckTypes(key: Arg, value: Arg): (r: Result<()>)
    ensures r.Ok? <==> key.Given? && value.Given?
    ensures key.Other? ==> r == Err(TypeError("Precondition violated: key must be int, float, or str"))
    ensures key.Given? && value.Other? ==> r == Err(TypeError("Precondition violated: value must be int, float, or str"))
  {
    if key.Other? then Err(TypeError("Precondition violated: key must be int, float, or str"))
    else if value.Other? then Err(TypeError("Precondition violated: value must be int, float, or str"))
    else Ok(())
  }

  /** `int(s)`, failing that `float(s)`, failing that `s` itself. */
  function CoerceText(s: string): PyValue
  {
    match PyText.ParseInt(s)
    case Some(i) => PyInt(i)
    case None =>
      match PyText.ParseFloat(s)
      case Some(x) => PyFloat(x)
      case None => PyStr(s)
  }

  /** The conversion of `DBDB.get` as written: `int()` of what the tree
      returns, which before a commit is the int, float or str that was set
      rather than its text. A float set and not yet committed is truncated
      toward zero. */
  function CoerceAsWritten(v: Scalar): (r: PyValue)
    ensures !v.Float? ==> r == Coerce(v)
    ensures v.Float? ==> r.PyInt?
  {
    match v
    case Int(i) => PyInt(i)
    case Float(x, _) => PyInt(PyText.Trunc(x))
    case Str(s) => CoerceText(s)
  }

  /** The conversion the facade promises, applied to the text a value has
      once committed, whether or not it has been. */
  function Coerce(v: Scalar): (r: PyValue)
    ensures v.Int? ==> r == PyInt(v.i)
  {
    if v.Int? then PyText.ParseShowInt(v.i); CoerceText(Text(v))
    else CoerceText(Text(v))
  }

  /** Where the two conversions meet: on committed text `get` as written
      gives what `Coerce` promises, and so it does on any text; the two part
      only on an int or float still cached from a `set`. */
  lemma CommittedConversion(v: Scalar)
    ensures CoerceAsWritten(Stringify(v)) == Coerce(v)
    ensures Coerce(Stringify(v)) == Coerce(v)
    ensures v.Str? ==> CoerceAsWritten(v) == Coerce(v)
  {
  }

  /** What `Coerce` gives back, case by case: a float whose text `int()`
      refuses and `float()` reads as its value comes back as that float; a
      text comes back as the int or float it spells, and otherwise as
      itself. */
  lemma CoerceCases(v: Scalar)
    ensures v.Float? && PyText.ParseInt(v.text).None? && PyText.ParseFloat(v.text) == Some(v.x) ==>
      Coerce(v) == PyFloat(v.x)
    ensures v.Str? && PyText.ParseInt(v.s).Some? ==> Coerce(v) == PyInt(PyText.ParseInt(v.s).value)
    ensures v.Str? && PyText.ParseInt(v.s).None? && PyText.ParseFloat(v.s).Some? ==>
      Coerce(v) == PyFloat(PyText.ParseFloat(v.s).value)
    ensures v.Str? && PyText.ParseInt(v.s).None? && PyText.ParseFloat(v.s).None? ==> Coerce(v) == PyStr(v.s)
  {
  }

  /** The same float comes back as 2 before a commit and as 2.5 after. */
  lemma FloatBeforeCommitTruncates()
    ensures CoerceAsWritten(Float(2.5, "2.5")) == PyInt(2)
    ensures CoerceAsWritten(Stringify(Float(2.5, "2.5"))) == PyFloat(2.5)
  {
    assert PyText.Trunc(2.5) == 2;
    PyText.PointIsNotInt("2.5", 1);
    ParsesTwoPointFive();
  }

  /** `float("2.5")` is 2.5. */
  lemma ParsesTwoPointFive()
    ensures PyText.ParseFloat("2.5") == Some(2.5)
  {
    var s := "2.5";
    assert PyText.Strip(s) == s by {
      assert !PyText.IsSpace(s[0]) && !PyText.IsSpace(s[2]);
      PyText.StripUnpadded(s);
    }
    assert PyText.SplitSign(s) == (false, s);
    assert PyText.FirstIndex(s, PyText.IsExponentMark) == 3 by {
      PyText.FirstIndexNone(s, PyText.IsExponentMark);
    }
    assert PyText.ParseMantissa(s) == Some(2.5) by {
      assert PyText.FirstIndex(s, PyText.IsPoint) == 1;
      assert s[..1] == "2" && s[2..] == "5";
      assert PyText.DigitsValue("2") == 2 && PyText.DigitsValue("5") == 5;
    }
    PyText.ParseFloatPlain(s, 2.5);
  }

  /** The values the round-trip tests set come back after a commit as
      they went in: the float 42.1, the text "apple", and the text "42" as
      the int 42. */
  lemma TestValuesComeBack()
    ensures Coerce(Float(42.1, "42.1")) == PyFloat(42.1)
    ensures Coerce(Str("apple")) == PyStr("apple")
    ensures Coerce(Str("42")) == PyInt(42)
  {
    PyText.PointIsNotInt("42.1", 2);
    ParsesFortyTwoPointOne();
    CoerceCases(Float(42.1, "42.1"));
    AppleIsText();
    CoerceCases(Str("apple"));
    FortyTwoIsInt();
    CoerceCases(Str("42"));
  }

  /** `float("42.1")` is 42.1. */
  lemma ParsesFortyTwoPointOne()
    ensures PyText.ParseFloat("42.1") == Some(42.1)
  {
    var s := "42.1";
    assert forall i | 0 <= i < |s| :: PyText.IsDigit(s[i]) || PyText.IsPoint(s[i]) by {
      forall i | 0 <= i < |s| ensures PyText.IsDigit(s[i]) || PyText.IsPoint(s[i]) {
        assert i == 0 || i == 1 || i == 2 || i == 3;
      }
    }
    PyText.PlainNumeralIsBare(s);
    MantissaFortyTwoPointOne();
    PyText.ParseFloatPlain(s, 42.1);
  }

  lemma MantissaFortyTwoPointOne()
    ensures PyText.ParseMantissa("42.1") == Some(42.1)
  {
    var s := "42.1";
    assert PyText.FirstIndex(s, PyText.IsPoint) == 2;
    assert s[..2] == "42" && s[3..] == "1";
    assert PyText.DigitsValue("42") == 42 by {
      assert "42"[..1] == "4";
    }
    assert PyText.DigitsValue("1") == 1;
  }

  /** Neither `int("apple")` nor `float("apple")` succeeds: it has no digit. */
  lemma AppleIsText()
    ensures PyText.ParseInt("apple") == None && PyText.ParseFloat("apple") == None
  {
    var s := "apple";
    forall i | 0 <= i < |s| ensures !PyText.IsDigit(s[i]) {
      assert i == 0 || i == 1 || i == 2 || i == 3 || i == 4;
    }
  }

  /** `int("42")` is 42. */
  lemma FortyTwoIsInt()
    ensures PyText.ParseInt("42") == Some(42)
  {
    var s := "42";
    assert PyText.Strip(s) == s by {
      PyText.StripUnpadded(s);
    }
    assert PyText.SplitSign(s) == (false, s);
    assert PyText.AllDigits(s);
    assert s[..1] == "4";
    assert PyText.DigitsValue(s) == 42;
  }

  /** An int comes back as the same int, committed or not. */
  lemma IntRoundTrip(i: int)
    ensures Coerce(Int(i)) == PyInt(i)
    ensures CoerceAsWritten(Stringify(Int(i))) == PyInt(i)
    ensures CoerceAsWritten(Int(i)) == PyInt(i)
    ensures Coerce(Stringify(Int(i))) == PyInt(i)
  {
    PyText.ParseShowInt(i);
  }

  class DBDB {
    var storage: Storage
    var tree: BinaryTree

    ghost predicate Valid()
      reads this, tree, storage
    {
      tree.storage == storage && tree.Valid()
    }

    /** `connect` followed by `DBDB(f)`: opens the file, ensures its
        superblock, and reads the committed root. */
    constructor Connect(image: FileImage)
      requires DbImageOk(image)
      ensures Valid() && fresh(storage) && fresh(tree) && !storage.closed && !storage.locked
      ensures storage.Image() == EnsureSuperblock(image)
      ensures tree.Contents() == Committed(storage)
    {
      var s := new Storage(image);
      storage := s;
      tree := new BinaryTree(s);
    }

    /** `close`: unlocks and closes the file; the result is the file as the
        next connection finds it. */
    method Close() returns (image: FileImage)
      requires Valid()
      modifies storage`locked, storage`closed
      ensures Valid() && storage.closed && image == storage.Image() && DbImageOk(image)
    {
      storage.Close();
      image := storage.Image();
    }

    /** `get`: ValueError on a closed database, KeyError on a missing key,
        otherwise `int()`, then `float()`, of the value the tree holds: the
        text read from the file, or the value itself while a `set` is not
        yet committed. */
    method Get(key: int) returns (r: Result<PyValue>)
      requires Valid()
      modifies tree`treeRef
      ensures Valid()
      ensures storage.closed ==> r == Err(ValueError("Database closed.")) && tree.treeRef == old(tree.treeRef)
      ensures !storage.closed && !old(storage.locked) ==> tree.Contents() == Committed(storage)
      ensures !storage.closed && old(storage.locked) ==> tree.treeRef == old(tree.treeRef)
      ensures !storage.closed ==>
        (r.Ok? <==> key in Keys(tree.Contents())) &&
        (r.Ok? ==> Lookup(tree.Contents(), key).Some? && r.value == CoerceAsWritten(Lookup(tree.Contents(), key).value)) &&
        (r.Err? ==> r.error == KeyError)
    {
      if storage.closed {
        return Err(ValueError("Database closed."));
      }
      var found := tree.Get(key);
      match found
      case Ok(v) => r := Ok(CoerceAsWritten(v));
      case Err(e) => r := Err(e);
    }

    /** `set`: TypeError for a key, then a value, of another type; then
        ValueError on a closed database; then `BinaryTree.set`. */
    method Set(key: Arg, value: Arg) returns (r: Result<()>)
      requires Valid()
      requires key.Given? ==> key.v.Int?
      modifies tree`treeRef, storage`locked
      ensures Valid()
      ensures CheckTypes(key, value).Err? ==> r == CheckTypes(key, value) && tree.treeRef == old(tree.treeRef) && storage.locked == old(storage.locked)
      ensures CheckTypes(key, value).Ok? && storage.closed ==> r == Err(ValueError("Database closed.")) && tree.treeRef == old(tree.treeRef) && storage.locked == old(storage.locked)
      ensures CheckTypes(key, value).Ok? && !storage.closed ==>
        (r.Ok? && storage.locked &&
         var base := if old(storage.locked) then old(tree.Contents()) else Committed(storage);
         Keys(tree.Contents()) == Keys(base) + {key.v.i} &&
         forall k :: Lookup(tree.Contents(), k) == if k == key.v.i then Some(value.v) else Lookup(base, k))
    {
      r := CheckTypes(key, value);
      if r.Err? {
        return;
      }
      if storage.closed {
        return Err(ValueError("Database closed."));
      }
      tree.Set(key.v.i, value.v);
    }

    /** `delete`: ValueError on a closed database, then `BinaryTree.delete`. */
    method Delete(key: int) returns (r: Result<()>)
      requires Valid()
      modifies tree`treeRef, storage`locked
      ensures Valid()
      ensures storage.closed ==> r == Err(ValueError("Database closed.")) && tree.treeRef == old(tree.treeRef)
      ensures !storage.closed ==>
        var base := if old(storage.locked) then old(tree.Contents()) else Committed(storage);
        (r.Ok? <==> key in Keys(base)) &&
        (r.Ok? ==> Removed(base, tree.Contents(), key)) &&
        (r.Err? ==> r.error == KeyError && tree.Contents() == base)
    {
      if storage.closed {
        return Err(ValueError("Database closed."));
      }
      r := tree.Delete(key);
    }

    /** `commit`: ValueError on a closed database, then `BinaryTree.commit`. */
    method Commit() returns (r: Result<()>)
      requires Valid()
      modifies tree`treeRef, storage`records, storage`end, storage`locked, storage`header
      ensures Valid() && tree.Contents() == old(tree.Contents())
      ensures storage.closed ==> r == Err(ValueError("Database closed.")) && storage.Image() == old(storage.Image())
      ensures !storage.closed && r.Ok? ==> Committed(storage) == MapValues(old(tree.Contents()), Stringify) && !storage.locked
      ensures !storage.closed && r.Err? ==> r.error == StructError && Committed(storage) == old(Committed(storage))
    {
      if storage.closed {
        return Err(ValueError("Database closed."));
      }
      r := tree.Commit();
    }
  }

  /** Every value of a file's committed tree is text. */
  lemma FileValuesAreText(file: FileImage, key: int)
    requires FileImageOk(file)
    ensures Lookup(FileTree(file), key).Some? ==> Lookup(FileTree(file), key).value.Str?
  {
    var p := EnsureSuperblock(file);
    var root := RootAddressOf(p.header);
    if root != 0 {
      LoadStringified(p.records, root);
      LookupMapValues(Load(p.records, root), Stringify, key);
    }
  }

  /** Connect and `get`: the coerced value of the committed tree's entry,
      or KeyError. Read from the file, the value is text, so `get` as
      written gives what `Coerce` promises. */
  method GetFromFile(file: FileImage, key: int) returns (got: Result<PyValue>)
    requires DbImageOk(file)
    ensures Lookup(FileTree(file), key).None? ==> got == Err(KeyError)
    ensures Lookup(FileTree(file), key).Some? ==> got == Ok(Coerce(Lookup(FileTree(file), key).value))
  {
    var db := new DBDB.Connect(file);
    got := db.Get(key);
    LookupFindsKeys(FileTree(file), key);
    FileValuesAreText(file, key);
    if Lookup(FileTree(file), key).Some? {
      CommittedConversion(Lookup(FileTree(file), key).value);
    }
  }

  /** Connect, set, commit, close: a successful commit leaves a file whose
      tree maps the key to the value's text. */
  method SetCommitClose(image: FileImage, key: int, v: Scalar) returns (committed: Result<()>, file: FileImage)
    requires DbImageOk(image)
    ensures DbImageOk(file)
    ensures committed.Ok? ==> Lookup(FileTree(file), key) == Some(Stringify(v))
    ensures committed.Err? ==> committed.error == StructError
  {
    var db := new DBDB.Connect(image);
    var _ := db.Set(Given(Int(key)), Given(v));
    ghost var contents := db.tree.Contents();
    committed := db.Commit();
    file := db.Close();
    assert file.end >= SuperblockSize;
    if committed.Ok? {
      LookupMapValues(contents, Stringify, key);
    }
  }

  /** Connect, set, close without commit: the file names the same tree. */
  method SetClose(image: FileImage, key: int, v: Scalar) returns (file: FileImage)
    requires DbImageOk(image)
    ensures DbImageOk(file) && FileTree(file) == FileTree(image)
  {
    var db := new DBDB.Connect(image);
    var _ := db.Set(Given(Int(key)), Given(v));
    file := db.Close();
    assert file.end >= SuperblockSize;
  }

  /** Set, commit, close, reopen: `get` returns the value that was set,
      converted as its committed text allows; an int comes back as itself. */
  method CommitThenReopen(image: FileImage, key: int, v: Scalar) returns (committed: Result<()>, got: Result<PyValue>)
    requires DbImageOk(image)
    ensures committed.Ok? ==> got == Ok(Coerce(v))
    ensures committed.Ok? && v.Int? ==> got == Ok(PyInt(v.i))
    ensures committed.Err? ==> committed.error == StructError
  {
    var file;
    committed, file := SetCommitClose(image, key, v);
    got := GetFromFile(file, key);
    CommittedConversion(v);
  }

  /** Set without commit, close, reopen: the key is not there. */
  method SetWithoutCommitIsLost(image: FileImage, key: int, v: Scalar) returns (got: Result<PyValue>)
    requires DbImageOk(image) && key !in Keys(FileTree(image))
    ensures got == Err(KeyError)
  {
    var file := SetClose(image, key, v);
    LookupFindsKeys(FileTree(image), key);
    got := GetFromFile(file, key);
  }

  /** Within one connection `get` sees a `set` before any commit: the
      storage stays locked, so there is no reload, and `int()` applies to
      the value itself, which truncates a float. */
  method GetAfterSet(image: FileImage, key: int, v: Scalar) returns (got: Result<PyValue>)
    requires DbImageOk(image)
    ensures got == Ok(CoerceAsWritten(v))
    ensures v.Float? ==> got == Ok(PyInt(PyText.Trunc(v.x)))
  {
    var db := new DBDB.Connect(image);
    var _ := db.Set(Given(Int(key)), Given(v));
    got := db.Get(key);
  }
}
