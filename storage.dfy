// The database file and the `Storage` class that reads and writes it
// (cs207bst.py and cs207rbtree.py carry identical copies). The file is a
// 4096-byte superblock whose first 8 bytes hold the root address, followed
// by length-prefixed records appended one after another. A record's bytes
// are a pickle (nodes) or UTF-8 text (values); the model keeps the decoded
// record instead of its bytes.
module DbStorage {
  import opened Results
  import BigEndian

  type byte = BigEndian.byte

  const SuperblockSize: nat := 4096

  /** Colour field of a node record: absent in the plain tree's records,
      RED = 0 and BLACK = 1 in the red-black tree's. */
  datatype Paint = NoColor | Red | Black

  /** What one record decodes to: a stored value's text, or a node whose
      children and value are given by address (0 for an empty child). */
  datatype Record =
    | TextRecord(text: string)
    | NodeRecord(left: nat, key: int, value: nat, right: nat, paint: Paint)

  /** Byte length assumed for a node's pickle. */
  const NodeRecordSize: nat := 64

  /** Length of a record's payload: one byte per character of a text. */
  function PayloadSize(r: Record): nat
  {
    match r
    case TextRecord(text) => |text|
    case NodeRecord(_, _, _, _, _) => NodeRecordSize
  }

  /** A database file at rest: what one connection leaves for the next. */
  datatype FileImage = FileImage(header: seq<byte>, records: map<nat, Record>, end: nat)

  /** Every record, with its 8-byte length prefix, lies after the
      superblock and before the end of the file. */
  predicate Layout(records: map<nat, Record>, end: nat)
  {
    forall a | a in records ::
      SuperblockSize <= a && a + BigEndian.IntegerLength + PayloadSize(records[a]) <= end
  }

  /** A file this program could have written: shorter than a superblock and
      then without records, or a full superblock followed by records. */
  predicate ImageOk(img: FileImage)
  {
    if img.end < SuperblockSize then |img.header| == img.end && img.records == map[]
    else |img.header| == SuperblockSize && Layout(img.records, img.end)
  }

  /** `_ensure_superblock`: zero-pads a file shorter than the superblock so
      that the first record starts on the sector boundary. */
  function EnsureSuperblock(img: FileImage): (r: FileImage)
    requires ImageOk(img)
    ensures ImageOk(r) && r.end >= SuperblockSize
    ensures r.records == img.records && r.header[..|img.header|] == img.header
    ensures img.end >= SuperblockSize ==> r == img
  {
    if img.end < SuperblockSize then
      FileImage(img.header + seq(SuperblockSize - img.end, _ => 0 as byte), img.records, SuperblockSize)
    else img
  }

  /** The root address a file's superblock names. */
  function RootAddressOf(header: seq<byte>): nat
    requires |header| >= BigEndian.IntegerLength
  {
    BigEndian.Decode(header[..BigEndian.IntegerLength])
  }

  /** A file that did not exist (or was empty) names root address 0, the
      empty tree, once its superblock is in place. */
  lemma FreshFileHasNoRoot()
    ensures RootAddressOf(EnsureSuperblock(FileImage([], map[], 0)).header) == 0
  {
    var h := EnsureSuperblock(FileImage([], map[], 0)).header;
    BigEndian.DecodeZeros(h[..BigEndian.IntegerLength]);
  }

  class Storage {
    var header: seq<byte>
    var records: map<nat, Record>
    var end: nat
    var locked: bool
    var closed: bool

    ghost predicate Valid()
      reads this
    {
      |header| == SuperblockSize && SuperblockSize <= end && Layout(records, end)
    }

    /** The file as the next connection will find it. */
    function Image(): FileImage
      reads this
    {
      FileImage(header, records, end)
    }

    /** Opens a file: the superblock is ensured under the lock, which is then
        released. */
    constructor (image: FileImage)
      requires ImageOk(image)
      ensures Valid() && Image() == EnsureSuperblock(image)
      ensures !locked && !closed
    {
      var padded := EnsureSuperblock(image);
      header, records, end := padded.header, padded.records, padded.end;
      locked, closed := false, false;
    }

    /** Takes the exclusive lock; true only when this call acquired it. */
    method Lock() returns (acquired: bool)
      modifies this`locked
      ensures acquired == !old(locked) && locked
    {
      acquired := !locked;
      locked := true;
    }

    method Unlock()
      modifies this`locked
      ensures !locked
    {
      locked := false;
    }

    /** Appends a record at the end of the file and returns its address;
        the lock is taken and kept. */
    method Write(data: Record) returns (address: nat)
      requires Valid()
      modifies this`records, this`end, this`locked
      ensures Valid() && locked
      ensures address == old(end) && address !in old(records)
      ensures records == old(records)[address := data]
      ensures end == old(end) + BigEndian.IntegerLength + PayloadSize(data)
    {
      locked := true;
      address := end;
      records := records[address := data];
      end := end + BigEndian.IntegerLength + PayloadSize(data);
    }

    /** The record written at `address`. */
    function Read(address: nat): (r: Record)
      reads this
      requires address in records
      ensures r == records[address]
    {
      records[address]
    }

    /** Writes the root address into the first 8 bytes of the superblock and
        releases the lock. An address "!Q" cannot pack is the struct.error,
        raised after the lock was taken. */
    method CommitRootAddress(root: nat) returns (r: Result<()>)
      requires Valid()
      modifies this`header, this`locked
      ensures Valid()
      ensures root < BigEndian.QLimit ==>
        (r.Ok? && !locked && RootAddress() == root
         && header[BigEndian.IntegerLength..] == old(header)[BigEndian.IntegerLength..])
      ensures root >= BigEndian.QLimit ==> r == Err(StructError) && locked && header == old(header)
    {
      locked := true;
      if root < BigEndian.QLimit {
        var packed := BigEndian.Encode(root, BigEndian.IntegerLength);
        header := packed + header[BigEndian.IntegerLength..];
        assert header[..BigEndian.IntegerLength] == packed;
        BigEndian.DecodeEncode(root, BigEndian.IntegerLength);
        locked := false;
        r := Ok(());
      } else {
        r := Err(StructError);
      }
    }

    /** `get_root_address`: the first integer of the superblock. */
    function RootAddress(): nat
      reads this
      requires |header| >= BigEndian.IntegerLength
    {
      RootAddressOf(header)
    }

    method Close()
      modifies this`locked, this`closed
      ensures !locked && closed
    {
      locked := false;
      closed := true;
    }
  }

  /** Reading at the address `write` returned gives back exactly what was
      written, and that address lies past the superblock. */
  method WriteThenRead(s: Storage, data: Record) returns (address: nat, back: Record)
    requires s.Valid()
    modifies s`records, s`end, s`locked
    ensures back == data && address >= SuperblockSize
    ensures address == old(s.end) && address !in old(s.records)
  {
    address := s.Write(data);
    back := s.Read(address);
  }
}
