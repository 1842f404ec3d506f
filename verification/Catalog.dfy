/** The catalog file: a directory tree written bottom up by a stack machine, and read back from its trailer.

    Layout: magic, directory blocks (children before parents), the root block, and the start of the root
    block as 8 little endian bytes. Directory entries point backwards, relative to their own block.
 */
module Catalog {
  import opened Common
  import opened Varint

  const MAGIC: Bytes := [145, 253, 96, 249, 196, 103, 88, 213]

  /** Entry names of this length or more are refused by the reader. */
  const NAME_LIMIT: nat := 4096

  datatype Attr =
    | Directory(start: nat)
    | File(size: u64, mtime: i64)
    | Symlink | Hardlink | BlockDevice | CharDevice | Fifo | Socket

  /** A C string: its length fits a machine word. */
  type Name = s: Bytes | |s| < 0x1_0000_0000_0000_0000

  datatype DirEntry = DirEntry(name: Name, attr: Attr)

  datatype DirInfo = DirInfo(name: Name, entries: seq<DirEntry>)

  /** The recorded tree; leaves carry a non directory attribute. */
  datatype Tree = Dir(name: Name, children: seq<Tree>) | Leaf(name: Name, attr: Attr)

  // ---- Directory blocks ----

  function EntryType(attr: Attr): byte {
    match attr
    case Directory(_) => 100
    case File(_, _) => 102
    case Symlink => 108
    case Hardlink => 104
    case BlockDevice => 98
    case CharDevice => 99
    case Fifo => 112
    case Socket => 115
  }

  /** The letter of each kind. */
  lemma EntryLetters(start: nat, size: u64, mtime: i64)
    ensures EntryType(Directory(start)) == 'd' as int && EntryType(File(size, mtime)) == 'f' as int
    ensures EntryType(Symlink) == 'l' as int && EntryType(Hardlink) == 'h' as int
    ensures EntryType(BlockDevice) == 'b' as int && EntryType(CharDevice) == 'c' as int
    ensures EntryType(Fifo) == 'p' as int && EntryType(Socket) == 's' as int
  {
  }

  predicate Encodable(e: DirEntry, pos: nat) {
    pos < TWO64 && (e.attr.Directory? ==> e.attr.start <= pos)
  }

  function EncodeAttr(attr: Attr, pos: nat): Bytes
    requires pos < TWO64 && (attr.Directory? ==> attr.start <= pos)
  {
    match attr
    case Directory(start) => EncodeU64(pos - start)
    case File(size, mtime) => EncodeU64(size) + EncodeI64(mtime)
    case _ => []
  }

  function EncodeEntry(e: DirEntry, pos: nat): Bytes
    requires Encodable(e, pos)
  {
    [EntryType(e.attr)] + (EncodeU64(|e.name|) + (e.name + EncodeAttr(e.attr, pos)))
  }

  function EncodeEntries(es: seq<DirEntry>, pos: nat): (r: Bytes)
    requires forall e :: e in es ==> Encodable(e, pos)
    ensures |r| >= |es|
  {
    if es == [] then [] else EncodeEntry(es[0], pos) + EncodeEntries(es[1..], pos)
  }

  function EncodeTable(es: seq<DirEntry>, pos: nat): (r: Bytes)
    requires |es| < TWO64 && forall e :: e in es ==> Encodable(e, pos)
    ensures |r| > |es|
  {
    EncodeU64(|es|) + EncodeEntries(es, pos)
  }

  // ---- Reading blocks ----

  /** What the parser hands to its callback: directory starts are still relative. */
  datatype RawEntry = RawEntry(name: Name, attr: RawAttr)

  datatype RawAttr = RawDirectory(offset: u64) | RawOther(attr: Attr)

  function ParseAttr(etype: byte, cursor: Bytes): Result<Read<RawAttr>> {
    match etype
    case 100 =>
      var offset := DecodeU64(cursor);
      if offset.Err? then Err else Ok(Read(RawDirectory(offset.value.value), offset.value.rest))
    case 102 =>
      var size := DecodeU64(cursor);
      if size.Err? then Err else
      var mtime := DecodeI64(size.value.rest);
      if mtime.Err? then Err
      else Ok(Read(RawOther(File(size.value.value, mtime.value.value)), mtime.value.rest))
    case 108 => Ok(Read(RawOther(Symlink), cursor))
    case 104 => Ok(Read(RawOther(Hardlink), cursor))
    case 98 => Ok(Read(RawOther(BlockDevice), cursor))
    case 99 => Ok(Read(RawOther(CharDevice), cursor))
    case 112 => Ok(Read(RawOther(Fifo), cursor))
    case 115 => Ok(Read(RawOther(Socket), cursor))
    case _ => Err
  }

  function ParseEntry(cursor: Bytes): Result<Read<RawEntry>> {
    if cursor == [] then Err else
    var len := DecodeU64(cursor[1..]);
    if len.Err? || len.value.value >= NAME_LIMIT || |len.value.rest| < len.value.value then Err else
    var name, rest := len.value.rest[..len.value.value], len.value.rest[len.value.value..];
    var attr := ParseAttr(cursor[0], rest);
    if attr.Err? then Err else Ok(Read(RawEntry(name, attr.value.value), attr.value.rest))
  }

  /** The callback of read_dir never stops the parser. */
  function Never(): RawEntry -> bool {
    _ => false
  }

  /** The callback of lookup stops at the first entry with that name. */
  function Named(name: Bytes): RawEntry -> bool {
    (raw: RawEntry) => raw.name == name
  }

  /** Parse n entries; stop early behind an entry the callback is satisfied with. */
  function ParseEntries(cursor: Bytes, n: nat, stop: RawEntry -> bool): Result<seq<RawEntry>>
    decreases n
  {
    if n == 0 then (if cursor == [] then Ok([]) else Err) else
    var e := ParseEntry(cursor);
    if e.Err? then Err
    else if stop(e.value.value) then Ok([e.value.value])
    else Prepend([e.value.value], ParseEntries(e.value.rest, n - 1, stop))
  }

  function Prepend<T>(front: seq<T>, r: Result<seq<T>>): Result<seq<T>> {
    if r.Err? then Err else Ok(front + r.value)
  }

  lemma PrependTwice<T>(a: seq<T>, b: seq<T>, r: Result<seq<T>>)
    ensures Prepend(a, Prepend(b, r)) == Prepend(a + b, r)
    ensures Prepend([], r) == r
  {
    if r.Ok? {
      ConcatAssoc(a, b, r.value);
      assert [] + r.value == r.value;
    }
  }

  function Parse(data: Bytes, stop: RawEntry -> bool): Result<seq<RawEntry>> {
    var n := DecodeU64(data);
    if n.Err? then Err else ParseEntries(n.value.rest, n.value.value, stop)
  }

  method ParseEntriesLoop(data: Bytes, n: nat, stop: RawEntry -> bool) returns (r: Result<seq<RawEntry>>)
    ensures r == ParseEntries(data, n, stop)
  {
    hide ParseEntry;
    var cursor, entries := data, [];
    PrependTwice([], [], ParseEntries(cursor, n, stop));
    for i := 0 to n
      invariant ParseEntries(data, n, stop) == Prepend(entries, ParseEntries(cursor, n - i, stop))
    {
      var e := ParseEntry(cursor);
      if e.Err? {
        return Err;
      }
      if stop(e.value.value) {
        return Ok(entries + [e.value.value]);
      }
      PrependTwice(entries, [e.value.value], ParseEntries(e.value.rest, n - i - 1, stop));
      entries := entries + [e.value.value];
      cursor := e.value.rest;
    }
    return if cursor == [] then Prepend(entries, Ok([])) else Err;
  }

  method ParseBlock(data: Bytes, stop: RawEntry -> bool) returns (r: Result<seq<RawEntry>>)
    ensures r == Parse(data, stop)
  {
    var n := CatalogDecodeU64(data);
    if n.Err? {
      return Err;
    }
    r := ParseEntriesLoop(n.value.rest, n.value.value, stop);
  }

  /** Offsets become absolute; an offset beyond the block start underflows. */
  function Resolve(raw: RawEntry, start: nat): Result<DirEntry> {
    match raw.attr
    case RawDirectory(offset) => if offset > start then Err else Ok(DirEntry(raw.name, Directory(start - offset)))
    case RawOther(attr) => Ok(DirEntry(raw.name, attr))
  }

  function ResolveAll(raws: seq<RawEntry>, start: nat): Result<seq<DirEntry>> {
    if raws == [] then Ok([]) else
    var e := Resolve(raws[0], start);
    if e.Err? then Err else Prepend([e.value], ResolveAll(raws[1..], start))
  }

  /** The size field and as many bytes behind it. */
  function ReadRawBlock(file: Bytes, start: nat): Result<Bytes> {
    if start > |file| then Err else
    var size := DecodeU64(file[start..]);
    if size.Err? || size.value.value < 1 || |size.value.rest| < size.value.value then Err
    else Ok(size.value.rest[..size.value.value])
  }

  function ReadDir(file: Bytes, start: nat): Result<seq<DirEntry>> {
    var data := ReadRawBlock(file, start);
    if data.Err? then Err else
    var raws := Parse(data.value, Never());
    if raws.Err? then Err else ResolveAll(raws.value, start)
  }

  /** Parsing stops behind the first entry with that name. */
  function Lookup(file: Bytes, start: nat, name: Bytes): Result<Option<DirEntry>> {
    var data := ReadRawBlock(file, start);
    if data.Err? then Err else
    var raws := Parse(data.value, Named(name));
    if raws.Err? then Err
    else if raws.value == [] || raws.value[|raws.value| - 1].name != name then Ok(None)
    else
      var e := Resolve(raws.value[|raws.value| - 1], start);
      if e.Err? then Err else Ok(Some(e.value))
  }

  // ---- Reading back one block ----

  function RawOf(e: DirEntry, pos: nat): RawEntry
    requires Encodable(e, pos)
  {
    RawEntry(e.name, RawAttrOf(e.attr, pos))
  }

  function RawAttrOf(attr: Attr, pos: nat): RawAttr
    requires pos < TWO64 && (attr.Directory? ==> attr.start <= pos)
  {
    if attr.Directory? then RawDirectory(pos - attr.start) else RawOther(attr)
  }

  lemma ParseAttrReads(attr: Attr, pos: nat, rest: Bytes)
    requires pos < TWO64 && (attr.Directory? ==> attr.start <= pos)
    ensures ParseAttr(EntryType(attr), EncodeAttr(attr, pos) + rest) == Ok(Read(RawAttrOf(attr, pos), rest))
  {
    hide DecodeU64, DecodeI64, EncodeU64, EncodeI64;
    match attr
    case Directory(start) => U64RoundTrip(pos - start, rest);
    case File(size, mtime) =>
      ConcatAssoc(EncodeU64(size), EncodeI64(mtime), rest);
      U64RoundTrip(size, EncodeI64(mtime) + rest);
      I64RoundTrip(mtime, rest);
    case _ => assert [] + rest == rest;
  }

  /** An entry is read back unless its name is too long. */
  lemma ParseEntryReads(e: DirEntry, pos: nat, rest: Bytes)
    requires Encodable(e, pos)
    ensures ParseEntry(EncodeEntry(e, pos) + rest) ==
      if |e.name| < 4096 then Ok(Read(RawOf(e, pos), rest)) else Err
  {
    hide DecodeU64, EncodeU64, ParseAttr, EncodeAttr;
    var len, attr := EncodeU64(|e.name|), EncodeAttr(e.attr, pos);
    var cursor := EncodeEntry(e, pos) + rest;
    assert cursor[0] == EntryType(e.attr);
    assert cursor[1..] == len + (e.name + (attr + rest));
    U64RoundTrip(|e.name|, e.name + (attr + rest));
    ParseAttrReads(e.attr, pos, rest);
    var behind := e.name + (attr + rest);
    assert behind[..|e.name|] == e.name && behind[|e.name|..] == attr + rest;
  }

  /** What a callback sees of a written block: everything up to its stop, unless a name is too long. */
  function SeenEntries(es: seq<DirEntry>, pos: nat, stop: RawEntry -> bool): Result<seq<RawEntry>>
    requires forall e :: e in es ==> Encodable(e, pos)
  {
    if es == [] then Ok([])
    else if |es[0].name| >= NAME_LIMIT then Err
    else if stop(RawOf(es[0], pos)) then Ok([RawOf(es[0], pos)])
    else Prepend([RawOf(es[0], pos)], SeenEntries(es[1..], pos, stop))
  }

  lemma {:induction false} ParseEntriesReads(es: seq<DirEntry>, pos: nat, stop: RawEntry -> bool)
    requires forall e :: e in es ==> Encodable(e, pos)
    ensures ParseEntries(EncodeEntries(es, pos), |es|, stop) == SeenEntries(es, pos, stop)
  {
    hide ParseEntry, EncodeEntry;
    if es != [] {
      ParseEntryReads(es[0], pos, EncodeEntries(es[1..], pos));
      ParseEntriesReads(es[1..], pos, stop);
    }
  }

  ghost predicate ShortNames(es: seq<DirEntry>) {
    forall e :: e in es ==> |e.name| < NAME_LIMIT
  }

  lemma ResolveRaw(e: DirEntry, pos: nat)
    requires Encodable(e, pos)
    ensures Resolve(RawOf(e, pos), pos) == Ok(e)
  {
  }

  lemma {:induction false} ResolveSeen(es: seq<DirEntry>, pos: nat)
    requires forall e :: e in es ==> Encodable(e, pos)
    ensures var raws := SeenEntries(es, pos, Never());
            if ShortNames(es) then raws.Ok? && ResolveAll(raws.value, pos) == Ok(es) else raws.Err?
  {
    hide Resolve, RawOf;
    if es != [] {
      ResolveSeen(es[1..], pos);
      ResolveRaw(es[0], pos);
      assert es == [es[0]] + es[1..];
      var rest := SeenEntries(es[1..], pos, Never());
      if ShortNames(es) {
        assert SeenEntries(es, pos, Never()).value == [RawOf(es[0], pos)] + rest.value;
      }
    }
  }

  /** A complete block for these entries starts here. */
  ghost predicate BlockAt(file: Bytes, start: nat, es: seq<DirEntry>) {
    && start < TWO64
    && |es| < TWO64
    && (forall e :: e in es ==> Encodable(e, start))
    && var table := EncodeTable(es, start);
       && |table| < TWO64
       && start <= |file|
       && EncodeU64(|table|) + table <= file[start..]
  }

  lemma PrefixSplit(a: Bytes, b: Bytes, s: Bytes)
    requires a + b <= s
    ensures s == a + (b + s[|a + b|..])
  {
  }

  lemma ReadRawBlockReads(file: Bytes, start: nat, es: seq<DirEntry>)
    requires BlockAt(file, start, es)
    ensures ReadRawBlock(file, start) == Ok(EncodeTable(es, start))
  {
    hide DecodeU64, EncodeU64, EncodeTable;
    var table := EncodeTable(es, start);
    var size := EncodeU64(|table|);
    var behind := file[start..][|size + table|..];
    PrefixSplit(size, table, file[start..]);
    U64RoundTrip(|table|, table + behind);
    assert (table + behind)[..|table|] == table;
  }

  lemma ParseTableReads(es: seq<DirEntry>, start: nat, stop: RawEntry -> bool)
    requires |es| < TWO64 && forall e :: e in es ==> Encodable(e, start)
    ensures Parse(EncodeTable(es, start), stop) == SeenEntries(es, start, stop)
  {
    hide DecodeU64, ParseEntries, SeenEntries;
    U64RoundTrip(|es|, EncodeEntries(es, start));
    ParseEntriesReads(es, start, stop);
  }

  lemma {:induction false} EntriesThenMore(es: seq<DirEntry>, pos: nat, more: Bytes)
    requires (forall e :: e in es ==> Encodable(e, pos)) && more != []
    ensures ParseEntries(EncodeEntries(es, pos) + more, |es|, Never()).Err?
  {
    hide ParseEntry, EncodeEntry;
    if es == [] {
      assert [] + more == more;
    } else {
      ParseEntryReads(es[0], pos, EncodeEntries(es[1..], pos) + more);
      EntriesThenMore(es[1..], pos, more);
      ConcatAssoc(EncodeEntry(es[0], pos), EncodeEntries(es[1..], pos), more);
    }
  }

  /** A table with bytes behind its last entry is refused. */
  lemma TrailingBytesRefused(es: seq<DirEntry>, start: nat, more: Bytes)
    requires |es| < TWO64 && (forall e :: e in es ==> Encodable(e, start)) && more != []
    ensures Parse(EncodeTable(es, start) + more, Never()).Err?
  {
    hide DecodeU64, ParseEntries;
    ConcatAssoc(EncodeU64(|es|), EncodeEntries(es, start), more);
    U64RoundTrip(|es|, EncodeEntries(es, start) + more);
    EntriesThenMore(es, start, more);
  }

  /** Reading a written directory returns its entries, and fails exactly when some name is too long. */
  lemma ReadDirReads(file: Bytes, start: nat, es: seq<DirEntry>)
    requires BlockAt(file, start, es)
    ensures ReadDir(file, start) == if ShortNames(es) then Ok(es) else Err
  {
    hide Parse, ReadRawBlock, SeenEntries, EncodeTable;
    ReadRawBlockReads(file, start, es);
    ParseTableReads(es, start, Never());
    ResolveSeen(es, start);
  }
}
