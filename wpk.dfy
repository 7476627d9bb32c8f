/** The WPK unpacker: a header with a magic, a version and an entry count,
    a table of absolute entry-header offsets, and per entry the payload's
    offset and size and the entry's name length. Each entry's name is the
    UTF-16 name with its zero bytes dropped; its payload is a slice of the
    whole file, written out under that name. */
module Wpk {
  import opened Wrappers
  import opened Bytes
  import opened ByteCursor
  import Keyed

  /** The header: magic, version and the entry-header offsets. */
  datatype Header = Header(magic: seq<byte>, version: u32, offsets: seq<u32>)

  /** One extracted entry: its name bytes and the payload written for it. */
  datatype Entry = Entry(name: seq<byte>, payload: seq<byte>)

  // ---------------------------------------------------------------------
  // Names

  /** The bytes with every zero byte removed. */
  function Strip(raw: seq<byte>): seq<byte>
  {
    if raw == [] then []
    else Strip(raw[..|raw| - 1]) + (if raw[|raw| - 1] == 0 then [] else [raw[|raw| - 1]])
  }

  /** Stripping keeps every non-zero byte, as often as it occurs, and drops
      every zero byte. */
  lemma {:induction false} StripHolds(raw: seq<byte>)
    ensures |Strip(raw)| <= |raw|
    ensures 0 !in Strip(raw)
    ensures forall b: byte :: b != 0 ==> multiset(Strip(raw))[b] == multiset(raw)[b]
    ensures |Strip(raw)| == |raw| <==> 0 !in raw
  {
    if raw != [] {
      var n := |raw| - 1;
      var init := raw[..n];
      StripHolds(init);
      assert raw == init + [raw[n]];
      assert multiset(raw) == multiset(init) + multiset{raw[n]};
      if raw[n] == 0 {
        assert |Strip(raw)| == |Strip(init)| < |raw|;
      } else {
        assert multiset(Strip(raw)) == multiset(Strip(init)) + multiset{raw[n]};
        assert 0 in raw <==> 0 in init;
      }
    }
  }

  /** Stripping keeps the order: it splits over concatenation. */
  lemma {:induction false} StripAppend(a: seq<byte>, b: seq<byte>)
    ensures Strip(a + b) == Strip(a) + Strip(b)
    decreases |b|
  {
    if b == [] {
      assert a + b == a;
    } else {
      var n := |b| - 1;
      var init := b[..n];
      StripAppend(a, init);
      assert (a + b)[..|a + b| - 1] == a + init;
      assert (a + b)[|a + b| - 1] == b[n];
    }
  }

  /** The UTF-16LE encoding of characters below 0x100: each byte followed by
      a zero byte. */
  function Widen(s: seq<byte>): (r: seq<byte>)
    ensures |r| == 2 * |s|
  {
    if s == [] then [] else Widen(s[..|s| - 1]) + [s[|s| - 1], 0]
  }

  lemma StripPair(b: byte)
    requires b != 0
    ensures Strip([b, 0]) == [b]
  {
    var p: seq<byte> := [b, 0];
    assert p[..1] == [b] && p[1] == 0;
    assert Strip(p) == Strip([b]);
    assert [b][..0] == [];
  }

  /** A name of non-zero single-byte characters stored as UTF-16LE comes back
      out of Strip unchanged. */
  lemma {:induction false} StripWiden(s: seq<byte>)
    requires 0 !in s
    ensures Strip(Widen(s)) == s
  {
    if s != [] {
      var n := |s| - 1;
      var init := s[..n];
      assert 0 !in init by {
        forall k | 0 <= k < n ensures init[k] != 0 {
          assert init[k] == s[k];
        }
      }
      StripWiden(init);
      var w := Widen(init);
      assert Widen(s) == w + [s[n], 0];
      StripAppend(w, [s[n], 0]);
      StripPair(s[n]);
      assert s == init + [s[n]];
    }
  }

  // ---------------------------------------------------------------------
  // Payloads

  /** `buffer.slice(start, end)` for non-negative bounds: both are clamped to
      the buffer's length, and an empty slice results when `end < start`. */
  function Slice(buf: seq<byte>, start: nat, end: nat): seq<byte>
  {
    var s := if start < |buf| then start else |buf|;
    var e := if end < |buf| then end else |buf|;
    if s <= e then buf[s..e] else []
  }

  /** The payload is exactly `size` bytes from `offset` when they lie in the
      buffer; otherwise it is the part of them that does, possibly empty. */
  lemma SliceHolds(buf: seq<byte>, offset: nat, size: nat)
    ensures offset + size <= |buf| ==> Slice(buf, offset, offset + size) == buf[offset..offset + size]
    ensures offset <= |buf| < offset + size ==> Slice(buf, offset, offset + size) == buf[offset..]
    ensures |buf| < offset ==> Slice(buf, offset, offset + size) == []
    ensures |Slice(buf, offset, offset + size)| <= size
  {
  }

  // ---------------------------------------------------------------------
  // The container

  /** `unpack("4sLL")` and then `unpack(count + "L")`. */
  function ReadHeader(buf: seq<byte>): Result<Header>
  {
    var magic :- Cursor(buf, 0).ReadBytes(4);
    var version :- magic.rest.ReadU32();
    var count :- version.rest.ReadU32();
    var offsets :- count.rest.ReadU32s(count.value);
    Ok(Header(magic.value, version.value, offsets.value))
  }

  /** The header is read whenever the buffer holds its twelve bytes and the
      offset table; neither the magic nor the version is checked. */
  lemma HeaderHolds(buf: seq<byte>)
    ensures ReadHeader(buf).Ok? <==> 12 <= |buf| && 12 + 4 * U32At(buf, 8) <= |buf|
    ensures ReadHeader(buf).Ok? ==>
      var h := ReadHeader(buf).value;
      h.magic == buf[..4] && h.version == U32At(buf, 4) && |h.offsets| == U32At(buf, 8) &&
      forall k :: 0 <= k < |h.offsets| ==> h.offsets[k] == U32At(buf, 12 + 4 * k)
  {
    if 12 <= |buf| {
      var c := Cursor(buf, 0);
      assert c.ReadBytes(4) == Ok(Read(buf[..4], Cursor(buf, 4)));
      assert Cursor(buf, 4).ReadU32() == Ok(Read(U32At(buf, 4), Cursor(buf, 8)));
      assert Cursor(buf, 8).ReadU32() == Ok(Read(U32At(buf, 8), Cursor(buf, 12)));
    }
  }

  /** One entry: seek to its header, `unpack('LLL')`, then the name and the
      payload. */
  function ReadEntry(buf: seq<byte>, at: u32): Result<Entry>
  {
    var c :- Cursor(buf, 0).Seek(at);
    var offset :- c.ReadU32();
    var size :- offset.rest.ReadU32();
    var nameLength :- size.rest.ReadU32();
    var raw :- nameLength.rest.ReadBytes(2 * nameLength.value);
    Ok(Entry(Strip(raw.value), Slice(buf, offset.value, offset.value + size.value)))
  }

  /** An entry is read exactly when its twelve header bytes and its name lie
      in the buffer; the payload's bounds are not checked. */
  lemma EntryHolds(buf: seq<byte>, at: u32)
    ensures ReadEntry(buf, at).Ok? <==>
      at + 12 <= |buf| && at + 12 + 2 * U32At(buf, at + 8) <= |buf|
    ensures ReadEntry(buf, at).Ok? ==>
      var e := ReadEntry(buf, at).value;
      var offset, size := U32At(buf, at), U32At(buf, at + 4);
      e.name == Strip(buf[at + 12..at + 12 + 2 * U32At(buf, at + 8)]) &&
      e.payload == Slice(buf, offset, offset + size)
  {
    if at + 12 <= |buf| {
      var c := Cursor(buf, at);
      assert Cursor(buf, 0).Seek(at) == Ok(c);
      assert c.ReadU32() == Ok(Read(U32At(buf, at), Cursor(buf, at + 4)));
      assert Cursor(buf, at + 4).ReadU32() == Ok(Read(U32At(buf, at + 4), Cursor(buf, at + 8)));
      assert Cursor(buf, at + 8).ReadU32() == Ok(Read(U32At(buf, at + 8), Cursor(buf, at + 12)));
    }
  }

  /** The names under which `writeFileSync` would write the extraction
      directory itself or its parent instead of a file in it: "", "." and
      "..". */
  predicate DirectoryName(name: seq<byte>)
  {
    name == [] || name == [0x2E] || name == [0x2E, 0x2E]
  }

  /** One turn of the loop: the entry is read, then written; a write aimed
      at a directory throws. */
  function WriteEntry(buf: seq<byte>, at: u32): Result<Entry>
  {
    var e :- ReadEntry(buf, at);
    if DirectoryName(e.name) then Err(IsDirectory) else Ok(e)
  }

  /** A turn succeeds exactly when the entry can be read and its name is a
      file name; a read entry with a directory name fails as a write. */
  lemma WriteEntryHolds(buf: seq<byte>, at: u32)
    ensures WriteEntry(buf, at).Ok? <==> ReadEntry(buf, at).Ok? && !DirectoryName(ReadEntry(buf, at).value.name)
    ensures WriteEntry(buf, at).Ok? ==> WriteEntry(buf, at) == ReadEntry(buf, at)
    ensures ReadEntry(buf, at).Err? ==> WriteEntry(buf, at) == ReadEntry(buf, at)
    ensures ReadEntry(buf, at).Ok? && DirectoryName(ReadEntry(buf, at).value.name) ==>
      WriteEntry(buf, at) == Err(IsDirectory)
  {
  }

  /** What the loop over the offset table leaves: the entries written, in
      order, and whether it got to the end or stopped at an entry it could
      not read. */
  datatype Outcome = Outcome(written: seq<Entry>, result: Result<()>)

  /** The loop over the offsets `offsets`, one entry at a time. */
  function Entries(buf: seq<byte>, offsets: seq<u32>): Outcome
  {
    if offsets == [] then Outcome([], Ok(()))
    else
      var before := Entries(buf, offsets[..|offsets| - 1]);
      if before.result.Err? then before
      else match WriteEntry(buf, offsets[|offsets| - 1])
        case Ok(e) => Outcome(before.written + [e], Ok(()))
        case Err(f) => Outcome(before.written, Err(f))
  }

  /** The entries written are those of the first offsets in order; the loop
      gets to the end exactly when every entry can be read and written, and
      otherwise stops at the first entry that cannot, with that entry's
      fault. */
  lemma {:induction false} EntriesHold(buf: seq<byte>, offsets: seq<u32>)
    ensures |Entries(buf, offsets).written| <= |offsets|
    ensures forall j :: 0 <= j < |Entries(buf, offsets).written| ==>
      WriteEntry(buf, offsets[j]) == Ok(Entries(buf, offsets).written[j])
    ensures Entries(buf, offsets).result.Ok? <==> |Entries(buf, offsets).written| == |offsets|
    ensures Entries(buf, offsets).result.Err? ==>
      WriteEntry(buf, offsets[|Entries(buf, offsets).written|]) == Err(Entries(buf, offsets).result.fault)
  {
    if offsets != [] {
      var n := |offsets| - 1;
      var init := offsets[..n];
      EntriesHold(buf, init);
      var before := Entries(buf, init);
      forall j | 0 <= j < |before.written| ensures offsets[j] == init[j] { }
    }
  }

  /** Once an entry fails, the later offsets change nothing. */
  lemma {:induction false} EntriesStop(buf: seq<byte>, offsets: seq<u32>, i: nat)
    requires i <= |offsets| && Entries(buf, offsets[..i]).result.Err?
    ensures Entries(buf, offsets) == Entries(buf, offsets[..i])
    decreases |offsets| - i
  {
    if i < |offsets| {
      assert offsets[..i + 1][..i] == offsets[..i];
      EntriesStop(buf, offsets, i + 1);
    } else {
      assert offsets[..i] == offsets;
    }
  }

  /** The whole unpacker: the header, then the entries. */
  function Unpacked(buf: seq<byte>): Outcome
  {
    match ReadHeader(buf)
    case Err(f) => Outcome([], Err(f))
    case Ok(h) => Entries(buf, h.offsets)
  }

  /** `unpack("4sLL")` and `unpack(count + "L")` on a fresh cursor; the
      cursor is left after the offset table. */
  method UnpackHeader(buf: seq<byte>) returns (h: Result<Header>, c: Cursor)
    ensures h == ReadHeader(buf) && c.buf == buf
  {
    c := Cursor(buf, 0);
    var magic := c.ReadBytes(4);
    if magic.Err? { return Err(magic.fault), c; }
    var version := magic.value.rest.ReadU32();
    if version.Err? { return Err(version.fault), c; }
    var count := version.value.rest.ReadU32();
    if count.Err? { return Err(count.fault), c; }
    var table := count.value.rest.ReadU32s(count.value.value);
    if table.Err? { return Err(table.fault), c; }
    h, c := Ok(Header(magic.value.value, version.value.value, table.value.value)), table.value.rest;
  }

  /** One turn of the loop: `seek(at)`, `unpack('LLL')`, `raw(2 * nameLength)`
      on the shared cursor, then the name and the payload slice. */
  method UnpackEntry(c0: Cursor, at: u32) returns (e: Result<Entry>, c: Cursor)
    ensures e == ReadEntry(c0.buf, at) && c.buf == c0.buf
  {
    c := c0;
    var seek := c.Seek(at);
    if seek.Err? { return Err(seek.fault), c; }
    c := seek.value;
    assert c == Cursor(c0.buf, at);
    var offset := c.ReadU32();
    if offset.Err? { return Err(offset.fault), c; }
    var size := offset.value.rest.ReadU32();
    if size.Err? { return Err(size.fault), c; }
    var nameLength := size.value.rest.ReadU32();
    if nameLength.Err? { return Err(nameLength.fault), c; }
    var raw := nameLength.value.rest.ReadBytes(2 * (nameLength.value.value as int));
    if raw.Err? { return Err(raw.fault), c; }
    c := raw.value.rest;
    var name := StripZeros(raw.value.value);
    var payload := Slice(c0.buf, offset.value.value, offset.value.value as int + size.value.value);
    e := Ok(Entry(name, payload));
  }

  /** `unzipkWpk`: the header and offset table, then every entry in table
      order, each handed to `write` once it is read. */
  method Unpack(buf: seq<byte>) returns (written: seq<Entry>, r: Result<()>)
    ensures Outcome(written, r) == Unpacked(buf)
  {
    written := [];
    var h, c := UnpackHeader(buf);
    if h.Err? { return [], Err(h.fault); }
    var offsets := h.value.offsets;
    for i := 0 to |offsets|
      invariant Entries(buf, offsets[..i]) == Outcome(written, Ok(()))
      invariant c.buf == buf
    {
      assert offsets[..i + 1][..i] == offsets[..i];
      var e;
      e, c := UnpackEntry(c, offsets[i]);
      if e.Err? {
        EntriesStop(buf, offsets, i + 1);
        return written, Err(e.fault);
      }
      if DirectoryName(e.value.name) {
        EntriesStop(buf, offsets, i + 1);
        return written, Err(IsDirectory);
      }
      written := written + [e.value];
    }
    assert offsets[..|offsets|] == offsets;
    r := Ok(());
  }

  /** The filter over the raw name bytes. */
  method StripZeros(raw: seq<byte>) returns (name: seq<byte>)
    ensures name == Strip(raw)
  {
    name := [];
    for i := 0 to |raw|
      invariant name == Strip(raw[..i])
    {
      assert raw[..i + 1][..i] == raw[..i];
      if raw[i] != 0 {
        name := name + [raw[i]];
      }
    }
    assert raw[..|raw|] == raw;
  }

  // ---------------------------------------------------------------------
  // The extraction directory

  function EntryName(e: Entry): seq<byte> { e.name }

  function EntryPayload(e: Entry): seq<byte> { e.payload }

  /** The files the writes leave: each write replaces a file of the same name. */
  function Disk(written: seq<Entry>): map<seq<byte>, seq<byte>>
  {
    Keyed.Index(written, EntryName, EntryPayload)
  }

  /** Every written name is a file, every file was written, and a file holds
      the payload of the last entry written under its name. */
  lemma DiskHolds(written: seq<Entry>)
    ensures forall j :: 0 <= j < |written| ==> written[j].name in Disk(written)
    ensures forall n :: n in Disk(written) ==> exists j :: 0 <= j < |written| && written[j].name == n
    ensures forall j: nat :: Keyed.LastWith(written, EntryName, j) ==> Disk(written)[written[j].name] == written[j].payload
  {
    Keyed.IndexKeys(written, EntryName, EntryPayload);
    Keyed.IndexLast(written, EntryName, EntryPayload);
  }

  /** No file the unpacker leaves is named "", "." or "..". */
  lemma DiskFileNames(buf: seq<byte>)
    ensures forall n :: n in Disk(Unpacked(buf).written) ==> !DirectoryName(n)
  {
    var written := Unpacked(buf).written;
    DiskHolds(written);
    match ReadHeader(buf)
    case Err(_) =>
    case Ok(h) =>
      EntriesHold(buf, h.offsets);
      forall j | 0 <= j < |written| ensures !DirectoryName(written[j].name) {
        WriteEntryHolds(buf, h.offsets[j]);
      }
  }
}
