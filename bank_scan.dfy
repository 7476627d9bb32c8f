/** The section scan of a sound bank (the first loop of `parseBNK`).
    A bank is a run of sections, each a 4-byte tag and a u32 size. A `HIRC`
    section holds a u32 record count and that many records; a record is a u8
    type, a u32 length and a u32 ID, and its body, `length - 4` bytes, is
    decoded through a cursor bounded to it. Every other section is skipped
    by its size. The result is the object table: for each record in order,
    its own object first and then the objects synthesized from it. */
module BankScan {
  import opened Wrappers
  import opened Bytes
  import opened ByteCursor
  import opened Hirc
  import opened HircDecode
  import opened HircFormat

  /** The tag "HIRC". */
  const HircTag: seq<byte> := [0x48, 0x49, 0x52, 0x43]

  /** What one record adds to the table: its object, if any, then its extras. */
  function Objects(d: Decoded): seq<HircObject>
  {
    (if d.primary.Some? then [d.primary.value] else []) + d.extras
  }

  // ---------------------------------------------------------------------
  // Specification

  /** A record's header and a cursor bounded to its body. */
  datatype Frame = Frame(typeTag: byte, id: u32, body: Cursor)

  /** One record's framing: type, length and ID, then a cursor over the
      `length - 4` bytes of its body. The parent cursor moves past the whole
      body, whatever the decoder leaves unread in it. A length below 4 asks
      for a negative span and fails. */
  function FrameSpec(c: Cursor): Result<Read<Frame>>
  {
    var t :- c.ReadU8();
    var len :- t.rest.ReadU32();
    var id :- len.rest.ReadU32();
    var body :- id.rest.Sub(len.value as int - 4);
    Ok(Read(Frame(t.value, id.value, body.value), body.rest))
  }

  /** One record read in full: framed, then its body decoded. */
  function RecordAt(c: Cursor): Result<Read<Decoded>>
  {
    var f :- FrameSpec(c);
    var d :- RecordSpec(f.value.id, f.value.typeTag, f.value.body);
    Ok(Read(d, f.rest))
  }

  /** A reader of one record: what it decodes to and the cursor after it. */
  type RecordReader = Cursor -> Result<Read<Decoded>>

  /** `n` records in a row, each read by `read`, their objects concatenated
      in order; the first record that fails stops the run. */
  function Repeat(read: RecordReader, c: Cursor, n: nat): Result<Read<seq<HircObject>>>
    decreases n, 1
  {
    if n == 0 then Ok(Read([], c)) else RepeatFrom(read, c, n)
  }

  /** A record, then `n - 1` more. */
  function RepeatFrom(read: RecordReader, c: Cursor, n: nat): Result<Read<seq<HircObject>>>
    requires n > 0
    decreases n, 0
  {
    var r :- read(c);
    Prepend(Objects(r.value), Repeat(read, r.rest, n - 1))
  }

  /** `n` framed records in a row. */
  function FramesSpec(c: Cursor, n: nat): Result<Read<seq<HircObject>>>
  {
    Repeat(RecordAt, c, n)
  }

  /** One section: the objects it holds (none unless it is `HIRC`) and the
      cursor after it. */
  function SectionSpec(c: Cursor): (r: Result<Read<seq<HircObject>>>)
    ensures r.Ok? ==> r.value.rest.buf == c.buf && c.pos + 8 <= r.value.rest.pos <= |c.buf|
  {
    var tag :- c.ReadBytes(4);
    var size :- tag.rest.ReadU32();
    if tag.value == HircTag then
      var section :- size.rest.Sub(size.value as int);
      var count :- section.value.ReadU32();
      var objs :- FramesSpec(count.rest, count.value as nat);
      Ok(Read(objs.value, section.rest))
    else
      var next :- size.rest.Skip(size.value as int);
      Ok(Read([], next))
  }

  /** The whole scan: sections until the cursor reaches the end. */
  function ScanSpec(c: Cursor): Result<seq<HircObject>>
    requires c.pos <= |c.buf|
    decreases |c.buf| - c.pos
  {
    if c.IsEnd() then Ok([])
    else
      var s :- SectionSpec(c);
      var tail :- ScanSpec(s.rest);
      Ok(s.value + tail)
  }

  /** Prefix the objects of a successful scan with `acc`. */
  function Then(acc: seq<HircObject>, r: Result<seq<HircObject>>): Result<seq<HircObject>>
  {
    match r
    case Ok(objs) => Ok(acc + objs)
    case Err(f) => Err(f)
  }

  // ---------------------------------------------------------------------
  // The loops

  /** A record followed by a run of `n` more is a run of `n + 1`. */
  lemma RepeatCons(read: RecordReader, c: Cursor, n: nat, d: Decoded, next: Cursor,
                   objects: seq<HircObject>, end: Cursor)
    requires read(c) == Ok(Read(d, next))
    requires Repeat(read, next, n) == Ok(Read(objects, end))
    ensures Repeat(read, c, n + 1) == Ok(Read(Objects(d) + objects, end))
  {
  }

  /** The record loop's invariant survives one more record. */
  lemma RepeatStep(whole: Result<Read<seq<HircObject>>>, objects: seq<HircObject>,
                   read: RecordReader, c: Cursor, n: nat, d: Decoded, next: Cursor)
    requires n > 0 && read(c) == Ok(Read(d, next))
    requires whole == Prepend(objects, Repeat(read, c, n))
    ensures whole == Prepend(objects + Objects(d), Repeat(read, next, n - 1))
  {
    PrependTwice(objects, Objects(d), Repeat(read, next, n - 1));
  }

  lemma RepeatFail(read: RecordReader, c: Cursor, n: nat)
    requires n > 0 && read(c).Err?
    ensures Repeat(read, c, n) == Err(read(c).fault)
  {
  }

  /** A record's header, read by `unpack('BLL')`, and `sub(length - 4)`. */
  method ParseFrame(c: Cursor) returns (r: Result<Read<Frame>>)
    ensures r == FrameSpec(c)
  {
    var t :- c.ReadU8();
    var len :- t.rest.ReadU32();
    var id :- len.rest.ReadU32();
    var body :- id.rest.Sub(len.value as int - 4);
    r := Ok(Read(Frame(t.value, id.value, body.value), body.rest));
  }

  /** One record: its framing, then `parseHIRCObject` on its body. */
  method ParseRecordAt(c: Cursor) returns (r: Result<Read<Decoded>>)
    ensures r == RecordAt(c)
  {
    var f :- ParseFrame(c);
    var d :- ParseHircObject(f.value.id, f.value.typeTag, f.value.body);
    r := Ok(Read(d, f.rest));
  }

  /** One turn of the record loop: reads the next record and says how the
      run's outcome continues from it. */
  method ParseNext(c: Cursor, k: nat, objects: seq<HircObject>, ghost whole: Result<Read<seq<HircObject>>>)
    returns (r: Result<Read<Decoded>>)
    requires k > 0 && whole == Prepend(objects, Repeat(RecordAt, c, k))
    ensures r.Err? ==> whole == Err(r.fault)
    ensures r.Ok? ==> whole == Prepend(objects + Objects(r.value.value), Repeat(RecordAt, r.value.rest, k - 1))
  {
    r := ParseRecordAt(c);
    if r.Err? {
      RepeatFail(RecordAt, c, k);
    } else {
      RepeatStep(whole, objects, RecordAt, c, k, r.value.value, r.value.rest);
    }
  }

  /** The record loop of a `HIRC` section: each record's object is pushed,
      then its extras (`Objects`). */
  method ParseFrames(c0: Cursor, n: nat) returns (r: Result<Read<seq<HircObject>>>)
    ensures r == FramesSpec(c0, n)
  {
    var c, k := c0, n;
    var objects: seq<HircObject> := [];
    ghost var whole := Repeat(RecordAt, c0, n);
    PrependNothing(whole);
    while k > 0
      invariant whole == Prepend(objects, Repeat(RecordAt, c, k))
    {
      var rec := ParseNext(c, k, objects, whole);
      if rec.Err? {
        return Err(rec.fault);
      }
      objects := objects + Objects(rec.value.value);
      c, k := rec.value.rest, k - 1;
    }
    PrependAll(objects, c);
    r := Ok(Read(objects, c));
  }

  /** One section: a `HIRC` section's records are read through a cursor
      bounded to the section; any other section is skipped by its size. */
  method ParseSection(c: Cursor) returns (r: Result<Read<seq<HircObject>>>)
    ensures r == SectionSpec(c)
  {
    var tag :- c.ReadBytes(4);
    var size :- tag.rest.ReadU32();
    if tag.value == HircTag {
      var section :- size.rest.Sub(size.value as int);
      var count :- section.value.ReadU32();
      var objs :- ParseFrames(count.rest, count.value as nat);
      r := Ok(Read(objs.value, section.rest));
    } else {
      var next :- size.rest.Skip(size.value as int);
      r := Ok(Read([], next));
    }
  }

  lemma ThenTwice(a: seq<HircObject>, b: seq<HircObject>, r: Result<seq<HircObject>>)
    ensures Then(a, Then(b, r)) == Then(a + b, r)
  {
    if r.Ok? {
      assert a + (b + r.value) == a + b + r.value;
    }
  }

  lemma ScanUnfold(c: Cursor, found: seq<HircObject>, next: Cursor)
    requires c.pos < |c.buf| && SectionSpec(c) == Ok(Read(found, next))
    ensures next.pos <= |next.buf| && ScanSpec(c) == Then(found, ScanSpec(next))
  {
  }

  lemma ScanStep(whole: Result<seq<HircObject>>, objects: seq<HircObject>, c: Cursor,
                 found: seq<HircObject>, next: Cursor)
    requires c.pos < |c.buf| && SectionSpec(c) == Ok(Read(found, next))
    requires whole == Then(objects, ScanSpec(c))
    ensures next.pos <= |next.buf| && whole == Then(objects + found, ScanSpec(next))
  {
    ScanUnfold(c, found, next);
    ThenTwice(objects, found, ScanSpec(next));
  }

  /** The section loop of `parseBNK`: sections are read until the cursor
      reaches the end of the bank, and their objects are collected in order. */
  method ScanBank(buf: seq<byte>) returns (r: Result<seq<HircObject>>)
    ensures r == ScanSpec(Cursor(buf, 0))
  {
    var c := Cursor(buf, 0);
    var objects: seq<HircObject> := [];
    ghost var whole := ScanSpec(c);
    assert whole == Then([], ScanSpec(c)) by {
      if whole.Ok? { assert [] + whole.value == whole.value; }
    }
    while !c.IsEnd()
      invariant c.buf == buf && c.pos <= |buf|
      invariant whole == Then(objects, ScanSpec(c))
      decreases |buf| - c.pos
    {
      var s := ParseSection(c);
      if s.Err? {
        return Err(s.fault);
      }
      ScanStep(whole, objects, c, s.value.value, s.value.rest);
      objects := objects + s.value.value;
      c := s.value.rest;
    }
    assert objects + [] == objects;
    r := Ok(objects);
  }

  // ---------------------------------------------------------------------
  // Switches follow their container

  /** The object at `i` is a switch container, and the objects right after
      it are its switches, in order. */
  predicate FollowedBySwitches(objs: seq<HircObject>, i: nat)
    requires i < |objs| && objs[i].SwitchContainer?
  {
    var sws := objs[i].switches;
    i + |sws| < |objs| && forall j :: 0 <= j < |sws| ==> objs[i + 1 + j] == Switch(sws[j].id, sws[j].members)
  }

  /** Every switch container in the table is followed by its switches: the
      object a container lists as its switch `j` is the one at `i + 1 + j`. */
  predicate SwitchesFollow(objs: seq<HircObject>)
  {
    forall i :: 0 <= i < |objs| && objs[i].SwitchContainer? ==> FollowedBySwitches(objs, i)
  }

  /** What a record decodes to: nothing at all, or one object followed by
      exactly the switches it holds. */
  predicate Coherent(d: Decoded)
  {
    (d.primary.None? && d.extras == []) || (d.primary.Some? && d == DecodedOf(d.primary.value))
  }

  lemma RecordCoherent(id: u32, t: byte, c: Cursor)
    requires RecordSpec(id, t, c).Ok?
    ensures Coherent(RecordSpec(id, t, c).value)
  {
    if SoundType <= t <= SwitchContainerType {
      RecordSound(id, t, c);
    }
  }

  lemma CoherentFollow(d: Decoded)
    requires Coherent(d)
    ensures SwitchesFollow(Objects(d))
  {
    var objs := Objects(d);
    forall i | 0 <= i < |objs| && objs[i].SwitchContainer? ensures FollowedBySwitches(objs, i) {
      assert i == 0;
      var sws := d.primary.value.switches;
      assert objs == [d.primary.value] + SwitchObjects(sws);
    }
  }

  lemma FollowShift(a: seq<HircObject>, b: seq<HircObject>, i: nat)
    requires i < |b| && b[i].SwitchContainer? && FollowedBySwitches(b, i)
    ensures (a + b)[|a| + i] == b[i] && FollowedBySwitches(a + b, |a| + i)
  {
    var sws := b[i].switches;
    forall j | 0 <= j < |sws| ensures (a + b)[|a| + i + 1 + j] == Switch(sws[j].id, sws[j].members) {
      assert (a + b)[|a| + i + 1 + j] == b[i + 1 + j];
    }
  }

  lemma FollowKeep(a: seq<HircObject>, b: seq<HircObject>, i: nat)
    requires i < |a| && a[i].SwitchContainer? && FollowedBySwitches(a, i)
    ensures (a + b)[i] == a[i] && FollowedBySwitches(a + b, i)
  {
    var sws := a[i].switches;
    forall j | 0 <= j < |sws| ensures (a + b)[i + 1 + j] == Switch(sws[j].id, sws[j].members) {
      assert (a + b)[i + 1 + j] == a[i + 1 + j];
    }
  }

  lemma FollowAppend(a: seq<HircObject>, b: seq<HircObject>)
    requires SwitchesFollow(a) && SwitchesFollow(b)
    ensures SwitchesFollow(a + b)
  {
    var ab := a + b;
    forall i | 0 <= i < |ab| && ab[i].SwitchContainer? ensures FollowedBySwitches(ab, i) {
      if i < |a| {
        FollowKeep(a, b, i);
      } else {
        FollowShift(a, b, i - |a|);
      }
    }
  }

  /** Every record `read` yields is coherent. */
  ghost predicate ReadsCoherent(read: RecordReader)
  {
    forall c :: read(c).Ok? ==> Coherent(read(c).value.value)
  }

  lemma RecordAtCoherent()
    ensures ReadsCoherent(RecordAt)
  {
    forall c | RecordAt(c).Ok? ensures Coherent(RecordAt(c).value.value) {
      var f := FrameSpec(c).value;
      RecordCoherent(f.value.id, f.value.typeTag, f.value.body);
    }
  }

  lemma {:induction false} RepeatFollow(read: RecordReader, c: Cursor, n: nat, r: Read<seq<HircObject>>)
    requires ReadsCoherent(read) && Repeat(read, c, n) == Ok(r)
    ensures SwitchesFollow(r.value)
    decreases n
  {
    if n > 0 {
      var rec := read(c).value;
      var tail := Repeat(read, rec.rest, n - 1).value;
      assert r.value == Objects(rec.value) + tail.value;
      CoherentFollow(rec.value);
      RepeatFollow(read, rec.rest, n - 1, tail);
      FollowAppend(Objects(rec.value), tail.value);
    }
  }

  lemma SectionFollow(c: Cursor)
    requires SectionSpec(c).Ok?
    ensures SwitchesFollow(SectionSpec(c).value.value)
  {
    var tag := c.ReadBytes(4).value;
    var size := tag.rest.ReadU32().value;
    if tag.value == HircTag {
      var section := size.rest.Sub(size.value as int).value;
      var count := section.value.ReadU32().value;
      RecordAtCoherent();
      RepeatFollow(RecordAt, count.rest, count.value as nat, FramesSpec(count.rest, count.value as nat).value);
    }
  }

  /** In the table a scan produces, every switch container is followed by
      its switches: the `HIRCSwitch` objects a container holds are the very
      objects that sit after it in the table. */
  lemma {:induction false} ScanFollow(c: Cursor)
    requires c.pos <= |c.buf| && ScanSpec(c).Ok?
    ensures SwitchesFollow(ScanSpec(c).value)
    decreases |c.buf| - c.pos
  {
    if !c.IsEnd() {
      var s := SectionSpec(c).value;
      SectionFollow(c);
      ScanFollow(s.rest);
      FollowAppend(s.value, ScanSpec(s.rest).value);
    }
  }
}
