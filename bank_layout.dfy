/** The layout of a sound bank, written out from the objects it stores:
    a run of sections, a `HIRC` section framing each record with its type,
    length and ID. Scanning the bytes of such a layout finds exactly the
    objects it was made from, in order, whatever bytes a record leaves
    unread after its body and whatever other sections sit between. */
module BankLayout {
  import opened Wrappers
  import opened Bytes
  import opened ByteCursor
  import opened Hirc
  import opened HircDecode
  import opened HircFormat
  import opened BankScan

  /** Every body that holds `body` at its start decodes, as a record of type
      `t` with ID `id`, to `d`. */
  ghost predicate DecodesAs(t: byte, id: u32, body: Pattern, d: Decoded)
  {
    forall buf: seq<byte> {:trigger Fits(buf, 0, body)} ::
      Fits(buf, 0, body) ==> RecordSpec(id, t, Cursor(buf, 0)) == Ok(d)
  }

  /** A stored record: its type and ID, the bytes of its body, the number of
      bytes after the body that the length field covers but the decoder never
      reads, and what the body stands for. */
  datatype Entry = Entry(t: byte, id: u32, body: Pattern, slack: nat, decoded: Decoded)

  ghost predicate EntryOk(e: Entry)
  {
    |e.body| + 4 + e.slack < TWO32 && DecodesAs(e.t, e.id, e.body, e.decoded)
  }

  ghost predicate EntriesOk(es: seq<Entry>)
  {
    forall i :: 0 <= i < |es| ==> EntryOk(es[i])
  }

  /** The record an object is stored as, `slack` unread bytes after it. */
  function EntryOf(o: HircObject, slack: nat): Entry
    requires WellFormed(o)
  {
    Entry(TypeOf(o), o.id, Layout(o), slack, DecodedOf(o))
  }

  /** Each object's body decodes to the object and the switches it holds. */
  lemma ObjectDecodes(o: HircObject)
    requires WellFormed(o)
    ensures DecodesAs(TypeOf(o), o.id, Layout(o), DecodedOf(o))
  {
    forall buf: seq<byte> | Fits(buf, 0, Layout(o))
      ensures RecordSpec(o.id, TypeOf(o), Cursor(buf, 0)) == Ok(DecodedOf(o))
    {
      RecordComplete(o, Cursor(buf, 0));
    }
  }

  /** Every well-formed object that fits a length field can be stored, and
      stands for itself followed by the switches it holds. */
  lemma EntryOfOk(o: HircObject, slack: nat)
    requires WellFormed(o) && |Layout(o)| + 4 + slack < TWO32
    ensures EntryOk(EntryOf(o, slack))
    ensures Objects(EntryOf(o, slack).decoded) == [o] + (if o.SwitchContainer? then SwitchObjects(o.switches) else [])
  {
    ObjectDecodes(o);
  }

  /** A framed record: type, length (ID plus body), ID, body, unread bytes. */
  function FrameOf(t: byte, id: u32, body: Pattern, slack: nat): (p: Pattern)
    requires |body| + 4 + slack < TWO32
    ensures |p| == 9 + |body| + slack
  {
    U8P(t) + U32P((|body| + 4 + slack) as u32) + U32P(id) + body + Pad(slack)
  }

  function FrameP(e: Entry): (p: Pattern)
    requires |e.body| + 4 + e.slack < TWO32
  {
    FrameOf(e.t, e.id, e.body, e.slack)
  }

  function FramesP(es: seq<Entry>): Pattern
    requires EntriesOk(es)
  {
    if |es| == 0 then [] else FrameP(es[0]) + FramesP(es[1..])
  }

  /** The objects a run of records stands for: each object, then its switches. */
  function Table(es: seq<Entry>): seq<HircObject>
  {
    if |es| == 0 then [] else Objects(es[0].decoded) + Table(es[1..])
  }

  datatype Section =
    | HircSection(entries: seq<Entry>)
      /** Any other section, `BKHD` among them: a tag and a size-long body. */
    | OtherSection(tag: seq<byte>, size: u32)

  ghost predicate SectionOk(s: Section)
  {
    match s
    case HircSection(es) => EntriesOk(es) && |es| < TWO32 && 4 + |FramesP(es)| < TWO32
    case OtherSection(tag, _) => |tag| == 4 && tag != HircTag
  }

  ghost predicate SectionsOk(ss: seq<Section>)
  {
    forall i :: 0 <= i < |ss| ==> SectionOk(ss[i])
  }

  function SectionP(s: Section): (p: Pattern)
    requires SectionOk(s)
    ensures 8 <= |p|
  {
    match s
    case HircSection(es) =>
      BytesP(HircTag) + U32P((4 + |FramesP(es)|) as u32) + (U32P(|es| as u32) + FramesP(es))
    case OtherSection(tag, size) =>
      BytesP(tag) + U32P(size) + Pad(size as nat)
  }

  function Contents(s: Section): seq<HircObject>
  {
    match s
    case HircSection(es) => Table(es)
    case OtherSection(_, _) => []
  }

  function BankP(ss: seq<Section>): Pattern
    requires SectionsOk(ss)
  {
    if |ss| == 0 then [] else SectionP(ss[0]) + BankP(ss[1..])
  }

  function Found(ss: seq<Section>): seq<HircObject>
  {
    if |ss| == 0 then [] else Contents(ss[0]) + Found(ss[1..])
  }

  // ---------------------------------------------------------------------
  // Bounded cursors

  /** A pattern that fits inside the first `n` bytes at `p` fits the bytes a
      cursor bounded to them sees. */
  lemma FitsWithin(buf: seq<byte>, p: nat, n: nat, k: nat, pat: Pattern)
    requires Fits(buf, p + k, pat) && k + |pat| <= n && p + n <= |buf|
    ensures Fits(buf[p..p + n], k, pat)
  {
    var sub := buf[p..p + n];
    forall i | 0 <= i < |pat| && pat[i].Some? ensures sub[k + i] == pat[i].value {
      assert sub[k + i] == buf[p + k + i];
    }
  }

  lemma SubBounded(c: Cursor, n: nat)
    requires c.pos + n <= |c.buf|
    ensures c.Sub(n) == Ok(Read(Cursor(c.buf[c.pos..c.pos + n], 0), Cursor(c.buf, c.pos + n)))
  {
  }

  // ---------------------------------------------------------------------
  // One record

  lemma FramePieces(t: byte, id: u32, body: Pattern, slack: nat, buf: seq<byte>, p: nat)
    requires |body| + 4 + slack < TWO32 && Fits(buf, p, FrameOf(t, id, body, slack))
    ensures Fits(buf, p, U8P(t)) && Fits(buf, p + 1, U32P((|body| + 4 + slack) as u32))
    ensures Fits(buf, p + 5, U32P(id)) && Fits(buf, p + 9, body)
    ensures p + 9 + |body| + slack <= |buf|
  {
    var h1 := U8P(t) + U32P((|body| + 4 + slack) as u32);
    var h2 := h1 + U32P(id);
    FitsAppend(buf, p, h2 + body, Pad(slack));
    FitsAppend(buf, p, h2, body);
    FitsAppend(buf, p, h1, U32P(id));
    FitsAppend(buf, p, U8P(t), U32P((|body| + 4 + slack) as u32));
  }

  lemma FrameChain(c: Cursor, t: byte, len: u32, id: u32, body: Cursor,
                   c1: Cursor, c5: Cursor, c9: Cursor, end: Cursor)
    requires c.ReadU8() == Ok(Read(t, c1)) && c1.ReadU32() == Ok(Read(len, c5))
    requires c5.ReadU32() == Ok(Read(id, c9)) && c9.Sub(len as int - 4) == Ok(Read(body, end))
    ensures FrameSpec(c) == Ok(Read(Frame(t, id, body), end))
  {
  }

  /** The header of a framed record reads back. */
  lemma FrameHeader(t: byte, id: u32, body: Pattern, slack: nat, c: Cursor)
    requires |body| + 4 + slack < TWO32 && Fits(c.buf, c.pos, FrameOf(t, id, body, slack))
    ensures c.ReadU8() == Ok(Read(t, Cursor(c.buf, c.pos + 1)))
    ensures Cursor(c.buf, c.pos + 1).ReadU32() == Ok(Read((|body| + 4 + slack) as u32, Cursor(c.buf, c.pos + 5)))
    ensures Cursor(c.buf, c.pos + 5).ReadU32() == Ok(Read(id, Cursor(c.buf, c.pos + 9)))
  {
    FramePieces(t, id, body, slack, c.buf, c.pos);
    ReadU8Fits(c, t, Cursor(c.buf, c.pos + 1));
    ReadU32Fits(Cursor(c.buf, c.pos + 1), (|body| + 4 + slack) as u32, Cursor(c.buf, c.pos + 5));
    ReadU32Fits(Cursor(c.buf, c.pos + 5), id, Cursor(c.buf, c.pos + 9));
  }

  /** The body of a framed record, bounded to the frame's length, holds the
      body pattern at its start. */
  lemma FrameBody(t: byte, id: u32, body: Pattern, slack: nat, c: Cursor)
    requires |body| + 4 + slack < TWO32 && Fits(c.buf, c.pos, FrameOf(t, id, body, slack))
    ensures Cursor(c.buf, c.pos + 9).Sub(|body| + slack)
      == Ok(Read(Cursor(c.buf[c.pos + 9..c.pos + 9 + |body| + slack], 0), Cursor(c.buf, c.pos + 9 + |body| + slack)))
    ensures Fits(c.buf[c.pos + 9..c.pos + 9 + |body| + slack], 0, body)
  {
    FramePieces(t, id, body, slack, c.buf, c.pos);
    FitsWithin(c.buf, c.pos + 9, |body| + slack, 0, body);
  }

  /** A frame around any body reads as that body's cursor. */
  lemma FrameFits(t: byte, id: u32, body: Pattern, slack: nat, c: Cursor)
    requires |body| + 4 + slack < TWO32 && Fits(c.buf, c.pos, FrameOf(t, id, body, slack))
    ensures FrameSpec(c) == Ok(Read(Frame(t, id, Cursor(c.buf[c.pos + 9..c.pos + 9 + |body| + slack], 0)),
                                    Cursor(c.buf, c.pos + 9 + |body| + slack)))
    ensures Fits(c.buf[c.pos + 9..c.pos + 9 + |body| + slack], 0, body)
  {
    var n := |body| + slack;
    FrameHeader(t, id, body, slack, c);
    FrameBody(t, id, body, slack, c);
    FrameChain(c, t, (n + 4) as u32, id, Cursor(c.buf[c.pos + 9..c.pos + 9 + n], 0),
               Cursor(c.buf, c.pos + 1), Cursor(c.buf, c.pos + 5), Cursor(c.buf, c.pos + 9),
               Cursor(c.buf, c.pos + 9 + n));
  }

  lemma RecordChain(c: Cursor, t: byte, id: u32, body: Cursor, end: Cursor, d: Decoded)
    requires FrameSpec(c) == Ok(Read(Frame(t, id, body), end)) && RecordSpec(id, t, body) == Ok(d)
    ensures RecordAt(c) == Ok(Read(d, end))
  {
  }

  /** A frame whose body decodes to `d` is a record that reads as `d`. */
  lemma FrameDecodes(t: byte, id: u32, body: Pattern, slack: nat, c: Cursor, d: Decoded)
    requires |body| + 4 + slack < TWO32 && Fits(c.buf, c.pos, FrameOf(t, id, body, slack))
    requires RecordSpec(id, t, Cursor(c.buf[c.pos + 9..c.pos + 9 + |body| + slack], 0)) == Ok(d)
    ensures RecordAt(c) == Ok(Read(d, Cursor(c.buf, c.pos + 9 + |body| + slack)))
  {
    FrameFits(t, id, body, slack, c);
    RecordChain(c, t, id, Cursor(c.buf[c.pos + 9..c.pos + 9 + |body| + slack], 0),
                Cursor(c.buf, c.pos + 9 + |body| + slack), d);
  }

  /** A frame around a body that decodes to `d` reads as `d`, and the cursor
      moves past the whole frame, unread bytes included. */
  lemma FrameReads(t: byte, id: u32, body: Pattern, slack: nat, d: Decoded, c: Cursor)
    requires |body| + 4 + slack < TWO32 && DecodesAs(t, id, body, d)
    requires Fits(c.buf, c.pos, FrameOf(t, id, body, slack))
    ensures RecordAt(c) == Ok(Read(d, Cursor(c.buf, c.pos + 9 + |body| + slack)))
  {
    FrameBody(t, id, body, slack, c);
    FrameDecodes(t, id, body, slack, c, d);
  }

  /** A stored record reads back as what it stands for. */
  lemma FrameComplete(e: Entry, c: Cursor)
    requires EntryOk(e) && Fits(c.buf, c.pos, FrameP(e))
    ensures RecordAt(c) == Ok(Read(e.decoded, Cursor(c.buf, c.pos + |FrameP(e)|)))
  {
    FrameReads(e.t, e.id, e.body, e.slack, e.decoded, c);
  }

  // ---------------------------------------------------------------------
  // A run of records

  /** `read` reads every stored record back as what it stands for. */
  ghost predicate ReadsFrames(read: RecordReader)
  {
    forall e: Entry, c: Cursor {:trigger Fits(c.buf, c.pos, FrameP(e))} ::
      EntryOk(e) && Fits(c.buf, c.pos, FrameP(e)) ==>
      read(c) == Ok(Read(e.decoded, Cursor(c.buf, c.pos + |FrameP(e)|)))
  }

  lemma RecordAtReadsFrames()
    ensures ReadsFrames(RecordAt)
  {
    forall e: Entry, c: Cursor | EntryOk(e) && Fits(c.buf, c.pos, FrameP(e))
      ensures RecordAt(c) == Ok(Read(e.decoded, Cursor(c.buf, c.pos + |FrameP(e)|)))
    {
      FrameComplete(e, c);
    }
  }

  /** `read`, started at `c`, reads the stored records back one after the
      other, each as what it stands for. */
  ghost predicate ReadsAt(read: RecordReader, es: seq<Entry>, c: Cursor)
    requires EntriesOk(es)
    decreases |es|
  {
    |es| == 0 ||
    (read(c) == Ok(Read(es[0].decoded, Cursor(c.buf, c.pos + |FrameP(es[0])|))) &&
     ReadsAt(read, es[1..], Cursor(c.buf, c.pos + |FrameP(es[0])|)))
  }

  lemma ReadsAtStep(read: RecordReader, es: seq<Entry>, c: Cursor)
    requires EntriesOk(es) && |es| > 0
    requires read(c) == Ok(Read(es[0].decoded, Cursor(c.buf, c.pos + |FrameP(es[0])|)))
    requires ReadsAt(read, es[1..], Cursor(c.buf, c.pos + |FrameP(es[0])|))
    ensures ReadsAt(read, es, c)
  {
  }

  lemma FramesUnfold(es: seq<Entry>)
    requires EntriesOk(es) && |es| > 0
    ensures |FramesP(es)| == |FrameP(es[0])| + |FramesP(es[1..])|
    ensures Table(es) == Objects(es[0].decoded) + Table(es[1..])
  {
  }

  /** Records that `read` reads back one after the other are read back as
      a run: what they stand for, in order, up to the end of the run. */
  lemma {:induction false} RunReads(read: RecordReader, es: seq<Entry>, c: Cursor)
    requires EntriesOk(es) && ReadsAt(read, es, c)
    ensures Repeat(read, c, |es|) == Ok(Read(Table(es), Cursor(c.buf, c.pos + |FramesP(es)|)))
    decreases |es|
  {
    if |es| > 0 {
      var e, rest := es[0], es[1..];
      var next := Cursor(c.buf, c.pos + |FrameP(e)|);
      RunReads(read, rest, next);
      FramesUnfold(es);
      RepeatCons(read, c, |rest|, e.decoded, next, Table(rest), Cursor(next.buf, next.pos + |FramesP(rest)|));
    }
  }

  lemma FramesSplit(es: seq<Entry>, c: Cursor)
    requires EntriesOk(es) && |es| > 0 && Fits(c.buf, c.pos, FramesP(es))
    ensures EntryOk(es[0]) && Fits(c.buf, c.pos, FrameP(es[0]))
    ensures Fits(c.buf, c.pos + |FrameP(es[0])|, FramesP(es[1..]))
  {
    FitsAppend(c.buf, c.pos, FrameP(es[0]), FramesP(es[1..]));
  }

  /** Records laid out one after the other are read back one after the
      other, each as what it stands for. */
  lemma {:induction false} FramesRead(read: RecordReader, es: seq<Entry>, c: Cursor)
    requires ReadsFrames(read) && EntriesOk(es) && Fits(c.buf, c.pos, FramesP(es))
    ensures ReadsAt(read, es, c)
    decreases |es|
  {
    if |es| > 0 {
      FramesSplit(es, c);
      FramesRead(read, es[1..], Cursor(c.buf, c.pos + |FrameP(es[0])|));
      ReadsAtStep(read, es, c);
    }
  }

  lemma RecordsRead(es: seq<Entry>, c: Cursor)
    requires EntriesOk(es) && Fits(c.buf, c.pos, FramesP(es))
    ensures ReadsAt(RecordAt, es, c)
  {
    RecordAtReadsFrames();
    FramesRead(RecordAt, es, c);
  }

  /** A run of stored records decodes to what they stand for, in order, and
      the cursor moves past the whole run. */
  lemma FramesComplete(es: seq<Entry>, c: Cursor)
    requires EntriesOk(es) && Fits(c.buf, c.pos, FramesP(es))
    ensures FramesSpec(c, |es|) == Ok(Read(Table(es), Cursor(c.buf, c.pos + |FramesP(es)|)))
  {
    RecordsRead(es, c);
    RunReads(RecordAt, es, c);
  }

  // ---------------------------------------------------------------------
  // Sections and the whole bank

  /** A section header at `c`: the `HIRC` tag, then the size `n`. */
  ghost predicate HircHead(c: Cursor, n: nat)
  {
    n < TWO32 &&
    c.ReadBytes(4) == Ok(Read(HircTag, Cursor(c.buf, c.pos + 4))) &&
    Cursor(c.buf, c.pos + 4).ReadU32() == Ok(Read(n as u32, Cursor(c.buf, c.pos + 8)))
  }

  /** A section body of `n` bytes at `at`, cut out of `buf`, whose first
      word is the record count `k`. */
  ghost predicate HircCount(buf: seq<byte>, at: nat, n: nat, k: nat)
  {
    k < TWO32 && at + n <= |buf| &&
    Cursor(buf, at).Sub(n) == Ok(Read(Cursor(buf[at..at + n], 0), Cursor(buf, at + n))) &&
    Cursor(buf[at..at + n], 0).ReadU32() == Ok(Read(k as u32, Cursor(buf[at..at + n], 4)))
  }

  lemma HircChain(c: Cursor, n: nat, k: nat, objs: seq<HircObject>, fend: Cursor)
    requires HircHead(c, n) && HircCount(c.buf, c.pos + 8, n, k)
    requires FramesSpec(Cursor(c.buf[c.pos + 8..c.pos + 8 + n], 4), k) == Ok(Read(objs, fend))
    ensures SectionSpec(c) == Ok(Read(objs, Cursor(c.buf, c.pos + 8 + n)))
  {
  }

  lemma OtherChain(c: Cursor, tag: seq<byte>, size: u32)
    requires tag != HircTag && c.ReadBytes(4) == Ok(Read(tag, Cursor(c.buf, c.pos + 4)))
    requires Cursor(c.buf, c.pos + 4).ReadU32() == Ok(Read(size, Cursor(c.buf, c.pos + 8)))
    requires Cursor(c.buf, c.pos + 8).Skip(size as int) == Ok(Cursor(c.buf, c.pos + 8 + size as int))
    ensures SectionSpec(c) == Ok(Read([], Cursor(c.buf, c.pos + 8 + size as int)))
  {
  }

  /** The pieces of a section: tag, size, then the body. */
  lemma SectionPieces(tag: seq<byte>, size: u32, body: Pattern, c: Cursor)
    requires |tag| == 4 && Fits(c.buf, c.pos, BytesP(tag) + U32P(size) + body)
    ensures c.ReadBytes(4) == Ok(Read(tag, Cursor(c.buf, c.pos + 4)))
    ensures Cursor(c.buf, c.pos + 4).ReadU32() == Ok(Read(size, Cursor(c.buf, c.pos + 8)))
    ensures Fits(c.buf, c.pos + 8, body)
  {
    FitsAppend(c.buf, c.pos, BytesP(tag) + U32P(size), body);
    FitsAppend(c.buf, c.pos, BytesP(tag), U32P(size));
    ReadBytesFits(c, tag);
    ReadU32Fits(Cursor(c.buf, c.pos + 4), size, Cursor(c.buf, c.pos + 8));
  }

  /** The header of a `HIRC` section, and the count and records after it. */
  lemma HircHeader(es: seq<Entry>, c: Cursor, n: nat)
    requires SectionOk(HircSection(es)) && Fits(c.buf, c.pos, SectionP(HircSection(es)))
    requires n == 4 + |FramesP(es)|
    ensures HircHead(c, n) && Fits(c.buf, c.pos + 8, U32P(|es| as u32) + FramesP(es))
  {
    SectionPieces(HircTag, n as u32, U32P(|es| as u32) + FramesP(es), c);
  }

  /** The body of a `HIRC` section, bounded to its size `n`, holds the count
      and the records. */
  lemma HircBody(es: seq<Entry>, buf: seq<byte>, at: nat, n: nat)
    requires EntriesOk(es) && |es| < TWO32 && n == 4 + |FramesP(es)| && n < TWO32
    requires Fits(buf, at, U32P(|es| as u32) + FramesP(es))
    ensures at + n <= |buf|
    ensures Cursor(buf, at).Sub(n) == Ok(Read(Cursor(buf[at..at + n], 0), Cursor(buf, at + n)))
    ensures Cursor(buf[at..at + n], 0).ReadU32() == Ok(Read(|es| as u32, Cursor(buf[at..at + n], 4)))
    ensures Fits(buf[at..at + n], 4, FramesP(es))
  {
    var sec := Cursor(buf[at..at + n], 0);
    FitsWithin(buf, at, n, 0, U32P(|es| as u32) + FramesP(es));
    FitsAppend(sec.buf, 0, U32P(|es| as u32), FramesP(es));
    ReadU32Fits(sec, |es| as u32, Cursor(sec.buf, 4));
  }

  lemma HircBodyCount(es: seq<Entry>, buf: seq<byte>, at: nat, n: nat)
    requires EntriesOk(es) && |es| < TWO32 && n == 4 + |FramesP(es)| && n < TWO32
    requires Fits(buf, at, U32P(|es| as u32) + FramesP(es))
    ensures HircCount(buf, at, n, |es|) && Fits(buf[at..at + n], 4, FramesP(es))
  {
    HircBody(es, buf, at, n);
  }

  /** A `HIRC` section of `n` bytes after its header holds its records'
      objects, in order. */
  lemma HircComplete(es: seq<Entry>, c: Cursor, n: nat)
    requires SectionOk(HircSection(es)) && Fits(c.buf, c.pos, SectionP(HircSection(es)))
    requires n == 4 + |FramesP(es)|
    ensures SectionSpec(c) == Ok(Read(Table(es), Cursor(c.buf, c.pos + 8 + n)))
  {
    HircHeader(es, c, n);
    HircBodyCount(es, c.buf, c.pos + 8, n);
    FramesComplete(es, Cursor(c.buf[c.pos + 8..c.pos + 8 + n], 4));
    HircChain(c, n, |es|, Table(es), Cursor(c.buf[c.pos + 8..c.pos + 8 + n], 4 + |FramesP(es)|));
  }

  /** Any other section is skipped whole and holds nothing. */
  lemma OtherComplete(tag: seq<byte>, size: u32, c: Cursor)
    requires SectionOk(OtherSection(tag, size)) && Fits(c.buf, c.pos, SectionP(OtherSection(tag, size)))
    ensures SectionSpec(c) == Ok(Read([], Cursor(c.buf, c.pos + 8 + size as int)))
  {
    SectionPieces(tag, size, Pad(size as nat), c);
    SkipFits(Cursor(c.buf, c.pos + 8), size as nat);
    OtherChain(c, tag, size);
  }

  /** A section reads back as what it holds, and the cursor moves past it. */
  lemma SectionComplete(s: Section, c: Cursor)
    requires SectionOk(s) && Fits(c.buf, c.pos, SectionP(s))
    ensures SectionSpec(c) == Ok(Read(Contents(s), Cursor(c.buf, c.pos + |SectionP(s)|)))
  {
    match s
    case HircSection(es) => HircComplete(es, c, 4 + |FramesP(es)|);
    case OtherSection(tag, size) => OtherComplete(tag, size, c);
  }

  lemma BankSplit(ss: seq<Section>, c: Cursor)
    requires SectionsOk(ss) && |ss| > 0 && Fits(c.buf, c.pos, BankP(ss))
    ensures SectionOk(ss[0]) && SectionsOk(ss[1..])
    ensures Fits(c.buf, c.pos, SectionP(ss[0]))
    ensures Fits(c.buf, c.pos + |SectionP(ss[0])|, BankP(ss[1..]))
    ensures |BankP(ss)| == |SectionP(ss[0])| + |BankP(ss[1..])|
    ensures Found(ss) == Contents(ss[0]) + Found(ss[1..])
  {
    assert SectionOk(ss[0]);
    FitsAppend(c.buf, c.pos, SectionP(ss[0]), BankP(ss[1..]));
  }

  /** Scanning a bank laid out from sections finds exactly the objects their
      `HIRC` sections hold, in order. */
  lemma {:induction false} ScanComplete(ss: seq<Section>, c: Cursor)
    requires SectionsOk(ss) && Fits(c.buf, c.pos, BankP(ss)) && c.pos + |BankP(ss)| == |c.buf|
    ensures ScanSpec(c) == Ok(Found(ss))
    decreases |ss|
  {
    if |ss| > 0 {
      BankSplit(ss, c);
      SectionComplete(ss[0], c);
      var next := Cursor(c.buf, c.pos + |SectionP(ss[0])|);
      ScanComplete(ss[1..], next);
      ScanUnfold(c, Contents(ss[0]), next);
    }
  }
}
