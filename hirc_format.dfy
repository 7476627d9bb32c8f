/** The HIRC record decoder against the byte layouts of Hirc: whatever it
    decodes is well formed and its layout fits the bytes it consumed
    (soundness), and every well-formed object is decoded back from any bytes
    its layout fits (completeness), consuming exactly the layout's length. */
module HircFormat {
  import opened Wrappers
  import opened Bytes
  import opened ByteCursor
  import opened Hirc
  import opened HircDecode

  // ---------------------------------------------------------------------
  // Patterns and single reads.

  lemma FitsAppend(buf: seq<byte>, pos: nat, a: Pattern, b: Pattern)
    ensures Fits(buf, pos, a + b) <==> Fits(buf, pos, a) && Fits(buf, pos + |a|, b)
  {
    if Fits(buf, pos, a) && Fits(buf, pos + |a|, b) {
      forall i | 0 <= i < |a + b| && (a + b)[i].Some? ensures buf[pos + i] == (a + b)[i].value {
        if i >= |a| {
          assert (a + b)[i] == b[i - |a|];
        }
      }
    }
    if Fits(buf, pos, a + b) {
      forall i | 0 <= i < |b| && b[i].Some? ensures buf[pos + |a| + i] == b[i].value {
        assert (a + b)[|a| + i] == b[i];
      }
      forall i | 0 <= i < |a| && a[i].Some? ensures buf[pos + i] == a[i].value {
        assert (a + b)[i] == a[i];
      }
    }
  }

  lemma FitsBytes(buf: seq<byte>, pos: nat, bs: seq<byte>)
    ensures Fits(buf, pos, BytesP(bs)) <==> pos + |bs| <= |buf| && buf[pos..pos + |bs|] == bs
  {
    if pos + |bs| <= |buf| {
      var w := buf[pos..pos + |bs|];
      if Fits(buf, pos, BytesP(bs)) {
        forall i | 0 <= i < |bs| ensures w[i] == bs[i] {
          assert BytesP(bs)[i] == Some(bs[i]);
        }
      }
      if w == bs {
        forall i | 0 <= i < |bs| ensures buf[pos + i] == BytesP(bs)[i].value {
          assert w[i] == buf[pos + i];
        }
      }
    }
  }

  lemma U8Bytes(b: byte)
    ensures U8P(b) == BytesP([b])
  {
  }

  lemma U16Bytes(v: u16)
    ensures U16P(v) == BytesP(U16Le(v))
  {
  }

  lemma U32Bytes(v: u32)
    ensures U32P(v) == BytesP(U32Le(v))
  {
  }

  /** What a successful read implies about the bytes, and what the bytes imply
      about the read: one pair per field kind. */
  lemma ReadU8Ok(c: Cursor)
    requires c.ReadU8().Ok?
    ensures Fits(c.buf, c.pos, U8P(c.ReadU8().value.value)) && c.ReadU8().value.rest == Cursor(c.buf, c.pos + 1)
  {
    var b := c.buf[c.pos];
    U8Bytes(b);
    FitsBytes(c.buf, c.pos, [b]);
  }

  lemma ReadU8Fits(c: Cursor, b: byte, next: Cursor)
    requires Fits(c.buf, c.pos, U8P(b)) && next == Cursor(c.buf, c.pos + 1)
    ensures c.ReadU8() == Ok(Read(b, next))
  {
    U8Bytes(b);
    FitsBytes(c.buf, c.pos, [b]);
    assert c.buf[c.pos] == c.buf[c.pos..c.pos + 1][0];
  }

  lemma ReadU16Ok(c: Cursor)
    requires c.ReadU16().Ok?
    ensures Fits(c.buf, c.pos, U16P(c.ReadU16().value.value)) && c.ReadU16().value.rest == Cursor(c.buf, c.pos + 2)
  {
    var v := U16At(c.buf, c.pos);
    U16Bytes(v);
    assert v % 0x100 == c.buf[c.pos] && v / 0x100 == c.buf[c.pos + 1];
    assert c.buf[c.pos..c.pos + 2] == U16Le(v);
    FitsBytes(c.buf, c.pos, U16Le(v));
  }

  lemma ReadU16Fits(c: Cursor, v: u16, next: Cursor)
    requires Fits(c.buf, c.pos, U16P(v)) && next == Cursor(c.buf, c.pos + 2)
    ensures c.ReadU16() == Ok(Read(v, next))
  {
    U16Bytes(v);
    FitsBytes(c.buf, c.pos, U16Le(v));
    U16RoundTrip(c.buf, c.pos, v);
  }

  lemma ReadU32Ok(c: Cursor)
    requires c.ReadU32().Ok?
    ensures Fits(c.buf, c.pos, U32P(c.ReadU32().value.value)) && c.ReadU32().value.rest == Cursor(c.buf, c.pos + 4)
  {
    var v := U32At(c.buf, c.pos);
    U32Bytes(v);
    U32Canonical(c.buf, c.pos);
    FitsBytes(c.buf, c.pos, U32Le(v));
  }

  /** ReadU8Ok for a read whose result is already named. */
  lemma ReadU8Back(c: Cursor, v: byte, next: Cursor)
    requires c.ReadU8() == Ok(Read(v, next))
    ensures Fits(c.buf, c.pos, U8P(v)) && next == Cursor(c.buf, c.pos + 1)
  {
    ReadU8Ok(c);
  }

  /** ReadU32Ok for a read whose result is already named. */
  lemma ReadU32Back(c: Cursor, v: u32, next: Cursor)
    requires c.ReadU32() == Ok(Read(v, next))
    ensures Fits(c.buf, c.pos, U32P(v)) && next == Cursor(c.buf, c.pos + 4)
  {
    ReadU32Ok(c);
  }

  lemma ReadU32Fits(c: Cursor, v: u32, next: Cursor)
    requires Fits(c.buf, c.pos, U32P(v)) && next == Cursor(c.buf, c.pos + 4)
    ensures c.ReadU32() == Ok(Read(v, next))
  {
    U32Bytes(v);
    FitsBytes(c.buf, c.pos, U32Le(v));
    U32RoundTrip(c.buf, c.pos, v);
  }

  lemma PadFits(buf: seq<byte>, p: nat, n: nat)
    requires p + n <= |buf|
    ensures Fits(buf, p, Pad(n))
  {
  }

  lemma SkipFits(c: Cursor, n: nat)
    ensures c.Skip(n) == Ok(Cursor(c.buf, c.pos + n)) <==> Fits(c.buf, c.pos, Pad(n))
  {
  }

  lemma ReadBytesFits(c: Cursor, bs: seq<byte>)
    ensures c.ReadBytes(|bs|) == Ok(Read(bs, Cursor(c.buf, c.pos + |bs|))) <==> Fits(c.buf, c.pos, BytesP(bs))
  {
    FitsBytes(c.buf, c.pos, bs);
  }

  lemma {:induction false} FitsU32s(buf: seq<byte>, pos: nat, ws: seq<u32>)
    ensures Fits(buf, pos, U32sP(ws)) <==> pos + 4 * |ws| <= |buf| && U32sAt(buf, pos, |ws|) == ws
    decreases ws
  {
    if ws != [] {
      FitsAppend(buf, pos, U32P(ws[0]), U32sP(ws[1..]));
      FitsU32s(buf, pos + 4, ws[1..]);
      U32Fits(buf, pos, ws[0]);
      if pos + 4 * |ws| <= |buf| {
        U32sAtCons(buf, pos, ws);
      }
    }
  }

  /** One u32 pattern fits exactly where its value is stored. */
  lemma U32Fits(buf: seq<byte>, pos: nat, w: u32)
    ensures Fits(buf, pos, U32P(w)) <==> pos + 4 <= |buf| && U32At(buf, pos) == w
  {
    var c := Cursor(buf, pos);
    if Fits(buf, pos, U32P(w)) {
      ReadU32Fits(c, w, Cursor(buf, pos + 4));
    }
    if pos + 4 <= |buf| && U32At(buf, pos) == w {
      ReadU32Ok(c);
    }
  }

  lemma U32sAtCons(buf: seq<byte>, pos: nat, ws: seq<u32>)
    requires ws != [] && pos + 4 * |ws| <= |buf|
    ensures U32sAt(buf, pos, |ws|) == ws <==> U32At(buf, pos) == ws[0] && U32sAt(buf, pos + 4, |ws| - 1) == ws[1..]
  {
    var got := U32sAt(buf, pos, |ws|);
    assert got[1..] == U32sAt(buf, pos + 4, |ws| - 1);
    assert got == ws <==> got[0] == ws[0] && got[1..] == ws[1..];
  }

  /** The unfolding of `ReadU32s`, kept apart so that it is not done in the
      presence of a recursive pattern. */
  lemma ReadU32sAt(c: Cursor, n: nat)
    requires c.pos + 4 * n <= |c.buf|
    ensures c.ReadU32s(n) == Ok(Read(U32sAt(c.buf, c.pos, n), Cursor(c.buf, c.pos + 4 * n)))
  {
  }

  lemma ReadU32sDecoded(c: Cursor, ws: seq<u32>)
    requires c.pos + 4 * |ws| <= |c.buf| && U32sAt(c.buf, c.pos, |ws|) == ws
    ensures c.ReadU32s(|ws|) == Ok(Read(ws, Cursor(c.buf, c.pos + 4 * |ws|)))
  {
  }

  lemma ReadU32sOk(c: Cursor, n: int)
    requires c.ReadU32s(n).Ok?
    ensures var r := c.ReadU32s(n).value;
      Fits(c.buf, c.pos, U32sP(r.value)) && |r.value| == n && r.rest == Cursor(c.buf, c.pos + 4 * n)
  {
    ReadU32sAt(c, n);
    FitsU32s(c.buf, c.pos, U32sAt(c.buf, c.pos, n));
  }

  lemma ReadU32sFits(c: Cursor, ws: seq<u32>)
    requires Fits(c.buf, c.pos, U32sP(ws))
    ensures c.ReadU32s(|ws|) == Ok(Read(ws, Cursor(c.buf, c.pos + 4 * |ws|)))
  {
    FitsU32s(c.buf, c.pos, ws);
    ReadU32sDecoded(c, ws);
  }

  // ---------------------------------------------------------------------
  // Sound

  lemma FileOk(embedType: byte, c: Cursor)
    requires c.pos <= |c.buf| && FileSpec(embedType, c).Ok?
    ensures var r := FileSpec(embedType, c).value;
      && (r.value.Some? <==> embedType == 0)
      && Fits(c.buf, c.pos, FileP(r.value)) && r.rest == Cursor(c.buf, c.pos + |FileP(r.value)|)
  {
    if embedType == 0 {
      var i := c.ReadU32().value;
      ReadU32Ok(c);
      ReadU32Ok(i.rest);
      var l := i.rest.ReadU32().value;
      assert i.rest == Cursor(c.buf, c.pos + 4);
      FitsAppend(c.buf, c.pos, U32P(i.value), U32P(l.value));
      assert FileSpec(embedType, c).value == Read(Some(FileRef(i.value, l.value)), l.rest);
    }
  }

  lemma FileFits(embedType: byte, f: Option<FileRef>, c: Cursor, end: Cursor)
    requires (f.Some? <==> embedType == 0) && Fits(c.buf, c.pos, FileP(f))
    requires end == Cursor(c.buf, c.pos + |FileP(f)|)
    ensures FileSpec(embedType, c) == Ok(Read(f, end))
  {
    if f.Some? {
      FitsAppend(c.buf, c.pos, U32P(f.value.fileIndex), U32P(f.value.fileLength));
      ReadU32Fits(c, f.value.fileIndex, Cursor(c.buf, c.pos + 4));
      ReadU32Fits(Cursor(c.buf, c.pos + 4), f.value.fileLength, Cursor(c.buf, c.pos + 8));
    }
  }

  lemma SoundSound(id: u32, c: Cursor)
    requires SoundSpec(id, c).Ok?
    ensures var r := SoundSpec(id, c).value;
      && r.value.Sound? && r.value.id == id && WellFormed(r.value)
      && Fits(c.buf, c.pos, Layout(r.value)) && r.rest == Cursor(c.buf, c.pos + |Layout(r.value)|)
  {
    var e, a, s, f, st, cf, end := SoundUnchain(id, c);
    SoundReadFits(e, a, s, f, st, c.buf, c.pos, cf, end);
    SoundJoin(Sound(id, e, a, s, f, st), c.buf, c.pos);
  }

  /** What a successful sound read says about each of its fields. */
  lemma SoundUnchain(id: u32, c: Cursor)
    returns (e: byte, a: u32, s: u32, f: Option<FileRef>, st: u32, cf: Cursor, end: Cursor)
    requires SoundSpec(id, c).Ok?
    ensures var buf, p := c.buf, c.pos;
      && p + 4 <= |buf|
      && Cursor(buf, p + 4).ReadU8() == Ok(Read(e, Cursor(buf, p + 5)))
      && Cursor(buf, p + 5).ReadU32() == Ok(Read(a, Cursor(buf, p + 9)))
      && Cursor(buf, p + 9).ReadU32() == Ok(Read(s, Cursor(buf, p + 13)))
      && FileSpec(e, Cursor(buf, p + 13)) == Ok(Read(f, cf))
      && cf.ReadU32() == Ok(Read(st, end))
      && SoundSpec(id, c).value == Read(Sound(id, e, a, s, f, st), end)
  {
    var buf, p := c.buf, c.pos;
    e := Cursor(buf, p + 4).ReadU8().value.value;
    a := Cursor(buf, p + 5).ReadU32().value.value;
    s := Cursor(buf, p + 9).ReadU32().value.value;
    var fr := FileSpec(e, Cursor(buf, p + 13)).value;
    f, cf := fr.value, fr.rest;
    var sr := cf.ReadU32().value;
    st, end := sr.value, sr.rest;
  }

  /** The fields a sound read went through fit the bytes at their offsets. */
  lemma SoundReadFits(e: byte, a: u32, s: u32, f: Option<FileRef>, st: u32, buf: seq<byte>, p: nat,
                      cf: Cursor, end: Cursor)
    requires p + 4 <= |buf|
    requires Cursor(buf, p + 4).ReadU8() == Ok(Read(e, Cursor(buf, p + 5)))
    requires Cursor(buf, p + 5).ReadU32() == Ok(Read(a, Cursor(buf, p + 9)))
    requires Cursor(buf, p + 9).ReadU32() == Ok(Read(s, Cursor(buf, p + 13)))
    requires FileSpec(e, Cursor(buf, p + 13)) == Ok(Read(f, cf))
    requires cf.ReadU32() == Ok(Read(st, end))
    ensures SoundFields(e, a, s, f, st, buf, p) && (f.Some? <==> e == 0)
    ensures end == Cursor(buf, p + 17 + |FileP(f)|)
  {
    ReadU8Back(Cursor(buf, p + 4), e, Cursor(buf, p + 5));
    ReadU32Back(Cursor(buf, p + 5), a, Cursor(buf, p + 9));
    ReadU32Back(Cursor(buf, p + 9), s, Cursor(buf, p + 13));
    FileOk(e, Cursor(buf, p + 13));
    ReadU32Back(cf, st, end);
    PadFits(buf, p, 4);
  }

  /** The six fields of a sound, each fitting the bytes at its offset. */
  predicate SoundFields(e: byte, a: u32, s: u32, file: Option<FileRef>, st: u32, buf: seq<byte>, p: nat)
  {
    && Fits(buf, p, Pad(4)) && Fits(buf, p + 4, U8P(e)) && Fits(buf, p + 5, U32P(a))
    && Fits(buf, p + 9, U32P(s)) && Fits(buf, p + 13, FileP(file))
    && Fits(buf, p + 13 + |FileP(file)|, U32P(st))
  }

  /** The pieces of a sound layout, each at its own offset. */
  lemma SoundPieces(o: HircObject, c: Cursor)
    requires o.Sound? && WellFormed(o) && Fits(c.buf, c.pos, Layout(o))
    ensures SoundFields(o.embedType, o.audioID, o.sourceID, o.file, o.soundType, c.buf, c.pos) && |Layout(o)| == 17 + |FileP(o.file)|
  {
    var buf, p := c.buf, c.pos;
    var P1 := Pad(4) + U8P(o.embedType);
    var P2 := P1 + U32P(o.audioID);
    var P3 := P2 + U32P(o.sourceID);
    var P4 := P3 + FileP(o.file);
    FitsAppend(buf, p, P4, U32P(o.soundType));
    FitsAppend(buf, p, P3, FileP(o.file));
    FitsAppend(buf, p, P2, U32P(o.sourceID));
    FitsAppend(buf, p, P1, U32P(o.audioID));
    FitsAppend(buf, p, Pad(4), U8P(o.embedType));
  }

  /** The converse: the pieces, each at its own offset, make up the layout. */
  lemma SoundJoin(o: HircObject, buf: seq<byte>, p: nat)
    requires o.Sound? && (o.file.Some? <==> o.embedType == 0) && SoundFields(o.embedType, o.audioID, o.sourceID, o.file, o.soundType, buf, p)
    ensures Fits(buf, p, Layout(o)) && |Layout(o)| == 17 + |FileP(o.file)|
  {
    var P1 := Pad(4) + U8P(o.embedType);
    var P2 := P1 + U32P(o.audioID);
    var P3 := P2 + U32P(o.sourceID);
    var P4 := P3 + FileP(o.file);
    FitsAppend(buf, p, Pad(4), U8P(o.embedType));
    FitsAppend(buf, p, P1, U32P(o.audioID));
    FitsAppend(buf, p, P2, U32P(o.sourceID));
    FitsAppend(buf, p, P3, FileP(o.file));
    FitsAppend(buf, p, P4, U32P(o.soundType));
  }

  /** Reading the pieces of a sound back, field by field. */
  lemma SoundRead(o: HircObject, c: Cursor, end: Cursor)
    requires o.Sound? && (o.file.Some? <==> o.embedType == 0) && SoundFields(o.embedType, o.audioID, o.sourceID, o.file, o.soundType, c.buf, c.pos)
    requires end == Cursor(c.buf, c.pos + 17 + |FileP(o.file)|)
    ensures SoundSpec(o.id, c) == Ok(Read(o, end))
  {
    var buf, p := c.buf, c.pos;
    var c4, c5, c9, c13 := Cursor(buf, p + 4), Cursor(buf, p + 5), Cursor(buf, p + 9), Cursor(buf, p + 13);
    var cf := Cursor(buf, p + 13 + |FileP(o.file)|);
    ReadU8Fits(c4, o.embedType, c5);
    ReadU32Fits(c5, o.audioID, c9);
    ReadU32Fits(c9, o.sourceID, c13);
    FileFits(o.embedType, o.file, c13, cf);
    ReadU32Fits(cf, o.soundType, end);
    SoundChain(o.id, o.embedType, o.audioID, o.sourceID, o.file, o.soundType, c, c4, c5, c9, c13, cf, end);
  }

  /** The sound reads, chained. */
  lemma SoundChain(id: u32, embedType: byte, audioID: u32, sourceID: u32, file: Option<FileRef>, soundType: u32,
                   c: Cursor, c4: Cursor, c5: Cursor, c9: Cursor, c13: Cursor, cf: Cursor, end: Cursor)
    requires c4 == Cursor(c.buf, c.pos + 4) && c4.pos <= |c.buf|
    requires c4.ReadU8() == Ok(Read(embedType, c5)) && c5.ReadU32() == Ok(Read(audioID, c9))
    requires c9.ReadU32() == Ok(Read(sourceID, c13)) && FileSpec(embedType, c13) == Ok(Read(file, cf))
    requires cf.ReadU32() == Ok(Read(soundType, end))
    ensures SoundSpec(id, c) == Ok(Read(Sound(id, embedType, audioID, sourceID, file, soundType), end))
  {
  }

  lemma SoundComplete(o: HircObject, c: Cursor)
    requires o.Sound? && WellFormed(o) && Fits(c.buf, c.pos, Layout(o))
    ensures SoundSpec(o.id, c) == Ok(Read(o, Cursor(c.buf, c.pos + |Layout(o)|)))
  {
    SoundPieces(o, c);
    SoundRead(o, c, Cursor(c.buf, c.pos + |Layout(o)|));
  }

  /** A sound record body is 17 bytes, or 25 when the sound is embedded. */
  lemma SoundLength(o: HircObject)
    requires o.Sound? && WellFormed(o)
    ensures |Layout(o)| == if o.embedType == 0 then 25 else 17
  {
  }

  // ---------------------------------------------------------------------
  // Event action

  lemma {:induction false} ActionParamsOk(c: Cursor, n: nat)
    requires c.pos <= |c.buf| && ActionParamsSpec(c, n).Ok?
    ensures var r := ActionParamsSpec(c, n).value;
      && |r.value| == n
      && Fits(c.buf, c.pos, ActionParamsP(r.value)) && r.rest == Cursor(c.buf, c.pos + 5 * n)
    decreases n
  {
    if n > 0 {
      var t := c.ReadU8().value;
      var v := t.rest.ReadU32().value;
      var p := ActionParam(t.value, v.value);
      assert Fits(c.buf, c.pos, U8P(p.tag)) && Fits(c.buf, c.pos + 1, U32P(p.value)) && v.rest == Cursor(c.buf, c.pos + 5) by {
        ReadU8Ok(c);
        ReadU32Ok(t.rest);
      }
      var tail := ActionParamsSpec(v.rest, n - 1).value;
      ActionParamsOk(v.rest, n - 1);
      assert ActionParamsSpec(c, n).value == Read([p] + tail.value, tail.rest);
      ActionParamsJoin(p, tail.value, c.buf, c.pos);
    }
  }

  /** One parameter's pattern, then the rest. */
  lemma ActionParamsJoin(p: ActionParam, ps: seq<ActionParam>, buf: seq<byte>, pos: nat)
    requires Fits(buf, pos, U8P(p.tag)) && Fits(buf, pos + 1, U32P(p.value))
    requires Fits(buf, pos + 5, ActionParamsP(ps))
    ensures Fits(buf, pos, ActionParamsP([p] + ps))
  {
    assert ([p] + ps)[0] == p && ([p] + ps)[1..] == ps;
    FitsAppend(buf, pos, U8P(p.tag), U32P(p.value));
    FitsAppend(buf, pos, U8P(p.tag) + U32P(p.value), ActionParamsP(ps));
  }

  lemma {:induction false} ActionParamsFits(ps: seq<ActionParam>, c: Cursor, end: Cursor)
    requires Fits(c.buf, c.pos, ActionParamsP(ps)) && end == Cursor(c.buf, c.pos + 5 * |ps|)
    ensures ActionParamsSpec(c, |ps|) == Ok(Read(ps, end))
    decreases ps
  {
    if ps != [] {
      var p := ps[0];
      FitsAppend(c.buf, c.pos, U8P(p.tag) + U32P(p.value), ActionParamsP(ps[1..]));
      FitsAppend(c.buf, c.pos, U8P(p.tag), U32P(p.value));
      ReadU8Fits(c, p.tag, Cursor(c.buf, c.pos + 1));
      ReadU32Fits(Cursor(c.buf, c.pos + 1), p.value, Cursor(c.buf, c.pos + 5));
      ActionParamsFits(ps[1..], Cursor(c.buf, c.pos + 5), end);
      assert [p] + ps[1..] == ps;
    }
  }

  lemma GroupOk(actionType: byte, c: Cursor)
    requires c.pos <= |c.buf| && GroupSpec(actionType, c).Ok?
    ensures var r := GroupSpec(actionType, c).value;
      && (r.value.Some? <==> HasGroup(actionType))
      && Fits(c.buf, c.pos, GroupP(r.value)) && r.rest == Cursor(c.buf, c.pos + |GroupP(r.value)|)
  {
    if HasGroup(actionType) {
      var c1 := Cursor(c.buf, c.pos + 1);
      var g := c1.ReadU32().value;
      ReadU32Ok(c1);
      var k := g.rest.ReadU32().value;
      ReadU32Ok(g.rest);
      assert GroupSpec(actionType, c).value == Read(Some(GroupCondition(g.value, k.value)), k.rest);
      FitsAppend(c.buf, c.pos, Pad(1), U32P(g.value));
      FitsAppend(c.buf, c.pos, Pad(1) + U32P(g.value), U32P(k.value));
    }
  }

  lemma GroupFits(actionType: byte, g: Option<GroupCondition>, c: Cursor, end: Cursor)
    requires (g.Some? <==> HasGroup(actionType)) && Fits(c.buf, c.pos, GroupP(g))
    requires end == Cursor(c.buf, c.pos + |GroupP(g)|)
    ensures GroupSpec(actionType, c) == Ok(Read(g, end))
  {
    if g.Some? {
      FitsAppend(c.buf, c.pos, Pad(1) + U32P(g.value.idGroup), U32P(g.value.idCondition));
      FitsAppend(c.buf, c.pos, Pad(1), U32P(g.value.idGroup));
      ReadU32Fits(Cursor(c.buf, c.pos + 1), g.value.idGroup, Cursor(c.buf, c.pos + 5));
      ReadU32Fits(Cursor(c.buf, c.pos + 5), g.value.idCondition, Cursor(c.buf, c.pos + 9));
    }
  }

  lemma EventActionSound(id: u32, c: Cursor)
    requires EventActionSpec(id, c).Ok?
    ensures var r := EventActionSpec(id, c).value;
      && r.value.EventAction? && r.value.id == id && WellFormed(r.value)
      && Fits(c.buf, c.pos, Layout(r.value)) && r.rest == Cursor(c.buf, c.pos + |Layout(r.value)|)
  {
    var scope, at, target, n, ps, g, c9, end := EventActionUnchain(id, c);
    EventActionReadFits(scope, at, target, n, ps, g, c.buf, c.pos, c9, end);
    EventActionJoin(EventAction(id, scope, at, target, ps, g), c.buf, c.pos);
  }

  /** What a successful event action read says about each of its fields. */
  lemma EventActionUnchain(id: u32, c: Cursor)
    returns (scope: byte, at: byte, target: u32, n: byte, ps: seq<ActionParam>, g: Option<GroupCondition>,
             c9: Cursor, end: Cursor)
    requires EventActionSpec(id, c).Ok?
    ensures var buf, p := c.buf, c.pos;
      && Cursor(buf, p).ReadU8() == Ok(Read(scope, Cursor(buf, p + 1)))
      && Cursor(buf, p + 1).ReadU8() == Ok(Read(at, Cursor(buf, p + 2)))
      && Cursor(buf, p + 2).ReadU32() == Ok(Read(target, Cursor(buf, p + 6)))
      && Cursor(buf, p + 7).ReadU8() == Ok(Read(n, Cursor(buf, p + 8)))
      && ActionParamsSpec(Cursor(buf, p + 8), n) == Ok(Read(ps, c9))
      && GroupSpec(at, c9) == Ok(Read(g, end))
      && EventActionSpec(id, c).value == Read(EventAction(id, scope, at, target, ps, g), end)
  {
    var buf, p := c.buf, c.pos;
    scope := c.ReadU8().value.value;
    at := Cursor(buf, p + 1).ReadU8().value.value;
    target := Cursor(buf, p + 2).ReadU32().value.value;
    n := Cursor(buf, p + 7).ReadU8().value.value;
    var pr := ActionParamsSpec(Cursor(buf, p + 8), n).value;
    ps, c9 := pr.value, pr.rest;
    var gr := GroupSpec(at, c9).value;
    g, end := gr.value, gr.rest;
  }

  /** The fields an event action read went through fit the bytes at their offsets. */
  lemma EventActionReadFits(scope: byte, at: byte, target: u32, n: byte, ps: seq<ActionParam>,
                            g: Option<GroupCondition>, buf: seq<byte>, p: nat, c9: Cursor, end: Cursor)
    requires Cursor(buf, p).ReadU8() == Ok(Read(scope, Cursor(buf, p + 1)))
    requires Cursor(buf, p + 1).ReadU8() == Ok(Read(at, Cursor(buf, p + 2)))
    requires Cursor(buf, p + 2).ReadU32() == Ok(Read(target, Cursor(buf, p + 6)))
    requires Cursor(buf, p + 7).ReadU8() == Ok(Read(n, Cursor(buf, p + 8)))
    requires ActionParamsSpec(Cursor(buf, p + 8), n) == Ok(Read(ps, c9))
    requires GroupSpec(at, c9) == Ok(Read(g, end))
    ensures |ps| == n && (g.Some? <==> HasGroup(at)) && EventActionFields(scope, at, target, ps, g, buf, p)
    ensures end == Cursor(buf, p + 8 + 5 * |ps| + |GroupP(g)|)
  {
    ReadU8Back(Cursor(buf, p), scope, Cursor(buf, p + 1));
    ReadU8Back(Cursor(buf, p + 1), at, Cursor(buf, p + 2));
    ReadU32Back(Cursor(buf, p + 2), target, Cursor(buf, p + 6));
    ReadU8Back(Cursor(buf, p + 7), n, Cursor(buf, p + 8));
    ActionParamsOk(Cursor(buf, p + 8), n);
    GroupOk(at, c9);
  }

  /** The converse of EventActionPieces: the fields make up the layout. */
  lemma EventActionJoin(o: HircObject, buf: seq<byte>, p: nat)
    requires o.EventAction? && |o.actionParams| < 0x100 && (o.group.Some? <==> HasGroup(o.actionType))
    requires EventActionFields(o.scope, o.actionType, o.idObject, o.actionParams, o.group, buf, p)
    ensures Fits(buf, p, Layout(o)) && |Layout(o)| == 8 + 5 * |o.actionParams| + |GroupP(o.group)|
  {
    var ps := o.actionParams;
    var P1 := U8P(o.scope) + U8P(o.actionType);
    var P2 := P1 + U32P(o.idObject);
    var P3 := P2 + Pad(1);
    var P4 := P3 + U8P(|ps|);
    var P5 := P4 + ActionParamsP(ps);
    PadFits(buf, p + 6, 1);
    FitsAppend(buf, p, U8P(o.scope), U8P(o.actionType));
    FitsAppend(buf, p, P1, U32P(o.idObject));
    FitsAppend(buf, p, P2, Pad(1));
    FitsAppend(buf, p, P3, U8P(|ps|));
    FitsAppend(buf, p, P4, ActionParamsP(ps));
    FitsAppend(buf, p, P5, GroupP(o.group));
  }

  /** The pieces of an event action layout, each at its own offset. */
  /** The six fields of an event action, each fitting the bytes at its offset. */
  predicate EventActionFields(scope: byte, at: byte, target: u32, ps: seq<ActionParam>,
                              group: Option<GroupCondition>, buf: seq<byte>, p: nat)
    requires |ps| < 0x100
  {
    && Fits(buf, p, U8P(scope)) && Fits(buf, p + 1, U8P(at))
    && Fits(buf, p + 2, U32P(target)) && Fits(buf, p + 7, U8P(|ps|))
    && Fits(buf, p + 8, ActionParamsP(ps)) && Fits(buf, p + 8 + 5 * |ps|, GroupP(group))
  }

  lemma EventActionPieces(o: HircObject, c: Cursor)
    requires o.EventAction? && WellFormed(o) && Fits(c.buf, c.pos, Layout(o))
    ensures EventActionFields(o.scope, o.actionType, o.idObject, o.actionParams, o.group, c.buf, c.pos)
    ensures |Layout(o)| == 8 + 5 * |o.actionParams| + |GroupP(o.group)|
  {
    var buf, p := c.buf, c.pos;
    var ps := o.actionParams;
    var P1 := U8P(o.scope) + U8P(o.actionType);
    var P2 := P1 + U32P(o.idObject);
    var P3 := P2 + Pad(1);
    var P4 := P3 + U8P(|ps|);
    var P5 := P4 + ActionParamsP(ps);
    FitsAppend(buf, p, P5, GroupP(o.group));
    FitsAppend(buf, p, P4, ActionParamsP(ps));
    FitsAppend(buf, p, P3, U8P(|ps|));
    FitsAppend(buf, p, P2, Pad(1));
    FitsAppend(buf, p, P1, U32P(o.idObject));
    FitsAppend(buf, p, U8P(o.scope), U8P(o.actionType));
  }

  /** Reading the pieces of an event action back, field by field. */
  lemma EventActionRead(id: u32, scope: byte, at: byte, target: u32, ps: seq<ActionParam>,
                        group: Option<GroupCondition>, c: Cursor, end: Cursor)
    requires |ps| < 0x100 && (group.Some? <==> HasGroup(at))
    requires EventActionFields(scope, at, target, ps, group, c.buf, c.pos)
    requires end == Cursor(c.buf, c.pos + 8 + 5 * |ps| + |GroupP(group)|)
    ensures EventActionSpec(id, c) == Ok(Read(EventAction(id, scope, at, target, ps, group), end))
  {
    var buf, p := c.buf, c.pos;
    var c1, c2, c6 := Cursor(buf, p + 1), Cursor(buf, p + 2), Cursor(buf, p + 6);
    var c7, c8, c9 := Cursor(buf, p + 7), Cursor(buf, p + 8), Cursor(buf, p + 8 + 5 * |ps|);
    EventActionHeadRead(scope, at, target, |ps|, c, c1, c2, c6, c7, c8);
    assert ActionParamsSpec(c8, |ps|) == Ok(Read(ps, c9)) by {
      ActionParamsFits(ps, c8, c9);
    }
    assert GroupSpec(at, c9) == Ok(Read(group, end)) by {
      GroupFits(at, group, c9, end);
    }
    EventActionChain(id, scope, at, target, ps, group, c, c1, c2, c6, c7, c8, c9, end);
  }

  lemma EventActionHeadRead(scope: byte, at: byte, target: u32, count: byte,
                            c: Cursor, c1: Cursor, c2: Cursor, c6: Cursor, c7: Cursor, c8: Cursor)
    requires Fits(c.buf, c.pos, U8P(scope)) && Fits(c.buf, c.pos + 1, U8P(at))
    requires Fits(c.buf, c.pos + 2, U32P(target)) && Fits(c.buf, c.pos + 7, U8P(count))
    requires c1 == Cursor(c.buf, c.pos + 1) && c2 == Cursor(c.buf, c.pos + 2) && c6 == Cursor(c.buf, c.pos + 6)
    requires c7 == Cursor(c.buf, c.pos + 7) && c8 == Cursor(c.buf, c.pos + 8)
    ensures c.ReadU8() == Ok(Read(scope, c1)) && c1.ReadU8() == Ok(Read(at, c2))
    ensures c2.ReadU32() == Ok(Read(target, c6)) && c6.Skip(1) == Ok(c7)
    ensures c7.ReadU8() == Ok(Read(count, c8))
  {
    ReadU8Fits(c, scope, c1);
    ReadU8Fits(c1, at, c2);
    ReadU32Fits(c2, target, c6);
    ReadU8Fits(c7, count, c8);
  }

  /** The event action reads, chained. */
  lemma EventActionChain(id: u32, scope: byte, at: byte, target: u32, ps: seq<ActionParam>,
                         group: Option<GroupCondition>, c: Cursor,
                         c1: Cursor, c2: Cursor, c6: Cursor, c7: Cursor, c8: Cursor, c9: Cursor, end: Cursor)
    requires |ps| < 0x100
    requires c.ReadU8() == Ok(Read(scope, c1)) && c1.ReadU8() == Ok(Read(at, c2))
    requires c2.ReadU32() == Ok(Read(target, c6)) && c6.Skip(1) == Ok(c7)
    requires c7.ReadU8() == Ok(Read(|ps| as byte, c8))
    requires ActionParamsSpec(c8, |ps|) == Ok(Read(ps, c9)) && GroupSpec(at, c9) == Ok(Read(group, end))
    ensures EventActionSpec(id, c) == Ok(Read(EventAction(id, scope, at, target, ps, group), end))
  {
  }

  lemma EventActionComplete(o: HircObject, c: Cursor)
    requires o.EventAction? && WellFormed(o) && Fits(c.buf, c.pos, Layout(o))
    ensures EventActionSpec(o.id, c) == Ok(Read(o, Cursor(c.buf, c.pos + |Layout(o)|)))
  {
    EventActionPieces(o, c);
    EventActionRead(o.id, o.scope, o.actionType, o.idObject, o.actionParams, o.group, c,
                    Cursor(c.buf, c.pos + |Layout(o)|));
  }

  /** An event action body is 8 bytes, 5 per parameter, and 9 more for a
      group condition. */
  lemma EventActionLength(o: HircObject)
    requires o.EventAction? && WellFormed(o)
    ensures |Layout(o)| == 8 + 5 * |o.actionParams| + if HasGroup(o.actionType) then 9 else 0
  {
  }

  // ---------------------------------------------------------------------
  // Event

  lemma EventSound(id: u32, c: Cursor)
    requires EventSpec(id, c).Ok?
    ensures var r := EventSpec(id, c).value;
      && r.value.Event? && r.value.id == id && WellFormed(r.value)
      && Fits(c.buf, c.pos, Layout(r.value)) && r.rest == Cursor(c.buf, c.pos + |Layout(r.value)|)
  {
    var n := c.ReadU8().value;
    ReadU8Ok(c);
    if n.value == 0 {
      assert U8P(0) + [] == U8P(0);
    } else {
      var ids := n.rest.ReadU32s(n.value).value;
      ReadU32sOk(n.rest, n.value);
      FitsAppend(c.buf, c.pos, U8P(n.value), U32sP(ids.value));
    }
  }

  lemma EventComplete(o: HircObject, c: Cursor)
    requires o.Event? && WellFormed(o) && Fits(c.buf, c.pos, Layout(o))
    ensures EventSpec(o.id, c) == Ok(Read(o, Cursor(c.buf, c.pos + |Layout(o)|)))
  {
    if o.idsAction.Some? {
      FitsAppend(c.buf, c.pos, U8P(o.count), U32sP(o.idsAction.value));
      ReadU8Fits(c, o.count, Cursor(c.buf, c.pos + 1));
      ReadU32sFits(Cursor(c.buf, c.pos + 1), o.idsAction.value);
    } else {
      assert Layout(o) == U8P(o.count);
      ReadU8Fits(c, o.count, Cursor(c.buf, c.pos + 1));
    }
  }

  /** An event body is its count byte and one u32 per action. */
  lemma EventLength(o: HircObject)
    requires o.Event? && WellFormed(o)
    ensures |Layout(o)| == 1 + 4 * o.count
  {
  }

  // ---------------------------------------------------------------------
  // Parameter tables of both container kinds

  lemma TagsOk(c: Cursor, n: byte)
    requires c.pos <= |c.buf| && TagsSpec(c, n).Ok?
    ensures var r := TagsSpec(c, n).value;
      |r.value| == n && Fits(c.buf, c.pos, BytesP(r.value)) && r.rest == Cursor(c.buf, c.pos + n)
  {
    FitsBytes(c.buf, c.pos, TagsSpec(c, n).value.value);
  }

  lemma TagsFits(c: Cursor, bs: seq<byte>)
    requires |bs| < 0x100 && Fits(c.buf, c.pos, BytesP(bs))
    ensures TagsSpec(c, |bs|) == Ok(Read(bs, Cursor(c.buf, c.pos + |bs|)))
  {
    FitsBytes(c.buf, c.pos, bs);
  }

  lemma ExtraOk(addition: byte, inSwitch: bool, c: Cursor)
    requires c.pos <= |c.buf| && ExtraSpec(addition, inSwitch, c).Ok?
    ensures var r := ExtraSpec(addition, inSwitch, c).value;
      && ParamOk(ContainerParam(0, 0, addition, r.value), inSwitch)
      && Fits(c.buf, c.pos, ExtraP(r.value)) && r.rest == Cursor(c.buf, c.pos + |ExtraP(r.value)|)
  {
    if addition == 3 {
      ReadU8Ok(c);
    } else if addition == 2 && !inSwitch {
      var x := c.ReadU32().value;
      ReadU32Ok(c);
      var y := x.rest.ReadU32().value;
      ReadU32Ok(x.rest);
      FitsAppend(c.buf, c.pos, U32P(x.value), U32P(y.value));
      FitsAppend(c.buf, c.pos, U32P(x.value) + U32P(y.value), Pad(1));
    }
  }

  lemma ExtraFits(addition: byte, inSwitch: bool, x: Addition, c: Cursor)
    requires ParamOk(ContainerParam(0, 0, addition, x), inSwitch) && Fits(c.buf, c.pos, ExtraP(x))
    ensures ExtraSpec(addition, inSwitch, c) == Ok(Read(x, Cursor(c.buf, c.pos + |ExtraP(x)|)))
  {
    match x
    case NoExtra =>
    case ExtraByte(b) =>
      ReadU8Fits(c, b, Cursor(c.buf, c.pos + 1));
    case ExtraPair(u, v) =>
      FitsAppend(c.buf, c.pos, U32P(u) + U32P(v), Pad(1));
      FitsAppend(c.buf, c.pos, U32P(u), U32P(v));
      ReadU32Fits(c, u, Cursor(c.buf, c.pos + 4));
      ReadU32Fits(Cursor(c.buf, c.pos + 4), v, Cursor(c.buf, c.pos + 8));
  }

  lemma ParamOk1(tag: byte, inSwitch: bool, c: Cursor)
    requires ParamSpec(tag, inSwitch, c).Ok?
    ensures var r := ParamSpec(tag, inSwitch, c).value;
      && r.value.typeTag == tag && ParamOk(r.value, inSwitch)
      && Fits(c.buf, c.pos, ParamP(r.value)) && r.rest == Cursor(c.buf, c.pos + |ParamP(r.value)|)
  {
    var v := c.ReadU16().value;
    ReadU16Ok(c);
    var c1 := v.rest.Skip(1).value;
    var a := c1.ReadU8().value;
    ReadU8Ok(c1);
    var x := ExtraSpec(a.value, inSwitch, a.rest).value;
    ExtraOk(a.value, inSwitch, a.rest);
    FitsAppend(c.buf, c.pos, U16P(v.value), Pad(1));
    FitsAppend(c.buf, c.pos, U16P(v.value) + Pad(1), U8P(a.value));
    FitsAppend(c.buf, c.pos, U16P(v.value) + Pad(1) + U8P(a.value), ExtraP(x.value));
  }

  lemma ParamFits(p: ContainerParam, inSwitch: bool, c: Cursor)
    requires ParamOk(p, inSwitch) && Fits(c.buf, c.pos, ParamP(p))
    ensures ParamSpec(p.typeTag, inSwitch, c) == Ok(Read(p, Cursor(c.buf, c.pos + |ParamP(p)|)))
  {
    FitsAppend(c.buf, c.pos, U16P(p.value) + Pad(1) + U8P(p.addition), ExtraP(p.extra));
    FitsAppend(c.buf, c.pos, U16P(p.value) + Pad(1), U8P(p.addition));
    FitsAppend(c.buf, c.pos, U16P(p.value), Pad(1));
    ReadU16Fits(c, p.value, Cursor(c.buf, c.pos + 2));
    ReadU8Fits(Cursor(c.buf, c.pos + 3), p.addition, Cursor(c.buf, c.pos + 4));
    ExtraFits(p.addition, inSwitch, p.extra, Cursor(c.buf, c.pos + 4));
  }

  lemma TagsTail(ps: seq<ContainerParam>)
    requires ps != []
    ensures Tags(ps)[0] == ps[0].typeTag && Tags(ps)[1..] == Tags(ps[1..])
  {
  }

  /** One step of the parameter loop: a body, then the remaining ones. */
  lemma ParamsUncons(tags: seq<byte>, inSwitch: bool, c: Cursor, r: Read<seq<ContainerParam>>)
    returns (p: Read<ContainerParam>, tail: Read<seq<ContainerParam>>)
    requires tags != [] && ParamsSpec(tags, inSwitch, c) == Ok(r)
    ensures ParamSpec(tags[0], inSwitch, c) == Ok(p) && ParamsSpec(tags[1..], inSwitch, p.rest) == Ok(tail)
    ensures r.rest == tail.rest && r.value == [p.value] + tail.value
  {
    p := ParamSpec(tags[0], inSwitch, c).value;
    tail := ParamsSpec(tags[1..], inSwitch, p.rest).value;
  }

  /** A parameter body in front of bodies that fit keeps them fitting. */
  lemma ParamsStep(tags: seq<byte>, inSwitch: bool, c: Cursor, p: Read<ContainerParam>, tail: Read<seq<ContainerParam>>)
    requires tags != [] && ParamSpec(tags[0], inSwitch, c) == Ok(p)
    requires Tags(tail.value) == tags[1..] && (forall i :: 0 <= i < |tail.value| ==> ParamOk(tail.value[i], inSwitch))
    requires Fits(c.buf, p.rest.pos, ParamsP(tail.value)) && tail.rest == Cursor(c.buf, p.rest.pos + |ParamsP(tail.value)|)
    ensures var ps := [p.value] + tail.value;
      && Tags(ps) == tags && (forall i :: 0 <= i < |ps| ==> ParamOk(ps[i], inSwitch))
      && Fits(c.buf, c.pos, ParamsP(ps)) && tail.rest == Cursor(c.buf, c.pos + |ParamsP(ps)|)
  {
    assert p.value.typeTag == tags[0] && ParamOk(p.value, inSwitch)
      && Fits(c.buf, c.pos, ParamP(p.value)) && p.rest == Cursor(c.buf, c.pos + |ParamP(p.value)|) by {
      ParamOk1(tags[0], inSwitch, c);
    }
    ParamsPrepend(tags, inSwitch, p.value, tail.value, c.buf, c.pos, tail.rest);
  }

  /** A parameter that fits, in front of parameters that fit, makes a table body that fits. */
  lemma ParamsPrepend(tags: seq<byte>, inSwitch: bool, q: ContainerParam, tail: seq<ContainerParam>,
                   buf: seq<byte>, pos: nat, end: Cursor)
    requires tags != [] && q.typeTag == tags[0] && ParamOk(q, inSwitch)
    requires Fits(buf, pos, ParamP(q))
    requires Tags(tail) == tags[1..] && (forall i :: 0 <= i < |tail| ==> ParamOk(tail[i], inSwitch))
    requires Fits(buf, pos + |ParamP(q)|, ParamsP(tail)) && end == Cursor(buf, pos + |ParamP(q)| + |ParamsP(tail)|)
    ensures var ps := [q] + tail;
      && Tags(ps) == tags && (forall i :: 0 <= i < |ps| ==> ParamOk(ps[i], inSwitch))
      && Fits(buf, pos, ParamsP(ps)) && end == Cursor(buf, pos + |ParamsP(ps)|)
  {
    var ps := [q] + tail;
    assert ps[0] == q && ps[1..] == tail;
    TagsTail(ps);
    assert Tags(ps) == [tags[0]] + tags[1..];
    FitsAppend(buf, pos, ParamP(q), ParamsP(tail));
  }

  lemma ParamRest(tag: byte, inSwitch: bool, c: Cursor)
    requires c.pos <= |c.buf| && ParamSpec(tag, inSwitch, c).Ok?
    ensures ParamSpec(tag, inSwitch, c).value.rest.buf == c.buf
    ensures c.pos <= ParamSpec(tag, inSwitch, c).value.rest.pos <= |c.buf|
  {
    ParamOk1(tag, inSwitch, c);
  }

  /** Soundness of the parameter loop: one body per type tag, each valid,
      laid out one after the other. */
  lemma {:induction false} ParamsOk(tags: seq<byte>, inSwitch: bool, c: Cursor, r: Read<seq<ContainerParam>>)
    requires c.pos <= |c.buf| && ParamsSpec(tags, inSwitch, c) == Ok(r)
    ensures Tags(r.value) == tags && (forall i :: 0 <= i < |r.value| ==> ParamOk(r.value[i], inSwitch))
    ensures Fits(c.buf, c.pos, ParamsP(r.value)) && r.rest == Cursor(c.buf, c.pos + |ParamsP(r.value)|)
    decreases |tags|
  {
    if tags == [] {
      assert r.value == [];
    } else {
      var p, tail := ParamsUncons(tags, inSwitch, c, r);
      ParamRest(tags[0], inSwitch, c);
      ParamsOk(tags[1..], inSwitch, p.rest, tail);
      ParamsStep(tags, inSwitch, c, p, tail);
    }
  }

  lemma ParamsCons(ps: seq<ContainerParam>, inSwitch: bool, c: Cursor, c1: Cursor, c2: Cursor)
    requires ps != [] && ParamSpec(ps[0].typeTag, inSwitch, c) == Ok(Read(ps[0], c1))
    requires ParamsSpec(Tags(ps[1..]), inSwitch, c1) == Ok(Read(ps[1..], c2))
    ensures ParamsSpec(Tags(ps), inSwitch, c) == Ok(Read(ps, c2))
  {
    TagsTail(ps);
    assert [ps[0]] + ps[1..] == ps;
  }

  lemma ParamsFitsHead(ps: seq<ContainerParam>, inSwitch: bool, c: Cursor)
    requires ps != [] && ParamOk(ps[0], inSwitch) && Fits(c.buf, c.pos, ParamsP(ps))
    ensures ParamSpec(ps[0].typeTag, inSwitch, c) == Ok(Read(ps[0], Cursor(c.buf, c.pos + |ParamP(ps[0])|)))
    ensures Fits(c.buf, c.pos + |ParamP(ps[0])|, ParamsP(ps[1..]))
    ensures |ParamsP(ps)| == |ParamP(ps[0])| + |ParamsP(ps[1..])|
  {
    FitsAppend(c.buf, c.pos, ParamP(ps[0]), ParamsP(ps[1..]));
    assert Fits(c.buf, c.pos, ParamP(ps[0]));
    ParamHeadFits(ps[0], inSwitch, c, Cursor(c.buf, c.pos + |ParamP(ps[0])|));
  }

  lemma ParamHeadFits(p: ContainerParam, inSwitch: bool, c: Cursor, next: Cursor)
    requires ParamOk(p, inSwitch) && Fits(c.buf, c.pos, ParamP(p)) && next == Cursor(c.buf, c.pos + |ParamP(p)|)
    ensures ParamSpec(p.typeTag, inSwitch, c) == Ok(Read(p, next))
  {
    ParamFits(p, inSwitch, c);
  }

  /** Completeness of the parameter loop; `end` is where the bodies end. */
  lemma {:induction false} ParamsFits(ps: seq<ContainerParam>, inSwitch: bool, c: Cursor, end: Cursor)
    requires (forall i :: 0 <= i < |ps| ==> ParamOk(ps[i], inSwitch)) && Fits(c.buf, c.pos, ParamsP(ps))
    requires end == Cursor(c.buf, c.pos + |ParamsP(ps)|)
    ensures ParamsSpec(Tags(ps), inSwitch, c) == Ok(Read(ps, end))
    decreases ps
  {
    if ps != [] {
      var c1 := Cursor(c.buf, c.pos + |ParamP(ps[0])|);
      ParamsFitsHead(ps, inSwitch, c);
      ParamsFits(ps[1..], inSwitch, c1, end);
      ParamsCons(ps, inSwitch, c, c1, end);
    }
  }

  lemma TableHeadOk(c: Cursor)
    requires TableHeadSpec(c).Ok?
    ensures var r := TableHeadSpec(c).value;
      |r.value| < 0x100 && Fits(c.buf, c.pos, TableHeadP(r.value)) && r.rest == Cursor(c.buf, c.pos + |TableHeadP(r.value)|)
  {
    var buf, p := c.buf, c.pos;
    var c2 := Cursor(buf, p + 12);
    var n := c2.ReadU8().value;
    ReadU8Ok(c2);
    var tags := TagsSpec(n.rest, n.value).value;
    TagsOk(n.rest, n.value);
    var P1 := Pad(11) + Pad(1);
    var P2 := P1 + U8P(|tags.value|);
    var P3 := P2 + BytesP(tags.value);
    FitsAppend(buf, p, Pad(11), Pad(1));
    FitsAppend(buf, p, P1, U8P(|tags.value|));
    FitsAppend(buf, p, P2, BytesP(tags.value));
    FitsAppend(buf, p, P3, Pad(2));
  }

  lemma TableHeadFits(tags: seq<byte>, c: Cursor)
    requires |tags| < 0x100 && Fits(c.buf, c.pos, TableHeadP(tags))
    ensures TableHeadSpec(c) == Ok(Read(tags, Cursor(c.buf, c.pos + |TableHeadP(tags)|)))
  {
    var buf, p := c.buf, c.pos;
    var P1 := Pad(11) + Pad(1);
    var P2 := P1 + U8P(|tags|);
    var P3 := P2 + BytesP(tags);
    FitsAppend(buf, p, P3, Pad(2));
    FitsAppend(buf, p, P2, BytesP(tags));
    FitsAppend(buf, p, P1, U8P(|tags|));
    ReadU8Fits(Cursor(buf, p + 12), |tags|, Cursor(buf, p + 13));
    TagsFits(Cursor(buf, p + 13), tags);
  }

  lemma ParamTableOk(inSwitch: bool, c: Cursor)
    requires ParamTableSpec(inSwitch, c).Ok?
    ensures var r := ParamTableSpec(inSwitch, c).value;
      && |r.value| < 0x100 && (forall i :: 0 <= i < |r.value| ==> ParamOk(r.value[i], inSwitch))
      && Fits(c.buf, c.pos, ParamTableP(r.value)) && r.rest == Cursor(c.buf, c.pos + |ParamTableP(r.value)|)
  {
    var h := TableHeadSpec(c).value;
    TableHeadOk(c);
    var ps := ParamsSpec(h.value, inSwitch, h.rest).value.value;
    ParamsOk(h.value, inSwitch, h.rest, ParamsSpec(h.value, inSwitch, h.rest).value);
    FitsAppend(c.buf, c.pos, TableHeadP(h.value), ParamsP(ps));
  }

  lemma ParamTableFits(ps: seq<ContainerParam>, inSwitch: bool, c: Cursor)
    requires |ps| < 0x100 && (forall i :: 0 <= i < |ps| ==> ParamOk(ps[i], inSwitch))
    requires Fits(c.buf, c.pos, ParamTableP(ps))
    ensures ParamTableSpec(inSwitch, c) == Ok(Read(ps, Cursor(c.buf, c.pos + |ParamTableP(ps)|)))
  {
    ParamTableSplit(ps, c.buf, c.pos);
    ParamTableParts(ps, inSwitch, c, Cursor(c.buf, c.pos + |TableHeadP(Tags(ps))|),
                    Cursor(c.buf, c.pos + |ParamTableP(ps)|));
  }

  /** The head and the bodies of a table, each fitting the bytes in turn. */
  lemma ParamTableParts(ps: seq<ContainerParam>, inSwitch: bool, c: Cursor, c1: Cursor, end: Cursor)
    requires |ps| < 0x100 && (forall i :: 0 <= i < |ps| ==> ParamOk(ps[i], inSwitch))
    requires Fits(c.buf, c.pos, TableHeadP(Tags(ps))) && c1 == Cursor(c.buf, c.pos + |TableHeadP(Tags(ps))|)
    requires Fits(c.buf, c1.pos, ParamsP(ps)) && end == Cursor(c.buf, c1.pos + |ParamsP(ps)|)
    ensures ParamTableSpec(inSwitch, c) == Ok(Read(ps, end))
  {
    TableHeadFits(Tags(ps), c);
    ParamsFits(ps, inSwitch, c1, end);
    ParamTableChain(inSwitch, c, Tags(ps), c1, ps, end);
  }

  lemma ParamTableSplit(ps: seq<ContainerParam>, buf: seq<byte>, p: nat)
    requires |ps| < 0x100 && Fits(buf, p, ParamTableP(ps))
    ensures Fits(buf, p, TableHeadP(Tags(ps))) && Fits(buf, p + |TableHeadP(Tags(ps))|, ParamsP(ps))
    ensures p + |ParamTableP(ps)| == p + |TableHeadP(Tags(ps))| + |ParamsP(ps)|
  {
    FitsAppend(buf, p, TableHeadP(Tags(ps)), ParamsP(ps));
  }

  lemma ParamTableChain(inSwitch: bool, c: Cursor, tags: seq<byte>, c1: Cursor, ps: seq<ContainerParam>, end: Cursor)
    requires TableHeadSpec(c) == Ok(Read(tags, c1))
    requires ParamsSpec(tags, inSwitch, c1) == Ok(Read(ps, end))
    ensures ParamTableSpec(inSwitch, c) == Ok(Read(ps, end))
  {
  }

  // ---------------------------------------------------------------------
  // Container

  lemma ChildrenOk(id: u32, ps: seq<ContainerParam>, c: Cursor)
    requires ContainerRestSpec(id, ps, c).Ok? && ContainerRestSpec(id, ps, c).value.value.childIds.Some?
    ensures var r := ContainerRestSpec(id, ps, c).value;
      var ids := r.value.childIds.value;
      && r.value == Container(id, ps, Some(ids)) && |ids| < TWO32
      && Fits(c.buf, c.pos, ChildrenP(ids)) && r.rest == Cursor(c.buf, c.pos + |ChildrenP(ids)|)
  {
    var buf, p := c.buf, c.pos;
    var n := Cursor(buf, p + 35).ReadU32().value.value;
    var r := Cursor(buf, p + 39).ReadU32s(n).value;
    assert ContainerRestSpec(id, ps, c).value == Read(Container(id, ps, Some(r.value)), r.rest);
    ChildrenJoin(n, r.value, buf, p, r.rest);
  }

  /** The count and the list a container's rest read fit the bytes as its child list. */
  lemma ChildrenJoin(n: u32, ids: seq<u32>, buf: seq<byte>, p: nat, end: Cursor)
    requires Cursor(buf, p + 35).ReadU32() == Ok(Read(n, Cursor(buf, p + 39)))
    requires Cursor(buf, p + 39).ReadU32s(n) == Ok(Read(ids, end))
    ensures |ids| == n && Fits(buf, p, ChildrenP(ids)) && end == Cursor(buf, p + |ChildrenP(ids)|)
  {
    ReadU32Back(Cursor(buf, p + 35), n, Cursor(buf, p + 39));
    ReadU32sOk(Cursor(buf, p + 39), n);
    PadFits(buf, p, 35);
    FitsAppend(buf, p, Pad(35), U32P(n));
    FitsAppend(buf, p, Pad(35) + U32P(n), U32sP(ids));
  }

  lemma ChildrenFits(id: u32, ps: seq<ContainerParam>, ids: seq<u32>, c: Cursor, end: Cursor)
    requires |ids| < TWO32 && Fits(c.buf, c.pos, ChildrenP(ids)) && end == Cursor(c.buf, c.pos + |ChildrenP(ids)|)
    ensures ContainerRestSpec(id, ps, c) == Ok(Read(Container(id, ps, Some(ids)), end))
  {
    FitsAppend(c.buf, c.pos, Pad(35) + U32P(|ids|), U32sP(ids));
    FitsAppend(c.buf, c.pos, Pad(35), U32P(|ids|));
    ReadU32Fits(Cursor(c.buf, c.pos + 35), |ids|, Cursor(c.buf, c.pos + 39));
    ReadU32sFits(Cursor(c.buf, c.pos + 39), ids);
  }

  lemma ContainerSound(id: u32, c: Cursor)
    requires ContainerSpec(id, c).Ok? && ContainerSpec(id, c).value.value.childIds.Some?
    ensures var r := ContainerSpec(id, c).value;
      && r.value.Container? && r.value.id == id && WellFormed(r.value)
      && Fits(c.buf, c.pos, Layout(r.value)) && r.rest == Cursor(c.buf, c.pos + |Layout(r.value)|)
  {
    var ps := ParamTableSpec(false, c).value;
    ParamTableOk(false, c);
    ChildrenOk(id, ps.value, ps.rest);
    var ids := ContainerRestSpec(id, ps.value, ps.rest).value.value.childIds.value;
    FitsAppend(c.buf, c.pos, ParamTableP(ps.value), ChildrenP(ids));
  }

  lemma ContainerComplete(o: HircObject, c: Cursor)
    requires o.Container? && WellFormed(o) && Fits(c.buf, c.pos, Layout(o))
    ensures ContainerSpec(o.id, c) == Ok(Read(o, Cursor(c.buf, c.pos + |Layout(o)|)))
  {
    ContainerPartsComplete(o.id, o.params, o.childIds.value, c, Cursor(c.buf, c.pos + |Layout(o)|));
  }

  /** A container's table and child list, each fitting the bytes in turn,
      read back as the whole object. */
  lemma ContainerPartsComplete(id: u32, ps: seq<ContainerParam>, ids: seq<u32>, c: Cursor, end: Cursor)
    requires |ps| < 0x100 && (forall i :: 0 <= i < |ps| ==> ParamOk(ps[i], false)) && |ids| < TWO32
    requires Fits(c.buf, c.pos, ParamTableP(ps) + ChildrenP(ids))
    requires end == Cursor(c.buf, c.pos + |ParamTableP(ps) + ChildrenP(ids)|)
    ensures ContainerSpec(id, c) == Ok(Read(Container(id, ps, Some(ids)), end))
  {
    var c1 := Cursor(c.buf, c.pos + |ParamTableP(ps)|);
    assert ParamTableSpec(false, c) == Ok(Read(ps, c1)) by {
      FitsAppend(c.buf, c.pos, ParamTableP(ps), ChildrenP(ids));
      ParamTableFits(ps, false, c);
    }
    assert ContainerRestSpec(id, ps, c1) == Ok(Read(Container(id, ps, Some(ids)), end)) by {
      FitsAppend(c.buf, c.pos, ParamTableP(ps), ChildrenP(ids));
      ChildrenFits(id, ps, ids, c1, end);
    }
    ContainerChain(id, c, ps, c1);
  }

  /** A container is its parameter table followed by the rest. */
  lemma ContainerChain(id: u32, c: Cursor, ps: seq<ContainerParam>, c1: Cursor)
    requires ParamTableSpec(false, c) == Ok(Read(ps, c1))
    ensures ContainerSpec(id, c) == ContainerRestSpec(id, ps, c1)
  {
  }

  /** A child list that runs past the record leaves the children unset: this
      happens exactly when the count field is inside the record but the
      list it announces is not. */
  lemma ContainerTruncated(id: u32, c: Cursor)
    requires ContainerSpec(id, c).Ok? && ContainerSpec(id, c).value.value.childIds.None?
    ensures var r := ContainerSpec(id, c).value;
      var ps := r.value.params;
      && |ps| < 0x100 && (forall i :: 0 <= i < |ps| ==> ParamOk(ps[i], false))
      && Fits(c.buf, c.pos, ParamTableP(ps))
      && var q := c.pos + |ParamTableP(ps)| + 35;
      && q + 4 <= |c.buf| && |c.buf| < q + 4 + 4 * U32At(c.buf, q)
      && r.rest == Cursor(c.buf, q + 4)
  {
    var t := ParamTableSpec(false, c).value;
    ParamTableOk(false, c);
    ContainerChain(id, c, t.value, t.rest);
    TruncatedRestOk(id, t.value, t.rest);
  }

  /** A short child list, as the rest of a container sees it. */
  lemma TruncatedRestOk(id: u32, ps: seq<ContainerParam>, c: Cursor)
    requires ContainerRestSpec(id, ps, c).Ok? && ContainerRestSpec(id, ps, c).value.value.childIds.None?
    ensures var r := ContainerRestSpec(id, ps, c).value;
      && r.value == Container(id, ps, None)
      && c.pos + 39 <= |c.buf| && |c.buf| < c.pos + 39 + 4 * U32At(c.buf, c.pos + 35)
      && r.rest == Cursor(c.buf, c.pos + 39)
  {
  }

  /** The converse: a table that fits, then a count field inside the record
      whose list runs past it, reads as a container without children. */
  lemma ContainerTruncatedComplete(id: u32, ps: seq<ContainerParam>, c: Cursor)
    requires |ps| < 0x100 && (forall i :: 0 <= i < |ps| ==> ParamOk(ps[i], false))
    requires Fits(c.buf, c.pos, ParamTableP(ps))
    requires var q := c.pos + |ParamTableP(ps)| + 35; q + 4 <= |c.buf| && |c.buf| < q + 4 + 4 * U32At(c.buf, q)
    ensures ContainerSpec(id, c) == Ok(Read(Container(id, ps, None), Cursor(c.buf, c.pos + |ParamTableP(ps)| + 39)))
  {
    var c1 := Cursor(c.buf, c.pos + |ParamTableP(ps)|);
    ParamTableFits(ps, false, c);
    ContainerChain(id, c, ps, c1);
    TruncatedRest(id, ps, c1);
  }

  /** The count field inside the record with a list that runs past it. */
  lemma TruncatedRest(id: u32, ps: seq<ContainerParam>, c: Cursor)
    requires c.pos + 39 <= |c.buf| && |c.buf| < c.pos + 39 + 4 * U32At(c.buf, c.pos + 35)
    ensures ContainerRestSpec(id, ps, c) == Ok(Read(Container(id, ps, None), Cursor(c.buf, c.pos + 39)))
  {
  }

  // ---------------------------------------------------------------------
  // Switch container

  lemma BranchOk(c: Cursor)
    requires BranchSpec(c).Ok?
    ensures var r := BranchSpec(c).value;
      Fits(c.buf, c.pos, BranchP(r.value)) && r.rest == Cursor(c.buf, c.pos + |BranchP(r.value)|)
  {
    var sid := c.ReadU32().value;
    ReadU32Ok(c);
    var m := sid.rest.ReadU32().value;
    ReadU32Ok(sid.rest);
    var members := m.rest.ReadU32s(m.value).value;
    ReadU32sOk(m.rest, m.value);
    FitsAppend(c.buf, c.pos, U32P(sid.value), U32P(m.value));
    FitsAppend(c.buf, c.pos, U32P(sid.value) + U32P(m.value), U32sP(members.value));
  }

  lemma BranchFits(sw: SwitchBranch, c: Cursor)
    requires Fits(c.buf, c.pos, BranchP(sw))
    ensures BranchSpec(c) == Ok(Read(sw, Cursor(c.buf, c.pos + |BranchP(sw)|)))
  {
    FitsAppend(c.buf, c.pos, U32P(sw.id) + U32P(|sw.members|), U32sP(sw.members));
    FitsAppend(c.buf, c.pos, U32P(sw.id), U32P(|sw.members|));
    ReadU32Fits(c, sw.id, Cursor(c.buf, c.pos + 4));
    ReadU32Fits(Cursor(c.buf, c.pos + 4), |sw.members|, Cursor(c.buf, c.pos + 8));
    ReadU32sFits(Cursor(c.buf, c.pos + 8), sw.members);
  }

  /** One step of the switch loop: a branch, then the remaining ones. */
  lemma SwitchesUncons(c: Cursor, n: nat, r: Read<seq<SwitchBranch>>) returns (b: Read<SwitchBranch>, tail: Read<seq<SwitchBranch>>)
    requires n > 0 && SwitchesSpec(c, n) == Ok(r)
    ensures BranchSpec(c) == Ok(b) && SwitchesSpec(b.rest, n - 1) == Ok(tail)
    ensures r.rest == tail.rest && r.value == [b.value] + tail.value
  {
    b := BranchSpec(c).value;
    tail := SwitchesSpec(b.rest, n - 1).value;
  }

  lemma SwitchesPrepend(b: SwitchBranch, tail: seq<SwitchBranch>)
    ensures SwitchesP([b] + tail) == BranchP(b) + SwitchesP(tail)
  {
    assert ([b] + tail)[1..] == tail;
  }

  /** A branch in front of switches that fit keeps them fitting. */
  lemma SwitchesStep(c: Cursor, b: Read<SwitchBranch>, tail: Read<seq<SwitchBranch>>)
    requires BranchSpec(c) == Ok(b)
    requires Fits(c.buf, b.rest.pos, SwitchesP(tail.value))
    requires tail.rest == Cursor(c.buf, b.rest.pos + |SwitchesP(tail.value)|)
    ensures Fits(c.buf, c.pos, SwitchesP([b.value] + tail.value))
    ensures tail.rest == Cursor(c.buf, c.pos + |SwitchesP([b.value] + tail.value)|)
  {
    BranchOk(c);
    SwitchesPrepend(b.value, tail.value);
    FitsAppend(c.buf, c.pos, BranchP(b.value), SwitchesP(tail.value));
  }

  /** The switch loop reads exactly the switches it was asked for, laid out
      one after the other. */
  lemma {:induction false} SwitchesOk(c: Cursor, n: nat, r: Read<seq<SwitchBranch>>)
    requires c.pos <= |c.buf| && SwitchesSpec(c, n) == Ok(r)
    ensures |r.value| == n
    ensures Fits(c.buf, c.pos, SwitchesP(r.value)) && r.rest == Cursor(c.buf, c.pos + |SwitchesP(r.value)|)
    decreases n
  {
    if n == 0 {
      assert r.value == [];
    } else {
      var b, tail := SwitchesUncons(c, n, r);
      BranchRest(c);
      SwitchesOk(b.rest, n - 1, tail);
      SwitchesStep(c, b, tail);
    }
  }

  lemma BranchRest(c: Cursor)
    requires BranchSpec(c).Ok?
    ensures BranchSpec(c).value.rest.buf == c.buf && c.pos <= BranchSpec(c).value.rest.pos <= |c.buf|
  {
  }

  lemma SwitchesCons(sws: seq<SwitchBranch>, c: Cursor, c1: Cursor, end: Cursor)
    requires sws != [] && BranchSpec(c) == Ok(Read(sws[0], c1))
    requires SwitchesSpec(c1, |sws| - 1) == Ok(Read(sws[1..], end))
    ensures SwitchesSpec(c, |sws|) == Ok(Read(sws, end))
  {
    assert [sws[0]] + sws[1..] == sws;
  }

  lemma {:induction false} SwitchesFits(sws: seq<SwitchBranch>, c: Cursor, end: Cursor)
    requires Fits(c.buf, c.pos, SwitchesP(sws))
    requires end == Cursor(c.buf, c.pos + |SwitchesP(sws)|)
    ensures SwitchesSpec(c, |sws|) == Ok(Read(sws, end))
    decreases sws
  {
    if sws != [] {
      var c1 := Cursor(c.buf, c.pos + |BranchP(sws[0])|);
      assert BranchSpec(c) == Ok(Read(sws[0], c1)) by {
        FitsAppend(c.buf, c.pos, BranchP(sws[0]), SwitchesP(sws[1..]));
        BranchFits(sws[0], c);
      }
      assert SwitchesSpec(c1, |sws| - 1) == Ok(Read(sws[1..], end)) by {
        FitsAppend(c.buf, c.pos, BranchP(sws[0]), SwitchesP(sws[1..]));
        SwitchesFits(sws[1..], c1, end);
      }
      SwitchesCons(sws, c, c1, end);
    }
  }

  /** The fixed-width fields at the front of a switch container's tail,
      each at its own offset. */
  lemma SwitchHeadPieces(g: u32, d: u32, n: u32, buf: seq<byte>, p: nat)
    ensures Fits(buf, p, Pad(12) + U32P(g) + U32P(d) + Pad(1) + U32P(n)) <==>
      && Fits(buf, p, Pad(12)) && Fits(buf, p + 12, U32P(g)) && Fits(buf, p + 16, U32P(d))
      && Fits(buf, p + 20, Pad(1)) && Fits(buf, p + 21, U32P(n))
    ensures |Pad(12) + U32P(g) + U32P(d) + Pad(1) + U32P(n)| == 25
  {
    var P1 := Pad(12) + U32P(g);
    var P2 := P1 + U32P(d);
    var P3 := P2 + Pad(1);
    FitsAppend(buf, p, P3, U32P(n));
    FitsAppend(buf, p, P2, Pad(1));
    FitsAppend(buf, p, P1, U32P(d));
    FitsAppend(buf, p, Pad(12), U32P(g));
  }

  /** The pieces of what follows a switch container's parameter table, each
      at its own offset; q is where the switch count starts. */
  lemma SwitchRestPieces(g: u32, d: u32, ids: seq<u32>, sws: seq<SwitchBranch>, buf: seq<byte>, p: nat)
    requires |ids| < TWO32 && |sws| < TWO32
    ensures var q := p + 25 + 4 * |ids|;
      Fits(buf, p, SwitchRestP(g, d, ids, sws)) <==>
        && Fits(buf, p, Pad(12)) && Fits(buf, p + 12, U32P(g)) && Fits(buf, p + 16, U32P(d))
        && Fits(buf, p + 20, Pad(1)) && Fits(buf, p + 21, U32P(|ids|)) && Fits(buf, p + 25, U32sP(ids))
        && Fits(buf, q, U32P(|sws|)) && Fits(buf, q + 4, SwitchesP(sws))
    ensures |SwitchRestP(g, d, ids, sws)| == 29 + 4 * |ids| + |SwitchesP(sws)|
  {
    var P4 := Pad(12) + U32P(g) + U32P(d) + Pad(1) + U32P(|ids|);
    var P5 := P4 + U32sP(ids);
    var P6 := P5 + U32P(|sws|);
    assert SwitchRestP(g, d, ids, sws) == P6 + SwitchesP(sws);
    SwitchHeadPieces(g, d, |ids| as u32, buf, p);
    FitsAppend(buf, p, P6, SwitchesP(sws));
    FitsAppend(buf, p, P5, U32P(|sws|));
    FitsAppend(buf, p, P4, U32sP(ids));
  }

  /** Bytes that fit a switch container's tail fit each of its fields in turn. */
  lemma SwitchRestSplit(g: u32, d: u32, ids: seq<u32>, sws: seq<SwitchBranch>, buf: seq<byte>, p: nat)
    requires |ids| < TWO32 && |sws| < TWO32 && Fits(buf, p, SwitchRestP(g, d, ids, sws))
    ensures var q := p + 25 + 4 * |ids|;
        && Fits(buf, p + 12, U32P(g)) && Fits(buf, p + 16, U32P(d))
        && Fits(buf, p + 21, U32P(|ids|)) && Fits(buf, p + 25, U32sP(ids))
        && Fits(buf, q, U32P(|sws|)) && Fits(buf, q + 4, SwitchesP(sws))
    ensures |SwitchRestP(g, d, ids, sws)| == 29 + 4 * |ids| + |SwitchesP(sws)|
  {
    SwitchRestPieces(g, d, ids, sws, buf, p);
  }

  /** The switch container reads, chained. */
  lemma SwitchRestChain(id: u32, ps: seq<ContainerParam>, g: u32, d: u32, ids: seq<u32>, sws: seq<SwitchBranch>,
                        c: Cursor, c12: Cursor, c16: Cursor, c20: Cursor, c21: Cursor, c25: Cursor,
                        cK: Cursor, cS: Cursor, end: Cursor)
    requires |ids| < TWO32 && |sws| < TWO32
    requires c.Skip(12) == Ok(c12) && c12.ReadU32() == Ok(Read(g, c16)) && c16.ReadU32() == Ok(Read(d, c20))
    requires c20.Skip(1) == Ok(c21) && c21.ReadU32() == Ok(Read(|ids| as u32, c25))
    requires c25.ReadU32s(|ids|) == Ok(Read(ids, cK)) && cK.ReadU32() == Ok(Read(|sws| as u32, cS))
    requires SwitchesSpec(cS, |sws|) == Ok(Read(sws, end))
    ensures SwitchRestSpec(id, ps, c) == Ok(Read(SwitchContainer(id, ps, g, d, ids, sws), end))
  {
  }

  /** What a successful read of a switch container's tail says about each
      of its fields. */
  lemma SwitchRestUnchain(id: u32, ps: seq<ContainerParam>, c: Cursor, r: Read<HircObject>)
    returns (g: u32, d: u32, ids: seq<u32>, sws: seq<SwitchBranch>, k: u32)
    requires SwitchRestSpec(id, ps, c) == Ok(r)
    ensures var buf, p := c.buf, c.pos;
      var q := p + 25 + 4 * |ids|;
      && p + 21 <= |buf| && |ids| < TWO32
      && Cursor(buf, p + 12).ReadU32() == Ok(Read(g, Cursor(buf, p + 16)))
      && Cursor(buf, p + 16).ReadU32() == Ok(Read(d, Cursor(buf, p + 20)))
      && Cursor(buf, p + 21).ReadU32() == Ok(Read(|ids| as u32, Cursor(buf, p + 25)))
      && Cursor(buf, p + 25).ReadU32s(|ids|) == Ok(Read(ids, Cursor(buf, q)))
      && Cursor(buf, q).ReadU32() == Ok(Read(k, Cursor(buf, q + 4)))
      && SwitchesSpec(Cursor(buf, q + 4), k) == Ok(Read(sws, r.rest))
      && r.value == SwitchContainer(id, ps, g, d, ids, sws)
  {
    var c12 := c.Skip(12).value;
    var rg := c12.ReadU32().value;
    var rd := rg.rest.ReadU32().value;
    var c21 := rd.rest.Skip(1).value;
    var rn := c21.ReadU32().value;
    var ri := rn.rest.ReadU32s(rn.value).value;
    var rk := ri.rest.ReadU32().value;
    var rs := SwitchesSpec(rk.rest, rk.value).value;
    assert r == Read(SwitchContainer(id, ps, rg.value, rd.value, ri.value, rs.value), rs.rest);
    g, d, ids, k, sws := rg.value, rd.value, ri.value, rk.value, rs.value;
    assert |ids| == rn.value as int && ri.rest == Cursor(c.buf, c.pos + 25 + 4 * |ids|);
  }

  /** The fixed-width fields of a switch container's tail that were read fit the bytes. */
  lemma SwitchRestHeadFit(g: u32, d: u32, n: u32, buf: seq<byte>, p: nat)
    requires Cursor(buf, p + 12).ReadU32() == Ok(Read(g, Cursor(buf, p + 16)))
    requires Cursor(buf, p + 16).ReadU32() == Ok(Read(d, Cursor(buf, p + 20)))
    requires Cursor(buf, p + 21).ReadU32() == Ok(Read(n, Cursor(buf, p + 25)))
    ensures Fits(buf, p, Pad(12)) && Fits(buf, p + 12, U32P(g)) && Fits(buf, p + 16, U32P(d))
    ensures Fits(buf, p + 20, Pad(1)) && Fits(buf, p + 21, U32P(n))
  {
    ReadU32Back(Cursor(buf, p + 12), g, Cursor(buf, p + 16));
    ReadU32Back(Cursor(buf, p + 16), d, Cursor(buf, p + 20));
    ReadU32Back(Cursor(buf, p + 21), n, Cursor(buf, p + 25));
    PadFits(buf, p, 12);
    PadFits(buf, p + 20, 1);
  }

  /** The sound ids and the switch count that were read fit the bytes. */
  lemma SwitchRestTailFit(ids: seq<u32>, k: u32, buf: seq<byte>, q: nat)
    requires Cursor(buf, q).ReadU32s(|ids|) == Ok(Read(ids, Cursor(buf, q + 4 * |ids|)))
    requires Cursor(buf, q + 4 * |ids|).ReadU32() == Ok(Read(k, Cursor(buf, q + 4 * |ids| + 4)))
    ensures Fits(buf, q, U32sP(ids)) && Fits(buf, q + 4 * |ids|, U32P(k))
  {
    ReadU32sOk(Cursor(buf, q), |ids|);
    ReadU32Back(Cursor(buf, q + 4 * |ids|), k, Cursor(buf, q + 4 * |ids| + 4));
  }

  /** The fields of a switch container's tail that were read, one after the
      other, fit the bytes as its pattern. */
  lemma SwitchRestReadFits(g: u32, d: u32, ids: seq<u32>, sws: seq<SwitchBranch>, k: u32,
                           buf: seq<byte>, p: nat, rest: Cursor)
    requires p + 21 <= |buf| && |ids| < TWO32
    requires Cursor(buf, p + 12).ReadU32() == Ok(Read(g, Cursor(buf, p + 16)))
    requires Cursor(buf, p + 16).ReadU32() == Ok(Read(d, Cursor(buf, p + 20)))
    requires Cursor(buf, p + 21).ReadU32() == Ok(Read(|ids| as u32, Cursor(buf, p + 25)))
    requires Cursor(buf, p + 25).ReadU32s(|ids|) == Ok(Read(ids, Cursor(buf, p + 25 + 4 * |ids|)))
    requires Cursor(buf, p + 25 + 4 * |ids|).ReadU32() == Ok(Read(k, Cursor(buf, p + 25 + 4 * |ids| + 4)))
    requires SwitchesSpec(Cursor(buf, p + 25 + 4 * |ids| + 4), k) == Ok(Read(sws, rest))
    ensures |sws| < TWO32 && Fits(buf, p, SwitchRestP(g, d, ids, sws))
    ensures rest == Cursor(buf, p + |SwitchRestP(g, d, ids, sws)|)
  {
    SwitchRestFieldsFit(g, d, ids, k, buf, p);
    SwitchesOk(Cursor(buf, p + 25 + 4 * |ids| + 4), k, Read(sws, rest));
    SwitchRestJoin(g, d, ids, sws, buf, p);
  }

  /** The fields of a switch container's tail before the switches fit the
      bytes, each at its own offset. */
  predicate SwitchRestFields(g: u32, d: u32, ids: seq<u32>, k: u32, buf: seq<byte>, p: nat)
    requires |ids| < TWO32
  {
    && Fits(buf, p, Pad(12)) && Fits(buf, p + 12, U32P(g)) && Fits(buf, p + 16, U32P(d))
    && Fits(buf, p + 20, Pad(1)) && Fits(buf, p + 21, U32P(|ids| as u32))
    && Fits(buf, p + 25, U32sP(ids)) && Fits(buf, p + 25 + 4 * |ids|, U32P(k))
  }

  /** The fixed-width fields and the sound IDs that were read fit the bytes. */
  lemma SwitchRestFieldsFit(g: u32, d: u32, ids: seq<u32>, k: u32, buf: seq<byte>, p: nat)
    requires |ids| < TWO32
    requires Cursor(buf, p + 12).ReadU32() == Ok(Read(g, Cursor(buf, p + 16)))
    requires Cursor(buf, p + 16).ReadU32() == Ok(Read(d, Cursor(buf, p + 20)))
    requires Cursor(buf, p + 21).ReadU32() == Ok(Read(|ids| as u32, Cursor(buf, p + 25)))
    requires Cursor(buf, p + 25).ReadU32s(|ids|) == Ok(Read(ids, Cursor(buf, p + 25 + 4 * |ids|)))
    requires Cursor(buf, p + 25 + 4 * |ids|).ReadU32() == Ok(Read(k, Cursor(buf, p + 25 + 4 * |ids| + 4)))
    ensures SwitchRestFields(g, d, ids, k, buf, p)
  {
    SwitchRestHeadFit(g, d, |ids| as u32, buf, p);
    SwitchRestTailFit(ids, k, buf, p + 25);
  }

  /** Fields that fit one after the other make up the tail's pattern. */
  lemma SwitchRestJoin(g: u32, d: u32, ids: seq<u32>, sws: seq<SwitchBranch>, buf: seq<byte>, p: nat)
    requires |ids| < TWO32 && |sws| < TWO32
    requires SwitchRestFields(g, d, ids, |sws| as u32, buf, p)
    requires Fits(buf, p + 25 + 4 * |ids| + 4, SwitchesP(sws))
    ensures Fits(buf, p, SwitchRestP(g, d, ids, sws))
    ensures |SwitchRestP(g, d, ids, sws)| == 29 + 4 * |ids| + |SwitchesP(sws)|
  {
    SwitchRestPieces(g, d, ids, sws, buf, p);
  }

  lemma SwitchRestOk(id: u32, ps: seq<ContainerParam>, c: Cursor, r: Read<HircObject>)
    requires SwitchRestSpec(id, ps, c) == Ok(r)
    ensures r.value.SwitchContainer? && r.value.id == id && r.value.params == ps
    ensures var o := r.value;
      && |o.idsSound| < TWO32 && |o.switches| < TWO32
      && Fits(c.buf, c.pos, SwitchRestP(o.idGroup, o.idSwitchDefault, o.idsSound, o.switches))
      && r.rest == Cursor(c.buf, c.pos + |SwitchRestP(o.idGroup, o.idSwitchDefault, o.idsSound, o.switches)|)
  {
    var g, d, ids, sws, k := SwitchRestUnchain(id, ps, c, r);
    SwitchRestReadFits(g, d, ids, sws, k, c.buf, c.pos, r.rest);
  }

  lemma SwitchRestFits(id: u32, ps: seq<ContainerParam>, g: u32, d: u32, ids: seq<u32>, sws: seq<SwitchBranch>,
                       c: Cursor, end: Cursor)
    requires |ids| < TWO32 && |sws| < TWO32 && Fits(c.buf, c.pos, SwitchRestP(g, d, ids, sws))
    requires end == Cursor(c.buf, c.pos + |SwitchRestP(g, d, ids, sws)|)
    ensures SwitchRestSpec(id, ps, c) == Ok(Read(SwitchContainer(id, ps, g, d, ids, sws), end))
  {
    var buf, p := c.buf, c.pos;
    var q := p + 25 + 4 * |ids|;
    var c12, c16, c20, c21, c25 := Cursor(buf, p + 12), Cursor(buf, p + 16), Cursor(buf, p + 20), Cursor(buf, p + 21), Cursor(buf, p + 25);
    var cK, cS := Cursor(buf, q), Cursor(buf, q + 4);
    SwitchRestFieldsRead(g, d, ids, sws, c, c12, c16, c20, c21, c25, cK, cS);
    SwitchesFits(sws, cS, end);
    SwitchRestChain(id, ps, g, d, ids, sws, c, c12, c16, c20, c21, c25, cK, cS, end);
  }

  /** Every field of a switch container's tail reads back from bytes that fit it. */
  lemma SwitchRestFieldsRead(g: u32, d: u32, ids: seq<u32>, sws: seq<SwitchBranch>, c: Cursor, c12: Cursor,
                             c16: Cursor, c20: Cursor, c21: Cursor, c25: Cursor, cK: Cursor, cS: Cursor)
    requires |ids| < TWO32 && |sws| < TWO32 && Fits(c.buf, c.pos, SwitchRestP(g, d, ids, sws))
    requires c12 == Cursor(c.buf, c.pos + 12) && c16 == Cursor(c.buf, c.pos + 16) && c20 == Cursor(c.buf, c.pos + 20)
    requires c21 == Cursor(c.buf, c.pos + 21) && c25 == Cursor(c.buf, c.pos + 25)
    requires cK == Cursor(c.buf, c.pos + 25 + 4 * |ids|) && cS == Cursor(c.buf, c.pos + 29 + 4 * |ids|)
    ensures c.Skip(12) == Ok(c12) && c12.ReadU32() == Ok(Read(g, c16)) && c16.ReadU32() == Ok(Read(d, c20))
    ensures c20.Skip(1) == Ok(c21) && c21.ReadU32() == Ok(Read(|ids| as u32, c25))
    ensures c25.ReadU32s(|ids|) == Ok(Read(ids, cK)) && cK.ReadU32() == Ok(Read(|sws| as u32, cS))
    ensures Fits(c.buf, cS.pos, SwitchesP(sws))
    ensures |SwitchRestP(g, d, ids, sws)| == 29 + 4 * |ids| + |SwitchesP(sws)|
  {
    SwitchRestSplit(g, d, ids, sws, c.buf, c.pos);
    SwitchRestPartsRead(g, d, ids, |sws| as u32, c, c12, c16, c20, c21, c25, cK, cS);
  }

  /** The fixed-width fields and the sound ids, each fitting in turn, read back. */
  lemma SwitchRestPartsRead(g: u32, d: u32, ids: seq<u32>, k: u32, c: Cursor, c12: Cursor,
                            c16: Cursor, c20: Cursor, c21: Cursor, c25: Cursor, cK: Cursor, cS: Cursor)
    requires |ids| < TWO32
    requires c12 == Cursor(c.buf, c.pos + 12) && c16 == Cursor(c.buf, c.pos + 16) && c20 == Cursor(c.buf, c.pos + 20)
    requires c21 == Cursor(c.buf, c.pos + 21) && c25 == Cursor(c.buf, c.pos + 25)
    requires cK == Cursor(c.buf, c.pos + 25 + 4 * |ids|) && cS == Cursor(c.buf, c.pos + 29 + 4 * |ids|)
    requires Fits(c.buf, c.pos + 12, U32P(g)) && Fits(c.buf, c.pos + 16, U32P(d))
    requires Fits(c.buf, c.pos + 21, U32P(|ids|)) && Fits(c.buf, c.pos + 25, U32sP(ids))
    requires Fits(c.buf, c.pos + 25 + 4 * |ids|, U32P(k))
    ensures c.Skip(12) == Ok(c12) && c12.ReadU32() == Ok(Read(g, c16)) && c16.ReadU32() == Ok(Read(d, c20))
    ensures c20.Skip(1) == Ok(c21) && c21.ReadU32() == Ok(Read(|ids| as u32, c25))
    ensures c25.ReadU32s(|ids|) == Ok(Read(ids, cK)) && cK.ReadU32() == Ok(Read(k, cS))
  {
    SwitchRestHeadRead(g, d, |ids| as u32, c, c12, c16, c20, c21, c25);
    SwitchRestTailRead(ids, k, c25, cK, cS);
  }

  /** The sound ids and the switch count read back from bytes they fit. */
  lemma SwitchRestTailRead(ids: seq<u32>, k: u32, c25: Cursor, cK: Cursor, cS: Cursor)
    requires cK == Cursor(c25.buf, c25.pos + 4 * |ids|) && cS == Cursor(c25.buf, c25.pos + 4 + 4 * |ids|)
    requires Fits(c25.buf, c25.pos, U32sP(ids)) && Fits(cK.buf, cK.pos, U32P(k))
    ensures c25.ReadU32s(|ids|) == Ok(Read(ids, cK)) && cK.ReadU32() == Ok(Read(k, cS))
  {
    ReadU32sFits(c25, ids);
    ReadU32Fits(cK, k, cS);
  }

  /** The fixed-width head of a switch container's tail reads back from bytes it fits. */
  lemma SwitchRestHeadRead(g: u32, d: u32, n: u32, c: Cursor, c12: Cursor, c16: Cursor,
                           c20: Cursor, c21: Cursor, c25: Cursor)
    requires c12 == Cursor(c.buf, c.pos + 12) && c16 == Cursor(c.buf, c.pos + 16) && c20 == Cursor(c.buf, c.pos + 20)
    requires c21 == Cursor(c.buf, c.pos + 21) && c25 == Cursor(c.buf, c.pos + 25)
    requires Fits(c.buf, c.pos + 12, U32P(g)) && Fits(c.buf, c.pos + 16, U32P(d)) && Fits(c.buf, c.pos + 21, U32P(n))
    ensures c.Skip(12) == Ok(c12) && c12.ReadU32() == Ok(Read(g, c16)) && c16.ReadU32() == Ok(Read(d, c20))
    ensures c20.Skip(1) == Ok(c21) && c21.ReadU32() == Ok(Read(n, c25))
  {
    ReadU32Fits(c12, g, c16);
    ReadU32Fits(c16, d, c20);
    ReadU32Fits(c21, n, c25);
  }

  lemma SwitchContainerSound(id: u32, c: Cursor)
    requires SwitchContainerSpec(id, c).Ok?
    ensures var r := SwitchContainerSpec(id, c).value;
      && r.value.SwitchContainer? && r.value.id == id && WellFormed(r.value)
      && Fits(c.buf, c.pos, Layout(r.value)) && r.rest == Cursor(c.buf, c.pos + |Layout(r.value)|)
  {
    var t := ParamTableSpec(true, c).value;
    ParamTableOk(true, c);
    var r := SwitchContainerSpec(id, c).value;
    assert SwitchRestSpec(id, t.value, t.rest) == Ok(r);
    SwitchRestOk(id, t.value, t.rest, r);
    SwitchContainerJoinFits(r.value, c.buf, c.pos);
  }

  /** A switch container's table and tail, each fitting in turn, make up its layout. */
  lemma SwitchContainerJoinFits(o: HircObject, buf: seq<byte>, p: nat)
    requires o.SwitchContainer? && WellFormed(o) && Fits(buf, p, ParamTableP(o.params))
    requires Fits(buf, p + |ParamTableP(o.params)|, SwitchRestP(o.idGroup, o.idSwitchDefault, o.idsSound, o.switches))
    ensures Fits(buf, p, Layout(o))
    ensures |Layout(o)| == |ParamTableP(o.params)| + |SwitchRestP(o.idGroup, o.idSwitchDefault, o.idsSound, o.switches)|
  {
    FitsAppend(buf, p, ParamTableP(o.params), SwitchRestP(o.idGroup, o.idSwitchDefault, o.idsSound, o.switches));
  }

  lemma SwitchContainerComplete(o: HircObject, c: Cursor)
    requires o.SwitchContainer? && WellFormed(o) && Fits(c.buf, c.pos, Layout(o))
    ensures SwitchContainerSpec(o.id, c) == Ok(Read(o, Cursor(c.buf, c.pos + |Layout(o)|)))
  {
    SwitchContainerJoin(o.id, o.params, o.idGroup, o.idSwitchDefault, o.idsSound, o.switches, c,
                        Cursor(c.buf, c.pos + |Layout(o)|));
  }

  /** A switch container's table and tail, each fitting the bytes in turn,
      read back as the whole object. */
  lemma SwitchContainerJoin(id: u32, ps: seq<ContainerParam>, g: u32, d: u32, ids: seq<u32>,
                            sws: seq<SwitchBranch>, c: Cursor, end: Cursor)
    requires |ps| < 0x100 && (forall i :: 0 <= i < |ps| ==> ParamOk(ps[i], true))
    requires |ids| < TWO32 && |sws| < TWO32
    requires Fits(c.buf, c.pos, ParamTableP(ps) + SwitchRestP(g, d, ids, sws))
    requires end == Cursor(c.buf, c.pos + |ParamTableP(ps) + SwitchRestP(g, d, ids, sws)|)
    ensures SwitchContainerSpec(id, c) == Ok(Read(SwitchContainer(id, ps, g, d, ids, sws), end))
  {
    var c1 := Cursor(c.buf, c.pos + |ParamTableP(ps)|);
    FitsAppend(c.buf, c.pos, ParamTableP(ps), SwitchRestP(g, d, ids, sws));
    ParamTableFits(ps, true, c);
    SwitchRestFits(id, ps, g, d, ids, sws, c1, end);
  }

  // ---------------------------------------------------------------------
  // Whole records

  /** A record of a decoded type yields one object carrying the record's ID,
      followed by the switches it holds. The object is well formed, is stored
      under the record's type and fits the record body, except for a container
      whose child list ran past the record. */
  lemma RecordSound(id: u32, t: byte, c: Cursor)
    requires SoundType <= t <= SwitchContainerType && RecordSpec(id, t, c).Ok?
    ensures var d := RecordSpec(id, t, c).value;
      && d.primary.Some? && d.primary.value.id == id && d == DecodedOf(d.primary.value)
      && var o := d.primary.value;
      || (t == ContainerType && o.Container? && o.childIds.None?)
      || (WellFormed(o) && TypeOf(o) == t && Fits(c.buf, c.pos, Layout(o)))
  {
    if t == SoundType {
      SoundSound(id, c);
    } else if t == EventActionType {
      EventActionSound(id, c);
    } else if t == EventType {
      EventSound(id, c);
    } else if t == ContainerType {
      if ContainerSpec(id, c).value.value.childIds.Some? {
        ContainerSound(id, c);
      }
    } else {
      SwitchContainerSound(id, c);
    }
  }

  /** The record of any well-formed object, stored under its type, decodes
      back to that object and the switches it holds, whatever bytes follow. */
  lemma RecordComplete(o: HircObject, c: Cursor)
    requires WellFormed(o) && Fits(c.buf, c.pos, Layout(o))
    ensures RecordSpec(o.id, TypeOf(o), c) == Ok(DecodedOf(o))
  {
    if o.SwitchContainer? {
      SwitchRecordComplete(o, c);
    } else {
      PlainRecordComplete(o, c);
    }
  }

  lemma SwitchRecordComplete(o: HircObject, c: Cursor)
    requires o.SwitchContainer? && WellFormed(o) && Fits(c.buf, c.pos, Layout(o))
    ensures RecordSpec(o.id, SwitchContainerType, c) == Ok(DecodedOf(o))
  {
    var end := Cursor(c.buf, c.pos + |Layout(o)|);
    assert SwitchContainerSpec(o.id, c) == Ok(Read(o, end)) by {
      SwitchContainerComplete(o, c);
    }
    SwitchRecordChain(o.id, c, o, end);
  }

  /** A switch container record is the switch container read, with its
      branches listed after it. */
  lemma SwitchRecordChain(id: u32, c: Cursor, o: HircObject, end: Cursor)
    requires SwitchContainerSpec(id, c) == Ok(Read(o, end))
    ensures RecordSpec(id, SwitchContainerType, c) == Ok(DecodedOf(o))
  {
  }

  lemma PlainRecordComplete(o: HircObject, c: Cursor)
    requires WellFormed(o) && Fits(c.buf, c.pos, Layout(o)) && !o.SwitchContainer?
    ensures RecordSpec(o.id, TypeOf(o), c) == Ok(Decoded(Some(o), []))
  {
    var end := Cursor(c.buf, c.pos + |Layout(o)|);
    match o
    case Sound(_, _, _, _, _, _) =>
      assert SoundSpec(o.id, c) == Ok(Read(o, end)) by { SoundComplete(o, c); }
    case EventAction(_, _, _, _, _, _) =>
      assert EventActionSpec(o.id, c) == Ok(Read(o, end)) by { EventActionComplete(o, c); }
    case Event(_, _, _) =>
      assert EventSpec(o.id, c) == Ok(Read(o, end)) by { EventComplete(o, c); }
    case Container(_, _, _) =>
      assert ContainerSpec(o.id, c) == Ok(Read(o, end)) by { ContainerComplete(o, c); }
  }
}
