/** Decoding one HIRC record (`parseHIRCObject`). The record's bytes come
    through a cursor bounded to the record; each variant reads its fields in
    order, and a read past the record's end fails with Underrun. Each
    variant is specified by a function that threads the cursor; the
    variants whose source loops over a count are also written as methods
    with those loops, proved to compute the function. */
module HircDecode {
  import opened Wrappers
  import opened Bytes
  import opened ByteCursor
  import opened Hirc

  /** Prefix the list a successful read produced with `acc`. */
  function Prepend<T>(acc: seq<T>, r: Result<Read<seq<T>>>): Result<Read<seq<T>>>
  {
    match r
    case Ok(rd) => Ok(Read(acc + rd.value, rd.rest))
    case Err(f) => Err(f)
  }

  lemma PrependNothing<T>(r: Result<Read<seq<T>>>)
    ensures Prepend([], r) == r
  {
    if r.Ok? {
      assert [] + r.value.value == r.value.value;
    }
  }

  lemma PrependTwice<T>(a: seq<T>, b: seq<T>, r: Result<Read<seq<T>>>)
    ensures Prepend(a, Prepend(b, r)) == Prepend(a + b, r)
  {
    if r.Ok? {
      assert a + (b + r.value.value) == (a + b) + r.value.value;
    }
  }

  lemma PrependAll<T>(a: seq<T>, c: Cursor)
    ensures Prepend(a, Ok(Read([], c))) == Ok(Read(a, c))
  {
    assert a + [] == a;
  }

  // ---------------------------------------------------------------------
  // Sound (type 2)

  /** `fileIndex` and `fileLength`, present only for embed type 0. */
  function FileSpec(embedType: byte, c: Cursor): Result<Read<Option<FileRef>>>
  {
    if embedType != 0 then Ok(Read(None, c))
    else
      var i :- c.ReadU32();
      var l :- i.rest.ReadU32();
      Ok(Read(Some(FileRef(i.value, l.value)), l.rest))
  }

  function SoundSpec(id: u32, c: Cursor): Result<Read<HircObject>>
  {
    var c1 :- c.Skip(4);
    var e :- c1.ReadU8();
    var a :- e.rest.ReadU32();
    var s :- a.rest.ReadU32();
    var f :- FileSpec(e.value, s.rest);
    var st :- f.rest.ReadU32();
    Ok(Read(Sound(id, e.value, a.value, s.value, f.value, st.value), st.rest))
  }

  // ---------------------------------------------------------------------
  // Event action (type 3)

  function ActionParamSpec(c: Cursor): Result<Read<ActionParam>>
  {
    var t :- c.ReadU8();
    var v :- t.rest.ReadU32();
    Ok(Read(ActionParam(t.value, v.value), v.rest))
  }

  function ActionParamsSpec(c: Cursor, n: nat): Result<Read<seq<ActionParam>>>
    decreases n
  {
    if n == 0 then Ok(Read([], c))
    else
      var p :- ActionParamSpec(c);
      Prepend([p.value], ActionParamsSpec(p.rest, n - 1))
  }

  function GroupSpec(actionType: byte, c: Cursor): Result<Read<Option<GroupCondition>>>
  {
    if !HasGroup(actionType) then Ok(Read(None, c))
    else
      var c1 :- c.Skip(1);
      var g :- c1.ReadU32();
      var k :- g.rest.ReadU32();
      Ok(Read(Some(GroupCondition(g.value, k.value)), k.rest))
  }

  function EventActionSpec(id: u32, c: Cursor): Result<Read<HircObject>>
  {
    var scope :- c.ReadU8();
    var at :- scope.rest.ReadU8();
    var target :- at.rest.ReadU32();
    var c1 :- target.rest.Skip(1);
    var n :- c1.ReadU8();
    var ps :- ActionParamsSpec(n.rest, n.value);
    var g :- GroupSpec(at.value, ps.rest);
    Ok(Read(EventAction(id, scope.value, at.value, target.value, ps.value, g.value), g.rest))
  }

  method ParseEventAction(id: u32, c0: Cursor) returns (r: Result<Read<HircObject>>)
    ensures r == EventActionSpec(id, c0)
  {
    var scope :- c0.ReadU8();
    var at :- scope.rest.ReadU8();
    var target :- at.rest.ReadU32();
    var c1 :- target.rest.Skip(1);
    var n :- c1.ReadU8();
    var c := n.rest;
    var params: seq<ActionParam> := [];
    PrependNothing(ActionParamsSpec(c, n.value));
    for i := 0 to n.value
      invariant ActionParamsSpec(n.rest, n.value) == Prepend(params, ActionParamsSpec(c, n.value - i))
    {
      var t :- c.ReadU8();
      var v :- t.rest.ReadU32();
      PrependTwice(params, [ActionParam(t.value, v.value)], ActionParamsSpec(v.rest, n.value - i - 1));
      params := params + [ActionParam(t.value, v.value)];
      c := v.rest;
    }
    PrependAll(params, c);
    var g :- GroupSpec(at.value, c);
    r := Ok(Read(EventAction(id, scope.value, at.value, target.value, params, g.value), g.rest));
  }

  // ---------------------------------------------------------------------
  // Event (type 4)

  function EventSpec(id: u32, c: Cursor): Result<Read<HircObject>>
  {
    var n :- c.ReadU8();
    if n.value == 0 then Ok(Read(Event(id, 0, None), n.rest))
    else
      var ids :- n.rest.ReadU32s(n.value);
      Ok(Read(Event(id, n.value, Some(ids.value)), ids.rest))
  }

  // ---------------------------------------------------------------------
  // Container (type 5) and switch container (type 6)

  /** The parameter type tags: `${n}B`, or nothing when `n` is 0. */
  function TagsSpec(c: Cursor, n: byte): Result<Read<seq<byte>>>
  {
    if n == 0 then Ok(Read([], c)) else c.ReadBytes(n)
  }

  /** The extra bytes of one parameter. In a container, addition 3 reads one
      byte and addition 2 two u32 values and a pad byte; 204 and 0 read
      nothing, and any other value only warns and reads nothing. In a
      switch container only addition 3 reads anything. */
  function ExtraSpec(addition: byte, inSwitch: bool, c: Cursor): Result<Read<Addition>>
  {
    if addition == 3 then
      var b :- c.ReadU8();
      Ok(Read(ExtraByte(b.value), b.rest))
    else if addition == 2 && !inSwitch then
      var x :- c.ReadU32();
      var y :- x.rest.ReadU32();
      var c1 :- y.rest.Skip(1);
      Ok(Read(ExtraPair(x.value, y.value), c1))
    else Ok(Read(NoExtra, c))
  }

  /** One parameter body (`HxB` and its extra bytes). */
  function ParamSpec(tag: byte, inSwitch: bool, c: Cursor): Result<Read<ContainerParam>>
  {
    var v :- c.ReadU16();
    var c1 :- v.rest.Skip(1);
    var a :- c1.ReadU8();
    var x :- ExtraSpec(a.value, inSwitch, a.rest);
    Ok(Read(ContainerParam(tag, v.value, a.value, x.value), x.rest))
  }

  function ParamsSpec(tags: seq<byte>, inSwitch: bool, c: Cursor): Result<Read<seq<ContainerParam>>>
    decreases |tags|
  {
    if tags == [] then Ok(Read([], c))
    else
      var p :- ParamSpec(tags[0], inSwitch, c);
      Prepend([p.value], ParamsSpec(tags[1..], inSwitch, p.rest))
  }

  /** The parameter table shared by both container kinds: 11 unknown bytes,
      a pad byte, the count, the type tags, 2 pad bytes, the bodies. */
  function ParamTableSpec(inSwitch: bool, c: Cursor): Result<Read<seq<ContainerParam>>>
  {
    var tags :- TableHeadSpec(c);
    ParamsSpec(tags.value, inSwitch, tags.rest)
  }

  /** The head of a parameter table, up to the first parameter body. */
  function TableHeadSpec(c: Cursor): Result<Read<seq<byte>>>
  {
    var c1 :- c.Skip(11);
    var c2 :- c1.Skip(1);
    var n :- c2.ReadU8();
    var tags :- TagsSpec(n.rest, n.value);
    var c3 :- tags.rest.Skip(2);
    Ok(Read(tags.value, c3))
  }

  /** The trailing block of unmodelled IDs and padding: 2+8+1+8+8+2+3+3 bytes. */
  const ContainerTrailer: nat := 2 + 4 + 4 + 1 + 4 + 4 + 4 + 4 + 2 + 2 + 1 + 2 + 1

  function ContainerSpec(id: u32, c: Cursor): Result<Read<HircObject>>
  {
    var ps :- ParamTableSpec(false, c);
    ContainerRestSpec(id, ps.value, ps.rest)
  }

  /** What follows a container's parameter table. */
  function ContainerRestSpec(id: u32, ps: seq<ContainerParam>, c: Cursor): Result<Read<HircObject>>
  {
    var c1 :- c.Skip(ContainerTrailer);
    var n :- c1.ReadU32();
    var ids := n.rest.ReadU32s(n.value);
    // A short child list is caught by the source, which leaves it unset.
    if ids.Ok? then Ok(Read(Container(id, ps, Some(ids.value.value)), ids.value.rest))
    else Ok(Read(Container(id, ps, None), n.rest))
  }

  /** The parameter loop shared by both container kinds. */
  method ParseParams(tags: seq<byte>, inSwitch: bool, c0: Cursor) returns (r: Result<Read<seq<ContainerParam>>>)
    ensures r == ParamsSpec(tags, inSwitch, c0)
  {
    var c := c0;
    var params: seq<ContainerParam> := [];
    PrependNothing(ParamsSpec(tags, inSwitch, c0));
    for i := 0 to |tags|
      invariant ParamsSpec(tags, inSwitch, c0) == Prepend(params, ParamsSpec(tags[i..], inSwitch, c))
    {
      assert tags[i..][1..] == tags[i + 1..];
      var p :- ParamSpec(tags[i], inSwitch, c);
      PrependTwice(params, [p.value], ParamsSpec(tags[i + 1..], inSwitch, p.rest));
      params := params + [p.value];
      c := p.rest;
    }
    assert tags[|tags|..] == [];
    PrependAll(params, c);
    r := Ok(Read(params, c));
  }

  method ParseContainer(id: u32, c0: Cursor) returns (r: Result<Read<HircObject>>)
    ensures r == ContainerSpec(id, c0)
  {
    var tags :- TableHeadSpec(c0);
    var ps :- ParseParams(tags.value, false, tags.rest);
    var c: Cursor;
    c :- ps.rest.Skip(ContainerTrailer);
    var count :- c.ReadU32();
    var ids := count.rest.ReadU32s(count.value);
    if ids.Ok? {
      r := Ok(Read(Container(id, ps.value, Some(ids.value.value)), ids.value.rest));
    } else {
      r := Ok(Read(Container(id, ps.value, None), count.rest));
    }
  }

  function SwitchesSpec(c: Cursor, n: nat): Result<Read<seq<SwitchBranch>>>
    decreases n
  {
    if n == 0 then Ok(Read([], c))
    else
      var b :- BranchSpec(c);
      Prepend([b.value], SwitchesSpec(b.rest, n - 1))
  }

  /** One switch: its ID, then its sound IDs, counted. */
  function BranchSpec(c: Cursor): Result<Read<SwitchBranch>>
  {
    var sid :- c.ReadU32();
    var m :- sid.rest.ReadU32();
    var members :- m.rest.ReadU32s(m.value);
    Ok(Read(SwitchBranch(sid.value, members.value), members.rest))
  }

  function SwitchContainerSpec(id: u32, c: Cursor): Result<Read<HircObject>>
  {
    var ps :- ParamTableSpec(true, c);
    SwitchRestSpec(id, ps.value, ps.rest)
  }

  /** What follows a switch container's parameter table: 12 unknown bytes,
      the group and default switch IDs, a pad byte, the sound IDs and the
      switches. */
  function SwitchRestSpec(id: u32, ps: seq<ContainerParam>, c: Cursor): Result<Read<HircObject>>
  {
    var c1 :- c.Skip(2 + 4 + 4 + 2);
    var g :- c1.ReadU32();
    var d :- g.rest.ReadU32();
    var c2 :- d.rest.Skip(1);
    var n :- c2.ReadU32();
    var ids :- n.rest.ReadU32s(n.value);
    var k :- ids.rest.ReadU32();
    var sws :- SwitchesSpec(k.rest, k.value);
    Ok(Read(SwitchContainer(id, ps, g.value, d.value, ids.value, sws.value), sws.rest))
  }

  /** The switch loop appends every branch both to the container's own
      list and to the synthesized objects, in the same order. */
  lemma SwitchesUnfold(c: Cursor, n: nat, sw: SwitchBranch, c1: Cursor)
    requires n > 0 && BranchSpec(c) == Ok(Read(sw, c1))
    ensures SwitchesSpec(c, n) == Prepend([sw], SwitchesSpec(c1, n - 1))
  {
  }

  method ParseSwitches(c0: Cursor, n: nat) returns (r: Result<Read<seq<SwitchBranch>>>, extras: seq<HircObject>)
    ensures r == SwitchesSpec(c0, n)
    ensures r.Ok? ==> extras == SwitchObjects(r.value.value)
  {
    var c := c0;
    var switches: seq<SwitchBranch> := [];
    extras := [];
    PrependNothing(SwitchesSpec(c0, n));
    for i := 0 to n
      invariant SwitchesSpec(c0, n) == Prepend(switches, SwitchesSpec(c, n - i))
      invariant extras == SwitchObjects(switches)
    {
      var sid := c.ReadU32();
      if sid.Err? { return Err(sid.fault), extras; }
      var m := sid.value.rest.ReadU32();
      if m.Err? { return Err(m.fault), extras; }
      var members := m.value.rest.ReadU32s(m.value.value);
      if members.Err? { return Err(members.fault), extras; }
      var sw := SwitchBranch(sid.value.value, members.value.value);
      SwitchesUnfold(c, n - i, sw, members.value.rest);
      assert SwitchesSpec(c, n - i) == Prepend([sw], SwitchesSpec(members.value.rest, n - i - 1));
      assert SwitchesSpec(c0, n) == Prepend(switches, Prepend([sw], SwitchesSpec(members.value.rest, n - i - 1)));
      PrependTwice(switches, [sw], SwitchesSpec(members.value.rest, n - i - 1));
      assert SwitchesSpec(c0, n) == Prepend(switches + [sw], SwitchesSpec(members.value.rest, n - i - 1));
      switches := switches + [sw];
      extras := extras + [Switch(sw.id, sw.members)];
      c := members.value.rest;
    }
    PrependAll(switches, c);
    r := Ok(Read(switches, c));
  }

  method ParseSwitchContainer(id: u32, c0: Cursor) returns (r: Result<Read<Decoded>>)
    ensures SwitchContainerSpec(id, c0).Ok? <==> r.Ok?
    ensures r.Err? ==> r.fault == SwitchContainerSpec(id, c0).fault
    ensures r.Ok? ==> r.value.rest == SwitchContainerSpec(id, c0).value.rest
    ensures r.Ok? ==> r.value.value == DecodedOf(SwitchContainerSpec(id, c0).value.value)
  {
    var tags :- TableHeadSpec(c0);
    var ps :- ParseParams(tags.value, true, tags.rest);
    var c: Cursor;
    c :- ps.rest.Skip(2 + 4 + 4 + 2);
    var g :- c.ReadU32();
    var d :- g.rest.ReadU32();
    c :- d.rest.Skip(1);
    var count :- c.ReadU32();
    var ids :- count.rest.ReadU32s(count.value);
    var k :- ids.rest.ReadU32();
    var sws, extras := ParseSwitches(k.rest, k.value);
    if sws.Err? {
      return Err(sws.fault);
    }
    r := Ok(Read(Decoded(Some(SwitchContainer(id, ps.value, g.value, d.value, ids.value, sws.value.value)), extras),
                 sws.value.rest));
  }

  // ---------------------------------------------------------------------
  // Dispatch

  function RecordSpec(id: u32, typeTag: byte, c: Cursor): Result<Decoded>
  {
    if typeTag == SoundType then var o :- SoundSpec(id, c); Ok(Decoded(Some(o.value), []))
    else if typeTag == EventActionType then var o :- EventActionSpec(id, c); Ok(Decoded(Some(o.value), []))
    else if typeTag == EventType then var o :- EventSpec(id, c); Ok(Decoded(Some(o.value), []))
    else if typeTag == ContainerType then var o :- ContainerSpec(id, c); Ok(Decoded(Some(o.value), []))
    else if typeTag == SwitchContainerType then
      var o :- SwitchContainerSpec(id, c); Ok(DecodedOf(o.value))
    else if typeTag == ActorMixerType || typeTag == AttenuationType then Ok(Decoded(None, []))
    else Ok(Decoded(Some(Passthrough(id, typeTag)), []))
  }

  /** `parseHIRCObject`: decode the record of the given type and ID from a
      cursor bounded to its body. Bytes left over in the body are not checked. */
  method ParseHircObject(id: u32, typeTag: byte, c: Cursor) returns (r: Result<Decoded>)
    ensures r == RecordSpec(id, typeTag, c)
  {
    if typeTag == SoundType {
      var o :- SoundSpec(id, c);
      r := Ok(Decoded(Some(o.value), []));
    } else if typeTag == EventActionType {
      var o :- ParseEventAction(id, c);
      r := Ok(Decoded(Some(o.value), []));
    } else if typeTag == EventType {
      var o :- EventSpec(id, c);
      r := Ok(Decoded(Some(o.value), []));
    } else if typeTag == ContainerType {
      var o :- ParseContainer(id, c);
      r := Ok(Decoded(Some(o.value), []));
    } else if typeTag == SwitchContainerType {
      var o :- ParseSwitchContainer(id, c);
      r := Ok(o.value);
    } else if typeTag == ActorMixerType || typeTag == AttenuationType {
      r := Ok(Decoded(None, []));
    } else {
      r := Ok(Decoded(Some(Passthrough(id, typeTag)), []));
    }
  }
}
