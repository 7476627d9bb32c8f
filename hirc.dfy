/** The objects of a sound bank's HIRC section, and the byte layout of each
    record variant written as a pattern: a sequence of bytes in which the
    positions the decoder skips are holes. The patterns are the reference
    the decoder is proved against (see HircFormat). */
module Hirc {
  import opened Wrappers
  import opened Bytes

  const SoundType: byte := 2
  const EventActionType: byte := 3
  const EventType: byte := 4
  const ContainerType: byte := 5
  const SwitchContainerType: byte := 6
  /** Actor-mixer (7) and attenuation (14) records are ignored outright. */
  const ActorMixerType: byte := 7
  const AttenuationType: byte := 14

  /** Action types whose record carries a group and a condition ID. */
  predicate HasGroup(actionType: byte)
  {
    actionType == 0x12 || actionType == 0x19
  }

  datatype FileRef = FileRef(fileIndex: u32, fileLength: u32)
  datatype ActionParam = ActionParam(tag: byte, value: u32)
  datatype GroupCondition = GroupCondition(idGroup: u32, idCondition: u32)

  /** The extra bytes of a container parameter, chosen by its addition value. */
  datatype Addition = NoExtra | ExtraByte(b: byte) | ExtraPair(first: u32, second: u32)
  datatype ContainerParam = ContainerParam(typeTag: byte, value: u16, addition: byte, extra: Addition)

  /** A list whose length fits the u32 count written before it. */
  type CountedU32s = s: seq<u32> | |s| < TWO32

  datatype SwitchBranch = SwitchBranch(id: u32, members: CountedU32s)

  datatype HircObject =
    | Sound(id: u32, embedType: byte, audioID: u32, sourceID: u32, file: Option<FileRef>, soundType: u32)
    | EventAction(id: u32, scope: byte, actionType: byte, idObject: u32,
                  actionParams: seq<ActionParam>, group: Option<GroupCondition>)
      /** `idsAction` is absent when the record's count is 0. */
    | Event(id: u32, count: byte, idsAction: Option<seq<u32>>)
      /** `childIds` is absent when the child list ran past the record. */
    | Container(id: u32, params: seq<ContainerParam>, childIds: Option<seq<u32>>)
    | SwitchContainer(id: u32, params: seq<ContainerParam>, idGroup: u32, idSwitchDefault: u32,
                      idsSound: seq<u32>, switches: seq<SwitchBranch>)
      /** Synthesized from a branch of a switch container. */
    | Switch(id: u32, idsSound: seq<u32>)
      /** An unknown record type, kept with its ID and type only. */
    | Passthrough(id: u32, typeTag: byte)

  /** What decoding one record yields: at most one object of its own, and
      the objects synthesized from it, in order. */
  datatype Decoded = Decoded(primary: Option<HircObject>, extras: seq<HircObject>)

  function SwitchObjects(switches: seq<SwitchBranch>): (r: seq<HircObject>)
    ensures |r| == |switches|
    ensures forall j :: 0 <= j < |switches| ==> r[j] == Switch(switches[j].id, switches[j].members)
  {
    seq(|switches|, j requires 0 <= j < |switches| => Switch(switches[j].id, switches[j].members))
  }

  /** Objects that each stand for a switch branch. */
  predicate BranchObjects(objs: seq<HircObject>)
  {
    forall j :: 0 <= j < |objs| ==> objs[j].Switch? && |objs[j].idsSound| < TWO32
  }

  /** The branches that switch objects stand for. */
  function Branches(objs: seq<HircObject>): seq<SwitchBranch>
    requires BranchObjects(objs)
  {
    if objs == [] then [] else [SwitchBranch(objs[0].id, objs[0].idsSound)] + Branches(objs[1..])
  }

  /** No branch is lost or altered: a switch container's switch objects give
      back its branches, in order, and every sequence of branch objects is
      the switch objects of its branches. */
  lemma {:induction false} SwitchObjectsInverse(switches: seq<SwitchBranch>, objs: seq<HircObject>)
    requires BranchObjects(objs)
    ensures BranchObjects(SwitchObjects(switches)) && Branches(SwitchObjects(switches)) == switches
    ensures SwitchObjects(Branches(objs)) == objs
    decreases |switches| + |objs|
  {
    if switches != [] {
      assert SwitchObjects(switches)[1..] == SwitchObjects(switches[1..]);
      SwitchObjectsInverse(switches[1..], []);
    }
    if objs != [] {
      SwitchObjectsInverse([], objs[1..]);
      assert SwitchObjects(Branches(objs))[1..] == SwitchObjects(Branches(objs[1..]));
    }
  }

  // ---------------------------------------------------------------------
  // Well-formed objects: the ones some record decodes to.

  /** The extra bytes agree with the addition value. In a switch container
      only addition 3 carries an extra byte; in a container addition 2 also
      carries two u32 values. */
  predicate ParamOk(p: ContainerParam, inSwitch: bool)
  {
    if p.addition == 3 then p.extra.ExtraByte?
    else if p.addition == 2 && !inSwitch then p.extra.ExtraPair?
    else p.extra.NoExtra?
  }

  predicate WellFormed(o: HircObject)
  {
    match o
    case Sound(_, embedType, _, _, file, _) => file.Some? <==> embedType == 0
    case EventAction(_, _, actionType, _, ps, group) =>
      |ps| < 0x100 && (group.Some? <==> HasGroup(actionType))
    case Event(_, count, ids) =>
      (count == 0 <==> ids.None?) && (ids.Some? ==> |ids.value| == count)
    case Container(_, ps, ids) =>
      |ps| < 0x100 && (forall i :: 0 <= i < |ps| ==> ParamOk(ps[i], false))
      && ids.Some? && |ids.value| < TWO32
    case SwitchContainer(_, ps, _, _, ids, sws) =>
      |ps| < 0x100 && (forall i :: 0 <= i < |ps| ==> ParamOk(ps[i], true))
      && |ids| < TWO32 && |sws| < TWO32
    case Switch(_, _) => false
    case Passthrough(_, _) => false
  }

  // ---------------------------------------------------------------------
  // Byte patterns.

  /** A byte pattern: Some(b) is a byte that must be b, None a skipped byte. */
  type Pattern = seq<Option<byte>>

  /** `buf[pos..pos + |pat|]` exists and agrees with `pat` outside its holes. */
  predicate Fits(buf: seq<byte>, pos: nat, pat: Pattern)
  {
    pos + |pat| <= |buf| && forall i {:trigger pat[i]} :: 0 <= i < |pat| && pat[i].Some? ==> buf[pos + i] == pat[i].value
  }

  function Pad(n: nat): (p: Pattern)
    ensures |p| == n && forall i :: 0 <= i < n ==> p[i].None?
  {
    seq(n, i => None)
  }

  function U8P(b: byte): Pattern { [Some(b)] }

  function U16P(v: u16): (p: Pattern)
    ensures |p| == 2
  {
    var e := U16Le(v);
    [Some(e[0]), Some(e[1])]
  }

  function U32P(v: u32): (p: Pattern)
    ensures |p| == 4
  {
    var e := U32Le(v);
    [Some(e[0]), Some(e[1]), Some(e[2]), Some(e[3])]
  }

  function BytesP(bs: seq<byte>): (p: Pattern)
    ensures |p| == |bs|
  {
    seq(|bs|, i requires 0 <= i < |bs| => Some(bs[i]))
  }

  function U32sP(ws: seq<u32>): (p: Pattern)
    ensures |p| == 4 * |ws|
  {
    if ws == [] then [] else U32P(ws[0]) + U32sP(ws[1..])
  }

  function ExtraP(a: Addition): Pattern
  {
    match a
    case NoExtra => []
    case ExtraByte(b) => U8P(b)
    case ExtraPair(x, y) => U32P(x) + U32P(y) + Pad(1)
  }

  function ParamP(p: ContainerParam): Pattern
  {
    U16P(p.value) + Pad(1) + U8P(p.addition) + ExtraP(p.extra)
  }

  function ParamsP(ps: seq<ContainerParam>): Pattern
  {
    if ps == [] then [] else ParamP(ps[0]) + ParamsP(ps[1..])
  }

  function Tags(ps: seq<ContainerParam>): (r: seq<byte>)
    ensures |r| == |ps| && forall i :: 0 <= i < |ps| ==> r[i] == ps[i].typeTag
  {
    seq(|ps|, i requires 0 <= i < |ps| => ps[i].typeTag)
  }


  function ActionParamsP(ps: seq<ActionParam>): (p: Pattern)
    ensures |p| == 5 * |ps|
  {
    if ps == [] then [] else U8P(ps[0].tag) + U32P(ps[0].value) + ActionParamsP(ps[1..])
  }

  function SwitchesP(sws: seq<SwitchBranch>): Pattern
  {
    if sws == [] then []
    else BranchP(sws[0]) + SwitchesP(sws[1..])
  }

  function BranchP(sw: SwitchBranch): Pattern
  {
    U32P(sw.id) + U32P(|sw.members|) + U32sP(sw.members)
  }

  function FileP(f: Option<FileRef>): Pattern
  {
    if f.Some? then U32P(f.value.fileIndex) + U32P(f.value.fileLength) else []
  }

  function GroupP(g: Option<GroupCondition>): Pattern
  {
    if g.Some? then Pad(1) + U32P(g.value.idGroup) + U32P(g.value.idCondition) else []
  }

  /** The parameter table of both container kinds: 11 unknown bytes, a pad
      byte, the count, one type tag per parameter, 2 pad bytes, the bodies. */
  function ParamTableP(ps: seq<ContainerParam>): Pattern
    requires |ps| < 0x100
  {
    TableHeadP(Tags(ps)) + ParamsP(ps)
  }

  function TableHeadP(tags: seq<byte>): (p: Pattern)
    requires |tags| < 0x100
    ensures |p| == 15 + |tags|
  {
    Pad(11) + Pad(1) + U8P(|tags|) + BytesP(tags) + Pad(2)
  }

  /** After a container's parameter table: 35 unknown bytes, then the
      children, counted. */
  function ChildrenP(ids: seq<u32>): Pattern
    requires |ids| < TWO32
  {
    Pad(35) + U32P(|ids|) + U32sP(ids)
  }

  /** After a switch container's parameter table. */
  function SwitchRestP(g: u32, d: u32, ids: seq<u32>, sws: seq<SwitchBranch>): Pattern
    requires |ids| < TWO32 && |sws| < TWO32
  {
    Pad(12) + U32P(g) + U32P(d) + Pad(1) + U32P(|ids|) + U32sP(ids) + U32P(|sws|) + SwitchesP(sws)
  }

  /** The record body of a well-formed object, as the decoder reads it. */
  function Layout(o: HircObject): Pattern
    requires WellFormed(o)
  {
    match o
    case Sound(_, e, a, s, file, st) =>
      Pad(4) + U8P(e) + U32P(a) + U32P(s) + FileP(file) + U32P(st)
    case EventAction(_, scope, at, target, ps, group) =>
      U8P(scope) + U8P(at) + U32P(target) + Pad(1) + U8P(|ps|) + ActionParamsP(ps) + GroupP(group)
    case Event(_, count, ids) =>
      U8P(count) + (if ids.Some? then U32sP(ids.value) else [])
    case Container(_, ps, ids) =>
      ParamTableP(ps) + ChildrenP(ids.value)
    case SwitchContainer(_, ps, g, d, ids, sws) =>
      ParamTableP(ps) + SwitchRestP(g, d, ids, sws)
  }

  /** The record type tag under which a well-formed object is stored. */
  function TypeOf(o: HircObject): byte
    requires WellFormed(o)
  {
    match o
    case Sound(_, _, _, _, _, _) => SoundType
    case EventAction(_, _, _, _, _, _) => EventActionType
    case Event(_, _, _) => EventType
    case Container(_, _, _) => ContainerType
    case SwitchContainer(_, _, _, _, _, _) => SwitchContainerType
  }

  /** What decoding a well-formed object's record yields. */
  function DecodedOf(o: HircObject): Decoded
  {
    Decoded(Some(o), if o.SwitchContainer? then SwitchObjects(o.switches) else [])
  }
}
