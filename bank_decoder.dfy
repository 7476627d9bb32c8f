/** `parseBNK`: the sections of a bank are scanned into the object table;
    then every event's name is resolved, its actions are walked to the
    audio IDs they reach, and two maps are filled: audio ID -> labels of the
    events that reach it, and audio ID -> IDs of the sounds that play it. */
module BankDecoder {
  import opened Wrappers
  import opened Bytes
  import opened ByteCursor
  import opened Hirc
  import opened BankScan
  import opened AudioGraph
  import opened EventNames
  import opened EventTree

  // ---------------------------------------------------------------------
  // Maps of sets

  /** `(m[key] || (m[key] = new Set())).add(v)`. */
  function Add<V>(m: map<u32, set<V>>, key: u32, v: V): map<u32, set<V>>
  {
    m[key := (if key in m then m[key] else {}) + {v}]
  }

  /** `v` is in the set stored under `key`. */
  predicate Has<V>(m: map<u32, set<V>>, key: u32, v: V)
  {
    key in m && v in m[key]
  }

  /** Adding `v` under `key` adds exactly the pair (key, v). */
  lemma AddHas<V>(m: map<u32, set<V>>, key: u32, v: V)
    ensures forall k :: k in Add(m, key, v) <==> k in m || k == key
    ensures forall k, x :: Has(Add(m, key, v), k, x) <==> Has(m, k, x) || (k == key && x == v)
  {
  }

  /** `v` added under every key of `keys`, in order. */
  function AddAll<V>(m: map<u32, set<V>>, keys: seq<u32>, v: V): map<u32, set<V>>
  {
    if keys == [] then m else Add(AddAll(m, keys[..|keys| - 1], v), keys[|keys| - 1], v)
  }

  /** Adding `v` under `keys` adds exactly the pairs (key, v) and removes
      nothing; a key is present afterwards when it was before or is listed. */
  lemma {:induction false} AddAllHas<V>(m: map<u32, set<V>>, keys: seq<u32>, v: V)
    ensures forall key :: key in AddAll(m, keys, v) <==> key in m || key in keys
    ensures forall key, x :: Has(AddAll(m, keys, v), key, x) <==> Has(m, key, x) || (key in keys && x == v)
  {
    if keys != [] {
      var init := keys[..|keys| - 1];
      var last := keys[|keys| - 1];
      AddAllHas(m, init, v);
      AddHas(AddAll(m, init, v), last, v);
      assert keys == init + [last];
      assert forall key :: key in keys <==> key in init || key == last;
    }
  }

  // ---------------------------------------------------------------------
  // Events

  /** Every event the event pass reaches has a name resolution that stops:
      the alias loop has no cycle guard, so on a cycle without a hit it never
      returns. The pass reaches an event when every event before it
      succeeded; the names play no part in that. */
  ghost predicate EventsSettle(objs: seq<HircObject>, table: map<nat, string>, aliases: map<nat, nat>, depth: nat)
    requires SwitchesFollow(objs)
  {
    forall e :: 0 <= e < |objs| && objs[e].Event? && EventsOkBelow(objs, depth, e) ==>
      Terminates(table, aliases, objs[e].id as nat)
  }

  /** The label an event is reported under: its resolved name, or else its
      numeric ID. */
  ghost function NameOf(table: map<nat, string>, aliases: map<nat, nat>, id: u32): EventLabel
    requires Terminates(table, aliases, id as nat)
  {
    var k: nat :| Settles(table, aliases, id as nat, k);
    Label(Resolve(table, aliases, id as nat, k), id as nat)
  }

  /** The audio IDs one action of an event contributes. The action is the
      first object with the ID; a missing one makes the source read
      `idObject` of `undefined`. An object that is not an action has no
      `idObject`, so no target is found for it. A missing target only warns. */
  function ActionAudio(objs: seq<HircObject>, actionID: u32, depth: nat): Result<seq<u32>>
    requires SwitchesFollow(objs)
  {
    match Find(objs, actionID)
    case None => Err(TypeError)
    case Some(a) =>
      if !objs[a].EventAction? then Ok([])
      else match Find(objs, objs[a].idObject)
        case None => Ok([])
        case Some(t) => Walk(objs, t, depth)
  }

  /** The audio IDs of the actions `ids`, concatenated in order; the first
      failure ends the event. */
  function EventAudio(objs: seq<HircObject>, ids: seq<u32>, depth: nat): Result<seq<u32>>
    requires SwitchesFollow(objs)
  {
    if ids == [] then Ok([])
    else match EventAudio(objs, ids[..|ids| - 1], depth)
      case Err(f) => Err(f)
      case Ok(a) =>
        match ActionAudio(objs, ids[|ids| - 1], depth)
        case Err(f) => Err(f)
        case Ok(b) => Ok(a + b)
  }

  /** The audio IDs the event at `e` reaches; an event without an action
      list makes the source iterate `undefined`. */
  function EventResult(objs: seq<HircObject>, e: nat, depth: nat): Result<seq<u32>>
    requires SwitchesFollow(objs) && e < |objs| && objs[e].Event?
  {
    if objs[e].idsAction.None? then Err(TypeError) else EventAudio(objs, objs[e].idsAction.value, depth)
  }

  /** An event that fails ends the pass, so the events after it need no
      name resolution that stops: an alias cycle there is never met. */
  lemma SettleUpToFailure(objs: seq<HircObject>, table: map<nat, string>, aliases: map<nat, nat>,
                          depth: nat, e: nat)
    requires SwitchesFollow(objs) && e < |objs| && objs[e].Event? && EventResult(objs, e, depth).Err?
    requires forall d :: 0 <= d <= e && objs[d].Event? ==> Terminates(table, aliases, objs[d].id as nat)
    ensures EventsSettle(objs, table, aliases, depth)
  {
    forall e' | 0 <= e' < |objs| && objs[e'].Event? && EventsOkBelow(objs, depth, e')
      ensures Terminates(table, aliases, objs[e'].id as nat)
    {
      if e' > e {
        assert false;
      }
    }
  }

  /** Every event among the first `n` objects succeeds. */
  ghost predicate EventsOkBelow(objs: seq<HircObject>, depth: nat, n: nat)
    requires SwitchesFollow(objs) && n <= |objs|
  {
    forall d :: 0 <= d < n && objs[d].Event? ==> EventResult(objs, d, depth).Ok?
  }

  /** The audio ID -> event labels map after the events among the first `n`
      objects, in table order. It exists only once every one of those events
      succeeded, so the next event is reached. */
  ghost function EventMapBelow(objs: seq<HircObject>, table: map<nat, string>, aliases: map<nat, nat>,
                               depth: nat, n: nat): (r: Result<map<u32, set<EventLabel>>>)
    requires SwitchesFollow(objs) && EventsSettle(objs, table, aliases, depth) && n <= |objs|
    ensures r.Ok? ==> EventsOkBelow(objs, depth, n)
  {
    if n == 0 then Ok(map[])
    else match EventMapBelow(objs, table, aliases, depth, n - 1)
      case Err(f) => Err(f)
      case Ok(m) =>
        if !objs[n - 1].Event? then Ok(m)
        else match EventResult(objs, n - 1, depth)
          case Err(f) => Err(f)
          case Ok(audio) => Ok(AddAll(m, audio, NameOf(table, aliases, objs[n - 1].id)))
  }

  /** The audio ID -> sound IDs map after the first `n` objects. */
  function SoundMapBelow(objs: seq<HircObject>, n: nat): map<u32, set<u32>>
    requires n <= |objs|
  {
    if n == 0 then map[]
    else if objs[n - 1].Sound? then Add(SoundMapBelow(objs, n - 1), objs[n - 1].audioID, objs[n - 1].id)
    else SoundMapBelow(objs, n - 1)
  }

  datatype Maps = Maps(eventNames: map<u32, set<EventLabel>>, soundIds: map<u32, set<u32>>)

  /** Every event of the bank's table that the event pass reaches has a
      name resolution that stops. */
  ghost predicate Settled(buf: seq<byte>, names: seq<string>, aliases: map<nat, nat>, depth: nat)
  {
    ScanSpec(Cursor(buf, 0)).Ok? ==>
      (ScanFollow(Cursor(buf, 0));
       EventsSettle(ScanSpec(Cursor(buf, 0)).value, HashTable(names), aliases, depth))
  }

  /** What `parseBNK` returns for the bank `buf`, the known event names and
      the alias table; `depth` is the call depth the engine allows the walk. */
  ghost function BankSpec(buf: seq<byte>, names: seq<string>, aliases: map<nat, nat>, depth: nat): Result<Maps>
    requires Settled(buf, names, aliases, depth)
  {
    var scan := ScanSpec(Cursor(buf, 0));
    if scan.Err? then Err(scan.fault)
    else
      ScanFollow(Cursor(buf, 0));
      var objs := scan.value;
      var events := EventMapBelow(objs, HashTable(names), aliases, depth, |objs|);
      if events.Err? then Err(events.fault)
      else
        var tree := TreeBelow(objs, depth, |objs|);
        if tree.Err? then Err(tree.fault)
        else Ok(Maps(events.value, SoundMapBelow(objs, |objs|)))
  }

  // ---------------------------------------------------------------------
  // What the maps hold

  /** The sound at `k` plays audio `a` and has ID `s`. */
  predicate SoundIs(objs: seq<HircObject>, k: nat, a: u32, s: u32)
  {
    SoundAt(objs, k, a) && objs[k].id == s
  }

  /** The sound map holds exactly the pairs (audio ID, sound ID) of the sounds. */
  lemma {:induction false} SoundMapHolds(objs: seq<HircObject>, n: nat)
    requires n <= |objs|
    ensures forall a, s :: Has(SoundMapBelow(objs, n), a, s) <==> exists k: nat :: k < n && SoundIs(objs, k, a, s)
  {
    if n > 0 {
      var last := n - 1;
      SoundMapHolds(objs, last);
      if objs[last].Sound? {
        AddHas(SoundMapBelow(objs, last), objs[last].audioID, objs[last].id);
      }
      forall a, s ensures (exists k: nat :: k < n && SoundIs(objs, k, a, s)) <==>
        (exists k: nat :: k < last && SoundIs(objs, k, a, s)) || SoundIs(objs, last, a, s)
      {
        if exists k: nat :: k < n && SoundIs(objs, k, a, s) {
          var k: nat :| k < n && SoundIs(objs, k, a, s);
        }
        if SoundIs(objs, last, a, s) {
          assert last < n;
        }
      }
      forall a, s ensures Has(SoundMapBelow(objs, n), a, s) <==> Has(SoundMapBelow(objs, last), a, s) || SoundIs(objs, last, a, s) {
      }
    }
  }

  /** Action `actionID` leads to a target from which a sound with audio `a`
      is reachable. */
  ghost predicate ActionReaches(objs: seq<HircObject>, actionID: u32, depth: nat, a: u32)
    requires SwitchesFollow(objs)
  {
    var act := Find(objs, actionID);
    act.Some? && objs[act.value].EventAction? &&
    var t := Find(objs, objs[act.value].idObject);
    t.Some? && ReachesSound(objs, t.value, depth, a)
  }

  /** An action that succeeds yields exactly the audio IDs reachable from
      its target. */
  lemma ActionAudioReaches(objs: seq<HircObject>, actionID: u32, depth: nat)
    requires SwitchesFollow(objs) && ActionAudio(objs, actionID, depth).Ok?
    ensures forall a :: a in ActionAudio(objs, actionID, depth).value <==> ActionReaches(objs, actionID, depth, a)
  {
    var act := Find(objs, actionID);
    if objs[act.value].EventAction? {
      var t := Find(objs, objs[act.value].idObject);
      if t.Some? {
        WalkReaches(objs, t.value, depth);
      }
    }
  }

  /** The action IDs that lead to a sound with audio `a`. */
  ghost function Reachers(objs: seq<HircObject>, depth: nat, a: u32): iset<u32>
    requires SwitchesFollow(objs)
  {
    iset x: u32 | ActionReaches(objs, x, depth, a)
  }

  /** One of the actions `ids` reaches a sound with audio `a`. */
  ghost predicate SomeActionReaches(objs: seq<HircObject>, ids: seq<u32>, depth: nat, a: u32)
    requires SwitchesFollow(objs)
  {
    exists j :: 0 <= j < |ids| && ids[j] in Reachers(objs, depth, a)
  }

  /** Some element of `ids` lies in `good` iff one of all but the last does, or the last does. */
  lemma SomeInSnoc(ids: seq<u32>, init: seq<u32>, good: iset<u32>)
    requires ids != [] && init == ids[..|ids| - 1]
    ensures (exists j :: 0 <= j < |ids| && ids[j] in good) <==>
      (exists j :: 0 <= j < |init| && init[j] in good) || ids[|ids| - 1] in good
  {
    if exists j :: 0 <= j < |ids| && ids[j] in good {
      var j :| 0 <= j < |ids| && ids[j] in good;
      if j < |init| { assert init[j] == ids[j]; }
    }
    if exists j :: 0 <= j < |init| && init[j] in good {
      var j :| 0 <= j < |init| && init[j] in good;
      assert ids[j] == init[j];
    }
  }

  lemma SomeActionSnoc(objs: seq<HircObject>, ids: seq<u32>, depth: nat, a: u32)
    requires SwitchesFollow(objs) && ids != []
    ensures SomeActionReaches(objs, ids, depth, a) <==>
      SomeActionReaches(objs, ids[..|ids| - 1], depth, a) || ActionReaches(objs, ids[|ids| - 1], depth, a)
  {
    SomeInSnoc(ids, ids[..|ids| - 1], Reachers(objs, depth, a));
  }

  /** An event's actions that succeed yield exactly what each of them yields. */
  lemma {:induction false} EventAudioReaches(objs: seq<HircObject>, ids: seq<u32>, depth: nat)
    requires SwitchesFollow(objs) && EventAudio(objs, ids, depth).Ok?
    ensures forall a :: a in EventAudio(objs, ids, depth).value <==> SomeActionReaches(objs, ids, depth, a)
  {
    if ids != [] {
      var init := ids[..|ids| - 1];
      var last := ids[|ids| - 1];
      EventAudioReaches(objs, init, depth);
      ActionAudioReaches(objs, last, depth);
      forall a ensures a in EventAudio(objs, ids, depth).value <==> SomeActionReaches(objs, ids, depth, a) {
        SomeActionSnoc(objs, ids, depth, a);
      }
    }
  }

  /** The event at `e` reaches a sound with audio `a` through one of its
      actions. */
  ghost predicate EventReaches(objs: seq<HircObject>, e: nat, depth: nat, a: u32)
    requires SwitchesFollow(objs) && e < |objs| && objs[e].Event?
  {
    objs[e].idsAction.Some? && SomeActionReaches(objs, objs[e].idsAction.value, depth, a)
  }

  /** The event at `e` is labelled `l` and reaches audio `a`. */
  ghost predicate Tags(objs: seq<HircObject>, table: map<nat, string>, aliases: map<nat, nat>,
                       depth: nat, e: nat, a: u32, l: EventLabel)
    requires SwitchesFollow(objs)
  {
    e < |objs| && objs[e].Event? && EventReaches(objs, e, depth, a) &&
    Terminates(table, aliases, objs[e].id as nat) && l == NameOf(table, aliases, objs[e].id)
  }

  /** Some event among the first `n` objects is labelled `l` and reaches `a`. */
  ghost predicate TaggedBelow(objs: seq<HircObject>, table: map<nat, string>, aliases: map<nat, nat>,
                              depth: nat, n: nat, a: u32, l: EventLabel)
    requires SwitchesFollow(objs)
  {
    exists e :: 0 <= e < n && Tags(objs, table, aliases, depth, e, a, l)
  }

  lemma TaggedStep(objs: seq<HircObject>, table: map<nat, string>, aliases: map<nat, nat>,
                   depth: nat, n: nat, a: u32, l: EventLabel)
    requires SwitchesFollow(objs) && 0 < n
    ensures TaggedBelow(objs, table, aliases, depth, n, a, l) <==>
      TaggedBelow(objs, table, aliases, depth, n - 1, a, l) || Tags(objs, table, aliases, depth, n - 1, a, l)
  {
    if TaggedBelow(objs, table, aliases, depth, n, a, l) {
      var e :| 0 <= e < n && Tags(objs, table, aliases, depth, e, a, l);
    }
  }

  /** When the event pass succeeds, every event succeeded, and an audio ID's
      set holds exactly the labels of the events that reach it. */
  lemma {:induction false} EventMapHolds(objs: seq<HircObject>, table: map<nat, string>, aliases: map<nat, nat>,
                                         depth: nat, n: nat)
    requires SwitchesFollow(objs) && EventsSettle(objs, table, aliases, depth) && n <= |objs|
    requires EventMapBelow(objs, table, aliases, depth, n).Ok?
    ensures forall e :: 0 <= e < n && objs[e].Event? ==> EventResult(objs, e, depth).Ok?
    ensures forall a, l :: Has(EventMapBelow(objs, table, aliases, depth, n).value, a, l) <==>
      TaggedBelow(objs, table, aliases, depth, n, a, l)
  {
    if n > 0 {
      var last := n - 1;
      EventMapHolds(objs, table, aliases, depth, last);
      var m := EventMapBelow(objs, table, aliases, depth, last).value;
      if objs[last].Event? {
        var audio := EventResult(objs, last, depth).value;
        var l := NameOf(table, aliases, objs[last].id);
        AddAllHas(m, audio, l);
        EventAudioReaches(objs, objs[last].idsAction.value, depth);
        forall a, l' ensures Has(EventMapBelow(objs, table, aliases, depth, n).value, a, l') <==>
          TaggedBelow(objs, table, aliases, depth, n, a, l')
        {
          TaggedStep(objs, table, aliases, depth, n, a, l');
        }
      } else {
        forall a, l' ensures Has(EventMapBelow(objs, table, aliases, depth, n).value, a, l') <==>
          TaggedBelow(objs, table, aliases, depth, n, a, l')
        {
          TaggedStep(objs, table, aliases, depth, n, a, l');
        }
      }
    }
  }

  /** What `parseBNK` returns, when it returns: the audio IDs an event
      reaches carry its label, and nothing else does; the sound map holds the
      pairs (audio ID, sound ID) of the sounds of the bank. */
  lemma BankSpecHolds(buf: seq<byte>, names: seq<string>, aliases: map<nat, nat>, depth: nat)
    requires Settled(buf, names, aliases, depth) && BankSpec(buf, names, aliases, depth).Ok?
    ensures var objs := ScanSpec(Cursor(buf, 0)).value;
      SwitchesFollow(objs) && EventsSettle(objs, HashTable(names), aliases, depth) &&
      (forall a, l :: Has(BankSpec(buf, names, aliases, depth).value.eventNames, a, l) <==>
        TaggedBelow(objs, HashTable(names), aliases, depth, |objs|, a, l)) &&
      (forall a, s :: Has(BankSpec(buf, names, aliases, depth).value.soundIds, a, s) <==>
        exists k: nat :: k < |objs| && SoundIs(objs, k, a, s)) &&
      (forall e :: 0 <= e < |objs| && objs[e].Event? ==> Renders(objs, e, depth))
  {
    var objs := ScanSpec(Cursor(buf, 0)).value;
    ScanFollow(Cursor(buf, 0));
    EventMapHolds(objs, HashTable(names), aliases, depth, |objs|);
    SoundMapHolds(objs, |objs|);
    TreeBelowHolds(objs, depth, |objs|);
  }

  /** An event from which the tree pass can come back to where it was makes
      `parseBNK` throw, whatever the maps would have held. */
  lemma BankSpecCycle(buf: seq<byte>, names: seq<string>, aliases: map<nat, nat>, depth: nat, e: nat, i: nat, s: nat, p: nat)
    requires Settled(buf, names, aliases, depth) && ScanSpec(Cursor(buf, 0)).Ok?
    requires var objs := ScanSpec(Cursor(buf, 0)).value;
      e < |objs| && objs[e].Event? && Steps(objs, e, i, s) && p > 0 && Steps(objs, i, i, p)
    ensures BankSpec(buf, names, aliases, depth).Err?
  {
    TreeBelowCycle(ScanSpec(Cursor(buf, 0)).value, depth, e, i, s, p);
  }

  // ---------------------------------------------------------------------
  // The loops of parseBNK

  /** Once an action fails, the event fails with that fault. */
  lemma {:induction false} EventAudioFails(objs: seq<HircObject>, ids: seq<u32>, j: nat, depth: nat)
    requires SwitchesFollow(objs) && j <= |ids| && EventAudio(objs, ids[..j], depth).Err?
    ensures EventAudio(objs, ids, depth) == EventAudio(objs, ids[..j], depth)
    decreases |ids| - j
  {
    if j < |ids| {
      var init := ids[..|ids| - 1];
      assert init[..j] == ids[..j];
      EventAudioFails(objs, init, j, depth);
    } else {
      assert ids[..j] == ids;
    }
  }

  /** Once an event fails, the event pass fails with that fault. */
  lemma {:induction false} EventMapFails(objs: seq<HircObject>, table: map<nat, string>, aliases: map<nat, nat>,
                                         depth: nat, i: nat, n: nat)
    requires SwitchesFollow(objs) && EventsSettle(objs, table, aliases, depth) && i <= n <= |objs|
    requires EventMapBelow(objs, table, aliases, depth, i).Err?
    ensures EventMapBelow(objs, table, aliases, depth, n) == EventMapBelow(objs, table, aliases, depth, i)
    decreases n
  {
    if i < n {
      EventMapFails(objs, table, aliases, depth, i, n - 1);
    }
  }

  /** One more action extends what the event reaches. */
  lemma EventAudioSnoc(objs: seq<HircObject>, ids: seq<u32>, j: nat, depth: nat)
    requires SwitchesFollow(objs) && j < |ids|
    requires EventAudio(objs, ids[..j], depth).Ok? && ActionAudio(objs, ids[j], depth).Ok?
    ensures EventAudio(objs, ids[..j + 1], depth) ==
      Ok(EventAudio(objs, ids[..j], depth).value + ActionAudio(objs, ids[j], depth).value)
  {
    assert ids[..j + 1][..j] == ids[..j];
  }

  /** One turn of the loop over an event's actions: what the action at `j`
      reaches is appended, or its fault ends the event. */
  method AddAction(objs: seq<HircObject>, ids: seq<u32>, j: nat, depth: nat, audio: seq<u32>)
    returns (r: Result<seq<u32>>)
    requires SwitchesFollow(objs) && j < |ids| && EventAudio(objs, ids[..j], depth) == Ok(audio)
    ensures r == EventAudio(objs, ids[..j + 1], depth)
  {
    var action := ActionAudio(objs, ids[j], depth);
    if action.Err? {
      assert ids[..j + 1][..j] == ids[..j];
      return Err(action.fault);
    }
    EventAudioSnoc(objs, ids, j, depth);
    return Ok(audio + action.value);
  }

  /** The loop over an event's actions, collecting what each one reaches. */
  method CollectEventAudio(objs: seq<HircObject>, ids: seq<u32>, depth: nat) returns (r: Result<seq<u32>>)
    requires SwitchesFollow(objs)
    ensures r == EventAudio(objs, ids, depth)
  {
    var audio: seq<u32> := [];
    for j := 0 to |ids|
      invariant EventAudio(objs, ids[..j], depth) == Ok(audio)
    {
      r := AddAction(objs, ids, j, depth, audio);
      if r.Err? {
        EventAudioFails(objs, ids, j + 1, depth);
        return;
      }
      audio := r.value;
    }
    assert ids[..|ids|] == ids;
    return Ok(audio);
  }

  /** The loop that adds one label under each audio ID an event reaches. */
  method AddLabel(m0: map<u32, set<EventLabel>>, audio: seq<u32>, l: EventLabel)
    returns (m: map<u32, set<EventLabel>>)
    ensures m == AddAll(m0, audio, l)
  {
    m := m0;
    for j := 0 to |audio|
      invariant m == AddAll(m0, audio[..j], l)
    {
      assert audio[..j + 1][..j] == audio[..j];
      m := Add(m, audio[j], l);
    }
    assert audio[..|audio|] == audio;
  }

  /** One turn of the event pass, on the event at `i`: resolve its label,
      walk its actions, and add the label under every audio ID reached. */
  method AddEvent(objs: seq<HircObject>, table: map<nat, string>, aliases: map<nat, nat>, depth: nat,
                  i: nat, m: map<u32, set<EventLabel>>) returns (r: Result<map<u32, set<EventLabel>>>)
    requires SwitchesFollow(objs) && EventsSettle(objs, table, aliases, depth)
    requires i < |objs| && objs[i].Event? && EventMapBelow(objs, table, aliases, depth, i) == Ok(m)
    ensures r == EventMapBelow(objs, table, aliases, depth, i + 1)
  {
    var id := objs[i].id;
    ghost var k: nat :| Settles(table, aliases, id as nat, k);
    var name := GetEventFull(table, aliases, id as nat, k);
    var title := Label(name, id as nat);
    ghost var k' :| Settles(table, aliases, id as nat, k') &&
      NameOf(table, aliases, id) == Label(Resolve(table, aliases, id as nat, k'), id as nat);
    ResolveIgnoresBound(table, aliases, id as nat, k, k');
    if objs[i].idsAction.None? {
      return Err(TypeError);
    }
    var audio := CollectEventAudio(objs, objs[i].idsAction.value, depth);
    if audio.Err? {
      return Err(audio.fault);
    }
    var added := AddLabel(m, audio.value, title);
    return Ok(added);
  }

  /** The event pass: every event in table order. */
  method BuildEventMap(objs: seq<HircObject>, table: map<nat, string>, aliases: map<nat, nat>, depth: nat)
    returns (r: Result<map<u32, set<EventLabel>>>)
    requires SwitchesFollow(objs) && EventsSettle(objs, table, aliases, depth)
    ensures r == EventMapBelow(objs, table, aliases, depth, |objs|)
  {
    var m: map<u32, set<EventLabel>> := map[];
    for i := 0 to |objs|
      invariant EventMapBelow(objs, table, aliases, depth, i) == Ok(m)
    {
      if objs[i].Event? {
        r := AddEvent(objs, table, aliases, depth, i, m);
        if r.Err? {
          EventMapFails(objs, table, aliases, depth, i + 1, |objs|);
          return;
        }
        m := r.value;
      }
    }
    return Ok(m);
  }

  /** The sound pass: every sound's ID is added under its audio ID. */
  method BuildSoundMap(objs: seq<HircObject>) returns (m: map<u32, set<u32>>)
    ensures m == SoundMapBelow(objs, |objs|)
  {
    m := map[];
    for i := 0 to |objs|
      invariant m == SoundMapBelow(objs, i)
    {
      if objs[i].Sound? {
        m := Add(m, objs[i].audioID, objs[i].id);
      }
    }
  }

  /** `parseBNK` on the bank `buf`: scan the sections, hash the known event
      names, then build the two maps. */
  method ParseBnk(buf: seq<byte>, names: seq<string>, aliases: map<nat, nat>, depth: nat) returns (r: Result<Maps>)
    requires Settled(buf, names, aliases, depth)
    ensures r == BankSpec(buf, names, aliases, depth)
  {
    var scan := ScanBank(buf);
    if scan.Err? {
      return Err(scan.fault);
    }
    var objs := scan.value;
    ScanFollow(Cursor(buf, 0));
    var table := BuildHashTable(names);
    var events := BuildEventMap(objs, table, aliases, depth);
    if events.Err? {
      return Err(events.fault);
    }
    var sounds := BuildSoundMap(objs);
    var tree := RenderEvents(objs, depth);
    if tree.Err? {
      return Err(tree.fault);
    }
    return Ok(Maps(events.value, sounds));
  }
}
