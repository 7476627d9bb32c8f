/** The walk that expands the target of an event action into the audio IDs
    it reaches. An object is named by its index in the object table: the
    table holds distinct objects, and a switch container's own switches are
    the objects right after it (BankScan.SwitchesFollow), so "the same
    object" is "the same index". */
module AudioGraph {
  import opened Wrappers
  import opened Bytes
  import opened Hirc
  import opened BankScan

  // ---------------------------------------------------------------------
  // Looking objects up in the table

  /** `objects.find(o => o.id == id)`: the first index holding `id`. */
  function Find(objs: seq<HircObject>, id: u32): (r: Option<nat>)
    ensures r.Some? ==> r.value < |objs| && objs[r.value].id == id
    ensures r.Some? ==> forall k :: 0 <= k < r.value ==> objs[k].id != id
    ensures r.None? ==> forall k :: 0 <= k < |objs| ==> objs[k].id != id
  {
    FindFrom(objs, id, 0)
  }

  function FindFrom(objs: seq<HircObject>, id: u32, from: nat): (r: Option<nat>)
    requires from <= |objs|
    ensures r.Some? ==> from <= r.value < |objs| && objs[r.value].id == id
    ensures r.Some? ==> forall k :: from <= k < r.value ==> objs[k].id != id
    ensures r.None? ==> forall k :: from <= k < |objs| ==> objs[k].id != id
    decreases |objs| - from
  {
    if from == |objs| then None
    else if objs[from].id == id then Some(from)
    else FindFrom(objs, id, from + 1)
  }

  /** `objects.filter(o => ids.includes(o.id))`: the indices of the objects
      whose ID is listed, in table order. An ID no object has contributes
      nothing, and the list's own order and repeats do not matter. */
  function Members(objs: seq<HircObject>, ids: seq<u32>): (r: seq<nat>)
    ensures forall k: nat :: k in r <==> k < |objs| && objs[k].id in ids
    ensures Increasing(r) && InTable(objs, r)
  {
    MembersBelow(objs, ids, |objs|)
  }

  predicate Increasing(r: seq<nat>)
  {
    forall a, b :: 0 <= a < b < |r| ==> r[a] < r[b]
  }

  lemma IncreasingSnoc(r: seq<nat>, x: nat)
    requires Increasing(r) && forall k :: k in r ==> k < x
    ensures Increasing(r + [x])
  {
    forall a, b | 0 <= a < b < |r| + 1 ensures (r + [x])[a] < (r + [x])[b] {
      if b == |r| { assert r[a] in r; }
    }
  }

  function MembersBelow(objs: seq<HircObject>, ids: seq<u32>, n: nat): (r: seq<nat>)
    requires n <= |objs|
    ensures forall k: nat :: k in r <==> k < n && objs[k].id in ids
    ensures Increasing(r) && forall j :: 0 <= j < |r| ==> r[j] < n
  {
    if n == 0 then []
    else
      var init := MembersBelow(objs, ids, n - 1);
      if objs[n - 1].id in ids then IncreasingSnoc(init, n - 1); init + [n - 1] else init
  }

  /** The switch indices `from`, ..., `from + n - 1` that `ms` does not
      already hold, in order. */
  function Fresh(ms: seq<nat>, from: nat, n: nat): (r: seq<nat>)
    ensures forall k :: k in r <==> from <= k < from + n && k !in ms
    ensures Increasing(r) && forall j :: 0 <= j < |r| ==> from <= r[j] < from + n
  {
    if n == 0 then []
    else
      var init := Fresh(ms, from, n - 1);
      if from + n - 1 in ms then init else IncreasingSnoc(init, from + n - 1); init + [from + n - 1]
  }

  /** The objects the walk descends into from the object at `i`, in the
      order it visits them. A switch container visits the union of its
      listed children and its own switches: the children first, then the
      switches not among them (a JavaScript `Set` keeps first occurrences). */
  function Children(objs: seq<HircObject>, i: nat): (r: seq<nat>)
    requires SwitchesFollow(objs) && i < |objs|
    ensures InTable(objs, r)
  {
    match objs[i]
    case Container(_, _, ids) => if ids.Some? then Members(objs, ids.value) else []
    case Switch(_, ids) => Members(objs, ids)
    case SwitchContainer(_, _, _, _, ids, sws) =>
      assert FollowedBySwitches(objs, i);
      Members(objs, ids) + Fresh(Members(objs, ids), i + 1, |sws|)
    case _ => []
  }

  /** Every index in `ks` names an object of the table. */
  predicate InTable(objs: seq<HircObject>, ks: seq<nat>)
  {
    forall j :: 0 <= j < |ks| ==> ks[j] < |objs|
  }

  predicate Distinct(r: seq<nat>)
  {
    forall a, b :: 0 <= a < b < |r| ==> r[a] != r[b]
  }

  /** A switch container visits each object at most once: every table object
      it lists, and each of its own switches, which sit right after it. */
  lemma SwitchChildren(objs: seq<HircObject>, i: nat)
    requires SwitchesFollow(objs) && i < |objs| && objs[i].SwitchContainer?
    ensures Distinct(Children(objs, i))
    ensures forall k: nat :: k in Children(objs, i) <==>
      (k < |objs| && objs[k].id in objs[i].idsSound) || (i < k <= i + |objs[i].switches|)
    ensures forall j :: 0 <= j < |objs[i].switches| ==>
      objs[i + 1 + j] == Switch(objs[i].switches[j].id, objs[i].switches[j].members)
  {
    var ms := Members(objs, objs[i].idsSound);
    var fs := Fresh(ms, i + 1, |objs[i].switches|);
    assert Children(objs, i) == ms + fs;
    assert FollowedBySwitches(objs, i);
    forall a, b | 0 <= a < b < |ms + fs| ensures (ms + fs)[a] != (ms + fs)[b] {
      if b < |ms| {
        assert ms[a] < ms[b];
      } else if a >= |ms| {
        assert fs[a - |ms|] < fs[b - |ms|];
      } else {
        assert (ms + fs)[a] in ms && (ms + fs)[b] in fs;
      }
    }
  }

  // ---------------------------------------------------------------------
  // The walk

  /** `parseActionSoundObject` on the object at `i`. A sound yields its audio
      ID; a container, switch container or switch yields the audio IDs of
      its children, concatenated in visiting order; anything else yields
      nothing. A container whose child list is absent makes the source read
      `includes` of `undefined`. `fuel` is the call depth the engine still
      allows: a cycle of containers exhausts it. */
  function Walk(objs: seq<HircObject>, i: nat, fuel: nat): Result<seq<u32>>
    requires SwitchesFollow(objs) && i < |objs|
    decreases fuel, 0, 0
  {
    if fuel == 0 then Err(StackOverflow)
    else match objs[i]
      case Sound(_, _, audioID, _, _, _) => Ok([audioID])
      case Container(_, _, ids) =>
        if ids.None? then Err(TypeError) else WalkAll(objs, Children(objs, i), fuel - 1)
      case SwitchContainer(_, _, _, _, _, _) => WalkAll(objs, Children(objs, i), fuel - 1)
      case Switch(_, _) => WalkAll(objs, Children(objs, i), fuel - 1)
      case _ => Ok([])
  }

  /** The walks of `ks`, one after another, concatenated; the first failure
      ends the walk. */
  function WalkAll(objs: seq<HircObject>, ks: seq<nat>, fuel: nat): Result<seq<u32>>
    requires SwitchesFollow(objs) && InTable(objs, ks)
    decreases fuel, 1, |ks|
  {
    if ks == [] then Ok([])
    else
      match Walk(objs, ks[0], fuel)
      case Err(f) => Err(f)
      case Ok(a) =>
        match WalkAll(objs, ks[1..], fuel)
        case Err(f) => Err(f)
        case Ok(b) => Ok(a + b)
  }

  /** Audio ID `a` is among what the walk from `i` yields. */
  ghost predicate Yields(objs: seq<HircObject>, i: nat, fuel: nat, a: u32)
    requires SwitchesFollow(objs) && i < |objs|
  {
    Walk(objs, i, fuel).Ok? && a in Walk(objs, i, fuel).value
  }

  /** A successful run of walks is made of successful walks, and yields
      exactly what they yield. */
  lemma {:induction false} WalkAllHolds(objs: seq<HircObject>, ks: seq<nat>, fuel: nat)
    requires SwitchesFollow(objs) && InTable(objs, ks)
    requires WalkAll(objs, ks, fuel).Ok?
    ensures forall j :: 0 <= j < |ks| ==> Walk(objs, ks[j], fuel).Ok?
    ensures forall a :: a in WalkAll(objs, ks, fuel).value <==> exists j :: 0 <= j < |ks| && Yields(objs, ks[j], fuel, a)
    decreases |ks|
  {
    if ks != [] {
      var tail := ks[1..];
      WalkAllHolds(objs, tail, fuel);
      forall j | 1 <= j < |ks| ensures ks[j] == tail[j - 1] { }
    }
  }

  /** The reference reading of the walk: object `k` is reachable from `i`
      by descending into children, visiting at most `fuel` objects on the
      way down (`i` and `k` included). */
  ghost predicate Reaches(objs: seq<HircObject>, i: nat, k: nat, fuel: nat)
    requires SwitchesFollow(objs) && i < |objs|
    decreases fuel
  {
    fuel > 0 && (i == k || exists c :: c in Children(objs, i) && Reaches(objs, c, k, fuel - 1))
  }

  /** Object `k` is a sound whose audio ID is `a`. */
  predicate SoundAt(objs: seq<HircObject>, k: nat, a: u32)
  {
    k < |objs| && objs[k].Sound? && objs[k].audioID == a
  }

  /** A sound with audio ID `a` is reachable from `i`. */
  ghost predicate ReachesSound(objs: seq<HircObject>, i: nat, fuel: nat, a: u32)
    requires SwitchesFollow(objs) && i < |objs|
  {
    exists k: nat :: Reaches(objs, i, k, fuel) && SoundAt(objs, k, a)
  }

  /** Object `k` is a container whose child list is absent. */
  predicate Broken(objs: seq<HircObject>, k: nat)
  {
    k < |objs| && objs[k].Container? && objs[k].childIds.None?
  }

  /** One step of reachability: from a container, switch container or
      switch, a sound is reachable exactly when it is from one of the
      children. */
  lemma ReachesSoundStep(objs: seq<HircObject>, i: nat, fuel: nat, a: u32)
    requires SwitchesFollow(objs) && i < |objs| && fuel > 0
    requires objs[i].Container? || objs[i].SwitchContainer? || objs[i].Switch?
    ensures ReachesSound(objs, i, fuel, a) <==>
      exists j :: 0 <= j < |Children(objs, i)| && ReachesSound(objs, Children(objs, i)[j], fuel - 1, a)
  {
    var cs := Children(objs, i);
    if ReachesSound(objs, i, fuel, a) {
      var k: nat :| Reaches(objs, i, k, fuel) && SoundAt(objs, k, a);
      assert k != i;
      var c :| c in cs && Reaches(objs, c, k, fuel - 1);
      var j :| 0 <= j < |cs| && cs[j] == c;
      assert ReachesSound(objs, cs[j], fuel - 1, a);
    }
    if exists j :: 0 <= j < |cs| && ReachesSound(objs, cs[j], fuel - 1, a) {
      var j :| 0 <= j < |cs| && ReachesSound(objs, cs[j], fuel - 1, a);
      var k: nat :| Reaches(objs, cs[j], k, fuel - 1) && SoundAt(objs, k, a);
      assert cs[j] in cs;
      assert Reaches(objs, i, k, fuel);
    }
  }

  /** A walk that succeeds yields exactly the audio IDs of the sounds
      reachable from its start. */
  lemma {:induction false} WalkReaches(objs: seq<HircObject>, i: nat, fuel: nat)
    requires SwitchesFollow(objs) && i < |objs| && Walk(objs, i, fuel).Ok?
    ensures forall a :: a in Walk(objs, i, fuel).value <==> ReachesSound(objs, i, fuel, a)
    decreases fuel, 1
  {
    if objs[i].Container? || objs[i].SwitchContainer? || objs[i].Switch? {
      WalkReachesDown(objs, i, fuel);
    } else {
      assert Children(objs, i) == [];
      forall a ensures a in Walk(objs, i, fuel).value <==> ReachesSound(objs, i, fuel, a) {
        if ReachesSound(objs, i, fuel, a) {
          var k: nat :| Reaches(objs, i, k, fuel) && SoundAt(objs, k, a);
        }
        if a in Walk(objs, i, fuel).value {
          assert Reaches(objs, i, i, fuel) && SoundAt(objs, i, a);
        }
      }
    }
  }

  /** The case of WalkReaches for an object that descends into children. */
  lemma {:induction false} WalkReachesDown(objs: seq<HircObject>, i: nat, fuel: nat)
    requires SwitchesFollow(objs) && i < |objs| && Walk(objs, i, fuel).Ok?
    requires objs[i].Container? || objs[i].SwitchContainer? || objs[i].Switch?
    ensures forall a :: a in Walk(objs, i, fuel).value <==> ReachesSound(objs, i, fuel, a)
    decreases fuel, 0
  {
    var cs := Children(objs, i);
    var f := fuel - 1;
    assert Walk(objs, i, fuel) == WalkAll(objs, cs, f);
    WalkAllHolds(objs, cs, f);
    forall j | 0 <= j < |cs| ensures forall a :: Yields(objs, cs[j], f, a) <==> ReachesSound(objs, cs[j], f, a) {
      WalkReaches(objs, cs[j], f);
    }
    forall a ensures a in Walk(objs, i, fuel).value <==> ReachesSound(objs, i, fuel, a) {
      ReachesSoundStep(objs, i, fuel, a);
    }
  }

  /** A walk that succeeds meets no container without a child list. */
  lemma {:induction false} WalkNotBroken(objs: seq<HircObject>, i: nat, fuel: nat)
    requires SwitchesFollow(objs) && i < |objs| && Walk(objs, i, fuel).Ok?
    ensures forall k: nat :: Reaches(objs, i, k, fuel) ==> !Broken(objs, k)
    decreases fuel
  {
    if objs[i].Container? || objs[i].SwitchContainer? || objs[i].Switch? {
      var cs := Children(objs, i);
      var f := fuel - 1;
      assert Walk(objs, i, fuel) == WalkAll(objs, cs, f);
      WalkAllHolds(objs, cs, f);
      forall k: nat | Reaches(objs, i, k, fuel) ensures !Broken(objs, k) {
        if k != i {
          var c :| c in cs && Reaches(objs, c, k, f);
          var j :| 0 <= j < |cs| && cs[j] == c;
          WalkNotBroken(objs, c, f);
        }
      }
    } else {
      forall k: nat | Reaches(objs, i, k, fuel) ensures k == i {
        assert Children(objs, i) == [];
      }
    }
  }

  /** The depth bound does not change a walk that succeeds: any larger bound
      gives the same result. */
  lemma {:induction false} WalkMore(objs: seq<HircObject>, i: nat, f1: nat, f2: nat)
    requires SwitchesFollow(objs) && i < |objs| && f1 <= f2 && Walk(objs, i, f1).Ok?
    ensures Walk(objs, i, f2) == Walk(objs, i, f1)
    decreases f1, 0, 0
  {
    if objs[i].Container? || objs[i].SwitchContainer? || objs[i].Switch? {
      var cs := Children(objs, i);
      assert Walk(objs, i, f1) == WalkAll(objs, cs, f1 - 1);
      assert Walk(objs, i, f2) == WalkAll(objs, cs, f2 - 1);
      WalkAllMore(objs, cs, f1 - 1, f2 - 1);
    }
  }

  lemma {:induction false} WalkAllMore(objs: seq<HircObject>, ks: seq<nat>, f1: nat, f2: nat)
    requires SwitchesFollow(objs) && InTable(objs, ks)
    requires f1 <= f2 && WalkAll(objs, ks, f1).Ok?
    ensures WalkAll(objs, ks, f2) == WalkAll(objs, ks, f1)
    decreases f1, 1, |ks|
  {
    if ks != [] {
      WalkMore(objs, ks[0], f1, f2);
      WalkAllMore(objs, ks[1..], f1, f2);
    }
  }
}
