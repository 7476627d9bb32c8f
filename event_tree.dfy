/** `parseTree`, the pass of `parseBNK` that renders every event as an
    indented tree after both maps are built. The text it produces is left
    out; what matters to the result of `parseBNK` is whether the pass
    throws. It follows different edges from the audio walk: an event goes
    to its actions, an action to its target (whatever kind of object that
    is), and a container, switch container or switch to the first object of
    each ID it lists. Nothing guards against cycles. */
module EventTree {
  import opened Wrappers
  import opened Bytes
  import opened Hirc
  import opened AudioGraph

  /** The IDs `parseTree` looks up below an object, or None when the list it
      iterates is `undefined` (an event without actions, a container whose
      child list was not read). */
  function TreeIds(o: HircObject): Option<seq<u32>>
  {
    match o
    case Event(_, _, ids) => ids
    case EventAction(_, _, _, target, _, _) => Some([target])
    case Container(_, _, ids) => ids
    case SwitchContainer(_, _, _, _, ids, _) => Some(ids)
    case Switch(_, ids) => Some(ids)
    case _ => Some([])
  }

  /** `parseTree` on the object at `i`. `fuel` is the call depth the engine
      still allows; an ID that no object has is printed as unknown and not
      descended into. */
  function Node(objs: seq<HircObject>, i: nat, fuel: nat): Result<()>
    requires i < |objs|
    decreases fuel, 0, 0
  {
    if fuel == 0 then Err(StackOverflow)
    else match TreeIds(objs[i])
      case None => Err(TypeError)
      case Some(ids) => Visit(objs, ids, fuel - 1)
  }

  /** The calls for the IDs `ids`, in order; the first failure ends them. */
  function Visit(objs: seq<HircObject>, ids: seq<u32>, fuel: nat): Result<()>
    decreases fuel, 1, |ids|
  {
    if ids == [] then Ok(())
    else match Find(objs, ids[0])
      case None => Visit(objs, ids[1..], fuel)
      case Some(k) =>
        match Node(objs, k, fuel)
        case Err(f) => Err(f)
        case Ok(_) => Visit(objs, ids[1..], fuel)
  }

  // ---------------------------------------------------------------------
  // The reference reading: paths through the tree

  /** `parseTree` at `i` calls itself on the object at `k`. */
  predicate TreeChild(objs: seq<HircObject>, i: nat, k: nat)
    requires i < |objs|
  {
    TreeIds(objs[i]).Some? && exists id :: id in TreeIds(objs[i]).value && Find(objs, id) == Some(k)
  }

  /** A chain of exactly `s` calls leads from `i` to `k`. */
  ghost predicate Steps(objs: seq<HircObject>, i: nat, k: nat, s: nat)
    decreases s
  {
    i < |objs| && k < |objs| &&
    if s == 0 then i == k else exists c: nat :: TreeChild(objs, i, c) && Steps(objs, c, k, s - 1)
  }

  /** Every object the pass can meet below `i` has a list to iterate, and
      every chain of calls from `i` is shorter than `fuel`. */
  ghost predicate Renders(objs: seq<HircObject>, i: nat, fuel: nat)
  {
    forall k: nat, s: nat :: Steps(objs, i, k, s) ==> s < fuel && TreeIds(objs[k]).Some?
  }

  /** A run of calls succeeds exactly when each call on a found ID does. */
  lemma {:induction false} VisitHolds(objs: seq<HircObject>, ids: seq<u32>, fuel: nat)
    ensures Visit(objs, ids, fuel).Ok? <==>
      forall id, k: nat :: id in ids && Find(objs, id) == Some(k) ==> Node(objs, k, fuel).Ok?
    decreases |ids|
  {
    if ids != [] {
      VisitHolds(objs, ids[1..], fuel);
      assert forall id :: id in ids <==> id == ids[0] || id in ids[1..];
    }
  }

  /** The first call of a chain. */
  lemma StepsFirst(objs: seq<HircObject>, i: nat, k: nat, s: nat) returns (c: nat)
    requires s > 0 && Steps(objs, i, k, s)
    ensures i < |objs| && c < |objs| && TreeChild(objs, i, c) && Steps(objs, c, k, s - 1)
  {
    c :| TreeChild(objs, i, c) && Steps(objs, c, k, s - 1);
  }

  /** Chains compose. */
  lemma {:induction false} StepsAppend(objs: seq<HircObject>, i: nat, j: nat, k: nat, a: nat, b: nat)
    requires Steps(objs, i, j, a) && Steps(objs, j, k, b)
    ensures Steps(objs, i, k, a + b)
    decreases a
  {
    if a > 0 {
      var c: nat :| TreeChild(objs, i, c) && Steps(objs, c, j, a - 1);
      StepsAppend(objs, c, j, k, a - 1, b);
    }
  }

  /** A cycle can be walked round `m` times. */
  lemma {:induction false} StepsRepeat(objs: seq<HircObject>, i: nat, p: nat, m: nat)
    requires Steps(objs, i, i, p)
    ensures Steps(objs, i, i, p * m)
  {
    if m > 0 {
      StepsRepeat(objs, i, p, m - 1);
      StepsAppend(objs, i, i, i, p * (m - 1), p);
    }
  }

  /** The pass succeeds below `i` with `fuel` exactly when no object it meets
      has `undefined` to iterate and no chain of calls is `fuel` long. */
  lemma {:induction false} NodeRenders(objs: seq<HircObject>, i: nat, fuel: nat)
    requires i < |objs|
    ensures Node(objs, i, fuel).Ok? <==> Renders(objs, i, fuel)
    decreases fuel
  {
    if Node(objs, i, fuel).Ok? {
      forall k: nat, s: nat | Steps(objs, i, k, s) ensures s < fuel && TreeIds(objs[k]).Some? {
        NodeDeep(objs, i, k, s, fuel);
      }
    }
    if Renders(objs, i, fuel) {
      assert Steps(objs, i, i, 0);
      var ids := TreeIds(objs[i]).value;
      forall id, k: nat | id in ids && Find(objs, id) == Some(k) ensures Node(objs, k, fuel - 1).Ok? {
        assert TreeChild(objs, i, k);
        forall k': nat, s: nat | Steps(objs, k, k', s) ensures s < fuel - 1 && TreeIds(objs[k']).Some? {
          assert Steps(objs, i, k', s + 1);
        }
        NodeRenders(objs, k, fuel - 1);
      }
      VisitHolds(objs, ids, fuel - 1);
    }
  }

  /** A successful call had depth left. */
  lemma NodeFuel(objs: seq<HircObject>, i: nat, fuel: nat)
    requires i < |objs| && Node(objs, i, fuel).Ok?
    ensures fuel > 0
  {
  }

  /** A successful call succeeds on each object it calls itself on, with
      one less depth. */
  lemma NodeChild(objs: seq<HircObject>, i: nat, c: nat, fuel: nat)
    requires i < |objs| && Node(objs, i, fuel).Ok? && TreeChild(objs, i, c)
    ensures fuel > 0 && c < |objs| && Node(objs, c, fuel - 1).Ok?
  {
    var id :| id in TreeIds(objs[i]).value && Find(objs, id) == Some(c);
    VisitHolds(objs, TreeIds(objs[i]).value, fuel - 1);
  }

  /** The first call of a chain below a successful call succeeds. */
  lemma NodeStep(objs: seq<HircObject>, i: nat, k: nat, s: nat, fuel: nat) returns (c: nat)
    requires i < |objs| && Node(objs, i, fuel).Ok? && s > 0 && Steps(objs, i, k, s)
    ensures fuel > 0 && c < |objs| && Node(objs, c, fuel - 1).Ok? && Steps(objs, c, k, s - 1)
  {
    c := StepsFirst(objs, i, k, s);
    NodeChild(objs, i, c, fuel);
  }

  /** A successful call succeeds on every object a chain of `s` calls
      reaches, with `s` less depth. */
  lemma {:induction false} NodeDeep(objs: seq<HircObject>, i: nat, k: nat, s: nat, fuel: nat)
    requires i < |objs| && Node(objs, i, fuel).Ok? && Steps(objs, i, k, s)
    ensures s < fuel && Node(objs, k, fuel - s).Ok?
    decreases s
  {
    if s == 0 {
      NodeFuel(objs, i, fuel);
    } else {
      var c := NodeStep(objs, i, k, s, fuel);
      NodeDeep(objs, c, k, s - 1, fuel - 1);
    }
  }

  /** On a cycle the pass throws, however deep the engine lets it go. */
  lemma NodeCycle(objs: seq<HircObject>, i: nat, p: nat, fuel: nat)
    requires i < |objs| && p > 0 && Steps(objs, i, i, p)
    ensures Node(objs, i, fuel).Err?
  {
    if Node(objs, i, fuel).Ok? {
      StepsRepeat(objs, i, p, fuel);
      NodeDeep(objs, i, i, p * fuel, fuel);
    }
  }

  // ---------------------------------------------------------------------
  // The loop over the events

  /** The pass over the events among the first `n` objects, in table order;
      the first failure ends it. */
  function TreeBelow(objs: seq<HircObject>, depth: nat, n: nat): Result<()>
    requires n <= |objs|
  {
    if n == 0 then Ok(())
    else match TreeBelow(objs, depth, n - 1)
      case Err(f) => Err(f)
      case Ok(_) => if objs[n - 1].Event? then Node(objs, n - 1, depth) else Ok(())
  }

  /** The pass succeeds exactly when it does for every event. */
  lemma {:induction false} TreeBelowHolds(objs: seq<HircObject>, depth: nat, n: nat)
    requires n <= |objs|
    ensures TreeBelow(objs, depth, n).Ok? <==>
      forall e :: 0 <= e < n && objs[e].Event? ==> Renders(objs, e, depth)
  {
    if n > 0 {
      TreeBelowHolds(objs, depth, n - 1);
      NodeRenders(objs, n - 1, depth);
    }
  }

  /** An event from which the pass can come back round to an object it has
      already entered makes the pass throw. */
  lemma TreeBelowCycle(objs: seq<HircObject>, depth: nat, e: nat, i: nat, s: nat, p: nat)
    requires e < |objs| && objs[e].Event? && Steps(objs, e, i, s) && p > 0 && Steps(objs, i, i, p)
    ensures TreeBelow(objs, depth, |objs|).Err?
  {
    if TreeBelow(objs, depth, |objs|).Ok? {
      TreeBelowHolds(objs, depth, |objs|);
      NodeRenders(objs, e, depth);
      NodeDeep(objs, e, i, s, depth);
      NodeCycle(objs, i, p, depth - s);
    }
  }

  /** `for(const object of objects.filter(o => o instanceof HIRCEvent))
      parseTree(object, ...)`. */
  method RenderEvents(objs: seq<HircObject>, depth: nat) returns (r: Result<()>)
    ensures r == TreeBelow(objs, depth, |objs|)
  {
    for i := 0 to |objs|
      invariant TreeBelow(objs, depth, i) == Ok(())
    {
      if objs[i].Event? {
        match Node(objs, i, depth)
        case Err(f) =>
          TreeBelowFails(objs, depth, i + 1, |objs|);
          return Err(f);
        case Ok(()) =>
      }
    }
    return Ok(());
  }

  /** Once the pass fails, later objects do not change its fault. */
  lemma {:induction false} TreeBelowFails(objs: seq<HircObject>, depth: nat, n: nat, m: nat)
    requires n <= m <= |objs| && TreeBelow(objs, depth, n).Err?
    ensures TreeBelow(objs, depth, m) == TreeBelow(objs, depth, n)
    decreases m
  {
    if m > n {
      TreeBelowFails(objs, depth, n, m - 1);
    }
  }
}
