/** Event-name resolution: known names are hashed into a hash -> name table,
    and an event ID that is not in the table is followed through an
    external alias table until a name is found or the chain ends. */
module EventNames {
  import opened Wrappers
  import Fnv
  import Keyed

  /** The table key of a name: its FNV-1 hash as a number. */
  function Key(name: string): nat
  {
    Fnv.Fnv1(name) as int
  }

  function Itself(name: string): string { name }

  /** The hash -> name table built from `names` in order: each name is
      stored under its key, overwriting what an earlier name put there. */
  function HashTable(names: seq<string>): map<nat, string>
  {
    Keyed.Index(names, Key, Itself)
  }

  /** Every name's key is in the table, nothing else is, and a key holds the
      last name with that key: on a hash collision the later name wins. */
  lemma HashTableHolds(names: seq<string>)
    ensures forall j :: 0 <= j < |names| ==> Key(names[j]) in HashTable(names)
    ensures forall h :: h in HashTable(names) ==> exists j :: 0 <= j < |names| && Key(names[j]) == h
    ensures forall j: nat :: Keyed.LastWith(names, Key, j) ==> HashTable(names)[Key(names[j])] == names[j]
  {
    Keyed.IndexKeys(names, Key, Itself);
    Keyed.IndexLast(names, Key, Itself);
  }

  /** The loop that fills the hash -> name table, one name after another. */
  method BuildHashTable(names: seq<string>) returns (table: map<nat, string>)
    ensures table == HashTable(names)
  {
    table := map[];
    for i := 0 to |names|
      invariant table == HashTable(names[..i])
    {
      Keyed.IndexSnoc(names, i, Key, Itself);
      var h := Fnv.Hash(names[i]);
      table := table[h as int := names[i]];
    }
    assert names[..|names|] == names;
  }

  /** A table hit; an empty name is falsy in the source and counts as a miss. */
  function Lookup(table: map<nat, string>, id: nat): Option<string>
  {
    if id in table && table[id] != "" then Some(table[id]) else None
  }

  /** The alias of an ID; a missing entry and an alias of 0 both end the chain. */
  function Alias(aliases: map<nat, nat>, id: nat): nat
  {
    if id in aliases then aliases[id] else 0
  }

  /** The resolution loop stops at `id`: a hit, or no alias to follow. */
  predicate Stops(table: map<nat, string>, aliases: map<nat, nat>, id: nat)
  {
    Lookup(table, id).Some? || Alias(aliases, id) == 0
  }

  /** The ID reached after `j` alias steps from `id`. */
  function Chain(aliases: map<nat, nat>, id: nat, j: nat): nat
    decreases j
  {
    if j == 0 then id else Chain(aliases, Alias(aliases, id), j - 1)
  }

  /** The resolution loop started at `id` stops within `k` alias steps. The
      source has no cycle guard: on an alias cycle without a hit it never
      returns, so every resolution in this model is asked to stop. */
  predicate Settles(table: map<nat, string>, aliases: map<nat, nat>, id: nat, k: nat)
    decreases k
  {
    Stops(table, aliases, id) || (k > 0 && Settles(table, aliases, Alias(aliases, id), k - 1))
  }

  ghost predicate Terminates(table: map<nat, string>, aliases: map<nat, nat>, id: nat)
  {
    exists k: nat :: Settles(table, aliases, id, k)
  }

  /** What the resolution loop returns: the first hit along the alias chain. */
  function Resolve(table: map<nat, string>, aliases: map<nat, nat>, id: nat, k: nat): Option<string>
    requires Settles(table, aliases, id, k)
    decreases k
  {
    if Stops(table, aliases, id) then Lookup(table, id)
    else Resolve(table, aliases, Alias(aliases, id), k - 1)
  }

  /** `getEventFull`: look the ID up; while there is no hit and an alias
      exists, replace the ID by its alias and look again. `k` bounds the
      number of alias steps and exists only for the proof. */
  method GetEventFull(table: map<nat, string>, aliases: map<nat, nat>, id: nat, ghost k: nat)
    returns (name: Option<string>)
    requires Settles(table, aliases, id, k)
    ensures name == Resolve(table, aliases, id, k)
  {
    var cur := id;
    ghost var fuel := k;
    name := Lookup(table, cur);
    while name.None? && Alias(aliases, cur) != 0
      invariant Settles(table, aliases, cur, fuel)
      invariant Resolve(table, aliases, cur, fuel) == Resolve(table, aliases, id, k)
      invariant name == Lookup(table, cur)
      decreases fuel
    {
      cur := Alias(aliases, cur);
      fuel := fuel - 1;
      name := Lookup(table, cur);
    }
  }

  /** `j` is the first number of alias steps after which the loop stops. */
  predicate FirstStop(table: map<nat, string>, aliases: map<nat, nat>, id: nat, j: nat)
  {
    && Stops(table, aliases, Chain(aliases, id, j))
    && forall j' :: 0 <= j' < j ==> !Stops(table, aliases, Chain(aliases, id, j'))
  }

  /** The reference reading of resolution: follow the chain to the first ID
      where the loop stops; the answer is the table's entry there, if any.
      In particular a direct hit wins (j = 0), and on a miss at the end of
      the chain no ID along it had a name. */
  lemma {:induction false} ResolveIsFirstStop(table: map<nat, string>, aliases: map<nat, nat>, id: nat, k: nat)
    returns (j: nat)
    requires Settles(table, aliases, id, k)
    ensures j <= k && FirstStop(table, aliases, id, j)
    ensures Resolve(table, aliases, id, k) == Lookup(table, Chain(aliases, id, j))
    decreases k
  {
    if Stops(table, aliases, id) {
      j := 0;
    } else {
      var next := Alias(aliases, id);
      var i := ResolveIsFirstStop(table, aliases, next, k - 1);
      j := i + 1;
      forall j' | 0 <= j' < j ensures !Stops(table, aliases, Chain(aliases, id, j')) {
        if j' > 0 {
          assert Chain(aliases, id, j') == Chain(aliases, next, j' - 1);
        }
      }
    }
  }

  /** The step bound is only a proof device: any bound that suffices gives the same name. */
  lemma {:induction false} ResolveIgnoresBound(table: map<nat, string>, aliases: map<nat, nat>, id: nat, k1: nat, k2: nat)
    requires Settles(table, aliases, id, k1) && Settles(table, aliases, id, k2)
    ensures Resolve(table, aliases, id, k1) == Resolve(table, aliases, id, k2)
    decreases k1
  {
    if !Stops(table, aliases, id) {
      ResolveIgnoresBound(table, aliases, Alias(aliases, id), k1 - 1, k2 - 1);
    }
  }

  /** The label an event is reported under: its resolved name, or else the
      numeric event ID itself (the source stores the number, not a string). */
  datatype EventLabel = Named(name: string) | Numeric(id: nat)

  function Label(resolved: Option<string>, id: nat): EventLabel
  {
    if resolved.Some? then Named(resolved.value) else Numeric(id)
  }
}
