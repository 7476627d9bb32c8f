/** The body of a release manifest: table offsets stored relative to their own
    position, a chunk-by-ID index over the bundles, and the file list, whose
    full paths are rebuilt by walking each file's chain of parent directories.
    The table parsers that decode the bundles, languages, file entries and
    directories at a position are not part of this model: they are
    parameters (`Tables`) whose results the body combines. */
module ManifestBody {
  import opened Wrappers
  import opened Bytes
  import opened ByteCursor
  import Keyed

  // ---------------------------------------------------------------------
  // What the table parsers produce

  /** A chunk of a bundle; `idBundle` is set when the chunk is indexed. */
  datatype Chunk = Chunk(id: nat, size: nat, targetSize: nat, idBundle: Option<nat>)

  datatype Bundle = Bundle(id: nat, chunks: seq<Chunk>)

  datatype Lang = Lang(langID: nat, lang: string)

  /** A file entry; an `idDirectory` of 0 is falsy and means "no directory",
      and an absent list of languages or chunks reads as empty. */
  datatype FileEntry = FileEntry(id: nat, name: string, idDirectory: nat, link: string, sizeFile: nat,
                                 langIDs: Option<seq<nat>>, idsChunk: Option<seq<nat>>)

  /** A directory; a `parentID` of 0 is falsy and ends the walk. */
  datatype Directory = Directory(id: nat, name: string, parentID: nat)

  /** The table parser of each table, applied at the position sought. */
  datatype Tables = Tables(bundles: Cursor -> Result<seq<Bundle>>,
                           langs: Cursor -> Result<seq<Lang>>,
                           fileEntries: Cursor -> Result<seq<FileEntry>>,
                           directories: Cursor -> Result<seq<Directory>>)

  /** A file of the manifest, under its full path. A language or chunk ID
      missing from its map leaves `None` (`undefined`) in its place. */
  datatype File = File(id: nat, name: string, sizeFile: nat, link: string,
                       languages: seq<Option<string>>, fileChunks: seq<Option<Chunk>>, version: string)

  // ---------------------------------------------------------------------
  // Table offsets

  /** The number of offsets after the header. */
  const OffsetCount := 6

  /** The signed header length, the header skipped, then six signed offsets,
      each made absolute by adding the position of its own field. */
  function TableOffsets(buf: seq<byte>): (r: Result<seq<int>>)
    ensures r.Ok? ==> |r.value| == OffsetCount
  {
    var n :- Cursor(buf, 0).ReadI32();
    var c :- n.rest.Skip(n.value);
    Absolute(c, OffsetCount)
  }

  /** `k` signed offsets read from `c`, each added to its field's position:
      the `<6l` read, split one field at a time. */
  function Absolute(c: Cursor, k: nat): (r: Result<seq<int>>)
    ensures r.Ok? ==> |r.value| == k
    decreases k
  {
    if k == 0 then Ok([])
    else
      var d :- c.ReadI32();
      var rest :- Absolute(d.rest, k - 1);
      Ok([c.Tell() + d.value] + rest)
  }

  /** Where the offset fields start: after the length field and the header. */
  function OffsetsBase(buf: seq<byte>): int
    requires 4 <= |buf|
  {
    4 + I32At(buf, 0)
  }

  /** `k` fields fit exactly when `4 * k` bytes remain, and value `i` is the
      position of field `i` plus the signed value stored there. */
  lemma {:induction false} AbsoluteHolds(buf: seq<byte>, p: nat, k: nat)
    ensures Absolute(Cursor(buf, p), k).Ok? <==> k == 0 || p + 4 * k <= |buf|
    ensures Absolute(Cursor(buf, p), k).Ok? ==>
      forall i :: 0 <= i < k ==> Absolute(Cursor(buf, p), k).value[i] == p + 4 * i + I32At(buf, p + 4 * i)
    decreases k
  {
    if k > 0 && p + 4 <= |buf| {
      assert Cursor(buf, p).ReadI32() == Ok(Read(I32At(buf, p), Cursor(buf, p + 4)));
      AbsoluteHolds(buf, p + 4, k - 1);
      assert Absolute(Cursor(buf, p), k).Ok? <==> Absolute(Cursor(buf, p + 4), k - 1).Ok?;
      var r := Absolute(Cursor(buf, p), k);
      if r.Ok? {
        var rest := Absolute(Cursor(buf, p + 4), k - 1).value;
        assert r.value == [p + I32At(buf, p)] + rest;
        forall i | 0 < i < k ensures r.value[i] == p + 4 * i + I32At(buf, p + 4 * i) {
          assert r.value[i] == rest[i - 1];
        }
      }
    } else if k > 0 {
      assert Cursor(buf, p).ReadI32().Err?;
    }
  }

  /** The offsets read succeeds exactly when the header fits the buffer and
      six fields follow it, and offset `i` is its field's position plus the
      signed value stored there. */
  lemma TableOffsetsHold(buf: seq<byte>)
    ensures TableOffsets(buf).Ok? <==>
      4 <= |buf| && 0 <= OffsetsBase(buf) && OffsetsBase(buf) + 4 * OffsetCount <= |buf|
    ensures TableOffsets(buf).Ok? ==>
      forall i :: 0 <= i < OffsetCount ==>
        TableOffsets(buf).value[i] == OffsetsBase(buf) + 4 * i + I32At(buf, OffsetsBase(buf) + 4 * i)
  {
    if 4 <= |buf| {
      var base := OffsetsBase(buf);
      assert Cursor(buf, 0).ReadI32() == Ok(Read(I32At(buf, 0), Cursor(buf, 4)));
      if 0 <= base <= |buf| {
        assert Cursor(buf, 4).Skip(I32At(buf, 0)) == Ok(Cursor(buf, base));
        AbsoluteHolds(buf, base, OffsetCount);
      }
    }
  }

  /** The two's complement encoding of a signed 32-bit value. */
  function I32Le(v: int): (s: seq<byte>)
    requires -0x8000_0000 <= v < 0x8000_0000
  {
    U32Le(if v < 0 then v + TWO32 else v)
  }

  lemma I32RoundTrip(b: seq<byte>, i: nat, v: int)
    requires -0x8000_0000 <= v < 0x8000_0000
    requires i + 4 <= |b| && b[i..i + 4] == I32Le(v)
    ensures I32At(b, i) == v
  {
    U32RoundTrip(b, i, if v < 0 then v + TWO32 else v);
  }

  /** Field `i` holding the distance from itself to `p` leads to `p`. */
  lemma FieldLocates(buf: seq<byte>, base: nat, i: nat, p: int)
    requires base + 4 * i + 4 <= |buf|
    requires -0x8000_0000 <= p - (base + 4 * i) < 0x8000_0000 &&
      buf[base + 4 * i..base + 4 * i + 4] == I32Le(p - (base + 4 * i))
    ensures base + 4 * i + I32At(buf, base + 4 * i) == p
  {
    I32RoundTrip(buf, base + 4 * i, p - (base + 4 * i));
  }

  /** A table at absolute position `at[i]` is found when each field holds
      the distance from itself to its table. */
  lemma TableOffsetsLocate(buf: seq<byte>, base: nat, at: seq<int>)
    requires 4 <= |buf| && OffsetsBase(buf) == base && base + 4 * OffsetCount <= |buf|
    requires |at| == OffsetCount
    requires forall i :: 0 <= i < OffsetCount ==>
      -0x8000_0000 <= at[i] - (base + 4 * i) < 0x8000_0000 &&
      buf[base + 4 * i..base + 4 * i + 4] == I32Le(at[i] - (base + 4 * i))
    ensures TableOffsets(buf) == Ok(at)
  {
    TableOffsetsHold(buf);
    var offsets := TableOffsets(buf).value;
    forall i | 0 <= i < OffsetCount ensures offsets[i] == at[i] {
      FieldLocates(buf, base, i, at[i]);
    }
    assert offsets == at;
  }

  // ---------------------------------------------------------------------
  // The chunk index

  /** The chunks of a bundle, each tagged with the bundle's ID. */
  function TagAll(chunks: seq<Chunk>, idBundle: nat): (r: seq<Chunk>)
    ensures |r| == |chunks|
  {
    seq(|chunks|, i requires 0 <= i < |chunks| => chunks[i].(idBundle := Some(idBundle)))
  }

  function TagBundle(b: Bundle): Bundle
  {
    b.(chunks := TagAll(b.chunks, b.id))
  }

  /** The bundles once the loop has tagged all their chunks: each bundle in
      place, with its chunks tagged. */
  function TagBundles(bundles: seq<Bundle>): (r: seq<Bundle>)
    ensures |r| == |bundles|
    ensures forall j :: 0 <= j < |bundles| ==> r[j] == TagBundle(bundles[j])
  {
    if bundles == [] then []
    else TagBundles(bundles[..|bundles| - 1]) + [TagBundle(bundles[|bundles| - 1])]
  }

  /** The tagged chunks of all bundles, in the order the loop visits them. */
  function Tagged(bundles: seq<Bundle>): seq<Chunk>
  {
    if bundles == [] then []
    else Tagged(bundles[..|bundles| - 1]) + TagBundle(bundles[|bundles| - 1]).chunks
  }

  function ChunkID(c: Chunk): nat { c.id }

  function SameChunk(c: Chunk): Chunk { c }

  /** Chunk `j` repeats the ID of chunk `i`, the latest before it with that
      ID, and neither its size nor its target size matches. */
  predicate Clash(cs: seq<Chunk>, i: nat, j: nat)
  {
    i < j < |cs| && cs[i].id == cs[j].id && (forall k :: i < k < j ==> cs[k].id != cs[j].id) &&
    cs[i].size != cs[j].size && cs[i].targetSize != cs[j].targetSize
  }

  /** The chunk index the loop builds: each chunk stored under its ID, after
      asserting that a chunk already stored there has the same size or the
      same target size. */
  function ChunkMap(cs: seq<Chunk>): Result<map<nat, Chunk>>
  {
    if cs == [] then Ok(map[])
    else
      var m :- ChunkMap(cs[..|cs| - 1]);
      var c := cs[|cs| - 1];
      if c.id in m && m[c.id].size != c.size && m[c.id].targetSize != c.targetSize then Err(AssertionFailed)
      else Ok(m[c.id := c])
  }

  /** A clash among all but the last chunk is a clash among all chunks, and
      conversely. */
  lemma ClashInit(cs: seq<Chunk>, i: nat, j: nat)
    requires cs != [] && j < |cs| - 1
    ensures Clash(cs, i, j) <==> Clash(cs[..|cs| - 1], i, j)
  {
    var init := cs[..|cs| - 1];
    if Clash(cs, i, j) || Clash(init, i, j) {
      assert init[i] == cs[i] && init[j] == cs[j];
      forall k | i < k < j ensures init[k] == cs[k] { }
    }
  }

  /** The last chunk clashes only with the latest earlier chunk of its ID. */
  lemma ClashLast(cs: seq<Chunk>, i: nat, l: nat)
    requires cs != [] && l < |cs| - 1 && Keyed.LastWith(cs[..|cs| - 1], ChunkID, l)
    requires cs[l].id == cs[|cs| - 1].id
    ensures Clash(cs, i, |cs| - 1) ==> i == l
  {
    var n := |cs| - 1;
    var init := cs[..n];
    assert init[l] == cs[l];
    if i < n {
      assert init[i] == cs[i];
    }
  }

  /** The index is built exactly when no chunk clashes with the one stored
      before it under its ID, and it then maps every ID to the last chunk
      with that ID. */
  lemma {:induction false} ChunkMapHolds(cs: seq<Chunk>)
    ensures ChunkMap(cs).Ok? <==> forall i: nat, j: nat :: !Clash(cs, i, j)
    ensures ChunkMap(cs).Ok? ==> ChunkMap(cs).value == Keyed.Index(cs, ChunkID, SameChunk)
  {
    if cs != [] {
      var n := |cs| - 1;
      var init := cs[..n];
      var c := cs[n];
      ChunkMapHolds(init);
      if ChunkMap(init).Err? {
        var i: nat, j: nat :| Clash(init, i, j);
        ClashInit(cs, i, j);
      } else {
        var m := ChunkMap(init).value;
        forall i: nat, j: nat | j < n ensures Clash(cs, i, j) <==> Clash(init, i, j) {
          ClashInit(cs, i, j);
        }
        if c.id in m {
          Keyed.IndexWitness(init, ChunkID, SameChunk, c.id);
          var l: nat :| Keyed.LastWith(init, ChunkID, l) && ChunkID(init[l]) == c.id && m[c.id] == init[l];
          assert init[l] == cs[l];
          forall i: nat ensures Clash(cs, i, n) ==> i == l {
            ClashLast(cs, i, l);
          }
          if ChunkMap(cs).Err? {
            assert Clash(cs, l, n) by {
              forall k | l < k < n ensures cs[k].id != cs[n].id {
                assert init[k] == cs[k];
                assert ChunkID(init[k]) != ChunkID(init[l]);
              }
            }
          }
        } else {
          Keyed.IndexKeys(init, ChunkID, SameChunk);
          forall i: nat ensures !Clash(cs, i, n) {
            if i < n {
              assert init[i] == cs[i];
            }
          }
        }
      }
    }
  }

  /** Once the index fails, later chunks do not change the outcome. */
  lemma {:induction false} ChunkMapFails(xs: seq<Chunk>, ys: seq<Chunk>)
    requires ChunkMap(xs).Err?
    ensures ChunkMap(xs + ys) == ChunkMap(xs)
    decreases |ys|
  {
    if ys != [] {
      var init := ys[..|ys| - 1];
      ChunkMapFails(xs, init);
      assert (xs + ys)[..|xs + ys| - 1] == xs + init;
    } else {
      assert xs + ys == xs;
    }
  }

  /** A failure on a prefix of the chunks is the failure on all of them. */
  lemma ChunkMapPrefixFails(done: seq<Chunk>, tags: seq<Chunk>, i: nat)
    requires i <= |tags| && ChunkMap(done + tags[..i]).Err?
    ensures ChunkMap(done + tags) == ChunkMap(done + tags[..i])
  {
    var seen, rest := tags[..i], tags[i..];
    ChunkMapFails(done + seen, rest);
    assert seen + rest == tags;
    assert (done + seen) + rest == done + (seen + rest);
  }

  /** The tagged chunks of a sequence of bundles split as the bundles do. */
  lemma {:induction false} TaggedAppend(a: seq<Bundle>, b: seq<Bundle>)
    ensures Tagged(a + b) == Tagged(a) + Tagged(b)
    decreases |b|
  {
    if b == [] {
      assert a + b == a;
    } else {
      var n := |b| - 1;
      var init := b[..n];
      var last := TagBundle(b[n]).chunks;
      TaggedAppend(a, init);
      assert Tagged(a + b) == Tagged(a + init) + last by {
        assert (a + b)[..|a + b| - 1] == a + init;
        assert (a + b)[|a + b| - 1] == b[n];
      }
      assert Tagged(b) == Tagged(init) + last;
      assert (Tagged(a) + Tagged(init)) + last == Tagged(a) + (Tagged(init) + last);
    }
  }

  /** Every tagged chunk is a chunk of some bundle carrying that bundle's ID,
      and every chunk of every bundle appears tagged. */
  lemma {:induction false} TaggedHolds(bundles: seq<Bundle>)
    ensures forall c :: c in Tagged(bundles) <==>
      exists b, i :: 0 <= b < |bundles| && 0 <= i < |bundles[b].chunks| &&
        c == bundles[b].chunks[i].(idBundle := Some(bundles[b].id))
  {
    if bundles != [] {
      var n := |bundles| - 1;
      var init := bundles[..n];
      TaggedHolds(init);
      forall c ensures c in Tagged(bundles) <==>
        exists b, i :: 0 <= b < |bundles| && 0 <= i < |bundles[b].chunks| &&
          c == bundles[b].chunks[i].(idBundle := Some(bundles[b].id))
      {
        if c in Tagged(init) {
          var b, i :| 0 <= b < |init| && 0 <= i < |init[b].chunks| &&
            c == init[b].chunks[i].(idBundle := Some(init[b].id));
          assert init[b] == bundles[b];
        } else if c in TagBundle(bundles[n]).chunks {
          var i :| 0 <= i < |bundles[n].chunks| && TagBundle(bundles[n]).chunks[i] == c;
        }
        if exists b, i :: 0 <= b < |bundles| && 0 <= i < |bundles[b].chunks| &&
             c == bundles[b].chunks[i].(idBundle := Some(bundles[b].id)) {
          var b, i :| 0 <= b < |bundles| && 0 <= i < |bundles[b].chunks| &&
            c == bundles[b].chunks[i].(idBundle := Some(bundles[b].id));
          if b < n {
            assert init[b] == bundles[b];
          } else {
            assert TagBundle(bundles[n]).chunks[i] == c;
          }
        }
      }
    }
  }

  /** One more chunk: the loop step. */
  lemma ChunkMapSnoc(xs: seq<Chunk>, c: Chunk, m: map<nat, Chunk>)
    requires ChunkMap(xs) == Ok(m)
    ensures ChunkMap(xs + [c]) ==
      if c.id in m && m[c.id].size != c.size && m[c.id].targetSize != c.targetSize then Err(AssertionFailed)
      else Ok(m[c.id := c])
  {
    assert (xs + [c])[..|xs|] == xs;
  }

  /** The inner loop over one bundle's chunks: each is stored under its ID
      after the assertion, then tagged, in its bundle, with the bundle's ID. */
  method IndexBundle(bundle: Bundle, chunks0: map<nat, Chunk>, ghost done: seq<Chunk>)
    returns (r: Result<map<nat, Chunk>>, tagged: Bundle)
    requires ChunkMap(done) == Ok(chunks0)
    ensures r == ChunkMap(done + TagBundle(bundle).chunks)
    ensures r.Ok? ==> tagged == TagBundle(bundle)
  {
    ghost var tags := TagBundle(bundle).chunks;
    var chunks := chunks0;
    var taggedChunks := [];
    assert done + tags[..0] == done;
    for i := 0 to |bundle.chunks|
      invariant taggedChunks == tags[..i]
      invariant ChunkMap(done + tags[..i]) == Ok(chunks)
    {
      var chunk := bundle.chunks[i];
      var t := chunk.(idBundle := Some(bundle.id));
      assert tags[i] == t && tags[..i + 1] == tags[..i] + [t];
      assert done + tags[..i + 1] == (done + tags[..i]) + [t];
      ChunkMapSnoc(done + tags[..i], t, chunks);
      if chunk.id in chunks && chunks[chunk.id].size != chunk.size && chunks[chunk.id].targetSize != chunk.targetSize {
        r, tagged := Err(AssertionFailed), bundle;
        ChunkMapPrefixFails(done, tags, i + 1);
        return;
      }
      chunks := chunks[chunk.id := t];
      taggedChunks := taggedChunks + [t];
    }
    assert tags[..|bundle.chunks|] == tags;
    r, tagged := Ok(chunks), bundle.(chunks := taggedChunks);
  }

  /** The chunk-index loop over the bundles. */
  method IndexChunks(bundles0: seq<Bundle>) returns (r: Result<map<nat, Chunk>>, bundles: seq<Bundle>)
    ensures r == ChunkMap(Tagged(bundles0))
    ensures r.Ok? ==> bundles == TagBundles(bundles0)
  {
    bundles := [];
    var chunks: map<nat, Chunk> := map[];
    for b := 0 to |bundles0|
      invariant bundles == TagBundles(bundles0[..b])
      invariant ChunkMap(Tagged(bundles0[..b])) == Ok(chunks)
    {
      ghost var done := Tagged(bundles0[..b]);
      var step, tagged := IndexBundle(bundles0[b], chunks, done);
      assert bundles0[..b + 1][..b] == bundles0[..b];
      assert Tagged(bundles0[..b + 1]) == done + TagBundle(bundles0[b]).chunks;
      if step.Err? {
        r := step;
        TaggedAppend(bundles0[..b + 1], bundles0[b + 1..]);
        assert bundles0[..b + 1] + bundles0[b + 1..] == bundles0;
        ChunkMapFails(Tagged(bundles0[..b + 1]), Tagged(bundles0[b + 1..]));
        return;
      }
      chunks := step.value;
      bundles := bundles + [tagged];
    }
    assert bundles0[..|bundles0|] == bundles0;
    r := Ok(chunks);
  }

  // ---------------------------------------------------------------------
  // Languages and directories by ID

  function LangID(l: Lang): nat { l.langID }

  function LangName(l: Lang): string { l.lang }

  function DirID(d: Directory): nat { d.id }

  function SameDir(d: Directory): Directory { d }

  /** `langs[lang.langID] = lang.lang` for each language in order. */
  function LangMap(ls: seq<Lang>): map<nat, string>
  {
    Keyed.Index(ls, LangID, LangName)
  }

  /** `directories_id[directory.id] = directory` for each directory in order. */
  function DirMap(ds: seq<Directory>): map<nat, Directory>
  {
    Keyed.Index(ds, DirID, SameDir)
  }

  method IndexLangs(ls: seq<Lang>) returns (m: map<nat, string>)
    ensures m == LangMap(ls)
  {
    m := map[];
    for i := 0 to |ls|
      invariant m == Keyed.Index(ls[..i], LangID, LangName)
    {
      Keyed.IndexSnoc(ls, i, LangID, LangName);
      m := m[ls[i].langID := ls[i].lang];
    }
    assert ls[..|ls|] == ls;
  }

  method IndexDirectories(ds: seq<Directory>) returns (m: map<nat, Directory>)
    ensures m == DirMap(ds)
  {
    m := map[];
    for i := 0 to |ds|
      invariant m == Keyed.Index(ds[..i], DirID, SameDir)
    {
      Keyed.IndexSnoc(ds, i, DirID, SameDir);
      m := m[ds[i].id := ds[i]];
    }
    assert ds[..|ds|] == ds;
  }

  /** The images of a list of IDs under a map, `undefined` for a missing
      ID; an absent list reads as empty. */
  function Image<V>(ids: Option<seq<nat>>, m: map<nat, V>): (r: seq<Option<V>>)
    ensures ids.None? ==> r == []
    ensures ids.Some? ==> |r| == |ids.value|
    ensures ids.Some? ==> forall i :: 0 <= i < |r| ==>
      (r[i].Some? <==> ids.value[i] in m) && (r[i].Some? ==> r[i].value == m[ids.value[i]])
  {
    if ids.None? then [] else seq(|ids.value|, i requires 0 <= i < |ids.value| => Find(m, ids.value[i]))
  }

  function Find<V>(m: map<nat, V>, id: nat): Option<V>
  {
    if id in m then Some(m[id]) else None
  }

  /** A file's languages (or chunks) are all defined exactly when every
      listed ID is indexed, and the defined ones are exactly the indexed
      values of the listed IDs. */
  lemma ImageHolds<V>(ids: Option<seq<nat>>, m: map<nat, V>)
    ensures (forall i :: 0 <= i < |Image(ids, m)| ==> Image(ids, m)[i].Some?) <==>
      (ids.Some? ==> forall id :: id in ids.value ==> id in m)
    ensures forall v :: Some(v) in Image(ids, m) <==>
      ids.Some? && exists id :: id in ids.value && id in m && m[id] == v
  {
    var r := Image(ids, m);
    if ids.Some? {
      forall v ensures Some(v) in r <==> exists id :: id in ids.value && id in m && m[id] == v {
        if Some(v) in r {
          var i :| 0 <= i < |r| && r[i] == Some(v);
          assert ids.value[i] in ids.value;
        }
        if exists id :: id in ids.value && id in m && m[id] == v {
          var id :| id in ids.value && id in m && m[id] == v;
          var i :| 0 <= i < |ids.value| && ids.value[i] == id;
          assert r[i] == Some(v);
        }
      }
      if forall i :: 0 <= i < |r| ==> r[i].Some? {
        forall id | id in ids.value ensures id in m {
          var i :| 0 <= i < |ids.value| && ids.value[i] == id;
          assert r[i].Some?;
        }
      }
    }
  }

  // ---------------------------------------------------------------------
  // Full paths

  /** One step of the walk: the directory's name and its parent. A missing
      directory reads as an empty object, whose name prints as "undefined"
      and whose parent is falsy. */
  function Step(dirs: map<nat, Directory>, id: nat): (string, nat)
  {
    if id in dirs then (dirs[id].name, dirs[id].parentID) else ("undefined", 0)
  }

  /** The walk from directory `id` reaches a falsy ID within `k` steps. The
      loop has no cycle guard: on a cycle of directories it never returns,
      so every walk in this model is asked to end. */
  predicate Ends(dirs: map<nat, Directory>, id: nat, k: nat)
    decreases k
  {
    id == 0 || (k > 0 && Ends(dirs, Step(dirs, id).1, k - 1))
  }

  /** The name after the walk from directory `id`: each directory's name
      and a slash are put in front of it. */
  function Path(dirs: map<nat, Directory>, id: nat, name: string, k: nat): string
    requires Ends(dirs, id, k)
    decreases k
  {
    if id == 0 then name
    else Path(dirs, Step(dirs, id).1, Step(dirs, id).0 + "/" + name, k - 1)
  }

  /** Directory `x` is on the walk from `id` within `k` steps. */
  predicate Visits(dirs: map<nat, Directory>, id: nat, x: nat, k: nat)
    decreases k
  {
    id != 0 && (id == x || (k > 0 && Visits(dirs, Step(dirs, id).1, x, k - 1)))
  }

  /** Any bound within which the walk ends gives the same path. */
  lemma {:induction false} PathIgnoresBound(dirs: map<nat, Directory>, id: nat, name: string, k1: nat, k2: nat)
    requires Ends(dirs, id, k1) && Ends(dirs, id, k2)
    ensures Path(dirs, id, name, k1) == Path(dirs, id, name, k2)
    decreases k1
  {
    if id != 0 {
      PathIgnoresBound(dirs, Step(dirs, id).1, Step(dirs, id).0 + "/" + name, k1 - 1, k2 - 1);
    }
  }

  /** The directories only ever add in front: the path is the directory
      prefix of the walk followed by the file's own name. */
  lemma {:induction false} PathSuffix(dirs: map<nat, Directory>, id: nat, name: string, k: nat)
    requires Ends(dirs, id, k)
    ensures Path(dirs, id, name, k) == Path(dirs, id, "", k) + name
    decreases k
  {
    if id != 0 {
      var (d, p) := Step(dirs, id);
      PathSuffix(dirs, p, d + "/" + name, k - 1);
      PathSuffix(dirs, p, d + "/", k - 1);
      assert d + "/" + "" == d + "/";
      assert d + "/" + name == (d + "/") + name;
      assert Path(dirs, p, "", k - 1) + (d + "/" + name) == (Path(dirs, p, "", k - 1) + (d + "/")) + name;
    }
  }

  /** A walk that meets a missing directory ends there, and the path starts
      with "undefined/". */
  lemma {:induction false} PathMissing(dirs: map<nat, Directory>, id: nat, x: nat, name: string, k: nat)
    requires Ends(dirs, id, k) && Visits(dirs, id, x, k) && x !in dirs
    ensures "undefined/" <= Path(dirs, id, name, k)
    decreases k
  {
    var (d, p) := Step(dirs, id);
    if id == x {
      assert Path(dirs, id, name, k) == "undefined" + "/" + name;
    } else {
      PathMissing(dirs, p, x, d + "/" + name, k - 1);
    }
  }

  /** The `while` loop that rebuilds a file's path. */
  method BuildPath(dirs: map<nat, Directory>, idDirectory: nat, fileName: string, ghost k: nat)
    returns (name: string)
    requires Ends(dirs, idDirectory, k)
    ensures name == Path(dirs, idDirectory, fileName, k)
  {
    name := fileName;
    var id: nat := idDirectory;
    ghost var left: nat := k;
    while id != 0
      invariant Ends(dirs, id, left) && Path(dirs, id, name, left) == Path(dirs, idDirectory, fileName, k)
      decreases left
    {
      var directory := if id in dirs then Some(dirs[id]) else None;
      var dirName := if directory.Some? then directory.value.name else "undefined";
      id := if directory.Some? then directory.value.parentID else 0;
      name := dirName + "/" + name;
      left := left - 1;
    }
  }

  // ---------------------------------------------------------------------
  // The file list

  function FileOf(e: FileEntry, path: string, langs: map<nat, string>, chunks: map<nat, Chunk>, version: string): File
  {
    File(e.id, path, e.sizeFile, e.link, Image(e.langIDs, langs), Image(e.idsChunk, chunks), version)
  }

  /** The directory walk of every entry ends. */
  ghost predicate EntriesEnd(dirs: map<nat, Directory>, entries: seq<FileEntry>)
  {
    forall j :: 0 <= j < |entries| ==> exists k: nat :: Ends(dirs, entries[j].idDirectory, k)
  }

  /** The full path of an entry whose walk ends. */
  ghost function FullName(dirs: map<nat, Directory>, e: FileEntry): string
    requires exists k: nat :: Ends(dirs, e.idDirectory, k)
  {
    var k: nat :| Ends(dirs, e.idDirectory, k);
    Path(dirs, e.idDirectory, e.name, k)
  }

  /** The file built from each entry, in order. */
  ghost function FileList(entries: seq<FileEntry>, dirs: map<nat, Directory>, langs: map<nat, string>,
                          chunks: map<nat, Chunk>, version: string): (r: seq<File>)
    requires EntriesEnd(dirs, entries)
    ensures |r| == |entries|
  {
    seq(|entries|, j requires 0 <= j < |entries| =>
      FileOf(entries[j], FullName(dirs, entries[j]), langs, chunks, version))
  }

  function FileName(f: File): string { f.name }

  function SameFile(f: File): File { f }

  /** `files[name] = new File(...)` for each entry in order. */
  ghost function Files(entries: seq<FileEntry>, dirs: map<nat, Directory>, langs: map<nat, string>,
                       chunks: map<nat, Chunk>, version: string): map<string, File>
    requires EntriesEnd(dirs, entries)
  {
    Keyed.Index(FileList(entries, dirs, langs, chunks, version), FileName, SameFile)
  }

  /** Each file is stored under its own name. */
  lemma FilesNamed(entries: seq<FileEntry>, dirs: map<nat, Directory>, langs: map<nat, string>,
                   chunks: map<nat, Chunk>, version: string)
    requires EntriesEnd(dirs, entries)
    ensures forall n :: n in Files(entries, dirs, langs, chunks, version) ==>
      Files(entries, dirs, langs, chunks, version)[n].name == n
  {
    var list := FileList(entries, dirs, langs, chunks, version);
    forall n | n in Files(entries, dirs, langs, chunks, version)
      ensures Files(entries, dirs, langs, chunks, version)[n].name == n
    {
      Keyed.IndexWitness(list, FileName, SameFile, n);
    }
  }

  /** The keys are exactly the full paths of the entries. */
  lemma FilesKeys(entries: seq<FileEntry>, dirs: map<nat, Directory>, langs: map<nat, string>,
                  chunks: map<nat, Chunk>, version: string)
    requires EntriesEnd(dirs, entries)
    ensures forall j :: 0 <= j < |entries| ==> FullName(dirs, entries[j]) in Files(entries, dirs, langs, chunks, version)
    ensures forall n :: n in Files(entries, dirs, langs, chunks, version) ==>
      exists j :: 0 <= j < |entries| && FullName(dirs, entries[j]) == n
  {
    var list := FileList(entries, dirs, langs, chunks, version);
    Keyed.IndexKeys(list, FileName, SameFile);
    forall j | 0 <= j < |entries| ensures FullName(dirs, entries[j]) == FileName(list[j]) { }
  }

  /** A path holds the file of the last entry with that path. */
  lemma FilesLast(entries: seq<FileEntry>, dirs: map<nat, Directory>, langs: map<nat, string>,
                  chunks: map<nat, Chunk>, version: string, j: nat)
    requires EntriesEnd(dirs, entries) && j < |entries|
    requires forall i :: j < i < |entries| ==> FullName(dirs, entries[i]) != FullName(dirs, entries[j])
    ensures FullName(dirs, entries[j]) in Files(entries, dirs, langs, chunks, version)
    ensures Files(entries, dirs, langs, chunks, version)[FullName(dirs, entries[j])] ==
      FileOf(entries[j], FullName(dirs, entries[j]), langs, chunks, version)
  {
    var list := FileList(entries, dirs, langs, chunks, version);
    Keyed.IndexLast(list, FileName, SameFile);
    assert Keyed.LastWith(list, FileName, j) by {
      forall i | j < i < |list| ensures FileName(list[i]) != FileName(list[j]) {
        assert FileName(list[i]) == FullName(dirs, entries[i]);
      }
    }
  }

  /** The loop that merges the file entries with their directories. */
  method MergeFiles(entries: seq<FileEntry>, dirs: map<nat, Directory>, langs: map<nat, string>,
                    chunks: map<nat, Chunk>, version: string) returns (files: map<string, File>)
    requires EntriesEnd(dirs, entries)
    ensures files == Files(entries, dirs, langs, chunks, version)
  {
    ghost var list := FileList(entries, dirs, langs, chunks, version);
    files := map[];
    for i := 0 to |entries|
      invariant files == Keyed.Index(list[..i], FileName, SameFile)
    {
      var e := entries[i];
      ghost var k: nat :| Ends(dirs, e.idDirectory, k);
      var name := BuildPath(dirs, e.idDirectory, e.name, k);
      ghost var k': nat :| Ends(dirs, e.idDirectory, k') && FullName(dirs, e) == Path(dirs, e.idDirectory, e.name, k');
      PathIgnoresBound(dirs, e.idDirectory, e.name, k, k');
      var file := FileOf(e, name, langs, chunks, version);
      assert list[i] == file;
      Keyed.IndexSnoc(list, i, FileName, SameFile);
      files := files[name := file];
    }
    assert list[..|entries|] == list;
  }

  // ---------------------------------------------------------------------
  // The body

  /** Everything the body reads before the files are merged. */
  datatype Body = Body(bundles: seq<Bundle>, langs: map<nat, string>, chunks: map<nat, Chunk>,
                       fileEntries: seq<FileEntry>, directories: map<nat, Directory>)

  /** An absolute seek in the manifest's buffer. */
  function At(buf: seq<byte>, p: int): Result<Cursor>
  {
    Cursor(buf, 0).Seek(p)
  }

  /** The steps of the body up to the merge, in the order they run: the
      offsets, then each table at its offset, the chunk index between the
      languages and the file entries. */
  function Prepare(buf: seq<byte>, tables: Tables): Result<Body>
  {
    var offsets :- TableOffsets(buf);
    var c0 :- At(buf, offsets[0]);
    var bundles :- tables.bundles(c0);
    var c1 :- At(buf, offsets[1]);
    var langs :- tables.langs(c1);
    var chunks :- ChunkMap(Tagged(bundles));
    var c2 :- At(buf, offsets[2]);
    var entries :- tables.fileEntries(c2);
    var c3 :- At(buf, offsets[3]);
    var dirs :- tables.directories(c3);
    Ok(Body(TagBundles(bundles), LangMap(langs), chunks, entries, DirMap(dirs)))
  }

  /** When the body gets as far as the merge, every file's directory walk
      ends: the walk has no cycle guard, so on a cycle it never returns. */
  ghost predicate WalksEnd(prepared: Result<Body>)
  {
    prepared.Ok? ==> EntriesEnd(prepared.value.directories, prepared.value.fileEntries)
  }

  /** What parsing the body writes into a manifest. */
  datatype Fields = Fields(bundles: seq<Bundle>, langs: map<nat, string>, chunks: map<nat, Chunk>,
                           fileEntries: seq<FileEntry>, files: map<string, File>)

  /** The fields that a body prepared as `prepared` gives a manifest of
      `version`, once the files are merged. */
  ghost function Merged(prepared: Result<Body>, version: string): Result<Fields>
    requires WalksEnd(prepared)
  {
    var b :- prepared;
    Ok(Fields(b.bundles, b.langs, b.chunks, b.fileEntries,
              Files(b.fileEntries, b.directories, b.langs, b.chunks, version)))
  }

  /** A manifest: its buffer and version are given, and parsing the body
      fills in the remaining fields. */
  class Manifest {
    const buffer: seq<byte>
    const version: string
    /** What the body's steps up to the merge give; fixed when the manifest
        is made. */
    ghost const prepared: Result<Body>
    var bundles: seq<Bundle>
    var langs: map<nat, string>
    var chunks: map<nat, Chunk>
    var fileEntries: seq<FileEntry>
    var files: map<string, File>

    constructor(buffer: seq<byte>, version: string, ghost tables: Tables)
      ensures this.buffer == buffer && this.version == version && Ready(tables)
      ensures bundles == [] && langs == map[] && chunks == map[] && fileEntries == [] && files == map[]
    {
      this.buffer := buffer;
      this.version := version;
      this.prepared := Prepare(buffer, tables);
      bundles, langs, chunks, fileEntries, files := [], map[], map[], [], map[];
    }

    /** `prepared` holds what the body's steps give with `tables`. */
    ghost predicate Ready(tables: Tables)
    {
      prepared == Prepare(buffer, tables)
    }

    /** Parsing this manifest's body returns: it fails before the merge, or
        every file's directory walk ends. */
    ghost predicate Ends()
    {
      WalksEnd(prepared)
    }

    function State(): Fields
      reads this
    {
      Fields(bundles, langs, chunks, fileEntries, files)
    }

    /** The fields hold what parsing the body gives, and parsing succeeded. */
    ghost predicate Parsed()
      reads this
    {
      Ends() && prepared.Ok? && State() == Merged(prepared, version).value
    }

    /** Parses the body of this manifest. */
    method Parse(tables: Tables) returns (r: Result<()>)
      requires Ready(tables) && Ends()
      modifies this
      ensures r.Ok? <==> prepared.Ok?
      ensures r.Err? ==> r.fault == prepared.fault
      ensures r.Ok? ==> Parsed()
    {
      var offsets := TableOffsets(buffer);
      if offsets.Err? { return Err(offsets.fault); }
      var c0 := At(buffer, offsets.value[0]);
      if c0.Err? { return Err(c0.fault); }
      var bs := tables.bundles(c0.value);
      if bs.Err? { return Err(bs.fault); }
      bundles := bs.value;

      var c1 := At(buffer, offsets.value[1]);
      if c1.Err? { return Err(c1.fault); }
      var ls := tables.langs(c1.value);
      if ls.Err? { return Err(ls.fault); }
      langs := IndexLangs(ls.value);

      var indexed, tagged := IndexChunks(bundles);
      bundles := tagged;
      if indexed.Err? { return Err(indexed.fault); }
      chunks := indexed.value;

      var c2 := At(buffer, offsets.value[2]);
      if c2.Err? { return Err(c2.fault); }
      var es := tables.fileEntries(c2.value);
      if es.Err? { return Err(es.fault); }
      fileEntries := es.value;

      var c3 := At(buffer, offsets.value[3]);
      if c3.Err? { return Err(c3.fault); }
      var ds := tables.directories(c3.value);
      if ds.Err? { return Err(ds.fault); }
      var directories := IndexDirectories(ds.value);

      files := MergeFiles(fileEntries, directories, langs, chunks, version);
      r := Ok(());
    }
  }

  /** The bodies of the first `i` manifests get as far as the merge. */
  ghost predicate PreparedBelow(manifests: seq<Manifest>, i: nat)
    requires i <= |manifests|
  {
    forall j :: 0 <= j < i ==> manifests[j].prepared.Ok?
  }

  /** Every manifest that BodyParse reaches, because every manifest before
      it succeeded, has directory walks that end. */
  ghost predicate ReachedEnd(manifests: seq<Manifest>)
  {
    forall i :: 0 <= i < |manifests| && PreparedBelow(manifests, i) ==> manifests[i].Ends()
  }

  /** A manifest whose body fails before the merge ends BodyParse, so the
      manifests after it need no directory walks that end: a directory
      cycle there is never walked. */
  lemma ReachedUpToFailure(manifests: seq<Manifest>, i: nat)
    requires i < |manifests| && manifests[i].prepared.Err?
    requires forall j :: 0 <= j <= i ==> manifests[j].Ends()
    ensures ReachedEnd(manifests)
  {
    forall k | 0 <= k < |manifests| && PreparedBelow(manifests, k) ensures manifests[k].Ends() {
      if k > i {
        assert false;
      }
    }
  }

  /** `BodyParse`: the manifests in order, stopping at the first failure.
      On a failure the manifests before the failing one are parsed and the
      ones after it that were not met before are untouched. */
  method ParseAll(manifests: seq<Manifest>, tables: Tables) returns (r: Result<()>)
    requires forall m {:trigger m.Ready(tables)} :: m in manifests ==> m.Ready(tables)
    requires ReachedEnd(manifests)
    modifies set m | m in manifests
    ensures r.Ok? <==> forall m :: m in manifests ==> m.prepared.Ok?
    ensures r.Ok? ==> forall m :: m in manifests ==> m.Parsed()
    ensures r.Err? ==> exists i :: (0 <= i < |manifests| && manifests[i].prepared == Err(r.fault) &&
      (forall j :: 0 <= j < i ==> manifests[j].Parsed()) &&
      (forall j :: i < j < |manifests| && manifests[j] !in manifests[..i + 1] ==> unchanged(manifests[j])))
  {
    for i := 0 to |manifests|
      invariant forall j :: 0 <= j < i ==> manifests[j].Parsed()
      invariant forall j :: i <= j < |manifests| && manifests[j] !in manifests[..i] ==> unchanged(manifests[j])
    {
      assert PreparedBelow(manifests, i);
      r := ParseNext(manifests, i, tables);
      assert manifests[..i + 1] == manifests[..i] + [manifests[i]];
      if r.Err? {
        assert manifests[i].prepared == Err(r.fault);
        return;
      }
    }
    r := Ok(());
  }

  /** One step of BodyParse: the next manifest, the earlier ones left parsed. */
  method ParseNext(manifests: seq<Manifest>, i: nat, tables: Tables) returns (r: Result<()>)
    requires forall m {:trigger m.Ready(tables)} :: m in manifests ==> m.Ready(tables)
    requires i < |manifests| && manifests[i].Ends()
    requires forall j :: 0 <= j < i ==> manifests[j].Parsed()
    modifies manifests[i]
    ensures r.Ok? <==> manifests[i].prepared.Ok?
    ensures r.Err? ==> manifests[i].prepared == Err(r.fault)
    ensures forall j :: 0 <= j < i ==> manifests[j].Parsed()
    ensures r.Ok? ==> manifests[i].Parsed()
  {
    assert manifests[i] in manifests;
    r := manifests[i].Parse(tables);
  }
}
