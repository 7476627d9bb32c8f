# lol-vo-extract core, modelled in Dafny

This project models the three parsers that lol-vo-extract uses to get
voice-over audio out of League of Legends game files:

- **Sound-bank decoder** (`src/extract/05-parseBNK.js`). It scans the
  sections of a Wwise sound bank (`.bnk`) into an object table. Each record
  of the `HIRC` section is decoded as a sound, an event action, an event, a
  container, a switch container (with its switches) or a passthrough. Then it:
  - hashes the known event names with 32-bit FNV-1;
  - resolves each event's name through an alias table;
  - walks each event's actions down to the audio IDs they reach;
  - builds two maps: audio ID → labels of the events that reach it, and
    audio ID → IDs of the sounds that play it;
  - renders every event as a tree of the objects below it (`parseTree`),
    which can throw and then ends the whole parse.
- **Release-manifest body parser** (`BodyParse`, `src/parser/manifest/body.js`).
  It:
  - turns six self-relative signed table offsets into absolute positions;
  - indexes the chunks of every bundle by ID, asserting that a repeated ID
    has the same size or target size, and tags each chunk with its bundle;
  - rebuilds each file's full path by walking its parent directories;
  - merges the file entries into a dictionary keyed by full path.
- **WPK unpacker** (`src/extract/unzipWpk.js`). It reads the header and the
  entry-offset table, then for each entry reads its payload offset, its size
  and its UTF-16 name with the zero bytes stripped, and writes out the
  payload slice under that name.

Modules, one per file:

| file | module | contents |
|---|---|---|
| wrappers.dfy | Wrappers | `Option`, `Result` and the faults (underrun, assertion, type error, stack overflow) |
| bytes.dfy | Bytes | little-endian u16/u32/i32 over byte sequences |
| cursor.dfy | ByteCursor | the sequential reader as a value: skip, seek, reads, `sub` |
| fnv.dfy | Fnv | `fnv_1` |
| keyed.dfy | Keyed | dictionaries filled by `d[key(x)] = val(x)` loops (last write wins) |
| names.dfy | EventNames | the hash → name table and `getEventFull` |
| hirc.dfy | Hirc | the HIRC objects, and each record variant's byte layout as a pattern |
| hirc_decode.dfy | HircDecode | `parseHIRCObject`: one specification function per variant, and methods with the source's loops |
| hirc_format.dfy | HircFormat | decoding is sound and complete with respect to the layouts |
| bank_scan.dfy | BankScan | the section/record loop of `parseBNK`; every switch container is followed by its switches |
| bank_layout.dfy | BankLayout | a bank laid out from sections scans back to exactly their objects |
| audio_graph.dfy | AudioGraph | `parseActionSoundObject` as a walk over table indices, and what it reaches |
| event_tree.dfy | EventTree | `parseTree`: when the tree pass over the events throws |
| bank_decoder.dfy | BankDecoder | the event and sound maps of `parseBNK` |
| manifest.dfy | ManifestBody | `BodyParse`, with class `Manifest` for the fields it fills |
| wpk.dfy | Wpk | `unzipkWpk` |

The decoders work on a value cursor. Each read either returns its value and
the cursor after it, or fails with `Underrun`. Every record variant has two
definitions:
- a specification function that threads the cursor, which the methods with
  the source's loops are proved to compute;
- a byte pattern (`Hirc.Layout`) with holes where the decoder skips bytes.

A "sound" lemma says that a successful read matches the pattern and consumes
exactly its length. A "complete" lemma says that the pattern of any
well-formed object reads back as that object. `BankLayout.ScanComplete`
lifts this to whole banks, whatever unread bytes records carry and whatever
other sections sit between.

Where the source has an unbounded loop with no cycle guard, the model takes
a bound that exists only for the proof, and the operation requires that the
loop ends within it:
- alias chains (`EventNames.Settles`), required only of the events the event pass reaches, that is, those before the first event that fails (`BankDecoder.EventsSettle`);
- directory chains (`ManifestBody.Ends`).

The graph walk can recurse without end on a cycle of containers, and the
tree pass on any cycle of events, actions and containers. There the source
hits the engine's call-depth limit, so both take the allowed depth as fuel
and fail with `StackOverflow` when it runs out.

Failures of the source are explicit `Err` results:
- an underrun;
- the chunk-size assertion;
- an event without an action list;
- a missing action;
- a container whose child list was not read, met by the walk or by the
  tree pass;
- a WPK entry whose name is "", "." or "..", which `writeFileSync` aims at a
  directory.

## Model

Functions that only define a step of the source (`Bytes.U32sAt`,
`Fnv.LowerAscii`, `Fnv.CodeUnit`, `Hirc.SwitchObjects`, `ManifestBody.Image`,
`ManifestBody.FileList`, `EventTree.Node`, `Wpk.WriteEntry`, …) have no row;
the lemmas about them do.

| member | source | states |
|---|---|---|
| Bytes.I32At | src/parser/manifest/body.js:20-25 | format `<l` is a signed two's complement value: it lies in [-2^31, 2^31), and it is negative exactly when the top byte's high bit is set |
| Bytes.U16RoundTrip | src/extract/05-parseBNK.js:143 | the `H` field read back from its little-endian encoding is the value written |
| Bytes.U32RoundTrip | src/extract/05-parseBNK.js:65 | the `L` field read back from its little-endian encoding is the value written |
| Bytes.U32Canonical | src/extract/05-parseBNK.js:65 | conversely, any four bytes are exactly the encoding of the `L` value read from them |
| Bytes.U32sRoundTrip | src/extract/05-parseBNK.js:116 | an `${n}L` read of n values written little-endian, wherever they sit in the buffer, gives back the values written |
| Bytes.U32sCanonical | src/extract/05-parseBNK.js:116 | conversely, any 4n bytes are exactly the encoding of the n values an `${n}L` read takes from them |
| ByteCursor.Cursor.Sub | src/extract/05-parseBNK.js:380-389 | `sub(n)` succeeds iff n bytes remain; the child cursor starts at 0 over exactly those bytes, and the parent moves past them |
| Fnv.LowerAsciiCases | src/extract/05-parseBNK.js:39 | two names lower-case alike exactly when they differ only in the case of A–Z; lower-casing leaves no A–Z behind and is idempotent |
| Fnv.CodeUnitLeads | src/extract/05-parseBNK.js:39 | `charCodeAt(0)` is the first unit of the character's UTF-16 encoding, which decodes back to the character; it is a leading surrogate exactly beyond the Basic Multilingual Plane |
| Fnv.Hash | src/extract/05-parseBNK.js:35-46 | the loop over the characters computes the FNV-1 fold from the offset basis 0x811c9dc5, a 32-bit value |
| Fnv.Fnv1FromAppend | src/extract/05-parseBNK.js:38-43 | hashing is a left fold: the hash of a + b continues from the hash of a |
| Fnv.Fnv1FromIgnoresCase | src/extract/05-parseBNK.js:39 | from any state, folding a lower-cased name equals folding the name itself |
| Fnv.Fnv1IgnoresCase | src/extract/05-parseBNK.js:39 | names that differ only in the case of A–Z hash alike |
| Fnv.Fnv1CaseVariants | src/extract/05-parseBNK.js:35-46 | two names that differ only in the case of A–Z, character by character, get the same event ID |
| Fnv.Fnv1FromAscii | src/extract/05-parseBNK.js:38-43 | for ASCII names, the fold over code units equals the byte-wise FNV-1 fold over the lower-cased name's bytes |
| Fnv.Fnv1OfAsciiIsByteWise | src/extract/05-parseBNK.js:35-46 | for ASCII names `fnv_1` is the textbook byte-wise FNV-1 of the lower-cased UTF-8 bytes |
| Fnv.Fnv1PlayTest | src/extract/05-parseBNK.js:35-46 | regression vector: "Play_Test" hashes to 0xbdfd7fca |
| Keyed.IndexKeys | src/extract/05-parseBNK.js:410-412 | the keys of a dictionary filled in a loop are exactly the keys of the elements |
| Keyed.IndexLast | src/extract/05-parseBNK.js:410-412 | a key holds the value of the last element with that key |
| Keyed.IndexWitness | src/parser/manifest/body.js:57-59 | every key of the dictionary comes from a last element with that key, whose value it holds |
| Keyed.IndexSnoc | src/parser/manifest/body.js:57-59 | one more element overwrites the entry under its key and leaves the rest |
| EventNames.HashTableHolds | src/extract/05-parseBNK.js:410-412 | every name's hash is a key of the table, every key is some name's hash, and on a collision the later name wins |
| EventNames.BuildHashTable | src/extract/05-parseBNK.js:410-412 | the loop leaves the hash → name table of the names in order |
| EventNames.GetEventFull | src/extract/05-parseBNK.js:23-31 | the alias loop returns the resolution of the ID |
| EventNames.ResolveIsFirstStop | src/extract/05-parseBNK.js:23-31 | the resolution is the table entry at the first ID along the alias chain where the loop stops, so a direct hit wins and a miss means no ID on the chain had a name |
| EventNames.ResolveIgnoresBound | src/extract/05-parseBNK.js:26-28 | any step bound within which the loop stops gives the same name |
| Hirc.SwitchObjectsInverse | src/extract/05-parseBNK.js:249-258 | turning branches into `HIRCSwitch` objects loses and alters nothing: the objects give back the branches in order, and every run of switch objects is the image of its branches |
| HircDecode.ParseEventAction | src/extract/05-parseBNK.js:81-106 | the event-action reads and parameter loop compute the event-action specification |
| HircDecode.ParseParams | src/extract/05-parseBNK.js:141-157 | the parameter loop shared by both container kinds computes the parameter specification |
| HircDecode.ParseContainer | src/extract/05-parseBNK.js:120-189 | the container reads compute the container specification, the swallowed underrun of the child list included |
| HircDecode.SwitchesUnfold | src/extract/05-parseBNK.js:249-259 | a run of n switches is the first branch followed by a run of n - 1 |
| HircDecode.ParseSwitches | src/extract/05-parseBNK.js:248-259 | the switch loop computes the switch specification, and the extras pushed are the branches' switch objects, in the same order |
| HircDecode.ParseSwitchContainer | src/extract/05-parseBNK.js:191-260 | it fails exactly when the specification does, with the same fault; on success its result is the container followed by its switches |
| HircDecode.ParseHircObject | src/extract/05-parseBNK.js:59-269 | the dispatch computes the record specification of the given type |
| HircFormat.FileOk | src/extract/05-parseBNK.js:69-74 | file index and length are read exactly when the embed type is 0, and they fit the bytes they consume |
| HircFormat.SoundSound | src/extract/05-parseBNK.js:64-79 | a successful sound read is a well-formed sound whose layout fits the bytes and which consumes exactly that layout |
| HircFormat.SoundComplete | src/extract/05-parseBNK.js:64-79 | conversely, the layout of any well-formed sound reads back as that sound |
| HircFormat.SoundLength | src/extract/05-parseBNK.js:64-79 | a sound body is 17 bytes, or 25 when the file reference is present |
| HircFormat.ActionParamsOk | src/extract/05-parseBNK.js:91-97 | the parameter loop reads exactly countParam pairs of a tag byte and a u32, 5 bytes each |
| HircFormat.ActionParamsFits | src/extract/05-parseBNK.js:91-97 | conversely, any action parameters laid out that way read back |
| HircFormat.GroupOk | src/extract/05-parseBNK.js:100-105 | group and condition IDs are read exactly when the action type is 0x12 or 0x19 |
| HircFormat.GroupFits | src/extract/05-parseBNK.js:100-105 | conversely, a laid-out group condition reads back for those action types |
| HircFormat.EventActionSound | src/extract/05-parseBNK.js:81-106 | a successful event-action read is well formed, fits its layout and consumes exactly it |
| HircFormat.EventActionComplete | src/extract/05-parseBNK.js:81-106 | the layout of any well-formed event action reads back as it |
| HircFormat.EventActionLength | src/extract/05-parseBNK.js:81-106 | an event-action body is 8 bytes, plus 5 per parameter, plus 9 with a group condition |
| HircFormat.EventSound | src/extract/05-parseBNK.js:108-118 | a successful event read is well formed (no action list exactly when the count is 0), fits its layout and consumes exactly it |
| HircFormat.EventComplete | src/extract/05-parseBNK.js:108-118 | the layout of any well-formed event reads back as it |
| HircFormat.EventLength | src/extract/05-parseBNK.js:108-118 | an event body is the count byte and one u32 per action |
| HircFormat.TagsOk | src/extract/05-parseBNK.js:129-132 | the type-tag read yields exactly count bytes |
| HircFormat.ExtraOk | src/extract/05-parseBNK.js:143-156 | the extra bytes read agree with the addition value (3: one byte; 2 in a container: two u32 and a pad; anything else: nothing) |
| HircFormat.ExtraFits | src/extract/05-parseBNK.js:143-156 | conversely, extra bytes that agree with the addition value read back |
| HircFormat.ParamsOk | src/extract/05-parseBNK.js:141-157 | the parameter loop yields one valid body per type tag, in tag order, laid out one after the other |
| HircFormat.ParamsFits | src/extract/05-parseBNK.js:141-157 | conversely, valid bodies laid out in order read back under their tags |
| HircFormat.ParamTableOk | src/extract/05-parseBNK.js:125-157 | the parameter table read is at most 255 valid parameters and fits the table layout |
| HircFormat.ParamTableFits | src/extract/05-parseBNK.js:125-157 | conversely, a laid-out table of valid parameters reads back |
| HircFormat.ChildrenOk | src/extract/05-parseBNK.js:167-185 | after the table: 35 skipped bytes, a count and exactly that many child IDs |
| HircFormat.ChildrenFits | src/extract/05-parseBNK.js:167-185 | conversely, a laid-out child list reads back |
| HircFormat.ContainerSound | src/extract/05-parseBNK.js:120-189 | a container read with its child list is well formed, fits its layout and consumes exactly it |
| HircFormat.ContainerComplete | src/extract/05-parseBNK.js:120-189 | the layout of any well-formed container reads back as it |
| HircFormat.ContainerTruncated | src/extract/05-parseBNK.js:181-188 | the child list is left unset exactly when the count field lies in the record but the list it announces does not, and the cursor stays after the count |
| HircFormat.ContainerTruncatedComplete | src/extract/05-parseBNK.js:181-188 | conversely, such a record reads as a container without children |
| HircFormat.BranchOk | src/extract/05-parseBNK.js:252-255 | one switch is its ID, a count and that many sound IDs |
| HircFormat.SwitchesOk | src/extract/05-parseBNK.js:249-259 | the switch loop reads exactly countSwitch branches, laid out one after the other |
| HircFormat.SwitchesFits | src/extract/05-parseBNK.js:249-259 | conversely, laid-out branches read back |
| HircFormat.SwitchRestOk | src/extract/05-parseBNK.js:228-259 | after the table: 12 skipped bytes, group and default IDs, a pad byte, the counted sound IDs and the counted switches |
| HircFormat.SwitchRestFits | src/extract/05-parseBNK.js:228-259 | conversely, such a tail reads back |
| HircFormat.SwitchContainerSound | src/extract/05-parseBNK.js:191-260 | a successful switch-container read is well formed, fits its layout and consumes exactly it |
| HircFormat.SwitchContainerComplete | src/extract/05-parseBNK.js:191-260 | the layout of any well-formed switch container reads back as it |
| HircFormat.RecordSound | src/extract/05-parseBNK.js:59-268 | a decoded known record yields its object of that ID followed by exactly the switches it holds; the object is well formed, stored under that type and fits the body (except a container whose child list ran past the record) |
| HircFormat.RecordComplete | src/extract/05-parseBNK.js:59-268 | any well-formed object's record, under its type, decodes back to the object and its switches, whatever bytes follow |
| HircFormat.SwitchRecordComplete | src/extract/05-parseBNK.js:191-268 | a switch container's record decodes to it followed by its switches |
| HircFormat.PlainRecordComplete | src/extract/05-parseBNK.js:59-189 | every other variant's record decodes to the object alone, with no extras |
| BankScan.SectionSpec | src/extract/05-parseBNK.js:377-402 | a section read stays in the buffer and moves at least past its 8-byte header |
| BankScan.RepeatCons | src/extract/05-parseBNK.js:384-394 | a record followed by a run of n more is a run of n + 1, its objects first |
| BankScan.RepeatFail | src/extract/05-parseBNK.js:384-394 | a record that fails ends the run with its fault |
| BankScan.ParseFrame | src/extract/05-parseBNK.js:385-389 | `unpack('BLL')` and `sub(length - 4)` compute the record framing |
| BankScan.ParseRecordAt | src/extract/05-parseBNK.js:385-389 | one record is its framing, then its body decoded |
| BankScan.ParseNext | src/extract/05-parseBNK.js:384-394 | one turn of the record loop: a failure is the run's outcome, and otherwise the run continues with the record's objects appended |
| BankScan.ParseFrames | src/extract/05-parseBNK.js:382-394 | the record loop pushes each record's object, then its extras, in record order |
| BankScan.ParseSection | src/extract/05-parseBNK.js:377-402 | a `HIRC` section is read through a cursor bounded to its size; any other is skipped by its size |
| BankScan.ScanUnfold | src/extract/05-parseBNK.js:376-403 | the scan is the first section's objects followed by the scan of the rest |
| BankScan.ScanBank | src/extract/05-parseBNK.js:372-403 | the section loop runs until the cursor reaches the end and collects the objects in order |
| BankScan.RecordCoherent | src/extract/05-parseBNK.js:59-268 | a record decodes to nothing, or to one object followed by exactly its switches |
| BankScan.FollowAppend | src/extract/05-parseBNK.js:391-393 | tables in which each switch container is followed by its switches stay so when concatenated |
| BankScan.RepeatFollow | src/extract/05-parseBNK.js:384-394 | the objects of a run of records keep each switch container followed by its switches |
| BankScan.SectionFollow | src/extract/05-parseBNK.js:379-402 | so do the objects of one section |
| BankScan.ScanFollow | src/extract/05-parseBNK.js:376-403 | in the scanned table, the switch j of a container at index i is the object at i + 1 + j |
| BankLayout.ObjectDecodes | src/extract/05-parseBNK.js:59-268 | any body that starts with an object's layout decodes, under its type, to the object and its switches |
| BankLayout.EntryOfOk | src/extract/05-parseBNK.js:389-393 | a well-formed object that fits a length field can be stored, and stands for itself followed by its switches |
| BankLayout.FrameComplete | src/extract/05-parseBNK.js:385-393 | a stored record reads back as what it stands for, and the cursor moves past the whole frame, unread bytes included |
| BankLayout.RunReads | src/extract/05-parseBNK.js:384-394 | records read back one after the other form a run of their objects, in order |
| BankLayout.FramesComplete | src/extract/05-parseBNK.js:384-394 | stored records laid out in a row decode to their objects, in order |
| BankLayout.HircComplete | src/extract/05-parseBNK.js:379-395 | a laid-out `HIRC` section reads back as its records' objects |
| BankLayout.OtherComplete | src/extract/05-parseBNK.js:396-401 | any other section is skipped whole and contributes nothing |
| BankLayout.SectionComplete | src/extract/05-parseBNK.js:377-402 | a laid-out section reads back as what it holds |
| BankLayout.ScanComplete | src/extract/05-parseBNK.js:376-403 | scanning a bank laid out from sections finds exactly the objects of its `HIRC` sections, in order |
| AudioGraph.Find | src/extract/05-parseBNK.js:430-432 | `find` gives the first index holding the ID, or none when no object has it |
| AudioGraph.Members | src/extract/05-parseBNK.js:285 | the filter gives, in table order, exactly the objects whose ID is listed |
| AudioGraph.Fresh | src/extract/05-parseBNK.js:294-297 | the switches not already among the children, in order |
| AudioGraph.Children | src/extract/05-parseBNK.js:284-312 | the objects a walk descends into are all in the table |
| AudioGraph.SwitchChildren | src/extract/05-parseBNK.js:293-303 | a switch container visits each object at most once: exactly its listed table objects and its own switches, which are the objects right after it |
| AudioGraph.WalkAllHolds | src/extract/05-parseBNK.js:287-290 | a successful run of walks is made of successful walks and yields exactly what they yield |
| AudioGraph.ReachesSoundStep | src/extract/05-parseBNK.js:284-312 | from a container, switch container or switch, a sound is reachable exactly when it is reachable from one of the children |
| AudioGraph.WalkReaches | src/extract/05-parseBNK.js:278-322 | a successful walk yields exactly the audio IDs of the sounds reachable from its start |
| AudioGraph.WalkReachesDown | src/extract/05-parseBNK.js:284-313 | the same, for an object with children |
| AudioGraph.WalkNotBroken | src/extract/05-parseBNK.js:285 | a successful walk meets no container without a child list |
| AudioGraph.WalkMore | src/extract/05-parseBNK.js:278-322 | a successful walk gives the same result under any larger depth bound |
| AudioGraph.WalkAllMore | src/extract/05-parseBNK.js:287-290 | the same for a run of walks |
| BankDecoder.AddHas | src/extract/05-parseBNK.js:440 | adding a value under a key adds exactly that pair and removes nothing |
| BankDecoder.AddAllHas | src/extract/05-parseBNK.js:439-441 | adding a label under every audio ID reached adds exactly those pairs |
| BankDecoder.SoundMapHolds | src/extract/05-parseBNK.js:446-448 | the sound map holds exactly the pairs (audio ID, sound ID) of the table's sounds |
| BankDecoder.ActionAudioReaches | src/extract/05-parseBNK.js:430-436 | a successful action yields exactly the audio IDs reachable from its target |
| BankDecoder.EventAudioReaches | src/extract/05-parseBNK.js:429-437 | a successful event yields exactly what its actions reach |
| BankDecoder.EventMapHolds | src/extract/05-parseBNK.js:414-442 | when the event pass succeeds, every event succeeded, and an audio ID's set holds exactly the labels of the events that reach it |
| BankDecoder.EventAudioFails | src/extract/05-parseBNK.js:429-437 | once an action fails, the event fails with that fault |
| BankDecoder.EventMapFails | src/extract/05-parseBNK.js:416-442 | once an event fails, the pass fails with that fault |
| BankDecoder.AddAction | src/extract/05-parseBNK.js:429-437 | one turn of the loop over an event's actions: what the action reaches is appended, or its fault ends the event |
| BankDecoder.CollectEventAudio | src/extract/05-parseBNK.js:429-437 | the loop over an event's actions computes what they reach, in order |
| BankDecoder.AddLabel | src/extract/05-parseBNK.js:439-441 | the loop adds the label under each audio ID reached |
| BankDecoder.AddEvent | src/extract/05-parseBNK.js:416-442 | one turn of the event pass: the event's label is added under every audio ID its actions reach, or the pass fails with the event's fault; only this event's alias chain must stop, which the earlier events' success implies |
| BankDecoder.BuildEventMap | src/extract/05-parseBNK.js:414-442 | the event pass computes the audio ID → labels map, requiring a stopping alias chain only of the events it reaches |
| BankDecoder.BuildSoundMap | src/extract/05-parseBNK.js:444-448 | the sound pass computes the audio ID → sound IDs map |
| BankDecoder.BankSpecHolds | src/extract/05-parseBNK.js:369-488 | when `parseBNK` returns, an audio ID carries exactly the labels of the events that reach it, the sound map holds exactly the pairs of the bank's sounds, and the tree of every event rendered without throwing |
| BankDecoder.SettleUpToFailure | src/extract/05-parseBNK.js:416-432 | once an event fails (no action list, a missing action, a failing walk), the events after it need no alias chain that stops, since the pass never resolves their names |
| BankDecoder.BankSpecCycle | src/extract/05-parseBNK.js:476-479 | an event from which the tree pass can come back round to an object it has already entered makes `parseBNK` throw, whatever the maps would hold |
| BankDecoder.ParseBnk | src/extract/05-parseBNK.js:369-488 | the scan, the name table, both map passes and the tree pass compute the bank's two maps or the first fault; alias chains must stop only for the events the event pass reaches |
| EventTree.VisitHolds | src/extract/05-parseBNK.js:336-339 | a run of `parseTree` calls on listed IDs succeeds exactly when the call on each found ID does |
| EventTree.StepsAppend | src/extract/05-parseBNK.js:326-361 | chains of calls compose |
| EventTree.StepsRepeat | src/extract/05-parseBNK.js:326-361 | a chain that comes back to its start can be followed round any number of times |
| EventTree.NodeRenders | src/extract/05-parseBNK.js:326-361 | `parseTree` below an object succeeds exactly when no object it can reach iterates `undefined` and no chain of calls from it is as long as the depth the engine allows |
| EventTree.NodeChild | src/extract/05-parseBNK.js:336-357 | a successful call succeeds on every object it calls itself on, with one less depth |
| EventTree.NodeDeep | src/extract/05-parseBNK.js:326-361 | a successful call succeeds on every object a chain of s calls reaches, with s less depth |
| EventTree.NodeCycle | src/extract/05-parseBNK.js:326-361 | on a cycle of calls (an action aimed back at its event, a container listing itself) `parseTree` throws whatever depth the engine allows |
| EventTree.TreeBelowHolds | src/extract/05-parseBNK.js:476-479 | the pass over the events succeeds exactly when every event's tree renders |
| EventTree.TreeBelowFails | src/extract/05-parseBNK.js:476-479 | once an event's tree throws, later objects change nothing |
| EventTree.RenderEvents | src/extract/05-parseBNK.js:476-479 | the loop over the events computes the tree pass |
| ManifestBody.TableOffsets | src/parser/manifest/body.js:20-26 | a successful offsets read yields six offsets |
| ManifestBody.AbsoluteHolds | src/parser/manifest/body.js:24-26 | k signed fields are read iff 4k bytes remain, and offset i is its field's position plus the signed value stored there |
| ManifestBody.TableOffsetsHold | src/parser/manifest/body.js:20-26 | the read succeeds iff the header and six fields fit, and offset i is offsetsBase + 4i + d[i] |
| ManifestBody.I32RoundTrip | src/parser/manifest/body.js:25 | a signed value written in two's complement reads back |
| ManifestBody.FieldLocates | src/parser/manifest/body.js:26 | a field holding the distance from itself to p leads to p |
| ManifestBody.TableOffsetsLocate | src/parser/manifest/body.js:24-26 | conversely, fields holding the distances to the tables give exactly the tables' positions |
| ManifestBody.TagBundles | src/parser/manifest/body.js:39-46 | each bundle stays in place, with its chunks tagged |
| ManifestBody.ClashLast | src/parser/manifest/body.js:41 | the last chunk can clash only with the latest earlier chunk of its ID |
| ManifestBody.ChunkMapHolds | src/parser/manifest/body.js:38-47 | the index is built iff no chunk differs in both size and target size from the chunk stored before it under its ID, and it then maps each ID to the last chunk with that ID |
| ManifestBody.ChunkMapFails | src/parser/manifest/body.js:41 | once the assertion fails, later chunks do not change the outcome |
| ManifestBody.ChunkMapSnoc | src/parser/manifest/body.js:41-43 | one more chunk fails the assertion when the chunk stored under its ID differs in both sizes, and is otherwise stored under its ID |
| ManifestBody.TaggedAppend | src/parser/manifest/body.js:39-40 | the tagged chunks of a sequence of bundles split as the bundles do |
| ManifestBody.TaggedHolds | src/parser/manifest/body.js:39-46 | every chunk of every bundle appears, tagged with its bundle's ID, and nothing else does |
| ManifestBody.IndexBundle | src/parser/manifest/body.js:40-46 | the inner loop extends the index with the bundle's tagged chunks and tags them |
| ManifestBody.IndexChunks | src/parser/manifest/body.js:38-47 | the chunk loop computes the index of all tagged chunks and tags every bundle |
| ManifestBody.IndexLangs | src/parser/manifest/body.js:33-34 | the loop maps each language ID to its language, the last one winning |
| ManifestBody.IndexDirectories | src/parser/manifest/body.js:56-59 | the loop maps each directory ID to its directory, the last one winning |
| ManifestBody.ImageHolds | src/parser/manifest/body.js:76-77 | a file's languages (or chunks) are all defined exactly when every listed ID is indexed, and the defined ones are exactly the indexed values of the listed IDs |
| ManifestBody.PathIgnoresBound | src/parser/manifest/body.js:67-74 | any bound within which the walk ends gives the same path |
| ManifestBody.PathSuffix | src/parser/manifest/body.js:67-74 | the path is the walk's directory prefix followed by the file's own name |
| ManifestBody.PathMissing | src/parser/manifest/body.js:68-73 | a walk that meets a missing directory ends there, and the path starts with "undefined/" |
| ManifestBody.BuildPath | src/parser/manifest/body.js:67-74 | the `while` loop computes the path of the directory walk |
| ManifestBody.FilesNamed | src/parser/manifest/body.js:79 | each file is stored under its own name |
| ManifestBody.FilesKeys | src/parser/manifest/body.js:62-80 | the keys are exactly the entries' full paths |
| ManifestBody.FilesLast | src/parser/manifest/body.js:62-80 | a path holds the file of the last entry with that path |
| ManifestBody.MergeFiles | src/parser/manifest/body.js:62-80 | the merge loop computes the files dictionary |
| ManifestBody.Manifest.constructor | src/parser/manifest/body.js:16-17 | a manifest starts with its buffer and version and empty parsed fields, and records what its body's steps up to the merge give; any buffer is accepted, a directory cycle included |
| ManifestBody.Manifest.Parse | src/parser/manifest/body.js:17-82 | parsing succeeds iff the body does, fails with its fault, and on success leaves exactly the body's fields; it requires the directory walks of this manifest only, and only when its body gets as far as the merge |
| ManifestBody.ParseNext | src/parser/manifest/body.js:16-83 | one manifest parsed, the earlier ones left parsed; only this manifest's directory walks must end |
| ManifestBody.ParseAll | src/parser/manifest/body.js:15-84 | `BodyParse` succeeds iff every manifest's body does, and then every manifest holds its body's fields; on a failure there is a first failing manifest, with that fault, the ones before it hold their fields, and the later ones not met before are untouched; directory walks must end only for the manifests it reaches |
| ManifestBody.ReachedUpToFailure | src/parser/manifest/body.js:16-20 | once a manifest's body fails, the manifests after it need no directory walks that end, since `BodyParse` never walks them |
| Wpk.StripHolds | src/extract/unzipWpk.js:18 | stripping drops every zero byte and keeps every other byte as often as it occurs; the name is no longer than the raw bytes, and as long exactly when they hold no zero |
| Wpk.StripAppend | src/extract/unzipWpk.js:18 | stripping keeps the order: it splits over concatenation |
| Wpk.StripWiden | src/extract/unzipWpk.js:18 | a name of non-zero single-byte characters, stored as UTF-16LE, strips back to itself |
| Wpk.StripZeros | src/extract/unzipWpk.js:18 | the filter loop computes the stripped name |
| Wpk.SliceHolds | src/extract/unzipWpk.js:20 | the payload is exactly size bytes from offset when they lie in the file, the part that does otherwise, and never longer than size |
| Wpk.HeaderHolds | src/extract/unzipWpk.js:10-12 | the header is read iff its 12 bytes and count offsets fit; magic and version are not checked; offset k is the k-th u32 after the header |
| Wpk.EntryHolds | src/extract/unzipWpk.js:15-20 | an entry is read iff its 12 header bytes and 2 × nameLength name bytes fit; its name is the stripped raw name and its payload the clamped slice |
| Wpk.WriteEntryHolds | src/extract/unzipWpk.js:15-20 | one turn succeeds exactly when its entry can be read and its name is not "", "." or ".."; such a name makes the write throw |
| Wpk.EntriesHold | src/extract/unzipWpk.js:14-21 | the entries written are those of the first offsets, in order; the loop completes iff every entry can be read and written, and otherwise stops at the first that cannot, with its fault |
| Wpk.EntriesStop | src/extract/unzipWpk.js:14-21 | once an entry fails, the later offsets change nothing |
| Wpk.UnpackHeader | src/extract/unzipWpk.js:7-12 | the header reads compute the header specification |
| Wpk.UnpackEntry | src/extract/unzipWpk.js:15-20 | one turn of the loop computes the entry specification |
| Wpk.Unpack | src/extract/unzipWpk.js:4-22 | the unpacker writes the entries of the header's offsets, in order, and stops where the specification does |
| Wpk.DiskHolds | src/extract/unzipWpk.js:20 | every written name is a file, every file was written, and a file holds the payload of the last entry written under its name |
| Wpk.DiskFileNames | src/extract/unzipWpk.js:18-20 | no file the unpacker leaves is named "", "." or ".." |

## Left out

- I/O:
  - `writeFileSync` in the unpacker (src/extract/unzipWpk.js:20): `Wpk.Unpack` returns the entries in write order, and `Wpk.Disk` gives the files they leave in the extraction directory.
  - The text `parseTree` renders and the file it is written to (src/extract/05-parseBNK.js:480-483); whether the tree pass throws is modelled (`EventTree`).
  - All `G.*` and `L` logging: warnings change no result.
  - The cache directories (src/extract/unzipWpk.js:1-2).
- The tree pass and the audio walk take the same depth bound; the source's two recursions use a few frames more or less of the engine's stack, which the model does not count.
- The alias table is read from JSON at start-up (src/extract/05-parseBNK.js:17-21); here it is a parameter. The same holds for the bank and WPK file contents, which are byte sequences.
- The reader library (Biffer) is not part of this model.
  - `ByteCursor` states its behaviour as assumptions: reads are little-endian and bounds-checked; `skip` and `seek` fail outside the buffer; `sub(n)` also advances the parent; a read of zero values (`unpack('0L')`) succeeds with an empty list without moving the cursor, which containers, switches and the WPK offset table rely on.
- The table parsers used by `BodyParse` (table.js, bundle.js, lang.js, fileEntry.js, directory.js) are not part of this model: `ManifestBody.Tables` passes them in as functions.
- `async`/`await` is modelled as sequential code.
- HIRCObject.js is not part of this model.
  - The object classes become the variants of `Hirc.HircObject`.
  - The `instanceof` tests are assumed to tell the classes apart, with a switch container not caught by the container branch.
  - The classes' `toString`, which the tree pass calls, is assumed not to throw.
- File.js is not part of this model: a file is the record `ManifestBody.File` of the constructor's arguments.
- The UTF-8 decoding of a WPK name (src/extract/unzipWpk.js:18) is left out: files are keyed by the stripped bytes.
- JavaScript object keys are strings: the BigInt hash key and the numeric event ID meet as the same decimal key. The model keys both by the number.
- JavaScript `Set`s are mathematical sets: insertion order is not kept.
- Chunk aliasing in `BodyParse` is modelled on values.
  - The same chunk object sits in its bundle and in `manifest.chunks`, and setting `idBundle` (src/parser/manifest/body.js:45) changes both.
  - The model tags the chunks first and indexes the tagged values, which gives the same contents but not the sharing.
- Only the chunk fields the body uses (`id`, `size`, `targetSize`, `idBundle`) are modelled.
- Fnv.Hash: `toLowerCase` is modelled on A–Z only; other upper-case characters that JavaScript lower-cases (Latin-1, Greek, …) are hashed unchanged.
- Wpk.Unpack: a name is a single file name in the extraction directory. A name holding "/" (a path into a subdirectory, possibly one that does not exist, or out of the directory with "..") is not resolved as a path, and file-system failures other than writing over a directory (permissions, a full disk) are not modelled.
- ManifestBody.Manifest.Parse: after a failure, the fields already written by then are not stated; only the fault is. They also differ from the source's: when the chunk assertion fails, the model's `bundles` holds only the bundles before the failing one and `chunks` keeps its old value, where the source keeps every bundle (the earlier chunks tagged in place) and has already reset `chunks` to `{}`; when the language table fails, the model keeps the old `langs`, where the source has already reset it to `{}`.
- EventNames.GetEventFull: the source has no cycle guard. The model requires the alias loop to stop within a bound, which is its precondition `Settles`; on an alias cycle with no hit the source never returns. `BankDecoder.ParseBnk` requires this only of the events the event pass reaches.
- ManifestBody.BuildPath: the source has no cycle guard. The model requires the directory walk to end (`Ends`, and `EntriesEnd`/`WalksEnd` for the merge and the manifest). `ManifestBody.ParseAll` requires this only of the manifests `BodyParse` reaches (`ReachedEnd`).
- AudioGraph.Walk: the engine's call-depth limit is modelled as fuel. Running out is `StackOverflow`, and the real limit is a parameter.
