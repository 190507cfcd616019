# Flow profiler: flow table, sampler, probe and policy matcher

This project models the traffic profiler built on the BESS software switch, and proves properties of the model. The profiler has two halves.

The dataplane half is three C modules:

- The **flow table** (`core/modules/flowtable.h`) is a two-choice hash table held in one flat array of `size * bucket` slots. A slot holds the 16 key bytes of a 5-tuple and a packet counter. The top 16 bits of the second key word hold a 15-bit gate and an occupied flag. Lookup checks the primary bucket, then the alternate bucket. Insertion takes a free slot of the primary bucket, or moves one occupant of that bucket to its own alternate bucket.
- The **flow-count sampler** (`core/modules/fc.c`) finds or inserts each IPv4 TCP/UDP packet's flow. It marks the packet's IPv4 identification field with 0xBEEF when the flow has counted fewer than two packets, or when a random draw in `[0, n)` is below two. Then it counts the packet.
- The **probe** (`core/modules/probe.c`) builds a report record for every IPv4 TCP/UDP packet whose identification field shares a bit with 0xBEEF. It offers the records to a ring in one burst.

The offline half is three Go files:

- `profiler/policy.peg.go` is a generated PEG recogniser for the policy language. It has connections `1 -> 2` and checks `(10.0.0.0/8, 10.0.0.1, 6, 80, 443) : 1 -> 2 -> 3`. It also builds a syntax tree from the token array and translates offsets to line and column.
- `profiler/parser.go` turns the tree into a connection map and a map from flows to query paths.
- `profiler/profiler.go` records each report under its hop `prevProbe -> probe` and checks the query paths of the first flow that selects the report. It also converts the C records to Go values with their byte order swapped.

## How the model is organised

Each imperative piece of the source is a method or a class whose `ensures` ties the new state to a pure function of the old state. The lemmas are then proved about those functions.

| module | file | models |
|---|---|---|
| `Bits` | bits.dfy | fixed-width integers, bitwise `&`/`^` on naturals, little- and big-endian byte strings |
| `Headers` | headers.dfy | packet bytes, Ethernet and IPv4 (RFC 791 section 3.1) field offsets, loads and stores |
| `FlowTable` | flowtable.dfy | slots, index arithmetic, lookup, displacement, add, delete, flush; class `Table` over an `array<Entry>` |
| `FlowCount` | fc.dfy | flow extraction, configuration checks, the per-packet sampling rule; class `Sampler` |
| `Probe` | probe.dfy | the report filter and records; class `ProbeModule` |
| `PolicyGrammar` | policy.dfy | each rule closure as a pure function and as a method of class `Policy` over the shared `position`/`tokenIndex`/`depth` |
| `PolicyFacts` | policy_facts.dfy | what the grammar accepts |
| `PolicyTree` | policy_tree.dfy | the stack-based `AST` builder |
| `PolicyErrors` | policy_errors.dfy | `translatePositions` |
| `PolicyParser` | parser.dfy | `parseConnection`, `parseChain`, `parseIP`, `parseFlow`, `parseCheck`, `parsePolicy`; class `PolicyMaps` |
| `Profiler` | profiler.dfy | the body of `analyze` (class `Analyzer`) and the record conversion in `main` |

The model keeps these behaviours of the code as written. A lemma exhibits each one.

- `ftb_find_slot` reports slot 0 of the primary bucket after moving occupant `i` out, so with `i > 0` the new entry overwrites a live one (`FlowTable.DisplacementReportsLiveSlot`).
- It stops the displacement loop at the first occupant whose alternate bucket is its own or the primary one, where its comment says "skip". The next occupant is never tried, even when it could have moved (`FlowTable.DisplacementStopsAtUnusable`).
- It rehashes the stored slot words, gate and occupied bits included, not the key the entry was added under. A moved entry then lands in a bucket the lookup of its key may never read, and the key is no longer found (`FlowTable.DisplacedEntryLost`).
- `ftb_find_index` does not mask the probe's padding bits, so a key with non-zero padding is never found (`FlowTable.DirtyKeyNeverFound`). `fc.c` leaves that padding uninitialised, so the padding is a parameter per packet (`FlowCount.DirtyPaddingMarksEveryPacket`).
- `ftb_init` accepts `size == 1`, and `fc_init` passes the size through unchecked. Every later `ftb_find` or `ftb_add_entry` then reaches `ftb_alt_index`, whose shift count `size_power - 1` wraps to 0xFFFFFFFF, an undefined shift (`FlowTable.SizeOneAcceptedUnserved`).
- `count` is not set by `ftb_init` and not reset by `ftb_flush` (`FlowTable.Table.Init`, `FlowTable.FlushForgetsAll`).
- The probe tests for a shared bit, not for the marker (`Probe.SharedBitIsEnough`).
- The dispatch loop of `parsePolicy` never ends at a root child without children (`PolicyParser.DispatchHangs`). A policy text that starts with whitespace is such a case: its whitespace token becomes the root's first child, a tree without children (`PolicyParser.LeadingWsHangs`).

### Where the code and its comments differ

The model follows the code in each case.

- **Table size.** `MAX_TABLE_SIZE` is 2^26 (flowtable.h:15). The comment on `ftb_init` at flowtable.h:73 says 2^30.
- **Alternate bucket.** The comment at flowtable.h:295 says an occupant whose alternate bucket is unusable is skipped. The code at flowtable.h:296-297 leaves the loop with `break` instead.

## Model

| member | source | states |
|---|---|---|
| Bits.Inc64 | core/modules/flowtable.h:341 | `count++` on a `uint64_t`: one more, and 0 after 2^64-1 |
| Bits.Dec64 | core/modules/flowtable.h:356 | `count--` on a `uint64_t`: one less, and 2^64-1 after 0 |
| Bits.PowerIsPowerOf2 | core/modules/flowtable.h:61-64 | `is_power_of_2` accepts every power of two |
| Bits.PowerOf2Exponent | core/modules/flowtable.h:61-64 | everything `is_power_of_2` accepts is 2^k for some k |
| Headers.Load16Bytes | core/modules/fc.c:136-137 | a 16-bit field read on the little-endian host is the packet's two bytes, first byte lowest |
| Headers.Load32Bytes | core/modules/fc.c:134-135 | a 32-bit field read is the packet's four bytes, first byte lowest |
| Headers.Store16Load16 | core/modules/fc.c:167 | a 16-bit store inside the packet is read back as stored and changes no other byte |
| Headers.CpuToBe16 | core/modules/fc.c:167 | `rte_cpu_to_be_16` on a little-endian host swaps the two bytes |
| Headers.IsIPv4Bytes | core/modules/fc.c:118-119 | the EtherType test holds exactly when the wire bytes at 12 and 13 are 0x08 0x00 |
| Headers.IhlBytes | core/modules/fc.c:125-126 | the header length is IHL 32-bit words: a multiple of 4, at most 60 |
| FlowTable.KeyOfInjective | core/modules/flowtable.h:37-47 | the two-word view of `struct flow` holds every field: different flows give different keys |
| FlowTable.WithGate | core/modules/flowtable.h:44 | writing the gate bit-field sets the 15 gate bits and keeps the occupied bit |
| FlowTable.WithOccupied | core/modules/flowtable.h:45 | writing the occupied bit-field sets bit 63 and keeps the gate bits |
| FlowTable.Vacate | core/modules/flowtable.h:305 | `occupied = 0` frees the slot and keeps its key bits, gate and counter |
| FlowTable.SlotMatchesMeaning | core/modules/flowtable.h:193-195 | a slot matches a key iff it is occupied, word 0 is equal, bits 0..47 of word 1 are equal and the key's padding bits 48..62 are zero; the slot's gate plays no part |
| FlowTable.KeyOfClean | core/modules/flowtable.h:27-35 | a flow's padding bits are zero iff `dummy[1]` is 0 and the low 7 bits of `dummy[2]` are 0 |
| FlowTable.Stored | core/modules/flowtable.h:337-340 | the slot written for a new key: its key bits, counter 0, gate 0, occupied |
| FlowTable.StoredMatchesIff | core/modules/flowtable.h:193-195 | a key matches the slot written for it iff its padding is zero |
| FlowTable.HashToIndex | core/modules/flowtable.h:172-175 | `hash & (size - 1)` lies below `size` |
| FlowTable.AltTagFits | core/modules/flowtable.h:180-181 | the tag product never wraps in 64 bits |
| FlowTable.AltIndex | core/modules/flowtable.h:177-183 | the alternate index lies below 2^(size_power-1); it needs `size_power >= 1` |
| FlowTable.OffsetInTable | core/modules/flowtable.h:161-165 | `index * bucket + b` with `index < size` and `b < bucket` addresses a slot in the array, and so does a whole bucket |
| FlowTable.OffsetDistinct | core/modules/flowtable.h:161-165 | different (index, slot) pairs never share an offset |
| FlowTable.AltIndexInTable | core/modules/flowtable.h:177-183 | with `size >= 2` the alternate bucket lies in the lower half of the table |
| FlowTable.PrimaryIndex | core/modules/flowtable.h:210-211 | the primary bucket of a key is a bucket of the table |
| FlowTable.AlternateIndex | core/modules/flowtable.h:221 | the alternate bucket of a key is a bucket of the table |
| FlowTable.Bucket | core/modules/flowtable.h:213-215 | the bucket handed to `ftb_find_index` has `bucket` slots |
| FlowTable.BucketAt | core/modules/flowtable.h:213-215 | slot `b` of bucket `index` is the array slot at `ftb_ib_to_offset(index, b)` |
| FlowTable.FindIndex | core/modules/flowtable.h:186-201 | 0 iff no slot matches; otherwise one more than the position of the first matching slot |
| FlowTable.FirstFree | core/modules/flowtable.h:277-284 | the first slot whose occupied bit is clear, or none |
| FlowTable.Lookup | core/modules/flowtable.h:203-232 | a found offset lies inside the array |
| FlowTable.LookupMeaning | core/modules/flowtable.h:203-262 | a key is found iff a slot of its primary or alternate bucket matches it; the result is the first match of the primary bucket when there is one, else the first match of the alternate bucket |
| FlowTable.DirtyKeyNeverFound | core/modules/flowtable.h:193 | a key with non-zero padding bits is never found, whatever the table holds |
| FlowTable.ChooseSlot | core/modules/flowtable.h:264-316 | the slot array keeps its length; a chosen slot is in the key's primary bucket |
| FlowTable.Candidates | core/modules/flowtable.h:292-293 | both candidate buckets of a hash value are buckets of the table |
| FlowTable.OccupantIndices | core/modules/flowtable.h:290-293 | the occupant's rehashed buckets are buckets of the table; the rehash covers the stored words, gate and occupied bits included |
| FlowTable.TryMove | core/modules/flowtable.h:288-312 | a successful displacement always reports slot 0 of the primary bucket |
| FlowTable.TryMoveMoves | core/modules/flowtable.h:299-310 | the round that finds free slot `j` copies occupant `i` there, clears `i`'s occupied bit and reports slot 0 |
| FlowTable.FindSlotPrefersFreeSlot | core/modules/flowtable.h:276-284 | with a free slot in the primary bucket, the first free one is chosen and nothing moves |
| FlowTable.FindSlotNoRoomUnchanged | core/modules/flowtable.h:314-315 | when no slot can be found the table is unchanged |
| FlowTable.FindSlotDisplacement | core/modules/flowtable.h:288-312 | with a full primary bucket, a success moved exactly one occupant to a free slot of its alternate bucket and reports slot 0 |
| FlowTable.DisplacementStopsAtUnusable | core/modules/flowtable.h:288-297 | an occupant whose alternate bucket is its own or the primary one ends the search with no room, even when the next occupant could have moved |
| FlowTable.DisplacedEntryLost | core/modules/flowtable.h:288-308 | an entry found in its primary bucket is no longer found after it is moved, when the rehash of its stored words picks a bucket other than its key's alternate bucket |
| FlowTable.DisplacementReportsLiveSlot | core/modules/flowtable.h:303-308 | when the vacated slot is not slot 0, the reported slot 0 still holds its live entry |
| FlowTable.Insert | core/modules/flowtable.h:318-344 | the slot array stays shaped for the geometry; the reported offsets lie in the array |
| FlowTable.AddExisting | core/modules/flowtable.h:324-327 | a findable key is reported with its slot, and nothing changes |
| FlowTable.AddFullUnchanged | core/modules/flowtable.h:329-332 | when no slot is found, table and counter are unchanged |
| FlowTable.AddNew | core/modules/flowtable.h:334-342 | a new key is written into a slot of its primary bucket with n 0, gate 0 and occupied set, and `count` goes up by one |
| FlowTable.AddThenFind | core/modules/flowtable.h:318-344 | after a key with zero padding is added, lookup finds that very slot |
| FlowTable.Remove | core/modules/flowtable.h:346-358 | the slot array stays shaped for the geometry |
| FlowTable.DelEntryEffect | core/modules/flowtable.h:346-358 | a key that is not found is refused with no change; otherwise both key words of its slot become zero, its counter stays, no other slot changes and `count` goes down by one |
| FlowTable.Cleared | core/modules/flowtable.h:360-372 | every slot becomes the zero slot; `count` keeps its value |
| FlowTable.FlushForgetsAll | core/modules/flowtable.h:360-372 | after a flush no key is found, while `count` still reports the old number |
| FlowTable.AddrToU64Meaning | core/modules/flowtable.h:375-380 | the masked word is the first six bytes read little-endian, whatever the next two hold, and those six bytes can be read back from it |
| FlowTable.InitArgsGeometry | core/modules/flowtable.h:77-115 | accepted arguments give a valid geometry with `size_power = log2(size)` |
| FlowTable.TableSizeConstants | core/modules/flowtable.h:15-16 | the default size is 2^20 and the maximum 2^26 |
| FlowTable.SizeOneAcceptedUnserved | core/modules/flowtable.h:79-81 | `ftb_init` accepts size 1 with any bucket size, but the `uint32_t` shift count `size_power - 1` of `ftb_alt_index` then wraps to 0xFFFFFFFF, and no slot sequence `Fits` that geometry |
| FlowTable.PowersAccepted | core/modules/flowtable.h:79-85 | every power of two up to 2^26 with 1, 2 or 4 slots per bucket is accepted, the defaults included |
| FlowTable.Log2 | core/modules/flowtable.h:105-110 | the halving loop computes k with 2^k = size |
| FlowTable.Table.constructor | core/modules/flowtable.h:51-59 | a zeroed descriptor: no array, all fields 0 |
| FlowTable.Table.Init | core/modules/flowtable.h:77-115 | -EINVAL with the descriptor untouched unless size is a power of two in (0, 2^26] and bucket one in (0, 4]; -ENOMEM when allocation fails; else a zeroed array of size*bucket slots, `size_power = log2(size)`, refcount 1; `count` is never set |
| FlowTable.Table.Deinit | core/modules/flowtable.h:117-147 | rejects a released table or refcount 0; decrements a refcount above 1; otherwise frees the array and zeroes the descriptor |
| FlowTable.Table.Ref | core/modules/flowtable.h:151-159 | increments the refcount only of a live table whose refcount is positive; -EINVAL otherwise |
| FlowTable.Table.FindIndexAt | core/modules/flowtable.h:186-201 | the scan loop returns `FindIndex` of the bucket |
| FlowTable.Table.Find | core/modules/flowtable.h:203-232 | 0 and the slot `Lookup` finds, else -ENOENT |
| FlowTable.Table.FindOffset | core/modules/flowtable.h:234-262 | the same slot as `Find`, else -ENOENT |
| FlowTable.Table.FreeSlotIn | core/modules/flowtable.h:277-284 | the free-slot scan finds the first free slot of the bucket |
| FlowTable.Table.MoveOccupant | core/modules/flowtable.h:289-311 | one round of the displacement loop: stop at the `break`, move the occupant, or go on, as `TryMove` says |
| FlowTable.Table.FindSlot | core/modules/flowtable.h:264-316 | the array and the returned (index, slot) or -ENOMEM are those of `ChooseSlot` |
| FlowTable.Table.AddEntry | core/modules/flowtable.h:318-344 | array, `count` and the 0 / -EEXIST / -ENOMEM result are those of `Insert` |
| FlowTable.Table.DelEntry | core/modules/flowtable.h:346-358 | array, `count` and the 0 / -ENOENT result are those of `Remove` |
| FlowTable.Table.Flush | core/modules/flowtable.h:360-372 | -EINVAL without an array; otherwise every slot is zeroed |
| FlowCount.ExtractFlow | core/modules/fc.c:109-141 | a flow iff the EtherType is IPv4 and the protocol 6 or 17; it carries the packet's protocol and the uninitialised padding |
| FlowCount.ExtractFlowFields | core/modules/fc.c:132-137 | addresses are the IPv4 header's address bytes, ports the four bytes at IHL*4 past the IPv4 header, in wire order |
| FlowCount.MarkPacketBytes | core/modules/fc.c:167 | marking writes 0xBE 0xEF into the identification field and changes no other byte |
| FlowCount.MarkKeepsFlow | core/modules/fc.c:123-137 | with a header of at least 5 words a marked packet has the same flow |
| FlowCount.FlowFromSnobj | core/modules/fc.c:58-107 | a parsed flow keeps the padding bytes it had |
| FlowCount.FlowFromSnobjAccepts | core/modules/fc.c:58-107 | accepted iff a map with int fields for all six names, ports at most 65535, protocol at most 255, gate below INVALID_GATE; in-range values are stored as given and the gate is not stored |
| FlowCount.NegativePortWraps | core/modules/fc.c:80-83 | the range checks are one-sided: port -1 passes and is stored as 65535 |
| FlowCount.UntrackedPacketUnchanged | core/modules/fc.c:157 | a packet that is not IPv4 TCP/UDP changes nothing and is forwarded as it came |
| FlowCount.FullTableUnchanged | core/modules/fc.c:159-163 | a new flow that cannot be inserted changes nothing |
| FlowCount.TrackedPacketCounted | core/modules/fc.c:165-169 | a tracked packet adds one to its flow's counter, mod 2^64, and changes no other counter or key; it is marked iff the sampling decision on the old counter says so, and only its identification field changes |
| FlowCount.DecideMarksFirstPackets | core/modules/fc.c:165-166 | counters below SAMPLE_SIZE mark for certain without a draw; beyond that, marked iff the draw is below SAMPLE_SIZE |
| FlowCount.NewFlowFirstPacket | core/modules/fc.c:158-169 | the first packet of a new flow that fits is inserted, marked and leaves counter 1 |
| FlowCount.FirstTwoPacketsMarked | core/modules/fc.c:152-171 | with zero padding the first two packets of a new flow are both marked |
| FlowCount.LookupOnlyKeys | core/modules/fc.c:158-169 | changing counters changes no lookup |
| FlowCount.FoundFlowStep | core/modules/fc.c:158-169 | a packet of a flow already in the table counts in the slot the lookup reports |
| FlowCount.DirtyPaddingMarksEveryPacket | core/modules/fc.c:155-168 | with padding bits set every packet of the flow inserts a fresh entry with counter 0 and is marked, or leaves everything unchanged when there is no room |
| FlowCount.RunForwardsBatch | core/modules/fc.c:152-173 | the batch goes on with as many packets, in order, each as it came or with its identification field marked |
| FlowCount.Sampler.constructor | core/modules/fc.c:11-15 | a zeroed instance with a released table |
| FlowCount.Sampler.Init | core/modules/fc.c:17-46 | seed 1234; size 0 becomes 2^20 and bucket 0 becomes 4; the error is that of `ftb_init` on those; `init` is set iff it succeeded |
| FlowCount.Sampler.Deinit | core/modules/fc.c:48-56 | clears `init`; drops a table reference only when `init` was set |
| FlowCount.Sampler.SamplePacket | core/modules/fc.c:153-170 | table, counter, seed and packet after one iteration are those of `Step` |
| FlowCount.Sampler.TrackFlow | core/modules/fc.c:158-164 | find, then add when missing, as `Track` says |
| FlowCount.Sampler.CountPacket | core/modules/fc.c:165-169 | the marking and the increment, as `Count` says |
| FlowCount.Sampler.ProcessBatch | core/modules/fc.c:144-174 | table, seed and batch after the loop are those of `Run` |
| Probe.MakeReport | core/modules/probe.c:106-112 | protocol from the packet, `probe_id` the id cast to 32 bits, the batch timestamp |
| Probe.ReportsCount | core/modules/probe.c:83-113 | one record per reported packet, so at most one per packet |
| Probe.ReportsFromPackets | core/modules/probe.c:83-113 | every record comes from a reportable packet whose pool get succeeded and carries its fields, the id and the timestamp |
| Probe.ReportsPrefix | core/modules/probe.c:83-113 | records keep packet order: those of a prefix of the batch begin those of the batch |
| Probe.MarkedPacketReportable | core/modules/probe.c:87-97 | a packet the sampler marked is reported on when it is IPv4 TCP/UDP |
| Probe.SharedBitIsEnough | core/modules/probe.c:96 | an identification field 0x02 0x00, which the sampler never writes, passes the test too |
| Probe.ReportCarriesFlow | core/modules/probe.c:99-110 | a report's addresses, ports and protocol are those of the flow `extract_flow` finds in the same packet |
| Probe.MarkedReportCarriesCountedFlow | core/modules/probe.c:99-110 | the report on a packet the sampler marked carries the flow the sampler counted it under, for a header of at least 5 words |
| Probe.ShipBurst | core/modules/probe.c:65-70 | nothing for an empty burst; otherwise the records the ring has room for, in order |
| Probe.ProbeModule.constructor | core/modules/probe.c:21-26 | a zeroed instance |
| Probe.ProbeModule.Init | core/modules/probe.c:39-55 | stores the id, sets n to 0; ENOENT when the pool or, after it, the ring is missing |
| Probe.ProbeModule.ProcessBatch | core/modules/probe.c:72-118 | the records are `Reports` of the batch and the shipped ones `ShipBurst` of them; the batch is only read |
| PolicyGrammar.Runes | profiler/policy.peg.go:433 | one rune per character |
| PolicyGrammar.InitBuffer | profiler/policy.peg.go:432-436 | the runes of the text followed by END_SYMBOL |
| PolicyGrammar.Close | profiler/policy.peg.go:459-465 | `add`: the rule's token over [begin, position) at its depth comes after its children's tokens |
| PolicyGrammar.CharF | profiler/policy.peg.go:560-567 | a literal matches iff the rune is there, and adds no token |
| PolicyGrammar.RuleF | profiler/policy.peg.go:491-943 | every rule's match stays in the buffer, keeps earlier tokens and adds its own token last, after children nested inside its span; ws always matches; every other rule consumes something |
| PolicyGrammar.WsF | profiler/policy.peg.go:897-942 | ws always matches |
| PolicyGrammar.ProbeF | profiler/policy.peg.go:844-872 | a probe match consumes at least one rune |
| PolicyGrammar.MaskF | profiler/policy.peg.go:811-843 | a mask match consumes at least two runes |
| PolicyGrammar.DotDigitsF | profiler/policy.peg.go:736-754 | '.' digits consumes at least two runes |
| PolicyGrammar.QuadF | profiler/policy.peg.go:721-792 | the address part consumes at least one rune |
| PolicyGrammar.PrefixF | profiler/policy.peg.go:715-810 | a prefix match is a rule match that consumes something |
| PolicyGrammar.DelimF | profiler/policy.peg.go:873-896 | a delim match consumes at least the comma |
| PolicyGrammar.DelimBodyF | profiler/policy.peg.go:879-888 | `ws ',' ws` grows the tokens inside its span |
| PolicyGrammar.ArrowF | profiler/policy.peg.go:557-570 | `ws '->' ws` consumes at least two runes |
| PolicyGrammar.LinkF | profiler/policy.peg.go:554-570 | `probe ws '->' ws` consumes at least three runes |
| PolicyGrammar.ConnectionF | profiler/policy.peg.go:548-584 | a Connection match is a rule match that consumes something |
| PolicyGrammar.ConnectionBodyF | profiler/policy.peg.go:554-576 | the body of Connection grows the tokens inside its span |
| PolicyGrammar.ChainF | profiler/policy.peg.go:619-662 | a Chain match is a rule match that consumes something |
| PolicyGrammar.ChainLongF | profiler/policy.peg.go:626-647 | the first alternative of Chain grows the tokens inside its span |
| PolicyGrammar.PrefixDelimF | profiler/policy.peg.go:673-678 | `prefix delim` grows the tokens inside its span |
| PolicyGrammar.AddressesF | profiler/policy.peg.go:673-684 | the two addresses of a Flow grow the tokens inside their span |
| PolicyGrammar.ProbeDelimF | profiler/policy.peg.go:685-690 | `probe delim` grows the tokens inside its span |
| PolicyGrammar.NumbersF | profiler/policy.peg.go:685-699 | the three numbers of a Flow grow the tokens inside their span |
| PolicyGrammar.FlowTailF | profiler/policy.peg.go:685-706 | the end of a Flow grows the tokens inside its span |
| PolicyGrammar.FlowF | profiler/policy.peg.go:663-714 | a Flow match is a rule match that consumes something |
| PolicyGrammar.ColonF | profiler/policy.peg.go:594-603 | `ws ':' ws` grows the tokens inside its span |
| PolicyGrammar.ChainLineF | profiler/policy.peg.go:604-610 | `Chain '\n'` grows the tokens inside its span |
| PolicyGrammar.CheckF | profiler/policy.peg.go:585-618 | a Check match is a rule match that consumes something |
| PolicyGrammar.CheckBodyF | profiler/policy.peg.go:591-610 | the body of Check grows the tokens inside its span |
| PolicyGrammar.StarF | profiler/policy.peg.go:505-513 | the repetition never fails, stays in the buffer and keeps earlier tokens, adding tokens inside its span |
| PolicyGrammar.SectionF | profiler/policy.peg.go:499-513 | `ws Connection+` grows the tokens and consumes something |
| PolicyGrammar.PlusF | profiler/policy.peg.go:502-513 | one match then the repetition: grows the tokens and consumes something |
| PolicyGrammar.PolicyF | profiler/policy.peg.go:493-547 | a Policy match is a rule match that consumes something |
| PolicyGrammar.PolicyBodyF | profiler/policy.peg.go:499-539 | the body of Policy ends where END_SYMBOL is |
| PolicyGrammar.Policy.Init | profiler/policy.peg.go:432-439 | the buffer of `InitBuffer`, a token array of MaxInt16 entries, all counters 0 |
| PolicyGrammar.Policy.Reset | profiler/policy.peg.go:455-457 | position, token index and depth back to 0 |
| PolicyGrammar.Policy.Expand | profiler/policy.peg.go:350-358 | the array doubles exactly when the index is past its end, and keeps every old token |
| PolicyGrammar.Policy.AddToken | profiler/policy.peg.go:310-312 | one token written at the index, nothing else changes |
| PolicyGrammar.Policy.Trim | profiler/policy.peg.go:117-119 | the array cut to its first `length` tokens |
| PolicyGrammar.Policy.Add | profiler/policy.peg.go:459-465 | the token `(rule, begin, position, depth)` appended after the earlier ones |
| PolicyGrammar.Policy.MatchDot | profiler/policy.peg.go:467-473 | any rune but END_SYMBOL is consumed |
| PolicyGrammar.Policy.MatchChar | profiler/policy.peg.go:560-563 | consumes the rune iff it is the literal |
| PolicyGrammar.Policy.SkipDigits | profiler/policy.peg.go:854-864 | the `[0-9]*` loop stops at the end of the run of digits |
| PolicyGrammar.Policy.Backtrack | profiler/policy.peg.go:544-546 | a failed rule's restore brings back position, token index, depth and the tokens |
| PolicyGrammar.Policy.Ws | profiler/policy.peg.go:897-942 | the closure does what `RuleF` says for ws |
| PolicyGrammar.Policy.Probe | profiler/policy.peg.go:844-872 | the closure does what `RuleF` says for probe: on a failure position, token index and depth are restored |
| PolicyGrammar.Policy.Mask | profiler/policy.peg.go:811-843 | the closure does what `RuleF` says for mask, restoring on failure |
| PolicyGrammar.Policy.DotDigits | profiler/policy.peg.go:736-754 | consumes '.' and digits as `DotDigitsF` says |
| PolicyGrammar.Policy.Quad | profiler/policy.peg.go:721-792 | consumes the address part as `QuadF` says |
| PolicyGrammar.Policy.Prefix | profiler/policy.peg.go:715-810 | the closure does what `RuleF` says for prefix, restoring on failure |
| PolicyGrammar.Policy.Delim | profiler/policy.peg.go:873-896 | the closure does what `RuleF` says for delim, restoring on failure |
| PolicyGrammar.Policy.DelimBody | profiler/policy.peg.go:879-888 | the sequence does what `DelimBodyF` says |
| PolicyGrammar.Policy.Arrow | profiler/policy.peg.go:557-570 | the sequence does what `ArrowF` says |
| PolicyGrammar.Policy.Link | profiler/policy.peg.go:554-570 | the sequence does what `LinkF` says |
| PolicyGrammar.Policy.Connection | profiler/policy.peg.go:548-584 | the closure does what `RuleF` says for Connection, restoring on failure |
| PolicyGrammar.Policy.ConnectionBody | profiler/policy.peg.go:554-576 | the sequence does what `ConnectionBodyF` says |
| PolicyGrammar.Policy.ChainLong | profiler/policy.peg.go:626-647 | the sequence does what `ChainLongF` says |
| PolicyGrammar.Policy.Chain | profiler/policy.peg.go:619-662 | the closure does what `RuleF` says for Chain, restoring on failure |
| PolicyGrammar.Policy.PrefixDelim | profiler/policy.peg.go:673-678 | the sequence does what `PrefixDelimF` says |
| PolicyGrammar.Policy.Addresses | profiler/policy.peg.go:673-684 | the sequence does what `AddressesF` says |
| PolicyGrammar.Policy.ProbeDelim | profiler/policy.peg.go:685-690 | the sequence does what `ProbeDelimF` says |
| PolicyGrammar.Policy.Numbers | profiler/policy.peg.go:685-699 | the sequence does what `NumbersF` says |
| PolicyGrammar.Policy.FlowTail | profiler/policy.peg.go:685-706 | the sequence does what `FlowTailF` says |
| PolicyGrammar.Policy.Flow | profiler/policy.peg.go:663-714 | the closure does what `RuleF` says for Flow, restoring on failure |
| PolicyGrammar.Policy.Colon | profiler/policy.peg.go:594-603 | the sequence does what `ColonF` says |
| PolicyGrammar.Policy.ChainLine | profiler/policy.peg.go:604-610 | the sequence does what `ChainLineF` says |
| PolicyGrammar.Policy.Check | profiler/policy.peg.go:585-618 | the closure does what `RuleF` says for Check, restoring on failure |
| PolicyGrammar.Policy.CheckBody | profiler/policy.peg.go:591-610 | the sequence does what `CheckBodyF` says |
| PolicyGrammar.Policy.Star | profiler/policy.peg.go:505-513 | the loop ends where `StarF` ends, with its tokens, and undoes the failed attempt |
| PolicyGrammar.Policy.Section | profiler/policy.peg.go:499-513 | the sequence does what `SectionF` says |
| PolicyGrammar.Policy.Plus | profiler/policy.peg.go:502-513 | the sequence does what `PlusF` says |
| PolicyGrammar.Policy.PolicyRule | profiler/policy.peg.go:493-547 | the closure does what `RuleF` says for Policy, restoring on failure |
| PolicyGrammar.Policy.PolicyBody | profiler/policy.peg.go:499-539 | the sequence does what `PolicyBodyF` says; `!.` restores the position |
| PolicyGrammar.Policy.Parse | profiler/policy.peg.go:441-453 | runs the rule from the current state; on a match the array is trimmed to exactly the rule's tokens |
| PolicyGrammar.Policy.Rule | profiler/policy.peg.go:446 | `p.rules[r]()` does what `RuleF` says for `r` |
| PolicyFacts.WsMatch | profiler/policy.peg.go:897-942 | ws always matches, consumes only ' ', '\t', '\n', '\r', all of them, and adds only its own token |
| PolicyFacts.ProbeMatch | profiler/policy.peg.go:844-872 | probe matches iff a digit comes next, then consumes the whole run of digits and adds only its own token |
| PolicyFacts.QuadText | profiler/policy.peg.go:721-792 | what the address part accepts is four runs of digits separated by dots, the last run maximal |
| PolicyFacts.QuadComplete | profiler/policy.peg.go:721-792 | conversely, the address part accepts whenever a dotted quad starts there |
| PolicyFacts.MaskText | profiler/policy.peg.go:811-843 | a mask is '/' and a maximal run of digits |
| PolicyFacts.PrefixShape | profiler/policy.peg.go:715-810 | prefix matches iff the address part does, and its text is a dotted quad with an optional mask |
| PolicyFacts.PrefixAccepts | profiler/policy.peg.go:715-810 | prefix matches iff a dotted quad starts at the position |
| PolicyFacts.ChainMatch | profiler/policy.peg.go:619-662 | Chain matches iff a digit comes next; when the long alternative fails it falls back to one probe |
| PolicyFacts.ChainLineNewline | profiler/policy.peg.go:604-610 | `Chain '\n'` ends with '\n' |
| PolicyFacts.FlowStartsWithParen | profiler/policy.peg.go:669-672 | a Flow starts with '(' |
| PolicyFacts.CheckBodyShape | profiler/policy.peg.go:591-610 | the body of a Check starts with '(' and ends with '\n' |
| PolicyFacts.CheckEndsWithNewline | profiler/policy.peg.go:585-618 | a Check starts with '(' and ends with '\n' |
| PolicyFacts.PolicyEndsAtEndSymbol | profiler/policy.peg.go:530-539 | a Policy match stops only at END_SYMBOL |
| PolicyFacts.PolicyCoversText | profiler/policy.peg.go:432-436 | on the buffer `Init` builds, a Policy match covers the whole text |
| PolicyFacts.Numbered | profiler/policy.peg.go:152-157 | `Order` renumbers a token by its index and keeps its rule and span |
| PolicyFacts.MatchedIsParent | profiler/policy.peg.go:100-102 | a matched rule's token is, by `isParentOf`, the parent of every token its children added, which are deeper |
| PolicyFacts.RuleIsParent | profiler/policy.peg.go:100-102 | every rule's match has that property |
| PolicyTree.NonEmpty | profiler/policy.peg.go:172-174 | the tokens kept have non-empty spans |
| PolicyTree.AstTokens | profiler/policy.peg.go:169-175 | the first token, then the non-empty ones |
| PolicyTree.CoveredCount | profiler/policy.peg.go:176-180 | the number of trees popped: the run of covered trees at the top of the stack, the tree below it not covered |
| PolicyTree.ReducedMeaning | profiler/policy.peg.go:175-181 | the stack after a token is `rest + [Node(token, kids)]` for the one split `stack == rest + kids` where the token covers every tree of `kids` and not the top of `rest` |
| PolicyTree.PopCovered | profiler/policy.peg.go:176-180 | the trees popped are the top of the stack, all covered by the token, and the tree left on top is not covered |
| PolicyTree.Reduce | profiler/policy.peg.go:175-181 | the new stack is `Reduced`: the token's node over the trees it covers, on top of the rest |
| PolicyTree.ReducedNested | profiler/policy.peg.go:175-181 | a reduction keeps every span nested and puts the token after the stack's tokens |
| PolicyTree.BuiltNested | profiler/policy.peg.go:168-182 | the stack built from the node tokens nests, and its tokens, children first, are the node tokens in order |
| PolicyTree.CoveringTokenTakesAll | profiler/policy.peg.go:168-184 | when the last token covers every token, it ends alone on the stack and its tree holds every node token |
| PolicyTree.UncoveredBottom | profiler/policy.peg.go:168-182 | a first token that no later token covers stays at the bottom of the stack, a tree without children |
| PolicyTree.RootFirstChild | profiler/policy.peg.go:168-184 | when the last token gathers the whole stack, its children are the stack before it, whose first tree is the uncovered first token without children |
| PolicyTree.Ast | profiler/policy.peg.go:168-184 | the loop builds the stack `Built` describes and returns its top: the last token's tree, whose spans nest and whose tokens, children first, are the tail of the node tokens |
| PolicyErrors.PositionStep | profiler/policy.peg.go:380-385 | lines count from 1 and grow at each '\n', where the column is 0; any other rune moves one column on |
| PolicyErrors.SkipEqual | profiler/policy.peg.go:388-392 | the inner loop skips exactly the positions equal to the one just translated |
| PolicyErrors.TranslatePositions | profiler/policy.peg.go:375-398 | with no positions and a non-empty text it panics; otherwise exactly the positions inside the text get an entry, which is their line and column |
| PolicyParser.Atoi | profiler/parser.go:17 | `strconv.Atoi` with its error dropped: at most MaxInt64 |
| PolicyParser.AtoiOfDecimalText | profiler/parser.go:17 | every id up to MaxInt64 is read back from its decimal text |
| PolicyParser.AddEdges | profiler/parser.go:11-31 | the first probe gets an entry; `u -> v` is an edge after iff it was before, or `u` is the first probe and `v` a later one |
| PolicyParser.AddEdgesStep | profiler/parser.go:23-27 | a later probe adds one target to the first probe |
| PolicyParser.AddEdgesFirst | profiler/parser.go:16-22 | the first probe gets an empty entry when it has none |
| PolicyParser.ParseChain | profiler/parser.go:33-46 | the path is never empty |
| PolicyParser.ParseChainReverses | profiler/parser.go:33-46 | on the grammar's chain shape the ids come in reverse text order, one per probe, this level's probe last |
| PolicyParser.ChainPath | profiler/parser.go:33-46 | from the top of a chain the path is exactly the reversed probe ids |
| PolicyParser.LastWord | profiler/parser.go:53 | `binary.BigEndian.Uint32` of the last four bytes is below 2^32 |
| PolicyParser.ParseIp | profiler/parser.go:48-63 | without '/': a value iff the address has at least 4 bytes, with mask 0xFFFFFFFF; with '/': a value iff `ParseCIDR` succeeds with 4-byte address and mask; no value where Go panics |
| PolicyParser.ParseIpDottedQuad | profiler/parser.go:56-61 | `a.b.c.d` without a mask becomes `a*2^24 + b*2^16 + c*2^8 + d` with mask 0xFFFFFFFF, in 4- or 16-byte form |
| PolicyParser.FlowSpec | profiler/parser.go:65-94 | with two prefixes and three numbers: source, destination, protocol, source port and destination port, in that order |
| PolicyParser.FlowPrefixStep | profiler/parser.go:71-76 | a prefix sets the source the first time and the destination after that |
| PolicyParser.FlowProbeStep | profiler/parser.go:78-89 | a probe sets the protocol, then the source port, then the destination port, the last one winning |
| PolicyParser.FlowOtherStep | profiler/parser.go:70-92 | any other node changes nothing |
| PolicyParser.FlowPanics | profiler/parser.go:72-75 | a prefix `parseIP` panics on makes the whole walk panic |
| PolicyParser.ParseFlow | profiler/parser.go:65-94 | the flag loop computes `FlowSpec`, or panics at a bad prefix |
| PolicyParser.CheckChains | profiler/parser.go:105-108 | after the flow, every Chain appends its path to the flow's list and nothing else changes |
| PolicyParser.CheckShape | profiler/parser.go:96-111 | with the Flow first: no panic iff `parseFlow` does not panic; the flow gets an entry keeping its old paths plus one per Chain; other entries unchanged |
| PolicyParser.DispatchSkips | profiler/parser.go:139-145 | only Connection and Check children count: removing any other child that has children changes nothing |
| PolicyParser.DispatchHangs | profiler/parser.go:134-137 | the loop never ends once it reaches a child without children |
| PolicyParser.PolicyMaps.constructor | profiler/parser.go:128-131 | both maps start empty |
| PolicyParser.PolicyMaps.ParseConnection | profiler/parser.go:11-31 | the connections become `AddEdges` of the probe ids |
| PolicyParser.PolicyMaps.ParseCheck | profiler/parser.go:96-111 | the queries become `CheckQueries` from the zero flow; false where `parseFlow` panics |
| PolicyParser.PolicyMaps.DispatchChildren | profiler/parser.go:133-147 | the loop ends as `Dispatch` says, and when it ends the maps are `Dispatch`'s |
| PolicyParser.PolicyTreeHoldsAll | profiler/policy.peg.go:168-184 | for a Policy match, `AST` leaves the Policy tree alone on the stack and the tree holds every node token of the match |
| PolicyParser.PolicyLeadingWs | profiler/policy.peg.go:493-539 | for a Policy match over a text that starts with whitespace: first a non-empty ws token from position 0, then tokens that start after it, then the Policy token |
| PolicyParser.LeadingWsFront | profiler/policy.peg.go:168-175 | the node tokens of such a match are the ws token, tokens none of which covers it, and the Policy token |
| PolicyParser.LeadingWsHangs | profiler/parser.go:133-137 | for a Policy text that starts with whitespace, the root's spans lie in the text and the dispatch over its children hangs |
| PolicyParser.ParsePolicy | profiler/parser.go:113-149 | a parse error iff the text is not a Policy; otherwise the root is `AstRoot` of the match's node tokens, the Policy node that holds every node token of the match, its spans lie in the text and nest, and the outcome and maps are `Dispatch` over its children from empty maps |
| Profiler.Record | profiler/profiler.go:59-70 | the hop `u -> v` exists and its list ends with the report after the old ones; every other hop is as it was |
| Profiler.PathInTextOrder | profiler/profiler.go:74-84 | a reversed chain is found iff every hop of the chain in text order is an edge |
| Profiler.MatchingPaths | profiler/profiler.go:74-88 | the paths found are exactly the paths that are there |
| Profiler.SelectedIndex | profiler/profiler.go:72-90 | the first flow in iteration order whose source prefix holds the report's source, or none |
| Profiler.OnlySourceAddressSelects | profiler/profiler.go:73 | two reports with the same source address check the same flow |
| Profiler.CatchAllSelects | profiler/profiler.go:73 | a 0.0.0.0/0 query selects every report |
| Profiler.Analyzer.constructor | profiler/profiler.go:58 | the adjacency map starts empty |
| Profiler.Analyzer.AddReport | profiler/profiler.go:59-70 | the map becomes `Record` of the report |
| Profiler.Analyzer.PathMatch | profiler/profiler.go:74-85 | the walk from the last element succeeds iff every hop `p[i+1] -> p[i]` is an edge; a one-probe path always succeeds |
| Profiler.Analyzer.CheckPaths | profiler/profiler.go:74-88 | the paths printed are those that match, in order |
| Profiler.Analyzer.Analyze | profiler/profiler.go:59-91 | the report is recorded first; then only the first selecting flow's paths are checked, and the matching ones are printed |
| Profiler.SwapBytes32Reverses | profiler/profiler.go:145-154 | writing a 32-bit field little-endian and reading it big-endian reverses its bytes |
| Profiler.SwapBytes32Involutive | profiler/profiler.go:145-154 | converting twice gives the value back |
| Profiler.SwapBytes16Reverses | profiler/profiler.go:149-158 | the same conversion of a port reverses its two bytes |
| Profiler.SwapBytes16Involutive | profiler/profiler.go:149-158 | converting a port twice gives it back |
| Profiler.SwapBytes32OfLoad | profiler/profiler.go:145-154 | an address loaded from a packet comes out as its four bytes read most significant first, the dotted-quad order |
| Profiler.FromC | profiler/profiler.go:143-163 | exact-match masks; addresses cut to 32 bits and ports to 16, bytes reversed; protocol and hop copied |

## Left out

- Lookups and insertions require a table of at least two buckets. The requirement is `FlowTable.Fits` for the functions and lemmas over slot sequences, and `size >= 2` for the methods. `ftb_alt_index` (flowtable.h:182) shifts by `size_power - 1`, which for `size == 1` wraps to 0xFFFFFFFF, and C leaves that shift undefined. What the code does at that size is not modelled. The methods that carry the requirement are listed below.
- FlowTable.Table.Find: requires `size >= 2`, because its lookup reaches `ftb_alt_index`.
- FlowTable.Table.FindOffset: requires `size >= 2`, for the same reason.
- FlowTable.Table.MoveOccupant: requires `size >= 2`, because it computes the occupant's alternate bucket.
- FlowTable.Table.FindSlot: requires `size >= 2`, because it computes the alternate bucket.
- FlowTable.Table.AddEntry: requires `size >= 2`, because it calls `ftb_find` and `ftb_find_slot`.
- FlowTable.Table.DelEntry: requires `size >= 2`, because it calls `ftb_find`.
- FlowCount.Sampler.SamplePacket: requires a flow table of `size >= 2`, because it looks up and adds flows.
- FlowCount.Sampler.TrackFlow: requires a flow table of `size >= 2`, for the same reason.
- FlowCount.Sampler.ProcessBatch: requires a flow table of `size >= 2`, for the same reason.
- I/O and the runtime are parameters or left out. This covers DPDK, `snb_head_data`, `rte_zmalloc`/`rte_free`, the mempool and the ring, `ioutil.ReadFile`, channels, goroutines and `fmt` output. The pool and ring outcomes and the allocation result are boolean or number parameters.
- `rte_hash_crc` is an uninterpreted function of the 16 key bytes. `rand_fast_range` is an uninterpreted seeded step. Their headers are not part of this model.
- `snobj_*` become a small value type. `INVALID_GATE` lives in a header that is not part of this model, so it is a parameter.
- Time (`now_sec`, `rdtsc`, `float32` and `double` timestamps) is a `real` parameter. Floating-point rounding is not modelled.
- `net.ParseCIDR` and `net.ParseIP` are parameters. `strconv.Atoi` is modelled only for digit strings, the only ones the grammar lets through. Its sign and range handling for other input are not modelled.
- `sort.Ints` is not modelled. `TranslatePositions` takes the positions already sorted.
- TranslatePositions: does not model the `parseError.Error` text formatting that calls it.
- Go map iteration order in `analyze` is a parameter (`order`).
- Go `uint` values are naturals. Every value stored fits in 64 bits.
- parser.go slices the text by byte offsets with rune offsets. The model takes the text to be ASCII, where the two agree.
- `Print*`, `PreOrder`, `Tokens()` (a channel), `Error()`, `Highlighter` and `PrintSyntaxTree` of policy.peg.go are printing and error formatting, so they are left out.
- The Go `tokenTree` interface is the concrete token array. The dead `tokens16` code is left out.
- PolicyParser.ParseChainReverses: assumes the chain has the grammar's shape, `ChainForm`. The model does not derive that shape of the `AST` tree from the grammar.
- PolicyParser.CheckShape: assumes a Check node's children have the Flow first and no other Flow. The model does not derive that from the grammar either.
- PolicyParser.ParsePolicy: does not derive which of Hung, Panicked or Parsed a given text leads to. It states the outcome through `Dispatch` over the root's children, and the root is `AstRoot` of the match's node tokens. `PolicyParser.LeadingWsHangs` derives Hung for a text that starts with whitespace.
- Profiler.Analyzer.Analyze: requires non-empty paths. Go's `p[len(p)-1]` panics on an empty path, but `parseChain` never returns one.
- FlowTable.Table.Ref: requires the 32-bit `ref_count` not to be at its maximum. Overflow of the signed counter is not modelled.
- FlowCount.Sampler.ProcessBatch: the random draw's result is trusted only as far as `Decide` uses it. The statistical sampling rate is probabilistic and left out.
- profiler/profiler.h has a different `struct report`, with a previous-probe id and a nested flow. `main` reads `prev_probe_id`, which `probe.c`'s record does not have. `CReport` carries the field `main` reads, as an input.
- core/main.c, profiler/profiler.c and core/time.h are daemon set-up, the SQLite collector and clock reading. They are not part of this model.
- Headers.ByteAt: a read past the packet's end gives 0, and `Headers.Store16` past the end changes nothing. The C code reads and writes there unchecked, so what it finds or damages there is not modelled.
- Probe.ProbeModule.ProcessBatch: requires fewer than 256 packets. probe.c's loop counter `i` is a `uint8_t`, so with 256 or more packets it wraps and the C loop never ends. BESS batches are far smaller (probe.c defines `BURST_SIZE` as 32).
- Concurrent use of one flow table by several modules is left out. The model is sequential.
