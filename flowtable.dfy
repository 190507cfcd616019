/**
 * The flow table: a bucketised two-choice hash table held in one flat array
 * of `size * bucket` slots (core/modules/flowtable.h).
 *
 * A slot is the 16 bytes of a `struct flow` plus a packet counter `n`.  The
 * key bytes are compared as two little-endian 64-bit words; the top 16 bits
 * of word 1 double as the slot's 15-bit gate (bits 48..62) and its occupied
 * flag (bit 63).  Word 1 is kept here as its two parts: bits 0..47 and the
 * 16 bits above them, so that the masks of the C code become arithmetic on
 * those parts.
 *
 * The first part of the module gives the table's behaviour as functions of
 * the slot sequence; the class `Table` at the end is the descriptor with its
 * array, whose methods are proved to compute exactly those functions.
 */
module FlowTable {
  import opened Bits

  const MAX_TABLE_SIZE: nat := 1048576 * 64
  const DEFAULT_TABLE_SIZE: nat := 1048576
  const MAX_BUCKET_SIZE: nat := 4
  /** Reserved for a deeper displacement search that is never performed. */
  const MAX_INSERTION_SEARCH_DEPTH: nat := 2
  /** The first SAMPLE_SIZE packets of a flow are always marked. */
  const SAMPLE_SIZE: nat := 2

  // Linux errno values; the C functions return their negation.
  const ENOENT: int := 2
  const ENOMEM: int := 12
  const EEXIST: int := 17
  const EINVAL: int := 22

  /** Bit 15 of the top 16 bits of word 1, i.e. bit 63 of the word: `occupied`. */
  const OCCUPIED: nat := 0x8000

  /** The 16 key bytes of `struct flow`, through the `data[2]` view of
      `struct flow_entry`: `w0` is `data[0]` (the two addresses), `low` is bits
      0..47 of `data[1]` (the ports, the protocol and `dummy[0]`) and `top` is
      bits 48..63 of `data[1]` (`dummy[1..2]`; in a slot, gate and occupied). */
  datatype Key = Key(w0: u64, low: u48, top: u16)

  /** `struct flow`: the 5-tuple fields as they sit in memory (the addresses and
      ports keep the packet's byte order) and the three padding bytes. */
  datatype Flow = Flow(srcAddr: u32, dstAddr: u32, srcPort: u16, dstPort: u16, protocol: byte,
                       dummy0: byte, dummy1: byte, dummy2: byte)

  /** The `data[2]` view of a `struct flow` on a little-endian machine. */
  function KeyOf(f: Flow): Key
  {
    Key(f.srcAddr + 0x1_0000_0000 * f.dstAddr,
        f.srcPort + 0x1_0000 * f.dstPort + 0x1_0000_0000 * f.protocol + 0x100_0000_0000 * f.dummy0,
        f.dummy1 + 0x100 * f.dummy2)
  }

  /** Different flows give different keys: the two words hold every field. */
  lemma KeyOfInjective(f: Flow, f': Flow)
    requires KeyOf(f) == KeyOf(f')
    ensures f == f'
  {
    DigitSplit(f.srcAddr, f.dstAddr, 0x1_0000_0000);
    DigitSplit(f'.srcAddr, f'.dstAddr, 0x1_0000_0000);
    DigitSplit(f.dummy1, f.dummy2, 0x100);
    DigitSplit(f'.dummy1, f'.dummy2, 0x100);
    // word 1 below bit 48, one field at a time
    var pd, pd' := f.protocol + 0x100 * f.dummy0, f'.protocol + 0x100 * f'.dummy0;
    var rest, rest' := f.dstPort + 0x1_0000 * pd, f'.dstPort + 0x1_0000 * pd';
    assert KeyOf(f).low == f.srcPort + 0x1_0000 * rest;
    assert KeyOf(f').low == f'.srcPort + 0x1_0000 * rest';
    DigitSplit(f.srcPort, rest, 0x1_0000);
    DigitSplit(f'.srcPort, rest', 0x1_0000);
    DigitSplit(f.dstPort, pd, 0x1_0000);
    DigitSplit(f'.dstPort, pd', 0x1_0000);
    DigitSplit(f.protocol, f.dummy0, 0x100);
    DigitSplit(f'.protocol, f'.dummy0, 0x100);
  }

  /** A slot: the key bytes and the counter. */
  datatype Entry = Entry(key: Key, n: u64)

  /** An all-zero slot, as `rte_zmalloc` and `ftb_flush` leave it. */
  const EMPTY: Entry := Entry(Key(0, 0, 0), 0)

  /** The CRC hash of the 16 key bytes (`rte_hash_crc`), left uninterpreted. */
  type Hash = Key -> u32

  datatype Option<T> = None | Some(value: T)

  predicate Occupied(e: Entry)
  {
    e.key.top >= OCCUPIED
  }

  function Gate(e: Entry): nat
  {
    e.key.top % OCCUPIED
  }

  /** The 16 top bits with the 15-bit `gate` field set to `gate`. */
  function WithGate(top: u16, gate: nat): (r: u16)
    requires gate < OCCUPIED
    ensures r % OCCUPIED == gate && (r >= OCCUPIED <==> top >= OCCUPIED)
  {
    top / OCCUPIED * OCCUPIED + gate
  }

  /** The 16 top bits with the `occupied` bit set to `on`. */
  function WithOccupied(top: u16, on: bool): (r: u16)
    ensures r % OCCUPIED == top % OCCUPIED && (r >= OCCUPIED <==> on)
  {
    top % OCCUPIED + (if on then OCCUPIED else 0)
  }

  /** `occupied = 0`: clears the flag and keeps everything else. */
  function Vacate(e: Entry): (r: Entry)
    ensures !Occupied(r) && Gate(r) == Gate(e)
    ensures r.key.w0 == e.key.w0 && r.key.low == e.key.low && r.n == e.n
  {
    e.(key := e.key.(top := WithOccupied(e.key.top, false)))
  }

  /** The padding bits 48..62 of the probe's word 1 are zero. */
  predicate Clean(k: Key)
  {
    k.top % OCCUPIED == 0
  }

  /** The comparison of `ftb_find_index`: word 0 exactly, and word 1 of the probe
      with bit 63 forced on (`| 1ul<<63`) against word 1 of the slot with the gate
      bits masked off (`& 0x8000ffffFFFFffff`).  Bits 0..47 are compared as they
      are; of the top 16 bits the probe contributes `top | 0x8000`, the slot
      `top & 0x8000`. */
  predicate SlotMatches(k: Key, e: Entry)
  {
    k.w0 == e.key.w0 && k.low == e.key.low &&
    k.top % OCCUPIED + OCCUPIED == e.key.top / OCCUPIED * OCCUPIED
  }

  /** A slot matches a probe exactly when it is occupied, agrees with the probe on
      word 0 and on bits 0..47 of word 1, and the probe's own padding is zero (it is
      compared against the masked-off gate bits).  The slot's gate plays no part. */
  lemma SlotMatchesMeaning(k: Key, e: Entry)
    ensures SlotMatches(k, e) <==> Occupied(e) && e.key.w0 == k.w0 && e.key.low == k.low && Clean(k)
  {
  }

  /** The padding bits of a flow's key are the first padding byte after the protocol's
      neighbour and the low seven bits of the last one: `dummy[1]` and `dummy[2] & 0x7f`. */
  lemma KeyOfClean(f: Flow)
    ensures Clean(KeyOf(f)) <==> f.dummy1 == 0 && f.dummy2 % 0x80 == 0
  {
  }

  /** The slot `ftb_add_entry` writes: the key bytes, then n 0, gate 0, occupied 1. */
  function Stored(k: Key): (e: Entry)
    ensures Occupied(e) && Gate(e) == 0 && e.n == 0
    ensures e.key.w0 == k.w0 && e.key.low == k.low
  {
    Entry(k.(top := WithOccupied(WithGate(k.top, 0), true)), 0)
  }

  /** An inserted key matches its own slot exactly when its padding is zero. */
  lemma StoredMatchesIff(k: Key)
    ensures SlotMatches(k, Stored(k)) <==> Clean(k)
  {
    SlotMatchesMeaning(k, Stored(k));
  }

  // ----------------------------------------------------------------------------
  // Geometry and index arithmetic

  datatype Geometry = Geometry(size: nat, sizePower: nat, bucket: nat)

  /** What `ftb_init` establishes. */
  predicate ValidGeometry(g: Geometry)
  {
    1 <= g.size <= MAX_TABLE_SIZE && Pow2(g.sizePower) == g.size &&
    (g.bucket == 1 || g.bucket == 2 || g.bucket == 4)
  }

  /** A slot sequence shaped for the geometry. */
  predicate Shaped(s: seq<Entry>, g: Geometry)
  {
    ValidGeometry(g) && |s| == g.size * g.bucket
  }

  /** `ftb_alt_index` shifts by `size_power - 1`, undefined for `size_power == 0`:
      lookups and insertions need `size >= 2`. */
  predicate Fits(s: seq<Entry>, g: Geometry)
  {
    Shaped(s, g) && g.size >= 2
  }

  /** `ftb_hash_to_index`: `hash & (size - 1)`. */
  function HashToIndex(h: nat, size: nat): (r: nat)
    requires size >= 1
    ensures r < size
  {
    AndBound(h, size - 1);
    And(h, size - 1)
  }

  /** The multiplier tag of `ftb_alt_index`, computed in 64 bits. */
  function AltTag(h: u32, sizePower: nat): nat
  {
    (h / Pow2(sizePower) + 1) * 0x5bd1e995
  }

  /** The 64-bit product never wraps, so `AltTag` needs no reduction modulo 2^64. */
  lemma AltTagFits(h: u32, sizePower: nat)
    ensures AltTag(h, sizePower) < 0x1_0000_0000_0000_0000
  {
    assert h / Pow2(sizePower) <= h;
  }

  /** `ftb_alt_index`: `(index ^ tag) & ((1 << (size_power - 1)) - 1)`.  The mask keeps
      only `size_power - 1` bits, so the alternate bucket lies in the lower half. */
  function AltIndex(h: u32, sizePower: nat, index: nat): (r: nat)
    requires sizePower >= 1
    ensures r < Pow2(sizePower - 1)
  {
    AndBound(Xor(index, AltTag(h, sizePower)), Pow2(sizePower - 1) - 1);
    And(Xor(index, AltTag(h, sizePower)), Pow2(sizePower - 1) - 1)
  }

  /** `ftb_ib_to_offset`. */
  function Offset(g: Geometry, index: nat, b: nat): nat
  {
    index * g.bucket + b
  }

  /** Every (index, slot) pair the table uses addresses a slot inside the array. */
  lemma OffsetInTable(g: Geometry, index: nat, b: nat)
    requires ValidGeometry(g) && index < g.size && b < g.bucket
    ensures Offset(g, index, b) < g.size * g.bucket
    ensures Offset(g, index, 0) + g.bucket <= g.size * g.bucket
  {
    if g.bucket == 1 {
    } else if g.bucket == 2 {
    } else {
    }
  }

  /** Slots of different buckets never share an offset. */
  lemma OffsetDistinct(g: Geometry, i1: nat, b1: nat, i2: nat, b2: nat)
    requires ValidGeometry(g) && b1 < g.bucket && b2 < g.bucket && (i1 != i2 || b1 != b2)
    ensures Offset(g, i1, b1) != Offset(g, i2, b2)
  {
    if g.bucket == 1 {
    } else if g.bucket == 2 {
    } else {
    }
  }

  /** The alternate index addresses a bucket inside the lower half of the table. */
  lemma AltIndexInTable(g: Geometry, h: u32, index: nat)
    requires ValidGeometry(g) && g.size >= 2
    ensures g.sizePower >= 1
    ensures AltIndex(h, g.sizePower, index) < g.size / 2
  {
    assert Pow2(g.sizePower) == 2 * Pow2(g.sizePower - 1);
  }

  function KeyHash(hash: Hash, k: Key): u32
  {
    hash(k)
  }

  function PrimaryIndex(g: Geometry, hash: Hash, k: Key): (r: nat)
    requires ValidGeometry(g)
    ensures r < g.size
  {
    HashToIndex(KeyHash(hash, k), g.size)
  }

  function AlternateIndex(g: Geometry, hash: Hash, k: Key): (r: nat)
    requires ValidGeometry(g) && g.size >= 2
    ensures r < g.size
  {
    AltIndexInTable(g, KeyHash(hash, k), PrimaryIndex(g, hash, k));
    AltIndex(KeyHash(hash, k), g.sizePower, PrimaryIndex(g, hash, k))
  }

  /** The `bucket` slots of bucket `index`. */
  function Bucket(s: seq<Entry>, g: Geometry, index: nat): (t: seq<Entry>)
    requires Shaped(s, g) && index < g.size
    ensures |t| == g.bucket
  {
    OffsetInTable(g, index, 0);
    s[Offset(g, index, 0)..Offset(g, index, 0) + g.bucket]
  }

  /** Slot `b` of bucket `index` is the slot at `Offset(g, index, b)`. */
  lemma BucketAt(s: seq<Entry>, g: Geometry, index: nat, b: nat)
    requires Shaped(s, g) && index < g.size && b < g.bucket
    ensures Offset(g, index, b) < |s| && Bucket(s, g, index)[b] == s[Offset(g, index, b)]
  {
    OffsetInTable(g, index, b);
  }

  // ----------------------------------------------------------------------------
  // Scanning one bucket

  ghost predicate Has(t: seq<Entry>, k: Key)
  {
    exists i :: 0 <= i < |t| && SlotMatches(k, t[i])
  }

  /** `ftb_find_index` (scanning from slot `from`): 0 when no slot matches, otherwise
      one more than the position of the first matching slot. */
  function FindIndex(t: seq<Entry>, k: Key, from: nat): (r: nat)
    requires from <= |t|
    ensures r == 0 <==> forall i :: from <= i < |t| ==> !SlotMatches(k, t[i])
    ensures r != 0 ==> from < r <= |t| && SlotMatches(k, t[r - 1])
    ensures r != 0 ==> forall i :: from <= i < r - 1 ==> !SlotMatches(k, t[i])
    decreases |t| - from
  {
    if from == |t| then 0
    else if SlotMatches(k, t[from]) then from + 1
    else FindIndex(t, k, from + 1)
  }

  /** The first unoccupied slot of a bucket, from position `from` on. */
  function FirstFree(t: seq<Entry>, from: nat): (r: Option<nat>)
    requires from <= |t|
    ensures r.None? <==> forall i :: from <= i < |t| ==> Occupied(t[i])
    ensures r.Some? ==> from <= r.value < |t| && !Occupied(t[r.value])
    ensures r.Some? ==> forall i :: from <= i < r.value ==> Occupied(t[i])
    decreases |t| - from
  {
    if from == |t| then None
    else if !Occupied(t[from]) then Some(from)
    else FirstFree(t, from + 1)
  }

  // ----------------------------------------------------------------------------
  // Lookup

  predicate InBucket(g: Geometry, index: nat, off: nat)
  {
    Offset(g, index, 0) <= off < Offset(g, index, 0) + g.bucket
  }

  /** `ftb_find` / `ftb_find_offset`: the offset of the first matching slot of the
      primary bucket, else of the alternate bucket, else nothing. */
  function Lookup(s: seq<Entry>, g: Geometry, hash: Hash, k: Key): (r: Option<nat>)
    requires Fits(s, g)
    ensures r.Some? ==> r.value < |s|
  {
    var p := PrimaryIndex(g, hash, k);
    var t1 := FindIndex(Bucket(s, g, p), k, 0);
    if t1 != 0 then
      OffsetInTable(g, p, t1 - 1);
      Some(Offset(g, p, t1 - 1))
    else
      var a := AlternateIndex(g, hash, k);
      var t2 := FindIndex(Bucket(s, g, a), k, 0);
      if t2 != 0 then
        OffsetInTable(g, a, t2 - 1);
        Some(Offset(g, a, t2 - 1))
      else None
  }

  /** The lookup finds a key exactly when a slot of its primary or alternate bucket
      matches it; what it returns is the first matching slot of the primary bucket
      when there is one, and otherwise the first matching slot of the alternate one. */
  lemma LookupMeaning(s: seq<Entry>, g: Geometry, hash: Hash, k: Key)
    requires Fits(s, g)
    ensures var r := Lookup(s, g, hash, k);
      (r.Some? <==> Has(Bucket(s, g, PrimaryIndex(g, hash, k)), k) || Has(Bucket(s, g, AlternateIndex(g, hash, k)), k)) &&
      (r.Some? ==> SlotMatches(k, s[r.value])) &&
      (r.Some? ==> InBucket(g, PrimaryIndex(g, hash, k), r.value) || InBucket(g, AlternateIndex(g, hash, k), r.value)) &&
      (Has(Bucket(s, g, PrimaryIndex(g, hash, k)), k) ==>
        r == Some(Offset(g, PrimaryIndex(g, hash, k), FindIndex(Bucket(s, g, PrimaryIndex(g, hash, k)), k, 0) - 1))) &&
      (!Has(Bucket(s, g, PrimaryIndex(g, hash, k)), k) && Has(Bucket(s, g, AlternateIndex(g, hash, k)), k) ==>
        r == Some(Offset(g, AlternateIndex(g, hash, k), FindIndex(Bucket(s, g, AlternateIndex(g, hash, k)), k, 0) - 1)))
  {
    var p := PrimaryIndex(g, hash, k);
    var a := AlternateIndex(g, hash, k);
    var t1 := FindIndex(Bucket(s, g, p), k, 0);
    var t2 := FindIndex(Bucket(s, g, a), k, 0);
    if t1 != 0 {
      BucketAt(s, g, p, t1 - 1);
    } else if t2 != 0 {
      BucketAt(s, g, a, t2 - 1);
    }
  }

  /** A key with non-zero padding bits 48..62 is never found, whatever the table holds. */
  lemma DirtyKeyNeverFound(s: seq<Entry>, g: Geometry, hash: Hash, k: Key)
    requires Fits(s, g) && !Clean(k)
    ensures Lookup(s, g, hash, k) == None
  {
    LookupMeaning(s, g, hash, k);
  }

  // ----------------------------------------------------------------------------
  // Finding a slot for a new key (one level of displacement)

  datatype SlotChoice = Slot(index: nat, bucket: nat) | NoRoom

  /** How one round of the displacement loop ends. */
  datatype MoveStep = Stop | Moved | Next

  /** `ftb_find_slot`: the first free slot of the primary bucket; failing that, one
      occupant of the primary bucket moved to a free slot of its alternate bucket. */
  function ChooseSlot(s: seq<Entry>, g: Geometry, hash: Hash, k: Key): (r: (seq<Entry>, SlotChoice))
    requires Fits(s, g)
    ensures |r.0| == |s|
    ensures r.1.Slot? ==> r.1.index == PrimaryIndex(g, hash, k) && r.1.bucket < g.bucket
  {
    var idx1 := PrimaryIndex(g, hash, k);
    match FirstFree(Bucket(s, g, idx1), 0)
    case Some(i) => (s, Slot(idx1, i))
    case None => TryMove(s, g, hash, idx1, 0)
  }

  /** The two candidate buckets of a hash value: `ftb_hash_to_index` and
      `ftb_alt_index` of it. */
  function Candidates(g: Geometry, h: u32): (r: (nat, nat))
    requires ValidGeometry(g) && g.size >= 2
    ensures r.0 < g.size && r.1 < g.size
  {
    var v1 := HashToIndex(h, g.size);
    AltIndexInTable(g, h, v1);
    (v1, AltIndex(h, g.sizePower, v1))
  }

  /** The occupant of slot `i` of bucket `idx1` in the displacement loop: its rehashed
      candidate buckets.  The rehash covers the stored words as they are, gate and
      occupied bits included. */
  function OccupantIndices(s: seq<Entry>, g: Geometry, hash: Hash, idx1: nat, i: nat): (r: (nat, nat))
    requires Fits(s, g) && idx1 < g.size && i < g.bucket
    ensures r.0 < g.size && r.1 < g.size
  {
    var e := Bucket(s, g, idx1)[i];
    Candidates(g, hash(e.key))
  }

  /** The displacement loop of `ftb_find_slot` from slot `i` of the (full) bucket `idx1`. */
  function TryMove(s: seq<Entry>, g: Geometry, hash: Hash, idx1: nat, i: nat): (r: (seq<Entry>, SlotChoice))
    requires Fits(s, g) && idx1 < g.size && i <= g.bucket
    ensures |r.0| == |s|
    ensures r.1.Slot? ==> r.1 == Slot(idx1, 0)
    decreases g.bucket - i
  {
    if i == g.bucket then (s, NoRoom)
    else
      var (v1, v2) := OccupantIndices(s, g, hash, idx1, i);
      // the comment says "skip", but the loop stops here
      if v1 == v2 || idx1 == v2 then (s, NoRoom)
      else
        match FirstFree(Bucket(s, g, v2), 0)
        case Some(j) =>
          OffsetInTable(g, idx1, i);
          OffsetInTable(g, v2, j);
          var off1 := Offset(g, idx1, i);
          // the vacated slot is slot i, yet slot 0 is reported
          (s[Offset(g, v2, j) := s[off1]][off1 := Vacate(s[off1])], Slot(idx1, 0))
        case None => TryMove(s, g, hash, idx1, i + 1)
  }

  /** The round of `TryMove` that finds free slot `j` in the occupant's alternate bucket. */
  lemma TryMoveMoves(s: seq<Entry>, g: Geometry, hash: Hash, idx1: nat, i: nat, j: nat)
    requires Fits(s, g) && idx1 < g.size && i < g.bucket
    requires var (v1, v2) := OccupantIndices(s, g, hash, idx1, i);
      v1 != v2 && idx1 != v2 && FirstFree(Bucket(s, g, v2), 0) == Some(j)
    ensures Offset(g, idx1, i) < |s| && Offset(g, OccupantIndices(s, g, hash, idx1, i).1, j) < |s|
    ensures TryMove(s, g, hash, idx1, i) ==
      (s[Offset(g, OccupantIndices(s, g, hash, idx1, i).1, j) := s[Offset(g, idx1, i)]]
        [Offset(g, idx1, i) := Vacate(s[Offset(g, idx1, i)])], Slot(idx1, 0))
  {
    OffsetInTable(g, idx1, i);
    OffsetInTable(g, OccupantIndices(s, g, hash, idx1, i).1, j);
  }

  /** If the primary bucket has a free slot, the first one is chosen and nothing moves. */
  lemma FindSlotPrefersFreeSlot(s: seq<Entry>, g: Geometry, hash: Hash, k: Key, i: nat)
    requires Fits(s, g) && i < g.bucket
    requires !Occupied(Bucket(s, g, PrimaryIndex(g, hash, k))[i])
    requires forall j :: 0 <= j < i ==> Occupied(Bucket(s, g, PrimaryIndex(g, hash, k))[j])
    ensures ChooseSlot(s, g, hash, k) == (s, Slot(PrimaryIndex(g, hash, k), i))
  {
    var t := Bucket(s, g, PrimaryIndex(g, hash, k));
    assert !Occupied(t[i]);
  }

  lemma {:induction false} TryMoveNoRoomUnchanged(s: seq<Entry>, g: Geometry, hash: Hash, idx1: nat, i: nat)
    requires Fits(s, g) && idx1 < g.size && i <= g.bucket
    ensures TryMove(s, g, hash, idx1, i).1 == NoRoom ==> TryMove(s, g, hash, idx1, i).0 == s
    decreases g.bucket - i
  {
    if i < g.bucket {
      var (v1, v2) := OccupantIndices(s, g, hash, idx1, i);
      if !(v1 == v2 || idx1 == v2) && FirstFree(Bucket(s, g, v2), 0).None? {
        TryMoveNoRoomUnchanged(s, g, hash, idx1, i + 1);
      }
    }
  }

  /** When no slot can be found the table is unchanged. */
  lemma FindSlotNoRoomUnchanged(s: seq<Entry>, g: Geometry, hash: Hash, k: Key)
    requires Fits(s, g)
    ensures ChooseSlot(s, g, hash, k).1 == NoRoom ==> ChooseSlot(s, g, hash, k).0 == s
  {
    TryMoveNoRoomUnchanged(s, g, hash, PrimaryIndex(g, hash, k), 0);
  }

  /** One displacement step: occupant `i` of bucket `idx1` copied to free slot `j` of
      its alternate bucket `v2`, then its old slot's occupied bit cleared. */
  ghost predicate MovedOne(s: seq<Entry>, s': seq<Entry>, g: Geometry, hash: Hash, idx1: nat, i: nat, v2: nat, j: nat)
    requires Fits(s, g) && idx1 < g.size
  {
    i < g.bucket && v2 < g.size && j < g.bucket && v2 != idx1 &&
    v2 == OccupantIndices(s, g, hash, idx1, i).1 &&
    Offset(g, idx1, i) < |s| && Offset(g, v2, j) < |s| &&
    !Occupied(s[Offset(g, v2, j)]) &&
    s' == s[Offset(g, v2, j) := s[Offset(g, idx1, i)]][Offset(g, idx1, i) := Vacate(s[Offset(g, idx1, i)])]
  }

  lemma {:induction false} TryMoveMovesOne(s: seq<Entry>, g: Geometry, hash: Hash, idx1: nat, i0: nat)
    requires Fits(s, g) && idx1 < g.size && i0 <= g.bucket
    requires TryMove(s, g, hash, idx1, i0).1.Slot?
    ensures exists i, v2, j :: i0 <= i && MovedOne(s, TryMove(s, g, hash, idx1, i0).0, g, hash, idx1, i, v2, j)
    decreases g.bucket - i0
  {
    var (v1, v2) := OccupantIndices(s, g, hash, idx1, i0);
    match FirstFree(Bucket(s, g, v2), 0)
    case Some(j) =>
      OffsetInTable(g, v2, j);
      OffsetInTable(g, idx1, i0);
      assert MovedOne(s, TryMove(s, g, hash, idx1, i0).0, g, hash, idx1, i0, v2, j);
    case None =>
      TryMoveMovesOne(s, g, hash, idx1, i0 + 1);
  }

  /** When the primary bucket is full, a successful `ftb_find_slot` has moved exactly
      one occupant to a free slot of that occupant's alternate bucket, and it reports
      slot 0 of the primary bucket whichever slot it vacated. */
  lemma FindSlotDisplacement(s: seq<Entry>, g: Geometry, hash: Hash, k: Key)
    requires Fits(s, g)
    requires forall b :: 0 <= b < g.bucket ==> Occupied(Bucket(s, g, PrimaryIndex(g, hash, k))[b])
    requires ChooseSlot(s, g, hash, k).1.Slot?
    ensures ChooseSlot(s, g, hash, k).1 == Slot(PrimaryIndex(g, hash, k), 0)
    ensures exists i, v2, j :: MovedOne(s, ChooseSlot(s, g, hash, k).0, g, hash, PrimaryIndex(g, hash, k), i, v2, j)
  {
    TryMoveMovesOne(s, g, hash, PrimaryIndex(g, hash, k), 0);
  }

  /** The slot reported by a displacement that vacated slot `i > 0` is slot 0, which
      still holds its live entry: `ftb_add_entry` then overwrites that entry. */
  lemma DisplacementReportsLiveSlot(s: seq<Entry>, g: Geometry, hash: Hash, k: Key, i: nat, v2: nat, j: nat)
    requires Fits(s, g)
    requires forall b :: 0 <= b < g.bucket ==> Occupied(Bucket(s, g, PrimaryIndex(g, hash, k))[b])
    requires MovedOne(s, ChooseSlot(s, g, hash, k).0, g, hash, PrimaryIndex(g, hash, k), i, v2, j)
    requires i > 0
    ensures ChooseSlot(s, g, hash, k).0[Offset(g, PrimaryIndex(g, hash, k), 0)] == s[Offset(g, PrimaryIndex(g, hash, k), 0)]
    ensures Occupied(s[Offset(g, PrimaryIndex(g, hash, k), 0)])
  {
    var idx1 := PrimaryIndex(g, hash, k);
    OffsetDistinct(g, v2, j, idx1, 0);
    OffsetDistinct(g, idx1, i, idx1, 0);
    BucketAt(s, g, idx1, 0);
    MovedOneKeeps(s, ChooseSlot(s, g, hash, k).0, g, hash, idx1, i, v2, j, Offset(g, idx1, 0));
    assert Occupied(Bucket(s, g, idx1)[0]);
  }

  /** A displacement step changes only the two slots it copies between. */
  lemma MovedOneKeeps(s: seq<Entry>, s': seq<Entry>, g: Geometry, hash: Hash, idx1: nat, i: nat, v2: nat, j: nat, o: nat)
    requires Fits(s, g) && idx1 < g.size
    requires MovedOne(s, s', g, hash, idx1, i, v2, j)
    requires o < |s| && o != Offset(g, idx1, i) && o != Offset(g, v2, j)
    ensures s'[o] == s[o]
  {
  }

  /** The displacement loop stops at the first occupant whose alternate bucket is its
      own primary bucket or bucket `idx1`, and reports no room, although the C comment
      says such an occupant is skipped: the next occupant may well have a free slot in
      its alternate bucket, and skipping would then have moved it. */
  lemma DisplacementStopsAtUnusable(s: seq<Entry>, g: Geometry, hash: Hash, idx1: nat, i: nat)
    requires Fits(s, g) && idx1 < g.size && i < g.bucket
    requires var (v1, v2) := OccupantIndices(s, g, hash, idx1, i); v1 == v2 || idx1 == v2
    ensures TryMove(s, g, hash, idx1, i) == (s, NoRoom)
    ensures i + 1 < g.bucket ==>
      var (w1, w2) := OccupantIndices(s, g, hash, idx1, i + 1);
      w1 != w2 && idx1 != w2 && FirstFree(Bucket(s, g, w2), 0).Some? ==>
        TryMove(s, g, hash, idx1, i + 1).1 == Slot(idx1, 0)
  {
  }

  /** After a displacement step slot `b` of bucket `x` does not match `k` if it did
      not before, unless it is the slot the entry was copied to. */
  lemma MovedSlotNoMatch(s: seq<Entry>, s': seq<Entry>, g: Geometry, hash: Hash, idx1: nat, i: nat, v2: nat, j: nat,
                         k: Key, x: nat, b: nat)
    requires Fits(s, g) && idx1 < g.size && x < g.size && b < g.bucket && x != v2
    requires MovedOne(s, s', g, hash, idx1, i, v2, j)
    requires Offset(g, x, b) != Offset(g, idx1, i) ==> !SlotMatches(k, Bucket(s, g, x)[b])
    ensures Shaped(s', g) && !SlotMatches(k, Bucket(s', g, x)[b])
  {
    var o := Offset(g, x, b);
    BucketAt(s, g, x, b);
    BucketAt(s', g, x, b);
    OffsetDistinct(g, x, b, v2, j);
    if o == Offset(g, idx1, i) {
      SlotMatchesMeaning(k, s'[o]);
    } else {
      MovedOneKeeps(s, s', g, hash, idx1, i, v2, j, o);
    }
  }

  /** The rehash of the moved occupant uses its stored words, not the key it was
      inserted under.  So an entry the lookup found in its primary bucket is lost by
      the move when the rehashed alternate bucket is not the key's own alternate
      bucket: its slot is vacated and the copy lies in a bucket the lookup of the key
      never reads. */
  lemma DisplacedEntryLost(s: seq<Entry>, s': seq<Entry>, g: Geometry, hash: Hash, idx1: nat, i: nat, v2: nat, j: nat,
                           k: Key)
    requires Fits(s, g) && idx1 < g.size
    requires MovedOne(s, s', g, hash, idx1, i, v2, j)
    requires idx1 == PrimaryIndex(g, hash, k) && v2 != AlternateIndex(g, hash, k)
    requires SlotMatches(k, s[Offset(g, idx1, i)])
    requires forall o :: 0 <= o < |s| && o != Offset(g, idx1, i) ==> !SlotMatches(k, s[o])
    ensures Lookup(s, g, hash, k) == Some(Offset(g, idx1, i))
    ensures Fits(s', g) && Lookup(s', g, hash, k) == None
  {
    var a := AlternateIndex(g, hash, k);
    BucketAt(s, g, idx1, i);
    forall b | 0 <= b < g.bucket && b != i
      ensures !SlotMatches(k, Bucket(s, g, idx1)[b])
    {
      BucketAt(s, g, idx1, b);
      OffsetDistinct(g, idx1, b, idx1, i);
    }
    assert FindIndex(Bucket(s, g, idx1), k, 0) == i + 1;
    LookupMeaning(s, g, hash, k);
    forall b | 0 <= b < g.bucket
      ensures !SlotMatches(k, Bucket(s', g, idx1)[b]) && !SlotMatches(k, Bucket(s', g, a)[b])
    {
      BucketAt(s, g, a, b);
      MovedSlotNoMatch(s, s', g, hash, idx1, i, v2, j, k, idx1, b);
      MovedSlotNoMatch(s, s', g, hash, idx1, i, v2, j, k, a, b);
    }
    LookupMeaning(s', g, hash, k);
  }

  // ----------------------------------------------------------------------------
  // Insertion, deletion, flush

  /** The table contents together with the entry counter. */
  datatype Store = Store(slots: seq<Entry>, count: u64)

  datatype AddOutcome = Added(offset: nat) | AlreadyThere(offset: nat) | Full

  /** `ftb_add_entry`. */
  function Insert(st: Store, g: Geometry, hash: Hash, k: Key): (r: (Store, AddOutcome))
    requires Fits(st.slots, g)
    ensures Fits(r.0.slots, g)
    ensures r.1.Added? ==> r.1.offset < |st.slots|
    ensures r.1.AlreadyThere? ==> r.1.offset < |st.slots|
  {
    match Lookup(st.slots, g, hash, k)
    case Some(o) => (st, AlreadyThere(o))
    case None =>
      var (s1, choice) := ChooseSlot(st.slots, g, hash, k);
      match choice
      case NoRoom => (Store(s1, st.count), Full)
      case Slot(index, b) =>
        OffsetInTable(g, index, b);
        var off := Offset(g, index, b);
        (Store(s1[off := Stored(k)], Inc64(st.count)), Added(off))
  }

  /** A key that is already findable is reported with its slot and nothing changes. */
  lemma AddExisting(st: Store, g: Geometry, hash: Hash, k: Key)
    requires Fits(st.slots, g) && Lookup(st.slots, g, hash, k).Some?
    ensures Insert(st, g, hash, k) == (st, AlreadyThere(Lookup(st.slots, g, hash, k).value))
  {
  }

  /** A full table refuses the key and stays as it was. */
  lemma AddFullUnchanged(st: Store, g: Geometry, hash: Hash, k: Key)
    requires Fits(st.slots, g)
    ensures Insert(st, g, hash, k).1.Full? ==> Insert(st, g, hash, k).0 == st
  {
    FindSlotNoRoomUnchanged(st.slots, g, hash, k);
  }

  /** A new key is written into a slot of its primary bucket as `Stored(k)` (n = 0,
      gate = 0, occupied) and the counter goes up by one. */
  lemma AddNew(st: Store, g: Geometry, hash: Hash, k: Key)
    requires Fits(st.slots, g)
    requires Insert(st, g, hash, k).1.Added?
    ensures Insert(st, g, hash, k).0.slots[Insert(st, g, hash, k).1.offset] == Stored(k)
    ensures Insert(st, g, hash, k).0.count == Inc64(st.count)
    ensures InBucket(g, PrimaryIndex(g, hash, k), Insert(st, g, hash, k).1.offset)
  {
  }

  /** After the insertion of a key with clean padding, the lookup finds that very slot. */
  lemma AddThenFind(st: Store, g: Geometry, hash: Hash, k: Key)
    requires Fits(st.slots, g) && Clean(k)
    requires Insert(st, g, hash, k).1.Added?
    ensures Lookup(Insert(st, g, hash, k).0.slots, g, hash, k) == Some(Insert(st, g, hash, k).1.offset)
  {
    var s := st.slots;
    var idx1 := PrimaryIndex(g, hash, k);
    var (s1, choice) := ChooseSlot(s, g, hash, k);
    var b := choice.bucket;
    var off := Offset(g, idx1, b);
    OffsetInTable(g, idx1, b);
    var s' := s1[off := Stored(k)];
    assert Insert(st, g, hash, k) == (Store(s', Inc64(st.count)), Added(off));
    var t := Bucket(s, g, idx1);
    var t' := Bucket(s', g, idx1);
    BucketAt(s', g, idx1, b);
    StoredMatchesIff(k);
    if FirstFree(t, 0).Some? {
      forall i | 0 <= i < b
        ensures !SlotMatches(k, t'[i])
      {
        BucketAt(s', g, idx1, i);
        BucketAt(s, g, idx1, i);
        OffsetDistinct(g, idx1, i, idx1, b);
      }
    }
    FirstMatch(t', k, b);
  }

  /** A matching slot with no matching slot before it is the one `FindIndex` reports. */
  lemma FirstMatch(t: seq<Entry>, k: Key, b: nat)
    requires b < |t| && SlotMatches(k, t[b])
    requires forall i :: 0 <= i < b ==> !SlotMatches(k, t[i])
    ensures FindIndex(t, k, 0) == b + 1
  {
  }

  datatype DelOutcome = Deleted(offset: nat) | NotFound

  /** `ftb_del_entry`: both key words of the found slot zeroed, the counter decremented. */
  function Remove(st: Store, g: Geometry, hash: Hash, k: Key): (r: (Store, DelOutcome))
    requires Fits(st.slots, g)
    ensures Fits(r.0.slots, g)
  {
    match Lookup(st.slots, g, hash, k)
    case None => (st, NotFound)
    case Some(o) => (Store(st.slots[o := Entry(Key(0, 0, 0), st.slots[o].n)], Dec64(st.count)), Deleted(o))
  }

  /** Deletion frees the found slot and leaves every other slot and the counter of the
      freed slot alone; a key that is not found is refused without change. */
  lemma DelEntryEffect(st: Store, g: Geometry, hash: Hash, k: Key)
    requires Fits(st.slots, g)
    ensures var (st', r) := Remove(st, g, hash, k);
      (r.NotFound? <==> Lookup(st.slots, g, hash, k).None?) &&
      (r.NotFound? ==> st' == st) &&
      (r.Deleted? ==>
        r.offset < |st.slots| && SlotMatches(k, st.slots[r.offset]) &&
        !Occupied(st'.slots[r.offset]) && st'.slots[r.offset] == Entry(Key(0, 0, 0), st.slots[r.offset].n) &&
        st'.count == Dec64(st.count) &&
        forall i :: 0 <= i < |st.slots| && i != r.offset ==> st'.slots[i] == st.slots[i])
  {
    LookupMeaning(st.slots, g, hash, k);
  }

  /** `ftb_flush`: every slot zeroed; `count` is left as it was. */
  function Cleared(st: Store): (r: Store)
    ensures |r.slots| == |st.slots| && r.count == st.count
    ensures forall i :: 0 <= i < |r.slots| ==> r.slots[i] == EMPTY
  {
    Store(seq(|st.slots|, _ => EMPTY), st.count)
  }

  /** After a flush no key is found, although `count` still reports the old number. */
  lemma FlushForgetsAll(st: Store, g: Geometry, hash: Hash, k: Key)
    requires Fits(st.slots, g)
    ensures Lookup(Cleared(st).slots, g, hash, k) == None
    ensures Cleared(st).count == st.count
  {
    LookupMeaning(Cleared(st).slots, g, hash, k);
  }

  /** `ftb_addr_to_u64`: the eight bytes at `addr` read as a little-endian word,
      masked to its low 48 bits. */
  function AddrToU64(addr: seq<byte>): (r: u64)
    requires |addr| >= 8
  {
    LittleEndian(addr[..8]) % 0x1_0000_0000_0000
  }

  /** Six bytes read little-endian, written out. */
  lemma SixBytes(m: seq<byte>)
    requires |m| == 6
    ensures LittleEndian(m) == m[0] as int + 0x100 * (m[1] as int) + 0x1_0000 * (m[2] as int) +
      0x100_0000 * (m[3] as int) + 0x1_0000_0000 * (m[4] as int) + 0x100_0000_0000 * (m[5] as int)
  {
    assert m[6..] == [];
    LittleEndianStep(m, 5); LittleEndianStep(m, 4); LittleEndianStep(m, 3);
    LittleEndianStep(m, 2); LittleEndianStep(m, 1); LittleEndianStep(m, 0);
    assert m[0..] == m;
  }

  /** The first six of eight bytes, as a 48-bit number, and the last two above them. */
  lemma EightBytes(w: seq<byte>)
    requires |w| == 8
    ensures LittleEndian(w) == LittleEndian(w[..6]) + 0x1_0000_0000_0000 * LittleEndian(w[6..])
    ensures LittleEndian(w[..6]) < 0x1_0000_0000_0000
  {
    var m := w[..6];
    SixBytes(m);
    assert w[8..] == [];
    LittleEndianStep(w, 7); LittleEndianStep(w, 6);
    LittleEndianStep(w, 5); LittleEndianStep(w, 4); LittleEndianStep(w, 3);
    LittleEndianStep(w, 2); LittleEndianStep(w, 1); LittleEndianStep(w, 0);
    assert w[0..] == w;
    assert LittleEndian(w[6..]) == w[6] as int + 0x100 * (w[7] as int);
  }

  lemma LowPart(a: nat, b: nat)
    requires a < 0x1_0000_0000_0000
    ensures (a + 0x1_0000_0000_0000 * b) % 0x1_0000_0000_0000 == a
  {
  }

  /** The masked word is the first six bytes (a MAC address) read little-endian,
      whatever the two bytes after them hold, and those six bytes can be read back
      from it. */
  lemma AddrToU64Meaning(addr: seq<byte>)
    requires |addr| >= 8
    ensures AddrToU64(addr) == LittleEndian(addr[..6])
    ensures LeBytes(AddrToU64(addr), 6) == addr[..6]
  {
    var w := addr[..8];
    EightBytes(w);
    assert w[..6] == addr[..6];
    LowPart(LittleEndian(w[..6]), LittleEndian(w[6..]));
    LeBytesOfLittleEndian(addr[..6]);
  }

  // ----------------------------------------------------------------------------
  // Initialisation arguments

  /** The argument checks of `ftb_init`. */
  predicate InitArgsOk(size: int, bucket: int)
  {
    0 < size <= MAX_TABLE_SIZE && IsPowerOf2(size) &&
    0 < bucket <= MAX_BUCKET_SIZE && IsPowerOf2(bucket)
  }

  /** Accepted arguments give a valid geometry, with `size_power = log2(size)`. */
  lemma InitArgsGeometry(size: int, bucket: int) returns (k: nat)
    requires InitArgsOk(size, bucket)
    ensures ValidGeometry(Geometry(size, k, bucket))
  {
    k := PowerOf2Exponent(size);
    assert And(3, 2) == 2;
  }

  /** The table-size constants are 2^20 and 2^26. */
  lemma TableSizeConstants()
    ensures Pow2(20) == DEFAULT_TABLE_SIZE && Pow2(26) == MAX_TABLE_SIZE
  {
    assert Pow2(5) == 32;
    Pow2Add(5, 5);
    Pow2Add(10, 10);
    Pow2Add(20, 5);
    Pow2Add(25, 1);
  }

  /** Every power of two up to 2^26 with buckets of 1, 2 or 4 slots is accepted;
      in particular the defaults `fc_init` substitutes for zero arguments. */
  lemma PowersAccepted(k: nat, bucket: int)
    requires k <= 26 && (bucket == 1 || bucket == 2 || bucket == 4)
    ensures InitArgsOk(Pow2(k), bucket)
    ensures InitArgsOk(DEFAULT_TABLE_SIZE, MAX_BUCKET_SIZE)
  {
    TableSizeConstants();
    Pow2Monotone(k, 26);
    PowerIsPowerOf2(k);
    PowerIsPowerOf2(20);
    PowerIsPowerOf2(0);
    PowerIsPowerOf2(1);
    PowerIsPowerOf2(2);
  }

  /** `ftb_init` accepts a table of one bucket, with `size_power == 0`.  No lookup or
      insertion can serve it: the `uint32_t` shift count `size_power - 1` of
      `ftb_alt_index` wraps to 0xFFFFFFFF, and no slot sequence `Fits` that geometry. */
  lemma SizeOneAcceptedUnserved(s: seq<Entry>, bucket: int)
    requires bucket == 1 || bucket == 2 || bucket == 4
    ensures InitArgsOk(1, bucket) && ValidGeometry(Geometry(1, 0, bucket))
    ensures (0 - 1) % 0x1_0000_0000 == 0xFFFF_FFFF && !Fits(s, Geometry(1, 0, bucket))
  {
  }

  /** The loop of `ftb_init` that computes `size_power`: halve until 1, counting. */
  method Log2(size: nat) returns (power: nat)
    requires IsPowerOf2(size)
    ensures Pow2(power) == size
  {
    ghost var k := PowerOf2Exponent(size);
    var s := size;
    ghost var rest: nat := k;
    power := 0;
    while s > 1
      invariant s == Pow2(rest) && power + rest == k
    {
      s := s / 2;
      rest := rest - 1;
      power := power + 1;
    }
  }

  // ----------------------------------------------------------------------------
  // The table descriptor

  /** `struct flow_table`: the slot array (null when released), its geometry, the
      entry counter and the reference count. */
  class Table {
    var table: array?<Entry>
    var size: nat
    var sizePower: nat
    var bucket: nat
    var count: u64
    var refCount: int
    const hash: Hash

    function Geom(): Geometry
      reads this
    {
      Geometry(size, sizePower, bucket)
    }

    /** Either released, or a valid geometry over an array of `size * bucket` slots. */
    ghost predicate Valid()
      reads this
    {
      table != null ==> ValidGeometry(Geom()) && table.Length == size * bucket
    }

    /** A zeroed descriptor, as embedded in a freshly allocated module instance. */
    constructor (hash: Hash)
      ensures this.hash == hash && table == null
      ensures size == 0 && sizePower == 0 && bucket == 0 && count == 0 && refCount == 0
      ensures Valid()
    {
      this.hash := hash;
      table := null;
      size := 0;
      sizePower := 0;
      bucket := 0;
      count := 0;
      refCount := 0;
    }

    /** `ftb_init`; `allocOk` is whether the zeroing allocation succeeds. */
    method Init(sizeArg: int, bucketArg: int, allocOk: bool) returns (r: int)
      requires Valid()
      modifies this
      ensures Valid()
      ensures r == (if !InitArgsOk(sizeArg, bucketArg) then -EINVAL else if !allocOk then -ENOMEM else 0)
      ensures r == -EINVAL ==>
        table == old(table) && size == old(size) && sizePower == old(sizePower) &&
        bucket == old(bucket) && refCount == old(refCount)
      ensures r == -ENOMEM ==>
        table == null && size == old(size) && sizePower == old(sizePower) &&
        bucket == old(bucket) && refCount == old(refCount)
      ensures r == 0 ==>
        table != null && fresh(table) && size == sizeArg && bucket == bucketArg &&
        ValidGeometry(Geom()) && table[..] == seq(size * bucket, _ => EMPTY) && refCount == 1
      ensures count == old(count)
    {
      if !(0 < sizeArg <= MAX_TABLE_SIZE && IsPowerOf2(sizeArg)) {
        return -EINVAL;
      }
      if !(0 < bucketArg <= MAX_BUCKET_SIZE && IsPowerOf2(bucketArg)) {
        return -EINVAL;
      }
      ghost var k := InitArgsGeometry(sizeArg, bucketArg);
      assert Pow2(k) == sizeArg;
      if !allocOk {
        table := null;
        return -ENOMEM;
      }
      OffsetInTable(Geometry(sizeArg, k, bucketArg), 0, 0);
      table := new Entry[sizeArg * bucketArg]((_) => EMPTY);
      size := sizeArg;
      bucket := bucketArg;
      sizePower := Log2(sizeArg);
      refCount := 1;
      return 0;
    }

    /** `ftb_deinit`: drops one reference, releasing the slots with the last one. */
    method Deinit() returns (r: int)
      requires Valid()
      modifies this
      ensures Valid()
      ensures r == (if old(table) == null || old(size) == 0 || old(bucket) == 0 || old(refCount) == 0 then -EINVAL else 0)
      ensures r == -EINVAL ==> refCount == old(refCount)
      ensures r == -EINVAL || old(refCount) > 1 ==>
        table == old(table) && size == old(size) && sizePower == old(sizePower) &&
        bucket == old(bucket) && count == old(count)
      ensures r == 0 && old(refCount) > 1 ==> refCount == old(refCount) - 1
      ensures r == 0 && old(refCount) <= 1 ==>
        table == null && size == 0 && sizePower == 0 && bucket == 0 && count == 0 && refCount == 0
    {
      if table == null || size == 0 || bucket == 0 || refCount == 0 {
        return -EINVAL;
      }
      if refCount > 1 {
        refCount := refCount - 1;
        return 0;
      }
      table := null;
      size := 0;
      sizePower := 0;
      bucket := 0;
      count := 0;
      refCount := 0;
      return 0;
    }

    /** `ftb_ref`: one more reference to a live table (the 32-bit counter is taken
        not to overflow). */
    method Ref() returns (r: int)
      requires refCount < 0x7fff_ffff
      modifies this`refCount
      ensures r == (if table == null || size == 0 || bucket == 0 || old(refCount) <= 0 then -EINVAL else 0)
      ensures refCount == (if r == 0 then old(refCount) + 1 else old(refCount))
    {
      if table == null || size == 0 || bucket == 0 || refCount <= 0 {
        return -EINVAL;
      }
      refCount := refCount + 1;
      return 0;
    }

    /** `ftb_find_index` over the slots of bucket `index` (the C function receives the
        address of the bucket's first slot and the bucket size). */
    method FindIndexAt(k: Key, index: nat) returns (r: nat)
      requires Valid() && table != null && index < size
      ensures r == FindIndex(Bucket(table[..], Geom(), index), k, 0)
    {
      ghost var t := Bucket(table[..], Geom(), index);
      OffsetInTable(Geom(), index, 0);
      var base := index * bucket;
      var i := 0;
      while i < bucket
        invariant 0 <= i <= bucket
        invariant FindIndex(t, k, i) == FindIndex(t, k, 0)
      {
        if SlotMatches(k, table[base + i]) {
          assert table[base + i] == t[i];
          return i + 1;
        }
        i := i + 1;
      }
      return 0;
    }

    /** `ftb_find`: the offset stands for the address of the slot's counter. */
    method Find(k: Key) returns (r: int, off: nat)
      requires Valid() && table != null && size >= 2
      ensures Lookup(table[..], Geom(), hash, k).Some? ==> r == 0 && off == Lookup(table[..], Geom(), hash, k).value
      ensures Lookup(table[..], Geom(), hash, k).None? ==> r == -ENOENT
    {
      r := -ENOENT;
      off := 0;
      ghost var g := Geom();
      var h := hash(k);
      var idx1 := HashToIndex(h, size);
      assert idx1 == PrimaryIndex(g, hash, k);
      var offset := idx1 * bucket;
      var tmp1 := FindIndexAt(k, idx1);
      if tmp1 != 0 {
        return 0, offset + tmp1 - 1;
      }
      AltIndexInTable(g, h, idx1);
      idx1 := AltIndex(h, sizePower, idx1);
      assert idx1 == AlternateIndex(g, hash, k);
      offset := idx1 * bucket;
      var tmp2 := FindIndexAt(k, idx1);
      if tmp2 != 0 {
        return 0, offset + tmp2 - 1;
      }
    }

    /** `ftb_find_offset`: as `Find`, reporting the slot's offset.  The C source
        repeats the body of `ftb_find` here rather than sharing it, so the model
        repeats it too. */
    method FindOffset(k: Key) returns (r: int, off: nat)
      requires Valid() && table != null && size >= 2
      ensures Lookup(table[..], Geom(), hash, k).Some? ==> r == 0 && off == Lookup(table[..], Geom(), hash, k).value
      ensures Lookup(table[..], Geom(), hash, k).None? ==> r == -ENOENT
    {
      r := -ENOENT;
      off := 0;
      ghost var g := Geom();
      var h := hash(k);
      var idx1 := HashToIndex(h, size);
      assert idx1 == PrimaryIndex(g, hash, k);
      var offset := idx1 * bucket;
      var tmp1 := FindIndexAt(k, idx1);
      if tmp1 != 0 {
        return 0, offset + tmp1 - 1;
      }
      AltIndexInTable(g, h, idx1);
      idx1 := AltIndex(h, sizePower, idx1);
      assert idx1 == AlternateIndex(g, hash, k);
      offset := idx1 * bucket;
      var tmp2 := FindIndexAt(k, idx1);
      if tmp2 != 0 {
        return 0, offset + tmp2 - 1;
      }
    }

    /** The scan `ftb_find_slot` makes of one bucket for a slot whose occupied bit
        is clear. */
    method FreeSlotIn(index: nat) returns (found: bool, b: nat)
      requires Valid() && table != null && index < size
      ensures found <==> FirstFree(Bucket(table[..], Geom(), index), 0).Some?
      ensures found ==> b == FirstFree(Bucket(table[..], Geom(), index), 0).value
    {
      ghost var t := Bucket(table[..], Geom(), index);
      var j := 0;
      while j < bucket
        invariant 0 <= j <= bucket
        invariant forall c :: 0 <= c < j ==> Occupied(t[c])
      {
        OffsetInTable(Geom(), index, j);
        if !Occupied(table[index * bucket + j]) {
          assert !Occupied(t[j]);
          return true, j;
        }
        j := j + 1;
      }
      return false, 0;
    }

    /** One round of the displacement loop of `ftb_find_slot`, for slot `i` of the
        primary bucket `idx1`: `Stop` at the `break`, `Moved` when the occupant was
        moved, `Next` when its alternate bucket is full too. */
    method MoveOccupant(idx1: nat, i: nat) returns (step: MoveStep)
      requires Valid() && table != null && size >= 2 && idx1 < size && i < bucket
      modifies table
      ensures step != Moved ==> table[..] == old(table[..])
      ensures step == Stop ==> TryMove(old(table[..]), Geom(), hash, idx1, i) == (old(table[..]), NoRoom)
      ensures step == Moved ==> TryMove(old(table[..]), Geom(), hash, idx1, i) == (table[..], Slot(idx1, 0))
      ensures step == Next ==> TryMove(old(table[..]), Geom(), hash, idx1, i) == TryMove(old(table[..]), Geom(), hash, idx1, i + 1)
    {
      ghost var s := table[..];
      ghost var g := Geom();
      OffsetInTable(g, idx1, i);
      var offset1 := idx1 * bucket + i;
      var e := table[offset1];
      var (v1, v2) := Candidates(Geom(), hash(e.key));
      assert (v1, v2) == OccupantIndices(s, g, hash, idx1, i);
      if v1 == v2 || idx1 == v2 {
        assert TryMove(s, g, hash, idx1, i) == (s, NoRoom);
        return Stop;
      }
      var free, j := FreeSlotIn(v2);
      if !free {
        assert FirstFree(Bucket(s, g, v2), 0) == None;
        assert TryMove(s, g, hash, idx1, i) == TryMove(s, g, hash, idx1, i + 1);
        return Next;
      }
      OffsetInTable(g, v2, j);
      OffsetDistinct(g, v2, j, idx1, i);
      var offset2 := v2 * bucket + j;
      table[offset2] := table[offset1];
      table[offset1] := Vacate(table[offset1]);
      assert table[..] == s[offset2 := e][offset1 := Vacate(e)];
      assert OccupantIndices(s, g, hash, idx1, i).1 == v2;
      assert Offset(g, v2, j) == offset2 && Offset(g, idx1, i) == offset1 && s[offset1] == e;
      TryMoveMoves(s, g, hash, idx1, i, j);
      return Moved;
    }

    /** `ftb_find_slot`. */
    method FindSlot(k: Key) returns (r: int, idx: nat, b: nat)
      requires Valid() && table != null && size >= 2
      modifies table
      ensures table[..] == ChooseSlot(old(table[..]), Geom(), hash, k).0
      ensures ChooseSlot(old(table[..]), Geom(), hash, k).1 ==
        (if r == 0 then Slot(idx, b) else NoRoom)
      ensures r == 0 || r == -ENOMEM
    {
      ghost var s := table[..];
      ghost var g := Geom();
      var h := hash(k);
      var idx1 := HashToIndex(h, size);
      var free, i := FreeSlotIn(idx1);
      if free {
        return 0, idx1, i;
      }
      i := 0;
      while i < bucket
        invariant 0 <= i <= bucket
        invariant table[..] == s
        invariant TryMove(s, g, hash, idx1, i) == ChooseSlot(s, g, hash, k)
      {
        var step := MoveOccupant(idx1, i);
        if step == Stop {
          break;
        }
        if step == Moved {
          return 0, idx1, 0;
        }
        i := i + 1;
      }
      return -ENOMEM, 0, 0;
    }

    /** `ftb_add_entry`: the offset stands for the address of the slot's counter. */
    method AddEntry(k: Key) returns (r: int, off: nat)
      requires Valid() && table != null && size >= 2
      modifies this`count, table
      ensures Store(table[..], count) == Insert(old(Store(table[..], count)), Geom(), hash, k).0
      ensures match Insert(old(Store(table[..], count)), Geom(), hash, k).1
        case Added(o) => r == 0 && off == o
        case AlreadyThere(o) => r == -EEXIST && off == o
        case Full => r == -ENOMEM
    {
      ghost var st := Store(table[..], count);
      ghost var g := Geom();
      var found: int;
      found, off := Find(k);
      if found == 0 {
        return -EEXIST, off;
      }
      var got, index, b := FindSlot(k);
      if got != 0 {
        return -ENOMEM, off;
      }
      ghost var s1 := table[..];
      assert ChooseSlot(st.slots, g, hash, k) == (s1, Slot(index, b));
      assert Insert(st, g, hash, k) ==
        (Store(s1[Offset(g, index, b) := Stored(k)], Inc64(st.count)), Added(Offset(g, index, b)));
      OffsetInTable(g, index, b);
      var offset := index * bucket + b;
      // .flow = *flow; .n = 0; .gate = 0; .occupied = 1
      var e := Entry(k, 0);
      e := e.(key := e.key.(top := WithGate(e.key.top, 0)));
      e := e.(key := e.key.(top := WithOccupied(e.key.top, true)));
      assert e == Stored(k);
      table[offset] := e;
      assert table[..] == s1[Offset(g, index, b) := Stored(k)];
      count := Inc64(count);
      return 0, offset;
    }

    /** `ftb_del_entry`. */
    method DelEntry(k: Key) returns (r: int)
      requires Valid() && table != null && size >= 2
      modifies this`count, table
      ensures Store(table[..], count) == Remove(old(Store(table[..], count)), Geom(), hash, k).0
      ensures r == (if Remove(old(Store(table[..], count)), Geom(), hash, k).1.Deleted? then 0 else -ENOENT)
    {
      var found, offset := FindOffset(k);
      if found != 0 {
        return -ENOENT;
      }
      table[offset] := table[offset].(key := table[offset].key.(w0 := 0));
      table[offset] := table[offset].(key := table[offset].key.(low := 0, top := 0));
      count := Dec64(count);
      return 0;
    }

    /** `ftb_flush`. */
    method Flush() returns (r: int)
      requires Valid()
      modifies table
      ensures r == (if table == null then -EINVAL else 0)
      ensures table != null ==> table[..] == Cleared(Store(old(table[..]), count)).slots
    {
      if table == null {
        return -EINVAL;
      }
      forall i | 0 <= i < table.Length {
        table[i] := EMPTY;
      }
      return 0;
    }
  }
}
