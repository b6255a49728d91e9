/**
 The slot area of the SHKV2 mapping: eight 64-byte slots used as a ring, and the
 code that fills, reads and prints them. The byte-level methods work in place on
 the mapping; the functions beside them say what they compute.
 */
module ShmSlots {
  import opened Common

  const SLOT_COUNT := 8
  const KEY_SIZE := 24
  const VAL_SIZE := 40
  const SLOT_SIZE := 64
  const SLOTS_BYTES := 512

  /** The 512 bytes of the slot area. */
  type Slots = s: bytes | |s| == SLOTS_BYTES witness seq(SLOTS_BYTES, _ => 0)

  /** The bytes of one slot holding key and val: both cut to leave room for a NUL, both padded. */
  function SlotImage(key: bytes, val: bytes): (img: bytes)
    ensures |img| == SLOT_SIZE
  {
    var k, v := Truncate(key, KEY_SIZE - 1), Truncate(val, VAL_SIZE - 1);
    (k + Zeros(KEY_SIZE - |k|)) + (v + Zeros(VAL_SIZE - |v|))
  }

  function SlotOffset(id: nat): (off: nat)
    requires id >= 1
    ensures off + SLOT_SIZE <= SLOTS_BYTES
  {
    ((id - 1) % SLOT_COUNT) * SLOT_SIZE
  }

  /** Two ids use the same 64 bytes or disjoint ones. */
  lemma SlotsDisjoint(i: nat, j: nat)
    requires i >= 1 && j >= 1
    ensures SlotOffset(i) == SlotOffset(j) <==> (i - 1) % SLOT_COUNT == (j - 1) % SLOT_COUNT
    ensures SlotOffset(i) == SlotOffset(j)
         || SlotOffset(i) + SLOT_SIZE <= SlotOffset(j) || SlotOffset(j) + SLOT_SIZE <= SlotOffset(i)
  {
    var a, b := (i - 1) % SLOT_COUNT, (j - 1) % SLOT_COUNT;
    assert a < b || a == b || b < a;
  }

  function WithSlot(slots: Slots, id: nat, key: bytes, val: bytes): Slots
    requires id >= 1
  {
    Splice(slots, SlotOffset(id), SlotImage(key, val))
  }

  function SlotAt(slots: Slots, id: nat): (bytes, bytes)
    requires id >= 1
  {
    var off := SlotOffset(id);
    (CString(slots[off..off + KEY_SIZE]), CString(slots[off + KEY_SIZE..off + SLOT_SIZE]))
  }

  /** What a reader gets back for a key or value: cut to the field, then to its first NUL. */
  function Stored(key: bytes, val: bytes): (bytes, bytes) {
    (CString(Truncate(key, KEY_SIZE - 1)), CString(Truncate(val, VAL_SIZE - 1)))
  }

  lemma ImageFields(key: bytes, val: bytes)
    ensures (CString(SlotImage(key, val)[..KEY_SIZE]), CString(SlotImage(key, val)[KEY_SIZE..SLOT_SIZE])) == Stored(key, val)
  {
    var k, v := Truncate(key, KEY_SIZE - 1), Truncate(val, VAL_SIZE - 1);
    assert SlotImage(key, val)[..KEY_SIZE] == k + Zeros(KEY_SIZE - |k|);
    assert SlotImage(key, val)[KEY_SIZE..SLOT_SIZE] == v + Zeros(VAL_SIZE - |v|);
    CStringOfPadded(k, KEY_SIZE - |k|);
    CStringOfPadded(v, VAL_SIZE - |v|);
  }

  /** Writing a slot is seen at every id on the same ring position and nowhere else. */
  lemma ReadAfterWrite(slots: Slots, id: nat, key: bytes, val: bytes, other: nat)
    requires id >= 1 && other >= 1
    ensures SlotAt(WithSlot(slots, id, key, val), other) ==
            if (other - 1) % SLOT_COUNT == (id - 1) % SLOT_COUNT then Stored(key, val) else SlotAt(slots, other)
  {
    var img, off, at := SlotImage(key, val), SlotOffset(id), SlotOffset(other);
    assert off == at || off + SLOT_SIZE <= at || at + SLOT_SIZE <= off by { SlotsDisjoint(id, other); }
    assert off == at <==> (other - 1) % SLOT_COUNT == (id - 1) % SLOT_COUNT by { SlotsDisjoint(id, other); }
    SpliceSlice(slots, off, img, at, at + KEY_SIZE);
    SpliceSlice(slots, off, img, at + KEY_SIZE, at + SLOT_SIZE);
    if off == at {
      assert img[0..KEY_SIZE] == img[..KEY_SIZE];
      ImageFields(key, val);
    }
  }

  /** Clearing a slot and then copying the two fields into it leaves exactly the slot image. */
  lemma ClearThenCopy(was: bytes, off: nat, key: bytes, val: bytes)
    requires off + SLOT_SIZE <= |was|
    ensures var cleared := Splice(was, off, Zeros(SLOT_SIZE));
      Splice(Splice(cleared, off, Truncate(key, KEY_SIZE - 1)), off + KEY_SIZE, Truncate(val, VAL_SIZE - 1))
      == Splice(was, off, SlotImage(key, val))
  {
  }

  /** The scan of cstr: stops at the first NUL. */
  method Cstr(b: bytes) returns (s: bytes)
    ensures s == CString(b)
  {
    for i := 0 to |b|
      invariant 0 !in b[..i]
    {
      if b[i] == 0 {
        CStringUnique(b, b[..i]);
        return b[..i];
      }
    }
    assert b == b[..|b|];
    CStringUnique(b, b);
    return b;
  }

  /** readSlot on the 512 bytes of a snapshot. */
  method ReadSlot(slots: Slots, id: nat) returns (key: bytes, val: bytes)
    requires id >= 1
    ensures (key, val) == SlotAt(slots, id)
  {
    var off := ((id - 1) % SLOT_COUNT) * SLOT_SIZE;
    var slot := slots[off..off + SLOT_SIZE];
    assert slot[..KEY_SIZE] == slots[off..off + KEY_SIZE];
    assert slot[KEY_SIZE..] == slots[off + KEY_SIZE..off + SLOT_SIZE];
    key := Cstr(slot[..KEY_SIZE]);
    val := Cstr(slot[KEY_SIZE..]);
  }

  /** The words and slot bytes of one mapping. */
  class Mapping {
    const slots: array<byte>
    var seqWord: nat
    var futexWord: nat
    var counter: nat

    ghost predicate Valid()
      reads this
    {
      slots.Length == SLOTS_BYTES && seqWord < 0x1_0000_0000 && futexWord < 0x1_0000_0000
    }

    /** openShm with create: the page is cleared. */
    constructor ()
      ensures Valid() && fresh(slots)
      ensures seqWord == 0 && futexWord == 0 && counter == 0 && slots[..] == Zeros(SLOTS_BYTES)
    {
      slots := new byte[SLOTS_BYTES](_ => 0);
      seqWord, futexWord, counter := 0, 0, 0;
    }

    method WriteSlot(id: nat, key: bytes, val: bytes)
      requires Valid() && id >= 1
      modifies slots
      ensures Valid() && slots[..] == WithSlot(old(slots[..]), id, key, val)
    {
      var off := ((id - 1) % SLOT_COUNT) * SLOT_SIZE;
      hide Splice, SlotImage;
      ClearThenCopy(slots[..], off, key, val);
      CopyInto(slots, off, Zeros(SLOT_SIZE));
      CopyInto(slots, off, Truncate(key, KEY_SIZE - 1));
      CopyInto(slots, off + KEY_SIZE, Truncate(val, VAL_SIZE - 1));
    }

    /** The body of the serve loop for update k: publish under the seqlock, then move the futex word. */
    method Publish(k: nat, key: bytes, val: bytes)
      requires Valid() && k >= 1
      modifies this, slots
      ensures Valid() && slots[..] == WithSlot(old(slots[..]), k, key, val)
      ensures counter == k && futexWord == k % 0x1_0000_0000
      ensures seqWord == (old(seqWord) + 2) % 0x1_0000_0000
    {
      seqWord := (seqWord + 1) % 0x1_0000_0000;
      WriteSlot(k, key, val);
      counter := k;
      seqWord := (seqWord + 1) % 0x1_0000_0000;
      futexWord := k % 0x1_0000_0000;
    }
  }

  /** One "observed update" line, with the counter of the snapshot it was read from. */
  datatype Line = Line(id: nat, key: bytes, val: bytes, snap: nat)

  /** The lines the watch loop prints from one snapshot: ids from..counter, at most room of them. */
  function Backfill(slots: Slots, from: nat, counter: nat, room: nat): (lines: seq<Line>)
    requires from >= 1
    ensures |lines| == if from > counter then 0 else if counter - from + 1 < room then counter - from + 1 else room
    ensures forall j :: 0 <= j < |lines| ==>
      lines[j].id == from + j && lines[j].snap == counter && (lines[j].key, lines[j].val) == SlotAt(slots, from + j)
  {
    var n := if from > counter then 0 else if counter - from + 1 < room then counter - from + 1 else room;
    seq(n, j requires 0 <= j => var kv := SlotAt(slots, from + j); Line(from + j, kv.0, kv.1, counter))
  }

  /** The inner loop of watch over one snapshot. */
  method PrintNew(slots: Slots, counter: nat, last: nat, printed: nat, events: nat) returns (lines: seq<Line>)
    requires printed <= events && last <= counter
    ensures lines == Backfill(slots, last + 1, counter, events - printed)
  {
    lines := [];
    var id := last + 1;
    while id <= counter && printed + |lines| < events
      invariant id == last + 1 + |lines| && id <= counter + 1 && printed + |lines| <= events
      invariant forall j :: 0 <= j < |lines| ==>
        lines[j].id == last + 1 + j && lines[j].snap == counter && (lines[j].key, lines[j].val) == SlotAt(slots, last + 1 + j)
    {
      var key, val := ReadSlot(slots, id);
      lines := lines + [Line(id, key, val, counter)];
      id := id + 1;
    }
    ghost var spec := Backfill(slots, last + 1, counter, events - printed);
    assert |lines| == |spec|;
    assert forall j :: 0 <= j < |lines| ==> lines[j] == spec[j];
  }
}
