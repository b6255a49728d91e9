/**
 The SHKV1 store: a header and fixed 256-byte slots in one mapped file. The methods work
 on the bytes in place; the functions say what they compute; the lemmas say that those
 bytes are a finite map with a bounded number of keys.
 */
module ByteStore {
  import opened Common

  const HEADER_SIZE := 10
  const KEY_FIELD := 64
  const VALUE_FIELD := 192
  const SLOT_SIZE := 256
  const KEY_MAX := 63
  const VALUE_MAX := 191

  const MAGIC: bytes := [83, 72, 75, 86, 49, 0]  // "SHKV1\0"

  type SlotCount = n: nat | n < 0x1_0000_0000

  datatype StoreError = NotAStore | StoreFull | EmptyKey | KeyTooLong | ValueTooLong | KeyNotFound

  function LittleEndian32(n: SlotCount): bytes {
    [n % 256, n / 256 % 256, n / 0x1_0000 % 256, n / 0x100_0000]
  }

  function FromLittleEndian32(a: int, b: int, c: int, d: int): int { a + 256 * b + 0x1_0000 * c + 0x100_0000 * d }

  lemma LittleEndianRoundTrip(n: SlotCount)
    ensures var e := LittleEndian32(n); FromLittleEndian32(e[0], e[1], e[2], e[3]) == n
  {
    var q := n / 256;
    assert n / 0x1_0000 == q / 256 && n / 0x100_0000 == q / 256 / 256;
  }

  function FileSize(n: nat): nat { HEADER_SIZE + n * SLOT_SIZE }

  function Header(n: SlotCount): bytes { MAGIC + LittleEndian32(n) }

  /** The bytes that create leaves: a header, then empty slots. */
  function EmptyStore(n: SlotCount): bytes { Header(n) + Zeros(n * SLOT_SIZE) }

  /** openStore: the slot count of a well-formed file. */
  function OpenSpec(d: bytes): (r: Result<SlotCount, StoreError>)
    ensures r.Ok? ==> Sized(d, r.value)
    ensures r.Err? ==> r.error == NotAStore
  {
    if |d| < HEADER_SIZE || d[..6] != MAGIC then Err(NotAStore)
    else
      var n := FromLittleEndian32(d[6], d[7], d[8], d[9]);
      if |d| != FileSize(n) then Err(NotAStore) else Ok(n)
  }

  // ----- slots -----

  function SlotOff(i: nat): nat { HEADER_SIZE + i * SLOT_SIZE }

  predicate Sized(d: bytes, n: nat) { |d| == FileSize(n) }

  lemma SlotInside(n: nat, i: nat)
    requires i < n
    ensures SlotOff(i) + SLOT_SIZE <= FileSize(n)
  {
  }

  function SlotKey(d: bytes, n: nat, i: nat): bytes
    requires Sized(d, n) && i < n
  {
    SlotInside(n, i);
    CString(d[SlotOff(i)..SlotOff(i) + KEY_FIELD])
  }

  function SlotValue(d: bytes, n: nat, i: nat): bytes
    requires Sized(d, n) && i < n
  {
    SlotInside(n, i);
    CString(d[SlotOff(i) + KEY_FIELD..SlotOff(i) + SLOT_SIZE])
  }

  /** The first slot from i on whose key is key, or n. */
  function FindFrom(d: bytes, n: nat, key: bytes, i: nat): (f: nat)
    requires Sized(d, n) && i <= n
    ensures i <= f <= n && (f < n ==> SlotKey(d, n, f) == key)
    ensures forall j :: i <= j < f ==> SlotKey(d, n, j) != key
    decreases n - i
  {
    if i == n || SlotKey(d, n, i) == key then i else FindFrom(d, n, key, i + 1)
  }

  function Find(d: bytes, n: nat, key: bytes): (f: nat)
    requires Sized(d, n)
    ensures f <= n && (f < n ==> SlotKey(d, n, f) == key)
    ensures forall j :: 0 <= j < f ==> SlotKey(d, n, j) != key
  {
    FindFrom(d, n, key, 0)
  }

  /** How many slots are used: those before the first empty one. */
  function Used(d: bytes, n: nat): nat
    requires Sized(d, n)
  {
    Find(d, n, [])
  }

  /** A slot holding key and value, both NUL-padded. */
  function SlotBytes(key: bytes, value: bytes): (s: bytes)
    requires |key| <= KEY_FIELD && |value| <= VALUE_FIELD
    ensures |s| == SLOT_SIZE
  {
    (key + Zeros(KEY_FIELD - |key|)) + (value + Zeros(VALUE_FIELD - |value|))
  }

  function WithSlot(d: bytes, n: nat, i: nat, key: bytes, value: bytes): (w: bytes)
    requires Sized(d, n) && i < n && |key| <= KEY_FIELD && |value| <= VALUE_FIELD
    ensures Sized(w, n)
  {
    SlotInside(n, i);
    Splice(d, SlotOff(i), SlotBytes(key, value))
  }

  /** What cmdSet accepts; argv strings have no NUL. */
  predicate GoodPair(key: bytes, value: bytes) {
    1 <= |key| <= KEY_MAX && |value| <= VALUE_MAX && 0 !in key && 0 !in value
  }

  /** The slot that holds key, else the first empty slot, else n. */
  function TargetSlot(d: bytes, n: nat, key: bytes): (t: nat)
    requires Sized(d, n)
    ensures t <= n
  {
    var f := Find(d, n, key);
    if f < n then f else Used(d, n)
  }

  /** The bytes after set, or why there is no slot for key. */
  function SetSpec(d: bytes, n: nat, key: bytes, value: bytes): Result<bytes, StoreError>
    requires Sized(d, n) && |key| <= KEY_FIELD && |value| <= VALUE_FIELD
  {
    var t := TargetSlot(d, n, key);
    if t == n then Err(StoreFull) else Ok(WithSlot(d, n, t, key, value))
  }

  function GetSpec(d: bytes, n: nat, key: bytes): Result<bytes, StoreError>
    requires Sized(d, n)
  {
    var f := Find(d, n, key);
    if f < n then Ok(SlotValue(d, n, f)) else Err(KeyNotFound)
  }

  // ----- the store as a finite map -----

  /** Used slots come first and have distinct keys; the rest are empty. */
  ghost predicate StoreInv(d: bytes, n: SlotCount) {
    && Sized(d, n) && d[..HEADER_SIZE] == Header(n)
    && (forall i, j :: 0 <= i < j < Used(d, n) ==> SlotKey(d, n, i) != SlotKey(d, n, j))
    && (forall i :: Used(d, n) <= i < n ==> SlotKey(d, n, i) == [] && SlotValue(d, n, i) == [])
  }

  /** The pairs in the first u slots. */
  function MapOf(d: bytes, n: nat, u: nat): map<bytes, bytes>
    requires Sized(d, n) && u <= n
  {
    if u == 0 then map[] else MapOf(d, n, u - 1)[SlotKey(d, n, u - 1) := SlotValue(d, n, u - 1)]
  }

  function AsMap(d: bytes, n: nat): map<bytes, bytes>
    requires Sized(d, n)
  {
    MapOf(d, n, Used(d, n))
  }

  lemma {:induction false} MapOfHas(d: bytes, n: nat, u: nat)
    requires Sized(d, n) && u <= n && forall i, j :: 0 <= i < j < u ==> SlotKey(d, n, i) != SlotKey(d, n, j)
    ensures forall k :: k in MapOf(d, n, u) <==> exists i :: 0 <= i < u && SlotKey(d, n, i) == k
    ensures forall i :: 0 <= i < u ==> SlotKey(d, n, i) in MapOf(d, n, u) && MapOf(d, n, u)[SlotKey(d, n, i)] == SlotValue(d, n, i)
    ensures |MapOf(d, n, u)| == u
  {
    hide SlotKey, SlotValue;
    if u > 0 { MapOfHas(d, n, u - 1); }
  }

  /** Two stores with the same first u slots show the same pairs there. */
  lemma {:induction false} MapOfSame(d: bytes, e: bytes, n: nat, u: nat)
    requires Sized(d, n) && Sized(e, n) && u <= n
    requires forall i :: 0 <= i < u ==> SlotKey(d, n, i) == SlotKey(e, n, i) && SlotValue(d, n, i) == SlotValue(e, n, i)
    ensures MapOf(d, n, u) == MapOf(e, n, u)
  {
    if u > 0 { MapOfSame(d, e, n, u - 1); }
  }

  // ----- create and open -----

  lemma ZerosHaveNoString(n: nat)
    ensures CString(Zeros(n)) == []
  {
  }

  /** create gives an empty map, and open finds the slot count it wrote. */
  lemma CreatedStore(n: SlotCount)
    ensures Sized(EmptyStore(n), n) && StoreInv(EmptyStore(n), n) && AsMap(EmptyStore(n), n) == map[]
  {
    var d := EmptyStore(n);
    forall i | 0 <= i < n ensures SlotKey(d, n, i) == [] && SlotValue(d, n, i) == [] {
      SlotInside(n, i);
      assert d[SlotOff(i)..SlotOff(i) + KEY_FIELD] == Zeros(KEY_FIELD);
      assert d[SlotOff(i) + KEY_FIELD..SlotOff(i) + SLOT_SIZE] == Zeros(SLOT_SIZE - KEY_FIELD);
      ZerosHaveNoString(KEY_FIELD);
      ZerosHaveNoString(SLOT_SIZE - KEY_FIELD);
    }
    assert d[..HEADER_SIZE] == Header(n);
  }

  /** Every store in shape opens with its slot count, and every file that opens has that size. */
  lemma OpenFindsSlots(d: bytes, n: SlotCount)
    requires StoreInv(d, n)
    ensures OpenSpec(d) == Ok(n)
  {
    HeaderReads(d, n);
  }

  /** open accepts exactly the files that begin with some header and have the size it calls for. */
  lemma OpenAcceptsIff(d: bytes, n: SlotCount)
    ensures OpenSpec(d) == Ok(n) <==> |d| == FileSize(n) && d[..HEADER_SIZE] == Header(n)
  {
    if |d| == FileSize(n) && d[..HEADER_SIZE] == Header(n) {
      HeaderReads(d, n);
    }
    if OpenSpec(d) == Ok(n) {
      WordReads(d[6], d[7], d[8], d[9]);
      assert d[..HEADER_SIZE] == d[..6] + [d[6], d[7], d[8], d[9]];
    }
  }

  lemma HeaderReads(d: bytes, n: SlotCount)
    requires |d| >= HEADER_SIZE && d[..HEADER_SIZE] == Header(n)
    ensures d[..6] == MAGIC && FromLittleEndian32(d[6], d[7], d[8], d[9]) == n
  {
    LittleEndianRoundTrip(n);
    assert d[..6] == d[..HEADER_SIZE][..6] == MAGIC;
    assert forall i :: 6 <= i < 10 ==> d[i] == d[..HEADER_SIZE][i] == LittleEndian32(n)[i - 6];
  }

  lemma WordReads(a: byte, b: byte, c: byte, e: byte)
    ensures var n := FromLittleEndian32(a, b, c, e); 0 <= n < 0x1_0000_0000 && LittleEndian32(n) == [a, b, c, e]
  {
    var n := FromLittleEndian32(a, b, c, e);
    var p := b + 256 * c + 0x1_0000 * e;
    var q := c + 256 * e;
    assert n == a + 256 * p && n % 256 == a && n / 256 == p;
    assert p == b + 256 * q && p % 256 == b && p / 256 == q;
    assert n / 0x1_0000 == n / 256 / 256 && n / 0x100_0000 == n / 256 / 256 / 256;
  }

  // ----- set -----

  lemma SlotBytesFields(key: bytes, value: bytes)
    requires |key| <= KEY_MAX && |value| <= VALUE_MAX && 0 !in key && 0 !in value
    ensures CString(SlotBytes(key, value)[..KEY_FIELD]) == key && CString(SlotBytes(key, value)[KEY_FIELD..SLOT_SIZE]) == value
  {
    assert SlotBytes(key, value)[..KEY_FIELD] == key + Zeros(KEY_FIELD - |key|);
    assert SlotBytes(key, value)[KEY_FIELD..SLOT_SIZE] == value + Zeros(VALUE_FIELD - |value|);
    CStringOfPadded(key, KEY_FIELD - |key|);
    CStringOfPadded(value, VALUE_FIELD - |value|);
    CStringOfNulFree(key);
    CStringOfNulFree(value);
  }

  lemma WrittenSlotReads(d: bytes, n: nat, t: nat, key: bytes, value: bytes)
    requires Sized(d, n) && t < n && GoodPair(key, value)
    ensures var w := WithSlot(d, n, t, key, value); SlotKey(w, n, t) == key && SlotValue(w, n, t) == value
  {
    hide Splice, SlotBytes;
    SlotInside(n, t);
    var s, off := SlotBytes(key, value), SlotOff(t);
    SpliceSlice(d, off, s, off, off + KEY_FIELD);
    SpliceSlice(d, off, s, off + KEY_FIELD, off + SLOT_SIZE);
    assert s[0..KEY_FIELD] == s[..KEY_FIELD];
    SlotBytesFields(key, value);
  }

  lemma OtherSlotReads(d: bytes, n: nat, t: nat, key: bytes, value: bytes, i: nat)
    requires Sized(d, n) && t < n && i < n && i != t && GoodPair(key, value)
    ensures var w := WithSlot(d, n, t, key, value); SlotKey(w, n, i) == SlotKey(d, n, i) && SlotValue(w, n, i) == SlotValue(d, n, i)
  {
    hide Splice, SlotBytes, CString;
    SlotInside(n, i);
    SlotInside(n, t);
    var s, off, at := SlotBytes(key, value), SlotOff(t), SlotOff(i);
    assert at + SLOT_SIZE <= off || off + SLOT_SIZE <= at;
    SpliceSlice(d, off, s, at, at + KEY_FIELD);
    SpliceSlice(d, off, s, at + KEY_FIELD, at + SLOT_SIZE);
  }

  lemma {:induction false} FindIs(d: bytes, n: nat, key: bytes, i: nat, f: nat)
    requires Sized(d, n) && i <= f <= n && (f < n ==> SlotKey(d, n, f) == key)
    requires forall j :: i <= j < f ==> SlotKey(d, n, j) != key
    ensures FindFrom(d, n, key, i) == f
    decreases f - i
  {
    hide SlotKey;
    if i < f { FindIs(d, n, key, i + 1, f); }
  }

  /** w shows the pairs of d, and key and value in slot t. */
  ghost predicate SameButSlot(d: bytes, w: bytes, n: nat, t: nat, key: bytes, value: bytes)
    requires Sized(d, n) && Sized(w, n)
  {
    forall i :: 0 <= i < n ==>
      (SlotKey(w, n, i), SlotValue(w, n, i)) == if i == t then (key, value) else (SlotKey(d, n, i), SlotValue(d, n, i))
  }

  /** t is where set puts key: its slot, or the first empty one when it has none. */
  ghost predicate Target(d: bytes, n: SlotCount, t: nat, key: bytes)
    requires StoreInv(d, n)
  {
    && t < n && t <= Used(d, n) && key != []
    && (t < Used(d, n) ==> SlotKey(d, n, t) == key)
    && (forall i :: 0 <= i < Used(d, n) && i != t ==> SlotKey(d, n, i) != key)
  }

  lemma WithSlotIs(d: bytes, n: nat, t: nat, key: bytes, value: bytes)
    requires Sized(d, n) && t < n && GoodPair(key, value)
    ensures SameButSlot(d, WithSlot(d, n, t, key, value), n, t, key, value)
    ensures WithSlot(d, n, t, key, value)[..HEADER_SIZE] == d[..HEADER_SIZE]
  {
    var w := WithSlot(d, n, t, key, value);
    assert w[..HEADER_SIZE] == d[..HEADER_SIZE];
    hide WithSlot, SlotKey, SlotValue;
    forall i | 0 <= i < n
      ensures (SlotKey(w, n, i), SlotValue(w, n, i)) == if i == t then (key, value) else (SlotKey(d, n, i), SlotValue(d, n, i))
    {
      if i == t { WrittenSlotReads(d, n, t, key, value); } else { OtherSlotReads(d, n, t, key, value, i); }
    }
  }

  /** Used slots stay a prefix: the new one is the next, an overwrite adds none. */
  lemma UsedAfter(d: bytes, w: bytes, n: SlotCount, t: nat, key: bytes, value: bytes)
    requires StoreInv(d, n) && Sized(w, n) && Target(d, n, t, key) && SameButSlot(d, w, n, t, key, value)
    ensures Used(w, n) == if t < Used(d, n) then Used(d, n) else t + 1
  {
    hide SlotKey, SlotValue, FindFrom;
    var e := if t < Used(d, n) then Used(d, n) else t + 1;
    assert forall i :: 0 <= i < n ==> SlotKey(w, n, i) == if i == t then key else SlotKey(d, n, i);
    FindIs(w, n, [], 0, e);
  }

  lemma UpdatedInv(d: bytes, w: bytes, n: SlotCount, t: nat, key: bytes, value: bytes)
    requires StoreInv(d, n) && Sized(w, n) && Target(d, n, t, key) && SameButSlot(d, w, n, t, key, value)
    requires w[..HEADER_SIZE] == d[..HEADER_SIZE]
    ensures StoreInv(w, n)
  {
    UsedAfter(d, w, n, t, key, value);
    hide SlotKey, SlotValue, Used, Header;
    assert forall i :: 0 <= i < n ==> SlotKey(w, n, i) == if i == t then key else SlotKey(d, n, i);
    assert forall i :: 0 <= i < n && i != t ==> SlotValue(w, n, i) == SlotValue(d, n, i);
  }

  lemma UpdatedMap(d: bytes, w: bytes, n: SlotCount, t: nat, key: bytes, value: bytes)
    requires StoreInv(d, n) && StoreInv(w, n) && Target(d, n, t, key) && SameButSlot(d, w, n, t, key, value)
    ensures AsMap(w, n) == AsMap(d, n)[key := value]
  {
    UsedAfter(d, w, n, t, key, value);
    hide SlotKey, SlotValue, Used, StoreInv, MapOf;
    if t < Used(d, n) {
      MapOfUpdate(d, w, n, t, key, value, Used(d, n));
    } else {
      MapOfNext(d, w, n, t, key, value);
    }
  }

  /** The first t + 1 slots after the empty slot t was claimed. */
  lemma MapOfNext(d: bytes, w: bytes, n: nat, t: nat, key: bytes, value: bytes)
    requires Sized(d, n) && Sized(w, n) && t < n && SameButSlot(d, w, n, t, key, value)
    ensures MapOf(w, n, t + 1) == MapOf(d, n, t)[key := value]
  {
    hide SlotKey, SlotValue;
    MapOfSame(d, w, n, t);
  }

  /** The first u slots after slot t < u, which held key, was given a new value. */
  lemma {:induction false} MapOfUpdate(d: bytes, w: bytes, n: nat, t: nat, key: bytes, value: bytes, u: nat)
    requires Sized(d, n) && Sized(w, n) && t < u <= n && SameButSlot(d, w, n, t, key, value) && SlotKey(d, n, t) == key
    requires forall i :: 0 <= i < u && i != t ==> SlotKey(d, n, i) != key
    ensures MapOf(w, n, u) == MapOf(d, n, u)[key := value]
  {
    hide SlotKey, SlotValue;
    if u == t + 1 {
      MapOfSame(d, w, n, t);
    } else {
      MapOfUpdate(d, w, n, t, key, value, u - 1);
    }
    assert (SlotKey(w, n, u - 1), SlotValue(w, n, u - 1))
      == if u - 1 == t then (key, value) else (SlotKey(d, n, u - 1), SlotValue(d, n, u - 1));
  }

  /** A nonempty key is found exactly when it is in the map, and then in a used slot. */
  lemma FoundAmongUsed(d: bytes, n: SlotCount, key: bytes)
    requires StoreInv(d, n) && key != []
    ensures Find(d, n, key) < n <==> key in AsMap(d, n)
    ensures Find(d, n, key) < n ==> Find(d, n, key) < Used(d, n)
  {
    hide SlotKey, SlotValue, FindFrom;
    var f, u := Find(d, n, key), Used(d, n);
    MapOfHas(d, n, u);
    if key in AsMap(d, n) {
      var i :| 0 <= i < u && SlotKey(d, n, i) == key;
      assert f <= i;
    }
  }

  /** There is a slot for key unless it is absent and every slot is used. */
  lemma TargetSlotIs(d: bytes, n: SlotCount, key: bytes)
    requires StoreInv(d, n) && key != []
    ensures TargetSlot(d, n, key) == n <==> key !in AsMap(d, n) && |AsMap(d, n)| == n
    ensures TargetSlot(d, n, key) < n ==> Target(d, n, TargetSlot(d, n, key), key)
  {
    MapOfHas(d, n, Used(d, n));
    FoundAmongUsed(d, n, key);
    hide SlotKey, SlotValue, FindFrom, MapOf;
  }

  /** set is a map update, and it fails exactly when the key is absent and every slot is used. */
  lemma SetIsMapUpdate(d: bytes, n: SlotCount, key: bytes, value: bytes)
    requires StoreInv(d, n) && GoodPair(key, value)
    ensures SetSpec(d, n, key, value).Err? <==> key !in AsMap(d, n) && |AsMap(d, n)| == n
    ensures SetSpec(d, n, key, value).Ok? ==>
      var w := SetSpec(d, n, key, value).value;
      Sized(w, n) && StoreInv(w, n) && AsMap(w, n) == AsMap(d, n)[key := value]
  {
    var t := TargetSlot(d, n, key);
    TargetSlotIs(d, n, key);
    if t < n {
      WithSlotIs(d, n, t, key, value);
      hide StoreInv, Target, SameButSlot, WithSlot, TargetSlot, AsMap;
      var w := WithSlot(d, n, t, key, value);
      UpdatedInv(d, w, n, t, key, value);
      UpdatedMap(d, w, n, t, key, value);
    }
  }

  // ----- get -----

  /** get answers from the map for every nonempty key. For the empty key, which it does not refuse, it
      finds the first unused slot: it agrees with the map exactly when there is none. */
  lemma GetReadsMap(d: bytes, n: SlotCount, key: bytes)
    requires StoreInv(d, n)
    ensures GetSpec(d, n, key) == (if key in AsMap(d, n) then Ok(AsMap(d, n)[key]) else Err(KeyNotFound))
            <==> key != [] || |AsMap(d, n)| == n
  {
    var f, u := Find(d, n, key), Used(d, n);
    MapOfHas(d, n, u);
    if key != [] {
      FoundAmongUsed(d, n, key);
    } else {
      assert key !in AsMap(d, n);
    }
  }

  // ----- dump -----

  type Pair = (bytes, bytes)

  /** The pairs of the first u slots that hold a key, in slot order. */
  function Collected(d: bytes, n: nat, u: nat): seq<Pair>
    requires Sized(d, n) && u <= n
  {
    if u == 0 then []
    else
      var key := SlotKey(d, n, u - 1);
      Collected(d, n, u - 1) + if key != [] then [(key, SlotValue(d, n, u - 1))] else []
  }

  function Inserted(p: Pair, ps: seq<Pair>): seq<Pair> {
    if ps == [] || Less(p.0, ps[0].0) then [p] + ps else [ps[0]] + Inserted(p, ps[1..])
  }

  /** ps sorted by key. */
  function SortedByKey(ps: seq<Pair>): seq<Pair> {
    if ps == [] then [] else Inserted(ps[|ps| - 1], SortedByKey(ps[..|ps| - 1]))
  }

  ghost predicate StrictlySorted(ps: seq<Pair>) {
    forall i, j :: 0 <= i < j < |ps| ==> Less(ps[i].0, ps[j].0)
  }

  lemma {:induction false} InsertedSorts(p: Pair, ps: seq<Pair>)
    requires StrictlySorted(ps) && forall i :: 0 <= i < |ps| ==> ps[i].0 != p.0
    ensures StrictlySorted(Inserted(p, ps))
    ensures forall q :: q in Inserted(p, ps) <==> q == p || q in ps
  {
    if ps == [] {
    } else if Less(p.0, ps[0].0) {
      forall j | 1 <= j < |ps| ensures Less(p.0, ps[j].0) { LessIsTransitive(p.0, ps[0].0, ps[j].0); }
    } else {
      LessIsTotal(p.0, ps[0].0);
      var rest := Inserted(p, ps[1..]);
      InsertedSorts(p, ps[1..]);
      assert ps == [ps[0]] + ps[1..];
      forall j | 0 <= j < |rest| ensures Less(ps[0].0, rest[j].0) {
        assert rest[j] in rest;
        if rest[j] != p { var i :| 0 <= i < |ps[1..]| && ps[1..][i] == rest[j]; }
      }
    }
  }

  lemma {:induction false} SortedByKeySorts(ps: seq<Pair>)
    requires forall i, j :: 0 <= i < j < |ps| ==> ps[i].0 != ps[j].0
    ensures StrictlySorted(SortedByKey(ps)) && forall q :: q in SortedByKey(ps) <==> q in ps
  {
    if ps != [] {
      var last := |ps| - 1;
      var rest := SortedByKey(ps[..last]);
      SortedByKeySorts(ps[..last]);
      forall i | 0 <= i < |rest| ensures rest[i].0 != ps[last].0 {
        assert rest[i] in ps[..last];
      }
      InsertedSorts(ps[last], rest);
      assert ps == ps[..last] + [ps[last]];
    }
  }

  /** In a store in shape the collected pairs are those of the used slots. */
  lemma {:induction false} CollectedAre(d: bytes, n: SlotCount, u: nat)
    requires StoreInv(d, n) && u <= n
    ensures |Collected(d, n, u)| == if u < Used(d, n) then u else Used(d, n)
    ensures forall i :: 0 <= i < |Collected(d, n, u)| ==> Collected(d, n, u)[i] == (SlotKey(d, n, i), SlotValue(d, n, i))
  {
    hide SlotKey, SlotValue, FindFrom;
    if u > 0 { CollectedAre(d, n, u - 1); }
  }

  /** dump lists exactly the map's pairs, each once, in ascending byte order of the keys. */
  lemma DumpIsTheSortedMap(d: bytes, n: SlotCount)
    requires StoreInv(d, n)
    ensures var out := SortedByKey(Collected(d, n, n));
      StrictlySorted(out) && forall q :: q in out <==> q.0 in AsMap(d, n) && AsMap(d, n)[q.0] == q.1
  {
    CollectedAre(d, n, n);
    MapOfHas(d, n, Used(d, n));
    hide SlotKey, SlotValue, MapOf, Used, SortedByKey, Collected;
    var ps := Collected(d, n, n);
    SortedByKeySorts(ps);
    forall q ensures q in ps <==> q.0 in AsMap(d, n) && AsMap(d, n)[q.0] == q.1 {
      if q in ps { var i :| 0 <= i < |ps| && ps[i] == q; }
      if q.0 in AsMap(d, n) && AsMap(d, n)[q.0] == q.1 {
        var i :| 0 <= i < Used(d, n) && SlotKey(d, n, i) == q.0;
        assert ps[i] == (q.0, q.1);
      }
    }
  }

  // ----- every run of sets -----

  /** The bytes after a sequence of sets; a set that fails leaves them alone. */
  function StoreAfter(n: SlotCount, sets: seq<(bytes, bytes)>): (d: bytes)
    requires forall i :: 0 <= i < |sets| ==> GoodPair(sets[i].0, sets[i].1)
    ensures Sized(d, n)
  {
    if sets == [] then EmptyStore(n)
    else
      var last := |sets| - 1;
      var d := StoreAfter(n, sets[..last]);
      assert GoodPair(sets[last].0, sets[last].1);
      match SetSpec(d, n, sets[last].0, sets[last].1)
      case Ok(w) => w
      case Err(_) => d
  }

  /** A finite map of at most n keys under the same sets. */
  function MapAfter(n: nat, sets: seq<(bytes, bytes)>): map<bytes, bytes> {
    if sets == [] then map[]
    else
      var last := |sets| - 1;
      var m := MapAfter(n, sets[..last]);
      if sets[last].0 in m || |m| < n then m[sets[last].0 := sets[last].1] else m
  }

  /** The store refines the bounded map over every sequence of sets, and opens with its slot count. */
  lemma {:induction false} StoreRefinesMap(n: SlotCount, sets: seq<(bytes, bytes)>)
    requires forall i :: 0 <= i < |sets| ==> GoodPair(sets[i].0, sets[i].1)
    ensures StoreInv(StoreAfter(n, sets), n) && AsMap(StoreAfter(n, sets), n) == MapAfter(n, sets)
    ensures OpenSpec(StoreAfter(n, sets)) == Ok(n)
    decreases |sets|
  {
    if sets == [] {
      CreatedStore(n);
    } else {
      hide StoreInv, AsMap, SetSpec, OpenSpec;
      var last := |sets| - 1;
      var d := StoreAfter(n, sets[..last]);
      StoreRefinesMap(n, sets[..last]);
      SetIsMapUpdate(d, n, sets[last].0, sets[last].1);
      MapFits(d, n);
    }
    OpenFindsSlots(StoreAfter(n, sets), n);
  }

  lemma MapFits(d: bytes, n: SlotCount)
    requires StoreInv(d, n)
    ensures |AsMap(d, n)| <= n
  {
    MapOfHas(d, n, Used(d, n));
  }

  // ----- the store in place -----

  lemma SlotWritten(d: bytes, n: nat, i: nat, key: bytes, value: bytes)
    requires Sized(d, n) && i < n && |key| <= KEY_FIELD && |value| <= VALUE_FIELD
    ensures SlotOff(i) + SLOT_SIZE <= |d|
    ensures var cleared := Splice(d, SlotOff(i), Zeros(SLOT_SIZE));
      Splice(Splice(cleared, SlotOff(i), key), SlotOff(i) + KEY_FIELD, value) == WithSlot(d, n, i, key, value)
  {
    SlotInside(n, i);
  }

  class Store {
    const data: array<byte>  // the shared mapping
    var slots: SlotCount

    predicate Valid() reads this { data.Length == FileSize(slots) }

    function Bytes(): (d: bytes)
      reads this, data
      requires Valid()
      ensures Sized(d, slots)
    {
      data[..]
    }

    /** A fresh file is all zeros; create writes the header. */
    constructor Create(n: SlotCount)
      ensures Valid() && slots == n && Bytes() == EmptyStore(n)
      ensures fresh(data)
    {
      data := new byte[FileSize(n)](_ => 0);
      slots := n;
      new;
      CopyInto(data, 0, MAGIC);
      CopyInto(data, 6, LittleEndian32(n));
      assert data[..] == EmptyStore(n);
    }

    /** The mapping of an existing file, whose slot count openStore has just read. */
    constructor Map(file: array<byte>, n: SlotCount)
      requires file.Length == FileSize(n)
      ensures Valid() && slots == n && data == file
    {
      data := file;
      slots := n;
    }

    /** The scan of set: the slot that holds key, else the first empty slot, else slots. */
    method Scan(key: bytes) returns (target: nat)
      requires Valid()
      ensures target == TargetSlot(Bytes(), slots, key)
    {
      hide SlotKey;
      target := slots;
      var overwrite, firstEmpty, i := false, slots as nat, 0;
      while i < slots && !overwrite
        invariant 0 <= i <= slots && 0 <= firstEmpty <= slots
        invariant overwrite ==> i < slots && target == i == Find(Bytes(), slots, key)
        invariant !overwrite ==> Find(Bytes(), slots, key) == FindFrom(Bytes(), slots, key, i)
        invariant !overwrite && firstEmpty == slots ==> Used(Bytes(), slots) == FindFrom(Bytes(), slots, [], i)
        invariant !overwrite && firstEmpty < slots ==> Used(Bytes(), slots) == firstEmpty
        decreases slots - i, !overwrite
      {
        var k := SlotKey(Bytes(), slots, i);
        if k == key {
          target, overwrite := i, true;
        } else {
          if k == [] && firstEmpty == slots { firstEmpty := i; }
          i := i + 1;
        }
      }
      if !overwrite { target := firstEmpty; }
    }

    /** What SetSpec says, done in place; a full store is left as it was. */
    method Set(key: bytes, value: bytes) returns (r: Result<(), StoreError>)
      requires Valid() && |key| <= KEY_FIELD && |value| <= VALUE_FIELD
      modifies data
      ensures match SetSpec(old(Bytes()), slots, key, value)
              case Ok(w) => r == Ok(()) && Bytes() == w
              case Err(e) => r == Err(e) && Bytes() == old(Bytes())
    {
      var target := Scan(key);
      if target == slots { return Err(StoreFull); }
      hide Find, Used, WithSlot;
      Put(target, key, value);
      r := Ok(());
    }

    /** Zeros first, so that nothing of the old pair shows behind a shorter new one. */
    method Put(i: nat, key: bytes, value: bytes)
      requires Valid() && i < slots && |key| <= KEY_FIELD && |value| <= VALUE_FIELD
      modifies data
      ensures Bytes() == WithSlot(old(Bytes()), slots, i, key, value)
    {
      hide Splice, WithSlot, SlotBytes;
      SlotWritten(Bytes(), slots, i, key, value);
      CopyInto(data, SlotOff(i), Zeros(SLOT_SIZE));
      CopyInto(data, SlotOff(i), key);
      CopyInto(data, SlotOff(i) + KEY_FIELD, value);
    }

    method Get(key: bytes) returns (r: Result<bytes, StoreError>)
      requires Valid()
      ensures r == GetSpec(Bytes(), slots, key)
    {
      for i := 0 to slots
        invariant Find(Bytes(), slots, key) == FindFrom(Bytes(), slots, key, i)
      {
        if SlotKey(Bytes(), slots, i) == key { return Ok(SlotValue(Bytes(), slots, i)); }
      }
      r := Err(KeyNotFound);
    }

    method Dump() returns (pairs: seq<Pair>)
      requires Valid()
      ensures pairs == SortedByKey(Collected(Bytes(), slots, slots))
    {
      pairs := [];
      for i := 0 to slots
        invariant pairs == Collected(Bytes(), slots, i)
      {
        var k := SlotKey(Bytes(), slots, i);
        if k != [] { pairs := pairs + [(k, SlotValue(Bytes(), slots, i))]; }
      }
      pairs := SortedByKey(pairs);
    }
  }

  /** openStore: the size and the magic are checked before and after the slot count is read. */
  method OpenStore(file: array<byte>) returns (r: Result<Store, StoreError>)
    ensures r.Ok? <==> OpenSpec(file[..]).Ok?
    ensures r.Ok? ==> r.value.Valid() && r.value.data == file && OpenSpec(file[..]) == Ok(r.value.slots)
    ensures r.Err? ==> r.error == NotAStore
  {
    if file.Length < HEADER_SIZE { return Err(NotAStore); }
    if file[..6] != MAGIC { return Err(NotAStore); }
    assert file[..][..6] == file[..6];
    var n := FromLittleEndian32(file[6], file[7], file[8], file[9]);
    if file.Length != FileSize(n) { return Err(NotAStore); }
    var s := new Store.Map(file, n);
    r := Ok(s);
  }

  /** cmdSet: bad arguments are refused before the file is opened; a failure leaves the file alone. */
  function SetCommandSpec(d: bytes, key: bytes, value: bytes): (r: Result<bytes, StoreError>)
    requires 0 !in key && 0 !in value
    ensures r.Ok? <==> GoodPair(key, value) && OpenSpec(d).Ok? && SetSpec(d, OpenSpec(d).value, key, value).Ok?
    ensures r == Err(NotAStore) <==> GoodPair(key, value) && OpenSpec(d).Err?
  {
    if key == [] then Err(EmptyKey)
    else if |key| > KEY_MAX then Err(KeyTooLong)
    else if |value| > VALUE_MAX then Err(ValueTooLong)
    else if OpenSpec(d).Err? then Err(NotAStore)
    else SetSpec(d, OpenSpec(d).value, key, value)
  }

  method SetCommand(file: array<byte>, key: bytes, value: bytes) returns (r: Result<(), StoreError>)
    requires 0 !in key && 0 !in value
    modifies file
    ensures match SetCommandSpec(old(file[..]), key, value)
            case Ok(w) => r == Ok(()) && file[..] == w
            case Err(e) => r == Err(e) && file[..] == old(file[..])
  {
    if key == [] { return Err(EmptyKey); }
    if |key| > KEY_MAX { return Err(KeyTooLong); }
    if |value| > VALUE_MAX { return Err(ValueTooLong); }
    var store := OpenStore(file);
    if store.Err? { return Err(store.error); }
    r := store.value.Set(key, value);
  }

  /** What a set command does to a store in shape: each bad argument has its own answer, a full store refuses a new
      key, and anything else is an update of the map. */
  lemma SetCommandMeaning(d: bytes, n: SlotCount, key: bytes, value: bytes)
    requires StoreInv(d, n) && 0 !in key && 0 !in value
    ensures var r, full := SetCommandSpec(d, key, value), key !in AsMap(d, n) && |AsMap(d, n)| == n;
      && (r == Err(EmptyKey) <==> key == [])
      && (r == Err(KeyTooLong) <==> |key| > KEY_MAX)
      && (r == Err(ValueTooLong) <==> 1 <= |key| <= KEY_MAX && |value| > VALUE_MAX)
      && (r == Err(StoreFull) <==> GoodPair(key, value) && full)
      && (r.Ok? <==> GoodPair(key, value) && !full)
      && (r.Ok? ==> Sized(r.value, n) && StoreInv(r.value, n) && AsMap(r.value, n) == AsMap(d, n)[key := value])
  {
    OpenFindsSlots(d, n);
    if GoodPair(key, value) {
      SetIsMapUpdate(d, n, key, value);
      assert SetSpec(d, n, key, value).Err? ==> SetSpec(d, n, key, value).error == StoreFull;
    }
    hide StoreInv, AsMap, OpenSpec, SetSpec;
  }
}
