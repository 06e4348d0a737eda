/** The generational table behind every VISA handle. */
module HandleTable {
  import opened Visa

  const MAX_SLOTS := 0xFFFF
  const LAST_GENERATION := 0xFFF

  type Handle = h: nat | h < 0x1_0000_0000

  datatype ObjectType = ManagerType | FindListType | SessionType
  {
    function Code(): nat {
      match this
      case ManagerType => 1
      case FindListType => 2
      case SessionType => 3
    }
  }

  /** A shared pointer to some object, which knows its own type. */
  datatype Object = Object(kind: ObjectType, identity: nat)

  datatype Slot = Slot(entry: Option<Object>, generation: nat, kind: ObjectType, retired: bool)
  {
    predicate Free() {
      entry.None? && !retired
    }
  }

  datatype Parts = Parts(kind: ObjectType, generation: nat, indexPlusOne: nat)

  /** What a handle can hold: a 12-bit generation and a 16-bit index, neither of them zero. */
  predicate Encodable(parts: Parts) {
    1 <= parts.generation <= LAST_GENERATION && 1 <= parts.indexPlusOne <= MAX_SLOTS
  }

  function Encode(parts: Parts): Handle
    requires Encodable(parts)
  {
    parts.kind.Code() * 0x1000_0000 + parts.generation * 0x1_0000 + parts.indexPlusOne
  }

  function TypeOf(code: nat): Option<ObjectType> {
    if code == 1 then Some(ManagerType)
    else if code == 2 then Some(FindListType)
    else if code == 3 then Some(SessionType)
    else None
  }

  function Decode(handle: Handle): Option<Parts> {
    var kind := TypeOf(handle / 0x1000_0000);
    var generation, index := handle / 0x1_0000 % 0x1000, handle % 0x1_0000;
    if index == 0 || generation == 0 || kind.None? then None else Some(Parts(kind.value, generation, index))
  }

  // The same on bits

  function Power(k: nat): (p: nat)
    ensures p > 0
  {
    if k == 0 then 1 else 2 * Power(k - 1)
  }

  function ShiftLeft(a: nat, k: nat): nat {
    if k == 0 then a else 2 * ShiftLeft(a, k - 1)
  }

  function ShiftRight(a: nat, k: nat): nat {
    if k == 0 then a else ShiftRight(a / 2, k - 1)
  }

  /** `|`, bit by bit. */
  function Or(a: nat, b: nat): nat {
    if a == 0 && b == 0 then 0 else 2 * Or(a / 2, b / 2) + if a % 2 == 1 || b % 2 == 1 then 1 else 0
  }

  /** `&`, bit by bit. */
  function And(a: nat, b: nat): nat {
    if a == 0 || b == 0 then 0 else 2 * And(a / 2, b / 2) + if a % 2 == 1 && b % 2 == 1 then 1 else 0
  }

  lemma {:induction false} OrNothing(a: nat)
    ensures Or(a, 0) == a
  {
    if a > 0 {
      OrNothing(a / 2);
    }
  }

  lemma Halved(a: nat, k: nat)
    requires k > 0
    ensures a * Power(k) == 2 * (a * Power(k - 1)) && a * Power(k) / 2 == a * Power(k - 1) && a * Power(k) % 2 == 0
  {
    assert a * (2 * Power(k - 1)) == 2 * (a * Power(k - 1));
  }

  /** Bits that do not overlap add up. */
  lemma {:induction false} OrIsSum(a: nat, k: nat, b: nat)
    requires b < Power(k)
    ensures Or(a * Power(k), b) == a * Power(k) + b
  {
    if k == 0 {
      OrNothing(a);
    } else if a * Power(k) != 0 || b != 0 {
      Halved(a, k);
      OrIsSum(a, k - 1, b / 2);
    }
  }

  lemma Doubled(q: nat, p: nat)
    ensures q * (2 * p) == 2 * (q * p)
  {
  }

  lemma MaskHalved(a: nat, p: nat)
    requires a > 0 && p > 0
    ensures And(a, 2 * p - 1) == 2 * And(a / 2, p - 1) + a % 2
  {
    assert (2 * p - 1) / 2 == p - 1 && (2 * p - 1) % 2 == 1;
  }

  /** Masking keeps the low bits and drops the others. */
  lemma {:induction false} AndIsLow(a: nat, k: nat) returns (q: nat)
    ensures a == q * Power(k) + And(a, Power(k) - 1) && And(a, Power(k) - 1) < Power(k)
  {
    if k == 0 || a == 0 {
      q := a;
    } else {
      q := AndIsLow(a / 2, k - 1);
      MaskHalved(a, Power(k - 1));
      Doubled(q, Power(k - 1));
    }
  }

  lemma Powers()
    ensures Power(4) == 0x10 && Power(12) == 0x1000 && Power(16) == 0x1_0000 && Power(28) == 0x1000_0000
  {
    assert Power(8) == 16 * Power(4);
    assert Power(12) == 16 * Power(8);
    assert Power(16) == 16 * Power(12);
    assert Power(20) == 16 * Power(16);
    assert Power(24) == 16 * Power(20);
    assert Power(28) == 16 * Power(24);
  }

  lemma {:induction false} ShiftLeftIs(a: nat, k: nat)
    ensures ShiftLeft(a, k) == a * Power(k)
  {
    if k > 0 {
      ShiftLeftIs(a, k - 1);
      Doubled(a, Power(k - 1));
    }
  }

  /** Shifting to the right drops the low bits. */
  lemma {:induction false} ShiftIsHigh(a: nat, k: nat) returns (low: nat)
    ensures a == ShiftRight(a, k) * Power(k) + low && low < Power(k)
  {
    if k == 0 {
      low := 0;
    } else {
      var half := ShiftIsHigh(a / 2, k - 1);
      low := 2 * half + a % 2;
      Doubled(ShiftRight(a / 2, k - 1), Power(k - 1));
    }
  }

  /** `(handle >> shift) & mask` */
  function Field(handle: nat, shift: nat, mask: nat): nat {
    And(ShiftRight(handle, shift), mask)
  }

  lemma FieldIs(handle: nat, shift: nat, w: nat, bits: nat, n: nat, mask: nat)
    returns (low: nat, high: nat, q: nat)
    requires w == Power(shift) && n == Power(bits) && mask == n - 1
    ensures handle == high * w + low && low < w && high == q * n + Field(handle, shift, mask)
    ensures Field(handle, shift, mask) < n
  {
    low := ShiftIsHigh(handle, shift);
    high := ShiftRight(handle, shift);
    q := AndIsLow(high, bits);
  }

  lemma KindArithmetic(handle: Handle, low: nat, high: nat, q: nat, field: nat)
    requires handle == high * 0x1000_0000 + low && low < 0x1000_0000 && high == q * 0x10 + field && field < 0x10
    ensures field == handle / 0x1000_0000
  {
  }

  lemma GenerationArithmetic(handle: Handle, low: nat, high: nat, q: nat, field: nat)
    requires handle == high * 0x1_0000 + low && low < 0x1_0000 && high == q * 0x1000 + field && field < 0x1000
    ensures field == handle / 0x1_0000 % 0x1000
  {
    assert handle / 0x1_0000 == high;
  }

  lemma IndexArithmetic(handle: Handle, low: nat, high: nat, q: nat, field: nat)
    requires handle == high * 1 + low && low < 1 && high == q * 0x1_0000 + field && field < 0x1_0000
    ensures field == handle % 0x1_0000
  {
  }

  lemma FieldsAre(handle: Handle)
    ensures Field(handle, 28, 0xF) == handle / 0x1000_0000
    ensures Field(handle, 16, 0xFFF) == handle / 0x1_0000 % 0x1000
    ensures Field(handle, 0, 0xFFFF) == handle % 0x1_0000
  {
    Powers();
    var low, high, q := FieldIs(handle, 28, 0x1000_0000, 4, 0x10, 0xF);
    KindArithmetic(handle, low, high, q, Field(handle, 28, 0xF));
    low, high, q := FieldIs(handle, 16, 0x1_0000, 12, 0x1000, 0xFFF);
    GenerationArithmetic(handle, low, high, q, Field(handle, 16, 0xFFF));
    low, high, q := FieldIs(handle, 0, 1, 16, 0x1_0000, 0xFFFF);
    IndexArithmetic(handle, low, high, q, Field(handle, 0, 0xFFFF));
  }

  /** A handle is taken apart as the code does it, by shifts and masks. */
  lemma DecodeBits(handle: Handle)
    ensures Decode(handle) ==
            var kind := TypeOf(Field(handle, 28, 0xF));
            var generation, index := Field(handle, 16, 0xFFF), Field(handle, 0, 0xFFFF);
            if index == 0 || generation == 0 || kind.None? then None else Some(Parts(kind.value, generation, index))
  {
    FieldsAre(handle);
  }

  /** A handle is its parts shifted and ored together, as the code does it. */
  lemma EncodeBits(parts: Parts)
    requires Encodable(parts)
    ensures Encode(parts) == Or(Or(ShiftLeft(parts.kind.Code(), 28), ShiftLeft(parts.generation, 16)), parts.indexPlusOne)
  {
    Powers();
    var code, generation := parts.kind.Code(), parts.generation;
    ShiftLeftIs(code, 28);
    ShiftLeftIs(generation, 16);
    OrIsSum(code, 28, generation * 0x1_0000);
    OrIsSum(code * 0x1000 + generation, 16, parts.indexPlusOne);
    assert (code * 0x1000 + generation) * 0x1_0000 == code * 0x1000_0000 + generation * 0x1_0000;
  }

  lemma DecodeInvertsEncode(parts: Parts)
    requires Encodable(parts)
    ensures Decode(Encode(parts)) == Some(parts)
  {
    var low := parts.generation * 0x1_0000 + parts.indexPlusOne;
    assert low < 0x1000_0000;
    assert Encode(parts) / 0x1000_0000 == parts.kind.Code();
    assert Encode(parts) / 0x1_0000 == parts.kind.Code() * 0x1000 + parts.generation;
  }

  lemma EncodeInvertsDecode(handle: Handle)
    requires Decode(handle).Some?
    ensures Encodable(Decode(handle).value) && Encode(Decode(handle).value) == handle
  {
    var high := handle / 0x1_0000;
    assert handle / 0x1000_0000 == high / 0x1000;
  }

  /** `get_locked`. */
  function Resolve(slots: seq<Slot>, handle: Handle, expected: Option<ObjectType>): Option<Object> {
    var parts := Decode(handle);
    if parts.None? || (expected.Some? && parts.value.kind != expected.value) || parts.value.indexPlusOne > |slots| then None
    else
      var slot := slots[parts.value.indexPlusOne - 1];
      if slot.retired || slot.kind != parts.value.kind || slot.generation != parts.value.generation then None else slot.entry
  }

  /** The slot's own handle, for its current generation. */
  function HandleAt(slots: seq<Slot>, i: nat): Handle
    requires i < |slots| && SlotsOk(slots)
  {
    Encode(Parts(slots[i].kind, slots[i].generation, i + 1))
  }

  predicate SlotOk(slot: Slot) {
    && 1 <= slot.generation <= LAST_GENERATION
    && (slot.entry.Some? ==> !slot.retired && slot.entry.value.kind == slot.kind)
    && (slot.retired ==> slot.generation == LAST_GENERATION)
  }

  predicate SlotsOk(slots: seq<Slot>) {
    |slots| <= MAX_SLOTS && forall i :: 0 <= i < |slots| ==> SlotOk(slots[i])
  }

  /** The table and the map of live handles resolve every value alike. */
  ghost predicate Refines(slots: seq<Slot>, live: map<Handle, Object>) {
    forall h: Handle :: Resolve(slots, h, None) == if h in live then Some(live[h]) else None
  }

  /** A handle that was ever issued is of an earlier generation of its slot, or of the current one
      while the slot is taken or retired. */
  ghost predicate IssuedOk(slots: seq<Slot>, h: Handle) {
    var parts := Decode(h);
    && parts.Some?
    && parts.value.indexPlusOne <= |slots|
    && var slot := slots[parts.value.indexPlusOne - 1];
       parts.value.generation <= slot.generation && (parts.value.generation == slot.generation ==> !slot.Free())
  }

  ghost predicate TableOk(slots: seq<Slot>, live: map<Handle, Object>, issued: set<Handle>) {
    && SlotsOk(slots)
    && Refines(slots, live)
    && live.Keys <= issued
    && forall h :: h in issued ==> IssuedOk(slots, h)
  }

  /** A slot is taken: a free one, or a new one at the end. */
  function Taken(slots: seq<Slot>, i: nat, entry: Object): seq<Slot>
    requires i <= |slots|
  {
    if i < |slots| then slots[i := slots[i].(kind := entry.kind, entry := Some(entry))]
    else slots + [Slot(Some(entry), 1, entry.kind, false)]
  }

  /** The slot of a live handle is given up. */
  function Vacated(slots: seq<Slot>, i: nat): seq<Slot>
    requires i < |slots|
  {
    var slot := slots[i];
    slots[i := if slot.generation == LAST_GENERATION then slot.(entry := None, retired := true)
               else slot.(entry := None, generation := slot.generation + 1)]
  }

  lemma TakenResolves(slots: seq<Slot>, i: nat, entry: Object, h: Handle)
    requires SlotsOk(slots) && i <= |slots| && i < MAX_SLOTS && (i < |slots| ==> slots[i].Free())
    ensures var slots' := Taken(slots, i, entry);
            && SlotsOk(slots')
            && Resolve(slots', h, None) == if h == HandleAt(slots', i) then Some(entry) else Resolve(slots, h, None)
  {
    var slots' := Taken(slots, i, entry);
    forall j | 0 <= j < |slots'| ensures SlotOk(slots'[j]) {
      assert j < |slots| ==> SlotOk(slots[j]);
    }
    DecodeInvertsEncode(Parts(slots'[i].kind, slots'[i].generation, i + 1));
    if Decode(h).Some? {
      EncodeInvertsDecode(h);
    }
  }

  lemma TakenIsNew(slots: seq<Slot>, live: map<Handle, Object>, issued: set<Handle>, i: nat, entry: Object)
    requires TableOk(slots, live, issued) && i <= |slots| && i < MAX_SLOTS && (i < |slots| ==> slots[i].Free())
    ensures var slots' := Taken(slots, i, entry);
            SlotsOk(slots') && HandleAt(slots', i) !in issued
    ensures var slots' := Taken(slots, i, entry); var h := HandleAt(slots', i);
            TableOk(slots', live[h := entry], issued + {h})
  {
    var slots' := Taken(slots, i, entry);
    TakenResolves(slots, i, entry, 0);
    var h := HandleAt(slots', i);
    DecodeInvertsEncode(Parts(slots'[i].kind, slots'[i].generation, i + 1));
    assert h !in issued by {
      assert h in issued ==> IssuedOk(slots, h);
    }
    forall g: Handle ensures Resolve(slots', g, None) == if g in live[h := entry] then Some(live[h := entry][g]) else None {
      TakenResolves(slots, i, entry, g);
    }
    forall g | g in issued + {h} ensures IssuedOk(slots', g) {
      assert g in issued ==> IssuedOk(slots, g);
    }
  }

  lemma VacatedResolves(slots: seq<Slot>, handle: Handle, h: Handle)
    requires SlotsOk(slots) && Resolve(slots, handle, None).Some?
    ensures var slots' := Vacated(slots, Decode(handle).value.indexPlusOne - 1);
            SlotsOk(slots') && Resolve(slots', h, None) == if h == handle then None else Resolve(slots, h, None)
  {
    var i := Decode(handle).value.indexPlusOne - 1;
    var slots' := Vacated(slots, i);
    forall j | 0 <= j < |slots'| ensures SlotOk(slots'[j]) {
      assert SlotOk(slots[j]);
    }
    EncodeInvertsDecode(handle);
    if Decode(h).Some? {
      EncodeInvertsDecode(h);
    }
  }

  lemma VacatedIsOk(slots: seq<Slot>, live: map<Handle, Object>, issued: set<Handle>, handle: Handle)
    requires TableOk(slots, live, issued) && Resolve(slots, handle, None).Some?
    ensures TableOk(Vacated(slots, Decode(handle).value.indexPlusOne - 1), live - {handle}, issued)
  {
    var slots' := Vacated(slots, Decode(handle).value.indexPlusOne - 1);
    VacatedResolves(slots, handle, handle);
    forall g: Handle ensures Resolve(slots', g, None) == if g in live - {handle} then Some((live - {handle})[g]) else None {
      VacatedResolves(slots, handle, g);
    }
    forall g | g in issued ensures IssuedOk(slots', g) {
      assert IssuedOk(slots, g);
    }
  }

  /** A handle of a type other than the one asked for never resolves, and of the right one always
      does as it does for any type. */
  lemma ExpectedType(slots: seq<Slot>, handle: Handle, expected: ObjectType)
    requires SlotsOk(slots)
    ensures var any := Resolve(slots, handle, None);
            Resolve(slots, handle, Some(expected)) == if any.Some? && any.value.kind == expected then any else None
  {
    if Decode(handle).Some? && Decode(handle).value.indexPlusOne <= |slots| {
      assert SlotOk(slots[Decode(handle).value.indexPlusOne - 1]);
    }
  }

  datatype Call = Inserting(entry: Object) | Removing(handle: Handle)

  class Table {
    var slots: seq<Slot>
    /** The handles that are live, and all that were ever returned. */
    ghost var live: map<Handle, Object>
    ghost var issued: set<Handle>

    ghost predicate Valid()
      reads this
    {
      TableOk(slots, live, issued)
    }

    constructor ()
      ensures Valid() && live == map[] && issued == {}
    {
      slots, live, issued := [], map[], {};
    }

    /** `insert`. It fails when the table is full of live and retired slots. */
    method Insert(entry: Object) returns (result: Option<Handle>)
      requires Valid()
      modifies this
      ensures Valid()
      ensures result.Some? ==>
              && result.value !in old(issued)
              && live == old(live)[result.value := entry]
              && issued == old(issued) + {result.value}
      ensures result.None? ==> live == old(live) && issued == old(issued)
      ensures result.None? <==> |old(slots)| == MAX_SLOTS && forall i :: 0 <= i < MAX_SLOTS ==> !old(slots)[i].Free()
    {
      var index := 0;
      while index < |slots|
        invariant 0 <= index <= |slots|
        invariant forall i :: 0 <= i < index ==> !slots[i].Free()
      {
        if slots[index].entry.None? && !slots[index].retired {
          result := Take(index, entry);
          return;
        }
        index := index + 1;
      }
      if |slots| >= MAX_SLOTS {
        return None;
      }
      result := Take(index, entry);
    }

    method Take(index: nat, entry: Object) returns (result: Option<Handle>)
      requires Valid() && index <= |slots| && index < MAX_SLOTS && (index < |slots| ==> slots[index].Free())
      modifies this
      ensures Valid()
      ensures result.Some? && result.value !in old(issued)
      ensures live == old(live)[result.value := entry] && issued == old(issued) + {result.value}
    {
      TakenIsNew(slots, live, issued, index, entry);
      if index < |slots| {
        slots := slots[index := slots[index].(kind := entry.kind, entry := Some(entry))];
      } else {
        slots := slots + [Slot(Some(entry), 1, entry.kind, false)];
      }
      result := Some(Encode(Parts(entry.kind, slots[index].generation, index + 1)));
      live := live[result.value := entry];
      issued := issued + {result.value};
    }

    /** `get`. */
    method Get(handle: Handle, expected: ObjectType) returns (entry: Option<Object>)
      requires Valid()
      ensures entry == if handle in live && live[handle].kind == expected then Some(live[handle]) else None
    {
      entry := Resolve(slots, handle, Some(expected));
      ExpectedType(slots, handle, expected);
      assert Resolve(slots, handle, None) == if handle in live then Some(live[handle]) else None;
    }

    /** `remove`. */
    method Remove(handle: Handle) returns (entry: Option<Object>)
      requires Valid()
      modifies this
      ensures Valid()
      ensures entry == if handle in old(live) then Some(old(live)[handle]) else None
      ensures live == old(live) - {handle} && issued == old(issued)
    {
      entry := Resolve(slots, handle, None);
      if entry.None? {
        assert handle !in live;
        return;
      }
      VacatedIsOk(slots, live, issued, handle);
      var index := Decode(handle).value.indexPlusOne - 1;
      var slot := slots[index];
      if slot.generation == LAST_GENERATION {
        slots := slots[index := slot.(entry := None, retired := true)];
      } else {
        slots := slots[index := slot.(entry := None, generation := slot.generation + 1)];
      }
      live := live - {handle};
    }

    /** Any sequence of inserts and removes: a handle that was removed never resolves again, and one that
        is not removed goes on resolving to its object. */
    method Run(calls: seq<Call>)
      requires Valid()
      modifies this
      ensures Valid() && old(issued) <= issued
      ensures forall h :: h in old(issued) && h !in old(live) ==> h !in live
      ensures forall h :: h in old(live) && Removing(h) !in calls ==> h in live && live[h] == old(live)[h]
      ensures forall h :: h in old(live) && Removing(h) in calls ==> h !in live
    {
      var index := 0;
      while index < |calls|
        invariant 0 <= index <= |calls| && Valid() && old(issued) <= issued
        invariant forall h :: h in old(issued) && h !in old(live) ==> h !in live
        invariant forall h :: h in old(live) && Removing(h) !in calls[..index] ==> h in live && live[h] == old(live)[h]
        invariant forall h :: h in old(live) && Removing(h) in calls[..index] ==> h !in live
      {
        assert calls[..index + 1] == calls[..index] + [calls[index]];
        match calls[index] {
          case Inserting(entry) =>
            var inserted := Insert(entry);
          case Removing(handle) =>
            var removed := Remove(handle);
        }
        index := index + 1;
      }
      assert calls[..index] == calls;
    }
  }
}
