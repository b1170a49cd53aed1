/** The sector allocator of `do_image_hd` and the image that its `dd` calls
    write. */
module Layout {
  import opened Bytes
  import opened Lists

  const SECTOR: nat := 512

  // Sizes in bytes, as size_to_int gives them.
  datatype Size = Remain | Given(n: nat)

  // `data` is what is written into the partition: the file of a `binary`, the
  // image of a labelled filesystem, or nothing.
  datatype Logical = Logical(size: Size, data: seq<Byte>) | OtherTag

  datatype Part =
    | Partition(size: Size, data: seq<Byte>)
    | Extended(size: Size, logicals: seq<Logical>)
    | Other

  /** A partition with its geometry, in sectors. */
  datatype Slot = Slot(start: nat, length: nat, data: seq<Byte>) {
    function End(): nat {
      start + length
    }
  }

  datatype Placed = Placed(slot: Slot, logicals: seq<Slot>)

  /** The end of the sectors that may belong to a partition: on GPT the last
      33 sectors hold the backup table and header (section 5.3 of the UEFI
      Specification). */
  function Usable(gpt: bool, total: nat): int {
    if gpt then total - 33 else total
  }

  /** `create_partition`: the length, unless parted refuses the geometry
      because it is empty or not inside the device or extended partition,
      which ends at `usable`. */
  function PartLength(gpt: bool, sizeInSectors: nat, usable: int, size: Size, current: nat): Option<nat> {
    var sz: int :=
      match size
      case Remain => if gpt then sizeInSectors - 35 - current else sizeInSectors - current
      case Given(n) => n / SECTOR;
    if sz >= 1 && current + sz <= usable then Some(sz) else None
  }

  function Prepend<T>(xs: seq<T>, rest: Option<seq<T>>): Option<seq<T>> {
    match rest case None => None case Some(more) => Some(xs + more)
  }

  lemma PrependLaws<T>(xs: seq<T>, ys: seq<T>, rest: Option<seq<T>>)
    ensures Prepend([], rest) == rest
    ensures Prepend(xs, Prepend(ys, rest)) == Prepend(xs + ys, rest)
    ensures Prepend(xs, Some([])) == Some(xs)
  {
    if rest.Some? {
      assert [] + rest.value == rest.value;
      assert xs + (ys + rest.value) == xs + ys + rest.value;
    }
    assert xs + [] == xs;
  }

  function PlaceLogicals(gpt: bool, end: nat, logicals: seq<Logical>, current: nat): Option<seq<Slot>> {
    if logicals == [] then Some([])
    else if logicals[0].OtherTag? then PlaceLogicals(gpt, end, logicals[1..], current)
    else
      match PartLength(gpt, end, end, logicals[0].size, current + 2048)
      case None => None
      case Some(len) =>
        Prepend([Slot(current + 2048, len, logicals[0].data)],
                PlaceLogicals(gpt, end, logicals[1..], current + 2048 + len))
  }

  function PlaceOne(gpt: bool, total: nat, part: Part, current: nat): Option<Placed>
    requires part != Other
  {
    match PartLength(gpt, total, Usable(gpt, total), part.size, current)
    case None => None
    case Some(len) =>
      match part
      case Partition(_, data) => Some(Placed(Slot(current, len, data), []))
      case Extended(_, logicals) =>
        match PlaceLogicals(gpt, current + len, logicals, current)
        case None => None
        case Some(slots) => Some(Placed(Slot(current, len, []), slots))
  }

  function PlaceAll(gpt: bool, total: nat, parts: seq<Part>, current: nat): Option<seq<Placed>> {
    if parts == [] then Some([])
    else if parts[0] == Other then PlaceAll(gpt, total, parts[1..], current)
    else
      match PlaceOne(gpt, total, parts[0], current)
      case None => None
      case Some(p) =>
        Prepend([p], PlaceAll(gpt, total, parts[1..], current + p.slot.length))
  }

  // -------------------------------------------------------- what is allocated

  /** The entries that become partitions, in order. */
  function Relevant(parts: seq<Part>): seq<Part> {
    if parts == [] then []
    else if parts[0] == Other then Relevant(parts[1..])
    else [parts[0]] + Relevant(parts[1..])
  }

  function RelevantLogicals(logicals: seq<Logical>): seq<Logical> {
    if logicals == [] then []
    else if logicals[0].OtherTag? then RelevantLogicals(logicals[1..])
    else [logicals[0]] + RelevantLogicals(logicals[1..])
  }

  /** `slot` has the size that was asked for: whole sectors of a size in
      bytes, or all that remains. */
  predicate SizedFor(gpt: bool, size: Size, slot: Slot, end: nat) {
    match size
    case Remain => slot.End() == if gpt then end - 35 else end
    case Given(n) => slot.length == n / 512
  }

  /** `slot`, following what ends at `before`, is right for one entry. */
  predicate LogicalRight(gpt: bool, end: nat, before: nat, wanted: Logical, slot: Slot) {
    && slot.start == before + 2048 && slot.length >= 1 && slot.End() <= end
    && wanted.Logical? && slot.data == wanted.data && SizedFor(gpt, wanted.size, slot, end)
  }

  /** Where the predecessor of the k-th slot ends. */
  function Before(start: nat, slots: seq<Slot>, k: nat): nat
    requires k <= |slots|
  {
    if k == 0 then start else slots[k - 1].End()
  }

  function PlacedBefore(start: nat, placed: seq<Placed>, k: nat): nat
    requires k <= |placed|
  {
    if k == 0 then start else placed[k - 1].slot.End()
  }

  ghost predicate LogicalsRight(gpt: bool, start: nat, end: nat, logicals: seq<Logical>, slots: seq<Slot>) {
    var wanted := RelevantLogicals(logicals);
    && |slots| == |wanted|
    && forall k | 0 <= k < |slots| ::
         LogicalRight(gpt, end, Before(start, slots, k), wanted[k], slots[k])
  }

  ghost predicate PlacedRight(gpt: bool, total: nat, before: nat, wanted: Part, p: Placed) {
    && p.slot.start == before && p.slot.length >= 1 && p.slot.End() <= (if gpt then total - 33 else total)
    && wanted != Other && SizedFor(gpt, wanted.size, p.slot, total)
    && match wanted
       case Partition(_, data) => p.slot.data == data && p.logicals == []
       case Extended(_, logicals) =>
         p.slot.data == [] && LogicalsRight(gpt, p.slot.start, p.slot.End(), logicals, p.logicals)
  }

  ghost predicate LayoutRight(gpt: bool, total: nat, first: nat, parts: seq<Part>, placed: seq<Placed>) {
    var wanted := Relevant(parts);
    && |placed| == |wanted|
    && forall k | 0 <= k < |placed| ::
         PlacedRight(gpt, total, PlacedBefore(first, placed, k), wanted[k], placed[k])
  }

  lemma LogicalsRightCons(gpt: bool, start: nat, end: nat, logicals: seq<Logical>, slots: seq<Slot>)
    requires logicals != [] && logicals[0].Logical? && slots != []
    requires LogicalRight(gpt, end, start, logicals[0], slots[0])
    requires LogicalsRight(gpt, slots[0].End(), end, logicals[1..], slots[1..])
    ensures LogicalsRight(gpt, start, end, logicals, slots)
  {
    hide LogicalRight;
    var wanted, more := RelevantLogicals(logicals), RelevantLogicals(logicals[1..]);
    forall k | 0 <= k < |slots| ensures LogicalRight(gpt, end, Before(start, slots, k), wanted[k], slots[k]) {
      if k > 0 {
        assert wanted[k] == more[k - 1] && slots[k] == slots[1..][k - 1];
        assert Before(start, slots, k) == Before(slots[0].End(), slots[1..], k - 1);
      }
    }
  }

  lemma {:induction false} LogicalsAreRight(gpt: bool, end: nat, logicals: seq<Logical>, current: nat)
    requires PlaceLogicals(gpt, end, logicals, current).Some?
    ensures LogicalsRight(gpt, current, end, logicals, PlaceLogicals(gpt, end, logicals, current).value)
  {
    if logicals != [] && logicals[0].OtherTag? {
      LogicalsAreRight(gpt, end, logicals[1..], current);
    } else if logicals != [] {
      hide LogicalsRight;
      var slots := PlaceLogicals(gpt, end, logicals, current).value;
      LogicalsAreRight(gpt, end, logicals[1..], slots[0].End());
      assert slots[1..] == PlaceLogicals(gpt, end, logicals[1..], slots[0].End()).value;
      LogicalsRightCons(gpt, current, end, logicals, slots);
    }
  }

  lemma PlacedIsRight(gpt: bool, total: nat, part: Part, current: nat)
    requires part != Other && PlaceOne(gpt, total, part, current).Some?
    ensures PlacedRight(gpt, total, current, part, PlaceOne(gpt, total, part, current).value)
  {
    if part.Extended? {
      var p := PlaceOne(gpt, total, part, current).value;
      LogicalsAreRight(gpt, p.slot.End(), part.logicals, current);
    }
  }

  lemma LayoutRightCons(gpt: bool, total: nat, first: nat, parts: seq<Part>, placed: seq<Placed>)
    requires parts != [] && parts[0] != Other && placed != []
    requires PlacedRight(gpt, total, first, parts[0], placed[0])
    requires LayoutRight(gpt, total, placed[0].slot.End(), parts[1..], placed[1..])
    ensures LayoutRight(gpt, total, first, parts, placed)
  {
    hide PlacedRight;
    var wanted, more := Relevant(parts), Relevant(parts[1..]);
    forall k | 0 <= k < |placed|
      ensures PlacedRight(gpt, total, PlacedBefore(first, placed, k), wanted[k], placed[k])
    {
      if k > 0 {
        assert wanted[k] == more[k - 1] && placed[k] == placed[1..][k - 1];
        assert PlacedBefore(first, placed, k) == PlacedBefore(placed[0].slot.End(), placed[1..], k - 1);
      }
    }
  }

  /** Every accepted list: the partitions follow each other from the first
      sector without gap, have the sizes that were asked for and end before
      the backup structures; each logical partition starts 2048 sectors after
      its predecessor's end and lies inside its extended partition. */
  lemma {:induction false} LayoutIsRight(gpt: bool, total: nat, parts: seq<Part>, current: nat)
    requires PlaceAll(gpt, total, parts, current).Some?
    ensures LayoutRight(gpt, total, current, parts, PlaceAll(gpt, total, parts, current).value)
  {
    hide PlacedRight;
    if parts != [] && parts[0] == Other {
      LayoutIsRight(gpt, total, parts[1..], current);
    } else if parts != [] {
      var placed := PlaceAll(gpt, total, parts, current).value;
      PlacedIsRight(gpt, total, parts[0], current);
      LayoutIsRight(gpt, total, parts[1..], placed[0].slot.End());
      assert placed[1..] == PlaceAll(gpt, total, parts[1..], placed[0].slot.End()).value;
      hide LayoutRight;
      LayoutRightCons(gpt, total, current, parts, placed);
    }
  }

  // -------------------------------------------------------- when it is accepted

  lemma LogicalsRightTail(gpt: bool, start: nat, end: nat, logicals: seq<Logical>, slots: seq<Slot>)
    requires logicals != [] && logicals[0].Logical? && LogicalsRight(gpt, start, end, logicals, slots)
    ensures slots != [] && LogicalRight(gpt, end, start, logicals[0], slots[0])
    ensures LogicalsRight(gpt, slots[0].End(), end, logicals[1..], slots[1..])
  {
    hide LogicalRight;
    var wanted, more := RelevantLogicals(logicals), RelevantLogicals(logicals[1..]);
    assert LogicalRight(gpt, end, Before(start, slots, 0), wanted[0], slots[0]);
    forall k | 0 <= k < |slots[1..]|
      ensures LogicalRight(gpt, end, Before(slots[0].End(), slots[1..], k), more[k], slots[1..][k])
    {
      assert wanted[k + 1] == more[k] && slots[k + 1] == slots[1..][k];
      assert Before(start, slots, k + 1) == Before(slots[0].End(), slots[1..], k);
      assert LogicalRight(gpt, end, Before(start, slots, k + 1), wanted[k + 1], slots[k + 1]);
    }
  }

  lemma RightLengthIsGiven(gpt: bool, end: nat, usable: int, size: Size, slot: Slot)
    requires slot.length >= 1 && slot.End() <= usable && SizedFor(gpt, size, slot, end)
    ensures PartLength(gpt, end, usable, size, slot.start) == Some(slot.length)
  {
  }

  lemma {:induction false} RightLogicalsArePlaced(gpt: bool, end: nat, logicals: seq<Logical>, current: nat,
                                                 slots: seq<Slot>)
    requires LogicalsRight(gpt, current, end, logicals, slots)
    ensures PlaceLogicals(gpt, end, logicals, current) == Some(slots)
  {
    hide PartLength, SizedFor;
    if logicals != [] && logicals[0].OtherTag? {
      RightLogicalsArePlaced(gpt, end, logicals[1..], current, slots);
    } else if logicals != [] {
      LogicalsRightTail(gpt, current, end, logicals, slots);
      RightLengthIsGiven(gpt, end, end, logicals[0].size, slots[0]);
      RightLogicalsArePlaced(gpt, end, logicals[1..], slots[0].End(), slots[1..]);
      assert slots == [slots[0]] + slots[1..];
    }
  }

  /** Logical partitions are refused exactly if there is no right place for them. */
  lemma LogicalsAcceptedExactly(gpt: bool, end: nat, logicals: seq<Logical>, current: nat)
    ensures PlaceLogicals(gpt, end, logicals, current).Some?
            <==> exists slots :: LogicalsRight(gpt, current, end, logicals, slots)
  {
    hide LogicalsRight, PlaceLogicals;
    if PlaceLogicals(gpt, end, logicals, current).Some? {
      LogicalsAreRight(gpt, end, logicals, current);
    }
    forall slots | LogicalsRight(gpt, current, end, logicals, slots)
      ensures PlaceLogicals(gpt, end, logicals, current).Some?
    {
      RightLogicalsArePlaced(gpt, end, logicals, current, slots);
    }
  }

  lemma RightPartIsPlaced(gpt: bool, total: nat, part: Part, current: nat, p: Placed)
    requires PlacedRight(gpt, total, current, part, p)
    ensures PlaceOne(gpt, total, part, current) == Some(p)
  {
    hide PartLength, SizedFor, PlaceLogicals, LogicalsRight;
    RightLengthIsGiven(gpt, total, Usable(gpt, total), part.size, p.slot);
    if part.Extended? {
      RightLogicalsArePlaced(gpt, p.slot.End(), part.logicals, current, p.logicals);
    }
  }

  lemma LayoutRightTail(gpt: bool, total: nat, first: nat, parts: seq<Part>, placed: seq<Placed>)
    requires parts != [] && parts[0] != Other && LayoutRight(gpt, total, first, parts, placed)
    ensures placed != [] && PlacedRight(gpt, total, first, parts[0], placed[0])
    ensures LayoutRight(gpt, total, placed[0].slot.End(), parts[1..], placed[1..])
  {
    hide PlacedRight;
    var wanted, more := Relevant(parts), Relevant(parts[1..]);
    assert PlacedRight(gpt, total, PlacedBefore(first, placed, 0), wanted[0], placed[0]);
    forall k | 0 <= k < |placed[1..]|
      ensures PlacedRight(gpt, total, PlacedBefore(placed[0].slot.End(), placed[1..], k), more[k], placed[1..][k])
    {
      assert wanted[k + 1] == more[k] && placed[k + 1] == placed[1..][k];
      assert PlacedBefore(first, placed, k + 1) == PlacedBefore(placed[0].slot.End(), placed[1..], k);
      assert PlacedRight(gpt, total, PlacedBefore(first, placed, k + 1), wanted[k + 1], placed[k + 1]);
    }
  }

  lemma {:induction false} RightLayoutIsPlaced(gpt: bool, total: nat, parts: seq<Part>, current: nat,
                                              placed: seq<Placed>)
    requires LayoutRight(gpt, total, current, parts, placed)
    ensures PlaceAll(gpt, total, parts, current) == Some(placed)
  {
    hide PlacedRight, PlaceOne;
    if parts != [] && parts[0] == Other {
      RightLayoutIsPlaced(gpt, total, parts[1..], current, placed);
    } else if parts != [] {
      LayoutRightTail(gpt, total, current, parts, placed);
      RightPartIsPlaced(gpt, total, parts[0], current, placed[0]);
      RightStart(gpt, total, current, parts[0], placed[0]);
      RightLayoutIsPlaced(gpt, total, parts[1..], placed[0].slot.End(), placed[1..]);
      assert placed == [placed[0]] + placed[1..];
    }
  }

  lemma RightStart(gpt: bool, total: nat, before: nat, wanted: Part, p: Placed)
    requires PlacedRight(gpt, total, before, wanted, p)
    ensures p.slot.start == before
  {
    hide LogicalsRight, SizedFor;
  }

  /** A list is refused exactly if there is no right layout for it, and there is never
      more than one. */
  lemma AcceptedExactly(gpt: bool, total: nat, parts: seq<Part>, first: nat)
    ensures PlaceAll(gpt, total, parts, first).Some?
            <==> exists placed :: LayoutRight(gpt, total, first, parts, placed)
    ensures forall placed :: LayoutRight(gpt, total, first, parts, placed)
                             <==> PlaceAll(gpt, total, parts, first) == Some(placed)
  {
    hide LayoutRight, PlaceAll;
    if PlaceAll(gpt, total, parts, first).Some? {
      LayoutIsRight(gpt, total, parts, first);
    }
    forall placed | LayoutRight(gpt, total, first, parts, placed)
      ensures PlaceAll(gpt, total, parts, first) == Some(placed)
    {
      RightLayoutIsPlaced(gpt, total, parts, first, placed);
    }
  }

  // ------------------------------------------------------------ what is written

  /** `dd` with `conv=notrunc`: the file grows if it has to. */
  function WriteAt(img: seq<Byte>, offset: nat, data: seq<Byte>): seq<Byte> {
    if data == [] then img
    else
      var head := if offset <= |img| then img[..offset] else img + Zeros(offset - |img|);
      head + data + if offset + |data| <= |img| then img[offset + |data|..] else []
  }

  function WriteSlots(img: seq<Byte>, slots: seq<Slot>): seq<Byte>
    decreases slots
  {
    if slots == [] then img
    else WriteSlots(WriteAt(img, slots[0].start * SECTOR, slots[0].data), slots[1..])
  }

  function WritePlaced(img: seq<Byte>, placed: seq<Placed>): seq<Byte>
    decreases placed
  {
    if placed == [] then img
    else WritePlaced(WriteSlots(WriteSlots(img, [placed[0].slot]), placed[0].logicals), placed[1..])
  }

  /** All partitions with their contents, in the order of their writing. */
  function Flatten(placed: seq<Placed>): seq<Slot> {
    if placed == [] then [] else [placed[0].slot] + placed[0].logicals + Flatten(placed[1..])
  }

  lemma {:induction false} WriteSlotsAppend(img: seq<Byte>, a: seq<Slot>, b: seq<Slot>)
    ensures WriteSlots(img, a + b) == WriteSlots(WriteSlots(img, a), b)
    decreases a
  {
    if a == [] {
      assert a + b == b;
    } else {
      assert (a + b)[1..] == a[1..] + b;
      WriteSlotsAppend(WriteAt(img, a[0].start * SECTOR, a[0].data), a[1..], b);
    }
  }

  lemma {:induction false} WritePlacedIsFlat(img: seq<Byte>, placed: seq<Placed>)
    ensures WritePlaced(img, placed) == WriteSlots(img, Flatten(placed))
    decreases placed
  {
    if placed != [] {
      var p := placed[0];
      WriteSlotsAppend(img, [p.slot], p.logicals);
      WriteSlotsAppend(img, [p.slot] + p.logicals, Flatten(placed[1..]));
      WritePlacedIsFlat(WriteSlots(img, [p.slot] + p.logicals), placed[1..]);
    }
  }

  predicate Covers(slot: Slot, i: nat) {
    slot.start * 512 <= i < slot.start * 512 + |slot.data|
  }

  /** No later slot with contents reaches into an earlier one. */
  ghost predicate Apart(slots: seq<Slot>) {
    forall i, j | 0 <= i < j < |slots| && slots[i].data != [] && slots[j].data != [] ::
      slots[i].End() <= slots[j].start
  }

  predicate Fits(slot: Slot, img: seq<Byte>) {
    |slot.data| <= slot.length * SECTOR && slot.End() * SECTOR <= |img|
  }

  lemma WriteAtMeaning(img: seq<Byte>, slot: Slot)
    requires Fits(slot, img)
    ensures var r := WriteAt(img, slot.start * SECTOR, slot.data);
            && |r| == |img|
            && forall i | 0 <= i < |img| ::
                 r[i] == if Covers(slot, i) then slot.data[i - slot.start * SECTOR] else img[i]
  {
  }

  /** Each slot's bytes survive all later writes, and nothing else changes. */
  lemma {:induction false} WriteSlotsMeaning(img: seq<Byte>, slots: seq<Slot>)
    requires Apart(slots) && forall s | s in slots :: Fits(s, img)
    ensures var r := WriteSlots(img, slots);
            && |r| == |img|
            && (forall s, i: nat | s in slots && Covers(s, i) :: i < |img| && r[i] == s.data[i - s.start * SECTOR])
            && (forall i: nat | i < |img| && !(exists s | s in slots :: Covers(s, i)) :: r[i] == img[i])
    decreases slots
  {
    if slots != [] {
      var s0, rest := slots[0], slots[1..];
      var img1 := WriteAt(img, s0.start * SECTOR, s0.data);
      WriteAtMeaning(img, s0);
      forall s | s in rest ensures s in slots && Fits(s, img1) {
        assert s in slots;
      }
      WriteSlotsMeaning(img1, rest);
      forall i: nat, s | Covers(s0, i) && s in rest ensures !Covers(s, i) {
        var j :| 0 <= j < |rest| && rest[j] == s;
        assert slots[j + 1] == s;
        if s.data != [] && s0.data != [] {
          assert s0.End() * SECTOR <= s.start * SECTOR;
        }
      }
      forall s | s in slots ensures s == s0 || s in rest {
      }
      hide WriteAt;
    }
  }

  lemma {:induction false} LogicalsApart(gpt: bool, end: nat, logicals: seq<Logical>, current: nat)
    requires PlaceLogicals(gpt, end, logicals, current).Some?
    ensures var slots := PlaceLogicals(gpt, end, logicals, current).value;
            Apart(slots) && forall s | s in slots :: current <= s.start && s.End() <= end
  {
    if logicals != [] && logicals[0].OtherTag? {
      LogicalsApart(gpt, end, logicals[1..], current);
    } else if logicals != [] {
      var slots := PlaceLogicals(gpt, end, logicals, current).value;
      var rest := PlaceLogicals(gpt, end, logicals[1..], slots[0].End()).value;
      LogicalsApart(gpt, end, logicals[1..], slots[0].End());
      ApartCons(slots[0], rest);
      assert slots == [slots[0]] + rest;
    }
  }

  lemma ApartCons(slot: Slot, rest: seq<Slot>)
    requires Apart(rest) && (slot.data == [] || forall s | s in rest :: slot.End() <= s.start)
    ensures Apart([slot] + rest)
  {
    var all := [slot] + rest;
    forall i, j | 0 <= i < j < |all| && all[i].data != [] && all[j].data != []
      ensures all[i].End() <= all[j].start
    {
      assert all[j] == rest[j - 1];
      if i > 0 {
        assert all[i] == rest[i - 1];
      }
    }
  }

  lemma ApartAppend(a: seq<Slot>, b: seq<Slot>, border: nat)
    requires Apart(a) && Apart(b)
    requires (forall s | s in a :: s.End() <= border) && (forall s | s in b :: border <= s.start)
    ensures Apart(a + b)
  {
    var all := a + b;
    forall i, j | 0 <= i < j < |all| && all[i].data != [] && all[j].data != []
      ensures all[i].End() <= all[j].start
    {
      if j >= |a| {
        assert all[j] == b[j - |a|] && all[j] in b;
        if i < |a| {
          assert all[i] == a[i] && all[i] in a;
        }
      }
    }
  }

  lemma {:induction false} PlacedApart(gpt: bool, total: nat, parts: seq<Part>, current: nat)
    requires PlaceAll(gpt, total, parts, current).Some?
    ensures var slots := Flatten(PlaceAll(gpt, total, parts, current).value);
            Apart(slots) && forall s | s in slots :: current <= s.start && s.End() <= Usable(gpt, total)
  {
    if parts != [] && parts[0] == Other {
      PlacedApart(gpt, total, parts[1..], current);
    } else if parts != [] {
      var placed := PlaceAll(gpt, total, parts, current).value;
      var p := placed[0];
      var rest := PlaceAll(gpt, total, parts[1..], p.slot.End()).value;
      assert placed == [p] + rest;
      PlacedApart(gpt, total, parts[1..], p.slot.End());
      if parts[0].Extended? {
        LogicalsApart(gpt, p.slot.End(), parts[0].logicals, current);
      }
      ApartCons(p.slot, p.logicals);
      ApartAppend([p.slot] + p.logicals, Flatten(rest), p.slot.End());
      assert Flatten(placed) == [p.slot] + p.logicals + Flatten(rest);
    }
  }

  /** The finished image: if no source is larger than its partition, every
      partition holds its own source from its first byte on, and every byte
      that belongs to no source is still zero. */
  lemma ImageHoldsItsSources(gpt: bool, total: nat, parts: seq<Part>, first: nat)
    requires PlaceAll(gpt, total, parts, first).Some?
    requires forall s | s in Flatten(PlaceAll(gpt, total, parts, first).value) :: |s.data| <= s.length * 512
    ensures var slots := Flatten(PlaceAll(gpt, total, parts, first).value);
            var img := WritePlaced(Zeros(total * 512), PlaceAll(gpt, total, parts, first).value);
            && |img| == total * 512
            && (forall s, i: nat | s in slots && Covers(s, i) :: i < |img| && img[i] == s.data[i - s.start * 512])
            && (forall i: nat | i < |img| && !(exists s | s in slots :: Covers(s, i)) :: img[i] == 0)
  {
    var placed := PlaceAll(gpt, total, parts, first).value;
    PlacedApart(gpt, total, parts, first);
    WritePlacedIsFlat(Zeros(total * SECTOR), placed);
    WriteSlotsMeaning(Zeros(total * SECTOR), Flatten(placed));
  }

  // -------------------------------------------------------------- do_image_hd

  /** One image file while its partitions are created. */
  class DiskImage {
    var file: seq<Byte>
    const total: nat
    const gpt: bool

    constructor (size: nat, gpt: bool)
      ensures total == size / 512 && this.gpt == gpt && file == Zeros(total * 512)
    {
      total := size / SECTOR;
      this.gpt := gpt;
      file := Zeros(size / SECTOR * SECTOR);
    }

    method Dd(data: seq<Byte>, offset: nat)
      modifies this`file
      ensures file == WriteAt(old(file), offset / SECTOR * SECTOR, data)
    {
      file := WriteAt(file, offset / SECTOR * SECTOR, data);
    }

    method CreateLogicalPartitions(extended: seq<Logical>, epart: Slot) returns (r: Option<seq<Slot>>)
      modifies this`file
      ensures r == PlaceLogicals(gpt, epart.End(), extended, epart.start)
      ensures r.Some? ==> file == WriteSlots(old(file), r.value)
    {
      hide PlaceLogicals, Prepend, WriteSlots, WriteAt, PartLength;
      ghost var whole := PlaceLogicals(gpt, epart.End(), extended, epart.start);
      var currentSector: nat := epart.start;
      var sizeInSectors: nat := currentSector + epart.length;
      var slots: seq<Slot> := [];
      LogicalsStart(gpt, epart.End(), extended, epart.start, file);
      for i := 0 to |extended|
        invariant file == WriteSlots(old(file), slots)
        invariant whole == Prepend(slots, PlaceLogicals(gpt, sizeInSectors, extended[i..], currentSector))
      {
        LogicalsStep(gpt, sizeInSectors, extended, i, currentSector, slots, old(file));
        if extended[i].OtherTag? {
          continue;
        }
        currentSector := currentSector + 2048;
        var length := PartLength(gpt, sizeInSectors, sizeInSectors, extended[i].size, currentSector);
        if length == None {
          return None;
        }
        var lpart := Slot(currentSector, length.value, extended[i].data);
        Dd(lpart.data, lpart.start * SECTOR);
        slots := slots + [lpart];
        currentSector := currentSector + lpart.length;
      }
      LogicalsEnd(gpt, sizeInSectors, extended[|extended|..], currentSector, slots);
      r := Some(slots);
    }

    method DoImageHd(hd: seq<Part>, firstPartitionSector: nat) returns (r: Option<seq<Placed>>)
      modifies this`file
      ensures r == PlaceAll(gpt, total, hd, firstPartitionSector)
      ensures r.Some? ==> file == WritePlaced(old(file), r.value)
    {
      hide PlaceAll, PlaceLogicals, Prepend, WriteSlots, WritePlaced, WriteAt, PartLength;
      ghost var whole := PlaceAll(gpt, total, hd, firstPartitionSector);
      var currentSector: nat := firstPartitionSector;
      var placed: seq<Placed> := [];
      PlacedStart(gpt, total, hd, firstPartitionSector, file);
      for i := 0 to |hd|
        invariant file == WritePlaced(old(file), placed)
        invariant whole == Prepend(placed, PlaceAll(gpt, total, hd[i..], currentSector))
      {
        PlacedStep(gpt, total, hd, i, currentSector, placed);
        if hd[i] == Other {
          continue;
        }
        var length := PartLength(gpt, total, Usable(gpt, total), hd[i].size, currentSector);
        if length == None {
          return None;
        }
        var ppart := Slot(currentSector, length.value, if hd[i].Partition? then hd[i].data else []);
        var logicals := Some([]);
        if hd[i].Partition? {
          Dd(ppart.data, ppart.start * SECTOR);
          WriteNothing(file, 0);
        } else {
          WriteNothing(file, ppart.start * SECTOR / SECTOR * SECTOR);
          logicals := CreateLogicalPartitions(hd[i].logicals, ppart);
          if logicals == None {
            return None;
          }
        }
        var p := Placed(ppart, logicals.value);
        WritePlacedOneMore(old(file), placed, p);
        placed := placed + [p];
        currentSector := currentSector + ppart.length;
      }
      PlacedEnd(gpt, total, hd[|hd|..], currentSector, placed);
      r := Some(placed);
    }
  }

  lemma LogicalsStart(gpt: bool, end: nat, logicals: seq<Logical>, current: nat, img: seq<Byte>)
    ensures PlaceLogicals(gpt, end, logicals, current) == Prepend([], PlaceLogicals(gpt, end, logicals[0..], current))
    ensures WriteSlots(img, []) == img
  {
    assert logicals[0..] == logicals;
    PrependLaws([], [], PlaceLogicals(gpt, end, logicals, current));
  }

  lemma LogicalsEnd(gpt: bool, end: nat, logicals: seq<Logical>, current: nat, slots: seq<Slot>)
    requires logicals == []
    ensures Prepend(slots, PlaceLogicals(gpt, end, logicals, current)) == Some(slots)
  {
    PrependLaws(slots, [], None);
  }

  lemma LogicalsStep(gpt: bool, end: nat, logicals: seq<Logical>, i: nat, current: nat, slots: seq<Slot>,
                     img: seq<Byte>)
    requires i < |logicals|
    ensures var before := Prepend(slots, PlaceLogicals(gpt, end, logicals[i..], current));
            if logicals[i].OtherTag? then
              before == Prepend(slots, PlaceLogicals(gpt, end, logicals[i + 1..], current))
            else
              match PartLength(gpt, end, end, logicals[i].size, current + 2048)
              case None => before == None
              case Some(len) =>
                var slot := Slot(current + 2048, len, logicals[i].data);
                && before == Prepend(slots + [slot], PlaceLogicals(gpt, end, logicals[i + 1..], slot.End()))
                && WriteSlots(img, slots + [slot]) ==
                   WriteAt(WriteSlots(img, slots), slot.start * SECTOR / SECTOR * SECTOR, slot.data)
  {
    assert logicals[i..][1..] == logicals[i + 1..];
    hide WriteAt, PartLength;
    if logicals[i].Logical? {
      var length := PartLength(gpt, end, end, logicals[i].size, current + 2048);
      if length.Some? {
        var slot := Slot(current + 2048, length.value, logicals[i].data);
        WriteSlotsAppend(img, slots, [slot]);
        WriteOne(WriteSlots(img, slots), slot);
        hide WriteSlots;
        PrependLaws(slots, [slot], PlaceLogicals(gpt, end, logicals[i + 1..], slot.End()));
      }
    }
  }

  lemma PlacedStart(gpt: bool, total: nat, parts: seq<Part>, current: nat, img: seq<Byte>)
    ensures PlaceAll(gpt, total, parts, current) == Prepend([], PlaceAll(gpt, total, parts[0..], current))
    ensures WritePlaced(img, []) == img
  {
    assert parts[0..] == parts;
    PrependLaws([], [], PlaceAll(gpt, total, parts, current));
  }

  lemma PlacedEnd(gpt: bool, total: nat, parts: seq<Part>, current: nat, placed: seq<Placed>)
    requires parts == []
    ensures Prepend(placed, PlaceAll(gpt, total, parts, current)) == Some(placed)
  {
    PrependLaws(placed, [], None);
  }

  lemma WritePlacedOneMore(img: seq<Byte>, placed: seq<Placed>, p: Placed)
    ensures WritePlaced(img, placed + [p]) ==
            WriteSlots(WriteAt(WritePlaced(img, placed), p.slot.start * SECTOR / SECTOR * SECTOR, p.slot.data),
                       p.logicals)
  {
    hide WriteAt;
    WritePlacedSnoc(img, placed, p);
    WriteOne(WritePlaced(img, placed), p.slot);
  }

  lemma WriteOne(img: seq<Byte>, slot: Slot)
    ensures WriteSlots(img, [slot]) == WriteAt(img, slot.start * SECTOR / SECTOR * SECTOR, slot.data)
  {
    hide WriteAt;
    var r := WriteAt(img, slot.start * SECTOR, slot.data);
    assert WriteSlots(r, [slot][1..]) == r;
    assert slot.start * SECTOR / SECTOR == slot.start;
  }

  lemma WriteNothing(img: seq<Byte>, offset: nat)
    ensures WriteSlots(img, []) == img && WriteAt(img, offset, []) == img
  {
  }

  lemma PlacedStep(gpt: bool, total: nat, parts: seq<Part>, i: nat, current: nat, placed: seq<Placed>)
    requires i < |parts|
    ensures parts[i] == Other ==>
      PlaceAll(gpt, total, parts[i..], current) == PlaceAll(gpt, total, parts[i + 1..], current)
    ensures parts[i] != Other ==>
      var before := Prepend(placed, PlaceAll(gpt, total, parts[i..], current));
      var one := PlaceOne(gpt, total, parts[i], current);
      if one == None then before == None
      else
        before == Prepend(placed + [one.value], PlaceAll(gpt, total, parts[i + 1..], current + one.value.slot.length))
  {
    var rest := parts[i..];
    assert rest[0] == parts[i] && rest[1..] == parts[i + 1..];
    if parts[i] != Other {
      var one := PlaceOne(gpt, total, parts[i], current);
      hide PlaceOne;
      if one.Some? {
        PrependLaws(placed, [one.value], PlaceAll(gpt, total, parts[i + 1..], current + one.value.slot.length));
      }
    }
  }

  lemma {:induction false} WritePlacedSnoc(img: seq<Byte>, placed: seq<Placed>, p: Placed)
    ensures WritePlaced(img, placed + [p]) ==
            WriteSlots(WriteSlots(WritePlaced(img, placed), [p.slot]), p.logicals)
    decreases placed
  {
    if placed != [] {
      assert (placed + [p])[1..] == placed[1..] + [p];
      WritePlacedSnoc(WriteSlots(WriteSlots(img, [placed[0].slot]), placed[0].logicals), placed[1..], p);
    }
  }
}
