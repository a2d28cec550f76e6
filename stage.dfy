/** The stage's layout step (src/components/hex/Stage.tsx): each hex of the list
    takes the next free slot of its ring, in list order; a hex whose ring has no
    slot left is dropped. Also the wiring of a cell's click and double-click. */
module Stage {
  import opened Types
  import opened Board
  import opened Geometry
  import StoreActions

  /** One placed cell. `payload` is None where the source passes the empty record. */
  datatype HexLayout = HexLayout(id: string, cx: real, cy: real, size: real, ring: nat, payload: Option<HexPayload>)

  /** The layout of the stage: the viewport used (written into the viewBox) and the
      placed cells. */
  datatype LayoutData = LayoutData(width: real, height: real, hexLayouts: seq<HexLayout>)

  /** Only rings 0..3 have slot lists. */
  predicate RingsInRange(hexes: seq<Hex>) {
    forall k :: 0 <= k < |hexes| ==> 0 <= hexes[k].ring <= 3
  }

  /** How many hexes of `hs` lie on `ring`: the counter value after `hs`. */
  function CountRing(hs: seq<Hex>, ring: int): (n: nat)
    ensures n <= |hs|
  {
    if hs == [] then 0
    else CountRing(hs[..|hs| - 1], ring) + (if hs[|hs| - 1].ring == ring then 1 else 0)
  }

  /** `payloads[hex.id] ?? {}` */
  function PayloadOf(payloads: map<string, HexPayload>, id: string): (p: Option<HexPayload>)
    ensures p.Some? <==> id in payloads
    ensures p.Some? ==> p.value == payloads[id]
  {
    if id in payloads then Some(payloads[id]) else None
  }

  /** The slot lists the stage builds, for rings 0..3. */
  function RingSlots(): (rings: seq<seq<Axial>>)
    ensures |rings| == 4
    ensures forall r :: 0 <= r < 4 ==> rings[r] == RingAxialCoords(r)
  {
    seq(4, r requires 0 <= r < 4 => RingAxialCoords(r))
  }

  /** The four lists the stage obtains from getRingAxialCoords form that table. */
  lemma SlotTable(r0: seq<Axial>, r1: seq<Axial>, r2: seq<Axial>, r3: seq<Axial>)
    requires r0 == RingAxialCoords(0) && r1 == RingAxialCoords(1)
    requires r2 == RingAxialCoords(2) && r3 == RingAxialCoords(3)
    ensures [r0, r1, r2, r3] == RingSlots()
  {
    var t := [r0, r1, r2, r3];
    forall i | 0 <= i < 4 ensures t[i] == RingSlots()[i] {
    }
  }

  /** The entry for the k-th hex: the slot of its ring numbered by the count of
      earlier hexes on the same ring, or nothing when the ring has run out of slots. */
  function Placement(hexes: seq<Hex>, payloads: map<string, HexPayload>, l: Layout, rings: seq<seq<Axial>>, k: nat): Option<HexLayout>
    requires k < |hexes| && 0 <= hexes[k].ring < |rings|
  {
    var ring: nat := hexes[k].ring;
    var index := CountRing(hexes[..k], ring);
    if index < |rings[ring]| then
      var d := AxialToPixel(rings[ring][index].q, rings[ring][index].r, l.size);
      Some(HexLayout(hexes[k].id, l.cx + d.x, l.cy + d.y, l.size, ring, PayloadOf(payloads, hexes[k].id)))
    else
      None
  }

  /** The mapped list, before the filter: one entry per hex of the first n. */
  function Mapped(hexes: seq<Hex>, payloads: map<string, HexPayload>, l: Layout, rings: seq<seq<Axial>>, n: nat): (m: seq<Option<HexLayout>>)
    requires RingsInRange(hexes) && |rings| == 4 && n <= |hexes|
    ensures |m| == n
  {
    if n == 0 then [] else Mapped(hexes, payloads, l, rings, n - 1) + [Placement(hexes, payloads, l, rings, n - 1)]
  }

  /** The k-th mapped entry is the k-th hex's placement. */
  lemma {:induction false} MappedAt(hexes: seq<Hex>, payloads: map<string, HexPayload>, l: Layout, rings: seq<seq<Axial>>, n: nat)
    requires RingsInRange(hexes) && |rings| == 4 && n <= |hexes|
    ensures forall k :: 0 <= k < n ==> Mapped(hexes, payloads, l, rings, n)[k] == Placement(hexes, payloads, l, rings, k)
    decreases n
  {
    if n > 0 {
      MappedAt(hexes, payloads, l, rings, n - 1);
    }
  }

  /** The present entries, in order: exactly the values of the present entries
      survive, and no absent one adds anything. */
  function Somes<T(!new)>(xs: seq<Option<T>>): (ys: seq<T>)
    ensures |ys| <= |xs|
    ensures forall y :: y in ys <==> Some(y) in xs
  {
    if xs == [] then []
    else
      var init := Somes(xs[..|xs| - 1]);
      assert forall y :: Some(y) in xs[..|xs| - 1] ==> Some(y) in xs;
      init + (if xs[|xs| - 1].Some? then [xs[|xs| - 1].value] else [])
  }

  /** The layout the stage computes for a measured viewport. */
  function StageLayout(width: real, height: real, hexes: seq<Hex>, payloads: map<string, HexPayload>): (d: Option<LayoutData>)
    requires RingsInRange(hexes)
    ensures d.None? <==> width == 0.0 || height == 0.0
  {
    if width == 0.0 || height == 0.0 then None
    else
      var l := CalculateLayout(width, height);
      Some(LayoutData(l.width, l.height, Somes(Mapped(hexes, payloads, l, RingSlots(), |hexes|))))
  }

  lemma MappedSnoc(hexes: seq<Hex>, payloads: map<string, HexPayload>, l: Layout, rings: seq<seq<Axial>>, k: nat)
    requires RingsInRange(hexes) && |rings| == 4 && k < |hexes|
    ensures Mapped(hexes, payloads, l, rings, k + 1)
      == Mapped(hexes, payloads, l, rings, k) + [Placement(hexes, payloads, l, rings, k)]
  {
  }

  /** Advancing the counter of the k-th hex's ring keeps every counter equal to its
      count over the list so far. */
  lemma CountersSnoc(hexes: seq<Hex>, k: nat, counters: map<int, nat>)
    requires RingsInRange(hexes) && k < |hexes|
    requires forall r :: 0 <= r <= 3 ==> r in counters && counters[r] == CountRing(hexes[..k], r)
    ensures var c := counters[hexes[k].ring := counters[hexes[k].ring] + 1];
      forall r :: 0 <= r <= 3 ==> r in c && c[r] == CountRing(hexes[..k + 1], r)
  {
    forall r | 0 <= r <= 3 {
      CountRingSnoc(hexes, k, r);
    }
  }

  lemma CountRingSnoc(hs: seq<Hex>, k: nat, ring: int)
    requires k < |hs|
    ensures CountRing(hs[..k + 1], ring) == CountRing(hs[..k], ring) + (if hs[k].ring == ring then 1 else 0)
  {
    assert hs[..k + 1][..k] == hs[..k];
  }

  lemma SomesSnoc<T(!new)>(xs: seq<Option<T>>, j: nat)
    requires j < |xs|
    ensures Somes(xs[..j + 1]) == Somes(xs[..j]) + (if xs[j].Some? then [xs[j].value] else [])
  {
    assert xs[..j + 1][..j] == xs[..j];
  }

  /** The callback of the `.map` for the k-th hex, handed the value its ring's
      counter had before the hex: that slot of the ring, or nothing once the ring's
      slots are used up. */
  method PlaceHex(hexes: seq<Hex>, payloads: map<string, HexPayload>, layout: Layout, rings: seq<seq<Axial>>, k: nat, index: nat)
    returns (entry: Option<HexLayout>)
    requires RingsInRange(hexes) && |rings| == 4 && k < |hexes|
    requires index == CountRing(hexes[..k], hexes[k].ring)
    ensures entry == Placement(hexes, payloads, layout, rings, k)
    ensures entry.None? <==> index >= |rings[hexes[k].ring]|
  {
    var hex := hexes[k];
    var ring: nat := hex.ring;
    entry := None;
    if index < |rings[ring]| {
      var axial := rings[ring][index];
      var d := AxialToPixel(axial.q, axial.r, layout.size);
      entry := Some(HexLayout(hex.id, layout.cx + d.x, layout.cy + d.y, layout.size, ring, PayloadOf(payloads, hex.id)));
    }
  }

  /** The `.map` over the hex list: a counter per ring, and for each hex the slot its
      counter names, or nothing where the ring's slots are used up (the source logs
      a diagnostic there). */
  method MapHexes(hexes: seq<Hex>, payloads: map<string, HexPayload>, layout: Layout, rings: seq<seq<Axial>>)
    returns (mapped: seq<Option<HexLayout>>)
    requires RingsInRange(hexes)
    requires |rings| == 4
    ensures mapped == Mapped(hexes, payloads, layout, rings, |hexes|)
  {
    var ringCounters: map<int, nat> := map[0 := 0, 1 := 0, 2 := 0, 3 := 0];
    mapped := [];
    var k := 0;
    while k < |hexes|
      invariant 0 <= k <= |hexes|
      invariant mapped == Mapped(hexes, payloads, layout, rings, k)
      invariant forall r :: 0 <= r <= 3 ==> r in ringCounters && ringCounters[r] == CountRing(hexes[..k], r)
    {
      var ring: nat := hexes[k].ring;
      var index := ringCounters[ring];
      CountersSnoc(hexes, k, ringCounters);
      ringCounters := ringCounters[ring := index + 1];
      var entry := PlaceHex(hexes, payloads, layout, rings, k, index);
      MappedSnoc(hexes, payloads, layout, rings, k);
      mapped := mapped + [entry];
      k := k + 1;
    }
  }

  /** The `.filter` dropping the missing entries. */
  method FilterPresent(mapped: seq<Option<HexLayout>>) returns (hexLayouts: seq<HexLayout>)
    ensures hexLayouts == Somes(mapped)
  {
    hexLayouts := [];
    var j := 0;
    while j < |mapped|
      invariant 0 <= j <= |mapped|
      invariant hexLayouts == Somes(mapped[..j])
    {
      SomesSnoc(mapped, j);
      if mapped[j].Some? {
        hexLayouts := hexLayouts + [mapped[j].value];
      }
      j := j + 1;
    }
    assert mapped[..j] == mapped;
  }

  /** The layout step: nothing for an unmeasured stage; otherwise the layout, the
      slot lists of rings 0..3, the map and the filter. */
  method ComputeLayout(width: real, height: real, hexes: seq<Hex>, payloads: map<string, HexPayload>)
    returns (data: Option<LayoutData>)
    requires RingsInRange(hexes)
    ensures data == StageLayout(width, height, hexes, payloads)
  {
    if width == 0.0 || height == 0.0 {
      return None;
    }
    var layout := CalculateLayout(width, height);
    var ring0 := GetRingAxialCoords(0);
    var ring1 := GetRingAxialCoords(1);
    var ring2 := GetRingAxialCoords(2);
    var ring3 := GetRingAxialCoords(3);
    var rings := [ring0, ring1, ring2, ring3];
    SlotTable(ring0, ring1, ring2, ring3);
    var mapped := MapHexes(hexes, payloads, layout, rings);
    var hexLayouts := FilterPresent(mapped);
    return Some(LayoutData(layout.width, layout.height, hexLayouts));
  }

  /** Every entry of a layout is the entry of one hex of the list: it carries that
      hex's id, ring and payload, the layout's size, and the layout centre moved by
      its slot. The layout has no more entries than there are hexes. */
  lemma LayoutEntriesComeFromHexes(width: real, height: real, hexes: seq<Hex>, payloads: map<string, HexPayload>)
    requires RingsInRange(hexes)
    requires width != 0.0 && height != 0.0
    ensures var d := StageLayout(width, height, hexes, payloads);
      d.Some? && |d.value.hexLayouts| <= |hexes| &&
      forall e :: e in d.value.hexLayouts ==>
        MinSize <= e.size <= MaxSize &&
        exists k :: 0 <= k < |hexes| && Placement(hexes, payloads, CalculateLayout(width, height), RingSlots(), k) == Some(e)
  {
    var l := CalculateLayout(width, height);
    var m := Mapped(hexes, payloads, l, RingSlots(), |hexes|);
    MappedAt(hexes, payloads, l, RingSlots(), |hexes|);
    var ys := Somes(m);
    assert StageLayout(width, height, hexes, payloads).value.hexLayouts == ys;
    forall e | e in ys
      ensures MinSize <= e.size <= MaxSize
      ensures exists k :: 0 <= k < |hexes| && Placement(hexes, payloads, l, RingSlots(), k) == Some(e)
    {
      assert Some(e) in m;
      var k :| 0 <= k < |m| && m[k] == Some(e);
      assert Placement(hexes, payloads, l, RingSlots(), k) == Some(e);
    }
  }

  /** The converse: a hex is left out of the layout only when its ring has no
      free slot left; every other hex's placement is an entry of the layout. */
  lemma LayoutKeepsEveryPlacedHex(width: real, height: real, hexes: seq<Hex>, payloads: map<string, HexPayload>, k: nat)
    requires RingsInRange(hexes)
    requires width != 0.0 && height != 0.0
    requires k < |hexes|
    ensures var d := StageLayout(width, height, hexes, payloads);
      var p := Placement(hexes, payloads, CalculateLayout(width, height), RingSlots(), k);
      && d.Some?
      && (p.None? <==> CountRing(hexes[..k], hexes[k].ring) >= |RingSlots()[hexes[k].ring]|)
      && (p.Some? ==> p.value in d.value.hexLayouts)
  {
    var l := CalculateLayout(width, height);
    var m := Mapped(hexes, payloads, l, RingSlots(), |hexes|);
    MappedAt(hexes, payloads, l, RingSlots(), |hexes|);
    assert m[k] == Placement(hexes, payloads, l, RingSlots(), k);
  }

  /** e1 and e2 are the placements of two hexes, e1's hex first in the list. */
  predicate PlacedInOrder(hexes: seq<Hex>, payloads: map<string, HexPayload>, l: Layout, e1: HexLayout, e2: HexLayout)
    requires RingsInRange(hexes)
  {
    exists a, b :: 0 <= a < b < |hexes|
      && Placement(hexes, payloads, l, RingSlots(), a) == Some(e1)
      && Placement(hexes, payloads, l, RingSlots(), b) == Some(e2)
  }

  /** The layout keeps list order: of two entries, the earlier one is the
      placement of an earlier hex. */
  lemma LayoutKeepsListOrder(width: real, height: real, hexes: seq<Hex>, payloads: map<string, HexPayload>)
    requires RingsInRange(hexes)
    requires width != 0.0 && height != 0.0
    ensures var d := StageLayout(width, height, hexes, payloads);
      d.Some? &&
      forall i, j :: 0 <= i < j < |d.value.hexLayouts| ==>
        PlacedInOrder(hexes, payloads, CalculateLayout(width, height), d.value.hexLayouts[i], d.value.hexLayouts[j])
  {
    var l := CalculateLayout(width, height);
    var m := Mapped(hexes, payloads, l, RingSlots(), |hexes|);
    MappedAt(hexes, payloads, l, RingSlots(), |hexes|);
    SomesKeepsOrder(m);
    var ys := Somes(m);
    assert StageLayout(width, height, hexes, payloads).value.hexLayouts == ys;
    forall i, j | 0 <= i < j < |ys|
      ensures PlacedInOrder(hexes, payloads, l, ys[i], ys[j])
    {
      var a, b :| 0 <= a < b < |m| && m[a] == Some(ys[i]) && m[b] == Some(ys[j]);
      assert m[a] == Placement(hexes, payloads, l, RingSlots(), a);
      assert m[b] == Placement(hexes, payloads, l, RingSlots(), b);
    }
  }

  /** Of two present entries, the earlier comes from an earlier position. */
  lemma {:induction false} SomesKeepsOrder<T(!new)>(xs: seq<Option<T>>)
    ensures forall i, j :: 0 <= i < j < |Somes(xs)| ==>
      exists a, b :: 0 <= a < b < |xs| && xs[a] == Some(Somes(xs)[i]) && xs[b] == Some(Somes(xs)[j])
    decreases |xs|
  {
    if xs != [] {
      var n := |xs| - 1;
      var init := xs[..n];
      SomesKeepsOrder(init);
      var ys, zs := Somes(xs), Somes(init);
      assert ys == zs + (if xs[n].Some? then [xs[n].value] else []);
      forall i, j | 0 <= i < j < |ys|
        ensures exists a, b :: 0 <= a < b < |xs| && xs[a] == Some(ys[i]) && xs[b] == Some(ys[j])
      {
        if j < |zs| {
          var a, b :| 0 <= a < b < |init| && init[a] == Some(zs[i]) && init[b] == Some(zs[j]);
          assert xs[a] == init[a] && xs[b] == init[b];
        } else {
          assert zs[i] in zs;
          var a :| 0 <= a < |init| && init[a] == Some(zs[i]);
          assert xs[a] == init[a] && xs[n] == Some(ys[j]);
        }
      }
    } else {
      assert Somes(xs) == [];
    }
  }

  /** The filter keeps list order: when no hex is dropped, the k-th entry is the
      k-th hex's. */
  lemma {:induction false} SomesAllPresent<T(!new)>(xs: seq<Option<T>>)
    requires forall k :: 0 <= k < |xs| ==> xs[k].Some?
    ensures |Somes(xs)| == |xs|
    ensures forall k :: 0 <= k < |xs| ==> Somes(xs)[k] == xs[k].value
    decreases |xs|
  {
    if xs != [] {
      SomesAllPresent(xs[..|xs| - 1]);
    }
  }

  /** The offset of the k-th generated hex within its ring. */
  function Offset(k: nat): nat {
    if k == 0 then 0 else if k < 7 then k - 1 else if k < 19 then k - 7 else k - 19
  }

  /** The lattice slot the k-th generated hex is given. */
  function InitialSlot(k: nat): Axial
    requires k < 37
  {
    RingAxialCoords(RingOf(k))[Offset(k)]
  }

  /** The ring of the k-th generated hex. */
  function RingOf(k: nat): nat {
    if k == 0 then 0 else if k < 7 then 1 else if k < 19 then 2 else 3
  }

  /** A list whose rings run like the generated one's: the centre, six hexes of
      ring 1, twelve of ring 2, eighteen of ring 3. */
  predicate IsGeneratedList(hs: seq<Hex>) {
    |hs| == 37 && forall k :: 0 <= k < 37 ==> hs[k].ring == RingOf(k)
  }

  function RingStart(r: nat): nat { ListIndex(r, 0) }

  function RingSize(r: nat): nat { if r == 0 then 1 else 6 * r }

  /** How many of the first k generated hexes lie on ring r. */
  function CountBefore(k: nat, r: nat): nat {
    if k <= RingStart(r) then 0
    else if k >= RingStart(r) + RingSize(r) then RingSize(r)
    else k - RingStart(r)
  }

  lemma {:induction false} CountPrefix(hs: seq<Hex>, k: nat, r: nat)
    requires IsGeneratedList(hs) && k <= 37 && r <= 3
    ensures CountRing(hs[..k], r) == CountBefore(k, r)
    decreases k
  {
    if k > 0 {
      CountPrefix(hs, k - 1, r);
      CountRingSnoc(hs, k - 1, r);
      assert hs[k - 1].ring == RingOf(k - 1);
    }
  }

  /** On the generated list, the counter for the k-th hex's ring stands at its
      offset within that ring. */
  lemma InitialCount(hs: seq<Hex>, k: nat)
    requires IsGeneratedList(hs) && k < 37
    ensures CountRing(hs[..k], RingOf(k)) == Offset(k)
  {
    CountPrefix(hs, k, RingOf(k));
  }

  /** A hex whose ring still has a free slot is placed on it. */
  lemma PlacementOnSlot(hexes: seq<Hex>, payloads: map<string, HexPayload>, l: Layout, k: nat, slot: Axial)
    requires k < |hexes| && 0 <= hexes[k].ring <= 3
    requires CountRing(hexes[..k], hexes[k].ring) < |RingAxialCoords(hexes[k].ring)|
    requires slot == RingAxialCoords(hexes[k].ring)[CountRing(hexes[..k], hexes[k].ring)]
    ensures Placement(hexes, payloads, l, RingSlots(), k) ==
      var d := AxialToPixel(slot.q, slot.r, l.size);
      Some(HexLayout(hexes[k].id, l.cx + d.x, l.cy + d.y, l.size, hexes[k].ring, PayloadOf(payloads, hexes[k].id)))
  {
    assert RingSlots()[hexes[k].ring] == RingAxialCoords(hexes[k].ring);
  }

  lemma OffsetInRing(k: nat)
    requires k < 37
    ensures Offset(k) < |RingAxialCoords(RingOf(k))|
  {
    RingLength(RingOf(k));
  }

  /** The k-th generated hex is placed on its slot. */
  lemma InitialPlacement(hs: seq<Hex>, payloads: map<string, HexPayload>, l: Layout, k: nat, slot: Axial)
    requires IsGeneratedList(hs) && k < 37 && slot == InitialSlot(k)
    ensures 0 <= hs[k].ring <= 3
    ensures Placement(hs, payloads, l, RingSlots(), k) ==
      var d := AxialToPixel(slot.q, slot.r, l.size);
      Some(HexLayout(hs[k].id, l.cx + d.x, l.cy + d.y, l.size, hs[k].ring, PayloadOf(payloads, hs[k].id)))
  {
    assert hs[k].ring == RingOf(k);
    InitialCount(hs, k);
    OffsetInRing(k);
    PlacementOnSlot(hs, payloads, l, k, slot);
  }

  /** The generated hex list has the generated ring sequence. */
  lemma InitialHexesGenerated()
    ensures IsGeneratedList(InitialHexes())
  {
    InitialHexesInOrder();
    forall k | 0 <= k < 37 ensures InitialHexes()[k].ring == RingOf(k) {
      assert InitialHexes()[k] == ExpectedHex(k);
    }
  }

  /** The k-th hex is placed, with its own id, ring and payload. */
  predicate PlacedAsItself(hs: seq<Hex>, payloads: map<string, HexPayload>, l: Layout, k: nat)
    requires RingsInRange(hs) && k < |hs|
  {
    var p := Placement(hs, payloads, l, RingSlots(), k);
    p.Some? && p.value.id == hs[k].id && p.value.ring == hs[k].ring &&
    p.value.payload == PayloadOf(payloads, hs[k].id) && p.value.size == l.size
  }

  lemma PlacedFields(hs: seq<Hex>, payloads: map<string, HexPayload>, l: Layout, k: nat)
    requires IsGeneratedList(hs) && k < 37
    ensures RingsInRange(hs) && PlacedAsItself(hs, payloads, l, k)
  {
    GeneratedRingsInRange(hs);
    var slot := InitialSlot(k);
    InitialPlacement(hs, payloads, l, k, slot);
    var p := Placement(hs, payloads, l, RingSlots(), k);
    assert p.Some? && p.value.id == hs[k].id && p.value.ring == hs[k].ring;
  }

  lemma GeneratedRingsInRange(hs: seq<Hex>)
    requires IsGeneratedList(hs)
    ensures RingsInRange(hs)
  {
    forall k | 0 <= k < |hs| ensures 0 <= hs[k].ring <= 3 {
      assert hs[k].ring == RingOf(k);
    }
  }

  /** On the generated board no hex is dropped and the list order is kept: the k-th
      entry is the k-th hex's placement, with its id, ring and payload and the
      layout's size. */
  lemma GeneratedBoardLayout(width: real, height: real, hs: seq<Hex>, payloads: map<string, HexPayload>)
    requires width != 0.0 && height != 0.0 && IsGeneratedList(hs)
    ensures RingsInRange(hs)
    ensures var d := StageLayout(width, height, hs, payloads);
      var l := CalculateLayout(width, height);
      d.Some? && |d.value.hexLayouts| == 37 &&
      forall k :: 0 <= k < 37 ==>
        Some(d.value.hexLayouts[k]) == Placement(hs, payloads, l, RingSlots(), k) &&
        var e := d.value.hexLayouts[k];
        e.id == hs[k].id && e.ring == RingOf(k) && e.payload == PayloadOf(payloads, hs[k].id) && e.size == l.size
  {
    var l := CalculateLayout(width, height);
    var m := Mapped(hs, payloads, l, RingSlots(), 37);
    MappedAt(hs, payloads, l, RingSlots(), 37);
    forall k | 0 <= k < 37
      ensures m[k] == Placement(hs, payloads, l, RingSlots(), k) && PlacedAsItself(hs, payloads, l, k)
    {
      PlacedFields(hs, payloads, l, k);
    }
    SomesAllPresent(m);
  }

  /** The k-th cell of the generated board is drawn at the layout centre moved by
      the pixel offset of its slot; ring r's i-th hex gets RingAxialCoords(r)[i]. */
  lemma GeneratedCellCentre(width: real, height: real, hs: seq<Hex>, payloads: map<string, HexPayload>, k: nat, slot: Axial)
    requires width != 0.0 && height != 0.0 && IsGeneratedList(hs) && k < 37
    requires slot == InitialSlot(k)
    ensures slot == RingAxialCoords(RingOf(k))[Offset(k)]
    ensures RingsInRange(hs)
    ensures var d := StageLayout(width, height, hs, payloads);
      var l := CalculateLayout(width, height);
      var p := AxialToPixel(slot.q, slot.r, l.size);
      d.Some? && |d.value.hexLayouts| == 37 &&
      d.value.hexLayouts[k].cx == l.cx + p.x && d.value.hexLayouts[k].cy == l.cy + p.y
  {
    GeneratedBoardLayout(width, height, hs, payloads);
    InitialPlacement(hs, payloads, CalculateLayout(width, height), k, slot);
  }

  lemma InitialSlotDistance(k: nat)
    requires k < 37
    ensures HexDistance(InitialSlot(k)) == RingOf(k)
  {
    var ring: nat := RingOf(k);
    RingOnHexCircle(ring);
    RingLength(ring);
    assert InitialSlot(k) in RingAxialCoords(ring);
  }

  /** The 37 generated hexes occupy 37 different lattice positions. */
  lemma InitialSlotsDistinct(j: nat, k: nat)
    requires j < k < 37
    ensures InitialSlot(j) != InitialSlot(k)
  {
    var rj, rk: nat := RingOf(j), RingOf(k);
    InitialSlotDistance(j);
    InitialSlotDistance(k);
    if rj == rk {
      RingDistinct(rj);
      RingLength(rj);
      assert Offset(j) < Offset(k);
    }
  }

  lemma MulCancel(c: real, a: real, b: real)
    requires c > 0.0
    ensures c * a == c * b ==> a == b
  {
    if a < b {
      assert c * a < c * b;
    } else if b < a {
      assert c * b < c * a;
    }
  }

  /** For a positive size, different lattice positions have different pixel offsets. */
  lemma AxialToPixelInjective(a: Axial, b: Axial, size: real)
    requires size > 0.0
    ensures AxialToPixel(a.q, a.r, size) == AxialToPixel(b.q, b.r, size) ==> a == b
  {
    var sx, sy := size * HexStretchX, size * HexStretchY;
    var ya, yb := Sqrt3 * a.r as real + (Sqrt3 / 2.0) * a.q as real, Sqrt3 * b.r as real + (Sqrt3 / 2.0) * b.q as real;
    MulCancel(sx, 1.5 * a.q as real, 1.5 * b.q as real);
    MulCancel(sy, ya, yb);
    MulCancel(Sqrt3, a.r as real, b.r as real);
  }

  /** On the generated board no two cells are drawn at the same centre. */
  lemma GeneratedCellsDoNotOverlap(width: real, height: real, hs: seq<Hex>, payloads: map<string, HexPayload>, j: nat, k: nat)
    requires width != 0.0 && height != 0.0 && IsGeneratedList(hs) && j < k < 37
    ensures RingsInRange(hs)
    ensures var d := StageLayout(width, height, hs, payloads);
      d.Some? && |d.value.hexLayouts| == 37 &&
      (d.value.hexLayouts[j].cx, d.value.hexLayouts[j].cy) != (d.value.hexLayouts[k].cx, d.value.hexLayouts[k].cy)
  {
    var sj, sk := InitialSlot(j), InitialSlot(k);
    GeneratedCellCentre(width, height, hs, payloads, j, sj);
    GeneratedCellCentre(width, height, hs, payloads, k, sk);
    InitialSlotsDistinct(j, k);
    AxialToPixelInjective(sj, sk, CalculateLayout(width, height).size);
  }

  /** A mouse gesture on a cell. */
  datatype Gesture = Click | DoubleClick

  /** The stage wires a cell's click to setActiveHexId and its double-click to
      openRecruitModal; the cell passes its own id. */
  function HandleGesture(s: AppState, g: Gesture, cellId: string): (r: AppState)
    ensures g == Click ==> r.activeHexId == Some(cellId) && r.modalState == s.modalState
    ensures g == DoubleClick ==>
      r.activeHexId == s.activeHexId &&
      r.modalState == (if cellId == CenterId then s.modalState else ModalState(true, Some(cellId)))
    ensures r.hexes == s.hexes && r.payloads == s.payloads
  {
    match g
    case Click => StoreActions.SetActiveHexId(s, cellId)
    case DoubleClick => StoreActions.OpenRecruitModal(s, cellId)
  }
}
