/** The generated board of src/state/useHexStore.ts: default payloads, hex
    identifiers and titles, and generateInitialState. */
module Board {
  import opened Types
  import opened Text

  const CenterId := "c-0"
  const CenterTitle := "FLOWer Recruit"
  const UntitledTitle := "Untitled"

  /** A payload as createDefaultPayload leaves it: 'To Do', every list present and
      empty, and no optional text. */
  predicate IsDefaultShaped(p: HexPayload) {
    && p.status == ToDo
    && p.links == Some([])
    && p.kanban == Some(Kanban([], [], []))
    && p.chat == Some([])
    && p.description.None? && p.notes.None? && p.jobDescription.None?
    && p.cvMatchPercent.None? && p.interviewPrep.None? && p.trackingStatus.None?
  }

  /** createDefaultPayload: the ring is stored as a number. */
  function CreateDefaultPayload(title: string, ring: int): (p: HexPayload)
    ensures IsDefaultShaped(p)
    ensures p.title == title && p.ring == RingNumber(ring)
  {
    HexPayload(title, ToDo, RingNumber(ring), None, None, Some([]),
               Some(Kanban([], [], [])), Some([]), None, None, None, None)
  }

  /** The identifier `r${ring}-${i}`. */
  function RingId(ring: nat, i: nat): string {
    "r" + NatToString(ring) + "-" + NatToString(i)
  }

  /** The title of the k-th generated hex: the centre's, then 'Hex k' from the
      running counter, which equals the hex's position in the list. */
  function TitleAt(k: nat): string {
    if k == 0 then CenterTitle else "Hex " + NatToString(k)
  }

  /** Ring `ring`'s first `count` hexes, in generation order. */
  function RingHexes(ring: nat, count: nat): (hs: seq<Hex>)
    ensures |hs| == count
  {
    seq(count, i requires 0 <= i < count => Hex(RingId(ring, i), ring))
  }

  /** Rings 1..n, ring k holding 6k hexes. */
  function RingsThrough(n: nat): seq<Hex>
    decreases n
  {
    if n == 0 then [] else RingsThrough(n - 1) + RingHexes(n, 6 * n)
  }

  function InitialHexes(): seq<Hex> {
    [Hex(CenterId, 0)] + RingsThrough(3)
  }

  /** The payload dictionary after assigning, in list order, the default payload
      of each hex; a later hex with the same id overwrites an earlier one. */
  function PayloadsFor(hs: seq<Hex>): map<string, HexPayload>
    decreases |hs|
  {
    if hs == [] then map[]
    else
      var k := |hs| - 1;
      PayloadsFor(hs[..k])[hs[k].id := CreateDefaultPayload(TitleAt(k), hs[k].ring)]
  }

  function InitialPayloads(): map<string, HexPayload> {
    PayloadsFor(InitialHexes())
  }

  lemma PayloadsForSnoc(hs: seq<Hex>, h: Hex)
    ensures PayloadsFor(hs + [h]) == PayloadsFor(hs)[h.id := CreateDefaultPayload(TitleAt(|hs|), h.ring)]
  {
    assert (hs + [h])[..|hs|] == hs;
  }

  lemma RingHexesSnoc(ring: nat, i: nat)
    ensures RingHexes(ring, i + 1) == RingHexes(ring, i) + [Hex(RingId(ring, i), ring)]
  {
  }

  lemma RingsThroughStep(n: nat, earlier: seq<Hex>)
    requires earlier == [Hex(CenterId, 0)] + RingsThrough(n)
    ensures [Hex(CenterId, 0)] + RingsThrough(n + 1) == earlier + RingHexes(n + 1, 6 * (n + 1))
  {
    assert RingsThrough(n + 1) == RingsThrough(n) + RingHexes(n + 1, 6 * (n + 1));
  }

  lemma AllRingsGenerated(n: nat, hexes: seq<Hex>)
    requires n == 3 && hexes == [Hex(CenterId, 0)] + RingsThrough(n)
    ensures hexes == InitialHexes()
  {
  }

  /** One push of GenerateRing keeps the list a prefix of the ring and the
      dictionary the payloads of the list. */
  lemma GenerateRingStep(hexes0: seq<Hex>, hexes: seq<Hex>, payloads: map<string, HexPayload>, ring: nat, i: nat)
    requires |hexes0| >= 1 && hexes == hexes0 + RingHexes(ring, i) && payloads == PayloadsFor(hexes)
    ensures hexes + [Hex(RingId(ring, i), ring)] == hexes0 + RingHexes(ring, i + 1)
    ensures payloads[RingId(ring, i) := CreateDefaultPayload("Hex " + NatToString(|hexes|), ring)]
      == PayloadsFor(hexes + [Hex(RingId(ring, i), ring)])
  {
    var h := Hex(RingId(ring, i), ring);
    PayloadsForSnoc(hexes, h);
    RingHexesSnoc(ring, i);
    assert hexes0 + (RingHexes(ring, i) + [h]) == (hexes0 + RingHexes(ring, i)) + [h];
    assert TitleAt(|hexes|) == "Hex " + NatToString(|hexes|);
  }

  /** The `forEach` callback of generateInitialState for ring `ringIndex + 1`:
      pushes that ring's `count` hexes and assigns their payloads, advancing the
      shared title counter. */
  method GenerateRing(hexes0: seq<Hex>, payloads0: map<string, HexPayload>, hexCounter0: nat,
                      count: nat, ringIndex: nat)
    returns (hexes: seq<Hex>, payloads: map<string, HexPayload>, hexCounter: nat)
    requires hexCounter0 == |hexes0| >= 1 && payloads0 == PayloadsFor(hexes0)
    ensures hexes == hexes0 + RingHexes(ringIndex + 1, count)
    ensures hexCounter == |hexes| && payloads == PayloadsFor(hexes)
  {
    hexes, payloads, hexCounter := hexes0, payloads0, hexCounter0;
    var ring := ringIndex + 1;
    var i := 0;
    while i < count
      invariant 0 <= i <= count
      invariant hexes == hexes0 + RingHexes(ring, i)
      invariant hexCounter == |hexes| >= 1
      invariant payloads == PayloadsFor(hexes)
    {
      var id := RingId(ring, i);
      var title := "Hex " + NatToString(hexCounter);
      GenerateRingStep(hexes0, hexes, payloads, ring, i);
      hexCounter := hexCounter + 1;
      hexes := hexes + [Hex(id, ring)];
      payloads := payloads[id := CreateDefaultPayload(title, ring)];
      i := i + 1;
    }
  }

  /** generateInitialState: the centre, then each ring's hexes with a running
      title counter. */
  method GenerateInitialState() returns (hexes: seq<Hex>, payloads: map<string, HexPayload>)
    ensures hexes == InitialHexes()
    ensures payloads == PayloadsFor(hexes)
  {
    hexes := [Hex(CenterId, 0)];
    payloads := map[CenterId := CreateDefaultPayload(CenterTitle, 0)];
    PayloadsForSnoc([], Hex(CenterId, 0));
    var ringSizes := [6, 12, 18];
    var hexCounter := 1;
    var ringIndex := 0;
    while ringIndex < |ringSizes|
      invariant 0 <= ringIndex <= 3
      invariant hexes == [Hex(CenterId, 0)] + RingsThrough(ringIndex)
      invariant hexCounter == |hexes|
      invariant payloads == PayloadsFor(hexes)
    {
      ghost var earlier := hexes;
      var count := ringSizes[ringIndex];
      assert count == 6 * (ringIndex + 1);
      hexes, payloads, hexCounter := GenerateRing(hexes, payloads, hexCounter, count, ringIndex);
      RingsThroughStep(ringIndex, earlier);
      ringIndex := ringIndex + 1;
    }
    AllRingsGenerated(ringIndex, hexes);
  }

  /** The generated list is the centre followed by the three rings. */
  lemma InitialHexesRings()
    ensures InitialHexes() == [Hex(CenterId, 0)] + RingHexes(1, 6) + RingHexes(2, 12) + RingHexes(3, 18)
  {
    var a, b, c := RingHexes(1, 6), RingHexes(2, 12), RingHexes(3, 18);
    assert RingsThrough(3) == a + b + c by {
      assert RingsThrough(1) == a;
      assert RingsThrough(2) == a + b;
    }
  }

  /** The hex the k-th list position is meant to hold. */
  function ExpectedHex(k: nat): Hex {
    if k == 0 then Hex(CenterId, 0)
    else if k < 7 then Hex(RingId(1, k - 1), 1)
    else if k < 19 then Hex(RingId(2, k - 7), 2)
    else Hex(RingId(3, k - 19), 3)
  }

  /** The generated list is c-0, r1-0..r1-5, r2-0..r2-11, r3-0..r3-17. */
  lemma InitialHexesInOrder()
    ensures |InitialHexes()| == 37
    ensures forall k :: 0 <= k < 37 ==> InitialHexes()[k] == ExpectedHex(k)
  {
    var a, b, c := RingHexes(1, 6), RingHexes(2, 12), RingHexes(3, 18);
    InitialHexesRings();
    var hs := InitialHexes();
    forall k | 0 <= k < 37 ensures hs[k] == ExpectedHex(k) {
      if k == 0 {
      } else if k < 7 {
        assert hs[k] == a[k - 1];
      } else if k < 19 {
        assert hs[k] == b[k - 7];
      } else {
        assert hs[k] == c[k - 19];
      }
    }
  }

  /** Ring identifiers with a one-digit ring determine ring and index. */
  lemma RingIdInjective(r1: nat, i1: nat, r2: nat, i2: nat)
    requires r1 < 10 && r2 < 10
    ensures RingId(r1, i1) == RingId(r2, i2) ==> r1 == r2 && i1 == i2
  {
    if RingId(r1, i1) == RingId(r2, i2) {
      var s1, s2 := RingId(r1, i1), RingId(r2, i2);
      assert s1[1] == DigitChar(r1) && s2[1] == DigitChar(r2);
      assert DigitValue(DigitChar(r1)) == r1 && DigitValue(DigitChar(r2)) == r2;
      assert s1[3..] == NatToString(i1) && s2[3..] == NatToString(i2);
      NatToStringInjective(i1, i2);
    }
  }

  lemma CenterIdIsNoRingId(ring: nat, i: nat)
    ensures RingId(ring, i) != CenterId
  {
    assert RingId(ring, i)[0] == 'r' && CenterId[0] == 'c';
  }

  predicate UniqueIds(hs: seq<Hex>) {
    forall j, k :: 0 <= j < k < |hs| ==> hs[j].id != hs[k].id
  }

  /** The 37 generated identifiers are pairwise distinct. */
  lemma InitialIdsUnique()
    ensures UniqueIds(InitialHexes())
  {
    InitialHexesInOrder();
    var hs := InitialHexes();
    forall j, k | 0 <= j < k < |hs| ensures hs[j].id != hs[k].id {
      var x, y := ExpectedHex(j), ExpectedHex(k);
      if j == 0 {
        if k < 7 { CenterIdIsNoRingId(1, k - 1); }
        else if k < 19 { CenterIdIsNoRingId(2, k - 7); }
        else { CenterIdIsNoRingId(3, k - 19); }
      } else {
        var rj, ij := if j < 7 then 1 else if j < 19 then 2 else 3,
                      if j < 7 then j - 1 else if j < 19 then j - 7 else j - 19;
        var rk, ik := if k < 7 then 1 else if k < 19 then 2 else 3,
                      if k < 7 then k - 1 else if k < 19 then k - 7 else k - 19;
        assert x.id == RingId(rj, ij) && y.id == RingId(rk, ik);
        RingIdInjective(rj, ij, rk, ik);
      }
    }
  }

  /** The keys of PayloadsFor are exactly the listed ids. */
  lemma {:induction false} PayloadsForKeys(hs: seq<Hex>)
    ensures PayloadsFor(hs).Keys == set h | h in hs :: h.id
    decreases |hs|
  {
    if hs != [] {
      var n := |hs| - 1;
      var init := hs[..n];
      assert hs == init + [hs[n]];
      PayloadsForKeys(init);
      PayloadsForSnoc(init, hs[n]);
      assert (set h | h in hs :: h.id) == (set h | h in init :: h.id) + {hs[n].id};
    }
  }

  /** With distinct ids, PayloadsFor gives each hex exactly its own default
      payload. */
  lemma {:induction false} PayloadsForAt(hs: seq<Hex>)
    requires UniqueIds(hs)
    ensures forall k :: 0 <= k < |hs| ==>
      hs[k].id in PayloadsFor(hs) &&
      PayloadsFor(hs)[hs[k].id] == CreateDefaultPayload(TitleAt(k), hs[k].ring)
    decreases |hs|
  {
    if hs != [] {
      var n := |hs| - 1;
      var init := hs[..n];
      assert hs == init + [hs[n]];
      assert UniqueIds(init);
      PayloadsForAt(init);
      PayloadsForSnoc(init, hs[n]);
      forall k | 0 <= k < n
        ensures hs[k].id in PayloadsFor(hs)
        ensures PayloadsFor(hs)[hs[k].id] == CreateDefaultPayload(TitleAt(k), hs[k].ring)
      {
        assert hs[k] == init[k];
        assert hs[k].id != hs[n].id;
      }
    }
  }

  /** Every generated hex has exactly one payload: its title ('FLOWer Recruit',
      then 'Hex 1'..'Hex 36'), status 'To Do', its own ring, and empty lists. */
  lemma InitialPayloadsAt()
    ensures InitialPayloads().Keys == set h | h in InitialHexes() :: h.id
    ensures |InitialPayloads()| == 37
    ensures forall k :: 0 <= k < |InitialHexes()| ==>
      var p := InitialPayloads()[InitialHexes()[k].id];
      IsDefaultShaped(p) && p.title == TitleAt(k) && p.ring == RingNumber(InitialHexes()[k].ring)
  {
    InitialHexesInOrder();
    InitialIdsUnique();
    PayloadsForKeys(InitialHexes());
    PayloadsForAt(InitialHexes());
    IdSetSize(InitialHexes());
  }

  /** Distinct ids: the id set is as large as the list. */
  lemma {:induction false} IdSetSize(hs: seq<Hex>)
    requires UniqueIds(hs)
    ensures |set h | h in hs :: h.id| == |hs|
    decreases |hs|
  {
    if hs != [] {
      var n := |hs| - 1;
      var init := hs[..n];
      assert UniqueIds(init);
      IdSetSize(init);
      assert hs == init + [hs[n]];
      assert (set h | h in hs :: h.id) == (set h | h in init :: h.id) + {hs[n].id};
      assert hs[n].id !in (set h | h in init :: h.id);
    }
  }

  /** Position of hex r{ring}-{i} in the generated list. */
  function ListIndex(ring: nat, i: nat): nat {
    if ring == 0 then 0 else if ring == 1 then 1 + i else if ring == 2 then 7 + i else 19 + i
  }

  /** Hex r{ring}-{i} sits at its list position. */
  lemma InitialHexAt(ring: nat, i: nat)
    requires 1 <= ring <= 3 && i < 6 * ring
    ensures |InitialHexes()| == 37
    ensures InitialHexes()[ListIndex(ring, i)] == Hex(RingId(ring, i), ring)
  {
    InitialHexesInOrder();
    var k := ListIndex(ring, i);
    assert InitialHexes()[k] == ExpectedHex(k);
  }

  /** Hex r{ring}-{i} of a generated ring has a payload: the default one, titled
      by its list position and carrying its ring. */
  lemma RingHexHasPayload(ring: nat, i: nat)
    requires 1 <= ring <= 3 && i < 6 * ring
    ensures RingId(ring, i) in InitialPayloads()
    ensures InitialPayloads()[RingId(ring, i)] == CreateDefaultPayload(TitleAt(ListIndex(ring, i)), ring)
  {
    var hs := InitialHexes();
    InitialIdsUnique();
    PayloadsForAt(hs);
    var k := ListIndex(ring, i);
    InitialHexAt(ring, i);
    assert hs[k].id in PayloadsFor(hs);
    assert PayloadsFor(hs)[hs[k].id] == CreateDefaultPayload(TitleAt(k), hs[k].ring);
  }
}
