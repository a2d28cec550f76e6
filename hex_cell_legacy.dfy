/** The older cell variant in src/Hex.tsx. Its status colour and title rules are
    the same text as in src/components/hex/Hex.tsx and are shared with HexCell;
    its ring tag and classes come from the cell's numeric ring alone, never from
    the payload. */
module HexCellLegacy {
  import opened Types
  import opened Text
  import opened Geometry
  import opened HexCell

  /** `isCenter ? '' : `[P${ring}]``. */
  function RingTag(ring: int): (tag: string)
    ensures tag == "" <==> ring == 0
    ensures ring != 0 ==>
      |tag| >= 4 && tag[..2] == "[P" && tag[2..|tag| - 1] == IntToString(ring) && tag[|tag| - 1] == ']'
  {
    if ring == 0 then "" else
      var tag := "[P" + IntToString(ring) + "]";
      assert tag[2..|tag| - 1] == IntToString(ring);
      tag
  }

  /** The label class: large on cyan for the centre, on cyan for ring 2, on deep
      otherwise. */
  function LabelClass(ring: int): string {
    if ring == 0 then LabelOnCyanLarge
    else if ring == 2 then LabelOnCyan
    else LabelOnDeep
  }

  /** The Hex component of this variant. */
  function RenderCell(id: string, cx: real, cy: real, size: real, ring: int, payload: Option<HexPayload>)
    : (v: CellView)
    ensures v.face == FaceCyan <==> ring == 0 || ring == 2
    ensures v.face == FaceDeep <==> ring != 0 && ring != 2
    ensures v.edge == EdgeRing2 <==> ring == 2
    ensures v.edge == EdgePlain <==> ring != 2
    ensures v.titleLine.cls == LabelOnCyanLarge <==> ring == 0
    ensures v.titleLine.cls == LabelOnCyan <==> ring == 2
    ensures v.titleLine.cls == LabelOnDeep <==> ring != 0 && ring != 2
    ensures v.titleLine.text == DisplayTitle(ShownTitle(payload))
    ensures v.titleLine.x == cx && v.titleLine.y == if ring == 0 then cy + 2.0 else cy - 2.0
    ensures ring == 0 <==> v.dot.None?
    ensures ring == 0 <==> v.tagLine.None?
    ensures ring != 0 ==>
      var d := GetStatusDotPosition(cx, cy, size);
      v.dot == Some(DotView(d.cx, d.cy, d.r, StatusColor(if payload.Some? then Some(payload.value.status) else None)))
    ensures ring != 0 ==> v.tagLine == Some(TextView(v.titleLine.cls, cx, cy + 16.0, RingTag(ring)))
    ensures v.clickArg == id && v.doubleClickArg == id
  {
    var isCenter := ring == 0;
    var isRing2 := ring == 2;
    var d := GetStatusDotPosition(cx, cy, size);
    var color := StatusColor(if payload.Some? then Some(payload.value.status) else None);
    var labelCls := LabelClass(ring);
    CellView(
      if isCenter || isRing2 then FaceCyan else FaceDeep,
      if isRing2 then EdgeRing2 else EdgePlain,
      if isCenter then None else Some(DotView(d.cx, d.cy, d.r, color)),
      TextView(labelCls, cx, if isCenter then cy + 2.0 else cy - 2.0, DisplayTitle(ShownTitle(payload))),
      if isCenter then None else Some(TextView(labelCls, cx, cy + 16.0, RingTag(ring))),
      id,
      id)
  }

  /** Where the payload's ring is not the tag 'P2' (always so for the payloads
      the store writes), the two variants draw the same cell except for the ring
      tag, which reads "[n]" in one and "[Pn]" in the other. */
  lemma VariantsDifferOnlyInTag(id: string, cx: real, cy: real, size: real, ring: int, payload: Option<HexPayload>)
    requires payload.Some? ==> payload.value.ring != RingLabel("P2")
    ensures var a := HexCell.RenderCell(id, cx, cy, size, ring, payload);
      var b := RenderCell(id, cx, cy, size, ring, payload);
      && a.face == b.face && a.edge == b.edge && a.dot == b.dot && a.titleLine == b.titleLine
      && a.clickArg == b.clickArg && a.doubleClickArg == b.doubleClickArg
      && (a.tagLine.None? <==> b.tagLine.None?)
      && (a.tagLine.Some? ==> a.tagLine.value.(text := "") == b.tagLine.value.(text := ""))
  {
  }

  /** For a payload holding its ring as a number, the legacy tag is the newer
      one with a 'P' inserted after the bracket. */
  lemma LegacyTagAddsP(n: int)
    requires n != 0
    ensures RingTag(n) == "[P" + HexCell.RingTag(Some(RingNumber(n)))[1..]
  {
    var t := HexCell.RingTag(Some(RingNumber(n)));
    assert t[1..] == IntToString(n) + "]";
  }

  /** Only the newer variant reacts to the payload's tag: a ring-1 cell whose
      payload says 'P2' is cyan there and deep here. */
  lemma PayloadTagOnlyInNewerVariant(id: string, cx: real, cy: real, size: real, p: HexPayload)
    requires p.ring == RingLabel("P2")
    ensures HexCell.RenderCell(id, cx, cy, size, 1, Some(p)).face == FaceCyan
    ensures RenderCell(id, cx, cy, size, 1, Some(p)).face == FaceDeep
  {
  }
}
