/** One cell of the honeycomb as src/components/hex/Hex.tsx draws it: the status
    colour, the shown title, the ring tag and the style classes derived from the
    cell's ring and payload. The polygon's corner string is not modelled; the
    status dot's position is Geometry.GetStatusDotPosition. */
module HexCell {
  import opened Types
  import opened Text
  import opened Geometry
  import Stage
  import Board

  const StatusGreen := "var(--status-green)"
  const StatusOrange := "var(--status-orange)"
  const StatusRed := "var(--status-red)"

  const FaceCyan := "face face--cyan"
  const FaceDeep := "face face--deep"
  const LabelOnCyan := "label label--onCyan"
  const LabelOnCyanLarge := "label label--onCyan label--large"
  const LabelOnDeep := "label label--onDeep"
  const EdgeRing2 := "edge edge--ring2"
  /** `edge ${''}`: the class string keeps its trailing space. */
  const EdgePlain := "edge "

  /** The title of a payload with no (or an empty) title. */
  const FallbackTitle := "Hex"
  const MaxTitleLength := 15

  /** getStatusColor. A payload-less cell (the `{}` record) has an undefined
      status and takes the default branch. */
  function StatusColor(status: Option<Status>): (color: string)
    ensures color == StatusGreen <==> status == Some(Done)
    ensures color == StatusOrange <==> status == Some(InProgress)
    ensures color == StatusRed <==> status != Some(Done) && status != Some(InProgress)
  {
    match status
    case Some(Done) => StatusGreen
    case Some(InProgress) => StatusOrange
    case _ => StatusRed
  }

  /** `payload.title || 'Hex'`. */
  function ShownTitle(payload: Option<HexPayload>): string {
    if payload.Some? && payload.value.title != "" then payload.value.title else FallbackTitle
  }

  /** A title longer than 15 characters becomes its first 14 and an ellipsis. */
  function DisplayTitle(title: string): (shown: string)
    ensures |shown| <= MaxTitleLength
    ensures |title| <= MaxTitleLength ==> shown == title
    ensures |title| > MaxTitleLength ==>
      |shown| == MaxTitleLength && shown[..MaxTitleLength - 1] == title[..MaxTitleLength - 1]
      && shown[MaxTitleLength - 1] == '\U{2026}'
  {
    if |title| > MaxTitleLength then title[..MaxTitleLength - 1] + "\U{2026}" else title
  }

  /** Shortening a title that already fits changes nothing, so it is idempotent. */
  lemma DisplayTitleIdempotent(title: string)
    ensures DisplayTitle(DisplayTitle(title)) == DisplayTitle(title)
  {
  }

  /** `payload.ring === 'P0' ? '' : `[${payload.ring}]``. A numeric ring is shown
      in decimal and an absent one as "undefined". */
  function RingTag(ring: Option<RingValue>): (tag: string)
    ensures tag == "" <==> ring == Some(RingLabel("P0"))
    ensures tag != "" ==> |tag| >= 2 && tag[0] == '[' && tag[|tag| - 1] == ']'
    ensures ring.Some? && ring.value.RingNumber? ==> tag == "[" + IntToString(ring.value.n) + "]"
    ensures ring.Some? && ring.value.RingLabel? && ring.value.tag != "P0" ==> tag == "[" + ring.value.tag + "]"
    ensures ring.None? ==> tag == "[undefined]"
  {
    match ring
    case Some(RingLabel(t)) => if t == "P0" then "" else "[" + t + "]"
    case Some(RingNumber(n)) => "[" + IntToString(n) + "]"
    case None => "[undefined]"
  }

  /** `ring === 2 || payload.ring === 'P2'`. */
  predicate IsRing2(ring: int, payload: Option<HexPayload>) {
    ring == 2 || (payload.Some? && payload.value.ring == RingLabel("P2"))
  }

  datatype DotView = DotView(cx: real, cy: real, r: real, fill: string)

  datatype TextView = TextView(cls: string, x: real, y: real, text: string)

  /** What a cell draws: its face and edge classes, the status dot, the title
      line and the ring-tag line (the last two absent for the centre), and the
      ids its click and double-click hand to their callbacks. */
  datatype CellView = CellView(
    face: string,
    edge: string,
    dot: Option<DotView>,
    titleLine: TextView,
    tagLine: Option<TextView>,
    clickArg: string,
    doubleClickArg: string)

  function LabelClass(ring: int, payload: Option<HexPayload>): string {
    if ring == 0 then LabelOnCyanLarge
    else if IsRing2(ring, payload) then LabelOnCyan
    else LabelOnDeep
  }

  /** The Hex component. */
  function RenderCell(id: string, cx: real, cy: real, size: real, ring: int, payload: Option<HexPayload>)
    : (v: CellView)
    ensures v.face == FaceCyan <==> ring == 0 || IsRing2(ring, payload)
    ensures v.face == FaceDeep <==> !(ring == 0 || IsRing2(ring, payload))
    ensures v.edge == EdgeRing2 <==> IsRing2(ring, payload)
    ensures v.edge == EdgePlain <==> !IsRing2(ring, payload)
    ensures v.titleLine.cls == LabelOnCyanLarge <==> ring == 0
    ensures v.titleLine.cls == LabelOnCyan <==> ring != 0 && IsRing2(ring, payload)
    ensures v.titleLine.cls == LabelOnDeep <==> !(ring == 0 || IsRing2(ring, payload))
    ensures v.titleLine.text == DisplayTitle(ShownTitle(payload)) && |v.titleLine.text| <= MaxTitleLength
    ensures v.titleLine.x == cx && v.titleLine.y == if ring == 0 then cy + 2.0 else cy - 2.0
    ensures ring == 0 <==> v.dot.None?
    ensures ring == 0 <==> v.tagLine.None?
    ensures ring != 0 ==>
      var d := GetStatusDotPosition(cx, cy, size);
      v.dot == Some(DotView(d.cx, d.cy, d.r, StatusColor(if payload.Some? then Some(payload.value.status) else None)))
    ensures ring != 0 ==>
      v.tagLine == Some(TextView(v.titleLine.cls, cx, cy + 16.0, RingTag(if payload.Some? then Some(payload.value.ring) else None)))
    ensures v.clickArg == id && v.doubleClickArg == id
  {
    var isCenter := ring == 0;
    var isRing2 := IsRing2(ring, payload);
    var d := GetStatusDotPosition(cx, cy, size);
    var color := StatusColor(if payload.Some? then Some(payload.value.status) else None);
    var labelCls := LabelClass(ring, payload);
    var tag := RingTag(if payload.Some? then Some(payload.value.ring) else None);
    CellView(
      if isCenter || isRing2 then FaceCyan else FaceDeep,
      if isRing2 then EdgeRing2 else EdgePlain,
      if isCenter then None else Some(DotView(d.cx, d.cy, d.r, color)),
      TextView(labelCls, cx, if isCenter then cy + 2.0 else cy - 2.0, DisplayTitle(ShownTitle(payload))),
      if isCenter then None else Some(TextView(labelCls, cx, cy + 16.0, tag)),
      id,
      id)
  }

  /** The stage draws each layout entry as a cell. */
  function Render(h: Stage.HexLayout): CellView {
    RenderCell(h.id, h.cx, h.cy, h.size, h.ring, h.payload)
  }

  /** The store writes rings as numbers, so the 'P2' test never fires on its
      payloads: a cell is cyan exactly on rings 0 and 2, and its ring tag is the
      bracketed number, never the blank 'P0' tag. */
  lemma StoreRingsStyle(h: Stage.HexLayout)
    requires h.payload.Some? ==> h.payload.value.ring.RingNumber?
    ensures Render(h).face == FaceCyan <==> h.ring == 0 || h.ring == 2
    ensures h.ring != 0 ==> Render(h).tagLine.value.text != ""
  {
  }

  /** On the generated board every cell except the centre shows a red status
      dot (every payload starts in "To Do") and the tag of its ring number. */
  lemma GeneratedCellView(h: Stage.HexLayout)
    requires h.payload.Some? && h.payload.value.status == ToDo
    requires h.payload.value.ring == RingNumber(h.ring) && h.ring != 0
    ensures Render(h).dot.value.fill == StatusRed
    ensures Render(h).tagLine.value.text == "[" + NatToString(h.ring) + "]"
  {
  }

  /** Clicking a drawn cell selects that cell's hex for the side panel, and
      double-clicking it opens the modal on that hex (unless it is the centre). */
  lemma CellGesturesTargetTheirHex(s: AppState, h: Stage.HexLayout)
    ensures Stage.HandleGesture(s, Stage.Click, Render(h).clickArg).activeHexId == Some(h.id)
    ensures h.id != Board.CenterId ==>
      Stage.HandleGesture(s, Stage.DoubleClick, Render(h).doubleClickArg).modalState
        == ModalState(true, Some(h.id))
  {
  }
}
