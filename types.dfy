/** The board's records (src/state/types.ts). Optional properties are `Option`s;
    a missing key and a key holding `undefined` are the same `None`. */
module Types {

  datatype Option<+T> = None | Some(value: T)

  datatype KanbanTask = KanbanTask(id: string, title: string)

  datatype Status = ToDo | InProgress | Done

  /** The ring of a payload. The declared type is the tag 'P0'..'P3', but the store
      writes the number 0..3, so a payload may hold either. */
  datatype RingValue = RingNumber(n: int) | RingLabel(tag: string)

  datatype Link = Link(title: string, url: string)

  datatype Kanban = Kanban(todo: seq<KanbanTask>, doing: seq<KanbanTask>, done: seq<KanbanTask>)

  datatype Role = User | Assistant

  datatype ChatMessage = ChatMessage(role: Role, content: string)

  /** The per-hex recruitment record. `cvMatchPercent` is a JavaScript number. */
  datatype HexPayload = HexPayload(
    title: string,
    status: Status,
    ring: RingValue,
    description: Option<string>,
    notes: Option<string>,
    links: Option<seq<Link>>,
    kanban: Option<Kanban>,
    chat: Option<seq<ChatMessage>>,
    jobDescription: Option<string>,
    cvMatchPercent: Option<real>,
    interviewPrep: Option<string>,
    trackingStatus: Option<string>)

  /** A cell of the grid: its identifier and its ring (0 is the centre). */
  datatype Hex = Hex(id: string, ring: int)

  datatype ModalState = ModalState(isOpen: bool, activeHexId: Option<string>)

  /** The store's data: the hex list, the payload dictionary, the modal and the
      side-panel selection. */
  datatype AppState = AppState(
    hexes: seq<Hex>,
    payloads: map<string, HexPayload>,
    modalState: ModalState,
    activeHexId: Option<string>)

  /** What getActiveHexData returns: the id and the payload (not the Hex record). */
  datatype ActiveHexData = ActiveHexData(id: string, payload: HexPayload)

  /** One key of a `Partial<HexPayload>`: absent, or present with a value. */
  datatype Patch<+T> = Keep | Put(value: T)

  /** `Partial<HexPayload>`. For an optional property, `Put(None)` is a key present
      with the value `undefined`. */
  datatype PayloadPatch = PayloadPatch(
    title: Patch<string>,
    status: Patch<Status>,
    ring: Patch<RingValue>,
    description: Patch<Option<string>>,
    notes: Patch<Option<string>>,
    links: Patch<Option<seq<Link>>>,
    kanban: Patch<Option<Kanban>>,
    chat: Patch<Option<seq<ChatMessage>>>,
    jobDescription: Patch<Option<string>>,
    cvMatchPercent: Patch<Option<real>>,
    interviewPrep: Patch<Option<string>>,
    trackingStatus: Patch<Option<string>>)

  /** The patch with no keys, `{}`. */
  const EmptyPatch := PayloadPatch(Keep, Keep, Keep, Keep, Keep, Keep, Keep, Keep, Keep, Keep, Keep, Keep)

  function StatusText(s: Status): string {
    match s
    case ToDo => "To Do"
    case InProgress => "In Progress"
    case Done => "Done"
  }
}
