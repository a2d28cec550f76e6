/** The actions of the board's store (src/state/useHexStore.ts) as total
    transitions on the store's data, the invariant they keep, and their
    algebraic properties. The class HexStore.Store carries them out in place. */
module StoreActions {
  import opened Types
  import opened Board

  function InitialState(): AppState {
    AppState(InitialHexes(), InitialPayloads(), ModalState(false, None), Some(CenterId))
  }

  /** setActiveHexId: repoints the side panel, with no check that the id exists. */
  function SetActiveHexId(s: AppState, hexId: string): (r: AppState)
    ensures r.activeHexId == Some(hexId)
    ensures r.hexes == s.hexes && r.payloads == s.payloads && r.modalState == s.modalState
  {
    s.(activeHexId := Some(hexId))
  }

  /** openRecruitModal: refuses the centre, opens on any other id (existing or not). */
  function OpenRecruitModal(s: AppState, hexId: string): (r: AppState)
    ensures hexId == CenterId ==> r == s
    ensures hexId != CenterId ==> r.modalState.isOpen && r.modalState.activeHexId == Some(hexId)
    ensures r.hexes == s.hexes && r.payloads == s.payloads && r.activeHexId == s.activeHexId
  {
    if hexId == CenterId then s else s.(modalState := ModalState(true, Some(hexId)))
  }

  /** closeRecruitModal: always the closed modal, whatever it was. */
  function CloseRecruitModal(s: AppState): (r: AppState)
    ensures !r.modalState.isOpen && r.modalState.activeHexId.None?
    ensures r.hexes == s.hexes && r.payloads == s.payloads && r.activeHexId == s.activeHexId
  {
    s.(modalState := ModalState(false, None))
  }

  /** The chat of a payload, an absent chat read as empty (`payload.chat ?? []`). */
  function ChatOf(p: HexPayload): seq<ChatMessage> {
    if p.chat.Some? then p.chat.value else []
  }

  /** addChatMessage: appends to an existing payload's chat; no payload, no change. */
  function AddChatMessage(s: AppState, hexId: string, role: Role, content: string): (r: AppState)
    ensures hexId !in s.payloads ==> r == s
    ensures r.payloads.Keys == s.payloads.Keys
    ensures hexId in s.payloads ==>
      && ChatOf(r.payloads[hexId]) == ChatOf(s.payloads[hexId]) + [ChatMessage(role, content)]
      && r.payloads[hexId].chat.Some?
      && r.payloads[hexId] == s.payloads[hexId].(chat := r.payloads[hexId].chat)
    ensures forall id :: id in s.payloads && id != hexId ==> r.payloads[id] == s.payloads[id]
    ensures r.hexes == s.hexes && r.modalState == s.modalState && r.activeHexId == s.activeHexId
  {
    if hexId !in s.payloads then s
    else
      var payload := s.payloads[hexId];
      var newChat := ChatOf(payload) + [ChatMessage(role, content)];
      s.(payloads := s.payloads[hexId := payload.(chat := Some(newChat))])
  }

  /** One key of a shallow merge: the patch's value when the key is present. */
  function Merge<T>(current: T, p: Patch<T>): T {
    match p
    case Keep => current
    case Put(v) => v
  }

  predicate KeyMerged<T(==)>(before: T, p: Patch<T>, after: T) {
    if p.Put? then after == p.value else after == before
  }

  /** `{ ...prev, ...partial }`: every top-level key present in the patch replaces
      the stored one, every other key is kept; nested records are not merged. */
  function ApplyPatch(prev: HexPayload, patch: PayloadPatch): (next: HexPayload)
    ensures KeyMerged(prev.title, patch.title, next.title)
    ensures KeyMerged(prev.status, patch.status, next.status)
    ensures KeyMerged(prev.ring, patch.ring, next.ring)
    ensures KeyMerged(prev.description, patch.description, next.description)
    ensures KeyMerged(prev.notes, patch.notes, next.notes)
    ensures KeyMerged(prev.links, patch.links, next.links)
    ensures KeyMerged(prev.kanban, patch.kanban, next.kanban)
    ensures KeyMerged(prev.chat, patch.chat, next.chat)
    ensures KeyMerged(prev.jobDescription, patch.jobDescription, next.jobDescription)
    ensures KeyMerged(prev.cvMatchPercent, patch.cvMatchPercent, next.cvMatchPercent)
    ensures KeyMerged(prev.interviewPrep, patch.interviewPrep, next.interviewPrep)
    ensures KeyMerged(prev.trackingStatus, patch.trackingStatus, next.trackingStatus)
  {
    HexPayload(
      Merge(prev.title, patch.title),
      Merge(prev.status, patch.status),
      Merge(prev.ring, patch.ring),
      Merge(prev.description, patch.description),
      Merge(prev.notes, patch.notes),
      Merge(prev.links, patch.links),
      Merge(prev.kanban, patch.kanban),
      Merge(prev.chat, patch.chat),
      Merge(prev.jobDescription, patch.jobDescription),
      Merge(prev.cvMatchPercent, patch.cvMatchPercent),
      Merge(prev.interviewPrep, patch.interviewPrep),
      Merge(prev.trackingStatus, patch.trackingStatus))
  }

  /** The payload updatePayload starts from: the stored one, or a synthesized
      'Untitled' default whose ring is 0 whatever the hex's ring. */
  function PayloadOrDefault(s: AppState, hexId: string): HexPayload {
    if hexId in s.payloads then s.payloads[hexId] else CreateDefaultPayload(UntitledTitle, 0)
  }

  /** updatePayload: merge-patches one payload; the key set only grows. */
  function UpdatePayload(s: AppState, hexId: string, patch: PayloadPatch): (r: AppState)
    ensures r.payloads.Keys == s.payloads.Keys + {hexId}
    ensures r.payloads[hexId] == ApplyPatch(PayloadOrDefault(s, hexId), patch)
    ensures forall id :: id in s.payloads && id != hexId ==> r.payloads[id] == s.payloads[id]
    ensures r.hexes == s.hexes && r.modalState == s.modalState && r.activeHexId == s.activeHexId
  {
    s.(payloads := s.payloads[hexId := ApplyPatch(PayloadOrDefault(s, hexId), patch)])
  }

  /** getActiveHexData: the modal's hex and its payload, read only from the modal
      state; an empty id is falsy and reads as no id. */
  function GetActiveHexData(s: AppState): (r: Option<ActiveHexData>)
    ensures r.Some? <==>
      && s.modalState.isOpen
      && s.modalState.activeHexId.Some?
      && s.modalState.activeHexId.value != ""
      && s.modalState.activeHexId.value in s.payloads
    ensures r.Some? ==>
      r.value.id == s.modalState.activeHexId.value && r.value.payload == s.payloads[r.value.id]
  {
    if !s.modalState.isOpen || s.modalState.activeHexId.None? || s.modalState.activeHexId.value == "" then None
    else
      var id := s.modalState.activeHexId.value;
      if id !in s.payloads then None else Some(ActiveHexData(id, s.payloads[id]))
  }

  // ---------------------------------------------------------------------------
  // The store's invariant and runs of actions

  /** The modal is open exactly when it names a hex, and never names the centre. */
  predicate ModalConsistent(m: ModalState) {
    (m.isOpen <==> m.activeHexId.Some?) && m.activeHexId != Some(CenterId)
  }

  /** The hex list is the generated one, every hex has a payload, and the modal
      is consistent. */
  predicate Invariant(s: AppState) {
    && s.hexes == InitialHexes()
    && (forall h :: h in s.hexes ==> h.id in s.payloads)
    && ModalConsistent(s.modalState)
  }

  datatype Action =
    | SetActive(hexId: string)
    | OpenModal(hexId: string)
    | CloseModal
    | AddChat(hexId: string, role: Role, content: string)
    | Update(hexId: string, patch: PayloadPatch)

  function Step(s: AppState, a: Action): AppState {
    match a
    case SetActive(id) => SetActiveHexId(s, id)
    case OpenModal(id) => OpenRecruitModal(s, id)
    case CloseModal => CloseRecruitModal(s)
    case AddChat(id, role, content) => AddChatMessage(s, id, role, content)
    case Update(id, patch) => UpdatePayload(s, id, patch)
  }

  /** The state after the actions, applied one at a time in order. */
  function Run(s: AppState, actions: seq<Action>): AppState
    decreases |actions|
  {
    if actions == [] then s else Run(Step(s, actions[0]), actions[1..])
  }

  lemma InitialStateInvariant()
    ensures Invariant(InitialState())
  {
    InitialPayloadsAt();
  }

  lemma StepPreservesInvariant(s: AppState, a: Action)
    requires Invariant(s)
    ensures Invariant(Step(s, a))
  {
  }

  /** Whatever the actions, the hex list stays the generated one, every hex keeps a
      payload, no payload key disappears, and the modal stays consistent. */
  lemma {:induction false} RunPreservesInvariant(s: AppState, actions: seq<Action>)
    requires Invariant(s)
    ensures Invariant(Run(s, actions))
    ensures s.payloads.Keys <= Run(s, actions).payloads.Keys
    decreases |actions|
  {
    if actions != [] {
      StepPreservesInvariant(s, actions[0]);
      RunPreservesInvariant(Step(s, actions[0]), actions[1..]);
    }
  }

  /** An action that cannot overwrite a chat: anything but a patch with a `chat` key. */
  predicate KeepsChats(a: Action) {
    !(a.Update? && a.patch.chat.Put?)
  }

  /** Chats are append-only under every action except a patch that sets `chat`:
      each existing payload's old chat is a prefix of its new chat. */
  lemma {:induction false} RunChatsAppendOnly(s: AppState, actions: seq<Action>)
    requires forall i :: 0 <= i < |actions| ==> KeepsChats(actions[i])
    ensures forall id :: id in s.payloads ==>
      id in Run(s, actions).payloads && ChatOf(s.payloads[id]) <= ChatOf(Run(s, actions).payloads[id])
    decreases |actions|
  {
    if actions != [] {
      var t := Step(s, actions[0]);
      assert KeepsChats(actions[0]);
      assert forall id :: id in s.payloads ==> id in t.payloads && ChatOf(s.payloads[id]) <= ChatOf(t.payloads[id]);
      RunChatsAppendOnly(t, actions[1..]);
    }
  }

  // ---------------------------------------------------------------------------
  // Idempotence and the shallow merge

  lemma CloseRecruitModalIdempotent(s: AppState)
    ensures CloseRecruitModal(CloseRecruitModal(s)) == CloseRecruitModal(s)
  {
  }

  lemma OpenRecruitModalIdempotent(s: AppState, hexId: string)
    ensures OpenRecruitModal(OpenRecruitModal(s, hexId), hexId) == OpenRecruitModal(s, hexId)
  {
  }

  /** The same patch twice is the patch once. */
  lemma ApplyPatchIdempotent(p: HexPayload, patch: PayloadPatch)
    ensures ApplyPatch(ApplyPatch(p, patch), patch) == ApplyPatch(p, patch)
  {
  }

  /** Two patches in a row are one patch in which the later keys win. */
  function ThenPatch(a: PayloadPatch, b: PayloadPatch): PayloadPatch {
    PayloadPatch(
      if b.title.Put? then b.title else a.title,
      if b.status.Put? then b.status else a.status,
      if b.ring.Put? then b.ring else a.ring,
      if b.description.Put? then b.description else a.description,
      if b.notes.Put? then b.notes else a.notes,
      if b.links.Put? then b.links else a.links,
      if b.kanban.Put? then b.kanban else a.kanban,
      if b.chat.Put? then b.chat else a.chat,
      if b.jobDescription.Put? then b.jobDescription else a.jobDescription,
      if b.cvMatchPercent.Put? then b.cvMatchPercent else a.cvMatchPercent,
      if b.interviewPrep.Put? then b.interviewPrep else a.interviewPrep,
      if b.trackingStatus.Put? then b.trackingStatus else a.trackingStatus)
  }

  lemma ApplyPatchThen(p: HexPayload, a: PayloadPatch, b: PayloadPatch)
    ensures ApplyPatch(ApplyPatch(p, a), b) == ApplyPatch(p, ThenPatch(a, b))
  {
  }

  lemma ApplyEmptyPatch(p: HexPayload)
    ensures ApplyPatch(p, EmptyPatch) == p
  {
  }

  /** updatePayload with the same patch twice is updatePayload once. */
  lemma UpdatePayloadIdempotent(s: AppState, hexId: string, patch: PayloadPatch)
    ensures UpdatePayload(UpdatePayload(s, hexId, patch), hexId, patch) == UpdatePayload(s, hexId, patch)
  {
    var t := UpdatePayload(s, hexId, patch);
    ApplyPatchIdempotent(PayloadOrDefault(s, hexId), patch);
    assert t.payloads[hexId := ApplyPatch(t.payloads[hexId], patch)] == t.payloads;
  }

  /** A patch holding only a status changes only that payload's status. */
  lemma UpdateStatusOnly(s: AppState, hexId: string, status: Status)
    requires hexId in s.payloads
    ensures var r := UpdatePayload(s, hexId, EmptyPatch.(status := Put(status)));
      && r.payloads[hexId] == s.payloads[hexId].(status := status)
      && r.payloads.Keys == s.payloads.Keys
  {
  }

  /** The read path never looks at the side-panel selection. */
  lemma GetActiveHexDataIgnoresSidePanel(s: AppState, x: Option<string>)
    ensures GetActiveHexData(s.(activeHexId := x)) == GetActiveHexData(s)
  {
  }

  /** Opening the modal on an id with no payload opens it, but the read path then
      yields nothing. */
  lemma OpenUnknownIdReadsNothing(s: AppState, hexId: string)
    requires hexId != CenterId && hexId !in s.payloads
    ensures OpenRecruitModal(s, hexId).modalState.isOpen
    ensures GetActiveHexData(OpenRecruitModal(s, hexId)).None?
  {
  }

  lemma RingIdR12()
    ensures RingId(1, 2) == "r1-2"
  {
  }

  /** On the fresh store, double-clicking 'r1-2' makes the modal read that hex's
      payload, and closing the modal makes it read nothing. */
  lemma OpenThenCloseScenario()
    ensures "r1-2" in InitialPayloads()
    ensures var s1 := OpenRecruitModal(InitialState(), "r1-2");
      && GetActiveHexData(s1) == Some(ActiveHexData("r1-2", InitialPayloads()["r1-2"]))
      && GetActiveHexData(CloseRecruitModal(s1)).None?
  {
    RingHexHasPayload(1, 2);
    RingIdR12();
    var s1 := OpenRecruitModal(InitialState(), "r1-2");
    assert s1.modalState == ModalState(true, Some("r1-2"));
    assert s1.payloads == InitialPayloads();
  }
}
