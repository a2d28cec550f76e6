/** The board's store object (src/state/useHexStore.ts): four fields the actions
    update in place. Each action is proved to carry out the transition of the
    same name in StoreActions and to keep the store's invariant. */
module HexStore {
  import opened Types
  import opened Board
  import StoreActions

  class Store {
    var hexes: seq<Hex>
    var payloads: map<string, HexPayload>
    var modalState: ModalState
    var activeHexId: Option<string>

    /** The store's data as a value. */
    function State(): AppState
      reads this
    {
      AppState(hexes, payloads, modalState, activeHexId)
    }

    ghost predicate Valid()
      reads this
    {
      StoreActions.Invariant(State())
    }

    /** The fresh store: the generated board, the side panel on the centre, the
        modal closed. */
    constructor ()
      ensures State() == StoreActions.InitialState()
      ensures Valid()
    {
      var generatedHexes, generatedPayloads := GenerateInitialState();
      hexes := generatedHexes;
      payloads := generatedPayloads;
      activeHexId := Some(CenterId);
      modalState := ModalState(false, None);
      new;
      StoreActions.InitialStateInvariant();
    }

    method SetActiveHexId(hexId: string)
      requires Valid()
      modifies this
      ensures Valid()
      ensures State() == StoreActions.SetActiveHexId(old(State()), hexId)
    {
      activeHexId := Some(hexId);
    }

    method OpenRecruitModal(hexId: string)
      requires Valid()
      modifies this
      ensures Valid()
      ensures State() == StoreActions.OpenRecruitModal(old(State()), hexId)
    {
      if hexId == CenterId {
        return;
      }
      modalState := ModalState(true, Some(hexId));
    }

    method CloseRecruitModal()
      requires Valid()
      modifies this
      ensures Valid()
      ensures State() == StoreActions.CloseRecruitModal(old(State()))
    {
      modalState := ModalState(false, None);
    }

    method AddChatMessage(hexId: string, role: Role, content: string)
      requires Valid()
      modifies this
      ensures Valid()
      ensures State() == StoreActions.AddChatMessage(old(State()), hexId, role, content)
    {
      if hexId !in payloads {
        return;
      }
      var payload := payloads[hexId];
      var newChat := (if payload.chat.Some? then payload.chat.value else []) + [ChatMessage(role, content)];
      payloads := payloads[hexId := payload.(chat := Some(newChat))];
    }

    method UpdatePayload(hexId: string, partial: PayloadPatch)
      requires Valid()
      modifies this
      ensures Valid()
      ensures State() == StoreActions.UpdatePayload(old(State()), hexId, partial)
    {
      var prev := if hexId in payloads then payloads[hexId] else CreateDefaultPayload(UntitledTitle, 0);
      var next := StoreActions.ApplyPatch(prev, partial);
      payloads := payloads[hexId := next];
    }

    method GetActiveHexData() returns (data: Option<ActiveHexData>)
      ensures data == StoreActions.GetActiveHexData(State())
    {
      if !modalState.isOpen || modalState.activeHexId.None? || modalState.activeHexId.value == "" {
        return None;
      }
      var id := modalState.activeHexId.value;
      if id !in payloads {
        return None;
      }
      return Some(ActiveHexData(id, payloads[id]));
    }
  }
}
