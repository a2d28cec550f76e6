/** The chat side panel (src/components/panes/AIPanel.tsx): the store selectors
    it reads and its send action, which appends the user's message and a
    placeholder reply to the chat of the side panel's hex. */
module AIPanel {
  import opened Types
  import opened Text
  import StoreActions
  import HexStore

  /** `hexes.find(h => h.id === activeHexId)`: the first hex with that id. */
  function FindHex(hexes: seq<Hex>, id: Option<string>): (r: Option<Hex>)
    ensures r.Some? ==> r.value in hexes && Some(r.value.id) == id
    ensures r.None? ==> forall h :: h in hexes ==> Some(h.id) != id
    ensures r.Some? ==>
      exists k :: (0 <= k < |hexes| && hexes[k] == r.value
                   && forall j :: 0 <= j < k ==> Some(hexes[j].id) != id)
  {
    if hexes == [] then None
    else if Some(hexes[0].id) == id then Some(hexes[0])
    else
      var r := FindHex(hexes[1..], id);
      if r.Some? then
        var k :| 0 <= k < |hexes[1..]| && hexes[1..][k] == r.value
          && forall j :: 0 <= j < k ==> Some(hexes[1..][j].id) != id;
        assert hexes[k + 1] == r.value;
        r
      else r
  }

  /** `activeHexId ? payloads[activeHexId] : undefined`: "" is falsy. */
  function SelectedPayload(s: AppState): (p: Option<HexPayload>)
    ensures p.Some? <==>
      (s.activeHexId.Some? && s.activeHexId.value != "" && s.activeHexId.value in s.payloads)
    ensures p.Some? ==> p.value == s.payloads[s.activeHexId.value]
  {
    if s.activeHexId.Some? && s.activeHexId.value != "" && s.activeHexId.value in s.payloads then
      Some(s.payloads[s.activeHexId.value])
    else None
  }

  /** The chat log the panel shows, `payload?.chat ?? []`. */
  function ShownChat(s: AppState): seq<ChatMessage> {
    var p := SelectedPayload(s);
    if p.Some? then StoreActions.ChatOf(p.value) else []
  }

  /** The panel shows the conversation only when both the hex and its payload
      are found. */
  predicate ShowsConversation(s: AppState) {
    FindHex(s.hexes, s.activeHexId).Some? && SelectedPayload(s).Some?
  }

  /** On a store that keeps its invariant, selecting any hex of the board shows
      its conversation. */
  lemma BoardHexShowsConversation(s: AppState, h: Hex)
    requires StoreActions.Invariant(s)
    requires h in s.hexes && h.id != "" && s.activeHexId == Some(h.id)
    ensures ShowsConversation(s)
  {
  }

  /** The guard of handleSend: `!activeHexId || !text` returns early. */
  predicate SendAccepted(activeHexId: Option<string>, input: string) {
    activeHexId.Some? && activeHexId.value != "" && Trim(input) != ""
  }

  /** The placeholder assistant reply. */
  function EchoReply(text: string): string {
    "Echo: " + text
  }

  /** handleSend's effect on the store: the trimmed input as a user message, then
      the echo reply, both on the side panel's hex. */
  function Send(s: AppState, input: string): (r: AppState)
    ensures !SendAccepted(s.activeHexId, input) ==> r == s
    ensures r.hexes == s.hexes && r.modalState == s.modalState && r.activeHexId == s.activeHexId
    ensures r.payloads.Keys == s.payloads.Keys
    ensures SendAccepted(s.activeHexId, input) && s.activeHexId.value in s.payloads ==>
      var id := s.activeHexId.value;
      var text := Trim(input);
      StoreActions.ChatOf(r.payloads[id])
        == StoreActions.ChatOf(s.payloads[id]) + [ChatMessage(User, text), ChatMessage(Assistant, EchoReply(text))]
    ensures SendAccepted(s.activeHexId, input) && s.activeHexId.value in s.payloads ==>
      var id := s.activeHexId.value;
      r.payloads[id] == s.payloads[id].(chat := r.payloads[id].chat)
    ensures s.activeHexId.Some? && s.activeHexId.value !in s.payloads ==> r == s
    ensures forall id :: id in s.payloads && Some(id) != s.activeHexId ==> r.payloads[id] == s.payloads[id]
  {
    if !SendAccepted(s.activeHexId, input) then s
    else
      var id := s.activeHexId.value;
      var text := Trim(input);
      var afterUser := StoreActions.AddChatMessage(s, id, User, text);
      StoreActions.AddChatMessage(afterUser, id, Assistant, EchoReply(text))
  }

  /** Sending keeps the store's invariant. */
  lemma SendPreservesInvariant(s: AppState, input: string)
    requires StoreActions.Invariant(s)
    ensures StoreActions.Invariant(Send(s, input))
  {
  }

  /** The conversation the panel shows grows by exactly the two new messages,
      the user's first. */
  lemma SendGrowsShownChat(s: AppState, input: string)
    requires SendAccepted(s.activeHexId, input) && SelectedPayload(s).Some?
    ensures var text := Trim(input);
      ShownChat(Send(s, input)) == ShownChat(s) + [ChatMessage(User, text), ChatMessage(Assistant, EchoReply(text))]
  {
  }

  /** Messages go to the side panel's hex: the modal's hex plays no part. */
  lemma SendIgnoresModal(s: AppState, input: string, m: ModalState)
    ensures Send(s.(modalState := m), input).payloads == Send(s, input).payloads
  {
    var t := s.(modalState := m);
    if SendAccepted(s.activeHexId, input) {
      var id := s.activeHexId.value;
      var text := Trim(input);
      var a1 := StoreActions.AddChatMessage(s, id, User, text);
      var b1 := StoreActions.AddChatMessage(t, id, User, text);
      assert b1 == a1.(modalState := m);
    }
  }

  /** A blank input sends nothing, whatever surrounds it. */
  lemma BlankInputSendsNothing(s: AppState, input: string)
    requires forall i :: 0 <= i < |input| ==> IsJsWhitespace(input[i])
    ensures Send(s, input) == s
  {
    TrimEmptyIff(input);
  }

  /** The panel's own state and the store it writes to. */
  class ChatPanel {
    var userInput: string
    var isLoading: bool
    const store: HexStore.Store

    constructor (store: HexStore.Store)
      ensures this.store == store
      ensures userInput == "" && !isLoading
    {
      this.store := store;
      userInput := "";
      isLoading := false;
    }

    /** The text field's onChange. */
    method SetUserInput(value: string)
      modifies this
      ensures userInput == value && isLoading == old(isLoading)
    {
      userInput := value;
    }

    /** handleSend: on an accepted send, the loading flag is raised, the input
        cleared, the two messages appended, and the flag lowered again. */
    method HandleSend()
      requires store.Valid()
      modifies this, store
      ensures store.Valid()
      ensures store.State() == Send(old(store.State()), old(userInput))
      ensures SendAccepted(old(store.activeHexId), old(userInput)) ==> userInput == "" && !isLoading
      ensures !SendAccepted(old(store.activeHexId), old(userInput)) ==>
        userInput == old(userInput) && isLoading == old(isLoading)
    {
      var text := Trim(userInput);
      var activeHexId := store.activeHexId;
      if activeHexId.None? || activeHexId.value == "" || text == "" {
        return;
      }
      isLoading := true;
      userInput := "";
      store.AddChatMessage(activeHexId.value, User, text);
      var reply := EchoReply(text);
      store.AddChatMessage(activeHexId.value, Assistant, reply);
      isLoading := false;
    }
  }
}
