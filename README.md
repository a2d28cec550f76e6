# FLOWer Recruit board — a Dafny model

FLOWer Recruit is a recruitment board drawn as a honeycomb. It has 37 hexagonal cells: the
centre `c-0` and three rings of 6, 12 and 18 cells. Each cell has a payload record with a
title, a status, a ring, optional texts, links, a three-column kanban and a chat log.

This project models the logic behind the board:

- **The store** (`types.dfy`, `board.dfy`, `store_actions.dfy`, `hex_store.dfy`).
  - The generated board and the default payloads. The title counter of `generateInitialState` is kept as its own loop variable and proved equal to the list length at every step (`Board.GenerateRing`).
  - Each store action as a pure transition on the store's data (`StoreActions`).
  - A class `HexStore.Store` whose methods update the four fields in place and are proved to carry out those transitions.
  - The invariant every action keeps: the hex list is the generated one, every hex has a payload, and the modal is consistent.
- **The geometry** (`geometry.dfy`).
  - Viewport sizing, axial-to-pixel conversion and the status dot, over reals.
  - The walk around a hex ring, an integer loop proved equal to a closed-form enumeration. The ring is proved to lie on the hex circle of its radius, to have no repeated position, and to be a closed walk of neighbouring positions.
- **The stage's layout step** (`stage.dfy`).
  - Each hex takes the next free slot of its ring, in list order; hexes whose ring has run out of slots are dropped.
  - It is written as the source's map-with-counters and filter loops, each proved against a specification function.
  - On the generated board no cell is dropped and no two cells share a centre.
- **The assistant helpers** (`assistant.dfy`).
  - The context projection, which yields counts and trimmed strings.
  - The mock assistant's keyword precedence, its progress percentage and its risk line.
- **The chat panel's send action** (`ai_panel.dfy`). A guarded pair of appends: the trimmed user message, then the `Echo:` reply. It goes to the side panel's hex, never the modal's.
- **The two cell components** (`hex_cell.dfy` for `src/components/hex/Hex.tsx`, `hex_cell_legacy.dfy` for `src/Hex.tsx`).
  - Status colour, title shortening, ring tag, face, edge and label classes, and what the click gestures pass on.
- **Shared string helpers** (`text.dfy`).
  - Decimal rendering of numbers.
  - JavaScript's `String.prototype.trim` over the ECMAScript whitespace set.
  - ASCII lower-casing and substring containment.

The mock assistant's `/i` keyword tests are modelled by ASCII lower-casing and containment. This is exact for those keywords. Without the `u` flag, ECMAScript regular expressions canonicalize by upper-casing, and never map a character outside ASCII to one inside it. So only ASCII letters can match the ASCII keywords, and they match up to case.

Optional properties of the records are `Option`s. A `Partial<HexPayload>` is a `PayloadPatch` whose keys are `Keep` (absent) or `Put(v)` (present).

Where the code departs from what its declarations and comments describe, the model follows the code:

- **The ring is a number.** A payload's `ring` is declared as the tag `'P0'..'P3'`, but the store writes the number 0..3. The model's `RingValue` holds either. As a result, the newer cell component's tests against `'P0'` and `'P2'` never fire on store-written payloads (`HexCell.StoreRingsStyle`).
- **`updatePayload` on an unknown id adds a key.** It synthesizes an `'Untitled'` payload with ring 0, so the payload dictionary can grow beyond the 37 generated hexes.
- **`openRecruitModal` does not check the id.** It opens the modal on any id except the centre's, whether or not a hex with that id exists.
- **`getActiveHexData` returns `{id, payload}`**, not the declared `Hex & {payload}`.

## Model

| member | source | states |
|---|---|---|
| Text.NatToString | src/state/useHexStore.ts:43-44 | the template-literal rendering of a count is a non-empty string of decimal digits with no leading zero |
| Text.IntToString | src/lib/api.ts:34 | `String(n)` of an integer: a leading '-' exactly for negatives, followed by the decimal rendering of the magnitude (whose value ParseNatToString pins) |
| Text.ParseNatToString | src/state/useHexStore.ts:43 | reading the decimal rendering back gives the number (round trip) |
| Text.NatToStringInjective | src/state/useHexStore.ts:43 | different numbers render differently, so ring indices give different ids |
| Text.TrimStart | src/lib/api.ts:25 | the result is a suffix of the input that does not start with whitespace |
| Text.TrimStartRemovesWhitespace | src/lib/api.ts:25 | everything TrimStart drops is whitespace |
| Text.TrimEnd | src/lib/api.ts:25 | the result is a prefix of the input that does not end with whitespace |
| Text.TrimEndRemovesWhitespace | src/lib/api.ts:25 | everything TrimEnd drops is whitespace |
| Text.Trim | src/lib/api.ts:25 | `trim()`: no longer than the input, and neither end is whitespace |
| Text.TrimIsInfix | src/lib/api.ts:25 | the trim is a contiguous part of the input, and everything outside it on both sides is whitespace |
| Text.TrimOfTrimmed | src/lib/api.ts:25 | a string whose ends are not whitespace is its own trim |
| Text.TrimIdempotent | src/lib/api.ts:25 | trimming twice is trimming once |
| Text.TrimEmptyIff | src/components/panes/AIPanel.tsx:27-28 | the trim is empty exactly when every character is whitespace (both directions) |
| Text.NatToStringTrimmed | src/lib/api.ts:34 | a rendered number has nothing to trim |
| Text.ToLowerAscii | src/lib/api.ts:52 | the `/i` flag on ASCII: same length, each character lower-cased |
| Text.ContainsAt | src/lib/api.ts:52 | a word occurring at some position is found by the containment test |
| Text.NoMatchIn | src/lib/api.ts:52 | a word occurring at no position is not found (the converse) |
| Text.Prefix | src/lib/api.ts:57 | `substring(0, n)`: length min(len, n), and a prefix of the string |
| Board.CreateDefaultPayload | src/state/useHexStore.ts:10-21 | status 'To Do'; links, the three kanban lists and chat present and empty; no optional text; the given title and the ring as a number |
| Board.GenerateRingStep | src/state/useHexStore.ts:42-47 | one loop iteration extends the list by the ring's next hex and the dictionary by that hex's default payload |
| Board.GenerateRing | src/state/useHexStore.ts:40-48 | the forEach callback appends ring i+1's `count` hexes `r{ring}-0..` in order, assigns their payloads, and advances the title counter to the list length |
| Board.GenerateInitialState | src/state/useHexStore.ts:27-51 | the loops build exactly the reference hex list and the dictionary of default payloads of its hexes |
| Board.PayloadsForSnoc | src/state/useHexStore.ts:46 | assigning the next hex's payload is one more map update |
| Board.RingHexesSnoc | src/state/useHexStore.ts:45 | pushing the next id extends the ring's list by one |
| Board.InitialHexesRings | src/state/useHexStore.ts:31-48 | the list is the centre, then rings 1, 2, 3 of 6, 12 and 18 hexes |
| Board.InitialHexesInOrder | src/state/useHexStore.ts:31-48 | 37 hexes, in order c-0, r1-0..r1-5, r2-0..r2-11, r3-0..r3-17, each with its ring |
| Board.RingIdInjective | src/state/useHexStore.ts:43 | for one-digit rings, the id `r{ring}-{i}` determines ring and index |
| Board.CenterIdIsNoRingId | src/state/useHexStore.ts:32 | no ring id equals 'c-0' |
| Board.InitialIdsUnique | src/state/useHexStore.ts:31-48 | the 37 generated ids are pairwise distinct |
| Board.PayloadsForKeys | src/state/useHexStore.ts:29-47 | the dictionary's keys are exactly the ids of the list |
| Board.PayloadsForAt | src/state/useHexStore.ts:44-46 | with distinct ids, each hex's entry is its own default payload, titled by its position |
| Board.InitialPayloadsAt | src/state/useHexStore.ts:27-51 | exactly 37 payloads, one per generated id: default-shaped, titled 'FLOWer Recruit' then 'Hex 1'..'Hex 36', carrying the hex's ring |
| Board.InitialHexAt | src/state/useHexStore.ts:42-45 | hex r{ring}-{i} sits at list position 1+i, 7+i or 19+i |
| Board.RingHexHasPayload | src/state/useHexStore.ts:42-46 | every generated ring hex has its default payload |
| StoreActions.SetActiveHexId | src/state/useHexStore.ts:74-76 | the side-panel selection becomes the id, unchecked; nothing else changes |
| StoreActions.OpenRecruitModal | src/state/useHexStore.ts:78-88 | the centre leaves the state unchanged; any other id opens the modal on it; nothing else changes |
| StoreActions.CloseRecruitModal | src/state/useHexStore.ts:90-97 | the modal is closed with no id; nothing else changes |
| StoreActions.AddChatMessage | src/state/useHexStore.ts:99-115 | no payload means no change; otherwise that payload's chat (absent read as empty) gains the message at the end, and the keys, the other payloads and the other fields are unchanged |
| StoreActions.ApplyPatch | src/state/useHexStore.ts:126 | shallow merge: each key present in the patch replaces the stored one, every other key is kept |
| StoreActions.UpdatePayload | src/state/useHexStore.ts:121-128 | the key set gains the id; its payload is the patch applied to the stored one or to an 'Untitled' ring-0 default; the other payloads and fields are unchanged |
| StoreActions.GetActiveHexData | src/state/useHexStore.ts:134-143 | some {id, payload} exactly when the modal is open on a non-empty id that has a payload, and then that id's payload |
| StoreActions.InitialStateInvariant | src/state/useHexStore.ts:62-72 | the fresh store satisfies the invariant |
| StoreActions.StepPreservesInvariant | src/state/useHexStore.ts:74-128 | every action keeps the invariant: hexes never written, every hex keeps a payload, the modal open exactly when it names a hex and never on the centre |
| StoreActions.RunPreservesInvariant | src/state/useHexStore.ts:74-128 | any sequence of actions keeps the invariant, and the payload key set never shrinks |
| StoreActions.RunChatsAppendOnly | src/state/useHexStore.ts:99-115 | under actions that do not patch `chat`, every payload survives and its old chat is a prefix of its new one |
| StoreActions.CloseRecruitModalIdempotent | src/state/useHexStore.ts:90-97 | closing twice is closing once |
| StoreActions.OpenRecruitModalIdempotent | src/state/useHexStore.ts:78-88 | opening on the same id twice is opening once |
| StoreActions.ApplyPatchIdempotent | src/state/useHexStore.ts:126 | the same patch twice is the patch once |
| StoreActions.ApplyPatchThen | src/state/useHexStore.ts:126 | two patches in a row are one patch in which the later keys win |
| StoreActions.ApplyEmptyPatch | src/state/useHexStore.ts:126 | the empty patch changes nothing |
| StoreActions.UpdatePayloadIdempotent | src/state/useHexStore.ts:121-128 | updatePayload with the same patch twice is updatePayload once |
| StoreActions.UpdateStatusOnly | src/state/useHexStore.ts:121-128 | a status-only patch on a stored payload changes only its status and keeps the key set |
| StoreActions.GetActiveHexDataIgnoresSidePanel | src/state/useHexStore.ts:134-143 | the read never depends on the side-panel selection |
| StoreActions.OpenUnknownIdReadsNothing | src/state/useHexStore.ts:78-88 | the modal opens on an id with no payload, and the read then yields nothing |
| StoreActions.OpenThenCloseScenario | src/state/useHexStore.ts:134-143 | on the fresh store, opening on r1-2 reads its payload and closing reads nothing |
| HexStore.Store.constructor | src/state/useHexStore.ts:62-72 | the fresh store: the generated board, the side panel on c-0, the modal closed; the invariant holds |
| HexStore.Store.SetActiveHexId | src/state/useHexStore.ts:74-76 | the fields become StoreActions.SetActiveHexId of the old ones; the invariant is kept |
| HexStore.Store.OpenRecruitModal | src/state/useHexStore.ts:78-88 | the fields become StoreActions.OpenRecruitModal of the old ones; the invariant is kept |
| HexStore.Store.CloseRecruitModal | src/state/useHexStore.ts:90-97 | the fields become StoreActions.CloseRecruitModal of the old ones; the invariant is kept |
| HexStore.Store.AddChatMessage | src/state/useHexStore.ts:99-115 | the fields become StoreActions.AddChatMessage of the old ones; the invariant is kept |
| HexStore.Store.UpdatePayload | src/state/useHexStore.ts:121-128 | the fields become StoreActions.UpdatePayload of the old ones; the invariant is kept |
| HexStore.Store.GetActiveHexData | src/state/useHexStore.ts:134-143 | returns StoreActions.GetActiveHexData of the current fields |
| Geometry.CalculateLayout | src/lib/geometry.ts:14-35 | a zero width reads as 1000 and a zero height as 800; the centre is half of each; the size is always in [32, 84] |
| Geometry.CalculateLayoutMonotoneInWidth | src/lib/geometry.ts:21-26 | a wider positive viewport never gives a smaller size |
| Geometry.AxialToPixel | src/lib/geometry.ts:67-71 | the origin maps to the zero offset |
| Geometry.AxialToPixelXIgnoresR | src/lib/geometry.ts:68 | the horizontal offset depends on q alone |
| Geometry.AxialToPixelAdditive | src/lib/geometry.ts:67-71 | the conversion is additive in (q, r) |
| Geometry.GetStatusDotPosition | src/lib/geometry.ts:55-61 | same cx, radius 12, cy lifted by size * 0.836 * 0.52 (so above the centre for a positive size) |
| Geometry.NeighbourAtDistanceOne | src/lib/geometry.ts:84 | the six steps of `dirs` are exactly the offsets at hex distance 1 |
| Geometry.SideEnds | src/lib/geometry.ts:86-92 | a side starts at its corner, and `radius` steps along it reach the next corner; the sixth side ends at (0, -radius) |
| Geometry.SidePointStep | src/lib/geometry.ts:87-91 | each step along a side adds that side's direction |
| Geometry.RingAxialCoords | src/lib/geometry.ts:77-95 | the reference enumeration: [(0,0)] for radius 0, otherwise 6*radius positions |
| Geometry.WalkStep | src/lib/geometry.ts:88-92 | one push of the inner loop extends the walk by the side's next position |
| Geometry.WalkSideDone | src/lib/geometry.ts:86-93 | a finished side completes the walk up to the next side |
| Geometry.GetRingAxialCoords | src/lib/geometry.ts:77-95 | the nested loops return exactly RingAxialCoords(radius) |
| Geometry.RingIsSides | src/lib/geometry.ts:86-93 | the ring is the six sides walked in the order of `dirs` |
| Geometry.RingLength | src/lib/geometry.ts:78-81 | radius 0 gives [(0,0)]; otherwise 6*radius positions starting at (0, -radius) |
| Geometry.RingSideAt | src/lib/geometry.ts:84-93 | position side*R + t is t steps along direction `side` from that side's corner |
| Geometry.SidePositionDistance | src/lib/geometry.ts:84-92 | every position of a side is at hex distance R from the origin |
| Geometry.RingOnHexCircle | src/lib/geometry.ts:77-95 | every position of the ring is at hex distance `radius` from the origin |
| Geometry.RingDistinct | src/lib/geometry.ts:77-95 | the ring has no repeated position |
| Geometry.StepIsNeighbour | src/lib/geometry.ts:90-91 | one step in a direction reaches a neighbour |
| Geometry.SideWalk | src/lib/geometry.ts:88-92 | consecutive positions of a side are neighbours |
| Geometry.SideJoin | src/lib/geometry.ts:86-92 | a side's last position neighbours the next side's corner |
| Geometry.RingIsClosedWalk | src/lib/geometry.ts:77-95 | for radius >= 1 consecutive positions are neighbours and the last neighbours the first |
| Stage.CountRing | src/components/hex/Stage.tsx:69-74 | the per-ring counter after a prefix of the list never exceeds the prefix's length |
| Stage.PayloadOf | src/components/hex/Stage.tsx:91 | the hex's payload when there is one, otherwise the empty record |
| Stage.RingSlots | src/components/hex/Stage.tsx:62-67 | four slot lists, list r being the ring of radius r |
| Stage.SlotTable | src/components/hex/Stage.tsx:62-67 | the four computed rings form that table |
| Stage.Mapped | src/components/hex/Stage.tsx:71-93 | one mapped entry per hex |
| Stage.MappedAt | src/components/hex/Stage.tsx:71-93 | the k-th mapped entry is the k-th hex's placement: its ring's slot numbered by the earlier hexes on that ring, or nothing when the slots are used up |
| Stage.Somes | src/components/hex/Stage.tsx:94 | the filter is no longer than its input, and a value survives exactly when it is a present entry (both directions) |
| Stage.StageLayout | src/components/hex/Stage.tsx:56-100 | no layout exactly when the width or the height is 0 |
| Stage.CountRingSnoc | src/components/hex/Stage.tsx:74 | the counter of a hex's ring advances by one per hex, dropped or not |
| Stage.SomesSnoc | src/components/hex/Stage.tsx:94 | the filter over one more entry adds it when present |
| Stage.PlaceHex | src/components/hex/Stage.tsx:72-92 | the callback for one hex, given its ring's counter before it, returns exactly that hex's placement; nothing exactly when the counter is past the ring's slots |
| Stage.CountersSnoc | src/components/hex/Stage.tsx:74 | advancing the hex's ring counter keeps every counter equal to the count of its ring so far |
| Stage.MapHexes | src/components/hex/Stage.tsx:71-93 | the map with mutable per-ring counters yields exactly Mapped |
| Stage.FilterPresent | src/components/hex/Stage.tsx:94 | the filter loop yields exactly Somes |
| Stage.ComputeLayout | src/components/hex/Stage.tsx:56-100 | the layout step yields exactly StageLayout |
| Stage.LayoutEntriesComeFromHexes | src/components/hex/Stage.tsx:71-94 | no more entries than hexes; every entry is the placement of some hex, with size in [32, 84] |
| Stage.LayoutKeepsEveryPlacedHex | src/components/hex/Stage.tsx:72-94 | a hex is dropped exactly when its ring's counter has run past the ring's slots; every other hex's placement is an entry of the layout |
| Stage.LayoutKeepsListOrder | src/components/hex/Stage.tsx:71-94 | the layout is an order-preserving subsequence: of two entries, the earlier is the placement of an earlier hex |
| Stage.SomesKeepsOrder | src/components/hex/Stage.tsx:94 | the filter keeps the order of the present entries |
| Stage.SomesAllPresent | src/components/hex/Stage.tsx:94 | with nothing to drop, the filter keeps every entry at its index |
| Stage.InitialCount | src/components/hex/Stage.tsx:74 | on the generated list, the k-th hex's counter equals its offset within its ring |
| Stage.PlacementOnSlot | src/components/hex/Stage.tsx:73-92 | a hex whose ring has a free slot is placed at the layout centre plus the pixel offset of that slot, with its id, ring, payload and the layout's size |
| Stage.InitialPlacement | src/components/hex/Stage.tsx:73-92 | the k-th generated hex is placed on its slot |
| Stage.InitialHexesGenerated | src/state/useHexStore.ts:27-51 | the generated list's rings run 0, 1 x6, 2 x12, 3 x18 |
| Stage.GeneratedRingsInRange | src/components/hex/Stage.tsx:73 | every generated ring has a slot list |
| Stage.GeneratedBoardLayout | src/components/hex/Stage.tsx:71-94 | on the generated board nothing is dropped: 37 entries in list order, each with its hex's id, ring and payload and the layout's size |
| Stage.GeneratedCellCentre | src/components/hex/Stage.tsx:82-88 | the k-th cell is drawn at the centre plus the offset of slot RingAxialCoords(ring)[offset] |
| Stage.InitialSlotsDistinct | src/components/hex/Stage.tsx:62-75 | the 37 generated hexes take 37 different lattice slots |
| Stage.AxialToPixelInjective | src/lib/geometry.ts:67-71 | for a positive size, different lattice positions have different pixel offsets |
| Stage.GeneratedCellsDoNotOverlap | src/components/hex/Stage.tsx:82-88 | no two cells of the generated board share a centre |
| Stage.HandleGesture | src/components/hex/Stage.tsx:140-141 | a click sets the side-panel selection to the cell; a double-click opens the modal on it unless it is the centre |
| Assistant.TrimOpt | src/lib/api.ts:25 | `String(s \|\| '').trim()` on an optional string is trimmed, and empty when absent |
| Assistant.RingText | src/lib/api.ts:34 | the ring text is trimmed |
| Assistant.IntToStringTrimmed | src/lib/api.ts:34 | a rendered integer has nothing to trim |
| Assistant.BuildHexContext | src/lib/api.ts:24-41 | id from the hex; kanban counts are the list lengths, or 0 when the kanban is absent; link count, or 0; the status text |
| Assistant.ContextTitleAndNotes | src/lib/api.ts:33-37 | the context's title is the payload's title trimmed; its notes are the payload's notes trimmed, or "" when absent |
| Assistant.StatusTextTrimmed | src/lib/api.ts:35 | status texts have nothing to trim |
| Assistant.ContextTrimmed | src/lib/api.ts:31-40 | title, ring, status, notes and description of the context are all trimmed |
| Assistant.ContextRing | src/lib/api.ts:34 | ring number 0 is falsy and gives ""; any other number gives its non-empty decimal text; a tag gives its trim |
| Assistant.ContextDescription | src/lib/api.ts:39 | the trimmed description when it is non-empty, otherwise the trimmed job description |
| Assistant.DefaultPayloadContext | src/lib/api.ts:24-41 | a default payload gives zero counts, no links, empty notes and description, status 'To Do', and a blank ring exactly for ring 0 |
| Assistant.ContextIgnoresChat | src/lib/api.ts:24-41 | the chat log plays no part in the context |
| Assistant.Progress | src/lib/api.ts:48-50 | the rounded percentage: 0 with no tasks, at most 100, and within half a point of 100*done/total, halves rounding up |
| Assistant.ProgressExtremes | src/lib/api.ts:50 | all tasks done gives 100; none done gives 0 |
| Assistant.RiskChoice | src/lib/api.ts:53 | the scope risk exactly when the notes are blank and there is nothing to do; else the owner risk exactly when nothing is in progress or done; else the default |
| Assistant.MockAssistant | src/lib/api.ts:46-60 | blocker keywords take precedence over summary keywords, and anything else is acknowledged (each an iff on the reply's header); the blocker reply holds the status and counts and ends with the risk line; the summary reply holds the figures and ends with the notes line; the acknowledgement quotes the message |
| Assistant.SummaryNotesBounded | src/lib/api.ts:57 | the summary shows at most 50 characters of notes, and short notes whole |
| Assistant.KeywordsIgnoreCase | src/lib/api.ts:52 | keyword detection ignores ASCII case |
| Assistant.SuggestedPromptsWork | src/lib/api.ts:59 | the two prompts the acknowledgement suggests lead to the blocker and summary replies |
| Assistant.FindBlockersIsBlockerRequest | src/lib/api.ts:52 | "Find blockers" matches the blocker keywords |
| Assistant.SummarizeIsSummaryRequest | src/lib/api.ts:56 | "Summarize" matches the summary keywords and none of the blocker keywords |
| AIPanel.FindHex | src/components/panes/AIPanel.tsx:15 | `hexes.find`: the first hex with the id, or none when no hex has it |
| AIPanel.SelectedPayload | src/components/panes/AIPanel.tsx:16 | a payload exactly when the selected id is non-empty with a payload, and then that payload |
| AIPanel.BoardHexShowsConversation | src/components/panes/AIPanel.tsx:48 | on a store keeping its invariant, selecting a board hex shows its conversation |
| AIPanel.Send | src/components/panes/AIPanel.tsx:26-42 | a rejected send changes nothing, and neither does a send to an id without a payload; an accepted one appends the trimmed text as a user message and then `Echo: ` plus the text to the side panel's hex, whose other fields are kept; every other payload, the hexes, the modal, the selection and the key set are unchanged |
| AIPanel.SendPreservesInvariant | src/components/panes/AIPanel.tsx:26-42 | sending keeps the store's invariant |
| AIPanel.SendGrowsShownChat | src/components/panes/AIPanel.tsx:44 | the shown conversation grows by exactly the two messages, the user's first |
| AIPanel.SendIgnoresModal | src/components/panes/AIPanel.tsx:34-39 | the modal's hex plays no part in where messages go |
| AIPanel.BlankInputSendsNothing | src/components/panes/AIPanel.tsx:27-28 | an all-whitespace input changes nothing |
| AIPanel.ChatPanel.constructor | src/components/panes/AIPanel.tsx:9-10 | an empty input and no loading flag |
| AIPanel.ChatPanel.SetUserInput | src/components/panes/AIPanel.tsx:84 | the input becomes the typed value |
| AIPanel.ChatPanel.HandleSend | src/components/panes/AIPanel.tsx:26-42 | the store becomes Send of the old store and input, keeping its invariant; an accepted send clears the input and ends with the loading flag down; a rejected one changes nothing |
| HexCell.StatusColor | src/components/hex/Hex.tsx:17-27 | green exactly for 'Done', orange exactly for 'In Progress', red otherwise (also for the empty record) |
| HexCell.DisplayTitle | src/components/hex/Hex.tsx:62 | at most 15 characters; unchanged when it fits; otherwise the first 14 and an ellipsis |
| HexCell.DisplayTitleIdempotent | src/components/hex/Hex.tsx:62 | shortening a shown title changes nothing |
| HexCell.RingTag | src/components/hex/Hex.tsx:63 | "" exactly for the tag 'P0'; any other tag in brackets as it is; a numeric ring in brackets in decimal; an absent ring as "[undefined]" |
| HexCell.RenderCell | src/components/hex/Hex.tsx:40-107 | cyan face exactly for the centre or ring 2 (by number or 'P2' tag); dark edge exactly for ring 2 and the plain edge otherwise; large label exactly for the centre, on-cyan label exactly for a ring-2 cell other than the centre, deep label otherwise; the centre has no dot and no tag line; dot and tag placement and colour; both gestures pass the cell's id |
| HexCell.StoreRingsStyle | src/components/hex/Hex.tsx:46 | with store-written numeric rings, the face is cyan exactly on rings 0 and 2 and the tag is never blank |
| HexCell.GeneratedCellView | src/components/hex/Hex.tsx:83-106 | a generated ring cell shows a red dot and the tag of its ring number |
| HexCell.CellGesturesTargetTheirHex | src/components/hex/Hex.tsx:69-70 | clicking a cell selects its hex; double-clicking opens the modal on it unless it is the centre |
| HexCellLegacy.RingTag | src/Hex.tsx:57 | "" exactly for ring 0; otherwise "[P" + the ring + "]" |
| HexCellLegacy.RenderCell | src/Hex.tsx:39-95 | cyan face exactly for rings 0 and 2 and deep otherwise; dark edge exactly for ring 2 and plain otherwise; label large for the centre, on cyan for ring 2, on deep otherwise; title position; the centre has no dot and no tag line; any other cell has the status dot at GetStatusDotPosition, filled with StatusColor of its status, and the tag line "[P{ring}]" in the label class 16 below the centre; both gestures pass the cell's id |
| HexCellLegacy.VariantsDifferOnlyInTag | src/Hex.tsx:42-57 | unless a payload carries the 'P2' tag, both variants draw the same face, edge, dot, title and gestures, and their tag lines have the same presence, class and position, differing only in the text |
| HexCellLegacy.LegacyTagAddsP | src/Hex.tsx:57 | for a numeric ring the legacy tag is the newer one with 'P' inserted |
| HexCellLegacy.PayloadTagOnlyInNewerVariant | src/Hex.tsx:43 | a ring-1 cell whose payload says 'P2' is cyan in the newer variant and dark here |

## Left out

- Persistence through `persist`, `createJSONStorage` and `localStorage` is not modelled: it is storage I/O.
- `api.post` is not modelled: it is a Promise resolved after a 500 ms timer. The assistant's reply function it calls is modelled as `Assistant.MockAssistant`.
- `getHexPoints` (cosine and sine, `toFixed`) and the `viewBox` string are not modelled: they are floating-point formatting. A cell's polygon corners are therefore absent from `HexCell.CellView`.
- `useBounds` and its resize observer, the JSX/SVG markup, the chat log's autoscroll and the "Thinking…" line are not modelled: they are rendering and browser effects. The stage receives the measured width and height as parameters.
- The diagnostic `console.error` for a hex without a slot is not modelled; the dropped entry is.
- The send button's `disabled` state and the Enter-key handler are not modelled. Both only call `handleSend`, whose own guard is modelled.
- Geometry.CalculateLayout: JavaScript numbers are modelled as exact reals, with `Math.sqrt(3)` as the double nearest to the square root of 3. Rounding error is not modelled, and neither is the NaN case of `width || 1000`.
- Geometry.AxialToPixel: exact real arithmetic; floating-point rounding is not modelled.
- Geometry.GetRingAxialCoords: the radius is a natural number. Negative or fractional radii, which the JavaScript would accept, are not modelled.
- Stage.MapHexes: requires every hex's ring to be 0..3. The source casts the ring to `0 \| 1 \| 2 \| 3`, and any other ring would make `rings[ring]` undefined and throw. Stage.StageLayout and Stage.ComputeLayout carry the same precondition.
- Assistant.Progress: `Math.round` of a floating-point quotient is modelled exactly over rationals, with halves rounding up. A quotient that floating point rounds across a half is not modelled.
- Assistant.RingText: a numeric ring is an integer here; `String` of a fractional JavaScript number is not modelled.
- HexCell.DisplayTitle: lengths and `substring` count characters (code points), where JavaScript counts UTF-16 code units. A title with characters outside the Basic Multilingual Plane can therefore be cut differently. The same holds for Text.Prefix.
- Types.PayloadPatch: a patch that sets a required key (title, status, ring) to `undefined` is not modelled.
- StoreActions.AddChatMessage: the payload dictionary is a Dafny map. The source reads a plain JavaScript object, which also answers ids naming `Object.prototype` members ("constructor", "toString", "hasOwnProperty", ...) with an inherited, truthy function. For such ids the source appends to a synthesized entry, while the model changes nothing. Ids that name `Object.prototype` members are not modelled.
- StoreActions.UpdatePayload: for an id naming an `Object.prototype` member, the source spreads the inherited function instead of the `'Untitled'` default; the model uses the default.
- StoreActions.GetActiveHexData: for an id naming an `Object.prototype` member, the source returns the inherited function as the payload; the model returns nothing.
- StoreActions.OpenUnknownIdReadsNothing: holds for ids outside the dictionary that do not name an `Object.prototype` member; for those the source's read is non-null.
- The recruitment modal, left pane, top bar, application shell, styles and build configuration are not part of this model. They are user interface only; the modal forwards single-key patches to `updatePayload`, which is modelled.
