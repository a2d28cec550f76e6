/** The assistant helpers of src/lib/api.ts: the projection of a hex and its
    payload into the context handed to the assistant (buildHexContext), and the
    mock assistant that picks a canned reply from keywords in the message
    (mockAssistant). Both are pure. */
module Assistant {
  import opened Types
  import opened Text
  import Board

  datatype KanbanCounts = KanbanCounts(todo: nat, doing: nat, done: nat)

  datatype AssistantContext = AssistantContext(
    id: string,
    title: string,
    ring: string,
    status: string,
    kanban: KanbanCounts,
    notes: string,
    links: nat,
    description: string)

  /** A string with no whitespace at either end. */
  predicate IsTrimmed(s: string) {
    Trim(s) == s
  }

  /** `String(s || '').trim()` on an optional string: absent gives "". */
  function TrimOpt(s: Option<string>): (r: string)
    ensures IsTrimmed(r)
    ensures s.None? ==> r == ""
    ensures s.Some? ==> r == Trim(s.value)
  {
    if s.Some? then TrimIdempotent(s.value); Trim(s.value) else ""
  }

  /** `String(ring || '').trim()`: the number 0 is falsy and gives "". */
  function RingText(v: RingValue): (r: string)
    ensures IsTrimmed(r)
  {
    match v
    case RingNumber(n) => if n == 0 then "" else IntToStringTrimmed(n); Trim(IntToString(n))
    case RingLabel(tag) => TrimIdempotent(tag); Trim(tag)
  }

  lemma IntToStringTrimmed(n: int)
    ensures Trim(IntToString(n)) == IntToString(n)
  {
    var s := IntToString(n);
    assert !IsJsWhitespace(s[0]);
    assert !IsJsWhitespace(s[|s| - 1]) by {
      if |s| > 1 {
        assert IsDigit(s[|s| - 1]);
      }
    }
    TrimOfTrimmed(s);
  }

  /** `x || ''` then trimmed: the description, or the job description when the
      description is absent or empty. */
  function DescriptionSource(payload: HexPayload): Option<string> {
    if payload.description.Some? && payload.description.value != "" then payload.description
    else payload.jobDescription
  }

  /** `payload.kanban?.<list>?.length || 0` for the three lists. */
  function CountsOf(kanban: Option<Kanban>): KanbanCounts {
    if kanban.Some? then
      KanbanCounts(|kanban.value.todo|, |kanban.value.doing|, |kanban.value.done|)
    else KanbanCounts(0, 0, 0)
  }

  /** buildHexContext: the id comes from the hex and the counts from the
      payload's lists, 0 when the kanban or the links are absent. */
  function BuildHexContext(hex: Hex, payload: HexPayload): (c: AssistantContext)
    ensures c.id == hex.id
    ensures payload.kanban.None? ==> c.kanban == KanbanCounts(0, 0, 0)
    ensures payload.kanban.Some? ==>
      && c.kanban.todo == |payload.kanban.value.todo|
      && c.kanban.doing == |payload.kanban.value.doing|
      && c.kanban.done == |payload.kanban.value.done|
    ensures c.links == if payload.links.Some? then |payload.links.value| else 0
    ensures c.status == StatusText(payload.status)
  {
    StatusTextTrimmed(payload.status);
    AssistantContext(
      hex.id,
      Trim(payload.title),
      RingText(payload.ring),
      Trim(StatusText(payload.status)),
      CountsOf(payload.kanban),
      TrimOpt(payload.notes),
      if payload.links.Some? then |payload.links.value| else 0,
      TrimOpt(DescriptionSource(payload)))
  }

  lemma StatusTextTrimmed(s: Status)
    ensures Trim(StatusText(s)) == StatusText(s)
  {
    TrimOfTrimmed(StatusText(s));
  }

  /** Every string of the context is trimmed. */
  lemma ContextTrimmed(hex: Hex, payload: HexPayload)
    ensures var c := BuildHexContext(hex, payload);
      && IsTrimmed(c.title) && IsTrimmed(c.ring) && IsTrimmed(c.status)
      && IsTrimmed(c.notes) && IsTrimmed(c.description)
  {
    TrimIdempotent(payload.title);
    StatusTextTrimmed(payload.status);
  }

  /** The title and the notes are the payload's, trimmed; absent notes give "". */
  lemma ContextTitleAndNotes(hex: Hex, payload: HexPayload)
    ensures var c := BuildHexContext(hex, payload);
      && c.title == Trim(payload.title)
      && (payload.notes.None? ==> c.notes == "")
      && (payload.notes.Some? ==> c.notes == Trim(payload.notes.value))
  {
  }

  /** The ring text: "" for the number 0, which is falsy; any other number in
      decimal; a tag trimmed. */
  lemma ContextRing(hex: Hex, payload: HexPayload)
    ensures var c := BuildHexContext(hex, payload);
      payload.ring == RingNumber(0) ==> c.ring == ""
    ensures var c := BuildHexContext(hex, payload);
      payload.ring.RingNumber? && payload.ring.n != 0 ==> c.ring == IntToString(payload.ring.n) != ""
    ensures var c := BuildHexContext(hex, payload);
      payload.ring.RingLabel? ==> c.ring == Trim(payload.ring.tag)
  {
    var c := BuildHexContext(hex, payload);
    assert c.ring == RingText(payload.ring);
    match payload.ring
    case RingNumber(n) =>
      if n != 0 {
        IntToStringTrimmed(n);
        assert c.ring == IntToString(n);
      }
    case RingLabel(tag) =>
  }

  /** The description, or the job description when the description is absent or
      empty. A blank but non-empty description is truthy and does not fall back. */
  lemma ContextDescription(hex: Hex, payload: HexPayload)
    ensures var c := BuildHexContext(hex, payload);
      payload.description.Some? && payload.description.value != "" ==>
        c.description == Trim(payload.description.value)
    ensures var c := BuildHexContext(hex, payload);
      (payload.description.None? || payload.description.value == "") ==>
        c.description == TrimOpt(payload.jobDescription)
  {
  }

  /** The context of a freshly generated payload: no tasks, no links, no notes
      and no description; the ring is blank only for the centre's ring 0. */
  lemma DefaultPayloadContext(hex: Hex, title: string, ring: int)
    ensures var c := BuildHexContext(hex, Board.CreateDefaultPayload(title, ring));
      && c.kanban == KanbanCounts(0, 0, 0) && c.links == 0
      && c.notes == "" && c.description == ""
      && c.status == "To Do"
      && (c.ring == "" <==> ring == 0)
  {
    var p := Board.CreateDefaultPayload(title, ring);
    assert p.notes == None && DescriptionSource(p) == None;
    assert TrimOpt(None) == "";
    ContextRing(hex, p);
  }

  /** The chat log does not take part in the context: appending messages leaves
      it unchanged. */
  lemma ContextIgnoresChat(hex: Hex, payload: HexPayload, chat: Option<seq<ChatMessage>>)
    ensures BuildHexContext(hex, payload.(chat := chat)) == BuildHexContext(hex, payload)
  {
  }

  // ---------------------------------------------------------------------------
  // mockAssistant

  /** `Math.round(done / total * 100)`, or 0 when there are no tasks: the nearest
      whole percentage, halves rounded up. */
  function Progress(k: KanbanCounts): (p: nat)
    ensures p <= 100
    ensures k.todo + k.doing + k.done == 0 ==> p == 0
    ensures var total := k.todo + k.doing + k.done;
      total > 0 ==> 2 * total * p <= 200 * k.done + total < 2 * total * (p + 1)
  {
    var total := k.todo + k.doing + k.done;
    if total > 0 then
      var p := (200 * k.done + total) / (2 * total);
      DivBounds(200 * k.done + total, 2 * total);
      assert 200 * k.done + total < 2 * total * 101 by {
        MulLeft(200, k.done, total);
      }
      LessByFactor(2 * total, p, 101);
      p
    else 0
  }

  /** The quotient of Euclidean division lies between its bounds. */
  lemma DivBounds(a: nat, b: nat)
    requires b > 0
    ensures b * (a / b) <= a < b * (a / b + 1)
  {
  }

  lemma MulLeft(c: nat, x: nat, y: nat)
    requires x <= y
    ensures c * x <= c * y
  {
  }

  /** Cancelling a positive factor from a strict inequality. */
  lemma LessByFactor(c: nat, x: nat, y: nat)
    requires c > 0 && c * x < c * y
    ensures x < y
  {
    if x >= y {
      MulLeft(c, y, x);
    }
  }

  /** Every task done gives 100%, none done gives 0%. */
  lemma ProgressExtremes(k: KanbanCounts)
    ensures k.todo + k.doing == 0 < k.done ==> Progress(k) == 100
    ensures k.done == 0 ==> Progress(k) == 0
  {
    var p := Progress(k);
    var total := k.todo + k.doing + k.done;
    if k.todo + k.doing == 0 < k.done {
      // 2 * total * 99 < 200 * total <= 2 * total * p
      LessByFactor(2 * total, 99, p);
    }
    if k.done == 0 && total > 0 {
      LessByFactor(2 * total, p, 1);
    }
  }

  /** The blocker keywords of /blocker|blok|przeszk|risk|ryzyk/i. */
  predicate AsksForBlockers(msg: string) {
    var m := ToLowerAscii(msg);
    Contains(m, "blocker") || Contains(m, "blok") || Contains(m, "przeszk")
    || Contains(m, "risk") || Contains(m, "ryzyk")
  }

  /** The summary keywords of /summa|summary|podsum/i. */
  predicate AsksForSummary(msg: string) {
    var m := ToLowerAscii(msg);
    Contains(m, "summa") || Contains(m, "summary") || Contains(m, "podsum")
  }

  /** The three risk lines of the blockers reply. */
  datatype Risk = ScopeRisk | OwnerRisk | NoCriticalRisk

  /** The chosen risk: `risks || 'Brak krytycznych, …'`, where `risks` is the
      scope risk, else the owner risk, else "" (which falls to the default). */
  function RiskOf(ctx: AssistantContext): Risk {
    if Trim(ctx.notes) == "" && ctx.kanban.todo == 0 then ScopeRisk
    else if ctx.kanban.doing == 0 && ctx.kanban.done == 0 then OwnerRisk
    else NoCriticalRisk
  }

  function RiskText(r: Risk): string {
    match r
    case ScopeRisk => "Brak notatek i brak task\U{00F3}w \U{2013} ryzyko niejasnego zakresu."
    case OwnerRisk => "Brak prac w toku \U{2013} projekt mo\U{017C}e nie mie\U{0107} w\U{0142}a\U{015B}ciciela."
    case NoCriticalRisk => "Brak krytycznych, monitoruj zale\U{017C}no\U{015B}ci."
  }

  /** The scope risk wins over the owner risk, which wins over the default; a
      context with neither notes nor to-do tasks never gets the owner risk. */
  lemma RiskChoice(ctx: AssistantContext)
    ensures RiskOf(ctx) == ScopeRisk <==> Trim(ctx.notes) == "" && ctx.kanban.todo == 0
    ensures RiskOf(ctx) == OwnerRisk <==>
      !(Trim(ctx.notes) == "" && ctx.kanban.todo == 0) && ctx.kanban.doing == 0 && ctx.kanban.done == 0
    ensures RiskOf(ctx) == NoCriticalRisk <==>
      !(Trim(ctx.notes) == "" && ctx.kanban.todo == 0) && !(ctx.kanban.doing == 0 && ctx.kanban.done == 0)
  {
  }

  const BlockersHeader := "Blockers summary:\n"
  const SummaryHeader := "Summary:\n"
  const NotedHeader := "Noted: \""

  /** The status, progress and task counts of the blockers reply. */
  function BlockersFigures(ctx: AssistantContext, progress: nat): string {
    "- Status: " + (if ctx.status == "" then "To Do" else ctx.status)
    + " | Progress: " + NatToString(progress) + "%\n"
    + "- Tasks \U{2192} To Do:" + NatToString(ctx.kanban.todo)
    + " In Progress:" + NatToString(ctx.kanban.doing)
    + " Done:" + NatToString(ctx.kanban.done)
  }

  function RisksLine(ctx: AssistantContext): string {
    "\n- Risks: " + RiskText(RiskOf(ctx))
  }

  /** The title, ring, status, task counts and link count of the summary reply. */
  function SummaryFigures(ctx: AssistantContext, progress: nat): string {
    "\U{2022} Title: " + Trim(ctx.title) + " | Ring: " + Trim(ctx.ring) + "\n"
    + "\U{2022} Status: " + Trim(ctx.status) + "\n"
    + "\U{2022} Tasks: To Do " + NatToString(ctx.kanban.todo)
    + ", In Progress " + NatToString(ctx.kanban.doing)
    + ", Done " + NatToString(ctx.kanban.done)
    + " (\U{2248}" + NatToString(progress) + "%)\n"
    + "\U{2022} Links: " + NatToString(ctx.links)
  }

  /** The notes line: at most the first 50 characters, then "...". */
  function NotesLine(ctx: AssistantContext): string {
    "\n\U{2022} Notes: " + Prefix(ctx.notes, 50) + "..."
  }

  function NotedTrailer(ctx: AssistantContext): string {
    "\". Context title: " + Trim(ctx.title) + ". Try: \"Summarize\" or \"Find blockers\"."
  }

  /** `s` ends with `t`. */
  predicate EndsWith(s: string, t: string) {
    |t| <= |s| && s[|s| - |t|..] == t
  }

  /** A reply assembled from a header, a middle and a tail starts with the
      header's first character, and holds each part at its place. */
  lemma Parts(h: string, m: string, t: string)
    requires h != []
    ensures (h + m + t)[0] == h[0]
    ensures h <= h + m + t
    ensures (h + m + t)[|h|..|h| + |m|] == m
    ensures EndsWith(h + m + t, t)
  {
    var r := h + m + t;
    assert r[..|h|] == h;
    assert r[|r| - |t|..] == t;
  }

  /** mockAssistant: the blocker keywords take precedence over the summary
      keywords; anything else is acknowledged by quoting the message back. */
  function MockAssistant(ctx: AssistantContext, msg: string): (reply: string)
    ensures AsksForBlockers(msg) <==> BlockersHeader <= reply
    ensures !AsksForBlockers(msg) && AsksForSummary(msg) <==> SummaryHeader <= reply
    ensures !AsksForBlockers(msg) && !AsksForSummary(msg) <==> NotedHeader <= reply
    ensures AsksForBlockers(msg) ==>
      EndsWith(reply, RisksLine(ctx)) && Contains(reply, BlockersFigures(ctx, Progress(ctx.kanban)))
    ensures !AsksForBlockers(msg) && AsksForSummary(msg) ==>
      EndsWith(reply, NotesLine(ctx)) && Contains(reply, SummaryFigures(ctx, Progress(ctx.kanban)))
    ensures !AsksForBlockers(msg) && !AsksForSummary(msg) ==>
      |NotedHeader| + |msg| <= |reply| && reply[|NotedHeader|..|NotedHeader| + |msg|] == msg
  {
    var progress := Progress(ctx.kanban);
    if AsksForBlockers(msg) then
      var figures := BlockersFigures(ctx, progress);
      Parts(BlockersHeader, figures, RisksLine(ctx));
      ContainsAt(BlockersHeader + figures + RisksLine(ctx), figures, |BlockersHeader|);
      BlockersHeader + figures + RisksLine(ctx)
    else if AsksForSummary(msg) then
      var figures := SummaryFigures(ctx, progress);
      Parts(SummaryHeader, figures, NotesLine(ctx));
      ContainsAt(SummaryHeader + figures + NotesLine(ctx), figures, |SummaryHeader|);
      SummaryHeader + figures + NotesLine(ctx)
    else
      Parts(NotedHeader, msg, NotedTrailer(ctx));
      NotedHeader + msg + NotedTrailer(ctx)
  }

  /** The summary reply shows at most the first 50 characters of the notes. */
  lemma SummaryNotesBounded(ctx: AssistantContext)
    ensures |Prefix(ctx.notes, 50)| <= 50
    ensures |ctx.notes| <= 50 ==> Prefix(ctx.notes, 50) == ctx.notes
  {
  }

  /** Keyword matching ignores ASCII case. */
  lemma KeywordsIgnoreCase(msg: string)
    ensures AsksForBlockers(ToLowerAscii(msg)) == AsksForBlockers(msg)
    ensures AsksForSummary(ToLowerAscii(msg)) == AsksForSummary(msg)
  {
    assert ToLowerAscii(ToLowerAscii(msg)) == ToLowerAscii(msg);
  }

  /** The two prompts the acknowledgement suggests lead to the two other
      replies. */
  lemma SuggestedPromptsWork(ctx: AssistantContext)
    ensures BlockersHeader <= MockAssistant(ctx, "Find blockers")
    ensures SummaryHeader <= MockAssistant(ctx, "Summarize")
  {
    FindBlockersIsBlockerRequest();
    SummarizeIsSummaryRequest();
  }

  lemma FindBlockersIsBlockerRequest()
    ensures AsksForBlockers("Find blockers")
  {
    var b := ToLowerAscii("Find blockers");
    assert b == "find blockers";
    ContainsAt(b, "blocker", 5);
  }

  lemma SummarizeIsSummaryRequest()
    ensures !AsksForBlockers("Summarize") && AsksForSummary("Summarize")
  {
    var s := ToLowerAscii("Summarize");
    assert s == "summarize";
    ContainsAt(s, "summa", 0);
    NoBlockerWordInSummarize(s);
  }

  lemma NoBlockerWordInSummarize(s: string)
    requires s == "summarize"
    ensures !Contains(s, "blocker") && !Contains(s, "blok") && !Contains(s, "przeszk")
    ensures !Contains(s, "risk") && !Contains(s, "ryzyk")
  {
    forall w: string, k: nat | w in ["blocker", "blok", "przeszk", "risk", "ryzyk"]
      ensures !MatchAt(s, w, k)
    {
      if k + |w| <= |s| {
        var m := s[k..k + |w|];
        assert m[0] == s[k] && m[1] == s[k + 1] && m[2] == s[k + 2];
      }
    }
    NoMatchIn(s, "blocker");
    NoMatchIn(s, "blok");
    NoMatchIn(s, "przeszk");
    NoMatchIn(s, "risk");
    NoMatchIn(s, "ryzyk");
  }
}
