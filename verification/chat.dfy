/** The chat endpoint (basic retrieval-augmented generation): validate the
    question, embed it, retrieve the top-K points with no filter and no score
    threshold, turn the hits into sources and a numbered context block, and ask
    the chat model. The embedding, search and chat services are parameters; the
    score type is opaque. */
module Chat {
  import opened Wrappers
  import opened Strings
  import opened Http
  import opened Payload

  const QuestionRequiredMessage := "Question is required and cannot be empty."

  const DefaultSystemPrompt :=
    "You are a helpful assistant. Answer the user's question based **only** on\n"
    + "the provided context documents. If the context does not contain enough\n"
    + "information to answer, say so clearly — do not make up facts."

  const ContextSeparator := "\n\n"

  newtype Int32 = x: int | -0x8000_0000 <= x < 0x8000_0000

  const TwoTo64 := 0x1_0000_0000_0000_0000

  /** `ChatRequest`; this version of the endpoint reads only the question and `K`,
      and ignores the tags and the custom system prompt. */
  datatype ChatRequest = ChatRequest(question: string, k: Int32, tags: Dict, systemPrompt: Option<string>)

  /** A point id: the UUID when it is set, and the number. */
  datatype PointId = PointId(uuid: Option<string>, num: nat)

  /** A scored point as the search returns it; the score is opaque. */
  datatype Hit<F> = Hit(id: Option<PointId>, score: F, payload: PayloadMap)

  datatype ChatSource<F> = ChatSource(id: string, score: F, textSnippet: string)

  datatype ChatResponse<F> = ChatResponse(answer: string, sources: seq<ChatSource<F>>)

  datatype Role = System | User

  datatype ChatMessage = ChatMessage(role: Role, text: string)

  /** The services the endpoint calls: embed a text, search by vector and limit,
      complete a conversation; each may throw. */
  datatype ChatServices<!V, F> = ChatServices(
    embed: string -> Result<V, string>,
    search: (V, nat) -> Result<seq<Hit<F>>, string>,
    complete: seq<ChatMessage> -> Result<string, string>)

  // ---------------------------------------------------------------- pieces

  /** `(ulong)req.K`: a negative `K` wraps around modulo 2^64. */
  function Limit(k: Int32): (n: nat)
    ensures n < TwoTo64
    ensures (n - k as int) % TwoTo64 == 0
    ensures k >= 0 ==> n == k as int
  {
    if k >= 0 then k as int else k as int + TwoTo64
  }

  /** `hit.Id?.Uuid ?? hit.Id?.Num.ToString() ?? "?"`. */
  function HitId(id: Option<PointId>): string {
    match id
    case None => "?"
    case Some(p) => p.uuid.GetOr(NatToString(p.num))
  }

  /** The `text` field's string value; a missing field, or one that is not a
      string, gives "". */
  function HitText(payload: PayloadMap): string {
    if TextKey in payload && payload[TextKey].Str? then payload[TextKey].s else ""
  }

  /** Context part `i`: `[i+1] text`. */
  function ContextPart(i: nat, text: string): string {
    "[" + NatToString(i + 1) + "] " + text
  }

  function UserMessage(context: string, question: string): string {
    "Context:\n" + context + "\n\nQuestion: " + question
  }

  function Messages(context: string, question: string): seq<ChatMessage> {
    [ChatMessage(System, DefaultSystemPrompt), ChatMessage(User, UserMessage(context, question))]
  }

  // ---------------------------------------------------------------- sources and context

  /** The source a hit contributes: its id, its score and its text. */
  function SourceOf<F>(hit: Hit<F>): ChatSource<F> {
    ChatSource(HitId(hit.id), hit.score, HitText(hit.payload))
  }

  /** The loop over the hits: one source and one context part per hit, in hit order. */
  method BuildSources<F>(hits: seq<Hit<F>>) returns (sources: seq<ChatSource<F>>, parts: seq<string>)
    ensures |sources| == |hits| && |parts| == |hits|
    ensures forall i :: 0 <= i < |hits| ==> sources[i] == SourceOf(hits[i])
    ensures forall i :: 0 <= i < |hits| ==> parts[i] == ContextPart(i, HitText(hits[i].payload))
  {
    sources, parts := [], [];
    var i := 0;
    while i < |hits|
      invariant 0 <= i <= |hits|
      invariant sources == seq(i, j requires 0 <= j < i => SourceOf(hits[j]))
      invariant parts == seq(i, j requires 0 <= j < i => ContextPart(j, HitText(hits[j].payload)))
    {
      sources := sources + [SourceOf(hits[i])];
      parts := parts + [ContextPart(i, HitText(hits[i].payload))];
      i := i + 1;
    }
  }

  function Sources<F>(hits: seq<Hit<F>>): seq<ChatSource<F>> {
    seq(|hits|, i requires 0 <= i < |hits| => SourceOf(hits[i]))
  }

  function Parts<F>(hits: seq<Hit<F>>): seq<string> {
    seq(|hits|, i requires 0 <= i < |hits| => ContextPart(i, HitText(hits[i].payload)))
  }

  /** The loop builds exactly the sources and parts the endpoint answers with. */
  method BuildContext<F>(hits: seq<Hit<F>>) returns (sources: seq<ChatSource<F>>, context: string)
    ensures sources == Sources(hits)
    ensures context == Join(Parts(hits), ContextSeparator)
  {
    var parts;
    sources, parts := BuildSources(hits);
    assert parts == Parts(hits);
    context := Join(parts, ContextSeparator);
  }

  // ---------------------------------------------------------------- the endpoint

  /** The retrieval step: embed the question, then search with limit `(ulong)K`. */
  function Retrieve<V, F>(req: ChatRequest, svc: ChatServices<V, F>): Result<seq<Hit<F>>, string> {
    match svc.embed(req.question)
    case Failure(e) => Failure(e)
    case Success(vector) => svc.search(vector, Limit(req.k))
  }

  /** The context block: the parts joined with a blank line. */
  function Context<F>(hits: seq<Hit<F>>): string {
    Join(Parts(hits), ContextSeparator)
  }

  /** `POST /chat`: a blank question is a bad request before any service is
      called; a thrown exception is a problem; otherwise the answer and the sources. */
  function Chat<V, F>(req: ChatRequest, svc: ChatServices<V, F>): (r: HttpResult<ChatResponse<F>>)
    ensures IsBlank(req.question) ==> r == BadRequest(QuestionRequiredMessage)
    ensures r.BadRequest? ==> IsBlank(req.question)
    ensures r.Problem? <==>
      && !IsBlank(req.question)
      && (|| Retrieve(req, svc).Failure?
          || svc.complete(Messages(Context(Retrieve(req, svc).value), req.question)).Failure?)
    ensures r.Ok? ==>
      && svc.embed(req.question).Success?
      && svc.search(svc.embed(req.question).value, Limit(req.k)) == Retrieve(req, svc)
      && Retrieve(req, svc).Success?
      && r.value.sources == Sources(Retrieve(req, svc).value)
      && r.value.answer == svc.complete(Messages(Context(Retrieve(req, svc).value), req.question)).value
  {
    if IsBlank(req.question) then BadRequest(QuestionRequiredMessage)
    else
      match Retrieve(req, svc)
      case Failure(e) => Problem(e)
      case Success(hits) =>
        match svc.complete(Messages(Context(hits), req.question))
        case Failure(e) => Problem(e)
        case Success(answer) => Ok(ChatResponse(answer, Sources(hits)))
  }

  /** An answered question carries one source per retrieved hit, in hit order, with
      that hit's id, score and text, and the context the model saw numbers the same
      hits from one. */
  lemma ChatSourcesFollowHits<V, F>(req: ChatRequest, svc: ChatServices<V, F>)
    requires Chat(req, svc).Ok?
    ensures var hits := Retrieve(req, svc).value;
      var sources := Chat(req, svc).value.sources;
      && |sources| == |hits|
      && forall i :: 0 <= i < |hits| ==>
           && sources[i].id == HitId(hits[i].id)
           && sources[i].score == hits[i].score
           && sources[i].textSnippet == HitText(hits[i].payload)
           && ParsePart(Parts(hits)[i]) == Some((i + 1, sources[i].textSnippet))
  {
    var hits := Retrieve(req, svc).value;
    forall i | 0 <= i < |hits| ensures ParsePart(Parts(hits)[i]) == Some((i + 1, Sources(hits)[i].textSnippet)) {
      ContextNumbersHits(hits, i);
    }
  }

  /** This version reads neither the tags nor the custom system prompt. */
  lemma ChatIgnoresTagsAndPrompt<V, F>(req: ChatRequest, tags: Dict, prompt: Option<string>, svc: ChatServices<V, F>)
    ensures Chat(req.(tags := tags, systemPrompt := prompt), svc) == Chat(req, svc)
  {
  }

  // ---------------------------------------------------------------- reading the context back

  /** The length of the leading run of digits. */
  function DigitRun(s: string): (n: nat)
    ensures n <= |s| && AllDigits(s[..n]) && (n < |s| ==> !IsDigit(s[n]))
    decreases |s|
  {
    if |s| > 0 && IsDigit(s[0]) then
      var n := 1 + DigitRun(s[1..]);
      assert s[..n] == [s[0]] + s[1..][..n - 1];
      n
    else 0
  }

  /** Reads a context part `[n] text` back into its number and its text. */
  function ParsePart(part: string): Option<(nat, string)> {
    if |part| == 0 || part[0] != '[' then None
    else
      var rest := part[1..];
      var n := DigitRun(rest);
      if 0 < n && n + 1 < |rest| && rest[n] == ']' && rest[n + 1] == ' '
      then Some((ParseDigits(rest[..n]), rest[n + 2..]))
      else None
  }

  lemma {:induction false} DigitRunOf(d: string, tail: string)
    requires AllDigits(d) && |tail| > 0 && !IsDigit(tail[0])
    ensures DigitRun(d + tail) == |d|
    decreases |d|
  {
    if |d| > 0 {
      assert (d + tail)[1..] == d[1..] + tail;
      assert IsDigit(d[0]);
      DigitRunOf(d[1..], tail);
    } else {
      assert d + tail == tail;
    }
  }

  /** Every context part reads back as its one-based number and the hit's text. */
  lemma ParsePartRoundTrip(i: nat, text: string)
    ensures ParsePart(ContextPart(i, text)) == Some((i + 1, text))
  {
    var d := NatToString(i + 1);
    var part := ContextPart(i, text);
    var rest := part[1..];
    assert rest == d + ("] " + text);
    DigitRunOf(d, "] " + text);
    assert rest[..|d|] == d;
    assert rest[|d| + 2..] == text;
    ParseNatToString(i + 1);
  }

  /** The context block with its parts: part `i` of the answer's context is hit
      `i`'s text, numbered from one. */
  lemma ContextNumbersHits<F>(hits: seq<Hit<F>>, i: nat)
    requires i < |hits|
    ensures ParsePart(Parts(hits)[i]) == Some((i + 1, Sources(hits)[i].textSnippet))
  {
    ParsePartRoundTrip(i, HitText(hits[i].payload));
  }
}
