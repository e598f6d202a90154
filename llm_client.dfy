/**
 * The Gemini client of the chat bot with the remote SDK taken out: the
 * directive text built around the loaded document, the 1-token-per-4-
 * characters estimator, the usage breakdown used for monitoring, the
 * translation of the session history into the provider's format and the
 * composition of the outgoing message.  What the SDK answers (a reply or
 * an exception) is an input.
 */
module LlmClient {
  import opened Wrappers
  import opened Text

  /** A point in time, in microseconds (the resolution of Python's `datetime`). */
  type Time = int

  datatype Role = User | Assistant

  /** One entry of a session's `conversation_history`. */
  datatype Turn = Turn(role: Role, content: string, timestamp: Time)

  /** One entry of the history handed to the provider: a role and its parts. */
  datatype ProviderMessage = ProviderMessage(role: Role, parts: seq<string>)

  /** What is handed to the provider on one call: the history the chat is
      started with and the message then sent. */
  datatype Request = Request(history: seq<ProviderMessage>, message: string)

  /** The outcome of the SDK calls `start_chat` / `send_message`. */
  datatype SdkReply = Answered(text: string) | Raised(error: string)

  /** The monitoring breakdown returned by `get_token_usage_info`, without
      the floating-point `percentage_used`. */
  datatype TokenUsage = TokenUsage(
    messageTokens: nat,
    pdfTokens: nat,
    basePromptTokens: nat,
    historyTokens: nat,
    totalTokens: nat,
    geminiLimit: nat)

  /** The fixed texts the directive text is built from: the base prompt and
      the delimiters of the several-documents and the single-document
      templates. */
  datatype Prompts = Prompts(
    base: string,
    multipleHeader: string,
    multipleFooter: string,
    singleHeader: string,
    singleFooter: string)

  /** The client's own texts. */
  const Templates: Prompts := Prompts(
    "Recibirás uno o más documentos PDF con información formal. Tu tarea es resumir y explicar el contenido en lenguaje claro, simple y humano.\n\nPrioriza lo esencial y lo práctico, como si hablaras con alguien ocupado que no tiene tiempo de leer todo el documento.\n\nEvita tecnicismos innecesarios y responde de forma concisa y comprensible.\n\nTambién debes responder preguntas específicas sobre el contenido de los documentos.\n\nCaracterísticas de tus respuestas:\n- Lenguaje claro y directo\n- Resúmenes concisos pero completos\n- Explicaciones como si hablaras con alguien ocupado\n- Respuestas específicas cuando te pregunten sobre los documentos\n- Si hay múltiples documentos, especifica de cuál estás hablando cuando sea relevante",
    "\n\nDOCUMENTOS PDF CARGADOS:\n========================\n",
    "\n========================\n\nINSTRUCCIONES ESPECIALES:\n- Tienes acceso a MÚLTIPLES documentos PDF\n- Cada documento está claramente separado con su nombre y contenido\n- Cuando respondas, puedes hacer referencia a información de cualquiera de los documentos\n- Si la pregunta se refiere a un documento específico, menciona cuál\n- Si la información está en varios documentos, puedes combinarla en tu respuesta\n- Para resúmenes generales, incluye información relevante de todos los documentos\n\nAhora puedes responder preguntas sobre estos documentos o proporcionar resúmenes si te lo solicitan.",
    "\n\nDOCUMENTO PDF CARGADO:\n=====================\n",
    "\n=====================\n\nAhora puedes responder preguntas sobre este documento o proporcionar un resumen si te lo solicitan.")

  /** The marker whose repetition signals several documents. */
  const DocumentMarker: string := "DOCUMENTO #"

  /** Placed between the directive text and the user's message. */
  const UserSeparator: string := "\n\nUsuario: "

  /** Prefix of the reply given in place of an SDK exception. */
  const ApologyPrefix: string := "Lo siento, hubo un error al procesar tu mensaje: "

  /** The context window assumed for monitoring. */
  const GeminiLimit: nat := 1_000_000

  /** Python truthiness of an optional string: present and non-empty. */
  predicate HasContent(content: Option<string>) {
    content.Some? && content.value != ""
  }

  /** The content is taken to hold several documents when the marker occurs
      in it more than once (`str.count`). */
  predicate IsMultiple(content: string) {
    Count(content, DocumentMarker) > 1
  }

  /** `get_system_prompt` over the texts `p`: the base prompt alone, or the
      base prompt followed by the content framed by the template its
      document count selects. */
  function SystemPrompt(p: Prompts, content: Option<string>): (r: string)
    ensures !HasContent(content) ==> r == p.base
    ensures HasContent(content) ==> |r| > |p.base| && r[..|p.base|] == p.base
  {
    if HasContent(content) then
      var c := content.value;
      if IsMultiple(c) then p.base + p.multipleHeader + c + p.multipleFooter
      else p.base + p.singleHeader + c + p.singleFooter
    else p.base
  }

  /** A directive text opens, after the base prompt, with header `h` and
      closes with footer `f`. */
  predicate Framed(p: Prompts, prompt: string, h: string, f: string) {
    && |p.base| + |h| + |f| <= |prompt|
    && prompt[..|p.base| + |h|] == p.base + h
    && prompt[|prompt| - |f|..] == f
  }

  /** Whether a directive text announces several documents. */
  predicate AnnouncesMultiple(p: Prompts, prompt: string) {
    Framed(p, prompt, p.multipleHeader, p.multipleFooter)
  }

  /** The document a directive text carries, read back from it: whatever
      sits between the header and the footer of either template. */
  function EmbeddedDocument(p: Prompts, prompt: string): Option<string> {
    if Framed(p, prompt, p.multipleHeader, p.multipleFooter) then
      Some(prompt[|p.base| + |p.multipleHeader|..|prompt| - |p.multipleFooter|])
    else if Framed(p, prompt, p.singleHeader, p.singleFooter) then
      Some(prompt[|p.base| + |p.singleHeader|..|prompt| - |p.singleFooter|])
    else None
  }

  /** The two headers disagree at a position both of them have, so neither
      template can be mistaken for the other. */
  ghost predicate HeadersDiffer(p: Prompts) {
    exists i :: 0 <= i < |p.singleHeader| && i < |p.multipleHeader| && p.singleHeader[i] != p.multipleHeader[i]
  }

  /** The client's headers differ in their twelfth character. */
  lemma TemplatesHeadersDiffer()
    ensures HeadersDiffer(Templates)
  {
    assert Templates.singleHeader[11] == ' ' && Templates.multipleHeader[11] == 'S';
  }

  lemma FramedParts(p: Prompts, h: string, c: string, f: string)
    ensures Framed(p, p.base + h + c + f, h, f)
    ensures (p.base + h + c + f)[|p.base| + |h|..|p.base + h + c + f| - |f|] == c
  {
    var r := p.base + h + c + f;
    assert r[..|p.base| + |h|] == p.base + h;
    assert r[|r| - |f|..] == f;
    assert r[|p.base| + |h|..|r| - |f|] == c;
  }

  /** A single-document prompt never passes for a multiple-document one. */
  lemma SingleNotMultiple(p: Prompts, c: string, f: string)
    requires HeadersDiffer(p)
    ensures !Framed(p, p.base + p.singleHeader + c + f, p.multipleHeader, p.multipleFooter)
  {
    var r := p.base + p.singleHeader + c + f;
    var i :| 0 <= i < |p.singleHeader| && i < |p.multipleHeader| && p.singleHeader[i] != p.multipleHeader[i];
    var k := |p.base| + i;
    if |p.base| + |p.multipleHeader| <= |r| {
      assert r[k] == p.singleHeader[i];
      assert (p.base + p.multipleHeader)[k] == p.multipleHeader[i];
      assert r[..|p.base| + |p.multipleHeader|][k] == r[k];
    }
  }

  /** The directive text carries the loaded content verbatim between the
      template's delimiters, and no document at all when there is none. */
  lemma {:induction false} SystemPromptCarriesContent(p: Prompts, content: Option<string>)
    requires HeadersDiffer(p)
    ensures EmbeddedDocument(p, SystemPrompt(p, content)) ==
      if HasContent(content) then Some(content.value) else None
  {
    if HasContent(content) {
      var c := content.value;
      if IsMultiple(c) {
        FramedParts(p, p.multipleHeader, c, p.multipleFooter);
      } else {
        FramedParts(p, p.singleHeader, c, p.singleFooter);
        SingleNotMultiple(p, c, p.singleFooter);
      }
    } else {
      assert !Framed(p, p.base, p.multipleHeader, p.multipleFooter) || |p.multipleHeader| + |p.multipleFooter| == 0;
    }
  }

  /** The multiple-document wording is chosen exactly when the content holds
      two non-overlapping "DOCUMENTO #" markers. */
  lemma {:induction false} SystemPromptAnnouncesMultiple(p: Prompts, c: string)
    requires c != "" && HeadersDiffer(p)
    ensures AnnouncesMultiple(p, SystemPrompt(p, Some(c))) <==> OccursTwice(c, DocumentMarker)
  {
    CountMoreThanOne(c, DocumentMarker);
    if IsMultiple(c) {
      FramedParts(p, p.multipleHeader, c, p.multipleFooter);
    } else {
      SingleNotMultiple(p, c, p.singleFooter);
    }
  }

  /** `estimate_tokens`: one token per four characters, rounded down. */
  function EstimateTokens(text: string): (n: nat)
    ensures 4 * n <= |text| < 4 * n + 4
  {
    |text| / 4
  }

  /** Estimating two texts apart never gives more than estimating them
      together, and at most one token less. */
  lemma EstimateConcat(a: string, b: string)
    ensures EstimateTokens(a) + EstimateTokens(b) <= EstimateTokens(a + b)
    ensures EstimateTokens(a + b) <= EstimateTokens(a) + EstimateTokens(b) + 1
  {
  }

  /** `get_token_usage_info` with the texts `p`. `repr` stands for Python's
      `str()` of the history list, which the model leaves uninterpreted. */
  function TokenUsageInfo(p: Prompts, message: string, content: Option<string>, history: seq<Turn>,
                          repr: seq<Turn> -> string): (u: TokenUsage)
    ensures u.totalTokens == u.messageTokens + u.pdfTokens + u.basePromptTokens + u.historyTokens
    ensures u.messageTokens == EstimateTokens(message)
    ensures u.pdfTokens == if HasContent(content) then EstimateTokens(content.value) else 0
    ensures u.basePromptTokens == EstimateTokens(p.base)
    ensures history == [] ==> u.historyTokens == 0
    ensures history != [] ==> u.historyTokens == EstimateTokens(repr(history))
    ensures u.geminiLimit == GeminiLimit
  {
    var messageTokens := EstimateTokens(message);
    var pdfTokens := if HasContent(content) then EstimateTokens(content.value) else 0;
    var basePromptTokens := EstimateTokens(SystemPrompt(p, None));
    var historyTokens := if history != [] then EstimateTokens(repr(history)) else 0;
    TokenUsage(messageTokens, pdfTokens, basePromptTokens, historyTokens,
               messageTokens + pdfTokens + basePromptTokens + historyTokens, GeminiLimit)
  }

  /** The outgoing message of `chat`: the directive text, the separator and
      the user's message when content is loaded, the bare message otherwise. */
  function ComposeMessage(p: Prompts, message: string, content: Option<string>): (r: string)
    ensures IsSuffix(message, r)
    ensures !HasContent(content) ==> r == message
  {
    if HasContent(content) then SystemPrompt(p, content) + UserSeparator + message
    else message
  }

  /** Every outgoing message with content loaded carries the whole content:
      the directive text before the separator holds it verbatim. */
  lemma {:induction false} ComposeMessageInjectsContent(p: Prompts, message: string, content: Option<string>)
    requires HasContent(content) && HeadersDiffer(p)
    ensures var r := ComposeMessage(p, message, content);
      var cut := |r| - |message| - |UserSeparator|;
      0 <= cut && r[cut..|r| - |message|] == UserSeparator
      && EmbeddedDocument(p, r[..cut]) == Some(content.value)
  {
    var prompt := SystemPrompt(p, content);
    var r := ComposeMessage(p, message, content);
    assert r == prompt + UserSeparator + message;
    SplitOff(prompt, UserSeparator, message);
    var cut := |r| - |message| - |UserSeparator|;
    assert 0 <= cut;
    assert r[cut..|r| - |message|] == UserSeparator;
    assert r[..cut] == prompt;
    SystemPromptCarriesContent(p, content);
    assert EmbeddedDocument(p, prompt) == Some(content.value);
  }

  lemma SplitOff(p: string, sep: string, m: string)
    ensures var r := p + sep + m;
      && (p + sep + m)[..|r| - |m| - |sep|] == p
      && (p + sep + m)[|r| - |m| - |sep|..|r| - |m|] == sep
  {
  }

  /** The breakdown's message, document and base-prompt figures together
      never exceed the estimate of the message actually sent. */
  lemma {:induction false} UsageBoundsOutgoing(p: Prompts, message: string, content: Option<string>,
                                               history: seq<Turn>, repr: seq<Turn> -> string)
    requires HasContent(content)
    ensures var u := TokenUsageInfo(p, message, content, history, repr);
      u.messageTokens + u.pdfTokens + u.basePromptTokens <= EstimateTokens(ComposeMessage(p, message, content))
  {
    var c := content.value;
    var h := if IsMultiple(c) then p.multipleHeader else p.singleHeader;
    var f := if IsMultiple(c) then p.multipleFooter else p.singleFooter;
    assert SystemPrompt(p, content) == p.base + h + c + f;
    var r := ComposeMessage(p, message, content);
    assert r == p.base + h + c + f + UserSeparator + message;
    EstimateParts(p.base, h, c, f, UserSeparator, message);
  }

  lemma EstimateParts(b: string, h: string, c: string, f: string, sep: string, m: string)
    ensures EstimateTokens(b) + EstimateTokens(c) + EstimateTokens(m)
      <= EstimateTokens(b + h + c + f + sep + m)
  {
    EstimateConcat(b, h);
    EstimateConcat(b + h, c);
    EstimateConcat(b + h + c, f);
    EstimateConcat(b + h + c + f, sep);
    EstimateConcat(b + h + c + f + sep, m);
  }

  /** The reply `chat` returns: the SDK's text, or the apology that embeds the
      error text in place of an exception. */
  function ReplyText(reply: SdkReply): (r: string)
    ensures reply.Answered? ==> r == reply.text
    ensures reply.Raised? ==> |r| >= |ApologyPrefix| && r[..|ApologyPrefix|] == ApologyPrefix && r[|ApologyPrefix|..] == reply.error
  {
    match reply
    case Answered(text) => text
    case Raised(error) => ApologyPrefix + error
  }

  /** The provider's history for a session history: same length and order,
      each role copied and its content as the single part. */
  function ProviderHistory(history: seq<Turn>): seq<ProviderMessage> {
    if history == [] then []
    else
      var last := history[|history| - 1];
      ProviderHistory(history[..|history| - 1]) + [ProviderMessage(last.role, [last.content])]
  }

  /** `ProviderHistory` position by position. */
  lemma {:induction false} ProviderHistoryAt(history: seq<Turn>)
    ensures |ProviderHistory(history)| == |history|
    ensures forall i :: 0 <= i < |history| ==>
      ProviderHistory(history)[i].role == history[i].role
      && ProviderHistory(history)[i].parts == [history[i].content]
  {
    if history != [] {
      ProviderHistoryAt(history[..|history| - 1]);
    }
  }

  /** The loop of `chat` that builds the provider's history. */
  method ToProviderHistory(history: seq<Turn>) returns (chatHistory: seq<ProviderMessage>)
    ensures chatHistory == ProviderHistory(history)
  {
    chatHistory := [];
    for i := 0 to |history|
      invariant chatHistory == ProviderHistory(history[..i])
    {
      assert history[..i + 1][..i] == history[..i];
      chatHistory := chatHistory + [ProviderMessage(history[i].role, [history[i].content])];
    }
    assert history[..|history|] == history;
  }

  /** `chat` with the texts `p`: builds what is handed to the provider and turns the provider's
      outcome into the reply; it never raises. */
  method Chat(p: Prompts, message: string, content: Option<string>, history: seq<Turn>, reply: SdkReply)
    returns (response: string, sent: Request)
    ensures sent == Request(ProviderHistory(history), ComposeMessage(p, message, content))
    ensures response == ReplyText(reply)
  {
    var chatHistory := ToProviderHistory(history);
    var fullMessage := if HasContent(content)
      then SystemPrompt(p, content) + UserSeparator + message
      else message;
    sent := Request(chatHistory, fullMessage);
    response := match reply
      case Answered(text) => text
      case Raised(error) => ApologyPrefix + error;
  }
}
