/**
 * The conversation bookkeeping: one `PdfChatSession` per user, holding the
 * loaded PDF, the append-only history, the token counters and the
 * activity timestamps, and the registry of active sessions with its
 * expiry sweep.  The clock is a `now` parameter, the LLM's answer and the
 * extractor's results are inputs.
 */
module ChatSession {
  import opened Wrappers
  import opened Text
  import opened LlmClient
  import opened PdfProcessor

  const MicrosPerMinute: int := 60_000_000

  /** The error of a chat attempted before a PDF is loaded. */
  const NoPdfError: string := "No PDF loaded in this session"

  /** Generated session ids start with this. */
  const SessionIdPrefix: string := "pdf_chat_"

  /** The timeout `is_session_expired` and `cleanup_expired_sessions` use
      when the caller gives none. */
  const DefaultTimeoutMinutes: int := 30

  /** How many usage records the summary reports (the last ten). */
  const RecentUsageWindow: nat := 10

  /** The per-exchange record appended to `token_usage_history`. */
  datatype UsageRecord = UsageRecord(
    timestamp: Time,
    messageTokens: nat,
    responseTokens: nat,
    totalExchangeTokens: nat,
    cumulativeTokens: nat)

  /** `token_info` of a successful chat: the pre-call breakdown extended
      with the reply's estimate, the exchange total and the session total. */
  datatype ExchangeTokens = ExchangeTokens(
    usage: TokenUsage,
    responseTokens: nat,
    totalExchangeTokens: nat,
    sessionTotalTokens: nat)

  /** `session_info` of a successful chat; `elapsed` is `last_activity -
      created_at` in microseconds rather than fractional minutes. */
  datatype SessionInfo = SessionInfo(
    sessionId: string,
    pdfFilename: Option<string>,
    conversationLength: nat,
    elapsed: int)

  /** The dictionary `chat` returns: `success` false with an error (no
      response, no token info), or `success` true with the reply. */
  datatype ChatResult =
    | ChatFailed(error: string)
    | ChatOk(response: string, tokenInfo: ExchangeTokens, sessionInfo: SessionInfo)

  /** `pdf_info` of the summary; `info` is `None` where `self.pdf_info` is `{}`. */
  datatype PdfSummary = PdfSummary(
    filename: Option<string>,
    loaded: bool,
    contentLength: nat,
    estimatedTokens: nat,
    info: Option<PdfInfo>)

  /** `get_session_summary` without its floating-point figures. */
  datatype Summary = Summary(
    sessionId: string,
    createdAt: Time,
    lastActivity: Time,
    elapsed: int,
    pdf: PdfSummary,
    messageCount: nat,
    totalTokensUsed: nat,
    recentUsage: seq<UsageRecord>)

  /** `_generate_session_id`, with the `%Y%m%d_%H%M%S` timestamp as input. */
  function GenerateSessionId(stamp: string): (id: string)
    ensures |id| == |SessionIdPrefix| + |stamp|
    ensures id[..|SessionIdPrefix|] == SessionIdPrefix && id[|SessionIdPrefix|..] == stamp
  {
    SessionIdPrefix + stamp
  }

  /** `is_session_expired`: strictly more than `timeoutMinutes` have passed
      since the last activity. */
  predicate ExpiredAt(lastActivity: Time, now: Time, timeoutMinutes: int) {
    now - lastActivity > timeoutMinutes * MicrosPerMinute
  }

  /** A session active at `now` is never expired, for any timeout >= 0. */
  lemma ActiveNowNotExpired(t: Time, timeoutMinutes: int)
    requires timeoutMinutes >= 0
    ensures !ExpiredAt(t, t, timeoutMinutes)
  {
  }

  /** Expired under one timeout means expired under every shorter one. */
  lemma ExpiryMonotone(lastActivity: Time, now: Time, timeoutMinutes: int, shorter: int)
    requires shorter <= timeoutMinutes && ExpiredAt(lastActivity, now, timeoutMinutes)
    ensures ExpiredAt(lastActivity, now, shorter)
  {
  }

  /** Idle for a minute longer than the timeout means expired. */
  lemma IdlePastTimeoutExpired(now: Time, timeoutMinutes: int)
    ensures ExpiredAt(now - (timeoutMinutes + 1) * MicrosPerMinute, now, timeoutMinutes)
  {
  }

  /** Python's `seq[-n:]` for n >= 0: the last `n` elements, or all of them. */
  function LastN<T>(s: seq<T>, n: nat): (r: seq<T>)
    ensures |r| == if |s| <= n then |s| else n
    ensures r == s[|s| - |r|..]
  {
    if |s| <= n then s else s[|s| - n..]
  }

  /** The sum of the exchange totals of a usage log. */
  function ExchangeSum(usage: seq<UsageRecord>): nat {
    if usage == [] then 0
    else ExchangeSum(usage[..|usage| - 1]) + usage[|usage| - 1].totalExchangeTokens
  }

  /** The bookkeeping a session keeps consistent, read from the latest
      exchange back: the history is a sequence of (user, assistant) pairs,
      one usage record per pair, each record's cumulative figure is the
      session total at the time, and the total before it is what remains
      after taking its exchange away (0 once nothing is left). */
  ghost predicate LedgerConsistent(history: seq<Turn>, usage: seq<UsageRecord>, total: nat)
    decreases |usage|
  {
    if usage == [] then history == [] && total == 0
    else
      var last := usage[|usage| - 1];
      && |history| >= 2
      && history[|history| - 2].role == User
      && history[|history| - 1].role == Assistant
      && last.cumulativeTokens == total
      && last.totalExchangeTokens <= total
      && LedgerConsistent(history[..|history| - 2], usage[..|usage| - 1], total - last.totalExchangeTokens)
  }

  /** The conversation state of a session: its history, its usage log and
      its running token total. */
  datatype Ledger = Ledger(history: seq<Turn>, usage: seq<UsageRecord>, total: nat)

  /** The ledger after one exchange booked at `sentAt`: the user's turn and
      the reply appended, and a usage record for the pre-call breakdown `u`
      plus the reply's estimate, carrying the new running total. */
  function Booked(l: Ledger, message: string, sentAt: Time, response: string, repliedAt: Time,
                  u: TokenUsage): Ledger
  {
    var responseTokens := EstimateTokens(response);
    var exchange := u.totalTokens + responseTokens;
    Ledger(l.history + [Turn(User, message, sentAt), Turn(Assistant, response, repliedAt)],
           l.usage + [UsageRecord(sentAt, u.messageTokens, responseTokens, exchange, l.total + exchange)],
           l.total + exchange)
  }

  /** Booking an exchange keeps the ledger consistent and only appends:
      what was there before is untouched, two turns and one record are
      added, and the total grows by the exchange's tokens. */
  lemma ExchangeKeepsLedger(l: Ledger, message: string, sentAt: Time, response: string,
                            repliedAt: Time, u: TokenUsage)
    requires LedgerConsistent(l.history, l.usage, l.total)
    ensures var r := Booked(l, message, sentAt, response, repliedAt, u);
      && LedgerConsistent(r.history, r.usage, r.total)
      && |r.history| == |l.history| + 2 && r.history[..|l.history|] == l.history
      && |r.usage| == |l.usage| + 1 && r.usage[..|l.usage|] == l.usage
      && r.total == l.total + u.totalTokens + EstimateTokens(response)
  {
    var r := Booked(l, message, sentAt, response, repliedAt, u);
    assert r.history[..|r.history| - 2] == l.history;
    assert r.usage[..|r.usage| - 1] == l.usage;
  }

  /** The ledger read position by position: two turns per record, turn `i`
      is the user's when `i` is even and the assistant's when it is odd,
      record `i` carries the sum of the first `i + 1` exchanges and the
      session total is the sum of them all. */
  lemma {:induction false} LedgerPointwise(history: seq<Turn>, usage: seq<UsageRecord>, total: nat)
    requires LedgerConsistent(history, usage, total)
    ensures |history| == 2 * |usage|
    ensures forall i :: 0 <= i < |history| ==> history[i].role == if i % 2 == 0 then User else Assistant
    ensures forall i :: 0 <= i < |usage| ==> usage[i].cumulativeTokens == ExchangeSum(usage[..i + 1])
    ensures total == ExchangeSum(usage)
    decreases |usage|
  {
    if usage != [] {
      var last := usage[|usage| - 1];
      var h, u := history[..|history| - 2], usage[..|usage| - 1];
      LedgerPointwise(h, u, total - last.totalExchangeTokens);
      forall i | 0 <= i < |history|
        ensures history[i].role == if i % 2 == 0 then User else Assistant
      {
        if i < |h| {
          assert history[i] == h[i];
        }
      }
      forall i | 0 <= i < |usage|
        ensures usage[i].cumulativeTokens == ExchangeSum(usage[..i + 1])
      {
        if i < |u| {
          assert usage[..i + 1] == u[..i + 1];
        } else {
          assert usage[..i + 1] == usage;
        }
      }
    }
  }

  /** In a consistent ledger the history has even length and the session
      total is the cumulative figure of the last record (0 with none). */
  lemma LedgerTotals(history: seq<Turn>, usage: seq<UsageRecord>, total: nat)
    requires LedgerConsistent(history, usage, total)
    ensures |history| % 2 == 0
    ensures total == if usage == [] then 0 else usage[|usage| - 1].cumulativeTokens
  {
    LedgerPointwise(history, usage, total);
  }

  class PdfChatSession {
    const sessionId: string
    /** The texts of the session's `llm_client` (the shared client). */
    const prompts: Prompts
    var pdfContent: Option<string>
    var pdfFilename: Option<string>
    /** `None` stands for the empty dictionary `{}`. */
    var pdfInfo: Option<PdfInfo>
    var conversationHistory: seq<Turn>
    const createdAt: Time
    var lastActivity: Time
    var totalTokensUsed: nat
    var tokenUsageHistory: seq<UsageRecord>

    ghost predicate Valid()
      reads this
    {
      LedgerConsistent(conversationHistory, tokenUsageHistory, totalTokensUsed)
    }

    /** The session's conversation state as a value. */
    function CurrentLedger(): Ledger
      reads this
    {
      Ledger(conversationHistory, tokenUsageHistory, totalTokensUsed)
    }

    /** `__init__`: a requested id that is absent or empty is replaced by a
        generated one (Python's `or`); `client` holds the texts of the shared
        client `get_gemini_client()` returns (`Templates`). */
    constructor (requestedId: Option<string>, stamp: string, now: Time, client: Prompts)
      ensures Valid()
      ensures sessionId == if requestedId.Some? && requestedId.value != ""
                           then requestedId.value else GenerateSessionId(stamp)
      ensures pdfContent == None && pdfFilename == None && pdfInfo == None
      ensures conversationHistory == [] && tokenUsageHistory == [] && totalTokensUsed == 0
      ensures createdAt == now && lastActivity == now
      ensures prompts == client
    {
      prompts := client;
      sessionId := if requestedId.Some? && requestedId.value != ""
                   then requestedId.value else GenerateSessionId(stamp);
      pdfContent := None;
      pdfFilename := None;
      pdfInfo := None;
      conversationHistory := [];
      createdAt := now;
      lastActivity := now;
      totalTokensUsed := 0;
      tokenUsageHistory := [];
    }

    /** Python truthiness of `self.pdf_content`. */
    predicate HasPdf()
      reads this
    {
      HasContent(pdfContent)
    }

    /** `load_pdf`: a missing file changes nothing; otherwise the info and
        the file name are overwritten first, and the content only when the
        extracted text is non-empty. History, counters and timestamps are
        outside its frame. */
    method LoadPdf(path: string, fileExists: bool, info: PdfInfo, extraction: Extraction)
      returns (ok: bool)
      modifies this`pdfContent, this`pdfFilename, this`pdfInfo
      ensures ok <==> fileExists && extraction.text != ""
      ensures !fileExists ==> pdfInfo == old(pdfInfo) && pdfFilename == old(pdfFilename)
      ensures fileExists ==> pdfInfo == Some(info) && pdfFilename == Some(Basename(path))
      ensures pdfContent == if ok then Some(extraction.text) else old(pdfContent)
      ensures ok ==> HasPdf()
    {
      if !fileExists {
        return false;
      }
      pdfInfo := Some(info);
      pdfFilename := Some(Basename(path));
      if extraction.text == "" {
        return false;
      }
      pdfContent := Some(extraction.text);
      return true;
    }

    /** `chat`: without a PDF it fails and changes nothing (and nothing is
        sent); otherwise it is an `Exchange`. */
    method Chat(message: string, now: Time, replyTime: Time, reply: SdkReply,
                repr: seq<Turn> -> string)
      returns (result: ChatResult, sent: Option<Request>)
      requires Valid()
      modifies this`lastActivity, this`conversationHistory, this`totalTokensUsed, this`tokenUsageHistory
      ensures Valid()
      ensures !old(HasPdf()) ==> result == ChatFailed(NoPdfError) && sent == None && unchanged(this)
      ensures old(HasPdf()) ==> sent.Some? && ExchangeDone(message, now, replyTime, reply, repr, result, sent.value)
    {
      if !HasPdf() {
        return ChatFailed(NoPdfError), None;
      }
      var request;
      result, request := Exchange(message, now, replyTime, reply, repr);
      sent := Some(request);
    }

    /** What a completed exchange leaves behind, against the state before it:
        the activity time is `now`; the ledger is the old one with the
        exchange booked (the user turn at `now`, the reply at `replyTime`,
        the breakdown taken before the call); the result carries the reply,
        the breakdown with the exchange's figures and the session's figures;
        and the provider was handed the prior history turn by turn and the
        message with the full content injected. */
    twostate predicate ExchangeDone(message: string, now: Time, replyTime: Time, reply: SdkReply,
                                    repr: seq<Turn> -> string, result: ChatResult, sent: Request)
      reads this
    {
      var usage := TokenUsageInfo(prompts, message, pdfContent, old(conversationHistory), repr);
      var response := ReplyText(reply);
      && lastActivity == now
      && CurrentLedger() == Booked(old(CurrentLedger()), message, now, response, replyTime, usage)
      && result == Reply(response, usage)
      && sent == Request(ProviderHistory(old(conversationHistory)), ComposeMessage(prompts, message, pdfContent))
    }

    /** The dictionary of a successful `chat`, built from the state after
        the exchange: the reply, the pre-call breakdown extended with the
        reply's estimate, the exchange total and the session total, and the
        session's id, file name, history length and age. */
    function Reply(response: string, usage: TokenUsage): (r: ChatResult)
      reads this
    {
      var responseTokens := EstimateTokens(response);
      ChatOk(response,
             ExchangeTokens(usage, responseTokens, usage.totalTokens + responseTokens, totalTokensUsed),
             SessionInfo(sessionId, pdfFilename, |conversationHistory|, lastActivity - createdAt))
    }

    /** The body of `chat` once a PDF is loaded. `repr` stands for `str()` of
        the history; `replyTime` is the clock when the reply came in. */
    method Exchange(message: string, now: Time, replyTime: Time, reply: SdkReply,
                    repr: seq<Turn> -> string)
      returns (result: ChatResult, sent: Request)
      requires Valid() && HasPdf()
      modifies this`lastActivity, this`conversationHistory, this`totalTokensUsed, this`tokenUsageHistory
      ensures Valid()
      ensures ExchangeDone(message, now, replyTime, reply, repr, result, sent)
    {
      var content := pdfContent;
      lastActivity := now;
      var tokenInfo := TokenUsageInfo(prompts, message, content, conversationHistory, repr);
      var response;
      response, sent := LlmClient.Chat(prompts, message, content, conversationHistory, reply);
      Book(message, response, replyTime, tokenInfo);
      result := Reply(response, tokenInfo);
      assert pdfContent == content;
    }

    /** The bookkeeping of `chat` after the provider answered: the user's
        turn (stamped with the activity time) and the reply are appended,
        the exchange's tokens are added to the total and a usage record is
        logged. */
    method Book(message: string, response: string, replyTime: Time, tokenInfo: TokenUsage)
      requires Valid()
      modifies this`conversationHistory, this`totalTokensUsed, this`tokenUsageHistory
      ensures Valid()
      ensures CurrentLedger() == Booked(old(CurrentLedger()), message, lastActivity, response, replyTime, tokenInfo)
    {
      ghost var before := CurrentLedger();
      ExchangeKeepsLedger(before, message, lastActivity, response, replyTime, tokenInfo);
      conversationHistory := conversationHistory + [Turn(User, message, lastActivity)];
      conversationHistory := conversationHistory + [Turn(Assistant, response, replyTime)];
      var responseTokens := EstimateTokens(response);
      var totalMessageTokens := tokenInfo.totalTokens + responseTokens;
      totalTokensUsed := totalTokensUsed + totalMessageTokens;
      tokenUsageHistory := tokenUsageHistory + [UsageRecord(lastActivity, tokenInfo.messageTokens, responseTokens,
                                                            totalMessageTokens, totalTokensUsed)];
      assert CurrentLedger() == Booked(before, message, lastActivity, response, replyTime, tokenInfo);
    }

    /** `get_session_summary` at time `now`. */
    function GetSessionSummary(now: Time): (s: Summary)
      reads this
      ensures s.sessionId == sessionId && s.elapsed == now - createdAt
      ensures s.createdAt == createdAt && s.lastActivity == lastActivity
      ensures s.messageCount == |conversationHistory| && s.totalTokensUsed == totalTokensUsed
      ensures s.pdf.loaded == HasPdf() && s.pdf.filename == pdfFilename && s.pdf.info == pdfInfo
      ensures s.pdf.contentLength == if HasPdf() then |pdfContent.value| else 0
      ensures s.pdf.estimatedTokens == if HasPdf() then EstimateTokens(pdfContent.value) else 0
      ensures |s.recentUsage| == if |tokenUsageHistory| <= RecentUsageWindow then |tokenUsageHistory|
                                 else RecentUsageWindow
      ensures s.recentUsage == tokenUsageHistory[|tokenUsageHistory| - |s.recentUsage|..]
      ensures |tokenUsageHistory| <= RecentUsageWindow ==> s.recentUsage == tokenUsageHistory
    {
      var loaded := HasPdf();
      Summary(sessionId, createdAt, lastActivity, now - createdAt,
              PdfSummary(pdfFilename, loaded,
                         if loaded then |pdfContent.value| else 0,
                         if loaded then EstimateTokens(pdfContent.value) else 0,
                         pdfInfo),
              |conversationHistory|, totalTokensUsed,
              LastN(tokenUsageHistory, RecentUsageWindow))
    }

    /** In the summary of a consistent session the message count is twice
        the number of usage records, and the latest reported record carries
        the session total. */
    lemma SummaryAgrees(now: Time)
      requires Valid()
      ensures var s := GetSessionSummary(now);
        && s.messageCount == 2 * |tokenUsageHistory|
        && (s.recentUsage != [] ==> s.recentUsage[|s.recentUsage| - 1].cumulativeTokens == s.totalTokensUsed)
    {
      LedgerPointwise(conversationHistory, tokenUsageHistory, totalTokensUsed);
      LedgerTotals(conversationHistory, tokenUsageHistory, totalTokensUsed);
    }

    /** `is_session_expired(timeout_minutes)` evaluated at `now`. */
    predicate IsSessionExpired(now: Time, timeoutMinutes: int)
      reads this
    {
      ExpiredAt(lastActivity, now, timeoutMinutes)
    }

    /** `clear_conversation`: history, usage log and total back to empty;
        the PDF fields are outside its frame. */
    method ClearConversation()
      modifies this`conversationHistory, this`tokenUsageHistory, this`totalTokensUsed
      ensures Valid()
      ensures conversationHistory == [] && tokenUsageHistory == [] && totalTokensUsed == 0
    {
      conversationHistory := [];
      tokenUsageHistory := [];
      totalTokensUsed := 0;
    }

    /** `unload_pdf`: drops the PDF and everything `clear_conversation` clears. */
    method UnloadPdf()
      modifies this`pdfContent, this`pdfFilename, this`pdfInfo,
               this`conversationHistory, this`tokenUsageHistory, this`totalTokensUsed
      ensures Valid() && !HasPdf()
      ensures pdfContent == None && pdfFilename == None && pdfInfo == None
      ensures conversationHistory == [] && tokenUsageHistory == [] && totalTokensUsed == 0
    {
      pdfContent := None;
      pdfFilename := None;
      pdfInfo := None;
      ClearConversation();
    }
  }

  /** The module-level `active_sessions` dictionary and the functions over it. */
  class SessionRegistry {
    var activeSessions: map<string, PdfChatSession>

    /** Every session is filed under its own id. */
    ghost predicate Valid()
      reads this
    {
      forall id :: id in activeSessions ==> activeSessions[id].sessionId == id
    }

    constructor ()
      ensures Valid() && activeSessions == map[]
    {
      activeSessions := map[];
    }

    /** The ids whose sessions are expired at `now`. */
    ghost function ExpiredIds(now: Time, timeoutMinutes: int): set<string>
      reads this, activeSessions.Values
    {
      set id | id in activeSessions && activeSessions[id].IsSessionExpired(now, timeoutMinutes)
    }

    /** `create_session`: a fresh session filed under its id, silently
        replacing any session already there. */
    method CreateSession(requestedId: Option<string>, stamp: string, now: Time, client: Prompts)
      returns (session: PdfChatSession)
      requires Valid()
      modifies this
      ensures Valid() && fresh(session) && session.Valid()
      ensures session.sessionId == if requestedId.Some? && requestedId.value != ""
                                   then requestedId.value else GenerateSessionId(stamp)
      ensures session.conversationHistory == [] && session.tokenUsageHistory == [] && session.totalTokensUsed == 0
      ensures session.pdfContent == None && session.pdfFilename == None && session.pdfInfo == None
      ensures session.createdAt == now && session.lastActivity == now && session.prompts == client
      ensures activeSessions == old(activeSessions)[session.sessionId := session]
    {
      session := new PdfChatSession(requestedId, stamp, now, client);
      activeSessions := activeSessions[session.sessionId := session];
    }

    /** `get_session`: the session filed under `id`, if any. */
    function GetSession(id: string): (r: Option<PdfChatSession>)
      requires Valid()
      reads this
      ensures r.Some? <==> id in activeSessions
      ensures r.Some? ==> r.value == activeSessions[id] && r.value.sessionId == id
    {
      if id in activeSessions then Some(activeSessions[id]) else None
    }

    /** The first loop of `cleanup_expired_sessions`: the ids of the expired
        sessions, each once, in some order of the map. */
    method CollectExpired(now: Time, timeoutMinutes: int) returns (expiredSessions: seq<string>)
      ensures forall id :: id in expiredSessions <==> id in ExpiredIds(now, timeoutMinutes)
      ensures |expiredSessions| == |ExpiredIds(now, timeoutMinutes)|
    {
      expiredSessions := [];
      ghost var collected: set<string> := {};
      ghost var visited: set<string> := {};
      var remaining := activeSessions.Keys;
      while remaining != {}
        invariant remaining + visited == activeSessions.Keys && remaining !! visited
        invariant collected == set id | id in visited && activeSessions[id].IsSessionExpired(now, timeoutMinutes)
        invariant |expiredSessions| == |collected|
        invariant forall id :: id in expiredSessions <==> id in collected
        decreases remaining
      {
        var id :| id in remaining;
        if activeSessions[id].IsSessionExpired(now, timeoutMinutes) {
          expiredSessions := expiredSessions + [id];
          collected := collected + {id};
        }
        visited := visited + {id};
        remaining := remaining - {id};
      }
      assert collected == ExpiredIds(now, timeoutMinutes);
    }

    /** `cleanup_expired_sessions`: collect the expired ids, then delete
        them; exactly the expired sessions go, the others stay as they were,
        and the count of removed sessions is returned. */
    method CleanupExpiredSessions(now: Time, timeoutMinutes: int) returns (count: nat)
      requires Valid()
      modifies this
      ensures Valid()
      ensures count == |old(ExpiredIds(now, timeoutMinutes))|
      ensures activeSessions.Keys == old(activeSessions.Keys) - old(ExpiredIds(now, timeoutMinutes))
      ensures forall id :: id in activeSessions ==> activeSessions[id] == old(activeSessions)[id]
    {
      var expiredSessions := CollectExpired(now, timeoutMinutes);
      ghost var expired := ExpiredIds(now, timeoutMinutes);
      ghost var deleted: set<string> := {};
      for i := 0 to |expiredSessions|
        invariant deleted == set k | k in expiredSessions[..i]
        invariant activeSessions.Keys == old(activeSessions.Keys) - deleted
        invariant forall id :: id in activeSessions ==> activeSessions[id] == old(activeSessions)[id]
      {
        assert expiredSessions[..i + 1] == expiredSessions[..i] + [expiredSessions[i]];
        activeSessions := activeSessions - {expiredSessions[i]};
        deleted := deleted + {expiredSessions[i]};
      }
      assert expiredSessions[..|expiredSessions|] == expiredSessions;
      assert deleted == expired;
      count := |expiredSessions|;
    }

    /** `get_all_sessions`: a copy of the registry's map. Dafny maps are
        values, so nothing done to the copy reaches the registry. */
    method GetAllSessions() returns (snapshot: map<string, PdfChatSession>)
      ensures snapshot.Keys == activeSessions.Keys
      ensures forall id :: id in snapshot ==> snapshot[id] == activeSessions[id]
    {
      snapshot := activeSessions;
    }
  }
}
