/** The message handler of app/app.py (`VkBot.handle_message`): the
    normalisation of the incoming text, the early replies (start command,
    empty text, profanity), the intent signals (yes/no question, list
    request, relatedness), the routing of a list request to the audience
    lister, the context given to the language model, the link gate on its
    answer and the apology when it fails. The spelling corrector, the
    toxicity classifier, the scorer and the language model are services the
    handler is given. */
module Bot {
  import opened Wrappers
  import opened Text
  import opened Ranking
  import opened Storage
  import opened AppRetrieval
  import opened AppLister

  /** The arguments of one `ask_gigachat` call. */
  datatype LlmRequest = LlmRequest(question: string, context: string, external: bool, isBinary: bool, isList: bool)

  /** The handler's collaborators: `correct_spelling`, `contains_profanity`,
      the similarity of a query to a stored vector, and `ask_gigachat`, whose
      answer is None when it raises. */
  datatype Services = Services(
    correct: string -> string,
    toxic: string -> bool,
    score: Scorer,
    ask: LlmRequest -> Option<string>)

  /** A `message_new` event: its `from_id` and `text`, None when absent. */
  datatype Event = Event(fromId: Option<int>, text: Option<string>)

  /** One `messages.send` call. */
  datatype Message = Message(userId: int, text: string)

  const Greeting: string := "Привет! Я бот VK Education. Задай мне вопрос о проектах."
  const EmptyPrompt: string := "Пожалуйста, напиши текст вопроса."
  const ProfanityWarning: string :=
    "⚠️ Пожалуйста, избегайте нецензурной лексики. Я помогу, если вы переформулируете вопрос корректно."
  const LlmError: string := "Произошла ошибка при обращении к GigaChat."

  /** The triggers of a yes/no question. */
  const YesNoTriggers: seq<string> := ["возможно ли", "можно ли", "нельзя ли", "имею ли право", "допускается ли"]

  /** The audience words of a list request, in the order they are tried. */
  const Audiences: seq<string> := ["студент", "школьник", "специалист", "преподаватель", "абитуриент", "учащийся", "выпускник"]

  /** The words of an answer that call for links. */
  const LinkKeywords: seq<string> := ["проект", "участие", "курс", "обучение", "программа", "vk education"]

  /** How many passages the context takes, and how many links an answer gets. */
  const ContextPassages: nat := 6
  const AnswerLinks: nat := 3

  /** What is put between an answer and its links. */
  const LinksHeader: string := "\n\n\U{1F517} Подробнее: \n"

  /** `get_intro_text`: the fixed introduction to VK Education. */
  const IntroText: string :=
    "VK Education — это платформа, включающая множество бесплатных образовательных программ для студентов, школьников и специалистов. "
    + "Пользователи могут проходить курсы, участвовать в мероприятиях, подавать заявки на участие в нескольких проектах при условии соответствия требованиям каждой программы. "
    + "Участие в нескольких проектах одновременно возможно, если не возникает конфликтов по времени и требованиям."

  /** `text.strip().lower()`. */
  function Normalise(raw: string): string
  {
    Lower(Strip(raw))
  }

  predicate IsStart(text: string)
  {
    text == "/start" || text == "начать"
  }

  /** The index of the first word of `words` that occurs in `s`. */
  function FirstMatch(s: string, words: seq<string>): (m: Option<nat>)
    ensures m.None? <==> forall j :: 0 <= j < |words| ==> !Contains(s, words[j])
    ensures m.Some? ==>
      && m.value < |words| && Contains(s, words[m.value])
      && forall j :: 0 <= j < m.value ==> !Contains(s, words[j])
  {
    if words == [] then None
    else if Contains(s, words[0]) then Some(0)
    else
      var rest := FirstMatch(s, words[1..]);
      assert forall j :: 1 <= j < |words| ==> words[j] == words[1..][j - 1];
      if rest.None? then None else Some(rest.value + 1)
  }

  /** `is_vke_related(corrected_text)`: some row scores above 0.4. */
  predicate Related(rows: seq<Row>, svc: Services, c: string)
  {
    SomeAbove(Scores(rows, c, svc.score), RelatedThreshold)
  }

  /** The context handed to the language model. */
  function ContextFor(rows: seq<Row>, svc: Services, c: string, external: bool): string
  {
    if external then "" else IntroText + "\n\n" + TopContextText(rows, c, svc.score, ContextPassages)
  }

  /** The request the handler sends for the corrected text `c`. */
  function RequestFor(rows: seq<Row>, svc: Services, c: string): LlmRequest
  {
    var external := !Related(rows, svc, c);
    LlmRequest(c, ContextFor(rows, svc, c, external), external, ContainsAny(c, YesNoTriggers), IsListRequest(c))
  }

  /** The answer calls for links: the question is related and the lower-cased
      answer mentions one of the link keywords. */
  predicate WantsLinks(external: bool, answer: string)
  {
    !external && ContainsAny(Lower(answer), LinkKeywords)
  }

  /** The reply built from the model's answer, or the apology when it failed. */
  function LlmReply(rows: seq<Row>, svc: Services, req: LlmRequest): string
  {
    match svc.ask(req)
    case None => LlmError
    case Some(answer) =>
      if WantsLinks(req.external, answer)
      then answer + LinksHeader + HelpLinkText(rows, req.question, svc.score, AnswerLinks, LinkThreshold)
      else answer
  }

  /** The reply to the corrected text `c` of a non-empty message; None when
      nothing is sent (the lister's `TypeError` on a row with no URL). */
  function AnswerTo(rows: seq<Row>, svc: Services, c: string): Option<string>
  {
    if svc.toxic(c) then Some(ProfanityWarning)
    else
      var audience := FirstMatch(c, Audiences);
      if IsListRequest(c) && audience.Some? then
        if AllUrls(rows) then Some(ListingText(rows, Audiences[audience.value])) else None
      else Some(LlmReply(rows, svc, RequestFor(rows, svc, c)))
  }

  /** The reply to a normalised text. */
  function Respond(rows: seq<Row>, svc: Services, text: string): Option<string>
  {
    if IsStart(text) then Some(Greeting)
    else if text == [] then Some(EmptyPrompt)
    else AnswerTo(rows, svc, svc.correct(text))
  }

  /** The messages sent for an event: nothing when it lacks a sender or a
      text (the `KeyError` that the outer handler swallows). */
  function Outgoing(rows: seq<Row>, svc: Services, event: Event): seq<Message>
  {
    if event.fromId.None? || event.text.None? then []
    else match Respond(rows, svc, Normalise(event.text.value))
      case None => []
      case Some(reply) => [Message(event.fromId.value, reply)]
  }

  class VkBot {
    /** The knowledge store the handler reads. */
    const store: Store<Row>
    const services: Services
    /** The messages sent so far, in order. */
    var sent: seq<Message>

    constructor (store: Store<Row>, services: Services)
      ensures this.store == store && this.services == services && sent == []
    {
      this.store := store;
      this.services := services;
      sent := [];
    }

    /** `send_message`. */
    method SendMessage(userId: int, message: string)
      modifies this
      ensures sent == old(sent) + [Message(userId, message)]
    {
      sent := sent + [Message(userId, message)];
    }

    /** `handle_message`: at most one message is sent, the one `Outgoing`
        describes; the store is only read. */
    method HandleMessage(event: Event)
      modifies this
      ensures sent == old(sent) + Outgoing(store.rows, services, event)
    {
      if event.fromId.None? || event.text.None? {
        return;
      }
      var userId := event.fromId.value;
      var text := Lower(Strip(event.text.value));
      if text == "/start" || text == "начать" {
        SendMessage(userId, Greeting);
        return;
      }
      if text == [] {
        SendMessage(userId, EmptyPrompt);
        return;
      }
      var corrected := services.correct(text);
      var reply := Answer(corrected);
      if reply.Some? {
        SendMessage(userId, reply.value);
      }
    }

    /** The part of `handle_message` after the corrected text is known. */
    method Answer(corrected: string) returns (reply: Option<string>)
      ensures reply == AnswerTo(store.rows, services, corrected)
    {
      if services.toxic(corrected) {
        return Some(ProfanityWarning);
      }
      var isBinary := ContainsAny(corrected, YesNoTriggers);
      var isList := IsListRequest(corrected);
      var related := IsVkeRelated(store.rows, corrected, services.score, RelatedThreshold);
      var external := !related;
      if isList {
        var audience := PickAudience(corrected);
        if audience.Some? {
          reply := ListProjectsForAudience(store.rows, audience.value);
          return;
        }
      }
      var context := BuildContext(corrected, external);
      var request := LlmRequest(corrected, context, external, isBinary, isList);
      assert request == RequestFor(store.rows, services, corrected);
      var answer := AskModel(request);
      return Some(answer);
    }

    /** The audience loop of `handle_message`: the first audience word, in
        the fixed order, that occurs in the corrected text. */
    method PickAudience(corrected: string) returns (audience: Option<string>)
      ensures audience.None? <==> FirstMatch(corrected, Audiences).None?
      ensures audience.Some? ==> audience.value == Audiences[FirstMatch(corrected, Audiences).value]
    {
      var i := 0;
      while i < |Audiences|
        invariant 0 <= i <= |Audiences|
        invariant forall j :: 0 <= j < i ==> !Contains(corrected, Audiences[j])
      {
        if Contains(corrected, Audiences[i]) {
          FirstMatchIsFirst(corrected, Audiences, i);
          return Some(Audiences[i]);
        }
        i := i + 1;
      }
      return None;
    }

    /** The context choice of `handle_message`. */
    method BuildContext(corrected: string, external: bool) returns (context: string)
      ensures context == ContextFor(store.rows, services, corrected, external)
    {
      if external {
        context := "";
      } else {
        var dynamic := GetTopContext(store.rows, corrected, services.score, ContextPassages);
        context := IntroText + "\n\n" + dynamic;
      }
    }

    /** The call to the language model and the link gate on its answer. */
    method AskModel(request: LlmRequest) returns (answer: string)
      ensures answer == LlmReply(store.rows, services, request)
    {
      var result := services.ask(request);
      if result.None? {
        return LlmError;
      }
      answer := result.value;
      if !request.external && ContainsAny(Lower(answer), LinkKeywords) {
        var links := GenerateHelpLink(store.rows, request.question, services.score, AnswerLinks, LinkThreshold);
        answer := answer + LinksHeader + links;
      }
    }
  }

  // ---------------------------------------------------------------------
  // Properties of the handler

  /** The start command wins over every other check, whatever the store and
      the services, and however it is cased or padded. */
  lemma StartCommandFirst(rows: seq<Row>, svc: Services, raw: string)
    requires IsStart(Normalise(raw))
    ensures Respond(rows, svc, Normalise(raw)) == Some(Greeting)
  {
  }

  /** An empty (or all-whitespace) message gets the prompt, whatever the
      store and the services. */
  lemma EmptyTextPrompt(rows: seq<Row>, svc: Services, raw: string)
    requires forall k :: 0 <= k < |raw| ==> IsSpace(raw[k])
    ensures Respond(rows, svc, Normalise(raw)) == Some(EmptyPrompt)
  {
    StripTrims(raw);
  }

  /** A toxic corrected text gets only the warning: the reply depends
      neither on the store, the scorer nor the language model. */
  lemma ToxicStops(rows: seq<Row>, rows2: seq<Row>, svc: Services, svc2: Services, c: string)
    requires svc.toxic(c) && svc2.toxic(c)
    ensures AnswerTo(rows, svc, c) == AnswerTo(rows2, svc2, c) == Some(ProfanityWarning)
  {
  }

  /** A list request that names an audience is answered by the lister for
      the first audience word in the fixed order, without the language
      model: the reply does not depend on `ask`. */
  lemma ListRequestSkipsModel(rows: seq<Row>, svc: Services, ask2: LlmRequest -> Option<string>, c: string, i: int)
    requires !svc.toxic(c) && IsListRequest(c)
    requires 0 <= i < |Audiences| && Contains(c, Audiences[i])
    requires forall j :: 0 <= j < i ==> !Contains(c, Audiences[j])
    ensures AnswerTo(rows, svc, c) == AnswerTo(rows, svc.(ask := ask2), c)
    ensures AnswerTo(rows, svc, c) == if AllUrls(rows) then Some(ListingText(rows, Audiences[i])) else None
  {
    FirstMatchIsFirst(c, Audiences, i);
  }

  /** The first match is the one before which nothing matches. */
  lemma FirstMatchIsFirst(s: string, words: seq<string>, i: int)
    requires 0 <= i < |words| && Contains(s, words[i])
    requires forall j :: 0 <= j < i ==> !Contains(s, words[j])
    ensures FirstMatch(s, words) == Some(i)
  {
  }

  /** The model is asked exactly when the text is not toxic and is not a
      list request naming an audience; it then answers the corrected text. */
  lemma ModelAskedOtherwise(rows: seq<Row>, svc: Services, c: string)
    requires !svc.toxic(c)
    requires !IsListRequest(c) || forall j :: 0 <= j < |Audiences| ==> !Contains(c, Audiences[j])
    ensures AnswerTo(rows, svc, c) == Some(LlmReply(rows, svc, RequestFor(rows, svc, c)))
    ensures RequestFor(rows, svc, c).question == c
  {
  }

  /** The request flags: a yes/no question exactly when one of the five
      triggers occurs, a list request exactly when one of the list triggers
      occurs in the lower-cased text, external exactly when no row scores
      above 0.4. */
  lemma RequestFlags(rows: seq<Row>, svc: Services, c: string)
    ensures RequestFor(rows, svc, c).isBinary <==> exists i :: 0 <= i < |YesNoTriggers| && Contains(c, YesNoTriggers[i])
    ensures RequestFor(rows, svc, c).isList <==> exists i :: 0 <= i < |ListTriggers| && Contains(Lower(c), ListTriggers[i])
    ensures RequestFor(rows, svc, c).external <==> forall i :: 0 <= i < |rows| && rows[i].embedding.Some? ==>
      svc.score(c, rows[i].embedding.value) <= RelatedThreshold
  {
    var s := Scores(rows, c, svc.score);
    assert forall i :: 0 <= i < |rows| && rows[i].embedding.Some? ==>
      s[i] == Some(svc.score(c, rows[i].embedding.value));
  }

  /** The context is empty exactly when the question is external; otherwise
      it is the introduction, a blank line and the top six passages. */
  lemma ContextEmptyIffExternal(rows: seq<Row>, svc: Services, c: string, external: bool)
    ensures ContextFor(rows, svc, c, external) == [] <==> external
    ensures !external ==> StartsWith(ContextFor(rows, svc, c, external), IntroText + "\n\n")
  {
    if !external {
      var ctx := ContextFor(rows, svc, c, external);
      assert |IntroText| > 0;
      assert ctx[..|IntroText + "\n\n"|] == IntroText + "\n\n";
    }
  }

  /** Links are appended exactly when the question is related and the
      answer mentions a link keyword; they follow the answer and the header. */
  lemma LinksAppendedIff(rows: seq<Row>, svc: Services, req: LlmRequest, answer: string)
    requires svc.ask(req) == Some(answer)
    ensures LlmReply(rows, svc, req) == answer <==> !WantsLinks(req.external, answer)
    ensures WantsLinks(req.external, answer) ==>
      && StartsWith(LlmReply(rows, svc, req), answer + LinksHeader)
      && LlmReply(rows, svc, req)[|answer + LinksHeader|..] == HelpLinkText(rows, req.question, svc.score, AnswerLinks, LinkThreshold)
  {
    if WantsLinks(req.external, answer) {
      var r := LlmReply(rows, svc, req);
      assert |r| > |answer|;
      assert r[..|answer + LinksHeader|] == answer + LinksHeader;
    }
  }

  /** A failed call to the language model is answered with the apology. */
  lemma ModelFailureApology(rows: seq<Row>, svc: Services, req: LlmRequest)
    requires svc.ask(req).None?
    ensures LlmReply(rows, svc, req) == LlmError
  {
  }

  /** An external question never gets links: its reply is the model's
      answer as it is. */
  lemma ExternalNoLinks(rows: seq<Row>, svc: Services, c: string, answer: string)
    requires !Related(rows, svc, c) && svc.ask(RequestFor(rows, svc, c)) == Some(answer)
    ensures LlmReply(rows, svc, RequestFor(rows, svc, c)) == answer
    ensures RequestFor(rows, svc, c).context == []
  {
  }

  /** At most one message is sent per event, to its sender. */
  lemma AtMostOneMessage(rows: seq<Row>, svc: Services, event: Event)
    ensures |Outgoing(rows, svc, event)| <= 1
    ensures Outgoing(rows, svc, event) != [] ==> event.fromId.Some? && Outgoing(rows, svc, event)[0].userId == event.fromId.value
  {
  }
}
