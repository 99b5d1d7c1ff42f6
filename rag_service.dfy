/**
 * Retrieval-augmented answering (`RAGService.answerWithContext`): search the
 * vector store, assemble a context block from the hits, fill the user prompt
 * template, ask the language model, and fall back to fixed replies when
 * nothing is found or anything fails.  The search and the model are oracles
 * passed in as functions.
 */
module RagService {
  import opened JavaLang
  import opened VectorStore

  const TopK: nat := 4
  const SimilarityThreshold: real := 0.6

  const NoDocumentsReply: string :=
    "Hmm, não encontrei essa informação específica na nossa base de documentos. " +
    "Você pode reformular a pergunta ou perguntar sobre outro tema? " +
    "Estou aqui para ajudar com PGR, PCMSO, prazos e documentação. 😊"

  const TechnicalErrorReply: string :=
    "Desculpa, tive um problema técnico aqui. Pode tentar perguntar novamente? " +
    "Se continuar com erro, me avisa que chamo alguém da equipe técnica. 😊"

  /** The system prompt, as the Java text block evaluates (indentation and trailing blanks removed). */
  const SystemPrompt: string :=
    "Você é Clara, uma profissional do SESI que ajuda clientes com dúvidas sobre\n" +
    "saúde e segurança do trabalho.\n" +
    "\n" +
    "PERSONALIDADE:\n" +
    "- Atenciosa e calorosa, mas profissional\n" +
    "- Conversa de forma natural, como se fosse uma colega\n" +
    "- Explica as coisas de forma simples, sem complicar\n" +
    "- Tem paciência para explicar quantas vezes for preciso\n" +
    "\n" +
    "COMO RESPONDER:\n" +
    "- Não use listas ou bullet points, escreva de forma fluída\n" +
    "- Fale de forma direta e objetiva, como numa conversa real\n" +
    "- Use \"a gente\", \"nós aqui do SESI\", \"eu\", \"você\"\n" +
    "- Máximo 2-3 frases por parágrafo\n" +
    "- Evite jargões técnicos demais, simplifique\n" +
    "- Pode usar 1 emoji por resposta, mas só se fizer sentido\n" +
    "\n" +
    "O QUE FAZER:\n" +
    "- Use APENAS informações dos documentos fornecidos\n" +
    "- Se não souber, diga: \"Deixa eu verificar isso com o pessoal aqui e te retorno, ok?\"\n" +
    "- Seja honesta sobre prazos e processos\n" +
    "- Ofereça ajuda adicional: \"Quer que eu explique melhor?\" ou \"Tem mais alguma dúvida?\"\n" +
    "\n" +
    "O QUE EVITAR:\n" +
    "- Não liste tópicos ou serviços sem que perguntem\n" +
    "- Não seja formal demais\n" +
    "- Não use palavras como \"assistente virtual\", \"sistema\", \"IA\"\n" +
    "- Não comece frases com \"Com base em...\" ou \"De acordo com...\"\n" +
    "- Não escreva parágrafos muito longos\n"

  const ContextSeparator: string := "\n\n---\n\n"

  // ---------------------------------------------------------------------
  // The user prompt template
  // ---------------------------------------------------------------------

  /** A template is literal text interleaved with `{name}` placeholders. */
  datatype Segment = Text(text: string) | Slot(name: string)

  const PromptIntro: string :=
    "Com base nos documentos do SESI abaixo, responda a pergunta do cliente:\n\nDOCUMENTOS:\n"
  const PromptQuestionHeader: string := "\n\nPERGUNTA DO CLIENTE:\n"
  const PromptClosing: string :=
    "\n\nResponda de forma clara, objetiva e amigável, como se estivesse conversando\n" +
    "pessoalmente com o cliente. Mantenha o tom profissional mas acessível.\n"

  const UserPromptTemplate: seq<Segment> :=
    [Text(PromptIntro), Slot("context"), Text(PromptQuestionHeader), Slot("question"), Text(PromptClosing)]

  /** The template written back as text, each placeholder as `{name}`. */
  function TemplateSource(template: seq<Segment>): string {
    if template == [] then []
    else
      (match template[0] case Text(t) => t case Slot(n) => "{" + n + "}") + TemplateSource(template[1..])
  }

  /** `PromptTemplate.create(values)`: each placeholder replaced by its value, verbatim. */
  function Render(template: seq<Segment>, values: map<string, string>): string {
    if template == [] then []
    else
      (match template[0]
       case Text(t) => t
       case Slot(n) => if n in values then values[n] else []) + Render(template[1..], values)
  }

  function UserPrompt(context: string, question: string): string {
    Render(UserPromptTemplate, map["context" := context, "question" := question])
  }

  // ---------------------------------------------------------------------
  // Context block
  // ---------------------------------------------------------------------

  /** `String.format("%s", metadata.get("source"))`: a missing key prints as "null". */
  function SourceLabel(d: Document): string {
    if "source" in d.metadata then d.metadata["source"] else "null"
  }

  function ContextEntry(d: Document): string {
    "[Documento: " + SourceLabel(d) + "]\n" + d.content
  }

  function ContextEntries(documents: seq<Document>): (r: seq<string>)
    ensures |r| == |documents|
    ensures forall i | 0 <= i < |documents| :: r[i] == ContextEntry(documents[i])
  {
    seq(|documents|, i requires 0 <= i < |documents| => ContextEntry(documents[i]))
  }

  function BuildContext(documents: seq<Document>): string {
    Join(ContextEntries(documents), ContextSeparator)
  }

  // ---------------------------------------------------------------------
  // answerWithContext
  // ---------------------------------------------------------------------

  /** What the similarity search yields: the hits, or an exception. */
  datatype Retrieval = Retrieved(documents: seq<Document>) | SearchFailed

  /** What the chat call yields: the generated content, or an exception. */
  datatype Generation = Generated(content: string) | GenerationFailed

  datatype ChatPrompt = ChatPrompt(system: string, user: string)

  /** The reply, and the prompt sent to the model if one was sent. */
  datatype RagAnswer = RagAnswer(reply: string, sent: Option<ChatPrompt>)

  function SearchFor(question: string): SearchRequest {
    SearchRequest(question, TopK, SimilarityThreshold)
  }

  function AnswerWithContext(question: string, search: SearchRequest -> Retrieval,
                             generate: ChatPrompt -> Generation): (r: RagAnswer)
    ensures r.sent.Some? ==> r.sent.value.system == SystemPrompt
    ensures r.sent.None? ==> r.reply == NoDocumentsReply || r.reply == TechnicalErrorReply
  {
    match search(SearchFor(question))
    case SearchFailed => RagAnswer(TechnicalErrorReply, None)
    case Retrieved(documents) =>
      if documents == [] then RagAnswer(NoDocumentsReply, None)
      else
        var prompt := ChatPrompt(SystemPrompt, UserPrompt(BuildContext(documents), question));
        match generate(prompt)
        case GenerationFailed => RagAnswer(TechnicalErrorReply, Some(prompt))
        case Generated(content) => RagAnswer(content, Some(prompt))
  }

  // ---------------------------------------------------------------------
  // Properties
  // ---------------------------------------------------------------------

  /** A template of two placeholders between three texts, written back as text. */
  lemma TwoSlotSource(a: string, x: string, b: string, y: string, c: string)
    ensures TemplateSource([Text(a), Slot(x), Text(b), Slot(y), Text(c)]) ==
      a + ("{" + x + "}") + b + ("{" + y + "}") + c
  {
    assert TemplateSource([Text(c)]) == c by { assert [Text(c)][1..] == []; }
    assert TemplateSource([Slot(y), Text(c)]) == "{" + y + "}" + c by {
      assert [Slot(y), Text(c)][1..] == [Text(c)];
    }
    assert TemplateSource([Text(b), Slot(y), Text(c)]) == b + ("{" + y + "}" + c) by {
      assert [Text(b), Slot(y), Text(c)][1..] == [Slot(y), Text(c)];
    }
    assert TemplateSource([Slot(x), Text(b), Slot(y), Text(c)]) == "{" + x + "}" + (b + ("{" + y + "}" + c)) by {
      assert [Slot(x), Text(b), Slot(y), Text(c)][1..] == [Text(b), Slot(y), Text(c)];
    }
    assert [Text(a), Slot(x), Text(b), Slot(y), Text(c)][1..] == [Slot(x), Text(b), Slot(y), Text(c)];
  }

  /** A template of two placeholders between three texts, rendered. */
  lemma TwoSlotRender(a: string, x: string, b: string, y: string, c: string, values: map<string, string>)
    requires x in values && y in values
    ensures Render([Text(a), Slot(x), Text(b), Slot(y), Text(c)], values) ==
      a + values[x] + b + values[y] + c
  {
    assert Render([Text(c)], values) == c by { assert [Text(c)][1..] == []; }
    assert Render([Slot(y), Text(c)], values) == values[y] + c by {
      assert [Slot(y), Text(c)][1..] == [Text(c)];
    }
    assert Render([Text(b), Slot(y), Text(c)], values) == b + (values[y] + c) by {
      assert [Text(b), Slot(y), Text(c)][1..] == [Slot(y), Text(c)];
    }
    assert Render([Slot(x), Text(b), Slot(y), Text(c)], values) == values[x] + (b + (values[y] + c)) by {
      assert [Slot(x), Text(b), Slot(y), Text(c)][1..] == [Text(b), Slot(y), Text(c)];
    }
    assert [Text(a), Slot(x), Text(b), Slot(y), Text(c)][1..] == [Slot(x), Text(b), Slot(y), Text(c)];
  }

  /**
   * Written back as text, the template is the Java text block: the intro, the
   * `{context}` placeholder, the question header, the `{question}`
   * placeholder and the closing instructions.
   */
  lemma TemplateMatchesSource()
    ensures TemplateSource(UserPromptTemplate) ==
      PromptIntro + "{context}" + PromptQuestionHeader + "{question}" + PromptClosing
  {
    TwoSlotSource(PromptIntro, "context", PromptQuestionHeader, "question", PromptClosing);
    assert "{" + "context" + "}" == "{context}";
    assert "{" + "question" + "}" == "{question}";
  }

  /** Filling the template substitutes both values verbatim, in place. */
  lemma UserPromptSubstitutes(context: string, question: string)
    ensures UserPrompt(context, question) ==
      PromptIntro + context + PromptQuestionHeader + question + PromptClosing
    ensures Contains(UserPrompt(context, question), context)
    ensures Contains(UserPrompt(context, question), question)
  {
    TwoSlotRender(PromptIntro, "context", PromptQuestionHeader, "question", PromptClosing,
                  map["context" := context, "question" := question]);
    ContainsParts(PromptIntro, context, PromptQuestionHeader, question, PromptClosing);
  }

  /** n hits give the n entries and exactly n - 1 separators. */
  lemma ContextLength(documents: seq<Document>)
    requires documents != []
    ensures |BuildContext(documents)| ==
      TotalLength(ContextEntries(documents)) + (|documents| - 1) * |ContextSeparator|
  {
    JoinLength(ContextEntries(documents), ContextSeparator);
  }

  /** The entries follow the order of the hits: one more hit appends a separator and its entry. */
  lemma ContextInResultOrder(documents: seq<Document>, d: Document)
    requires documents != []
    ensures BuildContext(documents + [d]) == BuildContext(documents) + ContextSeparator + ContextEntry(d)
  {
    assert ContextEntries(documents + [d]) == ContextEntries(documents) + [ContextEntry(d)];
    JoinSnoc(ContextEntries(documents), ContextEntry(d), ContextSeparator);
  }

  lemma SingleHitContext(d: Document)
    ensures BuildContext([d]) == "[Documento: " + SourceLabel(d) + "]\n" + d.content
  {
  }

  /** The search is always issued for the question with top-k 4 and threshold 0.6. */
  lemma OnlyThatSearchMatters(question: string, search1: SearchRequest -> Retrieval,
                              search2: SearchRequest -> Retrieval, generate: ChatPrompt -> Generation)
    requires search1(SearchRequest(question, 4, 0.6)) == search2(SearchRequest(question, 4, 0.6))
    ensures AnswerWithContext(question, search1, generate) == AnswerWithContext(question, search2, generate)
  {
    assert SearchFor(question) == SearchRequest(question, 4, 0.6);
  }

  /** No hits: the fixed reply, and the model is not consulted. */
  lemma NoHitsNeverGenerates(question: string, search: SearchRequest -> Retrieval,
                             generate1: ChatPrompt -> Generation, generate2: ChatPrompt -> Generation)
    requires search(SearchFor(question)) == Retrieved([])
    ensures AnswerWithContext(question, search, generate1) == RagAnswer(NoDocumentsReply, None)
    ensures AnswerWithContext(question, search, generate1) == AnswerWithContext(question, search, generate2)
  {
  }

  /** With hits, the model gets the constant system prompt and the filled template, and its content is the reply. */
  lemma HitsAnswered(question: string, search: SearchRequest -> Retrieval, generate: ChatPrompt -> Generation)
    requires search(SearchFor(question)).Retrieved? && search(SearchFor(question)).documents != []
    ensures var context := BuildContext(search(SearchFor(question)).documents);
      var prompt := ChatPrompt(SystemPrompt, PromptIntro + context + PromptQuestionHeader + question + PromptClosing);
      var r := AnswerWithContext(question, search, generate);
      r.sent == Some(prompt) &&
      (generate(prompt).Generated? ==> r.reply == generate(prompt).content) &&
      (generate(prompt).GenerationFailed? ==> r.reply == TechnicalErrorReply)
  {
    UserPromptSubstitutes(BuildContext(search(SearchFor(question)).documents), question);
  }

  /** A failing search gives the apology, and the model is not consulted. */
  lemma SearchFailureApologises(question: string, search: SearchRequest -> Retrieval,
                                generate: ChatPrompt -> Generation)
    requires search(SearchFor(question)).SearchFailed?
    ensures AnswerWithContext(question, search, generate) == RagAnswer(TechnicalErrorReply, None)
  {
  }
}
