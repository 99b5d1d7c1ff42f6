/**
 * Intent routing for text messages (`MessageProcessingService`): the body is
 * lower-cased and trimmed, an ordered cascade of keyword rules picks the
 * first intent that fires, and a message that fires none is answered by the
 * retrieval-augmented service with the body as received.
 */
module MessageProcessing {
  import opened JavaLang

  /** An hour of the local clock, as `LocalTime` has them. */
  type Hour = h: nat | h < 24

  datatype Intent =
    | Greeting | HumanAttendant | Finance | TechnicalTeam | Exams
    | Registration | Menu | Thanks | Farewell | Acknowledgement

  /**
   * One `if` of the cascade: `matches(".*(k1|k2|...).*")` over the keywords,
   * and, when `maxTokens` is present, `split(" ").length <= maxTokens`.
   */
  datatype Rule = Rule(intent: Intent, keywords: seq<string>, maxTokens: Option<nat>)

  /** The cascade, in the order the service tries it. */
  const Rules: seq<Rule> := [
    Rule(Greeting, ["oi", "olá", "ola", "hey", "opa", "bom dia", "boa tarde", "boa noite"], Some(3)),
    Rule(HumanAttendant, ["atendente", "pessoa", "humano", "alguém", "transferir", "falar com alguém"], None),
    Rule(Finance, ["financeiro", "pagamento", "fatura", "boleto", "cobrança", "pagar", "preço", "valor", "custo"], None),
    Rule(TechnicalTeam, ["tecnic", "visita", "avaliação", "pgr", "pcmso", "documento", "laudo"], None),
    Rule(Exams, ["exame", "consulta", "agendar", "marcar", "horário", "vaga"], None),
    Rule(Registration, ["cadastro", "cadastrar", "registro", "contratar", "contrato"], None),
    Rule(Menu, ["menu", "opções", "ajuda", "comandos", "o que você faz"], None),
    Rule(Thanks, ["obrigad", "valeu", "vlw", "muito obrigado", "agradeço"], None),
    Rule(Farewell, ["tchau", "até logo", "até mais", "bye", "flw", "adeus"], None),
    Rule(Acknowledgement, ["ok", "entendi", "certo", "beleza", "show", "tá bom"], Some(2))
  ]

  /** `messageBody.toLowerCase().trim()`. */
  function Normalize(messageBody: string): string {
    Trim(ToLower(messageBody))
  }

  /** `split(" ").length`. */
  function TokenCount(s: string): nat {
    |Split(s, " ")|
  }

  predicate Fires(rule: Rule, normalized: string) {
    MatchesAnyOf(normalized, rule.keywords) &&
    (rule.maxTokens.Some? ==> TokenCount(normalized) <= rule.maxTokens.value)
  }

  /** Position of the first rule that fires. */
  function FirstFiring(rules: seq<Rule>, normalized: string): (r: Option<nat>)
    ensures r.Some? ==>
      r.value < |rules| && Fires(rules[r.value], normalized) &&
      forall j | 0 <= j < r.value :: !Fires(rules[j], normalized)
    ensures r.None? ==> forall j | 0 <= j < |rules| :: !Fires(rules[j], normalized)
  {
    if rules == [] then None
    else if Fires(rules[0], normalized) then Some(0)
    else
      match FirstFiring(rules[1..], normalized)
      case None => None
      case Some(k) => Some(k + 1)
  }

  /** The intent of the first rule that fires, if any. */
  function Classify(normalized: string): (r: Option<Intent>)
    ensures r.None? <==> forall j | 0 <= j < |Rules| :: !Fires(Rules[j], normalized)
    ensures r.Some? ==>
      exists k | 0 <= k < |Rules| ::
        Rules[k].intent == r.value && Fires(Rules[k], normalized) &&
        forall j | 0 <= j < k :: !Fires(Rules[j], normalized)
  {
    match FirstFiring(Rules, normalized)
    case None => None
    case Some(k) => Some(Rules[k].intent)
  }

  // ---------------------------------------------------------------------
  // Greeting line
  // ---------------------------------------------------------------------

  /** `getTimeBasedGreeting`, with the clock's hour as a parameter. */
  function TimeBasedGreeting(hour: Hour): (r: string)
    ensures r == "Bom dia" || r == "Boa tarde" || r == "Boa noite"
    ensures r == "Bom dia" <==> hour < 12
    ensures r == "Boa noite" <==> 18 <= hour
  {
    if hour < 12 then "Bom dia" else if hour < 18 then "Boa tarde" else "Boa noite"
  }

  /** `getFirstName`: nothing for an absent or blank name, else the first `" "`-token of the trimmed name. */
  function FirstName(fullName: Option<string>): (r: Option<string>)
    ensures r.None? <==> fullName.None? || IsBlank(fullName.value)
    ensures r.Some? ==>
      var t := Trim(fullName.value);
      0 < |r.value| <= |t| && r.value == t[..|r.value|] &&
      (forall k | 0 <= k < |r.value| :: r.value[k] != ' ') &&
      (|r.value| == |t| || t[|r.value|] == ' ')
  {
    match fullName
    case None => None
    case Some(name) =>
      TrimEmptyIffBlank(name);
      if Trim(name) == [] then None
      else
        TrimEnds(name);
        SplitFirstToken(Trim(name), " ");
        Some(Split(Trim(name), " ")[0])
  }

  const GreetingClosing: string :=
    " Tudo bem?\n\nMeu nome é Clara, trabalho aqui no SESI. Em que posso te ajudar?"

  /** `String.format("%s%s! Tudo bem?...", greeting, firstName != null ? " " + firstName : "")`. */
  function GreetingReply(hour: Hour, firstName: Option<string>): string {
    TimeBasedGreeting(hour) + (if firstName.Some? then " " + firstName.value else "") + "!" + GreetingClosing
  }

  // ---------------------------------------------------------------------
  // Fixed replies
  // ---------------------------------------------------------------------

  function FixedReply(intent: Intent): string
    requires intent != Greeting
  {
    match intent
    case HumanAttendant =>
      "Claro! Vou te conectar com um atendente. 👤\n\n" +
      "Você pode ligar agora:\n" +
      "📞 (71) 3255-6500\n\n" +
      "Ou enviar um email:\n" +
      "📧 atendimento@sesibahia.com.br\n\n" +
      "Informe que estava conversando com a Clara. Eles já vão te ajudar! 😊"
    case Finance =>
      "Vou te direcionar para o financeiro! 💰\n\n" +
      "📞 (71) 3255-6500 - Ramal 123\n" +
      "📧 financeiro@sesibahia.com.br\n\n" +
      "Horário: Segunda a sexta, 8h às 17h\n\n" +
      "Posso ajudar em mais alguma coisa?"
    case TechnicalTeam =>
      "Vou te conectar com a equipe técnica! 🔧\n\n" +
      "📞 (71) 3255-6500 - Ramal 456\n" +
      "📧 tecnico@sesibahia.com.br\n\n" +
      "Eles vão te ajudar com:\n" +
      "• Agendamento de visitas técnicas\n" +
      "• PGR e PCMSO\n" +
      "• Documentos e laudos\n\n" +
      "Tem mais alguma dúvida?"
    case Exams =>
      "Para agendamento de exames e consultas! 🏥\n\n" +
      "📞 (71) 3255-6500 - Ramal 789\n" +
      "📧 agendamento@sesibahia.com.br\n\n" +
      "Horário: Segunda a sexta, 7h às 18h\n" +
      "Sábado: 7h às 12h\n\n" +
      "Você também pode agendar pelo site:\n" +
      "🌐 www.sesibahia.com.br/agendar\n\n" +
      "Precisa de mais informações?"
    case Registration =>
      "Vou te direcionar para o setor de cadastro! 📋\n\n" +
      "📞 (71) 3255-6500 - Ramal 234\n" +
      "📧 cadastro@sesibahia.com.br\n\n" +
      "Eles vão te ajudar com:\n" +
      "• Cadastro de empresa\n" +
      "• Contratos\n" +
      "• Documentação\n\n" +
      "Posso esclarecer alguma dúvida antes?"
    case Menu =>
      "Posso te ajudar com:\n\n" +
      "📋 Dúvidas sobre PGR e PCMSO\n" +
      "📄 Documentação necessária\n" +
      "⏱️ Prazos e processos\n" +
      "📞 Contato com departamentos\n" +
      "🗓️ Agendamento de exames\n" +
      "📧 Enviar documentos\n\n" +
      "É só perguntar! Estou aqui pra ajudar. 😊"
    case Thanks =>
      "Imagina! Fico feliz em ajudar 😊\n\nQualquer outra dúvida, pode chamar!"
    case Farewell =>
      "Até mais! Qualquer coisa, é só chamar. Bom dia pra você! 👋"
    case Acknowledgement =>
      "Ótimo! Tem mais alguma dúvida que eu possa esclarecer?"
  }

  // ---------------------------------------------------------------------
  // processMessage
  // ---------------------------------------------------------------------

  /**
   * `processMessage`; `answer` is the retrieval-augmented service, consulted
   * only when no rule fires.
   */
  function ProcessMessage(messageBody: string, profileName: Option<string>, hour: Hour,
                          answer: string -> string): (r: string)
    ensures Classify(Normalize(messageBody)).None? ==> r == answer(messageBody)
  {
    match Classify(Normalize(messageBody))
    case None => answer(messageBody)
    case Some(Greeting) => GreetingReply(hour, FirstName(profileName))
    case Some(intent) => FixedReply(intent)
  }

  // ---------------------------------------------------------------------
  // Properties
  // ---------------------------------------------------------------------

  /** Routing sees only the normalized body: case (as modelled) and surrounding blanks do not matter. */
  lemma RoutingIgnoresCaseAndBlanks(body1: string, body2: string, profileName: Option<string>,
                                    hour: Hour, answer1: string -> string, answer2: string -> string)
    requires Normalize(body1) == Normalize(body2)
    requires Classify(Normalize(body1)).Some?
    ensures ProcessMessage(body1, profileName, hour, answer1) == ProcessMessage(body2, profileName, hour, answer2)
  {
  }

  /** A message with a line break inside never matches a rule, so it goes to the retrieval service. */
  lemma MultiLineGoesToAnswer(messageBody: string, profileName: Option<string>, hour: Hour,
                              answer: string -> string, i: nat)
    requires i < |Normalize(messageBody)| && IsLineTerminator(Normalize(messageBody)[i])
    ensures ProcessMessage(messageBody, profileName, hour, answer) == answer(messageBody)
  {
    forall j | 0 <= j < |Rules| ensures !Fires(Rules[j], Normalize(messageBody)) {
    }
  }

  /** The attendant rule comes before every department: once the greeting does not fire, it wins. */
  lemma AttendantBeforeDepartments(normalized: string)
    requires !Fires(Rules[0], normalized)
    requires MatchesAnyOf(normalized, Rules[1].keywords)
    ensures Classify(normalized) == Some(HumanAttendant)
  {
    assert Fires(Rules[1], normalized);
  }

  /** A greeting needs a greeting keyword and at most three tokens. */
  lemma GreetingIsShort(normalized: string)
    requires Classify(normalized) == Some(Greeting)
    ensures MatchesAnyOf(normalized, Rules[0].keywords) && TokenCount(normalized) <= 3
  {
    var k :| 0 <= k < |Rules| && Rules[k].intent == Greeting && Fires(Rules[k], normalized);
    RuleOfIntent(k, 0);
  }

  /** No two rules of the cascade share an intent. */
  lemma RuleOfIntent(j: nat, k: nat)
    requires j < |Rules| && k < |Rules| && Rules[j].intent == Rules[k].intent
    ensures j == k
  {
    var intents := [Greeting, HumanAttendant, Finance, TechnicalTeam, Exams,
                    Registration, Menu, Thanks, Farewell, Acknowledgement];
    assert forall i | 0 <= i < |Rules| :: Rules[i].intent == intents[i];
  }

  /** An acknowledgement needs one of its keywords, at most two tokens, and no earlier rule firing. */
  lemma AcknowledgementIsShort(normalized: string)
    requires Classify(normalized) == Some(Acknowledgement)
    ensures MatchesAnyOf(normalized, Rules[9].keywords) && TokenCount(normalized) <= 2
    ensures forall j | 0 <= j < 9 :: !Fires(Rules[j], normalized)
  {
    var k :| 0 <= k < |Rules| && Rules[k].intent == Acknowledgement && Fires(Rules[k], normalized) &&
      forall j | 0 <= j < k :: !Fires(Rules[j], normalized);
    RuleOfIntent(k, 9);
  }

  /** The greeting reply names the person only when a first name was found. */
  lemma GreetingMentionsName(hour: Hour, profileName: Option<string>)
    ensures var reply := GreetingReply(hour, FirstName(profileName));
      StartsWith(reply, TimeBasedGreeting(hour)) &&
      (FirstName(profileName).Some? ==>
        StartsWith(reply, TimeBasedGreeting(hour) + " " + FirstName(profileName).value + "!")) &&
      (FirstName(profileName).None? ==> StartsWith(reply, TimeBasedGreeting(hour) + "!"))
  {
    var g := TimeBasedGreeting(hour);
    var name := FirstName(profileName);
    var mid := if name.Some? then " " + name.value else "";
    assert GreetingReply(hour, name) == g + mid + "!" + GreetingClosing;
    GreetingShape(g, mid, GreetingClosing);
    if name.Some? {
      assert g + mid + "!" == g + " " + name.value + "!";
    } else {
      assert g + mid + "!" == g + "!";
    }
  }

  lemma GreetingShape(g: string, mid: string, closing: string)
    ensures StartsWith(g + mid + "!" + closing, g)
    ensures StartsWith(g + mid + "!" + closing, g + mid + "!")
  {
    var reply := g + mid + "!" + closing;
    assert reply[..|g|] == g;
    assert reply[..|g + mid + "!"|] == g + mid + "!";
  }
}
