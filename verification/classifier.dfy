/** The rule-based email classifier of summarizer.py: field alias
    resolution, keyword and pattern tests, due-date extraction, the rule
    ladder of `classify_email`, and the checks applied to a language-model
    reply before it is trusted. */
module Classifier {
  import opened Wrappers
  import opened Text
  import opened Calendar
  import opened Lists

  // ---------------------------------------------------------------------
  // Configuration (fixed lists of summarizer.py)
  // ---------------------------------------------------------------------

  /** Regular expressions for infrastructure and monitoring noise. */
  const IgnoreSubjectPatterns: seq<string> := [
    "\\bRender\\b", "\\bRailway\\b", "\\bDeployment crashed\\b", "\\bServer failure\\b",
    "\\bincident\\b", "\\balert\\b", "\\bstatus\\b", "\\bmonitor\\b", "\\bunhealthy\\b",
    "\\bdown\\b", "\\bcrash\\b", "\\berror\\b", "\\bfailure\\b", "\\bSEV\\b",
    "\\bPagerDuty\\b", "\\bDatadog\\b", "\\bSentry\\b", "\\bUptime\\b", "\\bNew Relic\\b",
    "\\bAWS\\b", "\\bGCP\\b", "\\bAzure\\b"
  ]

  /** Regular expressions for newsletters, promotions and social mail. */
  const LowPriorityPatterns: seq<string> := [
    "\\bnewsletter\\b", "\\bpromo\\b", "\\bdesconto\\b", "\\boferta\\b", "\\bmarketing\\b",
    "\\búltimas horas\\b", "\\bfinal call\\b", "\\bTikTok\\b", "\\bStrava\\b", "\\bVans\\b",
    "\\bEsporte\\b"
  ]

  /** Banking, bills and school vocabulary. */
  const HighPriorityKeywords: seq<string> := [
    "banco", "itau", "itaú", "bradesco", "santander", "nubank", "caixa", "bb", "banco do brasil",
    "fatura", "cartão", "cartao", "boleto", "pix", "transferência", "transferencia", "pagamento",
    "cobrança", "cobranca", "inadimplência", "inadimplencia", "juros", "multa",
    "limite", "fraude", "suspeita", "compra não reconhecida", "compra nao reconhecida",
    "comprovante", "extrato", "débito", "debito", "crédito", "credito",
    "renegociação", "renegociacao",
    "vencimento", "vence", "a vencer", "atraso", "em atraso", "segunda via", "2ª via", "2a via",
    "corte", "suspensão", "suspensao", "negativação", "negativacao",
    "iptu", "ipva", "condomínio", "condominio", "aluguel", "energia", "luz", "água", "agua",
    "internet", "telefone", "plano de saúde", "plano de saude",
    "escola", "colégio", "colegio", "mensalidade", "rematrícula", "rematricula",
    "boletim", "prova", "reunião", "reuniao", "coordenação", "coordenacao",
    "matrícula", "matricula", "material escolar", "sala", "turma",
    "agenda", "aviso", "comunicado"
  ]

  const MediumPriorityKeywords: seq<string> := [
    "google alerts", "alerta do google", "jtekt", "notícia", "noticia",
    "confirmação", "confirmacao", "reserva", "viagem", "documento"
  ]

  /** The separators of the three date regexes, in the order they are tried:
      `dd/mm[/yy]`, `dd-mm[-yy]`, `dd.mm[.yy]`. */
  const DateSeparators: seq<char> := ['/', '-', '.']

  const DueHints: seq<string> := [
    "venc", "vence", "a vencer", "vencimento", "prazo", "deadline",
    "último dia", "ultimo dia", "final", "hoje", "amanhã", "amanha"
  ]

  const BillingWords: seq<string> := [
    "fatura", "boleto", "vencimento", "a vencer", "segunda via", "2a via", "2ª via"
  ]
  const FraudWords: seq<string> := [
    "fraude", "suspeita", "compra não reconhecida", "compra nao reconhecida"
  ]
  const SchoolWords: seq<string> := [
    "escola", "colégio", "colegio", "mensalidade", "rematrícula", "rematricula", "boletim"
  ]

  /** Every score the classifier can produce. */
  const Scores: set<int> := {0, 15, 25, 55, 85, 90, 95, 100}

  // ---------------------------------------------------------------------
  // Input records and field aliases
  // ---------------------------------------------------------------------

  /** A field value of an incoming email dict: text, or anything else. */
  datatype Value = Str(text: string) | NonText

  type Email = map<string, Value>

  /** The field `key` is present, holds text, and that text is not blank. */
  predicate Usable(email: Email, key: string) {
    key in email && email[key].Str? && Strip(email[key].text) != []
  }

  /** `_get`: the stripped text of the first listed key whose value is
      non-blank text, else the default; an absent key is simply skipped. */
  function Get(email: Email, keys: seq<string>, default: string): (r: string)
    ensures forall i :: 0 <= i < |keys| && Usable(email, keys[i])
              && (forall j :: 0 <= j < i ==> !Usable(email, keys[j]))
              ==> r == Strip(email[keys[i]].text)
    ensures (forall i :: 0 <= i < |keys| ==> !Usable(email, keys[i])) ==> r == default
    ensures r == default || (r != [] && !IsWs(r[0]) && !IsWs(r[|r| - 1]))
  {
    if keys == [] then default
    else if Usable(email, keys[0]) then Strip(email[keys[0]].text)
    else Get(email, keys[1..], default)
  }

  /** `_norm`: stripped and lower-cased. */
  function Norm(s: string): string {
    Lower(Strip(s))
  }

  /** `_contains_any`: some keyword occurs in the normalised text. */
  function ContainsAny(text: string, keywords: seq<string>): (r: bool)
    ensures r <==> exists i :: 0 <= i < |keywords| && Contains(Norm(text), keywords[i])
  {
    AnyOccurs(Norm(text), keywords)
  }

  function AnyOccurs(t: string, keywords: seq<string>): (r: bool)
    ensures r <==> exists i :: 0 <= i < |keywords| && Contains(t, keywords[i])
  {
    if keywords == [] then false
    else if Contains(t, keywords[0]) then true
    else
      var r := AnyOccurs(t, keywords[1..]);
      assert forall i :: 1 <= i < |keywords| ==> keywords[i] == keywords[1..][i - 1];
      r
  }

  /** `re.search(pattern, text, flags=re.IGNORECASE) is not None`. The regex
      engine is not part of this model; any matcher may be supplied. */
  type Matcher = (string, string) -> bool

  /** `_matches_any`: some pattern matches the text. */
  function MatchesAny(text: string, patterns: seq<string>, matches: Matcher): (r: bool)
    ensures r <==> exists i :: 0 <= i < |patterns| && matches(patterns[i], text)
  {
    if patterns == [] then false
    else if matches(patterns[0], text) then true
    else
      var r := MatchesAny(text, patterns[1..], matches);
      assert forall i :: 1 <= i < |patterns| ==> patterns[i] == patterns[1..][i - 1];
      r
  }

  // ---------------------------------------------------------------------
  // Due dates
  // ---------------------------------------------------------------------

  /** The first match of one date regex: the day and month groups and, when
      the optional third group matched, the value of its 2 to 4 digits. */
  datatype DateMatch = DateMatch(day: nat, month: nat, year: Option<nat>)

  /** `re.search` of the date regex with the given separator; the regex
      engine is not part of this model. */
  type DateSearch = (char, string) -> Option<DateMatch>

  /** The date a match denotes: a year below 100 is read as 2000 + year, and
      a missing year is the current one. */
  function CandidateDate(m: DateMatch, currentYear: int): Date {
    var year := match m.year
      case None => currentYear
      case Some(y) => if y < 100 then y + 2000 else y;
    Date(year, m.month, m.day)
  }

  /** The regex for `sep` matches and its match is a real calendar date. */
  predicate Yields(text: string, sep: char, search: DateSearch, currentYear: int) {
    search(sep, text).Some? && ValidDate(CandidateDate(search(sep, text).value, currentYear))
  }

  function FirstValidDate(text: string, seps: seq<char>, search: DateSearch, currentYear: int): Option<CalendarDate> {
    if seps == [] then None
    else if Yields(text, seps[0], search, currentYear) then
      Some(CandidateDate(search(seps[0], text).value, currentYear))
    else FirstValidDate(text, seps[1..], search, currentYear)
  }

  /** `_extract_first_date`, with the current year as a parameter. */
  function ExtractFirstDate(text: string, search: DateSearch, currentYear: int): Option<CalendarDate> {
    if text == [] then None else FirstValidDate(text, DateSeparators, search, currentYear)
  }

  lemma {:induction false} FirstValidDateIsFirst(text: string, seps: seq<char>, search: DateSearch, currentYear: int, i: nat)
    requires i < |seps| && Yields(text, seps[i], search, currentYear)
    requires forall j :: 0 <= j < i ==> !Yields(text, seps[j], search, currentYear)
    ensures FirstValidDate(text, seps, search, currentYear) == Some(CandidateDate(search(seps[i], text).value, currentYear))
  {
    if i > 0 {
      assert !Yields(text, seps[0], search, currentYear);
      FirstValidDateIsFirst(text, seps[1..], search, currentYear, i - 1);
    }
  }

  lemma {:induction false} FirstValidDateNone(text: string, seps: seq<char>, search: DateSearch, currentYear: int)
    ensures FirstValidDate(text, seps, search, currentYear) == None
            <==> forall j :: 0 <= j < |seps| ==> !Yields(text, seps[j], search, currentYear)
  {
    if seps != [] {
      FirstValidDateNone(text, seps[1..], search, currentYear);
      assert forall j :: 1 <= j < |seps| ==> seps[j] == seps[1..][j - 1];
    }
  }

  /** The separators are tried in order, and the first one whose match is a
      valid calendar date decides; a match that is not a date is skipped. */
  lemma ExtractFirstDateTakesFirstValid(text: string, search: DateSearch, currentYear: int, i: nat)
    requires text != []
    requires i < |DateSeparators| && Yields(text, DateSeparators[i], search, currentYear)
    requires forall j :: 0 <= j < i ==> !Yields(text, DateSeparators[j], search, currentYear)
    ensures ExtractFirstDate(text, search, currentYear)
            == Some(CandidateDate(search(DateSeparators[i], text).value, currentYear))
  {
    FirstValidDateIsFirst(text, DateSeparators, search, currentYear, i);
  }

  /** No date is reported exactly when the text is empty or no separator's
      match is a valid calendar date. */
  lemma ExtractFirstDateNone(text: string, search: DateSearch, currentYear: int)
    ensures ExtractFirstDate(text, search, currentYear) == None
            <==> text == [] || forall j :: 0 <= j < |DateSeparators| ==> !Yields(text, DateSeparators[j], search, currentYear)
  {
    FirstValidDateNone(text, DateSeparators, search, currentYear);
  }

  // ---------------------------------------------------------------------
  // Classified emails and the language-model reply
  // ---------------------------------------------------------------------

  datatype Priority = Alta | Media | Baixa | Ignorar

  /** `ClassifiedEmail`; `priority` holds one of the four labels. */
  datatype ClassifiedEmail = ClassifiedEmail(
    subject: string,
    sender: string,
    snippet: string,
    priority: Priority,
    score: int,
    oneLiner: string,
    actions: seq<string>,
    dueDate: Option<CalendarDate>)

  /** What every classification satisfies: a score from the fixed set whose
      band agrees with the label (ALTA at 75 or more, MEDIA from 45 to 74,
      BAIXA from 1 to 44, IGNORAR exactly 0), at most five distinct non-blank
      actions, and a due date only on ALTA. */
  predicate Consistent(c: ClassifiedEmail) {
    && c.score in Scores
    && (c.priority == Alta <==> c.score >= 75)
    && (c.priority == Media <==> 45 <= c.score < 75)
    && (c.priority == Baixa <==> 0 < c.score < 45)
    && (c.priority == Ignorar <==> c.score == 0)
    && |c.actions| <= 5 && NoDup(c.actions)
    && (forall k :: 0 <= k < |c.actions| ==> !Blank(c.actions[k]))
    && (c.dueDate.Some? ==> c.priority == Alta)
  }

  /** The already-decoded JSON object of a language-model answer: `priority`
      and `one_liner` after `str(...)`, and `actions` when it is a list (each
      element after `str(...)`); `None` when it is not a list. */
  datatype LlmReply = LlmReply(priority: string, oneLiner: string, actions: Option<seq<string>>)

  /** The model call for (subject, sender, snippet); `None` when there is no
      answer or it is not a decodable JSON object. */
  type LlmCall = (string, string, string) -> Option<LlmReply>

  /** What classification needs from outside: the regex engine, the
      language model and today's date. */
  datatype Oracles = Oracles(matches: Matcher, dateSearch: DateSearch, llm: LlmCall, today: CalendarDate)

  /** `not s.strip()` */
  predicate Blank(s: string) {
    AllWs(s)
  }

  function PriorityOfLabel(name: string): Option<Priority> {
    if name == "ALTA" then Some(Alta)
    else if name == "MEDIA" then Some(Media)
    else if name == "BAIXA" then Some(Baixa)
    else if name == "IGNORAR" then Some(Ignorar)
    else None
  }

  function LlmScore(p: Priority): int {
    match p
    case Ignorar => 0
    case Baixa => 25
    case Media => 55
    case Alta => 85
  }

  /** `[str(a).strip() for a in acts if str(a).strip()]`: the stripped
      actions, blank ones dropped. */
  function StrippedNonBlank(acts: seq<string>): (r: seq<string>)
    ensures |r| <= |acts|
    ensures forall k :: 0 <= k < |r| ==> !Blank(r[k])
  {
    if acts == [] then []
    else
      var a := Strip(acts[0]);
      (if a == [] then [] else [a]) + StrippedNonBlank(acts[1..])
  }

  /** The cleaned actions are exactly the stripped forms of the non-blank
      ones. */
  lemma {:induction false} StrippedNonBlankMembers(acts: seq<string>)
    ensures forall x :: x in StrippedNonBlank(acts)
              <==> exists i :: 0 <= i < |acts| && !Blank(acts[i]) && x == Strip(acts[i])
  {
    if acts != [] {
      var t := acts[1..];
      var head := if Strip(acts[0]) == [] then [] else [Strip(acts[0])];
      assert StrippedNonBlank(acts) == head + StrippedNonBlank(t);
      StrippedNonBlankMembers(t);
      forall x | x in StrippedNonBlank(acts)
        ensures exists i :: 0 <= i < |acts| && !Blank(acts[i]) && x == Strip(acts[i])
      {
        if x in StrippedNonBlank(t) {
          var j :| 0 <= j < |t| && !Blank(t[j]) && x == Strip(t[j]);
          assert acts[j + 1] == t[j];
        } else {
          assert x == Strip(acts[0]);
        }
      }
      forall i | 0 <= i < |acts| && !Blank(acts[i])
        ensures Strip(acts[i]) in StrippedNonBlank(acts)
      {
        if i > 0 {
          assert t[i - 1] == acts[i];
        }
      }
    }
  }

  /** The comprehension works element by element, so it keeps the order of
      the actions: cleaning a concatenation concatenates the cleaned
      parts. */
  lemma {:induction false} StrippedNonBlankAppend(a: seq<string>, b: seq<string>)
    ensures StrippedNonBlank(a + b) == StrippedNonBlank(a) + StrippedNonBlank(b)
  {
    if a == [] {
      assert a + b == b;
    } else {
      var h := if Strip(a[0]) == [] then [] else [Strip(a[0])];
      assert (a + b)[0] == a[0] && (a + b)[1..] == a[1..] + b;
      assert StrippedNonBlank(a + b) == h + StrippedNonBlank(a[1..] + b);
      StrippedNonBlankAppend(a[1..], b);
      var rest, tail := StrippedNonBlank(a[1..]), StrippedNonBlank(b);
      assert h + (rest + tail) == (h + rest) + tail;
    }
  }

  /** The first `n` of the deduplicated list: in first-occurrence order,
      each drawn from the list, and every element of the list kept unless
      the cut was reached. */
  lemma CutDedupe(src: seq<string>, n: nat)
    ensures NoDup(Take(Dedupe(src), n))
    ensures |Take(Dedupe(src), n)| == Min(n, |Dedupe(src)|)
    ensures forall k :: 0 <= k < |Take(Dedupe(src), n)| ==> Take(Dedupe(src), n)[k] == Dedupe(src)[k] && Dedupe(src)[k] in src
    ensures |Take(Dedupe(src), n)| == n || forall x :: x in src ==> x in Take(Dedupe(src), n)
  {
    var d := Dedupe(src);
    var r := Take(d, n);
    forall i, j | 0 <= i < j < |r|
      ensures r[i] != r[j]
    {
      assert r[i] == d[i] && r[j] == d[j];
    }
    if |r| < n {
      assert r == d;
    }
  }

  const LlmFallbackOneLiner := "Classificado pelo modelo."
  const LlmFallbackAction := "Ler e decidir ação."

  /** The one-liner of a model answer: stripped, or a fixed text when
      blank. */
  function LlmOneLiner(reply: LlmReply): (r: string)
    ensures !Blank(r)
    ensures !Blank(reply.oneLiner) ==> r == Strip(reply.oneLiner)
    ensures Blank(reply.oneLiner) ==> r == LlmFallbackOneLiner
  {
    if Blank(reply.oneLiner) then
      assert LlmFallbackOneLiner[0] == 'C';
      LlmFallbackOneLiner
    else Strip(reply.oneLiner)
  }

  /** The actions of a reply after cleaning: stripped, blank ones dropped;
      a value that is not a list counts as no actions. */
  function CleanedActions(reply: LlmReply): seq<string> {
    StrippedNonBlank(match reply.actions case None => [] case Some(a) => a)
  }

  /** The actions of a model answer: the cleaned actions deduplicated and
      cut to four, and a fixed action exactly when none is left. */
  function LlmActions(reply: LlmReply): (r: seq<string>)
    ensures 1 <= |r| <= 4 && NoDup(r)
    ensures forall k :: 0 <= k < |r| ==> !Blank(r[k])
    ensures CleanedActions(reply) == [] ==> r == [LlmFallbackAction]
    ensures CleanedActions(reply) != [] ==>
              && (forall k :: 0 <= k < |r| ==> r[k] in CleanedActions(reply))
              && (|r| == 4 || forall x :: x in CleanedActions(reply) ==> x in r)
              && |r| == Min(4, |Dedupe(CleanedActions(reply))|)
              && forall k :: 0 <= k < |r| ==> r[k] == Dedupe(CleanedActions(reply))[k]
  {
    var cleaned := CleanedActions(reply);
    var acts := Take(Dedupe(cleaned), 4);
    CutDedupe(cleaned, 4);
    if acts == [] then
      assert LlmFallbackAction[0] == 'L';
      [LlmFallbackAction]
    else
      acts
  }

  /** The checks `_classify_with_llm` applies to a decoded answer: an
      unknown priority label rejects it; otherwise the score is the fixed one
      for the label, the one-liner is never blank, and one to four distinct,
      non-blank actions are kept. */
  function FromLlmReply(subject: string, sender: string, snippet: string, reply: LlmReply): (r: Option<ClassifiedEmail>)
    ensures r.Some? <==> PriorityOfLabel(Strip(Upper(reply.priority))).Some?
    ensures r.Some? ==> var c := r.value;
              && c.priority == PriorityOfLabel(Strip(Upper(reply.priority))).value
              && c.score == LlmScore(c.priority)
              && c.oneLiner == LlmOneLiner(reply) && c.actions == LlmActions(reply)
              && !Blank(c.oneLiner)
              && 1 <= |c.actions| <= 4 && NoDup(c.actions)
              && (forall k :: 0 <= k < |c.actions| ==> !Blank(c.actions[k]))
              && c.subject == subject && c.sender == sender && c.snippet == snippet
              && c.dueDate == None
  {
    match PriorityOfLabel(Strip(Upper(reply.priority)))
    case None => None
    case Some(p) =>
      Some(ClassifiedEmail(subject, sender, snippet, p, LlmScore(p), LlmOneLiner(reply), LlmActions(reply), None))
  }

  /** `_classify_with_llm`: the model sees at most 800 characters of the
      snippet; no answer, an undecodable one or an unknown label gives
      `None`. */
  function ClassifyWithLlm(subject: string, sender: string, snippet: string, llm: LlmCall): (r: Option<ClassifiedEmail>)
    ensures r.Some? <==> llm(subject, sender, Take(snippet, 800)).Some?
                         && PriorityOfLabel(Strip(Upper(llm(subject, sender, Take(snippet, 800)).value.priority))).Some?
    ensures r.Some? ==> r == FromLlmReply(subject, sender, snippet, llm(subject, sender, Take(snippet, 800)).value)
    ensures r.Some? ==> var c := r.value;
              && c.score in {0, 25, 55, 85}
              && 1 <= |c.actions| <= 4
              && c.subject == subject && c.dueDate == None
              && Consistent(c)
  {
    match llm(subject, sender, Take(snippet, 800))
    case None => None
    case Some(reply) => FromLlmReply(subject, sender, snippet, reply)
  }

  // ---------------------------------------------------------------------
  // classify_email
  // ---------------------------------------------------------------------

  // A few texts are written as a short head plus the rest: the verifier
  // reads the first character of the short head directly, which is how the
  // proofs that these texts are not blank see it.
  const OneLinerIgnored := "Alerta/monitoramento de sistema (ignorado por regra)."
  const ActionIgnored := "Ignorar/" + "arquivar (não é prioridade pessoal)."
  const OneLinerLow := "Conteúdo promocional/newsletter/social."
  const ActionLow := "Arquivar " + "ou mover para pasta/label de promo/newsletter."
  const OneLinerHigh := "Banco/contas/escola/prazo: requer ação prática."
  const ActionOverdue := "Verificar se está vencido hoje/atrasado e regularizar imediatamente."
  const ActionSoon := "Agendar pagamento/ação hoje para não perder o prazo."
  const ActionThisWeek := "Colocar lembrete e planejar pagamento/ação ainda nesta semana."
  const ActionLater := "Registrar na sua lista de pendências com lembrete."
  const ActionOpenBill := "Abrir o email e verificar valor, vencimento e forma de pagamento."
  const ActionPayAndKeep := "Se possível, pagar via app/banco e arquivar o comprovante."
  const ActionFraud := "Abrir imediatamente: possível fraude. Bloquear/contestar no app do banco."
  const ActionSchool := "Abrir e checar se há prazo/ação (mensalidade, rematrícula, comunicado)."
  const OneLinerMedium := "Possivelmente relevante, mas sem urgência clara."
  const ActionMedium := "Ler " + "rapidamente e decidir se vira pendência/encaminhamento."
  const OneLinerFallback := "Sem sinais fortes de ser banco/conta/escola/prazo."
  const ActionFallback := "Arquivar ou revisar depois se tiver tempo."

  function Subject(email: Email): string {
    Get(email, ["subject"], "(sem assunto)")
  }

  function Sender(email: Email): string {
    Get(email, ["from", "sender", "from_email"], "(remetente desconhecido)")
  }

  function Snippet(email: Email): string {
    Get(email, ["snippet", "body"], "")
  }

  /** The text every rule looks at: subject, sender and snippet on separate
      lines. */
  function Blob(email: Email): string {
    Subject(email) + "\n" + Sender(email) + "\n" + Snippet(email)
  }

  /** The ALTA score for a due date `days` days away: overdue or today 100,
      within two days 95, within a week 90, later 85. */
  function DueScore(days: int): (s: int)
    ensures 85 <= s <= 100
  {
    if days <= 0 then 100 else if days <= 2 then 95 else if days <= 7 then 90 else 85
  }

  function DueAction(days: int): string {
    if days <= 0 then ActionOverdue
    else if days <= 2 then ActionSoon
    else if days <= 7 then ActionThisWeek
    else ActionLater
  }

  /** The action list of an ALTA email before dedupe: the due-date action,
      then the billing, fraud and school actions put in front (and the
      payment action at the back) as their keywords occur. */
  function RawHighActions(blob: string, due: Option<CalendarDate>, today: CalendarDate): seq<string> {
    var a0 := match due case None => [] case Some(d) => [DueAction(DaysUntil(d, today))];
    var a1 := if ContainsAny(blob, BillingWords) then [ActionOpenBill] + a0 + [ActionPayAndKeep] else a0;
    var a2 := if ContainsAny(blob, FraudWords) then [ActionFraud] + a1 else a1;
    if ContainsAny(blob, SchoolWords) then [ActionSchool] + a2 else a2
  }

  /** `[a for a in actions if a.strip()]`: exactly the non-blank actions. */
  function NonBlank(actions: seq<string>): (r: seq<string>)
    ensures forall k :: 0 <= k < |r| ==> r[k] in actions && !Blank(r[k])
    ensures forall i :: 0 <= i < |actions| && !Blank(actions[i]) ==> actions[i] in r
  {
    if actions == [] then []
    else
      assert forall i :: 1 <= i < |actions| ==> actions[i] == actions[1..][i - 1];
      (if Blank(actions[0]) then [] else [actions[0]]) + NonBlank(actions[1..])
  }

  /** The filter keeps the order of the actions it keeps. */
  lemma {:induction false} NonBlankAppend(a: seq<string>, b: seq<string>)
    ensures NonBlank(a + b) == NonBlank(a) + NonBlank(b)
  {
    if a == [] {
      assert a + b == b;
    } else {
      var h := if Blank(a[0]) then [] else [a[0]];
      assert (a + b)[0] == a[0] && (a + b)[1..] == a[1..] + b;
      assert NonBlank(a + b) == h + NonBlank(a[1..] + b);
      NonBlankAppend(a[1..], b);
      var rest, tail := NonBlank(a[1..]), NonBlank(b);
      assert h + (rest + tail) == (h + rest) + tail;
    }
  }

  /** The ALTA actions: the non-blank candidate actions, deduplicated in
      order of first occurrence and cut to five. */
  function HighActions(blob: string, due: Option<CalendarDate>, today: CalendarDate): (r: seq<string>)
    ensures |r| <= 5 && NoDup(r)
    ensures forall k :: 0 <= k < |r| ==> !Blank(r[k]) && r[k] in RawHighActions(blob, due, today)
    ensures |r| == 5 || forall x :: x in RawHighActions(blob, due, today) && !Blank(x) ==> x in r
    ensures |r| == Min(5, |Dedupe(NonBlank(RawHighActions(blob, due, today)))|)
    ensures forall k :: 0 <= k < |r| ==> r[k] == Dedupe(NonBlank(RawHighActions(blob, due, today)))[k]
  {
    var raw := RawHighActions(blob, due, today);
    CutDedupe(NonBlank(raw), 5);
    Take(Dedupe(NonBlank(raw)), 5)
  }

  function HighOneLiner(due: Option<CalendarDate>): string {
    match due
    case None => OneLinerHigh
    case Some(d) => OneLinerHigh + " Data detectada: " + FormatDayMonthYear(d) + "."
  }

  function Min(a: int, b: int): int {
    if a <= b then a else b
  }

  /** The ALTA rule fires on a high-priority keyword, or on a due hint
      together with a detected date. */
  predicate HighRuleFires(email: Email, env: Oracles) {
    ContainsAny(Blob(email), HighPriorityKeywords)
    || (ContainsAny(Blob(email), DueHints) && ExtractFirstDate(Blob(email), env.dateSearch, env.today.year).Some?)
  }

  /** The fixed action texts of the non-ALTA rules are not blank. */
  lemma FixedActionsVisible()
    ensures !Blank(ActionIgnored) && !Blank(ActionLow) && !Blank(ActionMedium) && !Blank(ActionFallback)
  {
    assert ActionIgnored[0] == 'I';
    assert ActionLow[0] == 'A';
    assert ActionMedium[0] == 'L';
    assert ActionFallback[0] == 'A';
  }

  /** A subject read with `_get` is never blank: either a non-blank stripped
      field or the default `(sem assunto)`. */
  lemma SubjectVisible(email: Email)
    ensures !Blank(Subject(email))
  {
    assert "(sem assunto)"[0] == '(';
  }

  /** The ALTA branch of `classify_email`: the score follows the detected
      due date (85 without one, then 100, 95, 90 or 85 as the date is
      overdue, within two days, within a week or later). */
  function HighEmail(subject: string, sender: string, snippet: string, blob: string, env: Oracles): (r: ClassifiedEmail)
    ensures r.priority == Alta && 85 <= r.score <= 100
    ensures r.dueDate == ExtractFirstDate(blob, env.dateSearch, env.today.year)
    ensures r.dueDate.None? ==> r.score == 85
    ensures r.dueDate.Some? ==> r.score == DueScore(DaysUntil(r.dueDate.value, env.today))
    ensures r.subject == subject
    ensures Consistent(r)
  {
    var due := ExtractFirstDate(blob, env.dateSearch, env.today.year);
    var score := match due case None => 85 case Some(d) => DueScore(DaysUntil(d, env.today));
    ClassifiedEmail(subject, sender, snippet, Alta, Min(100, score), HighOneLiner(due),
                    HighActions(blob, due, env.today), due)
  }

  /** The last rung: the language model's classification when it gives
      one, and BAIXA/25 with a fixed text otherwise. */
  function ModelOrFallback(subject: string, sender: string, snippet: string, llm: LlmCall): (r: ClassifiedEmail)
    requires !Blank(subject)
    ensures r.subject == subject
    ensures Consistent(r)
    ensures ClassifyWithLlm(subject, sender, snippet, llm).Some? ==> r == ClassifyWithLlm(subject, sender, snippet, llm).value
    ensures ClassifyWithLlm(subject, sender, snippet, llm).None? ==> r.priority == Baixa && r.score == 25 && r.dueDate.None?
  {
    FixedActionsVisible();
    match ClassifyWithLlm(subject, sender, snippet, llm)
    case Some(c) => c
    case None =>
      ClassifiedEmail(subject, sender, snippet, Baixa, 25, OneLinerFallback, [ActionFallback], None)
  }

  /** The rung of `classify_email`'s ladder that decides an email. */
  datatype Rule = IgnoreRule | LowRule | HighRule | MediumRule | ModelRule

  /** The first rule whose test passes, in the order `classify_email` tries
      them: ignore patterns, low-priority patterns, the ALTA rule, medium
      keywords, and otherwise the language model. */
  function RuleFor(email: Email, env: Oracles): Rule {
    var blob := Blob(email);
    if MatchesAny(blob, IgnoreSubjectPatterns, env.matches) then IgnoreRule
    else if MatchesAny(blob, LowPriorityPatterns, env.matches) then LowRule
    else if HighRuleFires(email, env) then HighRule
    else if ContainsAny(blob, MediumPriorityKeywords) then MediumRule
    else ModelRule
  }

  /** The result `classify_email` builds once a rule has decided: fixed
      label, score, one-liner and action for the ignore, low and medium
      rules, the due-date driven ALTA record, or the language model's answer
      with BAIXA/25 as the fallback. */
  function ApplyRule(rule: Rule, subject: string, sender: string, snippet: string, blob: string, env: Oracles): (r: ClassifiedEmail)
    requires !Blank(subject)
    ensures r.subject == subject
    ensures Consistent(r)
    ensures rule == IgnoreRule ==> r.priority == Ignorar && r.score == 0
    ensures rule == LowRule ==> r.priority == Baixa && r.score == 15
    ensures rule == HighRule ==> r == HighEmail(subject, sender, snippet, blob, env)
    ensures rule == MediumRule ==> r.priority == Media && r.score == 55
    ensures rule == ModelRule ==> r == ModelOrFallback(subject, sender, snippet, env.llm)
  {
    FixedActionsVisible();
    match rule
    case IgnoreRule =>
      ClassifiedEmail(subject, sender, snippet, Ignorar, 0, OneLinerIgnored, [ActionIgnored], None)
    case LowRule =>
      ClassifiedEmail(subject, sender, snippet, Baixa, 15, OneLinerLow, [ActionLow], None)
    case HighRule =>
      HighEmail(subject, sender, snippet, blob, env)
    case MediumRule =>
      ClassifiedEmail(subject, sender, snippet, Media, 55, OneLinerMedium, [ActionMedium], None)
    case ModelRule =>
      ModelOrFallback(subject, sender, snippet, env.llm)
  }

  /** `classify_email`: the rule ladder ignore, low, high (with due-date
      adjustment), medium, language model, fallback. The label always
      agrees with the score band (ALTA at 75 or more, MEDIA from 45 to 74,
      BAIXA from 1 to 44, IGNORAR exactly 0), the score is one of eight
      fixed values, the subject is never blank, and at most five distinct
      non-blank actions are kept. */
  function ClassifyEmail(email: Email, env: Oracles): (r: ClassifiedEmail)
    ensures r.score in Scores
    ensures r.priority == Alta <==> r.score >= 75
    ensures r.priority == Media <==> 45 <= r.score < 75
    ensures r.priority == Baixa <==> 0 < r.score < 45
    ensures r.priority == Ignorar <==> r.score == 0
    ensures |r.actions| <= 5 && NoDup(r.actions)
    ensures forall k :: 0 <= k < |r.actions| ==> !Blank(r.actions[k])
    ensures !Blank(r.subject)
    ensures r.dueDate.Some? ==> r.priority == Alta
  {
    SubjectVisible(email);
    ApplyRule(RuleFor(email, env), Subject(email), Sender(email), Snippet(email), Blob(email), env)
  }

  /** The order of the rules: an ignore-pattern match decides before
      anything else, then a low-priority pattern, then the ALTA rule, then a
      medium keyword; only after all four does the language model or the
      fallback BAIXA/25 apply. */
  lemma RuleLadder(email: Email, env: Oracles)
    ensures var blob, r := Blob(email), ClassifyEmail(email, env);
      && (MatchesAny(blob, IgnoreSubjectPatterns, env.matches)
          ==> r.priority == Ignorar && r.score == 0)
      && ((!MatchesAny(blob, IgnoreSubjectPatterns, env.matches)
           && MatchesAny(blob, LowPriorityPatterns, env.matches))
          ==> r.priority == Baixa && r.score == 15)
      && ((!MatchesAny(blob, IgnoreSubjectPatterns, env.matches)
           && !MatchesAny(blob, LowPriorityPatterns, env.matches)
           && HighRuleFires(email, env))
          ==> r.priority == Alta)
      && ((!MatchesAny(blob, IgnoreSubjectPatterns, env.matches)
           && !MatchesAny(blob, LowPriorityPatterns, env.matches)
           && !HighRuleFires(email, env)
           && ContainsAny(blob, MediumPriorityKeywords))
          ==> r.priority == Media && r.score == 55)
      && ((!MatchesAny(blob, IgnoreSubjectPatterns, env.matches)
           && !MatchesAny(blob, LowPriorityPatterns, env.matches)
           && !HighRuleFires(email, env)
           && !ContainsAny(blob, MediumPriorityKeywords))
          ==> r == ModelOrFallback(Subject(email), Sender(email), Snippet(email), env.llm))
  {
    SubjectVisible(email);
    assert ClassifyEmail(email, env)
        == ApplyRule(RuleFor(email, env), Subject(email), Sender(email), Snippet(email), Blob(email), env);
  }

  /** An ALTA email's score follows its detected due date: 85 without one,
      otherwise 100 when overdue or due today, 95 within two days, 90 within
      a week and 85 after that; it never exceeds 100. */
  lemma HighScoreFollowsDueDate(email: Email, env: Oracles)
    requires !MatchesAny(Blob(email), IgnoreSubjectPatterns, env.matches)
    requires !MatchesAny(Blob(email), LowPriorityPatterns, env.matches)
    requires HighRuleFires(email, env)
    ensures var r := ClassifyEmail(email, env);
      && r.priority == Alta
      && r.dueDate == ExtractFirstDate(Blob(email), env.dateSearch, env.today.year)
      && (r.dueDate.None? ==> r.score == 85)
      && (r.dueDate.Some? ==>
            var d := DaysUntil(r.dueDate.value, env.today);
            && (d <= 0 ==> r.score == 100)
            && (0 < d <= 2 ==> r.score == 95)
            && (2 < d <= 7 ==> r.score == 90)
            && (7 < d ==> r.score == 85))
  {
    SubjectVisible(email);
    assert RuleFor(email, env) == HighRule;
    assert ClassifyEmail(email, env)
        == HighEmail(Subject(email), Sender(email), Snippet(email), Blob(email), env);
  }
}
