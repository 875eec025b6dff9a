/** The analysis request handlers: run the analyzer on submitted code and
    keep the result, list a user's history, and read or delete one analysis,
    which only its owner may do. */
module AnalysisController {
  import opened Wrappers
  import opened Text
  import opened JsonValue
  import opened Identity
  import opened GeminiService
  import opened Listing
  import opened Sequences

  type AnalysisId = nat

  /** A stored analysis. Complexity leaves and the explanation hold what the
      service produced, cast to strings; `language` is stored trimmed. */
  datatype AnalysisRecord = AnalysisRecord(user: UserId, code: string, language: string,
                                           timeComplexity: Complexity, spaceComplexity: Complexity,
                                           explanation: Json, rawResponse: string, createdAt: int)

  /** The 201 body of `createAnalysis`: no owner and no raw reply. */
  datatype CreatedView = CreatedView(id: AnalysisId, code: string, language: string,
                                     timeComplexity: Complexity, spaceComplexity: Complexity,
                                     explanation: Json, createdAt: int)

  /** A history row: every field but the raw reply. */
  datatype HistoryEntry = HistoryEntry(id: AnalysisId, user: UserId, code: string, language: string,
                                       timeComplexity: Complexity, spaceComplexity: Complexity,
                                       explanation: Json, createdAt: int)

  datatype Payload =
    | CreatedJson(view: CreatedView)
    | HistoryJson(items: seq<HistoryEntry>)
    | AnalysisJson(id: AnalysisId, record: AnalysisRecord)
    | Message(text: string)

  datatype Reply = Reply(status: int, body: Payload)

  const CodeAndLanguageRequired := "Code and language are required"
  const AnalysisNotFound := "Analysis not found"
  const NotAuthorized := "Not authorized"
  const AnalysisDeleted := "Analysis deleted"
  /** How every schema validation error message begins. */
  const ValidationFailed := "Analysis validation failed: "
  /** The schema's error for a language that is blank once trimmed. */
  const LanguageValidationError := ValidationFailed + "language: Programming language is required"
  /** The schema's error for a value that cannot be cast to a string; the
      failing paths and values Mongoose appends are not modelled. */
  const CastValidationError := ValidationFailed + "Cast to string failed"

  /** A string field that is present and non-empty. */
  predicate TruthyText(v: Option<string>) {
    v.Some? && v.value != ""
  }

  /** The record `Analysis.create` stores from a successful analysis whose
      report has already been cast. */
  function NewRecord(user: UserId, code: string, language: string, data: Report, now: int): AnalysisRecord {
    AnalysisRecord(user, code, Trim(language), data.timeComplexity, data.spaceComplexity,
                   data.explanation, data.rawResponse, now)
  }

  function ViewOf(id: AnalysisId, a: AnalysisRecord): CreatedView {
    CreatedView(id, a.code, a.language, a.timeComplexity, a.spaceComplexity, a.explanation, a.createdAt)
  }

  function EntryOf(id: AnalysisId, a: AnalysisRecord): HistoryEntry {
    HistoryEntry(id, a.user, a.code, a.language, a.timeComplexity, a.spaceComplexity, a.explanation, a.createdAt)
  }

  function EntryId(e: HistoryEntry): AnalysisId {
    e.id
  }

  /** The history rows of the listed records. */
  function Entries(analyses: map<AnalysisId, AnalysisRecord>, ids: seq<AnalysisId>): (items: seq<HistoryEntry>)
    requires forall i :: 0 <= i < |ids| ==> ids[i] in analyses
    ensures Map(items, EntryId) == ids
    ensures forall i :: 0 <= i < |items| ==> items[i] == EntryOf(ids[i], analyses[ids[i]])
  {
    seq(|ids|, i requires 0 <= i < |ids| => EntryOf(ids[i], analyses[ids[i]]))
  }

  function CreatedAt(a: AnalysisRecord): int {
    a.createdAt
  }

  /** What the schema guarantees of every stored analysis. */
  predicate WellFormed(a: AnalysisRecord) {
    a.code != "" && a.language != "" && Trim(a.language) == a.language
  }

  // ---------------------------------------------------------------------------
  // What the schema's `String` paths accept

  /** Mongoose's cast of a value assigned to a `String` path: `null` and
      strings are kept, a boolean becomes its text, an object is replaced by
      its `_id` member when that is a non-empty string, and an array or any
      other object cannot be cast (None). A number is kept as a number: its
      JavaScript text is not modelled. */
  function CastToString(j: Json): (r: Option<Json>)
    ensures r.Some? ==> r.value.JNull? || r.value.JString? || r.value.JNumber?
    ensures (j.JNull? || j.JString? || j.JNumber?) ==> r == Some(j)
    ensures j.JArray? ==> r.None?
    ensures j.JObject? ==> (r.Some? <==> exists id :: id != "" && Member(j, "_id") == Some(JString(id)))
  {
    match j
    case JNull => Some(j)
    case JBool(b) => Some(JString(if b then "true" else "false"))
    case JNumber(_) => Some(j)
    case JString(_) => Some(j)
    case JArray(_) => None
    case JObject(_) =>
      match Member(j, "_id")
      case Some(JString(id)) => if id != "" then Some(JString(id)) else None
      case _ => None
  }

  /** A value the cast already produced casts to itself. */
  lemma CastIdempotent(j: Json)
    requires CastToString(j).Some?
    ensures CastToString(CastToString(j).value) == CastToString(j)
  {
  }

  /** The three leaves of a complexity group after the cast, or None when
      one of them cannot be cast. */
  function CastComplexity(c: Complexity): (r: Option<Complexity>)
    ensures r.Some? <==> CastToString(c.bestCase).Some? && CastToString(c.averageCase).Some?
                         && CastToString(c.worstCase).Some?
    ensures r.Some? ==> r.value == Complexity(CastToString(c.bestCase).value, CastToString(c.averageCase).value,
                                              CastToString(c.worstCase).value)
  {
    match (CastToString(c.bestCase), CastToString(c.averageCase), CastToString(c.worstCase))
    case (Some(b), Some(a), Some(w)) => Some(Complexity(b, a, w))
    case _ => None
  }

  /** The report as the document holds it: every complexity leaf and the
      explanation cast to a string, the raw reply as it was. None when any
      of the seven values cannot be cast, which fails validation. */
  function CastReport(d: Report): (r: Option<Report>)
    ensures r.Some? <==> CastComplexity(d.timeComplexity).Some? && CastComplexity(d.spaceComplexity).Some?
                         && CastToString(d.explanation).Some?
    ensures r.Some? ==> r.value.rawResponse == d.rawResponse
                        && r.value.timeComplexity == CastComplexity(d.timeComplexity).value
                        && r.value.spaceComplexity == CastComplexity(d.spaceComplexity).value
                        && r.value.explanation == CastToString(d.explanation).value
  {
    match (CastComplexity(d.timeComplexity), CastComplexity(d.spaceComplexity), CastToString(d.explanation))
    case (Some(t), Some(sp), Some(e)) => Some(Report(t, sp, e, d.rawResponse))
    case _ => None
  }

  /** A report whose seven values are all strings is stored unchanged. */
  lemma StringReportStoredAsIs(d: Report)
    requires d.timeComplexity.bestCase.JString? && d.timeComplexity.averageCase.JString?
    requires d.timeComplexity.worstCase.JString?
    requires d.spaceComplexity.bestCase.JString? && d.spaceComplexity.averageCase.JString?
    requires d.spaceComplexity.worstCase.JString?
    requires d.explanation.JString?
    ensures CastReport(d) == Some(d)
  {
  }

  /** A reply whose explanation is an object without a string `_id` (or an
      array) cannot be stored, whatever the complexity groups hold. */
  lemma StructuredExplanationRejected(d: Report)
    requires d.explanation.JArray? || (d.explanation.JObject? && Member(d.explanation, "_id").None?)
    ensures CastReport(d).None?
  {
  }

  /** The analysis collection. */
  class AnalysisStore {
    var analyses: map<AnalysisId, AnalysisRecord>
    var nextId: AnalysisId

    ghost predicate Valid()
      reads this
    {
      forall id :: id in analyses ==> id < nextId && WellFormed(analyses[id])
    }

    constructor()
      ensures Valid() && analyses == map[]
    {
      analyses := map[];
      nextId := 0;
    }

    /** `createAnalysis`: 400 without a non-empty code and language (the
        model is not consulted); a failed analysis is a 500 carrying the
        service's error; a value the schema cannot cast to a string or a
        language that trims to nothing fails validation with a 500 and
        nothing stored; otherwise the cast record is stored and returned
        without its raw reply. */
    method CreateAnalysis(user: User, code: Option<string>, language: Option<string>,
                          generate: string -> Result<string, string>,
                          parse: string -> Result<Json, string>, now: int) returns (r: Reply)
      requires Valid()
      modifies this
      ensures Valid()
      ensures !(TruthyText(code) && TruthyText(language)) ==>
                r == Reply(400, Message(CodeAndLanguageRequired)) && analyses == old(analyses)
      ensures TruthyText(code) && TruthyText(language) ==>
                var outcome := AnalyzeCode(code.value, language.value, generate, parse);
                && (outcome.AnalysisFailed? ==>
                      r == Reply(500, Message(outcome.error)) && analyses == old(analyses))
                && (outcome.Analyzed? && (Trim(language.value) == "" || CastReport(outcome.data).None?) ==>
                      && r.status == 500 && r.body.Message?
                      && ValidationFailed <= r.body.text
                      && analyses == old(analyses))
                && (outcome.Analyzed? && Trim(language.value) == "" && CastReport(outcome.data).Some? ==>
                      r == Reply(500, Message(LanguageValidationError)))
                && (outcome.Analyzed? && Trim(language.value) != "" && CastReport(outcome.data).Some? ==>
                      var a := NewRecord(user.id, code.value, language.value, CastReport(outcome.data).value, now);
                      && old(nextId) !in old(analyses)
                      && analyses == old(analyses)[old(nextId) := a]
                      && r == Reply(201, CreatedJson(ViewOf(old(nextId), a))))
    {
      if !(TruthyText(code) && TruthyText(language)) {
        return Reply(400, Message(CodeAndLanguageRequired));
      }
      var outcome := AnalyzeCode(code.value, language.value, generate, parse);
      if outcome.AnalysisFailed? {
        return Reply(500, Message(outcome.error));
      }
      var stored := CastReport(outcome.data);
      if stored.None? {
        return Reply(500, Message(CastValidationError));
      }
      if Trim(language.value) == "" {
        return Reply(500, Message(LanguageValidationError));
      }
      TrimIdempotent(language.value);
      var a := NewRecord(user.id, code.value, language.value, stored.value, now);
      analyses := analyses[nextId := a];
      r := Reply(201, CreatedJson(ViewOf(nextId, a)));
      nextId := nextId + 1;
    }

    /** `getAnalysisHistory`: the requester's analyses, newest first,
        without the raw reply. */
    method GetAnalysisHistory(user: User) returns (r: Reply)
      ensures r.status == 200 && r.body.HistoryJson?
      ensures IsListing(analyses, (a: AnalysisRecord) => a.user == user.id, CreatedAt, Map(r.body.items, EntryId))
      ensures forall i :: 0 <= i < |r.body.items| ==>
                r.body.items[i] == EntryOf(r.body.items[i].id, analyses[r.body.items[i].id])
    {
      var ids := SelectNewestFirst(analyses, (a: AnalysisRecord) => a.user == user.id, CreatedAt);
      r := Reply(200, HistoryJson(Entries(analyses, ids)));
    }

    /** `getAnalysis`: 404 when missing, 403 for anyone but the owner (there
        is no administrator exception), the whole record otherwise. */
    method GetAnalysis(user: User, id: AnalysisId) returns (r: Reply)
      ensures id !in analyses ==> r == Reply(404, Message(AnalysisNotFound))
      ensures id in analyses && analyses[id].user != user.id ==> r == Reply(403, Message(NotAuthorized))
      ensures id in analyses && analyses[id].user == user.id ==> r == Reply(200, AnalysisJson(id, analyses[id]))
    {
      if id !in analyses {
        return Reply(404, Message(AnalysisNotFound));
      }
      if analyses[id].user != user.id {
        return Reply(403, Message(NotAuthorized));
      }
      r := Reply(200, AnalysisJson(id, analyses[id]));
    }

    /** `deleteAnalysis`: removed only by its owner. */
    method DeleteAnalysis(user: User, id: AnalysisId) returns (r: Reply)
      requires Valid()
      modifies this
      ensures Valid()
      ensures id !in old(analyses) ==> r == Reply(404, Message(AnalysisNotFound)) && analyses == old(analyses)
      ensures id in old(analyses) && old(analyses)[id].user != user.id ==>
                r == Reply(403, Message(NotAuthorized)) && analyses == old(analyses)
      ensures id in old(analyses) && old(analyses)[id].user == user.id ==>
                r == Reply(200, Message(AnalysisDeleted)) && analyses == old(analyses) - {id}
    {
      if id !in analyses {
        return Reply(404, Message(AnalysisNotFound));
      }
      if analyses[id].user != user.id {
        return Reply(403, Message(NotAuthorized));
      }
      analyses := analyses - {id};
      r := Reply(200, Message(AnalysisDeleted));
    }
  }

  /** The stored record keeps the model's whole reply, which neither the
      201 body nor a history row carries; the stored language is the trimmed
      one while the prompt used the language as sent. */
  lemma RecordKeepsRawReply(user: UserId, code: string, language: string,
                            generate: string -> Result<string, string>,
                            parse: string -> Result<Json, string>, now: int)
    requires AnalyzeCode(code, language, generate, parse).Analyzed?
    requires CastReport(AnalyzeCode(code, language, generate, parse).data).Some?
    ensures var a := NewRecord(user, code, language, CastReport(AnalyzeCode(code, language, generate, parse).data).value, now);
            && a.rawResponse == generate(BuildPrompt(code, language)).value
            && a.language == Trim(language)
            && ViewOf(0, a).code == code
  {
  }
}
