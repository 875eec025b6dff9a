/** The analyzer page: the editor's language support, and the button that
    sends code for analysis. */
module AnalyzerPage {
  import opened Wrappers
  import opened Text
  import AnalysisController

  /** The editor's syntax support packages. */
  datatype Extension = JavaScriptSupport | PythonSupport | JavaSupport | CppSupport

  /** An entry of the language selector. */
  datatype Language = Language(value: string, name: string, extension: Extension)

  /** The selector's entries, in display order; C shares the C++ support. */
  const Languages: seq<Language> := [
    Language("javascript", "JavaScript", JavaScriptSupport),
    Language("python", "Python", PythonSupport),
    Language("java", "Java", JavaSupport),
    Language("cpp", "C++", CppSupport),
    Language("c", "C", CppSupport)
  ]

  const DefaultLanguage := "javascript"
  const EmptyCode := "Please enter some code to analyze"
  const AnalysisFailed := "Analysis failed. Please try again."

  /** The position `LANGUAGES.find(l => l.value === value)` stops at: the
      first entry with that value. */
  function FindIndex(entries: seq<Language>, value: string): (r: Option<nat>)
    ensures r.None? <==> forall i :: 0 <= i < |entries| ==> entries[i].value != value
    ensures r.Some? ==> r.value < |entries| && entries[r.value].value == value
                        && forall j :: 0 <= j < r.value ==> entries[j].value != value
  {
    if entries == [] then None
    else if entries[0].value == value then Some(0)
    else
      match FindIndex(entries[1..], value)
      case None => None
      case Some(k) => Some(k + 1)
  }

  /** `getLanguageExtension`: the selected entry's support, JavaScript when
      the value is not listed. */
  function LanguageExtension(value: string): Extension {
    match FindIndex(Languages, value)
    case Some(i) => Languages[i].extension
    case None => JavaScriptSupport
  }

  /** A value the selector offers. */
  predicate Listed(value: string) {
    exists i :: 0 <= i < |Languages| && Languages[i].value == value
  }

  /** Each listed value gets its own entry's support: the values are
      distinct, so the first match is the only one. */
  lemma ListedExtension(i: nat)
    requires i < |Languages|
    ensures LanguageExtension(Languages[i].value) == Languages[i].extension
  {
    var r := FindIndex(Languages, Languages[i].value);
    assert r.Some?;
    // The listed values have pairwise different lengths.
    assert |Languages[0].value| == 10 && |Languages[1].value| == 6 && |Languages[2].value| == 4
        && |Languages[3].value| == 3 && |Languages[4].value| == 1;
    assert |Languages[r.value].value| == |Languages[i].value|;
    assert r.value == i;
    assert LanguageExtension(Languages[i].value) == Languages[r.value].extension;
  }

  /** C uses the C++ support, and anything unlisted falls back to JavaScript. */
  lemma ExtensionFallbacks(value: string)
    ensures LanguageExtension("c") == CppSupport
    ensures !Listed(value) ==> LanguageExtension(value) == JavaScriptSupport
  {
    ListedExtension(4);
  }

  /** What a click on the button did. */
  datatype Step = RedirectToLogin | Rejected | Send(code: string, language: string)

  /** The page state the handlers change. */
  class AnalyzerState {
    var code: string
    var language: string
    var result: Option<AnalysisController.CreatedView>
    var loading: bool
    var error: string

    /** The selector only offers listed values. */
    ghost predicate Valid()
      reads this
    {
      Listed(language)
    }

    /** The page as it opens: sample code, JavaScript, nothing shown yet. */
    constructor(sampleCode: string)
      ensures Valid()
      ensures code == sampleCode && language == DefaultLanguage && result.None? && !loading && error == ""
    {
      code := sampleCode;
      language := DefaultLanguage;
      assert Languages[0].value == DefaultLanguage;
      result := None;
      loading := false;
      error := "";
    }

    /** A choice in the selector. */
    method SelectLanguage(value: string)
      requires Listed(value)
      modifies this
      ensures Valid() && language == value
      ensures code == old(code) && result == old(result) && loading == old(loading) && error == old(error)
    {
      language := value;
    }

    /** The synchronous part of `handleAnalyze`: without a session the user
        is sent to the login page and nothing changes; code that is blank
        after trimming sets the error; otherwise the error and the previous
        result are cleared, loading starts and the request is sent. */
    method BeginAnalyze(isAuthenticated: bool) returns (step: Step)
      requires Valid()
      modifies this
      ensures Valid()
      ensures !isAuthenticated ==> step == RedirectToLogin
                                   && error == old(error) && loading == old(loading) && result == old(result)
      ensures isAuthenticated && Trim(code) == "" ==> step == Rejected && error == EmptyCode
                                                      && loading == old(loading) && result == old(result)
      ensures isAuthenticated && Trim(code) != "" ==> step == Send(code, language)
                                                      && error == "" && loading && result.None?
      ensures code == old(code) && language == old(language)
    {
      if !isAuthenticated {
        return RedirectToLogin;
      }
      if Trim(code) == "" {
        error := EmptyCode;
        return Rejected;
      }
      error := "";
      loading := true;
      result := None;
      step := Send(code, language);
    }

    /** The end of `handleAnalyze`: loading stops; the server's 201 body is
        shown, or its message, or a default when it sent none. */
    method CompleteAnalyze(response: Result<AnalysisController.CreatedView, string>)
      requires Valid()
      modifies this
      ensures Valid()
      ensures !loading
      ensures response.Success? ==> result == Some(response.value) && error == old(error)
      ensures response.Failure? ==> result == old(result)
                                    && error == (if response.error != "" then response.error else AnalysisFailed)
      ensures code == old(code) && language == old(language)
    {
      loading := false;
      match response
      case Success(view) =>
        result := Some(view);
      case Failure(message) =>
        error := if message != "" then message else AnalysisFailed;
    }
  }

  /** A request the page sends passes the server's presence check, and its
      language survives the server's trimming. */
  lemma SentRequestPassesServerChecks(code: string, language: string)
    requires Trim(code) != "" && Listed(language)
    ensures AnalysisController.TruthyText(Some(code)) && AnalysisController.TruthyText(Some(language))
    ensures Trim(language) == language && Trim(language) != ""
  {
    var i :| 0 <= i < |Languages| && Languages[i].value == language;
    assert !IsWhitespace(language[0]) && !IsWhitespace(language[|language| - 1]) by {
      if i == 0 {
        assert language[0] == 'j' && language[9] == 't';
      } else if i == 1 {
        assert language[0] == 'p' && language[5] == 'n';
      } else if i == 2 {
        assert language[0] == 'j' && language[3] == 'a';
      } else if i == 3 {
        assert language[0] == 'c' && language[2] == 'p';
      } else {
        assert language[0] == 'c';
      }
    }
    TrimFixpoint(language);
  }
}
