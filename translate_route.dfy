/**
 * The server-side translation endpoint: `POST /api/translate`.
 * The language model and `Intl.DisplayNames` are foreign and appear as
 * oracle functions; everything around them is the endpoint's own decision logic.
 */
module TranslateRoute {

  import opened Wrappers
  import opened JsText

  /** A property of the parsed JSON body as destructuring sees it. */
  datatype Field =
    | Absent                    // missing, `undefined`
    | Str(s: string)            // a JSON string
    | NonString(truthy: bool)   // null, a number, a boolean, an array or an object

  /** JavaScript truthiness of a field. */
  predicate Truthy(f: Field) {
    match f
    case Absent => false
    case Str(s) => s != []
    case NonString(t) => t
  }

  /** The request body: `req.json()` either throws or yields the three fields. */
  datatype Body = Unparseable | Parsed(text: Field, fromLanguage: Field, toLanguage: Field)

  /** What the prompt is built from: the two language display names and the original text. */
  datatype Prompt = Prompt(fromName: string, toName: string, text: Field)

  datatype ResponseBody = Translated(translatedText: string) | Failed(error: string)

  datatype Response = Response(status: nat, body: ResponseBody)

  const KeyMissing := Response(500, Failed("API key not configured"))
  const FieldsMissing := Response(400, Failed("Missing required fields"))
  const TranslationFailed := Response(500, Failed("Failed to translate text"))

  /** `process.env.GEMINI_API_KEY` is set to a non-empty value. */
  predicate KeyConfigured(apiKey: Option<string>) {
    apiKey.Some? && apiKey.value != []
  }

  /** The body passes validation: all three fields truthy. */
  predicate FieldsPresent(body: Body)
    requires body.Parsed?
  {
    Truthy(body.text) && Truthy(body.fromLanguage) && Truthy(body.toLanguage)
  }

  /**
   * `tag.split("-")[0]` on a field; None when the field is not a string,
   * where `split` throws a TypeError.
   */
  function LanguageCode(f: Field): (r: Option<string>)
    ensures r.Some? <==> f.Str?
    ensures r.Some? ==> r.value <= f.s && '-' !in r.value
    ensures r.Some? && |r.value| < |f.s| ==> f.s[|r.value|] == '-'
  {
    match f
    case Str(s) => Some(BeforeFirst(s, '-'))
    case _ => None
  }

  /**
   * The prompt for a validated body, or None when building it throws.
   * `displayName` is `Intl.DisplayNames(["en"]).of`, None where it throws.
   */
  function PromptFor(body: Body, displayName: string -> Option<string>): (r: Option<Prompt>)
    requires body.Parsed?
    ensures r.Some? <==>
      && body.fromLanguage.Str? && body.toLanguage.Str?
      && displayName(BeforeFirst(body.fromLanguage.s, '-')).Some?
      && displayName(BeforeFirst(body.toLanguage.s, '-')).Some?
    ensures r.Some? ==> r.value.text == body.text
    // the source language names the "from" side and the target language the "to" side
    ensures r.Some? ==>
      && r.value.fromName == displayName(BeforeFirst(body.fromLanguage.s, '-')).value
      && r.value.toName == displayName(BeforeFirst(body.toLanguage.s, '-')).value
  {
    match (LanguageCode(body.fromLanguage), LanguageCode(body.toLanguage))
    case (Some(fromCode), Some(toCode)) =>
      (match (displayName(fromCode), displayName(toCode))
       case (Some(fromName), Some(toName)) => Some(Prompt(fromName, toName, body.text))
       case _ => None)
    case _ => None
  }

  /**
   * The handler. `model` is the Gemini call: the reply text, or None when
   * `generateContent` or `response.text()` throws.
   */
  function Post(apiKey: Option<string>, body: Body,
                displayName: string -> Option<string>,
                model: Prompt -> Option<string>): (r: Response)
    // the key is checked before anything else
    ensures !KeyConfigured(apiKey) ==> r == KeyMissing
    // an unreadable body is a runtime failure
    ensures KeyConfigured(apiKey) && body.Unparseable? ==> r == TranslationFailed
    // validation happens before the model is asked
    ensures KeyConfigured(apiKey) && body.Parsed? && !FieldsPresent(body) ==> r == FieldsMissing
    // a validated body whose prompt cannot be built throws inside the `try`
    ensures KeyConfigured(apiKey) && body.Parsed? && FieldsPresent(body) && PromptFor(body, displayName).None?
            ==> r == TranslationFailed
    // status and body agree
    ensures r.status == 200 <==> r.body.Translated?
    ensures r.status != 200 ==> r == KeyMissing || r == FieldsMissing || r == TranslationFailed
    // success carries the trimmed model output for the prompt built from the body
    ensures r.body.Translated? ==>
      && KeyConfigured(apiKey) && body.Parsed? && FieldsPresent(body)
      && PromptFor(body, displayName).Some?
      && model(PromptFor(body, displayName).value).Some?
      && r.body.translatedText == Trim(model(PromptFor(body, displayName).value).value)
    ensures r.body.Translated? ==> Trimmed(r.body.translatedText)
  {
    if !KeyConfigured(apiKey) then KeyMissing
    else if body.Unparseable? then TranslationFailed
    else if !FieldsPresent(body) then FieldsMissing
    else match PromptFor(body, displayName)
      case None => TranslationFailed
      case Some(prompt) =>
        match model(prompt)
        case None => TranslationFailed
        case Some(reply) => Response(200, Translated(Trim(reply)))
  }

  /** A validated request whose prompt can be built is answered with 200 exactly when the model replies. */
  lemma SuccessExactlyWhenModelReplies(apiKey: Option<string>, body: Body,
                                       displayName: string -> Option<string>,
                                       model: Prompt -> Option<string>)
    requires KeyConfigured(apiKey) && body.Parsed? && FieldsPresent(body)
    requires PromptFor(body, displayName).Some?
    ensures Post(apiKey, body, displayName, model).status == 200
            <==> model(PromptFor(body, displayName).value).Some?
    ensures model(PromptFor(body, displayName).value).None? ==>
            Post(apiKey, body, displayName, model) == TranslationFailed
  {
  }

  /** Rejected requests never reach the model: any two models give the same response. */
  lemma RejectedRequestsIgnoreModel(apiKey: Option<string>, body: Body,
                                    displayName: string -> Option<string>,
                                    model1: Prompt -> Option<string>,
                                    model2: Prompt -> Option<string>)
    requires !KeyConfigured(apiKey) || body.Unparseable? || !FieldsPresent(body)
    ensures Post(apiKey, body, displayName, model1) == Post(apiKey, body, displayName, model2)
  {
  }

  /**
   * Only the part of each language tag before the first "-" matters:
   * "en-US" and "en-GB" produce the same response.
   */
  lemma OnlyLanguagePrefixMatters(apiKey: Option<string>, body1: Body, body2: Body,
                                  displayName: string -> Option<string>,
                                  model: Prompt -> Option<string>)
    requires body1.Parsed? && body2.Parsed? && body1.text == body2.text
    requires body1.fromLanguage.Str? && body2.fromLanguage.Str?
    requires body1.toLanguage.Str? && body2.toLanguage.Str?
    requires BeforeFirst(body1.fromLanguage.s, '-') == BeforeFirst(body2.fromLanguage.s, '-')
    requires BeforeFirst(body1.toLanguage.s, '-') == BeforeFirst(body2.toLanguage.s, '-')
    requires (body1.fromLanguage.s == []) == (body2.fromLanguage.s == [])
    requires (body1.toLanguage.s == []) == (body2.toLanguage.s == [])
    ensures Post(apiKey, body1, displayName, model) == Post(apiKey, body2, displayName, model)
  {
    SamePromptForSameCodes(body1, body2, displayName);
    SameResponseForSamePrompt(apiKey, body1, body2, displayName, model);
  }

  /** Two bodies with the same text and the same language codes yield the same prompt. */
  lemma SamePromptForSameCodes(body1: Body, body2: Body, displayName: string -> Option<string>)
    requires body1.Parsed? && body2.Parsed? && body1.text == body2.text
    requires LanguageCode(body1.fromLanguage) == LanguageCode(body2.fromLanguage)
    requires LanguageCode(body1.toLanguage) == LanguageCode(body2.toLanguage)
    ensures PromptFor(body1, displayName) == PromptFor(body2, displayName)
  {
  }

  /** Post reads a validated body only through its truthiness and its prompt. */
  lemma SameResponseForSamePrompt(apiKey: Option<string>, body1: Body, body2: Body,
                                  displayName: string -> Option<string>,
                                  model: Prompt -> Option<string>)
    requires body1.Parsed? && body2.Parsed? && FieldsPresent(body1) == FieldsPresent(body2)
    requires PromptFor(body1, displayName) == PromptFor(body2, displayName)
    ensures Post(apiKey, body1, displayName, model) == Post(apiKey, body2, displayName, model)
  {
  }

  /** A model reply that is only whitespace yields a 200 with an empty translation. */
  lemma BlankReplyGivesEmptyTranslation(apiKey: Option<string>, body: Body,
                                        displayName: string -> Option<string>,
                                        model: Prompt -> Option<string>)
    requires KeyConfigured(apiKey) && body.Parsed? && FieldsPresent(body)
    requires PromptFor(body, displayName).Some?
    requires model(PromptFor(body, displayName).value).Some?
    requires IsBlank(model(PromptFor(body, displayName).value).value)
    ensures Post(apiKey, body, displayName, model) == Response(200, Translated(""))
  {
  }
}
