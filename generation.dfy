/** The decisions the content generators of ai_helpers.py take around their
    remote calls: which backend enhances a description, what a list generator
    returns for each outcome of its call, the error mapping of the structured
    generators, and the truncation of the text sent to speech synthesis.
    Every remote reply is a parameter: `Success(content)` for the text the
    service returned, `Failure(e)` for the text of the exception raised. */
module Generation {
  import opened Wrappers
  import opened PyStr
  import opened Credentials
  import opened ReplyParsing

  // ---------------------------------------------------------------------
  // Description enhancement

  datatype Provider = OpenAI | Anthropic

  /** Where `enhance_course_description` sends a request. */
  datatype DescriptionRoute = MissingInput | Backend(provider: Provider) | Unsupported

  const MissingInputMessage: string := "Veuillez fournir un titre et une description initiale."

  function UnsupportedProviderMessage(provider: string): string {
    "Fournisseur d'API non pris en charge: " + provider + ". Utilisez 'openai' ou 'anthropic'."
  }

  /** The guard order of `enhance_course_description`: the inputs first, then
      the lower-cased provider name. */
  function RouteDescription(title: string, description: string, provider: string): (r: DescriptionRoute)
    ensures r == MissingInput <==> title == "" || description == ""
    ensures r == Backend(OpenAI) <==>
      title != "" && description != "" && LowerAscii(provider) == "openai"
    ensures r == Backend(Anthropic) <==>
      title != "" && description != "" && LowerAscii(provider) == "anthropic"
    ensures r == Unsupported <==>
      title != "" && description != "" && LowerAscii(provider) !in {"openai", "anthropic"}
  {
    if title == "" || description == "" then MissingInput
    else if LowerAscii(provider) == "openai" then Backend(OpenAI)
    else if LowerAscii(provider) == "anthropic" then Backend(Anthropic)
    else Unsupported
  }

  /** `enhance_description_openai`: the reply is stripped. */
  function EnhanceViaOpenAI(explicitKey: Option<string>, envKey: Option<string>,
                            reply: Result<string, string>): (r: string)
    ensures !Given(explicitKey) && !Given(envKey) ==> r == KeyMissingText(OpenAIKeyNotFound)
    ensures Given(ResolveKey(explicitKey, envKey)) && reply.Success? ==> r == Strip(reply.value)
    ensures Given(ResolveKey(explicitKey, envKey)) && reply.Failure? ==> r == OpenAICallFailed(reply.error)
  {
    if ResolveKey(explicitKey, envKey).None? then KeyMissingText(OpenAIKeyNotFound)
    else match reply
      case Success(content) => Strip(content)
      case Failure(e) => OpenAICallFailed(e)
  }

  /** `enhance_description_anthropic`: the reply is returned as it came. */
  function EnhanceViaAnthropic(explicitKey: Option<string>, envKey: Option<string>,
                               reply: Result<string, string>): (r: string)
    ensures !Given(explicitKey) && !Given(envKey) ==> r == KeyMissingText(AnthropicKeyNotFound)
    ensures Given(ResolveKey(explicitKey, envKey)) && reply.Success? ==> r == reply.value
    ensures Given(ResolveKey(explicitKey, envKey)) && reply.Failure? ==> r == AnthropicCallFailed(reply.error)
  {
    if ResolveKey(explicitKey, envKey).None? then KeyMissingText(AnthropicKeyNotFound)
    else match reply
      case Success(content) => content
      case Failure(e) => AnthropicCallFailed(e)
  }

  /** `enhance_course_description`, which passes no explicit key to either
      backend. `openAIReply` and `anthropicReply` are what each backend
      would answer if it were called. */
  function EnhanceCourseDescription(title: string, description: string, provider: string, env: Env,
                                    openAIReply: Result<string, string>,
                                    anthropicReply: Result<string, string>): (r: string)
    ensures title == "" || description == "" ==> r == MissingInputMessage
    ensures RouteDescription(title, description, provider) == Backend(OpenAI) ==>
      r == EnhanceViaOpenAI(None, env.openAIKey, openAIReply)
    ensures RouteDescription(title, description, provider) == Backend(Anthropic) ==>
      r == EnhanceViaAnthropic(None, env.anthropicKey, anthropicReply)
    ensures RouteDescription(title, description, provider) == Unsupported ==>
      r == UnsupportedProviderMessage(provider)
  {
    match RouteDescription(title, description, provider)
      case MissingInput => MissingInputMessage
      case Backend(OpenAI) => EnhanceViaOpenAI(None, env.openAIKey, openAIReply)
      case Backend(Anthropic) => EnhanceViaAnthropic(None, env.anthropicKey, anthropicReply)
      case Unsupported => UnsupportedProviderMessage(provider)
  }

  /** Only the selected backend's reply can influence the result: with
      missing input or an unsupported provider neither backend is consulted,
      and each backend route ignores the other backend. */
  lemma OnlySelectedBackendMatters(title: string, description: string, provider: string, env: Env,
                                   o1: Result<string, string>, a1: Result<string, string>,
                                   o2: Result<string, string>, a2: Result<string, string>)
    ensures var route := RouteDescription(title, description, provider);
      (route == Backend(OpenAI) && o1 == o2) || (route == Backend(Anthropic) && a1 == a2)
      || route == MissingInput || route == Unsupported
      ==> EnhanceCourseDescription(title, description, provider, env, o1, a1)
          == EnhanceCourseDescription(title, description, provider, env, o2, a2)
  {
  }

  // ---------------------------------------------------------------------
  // List generators

  /** `generate_learning_objectives`, `generate_prerequisites` and
      `generate_learning_methods`, which differ only in their prompt: a
      missing key and a failed call each give a one-item list holding the
      message, and a reply is stripped and handed to the list parser. */
  method GenerateItemList(explicitKey: Option<string>, envKey: Option<string>,
                          reply: Result<string, string>) returns (items: seq<string>)
    ensures |items| >= 1
    ensures !Given(explicitKey) && !Given(envKey) ==> items == [KeyMissingText(OpenAIKeyNotFound)]
    ensures Given(ResolveKey(explicitKey, envKey)) && reply.Failure? ==>
      items == [OpenAICallFailed(reply.error)]
    ensures Given(ResolveKey(explicitKey, envKey)) && reply.Success? ==>
      items == ParsedItems(Strip(reply.value))
  {
    var key := ResolveKey(explicitKey, envKey);
    if key.None? {
      return [KeyMissingText(OpenAIKeyNotFound)];
    }
    match reply {
      case Failure(e) =>
        items := [OpenAICallFailed(e)];
      case Success(content) =>
        var text := Strip(content);
        items := ParseReplyList(text);
    }
  }

  // ---------------------------------------------------------------------
  // Structured generators

  /** Parsed JSON, kept opaque: numbers keep their literal text because they
      are only compared and formatted. */
  datatype Json =
    | JNull
    | JBool(b: bool)
    | JNumber(literal: string)
    | JString(s: string)
    | JArray(elems: seq<Json>)
    | JObject(fields: map<string, Json>)

  /** The `{"error": message}` mapping the structured generators return. */
  function ErrorObject(message: string): (j: Json)
    ensures j.JObject? && j.fields.Keys == {"error"} && j.fields["error"] == JString(message)
  {
    JObject(map["error" := JString(message)])
  }

  /** `generate_course_structure`, `generate_chapter_content`,
      `generate_quiz` and `generate_podcast_script`: `reply` is the parsed
      JSON of the answer, or the text of the exception raised by the call or
      by `json.loads`. The missing-key message has no "Erreur: " prefix here. */
  function StructuredReply(explicitKey: Option<string>, envKey: Option<string>,
                           reply: Result<Json, string>): (r: Json)
    ensures !Given(explicitKey) && !Given(envKey) ==> r == ErrorObject(OpenAIKeyNotFound)
    ensures Given(ResolveKey(explicitKey, envKey)) && reply.Success? ==> r == reply.value
    ensures Given(ResolveKey(explicitKey, envKey)) && reply.Failure? ==>
      r == ErrorObject(OpenAICallFailed(reply.error))
  {
    if ResolveKey(explicitKey, envKey).None? then ErrorObject(OpenAIKeyNotFound)
    else match reply
      case Success(j) => j
      case Failure(e) => ErrorObject(OpenAICallFailed(e))
  }

  // ---------------------------------------------------------------------
  // Speech synthesis

  const SpeechMaxLength: nat := 4096

  /** The text `generate_podcast_audio` sends to the speech service. */
  function SpeechInput(script: string): (r: string)
    ensures |r| <= SpeechMaxLength
    ensures |r| <= |script| && r == script[..|r|]
    ensures |script| <= SpeechMaxLength ==> r == script
    ensures |script| > SpeechMaxLength ==> |r| == SpeechMaxLength
  {
    if |script| > SpeechMaxLength then script[..SpeechMaxLength] else script
  }

  /** Truncating twice is truncating once. */
  lemma SpeechInputIdempotent(script: string)
    ensures SpeechInput(SpeechInput(script)) == SpeechInput(script)
  {
  }

  /** Two scripts that agree on their first 4096 characters and are both at
      least that long are synthesised from the same text. */
  lemma SpeechInputIgnoresTail(s: string, t: string)
    requires |s| >= SpeechMaxLength && |t| >= SpeechMaxLength
    requires s[..SpeechMaxLength] == t[..SpeechMaxLength]
    ensures SpeechInput(s) == SpeechInput(t)
  {
  }

  /** The outcome of `generate_podcast_audio`. A ready result stands for the
      mapping with "success", "audio_base64", "duration" and "format" "mp3". */
  datatype Audio = AudioReady(audioBase64: string) | AudioError(message: string)

  const AudioFormat: string := "mp3"

  /** `generate_podcast_audio`: `speak` is the speech service together with
      the base64 encoding of its answer, or the text of the exception. */
  function GeneratePodcastAudio(script: string, explicitKey: Option<string>, envKey: Option<string>,
                                speak: string -> Result<string, string>): (r: Audio)
    ensures !Given(explicitKey) && !Given(envKey) ==> r == AudioError(OpenAIKeyNotFound)
    ensures Given(ResolveKey(explicitKey, envKey)) ==>
      match speak(SpeechInput(script))
        case Success(audio) => r == AudioReady(audio)
        case Failure(e) => r == AudioError(AudioCallFailed(e))
  {
    if ResolveKey(explicitKey, envKey).None? then AudioError(OpenAIKeyNotFound)
    else match speak(SpeechInput(script))
      case Success(audio) => AudioReady(audio)
      case Failure(e) => AudioError(AudioCallFailed(e))
  }
}
