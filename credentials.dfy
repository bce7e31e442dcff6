/** API-key precedence shared by every remote helper, and the messages the
    helpers return (or raise) when a key is missing or a remote call fails. */
module Credentials {
  import opened Wrappers

  /** The process environment, as far as the helpers read it. */
  datatype Env = Env(openAIKey: Option<string>, anthropicKey: Option<string>)

  /** A key counts only when it is present and non-empty (Python truthiness). */
  predicate Given(k: Option<string>) {
    k.Some? && k.value != ""
  }

  /** `api_key or os.environ.get(NAME)`, followed by the `if not api_key` test:
      the explicit key wins, the environment variable is the fallback, and
      `None` stands for the error branch. */
  function ResolveKey(explicit: Option<string>, env: Option<string>): (k: Option<string>)
    ensures Given(k) <==> k.Some?
    ensures k.Some? <==> Given(explicit) || Given(env)
    ensures Given(explicit) ==> k == explicit
    ensures !Given(explicit) && Given(env) ==> k == env
  {
    if Given(explicit) then explicit
    else if Given(env) then env
    else None
  }

  const OpenAIKeyNotFound: string :=
    "Clé API OpenAI non trouvée. Veuillez configurer la variable d'environnement OPENAI_API_KEY."

  const AnthropicKeyNotFound: string :=
    "Clé API Anthropic non trouvée. Veuillez configurer la variable d'environnement ANTHROPIC_API_KEY."

  /** The plain-text helpers prefix the missing-key message with "Erreur: ". */
  function KeyMissingText(notFound: string): string {
    "Erreur: " + notFound
  }

  function OpenAICallFailed(e: string): string {
    "Erreur lors de l'appel à l'API OpenAI: " + e
  }

  function AnthropicCallFailed(e: string): string {
    "Erreur lors de l'appel à l'API Anthropic: " + e
  }

  function AudioCallFailed(e: string): string {
    "Erreur lors de la génération de l'audio: " + e
  }
}
