/** The Circle configuration record read from the environment, and its validity check. */
module CircleConfig {
  /** The key written into the configuration when none is set. */
  const PlaceholderKey: string := "your_circle_api_key_here"
  const DefaultEnvironment: string := "sandbox"
  const DefaultBaseUrl: string := "https://api-sandbox.circle.com"

  datatype Config = Config(apiKey: string, environment: string, baseUrl: string)

  /** `process.env[name]`, with an unset variable read as the empty string: both are
      falsy, which is all the configuration looks at. */
  function Env(env: map<string, string>, name: string): string {
    if name in env then env[name] else ""
  }

  /** `a || b` on strings. */
  function OrElse(a: string, b: string): (r: string)
    ensures a != "" ==> r == a
    ensures a == "" ==> r == b
  {
    if a != "" then a else b
  }

  /** `circleConfig`: each variable, or its default when unset or empty. */
  function LoadConfig(env: map<string, string>): (c: Config)
    ensures c.apiKey != "" && c.environment != "" && c.baseUrl != ""
    ensures Env(env, "CIRCLE_API_KEY") == "" ==> c.apiKey == PlaceholderKey
    ensures Env(env, "CIRCLE_ENVIRONMENT") == "" ==> c.environment == DefaultEnvironment
    ensures Env(env, "CIRCLE_API_BASE_URL") == "" ==> c.baseUrl == DefaultBaseUrl
    ensures Env(env, "CIRCLE_API_KEY") != "" ==> c.apiKey == Env(env, "CIRCLE_API_KEY")
    ensures Env(env, "CIRCLE_ENVIRONMENT") != "" ==> c.environment == Env(env, "CIRCLE_ENVIRONMENT")
    ensures Env(env, "CIRCLE_API_BASE_URL") != "" ==> c.baseUrl == Env(env, "CIRCLE_API_BASE_URL")
  {
    Config(OrElse(Env(env, "CIRCLE_API_KEY"), PlaceholderKey),
           OrElse(Env(env, "CIRCLE_ENVIRONMENT"), DefaultEnvironment),
           OrElse(Env(env, "CIRCLE_API_BASE_URL"), DefaultBaseUrl))
  }

  /** `validateCircleConfig()`: false exactly for an empty key or the placeholder. */
  function ValidateConfig(c: Config): (ok: bool)
    ensures ok <==> c.apiKey != "" && c.apiKey != PlaceholderKey
  {
    !(c.apiKey == "" || c.apiKey == PlaceholderKey)
  }

  /** The loaded configuration is valid exactly when `CIRCLE_API_KEY` is set to
      something other than the placeholder; in particular it is invalid when unset. */
  lemma ValidIffKeySet(env: map<string, string>)
    ensures ValidateConfig(LoadConfig(env)) <==>
              Env(env, "CIRCLE_API_KEY") != "" && Env(env, "CIRCLE_API_KEY") != PlaceholderKey
    ensures "CIRCLE_API_KEY" !in env ==> !ValidateConfig(LoadConfig(env))
  {
  }
}
