/**
 * Selection of the chat model from the `LLM_MODEL` setting (app/config.py).
 * The setting is either `provider:model` or a bare model name; a missing or
 * empty setting stops start-up before any model is built.
 */
module ModelConfig {
  import opened Options

  /** What `init_chat_model` is given: an optional provider and a model name. */
  datatype ModelSpec = ModelSpec(provider: Option<string>, modelName: string)

  /** The `ValueError` raised when `LLM_MODEL` is missing or empty. */
  datatype ConfigError = MissingModel(message: string)

  const MissingModelMessage: string :=
    "LLM_MODEL environment variable is missing. "
    + "Please create a .env file and set LLM_MODEL (e.g., LLM_MODEL=groq:llama3-70b-8192)."

  /** Position of the first occurrence of `c` in `s`, if any. */
  function IndexOf(s: string, c: char): (r: Option<nat>)
    ensures r.None? <==> c !in s
    ensures r.Some? ==> r.value < |s| && s[r.value] == c && c !in s[..r.value]
  {
    if s == [] then None
    else if s[0] == c then Some(0)
    else match IndexOf(s[1..], c)
      case None => None
      case Some(i) =>
        assert s[1..][..i] == s[1..i + 1];
        Some(i + 1)
  }

  /**
   * The value of `LLM_MODEL` (None when unset) turned into the arguments of
   * `init_chat_model`: split once, at the first ':', when there is one.
   */
  function ParseModel(setting: Option<string>): (r: Result<ModelSpec, ConfigError>)
    ensures r.Failure? <==> setting.None? || setting.value == ""
    ensures r.Failure? ==> r.error == MissingModel(MissingModelMessage)
  {
    match setting
    case None => Failure(MissingModel(MissingModelMessage))
    case Some(s) =>
      if s == "" then Failure(MissingModel(MissingModelMessage))
      else match IndexOf(s, ':')
        case Some(i) => Success(ModelSpec(Some(s[..i]), s[i + 1..]))
        case None => Success(ModelSpec(None, s))
  }

  /** The setting that names `spec`: `provider:model`, or the bare model name. */
  function Render(spec: ModelSpec): string {
    match spec.provider
    case Some(p) => p + ":" + spec.modelName
    case None => spec.modelName
  }

  /** The specs that some non-empty setting produces. */
  predicate WellFormed(spec: ModelSpec) {
    match spec.provider
    case Some(p) => ':' !in p
    case None => spec.modelName != "" && ':' !in spec.modelName
  }

  /**
   * A non-empty setting always yields a model, and exactly one of the two
   * branches applies: a provider is passed exactly when the setting has a ':'.
   */
  lemma ExactlyOneBranch(s: string)
    requires s != ""
    ensures ParseModel(Some(s)).Success?
    ensures ParseModel(Some(s)).value.provider.Some? <==> ':' in s
    ensures ParseModel(Some(s)).value.provider.None? ==> ParseModel(Some(s)).value.modelName == s
  {
  }

  /**
   * With a ':' in the setting, the provider is the text before the first ':'
   * and holds no ':'; the model name is the rest and may hold further ':'.
   */
  lemma ProviderBeforeFirstColon(s: string, i: nat)
    requires i < |s| && s[i] == ':' && ':' !in s[..i]
    ensures ParseModel(Some(s)) == Success(ModelSpec(Some(s[..i]), s[i + 1..]))
  {
  }

  /** Re-joining what was split gives back the setting. */
  lemma RenderParse(s: string)
    requires s != ""
    ensures ParseModel(Some(s)).Success?
    ensures WellFormed(ParseModel(Some(s)).value)
    ensures Render(ParseModel(Some(s)).value) == s
  {
    match IndexOf(s, ':')
    case None =>
    case Some(i) =>
      assert s[..i] + ":" + s[i + 1..] == s;
  }

  /** Splitting the setting that names a well-formed spec gives that spec back. */
  lemma ParseRender(spec: ModelSpec)
    requires WellFormed(spec)
    ensures ParseModel(Some(Render(spec))) == Success(spec)
  {
    match spec.provider
    case None =>
    case Some(p) =>
      var s := Render(spec);
      assert s[|p|] == ':';
      assert s[..|p|] == p;
      ProviderBeforeFirstColon(s, |p|);
      assert s[|p| + 1..] == spec.modelName;
  }
}
