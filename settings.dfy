/** The service configuration and the mapping from its language code to the
    language name the recognition engine expects. */
module Settings {
  import opened Text

  /** `CONFIG`: the selected model key, the language code, the socket path
      and the table from model keys to model names. */
  datatype Config = Config(model: String, language: String, socketPath: String, models: map<String, String>)

  /** The configuration the server starts from before `config.yaml` is
      merged in. */
  const Defaults: Config := Config(
    "0.6B", "zh", "/tmp/voice_asr_socket",
    map["0.6B" := "mlx-community/Qwen3-ASR-0.6B-8bit", "1.7B" := "mlx-community/Qwen3-ASR-1.7B-8bit"])

  /** The `lang_map` lookup with `Chinese` as its default: only `en` selects
      English. */
  function LanguageName(code: String): (r: String)
    ensures r == "English" <==> code == "en"
    ensures r == "English" || r == "Chinese"
  {
    if code == "zh" then "Chinese"
    else if code == "en" then "English"
    else if code == "auto" then "Chinese"
    else "Chinese"
  }
}
