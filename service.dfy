/** What both copies of the server share around their post-processing:
    `transcribe_audio` (model, language, hotword context, engine call) and
    `handle_client` (request, WAV spooling, reply). The post-processing
    itself is a parameter; each copy supplies its own. */
module Service {
  import opened Text
  import opened Outcome
  import opened Files
  import opened Settings
  import opened ModelCache
  import opened Hotwords
  import opened Framing

  /** Where the server runs: the home directory, the directory of the server
      script and its parent, and the file system. */
  datatype Env = Env(home: String, serverDir: String, parentDir: String, fs: FileSystem)

  function HotwordPaths(env: Env): seq<String> {
    CandidatePaths(env.parentDir, env.serverDir, env.home)
  }

  /** The recognition engine: model, audio path, language name and optional
      context to the raw text, or the message of the exception it raised. */
  type Engine<!M> = (M, String, String, Option<String>) -> Result<String>

  /** One `transcribe_audio` call: the new cache and hotword globals and the
      result. */
  datatype Transcribed<M> = Transcribed(cache: ModelCache.State<M>, store: Cached, reply: Result<String>)

  /** `transcribe_audio` as a transition. A failed model load is reported
      before the hotwords are looked at; otherwise the hotwords are refreshed,
      the engine is called with the configured language and the context, and
      its stripped text goes through `post`. */
  function Transcription<M>(c: ModelCache.State<M>, s: Cached, cfg: Config, env: Env, loader: String -> Result<M>,
                            engine: Engine<M>, post: String -> String, audio: String): Transcribed<M>
  {
    var (c1, m) := Step(c, cfg.model, GetModelPath(cfg.models, cfg.model, env.home, env.fs), loader);
    if m.Failure? then Transcribed(c1, s, Failure(m.error))
    else
      var o := Refresh(s, HotwordPaths(env), env.fs);
      match engine(m.value, audio, LanguageName(cfg.language), BuildContext(o.result))
      case Failure(e) => Transcribed(c1, o.state, Failure(e))
      case Success(raw) => Transcribed(c1, o.state, Success(post(Strip(raw))))
  }

  /** `transcribe_audio` over the two stores of globals. */
  method TranscribeAudio<M>(cache: Cache<M>, store: Store, cfg: Config, env: Env, loader: String -> Result<M>,
                            engine: Engine<M>, post: String -> String, audio: String)
    returns (r: Result<String>)
    modifies cache, store
    ensures var t := Transcription(old(cache.State()), old(store.State()), cfg, env, loader, engine, post, audio);
      cache.State() == t.cache && store.State() == t.store && r == t.reply
  {
    var model := cache.LoadModel(cfg.model, cfg.models, env.home, env.fs, loader);
    if model.Failure? {
      return Failure(model.error);
    }
    var language := LanguageName(cfg.language);
    var hotwords := store.LoadHotwords(HotwordPaths(env), env.fs);
    var context := BuildContext(hotwords);
    var result := engine(model.value, audio, language, context);
    if result.Failure? {
      return Failure(result.error);
    }
    return Success(post(Strip(result.value)));
  }

  /** A failed model load is the result, and the hotwords are not touched. */
  lemma LoadFailureReported<M>(c: ModelCache.State<M>, s: Cached, cfg: Config, env: Env, loader: String -> Result<M>,
                               engine: Engine<M>, post: String -> String, audio: String)
    requires Step(c, cfg.model, GetModelPath(cfg.models, cfg.model, env.home, env.fs), loader).1.Failure?
    ensures var t := Transcription(c, s, cfg, env, loader, engine, post, audio);
      && t.reply == Failure(Step(c, cfg.model, GetModelPath(cfg.models, cfg.model, env.home, env.fs), loader).1.error)
      && t.store == s && t.cache == c
  {
    FailureChangesNothing(c, cfg.model, GetModelPath(cfg.models, cfg.model, env.home, env.fs), loader);
  }

  /** A successful result is the post-processed, stripped engine text, the
      engine having been asked with the language of the configuration and a
      context only when there are hotwords. */
  lemma SuccessIsPostProcessed<M>(c: ModelCache.State<M>, s: Cached, cfg: Config, env: Env, loader: String -> Result<M>,
                                  engine: Engine<M>, post: String -> String, audio: String)
    requires Transcription(c, s, cfg, env, loader, engine, post, audio).reply.Success?
    ensures var m := Step(c, cfg.model, GetModelPath(cfg.models, cfg.model, env.home, env.fs), loader).1;
      var words := Refresh(s, HotwordPaths(env), env.fs).result;
      && m.Success?
      && engine(m.value, audio, LanguageName(cfg.language), BuildContext(words)).Success?
      && Transcription(c, s, cfg, env, loader, engine, post, audio).reply
         == Success(post(Strip(engine(m.value, audio, LanguageName(cfg.language), BuildContext(words)).value)))
  {
  }

  /** After a transcription with a loaded model, the next one for the same
      configuration reuses it without calling the loader. */
  lemma ModelReused<M>(c: ModelCache.State<M>, s: Cached, cfg: Config, env: Env, loader: String -> Result<M>,
                       engine: Engine<M>, post: String -> String, audio: String)
    requires Step(c, cfg.model, GetModelPath(cfg.models, cfg.model, env.home, env.fs), loader).1.Success?
    ensures var t := Transcription(c, s, cfg, env, loader, engine, post, audio);
      Loads(t.cache, cfg.model, GetModelPath(cfg.models, cfg.model, env.home, env.fs)) == []
  {
    SecondLoadHits(c, cfg.model, GetModelPath(cfg.models, cfg.model, env.home, env.fs),
                   GetModelPath(cfg.models, cfg.model, env.home, env.fs), loader);
  }

  // ---------------------------------------------------------------------
  // One client

  /** How a client was served: no reply (it hung up before the header), an
      error reply from the exception handler, or a result sent. */
  datatype Served = NoReply | Errored(error: String) | Replied(reply: Result<String>)

  /** The sends each way of serving makes. */
  function Output(served: Served, encode: Result<String> -> Bytes, failing: bool): seq<Bytes> {
    match served
    case NoReply => []
    case Errored(e) => ErrorFrames(e, encode, failing)
    case Replied(r) => ReplyFrames(r, encode, failing)
  }

  /** Whatever the client is sent is one well-formed frame. */
  lemma OutputFramed(served: Served, encode: Result<String> -> Bytes, failing: bool)
    ensures Framed(Output(served, encode, failing))
  {
    match served
    case NoReply =>
    case Errored(e) => ErrorFramesFramed(e, encode, failing);
    case Replied(r) => ReplyFramesFramed(r, encode, failing);
  }

  /** `handle_client`: read the request, spool the audio to a WAV file
      (`spool` gives its path, or the message of the exception writing it
      raised), transcribe it, send the result, and close the connection in
      every case. */
  method HandleClient<M>(conn: Connection, cache: Cache<M>, store: Store, cfg: Config, env: Env,
                         loader: String -> Result<M>, engine: Engine<M>, post: String -> String,
                         spool: Bytes -> Result<String>, encode: Result<String> -> Bytes)
    returns (served: Served)
    requires conn.Valid()
    modifies conn, cache, store
    ensures conn.closed && conn.broken == old(conn.broken)
    ensures conn.sent == old(conn.sent) + Output(served, encode, conn.broken)
    ensures match Parse(old(conn.incoming))
      case Hangup => served == NoReply && cache.State() == old(cache.State()) && store.State() == old(store.State())
      case Malformed(e) => served == Errored(e) && cache.State() == old(cache.State()) && store.State() == old(store.State())
      case Audio(_, data) =>
        match spool(data)
        case Failure(e) => served == Errored(e) && cache.State() == old(cache.State()) && store.State() == old(store.State())
        case Success(path) =>
          var t := Transcription(old(cache.State()), old(store.State()), cfg, env, loader, engine, post, path);
          served == Replied(t.reply) && cache.State() == t.cache && store.State() == t.store
  {
    var req := ReceiveRequest(conn);
    match req {
      case Hangup =>
        served := NoReply;
      case Malformed(e) =>
        SendError(conn, e, encode);
        served := Errored(e);
      case Audio(_, data) =>
        var wav := spool(data);
        if wav.Failure? {
          SendError(conn, wav.error, encode);
          served := Errored(wav.error);
        } else {
          var reply := TranscribeAudio(cache, store, cfg, env, loader, engine, post, wav.value);
          SendReply(conn, reply, encode);
          served := Replied(reply);
        }
    }
    conn.Close();
  }
}
