/** The older copy bundled in the application (oleVoice.app): the same
    cache, hotwords and framing, and phonetic correction as its only text
    stage. */
module OleVoiceServer {
  import opened Text
  import opened Outcome
  import Phonetic
  import opened Settings
  import opened ModelCache
  import opened Hotwords
  import opened Framing
  import opened Service

  /** The post-processing of this copy's `transcribe_audio`. */
  function PostProcess(text: String): String {
    Phonetic.Correct(text)
  }

  /** Phonetic correction is the only stage: "西艾西迪" comes back as "CICD",
      and a text in which no key can occur (see `Text.Foreign`) comes back as
      it was. */
  lemma PhoneticOnly(s: String)
    ensures PostProcess("西艾西迪") == "CICD"
    ensures (forall p :: p in Phonetic.Corrections ==> Foreign(s, p.0)) ==> PostProcess(s) == s
  {
    Phonetic.CiCdExample();
    if forall p :: p in Phonetic.Corrections ==> Foreign(s, p.0) {
      Phonetic.ForeignKeysFix(Phonetic.Corrections, s);
    }
  }

  /** A successful reply of this copy is the corrected, stripped engine text. */
  lemma ReplyIsCorrected<M>(c: ModelCache.State<M>, s: Cached, cfg: Config, env: Env, loader: String -> Result<M>,
                            engine: Engine<M>, audio: String)
    requires Transcription(c, s, cfg, env, loader, engine, PostProcess, audio).reply.Success?
    ensures exists raw :: Transcription(c, s, cfg, env, loader, engine, PostProcess, audio).reply
                          == Success(Phonetic.Correct(Strip(raw)))
  {
    SuccessIsPostProcessed(c, s, cfg, env, loader, engine, PostProcess, audio);
    var m := Step(c, cfg.model, GetModelPath(cfg.models, cfg.model, env.home, env.fs), loader).1;
    var words := Refresh(s, HotwordPaths(env), env.fs).result;
    var raw := engine(m.value, audio, LanguageName(cfg.language), BuildContext(words)).value;
    assert Transcription(c, s, cfg, env, loader, engine, PostProcess, audio).reply == Success(Phonetic.Correct(Strip(raw)));
  }

  /** This copy's `transcribe_audio`. */
  method TranscribeAudio<M>(cache: Cache<M>, store: Store, cfg: Config, env: Env, loader: String -> Result<M>,
                            engine: Engine<M>, audio: String)
    returns (r: Result<String>)
    modifies cache, store
    ensures var t := Transcription(old(cache.State()), old(store.State()), cfg, env, loader, engine, PostProcess, audio);
      cache.State() == t.cache && store.State() == t.store && r == t.reply
  {
    r := Service.TranscribeAudio(cache, store, cfg, env, loader, engine, PostProcess, audio);
  }

  /** This copy's `handle_client`. */
  method HandleClient<M>(conn: Connection, cache: Cache<M>, store: Store, cfg: Config, env: Env,
                         loader: String -> Result<M>, engine: Engine<M>,
                         spool: Bytes -> Result<String>, encode: Result<String> -> Bytes)
    returns (served: Served)
    requires conn.Valid()
    modifies conn, cache, store
    ensures conn.closed && conn.broken == old(conn.broken)
    ensures conn.sent == old(conn.sent) + Output(served, encode, conn.broken)
    ensures match Parse(old(conn.incoming))
      case Hangup => served == NoReply && cache.State() == old(cache.State()) && store.State() == old(store.State())
      case Malformed(e) => served == Errored(e) && cache.State() == old(cache.State()) && store.State() == old(store.State())
      case Audio(_, data) =>
        match spool(data)
        case Failure(e) => served == Errored(e) && cache.State() == old(cache.State()) && store.State() == old(store.State())
        case Success(path) =>
          var t := Transcription(old(cache.State()), old(store.State()), cfg, env, loader, engine, PostProcess, path);
          served == Replied(t.reply) && cache.State() == t.cache && store.State() == t.store
  {
    served := Service.HandleClient(conn, cache, store, cfg, env, loader, engine, PostProcess, spool, encode);
  }
}
