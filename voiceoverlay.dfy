/** The full server (VoiceOverlay/asr_server.py): five text stages after the
    engine, in the order phonetic correction, filler removal, numeral
    conversion, sentence polish, punctuation cleanup. */
module VoiceOverlayServer {
  import opened Text
  import opened Outcome
  import Phonetic
  import Filler
  import Numerals
  import Polish
  import Punctuation
  import opened Settings
  import opened ModelCache
  import opened Hotwords
  import opened Framing
  import opened Service

  /** The post-processing of `transcribe_audio`, with the filler list in the
      order the stage iterates it. */
  function PostProcess(words: seq<String>, text: String): String
    requires Filler.NonEmptyWords(words)
  {
    Punctuation.Clean(Polish.Polish(Numerals.ConvertNumbers(Filler.Fillers(words, Phonetic.Correct(text)))))
  }

  /** The text sent back neither starts with a mark of the lead class or
      whitespace, nor ends with a comma or whitespace, and has single spaces
      only, whatever the engine produced. */
  lemma PostProcessShape(words: seq<String>, text: String)
    requires Filler.NonEmptyWords(words)
    ensures var r := PostProcess(words, text);
      && (r == [] || (!Punctuation.IsLeadMark(r[0]) && !Punctuation.IsTailMark(r[|r| - 1])))
      && SingleSpaced(r)
  {
    Punctuation.CleanShape(Polish.Polish(Numerals.ConvertNumbers(Filler.Fillers(words, Phonetic.Correct(text)))));
  }

  /** The numeral stage turns 一 before 些 or 下 into a digit, and the polish
      stage after it turns the digit back, so 一些 and 一下 leave the two
      stages as they entered. */
  lemma NumeralWordsSurvive()
    ensures Polish.Polish(Numerals.ConvertNumbers("一些")) == "一些"
    ensures Polish.Polish(Numerals.ConvertNumbers("一下")) == "一下"
  {
    Numerals.OneBefore('些');
    Numerals.OneBefore('下');
    assert "一些" == ['一', '些'] && "一下" == ['一', '下'];
    assert "1些" == ['1', '些'] && "1下" == ['1', '下'];
    Polish.NumeralWordsRestored();
  }

  /** This copy's `transcribe_audio`. */
  method TranscribeAudio<M>(cache: Cache<M>, store: Store, cfg: Config, env: Env, loader: String -> Result<M>,
                            engine: Engine<M>, words: seq<String>, audio: String)
    returns (r: Result<String>)
    requires Filler.IsFillerOrder(words)
    modifies cache, store
    ensures Filler.NonEmptyWords(words)
    ensures var t := Transcription(old(cache.State()), old(store.State()), cfg, env, loader, engine,
                                   t => PostProcess(words, t), audio);
      cache.State() == t.cache && store.State() == t.store && r == t.reply
  {
    Filler.FillerOrderNonEmpty(words);
    r := Service.TranscribeAudio(cache, store, cfg, env, loader, engine, t => PostProcess(words, t), audio);
  }

  /** This copy's `handle_client`. */
  method HandleClient<M>(conn: Connection, cache: Cache<M>, store: Store, cfg: Config, env: Env,
                         loader: String -> Result<M>, engine: Engine<M>, words: seq<String>,
                         spool: Bytes -> Result<String>, encode: Result<String> -> Bytes)
    returns (served: Served)
    requires conn.Valid() && Filler.IsFillerOrder(words)
    modifies conn, cache, store
    ensures Filler.NonEmptyWords(words)
    ensures conn.closed && conn.broken == old(conn.broken)
    ensures conn.sent == old(conn.sent) + Output(served, encode, conn.broken)
    ensures match Parse(old(conn.incoming))
      case Hangup => served == NoReply && cache.State() == old(cache.State()) && store.State() == old(store.State())
      case Malformed(e) => served == Errored(e) && cache.State() == old(cache.State()) && store.State() == old(store.State())
      case Audio(_, data) =>
        match spool(data)
        case Failure(e) => served == Errored(e) && cache.State() == old(cache.State()) && store.State() == old(store.State())
        case Success(path) =>
          var t := Transcription(old(cache.State()), old(store.State()), cfg, env, loader, engine,
                                 t => PostProcess(words, t), path);
          served == Replied(t.reply) && cache.State() == t.cache && store.State() == t.store
  {
    Filler.FillerOrderNonEmpty(words);
    served := Service.HandleClient(conn, cache, store, cfg, env, loader, engine, t => PostProcess(words, t), spool, encode);
  }
}
