/** The model cache of the service: the model name a configuration key
    selects, where that model is found on disk, and the two globals
    (`_current_model`, `_current_model_key`) in front of the loader. */
module ModelCache {
  import opened Text
  import opened Outcome
  import opened Files

  /** The key whose model stands in for every unknown key. */
  const FallbackKey: String := "0.6B"

  /** Where downloaded models live, below the home directory. */
  const CacheRoot: String := "/.cache/modelscope/hub/models/"

  /** `CONFIG['models'].get(key, CONFIG['models']['0.6B'])`. The default is
      looked up before `get` runs, so a table without "0.6B" raises `KeyError`
      (whose message is the quoted key) for every key. */
  function ModelName(models: map<String, String>, key: String): Result<String> {
    if FallbackKey !in models then Failure("'0.6B'")
    else if key in models then Success(models[key])
    else Success(models[FallbackKey])
  }

  /** The two cache directories tried for `name`: as it is, and with every
      '.' written "___". */
  function CacheDirs(home: String, name: String): seq<String> {
    [home + CacheRoot + name, home + CacheRoot + ReplaceAll(name, ".", "___")]
  }

  /** `get_model_path`: the first cache directory that exists, otherwise the
      model name itself (fetched remotely by the loader). */
  function GetModelPath(models: map<String, String>, key: String, home: String, fs: FileSystem): Result<String> {
    match ModelName(models, key)
    case Failure(e) => Failure(e)
    case Success(name) =>
      match FirstExisting(CacheDirs(home, name), fs)
      case Some(dir) => Success(dir)
      case None => Success(name)
  }

  /** The path is a cache directory of the selected name that exists, the
      first one that does, or the name itself when neither exists. */
  lemma ModelPathChoice(models: map<String, String>, key: String, home: String, fs: FileSystem)
    requires FallbackKey in models
    ensures var name := if key in models then models[key] else models[FallbackKey];
      var dirs := CacheDirs(home, name);
      && GetModelPath(models, key, home, fs).Success?
      && (Exists(fs, dirs[0]) ==> GetModelPath(models, key, home, fs).value == dirs[0])
      && (!Exists(fs, dirs[0]) && Exists(fs, dirs[1]) ==> GetModelPath(models, key, home, fs).value == dirs[1])
      && (!Exists(fs, dirs[0]) && !Exists(fs, dirs[1]) ==> GetModelPath(models, key, home, fs).value == name)
  {
    var name := if key in models then models[key] else models[FallbackKey];
    var dirs := CacheDirs(home, name);
    assert dirs[1..] == [dirs[1]];
    assert dirs[1..][1..] == [];
  }

  /** An unknown key resolves exactly as the 0.6B key does. */
  lemma UnknownKeyFallsBack(models: map<String, String>, key: String, home: String, fs: FileSystem)
    requires key !in models
    ensures GetModelPath(models, key, home, fs) == GetModelPath(models, FallbackKey, home, fs)
  {
  }

  /** Without the "0.6B" entry every lookup fails, even of a listed key. */
  lemma MissingFallbackFails(models: map<String, String>, key: String, home: String, fs: FileSystem)
    requires FallbackKey !in models
    ensures GetModelPath(models, key, home, fs) == Failure("'0.6B'")
  {
  }

  /** A name without a dot has one cache directory, tried twice. */
  lemma DotlessNameOneDir(home: String, name: String)
    requires '.' !in name
    ensures CacheDirs(home, name)[1] == CacheDirs(home, name)[0]
  {
    ForeignNotOccurs(name, ".");
    ReplaceAllAbsent(name, ".", "___");
  }

  // ---------------------------------------------------------------------
  // The cache

  /** The two globals: the loaded model and the key it was loaded for. */
  datatype State<M> = Globals(model: Option<M>, key: Option<String>)

  /** A model is loaded for `key`. */
  predicate Hit<M>(s: State<M>, key: String) {
    s.model.Some? && s.key == Some(key)
  }

  /** `load_model(key)` as a transition: the new globals and the returned
      model (or the message of the exception raised), given the resolved
      path and the loader. */
  function Step<M>(s: State<M>, key: String, path: Result<String>, loader: String -> Result<M>): (State<M>, Result<M>) {
    if Hit(s, key) then (s, Success(s.model.value))
    else
      match path
      case Failure(e) => (s, Failure(e))
      case Success(p) =>
        match loader(p)
        case Failure(e) => (s, Failure(e))
        case Success(m) => (Globals(Some(m), Some(key)), Success(m))
  }

  /** The paths the loader is called on during that transition. */
  function Loads<M>(s: State<M>, key: String, path: Result<String>): seq<String> {
    if Hit(s, key) || path.Failure? then [] else [path.value]
  }

  /** A model loaded for the same key is returned as it is, with no loader
      call and nothing changed. */
  lemma HitReturnsCached<M>(s: State<M>, key: String, path: Result<String>, loader: String -> Result<M>)
    requires Hit(s, key)
    ensures Step(s, key, path, loader) == (s, Success(s.model.value))
    ensures Loads(s, key, path) == []
  {
  }

  /** Otherwise the loader is called exactly once, on the resolved path, and
      on success both globals take the new model and key. */
  lemma MissLoadsOnce<M>(s: State<M>, key: String, p: String, loader: String -> Result<M>)
    requires !Hit(s, key)
    ensures Loads(s, key, Success(p)) == [p]
    ensures loader(p).Success? ==> Step(s, key, Success(p), loader) == (Globals(Some(loader(p).value), Some(key)), loader(p))
  {
  }

  /** A failure, of the path lookup or of the loader, leaves both globals as
      they were. */
  lemma FailureChangesNothing<M>(s: State<M>, key: String, path: Result<String>, loader: String -> Result<M>)
    requires Step(s, key, path, loader).1.Failure?
    ensures Step(s, key, path, loader).0 == s
  {
  }

  /** After a successful load the same key hits: the second call returns the
      same model without calling the loader. */
  lemma SecondLoadHits<M>(s: State<M>, key: String, path: Result<String>, path2: Result<String>, loader: String -> Result<M>)
    requires Step(s, key, path, loader).1.Success?
    ensures var (s1, m) := Step(s, key, path, loader);
      && Hit(s1, key)
      && Step(s1, key, path2, loader) == (s1, m)
      && Loads(s1, key, path2) == []
  {
  }

  /** The globals of `load_model`, with the loader calls recorded. */
  class Cache<M> {
    var model: Option<M>
    var key: Option<String>
    ghost var loads: seq<String>

    /** Nothing loaded at start. */
    constructor ()
      ensures model == None && key == None && loads == []
    {
      model := None;
      key := None;
      loads := [];
    }

    function State(): State<M>
      reads this
    {
      Globals(model, key)
    }

    /** `load_model(k)` with the configuration's model table, the home
        directory, the file system and the loader as parameters. */
    method LoadModel(k: String, models: map<String, String>, home: String, fs: FileSystem, loader: String -> Result<M>)
      returns (r: Result<M>)
      modifies this
      ensures (State(), r) == Step(old(State()), k, GetModelPath(models, k, home, fs), loader)
      ensures loads == old(loads) + Loads(old(State()), k, GetModelPath(models, k, home, fs))
    {
      if model.Some? && key == Some(k) {
        return Success(model.value);
      }
      var path := GetModelPath(models, k, home, fs);
      if path.Failure? {
        return Failure(path.error);
      }
      loads := loads + [path.value];
      var loaded := loader(path.value);
      if loaded.Failure? {
        return Failure(loaded.error);
      }
      model := Some(loaded.value);
      key := Some(k);
      return Success(loaded.value);
    }
  }
}
