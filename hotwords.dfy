/** The hotword store of the service: which file holds the hotwords, the
    cache keyed on that file's modification time, the rule that picks the
    terms out of its lines, and the context prompt built from them. */
module Hotwords {
  import opened Text
  import opened Outcome
  import opened Files

  /** The places searched, in order: next to the server's parent directory,
      next to the server, and in the user's configuration directory. */
  function CandidatePaths(parentDir: String, serverDir: String, home: String): seq<String> {
    [parentDir + "/hotwords.txt", serverDir + "/hotwords.txt", home + "/.config/ole_voice/hotwords.txt"]
  }

  // ---------------------------------------------------------------------
  // Lines

  /** The raw line, before stripping, starts with '#'. */
  predicate IsComment(line: String) {
    |line| > 0 && line[0] == '#'
  }

  /** A line that yields a term: not blank once stripped, and not a comment
      as read. */
  predicate Keeps(line: String) {
    Strip(line) != [] && !IsComment(line)
  }

  /** A stripped, non-blank term: no whitespace at either end. */
  predicate IsTerm(w: String) {
    w != [] && !IsSpace(w[0]) && !IsSpace(w[|w| - 1])
  }

  lemma StrippedTerm(line: String)
    requires Strip(line) != []
    ensures IsTerm(Strip(line))
  {
    TrimEdges(line, IsSpace);
  }

  /** The comprehension over the file's lines: each kept line, stripped. */
  function KeepLines(lines: seq<String>): (r: seq<String>)
    ensures |r| <= |lines|
    ensures forall i :: 0 <= i < |r| ==> IsTerm(r[i])
  {
    if lines == [] then []
    else if Keeps(lines[0]) then
      var rest := KeepLines(lines[1..]);
      StrippedTerm(lines[0]);
      assert forall i :: 1 <= i < |rest| + 1 ==> ([Strip(lines[0])] + rest)[i] == rest[i - 1];
      [Strip(lines[0])] + rest
    else KeepLines(lines[1..])
  }

  /** Some line of `lines` keeps and strips to `w`. */
  predicate KeptFrom(lines: seq<String>, w: String) {
    exists i :: 0 <= i < |lines| && Keeps(lines[i]) && Strip(lines[i]) == w
  }

  lemma KeptFromCons(lines: seq<String>, w: String)
    requires lines != []
    ensures KeptFrom(lines, w) <==> (Keeps(lines[0]) && Strip(lines[0]) == w) || KeptFrom(lines[1..], w)
  {
    if KeptFrom(lines[1..], w) {
      var i :| 0 <= i < |lines[1..]| && Keeps(lines[1..][i]) && Strip(lines[1..][i]) == w;
      assert lines[i + 1] == lines[1..][i];
    }
    if KeptFrom(lines, w) {
      var i :| 0 <= i < |lines| && Keeps(lines[i]) && Strip(lines[i]) == w;
      if i > 0 {
        assert lines[1..][i - 1] == lines[i];
      }
    }
  }

  /** A term is kept exactly when some line that keeps strips to it. */
  lemma {:induction false} KeepLinesIff(lines: seq<String>, w: String)
    ensures w in KeepLines(lines) <==> KeptFrom(lines, w)
    decreases |lines|
  {
    if lines != [] {
      KeepLinesIff(lines[1..], w);
      KeptFromCons(lines, w);
    }
  }

  /** The terms keep the order of their lines: the kept terms of two runs of
      lines are the kept terms of the first followed by those of the second. */
  lemma {:induction false} KeepLinesAppend(a: seq<String>, b: seq<String>)
    ensures KeepLines(a + b) == KeepLines(a) + KeepLines(b)
    decreases |a|
  {
    if a == [] {
      assert a + b == b;
    } else {
      assert (a + b)[0] == a[0];
      assert (a + b)[1..] == a[1..] + b;
      KeepLinesAppend(a[1..], b);
    }
  }

  /** A comment is indented when whitespace comes before its '#': the line is
      then kept, stripped, with its '#'. */
  lemma IndentedCommentKept(sp: String, x: String)
    requires sp != [] && All(sp, IsSpace)
    requires x != [] && x[0] == '#' && !IsSpace(x[|x| - 1])
    ensures KeepLines([sp + x]) == [x]
  {
    TrimSpaces(sp, x);
    assert TrimRight(x, IsSpace) == x;
    assert (sp + x)[0] == sp[0];
    assert [sp + x][1..] == [];
  }

  /** A line that starts with '#' is dropped whatever follows it. */
  lemma CommentDropped(x: String)
    requires x != [] && x[0] == '#'
    ensures KeepLines([x]) == []
  {
    assert [x][1..] == [];
  }

  /** A line of whitespace only is dropped. */
  lemma {:induction false} BlankDropped(sp: String)
    requires All(sp, IsSpace)
    ensures KeepLines([sp]) == []
  {
    TrimSpaces(sp, []);
    assert sp + [] == sp;
    assert [sp][1..] == [];
  }

  // ---------------------------------------------------------------------
  // The cache

  /** The two globals: the cached terms and the modification time they were
      read at. */
  datatype Cached = Cached(words: Option<seq<String>>, mtime: real)

  /** Nothing cached, time zero. */
  const Initial: Cached := Cached(None, 0.0)

  /** One call of `load_hotwords`: the new globals, the result, and the file
      read, if any was opened. */
  datatype Refreshed = Refreshed(state: Cached, result: Option<seq<String>>, read: Option<String>)

  /** `load_hotwords` as a transition. Any exception (of `stat` or of the read)
      yields no terms and leaves the globals as they were. */
  function Refresh(s: Cached, paths: seq<String>, fs: FileSystem): Refreshed {
    match FirstExisting(paths, fs)
    case None => Refreshed(s, None, None)
    case Some(p) =>
      match fs(p).mtime
      case Failure(_) => Refreshed(s, None, None)
      case Success(m) =>
        if m == s.mtime && s.words.Some? then Refreshed(s, s.words, None)
        else
          match fs(p).lines
          case Failure(_) => Refreshed(s, None, Some(p))
          case Success(lines) => Refreshed(Cached(Some(KeepLines(lines)), m), Some(KeepLines(lines)), Some(p))
  }

  /** No candidate exists: no terms, nothing read, nothing changed. */
  lemma NoFileNoWords(s: Cached, paths: seq<String>, fs: FileSystem)
    requires forall i :: 0 <= i < |paths| ==> !Exists(fs, paths[i])
    ensures Refresh(s, paths, fs) == Refreshed(s, None, None)
  {
  }

  /** The first existing candidate still has the cached modification time and
      terms are cached: they are returned without reading the file. */
  lemma UnchangedFileFromCache(s: Cached, paths: seq<String>, fs: FileSystem, p: String)
    requires FirstExisting(paths, fs) == Some(p)
    requires fs(p).mtime == Success(s.mtime) && s.words.Some?
    ensures Refresh(s, paths, fs) == Refreshed(s, s.words, None)
  {
  }

  /** Otherwise a readable file is read and its kept lines become the cache,
      with its modification time. */
  lemma ChangedFileReread(s: Cached, paths: seq<String>, fs: FileSystem, p: String, m: real, lines: seq<String>)
    requires FirstExisting(paths, fs) == Some(p)
    requires fs(p).mtime == Success(m) && fs(p).lines == Success(lines)
    requires m != s.mtime || s.words.None?
    ensures Refresh(s, paths, fs) == Refreshed(Cached(Some(KeepLines(lines)), m), Some(KeepLines(lines)), Some(p))
  {
  }

  /** No terms returned means the globals are as they were. */
  lemma FailureKeepsCache(s: Cached, paths: seq<String>, fs: FileSystem)
    requires Refresh(s, paths, fs).result.None?
    ensures Refresh(s, paths, fs).state == s
  {
  }

  /** Refreshing again over the same files returns the same terms, from the
      cache, without reading. */
  lemma RefreshSettles(s: Cached, paths: seq<String>, fs: FileSystem)
    requires Refresh(s, paths, fs).result.Some?
    ensures var o := Refresh(s, paths, fs);
      Refresh(o.state, paths, fs) == Refreshed(o.state, o.result, None)
  {
  }

  /** The globals of `load_hotwords`, with the files read recorded. */
  class Store {
    var words: Option<seq<String>>
    var mtime: real
    ghost var fileReads: seq<String>

    constructor ()
      ensures words == None && mtime == 0.0 && fileReads == []
    {
      words := None;
      mtime := 0.0;
      fileReads := [];
    }

    function State(): Cached
      reads this
    {
      Cached(words, mtime)
    }

    /** `load_hotwords` over the candidate paths and the file system. */
    method LoadHotwords(paths: seq<String>, fs: FileSystem) returns (r: Option<seq<String>>)
      modifies this
      ensures var o := Refresh(old(State()), paths, fs); State() == o.state && r == o.result
      ensures fileReads == old(fileReads) + (match Refresh(old(State()), paths, fs).read case None => [] case Some(p) => [p])
    {
      var file := FindFirst(paths, fs);
      if file.None? {
        return None;
      }
      var p := file.value;
      var stat := fs(p).mtime;
      if stat.Failure? {
        return None;
      }
      if stat.value == mtime && words.Some? {
        return words;
      }
      fileReads := fileReads + [p];
      var content := fs(p).lines;
      if content.Failure? {
        return None;
      }
      words := Some(KeepLines(content.value));
      mtime := stat.value;
      return words;
    }
  }

  // ---------------------------------------------------------------------
  // The context prompt

  const ContextPrefix: String := "重要术语: "

  /** At most this many terms go into the prompt. */
  const MaxTerms: nat := 20

  /** `hotwords[:20]` */
  function FirstTerms(words: seq<String>): (r: seq<String>)
    ensures |r| <= MaxTerms && |r| <= |words| && r == words[..|r|]
    ensures |words| <= MaxTerms ==> r == words
  {
    if |words| <= MaxTerms then words else words[..MaxTerms]
  }

  /** The prompt passed to the engine: present only for a non-empty list of
      terms, and then the prefix followed by the first twenty terms joined by
      ", ". */
  function BuildContext(hotwords: Option<seq<String>>): (c: Option<String>)
    ensures c.Some? <==> hotwords.Some? && hotwords.value != []
    ensures c.Some? ==> |c.value| >= |ContextPrefix| && c.value[..|ContextPrefix|] == ContextPrefix
  {
    if hotwords.None? || hotwords.value == [] then None
    else Some(ContextPrefix + Join(FirstTerms(hotwords.value), ", "))
  }

  /** Terms after the twentieth do not change the prompt. */
  lemma ContextIgnoresLaterTerms(words: seq<String>)
    requires |words| > MaxTerms
    ensures BuildContext(Some(words)) == BuildContext(Some(words[..MaxTerms]))
  {
    assert words[..MaxTerms] != [] by {
      assert |words[..MaxTerms]| == MaxTerms;
    }
  }

  /** Each of the first twenty terms occurs in the prompt. */
  lemma ContextNamesTerms(words: seq<String>, i: nat)
    requires i < |words| && i < MaxTerms
    ensures BuildContext(Some(words)).Some?
    ensures Occurs(BuildContext(Some(words)).value, words[i])
  {
    var first := FirstTerms(words);
    assert first[i] == words[i];
    JoinHas(first, ", ", i);
    var j: nat :| j <= |Join(first, ", ")| && OccursAt(Join(first, ", "), words[i], j);
    OccursAtAppend(ContextPrefix, Join(first, ", "), words[i], j);
  }

  /** One term: the prompt is the prefix and that term. */
  lemma ContextOneTerm(w: String)
    ensures BuildContext(Some([w])) == Some(ContextPrefix + w)
  {
  }
}
