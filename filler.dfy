/** Filler-word removal (`remove_filler_words`): every filler word that stands
    between two boundaries (text edge, whitespace or punctuation) is deleted,
    for at most three passes over the word list; whitespace is then collapsed
    and boundary characters are trimmed from both ends. */
module Filler {
  import opened Text
  import opened Outcome

  /** The filler words, in the order and groups the source lists them
      (duplicates included; the stage works on their set). */
  const SingleCharFillers: seq<String> := ["啊", "嗯", "哦", "呀", "哇", "哈", "嘿", "嗯呐"]
  const TwoCharFillers: seq<String> := HedgeFillers + LinkFillers + ReplyFillers
  const HedgeFillers: seq<String> := ["这个", "那个", "就是", "其实", "可能", "大概", "好像", "或许"]
  const LinkFillers: seq<String> := ["然后", "那么", "这样", "那样", "什么", "怎么", "为什么"]
  const ReplyFillers: seq<String> := ["对了", "好吧", "好吧", "嗯嗯", "啊啊", "哦哦"]
  const LongFillers: seq<String> := ["也就是说", "话句话说", "其实呢", "这个那个"]
  const RepeatFillers: seq<String> := ["呃呃", "呃", "哇塞", "我去", "我靠", "我擦"]
  const EndingFillers: seq<String> := ["啦", "呀", "哦", "吧", "呢", "吗", "啊", "哈"]
  const EnglishFillers: seq<String> :=
    ["um", "uh", "er", "like", "you know", "basically", "actually",
     "literally", "so yeah", "you see"]

  const FillerWords: seq<String> :=
    SingleCharFillers + TwoCharFillers + LongFillers + RepeatFillers + EndingFillers + EnglishFillers

  /** The punctuation of the boundary class. The source writes two pairs of
      ASCII quotes back to back inside its literal, which makes it two
      adjacent literals: the class holds the ASCII quote characters, not
      curly quotes. */
  predicate IsPunct(c: char) {
    || c == '，' || c == '。' || c == '！' || c == '？' || c == '、' || c == '；' || c == '：'
    || c == '"' || c == '（' || c == '）' || c == '【' || c == '】'
    || c == ',' || c == '.' || c == '!' || c == '?' || c == ';' || c == ':' || c == '\''
    || c == '(' || c == ')' || c == '[' || c == ']'
  }

  /** One boundary character: `\s` or a character of the punctuation class. */
  predicate IsBoundary(c: char) {
    IsSpace(c) || IsPunct(c)
  }

  /** The characters `str.strip` removes at the end of the stage: a plain
      space and the punctuation class. */
  predicate IsEdge(c: char) {
    c == ' ' || IsPunct(c)
  }

  /** The word list the stage iterates: every filler word exactly once,
      longest first (ties in whatever order the set yields). */
  predicate IsFillerOrder(words: seq<String>) {
    && (forall w :: w in words ==> w in FillerWords)
    && (forall w :: w in FillerWords ==> w in words)
    && (forall i, j :: 0 <= i < j < |words| ==> words[i] != words[j])
    && (forall i, j :: 0 <= i < j < |words| ==> |words[i]| >= |words[j]|)
  }

  predicate NonEmptyWords(words: seq<String>) {
    forall i :: 0 <= i < |words| ==> words[i] != []
  }

  /** A list in the stage's order holds no empty word. */
  lemma FillerOrderNonEmpty(words: seq<String>)
    requires IsFillerOrder(words)
    ensures NonEmptyWords(words)
  {
    assert forall w :: w in FillerWords ==> w != [];
    forall i | 0 <= i < |words| ensures words[i] != [] {
      assert words[i] in words;
    }
  }

  // The matching below is stated for an arbitrary boundary class `bound`;
  // the stage uses `IsBoundary`.

  /** `w` occurs at `j` with a boundary (or the text edge) on both sides. */
  predicate BoundedAt(bound: char -> bool, t: String, w: String, j: nat) {
    && OccursAt(t, w, j)
    && (j == 0 || bound(t[j - 1]))
    && (j + |w| == |t| || bound(t[j + |w|]))
  }

  predicate HasBounded(bound: char -> bool, t: String, w: String) {
    exists j: nat | j <= |t| :: BoundedAt(bound, t, w, j)
  }

  /** Where the word found at `j` and its right group `($|\s|[puncts])` end:
      `$` is tried first (end of text, or just before a final newline) and
      consumes nothing; otherwise one boundary character is consumed. */
  function RightEdge(bound: char -> bool, t: String, w: String, j: nat): (e: Option<nat>)
    ensures e.Some? ==> j + |w| <= e.value <= |t| && e.value <= j + |w| + 1
  {
    if !OccursAt(t, w, j) then None
    else
      var k := j + |w|;
      if k == |t| || (k == |t| - 1 && t[k] == '\n') then Some(k)
      else if bound(t[k]) then Some(k + 1)
      else None
  }

  /** A match of the pattern found by a search at `i`. */
  datatype Hit = Hit(wordAt: nat, end: nat)

  /** The match, if any, starting at `i`: first the `^` alternative (only at
      the start of the text), then one boundary character at `i`. */
  function MatchAt(bound: char -> bool, t: String, w: String, i: nat): (h: Option<Hit>)
    requires i < |t|
    ensures h.Some? ==> i <= h.value.wordAt <= i + 1 && h.value.wordAt + |w| <= h.value.end <= |t|
  {
    if i == 0 && RightEdge(bound, t, w, 0).Some? then Some(Hit(0, RightEdge(bound, t, w, 0).value))
    else if bound(t[i]) && RightEdge(bound, t, w, i + 1).Some? then Some(Hit(i + 1, RightEdge(bound, t, w, i + 1).value))
    else None
  }

  /** `re.sub(pattern, r'\1\2', ...)` continued from position `i`: each
      match is replaced by its two boundary groups, and the search resumes
      after the match. */
  function Scan(bound: char -> bool, t: String, w: String, i: nat): String
    requires w != [] && i <= |t|
    decreases |t| - i
  {
    if i == |t| then []
    else match MatchAt(bound, t, w, i)
      case Some(h) => t[i..h.wordAt] + t[h.wordAt + |w|..h.end] + Scan(bound, t, w, h.end)
      case None => [t[i]] + Scan(bound, t, w, i + 1)
  }

  /** One `re.sub` for the word `w`. */
  function RemoveWord(t: String, w: String): String
    requires w != []
  {
    Scan(IsBoundary, t, w, 0)
  }

  /** One pass over the word list. */
  function Pass(words: seq<String>, t: String): String
    requires NonEmptyWords(words)
  {
    if words == [] then t else Pass(words[1..], RemoveWord(t, words[0]))
  }

  /** At most `n` passes, stopping after the first pass that changes nothing. */
  function Passes(words: seq<String>, t: String, n: nat): String
    requires NonEmptyWords(words)
    decreases n
  {
    if n == 0 then t
    else
      var t' := Pass(words, t);
      if t' == t then t else Passes(words, t', n - 1)
  }

  /** Exactly `n` passes. */
  function PassesExactly(words: seq<String>, t: String, n: nat): String
    requires NonEmptyWords(words)
    decreases n
  {
    if n == 0 then t else PassesExactly(words, Pass(words, t), n - 1)
  }

  /** The whole stage. */
  function Fillers(words: seq<String>, text: String): String
    requires NonEmptyWords(words)
  {
    if text == [] then text
    else Trim(CollapseSpaces(Passes(words, text, 3)), IsEdge)
  }

  /** `remove_filler_words`, with the sorted word list as a parameter. */
  method RemoveFillerWords(words: seq<String>, text: String) returns (result: String)
    requires NonEmptyWords(words)
    ensures result == Fillers(words, text)
  {
    if text == [] {
      return text;
    }
    var t := text;
    var pass := 0;
    while pass < 3
      invariant 0 <= pass <= 3
      invariant Passes(words, text, 3) == Passes(words, t, 3 - pass)
    {
      var start := t;
      var changed := false;
      var i := 0;
      while i < |words|
        invariant 0 <= i <= |words|
        invariant Pass(words[i..], t) == Pass(words, start)
        invariant |t| <= |start|
        invariant changed <==> t != start
      {
        assert words[i..][1..] == words[i + 1..];
        var next := RemoveWord(t, words[i]);
        RemoveWordShrinks(t, words[i]);
        if next != t {
          changed := true;
          t := next;
        }
        i := i + 1;
      }
      if !changed {
        break;
      }
      pass := pass + 1;
    }
    t := CollapseSpaces(t);
    result := Trim(t, IsEdge);
  }

  // ---------------------------------------------------------------------
  // One word

  lemma {:induction false} ScanShrinks(bound: char -> bool, t: String, w: String, i: nat)
    requires w != [] && i <= |t|
    ensures |Scan(bound, t, w, i)| <= |t| - i
    ensures Scan(bound, t, w, i) == t[i..] || |Scan(bound, t, w, i)| < |t| - i
    decreases |t| - i
  {
    if i < |t| {
      if MatchAt(bound, t, w, i).Some? {
        var h := MatchAt(bound, t, w, i).value;
        assert i <= h.wordAt <= i + 1 && h.wordAt + |w| <= h.end <= |t|;
        ScanShrinks(bound, t, w, h.end);
      } else {
        ScanShrinks(bound, t, w, i + 1);
        assert t[i..] == [t[i]] + t[i + 1..];
      }
    }
  }

  /** A `re.sub` for one word never lengthens the text, and shortens it
      whenever it changes it. */
  lemma RemoveWordShrinks(t: String, w: String)
    requires w != []
    ensures |RemoveWord(t, w)| <= |t|
    ensures RemoveWord(t, w) != t ==> |RemoveWord(t, w)| < |t|
  {
    ScanShrinks(IsBoundary, t, w, 0);
  }

  lemma {:induction false} ScanCopies(bound: char -> bool, t: String, w: String, i: nat)
    requires w != [] && i <= |t|
    requires forall p :: i <= p < |t| ==> MatchAt(bound, t, w, p).None?
    ensures Scan(bound, t, w, i) == t[i..]
    decreases |t| - i
  {
    if i < |t| {
      ScanCopies(bound, t, w, i + 1);
      assert t[i..] == [t[i]] + t[i + 1..];
    }
  }

  /** A search that finds a match shortens the text. */
  lemma ScanHitShrinks(bound: char -> bool, t: String, w: String, i: nat)
    requires w != [] && i < |t| && MatchAt(bound, t, w, i).Some?
    ensures |Scan(bound, t, w, i)| < |t| - i
  {
    var h := MatchAt(bound, t, w, i).value;
    assert i <= h.wordAt <= i + 1 && h.wordAt + |w| <= h.end <= |t|;
    ScanShrinks(bound, t, w, h.end);
  }

  lemma {:induction false} ScanChanges(bound: char -> bool, t: String, w: String, i: nat)
    requires w != [] && i <= |t|
    ensures Scan(bound, t, w, i) == t[i..] ==> forall p :: i <= p < |t| ==> MatchAt(bound, t, w, p).None?
    decreases |t| - i
  {
    if i < |t| {
      if MatchAt(bound, t, w, i).Some? {
        ScanHitShrinks(bound, t, w, i);
        assert Scan(bound, t, w, i) != t[i..];
      } else {
        ScanChanges(bound, t, w, i + 1);
        assert Scan(bound, t, w, i) == [t[i]] + Scan(bound, t, w, i + 1);
        assert t[i..] == [t[i]] + t[i + 1..];
      }
    }
  }

  lemma MatchIsBounded(bound: char -> bool, t: String, w: String, p: nat)
    requires p < |t| && MatchAt(bound, t, w, p).Some? && bound('\n')
    ensures BoundedAt(bound, t, w, MatchAt(bound, t, w, p).value.wordAt)
  {
  }

  lemma BoundedMatches(bound: char -> bool, t: String, w: String, j: nat)
    requires BoundedAt(bound, t, w, j) && w != []
    ensures j == 0 ==> MatchAt(bound, t, w, 0).Some?
    ensures j > 0 ==> MatchAt(bound, t, w, j - 1).Some?
  {
    var k := j + |w|;
    assert k < |t| ==> bound(t[k]);
  }

  lemma ScanUnchanged(bound: char -> bool, t: String, w: String)
    requires w != [] && bound('\n')
    ensures Scan(bound, t, w, 0) == t <==> !HasBounded(bound, t, w)
  {
    ScanChanges(bound, t, w, 0);
    assert t[0..] == t;
    if HasBounded(bound, t, w) {
      var j: nat :| j <= |t| && BoundedAt(bound, t, w, j);
      BoundedMatches(bound, t, w, j);
    } else {
      forall p | 0 <= p < |t|
        ensures MatchAt(bound, t, w, p).None?
      {
        if MatchAt(bound, t, w, p).Some? {
          MatchIsBounded(bound, t, w, p);
        }
      }
      ScanCopies(bound, t, w, 0);
    }
  }

  /** The `re.sub` for `w` leaves the text unchanged exactly when `w` has no
      occurrence with a boundary (or the text edge) on both sides. */
  lemma RemoveWordUnchanged(t: String, w: String)
    requires w != []
    ensures RemoveWord(t, w) == t <==> !HasBounded(IsBoundary, t, w)
  {
    assert IsBoundary('\n');
    ScanUnchanged(IsBoundary, t, w);
  }

  /** A filler word alone is deleted entirely. */
  lemma RemoveWordAlone(w: String)
    requires w != []
    ensures RemoveWord(w, w) == []
  {
    assert w[0..|w|] == w;
    assert RightEdge(IsBoundary, w, w, 0) == Some(|w|);
    assert MatchAt(IsBoundary, w, w, 0) == Some(Hit(0, |w|));
    assert Scan(IsBoundary, w, w, |w|) == [];
    assert Scan(IsBoundary, w, w, 0) == w[0..0] + w[|w|..|w|] + Scan(IsBoundary, w, w, |w|);
  }

  lemma ScanBetween(bound: char -> bool, c1: char, w: String, c2: char)
    requires w != [] && !bound(w[0])
    requires bound(c1) && bound(c2)
    ensures Scan(bound, [c1] + w + [c2], w, 0) == [c1, c2]
  {
    var t := [c1] + w + [c2];
    assert t[0] == c1;
    assert !OccursAt(t, w, 0);
    assert OccursAt(t, w, 1) by {
      assert t[1..1 + |w|] == w;
    }
    assert t[1 + |w|] == c2;
    var k := 1 + |w|;
    if c2 == '\n' {
      assert MatchAt(bound, t, w, 0) == Some(Hit(1, k));
      assert Scan(bound, t, w, k) == [c2] + Scan(bound, t, w, k + 1);
    } else {
      assert MatchAt(bound, t, w, 0) == Some(Hit(1, k + 1));
    }
  }

  /** A filler word between two boundary characters is deleted and both
      boundaries stay. */
  lemma RemoveWordBetween(c1: char, w: String, c2: char)
    requires w != [] && !IsBoundary(w[0])
    requires IsBoundary(c1) && IsBoundary(c2)
    ensures RemoveWord([c1] + w + [c2], w) == [c1, c2]
  {
    ScanBetween(IsBoundary, c1, w, c2);
  }

  // ---------------------------------------------------------------------
  // Passes

  lemma {:induction false} PassUnchanged(words: seq<String>, t: String)
    requires NonEmptyWords(words)
    requires forall i :: 0 <= i < |words| ==> !HasBounded(IsBoundary, t, words[i])
    ensures Pass(words, t) == t
  {
    if words != [] {
      RemoveWordUnchanged(t, words[0]);
      PassUnchanged(words[1..], t);
    }
  }

  lemma {:induction false} PassesSettled(words: seq<String>, t: String, n: nat)
    requires NonEmptyWords(words) && Pass(words, t) == t
    ensures PassesExactly(words, t, n) == t
    decreases n
  {
    if n > 0 {
      PassesSettled(words, t, n - 1);
    }
  }

  /** Stopping after the first pass that changes nothing gives what running
      every pass would give. */
  lemma {:induction false} EarlyStopSound(words: seq<String>, t: String, n: nat)
    requires NonEmptyWords(words)
    ensures Passes(words, t, n) == PassesExactly(words, t, n)
    decreases n
  {
    if n > 0 {
      if Pass(words, t) == t {
        PassesSettled(words, t, n);
      } else {
        EarlyStopSound(words, Pass(words, t), n - 1);
      }
    }
  }

  /** A text in which no word of the list stands between boundaries comes out
      of the passes unchanged. */
  lemma NoBoundedFiller(words: seq<String>, t: String)
    requires NonEmptyWords(words)
    requires forall i :: 0 <= i < |words| ==> !HasBounded(IsBoundary, t, words[i])
    ensures Passes(words, t, 3) == t
  {
    PassUnchanged(words, t);
  }

  /** The stage's result has single spaces only, and neither starts nor ends
      with whitespace or punctuation of the class. */
  lemma FillersShape(words: seq<String>, text: String)
    requires NonEmptyWords(words)
    ensures SingleSpaced(Fillers(words, text))
    ensures var r := Fillers(words, text); r == [] || (!IsEdge(r[0]) && !IsEdge(r[|r| - 1]))
    ensures var r := Fillers(words, text); r == [] || (!IsSpace(r[0]) && !IsSpace(r[|r| - 1]))
  {
    if text != [] {
      TrimCollapseShape(Passes(words, text, 3), IsEdge);
    }
  }

  // ---------------------------------------------------------------------
  // Words inside longer tokens survive

  lemma ForeignUnbounded(bound: char -> bool, s: String, w: String)
    requires Foreign(s, w)
    ensures !HasBounded(bound, s, w)
  {
    forall j: nat | j <= |s|
      ensures !BoundedAt(bound, s, w, j)
    {
      ForeignAbsent(s, w, j);
    }
  }

  lemma SingleCharForeign() ensures forall w :: w in SingleCharFillers ==> Foreign("这个人", w) && Foreign("error", w) {}
  lemma HedgeForeign() ensures forall w :: w in HedgeFillers ==> w == "这个" || (Foreign("这个人", w) && Foreign("error", w)) {}
  lemma LinkForeign() ensures forall w :: w in LinkFillers ==> Foreign("这个人", w) && Foreign("error", w) {}
  lemma ReplyForeign() ensures forall w :: w in ReplyFillers ==> Foreign("这个人", w) && Foreign("error", w) {}
  lemma LongForeign() ensures forall w :: w in LongFillers ==> Foreign("这个人", w) && Foreign("error", w) {}
  lemma RepeatForeign() ensures forall w :: w in RepeatFillers ==> Foreign("这个人", w) && Foreign("error", w) {}
  lemma EndingForeign() ensures forall w :: w in EndingFillers ==> Foreign("这个人", w) && Foreign("error", w) {}
  lemma EnglishForeign() ensures forall w :: w in EnglishFillers ==> w == "er" || (Foreign("这个人", w) && Foreign("error", w)) {}

  lemma FillersForeign()
    ensures forall w :: w in FillerWords ==> w == "这个" || w == "er" || (Foreign("这个人", w) && Foreign("error", w))
  {
    SingleCharForeign();
    HedgeForeign();
    LinkForeign();
    ReplyForeign();
    LongForeign();
    RepeatForeign();
    EndingForeign();
    EnglishForeign();
  }

  lemma ErInError()
    ensures !HasBounded(IsBoundary, "error", "er") && Foreign("这个人", "er")
  {
    forall j: nat | j <= 5
      ensures !BoundedAt(IsBoundary, "error", "er", j)
    {
      if j == 0 {
        assert "error"[2] == 'r' && !IsBoundary('r');
      } else {
        ForeignAbsent("error"[1..], "er", j - 1);
        OccursAtShift("error", "er", j - 1);
      }
    }
  }

  lemma ZheGeInZheGeRen()
    ensures !HasBounded(IsBoundary, "这个人", "这个") && Foreign("error", "这个")
  {
    forall j: nat | j <= 3
      ensures !BoundedAt(IsBoundary, "这个人", "这个", j)
    {
      if j == 0 {
        assert "这个人"[2] == '人' && !IsBoundary('人');
      } else {
        ForeignAbsent("这个人"[1..], "这个", j - 1);
        OccursAtShift("这个人", "这个", j - 1);
      }
    }
  }

  /** No filler word stands between boundaries in `这个人` or in `error`. */
  lemma FillersUnbounded()
    ensures forall w :: w in FillerWords ==> !HasBounded(IsBoundary, "这个人", w) && !HasBounded(IsBoundary, "error", w)
  {
    FillersForeign();
    ErInError();
    ZheGeInZheGeRen();
    forall w | w in FillerWords
      ensures !HasBounded(IsBoundary, "这个人", w) && !HasBounded(IsBoundary, "error", w)
    {
      if w != "这个" && w != "er" {
        ForeignUnbounded(IsBoundary, "这个人", w);
        ForeignUnbounded(IsBoundary, "error", w);
      }
    }
  }

  /** A text without whitespace, with no punctuation at its ends and in
      which no filler word stands between boundaries passes unchanged. */
  lemma UnboundedText(words: seq<String>, s: String)
    requires IsFillerOrder(words) && NonEmptyWords(words) && s != []
    requires forall w :: w in FillerWords ==> !HasBounded(IsBoundary, s, w)
    requires forall i :: 0 <= i < |s| ==> !IsSpace(s[i])
    requires !IsPunct(s[0]) && !IsPunct(s[|s| - 1])
    ensures Fillers(words, s) == s
  {
    CleanText(s);
    forall i | 0 <= i < |words|
      ensures !HasBounded(IsBoundary, s, words[i])
    {
      assert words[i] in words;
    }
    NoBoundedFiller(words, s);
  }

  /** A text without whitespace and with no punctuation at its ends is
      left alone by the cleanup. */
  lemma CleanText(s: String)
    requires forall i :: 0 <= i < |s| ==> !IsSpace(s[i])
    requires s == [] || (!IsPunct(s[0]) && !IsPunct(s[|s| - 1]))
    ensures Trim(CollapseSpaces(s), IsEdge) == s
  {
    TrimCollapseKeeps(s, IsEdge);
  }

  /** A filler word embedded in a longer token is not a filler: `这个人`
      passes through the stage unchanged, whatever order the set of filler
      words is iterated in. */
  lemma ZheGeRenSurvives(words: seq<String>)
    requires IsFillerOrder(words) && NonEmptyWords(words)
    ensures Fillers(words, "这个人") == "这个人"
  {
    FillersUnbounded();
    UnboundedText(words, "这个人");
  }

  /** Likewise `er` inside `error`. */
  lemma ErrorSurvives(words: seq<String>)
    requires IsFillerOrder(words) && NonEmptyWords(words)
    ensures Fillers(words, "error") == "error"
  {
    FillersUnbounded();
    UnboundedText(words, "error");
  }
}
