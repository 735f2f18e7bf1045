/** Sentence polish (`polish_sentence`): the two repairs of a digit the
    numeral stage made out of `一`, the halving of doubled spoken markers, and
    the joining of a digit to the measure word after it. */
module Polish {
  import opened Text

  /** The doubled markers and their halves, in the order they are applied. */
  const Doubled: seq<(String, String)> := [
    ("那个那个", "那个"),
    ("这个这个", "这个"),
    ("然后然后", "然后"),
    ("就是就是", "就是"),
    ("好吧好吧", "好吧")
  ]

  lemma DoubledValid()
    ensures ValidTable(Doubled)
  {
  }

  /** The measure words of the pattern `(个|只|条|张|本|页|行|列|米|厘米|公里|千克|克)`. */
  const UnitWords: seq<String> := ["个", "只", "条", "张", "本", "页", "行", "列", "米", "厘米", "公里", "千克", "克"]

  /** The length of the measure word at the head of `t`, or 0 when none is.
      The alternatives start with distinct characters, so at most one of
      them matches and the alternation order does not matter. */
  function UnitAt(t: String): (r: nat)
    ensures r <= |t| && r <= 2
  {
    if t == [] then 0
    else match t[0]
      case '个' => 1
      case '只' => 1
      case '条' => 1
      case '张' => 1
      case '本' => 1
      case '页' => 1
      case '行' => 1
      case '列' => 1
      case '米' => 1
      case '克' => 1
      case '厘' => if |t| >= 2 && t[1] == '米' then 2 else 0
      case '公' => if |t| >= 2 && t[1] == '里' then 2 else 0
      case '千' => if |t| >= 2 && t[1] == '克' then 2 else 0
      case _ => 0
  }

  /** `UnitAt` finds exactly the words of `UnitWords`: a measure word is
      found at the head of `t` when one of the words starts `t`, and what it
      finds is that word. */
  lemma UnitAtFindsUnitWords(t: String)
    ensures UnitAt(t) > 0 ==> UnitAt(t) <= |t| && t[..UnitAt(t)] in UnitWords
    ensures forall u :: u in UnitWords && u <= t ==> UnitAt(t) == |u|
  {
    if UnitAt(t) == 1 {
      assert t[..1] == [t[0]];
    } else if UnitAt(t) == 2 {
      assert t[..2] == [t[0], t[1]];
    }
  }

  /** No measure word starts with whitespace or a digit. */
  lemma UnitWordsPlain(t: String)
    requires UnitAt(t) > 0
    ensures !IsSpace(t[0]) && !IsDecimalDigit(t[0])
    ensures forall i :: 0 <= i < UnitAt(t) ==> !IsSpace(t[i]) && !IsDecimalDigit(t[i])
  {
  }

  /** `re.sub(r'(\d)\s+(个|…|克)', r'\1\2', t)`: whitespace between a digit
      and a measure word is deleted, scanning left to right and resuming after
      each measure word. */
  function JoinUnits(t: String): (r: String)
    ensures |r| <= |t|
    decreases |t|
  {
    if |t| < 2 then t
    else if IsDecimalDigit(t[0]) && IsSpace(t[1]) then
      var rest := TrimLeft(t[1..], IsSpace);
      var u := UnitAt(rest);
      if u > 0 then [t[0]] + rest[..u] + JoinUnits(rest[u..])
      else [t[0]] + JoinUnits(t[1..])
    else [t[0]] + JoinUnits(t[1..])
  }

  /** `polish_sentence`, stage after stage. */
  function Polish(text: String): String {
    if text == [] then text
    else
      var t := ReplaceAll(ReplaceAll(text, "1些", "一些"), "1下", "一下");
      DoubledValid();
      JoinUnits(ApplyTable(Doubled, t))
  }

  /** `polish_sentence` with its loop over the doubled markers. */
  method PolishSentence(text: String) returns (r: String)
    ensures r == Polish(text)
  {
    if text == [] {
      return text;
    }
    DoubledValid();
    r := ReplaceAll(text, "1些", "一些");
    r := ReplaceAll(r, "1下", "一下");
    var i := 0;
    while i < |Doubled|
      invariant i <= |Doubled|
      invariant ValidTable(Doubled[i..])
      invariant ApplyTable(Doubled[i..], r) == ApplyTable(Doubled, ReplaceAll(ReplaceAll(text, "1些", "一些"), "1下", "一下"))
    {
      assert Doubled[i..][1..] == Doubled[i + 1..];
      assert Doubled[i] in Doubled[i..];
      r := ReplaceAll(r, Doubled[i].0, Doubled[i].1);
      i := i + 1;
    }
    r := JoinUnits(r);
  }

  // ---------------------------------------------------------------------
  // Halving

  /** `n` copies of `w` one after the other. */
  function Repeat(w: String, n: nat): String
    decreases n
  {
    if n == 0 then [] else w + Repeat(w, n - 1)
  }

  /** A run of `n` copies of a marker is halved once, rounding up: the
      replacement is not repeated on its own output, so four copies become
      two and three become two. */
  lemma {:induction false} HalveRepeat(w: String, n: nat)
    requires w != []
    ensures ReplaceAll(Repeat(w, n), w + w, w) == Repeat(w, (n + 1) / 2)
    decreases n
  {
    if n >= 2 {
      var rest := Repeat(w, n - 2);
      assert Repeat(w, n) == w + (w + rest);
      assert Repeat(w, n) == (w + w) + rest;
      var s := Repeat(w, n);
      assert s[..|w + w|] == w + w;
      assert s[|w + w|..] == rest;
      HalveRepeat(w, n - 2);
      assert (n + 1) / 2 == (n - 1) / 2 + 1;
    } else if n == 1 {
      assert Repeat(w, 1) == w + [] == w;
    }
  }

  // ---------------------------------------------------------------------
  // Joining a digit to its measure word

  /** A digit, whitespace and a measure word become the digit and the
      measure word. */
  lemma JoinUnitsJoins(d: char, sp: String, u: String, b: String)
    requires IsDecimalDigit(d) && sp != [] && All(sp, IsSpace) && u in UnitWords
    ensures JoinUnits([d] + sp + u + b) == [d] + u + JoinUnits(b)
  {
    var t := [d] + sp + u + b;
    assert t[1..] == sp + (u + b);
    assert t[1] == sp[0];
    TrimSpaces(sp, u + b);
    UnitAtFindsUnitWords(u + b);
    assert (u + b)[..|u|] == u && (u + b)[|u|..] == b;
  }

  /** A text in which no digit is followed by whitespace is left alone. */
  lemma {:induction false} JoinUnitsNoGap(t: String)
    requires forall i :: 0 <= i < |t| - 1 ==> !(IsDecimalDigit(t[i]) && IsSpace(t[i + 1]))
    ensures JoinUnits(t) == t
    decreases |t|
  {
    if |t| >= 2 {
      assert !(IsDecimalDigit(t[0]) && IsSpace(t[1]));
      JoinUnitsNoGap(t[1..]);
      assert t == [t[0]] + t[1..];
    }
  }

  /** Only whitespace is deleted: the non-whitespace characters of the text
      are kept, in order. */
  lemma {:induction false} JoinUnitsKeepsText(t: String)
    ensures NonSpace(JoinUnits(t)) == NonSpace(t)
    decreases |t|
  {
    if |t| >= 2 {
      if IsDecimalDigit(t[0]) && IsSpace(t[1]) && UnitAt(TrimLeft(t[1..], IsSpace)) > 0 {
        var rest := TrimLeft(t[1..], IsSpace);
        JoinUnitsKeepsText(rest[UnitAt(rest)..]);
        JoinedKeepsText(t);
      } else {
        JoinUnitsKeepsText(t[1..]);
        CopiedKeepsText(t);
      }
    }
  }

  lemma CopiedKeepsText(t: String)
    requires |t| >= 2 && !(IsDecimalDigit(t[0]) && IsSpace(t[1]) && UnitAt(TrimLeft(t[1..], IsSpace)) > 0)
    requires NonSpace(JoinUnits(t[1..])) == NonSpace(t[1..])
    ensures NonSpace(JoinUnits(t)) == NonSpace(t)
  {
    assert JoinUnits(t) == [t[0]] + JoinUnits(t[1..]);
    CopiedPieces(t[0], t[1..], JoinUnits(t[1..]));
    HeadTail(t);
  }

  lemma CopiedPieces(c: char, x: String, j: String)
    requires NonSpace(j) == NonSpace(x)
    ensures NonSpace([c] + j) == NonSpace([c] + x)
  {
    NonSpaceAppend([c], j);
    NonSpaceAppend([c], x);
  }

  lemma JoinedKeepsText(t: String)
    requires |t| >= 2 && IsDecimalDigit(t[0]) && IsSpace(t[1]) && UnitAt(TrimLeft(t[1..], IsSpace)) > 0
    requires var rest := TrimLeft(t[1..], IsSpace);
      NonSpace(JoinUnits(rest[UnitAt(rest)..])) == NonSpace(rest[UnitAt(rest)..])
    ensures NonSpace(JoinUnits(t)) == NonSpace(t)
  {
    var rest := TrimLeft(t[1..], IsSpace);
    var u := UnitAt(rest);
    assert JoinUnits(t) == [t[0]] + rest[..u] + JoinUnits(rest[u..]);
    UnitWordsPlain(rest);
    SpaceRunDropped(t[1..]);
    DigitNotSpace(t[0]);
    JoinedPieces(t[0], t[1..], rest, u, JoinUnits(rest[u..]));
    HeadTail(t);
  }

  /** The bookkeeping of `JoinedKeepsText` on the pieces of the text: a
      character, the whitespace after it, the measure word and the rest. */
  lemma JoinedPieces(d: char, s1: String, rest: String, u: nat, j: String)
    requires !IsSpace(d) && NonSpace(s1) == NonSpace(rest) && u <= |rest|
    requires forall i :: 0 <= i < u ==> !IsSpace(rest[i])
    requires NonSpace(j) == NonSpace(rest[u..])
    ensures NonSpace([d] + rest[..u] + j) == NonSpace([d] + s1)
  {
    var w, tail := rest[..u], rest[u..];
    var x := NonSpace(tail);
    NonSpaceWordAppend([d] + w, j);
    NonSpaceWordAppend([d], s1);
    assert rest == w + tail;
    NonSpaceWordAppend(w, tail);
    AppendAssoc([d], w, x);
  }

  lemma NonSpaceWordAppend(w: String, x: String)
    requires forall i :: 0 <= i < |w| ==> !IsSpace(w[i])
    ensures NonSpace(w + x) == w + NonSpace(x)
  {
    NonSpaceAppend(w, x);
    NonSpaceOfWord(w);
  }

  /** A word without whitespace is its own non-whitespace text. */
  lemma {:induction false} NonSpaceOfWord(w: String)
    requires forall i :: 0 <= i < |w| ==> !IsSpace(w[i])
    ensures NonSpace(w) == w
    decreases |w|
  {
    if w != [] {
      NonSpaceAppend([w[0]], w[1..]);
      NonSpaceOfWord(w[1..]);
      assert w == [w[0]] + w[1..];
    }
  }

  // ---------------------------------------------------------------------
  // The whole stage

  /** A text with none of the patterns is returned as it is. */
  lemma PolishFixes(t: String)
    requires !Occurs(t, "1些") && !Occurs(t, "1下")
    requires forall p :: p in Doubled ==> !Occurs(t, p.0)
    requires forall i :: 0 <= i < |t| - 1 ==> !(IsDecimalDigit(t[i]) && IsSpace(t[i + 1]))
    ensures Polish(t) == t
  {
    if t != [] {
      ReplaceAllAbsent(t, "1些", "一些");
      ReplaceAllAbsent(t, "1下", "一下");
      DoubledValid();
      TableFixesText(Doubled, t);
      JoinUnitsNoGap(t);
    }
  }

  /** `1些` and `1下` are spelled back with `一`. */
  lemma NumeralWordsRestored()
    ensures Polish("1些") == "一些" && Polish("1下") == "一下"
  {
    RestoredOne("1些", "1下", "一下", "一些");
    RestoredOne("1下", "1些", "一些", "一下");
  }

  lemma RestoredOne(s: String, other: String, otherRep: String, rep: String)
    requires (s == "1些" && other == "1下" && otherRep == "一下" && rep == "一些")
          || (s == "1下" && other == "1些" && otherRep == "一些" && rep == "一下")
    ensures Polish(s) == rep
  {
    DoubledValid();
    var t1 := ReplaceAll(s, "1些", "一些");
    var t2 := ReplaceAll(t1, "1下", "一下");
    assert s[..2] == s && s[2..] == [];
    if s == "1些" {
      assert t1 == "一些";
      ForeignNotOccurs("一些", "1下");
      ReplaceAllAbsent("一些", "1下", "一下");
    } else {
      ForeignNotOccurs("1下", "1些");
      ReplaceAllAbsent("1下", "1些", "一些");
      assert t2 == "一下";
    }
    assert t2 == rep;
    forall p | p in Doubled ensures !Occurs(rep, p.0) {
      ForeignNotOccurs(rep, p.0);
    }
    TableFixesText(Doubled, rep);
    JoinUnitsNoGap(rep);
  }

  /** Every character of `s` is `那` or `个`. */
  predicate MarkerChars(s: String) {
    forall i :: 0 <= i < |s| ==> s[i] == '那' || s[i] == '个'
  }

  lemma {:induction false} RepeatMarkerChars(n: nat)
    ensures MarkerChars(Repeat("那个", n))
    decreases n
  {
    if n > 0 {
      RepeatMarkerChars(n - 1);
      var s := Repeat("那个", n);
      assert s == "那个" + Repeat("那个", n - 1);
      forall i | 0 <= i < |s| ensures s[i] == '那' || s[i] == '个' {
        if i >= 2 {
          assert s[i] == Repeat("那个", n - 1)[i - 2];
        }
      }
    }
  }

  /** A character that is neither `那` nor `个` is not in a text made of them. */
  lemma NotMarkerChar(s: String, c: char)
    requires MarkerChars(s) && c != '那' && c != '个'
    ensures c !in s
  {
  }

  /** On a text made of `那` and `个` the only stage with an effect is the
      halving of `那个那个`. */
  lemma MarkerTextPolish(s: String, h: String)
    requires s != [] && MarkerChars(s) && MarkerChars(h)
    requires h == ReplaceAll(s, "那个那个", "那个")
    ensures Polish(s) == h
  {
    DoubledValid();
    NotMarkerChar(s, '1');
    ForeignNotOccurs(s, "1些");
    ForeignNotOccurs(s, "1下");
    ReplaceAllAbsent(s, "1些", "一些");
    ReplaceAllAbsent(s, "1下", "一下");
    LaterMarkersFix(h);
    assert ApplyTable(Doubled, s) == ApplyTable(Doubled[1..], h);
    forall i | 0 <= i < |h| - 1 ensures !(IsDecimalDigit(h[i]) && IsSpace(h[i + 1])) {
      assert h[i] == '那' || h[i] == '个';
    }
    JoinUnitsNoGap(h);
  }

  /** The markers after `那个那个` leave a text of `那` and `个` alone. */
  lemma LaterMarkersFix(h: String)
    requires MarkerChars(h)
    ensures ValidTable(Doubled[1..]) && ApplyTable(Doubled[1..], h) == h
  {
    DoubledValid();
    var rest := Doubled[1..];
    NotMarkerChar(h, '这');
    NotMarkerChar(h, '然');
    NotMarkerChar(h, '就');
    NotMarkerChar(h, '好');
    forall p | p in rest ensures !Occurs(h, p.0) {
      ForeignNotOccurs(h, p.0);
    }
    TableFixesText(rest, h);
  }

  /** A run of `n` spoken `那个` comes out as `(n + 1) / 2` of them: a
      doubled marker is halved, a tripled one loses one copy. */
  lemma MarkerRunHalved(n: nat)
    requires n >= 1
    ensures Polish(Repeat("那个", n)) == Repeat("那个", (n + 1) / 2)
  {
    var s := Repeat("那个", n);
    assert s == "那个" + Repeat("那个", n - 1);
    RepeatMarkerChars(n);
    RepeatMarkerChars((n + 1) / 2);
    assert "那个" + "那个" == "那个那个";
    HalveRepeat("那个", n);
    MarkerTextPolish(s, Repeat("那个", (n + 1) / 2));
  }

  /** A digit, whitespace and no measure word: the digit and the whitespace
      are kept and the scan goes on at the whitespace. */
  lemma JoinUnitsKeepsGap(d: char, sp: String, b: String)
    requires IsDecimalDigit(d) && sp != [] && All(sp, IsSpace)
    requires UnitAt(b) == 0 && (b == [] || !IsSpace(b[0]))
    ensures JoinUnits([d] + sp + b) == [d] + JoinUnits(sp + b)
  {
    var t := [d] + sp + b;
    assert t[1..] == sp + b;
    assert t[1] == sp[0];
    TrimSpaces(sp, b);
  }
}
