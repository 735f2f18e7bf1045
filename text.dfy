/** Character classes and string primitives shared by every text stage of the
    transcription service: Python's whitespace class, literal replacement
    (`str.replace` and `re.sub` on an escaped literal), trimming, whitespace
    collapsing and joining. */
module Text {

  type String = seq<char>

  /** Python's `\s` in a `str` pattern and the default set of `str.strip()`:
      the characters for which `str.isspace()` holds. */
  predicate IsSpace(c: char) {
    || ('\t' <= c <= '\r')
    || ('\U{1C}' <= c <= '\U{1F}')
    || c == ' '
    || c == '\U{85}'
    || c == '\U{A0}'
    || c == '\U{1680}'
    || ('\U{2000}' <= c <= '\U{200A}')
    || c == '\U{2028}'
    || c == '\U{2029}'
    || c == '\U{202F}'
    || c == '\U{205F}'
    || c == '\U{3000}'
  }

  /** Python's `\d` restricted to ASCII and full-width decimal digits. */
  predicate IsDecimalDigit(c: char) {
    ('0' <= c <= '9') || ('\U{FF10}' <= c <= '\U{FF19}')
  }

  /** A decimal digit is not whitespace. */
  lemma DigitNotSpace(c: char)
    requires IsDecimalDigit(c)
    ensures !IsSpace(c)
  {
  }

  predicate OccursAt(s: String, pat: String, i: nat) {
    i + |pat| <= |s| && s[i..i + |pat|] == pat
  }

  /** `pat in s` */
  predicate Occurs(s: String, pat: String) {
    exists i: nat | i <= |s| :: OccursAt(s, pat, i)
  }

  /** Left-to-right, non-overlapping replacement of every occurrence of the
      literal `pat`: `s.replace(pat, rep)`, which is also what `re.sub` does
      with `re.escape(pat)` as its pattern. */
  function ReplaceAll(s: String, pat: String, rep: String): String
    requires pat != []
    decreases |s|
  {
    if |s| < |pat| then s
    else if s[..|pat|] == pat then rep + ReplaceAll(s[|pat|..], pat, rep)
    else [s[0]] + ReplaceAll(s[1..], pat, rep)
  }

  /** Concatenation regrouped, outside the context of a larger proof. */
  lemma AppendAssoc<T>(a: seq<T>, b: seq<T>, c: seq<T>)
    ensures (a + b) + c == a + (b + c)
  {
  }

  /** A non-empty sequence is its head followed by its tail. */
  lemma HeadTail<T>(x: seq<T>)
    requires x != []
    ensures [x[0]] + x[1..] == x
  {
  }

  /** Putting the head back in front of the tail and a suffix. */
  lemma ConsAppend<T>(x: seq<T>, c: seq<T>)
    requires x != []
    ensures [x[0]] + (x[1..] + c) == x + c
  {
    assert x == [x[0]] + x[1..];
  }

  lemma OccursAtFirst(s: String, pat: String, i: nat)
    requires pat != []
    ensures OccursAt(s, pat, i) ==> i < |s| && s[i] in pat
  {
    if OccursAt(s, pat, i) {
      assert s[i..i + |pat|][0] == s[i] == pat[0];
    }
  }

  lemma NotOccursAtDrop(s: String, t: String, pat: String, k: nat, i: nat)
    requires k <= i && k <= |s| && s[k..] == t && !OccursAt(t, pat, i - k)
    ensures !OccursAt(s, pat, i)
  {
    OccursAtDrop(s, pat, k, i - k);
  }

  lemma OccursAtShift(s: String, pat: String, i: nat)
    requires 1 <= |s|
    ensures OccursAt(s[1..], pat, i) <==> OccursAt(s, pat, i + 1)
  {
    if i + 1 + |pat| <= |s| {
      assert s[1..][i..i + |pat|] == s[i + 1..i + 1 + |pat|];
    }
  }

  lemma OccursAtDrop(s: String, pat: String, k: nat, i: nat)
    requires k <= |s|
    ensures OccursAt(s[k..], pat, i) <==> OccursAt(s, pat, i + k)
  {
    if i + k + |pat| <= |s| {
      assert s[k..][i..i + |pat|] == s[i + k..i + k + |pat|];
    }
  }

  /** A text in which the pattern does not occur is left as it is. */
  lemma {:induction false} ReplaceAllAbsent(s: String, pat: String, rep: String)
    requires pat != []
    requires !Occurs(s, pat)
    ensures ReplaceAll(s, pat, rep) == s
    decreases |s|
  {
    if |s| < |pat| {
    } else if s[..|pat|] == pat {
      assert OccursAt(s, pat, 0);
    } else {
      forall i: nat ensures !OccursAt(s[1..], pat, i) {
        OccursAtShift(s, pat, i);
      }
      ReplaceAllAbsent(s[1..], pat, rep);
    }
  }

  /** Replacement leaves the text before the first occurrence alone: a prefix
      of the result holding no character of `rep` is a prefix of the input. */
  lemma {:induction false} ReplaceAllPrefix(s: String, pat: String, rep: String, w: String)
    requires pat != [] && rep != []
    requires w <= ReplaceAll(s, pat, rep)
    requires forall i :: 0 <= i < |w| ==> w[i] !in rep
    ensures w <= s
    decreases |s|
  {
    if |s| < |pat| {
    } else if s[..|pat|] == pat {
      assert rep[0] in rep && ReplaceAll(s, pat, rep)[0] == rep[0];
    } else if w != [] {
      ReplaceAllPrefix(s[1..], pat, rep, w[1..]);
    }
  }

  /** When the replacement text shares no character with the pattern, no
      occurrence of the pattern is left after the replacement. */
  lemma {:induction false} ReplaceAllRemoves(s: String, pat: String, rep: String)
    requires pat != [] && rep != []
    requires forall i :: 0 <= i < |rep| ==> rep[i] !in pat
    ensures !Occurs(ReplaceAll(s, pat, rep), pat)
    decreases |s|
  {
    if |s| < |pat| {
    } else if s[..|pat|] == pat {
      ReplaceAllRemoves(s[|pat|..], pat, rep);
      AbsentAfterHit(s, pat, rep, pat);
    } else {
      ReplaceAllRemoves(s[1..], pat, rep);
      AbsentAfterMiss(s, pat, rep, pat);
    }
  }

  /** After a replaced occurrence: `q` does not straddle the replacement text
      when none of its characters is in it. */
  lemma AbsentAfterHit(s: String, pat: String, rep: String, q: String)
    requires pat != [] && rep != [] && q != [] && |pat| <= |s| && s[..|pat|] == pat
    requires forall i :: 0 <= i < |rep| ==> rep[i] !in q
    requires !Occurs(ReplaceAll(s[|pat|..], pat, rep), q)
    ensures !Occurs(ReplaceAll(s, pat, rep), q)
  {
    var t := ReplaceAll(s[|pat|..], pat, rep);
    var r := ReplaceAll(s, pat, rep);
    assert r == rep + t;
    assert r[|rep|..] == t;
    forall i: nat ensures !OccursAt(r, q, i) {
      if i < |rep| {
        OccursAtFirst(r, q, i);
        assert r[i] == rep[i];
      } else {
        assert !OccursAt(t, q, i - |rep|);
        NotOccursAtDrop(r, t, q, |rep|, i);
      }
    }
  }

  /** After a copied character: an occurrence of `q` at the start of the
      result would be one in the input, since no character of `rep` is in
      `q`. */
  lemma AbsentAfterMiss(s: String, pat: String, rep: String, q: String)
    requires pat != [] && rep != [] && q != [] && |pat| <= |s| && s[..|pat|] != pat
    requires forall i :: 0 <= i < |rep| ==> rep[i] !in q
    requires !OccursAt(s, q, 0)
    requires !Occurs(ReplaceAll(s[1..], pat, rep), q)
    ensures !Occurs(ReplaceAll(s, pat, rep), q)
  {
    var t := ReplaceAll(s[1..], pat, rep);
    var r := ReplaceAll(s, pat, rep);
    assert r == [s[0]] + t;
    assert r[1..] == t;
    forall i: nat ensures !OccursAt(r, q, i) {
      if i == 0 {
        OccursAtCopiedHead(s, pat, rep, q);
      } else {
        assert !OccursAt(t, q, i - 1);
        NotOccursAtDrop(r, t, q, 1, i);
      }
    }
  }

  /** When the text does not start with the pattern, an occurrence of `q`
      at the start of the result, none of whose characters is in `rep`, is
      one at the start of the text. */
  lemma OccursAtCopiedHead(s: String, pat: String, rep: String, q: String)
    requires pat != [] && rep != [] && q != [] && |pat| <= |s| && s[..|pat|] != pat
    requires forall i :: 0 <= i < |rep| ==> rep[i] !in q
    ensures OccursAt(ReplaceAll(s, pat, rep), q, 0) ==> OccursAt(s, q, 0)
  {
    var t := ReplaceAll(s[1..], pat, rep);
    assert ReplaceAll(s, pat, rep) == [s[0]] + t;
    OccursAtCons(s[0], t, q);
    if q[0] == s[0] && q[1..] <= t {
      var w := q[1..];
      forall k | 0 <= k < |w| ensures w[k] !in rep {
        assert w[k] == q[k + 1];
      }
      ReplaceAllPrefix(s[1..], pat, rep, w);
      OccursAtCons(s[0], s[1..], q);
      assert s == [s[0]] + s[1..];
    }
  }

  /** `q` starts `[c] + t` exactly when it is `c` followed by a prefix of
      `t`. */
  lemma OccursAtCons(c: char, t: String, q: String)
    requires q != []
    ensures OccursAt([c] + t, q, 0) <==> q[0] == c && q[1..] <= t
  {
    var x := [c] + t;
    if OccursAt(x, q, 0) {
      assert x[..|q|][1..] == t[..|q| - 1];
    }
    if q[0] == c && q[1..] <= t {
      assert x[..|q|] == [c] + t[..|q| - 1];
    }
  }

  /** Replacement creates no occurrence of a text `q` that shares no character
      with the (non-empty) replacement text. */
  lemma {:induction false} ReplaceAllKeepsAbsent(s: String, pat: String, rep: String, q: String)
    requires pat != [] && rep != []
    requires !Occurs(s, q)
    requires forall i :: 0 <= i < |rep| ==> rep[i] !in q
    ensures !Occurs(ReplaceAll(s, pat, rep), q)
    decreases |s|
  {
    assert !OccursAt(s, q, 0);
    assert q != [] by { assert !OccursAt(s, q, 0); }
    if |s| < |pat| {
    } else if s[..|pat|] == pat {
      forall i: nat ensures !OccursAt(s[|pat|..], q, i) {
        OccursAtDrop(s, q, |pat|, i);
      }
      ReplaceAllKeepsAbsent(s[|pat|..], pat, rep, q);
      AbsentAfterHit(s, pat, rep, q);
    } else {
      forall i: nat ensures !OccursAt(s[1..], q, i) {
        OccursAtShift(s, q, i);
      }
      ReplaceAllKeepsAbsent(s[1..], pat, rep, q);
      AbsentAfterMiss(s, pat, rep, q);
    }
  }

  /** `w` cannot occur in `s`: it is longer, or one of its first two
      characters is not in `s`. */
  predicate Foreign(s: String, w: String) {
    |w| > |s| || (w != [] && w[0] !in s) || (|w| >= 2 && w[1] !in s)
  }

  lemma ForeignAbsent(s: String, w: String, j: nat)
    requires Foreign(s, w)
    ensures !OccursAt(s, w, j)
  {
    if j + |w| <= |s| && w != [] {
      assert s[j..j + |w|][0] == s[j] && s[j] in s;
      if |w| >= 2 {
        assert s[j..j + |w|][1] == s[j + 1] && s[j + 1] in s;
      }
    }
  }

  lemma ForeignNotOccurs(s: String, w: String)
    requires Foreign(s, w)
    ensures !Occurs(s, w)
  {
    forall j: nat ensures !OccursAt(s, w, j) {
      ForeignAbsent(s, w, j);
    }
  }

  // ---------------------------------------------------------------------
  // Tables of literal replacements, applied entry after entry

  /** Every key of the table is non-empty, so each entry's replacement is defined. */
  predicate ValidTable(t: seq<(String, String)>) {
    forall p :: p in t ==> p.0 != []
  }

  /** The text after applying table `t` in order, each entry to the output of
      the previous one. */
  function ApplyTable(t: seq<(String, String)>, s: String): String
    requires ValidTable(t)
    decreases |t|
  {
    if t == [] then s
    else
      assert t[0] in t;
      ApplyTable(t[1..], ReplaceAll(s, t[0].0, t[0].1))
  }

  /** Applying two tables one after the other is applying their concatenation. */
  lemma {:induction false} ApplyTableAppend(t1: seq<(String, String)>, t2: seq<(String, String)>, s: String)
    requires ValidTable(t1) && ValidTable(t2)
    ensures ValidTable(t1 + t2)
    ensures ApplyTable(t1 + t2, s) == ApplyTable(t2, ApplyTable(t1, s))
    decreases |t1|
  {
    if t1 == [] {
      assert t1 + t2 == t2;
    } else {
      assert (t1 + t2)[1..] == t1[1..] + t2;
      assert t1[0] in t1;
      ApplyTableAppend(t1[1..], t2, ReplaceAll(s, t1[0].0, t1[0].1));
    }
  }

  /** A text in which no key of the table occurs comes back unchanged. */
  lemma {:induction false} TableFixesText(t: seq<(String, String)>, s: String)
    requires ValidTable(t)
    requires forall p :: p in t ==> !Occurs(s, p.0)
    ensures ApplyTable(t, s) == s
    decreases |t|
  {
    if t != [] {
      assert t[0] in t;
      ReplaceAllAbsent(s, t[0].0, t[0].1);
      TableFixesText(t[1..], s);
    }
  }

  /** The empty text comes back empty. */
  lemma {:induction false} EmptyStaysEmpty(t: seq<(String, String)>)
    requires ValidTable(t)
    ensures ApplyTable(t, []) == []
    decreases |t|
  {
    if t != [] {
      assert t[0] in t;
      EmptyStaysEmpty(t[1..]);
    }
  }

  lemma ValidPrefix(t: seq<(String, String)>, k: nat)
    requires ValidTable(t) && k <= |t|
    ensures ValidTable(t[..k])
  {
    forall p | p in t[..k] ensures p in t {
      var i :| 0 <= i < k && t[..k][i] == p;
      assert t[i] == p;
    }
  }

  /** An occurrence of a text is an occurrence of each of its prefixes. */
  lemma OccursPrefix(s: String, pat: String, k: nat)
    requires k <= |pat|
    requires Occurs(s, pat)
    ensures Occurs(s, pat[..k])
  {
    var i: nat :| i <= |s| && OccursAt(s, pat, i);
    assert s[i..i + k] == s[i..i + |pat|][..k];
    assert OccursAt(s, pat[..k], i);
  }

  /** Every character of `s` satisfies `p`. */
  predicate All(s: String, p: char -> bool) {
    forall i :: 0 <= i < |s| ==> p(s[i])
  }

  /** `s.lstrip(chars)` for the class `drop`. */
  function TrimLeft(s: String, drop: char -> bool): (r: String)
    ensures |r| <= |s| && r == s[|s| - |r|..]
    ensures All(s[..|s| - |r|], drop)
    ensures r == [] || !drop(r[0])
    decreases |s|
  {
    if s != [] && drop(s[0]) then TrimLeft(s[1..], drop) else s
  }

  /** A whitespace run in front of a text that does not start with whitespace
      is what `TrimLeft` removes. */
  lemma {:induction false} TrimSpaces(sp: String, x: String)
    requires All(sp, IsSpace) && (x == [] || !IsSpace(x[0]))
    ensures TrimLeft(sp + x, IsSpace) == x
    decreases |sp|
  {
    if sp == [] {
      assert sp + x == x;
    } else {
      assert (sp + x)[0] == sp[0];
      assert (sp + x)[1..] == sp[1..] + x;
      TrimSpaces(sp[1..], x);
    }
  }

  /** `s.rstrip(chars)` for the class `drop`. */
  function TrimRight(s: String, drop: char -> bool): (r: String)
    ensures |r| <= |s| && r == s[..|r|]
    ensures All(s[|r|..], drop)
    ensures r == [] || !drop(r[|r| - 1])
    decreases |s|
  {
    if s != [] && drop(s[|s| - 1]) then TrimRight(s[..|s| - 1], drop) else s
  }

  /** `s.strip(chars)` for the class `drop`. */
  function Trim(s: String, drop: char -> bool): (r: String)
  {
    TrimRight(TrimLeft(s, drop), drop)
  }

  /** `s.strip()` */
  function Strip(s: String): String {
    Trim(s, IsSpace)
  }

  /** The characters of `s` that are not whitespace, in order. */
  function NonSpace(s: String): String {
    if s == [] then []
    else if IsSpace(s[0]) then NonSpace(s[1..])
    else [s[0]] + NonSpace(s[1..])
  }

  /** Whitespace normalised: every whitespace character is a plain space and no
      two spaces are adjacent. */
  predicate SingleSpaced(s: String) {
    forall i :: 0 <= i < |s| && IsSpace(s[i]) ==> s[i] == ' ' && (i + 1 == |s| || !IsSpace(s[i + 1]))
  }

  /** `re.sub(r'\s+', ' ', s)`: every maximal whitespace run becomes one space. */
  function CollapseSpaces(s: String): String
    decreases |s|
  {
    if s == [] then []
    else if IsSpace(s[0]) then [' '] + CollapseSpaces(TrimLeft(s, IsSpace))
    else [s[0]] + CollapseSpaces(s[1..])
  }

  /** Collapsing keeps the characters that are not whitespace, in order. */
  lemma {:induction false} CollapseKeepsText(s: String)
    ensures NonSpace(CollapseSpaces(s)) == NonSpace(s)
    decreases |s|
  {
    if s == [] {
    } else if IsSpace(s[0]) {
      CollapseKeepsText(TrimLeft(s, IsSpace));
      SpaceRunText(s);
    } else {
      CollapseKeepsText(s[1..]);
      assert s == [s[0]] + s[1..];
      NonSpaceAppend([s[0]], s[1..]);
      NonSpaceAppend([s[0]], CollapseSpaces(s[1..]));
    }
  }

  lemma SpaceRunText(s: String)
    requires s != [] && IsSpace(s[0])
    ensures NonSpace(s) == NonSpace(TrimLeft(s, IsSpace))
    ensures NonSpace(CollapseSpaces(s)) == NonSpace(CollapseSpaces(TrimLeft(s, IsSpace)))
  {
    SpaceRunDropped(s);
    var rest := TrimLeft(s, IsSpace);
    CollapseAtSpace(s);
    NonSpaceAppend([' '], CollapseSpaces(rest));
  }

  /** One step of `CollapseSpaces` at a whitespace character. */
  lemma CollapseAtSpace(s: String)
    requires s != [] && IsSpace(s[0])
    ensures CollapseSpaces(s) == [' '] + CollapseSpaces(TrimLeft(s, IsSpace))
  {
  }

  /** One step of `CollapseSpaces` at any other character. */
  lemma CollapseAtPlain(s: String)
    requires s != [] && !IsSpace(s[0])
    ensures CollapseSpaces(s) == [s[0]] + CollapseSpaces(s[1..])
  {
  }

  lemma SpaceRunDropped(s: String)
    ensures NonSpace(s) == NonSpace(TrimLeft(s, IsSpace))
  {
    var rest := TrimLeft(s, IsSpace);
    var k := |s| - |rest|;
    var lead := s[..k];
    NonSpaceOfSpaces(lead);
    assert rest == s[k..];
    assert s[..k] + s[k..] == s;
    NonSpaceAppend(lead, rest);
  }

  /** The first character of the collapsed text is whitespace exactly when the
      first character of the input was, and is that character when it is not;
      only the empty text collapses to the empty text. */
  lemma {:induction false} CollapseHead(s: String)
    ensures var r := CollapseSpaces(s);
      && (r == [] <==> s == [])
      && (r != [] ==> (IsSpace(r[0]) <==> IsSpace(s[0])) && (!IsSpace(s[0]) ==> r[0] == s[0]))
  {
  }

  /** The last character of the collapsed text is whitespace exactly when the
      last character of the input was, and is that character when it is not. */
  lemma {:induction false} CollapseLast(s: String)
    requires s != []
    ensures var r := CollapseSpaces(s);
      r != [] && (IsSpace(r[|r| - 1]) <==> IsSpace(s[|s| - 1])) && (!IsSpace(s[|s| - 1]) ==> r[|r| - 1] == s[|s| - 1])
    decreases |s|
  {
    var r := CollapseSpaces(s);
    if IsSpace(s[0]) {
      var rest := TrimLeft(s, IsSpace);
      CollapseAtSpace(s);
      if rest == [] {
        assert All(s[..|s|], IsSpace);
        assert IsSpace(s[|s| - 1]);
        assert r == [' '];
      } else {
        CollapseLast(rest);
        assert rest[|rest| - 1] == s[|s| - 1];
      }
    } else {
      CollapseAtPlain(s);
      if |s| > 1 {
        CollapseLast(s[1..]);
        assert s[1..][|s| - 2] == s[|s| - 1];
      } else {
        assert s[1..] == [];
      }
    }
  }

  /** The collapsed text is single-spaced. */
  lemma {:induction false} CollapseSingleSpaced(s: String)
    ensures SingleSpaced(CollapseSpaces(s))
    decreases |s|
  {
    if s == [] {
    } else if IsSpace(s[0]) {
      var rest := TrimLeft(s, IsSpace);
      CollapseSingleSpaced(rest);
      CollapseHead(rest);
      SingleSpacedCons(' ', CollapseSpaces(rest));
    } else {
      CollapseSingleSpaced(s[1..]);
      SingleSpacedCons(s[0], CollapseSpaces(s[1..]));
    }
  }

  lemma SingleSpacedCons(c: char, t: String)
    requires SingleSpaced(t)
    requires IsSpace(c) ==> c == ' ' && (t == [] || !IsSpace(t[0]))
    ensures SingleSpaced([c] + t)
  {
    var u := [c] + t;
    forall i | 0 <= i < |u| && IsSpace(u[i])
      ensures u[i] == ' ' && (i + 1 == |u| || !IsSpace(u[i + 1]))
    {
      if i > 0 {
        assert u[i] == t[i - 1];
        if i + 1 < |u| {
          assert u[i + 1] == t[i];
        }
      }
    }
  }

  lemma {:induction false} NonSpaceAppend(a: String, b: String)
    ensures NonSpace(a + b) == NonSpace(a) + NonSpace(b)
    decreases |a|
  {
    if a != [] {
      assert (a + b)[0] == a[0];
      assert (a + b)[1..] == a[1..] + b;
      NonSpaceAppend(a[1..], b);
      if !IsSpace(a[0]) {
        calc {
          NonSpace(a + b);
          [a[0]] + NonSpace(a[1..] + b);
          [a[0]] + (NonSpace(a[1..]) + NonSpace(b));
          ([a[0]] + NonSpace(a[1..])) + NonSpace(b);
        }
      }
    } else {
      assert a + b == b;
    }
  }

  lemma {:induction false} NonSpaceOfSpaces(a: String)
    requires All(a, IsSpace)
    ensures NonSpace(a) == []
    decreases |a|
  {
    if a != [] {
      NonSpaceOfSpaces(a[1..]);
    }
  }

  /** A piece of a single-spaced text is single-spaced. */
  lemma SingleSpacedSlice(s: String, a: nat, b: nat)
    requires a <= b <= |s| && SingleSpaced(s)
    ensures SingleSpaced(s[a..b])
  {
    var t := s[a..b];
    forall i | 0 <= i < |t| && IsSpace(t[i])
      ensures t[i] == ' ' && (i + 1 == |t| || !IsSpace(t[i + 1]))
    {
      assert t[i] == s[a + i];
      if i + 1 < |t| {
        assert t[i + 1] == s[a + i + 1];
      }
    }
  }

  /** `s.strip(chars)` leaves no character of the class at either end, and
      is a piece of `s`. */
  lemma TrimEdges(s: String, drop: char -> bool)
    ensures var r := Trim(s, drop); r == [] || (!drop(r[0]) && !drop(r[|r| - 1]))
    ensures var r := Trim(s, drop); |r| <= |s| && r == s[|s| - |TrimLeft(s, drop)|..][..|r|]
  {
    TrimEnds(s, drop);
    TrimPiece(s, drop);
  }

  lemma TrimEnds(s: String, drop: char -> bool)
    ensures var r := Trim(s, drop); r == [] || (!drop(r[0]) && !drop(r[|r| - 1]))
  {
    var l := TrimLeft(s, drop);
    var r := TrimRight(l, drop);
    if r != [] {
      assert r[0] == l[0];
    }
  }

  lemma TrimPiece(s: String, drop: char -> bool)
    ensures var r := Trim(s, drop); |r| <= |s| && r == s[|s| - |TrimLeft(s, drop)|..][..|r|]
  {
    var l := TrimLeft(s, drop);
    var r := TrimRight(l, drop);
    assert l == s[|s| - |l|..];
    assert r == l[..|r|];
  }

  /** A single-spaced text is left alone by the collapsing. */
  lemma {:induction false} CollapseSingleFixed(s: String)
    requires SingleSpaced(s)
    ensures CollapseSpaces(s) == s
    decreases |s|
  {
    if s != [] {
      SingleSpacedSlice(s, 1, |s|);
      assert s[1..|s|] == s[1..];
      CollapseSingleFixed(s[1..]);
      if IsSpace(s[0]) {
        assert TrimLeft(s[1..], IsSpace) == s[1..];
      }
      HeadTail(s);
    }
  }

  /** A text without whitespace is left alone by the collapsing. */
  lemma {:induction false} CollapseNoSpace(s: String)
    requires forall i :: 0 <= i < |s| ==> !IsSpace(s[i])
    ensures CollapseSpaces(s) == s
  {
    if s != [] {
      CollapseNoSpace(s[1..]);
      assert s == [s[0]] + s[1..];
    }
  }

  /** `s.strip(chars)` is `s` when neither end is in the class. */
  lemma TrimKeeps(s: String, drop: char -> bool)
    requires s == [] || (!drop(s[0]) && !drop(s[|s| - 1]))
    ensures Trim(s, drop) == s
  {
  }

  lemma TrimSingleSpaced(s: String, drop: char -> bool)
    requires SingleSpaced(s)
    ensures SingleSpaced(Trim(s, drop))
  {
    var l := TrimLeft(s, drop);
    SingleSpacedSlice(s, |s| - |l|, |s|);
    assert s[|s| - |l|..|s|] == l;
    var r := TrimRight(l, drop);
    SingleSpacedSlice(l, 0, |r|);
    assert l[0..|r|] == r;
  }

  /** Collapsing then stripping: single spaces only, and neither end is in
      the stripped class. */
  lemma TrimCollapseShape(x: String, drop: char -> bool)
    ensures SingleSpaced(Trim(CollapseSpaces(x), drop))
    ensures var r := Trim(CollapseSpaces(x), drop); r == [] || (!drop(r[0]) && !drop(r[|r| - 1]))
  {
    var c := CollapseSpaces(x);
    CollapseSingleSpaced(x);
    TrimSingleSpaced(c, drop);
    TrimEnds(c, drop);
  }

  /** A text without whitespace whose ends are not in the class comes out
      of collapsing and stripping unchanged. */
  lemma TrimCollapseKeeps(s: String, drop: char -> bool)
    requires forall i :: 0 <= i < |s| ==> !IsSpace(s[i])
    requires s == [] || (!drop(s[0]) && !drop(s[|s| - 1]))
    ensures Trim(CollapseSpaces(s), drop) == s
  {
    CollapseNoSpace(s);
    TrimKeeps(s, drop);
  }

  /** `sep.join(xs)` */
  function Join(xs: seq<String>, sep: String): String {
    if xs == [] then []
    else if |xs| == 1 then xs[0]
    else xs[0] + sep + Join(xs[1..], sep)
  }

  /** An occurrence in `b` is an occurrence in `a + b`, shifted by `|a|`. */
  lemma OccursAtAppend(a: String, b: String, pat: String, j: nat)
    requires OccursAt(b, pat, j)
    ensures OccursAt(a + b, pat, |a| + j)
  {
    assert (a + b)[|a| + j..|a| + j + |pat|] == b[j..j + |pat|];
  }

  /** Every piece of a joined list occurs in the joined text. */
  lemma {:induction false} JoinHas(xs: seq<String>, sep: String, i: nat)
    requires i < |xs|
    ensures Occurs(Join(xs, sep), xs[i])
    decreases |xs|
  {
    if |xs| == 1 {
      assert OccursAt(Join(xs, sep), xs[i], 0);
    } else if i == 0 {
      var rest := sep + Join(xs[1..], sep);
      AppendAssoc(xs[0], sep, Join(xs[1..], sep));
      assert (xs[0] + rest)[..|xs[0]|] == xs[0];
      assert OccursAt(Join(xs, sep), xs[i], 0);
    } else {
      JoinHas(xs[1..], sep, i - 1);
      var j: nat :| j <= |Join(xs[1..], sep)| && OccursAt(Join(xs[1..], sep), xs[i], j);
      OccursAtAppend(xs[0] + sep, Join(xs[1..], sep), xs[i], j);
    }
  }
}
