/** Punctuation cleanup (`clean_punctuation`): mixed full-width and half-width
    pairs are unified, a mark followed by optional whitespace and repeats of a
    mark is reduced to one mark, leading marks and whitespace and trailing
    commas and whitespace are dropped, and whitespace is collapsed. */
module Punctuation {
  import opened Text

  /** The literal pairs of step 1, applied in order with `str.replace`. */
  function Unify(t: String): String {
    var a := ReplaceAll(ReplaceAll(t, "，,", "，"), ",，", "，");
    ReplaceAll(ReplaceAll(a, "。.", "。"), ".。", "。")
  }

  /** `s` without its leading run of `n`. */
  function DropRun(s: String, n: char): (r: String)
    ensures |r| <= |s| && r == s[|s| - |r|..]
    ensures forall i :: 0 <= i < |s| - |r| ==> s[i] == n
    ensures r == [] || r[0] != n
    decreases |s|
  {
    if s != [] && s[0] == n then DropRun(s[1..], n) else s
  }

  /** One duplicate rule: `re.sub(m\s*n+, rep)` when `many`, and
      `re.sub(m\s*n, rep)` when not. The marks are not whitespace, so `\s*`
      needs no backtracking: the pattern matches at a mark `m` exactly when
      the first character after its whitespace run is `n`. */
  datatype Rule = Rule(m: char, n: char, many: bool, rep: char)

  /** The rule applied left to right, resuming after each match. */
  function Collapse(t: String, r: Rule): (o: String)
    ensures |o| <= |t|
    decreases |t|
  {
    if t == [] then []
    else if t[0] == r.m then
      var rest := TrimLeft(t[1..], IsSpace);
      if rest != [] && rest[0] == r.n then
        [r.rep] + Collapse(if r.many then DropRun(rest, r.n) else rest[1..], r)
      else [t[0]] + Collapse(t[1..], r)
    else [t[0]] + Collapse(t[1..], r)
  }

  /** Steps 2 to 4, in the order the source applies them. */
  const Rules: seq<Rule> := [
    Rule('，', '，', true, '，'),
    Rule(',', ',', true, ','),
    Rule('，', ',', false, '，'),
    Rule(',', '，', false, '，'),
    Rule('。', '。', true, '。'),
    Rule('.', '.', true, '.'),
    Rule('？', '？', true, '？'),
    Rule('!', '!', true, '!'),
    Rule('！', '！', true, '！')
  ]

  /** The rules applied one after another, each to the output of the last. */
  function CollapseAll(rules: seq<Rule>, t: String): String
    decreases |rules|
  {
    if rules == [] then t else CollapseAll(rules[1..], Collapse(t, rules[0]))
  }

  /** The class stripped from the start: `[，。！？、；：,.!?;:\s]`. */
  predicate IsLeadMark(c: char) {
    || c == '，' || c == '。' || c == '！' || c == '？' || c == '、' || c == '；' || c == '：'
    || c == ',' || c == '.' || c == '!' || c == '?' || c == ';' || c == ':'
    || IsSpace(c)
  }

  /** The class stripped from the end: `[，,\s]`. */
  predicate IsTailMark(c: char) {
    c == '，' || c == ',' || IsSpace(c)
  }

  /** Whitespace is in both classes, and the tail class is part of the lead
      class. */
  lemma ClassesNested(c: char)
    ensures IsSpace(c) ==> IsTailMark(c)
    ensures IsTailMark(c) ==> IsLeadMark(c)
  {
  }

  /** `clean_punctuation`, stage after stage. The anchored patterns of steps 5
      and 6 remove the longest run of their class at the start and at the end. */
  function Clean(text: String): String {
    if text == [] then text
    else
      var t := CollapseAll(Rules, Unify(text));
      var t := TrimRight(TrimLeft(t, IsLeadMark), IsTailMark);
      Strip(CollapseSpaces(t))
  }

  // ---------------------------------------------------------------------
  // What the stage keeps

  /** The characters of `s` outside the lead class, in order: what is left
      of a text once its punctuation marks and whitespace are taken out. */
  function Kept(s: String): String {
    if s == [] then []
    else if IsLeadMark(s[0]) then Kept(s[1..])
    else [s[0]] + Kept(s[1..])
  }

  lemma SpacesAreLead()
    ensures forall c :: IsSpace(c) ==> IsLeadMark(c)
  {
  }

  lemma TailIsLead()
    ensures forall c :: IsTailMark(c) ==> IsLeadMark(c)
  {
  }

  lemma KeptMark(c: char, x: String)
    requires IsLeadMark(c)
    ensures Kept([c] + x) == Kept(x)
  {
    assert ([c] + x)[1..] == x;
  }

  lemma KeptCons(c: char, x: String, y: String)
    requires Kept(x) == Kept(y)
    ensures Kept([c] + x) == Kept([c] + y)
  {
    assert ([c] + x)[1..] == x;
    assert ([c] + y)[1..] == y;
  }

  lemma {:induction false} KeptAppend(a: String, b: String)
    ensures Kept(a + b) == Kept(a) + Kept(b)
    decreases |a|
  {
    if a == [] {
      assert a + b == b;
    } else {
      assert (a + b)[0] == a[0];
      assert (a + b)[1..] == a[1..] + b;
      KeptAppend(a[1..], b);
      if !IsLeadMark(a[0]) {
        AppendAssoc([a[0]], Kept(a[1..]), Kept(b));
      }
    }
  }

  lemma {:induction false} KeptOfMarks(a: String)
    requires All(a, IsLeadMark)
    ensures Kept(a) == []
    decreases |a|
  {
    if a != [] {
      KeptOfMarks(a[1..]);
    }
  }

  /** Trimming a class of lead marks from either end keeps `Kept`. */
  lemma {:induction false} KeptTrimLeft(s: String, drop: char -> bool)
    requires forall c :: drop(c) ==> IsLeadMark(c)
    ensures Kept(TrimLeft(s, drop)) == Kept(s)
    decreases |s|
  {
    if s != [] && drop(s[0]) {
      KeptTrimLeft(s[1..], drop);
    }
  }

  lemma KeptTrimRight(s: String, drop: char -> bool)
    requires forall c :: drop(c) ==> IsLeadMark(c)
    ensures Kept(TrimRight(s, drop)) == Kept(s)
  {
    var r := TrimRight(s, drop);
    var tail := s[|r|..];
    assert s == r + tail;
    KeptAppend(r, tail);
    KeptOfMarks(tail);
  }

  /** Collapsing whitespace keeps `Kept`. */
  lemma {:induction false} KeptCollapseSpaces(s: String)
    ensures Kept(CollapseSpaces(s)) == Kept(s)
    decreases |s|
  {
    if s != [] {
      SpacesAreLead();
      if IsSpace(s[0]) {
        var rest := TrimLeft(s, IsSpace);
        KeptCollapseSpaces(rest);
        KeptMark(' ', CollapseSpaces(rest));
        KeptTrimLeft(s, IsSpace);
      } else {
        KeptCollapseSpaces(s[1..]);
        KeptCons(s[0], CollapseSpaces(s[1..]), s[1..]);
        HeadTail(s);
      }
    }
  }

  /** Replacing a literal made of marks by another keeps `Kept`. */
  lemma {:induction false} KeptReplace(s: String, pat: String, rep: String)
    requires pat != [] && Kept(pat) == [] && Kept(rep) == []
    ensures Kept(ReplaceAll(s, pat, rep)) == Kept(s)
    decreases |s|
  {
    if |s| >= |pat| {
      if s[..|pat|] == pat {
        var rest := s[|pat|..];
        KeptReplace(rest, pat, rep);
        KeptAppend(rep, ReplaceAll(rest, pat, rep));
        assert s == pat + rest;
        KeptAppend(pat, rest);
      } else {
        KeptReplace(s[1..], pat, rep);
        KeptCons(s[0], ReplaceAll(s[1..], pat, rep), s[1..]);
        HeadTail(s);
      }
    }
  }

  // ---------------------------------------------------------------------
  // One rule

  /** A rule whose marks are all of the lead class. */
  predicate MarkRule(r: Rule) {
    IsLeadMark(r.m) && IsLeadMark(r.n) && IsLeadMark(r.rep)
  }

  /** A rule deletes only marks and whitespace: everything else is kept, in
      order. */
  lemma {:induction false} CollapseKeeps(t: String, r: Rule)
    requires MarkRule(r)
    ensures Kept(Collapse(t, r)) == Kept(t)
    decreases |t|
  {
    if t != [] {
      var rest := TrimLeft(t[1..], IsSpace);
      if t[0] == r.m && rest != [] && rest[0] == r.n {
        CollapseKeeps(if r.many then DropRun(rest, r.n) else rest[1..], r);
        KeepsHit(t, r);
      } else {
        CollapseKeeps(t[1..], r);
        assert Collapse(t, r) == [t[0]] + Collapse(t[1..], r);
        KeptCons(t[0], Collapse(t[1..], r), t[1..]);
        HeadTail(t);
      }
    }
  }

  lemma KeepsHit(t: String, r: Rule)
    requires MarkRule(r)
    requires t != [] && t[0] == r.m
    requires var rest := TrimLeft(t[1..], IsSpace); rest != [] && rest[0] == r.n
    requires var rest := TrimLeft(t[1..], IsSpace);
      var next := if r.many then DropRun(rest, r.n) else rest[1..];
      Kept(Collapse(next, r)) == Kept(next)
    ensures Kept(Collapse(t, r)) == Kept(t)
  {
    var rest := TrimLeft(t[1..], IsSpace);
    var next := if r.many then DropRun(rest, r.n) else rest[1..];
    assert Collapse(t, r) == [r.rep] + Collapse(next, r);
    KeptMark(r.rep, Collapse(next, r));
    KeptMark(t[0], t[1..]);
    HeadTail(t);
    SpacesAreLead();
    KeptTrimLeft(t[1..], IsSpace);
    if r.many {
      KeptRun(rest, r.n);
    } else {
      KeptMark(rest[0], rest[1..]);
      HeadTail(rest);
    }
  }

  lemma {:induction false} KeptRun(s: String, n: char)
    requires IsLeadMark(n)
    ensures Kept(DropRun(s, n)) == Kept(s)
    decreases |s|
  {
    if s != [] && s[0] == n {
      KeptRun(s[1..], n);
    }
  }

  /** A text without the rule's first mark, or without its second, is left
      alone. */
  lemma {:induction false} CollapseFixes(t: String, r: Rule)
    requires r.m !in t || r.n !in t
    ensures Collapse(t, r) == t
    decreases |t|
  {
    if t != [] {
      assert r.m !in t[1..] || r.n !in t[1..];
      if t[0] == r.m {
        var rest := TrimLeft(t[1..], IsSpace);
        if rest != [] {
          assert rest[0] in t;
        }
      }
      CollapseFixes(t[1..], r);
      HeadTail(t);
    }
  }

  /** A repeating rule reduces a mark, whitespace and a run of the repeated
      mark to one mark, and goes on after the run. */
  lemma CollapseRun(r: Rule, sp: String, run: String, b: String)
    requires r.many && All(sp, IsSpace) && run != [] && (b == [] || b[0] != r.n)
    requires forall i :: 0 <= i < |run| ==> run[i] == r.n
    requires !IsSpace(r.n)
    ensures Collapse([r.m] + sp + run + b, r) == [r.rep] + Collapse(b, r)
  {
    var x := run + b;
    var t := [r.m] + sp + run + b;
    AppendAssoc([r.m] + sp, run, b);
    AppendAssoc([r.m], sp, x);
    assert x[0] == r.n by {
      assert x[0] == run[0];
    }
    TrimSpaces(sp, x);
    DropWholeRun(run, b, r.n);
    CollapseAtMark(t, sp + x, x, r);
  }

  /** The rule at a mark whose whitespace run is followed by the other mark. */
  lemma CollapseAtMark(t: String, tail: String, x: String, r: Rule)
    requires t == [r.m] + tail && TrimLeft(tail, IsSpace) == x && x != [] && x[0] == r.n
    ensures Collapse(t, r) == [r.rep] + Collapse(if r.many then DropRun(x, r.n) else x[1..], r)
  {
    assert t[1..] == tail;
  }

  /** A single rule reduces a mark, whitespace and the other mark to one mark. */
  lemma CollapseOnce(r: Rule, sp: String, b: String)
    requires !r.many && All(sp, IsSpace) && !IsSpace(r.n)
    ensures Collapse([r.m] + sp + [r.n] + b, r) == [r.rep] + Collapse(b, r)
  {
    var t := [r.m] + sp + [r.n] + b;
    assert t[1..] == sp + ([r.n] + b);
    TrimSpaces(sp, [r.n] + b);
    assert ([r.n] + b)[1..] == b;
  }

  lemma {:induction false} DropWholeRun(run: String, b: String, n: char)
    requires forall i :: 0 <= i < |run| ==> run[i] == n
    requires b == [] || b[0] != n
    ensures DropRun(run + b, n) == b
    decreases |run|
  {
    if run == [] {
      assert run + b == b;
    } else {
      assert (run + b)[0] == n;
      assert (run + b)[1..] == run[1..] + b;
      DropWholeRun(run[1..], b, n);
    }
  }

  // ---------------------------------------------------------------------
  // The whole stage

  /** The cleaned text starts with none of the leading marks and no
      whitespace, ends with no comma and no whitespace, and has only single
      plain spaces. */
  lemma CleanShape(text: String)
    ensures var r := Clean(text);
      && (r == [] || (!IsLeadMark(r[0]) && !IsTailMark(r[|r| - 1])))
      && SingleSpaced(r)
  {
    if text != [] {
      CleanTail(TrimLeft(CollapseAll(Rules, Unify(text)), IsLeadMark));
    }
  }

  /** Steps 6 and 7 on a text that steps 5 left without a leading mark. */
  lemma CleanTail(t5: String)
    requires t5 == [] || !IsLeadMark(t5[0])
    ensures var r := Strip(CollapseSpaces(TrimRight(t5, IsTailMark)));
      && (r == [] || (!IsLeadMark(r[0]) && !IsTailMark(r[|r| - 1])))
      && SingleSpaced(r)
  {
    var t6 := TrimRight(t5, IsTailMark);
    CollapseSingleSpaced(t6);
    if t6 != [] {
      TailKeepsHead(t5);
      ClassesNested(t6[0]);
      ClassesNested(t6[|t6| - 1]);
      CollapsedEnds(t6);
    }
  }

  /** Collapsing a text whose ends are not whitespace keeps both ends, and
      stripping the result changes nothing. */
  lemma CollapsedEnds(t: String)
    requires t != [] && !IsSpace(t[0]) && !IsSpace(t[|t| - 1])
    ensures var c := CollapseSpaces(t);
      && Strip(c) == c && c != [] && c[0] == t[0] && c[|c| - 1] == t[|t| - 1]
  {
    CollapseHead(t);
    CollapseLast(t);
    TrimKeeps(CollapseSpaces(t), IsSpace);
  }

  /** Stripping the tail class keeps the head of a text whose head is a
      character of neither class. */
  lemma TailKeepsHead(s: String)
    requires s != [] && !IsLeadMark(s[0])
    ensures var r := TrimRight(s, IsTailMark); r != [] && r[0] == s[0]
  {
    ClassesNested(s[0]);
  }

  /** Every rule's marks are of the lead class, `rep` is one of the rule's
      own marks, and the repeated mark is not whitespace. */
  lemma RulesAreMarks()
    ensures forall i :: 0 <= i < |Rules| ==> MarkRule(Rules[i])
    ensures forall i :: 0 <= i < |Rules| ==> Rules[i].rep == Rules[i].m || Rules[i].rep == Rules[i].n
    ensures forall i :: 0 <= i < |Rules| ==> !IsSpace(Rules[i].n) && Rules[i].m != '?'
  {
  }

  lemma {:induction false} CollapseAllKeeps(rules: seq<Rule>, t: String)
    requires forall i :: 0 <= i < |rules| ==> MarkRule(rules[i])
    ensures Kept(CollapseAll(rules, t)) == Kept(t)
    decreases |rules|
  {
    if rules != [] {
      CollapseKeeps(t, rules[0]);
      assert forall i :: 0 <= i < |rules[1..]| ==> rules[1..][i] == rules[i + 1];
      CollapseAllKeeps(rules[1..], Collapse(t, rules[0]));
    }
  }

  lemma UnifyKeeps(t: String)
    ensures Kept(Unify(t)) == Kept(t)
  {
    assert Kept("，,") == [] && Kept(",，") == [] && Kept("，") == [];
    assert Kept("。.") == [] && Kept(".。") == [] && Kept("。") == [];
    var a := ReplaceAll(t, "，,", "，");
    var b := ReplaceAll(a, ",，", "，");
    var c := ReplaceAll(b, "。.", "。");
    KeptReplace(t, "，,", "，");
    KeptReplace(a, ",，", "，");
    KeptReplace(b, "。.", "。");
    KeptReplace(c, ".。", "。");
  }

  /** The stage deletes only punctuation marks of the lead class and
      whitespace: every other character of the text is kept, in order. */
  lemma CleanKeeps(text: String)
    ensures Kept(Clean(text)) == Kept(text)
  {
    if text != [] {
      var t4 := CollapseAll(Rules, Unify(text));
      var t5 := TrimLeft(t4, IsLeadMark);
      var t6 := TrimRight(t5, IsTailMark);
      var c := CollapseSpaces(t6);
      UnifyKeeps(text);
      RulesAreMarks();
      CollapseAllKeeps(Rules, Unify(text));
      KeptTrimLeft(t4, IsLeadMark);
      TailIsLead();
      KeptTrimRight(t5, IsTailMark);
      KeptCollapseSpaces(t6);
      SpacesAreLead();
      KeptTrimLeft(c, IsSpace);
      KeptTrimRight(TrimLeft(c, IsSpace), IsSpace);
    }
  }

  /** A run of one repeated mark becomes that mark alone. */
  lemma SameMarkRun(r: Rule, run: String)
    requires r.many && r.m == r.n == r.rep && !IsSpace(r.n)
    requires run != [] && forall i :: 0 <= i < |run| ==> run[i] == r.m
    ensures Collapse(run, r) == [r.m]
  {
    if |run| == 1 {
      assert run == [r.m];
      assert Collapse(run, r) == [r.m] + Collapse([], r);
    } else {
      assert run == [r.m] + [] + run[1..] + [];
      CollapseRun(r, [], run[1..], []);
    }
  }

  /** Every repeating rule of the stage turns a run of its mark into one
      mark. */
  lemma MarkRunsCollapse(i: nat, run: String)
    requires i < |Rules| && Rules[i].many
    requires run != [] && forall j :: 0 <= j < |run| ==> run[j] == Rules[i].m
    ensures Collapse(run, Rules[i]) == [Rules[i].m]
  {
    RulesAreMarks();
    SameMarkRun(Rules[i], run);
  }

  /** Rules each of which has a mark absent from the text leave it alone. */
  lemma {:induction false} CollapseAllFixes(rules: seq<Rule>, t: String)
    requires forall i :: 0 <= i < |rules| ==> rules[i].m !in t || rules[i].n !in t
    ensures CollapseAll(rules, t) == t
    decreases |rules|
  {
    if rules != [] {
      CollapseFixes(t, rules[0]);
      assert forall i :: 0 <= i < |rules[1..]| ==> rules[1..][i] == rules[i + 1];
      CollapseAllFixes(rules[1..], t);
    }
  }

  /** The half-width `?` has no rule: a text whose only marks are `?` passes
      steps 2 to 4 unchanged, runs of `?` included. */
  lemma HalfWidthQuestionKept(t: String)
    requires forall i :: 0 <= i < |t| ==> t[i] == '?' || !IsLeadMark(t[i])
    ensures CollapseAll(Rules, t) == t
  {
    RulesAreMarks();
    forall i | 0 <= i < |Rules| ensures Rules[i].m !in t {
      MarkAbsent(t, Rules[i].m);
    }
    CollapseAllFixes(Rules, t);
  }

  lemma MarkAbsent(t: String, c: char)
    requires IsLeadMark(c) && c != '?'
    requires forall i :: 0 <= i < |t| ==> t[i] == '?' || !IsLeadMark(t[i])
    ensures c !in t
  {
  }

  // ---------------------------------------------------------------------
  // The stage is not idempotent

  lemma CollapseCopy(c: char, x: String, r: Rule)
    requires c != r.m
    ensures Collapse([c] + x, r) == [c] + Collapse(x, r)
  {
    assert ([c] + x)[1..] == x;
  }

  lemma CollapseMiss(c: char, x: String, r: Rule)
    requires c == r.m
    requires var rest := TrimLeft(x, IsSpace); rest == [] || rest[0] != r.n
    ensures Collapse([c] + x, r) == [c] + Collapse(x, r)
  {
    assert ([c] + x)[1..] == x;
  }

  /** A text with no half-width comma or period is not changed by step 1. */
  lemma UnifyFixes(t: String)
    requires ',' !in t && '.' !in t
    ensures Unify(t) == t
  {
    ForeignNotOccurs(t, "，,");
    ReplaceAllAbsent(t, "，,", "，");
    ForeignNotOccurs(t, ",，");
    ReplaceAllAbsent(t, ",，", "，");
    ForeignNotOccurs(t, "。.");
    ReplaceAllAbsent(t, "。.", "。");
    ForeignNotOccurs(t, ".。");
    ReplaceAllAbsent(t, ".。", "。");
  }

  /** Only full-width commas as marks: the stage is the first rule, when its
      result is already trimmed and single-spaced. */
  lemma CleanCommasOnly(t: String, u: String)
    requires t != [] && NoOtherMarks(t) && NoOtherMarks(u)
    requires u == Collapse(t, Rules[0])
    requires u != [] && !IsLeadMark(u[0]) && !IsTailMark(u[|u| - 1]) && SingleSpaced(u)
    ensures Clean(t) == u
  {
    CommasOnlyRules(t, u);
    EdgesFixed(u);
  }

  lemma CommasOnlyRules(t: String, u: String)
    requires NoOtherMarks(t) && NoOtherMarks(u) && u == Collapse(t, Rules[0])
    ensures CollapseAll(Rules, Unify(t)) == u
  {
    OtherAbsent(t, ',');
    OtherAbsent(t, '.');
    UnifyFixes(t);
    assert CollapseAll(Rules, t) == CollapseAll(Rules[1..], u);
    LaterRulesMarks();
    forall i | 0 <= i < |Rules[1..]| ensures Rules[1..][i].m !in u || Rules[1..][i].n !in u {
      var r := Rules[i + 1];
      assert Rules[1..][i] == r;
      if OtherMark(r.m) {
        OtherAbsent(u, r.m);
      } else {
        OtherAbsent(u, r.n);
      }
    }
    CollapseAllFixes(Rules[1..], u);
  }

  /** Each rule after the first has a mark other than the full-width comma. */
  lemma LaterRulesMarks()
    ensures forall i :: 1 <= i < |Rules| ==> OtherMark(Rules[i].m) || OtherMark(Rules[i].n)
  {
  }

  lemma OtherAbsent(t: String, c: char)
    requires NoOtherMarks(t) && OtherMark(c)
    ensures c !in t
  {
  }

  /** Steps 5 to 7 leave a single-spaced text alone when neither end is a
      mark of its class. */
  lemma EdgesFixed(u: String)
    requires u != [] && !IsLeadMark(u[0]) && !IsTailMark(u[|u| - 1]) && SingleSpaced(u)
    ensures Strip(CollapseSpaces(TrimRight(TrimLeft(u, IsLeadMark), IsTailMark))) == u
  {
    assert TrimLeft(u, IsLeadMark) == u;
    assert TrimRight(u, IsTailMark) == u;
    CollapseSingleFixed(u);
    ClassesNested(u[0]);
    ClassesNested(u[|u| - 1]);
    TrimKeeps(u, IsSpace);
  }

  /** A mark of the rules other than the full-width comma. */
  predicate OtherMark(c: char) {
    c == ',' || c == '.' || c == '。' || c == '？' || c == '!' || c == '！'
  }

  predicate NoOtherMarks(t: String) {
    forall i :: 0 <= i < |t| ==> !OtherMark(t[i])
  }

  lemma NoOtherMarksCons(c: char, s: String)
    requires !OtherMark(c) && NoOtherMarks(s)
    ensures NoOtherMarks([c] + s)
  {
    forall i | 0 <= i < |[c] + s| ensures !OtherMark(([c] + s)[i]) {
      if i > 0 {
        assert ([c] + s)[i] == s[i - 1];
      }
    }
  }

  lemma LastCons(c: char, s: String)
    requires s != []
    ensures var t := [c] + s; t[|t| - 1] == s[|s| - 1]
  {
  }

  /** A character outside the lead class is neither a mark of the rules nor
      whitespace. */
  lemma PlainChar(x: char)
    requires !IsLeadMark(x)
    ensures x != '，' && !IsSpace(x) && !IsTailMark(x) && !OtherMark(x)
  {
  }

  lemma CommaChar()
    ensures !IsSpace('，') && !OtherMark('，') && !OtherMark(' ') && IsSpace(' ')
  {
  }

  /** The comma rule on `，y` for a plain `y`: no match. */
  lemma CommaThenPlain(y: char, r: Rule)
    requires r == Rules[0] && y != '，' && !IsSpace(y)
    ensures Collapse(['，'] + [y], r) == ['，'] + [y]
  {
    assert TrimLeft([y], IsSpace) == [y];
    CollapseMiss('，', [y], r);
    assert [y] == [y] + [];
    CollapseCopy(y, [], r);
  }

  /** The comma rule on ` ，y`. */
  lemma SpaceCommaPlain(y: char, r: Rule)
    requires r == Rules[0] && y != '，' && !IsSpace(y)
    ensures Collapse([' '] + (['，'] + [y]), r) == [' '] + (['，'] + [y])
  {
    CollapseCopy(' ', ['，'] + [y], r);
    CommaThenPlain(y, r);
  }

  /** The comma rule on `，， ，y`: the run `，，` is one match, and the space
      after it ends that match. */
  lemma CommaRunThenSpace(y: char, r: Rule)
    requires r == Rules[0] && y != '，' && !IsSpace(y)
    ensures var s := [' '] + (['，'] + [y]);
      Collapse(['，'] + (['，'] + s), r) == ['，'] + s
  {
    var s := [' '] + (['，'] + [y]);
    var tail := ['，'] + s;
    assert TrimLeft(tail, IsSpace) == tail by {
      CommaChar();
    }
    assert DropRun(tail, '，') == s by {
      assert tail[1..] == s;
    }
    CollapseAtMark(['，'] + tail, tail, tail, r);
    SpaceCommaPlain(y, r);
  }

  /** The comma rule on `， ，y`: one match across the space. */
  lemma CommaSpaceComma(y: char, r: Rule)
    requires r == Rules[0] && y != '，'
    ensures Collapse(['，'] + ([' '] + (['，'] + [y])), r) == ['，'] + [y]
  {
    var tail := [' '] + (['，'] + [y]);
    var x := ['，'] + [y];
    assert TrimLeft(tail, IsSpace) == x by {
      CommaChar();
      assert tail[1..] == x;
    }
    assert DropRun(x, '，') == [y] by {
      assert x[1..] == [y];
    }
    CollapseAtMark(['，'] + tail, tail, x, r);
    assert [y] == [y] + [];
    CollapseCopy(y, [], r);
  }

  /** The text `x，， ，y`, the text `x， ，y` and the text `x，y`. */
  function Twice(x: char, y: char): String {
    [x] + (['，'] + (['，'] + ([' '] + (['，'] + [y]))))
  }

  function Once(x: char, y: char): String {
    [x] + (['，'] + ([' '] + (['，'] + [y])))
  }

  function Single(x: char, y: char): String {
    [x] + (['，'] + [y])
  }

  lemma TextsPlain(x: char, y: char)
    requires !IsLeadMark(x) && !IsLeadMark(y)
    ensures NoOtherMarks(Twice(x, y)) && NoOtherMarks(Once(x, y)) && NoOtherMarks(Single(x, y))
    ensures SingleSpaced(Once(x, y)) && SingleSpaced(Single(x, y))
    ensures Once(x, y)[0] == x && Single(x, y)[0] == x
    ensures Once(x, y)[|Once(x, y)| - 1] == y && Single(x, y)[|Single(x, y)| - 1] == y
  {
    PlainChar(x);
    PlainChar(y);
    CommaChar();
    var y1 := [y];
    var c1 := ['，'] + y1;
    var s1 := [' '] + c1;
    var c2 := ['，'] + s1;
    var c3 := ['，'] + c2;
    NoOtherMarksCons(y, []);
    NoOtherMarksCons('，', y1);
    NoOtherMarksCons(' ', c1);
    NoOtherMarksCons('，', s1);
    NoOtherMarksCons('，', c2);
    NoOtherMarksCons(x, c3);
    NoOtherMarksCons(x, c2);
    NoOtherMarksCons(x, c1);
    SingleSpacedCons(y, []);
    SingleSpacedCons('，', y1);
    SingleSpacedCons(' ', c1);
    SingleSpacedCons('，', s1);
    SingleSpacedCons(x, c2);
    SingleSpacedCons(x, c1);
    LastCons('，', y1);
    LastCons(' ', c1);
    LastCons('，', s1);
    LastCons(x, c2);
    LastCons(x, c1);
  }

  /** `x，， ，y` cleans to `x， ，y`. */
  lemma FirstClean(x: char, y: char)
    requires !IsLeadMark(x) && !IsLeadMark(y)
    ensures Clean(Twice(x, y)) == Once(x, y)
  {
    PlainChar(x);
    PlainChar(y);
    var r := Rules[0];
    CollapseCopy(x, ['，'] + (['，'] + ([' '] + (['，'] + [y]))), r);
    CommaRunThenSpace(y, r);
    TextsPlain(x, y);
    CleanCommasOnly(Twice(x, y), Once(x, y));
  }

  /** `x， ，y` cleans to `x，y`. */
  lemma SecondClean(x: char, y: char)
    requires !IsLeadMark(x) && !IsLeadMark(y)
    ensures Clean(Once(x, y)) == Single(x, y)
  {
    PlainChar(x);
    PlainChar(y);
    var r := Rules[0];
    CollapseCopy(x, ['，'] + ([' '] + (['，'] + [y])), r);
    CommaSpaceComma(y, r);
    TextsPlain(x, y);
    CleanCommasOnly(Once(x, y), Single(x, y));
  }

  /** Cleaning twice can differ from cleaning once: for any two characters
      `x` and `y` outside the lead class, `x，， ，y` cleans to `x， ，y`,
      which cleans to `x，y`. */
  lemma CleanNotIdempotent(x: char, y: char)
    requires !IsLeadMark(x) && !IsLeadMark(y)
    ensures Clean([x, '，', '，', ' ', '，', y]) == [x, '，', ' ', '，', y]
    ensures Clean([x, '，', ' ', '，', y]) == [x, '，', y]
  {
    FirstClean(x, y);
    SecondClean(x, y);
    TextsAsWritten(x, y);
  }

  lemma TextsAsWritten(x: char, y: char)
    ensures Twice(x, y) == [x, '，', '，', ' ', '，', y]
    ensures Once(x, y) == [x, '，', ' ', '，', y]
    ensures Single(x, y) == [x, '，', y]
  {
  }
}
