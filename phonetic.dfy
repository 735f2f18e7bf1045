/** Phonetic correction: a fixed table of known mis-recognitions, each replaced
    literally, entry after entry, on the text the previous entries produced. */
module Phonetic {
  import opened Text

  // The correction dictionary of asr_server.py, in its iteration order, in the
  // groups its comments name. The dictionary literal lists "拍森" and "维尤"
  // twice with the same value; a dictionary keeps one entry per key at the
  // position of its first occurrence, so each appears once here.

  /** Lines 137-142: AI and programming: "token". */
  const TokenTerms: seq<(String, String)> := [
    ("托肯", "token"),
    ("透肯", "token"),
    ("托卡", "token"),
    ("图肯", "token"),
    ("透卡", "token"),
    ("托克", "token")
  ]

  /** Lines 145-151: other common terms. */
  const CommonTerms: seq<(String, String)> := [
    ("恩 beds", "embeddings"),
    ("恩 bedding", "embeddings"),
    ("艾 beds", "embeddings"),
    ("啦 bed", "LoRA"),
    ("罗拉", "LoRA"),
    ("劳拉", "LoRA"),
    ("罗娜", "LoRA")
  ]

  /** Lines 154-161: programming languages. */
  const ProgrammingTerms: seq<(String, String)> := [
    ("派森", "Python"),
    ("拍森", "Python"),
    ("趴森", "Python"),
    ("泰普 script", "TypeScript"),
    ("泰普斯克瑞普特", "TypeScript"),
    ("凯特", "Kotlin"),
    ("考特林", "Kotlin")
  ]

  /** Lines 164-175: frameworks and tools. */
  const FrameworkTerms: seq<(String, String)> := [
    ("瑞艾科特", "React"),
    ("瑞艾克", "React"),
    ("维艾尤", "Vue"),
    ("维尤", "Vue"),
    ("安古勒", "Angular"),
    ("安哥拉", "Angular"),
    ("节普斯", "GitHub"),
    ("吉哈布", "GitHub"),
    ("吉哈伯", "GitHub"),
    ("吉特", "Git"),
    ("给特", "Git")
  ]

  /** Lines 178-187: databases. */
  const DatabaseTerms: seq<(String, String)> := [
    ("麦斯库尔", "MySQL"),
    ("麦塞库尔", "MySQL"),
    ("迈斯库尔", "MySQL"),
    ("普斯特", "Postgres"),
    ("普斯格瑞", "PostgreSQL"),
    ("波斯格瑞", "PostgreSQL"),
    ("蒙勾DB", "MongoDB"),
    ("蒙勾", "MongoDB"),
    ("瑞迪斯", "Redis"),
    ("瑞地斯", "Redis")
  ]

  /** Lines 190-198: cloud and containers. */
  const CloudTerms: seq<(String, String)> := [
    ("达克", "Docker"),
    ("多克", "Docker"),
    ("道克", "Docker"),
    ("库伯奈特斯", "Kubernetes"),
    ("库伯奈提斯", "Kubernetes"),
    ("K八s", "K8s"),
    ("K八斯", "K8s"),
    ("奈克斯", "Nginx"),
    ("恩静克斯", "Nginx")
  ]

  /** Lines 201-211: AI terms. */
  const AiTerms: seq<(String, String)> := [
    (" attentions", "attention"),
    ("爱腾神", "attention"),
    ("爱腾审", "attention"),
    ("拔特", "BERT"),
    ("博特", "BERT"),
    ("伯特", "BERT"),
    ("吉皮梯", "GPT"),
    ("吉皮提", "GPT"),
    ("吉皮踢", "GPT"),
    ("爱奥艾姆", "LLM"),
    ("艾奥艾姆", "LLM")
  ]

  /** Lines 214-222: general English. */
  const GeneralTerms: seq<(String, String)> := [
    ("API", "API"),
    ("埃批艾", "API"),
    ("阿批艾", "API"),
    ("埃普艾", "API"),
    ("尤艾", "UI"),
    ("尤克斯", "UX"),
    ("西艾", "CI"),
    ("西迪", "CD"),
    ("西艾西迪", "CI/CD")
  ]

  const Corrections: seq<(String, String)> :=
    TokenTerms + CommonTerms + ProgrammingTerms + FrameworkTerms + DatabaseTerms + CloudTerms + AiTerms + GeneralTerms

  lemma TokenTermsValid()
    ensures ValidTable(TokenTerms)
  {
  }

  lemma CommonTermsValid()
    ensures ValidTable(CommonTerms)
  {
  }

  lemma ProgrammingTermsValid()
    ensures ValidTable(ProgrammingTerms)
  {
  }

  lemma FrameworkTermsValid()
    ensures ValidTable(FrameworkTerms)
  {
  }

  lemma DatabaseTermsValid()
    ensures ValidTable(DatabaseTerms)
  {
  }

  lemma CloudTermsValid()
    ensures ValidTable(CloudTerms)
  {
  }

  lemma AiTermsValid()
    ensures ValidTable(AiTerms)
  {
  }

  lemma GeneralTermsValid()
    ensures ValidTable(GeneralTerms)
  {
  }

  lemma TableValid()
    ensures ValidTable(Corrections)
  {
    TokenTermsValid();
    CommonTermsValid();
    ProgrammingTermsValid();
    FrameworkTermsValid();
    DatabaseTermsValid();
    CloudTermsValid();
    AiTermsValid();
    GeneralTermsValid();
  }

  /** The phonetic stage over the fixed table. */
  function Correct(s: String): String {
    TableValid();
    ApplyTable(Corrections, s)
  }

  /** `apply_phonetic_corrections`: the loop over the table (the orchestrators
      pass `Corrections`), reassigning the corrected text entry by entry. */
  method ApplyPhoneticCorrections(table: seq<(String, String)>, text: String) returns (corrected: String)
    requires ValidTable(table)
    ensures corrected == ApplyTable(table, text)
  {
    if text == [] {
      EmptyStaysEmpty(table);
      return text;
    }
    corrected := text;
    var i := 0;
    while i < |table|
      invariant i <= |table|
      invariant ValidTable(table[i..])
      invariant ApplyTable(table[i..], corrected) == ApplyTable(table, text)
    {
      assert table[i..][1..] == table[i + 1..];
      assert table[i] in table[i..];
      corrected := ReplaceAll(corrected, table[i].0, table[i].1);
      i := i + 1;
    }
  }

  /** The table is the other groups, the first six general entries, and the
      three CI/CD entries. */
  lemma TableShape()
    ensures Corrections == (TokenTerms + CommonTerms + ProgrammingTerms + FrameworkTerms + DatabaseTerms + CloudTerms + AiTerms + GeneralTerms[..6])
                           + [("西艾", "CI"), ("西迪", "CD"), ("西艾西迪", "CI/CD")]
  {
    assert GeneralTerms == GeneralTerms[..6] + [("西艾", "CI"), ("西迪", "CD"), ("西艾西迪", "CI/CD")];
  }

  /** Any table that ends with the three CI/CD entries never fires the last one,
      and leaves no "西艾" behind. */
  lemma CiCdTail(head: seq<(String, String)>, s: String)
    requires ValidTable(head)
    ensures var t := head + [("西艾", "CI"), ("西迪", "CD"), ("西艾西迪", "CI/CD")];
      ValidTable(t) && ValidTable(t[..|t| - 1])
      && !Occurs(ApplyTable(t, s), "西艾")
      && ApplyTable(t, s) == ApplyTable(t[..|t| - 1], s)
  {
    var ci, cd, cicd := ("西艾", "CI"), ("西迪", "CD"), ("西艾西迪", "CI/CD");
    var t := head + [ci, cd, cicd];
    assert t[..|t| - 1] == head + [ci, cd];
    ApplyTableAppend(head, [ci, cd, cicd], s);
    ApplyTableAppend(head, [ci, cd], s);
    var v := ApplyTable(head, s);
    var v1 := ReplaceAll(v, "西艾", "CI");
    var v2 := ReplaceAll(v1, "西迪", "CD");
    assert ApplyTable([ci, cd, cicd], v) == ApplyTable([cicd], v2) by {
      assert [ci, cd, cicd][1..] == [cd, cicd];
      assert [cd, cicd][1..] == [cicd];
    }
    assert ApplyTable([ci, cd], v) == v2 by {
      assert [ci, cd][1..] == [cd];
      assert [cd][1..] == [];
      assert ApplyTable([cd], v1) == ApplyTable([], v2);
    }
    ReplaceAllRemoves(v, "西艾", "CI");
    ReplaceAllKeepsAbsent(v1, "西迪", "CD", "西艾");
    assert "西艾西迪"[..2] == "西艾";
    if Occurs(v2, "西艾西迪") {
      OccursPrefix(v2, "西艾西迪", 2);
    }
    ReplaceAllAbsent(v2, "西艾西迪", "CI/CD");
    assert [cicd][1..] == [];
  }

  /** The "CI/CD" entry never fires: "西艾" is already rewritten to "CI" and
      "西迪" to "CD" by the two entries before it, so no corrected text contains
      "西艾", and the last entry leaves every text as it found it. */
  lemma CiCdEntryNeverFires(s: String)
    ensures !Occurs(Correct(s), "西艾")
    ensures (TableValid(); ValidPrefix(Corrections, |Corrections| - 1);
             Correct(s) == ApplyTable(Corrections[..|Corrections| - 1], s))
  {
    TableValid();
    TableShape();
    var head := TokenTerms + CommonTerms + ProgrammingTerms + FrameworkTerms + DatabaseTerms + CloudTerms + AiTerms + GeneralTerms[..6];
    ValidPrefix(Corrections, |head|);
    assert Corrections[..|head|] == head;
    CiCdTail(head, s);
  }

  /** A table none of whose keys can occur in `s` leaves `s` unchanged. */
  lemma ForeignKeysFix(t: seq<(String, String)>, s: String)
    requires forall p :: p in t ==> Foreign(s, p.0)
    ensures ValidTable(t)
    ensures ApplyTable(t, s) == s
  {
    forall p | p in t ensures !Occurs(s, p.0) {
      ForeignNotOccurs(s, p.0);
    }
    TableFixesText(t, s);
  }

  /** "西艾西迪" is corrected to "CICD": the "西艾" and "西迪" entries fire, the
      "CI/CD" entry does not, and no other key occurs in it. */
  lemma CiCdExample()
    ensures Correct("西艾西迪") == "CICD"
  {
    var s := "西艾西迪";
    TableValid();
    TableShape();
    var head := TokenTerms + CommonTerms + ProgrammingTerms + FrameworkTerms + DatabaseTerms + CloudTerms + AiTerms + GeneralTerms[..6];
    var tail := [("西艾", "CI"), ("西迪", "CD"), ("西艾西迪", "CI/CD")];
    CiCdHeadFixes();
    ApplyTableAppend(head, tail, s);
    CiCdTailExample();
  }

  lemma CiCdHeadFixes()
    ensures var head := TokenTerms + CommonTerms + ProgrammingTerms + FrameworkTerms + DatabaseTerms + CloudTerms + AiTerms + GeneralTerms[..6];
      ValidTable(head) && ApplyTable(head, "西艾西迪") == "西艾西迪"
  {
    var head := TokenTerms + CommonTerms + ProgrammingTerms + FrameworkTerms + DatabaseTerms + CloudTerms + AiTerms + GeneralTerms[..6];
    CiCdForeignTokenTerms();
    CiCdForeignCommonTerms();
    CiCdForeignProgrammingTerms();
    CiCdForeignFrameworkTerms();
    CiCdForeignDatabaseTerms();
    CiCdForeignCloudTerms();
    CiCdForeignAiTerms();
    CiCdForeignGeneralTermsHead();
    ForeignKeysFix(head, "西艾西迪");
  }

  lemma CiCdTailExample()
    ensures ApplyTable([("西艾", "CI"), ("西迪", "CD"), ("西艾西迪", "CI/CD")], "西艾西迪") == "CICD"
  {
    var tail := [("西艾", "CI"), ("西迪", "CD"), ("西艾西迪", "CI/CD")];
    CiStep();
    CdStep();
    CiCdStep();
    assert tail[1..] == [("西迪", "CD"), ("西艾西迪", "CI/CD")];
    assert tail[1..][1..] == [("西艾西迪", "CI/CD")];
    assert tail[1..][1..][1..] == [];
  }

  lemma CiStep()
    ensures ReplaceAll("西艾西迪", "西艾", "CI") == "CI西迪"
  {
    ForeignNotOccurs("西迪", "西艾");
    ReplaceAllAbsent("西迪", "西艾", "CI");
    assert "西艾西迪"[2..] == "西迪";
  }

  lemma CdStep()
    ensures ReplaceAll("CI西迪", "西迪", "CD") == "CICD"
  {
    assert ReplaceAll("西迪", "西迪", "CD") == "CD";
    assert ReplaceAll("I西迪", "西迪", "CD") == "ICD";
  }

  lemma CiCdStep()
    ensures ReplaceAll("CICD", "西艾西迪", "CI/CD") == "CICD"
  {
    assert ReplaceAll("ICD", "西艾西迪", "CI/CD") == "ICD";
  }

  // Every key before the three CI/CD entries is foreign to "西艾西迪".
  lemma CiCdForeignTokenTerms()
    ensures forall p :: p in TokenTerms ==> Foreign("西艾西迪", p.0)
  {
  }

  lemma CiCdForeignCommonTerms()
    ensures forall p :: p in CommonTerms ==> Foreign("西艾西迪", p.0)
  {
  }

  lemma CiCdForeignProgrammingTerms()
    ensures forall p :: p in ProgrammingTerms ==> Foreign("西艾西迪", p.0)
  {
  }

  lemma CiCdForeignFrameworkTerms()
    ensures forall p :: p in FrameworkTerms ==> Foreign("西艾西迪", p.0)
  {
  }

  lemma CiCdForeignDatabaseTerms()
    ensures forall p :: p in DatabaseTerms ==> Foreign("西艾西迪", p.0)
  {
  }

  lemma CiCdForeignCloudTerms()
    ensures forall p :: p in CloudTerms ==> Foreign("西艾西迪", p.0)
  {
  }

  lemma CiCdForeignAiTerms()
    ensures forall p :: p in AiTerms ==> Foreign("西艾西迪", p.0)
  {
  }

  lemma CiCdForeignGeneralTermsHead()
    ensures forall p :: p in GeneralTerms[..6] ==> Foreign("西艾西迪", p.0)
  {
  }
}
