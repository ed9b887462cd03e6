/** Particular texts and variables, and what expanding them comes to. */
module MakeLimits {
  import opened Basics
  import opened MakeVariables

  lemma TokensOfStray()
    ensures Tokens("$($(X))") == [Chr('$'), Chr('('), Ref("X"), Chr(')')]
  {
    ShownReferenceMatches("X", ")");
    assert Show(Ref("X")) + ")" == "$(X))";
    assert Tokens(")") == [Chr(')')] by { assert ")"[1..] == ""; }
    assert "$($(X))"[1..] == "($(X))" && "($(X))"[1..] == "$(X))";
    assert NameLength("$($(X))"[2..]) == 0;
  }

  lemma PassOverStray(vars: map<string, string>)
    requires vars == map["X" := "Y"]
    ensures Pass([Chr('$'), Chr('('), Ref("X"), Chr(')')], Parsed(vars)) == [Chr('$'), Chr('('), Chr('Y'), Chr(')')]
  {
    var tab := Parsed(vars);
    assert tab["X"] == [Chr('Y')] by {
      assert Tokens("Y") == [Chr('Y')] by { assert "Y"[1..] == ""; }
    }
    hide Tokens;
    PassConcat([Chr('$')] + [Chr('(')], [Ref("X")] + [Chr(')')], tab);
    PassConcat([Chr('$')], [Chr('(')], tab);
    PassConcat([Ref("X")], [Chr(')')], tab);
    assert [Chr('$'), Chr('('), Ref("X"), Chr(')')] == ([Chr('$')] + [Chr('(')]) + ([Ref("X")] + [Chr(')')]);
  }

  lemma RenderStray()
    ensures Render([Chr('$'), Chr('('), Chr('Y'), Chr(')')]) == "$(Y)"
    ensures Tokens("$(Y)") == [Ref("Y")]
  {
    ShownReferenceMatches("Y", "");
    assert Show(Ref("Y")) + "" == "$(Y)";
    RenderConcat([Chr('$')] + [Chr('(')], [Chr('Y')] + [Chr(')')]);
    RenderConcat([Chr('$')], [Chr('(')]);
    RenderConcat([Chr('Y')], [Chr(')')]);
    assert [Chr('$'), Chr('('), Chr('Y'), Chr(')')] == ([Chr('$')] + [Chr('(')]) + ([Chr('Y')] + [Chr(')')]);
  }

  lemma CharactersAreNormal(ts: seq<Token>, tab: Table)
    requires forall i :: 0 <= i < |ts| ==> ts[i].Chr?
    ensures Normal(ts, tab)
  {
  }

  lemma FirstRound(s: string, vars: map<string, string>)
    ensures TextIterate(s, vars, 1) == Substituted(Tokens(s), vars)
    ensures Iterate(Tokens(s), Parsed(vars), 1) == Pass(Tokens(s), Parsed(vars))
    ensures NormalAfter(s, vars, 1) <==> Normal(Tokens(Substituted(Tokens(s), vars)), Parsed(vars))
    ensures FaithfulAt(s, vars, 1) <==> Faithful(Pass(Tokens(s), Parsed(vars)))
  {
    hide Tokens, Normal, Parsed, Substituted, Pass, Faithful;
    assert TextIterate(s, vars, 0) == s;
  }

  lemma UnknownIsNormal(name: string, vars: map<string, string>)
    requires name !in vars
    ensures Normal([Ref(name)], Parsed(vars))
  {
  }

  /** Replacing can put a reference together from characters and a replacement that held none. The
      text is then out of step with its tokens, although here the loop still ends with the full
      expansion: faithful passes are what keeps the rounds in step, not what every result needs. */
  lemma StrayDollarFormsReference()
    ensures var s, vars := "$($(X))", map["X" := "Y"]; var ts, tab := Tokens(s), Parsed(vars);
            && !Clean(ts)
            && Normal(Pass(ts, tab), tab)
            && Tokens(Substituted(ts, vars)) == [Ref("Y")]
            && !FaithfulAt(s, vars, 1)
            && NormalAfter(s, vars, 1) && Within(ts, tab, 1)
            && TextIterate(s, vars, 1) == Render(Expand(ts, tab, 1))
  {
    hide *;
    var s, vars := "$($(X))", map["X" := "Y"];
    var passed := [Chr('$'), Chr('('), Chr('Y'), Chr(')')];
    TokensOfStray();
    StrayIsNotClean();
    PassOverStray(vars);
    CharactersAreNormal(passed, Parsed(vars));
    SubstitutedIsPass([Chr('$'), Chr('('), Ref("X"), Chr(')')], vars);
    RenderStray();
    TokensOfRender(passed);
    assert [Ref("Y")] != passed;
    FirstRound(s, vars);
    UnknownIsNormal("Y", vars);
    NormalIffWithin(Tokens(s), Parsed(vars), 1);
    IterateIsExpand(Tokens(s), Parsed(vars), 1);
  }

  lemma StrayIsNotClean()
    ensures !Clean([Chr('$'), Chr('('), Ref("X"), Chr(')')])
  {
    var ts := [Chr('$'), Chr('('), Ref("X"), Chr(')')];
    assert ts[1..][0] == Chr('(') && ts[1..][1..][0] == Ref("X");
  }

  // ---- Acyclic references, and yet no end ----

  const LOOPING := map["X" := "A", "A" := "$($(X))"]

  lemma TokensOfLoop()
    ensures Tokens("$(A)") == [Ref("A")]
  {
    ShownReferenceIsCut("A", "");
    NothingToCut();
    hide *;
    assert Show(Ref("A")) + "" == "$(A)";
  }

  lemma NothingSubstituted(vars: map<string, string>)
    ensures Substituted([], vars) == ""
  {
  }

  /** The round that puts `$(A)` together, and the one that takes it apart. */
  lemma ReplaceInText()
    ensures Substituted([Chr('$'), Chr('('), Ref("X"), Chr(')')], LOOPING) == "$(A)"
  {
    var vars := LOOPING;
    hide Substituted, Normal, Parsed;
    NothingSubstituted(vars);
    SubstitutedCons(Chr(')'), [], vars);
    SubstitutedCons(Ref("X"), [Chr(')')] + [], vars);
    SubstitutedCons(Chr('('), [Ref("X")] + ([Chr(')')] + []), vars);
    SubstitutedCons(Chr('$'), [Chr('(')] + ([Ref("X")] + ([Chr(')')] + [])), vars);
    assert [Chr('$'), Chr('('), Ref("X"), Chr(')')] == [Chr('$')] + ([Chr('(')] + ([Ref("X")] + ([Chr(')')] + [])));
  }

  lemma ReplaceInReference()
    ensures Substituted([Ref("A")], LOOPING) == "$($(X))"
  {
    var vars := LOOPING;
    hide Substituted, Normal, Parsed;
    NothingSubstituted(vars);
    SubstitutedCons(Ref("A"), [], vars);
    assert [Ref("A")] == [Ref("A")] + [];
  }

  lemma ReplaceInLoop()
    ensures Substituted(Tokens("$($(X))"), LOOPING) == "$(A)"
    ensures Substituted(Tokens("$(A)"), LOOPING) == "$($(X))"
    ensures Tokens("$(A)") == [Ref("A")]
  {
    hide *;
    TokensOfStray();
    TokensOfLoop();
    ReplaceInText();
    ReplaceInReference();
  }

  lemma {:induction false} RoundsOfLoop(n: nat)
    ensures TextIterate("$($(X))", LOOPING, n) == if n % 2 == 0 then "$($(X))" else "$(A)"
  {
    hide Substituted, Tokens;
    if n > 0 {
      RoundsOfLoop(n - 1);
      ReplaceInLoop();
    }
  }

  lemma ChainRefersOn(tab: Table, p: seq<string>)
    requires IsChain(tab, p) && |p| > 1
    ensures p[0] in tab && Ref(p[1]) in tab[p[0]]
  {
    assert Ref(p[0 + 1]) in tab[p[0]];
  }

  lemma LoopIsAcyclic()
    ensures Acyclic([Chr('$'), Chr('('), Ref("X"), Chr(')')], Parsed(LOOPING))
  {
    var ts, tab := [Chr('$'), Chr('('), Ref("X"), Chr(')')], Parsed(LOOPING);
    assert tab["X"] == [Chr('A')] by {
      assert Tokens("A") == [Chr('A')] by { assert "A"[1..] == ""; }
    }
    hide Tokens, IsChain;
    forall p | ChainFrom(ts, tab, p)
      ensures Distinct(p)
    {
      if |p| > 1 { ChainRefersOn(tab, p); }
    }
  }

  /** No chain of references comes back to a name, but each round puts together the reference that
      the next one takes apart: the loop never ends. */
  lemma AcyclicTextMayLoopForever()
    ensures Acyclic(Tokens("$($(X))"), Parsed(LOOPING)) && !Ends("$($(X))", LOOPING)
    ensures !FaithfulUpTo("$($(X))", LOOPING, |LOOPING|)
  {
    TokensOfStray();
    ReplaceInLoop();
    LoopIsAcyclic();
    hide Tokens, Acyclic, TextIterate, Substituted, FaithfulUpTo;
    forall n: nat
      ensures !NormalAfter("$($(X))", LOOPING, n)
    {
      RoundsOfLoop(n);
      assert [Chr('$'), Chr('('), Ref("X"), Chr(')')][2] == Ref("X") && [Ref("A")][0] == Ref("A");
    }
    hide NormalAfter;
    if FaithfulUpTo("$($(X))", LOOPING, |LOOPING|) {
      AcyclicTextEnds("$($(X))", LOOPING);
    }
  }

  /** Faithful passes ask for less than clean text: a `$` at the very end harms nothing. */
  lemma FaithfulIsWiderThanClean()
    ensures !Clean(Tokens("5$")) && forall vars :: FaithfulPasses("5$", vars)
  {
    var ts := [Chr('5'), Chr('$')];
    assert Tokens("5$") == ts by {
      assert "5$"[1..] == "$" && "$"[1..] == "";
      assert Tokens("$") == [Chr('$')];
    }
    TokensAreFaithful("5$");
    assert ts[1..] == [Chr('$')] && [Chr('$')][1..] == [];
    assert !Clean([Chr('$')]);
    forall vars: map<string, string>, m: nat
      ensures FaithfulAt("5$", vars, m)
    {
      CharactersAreNormal(ts, Parsed(vars));
      IterateOfNormal(ts, Parsed(vars), m);
    }
  }

  // ---- Variables of the repository's own Makefile ----

  lemma {:induction false} PlainTextIsNormal(s: string, vars: map<string, string>)
    requires '$' !in s
    ensures Normal(Tokens(s), Parsed(vars))
  {
    if s != "" {
      PlainTextIsNormal(s[1..], vars);
      assert s[0] in s && forall c :: c in s[1..] ==> c in s;
      CharactersAreNormal([Chr(s[0])], Parsed(vars));
      NormalOfConcat([Chr(s[0])], Tokens(s[1..]), Parsed(vars));
    }
  }

  lemma OneReferenceIsReplaced(name: string, rest: string, vars: map<string, string>)
    requires ProperName(name) && name in vars && '$' !in rest
    ensures var s := Show(Ref(name)) + rest;
            && Substituted(Tokens(s), vars) == vars[name] + rest
            && !Normal(Tokens(s), Parsed(vars))
  {
    ShownReferenceIsCut(name, rest);
    SubstitutedCons(Ref(name), Tokens(rest), vars);
    PlainTextIsNormal(rest, vars);
    UnchangedText(rest, vars);
    hide *;
  }

  lemma PlainConcat(a: string, b: string)
    requires '$' !in a && '$' !in b
    ensures '$' !in a + b
  {
  }

  /** Text that begins with one known reference and is plain otherwise is expanded in one round. */
  lemma OneReferenceIsExpanded(name: string, rest: string, vars: map<string, string>)
    requires ProperName(name) && name in vars && '$' !in vars[name] && '$' !in rest
    ensures var s := Show(Ref(name)) + rest;
            EndsAfter(s, vars, 1) && TextIterate(s, vars, 1) == vars[name] + rest
  {
    var s := Show(Ref(name)) + rest;
    OneReferenceIsReplaced(name, rest, vars);
    PlainConcat(vars[name], rest);
    PlainTextIsNormal(vars[name] + rest, vars);
    FirstRound(s, vars);
    assert TextIterate(s, vars, 0) == s;
    hide ProperName, Show, Tokens, TextIterate, Substituted, Normal, Parsed;
  }

  const MAKEFILE := map["CHECK_PROJECT_NAME" := "prometheus-demo-exporter",
                        "CHECK_FEATURE_CONFIG_FILE" := "$(CHECK_PROJECT_NAME).yml"]

  lemma ProjectNameIsProper()
    ensures ProperName("CHECK_PROJECT_NAME")
  {
  }

  lemma ConfigFileText()
    ensures Show(Ref("CHECK_PROJECT_NAME")) + ".yml" == "$(CHECK_PROJECT_NAME).yml"
  {
    assert Show(Ref("CHECK_PROJECT_NAME")) == "$(" + "CHECK_PROJECT_NAME" + ")";
    hide *;
    assert "$(" + "CHECK_PROJECT_NAME" == "$(CHECK_PROJECT_NAME";
    assert "$(CHECK_PROJECT_NAME" + ")" == "$(CHECK_PROJECT_NAME)";
    assert "$(CHECK_PROJECT_NAME)" + ".yml" == "$(CHECK_PROJECT_NAME).yml";
  }

  lemma ProjectNameIsPlain()
    ensures '$' !in "prometheus-demo-exporter" && '$' !in ".yml"
  {
    hide *;
  }

  lemma ProjectFile()
    ensures "prometheus-demo-exporter" + ".yml" == "prometheus-demo-exporter.yml"
  {
    hide *;
  }

  lemma MakefileHolds()
    ensures "CHECK_PROJECT_NAME" in MAKEFILE && MAKEFILE["CHECK_PROJECT_NAME"] == "prometheus-demo-exporter"
    ensures "CHECK_FEATURE_CONFIG_FILE" in MAKEFILE
    ensures MAKEFILE["CHECK_FEATURE_CONFIG_FILE"] == "$(CHECK_PROJECT_NAME).yml"
  {
    assert |"CHECK_PROJECT_NAME"| != |"CHECK_FEATURE_CONFIG_FILE"|;
  }

  /** The configuration file of the checked project is named after the project, in one round. */
  lemma ConfigFileIsExpanded()
    ensures var s := "$(CHECK_PROJECT_NAME).yml";
            && "CHECK_FEATURE_CONFIG_FILE" in MAKEFILE && MAKEFILE["CHECK_FEATURE_CONFIG_FILE"] == s
            && EndsAfter(s, MAKEFILE, 1) && TextIterate(s, MAKEFILE, 1) == "prometheus-demo-exporter.yml"
  {
    hide *;
    MakefileHolds();
    ProjectNameIsProper();
    ProjectNameIsPlain();
    ConfigFileText();
    ProjectFile();
    OneReferenceIsExpanded("CHECK_PROJECT_NAME", ".yml", MAKEFILE);
  }
}
