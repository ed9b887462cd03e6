/** Expanding `$(NAME)` references in Makefile variables by rewriting to a fixpoint. */
module MakeVariables {
  import opened Basics

  datatype Token = Chr(c: char) | Ref(name: string)

  type Table = map<string, seq<Token>>

  // ---- References in text, as the regular expression finds them ----

  predicate NameChar(c: char) {
    'A' <= c <= 'Z' || '0' <= c <= '9' || c == '_'
  }

  /** The length of the longest run of name characters at the start. */
  function NameLength(s: string): (n: nat)
    ensures n <= |s|
  {
    if s != "" && NameChar(s[0]) then 1 + NameLength(s[1..]) else 0
  }

  /** The text starts with a reference. */
  predicate Matches(s: string) {
    && 2 <= |s| && s[0] == '$' && s[1] == '('
    && 0 < NameLength(s[2..]) < |s| - 2 && s[2 + NameLength(s[2..])] == ')'
  }

  function MatchedName(s: string): string
    requires Matches(s)
  {
    s[2..2 + NameLength(s[2..])]
  }

  function AfterMatch(s: string): (rest: string)
    requires Matches(s)
    ensures |rest| < |s|
  {
    s[3 + NameLength(s[2..])..]
  }

  /** The text cut into references and single characters, from left to right. */
  function Tokens(s: string): seq<Token>
    decreases |s|
  {
    if s == "" then []
    else if Matches(s) then [Ref(MatchedName(s))] + Tokens(AfterMatch(s))
    else [Chr(s[0])] + Tokens(s[1..])
  }

  function Show(t: Token): string {
    match t
    case Chr(c) => [c]
    case Ref(name) => "$(" + name + ")"
  }

  function Render(ts: seq<Token>): string {
    if ts == [] then "" else Show(ts[0]) + Render(ts[1..])
  }

  lemma {:induction false} RenderConcat(a: seq<Token>, b: seq<Token>)
    ensures Render(a + b) == Render(a) + Render(b)
  {
    if a == [] {
      assert a + b == b;
    } else {
      assert (a + b)[1..] == a[1..] + b;
      RenderConcat(a[1..], b);
    }
  }

  /** A reference in the text is its rendering. */
  lemma MatchedText(s: string)
    requires Matches(s)
    ensures s == Show(Ref(MatchedName(s))) + AfterMatch(s)
  {
    var n := NameLength(s[2..]);
    assert s == s[..2] + s[2..2 + n] + [s[2 + n]] + s[3 + n..];
    assert s[..2] == "$(";
  }

  lemma RenderCons(t: Token, ts: seq<Token>)
    ensures Render([t] + ts) == Show(t) + Render(ts)
  {
    assert ([t] + ts)[1..] == ts;
  }

  /** Cutting loses nothing. */
  lemma {:induction false} RenderTokens(s: string)
    ensures Render(Tokens(s)) == s
    decreases |s|
  {
    if s != "" {
      if Matches(s) {
        MatchedText(s);
        RenderTokens(AfterMatch(s));
        RenderCons(Ref(MatchedName(s)), Tokens(AfterMatch(s)));
      } else {
        RenderTokens(s[1..]);
        RenderCons(Chr(s[0]), Tokens(s[1..]));
        assert s == [s[0]] + s[1..];
      }
    }
  }

  predicate ProperName(name: string) {
    |name| > 0 && forall i :: 0 <= i < |name| ==> NameChar(name[i])
  }

  lemma NameCharIsListed(c: char)
    ensures NameChar(c) <==> c in "ABCDEFGHIJKLMNOPQRSTUVWXYZ0123456789_"
  {
  }

  predicate AllListed(name: string) {
    forall i :: 0 <= i < |name| ==> name[i] in "ABCDEFGHIJKLMNOPQRSTUVWXYZ0123456789_"
  }

  lemma ProperNameIsListed(name: string)
    ensures ProperName(name) <==> name != "" && AllListed(name)
  {
    forall i | 0 <= i < |name|
      ensures NameChar(name[i]) <==> name[i] in "ABCDEFGHIJKLMNOPQRSTUVWXYZ0123456789_"
    {
      NameCharIsListed(name[i]);
    }
  }

  /** What a reference is: `$(`, one or more of the listed characters, and `)`; a text that begins
      with one is matched, the name and the rest are exactly those, and nothing else is matched. */
  lemma MatchMeansReference(s: string)
    ensures Matches(s) <==> exists name, rest :: name != "" && AllListed(name) && s == "$(" + name + ")" + rest
    ensures Matches(s) ==>
              && s == "$(" + MatchedName(s) + ")" + AfterMatch(s)
              && MatchedName(s) != "" && AllListed(MatchedName(s))
    ensures forall name, rest :: name != "" && AllListed(name) && s == "$(" + name + ")" + rest ==>
              Matches(s) && MatchedName(s) == name && AfterMatch(s) == rest
  {
    if Matches(s) {
      MatchedText(s);
      MatchedNameIsProper(s);
      ProperNameIsListed(MatchedName(s));
    }
    hide Matches, MatchedName, AfterMatch, AllListed, ProperName;
    forall name, rest | name != "" && AllListed(name) && s == "$(" + name + ")" + rest
      ensures Matches(s) && MatchedName(s) == name && AfterMatch(s) == rest
    {
      ProperNameIsListed(name);
      ShownReferenceMatches(name, rest);
      assert Show(Ref(name)) + rest == "$(" + name + ")" + rest;
    }
  }

  /** No character of the tokens begins a reference in their text, so nothing that was cut apart
      joins up to one. */
  predicate Faithful(ts: seq<Token>) {
    ts == [] ||
    ((if ts[0].Chr? then ts[0].c == '$' ==> !Matches(Render(ts)) else ProperName(ts[0].name)) && Faithful(ts[1..]))
  }

  /** After `$(` and perhaps some name characters: characters that cannot go on as a name and `)`. */
  predicate RefutesName(ts: seq<Token>, named: bool) {
    ts != [] && ts[0].Chr? &&
    if NameChar(ts[0].c) then RefutesName(ts[1..], true) else ts[0].c != ')' || !named
  }

  /** After `$`: characters of the text itself, before any reference, that cannot go on as one. */
  predicate Refutes(ts: seq<Token>) {
    ts != [] && ts[0].Chr? && (ts[0].c != '(' || RefutesName(ts[1..], false))
  }

  /** Every `$` begins a reference, or is followed by characters that rule one out, as in
      `$(shell pwd)` and `$$HOME`. This can be read off the text before any round. */
  predicate Clean(ts: seq<Token>) {
    ts == [] ||
    ((if ts[0].Chr? then ts[0].c == '$' ==> Refutes(ts[1..]) else ProperName(ts[0].name)) && Clean(ts[1..]))
  }

  lemma {:induction false} NameStaysRefuted(ts: seq<Token>, more: seq<Token>, named: bool)
    requires RefutesName(ts, named)
    ensures RefutesName(ts + more, named)
  {
    assert (ts + more)[1..] == ts[1..] + more;
    if NameChar(ts[0].c) { NameStaysRefuted(ts[1..], more, true); }
  }

  lemma StaysRefuted(ts: seq<Token>, more: seq<Token>)
    requires Refutes(ts)
    ensures Refutes(ts + more)
  {
    assert (ts + more)[1..] == ts[1..] + more;
    if ts[0].c == '(' { NameStaysRefuted(ts[1..], more, false); }
  }

  lemma {:induction false} CleanConcat(a: seq<Token>, b: seq<Token>)
    requires Clean(a) && Clean(b)
    ensures Clean(a + b)
  {
    if a == [] {
      assert a + b == b;
    } else {
      assert (a + b)[1..] == a[1..] + b;
      CleanConcat(a[1..], b);
      if a[0] == Chr('$') { StaysRefuted(a[1..], b); }
    }
  }

  /** The name characters of refuting text are not closed by `)`. */
  lemma {:induction false} RefutedName(ts: seq<Token>, named: bool)
    requires RefutesName(ts, named)
    ensures var s := Render(ts); var n := NameLength(s);
            n < |s| && (s[n] != ')' || (n == 0 && !named))
  {
    var c, rest := ts[0].c, Render(ts[1..]);
    assert Render(ts) == [c] + rest;
    NameLengthNext(c, rest);
    if NameChar(c) { RefutedName(ts[1..], true); }
    hide NameLength, Render, RefutesName;
  }

  lemma NameLengthNext(c: char, rest: string)
    ensures NameLength([c] + rest) == if NameChar(c) then 1 + NameLength(rest) else 0
  {
    assert ([c] + rest)[1..] == rest;
  }

  lemma RefutedNameIsNoMatch(s: string)
    requires |s| >= 2
    requires var n := NameLength(s[2..]); n < |s[2..]| && (s[2..][n] != ')' || n == 0)
    ensures !Matches(s)
  {
    hide NameLength;
  }

  lemma RefutedIsNoMatch(ts: seq<Token>)
    requires Refutes(ts)
    ensures !Matches("$" + Render(ts))
  {
    assert Render(ts) == [ts[0].c] + Render(ts[1..]);
    if ts[0].c == '(' {
      RefutedName(ts[1..], false);
      var rest := Render(ts[1..]);
      hide *;
      assert ("$" + ("(" + rest))[2..] == rest;
      RefutedNameIsNoMatch("$" + ("(" + rest));
    }
  }

  lemma {:induction false} NameLengthOf(name: string, post: string)
    requires forall i :: 0 <= i < |name| ==> NameChar(name[i])
    requires |post| > 0 && !NameChar(post[0])
    ensures NameLength(name + post) == |name|
  {
    if name == "" {
      assert name + post == post;
    } else {
      assert (name + post)[1..] == name[1..] + post;
      NameLengthOf(name[1..], post);
    }
  }

  lemma ShownReferenceMatches(name: string, post: string)
    requires ProperName(name)
    ensures var s := Show(Ref(name)) + post;
            Matches(s) && MatchedName(s) == name && AfterMatch(s) == post
  {
    var s := Show(Ref(name)) + post;
    assert s[2..] == name + (")" + post);
    NameLengthOf(name, ")" + post);
  }

  lemma ShownReferenceIsCut(name: string, post: string)
    requires ProperName(name)
    ensures Tokens(Show(Ref(name)) + post) == [Ref(name)] + Tokens(post)
  {
    ShownReferenceMatches(name, post);
    assert Show(Ref(name)) + post != "";
    hide Matches, MatchedName, AfterMatch, Show, ProperName;
  }

  lemma ShownCharIsCut(c: char, post: string)
    requires !Matches([c] + post)
    ensures Tokens([c] + post) == [Chr(c)] + Tokens(post)
  {
    assert ([c] + post)[1..] == post;
    hide Matches;
  }

  lemma {:induction false} NameLengthCounts(s: string)
    ensures forall i :: 0 <= i < NameLength(s) ==> NameChar(s[i])
  {
    if s != "" && NameChar(s[0]) {
      NameLengthCounts(s[1..]);
      assert forall i :: 0 < i < NameLength(s) ==> s[i] == s[1..][i - 1];
    }
  }

  lemma MatchedNameIsProper(s: string)
    requires Matches(s)
    ensures ProperName(MatchedName(s))
  {
    NameLengthCounts(s[2..]);
    assert forall i :: 0 <= i < |MatchedName(s)| ==> MatchedName(s)[i] == s[2..][i];
  }

  lemma FaithfulCons(t: Token, ts: seq<Token>)
    ensures Faithful([t] + ts) <==>
            (if t.Chr? then t.c == '$' ==> !Matches([t.c] + Render(ts)) else ProperName(t.name)) && Faithful(ts)
  {
    hide Matches, ProperName;
    assert ([t] + ts)[1..] == ts;
    RenderCons(t, ts);
  }

  /** The tokens of any text are faithful. */
  lemma {:induction false} TokensAreFaithful(s: string)
    ensures Faithful(Tokens(s))
    decreases |s|
  {
    hide Matches, ProperName, MatchedName, AfterMatch, Render;
    if s != "" {
      if Matches(s) {
        MatchedNameIsProper(s);
        TokensAreFaithful(AfterMatch(s));
        FaithfulCons(Ref(MatchedName(s)), Tokens(AfterMatch(s)));
      } else {
        TokensAreFaithful(s[1..]);
        RenderTokens(s[1..]);
        assert s == [s[0]] + s[1..];
        FaithfulCons(Chr(s[0]), Tokens(s[1..]));
      }
    }
  }

  lemma FirstTokenIsCut(t: Token, ts: seq<Token>)
    requires Faithful([t] + ts)
    ensures Faithful(ts) && Tokens(Show(t) + Render(ts)) == [t] + Tokens(Render(ts))
  {
    FaithfulCons(t, ts);
    hide Tokens, Matches, ProperName, Render, Faithful;
    match t
    case Ref(name) => ShownReferenceIsCut(name, Render(ts));
    case Chr(c) =>
      if c != '$' { OnlyDollarMatches(c, Render(ts)); }
      ShownCharIsCut(c, Render(ts));
  }

  lemma {:induction false} FaithfulIsCutBack(ts: seq<Token>)
    requires Faithful(ts)
    ensures Tokens(Render(ts)) == ts
  {
    hide *;
    if ts == [] {
      NothingToCut();
    } else {
      assert ts == [ts[0]] + ts[1..];
      FirstTokenIsCut(ts[0], ts[1..]);
      FaithfulIsCutBack(ts[1..]);
      RenderCons(ts[0], ts[1..]);
    }
  }

  lemma NothingToCut()
    ensures Render([]) == "" && Tokens("") == []
  {
  }

  /** Tokens are found again in their text exactly when they are faithful. */
  lemma TokensOfRender(ts: seq<Token>)
    ensures Tokens(Render(ts)) == ts <==> Faithful(ts)
  {
    hide Faithful, Tokens, Render;
    TokensAreFaithful(Render(ts));
    if Faithful(ts) { FaithfulIsCutBack(ts); }
  }

  lemma {:induction false} CleanIsFaithful(ts: seq<Token>)
    requires Clean(ts)
    ensures Faithful(ts)
  {
    hide Matches, Refutes, ProperName, Render;
    if ts != [] {
      CleanIsFaithful(ts[1..]);
      assert ts == [ts[0]] + ts[1..];
      if ts[0] == Chr('$') { RefutedIsNoMatch(ts[1..]); }
      FaithfulCons(ts[0], ts[1..]);
    }
  }

  lemma OnlyDollarMatches(c: char, post: string)
    requires c != '$'
    ensures !Matches([c] + post)
  {
  }

  // ---- One pass ----

  function Parsed(vars: map<string, string>): Table {
    map n | n in vars :: Tokens(vars[n])
  }

  function Replacement(t: Token, tab: Table): seq<Token> {
    if t.Ref? && t.name in tab then tab[t.name] else [t]
  }

  function Pass(ts: seq<Token>, tab: Table): seq<Token> {
    if ts == [] then [] else Replacement(ts[0], tab) + Pass(ts[1..], tab)
  }

  predicate Known(t: Token, tab: Table) { t.Ref? && t.name in tab }

  /** No known reference is left. */
  predicate Normal(ts: seq<Token>, tab: Table) {
    forall i :: 0 <= i < |ts| ==> !Known(ts[i], tab)
  }

  lemma {:induction false} PassConcat(a: seq<Token>, b: seq<Token>, tab: Table)
    ensures Pass(a + b, tab) == Pass(a, tab) + Pass(b, tab)
  {
    if a == [] {
      assert a + b == b;
    } else {
      assert (a + b)[1..] == a[1..] + b;
      PassConcat(a[1..], b, tab);
    }
  }

  lemma {:induction false} PassOfNormal(ts: seq<Token>, tab: Table)
    requires Normal(ts, tab)
    ensures Pass(ts, tab) == ts
  {
    if ts != [] { PassOfNormal(ts[1..], tab); }
  }

  /** A pass leaves the characters before the first reference alone. */
  lemma {:induction false} PassKeepsRefutedName(ts: seq<Token>, tab: Table, named: bool)
    requires RefutesName(ts, named)
    ensures RefutesName(Pass(ts, tab), named)
  {
    assert Pass(ts, tab)[1..] == Pass(ts[1..], tab);
    if NameChar(ts[0].c) { PassKeepsRefutedName(ts[1..], tab, true); }
  }

  lemma PassKeepsRefuted(ts: seq<Token>, tab: Table)
    requires Refutes(ts)
    ensures Refutes(Pass(ts, tab))
  {
    assert Pass(ts, tab)[1..] == Pass(ts[1..], tab);
    if ts[0].c == '(' { PassKeepsRefutedName(ts[1..], tab, false); }
  }

  lemma {:induction false} PassKeepsClean(ts: seq<Token>, tab: Table)
    requires Clean(ts) && forall n :: n in tab ==> Clean(tab[n])
    ensures Clean(Pass(ts, tab))
  {
    if ts != [] {
      PassKeepsClean(ts[1..], tab);
      if Known(ts[0], tab) {
        CleanConcat(tab[ts[0].name], Pass(ts[1..], tab));
      } else {
        assert Pass(ts, tab)[1..] == Pass(ts[1..], tab);
        if ts[0] == Chr('$') { PassKeepsRefuted(ts[1..], tab); }
      }
    }
  }

  // ---- Any number of passes ----

  function Iterate(ts: seq<Token>, tab: Table, n: nat): seq<Token>
    decreases n
  {
    if n == 0 then ts else Iterate(Pass(ts, tab), tab, n - 1)
  }

  lemma {:induction false} IterateConcat(a: seq<Token>, b: seq<Token>, tab: Table, n: nat)
    ensures Iterate(a + b, tab, n) == Iterate(a, tab, n) + Iterate(b, tab, n)
    decreases n
  {
    if n > 0 {
      PassConcat(a, b, tab);
      IterateConcat(Pass(a, tab), Pass(b, tab), tab, n - 1);
    }
  }

  /** No chain of known references from `ts` is longer than `n`. */
  ghost predicate Within(ts: seq<Token>, tab: Table, n: nat)
    decreases n
  {
    forall x :: x in tab && Ref(x) in ts ==> n > 0 && Within(tab[x], tab, n - 1)
  }

  lemma {:induction false} WithinConcat(a: seq<Token>, b: seq<Token>, tab: Table, n: nat)
    ensures Within(a + b, tab, n) <==> Within(a, tab, n) && Within(b, tab, n)
  {
    assert forall x :: Ref(x) in a + b <==> Ref(x) in a || Ref(x) in b;
  }

  /** Fully recursive expansion, down chains of at most `n` references. */
  ghost function Expand(ts: seq<Token>, tab: Table, n: nat): seq<Token>
    requires Within(ts, tab, n)
    decreases n, |ts|
  {
    if ts == [] then []
    else
      assert ts == [ts[0]] + ts[1..];
      WithinConcat([ts[0]], ts[1..], tab, n);
      (if Known(ts[0], tab) then Expand(tab[ts[0].name], tab, n - 1) else [ts[0]]) + Expand(ts[1..], tab, n)
  }

  /** After `n` passes text with chains of at most `n` references is fully expanded. */
  lemma {:induction false} IterateIsExpand(ts: seq<Token>, tab: Table, n: nat)
    requires Within(ts, tab, n)
    ensures Iterate(ts, tab, n) == Expand(ts, tab, n)
    ensures Normal(Expand(ts, tab, n), tab)
    decreases n, |ts|
  {
    if ts == [] {
      PassOfNormal(ts, tab);
      IterateOfNormal(ts, tab, n);
    } else {
      var head, tail := [ts[0]], ts[1..];
      assert ts == head + tail;
      WithinConcat(head, tail, tab, n);
      IterateConcat(head, tail, tab, n);
      IterateIsExpand(tail, tab, n);
      if Known(ts[0], tab) {
        assert Pass(head, tab) == tab[ts[0].name];
        IterateIsExpand(tab[ts[0].name], tab, n - 1);
      } else {
        IterateOfNormal(head, tab, n);
      }
    }
  }

  lemma {:induction false} IterateOfNormal(ts: seq<Token>, tab: Table, n: nat)
    requires Normal(ts, tab)
    ensures Iterate(ts, tab, n) == ts
  {
    PassOfNormal(ts, tab);
    if n > 0 { IterateOfNormal(ts, tab, n - 1); }
  }

  lemma NormalOfConcat(a: seq<Token>, b: seq<Token>, tab: Table)
    ensures Normal(a + b, tab) <==> Normal(a, tab) && Normal(b, tab)
  {
    assert forall i :: 0 <= i < |a| ==> (a + b)[i] == a[i];
    assert forall i :: 0 <= i < |b| ==> (a + b)[|a| + i] == b[i];
  }

  /** Passes leave no known reference exactly when the chains are short enough. */
  lemma {:induction false} NormalIffWithin(ts: seq<Token>, tab: Table, n: nat)
    ensures Normal(Iterate(ts, tab, n), tab) <==> Within(ts, tab, n)
    decreases n, |ts|
  {
    if ts == [] {
      IterateOfNormal(ts, tab, n);
    } else {
      var head, tail := [ts[0]], ts[1..];
      assert ts == head + tail;
      IterateConcat(head, tail, tab, n);
      NormalOfConcat(Iterate(head, tab, n), Iterate(tail, tab, n), tab);
      WithinConcat(head, tail, tab, n);
      NormalIffWithin(tail, tab, n);
      if !Known(ts[0], tab) {
        IterateOfNormal(head, tab, n);
      } else if n > 0 {
        assert Pass(head, tab) == tab[ts[0].name];
        NormalIffWithin(tab[ts[0].name], tab, n - 1);
      }
    }
  }

  // ---- When the passes come to an end ----

  /** A chain of known names, each referring to the next. */
  ghost predicate IsChain(tab: Table, p: seq<string>) {
    && (forall i :: 0 <= i < |p| ==> p[i] in tab)
    && forall i :: 0 <= i < |p| - 1 ==> Ref(p[i + 1]) in tab[p[i]]
  }

  ghost predicate ChainFrom(ts: seq<Token>, tab: Table, p: seq<string>) {
    |p| > 0 && Ref(p[0]) in ts && IsChain(tab, p)
  }

  /** No chain of references from `ts` comes back to a name. */
  ghost predicate Acyclic(ts: seq<Token>, tab: Table) {
    forall p :: ChainFrom(ts, tab, p) ==> Distinct(p)
  }

  lemma {:induction false} LongChain(ts: seq<Token>, tab: Table, n: nat) returns (p: seq<string>)
    requires !Within(ts, tab, n)
    ensures ChainFrom(ts, tab, p) && |p| == n + 1
    decreases n
  {
    var x :| x in tab && Ref(x) in ts && !(n > 0 && Within(tab[x], tab, n - 1));
    if n == 0 {
      p := [x];
    } else {
      var rest := LongChain(tab[x], tab, n - 1);
      p := [x] + rest;
    }
  }

  lemma {:induction false} ChainExceeds(ts: seq<Token>, tab: Table, n: nat, p: seq<string>)
    requires ChainFrom(ts, tab, p) && |p| > n
    ensures !Within(ts, tab, n)
    decreases n
  {
    if n > 0 {
      assert ChainFrom(tab[p[0]], tab, p[1..]) by {
        assert Ref(p[0 + 1]) in tab[p[0]];
        forall i | 0 <= i < |p[1..]| - 1
          ensures Ref(p[1..][i + 1]) in tab[p[1..][i]]
        {
          assert Ref(p[(i + 1) + 1]) in tab[p[i + 1]];
        }
      }
      ChainExceeds(tab[p[0]], tab, n - 1, p[1..]);
    }
  }

  lemma RestIsDistinct(p: seq<string>)
    requires |p| > 0 && Distinct(p)
    ensures Distinct(p[1..]) && p[0] !in p[1..]
  {
    forall i, j | 0 <= i < j < |p[1..]|
      ensures p[1..][i] != p[1..][j]
    {
      assert p[i + 1] != p[j + 1];
    }
    forall i | 0 <= i < |p[1..]|
      ensures p[1..][i] != p[0]
    {
      assert p[0] != p[i + 1];
    }
  }

  /** A chain without repetition is no longer than the table. */
  lemma {:induction false} DistinctChainIsShort(p: seq<string>, names: set<string>)
    requires Distinct(p) && forall i :: 0 <= i < |p| ==> p[i] in names
    ensures |p| <= |names|
  {
    if p != [] {
      RestIsDistinct(p);
      assert forall i :: 0 <= i < |p[1..]| ==> p[1..][i] == p[i + 1] && p[1..][i] in p[1..];
      DistinctChainIsShort(p[1..], names - {p[0]});
    }
  }

  /** A repeating chain can be made longer than any bound by going round again. */
  lemma {:induction false} Pump(ts: seq<Token>, tab: Table, p: seq<string>, n: nat) returns (q: seq<string>)
    requires ChainFrom(ts, tab, p) && !Distinct(p)
    ensures ChainFrom(ts, tab, q) && |q| > n
    decreases n - |p|
  {
    if |p| > n {
      q := p;
    } else {
      var i, j :| 0 <= i < j < |p| && p[i] == p[j];
      var r := p[..j] + p[i..];
      assert r[i] == r[j];
      forall k | 0 <= k < |r| - 1
        ensures Ref(r[k + 1]) in tab[r[k]]
      {
        if k < j - 1 {
          assert Ref(p[k + 1]) in tab[p[k]];
        } else if k == j - 1 {
          assert Ref(p[(j - 1) + 1]) in tab[p[j - 1]];
        } else {
          var m := k - j + i;
          assert Ref(p[m + 1]) in tab[p[m]];
        }
      }
      q := Pump(ts, tab, r, n);
    }
  }

  /** Acyclic text is expanded by as many passes as there are variables. */
  lemma AcyclicIsWithin(ts: seq<Token>, tab: Table)
    requires Acyclic(ts, tab)
    ensures Within(ts, tab, |tab|)
  {
    assert |tab.Keys| == |tab|;
    if !Within(ts, tab, |tab|) {
      var p := LongChain(ts, tab, |tab|);
      DistinctChainIsShort(p, tab.Keys);
    }
  }

  /** The passes ever reach text without known references exactly when no chain of references
      from the text comes back to a name, and then within as many passes as variables. */
  lemma TerminationIsAcyclicity(ts: seq<Token>, tab: Table)
    ensures (exists n: nat :: Normal(Iterate(ts, tab, n), tab)) <==> Acyclic(ts, tab)
    ensures Acyclic(ts, tab) ==> Normal(Iterate(ts, tab, |tab|), tab)
  {
    if Acyclic(ts, tab) {
      AcyclicIsWithin(ts, tab);
      NormalIffWithin(ts, tab, |tab|);
    } else {
      var p :| ChainFrom(ts, tab, p) && !Distinct(p);
      forall n: nat
        ensures !Normal(Iterate(ts, tab, n), tab)
      {
        var q := Pump(ts, tab, p, n);
        ChainExceeds(ts, tab, n, q);
        NormalIffWithin(ts, tab, n);
      }
    }
  }

  /** The bound on the chains does not influence the expansion. */
  lemma {:induction false} ExpandIgnoresBound(ts: seq<Token>, tab: Table, m: nat, n: nat)
    requires Within(ts, tab, m) && Within(ts, tab, n)
    ensures Expand(ts, tab, m) == Expand(ts, tab, n)
    decreases m, |ts|
  {
    if ts != [] {
      assert ts == [ts[0]] + ts[1..];
      WithinConcat([ts[0]], ts[1..], tab, m);
      WithinConcat([ts[0]], ts[1..], tab, n);
      ExpandIgnoresBound(ts[1..], tab, m, n);
      if Known(ts[0], tab) { ExpandIgnoresBound(tab[ts[0].name], tab, m - 1, n - 1); }
    }
  }

  /** An unknown reference stays where it is, between the expansions of what surrounds it. */
  lemma UnknownStaysInPlace(a: seq<Token>, u: string, b: seq<Token>, tab: Table, n: nat)
    requires u !in tab && Within(a + [Ref(u)] + b, tab, n)
    ensures Within(a, tab, n) && Within(b, tab, n)
    ensures Expand(a + [Ref(u)] + b, tab, n) == Expand(a, tab, n) + [Ref(u)] + Expand(b, tab, n)
  {
    WithinConcat(a + [Ref(u)], b, tab, n);
    WithinConcat(a, [Ref(u)], tab, n);
    IterateIsExpand(a + [Ref(u)] + b, tab, n);
    IterateConcat(a + [Ref(u)], b, tab, n);
    IterateConcat(a, [Ref(u)], tab, n);
    IterateOfNormal([Ref(u)], tab, n);
    IterateIsExpand(a, tab, n);
    IterateIsExpand(b, tab, n);
  }

  // ---- The rewriting of text ----

  /** The text of the tokens with every known reference replaced by its variable's text. */
  function Substituted(ts: seq<Token>, vars: map<string, string>): string {
    if ts == [] then ""
    else
      (if ts[0].Ref? && ts[0].name in vars then vars[ts[0].name] else Show(ts[0])) + Substituted(ts[1..], vars)
  }

  lemma SubstitutedCons(t: Token, ts: seq<Token>, vars: map<string, string>)
    ensures Substituted([t] + ts, vars) ==
            (if t.Ref? && t.name in vars then vars[t.name] else Show(t)) + Substituted(ts, vars)
    ensures Normal([t] + ts, Parsed(vars)) <==> !(t.Ref? && t.name in vars) && Normal(ts, Parsed(vars))
  {
    assert ([t] + ts)[1..] == ts;
    NormalOfConcat([t], ts, Parsed(vars));
    assert Normal([t], Parsed(vars)) <==> !Known([t][0], Parsed(vars));
  }

  /** Replacing in the text is one pass over its tokens. */
  lemma {:induction false} SubstitutedIsPass(ts: seq<Token>, vars: map<string, string>)
    ensures Substituted(ts, vars) == Render(Pass(ts, Parsed(vars)))
  {
    if ts != [] {
      SubstitutedIsPass(ts[1..], vars);
      RenderConcat(Replacement(ts[0], Parsed(vars)), Pass(ts[1..], Parsed(vars)));
      if ts[0].Ref? && ts[0].name in vars {
        RenderTokens(vars[ts[0].name]);
      } else {
        RenderCons(ts[0], []);
        assert Show(ts[0]) + Render([]) == Show(ts[0]);
      }
    }
  }

  lemma {:induction false} SubstitutedNormal(ts: seq<Token>, vars: map<string, string>)
    requires Normal(ts, Parsed(vars))
    ensures Substituted(ts, vars) == Render(ts)
  {
    SubstitutedIsPass(ts, vars);
    PassOfNormal(ts, Parsed(vars));
  }

  /** What the first piece of the text contributes. */
  lemma SubstitutedFirst(s: string, vars: map<string, string>)
    requires s != ""
    ensures Matches(s) ==>
              var name := MatchedName(s);
              && Substituted(Tokens(s), vars) ==
                 (if name in vars then vars[name] else Show(Ref(name))) + Substituted(Tokens(AfterMatch(s)), vars)
              && (Normal(Tokens(s), Parsed(vars)) <==> name !in vars && Normal(Tokens(AfterMatch(s)), Parsed(vars)))
    ensures !Matches(s) ==>
              && Substituted(Tokens(s), vars) == [s[0]] + Substituted(Tokens(s[1..]), vars)
              && (Normal(Tokens(s), Parsed(vars)) <==> Normal(Tokens(s[1..]), Parsed(vars)))
  {
    hide Normal, Parsed, Substituted;
    if Matches(s) {
      SubstitutedCons(Ref(MatchedName(s)), Tokens(AfterMatch(s)), vars);
    } else {
      SubstitutedCons(Chr(s[0]), Tokens(s[1..]), vars);
    }
  }

  lemma SubstitutedNothing(vars: map<string, string>)
    ensures Substituted(Tokens(""), vars) == "" && Normal(Tokens(""), Parsed(vars))
  {
  }

  lemma UnchangedText(s: string, vars: map<string, string>)
    requires Normal(Tokens(s), Parsed(vars))
    ensures Substituted(Tokens(s), vars) == s
  {
    SubstitutedNormal(Tokens(s), vars);
    RenderTokens(s);
  }

  method ReplaceAll(value: string, vars: map<string, string>) returns (replaced: string, changed: bool)
    ensures replaced == Substituted(Tokens(value), vars)
    ensures changed <==> !Normal(Tokens(value), Parsed(vars))
    ensures !changed ==> replaced == value
  {
    hide Normal, Parsed, Substituted, Tokens, Matches, MatchedName, AfterMatch, Show;
    replaced, changed := "", false;
    var rest := value;
    while rest != ""
      invariant Substituted(Tokens(value), vars) == replaced + Substituted(Tokens(rest), vars)
      invariant Normal(Tokens(value), Parsed(vars)) <==> !changed && Normal(Tokens(rest), Parsed(vars))
      decreases |rest|
    {
      SubstitutedFirst(rest, vars);
      if Matches(rest) {
        var name := MatchedName(rest);
        if name in vars {
          changed := true;
          replaced := replaced + vars[name];
        } else {
          replaced := replaced + Show(Ref(name));
        }
        rest := AfterMatch(rest);
      } else {
        replaced := replaced + [rest[0]];
        rest := rest[1..];
      }
    }
    SubstitutedNothing(vars);
    if !changed { UnchangedText(value, vars); }
  }

  ghost predicate CleanVariables(vars: map<string, string>) {
    forall n :: n in vars ==> Clean(Tokens(vars[n]))
  }

  /** A pass that has something to replace is the first of the `n` that expand the text. */
  lemma FirstOfPasses(ts: seq<Token>, tab: Table, n: nat)
    requires Within(ts, tab, n) && !Normal(ts, tab)
    ensures n > 0 && Iterate(ts, tab, n) == Iterate(Pass(ts, tab), tab, n - 1)
  {
    hide Pass;
    var i :| 0 <= i < |ts| && Known(ts[i], tab);
    assert Ref(ts[i].name) in ts;
  }

  /** One pass uses up one link of every chain and leaves the expansion as it is. */
  lemma PassShortensChains(ts: seq<Token>, tab: Table, n: nat)
    requires Within(ts, tab, n) && !Normal(ts, tab)
    ensures n > 0 && Within(Pass(ts, tab), tab, n - 1)
    ensures Expand(Pass(ts, tab), tab, n - 1) == Expand(ts, tab, n)
  {
    hide *;
    FirstOfPasses(ts, tab, n);
    NormalIffWithin(ts, tab, n);
    NormalIffWithin(Pass(ts, tab), tab, n - 1);
    IterateIsExpand(ts, tab, n);
    IterateIsExpand(Pass(ts, tab), tab, n - 1);
  }

  /** Replacing in text is a pass over its tokens exactly when the passed tokens are faithful. */
  lemma NextPass(ts: seq<Token>, vars: map<string, string>)
    ensures Tokens(Substituted(ts, vars)) == Pass(ts, Parsed(vars)) <==> Faithful(Pass(ts, Parsed(vars)))
  {
    hide *;
    SubstitutedIsPass(ts, vars);
    TokensOfRender(Pass(ts, Parsed(vars)));
  }

  // ---- The loop over text ----

  /** The text after `n` rounds of the loop. */
  function TextIterate(s: string, vars: map<string, string>, n: nat): string {
    if n == 0 then s else Substituted(Tokens(TextIterate(s, vars, n - 1)), vars)
  }

  ghost predicate NormalAfter(s: string, vars: map<string, string>, n: nat) {
    Normal(Tokens(TextIterate(s, vars, n)), Parsed(vars))
  }

  /** The loop ends: after some rounds the text has no known reference. */
  ghost predicate Ends(s: string, vars: map<string, string>) {
    exists n: nat :: NormalAfter(s, vars, n)
  }

  ghost predicate EndsAfter(s: string, vars: map<string, string>, n: nat) {
    NormalAfter(s, vars, n) && forall m: nat :: m < n ==> !NormalAfter(s, vars, m)
  }

  lemma {:induction false} IterateNext(ts: seq<Token>, tab: Table, n: nat)
    ensures Iterate(ts, tab, n + 1) == Pass(Iterate(ts, tab, n), tab)
    decreases n
  {
    hide Pass;
    if n > 0 { IterateNext(Pass(ts, tab), tab, n - 1); }
  }

  /** Round `m` of the text is pass `m` of the tokens. */
  ghost predicate InStepAt(s: string, vars: map<string, string>, m: nat) {
    Tokens(TextIterate(s, vars, m)) == Iterate(Tokens(s), Parsed(vars), m)
  }

  ghost predicate FaithfulAt(s: string, vars: map<string, string>, m: nat) {
    Faithful(Iterate(Tokens(s), Parsed(vars), m))
  }

  ghost predicate InStep(s: string, vars: map<string, string>, n: nat) {
    forall m: nat :: m <= n ==> InStepAt(s, vars, m)
  }

  ghost predicate FaithfulUpTo(s: string, vars: map<string, string>, n: nat) {
    forall m: nat :: m <= n ==> FaithfulAt(s, vars, m)
  }

  ghost predicate FaithfulPasses(s: string, vars: map<string, string>) {
    forall m: nat :: FaithfulAt(s, vars, m)
  }

  lemma StaysInStep(s: string, vars: map<string, string>, n: nat)
    requires InStepAt(s, vars, n)
    ensures InStepAt(s, vars, n + 1) <==> FaithfulAt(s, vars, n + 1)
  {
    assert TextIterate(s, vars, n + 1) == Substituted(Tokens(TextIterate(s, vars, n)), vars);
    hide Tokens, Iterate, TextIterate, Faithful, Substituted, Pass, Parsed;
    IterateNext(Tokens(s), Parsed(vars), n);
    NextPass(Iterate(Tokens(s), Parsed(vars), n), vars);
  }

  lemma InStepNext(s: string, vars: map<string, string>, n: nat)
    requires InStep(s, vars, n) && FaithfulUpTo(s, vars, n)
    ensures InStep(s, vars, n + 1) <==> FaithfulUpTo(s, vars, n + 1)
  {
    hide InStepAt, FaithfulAt;
    StaysInStep(s, vars, n);
  }

  lemma InStepAtStart(s: string, vars: map<string, string>)
    ensures InStep(s, vars, 0) && FaithfulUpTo(s, vars, 0)
  {
    hide Tokens, Faithful;
    TokensAreFaithful(s);
  }

  lemma InStepBefore(s: string, vars: map<string, string>, n: nat)
    ensures InStep(s, vars, n + 1) ==> InStep(s, vars, n)
    ensures FaithfulUpTo(s, vars, n + 1) ==> FaithfulUpTo(s, vars, n)
  {
    hide InStepAt, FaithfulAt;
  }

  /** For any text: the rounds of the loop are passes over the tokens exactly as long as the
      passed tokens are faithful. */
  lemma {:induction false} TextIterateIsIterate(s: string, vars: map<string, string>, n: nat)
    ensures InStep(s, vars, n) <==> FaithfulUpTo(s, vars, n)
  {
    hide *;
    if n == 0 {
      InStepAtStart(s, vars);
    } else {
      TextIterateIsIterate(s, vars, n - 1);
      InStepBefore(s, vars, n - 1);
      if InStep(s, vars, n - 1) { InStepNext(s, vars, n - 1); }
    }
  }

  lemma RoundIsPass(s: string, vars: map<string, string>, n: nat)
    requires FaithfulPasses(s, vars)
    ensures Tokens(TextIterate(s, vars, n)) == Iterate(Tokens(s), Parsed(vars), n)
  {
    hide FaithfulAt, Tokens, TextIterate, Iterate, Parsed;
    TextIterateIsIterate(s, vars, n);
    assert InStepAt(s, vars, n);
  }

  lemma {:induction false} IterateSettles(ts: seq<Token>, tab: Table, n: nat, m: nat)
    requires Normal(Iterate(ts, tab, n), tab) && n <= m
    ensures Iterate(ts, tab, m) == Iterate(ts, tab, n)
  {
    hide Iterate, Normal;
    if n < m {
      IterateSettles(ts, tab, n, m - 1);
      IterateNext(ts, tab, m - 1);
      PassOfNormal(Iterate(ts, tab, n), tab);
    }
  }

  /** For acyclic references only the first passes matter, as many as there are variables. */
  lemma FirstPassesSuffice(s: string, vars: map<string, string>)
    requires Acyclic(Tokens(s), Parsed(vars)) && FaithfulUpTo(s, vars, |vars|)
    ensures FaithfulPasses(s, vars)
  {
    hide Acyclic, Tokens, Parsed, Faithful, Iterate, Normal, Within;
    AcyclicTextIsWithin(Tokens(s), vars);
    NormalIffWithin(Tokens(s), Parsed(vars), |vars|);
    forall m: nat
      ensures FaithfulAt(s, vars, m)
    {
      assert FaithfulAt(s, vars, |vars|);
      if m > |vars| { IterateSettles(Tokens(s), Parsed(vars), |vars|, m); }
    }
  }

  lemma {:induction false} IterateKeepsClean(ts: seq<Token>, tab: Table, n: nat)
    requires Clean(ts) && forall x :: x in tab ==> Clean(tab[x])
    ensures Clean(Iterate(ts, tab, n))
    decreases n
  {
    hide Clean, Pass;
    if n > 0 {
      PassKeepsClean(ts, tab);
      IterateKeepsClean(Pass(ts, tab), tab, n - 1);
    }
  }

  /** A check on the text and the variables that is enough for all passes to be faithful. */
  lemma CleanPasses(s: string, vars: map<string, string>)
    requires Clean(Tokens(s)) && CleanVariables(vars)
    ensures FaithfulPasses(s, vars)
  {
    hide Clean, Tokens, Faithful, Iterate;
    forall m: nat
      ensures FaithfulAt(s, vars, m)
    {
      IterateKeepsClean(Tokens(s), Parsed(vars), m);
      CleanIsFaithful(Iterate(Tokens(s), Parsed(vars), m));
    }
  }

  lemma NormalAfterIterate(s: string, vars: map<string, string>, n: nat)
    requires FaithfulPasses(s, vars)
    ensures NormalAfter(s, vars, n) <==> Normal(Iterate(Tokens(s), Parsed(vars), n), Parsed(vars))
  {
    hide FaithfulPasses, Tokens, Iterate, TextIterate, Normal, Parsed;
    RoundIsPass(s, vars, n);
  }

  /** When all passes are faithful the loop ends exactly if no chain of references comes back to a name. */
  lemma EndsIffAcyclic(s: string, vars: map<string, string>)
    requires FaithfulPasses(s, vars)
    ensures Ends(s, vars) <==> Acyclic(Tokens(s), Parsed(vars))
  {
    hide NormalAfter, FaithfulPasses, Tokens, Iterate, Normal, Acyclic, Parsed;
    TerminationIsAcyclicity(Tokens(s), Parsed(vars));
    NormalAfterIterate(s, vars, |Parsed(vars)|);
    if Ends(s, vars) {
      var n: nat :| NormalAfter(s, vars, n);
      NormalAfterIterate(s, vars, n);
    }
  }

  lemma AcyclicTextIsWithin(ts: seq<Token>, vars: map<string, string>)
    requires Acyclic(ts, Parsed(vars))
    ensures Within(ts, Parsed(vars), |vars|)
  {
    assert Parsed(vars).Keys == vars.Keys;
    assert |Parsed(vars)| == |Parsed(vars).Keys| == |vars.Keys| == |vars|;
    AcyclicIsWithin(ts, Parsed(vars));
  }

  /** When the loop ends and all passes are faithful, it has expanded the text in full. */
  lemma EndIsExpanded(s: string, vars: map<string, string>, n: nat)
    requires FaithfulPasses(s, vars) && NormalAfter(s, vars, n)
    ensures Within(Tokens(s), Parsed(vars), |vars|)
    ensures TextIterate(s, vars, n) == Render(Expand(Tokens(s), Parsed(vars), |vars|))
  {
    hide FaithfulPasses, Tokens, Iterate, TextIterate, Normal, Acyclic, Parsed, Within, Expand, Render;
    EndsIffAcyclic(s, vars);
    AcyclicTextIsWithin(Tokens(s), vars);
    RoundIsPass(s, vars, n);
    NormalIffWithin(Tokens(s), Parsed(vars), n);
    IterateIsExpand(Tokens(s), Parsed(vars), n);
    ExpandIgnoresBound(Tokens(s), Parsed(vars), n, |vars|);
    RenderTokens(TextIterate(s, vars, n));
  }

  /** Acyclic text whose first passes are faithful is expanded in full, in as many rounds. */
  lemma AcyclicTextEnds(s: string, vars: map<string, string>)
    requires Acyclic(Tokens(s), Parsed(vars)) && FaithfulUpTo(s, vars, |vars|)
    ensures NormalAfter(s, vars, |vars|) && Within(Tokens(s), Parsed(vars), |vars|)
    ensures TextIterate(s, vars, |vars|) == Render(Expand(Tokens(s), Parsed(vars), |vars|))
  {
    hide *;
    FirstPassesSuffice(s, vars);
    AcyclicTextIsWithin(Tokens(s), vars);
    NormalIffWithin(Tokens(s), Parsed(vars), |vars|);
    NormalAfterIterate(s, vars, |vars|);
    EndIsExpanded(s, vars, |vars|);
  }

  /** Whenever the loop ends, it does so at the first text without a known reference. When all
      passes are faithful, that text is the full expansion. */
  method ExpandMakeVariables(value: string, vars: map<string, string>) returns (result: string)
    requires Ends(value, vars)
    ensures Normal(Tokens(result), Parsed(vars))
    ensures exists n: nat :: EndsAfter(value, vars, n) && result == TextIterate(value, vars, n)
    ensures FaithfulPasses(value, vars) ==>
              && Within(Tokens(value), Parsed(vars), |vars|)
              && result == Render(Expand(Tokens(value), Parsed(vars), |vars|))
  {
    hide FaithfulPasses, Normal, Within, Expand, Tokens, Parsed, Substituted, Render;
    ghost var end: nat :| NormalAfter(value, vars, end);
    ghost var round: nat := 0;
    result := value;
    while true
      invariant round <= end && result == TextIterate(value, vars, round)
      invariant forall m: nat :: m < round ==> !NormalAfter(value, vars, m)
      decreases end - round
    {
      var replaced, changed := ReplaceAll(result, vars);
      if !changed {
        assert EndsAfter(value, vars, round);
        if FaithfulPasses(value, vars) {
          EndIsExpanded(value, vars, round);
        }
        return replaced;
      }
      round := round + 1;
      result := replaced;
    }
  }

  datatype Found = Missing(name: string) | Value(text: string)

  /** A name that is not a variable is an error, not an empty expansion. */
  method MakeVariable(vars: map<string, string>, name: string) returns (found: Found)
    requires name in vars ==> Ends(vars[name], vars)
    ensures found.Missing? <==> name !in vars
    ensures found.Value? ==>
              && Normal(Tokens(found.text), Parsed(vars))
              && exists n: nat :: EndsAfter(vars[name], vars, n) && found.text == TextIterate(vars[name], vars, n)
    ensures found.Value? && FaithfulPasses(vars[name], vars) ==>
              && Within(Tokens(vars[name]), Parsed(vars), |vars|)
              && found.text == Render(Expand(Tokens(vars[name]), Parsed(vars), |vars|))
  {
    hide Normal, Within, Expand, Tokens, Parsed, Render, FaithfulPasses, TextIterate, EndsAfter, Ends;
    if name !in vars {
      return Missing(name);
    }
    var text := ExpandMakeVariables(vars[name], vars);
    return Value(text);
  }
}
