/**
  Substitution of environment variables into configuration text: every match of `{{ NAME }}`, with optional
  whitespace around the name, is replaced by the variable's value, or by nothing if it is not set.
*/
module Template {
  import opened Core

  type Environment = map<string, string>

  predicate IsSpace(c: char) {
    c == ' ' || c == '\t' || c == '\n' || c == '\r' || c == '\U{B}' || c == '\U{C}'
  }

  predicate IsNameChar(c: char) {
    'A' <= c <= 'Z' || '0' <= c <= '9' || c == '_'
  }

  predicate AllSpace(s: string) {
    s == "" || (IsSpace(s[0]) && AllSpace(s[1..]))
  }

  predicate AllName(s: string) {
    s == "" || (IsNameChar(s[0]) && AllName(s[1..]))
  }

  predicate IsName(s: string) {
    s != "" && AllName(s)
  }

  // ----- Matching -----

  /** A match, by the name it captures and the text after it. */
  datatype Match = Match(name: string, rest: string)

  /** The match that starts right here, found in one pass without backtracking. */
  function MatchHere(s: string): (m: Option<Match>)
    ensures m.Some? ==> |m.value.rest| < |s|
  {
    if |s| >= 2 && s[0] == '{' && s[1] == '{' then MatchBefore(s[2..]) else None
  }

  function MatchBefore(s: string): (m: Option<Match>)
    ensures m.Some? ==> |m.value.rest| < |s|
  {
    if s == "" then None
    else if IsSpace(s[0]) then MatchBefore(s[1..])
    else if IsNameChar(s[0]) then MatchName([s[0]], s[1..])
    else None
  }

  function MatchName(name: string, s: string): (m: Option<Match>)
    ensures m.Some? ==> |m.value.rest| < |s|
    decreases |s|, 1
  {
    if s != "" && IsNameChar(s[0]) then MatchName(name + [s[0]], s[1..]) else MatchAfter(name, s)
  }

  function MatchAfter(name: string, s: string): (m: Option<Match>)
    ensures m.Some? ==> |m.value.rest| < |s|
    decreases |s|, 0
  {
    if s != "" && IsSpace(s[0]) then MatchAfter(name, s[1..])
    else if |s| >= 2 && s[0] == '}' && s[1] == '}' then Some(Match(name, s[2..]))
    else None
  }

  function Closing(after: string, rest: string): string {
    after + (['}', '}'] + rest)
  }

  /** A reference to `name` with this padding, followed by `rest`. */
  function Reference(before: string, name: string, after: string, rest: string): string {
    ['{', '{'] + (before + (name + Closing(after, rest)))
  }

  lemma {:induction false} AfterMatches(name: string, after: string, rest: string)
    requires AllSpace(after)
    ensures MatchAfter(name, Closing(after, rest)) == Some(Match(name, rest))
  {
    var s := Closing(after, rest);
    if after == "" {
      assert s[2..] == rest;
    } else {
      assert s[1..] == Closing(after[1..], rest);
      AfterMatches(name, after[1..], rest);
    }
  }

  lemma {:induction false} NameMatches(start: string, name: string, after: string, rest: string)
    requires AllName(name) && AllSpace(after)
    ensures MatchName(start, name + Closing(after, rest)) == Some(Match(start + name, rest))
    decreases |name|
  {
    var s := name + Closing(after, rest);
    if name == "" {
      assert s == Closing(after, rest) && start + name == start;
      AfterMatches(start, after, rest);
      assert s[0] == if after == "" then '}' else after[0];
    } else {
      assert s[1..] == name[1..] + Closing(after, rest);
      NameMatches(start + [name[0]], name[1..], after, rest);
      assert start + [name[0]] + name[1..] == start + name;
    }
  }

  lemma {:induction false} BeforeMatches(before: string, name: string, after: string, rest: string)
    requires AllSpace(before) && IsName(name) && AllSpace(after)
    ensures MatchBefore(before + (name + Closing(after, rest))) == Some(Match(name, rest))
  {
    var s := before + (name + Closing(after, rest));
    if before == "" {
      assert s == name + Closing(after, rest);
      assert s[1..] == name[1..] + Closing(after, rest);
      NameMatches([name[0]], name[1..], after, rest);
      assert [name[0]] + name[1..] == name;
    } else {
      assert s[1..] == before[1..] + (name + Closing(after, rest));
      BeforeMatches(before[1..], name, after, rest);
    }
  }

  lemma ReferenceMatches(before: string, name: string, after: string, rest: string)
    requires AllSpace(before) && IsName(name) && AllSpace(after)
    ensures MatchHere(Reference(before, name, after, rest)) == Some(Match(name, rest))
  {
    assert Reference(before, name, after, rest)[2..] == before + (name + Closing(after, rest));
    BeforeMatches(before, name, after, rest);
  }

  lemma Associate(a: string, b: string, c: string)
    ensures a + (b + c) == (a + b) + c
    ensures |a| == 1 ==> (a + b)[0] == a[0] && (a + b)[1..] == b
  {
  }

  lemma {:induction false} AfterInverts(name: string, s: string) returns (after: string)
    requires MatchAfter(name, s).Some?
    ensures var m := MatchAfter(name, s).value; m.name == name && AllSpace(after) && s == Closing(after, m.rest)
  {
    if IsSpace(s[0]) {
      var tail := AfterInverts(name, s[1..]);
      after := [s[0]] + tail;
      Associate([s[0]], tail, ['}', '}'] + MatchAfter(name, s).value.rest);
    } else {
      after := "";
      assert s == ['}', '}'] + s[2..];
    }
  }

  lemma {:induction false} NameInverts(start: string, s: string) returns (name: string, after: string)
    requires MatchName(start, s).Some?
    ensures var m := MatchName(start, s).value;
            m.name == start + name && AllName(name) && AllSpace(after) && s == name + Closing(after, m.rest)
    decreases |s|
  {
    if IsNameChar(s[0]) {
      var tail;
      tail, after := NameInverts(start + [s[0]], s[1..]);
      name := [s[0]] + tail;
      Associate([s[0]], tail, Closing(after, MatchName(start, s).value.rest));
      Associate(start, [s[0]], tail);
    } else {
      after := AfterInverts(start, s);
      name := "";
      assert start + name == start;
    }
  }

  lemma {:induction false} BeforeInverts(s: string) returns (before: string, after: string)
    requires MatchBefore(s).Some?
    ensures var m := MatchBefore(s).value;
            AllSpace(before) && IsName(m.name) && AllSpace(after) && s == before + (m.name + Closing(after, m.rest))
  {
    var m := MatchBefore(s).value;
    if IsSpace(s[0]) {
      var tail;
      tail, after := BeforeInverts(s[1..]);
      before := [s[0]] + tail;
      Associate([s[0]], tail, m.name + Closing(after, m.rest));
    } else {
      var name;
      name, after := NameInverts([s[0]], s[1..]);
      before := "";
      Associate([s[0]], name, Closing(after, m.rest));
      assert before + (m.name + Closing(after, m.rest)) == m.name + Closing(after, m.rest);
    }
  }

  /** `s` starts with a reference to `name` and goes on with `rest`: what the pattern describes. */
  ghost predicate StartsWithReference(s: string, name: string, rest: string) {
    && name != "" && Naming(name)
    && exists before, after :: Blank(before) && Blank(after) && s == "{{" + before + name + after + "}}" + rest
  }

  /** Nothing but capital letters, digits and underscores. */
  ghost predicate Naming(s: string) {
    forall c :: c in s ==> 'A' <= c <= 'Z' || '0' <= c <= '9' || c == '_'
  }

  /** Nothing but the six characters of ASCII whitespace. */
  ghost predicate Blank(s: string) {
    forall c :: c in s ==> c in " \t\n\r\U{B}\U{C}"
  }

  lemma {:induction false} AllSpaceIsBlank(s: string)
    ensures AllSpace(s) <==> Blank(s)
  {
    if s != "" {
      assert s == [s[0]] + s[1..];
      assert forall c :: c in " \t\n\r\U{B}\U{C}" <==> IsSpace(c) by {
        var spaces := " \t\n\r\U{B}\U{C}";
        assert spaces[0] == ' ' && spaces[1] == '\t' && spaces[2] == '\n' && spaces[3] == '\r';
        assert spaces[4] == '\U{B}' && spaces[5] == '\U{C}';
      }
      AllSpaceIsBlank(s[1..]);
    }
  }

  lemma {:induction false} AllNameIs(s: string)
    ensures AllName(s) <==> Naming(s)
  {
    if s != "" {
      assert s == [s[0]] + s[1..];
      AllNameIs(s[1..]);
      if Naming(s) {
        assert s[0] in s && forall c :: c in s[1..] ==> c in s;
      } else {
        var c :| c in s && !IsNameChar(c);
        assert c == s[0] || c in s[1..];
      }
    }
  }

  lemma ReferenceText(before: string, name: string, after: string, rest: string)
    ensures Reference(before, name, after, rest) == "{{" + before + name + after + "}}" + rest
  {
  }

  /** One pass without backtracking finds exactly what the pattern allows, and there is only one way to match. */
  lemma MatchHereIsPattern(s: string, name: string, rest: string)
    ensures MatchHere(s) == Some(Match(name, rest)) <==> StartsWithReference(s, name, rest)
  {
    AllNameIs(name);
    if MatchHere(s) == Some(Match(name, rest)) {
      var before, after := BeforeInverts(s[2..]);
      AllSpaceIsBlank(before);
      AllSpaceIsBlank(after);
      assert s == ['{', '{'] + s[2..] == Reference(before, name, after, rest);
      ReferenceText(before, name, after, rest);
    }
    if StartsWithReference(s, name, rest) {
      PatternMatches(s, name, rest);
    }
  }

  lemma PatternMatches(s: string, name: string, rest: string)
    requires StartsWithReference(s, name, rest)
    ensures MatchHere(s) == Some(Match(name, rest))
  {
    var before, after :| Blank(before) && Blank(after) && s == "{{" + before + name + after + "}}" + rest;
    AllNameIs(name);
    AllSpaceIsBlank(before);
    AllSpaceIsBlank(after);
    ReferenceText(before, name, after, rest);
    ReferenceMatches(before, name, after, rest);
  }

  // ----- Substitution -----

  function ValueOf(env: Environment, name: string): string {
    if name in env then env[name] else ""
  }

  /** Replaces every match, from left to right; substituted text is not looked at again. */
  function Substitute(env: Environment, s: string): string
    decreases |s|
  {
    if s == "" then ""
    else match MatchHere(s)
      case Some(m) => ValueOf(env, m.name) + Substitute(env, m.rest)
      case None => [s[0]] + Substitute(env, s[1..])
  }

  /** Some reference starts at `i`. */
  ghost predicate ReferenceAt(s: string, i: int) {
    0 <= i <= |s| && exists name, rest :: StartsWithReference(s[i..], name, rest)
  }

  /**
    What substitution does to any text at all. Up to the leftmost reference everything is copied; the reference is
    replaced by its variable's value, nothing if it is not set, and substitution goes on behind it.
  */
  lemma {:induction false} SubstituteLeftmost(env: Environment, s: string, i: nat, name: string, rest: string)
    requires i <= |s| && StartsWithReference(s[i..], name, rest)
    requires forall j :: 0 <= j < i ==> !ReferenceAt(s, j)
    ensures Substitute(env, s) == s[..i] + ((if name in env then env[name] else "") + Substitute(env, rest))
  {
    if i == 0 {
      assert s[0..] == s;
      MatchHereIsPattern(s, name, rest);
      assert s[..0] == "";
    } else {
      NoReferenceHere(s);
      assert s[i..] == s[1..][i - 1..];
      forall j | 0 <= j < i - 1 ensures !ReferenceAt(s[1..], j) {
        assert s[1..][j..] == s[j + 1..];
        assert !ReferenceAt(s, j + 1);
      }
      SubstituteLeftmost(env, s[1..], i - 1, name, rest);
      assert s[..i] == [s[0]] + s[1..][..i - 1];
    }
  }

  lemma NoReferenceHere(s: string)
    requires !ReferenceAt(s, 0)
    ensures MatchHere(s) == None
  {
    assert s[0..] == s;
    if MatchHere(s).Some? {
      var m := MatchHere(s).value;
      MatchHereIsPattern(s, m.name, m.rest);
    }
  }

  /** Text without a reference anywhere is left alone. */
  lemma {:induction false} SubstituteLeavesAlone(env: Environment, s: string)
    requires forall i :: 0 <= i <= |s| ==> !ReferenceAt(s, i)
    ensures Substitute(env, s) == s
  {
    HasReferenceIff(s);
    WithoutReference(env, s);
  }

  lemma {:induction false} HasReferenceIff(s: string)
    ensures HasReference(s) <==> exists i :: ReferenceAt(s, i)
  {
    assert s[0..] == s;
    if MatchHere(s).Some? {
      var m := MatchHere(s).value;
      MatchHereIsPattern(s, m.name, m.rest);
      assert ReferenceAt(s, 0);
    } else {
      forall name, rest ensures !StartsWithReference(s, name, rest) {
        MatchHereIsPattern(s, name, rest);
      }
      if s != "" {
        HasReferenceIff(s[1..]);
        assert forall i :: 0 < i <= |s| ==> s[i..] == s[1..][i - 1..];
        assert forall i :: 0 < i <= |s| ==> (ReferenceAt(s, i) <==> ReferenceAt(s[1..], i - 1));
        if i :| ReferenceAt(s[1..], i) {
          assert ReferenceAt(s, i + 1);
        }
      }
    }
  }

  /** Text interleaved with references. */
  datatype Template =
    | End(text: string)
    | Then(text: string, before: string, name: string, after: string, rest: Template)

  predicate HasNoOpening(s: string) {
    s == "" || ((|s| == 1 || s[0] != '{' || s[1] != '{') && HasNoOpening(s[1..]))
  }

  predicate WellFormed(t: Template) {
    && HasNoOpening(t.text)
    && (t.Then? ==> AllSpace(t.before) && IsName(t.name) && AllSpace(t.after) && WellFormed(t.rest))
  }

  function Render(t: Template): string {
    match t
    case End(text) => text
    case Then(text, before, name, after, rest) => text + Reference(before, name, after, Render(rest))
  }

  function Meaning(env: Environment, t: Template): string {
    match t
    case End(text) => text
    case Then(text, _, name, _, rest) => text + ((if name in env then env[name] else "") + Meaning(env, rest))
  }

  lemma NoMatchInText(text: string, tail: string)
    requires HasNoOpening(text) && text != ""
    requires tail == "" || (|tail| >= 2 && tail[0] == '{' && tail[1] == '{')
    ensures MatchHere(text + tail) == None
  {
    var s := text + tail;
    if |text| == 1 && |s| >= 2 {
      assert s[2..][0] == '{';
    }
  }

  /** Literal text is copied up to what follows it, even when it ends in a brace right before a reference. */
  lemma {:induction false} TextIsCopied(env: Environment, text: string, tail: string)
    requires HasNoOpening(text)
    requires tail == "" || (|tail| >= 2 && tail[0] == '{' && tail[1] == '{')
    ensures Substitute(env, text + tail) == text + Substitute(env, tail)
  {
    if text == "" {
      assert text + tail == tail;
      assert text + Substitute(env, tail) == Substitute(env, tail);
    } else {
      NoMatchInText(text, tail);
      assert text == [text[0]] + text[1..];
      Associate([text[0]], text[1..], tail);
      TextIsCopied(env, text[1..], tail);
      Associate([text[0]], text[1..], Substitute(env, tail));
    }
  }

  /**
    Template round trip: substituting in the rendering of a template gives its literal text with each
    reference replaced by its variable's value, whatever the padding and the environment.
  */
  lemma {:induction false} SubstituteRendered(env: Environment, t: Template)
    requires WellFormed(t)
    ensures Substitute(env, Render(t)) == Meaning(env, t)
  {
    match t
    case End(text) =>
      TextIsCopied(env, text, "");
      assert text + "" == text;
    case Then(text, before, name, after, rest) =>
      TextIsCopied(env, text, Reference(before, name, after, Render(rest)));
      ReferenceMatches(before, name, after, Render(rest));
      SubstituteRendered(env, rest);
  }

  // ----- A second pass -----

  function Braces(s: string): nat {
    if s == "" then 0 else (if s[0] == '{' || s[0] == '}' then 1 else 0) + Braces(s[1..])
  }

  ghost predicate ValuesBraceFree(env: Environment) {
    forall name :: name in env ==> Braces(env[name]) == 0
  }

  predicate HasReference(s: string) {
    s != "" && (MatchHere(s).Some? || HasReference(s[1..]))
  }

  lemma {:induction false} BracesConcat(a: string, b: string)
    ensures Braces(a + b) == Braces(a) + Braces(b)
  {
    if a == "" {
      assert a + b == b;
    } else {
      assert (a + b)[1..] == a[1..] + b;
      BracesConcat(a[1..], b);
    }
  }

  lemma MatchHasBraces(s: string)
    requires MatchHere(s).Some?
    ensures Braces(s) > Braces(MatchHere(s).value.rest)
  {
    var m := MatchHere(s).value;
    var before, after := BeforeInverts(s[2..]);
    BracesConcat(before, m.name + Closing(after, m.rest));
    BracesConcat(m.name, Closing(after, m.rest));
    BracesConcat(after, ['}', '}'] + m.rest);
    BracesConcat(['}', '}'], m.rest);
    assert s[1..][1..] == s[2..];
  }

  lemma {:induction false} WithoutReference(env: Environment, s: string)
    requires !HasReference(s)
    ensures Substitute(env, s) == s
  {
    if s != "" {
      WithoutReference(env, s[1..]);
    }
  }

  /** Substituting brace-free values removes braces as soon as there is a reference. */
  lemma {:induction false} ReferencesLoseBraces(env: Environment, s: string)
    requires ValuesBraceFree(env)
    ensures Braces(Substitute(env, s)) <= Braces(s)
    ensures HasReference(s) ==> Braces(Substitute(env, s)) < Braces(s)
    decreases |s|
  {
    if s != "" {
      match MatchHere(s)
      case Some(m) =>
        MatchHasBraces(s);
        ReferencesLoseBraces(env, m.rest);
        BracesConcat(ValueOf(env, m.name), Substitute(env, m.rest));
      case None =>
        ReferencesLoseBraces(env, s[1..]);
        assert ([s[0]] + Substitute(env, s[1..]))[1..] == Substitute(env, s[1..]);
    }
  }

  /**
    Configuration read through `from_toml` is substituted twice, through `from_str` once. Both parse the same
    text if the first pass leaves no reference behind, and only then if no value contains a brace.
  */
  lemma SecondPassIdleIff(env: Environment, s: string)
    ensures var once := Substitute(env, s);
            && (!HasReference(once) ==> Substitute(env, once) == once)
            && (ValuesBraceFree(env) ==> (Substitute(env, once) == once <==> !HasReference(once)))
  {
    var once := Substitute(env, s);
    if !HasReference(once) {
      WithoutReference(env, once);
    } else if ValuesBraceFree(env) {
      ReferencesLoseBraces(env, once);
    }
  }

  /**
    For a template the same, told from its meaning: whether literals and values make up a reference where they
    meet.
  */
  lemma ReadersAgreeIff(env: Environment, t: Template)
    requires WellFormed(t)
    ensures var once := Substitute(env, Render(t));
            && (!HasReference(Meaning(env, t)) ==> Substitute(env, once) == once)
            && (ValuesBraceFree(env) ==> (Substitute(env, once) == once <==> !HasReference(Meaning(env, t))))
  {
    SubstituteRendered(env, t);
    SecondPassIdleIff(env, Render(t));
  }

  /** No literal and no value used by the template contains `c`. */
  predicate Lacks(env: Environment, t: Template, c: char) {
    c !in t.text && (t.Then? ==> c !in ValueOf(env, t.name) && Lacks(env, t.rest, c))
  }

  lemma {:induction false} MeaningLacks(env: Environment, t: Template, c: char)
    requires Lacks(env, t, c)
    ensures c !in Meaning(env, t)
  {
    if t.Then? {
      MeaningLacks(env, t.rest, c);
    }
  }

  /** A reference takes braces of both kinds. */
  lemma {:induction false} ReferenceHasBothBraces(s: string)
    requires HasReference(s)
    ensures '{' in s && '}' in s
  {
    if MatchHere(s).Some? {
      var m := MatchHere(s).value;
      var before, after := BeforeInverts(s[2..]);
      var closing := |before| + |m.name| + |after|;
      assert s[2..] == before + m.name + after + ['}', '}'] + m.rest;
      assert s[2..][closing] == '}';
    } else {
      ReferenceHasBothBraces(s[1..]);
    }
  }

  /** If one of the two braces occurs in no literal and no value, both readers parse the template's meaning. */
  lemma BothReadersAgree(env: Environment, t: Template, c: char)
    requires WellFormed(t) && (c == '{' || c == '}') && Lacks(env, t, c)
    ensures Substitute(env, Render(t)) == Meaning(env, t)
    ensures Substitute(env, Substitute(env, Render(t))) == Meaning(env, t)
  {
    SubstituteRendered(env, t);
    MeaningLacks(env, t, c);
    if HasReference(Meaning(env, t)) {
      ReferenceHasBothBraces(Meaning(env, t));
    } else {
      WithoutReference(env, Meaning(env, t));
    }
  }

  lemma {:induction false} BraceFreeIsNoReference(value: string, name: string)
    requires Braces(value) == 0
    ensures value != Reference("", name, "", "")
  {
  }

  lemma {:induction false} NameHasNoOpening(name: string)
    requires AllName(name)
    ensures HasNoOpening(name + ['}', '}'])
  {
    var s := name + ['}', '}'];
    if name == "" {
      assert s == ['}', '}'] && s[1..] == ['}'] && s[1..][1..] == "";
    } else {
      assert s[1..] == name[1..] + ['}', '}'];
      NameHasNoOpening(name[1..]);
    }
  }

  /** A brace before a reference to a variable that is not set ends up before the text behind the reference. */
  lemma UnsetClosesUp(env: Environment, a: string, rest: string)
    requires IsName(a) && a !in env && HasNoOpening(rest)
    ensures Substitute(env, ['{'] + Reference("", a, "", rest)) == ['{'] + rest
  {
    SubstituteRendered(env, Then(['{'], "", a, "", End(rest)));
    assert ValueOf(env, a) + rest == rest;
  }

  lemma SoleReference(env: Environment, name: string)
    requires IsName(name)
    ensures Substitute(env, Reference("", name, "", "")) == ValueOf(env, name)
  {
    ReferenceMatches("", name, "", "");
    assert ValueOf(env, name) + "" == ValueOf(env, name);
  }

  /**
    The condition on literals is needed even when no value contains a brace: around a variable that is not
    set, the braces of `{{{A}}{B}}` close up to a reference that only the second substitution resolves.
  */
  lemma LiteralsCanCloseUp(env: Environment, a: string, b: string)
    requires ValuesBraceFree(env) && IsName(a) && IsName(b) && a !in env
    ensures var text := ['{'] + Reference("", a, "", ['{'] + (b + ['}', '}']));
            var once := Substitute(env, text);
            && once == Reference("", b, "", "")
            && Substitute(env, once) == ValueOf(env, b) != once
  {
    var rest := ['{'] + (b + ['}', '}']);
    NameHasNoOpening(b);
    assert HasNoOpening(rest) by {
      assert rest[1..] == b + ['}', '}'] && rest[1] == b[0];
    }
    UnsetClosesUp(env, a, rest);
    assert ['{'] + rest == Reference("", b, "", "");
    SoleReference(env, b);
    BraceFreeIsNoReference(ValueOf(env, b), b);
  }

  /** So is the condition on values: the readers differ when a value is itself a reference. */
  lemma ReadersCanDiffer(env: Environment, a: string, b: string)
    requires IsName(a) && IsName(b) && a != b && a in env && b in env
    requires env[a] == Reference("", b, "", "") && env[b] != env[a]
    ensures Substitute(env, Reference("", a, "", "")) == env[a]
    ensures Substitute(env, Substitute(env, Reference("", a, "", ""))) == env[b]
  {
    SoleReference(env, a);
    SoleReference(env, b);
  }
}
