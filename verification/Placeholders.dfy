/**
 Environment placeholders: the catalog rewriting of `${VAR}` to `{env:VAR}`, and the substitution that gives both
 their meaning.
 */
module Placeholders {
  import opened Utf8
  import opened Text

  const ENV_OPEN: string := "{env:"
  const BRACE_OPEN: string := "${"

  // ---- identifiers ----

  predicate IsIdentStart(c: char) {
    'a' <= c <= 'z' || 'A' <= c <= 'Z' || c == '_'
  }

  predicate IsIdentChar(c: char) {
    IsIdentStart(c) || '0' <= c <= '9'
  }

  /** How many identifier characters `s` starts with. */
  function IdentRun(s: string): (n: nat)
    ensures n <= |s|
  {
    if s != [] && IsIdentChar(s[0]) then 1 + IdentRun(s[1..]) else 0
  }

  predicate IsIdent(s: string) {
    s != [] && IsIdentStart(s[0]) && IdentRun(s) == |s|
  }

  /** Length of the identifier `s` starts with; 0 if it starts with none. */
  function IdentPrefix(s: string): (n: nat)
    ensures n <= |s|
  {
    if s == [] || !IsIdentStart(s[0]) then 0 else IdentRun(s)
  }

  method IdentPrefixLen(s: string) returns (end: nat)
    ensures end == IdentPrefix(s)
  {
    end := 0;
    if s == [] || !IsIdentStart(s[0]) {
      return;
    }
    var i := 0;
    while i < |s|
      invariant end == i <= |s|
      invariant IdentRun(s) == i + IdentRun(s[i..])
    {
      if IsIdentChar(s[i]) {
        end := i + 1;
      } else {
        break;
      }
      i := i + 1;
      assert s[i - 1..][1..] == s[i..];
    }
  }

  // ---- the catalog rewriting ----

  /** A reference opened by `open`: its name and its length, when there is a closing brace. */
  function Closed(s: string, open: string): (found: Option<string>)
    ensures found.Some? ==> open + found.value + "}" <= s && '}' !in found.value
  {
    if open <= s && FirstIndex(s[|open|..], '}') < |s| - |open| then
      var end := FirstIndex(s[|open|..], '}');
      assert s == open + s[|open|..];
      Some(s[|open|..][..end])
    else None
  }

  lemma Opens(s: string)
    ensures ENV_OPEN <= s ==> s[0] == '{'
    ensures BRACE_OPEN <= s <==> |s| >= 2 && s[0] == '$' && s[1] == '{'
  {
  }

  /** How the rewriting goes on: `{env:…}` is kept whole, `${VAR}` is replaced, anything else gives one character. */
  datatype Step = Whole(name: string) | Braced(name: string) | Literal

  function NextStep(s: string): (step: Step)
    ensures step.Whole? ==> ENV_OPEN + step.name + "}" <= s
    ensures step.Braced? ==> BRACE_OPEN + step.name + "}" <= s
  {
    var whole, braced := Closed(s, ENV_OPEN), Closed(s, BRACE_OPEN);
    if whole.Some? then Whole(whole.value)
    else if braced.Some? && IsIdent(braced.value) then Braced(braced.value)
    else Literal
  }

  /** How much of `s` a step reads. */
  function Taken(s: string): (n: nat)
    requires s != []
    ensures 0 < n <= |s|
  {
    match NextStep(s)
    case Whole(name) => |name| + 6
    case Braced(name) => |name| + 3
    case Literal => 1
  }

  /** What a step writes. */
  function Written(s: string): string
    requires s != []
  {
    match NextStep(s)
    case Whole(name) => ENV_OPEN + name + "}"
    case Braced(name) => ENV_OPEN + name + "}"
    case Literal => [s[0]]
  }

  /** `rewrite_catalog_placeholders`. */
  function Rewrite(s: string): string {
    if s == [] then [] else Written(s) + Rewrite(s[Taken(s)..])
  }

  lemma RewriteStep(out: string, s: string)
    requires s != []
    ensures out + Written(s) + Rewrite(s[Taken(s)..]) == out + Rewrite(s)
  {
  }

  method RewriteCatalogPlaceholders(input: string) returns (out: string)
    ensures out == Rewrite(input)
  {
    out := [];
    var rest := input;
    while rest != []
      invariant out + Rewrite(rest) == Rewrite(input)
      decreases |rest|
    {
      RewriteStep(out, rest);
      match NextStep(rest) {
        case Whole(name) =>
          var take := 5 + |name| + 1;
          assert rest[..take] == ENV_OPEN + name + "}";
          out := out + rest[..take];
          rest := rest[take..];
        case Braced(name) =>
          ConcatAssoc(out, ENV_OPEN + name, "}");
          ConcatAssoc(out, ENV_OPEN, name);
          out := out + ENV_OPEN + name + "}";
          rest := rest[2 + |name| + 1..];
        case Literal =>
          out := out + [rest[0]];
          rest := rest[1..];
      }
    }
    assert out + [] == out;
  }

  // ---- substitution ----

  datatype Subst = Keep(text: string) | Unset

  function Plus(a: Subst, b: Subst): Subst {
    if a.Unset? || b.Unset? then Unset else Keep(a.text + b.text)
  }

  /** The environment: `None` for a variable that is not set or not Unicode. */
  type Env = string -> Option<string>

  function Lookup(env: Env, name: string): Subst {
    match env(name)
    case Some(v) => if Trim(v) != "" then Keep(v) else Unset
    case None => Unset
  }

  /** A reference at the start of `s`, and how many characters it takes. */
  function MatchEnvRef(s: string): (found: Option<(string, nat)>)
    ensures found.Some? ==> 0 < found.value.1 <= |s|
  {
    if ENV_OPEN <= s then
      match Closed(s, ENV_OPEN)
      case Some(name) => if IsIdent(name) then Some((name, 5 + |name| + 1)) else None
      case None => None
    else if BRACE_OPEN <= s then
      match Closed(s, BRACE_OPEN)
      case Some(name) => if IsIdent(name) then Some((name, 2 + |name| + 1)) else None
      case None => None
    else if "$" <= s && IdentPrefix(s[1..]) > 0 then
      Some((s[1..][..IdentPrefix(s[1..])], 1 + IdentPrefix(s[1..])))
    else None
  }

  /** What the front of `s` stands for: a reference its value, any other character itself. */
  function Front(env: Env, s: string): Subst
    requires s != []
  {
    match MatchEnvRef(s)
    case Some(found) => Lookup(env, found.0)
    case None => Keep([s[0]])
  }

  function FrontLength(s: string): (n: nat)
    requires s != []
    ensures 0 < n <= |s|
  {
    match MatchEnvRef(s)
    case Some(found) => found.1
    case None => 1
  }

  /** `subst_string`. */
  function Substitute(env: Env, s: string): Subst {
    if s == [] then Keep([]) else Plus(Front(env, s), Substitute(env, s[FrontLength(s)..]))
  }

  /** The result of `subst_string` from what it has built. */
  function Outcome(out: string, unset: bool): Subst {
    if unset then Unset else Keep(out)
  }

  /** The result when the loop stands at `i`. */
  function ResultFrom(env: Env, out: string, unset: bool, input: string, i: nat): Subst
    requires i <= |input|
  {
    Plus(Outcome(out, unset), Substitute(env, input[i..]))
  }

  lemma StepOverReference(env: Env, out: string, unset: bool, input: string, i: nat, name: string, n: nat)
    requires i < |input| && MatchEnvRef(input[i..]) == Some((name, n))
    ensures Lookup(env, name).Keep? ==>
              ResultFrom(env, out + Lookup(env, name).text, unset, input, i + n) == ResultFrom(env, out, unset, input, i)
    ensures Lookup(env, name).Unset? ==>
              ResultFrom(env, out, true, input, i + n) == ResultFrom(env, out, unset, input, i)
  {
    var rest := input[i..];
    assert rest[n..] == input[i + n..];
    PlusAssoc(Outcome(out, unset), Lookup(env, name), Substitute(env, rest[n..]));
  }

  lemma StepOverCharacter(env: Env, out: string, unset: bool, input: string, i: nat)
    requires i < |input| && MatchEnvRef(input[i..]) == None
    ensures ResultFrom(env, out + [input[i]], unset, input, i + 1) == ResultFrom(env, out, unset, input, i)
  {
    var rest := input[i..];
    assert rest[1..] == input[i + 1..];
    PlusAssoc(Outcome(out, unset), Keep([input[i]]), Substitute(env, rest[1..]));
  }

  lemma ResultStarts(env: Env, input: string)
    ensures ResultFrom(env, [], false, input, 0) == Substitute(env, input)
  {
  }

  lemma ResultEnds(env: Env, out: string, unset: bool, input: string)
    ensures ResultFrom(env, out, unset, input, |input|) == Outcome(out, unset)
  {
  }

  method SubstString(env: Env, input: string) returns (result: Subst)
    ensures result == Substitute(env, input)
  {
    hide Substitute, ResultFrom, Lookup;
    var out, unset, i := [], false, 0;
    ResultStarts(env, input);
    while i < |input|
      invariant 0 <= i <= |input|
      invariant ResultFrom(env, out, unset, input, i) == Substitute(env, input)
    {
      match MatchEnvRef(input[i..]) {
        case Some((name, consumed)) =>
          StepOverReference(env, out, unset, input, i, name, consumed);
          var value := Lookup(env, name);
          if value.Keep? {
            out := out + value.text;
          } else {
            unset := true;
          }
          i := i + consumed;
        case None =>
          StepOverCharacter(env, out, unset, input, i);
          out := out + [input[i]];
          i := i + 1;
      }
    }
    ResultEnds(env, out, unset, input);
    result := if unset then Unset else Keep(out);
  }

  lemma PlusAssoc(a: Subst, b: Subst, c: Subst)
    ensures Plus(a, Plus(b, c)) == Plus(Plus(a, b), c)
  {
  }

  // ---- a closing brace cuts the text ----

  predicate EndsClosed(x: string) {
    x != [] && x[|x| - 1] == '}'
  }

  lemma FindLocal(a: string, c: char, w: string)
    requires c in a
    ensures FirstIndex(a + w, c) == FirstIndex(a, c) < |a|
  {
    var at := FirstIndex(a, c);
    assert a[..|a|] == a;
    FindAfter(a[..at], c, a[at + 1..] + w);
    assert a + w == a[..at] + [c] + (a[at + 1..] + w);
  }

  lemma OpensLocally(x: string, w: string, open: string)
    requires EndsClosed(x) && '}' !in open
    ensures open <= x + w <==> open <= x
  {
    assert (x + w)[|x| - 1] == '}';
  }

  lemma ClosedLocally(x: string, w: string, open: string)
    requires EndsClosed(x) && '}' !in open
    ensures Closed(x + w, open) == Closed(x, open)
  {
    OpensLocally(x, w, open);
    if open <= x {
      assert x[|x| - 1] == '}';
      var rest := x[|open|..];
      assert rest[|rest| - 1] == '}';
      FindLocal(rest, '}', w);
      assert (x + w)[|open|..] == rest + w;
      var at := FirstIndex(rest, '}');
      assert (rest + w)[..at] == rest[..at];
    }
  }

  lemma {:induction false} RunsLocally(x: string, w: string)
    requires EndsClosed(x)
    ensures IdentRun(x + w) == IdentRun(x)
  {
    assert (x + w)[0] == x[0];
    if IsIdentChar(x[0]) {
      RunsLocally(x[1..], w);
      assert (x + w)[1..] == x[1..] + w;
    }
  }

  lemma MatchesLocally(x: string, w: string)
    requires EndsClosed(x)
    ensures MatchEnvRef(x + w) == MatchEnvRef(x)
  {
    hide Closed, IsIdent, IdentRun;
    OpensLocally(x, w, ENV_OPEN);
    OpensLocally(x, w, BRACE_OPEN);
    OpensLocally(x, w, "$");
    ClosedLocally(x, w, ENV_OPEN);
    ClosedLocally(x, w, BRACE_OPEN);
    if "$" <= x {
      var rest := x[1..];
      RunsLocally(rest, w);
      assert (x + w)[1..] == rest + w;
      assert (rest + w)[0] == rest[0];
      assert IdentPrefix(rest + w) == IdentPrefix(rest);
      assert (rest + w)[..IdentPrefix(rest)] == rest[..IdentPrefix(rest)];
    }
  }

  lemma FrontLocally(env: Env, x: string, w: string)
    requires EndsClosed(x)
    ensures FrontLength(x + w) == FrontLength(x) && Front(env, x + w) == Front(env, x)
    ensures (x + w)[FrontLength(x)..] == x[FrontLength(x)..] + w
    ensures x[FrontLength(x)..] == [] || EndsClosed(x[FrontLength(x)..])
  {
    MatchesLocally(x, w);
    assert (x + w)[0] == x[0];
  }

  lemma KeepNothing(a: Subst)
    ensures Plus(Keep([]), a) == a
  {
  }

  /** No reference reaches over a closing brace. */
  lemma {:induction false} SubstitutionSplits(env: Env, x: string, w: string)
    requires x == [] || EndsClosed(x)
    ensures Substitute(env, x + w) == Plus(Substitute(env, x), Substitute(env, w))
    decreases |x|
  {
    if x == [] {
      assert x + w == w;
      KeepNothing(Substitute(env, w));
    } else {
      FrontLocally(env, x, w);
      var rest := x[FrontLength(x)..];
      SubstitutionSplits(env, rest, w);
      PlusAssoc(Front(env, x), Substitute(env, rest), Substitute(env, w));
    }
  }

  // ---- what the rewriting leaves alone ----

  lemma {:induction false} UnclosedIsKept(s: string)
    requires '}' !in s
    ensures Rewrite(s) == s
  {
    if s != [] {
      NothingClosed(s, ENV_OPEN);
      NothingClosed(s, BRACE_OPEN);
      UnclosedIsKept(s[1..]);
    }
  }

  lemma NothingClosed(s: string, open: string)
    requires '}' !in s
    ensures Closed(s, open) == None
  {
  }

  lemma {:induction false} PlainPrefixKept(p: string, t: string)
    requires '{' !in p && '$' !in p && p <= Rewrite(t)
    ensures p <= t
  {
    if p != [] {
      assert Rewrite(t)[0] == p[0] && p[0] in p;
      assert NextStep(t) == Literal;
      assert Rewrite(t)[1..] == Rewrite(t[1..]);
      PlainPrefixKept(p[1..], t[1..]);
    }
  }

  /** An identifier character is copied. */
  lemma CopiedFirst(t: string)
    requires t != [] && IsIdentChar(t[0])
    ensures NextStep(t) == Literal
    ensures Rewrite(t) == [t[0]] + Rewrite(t[1..]) && Rewrite(t)[0] == t[0] && Rewrite(t)[1..] == Rewrite(t[1..])
  {
  }

  /** Text that starts with no identifier character still starts with none. */
  lemma NoRunKept(t: string)
    requires t == [] || !IsIdentChar(t[0])
    ensures IdentRun(t) == IdentRun(Rewrite(t)) == 0
  {
  }

  lemma {:induction false} RunKept(t: string)
    ensures IdentRun(Rewrite(t)) == IdentRun(t)
    ensures Rewrite(t) == t[..IdentRun(t)] + Rewrite(t[IdentRun(t)..])
  {
    if t == [] || !IsIdentChar(t[0]) {
      NoRunKept(t);
      assert t[..0] + Rewrite(t[0..]) == Rewrite(t);
    } else {
      RunKept(t[1..]);
      CopiedFirst(t);
      PrefixGrows(t, IdentRun(t[1..]));
    }
  }

  lemma PrefixGrows(t: string, n: nat)
    requires t != [] && n < |t|
    ensures [t[0]] + (t[1..][..n] + Rewrite(t[1..][n..])) == t[..1 + n] + Rewrite(t[1 + n..])
  {
  }

  lemma {:induction false} IdentHasIdentChars(s: string, c: char)
    requires IdentRun(s) == |s| && c in s
    ensures IsIdentChar(c)
  {
    if s[0] != c {
      assert c in s[1..];
      IdentHasIdentChars(s[1..], c);
    }
  }

  lemma NotIdent(s: string, c: char)
    requires c in s && !IsIdentChar(c)
    ensures !IsIdent(s)
  {
    if IdentRun(s) == |s| {
      IdentHasIdentChars(s, c);
    }
  }

  /** The text before the first closing brace either stays, or holds an opening brace now. */
  lemma {:induction false} FirstClose(u: string)
    requires '}' in u
    ensures '}' in Rewrite(u)
    ensures var before, after := u[..FirstIndex(u, '}')], Rewrite(u)[..FirstIndex(Rewrite(u), '}')];
            before == after || '{' in after
  {
    match NextStep(u)
    case Whole(name) => OpensFirst(name, Rewrite(u[Taken(u)..]));
    case Braced(name) => OpensFirst(name, Rewrite(u[Taken(u)..]));
    case Literal =>
      if u[0] != '}' {
        assert '}' in u[1..];
        FirstClose(u[1..]);
        FindPast(u[0], u[1..], '}');
        assert u == [u[0]] + u[1..];
      }
      FindPast(u[0], Rewrite(u[1..]), '}');
  }

  lemma FindPast(head: char, rest: string, c: char)
    ensures var s := [head] + rest;
            && (head != c ==> s[..FirstIndex(s, c)] == [head] + rest[..FirstIndex(rest, c)])
            && (head == c ==> s[..FirstIndex(s, c)] == [])
            && (c in s <==> head == c || c in rest)
  {
  }

  lemma OpensFirst(name: string, w: string)
    requires '}' !in name
    ensures var r := ENV_OPEN + name + "}" + w;
            && '}' in r && '{' in r[..FirstIndex(r, '}')] && ':' in r[..FirstIndex(r, '}')]
  {
    var r := ENV_OPEN + name + "}" + w;
    FindAfter(ENV_OPEN + name, '}', w);
    assert r[..5 + |name|] == ENV_OPEN + name;
    assert r[5 + |name|] == '}';
    assert (ENV_OPEN + name)[0] == '{' && (ENV_OPEN + name)[4] == ':';
  }

  // ---- the rewriting keeps the meaning ----

  /** The character the rewriting copies, before the rest it rewrites. */
  function Copied(s: string): string
    requires s != []
  {
    [s[0]] + Rewrite(s[1..])
  }

  /** A dollar sign before a brace that opens no identifier is no reference, and is copied. */
  lemma NoReference(r: string)
    requires BRACE_OPEN <= r
    requires Closed(r, BRACE_OPEN).Some? ==> !IsIdent(Closed(r, BRACE_OPEN).value)
    ensures NextStep(r) == Literal && MatchEnvRef(r) == None
  {
    assert r[0] == '$';
    assert !(ENV_OPEN <= r);
  }

  lemma ClosedText(r: string, open: string)
    requires open <= r && '}' in r[|open|..]
    ensures Closed(r, open) == Some(r[|open|..][..FirstIndex(r[|open|..], '}')])
  {
  }

  lemma CopiesBrace(s: string)
    requires s != [] && s[0] == '{' && '}' in s && NextStep(s) == Literal
    ensures !(ENV_OPEN <= Copied(s))
  {
    if ENV_OPEN <= Copied(s) {
      assert Copied(s)[1..] == Rewrite(s[1..]);
      assert ENV_OPEN[1..] <= Rewrite(s[1..]);
      PlainPrefixKept(ENV_OPEN[1..], s[1..]);
    }
  }

  lemma KeepsUnnamed(u: string)
    requires '}' in u && !IsIdent(u[..FirstIndex(u, '}')])
    ensures var r := BRACE_OPEN + Rewrite(u);
            NextStep(r) == Literal && MatchEnvRef(r) == None
  {
    var r := BRACE_OPEN + Rewrite(u);
    FirstClose(u);
    assert r[2..] == Rewrite(u);
    ClosedText(r, BRACE_OPEN);
    var name := Rewrite(u)[..FirstIndex(Rewrite(u), '}')];
    if '{' in name {
      NotIdent(name, '{');
    }
    NoReference(r);
  }

  /** After `$`, a brace that opens no identifier still opens none once the text behind it is rewritten. */
  lemma CopiesDollarBrace(s: string)
    requires s != [] && '}' in s && NextStep(s) == Literal
    requires BRACE_OPEN <= s
    ensures NextStep(Copied(s)) == Literal && MatchEnvRef(Copied(s)) == None
  {
    hide MatchEnvRef, IsIdent;
    var t := s[1..];
    Opens(s);
    match NextStep(t)
    case Whole(name) =>
      OpensNoIdent(Copied(s), name, Rewrite(t[Taken(t)..]));
    case Braced(name) =>
      Opens(t);
    case Literal =>
      var u := s[2..];
      assert s == BRACE_OPEN + u;
      ClosedText(s, BRACE_OPEN);
      KeepsUnnamed(u);
      assert t[1..] == u;
      assert Copied(s) == BRACE_OPEN + Rewrite(u);
  }

  lemma OpensNoIdent(r: string, name: string, w: string)
    requires '}' !in name && r == ['$'] + (ENV_OPEN + name + "}" + w)
    ensures BRACE_OPEN <= r && NextStep(r) == Literal && MatchEnvRef(r) == None
  {
    var rest := "env:" + name;
    assert r == BRACE_OPEN + (rest + "}" + w);
    assert '}' !in rest;
    FindAfter(rest, '}', w);
    assert r[2..] == rest + "}" + w;
    assert (rest + "}" + w)[..|rest|] == rest;
    assert rest[3] == ':';
    NotIdent(rest, ':');
    NoReference(r);
  }

  /** A dollar sign before anything but a brace. */
  lemma CopiesDollar(s: string)
    requires s != [] && s[0] == '$' && !(BRACE_OPEN <= s)
    ensures NextStep(Copied(s)) == Literal
  {
    var t := s[1..];
    Opens(s);
    Opens(Copied(s));
    if t != [] {
      if BRACE_OPEN <= t && NextStep(t).Braced? {
        OpensNoIdent(Copied(s), NextStep(t).name, Rewrite(t[Taken(t)..]));
      } else {
        FirstCopied(t);
      }
    }
  }

  lemma FirstCopied(t: string)
    requires t != [] && t[0] != '{' && !NextStep(t).Braced?
    ensures Rewrite(t)[0] == t[0]
  {
  }

  /** A copied character is still copied once the text behind it is rewritten. */
  lemma StaysCopied(s: string)
    requires s != [] && '}' in s && NextStep(s) == Literal
    ensures NextStep(Copied(s)) == Literal
  {
    assert Copied(s)[0] == s[0];
    Opens(Copied(s));
    if s[0] == '{' {
      CopiesBrace(s);
    } else if BRACE_OPEN <= s {
      CopiesDollarBrace(s);
    } else if s[0] == '$' {
      CopiesDollar(s);
    }
  }

  /** A copied character means what it meant. */
  lemma CopyKeepsMeaning(s: string)
    requires s != [] && '}' in s && NextStep(s) == Literal
    ensures MatchEnvRef(Copied(s)) == MatchEnvRef(s)
    ensures MatchEnvRef(s).Some? ==> Copied(s)[FrontLength(s)..] == Rewrite(s[FrontLength(s)..])
  {
    var t := s[1..];
    if s[0] == '{' {
      CopiesBrace(s);
    } else if BRACE_OPEN <= s {
      CopiesDollarBrace(s);
    } else if s[0] == '$' {
      if t != [] && NextStep(t).Braced? {
        OpensNoIdent(Copied(s), NextStep(t).name, Rewrite(t[Taken(t)..]));
      } else {
        DollarName(s);
      }
    } else {
      assert Copied(s)[0] == s[0];
    }
  }

  lemma RewriteKeepsHead(t: string)
    requires t == [] || !NextStep(t).Braced?
    ensures if t == [] then Rewrite(t) == [] else Rewrite(t) != [] && Rewrite(t)[0] == t[0]
  {
  }

  lemma DollarName(s: string)
    requires s != [] && s[0] == '$' && !(BRACE_OPEN <= s) && (s[1..] == [] || !NextStep(s[1..]).Braced?)
    ensures MatchEnvRef(Copied(s)) == MatchEnvRef(s)
    ensures MatchEnvRef(s).Some? ==> Copied(s)[FrontLength(s)..] == Rewrite(s[FrontLength(s)..])
  {
    hide Closed, IsIdent, Rewrite;
    var t := s[1..];
    var r := Copied(s);
    assert r[1..] == Rewrite(t);
    RunKept(t);
    RewriteKeepsHead(t);
    assert IdentPrefix(Rewrite(t)) == IdentPrefix(t);
    var n := IdentPrefix(t);
    if n > 0 {
      assert Rewrite(t)[..n] == t[..n] && Rewrite(t)[n..] == Rewrite(t[n..]);
      assert r[1 + n..] == r[1..][n..];
      assert s[1 + n..] == t[n..];
    }
  }

  /** Both spellings of a reference. */
  lemma NamesSame(env: Env, name: string, w: string, v: string)
    requires IsIdent(name) && '}' !in name
    ensures Substitute(env, BRACE_OPEN + name + "}" + w) == Plus(Lookup(env, name), Substitute(env, w))
    ensures Substitute(env, ENV_OPEN + name + "}" + v) == Plus(Lookup(env, name), Substitute(env, v))
  {
    Opened(BRACE_OPEN, name, w);
    Opened(ENV_OPEN, name, v);
  }

  lemma Opened(open: string, name: string, w: string)
    requires '}' !in name
    ensures var s := open + name + "}" + w;
            open <= s && Closed(s, open) == Some(name) && s[|open| + |name| + 1..] == w
  {
    var s := open + name + "}" + w;
    FindAfter(name, '}', w);
    assert s[|open|..] == name + "}" + w;
    assert (name + "}" + w)[..|name|] == name;
  }

  lemma CopyStep(env: Env, s: string)
    requires s != [] && '}' in s && NextStep(s) == Literal
    requires Substitute(env, Rewrite(s[FrontLength(s)..])) == Substitute(env, s[FrontLength(s)..])
    ensures Substitute(env, Copied(s)) == Substitute(env, s)
  {
    CopyKeepsMeaning(s);
    assert Copied(s)[0] == s[0] && Copied(s)[1..] == Rewrite(s[1..]);
  }

  /** Catalog text means the same before and after the rewriting, in every environment. */
  lemma {:induction false} RewriteKeepsMeaning(env: Env, s: string)
    ensures Substitute(env, Rewrite(s)) == Substitute(env, s)
    decreases |s|
  {
    hide Substitute, Front, MatchEnvRef, Closed, IsIdent;
    if '}' !in s {
      UnclosedIsKept(s);
    } else {
      match NextStep(s)
      case Whole(name) =>
        var x, w := ENV_OPEN + name + "}", s[Taken(s)..];
        assert s == x + w;
        SubstitutionSplits(env, x, w);
        SubstitutionSplits(env, x, Rewrite(w));
        RewriteKeepsMeaning(env, w);
      case Braced(name) =>
        NamesSame(env, name, s[Taken(s)..], Rewrite(s[Taken(s)..]));
        assert s == BRACE_OPEN + name + "}" + s[Taken(s)..];
        RewriteKeepsMeaning(env, s[Taken(s)..]);
      case Literal =>
        RewriteKeepsMeaning(env, s[FrontLength(s)..]);
        CopyStep(env, s);
    }
  }

  /** Rewriting twice is rewriting once. */
  lemma {:induction false} RewriteTwice(s: string)
    ensures Rewrite(Rewrite(s)) == Rewrite(s)
    decreases |s|
  {
    if '}' !in s {
      UnclosedIsKept(s);
    } else {
      match NextStep(s)
      case Whole(name) =>
        Opened(ENV_OPEN, name, Rewrite(s[Taken(s)..]));
        RewriteTwice(s[Taken(s)..]);
      case Braced(name) =>
        Opened(ENV_OPEN, name, Rewrite(s[Taken(s)..]));
        RewriteTwice(s[Taken(s)..]);
      case Literal =>
        StaysCopied(s);
        RewriteTwice(s[1..]);
        assert Copied(s)[1..] == Rewrite(s[1..]);
    }
  }
}
