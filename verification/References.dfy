/** What the two spellings of an environment reference do, written out: in the catalog rewriting and in the substitution. */
module References {
  import opened Utf8
  import opened Text
  import opened Placeholders

  // ---- names ----

  predicate IsNameChar(c: char) {
    'a' <= c <= 'z' || 'A' <= c <= 'Z' || '0' <= c <= '9' || c == '_'
  }

  /** A letter or underscore, then letters, digits and underscores. */
  predicate IsName(s: string) {
    s != "" && !('0' <= s[0] <= '9') && forall c | c in s :: IsNameChar(c)
  }

  lemma {:induction false} RunOfNameChars(s: string)
    ensures IdentRun(s) == |s| <==> forall c | c in s :: IsNameChar(c)
  {
    if s != "" {
      RunOfNameChars(s[1..]);
      assert s[0] in s && forall c | c in s[1..] :: c in s;
      assert IsIdentChar(s[0]) <==> IsNameChar(s[0]);
      if IdentRun(s) == |s| {
        forall c | c in s ensures IsNameChar(c) {
          assert c == s[0] || c in s[1..];
        }
      }
    }
  }

  lemma IdentIsName(s: string)
    ensures IsIdent(s) <==> IsName(s)
  {
    RunOfNameChars(s);
    if s != "" {
      assert s[0] in s;
    }
  }

  lemma NameHas(name: string, c: char)
    requires IsName(name) && c in name
    ensures IsNameChar(c)
  {
  }

  // ---- the rewriting ----

  /** Every `${` and `{env:` in `x` is followed by a closing brace in `x`. */
  predicate NothingOpen(x: string) {
    forall i | 0 <= i < |x| :: "${" <= x[i..] || "{env:" <= x[i..] ==> '}' in x[i..]
  }

  lemma NothingOpenLater(x: string, n: nat)
    requires NothingOpen(x) && n <= |x|
    ensures NothingOpen(x[n..])
  {
    forall i | 0 <= i < |x| - n && ("${" <= x[n..][i..] || "{env:" <= x[n..][i..])
      ensures '}' in x[n..][i..]
    {
      assert x[n..][i..] == x[n + i..];
    }
  }

  /** What opens in `x + r` opens in `x`, unless it reaches over the end of `x`. */
  lemma OpensInside(x: string, r: string, open: string)
    requires open <= x + r && |open| <= |x|
    ensures open <= x
  {
  }

  lemma ClosesInside(x: string, r: string, open: string)
    requires '}' !in open && open <= x && '}' in x
    ensures Closed(x + r, open) == Closed(x, open) && Closed(x, open).Some?
  {
    var rest := x[|open|..];
    assert x == open + rest;
    assert '}' in rest;
    FindLocal(rest, '}', r);
    assert (x + r)[|open|..] == rest + r;
    var at := FirstIndex(rest, '}');
    assert (rest + r)[..at] == rest[..at];
  }

  /** Behind text that leaves nothing open a reference starts afresh. */
  lemma SameStep(x: string, r: string)
    requires x != "" && NothingOpen(x) && r != "" && r[0] == '$'
    ensures NextStep(x + r) == NextStep(x) && (x + r)[Taken(x)..] == x[Taken(x)..] + r && (x + r)[0] == x[0]
  {
    hide Closed, IsIdent;
    SameClosed(x, r, ENV_OPEN);
    SameClosed(x, r, BRACE_OPEN);
    assert Taken(x) <= |x|;
  }

  lemma SameClosed(x: string, r: string, open: string)
    requires x != "" && NothingOpen(x) && r != "" && r[0] == '$' && (open == ENV_OPEN || open == BRACE_OPEN)
    ensures Closed(x + r, open) == Closed(x, open)
  {
    assert x[0..] == x && (x + r)[|x|] == '$';
    if open <= x {
      ClosesInside(x, r, open);
    } else if open <= x + r {
      if |open| <= |x| {
        OpensInside(x, r, open);
      }
    }
  }

  lemma {:induction false} RewriteBehind(x: string, r: string)
    requires NothingOpen(x) && r != "" && r[0] == '$'
    ensures Rewrite(x + r) == Rewrite(x) + Rewrite(r)
    decreases |x|
  {
    if x == "" {
      assert x + r == r;
    } else {
      SameStep(x, r);
      NothingOpenLater(x, Taken(x));
      RewriteBehind(x[Taken(x)..], r);
      ConcatAssoc(Written(x), Rewrite(x[Taken(x)..]), Rewrite(r));
    }
  }

  /** `${NAME}` becomes `{env:NAME}` wherever nothing before it is open, and the text behind it is rewritten on its own. */
  lemma RewritesReference(x: string, name: string, w: string)
    requires NothingOpen(x) && IsName(name)
    ensures Rewrite(x + ("${" + name + "}" + w)) == Rewrite(x) + ("{env:" + name + "}" + Rewrite(w))
  {
    var r := "${" + name + "}" + w;
    IdentIsName(name);
    if '}' in name {
      NameHas(name, '}');
    }
    RewriteBehind(x, r);
    Opened(BRACE_OPEN, name, w);
    assert r[0] == '$';
    assert !(ENV_OPEN <= r);
    assert NextStep(r) == Braced(name);
    assert Rewrite(r) == ENV_OPEN + name + "}" + Rewrite(r[Taken(r)..]);
  }

  /** Text without an opening brace is left alone. */
  lemma {:induction false} PlainTextStays(x: string)
    requires '{' !in x
    ensures Rewrite(x) == x
    decreases |x|
  {
    if x != "" {
      assert x[0] in x;
      Opens(x);
      assert |x| > 1 ==> x[1] in x;
      assert NextStep(x) == Literal;
      PlainTextStays(x[1..]);
    }
  }

  // ---- nothing is left to rewrite ----

  /** No step through `s` finds a `${NAME}`. */
  predicate Settled(s: string)
    decreases |s|
  {
    s == "" || (!NextStep(s).Braced? && Settled(s[Taken(s)..]))
  }

  lemma {:induction false} RewrittenIsSettled(s: string)
    ensures Settled(Rewrite(s))
    decreases |s|
  {
    if '}' !in s {
      UnclosedIsKept(s);
      UnclosedIsSettled(s);
    } else {
      var rest := s[Taken(s)..];
      RewrittenIsSettled(rest);
      match NextStep(s)
      case Whole(name) => Opened(ENV_OPEN, name, Rewrite(rest));
      case Braced(name) => Opened(ENV_OPEN, name, Rewrite(rest));
      case Literal =>
        StaysCopied(s);
        assert Copied(s)[1..] == Rewrite(rest);
        assert Rewrite(s) == Copied(s);
    }
  }

  lemma {:induction false} UnclosedIsSettled(s: string)
    requires '}' !in s
    ensures Settled(s)
  {
    if s != "" {
      NothingClosed(s, ENV_OPEN);
      NothingClosed(s, BRACE_OPEN);
      UnclosedIsSettled(s[1..]);
    }
  }

  /** Position `i` of `s` lies inside a `{env:…}`. */
  predicate InsideReference(s: string, i: nat)
    requires i <= |s|
  {
    exists j | 0 <= j < i :: "{env:" <= s[j..] && '}' !in s[j..i]
  }

  lemma InsideLater(s: string, n: nat, i: nat)
    requires n <= i <= |s| && InsideReference(s[n..], i - n)
    ensures InsideReference(s, i)
  {
    var j :| 0 <= j < i - n && "{env:" <= s[n..][j..] && '}' !in s[n..][j..i - n];
    assert s[n..][j..] == s[n + j..] && s[n..][j..i - n] == s[n + j..i];
  }

  lemma {:induction false} SettledMeans(s: string, i: nat, name: string)
    requires Settled(s) && i <= |s| && IsName(name) && "${" + name + "}" <= s[i..]
    ensures InsideReference(s, i)
    decreases |s|
  {
    hide InsideReference, NextStep, IsName, Taken;
    if i == 0 {
      FrontIsBraced(s, name);
    } else {
      var n := Taken(s);
      if i >= n {
        assert s[n..][i - n..] == s[i..];
        SettledMeans(s[n..], i - n, name);
        InsideLater(s, n, i);
      } else {
        StepIsWhole(s);
        InsideWhole(s, i, NextStep(s).name);
      }
    }
  }

  lemma StepIsWhole(s: string)
    requires s != "" && Settled(s) && Taken(s) > 1
    ensures NextStep(s).Whole? && Taken(s) == |NextStep(s).name| + 6
    ensures ENV_OPEN + NextStep(s).name + "}" <= s && '}' !in NextStep(s).name
  {
  }

  lemma FrontIsBraced(s: string, name: string)
    requires IsName(name) && "${" + name + "}" <= s[0..]
    ensures s != "" && NextStep(s).Braced?
  {
    var w := s[|name| + 3..];
    IdentIsName(name);
    if '}' in name {
      NameHas(name, '}');
    }
    assert s == BRACE_OPEN + name + "}" + w;
    Opened(BRACE_OPEN, name, w);
    assert s[0] == '$';
    assert !(ENV_OPEN <= s);
  }

  lemma InsideWhole(s: string, i: nat, whole: string)
    requires ENV_OPEN + whole + "}" <= s && '}' !in whole && 0 < i < |whole| + 6
    ensures InsideReference(s, i)
  {
    var head := ENV_OPEN + whole;
    assert s[0..] == s && "{env:" <= s[0..];
    assert s[0..i] == head[..i];
    assert '}' !in head;
  }

  /** After the rewriting no `${NAME}` stands outside a `{env:…}`. */
  lemma NoReferenceIsLeft(s: string, i: nat, name: string)
    requires i <= |Rewrite(s)| && IsName(name) && "${" + name + "}" <= Rewrite(s)[i..]
    ensures InsideReference(Rewrite(s), i)
  {
    RewrittenIsSettled(s);
    SettledMeans(Rewrite(s), i, name);
  }

  // ---- the substitution ----

  /** What a variable gives: its value, unless it is not set or blank. */
  predicate IsSet(env: Env, name: string) {
    env(name).Some? && exists c | c in env(name).value :: !IsWhite(c)
  }

  lemma {:induction false} TrimIsEmpty(s: string)
    ensures Trim(s) == "" <==> forall c | c in s :: IsWhite(c)
    decreases |s|
  {
    if s != "" {
      assert s[0] in s && s[|s| - 1] in s;
      if IsWhite(s[0]) {
        TrimIsEmpty(s[1..]);
        assert s == [s[0]] + s[1..];
      } else if IsWhite(s[|s| - 1]) {
        TrimIsEmpty(s[..|s| - 1]);
        assert s == s[..|s| - 1] + [s[|s| - 1]];
      }
    }
  }

  lemma LookupIs(env: Env, name: string)
    ensures Lookup(env, name) == if IsSet(env, name) then Keep(env(name).value) else Unset
  {
    if env(name).Some? {
      TrimIsEmpty(env(name).value);
    }
  }

  /** One text in front of another; a reference to a variable that gives nothing unsets the whole. */
  function InFront(text: Option<string>, rest: Subst): Subst {
    if text.Some? && rest.Keep? then Keep(text.value + rest.text) else Unset
  }

  /** The three spellings of a reference, each at the front of a text. */
  lemma SubstitutesReference(env: Env, name: string, w: string)
    requires IsName(name)
    ensures var value := if IsSet(env, name) then env(name) else None;
            && Substitute(env, "${" + name + "}" + w) == InFront(value, Substitute(env, w))
            && Substitute(env, "{env:" + name + "}" + w) == InFront(value, Substitute(env, w))
            && ((w == "" || !IsNameChar(w[0])) ==> Substitute(env, "$" + name + w) == InFront(value, Substitute(env, w)))
  {
    IdentIsName(name);
    LookupIs(env, name);
    if '}' in name {
      NameHas(name, '}');
    }
    NamesSame(env, name, w, w);
    if w == "" || !IsNameChar(w[0]) {
      BareName(env, name, w);
    }
  }

  lemma {:induction false} RunStops(name: string, w: string)
    requires (forall c | c in name :: IsNameChar(c)) && (w == "" || !IsNameChar(w[0]))
    ensures IdentRun(name + w) == |name|
  {
    if name == "" {
      assert name + w == w;
    } else {
      assert name[0] in name;
      assert forall c | c in name[1..] :: c in name;
      RunStops(name[1..], w);
      assert (name + w)[1..] == name[1..] + w;
    }
  }

  lemma BareName(env: Env, name: string, w: string)
    requires IsName(name) && (w == "" || !IsNameChar(w[0]))
    ensures Substitute(env, "$" + name + w) == Plus(Lookup(env, name), Substitute(env, w))
  {
    var s := "$" + name + w;
    RunStops(name, w);
    assert name[0] in name;
    assert s[1..] == name + w && s[0] == '$' && s[1] == name[0];
    assert (name + w)[..|name|] == name;
    Opens(s);
    assert IdentPrefix(s[1..]) == |name|;
    assert MatchEnvRef(s) == Some((name, 1 + |name|));
    assert s[1 + |name|..] == w;
  }

  /** Text without a dollar sign or an opening brace is kept. */
  lemma {:induction false} PlainTextIsKept(env: Env, p: string, w: string)
    requires '$' !in p && '{' !in p
    ensures Substitute(env, p + w) == InFront(Some(p), Substitute(env, w))
    ensures Substitute(env, "") == Keep("")
    decreases |p|
  {
    hide Substitute, MatchEnvRef, InFront;
    NothingKept(env, w);
    if p == "" {
      assert p + w == w;
    } else {
      var c, rest := p[0], p[1..];
      assert p == [c] + rest && p + w == [c] + (rest + w);
      assert c in p && forall d | d in rest :: d in p;
      KeepsCharacter(env, c, rest + w);
      PlainTextIsKept(env, rest, w);
      InFrontJoins(c, rest, Substitute(env, w));
    }
  }

  lemma NothingKept(env: Env, w: string)
    ensures Substitute(env, "") == Keep("") && InFront(Some(""), Substitute(env, w)) == Substitute(env, w)
  {
    if Substitute(env, w).Keep? {
      assert "" + Substitute(env, w).text == Substitute(env, w).text;
    }
  }

  lemma InFrontJoins(c: char, text: string, rest: Subst)
    ensures InFront(Some([c]), InFront(Some(text), rest)) == InFront(Some([c] + text), rest)
  {
    if rest.Keep? {
      ConcatAssoc([c], text, rest.text);
    }
  }

  lemma KeepsCharacter(env: Env, c: char, rest: string)
    requires c != '$' && c != '{'
    ensures Substitute(env, [c] + rest) == InFront(Some([c]), Substitute(env, rest))
  {
    var s := [c] + rest;
    Opens(s);
    assert MatchEnvRef(s) == None;
    assert s[1..] == rest;
  }
}
