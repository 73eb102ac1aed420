/** JSON documents and JSON pointers (RFC 6901), as the credential store reads and writes them. */
module Json {
  import opened Utf8
  import opened Text

  datatype Json =
    | Null
    | Bool(truth: bool)
    | Number(value: real)
    | String(text: string)
    | Array(items: seq<Json>)
    | Object(fields: map<string, Json>)

  datatype StoreError =
    | EmptyWriteRefused
    | InvalidPointer(pointer: string)
    | BadIndex(token: string)
    | IndexOutOfRange
    | MissingClientId
    | ManyEntries(count: nat)
    | MissingIssuer
    | NotAnObject
    | NotJson
    | OtherStore
    | NotFound(want: string)

  // ---- tokens ----

  function Escape(token: string): string {
    Replace(Replace(token, "~", "~0"), "/", "~1")
  }

  function Unescape(token: string): string {
    Replace(Replace(token, "~1", "/"), "~0", "~")
  }

  function UnescapeAll(tokens: seq<string>): (all: seq<string>)
    ensures |all| == |tokens|
  {
    if tokens == [] then [] else [Unescape(tokens[0])] + UnescapeAll(tokens[1..])
  }

  /** The tokens of a pointer that starts with a slash. */
  function TokensOf(pointer: string): (tokens: seq<string>)
    requires pointer != []
    ensures tokens != []
  {
    UnescapeAll(Split(pointer[1..], '/'))
  }

  const USIZE_LIMIT: nat := 0x1_0000_0000_0000_0000

  /** Parsing a `usize`: leading zeros and one leading `+` are taken. */
  function Index(s: string): Option<nat> {
    var digits := if s != [] && s[0] == '+' then s[1..] else s;
    if digits != [] && IsNumber(digits) && NumberOf(digits) < USIZE_LIMIT then Some(NumberOf(digits)) else None
  }

  /** A printed number, with any leading zeros and with or without a plus, is that index when it fits a `usize`. */
  lemma IndexReadsPrinted(n: nat, width: nat)
    ensures Index(Padded(n, width)) == Index("+" + Padded(n, width)) == if n < USIZE_LIMIT then Some(n) else None
  {
    NumberStartsWithDigit(Padded(n, width));
    assert ("+" + Padded(n, width))[1..] == Padded(n, width);
  }

  // ---- reading ----

  function Child(doc: Json, token: string): Option<Json> {
    match doc
    case Object(fields) => if token in fields then Some(fields[token]) else None
    case Array(items) =>
      (match Index(token)
       case Some(i) => if i < |items| then Some(items[i]) else None
       case None => None)
    case _ => None
  }

  function GetTokens(doc: Json, tokens: seq<string>): Option<Json> {
    if tokens == [] then Some(doc)
    else
      match Child(doc, tokens[0])
      case Some(child) => GetTokens(child, tokens[1..])
      case None => None
  }

  function Get(doc: Json, pointer: string): Option<Json> {
    if pointer == [] then Some(doc)
    else if pointer[0] != '/' then None
    else GetTokens(doc, TokensOf(pointer))
  }

  /** `pointer_get`. */
  method PointerGet(doc: Json, pointer: string) returns (found: Option<Json>)
    ensures found == Get(doc, pointer)
  {
    if pointer == [] {
      return Some(doc);
    }
    if pointer[0] != '/' {
      return None;
    }
    var cur := doc;
    var parts := Split(pointer[1..], '/');
    var i := 0;
    assert parts[0..] == parts;
    while i < |parts|
      invariant 0 <= i <= |parts|
      invariant GetTokens(cur, UnescapeAll(parts[i..])) == Get(doc, pointer)
    {
      var key := Unescape(parts[i]);
      assert parts[i..][1..] == parts[i + 1..];
      assert UnescapeAll(parts[i..]) == [key] + UnescapeAll(parts[i + 1..]);
      assert UnescapeAll(parts[i..])[1..] == UnescapeAll(parts[i + 1..]);
      match Child(cur, key) {
        case Some(child) => cur := child;
        case None => return None;
      }
      i := i + 1;
    }
    found := Some(cur);
  }

  // ---- writing ----

  function FreshObject(): Json {
    Object(map[])
  }

  /** What stands under `token`, or a new object in the place of anything that cannot hold fields. */
  function Container(fields: map<string, Json>, token: string): Json {
    if token in fields && (fields[token].Object? || fields[token].Array?) then fields[token] else FreshObject()
  }

  /** The document after a write, also one that stopped half-way, and why it stopped. */
  datatype Write = Write(doc: Json, error: Option<StoreError>)

  function SetTokens(doc: Json, tokens: seq<string>, value: Json): Write
    requires tokens != []
    decreases |tokens|
  {
    var token := tokens[0];
    match doc
    case Object(fields) =>
      if |tokens| == 1 then Write(Object(fields[token := value]), None)
      else
        var below := SetTokens(Container(fields, token), tokens[1..], value);
        Write(Object(fields[token := below.doc]), below.error)
    case Array(items) =>
      (match Index(token)
       case None => Write(doc, Some(BadIndex(token)))
       case Some(i) =>
         if i >= |items| then Write(doc, Some(IndexOutOfRange))
         else if |tokens| == 1 then Write(Array(items[i := value]), None)
         else
           var below := SetTokens(items[i], tokens[1..], value);
           Write(Array(items[i := below.doc]), below.error))
    case _ => Write(doc, Some(EmptyWriteRefused))
  }

  function Set(doc: Json, pointer: string, value: Json): Write {
    if pointer == [] then Write(doc, Some(EmptyWriteRefused))
    else if pointer[0] != '/' then Write(doc, Some(InvalidPointer(pointer)))
    else SetTokens(doc, TokensOf(pointer), value)
  }

  // ---- what a write does ----

  /** Below a new object nothing can stop a write. */
  lemma {:induction false} FreshNeverFails(tokens: seq<string>, value: Json)
    requires tokens != []
    ensures SetTokens(FreshObject(), tokens, value).error == None
    decreases |tokens|
  {
    if |tokens| > 1 {
      FreshNeverFails(tokens[1..], value);
    }
  }

  lemma {:induction false} SetTokensAllOrNothing(doc: Json, tokens: seq<string>, value: Json)
    requires tokens != [] && SetTokens(doc, tokens, value).error.Some?
    ensures SetTokens(doc, tokens, value).doc == doc
    decreases |tokens|
  {
    if |tokens| > 1 {
      var token, rest := tokens[0], tokens[1..];
      match doc
      case Object(fields) =>
        FreshNeverFails(rest, value);
        SetTokensAllOrNothing(Container(fields, token), rest, value);
        assert fields[token := fields[token]] == fields;
      case Array(items) =>
        if Index(token).Some? && Index(token).value < |items| {
          SetTokensAllOrNothing(items[Index(token).value], rest, value);
        }
      case _ =>
    }
  }

  /** A write that fails leaves the document as it was. */
  lemma SetAllOrNothing(doc: Json, pointer: string, value: Json)
    ensures Set(doc, pointer, value).error.Some? ==> Set(doc, pointer, value).doc == doc
  {
    if pointer != [] && pointer[0] == '/' && Set(doc, pointer, value).error.Some? {
      SetTokensAllOrNothing(doc, TokensOf(pointer), value);
    }
  }

  /** After a write, the path and everything below it read from the value written. */
  lemma {:induction false} SetTokensReads(doc: Json, tokens: seq<string>, value: Json, below: seq<string>)
    requires tokens != [] && SetTokens(doc, tokens, value).error == None
    ensures GetTokens(SetTokens(doc, tokens, value).doc, tokens + below) == GetTokens(value, below)
    decreases |tokens|
  {
    var after := SetTokens(doc, tokens, value).doc;
    var rest := tokens[1..];
    assert (tokens + below)[0] == tokens[0];
    assert (tokens + below)[1..] == rest + below;
    if |tokens| == 1 {
      assert Child(after, tokens[0]) == Some(value);
      assert rest + below == below;
    } else {
      match doc
      case Object(fields) => SetTokensReads(Container(fields, tokens[0]), rest, value, below);
      case Array(items) => SetTokensReads(items[Index(tokens[0]).value], rest, value, below);
      case _ =>
    }
  }

  /** Do the two tokens name one place in `doc`? In an array, `1`, `01` and `+1` do. */
  predicate SamePlace(doc: Json, a: string, b: string) {
    a == b || (doc.Array? && Index(a).Some? && Index(a) == Index(b))
  }

  function Below(doc: Json, token: string): Json {
    match doc
    case Object(fields) => Container(fields, token)
    case Array(items) => (match Child(doc, token) case Some(child) => child case None => Null)
    case _ => Null
  }

  /** The two paths part before either ends. */
  predicate Apart(doc: Json, a: seq<string>, b: seq<string>)
    decreases |a|
  {
    && a != [] && b != []
    && (SamePlace(doc, a[0], b[0]) ==> Apart(Below(doc, a[0]), a[1..], b[1..]))
  }

  lemma NothingInside(doc: Json, tokens: seq<string>)
    requires tokens != [] && !doc.Object? && !doc.Array?
    ensures GetTokens(doc, tokens) == None
    ensures GetTokens(FreshObject(), tokens) == None
  {
  }

  /** A write changes no path that parts from it. */
  lemma {:induction false} SetTokensKeepsOthers(doc: Json, tokens: seq<string>, value: Json, other: seq<string>)
    requires tokens != [] && Apart(doc, tokens, other)
    ensures GetTokens(SetTokens(doc, tokens, value).doc, other) == GetTokens(doc, other)
    decreases |tokens|
  {
    var token, rest := tokens[0], tokens[1..];
    if SamePlace(doc, token, other[0]) {
      match doc
      case Object(fields) =>
        SetTokensKeepsOthers(Container(fields, token), rest, value, other[1..]);
        if token in fields && !fields[token].Object? && !fields[token].Array? {
          NothingInside(fields[token], other[1..]);
        }
        if token !in fields {
          NothingInside(Null, other[1..]);
        }
      case Array(items) =>
        if Index(token).Some? && Index(token).value < |items| {
          SetTokensKeepsOthers(items[Index(token).value], rest, value, other[1..]);
        }
      case _ =>
    }
  }

  /** A pointer that was written reads what was written. */
  lemma SetReadsBack(doc: Json, pointer: string, value: Json)
    requires Set(doc, pointer, value).error == None
    ensures Get(Set(doc, pointer, value).doc, pointer) == Some(value)
  {
    var tokens := TokensOf(pointer);
    SetTokensReads(doc, tokens, value, []);
    assert tokens + [] == tokens;
  }

  /** A pointer that parts from the one written reads as before, whether the write succeeds or fails. */
  lemma SetKeepsOthers(doc: Json, pointer: string, value: Json, other: string)
    requires pointer != [] && pointer[0] == '/' && other != [] && other[0] == '/'
    requires Apart(doc, TokensOf(pointer), TokensOf(other))
    ensures Get(Set(doc, pointer, value).doc, other) == Get(doc, other)
  {
    SetTokensKeepsOthers(doc, TokensOf(pointer), value, TokensOf(other));
  }

  // ---- which writes succeed ----

  /** The way leads to a container at token `k` in which the write is made, or a new object is put. */
  ghost predicate Lands(doc: Json, tokens: seq<string>, k: nat) {
    && k < |tokens| && GetTokens(doc, tokens[..k]).Some?
    && match GetTokens(doc, tokens[..k]).value
       case Object(fields) =>
         k == |tokens| - 1 || tokens[k] !in fields || (!fields[tokens[k]].Object? && !fields[tokens[k]].Array?)
       case Array(items) => k == |tokens| - 1 && Index(tokens[k]).Some? && Index(tokens[k]).value < |items|
       case _ => false
  }

  lemma LandsBelow(doc: Json, tokens: seq<string>, k: nat)
    requires tokens != []
    ensures Lands(doc, tokens, k + 1) <==> Child(doc, tokens[0]).Some? && Lands(Child(doc, tokens[0]).value, tokens[1..], k)
  {
    if k + 1 < |tokens| {
      assert tokens[..k + 1][0] == tokens[0] && tokens[..k + 1][1..] == tokens[1..][..k];
    }
  }

  /** A write fails exactly if the way leads into a value that holds nothing, or to an array that has no such place. */
  lemma {:induction false} SetSucceedsIff(doc: Json, tokens: seq<string>, value: Json)
    requires tokens != []
    ensures SetTokens(doc, tokens, value).error == None <==> exists k: nat :: Lands(doc, tokens, k)
    decreases |tokens|
  {
    var token, rest := tokens[0], tokens[1..];
    assert tokens[..0] == [];
    if |tokens| == 1 {
      assert SetTokens(doc, tokens, value).error == None <==> Lands(doc, tokens, 0);
      assert forall k: nat :: Lands(doc, tokens, k) ==> k == 0;
    } else {
      if doc.Object? && !(token in doc.fields && (doc.fields[token].Object? || doc.fields[token].Array?)) {
        FreshNeverFails(rest, value);
        assert Lands(doc, tokens, 0);
      } else if Child(doc, token).Some? {
        SetSucceedsIff(Child(doc, token).value, rest, value);
        LandsAgain(doc, tokens);
      } else {
        LandsAgain(doc, tokens);
      }
    }
  }

  lemma {:induction false} LandsAgain(doc: Json, tokens: seq<string>)
    requires |tokens| > 1 && !Lands(doc, tokens, 0)
    ensures (exists k: nat :: Lands(doc, tokens, k))
       <==> Child(doc, tokens[0]).Some? && exists k: nat :: Lands(Child(doc, tokens[0]).value, tokens[1..], k)
  {
    hide Lands;
    if k: nat :| Lands(doc, tokens, k) {
      LandsBelow(doc, tokens, k - 1);
    }
    if Child(doc, tokens[0]).Some? {
      if k: nat :| Lands(Child(doc, tokens[0]).value, tokens[1..], k) {
        LandsBelow(doc, tokens, k);
      }
    }
  }

  // ---- escaping ----

  lemma ReplaceHere(pattern: string, rest: string, put: string)
    requires pattern != []
    ensures Replace(pattern + rest, pattern, put) == put + Replace(rest, pattern, put)
  {
  }

  lemma ReplaceLater(c: char, rest: string, pattern: string, put: string)
    requires pattern != [] && (pattern[0] != c || (|pattern| > 1 && rest != [] && pattern[1] != rest[0]))
    ensures Replace([c] + rest, pattern, put) == [c] + Replace(rest, pattern, put)
  {
  }

  function EscapeChar(c: char): string {
    if c == '~' then "~0" else if c == '/' then "~1" else [c]
  }

  function Tilde(token: string): string {
    Replace(token, "~", "~0")
  }

  lemma EscapeFirst(c: char, rest: string)
    ensures Escape([c] + rest) == EscapeChar(c) + Escape(rest)
    ensures Tilde([c] + rest) == (if c == '~' then "~0" else [c]) + Tilde(rest)
  {
    if c == '~' {
      ReplaceHere("~", rest, "~0");
      var tail := Tilde(rest);
      assert "~0" + tail == ['~'] + (['0'] + tail);
      ReplaceLater('~', ['0'] + tail, "/", "~1");
      ReplaceLater('0', tail, "/", "~1");
      assert ['~'] + (['0'] + Escape(rest)) == "~0" + Escape(rest);
    } else {
      ReplaceLater(c, rest, "~", "~0");
      if c == '/' {
        ReplaceHere("/", Tilde(rest), "~1");
      } else {
        ReplaceLater(c, Tilde(rest), "/", "~1");
      }
    }
  }

  lemma {:induction false} EscapeBehind(a: string, b: string)
    ensures Escape(a + b) == Escape(a) + Escape(b)
  {
    hide Escape;
    if a == "" {
      assert a + b == b;
      NothingEscaped();
    } else {
      EscapeBehind(a[1..], b);
      assert a == [a[0]] + a[1..] && a + b == [a[0]] + (a[1..] + b);
      EscapeFirst(a[0], a[1..]);
      EscapeFirst(a[0], a[1..] + b);
    }
  }

  lemma NothingEscaped()
    ensures Escape("") == ""
  {
  }

  /** RFC 6901, section 3: `~` is written `~0`, a slash `~1`, and every other character as it is. */
  lemma EscapeSpells(a: string, c: char, b: string)
    ensures Escape(a + [c] + b) == Escape(a) + (if c == '~' then "~0" else if c == '/' then "~1" else [c]) + Escape(b)
    ensures Escape("") == ""
  {
    hide Escape;
    NothingEscaped();
    EscapeBehind(a + [c], b);
    EscapeBehind(a, [c]);
    EscapeFirst(c, "");
    assert [c] + "" == [c];
  }

  lemma {:induction false} SlashesUnescape(token: string)
    ensures Replace(Escape(token), "~1", "/") == Tilde(token)
  {
    if token != [] {
      var c, rest := token[0], token[1..];
      SlashesUnescape(rest);
      assert token == [c] + rest;
      EscapeFirst(c, rest);
      var tail := Escape(rest);
      if c == '~' {
        assert "~0" + tail == ['~'] + (['0'] + tail);
        assert (['~'] + (['0'] + tail))[1] == '0';
        ReplaceLater('~', ['0'] + tail, "~1", "/");
        ReplaceLater('0', tail, "~1", "/");
        assert ['~'] + (['0'] + Tilde(rest)) == "~0" + Tilde(rest);
      } else if c == '/' {
        ReplaceHere("~1", tail, "/");
      } else {
        ReplaceLater(c, tail, "~1", "/");
      }
    }
  }

  lemma {:induction false} TildesUnescape(token: string)
    ensures Replace(Tilde(token), "~0", "~") == token
  {
    if token != [] {
      var c, rest := token[0], token[1..];
      TildesUnescape(rest);
      assert token == [c] + rest;
      EscapeFirst(c, rest);
      if c == '~' {
        ReplaceHere("~0", Tilde(rest), "~");
      } else {
        ReplaceLater(c, Tilde(rest), "~0", "~");
      }
    }
  }

  /** An escaped token reads back. */
  lemma EscapeReadsBack(token: string)
    ensures Unescape(Escape(token)) == token
  {
    SlashesUnescape(token);
    TildesUnescape(token);
  }

  /** An escaped token is one token. */
  lemma {:induction false} EscapeHasNoSlash(token: string)
    ensures '/' !in Escape(token)
  {
    if token != [] {
      assert token == [token[0]] + token[1..];
      EscapeFirst(token[0], token[1..]);
      EscapeHasNoSlash(token[1..]);
    }
  }

  lemma {:induction false} NothingToUnescape(token: string)
    requires '~' !in token
    ensures Unescape(token) == token
  {
    if token != [] {
      NothingToUnescape(token[1..]);
      assert token == [token[0]] + token[1..];
      var once := Replace(token[1..], "~1", "/");
      ReplaceLater(token[0], token[1..], "~1", "/");
      ReplaceLater(token[0], once, "~0", "~");
    }
  }

  /** The pointer to a field of an entry, whatever the entry is called. */
  function FieldPointer(entry: string, field: string): string {
    "/" + Escape(entry) + "/" + field
  }

  lemma FieldPointerTokens(entry: string, field: string)
    requires '/' !in field && '~' !in field
    ensures TokensOf(FieldPointer(entry, field)) == [entry, field]
  {
    var escaped := Escape(entry);
    assert FieldPointer(entry, field)[1..] == escaped + ['/'] + field;
    EscapeHasNoSlash(entry);
    SplitFirst(escaped, '/', field);
    SplitFirst(field, '/', "");
    EscapeReadsBack(entry);
    NothingToUnescape(field);
    var parts := [escaped] + [field];
    assert parts[1..] == [field] && [field][1..] == [];
    assert UnescapeAll([field]) == [field];
  }
}
