/** The `oidc-auth-json` credential store: which entry a profile uses, and how tokens are written and removed. */
module OidcStore {
  import opened Utf8
  import opened Text
  import opened Json
  import Rfc3339

  datatype CredsFormat = OidcAuthJson | OtherFormat

  datatype ExpiresUnit = Ms | S

  datatype OauthPack = OauthPack(
    credsFormat: Option<CredsFormat>,
    accessTokenPtr: Option<string>,
    clientId: Option<string>,
    authorizeUrl: Option<string>,
    tokenUrl: string)

  datatype TokenWrite = TokenWrite(
    accessPtr: string,
    refreshPtr: Option<string>,
    expiresPtr: Option<string>,
    expiresUnit: ExpiresUnit,
    accessToken: string,
    refreshToken: Option<string>,
    expiresInSecs: nat,
    expiresRfc3339: bool,
    tokenUrlPtr: Option<string>,
    tokenUrl: Option<string>)

  // ---- the entry of a profile ----

  function TrimEndSlashes(s: string): string {
    if s != [] && s[|s| - 1] == '/' then TrimEndSlashes(s[..|s| - 1]) else s
  }

  /** `{issuer}::{client_id}`. */
  function OidcProfileKey(issuer: string, client: string): string {
    TrimEndSlashes(issuer) + "::" + client
  }

  function IssuerOrigin(url: string): Option<string> {
    var scheme := if "https://" <= url then "https" else if "http://" <= url then "http" else "";
    if scheme == "" then None
    else
      var host := Trim(Split(url[|scheme| + 3..], '/')[0]);
      if host == "" then None else Some(scheme + "://" + host)
  }

  predicate Contains(s: string, pattern: string) {
    pattern <= s || (s != [] && Contains(s[1..], pattern))
  }

  /** `{want}@{name}`, for a name that is not empty and holds neither `::` nor `/`. */
  predicate IsNamed(key: string, want: string) {
    && want + "@" <= key
    && var name := key[|want| + 1..];
       name != "" && !Contains(name, "::") && '/' !in name
  }

  /** Does the profile name an issuer only? */
  predicate IsIssuerOnly(want: string) {
    |want| > 2 && want[|want| - 2..] == "::"
  }

  function Candidates(fields: map<string, Json>, want: string): set<string> {
    if IsIssuerOnly(want) then set key | key in fields && want <= key
    else set key | key in fields && IsNamed(key, want)
  }

  function Only(keys: set<string>): (key: string)
    requires |keys| == 1
    ensures keys == {key}
  {
    SingleMember(keys);
    var key :| key in keys;
    key
  }

  lemma SingleMember(keys: set<string>)
    requires |keys| == 1
    ensures exists key :: keys == {key}
  {
    var key :| key in keys;
    assert |keys - {key}| == 0;
    assert keys == {key};
  }

  function SelectOidcEntryKey(doc: Option<Json>, want: string): Result<string, StoreError> {
    if doc.None? || !doc.value.Object? || want in doc.value.fields then Ok(want)
    else
      var found := Candidates(doc.value.fields, want);
      if |found| == 0 then Ok(want) else if |found| == 1 then Ok(Only(found)) else Err(ManyEntries(|found|))
  }

  /** A selection is never a guess: another entry is taken only when it is the one candidate, and two are refused. */
  lemma SelectIsUnambiguous(fields: map<string, Json>, want: string)
    requires want !in fields
    ensures match SelectOidcEntryKey(Some(Object(fields)), want)
            case Ok(entry) =>
              && (forall key :: key in Candidates(fields, want) ==> key == entry)
              && (entry in Candidates(fields, want) || (entry == want && Candidates(fields, want) == {}))
            case Err(_) => exists a, b :: a in Candidates(fields, want) && b in Candidates(fields, want) && a != b
  {
    var found := Candidates(fields, want);
    if |found| > 1 {
      var a :| a in found;
      var others := found - {a};
      assert found == others + {a};
      var b :| b in others;
    }
  }

  function OidcIssuerAndClient(oauth: OauthPack): Result<(string, string), StoreError> {
    var client := match oauth.clientId case Some(id) => Trim(id) case None => "";
    var authorize := match oauth.authorizeUrl case Some(url) => IssuerOrigin(url) case None => None;
    match (authorize, IssuerOrigin(oauth.tokenUrl))
    case (Some(issuer), _) => Ok((issuer, client))
    case (None, Some(issuer)) => Ok((issuer, client))
    case (None, None) => Err(MissingIssuer)
  }

  datatype Pointers = Pointers(access: string, refresh: string, expires: string)

  /** `None` for a profile that does not use this store, or names its own pointers. */
  function OidcStorePointers(oauth: OauthPack, doc: Option<Json>): Result<Option<Pointers>, StoreError> {
    if oauth.credsFormat != Some(OidcAuthJson) || oauth.accessTokenPtr.Some? then Ok(None)
    else
      match OidcIssuerAndClient(oauth)
      case Err(e) => Err(e)
      case Ok((issuer, client)) =>
        if client == "" && doc.None? then Err(MissingClientId)
        else
          match SelectOidcEntryKey(doc, OidcProfileKey(issuer, client))
          case Err(e) => Err(e)
          case Ok(entry) =>
            var escaped := Escape(entry);
            Ok(Some(Pointers("/" + escaped + "/key", "/" + escaped + "/refresh_token", "/" + escaped + "/expires_at")))
  }

  function OidcTokenUrlPtr(oauth: OauthPack, accessPtr: string): Option<string> {
    if oauth.credsFormat != Some(OidcAuthJson) then None
    else if |accessPtr| >= 4 && accessPtr[|accessPtr| - 4..] == "/key" then Some(accessPtr[..|accessPtr| - 4] + "/token_url")
    else None
  }

  // ---- writing tokens ----

  const MAX_EXPIRES_IN_SECS: nat := 10 * 365 * 24 * 3600
  const U64_MAX: nat := 0xFFFF_FFFF_FFFF_FFFF

  function Saturated(n: nat): nat {
    if n < U64_MAX then n else U64_MAX
  }

  function Min(a: nat, b: nat): nat {
    if a < b then a else b
  }

  /** The time the token ends, at clock reading `nowMs`. */
  function Rfc3339NowPlus(nowMs: nat, seconds: nat): string {
    Rfc3339.Format(Saturated(nowMs / 1000 + Min(seconds, MAX_EXPIRES_IN_SECS)))
  }

  function ExpiresValue(doc: Json, ptr: string, write: TokenWrite, nowMs: nat): Json {
    var existing := Get(doc, ptr);
    if (existing.Some? && existing.value.String?) || write.expiresRfc3339 then
      String(Rfc3339NowPlus(nowMs, write.expiresInSecs))
    else
      match write.expiresUnit
      case Ms => Number(Saturated(Min(nowMs, U64_MAX) + Saturated(write.expiresInSecs * 1000)) as real)
      case S => Number(Saturated(nowMs / 1000 + write.expiresInSecs) as real)
  }

  predicate IsRoot(ptr: Option<string>) {
    ptr == Some("")
  }

  function SetSome(w: Write, ptr: Option<string>, value: Option<Json>): Write {
    if w.error.Some? || ptr.None? || value.None? then w else Set(w.doc, ptr.value, value.value)
  }

  function TextOf(text: Option<string>): Option<Json> {
    match text
    case Some(t) => Some(String(t))
    case None => None
  }

  function UrlOf(write: TokenWrite): Option<Json> {
    if write.tokenUrl == Some("") then None else TextOf(write.tokenUrl)
  }

  predicate Refused(doc: Json, write: TokenWrite) {
    || Trim(write.accessToken) == "" || !doc.Object? || write.accessPtr == ""
    || IsRoot(write.refreshPtr) || IsRoot(write.expiresPtr) || IsRoot(write.tokenUrlPtr)
  }

  function WrittenRefresh(w: Write, write: TokenWrite): Write {
    SetSome(w, write.refreshPtr, TextOf(write.refreshToken))
  }

  function WrittenExpires(w: Write, write: TokenWrite, nowMs: nat): Write {
    if write.expiresPtr.None? then w
    else SetSome(w, write.expiresPtr, Some(ExpiresValue(w.doc, write.expiresPtr.value, write, nowMs)))
  }

  function WrittenUrl(w: Write, write: TokenWrite): Write {
    SetSome(w, write.tokenUrlPtr, UrlOf(write))
  }

  /** The document after `apply_tokens`, also when it stops half-way. */
  function AppliedTokens(doc: Json, write: TokenWrite, nowMs: nat): Write {
    if Refused(doc, write) then Write(doc, Some(EmptyWriteRefused))
    else
      var access := Set(doc, write.accessPtr, String(write.accessToken));
      WrittenUrl(WrittenExpires(WrittenRefresh(access, write), write, nowMs), write)
  }

  // ---- login and logout ----

  /** A login writes what the token endpoint answered. */
  datatype Tokens = Tokens(access: string, refresh: Option<string>, expiresIn: Option<nat>)

  /** The credential file: absent, not JSON, or a document. */
  datatype Store = Absent | Corrupt | Parsed(doc: Json)

  function Existing(store: Store): Option<Json> {
    if store.Parsed? then Some(store.doc) else None
  }

  function LoginWrite(oauth: OauthPack, p: Pointers, tokens: Tokens): TokenWrite {
    TokenWrite(p.access, Some(p.refresh), Some(p.expires), S, tokens.access, tokens.refresh,
               if tokens.expiresIn.Some? then tokens.expiresIn.value else 3600, true,
               OidcTokenUrlPtr(oauth, p.access),
               if oauth.credsFormat == Some(OidcAuthJson) then Some(oauth.tokenUrl) else None)
  }

  /** The document a login saves (`persist_login_tokens`), for a profile that uses this store. */
  function LoggedIn(oauth: OauthPack, store: Store, tokens: Tokens, nowMs: nat): Result<Json, StoreError> {
    if Trim(tokens.access) == "" then Err(EmptyWriteRefused)
    else
      match OidcStorePointers(oauth, Existing(store))
      case Err(e) => Err(e)
      case Ok(None) => Err(OtherStore)
      case Ok(Some(p)) =>
        if store.Corrupt? then Err(NotJson)
        else
          var written := AppliedTokens(if store.Absent? then FreshObject() else store.doc, LoginWrite(oauth, p, tokens), nowMs);
          if written.error.Some? then Err(written.error.value) else Ok(written.doc)
  }

  /** The wanted key, and the one the store has for it. */
  function StoreKey(oauth: OauthPack, doc: Json): (r: Result<(string, string), StoreError>)
    ensures r.Ok? ==> doc.Object?
  {
    if oauth.credsFormat != Some(OidcAuthJson) then Err(OtherStore)
    else if !doc.Object? then Err(NotAnObject)
    else
      match OidcIssuerAndClient(oauth)
      case Err(e) => Err(e)
      case Ok((issuer, client)) =>
        var want := OidcProfileKey(issuer, client);
        match SelectOidcEntryKey(Some(doc), want)
        case Err(e) => Err(e)
        case Ok(key) => Ok((want, key))
  }

  /** The document a logout leaves (`remove_store_entry`). */
  function LoggedOut(oauth: OauthPack, doc: Json): Result<Json, StoreError> {
    match StoreKey(oauth, doc)
    case Err(e) => Err(e)
    case Ok((want, key)) =>
      if key in doc.fields then Ok(Object(doc.fields - {key})) else Err(NotFound(want))
  }

  /** The credential document in memory. */
  class CredentialDoc {
    var root: Json

    constructor (root: Json)
      ensures this.root == root
    {
      this.root := root;
    }

    /** `pointer_set`: down to the container of the last token, then the write itself. */
    method PointerSet(pointer: string, value: Json) returns (error: Option<StoreError>)
      modifies this
      ensures Write(root, error) == Set(old(root), pointer, value)
    {
      if pointer == [] {
        return Some(EmptyWriteRefused);
      }
      if pointer[0] != '/' {
        return Some(InvalidPointer(pointer));
      }
      var tokens := TokensOf(pointer);
      var cur, above: seq<Frame>, i := root, [], 0;
      error := None;
      assert tokens[0..] == tokens;
      while i < |tokens| - 1
        invariant 0 <= i < |tokens|
        invariant error == None
        invariant PutBack(above, SetTokens(cur, tokens[i..], value)) == SetTokens(root, tokens, value)
        invariant root == old(root)
      {
        var token := tokens[i];
        assert tokens[i..][1..] == tokens[i + 1..];
        match cur {
          case Object(fields) =>
            above := above + [Frame(cur, token, 0)];
            cur := Container(fields, token);
          case Array(items) =>
            match Index(token) {
              case None =>
                error := Some(BadIndex(token));
              case Some(at) =>
                if at < |items| {
                  above := above + [Frame(cur, token, at)];
                  cur := items[at];
                } else {
                  error := Some(IndexOutOfRange);
                }
            }
          case _ =>
            error := Some(EmptyWriteRefused);
        }
        if error.Some? {
          root := PutBack(above, Write(cur, error)).doc;
          PutBackKeepsError(above, Write(cur, error));
          return;
        }
        i := i + 1;
      }
      assert tokens[i..] == [tokens[i]];
      var last := SetTokens(cur, [tokens[i]], value);
      PutBackKeepsError(above, last);
      root, error := PutBack(above, last).doc, last.error;
    }

    /** `apply_tokens`. */
    method ApplyTokens(write: TokenWrite, nowMs: nat) returns (error: Option<StoreError>)
      modifies this
      ensures Write(root, error) == AppliedTokens(old(root), write, nowMs)
    {
      if Refused(root, write) {
        return Some(EmptyWriteRefused);
      }
      error := PointerSet(write.accessPtr, String(write.accessToken));
      if error.Some? {
        return;
      }
      if write.refreshPtr.Some? && write.refreshToken.Some? {
        error := PointerSet(write.refreshPtr.value, String(write.refreshToken.value));
        if error.Some? {
          return;
        }
      }
      if write.expiresPtr.Some? {
        error := PointerSet(write.expiresPtr.value, ExpiresValue(root, write.expiresPtr.value, write, nowMs));
        if error.Some? {
          return;
        }
      }
      if write.tokenUrlPtr.Some? && write.tokenUrl.Some? && write.tokenUrl.value != "" {
        error := PointerSet(write.tokenUrlPtr.value, String(write.tokenUrl.value));
      }
    }

    /** The document part of `remove_store_entry`; `emptied` says that the file is to be deleted. */
    method RemoveStoreEntry(oauth: OauthPack) returns (error: Option<StoreError>, emptied: bool)
      modifies this
      ensures match LoggedOut(oauth, old(root))
              case Ok(doc) => error == None && root == doc && emptied == (doc == Object(map[]))
              case Err(e) => error == Some(e) && root == old(root) && !emptied
    {
      emptied := false;
      match StoreKey(oauth, root) {
        case Err(e) =>
          return Some(e), false;
        case Ok((want, key)) =>
          var fields := root.fields;
          if key !in fields {
            return Some(NotFound(want)), false;
          }
          fields := fields - {key};
          root := Object(fields);
          return None, fields == map[];
      }
    }
  }

  /** A container on the way down, and the place in it where the way goes on. */
  datatype Frame = Frame(container: Json, token: string, at: nat)

  /** The document that holds `w` at the end of the way `above`. */
  function PutBack(above: seq<Frame>, w: Write): Write {
    if above == [] then w
    else
      var frame := above[|above| - 1];
      var doc :=
        match frame.container
        case Object(fields) => Object(fields[frame.token := w.doc])
        case Array(items) => if frame.at < |items| then Array(items[frame.at := w.doc]) else frame.container
        case _ => frame.container;
      PutBack(above[..|above| - 1], Write(doc, w.error))
  }

  lemma {:induction false} PutBackKeepsError(above: seq<Frame>, w: Write)
    ensures PutBack(above, w).error == w.error
    decreases |above|
  {
    if above != [] {
      var frame := above[|above| - 1];
      var doc :=
        match frame.container
        case Object(fields) => Object(fields[frame.token := w.doc])
        case Array(items) => if frame.at < |items| then Array(items[frame.at := w.doc]) else frame.container
        case _ => frame.container;
      PutBackKeepsError(above[..|above| - 1], Write(doc, w.error));
    }
  }

  // ---- what a login leaves ----

  /** The fields the entry had, if it was an object. */
  function OldFields(fields: map<string, Json>, entry: string): map<string, Json> {
    if entry in fields && fields[entry].Object? then fields[entry].fields else map[]
  }

  predicate IsPlainField(field: string) {
    '/' !in field && '~' !in field && Index(field) == None
  }

  lemma SetTwo(fields: map<string, Json>, entry: string, field: string, value: Json)
    requires IsPlainField(field)
    ensures var w := SetTokens(Object(fields), [entry, field], value);
            if entry in fields && fields[entry].Array? then w.error == Some(BadIndex(field))
            else w == Write(Object(fields[entry := Object(OldFields(fields, entry)[field := value])]), None)
  {
  }

  lemma SetField(fields: map<string, Json>, entry: string, field: string, value: Json)
    requires IsPlainField(field)
    ensures var w := Set(Object(fields), FieldPointer(entry, field), value);
            if entry in fields && fields[entry].Array? then w.error == Some(BadIndex(field))
            else w == Write(Object(fields[entry := Object(OldFields(fields, entry)[field := value])]), None)
  {
    FieldPointerTokens(entry, field);
    SetTwo(fields, entry, field, value);
    assert FieldPointer(entry, field)[0] == '/';
  }

  // The fields of an entry as a login adds to them.

  function WithRefresh(fields: map<string, Json>, refresh: Option<string>): map<string, Json> {
    if refresh.Some? then fields["refresh_token" := String(refresh.value)] else fields
  }

  function WithUrl(fields: map<string, Json>, tokenUrl: string): map<string, Json> {
    if tokenUrl == "" then fields else fields["token_url" := String(tokenUrl)]
  }

  function NewFields(before: map<string, Json>, access: string, refresh: Option<string>, expires: string, tokenUrl: string):
      map<string, Json> {
    WithUrl(WithRefresh(before["key" := String(access)], refresh)["expires_at" := String(expires)], tokenUrl)
  }

  lemma PlainFields()
    ensures IsPlainField("key") && IsPlainField("refresh_token") && IsPlainField("expires_at") && IsPlainField("token_url")
  {
  }

  lemma Rewritten(fields: map<string, Json>, entry: string, inner: map<string, Json>, field: string, value: Json)
    requires IsPlainField(field)
    ensures Set(Object(fields[entry := Object(inner)]), FieldPointer(entry, field), value)
         == Write(Object(fields[entry := Object(inner[field := value])]), None)
  {
    hide Set, FieldPointer;
    var now := fields[entry := Object(inner)];
    SetField(now, entry, field, value);
    assert now[entry := Object(inner[field := value])] == fields[entry := Object(inner[field := value])];
  }

  predicate IsEntryWrite(write: TokenWrite, entry: string) {
    && write.accessPtr == FieldPointer(entry, "key")
    && write.refreshPtr == Some(FieldPointer(entry, "refresh_token"))
    && write.expiresPtr == Some(FieldPointer(entry, "expires_at"))
    && write.tokenUrlPtr == Some(FieldPointer(entry, "token_url"))
    && write.tokenUrl.Some? && write.expiresRfc3339
  }

  /** A document whose entry has the given fields. */
  function WithEntry(fields: map<string, Json>, entry: string, inner: map<string, Json>): Write {
    Write(Object(fields[entry := Object(inner)]), None)
  }

  lemma RefreshWrite(fields: map<string, Json>, entry: string, inner: map<string, Json>, write: TokenWrite)
    requires IsEntryWrite(write, entry)
    ensures WrittenRefresh(WithEntry(fields, entry, inner), write)
         == WithEntry(fields, entry, WithRefresh(inner, write.refreshToken))
  {
    PlainFields();
    if write.refreshToken.Some? {
      Rewritten(fields, entry, inner, "refresh_token", String(write.refreshToken.value));
    }
  }

  lemma ExpiresWrite(fields: map<string, Json>, entry: string, inner: map<string, Json>, write: TokenWrite, nowMs: nat)
    requires IsEntryWrite(write, entry)
    ensures WrittenExpires(WithEntry(fields, entry, inner), write, nowMs)
         == WithEntry(fields, entry, inner["expires_at" := String(Rfc3339NowPlus(nowMs, write.expiresInSecs))])
  {
    PlainFields();
    Rewritten(fields, entry, inner, "expires_at", String(Rfc3339NowPlus(nowMs, write.expiresInSecs)));
  }

  lemma UrlWrite(fields: map<string, Json>, entry: string, inner: map<string, Json>, write: TokenWrite)
    requires IsEntryWrite(write, entry)
    ensures WrittenUrl(WithEntry(fields, entry, inner), write) == WithEntry(fields, entry, WithUrl(inner, write.tokenUrl.value))
  {
    PlainFields();
    if write.tokenUrl.value != "" {
      Rewritten(fields, entry, inner, "token_url", String(write.tokenUrl.value));
    }
  }

  lemma EntryNotRefused(fields: map<string, Json>, write: TokenWrite, entry: string)
    requires IsEntryWrite(write, entry)
    ensures Refused(Object(fields), write) <==> Trim(write.accessToken) == ""
  {
  }

  /**
   A write to the pointers of an entry fails exactly when the token is blank or an array stands in the entry's place;
   otherwise the document is the old one with that one entry replaced, and the entry keeps its other fields.
   */
  lemma EntryWrite(fields: map<string, Json>, write: TokenWrite, entry: string, nowMs: nat)
    requires IsEntryWrite(write, entry)
    ensures var w := AppliedTokens(Object(fields), write, nowMs);
            var expires := Rfc3339NowPlus(nowMs, write.expiresInSecs);
            if Trim(write.accessToken) == "" || (entry in fields && fields[entry].Array?) then
              w.error.Some? && w.doc == Object(fields)
            else
              w == WithEntry(fields, entry, NewFields(OldFields(fields, entry), write.accessToken, write.refreshToken, expires,
                                                      write.tokenUrl.value))
  {
    EntryNotRefused(fields, write, entry);
    if Trim(write.accessToken) != "" {
      PlainFields();
      SetField(fields, entry, "key", String(write.accessToken));
      if entry in fields && fields[entry].Array? {
        SetAllOrNothing(Object(fields), write.accessPtr, String(write.accessToken));
      } else {
        var withAccess := OldFields(fields, entry)["key" := String(write.accessToken)];
        RefreshWrite(fields, entry, withAccess, write);
        var withRefresh := WithRefresh(withAccess, write.refreshToken);
        ExpiresWrite(fields, entry, withRefresh, write, nowMs);
        UrlWrite(fields, entry, withRefresh["expires_at" := String(Rfc3339NowPlus(nowMs, write.expiresInSecs))], write);
      }
    }
  }

  // ---- a login, the next load, and a logout ----

  /** The entry a profile uses in a document. */
  function EntryOf(oauth: OauthPack, doc: Option<Json>): Result<string, StoreError> {
    match OidcIssuerAndClient(oauth)
    case Err(e) => Err(e)
    case Ok((issuer, client)) => SelectOidcEntryKey(doc, OidcProfileKey(issuer, client))
  }

  function FieldsOf(store: Store): map<string, Json> {
    if store.Parsed? && store.doc.Object? then store.doc.fields else map[]
  }

  lemma PointersOfEntry(oauth: OauthPack, doc: Option<Json>)
    requires OidcStorePointers(oauth, doc).Ok? && OidcStorePointers(oauth, doc).value.Some?
    ensures EntryOf(oauth, doc).Ok?
    ensures var p, entry := OidcStorePointers(oauth, doc).value.value, EntryOf(oauth, doc).value;
            && p == Pointers(FieldPointer(entry, "key"), FieldPointer(entry, "refresh_token"), FieldPointer(entry, "expires_at"))
            && OidcTokenUrlPtr(oauth, p.access) == Some(FieldPointer(entry, "token_url"))
  {
    hide Escape, FieldPointer, OidcIssuerAndClient, SelectOidcEntryKey, OidcProfileKey;
    var entry := EntryOf(oauth, doc).value;
    FieldPath(entry, "key", "/key");
    FieldPath(entry, "refresh_token", "/refresh_token");
    FieldPath(entry, "expires_at", "/expires_at");
    FieldPath(entry, "token_url", "/token_url");
    EndsIn("/" + Escape(entry), "/key");
  }

  lemma FieldPath(entry: string, field: string, slashed: string)
    requires slashed == "/" + field
    ensures "/" + Escape(entry) + slashed == FieldPointer(entry, field)
  {
  }

  lemma EndsIn(s: string, end: string)
    ensures var whole := s + end;
            whole[|whole| - |end|..] == end && whole[..|whole| - |end|] == s
  {
  }

  /** What a login saves: the store it found with the profile's entry written, and nothing else touched. */
  lemma LoginWritesEntry(oauth: OauthPack, store: Store, tokens: Tokens, nowMs: nat)
    requires LoggedIn(oauth, store, tokens, nowMs).Ok?
    ensures EntryOf(oauth, Existing(store)).Ok?
    ensures var entry := EntryOf(oauth, Existing(store)).value;
            var expires := Rfc3339NowPlus(nowMs, if tokens.expiresIn.Some? then tokens.expiresIn.value else 3600);
            LoggedIn(oauth, store, tokens, nowMs).value
            == WithEntry(FieldsOf(store), entry,
                 NewFields(OldFields(FieldsOf(store), entry), tokens.access, tokens.refresh, expires, oauth.tokenUrl)).doc
  {
    PointersOfEntry(oauth, Existing(store));
    var p := OidcStorePointers(oauth, Existing(store)).value.value;
    EntryWrite(FieldsOf(store), LoginWrite(oauth, p, tokens), EntryOf(oauth, Existing(store)).value, nowMs);
  }

  /** Writing the entry that was selected does not change the selection. */
  lemma SelectAgain(fields: map<string, Json>, want: string, value: Json)
    requires SelectOidcEntryKey(Some(Object(fields)), want).Ok?
    ensures var entry := SelectOidcEntryKey(Some(Object(fields)), want).value;
            SelectOidcEntryKey(Some(Object(fields[entry := value])), want) == Ok(entry)
  {
    var entry := SelectOidcEntryKey(Some(Object(fields)), want).value;
    if want !in fields && |Candidates(fields, want)| == 1 {
      assert entry in Candidates(fields, want);
      assert Candidates(fields[entry := value], want) == Candidates(fields, want);
    }
  }

  /** After a login the profile uses the entry the login wrote. */
  lemma LoginKeepsEntry(oauth: OauthPack, store: Store, tokens: Tokens, nowMs: nat)
    requires LoggedIn(oauth, store, tokens, nowMs).Ok?
    ensures EntryOf(oauth, Existing(store)).Ok?
    ensures EntryOf(oauth, Some(LoggedIn(oauth, store, tokens, nowMs).value)) == EntryOf(oauth, Existing(store))
  {
    LoginWritesEntry(oauth, store, tokens, nowMs);
    var (issuer, client) := OidcIssuerAndClient(oauth).value;
    var want := OidcProfileKey(issuer, client);
    var saved := LoggedIn(oauth, store, tokens, nowMs).value;
    var entry := EntryOf(oauth, Existing(store)).value;
    if store.Parsed? && store.doc.Object? {
      SelectAgain(store.doc.fields, want, saved.fields[entry]);
    }
  }

  lemma GetField(fields: map<string, Json>, entry: string, inner: map<string, Json>, field: string)
    requires IsPlainField(field) && field in inner
    ensures Get(WithEntry(fields, entry, inner).doc, FieldPointer(entry, field)) == Some(inner[field])
  {
    FieldPointerTokens(entry, field);
    assert FieldPointer(entry, field)[0] == '/';
    assert [entry, field][1..] == [field];
    var below := Object(inner);
    assert GetTokens(below, [field]) == Some(inner[field]);
  }

  lemma PointersExist(oauth: OauthPack, doc: Json)
    requires oauth.credsFormat == Some(OidcAuthJson) && oauth.accessTokenPtr.None?
    requires EntryOf(oauth, Some(doc)).Ok?
    ensures OidcStorePointers(oauth, Some(doc)).Ok? && OidcStorePointers(oauth, Some(doc)).value.Some?
  {
  }

  lemma EntryReads(fields: map<string, Json>, entry: string, before: map<string, Json>, tokens: Tokens, expires: string, url: string)
    ensures var doc := WithEntry(fields, entry, NewFields(before, tokens.access, tokens.refresh, expires, url)).doc;
            && Get(doc, FieldPointer(entry, "key")) == Some(String(tokens.access))
            && (tokens.refresh.Some? ==> Get(doc, FieldPointer(entry, "refresh_token")) == Some(String(tokens.refresh.value)))
            && Get(doc, FieldPointer(entry, "expires_at")) == Some(String(expires))
            && (url != "" ==> Get(doc, FieldPointer(entry, "token_url")) == Some(String(url)))
  {
    hide Get, FieldPointer, IsPlainField;
    var inner := NewFields(before, tokens.access, tokens.refresh, expires, url);
    PlainFields();
    GetField(fields, entry, inner, "key");
    GetField(fields, entry, inner, "expires_at");
    if tokens.refresh.Some? {
      GetField(fields, entry, inner, "refresh_token");
    }
    if url != "" {
      GetField(fields, entry, inner, "token_url");
    }
  }

  /** The next load computes its pointers from the saved document, and reads what the login wrote. */
  lemma LoginReadsBack(oauth: OauthPack, store: Store, tokens: Tokens, nowMs: nat)
    requires LoggedIn(oauth, store, tokens, nowMs).Ok?
    ensures var saved := LoggedIn(oauth, store, tokens, nowMs).value;
            var r := OidcStorePointers(oauth, Some(saved));
            && r.Ok? && r.value.Some?
            && Get(saved, r.value.value.access) == Some(String(tokens.access))
            && (tokens.refresh.Some? ==> Get(saved, r.value.value.refresh) == Some(String(tokens.refresh.value)))
            && Get(saved, r.value.value.expires)
               == Some(String(Rfc3339NowPlus(nowMs, if tokens.expiresIn.Some? then tokens.expiresIn.value else 3600)))
            && var url := OidcTokenUrlPtr(oauth, r.value.value.access);
               url.Some? && (oauth.tokenUrl != "" ==> Get(saved, url.value) == Some(String(oauth.tokenUrl)))
  {
    hide LoggedIn, EntryOf, WithEntry, NewFields, OldFields, Get, OidcStorePointers, Rfc3339NowPlus;
    var saved := LoggedIn(oauth, store, tokens, nowMs).value;
    LoginWritesEntry(oauth, store, tokens, nowMs);
    LoginKeepsEntry(oauth, store, tokens, nowMs);
    LoginIsOidc(oauth, store, tokens, nowMs);
    PointersExist(oauth, saved);
    PointersOfEntry(oauth, Some(saved));
    var entry := EntryOf(oauth, Existing(store)).value;
    EntryReads(FieldsOf(store), entry, OldFields(FieldsOf(store), entry), tokens,
               Rfc3339NowPlus(nowMs, if tokens.expiresIn.Some? then tokens.expiresIn.value else 3600), oauth.tokenUrl);
  }

  lemma LoginIsOidc(oauth: OauthPack, store: Store, tokens: Tokens, nowMs: nat)
    requires LoggedIn(oauth, store, tokens, nowMs).Ok?
    ensures oauth.credsFormat == Some(OidcAuthJson) && oauth.accessTokenPtr.None?
  {
  }

  lemma LogoutTakes(oauth: OauthPack, fields: map<string, Json>, entry: string, inner: map<string, Json>)
    requires oauth.credsFormat == Some(OidcAuthJson)
    requires EntryOf(oauth, Some(WithEntry(fields, entry, inner).doc)) == Ok(entry)
    ensures LoggedOut(oauth, WithEntry(fields, entry, inner).doc) == Ok(Object(fields - {entry}))
  {
    hide SelectOidcEntryKey, OidcIssuerAndClient, OidcProfileKey;
    assert fields[entry := Object(inner)] - {entry} == fields - {entry};
  }

  /** A logout after a login takes out exactly the entry the login wrote. */
  lemma LoginThenLogout(oauth: OauthPack, store: Store, tokens: Tokens, nowMs: nat)
    requires LoggedIn(oauth, store, tokens, nowMs).Ok?
    ensures EntryOf(oauth, Existing(store)).Ok?
    ensures LoggedOut(oauth, LoggedIn(oauth, store, tokens, nowMs).value)
         == Ok(Object(FieldsOf(store) - {EntryOf(oauth, Existing(store)).value}))
  {
    hide LoggedIn, EntryOf, LoggedOut, WithEntry, NewFields, OldFields;
    LoginWritesEntry(oauth, store, tokens, nowMs);
    LoginKeepsEntry(oauth, store, tokens, nowMs);
    LoginIsOidc(oauth, store, tokens, nowMs);
    var entry := EntryOf(oauth, Existing(store)).value;
    var expires := Rfc3339NowPlus(nowMs, if tokens.expiresIn.Some? then tokens.expiresIn.value else 3600);
    LogoutTakes(oauth, FieldsOf(store), entry,
                NewFields(OldFields(FieldsOf(store), entry), tokens.access, tokens.refresh, expires, oauth.tokenUrl));
  }
}
