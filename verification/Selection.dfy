/** The credential store told without its own helpers: which entry a profile has, when a login and a write succeed, what an expiry says. */
module Selection {
  import opened Utf8
  import opened Text
  import opened Json
  import opened OidcStore
  import Rfc3339

  // ---- the name of a profile ----

  lemma {:induction false} FirstPartIs(host: string, path: string)
    requires '/' !in host && (path == "" || path[0] == '/')
    ensures Split(host + path, '/')[0] == host
  {
    if path == "" {
      assert host + path == host;
      SplitFirst(host, '/', "");
    } else {
      assert host + path == host + ['/'] + path[1..];
      SplitFirst(host, '/', path[1..]);
    }
  }

  /** The issuer is the scheme and the host of a URL; white space around the host does not count. */
  lemma OriginIs(host: string, path: string)
    requires '/' !in host && (path == "" || path[0] == '/')
    ensures IssuerOrigin("https://" + host + path) == if Trim(host) == "" then None else Some("https://" + Trim(host))
    ensures IssuerOrigin("http://" + host + path) == if Trim(host) == "" then None else Some("http://" + Trim(host))
  {
    hide Trim, Split;
    assert "https" + "://" == "https://" && "http" + "://" == "http://";
    FirstPartIs(host, path);
    var secure, plain := "https://" + host + path, "http://" + host + path;
    assert secure[8..] == host + path && plain[7..] == host + path;
    assert secure[..8] == "https://" && plain[..7] == "http://" && plain[4] == ':';
  }

  /** No other scheme has an issuer. */
  lemma OtherSchemes(url: string)
    requires !("https://" <= url) && !("http://" <= url)
    ensures IssuerOrigin(url) == None
  {
  }

  lemma {:induction false} NoSlashesToTrim(s: string)
    requires '/' !in s
    ensures TrimEndSlashes("https://" + s) == if s == "" then "https:" else "https://" + s
  {
    if s == "" {
      assert "https://" + s == "https://" && "https://"[..7] == "https:/" && "https:/"[..6] == "https:";
    }
  }

  lemma TrimKeepsOut(s: string)
    requires '/' !in s
    ensures '/' !in Trim(s)
  {
    TrimIsPart(s);
  }

  lemma {:induction false} TrimIsPart(s: string)
    ensures forall c :: c in Trim(s) ==> c in s
  {
    StartIsPart(s);
    EndIsPart(TrimStart(s));
  }

  lemma {:induction false} StartIsPart(s: string)
    ensures forall c :: c in TrimStart(s) ==> c in s
  {
    if s != "" {
      StartIsPart(s[1..]);
    }
  }

  lemma {:induction false} EndIsPart(s: string)
    ensures forall c :: c in TrimEnd(s) ==> c in s
  {
    if s != "" {
      EndIsPart(s[..|s| - 1]);
    }
  }

  /** A profile is named by the host of its authorization URL, or of its token URL if that one has none, and its client. */
  lemma ProfileName(oauth: OauthPack, host: string, path: string)
    requires '/' !in host && Trim(host) != "" && (path == "" || path[0] == '/')
    requires oauth.authorizeUrl == Some("https://" + host + path)
             || (oauth.tokenUrl == "https://" + host + path
                 && (oauth.authorizeUrl.None? || IssuerOrigin(oauth.authorizeUrl.value) == None))
    ensures var client := if oauth.clientId.Some? then Trim(oauth.clientId.value) else "";
            EntryOf(oauth, None) == Ok("https://" + Trim(host) + "::" + client)
  {
    hide Trim, IssuerOrigin, TrimEndSlashes;
    OriginIs(host, path);
    TrimKeepsOut(host);
    NoSlashesToTrim(Trim(host));
  }

  // ---- selection ----

  /** `Contains` by parts. */
  lemma {:induction false} ContainsParts(s: string, pattern: string)
    ensures Contains(s, pattern) <==> exists i: nat :: i <= |s| && pattern <= s[i..]
  {
    assert s[0..] == s;
    if !(pattern <= s) && s != "" {
      ContainsParts(s[1..], pattern);
      if Contains(s[1..], pattern) {
        var i: nat :| i <= |s[1..]| && pattern <= s[1..][i..];
        assert s[1..][i..] == s[i + 1..];
      }
      if i: nat :| i <= |s| && pattern <= s[i..] {
        assert i > 0;
        assert s[1..][i - 1..] == s[i..];
      }
    }
  }

  /** An entry of the profile `want`: `want@name`, or any entry of its issuer if it names no client. */
  ghost predicate Belongs(key: string, want: string) {
    if exists issuer :: issuer != "" && want == issuer + "::" then exists rest :: key == want + rest
    else exists name :: key == want + "@" + name && IsName(name)
  }

  lemma IssuerOnlyIs(want: string)
    ensures IsIssuerOnly(want) <==> exists issuer :: issuer != "" && want == issuer + "::"
  {
    if IsIssuerOnly(want) {
      assert want == want[..|want| - 2] + "::" && want[..|want| - 2] != "";
    }
    if issuer :| issuer != "" && want == issuer + "::" {
      assert want[|want| - 2..] == "::";
    }
  }

  ghost predicate IsName(name: string) {
    name != "" && '/' !in name && forall i: nat | i <= |name| :: !("::" <= name[i..])
  }

  lemma NameIs(name: string)
    ensures IsName(name) <==> name != "" && !Contains(name, "::") && '/' !in name
  {
    ContainsParts(name, "::");
  }

  lemma NamedIs(key: string, want: string)
    ensures IsNamed(key, want) <==> exists name :: key == want + "@" + name && IsName(name)
  {
    hide IsName, Contains;
    if want + "@" <= key {
      var name := key[|want| + 1..];
      assert key == want + "@" + name;
      NameIs(name);
    }
    if name :| key == want + "@" + name && IsName(name) {
      assert key[|want| + 1..] == name && key[..|want| + 1] == want + "@";
      NameIs(name);
    }
  }

  lemma CandidatesBelong(fields: map<string, Json>, want: string, key: string)
    ensures key in Candidates(fields, want) <==> key in fields && Belongs(key, want)
  {
    IssuerOnlyIs(want);
    if IsIssuerOnly(want) {
      if want <= key {
        assert key == want + key[|want|..];
      }
    } else {
      NamedIs(key, want);
    }
  }

  /** A profile without an entry, or with one of its own, is not looked up any further. */
  lemma {:induction false} SelectsItsOwn(doc: Option<Json>, want: string)
    requires doc.Some? && doc.value.Object? ==>
               want in doc.value.fields || forall key | key in doc.value.fields :: !Belongs(key, want)
    ensures SelectOidcEntryKey(doc, want) == Ok(want)
  {
    hide Belongs, Candidates;
    if doc.Some? && doc.value.Object? && want !in doc.value.fields {
      forall key ensures key !in Candidates(doc.value.fields, want) {
        CandidatesBelong(doc.value.fields, want, key);
      }
      assert Candidates(doc.value.fields, want) == {};
    }
  }

  /** The only entry that belongs to a profile is the profile's. */
  lemma {:induction false} SelectsTheOnlyOne(fields: map<string, Json>, want: string, key: string)
    requires want !in fields && key in fields && Belongs(key, want)
    requires forall other | other in fields && Belongs(other, want) :: other == key
    ensures SelectOidcEntryKey(Some(Object(fields)), want) == Ok(key)
  {
    hide Belongs, Candidates;
    forall other ensures other in Candidates(fields, want) <==> other == key {
      CandidatesBelong(fields, want, other);
    }
    assert Candidates(fields, want) == {key};
  }

  /** Two are refused. */
  lemma {:induction false} RefusesTwo(fields: map<string, Json>, want: string, a: string, b: string)
    requires want !in fields && a in fields && b in fields && a != b && Belongs(a, want) && Belongs(b, want)
    ensures SelectOidcEntryKey(Some(Object(fields)), want).Err?
  {
    hide Belongs, Candidates;
    CandidatesBelong(fields, want, a);
    CandidatesBelong(fields, want, b);
    assert |{a, b}| == 2;
    SubsetCounts({a, b}, Candidates(fields, want));
  }

  lemma SubsetCounts(a: set<string>, b: set<string>)
    requires a <= b
    ensures |a| <= |b|
  {
    assert b == a + (b - a);
  }

  // ---- logins and logouts ----

  /**
   A login is saved exactly for a token that is not blank, a profile of this store without pointers of its own, with an
   issuer, an unambiguous entry and, before the first login, a client; in a file that is absent or an object, and whose
   entry is no array.
   */
  lemma {:induction false} LoginSucceedsIff(oauth: OauthPack, store: Store, tokens: Tokens, nowMs: nat)
    ensures LoggedIn(oauth, store, tokens, nowMs).Ok?
       <==> && Trim(tokens.access) != "" && oauth.credsFormat == Some(OidcAuthJson) && oauth.accessTokenPtr.None?
            && EntryOf(oauth, Existing(store)).Ok?
            && (store.Absent? ==> oauth.clientId.Some? && Trim(oauth.clientId.value) != "")
            && !store.Corrupt? && (store.Parsed? ==> store.doc.Object?)
            && (var entry := EntryOf(oauth, Existing(store)).value;
                entry in FieldsOf(store) ==> !FieldsOf(store)[entry].Array?)
  {
    hide AppliedTokens, SelectOidcEntryKey, OidcProfileKey, IssuerOrigin, Trim, FieldPointer, Escape, Rfc3339NowPlus;
    var r := OidcStorePointers(oauth, Existing(store));
    if r.Ok? && r.value.Some? {
      PointersOfEntry(oauth, Existing(store));
      var write := LoginWrite(oauth, r.value.value, tokens);
      if store.Absent? || (store.Parsed? && store.doc.Object?) {
        EntryWrite(FieldsOf(store), write, EntryOf(oauth, Existing(store)).value, nowMs);
      } else if store.Parsed? {
        RefusesWrites(store.doc, write, nowMs);
      }
    }
  }

  /**
   A login saves the tokens in the profile's entry, as texts under `key`, `refresh_token`, `expires_at` and `token_url`. What
   did not come is as it was, and so are the entry's other fields and all other entries.
   */
  lemma LoginSaves(oauth: OauthPack, store: Store, tokens: Tokens, nowMs: nat)
    requires LoggedIn(oauth, store, tokens, nowMs).Ok?
    ensures EntryOf(oauth, Existing(store)).Ok?
    ensures var saved, entry := LoggedIn(oauth, store, tokens, nowMs).value, EntryOf(oauth, Existing(store)).value;
            && saved.Object? && entry in saved.fields && saved.fields[entry].Object?
            && saved.fields - {entry} == FieldsOf(store) - {entry}
            && var inner, before := saved.fields[entry].fields, OldFields(FieldsOf(store), entry);
               && inner - {"key", "refresh_token", "expires_at", "token_url"} == before - {"key", "refresh_token", "expires_at", "token_url"}
               && "key" in inner && inner["key"] == String(tokens.access)
               && "expires_at" in inner
               && inner["expires_at"] == String(Rfc3339NowPlus(nowMs, if tokens.expiresIn.Some? then tokens.expiresIn.value else 3600))
               && (match tokens.refresh
                   case Some(refresh) => "refresh_token" in inner && inner["refresh_token"] == String(refresh)
                   case None => Same(inner, before, "refresh_token"))
               && (if oauth.tokenUrl != "" then "token_url" in inner && inner["token_url"] == String(oauth.tokenUrl)
                   else Same(inner, before, "token_url"))
  {
    hide LoggedIn, EntryOf, OldFields, FieldsOf, Rfc3339NowPlus;
    LoginWritesEntry(oauth, store, tokens, nowMs);
  }

  predicate Same(a: map<string, Json>, b: map<string, Json>, field: string) {
    (field in a <==> field in b) && (field in a ==> a[field] == b[field])
  }

  /** A write of a blank token, into anything but an object, or to the document itself, changes nothing. */
  lemma RefusesWrites(doc: Json, write: TokenWrite, nowMs: nat)
    requires Trim(write.accessToken) == "" || !doc.Object? || write.accessPtr == "" || write.refreshPtr == Some("")
             || write.expiresPtr == Some("") || write.tokenUrlPtr == Some("")
    ensures AppliedTokens(doc, write, nowMs) == Write(doc, Some(EmptyWriteRefused))
  {
  }

  /** A logout succeeds exactly if the profile's entry is there, and takes it out. */
  lemma LogoutSucceedsIff(oauth: OauthPack, doc: Json)
    ensures LoggedOut(oauth, doc).Ok?
       <==> && oauth.credsFormat == Some(OidcAuthJson) && doc.Object?
            && EntryOf(oauth, Some(doc)).Ok? && EntryOf(oauth, Some(doc)).value in doc.fields
    ensures LoggedOut(oauth, doc).Ok? ==>
              LoggedOut(oauth, doc).value == Object(map key | key in doc.fields && key != EntryOf(oauth, Some(doc)).value :: doc.fields[key])
  {
    hide SelectOidcEntryKey, OidcIssuerAndClient, OidcProfileKey;
  }

  // ---- expiry ----

  /** The expiry reads as the clock plus the lifetime, and a lifetime over ten years as ten years. */
  lemma ExpiryReads(nowMs: nat, seconds: nat)
    requires nowMs / 1000 + (if seconds < 315_360_000 then seconds else 315_360_000) <= 253402300799
    ensures Rfc3339.Parse(Rfc3339NowPlus(nowMs, seconds))
         == Ok(nowMs / 1000 + if seconds < 315_360_000 then seconds else 315_360_000)
  {
    hide Rfc3339.Parse, Rfc3339.Format;
    Rfc3339.FormatReadsBack(nowMs / 1000 + if seconds < 315_360_000 then seconds else 315_360_000);
  }

  /**
   An expiry takes the form that stands in its place: a date for a date, or if one is asked for, else a number of
   milliseconds or seconds that stops at the end of 64 bits.
   */
  lemma {:induction false} ExpiryIsWritten(doc: Json, write: TokenWrite, ptr: string, nowMs: nat)
    requires AppliedTokens(doc, write, nowMs).error == None
    requires write.expiresPtr == Some(ptr) && write.refreshToken.None? && (write.tokenUrl.None? || write.tokenUrl == Some(""))
    requires write.accessPtr != "" && write.accessPtr[0] == '/' && ptr != "" && ptr[0] == '/'
    requires Apart(doc, TokensOf(write.accessPtr), TokensOf(ptr))
    ensures var before := Get(doc, ptr);
            var end := 0xFFFF_FFFF_FFFF_FFFF;
            Get(AppliedTokens(doc, write, nowMs).doc, ptr)
            == Some(if write.expiresRfc3339 || (before.Some? && before.value.String?)
                    then String(Rfc3339NowPlus(nowMs, write.expiresInSecs))
                    else
                      var n := match write.expiresUnit
                               case Ms => nowMs + write.expiresInSecs * 1000
                               case S => nowMs / 1000 + write.expiresInSecs;
                      Number((if n < end then n else end) as real))
  {
    hide Set, Get, Rfc3339NowPlus, Apart, TokensOf, Trim;
    var access := Set(doc, write.accessPtr, String(write.accessToken));
    SetKeepsOthers(doc, write.accessPtr, String(write.accessToken), ptr);
    SetReadsBack(access.doc, ptr, ExpiresValue(access.doc, ptr, write, nowMs));
  }
}
