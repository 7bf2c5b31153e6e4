/** Vault configurations at rest (storage/config_store.go): the auth part is encrypted in place, through
    the pointers of the caller's own configuration, before it is written down. */
module ConfigStore {
  import opened Prelude
  import opened Crypto
  import Base64
  import opened ConfigTable

  // ---------------------------------------------------------------- the configuration on the heap

  /** A Go map: a reference. */
  class HeaderMap {
    var entries: map<string, bytes>

    constructor (entries: map<string, bytes>)
      ensures this.entries == entries
    {
      this.entries := entries;
    }
  }

  class OAuthConfig {
    const plain: map<string, string>      // token endpoint, client id, scope, extra parameters
    var clientSecret: bytes

    constructor (plain: map<string, string>, clientSecret: bytes)
      ensures this.plain == plain && this.clientSecret == clientSecret
    {
      this.plain, this.clientSecret := plain, clientSecret;
    }
  }

  class AuthConfig {
    const scheme: string         // "method" in the JSON document
    const headers: HeaderMap?
    const oauth: OAuthConfig?

    constructor (scheme: string, headers: HeaderMap?, oauth: OAuthConfig?)
      ensures this.scheme == scheme && this.headers == headers && this.oauth == oauth
    {
      this.scheme, this.headers, this.oauth := scheme, headers, oauth;
    }
  }

  /** A `VaultConfig` value: copying it copies the pointer to the auth part.  `plain` stands for the
      JSON-visible fields the store never looks at. */
  datatype VaultConfig = VaultConfig(id: string, plain: map<string, string>, auth: AuthConfig?)

  // ---------------------------------------------------------------- the JSON document

  datatype OAuthDoc = OAuthDoc(plain: map<string, string>, clientSecret: bytes)
  datatype AuthDoc = AuthDoc(scheme: string, headers: Option<map<string, bytes>>, oauth: Option<OAuthDoc>)
  datatype VaultDoc = VaultDoc(id: string, plain: map<string, string>, auth: Option<AuthDoc>)

  ghost function Footprint(v: VaultConfig): set<object> {
    if v.auth == null then {}
    else (if v.auth.headers == null then {} else {v.auth.headers}) +
         (if v.auth.oauth == null then {} else {v.auth.oauth})
  }

  function HeadersDoc(h: HeaderMap?): Option<map<string, bytes>>
    reads h
  {
    if h == null then None else Some(h.entries)
  }

  function OAuthDocOf(o: OAuthConfig?): Option<OAuthDoc>
    reads o
  {
    if o == null then None else Some(OAuthDoc(o.plain, o.clientSecret))
  }

  /** What `json.Marshal` shows of a configuration. */
  function DocOf(v: VaultConfig): VaultDoc
    reads Footprint(v)
  {
    VaultDoc(v.id, v.plain,
             if v.auth == null then None
             else Some(AuthDoc(v.auth.scheme, HeadersDoc(v.auth.headers), OAuthDocOf(v.auth.oauth))))
  }

  // ---------------------------------------------------------------- what encryption does to a document

  /** Sealed once under some nonce; it decrypts, and is longer than the plain text. */
  ghost predicate SealedField(aead: Aead, plain: bytes, sealed: bytes) {
    SealedText(aead, plain, sealed) && Unframe(aead, sealed) == Ok(plain) && |sealed| > |plain|
  }

  ghost predicate SealedHeaders(aead: Aead, plain: map<string, bytes>, sealed: map<string, bytes>) {
    && sealed.Keys == plain.Keys
    && forall k | k in plain :: SealedField(aead, plain[k], sealed[k])
  }

  ghost predicate SealedSecret(aead: Aead, plain: bytes, sealed: bytes) {
    if plain == [] then sealed == [] else SealedField(aead, plain, sealed)
  }

  ghost predicate SealedAuth(aead: Aead, plain: AuthDoc, sealed: AuthDoc) {
    && sealed.scheme == plain.scheme
    && (match plain.headers
        case None => sealed.headers == None
        case Some(h) => sealed.headers.Some? && SealedHeaders(aead, h, sealed.headers.value))
    && (match plain.oauth
        case None => sealed.oauth == None
        case Some(o) =>
          && sealed.oauth.Some? && sealed.oauth.value.plain == o.plain
          && SealedSecret(aead, o.clientSecret, sealed.oauth.value.clientSecret))
  }

  /** Every header is encrypted exactly once, so is a non-empty client secret, and nothing else. */
  ghost predicate Sealed(aead: Aead, plain: VaultDoc, sealed: VaultDoc) {
    && sealed.id == plain.id && sealed.plain == plain.plain
    && (match plain.auth
        case None => sealed.auth == None
        case Some(a) => sealed.auth.Some? && SealedAuth(aead, a, sealed.auth.value))
  }

  predicate HasSecrets(d: VaultDoc) {
    && d.auth.Some?
    && (|| (d.auth.value.headers.Some? && d.auth.value.headers.value != map[])
        || (d.auth.value.oauth.Some? && d.auth.value.oauth.value.clientSecret != []))
  }

  // ---------------------------------------------------------------- what decryption makes of a document

  predicate OpensText(aead: Aead, t: bytes) { Unframe(aead, t).Ok? }

  /** Does every encrypted field of the document decrypt? */
  predicate Opens(aead: Aead, d: VaultDoc) {
    d.auth.Some? ==>
      && (d.auth.value.headers.Some? ==>
            forall k | k in d.auth.value.headers.value :: OpensText(aead, d.auth.value.headers.value[k]))
      && (d.auth.value.oauth.Some? && d.auth.value.oauth.value.clientSecret != [] ==>
            OpensText(aead, d.auth.value.oauth.value.clientSecret))
  }

  function OpenedText(aead: Aead, t: bytes): bytes {
    var r := Unframe(aead, t);
    if r.Ok? then r.value else t
  }

  function OpenedHeaders(aead: Aead, h: map<string, bytes>): map<string, bytes> {
    map k | k in h :: OpenedText(aead, h[k])
  }

  function OpenedOAuth(aead: Aead, o: OAuthDoc): OAuthDoc {
    if o.clientSecret == [] then o else o.(clientSecret := OpenedText(aead, o.clientSecret))
  }

  function Opened(aead: Aead, d: VaultDoc): VaultDoc {
    match d.auth
    case None => d
    case Some(a) =>
      d.(auth := Some(AuthDoc(a.scheme,
                              if a.headers.Some? then Some(OpenedHeaders(aead, a.headers.value)) else None,
                              if a.oauth.Some? then Some(OpenedOAuth(aead, a.oauth.value)) else None)))
  }

  /** The text is base64 of a nonce and of what the AEAD opens under it. */
  ghost predicate OpensTo(aead: Aead, text: bytes, plain: bytes) {
    exists nonce: bytes, sealed: bytes | |nonce| == 12 ::
      Base64.Decode(text) == Some(nonce + sealed) && aead.open(nonce, sealed) == Some(plain)
  }

  lemma OpensTextSays(aead: Aead, text: bytes, plain: bytes)
    ensures OpensText(aead, text) && OpenedText(aead, text) == plain <==> OpensTo(aead, text, plain)
  {
    if OpensTo(aead, text, plain) {
      var nonce: bytes, sealed: bytes :| |nonce| == 12
        && Base64.Decode(text) == Some(nonce + sealed) && aead.open(nonce, sealed) == Some(plain);
      var data := nonce + sealed;
      assert data[..12] == nonce && data[12..] == sealed;
    }
    if OpensText(aead, text) && OpenedText(aead, text) == plain {
      var data := Base64.Decode(text).value;
      assert data == data[..12] + data[12..] && |data[..12]| == 12;
    }
  }

  /** A document opens exactly when each header and each non-empty client secret is such a text; it then
      shows what the texts open to, and otherwise what it showed. */
  lemma OpensSays(aead: Aead, d: VaultDoc)
    ensures Opens(aead, d) <==>
              && (d.auth.Some? && d.auth.value.headers.Some? ==>
                    var h := d.auth.value.headers.value;
                    forall k | k in h :: exists plain :: OpensTo(aead, h[k], plain))
              && (d.auth.Some? && d.auth.value.oauth.Some? && d.auth.value.oauth.value.clientSecret != [] ==>
                    exists plain :: OpensTo(aead, d.auth.value.oauth.value.clientSecret, plain))
    ensures Opens(aead, d) ==>
              var o := Opened(aead, d);
              && o.id == d.id && o.plain == d.plain && o.auth.Some? == d.auth.Some?
              && (d.auth.Some? ==> OpenedAuthSays(aead, d.auth.value, o.auth.value))
  {
    forall text
      ensures OpensText(aead, text) <==> exists plain :: OpensTo(aead, text, plain)
      ensures OpensText(aead, text) ==> OpensTo(aead, text, OpenedText(aead, text))
    {
      OpensTextSays(aead, text, OpenedText(aead, text));
      if plain :| OpensTo(aead, text, plain) {
        OpensTextSays(aead, text, plain);
      }
    }
  }

  ghost predicate OpenedAuthSays(aead: Aead, a: AuthDoc, o: AuthDoc) {
    && o.scheme == a.scheme && o.headers.Some? == a.headers.Some? && o.oauth.Some? == a.oauth.Some?
    && (a.headers.Some? ==>
          && o.headers.value.Keys == a.headers.value.Keys
          && forall k | k in a.headers.value :: OpensTo(aead, a.headers.value[k], o.headers.value[k]))
    && (a.oauth.Some? ==>
          && o.oauth.value.plain == a.oauth.value.plain
          && if a.oauth.value.clientSecret == [] then o.oauth.value.clientSecret == []
             else OpensTo(aead, a.oauth.value.clientSecret, o.oauth.value.clientSecret))
  }

  lemma OpenedUndoesSealedHeaders(aead: Aead, plain: map<string, bytes>, sealed: map<string, bytes>)
    requires SealedHeaders(aead, plain, sealed)
    ensures forall k | k in sealed :: OpensText(aead, sealed[k])
    ensures OpenedHeaders(aead, sealed) == plain
  {}

  lemma OpenedUndoesSealedSecret(aead: Aead, plain: OAuthDoc, sealed: OAuthDoc)
    requires sealed.plain == plain.plain && SealedSecret(aead, plain.clientSecret, sealed.clientSecret)
    ensures sealed.clientSecret != [] ==> OpensText(aead, sealed.clientSecret)
    ensures OpenedOAuth(aead, sealed) == plain
  {}

  /** Decrypting a sealed document gives back the document that was sealed. */
  lemma OpenedUndoesSealed(aead: Aead, plain: VaultDoc, sealed: VaultDoc)
    requires Sealed(aead, plain, sealed)
    ensures Opens(aead, sealed) && Opened(aead, sealed) == plain
  {
    if plain.auth.Some? {
      var p, s := plain.auth.value, sealed.auth.value;
      if p.headers.Some? {
        OpenedUndoesSealedHeaders(aead, p.headers.value, s.headers.value);
      }
      if p.oauth.Some? {
        OpenedUndoesSealedSecret(aead, p.oauth.value, s.oauth.value);
      }
    }
  }

  datatype StoreError = CannotEncrypt | CannotDecrypt(error: CryptoError)

  // ---------------------------------------------------------------- the store

  class Store {
    var rows: seq<Row<VaultDoc>>
    const encryptor: Encryptor?

    constructor (encryptor: Encryptor?)
      ensures rows == [] && this.encryptor == encryptor
    {
      rows := [];
      this.encryptor := encryptor;
    }

    ghost predicate Valid()
    {
      encryptor != null ==> encryptor.Valid()
    }

    /** `encryptVaultAuth`.  When a nonce cannot be drawn it stops where it is. */
    method EncryptVaultAuth(v: VaultConfig, encryptor: Encryptor) returns (ok: bool)
      requires encryptor.Valid()
      modifies encryptor`drawn, Footprint(v)
      ensures ok ==> Sealed(encryptor.aead, old(DocOf(v)), DocOf(v))
      ensures encryptor.NeverFails() ==> ok
    {
      if v.auth == null {
        return true;
      }
      if v.auth.headers != null {
        ok := EncryptHeaders(v.auth.headers, encryptor);
        if !ok {
          return false;
        }
      }
      if v.auth.oauth != null && v.auth.oauth.clientSecret != [] {
        var enc := encryptor.EncryptString(v.auth.oauth.clientSecret);
        if enc.Err? {
          return false;
        }
        v.auth.oauth.clientSecret := enc.value;
      }
      ok := true;
    }

    /** The range loop over the header map: each key once, in any order. */
    method EncryptHeaders(h: HeaderMap, encryptor: Encryptor) returns (ok: bool)
      requires encryptor.Valid()
      modifies encryptor`drawn, h
      ensures ok ==> SealedHeaders(encryptor.aead, old(h.entries), h.entries)
      ensures encryptor.NeverFails() ==> ok
    {
      var todo := h.entries.Keys;
      while todo != {}
        invariant todo <= h.entries.Keys == old(h.entries).Keys
        invariant forall k | k in todo :: h.entries[k] == old(h.entries)[k]
        invariant forall k | k in h.entries && k !in todo ::
                    SealedField(encryptor.aead, old(h.entries)[k], h.entries[k])
        decreases todo
      {
        var k :| k in todo;
        var enc := encryptor.EncryptString(h.entries[k]);
        if enc.Err? {
          return false;
        }
        h.entries := h.entries[k := enc.value];
        todo := todo - {k};
      }
      ok := true;
    }

    /** `decryptVaultAuth`, on objects just unmarshalled. */
    method DecryptVaultAuth(v: VaultConfig, encryptor: Encryptor) returns (r: Result<(), StoreError>)
      modifies Footprint(v)
      ensures r.Ok? <==> Opens(encryptor.aead, old(DocOf(v)))
      ensures r.Ok? ==> DocOf(v) == Opened(encryptor.aead, old(DocOf(v)))
    {
      if v.auth == null {
        return Ok(());
      }
      if v.auth.headers != null {
        r := DecryptHeaders(v.auth.headers, encryptor);
        if r.Err? {
          return;
        }
      }
      if v.auth.oauth != null && v.auth.oauth.clientSecret != [] {
        var dec := DecryptOne(v.auth.oauth.clientSecret, encryptor);
        if dec.Err? {
          return Err(dec.error);
        }
        v.auth.oauth.clientSecret := dec.value;
      }
      r := Ok(());
    }

    method DecryptHeaders(h: HeaderMap, encryptor: Encryptor) returns (r: Result<(), StoreError>)
      modifies h
      ensures r.Ok? <==> forall k | k in old(h.entries) :: OpensText(encryptor.aead, old(h.entries)[k])
      ensures r.Ok? ==> h.entries == OpenedHeaders(encryptor.aead, old(h.entries))
    {
      var todo := h.entries.Keys;
      ghost var was := h.entries;
      while todo != {}
        invariant todo <= h.entries.Keys == was.Keys
        invariant forall k | k in todo :: h.entries[k] == was[k]
        invariant forall k | k in was.Keys - todo ::
                    OpensText(encryptor.aead, was[k]) && h.entries[k] == OpenedText(encryptor.aead, was[k])
        decreases todo
      {
        var k :| k in todo;
        var dec := DecryptOne(h.entries[k], encryptor);
        if dec.Err? {
          return Err(dec.error);
        }
        h.entries := h.entries[k := dec.value];
        todo := todo - {k};
      }
      assert h.entries == OpenedHeaders(encryptor.aead, was);
      r := Ok(());
    }

    method DecryptOne(text: bytes, encryptor: Encryptor) returns (r: Result<bytes, StoreError>)
      ensures r.Ok? <==> OpensText(encryptor.aead, text)
      ensures r.Ok? ==> r.value == OpenedText(encryptor.aead, text)
    {
      var dec := encryptor.DecryptString(text);
      r := match dec { case Ok(p) => Ok(p) case Err(e) => Err(CannotDecrypt(e)) };
    }

    /** `SaveVault`: the row of this id then holds the configuration, encrypted once; every other id reads
        as before.  The caller's configuration is left encrypted too: it shows what was stored. */
    method SaveVault(v: VaultConfig, now: int) returns (r: Result<(), StoreError>)
      requires Valid()
      modifies this`rows, Footprint(v)
      modifies if encryptor == null then {} else {encryptor}
      ensures r.Ok? ==> rows == Saved(old(rows), v.id, DocOf(v), now)
      ensures r.Ok? && encryptor != null ==> Sealed(encryptor.aead, old(DocOf(v)), DocOf(v))
      ensures encryptor == null ==> r.Ok? && DocOf(v) == old(DocOf(v))
      ensures r.Err? ==> encryptor != null && rows == old(rows) && !encryptor.NeverFails()
    {
      if encryptor != null {
        var ok := EncryptVaultAuth(v, encryptor);
        if !ok {
          return Err(CannotEncrypt);
        }
      }
      rows := Saved(rows, v.id, DocOf(v), now);
      r := Ok(());
    }

    /** `json.Unmarshal`: a configuration made of new objects. */
    method Unmarshal(d: VaultDoc) returns (v: VaultConfig)
      ensures DocOf(v) == d && fresh(Footprint(v))
    {
      if d.auth.None? {
        return VaultConfig(d.id, d.plain, null);
      }
      var a := d.auth.value;
      var headers: HeaderMap? := null;
      if a.headers.Some? {
        headers := new HeaderMap(a.headers.value);
      }
      var oauth: OAuthConfig? := null;
      if a.oauth.Some? {
        oauth := new OAuthConfig(a.oauth.value.plain, a.oauth.value.clientSecret);
      }
      var auth := new AuthConfig(a.scheme, headers, oauth);
      v := VaultConfig(d.id, d.plain, auth);
    }

    /** `GetVault`: nothing for an unknown id; otherwise new objects showing the stored document
        decrypted, or an error exactly when some field of it does not decrypt. */
    method GetVault(id: string) returns (r: Result<Option<VaultConfig>, StoreError>)
      requires Valid()
      ensures Lookup(rows, id).None? <==> r == Ok(None)
      ensures r.Ok? && r.value.Some? ==> fresh(Footprint(r.value.value))
      ensures encryptor == null && Lookup(rows, id).Some? ==>
                r.Ok? && r.value.Some? && DocOf(r.value.value) == Lookup(rows, id).value
      ensures encryptor != null && Lookup(rows, id).Some? ==>
                && (r.Ok? <==> Opens(encryptor.aead, Lookup(rows, id).value))
                && (r.Ok? ==> r.value.Some? && DocOf(r.value.value) == Opened(encryptor.aead, Lookup(rows, id).value))
    {
      var raw := Lookup(rows, id);
      if raw.None? {
        return Ok(None);
      }
      var v := Unmarshal(raw.value);
      if encryptor != null {
        var d := DecryptVaultAuth(v, encryptor);
        if d.Err? {
          return Err(d.error);
        }
      }
      r := Ok(Some(v));
    }

    /** `ListVaults`: every stored document decrypted, in the order of the rows; an error when one does
        not decrypt. */
    method ListVaults() returns (r: Result<seq<VaultConfig>, StoreError>)
      requires Valid()
      ensures r.Ok? ==> |r.value| == |rows|
      ensures r.Ok? ==> forall i | 0 <= i < |rows| ::
                DocOf(r.value[i]) == if encryptor == null then rows[i].doc else Opened(encryptor.aead, rows[i].doc)
      ensures r.Ok? <==> encryptor == null || forall i | 0 <= i < |rows| :: Opens(encryptor.aead, rows[i].doc)
    {
      var vaults: seq<VaultConfig> := [];
      for n := 0 to |rows|
        invariant |vaults| == n
        invariant encryptor != null ==> forall i | 0 <= i < n :: Opens(encryptor.aead, rows[i].doc)
        invariant forall i | 0 <= i < n :: fresh(Footprint(vaults[i]))
        invariant forall i | 0 <= i < n ::
                    DocOf(vaults[i]) == if encryptor == null then rows[i].doc else Opened(encryptor.aead, rows[i].doc)
      {
        var v := Unmarshal(rows[n].doc);
        if encryptor != null {
          var d := DecryptVaultAuth(v, encryptor);
          if d.Err? {
            return Err(d.error);
          }
        }
        vaults := vaults + [v];
      }
      r := Ok(vaults);
    }

    method DeleteVault(id: string)
      modifies this`rows
      ensures rows == Deleted(old(rows), id)
    {
      rows := Deleted(rows, id);
    }

    /** Saving and reading back gives the configuration as it was before the save, in new objects, for
        any headers and any client secret, empty ones included. */
    method RoundTrip(v: VaultConfig, now: int) returns (saved: bool, w: VaultConfig)
      requires Valid()
      modifies this`rows, Footprint(v)
      modifies if encryptor == null then {} else {encryptor}
      ensures encryptor == null || encryptor.NeverFails() ==> saved
      ensures saved ==> DocOf(w) == old(DocOf(v)) && fresh(Footprint(w))
      ensures saved ==> (DocOf(v) == old(DocOf(v)) <==> encryptor == null || !HasSecrets(old(DocOf(v))))
    {
      ghost var plain := DocOf(v);
      var s := SaveVault(v, now);
      w := v;
      saved := s.Ok?;
      if saved {
        SavedLookup(old(rows), v.id, DocOf(v), now, v.id);
        if encryptor != null {
          SealedChanges(encryptor.aead, plain, DocOf(v));
          OpenedUndoesSealed(encryptor.aead, plain, DocOf(v));
        }
        var g := GetVault(v.id);
        w := g.value.value;
      }
    }

    /** Saving the same configuration object twice stores it encrypted twice: it reads back as it was
        exactly when there was nothing to encrypt. */
    method SaveTwice(v: VaultConfig, now: int) returns (saved: bool, w: VaultConfig)
      requires Valid()
      modifies this`rows, Footprint(v)
      modifies if encryptor == null then {} else {encryptor}
      ensures encryptor == null || encryptor.NeverFails() ==> saved
      ensures saved ==> (DocOf(w) == old(DocOf(v)) <==> encryptor == null || !HasSecrets(old(DocOf(v))))
    {
      ghost var plain := DocOf(v);
      var s := SaveVault(v, now);
      w := v;
      if s.Err? {
        return false, w;
      }
      if encryptor != null {
        SealedChanges(encryptor.aead, plain, DocOf(v));
      }
      saved, w := RoundTrip(v, now);
    }
  }

  /** Encryption shows: the document changes exactly when it has something to encrypt. */
  lemma SealedChanges(aead: Aead, plain: VaultDoc, sealed: VaultDoc)
    requires Sealed(aead, plain, sealed)
    ensures sealed == plain <==> !HasSecrets(plain)
  {
    if HasSecrets(plain) && plain.auth.value.headers.Some? && plain.auth.value.headers.value != map[] {
      var h := plain.auth.value.headers.value;
      var k :| k in h;
      assert sealed.auth.value.headers.value[k] != h[k];
    }
    if !HasSecrets(plain) && plain.auth.Some? && plain.auth.value.headers.Some? {
      assert sealed.auth.value.headers.value == map[];
    }
  }
}
