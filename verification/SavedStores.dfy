/**
 The records that the migration saves back whatever their age: the values of setting clients,
 the secrets of web hook clients, and deferred changes
 (src/api/Fig.Api/ExtensionMethods/SettingsClientBusinessEntityExtensions.cs,
 WebHookClientBusinessEntityExtensions.cs and DeferredChangeBusinessEntityExtensions.cs).

 Saving a decrypted record encrypts it under the current secret. None of these records carries
 the time of its encryption.
 */
module SavedStores {
  import opened Text
  import opened Encryption
  import opened ReEncryption
  import opened Migration

  const NO_STAMP := 0

  // ----- encrypted JSON

  /** `SerializeAndEncryptValue`: no value is stored as none. */
  function SealJson<V>(c: Cipher, s: Secrets, json: Json<V>, value: Reading<V>): Option<string> {
    if value.Reads? then Encrypt(c, s, Some(json.render(value.value))) else None
  }

  /** text' says under the current secret alone, and with both secrets, what text said with both. */
  ghost predicate SameJson<V>(c: Cipher, s: Secrets, json: Json<V>, text: Option<string>, text': Option<string>) {
    ReadJson(c, Alone(s), json, text') == ReadJson(c, s, json, text') == ReadJson(c, s, json, text)
  }

  lemma SealedJsonReadsSame<V(!new)>(c: Cipher, s: Secrets, json: Json<V>, text: Option<string>)
    requires Lawful(c) && JsonLaw(json) && !ReadJson(c, s, json, text).Unreadable?
    ensures SameJson(c, s, json, text, SealJson(c, s, json, ReadJson(c, s, json, text)))
  {
    var value := ReadJson(c, s, json, text);
    if value.Reads? {
      assert SealJson(c, s, json, value) == Some(c.seal(s.current, json.render(value.value)));
    }
  }

  /** The number of distinct configured keys that yield JSON of the type is not one. */
  ghost predicate Undecided<V>(c: Cipher, s: Secrets, json: Json<V>, text: Option<string>) {
    text.Some? && |ValidKeys(c, s, text.value, ValidJson(json))| != 1
  }

  lemma UndecidedIsUnreadable<V>(c: Cipher, s: Secrets, json: Json<V>, text: Option<string>)
    ensures ReadJson(c, s, json, text).Unreadable? <==> Undecided(c, s, json, text)
  {
    if text.Some? {
      StrictTextExists(c, s, text.value, ValidJson(json));
    }
  }

  // ----- setting clients

  datatype ClientRow = ClientRow(name: string, valuesAsJson: seq<Option<string>>)

  datatype Client<V> = Client(row: ClientRow, values: seq<Reading<V>>)

  function ReadClient<V>(c: Cipher, s: Secrets, json: Json<V>, r: ClientRow): (values: seq<Reading<V>>)
    ensures |values| == |r.valuesAsJson|
  {
    seq(|r.valuesAsJson|, i requires 0 <= i < |r.valuesAsJson| => ReadJson(c, s, json, r.valuesAsJson[i]))
  }

  /** All values can be read. */
  predicate IsReadable<V>(values: seq<Reading<V>>) {
    forall i :: 0 <= i < |values| ==> !values[i].Unreadable?
  }

  /** What `DeserializeAndDecrypt` makes of a client; None is an exception. */
  function DecryptClient<V>(c: Cipher, s: Secrets, json: Json<V>, client: Client<V>): Option<Client<V>> {
    var values := ReadClient(c, s, json, client.row);
    if IsReadable(values) then Some(client.(values := values)) else None
  }

  /** `SerializeAndEncrypt`. */
  function SaveClient<V>(c: Cipher, s: Secrets, json: Json<V>, client: Client<V>): Client<V> {
    client.(row := client.row.(valuesAsJson :=
      seq(|client.values|, i requires 0 <= i < |client.values| => SealJson(c, s, json, client.values[i]))))
  }

  function ClientKind<V>(c: Cipher, s: Secrets, json: Json<V>): Kind<ClientRow, Client<V>> {
    Kind((r: ClientRow) => NO_STAMP,
         (r: ClientRow) => Client(r, []),
         (client: Client<V>) => DecryptClient(c, s, json, client),
         (client: Client<V>) => Some(client),
         (client: Client<V>, now: int) => SaveClient(c, s, json, client),
         (client: Client<V>) => client.row)
  }

  /** `DeserializeAndDecryptValue`: strict validated decryption, with either key first. */
  method DeserializeAndDecryptValue<V>(c: Cipher, s: Secrets, json: Json<V>, text: Option<string>, tryFallbackFirst: bool)
    returns (value: Reading<V>)
    ensures value == ReadJson(c, s, json, text)
  {
    if text.None? {
      return NoValue;
    }
    var r := DecryptWithValidation(c, s, text, ValidJson(json), tryFallbackFirst, Strict);
    StrictTextIsOutcome(c, s, text.value, ValidJson(json), r);
    return if r.Accepted? then Reads(json.parse(r.text.value).value) else Unreadable;
  }

  /** The loop over the settings of a client. */
  method DeserializeAndDecrypt<V>(c: Cipher, s: Secrets, json: Json<V>, client: Entity<Client<V>>, tryFallbackFirst: bool)
    returns (ok: bool)
    modifies client
    ensures ok <==> DecryptClient(c, s, json, old(client.data)).Some?
    ensures ok ==> DecryptClient(c, s, json, old(client.data)) == Some(client.data)
  {
    var texts := client.data.row.valuesAsJson;
    ghost var all := ReadClient(c, s, json, client.data.row);
    var values: seq<Reading<V>> := [];
    for i := 0 to |texts|
      invariant client.data == old(client.data)
      invariant values == all[..i] && IsReadable(values)
    {
      var value := DeserializeAndDecryptValue(c, s, json, texts[i], tryFallbackFirst);
      assert value == all[i];
      if value.Unreadable? {
        return false;
      }
      values := values + [value];
    }
    assert all[..|texts|] == all;
    client.data := client.data.(values := values);
    return true;
  }

  ghost predicate SameClient<V>(c: Cipher, s: Secrets, json: Json<V>, r: ClientRow, r': ClientRow) {
    && r'.name == r.name && |r'.valuesAsJson| == |r.valuesAsJson|
    && forall i :: 0 <= i < |r.valuesAsJson| ==> SameJson(c, s, json, r.valuesAsJson[i], r'.valuesAsJson[i])
  }

  lemma ClientPreserved<V(!new)>(c: Cipher, s: Secrets, json: Json<V>, date: int, r: ClientRow, r': ClientRow)
    requires Lawful(c) && JsonLaw(json) && Migrated(ClientKind(c, s, json), date, r, r')
    ensures SameClient(c, s, json, r, r')
  {
    var values := ReadClient(c, s, json, r);
    forall i | 0 <= i < |r.valuesAsJson| ensures SameJson(c, s, json, r.valuesAsJson[i], r'.valuesAsJson[i]) {
      assert !values[i].Unreadable?;
      SealedJsonReadsSame(c, s, json, r.valuesAsJson[i]);
    }
  }

  /** Exactly a client with an undecided value stops the migration. */
  lemma ClientStops<V>(c: Cipher, s: Secrets, json: Json<V>, r: ClientRow)
    ensures Prepared(ClientKind(c, s, json), r).None? <==>
              exists i :: 0 <= i < |r.valuesAsJson| && Undecided(c, s, json, r.valuesAsJson[i])
  {
    var values := ReadClient(c, s, json, r);
    forall i | 0 <= i < |r.valuesAsJson| ensures values[i].Unreadable? <==> Undecided(c, s, json, r.valuesAsJson[i]) {
      UndecidedIsUnreadable(c, s, json, r.valuesAsJson[i]);
    }
  }

  // ----- web hook clients

  datatype WebHookRow = WebHookRow(secretEncrypted: Option<string>)

  datatype WebHook = WebHook(row: WebHookRow, secret: Option<string>)

  /** The previous secret first, and no passing through of what cannot be decrypted. */
  function DecryptWebHook(c: Cipher, s: Secrets, webHook: WebHook): Option<WebHook> {
    match Decrypt(c, s, webHook.row.secretEncrypted, true, true)
    case Failed(_) => None
    case Plain(secret) => Some(webHook.(secret := secret))
  }

  function WebHookKind(c: Cipher, s: Secrets): Kind<WebHookRow, WebHook> {
    Kind((r: WebHookRow) => NO_STAMP,
         (r: WebHookRow) => WebHook(r, None),
         (webHook: WebHook) => DecryptWebHook(c, s, webHook),
         (webHook: WebHook) => Some(webHook),
         (webHook: WebHook, now: int) => webHook.(row := WebHookRow(Encrypt(c, s, webHook.secret))),
         (webHook: WebHook) => webHook.row)
  }

  ghost predicate SameWebHook(c: Cipher, s: Secrets, r: WebHookRow, r': WebHookRow) {
    forall first ::
      Decrypt(c, Alone(s), r'.secretEncrypted, first, true) == Decrypt(c, s, r'.secretEncrypted, first, true)
      == Decrypt(c, s, r.secretEncrypted, true, true)
  }

  lemma WebHookPreserved(c: Cipher, s: Secrets, date: int, r: WebHookRow, r': WebHookRow)
    requires Lawful(c) && Migrated(WebHookKind(c, s), date, r, r')
    ensures SameWebHook(c, s, r, r')
  {
    forall first
      ensures Decrypt(c, Alone(s), r'.secretEncrypted, first, true) == Decrypt(c, s, r'.secretEncrypted, first, true)
              == Decrypt(c, s, r.secretEncrypted, true, true)
    {
      ResealedReadsSame(c, s, r.secretEncrypted, first, true);
    }
  }

  /** Exactly a secret that no configured key opens stops the migration: here also text that is
      not encrypted at all. */
  lemma WebHookStops(c: Cipher, s: Secrets, r: WebHookRow)
    requires Lawful(c)
    ensures Prepared(WebHookKind(c, s), r).None? <==>
              && r.secretEncrypted.Some? && r.secretEncrypted.value != ""
              && forall k :: k in s.Keys() ==> !c.open(k, r.secretEncrypted.value).Opened?
  {
    ThrowingDecryptFails(c, s, r.secretEncrypted, true);
  }

  // ----- deferred changes

  datatype ChangeRow = ChangeRow(changeSetAsJson: Option<string>)

  datatype Change<W> = Change(row: ChangeRow, changeSet: Reading<W>)

  function DecryptChange<W>(c: Cipher, s: Secrets, json: Json<W>, change: Change<W>): Option<Change<W>> {
    var changeSet := ReadJson(c, s, json, change.row.changeSetAsJson);
    if changeSet.Unreadable? then None else Some(change.(changeSet := changeSet))
  }

  function ChangeKind<W>(c: Cipher, s: Secrets, json: Json<W>): Kind<ChangeRow, Change<W>> {
    Kind((r: ChangeRow) => NO_STAMP,
         (r: ChangeRow) => Change(r, NoValue),
         (change: Change<W>) => DecryptChange(c, s, json, change),
         (change: Change<W>) => Some(change),
         (change: Change<W>, now: int) => change.(row := ChangeRow(SealJson(c, s, json, change.changeSet))),
         (change: Change<W>) => change.row)
  }

  ghost predicate SameChange<W>(c: Cipher, s: Secrets, json: Json<W>, r: ChangeRow, r': ChangeRow) {
    SameJson(c, s, json, r.changeSetAsJson, r'.changeSetAsJson)
  }

  lemma ChangePreserved<W(!new)>(c: Cipher, s: Secrets, json: Json<W>, date: int, r: ChangeRow, r': ChangeRow)
    requires Lawful(c) && JsonLaw(json) && Migrated(ChangeKind(c, s, json), date, r, r')
    ensures SameChange(c, s, json, r, r')
  {
    SealedJsonReadsSame(c, s, json, r.changeSetAsJson);
  }

  lemma ChangeStops<W>(c: Cipher, s: Secrets, json: Json<W>, r: ChangeRow)
    ensures Prepared(ChangeKind(c, s, json), r).None? <==> Undecided(c, s, json, r.changeSetAsJson)
  {
    UndecidedIsUnreadable(c, s, json, r.changeSetAsJson);
  }
}
