/**
 Decryption with a current and a previous API secret
 (src/api/Fig.Api/Services/EncryptionService.cs and, under it,
 src/common/Fig.Common.NetStandard/Cryptography/Cryptography.cs).

 The cipher itself is a parameter; what a theorem needs of it is stated as a law.
 */
module Encryption {
  import opened Text

  /** One attempt to open a text that is not empty with one key. Text that is not Base64
      fails before any key is used. */
  datatype Attempt = Opened(text: string) | CryptographicError | FormatError

  datatype Cipher = Cipher(seal: (string, string) -> string, open: (string, string) -> Attempt)

  datatype Error = CryptographicException | FormatException | ApplicationException

  datatype Decrypted = Plain(text: Option<string>) | Failed(error: Error)

  /** The configured API secrets. */
  datatype Secrets = Secrets(current: string, previous: Option<string>)
  {
    predicate HasPrevious() {
      !IsNullOrBlank(previous)
    }

    function Keys(): set<string> {
      {current} + if HasPrevious() then {previous.value} else {}
    }
  }

  // ----- laws

  ghost predicate RoundTrips(c: Cipher) {
    forall k, p :: p != "" ==> c.seal(k, p) != "" && c.open(k, c.seal(k, p)) == Opened(p)
  }

  /** Authenticity: a text opens under one key at most. */
  ghost predicate OneKey(c: Cipher) {
    forall k, k', x :: c.open(k, x).Opened? && c.open(k', x).Opened? ==> k == k'
  }

  /** Whether a text is Base64 does not depend on the key. */
  ghost predicate FormatIsOfText(c: Cipher) {
    forall k, k', x :: c.open(k, x).FormatError? ==> c.open(k', x).FormatError?
  }

  ghost predicate Lawful(c: Cipher) {
    RoundTrips(c) && OneKey(c) && FormatIsOfText(c)
  }

  // The laws can be met: a cipher that writes the key, marked character by character, in
  // front of the text.
  function Mark(k: string, p: string): string {
    if k == "" then "0" + p else ['1', k[0]] + Mark(k[1..], p)
  }

  function Unmark(x: string): Option<(string, string)> {
    if x == "" then None
    else if x[0] == '0' then Some(("", x[1..]))
    else if x[0] == '1' && |x| >= 2 then
      match Unmark(x[2..])
      case None => None
      case Some(pair) => Some(([x[1]] + pair.0, pair.1))
    else None
  }

  lemma {:induction false} UnmarkMark(k: string, p: string)
    ensures Mark(k, p) != "" && Unmark(Mark(k, p)) == Some((k, p))
  {
    if k != "" {
      UnmarkMark(k[1..], p);
      assert Mark(k, p)[2..] == Mark(k[1..], p);
      assert [k[0]] + k[1..] == k;
    }
  }

  lemma LawfulCipherExists() returns (c: Cipher)
    ensures Lawful(c)
  {
    c := Cipher(Mark, (k, x) =>
      match Unmark(x)
      case None => FormatError
      case Some(pair) => if pair.0 == k then Opened(pair.1) else CryptographicError);
    forall k, p | p != "" ensures c.seal(k, p) != "" && c.open(k, c.seal(k, p)) == Opened(p) {
      UnmarkMark(k, p);
    }
  }

  // ----- Cryptography

  function Seal(c: Cipher, key: string, plainText: string): string {
    if plainText == "" then "" else c.seal(key, plainText)
  }

  /** `GetEncryptionKeys`: the fallback key, when there is one, before or after the key. */
  function EncryptionKeys(key: string, fallback: Option<string>, fallbackFirst: bool): (keys: seq<string>)
    ensures forall k :: k in keys <==> k in Secrets(key, fallback).Keys()
    ensures |keys| == if IsNullOrBlank(fallback) then 1 else 2
    ensures keys[0] == if fallbackFirst && fallback.Some? && !IsBlank(fallback.value) then fallback.value else key
  {
    (if fallbackFirst && !IsNullOrBlank(fallback) then [fallback.value] else [])
    + [key]
    + (if !fallbackFirst && !IsNullOrBlank(fallback) then [fallback.value] else [])
  }

  /** What trying the keys in turn leads to; a single key's own error is passed on. */
  function TryKeys(c: Cipher, keys: seq<string>, text: string, single: bool): (r: Decrypted)
    ensures r.Plain? ==> r.text.Some?
  {
    if keys == [] then Failed(ApplicationException)
    else match c.open(keys[0], text)
      case Opened(plain) => Plain(Some(plain))
      case FormatError => Failed(FormatException)
      case CryptographicError => if single then Failed(CryptographicException) else TryKeys(c, keys[1..], text, single)
  }

  function DecryptText(c: Cipher, key: string, text: string, fallback: Option<string>, fallbackFirst: bool): (r: Decrypted)
    ensures r.Plain? ==> r.text.Some?
  {
    if text == "" then Plain(Some(""))
    else
      var keys := EncryptionKeys(key, fallback, fallbackFirst);
      TryKeys(c, keys, text, |keys| == 1)
  }

  /** `Cryptography.Decrypt`. */
  method DecryptWithKeys(c: Cipher, encryptionKey: string, encryptedValue: string,
                         fallbackEncryptionKey: Option<string>, tryFallbackFirst: bool) returns (r: Decrypted)
    ensures r == DecryptText(c, encryptionKey, encryptedValue, fallbackEncryptionKey, tryFallbackFirst)
  {
    if encryptedValue == "" {
      return Plain(Some(""));
    }
    var encryptionKeys := EncryptionKeys(encryptionKey, fallbackEncryptionKey, tryFallbackFirst);
    for i := 0 to |encryptionKeys|
      invariant TryKeys(c, encryptionKeys, encryptedValue, |encryptionKeys| == 1)
                == TryKeys(c, encryptionKeys[i..], encryptedValue, |encryptionKeys| == 1)
    {
      assert encryptionKeys[i..][1..] == encryptionKeys[i + 1..];
      match c.open(encryptionKeys[i], encryptedValue) {
        case Opened(plain) => return Plain(Some(plain));
        case FormatError => return Failed(FormatException);
        case CryptographicError =>
          if |encryptionKeys| == 1 {
            return Failed(CryptographicException);
          }
      }
    }
    return Failed(ApplicationException);
  }

  // ----- EncryptionService

  function Encrypt(c: Cipher, s: Secrets, plainText: Option<string>): Option<string> {
    if plainText.None? then None else Some(Seal(c, s.current, plainText.value))
  }

  /** Lenient decryption (throwOnFailure false) hands text back that could not be decrypted;
      an ApplicationException is caught in neither mode. */
  function Decrypt(c: Cipher, s: Secrets, text: Option<string>, fallbackFirst: bool, throwOnFailure: bool): (r: Decrypted)
    ensures r.Plain? ==> (r.text.Some? <==> text.Some?)
  {
    if text.None? then Plain(None)
    else
      var r := DecryptText(c, s.current, text.value, s.previous, fallbackFirst);
      if r.Failed? && !r.error.ApplicationException? && !throwOnFailure then Plain(text) else r
  }

  lemma {:induction false} TryKeysOpens(c: Cipher, keys: seq<string>, text: string, k: string, single: bool)
    requires Lawful(c) && k in keys && c.open(k, text).Opened? && (single ==> |keys| == 1)
    ensures TryKeys(c, keys, text, single) == Plain(Some(c.open(k, text).text))
  {
    if keys[0] == k {
    } else {
      assert !c.open(keys[0], text).Opened? && !c.open(keys[0], text).FormatError?;
      TryKeysOpens(c, keys[1..], text, k, single);
    }
  }

  lemma {:induction false} TryKeysFails(c: Cipher, keys: seq<string>, text: string, single: bool)
    requires FormatIsOfText(c) && keys != [] && forall k :: k in keys ==> !c.open(k, text).Opened?
    ensures TryKeys(c, keys, text, single)
            == Failed(if c.open(keys[0], text).FormatError? then FormatException
                      else if single then CryptographicException else ApplicationException)
  {
    if c.open(keys[0], text).CryptographicError? && !single && |keys| > 1 {
      TryKeysFails(c, keys[1..], text, single);
      assert keys[1] in keys && !c.open(keys[1], text).FormatError?;
    }
  }

  /** What decryption gives, in all cases. A configured secret that opens the text decides; text
      that is no Base64 is passed through or ends in its own error; well-formed text that no secret
      opens is passed through or ends in an error of its own only if there is one secret. */
  lemma DecryptIs(c: Cipher, s: Secrets, text: string, fallbackFirst: bool, throwOnFailure: bool)
    requires Lawful(c)
    ensures Decrypt(c, s, None, fallbackFirst, throwOnFailure) == Plain(None)
    ensures text == "" ==> Decrypt(c, s, Some(text), fallbackFirst, throwOnFailure) == Plain(Some(""))
    ensures text != "" && c.open(s.current, text).Opened? ==>
              Decrypt(c, s, Some(text), fallbackFirst, throwOnFailure) == Plain(Some(c.open(s.current, text).text))
    ensures text != "" && s.previous.Some? && !IsBlank(s.previous.value) && c.open(s.previous.value, text).Opened? ==>
              Decrypt(c, s, Some(text), fallbackFirst, throwOnFailure) == Plain(Some(c.open(s.previous.value, text).text))
    ensures text != "" && !c.open(s.current, text).Opened?
            && !(s.previous.Some? && !IsBlank(s.previous.value) && c.open(s.previous.value, text).Opened?) ==>
              Decrypt(c, s, Some(text), fallbackFirst, throwOnFailure)
              == if c.open(s.current, text).CryptographicError? && s.previous.Some? && !IsBlank(s.previous.value) then Failed(ApplicationException)
                 else if !throwOnFailure then Plain(Some(text))
                 else Failed(if c.open(s.current, text).FormatError? then FormatException else CryptographicException)
  {
    if text != "" {
      assert s == Secrets(s.current, s.previous);
      var keys := EncryptionKeys(s.current, s.previous, fallbackFirst);
      if k :| k in s.Keys() && c.open(k, text).Opened? {
        TryKeysOpens(c, keys, text, k, |keys| == 1);
      } else {
        TryKeysFails(c, keys, text, |keys| == 1);
        assert s.current in s.Keys() && keys[0] in keys;
      }
    }
  }

  /** The keys are tried in turn: the first one that does not end in a cryptographic error decides. */
  lemma {:induction false} TryKeysIs(c: Cipher, keys: seq<string>, text: string, single: bool, i: nat)
    requires i <= |keys| && (single ==> |keys| == 1)
    requires forall j :: 0 <= j < i ==> c.open(keys[j], text).CryptographicError?
    ensures i < |keys| && c.open(keys[i], text).Opened? ==> TryKeys(c, keys, text, single) == Plain(Some(c.open(keys[i], text).text))
    ensures i < |keys| && c.open(keys[i], text).FormatError? ==> TryKeys(c, keys, text, single) == Failed(FormatException)
    ensures i == |keys| ==> TryKeys(c, keys, text, single) == Failed(if single then CryptographicException else ApplicationException)
  {
    if i > 0 && !single {
      forall j | 0 <= j < i - 1 ensures c.open(keys[1..][j], text).CryptographicError? {
        assert keys[1..][j] == keys[j + 1];
      }
      TryKeysIs(c, keys[1..], text, single, i - 1);
    }
  }

  /** A text that none of two configured secrets opens, though it is well formed. */
  ghost predicate Undecipherable(c: Cipher, s: Secrets, text: Option<string>) {
    && s.HasPrevious() && text.Some? && text.value != ""
    && forall k :: k in s.Keys() ==> c.open(k, text.value).CryptographicError?
  }

  /** Lenient decryption is total except for exactly one kind of text: Base64 that none of two
      configured secrets opens. That one ends in an ApplicationException. */
  lemma LenientDecryptFails(c: Cipher, s: Secrets, text: Option<string>, fallbackFirst: bool)
    requires Lawful(c)
    ensures Decrypt(c, s, text, fallbackFirst, false).Failed? <==> Undecipherable(c, s, text)
    ensures Decrypt(c, s, text, fallbackFirst, false).Failed? ==>
              Decrypt(c, s, text, fallbackFirst, false).error == ApplicationException
  {
    if text.Some? && text.value != "" {
      var keys := EncryptionKeys(s.current, s.previous, fallbackFirst);
      assert s == Secrets(s.current, s.previous);
      if k :| k in s.Keys() && c.open(k, text.value).Opened? {
        TryKeysOpens(c, keys, text.value, k, |keys| == 1);
      } else {
        TryKeysFails(c, keys, text.value, |keys| == 1);
        assert keys[0] in keys;
      }
    }
  }

  /** Decryption that passes nothing through fails exactly on text that no configured key opens. */
  lemma ThrowingDecryptFails(c: Cipher, s: Secrets, text: Option<string>, fallbackFirst: bool)
    requires Lawful(c)
    ensures Decrypt(c, s, text, fallbackFirst, true).Failed? <==>
              text.Some? && text.value != "" && forall k :: k in s.Keys() ==> !c.open(k, text.value).Opened?
  {
    if text.Some? && text.value != "" {
      var keys := EncryptionKeys(s.current, s.previous, fallbackFirst);
      assert s == Secrets(s.current, s.previous);
      if k :| k in s.Keys() && c.open(k, text.value).Opened? {
        TryKeysOpens(c, keys, text.value, k, |keys| == 1);
      } else {
        TryKeysFails(c, keys, text.value, |keys| == 1);
      }
    }
  }

  /** Any text sealed under a secret that is no longer configured, as one from before the last
      but one rotation: not passed through but an error, in either mode. */
  lemma ForeignTextFails(c: Cipher, s: Secrets, k: string, plain: string, fallbackFirst: bool, throwOnFailure: bool)
    requires Lawful(c) && s.HasPrevious() && k !in s.Keys() && plain != ""
    ensures Undecipherable(c, s, Some(Seal(c, k, plain)))
    ensures Decrypt(c, s, Some(Seal(c, k, plain)), fallbackFirst, throwOnFailure) == Failed(ApplicationException)
  {
    var text := Seal(c, k, plain);
    assert c.open(k, text).Opened?;
    assert forall k' :: c.open(k', text).FormatError? ==> c.open(k, text).FormatError?;
    LenientDecryptFails(c, s, Some(text), fallbackFirst);
  }

  /** With an authenticated cipher the key order changes no result. */
  lemma KeyOrderIsIrrelevant(c: Cipher, s: Secrets, text: Option<string>, throwOnFailure: bool)
    requires Lawful(c)
    ensures Decrypt(c, s, text, true, throwOnFailure) == Decrypt(c, s, text, false, throwOnFailure)
  {
    if text.Some? && text.value != "" {
      assert s == Secrets(s.current, s.previous);
      var first := EncryptionKeys(s.current, s.previous, true);
      var last := EncryptionKeys(s.current, s.previous, false);
      if k :| k in s.Keys() && c.open(k, text.value).Opened? {
        TryKeysOpens(c, first, text.value, k, |first| == 1);
        TryKeysOpens(c, last, text.value, k, |last| == 1);
      } else {
        TryKeysFails(c, first, text.value, |first| == 1);
        TryKeysFails(c, last, text.value, |last| == 1);
      }
    }
  }

  /** What was encrypted under either configured secret reads back, in either order. */
  lemma DecryptInvertsSeal(c: Cipher, s: Secrets, k: string, plain: string, fallbackFirst: bool, throwOnFailure: bool)
    requires Lawful(c) && k in s.Keys()
    ensures Decrypt(c, s, Some(Seal(c, k, plain)), fallbackFirst, throwOnFailure) == Plain(Some(plain))
  {
    if plain != "" {
      assert s == Secrets(s.current, s.previous);
      var keys := EncryptionKeys(s.current, s.previous, fallbackFirst);
      TryKeysOpens(c, keys, c.seal(k, plain), k, |keys| == 1);
    }
  }

  // ----- validated decryption

  datatype Mode = Strict | FirstValid

  datatype Failure = NotValid | Cryptographic | Format

  datatype Validated =
    | Accepted(text: Option<string>)
    | MultipleValid
    | NoneValid(firstFailure: Option<Failure>)

  function OpenWith(c: Cipher, key: string, text: string): Attempt {
    if text == "" then Opened("") else c.open(key, text)
  }

  /** The key yields a plaintext that passes validation. */
  predicate IsValidKey(c: Cipher, key: string, text: string, isValid: string -> bool) {
    OpenWith(c, key, text).Opened? && isValid(OpenWith(c, key, text).text)
  }

  ghost function ValidKeys(c: Cipher, s: Secrets, text: string, isValid: string -> bool): set<string> {
    set k | k in s.Keys() && IsValidKey(c, k, text, isValid)
  }

  function FailureOf(c: Cipher, key: string, text: string): Failure {
    match OpenWith(c, key, text)
    case Opened(_) => NotValid
    case CryptographicError => Cryptographic
    case FormatError => Format
  }

  /** The configured keys, each once. */
  ghost predicate AreKeysOf(keys: seq<string>, s: Secrets) {
    && keys != []
    && (forall k :: k in keys <==> k in s.Keys())
    && (forall i, j :: 0 <= i < j < |keys| ==> keys[i] != keys[j])
  }

  method GetDecryptionKeys(s: Secrets, tryFallbackFirst: bool) returns (keys: seq<string>)
    ensures AreKeysOf(keys, s)
    ensures keys[0] == if tryFallbackFirst && s.HasPrevious() then s.previous.value else s.current
  {
    keys := [];
    if tryFallbackFirst && !IsNullOrBlank(s.previous) {
      keys := keys + [s.previous.value];
    }
    keys := keys + [s.current];
    if !tryFallbackFirst && !IsNullOrBlank(s.previous) {
      keys := keys + [s.previous.value];
    }
    if |keys| == 2 && keys[0] == keys[1] {
      keys := [keys[0]];
    }
  }

  function FirstKey(s: Secrets, tryFallbackFirst: bool): string {
    if tryFallbackFirst && s.HasPrevious() then s.previous.value else s.current
  }

  /** Strict mode looks at all distinct configured keys. The order of the keys shows only in
      the failure that is reported as the cause. */
  ghost predicate IsStrictOutcome(c: Cipher, s: Secrets, text: string, isValid: string -> bool, r: Validated) {
    var valid := ValidKeys(c, s, text, isValid);
    match r
    case Accepted(v) => exists k :: valid == {k} && v == Some(OpenWith(c, k, text).text)
    case MultipleValid => |valid| > 1
    case NoneValid(_) => valid == {}
  }

  /** First-valid mode takes the first key that is valid. */
  ghost predicate IsFirstValidOutcome(c: Cipher, s: Secrets, text: string, isValid: string -> bool, first: string, r: Validated) {
    var valid := ValidKeys(c, s, text, isValid);
    match r
    case Accepted(v) =>
      exists k :: k in valid && v == Some(OpenWith(c, k, text).text) && (first in valid ==> k == first)
    case MultipleValid => false
    case NoneValid(_) => valid == {}
  }

  /** The state of the loop after the keys `tried`; `found` are the valid ones among them. */
  ghost predicate Tried(c: Cipher, tried: seq<string>, text: string, isValid: string -> bool,
                        validValues: seq<string>, firstFailure: Option<Failure>, found: set<string>) {
    && (forall k :: k in found <==> k in tried && IsValidKey(c, k, text, isValid))
    && |found| == |validValues|
    && (|found| == 1 ==> forall k :: k in found ==> validValues[0] == OpenWith(c, k, text).text)
    && (tried == [] ==> firstFailure == None)
    && (tried != [] && found == {} ==> firstFailure == Some(FailureOf(c, tried[0], text)))
  }

  lemma TriedValid(c: Cipher, tried: seq<string>, key: string, text: string, isValid: string -> bool,
                   validValues: seq<string>, firstFailure: Option<Failure>, found: set<string>)
    requires Tried(c, tried, text, isValid, validValues, firstFailure, found) && key !in tried && IsValidKey(c, key, text, isValid)
    ensures Tried(c, tried + [key], text, isValid, validValues + [OpenWith(c, key, text).text], firstFailure, found + {key})
  {
    assert key !in found && |found + {key}| == |found| + 1;
    if |found + {key}| == 1 {
      assert found == {};
    }
  }

  lemma TriedFailure(c: Cipher, tried: seq<string>, key: string, text: string, isValid: string -> bool,
                     validValues: seq<string>, firstFailure: Option<Failure>, found: set<string>)
    requires Tried(c, tried, text, isValid, validValues, firstFailure, found) && key !in tried && !IsValidKey(c, key, text, isValid)
    ensures Tried(c, tried + [key], text, isValid, validValues,
                  if firstFailure.None? then Some(FailureOf(c, key, text)) else firstFailure, found)
  {
    assert tried != [] ==> (tried + [key])[0] == tried[0];
  }

  lemma TriedFirstValid(c: Cipher, s: Secrets, keys: seq<string>, i: nat, text: string, isValid: string -> bool,
                        validValues: seq<string>, firstFailure: Option<Failure>)
    requires i < |keys| && Tried(c, keys[..i], text, isValid, validValues, firstFailure, {}) && AreKeysOf(keys, s)
    requires IsValidKey(c, keys[i], text, isValid)
    ensures IsFirstValidOutcome(c, s, text, isValid, keys[0], Accepted(Some(OpenWith(c, keys[i], text).text)))
  {
    assert i > 0 ==> keys[0] in keys[..i];
    assert keys[i] in ValidKeys(c, s, text, isValid);
  }

  lemma TriedAll(c: Cipher, s: Secrets, keys: seq<string>, text: string, isValid: string -> bool,
                 validValues: seq<string>, firstFailure: Option<Failure>, found: set<string>, r: Validated)
    requires Tried(c, keys, text, isValid, validValues, firstFailure, found) && AreKeysOf(keys, s)
    requires r == if |validValues| == 1 then Accepted(Some(validValues[0]))
                  else if |validValues| > 1 then MultipleValid else NoneValid(firstFailure)
    ensures IsStrictOutcome(c, s, text, isValid, r)
    ensures found == {} ==> forall first :: IsFirstValidOutcome(c, s, text, isValid, first, r)
    ensures r.NoneValid? ==> firstFailure == Some(FailureOf(c, keys[0], text))
  {
    assert found == ValidKeys(c, s, text, isValid);
    if |found| == 1 {
      var k :| k in found;
      assert |found - {k}| == 0;
      assert found == {k};
    }
  }

  /** `DecryptWithValidation`. The strict outcome is specified without the order of the keys. */
  method DecryptWithValidation(c: Cipher, s: Secrets, encryptedText: Option<string>, isValid: string -> bool,
                               tryFallbackFirst: bool, mode: Mode) returns (r: Validated)
    ensures encryptedText.None? ==> r == Accepted(None)
    ensures encryptedText.Some? && mode.Strict? ==> IsStrictOutcome(c, s, encryptedText.value, isValid, r)
    ensures encryptedText.Some? && mode.FirstValid? ==>
      IsFirstValidOutcome(c, s, encryptedText.value, isValid, FirstKey(s, tryFallbackFirst), r)
    ensures encryptedText.Some? && r.NoneValid? ==>
      r.firstFailure == Some(FailureOf(c, FirstKey(s, tryFallbackFirst), encryptedText.value))
  {
    if encryptedText.None? {
      return Accepted(None);
    }
    var text := encryptedText.value;
    var keys := GetDecryptionKeys(s, tryFallbackFirst);
    ghost var found;
    var validValues, firstFailure, accepted;
    validValues, firstFailure, accepted, found := TryEachKey(c, s, keys, text, isValid, mode);
    if accepted.Some? {
      return Accepted(accepted);
    }
    r := if |validValues| == 1 then Accepted(Some(validValues[0]))
         else if |validValues| > 1 then MultipleValid
         else NoneValid(firstFailure);
    TriedAll(c, s, keys, text, isValid, validValues, firstFailure, found, r);
  }

  lemma NextKey(keys: seq<string>, s: Secrets, i: nat)
    requires AreKeysOf(keys, s) && i < |keys|
    ensures keys[..i + 1] == keys[..i] + [keys[i]] && keys[i] !in keys[..i]
  {
  }

  /** The loop over the keys; `accepted` is the value with which first-valid mode returns from it. */
  method TryEachKey(c: Cipher, ghost s: Secrets, keys: seq<string>, text: string, isValid: string -> bool, mode: Mode)
    returns (validValues: seq<string>, firstFailure: Option<Failure>, accepted: Option<string>, ghost found: set<string>)
    requires AreKeysOf(keys, s)
    ensures accepted.Some? ==> mode.FirstValid? && IsFirstValidOutcome(c, s, text, isValid, keys[0], Accepted(accepted))
    ensures accepted.None? ==> Tried(c, keys, text, isValid, validValues, firstFailure, found)
    ensures accepted.None? && mode.FirstValid? ==> found == {}
  {
    validValues, firstFailure, accepted, found := [], None, None, {};
    for i := 0 to |keys|
      invariant accepted.None?
      invariant Tried(c, keys[..i], text, isValid, validValues, firstFailure, found)
      invariant mode.FirstValid? ==> found == {}
    {
      var attempt := OpenWith(c, keys[i], text);
      NextKey(keys, s, i);
      if attempt.Opened? && isValid(attempt.text) {
        if mode == FirstValid {
          TriedFirstValid(c, s, keys, i, text, isValid, validValues, firstFailure);
          accepted := Some(attempt.text);
          return;
        }
        TriedValid(c, keys[..i], keys[i], text, isValid, validValues, firstFailure, found);
        validValues := validValues + [attempt.text];
        found := found + {keys[i]};
      } else {
        TriedFailure(c, keys[..i], keys[i], text, isValid, validValues, firstFailure, found);
        if firstFailure.None? {
          firstFailure := Some(match attempt
                               case Opened(_) => NotValid
                               case CryptographicError => Cryptographic
                               case FormatError => Format);
        }
      }
    }
    assert keys[..|keys|] == keys;
  }

  /** The strict outcome is unique up to the cause of a failure: calls that differ only in
      `tryFallbackFirst` agree. */
  lemma StrictIsOrderIndependent(c: Cipher, s: Secrets, text: string, isValid: string -> bool, r: Validated, r': Validated)
    requires IsStrictOutcome(c, s, text, isValid, r) && IsStrictOutcome(c, s, text, isValid, r')
    ensures r == r' || (r.NoneValid? && r'.NoneValid?)
  {
    if r.Accepted? && r'.Accepted? {
      var k :| ValidKeys(c, s, text, isValid) == {k} && r.text == Some(OpenWith(c, k, text).text);
      var k' :| ValidKeys(c, s, text, isValid) == {k'} && r'.text == Some(OpenWith(c, k', text).text);
      assert k in {k'};
    }
  }

  /** First-valid mode gives the strict outcome whenever that is a value or a failure of all
      keys; only where strict mode finds several valid keys does it choose one. */
  lemma FirstValidAgrees(c: Cipher, s: Secrets, text: string, isValid: string -> bool, first: string, r: Validated, r': Validated)
    requires IsStrictOutcome(c, s, text, isValid, r) && IsFirstValidOutcome(c, s, text, isValid, first, r')
    ensures r.Accepted? ==> r' == r
    ensures r.NoneValid? <==> r'.NoneValid?
    ensures r.MultipleValid? ==> r'.Accepted?
  {
    if r.Accepted? && r'.Accepted? {
      var k :| ValidKeys(c, s, text, isValid) == {k} && r.text == Some(OpenWith(c, k, text).text);
      var k' :| k' in ValidKeys(c, s, text, isValid) && r'.text == Some(OpenWith(c, k', text).text);
      assert k' in {k};
    }
  }

  /** With an authenticated cipher several valid keys never occur, except on empty text that
      counts as valid. */
  lemma AuthenticNeverMultiple(c: Cipher, s: Secrets, text: string, isValid: string -> bool, r: Validated)
    requires OneKey(c) && text != "" && IsStrictOutcome(c, s, text, isValid, r)
    ensures !r.MultipleValid?
  {
    var valid := ValidKeys(c, s, text, isValid);
    if k :| k in valid {
      assert forall k' :: k' in valid ==> k' == k;
      assert valid == {k};
    }
  }

  /** The text that strict validated decryption accepts, if it accepts one: StrictTextIsOutcome
      ties it to that method. */
  function StrictText(c: Cipher, s: Secrets, text: string, isValid: string -> bool): Option<string> {
    var byCurrent := IsValidKey(c, s.current, text, isValid);
    var byPrevious := s.HasPrevious() && s.previous.value != s.current && IsValidKey(c, s.previous.value, text, isValid);
    if byCurrent && !byPrevious then Some(OpenWith(c, s.current, text).text)
    else if byPrevious && !byCurrent then Some(OpenWith(c, s.previous.value, text).text)
    else None
  }

  lemma StrictTextIsOutcome(c: Cipher, s: Secrets, text: string, isValid: string -> bool, r: Validated)
    requires IsStrictOutcome(c, s, text, isValid, r)
    ensures r.Accepted? <==> StrictText(c, s, text, isValid).Some?
    ensures r.Accepted? ==> r.text == StrictText(c, s, text, isValid)
  {
    var valid := ValidKeys(c, s, text, isValid);
    if s.HasPrevious() && s.previous.value != s.current && s.current in valid && s.previous.value in valid {
      assert {s.current, s.previous.value} <= valid;
    } else if s.current in valid {
      assert valid == {s.current};
    } else if s.HasPrevious() && s.previous.value in valid {
      assert valid == {s.previous.value};
    }
  }

  /** A value is accepted exactly if one distinct configured key yields valid text. */
  lemma StrictTextExists(c: Cipher, s: Secrets, text: string, isValid: string -> bool)
    ensures StrictText(c, s, text, isValid).Some? <==> |ValidKeys(c, s, text, isValid)| == 1
  {
    var valid := ValidKeys(c, s, text, isValid);
    assert valid <= s.Keys();
    if s.HasPrevious() && s.previous.value != s.current && s.current in valid && s.previous.value in valid {
      assert valid == {s.current, s.previous.value};
    } else if s.current in valid {
      assert valid == {s.current};
    } else if s.HasPrevious() && s.previous.value in valid {
      assert valid == {s.previous.value};
    } else {
      assert valid == {};
    }
  }
}
