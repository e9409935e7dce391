/**
 * The PIN guards: the session check made before every data action, the
 * one-time PIN set-up and the login. The PIN file is `None` when it does not
 * exist and otherwise holds the stored hash; hashing and hash verification are
 * parameters of the model.
 */
module Auth {
  import opened Wrappers
  import opened Json

  /** PHP's `isset` on a request field: present and not `null`. */
  predicate IsSet(v: Option<Value>) {
    v.Some? && v.value != Null
  }

  /**
   * isPinValid: the PIN file exists, the session hash is not empty, and it equals
   * the stored hash. A session hash that is not a string makes `hash_equals` raise
   * an error; here it simply does not match.
   */
  function IsPinValid(pinFile: Option<string>, sessionHash: Value): (ok: bool)
    ensures ok <==> pinFile.Some? && sessionHash == Str(pinFile.value)
                    && pinFile.value != "" && pinFile.value != "0"
  {
    if pinFile.None? || Falsy(sessionHash) then false
    else sessionHash == Str(pinFile.value)
  }

  /** The guard of the data actions: `isset($input['pinHash']) && isPinValid(...)`. */
  predicate Authenticated(pinFile: Option<string>, pinHash: Option<Value>) {
    IsSet(pinHash) && IsPinValid(pinFile, pinHash.value)
  }

  /** Bytes one character takes in UTF-8. */
  function CharBytes(c: char): nat {
    if c as int < 0x80 then 1
    else if c as int < 0x800 then 2
    else if c as int < 0x1_0000 then 3
    else 4
  }

  /** PHP's `strlen`: the length of the string in bytes, UTF-8 encoded. */
  function Utf8Length(s: string): (n: nat)
    ensures |s| <= n <= 4 * |s|
  {
    if s == [] then 0 else CharBytes(s[0]) + Utf8Length(s[1..])
  }

  lemma {:induction false} AsciiUtf8Length(s: string)
    requires forall i :: 0 <= i < |s| ==> s[i] as int < 0x80
    ensures Utf8Length(s) == |s|
  {
    if s != [] {
      AsciiUtf8Length(s[1..]);
    }
  }

  /** The PIN check of handleSetPin: the PIN is given and is four bytes long. */
  predicate PinAccepted(pin: Option<string>) {
    pin.Some? && Utf8Length(pin.value) == 4
  }

  /**
   * Only the byte length is checked: an ASCII PIN is accepted exactly when it has
   * four characters, digits or not, and two two-byte letters pass as well.
   */
  lemma PinAcceptedByBytes(pin: string)
    ensures (forall i :: 0 <= i < |pin| ==> pin[i] as int < 0x80) ==> (PinAccepted(Some(pin)) <==> |pin| == 4)
    ensures PinAccepted(Some("abcd")) && PinAccepted(Some("\U{e9}\U{e9}")) && !PinAccepted(Some("123"))
  {
    if forall i :: 0 <= i < |pin| ==> pin[i] as int < 0x80 {
      AsciiUtf8Length(pin);
    }
    AsciiUtf8Length("abcd");
    AsciiUtf8Length("123");
  }

  datatype SetPinOutcome = PinAlreadySet | PermissionDenied | PinWriteFailed | PinSet(hash: string) | InvalidPin

  /** The answer of handleSetPin and the PIN file afterwards. */
  datatype SetPinResult = SetPinResult(outcome: SetPinOutcome, pinFile: Option<string>)

  /**
   * handleSetPin. `hash` is what `password_hash` returns for the PIN, `dirWritable`
   * whether the directory of the PIN file is writable, `writeOk` whether writing
   * the PIN file succeeds. The guards run in order: existing PIN, permission,
   * PIN length.
   */
  function SetPin(pinFile: Option<string>, dirWritable: bool, pin: Option<string>, hash: string, writeOk: bool)
    : (r: SetPinResult)
    ensures pinFile.Some? ==> r == SetPinResult(PinAlreadySet, pinFile)
    ensures r.outcome == PermissionDenied <==> pinFile.None? && !dirWritable
    ensures r.outcome == InvalidPin <==> pinFile.None? && dirWritable && !PinAccepted(pin)
    ensures r.outcome.PinSet? <==> pinFile.None? && dirWritable && PinAccepted(pin) && writeOk
    ensures r.outcome.PinSet? ==> r.outcome.hash == hash && r.pinFile == Some(hash) && 1 <= |pin.value| <= 4
    ensures !r.outcome.PinSet? ==> r.pinFile == pinFile
  {
    if pinFile.Some? then SetPinResult(PinAlreadySet, pinFile)
    else if !dirWritable then SetPinResult(PermissionDenied, pinFile)
    else if pin.Some? && Utf8Length(pin.value) == 4 then
      if writeOk then SetPinResult(PinSet(hash), Some(hash))
      else SetPinResult(PinWriteFailed, pinFile)
    else SetPinResult(InvalidPin, pinFile)
  }

  datatype LoginOutcome = NoPinConfigured | LoggedIn(hash: string) | WrongPin | PinNotProvided

  /**
   * handleLogin. `verify` stands for `password_verify(pin, storedHash)`. A
   * successful login hands back the stored hash, which later requests present
   * as their session hash.
   */
  function Login(pinFile: Option<string>, pin: Option<string>, verify: (string, string) -> bool): (r: LoginOutcome)
    ensures r == NoPinConfigured <==> pinFile.None?
    ensures r == PinNotProvided <==> pinFile.Some? && pin.None?
    ensures r.LoggedIn? <==> pinFile.Some? && pin.Some? && verify(pin.value, pinFile.value)
    ensures r.LoggedIn? ==> r.hash == pinFile.value
  {
    if pinFile.None? then NoPinConfigured
    else if pin.Some? then
      if verify(pin.value, pinFile.value) then LoggedIn(pinFile.value) else WrongPin
    else PinNotProvided
  }

  /**
   * Setting a PIN and logging in with it: the login succeeds with the new hash,
   * and that hash then authenticates requests unless it is a falsy string.
   */
  lemma SetPinThenLogin(pin: string, hash: string, verify: (string, string) -> bool)
    requires PinAccepted(Some(pin)) && verify(pin, hash)
    ensures var r := SetPin(None, true, Some(pin), hash, true);
      r.outcome == PinSet(hash)
      && Login(r.pinFile, Some(pin), verify) == LoggedIn(hash)
      && (Authenticated(r.pinFile, Some(Str(hash))) <==> hash != "" && hash != "0")
  {
  }
}
