/**
 * `CredentialService`: the secret access key configured for an access key id.
 *
 * The configuration's `accessKeys` table is a plain object read from JSON,
 * so `accessKeys[id]` is a property read. `ResolveSecretKeyAsWritten`
 * models that read, inherited `Object.prototype` members included;
 * `ResolveSecretKey` is the own-key lookup the service evidently means,
 * and it is the one the rest of the model uses.
 */
module CredentialService {
  import opened Wrappers

  /** The message of the error thrown for every failed lookup; the id only goes to the log. */
  const InvalidAccessKey := "Invalid access key supplied!"

  /** A truthy own entry is the secret; a missing or empty one is an error. */
  function ResolveSecretKey(accessKeys: map<string, string>, accessKeyId: string): (r: Result<string, string>)
    ensures r.Success? <==> accessKeyId in accessKeys && accessKeys[accessKeyId] != ""
    ensures r.Success? ==> r.value == accessKeys[accessKeyId] && r.value != ""
    ensures r.Failure? ==> r.error == InvalidAccessKey
  {
    if accessKeyId in accessKeys && accessKeys[accessKeyId] != "" then Success(accessKeys[accessKeyId])
    else Failure(InvalidAccessKey)
  }

  /** The error does not depend on the id that was looked up. */
  lemma FailureIsUniform(accessKeys: map<string, string>, id1: string, id2: string)
    requires ResolveSecretKey(accessKeys, id1).Failure? && ResolveSecretKey(accessKeys, id2).Failure?
    ensures ResolveSecretKey(accessKeys, id1) == ResolveSecretKey(accessKeys, id2)
  {
  }

  /** Adding or changing another id's entry does not change the result for `id`. */
  lemma OtherEntriesIrrelevant(accessKeys: map<string, string>, id: string, other: string, secret: string)
    requires other != id
    ensures ResolveSecretKey(accessKeys[other := secret], id) == ResolveSecretKey(accessKeys, id)
  {
  }

  /** The members every plain object inherits from `Object.prototype`. */
  const ObjectPrototypeMembers: set<string> := {
    "constructor", "__proto__", "hasOwnProperty", "isPrototypeOf", "propertyIsEnumerable",
    "toLocaleString", "toString", "valueOf",
    "__defineGetter__", "__defineSetter__", "__lookupGetter__", "__lookupSetter__"
  }

  /** What a property read on a plain object yields. */
  datatype PropertyValue =
    | OwnString(s: string)
    | InheritedMember(name: string)
    | Undefined

  /** `accessKeys[accessKeyId]`: an own entry first, then the prototype chain. */
  function PropertyRead(accessKeys: map<string, string>, accessKeyId: string): (v: PropertyValue)
    ensures v.OwnString? <==> accessKeyId in accessKeys
    ensures v.InheritedMember? <==> accessKeyId !in accessKeys && accessKeyId in ObjectPrototypeMembers
  {
    if accessKeyId in accessKeys then OwnString(accessKeys[accessKeyId])
    else if accessKeyId in ObjectPrototypeMembers then InheritedMember(accessKeyId)
    else Undefined
  }

  /** Truthiness of a property value: functions and objects are truthy, `""` and `undefined` are not. */
  predicate Truthy(v: PropertyValue) {
    match v
    case OwnString(s) => s != ""
    case InheritedMember(_) => true
    case Undefined => false
  }

  /** `resolveSecretKey` as it is written: any truthy property value is handed back as the secret. */
  function ResolveSecretKeyAsWritten(accessKeys: map<string, string>, accessKeyId: string): (r: Result<PropertyValue, string>)
    ensures r.Success? <==> Truthy(PropertyRead(accessKeys, accessKeyId))
    ensures r.Success? ==> r.value == PropertyRead(accessKeys, accessKeyId)
    ensures r.Failure? ==> r.error == InvalidAccessKey
  {
    var v := PropertyRead(accessKeys, accessKeyId);
    if Truthy(v) then Success(v) else Failure(InvalidAccessKey)
  }

  /** With no access keys configured at all, the id `constructor` still resolves, to `Object`. */
  lemma InheritedMemberResolves()
    ensures ResolveSecretKeyAsWritten(map[], "constructor") == Success(InheritedMember("constructor"))
    ensures ResolveSecretKey(map[], "constructor") == Failure(InvalidAccessKey)
  {
    assert "constructor" in ObjectPrototypeMembers;
  }

  /** Away from the inherited names the two lookups agree. */
  lemma AsWrittenAgrees(accessKeys: map<string, string>, accessKeyId: string)
    requires accessKeyId in accessKeys || accessKeyId !in ObjectPrototypeMembers
    ensures ResolveSecretKey(accessKeys, accessKeyId).Success?
        <==> ResolveSecretKeyAsWritten(accessKeys, accessKeyId).Success?
    ensures ResolveSecretKey(accessKeys, accessKeyId).Success? ==>
      ResolveSecretKeyAsWritten(accessKeys, accessKeyId).value == OwnString(ResolveSecretKey(accessKeys, accessKeyId).value)
  {
  }

  /** The lookups differ exactly on the inherited names that are not own entries. */
  lemma AsWrittenDiffers(accessKeys: map<string, string>, accessKeyId: string)
    requires accessKeyId !in accessKeys && accessKeyId in ObjectPrototypeMembers
    ensures ResolveSecretKey(accessKeys, accessKeyId).Failure?
    ensures ResolveSecretKeyAsWritten(accessKeys, accessKeyId) == Success(InheritedMember(accessKeyId))
  {
  }
}
