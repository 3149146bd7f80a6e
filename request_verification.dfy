/**
 * `RequestVerificationService.checkSignature` and `getCleansedHeaders`: the
 * ordered admit/reject decision for an incoming request.
 */
module RequestVerification {
  import opened Wrappers
  import opened Strings
  import opened Models
  import opened SignatureParser
  import opened CredentialService

  /** The three results the decision can return. */
  const Unauthorized := VerificationResult(401, Some(ResultBody("The security token included in the request is invalid")), None)
  const NoAuth := VerificationResult(401, Some(ResultBody("Missing authentication token")), None)
  const Ok := VerificationResult(204, None, None)

  /** `whitelist.some(x => x.test(url))`, each entry compiled as a regular expression. */
  predicate Whitelisted(env: Collaborators, patterns: seq<string>, url: string) {
    exists i :: 0 <= i < |patterns| && env.regexTest(patterns[i], url)
  }

  /** `some` over a list concatenation: the URL is whitelisted by `p + q` exactly when one of the two lists whitelists it. */
  lemma WhitelistedAppend(env: Collaborators, p: seq<string>, q: seq<string>, url: string)
    ensures Whitelisted(env, p + q, url) <==> Whitelisted(env, p, url) || Whitelisted(env, q, url)
  {
    if Whitelisted(env, p + q, url) {
      var i :| 0 <= i < |p + q| && env.regexTest((p + q)[i], url);
      if i >= |p| {
        assert q[i - |p|] == (p + q)[i];
      }
    }
    if Whitelisted(env, q, url) {
      var i :| 0 <= i < |q| && env.regexTest(q[i], url);
      assert (p + q)[|p| + i] == q[i];
    }
    if Whitelisted(env, p, url) {
      var i :| 0 <= i < |p| && env.regexTest(p[i], url);
      assert (p + q)[i] == p[i];
    }
  }

  /** Both dictionaries hold `k` with the same value, or neither holds it. */
  predicate SameEntry(h1: map<string, string>, h2: map<string, string>, k: string) {
    (k in h1 <==> k in h2) && (k in h1 ==> h1[k] == h2[k])
  }

  /** Header names as Node delivers them: all lower case. */
  predicate AllLowerCase(headers: map<string, string>) {
    forall k :: k in headers ==> IsLowerCase(k)
  }

  /** The lower-cased names of the headers that are not among the signed ones. */
  function UnsignedNames(headers: map<string, string>, signed: seq<string>): set<string> {
    set k | k in headers && ToLower(k) !in signed :: ToLower(k)
  }

  /**
   * The dictionary `getCleansedHeaders` returns: a copy without either
   * spelling of `authorization`, with every lower-cased unsigned name deleted.
   * A key that is not lower case is never among the deleted names.
   */
  function CleansedHeaders(headers: map<string, string>, signed: seq<string>): (r: map<string, string>)
    ensures "authorization" !in r && "Authorization" !in r
    ensures forall k :: k in r ==> k in headers && r[k] == headers[k]
    ensures forall k :: k in headers && IsLowerCase(k) && k != "authorization" ==> (k in r <==> k in signed)
    ensures forall k :: k in headers && !IsLowerCase(k) && k != "Authorization" ==> k in r
  {
    var copy := headers - {"authorization", "Authorization"};
    var names := UnsignedNames(copy, signed);
    assert ToLower("Authorization") == "authorization";
    forall k | k in names
      ensures IsLowerCase(k)
    {
      var k' :| k' in copy && ToLower(k') !in signed && ToLower(k') == k;
      ToLowerIsLowerCase(k');
    }
    forall k | k in headers && IsLowerCase(k) && k != "authorization" && k !in signed
      ensures k in names
    {
      assert k != "Authorization";
      assert k in copy && ToLower(k) == k;
    }
    copy - names
  }

  /** `getCleansedHeaders`: the copy, the two deletes, then one delete per unsigned lower-cased name. */
  method GetCleansedHeaders(headers: map<string, string>, signed: seq<string>) returns (cleansed: map<string, string>)
    ensures cleansed == CleansedHeaders(headers, signed)
  {
    cleansed := headers;
    cleansed := cleansed - {"authorization"};
    cleansed := cleansed - {"Authorization"};
    ghost var copy := cleansed;
    assert copy == headers - {"authorization", "Authorization"};
    var names := UnsignedNames(cleansed, signed);
    var pending := names;
    while pending != {}
      invariant pending <= names
      invariant cleansed == copy - (names - pending)
      decreases |pending|
    {
      var name :| name in pending;
      cleansed := cleansed - {name};
      pending := pending - {name};
    }
  }

  /** On lower-case names the cleansed headers are exactly the signed ones other than `authorization`. */
  lemma CleansedLowerCase(headers: map<string, string>, signed: seq<string>)
    requires AllLowerCase(headers)
    ensures CleansedHeaders(headers, signed) == map k | k in headers && k in signed && k != "authorization" :: headers[k]
  {
    var r := CleansedHeaders(headers, signed);
    var m := map k | k in headers && k in signed && k != "authorization" :: headers[k];
    assert forall k :: k in r <==> k in m;
  }

  /** A header name that is not lower case survives cleansing even when it is not signed. */
  lemma MixedCaseUnsignedSurvives()
    ensures CleansedHeaders(map["X-Trace" := "1", "x-trace" := "2"], []) == map["X-Trace" := "1"]
  {
    var h := map["X-Trace" := "1", "x-trace" := "2"];
    assert !IsLowerCase("X-Trace") by { assert ToLower("X-Trace")[0] == 'x'; }
    assert IsLowerCase("x-trace");
    var r := CleansedHeaders(h, []);
    assert "X-Trace" in r && "x-trace" !in r;
    assert r.Keys == {"X-Trace"};
  }

  /**
   * Lines that follow signing: a truthy `Authorization` is moved to
   * `authorization`; nothing else changes. The signer's dictionary is updated
   * in place in the source; here the updated dictionary is the result.
   */
  function NormalisedHeaders(headers: map<string, string>): (r: map<string, string>)
    ensures "Authorization" in headers && headers["Authorization"] != "" ==>
      && "authorization" in r && r["authorization"] == headers["Authorization"]
      && "Authorization" !in r
      && forall k :: k != "authorization" && k != "Authorization" ==> SameEntry(r, headers, k)
    ensures !("Authorization" in headers && headers["Authorization"] != "") ==> r == headers
  {
    if "Authorization" in headers && headers["Authorization"] != "" then
      headers["authorization" := headers["Authorization"]] - {"Authorization"}
    else headers
  }

  /** The request description handed to the signer: host, method, path, body or `null`, and the cleansed headers. */
  function CounterCheckInput(request: HttpRequest, incoming: ParsedSignature, secret: string): (r: SignInput)
    ensures r.accessKeyId == incoming.credential.accessKeyId && r.secretAccessKey == secret
    ensures r.service == incoming.credential.service && r.region == incoming.credential.region
    ensures r.host == request.hostname && r.httpMethod == request.httpMethod && r.path == request.url
    ensures r.body.None? <==> request.body == ""
    ensures r.body.Some? ==> r.body.value == request.body
    ensures "authorization" !in r.headers && "Authorization" !in r.headers
    ensures forall k :: k in r.headers ==> k in request.headers && r.headers[k] == request.headers[k]
    ensures r.headers == CleansedHeaders(request.headers, incoming.signedHeaders)
  {
    SignInput(
      incoming.credential.accessKeyId, secret,
      request.hostname, request.httpMethod, request.url,
      if request.body == "" then None else Some(request.body),
      incoming.credential.service,
      CleansedHeaders(request.headers, incoming.signedHeaders),
      incoming.credential.region)
  }

  /**
   * `parse` of the signer's result, after the `Authorization` move: a truthy
   * `Authorization` written by the signer is the header that is parsed, and
   * only without one is a lower-case `authorization` read.
   */
  function CounterCheck(request: HttpRequest, incoming: ParsedSignature, secret: string, env: Collaborators): (r: Result<ParsedSignature, ParseError>)
    ensures var h := env.sign(CounterCheckInput(request, incoming, secret));
      && ("Authorization" in h && h["Authorization"] != "" ==> r == Parse(map["authorization" := h["Authorization"]]))
      && (!("Authorization" in h && h["Authorization"] != "") ==> r == Parse(h))
  {
    var h := env.sign(CounterCheckInput(request, incoming, secret));
    if "Authorization" in h && h["Authorization"] != "" then
      ParseReadsAuthorization(NormalisedHeaders(h), map["authorization" := h["Authorization"]]);
      Parse(NormalisedHeaders(h))
    else Parse(NormalisedHeaders(h))
  }

  /**
   * `checkSignature`: whitelist, then header presence, then scheme marker,
   * then parse, then key lookup, then re-sign and compare.
   */
  function CheckSignature(request: HttpRequest, config: Configuration, env: Collaborators): (r: VerificationResult)
    ensures r == Ok || r == NoAuth || r == Unauthorized
    ensures Whitelisted(env, config.whitelistedUris, request.url) ==> r == Ok
    ensures !Whitelisted(env, config.whitelistedUris, request.url) ==>
      (r == NoAuth <==> Authorization(request.headers).None?)
    ensures !Whitelisted(env, config.whitelistedUris, request.url) && Authorization(request.headers).Some? ==>
      && (!(Algorithm <= Authorization(request.headers).value) ==> r == Unauthorized)
      && (Parse(request.headers).Failure? ==> r == Unauthorized)
      && ((Parse(request.headers).Success? &&
           ResolveSecretKey(config.accessKeys, Parse(request.headers).value.credential.accessKeyId).Failure?) ==> r == Unauthorized)
  {
    if Whitelisted(env, config.whitelistedUris, request.url) then Ok
    else match Authorization(request.headers)
      case None => NoAuth
      case Some(authorization) =>
        if !(Algorithm <= authorization) then Unauthorized
        else match Parse(request.headers)
          case Failure(_) => Unauthorized
          case Success(incoming) =>
            match ResolveSecretKey(config.accessKeys, incoming.credential.accessKeyId)
            case Failure(_) => Unauthorized
            case Success(secret) =>
              match CounterCheck(request, incoming, secret, env)
              case Failure(_) => Unauthorized
              case Success(regenerated) =>
                if regenerated.signature != incoming.signature then Unauthorized else Ok
  }

  /**
   * Past the whitelist, a well-formed request with a known key is admitted
   * exactly when the signature regenerated from it equals the one it carries
   * (both possibly `undefined`).
   */
  lemma AdmittedIffSignaturesMatch(request: HttpRequest, config: Configuration, env: Collaborators)
    requires !Whitelisted(env, config.whitelistedUris, request.url)
    requires Authorization(request.headers).Some? && Algorithm <= Authorization(request.headers).value
    requires Parse(request.headers).Success?
    requires ResolveSecretKey(config.accessKeys, Parse(request.headers).value.credential.accessKeyId).Success?
    ensures var incoming := Parse(request.headers).value;
      var secret := ResolveSecretKey(config.accessKeys, incoming.credential.accessKeyId).value;
      var regenerated := CounterCheck(request, incoming, secret, env);
      (CheckSignature(request, config, env) == Ok <==>
       regenerated.Success? && regenerated.value.signature == incoming.signature)
  {
  }

  /** `parse` reads nothing but the `authorization` entry. */
  lemma ParseReadsAuthorization(h1: map<string, string>, h2: map<string, string>)
    requires SameEntry(h1, h2, "authorization")
    ensures Parse(h1) == Parse(h2)
  {
    assert Authorization(h1) == Authorization(h2);
  }

  /**
   * When the signer writes its header as `AWS4-HMAC-SHA256 Credential=…,
   * SignedHeaders=…, Signature=x`, a well-formed request with a known key is
   * admitted exactly when it carries the signature `x`.
   */
  lemma AdmittedIffSignerAgrees(request: HttpRequest, config: Configuration, env: Collaborators,
                                accessKeyId: string, date: string, region: string, service: string,
                                signedHeaders: seq<string>, signature: string)
    requires !Whitelisted(env, config.whitelistedUris, request.url)
    requires Authorization(request.headers).Some? && Algorithm <= Authorization(request.headers).value
    requires Parse(request.headers).Success?
    requires ResolveSecretKey(config.accessKeys, Parse(request.headers).value.credential.accessKeyId).Success?
    requires IsToken(accessKeyId) && IsToken(date) && IsToken(region) && IsToken(service) && IsToken(signature)
    requires |signedHeaders| >= 1 && AllTokens(signedHeaders)
    requires var incoming := Parse(request.headers).value;
      var secret := ResolveSecretKey(config.accessKeys, incoming.credential.accessKeyId).value;
      var signed := env.sign(CounterCheckInput(request, incoming, secret));
      "Authorization" in signed
      && signed["Authorization"] == FormatAuthorization(accessKeyId, date, region, service, signedHeaders, signature)
    ensures CheckSignature(request, config, env) == Ok <==> Parse(request.headers).value.signature == Some(signature)
  {
    var incoming := Parse(request.headers).value;
    var secret := ResolveSecretKey(config.accessKeys, incoming.credential.accessKeyId).value;
    var signed := env.sign(CounterCheckInput(request, incoming, secret));
    var header := FormatAuthorization(accessKeyId, date, region, service, signedHeaders, signature);
    assert header != "" by { assert |Algorithm| > 0; }
    ParseFormatRoundTrip(accessKeyId, date, region, service, signedHeaders, signature);
    ParseReadsAuthorization(NormalisedHeaders(signed), map["authorization" := header]);
    AdmittedIffSignaturesMatch(request, config, env);
  }

  /** Two requests that differ only in their headers, and there only in unsigned ones. */
  predicate DifferOnlyInUnsignedHeaders(r1: HttpRequest, r2: HttpRequest) {
    && r1.url == r2.url && r1.httpMethod == r2.httpMethod && r1.hostname == r2.hostname && r1.body == r2.body
    && SameEntry(r1.headers, r2.headers, "authorization")
    && (Parse(r1.headers).Success? ==>
          forall k :: k in Parse(r1.headers).value.signedHeaders ==> SameEntry(r1.headers, r2.headers, k))
  }

  /** With lower-case header names, cleansing keeps nothing but the signed entries, so those decide it. */
  lemma CleansedHeadersAgree(h1: map<string, string>, h2: map<string, string>, signed: seq<string>)
    requires AllLowerCase(h1) && AllLowerCase(h2)
    requires forall k :: k in signed ==> SameEntry(h1, h2, k)
    ensures CleansedHeaders(h1, signed) == CleansedHeaders(h2, signed)
  {
    CleansedLowerCase(h1, signed);
    CleansedLowerCase(h2, signed);
    var m1 := map k | k in h1 && k in signed && k != "authorization" :: h1[k];
    var m2 := map k | k in h2 && k in signed && k != "authorization" :: h2[k];
    assert forall k :: k in m1 <==> k in m2;
  }

  /** With lower-case header names, the decision does not depend on headers outside `SignedHeaders`. */
  lemma UnsignedHeadersIrrelevant(r1: HttpRequest, r2: HttpRequest, config: Configuration, env: Collaborators)
    requires AllLowerCase(r1.headers) && AllLowerCase(r2.headers)
    requires DifferOnlyInUnsignedHeaders(r1, r2)
    ensures CheckSignature(r1, config, env) == CheckSignature(r2, config, env)
  {
    assert Authorization(r1.headers) == Authorization(r2.headers);
    ParseReadsAuthorization(r1.headers, r2.headers);
    if Parse(r1.headers).Success? {
      var incoming := Parse(r1.headers).value;
      var lookup := ResolveSecretKey(config.accessKeys, incoming.credential.accessKeyId);
      if lookup.Success? {
        CleansedHeadersAgree(r1.headers, r2.headers, incoming.signedHeaders);
        assert CounterCheckInput(r1, incoming, lookup.value) == CounterCheckInput(r2, incoming, lookup.value);
        assert CounterCheck(r1, incoming, lookup.value, env) == CounterCheck(r2, incoming, lookup.value, env);
      }
    }
  }
}
