# localstack-security gateway, modelled in Dafny

localstack-security is an HTTP gateway that sits in front of a LocalStack backend. It accepts only requests that carry a valid AWS Signature Version 4 `authorization` header, or whose URL is whitelisted. This project models the gateway's core and proves properties of the model.

- **The parser** (`SignatureParser`). It reads the `AWS4-HMAC-SHA256 Credential=…, SignedHeaders=…, Signature=…` header. It removes only a leading scheme marker, splits the rest on `,`, trims each entry and splits each entry on `=`. A later duplicate key overwrites an earlier one. The `Credential` value is split on `/` and the `SignedHeaders` value on `;`.
- **The credential lookup** (`CredentialService`). It finds a secret access key in the configured table. A missing entry and an empty entry both fail.
- **The verification decision** (`RequestVerification`). The checks run in order:
  1. the whitelist;
  2. whether the header is present;
  3. the scheme marker;
  4. parsing the header;
  5. looking up the key;
  6. re-signing the request with only its signed headers;
  7. comparing the regenerated signature with the one the request carries.

  The result is one of three constants: 204, or 401 "Missing authentication token", or 401 "The security token included in the request is invalid".
- **What follows the decision** (`App`). A 204 request is rewritten by the configured request mappers, in order, and forwarded. A header rule follows a four-case table. A URL rule replaces the first *literal* occurrence of its `match` in the absolute URL, then re-parses the URL into path, query and host. Any other result is answered with its status and an XML error document.

JavaScript behaviour is written out explicitly:
- `String.prototype.split` with a one-character separator always gives at least one piece.
- The `\s` trims are modelled exactly.
- Destructuring `[key, value]` gives `undefined`, modelled as `None`, when there is no `=`.
- `{...prev, [k]: v}` folds keep the last value for a key.
- `String.prototype.replace` with a string pattern replaces only the first occurrence and honours `$$`, `$&`, `` $` `` and `$'` in the replacement.
- `toLowerCase` is modelled on ASCII letters.
- Truthiness: a missing or empty header counts as absent.
- `!==` on possibly-undefined signatures is modelled as equality of options.

Some code is outside the model. It enters as the function-typed fields of `Models.Collaborators`:
- the regular-expression engine (`regexTest`, `regexReplace`);
- the `aws4` signer (`sign`, the headers of the signed request);
- WHATWG URL handling (`resolveUrl`, `parseUrl`).

Everything proved holds for every choice of these functions, as long as each one returns a value. A URL that does not parse is modelled as `None`. A throwing signer or regular expression is not modelled (see "## Left out").

Where the stated design intent and the code disagree, the model follows the code:
- **Credential part count.** The stated intent requires exactly four `/`-separated credential parts. The code does not check the count. `SignatureParser.CredentialOf` shows that the usual five-part value (`…/aws4_request`) is accepted and the fifth part is ignored.
- **URL rule matching.** URL rules are meant as regular-expression rewrites. The example is `^/_proxy(/.*)$` → `$1`, with the host unchanged. The code passes `match` to `String.prototype.replace` as a string, so it is matched literally. `App.UrlPatternAnchorInert` shows that this rule leaves any URL that does not contain `^` unchanged. The code also rewrites the `host` header to the parsed hostname, which drops any port.
- **Signed header case.** Signed header names are meant to be lower-cased. The code keeps them exactly as the header gives them. It also never normalises request header names: a header name that is not lower case is kept through cleansing even when it is unsigned (`RequestVerification.MixedCaseUnsignedSurvives`).
- **Unsupported scheme.** The stated intent gives an unsupported scheme its own outcome. The code returns the same "unauthorized" constant it uses for every other failure after the header check.

## Model

| member | source | states |
|---|---|---|
| `SignatureParser.Parse` | src/services/signature-parser.service.ts:9-24 | A missing or empty header fails. Otherwise parsing succeeds exactly when `Credential` and `SignedHeaders` entries with values exist, and a failure names the first of them that is missing. The credential is the one `parseCredentialToken` reads from the same entries. A missing `Signature` is not an error: `signature` is that entry or `undefined`. The signed headers are at least one `;`-free piece and join with `;` back to the `SignedHeaders` value, so order and case are kept. |
| `SignatureParser.SignedHeadersAreSplit` | src/services/signature-parser.service.ts:21 | The signed headers are exactly the `;`-split of the `SignedHeaders` value. |
| `SignatureParser.EntryStrings` | src/services/signature-parser.service.ts:27-32 | There is one entry per `,`-piece of the marker-free header, so always at least one, even for an empty header. `EntriesAreTrimmed` states what each entry is. |
| `SignatureParser.EntryPair` | src/services/signature-parser.service.ts:35-38 | The key is the whole entry when it has no `=`; the value is then `undefined`. With an `=`, the key and the value are `=`-free, and the key, `=` and the value are either the whole entry or are followed by another `=`. So the pair is the first two `=`-pieces, and later pieces are dropped. |
| `SignatureParser.ParseAuthorizationHeader` | src/services/signature-parser.service.ts:26-42 | The dictionary's keys are exactly the keys of the entries. `LastEntryWins` states which value each key gets. |
| `SignatureParser.StripAlgorithm` | src/services/signature-parser.service.ts:27 | Only a leading `AWS4-HMAC-SHA256 ` is removed. A header without it is left unchanged. |
| `SignatureParser.EntriesAreTrimmed` | src/services/signature-parser.service.ts:28-32 | Entry `i` is the `i`-th `,`-piece with its leading and trailing whitespace runs removed: the piece is whitespace, then the entry, then whitespace, and the entry neither starts nor ends with whitespace. It contains no `,`. |
| `SignatureParser.LastEntryWins` | src/services/signature-parser.service.ts:34-39 | An entry whose key does not recur later determines that key's value, so later duplicates overwrite earlier ones. |
| `SignatureParser.ParseCredentialToken` | src/services/signature-parser.service.ts:44-51 | Fails exactly when `Credential` has no value. Otherwise the `/`-free pieces join back to the value. The access key id is the first piece. The issue date, the region and the service are the second, third and fourth pieces, each `undefined` when the value has fewer pieces. |
| `SignatureParser.CredentialOf` | src/services/signature-parser.service.ts:45-50 | A credential of four or more `/`-free pieces yields its first four pieces; there is no count check. |
| `SignatureParser.ParseFormatRoundTrip` | src/services/signature-parser.service.ts:9-51 | Parsing `AWS4-HMAC-SHA256 Credential=a/d/r/s/aws4_request, SignedHeaders=h1;…, Signature=x` gives back `a`, `d`, `r`, `s`, the header list and `x`. This holds whenever the fields are free of `,=/;` and whitespace. |
| `Dictionaries.LastWins` | src/services/signature-parser.service.ts:36-39 | In the spread-reduce fold, a pair whose key does not recur later gives that key its value. |
| `Strings.TrimIsInfix` | src/services/signature-parser.service.ts:30-32 | The two `\s` replaces leave the infix between the whitespace runs at both ends. |
| `Strings.ReplaceFirstLiteral` | src/app.ts:130 | A string search value is replaced only at its first occurrence. A `$`-free replacement is inserted literally. |
| `CredentialService.ResolveSecretKey` | src/services/credential.service.ts:17-25 | Succeeds exactly for an own entry with a non-empty secret, and returns that secret. Every other id gets the one fixed error message. |
| `CredentialService.FailureIsUniform` | src/services/credential.service.ts:20-21 | The error does not depend on the id looked up. |
| `CredentialService.OtherEntriesIrrelevant` | src/services/credential.service.ts:18 | The result for one id does not depend on other ids' entries. |
| `CredentialService.PropertyRead` | src/services/credential.service.ts:18 | A property read finds an own entry first, then an inherited `Object.prototype` member, and otherwise gives `undefined`. |
| `CredentialService.ResolveSecretKeyAsWritten` | src/services/credential.service.ts:17-25 | The lookup as written succeeds exactly when the property read gives a truthy value, and returns that value. |
| `CredentialService.InheritedMemberResolves` | src/services/credential.service.ts:18-19 | With an empty key table, the written lookup resolves the id `constructor`, while the own-key lookup fails. |
| `CredentialService.AsWrittenAgrees` | src/services/credential.service.ts:18-24 | The two lookups agree, value included, on every id that is configured or is not an inherited member name. |
| `CredentialService.AsWrittenDiffers` | src/services/credential.service.ts:18-19 | On an inherited member name that is not configured, the own-key lookup fails and the written one succeeds. |
| `RequestVerification.CleansedHeaders` | src/services/request-verification.service.ts:158-173 | The result holds neither spelling of `authorization` and is a sub-dictionary of the request's headers. A lower-case name other than `authorization` is kept exactly when it is signed. A name that is not lower case is always kept. |
| `RequestVerification.GetCleansedHeaders` | src/services/request-verification.service.ts:158-173 | The copy-then-delete loop computes `CleansedHeaders`. The request's own dictionary is a value and is not changed. |
| `RequestVerification.CleansedLowerCase` | src/services/request-verification.service.ts:164-170 | With lower-case names, the cleansed headers are exactly the signed entries other than `authorization`. |
| `RequestVerification.MixedCaseUnsignedSurvives` | src/services/request-verification.service.ts:164-169 | An unsigned `X-Trace` survives cleansing and an unsigned `x-trace` does not. |
| `RequestVerification.CleansedHeadersAgree` | src/services/request-verification.service.ts:158-173 | For lower-case names, requests that agree on their signed headers are cleansed to the same headers. |
| `RequestVerification.NormalisedHeaders` | src/services/request-verification.service.ts:134-138 | A truthy `Authorization` is moved to `authorization`, no `Authorization` key remains, and every other key keeps its entry. Without one, nothing changes. |
| `RequestVerification.Whitelisted` | src/services/request-verification.service.ts:85-90 | A definition with no ensures: some entry of the list, compiled by the regular-expression engine, matches the URL. `CheckSignature` states that a whitelisted URL gives 204, and `WhitelistedAppend` states how lists combine. |
| `RequestVerification.WhitelistedAppend` | src/services/request-verification.service.ts:85-90 | A URL is whitelisted by two lists joined exactly when one of the two lists whitelists it. |
| `RequestVerification.CounterCheckInput` | src/services/request-verification.service.ts:122-132 | The signer gets the incoming access key id and service and region, the resolved secret, and the request's hostname, method and URL. It gets the body, or `null` for an empty body. Its headers are the cleansed headers of `CleansedHeaders` for the incoming signed-header list, so they hold neither spelling of `authorization` and form a sub-dictionary of the request's headers. |
| `RequestVerification.CounterCheck` | src/services/request-verification.service.ts:124-142 | A truthy `Authorization` written by the signer is the header that is re-parsed. Without one, the signer's lower-case `authorization` is read. |
| `RequestVerification.CheckSignature` | src/services/request-verification.service.ts:84-156 | The result is always one of the three constants. A whitelisted URL gives 204 before the header is looked at. Past the whitelist, "Missing authentication token" is returned exactly when the header is absent or empty. A wrong scheme marker, a parse failure or an access key id without a non-empty own entry gives the generic 401. |
| `RequestVerification.AdmittedIffSignaturesMatch` | src/services/request-verification.service.ts:140-155 | A well-formed request with a known key is admitted exactly when the signer's header re-parses and its signature equals the incoming one, `undefined` included. |
| `RequestVerification.ParseReadsAuthorization` | src/services/signature-parser.service.ts:10-11 | `parse` depends on the `authorization` entry alone. |
| `RequestVerification.AdmittedIffSignerAgrees` | src/services/request-verification.service.ts:134-155 | When the signer writes `Authorization: AWS4-HMAC-SHA256 …, Signature=x`, the request is admitted exactly when it carries signature `x`. |
| `RequestVerification.UnsignedHeadersIrrelevant` | src/services/request-verification.service.ts:122-131 | For lower-case header names, two requests that agree on url, method, hostname, body and their signed header entries get the same decision. |
| `App.ApplyHeaderRule` | src/app.ts:142-158 | Without `options` the rule throws. Otherwise it follows the four-case table on whether the lower-cased header has a value and whether `match` is given: unchanged; unchanged; first match replaced; `convert` written. No other field or header changes. |
| `App.ApplyUrlRule` | src/app.ts:128-140 | The rule fails exactly when resolution or re-parsing fails. Otherwise the URL becomes the pathname, the query is rebuilt from the search parameters and `host` becomes the hostname. Nothing else changes. |
| `App.ApplyMapper` | src/app.ts:117-124 | A `header` mapper runs `ApplyHeaderRule` and a `url` mapper runs `ApplyUrlRule`. A `type` without a processor throws. No mapper changes the method, the model's hostname field, the body or the request id. A header rule also leaves the URL and the query alone. |
| `App.RewrittenHref` | src/app.ts:129-130 | The rewritten href exists exactly when the request URL resolves against `http://` and the `host` header. When `match` does not occur in the resolved href, it is unchanged. |
| `App.ApplyMappers` | src/app.ts:116-126 | A failure names the position of a mapper in the list. |
| `App.RunAppend` | src/app.ts:122-125 | For any step function, running a list `a + b` of mappers is running `a` and then `b` on its output, with `b`'s error positions shifted by `|a|`. This is proved by induction. `ApplyMappers` is this run with `ApplyMapper` as the step. |
| `App.ApplyMappersAppend` | src/app.ts:122-125 | Running `a + b` is running `a` and then `b` on its output, with `b`'s error positions shifted by `|a|`. |
| `App.ApplyMappersStops` | src/app.ts:122-125 | Once a mapper throws, the later mappers are not run. |
| `App.DefaultRuleIdempotent` | src/app.ts:148-157 | A header rule without `match` applied twice has the effect of applying it once. |
| `App.DefaultRulesFirstWins` | src/app.ts:144-157 | Of two header rules without `match` on the same lower-cased name, the first wins when its `convert` is not empty. |
| `App.EmptyDefaultYields` | src/app.ts:144-157 | When the first of two such rules writes an empty `convert` to an absent header, the value is falsy and the second rule's `convert` is the one that stays. |
| `App.ReplaceRulesChain` | src/app.ts:152-155 | Two replacing rules on one header compose: the second rewrites the first one's output. |
| `App.UrlPatternIsLiteral` | src/app.ts:130 | A URL rule puts a `$`-free `convert` in place of the first literal occurrence of `match` in the absolute URL. |
| `App.UrlPatternAnchorInert` | src/app.ts:130 | The pattern `^/_proxy(/.*)$` leaves a URL without `^` unchanged. |
| `App.UrlQueryLastWins` | src/app.ts:132-137 | A search parameter whose key does not recur later gives that query key its value. |
| `App.RejectionBodyInjective` | src/app.ts:100-108 | The rejection document determines its request id and any `<`-free message. |
| `App.RejectionBody` | src/app.ts:100-108 | A definition with no ensures: the template's lines, kept as `RejectionPrefix`, `RejectionMiddle` and `RejectionSuffix` with their whitespace, with the message and the request id spliced in. `RejectionBodyInjective` states its property, and `HandleRequest` states that a rejection sends it. |
| `App.RejectionHeaders` | src/app.ts:96-97 | A definition with no ensures: `x-amzn-RequestId` is the request id and `Content-Type` is `application/xml`. `HandleRequest` states that a rejection sets them. |
| `App.Request.ModifyHeader` | src/app.ts:142-158 | The in-place update yields `ApplyHeaderRule`'s request. On a throw the request is untouched. |
| `App.Request.ModifyUrl` | src/app.ts:128-140 | The in-place update yields `ApplyUrlRule`'s request. On a throw the request is untouched. |
| `App.Request.ModifyRequest` | src/app.ts:116-126 | The loop leaves the fold of all mappers. When mapper `i` throws, the request holds the fold of the first `i` mappers and that error is returned. |
| `App.HandleRequest` | src/app.ts:84-113 | Only a 204 runs the mappers and forwards the rewritten request. Any other result is a 401 and gets the `x-amzn-RequestId` and `application/xml` headers and the XML document with the result's message and the request id. The request is left unchanged. |

## Left out

- **The `aws4` signer** (src/services/signature.service.ts). Canonical request construction, SHA-256 and HMAC are library code, so `sign` is an arbitrary function.
- **Regular expressions.** `RegExp.test` and regex replace are arbitrary functions. A pattern that is not a valid regular expression makes `new RegExp` throw; that path is not modelled.
- **WHATWG `URL` parsing** and the decoding of search parameters are arbitrary functions (`resolveUrl`, `parseUrl`).
- **Express, body parsing, raw-body capture, the proxy, logging, dependency injection, configuration loading and UUIDs.** These are I/O or wiring. The request id and the parsed body enter as fields of the request.
- **`RequestVerificationService.handle`.** It has a forward/reject branch of its own. src/app.ts calls it with one argument and reads a result it does not return. The model takes `checkSignature`'s result, and the branch in src/app.ts acts on that result.
- **Request body** is modelled as a string, with `""` as the falsy body passed on as `null`.
- **Header values** are strings. Node's array-valued headers are not modelled.
- **A thrown mapper** ends the request. Express's error response is not modelled; the outcome is `Errored`.
- **`match: null` versus a missing `match`.** In a URL rule, `null` is searched for as `"null"` and a missing `match` as `"undefined"`. The model has only the missing case.
- **String comparison timing** is not observable in a sequential model.
- **Configuration fields the core does not read** (`localStackUri`, `port`, `logLevel`) are carried but unused.
- `RequestVerification.NormalisedHeaders`: the source updates the signer's result object in place. The model returns the updated dictionary, because the decision is a function.
- `Strings.ToLower`: maps ASCII letters only. JavaScript's `toLowerCase` also maps non-ASCII letters.
- `RequestVerification.CheckSignature`: uses the corrected own-key lookup `CredentialService.ResolveSecretKey`. As written, an unconfigured inherited id such as `constructor` resolves to a function and the source goes on to sign with it. How the signer turns that function into key material is not modelled, so the model rejects such ids, as the design intends (see "## Findings").
- `RequestVerification.CheckSignature`: assumes that the `aws4` signer and the read of its `headers` do not throw. At src/services/request-verification.service.ts:124-134 they are outside every `try`, so an exception there escapes `checkSignature` and the request gets neither 204 nor 401. That path is not modelled, because `sign` is a total function.
- `RequestVerification.UnsignedHeadersIrrelevant`: `hostname` is an independent field of the request. Express derives `request.hostname` from the `Host` header, so a request that differs only in an unsigned `host` header reaches the signer with a different host. The lemma requires equal hostnames and does not cover that case. For the same reason the model keeps `hostname` fixed across mappers (`App.ApplyMapper`), while in the source a URL rule's write to `request.headers.host` (src/app.ts:139) also changes what `request.hostname` returns afterwards.
- `RequestVerification.GetCleansedHeaders`: deletes the lower-cased names in set order, not in `Object.keys` order. The result does not depend on the order.

## Findings

| source | as written | input that shows it | evidently intended | confidence | as-written member | corrected member |
|---|---|---|---|---|---|---|
| src/services/credential.service.ts:18-19 | `this._config.accessKeys[accessKeyId]` is a property read on a plain object, so it also finds members inherited from `Object.prototype`. A function is truthy, so the lookup succeeds and returns that member as the secret. | access key id `constructor` (or `toString`, `__proto__`, …) with any key table that does not configure it | Only configured ids with a non-empty secret resolve; any other id gets "Invalid access key supplied!" | not executed; high that the lookup resolves; whether a forged signature is then accepted depends on how the signer turns the function into key material | `CredentialService.ResolveSecretKeyAsWritten`, shown by `CredentialService.InheritedMemberResolves` | `CredentialService.ResolveSecretKey`, used by `RequestVerification.CheckSignature` |
