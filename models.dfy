/**
 * The shapes the gateway passes around (the interfaces under src/models), and the record of
 * collaborators whose code is outside the model.
 */
module Models {
  import opened Wrappers

  /**
   * `CredentialInfo`: the leading `/`-pieces of the `Credential` entry. The
   * first piece always exists; the other three are `undefined` when the
   * entry has fewer pieces.
   */
  datatype CredentialInfo = CredentialInfo(
    accessKeyId: string,
    issuedAt: Option<string>,
    region: Option<string>,
    service: Option<string>)

  /** `ParsedSignature`; `signature` is `undefined` when the header has no `Signature` entry. */
  datatype ParsedSignature = ParsedSignature(
    credential: CredentialInfo,
    signedHeaders: seq<string>,
    signature: Option<string>)

  /** `VerificationResult`; `body` is `{ message }` and `result` is never set by the constants. */
  datatype ResultBody = ResultBody(message: string)
  datatype VerificationResult = VerificationResult(
    status: int,
    body: Option<ResultBody>,
    result: Option<ParsedSignature>)

  /** `RequestMapperType`; a `type` string read from the configuration that is neither is kept as it is. */
  datatype MapperKind = Url | Header | Unsupported(tag: string)

  datatype HeaderOptions = HeaderOptions(name: string)

  /**
   * `RequestMapper`. `pattern` is the `match` field (`None` when it is
   * missing from the configuration); `options` is only meaningful for header rules.
   */
  datatype RequestMapper = RequestMapper(
    kind: MapperKind,
    pattern: Option<string>,
    convert: string,
    options: Option<HeaderOptions>)

  datatype LogLevel = Debug | Info | Warn | Error

  /** `Configuration`, together with the `requestMappers` list that the application reads from it. */
  datatype Configuration = Configuration(
    logLevel: LogLevel,
    localStackUri: string,
    whitelistedUris: seq<string>,
    port: int,
    accessKeys: map<string, string>,
    requestMappers: seq<RequestMapper>)

  /**
   * The parts of an Express request the core reads or writes. Header names
   * are keys of `headers` as Node delivers them; `body` is the parsed body,
   * with `""` for a falsy one.
   */
  datatype HttpRequest = HttpRequest(
    url: string,
    query: map<string, string>,
    headers: map<string, string>,
    httpMethod: string,
    hostname: string,
    body: string,
    requestId: string)

  /** What the verifier hands to the `aws4` signer: the request description and the credentials. */
  datatype SignInput = SignInput(
    accessKeyId: string,
    secretAccessKey: string,
    host: string,
    httpMethod: string,
    path: string,
    body: Option<string>,
    service: Option<string>,
    headers: map<string, string>,
    region: Option<string>)

  /** The parts of a WHATWG `URL` that a URL rule copies back into the request. */
  datatype UrlParts = UrlParts(pathname: string, searchParams: seq<(string, string)>, hostname: string)

  /**
   * Code the model does not contain, as functions:
   * `regexTest(p, s)` is `new RegExp(p).test(s)`;
   * `regexReplace(s, p, c)` is `s.replace(new RegExp(p), c)`;
   * `sign(i)` is the header dictionary of the request `aws4.sign` returns;
   * `resolveUrl(u, b)` is `new URL(u, b).href`, `None` when that throws;
   * `parseUrl(u)` is `new URL(u)`, `None` when that throws.
   */
  datatype Collaborators = Collaborators(
    regexTest: (string, string) -> bool,
    regexReplace: (string, string, string) -> string,
    sign: SignInput -> map<string, string>,
    resolveUrl: (string, string) -> Option<string>,
    parseUrl: string -> Option<UrlParts>)
}
