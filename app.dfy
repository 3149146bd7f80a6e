/**
 * `App`: what happens to a request once the verifier has decided. Rejected
 * requests get an XML error document; admitted ones are rewritten by the
 * configured request mappers, in order, and then forwarded.
 */
module App {
  import opened Wrappers
  import opened Strings
  import opened Dictionaries
  import opened Models
  import opened RequestVerification

  /** Why a mapper throws: no `options` on a header rule, a `type` without processor, or a URL that does not parse. */
  datatype MapperErrorKind = MissingHeaderOptions | UnknownMapperType(tag: string) | InvalidUrl

  /** The error of the mapper at position `index` of the configured list. */
  datatype MapperError = MapperError(index: nat, kind: MapperErrorKind)

  /** The header value when it is truthy: present and not empty. */
  predicate HasValue(headers: map<string, string>, name: string) {
    name in headers && headers[name] != ""
  }

  /**
   * `modifyHeader` on the lower-cased `options.name`:
   * absent with a `match` leaves the headers alone, present without one too,
   * present with a non-empty `match` replaces the first match of that
   * pattern in the value, and every other case writes `convert`.
   */
  function ApplyHeaderRule(request: HttpRequest, mapper: RequestMapper, env: Collaborators): (r: Result<HttpRequest, MapperErrorKind>)
    ensures r.Failure? <==> mapper.options.None?
    ensures r.Failure? ==> r.error == MissingHeaderOptions
    ensures r.Success? ==>
      var name := ToLower(mapper.options.value.name);
      && r.value == request.(headers := r.value.headers)
      && (forall k :: k != name ==> SameEntry(r.value.headers, request.headers, k))
      && (!HasValue(request.headers, name) && mapper.pattern.Some? ==> r.value == request)
      && (HasValue(request.headers, name) && mapper.pattern.None? ==> r.value == request)
      && (HasValue(request.headers, name) && mapper.pattern.Some? && mapper.pattern.value != "" ==>
            r.value.headers == request.headers[name := env.regexReplace(request.headers[name], mapper.pattern.value, mapper.convert)])
      && ((!HasValue(request.headers, name) && mapper.pattern.None?) ||
          (HasValue(request.headers, name) && mapper.pattern == Some("")) ==>
            r.value.headers == request.headers[name := mapper.convert])
  {
    match mapper.options
    case None => Failure(MissingHeaderOptions)
    case Some(options) =>
      var name := ToLower(options.name);
      if !HasValue(request.headers, name) && mapper.pattern.Some? then Success(request)
      else if HasValue(request.headers, name) && mapper.pattern.None? then Success(request)
      else if mapper.pattern.Some? && mapper.pattern.value != "" && HasValue(request.headers, name) then
        Success(request.(headers := request.headers[name := env.regexReplace(request.headers[name], mapper.pattern.value, mapper.convert)]))
      else Success(request.(headers := request.headers[name := mapper.convert]))
  }

  /** The base `http://${request.headers.host}`; a missing host is written as `undefined`. */
  function UrlBase(headers: map<string, string>): string {
    "http://" + (if "host" in headers then headers["host"] else "undefined")
  }

  /** The search value `String.prototype.replace` receives: a missing `match` becomes `"undefined"`. */
  function PatternText(pattern: Option<string>): string {
    if pattern.Some? then pattern.value else "undefined"
  }

  /** The string the rewritten URL is parsed from, when the request URL resolves. */
  function RewrittenHref(request: HttpRequest, mapper: RequestMapper, env: Collaborators): (r: Option<string>)
    ensures r.Some? <==> env.resolveUrl(request.url, UrlBase(request.headers)).Some?
    ensures r.Some? && IndexOf(env.resolveUrl(request.url, UrlBase(request.headers)).value, PatternText(mapper.pattern)).None? ==>
      r.value == env.resolveUrl(request.url, UrlBase(request.headers)).value
  {
    match env.resolveUrl(request.url, UrlBase(request.headers))
    case None => None
    case Some(href) => Some(ReplaceFirst(href, PatternText(mapper.pattern), mapper.convert))
  }

  /**
   * `modifyUrl`: the first literal occurrence of `match` in the absolute
   * URL is replaced by `convert`; the result's pathname becomes the URL, its
   * search parameters the query (the last of equal keys wins) and its
   * hostname the `host` header. Nothing else changes.
   */
  function ApplyUrlRule(request: HttpRequest, mapper: RequestMapper, env: Collaborators): (r: Result<HttpRequest, MapperErrorKind>)
    ensures r.Success? <==>
      RewrittenHref(request, mapper, env).Some? && env.parseUrl(RewrittenHref(request, mapper, env).value).Some?
    ensures r.Failure? ==> r.error == InvalidUrl
    ensures r.Success? ==>
      var parts := env.parseUrl(RewrittenHref(request, mapper, env).value).value;
      && r.value.url == parts.pathname
      && r.value.query == FromPairs(parts.searchParams)
      && r.value.headers == request.headers["host" := parts.hostname]
      && r.value.(url := request.url, query := request.query, headers := request.headers) == request
  {
    match RewrittenHref(request, mapper, env)
    case None => Failure(InvalidUrl)
    case Some(rewritten) =>
      match env.parseUrl(rewritten)
      case None => Failure(InvalidUrl)
      case Some(parts) =>
        Success(request.(url := parts.pathname, query := FromPairs(parts.searchParams),
                         headers := request.headers["host" := parts.hostname]))
  }

  /** The processor for the mapper's `type`; a type without one throws when it is called. */
  function ApplyMapper(request: HttpRequest, mapper: RequestMapper, env: Collaborators): (r: Result<HttpRequest, MapperErrorKind>)
    ensures mapper.kind.Unsupported? ==> r == Failure(UnknownMapperType(mapper.kind.tag))
    ensures r.Success? ==>
      && r.value.httpMethod == request.httpMethod && r.value.hostname == request.hostname
      && r.value.body == request.body && r.value.requestId == request.requestId
    ensures r.Success? && mapper.kind == Header ==> r.value.url == request.url && r.value.query == request.query
    ensures mapper.kind == Header ==> r == ApplyHeaderRule(request, mapper, env)
    ensures mapper.kind == Url ==> r == ApplyUrlRule(request, mapper, env)
  {
    match mapper.kind
    case Header => ApplyHeaderRule(request, mapper, env)
    case Url => ApplyUrlRule(request, mapper, env)
    case Unsupported(tag) => Failure(UnknownMapperType(tag))
  }

  /** What one mapper does to a request; `ApplyMapper` is the one the gateway uses. */
  type Step = (HttpRequest, RequestMapper) -> Result<HttpRequest, MapperErrorKind>

  /** A list of mappers run in order by `step`, each on the previous one's output; the first error stops the run. */
  function Run(request: HttpRequest, mappers: seq<RequestMapper>, step: Step): (r: Result<HttpRequest, MapperError>)
    ensures r.Failure? ==> r.error.index < |mappers|
    decreases |mappers|
  {
    if |mappers| == 0 then Success(request)
    else
      match Run(request, mappers[..|mappers| - 1], step)
      case Failure(e) => Failure(e)
      case Success(previous) =>
        match step(previous, mappers[|mappers| - 1])
        case Failure(kind) => Failure(MapperError(|mappers| - 1, kind))
        case Success(next) => Success(next)
  }

  /** `modifyRequest`'s loop: the configured mappers run in order through `ApplyMapper`. */
  function ApplyMappers(request: HttpRequest, mappers: seq<RequestMapper>, env: Collaborators): (r: Result<HttpRequest, MapperError>)
    ensures r.Failure? ==> r.error.index < |mappers|
  {
    Run(request, mappers, (r, m) => ApplyMapper(r, m, env))
  }

  /** A run over a later part of the list reports positions within the whole list. */
  function Offset(r: Result<HttpRequest, MapperError>, n: nat): Result<HttpRequest, MapperError> {
    match r
    case Success(v) => Success(v)
    case Failure(e) => Failure(MapperError(e.index + n, e.kind))
  }

  /** One more mapper at the end of the list runs on the output of the others, unless they failed. */
  lemma RunSnoc(request: HttpRequest, mappers: seq<RequestMapper>, last: RequestMapper, step: Step)
    ensures Run(request, mappers + [last], step) ==
      match Run(request, mappers, step)
      case Failure(e) => Failure(e)
      case Success(previous) =>
        match step(previous, last)
        case Failure(kind) => Failure(MapperError(|mappers|, kind))
        case Success(next) => Success(next)
  {
    var all := mappers + [last];
    assert all[..|all| - 1] == mappers;
    assert all[|all| - 1] == last;
  }

  /** Running `a + b` is running `a`, then `b` on its output, for any step. */
  lemma {:induction false} RunAppend(request: HttpRequest, a: seq<RequestMapper>, b: seq<RequestMapper>, step: Step)
    ensures Run(request, a + b, step) ==
      match Run(request, a, step)
      case Failure(e) => Failure(e)
      case Success(v) => Offset(Run(v, b, step), |a|)
    decreases |b|
  {
    if |b| == 0 {
      assert a + b == a;
    } else {
      var init, last := b[..|b| - 1], b[|b| - 1];
      assert a + b == (a + init) + [last];
      assert b == init + [last];
      RunAppend(request, a, init, step);
      RunSnoc(request, a + init, last, step);
      match Run(request, a, step)
      case Failure(e) =>
      case Success(v) =>
        RunSnoc(v, init, last, step);
    }
  }

  /** A list of one mapper runs that mapper, and a throw is reported at position 0. */
  lemma ApplyMappersSingle(request: HttpRequest, mapper: RequestMapper, env: Collaborators)
    ensures ApplyMappers(request, [mapper], env) ==
      match ApplyMapper(request, mapper, env)
      case Failure(kind) => Failure(MapperError(0, kind))
      case Success(next) => Success(next)
  {
    RunSnoc(request, [], mapper, (r, m) => ApplyMapper(r, m, env));
    assert [] + [mapper] == [mapper];
  }

  /** Running `a + b` is running `a`, then `b` on its output. */
  lemma ApplyMappersAppend(request: HttpRequest, a: seq<RequestMapper>, b: seq<RequestMapper>, env: Collaborators)
    ensures ApplyMappers(request, a + b, env) ==
      match ApplyMappers(request, a, env)
      case Failure(e) => Failure(e)
      case Success(v) => Offset(ApplyMappers(v, b, env), |a|)
  {
    RunAppend(request, a, b, (r, m) => ApplyMapper(r, m, env));
  }

  /** Once a mapper fails, the rest of the list is not run and the error is the run's result. */
  lemma ApplyMappersStops(request: HttpRequest, mappers: seq<RequestMapper>, i: nat, env: Collaborators)
    requires i < |mappers| && ApplyMappers(request, mappers[..i + 1], env).Failure?
    ensures ApplyMappers(request, mappers, env) == ApplyMappers(request, mappers[..i + 1], env)
  {
    ApplyMappersAppend(request, mappers[..i + 1], mappers[i + 1..], env);
    assert mappers[..i + 1] + mappers[i + 1..] == mappers;
  }

  /** A header rule without `match` applied twice does what it does once. */
  lemma DefaultRuleIdempotent(request: HttpRequest, mapper: RequestMapper, env: Collaborators)
    requires mapper.kind == Header && mapper.pattern.None?
    ensures ApplyMappers(request, [mapper, mapper], env) == ApplyMappers(request, [mapper], env)
  {
    ApplyMappersAppend(request, [mapper], [mapper], env);
    assert [mapper] + [mapper] == [mapper, mapper];
    ApplyMappersSingle(request, mapper, env);
    match ApplyMappers(request, [mapper], env)
    case Failure(e) =>
    case Success(v) =>
      ApplyMappersSingle(v, mapper, env);
      assert ApplyMapper(request, mapper, env) == Success(v);
      var name := ToLower(mapper.options.value.name);
      if HasValue(request.headers, name) {
        assert v == request;
      } else {
        assert v.headers == request.headers[name := mapper.convert];
        assert v == request.(headers := v.headers);
        if mapper.convert == "" {
          assert v.headers[name := mapper.convert] == v.headers;
        }
      }
      assert ApplyMapper(v, mapper, env) == Success(v);
  }

  /**
   * Of two header rules without `match` on the same lower-cased name, the
   * first wins when its `convert` is not empty: it leaves a value the second
   * one keeps. An empty `convert` is falsy, so the second would write its own.
   */
  lemma DefaultRulesFirstWins(request: HttpRequest, first: RequestMapper, second: RequestMapper, env: Collaborators)
    requires first.kind == Header && second.kind == Header
    requires first.pattern.None? && second.pattern.None?
    requires first.options.Some? && second.options.Some?
    requires ToLower(first.options.value.name) == ToLower(second.options.value.name)
    requires first.convert != ""
    ensures ApplyMappers(request, [first, second], env) == ApplyMappers(request, [first], env)
  {
    ApplyMappersAppend(request, [first], [second], env);
    assert [first] + [second] == [first, second];
    ApplyMappersSingle(request, first, env);
    var v := ApplyMapper(request, first, env).value;
    assert ApplyMappers(request, [first], env) == Success(v);
    ApplyMappersSingle(v, second, env);
    var name := ToLower(first.options.value.name);
    assert HasValue(v.headers, name);
    assert ApplyMapper(v, second, env) == Success(v);
  }

  /** With an empty first `convert`, the second default rule's value is the one that stays. */
  lemma EmptyDefaultYields(request: HttpRequest, first: RequestMapper, second: RequestMapper, env: Collaborators)
    requires first.kind == Header && second.kind == Header
    requires first.pattern.None? && second.pattern.None?
    requires first.options.Some? && second.options.Some?
    requires ToLower(first.options.value.name) == ToLower(second.options.value.name)
    requires first.convert == "" && !HasValue(request.headers, ToLower(first.options.value.name))
    ensures ApplyMappers(request, [first, second], env)
         == Success(request.(headers := request.headers[ToLower(first.options.value.name) := second.convert]))
  {
    ApplyMappersAppend(request, [first], [second], env);
    assert [first] + [second] == [first, second];
    ApplyMappersSingle(request, first, env);
    var v := ApplyMapper(request, first, env).value;
    assert ApplyMappers(request, [first], env) == Success(v);
    ApplyMappersSingle(v, second, env);
    var name := ToLower(first.options.value.name);
    assert !HasValue(v.headers, name);
    assert v.headers[name := second.convert] == request.headers[name := second.convert];
  }

  /** Two replacing header rules on the same name: the second rewrites what the first produced. */
  lemma ReplaceRulesChain(request: HttpRequest, first: RequestMapper, second: RequestMapper, env: Collaborators)
    requires first.kind == Header && second.kind == Header
    requires first.options.Some? && second.options == first.options
    requires first.pattern.Some? && first.pattern.value != "" && second.pattern.Some? && second.pattern.value != ""
    requires HasValue(request.headers, ToLower(first.options.value.name))
    requires var name := ToLower(first.options.value.name);
      env.regexReplace(request.headers[name], first.pattern.value, first.convert) != ""
    ensures var name := ToLower(first.options.value.name);
      var once := env.regexReplace(request.headers[name], first.pattern.value, first.convert);
      ApplyMappers(request, [first, second], env)
        == Success(request.(headers := request.headers[name := env.regexReplace(once, second.pattern.value, second.convert)]))
  {
    ApplyMappersAppend(request, [first], [second], env);
    assert [first] + [second] == [first, second];
    ApplyMappersSingle(request, first, env);
    var name := ToLower(first.options.value.name);
    var once := env.regexReplace(request.headers[name], first.pattern.value, first.convert);
    var afterFirst := request.(headers := request.headers[name := once]);
    ApplyMappersSingle(afterFirst, second, env);
    assert ApplyMappers(request, [first], env) == Success(afterFirst);
    assert HasValue(afterFirst.headers, name);
    var twice := env.regexReplace(once, second.pattern.value, second.convert);
    assert ApplyMappers(afterFirst, [second], env) == Success(afterFirst.(headers := afterFirst.headers[name := twice]));
    assert afterFirst.headers[name := twice] == request.headers[name := twice];
  }

  /**
   * A URL rule's `match` is a literal: a `$`-free `convert` takes the place
   * of the first occurrence of `match` in the absolute URL.
   */
  lemma UrlPatternIsLiteral(request: HttpRequest, mapper: RequestMapper, env: Collaborators, href: string, i: nat)
    requires env.resolveUrl(request.url, UrlBase(request.headers)) == Some(href)
    requires mapper.pattern.Some? && '$' !in mapper.convert
    requires OccursAt(href, mapper.pattern.value, i)
    requires forall j: nat :: j < i ==> !OccursAt(href, mapper.pattern.value, j)
    ensures RewrittenHref(request, mapper, env)
         == Some(href[..i] + mapper.convert + href[i + |mapper.pattern.value|..])
  {
    ReplaceFirstLiteral(href, mapper.pattern.value, mapper.convert, i);
  }

  /**
   * Regular-expression syntax has no meaning in a URL rule: a `match` such
   * as `^/_proxy(/.*)$` is looked for character by character, so in a URL
   * without `^` it never matches and the URL is only re-parsed.
   */
  lemma UrlPatternAnchorInert(request: HttpRequest, mapper: RequestMapper, env: Collaborators, href: string)
    requires env.resolveUrl(request.url, UrlBase(request.headers)) == Some(href)
    requires mapper.pattern == Some("^/_proxy(/.*)$") && '^' !in href
    ensures RewrittenHref(request, mapper, env) == Some(href)
  {
    ReplaceFirstAbsent(href, "^/_proxy(/.*)$", mapper.convert);
  }

  /** A search parameter whose key does not recur later is the value the query ends up with. */
  lemma UrlQueryLastWins(request: HttpRequest, mapper: RequestMapper, env: Collaborators, i: nat)
    requires ApplyUrlRule(request, mapper, env).Success?
    requires var params := env.parseUrl(RewrittenHref(request, mapper, env).value).value.searchParams;
      i < |params| && forall j :: i < j < |params| ==> params[j].0 != params[i].0
    ensures var params := env.parseUrl(RewrittenHref(request, mapper, env).value).value.searchParams;
      var query := ApplyUrlRule(request, mapper, env).value.query;
      params[i].0 in query && query[params[i].0] == params[i].1
  {
    var params := env.parseUrl(RewrittenHref(request, mapper, env).value).value.searchParams;
    LastWins(params, i);
  }

  /** The XML document of a rejection, with the whitespace of the template it comes from. */
  const RejectionPrefix :=
    "\n        <ErrorResponse xmlns=\"https://iam.amazonaws.com/doc/2010-05-08/\">"
    + "\n          <Error>"
    + "\n            <Type>Sender</Type>"
    + "\n            <Code>InvalidClientTokenId</Code>"
    + "\n            <Message>"
  const RejectionMiddle := "</Message>" + "\n          </Error>" + "\n          <RequestId>"
  const RejectionSuffix := "</RequestId>" + "\n        </ErrorResponse>"

  function RejectionBody(message: string, requestId: string): string {
    RejectionPrefix + message + RejectionMiddle + requestId + RejectionSuffix
  }

  /** The response headers of a rejection. */
  function RejectionHeaders(requestId: string): map<string, string> {
    map["x-amzn-RequestId" := requestId, "Content-Type" := "application/xml"]
  }

  /** Two strings that share a prefix and whose next parts stop at the first `d`. */
  lemma DelimitedPartsEqual(p: string, m1: string, t1: string, m2: string, t2: string, d: char)
    requires d !in m1 && d !in m2 && |t1| > 0 && t1[0] == d && |t2| > 0 && t2[0] == d
    requires p + m1 + t1 == p + m2 + t2
    ensures m1 == m2 && t1 == t2
  {
    var s := p + m1 + t1;
    var rest := s[|p|..];
    assert rest == m1 + [d] + t1[1..] && rest == m2 + [d] + t2[1..];
    FirstIndexAfter(m1, d, t1[1..]);
    FirstIndexAfter(m2, d, t2[1..]);
    assert m1 == s[|p|..|p| + |m1|] == m2;
    assert t1 == s[|p| + |m1|..] == t2;
  }

  /** Strings with the same prefix and suffix have the same middle. */
  lemma InfixEqual(p: string, x: string, y: string, q: string)
    requires p + x + q == p + y + q
    ensures x == y
  {
    var s := p + x + q;
    assert |x| == |y|;
    assert x == s[|p|..|p| + |x|] == y;
  }

  /** A document `prefix + message + middle + id + suffix` whose middle starts with `<` determines a `<`-free message and the id. */
  lemma DocumentInjective(prefix: string, middle: string, suffix: string, m1: string, id1: string, m2: string, id2: string)
    requires |middle| > 0 && middle[0] == '<' && '<' !in m1 && '<' !in m2
    requires prefix + m1 + middle + id1 + suffix == prefix + m2 + middle + id2 + suffix
    ensures m1 == m2 && id1 == id2
  {
    var t1 := middle + id1 + suffix;
    var t2 := middle + id2 + suffix;
    assert prefix + m1 + middle + id1 + suffix == prefix + m1 + t1;
    assert prefix + m2 + middle + id2 + suffix == prefix + m2 + t2;
    DelimitedPartsEqual(prefix, m1, t1, m2, t2, '<');
    InfixEqual(middle, id1, id2, suffix);
  }

  lemma RejectionMiddleStartsTag()
    ensures |RejectionMiddle| > 0 && RejectionMiddle[0] == '<'
  {
  }

  /** The rejection document determines its message, if that holds no `<`, and its request id. */
  lemma RejectionBodyInjective(m1: string, id1: string, m2: string, id2: string)
    requires '<' !in m1 && '<' !in m2
    requires RejectionBody(m1, id1) == RejectionBody(m2, id2)
    ensures m1 == m2 && id1 == id2
  {
    RejectionMiddleStartsTag();
    DocumentInjective(RejectionPrefix, RejectionMiddle, RejectionSuffix, m1, id1, m2, id2);
  }

  /** What the gateway does with the request. */
  datatype Response =
    | Forwarded(request: HttpRequest)
    | Rejected(status: int, headers: map<string, string>, body: string)
    | Errored(error: MapperError)

  /** The request as the mappers see it; `url`, `query` and `headers` are rewritten in place. */
  class Request {
    var url: string
    var query: map<string, string>
    var headers: map<string, string>
    const httpMethod: string
    const hostname: string
    const body: string
    const requestId: string

    constructor (r: HttpRequest)
      ensures Value() == r
    {
      url, query, headers := r.url, r.query, r.headers;
      httpMethod, hostname, body, requestId := r.httpMethod, r.hostname, r.body, r.requestId;
    }

    function Value(): HttpRequest
      reads this
    {
      HttpRequest(url, query, headers, httpMethod, hostname, body, requestId)
    }

    /** `modifyHeader`: on success the request is `ApplyHeaderRule`'s; on failure it is untouched. */
    method ModifyHeader(mapper: RequestMapper, env: Collaborators) returns (failure: Option<MapperErrorKind>)
      modifies this
      ensures ApplyHeaderRule(old(Value()), mapper, env) == if failure.None? then Success(Value()) else Failure(failure.value)
      ensures failure.Some? ==> Value() == old(Value())
    {
      if mapper.options.None? {
        return Some(MissingHeaderOptions);
      }
      var name := ToLower(mapper.options.value.name);
      var present := name in headers && headers[name] != "";
      failure := None;
      if !present && mapper.pattern.Some? {
        return;
      }
      if present && mapper.pattern.None? {
        return;
      }
      if mapper.pattern.Some? && mapper.pattern.value != "" && present {
        headers := headers[name := env.regexReplace(headers[name], mapper.pattern.value, mapper.convert)];
        return;
      }
      headers := headers[name := mapper.convert];
    }

    /** `modifyUrl`: on success the request is `ApplyUrlRule`'s; on failure it is untouched. */
    method ModifyUrl(mapper: RequestMapper, env: Collaborators) returns (failure: Option<MapperErrorKind>)
      modifies this
      ensures ApplyUrlRule(old(Value()), mapper, env) == if failure.None? then Success(Value()) else Failure(failure.value)
      ensures failure.Some? ==> Value() == old(Value())
    {
      var resolved := env.resolveUrl(url, UrlBase(headers));
      if resolved.None? {
        return Some(InvalidUrl);
      }
      var rewritten := ReplaceFirst(resolved.value, PatternText(mapper.pattern), mapper.convert);
      var parsed := env.parseUrl(rewritten);
      if parsed.None? {
        return Some(InvalidUrl);
      }
      url := parsed.value.pathname;
      query := FromPairs(parsed.value.searchParams);
      headers := headers["host" := parsed.value.hostname];
      failure := None;
    }

    /**
     * `modifyRequest`: every mapper in order. On success the request is the
     * fold of all of them; when mapper `i` throws, it holds what the first
     * `i` mappers made of it.
     */
    method ModifyRequest(mappers: seq<RequestMapper>, env: Collaborators) returns (failure: Option<MapperError>)
      modifies this
      ensures failure.None? ==> ApplyMappers(old(Value()), mappers, env) == Success(Value())
      ensures failure.Some? ==>
        && ApplyMappers(old(Value()), mappers, env) == Failure(failure.value)
        && ApplyMappers(old(Value()), mappers[..failure.value.index], env) == Success(Value())
    {
      var i := 0;
      while i < |mappers|
        invariant 0 <= i <= |mappers|
        invariant ApplyMappers(old(Value()), mappers[..i], env) == Success(Value())
      {
        ghost var before := Value();
        var kindFailure: Option<MapperErrorKind>;
        match mappers[i].kind {
          case Header => kindFailure := ModifyHeader(mappers[i], env);
          case Url => kindFailure := ModifyUrl(mappers[i], env);
          case Unsupported(tag) => kindFailure := Some(UnknownMapperType(tag));
        }
        assert mappers[..i + 1][..i] == mappers[..i];
        assert ApplyMapper(before, mappers[i], env) ==
          if kindFailure.None? then Success(Value()) else Failure(kindFailure.value);
        if kindFailure.Some? {
          failure := Some(MapperError(i, kindFailure.value));
          ApplyMappersStops(old(Value()), mappers, i, env);
          return;
        }
        i := i + 1;
      }
      assert mappers[..i] == mappers;
      failure := None;
    }
  }

  /**
   * The handler of every path: a request the verifier admits (204) is
   * rewritten and forwarded; any other result becomes that status with the
   * XML error document, and the request is not rewritten.
   */
  method HandleRequest(request: Request, config: Configuration, env: Collaborators) returns (response: Response)
    modifies request
    ensures var verdict := CheckSignature(old(request.Value()), config, env);
      verdict.status == 204 ==>
        match ApplyMappers(old(request.Value()), config.requestMappers, env)
        case Success(v) => response == Forwarded(v) && request.Value() == v
        case Failure(e) => response == Errored(e)
    ensures var verdict := CheckSignature(old(request.Value()), config, env);
      verdict.status != 204 ==>
        && verdict.status == 401
        && response == Rejected(401, RejectionHeaders(request.requestId),
                                RejectionBody(verdict.body.value.message, request.requestId))
        && request.Value() == old(request.Value())
  {
    var verdict := CheckSignature(request.Value(), config, env);
    if verdict.status == 204 {
      var failure := request.ModifyRequest(config.requestMappers, env);
      if failure.Some? {
        return Errored(failure.value);
      }
      return Forwarded(request.Value());
    }
    response := Rejected(verdict.status, RejectionHeaders(request.requestId),
                         RejectionBody(verdict.body.value.message, request.requestId));
  }
}
