/** `SignatureParserService`: reading an AWS Signature Version 4 `authorization` header. */
module SignatureParser {
  import opened Wrappers
  import opened Strings
  import opened Dictionaries
  import opened Models

  /** The scheme marker, trailing blank included. */
  const Algorithm := "AWS4-HMAC-SHA256 "

  /** Why `parse` throws: no header, or `split` called on an undefined entry. */
  datatype ParseError = InvalidAuthorizationHeader | CredentialUndefined | SignedHeadersUndefined

  /** `headers.authorization` when it is truthy. */
  function Authorization(headers: map<string, string>): Option<string> {
    if "authorization" in headers && headers["authorization"] != "" then Some(headers["authorization"]) else None
  }

  /** `authorization.replace(/^AWS4-HMAC-SHA256 /g, '')`: the anchor limits it to a leading marker. */
  function StripAlgorithm(authorization: string): (r: string)
    ensures Algorithm <= authorization ==> Algorithm + r == authorization
    ensures !(Algorithm <= authorization) ==> r == authorization
  {
    if Algorithm <= authorization then authorization[|Algorithm|..] else authorization
  }

  /** The marker-free header split on `,`, each entry trimmed. */
  function EntryStrings(authorization: string): (r: seq<string>)
    ensures |r| >= 1
    ensures |r| == |Split(StripAlgorithm(authorization), ',')|
  {
    var pieces := Split(StripAlgorithm(authorization), ',');
    seq(|pieces|, i requires 0 <= i < |pieces| => Trim(pieces[i]))
  }

  /**
   * Entry `i` is the `i`-th `,`-piece of the marker-free header with its
   * leading and trailing whitespace runs removed: the piece is whitespace, then
   * the entry, then whitespace, and the entry neither starts nor ends with one.
   */
  lemma EntriesAreTrimmed(authorization: string, i: nat) returns (k: nat)
    requires i < |EntryStrings(authorization)|
    ensures var piece := Split(StripAlgorithm(authorization), ',')[i];
      var e := EntryStrings(authorization)[i];
      && k + |e| <= |piece| && e == piece[k..k + |e|]
      && AllWhitespace(piece[..k]) && AllWhitespace(piece[k + |e|..])
      && ',' !in e
      && (e == [] || (!IsWhitespace(e[0]) && !IsWhitespace(e[|e| - 1])))
  {
    var pieces := Split(StripAlgorithm(authorization), ',');
    k := TrimIsInfix(pieces[i]);
    TrimKeepsAbsent(pieces[i], ',');
  }

  /** `entry.split('=')` destructured as `[key, value]`: later pieces are dropped, a missing value is undefined. */
  function EntryPair(entry: string): (p: (string, Option<string>))
    ensures '=' !in p.0 && p.0 <= entry
    ensures p.1.None? <==> '=' !in entry
    ensures p.1.Some? ==> '=' !in p.1.value && p.0 + "=" + p.1.value <= entry
    ensures '=' !in entry ==> p.0 == entry
    ensures p.1.Some? ==> p.0 + "=" + p.1.value == entry || p.0 + "=" + p.1.value + "=" <= entry
  {
    var pieces := Split(entry, '=');
    SplitFirstTwo(entry, '=');
    (pieces[0], if |pieces| >= 2 then Some(pieces[1]) else None)
  }

  /** The `[key, value]` pair of every entry, in order. */
  function EntryPairs(authorization: string): (r: seq<(string, Option<string>)>)
    ensures |r| == |EntryStrings(authorization)|
    ensures forall i :: 0 <= i < |r| ==> r[i] == EntryPair(EntryStrings(authorization)[i])
  {
    var entries := EntryStrings(authorization);
    seq(|entries|, i requires 0 <= i < |entries| => EntryPair(entries[i]))
  }

  /** `parseAuthorizationHeader`: the entries folded into one dictionary. */
  function ParseAuthorizationHeader(authorization: string): (m: map<string, Option<string>>)
    ensures m.Keys == set i | 0 <= i < |EntryPairs(authorization)| :: EntryPairs(authorization)[i].0
  {
    FromPairs(EntryPairs(authorization))
  }

  /** `entries[name]`: undefined when absent or given without `=`. */
  function Entry(entries: map<string, Option<string>>, name: string): Option<string> {
    if name in entries then entries[name] else None
  }

  function Piece(pieces: seq<string>, i: nat): Option<string> {
    if i < |pieces| then Some(pieces[i]) else None
  }

  /** `parseCredentialToken`: the first four `/`-pieces of `Credential`, without a count check. */
  function ParseCredentialToken(entries: map<string, Option<string>>): (r: Result<CredentialInfo, ParseError>)
    ensures r.Success? <==> Entry(entries, "Credential").Some?
    ensures r.Success? ==>
      var pieces := Split(Entry(entries, "Credential").value, '/');
      && Join(pieces, '/') == Entry(entries, "Credential").value
      && (forall i :: 0 <= i < |pieces| ==> '/' !in pieces[i])
      && r.value.accessKeyId == pieces[0]
      && (|pieces| >= 2 ==> r.value.issuedAt == Some(pieces[1]))
      && (|pieces| < 2 ==> r.value.issuedAt.None?)
      && (|pieces| >= 3 ==> r.value.region == Some(pieces[2]))
      && (|pieces| < 3 ==> r.value.region.None?)
      && (|pieces| >= 4 ==> r.value.service == Some(pieces[3]))
      && (|pieces| < 4 ==> r.value.service.None?)
  {
    match Entry(entries, "Credential")
    case None => Failure(CredentialUndefined)
    case Some(credential) =>
      var pieces := Split(credential, '/');
      JoinSplit(credential, '/');
      Success(CredentialInfo(pieces[0], Piece(pieces, 1), Piece(pieces, 2), Piece(pieces, 3)))
  }

  /**
   * `parse`: fails for a missing or empty header and for a header without a
   * `Credential` or `SignedHeaders` value; a missing `Signature` is not an error.
   */
  function Parse(headers: map<string, string>): (r: Result<ParsedSignature, ParseError>)
    ensures Authorization(headers).None? ==> r == Failure(InvalidAuthorizationHeader)
    ensures Authorization(headers).Some? ==>
      var entries := ParseAuthorizationHeader(Authorization(headers).value);
      && (r.Success? <==> Entry(entries, "Credential").Some? && Entry(entries, "SignedHeaders").Some?)
      && (r.Success? ==> Success(r.value.credential) == ParseCredentialToken(entries))
      && (r.Success? ==> r.value.signature == Entry(entries, "Signature"))
      && (r.Success? ==> Join(r.value.signedHeaders, ';') == Entry(entries, "SignedHeaders").value)
      && (r.Success? ==> |r.value.signedHeaders| >= 1)
      && (r.Success? ==> forall i :: 0 <= i < |r.value.signedHeaders| ==> ';' !in r.value.signedHeaders[i])
      && (r.Failure? && Entry(entries, "Credential").None? ==> r.error == CredentialUndefined)
      && (r.Failure? && Entry(entries, "Credential").Some? ==> r.error == SignedHeadersUndefined)
  {
    match Authorization(headers)
    case None => Failure(InvalidAuthorizationHeader)
    case Some(authorization) =>
      var entries := ParseAuthorizationHeader(authorization);
      match ParseCredentialToken(entries)
      case Failure(e) => Failure(e)
      case Success(credential) =>
        match Entry(entries, "SignedHeaders")
        case None => Failure(SignedHeadersUndefined)
        case Some(signedHeaders) =>
          JoinSplit(signedHeaders, ';');
          Success(ParsedSignature(credential, Split(signedHeaders, ';'), Entry(entries, "Signature")))
  }

  /** The signed headers are exactly the `;`-pieces of the `SignedHeaders` value, in order. */
  lemma SignedHeadersAreSplit(headers: map<string, string>)
    requires Parse(headers).Success?
    ensures Authorization(headers).Some?
    ensures Parse(headers).value.signedHeaders
         == Split(Entry(ParseAuthorizationHeader(Authorization(headers).value), "SignedHeaders").value, ';')
  {
    SplitJoin(Parse(headers).value.signedHeaders, ';');
  }

  /** The value an entry key gets is the one of its last entry: later duplicates overwrite earlier ones. */
  lemma LastEntryWins(authorization: string, i: nat)
    requires i < |EntryStrings(authorization)|
    requires forall j :: i < j < |EntryStrings(authorization)| ==>
      EntryPair(EntryStrings(authorization)[j]).0 != EntryPair(EntryStrings(authorization)[i]).0
    ensures var (key, value) := EntryPair(EntryStrings(authorization)[i]);
      Entry(ParseAuthorizationHeader(authorization), key) == value
  {
    LastWins(EntryPairs(authorization), i);
  }

  /** A field that survives formatting and parsing unchanged: none of `,=/;` and no whitespace. */
  predicate IsToken(s: string) {
    forall i :: 0 <= i < |s| ==> s[i] !in ",=/;" && !IsWhitespace(s[i])
  }

  predicate AllTokens(parts: seq<string>) {
    forall i :: 0 <= i < |parts| ==> IsToken(parts[i])
  }

  /** One header entry, `key=value`. */
  function KeyValue(key: string, value: string): string {
    key + "=" + value
  }

  /** The header the `aws4` signer writes: `AWS4-HMAC-SHA256 Credential=a/d/r/s/aws4_request, SignedHeaders=h1;h2, Signature=x`. */
  function FormatAuthorization(accessKeyId: string, date: string, region: string, service: string,
                               signedHeaders: seq<string>, signature: string): string
  {
    Algorithm + Join([
      KeyValue("Credential", Join([accessKeyId, date, region, service, "aws4_request"], '/')),
      " " + KeyValue("SignedHeaders", Join(signedHeaders, ';')),
      " " + KeyValue("Signature", signature)], ',')
  }

  /** A join of tokens with `sep` holds no whitespace and, apart from `sep`, none of `,=/;`. */
  lemma JoinOfTokens(parts: seq<string>, sep: char)
    requires AllTokens(parts) && !IsWhitespace(sep)
    ensures NoWhitespace(Join(parts, sep))
    ensures forall c :: c in ",=/;" && c != sep ==> c !in Join(parts, sep)
  {
    var s := Join(parts, sep);
    forall c | c in s && c != sep
      ensures c !in ",=/;" && !IsWhitespace(c)
    {
      JoinChar(parts, sep, c);
      var i :| 0 <= i < |parts| && c in parts[i];
      var k :| 0 <= k < |parts[i]| && parts[i][k] == c;
    }
    assert forall k :: 0 <= k < |s| ==> s[k] in s;
  }

  /** Splitting `key=value` on `=` when neither side holds `=`. */
  lemma EntryPairOf(key: string, value: string)
    requires '=' !in key && '=' !in value
    ensures EntryPair(KeyValue(key, value)) == (key, Some(value))
  {
    assert KeyValue(key, value) == Join([key, value], '=');
    SplitJoin([key, value], '=');
  }

  /** A string free of whitespace and of `,` and `=`: what the value of one header entry must be. */
  predicate IsEntryValue(s: string) {
    NoWhitespace(s) && ',' !in s && '=' !in s
  }

  lemma EntryValueChars(s: string)
    requires IsEntryValue(s)
    ensures forall k :: 0 <= k < |s| ==> !IsWhitespace(s[k]) && s[k] != ',' && s[k] != '='
  {
    assert forall k :: 0 <= k < |s| ==> s[k] in s;
  }

  /** `key=value` with a whitespace-free key and an entry value holds no whitespace and no `,`. */
  lemma KeyedEntryChars(key: string, value: string)
    requires NoWhitespace(key) && ',' !in key && IsEntryValue(value)
    ensures NoWhitespace(KeyValue(key, value)) && ',' !in KeyValue(key, value) && ',' !in " " + KeyValue(key, value)
  {
    EntryValueChars(value);
    var s := KeyValue(key, value);
    assert forall k :: 0 <= k < |s| ==> s[k] == (if k < |key| then key[k] else if k == |key| then '=' else value[k - |key| - 1]);
  }

  lemma StripLeadingAlgorithm(body: string)
    ensures StripAlgorithm(Algorithm + body) == body
  {
    assert (Algorithm + body)[..|Algorithm|] == Algorithm;
    assert (Algorithm + body)[|Algorithm|..] == body;
  }

  /** The entries of a header whose marker-free part splits into three pieces. */
  lemma EntryStringsOfThree(header: string, p1: string, p2: string, p3: string)
    requires Split(StripAlgorithm(header), ',') == [p1, p2, p3]
    ensures EntryStrings(header) == [Trim(p1), Trim(p2), Trim(p3)]
  {
    var entries := EntryStrings(header);
    assert |entries| == 3;
    assert entries[0] == Trim(p1);
    assert entries[1] == Trim(p2);
    assert entries[2] == Trim(p3);
    SeqOfThree(entries, Trim(p1), Trim(p2), Trim(p3));
  }

  /** The marker, then three whitespace-free entries joined by `, `, splits back into those entries. */
  lemma EntryStringsOfParts(e1: string, e2: string, e3: string)
    requires NoWhitespace(e1) && NoWhitespace(e2) && NoWhitespace(e3)
    requires ',' !in e1 && ',' !in " " + e2 && ',' !in " " + e3
    ensures EntryStrings(Algorithm + Join([e1, " " + e2, " " + e3], ',')) == [e1, e2, e3]
  {
    var parts := [e1, " " + e2, " " + e3];
    StripLeadingAlgorithm(Join(parts, ','));
    SplitJoin(parts, ',');
    EntryStringsOfThree(Algorithm + Join(parts, ','), e1, " " + e2, " " + e3);
    TrimNoWhitespace(e1);
    TrimLeadingBlank(e2);
    TrimLeadingBlank(e3);
  }

  /** The entries of `AWS4-HMAC-SHA256 Credential=c, SignedHeaders=h, Signature=x`, trimmed. */
  lemma EntryStringsOf(cred: string, hdrs: string, signature: string)
    requires IsEntryValue(cred) && IsEntryValue(hdrs) && IsEntryValue(signature)
    ensures EntryStrings(Algorithm + Join([KeyValue("Credential", cred), " " + KeyValue("SignedHeaders", hdrs),
                                           " " + KeyValue("Signature", signature)], ','))
         == [KeyValue("Credential", cred), KeyValue("SignedHeaders", hdrs), KeyValue("Signature", signature)]
  {
    KeyedEntryChars("Credential", cred);
    KeyedEntryChars("SignedHeaders", hdrs);
    KeyedEntryChars("Signature", signature);
    EntryStringsOfParts(KeyValue("Credential", cred), KeyValue("SignedHeaders", hdrs), KeyValue("Signature", signature));
  }

  /** The dictionary of a header with three entries whose keys differ. */
  lemma EntriesOfThree(header: string, e1: string, e2: string, e3: string,
                       k1: string, k2: string, k3: string, v1: string, v2: string, v3: string)
    requires EntryStrings(header) == [e1, e2, e3]
    requires EntryPair(e1) == (k1, Some(v1)) && EntryPair(e2) == (k2, Some(v2)) && EntryPair(e3) == (k3, Some(v3))
    requires k1 != k2 && k1 != k3 && k2 != k3
    ensures var entries := ParseAuthorizationHeader(header);
      Entry(entries, k1) == Some(v1) && Entry(entries, k2) == Some(v2) && Entry(entries, k3) == Some(v3)
  {
    var entries := EntryStrings(header);
    var pairs := EntryPairs(header);
    assert pairs[0] == (k1, Some(v1));
    assert pairs[1] == (k2, Some(v2));
    assert pairs[2] == (k3, Some(v3));
    SeqOfThree(pairs, (k1, Some(v1)), (k2, Some(v2)), (k3, Some(v3)));
    FromThreePairs(pairs, k1, k2, k3, Some(v1), Some(v2), Some(v3));
  }

  /** The three entry keys the verifier reads are plain words. */
  lemma EntryKeys()
    ensures '=' !in "Credential" && '=' !in "SignedHeaders" && '=' !in "Signature"
  {
  }

  /** The dictionary of `AWS4-HMAC-SHA256 Credential=c, SignedHeaders=h, Signature=x`. */
  lemma EntriesOf(cred: string, hdrs: string, signature: string)
    requires IsEntryValue(cred) && IsEntryValue(hdrs) && IsEntryValue(signature)
    ensures var entries := ParseAuthorizationHeader(
              Algorithm + Join([KeyValue("Credential", cred), " " + KeyValue("SignedHeaders", hdrs),
                                " " + KeyValue("Signature", signature)], ','));
      && Entry(entries, "Credential") == Some(cred)
      && Entry(entries, "SignedHeaders") == Some(hdrs)
      && Entry(entries, "Signature") == Some(signature)
  {
    EntryKeys();
    EntryPairOf("Credential", cred);
    EntryPairOf("SignedHeaders", hdrs);
    EntryPairOf("Signature", signature);
    EntryStringsOf(cred, hdrs, signature);
    EntriesOfThree(Algorithm + Join([KeyValue("Credential", cred), " " + KeyValue("SignedHeaders", hdrs),
                                     " " + KeyValue("Signature", signature)], ','),
                   KeyValue("Credential", cred), KeyValue("SignedHeaders", hdrs), KeyValue("Signature", signature),
                   "Credential", "SignedHeaders", "Signature", cred, hdrs, signature);
  }

  /** The credential pieces, none holding `/`, are read back in order; only the first four are kept. */
  lemma CredentialOf(entries: map<string, Option<string>>, credParts: seq<string>)
    requires |credParts| >= 4 && forall i :: 0 <= i < |credParts| ==> '/' !in credParts[i]
    requires Entry(entries, "Credential") == Some(Join(credParts, '/'))
    ensures ParseCredentialToken(entries)
         == Success(CredentialInfo(credParts[0], Some(credParts[1]), Some(credParts[2]), Some(credParts[3])))
  {
    SplitJoin(credParts, '/');
  }

  /** `parse` of a header whose `Credential`, `SignedHeaders` and `Signature` entries are known. */
  lemma ParseOf(headers: map<string, string>, credParts: seq<string>, signedHeaders: seq<string>, signature: string)
    requires Authorization(headers).Some?
    requires |credParts| >= 4 && forall i :: 0 <= i < |credParts| ==> '/' !in credParts[i]
    requires |signedHeaders| >= 1 && forall i :: 0 <= i < |signedHeaders| ==> ';' !in signedHeaders[i]
    requires var entries := ParseAuthorizationHeader(Authorization(headers).value);
      && Entry(entries, "Credential") == Some(Join(credParts, '/'))
      && Entry(entries, "SignedHeaders") == Some(Join(signedHeaders, ';'))
      && Entry(entries, "Signature") == Some(signature)
    ensures Parse(headers) == Success(ParsedSignature(
              CredentialInfo(credParts[0], Some(credParts[1]), Some(credParts[2]), Some(credParts[3])),
              signedHeaders, Some(signature)))
  {
    CredentialOf(ParseAuthorizationHeader(Authorization(headers).value), credParts);
    SplitJoin(signedHeaders, ';');
  }

  /** The fixed fifth credential piece is a token. */
  lemma RequestTerminatorIsToken()
    ensures IsToken("aws4_request")
  {
  }

  /** The pieces of a token list hold neither separator. */
  lemma TokensFreeOf(parts: seq<string>, c: char)
    requires AllTokens(parts) && c in ",=/;"
    ensures forall i :: 0 <= i < |parts| ==> c !in parts[i]
  {
    forall i | 0 <= i < |parts|
      ensures c !in parts[i]
    {
      assert IsToken(parts[i]);
    }
  }

  /**
   * Parsing a formatted header gives back its fields: the round trip the
   * verifier relies on when it re-parses the signer's header. The fifth
   * credential piece `aws4_request` is ignored.
   */
  lemma ParseFormatRoundTrip(accessKeyId: string, date: string, region: string, service: string,
                             signedHeaders: seq<string>, signature: string)
    requires IsToken(accessKeyId) && IsToken(date) && IsToken(region) && IsToken(service) && IsToken(signature)
    requires |signedHeaders| >= 1 && AllTokens(signedHeaders)
    ensures Parse(map["authorization" := FormatAuthorization(accessKeyId, date, region, service, signedHeaders, signature)])
         == Success(ParsedSignature(
              CredentialInfo(accessKeyId, Some(date), Some(region), Some(service)),
              signedHeaders, Some(signature)))
  {
    var credParts := [accessKeyId, date, region, service, "aws4_request"];
    RequestTerminatorIsToken();
    assert AllTokens(credParts);
    var cred := Join(credParts, '/');
    var hdrs := Join(signedHeaders, ';');
    JoinOfTokens(credParts, '/');
    JoinOfTokens(signedHeaders, ';');
    JoinOfTokens([signature], ',');
    assert Join([signature], ',') == signature;
    EntriesOf(cred, hdrs, signature);
    TokensFreeOf(credParts, '/');
    TokensFreeOf(signedHeaders, ';');
    var header := FormatAuthorization(accessKeyId, date, region, service, signedHeaders, signature);
    var headers := map["authorization" := header];
    assert Authorization(headers) == Some(header);
    ParseOf(headers, credParts, signedHeaders, signature);
  }
}
