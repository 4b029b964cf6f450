/** Decoding of wallet responses: the `Response`, `AuthnData`, `Service`,
    `Identity` and parameter-value decoders over a JSON value, and the
    accessors a response offers as an authorization result.

    Decoding follows the conventions of Swift's synthesized decoders:
    a required key fails when it is absent, null or of the wrong type; an
    optional field of a synthesized decoder is `None` when absent or null and
    fails the whole object when of the wrong type; `try?` turns any failure
    into `None`. */
module Responses {
  import opened Common

  type Int64 = i: int | -0x8000_0000_0000_0000 <= i < 0x8000_0000_0000_0000

  /** A JSON value. A number that fits a 64-bit `Int` is `JInt`; any other
      number is `JDouble`, carrying the text Swift's `String(Double)` gives it. */
  datatype Json =
    | JNull
    | JBool(b: bool)
    | JInt(i: Int64)
    | JDouble(rendered: string)
    | JString(s: string)
    | JArray(items: seq<Json>)
    | JObject(fields: map<string, Json>)

  datatype DecodeError = KeyNotFound(key: string) | ValueNotFound | TypeMismatch | DataCorrupted

  type Decoded<T> = Result<T, DecodeError>

  /** `try?`: a failure becomes `None`. */
  function Try<T>(r: Decoded<T>): (o: Option<T>)
    ensures o.Some? <==> r.Ok?
    ensures r.Ok? ==> o.value == r.value
  {
    match r
    case Ok(v) => Some(v)
    case Err(_) => None
  }

  /** The error for a value of the wrong shape: null is "not found". */
  function Mismatch(j: Json): DecodeError {
    if j.JNull? then ValueNotFound else TypeMismatch
  }

  function DecodeString(j: Json): Decoded<string> {
    if j.JString? then Ok(j.s) else Err(Mismatch(j))
  }

  function DecodeInt(j: Json): Decoded<int> {
    if j.JInt? then Ok(j.i) else Err(Mismatch(j))
  }

  /** `decode(_:forKey:)`: the key must be present. */
  function At<T>(m: map<string, Json>, key: string, decode: Json -> Decoded<T>): Decoded<T> {
    if key in m then decode(m[key]) else Err(KeyNotFound(key))
  }

  /** `decodeIfPresent(_:forKey:)`: absent or null is `None`. */
  function IfPresent<T>(m: map<string, Json>, key: string, decode: Json -> Decoded<T>): Decoded<Option<T>> {
    if key !in m || m[key].JNull? then Ok(None)
    else match decode(m[key])
      case Ok(v) => Ok(Some(v))
      case Err(e) => Err(e)
  }

  /** An array whose every element decodes. */
  function DecodeList<T>(j: Json, decode: Json -> Decoded<T>): (r: Decoded<seq<T>>)
    ensures r.Ok? ==> j.JArray? && |r.value| == |j.items|
    ensures r.Ok? ==> forall k :: 0 <= k < |j.items| ==> decode(j.items[k]) == Ok(r.value[k])
  {
    if !j.JArray? then Err(Mismatch(j))
    else DecodeItems(j.items, decode)
  }

  function DecodeItems<T>(items: seq<Json>, decode: Json -> Decoded<T>): (r: Decoded<seq<T>>)
    ensures r.Ok? ==> |r.value| == |items|
    ensures r.Ok? ==> forall k :: 0 <= k < |items| ==> decode(items[k]) == Ok(r.value[k])
    ensures r.Err? ==> exists k :: 0 <= k < |items| && decode(items[k]).Err?
  {
    if items == [] then Ok([])
    else
      var n := |items| - 1;
      match DecodeItems(items[..n], decode)
      case Err(e) =>
        assert forall k :: 0 <= k < n ==> items[..n][k] == items[k];
        Err(e)
      case Ok(front) =>
        match decode(items[n])
        case Err(e) => Err(e)
        case Ok(last) => Ok(front + [last])
  }

  // ---------------------------------------------------------------------
  // Enumerations
  // ---------------------------------------------------------------------

  datatype Status = Pending | Approved | Declined

  function StatusRaw(s: Status): string {
    match s
    case Pending => "PENDING"
    case Approved => "APPROVED"
    case Declined => "DECLINED"
  }

  /** A status decodes from exactly its raw text. */
  function DecodeStatus(j: Json): (r: Decoded<Status>)
    ensures forall s :: j == JString(StatusRaw(s)) ==> r == Ok(s)
    ensures r.Ok? ==> j == JString(StatusRaw(r.value))
  {
    if !j.JString? then Err(Mismatch(j))
    else if j.s == "PENDING" then Ok(Pending)
    else if j.s == "APPROVED" then Ok(Approved)
    else if j.s == "DECLINED" then Ok(Declined)
    else Err(DataCorrupted)
  }

  datatype ServiceType =
    | Authn | Authz | PreAuthz | UserSignature | BackChannel | LocalView | OpenId | AccountProof | Unknow

  function ServiceTypeRaw(t: ServiceType): string {
    match t
    case Authn => "authn"
    case Authz => "authz"
    case PreAuthz => "pre-authz"
    case UserSignature => "user-signature"
    case BackChannel => "back-channel-rpc"
    case LocalView => "local-view"
    case OpenId => "open-id"
    case AccountProof => "account-proof"
    case Unknow => "unknow"
  }

  /** A service type decodes from exactly its raw text; there is no fallback
      to `unknow` for other text. */
  function DecodeServiceType(j: Json): (r: Decoded<ServiceType>)
    ensures forall t :: j == JString(ServiceTypeRaw(t)) ==> r == Ok(t)
    ensures r.Ok? ==> j == JString(ServiceTypeRaw(r.value))
  {
    if !j.JString? then Err(Mismatch(j))
    else match j.s
      case "authn" => Ok(Authn)
      case "authz" => Ok(Authz)
      case "pre-authz" => Ok(PreAuthz)
      case "user-signature" => Ok(UserSignature)
      case "back-channel-rpc" => Ok(BackChannel)
      case "local-view" => Ok(LocalView)
      case "open-id" => Ok(OpenId)
      case "account-proof" => Ok(AccountProof)
      case "unknow" => Ok(Unknow)
      case _ => Err(DataCorrupted)
  }

  // ---------------------------------------------------------------------
  // Parameter values
  // ---------------------------------------------------------------------

  /** `ParamValue`: tried as Int, then Double, then Bool, then String;
      anything else fails. */
  function DecodeParamValue(j: Json): (r: Decoded<string>)
    ensures r.Ok? <==> !(j.JNull? || j.JArray? || j.JObject?)
    ensures j.JString? ==> r == Ok(j.s)
  {
    match j
    case JInt(i) => Ok(IntDecimal(i))
    case JDouble(rendered) => Ok(rendered)
    case JBool(b) => Ok(if b then "true" else "false")
    case JString(s) => Ok(s)
    case _ => Err(DataCorrupted)
  }

  /** Scalars decode, containers and null do not; an integer's text reads
      back as the integer and is never confused with a boolean's. */
  lemma ParamValueSpec(j: Json)
    ensures DecodeParamValue(j).Ok? <==> !(j.JNull? || j.JArray? || j.JObject?)
    ensures j.JInt? && j.i >= 0 ==> ParseNat(DecodeParamValue(j).value) == j.i
    ensures j.JInt? ==> DecodeParamValue(j).value != "true" && DecodeParamValue(j).value != "false"
  {
    if j.JInt? && j.i >= 0 {
      ParseNatDecimal(j.i);
    }
  }

  /** `[String: ParamValue]`: an object whose every value decodes. */
  function DecodeParamMap(j: Json): (r: Decoded<map<string, string>>)
    ensures r.Ok? <==> j.JObject? && forall k :: k in j.fields ==> DecodeParamValue(j.fields[k]).Ok?
    ensures r.Ok? ==> r.value.Keys == j.fields.Keys
    ensures r.Ok? ==> forall k :: k in r.value ==> Ok(r.value[k]) == DecodeParamValue(j.fields[k])
  {
    if !j.JObject? then Err(Mismatch(j))
    else if forall k :: k in j.fields ==> DecodeParamValue(j.fields[k]).Ok? then
      Ok(map k | k in j.fields :: DecodeParamValue(j.fields[k]).value)
    else Err(DataCorrupted)
  }

  /** The parameters a service ends up with: the decoded map, or an empty
      one when `params` is absent or any value fails. */
  function ParamsOf(m: map<string, Json>): map<string, string> {
    Try(At(m, "params", DecodeParamMap)).GetOr(map[])
  }

  /** The `forEach` that copies the decoded parameters into `result`;
      `order` is the dictionary's iteration order, any listing of its keys. */
  method FlattenParams(raw: Option<map<string, string>>, order: seq<string>) returns (result: map<string, string>)
    requires raw.Some? ==> forall k :: k in raw.value <==> k in order
    ensures result == raw.GetOr(map[])
  {
    result := map[];
    if raw.None? {
      return;
    }
    var values := raw.value;
    for i := 0 to |order|
      invariant forall k :: k in result <==> k in order[..i]
      invariant forall k :: k in result ==> k in values && result[k] == values[k]
    {
      result := result[order[i] := values[order[i]]];
    }
    assert order[..|order|] == order;
  }

  // ---------------------------------------------------------------------
  // Identity, Service, AuthnData, Response
  // ---------------------------------------------------------------------

  datatype Identity = Identity(address: string, keyId: Option<int>)

  function DecodeIdentity(j: Json): (r: Decoded<Identity>)
    ensures r.Ok? <==> j.JObject? && "address" in j.fields && j.fields["address"].JString? &&
                       ("keyId" !in j.fields || j.fields["keyId"].JNull? || j.fields["keyId"].JInt?)
    ensures r.Ok? ==> r.value.address == j.fields["address"].s
    ensures r.Ok? ==> (r.value.keyId.Some? <==> "keyId" in j.fields && j.fields["keyId"].JInt?)
  {
    if !j.JObject? then Err(Mismatch(j))
    else
      var m := j.fields;
      match (At(m, "address", DecodeString), IfPresent(m, "keyId", DecodeInt))
      case (Ok(address), Ok(keyId)) => Ok(Identity(address, keyId))
      case (Err(e), _) => Err(e)
      case (_, Err(e)) => Err(e)
  }

  datatype Service = Service(
    fType: Option<string>,
    fVsn: Option<string>,
    serviceType: Option<ServiceType>,
    uid: Option<string>,
    id: Option<string>,
    identity: Option<Identity>,
    params: Option<map<string, string>>)

  /** `Service.init(from:)`: any object decodes; each field is taken when it
      decodes and dropped otherwise. */
  function DecodeService(j: Json): (r: Decoded<Service>)
    ensures r.Ok? <==> j.JObject?
    ensures r.Ok? ==> r.value.params.Some?
  {
    if !j.JObject? then Err(Mismatch(j))
    else
      var m := j.fields;
      Ok(Service(
        Try(At(m, "fType", DecodeString)),
        Try(At(m, "fVsn", DecodeString)),
        Try(At(m, "type", DecodeServiceType)),
        Try(At(m, "uid", DecodeString)),
        Try(At(m, "id", DecodeString)),
        Try(At(m, "identity", DecodeIdentity)),
        Some(ParamsOf(m))))
  }

  /** `Service.init(from:)` with its `forEach` over the decoded parameters. */
  method DecodeServiceFields(m: map<string, Json>, order: seq<string>) returns (s: Service)
    requires var raw := Try(At(m, "params", DecodeParamMap));
             raw.Some? ==> forall k :: k in raw.value <==> k in order
    ensures Ok(s) == DecodeService(JObject(m))
  {
    var params := FlattenParams(Try(At(m, "params", DecodeParamMap)), order);
    s := Service(
      Try(At(m, "fType", DecodeString)),
      Try(At(m, "fVsn", DecodeString)),
      Try(At(m, "type", DecodeServiceType)),
      Try(At(m, "uid", DecodeString)),
      Try(At(m, "id", DecodeString)),
      Try(At(m, "identity", DecodeIdentity)),
      Some(params));
  }

  /** A decoded service always has parameters: exactly the `params` object's
      entries when all of them decode, and none otherwise. */
  lemma ServiceParams(m: map<string, Json>)
    ensures DecodeService(JObject(m)).value.params.Some?
    ensures var p := DecodeService(JObject(m)).value.params.value;
            && ("params" !in m ==> p == map[])
            && ("params" in m && DecodeParamMap(m["params"]).Err? ==> p == map[])
            && ("params" in m && DecodeParamMap(m["params"]).Ok? ==>
                  p.Keys == m["params"].fields.Keys &&
                  forall k :: k in p ==> Ok(p[k]) == DecodeParamValue(m["params"].fields[k]))
  {
  }

  datatype AuthnData = AuthnData(
    addr: Option<string>,
    fType: Option<string>,
    fVsn: Option<string>,
    services: Option<seq<Service>>,
    proposer: Option<Service>,
    payer: Option<seq<Service>>,
    authorization: Option<seq<Service>>,
    signature: Option<string>,
    keyId: Option<int>,
    expires: Option<int>,
    code: Option<string>,
    paddr: Option<string>,
    hks: Option<string>,
    l6n: Option<string>)

  function DecodeServices(j: Json): Decoded<seq<Service>> {
    DecodeList(j, DecodeService)
  }

  /** The synthesized `AuthnData` decoder: every field optional, but a
      present field of the wrong shape fails the whole object. */
  function DecodeAuthnData(j: Json): (r: Decoded<AuthnData>)
    ensures r.Ok? ==> j.JObject?
    ensures j.JObject? && (forall k :: k in j.fields ==> j.fields[k].JNull?) ==> r.Ok?
    ensures j.JObject? && "signature" in j.fields && !j.fields["signature"].JNull? && !j.fields["signature"].JString? ==> r.Err?
    ensures r.Ok? ==> (r.value.signature.Some? <==> "signature" in j.fields && j.fields["signature"].JString?)
    ensures r.Ok? ==> (r.value.addr.Some? <==> "addr" in j.fields && j.fields["addr"].JString?)
    ensures r.Ok? ==> (r.value.keyId.Some? <==> "keyId" in j.fields && j.fields["keyId"].JInt?)
    ensures r.Ok? ==> (r.value.expires.Some? <==> "expires" in j.fields && j.fields["expires"].JInt?)
  {
    if !j.JObject? then Err(Mismatch(j))
    else
      var m := j.fields;
      var addr := IfPresent(m, "addr", DecodeString);
      var fType := IfPresent(m, "fType", DecodeString);
      var fVsn := IfPresent(m, "fVsn", DecodeString);
      var services := IfPresent(m, "services", DecodeServices);
      var proposer := IfPresent(m, "proposer", DecodeService);
      var payer := IfPresent(m, "payer", DecodeServices);
      var authorization := IfPresent(m, "authorization", DecodeServices);
      var signature := IfPresent(m, "signature", DecodeString);
      var keyId := IfPresent(m, "keyId", DecodeInt);
      var expires := IfPresent(m, "expires", DecodeInt);
      var code := IfPresent(m, "code", DecodeString);
      var paddr := IfPresent(m, "paddr", DecodeString);
      var hks := IfPresent(m, "hks", DecodeString);
      var l6n := IfPresent(m, "l6n", DecodeString);
      if addr.Err? || fType.Err? || fVsn.Err? || services.Err? || proposer.Err? || payer.Err?
         || authorization.Err? || signature.Err? || keyId.Err? || expires.Err? || code.Err?
         || paddr.Err? || hks.Err? || l6n.Err?
      then Err(TypeMismatch)
      else Ok(AuthnData(addr.value, fType.value, fVsn.value, services.value, proposer.value, payer.value,
                        authorization.value, signature.value, keyId.value, expires.value, code.value,
                        paddr.value, hks.value, l6n.value))
  }

  // ---------------------------------------------------------------------
  // Expiry of an authentication
  // ---------------------------------------------------------------------

  /** `expiresDate`: `expires` is in milliseconds since 1970, the date in
      seconds. */
  function ExpiresAt(d: AuthnData): (t: Option<real>)
    ensures t.Some? <==> d.expires.Some?
    ensures t.Some? ==> t.value * 1000.0 == d.expires.value as real
  {
    if d.expires.Some? then Some(d.expires.value as real / 1000.0) else None
  }

  /** `isExpired` as the client computes it, at time `now` (seconds since
      1970): true when the expiry date is still ahead of `now`. */
  function IsExpiredAsWritten(d: AuthnData, now: real): (r: bool)
    ensures r ==> d.expires.Some?
  {
    var t := ExpiresAt(d);
    t.Some? && t.value > now
  }

  /** An authentication that expires in the future is reported as expired,
      and one whose expiry has passed is not. */
  lemma IsExpiredAsWrittenInverted(d: AuthnData)
    requires d.expires == Some(2000)
    ensures IsExpiredAsWritten(d, 1.0)
    ensures !IsExpiredAsWritten(d, 3.0)
  {
    assert ExpiresAt(d) == Some(2.0);
  }

  /** `isExpired` as intended: the expiry date is known and not after `now`. */
  function IsExpired(d: AuthnData, now: real): (r: bool)
    ensures r ==> d.expires.Some?
    ensures r ==> d.expires.value as real <= now * 1000.0
  {
    var t := ExpiresAt(d);
    t.Some? && t.value <= now
  }

  /** Once expired, always expired; never expired before the expiry date or
      without one. Wherever an expiry is known, the client's answer is the
      opposite of this one. */
  lemma IsExpiredSpec(d: AuthnData, now: real, later: real)
    ensures IsExpired(d, now) && now <= later ==> IsExpired(d, later)
    ensures d.expires.None? ==> !IsExpired(d, now)
    ensures d.expires.Some? ==> (IsExpired(d, now) <==> d.expires.value as real <= now * 1000.0)
    ensures d.expires.Some? ==> IsExpiredAsWritten(d, now) == !IsExpired(d, now)
  {
  }

  datatype Response = Response(
    fType: Option<string>,
    fVsn: Option<string>,
    status: Status,
    updates: Option<Service>,
    local: Option<Service>,
    data: Option<AuthnData>,
    reason: Option<string>,
    compositeSignature: Option<AuthnData>,
    authorizationUpdates: Option<Service>)

  /** `local` and `data`: a single value, or failing that the first element
      of an array of them. */
  function SingleOrFirst<T>(m: map<string, Json>, key: string, decode: Json -> Decoded<T>): (r: Option<T>)
    ensures key !in m ==> r.None?
    ensures key in m && decode(m[key]).Ok? ==> r == Some(decode(m[key]).value)
    ensures key in m && decode(m[key]).Err? && !m[key].JArray? ==> r.None?
    ensures key in m && decode(m[key]).Err? && m[key].JArray? ==>
              var items := m[key].items;
              r == if |items| > 0 && (forall k :: 0 <= k < |items| ==> decode(items[k]).Ok?)
                   then Some(decode(items[0]).value) else None
  {
    match At(m, key, decode)
    case Ok(v) => Some(v)
    case Err(_) =>
      match Try(At(m, key, j => DecodeList(j, decode)))
      case Some(vs) => if |vs| > 0 then Some(vs[0]) else None
      case None => None
  }

  /** `Response.init(from:)`: only the container and `status` are required. */
  function DecodeResponse(j: Json): (r: Decoded<Response>)
    ensures r.Ok? <==> j.JObject? && "status" in j.fields && DecodeStatus(j.fields["status"]).Ok?
    ensures r.Ok? ==> r.value.status == DecodeStatus(j.fields["status"]).value
    ensures r.Ok? ==> (r.value.reason.Some? <==> "reason" in j.fields && j.fields["reason"].JString?)
  {
    if !j.JObject? then Err(Mismatch(j))
    else
      var m := j.fields;
      match At(m, "status", DecodeStatus)
      case Err(e) => Err(e)
      case Ok(status) =>
        Ok(Response(
          Try(At(m, "fType", DecodeString)),
          Try(At(m, "fVsn", DecodeString)),
          status,
          Try(At(m, "updates", DecodeService)),
          SingleOrFirst(m, "local", DecodeService),
          SingleOrFirst(m, "data", DecodeAuthnData),
          Try(At(m, "reason", DecodeString)),
          Try(At(m, "compositeSignature", DecodeAuthnData)),
          Try(At(m, "authorizationUpdates", DecodeService))))
  }

  /** A response decodes exactly when it is an object with a valid status;
      no other field can make it fail. */
  lemma DecodeResponseFailsOnlyOnStatus(j: Json)
    ensures DecodeResponse(j).Ok? <==>
              j.JObject? && "status" in j.fields && exists s :: j.fields["status"] == JString(StatusRaw(s))
    ensures DecodeResponse(j).Ok? ==> j.fields["status"] == JString(StatusRaw(DecodeResponse(j).value.status))
  {
  }

  /** A one-element array in `local` decodes like the bare value it holds. */
  lemma LocalSingletonLikeValue(m: map<string, Json>, v: Json)
    requires !v.JArray?
    ensures DecodeResponse(JObject(m["local" := JArray([v])])) == DecodeResponse(JObject(m["local" := v]))
  {
    assert JArray([v]).items[0] == v;
    assert SingleOrFirst(m["local" := JArray([v])], "local", DecodeService) ==
           SingleOrFirst(m["local" := v], "local", DecodeService);
  }

  /** A one-element array in `data` decodes like the bare value it holds. */
  lemma DataSingletonLikeValue(m: map<string, Json>, v: Json)
    requires !v.JArray?
    ensures DecodeResponse(JObject(m["data" := JArray([v])])) == DecodeResponse(JObject(m["data" := v]))
  {
    assert JArray([v]).items[0] == v;
    assert SingleOrFirst(m["data" := JArray([v])], "data", DecodeAuthnData) ==
           SingleOrFirst(m["data" := v], "data", DecodeAuthnData);
  }

  /** An array in `local` of objects gives its first element's service. */
  lemma LocalFirstOfArray(m: map<string, Json>, items: seq<Json>)
    requires |items| >= 1 && forall k :: 0 <= k < |items| ==> items[k].JObject?
    ensures DecodeResponse(JObject(m["local" := JArray(items)])).Ok? ==>
              DecodeResponse(JObject(m["local" := JArray(items)])).value.local == Some(DecodeService(items[0]).value)
  {
  }

  /** An empty array in `local` or in `data` gives nothing. */
  lemma EmptyArrayGivesNothing(m: map<string, Json>)
    ensures DecodeResponse(JObject(m["local" := JArray([])])).Ok? ==>
              DecodeResponse(JObject(m["local" := JArray([])])).value.local.None?
    ensures DecodeResponse(JObject(m["data" := JArray([])])).Ok? ==>
              DecodeResponse(JObject(m["data" := JArray([])])).value.data.None?
  {
  }

  /** One element of a `data` array that does not decode drops the whole
      field, even when the first element is good. */
  lemma DataLaterFailure(m: map<string, Json>, good: Json, bad: Json)
    requires DecodeAuthnData(good).Ok? && DecodeAuthnData(bad).Err?
    ensures DecodeResponse(JObject(m["data" := JArray([good, bad])])).Ok? ==>
              DecodeResponse(JObject(m["data" := JArray([good, bad])])).value.data.None?
  {
    assert JArray([good, bad]).items[1] == bad;
  }

  lemma SingletonList<T>(v: Json, decode: Json -> Decoded<T>)
    ensures decode(v).Ok? ==> DecodeList(JArray([v]), decode) == Ok([decode(v).value])
    ensures decode(v).Err? ==> DecodeList(JArray([v]), decode).Err?
  {
    assert [v][..0] == [];
    assert DecodeItems([v][..0], decode) == Ok([]);
    if decode(v).Ok? {
      assert DecodeItems([v], decode) == Ok([] + [decode(v).value]);
      assert [] + [decode(v).value] == [decode(v).value];
    }
  }

  // ---------------------------------------------------------------------
  // A response as an authorization result
  // ---------------------------------------------------------------------

  /** `addr`: the composite signature's address, or the empty address. */
  function ResponseAddr(r: Response): (a: FlowAddress)
    ensures r.compositeSignature.None? || r.compositeSignature.value.addr.None? ==> a == FlowAddress("")
  {
    var text := if r.compositeSignature.Some? then r.compositeSignature.value.addr.GetOr("") else "";
    AddressFromHex(text)
  }

  /** `keyId`: the composite signature's key index, or 0. */
  function ResponseKeyId(r: Response): (k: int)
    ensures r.compositeSignature.None? || r.compositeSignature.value.keyId.None? ==> k == 0
  {
    if r.compositeSignature.Some? then r.compositeSignature.value.keyId.GetOr(0) else 0
  }

  /** `addr` and `keyId` read the composite signature alone: `data` has no
      say in them, and a composite signature's own values are used when
      present. */
  lemma ResponseAccessors(r: Response, d: Option<AuthnData>)
    ensures ResponseAddr(r.(data := d)) == ResponseAddr(r)
    ensures ResponseKeyId(r.(data := d)) == ResponseKeyId(r)
    ensures r.compositeSignature.Some? && r.compositeSignature.value.addr.Some? ==>
              ResponseAddr(r) == AddressFromHex(r.compositeSignature.value.addr.value)
    ensures r.compositeSignature.Some? && r.compositeSignature.value.keyId.Some? ==>
              ResponseKeyId(r) == r.compositeSignature.value.keyId.value
  {
  }

  /** `signature` (as hex text): `data`'s signature wins, then the composite
      signature's, then empty. */
  function ResponseSignature(r: Response): (s: string)
    ensures r.data.Some? && r.data.value.signature.Some? ==> s == r.data.value.signature.value
  {
    if r.data.Some? && r.data.value.signature.Some? then r.data.value.signature.value
    else if r.compositeSignature.Some? then r.compositeSignature.value.signature.GetOr("")
    else ""
  }

  /** The signature falls back to the composite signature only when `data`
      has none, and is empty only when neither has one. */
  lemma ResponseSignaturePrecedence(r: Response)
    ensures !(r.data.Some? && r.data.value.signature.Some?) && r.compositeSignature.Some? &&
            r.compositeSignature.value.signature.Some? ==>
              ResponseSignature(r) == r.compositeSignature.value.signature.value
    ensures ResponseSignature(r) == "" <==>
              (r.data.Some? && r.data.value.signature == Some("")) ||
              (!(r.data.Some? && r.data.value.signature.Some?) &&
               (r.compositeSignature.None? || r.compositeSignature.value.signature.GetOr("") == ""))
  {
  }
}
