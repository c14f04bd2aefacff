/**
 * `POST /api/pois` of app/api/pois/route.ts: the session check, the
 * validation of name and coordinates, and the record handed to the
 * database. The session is the value `getAdminSession` returns (see module
 * Auth); the database write itself is not modelled, only its input.
 */
module PoisRoute {
  import opened Js
  import opened Text
  import Auth

  const UnauthorizedError: string := "Não autorizado"
  const MissingFieldsError: string := "Campos obrigatórios: name, lat, lng"

  /** The `data` given to `prisma.poi.create`. */
  datatype NewPoi = NewPoi(
    name: string,
    description: Option<string>,
    category: Option<string>,
    address: Option<string>,
    imageUrl: Option<string>,
    arUrl: Option<string>,
    lat: real,
    lng: real)

  /** The three answers of the handler. */
  datatype Answer =
    | Unauthorized        // 401 `{ ok: false, error: "Não autorizado" }`
    | BadRequest          // 400 `{ ok: false, error: "Campos obrigatórios: name, lat, lng" }`
    | Created(poi: NewPoi) // 201 `{ ok: true, poi }`

  function Status(a: Answer): (status: nat)
    ensures a.Unauthorized? <==> status == 401
    ensures a.BadRequest? <==> status == 400
    ensures a.Created? <==> status == 201
  {
    match a
    case Unauthorized => 401
    case BadRequest => 400
    case Created(_) => 201
  }

  /** `await req.json().catch(() => ({}))`: a body that does not parse counts as `{}`. */
  function Body(parsed: Option<JsValue>): (body: JsValue)
    ensures parsed.Some? ==> body == parsed.value
    ensures parsed.None? ==> body == Object(map[])
  {
    if parsed.Some? then parsed.value else Object(map[])
  }

  /** `String(body?.name || "").trim()` */
  function NameOf(body: JsValue, otherToText: JsValue -> string): (name: string)
    ensures !Truthy(Get(body, "name")) ==> name == []
    ensures Get(body, "name").Str? ==> name == Trim(Get(body, "name").s)
  {
    var raw := Get(body, "name");
    Trim(ToText(if Truthy(raw) then raw else Str(""), otherToText))
  }

  /** `body?.x ? String(body.x) : null` */
  function OptionalText(body: JsValue, key: string, otherToText: JsValue -> string): (r: Option<string>)
    ensures r.Some? <==> Truthy(Get(body, key))
    ensures r.Some? ==> r.value == ToText(Get(body, key), otherToText)
  {
    var v := Get(body, key);
    if Truthy(v) then Some(ToText(v, otherToText)) else None
  }

  /** `POST(req)` */
  function Post(session: Option<Auth.AdminSession>, parsed: Option<JsValue>,
                strToNumber: string -> JsNum, otherToText: JsValue -> string): (a: Answer)
    ensures session.None? <==> a.Unauthorized?
    ensures var body := Body(parsed);
      a.BadRequest? <==>
        session.Some? &&
        (NameOf(body, otherToText) == []
         || !ToNumber(Get(body, "lat"), strToNumber, otherToText).IsFinite()
         || !ToNumber(Get(body, "lng"), strToNumber, otherToText).IsFinite())
  {
    if session.None? then Unauthorized
    else
      var body := Body(parsed);
      var name := NameOf(body, otherToText);
      var lat := ToNumber(Get(body, "lat"), strToNumber, otherToText);
      var lng := ToNumber(Get(body, "lng"), strToNumber, otherToText);
      if name == [] || !lat.IsFinite() || !lng.IsFinite() then BadRequest
      else Created(Record(body, name, lat.v, lng.v, otherToText))
  }

  /** The `data` object built from the validated name and coordinates. */
  function Record(body: JsValue, name: string, lat: real, lng: real, otherToText: JsValue -> string): (poi: NewPoi)
    ensures poi.name == name && poi.lat == lat && poi.lng == lng
    ensures poi.description == OptionalText(body, "description", otherToText)
    ensures poi.category == OptionalText(body, "category", otherToText)
    ensures poi.address == OptionalText(body, "address", otherToText)
    ensures poi.imageUrl == OptionalText(body, "imageUrl", otherToText)
    ensures poi.arUrl == OptionalText(body, "arUrl", otherToText)
  {
    NewPoi(
      name,
      OptionalText(body, "description", otherToText),
      OptionalText(body, "category", otherToText),
      OptionalText(body, "address", otherToText),
      OptionalText(body, "imageUrl", otherToText),
      OptionalText(body, "arUrl", otherToText),
      lat,
      lng)
  }

  /** Without a session the answer is 401 whatever the body, even one that does not parse. */
  lemma NoSessionIgnoresBody(parsed: Option<JsValue>, strToNumber: string -> JsNum, otherToText: JsValue -> string)
    ensures Status(Post(None, parsed, strToNumber, otherToText)) == 401
  {
  }

  /** A body that does not parse has no name, so with a session it is refused with 400. */
  lemma UnparsedBodyRejected(session: Auth.AdminSession, strToNumber: string -> JsNum, otherToText: JsValue -> string)
    ensures Status(Post(Some(session), None, strToNumber, otherToText)) == 400
  {
  }

  /** A name of white space only is empty after trimming and is refused. */
  lemma BlankNameRejected(session: Auth.AdminSession, fields: map<string, JsValue>, blank: string,
                          strToNumber: string -> JsNum, otherToText: JsValue -> string)
    requires blank != [] && forall i :: 0 <= i < |blank| ==> IsWhiteSpace(blank[i])
    requires fields == map["name" := Str(blank)]
    ensures Post(Some(session), Some(Object(fields)), strToNumber, otherToText) == BadRequest
  {
  }

  /**
   * What is stored on success: the trimmed, non-empty name, the converted
   * coordinates, and each optional field as text when truthy and null otherwise.
   */
  lemma CreatedRecord(session: Option<Auth.AdminSession>, parsed: Option<JsValue>,
                      strToNumber: string -> JsNum, otherToText: JsValue -> string)
    requires Post(session, parsed, strToNumber, otherToText).Created?
    ensures var body := Body(parsed);
      var poi := Post(session, parsed, strToNumber, otherToText).poi;
      && session.Some?
      && poi.name == NameOf(body, otherToText) && poi.name != []
      && !IsWhiteSpace(poi.name[0]) && !IsWhiteSpace(poi.name[|poi.name| - 1])
      && ToNumber(Get(body, "lat"), strToNumber, otherToText) == Finite(poi.lat)
      && ToNumber(Get(body, "lng"), strToNumber, otherToText) == Finite(poi.lng)
      && (poi.description.Some? <==> Truthy(Get(body, "description")))
      && (poi.category.Some? <==> Truthy(Get(body, "category")))
      && (poi.address.Some? <==> Truthy(Get(body, "address")))
      && (poi.imageUrl.Some? <==> Truthy(Get(body, "imageUrl")))
      && (poi.arUrl.Some? <==> Truthy(Get(body, "arUrl")))
      && poi.description == OptionalText(body, "description", otherToText)
      && poi.category == OptionalText(body, "category", otherToText)
      && poi.address == OptionalText(body, "address", otherToText)
      && poi.imageUrl == OptionalText(body, "imageUrl", otherToText)
      && poi.arUrl == OptionalText(body, "arUrl", otherToText)
  {
  }

  /**
   * The coordinates are not range-checked: with a session and a name, any
   * finite latitude and longitude is stored as converted.
   */
  lemma NoRangeCheck(session: Auth.AdminSession, body: JsValue, lat: real, lng: real,
                     strToNumber: string -> JsNum, otherToText: JsValue -> string)
    requires NameOf(body, otherToText) != []
    requires ToNumber(Get(body, "lat"), strToNumber, otherToText) == Finite(lat)
    requires ToNumber(Get(body, "lng"), strToNumber, otherToText) == Finite(lng)
    ensures var a := Post(Some(session), Some(body), strToNumber, otherToText);
      a.Created? && a.poi.lat == lat && a.poi.lng == lng
  {
  }

  /** In particular a latitude of 1000 degrees, far outside the globe, is accepted. */
  lemma FarLatitudeStored(session: Auth.AdminSession, body: JsValue, strToNumber: string -> JsNum, otherToText: JsValue -> string)
    requires NameOf(body, otherToText) != []
    requires Get(body, "lat") == Num(Finite(1000.0)) && Get(body, "lng") == Num(Finite(0.0))
    ensures var a := Post(Some(session), Some(body), strToNumber, otherToText);
      a.Created? && a.poi.lat == 1000.0
  {
    NoRangeCheck(session, body, 1000.0, 0.0, strToNumber, otherToText);
  }
}
