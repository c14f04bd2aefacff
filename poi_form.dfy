/**
 * The state behind components/PoiForm.tsx: the edited `values` record, the
 * `loading`, `deleting` and `error` flags, and the pages the router is sent
 * to. The two network calls are split at their `await`: a `Start` method
 * does what happens before the request and returns it, a `Finish` method
 * takes the server's reply (or the failure) and does the rest.
 */
module PoiForm {
  import opened Js
  import opened Text

  datatype Mode = Create | Edit

  const SaveError: string := "Erro ao salvar."
  const SaveFailure: string := "Erro inesperado ao salvar."
  const DeleteError: string := "Erro ao excluir."
  const DeleteFailure: string := "Erro inesperado ao excluir."
  const ListPage: string := "/admin/pois"
  const PoisApi: string := "/api/pois"

  /** The keys of `PoiFormValues`. */
  datatype Field = Id | Name | Description | Category | Address | ImageUrl | ArUrl | Lat | Lng

  /**
   * A `PoiFormValues` record. An optional key that is absent reads as
   * `undefined`, which is how it is held here.
   */
  datatype Values = Values(
    id: JsValue,
    name: JsValue,
    description: JsValue,
    category: JsValue,
    address: JsValue,
    imageUrl: JsValue,
    arUrl: JsValue,
    lat: JsValue,
    lng: JsValue)

  /** `values[key]` */
  function Lookup(v: Values, key: Field): JsValue
  {
    match key
    case Id => v.id
    case Name => v.name
    case Description => v.description
    case Category => v.category
    case Address => v.address
    case ImageUrl => v.imageUrl
    case ArUrl => v.arUrl
    case Lat => v.lat
    case Lng => v.lng
  }

  /** `{ ...prev, [key]: val }` */
  function With(v: Values, key: Field, val: JsValue): (r: Values)
    ensures Lookup(r, key) == val
    ensures forall other: Field :: other != key ==> Lookup(r, other) == Lookup(v, other)
  {
    match key
    case Id => v.(id := val)
    case Name => v.(name := val)
    case Description => v.(description := val)
    case Category => v.(category := val)
    case Address => v.(address := val)
    case ImageUrl => v.(imageUrl := val)
    case ArUrl => v.(arUrl := val)
    case Lat => v.(lat := val)
    case Lng => v.(lng := val)
  }

  /** Setting a key to the value it already has changes nothing; setting it twice keeps the last value. */
  lemma WithLaws(v: Values, key: Field, a: JsValue, b: JsValue)
    ensures With(v, key, Lookup(v, key)) == v
    ensures With(With(v, key, a), key, b) == With(v, key, b)
  {
  }

  /** The object sent as the request body. */
  datatype Payload = Payload(
    name: string,
    description: Option<string>,
    category: Option<string>,
    address: Option<string>,
    imageUrl: Option<string>,
    arUrl: Option<string>,
    lat: JsValue,
    lng: JsValue)

  /** `v ? String(v) : null` */
  function TextOrNull(v: JsValue, otherToText: JsValue -> string): (r: Option<string>)
    ensures r.None? <==> !Truthy(v)
    ensures v.Str? && v.s != [] ==> r == Some(v.s)
  {
    if Truthy(v) then Some(ToText(v, otherToText)) else None
  }

  /** `typeof v === "string" ? Number(v) : v` */
  function Coordinate(v: JsValue, strToNumber: string -> JsNum, otherToText: JsValue -> string): (r: JsValue)
    ensures v.Str? ==> r == Num(strToNumber(v.s))
    ensures !v.Str? ==> r == v
  {
    if v.Str? then Num(ToNumber(v, strToNumber, otherToText)) else v
  }

  /** `String(v || "").trim()` */
  function NameText(v: JsValue, otherToText: JsValue -> string): string
  {
    Trim(ToText(if Truthy(v) then v else Str(""), otherToText))
  }

  /** The `payload` memo, computed from the current `values`. */
  function PayloadOf(v: Values, strToNumber: string -> JsNum, otherToText: JsValue -> string): (p: Payload)
  {
    Payload(
      NameText(v.name, otherToText),
      TextOrNull(v.description, otherToText),
      TextOrNull(v.category, otherToText),
      TextOrNull(v.address, otherToText),
      TextOrNull(v.imageUrl, otherToText),
      TextOrNull(v.arUrl, otherToText),
      Coordinate(v.lat, strToNumber, otherToText),
      Coordinate(v.lng, strToNumber, otherToText))
  }

  /** The payload field an optional key is sent in. */
  function OptionalField(p: Payload, key: Field): Option<string>
    requires key in {Description, Category, Address, ImageUrl, ArUrl}
  {
    match key
    case Description => p.description
    case Category => p.category
    case Address => p.address
    case ImageUrl => p.imageUrl
    case ArUrl => p.arUrl
  }

  /** The name sent is the trimmed name, and empty when the name is missing or empty. */
  lemma PayloadName(v: Values, strToNumber: string -> JsNum, otherToText: JsValue -> string)
    ensures var p := PayloadOf(v, strToNumber, otherToText);
      && (v.name == Undefined || v.name == Null ==> p.name == [])
      && (v.name.Str? ==> p.name == Trim(v.name.s))
      && (p.name != [] ==> !IsWhiteSpace(p.name[0]) && !IsWhiteSpace(p.name[|p.name| - 1]))
  {
  }

  /** Optional fields that are missing, null or empty are sent as null; non-empty strings are kept. */
  lemma PayloadOptional(v: Values, key: Field, strToNumber: string -> JsNum, otherToText: JsValue -> string)
    requires key in {Description, Category, Address, ImageUrl, ArUrl}
    ensures var field := OptionalField(PayloadOf(v, strToNumber, otherToText), key);
      && (Lookup(v, key).Undefined? || Lookup(v, key).Null? || Lookup(v, key) == Str([]) ==> field.None?)
      && (Lookup(v, key).Str? && Lookup(v, key).s != [] ==> field == Some(Lookup(v, key).s))
  {
    OptionalFieldSent(v, key, strToNumber, otherToText);
  }

  lemma OptionalFieldSent(v: Values, key: Field, strToNumber: string -> JsNum, otherToText: JsValue -> string)
    requires key in {Description, Category, Address, ImageUrl, ArUrl}
    ensures OptionalField(PayloadOf(v, strToNumber, otherToText), key) == TextOrNull(Lookup(v, key), otherToText)
  {
  }

  /** String coordinates are converted with `Number`; numeric ones are sent unchanged. */
  lemma PayloadCoordinates(v: Values, strToNumber: string -> JsNum, otherToText: JsValue -> string)
    ensures var p := PayloadOf(v, strToNumber, otherToText);
      && (v.lat.Str? ==> p.lat == Num(strToNumber(v.lat.s)))
      && (v.lat.Num? ==> p.lat == v.lat)
      && (v.lng.Str? ==> p.lng == Num(strToNumber(v.lng.s)))
      && (v.lng.Num? ==> p.lng == v.lng)
  {
  }

  /** Each field of the payload depends on its own key only: setting another key leaves it equal. */
  lemma PayloadLocal(v: Values, key: Field, val: JsValue, strToNumber: string -> JsNum, otherToText: JsValue -> string)
    ensures var p := PayloadOf(v, strToNumber, otherToText);
      var q := PayloadOf(With(v, key, val), strToNumber, otherToText);
      && (key != Name ==> q.name == p.name)
      && (key != Description ==> q.description == p.description)
      && (key != Category ==> q.category == p.category)
      && (key != Address ==> q.address == p.address)
      && (key != ImageUrl ==> q.imageUrl == p.imageUrl)
      && (key != ArUrl ==> q.arUrl == p.arUrl)
      && (key != Lat ==> q.lat == p.lat)
      && (key != Lng ==> q.lng == p.lng)
  {
    assert Lookup(With(v, key, val), Name) == Lookup(v, Name) || key == Name;
  }

  /** The request `handleSubmit` sends. */
  datatype Request = Request(url: string, verb: string)

  /** The URL and method of `handleSubmit`: `${values.id}` spells out a missing id as "undefined". */
  function SubmitRequest(mode: Mode, v: Values, otherToText: JsValue -> string): (r: Request)
    ensures mode == Create ==> r == Request(PoisApi, "POST")
    ensures mode == Edit ==> r.verb == "PUT" && r.url == PoisApi + "/" + ToText(v.id, otherToText)
  {
    if mode == Edit then Request(PoisApi + "/" + ToText(v.id, otherToText), "PUT")
    else Request(PoisApi, "POST")
  }

  /** An edit form whose values lack an id sends its update to "/api/pois/undefined". */
  lemma EditWithoutId(v: Values, otherToText: JsValue -> string)
    requires v.id == Undefined
    ensures SubmitRequest(Edit, v, otherToText) == Request("/api/pois/undefined", "PUT")
  {
  }

  /** What the awaited request produced. */
  datatype Reply =
    | Answered(ok: bool, data: JsValue) // `res.ok` and `await res.json()`, `{}` when the body does not parse
    | Failed                             // `fetch` threw

  /** The error shown after a reply: the server's `error` when truthy, else the fallback message; none on success. */
  function ReplyError(reply: Reply, fallback: string, unexpected: string): (e: Option<JsValue>)
    ensures reply.Failed? ==> e == Some(Str(unexpected))
    ensures reply.Answered? && reply.ok ==> e.None?
    ensures reply.Answered? && !reply.ok ==> e.Some?
    ensures reply.Answered? && !reply.ok && !Truthy(Get(reply.data, "error")) ==> e == Some(Str(fallback))
    ensures reply.Answered? && !reply.ok && Truthy(Get(reply.data, "error")) ==> e == Some(Get(reply.data, "error"))
  {
    match reply
    case Failed => Some(Str(unexpected))
    case Answered(ok, data) =>
      if ok then None
      else if Truthy(Get(data, "error")) then Some(Get(data, "error"))
      else Some(Str(fallback))
  }

  /** A non-empty message is a truthy error, so a failed request always leaves an error to show. */
  lemma FailureShown(reply: Reply)
    requires !(reply.Answered? && reply.ok)
    ensures ReplyError(reply, SaveError, SaveFailure).Some?
    ensures ReplyError(reply, DeleteError, DeleteFailure).Some?
  {
  }

  class Form {
    const mode: Mode
    var values: Values
    var loading: bool
    var deleting: bool
    /** The message shown; normally a string, but a server's `error` is shown as sent. */
    var error: Option<JsValue>
    /** The pages `router.push` was sent to, oldest first. */
    var visited: seq<string>

    constructor(mode: Mode, initialValues: Values)
      ensures this.mode == mode && values == initialValues
      ensures !loading && !deleting && error.None? && visited == []
    {
      this.mode := mode;
      values := initialValues;
      loading := false;
      deleting := false;
      error := None;
      visited := [];
    }

    /** `setField(key, val)`: only `key` changes. */
    method SetField(key: Field, val: JsValue)
      modifies this
      ensures values == With(old(values), key, val)
      ensures Lookup(values, key) == val
      ensures forall other: Field :: other != key ==> Lookup(values, other) == Lookup(old(values), other)
      ensures loading == old(loading) && deleting == old(deleting) && error == old(error) && visited == old(visited)
    {
      values := With(values, key, val);
    }

    /**
     * `handleSubmit` up to the `await fetch`: clears the error, sets
     * `loading`, and returns the request. Its body is the memo
     * `PayloadOf(values, ...)` of the unchanged values.
     */
    method StartSubmit(otherToText: JsValue -> string) returns (request: Request)
      modifies this
      ensures request == SubmitRequest(mode, values, otherToText)
      ensures error.None? && loading
      ensures values == old(values) && deleting == old(deleting) && visited == old(visited)
    {
      request := SubmitRequest(mode, values, otherToText);
      error := None;
      loading := true;
    }

    /** `handleSubmit` after the reply: shows the error or goes to the list, and always clears `loading`. */
    method FinishSubmit(reply: Reply)
      modifies this
      ensures !loading
      ensures reply.Answered? && reply.ok ==> visited == old(visited) + [ListPage] && error == old(error)
      ensures !(reply.Answered? && reply.ok) ==> visited == old(visited) && error == ReplyError(reply, SaveError, SaveFailure)
      ensures values == old(values) && deleting == old(deleting)
    {
      if reply.Answered? && reply.ok {
        visited := visited + [ListPage];
      } else {
        error := ReplyError(reply, SaveError, SaveFailure);
      }
      loading := false;
    }

    /**
     * `handleDelete` up to the `await fetch`: nothing happens without an id or
     * when the user does not confirm; otherwise the error is cleared,
     * `deleting` is set and the DELETE request for the id is returned.
     */
    method StartDelete(confirmed: bool, otherToText: JsValue -> string) returns (request: Option<Request>)
      modifies this
      ensures !Truthy(old(values).id) || !confirmed ==>
                request.None? && error == old(error) && deleting == old(deleting)
      ensures Truthy(old(values).id) && confirmed ==>
                && request == Some(Request(PoisApi + "/" + ToText(values.id, otherToText), "DELETE"))
                && error.None? && deleting
      ensures values == old(values) && loading == old(loading) && visited == old(visited)
    {
      if !Truthy(values.id) {
        return None;
      }
      if !confirmed {
        return None;
      }
      error := None;
      deleting := true;
      request := Some(Request(PoisApi + "/" + ToText(values.id, otherToText), "DELETE"));
    }

    /** `handleDelete` after the reply: shows the error or goes to the list, and always clears `deleting`. */
    method FinishDelete(reply: Reply)
      modifies this
      ensures !deleting
      ensures reply.Answered? && reply.ok ==> visited == old(visited) + [ListPage] && error == old(error)
      ensures !(reply.Answered? && reply.ok) ==> visited == old(visited) && error == ReplyError(reply, DeleteError, DeleteFailure)
      ensures values == old(values) && loading == old(loading)
    {
      if reply.Answered? && reply.ok {
        visited := visited + [ListPage];
      } else {
        error := ReplyError(reply, DeleteError, DeleteFailure);
      }
      deleting := false;
    }
  }

  /** A whole save: after the reply `loading` is off again, and a failed save leaves the user on the form with a message. */
  method Save(form: Form, reply: Reply, otherToText: JsValue -> string)
    returns (request: Request)
    modifies form
    ensures request == SubmitRequest(form.mode, old(form.values), otherToText)
    ensures !form.loading && form.values == old(form.values)
    ensures reply.Answered? && reply.ok <==> form.visited == old(form.visited) + [ListPage]
    ensures reply.Answered? && reply.ok <==> form.error.None?
  {
    request := form.StartSubmit(otherToText);
    if !(reply.Answered? && reply.ok) {
      FailureShown(reply);
    }
    form.FinishSubmit(reply);
  }
}
