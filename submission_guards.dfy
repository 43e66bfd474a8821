/**
 * The run-time shape checks the submissions page applies to the JSON it
 * fetches: `isItem` for one stored submission and `isApiList` for the
 * response envelope.
 */
module SubmissionGuards {
  import opened Wrappers
  import opened JsValues

  /** A stored submission as the page expects it. `ip` and `ua` may be absent, null or a string. */
  datatype Item = Item(
    id: string, name: string, email: string, message: string, createdAt: string,
    ip: Option<Option<string>>, ua: Option<Option<string>>)

  /** The envelope of the list endpoint. */
  datatype ApiList = Listed(items: seq<Item>) | Refused(error: string)

  /** The fields every submission has. */
  const RequiredKeys: seq<string> := ["id", "name", "email", "message", "created_at"]

  /**
   * `isItem`: an object whose five required fields are all strings. An
   * array passes `typeof`, but has none of those fields.
   */
  function IsItem(u: JsValue): (b: bool)
    ensures b ==> u.Obj?
    ensures b <==> u.Obj? && forall k :: k in RequiredKeys ==> Get(u, k).Str?
  {
    && IsNonNullObject(u)
    && Get(u, "id").Str?
    && Get(u, "name").Str?
    && Get(u, "email").Str?
    && Get(u, "message").Str?
    && Get(u, "created_at").Str?
  }

  /** `xs.every(isItem)`: checked element by element from the front. */
  function EveryItem(xs: seq<JsValue>): (b: bool)
    ensures b <==> forall i :: 0 <= i < |xs| ==> IsItem(xs[i])
  {
    if xs == [] then true
    else if !IsItem(xs[0]) then false
    else EveryItem(xs[1..])
  }

  /**
   * `isApiList`: an object that either reports success with an array of
   * items, or reports failure with a string error.
   */
  function IsApiList(u: JsValue): (b: bool)
    ensures b ==> u.Obj? && Get(u, "success").Bool?
    ensures b && Get(u, "success") == Bool(true) ==>
      Get(u, "items").Arr? && forall i :: 0 <= i < |Get(u, "items").elems| ==> IsItem(Get(u, "items").elems[i])
    ensures b && Get(u, "success") == Bool(false) ==> Get(u, "error").Str?
  {
    if !IsNonNullObject(u) then false
    else if Get(u, "success") == Bool(true) && Get(u, "items").Arr? then EveryItem(Get(u, "items").elems)
    else if Get(u, "success") == Bool(false) && Get(u, "error").Str? then true
    else false
  }

  /**
   * The envelope check in one statement: a success envelope is accepted
   * exactly when every element passes `isItem` (so an empty list passes),
   * a failure envelope exactly when its error is a string.
   */
  lemma IsApiListMeaning(u: JsValue)
    ensures IsApiList(u) <==>
      IsNonNullObject(u) &&
      ((Get(u, "success") == Bool(true) && Get(u, "items").Arr?
        && forall i :: 0 <= i < |Get(u, "items").elems| ==> IsItem(Get(u, "items").elems[i]))
      || (Get(u, "success") == Bool(false) && Get(u, "error").Str?))
  {
  }

  /** Nulls, strings, numbers and arrays are neither items nor envelopes. */
  lemma GuardsRejectNonObjects(u: JsValue)
    requires !u.Obj?
    ensures !IsItem(u) && !IsApiList(u)
  {
  }

  /** Encoding an optional, nullable string field. */
  function NullableField(props: map<string, JsValue>, key: string, v: Option<Option<string>>): map<string, JsValue> {
    match v
    case None => props
    case Some(None) => props[key := Null]
    case Some(Some(s)) => props[key := Str(s)]
  }

  /** The JSON object of a submission, as the endpoint sends it. */
  function EncodeItem(it: Item): (u: JsValue)
    ensures u.Obj?
    ensures Get(u, "id") == Str(it.id)
    ensures Get(u, "name") == Str(it.name)
    ensures Get(u, "email") == Str(it.email)
    ensures Get(u, "message") == Str(it.message)
    ensures Get(u, "created_at") == Str(it.createdAt)
  {
    var optional := NullableField(NullableField(map[], "ip", it.ip), "ua", it.ua);
    Obj(optional["id" := Str(it.id)]["name" := Str(it.name)]["email" := Str(it.email)]
      ["message" := Str(it.message)]["created_at" := Str(it.createdAt)])
  }

  /** The JSON object of an envelope. */
  function EncodeApiList(l: ApiList): (u: JsValue)
    ensures u.Obj?
    ensures l.Listed? ==> Get(u, "success") == Bool(true) && Get(u, "items").Arr?
    ensures l.Listed? ==> |Get(u, "items").elems| == |l.items|
    ensures l.Listed? ==> forall i :: 0 <= i < |l.items| ==> Get(u, "items").elems[i] == EncodeItem(l.items[i])
    ensures l.Refused? ==> Get(u, "success") == Bool(false) && Get(u, "error") == Str(l.error)
  {
    match l
    case Listed(items) =>
      Obj(map["success" := Bool(true), "items" := Arr(seq(|items|, i requires 0 <= i < |items| => EncodeItem(items[i])))])
    case Refused(error) =>
      Obj(map["success" := Bool(false), "error" := Str(error)])
  }

  /** The five required fields of an accepted value. */
  function DecodeItem(u: JsValue): (it: Item)
    requires IsItem(u)
    ensures Get(u, "id") == Str(it.id)
    ensures Get(u, "name") == Str(it.name)
    ensures Get(u, "email") == Str(it.email)
    ensures Get(u, "message") == Str(it.message)
    ensures Get(u, "created_at") == Str(it.createdAt)
    ensures it.ip.None? && it.ua.None?
  {
    Item(Get(u, "id").s, Get(u, "name").s, Get(u, "email").s, Get(u, "message").s,
      Get(u, "created_at").s, None, None)
  }

  /** Every well-formed submission passes `isItem`, and its required fields read back. */
  lemma EncodedItemRoundTrip(it: Item)
    ensures IsItem(EncodeItem(it))
    ensures var d := DecodeItem(EncodeItem(it));
      d.id == it.id && d.name == it.name && d.email == it.email
      && d.message == it.message && d.createdAt == it.createdAt
  {
  }

  /** Every well-formed envelope passes `isApiList`. */
  lemma EncodedApiListAccepted(l: ApiList)
    ensures IsApiList(EncodeApiList(l))
  {
    if l.Listed? {
      var xs := Get(EncodeApiList(l), "items").elems;
      forall i | 0 <= i < |xs| ensures IsItem(xs[i]) {
        EncodedItemRoundTrip(l.items[i]);
      }
    }
  }

  /**
   * `ip` and `ua` are not looked at: an item whose `ip` is a number, which
   * the declared type forbids, still passes.
   */
  lemma OptionalFieldsUnchecked(it: Item)
    ensures IsItem(Obj(EncodeItem(it).props["ip" := Num(Finite(7.0))]))
  {
  }

  /** One element that is not an item spoils a whole success envelope. */
  lemma OneBadItemRejectsList(items: seq<JsValue>, k: nat)
    requires k < |items| && !IsItem(items[k])
    ensures !IsApiList(Obj(map["success" := Bool(true), "items" := Arr(items)]))
  {
  }
}
