/**
 * The update object of src/Objects/Update.php: a decoded Bot API update, seen
 * as its fields in the order they arrived, from which the update's kind, the
 * message it carries, the chat and the presence of a command are read.
 */
module Updates {
  import opened Wrappers

  // ---------------------------------------------------------------------
  // Decoded JSON, as the collection holds it
  // ---------------------------------------------------------------------

  datatype Json =
    | JNull
    | JBool(b: bool)
    | JInt(i: int)
    | JStr(s: string)
    | JList(elements: seq<Json>)
    | JObject(fields: seq<Field>)

  /** One key of an associative array with its value; the keys of one array
      are kept in insertion order. */
  datatype Field = Field(key: string, value: Json)

  /** `collect()`: the empty collection. */
  const EMPTY: Json := JObject([])

  function Keys(fields: seq<Field>): (ks: seq<string>)
    ensures |ks| == |fields| && forall i :: 0 <= i < |fields| ==> ks[i] == fields[i].key
  {
    seq(|fields|, i requires 0 <= i < |fields| => fields[i].key)
  }

  /** The value stored under `key`, if the key exists (the first one, should
      a key appear twice). */
  function Lookup(fields: seq<Field>, key: string): (r: Option<Json>)
    ensures r.None? <==> key !in Keys(fields)
    ensures r.Some? ==> exists i :: 0 <= i < |fields| && fields[i] == Field(key, r.value)
    decreases |fields|
  {
    if fields == [] then None
    else if fields[0].key == key then Some(fields[0].value)
    else Lookup(fields[1..], key)
  }

  /** `$object->key` on a decoded object: the value under the key, null when
      the key is missing or the object is not an object. */
  function Property(obj: Json, key: string): (r: Json)
    ensures !obj.JObject? || key !in Keys(obj.fields) ==> r == JNull
    ensures obj.JObject? && key in Keys(obj.fields) ==> exists i :: 0 <= i < |obj.fields| && obj.fields[i] == Field(key, r)
  {
    if obj.JObject? then Lookup(obj.fields, key).GetOr(JNull) else JNull
  }

  /** Collection `has`: the key exists, whatever its value. */
  predicate CollectionHas(c: Json, key: string) {
    c.JObject? && key in Keys(c.fields)
  }

  /** Collection `get($key, $default)`. */
  function CollectionGet(c: Json, key: string, default: Json): (r: Json)
    ensures !CollectionHas(c, key) ==> r == default
    ensures CollectionHas(c, key) ==> exists i :: 0 <= i < |c.fields| && c.fields[i] == Field(key, r)
  {
    if CollectionHas(c, key) then Lookup(c.fields, key).value else default
  }

  /** The elements a collection iterates over. */
  function Elements(c: Json): seq<Json> {
    match c
    case JList(es) => es
    case JObject(fs) => seq(|fs|, i requires 0 <= i < |fs| => fs[i].value)
    case _ => []
  }

  /** `$value == 'bot_command'` in PHP: a string compares as text, true
      equals 'bot_command', everything else is not equal to it. */
  predicate EqualsBotCommand(v: Json) {
    match v
    case JStr(s) => s == "bot_command"
    case JBool(b) => b
    case _ => false
  }

  // ---------------------------------------------------------------------
  // Strings and lists
  // ---------------------------------------------------------------------

  /** strtolower: ASCII upper-case letters become lower-case. */
  function LowerChar(c: char): char {
    if 'A' <= c <= 'Z' then (c as int + 32) as char else c
  }

  function ToLower(s: string): (r: string)
    ensures |r| == |s| && forall i :: 0 <= i < |s| ==> r[i] == LowerChar(s[i])
  {
    seq(|s|, i requires 0 <= i < |s| => LowerChar(s[i]))
  }

  /** The update kinds detectType looks for. */
  const TYPES: seq<string> := [
    "message", "edited_message", "channel_post", "edited_channel_post",
    "inline_query", "chosen_inline_result", "callback_query", "shipping_query",
    "pre_checkout_query", "poll", "poll_answer", "my_chat_member",
    "chat_member", "chat_join_request"
  ]

  /** The kinds whose getMessage arm returns the field of that name. */
  const MESSAGE_TYPES: seq<string> := [
    "message", "edited_message", "channel_post", "edited_channel_post",
    "inline_query", "chosen_inline_result", "shipping_query",
    "pre_checkout_query", "poll", "business_message"
  ]

  /** Collection `intersect`: the keys that are listed, in their own order. */
  function Intersect(keys: seq<string>, listed: seq<string>): (r: seq<string>)
    ensures forall k :: k in r <==> k in keys && k in listed
    decreases |keys|
  {
    if keys == [] then []
    else (if keys[0] in listed then [keys[0]] else []) + Intersect(keys[1..], listed)
  }

  /** Collection `pop`, for its result: the last element, or null. */
  function Pop(s: seq<string>): (r: Option<string>)
    ensures r.None? <==> s == []
    ensures r.Some? ==> r.value == s[|s| - 1]
  {
    if s == [] then None else Some(s[|s| - 1])
  }

  /** Collection `first`: the first element, or null. */
  function First(s: seq<string>): (r: Option<string>)
    ensures r.None? <==> s == []
    ensures r.Some? ==> r.value == s[0]
  {
    if s == [] then None else Some(s[0])
  }

  /** `except($key)->keys()`: the keys other than `key`, in order. */
  function KeysExcept(keys: seq<string>, key: string): (r: seq<string>)
    ensures forall k :: k in r <==> k in keys && k != key
    decreases |keys|
  {
    if keys == [] then []
    else (if keys[0] != key then [keys[0]] else []) + KeysExcept(keys[1..], key)
  }

  // ---------------------------------------------------------------------
  // The Update object
  // ---------------------------------------------------------------------

  class Update {
    /** The update's fields in the order they were decoded; never changed
        after construction. */
    const items: seq<Field>
    /** The cached result of objectType; null until computed. */
    var updateType: Option<string>

    constructor (items: seq<Field>)
      ensures this.items == items && updateType == None
    {
      this.items := items;
      updateType := None;
    }

    /** `has($key)`: array_key_exists, true even for a null value. */
    predicate Has(key: string)
      reads this
    {
      key in Keys(items)
    }

    /** Magic property access (`$this->callbackQuery` reads the
        callback_query field); null when the field is missing. */
    function Get(key: string): (r: Json)
      reads this
      ensures !Has(key) ==> r == JNull
      ensures Has(key) ==> exists i :: 0 <= i < |items| && items[i] == Field(key, r)
    {
      Lookup(items, key).GetOr(JNull)
    }

    /** objectType: the first key other than update_id, computed once and
        kept once it is not null. */
    method ObjectType() returns (r: Option<string>)
      modifies this`updateType
      ensures old(updateType).Some? ==> r == old(updateType)
      ensures old(updateType).None? ==> r == First(KeysExcept(Keys(items), "update_id"))
      ensures r.Some? ==> r.value in Keys(items) || r == old(updateType)
      ensures updateType == r
    {
      if updateType.None? {
        updateType := First(KeysExcept(Keys(items), "update_id"));
      }
      r := updateType;
    }

    /** detectType: the last key, in the update's order, that is one of
        TYPES, or null. */
    function DetectType(): (r: Option<string>)
      reads this
      ensures r.Some? ==> r.value in TYPES && Has(r.value)
      ensures r.None? <==> forall k :: k in Keys(items) ==> k !in TYPES
    {
      Pop(Intersect(Keys(items), TYPES))
    }

    /** isType: the lower-cased name is a key, or detectType gives the name
        exactly. */
    predicate IsType(t: string)
      reads this
      ensures Has(ToLower(t)) ==> IsType(t)
      ensures IsType(t) ==> Has(ToLower(t)) || (t in TYPES && Has(t))
    {
      Has(ToLower(t)) || DetectType() == Some(t)
    }

    /** getMessage: dispatch on the detected kind. */
    function GetMessage(): (r: Json)
      reads this
      ensures DetectType().None? ==> r == EMPTY
      ensures DetectType().Some? && DetectType().value !in MESSAGE_TYPES && DetectType().value != "callback_query"
              ==> r == EMPTY
    {
      var t := DetectType();
      if t == Some("callback_query") then
        var message := Property(Get("callback_query"), "message");
        if message == JNull then EMPTY else message
      else if t.Some? && t.value in MESSAGE_TYPES then Get(t.value)
      else EMPTY
    }

    /** getChat: the chat of my_chat_member whenever that field exists,
        otherwise the chat of the message, or the empty collection. */
    function GetChat(): (r: Json)
      reads this
      ensures Has("my_chat_member") ==> r == Property(Get("my_chat_member"), "chat")
      ensures !Has("my_chat_member") && DetectType().None? ==> r == EMPTY
      ensures !Has("my_chat_member") && CollectionHas(GetMessage(), "chat")
              ==> r == CollectionGet(GetMessage(), "chat", JNull)
      ensures !Has("my_chat_member") && !CollectionHas(GetMessage(), "chat") ==> r == EMPTY
    {
      if Has("my_chat_member") then Property(Get("my_chat_member"), "chat")
      else
        var message := GetMessage();
        if CollectionHas(message, "chat") then CollectionGet(message, "chat", JNull) else EMPTY
    }

    /** hasCommand: some entity of the message has type bot_command. */
    predicate HasCommand()
      reads this
      ensures HasCommand() ==> DetectType().Some? && CollectionHas(GetMessage(), "entities")
    {
      var entities := CollectionGet(GetMessage(), "entities", EMPTY);
      exists e :: e in Elements(entities) && EqualsBotCommand(Property(e, "type"))
    }
  }
}
