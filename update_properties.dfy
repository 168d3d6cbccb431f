/**
 * What the update object of src/Objects/Update.php promises: detectType is
 * the last listed key, business_message is never detected, objectType is the
 * first key after update_id and is cached, isType is a case-insensitive key
 * test, getChat prefers my_chat_member, and the callback and command cases.
 */
module UpdateProperties {
  import opened Wrappers
  import opened Updates

  // ---------------------------------------------------------------------
  // detectType
  // ---------------------------------------------------------------------

  /** Keys none of which is listed intersect to nothing. */
  lemma {:induction false} IntersectNone(keys: seq<string>, listed: seq<string>)
    requires forall j :: 0 <= j < |keys| ==> keys[j] !in listed
    ensures Intersect(keys, listed) == []
    decreases |keys|
  {
    if keys != [] {
      IntersectNone(keys[1..], listed);
    }
  }

  /** Intersect keeps the listed keys in their own order, so it ends with
      the last listed key. */
  lemma {:induction false} IntersectEndsWithLast(keys: seq<string>, listed: seq<string>, i: nat)
    requires i < |keys| && keys[i] in listed
    requires forall j :: i < j < |keys| ==> keys[j] !in listed
    ensures var r := Intersect(keys, listed);
            r != [] && r[|r| - 1] == keys[i]
    decreases |keys|
  {
    var rest := Intersect(keys[1..], listed);
    if i == 0 {
      IntersectNone(keys[1..], listed);
      assert Intersect(keys, listed) == [keys[0]] + rest;
    } else {
      IntersectEndsWithLast(keys[1..], listed, i - 1);
    }
  }

  /** detectType is the last key, in the update's order, that is one of the
      fourteen listed types (and null when there is none, by its own
      contract). */
  lemma DetectTypeIsLastListed(u: Update, i: nat)
    requires i < |u.items| && u.items[i].key in TYPES
    requires forall j :: i < j < |u.items| ==> u.items[j].key !in TYPES
    ensures u.DetectType() == Some(u.items[i].key)
  {
    IntersectEndsWithLast(Keys(u.items), TYPES, i);
  }

  /** business_message is not among the listed types, so detectType never
      gives it and getMessage's business_message arm cannot be reached. */
  lemma BusinessMessageNeverDetected(u: Update)
    ensures u.DetectType() != Some("business_message")
  {
    assert "business_message" !in TYPES;
  }

  /** An update carrying only a business message (and its id) has no
      message and no chat. */
  lemma BusinessMessageUpdateIsEmpty(u: Update, id: int, m: Json)
    requires u.items == [Field("update_id", JInt(id)), Field("business_message", m)]
    ensures u.Has("business_message")
    ensures u.GetMessage() == EMPTY && u.GetChat() == EMPTY
  {
    assert Keys(u.items) == ["update_id", "business_message"];
    assert "update_id" !in TYPES && "business_message" !in TYPES;
    assert u.DetectType() == None;
  }

  // ---------------------------------------------------------------------
  // objectType
  // ---------------------------------------------------------------------

  /** The first key other than `key` is found past the leading copies of
      `key`. */
  lemma {:induction false} FirstKeyExcept(keys: seq<string>, key: string, i: nat)
    requires i < |keys| && keys[i] != key
    requires forall j :: 0 <= j < i ==> keys[j] == key
    ensures First(KeysExcept(keys, key)) == Some(keys[i])
    decreases i
  {
    if i > 0 {
      FirstKeyExcept(keys[1..], key, i - 1);
      assert KeysExcept(keys, key) == KeysExcept(keys[1..], key);
    }
  }

  /** Calling objectType twice gives the same answer, computed from the
      keys on the first call unless a type was already cached. */
  method ObjectTypeTwice(u: Update) returns (first: Option<string>, second: Option<string>)
    modifies u`updateType
    ensures first == second == u.updateType
    ensures old(u.updateType).None? ==> first == First(KeysExcept(Keys(u.items), "update_id"))
    ensures old(u.updateType).Some? ==> first == old(u.updateType)
  {
    first := u.ObjectType();
    second := u.ObjectType();
  }

  // ---------------------------------------------------------------------
  // isType
  // ---------------------------------------------------------------------

  predicate NoUpper(s: string) {
    forall i :: 0 <= i < |s| ==> !('A' <= s[i] <= 'Z')
  }

  lemma LowerOfNoUpper(s: string)
    requires NoUpper(s)
    ensures ToLower(s) == s
  {
  }

  // TypesLowerFrom0/5/10 check the 14 listed types five at a time: one
  // lemma over all of them unfolds every literal at once and is too costly
  // for the solver.

  lemma TypesLowerFrom0(k: nat)
    requires 0 <= k < 5
    ensures NoUpper(TYPES[k])
  {
    if k == 0 {
      assert NoUpper(TYPES[0]);
    } else if k == 1 {
      assert NoUpper(TYPES[1]);
    } else if k == 2 {
      assert NoUpper(TYPES[2]);
    } else if k == 3 {
      assert NoUpper(TYPES[3]);
    } else {
      assert NoUpper(TYPES[4]);
    }
  }

  lemma TypesLowerFrom5(k: nat)
    requires 5 <= k < 10
    ensures NoUpper(TYPES[k])
  {
    if k == 5 {
      assert NoUpper(TYPES[5]);
    } else if k == 6 {
      assert NoUpper(TYPES[6]);
    } else if k == 7 {
      assert NoUpper(TYPES[7]);
    } else if k == 8 {
      assert NoUpper(TYPES[8]);
    } else {
      assert NoUpper(TYPES[9]);
    }
  }

  lemma TypesLowerFrom10(k: nat)
    requires 10 <= k < 14
    ensures NoUpper(TYPES[k])
  {
    if k == 10 {
      assert NoUpper(TYPES[10]);
    } else if k == 11 {
      assert NoUpper(TYPES[11]);
    } else if k == 12 {
      assert NoUpper(TYPES[12]);
    } else {
      assert NoUpper(TYPES[13]);
    }
  }

  /** Every listed type is written in lower case. */
  lemma TypesAreLowerCase(t: string)
    requires t in TYPES
    ensures ToLower(t) == t
  {
    var k :| 0 <= k < |TYPES| && TYPES[k] == t;
    if k < 5 {
      TypesLowerFrom0(k);
    } else if k < 10 {
      TypesLowerFrom5(k);
    } else {
      TypesLowerFrom10(k);
    }
    LowerOfNoUpper(t);
  }

  /** isType's fallback to detectType adds nothing: every type detectType
      can give is lower case and a key of the update, so isType is exactly
      "the lower-cased name is a key". */
  lemma IsTypeIsKeyTest(u: Update, t: string)
    ensures u.IsType(t) <==> u.Has(ToLower(t))
  {
    if u.DetectType() == Some(t) {
      TypesAreLowerCase(t);
    }
  }

  // ---------------------------------------------------------------------
  // getMessage and getChat
  // ---------------------------------------------------------------------

  /** For every update whose last listed key is one of the message kinds,
      getMessage is the field of that kind. */
  lemma MessageOfLastListed(u: Update, i: nat)
    requires i < |u.items| && u.items[i].key in TYPES && u.items[i].key in MESSAGE_TYPES
    requires forall j :: i < j < |u.items| ==> u.items[j].key !in TYPES
    ensures u.GetMessage() == u.Get(u.items[i].key)
  {
    DetectTypeIsLastListed(u, i);
    assert u.items[i].key != "callback_query";
  }

  /** For every update whose last listed key is callback_query, getMessage is
      the callback's message, or the empty collection when it has none. */
  lemma CallbackOfLastListed(u: Update, i: nat)
    requires i < |u.items| && u.items[i].key == "callback_query"
    requires forall j :: i < j < |u.items| ==> u.items[j].key !in TYPES
    ensures var m := Property(u.Get("callback_query"), "message");
            && (m != JNull ==> u.GetMessage() == m)
            && (m == JNull ==> u.GetMessage() == EMPTY)
  {
    assert TYPES[6] == "callback_query";
    DetectTypeIsLastListed(u, i);
  }

  /** The listed kinds that are neither a message kind nor callback_query
      are exactly poll_answer, my_chat_member, chat_member and
      chat_join_request; when one of them is the last listed key, getMessage
      falls to the empty default. */
  lemma OtherOfLastListed(u: Update, i: nat)
    requires i < |u.items| && u.items[i].key in TYPES
    requires u.items[i].key !in MESSAGE_TYPES && u.items[i].key != "callback_query"
    requires forall j :: i < j < |u.items| ==> u.items[j].key !in TYPES
    ensures u.items[i].key in ["poll_answer", "my_chat_member", "chat_member", "chat_join_request"]
    ensures u.GetMessage() == EMPTY
  {
    DetectTypeIsLastListed(u, i);
  }

  /** Without my_chat_member, the chat of any update whose last listed key is
      a message kind is that message's chat. */
  lemma ChatOfLastListedMessage(u: Update, i: nat, fields: seq<Field>, chat: Json)
    requires !u.Has("my_chat_member")
    requires i < |u.items| && u.items[i].key in TYPES && u.items[i].key in MESSAGE_TYPES
    requires forall j :: i < j < |u.items| ==> u.items[j].key !in TYPES
    requires u.Get(u.items[i].key) == JObject(fields) && Lookup(fields, "chat") == Some(chat)
    ensures u.GetChat() == chat
  {
    MessageOfLastListed(u, i);
  }

  /** Without my_chat_member, the chat of any update whose last listed key is
      callback_query is the chat of the callback's message. */
  lemma ChatOfLastListedCallback(u: Update, i: nat, callback: seq<Field>, message: seq<Field>, chat: Json)
    requires !u.Has("my_chat_member")
    requires i < |u.items| && u.items[i].key == "callback_query"
    requires forall j :: i < j < |u.items| ==> u.items[j].key !in TYPES
    requires u.Get("callback_query") == JObject(callback)
    requires Lookup(callback, "message") == Some(JObject(message))
    requires Lookup(message, "chat") == Some(chat)
    ensures u.GetChat() == chat
  {
    CallbackOfLastListed(u, i);
  }

  /** With no listed key, there is no message and (without my_chat_member)
      no chat. */
  lemma NoListedKeyIsEmpty(u: Update)
    requires forall j :: 0 <= j < |u.items| ==> u.items[j].key !in TYPES
    ensures u.DetectType() == None && u.GetMessage() == EMPTY && u.GetChat() == EMPTY
  {
    assert "my_chat_member" in TYPES;
    assert !u.Has("my_chat_member");
  }

  /** An update holding its id and one listed field is of that field's
      type. */
  lemma SingleField(u: Update, id: int, key: string, v: Json)
    requires u.items == [Field("update_id", JInt(id)), Field(key, v)]
    requires key in TYPES
    ensures u.DetectType() == Some(key) && u.Get(key) == v
    ensures u.Has("my_chat_member") <==> key == "my_chat_member"
  {
    assert Keys(u.items) == ["update_id", key];
    DetectTypeIsLastListed(u, 1);
  }

  /** A plain message update: getMessage gives the message field, and
      nothing else decides the chat. */
  lemma MessageUpdate(u: Update, id: int, message: Json)
    requires u.items == [Field("update_id", JInt(id)), Field("message", message)]
    ensures u.GetMessage() == message && !u.Has("my_chat_member")
  {
    assert TYPES[0] == "message";
    SingleField(u, id, "message", message);
  }

  /** For a callback query, the message is the callback's own message. */
  lemma CallbackMessage(u: Update, id: int, callback: seq<Field>, m: Json)
    requires u.items == [Field("update_id", JInt(id)), Field("callback_query", JObject(callback))]
    requires Lookup(callback, "message") == Some(m) && m != JNull
    ensures u.DetectType() == Some("callback_query") && u.GetMessage() == m
  {
    CallbackSingle(u, id, callback);
    CallbackOfLastListed(u, 1);
    assert Property(JObject(callback), "message") == m;
  }

  lemma CallbackSingle(u: Update, id: int, callback: seq<Field>)
    requires u.items == [Field("update_id", JInt(id)), Field("callback_query", JObject(callback))]
    ensures u.DetectType() == Some("callback_query") && u.Get("callback_query") == JObject(callback)
  {
    assert TYPES[6] == "callback_query";
    DetectTypeIsLastListed(u, 1);
  }

  /** A callback query without a message gives the empty collection. */
  lemma CallbackWithoutMessage(u: Update, id: int, callback: seq<Field>)
    requires u.items == [Field("update_id", JInt(id)), Field("callback_query", JObject(callback))]
    requires "message" !in Keys(callback)
    ensures u.GetMessage() == EMPTY && u.GetChat() == EMPTY
  {
    assert TYPES[6] == "callback_query";
    SingleField(u, id, "callback_query", JObject(callback));
  }

  /** A plain message update: its chat is the message's chat. */
  lemma MessageChat(u: Update, id: int, message: seq<Field>, chat: Json)
    requires u.items == [Field("update_id", JInt(id)), Field("message", JObject(message))]
    requires Lookup(message, "chat") == Some(chat)
    ensures u.GetChat() == chat
  {
    MessageUpdate(u, id, JObject(message));
  }

  /** my_chat_member decides the chat whatever else is there: after a
      message it also hides the message (detectType picks my_chat_member,
      whose getMessage arm is the default)... */
  lemma MemberAfterMessage(u: Update, id: int, message: Json, member: Json)
    requires u.items == [Field("update_id", JInt(id)), Field("message", message), Field("my_chat_member", member)]
    ensures u.DetectType() == Some("my_chat_member")
    ensures u.GetMessage() == EMPTY
    ensures u.GetChat() == Property(member, "chat")
  {
    assert Keys(u.items) == ["update_id", "message", "my_chat_member"];
    assert TYPES[11] == "my_chat_member";
    DetectTypeIsLastListed(u, 2);
    assert "my_chat_member" !in MESSAGE_TYPES;
  }

  /** ...and before a message it leaves the message to getMessage but still
      gives the member's chat, not the message's. */
  lemma MemberBeforeMessage(u: Update, id: int, message: Json, member: Json)
    requires u.items == [Field("update_id", JInt(id)), Field("my_chat_member", member), Field("message", message)]
    ensures u.DetectType() == Some("message")
    ensures u.GetMessage() == message
    ensures u.GetChat() == Property(member, "chat")
  {
    assert Keys(u.items) == ["update_id", "my_chat_member", "message"];
    assert TYPES[0] == "message";
    DetectTypeIsLastListed(u, 2);
    assert u.Get("message") == message;
  }

  // ---------------------------------------------------------------------
  // hasCommand
  // ---------------------------------------------------------------------

  /** For every update whose message holds an entity list, hasCommand holds
      exactly when one of those entities has type bot_command (`true` also
      compares equal to it). */
  lemma CommandOfMessage(u: Update, fields: seq<Field>, entities: seq<Json>)
    requires u.GetMessage() == JObject(fields)
    requires Lookup(fields, "entities") == Some(JList(entities))
    ensures u.HasCommand()
            <==> exists k :: 0 <= k < |entities| && EqualsBotCommand(Property(entities[k], "type"))
  {
    assert CollectionGet(JObject(fields), "entities", EMPTY) == JList(entities);
  }

  /** A message update has a command exactly when one of the message's
      entities has type bot_command (`true` also compares equal to it). */
  lemma MessageCommand(u: Update, id: int, fields: seq<Field>, entities: seq<Json>)
    requires u.items == [Field("update_id", JInt(id)), Field("message", JObject(fields))]
    requires Lookup(fields, "entities") == Some(JList(entities))
    ensures u.HasCommand()
            <==> exists k :: 0 <= k < |entities| && EqualsBotCommand(Property(entities[k], "type"))
  {
    MessageUpdate(u, id, JObject(fields));
    CommandOfMessage(u, fields, entities);
  }

  /** A message without entities has no command. */
  lemma NoEntitiesNoCommand(u: Update, id: int, fields: seq<Field>)
    requires u.items == [Field("update_id", JInt(id)), Field("message", JObject(fields))]
    requires "entities" !in Keys(fields)
    ensures !u.HasCommand()
  {
    MessageUpdate(u, id, JObject(fields));
  }
}
