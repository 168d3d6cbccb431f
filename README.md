# Telegram Bot SDK: entity formatter, response exceptions, updates

A Dafny model of three parts of the PHP Telegram Bot SDK, with proofs of what
they promise.

- **The entity formatter** (`Helpers` in `entities.dfy`, properties in
  `entities_properties.dfy` and `entities_examples.dfy`). It takes a message
  text and the entities Telegram attached to it (offset, length, type, and a
  url or user). It renders the text as Markdown (mode 0) or HTML (mode 1). It
  walks the entity list from last to first. For each entity it takes the
  covered characters with `mb_substr` and prints them through the type's
  template from the syntax table with `sprintf`. It then splices the result
  back with `substrReplace`, which clamps its start and length instead of
  failing.
  - `Entities` is a class whose `text`, `entities` and `mode` fields the
    methods update.
  - `Apply` is the loop. It is proved against `Render`, a function of the
    original text and the list.
  - The properties are stated about `Render`, `Step` and `SubstrReplace`.
- **The response exception** (`ResponseExceptions` in
  `response_exception.dfy`, properties in
  `response_exception_properties.dfy`).
  - `create` reads `error_code` and `description` from a failed response
    body. It then picks the exception class through a first-match cascade of
    23 arms on the description, with the base class as default. The arms
    hold 28 case-sensitive substring tests and one loose equality
    (`== 'Unauthorized'`). The class becomes a `Kind`; the cascade is the list of arms
    `Arms()`.
  - The constructor reads the message and code with defaults, and `get` and
    `getErrorType` read the body with defaults.
- **The update object** (`Updates` in `update.dfy`, properties in
  `update_properties.dfy`). An update is its fields in the order they were
  decoded.
  - `detectType` is the last of the 14 listed types among its keys.
  - `objectType` is the first key other than `update_id`, cached in the
    `updateType` field.
  - `isType`, `getMessage`, `getChat` and `hasCommand` are read from these.

Text is a sequence of characters, counted the way `mb_strlen` and
`mb_substr` count them.

How the formatter behaves at its edges:
- **Order.** Entities are applied in reverse list order, and the list is
  not sorted first. `AdjacentDescending` shows a descending list giving a
  different result from the same entities listed in ascending order.
- **Bounds.** A range past the end of the text is clamped, not rejected.
  `PastTheEndIsClamped` shows this.
- **Unknown types.** A type missing from the table is not passed through.
  It is a precondition (`Known`) of every operation.
- **Independence.** For disjoint entities listed in ascending order, the
  result is proved equal to the independent left-to-right rendering
  (`RenderIsInterleave`). In other orders it is not.
- **Nesting.** Nested ranges are not supported. An inner entity is
  spliced first, and the outer entity's length still counts characters of
  the changed text, so the markup comes out broken (`NestedBreaksMarkup`).

## Model

| member | source | states |
|---|---|---|
| Helpers.MbSubstr | src/Helpers/Entities.php:77 | inside the text, `mb_substr` is exactly the slice from `start` of `length` characters; a start past the end gives ""; the result is never longer than the text |
| Helpers.Sprintf | src/Helpers/Entities.php:80-82 | `sprintf` with `%s` and `%n$s` conversions of string arguments; SprintfAppend, SprintfFive and WrappingPrints state how a format prints piece by piece, and SyntaxUsesSuppliedArgs that no conversion of the table lacks its argument |
| Helpers.Args | src/Helpers/Entities.php:79-83 | the `match ($type)` arguments: two (covered text, url) exactly for text_link, otherwise one, and the first is the covered text for every type but text_mention |
| Helpers.Replacement | src/Helpers/Entities.php:79-83 | the formatted replacement of one entity; WrapsCoveredText, TextLinkMarkdown, TextLinkHtml, TextMentionMarkdown and TextMentionHtml state it for every type |
| Helpers.TemplateFor | src/Helpers/Entities.php:122-139 | `$syntax[$type][$mode]`: every template opens with a non-empty literal, and its conversions all print the first argument, except text_link's, which may print the second |
| Helpers.Step | src/Helpers/Entities.php:77-85 | one iteration of apply's loop; StepInRange, StepPastEnd and StepKeepsPrefix state what it does to in-range entities, to entities running past the end, and to the text before the offset |
| Helpers.Render | src/Helpers/Entities.php:76-86 | the text apply leaves, the last entity applied first; LastEntityFirst, RenderKeepsPrefix and RenderIsInterleave state its properties, and Apply is proved equal to it |
| Helpers.SubstrReplace | src/Helpers/Entities.php:91-116 | the result is the first `st` characters, then the replacement, then everything after `st + ln`, where `st` and `ln` are the clamped start and length; its length is the text's length, less `ln`, plus the replacement's length |
| Helpers.Entities.constructor | src/Helpers/Entities.php:21-24 | the new formatter holds the text, no entities, and mode 0 |
| Helpers.Entities.Format | src/Helpers/Entities.php:30-33 | a fresh formatter over the text, with no entities and Markdown mode |
| Helpers.Entities.WithEntities | src/Helpers/Entities.php:39-44 | stores the list and returns the same object; text and mode are unchanged |
| Helpers.Entities.ToMarkdown | src/Helpers/Entities.php:50-55 | sets mode 0; the result and the new text are the Markdown rendering of the old text by the stored list |
| Helpers.Entities.ToHTML | src/Helpers/Entities.php:61-66 | sets mode 1; the result and the new text are the HTML rendering of the old text by the stored list |
| Helpers.Entities.Apply | src/Helpers/Entities.php:72-89 | the loop over the reversed list leaves `text` equal to `Render` of the old text, applying the last entity first, and returns it |
| EntityProperties.NoEntitiesKeepText | src/Helpers/Entities.php:72-88 | with an empty entity list the text comes back unchanged |
| EntityProperties.SubstrReplaceInRange | src/Helpers/Entities.php:111-112 | inside the text, the first `start` characters and everything after `start + length` are kept verbatim around the replacement |
| EntityProperties.SubstrReplaceStartPastEnd | src/Helpers/Entities.php:97-109 | a start past the end becomes the end: the replacement is appended |
| EntityProperties.SubstrReplaceToEnd | src/Helpers/Entities.php:103-109 | a null length, or one running past the end, replaces everything up to the end |
| EntityProperties.SubstrReplaceNegativeStart | src/Helpers/Entities.php:95-96 | a negative start counts back from the end, floored at 0 |
| EntityProperties.SubstrReplaceNegativeLength | src/Helpers/Entities.php:101-102 | a negative length keeps that many characters before the end (none before the start) |
| EntityProperties.SyntaxUsesSuppliedArgs | src/Helpers/Entities.php:79-83 | every template of the table asks only for arguments that apply passes, so no conversion lacks its argument |
| EntityProperties.TextLinkMarkdown | src/Helpers/Entities.php:134 | text_link in Markdown is `[covered text](url)` |
| EntityProperties.TextLinkHtml | src/Helpers/Entities.php:134 | text_link in HTML is `<a href="url">covered text</a>`: the arguments are swapped by `%2$s`/`%1$s` |
| EntityProperties.TextMentionMarkdown | src/Helpers/Entities.php:133 | text_mention ignores the covered text and prints the username as label and as `tg://user?id=` target |
| EntityProperties.TextMentionHtml | src/Helpers/Entities.php:133 | likewise in HTML: the username fills both slots |
| EntityProperties.SyntaxWraps | src/Helpers/Entities.php:127-137 | every other table entry is a non-empty opening literal, the covered text, and at most one closing literal |
| EntityProperties.WrapsCoveredText | src/Helpers/Entities.php:82 | for those types, the rendering is `open + value + close`, with markers that do not depend on the value and a non-empty opening |
| EntityProperties.LastEntityFirst | src/Helpers/Entities.php:76 | the last entity of the list is spliced first, into the text as given |
| EntityProperties.StepKeepsPrefix | src/Helpers/Entities.php:85 | a splice at or after position `p` keeps the first `p` characters |
| EntityProperties.RenderKeepsPrefix | src/Helpers/Entities.php:76-86 | whatever the list's order, the text before the smallest offset is unchanged |
| EntityProperties.OffsetsStillAddressOriginal | src/Helpers/Entities.php:76-77 | for an ascending disjoint list, when entity i is reached its offset and length still address its original characters |
| EntityProperties.StepInRange | src/Helpers/Entities.php:77-85 | one iteration over an in-range entity replaces exactly the covered characters by their rendering |
| EntityProperties.StepPastEnd | src/Helpers/Entities.php:107-109 | an entity running past the end renders the rest of the text and is cut there |
| EntityProperties.RenderIsInterleave | src/Helpers/Entities.php:72-89 | for an ascending disjoint list, apply equals an independent left-to-right reference: the gaps verbatim, each range replaced by the rendering of its own original characters |
| EntityExamples.BoldFirstWord | src/Helpers/Entities.php:128 | bold over the first word gives `*word*rest` in Markdown and `<strong>word</strong>rest` in HTML |
| EntityExamples.LinkLastWord | src/Helpers/Entities.php:134 | a text_link over the last word gives `before[word](url)` and `before<a href="url">word</a>` |
| EntityExamples.PastTheEndIsClamped | src/Helpers/Entities.php:107-109 | bold running past the end wraps the rest of the text instead of failing |
| EntityExamples.AdjacentAscending | src/Helpers/Entities.php:76 | italic then bold over adjacent words, listed ascending, gives `_a_*b*` |
| EntityExamples.AdjacentDescending | src/Helpers/Entities.php:76 | the same entities listed descending give `_*a*_b`: the list is not sorted |
| EntityExamples.NestedBreaksMarkup | src/Helpers/Entities.php:76-85 | bold over "ab" listed before italic over "b" gives `*a_*b_`: the inner splice runs first and bold's stale length closes it inside the italic markup |
| ResponseExceptions.Isset | src/Exceptions/TelegramResponseException.php:61 | `isset`: the key is present and its value is not null; Get and ErrorDetails are stated through it |
| ResponseExceptions.Contains | src/Exceptions/TelegramResponseException.php:66 | `str_contains`: the phrase occurs at some position; AsString supplies the text searched for a null or boolean message, and ContainsSpliced and AbsentChar state when it holds |
| ResponseExceptions.Get | src/Exceptions/TelegramResponseException.php:43-46 | `??`: the stored value when the key is set, the default when it is absent or null |
| ResponseExceptions.AsString | src/Exceptions/TelegramResponseException.php:66 | a string message is searched as itself; null and false are searched as "" |
| ResponseExceptions.TriggersAt | src/Exceptions/TelegramResponseException.php:69-91 | the tests of each arm, joined by `||`: one to three per arm; OnlyLooseEquality states which one is not a substring test |
| ResponseExceptions.Arms | src/Exceptions/TelegramResponseException.php:68-93 | the 23 arms in the order they are tried, arm i holding the class of rank i and its tests |
| ResponseExceptions.LooseEquals | src/Exceptions/TelegramResponseException.php:91 | PHP's `==` against a non-numeric string (the cascade only compares with 'Unauthorized'): null equals only "", a boolean compares with the string's truthiness, an integer with its decimal form, a string with itself; BoolMessages, IntMessageIsGeneric and UnauthorizedIsCaseSensitive state its consequences |
| ResponseExceptions.Fires | src/Exceptions/TelegramResponseException.php:66-91 | one test of an arm: `$has(phrase)` on the message as text, or the loose `== 'Unauthorized'`; OnlyLooseEquality says which test is which |
| ResponseExceptions.Matches | src/Exceptions/TelegramResponseException.php:69-91 | an arm's tests joined by `||`: some test fires; ClassifyIsFirstMatch and ClassifyIsGeneric state the cascade in terms of it |
| ResponseExceptions.FirstMatch | src/Exceptions/TelegramResponseException.php:68-93 | the position found is an arm that matches, and no arm before it matches |
| ResponseExceptions.Classify | src/Exceptions/TelegramResponseException.php:68-93 | a non-default class is that of a matching arm with no matching arm before it |
| ResponseExceptions.ErrorDetails | src/Exceptions/TelegramResponseException.php:59-64 | only a body with `ok` false and a set `error_code` yields a code and message; a missing description becomes 'Unknown error from API.'; otherwise both are null |
| ResponseExceptions.NewException | src/Exceptions/TelegramResponseException.php:24-33 | the message is the description, else 'Unknown error from API Response.'; the code is `error_code`, else -1 |
| ResponseExceptions.Create | src/Exceptions/TelegramResponseException.php:55-96 | the exception's class is the classification of the extracted message; the previous exception carries the extracted message and code |
| ResponseExceptions.ErrorType | src/Exceptions/TelegramResponseException.php:113-116 | the body's `type`, or '' when it is not set |
| ResponseExceptionProperties.ClassifyIsGeneric | src/Exceptions/TelegramResponseException.php:92 | the default class is chosen exactly when no arm matches |
| ResponseExceptionProperties.ClassifyIsFirstMatch | src/Exceptions/TelegramResponseException.php:68-93 | arm i's class is chosen exactly when arm i matches and no earlier arm does |
| ResponseExceptionProperties.OnlyLooseEquality | src/Exceptions/TelegramResponseException.php:69-91 | a test of the cascade is the loose equality exactly when it is the first test of the last arm, and that test compares with 'Unauthorized'; every other test is a substring test |
| ResponseExceptionProperties.EarlierArmWins | src/Exceptions/TelegramResponseException.php:68-93 | when two arms match, the later one is never chosen |
| ResponseExceptionProperties.BlockedShadowsChatNotFound | src/Exceptions/TelegramResponseException.php:71-76 | a description with both "blocked by the user" and "chat not found" is never ChatNotFound |
| ResponseExceptionProperties.BlockedByUser | src/Exceptions/TelegramResponseException.php:69-71 | "blocked by the user" without an earlier arm's phrase gives BotBlockedByUser |
| ResponseExceptionProperties.BlockedBetween | src/Exceptions/TelegramResponseException.php:69-71 | "blocked by the user" between two texts without the letter 'm' (so neither earlier phrase can occur) gives BotBlockedByUser |
| ResponseExceptionProperties.BlockedAndChatNotFound | src/Exceptions/TelegramResponseException.php:71-76 | "Forbidden: bot was blocked by the user; chat not found" is BotBlockedByUser |
| ResponseExceptionProperties.LastArm | src/Exceptions/TelegramResponseException.php:91 | on a message without markers, the Unauthorized arm matches exactly when the message loosely equals 'Unauthorized' |
| ResponseExceptionProperties.UnmarkedClassify | src/Exceptions/TelegramResponseException.php:66-92 | a message containing none of the characters every phrase needs is Unauthorized if it equals 'Unauthorized', generic otherwise |
| ResponseExceptionProperties.UnknownErrorIsGeneric | src/Exceptions/TelegramResponseException.php:63-92 | 'Unknown error from API.' matches no arm |
| ResponseExceptionProperties.UnauthorizedMatches | src/Exceptions/TelegramResponseException.php:91 | 'Unauthorized' is classified Unauthorized |
| ResponseExceptionProperties.UnauthorizedIsCaseSensitive | src/Exceptions/TelegramResponseException.php:91 | 'unauthorized' is generic: the comparison is case-sensitive |
| ResponseExceptionProperties.UnauthorizedIsWhole | src/Exceptions/TelegramResponseException.php:91 | 'Unauthorized' followed by non-empty text without any of the characters every phrase of the cascade needs (so no phrase can occur) is generic: the equality test needs the whole message |
| ResponseExceptionProperties.NullMessageIsGeneric | src/Exceptions/TelegramResponseException.php:59-66 | a null message is searched as "" and is generic |
| ResponseExceptionProperties.IntMessageIsGeneric | src/Exceptions/TelegramResponseException.php:66-92 | a numeric description is generic |
| ResponseExceptionProperties.BoolMessages | src/Exceptions/TelegramResponseException.php:66-92 | a description of true compares loosely equal to 'Unauthorized'; false is generic |
| ResponseExceptionProperties.TextTooLongPhrases | src/Exceptions/TelegramResponseException.php:73 | once earlier arms are ruled out, any of three phrases gives TextTooLong, and nothing else does |
| ResponseExceptionProperties.MessageToDeletePhrases | src/Exceptions/TelegramResponseException.php:77 | once earlier arms are ruled out, either of two phrases gives MessageToDeleteNotFound, and nothing else does |
| ResponseExceptionProperties.NotAFailureIsGeneric | src/Exceptions/TelegramResponseException.php:59-92 | without `ok` false and an `error_code`, message and code stay null and the class is the base one |
| ResponseExceptionProperties.MissingDescriptionIsGeneric | src/Exceptions/TelegramResponseException.php:61-92 | a failure without description is generic; the previous exception says 'Unknown error from API.'; the exception's message is 'Unknown error from API Response.' |
| ResponseExceptionProperties.FailureUsesDescription | src/Exceptions/TelegramResponseException.php:61-95 | a failure with a description is classified by it and carries it as message |
| Updates.Property | src/Objects/Update.php:140-149 | magic property access on a decoded object: null when the value is not an object or lacks the key, otherwise a value stored under that key |
| Updates.CollectionHas | src/Objects/Update.php:179 | Collection `has`: the key exists, whatever its value; GetChat's contract is stated through it |
| Updates.CollectionGet | src/Objects/Update.php:179-190 | Collection `get($key, $default)`: the default when the key is missing, otherwise a value stored under that key |
| Updates.Elements | src/Objects/Update.php:190 | the items a collection iterates over; CommandOfMessage states `contains` over them |
| Updates.EqualsBotCommand | src/Objects/Update.php:190 | PHP 8 loose `==` against 'bot_command': a string only when it is that text, and `true` also compares equal; CommandOfMessage and MessageCommand state hasCommand through it |
| Updates.Intersect | src/Objects/Update.php:127-128 | keeps exactly the keys that are listed |
| Updates.Pop | src/Objects/Update.php:129 | the last element, or null for an empty list |
| Updates.First | src/Objects/Update.php:97 | the first element, or null for an empty list |
| Updates.KeysExcept | src/Objects/Update.php:95-96 | exactly the keys other than the excluded one |
| Updates.ToLower | src/Objects/Update.php:80 | `strtolower`: every ASCII upper-case letter is lowered, nothing else changes |
| Updates.Update.Has | src/Objects/Update.php:80 | `has($key)`: the key is one of the update's keys, even with a null value; IsTypeIsKeyTest and GetChat's contract are stated through it |
| Updates.Update.Get | src/Objects/Update.php:140-149 | magic property access on the update: null when the field is missing, otherwise a value stored under that key |
| Updates.Update.IsType | src/Objects/Update.php:78-85 | a lower-cased name that is a key makes it true; when it holds, the lower-cased name is a key or the name is a listed type that is a key (IsTypeIsKeyTest sharpens this to an equivalence) |
| Updates.Update.GetMessage | src/Objects/Update.php:137-153 | with no listed key, and for a listed kind that is neither a message kind nor callback_query, the result is the empty collection |
| Updates.Update.GetChat | src/Objects/Update.php:171-180 | for every update holding my_chat_member, the chat is that field's chat, whatever else is there; otherwise the chat is the message's `chat` when the message has that key, and the empty collection when it does not |
| Updates.Update.HasCommand | src/Objects/Update.php:188-191 | a command needs a detected type and a message holding an entity list |
| Updates.Update.ObjectType | src/Objects/Update.php:92-101 | computes the first key other than `update_id` when nothing is cached, stores it, and otherwise returns the cached value |
| Updates.Update.DetectType | src/Objects/Update.php:108-130 | the type found is one of the 14 and a key of the update; null exactly when no key is listed |
| UpdateProperties.IntersectEndsWithLast | src/Objects/Update.php:127-129 | the intersection keeps the update's order, so it ends with the last listed key |
| UpdateProperties.DetectTypeIsLastListed | src/Objects/Update.php:108-130 | detectType is the last key, in the update's order, among the listed types |
| UpdateProperties.BusinessMessageNeverDetected | src/Objects/Update.php:110-125 | detectType never yields business_message |
| UpdateProperties.BusinessMessageUpdateIsEmpty | src/Objects/Update.php:137-152 | a business-message update has no message and no chat: the business_message arm is unreachable |
| UpdateProperties.FirstKeyExcept | src/Objects/Update.php:95-97 | the first key other than `update_id` is the first one past the leading `update_id` keys |
| UpdateProperties.ObjectTypeTwice | src/Objects/Update.php:92-101 | two calls agree; the first computes from the keys unless a value was already cached |
| UpdateProperties.TypesAreLowerCase | src/Objects/Update.php:110-125 | every listed type is lower case |
| UpdateProperties.IsTypeIsKeyTest | src/Objects/Update.php:78-85 | isType(t) holds exactly when the lower-cased t is a key; the detectType fallback adds nothing |
| UpdateProperties.MessageOfLastListed | src/Objects/Update.php:137-153 | for every update whose last listed key is a message kind (message, edited_message, channel_post, edited_channel_post, inline_query, chosen_inline_result, shipping_query, pre_checkout_query, poll), getMessage is that field |
| UpdateProperties.CallbackOfLastListed | src/Objects/Update.php:146 | for every update whose last listed key is callback_query, getMessage is the callback's message, or the empty collection when it is null or missing |
| UpdateProperties.OtherOfLastListed | src/Objects/Update.php:137-153 | the remaining listed kinds are exactly poll_answer, my_chat_member, chat_member and chat_join_request, and they give the empty collection |
| UpdateProperties.ChatOfLastListedMessage | src/Objects/Update.php:171-180 | without my_chat_member, the chat of every update whose last listed key is a message kind is that message's chat |
| UpdateProperties.ChatOfLastListedCallback | src/Objects/Update.php:146-179 | without my_chat_member, the chat of every update whose last listed key is callback_query is the chat of the callback's message |
| UpdateProperties.NoListedKeyIsEmpty | src/Objects/Update.php:137-180 | without a listed key there is no type, no message, and no chat |
| UpdateProperties.SingleField | src/Objects/Update.php:108-130 | an update with its id and one listed field is of that field's type |
| UpdateProperties.MessageUpdate | src/Objects/Update.php:139-140 | a message update's getMessage is its message field |
| UpdateProperties.CallbackMessage | src/Objects/Update.php:146 | for a callback query, getMessage is the callback's own message |
| UpdateProperties.CallbackWithoutMessage | src/Objects/Update.php:146 | a callback query without a message gives the empty collection, and no chat |
| UpdateProperties.MessageChat | src/Objects/Update.php:177-179 | the chat of a message update is the message's chat |
| UpdateProperties.MemberAfterMessage | src/Objects/Update.php:173-175 | my_chat_member after a message hides the message and decides the chat |
| UpdateProperties.MemberBeforeMessage | src/Objects/Update.php:173-175 | my_chat_member before a message leaves the message but still decides the chat |
| UpdateProperties.CommandOfMessage | src/Objects/Update.php:188-191 | for every update whose message holds an entity list, hasCommand holds exactly when one of its entities has type bot_command |
| UpdateProperties.MessageCommand | src/Objects/Update.php:188-191 | hasCommand holds exactly when some entity of the message has type bot_command |
| UpdateProperties.NoEntitiesNoCommand | src/Objects/Update.php:190 | a message without entities has no command |

## Left out

- Entity types missing from the syntax table. `apply` has no guard for
  them: PHP would warn and print a null format. The model instead requires
  every entity type to be a table key (`Known`, `AllKnown`).
- Calling `apply` before `withEntities`, which leaves the list null.
  `ToMarkdown`, `ToHTML` and `Apply` require the list to be set.
- Byte and UTF-16 offsets, and the explicit `$encoding` branch of
  `substrReplace`. Text is a sequence of characters, and both branches
  compute the same thing on it.
- `sprintf` beyond `%s` conversions of string arguments. A missing argument
  would throw in PHP; the model prints "" for it, and
  `SyntaxUsesSuppliedArgs` shows that this never happens.
- The HTTP response object: `TelegramResponse` decoding, `getHttpStatusCode`,
  `getRawResponse` and `getResponse`. `getResponseData` is the
  `responseData` field of `ResponseException`, and the decoded body is a
  parameter.
- `new $exception(...)`. The class create picks is a `Kind`.
  `TooManyRequestException` (a nested array read) is not part of this model.
- Floating-point and array values in the decoded response body. `Value`
  holds null, booleans, integers and strings.
- The BaseObject and Collection machinery: magic property access,
  `relations()` hydration into typed objects, `recentMessage` and
  `getRelatedObject`. The update is its decoded fields. A property is the
  decoded value under the key, and the Collection calls are modelled by
  their meaning on a key sequence. `BusinessMessagesDeleted` is not part of
  this model.
- Distinct keys. A decoded PHP array never repeats a key, but the model
  does not require an update's fields, or a decoded object's fields, to
  have distinct keys. Where a key repeats, a lookup reads the first field
  with that key, while `detectType` and `objectType` see every copy. The
  lemmas state their results through the same lookup, so they hold for
  any field list.
