/**
 * The error classification of src/Exceptions/TelegramResponseException.php:
 * a failed Bot API response body is mapped to the exception kind that `create`
 * instantiates, by a first-match cascade of substring tests on the error
 * description, and the exception's own message, code and error type are read
 * from the body with defaults.
 */
module ResponseExceptions {
  import opened Wrappers

  // ---------------------------------------------------------------------
  // The decoded response body
  // ---------------------------------------------------------------------

  /** A scalar of the decoded JSON body, as PHP holds it. */
  datatype Value = Null | Bool(b: bool) | Int(i: int) | Str(s: string)

  /** The decoded body: an associative array from keys to values. */
  type Body = map<string, Value>

  /** `isset($data[$key])`: present and not null. */
  predicate Isset(data: Body, key: string) {
    key in data && data[key] != Null
  }

  /** `$data[$key] ?? $default`: the value when it is set, else the default. */
  function Get(data: Body, key: string, default: Value): (r: Value)
    ensures Isset(data, key) ==> r == data[key]
    ensures !Isset(data, key) ==> r == default
    ensures r == Null ==> default == Null
  {
    if Isset(data, key) then data[key] else default
  }

  // ---------------------------------------------------------------------
  // PHP's view of a value as a string
  // ---------------------------------------------------------------------

  /** The decimal digit for `d`. */
  function Digit(d: nat): (c: char)
    requires d < 10
    ensures '0' <= c <= '9'
  {
    ('0' as int + d) as char
  }

  function NatToDecimal(n: nat): (r: string)
    ensures r != [] && forall k :: 0 <= k < |r| ==> '0' <= r[k] <= '9'
    decreases n
  {
    if n < 10 then [Digit(n)] else NatToDecimal(n / 10) + [Digit(n % 10)]
  }

  /** How an integer prints: optional minus sign, then decimal digits. */
  function IntToDecimal(i: int): (r: string)
    ensures forall k :: 0 <= k < |r| ==> r[k] == '-' || '0' <= r[k] <= '9'
  {
    if i < 0 then "-" + NatToDecimal(-i) else NatToDecimal(i)
  }

  /** The string a value becomes when passed where a string is expected:
      null and false give "", true gives "1", an integer its digits. */
  function AsString(v: Value): (r: string)
    ensures v.Str? ==> r == v.s
    ensures v.Null? || v == Bool(false) ==> r == ""
  {
    match v
    case Null => ""
    case Bool(b) => if b then "1" else ""
    case Int(i) => IntToDecimal(i)
    case Str(s) => s
  }

  /** `$v == $s` for a string `s` that is not numeric: null is compared as "",
      a boolean with the truth value of `s`, anything else as strings. */
  predicate LooseEquals(v: Value, s: string) {
    match v
    case Null => s == ""
    case Bool(b) => b == (s != "" && s != "0")
    case Int(i) => IntToDecimal(i) == s
    case Str(t) => t == s
  }

  // ---------------------------------------------------------------------
  // Substring containment (str_contains)
  // ---------------------------------------------------------------------

  /** `str_contains($s, $p)`: `p` occurs at some position of `s`; the test
      is case-sensitive and the empty needle occurs everywhere. */
  predicate Contains(s: string, p: string) {
    exists i | 0 <= i <= |s| - |p| :: OccursAt(s, p, i)
  }

  predicate OccursAt(s: string, p: string, i: int) {
    0 <= i <= |s| - |p| && s[i..i + |p|] == p
  }

  lemma ContainsSpliced(a: string, p: string, b: string)
    ensures Contains(a + p + b, p)
  {
    var s := a + p + b;
    assert OccursAt(s, p, |a|) by {
      assert s[|a|..|a| + |p|] == p;
    }
  }

  /** A phrase with a character the text lacks does not occur in it. */
  lemma AbsentChar(s: string, p: string, c: char)
    requires c in p && c !in s
    ensures !Contains(s, p)
  {
    var k :| 0 <= k < |p| && p[k] == c;
    forall i | 0 <= i <= |s| - |p|
      ensures !OccursAt(s, p, i)
    {
      assert s[i..i + |p|][k] == s[i + k] && s[i + k] in s;
    }
  }

  // ---------------------------------------------------------------------
  // The classification cascade (TelegramResponseException::create)
  // ---------------------------------------------------------------------

  /** The exception classes create can pick; Generic is `static::class`,
      the response exception itself. */
  datatype Kind =
    | MessageToCopyNotFound | MessageToEditNotFound | BotBlockedByUser
    | UserDeactivated | TextTooLong | TooManyRequest | UserNotFound
    | ChatNotFound | MessageToDeleteNotFound | MessageToForwardNotFound
    | QueryOld | MessageMarkupIdentical | MessageToReplyNotFound
    | MessageToReactNotFound | MessageCantBeForwarded | MessageCantBeCopied
    | VoiceMessageForbidden | NoWriteAccess | BotKickedFromGroup
    | BotKickedFromChannel | QuoteInvalid | NotEnoughRights | Unauthorized
    | Generic

  /** One test of an arm: `$has(phrase)`, or `$message == text`. */
  datatype Trigger = Has(phrase: string) | Equals(text: string)

  /** One arm of the match: its class and the tests joined by `||`. */
  datatype Arm = Arm(kind: Kind, triggers: seq<Trigger>)

  /** The position of a kind's arm among the arms; the default comes last. */
  function Rank(k: Kind): nat {
    match k
    case MessageToCopyNotFound => 0
    case MessageToEditNotFound => 1
    case BotBlockedByUser => 2
    case UserDeactivated => 3
    case TextTooLong => 4
    case TooManyRequest => 5
    case UserNotFound => 6
    case ChatNotFound => 7
    case MessageToDeleteNotFound => 8
    case MessageToForwardNotFound => 9
    case QueryOld => 10
    case MessageMarkupIdentical => 11
    case MessageToReplyNotFound => 12
    case MessageToReactNotFound => 13
    case MessageCantBeForwarded => 14
    case MessageCantBeCopied => 15
    case VoiceMessageForbidden => 16
    case NoWriteAccess => 17
    case BotKickedFromGroup => 18
    case BotKickedFromChannel => 19
    case QuoteInvalid => 20
    case NotEnoughRights => 21
    case Unauthorized => 22
    case Generic => 23
  }

  /** The class of arm `i` of create's `match (true)`, counting from 0 in
      the order the arms are tried. */
  function KindAt(i: nat): (k: Kind)
    requires i < 23
    ensures Rank(k) == i
  {
    match i
    case 0 => MessageToCopyNotFound
    case 1 => MessageToEditNotFound
    case 2 => BotBlockedByUser
    case 3 => UserDeactivated
    case 4 => TextTooLong
    case 5 => TooManyRequest
    case 6 => UserNotFound
    case 7 => ChatNotFound
    case 8 => MessageToDeleteNotFound
    case 9 => MessageToForwardNotFound
    case 10 => QueryOld
    case 11 => MessageMarkupIdentical
    case 12 => MessageToReplyNotFound
    case 13 => MessageToReactNotFound
    case 14 => MessageCantBeForwarded
    case 15 => MessageCantBeCopied
    case 16 => VoiceMessageForbidden
    case 17 => NoWriteAccess
    case 18 => BotKickedFromGroup
    case 19 => BotKickedFromChannel
    case 20 => QuoteInvalid
    case 21 => NotEnoughRights
    case _ => Unauthorized
  }

  /** The tests of arm `i`, joined by `||` in the source: one to three per
      arm, all substring tests except the loose `== 'Unauthorized'` that
      opens the last arm (OnlyLooseEquality). */
  function TriggersAt(i: nat): (ts: seq<Trigger>)
    requires i < 23
    ensures 1 <= |ts| <= 3
  {
    match i
    case 0 => [Has("message to copy not found")]
    case 1 => [Has("message to edit not found")]
    case 2 => [Has("blocked by the user")]
    case 3 => [Has("user is deactivated"), Has("USER_DEACTIVATED")]
    case 4 => [Has("message is too long"), Has("caption is too long"), Has("_TOO_LONG")]
    case 5 => [Has("Too Many Requests")]
    case 6 => [Has("user not found")]
    case 7 => [Has("chat not found")]
    case 8 => [Has("message to delete not found"), Has("deleted for everyone")]
    case 9 => [Has("message to forward not found")]
    case 10 => [Has("query is too old")]
    case 11 => [Has("reply markup are exactly the same")]
    case 12 => [Has("message to reply not found")]
    case 13 => [Has("message to react not found")]
    case 14 => [Has("message can't be forwarded")]
    case 15 => [Has("message can't be copied")]
    case 16 => [Has("VOICE_MESSAGES_FORBIDDEN")]
    case 17 => [Has("no write access")]
    case 18 => [Has("kicked from the supergroup"), Has("kicked from the group")]
    case 19 => [Has("kicked from the channel")]
    case 20 => [Has("QUOTE_TEXT_INVALID")]
    case 21 => [Has("not enough rights")]
    case _ => [Equals("Unauthorized"), Has("SESSION_REVOKED")]
  }

  /** The arms of create's `match (true)`, in the order they are tried. */
  function Arms(): (arms: seq<Arm>)
    ensures |arms| == 23
    ensures forall i :: 0 <= i < 23 ==> arms[i] == Arm(KindAt(i), TriggersAt(i))
  {
    seq(23, i requires 0 <= i < 23 => Arm(KindAt(i), TriggersAt(i)))
  }

  /** Whether a test succeeds on the message; str_contains reads the message
      as a string, so a null message is searched as "". */
  predicate Fires(t: Trigger, message: Value) {
    match t
    case Has(p) => Contains(AsString(message), p)
    case Equals(s) => LooseEquals(message, s)
  }

  predicate Matches(arm: Arm, message: Value) {
    exists k :: 0 <= k < |arm.triggers| && Fires(arm.triggers[k], message)
  }

  /** The position of the first arm from `from` on that matches, or
      `|arms|` when none does. */
  function FirstMatch(arms: seq<Arm>, from: nat, message: Value): (r: nat)
    requires from <= |arms|
    ensures from <= r <= |arms|
    ensures r < |arms| ==> Matches(arms[r], message)
    ensures forall j :: from <= j < r ==> !Matches(arms[j], message)
    decreases |arms| - from
  {
    if from == |arms| then |arms|
    else if Matches(arms[from], message) then from
    else FirstMatch(arms, from + 1, message)
  }

  /** The class create picks for a message: that of the first arm that
      matches, or Generic (the `default`, ranked after every arm) when none
      does. */
  function Classify(message: Value): (k: Kind)
    ensures k != Generic ==> Rank(k) < 23 && Arms()[Rank(k)].kind == k && Matches(Arms()[Rank(k)], message)
    ensures forall j :: 0 <= j < 23 && j < Rank(k) ==> !Matches(Arms()[j], message)
  {
    var arms := Arms();
    var i := FirstMatch(arms, 0, message);
    if i < |arms| then
      assert Rank(arms[i].kind) == Rank(KindAt(i)) == i;
      arms[i].kind
    else Generic
  }

  /** The message create uses for a failure without a description. */
  const UNKNOWN_ERROR: string := "Unknown error from API."

  /** The message the constructor uses for a body without a description. */
  const UNKNOWN_RESPONSE_ERROR: string := "Unknown error from API Response."

  /** The error code and message create extracts: only a body with `ok`
      set to false and a set `error_code` carries them; a missing or null
      description becomes 'Unknown error from API.'. */
  datatype Details = Details(code: Value, message: Value)

  function ErrorDetails(data: Body): (d: Details)
    ensures Isset(data, "ok") && Isset(data, "error_code") && data["ok"] == Bool(false)
            ==> d.code == data["error_code"] && d.code != Null && d.message != Null
                && (Isset(data, "description") ==> d.message == data["description"])
                && (!Isset(data, "description") ==> d.message == Str(UNKNOWN_ERROR))
    ensures !(Isset(data, "ok") && Isset(data, "error_code") && data["ok"] == Bool(false))
            ==> d == Details(Null, Null)
  {
    if Isset(data, "ok") && Isset(data, "error_code") && data["ok"] == Bool(false) then
      Details(data["error_code"], Get(data, "description", Str(UNKNOWN_ERROR)))
    else Details(Null, Null)
  }

  // ---------------------------------------------------------------------
  // The exception object
  // ---------------------------------------------------------------------

  /** A TelegramResponseException (or the subclass `kind`): the decoded
      body it was built from, the message and code its constructor read, and
      the previous exception create attaches. */
  datatype ResponseException = ResponseException(
    kind: Kind,
    responseData: Body,
    message: Value,
    code: Value,
    previous: Option<Details>)

  /** The constructor: the message is the description, else
      'Unknown error from API Response.'; the code is error_code, else -1. */
  function NewException(kind: Kind, data: Body, previous: Option<Details>): (ex: ResponseException)
    ensures ex.kind == kind && ex.responseData == data && ex.previous == previous
    ensures Isset(data, "description") ==> ex.message == data["description"]
    ensures !Isset(data, "description") ==> ex.message == Str(UNKNOWN_RESPONSE_ERROR)
    ensures Isset(data, "error_code") ==> ex.code == data["error_code"]
    ensures !Isset(data, "error_code") ==> ex.code == Int(-1)
  {
    ResponseException(
      kind, data,
      Get(data, "description", Str(UNKNOWN_RESPONSE_ERROR)),
      Get(data, "error_code", Int(-1)),
      previous)
  }

  /** create: classify the extracted message and build the exception, with
      the extracted message and code as the previous exception. */
  function Create(data: Body): (ex: ResponseException)
    ensures ex.responseData == data
    ensures ex.previous == Some(ErrorDetails(data))
    ensures ex.kind == Classify(ErrorDetails(data).message)
  {
    var d := ErrorDetails(data);
    NewException(Classify(d.message), data, Some(d))
  }

  /** getErrorType: the body's `type`, else "". */
  function ErrorType(ex: ResponseException): (r: Value)
    ensures Isset(ex.responseData, "type") ==> r == ex.responseData["type"]
    ensures !Isset(ex.responseData, "type") ==> r == Str("")
  {
    Get(ex.responseData, "type", Str(""))
  }
}
