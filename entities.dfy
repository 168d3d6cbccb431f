/**
 * The message entity formatter of src/Helpers/Entities.php: a message text and
 * the entities Telegram attached to it are turned into Markdown (mode 0) or
 * HTML (mode 1) by splicing a per-type template over every covered range.
 *
 * Text is a sequence of characters, counted the way mb_strlen and mb_substr
 * count them.
 */
module Helpers {
  import opened Wrappers

  /** A Telegram message entity as the formatter reads it: `url` is only read
      for text_link, `username` (the entity's `user.username`) only for
      text_mention; a missing one is PHP's null. */
  datatype Entity = Entity(
    offset: int,
    length: int,
    kind: string,
    url: Option<string>,
    username: Option<string>)

  /** One part of a sprintf format: literal text, or a `%s` conversion that
      prints argument number `arg` (1-based; a plain `%s` is written with the
      position it consumes, `%2$s` with 2). */
  datatype Piece = Lit(text: string) | Arg(arg: nat)

  type Template = seq<Piece>

  const MARKDOWN: int := 0
  const HTML: int := 1

  predicate ValidMode(mode: int) {
    mode == MARKDOWN || mode == HTML
  }

  // ---------------------------------------------------------------------
  // PHP helpers the formatter is built from
  // ---------------------------------------------------------------------

  function Max0(x: int): nat {
    if x < 0 then 0 else x
  }

  /** PHP 8's mb_substr(s, start, length): a negative start counts back from
      the end (floored at 0), a negative length stops that many characters
      before the end, a start past the end gives "", and the length is cut at
      the end of the text. */
  function MbSubstr(s: string, start: int, length: int): (r: string)
    ensures |r| <= |s|
    ensures 0 <= start && 0 <= length && start + length <= |s| ==> r == s[start..start + length]
    ensures start > |s| ==> r == ""
  {
    var n := |s|;
    var st := if start < 0 then Max0(n + start) else start;
    var ln := if length < 0 then Max0(n - st + length) else length;
    if st > n then "" else s[st..st + (if ln < n - st then ln else n - st)]
  }

  /** sprintf restricted to `%s` conversions: every argument is a string and
      is printed as it is. A conversion without an argument prints nothing
      (sprintf would throw; the table below never asks for one, see
      SyntaxUsesSuppliedArgs). */
  function Sprintf(format: Template, args: seq<string>): (r: string)
    decreases |format|
  {
    if format == [] then "" else Print(format[0], args) + Sprintf(format[1..], args)
  }

  /** What one piece of a format prints. */
  function Print(p: Piece, args: seq<string>): string {
    match p
    case Lit(s) => s
    case Arg(i) => if 1 <= i <= |args| then args[i - 1] else ""
  }

  // ---------------------------------------------------------------------
  // The syntax table (Entities::syntax)
  // ---------------------------------------------------------------------

  /** Every entity type the formatter knows, with its (Markdown, HTML)
      templates. The types url, bot_command, hashtag, cashtag, email,
      phone_number and mention have no entry. */
  const SYNTAX: map<string, (Template, Template)> := map[
    "bold" := ([Lit("*"), Arg(1), Lit("*")], [Lit("<strong>"), Arg(1), Lit("</strong>")]),
    "italic" := ([Lit("_"), Arg(1), Lit("_")], [Lit("<i>"), Arg(1), Lit("</i>")]),
    "code" := ([Lit("`"), Arg(1), Lit("`")], [Lit("<code>"), Arg(1), Lit("</code>")]),
    "pre" := ([Lit("```\n"), Arg(1), Lit("```")], [Lit("<pre>"), Arg(1), Lit("</pre>")]),
    "spoiler" := ([Lit("||"), Arg(1), Lit("||")], [Lit("<tg-spoiler>"), Arg(1), Lit("</tg-spoiler>")]),
    "text_mention" := (
      [Lit("["), Arg(1), Lit("](tg://user?id="), Arg(1), Lit(")")],
      [Lit("<a href=\"tg://user?id="), Arg(1), Lit("\">"), Arg(1), Lit("</a>")]),
    "text_link" := (
      [Lit("["), Arg(1), Lit("]("), Arg(2), Lit(")")],
      [Lit("<a href=\""), Arg(2), Lit("\">"), Arg(1), Lit("</a>")]),
    "underline" := ([Lit("_"), Arg(1), Lit("_")], [Lit("<u>"), Arg(1), Lit("</u>")]),
    "strikethrough" := ([Lit("~"), Arg(1), Lit("~")], [Lit("<s>"), Arg(1), Lit("</s>")]),
    "block_quote" := ([Lit(">"), Arg(1)], [Lit("<blockquote>"), Arg(1), Lit("</blockquote>")])
  ]

  predicate Known(kind: string) {
    kind in SYNTAX
  }

  predicate AllKnown(es: seq<Entity>) {
    forall i :: 0 <= i < |es| ==> Known(es[i].kind)
  }

  /** `$syntax[$type][$this->mode]` */
  function TemplateFor(kind: string, mode: int): (t: Template)
    requires Known(kind) && ValidMode(mode)
    ensures t != [] && t[0].Lit? && t[0].text != ""
    ensures forall p :: p in t && p.Arg? ==> p.arg == 1 || (kind == "text_link" && p.arg == 2)
  {
    if mode == MARKDOWN then SYNTAX[kind].0 else SYNTAX[kind].1
  }

  /** The sprintf arguments apply passes: the covered text and the url for
      text_link, only the username for text_mention, the covered text
      otherwise. A missing url or username is null, which prints as "". */
  function Args(e: Entity, value: string): (args: seq<string>)
    ensures 1 <= |args| <= 2 && (|args| == 2 <==> e.kind == "text_link")
    ensures e.kind != "text_mention" ==> args[0] == value
  {
    if e.kind == "text_link" then [value, e.url.GetOr("")]
    else if e.kind == "text_mention" then [e.username.GetOr("")]
    else [value]
  }

  /** The replacement apply computes for entity `e` covering `value`. */
  function Replacement(e: Entity, value: string, mode: int): string
    requires Known(e.kind) && ValidMode(mode)
  {
    Sprintf(TemplateFor(e.kind, mode), Args(e, value))
  }

  // ---------------------------------------------------------------------
  // substrReplace
  // ---------------------------------------------------------------------

  /** The start substrReplace works with: negative counts back from the end
      (floored at 0), past the end becomes the end. */
  function ClampStart(n: nat, start: int): (st: nat)
    ensures st <= n
  {
    if start < 0 then Max0(n + start)
    else if start > n then n
    else start
  }

  /** The length substrReplace works with: negative stops that many characters
      before the end, null or longer than the text means the whole text, and
      the range is then cut at the end of the text. */
  function ClampLength(n: nat, st: nat, length: Option<int>): (ln: nat)
    requires st <= n
    ensures st + ln <= n
  {
    var l :=
      if length.Some? && length.value < 0 then Max0(n - st + length.value)
      else if length.None? || length.value > n then n
      else length.value;
    if st + l > n then n - st else l
  }

  /** Entities::substrReplace without an explicit encoding: the first `st`
      characters, the replacement, then everything after the `ln` replaced
      characters, where `st` and `ln` are the clamped start and length. */
  function SubstrReplace(s: string, replacement: string, start: int, length: Option<int>): (r: string)
    ensures var st := ClampStart(|s|, start);
            var ln := ClampLength(|s|, st, length);
            && r == s[..st] + replacement + s[st + ln..]
            && |r| == |s| - ln + |replacement|
  {
    var n := |s|;
    var st := ClampStart(n, start);
    var ln := ClampLength(n, st, length);
    MbSubstr(s, 0, st) + replacement + MbSubstr(s, st + ln, n - st - ln)
  }

  // ---------------------------------------------------------------------
  // apply, as a function of the text and the entity list
  // ---------------------------------------------------------------------

  /** One iteration of apply's loop: take the covered text, render it, splice
      the rendering back over the covered range. */
  function Step(text: string, e: Entity, mode: int): string
    requires Known(e.kind) && ValidMode(mode)
  {
    var value := MbSubstr(text, e.offset, e.length);
    SubstrReplace(text, Replacement(e, value, mode), e.offset, Some(e.length))
  }

  /** What apply leaves in the text: the list is walked in reverse, so the
      entities after the first are all applied before the first one is. */
  function Render(text: string, es: seq<Entity>, mode: int): string
    requires AllKnown(es) && ValidMode(mode)
    decreases |es|
  {
    if es == [] then text
    else Step(Render(text, es[1..], mode), es[0], mode)
  }

  // ---------------------------------------------------------------------
  // The Entities object
  // ---------------------------------------------------------------------

  class Entities {
    /** Message or caption; apply overwrites it after every splice. */
    var text: string
    /** Entities from Telegram; null until withEntities is called. */
    var entities: Option<seq<Entity>>
    /** Formatting mode: 0 Markdown, 1 HTML. */
    var mode: int

    constructor (text: string)
      ensures this.text == text && entities == None && mode == MARKDOWN
    {
      this.text := text;
      entities := None;
      mode := MARKDOWN;
    }

    /** Entities::format, the static factory. */
    static method Format(text: string) returns (f: Entities)
      ensures fresh(f)
      ensures f.text == text && f.entities == None && f.mode == MARKDOWN
    {
      f := new Entities(text);
    }

    method WithEntities(es: seq<Entity>) returns (self: Entities)
      modifies this
      ensures self == this
      ensures entities == Some(es) && text == old(text) && mode == old(mode)
    {
      entities := Some(es);
      self := this;
    }

    method ToMarkdown() returns (r: string)
      requires entities.Some? && AllKnown(entities.value)
      modifies this
      ensures mode == MARKDOWN && entities == old(entities)
      ensures r == text == Render(old(text), entities.value, MARKDOWN)
    {
      mode := MARKDOWN;
      r := Apply();
    }

    method ToHTML() returns (r: string)
      requires entities.Some? && AllKnown(entities.value)
      modifies this
      ensures mode == HTML && entities == old(entities)
      ensures r == text == Render(old(text), entities.value, HTML)
    {
      mode := HTML;
      r := Apply();
    }

    /** Walks the entity list from its last element to its first, splicing
        each rendering into `text`. */
    method Apply() returns (r: string)
      requires entities.Some? && AllKnown(entities.value) && ValidMode(mode)
      modifies this`text
      ensures r == text == Render(old(text), entities.value, mode)
    {
      var syntax := SYNTAX;
      var es := entities.value;
      var i := |es|;
      while i > 0
        invariant 0 <= i <= |es|
        invariant text == Render(old(text), es[i..], mode)
      {
        i := i - 1;
        var e := es[i];
        var value := MbSubstr(text, e.offset, e.length);
        var pair := syntax[e.kind];
        var template := if mode == MARKDOWN then pair.0 else pair.1;
        var replacement := Sprintf(template, Args(e, value));
        text := SubstrReplace(text, replacement, e.offset, Some(e.length));
        assert es[i..][1..] == es[i + 1..];
      }
      assert es[0..] == es;
      r := text;
    }
  }
}
