/**
 * What the entity formatter of src/Helpers/Entities.php guarantees: how
 * substrReplace clamps, in which order apply visits the entities, which part
 * of the text stays untouched, what each template makes of the covered text,
 * and, for an ascending list of disjoint entities, that the result is the
 * text with every covered range replaced by its own rendering.
 */
module EntityProperties {
  import opened Wrappers
  import opened Helpers

  function End(e: Entity): int {
    e.offset + e.length
  }

  predicate InBounds(e: Entity, n: int) {
    0 <= e.offset && 0 <= e.length && End(e) <= n
  }

  /** Every entity of `es` starts at or after the end of the one before it
      (the first at or after `from`) and ends inside a text of length `n`. */
  predicate ChainedFrom(es: seq<Entity>, from: int, n: int)
    decreases |es|
  {
    if es == [] then from <= n
    else from <= es[0].offset && InBounds(es[0], n) && ChainedFrom(es[1..], End(es[0]), n)
  }

  /** The list is ascending by offset, its ranges are pairwise disjoint and
      all of them lie inside a text of length `n` (the order Telegram sends). */
  predicate Chained(es: seq<Entity>, n: int) {
    ChainedFrom(es, 0, n)
  }

  /** ChainedFrom says exactly: inside the text, at or after `from`, and each
      range ends before any later one starts. */
  lemma {:induction false} ChainedFromMeans(es: seq<Entity>, from: int, n: int)
    ensures ChainedFrom(es, from, n) <==>
              && from <= n
              && (es != [] ==> from <= es[0].offset)
              && (forall i :: 0 <= i < |es| ==> InBounds(es[i], n))
              && (forall i, j :: 0 <= i < j < |es| ==> End(es[i]) <= es[j].offset)
    decreases |es|
  {
    if es != [] {
      var rest := es[1..];
      ChainedFromMeans(rest, End(es[0]), n);
      assert forall i :: 0 <= i < |rest| ==> rest[i] == es[i + 1];
      if ChainedFrom(es, from, n) {
        forall i, j | 0 <= i < j < |es|
          ensures End(es[i]) <= es[j].offset
        {
          if i > 0 {
            assert End(rest[i - 1]) <= rest[j - 1].offset;
          } else if j > 1 {
            assert End(es[0]) <= rest[0].offset <= End(rest[0]) <= rest[j - 1].offset;
          }
        }
      }
      if && from <= n && from <= es[0].offset
         && (forall i :: 0 <= i < |es| ==> InBounds(es[i], n))
         && (forall i, j :: 0 <= i < j < |es| ==> End(es[i]) <= es[j].offset)
      {
        assert End(es[0]) <= n;
        assert forall i, j :: 0 <= i < j < |rest| ==> End(rest[i]) <= rest[j].offset by {
          forall i, j | 0 <= i < j < |rest| ensures End(rest[i]) <= rest[j].offset {
            assert End(es[i + 1]) <= es[j + 1].offset;
          }
        }
        if rest != [] {
          assert End(es[0]) <= es[1].offset;
        }
      }
    }
  }

  // ---------------------------------------------------------------------
  // substrReplace
  // ---------------------------------------------------------------------

  /** Inside the text, substrReplace keeps the first `start` characters and
      everything after `start + length` verbatim, with the replacement
      between them. */
  lemma SubstrReplaceInRange(s: string, replacement: string, start: int, length: int)
    requires 0 <= start && 0 <= length && start + length <= |s|
    ensures SubstrReplace(s, replacement, start, Some(length))
            == s[..start] + replacement + s[start + length..]
    ensures |SubstrReplace(s, replacement, start, Some(length))| == |s| - length + |replacement|
  {
  }

  /** Out-of-range arguments are clamped, never rejected: a start past the
      end appends the replacement. */
  lemma SubstrReplaceStartPastEnd(s: string, replacement: string, start: int, length: Option<int>)
    requires start > |s|
    ensures SubstrReplace(s, replacement, start, length) == s + replacement
  {
    assert s[..|s|] == s;
  }

  /** A null length, or one running past the end, replaces up to the end. */
  lemma SubstrReplaceToEnd(s: string, replacement: string, start: int, length: Option<int>)
    requires 0 <= start <= |s|
    requires length.None? || length.value >= |s| - start
    ensures SubstrReplace(s, replacement, start, length) == s[..start] + replacement
  {
  }

  /** A negative start counts back from the end, floored at 0. */
  lemma SubstrReplaceNegativeStart(s: string, replacement: string, start: int, length: Option<int>)
    requires start < 0
    ensures SubstrReplace(s, replacement, start, length)
            == SubstrReplace(s, replacement, Max0(|s| + start), length)
  {
  }

  /** A negative length leaves that many characters before the end (none
      of them before the start). */
  lemma SubstrReplaceNegativeLength(s: string, replacement: string, start: int, length: int)
    requires 0 <= start <= |s| && length < 0
    ensures var keep := if start < |s| + length then |s| + length else start;
            SubstrReplace(s, replacement, start, Some(length)) == s[..start] + replacement + s[keep..]
  {
  }

  // ---------------------------------------------------------------------
  // Templates
  // ---------------------------------------------------------------------

  lemma {:induction false} SprintfAppend(a: Template, b: Template, args: seq<string>)
    ensures Sprintf(a + b, args) == Sprintf(a, args) + Sprintf(b, args)
    decreases |a|
  {
    if a == [] {
      assert a + b == b;
    } else {
      var ab := a + b;
      assert ab[0] == a[0] && ab[1..] == a[1..] + b;
      SprintfAppend(a[1..], b, args);
      calc {
        Sprintf(ab, args);
        Print(a[0], args) + Sprintf(a[1..] + b, args);
        Print(a[0], args) + (Sprintf(a[1..], args) + Sprintf(b, args));
      }
    }
  }

  /** Every template of the table asks only for arguments apply supplies, so
      sprintf never runs out of arguments. */
  lemma SyntaxUsesSuppliedArgs(e: Entity, value: string, mode: int)
    requires Known(e.kind) && ValidMode(mode)
    ensures forall p :: p in TemplateFor(e.kind, mode) && p.Arg? ==> 1 <= p.arg <= |Args(e, value)|
  {
  }

  /** A five-piece template prints its pieces in order. */
  lemma SprintfFive(t: Template, args: seq<string>)
    requires |t| == 5
    ensures Sprintf(t, args)
            == Print(t[0], args) + Print(t[1], args) + Print(t[2], args) + Print(t[3], args) + Print(t[4], args)
  {
    assert t[1..][1..] == t[2..] && t[2..][1..] == t[3..] && t[3..][1..] == t[4..] && t[4..][1..] == [];
    calc {
      Sprintf(t, args);
      Print(t[0], args) + Sprintf(t[1..], args);
      Print(t[0], args) + (Print(t[1], args) + Sprintf(t[2..], args));
      Print(t[0], args) + (Print(t[1], args) + (Print(t[2], args) + Sprintf(t[3..], args)));
      Print(t[0], args) + (Print(t[1], args) + (Print(t[2], args) + (Print(t[3], args) + Sprintf(t[4..], args))));
      Print(t[0], args) + (Print(t[1], args) + (Print(t[2], args) + (Print(t[3], args) + (Print(t[4], args) + Sprintf([], args)))));
    }
  }

  /** text_link in Markdown: the covered text is the label, the url the
      target. */
  lemma TextLinkMarkdown(e: Entity, value: string)
    requires e.kind == "text_link"
    ensures Replacement(e, value, MARKDOWN) == "[" + value + "](" + e.url.GetOr("") + ")"
  {
    var args := [value, e.url.GetOr("")];
    assert Args(e, value) == args;
    SprintfFive(TemplateFor(e.kind, MARKDOWN), args);
  }

  /** text_link in HTML: the template takes its two arguments in the
      opposite order, url first. */
  lemma TextLinkHtml(e: Entity, value: string)
    requires e.kind == "text_link"
    ensures Replacement(e, value, HTML) == "<a href=\"" + e.url.GetOr("") + "\">" + value + "</a>"
  {
    var args := [value, e.url.GetOr("")];
    assert Args(e, value) == args;
    SprintfFive(TemplateFor(e.kind, HTML), args);
  }

  /** text_mention in Markdown: the covered text is dropped; the username is
      both the label and the tg://user?id= target. */
  lemma TextMentionMarkdown(e: Entity, value: string)
    requires e.kind == "text_mention"
    ensures var u := e.username.GetOr("");
            Replacement(e, value, MARKDOWN) == "[" + u + "](tg://user?id=" + u + ")"
  {
    var args := [e.username.GetOr("")];
    assert Args(e, value) == args;
    SprintfFive(TemplateFor(e.kind, MARKDOWN), args);
  }

  /** text_mention in HTML, likewise. */
  lemma TextMentionHtml(e: Entity, value: string)
    requires e.kind == "text_mention"
    ensures var u := e.username.GetOr("");
            Replacement(e, value, HTML) == "<a href=\"tg://user?id=" + u + "\">" + u + "</a>"
  {
    var args := [e.username.GetOr("")];
    assert Args(e, value) == args;
    SprintfFive(TemplateFor(e.kind, HTML), args);
  }

  /** A template that prints a non-empty literal, its first argument, and
      possibly one more literal. */
  predicate Wrapping(t: Template) {
    && (|t| == 2 || (|t| == 3 && t[2].Lit?))
    && t[0].Lit? && t[0].text != "" && t[1] == Arg(1)
  }

  lemma WrappingPrints(t: Template, value: string)
    requires Wrapping(t)
    ensures Sprintf(t, [value]) == t[0].text + value + (if |t| == 3 then t[2].text else "")
  {
    assert t == [t[0]] + [t[1]] + t[2..];
    SprintfAppend([t[0]] + [t[1]], t[2..], [value]);
    SprintfAppend([t[0]], [t[1]], [value]);
    if |t| == 3 {
      assert t[2..] == [t[2]] + [];
      SprintfAppend([t[2]], [], [value]);
    }
  }

  /** Every table entry except text_link and text_mention is a wrapping
      template, in both modes. */
  lemma SyntaxWraps(kind: string, mode: int)
    requires Known(kind) && ValidMode(mode)
    requires kind != "text_link" && kind != "text_mention"
    ensures Wrapping(TemplateFor(kind, mode))
  {
  }

  /** Every other known type wraps the covered text, unchanged, between a
      non-empty opening marker and a closing marker that do not depend on it. */
  lemma WrapsCoveredText(e: Entity, mode: int) returns (open: string, close: string)
    requires Known(e.kind) && ValidMode(mode)
    requires e.kind != "text_link" && e.kind != "text_mention"
    ensures open != ""
    ensures forall value :: Replacement(e, value, mode) == open + value + close
  {
    var t := TemplateFor(e.kind, mode);
    SyntaxWraps(e.kind, mode);
    open := t[0].text;
    close := if |t| == 3 then t[2].text else "";
    forall value
      ensures Replacement(e, value, mode) == open + value + close
    {
      assert Args(e, value) == [value];
      WrappingPrints(t, value);
    }
  }

  // ---------------------------------------------------------------------
  // Order and untouched text
  // ---------------------------------------------------------------------

  /** With no entities, apply leaves the text as it was. */
  lemma NoEntitiesKeepText(text: string, mode: int)
    requires ValidMode(mode)
    ensures AllKnown([])
    ensures Render(text, [], mode) == text
  {
  }

  /** apply walks the list in reverse: the last entity is spliced first, into
      the text as it was given. */
  lemma {:induction false} LastEntityFirst(text: string, es: seq<Entity>, e: Entity, mode: int)
    requires AllKnown(es) && Known(e.kind) && ValidMode(mode)
    ensures AllKnown(es + [e])
    ensures Render(text, es + [e], mode) == Render(Step(text, e, mode), es, mode)
    decreases |es|
  {
    if es == [] {
      assert [e][1..] == [];
    } else {
      assert (es + [e])[1..] == es[1..] + [e];
      LastEntityFirst(text, es[1..], e, mode);
    }
  }

  /** A splice at or after position `p` keeps the first `p` characters. */
  lemma StepKeepsPrefix(text: string, e: Entity, mode: int, p: nat)
    requires Known(e.kind) && ValidMode(mode)
    requires p <= |text| && p <= e.offset
    ensures p <= |Step(text, e, mode)|
    ensures Step(text, e, mode)[..p] == text[..p]
  {
  }

  /** Whatever the order of the list, the text before the smallest offset
      comes out of apply unchanged. */
  lemma {:induction false} RenderKeepsPrefix(text: string, es: seq<Entity>, mode: int, p: nat)
    requires AllKnown(es) && ValidMode(mode)
    requires p <= |text|
    requires forall i :: 0 <= i < |es| ==> p <= es[i].offset
    ensures p <= |Render(text, es, mode)|
    ensures Render(text, es, mode)[..p] == text[..p]
    decreases |es|
  {
    if es != [] {
      RenderKeepsPrefix(text, es[1..], mode, p);
      var before := Render(text, es[1..], mode);
      StepKeepsPrefix(before, es[0], mode, p);
      assert before[..p] == text[..p];
    }
  }

  /** In an ascending list of disjoint entities, entity i lies inside the
      text and every later entity starts at or after its end. */
  lemma LaterEntitiesStartAfter(es: seq<Entity>, n: int, i: nat, rest: seq<Entity>)
    requires Chained(es, n) && i < |es| && rest == es[i + 1..]
    ensures InBounds(es[i], n)
    ensures forall k :: 0 <= k < |rest| ==> End(es[i]) <= rest[k].offset
  {
    ChainedFromMeans(es, 0, n);
    forall k | 0 <= k < |rest|
      ensures End(es[i]) <= rest[k].offset
    {
      assert rest[k] == es[i + 1 + k];
    }
  }

  /** Two texts that agree on their first `p` characters agree on any range
      ending by `p`. */
  lemma SamePrefixSubstr(a: string, b: string, offset: int, length: int, p: nat)
    requires 0 <= offset && 0 <= length && offset + length == p
    requires p <= |a| && p <= |b| && a[..p] == b[..p]
    ensures MbSubstr(a, offset, length) == MbSubstr(b, offset, length)
  {
    assert a[offset..p] == a[..p][offset..p];
    assert b[offset..p] == b[..p][offset..p];
  }

  /** For an ascending list of disjoint entities, when apply reaches entity i
      (all later ones already spliced) its offset and length still address
      the characters it covered in the original text. */
  lemma OffsetsStillAddressOriginal(text: string, es: seq<Entity>, mode: int, i: nat)
    requires AllKnown(es) && ValidMode(mode)
    requires Chained(es, |text|) && i < |es|
    ensures var current := Render(text, es[i + 1..], mode);
            && End(es[i]) <= |current|
            && MbSubstr(current, es[i].offset, es[i].length) == MbSubstr(text, es[i].offset, es[i].length)
  {
    var e := es[i];
    var rest := es[i + 1..];
    LaterEntitiesStartAfter(es, |text|, i, rest);
    RenderKeepsPrefix(text, rest, mode, End(e));
    SamePrefixSubstr(Render(text, rest, mode), text, e.offset, e.length, End(e));
  }

  /** A splice inside the text: the covered characters are replaced by their
      rendering, everything around them is kept. */
  lemma StepInRange(text: string, e: Entity, mode: int)
    requires Known(e.kind) && ValidMode(mode)
    requires InBounds(e, |text|)
    ensures Step(text, e, mode)
            == text[..e.offset] + Replacement(e, text[e.offset..End(e)], mode) + text[End(e)..]
  {
    var value := MbSubstr(text, e.offset, e.length);
    assert value == text[e.offset..End(e)];
    SubstrReplaceInRange(text, Replacement(e, value, mode), e.offset, e.length);
  }

  /** A list of one entity renders as that entity's splice. */
  lemma RenderSingle(text: string, e: Entity, mode: int)
    requires Known(e.kind) && ValidMode(mode)
    ensures AllKnown([e])
    ensures Render(text, [e], mode) == Step(text, e, mode)
  {
    assert [e][1..] == [];
  }

  /** A single entity inside the text. */
  lemma RenderOne(text: string, e: Entity, mode: int)
    requires Known(e.kind) && ValidMode(mode)
    requires InBounds(e, |text|)
    ensures AllKnown([e])
    ensures Render(text, [e], mode)
            == text[..e.offset] + Replacement(e, text[e.offset..End(e)], mode) + text[End(e)..]
  {
    RenderSingle(text, e, mode);
    StepInRange(text, e, mode);
  }

  lemma SpliceBetween(before: string, value: string, after: string, r: string)
    ensures var text := before + value + after;
            && text[|before|..|before| + |value|] == value
            && text[..|before|] + r + text[|before| + |value|..] == before + r + after
  {
    var text := before + value + after;
    assert text[..|before|] == before;
    assert text[|before| + |value|..] == after;
  }

  lemma SpliceAtStart(value: string, after: string, r: string)
    ensures (value + after)[0..|value|] == value
    ensures (value + after)[..0] + r + (value + after)[|value|..] == r + after
  {
    assert (value + after)[|value|..] == after;
  }

  lemma SpliceAtEnd(before: string, value: string, r: string, n: int)
    requires n == |before| + |value|
    ensures (before + value)[|before|..n] == value
    ensures (before + value)[..|before|] + r + (before + value)[n..] == before + r
  {
    assert (before + value)[..|before|] == before;
  }

  /** Splicing an entity over `value`, between `before` and `after`. */
  lemma StepIs(before: string, value: string, after: string, e: Entity, mode: int)
    requires Known(e.kind) && ValidMode(mode)
    requires e.offset == |before| && e.length == |value|
    ensures Step(before + value + after, e, mode) == before + Replacement(e, value, mode) + after
  {
    StepInRange(before + value + after, e, mode);
    SpliceBetween(before, value, after, Replacement(e, value, mode));
  }

  /** Splicing an entity over the start of the text. */
  lemma StepAtStart(value: string, after: string, e: Entity, mode: int)
    requires Known(e.kind) && ValidMode(mode)
    requires e.offset == 0 && e.length == |value|
    ensures Step(value + after, e, mode) == Replacement(e, value, mode) + after
  {
    StepInRange(value + after, e, mode);
    SpliceAtStart(value, after, Replacement(e, value, mode));
  }

  /** Splicing an entity over the end of the text. */
  lemma StepAtEnd(before: string, value: string, e: Entity, mode: int)
    requires Known(e.kind) && ValidMode(mode)
    requires e.offset == |before| && e.length == |value|
    ensures Step(before + value, e, mode) == before + Replacement(e, value, mode)
  {
    StepInRange(before + value, e, mode);
    SpliceAtEnd(before, value, Replacement(e, value, mode), End(e));
  }

  /** mb_substr from `|before|` with a length reaching the end or beyond
      gives the rest of the text. */
  lemma MbSubstrToEnd(before: string, value: string, length: int)
    requires length >= |value|
    ensures MbSubstr(before + value, |before|, length) == value
    ensures (before + value)[..|before|] == before
  {
    assert (before + value)[|before|..|before + value|] == value;
  }

  /** An entity whose range runs past the end of the text is cut at the end:
      the rest of the text is rendered and nothing follows it. */
  lemma StepPastEnd(before: string, value: string, e: Entity, mode: int)
    requires Known(e.kind) && ValidMode(mode)
    requires e.offset == |before| && e.length >= |value|
    ensures Step(before + value, e, mode) == before + Replacement(e, value, mode)
  {
    MbSubstrToEnd(before, value, e.length);
    SubstrReplaceToEnd(before + value, Replacement(e, value, mode), |before|, Some(e.length));
  }

  /** A single entity over `value`, between `before` and `after`. */
  lemma RenderOneIs(before: string, value: string, after: string, e: Entity, mode: int)
    requires Known(e.kind) && ValidMode(mode)
    requires e.offset == |before| && e.length == |value|
    ensures AllKnown([e])
    ensures Render(before + value + after, [e], mode) == before + Replacement(e, value, mode) + after
  {
    RenderSingle(before + value + after, e, mode);
    StepIs(before, value, after, e, mode);
  }

  /** A single entity over the start of the text. */
  lemma RenderAtStart(value: string, after: string, e: Entity, mode: int)
    requires Known(e.kind) && ValidMode(mode)
    requires e.offset == 0 && e.length == |value|
    ensures AllKnown([e])
    ensures Render(value + after, [e], mode) == Replacement(e, value, mode) + after
  {
    RenderSingle(value + after, e, mode);
    StepAtStart(value, after, e, mode);
  }

  /** Splicing an entity into text whose first End(e) characters are the
      original ones renders exactly the original covered characters. */
  lemma StepBeforeTail(text: string, tail: string, e: Entity, mode: int)
    requires Known(e.kind) && ValidMode(mode)
    requires InBounds(e, |text|)
    ensures Step(text[..End(e)] + tail, e, mode)
            == text[..e.offset] + Replacement(e, text[e.offset..End(e)], mode) + tail
  {
    var before := text[..End(e)] + tail;
    assert before[e.offset..End(e)] == text[e.offset..End(e)];
    assert before[..e.offset] == text[..e.offset];
    assert before[End(e)..] == tail;
    StepInRange(before, e, mode);
  }

  // PrefixSplit and SeqAssoc only regroup slices and concatenations. They are
  // stated apart so that the interleaving proof below does not mix sequence
  // arithmetic with the unfolding of Render.

  lemma PrefixSplit(s: string, i: nat, j: nat)
    requires i <= j <= |s|
    ensures s[..i] + s[i..j] == s[..j]
  {
  }

  lemma SeqAssoc(a: string, b: string, c: string, d: string)
    ensures a + (b + c + d) == (a + b) + c + d
  {
  }

  // ---------------------------------------------------------------------
  // Independent reference: gaps and renderings, left to right
  // ---------------------------------------------------------------------

  /** The text from position `from` on, with every entity's range replaced by
      the rendering of what it covers in the original text. */
  function Interleave(text: string, es: seq<Entity>, from: nat, mode: int): (r: string)
    requires AllKnown(es) && ValidMode(mode)
    requires ChainedFrom(es, from, |text|)
    decreases |es|
  {
    if es == [] then text[from..]
    else
      var e := es[0];
      text[from..e.offset] + Replacement(e, text[e.offset..End(e)], mode)
      + Interleave(text, es[1..], End(e), mode)
  }

  lemma {:induction false} RenderFrom(text: string, es: seq<Entity>, from: nat, mode: int)
    requires AllKnown(es) && ValidMode(mode)
    requires ChainedFrom(es, from, |text|)
    ensures from <= |text|
    ensures Render(text, es, mode) == text[..from] + Interleave(text, es, from, mode)
    decreases |es|
  {
    if es == [] {
      assert text[..from] + text[from..] == text;
    } else {
      RenderFrom(text, es[1..], End(es[0]), mode);
      RenderFromFirst(text, es, from, mode);
    }
  }

  /** The inductive step of RenderFrom: once the rest of the list renders as
      its interleaving, splicing the first entity completes the interleaving. */
  lemma RenderFromFirst(text: string, es: seq<Entity>, from: nat, mode: int)
    requires AllKnown(es) && ValidMode(mode)
    requires es != [] && ChainedFrom(es, from, |text|)
    requires Render(text, es[1..], mode)
             == text[..End(es[0])] + Interleave(text, es[1..], End(es[0]), mode)
    ensures Render(text, es, mode) == text[..from] + Interleave(text, es, from, mode)
  {
    var e := es[0];
    var tail := Interleave(text, es[1..], End(e), mode);
    var r := Replacement(e, text[e.offset..End(e)], mode);
    var whole := Render(text, es, mode);
    var gaps := Interleave(text, es, from, mode);
    assert whole == Step(text[..End(e)] + tail, e, mode);
    StepBeforeTail(text, tail, e, mode);
    assert whole == text[..e.offset] + r + tail;
    assert gaps == text[from..e.offset] + r + tail;
    SeqAssoc(text[..from], text[from..e.offset], r, tail);
    PrefixSplit(text, from, e.offset);
  }

  /** For an ascending list of disjoint entities inside the text, apply
      produces the text with each covered range replaced by the rendering of
      exactly the characters it covered, and every gap kept verbatim. */
  lemma RenderIsInterleave(text: string, es: seq<Entity>, mode: int)
    requires AllKnown(es) && ValidMode(mode)
    requires Chained(es, |text|)
    ensures Render(text, es, mode) == Interleave(text, es, 0, mode)
  {
    RenderFrom(text, es, 0, mode);
  }
}
