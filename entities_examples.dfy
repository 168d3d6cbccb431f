/**
 * Worked cases of the entity formatter of src/Helpers/Entities.php, stated
 * for any words in the covered and uncovered places.
 */
module EntityExamples {
  import opened Wrappers
  import opened Helpers
  import opened EntityProperties

  /** The rendering of a wrapping template around `value`. */
  lemma Wrapped(e: Entity, mode: int, value: string, expected: string)
    requires Known(e.kind) && ValidMode(mode) && e.kind != "text_link" && e.kind != "text_mention"
    requires var t := TemplateFor(e.kind, mode);
             expected == t[0].text + value + (if |t| == 3 then t[2].text else "")
    ensures Replacement(e, value, mode) == expected
  {
    SyntaxWraps(e.kind, mode);
    WrappingPrints(TemplateFor(e.kind, mode), value);
    assert Args(e, value) == [value];
  }

  /** Bold over the first word: "hello world" gives "*hello* world" and
      "<strong>hello</strong> world". */
  lemma BoldFirstWord(word: string, rest: string)
    ensures var es := [Entity(0, |word|, "bold", None, None)];
            && Render(word + rest, es, MARKDOWN) == "*" + word + "*" + rest
            && Render(word + rest, es, HTML) == "<strong>" + word + "</strong>" + rest
  {
    BoldOver(word, rest, Entity(0, |word|, "bold", None, None));
  }

  lemma BoldOver(word: string, rest: string, e: Entity)
    requires e == Entity(0, |word|, "bold", None, None)
    ensures Render(word + rest, [e], MARKDOWN) == "*" + word + "*" + rest
    ensures Render(word + rest, [e], HTML) == "<strong>" + word + "</strong>" + rest
  {
    Wrapped(e, MARKDOWN, word, "*" + word + "*");
    RenderAtStart(word, rest, e, MARKDOWN);
    Wrapped(e, HTML, word, "<strong>" + word + "</strong>");
    RenderAtStart(word, rest, e, HTML);
  }

  /** A text_link over the last word: "visit site" with the url
      https://example.com gives "visit [site](https://example.com)". */
  lemma LinkLastWord(before: string, caption: string, url: string)
    ensures var es := [Entity(|before|, |caption|, "text_link", Some(url), None)];
            && Render(before + caption, es, MARKDOWN) == before + ("[" + caption + "](" + url + ")")
            && Render(before + caption, es, HTML) == before + ("<a href=\"" + url + "\">" + caption + "</a>")
  {
    var e := Entity(|before|, |caption|, "text_link", Some(url), None);
    LinkOver(before, caption, url, e);
  }

  lemma LinkOver(before: string, caption: string, url: string, e: Entity)
    requires e == Entity(|before|, |caption|, "text_link", Some(url), None)
    ensures Render(before + caption, [e], MARKDOWN) == before + ("[" + caption + "](" + url + ")")
    ensures Render(before + caption, [e], HTML) == before + ("<a href=\"" + url + "\">" + caption + "</a>")
  {
    TextLinkMarkdown(e, caption);
    TextLinkHtml(e, caption);
    RenderSingle(before + caption, e, MARKDOWN);
    StepAtEnd(before, caption, e, MARKDOWN);
    RenderSingle(before + caption, e, HTML);
    StepAtEnd(before, caption, e, HTML);
  }

  /** A range running past the end is clamped, not rejected: bold at 2 with
      length 5 in "abc" renders "ab*c*". */
  lemma PastTheEndIsClamped(head: string, last: string, extra: nat)
    ensures var es := [Entity(|head|, |last| + extra, "bold", None, None)];
            Render(head + last, es, MARKDOWN) == head + ("*" + last + "*")
  {
    ClampedStep(head, last, extra, Entity(|head|, |last| + extra, "bold", None, None));
  }

  lemma ClampedStep(head: string, last: string, extra: nat, e: Entity)
    requires e == Entity(|head|, |last| + extra, "bold", None, None)
    ensures Render(head + last, [e], MARKDOWN) == head + ("*" + last + "*")
  {
    Wrapped(e, MARKDOWN, last, "*" + last + "*");
    RenderSingle(head + last, e, MARKDOWN);
    StepPastEnd(head, last, e, MARKDOWN);
  }

  /** Adjacent entities listed in ascending order: "ab" with italic over "a"
      and bold over "b" gives "_a_*b*" (stated for any two words). */
  lemma AdjacentAscending(a: string, b: string)
    ensures var es := [Entity(0, |a|, "italic", None, None), Entity(|a|, |b|, "bold", None, None)];
            Render(a + b, es, MARKDOWN) == "_" + a + "_" + ("*" + b + "*")
  {
    var it := Entity(0, |a|, "italic", None, None);
    var bo := Entity(|a|, |b|, "bold", None, None);
    AscendingSteps(a, b, it, bo);
  }

  lemma AscendingSteps(a: string, b: string, it: Entity, bo: Entity)
    requires it == Entity(0, |a|, "italic", None, None)
    requires bo == Entity(|a|, |b|, "bold", None, None)
    ensures Render(a + b, [it, bo], MARKDOWN) == "_" + a + "_" + ("*" + b + "*")
  {
    Wrapped(bo, MARKDOWN, b, "*" + b + "*");
    Wrapped(it, MARKDOWN, a, "_" + a + "_");
    ListOfTwo(it, bo);
    LastEntityFirst(a + b, [it], bo, MARKDOWN);
    StepAtEnd(a, b, bo, MARKDOWN);
    RenderAtStart(a, "*" + b + "*", it, MARKDOWN);
  }

  /** The same two entities listed in descending order: the list is walked
      in reverse without sorting, so italic is spliced first and bold's
      offset then addresses the "a" inside "_a_", giving "_*a*_b". */
  lemma AdjacentDescending(a: char, b: char)
    ensures var es := [Entity(1, 1, "bold", None, None), Entity(0, 1, "italic", None, None)];
            Render([a, b], es, MARKDOWN) == ['_', '*', a, '*', '_', b]
  {
    var it := Entity(0, 1, "italic", None, None);
    var bo := Entity(1, 1, "bold", None, None);
    DescendingSteps(a, b, it, bo);
  }

  lemma DescendingSteps(a: char, b: char, it: Entity, bo: Entity)
    requires it == Entity(0, 1, "italic", None, None)
    requires bo == Entity(1, 1, "bold", None, None)
    ensures Render([a, b], [bo, it], MARKDOWN) == ['_', '*', a, '*', '_', b]
  {
    var italic := "_" + [a] + "_";
    var bold := "*" + [a] + "*";
    Wrapped(it, MARKDOWN, [a], italic);
    Wrapped(bo, MARKDOWN, [a], bold);
    ListOfTwo(bo, it);
    LastEntityFirst([a, b], [bo], it, MARKDOWN);
    DescendingText(a, b);
    StepAtStart([a], [b], it, MARKDOWN);
    RenderOneIs("_", [a], "_" + [b], bo, MARKDOWN);
  }

  /** Nested entities are not supported: with bold over "ab" listed before
      italic over "b", italic is spliced first and bold's length still counts
      two characters of the changed text, so it closes inside the italic
      markup and "*a_*b_" comes out. */
  lemma NestedBreaksMarkup(a: char, b: char)
    ensures var es := [Entity(0, 2, "bold", None, None), Entity(1, 1, "italic", None, None)];
            Render([a, b], es, MARKDOWN) == ['*', a, '_', '*', b, '_']
  {
    var bo := Entity(0, 2, "bold", None, None);
    var it := Entity(1, 1, "italic", None, None);
    NestedSteps(a, b, bo, it);
  }

  lemma NestedSteps(a: char, b: char, bo: Entity, it: Entity)
    requires bo == Entity(0, 2, "bold", None, None)
    requires it == Entity(1, 1, "italic", None, None)
    ensures Render([a, b], [bo, it], MARKDOWN) == ['*', a, '_', '*', b, '_']
  {
    Wrapped(it, MARKDOWN, [b], "_" + [b] + "_");
    Wrapped(bo, MARKDOWN, [a, '_'], "*" + [a, '_'] + "*");
    ListOfTwo(bo, it);
    LastEntityFirst([a, b], [bo], it, MARKDOWN);
    NestedText(a, b);
    StepAtEnd([a], [b], it, MARKDOWN);
    RenderAtStart([a, '_'], [b, '_'], bo, MARKDOWN);
  }

  // NestedText, ListOfTwo and DescendingText only regroup sequence
  // concatenations. Stating them apart keeps the rendering proofs above
  // free of sequence arithmetic, which the solver otherwise redoes on
  // every unfolding.

  lemma NestedText(a: char, b: char)
    ensures [a, b] == [a] + [b]
    ensures [a] + ("_" + [b] + "_") == [a, '_'] + [b, '_']
    ensures "*" + [a, '_'] + "*" + [b, '_'] == ['*', a, '_', '*', b, '_']
  {
  }

  lemma ListOfTwo(x: Entity, y: Entity)
    ensures [x] + [y] == [x, y]
  {
  }

  lemma DescendingText(a: char, b: char)
    ensures [a, b] == [a] + [b]
    ensures "_" + [a] + "_" + [b] == "_" + [a] + ("_" + [b])
    ensures "_" + ("*" + [a] + "*") + ("_" + [b]) == ['_', '*', a, '*', '_', b]
  {
  }
}
