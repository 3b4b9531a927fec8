/** Nesting of sections: `_extract_section` counts an open tag of either kind as
    one more level but only the section's own close tag as one less, so a section
    of the same kind nests while a section of the other kind leaves the outer one
    unclosed. The lemmas are stated on chunked templates `{{x` + text + `{{y` +
    close tag, where the text and the tails `x`, `y` hold no `{`. */
module TemplateNesting {
  import opened Wrappers
  import opened Text
  import opened Templates
  import opened TemplateLaws

  /** A pattern does not occur where one of its characters is missing. */
  lemma NotOccursAtChar(s: string, pat: string, q: nat, i: nat)
    requires i < |pat| && q + i < |s| && s[q + i] != pat[i]
    ensures !OccursAt(s, pat, q)
  {
    OccursAtIff(s, pat, q);
    if q + |pat| <= |s| {
      assert s[q..q + |pat|][i] == s[q + i];
    }
  }

  /** No pattern starting with `{` occurs inside a brace-free chunk. */
  lemma NoOccurrenceInPlain(pre: string, b: string, rest: string, pat: string, q: nat)
    requires '{' !in b && |pat| > 0 && pat[0] == '{' && |pre| <= q < |pre| + |b|
    ensures !OccursAt(pre + b + rest, pat, q)
  {
    var s := pre + b + rest;
    assert s[q] == b[q - |pre|];
    NotOccursAtChar(s, pat, q, 0);
  }

  /** No pattern starting with `{{` occurs inside a chunk `{{x` with brace-free `x`
      when the chunk and the pattern differ at position `d >= 2`. */
  lemma NoOccurrenceInTag(pre: string, x: string, rest: string, pat: string, q: nat, d: nat)
    requires '{' !in x && |pat| >= 2 && pat[0] == '{' && pat[1] == '{'
    requires 2 <= d < 2 + |x| && d < |pat| && x[d - 2] != pat[d]
    requires |pre| <= q < |pre| + 2 + |x|
    ensures !OccursAt(pre + ("{{" + x) + rest, pat, q)
  {
    var u := "{{" + x;
    var s := pre + u + rest;
    var j := q - |pre|;
    assert forall k :: 0 <= k < |u| ==> s[|pre| + k] == u[k];
    if j == 0 {
      assert s[q + d] == u[d] == x[d - 2];
      NotOccursAtChar(s, pat, q, d);
    } else if j == 1 {
      assert s[q + 1] == u[2] == x[0];
      NotOccursAtChar(s, pat, q, 1);
    } else {
      assert s[q] == u[j] == x[j - 2];
      NotOccursAtChar(s, pat, q, 0);
    }
  }

  /** In `{{xh` + `b` + `{{x1` + `close`, the only occurrence of `close` before the
      end is none, when neither tag-like chunk can start `close`. */
  lemma NoCloseBefore(xh: string, b: string, x1: string, close: string, q: nat)
    requires '{' !in xh && '{' !in b && '{' !in x1
    requires |close| >= 4 && close[0] == '{' && close[1] == '{'
    requires |xh| >= 1 && xh[0] != close[2] && |x1| >= 2 && x1[1] != close[3]
    requires q < 2 + |xh| + |b| + 2 + |x1|
    ensures !OccursAt(("{{" + xh) + b + ("{{" + x1) + close, close, q)
  {
    var h, c1 := "{{" + xh, "{{" + x1;
    var s := h + b + c1 + close;
    if q < |h| {
      assert s == "" + ("{{" + xh) + (b + c1 + close);
      NoOccurrenceInTag("", xh, b + c1 + close, close, q, 2);
    } else if q < |h| + |b| {
      assert s == h + b + (c1 + close);
      NoOccurrenceInPlain(h, b, c1 + close, close, q);
    } else {
      assert s == (h + b) + ("{{" + x1) + close;
      NoOccurrenceInTag(h + b, x1, close, close, q, 3);
    }
  }

  /** ... and no open tag starts between the first chunk and `close`. */
  lemma NoMarkerBetween(xh: string, b: string, x1: string, close: string, p: nat)
    requires '{' !in b && '{' !in x1 && |x1| >= 1 && x1[0] != '#'
    requires 2 + |xh| <= p < 2 + |xh| + |b| + 2 + |x1|
    ensures !OccursAt(("{{" + xh) + b + ("{{" + x1) + close, "{{#", p)
  {
    var h, c1 := "{{" + xh, "{{" + x1;
    var s := h + b + c1 + close;
    if p < |h| + |b| {
      assert s == h + b + (c1 + close);
      NoOccurrenceInPlain(h, b, c1 + close, "{{#", p);
    } else {
      assert s == (h + b) + ("{{" + x1) + close;
      NoOccurrenceInTag(h + b, x1, close, "{{#", p, 2);
    }
  }

  /** The shape `{{xh` `b` `{{x1` `close` in which `close` first occurs at the end. */
  predicate NestedShape(xh: string, b: string, x1: string, close: string) {
    && '{' !in xh && '{' !in b && '{' !in x1
    && |close| >= 4 && close[0] == '{' && close[1] == '{'
    && |xh| >= 1 && xh[0] != close[2] && |x1| >= 2 && x1[1] != close[3] && x1[0] != '#'
  }

  /** In a nested shape, the first `close` at or after `idx` is the one at the end. */
  lemma NestedCloseAt(xh: string, b: string, x1: string, close: string, idx: nat)
    requires NestedShape(xh, b, x1, close) && idx <= 2 + |xh| + |b| + 2 + |x1|
    ensures SearchFrom(("{{" + xh) + b + ("{{" + x1) + close, close, idx) == 2 + |xh| + |b| + 2 + |x1|
  {
    var s := ("{{" + xh) + b + ("{{" + x1) + close;
    var m := 2 + |xh| + |b| + 2 + |x1|;
    forall q | idx <= q < m ensures !OccursAt(s, close, q) {
      NoCloseBefore(xh, b, x1, close, q);
    }
    OccursAtIff(s, close, m);
    assert s[m..m + |close|] == close;
    SearchFromIs(s, close, idx, m);
  }

  /** In a nested shape opening with a tag, the depth loop first meets that tag. */
  lemma NestedFirstEvent(xh: string, b: string, x1: string, close: string, tag: Tag)
    requires NestedShape(xh, b, x1, close)
    requires IsTagAt(("{{" + xh) + b + ("{{" + x1) + close, tag) && tag.len == 2 + |xh|
    ensures NextEvent(("{{" + xh) + b + ("{{" + x1) + close, close, 0) == OpenEnd(2 + |xh|)
  {
    var s := ("{{" + xh) + b + ("{{" + x1) + close;
    NestedCloseAt(xh, b, x1, close, 0);
    TagAtComplete(s, tag);
    SearchTagAtStart(s, tag);
  }

  /** No open tag lies between the leading tag and the last chunk. */
  lemma NestedNoTag(xh: string, b: string, x1: string, close: string)
    requires NestedShape(xh, b, x1, close)
    ensures var s := ("{{" + xh) + b + ("{{" + x1) + close;
            SearchTag(s, 2 + |xh|).None? || SearchTag(s, 2 + |xh|).value.0 >= 2 + |xh| + |b| + 2 + |x1|
  {
    var s := ("{{" + xh) + b + ("{{" + x1) + close;
    var m := 2 + |xh| + |b| + 2 + |x1|;
    forall p | 2 + |xh| <= p < m ensures TagAt(s[p..]).None? {
      if TagAt(s[p..]).Some? {
        TagAtNeedsMarker(s, p);
        NoMarkerBetween(xh, b, x1, close, p);
      }
    }
    SearchTagFrom(s, 2 + |xh|, m);
  }

  /** A close tag found before any open tag is the next event. */
  lemma NextEventClose(s: string, close: string, idx: nat, n: nat)
    requires idx <= n && n + |close| <= |s| && SearchFrom(s, close, idx) == n
    requires SearchTag(s, idx).None? || SearchTag(s, idx).value.0 >= n
    ensures NextEvent(s, close, idx) == CloseEnd(n + |close|)
  {
  }

  /** After the leading tag of a nested shape, the next event is the final `close`. */
  lemma NestedSecondEvent(xh: string, b: string, x1: string, close: string)
    requires NestedShape(xh, b, x1, close)
    ensures NextEvent(("{{" + xh) + b + ("{{" + x1) + close, close, 2 + |xh|)
            == CloseEnd(|("{{" + xh) + b + ("{{" + x1) + close|)
  {
    var s := ("{{" + xh) + b + ("{{" + x1) + close;
    var m := 2 + |xh| + |b| + 2 + |x1|;
    NestedCloseAt(xh, b, x1, close, 2 + |xh|);
    NestedNoTag(xh, b, x1, close);
    NextEventClose(s, close, 2 + |xh|, m);
  }

  /** At the end of the text there is nothing left to find. */
  lemma EndEvent(s: string, close: string)
    requires |close| > 0
    ensures NextEvent(s, close, |s|) == NoClose
  {
  }

  /** An open tag of any kind followed by one close tag that is not `close`, then
      `close`, leaves the section unclosed. */
  lemma NestedUnclosed(xh: string, b: string, x1: string, close: string)
    requires NestedShape(xh, b, x1, close)
    requires NextEvent(("{{" + xh) + b + ("{{" + x1) + close, close, 0) == OpenEnd(2 + |xh|)
    ensures SectionBefore(("{{" + xh) + b + ("{{" + x1) + close, close) == None
  {
    var s := ("{{" + xh) + b + ("{{" + x1) + close;
    NestedSecondEvent(xh, b, x1, close);
    ExtractFromOpenCloseEnd(s, close, 2 + |xh|);
  }

  /** An open tag, then one close tag that ends the text: the depth loop runs
      out of close tags one level in. */
  lemma ExtractFromOpenCloseEnd(s: string, close: string, a: nat)
    requires |close| > 0
    requires NextEvent(s, close, 0) == OpenEnd(a)
    requires NextEvent(s, close, a) == CloseEnd(|s|)
    ensures ExtractFrom(s, close, 0, 1) == None
  {
    assert ExtractFrom(s, close, |s|, 1) == None by {
      EndEvent(s, close);
      ExtractFromNoCloseStep(s, close, |s|, 1);
    }
    ExtractFromCloseStep(s, close, a, 2, |s|);
    ExtractFromOpenStep(s, close, 0, 1, a);
  }

  /** `Extract` fails exactly when the depth loop finds no matching close tag. */
  lemma ExtractUnclosed(s: string, k: Kind)
    requires SectionBefore(s, CloseTag(k)) == None
    ensures Extract(s, k) == Failure(UnclosedError(k))
  {
  }

  /** The open tag `{{#if e}}` seen as a chunk `{{xh`. */
  lemma IfTagChunk(e: string)
    requires '{' !in e
    ensures var xh := "#if " + e + "}}";
            OpenPrefix(If) + e + "}}" == "{{" + xh && '{' !in xh && xh[0] == '#'
  {
  }

  /** `{{#if e}}b{{/if}}` before `{{/each}}` has the nested shape. */
  lemma MixedShape(e: string, b: string)
    requires '{' !in e && '{' !in b
    ensures NestedShape("#if " + e + "}}", b, "/if}}", CloseTag(Each))
  {
    IfTagChunk(e);
  }

  /** The same template cut into chunks. */
  lemma MixedSplit(e: string, b: string)
    requires '{' !in e
    ensures OpenPrefix(If) + e + "}}" + b + CloseTag(If) + CloseTag(Each)
            == ("{{" + ("#if " + e + "}}")) + b + ("{{" + "/if}}") + CloseTag(Each)
  {
    IfTagChunk(e);
  }

  /** That template opens with the tag `{{#if e}}`. */
  lemma MixedTag(e: string, b: string)
    requires ValidExpr(e) && '{' !in e
    ensures IsTagAt(("{{" + ("#if " + e + "}}")) + b + ("{{" + "/if}}") + CloseTag(Each),
                    Tag(If, e, 2 + |"#if " + e + "}}"|))
  {
    MixedSplit(e, b);
    var h := OpenPrefix(If) + e + "}}";
    StartsWithConcat(h, b + CloseTag(If) + CloseTag(Each));
    assert h + (b + CloseTag(If) + CloseTag(Each)) == h + b + CloseTag(If) + CloseTag(Each);
  }

  /** Mixed-kind nesting: inside `{{#each}}`, an inner `{{#if}}` raises the depth,
      its `{{/if}}` does not lower it, so the `{{/each}}` that follows only brings
      the depth back to one and the section is reported unclosed. */
  lemma MixedNestingUnclosed(e: string, b: string)
    requires ValidExpr(e) && '{' !in e && '{' !in b
    ensures Extract(OpenPrefix(If) + e + "}}" + b + CloseTag(If) + CloseTag(Each), Each)
            == Failure(UnclosedError(Each))
  {
    var xh := "#if " + e + "}}";
    var x1 := "/if}}";
    var close := CloseTag(Each);
    var s := ("{{" + xh) + b + ("{{" + x1) + close;
    MixedSplit(e, b);
    MixedShape(e, b);
    MixedTag(e, b);
    NestedFirstEvent(xh, b, x1, close, Tag(If, e, 2 + |xh|));
    NestedUnclosed(xh, b, x1, close);
    ExtractUnclosed(s, Each);
  }

  /** So a template that puts an `if` section inside an `each` section fails to
      render: the `each` section is reported unclosed. */
  lemma RenderMixedNesting(x: string, e: string, b: string, stack: Stack)
    requires ValidExpr(x) && ValidExpr(e) && '{' !in e && '{' !in b
    ensures Render(OpenPrefix(Each) + x + "}}" + (OpenPrefix(If) + e + "}}" + b + CloseTag(If) + CloseTag(Each)), stack)
            == Failure(UnclosedError(Each))
  {
    MixedNestingUnclosed(e, b);
    RenderSectionUnclosed(Each, x, OpenPrefix(If) + e + "}}" + b + CloseTag(If) + CloseTag(Each), stack);
  }

  /** The shape `{{xh` `b` `close` `close` of a same-kind nested section. */
  predicate SameShape(xh: string, b: string, xc: string) {
    && '{' !in xh && '{' !in b && '{' !in xc
    && |xh| >= 1 && |xc| >= 2 && xh[0] != xc[0] && xc[0] != '#'
  }

  /** In a same-kind shape, `close` does not occur before the first close tag. */
  lemma SameNoCloseBefore(xh: string, b: string, xc: string, q: nat)
    requires SameShape(xh, b, xc) && q < 2 + |xh| + |b|
    ensures !OccursAt(("{{" + xh) + b + ("{{" + xc) + ("{{" + xc), "{{" + xc, q)
  {
    var close := "{{" + xc;
    var s := ("{{" + xh) + b + close + close;
    if q < 2 + |xh| {
      assert s == "" + ("{{" + xh) + (b + close + close);
      NoOccurrenceInTag("", xh, b + close + close, close, q, 2);
    } else {
      assert s == ("{{" + xh) + b + (close + close);
      NoOccurrenceInPlain("{{" + xh, b, close + close, close, q);
    }
  }

  /** In a same-kind shape, the first `close` at or after `idx` is the inner one. */
  lemma SameCloseAt(xh: string, b: string, xc: string, idx: nat)
    requires SameShape(xh, b, xc) && idx <= 2 + |xh| + |b|
    ensures SearchFrom(("{{" + xh) + b + ("{{" + xc) + ("{{" + xc), "{{" + xc, idx) == 2 + |xh| + |b|
  {
    var close := "{{" + xc;
    var s := ("{{" + xh) + b + close + close;
    var m := 2 + |xh| + |b|;
    forall q | idx <= q < m ensures !OccursAt(s, close, q) {
      SameNoCloseBefore(xh, b, xc, q);
    }
    OccursAtIff(s, close, m);
    assert s[m..m + |close|] == close;
    SearchFromIs(s, close, idx, m);
  }

  /** In a same-kind shape, the depth loop first meets the leading open tag. */
  lemma SameFirstEvent(xh: string, b: string, xc: string, tag: Tag)
    requires SameShape(xh, b, xc)
    requires IsTagAt(("{{" + xh) + b + ("{{" + xc) + ("{{" + xc), tag) && tag.len == 2 + |xh|
    ensures NextEvent(("{{" + xh) + b + ("{{" + xc) + ("{{" + xc), "{{" + xc, 0) == OpenEnd(2 + |xh|)
  {
    var s := ("{{" + xh) + b + ("{{" + xc) + ("{{" + xc);
    SameCloseAt(xh, b, xc, 0);
    TagAtComplete(s, tag);
    SearchTagAtStart(s, tag);
  }

  /** No open tag lies between the leading tag and the close tags. */
  lemma SameNoTag(xh: string, b: string, xc: string)
    requires SameShape(xh, b, xc)
    ensures var s := ("{{" + xh) + b + ("{{" + xc) + ("{{" + xc);
            SearchTag(s, 2 + |xh|).None? || SearchTag(s, 2 + |xh|).value.0 >= 2 + |xh| + |b|
  {
    SameNoTagFrom(xh, b, xc, ("{{" + xh) + b + ("{{" + xc) + ("{{" + xc));
  }

  /** `SameNoTag` for a name `s` of the shape. */
  lemma SameNoTagFrom(xh: string, b: string, xc: string, s: string)
    requires SameShape(xh, b, xc) && s == ("{{" + xh) + b + ("{{" + xc) + ("{{" + xc)
    ensures SearchTag(s, 2 + |xh|).None? || SearchTag(s, 2 + |xh|).value.0 >= 2 + |xh| + |b|
  {
    SameNoTagIn(xh, b, xc, s);
    SearchTagFrom(s, 2 + |xh|, 2 + |xh| + |b|);
  }

  /** No open tag starts anywhere inside the body of a same-kind shape. */
  lemma SameNoTagIn(xh: string, b: string, xc: string, s: string)
    requires SameShape(xh, b, xc) && s == ("{{" + xh) + b + ("{{" + xc) + ("{{" + xc)
    ensures forall p :: 2 + |xh| <= p < 2 + |xh| + |b| ==> TagAt(s[p..]).None?
  {
    forall p | 2 + |xh| <= p < 2 + |xh| + |b| ensures TagAt(s[p..]).None? {
      SameNoTagAt(xh, b, xc, p);
    }
  }

  /** No open tag starts inside the body of a same-kind shape. */
  lemma SameNoTagAt(xh: string, b: string, xc: string, p: nat)
    requires SameShape(xh, b, xc) && 2 + |xh| <= p < 2 + |xh| + |b|
    ensures TagAt((("{{" + xh) + b + ("{{" + xc) + ("{{" + xc))[p..]).None?
  {
    var close := "{{" + xc;
    var s := ("{{" + xh) + b + close + close;
    assert s == ("{{" + xh) + b + (close + close);
    if TagAt(s[p..]).Some? {
      TagAtNeedsMarker(s, p);
      NoOccurrenceInPlain("{{" + xh, b, close + close, "{{#", p);
    }
  }

  /** After the leading tag, the next event is the inner close tag. */
  lemma SameSecondEvent(xh: string, b: string, xc: string)
    requires SameShape(xh, b, xc)
    ensures NextEvent(("{{" + xh) + b + ("{{" + xc) + ("{{" + xc), "{{" + xc, 2 + |xh|)
            == CloseEnd(2 + |xh| + |b| + 2 + |xc|)
  {
    var close := "{{" + xc;
    var s := ("{{" + xh) + b + close + close;
    var n := 2 + |xh| + |b|;
    assert |s| == n + 2 * |close|;
    assert SearchFrom(s, close, 2 + |xh|) == n by {
      SameCloseAt(xh, b, xc, 2 + |xh|);
    }
    assert SearchTag(s, 2 + |xh|).None? || SearchTag(s, 2 + |xh|).value.0 >= n by {
      SameNoTag(xh, b, xc);
    }
    NextEventClose(s, close, 2 + |xh|, n);
  }

  /** After the inner close tag, the next event is the outer close tag. */
  lemma SameThirdEvent(xh: string, b: string, xc: string)
    requires SameShape(xh, b, xc)
    ensures NextEvent(("{{" + xh) + b + ("{{" + xc) + ("{{" + xc), "{{" + xc, 2 + |xh| + |b| + 2 + |xc|)
            == CloseEnd(|("{{" + xh) + b + ("{{" + xc) + ("{{" + xc)|)
  {
    var close := "{{" + xc;
    var s := ("{{" + xh) + b + close + close;
    var m := 2 + |xh| + |b| + |close|;
    OccursAtIff(s, close, m);
    assert s[m..m + |close|] == close;
    SearchFromIs(s, close, m, m);
    NextEventClose(s, close, m, m);
  }

  /** The first `|a|` characters of `a + c` are `a`. */
  lemma PrefixOfConcat(a: string, c: string)
    ensures (a + c)[..|a|] == a
  {
  }

  /** Where the depth loop stops, the body ends just before the close tag. */
  lemma SectionBeforeEnds(s: string, close: string, n: nat)
    requires |close| > 0 && ExtractFrom(s, close, 0, 1) == Some(n)
    ensures n >= |close| && SectionBefore(s, close) == Some(Section(s[..n - |close|], n))
  {
  }

  /** An open tag, then two matching close tags: the depth loop stops after
      the second close tag. */
  lemma ExtractFromOpenCloseClose(s: string, close: string, a: nat, m: nat, n: nat)
    requires |close| > 0
    requires NextEvent(s, close, 0) == OpenEnd(a)
    requires NextEvent(s, close, a) == CloseEnd(m)
    requires NextEvent(s, close, m) == CloseEnd(n)
    ensures ExtractFrom(s, close, 0, 1) == Some(n)
  {
    ExtractFromOpenStep(s, close, 0, 1, a);
    ExtractFromCloseStep(s, close, a, 2, m);
    ExtractFromCloseFirst(s, close, m, n);
  }

  /** The depth loop over a same-kind shape stops after the outer close tag. */
  lemma SameExtractFrom(xh: string, b: string, xc: string)
    requires SameShape(xh, b, xc)
    requires NextEvent(("{{" + xh) + b + ("{{" + xc) + ("{{" + xc), "{{" + xc, 0) == OpenEnd(2 + |xh|)
    ensures var s := ("{{" + xh) + b + ("{{" + xc) + ("{{" + xc);
            ExtractFrom(s, "{{" + xc, 0, 1) == Some(|s|)
  {
    var close := "{{" + xc;
    var s := ("{{" + xh) + b + close + close;
    var a, m := 2 + |xh|, 2 + |xh| + |b| + 2 + |xc|;
    assert NextEvent(s, close, a) == CloseEnd(m) by {
      SameSecondEvent(xh, b, xc);
    }
    assert NextEvent(s, close, m) == CloseEnd(|s|) by {
      SameThirdEvent(xh, b, xc);
    }
    ExtractFromOpenCloseClose(s, close, a, m, |s|);
  }

  /** A same-kind shape is one whole section whose body keeps the inner
      section, close tag included. */
  lemma SameNestedCloses(xh: string, b: string, xc: string)
    requires SameShape(xh, b, xc)
    requires NextEvent(("{{" + xh) + b + ("{{" + xc) + ("{{" + xc), "{{" + xc, 0) == OpenEnd(2 + |xh|)
    ensures var s := ("{{" + xh) + b + ("{{" + xc) + ("{{" + xc);
            SectionBefore(s, "{{" + xc) == Some(Section(s[..|s| - 2 - |xc|], |s|))
  {
    var close := "{{" + xc;
    var s := ("{{" + xh) + b + close + close;
    SameExtractFrom(xh, b, xc);
    SectionBeforeEnds(s, close, |s|);
  }

  /** An `each` section followed by two `{{/each}}` tags, cut into chunks. */
  lemma EachChunks(e: string, b: string)
    requires '{' !in e && '{' !in b
    ensures OpenPrefix(Each) + e + "}}" + b + CloseTag(Each) + CloseTag(Each)
            == ("{{" + ("#each " + e + "}}")) + b + ("{{" + "/each}}") + ("{{" + "/each}}")
    ensures SameShape("#each " + e + "}}", b, "/each}}")
  {
  }

  /** That template opens with the tag `{{#each e}}`. */
  lemma EachTagLeading(e: string, b: string)
    requires ValidExpr(e) && '{' !in e && '{' !in b
    ensures IsTagAt(("{{" + ("#each " + e + "}}")) + b + ("{{" + "/each}}") + ("{{" + "/each}}"),
                    Tag(Each, e, 2 + |"#each " + e + "}}"|))
  {
    EachChunks(e, b);
    var h := OpenPrefix(Each) + e + "}}";
    StartsWithConcat(h, b + CloseTag(Each) + CloseTag(Each));
    assert h + (b + CloseTag(Each) + CloseTag(Each)) == h + b + CloseTag(Each) + CloseTag(Each);
  }

  /** The body of the outer section, as a prefix of the text. */
  lemma EachBody(e: string, b: string)
    requires '{' !in e && '{' !in b
    ensures var s := ("{{" + ("#each " + e + "}}")) + b + ("{{" + "/each}}") + ("{{" + "/each}}");
            s[..|s| - 2 - |"/each}}"|] == OpenPrefix(Each) + e + "}}" + b + CloseTag(Each)
  {
    EachChunks(e, b);
    PrefixOfConcat(OpenPrefix(Each) + e + "}}" + b + CloseTag(Each), CloseTag(Each));
  }

  /** The depth loop over the `each`-in-`each` template stops at its end. */
  lemma EachInEachSection(e: string, b: string)
    requires ValidExpr(e) && '{' !in e && '{' !in b
    ensures var s := ("{{" + ("#each " + e + "}}")) + b + ("{{" + "/each}}") + ("{{" + "/each}}");
            SectionBefore(s, "{{" + "/each}}") == Some(Section(s[..|s| - 2 - |"/each}}"|], |s|))
  {
    var xh := "#each " + e + "}}";
    var xc := "/each}}";
    EachChunks(e, b);
    EachTagLeading(e, b);
    SameFirstEvent(xh, b, xc, Tag(Each, e, 2 + |xh|));
    SameNestedCloses(xh, b, xc);
  }

  /** Same-kind nesting: an `{{#each}}` inside an `{{#each}}` raises the depth and
      its `{{/each}}` lowers it, so the outer section ends at the second close tag
      and its body keeps the whole inner section. */
  lemma SameKindNesting(e: string, b: string)
    requires ValidExpr(e) && '{' !in e && '{' !in b
    ensures Extract(OpenPrefix(Each) + e + "}}" + b + CloseTag(Each) + CloseTag(Each), Each)
            == Success(Section(OpenPrefix(Each) + e + "}}" + b + CloseTag(Each),
                               |OpenPrefix(Each) + e + "}}" + b + CloseTag(Each) + CloseTag(Each)|))
  {
    var s := ("{{" + ("#each " + e + "}}")) + b + ("{{" + "/each}}") + ("{{" + "/each}}");
    EachInEachSection(e, b);
    EachBody(e, b);
    EachChunks(e, b);
    ExtractIs(s, Each, Section(OpenPrefix(Each) + e + "}}" + b + CloseTag(Each), |s|));
  }
}
