/** Laws of the template renderer: the scanners recognise exactly their patterns,
    plain text and variables render as promised, sections behave per kind, and
    variable resolution searches the scopes innermost first. */
module TemplateLaws {
  import opened Wrappers
  import opened Text
  import opened Dicts
  import opened Values
  import opened Templates

  // ---------------------------------------------------------------------------
  // The scanners match exactly the patterns they stand for

  /** How `prefix + e + "}}"` at the start of `s` splits when `e` has no `}`. */
  lemma DelimitedParts(s: string, prefix: string, e: string)
    requires '}' !in e && StartsWith(s, prefix + e + "}}")
    ensures StartsWith(s, prefix)
    ensures IndexOf(s[|prefix|..], '}') == |e|
    ensures StartsWith(s[|prefix| + |e|..], "}}")
    ensures s[|prefix|..|prefix| + |e|] == e
  {
    var n := |prefix|;
    var full := prefix + e + "}}";
    StartsWithIff(s, full);
    assert s[..|full|] == full;
    assert forall k :: 0 <= k < n ==> s[k] == full[k] == prefix[k];
    assert forall i :: 0 <= i < |e| ==> s[n + i] == full[n + i] == e[i];
    assert s[n + |e|] == full[n + |e|] == '}';
    assert s[n + |e| + 1] == full[n + |e| + 1] == '}';
    assert s[..n] == prefix;
    StartsWithIff(s, prefix);
    assert forall i :: 0 <= i < |e| ==> s[n..][i] != '}';
    assert s[n..][|e|] == '}';
    assert s[n + |e|..][..2] == "}}";
    StartsWithIff(s[n + |e|..], "}}");
  }

  /** `Delimited` reports every `prefix expr}}` at the start of `s`. */
  lemma DelimitedComplete(s: string, prefix: string, e: string)
    requires ValidExpr(e) && StartsWith(s, prefix + e + "}}")
    ensures Delimited(s, prefix) == Some((e, |prefix| + |e| + 2))
  {
    DelimitedParts(s, prefix, e);
  }

  /** Every open tag `{{#kind expr}}` at the start of `s` is the one `TagAt`
      reports; with `TagAt`'s own postcondition this makes `TagAt` a decision
      procedure for the pattern. */
  lemma TagAtComplete(s: string, t: Tag)
    requires IsTagAt(s, t)
    ensures TagAt(s) == Some(t)
  {
    DelimitedComplete(s, OpenPrefix(t.kind), t.expr);
    if t.kind == If {
      DelimitedParts(s, OpenPrefix(If), t.expr);
      StartsWithIff(s, OpenPrefix(If));
      StartsWithIff(s, OpenPrefix(Each));
      assert s[3] == OpenPrefix(If)[3] == 'i';
      assert !StartsWith(s, OpenPrefix(Each));
    }
  }

  /** Every variable reference `{{expr}}` at the start of `s` whose expression the
      pattern admits is the one `VarAt` reports. */
  lemma VarAtComplete(s: string, e: string)
    requires ValidVarExpr(e) && StartsWith(s, "{{" + e + "}}")
    ensures VarAt(s) == Some(VarMatch(e, |e| + 4))
  {
    var full := "{{" + e + "}}";
    StartsWithIff(s, full);
    assert s[..|full|] == full;
    assert s[0] == '{' && s[1] == '{' && s[2] == e[0] by {
      assert full[0] == '{' && full[1] == '{' && full[2] == e[0];
    }
    var j := |e| - 1;
    forall i | 0 <= i < j ensures s[3..][i] != '}' {
      assert s[3 + i] == full[3 + i] == e[1 + i];
      assert e[1 + i] == e[1..][i];
    }
    assert s[3..][j] == '}' by { assert s[3 + j] == full[3 + j]; }
    assert IndexOf(s[3..], '}') == j;
    assert s[3 + j] == full[3 + j] && s[4 + j] == full[4 + j];
    assert s[2..3 + j] == e by {
      forall i | 0 <= i < |e| ensures s[2..3 + j][i] == e[i] {
        assert s[2 + i] == full[2 + i];
      }
    }
  }

  /** An open tag starts with `{{#`. */
  lemma TagMarker(s: string, t: Tag)
    requires IsTagAt(s, t)
    ensures StartsWith(s, "{{#")
  {
    var tail := KindName(t.kind) + " " + t.expr + "}}";
    assert OpenPrefix(t.kind) + t.expr + "}}" == "{{#" + tail;
    StartsWithConcat("{{#", tail);
    StartsWithTrans(s, "{{#" + tail, "{{#");
  }

  /** An open tag starts with `{{#`, so text without `{{#` holds none. */
  lemma TagAtNeedsMarker(s: string, p: nat)
    requires p <= |s| && TagAt(s[p..]).Some?
    ensures OccursAt(s, "{{#", p)
  {
    TagMarker(s[p..], TagAt(s[p..]).value);
  }

  /** `SearchTag` finds nothing when no open tag starts at or after `idx`. */
  lemma {:induction false} SearchTagNone(s: string, idx: nat)
    requires idx <= |s|
    requires forall p :: idx <= p <= |s| ==> TagAt(s[p..]).None?
    ensures SearchTag(s, idx).None?
    decreases |s| - idx
  {
    TagAtPosIs(s, idx);
    if idx < |s| {
      SearchTagNone(s, idx + 1);
    }
  }

  /** Text in which `{{#` never occurs contains no open tag. */
  lemma NoMarkerNoTag(s: string)
    requires Find(s, "{{#") < 0
    ensures SearchTag(s, 0).None?
  {
    forall p | 0 <= p <= |s| ensures TagAt(s[p..]).None? {
      if TagAt(s[p..]).Some? {
        TagAtNeedsMarker(s, p);
      }
    }
    SearchTagNone(s, 0);
  }

  // ---------------------------------------------------------------------------
  // Searching

  /** `SearchFrom` reports the leftmost occurrence at or after `idx`. */
  lemma {:induction false} SearchFromIs(s: string, pat: string, idx: nat, p: nat)
    requires idx <= p <= |s| && OccursAt(s, pat, p)
    requires forall q :: idx <= q < p ==> !OccursAt(s, pat, q)
    ensures SearchFrom(s, pat, idx) == p
    decreases p - idx
  {
    OccursAtMatches(s, pat, idx);
    if idx < p {
      SearchFromIs(s, pat, idx + 1, p);
    }
  }

  /** `SearchTag` reports nothing before `n` when no open tag starts in `[idx, n)`. */
  lemma {:induction false} SearchTagFrom(s: string, idx: nat, n: nat)
    requires idx <= n <= |s|
    requires forall p :: idx <= p < n ==> TagAt(s[p..]).None?
    ensures SearchTag(s, idx).None? || SearchTag(s, idx).value.0 >= n
    decreases n - idx
  {
    if idx < n {
      TagAtPosIs(s, idx);
      SearchTagFrom(s, idx + 1, n);
    }
  }

  // ---------------------------------------------------------------------------
  // Variable substitution

  /** Text without `{{` is left as it is. */
  lemma {:induction false} ReplaceWithoutBraces(s: string, repl: string -> string)
    requires Find(s, "{{") < 0
    ensures Substitute(s, repl) == s
    decreases |s|
  {
    if |s| > 0 {
      assert !OccursAt(s, "{{", 0);
      OccursAtIff(s, "{{", 0);
      assert VarAt(s).None?;
      ReplaceWithoutBraces(s[1..], repl);
    }
  }

  /** A first character other than `{` is copied as it is. */
  lemma ReplaceNonBrace(s: string, repl: string -> string)
    requires |s| > 0 && s[0] != '{'
    ensures Substitute(s, repl) == [s[0]] + Substitute(s[1..], repl)
  {
  }

  /** A run of characters none of which is `{` is copied as it is. */
  lemma {:induction false} ReplaceLiteralRun(p: string, t: string, repl: string -> string)
    requires '{' !in p
    ensures Substitute(p + t, repl) == p + Substitute(t, repl)
    decreases |p|
  {
    if |p| > 0 {
      var rest := p[1..] + t;
      assert p + t == [p[0]] + rest;
      ReplaceNonBrace([p[0]] + rest, repl);
      assert ([p[0]] + rest)[1..] == rest;
      ReplaceLiteralRun(p[1..], t, repl);
      assert [p[0]] + (p[1..] + Substitute(t, repl)) == p + Substitute(t, repl);
    } else {
      assert p + t == t;
    }
  }

  /** Text without `{` is left as it is. */
  lemma SubstituteLiteral(t: string, repl: string -> string)
    requires '{' !in t
    ensures Substitute(t, repl) == t
  {
    ReplaceLiteralRun(t, "", repl);
    SubstituteEmpty("", repl);
    assert t + "" == t;
  }

  /** A variable reference is replaced by `repl` of its expression; the rest
      follows. */
  lemma ReplaceVariableRef(e: string, t: string, repl: string -> string)
    requires ValidVarExpr(e)
    ensures Substitute("{{" + e + "}}" + t, repl) == repl(e) + Substitute(t, repl)
  {
    var s := "{{" + e + "}}" + t;
    assert s[..|e| + 4] == "{{" + e + "}}";
    StartsWithIff(s, "{{" + e + "}}");
    VarAtComplete(s, e);
    assert s[|e| + 4..] == t;
  }

  /** In the template language, a reference is replaced by the text of its
      resolved, stripped expression. */
  lemma ReplaceResolvedRef(e: string, t: string, stack: Stack)
    requires ValidVarExpr(e)
    ensures ReplaceVariables("{{" + e + "}}" + t, stack)
            == Substitution(Resolve(Strip(e), stack)) + ReplaceVariables(t, stack)
  {
    ReplaceIsSubstitute("{{" + e + "}}" + t, stack);
    ReplaceIsSubstitute(t, stack);
    ReplaceVariableRef(e, t, VarText(stack));
    VarTextOf(e, stack);
  }

  /** `{{` followed by `/` cannot start a variable reference. */
  lemma ReplaceSlashRun(tail: string, t: string, repl: string -> string)
    requires |tail| > 0 && tail[0] == '/' && '{' !in tail
    ensures Substitute("{{" + tail + t, repl) == "{{" + tail + Substitute(t, repl)
  {
    var s := "{{" + tail + t;
    assert s[2] == '/';
    assert s[1..][1] == '/';
    assert s[1..][1..] == tail + t;
    ReplaceLiteralRun(tail, t, repl);
  }

  /** A stray close tag is not a variable reference: it stays literal. */
  lemma ReplaceStrayClose(k: Kind, t: string, repl: string -> string)
    ensures Substitute(CloseTag(k) + t, repl) == CloseTag(k) + Substitute(t, repl)
  {
    var tail := "/" + KindName(k) + "}}";
    assert CloseTag(k) == "{{" + tail;
    assert '{' !in tail;
    ReplaceSlashRun(tail, t, repl);
    assert CloseTag(k) + t == "{{" + tail + t;
  }

  // ---------------------------------------------------------------------------
  // Rendering

  /** Two rendering steps in sequence: the first failure wins, otherwise the
      outputs are concatenated. */
  function Then(a: Result<string>, b: Result<string>): Result<string> {
    if a.Failure? then a else if b.Failure? then b else Success(a.value + b.value)
  }

  /** With no open tag, rendering is variable substitution alone. */
  lemma RenderPlainText(t: string, stack: Stack)
    requires Find(t, "{{#") < 0
    ensures Render(t, stack) == Success(ReplaceVariables(t, stack))
  {
    NoMarkerNoTag(t);
  }

  /** Text without `{` renders as itself, under any scopes. */
  lemma RenderConstant(t: string, stack: Stack)
    requires '{' !in t
    ensures Render(t, stack) == Success(t)
  {
    forall p | 0 <= p <= |t| ensures !OccursAt(t, "{{#", p) {
      if p + 3 <= |t| {
        assert t[p] in t;
        assert t[p..][..3][0] == t[p];
      }
    }
    RenderPlainText(t, stack);
    ReplaceIsSubstitute(t, stack);
    SubstituteLiteral(t, VarText(stack));
  }

  /** No pattern that starts with `{` occurs inside a brace-free prefix. */
  lemma NoBraceNoOccurrence(b: string, t: string, pat: string, p: nat)
    requires '{' !in b && |pat| > 0 && pat[0] == '{' && p < |b|
    ensures !OccursAt(b + t, pat, p)
  {
    OccursAtIff(b + t, pat, p);
  }

  /** After a brace-free body, the first event is the close tag that ends it. */
  lemma NextEventPlainClose(b: string, close: string, rest: string)
    requires '{' !in b && |close| >= 3 && close[..3] == "{{/"
    ensures NextEvent(b + close + rest, close, 0) == CloseEnd(|b| + |close|)
  {
    var s := b + close + rest;
    assert s == b + (close + rest);
    forall q | 0 <= q < |b| ensures !OccursAt(s, close, q) {
      NoBraceNoOccurrence(b, close + rest, close, q);
    }
    OccursAtIff(s, close, |b|);
    assert s[|b|..|b| + |close|] == close;
    SearchFromIs(s, close, 0, |b|);
    forall p | 0 <= p < |b| ensures TagAt(s[p..]).None? {
      if TagAt(s[p..]).Some? {
        TagAtNeedsMarker(s, p);
        NoBraceNoOccurrence(b, close + rest, "{{#", p);
      }
    }
    SearchTagFrom(s, 0, |b|);
  }

  /** A close tag met before any open tag ends the body just before it. */
  lemma SectionBeforeFirst(s: string, close: string, n: nat)
    requires |close| > 0 && NextEvent(s, close, 0) == CloseEnd(n)
    ensures n >= |close| && SectionBefore(s, close) == Some(Section(s[..n - |close|], n))
  {
    ExtractFromCloseFirst(s, close, 0, n);
  }

  /** A brace-free body is ended by the first close tag after it. */
  lemma SectionPlain(b: string, close: string, rest: string)
    requires '{' !in b && |close| >= 3 && close[..3] == "{{/"
    ensures SectionBefore(b + close + rest, close) == Some(Section(b, |b| + |close|))
  {
    NextEventPlainClose(b, close, rest);
    SectionBeforeFirst(b + close + rest, close, |b| + |close|);
    assert (b + close + rest)[..|b|] == b;
  }

  /** Every close tag starts with `{{/`. */
  lemma CloseTagShape(k: Kind)
    ensures |CloseTag(k)| >= 3 && CloseTag(k)[..3] == "{{/"
  {
  }

  /** A section whose body holds no `{` ends at its own close tag. */
  lemma ExtractPlain(b: string, k: Kind, rest: string)
    requires '{' !in b
    ensures Extract(b + CloseTag(k) + rest, k) == Success(Section(b, |b| + |CloseTag(k)|))
  {
    CloseTagShape(k);
    SectionPlain(b, CloseTag(k), rest);
    ExtractIs(b + CloseTag(k) + rest, k, Section(b, |b| + |CloseTag(k)|));
  }

  /** `Extract` is the section before the kind's close tag. */
  lemma ExtractIs(s: string, k: Kind, sec: Section)
    requires SectionBefore(s, CloseTag(k)) == Some(sec)
    ensures Extract(s, k) == Success(sec)
  {
  }

  /** An open tag at position 0 is the first one found. */
  lemma SearchTagAtStart(s: string, tag: Tag)
    requires TagAt(s) == Some(tag)
    ensures SearchTag(s, 0) == Some((0, tag))
  {
    assert s[0..] == s;
    TagAtPosIs(s, 0);
  }

  /** A template that starts with a section renders as the section followed by
      the rest, when both render. */
  lemma RenderLeadingOk(t: string, tag: Tag, sec: Section, stack: Stack)
    requires tag.len <= |t| && SearchTag(t, 0) == Some((0, tag))
    requires Extract(t[tag.len..], tag.kind) == Success(sec)
    requires RenderSection(tag.kind, Resolve(Strip(tag.expr), stack), sec.body, stack).Success?
    requires Render(t[tag.len..][sec.end..], stack).Success?
    ensures Render(t, stack) == Success(ReplaceVariables(t[..0], stack)
                                        + RenderSection(tag.kind, Resolve(Strip(tag.expr), stack), sec.body, stack).value
                                        + Render(t[tag.len..][sec.end..], stack).value)
  {
  }

  /** Dropping an empty first part of a concatenation. */
  lemma EmptyFront(e: string, x: string, y: string)
    requires e == []
    ensures e + x + y == x + y
  {
  }

  /** A template that starts with a section fails with the rest's error when
      only the rest fails. */
  lemma RenderLeadingRestFails(t: string, tag: Tag, sec: Section, stack: Stack)
    requires tag.len <= |t| && SearchTag(t, 0) == Some((0, tag))
    requires Extract(t[tag.len..], tag.kind) == Success(sec)
    requires RenderSection(tag.kind, Resolve(Strip(tag.expr), stack), sec.body, stack).Success?
    requires Render(t[tag.len..][sec.end..], stack).Failure?
    ensures Render(t, stack) == Render(t[tag.len..][sec.end..], stack)
  {
  }

  /** A template that starts with a section renders as the section, then the
      text after its close tag, with the first failure winning. */
  lemma RenderLeadingSection(t: string, tag: Tag, sec: Section, stack: Stack)
    requires tag.len <= |t| && SearchTag(t, 0) == Some((0, tag))
    requires Extract(t[tag.len..], tag.kind) == Success(sec)
    ensures Render(t, stack)
            == Then(RenderSection(tag.kind, Resolve(Strip(tag.expr), stack), sec.body, stack),
                    Render(t[tag.len..][sec.end..], stack))
  {
    var a := RenderSection(tag.kind, Resolve(Strip(tag.expr), stack), sec.body, stack);
    var b := Render(t[tag.len..][sec.end..], stack);
    if a.Failure? {
      RenderLeadingFails(t, tag, sec, stack);
    } else if b.Failure? {
      RenderLeadingRestFails(t, tag, sec, stack);
    } else {
      RenderLeadingOk(t, tag, sec, stack);
      assert ReplaceVariables(t[..0], stack) == "";
      EmptyFront(ReplaceVariables(t[..0], stack), a.value, b.value);
    }
  }

  /** A leading section with a brace-free body renders through `RenderSection`,
      and the text after its close tag renders on its own. */
  lemma RenderSectionPlain(k: Kind, e: string, b: string, rest: string, stack: Stack)
    requires ValidExpr(e) && '{' !in b
    ensures Render(OpenPrefix(k) + e + "}}" + b + CloseTag(k) + rest, stack)
            == Then(RenderSection(k, Resolve(Strip(e), stack), b, stack), Render(rest, stack))
  {
    var head := OpenPrefix(k) + e + "}}";
    var after := b + CloseTag(k) + rest;
    var t := head + after;
    assert t == OpenPrefix(k) + e + "}}" + b + CloseTag(k) + rest;
    var tag := Tag(k, e, |head|);
    StartsWithConcat(head, after);
    TagAtComplete(t, tag);
    SearchTagAtStart(t, tag);
    assert t[|head|..] == after;
    ExtractPlain(b, k, rest);
    RenderLeadingSection(t, tag, Section(b, |b| + |CloseTag(k)|), stack);
    assert after[|b| + |CloseTag(k)|..] == rest;
  }

  /** A template that starts with a section fails with the section's error when
      the section fails. */
  lemma RenderLeadingFails(t: string, tag: Tag, sec: Section, stack: Stack)
    requires tag.len <= |t| && SearchTag(t, 0) == Some((0, tag))
    requires Extract(t[tag.len..], tag.kind) == Success(sec)
    requires RenderSection(tag.kind, Resolve(Strip(tag.expr), stack), sec.body, stack).Failure?
    ensures Render(t, stack) == RenderSection(tag.kind, Resolve(Strip(tag.expr), stack), sec.body, stack)
  {
  }

  /** A template that starts with an unclosed section fails with that
      section's error. */
  lemma RenderLeadingUnclosed(t: string, tag: Tag, stack: Stack)
    requires tag.len <= |t| && SearchTag(t, 0) == Some((0, tag))
    requires Extract(t[tag.len..], tag.kind).Failure?
    ensures Render(t, stack) == Failure(UnclosedError(tag.kind))
  {
  }

  /** A template that opens with a section whose close tag is never matched fails
      with that section's error, whatever follows. */
  lemma RenderSectionUnclosed(k: Kind, e: string, after: string, stack: Stack)
    requires ValidExpr(e) && Extract(after, k).Failure?
    ensures Render(OpenPrefix(k) + e + "}}" + after, stack) == Failure(UnclosedError(k))
  {
    var head := OpenPrefix(k) + e + "}}";
    var t := head + after;
    var tag := Tag(k, e, |head|);
    StartsWithConcat(head, after);
    TagAtComplete(t, tag);
    SearchTagAtStart(t, tag);
    assert t[|head|..] == after;
    RenderLeadingUnclosed(t, tag, stack);
  }
}

