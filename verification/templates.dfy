/** The Handlebars-like `TemplateRenderer` (banter-agents/engine/simulation.py).

    The three regular expressions of the renderer are modelled by anchored scanners:
    `TagAt` recognises `{{#(each|if) ([^}]+)}}` (the section and the open-tag pattern
    are the same pattern) and `VarAt` recognises `{{([^#/{][^}]*)}}`. None of the
    patterns looks behind its match, so searching `t` from position `i` finds what
    searching the suffix `t[i..]` finds, shifted by `i`; the model therefore scans
    suffixes instead of carrying an index. */
module Templates {
  import opened Wrappers
  import opened Text
  import opened Dicts
  import opened Values

  /** One scope: a dict of names. */
  type Layer = Dict<Value>

  /** Scopes, innermost first. */
  type Stack = seq<Layer>

  datatype Kind = Each | If

  function KindName(k: Kind): string {
    if k == Each then "each" else "if"
  }

  function OpenPrefix(k: Kind): string {
    "{{#" + KindName(k) + " "
  }

  function CloseTag(k: Kind): string {
    "{{/" + KindName(k) + "}}"
  }

  /** The message of the exception an unterminated section raises. */
  function UnclosedError(k: Kind): Error {
    ValueError("Unclosed section for " + KindName(k))
  }

  /** A section expression as the pattern captures it: `[^}]+`. */
  predicate ValidExpr(e: string) {
    |e| > 0 && '}' !in e
  }

  /** A match of the open-tag pattern at the start of a string: its kind, its
      raw (unstripped) expression and the number of characters it spans. */
  datatype Tag = Tag(kind: Kind, expr: string, len: nat)

  /** `t` is exactly the open tag `{{#kind expr}}` at the start of `s`. */
  predicate IsTagAt(s: string, t: Tag) {
    && ValidExpr(t.expr)
    && t.len == |OpenPrefix(t.kind)| + |t.expr| + 2
    && StartsWith(s, OpenPrefix(t.kind) + t.expr + "}}")
  }

  /** `prefix([^}]+)}}` anchored at position 0: the captured expression and the
      length of the match. */
  function Delimited(s: string, prefix: string): (r: Option<(string, nat)>)
    ensures r.Some? ==> ValidExpr(r.value.0) && r.value.1 == |prefix| + |r.value.0| + 2
                        && StartsWith(s, prefix + r.value.0 + "}}")
  {
    if !StartsWith(s, prefix) then None
    else
      var n := |prefix|;
      var j := IndexOf(s[n..], '}');
      if j > 0 && StartsWith(s[n + j..], "}}") then
        var e := s[n..n + j];
        StartsWithIff(s, prefix);
        StartsWithIff(s[n + j..], "}}");
        StartsWithIff(s, prefix + e + "}}");
        assert s[..n + j + 2] == prefix + e + "}}";
        Some((e, n + j + 2))
      else None
  }

  /** `{{#(each|if) ([^}]+)}}` anchored at position 0; the alternatives are tried
      in order. */
  function TagAt(s: string): (r: Option<Tag>)
    ensures r.Some? ==> IsTagAt(s, r.value)
  {
    match Delimited(s, OpenPrefix(Each))
    case Some((e, n)) => Some(Tag(Each, e, n))
    case None =>
      match Delimited(s, OpenPrefix(If))
      case Some((e, n)) => Some(Tag(If, e, n))
      case None => None
  }

  /** `Delimited` on the suffix of `s` from `p`, read in place: the pattern
      matcher compares characters at positions of `s` rather than cutting it. */
  function DelimitedAt(s: string, p: nat, prefix: string): (r: Option<(string, nat)>)
    requires p <= |s|
    ensures r.Some? ==> 0 < r.value.1 && p + r.value.1 <= |s|
  {
    if !(p + |prefix| <= |s| && MatchesFrom(s, prefix, p, 0)) then None
    else
      var q := p + |prefix|;
      var k := IndexFrom(s, q, '}');
      if k > q && k + 1 < |s| && s[k + 1] == '}' then Some((s[q..k], k + 2 - p))
      else None
  }

  /** Cutting twice is cutting once. */
  lemma DropDrop(s: string, p: nat, i: nat)
    requires p + i <= |s|
    ensures s[p..][i..] == s[p + i..]
  {
  }

  /** A slice of a suffix is a slice of the whole. */
  lemma DropSlice(s: string, p: nat, i: nat, j: nat)
    requires i <= j && p + j <= |s|
    ensures s[p..][i..j] == s[p + i..p + j]
  {
  }

  /** The suffix from `p` starts with `prefix` exactly when the characters of
      `s` from `p` on match it. */
  lemma StartsWithAt(s: string, p: nat, prefix: string)
    requires p <= |s|
    ensures StartsWith(s[p..], prefix) <==> p + |prefix| <= |s| && MatchesFrom(s, prefix, p, 0)
  {
    StartsWithIff(s[p..], prefix);
    if p + |prefix| <= |s| {
      MatchesFromIff(s, prefix, p, 0);
      assert s[p..][..|prefix|] == s[p..p + |prefix|];
    }
  }

  /** At a `}` (or the end), the suffix starts with `}}` exactly when the next
      character is `}` as well. */
  lemma BracesAt(s: string, k: nat)
    requires k <= |s| && (k < |s| ==> s[k] == '}')
    ensures StartsWith(s[k..], "}}") <==> k + 1 < |s| && s[k + 1] == '}'
  {
    StartsWithIff(s[k..], "}}");
    if k + 2 <= |s| {
      assert s[k..][..2] == [s[k], s[k + 1]];
    }
  }

  /** Both readings agree once the prefix matched and the search for `}` ended
      at `k`. */
  lemma DelimitedAtMatched(s: string, p: nat, prefix: string, k: nat)
    requires p + |prefix| <= |s| && MatchesFrom(s, prefix, p, 0) && StartsWith(s[p..], prefix)
    requires k == IndexFrom(s, p + |prefix|, '}')
    requires IndexOf(s[p..][|prefix|..], '}') == k - (p + |prefix|)
    requires StartsWith(s[p..][k - p..], "}}") <==> k + 1 < |s| && s[k + 1] == '}'
    requires s[p..][|prefix|..k - p] == s[p + |prefix|..k]
    ensures DelimitedAt(s, p, prefix) == Delimited(s[p..], prefix)
  {
  }

  /** After a matched prefix, the search for `}` in the suffix ends where the
      in-place search ends. */
  lemma DelimitedAtIndex(s: string, p: nat, prefix: string)
    requires p + |prefix| <= |s|
    ensures IndexOf(s[p..][|prefix|..], '}') == IndexFrom(s, p + |prefix|, '}') - (p + |prefix|)
  {
    IndexFromIs(s, p + |prefix|, '}');
    DropDrop(s, p, |prefix|);
  }

  /** Where the in-place search for `}` stops, the suffix starts with `}}`
      exactly when the in-place test says so. */
  lemma DelimitedAtBraces(s: string, p: nat, prefix: string)
    requires p + |prefix| <= |s|
    ensures var k := IndexFrom(s, p + |prefix|, '}');
            StartsWith(s[p..][k - p..], "}}") <==> k + 1 < |s| && s[k + 1] == '}'
  {
    var k := IndexFrom(s, p + |prefix|, '}');
    IndexFromFound(s, p + |prefix|, '}');
    DropDrop(s, p, k - p);
    BracesAt(s, k);
  }

  /** Matching in place is matching the suffix. */
  lemma DelimitedAtIs(s: string, p: nat, prefix: string)
    requires p <= |s|
    ensures DelimitedAt(s, p, prefix) == Delimited(s[p..], prefix)
  {
    StartsWithAt(s, p, prefix);
    if p + |prefix| <= |s| && MatchesFrom(s, prefix, p, 0) {
      var k := IndexFrom(s, p + |prefix|, '}');
      DelimitedAtIndex(s, p, prefix);
      DelimitedAtBraces(s, p, prefix);
      DropSlice(s, p, |prefix|, k - p);
      DelimitedAtMatched(s, p, prefix, k);
    }
  }

  /** `TagAt` on the suffix of `s` from `p`, read in place. */
  function TagAtPos(s: string, p: nat): (r: Option<Tag>)
    requires p <= |s|
    ensures r.Some? ==> 0 < r.value.len && p + r.value.len <= |s|
  {
    match DelimitedAt(s, p, OpenPrefix(Each))
    case Some((e, n)) => Some(Tag(Each, e, n))
    case None =>
      match DelimitedAt(s, p, OpenPrefix(If))
      case Some((e, n)) => Some(Tag(If, e, n))
      case None => None
  }

  /** Matching in place is matching the suffix. */
  lemma TagAtPosIs(s: string, p: nat)
    requires p <= |s|
    ensures TagAtPos(s, p) == TagAt(s[p..])
  {
    DelimitedAtIs(s, p, OpenPrefix(Each));
    DelimitedAtIs(s, p, OpenPrefix(If));
  }

  /** `_open_re.search(s, idx)` / `_section_re.search(s, idx)`: the first position
      at or after `idx` where an open tag matches, with the tag. */
  function SearchTag(s: string, idx: nat): (r: Option<(nat, Tag)>)
    requires idx <= |s|
    ensures r.Some? ==> idx <= r.value.0 && r.value.0 + r.value.1.len <= |s| && r.value.1.len > 0
    decreases |s| - idx
  {
    match TagAtPos(s, idx)
    case Some(t) => Some((idx, t))
    case None => if idx == |s| then None else SearchTag(s, idx + 1)
  }

  /** What `SearchTag` reports is an open tag at the position it reports. */
  lemma {:induction false} SearchTagFound(s: string, idx: nat)
    requires idx <= |s| && SearchTag(s, idx).Some?
    ensures TagAt(s[SearchTag(s, idx).value.0..]) == Some(SearchTag(s, idx).value.1)
    decreases |s| - idx
  {
    TagAtPosIs(s, idx);
    if TagAtPos(s, idx).None? {
      SearchTagFound(s, idx + 1);
    }
  }

  /** No open tag matches between `idx` and the one `SearchTag` reports, nor
      anywhere after `idx` when it reports none: the match is the leftmost. */
  lemma {:induction false} SearchTagLeftmost(s: string, idx: nat, p: nat)
    requires idx <= p <= |s|
    requires SearchTag(s, idx).None? || p < SearchTag(s, idx).value.0
    ensures TagAt(s[p..]).None?
    decreases |s| - idx
  {
    TagAtPosIs(s, idx);
    if p > idx {
      SearchTagLeftmost(s, idx + 1, p);
    }
  }

  /** A match of the variable pattern at the start of a string. */
  datatype VarMatch = VarMatch(expr: string, len: nat)

  /** `e` is what the variable pattern's group captures: a first character other
      than `#`, `/`, `{`, then no `}`. */
  predicate ValidVarExpr(e: string) {
    |e| > 0 && e[0] !in "#/{" && '}' !in e[1..]
  }

  /** `{{([^#/{][^}]*)}}` anchored at position 0. */
  function VarAt(s: string): (r: Option<VarMatch>)
    ensures r.Some? ==> ValidVarExpr(r.value.expr) && r.value.len == |r.value.expr| + 4
                        && r.value.len <= |s| && s[..r.value.len] == "{{" + r.value.expr + "}}"
  {
    if |s| >= 3 && s[0] == '{' && s[1] == '{' && s[2] !in "#/{" then
      var j := IndexOf(s[3..], '}');
      if 5 + j <= |s| && s[3 + j] == '}' && s[4 + j] == '}' then
        var e := s[2..3 + j];
        assert e[1..] == s[3..][..j];
        assert '}' !in e[1..] by {
          forall i | 0 <= i < |e[1..]| ensures e[1..][i] != '}' {
            assert e[1..][i] == s[3..][i];
          }
        }
        assert s[3 + j..5 + j] == "}}";
        assert s[..2] == "{{";
        assert s[..5 + j] == s[..2] + e + s[3 + j..5 + j];
        Some(VarMatch(e, j + 5))
      else None
    else None
  }

  // ---------------------------------------------------------------------------
  // Scopes and variable resolution (`_resolve`, `_build_layer`)

  /** Member lookup during a dotted walk: `value.get(part)` on a dict; every other
      value is treated as having no attributes. */
  function Member(v: Value, name: string): Value {
    if v.Map? then Lookup(v.entries, name) else Null
  }

  /** The walk over the remaining path segments; `Null` when it stops at `None`. */
  function Walk(v: Value, parts: seq<string>): Value
    decreases |parts|
  {
    if |parts| == 0 then v
    else
      var next := Member(v, parts[0]);
      if next.Null? then Null else Walk(next, parts[1..])
  }

  /** The value a layer offers for a path: present only when the layer holds the
      root name and, for a dotted path, the walk does not stop at `None`. */
  function LayerValue(layer: Layer, path: seq<string>): Option<Value>
    requires |path| >= 1
  {
    if !HasKey(layer, path[0]) then None
    else
      var root := Lookup(layer, path[0]);
      if |path| == 1 then Some(root)
      else
        var w := Walk(root, path[1..]);
        if w.Null? then None else Some(w)
  }

  /** The layer loop of `_resolve`: innermost layer first, falling through to outer
      layers when a layer offers nothing. */
  function ResolvePath(path: seq<string>, stack: Stack): Value
    requires |path| >= 1
    decreases |stack|
  {
    if |stack| == 0 then Null
    else
      var here := LayerValue(stack[0], path);
      if here.Some? then here.value else ResolvePath(path, stack[1..])
  }

  /** `_resolve(expression, context_stack)` */
  function Resolve(expr: string, stack: Stack): Value {
    ResolvePath(Split(expr, '.'), stack)
  }

  /** `_build_layer(value)`: the innermost scope a section body sees. */
  function BuildLayer(v: Value): (r: Layer)
    ensures v.Map? ==> (forall k :: k != "this" ==> Get(r, k) == Get(v.entries, k))
                       && (HasKey(v.entries, "this") ==> Get(r, "this") == Get(v.entries, "this"))
                       && (!HasKey(v.entries, "this") ==> Get(r, "this") == Some(v))
    ensures v.Item? ==> Keys(r) == {"key", "value", "this"} && Get(r, "key") == Some(Str(v.key))
                        && Get(r, "value") == Some(v.val) && Get(r, "this") == Some(v)
    ensures !v.Map? && !v.Item? ==> Keys(r) == {"this"} && Get(r, "this") == Some(v)
  {
    match v
    case Map(d) => SetDefault(d, "this", v)
    case Item(k, x) =>
      var r := [("key", Str(k)), ("value", x), ("this", v)];
      KeyIndexIs(r, "key", 0);
      KeyIndexIs(r, "value", 1);
      assert Keys(r) == {"key", "value", "this"} by {
        assert r[0].0 == "key" && r[1].0 == "value" && r[2].0 == "this";
      }
      r
    case _ =>
      var r := [("this", v)];
      assert Keys(r) == {"this"} by { assert r[0].0 == "this"; }
      r
  }

  /** `d.items()` as values. */
  function DictItems(d: Dict<Value>): (r: seq<Value>)
    ensures |r| == |d| && forall i :: 0 <= i < |r| ==> r[i] == Item(d[i].0, d[i].1)
  {
    if |d| == 0 then [] else [Item(d[0].0, d[0].1)] + DictItems(d[1..])
  }

  /** What `{{#each}}` iterates over after resolving its expression: nothing for a
      falsy value, the `(key, value)` pairs of a dict, a string as a single item,
      the elements of a list or pair, and nothing for any other truthy scalar. */
  function EachItems(v: Value): (r: seq<Value>)
    ensures !Truthy(v) ==> r == []
    ensures Truthy(v) && v.Map? ==>
              |r| == |v.entries| && forall i :: 0 <= i < |r| ==> r[i] == Item(v.entries[i].0, v.entries[i].1)
    ensures Truthy(v) && v.Str? ==> r == [v]
    ensures Truthy(v) && v.List? ==> r == v.items
    ensures v.Item? ==> r == [Str(v.key), v.val]
    ensures v.Bool? || v.Int? ==> r == []
  {
    if !Truthy(v) then []
    else match v
      case Map(d) => DictItems(d)
      case Str(_) => [v]
      case List(xs) => xs
      case Item(k, x) => [Str(k), x]
      case _ => []
  }

  // ---------------------------------------------------------------------------
  // Variable substitution (`_replace_variables`)

  /** The text a resolved variable contributes: "" for `None`, else `str(value)`. */
  function Substitution(v: Value): string {
    if v.Null? then "" else ToStr(v)
  }

  /** `repl` of `_replace_variables`: the substitution of a match's stripped
      expression, resolved against the scopes. */
  function VarText(stack: Stack): string -> string {
    e => Substitution(Resolve(Strip(e), stack))
  }

  /** `_var_re.sub(repl, text)`: left to right, each match replaced by
      `repl` of its expression, unmatched characters kept. */
  function Substitute(s: string, repl: string -> string): string
    decreases |s|
  {
    if |s| == 0 then ""
    else match VarAt(s)
      case Some(m) => repl(m.expr) + Substitute(s[m.len..], repl)
      case None => [s[0]] + Substitute(s[1..], repl)
  }

  /** `_replace_variables(text, stack)`: `Substitute` with `VarText(stack)`,
      written out so that the scopes stay first-order. */
  function ReplaceVariables(s: string, stack: Stack): string
    decreases |s|
  {
    if |s| == 0 then ""
    else match VarAt(s)
      case Some(m) => Substitution(Resolve(Strip(m.expr), stack)) + ReplaceVariables(s[m.len..], stack)
      case None => [s[0]] + ReplaceVariables(s[1..], stack)
  }

  /** `ReplaceVariables` is `Substitute` with the scopes' replacement. */
  lemma {:induction false} ReplaceIsSubstitute(s: string, stack: Stack)
    ensures ReplaceVariables(s, stack) == Substitute(s, VarText(stack))
    decreases |s|
  {
    if |s| > 0 {
      match VarAt(s)
      case Some(m) =>
        var rest := s[m.len..];
        assert ReplaceVariables(rest, stack) == Substitute(rest, VarText(stack)) by {
          ReplaceIsSubstitute(rest, stack);
        }
        VarTextOf(m.expr, stack);
      case None =>
        assert ReplaceVariables(s[1..], stack) == Substitute(s[1..], VarText(stack)) by {
          ReplaceIsSubstitute(s[1..], stack);
        }
    }
  }

  /** The replacement text of one expression. */
  lemma VarTextOf(e: string, stack: Stack)
    ensures VarText(stack)(e) == Substitution(Resolve(Strip(e), stack))
  {
  }

  /** Nothing to replace in empty text. */
  lemma SubstituteEmpty(s: string, repl: string -> string)
    requires |s| == 0
    ensures Substitute(s, repl) == ""
  {
  }

  // ---------------------------------------------------------------------------
  // Section matching (`_extract_section`)

  /** Where a section's body ends: the body and the index just past its close tag,
      both relative to the text that follows the open tag. */
  datatype Section = Section(body: string, end: nat)

  /** `s.find(pat, idx)`: the first position at or after `idx` where `pat` occurs,
      or -1. */
  function SearchFrom(s: string, pat: string, idx: nat): (r: int)
    requires idx <= |s|
    ensures r == -1 || (idx <= r && r + |pat| <= |s|)
    decreases |s| - idx
  {
    if idx + |pat| <= |s| && MatchesFrom(s, pat, idx, 0) then idx
    else if idx == |s| then -1
    else SearchFrom(s, pat, idx + 1)
  }

  /** What `SearchFrom` finds is an occurrence. */
  lemma {:induction false} SearchFromFound(s: string, pat: string, idx: nat)
    requires idx <= |s| && SearchFrom(s, pat, idx) >= 0
    ensures OccursAt(s, pat, SearchFrom(s, pat, idx))
    decreases |s| - idx
  {
    OccursAtMatches(s, pat, idx);
    if !OccursAt(s, pat, idx) {
      SearchFromFound(s, pat, idx + 1);
    }
  }

  /** What one pass of the depth loop of `_extract_section` meets first from scan
      position `idx`: no close tag at all, an open tag (of either kind) that starts
      before the next close tag, or that close tag. Each carries the index just past
      the tag. */
  datatype Event = NoClose | OpenEnd(end: nat) | CloseEnd(end: nat)

  function NextEvent(s: string, close: string, idx: nat): (e: Event)
    requires idx <= |s|
    ensures e.OpenEnd? ==> idx < e.end <= |s|
    ensures e.CloseEnd? ==> idx + |close| <= e.end <= |s|
  {
    var nextClose := SearchFrom(s, close, idx);
    if nextClose < 0 then NoClose
    else
      var nextOpen := SearchTag(s, idx);
      if nextOpen.Some? && nextOpen.value.0 < nextClose then
        OpenEnd(nextOpen.value.0 + nextOpen.value.1.len)
      else CloseEnd(nextClose + |close|)
  }

  /** A close event ends just after an occurrence of `close`. */
  lemma NextEventCloseOccurs(s: string, close: string, idx: nat, end: nat)
    requires idx <= |s| && NextEvent(s, close, idx) == CloseEnd(end)
    ensures |close| <= end <= |s| && s[end - |close|..end] == close
  {
    SearchFromFound(s, close, idx);
    OccursAtIff(s, close, end - |close|);
  }

  /** The depth loop of `_extract_section`, from scan position `idx`, for the close
      tag `close` of the section's kind: the index just past the close tag that ends
      the section, or `None` when a close tag is missing. An open tag of either
      kind raises the depth; only `close` lowers it. */
  function ExtractFrom(s: string, close: string, idx: nat, depth: nat): (r: Option<nat>)
    requires idx <= |s| && depth >= 1 && |close| > 0
    ensures r.Some? ==> idx + |close| <= r.value <= |s|
    decreases |s| - idx
  {
    match NextEvent(s, close, idx)
    case NoClose => None
    case OpenEnd(next) => ExtractFrom(s, close, next, depth + 1)
    case CloseEnd(next) => if depth == 1 then Some(next) else ExtractFrom(s, close, next, depth - 1)
  }

  /** Where the depth loop stops, a close tag ends: the `|close|` characters
      before that position are `close`. */
  lemma {:induction false} ExtractFromClosed(s: string, close: string, idx: nat, depth: nat, n: nat)
    requires idx <= |s| && depth >= 1 && |close| > 0 && ExtractFrom(s, close, idx, depth) == Some(n)
    ensures |close| <= n <= |s| && s[n - |close|..n] == close
    decreases |s| - idx, 1
  {
    match NextEvent(s, close, idx)
    case NoClose =>
      ExtractFromNoCloseStep(s, close, idx, depth);
    case OpenEnd(next) =>
      ExtractFromClosedOpen(s, close, idx, depth, next, n);
    case CloseEnd(next) =>
      if depth > 1 {
        ExtractFromClosedClose(s, close, idx, depth, next, n);
      } else {
        ExtractFromClosedFirst(s, close, idx, next, n);
      }
  }

  /** `ExtractFromClosed` when the scan meets an open tag first. */
  lemma {:induction false} ExtractFromClosedOpen(s: string, close: string, idx: nat, depth: nat, next: nat, n: nat)
    requires idx <= |s| && depth >= 1 && |close| > 0 && ExtractFrom(s, close, idx, depth) == Some(n)
    requires NextEvent(s, close, idx) == OpenEnd(next)
    ensures |close| <= n <= |s| && s[n - |close|..n] == close
    decreases |s| - idx, 0
  {
    ExtractFromOpenStep(s, close, idx, depth, next);
    ExtractFromClosed(s, close, next, depth + 1, n);
  }

  /** `ExtractFromClosed` when the scan meets a close tag below the outermost
      level first. */
  lemma {:induction false} ExtractFromClosedClose(s: string, close: string, idx: nat, depth: nat, next: nat, n: nat)
    requires idx <= |s| && depth > 1 && |close| > 0 && ExtractFrom(s, close, idx, depth) == Some(n)
    requires NextEvent(s, close, idx) == CloseEnd(next)
    ensures |close| <= n <= |s| && s[n - |close|..n] == close
    decreases |s| - idx, 0
  {
    ExtractFromCloseStep(s, close, idx, depth, next);
    ExtractFromClosed(s, close, next, depth - 1, n);
  }

  /** `ExtractFromClosed` when the scan meets the close tag that ends the
      section. */
  lemma ExtractFromClosedFirst(s: string, close: string, idx: nat, next: nat, n: nat)
    requires idx <= |s| && |close| > 0 && ExtractFrom(s, close, idx, 1) == Some(n)
    requires NextEvent(s, close, idx) == CloseEnd(next)
    ensures |close| <= n <= |s| && s[n - |close|..n] == close
  {
    ExtractFromCloseFirst(s, close, idx, next);
    NextEventCloseOccurs(s, close, idx, n);
  }


  /** An open tag takes the depth loop one level deeper. */
  lemma ExtractFromOpenStep(s: string, close: string, idx: nat, depth: nat, n: nat)
    requires idx <= |s| && depth >= 1 && |close| > 0 && NextEvent(s, close, idx) == OpenEnd(n)
    ensures ExtractFrom(s, close, idx, depth) == ExtractFrom(s, close, n, depth + 1)
  {
  }

  /** A matching close tag below the outermost level takes it one level out. */
  lemma ExtractFromCloseStep(s: string, close: string, idx: nat, depth: nat, n: nat)
    requires idx <= |s| && depth > 1 && |close| > 0 && NextEvent(s, close, idx) == CloseEnd(n)
    ensures ExtractFrom(s, close, idx, depth) == ExtractFrom(s, close, n, depth - 1)
  {
  }

  /** Running out of close tags at any depth leaves the section unclosed. */
  lemma ExtractFromNoCloseStep(s: string, close: string, idx: nat, depth: nat)
    requires idx <= |s| && depth >= 1 && |close| > 0 && NextEvent(s, close, idx) == NoClose
    ensures ExtractFrom(s, close, idx, depth) == None
  {
  }

  /** At depth one, the first close tag found ends the section. */
  lemma ExtractFromCloseFirst(s: string, close: string, idx: nat, n: nat)
    requires idx <= |s| && |close| > 0 && NextEvent(s, close, idx) == CloseEnd(n)
    ensures ExtractFrom(s, close, idx, 1) == Some(n)
  {
  }

  /** The section that ends at the close tag `close` matching an open tag just
      before `s`: its body, followed by `close`, is a prefix of `s`. */
  function SectionBefore(s: string, close: string): (r: Option<Section>)
    requires |close| > 0
    ensures r.Some? ==> r.value.end <= |s| && s[..r.value.end] == r.value.body + close
  {
    match ExtractFrom(s, close, 0, 1)
    case None => None
    case Some(end) =>
      ExtractFromClosed(s, close, 0, 1, end);
      var body := s[..end - |close|];
      assert s[..end] == body + s[end - |close|..end];
      Some(Section(body, end))
  }

  /** `_extract_section(template, section_start, tag_type)` applied to the text after
      the open tag: the body excludes both tags, and the close tag ends the scan. */
  function Extract(s: string, kind: Kind): (r: Result<Section>)
    ensures r.Success? ==> r.value.end <= |s| && s[..r.value.end] == r.value.body + CloseTag(kind)
    ensures r.Failure? ==> r.error == UnclosedError(kind)
  {
    match SectionBefore(s, CloseTag(kind))
    case None => Failure(UnclosedError(kind))
    case Some(sec) => Success(sec)
  }

  // ---------------------------------------------------------------------------
  // Rendering (`render` / `_render`)

  /** An error rendering can raise: an unterminated section of either kind. */
  predicate IsRenderError(e: Error) {
    e == UnclosedError(Each) || e == UnclosedError(If)
  }

  /** `_render(template, context_stack)` */
  function Render(t: string, stack: Stack): (r: Result<string>)
    ensures r.Failure? ==> IsRenderError(r.error)
    decreases |t|, 1, 0
  {
    match SearchTag(t, 0)
    case None => Success(ReplaceVariables(t, stack))
    case Some((start, tag)) =>
      var after := t[start + tag.len..];
      var section :- Extract(after, tag.kind);
      var value := Resolve(Strip(tag.expr), stack);
      var out :- RenderSection(tag.kind, value, section.body, stack);
      var rest :- Render(after[section.end..], stack);
      Success(ReplaceVariables(t[..start], stack) + out + rest)
  }

  /** The output of one section whose expression resolved to `value`. */
  function RenderSection(kind: Kind, value: Value, body: string, stack: Stack): (r: Result<string>)
    ensures r.Failure? ==> IsRenderError(r.error)
    decreases |body|, 3, 0
  {
    match kind
    case Each => RenderItems(body, EachItems(value), stack)
    case If =>
      if Truthy(value) then Render(body, [BuildLayer(value)] + stack) else Success("")
  }

  /** The body rendered once per item, each time under the item's own layer. */
  function RenderItems(body: string, items: seq<Value>, stack: Stack): (r: Result<string>)
    ensures r.Failure? ==> IsRenderError(r.error)
    decreases |body|, 2, |items|
  {
    if |items| == 0 then Success("")
    else
      var first :- Render(body, [BuildLayer(items[0])] + stack);
      var others :- RenderItems(body, items[1..], stack);
      Success(first + others)
  }

  /** `TemplateRenderer().render(template, context)` */
  function RenderTemplate(template: string, context: Layer): Result<string> {
    Render(template, [context])
  }
}
