/** Laws of variable resolution and of the scopes a section body sees: layers are
    searched innermost first, a bare name stops at the first layer that holds it,
    a dotted path falls through layers whose walk stops at `None`, and `if` and
    `each` render their bodies under the layer `_build_layer` makes. */
module TemplateScopes {
  import opened Wrappers
  import opened Text
  import opened Dicts
  import opened Values
  import opened Templates
  import opened TemplateLaws

  // ---------------------------------------------------------------------------
  // Resolution order

  /** `ResolvePath` returns what the first layer offering a value offers. */
  lemma {:induction false} ResolveFirstOffering(path: seq<string>, stack: Stack, i: nat)
    requires |path| >= 1 && i < |stack| && LayerValue(stack[i], path).Some?
    requires forall j :: 0 <= j < i ==> LayerValue(stack[j], path).None?
    ensures ResolvePath(path, stack) == LayerValue(stack[i], path).value
    decreases i
  {
    if i > 0 {
      assert LayerValue(stack[0], path).None?;
      assert forall j :: 0 <= j < i - 1 ==> stack[1..][j] == stack[j + 1];
      ResolveFirstOffering(path, stack[1..], i - 1);
    }
  }

  /** With no layer offering a value, resolution gives `None`. */
  lemma {:induction false} ResolveNoOffering(path: seq<string>, stack: Stack)
    requires |path| >= 1
    requires forall j :: 0 <= j < |stack| ==> LayerValue(stack[j], path).None?
    ensures ResolvePath(path, stack) == Null
    decreases |stack|
  {
    if |stack| > 0 {
      assert LayerValue(stack[0], path).None?;
      assert forall j :: 0 <= j < |stack| - 1 ==> stack[1..][j] == stack[j + 1];
      ResolveNoOffering(path, stack[1..]);
    }
  }

  /** A name without `.` is a path of one segment. */
  lemma SplitNoDot(name: string)
    requires '.' !in name
    ensures Split(name, '.') == [name]
  {
    assert IndexOf(name, '.') == |name|;
  }

  /** A bare name held by a layer resolves to that layer's value, even `None`,
      whatever the outer layers hold. */
  lemma ResolveBareName(name: string, stack: Stack, i: nat)
    requires '.' !in name && i < |stack| && HasKey(stack[i], name)
    requires forall j :: 0 <= j < i ==> !HasKey(stack[j], name)
    ensures Resolve(name, stack) == Lookup(stack[i], name)
  {
    SplitNoDot(name);
    ResolveFirstOffering([name], stack, i);
  }

  /** A dotted path whose walk stops at `None` in a layer that holds its root falls
      through to the outer layers. */
  lemma DottedFallThrough(path: seq<string>, stack: Stack)
    requires |path| >= 2 && |stack| >= 1 && HasKey(stack[0], path[0])
    requires Walk(Lookup(stack[0], path[0]), path[1..]).Null?
    ensures ResolvePath(path, stack) == ResolvePath(path, stack[1..])
  {
  }

  /** The walk of a dotted path never ends at `None` when it offers a value, so a
      layer offering a dotted path offers something other than `None`. */
  lemma DottedOfferNotNull(layer: Layer, path: seq<string>)
    requires |path| >= 2 && LayerValue(layer, path).Some?
    ensures !LayerValue(layer, path).value.Null?
  {
  }

  /** Resolution of a dotted path gives `None` only when no layer offers a value. */
  lemma {:induction false} DottedNullMeansAbsent(path: seq<string>, stack: Stack)
    requires |path| >= 2 && ResolvePath(path, stack).Null?
    ensures forall j :: 0 <= j < |stack| ==> LayerValue(stack[j], path).None?
    decreases |stack|
  {
    if |stack| > 0 {
      if LayerValue(stack[0], path).Some? {
        DottedOfferNotNull(stack[0], path);
      } else {
        DottedNullMeansAbsent(path, stack[1..]);
        assert forall j :: 1 <= j < |stack| ==> stack[j] == stack[1..][j - 1];
      }
    }
  }

  /** A layer that does not hold a path's root name is skipped. */
  lemma ResolveSkipsLayer(path: seq<string>, stack: Stack)
    requires |path| >= 1 && |stack| >= 1 && !HasKey(stack[0], path[0])
    ensures ResolvePath(path, stack) == ResolvePath(path, stack[1..])
  {
  }

  // ---------------------------------------------------------------------------
  // The layer a section body sees

  /** Inside a section, `this` names the section's value, unless that value is a
      dict that has its own `this` key. */
  lemma ResolveThis(v: Value, stack: Stack)
    ensures Resolve("this", [BuildLayer(v)] + stack)
            == if v.Map? && HasKey(v.entries, "this") then Lookup(v.entries, "this") else v
  {
    ResolveBareName("this", [BuildLayer(v)] + stack, 0);
  }

  /** Inside a section over a dict, the dict's own keys are visible as bare names. */
  lemma ResolveDictField(d: Dict<Value>, f: string, stack: Stack)
    requires '.' !in f && f != "this" && HasKey(d, f)
    ensures Resolve(f, [BuildLayer(Map(d))] + stack) == Lookup(d, f)
  {
    ResolveBareName(f, [BuildLayer(Map(d))] + stack, 0);
  }

  /** Inside a section over a `(key, value)` pair, `key` names the key. */
  lemma ResolveItemKey(k: string, x: Value, stack: Stack)
    ensures Resolve("key", [BuildLayer(Item(k, x))] + stack) == Str(k)
  {
    ResolveBareName("key", [BuildLayer(Item(k, x))] + stack, 0);
  }

  /** Names the section's layer does not hold are resolved in the enclosing scopes. */
  lemma ResolveOuterName(v: Value, name: string, stack: Stack)
    requires '.' !in name && !HasKey(BuildLayer(v), name)
    ensures Resolve(name, [BuildLayer(v)] + stack) == Resolve(name, stack)
  {
    SplitNoDot(name);
    assert ([BuildLayer(v)] + stack)[1..] == stack;
  }

  // ---------------------------------------------------------------------------
  // `if` and `each`

  /** No open-tag marker occurs in a lone variable reference whose expression has
      no brace. */
  lemma VarRefNoMarker(e: string, p: int)
    requires ValidVarExpr(e) && '{' !in e
    ensures !OccursAt("{{" + e + "}}", "{{#", p)
  {
    var s := "{{" + e + "}}";
    if 0 <= p && p + 3 <= |s| {
      var w := s[p..][..3];
      assert w[0] == s[p] && w[1] == s[p + 1] && w[2] == s[p + 2];
      assert s[2] == e[0];
      if p >= 2 {
        assert s[p] == e[p - 2] && e[p - 2] in e;
      }
    }
  }

  /** So `Find` reports no marker. */
  lemma VarRefFindNoMarker(e: string)
    requires ValidVarExpr(e) && '{' !in e
    ensures Find("{{" + e + "}}", "{{#") < 0
  {
    var s := "{{" + e + "}}";
    if Find(s, "{{#") >= 0 {
      VarRefNoMarker(e, Find(s, "{{#"));
    }
  }

  /** Text that is one whole variable match is replaced by `repl` of it. */
  lemma SubstituteWhole(s: string, e: string, repl: string -> string)
    requires VarAt(s) == Some(VarMatch(e, |s|))
    ensures Substitute(s, repl) == repl(e)
  {
    assert s[|s|..] == [];
  }

  /** Text that is one whole variable match is replaced by the variable's text. */
  lemma ReplaceWholeVar(s: string, e: string, stack: Stack)
    requires VarAt(s) == Some(VarMatch(e, |s|))
    ensures ReplaceVariables(s, stack) == Substitution(Resolve(Strip(e), stack))
  {
    ReplaceIsSubstitute(s, stack);
    SubstituteWhole(s, e, VarText(stack));
    VarTextOf(e, stack);
  }

  /** A marker-free template that is exactly one variable reference renders as
      that variable's text. */
  lemma RenderPlainVar(s: string, e: string, stack: Stack)
    requires ValidVarExpr(e) && Find(s, "{{#") < 0
    requires StartsWith(s, "{{" + e + "}}") && |s| == |e| + 4
    ensures Render(s, stack) == Success(Substitution(Resolve(Strip(e), stack)))
  {
    VarAtComplete(s, e);
    ReplaceWholeVar(s, e, stack);
    RenderPlainText(s, stack);
  }

  /** A template that is one variable reference renders as that variable's text. */
  lemma RenderVariableOnly(e: string, stack: Stack)
    requires ValidVarExpr(e) && '{' !in e
    ensures Render("{{" + e + "}}", stack) == Success(Substitution(Resolve(Strip(e), stack)))
  {
    VarRefFindNoMarker(e);
    StartsWithConcat("{{" + e + "}}", []);
    assert "{{" + e + "}}" + [] == "{{" + e + "}}";
    RenderPlainVar("{{" + e + "}}", e, stack);
  }

  /** `{{#if}}` over a brace-free body: the body when the value is truthy, else
      nothing. */
  lemma RenderIfConstant(v: Value, b: string, stack: Stack)
    requires '{' !in b
    ensures RenderSection(If, v, b, stack) == Success(if Truthy(v) then b else "")
  {
    RenderConstant(b, [BuildLayer(v)] + stack);
  }

  /** Rendering the items is rendering the first item, then the others. */
  lemma RenderItemsStep(b: string, items: seq<Value>, stack: Stack, first: string, others: string)
    requires |items| > 0
    requires Render(b, [BuildLayer(items[0])] + stack) == Success(first)
    requires RenderItems(b, items[1..], stack) == Success(others)
    ensures RenderItems(b, items, stack) == Success(first + others)
  {
  }

  /** A brace-free body is written once per item. */
  lemma {:induction false} RenderItemsConstant(b: string, items: seq<Value>, stack: Stack)
    requires '{' !in b
    ensures RenderItems(b, items, stack) == Success(Repeat(b, |items|))
    decreases |items|
  {
    if |items| > 0 {
      RenderItemsConstant(b, items[1..], stack);
      RenderItemsConstantStep(b, items, stack);
    }
  }

  /** One step of `RenderItemsConstant`: the first item writes `b` once more. */
  lemma RenderItemsConstantStep(b: string, items: seq<Value>, stack: Stack)
    requires '{' !in b && |items| > 0
    requires RenderItems(b, items[1..], stack) == Success(Repeat(b, |items| - 1))
    ensures RenderItems(b, items, stack) == Success(Repeat(b, |items|))
  {
    RenderConstant(b, [BuildLayer(items[0])] + stack);
    RenderItemsStep(b, items, stack, b, Repeat(b, |items| - 1));
  }

  /** `{{#each}}` over a brace-free body writes it once per item `each` visits. */
  lemma RenderEachConstant(v: Value, b: string, stack: Stack)
    requires '{' !in b
    ensures RenderSection(Each, v, b, stack) == Success(Repeat(b, |EachItems(v)|))
  {
    RenderItemsConstant(b, EachItems(v), stack);
  }

  /** The text variable `e` resolves to under each item's layer, in item order. */
  function VarTexts(e: string, items: seq<Value>, stack: Stack): string
    decreases |items|
  {
    if |items| == 0 then ""
    else Substitution(Resolve(Strip(e), [BuildLayer(items[0])] + stack)) + VarTexts(e, items[1..], stack)
  }

  /** A body that is one variable reference writes, for each item, what the
      variable resolves to under that item's layer. */
  lemma {:induction false} RenderItemsVar(e: string, items: seq<Value>, stack: Stack)
    requires ValidVarExpr(e) && '{' !in e
    ensures RenderItems("{{" + e + "}}", items, stack) == Success(VarTexts(e, items, stack))
    decreases |items|
  {
    if |items| > 0 {
      var first := Substitution(Resolve(Strip(e), [BuildLayer(items[0])] + stack));
      var others := VarTexts(e, items[1..], stack);
      assert RenderItems("{{" + e + "}}", items, stack) == Success(first + others) by {
        RenderVariableOnly(e, [BuildLayer(items[0])] + stack);
        RenderItemsVar(e, items[1..], stack);
        RenderItemsStep("{{" + e + "}}", items, stack, first, others);
      }
    }
  }

  /** The text of each value in turn. */
  function Substitutions(items: seq<Value>): string {
    if |items| == 0 then "" else Substitution(items[0]) + Substitutions(items[1..])
  }

  /** One step of `ThisTexts`: the first item, which is not a dict, is its own
      `this`. */
  lemma ThisTextStep(items: seq<Value>, stack: Stack)
    requires |items| > 0 && !items[0].Map?
    requires VarTexts("this", items[1..], stack) == Substitutions(items[1..])
    ensures VarTexts("this", items, stack) == Substitutions(items)
  {
    StripStripped("this");
    ResolveThis(items[0], stack);
  }

  /** `this` resolves to each item that is not a dict. */
  lemma {:induction false} ThisTexts(items: seq<Value>, stack: Stack)
    requires forall i :: 0 <= i < |items| ==> !items[i].Map?
    ensures VarTexts("this", items, stack) == Substitutions(items)
    decreases |items|
  {
    if |items| > 0 {
      ThisTexts(items[1..], stack);
      ThisTextStep(items, stack);
    }
  }

  /** `{{#each}}` over a list with body `{{this}}` writes each element's text in
      order, for elements that are not dicts. */
  lemma RenderEachThis(name: string, xs: seq<Value>, stack: Stack)
    requires name == "this"
    requires forall i :: 0 <= i < |xs| ==> !xs[i].Map?
    ensures RenderSection(Each, List(xs), "{{" + name + "}}", stack) == Success(Substitutions(xs))
  {
    assert EachItems(List(xs)) == xs;
    RenderItemsVar(name, xs, stack);
    ThisTexts(xs, stack);
  }

  /** The keys of a dict, one after the other. */
  function KeysText(d: Dict<Value>): string {
    if |d| == 0 then "" else d[0].0 + KeysText(d[1..])
  }

  /** `key` resolves to the key of each `(key, value)` pair. */
  lemma {:induction false} KeyTexts(d: Dict<Value>, stack: Stack)
    ensures VarTexts("key", DictItems(d), stack) == KeysText(d)
    decreases |d|
  {
    if |d| > 0 {
      StripStripped("key");
      ResolveItemKey(d[0].0, d[0].1, stack);
      assert DictItems(d)[1..] == DictItems(d[1..]);
      KeyTexts(d[1..], stack);
    }
  }

  /** Iterating a dict visits its `(key, value)` pairs in insertion order. */
  lemma RenderEachDictKeys(name: string, d: Dict<Value>, stack: Stack)
    requires name == "key"
    ensures RenderSection(Each, Map(d), "{{" + name + "}}", stack) == Success(KeysText(d))
  {
    RenderItemsVar(name, EachItems(Map(d)), stack);
    KeyTexts(d, stack);
  }
}
