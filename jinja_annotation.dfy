/**
  The Jinja2 extension that annotates templates with HTML comments
  (src/tidewave/jinja2/__init__.py). `preprocess` brackets the source in
  `template_debug` tags; the tag's `parse` then frames the template body,
  and every block holding HTML, in comments naming the template file.

  The parsed body is given as a tree of nodes. `os.path.relpath` and the
  parser stream are parameters or left out; line numbers are not modelled.
*/
module JinjaAnnotation {
  import opened Wrappers
  import Text

  /** A template node. `Generic` is any other node: whether it has a `body`
      list and that list, whether it has a `nodes` list and that list, and
      its other child nodes. */
  datatype Node =
    | Block(name: string, body: seq<Node>)
    | TemplateData(data: string)
    | Extends(children: seq<Node>)
    | Generic(hasBody: bool, bodyList: seq<Node>, hasNodes: bool, nodesList: seq<Node>, rest: seq<Node>)

  /** `nodes.Output([nodes.TemplateData(text)])`. */
  function TextOutput(text: string): Node
  {
    Generic(false, [], true, [TemplateData(text)], [])
  }

  function BlockStart(name: string, filename: string): Node
  {
    TextOutput("<!-- BLOCK: " + name + ", TEMPLATE: " + filename + " -->\n")
  }

  function BlockEnd(name: string): Node
  {
    TextOutput("\n<!-- END BLOCK: " + name + " -->")
  }

  function TemplateStart(filename: string): Node
  {
    TextOutput("<!-- TEMPLATE: " + filename + " -->\n")
  }

  function TemplateEnd(filename: string): Node
  {
    TextOutput("\n<!-- END TEMPLATE: " + filename + " -->")
  }

  function SubtemplateStart(filename: string): Node
  {
    TextOutput("<!-- SUBTEMPLATE: " + filename + " -->\n")
  }

  // ---------------------------------------------------------------------
  // find_all

  predicate IsHtmlText(n: Node)
  {
    n.TemplateData? && '<' in n.data
  }

  /** `_has_html_content_in_node`: some node strictly below `n` is
      `TemplateData` holding "<". */
  predicate HasHtml(n: Node)
    decreases n, 0
  {
    match n
    case Block(_, body) => AnyHtml(body)
    case TemplateData(_) => false
    case Extends(children) => AnyHtml(children)
    case Generic(hasBody, body, hasNodes, nodes, rest) =>
      (hasBody && AnyHtml(body)) || (hasNodes && AnyHtml(nodes)) || AnyHtml(rest)
  }

  /** Some node of `ns`, or below one, is `TemplateData` holding "<". */
  predicate AnyHtml(ns: seq<Node>)
    decreases ns
  {
    exists k :: 0 <= k < |ns| && (IsHtmlText(ns[k]) || HasHtml(ns[k]))
  }

  /** `_has_html_content_in_ast`: some top-level node has HTML below it. */
  predicate HtmlInAst(body: seq<Node>)
  {
    exists k :: 0 <= k < |body| && HasHtml(body[k])
  }

  /** Some node strictly below `n` is an `Extends`. */
  predicate ExtendsBelow(n: Node)
    decreases n, 0
  {
    match n
    case Block(_, body) => AnyExtends(body)
    case TemplateData(_) => false
    case Extends(children) => AnyExtends(children)
    case Generic(hasBody, body, hasNodes, nodes, rest) =>
      (hasBody && AnyExtends(body)) || (hasNodes && AnyExtends(nodes)) || AnyExtends(rest)
  }

  /** `_has_extends_node`: some node of `ns`, or below one, is an `Extends`. */
  predicate AnyExtends(ns: seq<Node>)
    decreases ns
  {
    exists k :: 0 <= k < |ns| && (ns[k].Extends? || ExtendsBelow(ns[k]))
  }

  /** The loop of `_has_html_content_in_ast`. */
  method HasHtmlContentInAst(body: seq<Node>) returns (b: bool)
    ensures b == HtmlInAst(body)
  {
    for i := 0 to |body|
      invariant forall k :: 0 <= k < i ==> !HasHtml(body[k])
    {
      if HasHtml(body[i]) {
        return true;
      }
    }
    return false;
  }

  /** The loop of `_has_extends_node`. */
  method HasExtendsNode(body: seq<Node>) returns (b: bool)
    ensures b == AnyExtends(body)
  {
    for i := 0 to |body|
      invariant forall k :: 0 <= k < i ==> !body[k].Extends? && !ExtendsBelow(body[k])
    {
      if body[i].Extends? {
        return true;
      }
      if ExtendsBelow(body[i]) {
        return true;
      }
    }
    return false;
  }

  // ---------------------------------------------------------------------
  // _wrap_blocks_with_annotations

  /** One node of `_wrap_blocks_with_annotations`: a block with HTML gets
      comments around its processed body; any other block, and any node
      with a `body` (else `nodes`) list, has that list processed. A node
      keeps its kind, a block its name, and a node of any other kind is left
      as it is. */
  function WrapNode(n: Node, filename: string): (r: Node)
    ensures (r.Block? <==> n.Block?) && (r.Generic? <==> n.Generic?)
    ensures r.Block? ==> r.name == n.name
    ensures !n.Block? && !n.Generic? ==> r == n
    decreases n, 0
  {
    match n
    case Block(name, body) =>
      if HasHtml(n) then Block(name, [BlockStart(name, filename)] + Wrap(body, filename) + [BlockEnd(name)])
      else Block(name, Wrap(body, filename))
    case Generic(hasBody, body, hasNodes, nodes, rest) =>
      if hasBody then Generic(hasBody, Wrap(body, filename), hasNodes, nodes, rest)
      else if hasNodes then Generic(hasBody, body, hasNodes, Wrap(nodes, filename), rest)
      else n
    case _ => n
  }

  function Wrap(ns: seq<Node>, filename: string): (r: seq<Node>)
    decreases ns
  {
    seq(|ns|, k requires 0 <= k < |ns| => WrapNode(ns[k], filename))
  }

  /** The loop of `_wrap_blocks_with_annotations` over one list. */
  method WrapBlocksWithAnnotations(body: seq<Node>, filename: string) returns (wrapped: seq<Node>)
    ensures wrapped == Wrap(body, filename)
  {
    wrapped := [];
    for i := 0 to |body|
      invariant wrapped == Wrap(body[..i], filename)
    {
      wrapped := wrapped + [WrapNode(body[i], filename)];
    }
    assert body[..|body|] == body;
  }

  /** The processed list has the same length and order as the input: each
      node keeps its kind, and each block its name. */
  lemma WrapShape(ns: seq<Node>, filename: string)
    ensures |Wrap(ns, filename)| == |ns|
    ensures forall k :: 0 <= k < |ns| ==>
      var w := Wrap(ns, filename)[k];
      && (w.Block? <==> ns[k].Block?) && (w.Block? ==> w.name == ns[k].name)
      && (w.TemplateData? <==> ns[k].TemplateData?) && (w.Extends? <==> ns[k].Extends?)
      && (!ns[k].Block? && !ns[k].Generic? ==> w == ns[k])
  {
  }

  /** Nothing without HTML changes: nested blocks of a block without HTML
      are left alone too. */
  lemma {:induction false} WrapNodeNoHtml(n: Node, filename: string)
    requires !HasHtml(n)
    ensures WrapNode(n, filename) == n
    decreases n, 0
  {
    match n
    case Block(name, body) => WrapNoHtml(body, filename);
    case Generic(hasBody, body, hasNodes, nodes, rest) =>
      if hasBody {
        WrapNoHtml(body, filename);
      } else if hasNodes {
        WrapNoHtml(nodes, filename);
      }
    case _ =>
  }

  lemma {:induction false} WrapNoHtml(ns: seq<Node>, filename: string)
    requires !AnyHtml(ns)
    ensures Wrap(ns, filename) == ns
    decreases ns
  {
    forall k | 0 <= k < |ns|
      ensures WrapNode(ns[k], filename) == ns[k]
    {
      WrapNodeNoHtml(ns[k], filename);
    }
  }

  /** Wrapping adds no `Extends` and removes none. */
  lemma {:induction false} WrapNodeExtends(n: Node, filename: string)
    ensures n.Extends? == WrapNode(n, filename).Extends?
    ensures ExtendsBelow(WrapNode(n, filename)) == ExtendsBelow(n)
    decreases n, 0
  {
    match n
    case Block(name, body) =>
      WrapExtends(body, filename);
      if HasHtml(n) {
        var s, e := BlockStart(name, filename), BlockEnd(name);
        NoExtendsInText("<!-- BLOCK: " + name + ", TEMPLATE: " + filename + " -->\n");
        NoExtendsInText("\n<!-- END BLOCK: " + name + " -->");
        AnyExtendsConcat([s] + Wrap(body, filename), [e]);
        AnyExtendsConcat([s], Wrap(body, filename));
      }
    case Generic(hasBody, body, hasNodes, nodes, rest) =>
      if hasBody {
        WrapExtends(body, filename);
      } else if hasNodes {
        WrapExtends(nodes, filename);
      }
    case _ =>
  }

  lemma {:induction false} WrapExtends(ns: seq<Node>, filename: string)
    ensures AnyExtends(Wrap(ns, filename)) == AnyExtends(ns)
    decreases ns
  {
    forall k | 0 <= k < |ns|
      ensures (ns[k].Extends? || ExtendsBelow(ns[k])) ==
              (Wrap(ns, filename)[k].Extends? || ExtendsBelow(Wrap(ns, filename)[k]))
    {
      WrapNodeExtends(ns[k], filename);
    }
  }

  lemma NoExtendsInText(text: string)
    ensures !AnyExtends([TextOutput(text)])
  {
    var d := TemplateData(text);
    assert !ExtendsBelow(d);
    assert forall k :: 0 <= k < |[d]| ==> [d][k] == d;
    assert !AnyExtends([d]);
    assert !AnyExtends([]);
    assert !ExtendsBelow(TextOutput(text));
    assert forall k :: 0 <= k < |[TextOutput(text)]| ==> [TextOutput(text)][k] == TextOutput(text);
  }

  lemma AnyExtendsConcat(a: seq<Node>, b: seq<Node>)
    ensures AnyExtends(a + b) == (AnyExtends(a) || AnyExtends(b))
  {
    if AnyExtends(a + b) {
      var k :| 0 <= k < |a + b| && ((a + b)[k].Extends? || ExtendsBelow((a + b)[k]));
      if k >= |a| {
        assert b[k - |a|] == (a + b)[k];
      }
    }
    if AnyExtends(b) {
      var k :| 0 <= k < |b| && (b[k].Extends? || ExtendsBelow(b[k]));
      assert (a + b)[|a| + k] == b[k];
    }
    if AnyExtends(a) {
      var k :| 0 <= k < |a| && (a[k].Extends? || ExtendsBelow(a[k]));
      assert (a + b)[k] == a[k];
    }
  }

  // ---------------------------------------------------------------------
  // Taking the annotations off again

  /** Removes one layer of block comments put in by `WrapNode`. */
  function UnwrapNode(n: Node, filename: string): Node
    decreases n, 0
  {
    match n
    case Block(name, body) =>
      if |body| >= 2 && body[0] == BlockStart(name, filename) && body[|body| - 1] == BlockEnd(name) then
        Block(name, Unwrap(body[1..|body| - 1], filename))
      else Block(name, Unwrap(body, filename))
    case Generic(hasBody, body, hasNodes, nodes, rest) =>
      if hasBody then Generic(hasBody, Unwrap(body, filename), hasNodes, nodes, rest)
      else if hasNodes then Generic(hasBody, body, hasNodes, Unwrap(nodes, filename), rest)
      else n
    case _ => n
  }

  function Unwrap(ns: seq<Node>, filename: string): seq<Node>
    decreases ns
  {
    seq(|ns|, k requires 0 <= k < |ns| => UnwrapNode(ns[k], filename))
  }

  lemma BlockStartIsHtml(name: string, filename: string)
    ensures HasHtml(BlockStart(name, filename))
  {
    var text := "<!-- BLOCK: " + name + ", TEMPLATE: " + filename + " -->\n";
    assert text[0] == '<';
    assert IsHtmlText([TemplateData(text)][0]);
  }

  /** Annotating loses nothing: removing the comments gives back the body. */
  lemma {:induction false} UnwrapWrapNode(n: Node, filename: string)
    ensures UnwrapNode(WrapNode(n, filename), filename) == n
    decreases n, 0
  {
    match n
    case Block(name, body) =>
      UnwrapWrap(body, filename);
      var wb := Wrap(body, filename);
      if HasHtml(n) {
        var b := [BlockStart(name, filename)] + wb + [BlockEnd(name)];
        assert b[1..|b| - 1] == wb;
      } else {
        WrapNoHtml(body, filename);
        if |body| > 0 {
          BlockStartIsHtml(name, filename);
          assert !HasHtml(body[0]);
          assert body[0] != BlockStart(name, filename);
        }
      }
    case Generic(hasBody, body, hasNodes, nodes, rest) =>
      if hasBody {
        UnwrapWrap(body, filename);
      } else if hasNodes {
        UnwrapWrap(nodes, filename);
      }
    case _ =>
  }

  lemma {:induction false} UnwrapWrap(ns: seq<Node>, filename: string)
    ensures Unwrap(Wrap(ns, filename), filename) == ns
    decreases ns
  {
    forall k | 0 <= k < |ns|
      ensures UnwrapNode(WrapNode(ns[k], filename), filename) == ns[k]
    {
      UnwrapWrapNode(ns[k], filename);
    }
  }

  // ---------------------------------------------------------------------
  // parse and preprocess

  /** What the `template_debug` tag parses to, given its body. The body
      comes back untouched exactly when it holds no HTML; otherwise comment
      nodes are added and none is dropped. */
  function ParseBody(body: seq<Node>, filename: string): (r: seq<Node>)
    ensures r == body <==> !HtmlInAst(body)
    ensures |r| >= |body|
  {
    if !HtmlInAst(body) then body
    else
      var wrapped := Wrap(body, filename);
      if AnyExtends(wrapped) then [SubtemplateStart(filename)] + wrapped
      else [TemplateStart(filename)] + wrapped + [TemplateEnd(filename)]
  }

  /** `parse` after reading the tag's arguments and body. */
  method Parse(body: seq<Node>, filename: string) returns (r: seq<Node>)
    ensures r == ParseBody(body, filename)
  {
    var html := HasHtmlContentInAst(body);
    if !html {
      return body;
    }
    var wrapped := WrapBlocksWithAnnotations(body, filename);
    var hasExtends := HasExtendsNode(wrapped);
    if hasExtends {
      return [SubtemplateStart(filename)] + wrapped;
    }
    return [TemplateStart(filename)] + wrapped + [TemplateEnd(filename)];
  }

  /** A body without HTML comes back as it is. A body with HTML keeps its
      nodes, annotated, after a leading comment; a template that extends
      another gets only the SUBTEMPLATE comment, any other one the TEMPLATE
      comment and the closing END TEMPLATE comment. */
  lemma ParseBodySpec(body: seq<Node>, filename: string)
    ensures !HtmlInAst(body) ==> ParseBody(body, filename) == body
    ensures HtmlInAst(body) && AnyExtends(body) ==>
      var r := ParseBody(body, filename);
      && |r| == |body| + 1 && r[0] == SubtemplateStart(filename)
      && Unwrap(r[1..], filename) == body
    ensures HtmlInAst(body) && !AnyExtends(body) ==>
      var r := ParseBody(body, filename);
      && |r| == |body| + 2 && r[0] == TemplateStart(filename) && r[|r| - 1] == TemplateEnd(filename)
      && Unwrap(r[1..|r| - 1], filename) == body
  {
    WrapExtends(body, filename);
    UnwrapWrap(body, filename);
    var w := Wrap(body, filename);
    if HtmlInAst(body) {
      if AnyExtends(body) {
        assert ([SubtemplateStart(filename)] + w)[1..] == w;
      } else {
        var r := [TemplateStart(filename)] + w + [TemplateEnd(filename)];
        assert r[1..|r| - 1] == w;
      }
    }
  }

  const DebugTagOpen: string := "{% template_debug '"
  const DebugTagClose: string := "{% endtemplate_debug %}"

  /** `preprocess`: with a truthy file name, the source goes between the
      debug tags, which carry the path relative to the working directory.
      The source changes exactly when the file name is truthy, and is never
      shortened. */
  function Preprocess(source: string, filename: Option<string>, relpath: string -> string): (out: string)
    ensures out == source <==> filename.None? || filename.value == ""
    ensures |out| >= |source|
  {
    if filename.Some? && filename.value != "" then
      DebugTagOpen + relpath(filename.value) + "' %}" + source + DebugTagClose
    else source
  }

  /** The source is kept whole: without a file name it is unchanged, and
      with one it is exactly what lies between the opening and closing tags. */
  lemma PreprocessSpec(source: string, filename: Option<string>, relpath: string -> string)
    ensures filename.None? || filename.value == "" ==> Preprocess(source, filename, relpath) == source
    ensures filename.Some? && filename.value != "" ==>
      var out := Preprocess(source, filename, relpath);
      var open := DebugTagOpen + relpath(filename.value) + "' %}";
      && Text.StartsWith(out, open) && Text.EndsWith(out, DebugTagClose)
      && out[|open|..|out| - |DebugTagClose|] == source
  {
    if filename.Some? && filename.value != "" {
      var open := DebugTagOpen + relpath(filename.value) + "' %}";
      var out := open + source + DebugTagClose;
      assert out[..|open|] == open;
      assert out[|out| - |DebugTagClose|..] == DebugTagClose;
      assert out[|open|..|out| - |DebugTagClose|] == source;
    }
  }
}
