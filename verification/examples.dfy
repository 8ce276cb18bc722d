/**
  The layouts the library's own tests pin down, for parse forests of the
  shape an expression grammar with rules `expr`, `val` and `op` produces.
  `root` and `expr_root` are silent rules, so a parse from them yields their
  children directly, followed by the `EOI` match.

  Each layout is first computed for arbitrary leaf lines, in terms of the
  connector tokens; the tests' literal lines are then matched a few at a
  time.
 */
module Examples {
  import opened Text
  import opened AsciiTree
  import opened Transducer
  import opened Formatter

  /* ---------------------------------------------------------------------
     Parse side
     --------------------------------------------------------------------- */

  /** A matched text with no surrounding whitespace and nothing to escape
      shows up verbatim between the quotes. */
  lemma PlainLeafLine(rule: string, text: string)
    requires text != [] ==> !IsWhitespace(text[0]) && !IsWhitespace(text[|text| - 1])
    requires forall k :: 0 <= k < |text| ==> !NeedsEscape(text[k])
    ensures LeafLine(rule, text) == rule + " \"" + text + "\""
  {
    TrimKeepsTrimmed(text);
    EscapeLength(text);
  }

  function Val(text: string): ParseNode {
    ParseNode("val", text, [])
  }

  const PLUS: ParseNode := ParseNode("op", "+", [])
  const END: ParseNode := ParseNode(EOI, "", [])

  /** The line of a `val` leaf. */
  function ValLine(text: string): string {
    "val \"" + text + "\""
  }

  /** The line of the `+` operator leaf. */
  const OP_LINE: string := "op \"+\""

  lemma ValDisplayed(text: string)
    requires |text| == 1 && !IsWhitespace(text[0]) && !NeedsEscape(text[0])
    ensures AsAsciiTreeNodes([Val(text)]) == [Leaf(ValLine(text))]
  {
    PlainLeafLine("val", text);
    assert [Val(text)][1..] == [];
    assert AsAsciiTreeNodes([]) == [];
    assert "val" + " \"" + text + "\"" == "val \"" + text + "\"";
  }

  lemma PlusDisplayed()
    ensures AsAsciiTreeNodes([PLUS]) == [Leaf(OP_LINE)]
  {
    PlainLeafLine("op", "+");
    assert [PLUS][1..] == [];
    assert AsAsciiTreeNodes([]) == [];
    assert "op" + " \"" + "+" + "\"" == OP_LINE;
  }

  lemma ExprDisplayed(span: string, children: seq<ParseNode>, trees: seq<Tree>)
    requires AsAsciiTreeNodes(children) == trees && trees != []
    ensures AsAsciiTreeNodes([ParseNode("expr", span, children)]) == [Node("expr", trees)]
  {
    var pairs := [ParseNode("expr", span, children)];
    assert pairs[1..] == [];
    assert AsAsciiTreeNodes([]) == [];
  }

  /** The transducer works node by node: when each node on its own yields
      exactly one tree, the forest yields those trees in order. */
  lemma {:induction false} Pointwise(ps: seq<ParseNode>, ts: seq<Tree>)
    requires |ps| == |ts|
    requires forall i :: 0 <= i < |ps| ==> AsAsciiTreeNodes([ps[i]]) == [ts[i]]
    ensures AsAsciiTreeNodes(ps) == ts
  {
    if |ps| > 0 {
      TransformCons(ps);
      Pointwise(ps[1..], ts[1..]);
      assert ts == [ts[0]] + ts[1..];
    }
  }

  lemma Pointwise3(p0: ParseNode, p1: ParseNode, p2: ParseNode, t0: Tree, t1: Tree, t2: Tree)
    requires AsAsciiTreeNodes([p0]) == [t0]
    requires AsAsciiTreeNodes([p1]) == [t1]
    requires AsAsciiTreeNodes([p2]) == [t2]
    ensures AsAsciiTreeNodes([p0, p1, p2]) == [t0, t1, t2]
  {
    Pointwise([p0, p1, p2], [t0, t1, t2]);
  }

  lemma Pointwise5(p0: ParseNode, p1: ParseNode, p2: ParseNode, p3: ParseNode, p4: ParseNode,
                   t0: Tree, t1: Tree, t2: Tree, t3: Tree, t4: Tree)
    requires AsAsciiTreeNodes([p0]) == [t0]
    requires AsAsciiTreeNodes([p1]) == [t1]
    requires AsAsciiTreeNodes([p2]) == [t2]
    requires AsAsciiTreeNodes([p3]) == [t3]
    requires AsAsciiTreeNodes([p4]) == [t4]
    ensures AsAsciiTreeNodes([p0, p1, p2, p3, p4]) == [t0, t1, t2, t3, t4]
  {
    Pointwise([p0, p1, p2, p3, p4], [t0, t1, t2, t3, t4]);
  }

  /** The `EOI` match that closes a parse from a silent rule adds nothing. */
  lemma TrailingEoi(forest: seq<ParseNode>)
    ensures AsAsciiTreeNodes(forest + [END]) == AsAsciiTreeNodes(forest)
  {
    TransformAppend(forest, [END]);
    EoiAlone("", []);
  }

  /** The children of a flat `x + y + z` match. */
  function FlatRun(x: string, y: string, z: string): seq<ParseNode> {
    [Val(x), PLUS, Val(y), PLUS, Val(z)]
  }

  function FlatTrees(x: string, y: string, z: string): seq<Tree> {
    [Leaf(ValLine(x)), Leaf(OP_LINE), Leaf(ValLine(y)), Leaf(OP_LINE), Leaf(ValLine(z))]
  }

  lemma FlatRunDisplayed(x: string, y: string, z: string)
    requires |x| == 1 && !IsWhitespace(x[0]) && !NeedsEscape(x[0])
    requires |y| == 1 && !IsWhitespace(y[0]) && !NeedsEscape(y[0])
    requires |z| == 1 && !IsWhitespace(z[0]) && !NeedsEscape(z[0])
    ensures AsAsciiTreeNodes(FlatRun(x, y, z)) == FlatTrees(x, y, z)
  {
    ValDisplayed(x);
    ValDisplayed(y);
    ValDisplayed(z);
    PlusDisplayed();
    Pointwise5(Val(x), PLUS, Val(y), PLUS, Val(z),
               Leaf(ValLine(x)), Leaf(OP_LINE), Leaf(ValLine(y)), Leaf(OP_LINE), Leaf(ValLine(z)));
  }

  /** A sum `a + b` as the `expr` rule matches it, and its display tree. */
  function SumParse(span: string, a: ParseNode, b: ParseNode): ParseNode {
    ParseNode("expr", span, [a, PLUS, b])
  }

  function SumTree(a: Tree, b: Tree): Tree {
    Node("expr", [a, Leaf(OP_LINE), b])
  }

  lemma SumDisplayed(span: string, a: ParseNode, b: ParseNode, ta: Tree, tb: Tree)
    requires AsAsciiTreeNodes([a]) == [ta]
    requires AsAsciiTreeNodes([b]) == [tb]
    ensures AsAsciiTreeNodes([SumParse(span, a, b)]) == [SumTree(ta, tb)]
  {
    PlusDisplayed();
    Pointwise3(a, PLUS, b, ta, Leaf(OP_LINE), tb);
    ExprDisplayed(span, [a, PLUS, b], [ta, Leaf(OP_LINE), tb]);
  }

  /* ---------------------------------------------------------------------
     Render side, for arbitrary leaf lines
     --------------------------------------------------------------------- */

  lemma HangLeaf(line: string, last: bool)
    ensures Indent(RenderLines(Leaf(line)), last) == [Connector(last) + (" " + line)]
  {
  }

  lemma Indent4(l0: string, l1: string, l2: string, l3: string, last: bool)
    ensures Indent([l0, l1, l2, l3], last)
         == [Connector(last) + l0, Continuation(last) + l1, Continuation(last) + l2, Continuation(last) + l3]
  {
  }

  lemma Indent7(l0: string, l1: string, l2: string, l3: string, l4: string, l5: string, l6: string, last: bool)
    ensures Indent([l0, l1, l2, l3, l4, l5, l6], last)
         == [ Connector(last) + l0, Continuation(last) + l1, Continuation(last) + l2, Continuation(last) + l3,
              Continuation(last) + l4, Continuation(last) + l5, Continuation(last) + l6 ]
  {
  }

  /** Three children: their hung lines, one block after the other. */
  lemma ChildLines3(c0: Tree, c1: Tree, c2: Tree)
    ensures ChildLines([c0, c1, c2])
         == Indent(RenderLines(c0), false) + (Indent(RenderLines(c1), false) + Indent(RenderLines(c2), true))
  {
    var cs := [c0, c1, c2];
    assert cs[1..] == [c1, c2];
    assert cs[1..][1..] == [c2];
    assert [c2][1..] == [];
    assert ChildLines([c2]) == Indent(RenderLines(c2), true) + ChildLines([]);
  }

  /** Five children: the first two hung blocks, then the last three's. */
  lemma ChildLines5(c0: Tree, c1: Tree, c2: Tree, c3: Tree, c4: Tree)
    ensures ChildLines([c0, c1, c2, c3, c4])
         == Indent(RenderLines(c0), false) + (Indent(RenderLines(c1), false) + ChildLines([c2, c3, c4]))
  {
    var cs := [c0, c1, c2, c3, c4];
    assert cs[1..] == [c1, c2, c3, c4];
    assert cs[1..][1..] == [c2, c3, c4];
  }

  /** Five leaf children hang one line each, the last behind " └─". */
  lemma FiveLeaves(l0: string, l1: string, l2: string, l3: string, l4: string)
    ensures ChildLines([Leaf(l0), Leaf(l1), Leaf(l2), Leaf(l3), Leaf(l4)])
         == [ BRANCH + (" " + l0), BRANCH + (" " + l1), BRANCH + (" " + l2),
              BRANCH + (" " + l3), EDGE + (" " + l4) ]
  {
    ChildLines5(Leaf(l0), Leaf(l1), Leaf(l2), Leaf(l3), Leaf(l4));
    ChildLines3(Leaf(l2), Leaf(l3), Leaf(l4));
    HangLeaf(l0, false);
    HangLeaf(l1, false);
    HangLeaf(l2, false);
    HangLeaf(l3, false);
    HangLeaf(l4, true);
  }

  /** `a + b` over two leaves. */
  lemma LeafSumLines(la: string, lb: string)
    ensures RenderLines(SumTree(Leaf(la), Leaf(lb)))
         == [" " + "expr", BRANCH + (" " + la), BRANCH + (" " + OP_LINE), EDGE + (" " + lb)]
  {
    ChildLines3(Leaf(la), Leaf(OP_LINE), Leaf(lb));
    HangLeaf(la, false);
    HangLeaf(OP_LINE, false);
    HangLeaf(lb, true);
  }

  /** The lines of `u + (v + w)`. */
  function InnerSumLines(lu: string, lv: string, lw: string): seq<string> {
    [ " " + "expr",
      BRANCH + (" " + lu),
      BRANCH + (" " + OP_LINE),
      EDGE + (" " + "expr"),
      EMPTY + (BRANCH + (" " + lv)),
      EMPTY + (BRANCH + (" " + OP_LINE)),
      EMPTY + (EDGE + (" " + lw)) ]
  }

  /** `u + (v + w)`: the inner sum, as the last child, hangs behind " └─"
      and its own children behind three spaces. */
  lemma RightNestedSumLines(lu: string, lv: string, lw: string)
    ensures RenderLines(SumTree(Leaf(lu), SumTree(Leaf(lv), Leaf(lw)))) == InnerSumLines(lu, lv, lw)
  {
    var inner := SumTree(Leaf(lv), Leaf(lw));
    ChildLines3(Leaf(lu), Leaf(OP_LINE), inner);
    HangLeaf(lu, false);
    HangLeaf(OP_LINE, false);
    LeafSumLines(lv, lw);
    Indent4(" " + "expr", BRANCH + (" " + lv), BRANCH + (" " + OP_LINE), EDGE + (" " + lw), true);
  }

  /** The hung lines of `(u + (v + w)) + (x + y) + z` below its top line. */
  function NestedTokenLines(lu: string, lv: string, lw: string, lx: string, ly: string, lz: string): seq<string> {
    var first := InnerSumLines(lu, lv, lw);
    [ BRANCH + first[0], PIPE + first[1], PIPE + first[2], PIPE + first[3],
      PIPE + first[4], PIPE + first[5], PIPE + first[6] ]
    + ([ BRANCH + (" " + OP_LINE) ]
    + ([ BRANCH + (" " + "expr"), PIPE + (BRANCH + (" " + lx)), PIPE + (BRANCH + (" " + OP_LINE)), PIPE + (EDGE + (" " + ly)) ]
    + [ BRANCH + (" " + OP_LINE), EDGE + (" " + lz) ]))
  }

  function NestedTree(lu: string, lv: string, lw: string, lx: string, ly: string, lz: string): Tree {
    Node("expr", [ SumTree(Leaf(lu), SumTree(Leaf(lv), Leaf(lw))), Leaf(OP_LINE),
                   SumTree(Leaf(lx), Leaf(ly)), Leaf(OP_LINE), Leaf(lz) ])
  }

  lemma NestedTailLines(lx: string, ly: string, lz: string)
    ensures ChildLines([SumTree(Leaf(lx), Leaf(ly)), Leaf(OP_LINE), Leaf(lz)])
         == [ BRANCH + (" " + "expr"), PIPE + (BRANCH + (" " + lx)), PIPE + (BRANCH + (" " + OP_LINE)), PIPE + (EDGE + (" " + ly)) ]
          + [ BRANCH + (" " + OP_LINE), EDGE + (" " + lz) ]
  {
    ChildLines3(SumTree(Leaf(lx), Leaf(ly)), Leaf(OP_LINE), Leaf(lz));
    LeafSumLines(lx, ly);
    Indent4(" " + "expr", BRANCH + (" " + lx), BRANCH + (" " + OP_LINE), EDGE + (" " + ly), false);
    HangLeaf(OP_LINE, false);
    HangLeaf(lz, true);
  }

  /** The full nested layout: the first child's seven lines continue
      behind " │ ", the middle sum's four likewise, the last leaf closes. */
  lemma NestedLines(lu: string, lv: string, lw: string, lx: string, ly: string, lz: string)
    ensures RenderLines(NestedTree(lu, lv, lw, lx, ly, lz)) == [" " + "expr"] + NestedTokenLines(lu, lv, lw, lx, ly, lz)
  {
    var first := SumTree(Leaf(lu), SumTree(Leaf(lv), Leaf(lw)));
    var second := SumTree(Leaf(lx), Leaf(ly));
    var l := InnerSumLines(lu, lv, lw);
    assert Indent(RenderLines(first), false)
        == [BRANCH + l[0], PIPE + l[1], PIPE + l[2], PIPE + l[3], PIPE + l[4], PIPE + l[5], PIPE + l[6]] by {
      RightNestedSumLines(lu, lv, lw);
      Indent7(l[0], l[1], l[2], l[3], l[4], l[5], l[6], false);
    }
    HangLeaf(OP_LINE, false);
    NestedTailLines(lx, ly, lz);
    ChildLines5(first, Leaf(OP_LINE), second, Leaf(OP_LINE), Leaf(lz));
  }

  /* ---------------------------------------------------------------------
     The tests' lines, for arbitrary one-letter operands
     --------------------------------------------------------------------- */

  /** A one-character operand that is shown as it is. */
  predicate Plain(x: string) {
    |x| == 1 && !IsWhitespace(x[0]) && !NeedsEscape(x[0])
  }

  lemma TopText()
    ensures " " + "expr" == " expr"
    ensures BRANCH + (" " + OP_LINE) == " ├─ op \"+\""
    ensures BRANCH + (" " + "expr") == " ├─ expr"
    ensures EDGE + (" " + "expr") == " └─ expr"
  {
  }

  lemma ValText(x: string)
    ensures BRANCH + (" " + ValLine(x)) == " ├─ val \"" + x + "\""
    ensures EDGE + (" " + ValLine(x)) == " └─ val \"" + x + "\""
  {
  }

  /** The lines of the flat tests: `a + b + c` hung below its parent. */
  function FlatText(a: string, b: string, c: string): seq<string> {
    [ " ├─ val \"" + a + "\"",
      " ├─ op \"+\"",
      " ├─ val \"" + b + "\"",
      " ├─ op \"+\"",
      " └─ val \"" + c + "\"" ]
  }

  lemma FlatTreesText(a: string, b: string, c: string)
    ensures ChildLines(FlatTrees(a, b, c)) == FlatText(a, b, c)
  {
    FiveLeaves(ValLine(a), OP_LINE, ValLine(b), OP_LINE, ValLine(c));
    TopText();
    ValText(a);
    ValText(b);
    ValText(c);
  }

  /** The lines of the nested tests below the top `expr` line, for
      `(u + (v + w)) + (x + y) + z`. */
  function NestedText(u: string, v: string, w: string, x: string, y: string, z: string): seq<string> {
    [ " ├─ expr",
      " │  ├─ val \"" + u + "\"",
      " │  ├─ op \"+\"",
      " │  └─ expr",
      " │     ├─ val \"" + v + "\"",
      " │     ├─ op \"+\"",
      " │     └─ val \"" + w + "\"",
      " ├─ op \"+\"",
      " ├─ expr",
      " │  ├─ val \"" + x + "\"",
      " │  ├─ op \"+\"",
      " │  └─ val \"" + y + "\"",
      " ├─ op \"+\"",
      " └─ val \"" + z + "\"" ]
  }

  lemma PipeText(x: string, y: string)
    ensures PIPE + (BRANCH + (" " + ValLine(x))) == " │  ├─ val \"" + x + "\""
    ensures PIPE + (EDGE + (" " + ValLine(y))) == " │  └─ val \"" + y + "\""
  {
  }

  lemma PipeOpText()
    ensures PIPE + (BRANCH + (" " + OP_LINE)) == " │  ├─ op \"+\""
    ensures PIPE + (EDGE + (" " + "expr")) == " │  └─ expr"
  {
  }

  lemma DeepText(v: string, w: string)
    ensures PIPE + (EMPTY + (BRANCH + (" " + ValLine(v)))) == " │     ├─ val \"" + v + "\""
    ensures PIPE + (EMPTY + (EDGE + (" " + ValLine(w)))) == " │     └─ val \"" + w + "\""
  {
  }

  lemma DeepOpText()
    ensures PIPE + (EMPTY + (BRANCH + (" " + OP_LINE))) == " │     ├─ op \"+\""
  {
  }

  /** The generic layout, at `val` leaves, is the tests' text. */
  lemma NestedTokensAreText(u: string, v: string, w: string, x: string, y: string, z: string)
    ensures NestedTokenLines(ValLine(u), ValLine(v), ValLine(w), ValLine(x), ValLine(y), ValLine(z))
         == NestedText(u, v, w, x, y, z)
  {
    var t := NestedTokenLines(ValLine(u), ValLine(v), ValLine(w), ValLine(x), ValLine(y), ValLine(z));
    var e := NestedText(u, v, w, x, y, z);
    TopText();
    PipeText(u, y);
    PipeText(x, y);
    PipeOpText();
    DeepText(v, w);
    DeepOpText();
    ValText(z);
    assert |t| == |e|;
    forall k | 0 <= k < |t| ensures t[k] == e[k] {
    }
  }

  /* ---------------------------------------------------------------------
     The tests, for arbitrary one-letter operands
     --------------------------------------------------------------------- */

  /** A lone `val` match renders as one line. */
  lemma SingleValueOf(m: string)
    requires Plain(m)
    ensures AsAsciiTree([Val(m)]) == " val \"" + m + "\"\n"
  {
    ValDisplayed(m);
    FormatSingle([Val(m)]);
    assert Join([" " + ValLine(m)]) == " " + ValLine(m) + "\n" + Join([]);
  }

  /** `a + b + c` parsed from `expr`. */
  lemma FlatExpressionOf(span: string, a: string, b: string, c: string)
    requires Plain(a) && Plain(b) && Plain(c)
    ensures AsAsciiTree([ParseNode("expr", span, FlatRun(a, b, c))]) == Join([" expr"] + FlatText(a, b, c))
  {
    var trees := FlatTrees(a, b, c);
    FlatRunDisplayed(a, b, c);
    ExprDisplayed(span, FlatRun(a, b, c), trees);
    FormatSingle([ParseNode("expr", span, FlatRun(a, b, c))]);
    FlatTreesText(a, b, c);
    TopText();
  }

  /** `x + y + z` parsed from the silent rule `expr_root`: five top-level
      matches and `EOI`, hung below an invisible root. */
  lemma FlatFromExprRootOf(x: string, y: string, z: string)
    requires Plain(x) && Plain(y) && Plain(z)
    ensures AsAsciiTree(FlatRun(x, y, z) + [END]) == Join(FlatText(x, y, z))
  {
    var trees := FlatTrees(x, y, z);
    FlatRunDisplayed(x, y, z);
    TrailingEoi(FlatRun(x, y, z));
    FormatIsForestLayout(FlatRun(x, y, z) + [END]);
    assert ForestLines(trees) == ChildLines(trees);
    FlatTreesText(x, y, z);
  }

  /** The match of `(u + (v + w)) + (x + y) + z` against `expr`. */
  function NestedParse(u: string, v: string, w: string, x: string, y: string, z: string): ParseNode {
    var vw := SumParse(v + " + " + w, Val(v), Val(w));
    var uvw := SumParse(u + " + (" + v + " + " + w + ")", Val(u), vw);
    var xy := SumParse(x + " + " + y, Val(x), Val(y));
    ParseNode("expr", "(" + u + " + (" + v + " + " + w + ")) + (" + x + " + " + y + ") + " + z,
              [uvw, PLUS, xy, PLUS, Val(z)])
  }

  lemma NestedChildrenDisplayed(u: string, v: string, w: string, x: string, y: string, z: string)
    requires Plain(u) && Plain(v) && Plain(w) && Plain(x) && Plain(y) && Plain(z)
    ensures AsAsciiTreeNodes(NestedParse(u, v, w, x, y, z).children)
         == NestedTree(ValLine(u), ValLine(v), ValLine(w), ValLine(x), ValLine(y), ValLine(z)).children
  {
    var cs := NestedParse(u, v, w, x, y, z).children;
    var ts := NestedTree(ValLine(u), ValLine(v), ValLine(w), ValLine(x), ValLine(y), ValLine(z)).children;
    ValDisplayed(u);
    ValDisplayed(v);
    ValDisplayed(w);
    ValDisplayed(x);
    ValDisplayed(y);
    ValDisplayed(z);
    PlusDisplayed();
    SumDisplayed(cs[0].children[2].span, Val(v), Val(w), Leaf(ValLine(v)), Leaf(ValLine(w)));
    SumDisplayed(cs[0].span, Val(u), cs[0].children[2], Leaf(ValLine(u)), ts[0].children[2]);
    SumDisplayed(cs[2].span, Val(x), Val(y), Leaf(ValLine(x)), Leaf(ValLine(y)));
    Pointwise5(cs[0], cs[1], cs[2], cs[3], cs[4], ts[0], ts[1], ts[2], ts[3], ts[4]);
  }

  lemma NestedRendered(u: string, v: string, w: string, x: string, y: string, z: string)
    ensures RenderLines(NestedTree(ValLine(u), ValLine(v), ValLine(w), ValLine(x), ValLine(y), ValLine(z)))
         == [" expr"] + NestedText(u, v, w, x, y, z)
  {
    NestedLines(ValLine(u), ValLine(v), ValLine(w), ValLine(x), ValLine(y), ValLine(z));
    NestedTokensAreText(u, v, w, x, y, z);
    TopText();
  }

  /** `(u + (v + w)) + (x + y) + z` parsed from `expr`. */
  lemma NestedExpressionOf(u: string, v: string, w: string, x: string, y: string, z: string)
    requires Plain(u) && Plain(v) && Plain(w) && Plain(x) && Plain(y) && Plain(z)
    ensures AsAsciiTree([NestedParse(u, v, w, x, y, z)]) == Join([" expr"] + NestedText(u, v, w, x, y, z))
  {
    var p := NestedParse(u, v, w, x, y, z);
    var t := NestedTree(ValLine(u), ValLine(v), ValLine(w), ValLine(x), ValLine(y), ValLine(z));
    NestedChildrenDisplayed(u, v, w, x, y, z);
    ExprDisplayed(p.span, p.children, t.children);
    FormatSingle([p]);
    NestedRendered(u, v, w, x, y, z);
  }

  /** The same text parsed from the silent rule `root`: the `expr` match
      followed by `EOI`, which leaves the output as it was. */
  lemma NestedFromRootOf(u: string, v: string, w: string, x: string, y: string, z: string)
    requires Plain(u) && Plain(v) && Plain(w) && Plain(x) && Plain(y) && Plain(z)
    ensures AsAsciiTree([NestedParse(u, v, w, x, y, z), END]) == Join([" expr"] + NestedText(u, v, w, x, y, z))
  {
    var p := NestedParse(u, v, w, x, y, z);
    TrailingEoi([p]);
    assert [p] + [END] == [p, END];
    FormatIsForestLayout([p, END]);
    FormatIsForestLayout([p]);
    NestedExpressionOf(u, v, w, x, y, z);
  }

  /** The same text parsed from the silent rule `expr_root`: five top-level
      matches and `EOI`, so the output is the hung children without the
      top `expr` line. */
  lemma NestedFromExprRootOf(u: string, v: string, w: string, x: string, y: string, z: string)
    requires Plain(u) && Plain(v) && Plain(w) && Plain(x) && Plain(y) && Plain(z)
    ensures AsAsciiTree(NestedParse(u, v, w, x, y, z).children + [END]) == Join(NestedText(u, v, w, x, y, z))
  {
    var p := NestedParse(u, v, w, x, y, z);
    var t := NestedTree(ValLine(u), ValLine(v), ValLine(w), ValLine(x), ValLine(y), ValLine(z));
    TrailingEoi(p.children);
    NestedChildrenDisplayed(u, v, w, x, y, z);
    FormatIsForestLayout(p.children + [END]);
    assert ForestLines(t.children) == ChildLines(t.children);
    NestedRendered(u, v, w, x, y, z);
    assert RenderLines(t) == [" " + "expr"] + ChildLines(t.children);
    TopText();
    assert ([" expr"] + NestedText(u, v, w, x, y, z))[1..] == NestedText(u, v, w, x, y, z);
  }

  /* ---------------------------------------------------------------------
     The tests as written, with their own operands
     --------------------------------------------------------------------- */

  lemma SingleValue()
    ensures AsAsciiTree([Val("m")]) == " val \"m\"\n"
  {
    SingleValueOf("m");
  }

  lemma FlatExpression()
    ensures AsAsciiTree([ParseNode("expr", "a + b + c", FlatRun("a", "b", "c"))])
         == Join([" expr"] + FlatText("a", "b", "c"))
  {
    FlatExpressionOf("a + b + c", "a", "b", "c");
  }

  lemma FlatFromExprRoot()
    ensures AsAsciiTree(FlatRun("x", "y", "z") + [END]) == Join(FlatText("x", "y", "z"))
  {
    FlatFromExprRootOf("x", "y", "z");
  }

  lemma NestedExpression()
    ensures AsAsciiTree([NestedParse("u", "v", "w", "x", "y", "z")])
         == Join([" expr"] + NestedText("u", "v", "w", "x", "y", "z"))
  {
    NestedExpressionOf("u", "v", "w", "x", "y", "z");
  }

  lemma NestedFromRoot()
    ensures AsAsciiTree([NestedParse("u", "v", "w", "x", "y", "z"), END])
         == Join([" expr"] + NestedText("u", "v", "w", "x", "y", "z"))
  {
    NestedFromRootOf("u", "v", "w", "x", "y", "z");
  }

  lemma NestedFromExprRoot()
    ensures AsAsciiTree(NestedParse("u", "v", "w", "x", "y", "z").children + [END])
         == Join(NestedText("u", "v", "w", "x", "y", "z"))
  {
    NestedFromExprRootOf("u", "v", "w", "x", "y", "z");
  }
}
