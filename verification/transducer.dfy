/**
  The transducer from parse nodes to display trees (`as_ascii_tree_nodes`).
  A parse node is a matched rule occurrence: the rule's name, the text it
  spans, and its children in match order.  `EOI` nodes are dropped at every
  depth; a node with no surviving children becomes a one-line leaf
  `name "escaped text"`, any other node a display node labelled with its
  rule name.
 */
module Transducer {
  import opened Text
  import opened AsciiTree

  datatype ParseNode = ParseNode(rule: string, span: string, children: seq<ParseNode>)

  /** The name of the end-of-input rule, which never shows in the output. */
  const EOI: string := "EOI"

  /** The single line of a leaf: the rule name, then the trimmed and escaped
      span in double quotes. */
  function LeafLine(rule: string, span: string): string {
    rule + " \"" + Escape(Trim(span)) + "\""
  }

  /** A leaf line reads back: it is the rule name, a space and an opening
      quote, then a text that unescapes to exactly the trimmed span, then a
      closing quote. */
  lemma LeafLineReadsBack(rule: string, span: string)
    ensures var r := LeafLine(rule, span);
      && |r| >= |rule| + 3
      && r[..|rule| + 2] == rule + " \""
      && r[|r| - 1] == '"'
      && Unescape(r[|rule| + 2..|r| - 1]) == Some(Trim(span))
  {
    var e := Escape(Trim(span));
    EscapeRoundTrip(Trim(span));
    var r := LeafLine(rule, span);
    assert r == (rule + " \"") + e + "\"";
    assert r[..|rule| + 2] == rule + " \"";
    assert r[|rule| + 2..|r| - 1] == e;
  }

  /** The nodes of a forest that are not `EOI`, in their original order. */
  function Survivors(pairs: seq<ParseNode>): (r: seq<ParseNode>)
    ensures |r| <= |pairs|
    ensures forall i :: 0 <= i < |r| ==> r[i].rule != EOI
  {
    if |pairs| == 0 then []
    else (if pairs[0].rule == EOI then [] else [pairs[0]]) + Survivors(pairs[1..])
  }

  /** Filtering two forests placed one after the other keeps the first
      forest's survivors, then the second's: the survivors stay in input
      order. */
  lemma {:induction false} SurvivorsAppend(a: seq<ParseNode>, b: seq<ParseNode>)
    ensures Survivors(a + b) == Survivors(a) + Survivors(b)
    decreases a
  {
    if |a| == 0 {
      assert a + b == b;
    } else {
      assert (a + b)[0] == a[0];
      assert (a + b)[1..] == a[1..] + b;
      SurvivorsAppend(a[1..], b);
      var head := if a[0].rule == EOI then [] else [a[0]];
      AppendAssoc(head, Survivors(a[1..]), Survivors(b));
    }
  }

  /** A node is kept exactly when it is in the forest and is not `EOI`;
      in particular a lone node survives exactly when it is not `EOI`. */
  lemma {:induction false} SurvivorsSpec(pairs: seq<ParseNode>)
    ensures forall p :: p in Survivors(pairs) <==> p in pairs && p.rule != EOI
    ensures |pairs| == 1 ==> Survivors(pairs) == if pairs[0].rule == EOI then [] else pairs
  {
    if |pairs| > 0 {
      SurvivorsSpec(pairs[1..]);
      assert pairs == [pairs[0]] + pairs[1..];
      if |pairs| == 1 {
        assert pairs[1..] == [];
      }
    }
  }

  /** `as_ascii_tree_nodes`: one display tree per surviving node, in order.
      As in the source, a node's children are transformed before its own
      rule is checked for `EOI`. */
  function AsAsciiTreeNodes(pairs: seq<ParseNode>): (r: seq<Tree>)
    ensures |r| == |Survivors(pairs)|
    decreases pairs
  {
    if |pairs| == 0 then []
    else
      var pair := pairs[0];
      var inner := AsAsciiTreeNodes(pair.children);
      var rest := AsAsciiTreeNodes(pairs[1..]);
      if pair.rule == EOI then rest
      else
        var node := if |inner| == 0 then Leaf(LeafLine(pair.rule, pair.span)) else Node(pair.rule, inner);
        [node] + rest
  }

  /** Nothing survives exactly when every top-level node is `EOI`. */
  lemma {:induction false} SurvivorsEmpty(pairs: seq<ParseNode>)
    ensures Survivors(pairs) == [] <==> forall i :: 0 <= i < |pairs| ==> pairs[i].rule == EOI
  {
    if |pairs| > 0 {
      SurvivorsEmpty(pairs[1..]);
      if pairs[0].rule != EOI {
        assert Survivors(pairs)[0] == pairs[0];
      } else {
        assert forall i :: 1 <= i < |pairs| ==> pairs[i] == pairs[1..][i - 1];
      }
    }
  }

  /** Every display node the transducer builds has at least one child. */
  lemma {:induction false} TransformWellFormed(pairs: seq<ParseNode>)
    ensures forall i :: 0 <= i < |AsAsciiTreeNodes(pairs)| ==> WellFormed(AsAsciiTreeNodes(pairs)[i])
    decreases pairs
  {
    if |pairs| > 0 {
      TransformWellFormed(pairs[0].children);
      TransformWellFormed(pairs[1..]);
    }
  }

  /* ---------------------------------------------------------------------
     Reference definition: first prune every `EOI` node, then classify.
     --------------------------------------------------------------------- */

  /** No `EOI` node anywhere in the forest. */
  ghost predicate EoiFree(pairs: seq<ParseNode>)
    decreases pairs
  {
    forall i :: 0 <= i < |pairs| ==> pairs[i].rule != EOI && EoiFree(pairs[i].children)
  }

  /** The forest with every `EOI` node removed, at every depth. */
  function Prune(pairs: seq<ParseNode>): (r: seq<ParseNode>)
    ensures EoiFree(r)
    ensures |r| == |Survivors(pairs)|
    decreases pairs
  {
    if |pairs| == 0 then []
    else
      var rest := Prune(pairs[1..]);
      if pairs[0].rule == EOI then rest
      else [ParseNode(pairs[0].rule, pairs[0].span, Prune(pairs[0].children))] + rest
  }

  /** Classification alone, without filtering: a childless node is a leaf,
      any other node a display node over its classified children. */
  function Display(pairs: seq<ParseNode>): (r: seq<Tree>)
    ensures |r| == |pairs|
    decreases pairs
  {
    if |pairs| == 0 then []
    else
      var p := pairs[0];
      var node := if p.children == [] then Leaf(LeafLine(p.rule, p.span)) else Node(p.rule, Display(p.children));
      [node] + Display(pairs[1..])
  }

  /** Pruning leaves an `EOI`-free forest as it is. */
  lemma {:induction false} PruneKeepsEoiFree(pairs: seq<ParseNode>)
    requires EoiFree(pairs)
    ensures Prune(pairs) == pairs
    decreases pairs
  {
    if |pairs| > 0 {
      PruneKeepsEoiFree(pairs[0].children);
      PruneKeepsEoiFree(pairs[1..]);
      assert [pairs[0]] + pairs[1..] == pairs;
    }
  }

  /** Pruning is idempotent. */
  lemma PruneIdempotent(pairs: seq<ParseNode>)
    ensures Prune(Prune(pairs)) == Prune(pairs)
  {
    PruneKeepsEoiFree(Prune(pairs));
  }

  /** The transducer is exactly "prune `EOI`, then classify": so no display
      tree at any depth stems from an `EOI` node, and a node is a leaf
      exactly when none of its children survives. */
  lemma {:induction false} TransformIsDisplayOfPrune(pairs: seq<ParseNode>)
    ensures AsAsciiTreeNodes(pairs) == Display(Prune(pairs))
    decreases pairs
  {
    if |pairs| > 0 {
      var pair := pairs[0];
      TransformIsDisplayOfPrune(pair.children);
      TransformIsDisplayOfPrune(pairs[1..]);
      if pair.rule != EOI {
        var pruned := ParseNode(pair.rule, pair.span, Prune(pair.children));
        var rest := Prune(pairs[1..]);
        var forest := [pruned] + rest;
        assert Prune(pairs) == forest;
        assert forest[0] == pruned && forest[1..] == rest;
      }
    }
  }

  /** `EOI` nodes make no difference to the output. */
  lemma TransformIgnoresEoi(pairs: seq<ParseNode>)
    ensures AsAsciiTreeNodes(Prune(pairs)) == AsAsciiTreeNodes(pairs)
  {
    TransformIsDisplayOfPrune(pairs);
    TransformIsDisplayOfPrune(Prune(pairs));
    PruneIdempotent(pairs);
  }

  /** The `i`-th output tree comes from the `i`-th non-`EOI` input node: it
      is a leaf exactly when none of that node's children survives, a leaf's
      line is the node's rule name and quoted text, and a display node carries
      the rule name and exactly the transformed children. */
  lemma {:induction false} SurvivorClassified(pairs: seq<ParseNode>, i: nat)
    requires i < |Survivors(pairs)|
    ensures
      var p := Survivors(pairs)[i];
      var t := AsAsciiTreeNodes(pairs)[i];
      && (t.Leaf? <==> Survivors(p.children) == [])
      && (t.Leaf? ==> t.line == LeafLine(p.rule, p.span))
      && (t.Node? ==> t.title == p.rule && t.children == AsAsciiTreeNodes(p.children))
    decreases pairs
  {
    var pair := pairs[0];
    if pair.rule == EOI {
      assert Survivors(pairs) == Survivors(pairs[1..]);
      SurvivorClassified(pairs[1..], i);
    } else {
      assert Survivors(pairs) == [pair] + Survivors(pairs[1..]);
      if i > 0 {
        SurvivorClassified(pairs[1..], i - 1);
      }
    }
  }

  lemma AppendAssoc<T>(a: seq<T>, b: seq<T>, c: seq<T>)
    ensures a + (b + c) == (a + b) + c
  {
  }

  /** A forest's output is its first node's output followed by the rest's. */
  lemma TransformCons(pairs: seq<ParseNode>)
    requires |pairs| > 0
    ensures AsAsciiTreeNodes(pairs) == AsAsciiTreeNodes([pairs[0]]) + AsAsciiTreeNodes(pairs[1..])
  {
    var p := pairs[0];
    var rest := AsAsciiTreeNodes(pairs[1..]);
    assert [p][1..] == [];
    if p.rule == EOI {
      assert AsAsciiTreeNodes([p]) == [];
      assert [] + rest == rest;
    } else {
      var inner := AsAsciiTreeNodes(p.children);
      var node := if |inner| == 0 then Leaf(LeafLine(p.rule, p.span)) else Node(p.rule, inner);
      assert [node] + [] == [node];
      assert AsAsciiTreeNodes([p]) == [node];
      assert AsAsciiTreeNodes(pairs) == [node] + rest;
    }
  }

  /** The transducer maps concatenated forests to concatenated outputs, so
      the output keeps the input's order. */
  lemma {:induction false} TransformAppend(a: seq<ParseNode>, b: seq<ParseNode>)
    ensures AsAsciiTreeNodes(a + b) == AsAsciiTreeNodes(a) + AsAsciiTreeNodes(b)
    decreases a
  {
    if |a| == 0 {
      assert a + b == b;
      assert AsAsciiTreeNodes(a) + AsAsciiTreeNodes(b) == AsAsciiTreeNodes(b);
    } else {
      var ab := a + b;
      assert ab[0] == a[0];
      assert ab[1..] == a[1..] + b;
      TransformCons(ab);
      TransformAppend(a[1..], b);
      TransformCons(a);
      AppendAssoc(AsAsciiTreeNodes([a[0]]), AsAsciiTreeNodes(a[1..]), AsAsciiTreeNodes(b));
    }
  }

  /** An `EOI` node alone yields nothing, whatever it spans or holds. */
  lemma EoiAlone(span: string, children: seq<ParseNode>)
    ensures AsAsciiTreeNodes([ParseNode(EOI, span, children)]) == []
  {
    var eoi := [ParseNode(EOI, span, children)];
    assert eoi[1..] == [];
  }

  /** An `EOI` node anywhere in a forest can be taken out without changing
      the output. */
  lemma EoiNodeInvisible(a: seq<ParseNode>, span: string, children: seq<ParseNode>, b: seq<ParseNode>)
    ensures AsAsciiTreeNodes(a + [ParseNode(EOI, span, children)] + b) == AsAsciiTreeNodes(a + b)
  {
    var eoi := [ParseNode(EOI, span, children)];
    EoiAlone(span, children);
    calc {
      AsAsciiTreeNodes(a + eoi + b);
      { TransformAppend(a + eoi, b); }
      AsAsciiTreeNodes(a + eoi) + AsAsciiTreeNodes(b);
      { TransformAppend(a, eoi); }
      AsAsciiTreeNodes(a) + AsAsciiTreeNodes(b);
      { TransformAppend(a, b); }
      AsAsciiTreeNodes(a + b);
    }
  }

  /* ---------------------------------------------------------------------
     Single-line output
     --------------------------------------------------------------------- */

  /** No rule name anywhere in the forest contains a newline (true of every
      grammar's rule identifiers). */
  ghost predicate SingleLineNames(pairs: seq<ParseNode>)
    decreases pairs
  {
    forall i :: 0 <= i < |pairs| ==> NoNewline(pairs[i].rule) && SingleLineNames(pairs[i].children)
  }

  lemma LeafLineSingle(rule: string, span: string)
    requires NoNewline(rule)
    ensures NoNewline(LeafLine(rule, span))
  {
    var e := Escape(Trim(span));
    EscapeSingleLine(Trim(span));
    assert NoNewline(e);
    assert NoNewline(" \"") && NoNewline("\"");
    NoNewlineConcat(rule, " \"");
    NoNewlineConcat(rule + " \"", e);
    NoNewlineConcat(rule + " \"" + e, "\"");
  }

  /** With single-line rule names, every display tree has single-line
      captions: the escaper never lets a newline of the matched text through. */
  lemma {:induction false} TransformSingleLine(pairs: seq<ParseNode>)
    requires SingleLineNames(pairs)
    ensures forall i :: 0 <= i < |AsAsciiTreeNodes(pairs)| ==> SingleLineTree(AsAsciiTreeNodes(pairs)[i])
    decreases pairs
  {
    if |pairs| > 0 {
      var pair := pairs[0];
      TransformSingleLine(pair.children);
      TransformSingleLine(pairs[1..]);
      LeafLineSingle(pair.rule, pair.span);
    }
  }
}
