/**
  The display tree and its text rendering: each node on its own line with a
  leading space, children hung below their parent with box-drawing
  connectors.  A non-last child's first line is introduced by " ├─" and its
  further lines by " │ "; a last child's first line by " └─" and its further
  lines by three spaces.
 */
module AsciiTree {
  import opened Text

  /** A display tree: a leaf carries one ready-made line, a node a title and
      its children. */
  datatype Tree = Leaf(line: string) | Node(title: string, children: seq<Tree>)

  const BRANCH: string := " ├─"
  const EDGE: string := " └─"
  const PIPE: string := " │ "
  const EMPTY: string := "   "

  /** What introduces a child's first line. */
  function Connector(last: bool): string {
    if last then EDGE else BRANCH
  }

  /** What introduces every further line of a child. */
  function Continuation(last: bool): string {
    if last then EMPTY else PIPE
  }

  /** The text a tree shows on its own line. */
  function Caption(t: Tree): string {
    match t
    case Leaf(line) => line
    case Node(title, _) => title
  }

  /** A well-formed display tree never holds an empty node. */
  ghost predicate WellFormed(t: Tree) {
    match t
    case Leaf(_) => true
    case Node(_, cs) => |cs| > 0 && forall i :: 0 <= i < |cs| ==> WellFormed(cs[i])
  }

  /** Number of display nodes (leaves and nodes) in a tree. */
  function Size(t: Tree): nat
    decreases t
  {
    match t
    case Leaf(_) => 1
    case Node(_, cs) => 1 + ForestSize(cs)
  }

  function ForestSize(cs: seq<Tree>): nat
    decreases cs
  {
    if |cs| == 0 then 0 else Size(cs[0]) + ForestSize(cs[1..])
  }

  /** Puts `p` in front of every line. */
  function Prefix(p: string, lines: seq<string>): (r: seq<string>)
    ensures |r| == |lines|
    ensures forall i :: 0 <= i < |r| ==> r[i] == p + lines[i]
  {
    if |lines| == 0 then [] else [p + lines[0]] + Prefix(p, lines[1..])
  }

  /** Hangs a child's lines below its parent. */
  function Indent(lines: seq<string>, last: bool): (r: seq<string>)
    ensures |r| == |lines|
    ensures |r| > 0 ==> r[0] == Connector(last) + lines[0]
    ensures forall i :: 0 < i < |r| ==> r[i] == Continuation(last) + lines[i]
  {
    if |lines| == 0 then [] else [Connector(last) + lines[0]] + Prefix(Continuation(last), lines[1..])
  }

  ghost predicate Spaced(line: string) {
    |line| > 0 && line[0] == ' '
  }

  /** The lines of a rendered tree, without their newlines. */
  function RenderLines(t: Tree): (r: seq<string>)
    ensures |r| == Size(t)
    ensures r[0] == " " + Caption(t)
    decreases t
  {
    match t
    case Leaf(line) => [" " + line]
    case Node(title, cs) => [" " + title] + ChildLines(cs)
  }

  /** The lines of a node's children, each hung with its connector. */
  function ChildLines(cs: seq<Tree>): (r: seq<string>)
    ensures |r| == ForestSize(cs)
    decreases cs
  {
    if |cs| == 0 then []
    else
      var first := RenderLines(cs[0]);
      Indent(first, |cs| == 1) + ChildLines(cs[1..])
  }

  /** Every line of a block starts with a space. */
  ghost predicate AllSpaced(lines: seq<string>) {
    forall i :: 0 <= i < |lines| ==> Spaced(lines[i])
  }

  lemma AllSpacedAppend(a: seq<string>, b: seq<string>)
    requires AllSpaced(a) && AllSpaced(b)
    ensures AllSpaced(a + b)
  {
    forall i | 0 <= i < |a + b| ensures Spaced((a + b)[i]) {
      if i >= |a| {
        assert (a + b)[i] == b[i - |a|];
      }
    }
  }

  /** Hung lines start with their connector, and every connector starts
      with a space, whatever the lines hold. */
  lemma IndentSpaced(lines: seq<string>, last: bool)
    ensures AllSpaced(Indent(lines, last))
  {
    var hung := Indent(lines, last);
    forall i | 0 <= i < |hung| ensures Spaced(hung[i]) {
      var p := if i == 0 then Connector(last) else Continuation(last);
      assert hung[i] == p + lines[i];
      assert hung[i][0] == p[0];
    }
  }

  /** Every line of a node's child block starts with a space. */
  lemma {:induction false} ChildLinesSpaced(cs: seq<Tree>)
    ensures AllSpaced(ChildLines(cs))
  {
    if |cs| > 0 {
      IndentSpaced(RenderLines(cs[0]), |cs| == 1);
      ChildLinesSpaced(cs[1..]);
      AllSpacedAppend(Indent(RenderLines(cs[0]), |cs| == 1), ChildLines(cs[1..]));
    }
  }

  /** Every rendered line starts with a space: the tree's own line by
      construction, each child line because every connector does. */
  lemma RenderSpaced(t: Tree)
    ensures AllSpaced(RenderLines(t))
  {
    match t
    case Leaf(line) =>
      assert Spaced(" " + line);
    case Node(title, cs) =>
      ChildLinesSpaced(cs);
      assert AllSpaced([" " + title]);
      AllSpacedAppend([" " + title], ChildLines(cs));
  }

  /** `ascii_tree::write_tree` into a `String`: every line followed by a newline. */
  function WriteTree(t: Tree): (r: string)
    ensures |r| > 0 && r[0] == ' ' && r[|r| - 1] == '\n'
  {
    Join(RenderLines(t))
  }

  /** No caption anywhere in the tree contains a newline. */
  ghost predicate SingleLineTree(t: Tree)
    decreases t
  {
    match t
    case Leaf(line) => NoNewline(line)
    case Node(title, cs) => NoNewline(title) && forall i :: 0 <= i < |cs| ==> SingleLineTree(cs[i])
  }

  ghost predicate SingleLineForest(cs: seq<Tree>) {
    forall i :: 0 <= i < |cs| ==> SingleLineTree(cs[i])
  }

  lemma NoNewlineConcat(a: string, b: string)
    requires NoNewline(a) && NoNewline(b)
    ensures NoNewline(a + b)
  {
    assert forall k :: 0 <= k < |a + b| ==> (a + b)[k] == if k < |a| then a[k] else b[k - |a|];
  }

  /** A tree whose captions are single lines renders to lines without
      newlines: the connector tokens add none. */
  lemma {:induction false} RenderSingleLine(t: Tree)
    requires SingleLineTree(t)
    ensures forall i :: 0 <= i < |RenderLines(t)| ==> NoNewline(RenderLines(t)[i])
    decreases t, 1
  {
    NoNewlineConcat(" ", Caption(t));
    match t
    case Leaf(_) =>
    case Node(_, cs) =>
      ChildLinesSingleLine(cs);
  }

  lemma {:induction false} ChildLinesSingleLine(cs: seq<Tree>)
    requires SingleLineForest(cs)
    ensures forall i :: 0 <= i < |ChildLines(cs)| ==> NoNewline(ChildLines(cs)[i])
    decreases cs, 0
  {
    if |cs| > 0 {
      var last := |cs| == 1;
      var first := RenderLines(cs[0]);
      RenderSingleLine(cs[0]);
      assert SingleLineForest(cs[1..]) by {
        forall i | 0 <= i < |cs[1..]| ensures SingleLineTree(cs[1..][i]) {
          assert cs[1..][i] == cs[i + 1];
        }
      }
      ChildLinesSingleLine(cs[1..]);
      var hung := Indent(first, last);
      TokensSingleLine(last);
      forall i | 0 <= i < |hung|
        ensures NoNewline(hung[i])
      {
        NoNewlineConcat(if i == 0 then Connector(last) else Continuation(last), first[i]);
      }
      SingleLinesAppend(hung, ChildLines(cs[1..]));
    }
  }

  lemma TokensSingleLine(last: bool)
    ensures NoNewline(Connector(last)) && NoNewline(Continuation(last))
  {
  }

  lemma SingleLinesAppend(a: seq<string>, b: seq<string>)
    requires forall i :: 0 <= i < |a| ==> NoNewline(a[i])
    requires forall i :: 0 <= i < |b| ==> NoNewline(b[i])
    ensures forall i :: 0 <= i < |a + b| ==> NoNewline((a + b)[i])
  {
    forall i | 0 <= i < |a + b| ensures NoNewline((a + b)[i]) {
      if i >= |a| {
        assert (a + b)[i] == b[i - |a|];
      }
    }
  }

  /* ---------------------------------------------------------------------
     Where each child's lines land
     --------------------------------------------------------------------- */

  lemma ForestSizeCons(cs: seq<Tree>, i: nat)
    requires 0 < i <= |cs|
    ensures ForestSize(cs[..i]) == Size(cs[0]) + ForestSize(cs[1..][..i - 1])
  {
    assert cs[..i][1..] == cs[1..][..i - 1];
  }

  lemma ChildBlockFirst(cs: seq<Tree>, j: nat)
    requires 0 < |cs| && j < Size(cs[0])
    ensures j < |ChildLines(cs)|
    ensures ChildLines(cs)[j] == Indent(RenderLines(cs[0]), |cs| == 1)[j]
  {
  }

  lemma ChildLinesTail(cs: seq<Tree>, k: nat)
    requires |cs| > 0 && k < |ChildLines(cs[1..])|
    ensures Size(cs[0]) + k < |ChildLines(cs)|
    ensures ChildLines(cs)[Size(cs[0]) + k] == ChildLines(cs[1..])[k]
  {
  }

  /** Child `i`'s hung block sits in its parent's child block at offset
      `ForestSize(cs[..i])`. */
  lemma {:induction false} ChildBlockAt(cs: seq<Tree>, i: nat, j: nat)
    requires i < |cs| && j < Size(cs[i])
    ensures ForestSize(cs[..i]) + j < |ChildLines(cs)|
    ensures ChildLines(cs)[ForestSize(cs[..i]) + j] == Indent(RenderLines(cs[i]), i == |cs| - 1)[j]
    decreases i
  {
    if i == 0 {
      assert |cs[..0]| == 0;
      ChildBlockFirst(cs, j);
    } else {
      var tail := cs[1..];
      assert tail[i - 1] == cs[i];
      ChildBlockAt(tail, i - 1, j);
      ForestSizeCons(cs, i);
      ChildLinesTail(cs, ForestSize(tail[..i - 1]) + j);
    }
  }

  /** Line `j` of child `i` appears in its parent's child block at offset
      `ForestSize(cs[..i]) + j`, introduced by " ├─"/" └─" when it is the
      child's first line and by " │ "/"   " otherwise, depending on whether
      the child is the last one. */
  lemma ChildLineAt(cs: seq<Tree>, i: nat, j: nat)
    requires i < |cs| && j < Size(cs[i])
    ensures ForestSize(cs[..i]) + j < |ChildLines(cs)|
    ensures ChildLines(cs)[ForestSize(cs[..i]) + j]
         == (if j == 0 then Connector(i == |cs| - 1) else Continuation(i == |cs| - 1)) + RenderLines(cs[i])[j]
  {
    ChildBlockAt(cs, i, j);
  }

  /** In a rendered node, the line right after the title is the first
      child's first line behind " ├─" (or " └─" when it is the only child). */
  lemma NodeFirstChildLine(title: string, cs: seq<Tree>)
    requires |cs| > 0
    ensures |RenderLines(Node(title, cs))| > 1
    ensures RenderLines(Node(title, cs))[1] == Connector(|cs| == 1) + " " + Caption(cs[0])
  {
    var last := |cs| == 1;
    var hung := Indent(RenderLines(cs[0]), last);
    assert ChildLines(cs)[0] == hung[0];
    assert hung[0] == Connector(last) + (" " + Caption(cs[0]));
    assert Connector(last) + (" " + Caption(cs[0])) == Connector(last) + " " + Caption(cs[0]);
  }

  /* ---------------------------------------------------------------------
     Reference layout: each line's prefix is read off the path from the
     root, one token per ancestor level.
     --------------------------------------------------------------------- */

  /** The prefix of the line of a tree whose ancestors' children-lists it
      descends through with the given "is last child" flags, outermost first:
      " │ " or "   " for every level but the innermost, then " ├─" or " └─". */
  function LinePrefix(level: seq<bool>): string
    decreases |level|
  {
    if |level| == 0 then ""
    else if |level| == 1 then Connector(level[0])
    else Continuation(level[0]) + LinePrefix(level[1..])
  }

  /** The lines of `t` placed at path `level`, in pre-order. */
  function Layout(t: Tree, level: seq<bool>): seq<string>
    decreases t
  {
    match t
    case Leaf(line) => [LinePrefix(level) + " " + line]
    case Node(title, cs) => [LinePrefix(level) + " " + title] + LayoutForest(cs, level)
  }

  function LayoutForest(cs: seq<Tree>, level: seq<bool>): seq<string>
    decreases cs
  {
    if |cs| == 0 then []
    else Layout(cs[0], level + [|cs| == 1]) + LayoutForest(cs[1..], level)
  }

  lemma {:induction false} PrefixAppend(p: string, a: seq<string>, b: seq<string>)
    ensures Prefix(p, a + b) == Prefix(p, a) + Prefix(p, b)
  {
  }

  lemma LinePrefixCons(b: bool, level: seq<bool>)
    ensures LinePrefix([b] + level) == if level == [] then Connector(b) else Continuation(b) + LinePrefix(level)
  {
    assert ([b] + level)[1..] == level;
  }

  lemma LeafCons(line: string, b: bool, level: seq<bool>)
    ensures Layout(Leaf(line), [b] + level)
         == if level == [] then Indent(Layout(Leaf(line), []), b) else Prefix(Continuation(b), Layout(Leaf(line), level))
  {
    LinePrefixCons(b, level);
    if level == [] {
      assert LinePrefix([]) + " " + line == " " + line;
      assert Connector(b) + " " + line == Connector(b) + (" " + line);
    } else {
      assert Continuation(b) + LinePrefix(level) + " " + line == Continuation(b) + (LinePrefix(level) + " " + line);
    }
  }

  lemma NodeConsTop(title: string, cs: seq<Tree>, b: bool)
    requires LayoutForest(cs, [b]) == Prefix(Continuation(b), LayoutForest(cs, []))
    ensures Layout(Node(title, cs), [b]) == Indent(Layout(Node(title, cs), []), b)
  {
    assert [b] + [] == [b];
    LinePrefixCons(b, []);
    var inner := Layout(Node(title, cs), []);
    assert inner[0] == " " + title;
    assert inner[1..] == LayoutForest(cs, []);
    assert Connector(b) + " " + title == Connector(b) + inner[0];
  }

  lemma NodeConsDeeper(title: string, cs: seq<Tree>, b: bool, level: seq<bool>)
    requires level != []
    requires LayoutForest(cs, [b] + level) == Prefix(Continuation(b), LayoutForest(cs, level))
    ensures Layout(Node(title, cs), [b] + level) == Prefix(Continuation(b), Layout(Node(title, cs), level))
  {
    LinePrefixCons(b, level);
    var head := LinePrefix(level) + " " + title;
    assert Continuation(b) + LinePrefix(level) + " " + title == Continuation(b) + head;
    PrefixAppend(Continuation(b), [head], LayoutForest(cs, level));
  }

  /** Placing a tree one level deeper: the new outermost level adds its
      token in front of every line. */
  lemma {:induction false} LayoutCons(t: Tree, b: bool, level: seq<bool>)
    ensures Layout(t, [b] + level)
         == if level == [] then Indent(Layout(t, []), b) else Prefix(Continuation(b), Layout(t, level))
    decreases t, 1
  {
    match t
    case Leaf(line) =>
      LeafCons(line, b, level);
    case Node(title, cs) =>
      LayoutForestCons(cs, b, level);
      if level == [] {
        assert [b] + [] == [b];
        NodeConsTop(title, cs, b);
      } else {
        NodeConsDeeper(title, cs, b, level);
      }
  }

  lemma {:induction false} LayoutForestCons(cs: seq<Tree>, b: bool, level: seq<bool>)
    ensures LayoutForest(cs, [b] + level) == Prefix(Continuation(b), LayoutForest(cs, level))
    decreases cs, 0
  {
    if |cs| > 0 {
      var last := |cs| == 1;
      assert [b] + level + [last] == [b] + (level + [last]);
      LayoutCons(cs[0], b, level + [last]);
      LayoutForestCons(cs[1..], b, level);
      PrefixAppend(Continuation(b), Layout(cs[0], level + [last]), LayoutForest(cs[1..], level));
    }
  }

  /** The recursive renderer, which hangs each rendered child below its
      parent, lays out exactly as the path-based reference: prefixes
      compose across nesting levels. */
  lemma {:induction false} RenderIsLayout(t: Tree)
    ensures RenderLines(t) == Layout(t, [])
    decreases t, 1
  {
    match t
    case Leaf(line) =>
      assert LinePrefix([]) + " " + line == " " + line;
    case Node(title, cs) =>
      assert LinePrefix([]) + " " + title == " " + title;
      ChildLinesIsLayout(cs);
  }

  lemma {:induction false} ChildLinesIsLayout(cs: seq<Tree>)
    ensures ChildLines(cs) == LayoutForest(cs, [])
    decreases cs, 0
  {
    if |cs| > 0 {
      var last := |cs| == 1;
      RenderIsLayout(cs[0]);
      LayoutCons(cs[0], last, []);
      assert [] + [last] == [last];
      assert [last] + [] == [last];
      ChildLinesIsLayout(cs[1..]);
    }
  }
}
