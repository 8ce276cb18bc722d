/**
  The formatter (`as_ascii_tree`): transforms the top-level forest and picks
  what to render by the number of surviving trees.  None gives the empty
  text, one is rendered as it is, and several are hung below a synthetic
  root with an empty title whose own line, a lone space, is then cut off.
 */
module Formatter {
  import opened Text
  import opened AsciiTree
  import opened Transducer

  /** The line the synthetic root contributes, with its newline. */
  const EMPTY_ROOT_LINE: string := " \n"

  /** `as_ascii_tree`.  Writing into a `String` cannot fail, so the result is
      the text itself. */
  function AsAsciiTree(pairs: seq<ParseNode>): (r: string)
    ensures r == [] <==> Survivors(pairs) == []
    ensures r != [] ==> r[0] == ' ' && r[|r| - 1] == '\n'
  {
    var nodes := AsAsciiTreeNodes(pairs);
    if |nodes| == 0 then ""
    else if |nodes| == 1 then WriteTree(nodes[0])
    else
      var output := WriteTree(Node("", nodes));
      WriteEmptyRoot(nodes);
      if StartsWith(output, EMPTY_ROOT_LINE) then output[2..] else output
  }

  /** The synthetic root's rendering is its lone-space line followed by the
      children's block, which is never empty. */
  lemma WriteEmptyRoot(nodes: seq<Tree>)
    requires |nodes| >= 2
    ensures |ChildLines(nodes)| > 0
    ensures ChildLines(nodes)[0] == BRANCH + " " + Caption(nodes[0])
    ensures WriteTree(Node("", nodes)) == EMPTY_ROOT_LINE + Join(ChildLines(nodes))
  {
    NodeFirstChildLine("", nodes);
    var lines := RenderLines(Node("", nodes));
    assert " " + "" == " ";
    assert lines == [" "] + ChildLines(nodes);
    assert lines[1..] == ChildLines(nodes);
    assert Join(lines) == lines[0] + "\n" + Join(lines[1..]);
    assert lines[0] + "\n" == EMPTY_ROOT_LINE;
  }

  /** What the formatter lays out for a forest of display trees, rendered
      without any synthetic root: a single tree as it is, several trees as
      the hung children of an invisible root. */
  function ForestLines(nodes: seq<Tree>): seq<string> {
    if |nodes| == 1 then RenderLines(nodes[0]) else ChildLines(nodes)
  }

  /** Rendering a synthetic empty root and cutting its line off gives the
      same text as laying the forest out directly; the cut always fires. */
  lemma FormatIsForestLayout(pairs: seq<ParseNode>)
    ensures AsAsciiTree(pairs) == Join(ForestLines(AsAsciiTreeNodes(pairs)))
    ensures |AsAsciiTreeNodes(pairs)| >= 2 ==>
              WriteTree(Node("", AsAsciiTreeNodes(pairs))) == EMPTY_ROOT_LINE + AsAsciiTree(pairs)
  {
    var nodes := AsAsciiTreeNodes(pairs);
    if |nodes| >= 2 {
      WriteEmptyRoot(nodes);
      var output := WriteTree(Node("", nodes));
      assert StartsWith(output, EMPTY_ROOT_LINE);
      assert output[2..] == Join(ChildLines(nodes));
    }
  }

  /** A written block of lines starts with its first line. */
  lemma JoinStartsWithFirstLine(lines: seq<string>)
    requires |lines| > 0
    ensures StartsWith(Join(lines), lines[0] + "\n")
  {
    var first := lines[0] + "\n";
    assert Join(lines) == first + Join(lines[1..]);
    assert Join(lines)[..|first|] == first;
  }

  /** With one surviving tree the output is that tree's rendering,
      unchanged. */
  lemma FormatSingle(pairs: seq<ParseNode>)
    requires |Survivors(pairs)| == 1
    ensures AsAsciiTree(pairs) == WriteTree(AsAsciiTreeNodes(pairs)[0])
    ensures StartsWith(AsAsciiTree(pairs), " " + Caption(AsAsciiTreeNodes(pairs)[0]) + "\n")
  {
    var t := AsAsciiTreeNodes(pairs)[0];
    var lines := RenderLines(t);
    assert Join(lines) == lines[0] + "\n" + Join(lines[1..]);
    assert Join(lines) == (" " + Caption(t) + "\n") + Join(lines[1..]);
  }

  /** With several surviving trees the output starts right at the first
      tree's " ├─ " line: the synthetic root's lone-space line is gone. */
  lemma FormatMany(pairs: seq<ParseNode>)
    requires |Survivors(pairs)| >= 2
    ensures StartsWith(AsAsciiTree(pairs), BRANCH + " " + Caption(AsAsciiTreeNodes(pairs)[0]) + "\n")
    ensures !StartsWith(AsAsciiTree(pairs), EMPTY_ROOT_LINE)
  {
    var nodes := AsAsciiTreeNodes(pairs);
    WriteEmptyRoot(nodes);
    FormatIsForestLayout(pairs);
    var lines := ChildLines(nodes);
    assert ForestLines(nodes) == lines;
    JoinStartsWithFirstLine(lines);
    var first := BRANCH + " " + Caption(nodes[0]) + "\n";
    assert lines[0] + "\n" == first;
    SecondCharDiffers(AsAsciiTree(pairs), first, EMPTY_ROOT_LINE);
  }

  /** A text that starts with `p` does not start with a `q` whose second
      character differs from that of `p`. */
  lemma SecondCharDiffers(s: string, p: string, q: string)
    requires StartsWith(s, p) && |p| > 1 && |q| > 1 && p[1] != q[1]
    ensures !StartsWith(s, q)
  {
    assert s[1] == s[..|p|][1];
  }

  /** Split back into lines, the output is exactly the forest's layout:
      every line starts with a space and was ended by a newline. */
  lemma FormatLines(pairs: seq<ParseNode>)
    requires SingleLineNames(pairs)
    ensures SplitLines(AsAsciiTree(pairs)) == ForestLines(AsAsciiTreeNodes(pairs))
    ensures AllSpaced(SplitLines(AsAsciiTree(pairs)))
  {
    var nodes := AsAsciiTreeNodes(pairs);
    FormatIsForestLayout(pairs);
    TransformSingleLine(pairs);
    if |nodes| == 1 {
      RenderSingleLine(nodes[0]);
      RenderSpaced(nodes[0]);
    } else {
      ChildLinesSingleLine(nodes);
      ChildLinesSpaced(nodes);
    }
    SplitJoin(ForestLines(nodes));
  }

  /** The 0/1/many decision counts trees after `EOI` filtering: the output
      is the same with every `EOI` node pruned. */
  lemma FormatIgnoresEoi(pairs: seq<ParseNode>)
    ensures AsAsciiTree(Prune(pairs)) == AsAsciiTree(pairs)
  {
    TransformIgnoresEoi(pairs);
  }
}
