# pest_ascii_tree in Dafny

A model of the pure core of `pest_ascii_tree`, a debugging helper that prints a
pest parse result as an ASCII tree. The model has three parts.

- **Transducer** (`as_ascii_tree_nodes`): turns an ordered forest of parse nodes into display trees.
  - Each parse node carries a rule name, its matched text and its children.
  - `EOI` matches are dropped at every depth.
  - A node with no surviving children becomes a one-line leaf `rule "escaped trimmed text"`.
  - Any other node becomes a display node labelled with its rule name.
- **Renderer** (`ascii_tree::write_tree`, as used here): prints each tree node on its own line, with a leading space.
  - A non-last child's first line is introduced by ` ├─` and its further lines by ` │ `.
  - A last child's first line is introduced by ` └─` and its further lines by three spaces.
  - Every line ends with a newline.
- **Formatter** (`as_ascii_tree`): decides what to print from the number of surviving trees.
  - No trees give the empty text, and one tree is rendered as it is.
  - Several trees are hung below a synthetic root with an empty label. The root's line, a lone space, is then cut off.

Files:

- `text.dfy` (module `Text`): Rust's `str::trim`, backslash escaping with its inverse, and writing and splitting lines.
- `ascii_tree.dfy` (module `AsciiTree`): the display tree and the renderer. Also a reference layout that reads each line's prefix off the path from the root, and the proof that the renderer matches it.
- `transducer.dfy` (module `Transducer`): the parse node and the transducer. Also a reference definition ("prune every `EOI` node, then classify") that the transducer is proved equal to.
- `formatter.dfy` (module `Formatter`): the 0/1/many formatter.
- `examples.dfy` (module `Examples`): the outputs the library's own tests expect. Each test is proved for any one-letter operands, then for the tests' own letters.

The renderer lives in the external `ascii_tree` crate, which is not modelled; its behaviour is fixed by the layout the tests assert. A rendered child's lines already start with a space, so ` ├─` followed by ` val "a"` gives ` ├─ val "a"`.

## Model

| member | source | states |
|---|---|---|
| Text.TrimSpec | src/lib.rs:50 | `Trim`, the model of `str::trim`: the trimmed text is the slice of the span between its leading and trailing whitespace. Everything cut off is whitespace, and the result neither starts nor ends with whitespace. It is empty exactly when the span is all whitespace. |
| Text.TrimIdempotent | src/lib.rs:50 | Trimming an already trimmed text changes nothing. |
| Text.EscapeLength | src/lib.rs:64 | `Escape`, the model of the escaper: escaping keeps a text's length exactly when no character needs escaping. A text without special characters comes out unchanged. |
| Text.EscapeSingleLine | src/lib.rs:61-65 | The escaped text contains no newline, carriage return or tab, so a leaf's line is a single line whatever the matched text holds. |
| Text.EscapeRoundTrip | src/lib.rs:64 | `Escape`, the model of the escaper, against an independent decoder `Unescape`: reading the escaped text back gives the original text: escaping loses nothing. |
| Text.EscapeInjective | src/lib.rs:64 | Two different texts never escape to the same string, for example two spans that differ only in an embedded control character. |
| Text.SplitJoin | src/lib.rs:230-248 | Lines without newlines, written one per line with a newline after each, split back into exactly the same lines. |
| AsciiTree.RenderLines | src/lib.rs:203-208 | A rendered tree has one line per display node, and its first line is a space followed by the tree's own caption. |
| AsciiTree.WriteTree | src/lib.rs:116 | A written tree is never empty, starts with a space and ends with a newline. |
| AsciiTree.ChildLineAt | src/lib.rs:203-208 | Child `i`'s lines start at the offset given by the sizes of the earlier children. Its first line carries ` ├─`, or ` └─` for the last child. Its further lines carry ` │ `, or three spaces for the last child. |
| AsciiTree.NodeFirstChildLine | src/lib.rs:203-204 | The line right after a node's own line is its first child's caption, behind ` ├─`, or behind ` └─` when that child is the only one. |
| AsciiTree.RenderSpaced | src/lib.rs:203-208 | Every rendered line starts with a space. |
| AsciiTree.RenderSingleLine | src/lib.rs:233-247 | If no caption contains a newline, no rendered line does: the connectors add none, so each display node occupies exactly one of the expected lines. |
| AsciiTree.LayoutCons | src/lib.rs:234-240 | Placing a tree one nesting level deeper puts that level's token in front of each of its lines, and leaves the rest of each line unchanged. |
| AsciiTree.RenderIsLayout | src/lib.rs:233-247 | The recursive renderer gives, line for line, the reference layout. In that layout a line's prefix is one token per ancestor level: ` │ ` or three spaces above, then ` ├─` or ` └─`. So prefixes compose across nesting levels. |
| Transducer.SurvivorsSpec | src/lib.rs:49-57 | A node is kept at one level exactly when it is in the forest and is not `EOI`; a lone node survives exactly when it is not `EOI`. |
| Transducer.SurvivorsAppend | src/lib.rs:49-57 | The survivors of two forests placed one after the other are the first forest's survivors followed by the second's, so every non-`EOI` node is kept in input order. |
| Transducer.SurvivorsEmpty | src/lib.rs:55-57 | Nothing survives exactly when every top-level node is `EOI`. |
| Transducer.AsAsciiTreeNodes | src/lib.rs:43-75 | The transducer yields exactly one display tree per top-level node that is not `EOI`. |
| Transducer.LeafLineReadsBack | src/lib.rs:61-65 | `LeafLine`, the leaf's `format!`: the line is the rule name, a space and an opening quote, then a text that unescapes to exactly the trimmed span, then a closing quote. |
| Transducer.SurvivorClassified | src/lib.rs:50-71 | The `i`-th output tree comes from the `i`-th non-`EOI` input node. It is a leaf exactly when none of that node's children survives, and the leaf's line is the rule name followed by the escaped, trimmed text in quotes. Otherwise it is a node carrying the rule name and exactly the transformed children. |
| Transducer.TransformWellFormed | src/lib.rs:59-69 | No display node the transducer builds, at any depth, has an empty child list. |
| Transducer.Prune | src/lib.rs:55-57 | The pruned forest holds no `EOI` node at any depth, and keeps one top-level node per survivor. |
| Transducer.PruneIdempotent | src/lib.rs:55-57 | Pruning an already pruned forest changes nothing. |
| Transducer.TransformIsDisplayOfPrune | src/lib.rs:47-74 | The transducer equals the reference "remove every `EOI` node at every depth, then classify childless nodes as leaves". So no output tree at any depth stems from an `EOI` node. |
| Transducer.TransformIgnoresEoi | src/lib.rs:55-57 | Removing every `EOI` node from the input beforehand does not change the output. |
| Transducer.TransformAppend | src/lib.rs:49-74 | The output of two forests placed one after the other is the first forest's output followed by the second's: input order is kept. |
| Transducer.EoiNodeInvisible | src/lib.rs:55-57 | Taking an `EOI` node out of any position in a forest leaves the output unchanged, whatever the node spans or contains. |
| Transducer.TransformSingleLine | src/lib.rs:54-68 | If no rule name contains a newline, no caption in the output does, whatever the matched text contains. |
| Formatter.AsAsciiTree | src/lib.rs:105-129 | The output is empty exactly when no top-level node survives filtering. Otherwise it starts with a space and ends with a newline. |
| Formatter.WriteEmptyRoot | src/lib.rs:119-120 | The synthetic root renders as a lone space and a newline, followed by the non-empty block of its hung children. That block starts with the first tree's ` ├─` line. |
| Formatter.FormatIsForestLayout | src/lib.rs:113-125 | The output is the forest laid out directly: one tree as it is, several trees as the hung children of an invisible root. When there are several trees, the rendering of the synthetic root is exactly a space and a newline followed by the output, so the cut always fires. |
| Formatter.FormatSingle | src/lib.rs:115-117 | With one surviving tree, the output is that tree's rendering unchanged, starting with its own line. |
| Formatter.FormatMany | src/lib.rs:118-125 | With two or more surviving trees, the output starts with the first tree's ` ├─` line, and never with a space followed by a newline. |
| Formatter.FormatLines | src/lib.rs:105-129 | Split back into lines, the output is exactly the forest's layout, and every line starts with a space. |
| Formatter.FormatIgnoresEoi | src/lib.rs:109-113 | The 0/1/many decision counts trees after `EOI` filtering: the output is the same once every `EOI` node is removed. |
| Examples.Pointwise | src/lib.rs:49-74 | If each node of a forest, on its own, yields exactly one tree, the forest yields those trees in order. |
| Examples.SingleValueOf | src/lib.rs:223-224 | A lone `val` match of a plain letter prints as ` val "m"` and a newline. |
| Examples.SingleValue | src/lib.rs:223-224 | The test's instance, with the letter `m`. |
| Examples.FlatExpressionOf | src/lib.rs:198-209 | `a + b + c` matched by `expr` prints the ` expr` line, then five lines: four behind ` ├─` and the last behind ` └─`. |
| Examples.FlatExpression | src/lib.rs:198-209 | The test's instance, with the letters `a`, `b`, `c`. |
| Examples.FlatFromExprRootOf | src/lib.rs:211-221 | `x + y + z` from the silent `expr_root` rule consists of five top-level matches and `EOI`. It prints the five lines without any root line. |
| Examples.FlatFromExprRoot | src/lib.rs:211-221 | The test's instance, with the letters `x`, `y`, `z`. |
| Examples.NestedRendered | src/lib.rs:230-247 | The nested display tree renders as the 15 lines of the test, for any leaf letters. |
| Examples.NestedExpressionOf | src/lib.rs:226-248 | `(u + (v + w)) + (x + y) + z` matched by `expr` prints the 15 lines the test expects. |
| Examples.NestedExpression | src/lib.rs:226-248 | The test's instance, with the letters `u` to `z`. |
| Examples.NestedFromRootOf | src/lib.rs:250-272 | The same text parsed from the silent `root` rule gives the `expr` match followed by `EOI`, and prints the same 15 lines. |
| Examples.NestedFromRoot | src/lib.rs:250-272 | The test's instance, with the letters `u` to `z`. |
| Examples.NestedFromExprRootOf | src/lib.rs:274-295 | The same text from the silent `expr_root` rule gives five top-level matches and `EOI`. It prints the 14 child lines without the ` expr` line. |
| Examples.NestedFromExprRoot | src/lib.rs:274-295 | The test's instance, with the letters `u` to `z`. |

## Left out

- `print_as_ascii_tree` (src/lib.rs:167-184) only routes text to standard output or standard error. It is I/O glue and is not modelled.
- The pest parser, its `Pairs` iterator and the `expression.pest` grammar are not part of this model. The input is a finite tree of rule name, matched text and children.
  - The test lemmas start from hand-built parse forests of an assumed shape: `root` and `expr_root` are taken to be silent rules whose parse ends with an `EOI` match. This shape is consistent with the outputs the tests expect.
- `ascii_tree::write_tree` is not part of this model. The renderer is specified from the layout the tests assert.
  - Its `std::fmt::Error` path is omitted: writing into a `String` cannot fail, so the renderer and the formatter are total and return the text itself.
- `escape_string::escape` is not part of this model. The list of characters it rewrites is an assumed model of the escaper: newline, tab and carriage return become `\n`, `\t` and `\r`; backslash and both quote characters get a backslash; every other character passes through unchanged.
- `str::trim` is modelled on characters with the Unicode White_Space list that Rust's `char::is_whitespace` uses.
- `output.split_off(2)` cuts at a byte offset, while the model cuts at a character index. The two agree here because the two characters cut off, a space and a newline, are one byte each.
- The `Debug` formatting of the grammar's `Rule` enum is replaced by plain strings. The rule name is compared with `"EOI"` and printed as the string itself.
- A leaf carries exactly one line, since the source only ever builds a one-element line vector (src/lib.rs:61-66). The renderer's multi-line leaves are not modelled.
- The source transforms an `EOI` node's children before it checks the rule (src/lib.rs:52-55) and then throws that result away. The model computes them the same way; the only effect is work that is discarded.
