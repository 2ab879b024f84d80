/**
 * The indentation-scoped text builder of heart-codegen.
 *
 * The C# interface ICodeWriter has three implementations: the root writer,
 * which owns the output stream, and two scoped writers (an indentation level
 * and a function block) that buffer their own lines and forward them to their
 * parent when they are disposed. Dafny here has no traits, so the three are
 * one class tagged with its kind.
 */
module CodeWriting {

  datatype WriterKind = RootWriter | IndentWriter | FunctionWriter

  /** `n` tab characters; a negative level writes none, as the counting loop does. */
  function Tabs(n: int): (r: string)
    ensures |r| == if n < 0 then 0 else n
    ensures forall i | 0 <= i < |r| :: r[i] == '\t'
  {
    if n <= 0 then "" else Tabs(n - 1) + "\t"
  }

  /** Every line prefixed by `n` tabs. */
  function Indented(n: int, lines: seq<string>): (r: seq<string>)
    ensures |r| == |lines|
    ensures forall i | 0 <= i < |lines| :: r[i] == Tabs(n) + lines[i]
  {
    if lines == [] then [] else [Tabs(n) + lines[0]] + Indented(n, lines[1..])
  }

  lemma {:induction false} TabsAdd(a: nat, b: nat)
    ensures Tabs(a) + Tabs(b) == Tabs(a + b)
  {
    if b > 0 {
      TabsAdd(a, b - 1);
      assert Tabs(a + b) == Tabs(a + b - 1) + "\t";
    }
  }

  /**
   * Forwarding a child's lines through a parent at depth `a` after the child
   * wrote them at depth `b` gives the same lines as writing them at depth
   * `a + b` directly: a line's final tab count is the sum of the depths of
   * its enclosing writers.
   */
  lemma {:induction false} IndentedNested(a: nat, b: nat, lines: seq<string>)
    ensures Indented(a, Indented(b, lines)) == Indented(a + b, lines)
  {
    if lines != [] {
      IndentedNested(a, b, lines[1..]);
      TabsAdd(a, b);
      assert Tabs(a) + (Tabs(b) + lines[0]) == Tabs(a + b) + lines[0];
    }
  }

  lemma {:induction false} IndentedAppend(n: int, xs: seq<string>, ys: seq<string>)
    ensures Indented(n, xs + ys) == Indented(n, xs) + Indented(n, ys)
  {
    var l, r := Indented(n, xs + ys), Indented(n, xs) + Indented(n, ys);
    forall i | 0 <= i < |l| ensures l[i] == r[i] {
      if i < |xs| {
        assert (xs + ys)[i] == xs[i];
      } else {
        assert (xs + ys)[i] == ys[i - |xs|];
      }
    }
  }

  class CodeWriter {
    var kind: WriterKind
    var parent: CodeWriter?
    var lines: seq<string>
    var indentLevel: int
    var endLine: string
    /** What the root writer has written to its stream, one entry per stream line. */
    var output: seq<string>

    ghost predicate Valid()
      reads this`kind, this`parent
    {
      (kind == RootWriter <==> parent == null) && parent != this
    }

    /** The root writer over an output stream (`CodeWriter`). */
    constructor Root()
      ensures Valid() && kind == RootWriter
      ensures lines == [] && indentLevel == 0 && output == []
    {
      kind := RootWriter;
      parent := null;
      lines := [];
      indentLevel := 0;
      endLine := "";
      output := [];
    }

    /** `IndentLevel(parent, firstLine, endLine)`. */
    constructor Indent(p: CodeWriter, firstLine: string, last: string)
      ensures Valid() && kind == IndentWriter && parent == p
      ensures lines == (if firstLine != "" then [firstLine] else [])
      ensures indentLevel == 1 && endLine == last && output == []
    {
      kind := IndentWriter;
      parent := p;
      lines := [];
      indentLevel := 0;
      endLine := last;
      output := [];
      new;
      if firstLine != "" {
        WriteLine(firstLine);
        assert Tabs(0) + firstLine == firstLine;
      }
      indentLevel := indentLevel + 1;
    }

    /** `FunctionBlock(parent, functionProto)`. */
    constructor Function(p: CodeWriter, proto: string)
      ensures Valid() && kind == FunctionWriter && parent == p
      ensures lines == [proto, "{"] && indentLevel == 1 && output == []
    {
      kind := FunctionWriter;
      parent := p;
      lines := [];
      indentLevel := 0;
      endLine := "";
      output := [];
      new;
      WriteLine(proto);
      WriteLine("{");
      assert Tabs(0) + proto == proto && Tabs(0) + "{" == "{";
      indentLevel := indentLevel + 1;
    }

    /** The writer this one forwards to, as a frame. */
    function Parents(): set<CodeWriter>
      reads this
    {
      if parent == null then {} else {parent}
    }

    /** Appends exactly one line, prefixed by exactly `indentLevel` tabs. */
    method WriteLine(line: string)
      modifies this`lines
      ensures lines == old(lines) + [Tabs(indentLevel) + line]
    {
      var sb := "";
      var i := 0;
      while i < indentLevel
        invariant i <= indentLevel || i == 0
        invariant sb == Tabs(i)
      {
        sb := sb + "\t";
        i := i + 1;
      }
      if indentLevel > 0 {
        assert i == indentLevel;
      }
      sb := sb + line;
      lines := lines + [sb];
    }

    /** The no-argument `WriteLine()`: an empty line, without any indentation. */
    method WriteBlankLine()
      modifies this`lines
      ensures lines == old(lines) + [""]
    {
      lines := lines + [""];
    }

    /**
     * `Dispose`. The root writer writes its lines to the stream in order. A
     * scoped writer steps back one level, writes its closing line (the end
     * line of an indentation level when it is not empty, `}` for a function
     * block), then forwards every buffered line, in order, through its
     * parent's `WriteLine`, so each gains the parent's current indentation.
     */
    method Dispose()
      requires Valid()
      modifies this`lines, this`indentLevel, this`output, Parents()`lines
      ensures kind == RootWriter ==> output == old(output) + old(lines) && lines == old(lines)
      ensures kind != RootWriter ==>
        indentLevel == old(indentLevel) - 1 &&
        lines == old(lines) + Closing(kind, endLine, indentLevel) &&
        parent.lines == old(parent.lines) + Indented(parent.indentLevel, lines)
    {
      if kind == RootWriter {
        Flush();
      } else {
        indentLevel := indentLevel - 1;
        WriteClosing();
        Forward();
      }
    }

    /** The root writer's part of `Dispose`: every buffered line goes to the stream, in order. */
    method Flush()
      modifies this`output
      ensures output == old(output) + lines
    {
      var i := 0;
      while i < |lines|
        invariant 0 <= i <= |lines|
        invariant output == old(output) + lines[..i]
      {
        output := output + [lines[i]];
        i := i + 1;
      }
      assert lines[..|lines|] == lines;
    }

    /** A scoped writer's closing line, written at its current level. */
    method WriteClosing()
      modifies this`lines
      ensures lines == old(lines) + Closing(kind, endLine, indentLevel)
    {
      if kind == IndentWriter {
        if endLine != "" {
          WriteLine(endLine);
        }
      } else if kind == FunctionWriter {
        WriteLine("}");
      }
    }

    /** A scoped writer's lines, in order, through its parent's `WriteLine`. */
    method Forward()
      requires Valid() && parent != null
      modifies parent`lines
      ensures parent.lines == old(parent.lines) + Indented(parent.indentLevel, lines)
    {
      var i := 0;
      while i < |lines|
        invariant 0 <= i <= |lines|
        invariant parent.lines == old(parent.lines) + Indented(parent.indentLevel, lines[..i])
      {
        ghost var done := lines[..i];
        parent.WriteLine(lines[i]);
        assert lines[..i + 1] == done + [lines[i]];
        IndentedAppend(parent.indentLevel, done, [lines[i]]);
        i := i + 1;
      }
      assert lines[..|lines|] == lines;
    }
  }

  /** The line a scoped writer adds when it is disposed, at its outer level. */
  function Closing(kind: WriterKind, endLine: string, level: int): seq<string>
  {
    match kind
    case RootWriter => []
    case IndentWriter => if endLine != "" then [Tabs(level) + endLine] else []
    case FunctionWriter => [Tabs(level) + "}"]
  }

  /**
   * A complete `IndentLevel` scope opened on a parent at depth `d`, written
   * with `body` and then disposed, adds to the parent exactly the opening
   * line at depth `d`, the body at depth `d + 1` and the closing line at
   * depth `d`, in that order.
   */
  lemma {:induction false} IndentScopeLines(d: nat, first: string, body: seq<string>, last: string)
    requires first != "" && last != ""
    ensures Indented(d, [first] + Indented(1, body) + [last])
         == [Tabs(d) + first] + Indented(d + 1, body) + [Tabs(d) + last]
  {
    var inner := Indented(1, body);
    IndentedAppend(d, [first] + inner, [last]);
    IndentedAppend(d, [first], inner);
    IndentedNested(d, 1, body);
    assert Indented(d, [first]) == [Tabs(d) + first];
    assert Indented(d, [last]) == [Tabs(d) + last];
  }
}
