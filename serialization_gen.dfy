/**
 * The `SerializationGen` object of heart-codegen: its fields, the visitor
 * clang calls back, the codebase traversal and the emission of
 * gen/reflection.heartgen.cpp through scoped code writers.
 *
 * Each method is proved against the pure model: the visitor against
 * `CodegenScan.Step`, the traversal against `CodegenScan.ScanAll`, the
 * emitters against the line functions of `CodegenOutput`.
 */
module CodegenGenerator {
  import opened Wrappers
  import opened Text
  import opened TypePatterns
  import opened CodegenScan
  import opened CodegenOutput
  import opened CodeWriting

  class SerializationGen {
    var state: SerializeState
    var serializedParent: Option<Cursor>
    var typeOrder: seq<string>
    var typeFields: map<string, seq<FieldToken>>
    var includes: seq<string>
    var serializedStringSizes: seq<nat>
    var serializedVectorTypes: seq<string>
    /** The diagnostics written to the error stream, in order. */
    var errors: seq<ScanError>
    var errorCode: int

    /** The fields as a value of the pure model. */
    function Snapshot(): GenState
      reads this
    {
      GenState(state, serializedParent, typeOrder, typeFields, includes,
               serializedStringSizes, serializedVectorTypes, errors, errorCode)
    }

    constructor ()
      ensures Snapshot() == Initial
    {
      state := Scanning;
      serializedParent := None;
      typeOrder := [];
      typeFields := map[];
      includes := [];
      serializedStringSizes := [];
      serializedVectorTypes := [];
      errors := [];
      errorCode := 0;
    }

    method EncounterError(e: ScanError)
      modifies this
      ensures Snapshot() == Report(old(Snapshot()), e)
    {
      errors := errors + [e];
      errorCode := 1;
    }

    /** The opening check of the callback: leaving the bound struct's children ends the struct. */
    method LeaveSerializedParent(parent: Cursor)
      modifies this
      ensures Snapshot() == LeaveStruct(old(Snapshot()), parent)
    {
      if serializedParent.Some? && serializedParent.value.id != parent.id {
        if state != SerializeCurrentParent {
          EncounterError(UnexpectedEnd);
        }
        state := Scanning;
        serializedParent := None;
      }
    }

    /** Records a field under `parentType` unless one of that name is already there. */
    method RecordField(parentType: string, token: FieldToken, file: string)
      modifies this`typeFields, this`typeOrder, this`includes
      ensures typeOrder == if parentType in old(typeFields) then old(typeOrder) else old(typeOrder) + [parentType]
      ensures var list := if parentType in old(typeFields) then old(typeFields)[parentType] else [];
        var isNew := !HasField(list, token.name);
        typeFields == old(typeFields)[parentType := if isNew then list + [token] else list] &&
        includes == if isNew then AddUnique(old(includes), file) else old(includes)
    {
      if parentType !in typeFields {
        typeFields := typeFields[parentType := []];
        typeOrder := typeOrder + [parentType];
      }
      if !HasField(typeFields[parentType], token.name) {
        includes := AddUnique(includes, file);
        typeFields := typeFields[parentType := typeFields[parentType] + [token]];
      }
    }

    /** The two regular expressions applied to an accepted field's type spelling. */
    method ClassifyFieldType(fieldType: string)
      modifies this`serializedStringSizes, this`serializedVectorTypes
      ensures serializedStringSizes == AddSize(old(serializedStringSizes), fieldType)
      ensures serializedVectorTypes == AddVectorType(old(serializedVectorTypes), fieldType)
    {
      var size := StringCapacity(fieldType);
      if size.Some? {
        serializedStringSizes := AddUnique(serializedStringSizes, size.value);
      }
      var typeName := VectorElement(fieldType);
      if typeName.Some? {
        serializedVectorTypes := AddUnique(serializedVectorTypes, typeName.value);
      }
    }

    /** The accepted-cursor branch of the callback: records the field and classifies its type. */
    method AcceptCursor(cursor: Cursor)
      modifies this
      ensures Snapshot() == Accept(old(Snapshot()), cursor)
    {
      ghost var g := Snapshot();
      var shouldBeFunc := state == SerializeCurrentParentNextAsFunc;
      var parentType := if serializedParent.Some? then serializedParent.value.canonicalTypeSpelling else "";
      var asRef := state == SerializeCurrentParentNextAsRef;
      var asFunc := shouldBeFunc;
      state := SerializeCurrentParent;
      RecordField(parentType, FieldToken(cursor.spelling, asRef, asFunc), cursor.file);
      ClassifyFieldType(cursor.typeSpelling);
      AcceptPieces(g, cursor, typeOrder, typeFields, includes);
    }

    /** The callback given to clang_visitChildren. */
    method VisitChildren(cursor: Cursor, parent: Cursor) returns (r: VisitResult)
      modifies this
      ensures Snapshot() == Step(old(Snapshot()), cursor, parent).0
      ensures r == Step(old(Snapshot()), cursor, parent).1
    {
      LeaveSerializedParent(parent);

      if cursor.spelling == StructMarker {
        if state != Scanning {
          EncounterError(NestedStruct);
        } else {
          state := SerializeNextStruct;
        }
        return Continue;
      }

      if cursor.spelling == AsRefMarker {
        if state != SerializeCurrentParent {
          EncounterError(DirectiveOutsideStruct);
        } else {
          state := SerializeCurrentParentNextAsRef;
        }
        return Continue;
      }

      if cursor.spelling == AsFuncMarker {
        if state != SerializeCurrentParent {
          EncounterError(DirectiveOutsideStruct);
        } else {
          state := SerializeCurrentParentNextAsFunc;
        }
        return Continue;
      }

      if state == SerializeNextStruct {
        if cursor.access != Public && cursor.access != InvalidAccess {
          EncounterError(NonPublicStruct);
          serializedParent := None;
          state := Scanning;
          return Continue;
        } else {
          serializedParent := Some(cursor);
          state := SerializeCurrentParent;
          return Recurse;
        }
      }

      if state == Scanning {
        return Recurse;
      }

      var shouldBeFunc := state == SerializeCurrentParentNextAsFunc;
      var valid := cursor.access == Public &&
        ((!shouldBeFunc && cursor.kind == FieldDecl) || (shouldBeFunc && cursor.kind == CXXMethod));

      if valid {
        AcceptCursor(cursor);
        return Continue;
      } else {
        if state != SerializeCurrentParent {
          EncounterError(InvalidDirective);
        }
        state := SerializeCurrentParent;
      }
      return Continue;
    }

    /** clang_visitChildren: visits `kids` in order, descending where the callback answers `Recurse`. */
    method VisitTree(parent: Cursor, kids: seq<Tree>)
      modifies this
      ensures Snapshot() == Walk(old(Snapshot()), parent, kids)
      decreases kids
    {
      var i := 0;
      while i < |kids|
        invariant 0 <= i <= |kids|
        invariant Walk(old(Snapshot()), parent, kids) == Walk(Snapshot(), parent, kids[i..])
      {
        ghost var before := Snapshot();
        assert kids[i..][0] == kids[i] && kids[i..][1..] == kids[i + 1..];
        var r := VisitChildren(kids[i].cursor, parent);
        if r == Recurse {
          assert kids[i] in kids;
          VisitTree(kids[i].cursor, kids[i].children);
        }
        i := i + 1;
      }
    }

    /** `ProcessCurrentFile`: a fresh scanner state, then a visit of the translation unit. */
    method ProcessCurrentFile(unit: Tree)
      modifies this
      ensures Snapshot() == ScanFile(old(Snapshot()), unit)
    {
      state := Scanning;
      serializedParent := None;
      VisitTree(unit.cursor, unit.children);
    }

    /** `TraverseCodebase` over the directory's files, each paired with its parsed translation unit. */
    method TraverseCodebase(files: seq<(string, Tree)>)
      modifies this
      ensures Snapshot() == ScanAll(old(Snapshot()), files)
    {
      var i := 0;
      while i < |files|
        invariant 0 <= i <= |files|
        invariant ScanAll(old(Snapshot()), files) == ScanAll(Snapshot(), files[i..])
      {
        assert files[i..][0] == files[i] && files[i..][1..] == files[i + 1..];
        var file := files[i].0;
        if IsScannedFile(file) {
          ProcessCurrentFile(files[i].1);
        }
        i := i + 1;
      }
    }

    /** `WriteHeader`. */
    method WriteHeader(w: CodeWriter)
      modifies w`lines
      ensures w.lines == old(w.lines) + Header(w.indentLevel, includes)
    {
      WriteIncludes(w, includes);
      WriteAccessor(w, SetProto, "prop = value;");
      WriteAccessor(w, GetProto, "return prop;");
    }

    /** `ReflectBaseTypes`. */
    method ReflectBaseTypes(w: CodeWriter)
      modifies w`lines
      ensures w.lines == old(w.lines) + Blocks(w.indentLevel, BaseTypeBlocks(BaseTypes))
    {
      var baseTypes := BaseTypes;
      var i := 0;
      while i < |baseTypes|
        invariant 0 <= i <= |baseTypes|
        invariant w.lines == old(w.lines) + Blocks(w.indentLevel, BaseTypeBlocks(baseTypes[..i]))
      {
        WriteBaseTypeBlock(w, baseTypes[i]);
        BaseTypeBlocksSnoc(baseTypes, i);
        BlocksStep(old(w.lines), w.indentLevel, BaseTypeBlocks(baseTypes[..i]), BaseTypeBlock(baseTypes[i]));
        i := i + 1;
      }
      assert baseTypes[..i] == baseTypes;
    }

    /** `ReflectSerializedStrings`: adds the path size to the set, then reflects every size. */
    method ReflectSerializedStrings(w: CodeWriter)
      modifies this`serializedStringSizes, w`lines
      ensures serializedStringSizes == AddUnique(old(serializedStringSizes), SerializedDataPathSize)
      ensures w.lines == old(w.lines) + StringSection(w.indentLevel, serializedStringSizes)
    {
      serializedStringSizes := AddUnique(serializedStringSizes, SerializedDataPathSize);
      WriteBlock(w, AdditiveOpen(ConstChar), ConversionLines(serializedStringSizes), TypeClose(ConstChar));
      w.WriteBlankLine();
      WriteSizeBlocks(w, serializedStringSizes);
    }

    /** `ReflectSerializedVectors`. */
    method ReflectSerializedVectors(w: CodeWriter)
      modifies w`lines
      ensures w.lines == old(w.lines) + Blocks(w.indentLevel, VectorBlocks(serializedVectorTypes))
    {
      var types := serializedVectorTypes;
      var i := 0;
      while i < |types|
        invariant 0 <= i <= |types|
        invariant w.lines == old(w.lines) + Blocks(w.indentLevel, VectorBlocks(types[..i]))
      {
        WriteVectorBlock(w, types[i]);
        VectorBlocksSnoc(types, i);
        BlocksStep(old(w.lines), w.indentLevel, VectorBlocks(types[..i]), VectorBlock(types[i]));
        i := i + 1;
      }
      assert types[..i] == types;
    }

    /** `ReflectSerializedStructs`: one block per recorded type, in the dictionary's key order. */
    method ReflectSerializedStructs(w: CodeWriter)
      modifies w`lines
      ensures w.lines == old(w.lines) + Blocks(w.indentLevel, StructBlocks(typeOrder, typeFields))
    {
      var order := typeOrder;
      var i := 0;
      while i < |order|
        invariant 0 <= i <= |order|
        invariant w.lines == old(w.lines) + Blocks(w.indentLevel, StructBlocks(order[..i], typeFields))
      {
        WriteStructBlock(w, order[i], FieldsOf(typeFields, order[i]));
        StructBlocksSnoc(order, typeFields, i);
        BlocksStep(old(w.lines), w.indentLevel, StructBlocks(order[..i], typeFields), StructBlock(order[i], FieldsOf(typeFields, order[i])));
        i := i + 1;
      }
      assert order[..i] == order;
    }

    /** The four reflectors in order: the body of `void ReflectSerializedData()`. */
    method ReflectAll(w: CodeWriter)
      requires w.indentLevel == 1
      modifies this`serializedStringSizes, w`lines
      ensures serializedStringSizes == EmittedSizes(old(Snapshot()))
      ensures w.lines == old(w.lines) + Body(old(Snapshot()))
    {
      ghost var g := Snapshot();
      ghost var head := w.lines;
      ReflectBaseTypes(w);
      ReflectSerializedStrings(w);
      ReflectSerializedVectors(w);
      ReflectSerializedStructs(w);
      Concat4(head, Blocks(1, BaseTypeBlocks(BaseTypes)), StringSection(1, EmittedSizes(g)),
              Blocks(1, VectorBlocks(g.vectorTypes)), Blocks(1, StructBlocks(g.typeOrder, g.typeFields)));
    }

    /** The `void ReflectSerializedData()` function block and everything the four reflectors write into it. */
    method WriteReflectionFunction(writer: CodeWriter)
      modifies this`serializedStringSizes, writer`lines
      ensures serializedStringSizes == EmittedSizes(old(Snapshot()))
      ensures writer.lines == old(writer.lines) + Indented(writer.indentLevel, [FunctionProto, "{"] + Body(old(Snapshot())) + ["}"])
    {
      var block := new CodeWriter.Function(writer, FunctionProto);
      ReflectAll(block);
      block.Dispose();
      assert Tabs(0) + "}" == "}";
    }

    /** The whole generated file, between its two banners, written to the root writer. */
    method WriteSource(writer: CodeWriter)
      requires writer.indentLevel == 0
      modifies this`serializedStringSizes, writer`lines
      ensures serializedStringSizes == EmittedSizes(old(Snapshot()))
      ensures writer.lines == old(writer.lines) + GeneratedFile(old(Snapshot()))
    {
      ghost var g := Snapshot();
      ghost var start := writer.lines;
      writer.WriteLine(Banner);
      writer.WriteBlankLine();
      WriteHeader(writer);
      ghost var reflect := [FunctionProto, "{"] + Body(g) + ["}"];
      WriteReflectionFunction(writer);
      writer.WriteBlankLine();
      writer.WriteLine(Banner);
      assert Tabs(0) + Banner == Banner;
      IndentedZero(reflect);
      assert writer.lines == start + [Banner] + [""] + Header(0, g.includes) + reflect + [""] + [Banner];
      FileAssembly(start, Banner, "", Header(0, g.includes), [FunctionProto, "{"], Body(g), "}");
    }

    /** The generating half of `Process`: the source written through a root writer and flushed to its stream. */
    method Generate() returns (written: seq<string>)
      modifies this`serializedStringSizes
      ensures written == GeneratedFile(old(Snapshot()))
      ensures Snapshot() == old(Snapshot()).(sizes := EmittedSizes(old(Snapshot())))
    {
      var writer := new CodeWriter.Root();
      WriteSource(writer);
      written := DisposeRoot(writer);
    }

    /**
     * `Process`: scans the listed files, writes the reflection source through
     * a root writer, and decides whether to replace the existing file, whose
     * text is `existing` when it could be read. `digest` stands for SHA-1
     * followed by base64; `newline` is the platform's line terminator.
     * Returns the stream's lines, its bytes, and whether they are written.
     */
    method Process(files: seq<(string, Tree)>, existing: Option<string>, newline: string, digest: seq<bv8> -> string)
      returns (written: seq<string>, contents: seq<bv8>, commit: bool)
      modifies this
      ensures var g := ScanAll(old(Snapshot()), files);
        written == GeneratedFile(g) &&
        contents == AsciiBytes(StreamText(written, newline)) &&
        commit == ShouldCommit(existing, contents, digest) &&
        Snapshot() == g.(sizes := EmittedSizes(g))
    {
      TraverseCodebase(files);
      written := Generate();
      contents := AsciiBytes(StreamText(written, newline));
      commit := ShouldCommit(existing, contents, digest);
    }
  }

  /** The end of the root writer's `using` scope: its lines, flushed to the empty stream. */
  method DisposeRoot(writer: CodeWriter) returns (written: seq<string>)
    requires writer.Valid() && writer.kind == RootWriter && writer.output == []
    modifies writer`lines, writer`indentLevel, writer`output
    ensures written == old(writer.lines)
  {
    writer.Dispose();
    written := writer.output;
  }

  lemma Concat4<T>(h: seq<T>, a: seq<T>, b: seq<T>, c: seq<T>, d: seq<T>)
    ensures h + a + b + c + d == h + (a + b + c + d)
  {
  }

  lemma FileAssembly<T>(start: seq<T>, banner: T, blank: T, header: seq<T>, open: seq<T>, body: seq<T>, close: T)
    ensures start + [banner] + [blank] + header + (open + body + [close]) + [blank] + [banner]
         == start + ([banner, blank] + header + open + body + [close, blank, banner])
  {
  }

  /** A block written through a fresh `IndentLevel` scope on `w`. */
  method WriteBlock(w: CodeWriter, first: string, body: seq<string>, last: string)
    requires first != "" && last != ""
    modifies w`lines
    ensures w.lines == old(w.lines) + Indented(w.indentLevel, Block(first, body, last))
  {
    var scope := new CodeWriter.Indent(w, first, last);
    var i := 0;
    while i < |body|
      invariant 0 <= i <= |body|
      invariant scope.Valid() && scope.kind == IndentWriter && scope.parent == w
      invariant scope.indentLevel == 1 && scope.endLine == last
      invariant scope.lines == [first] + Indented(1, body[..i])
      invariant w.lines == old(w.lines)
    {
      assert body[..i + 1] == body[..i] + [body[i]];
      IndentedAppend(1, body[..i], [body[i]]);
      scope.WriteLine(body[i]);
      i := i + 1;
    }
    assert body[..i] == body;
    scope.Dispose();
    assert Tabs(0) + last == last;
  }

  /** The include section of `WriteHeader`: the fixed includes, then one per recorded include, in order. */
  method WriteIncludes(w: CodeWriter, includes: seq<string>)
    modifies w`lines
    ensures w.lines == old(w.lines) + IncludeSection(w.indentLevel, includes)
  {
    WriteLines(w, FixedIncludes);
    w.WriteBlankLine();
    WriteIncludeLines(w, includes);
    w.WriteBlankLine();
  }

  /** Writes each of `ls` through `w`, in order. */
  method WriteLines(w: CodeWriter, ls: seq<string>)
    modifies w`lines
    ensures w.lines == old(w.lines) + Indented(w.indentLevel, ls)
  {
    var i := 0;
    while i < |ls|
      invariant 0 <= i <= |ls|
      invariant w.lines == old(w.lines) + Indented(w.indentLevel, ls[..i])
    {
      assert ls[..i + 1] == ls[..i] + [ls[i]];
      IndentedAppend(w.indentLevel, ls[..i], [ls[i]]);
      w.WriteLine(ls[i]);
      i := i + 1;
    }
    assert ls[..i] == ls;
  }

  /** One `#include` line per recorded include, in order. */
  method WriteIncludeLines(w: CodeWriter, includes: seq<string>)
    modifies w`lines
    ensures w.lines == old(w.lines) + Indented(w.indentLevel, IncludeLines(includes))
  {
    var i := 0;
    while i < |includes|
      invariant 0 <= i <= |includes|
      invariant w.lines == old(w.lines) + Indented(w.indentLevel, IncludeLines(includes[..i]))
    {
      assert IncludeLines(includes[..i + 1]) == IncludeLines(includes[..i]) + [IncludeLine(includes[i])];
      IndentedAppend(w.indentLevel, IncludeLines(includes[..i]), [IncludeLine(includes[i])]);
      w.WriteLine(IncludeLine(includes[i]));
      i := i + 1;
    }
    assert includes[..i] == includes;
  }

  /** An accessor template written through `w`, its body in an `IndentLevel` scope. */
  method WriteAccessor(w: CodeWriter, proto: string, statement: string)
    modifies w`lines
    ensures w.lines == old(w.lines) + Accessor(w.indentLevel, proto, statement)
  {
    var d := w.indentLevel;
    ghost var start := w.lines;
    w.WriteLine("template <typename T>");
    w.WriteLine(proto);
    ghost var headed := w.lines;
    WriteBlock(w, "{", [statement], "}");
    ghost var blocked := w.lines;
    w.WriteBlankLine();
    AccessorPieces(d, "template <typename T>", proto, Block("{", [statement], "}"), start, headed, blocked);
  }

  /** Two header lines, an indented block and an empty line are the indented whole and an empty line. */
  lemma AccessorPieces(d: int, first: string, second: string, block: seq<string>, start: seq<string>, headed: seq<string>, blocked: seq<string>)
    requires headed == start + [Tabs(d) + first] + [Tabs(d) + second]
    requires blocked == headed + Indented(d, block)
    ensures blocked + [""] == start + Indented(d, [first, second] + block) + [""]
  {
    IndentedAppend(d, [first, second], block);
    IndentedPair(d, first, second);
    PairThenRest(start, Tabs(d) + first, Tabs(d) + second, Indented(d, block), "");
  }

  lemma IndentedPair(d: int, first: string, second: string)
    ensures Indented(d, [first, second]) == [Tabs(d) + first, Tabs(d) + second]
  {
    var r := Indented(d, [first, second]);
    assert r[0] == Tabs(d) + first && r[1] == Tabs(d) + second;
  }

  lemma PairThenRest<T>(start: seq<T>, a: T, b: T, rest: seq<T>, last: T)
    ensures start + [a] + [b] + rest + [last] == start + ([a, b] + rest) + [last]
  {
  }

  /** One base type's block, then an empty line. */
  method WriteBaseTypeBlock(w: CodeWriter, t: string)
    modifies w`lines
    ensures w.lines == old(w.lines) + Indented(w.indentLevel, BaseTypeBlock(t)) + [""]
  {
    WriteBlock(w, TypeOpen(t), [SelfAccess(t)] + Conversions(t), TypeClose(t));
    w.WriteBlankLine();
  }

  /** One string size's block, then an empty line. */
  method WriteSizeBlock(w: CodeWriter, size: nat)
    modifies w`lines
    ensures w.lines == old(w.lines) + Indented(w.indentLevel, SizeBlock(size)) + [""]
  {
    var t := StringType(size);
    WriteBlock(w, SizeOpen(size), [SelfAccess(t)], TypeClose(t));
    w.WriteBlankLine();
  }

  /** One vector type's block, then an empty line. */
  method WriteVectorBlock(w: CodeWriter, element: string)
    modifies w`lines
    ensures w.lines == old(w.lines) + Indented(w.indentLevel, VectorBlock(element)) + [""]
  {
    var t := VectorType(element);
    WriteBlock(w, TypeOpen(t), [FunctionAlias(t, "emplace_back<>"), FunctionAlias(t, "reserve")], TypeClose(t));
    w.WriteBlankLine();
  }

  /** One block per string size, in the set's order, each followed by an empty line. */
  method WriteSizeBlocks(w: CodeWriter, sizes: seq<nat>)
    modifies w`lines
    ensures w.lines == old(w.lines) + Blocks(w.indentLevel, SizeBlocks(sizes))
  {
    var i := 0;
    while i < |sizes|
      invariant 0 <= i <= |sizes|
      invariant w.lines == old(w.lines) + Blocks(w.indentLevel, SizeBlocks(sizes[..i]))
    {
      WriteSizeBlock(w, sizes[i]);
      SizeBlocksSnoc(sizes, i);
      BlocksStep(old(w.lines), w.indentLevel, SizeBlocks(sizes[..i]), SizeBlock(sizes[i]));
      i := i + 1;
    }
    assert sizes[..i] == sizes;
  }

  /** One struct's block, each field with the macro its flags select, then an empty line. */
  method WriteStructBlock(w: CodeWriter, t: string, fields: seq<FieldToken>)
    modifies w`lines
    ensures w.lines == old(w.lines) + Indented(w.indentLevel, StructBlock(t, fields)) + [""]
  {
    WriteBlock(w, TypeOpen(t), FieldLines(t, fields), TypeClose(t));
    w.WriteBlankLine();
  }

  lemma {:induction false} IndentedZero(lines: seq<string>)
    ensures Indented(0, lines) == lines
  {
    if lines != [] {
      IndentedZero(lines[1..]);
      assert Tabs(0) + lines[0] == lines[0];
    }
  }
}
