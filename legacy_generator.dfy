/**
 * The older heart-codegen (game/heart-codegen) as the program runs it: a
 * stream reader that counts lines, and a generator object whose fields
 * (`ErrorCode`, the current file, the include list and the set of string
 * capacities) the scanning methods update as they read.
 *
 * Every method is proved to leave the reader and the generator exactly where
 * the pure scan functions of `LegacyCodegen` say, so the properties proved
 * there hold of these methods.
 */
module LegacyGenerator {
  import opened Wrappers
  import opened Text
  import opened LegacyCodegen

  /**
   * `CountingStreamReader` over a file's text: `Read` counts the newlines it
   * consumes, `ReadLine` counts one line per call. End of stream is `-1`
   * from `Peek`/`Read` and a null line (`None`) from `ReadLine`.
   */
  class CountingReader {
    const text: string
    var pos: nat
    var lineNumber: int

    predicate Valid()
      reads this
    {
      pos <= |text|
    }

    constructor (text: string)
      ensures this.text == text && pos == 0 && lineNumber == 1
      ensures Valid()
    {
      this.text := text;
      pos := 0;
      lineNumber := 1;
    }

    method EndOfStream() returns (atEnd: bool)
      requires Valid()
      ensures atEnd <==> pos == |text|
    {
      atEnd := pos == |text|;
    }

    /** The next character without consuming it, or -1 at end of stream. */
    method Peek() returns (c: int)
      requires Valid()
      ensures pos == |text| ==> c == -1
      ensures pos < |text| ==> c == text[pos] as int
    {
      if pos == |text| {
        c := -1;
      } else {
        c := text[pos] as int;
      }
    }

    /** Consumes one character; a consumed `\n` advances the line number. */
    method Read() returns (c: int)
      requires Valid()
      modifies this
      ensures Valid()
      ensures old(pos) == |text| ==> c == -1 && pos == old(pos) && lineNumber == old(lineNumber)
      ensures old(pos) < |text| ==>
        c == text[old(pos)] as int && pos == old(pos) + 1 &&
        lineNumber == old(lineNumber) + (if text[old(pos)] == '\n' then 1 else 0)
    {
      if pos == |text| {
        c := -1;
      } else {
        c := text[pos] as int;
        if text[pos] == '\n' {
          lineNumber := lineNumber + 1;
        }
        pos := pos + 1;
      }
    }

    /**
     * `ReadLine`: the characters up to the next `\n`, `\r` or `\r\n`, which
     * is consumed but not returned; null at end of stream. Counts one line
     * either way.
     */
    method ReadLine() returns (line: Option<string>)
      requires Valid()
      modifies this
      ensures Valid() && lineNumber == old(lineNumber) + 1
      ensures match ReadLineAt(text, old(pos))
        case None => line == None && pos == old(pos)
        case Some((l, next)) => line == Some(l) && pos == next
    {
      lineNumber := lineNumber + 1;
      if pos == |text| {
        return None;
      }
      var e := pos;
      while e < |text| && !IsLineBreak(text[e])
        invariant pos <= e <= |text|
        invariant forall i | pos <= i < e :: !IsLineBreak(text[i])
        decreases |text| - e
      {
        e := e + 1;
      }
      assert e == LineBreakFrom(text, pos);
      line := Some(text[pos..e]);
      if e < |text| && text[e] == '\r' && e + 1 < |text| && text[e + 1] == '\n' {
        pos := e + 2;
      } else if e < |text| {
        pos := e + 1;
      } else {
        pos := e;
      }
    }
  }

  /**
   * `SerializationGen`: the generator's state while it walks the code base.
   * The set of string capacities is kept in first-insertion order.
   */
  class LegacyGen {
    var errorCode: int
    var currentFile: string
    var mayCurrentlySerialize: bool
    const directory: string
    var includes: seq<string>
    var sizes: seq<nat>

    constructor (dir: string)
      ensures directory == dir && errorCode == 0 && includes == [] && sizes == []
      ensures currentFile == "" && !mayCurrentlySerialize
    {
      directory := dir;
      errorCode := 0;
      currentFile := "";
      mayCurrentlySerialize := false;
      includes := [];
      sizes := [];
    }

    /**
     * `EncounterError`: sets `ErrorCode` to 1 and reports the line, one less
     * than the reader's count when the offending line was already consumed.
     */
    method EncounterError(reader: CountingReader, processingPrevious: bool) returns (reportedLine: int)
      modifies this
      ensures errorCode == 1
      ensures reportedLine == reader.lineNumber - (if processingPrevious then 1 else 0)
      ensures currentFile == old(currentFile) && mayCurrentlySerialize == old(mayCurrentlySerialize)
      ensures includes == old(includes) && sizes == old(sizes)
    {
      errorCode := 1;
      reportedLine := reader.lineNumber + (if processingPrevious then -1 else 0);
    }

    /**
     * `ExtractTypeName`: reads the line after the marker and returns the
     * struct name (or empty), raising the brace depth when the line opens a
     * body it does not close. A null line or a one-token line throws.
     */
    method ExtractTypeName(reader: CountingReader, bracketLevel: int) returns (r: Run<string>, level: int)
      requires reader.Valid()
      modifies reader
      ensures reader.Valid()
      ensures var spec := LegacyCodegen.ExtractTypeName(reader.text, old(reader.pos));
        (spec.Done? ==> r == Done(spec.value.0) && reader.pos == spec.value.1 && level == bracketLevel + spec.value.2) &&
        (!spec.Done? ==> r.Crash? && spec.Crash?)
    {
      var nextLine := reader.ReadLine();
      if nextLine.None? {
        return Crash, bracketLevel;
      }
      var line := nextLine.value;
      level := bracketLevel;
      if ContainsChar(line, '{') && !ContainsChar(line, '}') {
        level := level + 1;
      }
      var tokens := Split(line, ' ');
      if |tokens| < 2 {
        return Crash, level;
      }
      if tokens[0] == "struct" || tokens[1] == "class" {
        return Done(tokens[1]), level;
      }
      return Done(""), level;
    }

    /**
     * The `foreach` over the `;`-separated declarations of one root-level
     * line: each parsed field is appended to `tokens`, its string capacity
     * recorded, and each malformed declaration reported.
     */
    method ProcessDeclarations(reader: CountingReader, line: string, tokens: seq<FieldToken>) returns (r: Run<seq<FieldToken>>)
      modifies this
      ensures var spec := FieldLine(line, Fields(tokens, old(sizes), old(errorCode)));
        (spec.Done? ==> r == Done(spec.value.tokens) && sizes == spec.value.sizes && errorCode == spec.value.errorCode) &&
        (!spec.Done? ==> r.Crash? && spec.Crash?)
      ensures currentFile == old(currentFile) && mayCurrentlySerialize == old(mayCurrentlySerialize)
      ensures includes == old(includes)
    {
      var declarations := Split(line, ';');
      var result := tokens;
      ghost var f0 := Fields(tokens, sizes, errorCode);
      var i := 0;
      while i < |declarations|
        invariant 0 <= i <= |declarations|
        invariant DeclarationsFrom(declarations, 0, f0) == DeclarationsFrom(declarations, i, Fields(result, sizes, errorCode))
        invariant currentFile == old(currentFile) && mayCurrentlySerialize == old(mayCurrentlySerialize)
        invariant includes == old(includes)
      {
        var d := declarations[i];
        if d != "" {
          match ParseDeclaration(d)
          case Declared(token, typeName) =>
            var added := AddCapacity(sizes, typeName);
            if !added.Done? {
              return Crash;
            }
            result := result + [token];
            sizes := added.value;
          case _ =>
            var _ := EncounterError(reader, true);
        }
        i := i + 1;
      }
      return Done(result);
    }

    /**
     * `ProcessStructFields`: walks the struct body from the reader's position
     * at brace depth `bracketLevel` until the depth reaches 0, collecting the
     * root-level fields. Where the program would spin forever (end of stream
     * inside a nested block) this returns `Hang`; where it would dereference
     * a null line it returns `Crash`.
     */
    method ProcessStructFields(reader: CountingReader, bracketLevel: int) returns (r: Run<seq<FieldToken>>)
      requires reader.Valid()
      modifies this, reader
      ensures reader.Valid()
      ensures var spec := ScanFields(reader.text, old(reader.pos), bracketLevel, Fields([], old(sizes), old(errorCode)));
        (spec.Done? ==> r == Done(spec.value.1.tokens) && reader.pos == spec.value.0 &&
                        sizes == spec.value.1.sizes && errorCode == spec.value.1.errorCode) &&
        (!spec.Done? ==> r == Fail(spec))
      ensures currentFile == old(currentFile) && mayCurrentlySerialize == old(mayCurrentlySerialize)
      ensures includes == old(includes)
    {
      var level := bracketLevel;
      var result: seq<FieldToken> := [];
      ghost var spec := ScanFields(reader.text, reader.pos, bracketLevel, Fields([], sizes, errorCode));
      while true
        invariant reader.Valid()
        invariant spec == ScanFields(reader.text, reader.pos, level, Fields(result, sizes, errorCode))
        invariant currentFile == old(currentFile) && mayCurrentlySerialize == old(mayCurrentlySerialize)
        invariant includes == old(includes)
        decreases |reader.text| - reader.pos
      {
        var next := reader.Peek();
        if next == '{' as int {
          var _ := reader.Read();
          level := level + 1;
          continue;
        } else if next == '}' as int {
          var _ := reader.Read();
          level := level - 1;
          continue;
        }
        if level > 1 {
          if next == -1 {
            return Hang;
          }
          var _ := reader.Read();
          continue;
        } else if level == 0 {
          break;
        }
        if next != -1 && IsWhiteSpace(next as char) {
          var _ := reader.Read();
          continue;
        }
        var rest: Run<(seq<FieldToken>, int)>;
        rest := ProcessRootLine(reader, level, result);
        if !rest.Done? {
          return Fail(rest);
        }
        result, level := rest.value.0, rest.value.1;
      }
      return Done(result);
    }

    /**
     * The rest of the field loop's body on other root-level text: reads the
     * whole line; a line with `(` only moves the depth, any other line is a
     * list of declarations. A null line (end of stream) throws.
     */
    method ProcessRootLine(reader: CountingReader, level: int, tokens: seq<FieldToken>) returns (r: Run<(seq<FieldToken>, int)>)
      requires reader.Valid()
      modifies this, reader
      ensures reader.Valid()
      ensures old(reader.pos) == |reader.text| ==> r.Crash?
      ensures old(reader.pos) < |reader.text| ==>
        (r.Done? ==>
          old(reader.pos) < reader.pos &&
          ScanRootLine(reader.text, old(reader.pos), level, Fields(tokens, old(sizes), old(errorCode))) ==
          ScanFields(reader.text, reader.pos, r.value.1, Fields(r.value.0, sizes, errorCode))) &&
        (!r.Done? ==> r.Crash? && ScanRootLine(reader.text, old(reader.pos), level, Fields(tokens, old(sizes), old(errorCode))).Crash?)
      ensures currentFile == old(currentFile) && mayCurrentlySerialize == old(mayCurrentlySerialize)
      ensures includes == old(includes)
    {
      var line := reader.ReadLine();
      if line.None? {
        return Crash;
      }
      if ContainsChar(line.value, '(') {
        return Done((tokens, FunctionLineLevel(line.value, level)));
      }
      var gathered := ProcessDeclarations(reader, line.value, tokens);
      if !gathered.Done? {
        return Crash;
      }
      return Done((gathered.value, level));
    }

    /**
     * `ProcessCurrentStruct`, with the reader just past the marker line: the
     * `BEGIN`/field/`END` lines of the struct, or no lines (and an error)
     * when the name line gives no name.
     */
    method ProcessCurrentStruct(reader: CountingReader) returns (r: Run<seq<string>>)
      requires reader.Valid()
      modifies this, reader
      ensures reader.Valid()
      ensures var spec := StructAt(reader.text, old(reader.pos), old(sizes), old(errorCode));
        (spec.Done? ==> r == Done(spec.value.0) && reader.pos == spec.value.1 &&
                        sizes == spec.value.2.sizes && errorCode == spec.value.2.errorCode) &&
        (!spec.Done? ==> r == Fail(spec))
      ensures currentFile == old(currentFile) && mayCurrentlySerialize == old(mayCurrentlySerialize)
      ensures includes == old(includes)
    {
      var structName, bracketLevel := ExtractTypeName(reader, 0);
      if !structName.Done? {
        return Crash;
      }
      var name := structName.value;
      if name == "" {
        var _ := EncounterError(reader, true);
        return Done([]);
      }
      var tokens := ProcessStructFields(reader, bracketLevel);
      if !tokens.Done? {
        return Fail(tokens);
      }
      var lines := StructLines(name, tokens.value);
      return Done(lines);
    }

    /** The `StringBuilder` of `ProcessCurrentStruct`: the `BEGIN` line, one macro line per field in order, the `END` line. */
    static method StructLines(name: string, tokens: seq<FieldToken>) returns (lines: seq<string>)
      ensures lines == StructBlock(name, tokens)
    {
      lines := [BeginLine(name)];
      for k := 0 to |tokens|
        invariant lines == [BeginLine(name)] + TokenLines(name, tokens[..k])
      {
        lines := lines + [TokenLine(name, tokens[k])];
      }
      assert tokens[..|tokens|] == tokens;
      lines := lines + [EndLine(name)];
    }

    /**
     * `ProcessCurrentFile` on the current file's text: every
     * `SERIALIZE_STRUCT()` line of a header starts a struct, each followed
     * by a blank line; in a `.cpp` or `.c` file each such line is reported.
     */
    method ProcessCurrentFile(text: string) returns (r: Run<seq<string>>)
      modifies this
      ensures var spec := FileFrom(text, 0, mayCurrentlySerialize, FileScan([], old(sizes), old(errorCode)));
        (spec.Done? ==> r == Done(spec.value.lines) && sizes == spec.value.sizes && errorCode == spec.value.errorCode) &&
        (!spec.Done? ==> r == Fail(spec))
      ensures currentFile == old(currentFile) && mayCurrentlySerialize == old(mayCurrentlySerialize)
      ensures includes == old(includes)
    {
      var stream := new CountingReader(text);
      var lines: seq<string> := [];
      ghost var spec := FileFrom(text, 0, mayCurrentlySerialize, FileScan([], sizes, errorCode));
      var atEnd := stream.EndOfStream();
      while !atEnd
        invariant stream.Valid() && stream.text == text
        invariant atEnd <==> stream.pos == |text|
        invariant spec == FileFrom(text, stream.pos, mayCurrentlySerialize, FileScan(lines, sizes, errorCode))
        invariant currentFile == old(currentFile) && mayCurrentlySerialize == old(mayCurrentlySerialize)
        invariant includes == old(includes)
        decreases |text| - stream.pos
      {
        var line := stream.ReadLine();
        if line.value == StructMarkerLine {
          if !mayCurrentlySerialize {
            var _ := EncounterError(stream, false);
          } else {
            var block := ProcessCurrentStruct(stream);
            if !block.Done? {
              return Fail(block);
            }
            lines := lines + block.value + [""];
          }
        }
        atEnd := stream.EndOfStream();
      }
      return Done(lines);
    }

    /**
     * `TraverseCodebase` over the files found under the directory, in the
     * order given: code files are scanned, headers may serialize, and a file
     * that produced output is added to the includes by its relative path.
     */
    method TraverseCodebase(files: seq<SourceFile>) returns (r: Run<seq<string>>)
      modifies this
      ensures var spec := TraverseFrom(files, 0, Codebase([], old(includes), old(sizes), old(errorCode)));
        (spec.Done? ==> r == Done(spec.value.body) && includes == spec.value.includes &&
                        sizes == spec.value.sizes && errorCode == spec.value.errorCode) &&
        (!spec.Done? ==> r == Fail(spec))
    {
      var body: seq<string> := [];
      ghost var spec := TraverseFrom(files, 0, Codebase([], includes, sizes, errorCode));
      for i := 0 to |files|
        invariant spec == TraverseFrom(files, i, Codebase(body, includes, sizes, errorCode))
      {
        var ext := Extension(files[i].path);
        if IsCodeFile(ext) {
          mayCurrentlySerialize := IsHeader(ext);
          currentFile := files[i].path;
          var serializations := ProcessCurrentFile(files[i].text);
          if !serializations.Done? {
            return Fail(serializations);
          }
          if serializations.value != [] {
            body := body + serializations.value;
            includes := includes + [files[i].relative];
          }
        }
      }
      return Done(body);
    }

    /**
     * `Process`: traverses the code base, then writes
     * `reflection.heartgen.cpp`: banner, includes without repeats, the
     * integer conversions, one conversion per string capacity seen, the
     * struct lines, and the closing banner.
     */
    method Process(files: seq<SourceFile>) returns (r: Run<seq<string>>)
      modifies this
      ensures var spec := TraverseFrom(files, 0, Codebase([], old(includes), old(sizes), old(errorCode)));
        (spec.Done? ==> r == Done(OutputFile(spec.value)) && errorCode == spec.value.errorCode) &&
        (!spec.Done? ==> r == Fail(spec))
    {
      ghost var spec := TraverseFrom(files, 0, Codebase([], includes, sizes, errorCode));
      var traversed := TraverseCodebase(files);
      if !traversed.Done? {
        return Fail(traversed);
      }
      assert spec.value == Codebase(traversed.value, includes, sizes, errorCode);
      var lines := WriteOutput(Codebase(traversed.value, includes, sizes, errorCode));
      return Done(lines);
    }

    /** The writing half of `Process`: preamble, includes, conversions, struct lines, closing banner. */
    static method WriteOutput(c: Codebase) returns (lines: seq<string>)
      ensures lines == OutputFile(c)
    {
      var writer := Preamble;
      var distinct := Dedup(c.includes);
      for k := 0 to |distinct|
        invariant writer == Preamble + IncludeLines(distinct[..k])
      {
        writer := writer + [IncludeLine(distinct[k])];
      }
      assert distinct[..|distinct|] == distinct;
      writer := writer + FunctionOpen;
      var conversions := WriteSizeSection(c.sizes);
      return writer + conversions + c.body + Postamble;
    }

    /** One conversion line per string capacity seen, then a blank line, or nothing when there is none. */
    static method WriteSizeSection(sizes: seq<nat>) returns (lines: seq<string>)
      ensures lines == SizeSection(sizes)
    {
      lines := [];
      if |sizes| > 0 {
        for k := 0 to |sizes|
          invariant lines == SizeLines(sizes[..k])
        {
          lines := lines + [SizeLine(sizes[k])];
        }
        assert sizes[..|sizes|] == sizes;
        lines := lines + [""];
      }
    }

    /** `ProcessSourceDirectory`: a fresh generator over the directory's files; the file it writes and its exit code. */
    static method ProcessSourceDirectory(dir: string, files: seq<SourceFile>) returns (r: Run<(seq<string>, int)>)
      ensures r == LegacyCodegen.ProcessSourceDirectory(files)
    {
      var generator := new LegacyGen(dir);
      var output := generator.Process(files);
      if !output.Done? {
        return Fail(output);
      }
      return Done((output.value, generator.errorCode));
    }
  }
}
