/**
 * The older, line-based heart-codegen (game/heart-codegen): a hand-written
 * text scanner that finds `SERIALIZE_STRUCT()` lines in headers, reads the
 * struct name from the next line, and collects the root-level field
 * declarations of the struct body by tracking brace depth.
 *
 * This module states what the scanner computes as pure functions over the
 * file text and a read position, in the order the stream reader consumes it.
 * The class in `LegacyGenerator` performs the same work step by step and is
 * proved to agree with these functions.
 *
 * A run can end three ways: with a value, with an exception (`Crash`: a
 * null line at end of stream, an index past the tokens of the name line, or
 * `int.Parse` overflowing), or never (`Hang`: the field loop spinning at end
 * of stream inside a nested block).
 */
module LegacyCodegen {
  import opened Wrappers
  import opened Text
  import opened TypePatterns
  import opened SeqLayout

  datatype Run<T> = Done(value: T) | Crash | Hang

  /** A failed run, carried over to a different value type. */
  function Fail<T, U>(r: Run<T>): (f: Run<U>)
    requires !r.Done?
    ensures f.Crash? == r.Crash? && f.Hang? == r.Hang?
  {
    if r.Crash? then Crash else Hang
  }

  const StructMarkerLine := "SERIALIZE_STRUCT()"
  const AsRefAnnotation := "SERIALIZE_AS_REF"
  const FieldMacro := "SERIALIZE_FIELD"
  const AliasMacro := "SERIALIZE_FIELD_ALIAS"
  /** The largest value `int.Parse` accepts. */
  const MaxInt32 := 0x7FFF_FFFF

  /** The annotation table: the macro each accepted annotation is emitted with. */
  function MacroFor(annotation: string): Option<string>
  {
    if annotation == "" then Some(FieldMacro)
    else if annotation == AsRefAnnotation then Some(AliasMacro)
    else None
  }

  datatype FieldToken = FieldToken(name: string, annotation: string)

  /** `char.IsWhiteSpace`: the Unicode separators and the controls U+0009..U+000D and U+0085. */
  predicate IsWhiteSpace(c: char)
  {
    c == ' ' || '\t' <= c <= '\r' || c == '\U{85}' || c == '\U{A0}' || c == '\U{1680}' ||
    '\U{2000}' <= c <= '\U{200A}' || c == '\U{2028}' || c == '\U{2029}' || c == '\U{202F}' ||
    c == '\U{205F}' || c == '\U{3000}'
  }

  // ---------------------------------------------------------------------------
  // StreamReader.ReadLine

  predicate IsLineBreak(c: char)
  {
    c == '\n' || c == '\r'
  }

  /** Index of the first line terminator at or after `pos`, or the end of the text. */
  function LineBreakFrom(text: string, pos: nat): (e: nat)
    requires pos <= |text|
    ensures pos <= e <= |text|
    ensures e < |text| ==> IsLineBreak(text[e])
    ensures forall i | pos <= i < e :: !IsLineBreak(text[i])
    decreases |text| - pos
  {
    if pos == |text| || IsLineBreak(text[pos]) then pos else LineBreakFrom(text, pos + 1)
  }

  /** The position after the terminator at `e`: `\r\n` counts as one terminator. */
  function AfterBreak(text: string, e: nat): (next: nat)
    requires e <= |text|
    ensures e <= next <= |text| && (e < |text| ==> e < next)
  {
    if e == |text| then e
    else if text[e] == '\r' && e + 1 < |text| && text[e + 1] == '\n' then e + 2
    else e + 1
  }

  /** `ReadLine` at `pos`: null at end of stream, else the line without its terminator and the next position. */
  function ReadLineAt(text: string, pos: nat): (r: Option<(string, nat)>)
    requires pos <= |text|
    ensures r.None? <==> pos == |text|
    ensures r.Some? ==> pos < r.value.1 <= |text|
    ensures r.Some? ==> forall i | 0 <= i < |r.value.0| :: !IsLineBreak(r.value.0[i])
  {
    if pos == |text| then None
    else
      var e := LineBreakFrom(text, pos);
      Some((text[pos..e], AfterBreak(text, e)))
  }

  /** Every line `ReadLine` returns from `pos` until the end of the stream. */
  function LinesFrom(text: string, pos: nat): seq<string>
    requires pos <= |text|
    decreases |text| - pos
  {
    match ReadLineAt(text, pos)
    case None => []
    case Some((line, next)) => [line] + LinesFrom(text, next)
  }

  // ---------------------------------------------------------------------------
  // One declaration: `annotation type identifier` or `type identifier`

  /**
   * `(.+?)(\[\d+\])` can match with its bracketed digits starting at `k`:
   * there is at least one character before, a `[`, a run of digits, and a
   * `]` right after the run (a `]` can only follow the whole run).
   */
  predicate ArraySuffixAt(s: string, k: nat)
  {
    1 <= k && k + 1 < |s| && s[k] == '[' &&
    var e := DigitRunEnd(s, k + 1); k + 1 < e < |s| && s[e] == ']'
  }

  /** The first `k >= from` at which an array suffix starts, if any. */
  function ArraySuffixFrom(s: string, from: nat): (k: Option<nat>)
    requires from >= 1
    ensures k.Some? ==> from <= k.value && ArraySuffixAt(s, k.value)
    ensures k.Some? ==> forall i | from <= i < k.value :: !ArraySuffixAt(s, i)
    ensures k.None? ==> forall i | from <= i :: !ArraySuffixAt(s, i)
    decreases |s| - from
  {
    if from >= |s| then None
    else if ArraySuffixAt(s, from) then Some(from)
    else ArraySuffixFrom(s, from + 1)
  }

  /**
   * The array fix-up: an identifier such as `x[5]` loses its bracketed
   * length. The lazy group of the leftmost match is the text before the
   * first array suffix that is not at position 0.
   */
  function StripArraySuffix(identifier: string): string
  {
    match ArraySuffixFrom(identifier, 1)
    case Some(k) => identifier[..k]
    case None => identifier
  }

  datatype Declaration =
    | Declared(token: FieldToken, typeName: string)
    | TooManyTokens
    | UnknownAnnotation

  /** A `;`-separated, non-empty piece of a root-level line, split on single spaces. */
  function ParseDeclaration(d: string): Declaration
  {
    var tokens := Split(d, ' ');
    if |tokens| == 2 then ClassifyDeclaration("", tokens[0], tokens[1])
    else if |tokens| == 3 then ClassifyDeclaration(tokens[0], tokens[1], tokens[2])
    else TooManyTokens
  }

  function ClassifyDeclaration(annotation: string, typeName: string, identifier: string): Declaration
  {
    var name := StripArraySuffix(identifier);
    if MacroFor(annotation).None? then UnknownAnnotation
    else Declared(FieldToken(name, annotation), typeName)
  }

  /** The size set after a declaration of type `typeName`; `int.Parse` throws above `int.MaxValue`. */
  function AddCapacity(sizes: seq<nat>, typeName: string): Run<seq<nat>>
  {
    match StringCapacity(typeName)
    case None => Done(sizes)
    case Some(n) => if n > MaxInt32 then Crash else Done(AddUnique(sizes, n))
  }

  // ---------------------------------------------------------------------------
  // The field loop of one struct body

  /** What the field loop has gathered: the fields in order, the size set, and `ErrorCode`. */
  datatype Fields = Fields(tokens: seq<FieldToken>, sizes: seq<nat>, errorCode: int)

  /** The declarations `decls[i..]` of one root-level line, gathered into `f`. */
  function DeclarationsFrom(decls: seq<string>, i: nat, f: Fields): Run<Fields>
    decreases |decls| - i
  {
    if i >= |decls| then Done(f)
    else if decls[i] == "" then DeclarationsFrom(decls, i + 1, f)
    else
      match ParseDeclaration(decls[i])
      case Declared(token, typeName) =>
        var sizes := AddCapacity(f.sizes, typeName);
        if sizes.Done? then DeclarationsFrom(decls, i + 1, Fields(f.tokens + [token], sizes.value, f.errorCode))
        else Fail(sizes)
      case _ => DeclarationsFrom(decls, i + 1, f.(errorCode := 1))
  }

  /** The root-level line `line`, gathered into `f`. */
  function FieldLine(line: string, f: Fields): Run<Fields>
  {
    DeclarationsFrom(Split(line, ';'), 0, f)
  }

  /** The brace depth after a root-level line that contains `(`: it opens a body it does not close. */
  function FunctionLineLevel(line: string, level: int): int
  {
    if ContainsChar(line, '{') && !ContainsChar(line, '}') then level + 1 else level
  }

  /**
   * `ProcessStructFields` from `pos` at brace depth `level`: the position
   * where it stops and what it gathered. It reads braces one character at a
   * time, skips every character deeper than one level and whitespace at
   * level one, reads any other root-level text as a whole line, and stops
   * at depth 0 without consuming the next character.
   */
  function ScanFields(text: string, pos: nat, level: int, f: Fields): (r: Run<(nat, Fields)>)
    requires pos <= |text|
    ensures r.Done? ==> pos <= r.value.0 <= |text|
    decreases |text| - pos, 1
  {
    if pos == |text| then
      if level > 1 then Hang
      else if level == 0 then Done((pos, f))
      else Crash
    else
      var c := text[pos];
      if c == '{' then ScanFields(text, pos + 1, level + 1, f)
      else if c == '}' then ScanFields(text, pos + 1, level - 1, f)
      else if level > 1 then ScanFields(text, pos + 1, level, f)
      else if level == 0 then Done((pos, f))
      else if IsWhiteSpace(c) then ScanFields(text, pos + 1, level, f)
      else ScanRootLine(text, pos, level, f)
  }

  /**
   * The rest of the loop's body on other root-level text: the whole line is
   * read; a line with `(` is a function, whose body the depth now counts,
   * and any other line is a list of declarations.
   */
  function ScanRootLine(text: string, pos: nat, level: int, f: Fields): (r: Run<(nat, Fields)>)
    requires pos < |text|
    ensures r.Done? ==> pos <= r.value.0 <= |text|
    decreases |text| - pos, 0
  {
    var (line, next) := ReadLineAt(text, pos).value;
    if ContainsChar(line, '(') then ScanFields(text, next, FunctionLineLevel(line, level), f)
    else
      var g := FieldLine(line, f);
      if g.Done? then ScanFields(text, next, level, g.value) else Fail(g)
  }

  // ---------------------------------------------------------------------------
  // One struct

  /**
   * `ExtractTypeName`: the line after the marker, split on spaces. The name
   * is the second token when the first is `struct` or the second is `class`,
   * else empty. A line with a single token throws, as does end of stream.
   * Also returns the position after the line and the brace depth it opens.
   */
  function ExtractTypeName(text: string, pos: nat): (r: Run<(string, nat, int)>)
    requires pos <= |text|
    ensures r.Done? ==> pos < r.value.1 <= |text|
  {
    match ReadLineAt(text, pos)
    case None => Crash
    case Some((line, next)) =>
      var level := if ContainsChar(line, '{') && !ContainsChar(line, '}') then 1 else 0;
      var tokens := Split(line, ' ');
      if |tokens| < 2 then Crash
      else if tokens[0] == "struct" || tokens[1] == "class" then Done((tokens[1], next, level))
      else Done(("", next, level))
  }

  function BeginLine(name: string): string
  {
    "\tBEGIN_SERIALIZE_TYPE(" + name + ")"
  }

  function EndLine(name: string): string
  {
    "\tEND_SERIALIZE_TYPE(" + name + ")"
  }

  /** The macro of a recorded field; recorded fields only carry annotations from the table. */
  function MacroOf(token: FieldToken): string
  {
    if token.annotation == AsRefAnnotation then AliasMacro else FieldMacro
  }

  function TokenLine(name: string, token: FieldToken): string
  {
    "\t\t" + MacroOf(token) + "(" + name + ", " + token.name + ")"
  }

  function TokenLines(name: string, tokens: seq<FieldToken>): (r: seq<string>)
    ensures |r| == |tokens|
    ensures forall i | 0 <= i < |tokens| :: r[i] == TokenLine(name, tokens[i])
  {
    seq(|tokens|, i requires 0 <= i < |tokens| => TokenLine(name, tokens[i]))
  }

  /** The lines one struct contributes. */
  function StructBlock(name: string, tokens: seq<FieldToken>): seq<string>
  {
    [BeginLine(name)] + TokenLines(name, tokens) + [EndLine(name)]
  }

  /**
   * `ProcessCurrentStruct` at `pos` (just after the marker line): the lines
   * it returns, where the stream is left, and the updated sizes and error
   * code. A name that comes out empty is reported and gives no lines.
   */
  function StructAt(text: string, pos: nat, sizes: seq<nat>, errorCode: int): (r: Run<(seq<string>, nat, Fields)>)
    requires pos <= |text|
    ensures r.Done? ==> pos < r.value.1 <= |text|
  {
    var named := ExtractTypeName(text, pos);
    if !named.Done? then Fail(named)
    else
      var (name, next, level) := named.value;
      if name == "" then Done(([], next, Fields([], sizes, 1)))
      else
        var scanned := ScanFields(text, next, level, Fields([], sizes, errorCode));
        if !scanned.Done? then Fail(scanned)
        else
          var (end, f) := scanned.value;
          Done((StructBlock(name, f.tokens), end, f))
  }

  // ---------------------------------------------------------------------------
  // One file, and the whole code base

  /** What a file scan has gathered: output lines, the size set and `ErrorCode`. */
  datatype FileScan = FileScan(lines: seq<string>, sizes: seq<nat>, errorCode: int)

  /**
   * `ProcessCurrentFile` from `pos`: reads line by line and hands every line
   * equal to `SERIALIZE_STRUCT()` to the struct reader, or reports it when the
   * file is not a header. Each processed struct is followed by a blank line,
   * even when it produced no lines of its own.
   */
  function FileFrom(text: string, pos: nat, mayCurrentlySerialize: bool, s: FileScan): Run<FileScan>
    requires pos <= |text|
    decreases |text| - pos
  {
    match ReadLineAt(text, pos)
    case None => Done(s)
    case Some((line, next)) =>
      if line != StructMarkerLine then FileFrom(text, next, mayCurrentlySerialize, s)
      else if !mayCurrentlySerialize then FileFrom(text, next, mayCurrentlySerialize, s.(errorCode := 1))
      else
        var r := StructAt(text, next, s.sizes, s.errorCode);
        if !r.Done? then Fail(r)
        else
          var (block, end, f) := r.value;
          FileFrom(text, end, mayCurrentlySerialize, FileScan(s.lines + block + [""], f.sizes, f.errorCode))
  }

  /** A source file: its path, the path relative to the scanned directory, and its text. */
  datatype SourceFile = SourceFile(path: string, relative: string, text: string)

  /** `Path.GetExtension`: from the last `.` of the file name on, or empty when there is none or it ends the path. */
  function Extension(path: string): string
    decreases |path|
  {
    if path == [] then ""
    else
      var c := path[|path| - 1];
      if c == '/' || c == '\\' || c == ':' then ""
      else if c == '.' then ""
      else ExtensionBefore(path[..|path| - 1], [c])
  }

  function ExtensionBefore(path: string, tail: string): string
    decreases |path|
  {
    if path == [] then ""
    else
      var c := path[|path| - 1];
      if c == '/' || c == '\\' || c == ':' then ""
      else if c == '.' then [c] + tail
      else ExtensionBefore(path[..|path| - 1], [c] + tail)
  }

  predicate IsCodeFile(ext: string)
  {
    ext == ".cpp" || ext == ".c" || ext == ".h" || ext == ".hpp"
  }

  predicate IsHeader(ext: string)
  {
    ext == ".h" || ext == ".hpp"
  }

  /** The generator's state across files: the concatenated struct output, includes, sizes and `ErrorCode`. */
  datatype Codebase = Codebase(body: seq<string>, includes: seq<string>, sizes: seq<nat>, errorCode: int)

  const InitialCodebase := Codebase([], [], [], 0)

  /** The state after `ProcessCurrentFile` on one file. */
  function ProcessFile(c: Codebase, file: SourceFile): Run<Codebase>
  {
    var ext := Extension(file.path);
    if !IsCodeFile(ext) then Done(c)
    else
      var r := FileFrom(file.text, 0, IsHeader(ext), FileScan([], c.sizes, c.errorCode));
      if !r.Done? then Fail(r)
      else
        var s := r.value;
        if s.lines == [] then Done(c.(sizes := s.sizes, errorCode := s.errorCode))
        else Done(Codebase(c.body + s.lines, c.includes + [file.relative], s.sizes, s.errorCode))
  }

  /** `TraverseCodebase` over `files[i..]`. */
  function TraverseFrom(files: seq<SourceFile>, i: nat, c: Codebase): Run<Codebase>
    decreases |files| - i
  {
    if i >= |files| then Done(c)
    else
      var r := ProcessFile(c, files[i]);
      if r.Done? then TraverseFrom(files, i + 1, r.value) else Fail(r)
  }

  /** `Distinct()`: first occurrences, in order. */
  function Dedup(s: seq<string>): (r: seq<string>)
    ensures forall x :: x in r <==> x in s
    ensures Distinct(r)
    decreases |s|
  {
    if s == [] then []
    else
      var d := Dedup(s[..|s| - 1]);
      var x := s[|s| - 1];
      if x in d then d else d + [x]
  }

  const Banner := "/*   WRITTEN BY HEART-CODEGEN   */"
  const Int32Reflect := "\tentt::reflect<int32_t>().conv<uint32_t>().conv<uint16_t>().conv<uint8_t>();"
  const Uint32Reflect := "\tentt::reflect<uint32_t>().conv<int32_t>().conv<uint16_t>().conv<uint8_t>();"

  function IncludeLine(path: string): string
  {
    "#include \"" + path + "\""
  }

  function IncludeLines(includes: seq<string>): (r: seq<string>)
    ensures |r| == |includes|
    ensures forall i | 0 <= i < |includes| :: r[i] == IncludeLine(includes[i])
  {
    seq(|includes|, i requires 0 <= i < |includes| => IncludeLine(includes[i]))
  }

  function SizeLine(n: nat): string
  {
    "\tentt::reflect<const char*>().conv<&SerializedString<" + NatToString(n) + ">::CreateFromCString>();"
  }

  function SizeLines(sizes: seq<nat>): (r: seq<string>)
    ensures |r| == |sizes|
    ensures forall i | 0 <= i < |sizes| :: r[i] == SizeLine(sizes[i])
  {
    seq(|sizes|, i requires 0 <= i < |sizes| => SizeLine(sizes[i]))
  }

  /** The string conversions, and their blank line, only when some capacity was seen. */
  function SizeSection(sizes: seq<nat>): seq<string>
  {
    if |sizes| > 0 then SizeLines(sizes) + [""] else []
  }

  const Preamble := [Banner, "", "#include \"gen/gen.h\"", "#include <heart/deserialization.h>", ""]
  const FunctionOpen := ["", "void ReflectSerializedData()", "{", Int32Reflect, Uint32Reflect, ""]
  const Postamble := ["}", "", Banner]

  /** `reflection.heartgen.cpp` as `Process` writes it. */
  function OutputFile(c: Codebase): seq<string>
  {
    Preamble + IncludeLines(Dedup(c.includes)) + FunctionOpen + SizeSection(c.sizes) + c.body + Postamble
  }

  /** `ProcessSourceDirectory`: the written file and the exit code, unless a file throws or hangs. */
  function ProcessSourceDirectory(files: seq<SourceFile>): Run<(seq<string>, int)>
  {
    var r := TraverseFrom(files, 0, InitialCodebase);
    if r.Done? then Done((OutputFile(r.value), r.value.errorCode)) else Fail(r)
  }

  // ---------------------------------------------------------------------------
  // Properties

  /** A file none of whose lines is exactly `SERIALIZE_STRUCT()` leaves the scan untouched. */
  lemma {:induction false} NoMarkerNoOutput(text: string, pos: nat, mayCurrentlySerialize: bool, s: FileScan)
    requires pos <= |text|
    requires StructMarkerLine !in LinesFrom(text, pos)
    ensures FileFrom(text, pos, mayCurrentlySerialize, s) == Done(s)
    decreases |text| - pos
  {
    match ReadLineAt(text, pos)
    case None =>
    case Some((line, next)) =>
      assert LinesFrom(text, pos) == [line] + LinesFrom(text, next);
      NoMarkerNoOutput(text, next, mayCurrentlySerialize, s);
  }

  /**
   * In a file that is not a header, every marker line is reported and none
   * is processed: no lines, no sizes, and `ErrorCode` is 1 exactly when a
   * marker line occurs (or it was already).
   */
  lemma {:induction false} NonHeaderReportsMarkers(text: string, pos: nat, s: FileScan)
    requires pos <= |text|
    ensures FileFrom(text, pos, false, s) ==
      Done(s.(errorCode := if StructMarkerLine in LinesFrom(text, pos) then 1 else s.errorCode))
    decreases |text| - pos
  {
    match ReadLineAt(text, pos)
    case None =>
    case Some((line, next)) =>
      assert LinesFrom(text, pos) == [line] + LinesFrom(text, next);
      if line == StructMarkerLine {
        NonHeaderReportsMarkers(text, next, s.(errorCode := 1));
      } else {
        NonHeaderReportsMarkers(text, next, s);
      }
  }

  /** A line without terminator characters, followed by `\n`, is what `ReadLine` returns. */
  lemma ReadLineOfLine(text: string, pos: nat, line: string)
    requires pos + |line| < |text| && text[pos..pos + |line|] == line && text[pos + |line|] == '\n'
    requires forall i | 0 <= i < |line| :: !IsLineBreak(line[i])
    ensures ReadLineAt(text, pos) == Some((line, pos + |line| + 1))
  {
    assert forall i | pos <= i < pos + |line| :: text[i] == line[i - pos];
  }

  /** A word as the scanner's splitting sees it: non-empty, no whitespace, no separator, parenthesis or brace. */
  predicate PlainWord(w: string)
  {
    w != [] && forall i | 0 <= i < |w| :: !IsWhiteSpace(w[i]) && w[i] !in {';', '(', ')', '{', '}'}
  }

  lemma PlainWordChars(w: string)
    requires PlainWord(w)
    ensures !ContainsChar(w, ' ') && !ContainsChar(w, '{') && !ContainsChar(w, '}')
    ensures forall i | 0 <= i < |w| :: !IsLineBreak(w[i])
  {
    forall i | 0 <= i < |w| ensures w[i] != ' ' && !IsLineBreak(w[i]) { assert !IsWhiteSpace(w[i]); }
  }

  /** A character absent from a prefix occurs in the whole exactly when it occurs in the rest. */
  lemma ContainsAfter(prefix: string, rest: string, c: char)
    requires !ContainsChar(prefix, c)
    ensures ContainsChar(prefix + rest, c) == ContainsChar(rest, c)
  {
    var s := prefix + rest;
    if ContainsChar(rest, c) {
      var j :| 0 <= j < |rest| && rest[j] == c;
      assert s[|prefix| + j] == c;
    }
    if ContainsChar(s, c) {
      var j :| 0 <= j < |s| && s[j] == c;
      assert forall i | 0 <= i < |prefix| :: s[i] == prefix[i];
      assert rest[j - |prefix|] == c;
    }
  }

  /** The first two space-separated tokens of `struct Name rest`. */
  lemma StructLineTokens(name: string, rest: string)
    requires PlainWord(name) && (rest == [] || rest[0] == ' ')
    ensures var t := Split("struct " + name + rest, ' '); |t| >= 2 && t[0] == "struct" && t[1] == name
  {
    PlainWordChars(name);
    assert !ContainsChar("struct", ' ');
    assert "struct " + name + rest == "struct" + [' '] + (name + rest);
    SplitAtFirst("struct", ' ', name + rest);
    if rest == [] {
      assert name + rest == name;
      SplitNoSeparator(name, ' ');
    } else {
      assert name + rest == name + [' '] + rest[1..];
      SplitAtFirst(name, ' ', rest[1..]);
    }
  }

  /**
   * `struct Name ...` on the line after the marker names the struct `Name`;
   * the line opens the body when it has `{` and no `}`.
   */
  lemma StructLineNamed(text: string, pos: nat, name: string, rest: string)
    requires PlainWord(name) && (rest == [] || rest[0] == ' ')
    requires forall i | 0 <= i < |rest| :: !IsLineBreak(rest[i])
    requires var line := "struct " + name + rest;
      pos + |line| < |text| && text[pos..pos + |line|] == line && text[pos + |line|] == '\n'
    ensures var r := ExtractTypeName(text, pos);
      r.Done? && r.value.0 == name && r.value.1 == pos + |"struct " + name + rest| + 1 &&
      r.value.2 == if ContainsChar(rest, '{') && !ContainsChar(rest, '}') then 1 else 0
  {
    var head := "struct " + name;
    var line := head + rest;
    PlainWordChars(name);
    forall i | 0 <= i < |line| ensures !IsLineBreak(line[i]) {
      if i >= |head| { assert line[i] == rest[i - |head|]; }
      else if i >= 7 { assert line[i] == name[i - 7]; }
    }
    ReadLineOfLine(text, pos, line);
    StructLineTokens(name, rest);
    ContainsAfter("struct ", name, '{');
    ContainsAfter("struct ", name, '}');
    ContainsAfter(head, rest, '{');
    ContainsAfter(head, rest, '}');
  }

  /** A line whose first token is not `struct` and second is not `class` names nothing, e.g. `class Foo`. */
  lemma ClassKeywordFirstNamesNothing(text: string, pos: nat, name: string)
    requires PlainWord(name) && name != "class"
    requires var line := "class " + name;
      pos + |line| < |text| && text[pos..pos + |line|] == line && text[pos + |line|] == '\n'
    ensures ExtractTypeName(text, pos).Done? && ExtractTypeName(text, pos).value.0 == ""
  {
    var line := "class " + name;
    PlainWordChars(name);
    forall i | 0 <= i < |line| ensures !IsLineBreak(line[i]) {
      if i >= 6 { assert line[i] == name[i - 6]; }
    }
    ReadLineOfLine(text, pos, line);
    assert line == "class" + [' '] + name;
    SplitAtFirst("class", ' ', name);
    SplitNoSeparator(name, ' ');
  }

  /** A name line with no space throws: `tokens[1]` does not exist. */
  lemma SingleTokenNameLineThrows(text: string, pos: nat, word: string)
    requires pos + |word| < |text| && text[pos..pos + |word|] == word && text[pos + |word|] == '\n'
    requires PlainWord(word)
    ensures ExtractTypeName(text, pos) == Crash
  {
    PlainWordChars(word);
    ReadLineOfLine(text, pos, word);
    SplitNoSeparator(word, ' ');
  }

  // ---------------------------------------------------------------------------
  // Rendered declarations read back

  /** A declaration as a header spells it: `[annotation ]type name`. */
  datatype Decl = Decl(annotation: string, typeName: string, name: string)

  predicate WellFormedDecl(d: Decl)
  {
    MacroFor(d.annotation).Some? && PlainWord(d.typeName) && PlainWord(d.name) &&
    (StringCapacity(d.typeName).None? || StringCapacity(d.typeName).value <= MaxInt32)
  }

  function RenderDecl(d: Decl): string
  {
    (if d.annotation == "" then "" else d.annotation + " ") + d.typeName + " " + d.name
  }

  /** The field a declaration is recorded as. */
  function DeclToken(d: Decl): FieldToken
  {
    FieldToken(StripArraySuffix(d.name), d.annotation)
  }

  lemma AsRefIsPlainWord()
    ensures PlainWord(AsRefAnnotation)
  {
    forall i | 0 <= i < |AsRefAnnotation|
      ensures !IsWhiteSpace(AsRefAnnotation[i]) && AsRefAnnotation[i] !in {';', '(', ')', '{', '}'}
    {
      assert 'A' <= AsRefAnnotation[i] <= 'Z' || AsRefAnnotation[i] == '_';
    }
  }

  lemma TwoTokens(a: string, b: string)
    requires PlainWord(a) && PlainWord(b)
    ensures Split(a + " " + b, ' ') == [a, b]
  {
    PlainWordChars(a);
    PlainWordChars(b);
    SplitNoSeparator(b, ' ');
    assert a + " " + b == a + [' '] + b;
    SplitAtFirst(a, ' ', b);
  }

  lemma ThreeTokens(a: string, b: string, c: string)
    requires PlainWord(a) && PlainWord(b) && PlainWord(c)
    ensures Split(a + " " + b + " " + c, ' ') == [a, b, c]
  {
    PlainWordChars(a);
    TwoTokens(b, c);
    assert a + " " + b + " " + c == a + [' '] + (b + " " + c);
    SplitAtFirst(a, ' ', b + " " + c);
  }

  /** Parsing a rendered declaration gives back its field, annotation and type. */
  lemma DeclarationRoundTrip(d: Decl)
    requires WellFormedDecl(d)
    ensures ParseDeclaration(RenderDecl(d)) == Declared(DeclToken(d), d.typeName)
  {
    if d.annotation == "" {
      assert RenderDecl(d) == d.typeName + " " + d.name;
      TwoTokens(d.typeName, d.name);
    } else {
      AsRefIsPlainWord();
      assert RenderDecl(d) == d.annotation + " " + d.typeName + " " + d.name;
      ThreeTokens(d.annotation, d.typeName, d.name);
    }
  }

  /** An identifier without `[` is recorded as written. */
  lemma PlainIdentifierKept(name: string)
    requires !ContainsChar(name, '[')
    ensures StripArraySuffix(name) == name
  {
  }

  /** `name[digits]` is recorded as `name`. */
  lemma ArraySuffixStripped(name: string, digits: string)
    requires name != [] && !ContainsChar(name, '[')
    requires digits != [] && AllDigits(digits)
    ensures StripArraySuffix(name + "[" + digits + "]") == name
  {
    var s := name + "[" + digits + "]";
    var n := |name|;
    assert s[n + 1..n + 1 + |digits|] == digits;
    DigitRunUnique(s, n + 1, n + 1 + |digits|);
    assert ArraySuffixAt(s, n);
    forall i | 1 <= i < n ensures !ArraySuffixAt(s, i) {
      assert s[i] == name[i];
    }
    assert s[..n] == name;
  }

  predicate CleanChar(ch: char)
  {
    ch !in {'(', '{', '}', '\n', '\r'}
  }

  /** No parenthesis, brace or line terminator. */
  predicate Clean(s: string)
  {
    forall i | 0 <= i < |s| :: CleanChar(s[i])
  }

  lemma RenderDeclChars(d: Decl)
    requires WellFormedDecl(d)
    ensures Clean(RenderDecl(d)) && !ContainsChar(RenderDecl(d), ';') && RenderDecl(d) != []
    ensures !IsWhiteSpace(RenderDecl(d)[0]) && RenderDecl(d)[0] != '{' && RenderDecl(d)[0] != '}'
  {
    var r := RenderDecl(d);
    var head := if d.annotation == "" then "" else d.annotation + " ";
    if d.annotation != "" { AsRefIsPlainWord(); }
    forall i | 0 <= i < |r| ensures CleanChar(r[i]) && r[i] != ';' {
      if i < |head| {
        if i < |d.annotation| { assert r[i] == d.annotation[i]; }
      } else if i < |head| + |d.typeName| {
        assert r[i] == d.typeName[i - |head|];
      } else if i > |head| + |d.typeName| {
        assert r[i] == d.name[i - |head| - |d.typeName| - 1];
      }
    }
    if d.annotation == "" { assert r[0] == d.typeName[0]; } else { assert r[0] == d.annotation[0]; }
  }

  function Renders(ds: seq<Decl>): (r: seq<string>)
    ensures |r| == |ds|
    ensures forall i | 0 <= i < |ds| :: r[i] == RenderDecl(ds[i])
  {
    seq(|ds|, i requires 0 <= i < |ds| => RenderDecl(ds[i]))
  }

  /** One root-level line of declarations, each ended by `;`. */
  function RenderLine(ds: seq<Decl>): string
  {
    Join(Renders(ds), ';') + ";"
  }

  function Tokens(ds: seq<Decl>): (r: seq<FieldToken>)
    ensures |r| == |ds|
    ensures forall i | 0 <= i < |ds| :: r[i] == DeclToken(ds[i])
  {
    seq(|ds|, i requires 0 <= i < |ds| => DeclToken(ds[i]))
  }

  /** The size set after one declaration of type `typeName` whose capacity fits. */
  function AddSizeOf(sizes: seq<nat>, typeName: string): seq<nat>
  {
    match StringCapacity(typeName)
    case Some(n) => AddUnique(sizes, n)
    case None => sizes
  }

  /** The size set after the declarations `ds`, in order. */
  function SizesAfter(sizes: seq<nat>, ds: seq<Decl>): seq<nat>
    decreases |ds|
  {
    if ds == [] then sizes else SizesAfter(AddSizeOf(sizes, ds[0].typeName), ds[1..])
  }

  lemma {:induction false} SizesAfterAppend(sizes: seq<nat>, a: seq<Decl>, b: seq<Decl>)
    ensures SizesAfter(sizes, a + b) == SizesAfter(SizesAfter(sizes, a), b)
    decreases |a|
  {
    if a != [] {
      assert (a + b)[0] == a[0];
      assert (a + b)[1..] == a[1..] + b;
      SizesAfterAppend(AddSizeOf(sizes, a[0].typeName), a[1..], b);
    } else {
      assert a + b == b;
    }
  }

  lemma {:induction false} JoinSnoc(pieces: seq<string>, c: char, x: string)
    requires |pieces| >= 1
    ensures Join(pieces + [x], c) == Join(pieces, c) + [c] + x
    decreases |pieces|
  {
    var p := pieces + [x];
    assert p[1..] == pieces[1..] + [x];
    if |pieces| > 1 {
      JoinSnoc(pieces[1..], c, x);
    }
  }

  lemma {:induction false} JoinClean(pieces: seq<string>, c: char)
    requires forall i | 0 <= i < |pieces| :: Clean(pieces[i])
    requires CleanChar(c)
    ensures Clean(Join(pieces, c))
    decreases |pieces|
  {
    if |pieces| > 1 {
      JoinClean(pieces[1..], c);
      var j := Join(pieces, c);
      var rest := Join(pieces[1..], c);
      assert j == pieces[0] + [c] + rest;
      forall i | 0 <= i < |j| ensures CleanChar(j[i]) {
        if i < |pieces[0]| { assert j[i] == pieces[0][i]; }
        else if i > |pieces[0]| { assert j[i] == rest[i - |pieces[0]| - 1]; }
      }
    }
  }

  /** One rendered declaration is recorded with its capacity. */
  lemma DeclarationStep(decls: seq<string>, i: nat, f: Fields, d: Decl)
    requires i < |decls| && decls[i] == RenderDecl(d) && WellFormedDecl(d)
    ensures DeclarationsFrom(decls, i, f) ==
      DeclarationsFrom(decls, i + 1, Fields(f.tokens + [DeclToken(d)], AddSizeOf(f.sizes, d.typeName), f.errorCode))
  {
    RenderDeclChars(d);
    DeclarationRoundTrip(d);
    assert AddCapacity(f.sizes, d.typeName) == Done(AddSizeOf(f.sizes, d.typeName));
  }

  /** The declarations `Renders(ds)` and the empty piece after the last `;`, gathered from `i` on. */
  lemma {:induction false} DeclarationsOfRendered(ds: seq<Decl>, i: nat, f: Fields)
    requires i <= |ds|
    requires forall k | 0 <= k < |ds| :: WellFormedDecl(ds[k])
    ensures DeclarationsFrom(Renders(ds) + [""], i, f) ==
      Done(Fields(f.tokens + Tokens(ds[i..]), SizesAfter(f.sizes, ds[i..]), f.errorCode))
    decreases |ds| - i
  {
    var r := Renders(ds) + [""];
    if i == |ds| {
      assert r[i] == "";
      assert DeclarationsFrom(r, i + 1, f) == Done(f);
      NoDeclarationsLeft(ds, f);
    } else {
      var d := ds[i];
      assert r[i] == RenderDecl(d);
      DeclarationStep(r, i, f, d);
      var g := Fields(f.tokens + [DeclToken(d)], AddSizeOf(f.sizes, d.typeName), f.errorCode);
      DeclarationsOfRendered(ds, i + 1, g);
      GatheredDeclaration(ds, i, f);
    }
  }

  lemma NoDeclarationsLeft(ds: seq<Decl>, f: Fields)
    ensures Fields(f.tokens + Tokens(ds[|ds|..]), SizesAfter(f.sizes, ds[|ds|..]), f.errorCode) == f
  {
    assert ds[|ds|..] == [];
    assert f.tokens + Tokens([]) == f.tokens;
  }

  /** What declarations `i..` gather: declaration `i`, then the rest. */
  lemma GatheredDeclaration(ds: seq<Decl>, i: nat, f: Fields)
    requires i < |ds|
    ensures var g := Fields(f.tokens + [DeclToken(ds[i])], AddSizeOf(f.sizes, ds[i].typeName), f.errorCode);
      Fields(g.tokens + Tokens(ds[i + 1..]), SizesAfter(g.sizes, ds[i + 1..]), g.errorCode) ==
      Fields(f.tokens + Tokens(ds[i..]), SizesAfter(f.sizes, ds[i..]), f.errorCode)
  {
    var d := ds[i];
    assert ds[i..][0] == d && ds[i..][1..] == ds[i + 1..];
    assert Tokens(ds[i..]) == [DeclToken(d)] + Tokens(ds[i + 1..]);
    assert f.tokens + Tokens(ds[i..]) == f.tokens + [DeclToken(d)] + Tokens(ds[i + 1..]);
  }

  /** A rendered line splits on `;` into its declarations and the empty piece after the last `;`. */
  lemma RenderedLineSplits(ds: seq<Decl>)
    requires |ds| >= 1
    requires forall k | 0 <= k < |ds| :: WellFormedDecl(ds[k])
    ensures Split(RenderLine(ds), ';') == Renders(ds) + [""]
  {
    var pieces := Renders(ds) + [""];
    JoinSnoc(Renders(ds), ';', "");
    assert RenderLine(ds) == Join(pieces, ';');
    forall k | 0 <= k < |pieces| ensures !ContainsChar(pieces[k], ';') {
      if k < |ds| { RenderDeclChars(ds[k]); }
    }
    SplitJoin(pieces, ';');
  }

  /** Reading a rendered line records its declarations in order, with their string capacities. */
  lemma FieldLineRoundTrip(ds: seq<Decl>, f: Fields)
    requires |ds| >= 1
    requires forall k | 0 <= k < |ds| :: WellFormedDecl(ds[k])
    ensures FieldLine(RenderLine(ds), f) == Done(Fields(f.tokens + Tokens(ds), SizesAfter(f.sizes, ds), f.errorCode))
  {
    RenderedLineSplits(ds);
    DeclarationsOfRendered(ds, 0, f);
    assert ds[0..] == ds;
  }

  lemma RenderLineChars(ds: seq<Decl>)
    requires |ds| >= 1
    requires forall k | 0 <= k < |ds| :: WellFormedDecl(ds[k])
    ensures var line := RenderLine(ds);
      line != [] && !IsWhiteSpace(line[0]) && line[0] != '{' && line[0] != '}' &&
      !ContainsChar(line, '(') && forall i | 0 <= i < |line| :: !IsLineBreak(line[i])
  {
    var r := Renders(ds);
    forall k | 0 <= k < |r| ensures Clean(r[k]) { RenderDeclChars(ds[k]); }
    JoinClean(r, ';');
    var j := Join(r, ';');
    var line := j + ";";
    forall i | 0 <= i < |line| ensures CleanChar(line[i]) {
      if i < |j| { assert line[i] == j[i]; }
    }
    RenderDeclChars(ds[0]);
    if |r| == 1 {
      assert j == r[0];
    } else {
      assert j == r[0] + [';'] + Join(r[1..], ';');
    }
    assert line[0] == r[0][0];
  }

  /** One body line: a tab, the declarations, and a line feed. */
  function LineText(ds: seq<Decl>): string
  {
    "\t" + RenderLine(ds) + "\n"
  }

  /** A struct body: its lines one after the other. */
  function BodyText(lines: seq<seq<Decl>>): string
  {
    Concat(LineTexts(lines))
  }

  function LineTexts(lines: seq<seq<Decl>>): (r: seq<string>)
    ensures |r| == |lines|
    ensures forall i | 0 <= i < |lines| :: r[i] == LineText(lines[i])
  {
    seq(|lines|, i requires 0 <= i < |lines| => LineText(lines[i]))
  }


  function Flatten(lines: seq<seq<Decl>>): seq<Decl>
    decreases |lines|
  {
    if lines == [] then [] else lines[0] + Flatten(lines[1..])
  }

  predicate WellFormedBody(lines: seq<seq<Decl>>)
  {
    forall k | 0 <= k < |lines| :: |lines[k]| >= 1 && forall j | 0 <= j < |lines[k]| :: WellFormedDecl(lines[k][j])
  }

  /** Whitespace at depth 1 is skipped. */
  lemma WhiteSpaceSkipped(text: string, pos: nat, f: Fields)
    requires pos < |text| && IsWhiteSpace(text[pos])
    ensures ScanFields(text, pos, 1, f) == ScanFields(text, pos + 1, 1, f)
  {
  }

  /** At depth 1 a line that starts with a non-blank, non-brace character and has no `(` is read as declarations. */
  lemma RootLineRead(text: string, pos: nat, line: string, next: nat, f: Fields)
    requires pos < |text| && !IsWhiteSpace(text[pos]) && text[pos] != '{' && text[pos] != '}'
    requires ReadLineAt(text, pos) == Some((line, next)) && !ContainsChar(line, '(')
    requires FieldLine(line, f).Done?
    ensures ScanFields(text, pos, 1, f) == ScanFields(text, next, 1, FieldLine(line, f).value)
  {
  }

  /** What the reader sees at a body line: a tab, then the rendered line up to its line feed. */
  lemma LineTextFacts(text: string, pos: nat, ds: seq<Decl>)
    requires |ds| >= 1 && forall k | 0 <= k < |ds| :: WellFormedDecl(ds[k])
    requires pos + |LineText(ds)| <= |text| && text[pos..pos + |LineText(ds)|] == LineText(ds)
    ensures IsWhiteSpace(text[pos]) && pos + 1 < |text|
    ensures !IsWhiteSpace(text[pos + 1]) && text[pos + 1] != '{' && text[pos + 1] != '}'
    ensures ReadLineAt(text, pos + 1) == Some((RenderLine(ds), pos + |LineText(ds)|))
    ensures !ContainsChar(RenderLine(ds), '(')
  {
    var line := RenderLine(ds);
    var t := LineText(ds);
    assert forall i | 0 <= i < |t| :: text[pos + i] == t[i];
    assert t[0] == '\t' && t[1 + |line|] == '\n';
    assert forall i | 0 <= i < |line| :: t[1 + i] == line[i];
    assert text[pos + 1..pos + 1 + |line|] == line;
    RenderLineChars(ds);
    ReadLineOfLine(text, pos + 1, line);
    assert text[pos + 1] == line[0];
  }

  /** The field loop at depth 1 reads one body line as its declarations. */
  lemma FieldLineScan(text: string, pos: nat, ds: seq<Decl>, f: Fields)
    requires |ds| >= 1 && forall k | 0 <= k < |ds| :: WellFormedDecl(ds[k])
    requires pos + |LineText(ds)| <= |text| && text[pos..pos + |LineText(ds)|] == LineText(ds)
    ensures ScanFields(text, pos, 1, f) ==
      ScanFields(text, pos + |LineText(ds)|, 1, Fields(f.tokens + Tokens(ds), SizesAfter(f.sizes, ds), f.errorCode))
  {
    LineTextFacts(text, pos, ds);
    WhiteSpaceSkipped(text, pos, f);
    FieldLineRoundTrip(ds, f);
    RootLineRead(text, pos + 1, RenderLine(ds), pos + |LineText(ds)|, f);
  }

  /** The closing `}` at depth 1 ends the loop, unless another brace follows. */
  lemma ClosingBraceStops(text: string, pos: nat, f: Fields)
    requires pos < |text| && text[pos] == '}'
    requires pos + 1 == |text| || (text[pos + 1] != '{' && text[pos + 1] != '}')
    ensures ScanFields(text, pos, 1, f) == Done((pos + 1, f))
  {
    assert ScanFields(text, pos, 1, f) == ScanFields(text, pos + 1, 0, f);
  }

  /** What the body's lines gather, first line then the rest. */
  function BodyFields(f: Fields, lines: seq<seq<Decl>>): Fields
  {
    Fields(f.tokens + Tokens(Flatten(lines)), SizesAfter(f.sizes, Flatten(lines)), f.errorCode)
  }

  lemma BodyFieldsStep(f: Fields, lines: seq<seq<Decl>>)
    requires lines != []
    ensures BodyFields(Fields(f.tokens + Tokens(lines[0]), SizesAfter(f.sizes, lines[0]), f.errorCode), lines[1..]) ==
      BodyFields(f, lines)
  {
    assert Flatten(lines) == lines[0] + Flatten(lines[1..]);
    assert Tokens(Flatten(lines)) == Tokens(lines[0]) + Tokens(Flatten(lines[1..]));
    SizesAfterAppend(f.sizes, lines[0], Flatten(lines[1..]));
  }

  lemma BodyFieldsEmpty(f: Fields)
    ensures BodyFields(f, []) == f
  {
    assert f.tokens + Tokens([]) == f.tokens;
  }

  /** What the field loop has gathered before each line of a body, and after the last. */
  function Gathered(f: Fields, lines: seq<seq<Decl>>): (r: seq<Fields>)
    ensures |r| == |lines| + 1 && r[0] == f
    ensures forall i | 0 <= i < |lines| ::
      r[i + 1] == Fields(r[i].tokens + Tokens(lines[i]), SizesAfter(r[i].sizes, lines[i]), r[i].errorCode)
    decreases |lines|
  {
    if lines == [] then [f]
    else [f] + Gathered(Fields(f.tokens + Tokens(lines[0]), SizesAfter(f.sizes, lines[0]), f.errorCode), lines[1..])
  }

  lemma {:induction false} GatheredEnd(f: Fields, lines: seq<seq<Decl>>)
    ensures Gathered(f, lines)[|lines|] == BodyFields(f, lines)
    decreases |lines|
  {
    if lines == [] {
      BodyFieldsEmpty(f);
    } else {
      GatheredEnd(Fields(f.tokens + Tokens(lines[0]), SizesAfter(f.sizes, lines[0]), f.errorCode), lines[1..]);
      BodyFieldsStep(f, lines);
    }
  }

  /** The field loop, entered at depth 1 at `ps[i]` with `fs[i]` gathered, carries on at `ps[i + 1]` with `fs[i + 1]`. */
  predicate ChainStep(text: string, ps: seq<nat>, fs: seq<Fields>, i: nat)
  {
    i + 1 < |ps| && i + 1 < |fs| && ps[i] <= |text| && ps[i + 1] <= |text| &&
    ScanFields(text, ps[i], 1, fs[i]) == ScanFields(text, ps[i + 1], 1, fs[i + 1])
  }

  /** Line `i` of a body found in the text at `pos`: where it sits and what reading it adds. */
  lemma LineFacts(text: string, pos: nat, lines: seq<seq<Decl>>, f: Fields, i: nat)
    requires i < |lines| && WellFormedBody(lines)
    requires pos + |BodyText(lines)| <= |text| && text[pos..pos + |BodyText(lines)|] == BodyText(lines)
    ensures var ps, fs, ds := Offsets(pos, LineTexts(lines)), Gathered(f, lines), lines[i];
      i + 1 < |ps| && i + 1 < |fs| &&
      ps[i] + |LineText(ds)| <= |text| && text[ps[i]..ps[i] + |LineText(ds)|] == LineText(ds) &&
      |ds| >= 1 && (forall j | 0 <= j < |ds| :: WellFormedDecl(ds[j])) &&
      ps[i + 1] == ps[i] + |LineText(ds)| &&
      fs[i + 1] == Fields(fs[i].tokens + Tokens(ds), SizesAfter(fs[i].sizes, ds), fs[i].errorCode)
  {
    PieceInText(text, pos, LineTexts(lines), i);
    assert LineTexts(lines)[i] == LineText(lines[i]);
  }

  /** The field loop reads line `i` of a body found in the text. */
  lemma LineStep(text: string, pos: nat, lines: seq<seq<Decl>>, f: Fields, i: nat)
    requires i < |lines| && WellFormedBody(lines)
    requires pos + |BodyText(lines)| <= |text| && text[pos..pos + |BodyText(lines)|] == BodyText(lines)
    ensures ChainStep(text, Offsets(pos, LineTexts(lines)), Gathered(f, lines), i)
  {
    LineFacts(text, pos, lines, f, i);
    FieldLineScan(text, Offsets(pos, LineTexts(lines))[i], lines[i], Gathered(f, lines)[i]);
  }

  /** Steps of the field loop at depth 1, one after another. */
  lemma {:induction false} ScanChain(text: string, ps: seq<nat>, fs: seq<Fields>)
    requires |ps| == |fs| >= 1 && ps[0] <= |text|
    requires forall i | 0 <= i < |ps| - 1 :: ChainStep(text, ps, fs, i)
    ensures ps[|ps| - 1] <= |text|
    ensures ScanFields(text, ps[0], 1, fs[0]) == ScanFields(text, ps[|ps| - 1], 1, fs[|fs| - 1])
    decreases |ps|
  {
    if |ps| > 1 {
      forall i | 0 <= i < |ps| - 2 ensures ChainStep(text, ps[1..], fs[1..], i) {
        assert ChainStep(text, ps, fs, i + 1);
      }
      assert ChainStep(text, ps, fs, 0);
      ScanChain(text, ps[1..], fs[1..]);
    }
  }

  /** The field loop reads each line of a body found in the text. */
  lemma BodySteps(text: string, pos: nat, lines: seq<seq<Decl>>, f: Fields)
    requires WellFormedBody(lines)
    requires pos + |BodyText(lines)| <= |text| && text[pos..pos + |BodyText(lines)|] == BodyText(lines)
    ensures var ps := Offsets(pos, LineTexts(lines));
      forall i | 0 <= i < |ps| - 1 :: ChainStep(text, ps, Gathered(f, lines), i)
  {
    forall i | 0 <= i < |Offsets(pos, LineTexts(lines))| - 1 ensures ChainStep(text, Offsets(pos, LineTexts(lines)), Gathered(f, lines), i) {
      LineStep(text, pos, lines, f, i);
    }
  }

  /** Where the lines of a body found at `pos` start and end, and what they gather. */
  lemma BodyShape(pos: nat, lines: seq<seq<Decl>>, f: Fields)
    ensures var ps, fs := Offsets(pos, LineTexts(lines)), Gathered(f, lines);
      |ps| == |fs| == |lines| + 1 && ps[0] == pos && fs[0] == f &&
      ps[|ps| - 1] == pos + |BodyText(lines)| && fs[|fs| - 1] == BodyFields(f, lines)
  {
    OffsetsEnd(pos, LineTexts(lines));
    GatheredEnd(f, lines);
  }

  /** The field loop at depth 1 carries the body's fields from its start to its end. */
  lemma BodyChain(text: string, pos: nat, lines: seq<seq<Decl>>, f: Fields)
    requires WellFormedBody(lines)
    requires pos + |BodyText(lines)| <= |text| && text[pos..pos + |BodyText(lines)|] == BodyText(lines)
    ensures ScanFields(text, pos, 1, f) == ScanFields(text, pos + |BodyText(lines)|, 1, BodyFields(f, lines))
  {
    BodyShape(pos, lines, f);
    BodySteps(text, pos, lines, f);
    ScanChain(text, Offsets(pos, LineTexts(lines)), Gathered(f, lines));
  }

  /**
   * The field loop entered at depth 1 (the name line opened the body) reads
   * every declaration of the body in order and stops right after the `}`
   * that closes it, provided nothing after that `}` is another brace.
   */
  lemma BodyScan(text: string, pos: nat, lines: seq<seq<Decl>>, f: Fields)
    requires WellFormedBody(lines)
    requires var end := pos + |BodyText(lines)|;
      end < |text| && text[pos..end] == BodyText(lines) && text[end] == '}' &&
      (end + 1 == |text| || (text[end + 1] != '{' && text[end + 1] != '}'))
    ensures ScanFields(text, pos, 1, f) == Done((pos + |BodyText(lines)| + 1, BodyFields(f, lines)))
  {
    BodyChain(text, pos, lines, f);
    ClosingBraceStops(text, pos + |BodyText(lines)|, BodyFields(f, lines));
  }

  // ---------------------------------------------------------------------------
  // A whole struct

  function StructHead(name: string): string
  {
    "struct " + name + " {"
  }

  /** A struct as written after its marker line: the name line opening the body, the body lines, the closing `}`. */
  function StructText(name: string, lines: seq<seq<Decl>>): string
  {
    StructHead(name) + "\n" + BodyText(lines) + "}"
  }

  /** `text` holds `s` from `pos` on, one character at a time. */
  predicate HoldsAt(text: string, pos: nat, s: string)
    decreases |s|
  {
    if s == [] then pos <= |text| else pos < |text| && text[pos] == s[0] && HoldsAt(text, pos + 1, s[1..])
  }

  lemma {:induction false} HoldsAtSlice(text: string, pos: nat, s: string)
    requires HoldsAt(text, pos, s)
    ensures pos + |s| <= |text| && text[pos..pos + |s|] == s
    decreases |s|
  {
    if s != [] {
      HoldsAtSlice(text, pos + 1, s[1..]);
      assert text[pos..pos + |s|] == [text[pos]] + text[pos + 1..pos + |s|];
    }
  }

  lemma {:induction false} HoldsAtConcat(text: string, pos: nat, a: string, b: string)
    requires HoldsAt(text, pos, a + b)
    ensures HoldsAt(text, pos, a) && HoldsAt(text, pos + |a|, b)
    decreases |a|
  {
    if a == [] {
      assert a + b == b;
      HoldsAtSlice(text, pos, b);
    } else {
      assert (a + b)[0] == a[0] && (a + b)[1..] == a[1..] + b;
      HoldsAtConcat(text, pos + 1, a[1..], b);
    }
  }

  /** The parts of a struct held by the text: its name line, its body, and the `}` after them. */
  lemma StructParts(text: string, pos: nat, name: string, lines: seq<seq<Decl>>)
    requires HoldsAt(text, pos, StructText(name, lines))
    ensures var head, body := StructHead(name) + "\n", BodyText(lines);
      var end := pos + |head| + |body|;
      |StructText(name, lines)| == |head| + |body| + 1 &&
      HoldsAt(text, pos, head) && HoldsAt(text, pos + |head|, body) && end < |text| && text[end] == '}'
  {
    var head, body := StructHead(name) + "\n", BodyText(lines);
    HoldsAtConcat(text, pos, head + body, "}");
    HoldsAtConcat(text, pos, head, body);
    HoldsAtSlice(text, pos + |head| + |body|, "}");
    assert text[pos + |head| + |body|] == text[pos + |head| + |body|..pos + |head| + |body| + 1][0];
  }

  /** A `struct Name {` line names the struct and opens its body. */
  lemma StructNameLine(text: string, pos: nat, name: string)
    requires PlainWord(name)
    requires var h := StructHead(name) + "\n"; pos + |h| <= |text| && text[pos..pos + |h|] == h
    ensures ExtractTypeName(text, pos) == Done((name, (pos + |StructHead(name) + "\n"|) as nat, 1))
  {
    var line := StructHead(name);
    SliceOfConcat(text, pos, line, "\n");
    assert text[pos + |line|] == text[pos + |line|..pos + |line| + 1][0];
    forall i | 0 <= i < |" {"| ensures !IsLineBreak(" {"[i]) { }
    StructLineNamed(text, pos, name, " {");
    OpenBraceRest();
  }

  lemma OpenBraceRest()
    ensures ContainsChar(" {", '{') && !ContainsChar(" {", '}')
  {
    assert " {"[1] == '{';
  }

  /** `ProcessCurrentStruct` once the name is known and the field loop has run. */
  lemma StructAtOf(text: string, pos: nat, sizes: seq<nat>, errorCode: int, name: string, next: nat, end: nat, g: Fields)
    requires pos <= |text| && next <= |text| && name != ""
    requires ExtractTypeName(text, pos) == Done((name, next, 1))
    requires ScanFields(text, next, 1, Fields([], sizes, errorCode)) == Done((end, g))
    ensures StructAt(text, pos, sizes, errorCode) == Done((StructBlock(name, g.tokens), end, g))
  {
  }

  lemma FreshBodyFields(sizes: seq<nat>, errorCode: int, lines: seq<seq<Decl>>)
    ensures BodyFields(Fields([], sizes, errorCode), lines) ==
      Fields(Tokens(Flatten(lines)), SizesAfter(sizes, Flatten(lines)), errorCode)
  {
    assert [] + Tokens(Flatten(lines)) == Tokens(Flatten(lines));
  }

  /** The name line of a struct held by the text is read back as its name. */
  lemma StructNamed(text: string, pos: nat, name: string, lines: seq<seq<Decl>>)
    requires PlainWord(name) && HoldsAt(text, pos, StructText(name, lines))
    ensures var start := pos + |StructHead(name) + "\n"|;
      start <= |text| && name != "" && ExtractTypeName(text, pos) == Done((name, start as nat, 1))
  {
    StructParts(text, pos, name, lines);
    HoldsAtSlice(text, pos, StructHead(name) + "\n");
    StructNameLine(text, pos, name);
  }

  /** The body of a struct held by the text is scanned up to and past its closing brace. */
  lemma StructBodyScanned(text: string, pos: nat, name: string, lines: seq<seq<Decl>>, g0: Fields)
    requires WellFormedBody(lines)
    requires var t := StructText(name, lines);
      HoldsAt(text, pos, t) && (pos + |t| == |text| || (pos + |t| < |text| && text[pos + |t|] != '{' && text[pos + |t|] != '}'))
    ensures var start := pos + |StructHead(name) + "\n"|;
      ScanFields(text, start, 1, g0) == Done((pos + |StructText(name, lines)|, BodyFields(g0, lines)))
  {
    var start := pos + |StructHead(name) + "\n"|;
    StructParts(text, pos, name, lines);
    HoldsAtSlice(text, start, BodyText(lines));
    BodyScan(text, start, lines, g0);
  }

  /** A struct whose name line and body read back as written is read back whole. */
  lemma StructAtFromParts(text: string, pos: nat, name: string, lines: seq<seq<Decl>>, sizes: seq<nat>, errorCode: int)
    requires var start := pos + |StructHead(name) + "\n"|;
      start <= |text| && name != "" && ExtractTypeName(text, pos) == Done((name, start as nat, 1))
    requires var start := pos + |StructHead(name) + "\n"|;
      ScanFields(text, start, 1, Fields([], sizes, errorCode)) == Done((pos + |StructText(name, lines)|, BodyFields(Fields([], sizes, errorCode), lines)))
    ensures var ds := Flatten(lines);
      StructAt(text, pos, sizes, errorCode) ==
        Done((StructBlock(name, Tokens(ds)), pos + |StructText(name, lines)|, Fields(Tokens(ds), SizesAfter(sizes, ds), errorCode)))
  {
    var start: nat := pos + |StructHead(name) + "\n"|;
    StructAtOf(text, pos, sizes, errorCode, name, start, pos + |StructText(name, lines)|, BodyFields(Fields([], sizes, errorCode), lines));
    FreshBodyFields(sizes, errorCode, lines);
  }

  /**
   * Round trip of one struct: reading a struct written out from a name and
   * well-formed body lines gives the `BEGIN`/field/`END` block of exactly
   * those declarations, in order, and the sizes of their string capacities.
   */
  lemma StructRoundTrip(text: string, pos: nat, name: string, lines: seq<seq<Decl>>, sizes: seq<nat>, errorCode: int)
    requires PlainWord(name) && WellFormedBody(lines)
    requires var t := StructText(name, lines);
      HoldsAt(text, pos, t) && (pos + |t| == |text| || (pos + |t| < |text| && text[pos + |t|] != '{' && text[pos + |t|] != '}'))
    ensures var ds := Flatten(lines);
      StructAt(text, pos, sizes, errorCode) ==
        Done((StructBlock(name, Tokens(ds)), pos + |StructText(name, lines)|, Fields(Tokens(ds), SizesAfter(sizes, ds), errorCode)))
  {
    StructNamed(text, pos, name, lines);
    StructBodyScanned(text, pos, name, lines, Fields([], sizes, errorCode));
    StructAtFromParts(text, pos, name, lines, sizes, errorCode);
  }

}
