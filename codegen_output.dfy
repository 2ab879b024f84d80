/**
 * The text heart-codegen writes to gen/reflection.heartgen.cpp, as a
 * function of the scanned state, and the decision whether to write it.
 *
 * A block is the lines an `IndentLevel` scope hands to its parent: the
 * opening line, the body one level deeper, the closing line.
 */
module CodegenOutput {
  import opened Wrappers
  import opened Text
  import opened CodegenScan
  import opened CodeWriting

  const Banner := "/*\tWRITTEN BY HEART-CODEGEN\t*/"
  const FunctionProto := "void ReflectSerializedData()"

  const BaseTypes := ["int8_t", "uint8_t", "int16_t", "uint16_t", "int32_t", "uint32_t",
                      "int64_t", "uint64_t", "bool", "float", "double"]

  function Block(first: string, body: seq<string>, last: string): seq<string>
  {
    [first] + Indented(1, body) + [last]
  }

  /** Each block at depth `d`, each followed by an empty line. */
  function Blocks(d: int, blocks: seq<seq<string>>): seq<string>
  {
    if blocks == [] then [] else Blocks(d, blocks[..|blocks| - 1]) + Indented(d, blocks[|blocks| - 1]) + [""]
  }

  /** Writing one more block after `prefix` and the blocks so far gives the blocks with it appended. */
  lemma BlocksStep(prefix: seq<string>, d: int, blocks: seq<seq<string>>, b: seq<string>)
    ensures prefix + Blocks(d, blocks) + Indented(d, b) + [""] == prefix + Blocks(d, blocks + [b])
  {
    assert (blocks + [b])[..|blocks|] == blocks;
  }

  // --- WriteHeader ---------------------------------------------------------

  function IncludeLine(path: string): string
  {
    "#include \"" + path + "\""
  }

  function IncludeLines(includes: seq<string>): (r: seq<string>)
    ensures |r| == |includes|
    ensures forall i | 0 <= i < |includes| :: r[i] == IncludeLine(includes[i])
  {
    if includes == [] then [] else [IncludeLine(includes[0])] + IncludeLines(includes[1..])
  }

  const FixedIncludes := ["#include \"gen/gen.h\"", "#include <heart/deserialization.h>"]

  /** The include section of `WriteHeader` on a writer at depth `d`; empty lines carry no indentation. */
  function IncludeSection(d: int, includes: seq<string>): seq<string>
  {
    Indented(d, FixedIncludes) + [""] +
    Indented(d, IncludeLines(includes)) + [""]
  }

  /** One accessor template of `WriteHeader`: prototype, a one-statement body, an empty line. */
  function Accessor(d: int, proto: string, statement: string): seq<string>
  {
    Indented(d, ["template <typename T>", proto] + Block("{", [statement], "}")) + [""]
  }

  const SetProto := "void ReflectionSet(T& prop, T value)"
  const GetProto := "T ReflectionGet(T& prop)"

  /** `WriteHeader` on a writer at depth `d`. */
  function Header(d: int, includes: seq<string>): seq<string>
  {
    IncludeSection(d, includes) + Accessor(d, SetProto, "prop = value;") + Accessor(d, GetProto, "return prop;")
  }

  // --- Reflection macros -----------------------------------------------------

  function TypeOpen(t: string): string { "BEGIN_SERIALIZE_TYPE(" + t + ")" }

  function AdditiveOpen(t: string): string { "BEGIN_SERIALIZE_TYPE_ADDITIVE(" + t + ")" }

  function TypeClose(t: string): string { "END_SERIALIZE_TYPE(" + t + ")" }

  function SelfAccess(t: string): string
  {
    "SERIALIZE_SELF_ACCESS(" + t + ", &ReflectionSet<" + t + ">, &ReflectionGet<" + t + ">)"
  }

  function FunctionAlias(t: string, member: string): string
  {
    "SERIALIZE_FUNCTION_ALIAS(" + t + ", " + member + ")"
  }

  // --- ReflectBaseTypes ------------------------------------------------------

  /** The extra conversions `uint32_t` and `int32_t` declare. */
  function Conversions(t: string): seq<string>
  {
    if t == "uint32_t" then
      ["SERIALIZE_CONVERSION(uint32_t, int32_t)", "SERIALIZE_CONVERSION(uint32_t, int16_t)", "SERIALIZE_CONVERSION(uint32_t, int8_t)"]
    else if t == "int32_t" then
      ["SERIALIZE_CONVERSION(int32_t, uint32_t)", "SERIALIZE_CONVERSION(int32_t, uint16_t)", "SERIALIZE_CONVERSION(int32_t, uint8_t)"]
    else []
  }

  function BaseTypeBlock(t: string): seq<string>
  {
    Block(TypeOpen(t), [SelfAccess(t)] + Conversions(t), TypeClose(t))
  }

  function BaseTypeBlocks(types: seq<string>): seq<seq<string>>
  {
    seq(|types|, i requires 0 <= i < |types| => BaseTypeBlock(types[i]))
  }

  lemma BaseTypeBlocksSnoc(types: seq<string>, i: nat)
    requires i < |types|
    ensures BaseTypeBlocks(types[..i + 1]) == BaseTypeBlocks(types[..i]) + [BaseTypeBlock(types[i])]
  {
  }

  // --- ReflectSerializedStrings ----------------------------------------------

  function StringType(n: nat): string
  {
    "SerializedString<" + NatToString(n) + ">"
  }

  function ConversionLine(n: nat): string
  {
    "SERIALIZE_CONVERSION(const char*, &" + StringType(n) + "::CreateFromCString)"
  }

  function ConversionLines(sizes: seq<nat>): (r: seq<string>)
    ensures |r| == |sizes|
    ensures forall i | 0 <= i < |sizes| :: r[i] == ConversionLine(sizes[i])
  {
    if sizes == [] then [] else [ConversionLine(sizes[0])] + ConversionLines(sizes[1..])
  }

  const ConstChar := "const char*"

  function ConstCharBlock(sizes: seq<nat>): seq<string>
  {
    Block(AdditiveOpen(ConstChar), ConversionLines(sizes), TypeClose(ConstChar))
  }

  function SizeOpen(n: nat): string
  {
    AdditiveOpen(StringType(n))
  }

  function SizeBlock(n: nat): seq<string>
  {
    Block(SizeOpen(n), [SelfAccess(StringType(n))], TypeClose(StringType(n)))
  }

  function SizeBlocks(sizes: seq<nat>): seq<seq<string>>
  {
    seq(|sizes|, i requires 0 <= i < |sizes| => SizeBlock(sizes[i]))
  }

  lemma SizeBlocksSnoc(sizes: seq<nat>, i: nat)
    requires i < |sizes|
    ensures SizeBlocks(sizes[..i + 1]) == SizeBlocks(sizes[..i]) + [SizeBlock(sizes[i])]
  {
  }

  /** The string section at depth `d` for the size set as it is when emitted. */
  function StringSection(d: int, sizes: seq<nat>): seq<string>
  {
    Indented(d, ConstCharBlock(sizes)) + [""] + Blocks(d, SizeBlocks(sizes))
  }

  // --- ReflectSerializedVectors ----------------------------------------------

  function VectorType(element: string): string
  {
    "hrt::vector<" + element + ">"
  }

  function VectorBlock(element: string): seq<string>
  {
    var t := VectorType(element);
    Block(TypeOpen(t), [FunctionAlias(t, "emplace_back<>"), FunctionAlias(t, "reserve")], TypeClose(t))
  }

  function VectorBlocks(types: seq<string>): seq<seq<string>>
  {
    seq(|types|, i requires 0 <= i < |types| => VectorBlock(types[i]))
  }

  lemma VectorBlocksSnoc(types: seq<string>, i: nat)
    requires i < |types|
    ensures VectorBlocks(types[..i + 1]) == VectorBlocks(types[..i]) + [VectorBlock(types[i])]
  {
  }

  // --- ReflectSerializedStructs ----------------------------------------------

  /** The macro a recorded field is reflected with. */
  function FieldMacro(f: FieldToken): string
  {
    if f.asFunc then "SERIALIZE_FUNCTION" else if f.asRef then "SERIALIZE_FIELD_ALIAS" else "SERIALIZE_FIELD"
  }

  function FieldLine(t: string, f: FieldToken): string
  {
    FieldMacro(f) + "(" + t + ", " + f.name + ")"
  }

  function FieldLines(t: string, fields: seq<FieldToken>): (r: seq<string>)
    ensures |r| == |fields| && forall i | 0 <= i < |fields| :: r[i] == FieldLine(t, fields[i])
  {
    if fields == [] then [] else [FieldLine(t, fields[0])] + FieldLines(t, fields[1..])
  }

  function StructBlock(t: string, fields: seq<FieldToken>): seq<string>
  {
    Block(TypeOpen(t), FieldLines(t, fields), TypeClose(t))
  }

  /** The fields recorded for `t`, none when it has no entry. */
  function FieldsOf(fields: map<string, seq<FieldToken>>, t: string): seq<FieldToken>
  {
    if t in fields then fields[t] else []
  }

  function StructBlocks(order: seq<string>, fields: map<string, seq<FieldToken>>): seq<seq<string>>
  {
    seq(|order|, i requires 0 <= i < |order| => StructBlock(order[i], FieldsOf(fields, order[i])))
  }

  lemma StructBlocksSnoc(order: seq<string>, fields: map<string, seq<FieldToken>>, i: nat)
    requires i < |order|
    ensures StructBlocks(order[..i + 1], fields) == StructBlocks(order[..i], fields) + [StructBlock(order[i], FieldsOf(fields, order[i]))]
  {
  }

  // --- Process ---------------------------------------------------------------

  /** The size set as emitted: the scanned sizes with `SerializedDataPathSize` added. */
  function EmittedSizes(g: GenState): seq<nat>
  {
    AddUnique(g.sizes, SerializedDataPathSize)
  }

  /** The lines of `ReflectSerializedData`'s body, as its function block holds them. */
  function Body(g: GenState): seq<string>
  {
    Blocks(1, BaseTypeBlocks(BaseTypes)) +
    StringSection(1, EmittedSizes(g)) +
    Blocks(1, VectorBlocks(g.vectorTypes)) +
    Blocks(1, StructBlocks(g.typeOrder, g.typeFields))
  }

  /** Every line of the generated file, in order. */
  function GeneratedFile(g: GenState): seq<string>
  {
    [Banner, ""] + Header(0, g.includes) + [FunctionProto, "{"] + Body(g) + ["}", "", Banner]
  }

  // --- The commit decision ---------------------------------------------------

  function AsciiByte(c: char): bv8
  {
    if c as int < 128 then c as int as bv8 else '?' as int as bv8
  }

  /** `Encoding.ASCII.GetBytes`: a character outside ASCII becomes `?`. */
  function AsciiBytes(s: string): (r: seq<bv8>)
    ensures |r| == |s|
    ensures forall i | 0 <= i < |s| :: r[i] == AsciiByte(s[i])
  {
    if s == [] then [] else [AsciiByte(s[0])] + AsciiBytes(s[1..])
  }

  /** The stream's text: each line followed by the platform's line terminator. */
  function StreamText(lines: seq<string>, newline: string): string
  {
    if lines == [] then "" else lines[0] + newline + StreamText(lines[1..], newline)
  }

  function UpperAscii(c: char): char
  {
    if 'a' <= c <= 'z' then (c as int - 32) as char else c
  }

  /** `string.Equals(a, b, StringComparison.OrdinalIgnoreCase)` over ASCII text. */
  predicate EqualsIgnoreCase(a: string, b: string)
  {
    |a| == |b| && forall i | 0 <= i < |a| :: UpperAscii(a[i]) == UpperAscii(b[i])
  }

  /**
   * Whether `Process` writes the file: always when the existing file could
   * not be read, otherwise unless the digests (SHA-1 then base64) of the
   * existing text's ASCII bytes and of the new contents are equal ignoring case.
   */
  function ShouldCommit(existing: Option<string>, contents: seq<bv8>, digest: seq<bv8> -> string): bool
  {
    match existing
    case None => true
    case Some(text) => !EqualsIgnoreCase(digest(AsciiBytes(text)), digest(contents))
  }

  // --- Properties --------------------------------------------------------------

  /** A read failure always leads to a write. */
  lemma UnreadableAlwaysCommits(contents: seq<bv8>, digest: seq<bv8> -> string)
    ensures ShouldCommit(None, contents, digest)
  {
  }

  /** Regenerating unchanged output never rewrites the file. */
  lemma UnchangedOutputSkipsWrite(text: string, contents: seq<bv8>, digest: seq<bv8> -> string)
    requires AsciiBytes(text) == contents
    ensures !ShouldCommit(Some(text), contents, digest)
  {
  }

  /** A skipped write means the two digests agree up to letter case. */
  lemma SkipMeansSameDigest(existing: Option<string>, contents: seq<bv8>, digest: seq<bv8> -> string)
    requires !ShouldCommit(existing, contents, digest)
    ensures existing.Some? && EqualsIgnoreCase(digest(AsciiBytes(existing.value)), digest(contents))
  {
  }

  lemma {:induction false} InBlocks(d: int, blocks: seq<seq<string>>, i: nat, line: string)
    requires i < |blocks| && line in blocks[i]
    ensures Tabs(d) + line in Blocks(d, blocks)
  {
    var n := |blocks| - 1;
    var front := Blocks(d, blocks[..n]);
    if i == n {
      var k :| 0 <= k < |blocks[n]| && blocks[n][k] == line;
      assert Indented(d, blocks[n])[k] == Tabs(d) + line;
      InRight(front, Indented(d, blocks[n]), Tabs(d) + line);
      InLeft(front + Indented(d, blocks[n]), [""], Tabs(d) + line);
    } else {
      InBlocks(d, blocks[..n], i, line);
      InLeft(front, Indented(d, blocks[n]), Tabs(d) + line);
      InLeft(front + Indented(d, blocks[n]), [""], Tabs(d) + line);
    }
  }

  lemma InBlock(first: string, body: seq<string>, last: string, k: nat)
    requires k < |body|
    ensures Tabs(1) + body[k] in Block(first, body, last)
  {
    assert Block(first, body, last)[1 + k] == Indented(1, body)[k];
  }

  lemma InLeft<T>(a: seq<T>, b: seq<T>, x: T)
    requires x in a
    ensures x in a + b
  {
    var j :| 0 <= j < |a| && a[j] == x;
    assert (a + b)[j] == x;
  }

  lemma InRight<T>(a: seq<T>, b: seq<T>, x: T)
    requires x in b
    ensures x in a + b
  {
    var j :| 0 <= j < |b| && b[j] == x;
    assert (a + b)[|a| + j] == x;
  }

  lemma BodyContains(g: GenState, line: string)
    requires line in Body(g)
    ensures line in GeneratedFile(g)
  {
    var pre := [Banner, ""] + Header(0, g.includes) + [FunctionProto, "{"];
    InRight(pre, Body(g), line);
    InLeft(pre + Body(g), ["}", "", Banner], line);
  }

  lemma StringsInBody(g: GenState, line: string)
    requires line in StringSection(1, EmittedSizes(g))
    ensures line in Body(g)
  {
    var base := Blocks(1, BaseTypeBlocks(BaseTypes));
    var section := StringSection(1, EmittedSizes(g));
    var rest := Blocks(1, VectorBlocks(g.vectorTypes));
    var structs := Blocks(1, StructBlocks(g.typeOrder, g.typeFields));
    InRight(base, section, line);
    InLeft(base + section, rest, line);
    InLeft(base + section + rest, structs, line);
  }

  lemma StructsInBody(g: GenState, line: string)
    requires line in Blocks(1, StructBlocks(g.typeOrder, g.typeFields))
    ensures line in Body(g)
  {
    var front := Blocks(1, BaseTypeBlocks(BaseTypes)) + StringSection(1, EmittedSizes(g)) + Blocks(1, VectorBlocks(g.vectorTypes));
    InRight(front, Blocks(1, StructBlocks(g.typeOrder, g.typeFields)), line);
  }

  /**
   * Every field recorded for a scanned type is reflected in the generated
   * file, two tabs deep inside its type's block, with the macro its flags
   * select.
   */
  lemma EveryFieldEmitted(g: GenState, i: nat, k: nat)
    requires i < |g.typeOrder| && g.typeOrder[i] in g.typeFields
    requires k < |g.typeFields[g.typeOrder[i]]|
    ensures var t := g.typeOrder[i];
      Tabs(1) + (Tabs(1) + FieldLine(t, g.typeFields[t][k])) in GeneratedFile(g)
  {
    var t := g.typeOrder[i];
    var fields := g.typeFields[t];
    var line := Tabs(1) + FieldLine(t, fields[k]);
    var blocks := StructBlocks(g.typeOrder, g.typeFields);
    assert blocks[i] == StructBlock(t, fields);
    InBlock(TypeOpen(t), FieldLines(t, fields), TypeClose(t), k);
    InBlocks(1, blocks, i, line);
    StructsInBody(g, Tabs(1) + line);
    BodyContains(g, Tabs(1) + line);
  }

  lemma SizeBlockOpens(n: nat)
    ensures SizeOpen(n) in SizeBlock(n)
  {
    assert SizeBlock(n)[0] == SizeOpen(n);
  }

  lemma SectionOpens(sizes: seq<nat>, i: nat)
    requires i < |sizes|
    ensures Tabs(1) + SizeOpen(sizes[i]) in StringSection(1, sizes)
  {
    var blocks := SizeBlocks(sizes);
    SizeBlockOpens(sizes[i]);
    InBlocks(1, blocks, i, SizeOpen(sizes[i]));
    InRight(Indented(1, ConstCharBlock(sizes)) + [""], Blocks(1, blocks), Tabs(1) + SizeOpen(sizes[i]));
  }

  /** Every size of the emitted size set opens its own string-type block, one tab deep. */
  lemma EverySizeEmitted(g: GenState, n: nat)
    requires n in EmittedSizes(g)
    ensures Tabs(1) + SizeOpen(n) in GeneratedFile(g)
  {
    var sizes := EmittedSizes(g);
    var i :| 0 <= i < |sizes| && sizes[i] == n;
    SectionOpens(sizes, i);
    StringsInBody(g, Tabs(1) + SizeOpen(n));
    BodyContains(g, Tabs(1) + SizeOpen(n));
  }

  lemma PathSizeAlwaysEmitted(g: GenState)
    ensures Tabs(1) + SizeOpen(SerializedDataPathSize) in GeneratedFile(g)
  {
    EverySizeEmitted(g, SerializedDataPathSize);
  }

  lemma PathSizeSpelling()
    ensures StringType(SerializedDataPathSize) == "SerializedString<64>"
  {
    assert NatToString(64) == "64";
  }

  /** Each size of the set gets one conversion from `const char*`, at its position in the set's order. */
  lemma ConversionPerSize(sizes: seq<nat>, i: nat)
    requires i < |sizes|
    ensures Indented(1, ConstCharBlock(sizes))[1 + i] == Tabs(1) + (Tabs(1) + ConversionLine(sizes[i]))
  {
    var b := ConstCharBlock(sizes);
    var conv := ConversionLines(sizes);
    assert b[1 + i] == Indented(1, conv)[i];
  }
}
