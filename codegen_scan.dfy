/**
 * The annotation scanner of heart-codegen (SerializationGen.VisitChildren)
 * as a pure transition function over the generator's explicit state, and
 * the two textual type classifiers it applies to accepted fields.
 *
 * A libclang cursor is a value here: its kind, spelling, access specifier,
 * type spelling, canonical type spelling of its own type, and the path of
 * its file relative to the scanned directory. clang_visitChildren is the
 * function `Walk`, which visits a tree of cursors depth first and descends
 * exactly into the cursors the visitor answers `Recurse` for.
 */
module CodegenScan {
  import opened Wrappers
  import opened Text
  import opened TypePatterns

  const StructMarker := "HEARTGEN___SERIALIZE_NEXT_SYMBOL_STRUCT"
  const AsRefMarker := "HEARTGEN___SERIALIZE_NEXT_SYMBOL_AS_REF"
  const AsFuncMarker := "HEARTGEN___SERIALIZE_NEXT_SYMBOL_AS_MEMB_FUNCTION"

  /** The capacity of `SerializedString` that is always reflected. */
  const SerializedDataPathSize := 64

  datatype Access = InvalidAccess | Public | Protected | Private

  datatype CursorKind = FieldDecl | CXXMethod | OtherKind

  datatype Cursor = Cursor(
    id: nat,
    kind: CursorKind,
    spelling: string,
    access: Access,
    typeSpelling: string,
    canonicalTypeSpelling: string,
    file: string)

  datatype VisitResult = Continue | Recurse

  datatype SerializeState =
    | Scanning
    | SerializeNextStruct
    | SerializeCurrentParent
    | SerializeCurrentParentNextAsRef
    | SerializeCurrentParentNextAsFunc

  datatype FieldToken = FieldToken(name: string, asRef: bool, asFunc: bool)

  /** The diagnostics `EncounterError` prints; each one sets the error code to 1. */
  datatype ScanError =
    | UnexpectedEnd
    | NestedStruct
    | DirectiveOutsideStruct
    | NonPublicStruct
    | InvalidDirective

  /**
   * The generator's fields. .NET enumerates a `HashSet` or a `Dictionary`
   * that never loses an entry in insertion order, so the sets are sequences
   * without repeats and the field dictionary keeps its key order.
   */
  datatype GenState = GenState(
    state: SerializeState,
    parent: Option<Cursor>,
    typeOrder: seq<string>,
    typeFields: map<string, seq<FieldToken>>,
    includes: seq<string>,
    sizes: seq<nat>,
    vectorTypes: seq<string>,
    errors: seq<ScanError>,
    errorCode: int)

  const Initial := GenState(Scanning, None, [], map[], [], [], [], [], 0)

  function Report(g: GenState, e: ScanError): GenState
  {
    g.(errors := g.errors + [e], errorCode := 1)
  }

  predicate InsideStruct(s: SerializeState)
  {
    s == SerializeCurrentParent || s == SerializeCurrentParentNextAsRef || s == SerializeCurrentParentNextAsFunc
  }

  // ---------------------------------------------------------------------------
  // One visit.

  /** Returning to a cursor outside the bound struct ends that struct. */
  function LeaveStruct(g: GenState, parent: Cursor): (r: GenState)
  {
    if g.parent.Some? && g.parent.value.id != parent.id then
      var g1 := if g.state != SerializeCurrentParent then Report(g, UnexpectedEnd) else g;
      g1.(state := Scanning, parent := None)
    else g
  }

  /** A cursor the current directive lets through: a public field, or a public method after the method marker. */
  predicate Acceptable(c: Cursor, shouldBeFunc: bool)
  {
    c.access == Public &&
    ((!shouldBeFunc && c.kind == FieldDecl) || (shouldBeFunc && c.kind == CXXMethod))
  }

  predicate HasField(fields: seq<FieldToken>, name: string)
  {
    exists i | 0 <= i < |fields| :: fields[i].name == name
  }

  /** The bound parent's canonical type, or the empty spelling of the null cursor. */
  function ParentType(g: GenState): string
  {
    if g.parent.Some? then g.parent.value.canonicalTypeSpelling else ""
  }

  /** The size set after a field of type `spelling`: its `SerializedString` capacity, if any, added. */
  function AddSize(sizes: seq<nat>, spelling: string): seq<nat>
  {
    match StringCapacity(spelling)
    case Some(n) => AddUnique(sizes, n)
    case None => sizes
  }

  /** The vector-type set after a field of type `spelling`: its `hrt::vector` element, if any, added. */
  function AddVectorType(types: seq<string>, spelling: string): seq<string>
  {
    match VectorElement(spelling)
    case Some(t) => AddUnique(types, t)
    case None => types
  }

  /** The field list `key` will have once the accepted field is recorded. */
  function FieldsAfter(g: GenState, key: string, token: FieldToken): seq<FieldToken>
  {
    var list := if key in g.typeFields then g.typeFields[key] else [];
    if HasField(list, token.name) then list else list + [token]
  }

  /** Records an accepted field under its parent type and classifies its type spelling. */
  function Accept(g: GenState, c: Cursor): GenState
  {
    var key := ParentType(g);
    var token := FieldToken(c.spelling, g.state == SerializeCurrentParentNextAsRef, g.state == SerializeCurrentParentNextAsFunc);
    var isNew := !(key in g.typeFields && HasField(g.typeFields[key], c.spelling));
    g.(state := SerializeCurrentParent,
       typeOrder := if key in g.typeFields then g.typeOrder else g.typeOrder + [key],
       typeFields := g.typeFields[key := FieldsAfter(g, key, token)],
       includes := if isNew then AddUnique(g.includes, c.file) else g.includes,
       sizes := AddSize(g.sizes, c.typeSpelling),
       vectorTypes := AddVectorType(g.vectorTypes, c.typeSpelling))
  }

  /** `Accept` as its two halves compute it: the field recorded under its parent, then its type classified. */
  lemma AcceptPieces(g: GenState, c: Cursor, order: seq<string>, fields: map<string, seq<FieldToken>>, incs: seq<string>)
    requires var key := ParentType(g);
      var token := FieldToken(c.spelling, g.state == SerializeCurrentParentNextAsRef, g.state == SerializeCurrentParentNextAsFunc);
      var list := if key in g.typeFields then g.typeFields[key] else [];
      var isNew := !HasField(list, token.name);
      order == (if key in g.typeFields then g.typeOrder else g.typeOrder + [key]) &&
      fields == g.typeFields[key := if isNew then list + [token] else list] &&
      incs == if isNew then AddUnique(g.includes, c.file) else g.includes
    ensures Accept(g, c) == GenState(SerializeCurrentParent, g.parent, order, fields, incs,
      AddSize(g.sizes, c.typeSpelling), AddVectorType(g.vectorTypes, c.typeSpelling), g.errors, g.errorCode)
  {
  }

  /** `VisitChildren(cursor, parent)`: the new state and the answer given to clang. */
  function Step(g: GenState, c: Cursor, parent: Cursor): (GenState, VisitResult)
  {
    var g0 := LeaveStruct(g, parent);
    if c.spelling == StructMarker then
      (if g0.state != Scanning then Report(g0, NestedStruct) else g0.(state := SerializeNextStruct), Continue)
    else if c.spelling == AsRefMarker then
      (if g0.state != SerializeCurrentParent then Report(g0, DirectiveOutsideStruct)
       else g0.(state := SerializeCurrentParentNextAsRef), Continue)
    else if c.spelling == AsFuncMarker then
      (if g0.state != SerializeCurrentParent then Report(g0, DirectiveOutsideStruct)
       else g0.(state := SerializeCurrentParentNextAsFunc), Continue)
    else if g0.state == SerializeNextStruct then
      if c.access != Public && c.access != InvalidAccess then
        (Report(g0, NonPublicStruct).(parent := None, state := Scanning), Continue)
      else
        (g0.(parent := Some(c), state := SerializeCurrentParent), Recurse)
    else if g0.state == Scanning then
      (g0, Recurse)
    else if Acceptable(c, g0.state == SerializeCurrentParentNextAsFunc) then
      (Accept(g0, c), Continue)
    else
      ((if g0.state != SerializeCurrentParent then Report(g0, InvalidDirective) else g0).(state := SerializeCurrentParent), Continue)
  }

  // ---------------------------------------------------------------------------
  // Traversal.

  datatype Tree = Tree(cursor: Cursor, children: seq<Tree>)

  /** clang_visitChildren over `kids`, whose parent cursor is `parent`. */
  function Walk(g: GenState, parent: Cursor, kids: seq<Tree>): GenState
    decreases kids
  {
    if kids == [] then g
    else
      var step := Step(g, kids[0].cursor, parent);
      assert kids[0] in kids;
      var g1 := if step.1 == Recurse then Walk(step.0, kids[0].cursor, kids[0].children) else step.0;
      Walk(g1, parent, kids[1..])
  }

  /** `ProcessCurrentFile`: a fresh scanner state, then a walk of the translation unit. */
  function ScanFile(g: GenState, unit: Tree): GenState
  {
    Walk(g.(state := Scanning, parent := None), unit.cursor, unit.children)
  }

  /** Files the directory walk hands to the scanner. */
  predicate IsScannedFile(path: string)
  {
    (EndsWith(path, ".cpp") || EndsWith(path, ".c") || EndsWith(path, ".h") || EndsWith(path, ".hpp")) &&
    !Contains(path, ".heartgen.cpp")
  }

  /** `TraverseCodebase` over the listed files, each with its translation unit. */
  function ScanAll(g: GenState, files: seq<(string, Tree)>): GenState
    decreases |files|
  {
    if files == [] then g
    else ScanAll(if IsScannedFile(files[0].0) then ScanFile(g, files[0].1) else g, files[1..])
  }

  // ---------------------------------------------------------------------------
  // Properties of one visit.

  /** Leaving the bound struct: back to scanning with no parent, reporting only if a directive was pending. */
  lemma LeaveStructReports(g: GenState, parent: Cursor)
    requires g.parent.Some? && g.parent.value.id != parent.id
    ensures LeaveStruct(g, parent).state == Scanning && LeaveStruct(g, parent).parent.None?
    ensures LeaveStruct(g, parent).errors ==
      g.errors + (if g.state != SerializeCurrentParent then [UnexpectedEnd] else [])
  {
  }

  /** A marker cursor is never recorded: fields, sets and parent are those after leaving, and clang is told to continue. */
  lemma MarkersNeverRecorded(g: GenState, c: Cursor, parent: Cursor)
    requires c.spelling in {StructMarker, AsRefMarker, AsFuncMarker}
    ensures var (r, v) := Step(g, c, parent); var g0 := LeaveStruct(g, parent);
      v == Continue && r.parent == g0.parent && r.typeFields == g0.typeFields &&
      r.typeOrder == g0.typeOrder && r.includes == g0.includes &&
      r.sizes == g0.sizes && r.vectorTypes == g0.vectorTypes
  {
  }

  /** The struct marker arms the scanner only from `Scanning`; otherwise it reports and leaves the state alone. */
  lemma StructMarkerArms(g: GenState, c: Cursor, parent: Cursor)
    requires c.spelling == StructMarker
    ensures var r := Step(g, c, parent).0; var g0 := LeaveStruct(g, parent);
      (g0.state == Scanning ==> r.state == SerializeNextStruct && r.errors == g0.errors) &&
      (g0.state != Scanning ==> r.state == g0.state && r.errors == g0.errors + [NestedStruct] && r.errorCode == 1)
  {
  }

  /** The alias and method markers are accepted only in `SerializeCurrentParent`. */
  lemma DirectiveMarkers(g: GenState, c: Cursor, parent: Cursor)
    requires c.spelling in {AsRefMarker, AsFuncMarker}
    ensures var r := Step(g, c, parent).0; var g0 := LeaveStruct(g, parent);
      (g0.state == SerializeCurrentParent ==>
        r.errors == g0.errors &&
        r.state == (if c.spelling == AsRefMarker then SerializeCurrentParentNextAsRef else SerializeCurrentParentNextAsFunc)) &&
      (g0.state != SerializeCurrentParent ==>
        r.state == g0.state && r.errors == g0.errors + [DirectiveOutsideStruct] && r.errorCode == 1)
  {
  }

  predicate IsMarker(c: Cursor)
  {
    c.spelling == StructMarker || c.spelling == AsRefMarker || c.spelling == AsFuncMarker
  }

  /** The cursor after the struct marker becomes the parent unless its access is protected or private. */
  lemma ArmedCursorBinds(g: GenState, c: Cursor, parent: Cursor)
    requires !IsMarker(c) && LeaveStruct(g, parent).state == SerializeNextStruct
    ensures var (r, v) := Step(g, c, parent); var g0 := LeaveStruct(g, parent);
      if c.access == Public || c.access == InvalidAccess then
        r == g0.(parent := Some(c), state := SerializeCurrentParent) && v == Recurse
      else
        r == Report(g0, NonPublicStruct).(parent := None, state := Scanning) && v == Continue
  {
  }

  /**
   * Inside a bound struct a non-marker child is recorded exactly when it is
   * public and is a field (no method directive) or a method (method
   * directive); either way the state returns to `SerializeCurrentParent`,
   * and a rejected child reports only when a directive was pending.
   */
  lemma ChildAcceptance(g: GenState, c: Cursor, parent: Cursor)
    requires !IsMarker(c) && InsideStruct(LeaveStruct(g, parent).state)
    ensures var (r, v) := Step(g, c, parent); var g0 := LeaveStruct(g, parent);
      var func := g0.state == SerializeCurrentParentNextAsFunc;
      v == Continue && r.state == SerializeCurrentParent && r.parent == g0.parent &&
      (Acceptable(c, func) ==>
        ParentType(g0) in r.typeFields && HasField(r.typeFields[ParentType(g0)], c.spelling) &&
        r.errors == g0.errors) &&
      (!Acceptable(c, func) ==>
        r.typeFields == g0.typeFields && r.typeOrder == g0.typeOrder && r.includes == g0.includes &&
        r.sizes == g0.sizes && r.vectorTypes == g0.vectorTypes &&
        r.errors == g0.errors + (if g0.state != SerializeCurrentParent then [InvalidDirective] else []))
  {
    var g0 := LeaveStruct(g, parent);
    var func := g0.state == SerializeCurrentParentNextAsFunc;
    if Acceptable(c, func) {
      AcceptRecords(g0, c);
    }
  }

  /**
   * Recording a field: the parent type's list exists afterwards and holds
   * the name; a new name is appended last with `asRef` exactly when the alias
   * directive was pending and `asFunc` exactly when the method directive
   * was, and its file is added to the includes; a name already present
   * leaves the list and the includes alone (the first one seen wins).
   */
  lemma AcceptRecords(g: GenState, c: Cursor)
    ensures var r := Accept(g, c); var key := ParentType(g);
      var old_ := if key in g.typeFields then g.typeFields[key] else [];
      key in r.typeFields && HasField(r.typeFields[key], c.spelling) &&
      (forall k | k in g.typeFields && k != key :: k in r.typeFields && r.typeFields[k] == g.typeFields[k]) &&
      (HasField(old_, c.spelling) ==> r.typeFields[key] == old_ && r.includes == g.includes) &&
      (!HasField(old_, c.spelling) ==>
        r.typeFields[key] == old_ + [FieldToken(c.spelling,
          g.state == SerializeCurrentParentNextAsRef, g.state == SerializeCurrentParentNextAsFunc)] &&
        c.file in r.includes) &&
      (key in g.typeFields ==> r.typeOrder == g.typeOrder) &&
      (key !in g.typeFields ==> r.typeOrder == g.typeOrder + [key])
  {
    var key := ParentType(g);
    var list := if key in g.typeFields then g.typeFields[key] else [];
    if !HasField(list, c.spelling) {
      var token := FieldToken(c.spelling, g.state == SerializeCurrentParentNextAsRef, g.state == SerializeCurrentParentNextAsFunc);
      assert (list + [token])[|list|].name == c.spelling;
    }
  }

  /** Every accepted field, a repeated name included, feeds the size and element-type sets. */
  lemma AcceptClassifies(g: GenState, c: Cursor)
    ensures var r := Accept(g, c);
      (StringCapacity(c.typeSpelling).Some? ==> StringCapacity(c.typeSpelling).value in r.sizes) &&
      (StringCapacity(c.typeSpelling).None? ==> r.sizes == g.sizes) &&
      (VectorElement(c.typeSpelling).Some? ==> VectorElement(c.typeSpelling).value in r.vectorTypes) &&
      (VectorElement(c.typeSpelling).None? ==> r.vectorTypes == g.vectorTypes)
  {
  }

  // ---------------------------------------------------------------------------
  // Properties of whole walks.

  /** Names recorded for one type are distinct. */
  predicate DistinctNames(fields: seq<FieldToken>)
  {
    forall i, j | 0 <= i < j < |fields| :: fields[i].name != fields[j].name
  }

  /**
   * The generator's invariant: a parent is bound exactly while inside a
   * struct, the dictionary's key order lists each key once, every list is
   * non-empty with distinct names, the sets hold no repeats, and the error
   * code is 1 exactly when an error has been reported.
   */
  ghost predicate Wf(g: GenState)
  {
    (g.parent.Some? <==> InsideStruct(g.state)) &&
    Distinct(g.typeOrder) &&
    (forall k :: k in g.typeOrder <==> k in g.typeFields) &&
    (forall k | k in g.typeFields :: g.typeFields[k] != [] && DistinctNames(g.typeFields[k])) &&
    Distinct(g.includes) && Distinct(g.sizes) && Distinct(g.vectorTypes) &&
    g.errorCode == (if g.errors == [] then 0 else 1)
  }

  /** Everything a later state holds extends what an earlier one held: records are never dropped or rewritten. */
  ghost predicate Extends(g: GenState, r: GenState)
  {
    g.typeOrder <= r.typeOrder &&
    (forall k | k in g.typeFields :: k in r.typeFields && g.typeFields[k] <= r.typeFields[k]) &&
    g.includes <= r.includes && g.sizes <= r.sizes && g.vectorTypes <= r.vectorTypes &&
    g.errors <= r.errors
  }

  lemma AddUniqueDistinct<T>(s: seq<T>, x: T)
    requires Distinct(s)
    ensures Distinct(AddUnique(s, x)) && s <= AddUnique(s, x)
  {
  }

  lemma LeaveStructWf(g: GenState, parent: Cursor)
    requires Wf(g)
    ensures Wf(LeaveStruct(g, parent)) && Extends(g, LeaveStruct(g, parent))
  {
  }

  /** Recording a field under `key` keeps the dictionary's invariant and only extends its lists. */
  lemma RecordFieldWf(g: GenState, key: string, token: FieldToken)
    requires Wf(g)
    ensures var fields := g.typeFields[key := FieldsAfter(g, key, token)];
      var order := if key in g.typeFields then g.typeOrder else g.typeOrder + [key];
      Distinct(order) && g.typeOrder <= order &&
      (forall k :: k in order <==> k in fields) &&
      (forall k | k in fields :: fields[k] != [] && DistinctNames(fields[k])) &&
      (forall k | k in g.typeFields :: k in fields && g.typeFields[k] <= fields[k])
  {
    var list := if key in g.typeFields then g.typeFields[key] else [];
    if !HasField(list, token.name) {
      assert DistinctNames(list + [token]);
    }
    assert FieldsAfter(g, key, token) != [] && DistinctNames(FieldsAfter(g, key, token)) && list <= FieldsAfter(g, key, token);
    if key !in g.typeFields {
      assert key !in g.typeOrder;
      AddUniqueDistinct(g.typeOrder, key);
      assert AddUnique(g.typeOrder, key) == g.typeOrder + [key];
    }
  }

  lemma AcceptWf(g: GenState, c: Cursor)
    requires Wf(g) && InsideStruct(g.state)
    ensures Wf(Accept(g, c)) && Extends(g, Accept(g, c))
  {
    var key := ParentType(g);
    var token := FieldToken(c.spelling, g.state == SerializeCurrentParentNextAsRef, g.state == SerializeCurrentParentNextAsFunc);
    RecordFieldWf(g, key, token);
    AddUniqueDistinct(g.includes, c.file);
    assert Distinct(AddSize(g.sizes, c.typeSpelling)) && g.sizes <= AddSize(g.sizes, c.typeSpelling) by {
      if StringCapacity(c.typeSpelling).Some? { AddUniqueDistinct(g.sizes, StringCapacity(c.typeSpelling).value); }
    }
    assert Distinct(AddVectorType(g.vectorTypes, c.typeSpelling)) && g.vectorTypes <= AddVectorType(g.vectorTypes, c.typeSpelling) by {
      if VectorElement(c.typeSpelling).Some? { AddUniqueDistinct(g.vectorTypes, VectorElement(c.typeSpelling).value); }
    }
  }

  lemma StepWf(g: GenState, c: Cursor, parent: Cursor)
    requires Wf(g)
    ensures Wf(Step(g, c, parent).0) && Extends(g, Step(g, c, parent).0)
  {
    var g0 := LeaveStruct(g, parent);
    LeaveStructWf(g, parent);
    var r := Step(g, c, parent).0;
    if IsMarker(c) || g0.state == SerializeNextStruct || g0.state == Scanning {
      assert r.typeFields == g0.typeFields && r.typeOrder == g0.typeOrder;
      assert r.includes == g0.includes && r.sizes == g0.sizes && r.vectorTypes == g0.vectorTypes;
    } else if Acceptable(c, g0.state == SerializeCurrentParentNextAsFunc) {
      assert r == Accept(g0, c);
      AcceptWf(g0, c);
      ExtendsTrans(g, g0, r);
    } else {
      assert r.typeFields == g0.typeFields && r.typeOrder == g0.typeOrder;
      assert r.includes == g0.includes && r.sizes == g0.sizes && r.vectorTypes == g0.vectorTypes;
    }
  }

  lemma ExtendsTrans(a: GenState, b: GenState, c: GenState)
    requires Extends(a, b) && Extends(b, c)
    ensures Extends(a, c)
  {
  }

  /** A whole walk keeps the invariant and never drops or rewrites a record. */
  lemma {:induction false} WalkWf(g: GenState, parent: Cursor, kids: seq<Tree>)
    requires Wf(g)
    ensures Wf(Walk(g, parent, kids)) && Extends(g, Walk(g, parent, kids))
    decreases kids
  {
    if kids != [] {
      var step := Step(g, kids[0].cursor, parent);
      StepWf(g, kids[0].cursor, parent);
      assert kids[0] in kids;
      var g1 := step.0;
      if step.1 == Recurse {
        WalkWf(step.0, kids[0].cursor, kids[0].children);
        g1 := Walk(step.0, kids[0].cursor, kids[0].children);
        ExtendsTrans(g, step.0, g1);
      }
      WalkWf(g1, parent, kids[1..]);
      ExtendsTrans(g, g1, Walk(g1, parent, kids[1..]));
    }
  }

  /** Scanning any list of files keeps the invariant and only ever adds records. */
  lemma {:induction false} ScanAllWf(g: GenState, files: seq<(string, Tree)>)
    requires Wf(g)
    ensures Wf(ScanAll(g, files)) && Extends(g, ScanAll(g, files))
    decreases |files|
  {
    if files != [] {
      var g1 := g;
      if IsScannedFile(files[0].0) {
        WalkWf(g.(state := Scanning, parent := None), files[0].1.cursor, files[0].1.children);
        g1 := ScanFile(g, files[0].1);
      }
      ScanAllWf(g1, files[1..]);
      ExtendsTrans(g, g1, ScanAll(g1, files[1..]));
    }
  }
}
