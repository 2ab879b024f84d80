// HeartDebugStringify (assert.h, debug_stringify.cpp): renders
// "name = value" lines into a caller's fixed-size char buffer for assertion
// messages. The names come from HEART_STRINGIFY_NAMES, one string literal
// holding every argument's spelling followed by a NUL byte; a cursor walks
// it, one name per value.
module DebugStringify {
  import opened Wrappers

  const Nul: char := '\0'

  predicate NoNul(s: seq<char>)
  {
    forall i | 0 <= i < |s| :: s[i] != Nul
  }

  /** strlen of the C string starting at `i`. */
  function Strlen(text: seq<char>, i: nat): nat
    requires i < |text| && Nul in text[i..]
    decreases |text| - i
  {
    if text[i] == Nul then 0
    else
      assert text[i..] == [text[i]] + text[i + 1..];
      1 + Strlen(text, i + 1)
  }

  /** strlen stops at the first NUL from `i` on. */
  lemma {:induction false} StrlenEnds(text: seq<char>, i: nat)
    requires i < |text| && Nul in text[i..]
    ensures var n := Strlen(text, i);
      i + n < |text| && text[i + n] == Nul && NoNul(text[i..i + n])
    decreases |text| - i
  {
    if text[i] != Nul {
      assert text[i..] == [text[i]] + text[i + 1..];
      StrlenEnds(text, i + 1);
      var n := Strlen(text, i + 1);
      assert text[i..i + 1 + n] == [text[i]] + text[i + 1..i + 1 + n];
    }
  }

  lemma {:induction false} StrlenBound(text: seq<char>, i: nat)
    requires i < |text| && Nul in text[i..]
    ensures i + Strlen(text, i) < |text|
    decreases |text| - i
  {
    if text[i] != Nul {
      assert text[i..] == [text[i]] + text[i + 1..];
      StrlenBound(text, i + 1);
    }
  }

  /** A NUL with no NUL before it from `i` on is where strlen stops. */
  lemma {:induction false} StrlenIs(text: seq<char>, i: nat, k: nat)
    requires i + k < |text| && text[i + k] == Nul && NoNul(text[i..i + k])
    ensures Nul in text[i..] && Strlen(text, i) == k
    decreases k
  {
    assert text[i..][k] == Nul;
    if k > 0 {
      assert text[i] == text[i..i + k][0];
      assert text[i + 1..i + k] == text[i..i + k][1..];
      StrlenIs(text, i + 1, k - 1);
    }
  }

  /** The C string starting at `i`, without its NUL. */
  function CString(text: seq<char>, i: nat): string
    requires i < |text| && Nul in text[i..]
  {
    StrlenBound(text, i);
    text[i..i + Strlen(text, i)]
  }

  /** Append: `str` is copied only when it and its NUL fit in the room left
      (strcpy_s); otherwise the text stays as it was. */
  function Appended(text: string, capacity: nat, str: string): string
  {
    if |text| + |str| < capacity then text + str else text
  }

  /** Append writes all of `str` or nothing, and all of it exactly when it
      and its NUL fit. */
  lemma AppendedAllOrNothing(text: string, capacity: nat, str: string)
    ensures var r := Appended(text, capacity, str);
      (r == text || r == text + str) &&
      (r == text + str <==> |text| + |str| < capacity || str == [])
  {
    if |text| + |str| >= capacity && str != [] {
      assert |text + str| != |text|;
    }
  }

  /** What the buffer holds and where the names cursor points; None is a
      null cursor. */
  datatype Render = Render(text: string, cursor: Option<nat>)

  /** From `c` on, the walk meets an empty name before the literal ends:
      a NUL at `c` itself, or two NULs in a row. */
  ghost predicate EmptyNameAhead(names: string, c: nat)
  {
    exists e | c <= e < |names| :: names[e] == Nul && (e == c || names[e - 1] == Nul)
  }

  ghost predicate CursorOk(names: string, cursor: Option<nat>)
  {
    cursor.Some? ==> EmptyNameAhead(names, cursor.value)
  }

  /** Stepping from a non-empty name by at most its length plus one stays
      behind the empty name ahead. */
  lemma {:induction false} StepKeepsEmptyNameAhead(names: string, c: nat, step: nat)
    requires EmptyNameAhead(names, c) && names[c] != Nul
    requires step <= Strlen(names, c) + 1
    ensures c + step < |names| && EmptyNameAhead(names, c + step)
  {
    var e :| c <= e < |names| && names[e] == Nul && (e == c || names[e - 1] == Nul);
    EmptyNameAheadInside(names, c);
    StrlenEnds(names, c);
    var n := Strlen(names, c);
    assert names[e] == Nul && (e == c + step || names[e - 1] == Nul);
  }

  lemma {:induction false} EmptyNameAheadInside(names: string, c: nat)
    requires EmptyNameAhead(names, c)
    ensures c < |names| && Nul in names[c..]
  {
    var e :| c <= e < |names| && names[e] == Nul && (e == c || names[e - 1] == Nul);
    assert names[c..][e - c] == Nul;
  }

  /** The newline AppendNextName writes when the buffer is not empty. */
  function Separated(text: string, capacity: nat): string
  {
    if |text| > 0 then Appended(text, capacity, "\n") else text
  }

  /** An unquoted name at `c`, then " = "; the cursor moves on by the
      number of bytes the name's Append wrote, plus one. */
  function NameAppended(text: string, capacity: nat, names: string, c: nat): (r': Render)
    requires EmptyNameAhead(names, c) && names[c] != Nul
    ensures CursorOk(names, r'.cursor)
  {
    var t2 := Appended(text, capacity, CString(names, c));
    var nameLength := |t2| - |text|;
    EmptyNameAheadInside(names, c);
    StrlenBound(names, c);
    StepKeepsEmptyNameAhead(names, c, nameLength + 1);
    Render(Appended(t2, capacity, " = "), Some(c + nameLength + 1))
  }

  /** AppendNextName as written: a newline when the buffer is not empty;
      then, unless the cursor is null or at an empty name, the name and
      " = " (a name starting with '"' is skipped by its strlen), and the
      cursor moves on. */
  function NextName(r: Render, capacity: nat, names: string): (r': Render)
    requires CursorOk(names, r.cursor)
    ensures CursorOk(names, r'.cursor)
  {
    var t1 := Separated(r.text, capacity);
    if r.cursor.None? then Render(t1, None)
    else
      var c := r.cursor.value;
      EmptyNameAheadInside(names, c);
      if names[c] == Nul then Render(t1, r.cursor)
      else if names[c] != '"' then NameAppended(t1, capacity, names, c)
      else
        StepKeepsEmptyNameAhead(names, c, Strlen(names, c) + 1);
        Render(t1, Some(c + Strlen(names, c) + 1))
  }

  /** AppendValue: the next name, then the value's text as sprintf_s
      writes it (only when it and its NUL fit). */
  function ValueAppended(r: Render, capacity: nat, names: string, value: string): (r': Render)
    requires CursorOk(names, r.cursor)
    ensures CursorOk(names, r'.cursor)
  {
    var r1 := NextName(r, capacity, names);
    Render(Appended(r1.text, capacity, value), r1.cursor)
  }

  /** The fold of operator() over its values. */
  function RenderAll(r: Render, capacity: nat, names: string, values: seq<string>): (r': Render)
    requires CursorOk(names, r.cursor)
    ensures CursorOk(names, r'.cursor)
  {
    if values == [] then r
    else ValueAppended(RenderAll(r, capacity, names, values[..|values| - 1]), capacity, names, values[|values| - 1])
  }

  /** Each part followed by a NUL, as adjacent string literals joined by
      "\0" concatenate. */
  function Terminated(parts: seq<string>): string
  {
    if parts == [] then []
    else Terminated(parts[..|parts| - 1]) + parts[|parts| - 1] + [Nul]
  }

  lemma {:induction false} TerminatedAppend(p: seq<string>, q: seq<string>)
    ensures Terminated(p + q) == Terminated(p) + Terminated(q)
    decreases |q|
  {
    if q != [] {
      var q' := q[..|q| - 1];
      var x := q[|q| - 1];
      assert (p + q)[..|p + q| - 1] == p + q' && (p + q)[|p + q| - 1] == x;
      TerminatedAppend(p, q');
      calc {
        Terminated(p + q);
        Terminated(p + q') + x + [Nul];
        Terminated(p) + Terminated(q') + x + [Nul];
        Terminated(p) + (Terminated(q') + x + [Nul]);
      }
    } else {
      assert p + q == p;
    }
  }

  /** The parts joined by commas, as #__VA_ARGS__ spells them. */
  function CommaJoined(parts: seq<string>): string
  {
    if parts == [] then []
    else if |parts| == 1 then parts[0]
    else CommaJoined(parts[..|parts| - 1]) + "," + parts[|parts| - 1]
  }

  /** The arguments _HEART_STRINGIFY_10_ARGS receives: the caller's
      arguments, the last one (or the only, empty one) followed by the two
      NULs, then the ten empty arguments the padding commas make. */
  function Padded(args: seq<string>): (p: seq<string>)
    ensures |p| == (if args == [] then 1 else |args|) + 10
  {
    (if args == [] then [[Nul, Nul]]
     else args[..|args| - 1] + [args[|args| - 1] + [Nul, Nul]])
    + seq(10, _ => [])
  }

  /** HEART_STRINGIFY_NAMES: the first ten arguments each followed by a
      NUL, then the rest joined by commas, then the literal's own NUL. */
  function StringifyNames(args: seq<string>): string
  {
    var p := Padded(args);
    Terminated(p[..10]) + CommaJoined(p[10..]) + [Nul]
  }

  /** Where the `k`-th name starts in the literal: past each earlier name
      and its NUL. */
  ghost function Off(args: seq<string>, k: nat): nat
    requires k <= |args|
  {
    if k == 0 then 0 else Off(args, k - 1) + |args[k - 1]| + 1
  }

  lemma {:induction false} OffIsTerminated(args: seq<string>, k: nat)
    requires k <= |args|
    ensures Off(args, k) == |Terminated(args[..k])|
  {
    if k > 0 {
      assert args[..k][..k - 1] == args[..k - 1];
      OffIsTerminated(args, k - 1);
    }
  }

  /** The `k`-th padded argument is the caller's, marked when it is the
      last one. */
  lemma PaddedAt(args: seq<string>, k: nat)
    requires k < |args| <= 10
    ensures var p := Padded(args);
      p[..10] == args[..k] + ([p[k]] + p[k + 1..10]) &&
      p[k] == (if k < |args| - 1 then args[k] else args[k] + [Nul, Nul])
  {
    var p := Padded(args);
    var m := |args|;
    assert p == args[..m - 1] + [args[m - 1] + [Nul, Nul]] + seq(10, _ => []);
    assert p[..10][..k] == args[..k];
  }

  lemma TerminatedSplit(a: seq<string>, x: string, b: seq<string>)
    ensures Terminated(a + ([x] + b)) == Terminated(a) + (x + [Nul]) + Terminated(b)
  {
    TerminatedAppend(a, [x] + b);
    TerminatedAppend([x], b);
    assert Terminated([x]) == Terminated([]) + x + [Nul];
  }

  /** Up to ten arguments, the `k`-th name is followed by a NUL; after the
      last one two more NULs follow. */
  lemma {:induction false} LiteralAt(args: seq<string>, k: nat) returns (rest: string)
    requires k < |args| <= 10
    ensures StringifyNames(args) == Terminated(args[..k]) + args[k] + [Nul] + rest
    ensures k == |args| - 1 ==> |rest| >= 1 && rest[0] == Nul
  {
    var p := Padded(args);
    PaddedAt(args, k);
    TerminatedSplit(args[..k], p[k], p[k + 1..10]);
    var tail := Terminated(p[k + 1..10]) + CommaJoined(p[10..]) + [Nul];
    assert StringifyNames(args) == Terminated(args[..k]) + (p[k] + [Nul]) + tail;
    if k < |args| - 1 {
      rest := tail;
    } else {
      rest := [Nul, Nul] + tail;
    }
  }

  /** `name` is the C string at `c`. */
  ghost predicate Slot(lit: string, c: nat, name: string)
  {
    c < |lit| && Nul in lit[c..] && Strlen(lit, c) == |name| && c + |name| <= |lit| &&
    lit[c..c + |name|] == name
  }

  ghost predicate SlotAt(lit: string, args: seq<string>, j: nat)
    requires j < |args|
  {
    Slot(lit, Off(args, j), args[j])
  }

  /** Every name stands at its offset: how the walk finds them. */
  ghost predicate Layout(lit: string, args: seq<string>)
  {
    forall j | 0 <= j < |args| :: SlotAt(lit, args, j)
  }

  /** The first `k` names stand at their offsets, as the walk meets them. */
  ghost predicate LaidOut(lit: string, args: seq<string>, k: nat)
    requires k <= |args|
  {
    k == 0 || (LaidOut(lit, args, k - 1) && SlotAt(lit, args, k - 1))
  }

  lemma {:induction false} LayoutLaidOut(lit: string, args: seq<string>, k: nat)
    requires Layout(lit, args) && k <= |args|
    ensures LaidOut(lit, args, k)
  {
    if k > 0 {
      LayoutLaidOut(lit, args, k - 1);
      assert SlotAt(lit, args, k - 1);
    }
  }

  lemma {:induction false} SlotName(lit: string, c: nat, name: string)
    requires Slot(lit, c, name)
    ensures CString(lit, c) == name
  {
  }

  /** HEART_STRINGIFY_NAMES with up to ten arguments lays out every name
      and ends in an empty name. */
  lemma {:induction false} NamesLayout(args: seq<string>)
    requires |args| <= 10 && forall i | 0 <= i < |args| :: NoNul(args[i])
    ensures Layout(StringifyNames(args), args)
    ensures EmptyNameAhead(StringifyNames(args), 0)
  {
    var lit := StringifyNames(args);
    forall j | 0 <= j < |args|
      ensures SlotAt(lit, args, j)
    {
      var rest := LiteralAt(args, j);
      OffIsTerminated(args, j);
      var c := Off(args, j);
      assert lit[c..c + |args[j]|] == args[j];
      StrlenIs(lit, c, |args[j]|);
    }
    if args == [] {
      var p := Padded(args);
      assert p[..10] == [p[0]] + p[1..10];
      TerminatedAppend([p[0]], p[1..10]);
      assert Terminated([p[0]]) == Terminated([]) + p[0] + [Nul];
      assert lit[0] == Nul;
    } else {
      var k := |args| - 1;
      var rest := LiteralAt(args, k);
      OffIsTerminated(args, k);
      var e := Off(args, k) + |args[k]| + 1;
      assert lit[e] == rest[0] && lit[e - 1] == Nul;
    }
  }

  /** One rendered line: a name starting with '"' (a message literal) is
      not printed, so the value stands alone. */
  function Line(name: string, value: string): string
  {
    if name != [] && name[0] == '"' then value else name + " = " + value
  }

  /** The lines of each name with its value, separated by newlines. */
  function Lines(names: seq<string>, values: seq<string>): string
    requires |names| == |values|
  {
    if values == [] then []
    else
      var k := |values| - 1;
      (if k == 0 then [] else Lines(names[..k], values[..k]) + "\n") + Line(names[k], values[k])
  }

  predicate NameOk(s: string)
  {
    s != [] && NoNul(s)
  }

  /** One step of the walk at a whole name with room for it: the name and
      " = " (or nothing for a quoted name) follow the newline, and the
      cursor moves past the name's NUL. */
  lemma {:induction false} NextNameAt(text: string, capacity: nat, names: string, c: nat, name: string)
    requires c < |names| && Nul in names[c..] && CString(names, c) == name && name != []
    requires EmptyNameAhead(names, c)
    requires |text| + 1 < capacity && (name[0] != '"' ==> |text| + |name| + 4 < capacity)
    ensures NextName(Render(text, Some(c)), capacity, names)
         == Render(Separated(text, capacity) + (if name[0] == '"' then [] else name + " = "), Some(c + |name| + 1))
  {
    StrlenBound(names, c);
    assert names[c..c + |name|] == name;
    assert names[c] == name[0];
  }

  /** The room a line needs covers each of its Appends. */
  lemma Room(text: string, first: bool, capacity: nat, name: string, value: string)
    requires first <==> text == []
    requires name != [] && value != []
    requires |(if first then [] else text + "\n") + Line(name, value)| < capacity
    ensures |text| + 1 < capacity && (name[0] != '"' ==> |text| + |name| + 4 < capacity)
    ensures Separated(text, capacity) == (if first then [] else text + "\n")
    ensures |Separated(text, capacity) + (if name[0] == '"' then [] else name + " = ")| + |value| < capacity
  {
  }

  lemma LineJoined(sep: string, name: string, value: string)
    requires name != []
    ensures sep + (if name[0] == '"' then [] else name + " = ") + value == sep + Line(name, value)
  {
    if name[0] != '"' {
      assert sep + (name + " = ") + value == sep + (name + " = " + value);
    } else {
      assert sep + [] == sep;
    }
  }

  /** One value at a whole name with room for its line: the line follows
      a newline unless it is the first. */
  lemma {:induction false} ValueAt(text: string, first: bool, capacity: nat, names: string, c: nat, name: string, value: string)
    requires first <==> text == []
    requires c < |names| && Nul in names[c..] && CString(names, c) == name && name != [] && value != []
    requires EmptyNameAhead(names, c)
    requires |(if first then [] else text + "\n") + Line(name, value)| < capacity
    ensures ValueAppended(Render(text, Some(c)), capacity, names, value)
         == Render((if first then [] else text + "\n") + Line(name, value), Some(c + |name| + 1))
  {
    Room(text, first, capacity, name, value);
    NextNameAt(text, capacity, names, c, name);
    var named := Separated(text, capacity) + (if name[0] == '"' then [] else name + " = ");
    var r1 := NextName(Render(text, Some(c)), capacity, names);
    assert r1 == Render(named, Some(c + |name| + 1));
    assert ValueAppended(Render(text, Some(c)), capacity, names, value) == Render(Appended(r1.text, capacity, value), r1.cursor);
    assert Appended(named, capacity, value) == named + value;
    LineJoined(Separated(text, capacity), name, value);
  }

  /** RenderAll of a prefix one longer is one more value. */
  lemma RenderAllLast(r: Render, capacity: nat, names: string, values: seq<string>, k: nat)
    requires CursorOk(names, r.cursor) && 0 < k <= |values|
    ensures RenderAll(r, capacity, names, values[..k])
         == ValueAppended(RenderAll(r, capacity, names, values[..k - 1]), capacity, names, values[k - 1])
  {
    assert values[..k][..k - 1] == values[..k - 1];
  }

  /** Lines of a prefix one longer: one more line, after a newline unless
      it is the first. */
  lemma LinesLast(args: seq<string>, values: seq<string>, k: nat)
    requires |args| == |values| && 0 < k <= |args|
    requires forall i | 0 <= i < |args| :: values[i] != []
    ensures var prev := Lines(args[..k - 1], values[..k - 1]);
      (k == 1 <==> prev == []) &&
      Lines(args[..k], values[..k]) == (if k == 1 then [] else prev + "\n") + Line(args[k - 1], values[k - 1])
  {
    var j := k - 1;
    assert args[..k][..j] == args[..j] && values[..k][..j] == values[..j];
    if j > 0 {
      assert args[..j][..j - 1] == args[..j - 1] && values[..j][..j - 1] == values[..j - 1];
      assert |Line(args[..j][j - 1], values[..j][j - 1])| >= |values[j - 1]| > 0;
    } else {
      assert values[..0] == [];
    }
  }

  /** The `k`-th value renders its line after the first `k - 1` lines. */
  lemma {:induction false} RenderStep(args: seq<string>, values: seq<string>, capacity: nat, lit: string, k: nat)
    requires |args| == |values| && 0 < k <= |args|
    requires forall i | 0 <= i < |args| :: values[i] != []
    requires args[k - 1] != [] && SlotAt(lit, args, k - 1) && EmptyNameAhead(lit, Off(args, k - 1))
    requires |Lines(args[..k], values[..k])| < capacity
    ensures ValueAppended(Render(Lines(args[..k - 1], values[..k - 1]), Some(Off(args, k - 1))), capacity, lit, values[k - 1])
         == Render(Lines(args[..k], values[..k]), Some(Off(args, k)))
  {
    var j := k - 1;
    LinesLast(args, values, k);
    var c := Off(args, j);
    var prev := Lines(args[..j], values[..j]);
    var line := (if j == 0 then [] else prev + "\n") + Line(args[j], values[j]);
    assert Lines(args[..k], values[..k]) == line;
    SlotName(lit, c, args[j]);
    ValueAt(prev, j == 0, capacity, lit, c, args[j], values[j]);
    assert Off(args, k) == c + |args[j]| + 1;
    assert ValueAppended(Render(prev, Some(c)), capacity, lit, values[j]) == Render(line, Some(Off(args, k)));
  }

  /** With room for the whole text, the first `k` values render as
      "name = value" lines, and the cursor stands at the next name. */
  lemma {:induction false} RenderedLines(args: seq<string>, values: seq<string>, capacity: nat, lit: string, k: nat)
    requires |args| == |values| && k <= |args|
    requires forall i | 0 <= i < |args| :: args[i] != [] && values[i] != []
    requires LaidOut(lit, args, k) && EmptyNameAhead(lit, 0)
    requires |Lines(args[..k], values[..k])| < capacity
    ensures RenderAll(Render([], Some(0)), capacity, lit, values[..k])
         == Render(Lines(args[..k], values[..k]), Some(Off(args, k)))
  {
    if k > 0 {
      var start := Render([], Some(0));
      LinesLast(args, values, k);
      RenderedLines(args, values, capacity, lit, k - 1);
      var before := RenderAll(start, capacity, lit, values[..k - 1]);
      assert EmptyNameAhead(lit, Off(args, k - 1)) by {
        assert CursorOk(lit, before.cursor);
      }
      RenderStep(args, values, capacity, lit, k);
      RenderAllLast(start, capacity, lit, values, k);
    } else {
      assert args[..0] == [] && values[..0] == [];
    }
  }

  /** HEART_TO_DEBUG_STR with room for the whole text: one "name = value"
      line per value, in order. */
  lemma HeartToDebugStr(args: seq<string>, values: seq<string>, capacity: nat)
    requires |args| == |values| <= 10
    requires forall i | 0 <= i < |args| :: NameOk(args[i]) && values[i] != []
    requires |Lines(args, values)| < capacity
    ensures EmptyNameAhead(StringifyNames(args), 0)
    ensures RenderAll(Render([], Some(0)), capacity, StringifyNames(args), values).text == Lines(args, values)
  {
    NamesLayout(args);
    LayoutLaidOut(StringifyNames(args), args, |args|);
    assert args[..|args|] == args && values[..|values|] == values;
    RenderedLines(args, values, capacity, StringifyNames(args), |args|);
  }

  /** The cursor as AppendNextName evidently intends to move it: past the
      whole name, whatever the buffer took of it. */
  function IntendedCursor(cursor: Option<nat>, names: string): (r: Option<nat>)
    requires CursorOk(names, cursor)
    ensures CursorOk(names, r)
  {
    if cursor.None? then None
    else
      var c := cursor.value;
      EmptyNameAheadInside(names, c);
      if names[c] == Nul then cursor
      else
        StepKeepsEmptyNameAhead(names, c, Strlen(names, c) + 1);
        Some(c + Strlen(names, c) + 1)
  }

  /** AppendNextName as evidently intended: the same text, the intended
      cursor. */
  function IntendedNextName(r: Render, capacity: nat, names: string): (r': Render)
    requires CursorOk(names, r.cursor)
    ensures CursorOk(names, r'.cursor)
  {
    Render(NextName(r, capacity, names).text, IntendedCursor(r.cursor, names))
  }

  /** The intended cursor after `n` names. */
  function IntendedWalk(cursor: Option<nat>, names: string, n: nat): (r: Option<nat>)
    requires CursorOk(names, cursor)
    ensures CursorOk(names, r)
  {
    if n == 0 then cursor else IntendedCursor(IntendedWalk(cursor, names, n - 1), names)
  }

  /** The fold of operator() with the intended advance: its cursor takes
      one intended step per value, whatever the buffer took. */
  function IntendedRenderAll(r: Render, capacity: nat, names: string, values: seq<string>): (r': Render)
    requires CursorOk(names, r.cursor)
    ensures r'.cursor == IntendedWalk(r.cursor, names, |values|)
  {
    if values == [] then r
    else
      var r1 := IntendedNextName(IntendedRenderAll(r, capacity, names, values[..|values| - 1]), capacity, names);
      Render(Appended(r1.text, capacity, values[|values| - 1]), r1.cursor)
  }

  lemma {:induction false} IntendedCursorAt(names: string, c: nat, name: string)
    requires c < |names| && Nul in names[c..] && CString(names, c) == name && name != []
    requires EmptyNameAhead(names, c)
    ensures IntendedCursor(Some(c), names) == Some(c + |name| + 1)
  {
    StrlenBound(names, c);
    assert names[c..c + |name|][0] == names[c];
  }

  lemma {:induction false} IntendedCursorWalk(args: seq<string>, lit: string, k: nat)
    requires k <= |args|
    requires forall i | 0 <= i < |args| :: args[i] != []
    requires LaidOut(lit, args, k) && EmptyNameAhead(lit, 0)
    ensures IntendedWalk(Some(0), lit, k) == Some(Off(args, k))
  {
    if k > 0 {
      var j := k - 1;
      IntendedCursorWalk(args, lit, j);
      assert SlotAt(lit, args, j);
      SlotName(lit, Off(args, j), args[j]);
      IntendedCursorAt(lit, Off(args, j), args[j]);
    }
  }

  /** With the intended advance, whatever the capacity, the name looked up
      for the `k`-th value is the `k`-th argument's. */
  lemma IntendedCursorFollowsNames(args: seq<string>, values: seq<string>, capacity: nat, k: nat)
    requires |args| == |values| <= 10 && k < |args|
    requires forall i | 0 <= i < |args| :: NameOk(args[i])
    ensures EmptyNameAhead(StringifyNames(args), 0)
    ensures var r := IntendedRenderAll(Render([], Some(0)), capacity, StringifyNames(args), values[..k]);
      r.cursor.Some? && r.cursor.value < |StringifyNames(args)| && Nul in StringifyNames(args)[r.cursor.value..] &&
      CString(StringifyNames(args), r.cursor.value) == args[k]
  {
    var lit := StringifyNames(args);
    NamesLayout(args);
    LayoutLaidOut(lit, args, k);
    IntendedCursorWalk(args, lit, k);
    assert SlotAt(lit, args, k);
    SlotName(lit, Off(args, k), args[k]);
  }

  /** A four-byte buffer cannot take the name "abcd": its Append writes
      nothing, the cursor moves on by one, and the second value is looked
      up under "bcd" instead of "x". */
  lemma TruncatedNameShiftsCursor()
    ensures var lit := StringifyNames(["abcd", "x"]);
      EmptyNameAhead(lit, 0) &&
      RenderAll(Render([], Some(0)), 4, lit, ["1"]) == Render(" = ", Some(1)) &&
      Nul in lit[1..] && CString(lit, 1) == "bcd" &&
      IntendedRenderAll(Render([], Some(0)), 4, lit, ["1"]).cursor == Some(5) &&
      Nul in lit[5..] && CString(lit, 5) == "x"
  {
    var args := ["abcd", "x"];
    var lit := StringifyNames(args);
    NamesLayout(args);
    assert Off(args, 1) == 5;
    assert SlotAt(lit, args, 0) && SlotAt(lit, args, 1);
    SlotName(lit, 0, "abcd");
    SlotName(lit, 5, "x");
    StrlenEnds(lit, 0);
    assert lit[1..4] == "bcd";
    StrlenIs(lit, 1, 3);
    assert ["1"][..0] == [];
    assert NextName(Render([], Some(0)), 4, lit) == Render(" = ", Some(1));
    IntendedCursorAt(lit, 0, "abcd");
  }

  /**
   * strcpy_s(dest + at, room, src): copies `src` and its NUL when they fit
   * in `room` bytes; otherwise writes a NUL at `dest[at]` only. The bytes
   * after that NUL, up to `room`, take unspecified values (section K.3.7.1.3
   * of C11; a debug CRT fills them): `fill` supplies them, `fill[j]` for
   * offset `j` from `at`. Bytes outside the `room` bytes keep their values.
   */
  method StrCpyS(dest: array<char>, at: nat, room: nat, src: string, fill: seq<char>)
    requires 0 < room && at + room <= dest.Length && |fill| == room
    modifies dest
    ensures |src| < room ==>
      dest[..] == old(dest[..])[..at] + src + [Nul] + fill[|src| + 1..] + old(dest[..])[at + room..]
    ensures room <= |src| ==>
      dest[..] == old(dest[..])[..at] + [Nul] + fill[1..] + old(dest[..])[at + room..]
  {
    var n := if |src| < room then |src| else 0;
    var i := 0;
    while i < room
      invariant 0 <= i <= room
      invariant forall k | 0 <= k < dest.Length && !(at <= k < at + i) :: dest[k] == old(dest[k])
      invariant forall k | at <= k < at + i ::
        dest[k] == if k - at < n then src[k - at] else if k - at == n then Nul else fill[k - at]
    {
      dest[at + i] := if i < n then src[i] else if i == n then Nul else fill[i];
      i := i + 1;
    }
    ghost var written := old(dest[..])[..at] + src[..n] + [Nul] + fill[n + 1..] + old(dest[..])[at + room..];
    assert dest[..] == written by {
      forall k | 0 <= k < dest.Length ensures dest[k] == written[k] {
        if k < at {
        } else if k < at + n {
          assert written[k] == src[k - at];
        } else if k == at + n {
        } else if k < at + room {
          assert written[k] == fill[k - at];
        }
      }
    }
    assert n == |src| ==> src[..n] == src;
  }

  /** WriteDebugValue through sprintf_s: `rendered` is the value's text
      (the formatting itself is not modelled). Returns the bytes written,
      0 when the text and its NUL do not fit; `fill` gives the unspecified
      bytes after the NUL, as for `StrCpyS`. */
  method WriteDebugValue(dest: array<char>, at: nat, room: nat, rendered: string, fill: seq<char>) returns (w: nat)
    requires at + room <= dest.Length && |fill| == room
    modifies dest
    ensures w == (if |rendered| < room then |rendered| else 0)
    ensures |rendered| < room ==>
      dest[..] == old(dest[..])[..at] + rendered + [Nul] + fill[|rendered| + 1..] + old(dest[..])[at + room..]
    ensures 0 < room <= |rendered| ==>
      dest[..] == old(dest[..])[..at] + [Nul] + fill[1..] + old(dest[..])[at + room..]
    ensures room == 0 ==> dest[..] == old(dest[..])
  {
    if room == 0 {
      return 0;
    }
    StrCpyS(dest, at, room, rendered, fill);
    w := if |rendered| < room then |rendered| else 0;
  }

  class HeartDebugStringify {
    const target: array?<char>
    const capacity: nat
    var size: nat
    /** macroified_names_: an offset into `namesText`, None for nullptr. */
    var names: Option<nat>
    const namesText: string

    /** The text is NUL-terminated inside the buffer and holds no NUL. */
    ghost predicate Valid()
      reads this, target
    {
      (target != null ==>
         target.Length == capacity &&
         (0 < capacity ==> size < capacity && target[size] == Nul && NoNul(target[..size]))) &&
      (target == null || capacity == 0 ==> size == 0) &&
      CursorOk(namesText, names)
    }

    ghost function State(): Render
      reads this, target
      requires Valid()
    {
      Render(if target != null then target[..size] else [], names)
    }

    /** `tgtLen` is the buffer's length; `namesLiteral` is None for nullptr. */
    constructor(tgt: array?<char>, tgtLen: nat, namesLiteral: Option<string>)
      requires tgt != null ==> tgt.Length == tgtLen
      requires namesLiteral.Some? ==> EmptyNameAhead(namesLiteral.value, 0)
      modifies tgt
      ensures Valid() && State() == Render([], if namesLiteral.Some? then Some(0) else None)
      ensures target == tgt && capacity == tgtLen
      ensures namesLiteral.Some? ==> namesText == namesLiteral.value
      ensures tgt != null && 0 < tgtLen ==> tgt[..] == old(tgt[..])[0 := Nul]
      ensures tgt != null && tgtLen == 0 ==> tgt[..] == old(tgt[..])
    {
      target := tgt;
      capacity := tgtLen;
      size := 0;
      names := if namesLiteral.Some? then Some(0) else None;
      namesText := if namesLiteral.Some? then namesLiteral.value else [];
      new;
      if capacity > 0 && target != null {
        target[0] := Nul;
      }
    }

    method Append(str: string) returns (written: nat)
      requires Valid() && target != null && NoNul(str)
      modifies target, this`size
      ensures Valid() && names == old(names)
      ensures target[..size] == Appended(old(target[..size]), capacity, str)
      ensures written == size - old(size)
    {
      var origSize := size;
      if size < capacity {
        ghost var before := target[..];
        StrCpyS(target, size, capacity - size, str, target[size..]);
        if |str| < capacity - size {
          assert target[..size + |str|] == before[..size] + str;
          StrlenIs(target[..], 0, size + |str|);
        } else {
          assert target[..size] == before[..size];
          StrlenIs(target[..], 0, size);
        }
        size := Strlen(target[..], 0);
      }
      written := size - origSize;
    }

    /** The newline AppendNextName writes between two lines. */
    method AppendSeparator()
      requires Valid() && target != null
      modifies target, this`size
      ensures Valid() && names == old(names)
      ensures target[..size] == Separated(old(target[..size]), capacity)
    {
      if size > 0 {
        var _ := Append("\n");
      }
    }

    /** An unquoted name, then " = "; the cursor moves on by the bytes the
        name's Append wrote, plus one. */
    method AppendName(c: nat)
      requires Valid() && target != null && names == Some(c)
      requires c < |namesText| && namesText[c] != Nul
      modifies target, this`size, this`names
      ensures Valid() && State() == NameAppended(old(target[..size]), capacity, namesText, c)
    {
      ghost var t0 := target[..size];
      StrlenEnds(namesText, c);
      var nameLength := Append(CString(namesText, c));
      ghost var t2 := target[..size];
      assert nameLength == |t2| - |t0|;
      assert NameAppended(t0, capacity, namesText, c) == Render(Appended(t2, capacity, " = "), Some(c + nameLength + 1));
      var _ := Append(" = ");
      StepKeepsEmptyNameAhead(namesText, c, nameLength + 1);
      names := Some(c + nameLength + 1);
      assert State() == Render(Appended(t2, capacity, " = "), Some(c + nameLength + 1));
    }

    method AppendNextName()
      requires Valid() && target != null
      modifies target, this`size, this`names
      ensures Valid() && State() == NextName(old(State()), capacity, namesText)
    {
      ghost var r0 := State();
      AppendSeparator();
      ghost var t1 := target[..size];
      assert t1 == Separated(r0.text, capacity);
      if names.None? {
        return;
      }
      var name := names.value;
      EmptyNameAheadInside(namesText, name);
      if namesText[name] == Nul {
        return;
      }
      if namesText[name] != '"' {
        AppendName(name);
      } else {
        var nameLength := Strlen(namesText, name);
        StepKeepsEmptyNameAhead(namesText, name, nameLength + 1);
        names := Some(name + nameLength + 1);
      }
    }

    method AppendValue(rendered: string)
      requires Valid() && target != null && NoNul(rendered)
      modifies target, this`size, this`names
      ensures Valid() && State() == ValueAppended(old(State()), capacity, namesText, rendered)
    {
      AppendNextName();
      ghost var before := target[..];
      var s := WriteDebugValue(target, size, capacity - size, rendered, target[size..]);
      if 0 < s {
        assert target[..size + s] == before[..size] + rendered;
      } else if 0 < capacity {
        assert target[..size] == before[..size];
      }
      size := size + s;
    }

    /** operator(): renders the values only into an empty buffer and
        returns the buffer in every case. */
    method Call(values: seq<string>) returns (r: array?<char>)
      requires Valid() && forall i | 0 <= i < |values| :: NoNul(values[i])
      modifies target, this`size, this`names
      ensures r == target && Valid()
      ensures 0 < capacity && target != null && old(target[0]) == Nul ==>
        State() == RenderAll(old(State()), capacity, namesText, values)
      ensures !(0 < capacity && target != null && old(target[0]) == Nul) ==>
        size == old(size) && names == old(names) && (target != null ==> target[..] == old(target[..]))
    {
      if capacity > 0 && target != null && target[0] == Nul {
        ghost var start := State();
        for i := 0 to |values|
          invariant Valid() && State() == RenderAll(start, capacity, namesText, values[..i])
        {
          assert values[..i + 1][..i] == values[..i];
          AppendValue(values[i]);
        }
        assert values[..|values|] == values;
      }
      r := target;
    }
  }

  /** HEART_TO_DEBUG_STR(tgt, tgtLen, args...): a stringifier over the
      names literal, called with the values; the buffer holds the rendered
      text, NUL-terminated. */
  method ToDebugStr(tgt: array<char>, args: seq<string>, values: seq<string>) returns (r: array<char>)
    requires |args| == |values| <= 10
    requires forall i | 0 <= i < |args| :: NoNul(args[i]) && NoNul(values[i])
    modifies tgt
    ensures EmptyNameAhead(StringifyNames(args), 0)
    ensures r == tgt
    ensures 0 < tgt.Length ==>
      var text := RenderAll(Render([], Some(0)), tgt.Length, StringifyNames(args), values).text;
      |text| < tgt.Length && tgt[..|text|] == text && tgt[|text|] == Nul
  {
    NamesLayout(args);
    var s := new HeartDebugStringify(tgt, tgt.Length, Some(StringifyNames(args)));
    if 0 < tgt.Length {
      assert tgt[0] == Nul;
    }
    var out := s.Call(values);
    r := tgt;
  }
}
