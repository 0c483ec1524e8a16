/** Exactly which lines the strict decoder takes for a frame (internal/runnerclient/stream.go:87-175). */
module Frames {
  import opened Wrappers
  import opened Decimal
  import opened EventStore
  import opened Json
  import opened Sse

  /** A field line: the name, a colon, at most one space that does not count, and the value. */
  predicate IsField(line: string, name: string, value: string) {
    || line == name + ": " + value
    || (line == name + ":" + value && (value == "" || value[0] != ' '))
  }

  /** The name and the value that a line is cut into. */
  predicate CutsTo(line: string, name: string, value: string) {
    ColonAt(line) < |line| && line[..ColonAt(line)] == name && TrimSpace(line[ColonAt(line) + 1..]) == value
  }

  lemma PlainCut(name: string, value: string)
    requires ':' !in name && (value == "" || value[0] != ' ')
    ensures CutsTo(name + ":" + value, name, value)
  {
    var line := name + ":" + value;
    ColonOf(name, value);
    assert line[..|name|] == name;
    assert line[|name| + 1..] == value;
  }

  lemma Recomposed(line: string)
    requires ColonAt(line) < |line|
    ensures line == line[..ColonAt(line)] + ":" + line[ColonAt(line) + 1..] && ':' !in line[..ColonAt(line)]
  {
    ColonFound(line);
  }

  lemma CutIsField(line: string, name: string, value: string, rest: string)
    requires line == name + ":" + rest && TrimSpace(rest) == value
    ensures IsField(line, name, value)
  {
    if |rest| > 0 && rest[0] == ' ' {
      assert rest == " " + value;
      assert name + ":" + (" " + value) == name + ": " + value;
    }
  }

  lemma FieldExactly(line: string, name: string, value: string)
    requires ':' !in name
    ensures IsField(line, name, value) <==> CutsTo(line, name, value)
  {
    if line == name + ": " + value {
      FieldCut(name, value);
    } else if IsField(line, name, value) {
      PlainCut(name, value);
    }
    if CutsTo(line, name, value) {
      Recomposed(line);
      CutIsField(line, name, value, line[ColonAt(line) + 1..]);
    }
  }

  lemma {:induction false} ColonFound(s: string)
    ensures ColonAt(s) < |s| ==> s[ColonAt(s)] == ':'
    ensures ':' !in s[..ColonAt(s)]
  {
    if s != "" && s[0] != ':' {
      ColonFound(s[1..]);
      assert s[..ColonAt(s)] == [s[0]] + s[1..][..ColonAt(s[1..])];
    }
  }

  predicate NoFields(f: Frame) {
    f.id.None? && f.event.None? && f.data.None?
  }

  /** What one line makes of a frame: a comment only starts or goes on with a comment, and a field is one of the three
      names, not seen before and not behind a comment; each line counts with its line end towards 128 KiB. */
  predicate Takes(f: Frame, line: string, g: Frame) {
    && f.bytes + |line| <= 131072 && g.bytes == f.bytes + |line| + 1
    && if line != "" && line[0] == ':' then NoFields(f) && g == f.(commentOnly := true, bytes := g.bytes)
       else
         && !f.commentOnly && !g.commentOnly
         && (|| (IsField(line, "id", Text(g.id)) && f.id.None? && g == f.(id := Some(Text(g.id)), bytes := g.bytes))
             || (IsField(line, "event", Text(g.event)) && f.event.None? && g == f.(event := Some(Text(g.event)), bytes := g.bytes))
             || (IsField(line, "data", Text(g.data)) && f.data.None? && g == f.(data := Some(Text(g.data)), bytes := g.bytes)))
  }

  function Text(field: Option<string>): string {
    if field.None? then "" else field.value
  }

  lemma TakesField(f: Frame, line: string, g: Frame)
    requires !(line != "" && line[0] == ':')
    ensures Appended(f, line) == Some(g) <==> Takes(f, line, g)
  {
    FieldExactly(line, "id", Text(g.id));
    FieldExactly(line, "event", Text(g.event));
    FieldExactly(line, "data", Text(g.data));
  }

  /** The decoder takes exactly these lines. */
  lemma LineTakenExactly(f: Frame, line: string, g: Frame)
    ensures Appended(f, line) == Some(g) <==> Takes(f, line, g)
  {
    if !(line != "" && line[0] == ':') {
      TakesField(f, line, g);
    }
  }

  // ---------- Whole frames ----------

  function Folded(lines: seq<string>): Option<Frame> {
    if lines == [] then Some(NO_FRAME)
    else
      var f := Folded(lines[..|lines|-1]);
      if f.None? then None else Appended(f.value, lines[|lines|-1])
  }

  function Count(f: Frame): nat {
    (if f.id.Some? then 1 else 0) + (if f.event.Some? then 1 else 0) + (if f.data.Some? then 1 else 0)
  }

  /** The lines of a frame are all comments, or as many fields as it has. */
  lemma {:induction false} FoldedCounts(lines: seq<string>)
    requires Folded(lines).Some?
    ensures var f := Folded(lines).value;
            && (f.commentOnly ==> lines != [] && NoFields(f) && forall i :: 0 <= i < |lines| ==> lines[i] != "" && lines[i][0] == ':')
            && (!f.commentOnly ==> |lines| == Count(f))
  {
    if lines != [] {
      var front, last := lines[..|lines|-1], lines[|lines|-1];
      FoldedCounts(front);
      LineTakenExactly(Folded(front).value, last, Folded(lines).value);
    }
  }

  lemma TypeNames(a: Kind, b: Kind)
    ensures TypeName(a) == TypeName(b) <==> a == b
    ensures TypeName(a) != ""
  {
    assert TypeName(Started)[1] == 't' && TypeName(Stdout)[3] == 'o' && TypeName(Stderr)[3] == 'e';
    assert TypeName(Exited)[1] == 'x' && TypeName(Failed)[1] == 'a' && TypeName(Cancelled)[2] == 'n' && TypeName(TimedOut)[1] == 'i';
  }

  /** A finished frame is an event exactly if all three fields agree with the event that the data decodes to, and the
      number is written without leading zeros and fits 64 bits; it is a keepalive exactly if it is a comment. */
  lemma UnframedExactly(env: Env, f: Frame, e: Event)
    ensures Unframe(env, f) == Decoded(e) <==>
            && f.id == Some(Format(e.sequence)) && e.sequence <= 18_446_744_073_709_551_615
            && f.event == Some(TypeName(e.kind))
            && f.data.Some? && f.data.value != "" && env.json.unmarshal(f.data.value) == Some(e)
    ensures Unframe(env, f).Keepalive? <==> f.commentOnly && NoFields(f)
  {
    FormatValue(e.sequence);
    TypeNames(e.kind, e.kind);
    if e.sequence < UINT64_LIMIT {
      ParseFormat(e.sequence);
    }
  }

  function FieldOf(f: Frame, name: string): Option<string> {
    if name == "id" then f.id else if name == "event" then f.event else f.data
  }

  predicate IsName(name: string) {
    name == "id" || name == "event" || name == "data"
  }

  lemma OneName(line: string, a: string, b: string, x: string, y: string)
    requires IsName(a) && IsName(b) && IsField(line, a, x) && IsField(line, b, y)
    ensures a == b && x == y
  {
    FieldExactly(line, a, x);
    FieldExactly(line, b, y);
  }

  lemma NamesHaveNoColon(name: string)
    requires IsName(name)
    ensures ':' !in name
  {
  }

  /** Every field of the frame comes from one of its lines. */
  lemma {:induction false} FieldComesFrom(lines: seq<string>, name: string)
    requires IsName(name) && Folded(lines).Some? && FieldOf(Folded(lines).value, name).Some?
    ensures exists i :: 0 <= i < |lines| && IsField(lines[i], name, FieldOf(Folded(lines).value, name).value)
  {
    var front, last := lines[..|lines|-1], lines[|lines|-1];
    var f, g := Folded(front).value, Folded(lines).value;
    LineTakenExactly(f, last, g);
    if FieldOf(f, name) == FieldOf(g, name) {
      FieldComesFrom(front, name);
      var i :| 0 <= i < |front| && IsField(front[i], name, FieldOf(g, name).value);
      assert lines[i] == front[i];
    } else {
      assert IsField(lines[|lines|-1], name, FieldOf(g, name).value);
    }
  }

  function Set(f: Frame, name: string, value: string, size: nat): Frame {
    var g := f.(bytes := f.bytes + size + 1);
    if name == "id" then g.(id := Some(value)) else if name == "event" then g.(event := Some(value)) else g.(data := Some(value))
  }

  lemma AddField(f: Frame, line: string, name: string, value: string)
    requires IsName(name) && IsField(line, name, value) && FieldOf(f, name).None? && !f.commentOnly && f.bytes + |line| <= 131072
    ensures Appended(f, line) == Some(Set(f, name, value, |line|))
  {
    NamesHaveNoColon(name);
    assert line[0] == name[0];
    LineTakenExactly(f, line, Set(f, name, value, |line|));
  }

  lemma FoldedThree(a: string, b: string, c: string)
    ensures Folded([a, b, c]) ==
            match Appended(NO_FRAME, a)
            case None => None
            case Some(f) => (match Appended(f, b) case None => None case Some(g) => Appended(g, c))
  {
    assert [a, b, c][..2] == [a, b] && [a, b][..1] == [a] && [a][..0] == [];
    assert Folded([a]) == Appended(NO_FRAME, a);
    assert Folded([a, b]) == match Appended(NO_FRAME, a) case None => None case Some(f) => Appended(f, b);
  }

  /** Three lines with three different names make a frame with all three values. */
  lemma ThreeFold(a: string, b: string, c: string, names: seq<string>, values: seq<string>)
    requires |names| == |values| == 3 && IsName(names[0]) && IsName(names[1]) && IsName(names[2])
    requires names[0] != names[1] && names[0] != names[2] && names[1] != names[2]
    requires IsField(a, names[0], values[0]) && IsField(b, names[1], values[1]) && IsField(c, names[2], values[2])
    requires |a| + |b| + |c| + 2 <= 131072
    ensures Folded([a, b, c]).Some?
    ensures var f := Folded([a, b, c]).value;
            FieldOf(f, names[0]) == Some(values[0]) && FieldOf(f, names[1]) == Some(values[1]) && FieldOf(f, names[2]) == Some(values[2])
  {
    FoldedThree(a, b, c);
    AddField(NO_FRAME, a, names[0], values[0]);
    var f := Set(NO_FRAME, names[0], values[0], |a|);
    AddField(f, b, names[1], values[1]);
    AddField(Set(f, names[1], values[1], |b|), c, names[2], values[2]);
  }

  /** Line i is the number, line j the type and line k the data. */
  predicate Reads(lines: seq<string>, i: nat, j: nat, k: nat, number: string, kind: string, data: string) {
    && |lines| == 3 && i < 3 && j < 3 && k < 3 && i != j && i != k && j != k
    && IsField(lines[i], "id", number) && IsField(lines[j], "event", kind) && IsField(lines[k], "data", data)
  }

  lemma ReadsFold(lines: seq<string>, i: nat, j: nat, k: nat, number: string, kind: string, data: string)
    requires Reads(lines, i, j, k, number, kind, data) && |lines[0]| + |lines[1]| + |lines[2]| + 2 <= 131072
    ensures Folded(lines).Some?
    ensures var f := Folded(lines).value; f.id == Some(number) && f.event == Some(kind) && f.data == Some(data)
  {
    var names: seq<string> := ["", "", ""][i := "id"][j := "event"][k := "data"];
    var values := ["", "", ""][i := number][j := kind][k := data];
    ThreeFold(lines[0], lines[1], lines[2], names, values);
    assert lines == [lines[0], lines[1], lines[2]];
    assert FieldOf(Folded(lines).value, names[i]) == Some(values[i]);
    assert FieldOf(Folded(lines).value, names[j]) == Some(values[j]);
    assert FieldOf(Folded(lines).value, names[k]) == Some(values[k]);
  }

  lemma FoldReads(lines: seq<string>)
    requires Folded(lines).Some? && Count(Folded(lines).value) == 3
    ensures var f := Folded(lines).value;
            && (exists i: nat, j: nat, k: nat :: Reads(lines, i, j, k, f.id.value, f.event.value, f.data.value))
            && |lines[0]| + |lines[1]| + |lines[2]| + 2 <= 131072
  {
    var f := Folded(lines).value;
    FoldedCounts(lines);
    FieldComesFrom(lines, "id");
    FieldComesFrom(lines, "event");
    FieldComesFrom(lines, "data");
    var i: nat :| i < |lines| && IsField(lines[i], "id", f.id.value);
    var j: nat :| j < |lines| && IsField(lines[j], "event", f.event.value);
    var k: nat :| k < |lines| && IsField(lines[k], "data", f.data.value);
    if i == j {
      OneName(lines[i], "id", "event", f.id.value, f.event.value);
    }
    if i == k {
      OneName(lines[i], "id", "data", f.id.value, f.data.value);
    }
    if j == k {
      OneName(lines[j], "event", "data", f.event.value, f.data.value);
    }
    assert Reads(lines, i, j, k, f.id.value, f.event.value, f.data.value);
    FoldBytes(lines);
  }

  lemma FoldBytes(lines: seq<string>)
    requires |lines| == 3 && Folded(lines).Some?
    ensures |lines[0]| + |lines[1]| + |lines[2]| + 2 <= 131072
  {
    assert lines == [lines[0], lines[1], lines[2]];
    FoldedThree(lines[0], lines[1], lines[2]);
    var f := Appended(NO_FRAME, lines[0]).value;
    var g := Appended(f, lines[1]).value;
    LineTakenExactly(NO_FRAME, lines[0], f);
    LineTakenExactly(f, lines[1], g);
    LineTakenExactly(g, lines[2], Folded(lines).value);
  }

  /** Exactly which lines are taken for which event: three, of at most 128 KiB with the line ends between them, in any
      order: the event's number in its canonical form, the name of its type, and data that decodes to the event. */
  lemma FrameDecodesExactly(env: Env, lines: seq<string>, e: Event)
    ensures Folded(lines).Some? && Unframe(env, Folded(lines).value) == Decoded(e) <==>
            exists i: nat, j: nat, k: nat, data ::
              && Reads(lines, i, j, k, Format(e.sequence), TypeName(e.kind), data)
              && |lines[0]| + |lines[1]| + |lines[2]| + 2 <= 131072
              && data != "" && env.json.unmarshal(data) == Some(e) && e.sequence <= 18_446_744_073_709_551_615
  {
    if Folded(lines).Some? && Unframe(env, Folded(lines).value) == Decoded(e) {
      UnframedExactly(env, Folded(lines).value, e);
      FoldReads(lines);
    }
    if i: nat, j: nat, k: nat, data :|
         && Reads(lines, i, j, k, Format(e.sequence), TypeName(e.kind), data)
         && |lines[0]| + |lines[1]| + |lines[2]| + 2 <= 131072
         && data != "" && env.json.unmarshal(data) == Some(e) && e.sequence <= 18_446_744_073_709_551_615 {
      ReadsFold(lines, i, j, k, Format(e.sequence), TypeName(e.kind), data);
      UnframedExactly(env, Folded(lines).value, e);
    }
  }

  /** A line is read if it has at most 64 KiB with its line end, and then without it. */
  lemma LineReadExactly(line: string, rest: string)
    requires '\n' !in line
    ensures NextLine(line + "\n" + rest).Some? <==> |line| < 65536
    ensures |line| < 65536 ==>
              NextLine(line + "\n" + rest).value == if |line| > 0 && line[|line|-1] == '\r' then line[..|line|-1] else line
  {
    var all := line + "\n" + rest;
    LineEndOf(line, rest);
    assert all[..|line| + 1] == line + "\n" && (line + "\n")[..|line|] == line;
  }
}
