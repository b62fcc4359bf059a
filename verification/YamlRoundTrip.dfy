/** Printing a tree of mappings as the text of a YAML file, and reading it back with
    `parseYamlMappings`: the parser emits exactly the tree's nodes, each with the path
    from the root. Every line may be written in any of the forms of `YamlLines`, with
    blank lines, comments and list items between. */
module YamlRoundTrip {
  import opened Prelude
  import opened Text
  import opened JsonPointer
  import opened YamlScan
  import opened YamlMappings
  import opened YamlLines

  /** A block of mapping entries: the lines in front of the first one, the line it is written
      on, its key, its value or anchor, the block nested in it, and the entries after it. */
  datatype Block = End | Item(front: seq<string>, line: string, key: string, value: string, nested: Block, next: Block)

  // ---------------------------------------------------------------------------
  // Printing

  /** Lines, and the entries that they hold. */
  datatype Printout = Printout(lines: seq<string>, entries: seq<Entry>)

  /** One more entry, behind the lines in front of it; its path leads from the root. */
  function Written(t: Printout, front: seq<string>, line: string, key: string, value: string, depth: nat, prefix: seq<string>): Printout {
    Printout(t.lines + front + [line], t.entries + [Entry(key, value, 2 * depth, |t.lines| + |front| + 1, prefix + [key])])
  }

  /** The text so far, followed by the block: an entry, what is nested in it, and the rest. */
  function Print(b: Block, depth: nat, prefix: seq<string>, t: Printout): Printout {
    match b
    case End => t
    case Item(front, line, key, value, nested, next) =>
      Print(next, depth, prefix, Print(nested, depth + 1, prefix + [key], Written(t, front, line, key, value, depth, prefix)))
  }

  function Printed(b: Block): Printout { Print(b, 0, [], Printout([], [])) }

  /** The text of a file with some lines behind the block, such as an empty one, and what it
      reads as. */
  function Source(b: Block, tail: seq<string>): string { Join(Printed(b).lines + tail, '\n') }

  function Nodes(b: Block): seq<Entry> { Printed(b).entries }

  /** A text without line breaks that does not end like one. */
  predicate OneLine(line: string) { '\n' !in line && (line != "" ==> line[|line| - 1] != '\r') }

  /** The line holds the key and a plain value, written in some style. */
  ghost predicate Writes(json: Json, line: string, key: string, value: string, depth: nat) {
    && key != "" && PlainValue(value) && OneLine(line)
    && exists style :: GoodStyle(json, style, key, value) && line == LineOf(style, key, value, depth)
  }

  /** The line holds no mapping. */
  ghost predicate Skips(line: string) { OneLine(line) && exists skip :: GoodSkip(skip) && line == SkipText(skip) }

  /** All entries are good. */
  ghost predicate GoodItems(json: Json, b: Block, depth: nat) {
    match b
    case End => true
    case Item(front, line, key, value, nested, next) =>
      && (forall l | l in front :: Skips(l)) && Writes(json, line, key, value, depth)
      && GoodItems(json, nested, depth + 1) && GoodItems(json, next, depth)
  }

  /** Nothing is nested under a scalar. */
  predicate Nests(b: Block) {
    match b
    case End => true
    case Item(_, _, _, value, nested, next) => (nested != End ==> OpensContainer(value)) && Nests(nested) && Nests(next)
  }

  ghost predicate Printable(json: Json, b: Block, tail: seq<string>) {
    GoodItems(json, b, 0) && Nests(b) && forall l | l in tail :: Skips(l)
  }

  // ---------------------------------------------------------------------------
  // The whole tree

  /** The readings of the lines have no error, and their mappings are the entries. */
  ghost predicate Yields(read: seq<Line>, es: seq<Entry>) {
    && GoodLines(read, |read|)
    && |Mappings(read, |read|)| == |es| && forall i | 0 <= i < |es| :: Mappings(read, |read|)[i] == ReadingOf(es[i])
  }

  ghost predicate ReadsAs(json: Json, lines: seq<string>, es: seq<Entry>) { Yields(ReadLines(json, lines), es) }

  lemma {:induction false} MappingsOfFront(read: seq<Line>, line: Line, n: nat)
    requires n <= |read|
    ensures Mappings(read + [line], n) == Mappings(read, n)
  {
    if n > 0 { MappingsOfFront(read, line, n - 1); }
  }

  lemma YieldsMore(read: seq<Line>, es: seq<Entry>, line: Line)
    requires Yields(read, es) && !line.Bad?
    ensures line.Nothing? ==> Yields(read + [line], es)
    ensures forall e | (line, |read| + 1) == ReadingOf(e) :: Yields(read + [line], es + [e])
  {
    MappingsOfFront(read, line, |read|);
    assert GoodLines(read + [line], |read| + 1);
  }

  lemma ReadOneMore(json: Json, lines: seq<string>, line: string)
    ensures ReadLines(json, lines + [line]) == ReadLines(json, lines) + [ReadLine(json, line, |lines| + 1)]
  {
  }

  /** However many lines there are in front, the line reads as nothing. */
  ghost predicate ReadsNothing(json: Json, line: string) { forall number: nat :: ReadLine(json, line, number) == Nothing }

  ghost predicate AllNothing(json: Json, lines: seq<string>) {
    lines == [] || (AllNothing(json, lines[..|lines| - 1]) && ReadsNothing(json, lines[|lines| - 1]))
  }

  ghost predicate ReadsMapping(json: Json, line: string, key: string, value: string, depth: nat) {
    forall number: nat :: ReadLine(json, line, number) == Mapping(key, value, 2 * depth)
  }

  ghost predicate AllRead(json: Json, b: Block, depth: nat) {
    match b
    case End => true
    case Item(front, line, key, value, nested, next) =>
      && AllNothing(json, front) && ReadsMapping(json, line, key, value, depth)
      && AllRead(json, nested, depth + 1) && AllRead(json, next, depth)
  }

  lemma WritesReads(json: Json, line: string, key: string, value: string, depth: nat)
    requires Writes(json, line, key, value, depth)
    ensures ReadsMapping(json, line, key, value, depth)
  {
    var style :| GoodStyle(json, style, key, value) && line == LineOf(style, key, value, depth);
    forall number: nat ensures ReadLine(json, line, number) == Mapping(key, value, 2 * depth) {
      LineReadsBack(json, style, key, value, depth, number);
    }
  }

  lemma SkipsReads(json: Json, line: string)
    requires Skips(line)
    ensures ReadsNothing(json, line)
  {
    var skip :| GoodSkip(skip) && line == SkipText(skip);
    forall number: nat ensures ReadLine(json, line, number) == Nothing { SkipReads(json, skip, number); }
  }

  lemma {:induction false} AllSkipsRead(json: Json, lines: seq<string>)
    requires forall l | l in lines :: Skips(l)
    ensures AllNothing(json, lines)
    decreases |lines|
  {
    if lines != [] {
      var n := |lines| - 1;
      forall l | l in lines[..n] ensures Skips(l) { assert l in lines; }
      AllSkipsRead(json, lines[..n]);
      SkipsReads(json, lines[n]);
    }
  }

  lemma {:induction false} GoodItemsRead(json: Json, b: Block, depth: nat)
    requires GoodItems(json, b, depth)
    ensures AllRead(json, b, depth)
    decreases b
  {
    match b
    case End =>
    case Item(front, line, key, value, nested, next) =>
      AllSkipsRead(json, front);
      WritesReads(json, line, key, value, depth);
      GoodItemsRead(json, nested, depth + 1);
      GoodItemsRead(json, next, depth);
  }

  lemma NothingRead(json: Json, before: seq<string>, es: seq<Entry>, line: string)
    requires ReadsAs(json, before, es) && ReadsNothing(json, line)
    ensures ReadsAs(json, before + [line], es)
  {
    assert ReadLine(json, line, |before| + 1) == Nothing;
    ReadOneMore(json, before, line);
    YieldsMore(ReadLines(json, before), es, Nothing);
  }

  lemma {:induction false} FrontReads(json: Json, lines: seq<string>, es: seq<Entry>, front: seq<string>)
    requires ReadsAs(json, lines, es) && AllNothing(json, front)
    ensures ReadsAs(json, lines + front, es)
    decreases |front|
  {
    if front == [] {
      assert lines + front == lines;
    } else {
      var n := |front| - 1;
      FrontReads(json, lines, es, front[..n]);
      var before := lines + front[..n];
      assert lines + front == before + [front[n]];
      NothingRead(json, before, es, front[n]);
    }
  }

  lemma EntryRead(json: Json, front: seq<string>, es: seq<Entry>, line: string, e: Entry)
    requires ReadsAs(json, front, es) && e.line == |front| + 1
    requires ReadLine(json, line, e.line) == Mapping(e.key, e.value, e.indent)
    ensures ReadsAs(json, front + [line], es + [e])
  {
    ReadOneMore(json, front, line);
    YieldsMore(ReadLines(json, front), es, Mapping(e.key, e.value, e.indent));
    assert (Mapping(e.key, e.value, e.indent), |front| + 1) == ReadingOf(e);
  }

  lemma LineRead(json: Json, before: seq<string>, es: seq<Entry>, line: string, key: string, value: string, depth: nat, path: seq<string>)
    requires ReadsAs(json, before, es) && ReadsMapping(json, line, key, value, depth)
    ensures ReadsAs(json, before + [line], es + [Entry(key, value, 2 * depth, |before| + 1, path)])
  {
    assert ReadLine(json, line, |before| + 1) == Mapping(key, value, 2 * depth);
    EntryRead(json, before, es, line, Entry(key, value, 2 * depth, |before| + 1, path));
  }

  lemma WrittenReads(json: Json, t: Printout, front: seq<string>, line: string, key: string, value: string, depth: nat, prefix: seq<string>)
    requires ReadsAs(json, t.lines, t.entries)
    requires AllNothing(json, front) && ReadsMapping(json, line, key, value, depth)
    ensures var t' := Written(t, front, line, key, value, depth, prefix); ReadsAs(json, t'.lines, t'.entries)
  {
    FrontReads(json, t.lines, t.entries, front);
    LineRead(json, t.lines + front, t.entries, line, key, value, depth, prefix + [key]);
  }

  lemma {:induction false} LinesReadBack(json: Json, b: Block, depth: nat, prefix: seq<string>, t: Printout)
    requires AllRead(json, b, depth) && ReadsAs(json, t.lines, t.entries)
    ensures var t' := Print(b, depth, prefix, t); ReadsAs(json, t'.lines, t'.entries)
    decreases b
  {
    match b
    case End =>
    case Item(front, line, key, value, nested, next) =>
      var t1 := Written(t, front, line, key, value, depth, prefix);
      WrittenReads(json, t, front, line, key, value, depth, prefix);
      LinesReadBack(json, nested, depth + 1, prefix + [key], t1);
      LinesReadBack(json, next, depth, prefix, Print(nested, depth + 1, prefix + [key], t1));
  }

  // ---------------------------------------------------------------------------
  // Its paths

  /** At this depth the first t stack entries stay, and their keys are the prefix. */
  ghost predicate AtDepth(es: seq<Entry>, at: seq<nat>, t: nat, depth: nat, prefix: seq<string>) {
    && IsStack(es, at) && t <= |at|
    && (forall m | 0 <= m < t :: es[at[m]].indent < 2 * depth)
    && (forall m | t <= m < |at| :: es[at[m]].indent >= 2 * depth)
    && Keys(es, at[..t]) == prefix
  }

  lemma AtDepthPopped(es: seq<Entry>, at: seq<nat>, t: nat, e: Entry, depth: nat, prefix: seq<string>)
    requires AtDepth(es, at, t, depth, prefix) && e.indent == 2 * depth
    ensures PoppedTo(es, at, t, e)
  {
  }

  lemma NodePath(es: seq<Entry>, at: seq<nat>, t: nat, e: Entry, depth: nat, prefix: seq<string>)
    requires WellPathed(es) && AtDepth(es, at, t, depth, prefix) && e.indent == 2 * depth && e.path == prefix + [e.key]
    ensures WellPathed(es + [e])
  {
    AtDepthPopped(es, at, t, e, depth, prefix);
    StackGivesPath(es, at, t, e);
    PathsStable(es, e);
  }

  lemma KeysKept(es: seq<Entry>, es': seq<Entry>, at: seq<nat>)
    requires es <= es' && forall j | j in at :: j < |es|
    ensures Keys(es', at) == Keys(es, at)
  {
    forall m | 0 <= m < |at| ensures at[m] < |es| && es'[at[m]] == es[at[m]] { assert at[m] in at; }
  }

  /** A container node: the stack then is ready for its children, and for a sibling. */
  lemma AppendContainer(es: seq<Entry>, at: seq<nat>, t: nat, e: Entry, depth: nat, prefix: seq<string>)
    requires AtDepth(es, at, t, depth, prefix) && e.indent == 2 * depth && OpensContainer(e.value)
    ensures var at' := at[..t] + [|es|];
            AtDepth(es + [e], at', t, depth, prefix) && AtDepth(es + [e], at', t + 1, depth + 1, prefix + [e.key])
  {
    AtDepthPopped(es, at, t, e, depth, prefix);
    StackAfterPush(es, at, t, e);
    var at' := at[..t] + [|es|];
    assert at'[..t] == at[..t] && at'[..t + 1] == at';
    KeysKept(es, es + [e], at[..t]);
    assert Keys(es + [e], at') == Keys(es + [e], at[..t]) + [e.key];
  }

  lemma AppendScalar(es: seq<Entry>, at: seq<nat>, t: nat, e: Entry, depth: nat, prefix: seq<string>)
    requires AtDepth(es, at, t, depth, prefix) && e.indent == 2 * depth && !OpensContainer(e.value)
    ensures AtDepth(es + [e], at[..t], t, depth, prefix)
  {
    AtDepthPopped(es, at, t, e, depth, prefix);
    StackWithoutPush(es, at, t, e);
    assert at[..t][..t] == at[..t];
    KeysKept(es, es + [e], at[..t]);
  }

  /** After the nested block, the stack is again ready for a sibling of its parent. */
  lemma BackUp(es: seq<Entry>, es': seq<Entry>, at: seq<nat>, at': seq<nat>, t: nat, depth: nat, prefix: seq<string>, path: seq<string>)
    requires AtDepth(es, at, t, depth, prefix) && t < |at| && es <= es'
    requires AtDepth(es', at', t + 1, depth + 1, path) && at'[..t + 1] == at[..t + 1]
    ensures AtDepth(es', at', t, depth, prefix) && at'[..t] == at[..t]
  {
    assert forall m | 0 <= m <= t :: at'[m] == at'[..t + 1][m] && at[m] == at[..t + 1][m];
    assert at'[..t] == at[..t];
    KeysKept(es, es', at[..t]);
    assert forall m | 0 <= m <= t :: at[m] < |es| && es'[at'[m]] == es[at[m]];
  }

  /** Well-pathed entries whose stack is ready at this depth. */
  ghost predicate Ready(es: seq<Entry>, at: seq<nat>, t: nat, depth: nat, prefix: seq<string>) {
    WellPathed(es) && AtDepth(es, at, t, depth, prefix)
  }

  /** One node: afterwards the stack is ready for what is nested in it, if anything is,
      and for the next sibling. */
  lemma AppendNode(es: seq<Entry>, at: seq<nat>, t: nat, e: Entry, depth: nat, prefix: seq<string>) returns (at': seq<nat>)
    requires Ready(es, at, t, depth, prefix) && e.indent == 2 * depth && e.path == prefix + [e.key]
    ensures Ready(es + [e], at', t, depth, prefix) && at'[..t] == at[..t]
    ensures OpensContainer(e.value) ==> Ready(es + [e], at', t + 1, depth + 1, prefix + [e.key])
  {
    NodePath(es, at, t, e, depth, prefix);
    if OpensContainer(e.value) {
      AppendContainer(es, at, t, e, depth, prefix);
      at' := at[..t] + [|es|];
    } else {
      AppendScalar(es, at, t, e, depth, prefix);
      at' := at[..t];
    }
  }

  lemma NodeWritten(t: Printout, at: seq<nat>, top: nat, front: seq<string>, line: string, key: string, value: string,
                    depth: nat, prefix: seq<string>)
    returns (at': seq<nat>)
    requires Ready(t.entries, at, top, depth, prefix)
    ensures var es' := Written(t, front, line, key, value, depth, prefix).entries;
            && t.entries <= es' && Ready(es', at', top, depth, prefix) && at'[..top] == at[..top]
            && (OpensContainer(value) ==> Ready(es', at', top + 1, depth + 1, prefix + [key]))
  {
    at' := AppendNode(t.entries, at, top, Entry(key, value, 2 * depth, |t.lines| + |front| + 1, prefix + [key]), depth, prefix);
  }

  /** Appending a block gives every entry its enclosing path and keeps the stack below. */
  lemma {:induction false} BlockIsWellPathed(t: Printout, at: seq<nat>, top: nat, b: Block, depth: nat, prefix: seq<string>)
    returns (at': seq<nat>)
    requires Nests(b) && Ready(t.entries, at, top, depth, prefix)
    ensures var es' := Print(b, depth, prefix, t).entries;
            t.entries <= es' && Ready(es', at', top, depth, prefix) && at'[..top] == at[..top]
    decreases b
  {
    match b
    case End => at' := at;
    case Item(front, line, key, value, nested, next) =>
      var path, t1 := prefix + [key], Written(t, front, line, key, value, depth, prefix);
      var t2 := Print(nested, depth + 1, path, t1);
      var at1 := NodeWritten(t, at, top, front, line, key, value, depth, prefix);
      var at2 := at1;
      if nested != End {
        at2 := BlockIsWellPathed(t1, at1, top + 1, nested, depth + 1, path);
        BackUp(t1.entries, t2.entries, at1, at2, top, depth, prefix, path);
      }
      at' := BlockIsWellPathed(t2, at2, top, next, depth, prefix);
  }

  // ---------------------------------------------------------------------------
  // Round trip

  /** Values and indentation determine the enclosing entries. */
  lemma SameEnclosers(es: seq<Entry>, es': seq<Entry>, i: nat, n: nat)
    requires |es| == |es'| && n <= i < |es|
    requires forall k | 0 <= k < |es| :: es[k].value == es'[k].value && es[k].indent == es'[k].indent
    ensures Enclosers(es, i, n) == Enclosers(es', i, n)
  {
    forall j: nat | j < n ensures Encloses(es, j, i) <==> Encloses(es', j, i) { SameEncloses(es, es', j, i); }
    EnclosersAgree(es, es', i, n);
  }

  lemma SameEncloses(es: seq<Entry>, es': seq<Entry>, j: nat, i: nat)
    requires |es| == |es'| && j < i < |es|
    requires forall k | 0 <= k < |es| :: es[k].value == es'[k].value && es[k].indent == es'[k].indent
    ensures Encloses(es, j, i) <==> Encloses(es', j, i)
  {
  }

  /** Two readings of the same lines are the same entries. */
  lemma EntriesUnique(read: seq<Line>, n: nat, es: seq<Entry>, es': seq<Entry>)
    requires n <= |read| && EntriesOf(read, n, es) && EntriesOf(read, n, es')
    ensures es == es'
  {
    var ms := Mappings(read, n);
    assert forall k | 0 <= k < |es| :: ms[k] == ReadingOf(es[k]) == ReadingOf(es'[k]);
    forall i | 0 <= i < |es| ensures es[i] == es'[i] {
      SameEnclosers(es, es', i, i);
      assert es[i].path == EnclosingPath(es, i) && es'[i].path == EnclosingPath(es', i);
      assert Keys(es, Enclosers(es, i, i)) == Keys(es', Enclosers(es', i, i));
    }
  }

  ghost predicate AllOneLine(b: Block) {
    match b
    case End => true
    case Item(front, line, _, _, nested, next) =>
      (forall l | l in front :: OneLine(l)) && OneLine(line) && AllOneLine(nested) && AllOneLine(next)
  }

  lemma {:induction false} GoodItemsAreLines(json: Json, b: Block, depth: nat)
    requires GoodItems(json, b, depth)
    ensures AllOneLine(b)
    decreases b
  {
    match b
    case End =>
    case Item(front, line, key, value, nested, next) =>
      forall l | l in front ensures OneLine(l) { assert Skips(l); }
      GoodItemsAreLines(json, nested, depth + 1);
      GoodItemsAreLines(json, next, depth);
  }

  ghost predicate OneLines(lines: seq<string>) { forall l | l in lines :: OneLine(l) }

  lemma WrittenLines(t: Printout, front: seq<string>, line: string, key: string, value: string, depth: nat, prefix: seq<string>)
    requires OneLines(t.lines) && OneLine(line) && forall l | l in front :: OneLine(l)
    ensures OneLines(Written(t, front, line, key, value, depth, prefix).lines)
  {
  }

  lemma {:induction false} PrintsLines(b: Block, depth: nat, prefix: seq<string>, t: Printout)
    requires AllOneLine(b) && OneLines(t.lines)
    ensures var t' := Print(b, depth, prefix, t);
            OneLines(t'.lines) && |t'.lines| >= |t.lines| + (if b == End then 0 else 1)
    decreases b
  {
    match b
    case End =>
    case Item(front, line, key, value, nested, next) =>
      var t1 := Written(t, front, line, key, value, depth, prefix);
      WrittenLines(t, front, line, key, value, depth, prefix);
      PrintsLines(nested, depth + 1, prefix + [key], t1);
      PrintsLines(next, depth, prefix, Print(nested, depth + 1, prefix + [key], t1));
  }

  /** Splitting the text of a file gives its lines back. */
  lemma SourceSplits(lines: seq<string>)
    requires lines != [] && forall l | l in lines :: OneLine(l)
    ensures SplitLines(Join(lines, '\n')) == lines
  {
    SplitJoin(lines, '\n');
    forall i | 0 <= i < |lines| ensures SplitLines(Join(lines, '\n'))[i] == lines[i] { assert OneLine(lines[i]); }
  }

  /** The lines with the ends that some of them have instead of a line feed alone. */
  function Ended(lines: seq<string>, crlf: seq<bool>): seq<string>
    requires |crlf| == |lines|
  {
    seq(|lines|, i requires 0 <= i < |lines| => if crlf[i] && i + 1 < |lines| then lines[i] + "\r" else lines[i])
  }

  /** So does splitting one whose lines end in a carriage return and a line feed, all of them
      or some. */
  lemma EndedSplits(lines: seq<string>, crlf: seq<bool>)
    requires lines != [] && |crlf| == |lines| && forall l | l in lines :: OneLine(l)
    ensures SplitLines(Join(Ended(lines, crlf), '\n')) == lines
  {
    var ended := Ended(lines, crlf);
    forall p | p in ended ensures '\n' !in p {
      var i :| 0 <= i < |lines| && ended[i] == p;
      assert OneLine(lines[i]);
    }
    SplitJoin(ended, '\n');
    forall i | 0 <= i < |lines| ensures SplitLines(Join(ended, '\n'))[i] == lines[i] {
      assert OneLine(lines[i]);
      assert crlf[i] && i + 1 < |lines| ==> ended[i][..|ended[i]| - 1] == lines[i];
    }
  }

  lemma LinesOfSource(json: Json, b: Block, tail: seq<string>, es: seq<Entry>)
    requires Printable(json, b, tail)
    ensures var read := ReadLines(json, Printed(b).lines + tail);
            GoodLines(read, |read|) && (EntriesOf(read, |read|, es) <==> es == Nodes(b))
  {
    var read, start := ReadLines(json, Printed(b).lines + tail), Printout([], []);
    GoodItemsRead(json, b, 0);
    LinesReadBack(json, b, 0, [], start);
    AllSkipsRead(json, tail);
    FrontReads(json, Printed(b).lines, Nodes(b), tail);
    assert Keys([], []) == [];
    var at := BlockIsWellPathed(start, [], 0, b, 0, []);
    assert EntriesOf(read, |read|, Nodes(b));
    if EntriesOf(read, |read|, es) {
      EntriesUnique(read, |read|, es, Nodes(b));
    }
  }

  lemma EmptySource(json: Json, es: seq<Entry>)
    ensures var read := ReadLines(json, SplitLines(""));
            GoodLines(read, |read|) && (EntriesOf(read, |read|, es) <==> es == [])
  {
    var read := ReadLines(json, SplitLines(""));
    assert SplitLines("") == [""];
    assert read == [Nothing];
    assert Mappings(read, 0) == [] && Mappings(read, 1) == [];
  }

  /** The parser reports no error on the text of a printed block, and the entries it emits
      are exactly the block's, with the paths from the root. */
  lemma PrintedBlockReadsBack(json: Json, b: Block, tail: seq<string>, es: seq<Entry>)
    requires Printable(json, b, tail)
    ensures var read := ReadLines(json, SplitLines(Source(b, tail)));
            GoodLines(read, |read|) && (EntriesOf(read, |read|, es) <==> es == Nodes(b))
  {
    var lines := Printed(b).lines + tail;
    if lines == [] {
      GoodItemsAreLines(json, b, 0);
      PrintsLines(b, 0, [], Printout([], []));
      EmptySource(json, es);
    } else {
      GoodItemsAreLines(json, b, 0);
      PrintsLines(b, 0, [], Printout([], []));
      forall l | l in lines ensures OneLine(l) { assert l in tail ==> Skips(l); }
      SourceSplits(lines);
      LinesOfSource(json, b, tail, es);
    }
  }

  /** The parser, run on the text of a printed block. */
  method ReadPrinted(json: Json, b: Block, tail: seq<string>) returns (mappings: seq<Entry>)
    requires Printable(json, b, tail)
    ensures mappings == Nodes(b)
  {
    var result := ParseYamlMappings(json, Source(b, tail));
    PrintedBlockReadsBack(json, b, tail, []);
    match result
    case Ok(found) =>
      PrintedBlockReadsBack(json, b, tail, found);
      return found;
    case Err(_) => assert false;
  }

  // ---------------------------------------------------------------------------
  // References in a printed tree

  /** The text is a quoted pointer of the path. */
  ghost predicate IsPointerTo(json: Json, text: string, path: seq<string>) {
    exists form: Form :: !form.Plain? && GoodScalar(json, form, PointerFor(path)) && text == ScalarText(form, PointerFor(path))
  }

  /** Every `$ref` holds the quoted pointer of some path. */
  ghost predicate PointsAt(json: Json, es: seq<Entry>, target: nat -> seq<string>) {
    forall i | 0 <= i < |es| && es[i].key == "$ref" :: target(i) != [] && IsPointerTo(json, es[i].value, target(i))
  }

  ghost predicate HasPath(es: seq<Entry>, path: seq<string>) { exists k :: 0 <= k < |es| && es[k].path == path }

  lemma PointerTextNames(json: Json, es: seq<Entry>, text: string, path: seq<string>)
    requires path != [] && IsPointerTo(json, text, path)
    ensures NamesSome(json, es, text) <==> HasPath(es, path)
  {
    var form: Form :| !form.Plain? && GoodScalar(json, form, PointerFor(path)) && text == ScalarText(form, PointerFor(path));
    ScalarReadsBack(json, form, PointerFor(path));
    ParsePointerFor(path);
    if k :| 0 <= k < |es| && es[k].path == path { assert Names(PointerFor(path), es, k); }
    if k: nat :| Names(PointerFor(path), es, k) { assert es[k].path == path; }
  }

  lemma ResolveIffTargetsExist(json: Json, es: seq<Entry>, target: nat -> seq<string>)
    requires PointsAt(json, es, target)
    ensures ReferencesResolve(json, es, |es|) <==> forall i | 0 <= i < |es| && es[i].key == "$ref" :: HasPath(es, target(i))
  {
    forall i | 0 <= i < |es| && es[i].key == "$ref" ensures NamesSome(json, es, es[i].value) <==> HasPath(es, target(i)) {
      PointerTextNames(json, es, es[i].value, target(i));
    }
  }

  /** From the text of a file to its references: those of a printed tree pass exactly when
      each of them points at a node of the tree. */
  method CheckPrinted(json: Json, b: Block, tail: seq<string>, ghost target: nat -> seq<string>) returns (error: Option<RefError>)
    requires Printable(json, b, tail) && PointsAt(json, Nodes(b), target)
    ensures error == None <==> forall i | 0 <= i < |Nodes(b)| && Nodes(b)[i].key == "$ref" :: HasPath(Nodes(b), target(i))
  {
    var es := ReadPrinted(json, b, tail);
    PrintedBlockReadsBack(json, b, tail, es);
    EmittedPathsNonEmpty(es);
    error := CheckReferences(json, es);
    ResolveIffTargetsExist(json, es, target);
  }
}
