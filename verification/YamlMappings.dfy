/** `parseYamlMappings` and the reference check of scripts/validate-contract-assets.ts:
    a stack of open containers, and the declarative chain of enclosing mappings it
    computes. */
module YamlMappings {
  import opened Prelude
  import opened Text
  import opened JsonPointer
  import opened YamlScan

  datatype Error = TabInIndentation(line: nat) | BadScalar(line: nat)

  datatype Entry = Entry(key: string, value: string, indent: nat, line: nat, path: seq<string>)

  // ---------------------------------------------------------------------------
  // Lines

  /** `source.split(/\r?\n/u)` */
  function SplitLines(source: string): seq<string> {
    var parts := Split(source, '\n');
    seq(|parts|, i requires 0 <= i < |parts| =>
      var p := parts[i];
      if i + 1 < |parts| && p != "" && p[|p| - 1] == '\r' then p[..|p| - 1] else p)
  }

  /** `/^\s*\t/` */
  predicate TabIndented(line: string) {
    line != "" && (line[0] == '\t' || (Space(line[0]) && TabIndented(line[1..])))
  }

  function LeadingSpaces(line: string): (n: nat)
    ensures n <= |line|
  {
    if line != "" && line[0] == ' ' then 1 + LeadingSpaces(line[1..]) else 0
  }

  predicate DocumentMark(text: string) { Trim(text) == "---" || Trim(text) == "..." }

  predicate AnchorChar(c: char) { 'A' <= c <= 'Z' || 'a' <= c <= 'z' || '0' <= c <= '9' || c == '_' || c == '-' }

  /** The value of an entry that opens a nested mapping: none, or just an anchor. */
  predicate OpensContainer(value: string) {
    value == "" || (|value| > 1 && value[0] == '&' && forall i | 1 <= i < |value| :: AnchorChar(value[i]))
  }

  /** What one line contributes. */
  datatype Line = Nothing | Mapping(key: string, value: string, indent: nat) | Bad(error: Error)

  function ReadContent(json: Json, content: string, indent: nat, number: nat): Line {
    var colon := ColonFrom(content, 0);
    if colon == |content| || colon == 0 then Nothing
    else
      match ParseScalar(json, content[..colon])
      case None => Bad(BadScalar(number))
      case Some(key) => if key == "" then Nothing else Mapping(key, Trim(content[colon + 1..]), indent)
  }

  function ReadLine(json: Json, raw: string, number: nat): Line {
    if TabIndented(raw) then Bad(TabInIndentation(number))
    else
      var text := Uncommented(raw);
      if Trim(text) == "" || DocumentMark(text) then Nothing
      else
        var n := LeadingSpaces(text);
        var content := text[n..];
        if |content| >= 2 && content[..2] == "- " then ReadContent(json, content[2..], n + 2, number)
        else ReadContent(json, content, n, number)
  }

  // ---------------------------------------------------------------------------
  // The declarative reading

  /** Entry j is a container and every entry after it, up to i, is indented further. */
  predicate Encloses(es: seq<Entry>, j: nat, i: nat)
    requires j <= i < |es|
  {
    j < i && OpensContainer(es[j].value) && forall k | j < k <= i :: es[k].indent > es[j].indent
  }

  ghost predicate Ascending(a: seq<nat>) { forall m, m' | 0 <= m < m' < |a| :: a[m] < a[m'] }

  /** The entries before n that enclose entry i, outermost first. */
  function Enclosers(es: seq<Entry>, i: nat, n: nat): (chain: seq<nat>)
    requires n <= i < |es|
    ensures forall m | 0 <= m < |chain| :: chain[m] < n && Encloses(es, chain[m], i)
    ensures Ascending(chain)
    ensures forall j: nat | j < n && Encloses(es, j, i) :: j in chain
  {
    if n == 0 then [] else Enclosers(es, i, n - 1) + (if Encloses(es, n - 1, i) then [n - 1] else [])
  }

  function Keys(es: seq<Entry>, chain: seq<nat>): (keys: seq<string>)
    requires forall j | j in chain :: j < |es|
    ensures |keys| == |chain|
  {
    seq(|chain|, m requires 0 <= m < |chain| => assert chain[m] in chain; es[chain[m]].key)
  }

  /** The keys of the enclosing mappings of entry i, and its own. */
  function EnclosingPath(es: seq<Entry>, i: nat): seq<string>
    requires i < |es|
  {
    Keys(es, Enclosers(es, i, i)) + [es[i].key]
  }

  /** Every entry carries the path the declarative reading gives it. */
  ghost predicate WellPathed(es: seq<Entry>) {
    forall i | 0 <= i < |es| :: es[i].path == EnclosingPath(es, i)
  }

  ghost predicate SameMembers(a: seq<nat>, b: seq<nat>) { forall x :: x in a <==> x in b }

  lemma SameLast(a: seq<nat>, b: seq<nat>)
    requires Ascending(a) && Ascending(b) && SameMembers(a, b) && a != []
    ensures b != [] && a[|a| - 1] == b[|b| - 1]
    ensures SameMembers(a[..|a| - 1], b[..|b| - 1])
  {
    assert a[|a| - 1] in b;
    var x, y := a[|a| - 1], b[|b| - 1];
    assert y in a && x in b;
    assert x == y;
    var a', b' := a[..|a| - 1], b[..|b| - 1];
    forall z ensures z in a' <==> z in b' {
      if z in a' { assert z in a && z != x; }
      if z in b' { assert z in b && z != y; }
    }
  }

  /** An ascending sequence is determined by its members. */
  lemma {:induction false} AscendingUnique(a: seq<nat>, b: seq<nat>)
    requires Ascending(a) && Ascending(b) && SameMembers(a, b)
    ensures a == b
  {
    if a == [] {
      if b != [] { SameLast(b, a); }
    } else {
      SameLast(a, b);
      AscendingUnique(a[..|a| - 1], b[..|b| - 1]);
      assert a == a[..|a| - 1] + [a[|a| - 1]] && b == b[..|b| - 1] + [b[|b| - 1]];
    }
  }

  /** Entry j is still open: every entry after it is indented further. */
  predicate Open(es: seq<Entry>, j: nat)
    requires j < |es|
  {
    OpensContainer(es[j].value) && forall k | j < k < |es| :: es[k].indent > es[j].indent
  }

  /** The stack holds exactly the open containers, in order. */
  ghost predicate IsStack(es: seq<Entry>, at: seq<nat>) {
    && (forall m | 0 <= m < |at| :: at[m] < |es| && Open(es, at[m]))
    && Ascending(at)
    && (forall j: nat | j < |es| && Open(es, j) :: j in at)
  }

  /** What the next entry leaves open, and what it is enclosed by, are the same. */
  lemma NextEntry(es: seq<Entry>, e: Entry, j: nat)
    requires j < |es|
    ensures Encloses(es + [e], j, |es|) <==> Open(es, j) && es[j].indent < e.indent
    ensures Open(es + [e], j) <==> Open(es, j) && es[j].indent < e.indent
  {
    var es' := es + [e];
    assert es'[|es|] == e && forall k | 0 <= k < |es| :: es'[k] == es[k];
    if Open(es', j) {
      forall k | j < k < |es| ensures es[k].indent > es[j].indent { assert es'[k].indent > es'[j].indent; }
    }
  }

  /** Where the pops for entry e stop. */
  ghost predicate PoppedTo(es: seq<Entry>, at: seq<nat>, top: nat, e: Entry) {
    && IsStack(es, at) && top <= |at|
    && (forall m | 0 <= m < top :: es[at[m]].indent < e.indent)
    && (forall m | top <= m < |at| :: es[at[m]].indent >= e.indent)
  }

  lemma Survivors(es: seq<Entry>, at: seq<nat>, top: nat, e: Entry)
    requires PoppedTo(es, at, top, e)
    ensures forall j: nat | j < |es| :: j in at[..top] <==> Open(es, j) && es[j].indent < e.indent
  {
    forall j: nat | j < |es| && Open(es, j) && es[j].indent < e.indent ensures j in at[..top] {
      var m :| 0 <= m < |at| && at[m] == j;
      assert m < top;
      assert at[..top][m] == j;
    }
  }

  /** The open containers with less indentation than the next entry are its enclosers. */
  lemma StackGivesPath(es: seq<Entry>, at: seq<nat>, top: nat, e: Entry)
    requires PoppedTo(es, at, top, e)
    ensures Keys(es, at[..top]) + [e.key] == EnclosingPath(es + [e], |es|)
  {
    var es' := es + [e];
    Survivors(es, at, top, e);
    var chain := Enclosers(es', |es|, |es|);
    forall j: nat ensures j in at[..top] <==> j in chain {
      if j < |es| { NextEntry(es, e, j); }
    }
    AscendingUnique(at[..top], chain);
    assert Keys(es, at[..top]) == Keys(es', chain);
  }

  /** Dropping what the new entry closed keeps the stack right, up to the entry itself. */
  lemma StackAfterPops(es: seq<Entry>, at: seq<nat>, top: nat, e: Entry)
    requires PoppedTo(es, at, top, e)
    ensures forall m | 0 <= m < top :: at[m] < |es| && Open(es + [e], at[m])
    ensures forall j: nat | j < |es| && Open(es + [e], j) :: j in at[..top]
  {
    Survivors(es, at, top, e);
    forall m | 0 <= m < top ensures at[m] < |es| && Open(es + [e], at[m]) {
      NextEntry(es, e, at[m]);
    }
    forall j: nat | j < |es| && Open(es + [e], j) ensures j in at[..top] { NextEntry(es, e, j); }
  }

  lemma StackAfterPush(es: seq<Entry>, at: seq<nat>, top: nat, e: Entry)
    requires PoppedTo(es, at, top, e) && OpensContainer(e.value)
    ensures IsStack(es + [e], at[..top] + [|es|])
  {
    StackAfterPops(es, at, top, e);
    var es', kept := es + [e], at[..top];
    Pushed(kept, |es|);
    forall j: nat | j < |es'| && Open(es', j) ensures j in kept + [|es|] { assert j < |es| ==> j in kept; }
  }

  lemma Pushed(kept: seq<nat>, n: nat)
    requires Ascending(kept) && forall m | 0 <= m < |kept| :: kept[m] < n
    ensures Ascending(kept + [n])
    ensures forall j :: j in kept + [n] <==> j in kept || j == n
  {
  }

  lemma StackWithoutPush(es: seq<Entry>, at: seq<nat>, top: nat, e: Entry)
    requires PoppedTo(es, at, top, e) && !OpensContainer(e.value)
    ensures IsStack(es + [e], at[..top])
  {
    StackAfterPops(es, at, top, e);
    assert !Open(es + [e], |es|);
  }

  /** Containers further up the stack are indented further. */
  lemma StackIndentsIncrease(es: seq<Entry>, at: seq<nat>)
    requires IsStack(es, at)
    ensures forall m, m' | 0 <= m < m' < |at| :: es[at[m]].indent < es[at[m']].indent
  {
    forall m, m' | 0 <= m < m' < |at| ensures es[at[m]].indent < es[at[m']].indent {
      assert Open(es, at[m]);
    }
  }

  // ---------------------------------------------------------------------------
  // The code

  method ReadMappingContent(json: Json, content: string, indent: nat, number: nat) returns (line: Line)
    ensures line == ReadContent(json, content, indent, number)
  {
    var colon := FindMappingColon(content);
    if colon <= 0 { return Nothing; }
    var key := ParseScalar(json, content[..colon]);
    if key.None? { return Bad(BadScalar(number)); }
    var value := Trim(content[colon + 1..]);
    if key.value == "" { return Nothing; }
    return Mapping(key.value, value, indent);
  }

  method ReadMapping(json: Json, rawLine: string, number: nat) returns (line: Line)
    ensures line == ReadLine(json, rawLine, number)
  {
    if TabIndented(rawLine) { return Bad(TabInIndentation(number)); }
    var withoutComment := StripYamlComment(rawLine);
    if Trim(withoutComment) == "" || DocumentMark(withoutComment) { return Nothing; }
    var indent := LeadingSpaces(withoutComment);
    var content := withoutComment[indent..];
    if |content| >= 2 && content[..2] == "- " {
      line := ReadMappingContent(json, content[2..], indent + 2, number);
    } else {
      line := ReadMappingContent(json, content, indent, number);
    }
  }

  /** What every line contributes. */
  function ReadLines(json: Json, lines: seq<string>): seq<Line> {
    seq(|lines|, i requires 0 <= i < |lines| => ReadLine(json, lines[i], i + 1))
  }

  lemma LineOfLines(json: Json, lines: seq<string>, n: nat)
    requires n < |lines|
    ensures ReadLines(json, lines)[n] == ReadLine(json, lines[n], n + 1)
  {
  }

  /** The mappings among the first n lines, with their line numbers. */
  function Mappings(read: seq<Line>, n: nat): seq<(Line, nat)>
    requires n <= |read|
  {
    if n == 0 then []
    else
      var rest := Mappings(read, n - 1);
      if read[n - 1].Mapping? then rest + [(read[n - 1], n)] else rest
  }

  predicate GoodLines(read: seq<Line>, n: nat)
    requires n <= |read|
  {
    forall i | 0 <= i < n :: !read[i].Bad?
  }

  function ReadingOf(e: Entry): (Line, nat) { (Mapping(e.key, e.value, e.indent), e.line) }

  /** The entries are the mappings of the first n lines, each with its enclosing path. */
  ghost predicate EntriesOf(read: seq<Line>, n: nat, es: seq<Entry>)
    requires n <= |read|
  {
    var ms := Mappings(read, n);
    && |es| == |ms|
    && (forall i | 0 <= i < |es| :: ms[i] == ReadingOf(es[i]))
    && WellPathed(es)
  }

  /** Earlier paths do not depend on later entries. */
  lemma {:induction false} EnclosersAgree(es: seq<Entry>, es': seq<Entry>, i: nat, n: nat)
    requires n <= i < |es| && i < |es'|
    requires forall j: nat | j < n :: Encloses(es, j, i) <==> Encloses(es', j, i)
    ensures Enclosers(es, i, n) == Enclosers(es', i, n)
  {
    if n > 0 {
      EnclosersAgree(es, es', i, n - 1);
      assert Encloses(es, n - 1, i) <==> Encloses(es', n - 1, i);
    }
  }

  lemma EnclosersStable(es: seq<Entry>, e: Entry, i: nat, n: nat)
    requires n <= i < |es|
    ensures Enclosers(es + [e], i, n) == Enclosers(es, i, n)
  {
    forall j: nat | j < n ensures Encloses(es, j, i) <==> Encloses(es + [e], j, i) { EnclosesStable(es, e, j, i); }
    EnclosersAgree(es, es + [e], i, n);
  }

  lemma EnclosesStable(es: seq<Entry>, e: Entry, j: nat, i: nat)
    requires j <= i < |es|
    ensures Encloses(es + [e], j, i) <==> Encloses(es, j, i)
  {
    var es' := es + [e];
    assert forall k | 0 <= k < |es| :: es'[k] == es[k];
  }

  lemma PathsStable(es: seq<Entry>, e: Entry)
    requires WellPathed(es) && e.path == EnclosingPath(es + [e], |es|)
    ensures WellPathed(es + [e])
  {
    forall i | 0 <= i < |es| ensures (es + [e])[i].path == EnclosingPath(es + [e], i) {
      EnclosersStable(es, e, i, i);
      assert Keys(es + [e], Enclosers(es, i, i)) == Keys(es, Enclosers(es, i, i));
    }
  }

  /** Pops every entry indented as far as the new one or further. */
  method PopTo(stack: seq<Entry>, indent: nat) returns (rest: seq<Entry>)
    ensures rest <= stack
    ensures rest != [] ==> rest[|rest| - 1].indent < indent
    ensures forall m | |rest| <= m < |stack| :: stack[m].indent >= indent
  {
    rest := stack;
    while rest != [] && rest[|rest| - 1].indent >= indent
      invariant rest <= stack
      invariant forall m | |rest| <= m < |stack| :: stack[m].indent >= indent
    {
      rest := rest[..|rest| - 1];
    }
  }

  function StackKeys(stack: seq<Entry>): seq<string> { seq(|stack|, m requires 0 <= m < |stack| => stack[m].key) }

  /** The stack agrees with the open containers among the entries. */
  ghost predicate StackOk(es: seq<Entry>, stack: seq<Entry>, at: seq<nat>) {
    IsStack(es, at) && |stack| == |at| && forall m | 0 <= m < |at| :: stack[m] == es[at[m]]
  }

  lemma PopsDone(es: seq<Entry>, stack: seq<Entry>, at: seq<nat>, rest: seq<Entry>, e: Entry)
    requires StackOk(es, stack, at) && rest <= stack
    requires rest != [] ==> rest[|rest| - 1].indent < e.indent
    requires forall m | |rest| <= m < |stack| :: stack[m].indent >= e.indent
    ensures PoppedTo(es, at, |rest|, e) && StackKeys(rest) == Keys(es, at[..|rest|])
  {
    StackIndentsIncrease(es, at);
    var top := |rest|;
    assert forall m | 0 <= m < top :: rest[m] == stack[m] == es[at[m]];
  }

  lemma PushKeepsStack(es: seq<Entry>, stack: seq<Entry>, at: seq<nat>, rest: seq<Entry>, e: Entry)
    requires StackOk(es, stack, at) && rest <= stack && PoppedTo(es, at, |rest|, e) && OpensContainer(e.value)
    ensures StackOk(es + [e], rest + [e], at[..|rest|] + [|es|])
  {
    StackAfterPush(es, at, |rest|, e);
    assert forall m | 0 <= m < |rest| :: rest[m] == stack[m] && at[m] < |es|;
  }

  lemma PopsKeepStack(es: seq<Entry>, stack: seq<Entry>, at: seq<nat>, rest: seq<Entry>, e: Entry)
    requires StackOk(es, stack, at) && rest <= stack && PoppedTo(es, at, |rest|, e) && !OpensContainer(e.value)
    ensures StackOk(es + [e], rest, at[..|rest|])
  {
    StackWithoutPush(es, at, |rest|, e);
    assert forall m | 0 <= m < |rest| :: rest[m] == stack[m] && at[m] < |es|;
  }

  /** One mapping line: pop, take the path off the stack, and push if it is a container. */
  method AddMapping(mappings: seq<Entry>, stack: seq<Entry>, ghost at: seq<nat>, key: string, value: string, indent: nat, line: nat)
    returns (entry: Entry, newStack: seq<Entry>, ghost newAt: seq<nat>)
    requires StackOk(mappings, stack, at)
    ensures entry.key == key && entry.value == value && entry.indent == indent && entry.line == line
    ensures entry.path == EnclosingPath(mappings + [entry], |mappings|)
    ensures StackOk(mappings + [entry], newStack, newAt)
  {
    var rest := PopTo(stack, indent);
    entry := Entry(key, value, indent, line, StackKeys(rest) + [key]);
    PopsDone(mappings, stack, at, rest, entry);
    StackGivesPath(mappings, at, |rest|, entry);
    if OpensContainer(value) {
      PushKeepsStack(mappings, stack, at, rest, entry);
      newStack, newAt := rest + [entry], at[..|rest|] + [|mappings|];
    } else {
      PopsKeepStack(mappings, stack, at, rest, entry);
      newStack, newAt := rest, at[..|rest|];
    }
  }

  lemma EntriesExtend(read: seq<Line>, n: nat, es: seq<Entry>, e: Entry)
    requires n < |read| && EntriesOf(read, n, es) && (read[n], n + 1) == ReadingOf(e)
    requires e.path == EnclosingPath(es + [e], |es|)
    ensures EntriesOf(read, n + 1, es + [e])
  {
    PathsStable(es, e);
    var ms := Mappings(read, n);
    assert Mappings(read, n + 1) == ms + [ReadingOf(e)];
    forall i | 0 <= i <= |es| ensures (ms + [ReadingOf(e)])[i] == ReadingOf((es + [e])[i]) {
      if i < |es| { assert ms[i] == ReadingOf(es[i]); }
    }
  }

  /** The entries and the stack after the first n lines. */
  ghost predicate Parsed(read: seq<Line>, n: nat, mappings: seq<Entry>, stack: seq<Entry>, at: seq<nat>)
    requires n <= |read|
  {
    GoodLines(read, n) && EntriesOf(read, n, mappings) && StackOk(mappings, stack, at)
  }

  lemma NothingExtends(read: seq<Line>, n: nat, es: seq<Entry>)
    requires n < |read| && EntriesOf(read, n, es) && read[n] == Nothing
    ensures EntriesOf(read, n + 1, es)
  {
    assert Mappings(read, n + 1) == Mappings(read, n);
  }

  /** The callback of `forEach`; an error ends the process. */
  method AddLine(json: Json, rawLine: string, n: nat, ghost read: seq<Line>, mappings: seq<Entry>, stack: seq<Entry>, ghost at: seq<nat>)
    returns (error: Option<Error>, newMappings: seq<Entry>, newStack: seq<Entry>, ghost newAt: seq<nat>)
    requires n < |read| && read[n] == ReadLine(json, rawLine, n + 1) && Parsed(read, n, mappings, stack, at)
    ensures error.Some? ==> read[n] == Bad(error.value)
    ensures error.None? ==> Parsed(read, n + 1, newMappings, newStack, newAt)
  {
    error, newMappings, newStack, newAt := None, mappings, stack, at;
    var line := ReadMapping(json, rawLine, n + 1);
    match line
    case Bad(e) => error := Some(e);
    case Nothing => NothingExtends(read, n, mappings);
    case Mapping(key, value, indent) =>
      var entry;
      entry, newStack, newAt := AddMapping(mappings, stack, at, key, value, indent, n + 1);
      EntriesExtend(read, n, mappings, entry);
      newMappings := mappings + [entry];
  }

  /** What a reading of lines says of the result. */
  ghost predicate ParsedAs(read: seq<Line>, result: Result<seq<Entry>, Error>) {
    match result
    case Ok(mappings) => GoodLines(read, |read|) && EntriesOf(read, |read|, mappings)
    case Err(e) => exists n | 0 <= n < |read| :: GoodLines(read, n) && read[n] == Bad(e)
  }

  /** The loop over the lines, whose readings are `read`. */
  method ParseLines(json: Json, lines: seq<string>, ghost read: seq<Line>) returns (result: Result<seq<Entry>, Error>)
    requires read == ReadLines(json, lines)
    ensures ParsedAs(read, result)
  {
    var mappings: seq<Entry>, stack: seq<Entry> := [], [];
    ghost var at: seq<nat> := [];
    for n := 0 to |lines|
      invariant Parsed(read, n, mappings, stack, at)
    {
      LineOfLines(json, lines, n);
      var error;
      error, mappings, stack, at := AddLine(json, lines[n], n, read, mappings, stack, at);
      if error.Some? { return Err(error.value); }
    }
    return Ok(mappings);
  }

  /** All mappings of the source with their paths, or the first bad line's error. */
  method ParseYamlMappings(json: Json, source: string) returns (result: Result<seq<Entry>, Error>)
    ensures ParsedAs(ReadLines(json, SplitLines(source)), result)
  {
    var lines := SplitLines(source);
    result := ParseLines(json, lines, ReadLines(json, lines));
  }

  // ---------------------------------------------------------------------------
  // What the paths say

  lemma EnclosesTransitive(es: seq<Entry>, x: nat, j: nat, i: nat)
    requires x <= j <= i < |es| && Encloses(es, x, j) && Encloses(es, j, i)
    ensures Encloses(es, x, i)
  {
    forall k | x < k <= i ensures es[k].indent > es[x].indent {
      if k > j { assert es[k].indent > es[j].indent; }
    }
  }

  lemma AscendingPrefix(a: seq<nat>, m: nat, x: nat)
    requires Ascending(a) && m < |a|
    ensures x in a[..m] <==> x in a && x < a[m]
  {
    if x in a && x < a[m] {
      var n :| 0 <= n < |a| && a[n] == x;
      assert n < m;
      assert a[..m][n] == x;
    }
  }

  /** The chain of an enclosing mapping is the part of the chain in front of it. */
  lemma ChainOfEncloser(es: seq<Entry>, i: nat, m: nat)
    requires i < |es| && m < |Enclosers(es, i, i)|
    ensures var j := Enclosers(es, i, i)[m]; Enclosers(es, j, j) == Enclosers(es, i, i)[..m]
  {
    var chain := Enclosers(es, i, i);
    var j := chain[m];
    var inner := Enclosers(es, j, j);
    assert Encloses(es, j, i);
    forall x: nat ensures x in inner <==> x in chain[..m] {
      AscendingPrefix(chain, m, x);
      if x in inner { EnclosesTransitive(es, x, j, i); }
      if x in chain && x < j {
        assert Encloses(es, x, i);
        assert Encloses(es, x, j);
      }
    }
    AscendingUnique(inner, chain[..m]);
  }

  lemma KeysTake(es: seq<Entry>, chain: seq<nat>, n: nat)
    requires n <= |chain| && forall j | j in chain :: j < |es|
    ensures forall j | j in chain[..n] :: j < |es|
    ensures Keys(es, chain[..n]) == Keys(es, chain)[..n]
  {
    forall j | j in chain[..n] ensures j < |es| { assert j in chain; }
  }

  lemma EncloserPath(es: seq<Entry>, i: nat, m: nat)
    requires i < |es| && m < |Enclosers(es, i, i)|
    ensures EnclosingPath(es, Enclosers(es, i, i)[m]) == EnclosingPath(es, i)[..m + 1]
  {
    var chain := Enclosers(es, i, i);
    var keys, j := Keys(es, chain), chain[m];
    ChainOfEncloser(es, i, m);
    KeysTake(es, chain, m);
    assert EnclosingPath(es, i) == keys + [es[i].key];
    assert EnclosingPath(es, j) == keys[..m] + [keys[m]];
    TakeOneMore(keys, es[i].key, m);
  }

  lemma TakeOneMore(keys: seq<string>, key: string, m: nat)
    requires m < |keys|
    ensures keys[..m] + [keys[m]] == (keys + [key])[..m + 1]
  {
  }

  /** Every non-empty prefix of an emitted path was itself emitted, no later. */
  lemma PrefixesWereEmitted(es: seq<Entry>, i: nat, n: nat) returns (j: nat)
    requires WellPathed(es) && i < |es| && 0 < n <= |es[i].path|
    ensures j <= i && es[j].path == es[i].path[..n]
  {
    assert es[i].path == EnclosingPath(es, i);
    if n == |es[i].path| {
      assert es[i].path[..n] == es[i].path;
      return i;
    }
    j := Enclosers(es, i, i)[n - 1];
    EncloserPath(es, i, n - 1);
    assert es[j].path == EnclosingPath(es, j);
  }

  /** So every emitted entry is a fit target for a reference. */
  lemma EmittedPathsNonEmpty(es: seq<Entry>)
    requires WellPathed(es)
    ensures forall e | e in es :: e.path != [] && e.path[|e.path| - 1] == e.key
  {
    forall e | e in es ensures e.path != [] && e.path[|e.path| - 1] == e.key {
      var i :| 0 <= i < |es| && es[i] == e;
      assert e.path == EnclosingPath(es, i);
    }
  }

  /** Indentation grows strictly along a path. */
  lemma PathIndentsIncrease(es: seq<Entry>, i: nat, m: nat)
    requires i < |es| && m < |Enclosers(es, i, i)|
    ensures var chain := Enclosers(es, i, i);
            es[chain[m]].indent < if m + 1 < |chain| then es[chain[m + 1]].indent else es[i].indent
  {
    var chain := Enclosers(es, i, i);
    assert Encloses(es, chain[m], i);
  }

  // ---------------------------------------------------------------------------
  // References

  datatype RefError = BadReference(line: nat) | ExternalReference(line: nat) | MissingReference(line: nat)

  /** `startsWith("#/")` */
  predicate StartsInside(ref: string) { |ref| >= 2 && ref[..2] == "#/" }

  /** What is wrong with one `$ref` entry, given the emitted pointers. */
  function RefErrorOf(json: Json, pointers: set<string>, e: Entry): Option<RefError> {
    var ref := ParseScalar(json, e.value);
    if ref.None? then Some(BadReference(e.line))
    else if !StartsInside(ref.value) then Some(ExternalReference(e.line))
    else if ref.value !in pointers then Some(MissingReference(e.line))
    else None
  }

  function Pointers(es: seq<Entry>): set<string> { set e | e in es :: PointerFor(e.path) }

  /** A reference that is well formed and names the path of entry k. */
  ghost predicate Names(ref: string, es: seq<Entry>, k: nat) {
    k < |es| && ParsePointer(ref) == Some(es[k].path)
  }

  ghost predicate NamesSome(json: Json, es: seq<Entry>, value: string) {
    ParseScalar(json, value).Some? && exists k :: Names(ParseScalar(json, value).value, es, k)
  }

  lemma PointerNames(ref: string, es: seq<Entry>) returns (k: nat)
    requires ref in Pointers(es) && forall e | e in es :: e.path != []
    ensures Names(ref, es, k) && |ref| >= 2 && ref[..2] == "#/"
  {
    var e :| e in es && PointerFor(e.path) == ref;
    k :| 0 <= k < |es| && es[k] == e;
    ParsePointerFor(e.path);
  }

  lemma NameIsPointer(ref: string, es: seq<Entry>, k: nat)
    requires Names(ref, es, k)
    ensures ref in Pointers(es)
  {
    PointerForParse(ref);
    assert es[k] in es;
  }

  lemma RefIsFineIffItNames(json: Json, es: seq<Entry>, e: Entry)
    requires forall e | e in es :: e.path != []
    ensures RefErrorOf(json, Pointers(es), e) == None <==> NamesSome(json, es, e.value)
  {
    var ref := ParseScalar(json, e.value);
    if ref.Some? {
      if ref.value in Pointers(es) { var k := PointerNames(ref.value, es); }
      if k :| Names(ref.value, es, k) {
        NameIsPointer(ref.value, es, k);
        var k' := PointerNames(ref.value, es);
      }
    }
  }

  /** The references among the first n entries all name emitted paths. */
  ghost predicate ReferencesResolve(json: Json, es: seq<Entry>, n: nat)
    requires n <= |es|
  {
    forall i | 0 <= i < n && es[i].key == "$ref" :: NamesSome(json, es, es[i].value)
  }

  /** One `$ref`: it passes exactly when it names an emitted path, and otherwise the error
      says whether it cannot be read, points outside the document, or names nothing. */
  method CheckReference(json: Json, pointers: set<string>, entry: Entry, ghost es: seq<Entry>) returns (error: Option<RefError>)
    requires pointers == Pointers(es) && forall e | e in es :: e.path != []
    ensures error == None <==> NamesSome(json, es, entry.value)
    ensures error == Some(BadReference(entry.line)) <==> ParseScalar(json, entry.value).None?
    ensures error == Some(ExternalReference(entry.line)) <==>
              ParseScalar(json, entry.value).Some? && !StartsInside(ParseScalar(json, entry.value).value)
    ensures error == RefErrorOf(json, pointers, entry)
  {
    RefIsFineIffItNames(json, es, entry);
    var reference := ParseScalar(json, entry.value);
    if reference.None? { return Some(BadReference(entry.line)); }
    if !StartsInside(reference.value) { return Some(ExternalReference(entry.line)); }
    if reference.value !in pointers { return Some(MissingReference(entry.line)); }
    return None;
  }

  /** The first n entries' references resolve, and the next one is at fault. */
  ghost predicate FirstFault(json: Json, es: seq<Entry>, n: nat, error: Option<RefError>) {
    n < |es| && ReferencesResolve(json, es, n) && es[n].key == "$ref" && RefErrorOf(json, Pointers(es), es[n]) == error
  }

  lemma ResolveStep(json: Json, es: seq<Entry>, n: nat)
    requires n < |es| && (forall e | e in es :: e.path != []) && ReferencesResolve(json, es, n)
    ensures ReferencesResolve(json, es, n + 1) <==>
              (es[n].key == "$ref" ==> RefErrorOf(json, Pointers(es), es[n]) == None)
    ensures ReferencesResolve(json, es, |es|) ==> ReferencesResolve(json, es, n + 1)
  {
    RefIsFineIffItNames(json, es, es[n]);
  }

  /** Reports the first `$ref` that is not the pointer of an emitted path. */
  method CheckReferences(json: Json, mappings: seq<Entry>) returns (error: Option<RefError>)
    requires forall e | e in mappings :: e.path != []
    ensures error == None <==> ReferencesResolve(json, mappings, |mappings|)
    ensures error.Some? ==> exists n :: FirstFault(json, mappings, n, error)
  {
    var pointers := Pointers(mappings);
    error := None;
    for n := 0 to |mappings|
      invariant error == None && ReferencesResolve(json, mappings, n)
    {
      ResolveStep(json, mappings, n);
      if mappings[n].key == "$ref" {
        error := CheckReference(json, pointers, mappings[n], mappings);
        if error.Some? {
          assert FirstFault(json, mappings, n, error);
          return;
        }
      }
    }
  }
}
