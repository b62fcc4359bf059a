/** `production_body` of scripts/api-sql-ratchet.py: cutting test modules out of a
    source text by matching braces. */
module ProductionBody {
  import opened Prelude
  import opened Text

  const MARKER := "#[cfg(test)]"
  const INNER := "#![cfg(test)]"

  /** The pattern stands at position k. */
  predicate At(s: string, pattern: string, k: int) {
    0 <= k <= k + |pattern| <= |s| && s[k..k + |pattern|] == pattern
  }

  ghost predicate Free(s: string) { forall k :: !At(s, MARKER, k) }

  // ---------------------------------------------------------------------------
  // A file that is a test module as a whole

  function AfterLine(s: string): (rest: string)
    ensures |rest| <= |s| && (s != "" ==> |rest| < |s|)
  {
    if s == "" then s else if s[0] == '\n' then s[1..] else AfterLine(s[1..])
  }

  /** The inner attribute comes first, after blank lines and `//` comments. */
  predicate TestOnly(s: string)
    decreases |s|
  {
    if s != "" && PySpace(s[0]) then TestOnly(s[1..])
    else if At(s, "//", 0) then TestOnly(AfterLine(s))
    else At(s, INNER, 0)
  }

  /** A `//` comment line, with the white space in front of it. */
  datatype Note = Note(lead: string, text: string)

  predicate Blank(s: string) { forall c | c in s :: PySpace(c) }

  function Notes(notes: seq<Note>): string {
    if notes == [] then "" else notes[0].lead + ("//" + (notes[0].text + ("\n" + Notes(notes[1..]))))
  }

  /** White space and comment lines, and behind them the attribute. */
  ghost predicate Opens(s: string, notes: seq<Note>, lead: string, tail: string) {
    && (forall note | note in notes :: Blank(note.lead) && '\n' !in note.text) && Blank(lead)
    && s == Notes(notes) + (lead + ("#![cfg(test)]" + tail))
  }

  lemma {:induction false} SkipBlank(lead: string, rest: string)
    requires Blank(lead)
    ensures TestOnly(lead + rest) == TestOnly(rest)
  {
    if lead == "" {
      assert lead + rest == rest;
    } else {
      assert lead[0] in lead && (lead + rest)[1..] == lead[1..] + rest;
      SkipBlank(lead[1..], rest);
    }
  }

  lemma {:induction false} AfterComment(text: string, rest: string)
    requires '\n' !in text
    ensures AfterLine(text + ("\n" + rest)) == rest
  {
    var s := text + ("\n" + rest);
    if text == "" {
      assert s == "\n" + rest && s[1..] == rest;
    } else {
      assert text[0] in text && s[1..] == text[1..] + ("\n" + rest);
      AfterComment(text[1..], rest);
    }
  }

  lemma SkipComment(text: string, rest: string)
    requires '\n' !in text
    ensures TestOnly("//" + (text + ("\n" + rest))) == TestOnly(rest)
  {
    var line := text + ("\n" + rest);
    var s := "//" + line;
    assert s[..2] == "//" && s[0] == '/' && At(s, "//", 0);
    assert s[1..] == "/" + line && s[1..][1..] == line;
    assert AfterLine(s) == AfterLine(line);
    AfterComment(text, rest);
  }

  lemma {:induction false} NotesOpen(s: string, notes: seq<Note>, lead: string, tail: string)
    requires Opens(s, notes, lead, tail)
    ensures TestOnly(s)
    decreases |notes|
  {
    if notes == [] {
      assert s == lead + (INNER + tail);
      SkipBlank(lead, INNER + tail);
      assert (INNER + tail)[..|INNER|] == INNER && (INNER + tail)[0] == '#';
    } else {
      var note, rest := notes[0], Notes(notes[1..]) + (lead + (INNER + tail));
      assert s == note.lead + ("//" + (note.text + ("\n" + rest)));
      SkipBlank(note.lead, "//" + (note.text + ("\n" + rest)));
      SkipComment(note.text, rest);
      NotesOpen(rest, notes[1..], lead, tail);
    }
  }

  lemma {:induction false} LineOf(s: string) returns (text: string)
    ensures '\n' !in text && (s == text || s == text + ("\n" + AfterLine(s)))
    ensures s == text ==> AfterLine(s) == ""
  {
    if s == "" {
      text := "";
    } else if s[0] == '\n' {
      text := "";
      assert s == "" + ("\n" + s[1..]);
    } else {
      var rest := LineOf(s[1..]);
      text := [s[0]] + rest;
      assert s == [s[0]] + s[1..];
    }
  }

  lemma BlankInFront(c: char, s: string, notes: seq<Note>, lead: string, tail: string) returns (notes': seq<Note>, lead': string)
    requires PySpace(c) && Opens(s, notes, lead, tail)
    ensures Opens([c] + s, notes', lead', tail)
  {
    if notes == [] {
      notes', lead' := [], [c] + lead;
      assert [c] + s == lead' + (INNER + tail);
    } else {
      var first := Note([c] + notes[0].lead, notes[0].text);
      assert forall note | note in notes[1..] :: note in notes;
      notes', lead' := [first] + notes[1..], lead;
      assert [c] + s == Notes(notes') + (lead + (INNER + tail));
    }
  }

  lemma CommentInFront(text: string, rest: string, notes: seq<Note>, lead: string, tail: string)
    requires '\n' !in text && Opens(rest, notes, lead, tail)
    ensures Opens("//" + (text + ("\n" + rest)), [Note("", text)] + notes, lead, tail)
  {
    var all := [Note("", text)] + notes;
    assert all[1..] == notes;
    assert Notes(all) == "//" + (text + ("\n" + Notes(notes)));
  }

  lemma {:induction false} OpensWith(s: string) returns (notes: seq<Note>, lead: string, tail: string)
    requires TestOnly(s)
    ensures Opens(s, notes, lead, tail)
    decreases |s|
  {
    if s != "" && PySpace(s[0]) {
      notes, lead, tail := OpensWith(s[1..]);
      notes, lead := BlankInFront(s[0], s[1..], notes, lead, tail);
      assert s == [s[0]] + s[1..];
    } else if At(s, "//", 0) {
      notes, lead, tail := OpensWith(AfterLine(s));
      var text := CommentLine(s);
      CommentInFront(text, AfterLine(s), notes, lead, tail);
      notes := [Note("", text)] + notes;
    } else {
      notes, lead, tail := [], "", s[|INNER|..];
      assert s == INNER + tail && Notes([]) == "";
    }
  }

  /** A comment with code behind it ends its line. */
  lemma CommentLine(s: string) returns (text: string)
    requires At(s, "//", 0) && TestOnly(AfterLine(s))
    ensures '\n' !in text && s == "//" + (text + ("\n" + AfterLine(s)))
  {
    var line := s[2..];
    assert s[..2] == "//" && s[1..][1..] == line;
    assert AfterLine(s) == AfterLine(line);
    text := LineOf(line);
    assert AfterLine(s) != "" by { assert !TestOnly(""); }
    assert s == "//" + line;
  }

  /** A file counts as nothing but test code exactly if only blank lines and `//` comments
      stand in front of the inner attribute. */
  lemma TestOnlyIff(s: string)
    ensures TestOnly(s) <==> exists notes, lead, tail :: Opens(s, notes, lead, tail)
  {
    if TestOnly(s) { var notes, lead, tail := OpensWith(s); }
    if notes, lead, tail :| Opens(s, notes, lead, tail) { NotesOpen(s, notes, lead, tail); }
  }

  // ---------------------------------------------------------------------------
  // One cut

  /** `s.find("#[cfg(test)]")`, from k on */
  function FindMarker(s: string, k: nat): (m: int)
    requires k <= |s|
    ensures m == -1 || k <= m
    ensures m >= 0 ==> At(s, MARKER, m)
    ensures forall j | k <= j && (m < 0 || j < m) :: !At(s, MARKER, j)
    decreases |s| - k
  {
    if At(s, MARKER, k) then k else if k == |s| then -1 else FindMarker(s, k + 1)
  }

  /** `s.find("{", k)` */
  function FindBrace(s: string, k: nat): (b: int)
    requires k <= |s|
    ensures b == -1 || (k <= b < |s| && s[b] == '{')
    ensures forall j | k <= j < (if b < 0 then |s| else b) :: s[j] != '{'
    decreases |s| - k
  {
    if k == |s| then -1 else if s[k] == '{' then k else FindBrace(s, k + 1)
  }

  /** Opening braces less closing braces in s[from..until]. */
  function Depth(s: string, from: nat, until: nat): int
    requires from <= until <= |s|
    decreases until
  {
    if from == until then 0
    else Depth(s, from, until - 1) + (if s[until - 1] == '{' then 1 else if s[until - 1] == '}' then -1 else 0)
  }

  /** The first point from k on where the braces counted from the first one return to
      depth zero, or -1. */
  function FindEnd(s: string, brace: nat, k: nat): (end: int)
    requires brace < k <= |s|
    ensures end == -1 || (k <= end <= |s| && Depth(s, brace, end) == 0)
    ensures forall j | k <= j < (if end < 0 then |s| + 1 else end) :: Depth(s, brace, j) != 0
    decreases |s| - k
  {
    if Depth(s, brace, k) == 0 then k else if k == |s| then -1 else FindEnd(s, brace, k + 1)
  }

  /** The end of the first block after position m, or -1. */
  function BlockEnd(s: string, m: nat): (end: int)
    requires m <= |s|
    ensures end == -1 || m < end <= |s|
  {
    var brace := FindBrace(s, m);
    if brace < 0 then -1 else FindEnd(s, brace, brace + 1)
  }

  /** The text without its test modules. */
  function Stripped(s: string): string
    decreases |s|
  {
    var m := FindMarker(s, 0);
    if m < 0 then s
    else
      var end := BlockEnd(s, m);
      if end < 0 then s[..m] else Stripped(s[..m] + s[end..])
  }

  function Body(source: string): string { if TestOnly(source) then "" else Stripped(source) }

  // ---------------------------------------------------------------------------
  // The code

  lemma MarkerUnique(s: string, m: int)
    requires 0 <= m && At(s, MARKER, m) && forall j | 0 <= j < m :: !At(s, MARKER, j)
    ensures FindMarker(s, 0) == m
  {
    var n := FindMarker(s, 0);
  }

  lemma EndUnique(s: string, brace: nat, end: int)
    requires brace < |s|
    requires end == -1 || (brace < end <= |s| && Depth(s, brace, end) == 0)
    requires forall j | brace < j < (if end < 0 then |s| + 1 else end) :: Depth(s, brace, j) != 0
    ensures FindEnd(s, brace, brace + 1) == end
  {
    var n := FindEnd(s, brace, brace + 1);
  }

  /** The scan for the closing brace. */
  method ScanBlock(out: string, brace: nat) returns (end: int)
    requires brace < |out| && out[brace] == '{'
    ensures end == FindEnd(out, brace, brace + 1)
  {
    var depth := 0;
    end := -1;
    for index := brace to |out|
      invariant depth == Depth(out, brace, index)
      invariant forall j | brace < j <= index :: Depth(out, brace, j) != 0
      invariant index > brace ==> depth > 0
    {
      var c := out[index];
      if c == '{' {
        depth := depth + 1;
      } else if c == '}' {
        depth := depth - 1;
        if depth == 0 {
          end := index + 1;
          EndUnique(out, brace, end);
          return;
        }
      }
      assert Depth(out, brace, index + 1) == depth;
    }
    EndUnique(out, brace, -1);
  }

  method ProductionBodyOf(source: string) returns (out: string)
    ensures out == Body(source)
  {
    if TestOnly(source) { return ""; }
    out := source;
    while true
      invariant Stripped(out) == Stripped(source)
      decreases |out|
    {
      var marker := FindMarker(out, 0);
      if marker == -1 { return; }
      var brace := FindBrace(out, marker);
      if brace == -1 { return out[..marker]; }
      var end := ScanBlock(out, brace);
      if end == -1 { return out[..marker]; }
      out := out[..marker] + out[end..];
    }
  }

  // ---------------------------------------------------------------------------
  // What every result is

  lemma FreePrefix(s: string, m: nat)
    requires m <= |s| && forall j | 0 <= j < m :: !At(s, MARKER, j)
    ensures Free(s[..m])
  {
    forall k ensures At(s[..m], MARKER, k) ==> 0 <= k < m && At(s, MARKER, k) {
      if 0 <= k <= k + |MARKER| <= m { assert s[..m][k..k + |MARKER|] == s[k..k + |MARKER|]; }
    }
  }

  /** No marker is left. */
  lemma {:induction false} StrippedIsFree(s: string)
    ensures Free(Stripped(s))
    decreases |s|
  {
    var m := FindMarker(s, 0);
    if m >= 0 {
      var end := BlockEnd(s, m);
      if end < 0 { FreePrefix(s, m); } else { StrippedIsFree(s[..m] + s[end..]); }
    }
  }

  /** The characters of t stand at these positions of s, in order. */
  ghost predicate Picks(t: string, s: string, at: seq<nat>) {
    && |at| == |t|
    && (forall i | 0 <= i < |t| :: at[i] < |s| && s[at[i]] == t[i])
    && (forall i, j | 0 <= i < j < |t| :: at[i] < at[j])
  }

  lemma PicksCut(t: string, s: string, m: nat, end: nat, at: seq<nat>) returns (outer: seq<nat>)
    requires m <= end <= |s| && Picks(t, s[..m] + s[end..], at)
    ensures Picks(t, s, outer)
  {
    outer := seq(|at|, i requires 0 <= i < |at| => if at[i] < m then at[i] else at[i] + (end - m));
  }

  /** The result is the source with some of its characters left out. */
  lemma {:induction false} StrippedIsPicked(s: string) returns (at: seq<nat>)
    ensures Picks(Stripped(s), s, at)
    decreases |s|
  {
    var m := FindMarker(s, 0);
    if m >= 0 && BlockEnd(s, m) >= 0 {
      var inner := StrippedIsPicked(s[..m] + s[BlockEnd(s, m)..]);
      at := PicksCut(Stripped(s), s, m, BlockEnd(s, m), inner);
    } else {
      at := seq(|Stripped(s)|, i => i);
    }
  }

  // ---------------------------------------------------------------------------
  // Where the block of a text ends

  /** Markers do not overlap. */
  lemma NoOverlap(p: string, tail: string, k: nat)
    requires k < |p|
    ensures At(p + MARKER + tail, MARKER, k) ==> At(p, MARKER, k)
  {
    var s, n := p + MARKER + tail, |p|;
    if k + |MARKER| <= n {
      assert p[k..k + |MARKER|] == s[k..k + |MARKER|];
    } else {
      assert s[k..k + |MARKER|][n - k] == s[n] == '#';
      assert MARKER[n - k] != '#';
    }
  }

  lemma MarkerAfter(p: string, tail: string)
    requires Free(p)
    ensures FindMarker(p + MARKER + tail, 0) == |p|
  {
    var s, n := p + MARKER + tail, |p|;
    assert s[n..n + |MARKER|] == MARKER;
    forall k | 0 <= k < n ensures !At(s, MARKER, k) { NoOverlap(p, tail, k); }
    MarkerUnique(s, n);
  }

  function Shift(end: int, n: nat): int { if end < 0 then -1 else end + n }

  lemma {:induction false} DepthShift(q: string, t: string, from: nat, until: nat)
    requires from <= until <= |t|
    ensures Depth(q + t, |q| + from, |q| + until) == Depth(t, from, until)
  {
    if from < until {
      DepthShift(q, t, from, until - 1);
      assert (q + t)[|q| + until - 1] == t[until - 1];
    }
  }

  lemma BraceUnique(s: string, m: nat, b: int)
    requires m <= |s| && (b == -1 || (m <= b < |s| && s[b] == '{'))
    requires forall j | m <= j < (if b < 0 then |s| else b) :: s[j] != '{'
    ensures FindBrace(s, m) == b
  {
    var n := FindBrace(s, m);
  }

  /** Behind text without an opening brace, the block is that of what follows. */
  lemma BlockEndShift(q: string, m: nat, t: string)
    requires m <= |q| && '{' !in q[m..]
    ensures BlockEnd(q + t, m) == Shift(BlockEnd(t, 0), |q|)
  {
    var s, b := q + t, FindBrace(t, 0);
    forall j | m <= j < |q| ensures s[j] != '{' { assert s[j] == q[m..][j - m]; }
    forall j | |q| <= j < |q| + (if b < 0 then |t| else b) ensures s[j] != '{' { assert s[j] == t[j - |q|]; }
    BraceUnique(s, m, Shift(b, |q|));
    if b >= 0 {
      var end, from := FindEnd(t, b, b + 1), |q| + b;
      forall j | from < j < (if end < 0 then |s| + 1 else |q| + end) ensures Depth(s, from, j) != 0 {
        DepthShift(q, t, b, j - |q|);
      }
      if end >= 0 { DepthShift(q, t, b, end); }
      EndUnique(s, from, Shift(end, |q|));
    }
  }

  lemma {:induction false} DepthExtend(t: string, tail: string, from: nat, until: nat)
    requires from <= until <= |t|
    ensures Depth(t + tail, from, until) == Depth(t, from, until)
  {
    if from < until {
      DepthExtend(t, tail, from, until - 1);
      assert (t + tail)[until - 1] == t[until - 1];
    }
  }

  /** More text does not move the end of a block, and cannot end one any sooner. */
  lemma BlockEndExtend(t: string, tail: string)
    ensures var end := BlockEnd(t, 0);
            if end >= 0 then BlockEnd(t + tail, 0) == end
            else BlockEnd(t + tail, 0) == -1 || BlockEnd(t + tail, 0) > |t|
  {
    var s, b := t + tail, FindBrace(t, 0);
    assert forall j | 0 <= j < |t| :: s[j] == t[j];
    if b < 0 {
      assert FindBrace(s, 0) < 0 || FindBrace(s, 0) >= |t|;
    } else {
      var end := FindEnd(t, b, b + 1);
      BraceUnique(s, 0, b);
      forall j | b < j <= |t| ensures Depth(s, b, j) == Depth(t, b, j) { DepthExtend(t, tail, b, j); }
      if end >= 0 { EndUnique(s, b, end); }
    }
  }

  // ---------------------------------------------------------------------------
  // Attributed items

  /** What one round keeps, given the marker it found. */
  function Kept(s: string, m: nat): string
    requires m <= |s|
  {
    if BlockEnd(s, m) < 0 then s[..m] else s[..m] + s[BlockEnd(s, m)..]
  }

  function Attributed(before: string, item: string, tail: string): string { before + "#[cfg(test)]" + item + tail }

  /** The braces of the text, counted from its first one, first match up at its end. */
  predicate Whole(item: string) { BlockEnd(item, 0) == |item| }

  lemma KeptOfAttributed(before: string, item: string, tail: string)
    ensures var end := BlockEnd(item + tail, 0);
            var s, m := Attributed(before, item, tail), |before|;
            && BlockEnd(s, m) == Shift(end, |before| + |MARKER|)
            && Kept(s, m) == if end < 0 then before else before + (item + tail)[end..]
  {
    var q, rest := before + MARKER, item + tail;
    assert Attributed(before, item, tail) == q + rest;
    assert q[|before|..] == MARKER;
    BlockEndShift(q, |before|, rest);
    assert (q + rest)[..|before|] == before;
    var end := BlockEnd(rest, 0);
    if end >= 0 { assert (q + rest)[|q| + end..] == rest[end..]; }
  }

  /** For any text behind the attribute, a round removes exactly that text if and only if
      its braces first match up at its end, or nothing follows and they never do. */
  lemma RoundRemovesItemIff(before: string, item: string, tail: string)
    requires Free(before)
    ensures var s := Attributed(before, item, tail);
            && FindMarker(s, 0) == |before|
            && (Kept(s, |before|) == before + tail <==> Whole(item) || (tail == "" && BlockEnd(item, 0) < 0))
  {
    var s, end := Attributed(before, item, tail), BlockEnd(item + tail, 0);
    assert s == before + MARKER + (item + tail);
    MarkerAfter(before, item + tail);
    KeptOfAttributed(before, item, tail);
    BlockEndExtend(item, tail);
    if tail == "" { assert item + tail == item; }
    if end == |item| { assert (item + tail)[end..] == tail; }
    if Kept(s, |before|) == before + tail { assert |Kept(s, |before|)| == |before| + |tail|; }
  }

  /** An item with an open brace too many, in a string or a character literal for one, and
      no closing brace behind it: everything behind the attribute leaves the count. */
  lemma OpenBraceSwallowsRest(before: string, item: string, tail: string)
    requires Free(before) && BlockEnd(item, 0) < 0 && '{' in item && '}' !in tail
    ensures Stripped(Attributed(before, item, tail)) == before
  {
    RoundRemovesItemIff(before, item, tail);
    KeptOfAttributed(before, item, tail);
    BlockEndExtend(item, tail);
    var s, b, end := item + tail, FindBrace(item, 0), BlockEnd(item + tail, 0);
    assert b >= 0;
    assert forall j | 0 <= j < |item| :: s[j] == item[j];
    BraceUnique(s, 0, b);
    if end > |item| {
      forall j | b < j <= |item| ensures Depth(s, b, j) == Depth(item, b, j) { DepthExtend(item, tail, b, j); }
      PositiveUntilEnd(item, b, |item|);
      NeverFalls(s, b, |item|, end);
    }
    assert Attributed(before, item, tail)[..|before|] == before;
  }

  /** A depth that starts at one and is never zero stays above it. */
  lemma {:induction false} PositiveUntilEnd(s: string, brace: nat, k: nat)
    requires brace < k <= |s| && s[brace] == '{' && forall j | brace < j <= k :: Depth(s, brace, j) != 0
    ensures Depth(s, brace, k) > 0
  {
    if k > brace + 1 {
      PositiveUntilEnd(s, brace, k - 1);
    } else {
      assert Depth(s, brace, brace) == 0;
    }
  }

  lemma {:induction false} NeverFalls(s: string, brace: nat, from: nat, until: nat)
    requires brace <= from <= until <= |s| && forall j | from <= j < until :: s[j] != '}'
    ensures Depth(s, brace, until) >= Depth(s, brace, from)
  {
    if from < until { NeverFalls(s, brace, from, until - 1); }
  }

  /** One such item: a brace in a character literal. */
  lemma LiteralBraceSwallowsRest(before: string, tail: string)
    requires Free(before) && '}' !in tail
    ensures Stripped(Attributed(before, "mod t{'{'}", tail)) == before
  {
    var item := "mod t{'{'}";
    BraceUnique(item, 0, 5);
    assert Depth(item, 5, 5) == 0 && Depth(item, 5, 6) == 1 && Depth(item, 5, 7) == 1;
    assert Depth(item, 5, 8) == 2 && Depth(item, 5, 9) == 2 && Depth(item, 5, 10) == 1;
    EndUnique(item, 5, -1);
    assert item[5] == '{';
    OpenBraceSwallowsRest(before, item, tail);
  }

  // ---------------------------------------------------------------------------
  // Whole items

  /** Braces that match up inside. */
  ghost predicate Balanced(s: string) {
    Depth(s, 0, |s|) == 0 && forall k | 0 <= k <= |s| :: Depth(s, 0, k) >= 0
  }

  function Braced(header: string, body: string): string { header + ("{" + body + "}") }

  /** A text without an opening brace, and one block whose braces match up. */
  ghost predicate IsBraced(item: string, header: string, body: string) {
    item == Braced(header, body) && '{' !in header && Balanced(body)
  }

  lemma BlockDepth(body: string, k: nat)
    requires k <= |body|
    ensures Depth("{" + body + "}", 0, 1 + k) == 1 + Depth(body, 0, k)
  {
    var s := "{" + body + "}";
    InnerDepth(s, body, k);
  }

  lemma {:induction false} InnerDepth(s: string, body: string, k: nat)
    requires s == "{" + body + "}" && k <= |body|
    ensures Depth(s, 0, 1 + k) == 1 + Depth(body, 0, k)
  {
    if k > 0 {
      InnerDepth(s, body, k - 1);
      assert s[k] == body[k - 1];
    } else {
      assert Depth(s, 0, 0) == 0 && s[0] == '{';
    }
  }

  lemma BracedIsWhole(header: string, body: string)
    requires '{' !in header && Balanced(body)
    ensures Whole(Braced(header, body))
  {
    var block := "{" + body + "}";
    forall j | 0 < j < |block| ensures Depth(block, 0, j) > 0 { BlockDepth(body, j - 1); }
    BlockDepth(body, |body|);
    assert block[|body| + 1] == '}';
    BraceUnique(block, 0, 0);
    EndUnique(block, 0, |block|);
    assert header[0..] == header;
    BlockEndShift(header, 0, block);
  }

  /** In a whole item the depth stays positive up to the closing brace at its end. */
  lemma WholeShape(item: string) returns (b: nat)
    requires Whole(item) && item != ""
    ensures b + 2 <= |item| && '{' !in item[..b] && item[b] == '{' && item[|item| - 1] == '}'
    ensures Depth(item, b, |item|) == 0 && forall k | b < k < |item| :: Depth(item, b, k) > 0
  {
    b := FindBrace(item, 0);
    assert forall j | 0 <= j < b :: item[..b][j] == item[j];
    assert Depth(item, b, b) == 0 && Depth(item, b, b + 1) == 1;
    forall k | b < k < |item| ensures Depth(item, b, k) > 0 { PositiveUntilEnd(item, b, k); }
    assert Depth(item, b, |item| - 1) > 0;
  }

  lemma BodyOfBlock(block: string, body: string)
    requires block == "{" + body + "}" && Depth(block, 0, |block|) == 0
    requires forall k | 0 < k < |block| :: Depth(block, 0, k) > 0
    ensures Balanced(body)
  {
    forall k | 0 <= k <= |body| ensures Depth(body, 0, k) >= 0 { BlockDepth(body, k); }
    BlockDepth(body, |body|);
    assert block[|body| + 1] == '}';
  }

  lemma Enclosed(block: string)
    requires |block| >= 2 && block[0] == '{' && block[|block| - 1] == '}'
    ensures block == "{" + block[1..|block| - 1] + "}"
  {
  }

  /** Every whole item is one: a header, and a block whose braces match up. */
  lemma WholeIsBraced(item: string) returns (header: string, body: string)
    requires Whole(item) && item != ""
    ensures IsBraced(item, header, body)
  {
    var b := WholeShape(item);
    var block := item[b..];
    header, body := item[..b], block[1..|block| - 1];
    assert item == header + block;
    forall k | 0 <= k <= |block| ensures Depth(block, 0, k) == Depth(item, b, b + k) { DepthShift(header, block, 0, k); }
    Enclosed(block);
    BodyOfBlock(block, body);
  }

  // ---------------------------------------------------------------------------
  // A whole file

  /** Production code with whole test items between. */
  datatype File = Last(text: string) | Then(text: string, item: string, rest: File)

  function Source(f: File): string {
    match f
    case Last(text) => text
    case Then(text, item, rest) => text + "#[cfg(test)]" + item + Source(rest)
  }

  function Production(f: File): string {
    match f
    case Last(text) => text
    case Then(text, _, rest) => text + Production(rest)
  }

  predicate GoodFile(f: File) {
    match f
    case Last(_) => true
    case Then(_, item, rest) => Whole(item) && GoodFile(rest)
  }

  lemma FreeFirst(s: string, t: string)
    requires Free(s + t)
    ensures Free(s)
  {
    FreePrefix(s + t, |s|);
    assert (s + t)[..|s|] == s;
  }

  /** One round on a file takes its first test item away. */
  lemma StripStep(clean: string, item: string, tail: string)
    requires Free(clean) && Whole(item)
    ensures Stripped(Attributed(clean, item, tail)) == Stripped(clean + tail)
  {
    RoundRemovesItemIff(clean, item, tail);
    KeptOfAttributed(clean, item, tail);
    BlockEndExtend(item, tail);
  }

  /** Behind production code that is already clean, exactly the test items go. */
  lemma {:induction false} StripsTestItems(before: string, f: File)
    requires GoodFile(f) && Free(before + Production(f))
    ensures Stripped(before + Source(f)) == before + Production(f)
    decreases f
  {
    match f
    case Last(text) =>
    case Then(text, item, rest) =>
      var clean := before + text;
      assert before + Source(f) == Attributed(clean, item, Source(rest));
      assert clean + Production(rest) == before + Production(f);
      FreeFirst(clean, Production(rest));
      StripStep(clean, item, Source(rest));
      StripsTestItems(clean, rest);
  }

  /** The file keeps exactly its production code, wherever it stands. */
  lemma BodyIsProduction(f: File)
    requires GoodFile(f) && Free(Production(f)) && !TestOnly(Source(f))
    ensures Body(Source(f)) == Production(f)
  {
    assert "" + Source(f) == Source(f) && "" + Production(f) == Production(f);
    StripsTestItems("", f);
  }

  /** The attribute on an item without braces, a `use` line for one, takes the function
      after it out of the count as well. */
  lemma UseLineSwallowsFunction(before: string, item: string, block: string, tail: string)
    requires Free(before) && '{' !in item && Whole(block)
    ensures Stripped(Attributed(before, item, block + tail)) == Stripped(before + tail)
  {
    ItemInFrontIsWhole(item, block);
    ItemJoinsBlock(before, item, block, tail);
    StripStep(before, item + block, tail);
  }

  lemma ItemInFrontIsWhole(item: string, block: string)
    requires '{' !in item && Whole(block)
    ensures Whole(item + block)
  {
    assert item[0..] == item;
    BlockEndShift(item, 0, block);
  }

  lemma ItemJoinsBlock(before: string, item: string, block: string, tail: string)
    ensures Attributed(before, item, block + tail) == Attributed(before, item + block, tail)
  {
    assert item + (block + tail) == (item + block) + tail;
  }
}
