/** Printing one line of a YAML mapping in the forms that openapi.yaml uses, and what
    `parseYamlMappings` reads off it. */
module YamlLines {
  import opened Prelude
  import opened YamlScan
  import opened YamlMappings

  // ---------------------------------------------------------------------------
  // Printing

  function Double(key: string): string {
    if key == "" then "" else (if key[0] == '\'' then "''" else [key[0]]) + Double(key[1..])
  }

  function Quoted(key: string): string { "'" + Double(key) + "'" }

  function Spaces(n: nat): string { seq(n, i => ' ') }

  /** A scalar as it is, in single quotes, or as the JSON text of a string. */
  datatype Form = Plain | Single | DoubleQuoted(inner: string)

  function ScalarText(form: Form, scalar: string): string {
    match form
    case Plain => scalar
    case Single => Quoted(scalar)
    case DoubleQuoted(inner) => "\"" + inner + "\""
  }

  /** How a line is written: the form of its key, whether it starts a list item, and what
      comment ends it. */
  datatype Style = Style(form: Form, dash: bool, comment: Option<string>)

  function Suffix(value: string): string { if value == "" then "" else " " + value }

  function Content(form: Form, key: string, value: string): string { ScalarText(form, key) + ":" + Suffix(value) }

  /** List items stand two columns to the left of what they hold. */
  function Front(dash: bool, depth: nat): string { if dash && depth > 0 then Spaces(2 * depth - 2) + "- " else Spaces(2 * depth) }

  function Tail(comment: Option<string>): string { if comment.Some? then " #" + comment.value else "" }

  function Body(style: Style, key: string, value: string, depth: nat): string {
    Front(style.dash, depth) + Content(style.form, key, value)
  }

  function LineOf(style: Style, key: string, value: string, depth: nat): string {
    Body(style, key, value, depth) + Tail(style.comment)
  }

  // ---------------------------------------------------------------------------
  // What can be printed so

  predicate Trimmed(s: string) { s != "" ==> !Space(s[0]) && !Space(s[|s| - 1]) }

  predicate Mark(c: char) { c in {'\'', '"', '[', ']', '{', '}'} }

  /** A key that needs no quotes. */
  predicate PlainKey(key: string) {
    && key != "" && Trimmed(key) && (|key| >= 2 ==> key[..2] != "- ")
    && forall k | 0 <= k < |key| :: PlainAt(key, k)
  }

  predicate PlainAt(key: string, k: nat)
    requires k < |key|
  {
    !Mark(key[k]) && key[k] != ':' && (key[k] == '#' ==> k > 0 && !Space(key[k - 1]))
  }

  predicate GoodScalar(json: Json, form: Form, scalar: string) {
    match form
    case Plain => PlainKey(scalar)
    case Single => true
    case DoubleQuoted(inner) => json("\"" + inner + "\"") == Some(scalar) && Escaped(inner)
  }

  /** A text without an end quote: every backslash takes a character with it. */
  predicate Escaped(inner: string) {
    if inner == "" then true
    else if inner[0] == '\\' then |inner| >= 2 && Escaped(inner[2..])
    else inner[0] != '"' && Escaped(inner[1..])
  }

  /** No comment starts in the text. */
  predicate Quiet(t: string) { forall k | 0 <= k < |t| :: !CommentAt(t, k) }

  /** A value that stands for itself after a colon: trimmed, and no comment starts in it. */
  predicate PlainValue(v: string) { Trimmed(v) && Quiet(Suffix(v)) }

  /** A comment is only seen behind a value that leaves no quote open. */
  predicate GoodStyle(json: Json, style: Style, key: string, value: string) {
    && GoodScalar(json, style.form, key)
    && (style.comment.Some? ==> ScanAt(Suffix(value), |Suffix(value)|).quote.None?)
  }

  // ---------------------------------------------------------------------------
  // Scanning a text in pieces

  lemma {:induction false} ScanPrefix(a: string, b: string, i: nat)
    requires i <= |a|
    ensures ScanAt(a + b, i) == ScanAt(a, i)
  {
    if i > 0 { ScanPrefix(a, b, i - 1); }
  }

  /** Where a scan stands as at the start, it goes on as from the start. */
  lemma {:induction false} ScanRestarts(a: string, b: string, j: nat)
    requires ScanAt(a, |a|) == START && j <= |b|
    ensures ScanAt(a + b, |a| + j) == ScanAt(b, j)
  {
    if j == 0 {
      ScanPrefix(a, b, |a|);
    } else {
      ScanRestarts(a, b, j - 1);
      assert (a + b)[|a| + j - 1] == b[j - 1];
    }
  }

  lemma Glue(a: string, b: string)
    requires ScanAt(a, |a|) == START && Quiet(a) && Quiet(b)
    ensures Quiet(a + b) && ScanAt(a + b, |a + b|) == ScanAt(b, |b|)
  {
    var s := a + b;
    forall k | 0 <= k < |s| ensures !CommentAt(s, k) {
      if k < |a| {
        ScanPrefix(a, b, k);
        assert !CommentAt(a, k);
      } else {
        ScanRestarts(a, b, k - |a|);
        assert !CommentAt(b, k - |a|);
        assert s[k] == b[k - |a|] && (k > |a| ==> s[k - 1] == b[k - |a| - 1]);
      }
    }
    ScanRestarts(a, b, |b|);
  }

  /** A text without quotes and brackets leaves the scan at the start. */
  lemma {:induction false} ScanUnmarked(t: string, i: nat)
    requires i <= |t| && forall k | 0 <= k < i :: !Mark(t[k])
    ensures ScanAt(t, i) == START
  {
    if i > 0 { ScanUnmarked(t, i - 1); }
  }

  const INSIDE := Scan(Some('\''), false, 0, 0)

  /** From inside a single quote, a doubled text leads back inside, and on the way the scan
      is outside the quote only in front of a quote character. */
  lemma {:induction false} ScanDoubled(s: string, from: nat, key: string)
    requires from + |Double(key)| <= |s| && s[from..from + |Double(key)|] == Double(key)
    requires ScanAt(s, from) == INSIDE
    ensures ScanAt(s, from + |Double(key)|) == INSIDE
    ensures forall k | from <= k < from + |Double(key)| :: ScanAt(s, k) == INSIDE || s[k] == '\''
    decreases |key|
  {
    if key != "" {
      var d, rest := Double(key), Double(key[1..]);
      var step := |d| - |rest|;
      assert s[from] == d[0] && (step == 2 ==> s[from + 1] == d[1] == '\'');
      assert ScanAt(s, from + 1) == Advance(INSIDE, d[0]);
      assert step == 2 ==> ScanAt(s, from + 2) == INSIDE;
      assert s[from + step..from + |d|] == s[from..from + |d|][step..] == rest;
      ScanDoubled(s, from + step, key[1..]);
    }
  }

  /** A scalar's text hides every colon and every comment sign in it. */
  ghost predicate Hides(t: string) {
    && t != "" && Trimmed(t) && Quiet(t) && ScanAt(t, |t|) == START && (forall k | 0 <= k < |t| :: !ColonAt(t, k))
    && (|t| >= 2 ==> t[..2] != "- ")
  }

  lemma QuotedHides(scalar: string)
    ensures Hides(Quoted(scalar))
  {
    var q, d := Quoted(scalar), Double(scalar);
    assert ScanAt(q, 1) == Advance(START, '\'') == INSIDE;
    assert q[1..1 + |d|] == d;
    ScanDoubled(q, 1, scalar);
    assert q[1 + |d|] == '\'' && |q| == |d| + 2;
    assert q[..2][0] == '\'';
    forall k | 0 <= k < |q| ensures !ColonAt(q, k) && !CommentAt(q, k) {
      assert ScanAt(q, k) == INSIDE || q[k] == '\'';
    }
  }

  const INSIDE_JSON := Scan(Some('"'), false, 0, 0)

  /** From inside a double quote, an escaped text leads back inside, and never outside. */
  lemma {:induction false} ScanEscaped(s: string, from: nat, inner: string)
    requires from + |inner| <= |s| && s[from..from + |inner|] == inner && Escaped(inner)
    requires ScanAt(s, from) == INSIDE_JSON
    ensures ScanAt(s, from + |inner|) == INSIDE_JSON
    ensures forall k | from <= k < from + |inner| :: ScanAt(s, k).quote == Some('"')
    decreases |inner|
  {
    if inner != "" {
      assert s[from] == inner[0];
      assert ScanAt(s, from + 1) == Advance(INSIDE_JSON, inner[0]);
      var step := if inner[0] == '\\' then 2 else 1;
      if step == 2 { assert ScanAt(s, from + 2) == INSIDE_JSON; }
      assert s[from + step..from + |inner|] == s[from..from + |inner|][step..] == inner[step..];
      ScanEscaped(s, from + step, inner[step..]);
    }
  }

  lemma JsonHides(inner: string)
    requires Escaped(inner)
    ensures Hides("\"" + inner + "\"")
  {
    var t := "\"" + inner + "\"";
    var n := |inner| + 1;
    assert ScanAt(t, 1) == Advance(START, '"') == INSIDE_JSON && t[1..n] == inner;
    ScanEscaped(t, 1, inner);
    assert t[n] == '"' && ScanAt(t, n + 1) == Advance(INSIDE_JSON, '"');
    assert t[..2][0] == '"';
    forall k | 0 <= k < |t| ensures !ColonAt(t, k) && !CommentAt(t, k) {
      if 1 <= k < n { assert ScanAt(t, k).quote == Some('"'); }
    }
  }

  /** Brackets and braces hide every colon between them. */
  lemma FlowHides(open: char, inner: string, close: char)
    requires (open == '[' && close == ']') || (open == '{' && close == '}')
    requires forall k | 0 <= k < |inner| :: !Mark(inner[k]) && (inner[k] == '#' ==> k > 0 && !Space(inner[k - 1]))
    ensures Hides([open] + inner + [close])
  {
    var t, n := [open] + inner + [close], |inner| + 1;
    var inside := Advance(START, open);
    assert forall k | 1 <= k < n :: t[k] == inner[k - 1] && !Mark(t[k]);
    forall k | 1 <= k <= n ensures ScanAt(t, k) == inside { ScanFlow(t, inside, k); }
    assert t[n] == close && ScanAt(t, n + 1) == Advance(inside, close) == START;
    assert t[..2][0] == open;
    forall k | 0 <= k < |t| ensures !ColonAt(t, k) && !CommentAt(t, k) {
      if 1 <= k < n { assert t[k] == inner[k - 1] && (k > 1 ==> t[k - 1] == inner[k - 2]); }
    }
  }

  lemma {:induction false} ScanFlow(t: string, inside: Scan, k: nat)
    requires 1 <= k <= |t| && inside == Advance(START, t[0]) && inside.quote == None
    requires forall j | 1 <= j < k :: !Mark(t[j])
    ensures ScanAt(t, k) == inside
  {
    if k > 1 { ScanFlow(t, inside, k - 1); } else { assert ScanAt(t, 1) == Advance(START, t[0]); }
  }

  lemma PlainHides(key: string)
    requires PlainKey(key)
    ensures Hides(key)
  {
    assert forall k | 0 <= k < |key| :: PlainAt(key, k) && !Mark(key[k]);
    forall k | 0 <= k <= |key| ensures ScanAt(key, k) == START { ScanUnmarked(key, k); }
    forall k | 0 <= k < |key| ensures !CommentAt(key, k) && !ColonAt(key, k) { assert PlainAt(key, k); }
  }

  lemma ScalarHides(json: Json, form: Form, scalar: string)
    requires GoodScalar(json, form, scalar)
    ensures Hides(ScalarText(form, scalar))
  {
    match form
    case Plain => PlainHides(scalar);
    case Single => QuotedHides(scalar);
    case DoubleQuoted(inner) => JsonHides(inner);
  }

  /** Every text on one line may stand quoted as a value, whatever it holds. */
  lemma QuotedIsPlain(text: string)
    ensures PlainValue(Quoted(text)) && ScanAt(Suffix(Quoted(text)), |Suffix(Quoted(text))|) == START
  {
    QuotedHides(text);
    assert ScanAt(" ", 1) == START;
    Glue(" ", Quoted(text));
  }

  // ---------------------------------------------------------------------------
  // Scalars

  lemma {:induction false} UndoubleDouble(key: string)
    ensures Undouble(Double(key)) == key
  {
    if key != "" {
      UndoubleDouble(key[1..]);
      var d, rest := Double(key), Double(key[1..]);
      if key[0] == '\'' {
        assert d[2..] == rest;
      } else {
        assert d[1..] == rest;
      }
      assert key == [key[0]] + key[1..];
    }
  }

  lemma TrimKeeps(s: string)
    requires Trimmed(s)
    ensures Trim(s) == s
  {
  }

  /** A scalar's text reads back as the scalar, in every form. */
  lemma ScalarReadsBack(json: Json, form: Form, scalar: string)
    requires GoodScalar(json, form, scalar)
    ensures ParseScalar(json, ScalarText(form, scalar)) == Some(scalar)
  {
    var t := ScalarText(form, scalar);
    ScalarHides(json, form, scalar);
    TrimKeeps(t);
    match form
    case Plain => assert PlainAt(scalar, 0);
    case Single =>
      assert t[1..|t| - 1] == Double(scalar);
      UndoubleDouble(scalar);
    case DoubleQuoted(inner) =>
  }

  lemma {:induction false} TrimSpaces(s: string, n: nat)
    requires Trimmed(s)
    ensures TrimEnd(s + Spaces(n)) == s
  {
    if n > 0 {
      var t := s + Spaces(n);
      assert t[..|t| - 1] == s + Spaces(n - 1) && t[|t| - 1] == ' ';
      TrimSpaces(s, n - 1);
    } else {
      assert s + Spaces(0) == s;
    }
  }

  lemma {:induction false} SkipSpaces(n: nat, s: string)
    requires s != "" && !Space(s[0])
    ensures TrimStart(Spaces(n) + s) == s
  {
    if n > 0 {
      assert (Spaces(n) + s)[1..] == Spaces(n - 1) + s;
      SkipSpaces(n - 1, s);
    } else {
      assert Spaces(0) + s == s;
    }
  }

  predicate InQuotes(s: string) {
    |s| >= 2 && s[0] == s[|s| - 1] && (s[0] == '\'' || s[0] == '"')
  }

  /** What stands in no quotes reads as itself, without the spaces around it. */
  lemma PlainScalarReads(json: Json, before: nat, s: string, after: nat)
    requires s != "" && Trimmed(s) && !InQuotes(s)
    ensures ParseScalar(json, Spaces(before) + s + Spaces(after)) == Some(s)
  {
    var t := s + Spaces(after);
    assert Spaces(before) + s + Spaces(after) == Spaces(before) + t;
    SkipSpaces(before, t);
    TrimSpaces(s, after);
  }

  // ---------------------------------------------------------------------------
  // One line

  lemma FrontIsQuiet(dash: bool, depth: nat)
    ensures var f := Front(dash, depth); Quiet(f) && ScanAt(f, |f|) == START
  {
    var f := Front(dash, depth);
    forall k | 0 <= k <= |f| ensures ScanAt(f, k) == START { ScanUnmarked(f, k); }
  }

  /** Nothing in the content starts a comment. */
  lemma ContentIsQuiet(json: Json, form: Form, key: string, value: string)
    requires GoodScalar(json, form, key) && PlainValue(value)
    ensures var c := Content(form, key, value); Quiet(c) && ScanAt(c, |c|) == ScanAt(Suffix(value), |Suffix(value)|)
  {
    var t := ScalarText(form, key);
    ScalarHides(json, form, key);
    assert ScanAt(":", 1) == START;
    Glue(t, ":");
    Glue(t + ":", Suffix(value));
  }

  /** Its colon is the one behind the key. */
  lemma ContentColon(json: Json, form: Form, key: string, value: string)
    requires GoodScalar(json, form, key)
    ensures 0 < |ScalarText(form, key)| && ColonFrom(Content(form, key, value), 0) == |ScalarText(form, key)|
  {
    var t, rest := ScalarText(form, key), ":" + Suffix(value);
    ScalarHides(json, form, key);
    assert Content(form, key, value) == t + rest;
    ColonBehind(t, rest);
  }

  lemma ColonBehind(t: string, rest: string)
    requires Hides(t) && rest != "" && rest[0] == ':'
    ensures ColonFrom(t + rest, 0) == |t|
  {
    var c := t + rest;
    forall k | 0 <= k <= |t| ensures ScanAt(c, k) == ScanAt(t, k) { ScanPrefix(t, rest, k); }
    forall k | 0 <= k < |t| ensures !ColonAt(c, k) { assert !ColonAt(t, k) && c[k] == t[k]; }
    FirstColonIsUnique(c, |t|);
  }

  /** What the content starts and ends with. */
  lemma ContentEnds(json: Json, form: Form, key: string, value: string)
    requires GoodScalar(json, form, key) && Trimmed(value)
    ensures var c := Content(form, key, value); |c| >= 2 && Trimmed(c) && c[..2] != "- "
  {
    var t, c := ScalarText(form, key), Content(form, key, value);
    ScalarHides(json, form, key);
    assert c[0] == t[0] && c[|t|] == ':';
    assert c[|c| - 1] == if value == "" then ':' else value[|value| - 1];
    assert c[..2][1] == c[1];
    if |t| >= 2 { assert c[..2] == t[..2]; }
  }

  lemma ValueReadsBack(value: string)
    requires Trimmed(value)
    ensures Trim(Suffix(value)) == value
  {
    TrimKeeps(value);
    if value != "" { assert Suffix(value)[1..] == value; }
  }

  lemma ContentReadsBack(json: Json, form: Form, key: string, value: string, indent: nat, number: nat)
    requires GoodScalar(json, form, key) && PlainValue(value)
    ensures ReadContent(json, Content(form, key, value), indent, number)
            == if key == "" then Nothing else Mapping(key, value, indent)
  {
    ContentColon(json, form, key, value);
    ContentSlices(form, key, value);
    ScalarReadsBack(json, form, key);
    ValueReadsBack(value);
    ContentRead(json, Content(form, key, value), ScalarText(form, key), Suffix(value), key, indent, number);
  }

  lemma ContentSlices(form: Form, key: string, value: string)
    ensures var c, t := Content(form, key, value), ScalarText(form, key);
            |t| < |c| && c[..|t|] == t && c[|t| + 1..] == Suffix(value)
  {
  }

  lemma ContentRead(json: Json, c: string, t: string, rest: string, key: string, indent: nat, number: nat)
    requires 0 < |t| < |c| && ColonFrom(c, 0) == |t| && c[..|t|] == t && c[|t| + 1..] == rest
    requires ParseScalar(json, t) == Some(key)
    ensures ReadContent(json, c, indent, number) == if key == "" then Nothing else Mapping(key, Trim(rest), indent)
  {
  }

  /** Taking the comment off a line leaves its body. */
  lemma LineUncommented(json: Json, style: Style, key: string, value: string, depth: nat)
    requires GoodStyle(json, style, key, value) && PlainValue(value)
    ensures Uncommented(LineOf(style, key, value, depth)) == Body(style, key, value, depth)
  {
    var body := Body(style, key, value, depth);
    BodyIsQuiet(json, style, key, value, depth);
    match style.comment
    case None =>
      assert LineOf(style, key, value, depth) == body;
      NothingToCut(body);
    case Some(text) => CommentCut(body, text);
  }

  lemma BodyIsQuiet(json: Json, style: Style, key: string, value: string, depth: nat)
    requires GoodStyle(json, style, key, value) && PlainValue(value)
    ensures var body := Body(style, key, value, depth);
            && Quiet(body) && body != "" && !Space(body[|body| - 1])
            && ScanAt(body, |body|) == ScanAt(Suffix(value), |Suffix(value)|)
  {
    var front, c := Front(style.dash, depth), Content(style.form, key, value);
    FrontIsQuiet(style.dash, depth);
    ContentIsQuiet(json, style.form, key, value);
    ContentEnds(json, style.form, key, value);
    Glue(front, c);
    assert (front + c)[|front + c| - 1] == c[|c| - 1];
  }

  lemma NothingToCut(body: string)
    requires Quiet(body) && body != "" && !Space(body[|body| - 1])
    ensures Uncommented(body) == body
  {
    FirstCommentIsUnique(body, |body|);
    assert body[..|body|] == body;
  }

  lemma CommentCut(body: string, text: string)
    requires Quiet(body) && body != "" && !Space(body[|body| - 1]) && ScanAt(body, |body|).quote.None?
    ensures Uncommented(body + (" #" + text)) == body
  {
    CommentSeen(body, text);
    TrimLast(body);
  }

  lemma TrimLast(body: string)
    requires body != "" && !Space(body[|body| - 1])
    ensures TrimEnd(body + " ") == body
  {
    assert (body + " ")[..|body|] == body && TrimEnd(body) == body;
  }

  lemma CommentSeen(body: string, text: string)
    requires Quiet(body) && ScanAt(body, |body|).quote.None?
    ensures var line := body + (" #" + text);
            CommentStart(line, 0) == |body| + 1 && line[..|body| + 1] == body + " "
  {
    var rest := " #" + text;
    var line, n := body + rest, |body| + 1;
    assert line[n] == '#' && line[n - 1] == ' ';
    forall k | 0 <= k <= |body| ensures ScanAt(line, k) == ScanAt(body, k) { ScanPrefix(body, rest, k); }
    assert ScanAt(line, n) == Advance(ScanAt(line, |body|), ' ');
    forall k | 0 <= k < n ensures !CommentAt(line, k) {
      if k < |body| { assert !CommentAt(body, k); }
    }
    FirstCommentIsUnique(line, n);
  }

  lemma {:induction false} SpacesInFront(n: nat, c: string)
    requires c != "" && !Space(c[0])
    ensures var s := Spaces(n) + c;
            !TabIndented(s) && TrimStart(s) == c && LeadingSpaces(s) == n && s[n..] == c
  {
    var s := Spaces(n) + c;
    if n > 0 {
      SpacesInFront(n - 1, c);
      assert s[1..] == Spaces(n - 1) + c;
    } else {
      assert s == c;
    }
  }

  /** What a line holds behind its leading spaces. */
  function Head(style: Style, key: string, value: string, depth: nat): string {
    Dashed(style.dash && depth > 0, Content(style.form, key, value))
  }

  function Dashed(dashed: bool, c: string): string { if dashed then "- " + c else c }

  function Lead(style: Style, depth: nat): nat { if style.dash && depth > 0 then 2 * depth - 2 else 2 * depth }

  lemma HeadShape(json: Json, style: Style, key: string, value: string, depth: nat)
    requires GoodScalar(json, style.form, key) && Trimmed(value)
    ensures var head := Head(style, key, value, depth); head != "" && Trimmed(head) && ':' in head
  {
    var c, head := Content(style.form, key, value), Head(style, key, value, depth);
    ContentEnds(json, style.form, key, value);
    assert head[|head| - 1] == c[|c| - 1] && head[0] == if style.dash && depth > 0 then '-' else c[0];
    assert head[|head| - |c| + |ScalarText(style.form, key)|] == ':';
  }

  lemma LineSplits(style: Style, key: string, value: string, depth: nat)
    ensures var head, n := Head(style, key, value, depth), Lead(style, depth);
            && Body(style, key, value, depth) == Spaces(n) + head
            && LineOf(style, key, value, depth) == Spaces(n) + (head + Tail(style.comment))
  {
    var n := Lead(style, depth);
    if style.dash && depth > 0 { Regroup(Spaces(n), "- ", Content(style.form, key, value)); }
    Regroup(Spaces(n), Head(style, key, value, depth), Tail(style.comment));
  }

  lemma Regroup(a: string, b: string, c: string)
    ensures a + (b + c) == (a + b) + c
  {
  }

  lemma BodyShape(json: Json, style: Style, key: string, value: string, depth: nat)
    requires GoodScalar(json, style.form, key) && PlainValue(value)
    ensures var body, head, n := Body(style, key, value, depth), Head(style, key, value, depth), Lead(style, depth);
            && Trim(body) == head && LeadingSpaces(body) == n && n <= |body| && body[n..] == head
            && !TabIndented(LineOf(style, key, value, depth))
  {
    var head, n := Head(style, key, value, depth), Lead(style, depth);
    HeadShape(json, style, key, value, depth);
    LineSplits(style, key, value, depth);
    SpacesInFront(n, head);
    TrimKeeps(head);
    SpacesInFront(n, head + Tail(style.comment));
  }

  function ReadHead(json: Json, head: string, n: nat, number: nat): Line {
    if |head| >= 2 && head[..2] == "- " then ReadContent(json, head[2..], n + 2, number)
    else ReadContent(json, head, n, number)
  }

  /** A line that is not blank and no document mark, by what it holds behind its spaces. */
  lemma ReadBody(json: Json, raw: string, body: string, head: string, n: nat, number: nat)
    requires !TabIndented(raw) && Uncommented(raw) == body && Trim(body) == head && LeadingSpaces(body) == n
    requires n <= |body| && body[n..] == head && head != "" && head != "---" && head != "..."
    ensures ReadLine(json, raw, number) == ReadHead(json, head, n, number)
  {
  }

  /** A printed line, in any style, reads back as its key, its value and its indentation; with
      an empty key, as nothing. */
  lemma LineReadsBack(json: Json, style: Style, key: string, value: string, depth: nat, number: nat)
    requires GoodStyle(json, style, key, value) && PlainValue(value)
    ensures ReadLine(json, LineOf(style, key, value, depth), number)
            == if key == "" then Nothing else Mapping(key, value, 2 * depth)
  {
    LineUncommented(json, style, key, value, depth);
    BodyShape(json, style, key, value, depth);
    HeadShape(json, style, key, value, depth);
    ReadBody(json, LineOf(style, key, value, depth), Body(style, key, value, depth), Head(style, key, value, depth),
             Lead(style, depth), number);
    HeadReadsBack(json, style, key, value, depth, number);
    ContentReadsBack(json, style.form, key, value, 2 * depth, number);
  }

  lemma HeadReadsBack(json: Json, style: Style, key: string, value: string, depth: nat, number: nat)
    requires GoodScalar(json, style.form, key) && PlainValue(value)
    ensures ReadHead(json, Head(style, key, value, depth), Lead(style, depth), number)
            == ReadContent(json, Content(style.form, key, value), 2 * depth, number)
  {
    ContentEnds(json, style.form, key, value);
    HeadOf(json, Content(style.form, key, value), style.dash && depth > 0, Lead(style, depth), number);
  }

  lemma HeadOf(json: Json, c: string, dashed: bool, n: nat, number: nat)
    requires |c| >= 2 && c[..2] != "- "
    ensures ReadHead(json, Dashed(dashed, c), n, number) == ReadContent(json, c, if dashed then n + 2 else n, number)
  {
    if dashed { assert ("- " + c)[..2] == "- " && ("- " + c)[2..] == c; }
  }

  // ---------------------------------------------------------------------------
  // Other lines

  /** Lines that hold no mapping: blank, a comment, a list item without a colon outside quotes
      and brackets, a document mark. */
  datatype Skip = Blank(n: nat) | Remark(n: nat, text: string) | ListItem(n: nat, text: string) | DocumentStart | DocumentEnd

  function SkipText(skip: Skip): string {
    match skip
    case Blank(n) => Spaces(n)
    case Remark(n, text) => Spaces(n) + ("#" + text)
    case ListItem(n, text) => Spaces(n) + ("- " + text)
    case DocumentStart => "---"
    case DocumentEnd => "..."
  }

  ghost predicate GoodSkip(skip: Skip) { skip.ListItem? ==> Hides(skip.text) }

  lemma SpacesAre(n: nat)
    ensures !TabIndented(Spaces(n)) && TrimEnd(Spaces(n)) == "" && Uncommented(Spaces(n)) == ""
  {
    SpacesNotTabbed(n);
    SpacesTrimmed(n);
    FirstCommentIsUnique(Spaces(n), n);
    assert Spaces(n)[..n] == Spaces(n);
  }

  lemma {:induction false} SpacesTrimmed(n: nat)
    ensures TrimEnd(Spaces(n)) == ""
  {
    if n > 0 {
      assert Spaces(n)[..n - 1] == Spaces(n - 1);
      SpacesTrimmed(n - 1);
    }
  }

  lemma {:induction false} SpacesNotTabbed(n: nat)
    ensures !TabIndented(Spaces(n))
  {
    if n > 0 {
      SpacesNotTabbed(n - 1);
      assert Spaces(n)[1..] == Spaces(n - 1);
    }
  }

  lemma RemarkIsCut(n: nat, text: string)
    ensures Uncommented(Spaces(n) + ("#" + text)) == ""
  {
    var line := Spaces(n) + ("#" + text);
    ScanUnmarked(line, n);
    assert line[n] == '#' && forall k | 0 <= k < n :: line[k] == ' ';
    FirstCommentIsUnique(line, n);
    assert line[..n] == Spaces(n);
    SpacesAre(n);
  }

  lemma ListItemRead(json: Json, n: nat, text: string, number: nat)
    requires Hides(text)
    ensures ReadLine(json, Spaces(n) + ("- " + text), number) == Nothing
  {
    var head := "- " + text;
    var line := Spaces(n) + head;
    assert ScanAt("- ", 1) == START && ScanAt("- ", 2) == START;
    Glue("- ", text);
    forall k | 0 <= k <= n ensures ScanAt(Spaces(n), k) == START { ScanUnmarked(Spaces(n), k); }
    Glue(Spaces(n), head);
    assert line[|line| - 1] == text[|text| - 1] == head[|head| - 1];
    NothingToCut(line);
    SpacesInFront(n, head);
    TrimKeeps(head);
    ReadBody(json, line, line, head, n, number);
    assert head[..2] == "- " && head[2..] == text;
    FirstColonIsUnique(text, |text|);
  }

  /** Such a line contributes nothing, and is no error. */
  lemma SkipReads(json: Json, skip: Skip, number: nat)
    requires GoodSkip(skip)
    ensures ReadLine(json, SkipText(skip), number) == Nothing
  {
    match skip
    case Blank(n) => SpacesAre(n);
    case Remark(n, text) =>
      SpacesInFront(n, "#" + text);
      RemarkIsCut(n, text);
    case ListItem(n, text) => ListItemRead(json, n, text, number);
    case DocumentStart => MarkRead(json, '-', number);
    case DocumentEnd => MarkRead(json, '.', number);
  }

  lemma MarkRead(json: Json, c: char, number: nat)
    requires c == '-' || c == '.'
    ensures ReadLine(json, [c, c, c], number) == Nothing
  {
    var mark := [c, c, c];
    assert mark == if c == '-' then "---" else "...";
    forall k | 0 <= k <= 3 ensures ScanAt(mark, k) == START { ScanUnmarked(mark, k); }
    NothingToCut(mark);
    TrimKeeps(mark);
  }

  /** The ASCII part of white space, by code. */
  lemma AsciiSpaces(c: char)
    requires c as int < 128
    ensures Space(c) <==> c as int in {9, 10, 11, 12, 13, 32}
  {
  }

  /** A double-quoted key that is no JSON is an error. */
  lemma BadKeyIsError(json: Json, t: string, rest: string, n: nat, number: nat)
    requires Hides(t) && |t| >= 2 && t[0] == '"' && t[|t| - 1] == '"' && json(t) == None && rest != "" && rest[0] == ':'
    ensures ReadHead(json, t + rest, n, number) == Bad(BadScalar(number))
  {
    ColonBehind(t, rest);
    TrimKeeps(t);
    assert (t + rest)[..|t|] == t && (t + rest)[..2][0] == '"';
  }

  /** A tab in the indentation is an error, and nothing else about a line's front is. */
  lemma {:induction false} TabIndentedIff(line: string)
    ensures TabIndented(line) <==> exists k | 0 <= k < |line| :: line[k] == '\t' && forall j | 0 <= j < k :: Space(line[j])
  {
    if line != "" && line[0] != '\t' {
      var rest := line[1..];
      TabIndentedIff(rest);
      if k :| 0 <= k < |rest| && rest[k] == '\t' && forall j | 0 <= j < k :: Space(rest[j]) {
        if Space(line[0]) {
          assert line[k + 1] == '\t' && forall j | 0 <= j < k + 1 :: Space(line[j]);
        }
      }
      if k :| 0 <= k < |line| && line[k] == '\t' && forall j | 0 <= j < k :: Space(line[j]) {
        assert rest[k - 1] == '\t' && forall j | 0 <= j < k - 1 :: rest[j] == line[j + 1];
      }
    }
  }

  /** An ASCII letter or digit, an underscore or a hyphen, by its code. */
  predicate NameChar(c: char) {
    var n := c as int;
    48 <= n <= 57 || 65 <= n <= 90 || 97 <= n <= 122 || n == 95 || n == 45
  }

  /** An anchor and nothing else. */
  ghost predicate IsAnchor(value: string) {
    exists name: string :: name != "" && value == "&" + name && forall c | c in name :: NameChar(c)
  }

  /** What may hold nested entries: no value, or an anchor. */
  lemma OpensIff(value: string)
    ensures OpensContainer(value) <==> value == "" || IsAnchor(value)
  {
    if |value| > 1 && value[0] == '&' {
      var name := value[1..];
      assert value == "&" + name && forall i | 1 <= i < |value| :: value[i] == name[i - 1];
      forall i | 1 <= i < |value| ensures AnchorChar(value[i]) <==> NameChar(value[i]) { assert value[i] in name; }
      assert forall c | c in name :: exists i | 1 <= i < |value| :: value[i] == c;
    }
    if name: string :| name != "" && value == "&" + name && forall c | c in name :: NameChar(c) {
      assert value[1..] == name;
      forall i | 1 <= i < |value| ensures AnchorChar(value[i]) { assert value[i] in name; }
    }
  }
}
