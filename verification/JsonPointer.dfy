/** JSON pointers as `pointerFor` writes them (scripts/validate-contract-assets.ts), and
    the unescaping of section 4 of RFC 6901. */
module JsonPointer {
  import opened Prelude
  import opened Text

  /** `replaceAll` of one character. */
  function ReplaceChar(s: string, c: char, put: string): string {
    if s == "" then "" else (if s[0] == c then put else [s[0]]) + ReplaceChar(s[1..], c, put)
  }

  /** `replaceAll` of a two-character string. */
  function ReplacePair(s: string, a: char, b: char, put: char): string {
    if |s| < 2 then s
    else if s[0] == a && s[1] == b then [put] + ReplacePair(s[2..], a, b, put)
    else [s[0]] + ReplacePair(s[1..], a, b, put)
  }

  function Escape(segment: string): string { ReplaceChar(ReplaceChar(segment, '~', "~0"), '/', "~1") }

  /** RFC 6901, section 4: first every `~1` becomes `/`, then every `~0` becomes `~`. */
  function Unescape(s: string): string { ReplacePair(ReplacePair(s, '~', '1', '/'), '~', '0', '~') }

  function EscapedChar(c: char): string { if c == '~' then "~0" else if c == '/' then "~1" else [c] }

  lemma {:induction false} EscapeIsOnePass(segment: string)
    ensures Escape(segment) == if segment == "" then "" else EscapedChar(segment[0]) + Escape(segment[1..])
  {
    if segment != "" {
      var inner := ReplaceChar(segment[1..], '~', "~0");
      var s := ReplaceChar(segment, '~', "~0");
      if segment[0] == '~' {
        assert s == ['~'] + (['0'] + inner) && s[1..] == ['0'] + inner && s[1..][1..] == inner;
        assert ReplaceChar(s[1..], '/', "~1") == ['0'] + ReplaceChar(inner, '/', "~1");
      } else {
        assert s == [segment[0]] + inner && s[1..] == inner;
      }
    }
  }

  lemma {:induction false} EscapedHasNoSlash(segment: string)
    ensures '/' !in Escape(segment)
  {
    EscapeIsOnePass(segment);
    if segment != "" { EscapedHasNoSlash(segment[1..]); }
  }

  lemma {:induction false} SlashesBack(segment: string)
    ensures ReplacePair(Escape(segment), '~', '1', '/') == ReplaceChar(segment, '~', "~0")
  {
    EscapeIsOnePass(segment);
    if segment != "" {
      var rest := Escape(segment[1..]);
      SlashesBack(segment[1..]);
      if segment[0] == '~' {
        assert Escape(segment)[1..] == ['0'] + rest;
        assert (['0'] + rest)[1..] == rest;
      } else if segment[0] == '/' {
        assert Escape(segment)[2..] == rest;
      } else {
        assert Escape(segment)[1..] == rest;
      }
    }
  }

  lemma {:induction false} TildesBack(segment: string)
    ensures ReplacePair(ReplaceChar(segment, '~', "~0"), '~', '0', '~') == segment
  {
    if segment != "" {
      var s, rest := ReplaceChar(segment, '~', "~0"), ReplaceChar(segment[1..], '~', "~0");
      TildesBack(segment[1..]);
      if segment[0] == '~' { assert s[2..] == rest; } else { assert s[1..] == rest; }
    }
  }

  /** Unescaping undoes escaping, for every segment. */
  lemma UnescapeEscape(segment: string)
    ensures Unescape(Escape(segment)) == segment
  {
    SlashesBack(segment);
    TildesBack(segment);
  }

  // ---------------------------------------------------------------------------
  // Whole pointers

  function EscapeAll(path: seq<string>): (r: seq<string>)
    ensures |r| == |path|
  {
    if path == [] then [] else [Escape(path[0])] + EscapeAll(path[1..])
  }

  function PointerFor(path: seq<string>): string { "#/" + Join(EscapeAll(path), '/') }

  /** One escaped segment read strictly: a tilde must start `~0` or `~1`. */
  function ParseSegment(s: string): Option<string> {
    if s == "" then Some("")
    else if s[0] == '~' then
      if |s| < 2 || (s[1] != '0' && s[1] != '1') then None
      else
        match ParseSegment(s[2..])
        case None => None
        case Some(rest) => Some([if s[1] == '0' then '~' else '/'] + rest)
    else
      match ParseSegment(s[1..])
      case None => None
      case Some(rest) => Some([s[0]] + rest)
  }

  function ParseSegments(parts: seq<string>): Option<seq<string>> {
    if parts == [] then Some([])
    else
      match (ParseSegment(parts[0]), ParseSegments(parts[1..]))
      case (Some(first), Some(rest)) => Some([first] + rest)
      case _ => None
  }

  /** The path a reference names, if it is a well-formed pointer. */
  function ParsePointer(ref: string): Option<seq<string>> {
    if |ref| < 2 || ref[..2] != "#/" then None else ParseSegments(Split(ref[2..], '/'))
  }

  /** One escaped character in front of an escaped text is read back as that character. */
  lemma ParsePrepend(c: char, e: string)
    ensures ParseSegment(EscapedChar(c) + e) ==
            if ParseSegment(e).None? then None else Some([c] + ParseSegment(e).value)
  {
    var s := EscapedChar(c) + e;
    assert s[|EscapedChar(c)|..] == e;
  }

  lemma {:induction false} ParseEscape(segment: string)
    ensures ParseSegment(Escape(segment)) == Some(segment)
  {
    EscapeIsOnePass(segment);
    if segment != "" {
      ParseEscape(segment[1..]);
      ParsePrepend(segment[0], Escape(segment[1..]));
      assert segment == [segment[0]] + segment[1..];
    }
  }

  lemma EscapePrepend(c: char, rest: string)
    ensures Escape([c] + rest) == EscapedChar(c) + Escape(rest)
  {
    EscapeIsOnePass([c] + rest);
    assert ([c] + rest)[1..] == rest;
  }

  /** A text that reads starts with one escaped character and goes on with one that reads. */
  lemma ReadsOneCharacter(s: string) returns (c: char, rest: string)
    requires s != "" && '/' !in s && ParseSegment(s).Some?
    ensures s == EscapedChar(c) + rest && ParseSegment(rest).Some? && ParseSegment(s).value == [c] + ParseSegment(rest).value
  {
    c, rest := ParseSegment(s).value[0], if s[0] == '~' then s[2..] else s[1..];
    if s[0] == '~' {
      assert s == [s[0], s[1]] + rest;
    } else {
      assert s == [s[0]] + rest;
    }
  }

  lemma {:induction false} EscapeParse(s: string)
    requires '/' !in s && ParseSegment(s).Some?
    ensures Escape(ParseSegment(s).value) == s
    decreases |s|
  {
    if s != "" {
      var c, rest := ReadsOneCharacter(s);
      EscapeParse(rest);
      EscapePrepend(c, ParseSegment(rest).value);
    }
  }

  /** On what it accepts, the strict reading is RFC 6901's. */
  lemma ParseSegmentIsUnescape(s: string)
    requires '/' !in s && ParseSegment(s).Some?
    ensures ParseSegment(s).value == Unescape(s)
  {
    EscapeParse(s);
    UnescapeEscape(ParseSegment(s).value);
  }

  lemma {:induction false} ParseEscapeAll(path: seq<string>)
    ensures ParseSegments(EscapeAll(path)) == Some(path) && NoSep(EscapeAll(path), '/')
  {
    if path != [] {
      ParseEscape(path[0]);
      EscapedHasNoSlash(path[0]);
      ParseEscapeAll(path[1..]);
      assert EscapeAll(path)[1..] == EscapeAll(path[1..]);
      assert path == [path[0]] + path[1..];
    }
  }

  lemma {:induction false} EscapeParseAll(parts: seq<string>)
    requires ParseSegments(parts).Some? && NoSep(parts, '/')
    ensures EscapeAll(ParseSegments(parts).value) == parts
  {
    if parts != [] {
      assert parts[0] in parts && forall p | p in parts[1..] :: p in parts;
      EscapeParse(parts[0]);
      EscapeParseAll(parts[1..]);
      assert ParseSegments(parts).value[1..] == ParseSegments(parts[1..]).value;
    }
  }

  /** The pointer of a path names that path. */
  lemma ParsePointerFor(path: seq<string>)
    requires path != []
    ensures ParsePointer(PointerFor(path)) == Some(path)
  {
    ParseEscapeAll(path);
    SplitJoin(EscapeAll(path), '/');
    assert PointerFor(path)[2..] == Join(EscapeAll(path), '/');
  }

  /** A reference that names a path is the pointer of that path. */
  lemma PointerForParse(ref: string)
    requires ParsePointer(ref).Some?
    ensures ParsePointer(ref).value != [] && PointerFor(ParsePointer(ref).value) == ref
  {
    JoinSplit(ref[2..], '/');
    EscapeParseAll(Split(ref[2..], '/'));
    assert ref == ref[..2] + ref[2..];
  }

  /** Distinct non-empty paths have distinct pointers. */
  lemma PointerForInjective(p: seq<string>, q: seq<string>)
    requires p != [] && q != [] && PointerFor(p) == PointerFor(q)
    ensures p == q
  {
    ParsePointerFor(p);
    ParsePointerFor(q);
  }

  /** The empty path is the one exception: it shares its pointer with the path [""]. */
  lemma EmptyPathSharesPointer(p: seq<string>)
    ensures p != [] ==> (PointerFor(p) == PointerFor([]) <==> p == [""])
  {
    assert EscapeAll([""]) == [""] by { EscapeIsOnePass(""); }
    if p != [] && PointerFor(p) == PointerFor([]) {
      assert PointerFor([""]) == PointerFor([]);
      PointerForInjective(p, [""]);
    }
  }
}
