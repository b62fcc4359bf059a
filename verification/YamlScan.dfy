/** Reading one line of YAML as scripts/validate-contract-assets.ts does: comments,
    the mapping colon and scalars. */
module YamlScan {
  import opened Prelude

  /** White space as `\s` and `trim` have it. */
  predicate Space(c: char) {
    || c == ' ' || '\t' <= c <= '\r' || c == '\U{a0}' || c == '\U{1680}' || '\U{2000}' <= c <= '\U{200a}'
    || c == '\U{2028}' || c == '\U{2029}' || c == '\U{202f}' || c == '\U{205f}' || c == '\U{3000}' || c == '\U{feff}'
  }

  function TrimEnd(s: string): string {
    if s != "" && Space(s[|s| - 1]) then TrimEnd(s[..|s| - 1]) else s
  }

  function TrimStart(s: string): string {
    if s != "" && Space(s[0]) then TrimStart(s[1..]) else s
  }

  function Trim(s: string): string { TrimEnd(TrimStart(s)) }

  // ---------------------------------------------------------------------------
  // Quotes and brackets

  /** Where a scan stands: inside which quote, after a backslash, at which depths. */
  datatype Scan = Scan(quote: Option<char>, escaped: bool, square: int, curly: int)

  const START := Scan(None, false, 0, 0)

  function Advance(s: Scan, c: char): Scan {
    match s.quote
    case Some(q) =>
      if q == '"' && s.escaped then s.(escaped := false)
      else if q == '"' && c == '\\' then s.(escaped := true)
      else if c == q then s.(quote := None)
      else s
    case None =>
      if c == '\'' || c == '"' then s.(quote := Some(c))
      else s.(square := s.square + (if c == '[' then 1 else if c == ']' then -1 else 0),
              curly := s.curly + (if c == '{' then 1 else if c == '}' then -1 else 0))
  }

  /** The scan before character i. */
  function ScanAt(s: string, i: nat): Scan
    requires i <= |s|
  {
    if i == 0 then START else Advance(ScanAt(s, i - 1), s[i - 1])
  }

  predicate Unquoted(s: string, i: nat)
    requires i < |s|
  {
    ScanAt(s, i).quote.None?
  }

  /** A `#` outside quotes, at the start of the line or after white space. */
  predicate CommentAt(s: string, i: nat)
    requires i < |s|
  {
    Unquoted(s, i) && s[i] == '#' && (i == 0 || Space(s[i - 1]))
  }

  /** A colon outside quotes and outside every bracket. */
  predicate ColonAt(s: string, i: nat)
    requires i < |s|
  {
    Unquoted(s, i) && s[i] == ':' && ScanAt(s, i).square == 0 && ScanAt(s, i).curly == 0
  }

  /** The end of the text of a line: its first comment, or its length. */
  function CommentStart(s: string, i: nat): (n: nat)
    requires i <= |s|
    ensures i <= n <= |s|
    ensures forall k | i <= k < n :: !CommentAt(s, k)
    ensures n < |s| ==> CommentAt(s, n)
    decreases |s| - i
  {
    if i == |s| || CommentAt(s, i) then i else CommentStart(s, i + 1)
  }

  function Uncommented(line: string): string { TrimEnd(line[..CommentStart(line, 0)]) }

  /** The first mapping colon from i on, or the length. */
  function ColonFrom(s: string, i: nat): (n: nat)
    requires i <= |s|
    ensures i <= n <= |s|
    ensures forall k | i <= k < n :: !ColonAt(s, k)
    ensures n < |s| ==> ColonAt(s, n)
    decreases |s| - i
  {
    if i == |s| || ColonAt(s, i) then i else ColonFrom(s, i + 1)
  }

  lemma FirstCommentIsUnique(s: string, n: nat)
    requires n <= |s| && (forall k | 0 <= k < n :: !CommentAt(s, k)) && (n < |s| ==> CommentAt(s, n))
    ensures CommentStart(s, 0) == n
  {
    var m := CommentStart(s, 0);
  }

  lemma FirstColonIsUnique(s: string, n: nat)
    requires n <= |s| && (forall k | 0 <= k < n :: !ColonAt(s, k)) && (n < |s| ==> ColonAt(s, n))
    ensures ColonFrom(s, 0) == n
  {
    var m := ColonFrom(s, 0);
  }

  method StripYamlComment(line: string) returns (stripped: string)
    ensures stripped == Uncommented(line)
  {
    var quote: Option<char>, escaped := None, false;
    var index := 0;
    while index < |line|
      invariant index <= |line|
      invariant quote == ScanAt(line, index).quote && escaped == ScanAt(line, index).escaped
      invariant forall k | 0 <= k < index :: !CommentAt(line, k)
    {
      var character := line[index];
      if quote == Some('"') && escaped {
        escaped := false;
      } else if quote == Some('"') && character == '\\' {
        escaped := true;
      } else if quote != None {
        if Some(character) == quote { quote := None; }
      } else if character == '\'' || character == '"' {
        quote := Some(character);
      } else if character == '#' && (index == 0 || Space(line[index - 1])) {
        FirstCommentIsUnique(line, index);
        return TrimEnd(line[..index]);
      }
      index := index + 1;
    }
    FirstCommentIsUnique(line, |line|);
    assert line[..|line|] == line;
    return TrimEnd(line);
  }

  /** The position of the mapping colon, or -1. */
  method FindMappingColon(content: string) returns (colon: int)
    ensures colon == if ColonFrom(content, 0) < |content| then ColonFrom(content, 0) else -1
  {
    var quote: Option<char>, escaped, squareDepth, curlyDepth := None, false, 0, 0;
    var index := 0;
    while index < |content|
      invariant index <= |content|
      invariant Scan(quote, escaped, squareDepth, curlyDepth) == ScanAt(content, index)
      invariant forall k | 0 <= k < index :: !ColonAt(content, k)
    {
      var character := content[index];
      if quote == Some('"') && escaped {
        escaped := false;
      } else if quote == Some('"') && character == '\\' {
        escaped := true;
      } else if quote != None {
        if Some(character) == quote { quote := None; }
      } else if character == '\'' || character == '"' {
        quote := Some(character);
      } else {
        if character == '[' { squareDepth := squareDepth + 1; }
        if character == ']' { squareDepth := squareDepth - 1; }
        if character == '{' { curlyDepth := curlyDepth + 1; }
        if character == '}' { curlyDepth := curlyDepth - 1; }
        if character == ':' && squareDepth == 0 && curlyDepth == 0 {
          FirstColonIsUnique(content, index);
          return index;
        }
      }
      index := index + 1;
    }
    FirstColonIsUnique(content, |content|);
    return -1;
  }

  // ---------------------------------------------------------------------------
  // Scalars

  /** `replaceAll("''", "'")` */
  function Undouble(s: string): string {
    if |s| < 2 then s
    else if s[0] == '\'' && s[1] == '\'' then ['\''] + Undouble(s[2..])
    else [s[0]] + Undouble(s[1..])
  }

  /** `JSON.parse` of a text that starts and ends with a double quote. */
  type Json = string -> Option<string>

  /** `parseYamlScalar`; None stands for the process failing on a bad quoted scalar. */
  function ParseScalar(json: Json, raw: string): Option<string> {
    var value := Trim(raw);
    var n := |value|;
    if n >= 2 && value[0] == '"' && value[n - 1] == '"' then json(value)
    else if n >= 2 && value[0] == '\'' && value[n - 1] == '\'' then Some(Undouble(value[1..n - 1]))
    else Some(value)
  }
}
