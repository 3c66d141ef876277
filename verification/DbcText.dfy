/**
 * Strings, names and numbers in DBC text: what the writer emits and what the lexer reads
 * (dbc/write.go, dbc/lexer.go). Characters stand for bytes.
 */
module DbcText {
  import opened Wrappers

  // ---- Characters ------------------------------------------------------------------------

  predicate IsDigit(c: char) {
    '0' <= c <= '9'
  }

  predicate IsDelimiter(c: char) {
    c in {' ', '\t', '\r', '\n', '\"', ':', ';', '|', '@', '(', ')', '[', ']', ',', '+', '-'}
  }

  predicate IsBlank(c: char) {
    c == ' ' || c == '\t' || c == '\r'
  }

  // ---- The lexer -------------------------------------------------------------------------

  datatype Kind = EndOfFile | Newline | Atom | Number | Text | Punctuation

  datatype Token = Token(kind: Kind, text: string)

  // The lexer's other error, an empty atom, cannot arise: every delimiter starts a token of its own.
  datatype Error = UnterminatedString

  /** The length of the run of atom characters at an offset. */
  function AtomLength(input: string, at: nat): (n: nat)
    requires at <= |input|
    ensures at + n <= |input|
    decreases |input| - at
  {
    if at == |input| || IsDelimiter(input[at]) then 0 else 1 + AtomLength(input, at + 1)
  }

  /** Where the next line break is, or the end. */
  function LineEnd(input: string, at: nat): (end: nat)
    requires at <= |input|
    ensures at <= end <= |input|
    decreases |input| - at
  {
    if at == |input| || input[at] == '\n' then at else LineEnd(input, at + 1)
  }

  /** Blanks and comments before the next token. */
  function SkipBlank(input: string, at: nat): (start: nat)
    requires at <= |input|
    ensures at <= start <= |input|
    decreases |input| - at
  {
    if at == |input| then at
    else if IsBlank(input[at]) then SkipBlank(input, at + 1)
    else if input[at] == '/' && at + 1 < |input| && input[at + 1] == '/' then SkipBlank(input, LineEnd(input, at + 1))
    else at
  }

  /** The body of a quoted string, from after its opening quote: its text, and how much was read to its closing quote. */
  function QuotedBody(rest: string): (r: Result<(string, nat), Error>)
    ensures r.Ok? ==> 0 < r.value.1 <= |rest|
  {
    if rest == "" then Err(UnterminatedString)
    else if rest[0] == '\"' then Ok(("", 1))
    else if rest[0] == '\\' && |rest| > 1 && rest[1] == '\"' then
      var more :- QuotedBody(rest[2..]);
      Ok((['\"'] + more.0, more.1 + 2))
    else
      var more :- QuotedBody(rest[1..]);
      Ok(([rest[0]] + more.0, more.1 + 1))
  }

  /** The length of a number token. */
  function NumberLength(input: string, at: nat, seenDot: bool, seenExponent: bool): (n: nat)
    requires at <= |input|
    ensures at + n <= |input|
    decreases |input| - at
  {
    if at == |input| then 0
    else if IsDigit(input[at]) then 1 + NumberLength(input, at + 1, seenDot, seenExponent)
    else if input[at] == '.' && !seenDot && !seenExponent then 1 + NumberLength(input, at + 1, true, seenExponent)
    else if (input[at] == 'e' || input[at] == 'E') && !seenExponent then
      if at + 1 < |input| && (input[at + 1] == '+' || input[at + 1] == '-') then 2 + NumberLength(input, at + 2, seenDot, true)
      else 1 + NumberLength(input, at + 1, seenDot, true)
    else 0
  }

  predicate StartsNumber(input: string, at: nat)
    requires at < |input|
  {
    IsDigit(input[at]) || (input[at] == '.' && at + 1 < |input| && IsDigit(input[at + 1]))
  }

  /** The next token from an offset, and the offset after it. */
  function NextToken(input: string, at: nat): (r: Result<(Token, nat), Error>)
    requires at <= |input|
    ensures r.Ok? ==> at <= r.value.1 <= |input|
  {
    var start := SkipBlank(input, at);
    if start == |input| then Ok((Token(EndOfFile, ""), start))
    else if input[start] == '\n' then Ok((Token(Newline, "\n"), start + 1))
    else if input[start] == '\"' then
      var body :- QuotedBody(input[start + 1..]);
      Ok((Token(Text, body.0), start + 1 + body.1))
    else if IsDelimiter(input[start]) then Ok((Token(Punctuation, [input[start]]), start + 1))
    else if StartsNumber(input, start) then
      var n := NumberLength(input, start, false, false);
      Ok((Token(Number, input[start..start + n]), start + n))
    else
      var n := AtomLength(input, start);
      Ok((Token(Atom, input[start..start + n]), start + n))
  }

  /** The line of an offset, counted from one by the line breaks before it. */
  function LineOf(input: string, offset: nat): nat
    requires offset <= |input|
  {
    if offset == 0 then 1 else LineOf(input, offset - 1) + if input[offset - 1] == '\n' then 1 else 0
  }

  /** The column of an offset, counted from one behind the last line break. */
  function ColumnOf(input: string, offset: nat): nat
    requires offset <= |input|
  {
    if offset == 0 || input[offset - 1] == '\n' then 1 else ColumnOf(input, offset - 1) + 1
  }

  /** The lexer, advancing byte by byte over its input and keeping the position it has reached. */
  class Lexer {
    const input: string
    var offset: nat
    var line: nat
    var column: nat

    constructor (input: string)
      ensures this.input == input && offset == 0 && line == 1 && column == 1 && Valid()
    {
      this.input := input;
      offset, line, column := 0, 1, 1;
    }

    predicate Valid()
      reads this
    {
      offset <= |input| && line == LineOf(input, offset) && column == ColumnOf(input, offset)
    }

    method AdvanceByte()
      requires Valid() && offset < |input| && input[offset] != '\n'
      modifies this
      ensures Valid() && offset == old(offset) + 1
    {
      offset := offset + 1;
      column := column + 1;
    }

    method ReadAtom() returns (token: Token)
      requires Valid() && AtomLength(input, offset) > 0
      modifies this
      ensures Valid() && offset == old(offset) + AtomLength(input, old(offset)) && token == Token(Atom, input[old(offset)..offset])
    {
      var start := offset;
      while offset < |input| && !IsDelimiter(input[offset])
        invariant Valid() && old(offset) <= offset
        invariant AtomLength(input, old(offset)) == offset - old(offset) + AtomLength(input, offset)
        decreases |input| - offset
      {
        AdvanceByte();
      }
      token := Token(Atom, input[start..offset]);
    }

    method ReadNumber() returns (token: Token)
      requires Valid()
      modifies this
      ensures Valid() && offset == old(offset) + NumberLength(input, old(offset), false, false)
      ensures token == Token(Number, input[old(offset)..offset])
    {
      var start := offset;
      var seenDot, seenExponent := false, false;
      while offset < |input|
        invariant Valid() && old(offset) <= offset
        invariant NumberLength(input, old(offset), false, false) == offset - old(offset) + NumberLength(input, offset, seenDot, seenExponent)
        decreases |input| - offset
      {
        if IsDigit(input[offset]) {
          AdvanceByte();
        } else if input[offset] == '.' && !seenDot && !seenExponent {
          seenDot := true;
          AdvanceByte();
        } else if (input[offset] == 'e' || input[offset] == 'E') && !seenExponent {
          seenExponent := true;
          AdvanceByte();
          if offset < |input| && (input[offset] == '+' || input[offset] == '-') {
            AdvanceByte();
          }
        } else {
          break;
        }
      }
      token := Token(Number, input[start..offset]);
    }

    /** One character of a string, of one or two bytes. */
    method ReadCharacter() returns (character: char)
      requires Valid() && offset < |input|
      modifies this
      ensures Valid()
      ensures var escaped := input[old(offset)] == '\\' && old(offset) + 1 < |input| && input[old(offset) + 1] == '\"';
        if escaped then character == '\"' && offset == old(offset) + 2
        else character == input[old(offset)] && offset == old(offset) + 1
    {
      character := input[offset];
      if character == '\n' {
        offset := offset + 1;
        line := line + 1;
        column := 1;
      } else {
        if character == '\\' && offset + 1 < |input| && input[offset + 1] == '\"' {
          AdvanceByte();
          character := '\"';
        }
        AdvanceByte();
      }
    }

    method ReadQuoted() returns (r: Result<Token, Error>)
      requires Valid() && offset < |input| && input[offset] == '\"'
      modifies this
      ensures Valid()
      ensures match QuotedBody(input[old(offset) + 1..]) {
                case Ok((text, length)) => r == Ok(Token(Text, text)) && offset == old(offset) + 1 + length
                case Err(error) => r == Err(error)
              }
    {
      hide QuotedBody;
      ghost var start := offset + 1;
      AdvanceByte();
      var value := "";
      StillToRead(value, QuotedBody(input[start..]));
      while offset < |input|
        invariant Valid() && start <= offset
        invariant QuotedBody(input[start..]) == Prefixed(value, offset - start, QuotedBody(input[offset..]))
        decreases |input| - offset
      {
        BodyStep(input, offset);
        if input[offset] == '\"' {
          AdvanceByte();
          assert value + "" == value;
          return Ok(Token(Text, value));
        }
        ghost var at := offset;
        var character := ReadCharacter();
        Longer(value, at - start, character, offset - at, QuotedBody(input[offset..]));
        value := value + [character];
      }
      NothingLeft(input);
      r := Err(UnterminatedString);
    }

    method SkipBlanks()
      requires Valid()
      modifies this
      ensures Valid() && offset == SkipBlank(input, old(offset))
    {
      while offset < |input|
        invariant Valid() && SkipBlank(input, offset) == SkipBlank(input, old(offset))
        decreases |input| - offset
      {
        if IsBlank(input[offset]) {
          AdvanceByte();
        } else if input[offset] == '/' && offset + 1 < |input| && input[offset + 1] == '/' {
          ghost var here := offset;
          AdvanceByte();
          while offset < |input| && input[offset] != '\n'
            invariant Valid() && here < offset && LineEnd(input, offset) == LineEnd(input, here + 1)
            decreases |input| - offset
          {
            AdvanceByte();
          }
        } else {
          break;
        }
      }
    }

    /** next; the lexer then stands at the line and column behind the token. */
    method Next() returns (r: Result<Token, Error>)
      requires Valid()
      modifies this
      ensures Valid()
      ensures match NextToken(input, old(offset)) {
                case Ok((token, end)) => r == Ok(token) && offset == end
                case Err(error) => r == Err(error)
              }
    {
      SkipBlanks();
      if offset >= |input| {
        return Ok(Token(EndOfFile, ""));
      }
      var character := input[offset];
      if character == '\n' {
        offset := offset + 1;
        line := line + 1;
        column := 1;
        return Ok(Token(Newline, "\n"));
      }
      if character == '\"' {
        r := ReadQuoted();
        return;
      }
      if IsDelimiter(character) {
        AdvanceByte();
        return Ok(Token(Punctuation, [character]));
      }
      if StartsNumber(input, offset) {
        var number := ReadNumber();
        return Ok(number);
      }
      var atom := ReadAtom();
      r := Ok(atom);
    }
  }

  // A body whose text and length have already grown by what was read before it.
  function Prefixed(value: string, read: nat, body: Result<(string, nat), Error>): Result<(string, nat), Error> {
    match body
    case Ok((text, length)) => Ok((value + text, read + length))
    case Err(error) => Err(error)
  }

  lemma BodyStep(input: string, at: nat)
    requires at < |input|
    ensures var rest := QuotedBody(input[at..]);
      if input[at] == '\"' then rest == Ok(("", 1))
      else if input[at] == '\\' && at + 1 < |input| && input[at + 1] == '\"' then rest == Prefixed(['\"'], 2, QuotedBody(input[at + 2..]))
      else rest == Prefixed([input[at]], 1, QuotedBody(input[at + 1..]))
  {
    var rest := input[at..];
    assert rest[1..] == input[at + 1..];
    assert at + 1 < |input| ==> rest[2..] == input[at + 2..];
  }

  lemma NothingLeft(input: string)
    ensures QuotedBody(input[|input|..]) == Err(UnterminatedString)
  {
  }

  lemma StillToRead(value: string, body: Result<(string, nat), Error>)
    requires value == ""
    ensures Prefixed(value, 0, body) == body
  {
    if body.Ok? {
      assert value + body.value.0 == body.value.0;
    }
  }

  lemma Longer(value: string, read: nat, c: char, step: nat, after: Result<(string, nat), Error>)
    ensures Prefixed(value, read, Prefixed([c], step, after)) == Prefixed(value + [c], read + step, after)
  {
    if after.Ok? {
      assert value + ([c] + after.value.0) == (value + [c]) + after.value.0;
    }
  }

  // ---- Tokens anywhere in a text -----------------------------------------------------------

  // What the lexer finds after `distance` more characters.
  function Moved(distance: nat, r: Result<(Token, nat), Error>): Result<(Token, nat), Error> {
    match r
    case Ok((token, end)) => Ok((token, distance + end))
    case Err(error) => Err(error)
  }

  lemma {:induction false} AtomLengthIsLocal(p: string, s: string, at: nat)
    requires at <= |s|
    ensures AtomLength(p + s, |p| + at) == AtomLength(s, at)
    decreases |s| - at
  {
    if at < |s| {
      assert (p + s)[|p| + at] == s[at];
      AtomLengthIsLocal(p, s, at + 1);
    }
  }

  lemma {:induction false} LineEndIsLocal(p: string, s: string, at: nat)
    requires at <= |s|
    ensures LineEnd(p + s, |p| + at) == |p| + LineEnd(s, at)
    decreases |s| - at
  {
    if at < |s| {
      assert (p + s)[|p| + at] == s[at];
      LineEndIsLocal(p, s, at + 1);
    }
  }

  lemma {:induction false} SkipBlankIsLocal(p: string, s: string, at: nat)
    requires at <= |s|
    ensures SkipBlank(p + s, |p| + at) == |p| + SkipBlank(s, at)
    decreases |s| - at
  {
    if at < |s| {
      assert (p + s)[|p| + at] == s[at];
      assert at + 1 < |s| ==> (p + s)[|p| + at + 1] == s[at + 1];
      if IsBlank(s[at]) {
        SkipBlankIsLocal(p, s, at + 1);
      } else if s[at] == '/' && at + 1 < |s| && s[at + 1] == '/' {
        LineEndIsLocal(p, s, at + 1);
        SkipBlankIsLocal(p, s, LineEnd(s, at + 1));
      }
    }
  }

  lemma {:induction false} NumberLengthIsLocal(p: string, s: string, at: nat, seenDot: bool, seenExponent: bool)
    requires at <= |s|
    ensures NumberLength(p + s, |p| + at, seenDot, seenExponent) == NumberLength(s, at, seenDot, seenExponent)
    decreases |s| - at
  {
    if at < |s| {
      assert (p + s)[|p| + at] == s[at];
      if IsDigit(s[at]) {
        NumberLengthIsLocal(p, s, at + 1, seenDot, seenExponent);
      } else if s[at] == '.' && !seenDot && !seenExponent {
        NumberLengthIsLocal(p, s, at + 1, true, seenExponent);
      } else if (s[at] == 'e' || s[at] == 'E') && !seenExponent {
        if at + 1 < |s| {
          assert (p + s)[|p| + at + 1] == s[at + 1];
          NumberLengthIsLocal(p, s, at + 2, seenDot, true);
        }
        NumberLengthIsLocal(p, s, at + 1, seenDot, true);
      }
    }
  }

  /** The lexer looks forward only: what it finds at a place depends on the text from there on. */
  lemma NextTokenIsLocal(p: string, s: string, at: nat)
    requires at <= |s|
    ensures NextToken(p + s, |p| + at) == Moved(|p|, NextToken(s, at))
  {
    hide QuotedBody;
    hide SkipBlank;
    hide AtomLength;
    hide NumberLength;
    hide IsDelimiter;
    hide StartsNumber;
    SkipBlankIsLocal(p, s, at);
    var start := SkipBlank(s, at);
    if start < |s| {
      StartIsLocal(p, s, start);
      AtomLengthIsLocal(p, s, start);
      NumberLengthIsLocal(p, s, start, false, false);
      SameSlice(p, s, start, start + AtomLength(s, start));
      SameSlice(p, s, start, start + NumberLength(s, start, false, false));
    }
  }

  lemma StartIsLocal(p: string, s: string, start: nat)
    requires start < |s|
    ensures (p + s)[|p| + start] == s[start] && (p + s)[|p| + start + 1..] == s[start + 1..]
    ensures StartsNumber(p + s, |p| + start) == StartsNumber(s, start)
  {
    assert start + 1 < |s| ==> (p + s)[|p| + start + 1] == s[start + 1];
  }

  lemma SameSlice(p: string, s: string, from: nat, to: nat)
    requires from <= to <= |s|
    ensures (p + s)[|p| + from..|p| + to] == s[from..to]
  {
  }

  lemma NextTokenAdvances(input: string, at: nat)
    requires at <= |input|
    ensures NextToken(input, at).Ok? && !NextToken(input, at).value.0.kind.EndOfFile? ==> NextToken(input, at).value.1 > at
  {
    hide SkipBlank;
    hide QuotedBody;
  }

  /** lex: all tokens of a text, the end of the file last. */
  function Tokens(input: string): Result<seq<Token>, Error>
    decreases |input|
  {
    var next :- NextToken(input, 0);
    NextTokenAdvances(input, 0);
    if next.0.kind.EndOfFile? then Ok([next.0])
    else
      var rest :- Tokens(input[next.1..]);
      Ok([next.0] + rest)
  }

  function Prepend(tokens: seq<Token>, rest: Result<seq<Token>, Error>): Result<seq<Token>, Error> {
    match rest
    case Ok(more) => Ok(tokens + more)
    case Err(error) => Err(error)
  }

  lemma PrependTwice(left: seq<Token>, right: seq<Token>, rest: Result<seq<Token>, Error>)
    ensures Prepend(left, Prepend(right, rest)) == Prepend(left + right, rest)
    ensures Prepend([], rest) == rest
  {
    if rest.Ok? {
      assert left + (right + rest.value) == left + right + rest.value;
      assert [] + rest.value == rest.value;
    }
  }

  lemma TokensStep(input: string, at: nat)
    requires at <= |input|
    ensures Tokens(input[at..])
         == match NextToken(input, at)
            case Err(error) => Err(error)
            case Ok((token, end)) => if token.kind.EndOfFile? then Ok([token]) else Prepend([token], Tokens(input[end..]))
  {
    hide NextToken;
    var (p, s) := (input[..at], input[at..]);
    assert p + s == input;
    NextTokenIsLocal(p, s, 0);
    var next := NextToken(s, 0);
    if next.Ok? {
      assert s[next.value.1..] == input[at + next.value.1..];
    }
  }

  /** lex */
  method Lex(input: string) returns (r: Result<seq<Token>, Error>)
    ensures r == Tokens(input)
  {
    var lexer := new Lexer(input);
    var tokens: seq<Token> := [];
    assert input[0..] == input;
    PrependTwice([], [], Tokens(input));
    while true
      invariant fresh(lexer) && lexer.Valid() && lexer.input == input
      invariant Tokens(input) == Prepend(tokens, Tokens(input[lexer.offset..]))
      decreases |input| - lexer.offset
    {
      hide Tokens;
      hide NextToken;
      TokensStep(input, lexer.offset);
      NextTokenAdvances(input, lexer.offset);
      var token := lexer.Next();
      if token.Err? {
        return Err(token.error);
      }
      PrependTwice(tokens, [token.value], Tokens(input[lexer.offset..]));
      tokens := tokens + [token.value];
      if token.value.kind.EndOfFile? {
        return Ok(tokens);
      }
    }
  }

  // ---- Strings ---------------------------------------------------------------------------

  /** strings.ReplaceAll of a quote by backslash and quote. */
  function Escaped(s: string): string {
    if s == "" then "" else (if s[0] == '\"' then ['\\', '\"'] else [s[0]]) + Escaped(s[1..])
  }

  function RawQuote(s: string): string {
    "\"" + Escaped(s) + "\""
  }

  predicate EndsInBackslash(s: string) {
    s != "" && s[|s| - 1] == '\\'
  }

  /** quote: a final backslash would escape the closing quote. */
  function Quote(s: string): Option<string> {
    if EndsInBackslash(s) then None else Some(RawQuote(s))
  }

  lemma {:induction false} EscapedHead(s: string, rest: string)
    requires s != ""
    ensures var text := Escaped(s) + "\"" + rest; var tail := Escaped(s[1..]) + "\"" + rest;
      if s[0] == '\"' then |text| > 1 && text[0] == '\\' && text[1] == '\"' && text[2..] == tail
      else |text| > 0 && text[0] == s[0] && text[1..] == tail
  {
    var first := if s[0] == '\"' then ['\\', '\"'] else [s[0]];
    assert Escaped(s) == first + Escaped(s[1..]);
    hide Escaped;
    Reassociate(first, Escaped(s[1..]), "\"", rest);
  }

  lemma Reassociate(first: string, escaped: string, close: string, rest: string)
    ensures (first + escaped) + close + rest == first + (escaped + close + rest)
    ensures ((first + escaped) + close + rest)[|first|..] == escaped + close + rest
    ensures forall i :: 0 <= i < |first| ==> ((first + escaped) + close + rest)[i] == first[i]
  {
    assert (first + escaped) + close + rest == first + (escaped + close + rest);
  }

  // What follows a backslash in the text is never a quote, unless the backslash is the last character.
  lemma {:induction false} AfterBackslash(s: string, rest: string)
    requires s != ""
    ensures (Escaped(s) + "\"" + rest)[0] != '\"'
  {
    EscapedHead(s, rest);
  }

  /** The body of a string, behind its first character. */
  function OneMore(c: char, tail: Result<(string, nat), Error>): Result<(string, nat), Error> {
    var more :- tail;
    Ok(([c] + more.0, more.1 + if c == '\"' then 2 else 1))
  }

  lemma {:induction false} BodyBehind(c: char, text: string, tail: string)
    requires
      if c == '\"' then |text| > 1 && text[0] == '\\' && text[1] == '\"' && text[2..] == tail
      else |text| > 0 && text[0] == c && text[1..] == tail
    requires c == '\\' && tail != "" ==> tail[0] != '\"'
    ensures QuotedBody(text) == OneMore(c, QuotedBody(tail))
  {
    assert c == '\\' && tail != "" ==> text[1] == tail[0];
  }

  lemma {:induction false} EscapedBody(s: string, rest: string)
    requires |s| > 1 || (s != "" && s[0] != '\\')
    ensures QuotedBody(Escaped(s) + "\"" + rest) == OneMore(s[0], QuotedBody(Escaped(s[1..]) + "\"" + rest))
    ensures |Escaped(s)| == |Escaped(s[1..])| + if s[0] == '\"' then 2 else 1
  {
    hide QuotedBody;
    hide OneMore;
    EscapedHead(s, rest);
    if s[1..] != "" {
      AfterBackslash(s[1..], rest);
    }
    BodyBehind(s[0], Escaped(s) + "\"" + rest, Escaped(s[1..]) + "\"" + rest);
  }

  lemma {:induction false} EscapedReads(s: string, rest: string)
    requires !EndsInBackslash(s)
    ensures QuotedBody(Escaped(s) + "\"" + rest) == Ok((s, |Escaped(s)| + 1))
  {
    if s != "" {
      hide QuotedBody;
      hide Escaped;
      assert s[1..] != "" ==> s[1..][|s| - 2] == s[|s| - 1];
      EscapedReads(s[1..], rest);
      EscapedBody(s, rest);
      assert s == [s[0]] + s[1..];
    }
  }

  /** A string that ends in a backslash, quoted without the check, reads as something else or not at all. */
  lemma {:induction false} BackslashMisreads(s: string, rest: string)
    requires EndsInBackslash(s)
    ensures QuotedBody(Escaped(s) + "\"" + rest) != Ok((s, |Escaped(s)| + 1))
  {
    if |s| == 1 {
      assert s[1..] == "" && s == "\\";
      EscapedHead(s, rest);
    } else {
      hide QuotedBody;
      hide Escaped;
      assert s[1..][|s| - 2] == s[|s| - 1];
      BackslashMisreads(s[1..], rest);
      EscapedBody(s, rest);
      TailDiffers(s, QuotedBody(Escaped(s[1..]) + "\"" + rest));
    }
  }

  lemma TailDiffers(s: string, rest: Result<(string, nat), Error>)
    requires s != ""
    ensures rest.Ok? && [s[0]] + rest.value.0 == s ==> rest.value.0 == s[1..]
  {
    if rest.Ok? {
      assert ([s[0]] + rest.value.0)[1..] == rest.value.0;
    }
  }

  lemma {:induction false} QuotedToken(s: string, rest: string)
    ensures NextToken(RawQuote(s) + rest, 0) ==
      match QuotedBody(Escaped(s) + "\"" + rest) {
        case Ok(body) => Ok((Token(Text, body.0), 1 + body.1))
        case Err(error) => Err(error)
      }
  {
    hide QuotedBody;
    hide Escaped;
    var input := RawQuote(s) + rest;
    assert input[0] == '\"' && SkipBlank(input, 0) == 0;
    assert input[1..] == Escaped(s) + "\"" + rest;
  }

  /**
   * Anywhere in a text, a quoted string lexes back to itself, whatever follows it, exactly when it does not
   * end in a backslash: the writer refuses no string that would come back, and emits none that would not.
   */
  lemma StringRoundTrip(p: string, s: string, rest: string)
    ensures NextToken(p + (RawQuote(s) + rest), |p|) == Ok((Token(Text, s), |p| + |RawQuote(s)|)) <==> Quote(s).Some?
  {
    hide QuotedBody;
    hide Escaped;
    hide NextToken;
    var input := RawQuote(s) + rest;
    NextTokenIsLocal(p, input, 0);
    QuotedToken(s, rest);
    if EndsInBackslash(s) {
      BackslashMisreads(s, rest);
    } else {
      EscapedReads(s, rest);
    }
  }

  // ---- Names -----------------------------------------------------------------------------

  /** What the writer accepts as an identifier. */
  predicate ValidName(s: string) {
    && s != "" && !IsDigit(s[0]) && !(|s| > 1 && s[0] == '/' && s[1] == '/')
    && !(|s| > 1 && s[0] == '.' && IsDigit(s[1]))
    && forall i :: 0 <= i < |s| ==> !IsDelimiter(s[i])
  }

  // What may follow a name in a record: the end of the text, or a delimiter.
  predicate Delimited(rest: string) {
    rest == "" || IsDelimiter(rest[0])
  }

  lemma {:induction false} AtomIsMaximal(input: string, at: nat)
    requires at <= |input|
    ensures var n := AtomLength(input, at);
      && (forall i :: at <= i < at + n ==> !IsDelimiter(input[i]))
      && (at + n == |input| || IsDelimiter(input[at + n]))
    decreases |input| - at
  {
    if at < |input| && !IsDelimiter(input[at]) {
      AtomIsMaximal(input, at + 1);
    }
  }

  /** Anywhere in a text, a name lexes back as itself, before any delimiter, exactly when the writer accepts it. */
  lemma NameRoundTrip(p: string, s: string, rest: string)
    requires Delimited(rest)
    ensures NextToken(p + (s + rest), |p|) == Ok((Token(Atom, s), |p| + |s|)) <==> ValidName(s)
  {
    hide NextToken;
    hide ValidName;
    hide Delimited;
    NextTokenIsLocal(p, s + rest, 0);
    NameReads(s, rest);
  }

  lemma NameReads(s: string, rest: string)
    requires Delimited(rest)
    ensures NextToken(s + rest, 0) == Ok((Token(Atom, s), |s|)) <==> ValidName(s)
  {
    var input := s + rest;
    var start := SkipBlank(input, 0);
    AtomIsMaximal(input, start);
    if ValidName(s) {
      assert input[0] == s[0] && (|s| > 1 ==> input[1] == s[1]);
      assert !IsDelimiter(s[0]);
      assert start == 0;
      assert forall i :: 0 <= i < |s| ==> input[i] == s[i];
      assert rest != "" ==> input[|s|] == rest[0];
      assert AtomLength(input, 0) == |s|;
      assert input[..|s|] == s;
    } else if NextToken(input, 0) == Ok((Token(Atom, s), |s|)) {
      assert start == 0 by {
        AtomSpans(input, start, s);
      }
      assert input[0..|s|] == s;
      assert forall i :: 0 <= i < |s| ==> input[i] == s[i];
    }
  }

  lemma {:induction false} AtomSpans(input: string, start: nat, s: string)
    requires start <= |input| && NextToken(input, 0) == Ok((Token(Atom, s), |s|)) && start == SkipBlank(input, 0)
    ensures start == 0
  {
  }

  // ---- Decimal numbers -------------------------------------------------------------------

  function Digit(d: nat): (c: char)
    requires d < 10
    ensures IsDigit(c)
  {
    ('0' as int + d) as char
  }

  function DigitValue(c: char): (d: nat)
    requires IsDigit(c)
    ensures d < 10
  {
    c as int - '0' as int
  }

  /** strconv.FormatUint in base ten. */
  function Decimal(value: nat): (text: string)
    ensures text != ""
  {
    if value < 10 then [Digit(value)] else Decimal(value / 10) + [Digit(value % 10)]
  }

  const UINT64_LIMIT: nat := 0x1_0000_0000_0000_0000

  function DigitsValue(text: string): Option<nat> {
    if text == "" then Some(0)
    else if !IsDigit(text[|text| - 1]) then None
    else match DigitsValue(text[..|text| - 1])
      case None => None
      case Some(value) => Some(10 * value + DigitValue(text[|text| - 1]))
  }

  /** strconv.ParseUint in base ten, 64 bits wide. */
  function ParseUint(text: string): (value: Option<nat>)
    ensures value.Some? ==> value.value < UINT64_LIMIT
  {
    if text == "" then None
    else match DigitsValue(text)
      case None => None
      case Some(value) => if value < UINT64_LIMIT then Some(value) else None
  }

  lemma {:induction false} DecimalReads(value: nat)
    ensures DigitsValue(Decimal(value)) == Some(value)
    ensures forall i :: 0 <= i < |Decimal(value)| ==> IsDigit(Decimal(value)[i])
  {
    if value >= 10 {
      DecimalReads(value / 10);
      var text := Decimal(value);
      assert text[..|text| - 1] == Decimal(value / 10);
    } else {
      assert [Digit(value)][..0] == "";
    }
  }

  lemma {:induction false} DecimalRoundTrip(value: nat)
    ensures ParseUint(Decimal(value)) == if value < UINT64_LIMIT then Some(value) else None
    ensures forall i :: 0 <= i < |Decimal(value)| ==> IsDigit(Decimal(value)[i])
  {
    DecimalReads(value);
  }

  lemma {:induction false} DigitsAreTaken(input: string, at: nat, end: nat)
    requires at <= end <= |input|
    requires forall i :: at <= i < end ==> IsDigit(input[i])
    requires end == |input| || IsDelimiter(input[end])
    ensures NumberLength(input, at, false, false) == end - at
    decreases end - at
  {
    if at < end {
      DigitsAreTaken(input, at + 1, end);
    }
  }

  /** Anywhere in a text, a written number before a delimiter is one number token, and that token reads as the number. */
  lemma {:induction false} NumberRoundTrip(p: string, value: nat, rest: string)
    requires Delimited(rest)
    ensures NextToken(p + (Decimal(value) + rest), |p|) == Ok((Token(Number, Decimal(value)), |p| + |Decimal(value)|))
    ensures ParseUint(Decimal(value)) == if value < UINT64_LIMIT then Some(value) else None
  {
    DecimalRoundTrip(value);
    hide Decimal;
    hide ParseUint;
    hide NextToken;
    NextTokenIsLocal(p, Decimal(value) + rest, 0);
    DigitsRead(Decimal(value), rest);
  }

  lemma DigitsRead(digits: string, rest: string)
    requires digits != "" && Delimited(rest) && forall i :: 0 <= i < |digits| ==> IsDigit(digits[i])
    ensures NextToken(digits + rest, 0) == Ok((Token(Number, digits), |digits|))
  {
    hide AtomLength;
    hide QuotedBody;
    var input := digits + rest;
    assert forall i :: 0 <= i < |digits| ==> input[i] == digits[i];
    assert rest != "" ==> input[|digits|] == rest[0];
    DigitIsPlain(input[0]);
    assert SkipBlank(input, 0) == 0;
    hide SkipBlank;
    DigitsAreTaken(input, 0, |digits|);
    hide NumberLength;
    assert input[0..|digits|] == digits;
  }

  lemma DigitIsPlain(c: char)
    requires IsDigit(c)
    ensures !IsDelimiter(c) && c != '/' && c != '\n' && c != '\"'
  {
  }

  /** Whatever the lexer delivers as an atom is a name that the writer accepts. */
  lemma AtomsAreNames(input: string, at: nat)
    requires at <= |input| && NextToken(input, at).Ok? && NextToken(input, at).value.0.kind.Atom?
    ensures ValidName(NextToken(input, at).value.0.text)
  {
    var start := SkipBlank(input, at);
    var n := AtomLength(input, start);
    AtomIsMaximal(input, start);
    SkipBlankStops(input, at);
    var s := input[start..start + n];
    assert forall i :: 0 <= i < |s| ==> s[i] == input[start + i];
    assert n > 0;
  }

  lemma {:induction false} SkipBlankStops(input: string, at: nat)
    requires at <= |input|
    ensures var start := SkipBlank(input, at);
      start < |input| ==>
        && !IsBlank(input[start])
        && !(input[start] == '/' && start + 1 < |input| && input[start + 1] == '/')
    decreases |input| - at
  {
    if at < |input| {
      if IsBlank(input[at]) {
        SkipBlankStops(input, at + 1);
      } else if input[at] == '/' && at + 1 < |input| && input[at + 1] == '/' {
        SkipBlankStops(input, LineEnd(input, at + 1));
      }
    }
  }
}
