/**
 * What the lexer of DBC text takes for what (dbc/lexer.go), character by character: what it skips, and how far strings,
 * numbers and names go.
 */
module DbcLexing {
  import opened Wrappers
  import opened DbcText

  // ---- Blanks and comments -----------------------------------------------------------------

  predicate CommentStarts(input: string, i: nat) {
    i + 1 < |input| && input[i] == '/' && input[i + 1] == '/'
  }

  predicate Blank(input: string, i: nat) {
    i < |input| && input[i] in {' ', '\t', '\r'}
  }

  /** No line break from i up to, and not including, j. */
  predicate OnOneLine(input: string, i: nat, j: nat) {
    forall k :: i <= k < j && k < |input| ==> input[k] != '\n'
  }

  ghost predicate InComment(input: string, at: nat, i: nat) {
    exists j :: at <= j <= i && CommentStarts(input, j) && OnOneLine(input, j, i + 1)
  }

  /** Blanks and comments from `at` on end at `start`, where neither goes on. */
  ghost predicate SkipsTo(input: string, at: nat, start: nat) {
    && at <= start <= |input| && !Blank(input, start) && !CommentStarts(input, start)
    && (forall i :: at <= i < start ==> Blank(input, i) || InComment(input, at, i))
    && (forall i :: at <= i < start && CommentStarts(input, i) ==> start == |input| || !OnOneLine(input, i, start + 1))
  }

  lemma {:induction false} LineEndExactly(input: string, at: nat)
    requires at <= |input|
    ensures OnOneLine(input, at, LineEnd(input, at))
    ensures LineEnd(input, at) < |input| ==> input[LineEnd(input, at)] == '\n'
    decreases |input| - at
  {
    if at < |input| && input[at] != '\n' {
      LineEndExactly(input, at + 1);
    }
  }

  lemma {:induction false} SkipsExactly(input: string, at: nat)
    requires at <= |input|
    ensures SkipsTo(input, at, SkipBlank(input, at))
    decreases |input| - at
  {
    if at < |input| {
      if Blank(input, at) {
        SkipsExactly(input, at + 1);
        BlankFirst(input, at, SkipBlank(input, at));
      } else if CommentStarts(input, at) {
        LineEndExactly(input, at + 1);
        var end := LineEnd(input, at + 1);
        SkipsExactly(input, end);
        CommentFirst(input, at, end, SkipBlank(input, at));
      }
    }
  }

  lemma BlankFirst(input: string, at: nat, start: nat)
    requires Blank(input, at) && SkipsTo(input, at + 1, start)
    ensures SkipsTo(input, at, start)
  {
    forall i | at <= i < start
      ensures Blank(input, i) || InComment(input, at, i)
    {
      if i > at && !Blank(input, i) {
        var j :| at + 1 <= j <= i && CommentStarts(input, j) && OnOneLine(input, j, i + 1);
        assert InComment(input, at, i);
      }
    }
  }

  lemma CommentFirst(input: string, at: nat, end: nat, start: nat)
    requires CommentStarts(input, at) && at < end <= |input| && OnOneLine(input, at, end) && SkipsTo(input, end, start)
    requires end < |input| ==> input[end] == '\n'
    ensures SkipsTo(input, at, start)
  {
    assert end < |input| ==> !Blank(input, end) && !CommentStarts(input, end);
    assert start == end;
    forall i | at <= i < start
      ensures InComment(input, at, i)
    {
      assert OnOneLine(input, at, i + 1);
    }
    forall i | at <= i < start && CommentStarts(input, i)
      ensures start == |input| || !OnOneLine(input, i, start + 1)
    {
      assert start < |input| ==> input[start] == '\n';
    }
  }

  /** Only one place ends the blanks and comments. */
  lemma SkipsOnce(input: string, at: nat, left: nat, right: nat)
    requires SkipsTo(input, at, left) && SkipsTo(input, at, right)
    ensures left == right
  {
    if left < right {
      SkipsNoFurther(input, at, left, right);
    }
    if right < left {
      SkipsNoFurther(input, at, right, left);
    }
  }

  lemma SkipsNoFurther(input: string, at: nat, left: nat, right: nat)
    requires SkipsTo(input, at, left) && SkipsTo(input, at, right)
    ensures left >= right
  {
    assert left < right ==> Blank(input, left) || InComment(input, at, left);
  }

  // ---- Strings -----------------------------------------------------------------------------

  /** A string token holds exactly what, with its quotes escaped, stands up to the closing quote. */
  lemma {:induction false} QuotedExactly(rest: string, text: string, n: nat)
    ensures QuotedBody(rest) == Ok((text, n)) <==>
      n <= |rest| && !EndsInBackslash(text) && rest[..n] == Escaped(text) + "\""
    decreases |rest|
  {
    if QuotedBody(rest) == Ok((text, n)) {
      QuotedIsEscaped(rest);
    }
    if n <= |rest| && !EndsInBackslash(text) && rest[..n] == Escaped(text) + "\"" {
      EscapedIsQuoted(rest, text, n);
    }
  }

  lemma {:induction false} QuotedIsEscaped(rest: string)
    ensures QuotedBody(rest).Ok? ==>
      var (text, n) := QuotedBody(rest).value;
      n <= |rest| && !EndsInBackslash(text) && rest[..n] == Escaped(text) + "\""
    decreases |rest|
  {
    NothingEscaped();
    hide Escaped;
    hide EndsInBackslash;
    if QuotedBody(rest).Ok? {
      var (text, n) := QuotedBody(rest).value;
      if rest[0] == '\"' {
        assert rest[..1] == "" + "\"";
      } else {
        var step := if rest[0] == '\\' && |rest| > 1 && rest[1] == '\"' then 2 else 1;
        QuotedIsEscaped(rest[step..]);
        var (tail, m) := QuotedBody(rest[step..]).value;
        assert rest[..n] == rest[..step] + rest[step..][..m];
        assert tail == "" ==> m == 1 && rest[step..][0] == '\"';
        EscapedInFront(if step == 2 then '\"' else rest[0], tail, rest[..step]);
      }
    }
  }

  lemma NothingEscaped()
    ensures Escaped("") == "" && !EndsInBackslash("")
  {
  }

  lemma {:induction false} EscapedInFront(c: char, tail: string, written: string)
    requires written == if c == '\"' then ['\\', '\"'] else [c]
    ensures Escaped([c] + tail) + "\"" == written + (Escaped(tail) + "\"")
    ensures EndsInBackslash([c] + tail) <==> if tail == "" then c == '\\' else EndsInBackslash(tail)
  {
    assert ([c] + tail)[1..] == tail;
  }

  lemma {:induction false} EscapedIsQuoted(rest: string, text: string, n: nat)
    requires n <= |rest| && !EndsInBackslash(text) && rest[..n] == Escaped(text) + "\""
    ensures QuotedBody(rest) == Ok((text, n))
    decreases |text|
  {
    if text == "" {
      assert rest[..n] == "\"" && rest[0] == rest[..n][0];
    } else {
      var step := if text[0] == '\"' then 2 else 1;
      EscapedHead(text, "");
      assert Escaped(text) + "\"" + "" == rest[..n];
      assert Escaped(text[1..]) + "\"" + "" == Escaped(text[1..]) + "\"";
      assert rest[step..][..n - step] == rest[..n][step..];
      EscapedIsQuoted(rest[step..], text[1..], n - step);
      assert rest[0] == rest[..n][0];
      assert n > 1 && rest[1] == rest[..n][1];
      if text[0] == '\\' {
        assert text[1..] != "" && Escaped(text[1..])[0] != '\"';
      }
      assert text == [text[0]] + text[1..];
    }
  }

  // ---- Numbers and names -------------------------------------------------------------------

  predicate IsExponent(c: char) {
    c == 'e' || c == 'E'
  }

  /** One character of a number: a digit, the one point before the exponent, the exponent, or its sign. */
  predicate NumberChar(text: string, i: nat) {
    && i < |text|
    && (|| '0' <= text[i] <= '9'
        || (text[i] == '.' && forall k :: 0 <= k < i ==> text[k] != '.' && !IsExponent(text[k]))
        || (IsExponent(text[i]) && forall k :: 0 <= k < i ==> !IsExponent(text[k]))
        || (text[i] in {'+', '-'} && i > 0 && IsExponent(text[i - 1])))
  }

  /** What may have been read of a number. */
  predicate NumberSoFar(text: string) {
    forall i :: 0 <= i < |text| ==> NumberChar(text, i)
  }

  // What has been read has a point or an exponent exactly if the lexer has seen one.
  ghost predicate ReadNumber(text: string, seenDot: bool, seenExponent: bool) {
    && NumberSoFar(text)
    && (seenDot <==> exists k :: 0 <= k < |text| && text[k] == '.')
    && (seenExponent <==> exists k :: 0 <= k < |text| && IsExponent(text[k]))
  }

  // A sign right behind the exponent has been read with it.
  predicate SignRead(input: string, start: nat, at: nat)
    requires start <= at <= |input|
  {
    start < at < |input| && IsExponent(input[at - 1]) ==> input[at] !in {'+', '-'}
  }

  lemma NumberGrows(text: string, c: char)
    requires NumberSoFar(text)
    ensures NumberSoFar(text + [c]) <==> NumberChar(text + [c], |text|)
  {
    forall i | 0 <= i < |text|
      ensures NumberChar(text + [c], i)
    {
      assert NumberChar(text, i);
      assert (text + [c])[..|text|] == text;
    }
  }

  lemma OneMore(text: string, c: char, seenDot: bool, seenExponent: bool)
    requires ReadNumber(text, seenDot, seenExponent) && NumberSoFar(text + [c])
    ensures ReadNumber(text + [c], seenDot || c == '.', seenExponent || IsExponent(c))
  {
    var more := text + [c];
    assert more[|text|] == c && forall k :: 0 <= k < |text| ==> more[k] == text[k];
    if k :| 0 <= k < |text| && text[k] == '.' {
      assert more[k] == '.';
    }
    if k :| 0 <= k < |text| && IsExponent(text[k]) {
      assert IsExponent(more[k]);
    }
  }

  lemma NextIsNumber(text: string, c: char, seenDot: bool, seenExponent: bool)
    requires ReadNumber(text, seenDot, seenExponent)
    ensures NumberSoFar(text + [c]) <==>
      || IsDigit(c) || (c == '.' && !seenDot && !seenExponent) || (IsExponent(c) && !seenExponent)
      || (c in {'+', '-'} && text != "" && IsExponent(text[|text| - 1]))
  {
    NumberGrows(text, c);
    var more := text + [c];
    assert more[|text|] == c && forall k :: 0 <= k < |text| ==> more[k] == text[k];
    if c == '.' && NumberChar(more, |text|) {
      assert forall k :: 0 <= k < |text| ==> text[k] != '.' && !IsExponent(text[k]);
    }
    if IsExponent(c) && NumberChar(more, |text|) {
      assert forall k :: 0 <= k < |text| ==> !IsExponent(text[k]);
    }
  }

  // One more character, and the number read so far.
  lemma Longer(input: string, start: nat, at: nat)
    requires start <= at < |input|
    ensures input[start..at + 1] == input[start..at] + [input[at]]
    ensures start < at ==> input[start..at] != "" && input[start..at][at - start - 1] == input[at - 1]
  {
  }

  // How many characters the lexer takes next: one, two for an exponent with a sign, or none.
  function Taken(input: string, at: nat, seenDot: bool, seenExponent: bool): (n: nat)
    requires at <= |input|
    ensures at + n <= |input|
  {
    if at == |input| then 0
    else if IsDigit(input[at]) || (input[at] == '.' && !seenDot && !seenExponent) then 1
    else if IsExponent(input[at]) && !seenExponent then if at + 1 < |input| && input[at + 1] in {'+', '-'} then 2 else 1
    else 0
  }

  lemma LengthSteps(input: string, at: nat, seenDot: bool, seenExponent: bool)
    requires at <= |input|
    ensures var n := Taken(input, at, seenDot, seenExponent);
      NumberLength(input, at, seenDot, seenExponent) ==
        if n == 0 then 0
        else n + NumberLength(input, at + n, seenDot || input[at] == '.', seenExponent || IsExponent(input[at]))
  {
  }

  lemma ReadsOn(input: string, start: nat, at: nat, seenDot: bool, seenExponent: bool)
    requires start <= at < |input| && ReadNumber(input[start..at], seenDot, seenExponent) && SignRead(input, start, at)
    ensures var n := Taken(input, at, seenDot, seenExponent);
      if n == 0 then !NumberSoFar(input[start..at + 1])
      else
        && ReadNumber(input[start..at + n], seenDot || input[at] == '.', seenExponent || IsExponent(input[at]))
        && SignRead(input, start, at + n)
  {
    hide NumberSoFar;
    hide ReadNumber;
    var (text, c) := (input[start..at], input[at]);
    Longer(input, start, at);
    NextIsNumber(text, c, seenDot, seenExponent);
    var n := Taken(input, at, seenDot, seenExponent);
    if n > 0 {
      OneMore(text, c, seenDot, seenExponent);
    }
    if n == 2 {
      Longer(input, start, at + 1);
      NextIsNumber(text + [c], input[at + 1], seenDot, true);
      OneMore(text + [c], input[at + 1], seenDot, true);
    }
  }

  /** From what has been read on, a number goes as far as it stays one. */
  lemma {:induction false} NumberGoesOn(input: string, start: nat, at: nat, seenDot: bool, seenExponent: bool)
    requires start <= at <= |input| && ReadNumber(input[start..at], seenDot, seenExponent) && SignRead(input, start, at)
    ensures var end := at + NumberLength(input, at, seenDot, seenExponent);
      NumberSoFar(input[start..end]) && (end < |input| ==> !NumberSoFar(input[start..end + 1]))
    decreases |input| - at
  {
    hide NumberSoFar;
    hide ReadNumber;
    hide NumberLength;
    hide SignRead;
    ReadIsNumber(input[start..at], seenDot, seenExponent);
    LengthSteps(input, at, seenDot, seenExponent);
    if at < |input| {
      ReadsOn(input, start, at, seenDot, seenExponent);
      var n := Taken(input, at, seenDot, seenExponent);
      hide Taken;
      if n > 0 {
        NumberGoesOn(input, start, at + n, seenDot || input[at] == '.', seenExponent || IsExponent(input[at]));
      }
    }
  }

  lemma ReadIsNumber(text: string, seenDot: bool, seenExponent: bool)
    requires ReadNumber(text, seenDot, seenExponent)
    ensures NumberSoFar(text)
  {
  }

  predicate Delimits(c: char) {
    c in {' ', '\t', '\r', '\n', '\"', ':', ';', '|', '@', '(', ')', '[', ']', ',', '+', '-'}
  }

  lemma {:induction false} NameExactly(input: string, at: nat)
    requires at <= |input|
    ensures var end := at + AtomLength(input, at);
      (forall i :: at <= i < end ==> !Delimits(input[i])) && (end < |input| ==> Delimits(input[end]))
    decreases |input| - at
  {
    if at < |input| && !IsDelimiter(input[at]) {
      NameExactly(input, at + 1);
    }
  }

  // ---- Tokens ------------------------------------------------------------------------------

  /** What a stretch of text that follows blanks and comments is a token of, and why the token ends where it does. */
  ghost predicate IsToken(input: string, start: nat, token: Token, end: nat) {
    && start <= end <= |input|
    && match token.kind
       case EndOfFile => start == end == |input| && token.text == ""
       case Newline => end == start + 1 && input[start] == '\n' && token.text == "\n"
       case Text => end > start + 1 && !EndsInBackslash(token.text) && input[start..end] == "\"" + Escaped(token.text) + "\""
       case Punctuation =>
         && end == start + 1 && token.text == input[start..end]
         && input[start] in {':', ';', '|', '@', '(', ')', '[', ']', ',', '+', '-'}
       case Number =>
         && start < end && token.text == input[start..end] && BeginsNumber(input, start)
         && NumberSoFar(token.text) && (end < |input| ==> !NumberSoFar(input[start..end + 1]))
       case Atom =>
         && start < end && token.text == input[start..end] && !BeginsNumber(input, start)
         && (forall i :: start <= i < end ==> !Delimits(input[i])) && (end < |input| ==> Delimits(input[end]))
  }

  predicate BeginsNumber(input: string, start: nat) {
    && start < |input|
    && ('0' <= input[start] <= '9' || (input[start] == '.' && start + 1 < |input| && '0' <= input[start + 1] <= '9'))
  }

  /** The next token is what stands behind blanks and comments; only a string that is not closed is refused. */
  lemma TokenExactly(input: string, at: nat)
    requires at <= |input|
    ensures match NextToken(input, at)
      case Ok((token, end)) => exists start: nat :: SkipsTo(input, at, start) && IsToken(input, start, token, end)
      case Err(_) => exists start: nat ::
        SkipsTo(input, at, start) && start < |input| && input[start] == '\"' && QuotedBody(input[start + 1..]).Err?
  {
    hide SkipBlank;
    hide QuotedBody;
    hide AtomLength;
    hide NumberLength;
    hide SkipsTo;
    hide NumberSoFar;
    hide Escaped;
    var start := SkipBlank(input, at);
    SkipsExactly(input, at);
    SkipStops(input, at, start);
    if start < |input| {
      if input[start] == '\"' {
        if QuotedBody(input[start + 1..]).Ok? {
          StringStands(input, start);
        }
      } else if !IsDelimiter(input[start]) && StartsNumber(input, start) {
        NumberStands(input, start);
      } else if !IsDelimiter(input[start]) {
        NameExactly(input, start);
        NameIsThere(input, start);
      }
    }
  }

  lemma SkipStops(input: string, at: nat, start: nat)
    requires SkipsTo(input, at, start)
    ensures start <= |input| && (start < |input| ==> input[start] !in {' ', '\t', '\r'})
  {
  }

  lemma StringStands(input: string, start: nat)
    requires start < |input| && input[start] == '\"' && QuotedBody(input[start + 1..]).Ok?
    ensures var (text, n) := QuotedBody(input[start + 1..]).value;
      IsToken(input, start, Token(Text, text), start + 1 + n)
  {
    hide Escaped;
    var (text, n) := QuotedBody(input[start + 1..]).value;
    QuotedExactly(input[start + 1..], text, n);
    assert input[start..start + 1 + n] == "\"" + input[start + 1..][..n];
  }

  lemma {:induction false} NumberStands(input: string, start: nat)
    requires start < |input| && StartsNumber(input, start)
    ensures var end := start + NumberLength(input, start, false, false);
      IsToken(input, start, Token(Number, input[start..end]), end)
  {
    hide NumberSoFar;
    NothingRead();
    assert input[start..start] == "";
    NumberGoesOn(input, start, start, false, false);
  }

  lemma NothingRead()
    ensures ReadNumber("", false, false)
  {
  }

  lemma {:induction false} NameIsThere(input: string, start: nat)
    requires start < |input| && !IsDelimiter(input[start])
    ensures AtomLength(input, start) > 0
  {
  }
}
