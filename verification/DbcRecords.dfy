/**
 * SG_MUL_VAL_ records and signal markers as text: what the writer prints, what the lexer and the parser make
 * of it, and what the resolver rebuilds from that (dbc/write.go, dbc/lexer.go, dbc/parse.go, dbc/resolve.go).
 */
module DbcRecords {
  import opened Wrappers
  import opened DbcLayout
  import opened DbcText
  import opened DbcMultiplex

  const KEYWORD: string := "SG_MUL_VAL_"
  const SIGNAL: string := "SG_"
  const ID_LIMIT: nat := 0x1_0000_0000

  // A record of the file, with the raw identifier of its message.
  datatype Tagged = Tagged(id: nat, record: RawRecord)

  datatype Message = Message(id: nat, signals: seq<MuxSignal>)

  // ---- The text ----------------------------------------------------------------------------

  function RangeText(r: Range): string {
    " " + (Decimal(r.first) + ("-" + Decimal(r.last)))
  }

  /** The ranges from the i-th on, separated by commas. */
  function RangesText(ranges: seq<Range>, i: nat): string
    requires i <= |ranges|
    decreases |ranges| - i
  {
    if i == |ranges| then ""
    else (if i == 0 then "" else ",") + (RangeText(ranges[i]) + RangesText(ranges, i + 1))
  }

  function RecordText(t: Tagged): string {
    KEYWORD + (" " + (Decimal(t.id) + (" " + (t.record.signal + (" " + (t.record.selector
      + (RangesText(t.record.ranges, 0) + (";" + "\n"))))))))
  }

  function RecordsText(records: seq<Tagged>): string {
    if records == [] then "" else RecordText(records[0]) + RecordsText(records[1..])
  }

  function TaggedRecords(id: nat, records: seq<RawRecord>): (tagged: seq<Tagged>)
    ensures |tagged| == |records|
  {
    seq(|records|, i requires 0 <= i < |records| => Tagged(id, records[i]))
  }

  /** The records of all messages, in the order of the messages. */
  function SectionRecords(messages: seq<Message>): seq<Tagged> {
    if messages == [] then []
    else TaggedRecords(messages[0].id, WrittenRecords(messages[0].signals)) + SectionRecords(messages[1..])
  }

  // ---- The tokens --------------------------------------------------------------------------

  function Punct(c: char): Token {
    Token(Punctuation, [c])
  }

  function RangeTokens(r: Range): seq<Token> {
    [Token(Number, Decimal(r.first)), Punct('-'), Token(Number, Decimal(r.last))]
  }

  function RangesTokens(ranges: seq<Range>, i: nat): seq<Token>
    requires i <= |ranges|
    decreases |ranges| - i
  {
    if i == |ranges| then []
    else (if i == 0 then [] else [Punct(',')]) + (RangeTokens(ranges[i]) + RangesTokens(ranges, i + 1))
  }

  function RecordTokens(t: Tagged): seq<Token> {
    [Token(Atom, KEYWORD), Token(Number, Decimal(t.id)), Token(Atom, t.record.signal), Token(Atom, t.record.selector)]
      + (RangesTokens(t.record.ranges, 0) + [Punct(';'), Token(Newline, "\n")])
  }

  // ---- Lexing what was written -----------------------------------------------------------------

  lemma BlankMoves(rest: string)
    ensures NextToken(" " + rest, 0) == Moved(1, NextToken(rest, 0))
  {
    BlankStep(rest);
    hide SkipBlank;
    hide AtomLength;
    hide NumberLength;
    hide QuotedBody;
    NextTokenIsLocal(" ", rest, 0);
    assert NextToken(" " + rest, 0) == NextToken(" " + rest, 1);
  }

  lemma {:induction false} BlankStep(rest: string)
    ensures SkipBlank(" " + rest, 0) == SkipBlank(" " + rest, 1)
  {
    assert (" " + rest)[0] == ' ';
  }

  lemma {:induction false} BlankIsSkipped(rest: string)
    ensures Tokens(" " + rest) == Tokens(rest)
  {
    BlankMoves(rest);
    hide NextToken;
    var next := NextToken(rest, 0);
    if next.Ok? {
      assert (" " + rest)[1 + next.value.1..] == rest[next.value.1..];
    }
  }

  lemma {:induction false} OneToken(text: string, token: Token, rest: string)
    requires NextToken(text + rest, 0) == Ok((token, |text|)) && !token.kind.EndOfFile?
    ensures Tokens(text + rest) == Prepend([token], Tokens(rest))
  {
    hide NextToken;
    assert (text + rest)[|text|..] == rest;
  }

  lemma {:induction false} PunctuationReads(c: char, rest: string)
    requires c in {':', ';', ',', '-'}
    ensures Tokens([c] + rest) == Prepend([Punct(c)], Tokens(rest))
  {
    var input := [c] + rest;
    assert input[0] == c;
    assert SkipBlank(input, 0) == 0;
    OneToken([c], Punct(c), rest);
  }

  lemma {:induction false} NewlineReads(rest: string)
    ensures Tokens("\n" + rest) == Prepend([Token(Newline, "\n")], Tokens(rest))
  {
    var input := "\n" + rest;
    assert input[0] == '\n';
    assert SkipBlank(input, 0) == 0;
    OneToken("\n", Token(Newline, "\n"), rest);
  }

  lemma {:induction false} AtomReads(name: string, rest: string)
    requires ValidName(name) && Delimited(rest)
    ensures Tokens(name + rest) == Prepend([Token(Atom, name)], Tokens(rest))
  {
    NameReads(name, rest);
    OneToken(name, Token(Atom, name), rest);
  }

  lemma {:induction false} NumberReads(value: nat, rest: string)
    requires Delimited(rest)
    ensures Tokens(Decimal(value) + rest) == Prepend([Token(Number, Decimal(value))], Tokens(rest))
  {
    hide NextToken;
    NumberRoundTrip("", value, rest);
    assert "" + (Decimal(value) + rest) == Decimal(value) + rest;
    OneToken(Decimal(value), Token(Number, Decimal(value)), rest);
  }

  lemma {:induction false} RangeReads(r: Range, rest: string)
    requires Delimited(rest)
    ensures Tokens(RangeText(r) + rest) == Prepend(RangeTokens(r), Tokens(rest))
  {
    hide Tokens;
    hide Decimal;
    hide Prepend;
    var (first, last) := (Decimal(r.first), Decimal(r.last));
    assert RangeText(r) + rest == " " + (first + ("-" + (last + rest)));
    BlankIsSkipped(first + ("-" + (last + rest)));
    NumberReads(r.first, "-" + (last + rest));
    PunctuationReads('-', last + rest);
    NumberReads(r.last, rest);
    PrependTwice([Punct('-')], [Token(Number, last)], Tokens(rest));
    var two := [Punct('-')] + [Token(Number, last)];
    PrependTwice([Token(Number, first)], two, Tokens(rest));
    assert [Token(Number, first)] + two == RangeTokens(r);
  }

  lemma {:induction false} RangesRead(ranges: seq<Range>, i: nat, rest: string)
    requires i <= |ranges| && Delimited(rest)
    ensures Tokens(RangesText(ranges, i) + rest) == Prepend(RangesTokens(ranges, i), Tokens(rest))
    ensures Delimited(RangesText(ranges, i) + rest)
    decreases |ranges| - i
  {
    hide Tokens;
    hide Prepend;
    hide RangeTokens;
    hide RangeText;
    hide Delimited;
    if i == |ranges| {
      assert "" + rest == rest;
      PrependTwice([], [], Tokens(rest));
    } else {
      RangesRead(ranges, i + 1, rest);
      var more := RangesText(ranges, i + 1);
      RangeReads(ranges[i], more + rest);
      PrependTwice(RangeTokens(ranges[i]), RangesTokens(ranges, i + 1), Tokens(rest));
      assert (RangeText(ranges[i]) + more) + rest == RangeText(ranges[i]) + (more + rest);
      RangeIsDelimited(ranges[i], more + rest);
      if i == 0 {
        assert RangesText(ranges, i) + rest == RangeText(ranges[i]) + (more + rest);
        assert RangesTokens(ranges, i) == RangeTokens(ranges[i]) + RangesTokens(ranges, i + 1);
      } else {
        var one := RangeText(ranges[i]) + (more + rest);
        assert RangesText(ranges, i) + rest == "," + one;
        CommaIsDelimited(one);
        PunctuationReads(',', one);
        PrependTwice([Punct(',')], RangeTokens(ranges[i]) + RangesTokens(ranges, i + 1), Tokens(rest));
      }
    }
  }

  lemma RangeIsDelimited(r: Range, rest: string)
    ensures Delimited(RangeText(r) + rest)
  {
    assert (RangeText(r) + rest)[0] == ' ';
  }

  lemma CommaIsDelimited(rest: string)
    ensures Delimited("," + rest)
  {
  }

  predicate NamedProperly(t: Tagged) {
    ValidName(t.record.signal) && ValidName(t.record.selector)
  }

  /** Wherever it stands, a written record lexes to the tokens of its parts. */
  lemma {:induction false} RecordReads(t: Tagged, rest: string)
    requires NamedProperly(t)
    ensures Tokens(RecordText(t) + rest) == Prepend(RecordTokens(t), Tokens(rest))
  {
    hide Tokens;
    hide Prepend;
    hide Decimal;
    hide RangesText;
    hide RangesTokens;
    hide ValidName;
    assert ValidName(KEYWORD) by {
      KeywordsAreNames();
    }
    var (id, signal, selector, ranges) := (Decimal(t.id), t.record.signal, t.record.selector, RangesText(t.record.ranges, 0));
    var end := ";" + ("\n" + rest);
    NewlineReads(rest);
    PunctuationReads(';', "\n" + rest);
    PrependTwice([Punct(';')], [Token(Newline, "\n")], Tokens(rest));
    RangesRead(t.record.ranges, 0, end);
    var tail := [Punct(';')] + [Token(Newline, "\n")];
    assert tail == [Punct(';'), Token(Newline, "\n")];
    PrependTwice(RangesTokens(t.record.ranges, 0), tail, Tokens(rest));
    var text3 := selector + (ranges + end);
    AtomReads(selector, ranges + end);
    BlankIsSkipped(text3);
    var text2 := signal + (" " + text3);
    AtomReads(signal, " " + text3);
    BlankIsSkipped(text2);
    var text1 := id + (" " + text2);
    NumberReads(t.id, " " + text2);
    BlankIsSkipped(text1);
    AtomReads(KEYWORD, " " + text1);
    RecordJoins(id, signal, selector, ranges, rest);
    var body := RangesTokens(t.record.ranges, 0) + tail;
    PrependFour(Token(Atom, KEYWORD), Token(Number, id), Token(Atom, signal), Token(Atom, selector), body, Tokens(rest));
  }

  lemma RecordJoins(id: string, signal: string, selector: string, ranges: string, rest: string)
    ensures (KEYWORD + (" " + (id + (" " + (signal + (" " + (selector + (ranges + (";" + "\n"))))))))) + rest
         == KEYWORD + (" " + (id + (" " + (signal + (" " + (selector + (ranges + (";" + ("\n" + rest)))))))))
  {
    assert (";" + "\n") + rest == ";" + ("\n" + rest);
    var inner := ranges + (";" + "\n");
    assert inner + rest == ranges + (";" + ("\n" + rest));
    assert (selector + inner) + rest == selector + (inner + rest);
    var two := " " + (selector + inner);
    assert two + rest == " " + ((selector + inner) + rest);
    assert (signal + two) + rest == signal + (two + rest);
    var three := " " + (signal + two);
    assert three + rest == " " + ((signal + two) + rest);
    assert (id + three) + rest == id + (three + rest);
    var four := " " + (id + three);
    assert four + rest == " " + ((id + three) + rest);
    assert (KEYWORD + four) + rest == KEYWORD + (four + rest);
  }

  lemma PrependFour(a: Token, b: Token, c: Token, d: Token, body: seq<Token>, rest: Result<seq<Token>, Error>)
    ensures Prepend([a], Prepend([b], Prepend([c], Prepend([d], Prepend(body, rest))))) == Prepend([a, b, c, d] + body, rest)
  {
    if rest.Ok? {
      assert [a] + ([b] + ([c] + ([d] + (body + rest.value)))) == ([a, b, c, d] + body) + rest.value;
    }
  }

  lemma KeywordsAreNames()
    ensures ValidName(KEYWORD) && ValidName(SIGNAL)
  {
  }

  function AllTokens(records: seq<Tagged>): seq<Token> {
    if records == [] then [] else RecordTokens(records[0]) + AllTokens(records[1..])
  }

  lemma {:induction false} RecordsRead(records: seq<Tagged>, rest: string)
    requires forall t :: t in records ==> NamedProperly(t)
    ensures Tokens(RecordsText(records) + rest) == Prepend(AllTokens(records), Tokens(rest))
  {
    hide Tokens;
    hide Prepend;
    hide RecordText;
    hide RecordTokens;
    if records == [] {
      assert "" + rest == rest;
      PrependTwice([], [], Tokens(rest));
    } else {
      var more := RecordsText(records[1..]);
      assert (RecordText(records[0]) + more) + rest == RecordText(records[0]) + (more + rest);
      RecordsRead(records[1..], rest);
      RecordReads(records[0], more + rest);
      PrependTwice(RecordTokens(records[0]), AllTokens(records[1..]), Tokens(rest));
    }
  }

  // ---- Parsing the tokens ------------------------------------------------------------------------

  datatype ParseError = Unexpected | NotUnsigned | RangeReversed

  // What is left to read; the token list of a file always ends with the end of the file.
  function Take(tokens: seq<Token>, kind: Kind): Result<(string, seq<Token>), ParseError> {
    if tokens == [] || tokens[0].kind != kind then Err(Unexpected) else Ok((tokens[0].text, tokens[1..]))
  }

  function TakePunctuation(tokens: seq<Token>, c: char): Result<seq<Token>, ParseError> {
    if tokens == [] || tokens[0] != Punct(c) then Err(Unexpected) else Ok(tokens[1..])
  }

  predicate IntegerText(text: string) {
    forall i :: 0 <= i < |text| ==> text[i] !in {'.', 'e', 'E'}
  }

  /** parseUint64 and parseUint32, by their limits. */
  function TakeUint(tokens: seq<Token>, limit: nat): Result<(nat, seq<Token>), ParseError> {
    var number :- Take(tokens, Number);
    if !IntegerText(number.0) then Err(NotUnsigned)
    else
      match ParseUint(number.0)
      case None => Err(NotUnsigned)
      case Some(value) => if value < limit then Ok((value, number.1)) else Err(NotUnsigned)
  }

  function ParseRange(tokens: seq<Token>): (r: Result<(Range, seq<Token>), ParseError>)
    ensures r.Ok? ==> |r.value.1| < |tokens|
  {
    var first :- TakeUint(tokens, UINT64_LIMIT);
    var rest :- TakePunctuation(first.1, '-');
    var last :- TakeUint(rest, UINT64_LIMIT);
    if first.0 > last.0 then Err(RangeReversed) else Ok((Range(first.0, last.0), last.1))
  }

  /** The loop of parseExtendedMultiplex: the ranges, and what follows them. */
  function ParseRanges(tokens: seq<Token>): (r: Result<(seq<Range>, seq<Token>), ParseError>)
    ensures r.Ok? ==> |r.value.1| < |tokens|
  {
    var one :- ParseRange(tokens);
    if one.1 != [] && one.1[0] == Punct(',') then
      var more :- ParseRanges(one.1[1..]);
      Ok(([one.0] + more.0, more.1))
    else Ok(([one.0], one.1))
  }

  lemma {:induction false} RangesStep(tokens: seq<Token>)
    ensures ParseRange(tokens).Err? ==> ParseRanges(tokens) == Err(ParseRange(tokens).error)
    ensures ParseRange(tokens).Ok? ==>
      var (one, rest) := ParseRange(tokens).value;
      ParseRanges(tokens) == if rest != [] && rest[0] == Punct(',') then Behind([one], ParseRanges(rest[1..])) else Ok(([one], rest))
  {
    hide ParseRange;
  }

  /** endStatement */
  function EndStatement(tokens: seq<Token>): Result<seq<Token>, ParseError> {
    var rest :- TakePunctuation(tokens, ';');
    if rest != [] && rest[0].kind.Newline? then Ok(rest[1..])
    else if rest != [] && rest[0].kind.EndOfFile? then Ok(rest)
    else Err(Unexpected)
  }

  /** parseExtendedMultiplex, behind its keyword. */
  function ParseRecord(tokens: seq<Token>): (r: Result<(Tagged, seq<Token>), ParseError>)
    ensures r.Ok? ==> |r.value.1| < |tokens|
  {
    var id :- TakeUint(tokens, ID_LIMIT);
    var signal :- Take(id.1, Atom);
    var selector :- Take(signal.1, Atom);
    var ranges :- ParseRanges(selector.1);
    var rest :- EndStatement(ranges.1);
    Ok((Tagged(id.0, RawRecord(signal.0, selector.0, ranges.0)), rest))
  }

  /** parse, over a stretch of SG_MUL_VAL_ records: up to another keyword or the end of the file. */
  function ParseRecords(tokens: seq<Token>): Result<seq<Tagged>, ParseError>
    decreases |tokens|
  {
    if tokens == [] then Ok([])
    else if tokens[0].kind.Newline? then ParseRecords(tokens[1..])
    else if tokens[0] != Token(Atom, KEYWORD) then Ok([])
    else
      var one :- ParseRecord(tokens[1..]);
      var more :- ParseRecords(one.1);
      Ok([one.0] + more)
  }

  /** The parser at work on the tokens of a file. */
  class Parser {
    const tokens: seq<Token>
    var index: nat
    var multiplex: seq<Tagged>

    constructor (tokens: seq<Token>)
      requires tokens != [] && tokens[|tokens| - 1].kind.EndOfFile?
      ensures this.tokens == tokens && index == 0 && multiplex == [] && Valid()
    {
      this.tokens := tokens;
      index, multiplex := 0, [];
    }

    predicate Valid()
      reads this
    {
      index < |tokens| && tokens[|tokens| - 1].kind.EndOfFile?
    }

    function Left(): seq<Token>
      requires Valid()
      reads this
    {
      tokens[index..]
    }

    // next and take: the end of the file is never passed.
    method TakeToken(kind: Kind) returns (r: Result<string, ParseError>)
      requires Valid() && !kind.EndOfFile?
      modifies this`index
      ensures Valid() && index >= old(index)
      ensures match Take(old(Left()), kind) {
                case Ok((text, rest)) => r == Ok(text) && Left() == rest
                case Err(error) => r == Err(error)
              }
    {
      var token := tokens[index];
      if index < |tokens| - 1 {
        index := index + 1;
      }
      if token.kind != kind {
        return Err(Unexpected);
      }
      return Ok(token.text);
    }

    method TakePunct(c: char) returns (r: Result<(), ParseError>)
      requires Valid()
      modifies this`index
      ensures Valid() && index >= old(index)
      ensures match TakePunctuation(old(Left()), c) {
                case Ok(rest) => r.Ok? && Left() == rest
                case Err(error) => r == Err(error)
              }
    {
      var token := tokens[index];
      if index < |tokens| - 1 {
        index := index + 1;
      }
      if token != Punct(c) {
        return Err(Unexpected);
      }
      return Ok(());
    }

    method TakeNumber(limit: nat) returns (r: Result<nat, ParseError>)
      requires Valid()
      modifies this`index
      ensures Valid() && index >= old(index)
      ensures match TakeUint(old(Left()), limit) {
                case Ok((value, rest)) => r == Ok(value) && Left() == rest
                case Err(error) => r == Err(error)
              }
    {
      var text := TakeToken(Number);
      if text.Err? {
        return Err(text.error);
      }
      if !IntegerText(text.value) {
        return Err(NotUnsigned);
      }
      var value := ParseUint(text.value);
      if value.None? || value.value >= limit {
        return Err(NotUnsigned);
      }
      return Ok(value.value);
    }

    method TakeRange() returns (r: Result<Range, ParseError>)
      requires Valid()
      modifies this`index
      ensures Valid() && index >= old(index)
      ensures match ParseRange(old(Left())) {
                case Ok((one, rest)) => r == Ok(one) && Left() == rest
                case Err(error) => r == Err(error)
              }
    {
      hide TakeUint;
      hide TakePunctuation;
      var first := TakeNumber(UINT64_LIMIT);
      if first.Err? {
        return Err(first.error);
      }
      var minus := TakePunct('-');
      if minus.Err? {
        return Err(minus.error);
      }
      var last := TakeNumber(UINT64_LIMIT);
      if last.Err? {
        return Err(last.error);
      }
      if first.value > last.value {
        return Err(RangeReversed);
      }
      return Ok(Range(first.value, last.value));
    }

    method TakeRanges() returns (r: Result<seq<Range>, ParseError>)
      requires Valid()
      modifies this`index
      ensures Valid() && index >= old(index)
      ensures match ParseRanges(old(Left())) {
                case Ok((ranges, rest)) => r == Ok(ranges) && Left() == rest
                case Err(error) => r == Err(error)
              }
    {
      hide ParseRange;
      hide ParseRanges;
      var ranges: seq<Range> := [];
      ghost var start := Left();
      StillToParse(ParseRanges(start));
      while true
        invariant Valid() && index >= old(index)
        invariant ParseRanges(start) == Behind(ranges, ParseRanges(Left()))
        decreases |tokens| - index
      {
        ghost var left := Left();
        RangesStep(left);
        var one := TakeRange();
        if one.Err? {
          return Err(one.error);
        }
        if tokens[index] != Punct(',') {
          return Ok(ranges + [one.value]);
        }
        ghost var at := index;
        index := index + 1;
        assert |tokens[at..]| < |left|;
        OneMoreRange(ranges, one.value, ParseRanges(Left()));
        ranges := ranges + [one.value];
      }
    }

    method TakeEnd() returns (r: Result<(), ParseError>)
      requires Valid()
      modifies this`index
      ensures Valid() && index >= old(index)
      ensures match EndStatement(old(Left())) {
                case Ok(rest) => r.Ok? && Left() == rest
                case Err(error) => r == Err(error)
              }
    {
      var semicolon := TakePunct(';');
      if semicolon.Err? {
        return Err(semicolon.error);
      }
      if tokens[index].kind.Newline? {
        index := index + 1;
      } else if !tokens[index].kind.EndOfFile? {
        return Err(Unexpected);
      }
      return Ok(());
    }

    /** parseExtendedMultiplex */
    method TakeRecord() returns (r: Result<Tagged, ParseError>)
      requires Valid()
      modifies this`index
      ensures Valid() && index >= old(index)
      ensures match ParseRecord(old(Left())) {
                case Ok((record, rest)) => r == Ok(record) && Left() == rest
                case Err(error) => r == Err(error)
              }
    {
      hide TakeUint;
      hide Take;
      hide ParseRanges;
      hide EndStatement;
      var id := TakeNumber(ID_LIMIT);
      if id.Err? {
        return Err(id.error);
      }
      var signal := TakeToken(Atom);
      if signal.Err? {
        return Err(signal.error);
      }
      var selector := TakeToken(Atom);
      if selector.Err? {
        return Err(selector.error);
      }
      var ranges := TakeRanges();
      if ranges.Err? {
        return Err(ranges.error);
      }
      var end := TakeEnd();
      if end.Err? {
        return Err(end.error);
      }
      return Ok(Tagged(id.value, RawRecord(signal.value, selector.value, ranges.value)));
    }

    /** parse, from the first record of a section on. */
    method TakeRecords() returns (r: Result<(), ParseError>)
      requires Valid()
      modifies this
      ensures Valid()
      ensures r.Ok? == ParseRecords(old(Left())).Ok?
      ensures r.Ok? ==> multiplex == old(multiplex) + ParseRecords(old(Left())).value
    {
      hide ParseRecord;
      hide ParseRecords;
      hide Joined;
      ghost var start := Left();
      ghost var taken: seq<Tagged> := [];
      NothingParsed(ParseRecords(start));
      while true
        invariant Valid()
        invariant multiplex == old(multiplex) + taken
        invariant ParseRecords(start) == Joined(taken, ParseRecords(Left()))
        decreases |tokens| - index
      {
        ghost var left := Left();
        RecordsStep(taken, left);
        if tokens[index].kind.Newline? {
          index := index + 1;
          assert Left() == left[1..];
        } else if tokens[index] != Token(Atom, KEYWORD) {
          return Ok(());
        } else {
          index := index + 1;
          assert Left() == left[1..];
          var record := TakeRecord();
          if record.Err? {
            return Err(record.error);
          }
          RecordJoined(taken, record.value, ParseRecords(Left()));
          taken := taken + [record.value];
          multiplex := multiplex + [record.value];
        }
      }
    }
  }

  // One step of the loop: what is left, in terms of what is left behind the next token or record.
  lemma {:induction false} RecordsStep(taken: seq<Tagged>, left: seq<Token>)
    requires left != []
    ensures left[0].kind.Newline? ==> ParseRecords(left) == ParseRecords(left[1..])
    ensures !left[0].kind.Newline? && left[0] != Token(Atom, KEYWORD) ==> Joined(taken, ParseRecords(left)) == Ok(taken)
    ensures !left[0].kind.Newline? && left[0] == Token(Atom, KEYWORD) ==>
      match ParseRecord(left[1..])
      case Err(error) => Joined(taken, ParseRecords(left)) == Err(error)
      case Ok((record, rest)) => Joined(taken, ParseRecords(left)) == Joined(taken, Joined([record], ParseRecords(rest)))
  {
    hide ParseRecord;
    assert taken + [] == taken;
  }

  function Behind(done: seq<Range>, r: Result<(seq<Range>, seq<Token>), ParseError>): Result<(seq<Range>, seq<Token>), ParseError> {
    match r
    case Ok((ranges, rest)) => Ok((done + ranges, rest))
    case Err(error) => Err(error)
  }

  lemma StillToParse(r: Result<(seq<Range>, seq<Token>), ParseError>)
    ensures Behind([], r) == r
  {
    if r.Ok? {
      assert [] + r.value.0 == r.value.0;
    }
  }

  lemma OneMoreRange(done: seq<Range>, one: Range, r: Result<(seq<Range>, seq<Token>), ParseError>)
    ensures Behind(done, Behind([one], r)) == Behind(done + [one], r)
  {
    if r.Ok? {
      assert done + ([one] + r.value.0) == done + [one] + r.value.0;
    }
  }

  function Joined(done: seq<Tagged>, r: Result<seq<Tagged>, ParseError>): Result<seq<Tagged>, ParseError> {
    match r
    case Ok(records) => Ok(done + records)
    case Err(error) => Err(error)
  }

  lemma NothingParsed(r: Result<seq<Tagged>, ParseError>)
    ensures Joined([], r) == r
  {
    if r.Ok? {
      assert [] + r.value == r.value;
    }
  }

  lemma RecordJoined(done: seq<Tagged>, one: Tagged, r: Result<seq<Tagged>, ParseError>)
    ensures Joined(done, Joined([one], r)) == Joined(done + [one], r)
  {
    if r.Ok? {
      assert done + ([one] + r.value) == done + [one] + r.value;
    }
  }

  // ---- What was written parses back --------------------------------------------------------------

  ghost predicate Parsable(t: Tagged) {
    t.id < ID_LIMIT && ValidRanges(t.record.ranges)
  }

  lemma {:induction false} UintParses(value: nat, limit: nat, rest: seq<Token>)
    requires value < limit <= UINT64_LIMIT
    ensures TakeUint([Token(Number, Decimal(value))] + rest, limit) == Ok((value, rest))
  {
    DecimalRoundTrip(value);
    hide Decimal;
    hide ParseUint;
    var tokens := [Token(Number, Decimal(value))] + rest;
    assert tokens[1..] == rest;
    forall i | 0 <= i < |Decimal(value)|
      ensures Decimal(value)[i] !in {'.', 'e', 'E'}
    {
      DigitIsNoLetter(Decimal(value)[i]);
    }
  }

  lemma DigitIsNoLetter(c: char)
    requires IsDigit(c)
    ensures c !in {'.', 'e', 'E'}
  {
  }

  lemma RangeParses(r: Range, tail: seq<Token>)
    requires r.first <= r.last < UINT64_LIMIT
    ensures ParseRange(RangeTokens(r) + tail) == Ok((r, tail))
  {
    hide TakeUint;
    hide Decimal;
    var (first, last) := (Token(Number, Decimal(r.first)), Token(Number, Decimal(r.last)));
    assert RangeTokens(r) + tail == [first] + ([Punct('-')] + ([last] + tail));
    UintParses(r.first, UINT64_LIMIT, [Punct('-')] + ([last] + tail));
    assert ([Punct('-')] + ([last] + tail))[1..] == [last] + tail;
    UintParses(r.last, UINT64_LIMIT, tail);
  }

  lemma {:induction false} RangesParse(ranges: seq<Range>, i: nat, rest: seq<Token>)
    requires ValidRanges(ranges) && i < |ranges|
    requires rest == [] || rest[0] != Punct(',')
    ensures ParseRanges(RangeTokens(ranges[i]) + RangesTokens(ranges, i + 1) + rest) == Ok((ranges[i..], rest))
    decreases |ranges| - i
  {
    hide ParseRange;
    hide ParseRanges;
    hide RangeTokens;
    var r := ranges[i];
    var tail := RangesTokens(ranges, i + 1) + rest;
    assert RangeTokens(r) + RangesTokens(ranges, i + 1) + rest == RangeTokens(r) + tail;
    RangeParses(r, tail);
    RangesStep(RangeTokens(r) + tail);
    if i + 1 < |ranges| {
      RangesParse(ranges, i + 1, rest);
      var more := RangeTokens(ranges[i + 1]) + RangesTokens(ranges, i + 2) + rest;
      assert tail == [Punct(',')] + more;
      assert tail[0] == Punct(',') && tail[1..] == more;
      assert ranges[i..] == [r] + ranges[i + 1..];
    } else {
      assert tail == rest;
      assert ranges[i..] == [r];
    }
  }

  lemma RecordParses(t: Tagged, rest: seq<Token>)
    requires Parsable(t)
    ensures RecordTokens(t) != [] && RecordTokens(t)[0] == Token(Atom, KEYWORD)
    ensures ParseRecord((RecordTokens(t) + rest)[1..]) == Ok((t, rest))
  {
    hide TakeUint;
    hide ParseRanges;
    hide Decimal;
    hide RangesTokens;
    var (id, signal, selector) := (Token(Number, Decimal(t.id)), Token(Atom, t.record.signal), Token(Atom, t.record.selector));
    var end := [Punct(';'), Token(Newline, "\n")] + rest;
    var ranges := RangesTokens(t.record.ranges, 0);
    assert (RecordTokens(t) + rest)[1..] == [id] + ([signal] + ([selector] + (ranges + end)));
    UintParses(t.id, ID_LIMIT, [signal] + ([selector] + (ranges + end)));
    assert ([signal] + ([selector] + (ranges + end)))[1..] == [selector] + (ranges + end);
    assert ([selector] + (ranges + end))[1..] == ranges + end;
    FirstRange(t.record.ranges);
    RangesParse(t.record.ranges, 0, end);
    assert t.record.ranges[0..] == t.record.ranges;
    assert end[1..] == [Token(Newline, "\n")] + rest && end[1..][1..] == rest;
  }

  lemma {:induction false} FirstRange(ranges: seq<Range>)
    requires ranges != []
    ensures RangesTokens(ranges, 0) == RangeTokens(ranges[0]) + RangesTokens(ranges, 1)
  {
  }

  lemma {:induction false} RecordsParse(records: seq<Tagged>, rest: seq<Token>)
    requires forall t :: t in records ==> Parsable(t)
    ensures ParseRecords(AllTokens(records) + rest) == Joined(records, ParseRecords(rest))
  {
    hide RecordTokens;
    hide ParseRecord;
    hide Parsable;
    if records == [] {
      assert [] + rest == rest;
      NothingParsed(ParseRecords(rest));
    } else {
      var more := AllTokens(records[1..]) + rest;
      assert AllTokens(records) + rest == RecordTokens(records[0]) + more;
      RecordParses(records[0], more);
      RecordsParse(records[1..], rest);
      RecordJoined([], records[0], Joined(records[1..], ParseRecords(rest)));
      FirstJoined(records, ParseRecords(rest));
    }
  }

  lemma FirstJoined(records: seq<Tagged>, r: Result<seq<Tagged>, ParseError>)
    requires records != []
    ensures Joined([records[0]], Joined(records[1..], r)) == Joined(records, r)
  {
    if r.Ok? {
      assert [records[0]] + (records[1..] + r.value) == records + r.value;
    }
  }

  // ---- Signal declarations -------------------------------------------------------------------------

  function MarkerText(marker: string): string {
    if marker == "" then "" else " " + marker
  }

  /** A signal's line up to the colon before its layout. */
  function HeadText(s: RawSignal): string {
    " " + (SIGNAL + (" " + (s.name + (MarkerText(s.marker) + (" " + ":")))))
  }

  function HeadTokens(s: RawSignal): seq<Token> {
    [Token(Atom, SIGNAL), Token(Atom, s.name)] + ((if s.marker == "" then [] else [Token(Atom, s.marker)]) + [Punct(':')])
  }

  /** parseSignal, up to the layout. */
  function ParseHead(tokens: seq<Token>): Result<RawSignal, ParseError> {
    var keyword :- Take(tokens, Atom);
    if keyword.0 != SIGNAL then Err(Unexpected)
    else
      var name :- Take(keyword.1, Atom);
      var marker := if name.1 != [] && name.1[0].kind.Atom? then (name.1[0].text, name.1[1..]) else ("", name.1);
      var colon :- TakePunctuation(marker.1, ':');
      Ok(RawSignal(name.0, marker.0))
  }

  lemma {:induction false} HeadReads(s: RawSignal, rest: string)
    requires ValidName(s.name) && (s.marker == "" || ValidName(s.marker))
    ensures Tokens(HeadText(s) + rest) == Prepend(HeadTokens(s), Tokens(rest))
  {
    hide Tokens;
    hide Prepend;
    hide ValidName;
    assert ValidName(SIGNAL) by {
      KeywordsAreNames();
    }
    var end := ":" + rest;
    PunctuationReads(':', rest);
    BlankIsSkipped(end);
    var tail := " " + end;
    var marker := MarkerText(s.marker);
    var marked := if s.marker == "" then [] else [Token(Atom, s.marker)];
    MarkerReads(s.marker, tail, [Punct(':')], Tokens(rest));
    AtomReads(s.name, marker + tail);
    BlankIsSkipped(s.name + (marker + tail));
    AtomReads(SIGNAL, " " + (s.name + (marker + tail)));
    BlankIsSkipped(SIGNAL + (" " + (s.name + (marker + tail))));
    HeadJoins(s, rest);
    PrependTwice([Token(Atom, s.name)], marked + [Punct(':')], Tokens(rest));
    PrependTwice([Token(Atom, SIGNAL)], [Token(Atom, s.name)] + (marked + [Punct(':')]), Tokens(rest));
    assert [Token(Atom, SIGNAL)] + ([Token(Atom, s.name)] + (marked + [Punct(':')])) == HeadTokens(s);
  }

  lemma {:induction false} MarkerReads(marker: string, tail: string, more: seq<Token>, rest: Result<seq<Token>, Error>)
    requires marker == "" || ValidName(marker)
    requires tail != "" && tail[0] == ' ' && Tokens(tail) == Prepend(more, rest)
    ensures Tokens(MarkerText(marker) + tail) == Prepend((if marker == "" then [] else [Token(Atom, marker)]) + more, rest)
    ensures Delimited(MarkerText(marker) + tail)
  {
    hide Tokens;
    hide Prepend;
    if marker == "" {
      assert "" + tail == tail;
      assert [] + more == more;
    } else {
      AtomReads(marker, tail);
      assert (" " + marker) + tail == " " + (marker + tail);
      BlankIsSkipped(marker + tail);
      PrependTwice([Token(Atom, marker)], more, rest);
    }
  }

  lemma HeadJoins(s: RawSignal, rest: string)
    ensures HeadText(s) + rest
         == " " + (SIGNAL + (" " + (s.name + (MarkerText(s.marker) + (" " + (":" + rest))))))
  {
    var marker := MarkerText(s.marker);
    assert (" " + ":") + rest == " " + (":" + rest);
    assert (marker + (" " + ":")) + rest == marker + ((" " + ":") + rest);
    var one := s.name + (marker + (" " + ":"));
    assert one + rest == s.name + ((marker + (" " + ":")) + rest);
    var two := SIGNAL + (" " + one);
    assert two + rest == SIGNAL + (" " + (one + rest));
    assert (" " + two) + rest == " " + (two + rest);
  }

  lemma HeadParses(s: RawSignal, rest: seq<Token>)
    ensures ParseHead(HeadTokens(s) + rest) == Ok(s)
  {
    var tokens := HeadTokens(s) + rest;
    assert tokens[0] == Token(Atom, SIGNAL) && tokens[1] == Token(Atom, s.name);
    assert tokens[1..][1..] == tokens[2..];
    if s.marker == "" {
      assert tokens[2] == Punct(':');
    } else {
      assert tokens[2] == Token(Atom, s.marker) && tokens[3] == Punct(':');
      assert tokens[2..][1..] == tokens[3..];
    }
  }

  /** What the lexer and the parser make of a signal's line. */
  function ReadLine(line: string): Result<RawSignal, ParseError> {
    match Tokens(line)
    case Err(_) => Err(Unexpected)
    case Ok(tokens) => ParseHead(tokens)
  }

  function ReadLines(lines: seq<string>): Result<seq<RawSignal>, ParseError> {
    if lines == [] then Ok([])
    else
      var before :- ReadLines(lines[..|lines| - 1]);
      var last :- ReadLine(lines[|lines| - 1]);
      Ok(before + [last])
  }

  /** The signals' lines; what follows the colons is any text that lexes. */
  function Lines(raw: seq<RawSignal>, layouts: seq<string>): (lines: seq<string>)
    requires |raw| == |layouts|
    ensures |lines| == |raw|
  {
    seq(|raw|, i requires 0 <= i < |raw| => HeadText(raw[i]) + layouts[i])
  }

  lemma {:induction false} LineReads(s: RawSignal, layout: string)
    requires ValidName(s.name) && (s.marker == "" || ValidName(s.marker)) && Tokens(layout).Ok?
    ensures ReadLine(HeadText(s) + layout) == Ok(s)
  {
    hide Tokens;
    HeadReads(s, layout);
    HeadParses(s, Tokens(layout).value);
  }

  ghost predicate NamesValid(raw: seq<RawSignal>) {
    forall i :: 0 <= i < |raw| ==> ValidName(raw[i].name) && (raw[i].marker == "" || ValidName(raw[i].marker))
  }

  lemma {:induction false} LinesRead(raw: seq<RawSignal>, layouts: seq<string>)
    requires |raw| == |layouts| && NamesValid(raw)
    requires forall i :: 0 <= i < |layouts| ==> Tokens(layouts[i]).Ok?
    ensures ReadLines(Lines(raw, layouts)) == Ok(raw)
  {
    hide Tokens;
    hide ReadLine;
    hide ValidName;
    hide HeadText;
    if raw != [] {
      var n := |raw| - 1;
      LinesRead(raw[..n], layouts[..n]);
      assert Lines(raw, layouts)[..n] == Lines(raw[..n], layouts[..n]);
      LineReads(raw[n], layouts[n]);
      assert raw == raw[..n] + [raw[n]];
    }
  }

  lemma MarkerIsName(s: MuxSignal)
    requires Marker(s).Ok?
    ensures Marker(s).value == "" || ValidName(Marker(s).value)
  {
    if s.multiplex.Some? {
      var digits := Decimal(s.multiplex.value.ranges[0].first);
      DecimalRoundTrip(s.multiplex.value.ranges[0].first);
      hide Decimal;
      var marker := Marker(s).value;
      assert forall i :: 1 <= i < |marker| ==> marker[i] == 'M' || marker[i] == digits[i - 1];
      forall i | 0 <= i < |marker|
        ensures !IsDelimiter(marker[i])
      {
        if 1 <= i && marker[i] != 'M' {
          DigitIsPlain(marker[i]);
        }
      }
    }
  }

  // ---- All the records of a file -------------------------------------------------------------------

  function RecordsOf(id: nat, tagged: seq<Tagged>): seq<RawRecord> {
    if tagged == [] then []
    else (if tagged[0].id == id then [tagged[0].record] else []) + RecordsOf(id, tagged[1..])
  }

  lemma {:induction false} RecordsOfConcat(id: nat, left: seq<Tagged>, right: seq<Tagged>)
    ensures RecordsOf(id, left + right) == RecordsOf(id, left) + RecordsOf(id, right)
  {
    if left == [] {
      assert left + right == right;
    } else {
      var first := if left[0].id == id then [left[0].record] else [];
      assert (left + right)[1..] == left[1..] + right;
      RecordsOfConcat(id, left[1..], right);
      assert (first + RecordsOf(id, left[1..])) + RecordsOf(id, right) == first + (RecordsOf(id, left[1..]) + RecordsOf(id, right));
    }
  }

  lemma {:induction false} RecordsOfTagged(id: nat, other: nat, records: seq<RawRecord>)
    ensures RecordsOf(id, TaggedRecords(other, records)) == if id == other then records else []
  {
    if records != [] {
      assert TaggedRecords(other, records)[1..] == TaggedRecords(other, records[1..]);
      RecordsOfTagged(id, other, records[1..]);
    }
  }

  ghost predicate DistinctIds(messages: seq<Message>) {
    forall i, j :: 0 <= i < j < |messages| ==> messages[i].id != messages[j].id
  }

  lemma {:induction false} OthersHaveNone(messages: seq<Message>, id: nat)
    requires forall m :: m in messages ==> m.id != id
    ensures RecordsOf(id, SectionRecords(messages)) == []
  {
    if messages != [] {
      var here := TaggedRecords(messages[0].id, WrittenRecords(messages[0].signals));
      OthersHaveNone(messages[1..], id);
      RecordsOfTagged(id, messages[0].id, WrittenRecords(messages[0].signals));
      RecordsOfConcat(id, here, SectionRecords(messages[1..]));
    }
  }

  /** Among the records of a file, those of one message are the ones it was written with. */
  lemma {:induction false} OwnRecords(messages: seq<Message>, k: nat)
    requires DistinctIds(messages) && k < |messages|
    ensures RecordsOf(messages[k].id, SectionRecords(messages)) == WrittenRecords(messages[k].signals)
  {
    hide WrittenRecords;
    hide TaggedRecords;
    hide RecordsOf;
    var first := messages[0];
    var (id, rest) := (messages[k].id, messages[1..]);
    RecordsOfTagged(id, first.id, WrittenRecords(first.signals));
    RecordsOfConcat(id, TaggedRecords(first.id, WrittenRecords(first.signals)), SectionRecords(rest));
    if k == 0 {
      forall m | m in rest
        ensures m.id != id
      {
        var i :| 0 <= i < |rest| && rest[i] == m;
        assert messages[i + 1] == m;
      }
      OthersHaveNone(rest, id);
    } else {
      assert forall i, j :: 0 <= i < j < |rest| ==> rest[i] == messages[i + 1] && rest[j] == messages[j + 1];
      OwnRecords(rest, k - 1);
    }
  }

  /** A message the resolver could have accepted, under names that lex and an identifier of 32 bits. */
  ghost predicate Printable(m: Message) {
    && m.id < ID_LIMIT && ValidMultiplexing(m.signals)
    && forall i :: 0 <= i < |m.signals| ==> ValidName(m.signals[i].name)
  }

  lemma {:induction false} WrittenIsPrintable(m: Message, n: nat, record: RawRecord)
    requires Printable(m) && n <= |m.signals| && record in AllRecords(m.signals[..n])
    ensures NamedProperly(Tagged(m.id, record)) && Parsable(Tagged(m.id, record))
  {
    hide ValidName;
    if n > 0 {
      assert m.signals[..n][..n - 1] == m.signals[..n - 1];
      if record in AllRecords(m.signals[..n - 1]) {
        WrittenIsPrintable(m, n - 1, record);
      } else {
        assert ValidCondition(m.signals, m.signals[n - 1]);
      }
    }
  }

  lemma {:induction false} SectionIsPrintable(messages: seq<Message>, t: Tagged)
    requires (forall m :: m in messages ==> Printable(m)) && t in SectionRecords(messages)
    ensures NamedProperly(t) && Parsable(t)
  {
    hide Printable;
    hide NamedProperly;
    hide Parsable;
    var m := messages[0];
    if t in SectionRecords(messages[1..]) {
      SectionIsPrintable(messages[1..], t);
    } else {
      assert t in TaggedRecords(m.id, WrittenRecords(m.signals));
      assert m.signals[..|m.signals|] == m.signals;
      WrittenIsPrintable(m, |m.signals|, t.record);
    }
  }

  /**
   * Text out, text in: the lines and records that the writer prints for a message, lexed and parsed wherever
   * they stand in the file, resolve to exactly the flags, selectors and ranges the message had.
   */
  lemma {:induction false} TextRoundTrip(messages: seq<Message>, k: nat, layouts: seq<string>, rest: string)
    requires (forall m :: m in messages ==> Printable(m)) && DistinctIds(messages) && k < |messages|
    requires |layouts| == |messages[k].signals| && forall i :: 0 <= i < |layouts| ==> Tokens(layouts[i]).Ok?
    requires Tokens(rest).Ok? && ParseRecords(Tokens(rest).value) == Ok([])
    ensures var m := messages[k];
      && WrittenSignals(m.signals).Ok?
      && var lines := ReadLines(Lines(WrittenSignals(m.signals).value, layouts));
      && var section := Tokens(RecordsText(SectionRecords(messages)) + rest);
      && lines.Ok? && section.Ok? && ParseRecords(section.value).Ok?
      && Resolve(lines.value, RecordsOf(m.id, ParseRecords(section.value).value)) == Ok(m.signals)
  {
    var (m, records) := (messages[k], SectionRecords(messages));
    assert Printable(m);
    MultiplexRoundTrip(m.signals);
    LinesOfMessage(m, layouts);
    SectionReads(messages, rest);
    OwnRecords(messages, k);
  }

  lemma LinesOfMessage(m: Message, layouts: seq<string>)
    requires Printable(m) && WrittenSignals(m.signals).Ok?
    requires |layouts| == |m.signals| && forall i :: 0 <= i < |layouts| ==> Tokens(layouts[i]).Ok?
    ensures ReadLines(Lines(WrittenSignals(m.signals).value, layouts)) == Ok(WrittenSignals(m.signals).value)
  {
    hide Tokens;
    hide ValidName;
    hide ValidMultiplexing;
    var raw := WrittenSignals(m.signals).value;
    forall i | 0 <= i < |raw|
      ensures ValidName(raw[i].name) && (raw[i].marker == "" || ValidName(raw[i].marker))
    {
      WrittenSignalAt(m.signals, i);
      MarkerIsName(m.signals[i]);
    }
    LinesRead(raw, layouts);
  }

  lemma {:induction false} WrittenSignalAt(signals: seq<MuxSignal>, i: nat)
    requires WrittenSignals(signals).Ok? && i < |signals|
    ensures Marker(signals[i]).Ok? && WrittenSignals(signals).value[i] == RawSignal(signals[i].name, Marker(signals[i]).value)
    decreases |signals|
  {
    hide Marker;
    if i < |signals| - 1 {
      WrittenSignalAt(signals[..|signals| - 1], i);
    }
  }

  lemma {:induction false} SectionReads(messages: seq<Message>, rest: string)
    requires forall m :: m in messages ==> Printable(m)
    requires Tokens(rest).Ok? && ParseRecords(Tokens(rest).value) == Ok([])
    ensures var section := Tokens(RecordsText(SectionRecords(messages)) + rest);
      section.Ok? && ParseRecords(section.value) == Ok(SectionRecords(messages))
  {
    hide Tokens;
    hide ParseRecords;
    var records := SectionRecords(messages);
    forall t | t in records
      ensures NamedProperly(t) && Parsable(t)
    {
      SectionIsPrintable(messages, t);
    }
    RecordsRead(records, rest);
    RecordsParse(records, Tokens(rest).value);
    assert records + [] == records;
  }

  // ---- Everything that is read can be written --------------------------------------------------------

  ghost predicate AtomsNamed(tokens: seq<Token>) {
    forall t :: t in tokens && t.kind.Atom? ==> ValidName(t.text)
  }

  lemma {:induction false} TokensAreNamed(input: string)
    requires Tokens(input).Ok?
    ensures AtomsNamed(Tokens(input).value)
    decreases |input|
  {
    hide NextToken;
    hide ValidName;
    var next := NextToken(input, 0).value;
    NextTokenAdvances(input, 0);
    if next.0.kind.Atom? {
      AtomsAreNames(input, 0);
    }
    if !next.0.kind.EndOfFile? {
      TokensAreNamed(input[next.1..]);
    }
  }

  lemma HeadIsNamed(tokens: seq<Token>)
    requires AtomsNamed(tokens) && ParseHead(tokens).Ok?
    ensures ValidName(ParseHead(tokens).value.name)
  {
    hide ValidName;
    assert tokens[1..][0] == tokens[1] && tokens[1] in tokens;
  }

  lemma {:induction false} LinesAreNamed(lines: seq<string>)
    requires ReadLines(lines).Ok?
    ensures |ReadLines(lines).value| == |lines|
    ensures forall i :: 0 <= i < |lines| ==> ValidName(ReadLines(lines).value[i].name)
  {
    hide Tokens;
    hide ParseHead;
    hide ValidName;
    if lines != [] {
      var last := lines[|lines| - 1];
      LinesAreNamed(lines[..|lines| - 1]);
      TokensAreNamed(last);
      HeadIsNamed(Tokens(last).value);
    }
  }

  lemma {:induction false} ParsedRangesAreValid(tokens: seq<Token>)
    requires ParseRanges(tokens).Ok?
    ensures ValidRanges(ParseRanges(tokens).value.0)
    decreases |tokens|
  {
    ParsedRangeIsValid(tokens);
    hide ParseRange;
    var one := ParseRange(tokens).value;
    if one.1 != [] && one.1[0] == Punct(',') {
      ParsedRangesAreValid(one.1[1..]);
    }
  }

  lemma ParsedRangeIsValid(tokens: seq<Token>)
    requires ParseRange(tokens).Ok?
    ensures ParseRange(tokens).value.0.first <= ParseRange(tokens).value.0.last < UINT64_LIMIT
  {
    hide ParseUint;
  }

  lemma {:induction false} ParsedAreValid(tokens: seq<Token>)
    requires ParseRecords(tokens).Ok?
    ensures forall t :: t in ParseRecords(tokens).value ==> ValidRanges(t.record.ranges)
    decreases |tokens|
  {
    hide ParseRanges;
    hide ValidRanges;
    if tokens != [] {
      if tokens[0].kind.Newline? {
        ParsedAreValid(tokens[1..]);
      } else if tokens[0] == Token(Atom, KEYWORD) {
        ParsedRecordIsValid(tokens[1..]);
        hide ParseRecord;
        ParsedAreValid(ParseRecord(tokens[1..]).value.1);
      }
    }
  }

  lemma ParsedRecordIsValid(tokens: seq<Token>)
    requires ParseRecord(tokens).Ok?
    ensures ValidRanges(ParseRecord(tokens).value.0.record.ranges)
  {
    hide TakeUint;
    hide ParseRanges;
    hide ValidRanges;
    var selector := Take(Take(TakeUint(tokens, ID_LIMIT).value.1, Atom).value.1, Atom).value;
    ParsedRangesAreValid(selector.1);
  }

  lemma {:induction false} OwnAreValid(id: nat, tagged: seq<Tagged>)
    requires forall t :: t in tagged ==> ValidRanges(t.record.ranges)
    ensures forall i :: 0 <= i < |RecordsOf(id, tagged)| ==> ValidRanges(RecordsOf(id, tagged)[i].ranges)
  {
    hide ValidRanges;
    if tagged != [] {
      OwnAreValid(id, tagged[1..]);
    }
  }

  lemma ResolvedKeepsNames(raw: seq<RawSignal>, records: seq<RawRecord>)
    requires Resolve(raw, records).Ok? && forall i :: 0 <= i < |records| ==> ValidRanges(records[i].ranges)
    ensures |Resolve(raw, records).value| == |raw|
    ensures forall i :: 0 <= i < |raw| ==> Resolve(raw, records).value[i].name == raw[i].name
  {
    hide Roots;
    hide SimplifyAll;
    hide ApplyRecords;
    hide Markers;
    hide ValidRanges;
    var markers := Markers(raw).value;
    var declared := Declared(raw, markers);
    assert ValidConditions(declared);
    RecordsKeepValid(declared, records);
    var applied := ApplyRecords(declared, records).value;
    forall i | 0 <= i < |raw|
      ensures Resolve(raw, records).value[i].name == raw[i].name
    {
      SimplifiedAre(applied, SimpleValues(markers), Roots(applied, SimpleValues(markers)), i);
    }
  }

  /** Whatever message can be read from text can be printed again. */
  lemma {:induction false} ReadIsPrintable(id: nat, lines: seq<string>, text: string)
    requires id < ID_LIMIT && ReadLines(lines).Ok? && Tokens(text).Ok? && ParseRecords(Tokens(text).value).Ok?
    requires Resolve(ReadLines(lines).value, RecordsOf(id, ParseRecords(Tokens(text).value).value)).Ok?
    ensures Printable(Message(id, Resolve(ReadLines(lines).value, RecordsOf(id, ParseRecords(Tokens(text).value).value)).value))
  {
    hide Tokens;
    hide ParseRecords;
    hide ValidName;
    hide Resolve;
    hide ValidMultiplexing;
    var (raw, tagged) := (ReadLines(lines).value, ParseRecords(Tokens(text).value).value);
    LinesAreNamed(lines);
    ParsedAreValid(Tokens(text).value);
    OwnAreValid(id, tagged);
    hide ValidRanges;
    ResolvedIsValid(raw, RecordsOf(id, tagged));
    ResolvedKeepsNames(raw, RecordsOf(id, tagged));
  }

  /** Reading a message, printing it and reading it again gives the same message. */
  lemma {:induction false} RereadingChangesNothing(id: nat, lines: seq<string>, text: string, layouts: seq<string>, rest: string)
    requires id < ID_LIMIT && ReadLines(lines).Ok? && Tokens(text).Ok? && ParseRecords(Tokens(text).value).Ok?
    requires Resolve(ReadLines(lines).value, RecordsOf(id, ParseRecords(Tokens(text).value).value)).Ok?
    requires |layouts| == |Resolve(ReadLines(lines).value, RecordsOf(id, ParseRecords(Tokens(text).value).value)).value|
    requires forall i :: 0 <= i < |layouts| ==> Tokens(layouts[i]).Ok?
    requires Tokens(rest).Ok? && ParseRecords(Tokens(rest).value) == Ok([])
    ensures var signals := Resolve(ReadLines(lines).value, RecordsOf(id, ParseRecords(Tokens(text).value).value)).value;
      && WrittenSignals(signals).Ok?
      && var again := ReadLines(Lines(WrittenSignals(signals).value, layouts));
      && var section := Tokens(RecordsText(SectionRecords([Message(id, signals)])) + rest);
      && again.Ok? && section.Ok? && ParseRecords(section.value).Ok?
      && Resolve(again.value, RecordsOf(id, ParseRecords(section.value).value)) == Ok(signals)
  {
    hide Resolve;
    ReadIsPrintable(id, lines, text);
    hide Printable;
    var signals := Resolve(ReadLines(lines).value, RecordsOf(id, ParseRecords(Tokens(text).value).value)).value;
    TextRoundTrip([Message(id, signals)], 0, layouts, rest);
  }

  // ---- The writer at work ----------------------------------------------------------------------------

  // One SG_MUL_VAL_ line; the names are checked by the caller.
  method WriteRecord(t: Tagged) returns (text: string)
    ensures text == RecordText(t)
  {
    hide Decimal;
    var ranges := t.record.ranges;
    var list := "";
    var index := 0;
    while index < |ranges|
      invariant 0 <= index <= |ranges|
      invariant list + RangesText(ranges, index) == RangesText(ranges, 0)
    {
      var separator := if index == 0 then "" else ",";
      var selected := ranges[index];
      ghost var more := RangesText(ranges, index + 1);
      RangeWritten(list, separator, RangeText(selected), more);
      list := list + separator + (" " + (Decimal(selected.first) + ("-" + Decimal(selected.last))));
      index := index + 1;
    }
    assert list + "" == list;
    text := KEYWORD + (" " + (Decimal(t.id) + (" " + (t.record.signal + (" " + (t.record.selector + (list + (";" + "\n"))))))));
  }

  lemma RangeWritten(list: string, separator: string, range: string, more: string)
    ensures list + (separator + (range + more)) == (list + separator + range) + more
  {
  }

  ghost predicate AllNamed(records: seq<Tagged>) {
    forall t :: t in records ==> NamedProperly(t)
  }

  lemma AllNamedConcat(left: seq<Tagged>, right: seq<Tagged>)
    ensures AllNamed(left + right) <==> AllNamed(left) && AllNamed(right)
  {
    hide NamedProperly;
    forall t | t in left || t in right
      ensures t in left + right
    {
    }
  }

  lemma SectionNext(messages: seq<Message>, i: nat, done: seq<Tagged>)
    requires i < |messages|
    ensures var written := TaggedRecords(messages[i].id, WrittenRecords(messages[i].signals));
      done + SectionRecords(messages[i..]) == (done + written) + SectionRecords(messages[i + 1..])
  {
    hide WrittenRecords;
    var written := TaggedRecords(messages[i].id, WrittenRecords(messages[i].signals));
    assert messages[i..][0] == messages[i] && messages[i..][1..] == messages[i + 1..];
    assert done + (written + SectionRecords(messages[i + 1..])) == (done + written) + SectionRecords(messages[i + 1..]);
  }

  /** Write, over the multiplexing of all messages: nothing for a simple one; a name that cannot be written is an error. */
  method WriteRecords(messages: seq<Message>) returns (text: string, ok: bool)
    ensures text == RecordsText(SectionRecords(messages))
    ensures ok <==> AllNamed(SectionRecords(messages))
  {
    hide AllNamed;
    hide RecordsText;
    hide SectionRecords;
    hide IsSimple;
    hide AllRecords;
    text, ok := "", true;
    ghost var done: seq<Tagged> := [];
    NothingWritten();
    var index := 0;
    assert messages[0..] == messages && [] + SectionRecords(messages) == SectionRecords(messages);
    while index < |messages|
      invariant 0 <= index <= |messages|
      invariant SectionRecords(messages) == done + SectionRecords(messages[index..])
      invariant text == RecordsText(done)
      invariant ok <==> AllNamed(done)
    {
      var message := messages[index];
      ghost var written := TaggedRecords(message.id, WrittenRecords(message.signals));
      SectionNext(messages, index, done);
      if !IsSimple(message.signals) {
        var more, named := WriteMessage(message);
        RecordsTextConcat(done, written);
        AllNamedConcat(done, written);
        text := text + more;
        ok := ok && named;
      } else {
        assert done + written == done;
      }
      done := done + written;
      index := index + 1;
    }
    assert messages[index..] == [] && done + [] == done;
  }

  lemma NothingWritten()
    ensures RecordsText([]) == "" && AllNamed([]) && SectionRecords([]) == []
  {
  }

  method WriteMessage(message: Message) returns (text: string, ok: bool)
    ensures text == RecordsText(TaggedRecords(message.id, AllRecords(message.signals)))
    ensures ok <==> AllNamed(TaggedRecords(message.id, AllRecords(message.signals)))
  {
    text, ok := "", true;
    var signals := message.signals;
    ghost var done: seq<Tagged> := [];
    var index := 0;
    while index < |signals|
      invariant 0 <= index <= |signals|
      invariant done == TaggedRecords(message.id, AllRecords(signals[..index]))
      invariant text == RecordsText(done)
      invariant ok <==> AllNamed(done)
    {
      hide AllNamed;
      hide NamedProperly;
      hide RecordsText;
      var signal := signals[index];
      assert signals[..index + 1][..index] == signals[..index];
      if signal.multiplex.Some? {
        var condition := signal.multiplex.value;
        var one := Tagged(message.id, RawRecord(signal.name, condition.selector, condition.ranges));
        assert TaggedRecords(message.id, AllRecords(signals[..index + 1])) == done + [one];
        var line := WriteRecord(one);
        RecordsTextConcat(done, [one]);
        OneRecordText(one);
        AllNamedConcat(done, [one]);
        OneNamed(one);
        text := text + line;
        ok := ok && NamedProperly(one);
        done := done + [one];
      }
      index := index + 1;
    }
    assert signals[..index] == signals;
  }

  lemma OneNamed(t: Tagged)
    ensures AllNamed([t]) <==> NamedProperly(t)
  {
    assert t in [t];
  }

  lemma OneRecordText(t: Tagged)
    ensures RecordsText([t]) == RecordText(t)
  {
    hide RecordText;
    assert RecordText(t) + "" == RecordText(t);
  }

  lemma {:induction false} RecordsTextConcat(left: seq<Tagged>, right: seq<Tagged>)
    ensures RecordsText(left + right) == RecordsText(left) + RecordsText(right)
  {
    hide RecordText;
    if left == [] {
      assert left + right == right;
    } else {
      assert (left + right)[1..] == left[1..] + right;
      RecordsTextConcat(left[1..], right);
    }
  }
}
