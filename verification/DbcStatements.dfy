/** Which lists of tokens are extended multiplexing statements, and what they say (dbc/parse.go). */
module DbcStatements {
  import opened Wrappers
  import opened DbcText
  import opened DbcLayout
  import opened DbcMultiplex
  import opened DbcRecords

  /** A number token that stands for an unsigned integer below a limit. */
  predicate IsUint(tokens: seq<Token>, i: nat, limit: nat, value: nat) {
    i < |tokens| && tokens[i].kind.Number? && DbcText.ParseUint(tokens[i].text) == Some(value) && value < limit
  }

  predicate IsPunct(tokens: seq<Token>, i: nat, c: char) {
    i < |tokens| && tokens[i] == Token(Punctuation, [c])
  }

  lemma UintExactly(tokens: seq<Token>, limit: nat, value: nat, rest: seq<Token>)
    ensures TakeUint(tokens, limit) == Ok((value, rest)) <==> IsUint(tokens, 0, limit, value) && rest == tokens[1..]
  {
    hide DbcText.ParseUint;
    if tokens != [] {
      DigitsAreIntegers(tokens[0].text);
    }
  }

  lemma {:induction false} DigitsOnly(text: string)
    requires DigitsValue(text).Some?
    ensures forall i :: 0 <= i < |text| ==> IsDigit(text[i])
  {
    if text != "" {
      DigitsOnly(text[..|text| - 1]);
      forall i | 0 <= i < |text|
        ensures IsDigit(text[i])
      {
        assert i < |text| - 1 ==> text[..|text| - 1][i] == text[i];
      }
    }
  }

  lemma DigitsAreIntegers(text: string)
    ensures DbcText.ParseUint(text).Some? ==> IntegerText(text)
  {
    if DbcText.ParseUint(text).Some? {
      DigitsOnly(text);
    }
  }

  // ---- Ranges ------------------------------------------------------------------------------

  /** first-last at position i, both 64 bits wide and in order. */
  ghost predicate IsRange(tokens: seq<Token>, i: nat, r: Range) {
    && IsUint(tokens, i, 0x1_0000_0000_0000_0000, r.first) && IsPunct(tokens, i + 1, '-')
    && IsUint(tokens, i + 2, 0x1_0000_0000_0000_0000, r.last) && r.first <= r.last
  }

  lemma RangeExactly(tokens: seq<Token>, r: Range, rest: seq<Token>)
    ensures IsRange(tokens, 0, r) ==> |tokens| >= 3
    ensures ParseRange(tokens) == Ok((r, rest)) <==> IsRange(tokens, 0, r) && rest == tokens[3..]
  {
    hide TakeUint;
    hide DbcText.ParseUint;
    if ParseRange(tokens).Ok? {
      var (first, behind) := TakeUint(tokens, UINT64_LIMIT).value;
      UintExactly(tokens, UINT64_LIMIT, first, behind);
      assert behind[1..] == tokens[2..];
      var (last, end) := TakeUint(behind[1..], UINT64_LIMIT).value;
      UintExactly(tokens[2..], UINT64_LIMIT, last, end);
      assert tokens[2..][1..] == tokens[3..];
      SameNumber(tokens, r);
    }
    if IsRange(tokens, 0, r) {
      UintExactly(tokens, UINT64_LIMIT, r.first, tokens[1..]);
      assert tokens[1..][1..] == tokens[2..] && tokens[2..][1..] == tokens[3..];
      UintExactly(tokens[2..], UINT64_LIMIT, r.last, tokens[3..]);
    }
  }

  lemma SameNumber(tokens: seq<Token>, r: Range)
    requires |tokens| >= 3
    ensures tokens[2..][0] == tokens[2]
  {
  }

  /** The k-th range of a list, with a comma in front of every one but the first. */
  ghost predicate IsEntry(tokens: seq<Token>, k: nat, r: Range) {
    IsRange(tokens, 4 * k, r) && (k > 0 ==> IsPunct(tokens, 4 * k - 1, ','))
  }

  /** A whole list of ranges in front of other tokens: no comma behind the last. */
  ghost predicate AreRanges(tokens: seq<Token>, ranges: seq<Range>) {
    && 0 < 4 * |ranges| <= |tokens| + 1
    && (forall k: nat :: k < |ranges| ==> IsEntry(tokens, k, ranges[k]))
    && !IsPunct(tokens, 4 * |ranges| - 1, ',')
  }

  lemma EntryBehind(tokens: seq<Token>, k: nat, r: Range)
    requires IsPunct(tokens, 3, ',')
    ensures IsEntry(tokens[4..], k, r) <==> IsEntry(tokens, k + 1, r)
  {
    hide DbcText.ParseUint;
  }

  lemma ListBehind(tokens: seq<Token>, one: Range, more: seq<Range>)
    requires IsPunct(tokens, 3, ',')
    ensures AreRanges(tokens, [one] + more) <==> IsRange(tokens, 0, one) && AreRanges(tokens[4..], more)
  {
    hide IsRange;
    var all := [one] + more;
    forall k: nat
      ensures k < |more| ==> (IsEntry(tokens[4..], k, more[k]) <==> IsEntry(tokens, k + 1, all[k + 1]))
    {
      if k < |more| {
        EntryBehind(tokens, k, more[k]);
      }
    }
    assert IsEntry(tokens, 0, all[0]) <==> IsRange(tokens, 0, one);
    BothLists(tokens, one, more);
  }

  lemma BothLists(tokens: seq<Token>, one: Range, more: seq<Range>)
    requires IsPunct(tokens, 3, ',')
    requires IsEntry(tokens, 0, one) <==> IsRange(tokens, 0, one)
    requires forall k: nat :: k < |more| ==> (IsEntry(tokens[4..], k, more[k]) <==> IsEntry(tokens, k + 1, ([one] + more)[k + 1]))
    ensures AreRanges(tokens, [one] + more) <==> IsRange(tokens, 0, one) && AreRanges(tokens[4..], more)
  {
    hide IsRange;
    hide IsEntry;
    var all := [one] + more;
    assert all[0] == one;
    if AreRanges(tokens, all) {
      assert more != [];
      assert IsEntry(tokens, 0, all[0]);
      forall k: nat | k < |more|
        ensures IsEntry(tokens[4..], k, more[k])
      {
        assert IsEntry(tokens, k + 1, all[k + 1]);
      }
    }
    if IsRange(tokens, 0, one) && AreRanges(tokens[4..], more) {
      forall k: nat | k < |all|
        ensures IsEntry(tokens, k, all[k])
      {
        if k > 0 {
          assert IsEntry(tokens[4..], k - 1, more[k - 1]);
        }
      }
    }
  }

  /**
   * The list loop accepts exactly the lists that are ranges with commas between them, and leaves what
   * stands behind the last: a list that ends in a comma is no list.
   */
  lemma {:induction false} RangesExactly(tokens: seq<Token>, ranges: seq<Range>, rest: seq<Token>)
    ensures
      ParseRanges(tokens) == Ok((ranges, rest)) <==>
      AreRanges(tokens, ranges) && rest == tokens[4 * |ranges| - 1..]
    decreases |tokens|
  {
    hide ParseRange;
    hide IsRange;
    hide IsEntry;
    if ranges == [] {
      NoEmptyList(tokens);
    } else {
      var one, more := ranges[0], ranges[1..];
      assert ranges == [one] + more;
      RangeExactly(tokens, one, if |tokens| < 3 then [] else tokens[3..]);
      if IsPunct(tokens, 3, ',') {
        ListBehind(tokens, one, more);
        RangesExactly(tokens[4..], more, rest);
        ParsedInFront(tokens, one, more, rest);
      } else {
        LastRange(tokens, ranges, rest);
      }
    }
  }

  lemma {:induction false} NoEmptyList(tokens: seq<Token>)
    ensures forall rest :: ParseRanges(tokens) != Ok(([], rest))
  {
    hide ParseRange;
  }

  lemma {:induction false} ParsedInFront(tokens: seq<Token>, one: Range, more: seq<Range>, rest: seq<Token>)
    requires IsPunct(tokens, 3, ',')
    ensures
      ParseRanges(tokens) == Ok(([one] + more, rest)) <==>
      ParseRange(tokens) == Ok((one, tokens[3..])) && ParseRanges(tokens[4..]) == Ok((more, rest))
  {
    hide ParseRange;
    hide IsRange;
    assert tokens[3..][1..] == tokens[4..];
    if ParseRange(tokens).Ok? {
      var (first, behind) := ParseRange(tokens).value;
      RangeExactly(tokens, first, behind);
      assert [one] + more == [first] + ([one] + more)[1..] <==> one == first;
      assert ([one] + more)[1..] == more;
      if ParseRanges(tokens[4..]).Ok? {
        var others := ParseRanges(tokens[4..]).value.0;
        assert ([first] + others)[1..] == others && ([first] + others)[0] == first;
      }
    }
  }

  lemma SecondNeedsComma(tokens: seq<Token>, ranges: seq<Range>)
    requires AreRanges(tokens, ranges) && |ranges| > 1
    ensures IsPunct(tokens, 3, ',')
  {
    hide IsRange;
    assert IsEntry(tokens, 1, ranges[1]);
  }

  lemma {:induction false} LastRange(tokens: seq<Token>, ranges: seq<Range>, rest: seq<Token>)
    requires ranges != [] && !IsPunct(tokens, 3, ',')
    ensures
      ParseRanges(tokens) == Ok((ranges, rest)) <==>
      AreRanges(tokens, ranges) && rest == tokens[4 * |ranges| - 1..]
  {
    hide ParseRange;
    hide IsRange;
    if ParseRange(tokens).Ok? {
      var (first, behind) := ParseRange(tokens).value;
      RangeExactly(tokens, first, behind);
      assert behind != [] ==> behind[0] == tokens[3];
      assert ParseRanges(tokens) == Ok(([first], behind));
      assert IsEntry(tokens, 0, first);
    }
    if AreRanges(tokens, ranges) {
      assert IsEntry(tokens, 0, ranges[0]);
      if |ranges| > 1 {
        SecondNeedsComma(tokens, ranges);
      }
      RangeExactly(tokens, ranges[0], tokens[3..]);
      assert |ranges| == 1;
      assert ranges == [ranges[0]];
    }
  }

  // ---- Statements --------------------------------------------------------------------------

  predicate IsAtom(tokens: seq<Token>, i: nat, text: string) {
    i < |tokens| && tokens[i] == Token(Atom, text)
  }

  /** A statement ends with a semicolon at position i and the end of the line or of the file. */
  predicate EndsAt(tokens: seq<Token>, i: nat, rest: seq<Token>) {
    && IsPunct(tokens, i, ';') && i + 1 < |tokens|
    && (if tokens[i + 1].kind.Newline? then rest == tokens[i + 2..] else tokens[i + 1].kind.EndOfFile? && rest == tokens[i + 1..])
  }

  /** A statement behind its keyword: a 32-bit message ID, two names, the ranges and the end. */
  ghost predicate IsRecord(tokens: seq<Token>, record: Tagged, rest: seq<Token>) {
    && IsUint(tokens, 0, 0x1_0000_0000, record.id)
    && IsAtom(tokens, 1, record.record.signal) && IsAtom(tokens, 2, record.record.selector)
    && AreRanges(tokens[3..], record.record.ranges)
    && EndsAt(tokens, 4 * |record.record.ranges| + 2, rest)
  }

  /** The statement parser accepts exactly the statements, with the parts they name. */
  lemma RecordExactly(tokens: seq<Token>, record: Tagged, rest: seq<Token>)
    ensures ParseRecord(tokens) == Ok((record, rest)) <==> IsRecord(tokens, record, rest)
  {
    hide TakeUint;
    hide IsUint;
    hide ParseRanges;
    hide AreRanges;
    hide EndStatement;
    hide EndsAt;
    if ParseRecord(tokens).Ok? {
      var (id, named) := TakeUint(tokens, ID_LIMIT).value;
      UintExactly(tokens, ID_LIMIT, id, named);
      var (ranges, end) := ParseRanges(named[2..]).value;
      HeadShifts(tokens);
      RangesExactly(tokens[3..], ranges, end);
      EndExactly(tokens, ranges, rest);
    }
    if IsRecord(tokens, record, rest) {
      HeadShifts(tokens);
      UintExactly(tokens, ID_LIMIT, record.id, tokens[1..]);
      RangesExactly(tokens[3..], record.record.ranges, Behind3(tokens, record.record.ranges));
      EndExactly(tokens, record.record.ranges, rest);
    }
  }

  ghost function Behind3(tokens: seq<Token>, ranges: seq<Range>): seq<Token> {
    if 0 < 4 * |ranges| + 2 <= |tokens| then tokens[4 * |ranges| + 2..] else []
  }

  lemma HeadShifts(tokens: seq<Token>)
    ensures |tokens| >= 3 ==>
      && tokens[1..][0] == tokens[1] && tokens[1..][1..] == tokens[2..]
      && tokens[2..][0] == tokens[2] && tokens[2..][1..] == tokens[3..] && tokens[1..][2..] == tokens[3..]
  {
  }

  lemma EndExactly(tokens: seq<Token>, ranges: seq<Range>, rest: seq<Token>)
    requires |tokens| >= 3 && AreRanges(tokens[3..], ranges)
    ensures Behind3(tokens, ranges) == tokens[3..][4 * |ranges| - 1..]
    ensures EndStatement(Behind3(tokens, ranges)) == Ok(rest) <==> EndsAt(tokens, 4 * |ranges| + 2, rest)
  {
  }
}
