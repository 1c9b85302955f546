/**
 * dice/diceroll.go: the older reading of the same dice grammar, which keeps
 * one signed term per segment in input order instead of aggregating faces.
 */
module DiceRolls {
  import opened Results
  import opened Seqs
  import opened Decimal
  import opened DiceSyntax
  import Rolls
  import FaceCounts

  /** One term of a dice string: a group of dice or a signed number. */
  datatype DiceRoll =
    | ActualDiceRoll(negative: bool, count: nat, faces: nat)
    | NumberDiceRoll(value: int)

  /** The term one accepted segment becomes; a number after `-` is negated. */
  function TermRoll(negative: bool, t: Term): DiceRoll
  {
    match t
    case Constant(n) => NumberDiceRoll(if negative then -(n as int) else n)
    case Dice(c, f) => ActualDiceRoll(negative, c, f)
  }

  /** The segments read in order, one term each; the first rejected segment's error ends the parse. */
  function Collect(segs: seq<Segment>): Result<seq<DiceRoll>, ParseError>
  {
    if segs == [] then Success([])
    else match SegmentTerm(segs[0].tokens)
      case Failure(e) => Failure(e)
      case Success(t) =>
        match Collect(segs[1..])
        case Failure(e) => Failure(e)
        case Success(rest) => Success([TermRoll(segs[0].negative, t)] + rest)
  }

  function ParseTokens(ts: seq<Token>): Result<seq<DiceRoll>, ParseError>
  {
    Collect(Segments(ts, false))
  }

  /** The terms a string describes, or the first error met. */
  function Parse(s: string): Result<seq<DiceRoll>, ParseError>
  {
    match Tokenise(s)
    case Failure(e) => Failure(e)
    case Success(ts) => ParseTokens(ts)
  }

  /** Terms already read, followed by what the remaining segments give. */
  function After(done: seq<DiceRoll>, r: Result<seq<DiceRoll>, ParseError>): Result<seq<DiceRoll>, ParseError>
  {
    match r
    case Failure(e) => Failure(e)
    case Success(rest) => Success(done + rest)
  }

  lemma AfterAppend(a: seq<DiceRoll>, b: seq<DiceRoll>, r: Result<seq<DiceRoll>, ParseError>)
    ensures After(a, After(b, r)) == After(a + b, r)
  {
    if r.Success? {
      assert a + (b + r.value) == a + b + r.value;
    }
  }

  lemma AfterNothing(r: Result<seq<DiceRoll>, ParseError>)
    ensures After([], r) == r
  {
    if r.Success? {
      assert [] + r.value == r.value;
    }
  }

  lemma CollectStep(seg: Segment, rest: seq<Segment>)
    ensures SegmentTerm(seg.tokens).Failure? ==> Collect([seg] + rest) == Failure(SegmentTerm(seg.tokens).error)
    ensures SegmentTerm(seg.tokens).Success? ==>
              Collect([seg] + rest) == After([TermRoll(seg.negative, SegmentTerm(seg.tokens).value)], Collect(rest))
  {
    assert ([seg] + rest)[0] == seg && ([seg] + rest)[1..] == rest;
  }

  /** The body of the parser loop for one segment: check its shape, then build its term. */
  method ReadSegment(die: seq<Token>, nextIsNegative: bool) returns (r: Result<DiceRoll, ParseError>)
    ensures SegmentTerm(die).Failure? ==> r == Failure(SegmentTerm(die).error)
    ensures SegmentTerm(die).Success? ==> r == Success(TermRoll(nextIsNegative, SegmentTerm(die).value))
  {
    if |die| == 1 {
      if !die[0].Number? {
        return Failure(InvalidDieFormat);
      }
      var value: int := die[0].value;
      if nextIsNegative {
        value := -value;
      }
      return Success(NumberDiceRoll(value));
    } else if |die| == 2 {
      if !die[0].Die? {
        return Failure(InvalidDieSymbol);
      }
      if !die[1].Number? {
        return Failure(InvalidNumberOfSidesMarker);
      }
      return Success(ActualDiceRoll(nextIsNegative, 1, die[1].value));
    } else if |die| == 3 {
      if !die[0].Number? {
        return Failure(InvalidNumberOfDice);
      }
      if !die[1].Die? {
        return Failure(InvalidDieSymbol);
      }
      if !die[2].Number? {
        return Failure(InvalidNumberOfSides);
      }
      return Success(ActualDiceRoll(nextIsNegative, die[0].value, die[2].value));
    }
    return Failure(InvalidDie(die));
  }

  /**
   * The parser loop as a recursive walk: `end` moves right until it meets a
   * sign or the end of the tokens, where the segment from `start` becomes
   * one more term, and reading goes on after the sign.
   */
  function Walk(ts: seq<Token>, start: nat, end: nat, negative: bool, done: seq<DiceRoll>)
    : Result<seq<DiceRoll>, ParseError>
    requires start < end
    decreases |ts| + 2 - end
  {
    if end > |ts| then Success(done)
    else if end == |ts| || ts[end].Sign? then
      match SegmentTerm(ts[start..end])
      case Failure(e) => Failure(e)
      case Success(t) =>
        Walk(ts, end + 1, end + 2, end < |ts| && ts[end] == Sign('-'), done + [TermRoll(negative, t)])
    else Walk(ts, start, end + 1, negative, done)
  }

  /** The walk gives the terms read so far followed by those of the remaining segments. */
  lemma {:induction false} WalkCollect(ts: seq<Token>, start: nat, end: nat, negative: bool, done: seq<DiceRoll>)
    requires start < end && (end <= |ts| || start >= |ts|)
    requires Rolls.NoSignBetween(ts, start, end)
    ensures Walk(ts, start, end, negative, done) == After(done, Collect(Rolls.Rest(ts, start, negative)))
    decreases |ts| + 2 - end
  {
    if end > |ts| {
      assert Rolls.Rest(ts, start, negative) == [] by {
        if start == |ts| {
          assert ts[start..] == [];
        }
      }
      assert done + [] == done;
    } else if end == |ts| || ts[end].Sign? {
      WalkStep(ts, start, end, negative, done);
      CollectCut(ts, start, end, negative);
      var term := SegmentTerm(ts[start..end]);
      if term.Success? {
        var d, after := TermRoll(negative, term.value), end < |ts| && ts[end] == Sign('-');
        WalkCollect(ts, end + 1, end + 2, after, done + [d]);
        AfterAppend(done, [d], Collect(Rolls.Rest(ts, end + 1, after)));
      }
    } else {
      WalkStep(ts, start, end, negative, done);
      WalkCollect(ts, start, end + 1, negative, done);
    }
  }

  /** One step of the walk: a cut reads the segment before it, otherwise the segment grows. */
  lemma WalkStep(ts: seq<Token>, start: nat, end: nat, negative: bool, done: seq<DiceRoll>)
    requires start < end <= |ts|
    ensures var cut := end == |ts| || ts[end].Sign?;
            var term := SegmentTerm(ts[start..end]);
            && (cut && term.Failure? ==> Walk(ts, start, end, negative, done) == Failure(term.error))
            && (cut && term.Success? ==>
                  Walk(ts, start, end, negative, done)
                  == Walk(ts, end + 1, end + 2, end < |ts| && ts[end] == Sign('-'), done + [TermRoll(negative, term.value)]))
            && (!cut ==> Walk(ts, start, end, negative, done) == Walk(ts, start, end + 1, negative, done))
  {
  }

  /** At a cut, the remaining segments are the one before the cut and those after it. */
  lemma CollectCut(ts: seq<Token>, start: nat, end: nat, negative: bool)
    requires start < end <= |ts|
    requires Rolls.NoSignBetween(ts, start, end)
    requires end == |ts| || ts[end].Sign?
    ensures var term := SegmentTerm(ts[start..end]);
            var rest := Rolls.Rest(ts, end + 1, end < |ts| && ts[end] == Sign('-'));
            && (term.Failure? ==> Collect(Rolls.Rest(ts, start, negative)) == Failure(term.error))
            && (term.Success? ==> Collect(Rolls.Rest(ts, start, negative)) == After([TermRoll(negative, term.value)], Collect(rest)))
  {
    var seg := Segment(negative, ts[start..end]);
    var rest := Rolls.Rest(ts, end + 1, end < |ts| && ts[end] == Sign('-'));
    Rolls.SegmentAt(ts, start, end, negative);
    assert Rolls.Rest(ts, start, negative) == [seg] + rest;
    CollectStep(seg, rest);
  }

  /** Walking from the first token reads the whole stream. */
  lemma WalkReads(ts: seq<Token>)
    ensures Walk(ts, 0, 1, false, []) == ParseTokens(ts)
  {
    WalkCollect(ts, 0, 1, false, []);
    assert ts[0..] == ts;
    AfterNothing(ParseTokens(ts));
  }

  /**
   * ParseDiceRollString: tokenise, then walk startIndex/endIndex over the
   * tokens, cutting a segment at each sign and at the end, appending one
   * term per segment.
   */
  method ParseDiceRollString(s: string) returns (r: Result<seq<DiceRoll>, ParseError>)
    ensures r == Parse(s)
  {
    var tokenised := TokeniseString(s);
    if tokenised.Failure? {
      return Failure(tokenised.error);
    }
    var ts := tokenised.value;
    WalkReads(ts);
    var wholeRoll: seq<DiceRoll> := [];
    var nextElement: char := '\0';
    var nextIsAddend := false;
    var nextIsNegative := false;
    var start, end := 0, 1;
    while end <= |ts|
      invariant start < end && (end <= |ts| || start >= |ts|)
      invariant Parse(s) == Walk(ts, start, end, nextIsNegative, wholeRoll)
      decreases |ts| + 2 - end
    {
      WalkStep(ts, start, end, nextIsNegative, wholeRoll);
      if end < |ts| {
        if ts[end].Sign? {
          nextElement, nextIsAddend := ts[end].symbol, true;
        } else {
          nextElement, nextIsAddend := '\0', false;
        }
      }
      if nextIsAddend || end == |ts| {
        var die := ts[start..end];
        var term := ReadSegment(die, nextIsNegative);
        if term.Failure? {
          return Failure(term.error);
        }
        wholeRoll := wholeRoll + [term.value];
        nextIsNegative := nextElement == '-';
        start := end + 1;
        end := start + 1;
      } else {
        end := end + 1;
      }
    }
    return Success(wholeRoll);
  }

  /**
   * A parse succeeds exactly when every segment has an accepted shape, and
   * then it holds one term per segment, in order, each the segment's term
   * with the segment's sign.
   */
  lemma {:induction false} CollectTerms(segs: seq<Segment>)
    ensures Collect(segs).Success? <==> forall i :: 0 <= i < |segs| ==> SegmentTerm(segs[i].tokens).Success?
    ensures Collect(segs).Success? ==>
              |Collect(segs).value| == |segs|
              && forall i :: 0 <= i < |segs| ==>
                   Collect(segs).value[i] == TermRoll(segs[i].negative, SegmentTerm(segs[i].tokens).value)
  {
    if segs != [] {
      CollectTerms(segs[1..]);
      assert forall i :: 1 <= i < |segs| ==> segs[i] == segs[1..][i - 1];
    }
  }

  /** Input that starts with a sign is rejected, as by the aggregating parser. */
  lemma LeadingSignRejected(ts: seq<Token>)
    requires ts != [] && ts[0].Sign?
    ensures ParseTokens(ts).Failure?
  {
    var segs := Segments(ts, false);
    assert segs[0].tokens == ts[..FirstSignFrom(ts, 1)];
    SignLedSegmentRejected(segs[0].tokens);
    CollectTerms(segs);
  }

  // ---------------------------------------------------------------------
  // The same grammar as dice/roll.go

  /** What one term does to an aggregated roll. */
  function ApplyRoll(r: Rolls.Roll, d: DiceRoll): Rolls.Roll
  {
    match d
    case ActualDiceRoll(negative, c, f) => Rolls.ApplyTerm(r, negative, Dice(c, f))
    case NumberDiceRoll(v) => r.(Offset := r.Offset + v)
  }

  /** The terms aggregated left to right. */
  function Aggregate(acc: Rolls.Roll, ds: seq<DiceRoll>): Rolls.Roll
    decreases |ds|
  {
    if ds == [] then acc else Aggregate(ApplyRoll(acc, ds[0]), ds[1..])
  }

  /** Both parsers accept the same segments, and aggregating the terms gives the roll. */
  lemma {:induction false} FoldCollect(segs: seq<Segment>, acc: Rolls.Roll)
    ensures Rolls.Fold(segs, acc).Success? <==> Collect(segs).Success?
    ensures Collect(segs).Success? ==> Rolls.Fold(segs, acc).value == Aggregate(acc, Collect(segs).value)
  {
    if segs != [] {
      match SegmentTerm(segs[0].tokens)
      case Failure(_) =>
      case Success(t) =>
        var d := TermRoll(segs[0].negative, t);
        assert ApplyRoll(acc, d) == Rolls.ApplyTerm(acc, segs[0].negative, t);
        FoldCollect(segs[1..], ApplyRoll(acc, d));
        if Collect(segs[1..]).Success? {
          var ds := [d] + Collect(segs[1..]).value;
          assert ds[0] == d && ds[1..] == Collect(segs[1..]).value;
        }
    }
  }

  /**
   * The two readings of a dice string agree: one fails exactly when the
   * other does, and aggregating the terms gives the roll of dice/roll.go.
   */
  lemma SameGrammar(s: string)
    ensures Parse(s).Success? <==> Rolls.Parse(s).Success?
    ensures Parse(s).Success? ==> Rolls.Parse(s).value == Aggregate(Rolls.EmptyRoll, Parse(s).value)
  {
    if Tokenise(s).Success? {
      FoldCollect(Segments(Tokenise(s).value, false), Rolls.EmptyRoll);
    }
  }

  // ---------------------------------------------------------------------
  // Text

  /** ActualDiceRoll.String (`CdF`, `- CdF`) and NumberDiceRoll.String (`+ N`, else `- |N|`). */
  function String(d: DiceRoll): string
  {
    match d
    case ActualDiceRoll(negative, c, f) => (if negative then "- " else "") + FormatNat(c) + "d" + FormatNat(f)
    case NumberDiceRoll(v) => if v > 0 then "+ " + FormatInt(v) else "- " + FormatInt(-v)
  }


  /** A term whose text starts with its own sign: a negative group or any number. */
  predicate Follower(d: DiceRoll) {
    d.NumberDiceRoll? || d.negative
  }

  /** The sign a term's text starts with, when it has one. */
  function SignChar(d: DiceRoll): char
  {
    match d
    case ActualDiceRoll(negative, _, _) => if negative then '-' else '+'
    case NumberDiceRoll(v) => if v > 0 then '+' else '-'
  }

  /** The unsigned part of a term. */
  function BodyTerm(d: DiceRoll): Term
  {
    match d
    case ActualDiceRoll(_, c, f) => Dice(c, f)
    case NumberDiceRoll(v) => Constant(if v > 0 then v else -v)
  }

  function BodyText(d: DiceRoll): string
  {
    match d
    case ActualDiceRoll(_, c, f) => FormatNat(c) + "d" + FormatNat(f)
    case NumberDiceRoll(v) => FormatNat(if v > 0 then v else -v)
  }

  function BodyTokens(d: DiceRoll): seq<Token>
  {
    match d
    case ActualDiceRoll(_, c, f) => [Number(c), Die, Number(f)]
    case NumberDiceRoll(v) => [Number(if v > 0 then v else -v)]
  }

  /** A term's unsigned text tokenises to its tokens, which read back as its unsigned part. */
  lemma BodyLex(d: DiceRoll)
    ensures Tokenise(BodyText(d)) == Success(BodyTokens(d))
    ensures SegmentTerm(BodyTokens(d)) == Success(BodyTerm(d))
    ensures BodyTokens(d) != [] && SignFreeTail(BodyTokens(d))
  {
    match d
    case ActualDiceRoll(_, c, f) =>
      GroupLex(c, f);
    case NumberDiceRoll(v) =>
      var n: nat := if v > 0 then v else -v;
      DigitRunAtEnd(FormatNat(n));
      ParseFormat(n);
  }

  /** A term is its sign, a space, and its unsigned text; its sign and unsigned part give it back. */
  lemma FollowerParts(d: DiceRoll)
    requires Follower(d)
    ensures String(d) == [SignChar(d), ' '] + BodyText(d)
    ensures TermRoll(SignChar(d) == '-', BodyTerm(d)) == d
  {
  }

  /** The later terms, each after a space. */
  function TailText(ds: seq<DiceRoll>): string
  {
    if ds == [] then "" else " " + String(ds[0]) + TailText(ds[1..])
  }

  /** The terms' texts separated by spaces. */
  function Written(ds: seq<DiceRoll>): string
  {
    if ds == [] then "" else String(ds[0]) + TailText(ds[1..])
  }

  function TailTokens(ds: seq<DiceRoll>): seq<Token>
  {
    if ds == [] then [] else [Sign(SignChar(ds[0]))] + BodyTokens(ds[0]) + TailTokens(ds[1..])
  }

  lemma TailTextStart(ds: seq<DiceRoll>)
    ensures TailText(ds) == [] || TailText(ds)[0] == ' '
  {
  }

  /** One later term after its space tokenises to its sign and its tokens. */
  lemma FollowerLex(d: DiceRoll)
    requires Follower(d)
    ensures Tokenise(" " + String(d)) == Success([Sign(SignChar(d))] + BodyTokens(d))
  {
    FollowerParts(d);
    var c := SignChar(d);
    assert " " + String(d) == [' ', c, ' '] + BodyText(d);
    SeparatorTokens(c);
    BodyLex(d);
    LexAppend([' ', c, ' '], BodyText(d), "");
  }

  /** Later terms written out tokenise to their signs and tokens. */
  lemma {:induction false} TailLex(ds: seq<DiceRoll>)
    requires forall i :: 0 <= i < |ds| ==> Follower(ds[i])
    ensures Tokenise(TailText(ds)) == Success(TailTokens(ds))
  {
    if ds != [] {
      var head := " " + String(ds[0]);
      FollowerLex(ds[0]);
      TailLex(ds[1..]);
      TailTextStart(ds[1..]);
      LexAppend(head, TailText(ds[1..]), "");
      assert [Sign(SignChar(ds[0]))] + BodyTokens(ds[0]) + TailTokens(ds[1..]) == TailTokens(ds);
    }
  }

  /** A term's tokens followed by later terms' tokens read back as that term and the later terms. */
  lemma {:induction false} CollectTail(d: DiceRoll, negative: bool, rest: seq<DiceRoll>)
    requires forall i :: 0 <= i < |rest| ==> Follower(rest[i])
    ensures Collect(Segments(BodyTokens(d) + TailTokens(rest), negative))
         == Success([TermRoll(negative, BodyTerm(d))] + rest)
    decreases |rest|
  {
    if rest == [] {
      CollectLast(d, negative);
    } else {
      CollectTail(rest[0], SignChar(rest[0]) == '-', rest[1..]);
      CollectCons(d, negative, rest[0], rest[1..]);
      assert [rest[0]] + rest[1..] == rest;
    }
  }

  /** A term's tokens alone read back as that term. */
  lemma CollectLast(d: DiceRoll, negative: bool)
    ensures Collect(Segments(BodyTokens(d) + TailTokens([]), negative)) == Success([TermRoll(negative, BodyTerm(d))] + [])
  {
    var body := BodyTokens(d);
    BodyLex(d);
    assert body + TailTokens([]) == body;
    SegmentsLast(body, negative);
    CollectStep(Segment(negative, body), []);
  }

  /** One more term in front of tokens that read back keeps them reading back. */
  lemma CollectCons(d: DiceRoll, negative: bool, head: DiceRoll, tail: seq<DiceRoll>)
    requires Follower(head)
    requires Collect(Segments(BodyTokens(head) + TailTokens(tail), SignChar(head) == '-'))
          == Success([TermRoll(SignChar(head) == '-', BodyTerm(head))] + tail)
    ensures Collect(Segments(BodyTokens(d) + TailTokens([head] + tail), negative))
         == Success([TermRoll(negative, BodyTerm(d))] + ([head] + tail))
  {
    var body := BodyTokens(d);
    BodyLex(d);
    var c := SignChar(head);
    var next := BodyTokens(head) + TailTokens(tail);
    assert TailTokens([head] + tail) == [Sign(c)] + next by {
      assert ([head] + tail)[0] == head && ([head] + tail)[1..] == tail;
    }
    assert body + TailTokens([head] + tail) == body + [Sign(c)] + next;
    SegmentsSplit(body, c, next, negative);
    FollowerParts(head);
    assert (Sign(c) == Sign('-')) == (c == '-');
    CollectStep(Segment(negative, body), Segments(next, c == '-'));
  }

  /** Written out, a first positive group is its unsigned text followed by the later terms. */
  lemma WrittenSplit(ds: seq<DiceRoll>)
    requires ds != [] && ds[0].ActualDiceRoll? && !ds[0].negative
    ensures Written(ds) == BodyText(ds[0]) + TailText(ds[1..])
  {
    assert String(ds[0]) == BodyText(ds[0]);
  }

  /**
   * Round trip: terms written out and separated by spaces read back as the
   * same terms, when the first is a positive group of dice and every later
   * term carries its own sign.
   */
  lemma WrittenRoundTrip(ds: seq<DiceRoll>)
    requires ds != [] && ds[0].ActualDiceRoll? && !ds[0].negative
    requires forall i :: 1 <= i < |ds| ==> Follower(ds[i])
    ensures Parse(Written(ds)) == Success(ds)
  {
    var rest := ds[1..];
    var body, tail := BodyText(ds[0]), TailText(rest);
    var ts := BodyTokens(ds[0]) + TailTokens(rest);
    assert Written(ds) == body + tail by {
      WrittenSplit(ds);
    }
    assert Tokenise(body + tail) == Success(ts) by {
      assert forall i :: 0 <= i < |rest| ==> Follower(rest[i]);
      BodyLex(ds[0]);
      TailLex(rest);
      TailTextStart(rest);
      LexAppend(body, tail, "");
    }
    assert ParseTokens(ts) == Success(ds) by {
      assert forall i :: 0 <= i < |rest| ==> Follower(rest[i]);
      CollectTail(ds[0], false, rest);
      assert [ds[0]] + rest == ds;
    }
  }

  /** Text that starts with a sign is rejected. */
  lemma SignLedRejected(s: string)
    requires s != [] && (s[0] == '+' || s[0] == '-')
    ensures Parse(s).Failure?
  {
    assert s == [s[0]] + s[1..];
    LexNonDigit(s[0], s[1..], "");
    assert Flush("") + CharTokens(s[0]) == [Sign(s[0])];
    if Tokenise(s).Success? {
      LeadingSignRejected(Tokenise(s).value);
    }
  }

  /** The text of a term that carries its own sign starts with that sign. */
  lemma WrittenLead(ds: seq<DiceRoll>)
    requires ds != [] && Follower(ds[0])
    ensures Written(ds) != [] && Written(ds)[0] == SignChar(ds[0])
  {
    FollowerParts(ds[0]);
  }

  /** A text starting with a signed term is rejected: a lone `- CdF`, `+ N` or `- N` does not read. */
  lemma SignedFirstRejected(ds: seq<DiceRoll>)
    requires ds != [] && Follower(ds[0])
    ensures Parse(Written(ds)).Failure?
  {
    WrittenLead(ds);
    SignLedRejected(Written(ds));
  }

  // ---------------------------------------------------------------------
  // Simulation

  /** How many draws a term takes from the random stream. */
  function Uses(d: DiceRoll): nat
  {
    if d.ActualDiceRoll? then d.count else 0
  }

  /** Every group that is rolled can be rolled (Intn panics on 0). */
  predicate Rollable(d: DiceRoll) {
    d.ActualDiceRoll? && d.count > 0 ==> d.faces >= 1
  }

  /** The draws with their sign. */
  function Signs(negative: bool, draws: seq<nat>): (r: seq<int>)
    ensures |r| == |draws|
  {
    seq(|draws|, i requires 0 <= i < |draws| => if negative then -(draws[i] as int) else draws[i])
  }

  /** The values a term yields from the stream at `k`. */
  function Values(d: DiceRoll, stream: seq<nat>, k: nat): seq<int>
    requires Rollable(d) && k + Uses(d) <= |stream|
  {
    match d
    case ActualDiceRoll(negative, c, f) => Signs(negative, FaceCounts.Row(stream, k, f, c))
    case NumberDiceRoll(v) => [v]
  }

  /**
   * A group yields exactly `count` values, each in [1, faces] or, when
   * negative, in [-faces, -1]; a number yields just its value.
   */
  lemma ValuesBounds(d: DiceRoll, stream: seq<nat>, k: nat)
    requires Rollable(d) && k + Uses(d) <= |stream|
    ensures d.NumberDiceRoll? ==> Values(d, stream, k) == [d.value]
    ensures d.ActualDiceRoll? ==>
              |Values(d, stream, k)| == d.count
              && forall j :: 0 <= j < d.count ==>
                   if d.negative then -(d.faces as int) <= Values(d, stream, k)[j] <= -1
                   else 1 <= Values(d, stream, k)[j] <= d.faces
  {
    if d.ActualDiceRoll? {
      FaceCounts.RowBounds(stream, k, d.faces, d.count);
    }
  }

  /**
   * ActualDiceRoll.SimulateValue / NumberDiceRoll.SimulateValue: draw
   * `count` dice, then negate them in place when the group is negative.
   */
  method SimulateValue(d: DiceRoll, stream: seq<nat>, k: nat) returns (rolls: seq<int>)
    requires Rollable(d) && k + Uses(d) <= |stream|
    ensures rolls == Values(d, stream, k)
  {
    if d.NumberDiceRoll? {
      return [d.value];
    }
    rolls := [];
    var i := 0;
    while i < d.count
      invariant 0 <= i <= d.count
      invariant rolls == FaceCounts.Row(stream, k, d.faces, i)
    {
      rolls := rolls + [FaceCounts.Draw(stream, k + i, d.faces)];
      i := i + 1;
    }
    ghost var drawn := FaceCounts.Row(stream, k, d.faces, d.count);
    if d.negative {
      var j := 0;
      while j < |rolls|
        invariant 0 <= j <= |rolls| == |drawn|
        invariant forall t :: 0 <= t < j ==> rolls[t] == -(drawn[t] as int)
        invariant forall t :: j <= t < |rolls| ==> rolls[t] == drawn[t]
      {
        rolls := rolls[j := -rolls[j]];
        j := j + 1;
      }
    }
  }

  /** Draws taken by the terms before position `n`. */
  function UsesBefore(ds: seq<DiceRoll>, n: nat): nat
    requires n <= |ds|
  {
    if n == 0 then 0 else UsesBefore(ds, n - 1) + Uses(ds[n - 1])
  }

  predicate AllRollable(ds: seq<DiceRoll>) {
    forall i :: 0 <= i < |ds| ==> Rollable(ds[i])
  }

  /** The values of the first `n` terms, each term drawing after the ones before it. */
  function AllValues(ds: seq<DiceRoll>, stream: seq<nat>, n: nat): seq<int>
    requires n <= |ds| && AllRollable(ds) && UsesBefore(ds, |ds|) <= |stream|
  {
    if n == 0 then []
    else
      UsesBeforeGrows(ds, n, |ds|);
      AllValues(ds, stream, n - 1) + Values(ds[n - 1], stream, UsesBefore(ds, n - 1))
  }

  lemma {:induction false} UsesBeforeGrows(ds: seq<DiceRoll>, n: nat, m: nat)
    requires n <= m <= |ds|
    ensures UsesBefore(ds, n) <= UsesBefore(ds, m)
    decreases m - n
  {
    if n < m {
      UsesBeforeGrows(ds, n, m - 1);
    }
  }

  /** The number of values the terms yield: their counts, plus one per number. */
  function ValueCount(ds: seq<DiceRoll>): nat
  {
    if ds == [] then 0
    else ValueCount(ds[..|ds| - 1]) + (if ds[|ds| - 1].ActualDiceRoll? then ds[|ds| - 1].count else 1)
  }

  /** DiceRolls.SimulateValue yields as many values as the counts plus the numbers. */
  lemma {:induction false} AllValuesLength(ds: seq<DiceRoll>, stream: seq<nat>, n: nat)
    requires n <= |ds| && AllRollable(ds) && UsesBefore(ds, |ds|) <= |stream|
    ensures |AllValues(ds, stream, n)| == ValueCount(ds[..n])
  {
    if n > 0 {
      AllValuesLength(ds, stream, n - 1);
      UsesBeforeGrows(ds, n, |ds|);
      ValuesBounds(ds[n - 1], stream, UsesBefore(ds, n - 1));
      assert ds[..n][..n - 1] == ds[..n - 1];
    }
  }

  /** DiceRolls.SimulateValue: every term's values, in term order. */
  method SimulateAll(ds: seq<DiceRoll>, stream: seq<nat>) returns (result: seq<int>)
    requires AllRollable(ds) && UsesBefore(ds, |ds|) <= |stream|
    ensures result == AllValues(ds, stream, |ds|)
  {
    result := [];
    var k := 0;
    for i := 0 to |ds|
      invariant k == UsesBefore(ds, i)
      invariant result == AllValues(ds, stream, i)
    {
      UsesBeforeGrows(ds, i + 1, |ds|);
      var values := SimulateValue(ds[i], stream, k);
      result := result + values;
      k := k + Uses(ds[i]);
    }
  }

  /** DiceRollResult: a term, the values it yielded and their sum. */
  datatype DiceRollResult = DiceRollResult(DiceRolled: DiceRoll, Results: seq<int>, Sum: int)

  /** ReverseDiceRollResult: the results from last to first (the channel's order). */
  method ReverseDiceRollResult(lst: seq<DiceRollResult>) returns (out: seq<DiceRollResult>)
    ensures |out| == |lst| && forall i :: 0 <= i < |lst| ==> out[i] == lst[|lst| - 1 - i]
    ensures multiset(out) == multiset(lst)
  {
    out := YieldReversed(lst);
  }
}
