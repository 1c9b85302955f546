/**
 * Roll from dice/roll.go: the positive dice, the negative dice and a
 * constant offset; the parser that builds it from text, its exact bounds
 * and its simulation.
 */
module Rolls {
  import opened Results
  import opened Seqs
  import opened DiceSyntax
  import FaceCounts

  type FaceCountMap = FaceCounts.FaceCountMap

  /** Positive dice, negative dice and a constant: Σpositive − Σnegative + Offset. */
  datatype Roll = Roll(Positive: FaceCountMap, Negative: FaceCountMap, Offset: int)

  /** The roll the parser starts from: no dice, offset 0. */
  const EmptyRoll := Roll(FaceCounts.Empty, FaceCounts.Empty, 0)

  /** Both dice groups have the shape `add` keeps. */
  predicate WellFormed(r: Roll) {
    FaceCounts.WellFormed(r.Positive) && FaceCounts.WellFormed(r.Negative)
  }

  // ---------------------------------------------------------------------
  // Parsing

  /**
   * What one accepted segment does to the roll: a number moves the offset
   * (down after `-`); a group of dice is added to the side its sign picks,
   * unless it has no dice at all.
   */
  function ApplyTerm(r: Roll, negative: bool, t: Term): Roll
  {
    match t
    case Constant(n) => r.(Offset := if negative then r.Offset - n else r.Offset + n)
    case Dice(count, faces) =>
      if count == 0 then r
      else if negative then r.(Negative := FaceCounts.Add(r.Negative, count, faces))
      else r.(Positive := FaceCounts.Add(r.Positive, count, faces))
  }

  /** The segments applied left to right; the first rejected segment's error ends the parse. */
  function Fold(segs: seq<Segment>, acc: Roll): Result<Roll, ParseError>
  {
    if segs == [] then Success(acc)
    else match SegmentTerm(segs[0].tokens)
      case Failure(e) => Failure(e)
      case Success(t) => Fold(segs[1..], ApplyTerm(acc, segs[0].negative, t))
  }

  /** The roll a token stream describes. */
  function ParseTokens(ts: seq<Token>): Result<Roll, ParseError>
  {
    Fold(Segments(ts, false), EmptyRoll)
  }

  /** The roll a string describes, or the first error met. */
  function Parse(s: string): Result<Roll, ParseError>
  {
    match Tokenise(s)
    case Failure(e) => Failure(e)
    case Success(ts) => ParseTokens(ts)
  }

  /** The segments still to read when the next one starts at `start`. */
  function Rest(ts: seq<Token>, start: nat, negative: bool): seq<Segment>
  {
    if start <= |ts| then Segments(ts[start..], negative) else []
  }

  /** No sign strictly between `lo` and `hi`. */
  predicate NoSignBetween(ts: seq<Token>, lo: nat, hi: nat) {
    forall k :: lo < k < hi && k < |ts| ==> !ts[k].Sign?
  }

  /** The segment from `start` runs up to the first sign after it. */
  lemma SegmentAt(ts: seq<Token>, start: nat, end: nat, negative: bool)
    requires start < end <= |ts|
    requires NoSignBetween(ts, start, end)
    requires end == |ts| || ts[end].Sign?
    ensures end == |ts| ==> Rest(ts, start, negative) == [Segment(negative, ts[start..end])]
    ensures end < |ts| ==> Rest(ts, start, negative)
                           == [Segment(negative, ts[start..end])] + Rest(ts, end + 1, ts[end] == Sign('-'))
  {
    var tail := ts[start..];
    FirstSignFromIsFirst(tail, 1, end - start);
    assert tail[..end - start] == ts[start..end];
    if end < |ts| {
      assert tail[end - start + 1..] == ts[end + 1..];
      assert tail[end - start] == ts[end];
    }
  }

  /**
   * The parser loop as a recursive walk: `end` moves right until it meets a
   * sign or the end of the tokens, where the segment from `start` is read
   * and applied, and reading goes on after the sign.
   */
  function Walk(ts: seq<Token>, start: nat, end: nat, negative: bool, acc: Roll): Result<Roll, ParseError>
    requires start < end
    decreases |ts| + 2 - end
  {
    if end > |ts| then Success(acc)
    else if end == |ts| || ts[end].Sign? then
      match SegmentTerm(ts[start..end])
      case Failure(e) => Failure(e)
      case Success(t) => Walk(ts, end + 1, end + 2, end < |ts| && ts[end] == Sign('-'), ApplyTerm(acc, negative, t))
    else Walk(ts, start, end + 1, negative, acc)
  }

  /** One step of the walk: a cut reads the segment before it, otherwise the segment grows. */
  lemma WalkStep(ts: seq<Token>, start: nat, end: nat, negative: bool, acc: Roll)
    requires start < end <= |ts|
    ensures var cut := end == |ts| || ts[end].Sign?;
            var term := SegmentTerm(ts[start..end]);
            && (cut && term.Failure? ==> Walk(ts, start, end, negative, acc) == Failure(term.error))
            && (cut && term.Success? && end == |ts| ==> Walk(ts, start, end, negative, acc) == Success(ApplyTerm(acc, negative, term.value)))
            && (cut && term.Success? && end < |ts| ==>
                  Walk(ts, start, end, negative, acc) == Walk(ts, end + 1, end + 2, ts[end] == Sign('-'), ApplyTerm(acc, negative, term.value)))
            && (!cut ==> Walk(ts, start, end, negative, acc) == Walk(ts, start, end + 1, negative, acc))
  {
  }

  /** The walk reads the remaining segments, applied to the roll so far. */
  lemma {:induction false} WalkFold(ts: seq<Token>, start: nat, end: nat, negative: bool, acc: Roll)
    requires start < end && (end <= |ts| || start >= |ts|)
    requires NoSignBetween(ts, start, end)
    ensures Walk(ts, start, end, negative, acc) == Fold(Rest(ts, start, negative), acc)
    decreases |ts| + 2 - end
  {
    if end > |ts| {
      assert Rest(ts, start, negative) == [] by {
        if start == |ts| {
          assert ts[start..] == [];
        }
      }
    } else if end == |ts| || ts[end].Sign? {
      WalkStep(ts, start, end, negative, acc);
      WalkCut(ts, start, end, negative, acc);
      var term := SegmentTerm(ts[start..end]);
      if term.Success? && end < |ts| {
        WalkFold(ts, end + 1, end + 2, ts[end] == Sign('-'), ApplyTerm(acc, negative, term.value));
      }
    } else {
      WalkStep(ts, start, end, negative, acc);
      WalkFold(ts, start, end + 1, negative, acc);
    }
  }

  /** At a cut, the remaining segments are the one before the cut and those after it. */
  lemma WalkCut(ts: seq<Token>, start: nat, end: nat, negative: bool, acc: Roll)
    requires start < end <= |ts|
    requires NoSignBetween(ts, start, end)
    requires end == |ts| || ts[end].Sign?
    ensures var term := SegmentTerm(ts[start..end]);
            && (term.Failure? ==> Fold(Rest(ts, start, negative), acc) == Failure(term.error))
            && (term.Success? && end == |ts| ==> Fold(Rest(ts, start, negative), acc) == Success(ApplyTerm(acc, negative, term.value)))
            && (term.Success? && end < |ts| ==>
                  Fold(Rest(ts, start, negative), acc) == Fold(Rest(ts, end + 1, ts[end] == Sign('-')), ApplyTerm(acc, negative, term.value)))
  {
    var seg := Segment(negative, ts[start..end]);
    SegmentAt(ts, start, end, negative);
    if end == |ts| {
      FoldStep(seg, [], acc);
      assert [seg] + [] == [seg];
    } else {
      FoldStep(seg, Rest(ts, end + 1, ts[end] == Sign('-')), acc);
    }
  }

  /** Walking from the first token reads the whole stream. */
  lemma WalkReads(ts: seq<Token>)
    ensures Walk(ts, 0, 1, false, EmptyRoll) == ParseTokens(ts)
  {
    WalkFold(ts, 0, 1, false, EmptyRoll);
    assert ts[0..] == ts;
  }

  /**
   * ParseRollString: tokenise, then walk startIndex/endIndex over the
   * tokens, cutting a segment at each sign and at the end, and apply each
   * segment to the roll.
   */
  method ParseRollString(s: string) returns (r: Result<Roll, ParseError>)
    ensures r == Parse(s)
  {
    var tokenised := TokeniseString(s);
    if tokenised.Failure? {
      return Failure(tokenised.error);
    }
    var ts := tokenised.value;
    WalkReads(ts);
    var rolls := EmptyRoll;
    var nextElement: char := '\0';
    var nextIsAddend := false;
    var nextIsNegative := false;
    var start, end := 0, 1;
    while end <= |ts|
      invariant start < end && (end <= |ts| || start >= |ts|)
      invariant Parse(s) == Walk(ts, start, end, nextIsNegative, rolls)
      decreases |ts| + 2 - end
    {
      WalkStep(ts, start, end, nextIsNegative, rolls);
      if end < |ts| {
        if ts[end].Sign? {
          nextElement, nextIsAddend := ts[end].symbol, true;
        } else {
          nextElement, nextIsAddend := '\0', false;
        }
      }
      if nextIsAddend || end == |ts| {
        var die := ts[start..end];
        var applied := ApplySegment(rolls, die, nextIsNegative);
        if applied.Failure? {
          return applied;
        }
        rolls := applied.value;
        nextIsNegative := nextElement == '-';
        start := end + 1;
        end := start + 1;
      } else {
        end := end + 1;
      }
    }
    return Success(rolls);
  }

  /** Reading one segment: its error, or the rest read from the updated roll. */
  lemma FoldStep(seg: Segment, rest: seq<Segment>, acc: Roll)
    ensures SegmentTerm(seg.tokens).Failure? ==> Fold([seg] + rest, acc) == Failure(SegmentTerm(seg.tokens).error)
    ensures SegmentTerm(seg.tokens).Success? ==>
              Fold([seg] + rest, acc) == Fold(rest, ApplyTerm(acc, seg.negative, SegmentTerm(seg.tokens).value))
  {
    assert ([seg] + rest)[0] == seg && ([seg] + rest)[1..] == rest;
  }

  /** The body of the parser loop for one segment: check its shape, then update the roll. */
  method ApplySegment(rolls: Roll, die: seq<Token>, nextIsNegative: bool) returns (r: Result<Roll, ParseError>)
    ensures SegmentTerm(die).Failure? ==> r == Failure(SegmentTerm(die).error)
    ensures SegmentTerm(die).Success? ==> r == Success(ApplyTerm(rolls, nextIsNegative, SegmentTerm(die).value))
  {
    var count, faces := 0, 0;
    var updated := rolls;
    if |die| == 1 {
      if !die[0].Number? {
        return Failure(InvalidDieFormat);
      }
      if nextIsNegative {
        updated := updated.(Offset := updated.Offset - die[0].value);
      } else {
        updated := updated.(Offset := updated.Offset + die[0].value);
      }
    } else if |die| == 2 {
      if !die[0].Die? {
        return Failure(InvalidDieSymbol);
      }
      if !die[1].Number? {
        return Failure(InvalidNumberOfSidesMarker);
      }
      count, faces := 1, die[1].value;
    } else if |die| == 3 {
      if !die[0].Number? {
        return Failure(InvalidNumberOfDice);
      }
      if !die[1].Die? {
        return Failure(InvalidDieSymbol);
      }
      if !die[2].Number? {
        return Failure(InvalidNumberOfSides);
      }
      count, faces := die[0].value, die[2].value;
    } else {
      return Failure(InvalidDie(die));
    }
    if count != 0 {
      if nextIsNegative {
        updated := updated.(Negative := FaceCounts.Add(updated.Negative, count, faces));
      } else {
        updated := updated.(Positive := FaceCounts.Add(updated.Positive, count, faces));
      }
    }
    return Success(updated);
  }

  /** A parse fails exactly when one of its segments has none of the three accepted shapes. */
  lemma {:induction false} FoldSucceedsIff(segs: seq<Segment>, acc: Roll)
    ensures Fold(segs, acc).Success? <==> forall i :: 0 <= i < |segs| ==> SegmentTerm(segs[i].tokens).Success?
  {
    if segs != [] {
      if SegmentTerm(segs[0].tokens).Success? {
        FoldSucceedsIff(segs[1..], ApplyTerm(acc, segs[0].negative, SegmentTerm(segs[0].tokens).value));
        assert forall i :: 1 <= i < |segs| ==> segs[i] == segs[1..][i - 1];
      }
    }
  }

  /** Every roll the parser builds is well formed (zero-count groups are never added). */
  lemma {:induction false} FoldWellFormed(segs: seq<Segment>, acc: Roll)
    requires WellFormed(acc)
    requires Fold(segs, acc).Success?
    ensures WellFormed(Fold(segs, acc).value)
  {
    if segs != [] {
      var t := SegmentTerm(segs[0].tokens).value;
      if t.Dice? && t.count != 0 {
        FaceCounts.AddPreservesWellFormed(acc.Positive, t.count, t.faces);
        FaceCounts.AddPreservesWellFormed(acc.Negative, t.count, t.faces);
      }
      FoldWellFormed(segs[1..], ApplyTerm(acc, segs[0].negative, t));
    }
  }

  lemma ParseWellFormed(s: string)
    requires Parse(s).Success?
    ensures WellFormed(Parse(s).value)
  {
    FoldWellFormed(Segments(Tokenise(s).value, false), EmptyRoll);
  }

  /** A leading sign is never a separator: `-d6` and `-5` are rejected. */
  lemma LeadingSignRejected(ts: seq<Token>)
    requires ts != [] && ts[0].Sign?
    ensures ParseTokens(ts).Failure?
  {
    var segs := Segments(ts, false);
    assert segs[0].tokens == ts[..FirstSignFrom(ts, 1)];
    SignLedSegmentRejected(segs[0].tokens);
  }

  /** Empty input, or input of white space only, is the empty roll. */
  lemma ParseEmpty(s: string)
    requires forall i :: 0 <= i < |s| ==> IsSpace(s[i])
    ensures Parse(s) == Success(EmptyRoll)
  {
    LexSpaces(s);
  }

  // ---------------------------------------------------------------------
  // Reading signed terms

  /** The signed terms applied left to right. */
  function ApplyAll(acc: Roll, items: seq<Signed>): Roll
    decreases |items|
  {
    if items == [] then acc else ApplyAll(ApplyTerm(acc, items[0].negative, items[0].term), items[1..])
  }

  lemma {:induction false} ApplyAllAppend(acc: Roll, a: seq<Signed>, b: seq<Signed>)
    ensures ApplyAll(acc, a + b) == ApplyAll(ApplyAll(acc, a), b)
    decreases |a|
  {
    if a == [] {
      assert a + b == b;
    } else {
      assert (a + b)[0] == a[0] && (a + b)[1..] == a[1..] + b;
      ApplyAllAppend(ApplyTerm(acc, a[0].negative, a[0].term), a[1..], b);
    }
  }

  /** Parsing the tokens of signed terms applies exactly those terms. */
  lemma {:induction false} FoldSigned(first: Term, rest: seq<Signed>, negative: bool, acc: Roll)
    ensures Fold(Segments(SignedTokens(first, rest), negative), acc)
         == Success(ApplyAll(acc, [Signed(negative, first)] + rest))
    decreases |rest|
  {
    var items := [Signed(negative, first)] + rest;
    var next := ApplyTerm(acc, negative, first);
    assert ApplyAll(acc, items) == ApplyAll(next, rest) by {
      assert items[0] == Signed(negative, first) && items[1..] == rest;
    }
    if rest == [] {
      FoldSingle(first, negative, acc);
    } else {
      var tail := SignedTokens(rest[0].term, rest[1..]);
      SegmentsOfSigned(first, rest, negative);
      FoldHead(first, negative, Segments(tail, rest[0].negative), acc);
      FoldSigned(rest[0].term, rest[1..], rest[0].negative, next);
      assert [Signed(rest[0].negative, rest[0].term)] + rest[1..] == rest;
    }
  }

  lemma FoldSingle(t: Term, negative: bool, acc: Roll)
    ensures Fold(Segments(SignedTokens(t, []), negative), acc) == Success(ApplyTerm(acc, negative, t))
  {
    TermRoundTrip(t);
    assert SignedTokens(t, []) == TermTokens(t);
    SegmentsLast(TermTokens(t), negative);
    FoldStep(Segment(negative, TermTokens(t)), [], acc);
  }

  lemma FoldHead(t: Term, negative: bool, rest: seq<Segment>, acc: Roll)
    ensures Fold([Segment(negative, TermTokens(t))] + rest, acc) == Fold(rest, ApplyTerm(acc, negative, t))
  {
    TermRoundTrip(t);
    FoldStep(Segment(negative, TermTokens(t)), rest, acc);
  }

  lemma SegmentsOfSigned(first: Term, rest: seq<Signed>, negative: bool)
    requires rest != []
    ensures Segments(SignedTokens(first, rest), negative)
         == [Segment(negative, TermTokens(first))] + Segments(SignedTokens(rest[0].term, rest[1..]), rest[0].negative)
  {
    TermRoundTrip(first);
    var sign := if rest[0].negative then '-' else '+';
    var tail := SignedTokens(rest[0].term, rest[1..]);
    SignedTokensCons(first, rest);
    SegmentsSplit(TermTokens(first), sign, tail, negative);
    assert (Sign(sign) == Sign('-')) == rest[0].negative;
  }

  /** The groups of a dice map as signed terms, in Faces order. */
  function Groups(m: FaceCountMap, negative: bool): (items: seq<Signed>)
    ensures |items| == |m.Faces|
  {
    seq(|m.Faces|, i requires 0 <= i < |m.Faces| => Signed(negative, Dice(FaceCounts.Get(m, m.Faces[i]), m.Faces[i])))
  }

  function Side(r: Roll, negative: bool): FaceCountMap
  {
    if negative then r.Negative else r.Positive
  }

  function WithSide(r: Roll, negative: bool, m: FaceCountMap): Roll
  {
    if negative then r.(Negative := m) else r.(Positive := m)
  }

  /** Applying a well-formed map's groups to an empty side fills that side with the map. */
  lemma {:induction false} GroupsPrefix(m: FaceCountMap, negative: bool, acc: Roll, k: nat)
    requires FaceCounts.WellFormed(m) && k <= |m.Faces|
    requires Side(acc, negative) == FaceCounts.Empty
    ensures ApplyAll(acc, Groups(m, negative)[..k]) == WithSide(acc, negative, FaceCounts.Prefix(m, k))
    decreases k
  {
    if k == 0 {
      GroupsNone(m, negative, acc);
    } else {
      GroupsPrefix(m, negative, acc, k - 1);
      GroupsMore(m, negative, acc, k - 1);
    }
  }

  /** No groups applied leave the empty side as it is. */
  lemma GroupsNone(m: FaceCountMap, negative: bool, acc: Roll)
    requires FaceCounts.WellFormed(m)
    requires Side(acc, negative) == FaceCounts.Empty
    ensures ApplyAll(acc, Groups(m, negative)[..0]) == WithSide(acc, negative, FaceCounts.Prefix(m, 0))
  {
    FaceCounts.PrefixEnds(m);
    assert Groups(m, negative)[..0] == [];
  }

  /** Applying the first k + 1 groups is applying the first k and then group k. */
  lemma GroupsMore(m: FaceCountMap, negative: bool, acc: Roll, k: nat)
    requires FaceCounts.WellFormed(m) && k < |m.Faces|
    requires ApplyAll(acc, Groups(m, negative)[..k]) == WithSide(acc, negative, FaceCounts.Prefix(m, k))
    ensures ApplyAll(acc, Groups(m, negative)[..k + 1]) == WithSide(acc, negative, FaceCounts.Prefix(m, k + 1))
  {
    var items := Groups(m, negative);
    TakeSnoc(items, k);
    ApplyAllAppend(acc, items[..k], [items[k]]);
    GroupStep(m, negative, acc, k);
  }

  /** Applying the next group of a well-formed map extends the side by that group. */
  lemma GroupStep(m: FaceCountMap, negative: bool, r: Roll, k: nat)
    requires FaceCounts.WellFormed(m) && k < |m.Faces|
    ensures ApplyAll(WithSide(r, negative, FaceCounts.Prefix(m, k)), [Groups(m, negative)[k]])
         == WithSide(r, negative, FaceCounts.Prefix(m, k + 1))
  {
    var g := Groups(m, negative)[k];
    var before := WithSide(r, negative, FaceCounts.Prefix(m, k));
    FaceCounts.PrefixStep(m, k);
    assert ApplyAll(before, [g]) == ApplyTerm(before, negative, g.term) by {
      assert [g][1..] == [];
    }
  }

  lemma GroupsRebuild(m: FaceCountMap, negative: bool, acc: Roll)
    requires FaceCounts.WellFormed(m)
    requires Side(acc, negative) == FaceCounts.Empty
    ensures ApplyAll(acc, Groups(m, negative)) == WithSide(acc, negative, m)
  {
    GroupsPrefix(m, negative, acc, |m.Faces|);
    assert Groups(m, negative)[..|m.Faces|] == Groups(m, negative);
    FaceCounts.PrefixEnds(m);
  }

  // ---------------------------------------------------------------------
  // Bounds

  /** Roll.Min: the least positive total, minus the greatest negative total, plus the offset. */
  ghost function MinOf(r: Roll): int
  {
    FaceCounts.MinOf(r.Positive) - FaceCounts.MaxOf(r.Negative) + r.Offset
  }

  /** Roll.Max: the greatest positive total, minus the least negative total, plus the offset. */
  ghost function MaxOf(r: Roll): int
  {
    FaceCounts.MaxOf(r.Positive) - FaceCounts.MinOf(r.Negative) + r.Offset
  }

  method Min(r: Roll) returns (min: int)
    ensures min == MinOf(r)
  {
    var positive := FaceCounts.Min(r.Positive);
    var negative := FaceCounts.Max(r.Negative);
    min := positive - negative + r.Offset;
  }

  method Max(r: Roll) returns (max: int)
    ensures max == MaxOf(r)
  {
    var positive := FaceCounts.Max(r.Positive);
    var negative := FaceCounts.Min(r.Negative);
    max := positive - negative + r.Offset;
  }

  /** Every face at least 1. */
  predicate FacesPositive(r: Roll) {
    (forall f :: f in r.Positive.Counts ==> f >= 1) && (forall f :: f in r.Negative.Counts ==> f >= 1)
  }

  lemma MinLeMax(r: Roll)
    requires FacesPositive(r)
    ensures MinOf(r) <= MaxOf(r)
  {
    FaceCounts.MinLeMax(r.Positive);
    FaceCounts.MinLeMax(r.Negative);
  }

  // ---------------------------------------------------------------------
  // Simulation

  /** A simulated roll: the roll (its faces now sorted), every draw per face, and the total. */
  datatype RollResult = RollResult(Roll: Roll, PositiveResults: seq<seq<nat>>, NegativeResults: seq<seq<nat>>, Sum: int)

  /** The number of draws a roll needs. */
  function Draws(r: Roll): nat
  {
    FaceCounts.FaceSum(r.Positive.Faces, r.Positive, false) + FaceCounts.FaceSum(r.Negative.Faces, r.Negative, false)
  }

  /** Every face that is rolled can be rolled. */
  predicate Simulable(r: Roll) {
    FaceCounts.Drawable(r.Positive.Faces, r.Positive) && FaceCounts.Drawable(r.Negative.Faces, r.Negative)
  }

  /** The roll with both face lists in descending order, as Simulate leaves it. */
  function Sorted(r: Roll): (s: Roll)
    ensures s.Positive.Counts == r.Positive.Counts && s.Negative.Counts == r.Negative.Counts
    ensures s.Offset == r.Offset
  {
    r.(Positive := FaceCounts.SortFacesDescending(r.Positive),
       Negative := FaceCounts.SortFacesDescending(r.Negative))
  }

  /**
   * Roll.Simulate: the positive dice draw first from the stream, then the
   * negative dice; the total is their difference plus the offset.
   */
  method Simulate(r: Roll, stream: seq<nat>) returns (result: RollResult)
    requires Simulable(r) && Draws(r) <= |stream|
    ensures result.Roll == Sorted(r)
    ensures Simulable(result.Roll) && Draws(result.Roll) <= |stream|
    ensures result.PositiveResults
         == FaceCounts.Rows(result.Roll.Positive.Faces, result.Roll.Positive, stream, 0)
    ensures result.NegativeResults
         == FaceCounts.Rows(result.Roll.Negative.Faces, result.Roll.Negative, stream,
                            FaceCounts.FaceSum(result.Roll.Positive.Faces, result.Roll.Positive, false))
    ensures result.Sum == Total(result.PositiveResults) - Total(result.NegativeResults) + r.Offset
    ensures WellFormed(r) ==> MinOf(r) <= result.Sum <= MaxOf(r)
  {
    var positive, positiveRolls, positiveSum := FaceCounts.SimulateResult(r.Positive, stream, 0);
    var used := FaceCounts.FaceSum(positive.Faces, positive, false);
    FaceCounts.SortedDrawable(r.Positive);
    var negative, negativeRolls, negativeSum := FaceCounts.SimulateResult(r.Negative, stream, used);
    result := RollResult(Roll(positive, negative, r.Offset), positiveRolls, negativeRolls,
                         positiveSum - negativeSum + r.Offset);
    if WellFormed(r) {
      FaceCounts.SimulatedWithinBounds(r.Positive, stream, 0);
      FaceCounts.SimulatedWithinBounds(r.Negative, stream, used);
    }
  }
}
