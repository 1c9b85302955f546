/**
 * The text forms of dice/roll.go: Roll.String with stringOffset, and the
 * rendering of simulated draws (StringFaceCountMapResults,
 * StringIndividualRolls), with what the parser reads back from them.
 */
module RollText {
  import opened Results
  import opened Seqs
  import opened Decimal
  import opened DiceSyntax
  import opened Rolls
  import FaceCounts

  /** stringOffset: ` + N` / ` - N` after dice, or the bare signed number when there are no dice. */
  function StringOffset(r: Roll): string
  {
    var offsetOnly := FaceCounts.IsEmpty(r.Positive) && FaceCounts.IsEmpty(r.Negative);
    if r.Offset > 0 then (if offsetOnly then "" else " + ") + FormatInt(r.Offset)
    else if r.Offset < 0 then (if offsetOnly then FormatInt(r.Offset) else " - " + FormatInt(-r.Offset))
    else ""
  }

  /** The negative groups of Roll.String, after their sign and bracketed when there are several faces. */
  function NegativeString(r: Roll): string
  {
    var n := |r.Negative.Faces|;
    (if !FaceCounts.IsEmpty(r.Negative) then (if FaceCounts.IsEmpty(r.Positive) then "-" else " - ") else "")
    + (if n > 1 then "(" else "")
    + (if n > 0 then FaceCounts.String(r.Negative) else "")
    + (if n > 1 then ")" else "")
  }

  /**
   * Roll.String: the positive groups, then the negative groups after ` - `
   * (a bare `-` when there are no positive dice), bracketed when there is
   * more than one negative face, then the offset.
   */
  function RollString(r: Roll): string
  {
    FaceCounts.String(r.Positive) + NegativeString(r) + StringOffset(r)
  }

  /**
   * The rolls whose text the parser reads back: some positive dice (or no
   * dice and a non-negative offset), and at most one negative face.
   */
  predicate Readable(r: Roll) {
    |r.Negative.Faces| <= 1
    && (!FaceCounts.IsEmpty(r.Positive) || (FaceCounts.IsEmpty(r.Negative) && r.Offset >= 0))
  }

  /** The offset as a signed term, if it is not 0. */
  function OffsetItems(offset: int): seq<Signed>
  {
    if offset > 0 then [Signed(false, Constant(offset))]
    else if offset < 0 then [Signed(true, Constant(-offset))]
    else []
  }

  /** Texts joined by ` + ` are the first text followed by the others as positive terms. */
  lemma {:induction false} JoinFlat(items: seq<Signed>)
    requires items != []
    requires forall i :: 0 <= i < |items| ==> !items[i].negative
    ensures Join(seq(|items|, i requires 0 <= i < |items| => TermText(items[i].term)), " + ")
         == TermText(items[0].term) + FlatText(items[1..])
    decreases |items|
  {
    var parts := seq(|items|, i requires 0 <= i < |items| => TermText(items[i].term));
    if |items| == 1 {
      assert FlatText(items[1..]) == "";
    } else {
      var tail := items[1..];
      assert parts[1..] == seq(|tail|, i requires 0 <= i < |tail| => TermText(tail[i].term));
      JoinFlat(tail);
      JoinStep(parts, " + ");
      FlatCons(tail[0], tail[1..]);
      assert [tail[0]] + tail[1..] == tail;
    }
  }

  /** Joining two or more texts puts the separator after the first one. */
  lemma JoinStep(parts: seq<string>, sep: string)
    requires |parts| > 1
    ensures Join(parts, sep) == parts[0] + (sep + Join(parts[1..], sep))
  {
  }

  /** FaceCountMap.String of a well-formed, non-empty map is its groups as positive terms. */
  lemma GroupsText(m: FaceCounts.FaceCountMap)
    requires m.Faces != []
    ensures FaceCounts.String(m) == TermText(Groups(m, false)[0].term) + FlatText(Groups(m, false)[1..])
  {
    var items := Groups(m, false);
    assert seq(|m.Faces|, i requires 0 <= i < |m.Faces| => FaceCounts.GroupText(FaceCounts.Get(m, m.Faces[i]), m.Faces[i]))
        == seq(|items|, i requires 0 <= i < |items| => TermText(items[i].term));
    JoinFlat(items);
  }

  /** Every group of a well-formed map has at least one die. */
  lemma GroupsWritten(m: FaceCounts.FaceCountMap, negative: bool)
    requires FaceCounts.WellFormed(m)
    ensures forall i :: 0 <= i < |Groups(m, negative)| ==> WrittenTerm(Groups(m, negative)[i].term)
  {
    forall i | 0 <= i < |m.Faces| ensures WrittenTerm(Groups(m, negative)[i].term) {
      assert m.Faces[i] in m.Counts;
    }
  }

  /** A well-formed map with no faces has no counts either. */
  lemma EmptyMap(m: FaceCounts.FaceCountMap)
    requires FaceCounts.WellFormed(m) && FaceCounts.IsEmpty(m)
    ensures m == FaceCounts.Empty
  {
    assert m.Counts.Keys == {};
  }

  /** The first positive group of a roll with positive dice, written without a sign. */
  function LeadTerm(r: Roll): Term
    requires r.Positive.Faces != []
  {
    Groups(r.Positive, false)[0].term
  }

  /** The signed terms written after the first group: the other groups, the negative groups, the offset. */
  function TrailItems(r: Roll): seq<Signed>
    requires r.Positive.Faces != []
  {
    Groups(r.Positive, false)[1..] + Groups(r.Negative, true) + OffsetItems(r.Offset)
  }

  /** After positive dice, a single negative group is written as one subtracted term. */
  lemma NegativeTextItems(r: Roll)
    requires !FaceCounts.IsEmpty(r.Positive) && |r.Negative.Faces| <= 1
    ensures NegativeString(r) == FlatText(Groups(r.Negative, true))
  {
    var neg := Groups(r.Negative, true);
    if |r.Negative.Faces| == 1 {
      var g := neg[0];
      assert neg == [g] && neg[1..] == [];
      assert FaceCounts.String(r.Negative) == TermText(g.term);
      assert FlatText(neg) == " - " + TermText(g.term) + FlatText([]);
    } else {
      assert neg == [];
    }
  }

  /** After dice, the offset is written as one signed term. */
  lemma OffsetTextItems(r: Roll)
    requires !FaceCounts.IsEmpty(r.Positive)
    ensures StringOffset(r) == FlatText(OffsetItems(r.Offset))
  {
  }

  /** The text of three runs of signed terms is the three texts in a row. */
  lemma FlatTextRuns(a: seq<Signed>, b: seq<Signed>, c: seq<Signed>)
    ensures FlatText(a + b + c) == FlatText(a) + FlatText(b) + FlatText(c)
  {
    FlatTextAppend(a + b, c);
    FlatTextAppend(a, b);
  }

  /** Three texts in a row, the first of them split in two. */
  lemma Regroup(x: string, y: string, z: string, t: string, a: string, w: string)
    requires x == t + a && w == a + y + z
    ensures x + y + z == t + w
  {
  }

  /** The text of a readable roll with positive dice is its signed terms written out. */
  lemma RollTextItems(r: Roll)
    requires r.Positive.Faces != [] && |r.Negative.Faces| <= 1
    ensures RollString(r) == TermText(LeadTerm(r)) + FlatText(TrailItems(r))
  {
    var pos, neg, off := Groups(r.Positive, false), Groups(r.Negative, true), OffsetItems(r.Offset);
    var x, y, z := FaceCounts.String(r.Positive), NegativeString(r), StringOffset(r);
    var t, a, w := TermText(LeadTerm(r)), FlatText(pos[1..]), FlatText(TrailItems(r));
    assert x == t + a by {
      GroupsText(r.Positive);
    }
    assert w == a + y + z by {
      NegativeTextItems(r);
      OffsetTextItems(r);
      FlatTextRuns(pos[1..], neg, off);
    }
    Regroup(x, y, z, t, a, w);
  }

  /** Applying a readable roll's signed terms to the empty roll gives the roll back. */
  lemma ItemsRebuild(r: Roll)
    requires WellFormed(r)
    requires r.Positive.Faces != []
    ensures ApplyAll(EmptyRoll, [Signed(false, LeadTerm(r))] + TrailItems(r)) == r
  {
    var pos, neg, off := Groups(r.Positive, false), Groups(r.Negative, true), OffsetItems(r.Offset);
    assert [Signed(false, LeadTerm(r))] + TrailItems(r) == pos + neg + off by {
      assert pos == [pos[0]] + pos[1..];
    }
    ApplyAllAppend(EmptyRoll, pos + neg, off);
    ApplyAllAppend(EmptyRoll, pos, neg);
    GroupsRebuild(r.Positive, false, EmptyRoll);
    var afterPos := EmptyRoll.(Positive := r.Positive);
    GroupsRebuild(r.Negative, true, afterPos);
    var afterNeg := Roll(r.Positive, r.Negative, 0);
    if r.Offset > 0 {
      assert ApplyAll(afterNeg, off) == ApplyAll(ApplyTerm(afterNeg, false, Constant(r.Offset)), []);
    } else if r.Offset < 0 {
      assert ApplyAll(afterNeg, off) == ApplyAll(ApplyTerm(afterNeg, true, Constant(-r.Offset)), []);
    }
  }

  /** A roll of a non-negative offset alone is read back from its text. */
  lemma OffsetRoundTrip(r: Roll)
    requires WellFormed(r) && Readable(r) && FaceCounts.IsEmpty(r.Positive)
    ensures Parse(RollString(r)) == Success(r)
  {
    EmptyMap(r.Positive);
    EmptyMap(r.Negative);
    if r.Offset == 0 {
      assert RollString(r) == "";
      ParseEmpty("");
    } else {
      var t := Constant(r.Offset);
      assert RollString(r) == TermText(t) + FlatText([]);
      SignedLex(t, []);
      FoldSigned(t, [], false, EmptyRoll);
      assert [Signed(false, t)] + [] == [Signed(false, t)];
      assert ApplyAll(EmptyRoll, [Signed(false, t)]) == ApplyAll(ApplyTerm(EmptyRoll, false, t), []);
    }
  }

  /** Written signed terms are read back as exactly those terms, applied to the empty roll. */
  lemma SignedParse(first: Term, rest: seq<Signed>)
    requires WrittenTerm(first)
    requires forall i :: 0 <= i < |rest| ==> WrittenTerm(rest[i].term)
    ensures Parse(TermText(first) + FlatText(rest)) == Success(ApplyAll(EmptyRoll, [Signed(false, first)] + rest))
  {
    SignedLex(first, rest);
    FoldSigned(first, rest, false, EmptyRoll);
  }

  /** A readable roll with positive dice is read back from its text. */
  lemma DiceRoundTrip(r: Roll)
    requires WellFormed(r) && Readable(r) && !FaceCounts.IsEmpty(r.Positive)
    ensures Parse(RollString(r)) == Success(r)
  {
    var first, rest := LeadTerm(r), TrailItems(r);
    assert RollString(r) == TermText(first) + FlatText(rest) by {
      RollTextItems(r);
    }
    TrailWritten(r);
    SignedParse(first, rest);
    ItemsRebuild(r);
  }

  /** Every term written for a well-formed roll with positive dice has at least one die. */
  lemma TrailWritten(r: Roll)
    requires WellFormed(r) && r.Positive.Faces != []
    ensures WrittenTerm(LeadTerm(r))
    ensures forall i :: 0 <= i < |TrailItems(r)| ==> WrittenTerm(TrailItems(r)[i].term)
  {
    var pos, neg, off := Groups(r.Positive, false)[1..], Groups(r.Negative, true), OffsetItems(r.Offset);
    GroupsWritten(r.Positive, false);
    GroupsWritten(r.Negative, true);
    forall i | 0 <= i < |pos + neg + off| ensures WrittenTerm((pos + neg + off)[i].term) {
      if i < |pos| {
        assert (pos + neg + off)[i] == Groups(r.Positive, false)[i + 1];
      } else if i < |pos| + |neg| {
        assert (pos + neg + off)[i] == neg[i - |pos|];
      } else {
        assert (pos + neg + off)[i] == off[i - |pos| - |neg|];
      }
    }
  }

  /**
   * Round trip: parsing Roll.String of a well-formed readable roll gives
   * the same roll back, counts, face order and offset alike.
   */
  lemma RenderRoundTrip(r: Roll)
    requires WellFormed(r) && Readable(r)
    ensures Parse(RollString(r)) == Success(r)
  {
    if FaceCounts.IsEmpty(r.Positive) {
      OffsetRoundTrip(r);
    } else {
      DiceRoundTrip(r);
    }
  }

  /** Text that starts with `-` is never read as a roll. */
  lemma MinusLedRejected(x: string)
    ensures Parse("-" + x).Failure?
  {
    assert "-" + x == ['-'] + x;
    LexNonDigit('-', x, "");
    assert Flush("") + CharTokens('-') == [Sign('-')];
    match Lex(x, "")
    case Success(ts) =>
      LeadingSignRejected([Sign('-')] + ts);
    case Failure(_) =>
  }

  /** Text holding a character the tokenizer refuses is never read as a roll. */
  lemma InvalidCharRejected(s: string, k: nat)
    requires k < |s| && !ValidChar(s[k])
    ensures Parse(s).Failure?
  {
    LexSucceedsIff(s, "");
  }

  /** Where the opening bracket of a bracketed middle part lies. */
  lemma BracketAt(p: string, sep: string, q: string, o: string)
    ensures |p| + |sep| < |p + (sep + "(" + q + ")") + o|
    ensures (p + (sep + "(" + q + ")") + o)[|p| + |sep|] == '('
  {
  }

  /** Several negative faces are written in brackets, which the parser refuses. */
  lemma BracketsRejected(r: Roll)
    requires |r.Negative.Faces| > 1
    ensures Parse(RollString(r)).Failure?
  {
    var pos, q := FaceCounts.String(r.Positive), FaceCounts.String(r.Negative);
    var sep := if FaceCounts.IsEmpty(r.Positive) then "-" else " - ";
    assert NegativeString(r) == sep + "(" + q + ")";
    BracketAt(pos, sep, q, StringOffset(r));
    InvalidCharRejected(RollString(r), |pos| + |sep|);
  }

  /**
   * Every roll that is not readable renders to text the parser refuses:
   * brackets around several negative faces, a leading `-` for negative
   * dice alone or a negative offset alone.
   */
  lemma UnreadableRejected(r: Roll)
    requires !Readable(r)
    ensures Parse(RollString(r)).Failure?
  {
    if |r.Negative.Faces| > 1 {
      BracketsRejected(r);
    } else if !FaceCounts.IsEmpty(r.Negative) {
      assert FaceCounts.String(r.Positive) == "";
      assert RollString(r) == "-" + (FaceCounts.String(r.Negative) + StringOffset(r));
      MinusLedRejected(FaceCounts.String(r.Negative) + StringOffset(r));
    } else {
      assert FaceCounts.String(r.Positive) == "";
      assert RollString(r) == "-" + FormatNat(-r.Offset);
      MinusLedRejected(FormatNat(-r.Offset));
    }
  }
}
