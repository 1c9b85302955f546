/**
 * The text of simulated draws (dice/roll.go StringFaceCountMapResults and
 * RollResult.StringIndividualRolls), and the value a reader takes from it:
 * the same text read by the roll parser once brackets are dropped.
 */
module DrawText {
  import opened Results
  import opened Seqs
  import opened Decimal
  import opened DiceSyntax
  import opened Rolls
  import opened RollText
  import FaceCounts

  /** The decimal text of each draw. */
  function Texts(draws: seq<nat>): (r: seq<string>)
    ensures |r| == |draws|
  {
    seq(|draws|, i requires 0 <= i < |draws| => FormatNat(draws[i]))
  }

  /** The draws of one bucket joined with ` + `. */
  function DrawsText(draws: seq<nat>): string
  {
    Join(Texts(draws), " + ")
  }

  /** One bucket among several: a single draw bare, otherwise its draws in brackets. */
  function BucketText(draws: seq<nat>): string
  {
    if |draws| == 1 then FormatNat(draws[0]) else "(" + DrawsText(draws) + ")"
  }

  /**
   * StringFaceCountMapResults: a single bucket's draws joined with ` + `;
   * several buckets each written by BucketText and joined with ` + `.
   */
  function ResultsString(results: seq<seq<nat>>): string
  {
    if |results| == 1 then DrawsText(results[0])
    else Join(BucketTexts(results), " + ")
  }

  /** The text of each bucket among several. */
  function BucketTexts(results: seq<seq<nat>>): (r: seq<string>)
    ensures |r| == |results| && forall i :: 0 <= i < |results| ==> r[i] == BucketText(results[i])
  {
    if results == [] then [] else [BucketText(results[0])] + BucketTexts(results[1..])
  }

  /** Every bucket holds at least one draw (as every simulated group of dice does). */
  predicate Filled(results: seq<seq<nat>>) {
    forall i :: 0 <= i < |results| ==> results[i] != []
  }

  // ---------------------------------------------------------------------
  // Draws as constant terms

  /** The draws as constant terms, all with the same sign. */
  function Constants(negative: bool, ns: seq<nat>): (items: seq<Signed>)
    ensures |items| == |ns|
  {
    seq(|ns|, i requires 0 <= i < |ns| => Signed(negative, Constant(ns[i])))
  }

  /** Applying constant terms moves the offset by their sum. */
  lemma {:induction false} ApplyConstants(acc: Roll, negative: bool, ns: seq<nat>)
    ensures ApplyAll(acc, Constants(negative, ns))
         == acc.(Offset := if negative then acc.Offset - Sum(ns) else acc.Offset + Sum(ns))
    decreases |ns|
  {
    if ns != [] {
      var init, last := ns[..|ns| - 1], ns[|ns| - 1];
      assert Constants(negative, ns) == Constants(negative, init) + [Signed(negative, Constant(last))];
      ApplyAllAppend(acc, Constants(negative, init), [Signed(negative, Constant(last))]);
      ApplyConstants(acc, negative, init);
      var mid := ApplyAll(acc, Constants(negative, init));
      assert ApplyAll(mid, [Signed(negative, Constant(last))])
          == ApplyAll(ApplyTerm(mid, negative, Constant(last)), []);
    }
  }

  /** A bucket's text is its first draw followed by the others as added constants. */
  lemma DrawsTextItems(ns: seq<nat>)
    requires ns != []
    ensures DrawsText(ns) == TermText(Constant(ns[0])) + FlatText(Constants(false, ns)[1..])
  {
    var items := Constants(false, ns);
    assert Texts(ns) == seq(|items|, i requires 0 <= i < |items| => TermText(items[i].term));
    JoinFlat(items);
  }

  /** The text of one bucket reads as a roll of no dice whose offset is the bucket's sum. */
  lemma DrawsRead(ns: seq<nat>)
    requires ns != []
    ensures Parse(DrawsText(ns)) == Success(EmptyRoll.(Offset := Sum(ns)))
  {
    var items := Constants(false, ns);
    DrawsTextItems(ns);
    SignedParse(Constant(ns[0]), items[1..]);
    assert [Signed(false, Constant(ns[0]))] + items[1..] == items;
    ApplyConstants(EmptyRoll, false, ns);
  }

  /** With a single bucket, the text reads as the sum of its draws: no brackets are written. */
  lemma SingleBucketRead(results: seq<seq<nat>>)
    requires |results| == 1 && Filled(results)
    ensures Parse(ResultsString(results)) == Success(EmptyRoll.(Offset := Total(results)))
  {
    assert ResultsString(results) == DrawsText(results[0]);
    assert Total(results) == Sum(results[0]) by {
      assert results[..0] == [];
    }
    DrawsRead(results[0]);
  }

  // ---------------------------------------------------------------------
  // Dropping brackets

  predicate NoBrackets(s: string) {
    '(' !in s && ')' !in s
  }

  /** The text without its brackets. */
  function Unbracket(s: string): (r: string)
    ensures NoBrackets(r)
  {
    if s == [] then ""
    else (if s[0] == '(' || s[0] == ')' then "" else [s[0]]) + Unbracket(s[1..])
  }

  lemma {:induction false} UnbracketAppend(a: string, b: string)
    ensures Unbracket(a + b) == Unbracket(a) + Unbracket(b)
  {
    if a == [] {
      assert a + b == b;
    } else {
      UnbracketAppend(a[1..], b);
      var head := if a[0] == '(' || a[0] == ')' then "" else [a[0]];
      assert Unbracket(a + b) == head + Unbracket(a[1..] + b) by {
        assert (a + b)[0] == a[0] && (a + b)[1..] == a[1..] + b;
      }
      assert Unbracket(a) == head + Unbracket(a[1..]);
      AppendAssoc(head, Unbracket(a[1..]), Unbracket(b));
    }
  }

  /** Text without brackets is left as it is. */
  lemma {:induction false} UnbracketPlain(s: string)
    requires NoBrackets(s)
    ensures Unbracket(s) == s
  {
    if s != [] {
      assert s == [s[0]] + s[1..];
      assert s[0] in s;
      UnbracketPlain(s[1..]);
    }
  }

  lemma DigitsPlain(s: string)
    requires AllDigits(s)
    ensures NoBrackets(s)
  {
  }

  /** Dropping brackets from joined parts drops them from each part, the separator having none. */
  lemma {:induction false} UnbracketJoin(parts: seq<string>, sep: string)
    requires NoBrackets(sep)
    ensures Unbracket(Join(parts, sep))
         == Join(seq(|parts|, i requires 0 <= i < |parts| => Unbracket(parts[i])), sep)
  {
    var plain := seq(|parts|, i requires 0 <= i < |parts| => Unbracket(parts[i]));
    if |parts| > 1 {
      var tail := parts[1..];
      UnbracketJoin(tail, sep);
      assert plain[1..] == seq(|tail|, i requires 0 <= i < |tail| => Unbracket(tail[i]));
      UnbracketAppend(parts[0] + sep, Join(tail, sep));
      UnbracketAppend(parts[0], sep);
      UnbracketPlain(sep);
    }
  }

  /** A bucket's own text has no brackets. */
  lemma DrawsPlain(ns: seq<nat>)
    ensures Unbracket(DrawsText(ns)) == DrawsText(ns)
  {
    var texts := Texts(ns);
    assert NoBrackets(" + ");
    UnbracketJoin(texts, " + ");
    forall i | 0 <= i < |texts| ensures Unbracket(texts[i]) == texts[i] {
      DigitsPlain(texts[i]);
      UnbracketPlain(texts[i]);
    }
    assert seq(|texts|, i requires 0 <= i < |texts| => Unbracket(texts[i])) == texts;
  }

  /** Without its brackets, a bucket among several is its draws joined with ` + `. */
  lemma BucketPlain(ns: seq<nat>)
    requires ns != []
    ensures Unbracket(BucketText(ns)) == DrawsText(ns)
  {
    DrawsPlain(ns);
    if |ns| == 1 {
      assert Texts(ns) == [FormatNat(ns[0])];
    } else {
      UnbracketAppend("(" + DrawsText(ns), ")");
      UnbracketAppend("(", DrawsText(ns));
    }
  }

  lemma TextsAppend(a: seq<nat>, b: seq<nat>)
    ensures Texts(a + b) == Texts(a) + Texts(b)
  {
  }

  /** Joining the buckets' texts is writing all draws, bucket after bucket. */
  lemma {:induction false} JoinBuckets(results: seq<seq<nat>>)
    requires results != [] && Filled(results)
    ensures Flatten(results) != []
    ensures Join(seq(|results|, i requires 0 <= i < |results| => DrawsText(results[i])), " + ")
         == DrawsText(Flatten(results))
    decreases |results|
  {
    var n := |results|;
    var init, last := results[..n - 1], results[n - 1];
    var texts := seq(n, i requires 0 <= i < n => DrawsText(results[i]));
    if n == 1 {
      assert Flatten(results) == Flatten(init) + last == last;
      assert texts == [DrawsText(last)];
    } else {
      JoinBuckets(init);
      var initTexts := seq(n - 1, i requires 0 <= i < n - 1 => DrawsText(init[i]));
      assert texts == initTexts + [DrawsText(last)];
      JoinAppend(initTexts, [DrawsText(last)], " + ");
      TextsAppend(Flatten(init), last);
      JoinAppend(Texts(Flatten(init)), Texts(last), " + ");
    }
  }

  /** Without brackets, the text of the draws is all draws joined with ` + `. */
  lemma ResultsPlain(results: seq<seq<nat>>)
    requires results != [] && Filled(results)
    ensures Flatten(results) != []
    ensures Unbracket(ResultsString(results)) == DrawsText(Flatten(results))
  {
    JoinBuckets(results);
    if |results| == 1 {
      DrawsPlain(results[0]);
      assert Flatten(results) == Flatten(results[..0]) + results[0];
      assert results[..0] == [];
    } else {
      var buckets := BucketTexts(results);
      assert NoBrackets(" + ");
      UnbracketJoin(buckets, " + ");
      forall i | 0 <= i < |results| ensures Unbracket(buckets[i]) == DrawsText(results[i]) {
        BucketPlain(results[i]);
      }
      assert seq(|buckets|, i requires 0 <= i < |buckets| => Unbracket(buckets[i]))
          == seq(|results|, i requires 0 <= i < |results| => DrawsText(results[i]));
    }
  }

  // ---------------------------------------------------------------------
  // Where the brackets go

  /** How often `c` occurs in the parts, all together. */
  function Occurrences(parts: seq<string>, c: char): nat
  {
    if parts == [] then 0 else multiset(parts[0])[c] + Occurrences(parts[1..], c)
  }

  /** The number of buckets not holding exactly one draw. */
  function Grouped(results: seq<seq<nat>>): nat
  {
    if results == [] then 0 else (if |results[0]| == 1 then 0 else 1) + Grouped(results[1..])
  }

  /** A character absent from the separator occurs in joined parts as often as in the parts. */
  lemma {:induction false} JoinOccurrences(parts: seq<string>, sep: string, c: char)
    requires c !in sep
    ensures multiset(Join(parts, sep))[c] == Occurrences(parts, c)
  {
    if |parts| == 1 {
      assert parts[1..] == [];
    } else if |parts| > 1 {
      JoinOccurrences(parts[1..], sep, c);
      assert multiset(sep)[c] == 0;
      assert multiset(parts[0] + sep + Join(parts[1..], sep))
          == multiset(parts[0]) + multiset(sep) + multiset(Join(parts[1..], sep));
    }
  }

  /** A bucket among several carries one pair of brackets unless it holds exactly one draw. */
  lemma BucketBrackets(ns: seq<nat>, c: char)
    requires c == '(' || c == ')'
    ensures multiset(BucketText(ns))[c] == if |ns| == 1 then 0 else 1
  {
    if |ns| == 1 {
      DigitsPlain(FormatNat(ns[0]));
    } else {
      DrawsPlain(ns);
      assert NoBrackets(DrawsText(ns));
      assert multiset("(" + DrawsText(ns) + ")") == multiset("(") + multiset(DrawsText(ns)) + multiset(")");
    }
  }

  lemma {:induction false} BucketsBrackets(results: seq<seq<nat>>, c: char)
    requires c == '(' || c == ')'
    ensures Occurrences(BucketTexts(results), c) == Grouped(results)
  {
    if results != [] {
      var texts := BucketTexts(results);
      assert texts[1..] == BucketTexts(results[1..]);
      BucketBrackets(results[0], c);
      BucketsBrackets(results[1..], c);
    }
  }

  /**
   * With several buckets, the text holds one `(` and one `)` per bucket
   * not of exactly one draw, and no other bracket.
   */
  lemma ResultsBrackets(results: seq<seq<nat>>)
    requires |results| > 1
    ensures multiset(ResultsString(results))['('] == Grouped(results)
    ensures multiset(ResultsString(results))[')'] == Grouped(results)
  {
    JoinOccurrences(BucketTexts(results), " + ", '(');
    JoinOccurrences(BucketTexts(results), " + ", ')');
    BucketsBrackets(results, '(');
    BucketsBrackets(results, ')');
  }

  /** A single bucket is written without brackets, whatever its number of draws. */
  lemma SingleBucketPlain(results: seq<seq<nat>>)
    requires |results| == 1
    ensures NoBrackets(ResultsString(results))
  {
    DrawsPlain(results[0]);
  }

  /** Read without its brackets, the text of the draws is their total. */
  lemma ResultsReadAsTotal(results: seq<seq<nat>>)
    requires results != [] && Filled(results)
    ensures Parse(Unbracket(ResultsString(results))) == Success(EmptyRoll.(Offset := Total(results)))
  {
    ResultsPlain(results);
    DrawsRead(Flatten(results));
    TotalFlatten(results);
  }

  // ---------------------------------------------------------------------
  // RollResult.StringIndividualRolls

  /**
   * StringIndividualRolls as written: the positive draws, then ` - ` and
   * the negative draws written by StringFaceCountMapResults, then the offset.
   */
  function IndividualRollsString(result: RollResult): string
  {
    (if |result.PositiveResults| > 0 then ResultsString(result.PositiveResults) else "")
    + (if |result.NegativeResults| > 0 then " - " + ResultsString(result.NegativeResults) else "")
    + StringOffset(result.Roll)
  }

  /** The sum Roll.Simulate reports for its draws. */
  predicate SumOfDraws(result: RollResult) {
    result.Sum == Total(result.PositiveResults) - Total(result.NegativeResults) + result.Roll.Offset
  }

  /** `d20 - 2d6` with draws 15 for the d20 and 3, 4 for the two d6, as Roll.Simulate reports them. */
  const SampleRoll := Roll(FaceCounts.FaceCountMap(map[20 := 1], [20]), FaceCounts.FaceCountMap(map[6 := 2], [6]), 0)
  const SampleResult := RollResult(SampleRoll, [[15]], [[3, 4]], 8)

  lemma SampleSum()
    ensures WellFormed(SampleRoll) && SumOfDraws(SampleResult)
  {
    assert Total(SampleResult.PositiveResults) == 15 by {
      assert [[15]][..0] == [];
      assert [15][..0] == [];
    }
    assert Total(SampleResult.NegativeResults) == 7 by {
      assert [[3, 4]][..0] == [];
      assert [3, 4][..1] == [3];
      assert [3][..0] == [];
    }
  }

  lemma SampleText()
    ensures IndividualRollsString(SampleResult) == "15 - 3 + 4"
  {
    assert FormatNat(15) == "15" by {
      assert FormatNat(1) == "1";
    }
    assert ResultsString([[15]]) == "15" by {
      assert Texts([15]) == ["15"];
    }
    assert ResultsString([[3, 4]]) == "3 + 4" by {
      assert Texts([3, 4]) == ["3", "4"];
      assert ["3", "4"][1..] == ["4"];
    }
  }

  lemma SampleTextRead()
    ensures Parse("15 - 3 + 4") == Success(EmptyRoll.(Offset := 16))
  {
    var rest := [Signed(true, Constant(3)), Signed(false, Constant(4))];
    assert FlatText(rest) == " - 3 + 4" by {
      assert rest[1..] == [Signed(false, Constant(4))];
      assert rest[1..][1..] == [];
    }
    assert FormatNat(15) == "15" by {
      assert FormatNat(1) == "1";
    }
    assert "15 - 3 + 4" == TermText(Constant(15)) + FlatText(rest);
    SignedParse(Constant(15), rest);
    var items := [Signed(false, Constant(15))] + rest;
    assert ApplyAll(EmptyRoll, items) == EmptyRoll.(Offset := 16) by {
      assert items[1..] == rest && rest[1..][1..] == [];
    }
  }

  /**
   * As written, a single negative bucket of several draws loses its
   * brackets: `d20 - 2d6` drawing 15, 3 and 4 (sum 8) is written
   * `15 - 3 + 4`, which reads as 16.
   */
  lemma NegativeDrawsMisread()
    ensures WellFormed(SampleRoll) && SumOfDraws(SampleResult) && SampleResult.Sum == 8
    ensures IndividualRollsString(SampleResult) == "15 - 3 + 4"
    ensures Parse(IndividualRollsString(SampleResult)) == Success(EmptyRoll.(Offset := 16))
  {
    SampleSum();
    SampleText();
    SampleTextRead();
  }

  /**
   * StringIndividualRolls corrected: every negative draw is written with
   * its own ` - `, so the text adds up to the reported sum.
   */
  function IndividualRollsText(result: RollResult): string
  {
    (if |result.PositiveResults| > 0 then ResultsString(result.PositiveResults) else "")
    + FlatText(Constants(true, Flatten(result.NegativeResults)))
    + StringOffset(result.Roll)
  }

  /** Signed-term text has no brackets. */
  lemma {:induction false} FlatTextPlain(items: seq<Signed>)
    ensures NoBrackets(FlatText(items))
  {
    if items != [] {
      FlatTextPlain(items[1..]);
      var t := items[0].term;
      if t.Dice? {
        DigitsPlain(FormatNat(t.count));
        DigitsPlain(FormatNat(t.faces));
      } else {
        DigitsPlain(FormatNat(t.value));
      }
    }
  }

  /** The signed terms after the first positive draw: the other draws, then the offset. */
  function IndividualTrail(result: RollResult): seq<Signed>
    requires Flatten(result.PositiveResults) != []
  {
    Constants(false, Flatten(result.PositiveResults))[1..]
    + Constants(true, Flatten(result.NegativeResults))
    + OffsetItems(result.Roll.Offset)
  }

  /** Without brackets, the corrected text is every draw and the offset as signed terms. */
  lemma IndividualItems(result: RollResult)
    requires result.PositiveResults != [] && Filled(result.PositiveResults)
    requires !FaceCounts.IsEmpty(result.Roll.Positive)
    ensures Flatten(result.PositiveResults) != []
    ensures Unbracket(IndividualRollsText(result))
         == TermText(Constant(Flatten(result.PositiveResults)[0])) + FlatText(IndividualTrail(result))
  {
    var pos := Flatten(result.PositiveResults);
    var neg, off := Constants(true, Flatten(result.NegativeResults)), OffsetItems(result.Roll.Offset);
    var x, y, z := ResultsString(result.PositiveResults), FlatText(neg), StringOffset(result.Roll);
    assert Unbracket(x) == TermText(Constant(pos[0])) + FlatText(Constants(false, pos)[1..]) by {
      ResultsPlain(result.PositiveResults);
      DrawsTextItems(pos);
    }
    assert Unbracket(y) == y by {
      FlatTextPlain(neg);
      UnbracketPlain(y);
    }
    assert Unbracket(z) == FlatText(off) by {
      OffsetTextItems(result.Roll);
      FlatTextPlain(off);
      UnbracketPlain(z);
    }
    assert Unbracket(x + y + z) == Unbracket(x) + Unbracket(y) + Unbracket(z) by {
      UnbracketAppend(x + y, z);
      UnbracketAppend(x, y);
    }
    FlatTextRuns(Constants(false, pos)[1..], neg, off);
    Regroup(Unbracket(x), y, FlatText(off), TermText(Constant(pos[0])), FlatText(Constants(false, pos)[1..]),
      FlatText(Constants(false, pos)[1..] + neg + off));
  }

  /** Applying the draws and the offset as signed terms gives their signed total. */
  lemma IndividualApplyDraws(pos: seq<nat>, negs: seq<nat>, offset: int)
    requires pos != []
    ensures ApplyAll(EmptyRoll, [Signed(false, Constant(pos[0]))] + (Constants(false, pos)[1..] + Constants(true, negs) + OffsetItems(offset)))
         == EmptyRoll.(Offset := Sum(pos) - Sum(negs) + offset)
  {
    var ps, ns, os := Constants(false, pos), Constants(true, negs), OffsetItems(offset);
    assert [Signed(false, Constant(pos[0]))] + (ps[1..] + ns + os) == ps + ns + os;
    ApplyAllAppend(EmptyRoll, ps + ns, os);
    ApplyAllAppend(EmptyRoll, ps, ns);
    ApplyConstants(EmptyRoll, false, pos);
    ApplyConstants(EmptyRoll.(Offset := Sum(pos)), true, negs);
    var mid := EmptyRoll.(Offset := Sum(pos) - Sum(negs));
    if offset > 0 {
      assert ApplyAll(mid, os) == ApplyAll(ApplyTerm(mid, false, Constant(offset)), []);
    } else if offset < 0 {
      assert ApplyAll(mid, os) == ApplyAll(ApplyTerm(mid, true, Constant(-offset)), []);
    }
  }

  /** The draws and the offset of the corrected text, applied in turn, give the reported sum. */
  lemma IndividualApply(result: RollResult)
    requires Flatten(result.PositiveResults) != []
    requires SumOfDraws(result)
    ensures ApplyAll(EmptyRoll, [Signed(false, Constant(Flatten(result.PositiveResults)[0]))] + IndividualTrail(result))
         == EmptyRoll.(Offset := result.Sum)
  {
    IndividualApplyDraws(Flatten(result.PositiveResults), Flatten(result.NegativeResults), result.Roll.Offset);
    TotalFlatten(result.PositiveResults);
    TotalFlatten(result.NegativeResults);
  }

  /** The corrected text, read without its brackets, applies every draw and the offset in turn. */
  lemma IndividualParse(result: RollResult)
    requires result.PositiveResults != [] && Filled(result.PositiveResults)
    requires !FaceCounts.IsEmpty(result.Roll.Positive)
    ensures Flatten(result.PositiveResults) != []
    ensures Parse(Unbracket(IndividualRollsText(result)))
         == Success(ApplyAll(EmptyRoll, [Signed(false, Constant(Flatten(result.PositiveResults)[0]))] + IndividualTrail(result)))
  {
    IndividualItems(result);
    IndividualWritten(result);
    SignedParse(Constant(Flatten(result.PositiveResults)[0]), IndividualTrail(result));
  }

  /** The signed terms after the first draw are all numbers. */
  lemma IndividualWritten(result: RollResult)
    requires Flatten(result.PositiveResults) != []
    ensures forall i :: 0 <= i < |IndividualTrail(result)| ==> WrittenTerm(IndividualTrail(result)[i].term)
  {
    var pos := Constants(false, Flatten(result.PositiveResults))[1..];
    var neg := Constants(true, Flatten(result.NegativeResults));
    var off := OffsetItems(result.Roll.Offset);
    forall i | 0 <= i < |pos + neg + off| ensures (pos + neg + off)[i].term.Constant? {
      if i < |pos| {
        assert (pos + neg + off)[i] == pos[i];
      } else if i < |pos| + |neg| {
        assert (pos + neg + off)[i] == neg[i - |pos|];
      } else {
        assert (pos + neg + off)[i] == off[i - |pos| - |neg|];
      }
    }
  }

  /**
   * The corrected text of a simulated roll with positive dice, read without
   * its brackets, is the reported sum.
   */
  lemma IndividualReadsAsSum(result: RollResult)
    requires result.PositiveResults != [] && Filled(result.PositiveResults)
    requires !FaceCounts.IsEmpty(result.Roll.Positive)
    requires SumOfDraws(result)
    ensures Parse(Unbracket(IndividualRollsText(result))) == Success(EmptyRoll.(Offset := result.Sum))
  {
    IndividualParse(result);
    IndividualApply(result);
  }
}
