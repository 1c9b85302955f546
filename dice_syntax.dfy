/**
 * The lexical and segment grammar shared by the two dice parsers
 * (dice/roll.go and dice/diceroll.go carry identical copies of it):
 * a character-level tokenizer, the split of a token stream into signed
 * segments, and the three accepted segment shapes.
 */
module DiceSyntax {
  import opened Results
  import opened Decimal
  import Seqs

  /** A lexical token: the die marker `d`/`D`, a sign `+`/`-`, or an unsigned number. */
  datatype Token = Die | Sign(symbol: char) | Number(value: nat)

  /** Everything that can make a dice string unreadable. */
  datatype ParseError =
    | InvalidCharacter(character: char)   // not a digit, d, D, +, - or white space
    | InvalidDieFormat                    // a one-token segment that is not a number
    | InvalidDieSymbol                    // a die marker missing where one is expected
    | InvalidNumberOfSidesMarker          // `d` not followed by a number
    | InvalidNumberOfDice                 // a three-token segment not starting with a number
    | InvalidNumberOfSides                // a three-token segment not ending with a number
    | InvalidDie(segment: seq<Token>)     // a segment of any other length

  /** unicode.IsSpace: the Latin-1 spaces and the other White_Space code points. */
  predicate IsSpace(c: char) {
    c == '\t' || c == '\n' || c == '\U{000B}' || c == '\U{000C}' || c == '\r' || c == ' '
    || c == '\U{0085}' || c == '\U{00A0}' || c == '\U{1680}'
    || ('\U{2000}' <= c <= '\U{200A}')
    || c == '\U{2028}' || c == '\U{2029}' || c == '\U{202F}' || c == '\U{205F}' || c == '\U{3000}'
  }

  /** The characters the tokenizer accepts. */
  predicate ValidChar(c: char) {
    IsDigit(c) || c == 'd' || c == 'D' || c == '+' || c == '-' || IsSpace(c)
  }

  /** The tokens a non-digit character contributes (white space contributes none). */
  function CharTokens(c: char): seq<Token>
  {
    if c == 'd' || c == 'D' then [Die]
    else if c == '+' || c == '-' then [Sign(c)]
    else []
  }

  /** The pending digit run as a token, if there is one. */
  function Flush(digits: string): seq<Token>
    requires AllDigits(digits)
  {
    if digits == [] then [] else [Number(ParseDigits(digits))]
  }

  function Prepend(prefix: seq<Token>, r: Result<seq<Token>, ParseError>): Result<seq<Token>, ParseError>
  {
    match r
    case Success(ts) => Success(prefix + ts)
    case Failure(e) => Failure(e)
  }

  lemma PrependAppend(a: seq<Token>, b: seq<Token>, r: Result<seq<Token>, ParseError>)
    ensures Prepend(a, Prepend(b, r)) == Prepend(a + b, r)
    ensures Prepend([], r) == r
  {
    match r
    case Success(ts) =>
      assert a + (b + ts) == (a + b) + ts;
      assert [] + ts == ts;
    case Failure(_) =>
  }

  /**
   * The token stream of `s`, given the digits already read but not yet
   * turned into a number: a digit extends the run; any other character
   * first ends the run, then contributes its own tokens.
   */
  function Lex(s: string, digits: string): Result<seq<Token>, ParseError>
    requires AllDigits(digits)
    decreases |s|
  {
    if s == [] then Success(Flush(digits))
    else if IsDigit(s[0]) then Lex(s[1..], digits + [s[0]])
    else if ValidChar(s[0]) then Prepend(Flush(digits) + CharTokens(s[0]), Lex(s[1..], ""))
    else Failure(InvalidCharacter(s[0]))
  }

  /** An accepted non-digit ends the pending run and contributes its own tokens. */
  lemma LexNonDigit(c: char, rest: string, digits: string)
    requires AllDigits(digits)
    requires ValidChar(c) && !IsDigit(c)
    ensures Lex([c] + rest, digits) == Prepend(Flush(digits) + CharTokens(c), Lex(rest, ""))
  {
    assert ([c] + rest)[0] == c && ([c] + rest)[1..] == rest;
  }

  /** The token stream of a whole dice string. */
  function Tokenise(s: string): Result<seq<Token>, ParseError>
  {
    Lex(s, "")
  }

  /** TokenisediceUnitString / TokeniseDiceRollString: one pass over the characters. */
  method TokeniseString(s: string) returns (r: Result<seq<Token>, ParseError>)
    ensures r == Tokenise(s)
  {
    var tokenised: seq<Token> := [];
    var readingNumber := false;
    var builder: string := "";
    var i := 0;
    assert s[0..] == s;
    PrependAppend([], [], Lex(s, ""));
    while i < |s|
      invariant 0 <= i <= |s|
      invariant AllDigits(builder)
      invariant readingNumber <==> builder != []
      invariant Tokenise(s) == Prepend(tokenised, Lex(s[i..], builder))
    {
      var c := s[i];
      assert s[i..] == [c] + s[i + 1..];
      ghost var before, pending := tokenised, builder;
      if !IsDigit(c) {
        if readingNumber {
          readingNumber := false;
          tokenised := tokenised + [Number(ParseDigits(builder))];
          builder := "";
        }
      }
      if c == 'd' || c == 'D' {
        tokenised := tokenised + [Die];
      } else if c == '+' || c == '-' {
        tokenised := tokenised + [Sign(c)];
      } else if IsDigit(c) {
        readingNumber := true;
        builder := builder + [c];
      } else if !IsSpace(c) {
        return Failure(InvalidCharacter(c));
      }
      if !IsDigit(c) {
        LexNonDigit(c, s[i + 1..], pending);
        assert tokenised == before + (Flush(pending) + CharTokens(c));
        PrependAppend(before, Flush(pending) + CharTokens(c), Lex(s[i + 1..], ""));
      }
      i := i + 1;
    }
    assert s[i..] == [];
    if readingNumber {
      tokenised := tokenised + [Number(ParseDigits(builder))];
    } else {
      assert tokenised + Flush(builder) == tokenised;
    }
    return Success(tokenised);
  }

  /** Tokenising succeeds exactly when every character is a digit, d, D, +, - or white space. */
  lemma {:induction false} LexSucceedsIff(s: string, digits: string)
    requires AllDigits(digits)
    ensures Lex(s, digits).Success? <==> forall i :: 0 <= i < |s| ==> ValidChar(s[i])
  {
    if s != [] {
      if IsDigit(s[0]) {
        LexSucceedsIff(s[1..], digits + [s[0]]);
      } else {
        LexSucceedsIff(s[1..], "");
      }
      assert forall i :: 1 <= i < |s| ==> s[i] == s[1..][i - 1];
    }
  }

  /** The error names the first character that is not accepted. */
  lemma {:induction false} LexReportsFirstInvalid(s: string, digits: string, k: nat)
    requires AllDigits(digits)
    requires k < |s| && !ValidChar(s[k])
    requires forall i :: 0 <= i < k ==> ValidChar(s[i])
    ensures Lex(s, digits) == Failure(InvalidCharacter(s[k]))
  {
    if k > 0 {
      var next := if IsDigit(s[0]) then digits + [s[0]] else "";
      LexReportsFirstInvalid(s[1..], next, k - 1);
    }
  }

  /** Digits only extend the pending run. */
  lemma {:induction false} LexDigits(ds: string, rest: string, digits: string)
    requires AllDigits(ds) && AllDigits(digits)
    ensures Lex(ds + rest, digits) == Lex(rest, digits + ds)
    decreases |ds|
  {
    if ds == [] {
      assert ds + rest == rest && digits + ds == digits;
    } else {
      assert (ds + rest)[0] == ds[0] && IsDigit(ds[0]);
      assert (ds + rest)[1..] == ds[1..] + rest;
      assert digits + ds == (digits + [ds[0]]) + ds[1..];
      assert AllDigits(digits + [ds[0]]) && AllDigits(ds[1..]);
      LexDigits(ds[1..], rest, digits + [ds[0]]);
    }
  }

  /** White space alone contributes no token. */
  lemma {:induction false} LexSpaces(s: string)
    requires forall i :: 0 <= i < |s| ==> IsSpace(s[i])
    ensures Lex(s, "") == Success([])
    decreases |s|
  {
    if s != [] {
      assert IsSpace(s[0]) && !IsDigit(s[0]) && ValidChar(s[0]);
      LexSpaces(s[1..]);
      assert Flush("") + CharTokens(s[0]) == [];
    }
  }

  /** A maximal run of digits becomes exactly one Number token, ended by any accepted non-digit. */
  lemma DigitRunThen(ds: string, c: char, rest: string)
    requires AllDigits(ds) && ds != []
    requires ValidChar(c) && !IsDigit(c)
    ensures Lex(ds + [c] + rest, "") == Prepend([Number(ParseDigits(ds))] + CharTokens(c), Lex(rest, ""))
  {
    LexDigits(ds, [c] + rest, "");
    assert ds + [c] + rest == ds + ([c] + rest);
    assert ([c] + rest)[0] == c && ([c] + rest)[1..] == rest;
    assert "" + ds == ds;
  }

  /** A digit run at the end of the input becomes exactly one Number token. */
  lemma DigitRunAtEnd(ds: string)
    requires AllDigits(ds) && ds != []
    ensures Lex(ds, "") == Success([Number(ParseDigits(ds))])
  {
    LexDigits(ds, "", "");
    assert ds + "" == ds && "" + ds == ds;
  }

  /** The text of one token, as a person would type it. */
  function TokenText(t: Token): string
  {
    match t
    case Die => "d"
    case Sign(c) => [c]
    case Number(n) => FormatNat(n)
  }

  /** Tokens written out separated by single spaces. */
  function Render(ts: seq<Token>): string
  {
    if ts == [] then ""
    else if |ts| == 1 then TokenText(ts[0])
    else TokenText(ts[0]) + " " + Render(ts[1..])
  }

  predicate WellFormedToken(t: Token) {
    t.Sign? ==> (t.symbol == '+' || t.symbol == '-')
  }

  /** One token's text followed by a non-digit that the tokenizer accepts. */
  lemma TokenThen(t: Token, c: char, rest: string)
    requires WellFormedToken(t)
    requires ValidChar(c) && !IsDigit(c)
    ensures Lex(TokenText(t) + [c] + rest, "") == Prepend([t] + CharTokens(c), Lex(rest, ""))
  {
    match t
    case Number(n) =>
      DigitRunThen(FormatNat(n), c, rest);
      ParseFormat(n);
    case _ =>
      assert TokenText(t) + [c] + rest == [TokenText(t)[0]] + ([c] + rest);
      assert CharTokens(TokenText(t)[0]) == [t];
      LexNonDigit(TokenText(t)[0], [c] + rest, "");
      LexNonDigit(c, rest, "");
      assert Flush("") + CharTokens(TokenText(t)[0]) == [t];
      assert Flush("") + CharTokens(c) == CharTokens(c);
      PrependAppend([t], CharTokens(c), Lex(rest, ""));
  }

  /** Tokenising the written-out form of a token stream gives that stream back. */
  lemma {:induction false} LexRender(ts: seq<Token>)
    requires forall i :: 0 <= i < |ts| ==> WellFormedToken(ts[i])
    ensures Tokenise(Render(ts)) == Success(ts)
  {
    if |ts| == 1 {
      match ts[0]
      case Number(n) =>
        DigitRunAtEnd(FormatNat(n));
        ParseFormat(n);
        assert Render(ts) == FormatNat(n) && ts == [Number(n)];
      case _ =>
        LexNonDigit(TokenText(ts[0])[0], "", "");
        assert TokenText(ts[0]) == [TokenText(ts[0])[0]] + "";
        assert Flush("") + CharTokens(TokenText(ts[0])[0]) == [ts[0]];
        assert [ts[0]] + [] == ts;
    } else if |ts| > 1 {
      TokenThen(ts[0], ' ', Render(ts[1..]));
      assert Render(ts) == TokenText(ts[0]) + [' '] + Render(ts[1..]);
      assert CharTokens(' ') == [] && [ts[0]] + [] == [ts[0]];
      LexRender(ts[1..]);
      assert ts == [ts[0]] + ts[1..];
    }
  }

  /** Two tokenisations one after the other: the first error, or both token streams. */
  function Concat(r1: Result<seq<Token>, ParseError>, r2: Result<seq<Token>, ParseError>): Result<seq<Token>, ParseError>
  {
    match r1
    case Failure(e) => Failure(e)
    case Success(ts) => Prepend(ts, r2)
  }

  lemma ConcatPrepend(p: seq<Token>, r1: Result<seq<Token>, ParseError>, r2: Result<seq<Token>, ParseError>)
    ensures Concat(Prepend(p, r1), r2) == Prepend(p, Concat(r1, r2))
  {
    match r1
    case Success(ts) =>
      match r2 {
        case Success(us) => assert (p + ts) + us == p + (ts + us);
        case Failure(_) =>
      }
    case Failure(_) =>
  }

  /** No digit run straddles the boundary between `a` and `b`. */
  predicate Separable(a: string, b: string) {
    (a != [] && !IsDigit(a[|a| - 1])) || b == [] || !IsDigit(b[0])
  }

  /** Text that no number straddles tokenises piece by piece. */
  lemma {:induction false} LexAppend(a: string, b: string, digits: string)
    requires AllDigits(digits) && Separable(a, b)
    ensures Lex(a + b, digits) == Concat(Lex(a, digits), Lex(b, ""))
    decreases |a|
  {
    if a == [] {
      assert a + b == b;
      if b != [] && ValidChar(b[0]) {
        assert b == [b[0]] + b[1..];
        LexNonDigit(b[0], b[1..], digits);
        LexNonDigit(b[0], b[1..], "");
        assert Flush("") + CharTokens(b[0]) == CharTokens(b[0]);
        PrependAppend(Flush(digits), CharTokens(b[0]), Lex(b[1..], ""));
      } else if b == [] {
        assert Flush(digits) + [] == Flush(digits);
      }
    } else {
      assert (a + b)[0] == a[0] && (a + b)[1..] == a[1..] + b;
      if IsDigit(a[0]) {
        assert AllDigits(digits + [a[0]]);
        assert a[1..] == [] ==> a[|a| - 1] == a[0];
        if a[1..] != [] {
          assert a[1..][|a[1..]| - 1] == a[|a| - 1];
        }
        LexAppend(a[1..], b, digits + [a[0]]);
      } else if ValidChar(a[0]) {
        var p := Flush(digits) + CharTokens(a[0]);
        if a[1..] == [] {
          assert a[1..] + b == b;
          assert p + [] == p;
        } else {
          assert a[1..][|a[1..]| - 1] == a[|a| - 1];
          LexAppend(a[1..], b, "");
          ConcatPrepend(p, Lex(a[1..], ""), Lex(b, ""));
        }
      }
    }
  }

  /** Token streams joined with a separator token. */
  function JoinTokens(parts: seq<seq<Token>>, sep: Token): seq<Token>
  {
    if parts == [] then []
    else if |parts| == 1 then parts[0]
    else parts[0] + [sep] + JoinTokens(parts[1..], sep)
  }

  /** Two texts that tokenise, with no number straddling the boundary, tokenise to both streams. */
  lemma LexJoin(a: string, b: string, ta: seq<Token>, tb: seq<Token>)
    requires Separable(a, b)
    requires Tokenise(a) == Success(ta) && Tokenise(b) == Success(tb)
    ensures Tokenise(a + b) == Success(ta + tb)
  {
    LexAppend(a, b, "");
  }

  /** ` + ` and ` - ` are one sign token each. */
  lemma SeparatorTokens(c: char)
    requires c == '+' || c == '-'
    ensures Tokenise([' ', c, ' ']) == Success([Sign(c)])
  {
    var s := [' ', c, ' '];
    assert s == [' '] + ([c] + [' ']);
    LexNonDigit(' ', [c] + [' '], "");
    LexNonDigit(c, [' '], "");
    assert [' '] == [' '] + [];
    LexNonDigit(' ', [], "");
    assert Lex([], "") == Success([]);
    assert Flush("") + CharTokens(' ') == [];
    assert Prepend([], Success([])) == Success([]);
    assert Lex([' '], "") == Success([]);
    assert Flush("") + CharTokens(c) == [Sign(c)];
    assert [Sign(c)] + [] == [Sign(c)];
    assert Lex([c] + [' '], "") == Success([Sign(c)]);
  }

  /** Tokenising texts joined by ` + ` (or ` - `) joins their token streams with that sign. */
  lemma {:induction false} TokeniseJoin(parts: seq<string>, toks: seq<seq<Token>>, c: char)
    requires c == '+' || c == '-'
    requires |parts| == |toks| >= 1
    requires forall i :: 0 <= i < |parts| ==> Tokenise(parts[i]) == Success(toks[i])
    ensures Tokenise(Seqs.Join(parts, [' ', c, ' '])) == Success(JoinTokens(toks, Sign(c)))
    decreases |parts|
  {
    if |parts| > 1 {
      var sep := [' ', c, ' '];
      var rest := Seqs.Join(parts[1..], sep);
      TokeniseJoin(parts[1..], toks[1..], c);
      assert Seqs.Join(parts, sep) == parts[0] + (sep + rest);
      LexAppend(parts[0], sep + rest, "");
      LexAppend(sep, rest, "");
      SeparatorTokens(c);
      assert toks[0] + ([Sign(c)] + JoinTokens(toks[1..], Sign(c))) == JoinTokens(toks, Sign(c));
    }
  }

  // ---------------------------------------------------------------------
  // Segments

  /** The first index at or after `i` holding a sign, or `|ts|` when there is none. */
  function FirstSignFrom(ts: seq<Token>, i: nat): (e: nat)
    requires i <= |ts|
    ensures i <= e <= |ts|
    decreases |ts| - i
  {
    if i == |ts| || ts[i].Sign? then i else FirstSignFrom(ts, i + 1)
  }

  /** FirstSignFrom finds the first sign: it is a sign and none precedes it. */
  lemma {:induction false} FirstSignFromIsFirst(ts: seq<Token>, i: nat, e: nat)
    requires i <= e <= |ts|
    requires forall k :: i <= k < e ==> !ts[k].Sign?
    requires e == |ts| || ts[e].Sign?
    ensures FirstSignFrom(ts, i) == e
    decreases e - i
  {
    if i < e {
      FirstSignFromIsFirst(ts, i + 1, e);
    }
  }

  /** A run of tokens between two signs, with the sign that governs it. */
  datatype Segment = Segment(negative: bool, tokens: seq<Token>)

  /**
   * The segments of a token stream. A segment starts at its first token
   * (so a leading sign belongs to the first segment, not between segments)
   * and runs up to the next sign; a `-` separator makes the following
   * segment negative, anything else positive. A trailing sign opens no segment.
   */
  function Segments(ts: seq<Token>, negative: bool): seq<Segment>
    decreases |ts|
  {
    if ts == [] then []
    else
      var e := FirstSignFrom(ts, 1);
      [Segment(negative, ts[..e])]
      + (if e < |ts| then Segments(ts[e + 1..], ts[e] == Sign('-')) else [])
  }

  /** No sign after the first token. */
  predicate SignFreeTail(a: seq<Token>) {
    forall k :: 1 <= k < |a| ==> !a[k].Sign?
  }

  /** A sign-free run followed by a sign is one segment; the sign governs what follows. */
  lemma SegmentsSplit(a: seq<Token>, c: char, b: seq<Token>, negative: bool)
    requires a != [] && SignFreeTail(a)
    ensures Segments(a + [Sign(c)] + b, negative)
         == [Segment(negative, a)] + Segments(b, Sign(c) == Sign('-'))
  {
    var ts := a + [Sign(c)] + b;
    FirstSignFromIsFirst(ts, 1, |a|);
    assert ts[..|a|] == a;
    assert ts[|a| + 1..] == b;
  }

  /** A sign-free run at the end is the last segment. */
  lemma SegmentsLast(a: seq<Token>, negative: bool)
    requires a != [] && SignFreeTail(a)
    ensures Segments(a, negative) == [Segment(negative, a)]
  {
    FirstSignFromIsFirst(a, 1, |a|);
    assert a[..|a|] == a;
  }

  /** Every segment is non-empty and holds a sign at most in its first position. */
  lemma {:induction false} SegmentsShape(ts: seq<Token>, negative: bool)
    ensures forall i :: 0 <= i < |Segments(ts, negative)| ==>
              Segments(ts, negative)[i].tokens != [] && SignFreeTail(Segments(ts, negative)[i].tokens)
    decreases |ts|
  {
    if ts != [] {
      var e := FirstSignFrom(ts, 1);
      if e < |ts| {
        SegmentsShape(ts[e + 1..], ts[e] == Sign('-'));
      }
      FirstSignScan(ts, 1);
    }
  }

  /** No sign lies between `i` and the sign FirstSignFrom finds. */
  lemma {:induction false} FirstSignScan(ts: seq<Token>, i: nat)
    requires i <= |ts|
    ensures forall k :: i <= k < FirstSignFrom(ts, i) ==> !ts[k].Sign?
    ensures FirstSignFrom(ts, i) < |ts| ==> ts[FirstSignFrom(ts, i)].Sign?
    decreases |ts| - i
  {
    if i < |ts| && !ts[i].Sign? {
      FirstSignScan(ts, i + 1);
    }
  }

  /** What an accepted segment contributes: a constant or a group of dice. */
  datatype Term = Constant(value: nat) | Dice(count: nat, faces: nat)

  /**
   * The three accepted segment shapes: `N`, `d F` and `C d F`; every
   * other shape is rejected, naming the position that failed.
   */
  function SegmentTerm(seg: seq<Token>): Result<Term, ParseError>
  {
    if |seg| == 1 then
      if seg[0].Number? then Success(Constant(seg[0].value)) else Failure(InvalidDieFormat)
    else if |seg| == 2 then
      if !seg[0].Die? then Failure(InvalidDieSymbol)
      else if !seg[1].Number? then Failure(InvalidNumberOfSidesMarker)
      else Success(Dice(1, seg[1].value))
    else if |seg| == 3 then
      if !seg[0].Number? then Failure(InvalidNumberOfDice)
      else if !seg[1].Die? then Failure(InvalidDieSymbol)
      else if !seg[2].Number? then Failure(InvalidNumberOfSides)
      else Success(Dice(seg[0].value, seg[2].value))
    else Failure(InvalidDie(seg))
  }

  /** The tokens of a term (the inverse of SegmentTerm). */
  function TermTokens(t: Term): seq<Token>
  {
    match t
    case Constant(n) => [Number(n)]
    case Dice(c, f) => if c == 1 then [Die, Number(f)] else [Number(c), Die, Number(f)]
  }

  /** Reading a term's own tokens gives the term back. */
  lemma TermRoundTrip(t: Term)
    ensures SegmentTerm(TermTokens(t)) == Success(t)
    ensures TermTokens(t) != [] && SignFreeTail(TermTokens(t))
  {
  }

  /** A segment accepted by SegmentTerm is exactly the tokens of its term. */
  lemma SegmentTermExact(seg: seq<Token>)
    requires SegmentTerm(seg).Success?
    ensures TermTokens(SegmentTerm(seg).value) == seg
           || (|seg| == 3 && seg[0] == Number(1) && SegmentTerm(seg).value == Dice(1, seg[2].value))
  {
  }

  /** A segment that starts with a sign is never accepted. */
  lemma SignLedSegmentRejected(seg: seq<Token>)
    requires seg != [] && seg[0].Sign?
    ensures SegmentTerm(seg).Failure?
  {
  }

  // ---------------------------------------------------------------------
  // Signed terms: what a rendered roll reads as

  /** A term with the sign written before it. */
  datatype Signed = Signed(negative: bool, term: Term)

  /** A term the renderers can produce: a group always has at least one die. */
  predicate WrittenTerm(t: Term) {
    t.Dice? ==> t.count >= 1
  }

  /** A group without its count when it is 1 (FaceCountMap.String), or a number. */
  function TermText(t: Term): string
  {
    match t
    case Constant(n) => FormatNat(n)
    case Dice(c, f) => (if c > 1 then FormatNat(c) else "") + "d" + FormatNat(f)
  }

  function SignText(negative: bool): string
  {
    if negative then " - " else " + "
  }

  /** The signed terms written out one after another. */
  function FlatText(items: seq<Signed>): string
  {
    if items == [] then ""
    else SignText(items[0].negative) + TermText(items[0].term) + FlatText(items[1..])
  }

  /** The signed terms as tokens. */
  function FlatTokens(items: seq<Signed>): seq<Token>
  {
    if items == [] then []
    else [Sign(if items[0].negative then '-' else '+')] + TermTokens(items[0].term) + FlatTokens(items[1..])
  }

  function SignedTokens(first: Term, rest: seq<Signed>): seq<Token>
  {
    TermTokens(first) + FlatTokens(rest)
  }

  lemma {:induction false} FlatTextAppend(a: seq<Signed>, b: seq<Signed>)
    ensures FlatText(a + b) == FlatText(a) + FlatText(b)
  {
    if a != [] {
      assert (a + b)[0] == a[0] && (a + b)[1..] == a[1..] + b;
      FlatTextAppend(a[1..], b);
    } else {
      assert a + b == b;
    }
  }

  /** A written term tokenises to exactly its tokens. */
  lemma TermLex(t: Term)
    requires WrittenTerm(t)
    ensures Tokenise(TermText(t)) == Success(TermTokens(t))
  {
    match t
    case Constant(n) =>
      DigitRunAtEnd(FormatNat(n));
      ParseFormat(n);
    case Dice(c, f) =>
      if c > 1 {
        GroupLex(c, f);
      } else {
        SingleDieLex(f);
      }
  }

  lemma GroupLex(c: nat, f: nat)
    ensures Tokenise(FormatNat(c) + "d" + FormatNat(f)) == Success([Number(c), Die, Number(f)])
  {
    DigitRunAtEnd(FormatNat(f));
    ParseFormat(f);
    ParseFormat(c);
    DigitRunThen(FormatNat(c), 'd', FormatNat(f));
    assert [Number(c)] + CharTokens('d') + [Number(f)] == [Number(c), Die, Number(f)];
  }

  lemma SingleDieLex(f: nat)
    ensures Tokenise("" + "d" + FormatNat(f)) == Success([Die, Number(f)])
  {
    DigitRunAtEnd(FormatNat(f));
    ParseFormat(f);
    assert "" + "d" + FormatNat(f) == ['d'] + FormatNat(f);
    LexNonDigit('d', FormatNat(f), "");
    assert Flush("") + CharTokens('d') == [Die];
    assert Lex(FormatNat(f), "") == Success([Number(f)]);
    assert [Die] + [Number(f)] == [Die, Number(f)];
    assert Lex(['d'] + FormatNat(f), "") == Prepend([Die], Success([Number(f)]));
  }

  /** A written term is never empty and never starts with white space. */
  lemma TermTextShape(t: Term)
    ensures TermText(t) != [] && !IsSpace(TermText(t)[0]) && ValidChar(TermText(t)[0])
  {
    match t
    case Constant(n) =>
    case Dice(c, f) =>
      if c > 1 {
        assert TermText(t)[0] == FormatNat(c)[0];
      }
  }

  /** Signed terms written out tokenise to their tokens. */
  lemma {:induction false} FlatLex(items: seq<Signed>)
    requires forall i :: 0 <= i < |items| ==> WrittenTerm(items[i].term)
    ensures Tokenise(FlatText(items)) == Success(FlatTokens(items))
  {
    if items != [] {
      FlatLex(items[1..]);
      FlatLexCons(items[0], items[1..]);
      assert [items[0]] + items[1..] == items;
    } else {
      assert Lex("", "") == Success([]);
    }
  }

  /** Signed terms written out start with a space, unless there are none. */
  lemma FlatTextStart(items: seq<Signed>)
    ensures FlatText(items) == [] || FlatText(items)[0] == ' '
  {
  }

  /** The text and the tokens of one more signed term in front. */
  lemma FlatCons(head: Signed, tail: seq<Signed>)
    ensures FlatText([head] + tail) == SignText(head.negative) + (TermText(head.term) + FlatText(tail))
    ensures FlatTokens([head] + tail)
         == [Sign(if head.negative then '-' else '+')] + (TermTokens(head.term) + FlatTokens(tail))
  {
    var items := [head] + tail;
    assert items[0] == head && items[1..] == tail;
  }

  /** One more signed term in front keeps the text tokenising to the tokens. */
  lemma FlatLexCons(head: Signed, tail: seq<Signed>)
    requires WrittenTerm(head.term)
    requires Tokenise(FlatText(tail)) == Success(FlatTokens(tail))
    ensures Tokenise(FlatText([head] + tail)) == Success(FlatTokens([head] + tail))
  {
    var sign := if head.negative then '-' else '+';
    var sep, text, more := SignText(head.negative), TermText(head.term), FlatText(tail);
    var termTs, moreTs := TermTokens(head.term), FlatTokens(tail);
    FlatTextStart(tail);
    TermLex(head.term);
    LexJoin(text, more, termTs, moreTs);
    assert sep == [' ', sign, ' '];
    SeparatorTokens(sign);
    LexJoin(sep, text + more, [Sign(sign)], termTs + moreTs);
    FlatCons(head, tail);
  }

  /** A first term followed by signed terms tokenises to their tokens. */
  lemma SignedLex(first: Term, rest: seq<Signed>)
    requires WrittenTerm(first)
    requires forall i :: 0 <= i < |rest| ==> WrittenTerm(rest[i].term)
    ensures Tokenise(TermText(first) + FlatText(rest)) == Success(SignedTokens(first, rest))
  {
    TermLex(first);
    FlatLex(rest);
    if rest != [] {
      assert FlatText(rest)[0] == ' ';
    }
    LexAppend(TermText(first), FlatText(rest), "");
  }

  /** The tokens of signed terms: the first term, then a sign, then the rest. */
  lemma SignedTokensCons(first: Term, rest: seq<Signed>)
    requires rest != []
    ensures SignedTokens(first, rest)
         == TermTokens(first) + [Sign(if rest[0].negative then '-' else '+')] + SignedTokens(rest[0].term, rest[1..])
  {
  }
}
