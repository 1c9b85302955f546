/**
 * The behaviours undobuffer/buffer_test.go walks through, each as a method
 * whose outcomes are stated in its contract, plus the state that Peek as
 * written cannot read.
 */
module BufferScenarios {
  import opened Results
  import opened UndoBuffer
  import opened Seqs

  /** A buffer of 8: peek and pop fail when empty, and a popped entry comes back. */
  method NonWrapping() returns (outcomes: seq<Result<int, BufferError>>, lengths: seq<int>)
    ensures outcomes == [Failure(NoElements), Success(8), Success(8), Failure(NoElements), Success(8)]
    ensures lengths == [0, 1, 1, 0, 1]
  {
    var b := new Buffer<int>(8);
    var peek0 := b.Peek();
    var len0 := b.Len();
    b.Push(8);
    var len1 := b.Len();
    var peek1 := b.Peek();
    var len1b := b.Len();
    var pop1 := b.Pop();
    var len2 := b.Len();
    var pop2 := b.Pop();
    var unpop := b.Unpop();
    var len3 := b.Len();
    outcomes := [peek0, peek1, pop1, pop2, unpop];
    lengths := [len0, len1, len1b, len2, len3];
  }

  /** A buffer of 4: after an unpop, a push throws away what was left to unpop. */
  method UnpopOnceThenReadd() returns (outcomes: seq<Result<int, BufferError>>)
    ensures outcomes == [Success(1), Success(0), Success(0), Success(1337), Failure(NoValidElementsRemaining)]
  {
    var b := new Buffer<int>(4);
    PushAll(b, [0, 1]);
    assert b.Items == [0, 1];
    var pop1 := b.Pop();
    var pop2 := b.Pop();
    var unpop1 := b.Unpop();
    b.Push(1337);
    var peek := b.Peek();
    var unpop2 := b.Unpop();
    outcomes := [pop1, pop2, unpop1, peek, unpop2];
  }

  /** A buffer of 3 pushed four times: the first entry is overwritten. */
  method Wrapping() returns (outcomes: seq<Result<int, BufferError>>, lengths: seq<int>)
    ensures outcomes == [Success(3), Success(2), Success(1), Failure(NoElements), Success(1337), Success(1337), Success(1337)]
    ensures lengths == [2, 1, 0, 1]
  {
    var b := new Buffer<int>(3);
    PushAll(b, [0, 1, 2, 3]);
    assert b.Items == [1, 2, 3];
    var pop1 := b.Pop();
    var len1 := b.Len();
    var pop2 := b.Pop();
    var len2 := b.Len();
    var pop3 := b.Pop();
    var len3 := b.Len();
    var pop4 := b.Pop();
    b.Push(1337);
    var peek := b.Peek();
    var len4 := b.Len();
    var pop5 := b.Pop();
    var unpop := b.Unpop();
    outcomes := [pop1, pop2, pop3, pop4, peek, pop5, unpop];
    lengths := [len1, len2, len3, len4];
  }

  /** The numbers 0 up to n - 1, in order. */
  function Upto(n: nat): (r: seq<int>)
    ensures |r| == n && forall i :: 0 <= i < n ==> r[i] == i
  {
    if n == 0 then [] else Upto(n - 1) + [n - 1]
  }

  /**
   * A buffer of 10 pushed 0 to 25 keeps 16 to 25; popping them all gives
   * them newest first while the length counts down, unpopping all replays
   * them, five pops and two unpops after that succeed, and a push after
   * that partial replay leaves nothing to unpop.
   */
  method WrapOverTwice() returns (kept: int, popped: seq<int>, popLengths: seq<int>,
                                  emptyPop: Result<int, BufferError>, emptyLen: int,
                                  replayed: seq<int>, emptyUnpop: Result<int, BufferError>,
                                  pops: seq<Result<int, BufferError>>, unpops: seq<Result<int, BufferError>>,
                                  lastUnpop: Result<int, BufferError>)
    ensures kept == 10
    ensures |popped| == 10 && forall k :: 0 <= k < 10 ==> popped[k] == 25 - k
    ensures |popLengths| == 10 && forall k :: 0 <= k < 10 ==> popLengths[k] == 9 - k
    ensures emptyPop == Failure(NoElements) && emptyLen == 0
    ensures |replayed| == 10 && forall k :: 0 <= k < 10 ==> replayed[k] == 16 + k
    ensures emptyUnpop == Failure(NoValidElementsRemaining)
    ensures pops == [Success(25), Success(24), Success(23), Success(22), Success(21)]
    ensures unpops == [Success(21), Success(22)]
    ensures lastUnpop == Failure(NoValidElementsRemaining)
  {
    var b := new Buffer<int>(10);
    PushAll(b, Upto(26));
    kept := b.Len();
    KeptAfterWrapping();
    ghost var items := b.Items;
    popped, popLengths := PopAll(b);
    ReversedRun(items, 16);
    emptyPop := b.Pop();
    emptyLen := b.Len();
    replayed := UnpopAll(b);
    emptyUnpop := b.Unpop();
    pops, unpops, lastUnpop := PartialReplay(b);
  }

  /**
   * On a buffer holding 16 to 25 with nothing to unpop: five pops give
   * 25 down to 21, two unpops give back 21 and 22, and a push then leaves
   * nothing to unpop.
   */
  method PartialReplay(b: Buffer<int>) returns (pops: seq<Result<int, BufferError>>,
                                                unpops: seq<Result<int, BufferError>>,
                                                lastUnpop: Result<int, BufferError>)
    requires b.Valid() && b.data.Length > 0 && b.Redo == []
    requires |b.Items| == 10 && forall k :: 0 <= k < 10 ==> b.Items[k] == 16 + k
    modifies b, b.data
    ensures pops == [Success(25), Success(24), Success(23), Success(22), Success(21)]
    ensures unpops == [Success(21), Success(22)]
    ensures lastUnpop == Failure(NoValidElementsRemaining)
  {
    var p1 := b.Pop();
    assert p1 == Success(25) && b.Items == old(b.Items)[..9];
    var p2 := b.Pop();
    assert p2 == Success(24) && b.Items == old(b.Items)[..8];
    var p3 := b.Pop();
    assert p3 == Success(23) && b.Items == old(b.Items)[..7];
    var p4 := b.Pop();
    assert p4 == Success(22) && b.Items == old(b.Items)[..6];
    ghost var redo := b.Redo;
    var p5 := b.Pop();
    assert p5 == Success(21) && b.Redo == [21] + redo;
    assert b.Redo[1] == redo[0] == 22;
    pops := [p1, p2, p3, p4, p5];
    var u1 := b.Unpop();
    var u2 := b.Unpop();
    unpops := [u1, u2];
    b.Push(1337);
    lastUnpop := b.Unpop();
  }

  /** The newest ten of 0 to 25 are 16 to 25. */
  lemma KeptAfterWrapping()
    ensures var s := Newest([] + Upto(26), 10); |s| == 10 && forall k :: 0 <= k < 10 ==> s[k] == 16 + k
  {
    assert [] + Upto(26) == Upto(26);
  }

  /** A run of consecutive numbers reversed counts down from its last. */
  lemma ReversedRun(s: seq<int>, a: int)
    requires forall i :: 0 <= i < |s| ==> s[i] == a + i
    ensures forall k :: 0 <= k < |s| ==> Reversed(s)[k] == a + |s| - 1 - k
  {
    forall k | 0 <= k < |s|
      ensures Reversed(s)[k] == a + |s| - 1 - k
    {
      ReversedAt(s, k);
    }
  }

  /**
   * A buffer of 2 pushed twice holds entries with nextSpace back at 0:
   * Peek as written would read index -1 here, and the corrected Peek
   * returns the newest entry.
   */
  method PeekOutOfRange() returns (b: Buffer<int>, peek: Result<int, BufferError>)
    ensures b.Valid() && !b.IsEmpty() && b.nextSpace == 0
    ensures peek == Success(2)
  {
    b := new Buffer<int>(2);
    b.Push(1);
    assert b.nextSpace == 1;
    b.Push(2);
    peek := b.Peek();
  }
}
