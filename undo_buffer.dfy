/**
 * undobuffer/buffer.go: a fixed-size stack kept in a circular buffer.
 * Pushing onto a full buffer overwrites the oldest entry; Pop is undo and
 * Unpop is redo of the most recently popped entries, until the next Push.
 *
 * The abstract state is two ghost sequences: Items, the entries Pop can
 * return (oldest first), and Redo, the entries Unpop can bring back (next
 * first). Valid ties them to the array and the five cursor fields.
 */
module UndoBuffer {
  import opened Results
  import opened Seqs

  /** The two errors of the buffer: nothing to pop, nothing to unpop. */
  datatype BufferError = NoElements | NoValidElementsRemaining

  /** An index one lap past the end, brought back into the array. */
  function Wrap(k: nat, n: nat): (r: nat)
    requires k < 2 * n
    ensures r < n
  {
    if k >= n then k - n else k
  }

  /** The slot before `k`, round the end of an array of `n` slots. */
  function Back(k: int, n: nat): (r: int)
    requires 0 <= k < n
    ensures 0 <= r < n && Wrap(r + 1, n) == k
  {
    if k == 0 then n - 1 else k - 1
  }

  /** The last `n` elements of `s` (all of them when there are fewer). */
  function Newest<T>(s: seq<T>, n: nat): (r: seq<T>)
    ensures |r| == if |s| <= n then |s| else n
  {
    if |s| <= n then s else s[|s| - n..]
  }

  /** Keeping the newest `n` after each step keeps the newest `n` overall. */
  lemma NewestSnoc<T>(s: seq<T>, x: T, n: nat)
    requires n >= 1
    ensures Newest(Newest(s, n) + [x], n) == Newest(s + [x], n)
  {
    if |s| > n {
      var t := s[|s| - n..];
      assert (t + [x])[1..] == (s + [x])[|s| + 1 - n..];
    }
  }

  /**
   * The cursor arithmetic of a buffer of `n` slots holding `size` entries
   * to pop and `pending` entries to unpop: the cursors lie in the array,
   * the entries to pop run from `lowest` up to `next` and those to unpop
   * from `next` up to `limit`, both round the end; `full` says the entries
   * to pop fill the array.
   */
  ghost predicate Cursors(n: nat, lowest: int, next: int, limit: int, full: bool, size: nat, pending: nat)
  {
    && size + pending <= n
    && (n == 0 ==> next == 0 && lowest == 0 && limit == 0 && !full)
    && (n > 0 ==>
          && 0 <= lowest < n && 0 <= next < n
          && next == Wrap(lowest + size, n)
          && limit == Wrap(next + pending, n)
          && (full <==> size == n))
  }

  /** The slot `i` places on from `start`, round the end of `n` slots. */
  function Slot(start: int, i: int, n: nat): (r: nat)
    requires 0 <= start < n && 0 <= i <= n
    ensures r < n
  {
    Wrap(start + i, n)
  }

  /** The entries `s` lie in `d` from slot `start` on, round the end. */
  ghost predicate StoredFrom<T>(d: seq<T>, start: int, s: seq<T>)
  {
    && |s| <= |d|
    && (s != [] ==> 0 <= start < |d|)
    && forall i {:trigger Slot(start, i, |d|)} :: 0 <= i < |s| ==> s[i] == d[Slot(start, i, |d|)]
  }

  /** Pop steps `next` back over the newest entry, which becomes the next to unpop. */
  lemma PopCursors(n: nat, lowest: int, next: int, limit: int, full: bool, size: nat, pending: nat)
    requires Cursors(n, lowest, next, limit, full, size, pending) && size > 0
    ensures n > 0 && Back(next, n) == Wrap(lowest + (size - 1), n)
    ensures Cursors(n, lowest, Back(next, n), limit, false, size - 1, pending + 1)
  {
  }

  /** The newest entry sits in the slot before `next`; the rest stay where they were. */
  lemma PopStored<T>(d: seq<T>, lowest: int, next: int, items: seq<T>, redo: seq<T>)
    requires StoredFrom(d, lowest, items) && StoredFrom(d, next, redo) && items != []
    requires |items| + |redo| <= |d| && 0 <= next < |d| && next == Wrap(lowest + |items|, |d|)
    ensures d[Back(next, |d|)] == items[|items| - 1]
    ensures StoredFrom(d, lowest, items[..|items| - 1])
    ensures StoredFrom(d, Back(next, |d|), [items[|items| - 1]] + redo)
  {
    var n, b, k := |d|, Back(next, |d|), |items| - 1;
    assert items[k] == d[Slot(lowest, k, n)] && b == Slot(lowest, k, n);
    var redo' := [items[k]] + redo;
    forall j | 0 <= j < |redo'|
      ensures redo'[j] == d[Slot(b, j, n)]
    {
      if j > 0 {
        assert redo'[j] == redo[j - 1] == d[Slot(next, j - 1, n)];
        assert Slot(b, j, n) == Slot(next, j - 1, n);
      }
    }
  }

  /** Unpop steps `next` forward over the next entry to unpop. */
  lemma UnpopCursors(n: nat, lowest: int, next: int, limit: int, full: bool, size: nat, pending: nat)
    requires Cursors(n, lowest, next, limit, full, size, pending) && pending > 0
    ensures n > 0 && !full && (Wrap(next + 1, n) == limit <==> pending == 1)
    ensures Cursors(n, lowest, Wrap(next + 1, n), limit, Wrap(next + 1, n) == lowest, size + 1, pending - 1)
  {
  }

  /** The next entry to unpop sits at `next` and joins the entries to pop. */
  lemma UnpopStored<T>(d: seq<T>, lowest: int, next: int, items: seq<T>, redo: seq<T>)
    requires StoredFrom(d, lowest, items) && StoredFrom(d, next, redo) && redo != []
    requires |items| + |redo| <= |d| && 0 <= lowest < |d| && next == Wrap(lowest + |items|, |d|)
    ensures d[next] == redo[0]
    ensures StoredFrom(d, lowest, items + [redo[0]])
    ensures StoredFrom(d, Wrap(next + 1, |d|), redo[1..])
  {
    var n, items' := |d|, items + [redo[0]];
    assert redo[0] == d[Slot(next, 0, n)];
    forall i | 0 <= i < |items'|
      ensures items'[i] == d[Slot(lowest, i, n)]
    {
      if i < |items| {
        assert items'[i] == items[i] == d[Slot(lowest, i, n)];
      }
    }
    var next' := Wrap(next + 1, n);
    forall j | 0 <= j < |redo| - 1
      ensures redo[1..][j] == d[Slot(next', j, n)]
    {
      assert redo[j + 1] == d[Slot(next, j + 1, n)];
      assert Slot(next', j, n) == Slot(next, j + 1, n);
    }
  }

  /**
   * Push advances `next`; a full buffer drags `lowest` along with it, and
   * `next` meeting `lowest` makes the buffer full.
   */
  lemma PushCursors(n: nat, lowest: int, next: int, limit: int, full: bool, size: nat, pending: nat)
    requires Cursors(n, lowest, next, limit, full, size, pending) && n > 0
    ensures var next' := Wrap(next + 1, n);
            Cursors(n, if full then next' else lowest, next', next', full || next' == lowest,
                    if size == n then n else size + 1, 0)
  {
  }

  /** The pushed entry lands at `next`, over the oldest entry when the buffer was full. */
  lemma PushStored<T>(d: seq<T>, lowest: int, next: int, items: seq<T>, item: T, full: bool)
    requires StoredFrom(d, lowest, items) && 0 <= lowest < |d| && 0 <= next < |d|
    requires next == Wrap(lowest + |items|, |d|) && (full <==> |items| == |d|)
    ensures StoredFrom(d[next := item], if full then Wrap(next + 1, |d|) else lowest, Newest(items + [item], |d|))
  {
    var n, d' := |d|, d[next := item];
    var items' := Newest(items + [item], n);
    if full {
      var lowest' := Wrap(next + 1, n);
      assert items' == items[1..] + [item];
      forall i | 0 <= i < |items'|
        ensures items'[i] == d'[Slot(lowest', i, n)]
      {
        assert Slot(lowest', i, n) == Slot(lowest, i + 1, n);
        if i < n - 1 {
          assert items'[i] == items[i + 1] == d[Slot(lowest, i + 1, n)];
        }
      }
    } else {
      assert items' == items + [item];
      forall i | 0 <= i < |items'|
        ensures items'[i] == d'[Slot(lowest, i, n)]
      {
        if i < |items| {
          assert items'[i] == items[i] == d[Slot(lowest, i, n)];
        }
      }
    }
  }

  class Buffer<T(0)> {
    const data: array<T>
    var lowestValidElement: int
    var nextSpace: int
    var limit: int
    var isFull: bool
    var canUnpop: bool

    /** The entries Pop returns, most recent last. */
    ghost var Items: seq<T>
    /** The entries Unpop returns, next first. */
    ghost var Redo: seq<T>

    /**
     * The cursors lie in the array; Items run from lowestValidElement up to
     * nextSpace and Redo from nextSpace up to limit, both round the end of
     * the array; isFull says Items fill it; canUnpop says Redo is not empty.
     */
    ghost predicate Valid()
      reads this, data
    {
      && Cursors(data.Length, lowestValidElement, nextSpace, limit, isFull, |Items|, |Redo|)
      && (canUnpop <==> Redo != [])
      && StoredFrom(data[..], lowestValidElement, Items)
      && StoredFrom(data[..], nextSpace, Redo)
    }

    /** NewBuffer: room for `size` entries, none stored. */
    constructor (size: nat)
      ensures Valid() && fresh(data) && data.Length == size
      ensures Items == [] && Redo == []
      ensures lowestValidElement == 0 && nextSpace == 0 && limit == 0 && !isFull && !canUnpop
    {
      data := new T[size];
      lowestValidElement, nextSpace, limit := 0, 0, 0;
      isFull, canUnpop := false, false;
      Items, Redo := [], [];
    }

    /** isEmpty: nothing to pop. */
    function IsEmpty(): (r: bool)
      reads this, data
      requires Valid()
      ensures r <==> Items == []
    {
      !(isFull || nextSpace != lowestValidElement)
    }

    /** Len: the number of entries Pop can still return. */
    function Len(): (r: int)
      reads this, data
      requires Valid()
      ensures r == |Items| && 0 <= r <= data.Length
    {
      if IsEmpty() then 0
      else if nextSpace <= lowestValidElement then data.Length - (lowestValidElement - nextSpace)
      else nextSpace - lowestValidElement
    }

    /** CanPop, as the party layer uses it: the buffer is not empty. */
    function CanPop(): (r: bool)
      reads this, data
      requires Valid()
      ensures r <==> Items != []
    {
      !IsEmpty()
    }

    /** CanUnpop, as the party layer uses it: the canUnpop flag. */
    function CanUnpop(): (r: bool)
      reads this, data
      requires Valid()
      ensures r <==> Redo != []
    {
      canUnpop
    }

    /**
     * Peek with the slot before nextSpace taken round the end of the array:
     * the entry Pop would return, or an error when there is none.
     */
    function Peek(): (r: Result<T, BufferError>)
      reads this, data
      requires Valid()
      ensures Items == [] ==> r == Failure(NoElements)
      ensures Items != [] ==> r == Success(Items[|Items| - 1])
    {
      if !IsEmpty() then
        PopCursors(data.Length, lowestValidElement, nextSpace, limit, isFull, |Items|, |Redo|);
        PopStored(data[..], lowestValidElement, nextSpace, Items, Redo);
        Success(data[Back(nextSpace, data.Length)])
      else Failure(NoElements)
    }

    /**
     * Peek as written reads data[nextSpace - 1], which is in the array only
     * while nextSpace is not 0 (the precondition below).
     */
    function PeekAsWritten(): (r: Result<T, BufferError>)
      reads this, data
      requires Valid()
      requires !IsEmpty() ==> nextSpace >= 1
      ensures Items == [] ==> r == Failure(NoElements)
      ensures Items != [] ==> r == Success(Items[|Items| - 1])
    {
      if !IsEmpty() then
        PopCursors(data.Length, lowestValidElement, nextSpace, limit, isFull, |Items|, |Redo|);
        PopStored(data[..], lowestValidElement, nextSpace, Items, Redo);
        Success(data[nextSpace - 1])
      else Failure(NoElements)
    }

    /**
     * incrementNextSpace: advance the cursor round the array; a full buffer
     * drags lowestValidElement along, and meeting it makes the buffer full.
     */
    method IncrementNextSpace()
      requires 0 <= nextSpace < data.Length
      modifies this`nextSpace, this`lowestValidElement, this`isFull
      ensures nextSpace == Wrap(old(nextSpace) + 1, data.Length)
      ensures lowestValidElement == if old(isFull) then nextSpace else old(lowestValidElement)
      ensures isFull == (old(isFull) || nextSpace == old(lowestValidElement))
    {
      var needToUpdateLowestValidElement := false;
      if isFull {
        needToUpdateLowestValidElement := true;
      }
      nextSpace := nextSpace + 1;
      if nextSpace >= data.Length {
        nextSpace := 0;
      }
      if needToUpdateLowestValidElement {
        lowestValidElement := nextSpace;
      }
      if nextSpace == lowestValidElement {
        isFull := true;
      }
    }

    /**
     * Push: store the item at nextSpace and advance, dropping the oldest
     * entry when the buffer was full; whatever could be unpopped is lost.
     */
    method Push(item: T)
      requires Valid() && data.Length > 0
      modifies this, data
      ensures Valid()
      ensures Items == Newest(old(Items) + [item], data.Length)
      ensures Redo == []
      ensures nextSpace == Wrap(old(nextSpace) + 1, data.Length) && limit == nextSpace && !canUnpop
      ensures lowestValidElement == if old(isFull) then nextSpace else old(lowestValidElement)
    {
      ghost var n, d, before, lowest, next, full := data.Length, data[..], Items, lowestValidElement, nextSpace, isFull;
      PushCursors(n, lowest, next, limit, full, |before|, |Redo|);
      data[nextSpace] := item;
      assert data[..] == d[next := item];
      PushStored(d, lowest, next, before, item, full);
      IncrementNextSpace();
      limit := nextSpace;
      canUnpop := false;
      Items, Redo := Newest(before + [item], n), [];
      assert |Items| == if |before| == n then n else |before| + 1;
    }

    /**
     * Pop: step the cursor back round the array and return the entry there,
     * which Unpop can then bring back; an error, and no change, when empty.
     */
    method Pop() returns (r: Result<T, BufferError>)
      requires Valid()
      modifies this
      ensures Valid()
      ensures old(Items) == [] ==> r == Failure(NoElements) && unchanged(this)
      ensures old(Items) != [] ==>
                var last := old(Items)[|old(Items)| - 1];
                && r == Success(last)
                && Items == old(Items)[..|old(Items)| - 1] && old(Items) == Items + [last]
                && Redo == [last] + old(Redo)
                && nextSpace == Back(old(nextSpace), data.Length)
                && lowestValidElement == old(lowestValidElement) && limit == old(limit)
                && !isFull && canUnpop
    {
      if !IsEmpty() {
        ghost var n, d, items, redo := data.Length, data[..], Items, Redo;
        PopCursors(n, lowestValidElement, nextSpace, limit, isFull, |items|, |redo|);
        PopStored(d, lowestValidElement, nextSpace, items, redo);
        DropLast(items);
        ghost var back := Back(nextSpace, n);
        nextSpace := nextSpace - 1;
        if nextSpace < 0 {
          nextSpace := data.Length - 1;
        }
        assert nextSpace == back;
        isFull := false;
        canUnpop := true;
        Items, Redo := items[..|items| - 1], [items[|items| - 1]] + redo;
        assert |Items| == |items| - 1 && |Redo| == |redo| + 1 && data[..] == d;
        return Success(data[nextSpace]);
      }
      return Failure(NoElements);
    }

    /**
     * Unpop: return the entry at nextSpace and advance over it, until the
     * cursor reaches limit; an error, and no change, when there is none.
     */
    method Unpop() returns (r: Result<T, BufferError>)
      requires Valid()
      modifies this
      ensures Valid()
      ensures old(Redo) == [] ==> r == Failure(NoValidElementsRemaining) && unchanged(this)
      ensures old(Redo) != [] ==>
                && r == Success(old(Redo)[0])
                && Items == old(Items) + [old(Redo)[0]]
                && Redo == old(Redo)[1..]
                && nextSpace == Wrap(old(nextSpace) + 1, data.Length)
                && lowestValidElement == old(lowestValidElement) && limit == old(limit)
    {
      if canUnpop {
        ghost var n, d, items, redo := data.Length, data[..], Items, Redo;
        UnpopCursors(n, lowestValidElement, nextSpace, limit, isFull, |items|, |redo|);
        UnpopStored(d, lowestValidElement, nextSpace, items, redo);
        var indexOfElement := nextSpace;
        IncrementNextSpace();
        if limit == nextSpace {
          canUnpop := false;
        }
        Items, Redo := items + [redo[0]], redo[1..];
        assert |Items| == |items| + 1 && |Redo| == |redo| - 1 && data[..] == d;
        return Success(data[indexOfElement]);
      }
      return Failure(NoValidElementsRemaining);
    }
  }

  // ---------------------------------------------------------------------
  // Runs of operations

  /** Pushing a run of items keeps the newest of everything pushed, as many as fit. */
  method PushAll<T(0)>(b: Buffer<T>, xs: seq<T>)
    requires b.Valid() && b.data.Length > 0 && xs != []
    modifies b, b.data
    ensures b.Valid()
    ensures b.Items == Newest(old(b.Items) + xs, b.data.Length) && b.Redo == []
  {
    NewestStart(old(b.Items), xs, b.data.Length);
    for i := 0 to |xs|
      invariant b.Valid()
      invariant b.Items == Newest(old(b.Items) + xs[..i], b.data.Length)
      invariant i > 0 ==> b.Redo == []
    {
      b.Push(xs[i]);
      NewestStep(old(b.Items), xs, i, b.data.Length);
    }
    assert xs[..|xs|] == xs;
  }

  /** Before any push, the newest entries are all of them. */
  lemma NewestStart<T>(s: seq<T>, xs: seq<T>, n: nat)
    requires |s| <= n
    ensures Newest(s + xs[..0], n) == s
  {
    assert s + xs[..0] == s;
  }

  /** One more push of a run. */
  lemma NewestStep<T>(s: seq<T>, xs: seq<T>, i: nat, n: nat)
    requires i < |xs| && n >= 1
    ensures Newest(Newest(s + xs[..i], n) + [xs[i]], n) == Newest(s + xs[..i + 1], n)
  {
    NewestSnoc(s + xs[..i], xs[i], n);
    assert s + xs[..i] + [xs[i]] == s + xs[..i + 1];
  }

  /**
   * Popping until the first error returns the entries newest first, as
   * many as Len said, and leaves them all to be unpopped.
   */
  method PopAll<T(0)>(b: Buffer<T>) returns (popped: seq<T>, lengths: seq<int>)
    requires b.Valid()
    modifies b
    ensures b.Valid()
    ensures popped == Reversed(old(b.Items)) && |popped| == old(b.Len())
    ensures b.Items == [] && b.Redo == old(b.Items) + old(b.Redo)
    ensures |lengths| == |popped| && forall k :: 0 <= k < |lengths| ==> lengths[k] == old(b.Len()) - 1 - k
  {
    popped, lengths := [], [];
    while true
      invariant b.Valid()
      invariant old(b.Items) == b.Items + Reversed(popped)
      invariant b.Redo == Reversed(popped) + old(b.Redo)
      invariant |lengths| == |popped| && forall k :: 0 <= k < |lengths| ==> lengths[k] == |old(b.Items)| - 1 - k
      decreases |b.Items|
    {
      var r := b.Pop();
      if r.Failure? {
        assert [] + Reversed(popped) == Reversed(popped);
        ReversedTwice(popped);
        return;
      }
      ReversedSnoc(popped, r.value);
      AppendAssoc(b.Items, [r.value], Reversed(popped));
      AppendAssoc([r.value], Reversed(popped), old(b.Redo));
      popped := popped + [r.value];
      var n := b.Len();
      lengths := lengths + [n];
    }
  }

  /** Unpopping until the first error replays every popped entry, oldest first. */
  method UnpopAll<T(0)>(b: Buffer<T>) returns (replayed: seq<T>)
    requires b.Valid()
    modifies b
    ensures b.Valid()
    ensures replayed == old(b.Redo)
    ensures b.Items == old(b.Items) + old(b.Redo) && b.Redo == []
  {
    replayed := [];
    while true
      invariant b.Valid()
      invariant old(b.Redo) == replayed + b.Redo
      invariant b.Items == old(b.Items) + replayed
      decreases |b.Redo|
    {
      ghost var redo, items := b.Redo, b.Items;
      var r := b.Unpop();
      if r.Failure? {
        assert replayed + redo == replayed;
        return;
      }
      AppendAssoc(replayed, [r.value], b.Redo);
      assert redo == [r.value] + b.Redo;
      AppendAssoc(old(b.Items), replayed, [r.value]);
      replayed := replayed + [r.value];
    }
  }
}
