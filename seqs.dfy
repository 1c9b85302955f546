/** Sequence helpers shared by the dice engine and the party. */
module Seqs {

  /** The elements of `s` from last to first. */
  function Reversed<T>(s: seq<T>): (r: seq<T>)
    ensures |r| == |s|
  {
    if s == [] then [] else Reversed(s[1..]) + [s[0]]
  }

  /** Element `k` of the reversal is element `|s| - 1 - k` of the original. */
  lemma {:induction false} ReversedAt<T>(s: seq<T>, k: nat)
    requires k < |s|
    ensures Reversed(s)[k] == s[|s| - 1 - k]
  {
    if k < |s| - 1 {
      ReversedAt(s[1..], k);
    }
  }

  /** Reversing after one more element puts it first. */
  lemma {:induction false} ReversedSnoc<T>(s: seq<T>, x: T)
    ensures Reversed(s + [x]) == [x] + Reversed(s)
    decreases |s|
  {
    if s == [] {
      assert s + [x] == [x];
    } else {
      assert (s + [x])[0] == s[0] && (s + [x])[1..] == s[1..] + [x];
      ReversedSnoc(s[1..], x);
    }
  }

  /** Reversing twice gives the sequence back. */
  lemma {:induction false} ReversedTwice<T>(s: seq<T>)
    ensures Reversed(Reversed(s)) == s
    decreases |s|
  {
    if s != [] {
      ReversedSnoc(Reversed(s[1..]), s[0]);
      ReversedTwice(s[1..]);
      assert [s[0]] + s[1..] == s;
    }
  }

  /** Reversing yields every element exactly once: the same multiset. */
  lemma {:induction false} ReversedPermutes<T>(s: seq<T>)
    ensures multiset(Reversed(s)) == multiset(s)
  {
    if s != [] {
      ReversedPermutes(s[1..]);
      assert s == [s[0]] + s[1..];
    }
  }

  /** The parts joined with `sep` between consecutive parts (strings.Join). */
  function Join(parts: seq<string>, sep: string): string
  {
    if parts == [] then ""
    else if |parts| == 1 then parts[0]
    else parts[0] + sep + Join(parts[1..], sep)
  }

  /** Concatenation regroups freely. */
  lemma AppendAssoc<T>(a: seq<T>, b: seq<T>, c: seq<T>)
    ensures a + (b + c) == (a + b) + c
  {
  }

  /** A non-empty sequence is its front followed by its last element. */
  lemma DropLast<T>(s: seq<T>)
    requires s != []
    ensures s == s[..|s| - 1] + [s[|s| - 1]]
  {
  }

  /** A longer prefix is the shorter one and the next element. */
  lemma TakeSnoc<T>(s: seq<T>, k: nat)
    requires k < |s|
    ensures s[..k + 1] == s[..k] + [s[k]]
  {
  }

  /** Sum of a sequence of naturals. */
  function Sum(s: seq<nat>): nat
  {
    if s == [] then 0 else Sum(s[..|s| - 1]) + s[|s| - 1]
  }

  /** One more element adds itself to the sum. */
  lemma SumSnoc(s: seq<nat>, x: nat)
    ensures Sum(s + [x]) == Sum(s) + x
  {
    assert (s + [x])[..|s|] == s;
  }

  /** Sum of all elements of all rows. */
  function Total(rows: seq<seq<nat>>): nat
  {
    if rows == [] then 0 else Total(rows[..|rows| - 1]) + Sum(rows[|rows| - 1])
  }

  /** One more row adds its sum to the total. */
  lemma TotalSnoc(rows: seq<seq<nat>>, row: seq<nat>)
    ensures Total(rows + [row]) == Total(rows) + Sum(row)
  {
    assert (rows + [row])[..|rows|] == rows;
  }

  /** All rows laid end to end. */
  function Flatten<T>(rows: seq<seq<T>>): seq<T>
  {
    if rows == [] then [] else Flatten(rows[..|rows| - 1]) + rows[|rows| - 1]
  }

  lemma {:induction false} SumAppend(a: seq<nat>, b: seq<nat>)
    ensures Sum(a + b) == Sum(a) + Sum(b)
    decreases |b|
  {
    if b == [] {
      assert a + b == a;
    } else {
      assert (a + b)[..|a + b| - 1] == a + b[..|b| - 1];
      SumAppend(a, b[..|b| - 1]);
    }
  }

  /** The total of the rows is the sum of the rows laid end to end. */
  lemma {:induction false} TotalFlatten(rows: seq<seq<nat>>)
    ensures Total(rows) == Sum(Flatten(rows))
  {
    if rows != [] {
      TotalFlatten(rows[..|rows| - 1]);
      SumAppend(Flatten(rows[..|rows| - 1]), rows[|rows| - 1]);
    }
  }

  /** Joining two non-empty runs of parts is joining each and putting `sep` between. */
  lemma {:induction false} JoinAppend(p: seq<string>, q: seq<string>, sep: string)
    requires p != [] && q != []
    ensures Join(p + q, sep) == Join(p, sep) + sep + Join(q, sep)
  {
    if |p| == 1 {
      assert (p + q)[0] == p[0] && (p + q)[1..] == q;
    } else {
      assert (p + q)[0] == p[0] && (p + q)[1..] == p[1..] + q;
      JoinAppend(p[1..], q, sep);
    }
  }

  /** The elements from last to first, one at a time, as a goroutine sends them down a channel. */
  method YieldReversed<T>(s: seq<T>) returns (out: seq<T>)
    ensures |out| == |s| && forall i :: 0 <= i < |s| ==> out[i] == s[|s| - 1 - i]
    ensures multiset(out) == multiset(s)
  {
    out := [];
    for i := 0 to |s|
      invariant |out| == i && forall j :: 0 <= j < i ==> out[j] == s[|s| - 1 - j]
    {
      out := out + [s[|s| - 1 - i]];
    }
    forall k | 0 <= k < |s| ensures out[k] == Reversed(s)[k] {
      ReversedAt(s, k);
    }
    assert out == Reversed(s);
    ReversedPermutes(s);
  }
}
