/**
 * FaceCountMap from dice/roll.go: dice of one sign grouped by their
 * number of faces, with the exact bounds of their sum and the simulation
 * that draws every die.
 */
module FaceCounts {
  import opened Seqs
  import opened Decimal

  /** Counts[f] dice with f faces; Faces lists each face value once, in first-seen order. */
  datatype FaceCountMap = FaceCountMap(Counts: map<nat, nat>, Faces: seq<nat>)

  /** createFaceCountMap: no dice. */
  const Empty := FaceCountMap(map[], [])

  /** Go's map read: a missing face has count 0. */
  function Get(m: FaceCountMap, face: nat): nat
  {
    if face in m.Counts then m.Counts[face] else 0
  }

  /** No face value appears twice. */
  predicate Distinct(s: seq<nat>) {
    forall x | x in multiset(s) :: multiset(s)[x] <= 1
  }

  /** The shape every FaceCountMap built by the parser has. */
  predicate WellFormed(m: FaceCountMap) {
    && Distinct(m.Faces)
    && (forall f :: f in m.Counts ==> f in m.Faces)
    && (forall f :: f in m.Faces ==> f in m.Counts)
    && (forall f :: f in m.Counts ==> m.Counts[f] > 0)
  }

  /** add: raise the count of `faces` by `count`, recording `faces` the first time it is seen. */
  function Add(m: FaceCountMap, count: nat, faces: nat): (r: FaceCountMap)
    ensures Get(r, faces) == Get(m, faces) + count
    ensures forall f :: f != faces ==> Get(r, f) == Get(m, f)
    ensures r.Counts.Keys == m.Counts.Keys + {faces}
    ensures Get(m, faces) == 0 ==> r.Faces == m.Faces + [faces]
    ensures Get(m, faces) != 0 ==> r.Faces == m.Faces
  {
    FaceCountMap(m.Counts[faces := Get(m, faces) + count],
                 if Get(m, faces) == 0 then m.Faces + [faces] else m.Faces)
  }

  /** With a positive count, Faces stays duplicate-free and lists exactly the faces with a count. */
  lemma AddPreservesWellFormed(m: FaceCountMap, count: nat, faces: nat)
    requires WellFormed(m) && count > 0
    ensures WellFormed(Add(m, count, faces))
  {
    var r := Add(m, count, faces);
    if faces !in m.Faces {
      assert multiset(m.Faces)[faces] == 0;
      assert multiset(r.Faces) == multiset(m.Faces) + multiset{faces};
    }
  }

  /** `d6 + d6` aggregates to one group of two six-sided dice. */
  lemma AddMerges()
    ensures Add(Add(Empty, 1, 6), 1, 6) == FaceCountMap(map[6 := 2], [6])
  {
  }

  /** isEmpty */
  predicate IsEmpty(m: FaceCountMap) {
    |m.Faces| == 0
  }

  /** The map as it stands after adding its first `k` groups, in Faces order. */
  function Prefix(m: FaceCountMap, k: nat): FaceCountMap
    requires k <= |m.Faces|
  {
    FaceCountMap(map f | f in m.Faces[..k] :: Get(m, f), m.Faces[..k])
  }

  /** In a duplicate-free list, no element appears before its own position. */
  lemma DistinctFresh(s: seq<nat>, k: nat)
    requires Distinct(s) && k < |s|
    ensures s[k] !in s[..k]
  {
    assert s == s[..k] + [s[k]] + s[k + 1..];
    assert multiset(s) == multiset(s[..k]) + multiset{s[k]} + multiset(s[k + 1..]);
    assert s[k] in multiset(s);
  }

  /** Adding the groups of a well-formed map one by one, in Faces order, rebuilds it. */
  lemma PrefixStep(m: FaceCountMap, k: nat)
    requires WellFormed(m) && k < |m.Faces|
    ensures Get(m, m.Faces[k]) > 0
    ensures Add(Prefix(m, k), Get(m, m.Faces[k]), m.Faces[k]) == Prefix(m, k + 1)
  {
    var f := m.Faces[k];
    DistinctFresh(m.Faces, k);
    TakeSnoc(m.Faces, k);
    assert Get(Prefix(m, k), f) == 0;
    var r := Add(Prefix(m, k), Get(m, f), f);
    assert r.Counts.Keys == Prefix(m, k + 1).Counts.Keys;
  }

  lemma PrefixEnds(m: FaceCountMap)
    requires WellFormed(m)
    ensures Prefix(m, 0) == Empty
    ensures Prefix(m, |m.Faces|) == m
  {
    assert m.Faces[..|m.Faces|] == m.Faces;
    assert Prefix(m, |m.Faces|).Counts.Keys == m.Counts.Keys;
  }

  // ---------------------------------------------------------------------
  // Bounds: Min is the number of dice, Max the sum of face × count.

  function Weight(counts: map<nat, nat>, face: nat, weighted: bool): nat
    requires face in counts
  {
    if weighted then face * counts[face] else counts[face]
  }

  /** The sum of the weights of `keys`, taken in any order (Go ranges over a map). */
  ghost function SumOver(keys: set<nat>, counts: map<nat, nat>, weighted: bool): int
    requires keys <= counts.Keys
    decreases keys
  {
    if keys == {} then 0
    else
      var k :| k in keys;
      Weight(counts, k, weighted) + SumOver(keys - {k}, counts, weighted)
  }

  /** Any key can be taken out first: the sum does not depend on the iteration order. */
  lemma {:induction false} SumOverRemove(keys: set<nat>, counts: map<nat, nat>, weighted: bool, x: nat)
    requires keys <= counts.Keys && x in keys
    ensures SumOver(keys, counts, weighted) == Weight(counts, x, weighted) + SumOver(keys - {x}, counts, weighted)
    decreases keys
  {
    var y :| y in keys && SumOver(keys, counts, weighted)
                          == Weight(counts, y, weighted) + SumOver(keys - {y}, counts, weighted);
    if y != x {
      SumOverRemove(keys - {y}, counts, weighted, x);
      SumOverRemove(keys - {x}, counts, weighted, y);
      assert keys - {y} - {x} == keys - {x} - {y};
    }
  }

  /** The sum only reads the counts of its keys. */
  lemma {:induction false} SumOverAgree(keys: set<nat>, c1: map<nat, nat>, c2: map<nat, nat>, weighted: bool)
    requires keys <= c1.Keys && keys <= c2.Keys
    requires forall k :: k in keys ==> c1[k] == c2[k]
    ensures SumOver(keys, c1, weighted) == SumOver(keys, c2, weighted)
    decreases keys
  {
    if keys != {} {
      var k :| k in keys;
      SumOverRemove(keys, c1, weighted, k);
      SumOverRemove(keys, c2, weighted, k);
      SumOverAgree(keys - {k}, c1, c2, weighted);
    }
  }

  /** The least total of the dice: every die shows 1. */
  ghost function MinOf(m: FaceCountMap): int
  {
    SumOver(m.Counts.Keys, m.Counts, false)
  }

  /** The greatest total of the dice: every die shows its face count. */
  ghost function MaxOf(m: FaceCountMap): int
  {
    SumOver(m.Counts.Keys, m.Counts, true)
  }

  /** FaceCountMap.Min: the sum of the counts, accumulated over the map. */
  method Min(m: FaceCountMap) returns (min: int)
    ensures min == MinOf(m)
  {
    min := 0;
    var remaining := m.Counts.Keys;
    while remaining != {}
      invariant remaining <= m.Counts.Keys
      invariant min + SumOver(remaining, m.Counts, false) == MinOf(m)
      decreases remaining
    {
      var face :| face in remaining;
      SumOverRemove(remaining, m.Counts, false, face);
      min := min + m.Counts[face];
      remaining := remaining - {face};
    }
  }

  /** FaceCountMap.Max: the sum of face × count, accumulated over the map. */
  method Max(m: FaceCountMap) returns (max: int)
    ensures max == MaxOf(m)
  {
    max := 0;
    var remaining := m.Counts.Keys;
    while remaining != {}
      invariant remaining <= m.Counts.Keys
      invariant max + SumOver(remaining, m.Counts, true) == MaxOf(m)
      decreases remaining
    {
      var face :| face in remaining;
      SumOverRemove(remaining, m.Counts, true, face);
      max := max + face * m.Counts[face];
      remaining := remaining - {face};
    }
  }

  lemma Distribute(a: nat, b: nat, c: nat)
    ensures a * (b + c) == a * b + a * c
  {
  }

  /** Adding `count` dice of `faces` faces raises the bound by their weight. */
  lemma AddBound(m: FaceCountMap, count: nat, faces: nat, weighted: bool)
    ensures SumOver(Add(m, count, faces).Counts.Keys, Add(m, count, faces).Counts, weighted)
         == SumOver(m.Counts.Keys, m.Counts, weighted) + (if weighted then faces * count else count)
  {
    var r := Add(m, count, faces);
    var rest := m.Counts.Keys - {faces};
    var extra := if weighted then faces * count else count;
    var before := if faces in m.Counts then Weight(m.Counts, faces, weighted) else 0;
    assert Weight(r.Counts, faces, weighted) == before + extra by {
      Distribute(faces, Get(m, faces), count);
    }
    assert SumOver(r.Counts.Keys, r.Counts, weighted) == Weight(r.Counts, faces, weighted) + SumOver(rest, m.Counts, weighted) by {
      assert r.Counts.Keys - {faces} == rest;
      SumOverRemove(r.Counts.Keys, r.Counts, weighted, faces);
      SumOverAgree(rest, r.Counts, m.Counts, weighted);
    }
    assert SumOver(m.Counts.Keys, m.Counts, weighted) == before + SumOver(rest, m.Counts, weighted) by {
      if faces in m.Counts {
        SumOverRemove(m.Counts.Keys, m.Counts, weighted, faces);
      } else {
        assert rest == m.Counts.Keys;
      }
    }
  }

  /** Adding `count` dice of `faces` faces raises Min by `count` and Max by `faces * count`. */
  lemma AddBounds(m: FaceCountMap, count: nat, faces: nat)
    ensures MinOf(Add(m, count, faces)) == MinOf(m) + count
    ensures MaxOf(Add(m, count, faces)) == MaxOf(m) + faces * count
  {
    AddBound(m, count, faces, false);
    AddBound(m, count, faces, true);
  }

  lemma ScaleUp(k: nat, c: nat)
    requires k >= 1
    ensures c <= k * c
  {
    assert k * c == c + (k - 1) * c;
  }

  /** With every face at least 1, the least total never exceeds the greatest. */
  lemma {:induction false} SumOverOrdered(keys: set<nat>, counts: map<nat, nat>)
    requires keys <= counts.Keys
    requires forall f :: f in keys ==> f >= 1
    ensures SumOver(keys, counts, false) <= SumOver(keys, counts, true)
    decreases keys
  {
    if keys != {} {
      var k: nat :| k in keys;
      var rest := keys - {k};
      assert SumOver(keys, counts, false) == counts[k] + SumOver(rest, counts, false) by {
        SumOverRemove(keys, counts, false, k);
      }
      assert SumOver(keys, counts, true) == k * counts[k] + SumOver(rest, counts, true) by {
        SumOverRemove(keys, counts, true, k);
      }
      SumOverOrdered(rest, counts);
      ScaleUp(k, counts[k]);
    }
  }

  lemma MinLeMax(m: FaceCountMap)
    requires forall f :: f in m.Counts ==> f >= 1
    ensures MinOf(m) <= MaxOf(m)
  {
    SumOverOrdered(m.Counts.Keys, m.Counts);
  }

  /** Both bounds are never negative. */
  lemma {:induction false} SumOverNonNegative(keys: set<nat>, counts: map<nat, nat>, weighted: bool)
    requires keys <= counts.Keys
    ensures SumOver(keys, counts, weighted) >= 0
    decreases keys
  {
    if keys != {} {
      var k :| k in keys;
      SumOverRemove(keys, counts, weighted, k);
      SumOverNonNegative(keys - {k}, counts, weighted);
    }
  }

  // ---------------------------------------------------------------------
  // Sums along a sequence of faces

  /** The weight of one face: its count, or for Max its face × count. */
  function Weigh(m: FaceCountMap, f: nat, weighted: bool): nat
  {
    if weighted then f * Get(m, f) else Get(m, f)
  }

  /** The weight of the listed faces, read through Get. */
  function FaceSum(faces: seq<nat>, m: FaceCountMap, weighted: bool): nat
  {
    if faces == [] then 0
    else FaceSum(faces[..|faces| - 1], m, weighted) + Weigh(m, faces[|faces| - 1], weighted)
  }

  /** Dropping the last element keeps a list duplicate-free, and that element is not left behind. */
  lemma DistinctInit(faces: seq<nat>)
    requires Distinct(faces) && faces != []
    ensures Distinct(faces[..|faces| - 1])
    ensures faces[|faces| - 1] !in faces[..|faces| - 1]
  {
    var init, last := faces[..|faces| - 1], faces[|faces| - 1];
    assert faces == init + [last];
    assert multiset(faces) == multiset(init) + multiset{last};
    assert last in multiset(faces);
    assert last !in init by {
      assert multiset(init)[last] == 0;
    }
    forall x | x in multiset(init) ensures multiset(init)[x] <= 1 {
      assert x in multiset(faces);
    }
  }

  /** Summing along a duplicate-free list of keys is summing over its set. */
  lemma {:induction false} FaceSumIsSumOver(faces: seq<nat>, keys: set<nat>, m: FaceCountMap, weighted: bool)
    requires Distinct(faces)
    requires keys <= m.Counts.Keys
    requires forall f :: f in faces <==> f in keys
    ensures FaceSum(faces, m, weighted) == SumOver(keys, m.Counts, weighted)
    decreases |faces|
  {
    if faces == [] {
      assert keys == {};
    } else {
      var init, last := faces[..|faces| - 1], faces[|faces| - 1];
      DistinctInit(faces);
      forall f ensures f in init <==> f in keys - {last} {
        assert faces == init + [last];
        assert f in faces <==> f in init || f == last;
      }
      FaceSumIsSumOver(init, keys - {last}, m, weighted);
      SumOverRemove(keys, m.Counts, weighted, last);
      assert Weight(m.Counts, last, weighted) == Weigh(m, last, weighted);
    }
  }

  /** For a well-formed map, Min and Max are the sums along Faces. */
  lemma BoundsAlongFaces(m: FaceCountMap)
    requires WellFormed(m)
    ensures MinOf(m) == FaceSum(m.Faces, m, false)
    ensures MaxOf(m) == FaceSum(m.Faces, m, true)
  {
    FaceSumIsSumOver(m.Faces, m.Counts.Keys, m, false);
    FaceSumIsSumOver(m.Faces, m.Counts.Keys, m, true);
  }

  /** Taking one element out of the list takes its weight out of the sum. */
  lemma {:induction false} FaceSumRemoveAt(s: seq<nat>, j: nat, m: FaceCountMap, weighted: bool)
    requires j < |s|
    ensures FaceSum(s, m, weighted) == FaceSum(s[..j] + s[j + 1..], m, weighted) + Weigh(m, s[j], weighted)
    decreases |s|
  {
    var init := s[..|s| - 1];
    if j == |s| - 1 {
      assert s[..j] + s[j + 1..] == init;
    } else {
      FaceSumRemoveAt(init, j, m, weighted);
      var shorter := s[..j] + s[j + 1..];
      assert shorter == (init[..j] + init[j + 1..]) + [s[|s| - 1]];
      assert shorter[..|shorter| - 1] == init[..j] + init[j + 1..];
    }
  }

  /** The sum along a list does not depend on the order of the list. */
  lemma {:induction false} FaceSumPermutation(a: seq<nat>, b: seq<nat>, m: FaceCountMap, weighted: bool)
    requires multiset(a) == multiset(b)
    ensures FaceSum(a, m, weighted) == FaceSum(b, m, weighted)
    decreases |a|
  {
    if a == [] {
      assert |b| == |multiset(b)| == 0;
    } else {
      var init, last := a[..|a| - 1], a[|a| - 1];
      assert a == init + [last];
      var j := IndexOf(b, last);
      var rest := b[..j] + b[j + 1..];
      assert b == b[..j] + [b[j]] + b[j + 1..];
      assert multiset(b) == multiset(rest) + multiset{last};
      assert multiset(a) == multiset(init) + multiset{last};
      assert multiset(init) == multiset(a) - multiset{last};
      assert multiset(rest) == multiset(b) - multiset{last};
      FaceSumPermutation(init, rest, m, weighted);
      FaceSumRemoveAt(b, j, m, weighted);
    }
  }

  /** A position holding `x`, which the multiset of `s` says is there. */
  lemma IndexOf(s: seq<nat>, x: nat) returns (j: nat)
    requires x in multiset(s)
    ensures j < |s| && s[j] == x
  {
    assert x in s;
    j :| 0 <= j < |s| && s[j] == x;
  }

  /** A prefix of the list weighs no more than the list. */
  lemma {:induction false} FaceSumPrefix(s: seq<nat>, i: nat, m: FaceCountMap, weighted: bool)
    requires i <= |s|
    ensures FaceSum(s[..i], m, weighted) <= FaceSum(s, m, weighted)
    decreases |s| - i
  {
    if i < |s| {
      FaceSumPrefix(s, i + 1, m, weighted);
      assert s[..i + 1][..i] == s[..i];
    } else {
      assert s[..i] == s;
    }
  }

  // ---------------------------------------------------------------------
  // Canonical order: faces sorted descending

  predicate Descending(s: seq<nat>) {
    forall i, j :: 0 <= i < j < |s| ==> s[i] >= s[j]
  }

  function Insert(x: nat, s: seq<nat>): (r: seq<nat>)
    requires Descending(s)
    ensures Descending(r)
    ensures |r| == |s| + 1
    ensures r[0] == x || (s != [] && r[0] == s[0])
  {
    if s == [] then [x]
    else if x >= s[0] then [x] + s
    else
      var rest := Insert(x, s[1..]);
      assert s[0] >= rest[0];
      [s[0]] + rest
  }

  /** Insert adds exactly one element. */
  lemma {:induction false} InsertPermutes(x: nat, s: seq<nat>)
    requires Descending(s)
    ensures multiset(Insert(x, s)) == multiset(s) + multiset{x}
  {
    if s != [] && x < s[0] {
      InsertPermutes(x, s[1..]);
      assert s == [s[0]] + s[1..];
    }
  }

  /** The faces in descending order (sort.Slice with `>`), as a permutation of the input. */
  function SortDescending(s: seq<nat>): (r: seq<nat>)
    ensures Descending(r)
    ensures multiset(r) == multiset(s)
  {
    if s == [] then []
    else
      assert s == [s[0]] + s[1..];
      InsertPermutes(s[0], SortDescending(s[1..]));
      Insert(s[0], SortDescending(s[1..]))
  }

  /**
   * There is only one descending arrangement of a multiset, so any sort
   * (sort.Slice is not stable) yields the same order as SortDescending.
   */
  lemma {:induction false} DescendingUnique(a: seq<nat>, b: seq<nat>)
    requires Descending(a) && Descending(b)
    requires multiset(a) == multiset(b)
    ensures a == b
    decreases |a|
  {
    if a == [] {
      assert |b| == |multiset(b)| == 0;
    } else {
      assert |b| == |multiset(b)| == |a|;
      DescendingHeads(a, b);
      MultisetTail(a);
      MultisetTail(b);
      DescendingUnique(a[1..], b[1..]);
      assert a == [a[0]] + a[1..] && b == [b[0]] + b[1..];
    }
  }

  lemma MultisetTail(a: seq<nat>)
    requires a != []
    ensures multiset(a[1..]) == multiset(a) - multiset{a[0]}
  {
    assert a == [a[0]] + a[1..];
  }

  /** The largest element comes first in both arrangements. */
  lemma DescendingHeads(a: seq<nat>, b: seq<nat>)
    requires Descending(a) && Descending(b)
    requires multiset(a) == multiset(b) && a != [] && b != []
    ensures a[0] == b[0]
  {
    var i := IndexOf(b, a[0]);
    var j := IndexOf(a, b[0]);
    assert j == 0 || a[0] >= a[j];
    assert i == 0 || b[0] >= b[i];
  }

  /** sortFacesDescending: the same counts, faces in canonical order. */
  function SortFacesDescending(m: FaceCountMap): (r: FaceCountMap)
    ensures r.Counts == m.Counts
    ensures Descending(r.Faces) && multiset(r.Faces) == multiset(m.Faces)
  {
    m.(Faces := SortDescending(m.Faces))
  }

  /** Sorting keeps a map well formed and leaves its bounds unchanged. */
  lemma SortPreservesWellFormed(m: FaceCountMap)
    requires WellFormed(m)
    ensures WellFormed(SortFacesDescending(m))
    ensures MinOf(SortFacesDescending(m)) == MinOf(m) && MaxOf(SortFacesDescending(m)) == MaxOf(m)
  {
    var r := SortFacesDescending(m);
    forall f ensures f in r.Faces <==> f in m.Faces {
      assert f in r.Faces <==> f in multiset(r.Faces);
      assert f in m.Faces <==> f in multiset(m.Faces);
    }
  }

  // ---------------------------------------------------------------------
  // Simulation: rand.Intn(n) is the next value of `stream` taken modulo n.

  /** One die of `face` faces, drawn from position `k` of the stream. */
  function Draw(stream: seq<nat>, k: nat, face: nat): nat
    requires k < |stream| && face >= 1
  {
    1 + stream[k] % face
  }

  /** `count` dice of `face` faces drawn from positions k, k+1, ... */
  function Row(stream: seq<nat>, k: nat, face: nat, count: nat): seq<nat>
    requires k + count <= |stream|
    requires count > 0 ==> face >= 1
  {
    if count == 0 then [] else Row(stream, k, face, count - 1) + [Draw(stream, k + count - 1, face)]
  }

  /** Every face that is to be rolled at least once can be rolled (Intn panics on 0). */
  predicate Drawable(faces: seq<nat>, m: FaceCountMap) {
    forall f :: f in faces && Get(m, f) > 0 ==> f >= 1
  }

  /** The draws for each listed face in turn, each face's dice drawn consecutively. */
  function Rows(faces: seq<nat>, m: FaceCountMap, stream: seq<nat>, k: nat): seq<seq<nat>>
    requires Drawable(faces, m)
    requires k + FaceSum(faces, m, false) <= |stream|
  {
    if faces == [] then []
    else
      var init, f := faces[..|faces| - 1], faces[|faces| - 1];
      Rows(init, m, stream, k) + [Row(stream, k + FaceSum(init, m, false), f, Get(m, f))]
  }

  /** `count` draws, each in [1, face]. */
  lemma {:induction false} RowRange(stream: seq<nat>, k: nat, face: nat, count: nat)
    requires k + count <= |stream|
    requires count > 0 ==> face >= 1
    ensures |Row(stream, k, face, count)| == count
    ensures forall j :: 0 <= j < count ==> 1 <= Row(stream, k, face, count)[j] <= face
  {
    if count > 0 {
      RowRange(stream, k, face, count - 1);
      assert Row(stream, k, face, count) == Row(stream, k, face, count - 1) + [Draw(stream, k + count - 1, face)];
    }
  }

  /** `count` draws total between count and face × count. */
  lemma {:induction false} RowSum(stream: seq<nat>, k: nat, face: nat, count: nat)
    requires k + count <= |stream|
    requires count > 0 ==> face >= 1
    ensures count <= Sum(Row(stream, k, face, count)) <= face * count
  {
    if count > 0 {
      var prev, d := Row(stream, k, face, count - 1), Draw(stream, k + count - 1, face);
      RowSum(stream, k, face, count - 1);
      SumSnoc(prev, d);
      Distribute(face, count - 1, 1);
    }
  }

  /** `count` draws, each in [1, face], totalling between count and face × count. */
  lemma RowBounds(stream: seq<nat>, k: nat, face: nat, count: nat)
    requires k + count <= |stream|
    requires count > 0 ==> face >= 1
    ensures |Row(stream, k, face, count)| == count
    ensures forall j :: 0 <= j < count ==> 1 <= Row(stream, k, face, count)[j] <= face
    ensures count <= Sum(Row(stream, k, face, count)) <= face * count
  {
    RowRange(stream, k, face, count);
    RowSum(stream, k, face, count);
  }

  /** Each row as long as its face's count, each draw within [1, face]. */
  predicate Fits(faces: seq<nat>, m: FaceCountMap, rows: seq<seq<nat>>) {
    && |rows| == |faces|
    && (forall i :: 0 <= i < |faces| ==> |rows[i]| == Get(m, faces[i]))
    && (forall i, j :: 0 <= i < |faces| && 0 <= j < |rows[i]| ==> 1 <= rows[i][j] <= faces[i])
  }

  /** Rows that fit their faces still fit after one more face and a fitting row. */
  lemma FitsSnoc(faces: seq<nat>, m: FaceCountMap, rows: seq<seq<nat>>, f: nat, row: seq<nat>)
    requires Fits(faces, m, rows)
    requires |row| == Get(m, f) && forall j :: 0 <= j < |row| ==> 1 <= row[j] <= f
    ensures Fits(faces + [f], m, rows + [row])
  {
    var fs, rs := faces + [f], rows + [row];
    forall i | 0 <= i < |fs|
      ensures |rs[i]| == Get(m, fs[i])
      ensures forall j :: 0 <= j < |rs[i]| ==> 1 <= rs[i][j] <= fs[i]
    {
      if i < |faces| {
        assert rs[i] == rows[i] && fs[i] == faces[i];
      } else {
        assert rs[i] == row && fs[i] == f;
      }
    }
  }

  /** The rows of a list of faces: those of all but the last face, then the last face's row. */
  lemma RowsSnoc(faces: seq<nat>, m: FaceCountMap, stream: seq<nat>, k: nat)
    requires faces != [] && Drawable(faces, m)
    requires k + FaceSum(faces, m, false) <= |stream|
    ensures var init, f := faces[..|faces| - 1], faces[|faces| - 1];
            Drawable(init, m) && k + FaceSum(init, m, false) + Get(m, f) <= |stream|
            && (Get(m, f) > 0 ==> f >= 1)
            && Rows(faces, m, stream, k)
               == Rows(init, m, stream, k) + [Row(stream, k + FaceSum(init, m, false), f, Get(m, f))]
  {
    FaceSumPrefix(faces, |faces| - 1, m, false);
  }

  /** One row per face, each as long as its count and within the bounds of that face. */
  lemma {:induction false} RowsShape(faces: seq<nat>, m: FaceCountMap, stream: seq<nat>, k: nat)
    requires Drawable(faces, m)
    requires k + FaceSum(faces, m, false) <= |stream|
    ensures Fits(faces, m, Rows(faces, m, stream, k))
    decreases |faces|
  {
    if faces != [] {
      var init, f := faces[..|faces| - 1], faces[|faces| - 1];
      RowsSnoc(faces, m, stream, k);
      RowsShape(init, m, stream, k);
      RowRange(stream, k + FaceSum(init, m, false), f, Get(m, f));
      FitsSnoc(init, m, Rows(init, m, stream, k), f, Row(stream, k + FaceSum(init, m, false), f, Get(m, f)));
      assert init + [f] == faces;
    }
  }

  /** All the draws together total between Min and Max of the listed faces. */
  lemma {:induction false} RowsTotal(faces: seq<nat>, m: FaceCountMap, stream: seq<nat>, k: nat)
    requires Drawable(faces, m)
    requires k + FaceSum(faces, m, false) <= |stream|
    ensures FaceSum(faces, m, false) <= Total(Rows(faces, m, stream, k)) <= FaceSum(faces, m, true)
    decreases |faces|
  {
    if faces != [] {
      var init, f := faces[..|faces| - 1], faces[|faces| - 1];
      var row := Row(stream, k + FaceSum(init, m, false), f, Get(m, f));
      RowsSnoc(faces, m, stream, k);
      RowsTotal(init, m, stream, k);
      RowSum(stream, k + FaceSum(init, m, false), f, Get(m, f));
      TotalSnoc(Rows(init, m, stream, k), row);
    }
  }

  /** The inner loop of SimulateResult: `count` draws of a `face`-sided die, and their total. */
  method DrawRow(stream: seq<nat>, position: nat, face: nat, count: nat) returns (row: seq<nat>, total: nat)
    requires position + count <= |stream|
    requires count > 0 ==> face >= 1
    ensures row == Row(stream, position, face, count)
    ensures total == Sum(row)
  {
    row, total := [], 0;
    var j := 0;
    while j < count
      invariant 0 <= j <= count
      invariant |row| == j
      invariant row == Row(stream, position, face, j)
      invariant total == Sum(row)
    {
      var roll := 1 + stream[position + j] % face;
      total := total + roll;
      assert (row + [roll])[..j] == row;
      row := row + [roll];
      j := j + 1;
    }
  }

  /**
   * SimulateResult: sort the faces descending, then draw Counts[face] dice
   * for each face in that order, keeping every draw and their total.
   */
  method SimulateResult(m: FaceCountMap, stream: seq<nat>, start: nat)
    returns (sorted: FaceCountMap, rolls: seq<seq<nat>>, sum: nat)
    requires Drawable(m.Faces, m)
    requires start + FaceSum(m.Faces, m, false) <= |stream|
    ensures sorted == SortFacesDescending(m)
    ensures Drawable(sorted.Faces, sorted) && start + FaceSum(sorted.Faces, sorted, false) <= |stream|
    ensures rolls == Rows(sorted.Faces, sorted, stream, start)
    ensures sum == Total(rolls)
  {
    sorted := SortFacesDescending(m);
    SortedDrawable(m);
    rolls, sum := DrawFaces(sorted, stream, start);
  }

  /** The loop of SimulateResult over the faces in their listed order. */
  method DrawFaces(m: FaceCountMap, stream: seq<nat>, start: nat) returns (rolls: seq<seq<nat>>, sum: nat)
    requires Drawable(m.Faces, m)
    requires start + FaceSum(m.Faces, m, false) <= |stream|
    ensures rolls == Rows(m.Faces, m, stream, start)
    ensures sum == Total(rolls)
  {
    var faces := m.Faces;
    rolls, sum := [], 0;
    var position := start;
    var i := 0;
    while i < |faces|
      invariant 0 <= i <= |faces|
      invariant position == start + FaceSum(faces[..i], m, false)
      invariant FaceSum(faces[..i], m, false) <= FaceSum(faces, m, false)
      invariant Drawable(faces[..i], m)
      invariant rolls == Rows(faces[..i], m, stream, start)
      invariant sum == Total(rolls)
    {
      var face := faces[i];
      var count := Get(m, face);
      RowsStep(faces, i, m, stream, start);
      var row, total := DrawRow(stream, position, face, count);
      TotalSnoc(rolls, row);
      rolls := rolls + [row];
      sum := sum + total;
      position := position + count;
      i := i + 1;
    }
    assert faces[..i] == faces;
  }

  /** One more face of the list: its row follows the rows of the faces before it. */
  lemma RowsStep(faces: seq<nat>, i: nat, m: FaceCountMap, stream: seq<nat>, start: nat)
    requires Drawable(faces, m) && i < |faces|
    requires start + FaceSum(faces, m, false) <= |stream|
    ensures Drawable(faces[..i], m) && Drawable(faces[..i + 1], m)
    ensures Get(m, faces[i]) > 0 ==> faces[i] >= 1
    ensures FaceSum(faces[..i + 1], m, false) == FaceSum(faces[..i], m, false) + Get(m, faces[i])
    ensures FaceSum(faces[..i + 1], m, false) <= FaceSum(faces, m, false)
    ensures Rows(faces[..i + 1], m, stream, start)
         == Rows(faces[..i], m, stream, start)
            + [Row(stream, start + FaceSum(faces[..i], m, false), faces[i], Get(m, faces[i]))]
  {
    assert faces[..i + 1][..i] == faces[..i];
    assert faces[..i + 1][i] == faces[i];
    FaceSumPrefix(faces, i + 1, m, false);
  }

  /** Sorting keeps the faces drawable and the number of draws. */
  lemma SortedDrawable(m: FaceCountMap)
    requires Drawable(m.Faces, m)
    ensures var s := SortFacesDescending(m);
            Drawable(s.Faces, s) && FaceSum(s.Faces, s, false) == FaceSum(m.Faces, m, false)
  {
    var s := SortFacesDescending(m);
    FaceSumPermutation(s.Faces, m.Faces, m, false);
    FaceSumSameCounts(s.Faces, m, s, false);
    forall f | f in s.Faces ensures f in m.Faces {
      assert f in multiset(s.Faces);
    }
  }

  /** Every simulated total lies within [Min, Max] of a well-formed map. */
  lemma SimulatedWithinBounds(m: FaceCountMap, stream: seq<nat>, start: nat)
    requires WellFormed(m) && Drawable(m.Faces, m)
    requires start + FaceSum(m.Faces, m, false) <= |stream|
    ensures var s := SortFacesDescending(m);
            Drawable(s.Faces, s) && start + FaceSum(s.Faces, s, false) <= |stream|
            && MinOf(m) <= Total(Rows(s.Faces, s, stream, start)) <= MaxOf(m)
  {
    var s := SortFacesDescending(m);
    SortPreservesWellFormed(m);
    BoundsAlongFaces(s);
    SortedDrawable(m);
    RowsTotal(s.Faces, s, stream, start);
  }

  /** The sum along a list only reads the counts. */
  lemma {:induction false} FaceSumSameCounts(faces: seq<nat>, m1: FaceCountMap, m2: FaceCountMap, weighted: bool)
    requires m1.Counts == m2.Counts
    ensures FaceSum(faces, m1, weighted) == FaceSum(faces, m2, weighted)
    decreases |faces|
  {
    if faces != [] {
      FaceSumSameCounts(faces[..|faces| - 1], m1, m2, weighted);
    }
  }

  // ---------------------------------------------------------------------
  // Rendering

  /** One group: the count unless it is 1 (or 0), then `d` and the face count. */
  function GroupText(count: nat, face: nat): string
  {
    (if count > 1 then FormatNat(count) else "") + "d" + FormatNat(face)
  }

  /** FaceCountMap.String: the groups in Faces order, joined by ` + `. */
  function String(m: FaceCountMap): string
  {
    Join(seq(|m.Faces|, i requires 0 <= i < |m.Faces| => GroupText(Get(m, m.Faces[i]), m.Faces[i])), " + ")
  }
}
