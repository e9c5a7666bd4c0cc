/**
 Ordering of release files by their numeric `id`: a stable ascending sort (the
 behaviour of lodash's `orderBy` with one ascending key) followed by a reversal,
 which together put the newest file first.
 */
module FileOrdering {
  import opened CurseModels

  ghost predicate SortedAscById(s: seq<CurseFile>)
  {
    forall i, j :: 0 <= i < j < |s| ==> s[i].id <= s[j].id
  }

  ghost predicate SortedDescById(s: seq<CurseFile>)
  {
    forall i, j :: 0 <= i < j < |s| ==> s[i].id >= s[j].id
  }

  /**
   Inserts `x` into an ascending sequence in front of the first element whose id is
   at least `x.id`; `x` came earlier in the input than everything in `s`, so equal ids
   keep their input order.
   */
  function InsertById(x: CurseFile, s: seq<CurseFile>): (r: seq<CurseFile>)
  {
    if |s| == 0 || x.id <= s[0].id then [x] + s
    else [s[0]] + InsertById(x, s[1..])
  }

  /** Stable insertion sort by ascending `id`. */
  function SortById(s: seq<CurseFile>): (r: seq<CurseFile>)
  {
    if |s| == 0 then [] else InsertById(s[0], SortById(s[1..]))
  }

  /** Inserting adds exactly `x`: nothing is lost or duplicated. */
  lemma {:induction false} InsertByIdMultiset(x: CurseFile, s: seq<CurseFile>)
    ensures multiset(InsertById(x, s)) == multiset(s) + multiset{x}
  {
    if |s| > 0 && x.id > s[0].id {
      InsertByIdMultiset(x, s[1..]);
      assert s == [s[0]] + s[1..];
    }
  }

  /** Inserting into an ascending sequence keeps it ascending. */
  lemma {:induction false} InsertByIdSorted(x: CurseFile, s: seq<CurseFile>)
    requires SortedAscById(s)
    ensures SortedAscById(InsertById(x, s))
  {
    if |s| == 0 || x.id <= s[0].id {
      ConsSorted(x, s);
    } else {
      var rest := InsertById(x, s[1..]);
      InsertByIdSorted(x, s[1..]);
      InsertByIdMultiset(x, s[1..]);
      forall i | 0 <= i < |rest|
        ensures s[0].id <= rest[i].id
      {
        assert rest[i] in multiset(rest);
        if rest[i] != x {
          assert rest[i] in multiset(s[1..]);
          var m :| 0 <= m < |s[1..]| && s[1..][m] == rest[i];
          assert s[m + 1] == rest[i];
        }
      }
      ConsSorted(s[0], rest);
    }
  }

  /** A file no newer than anything in an ascending sequence can lead it. */
  lemma ConsSorted(a: CurseFile, s: seq<CurseFile>)
    requires SortedAscById(s)
    requires forall i :: 0 <= i < |s| ==> a.id <= s[i].id
    ensures SortedAscById([a] + s)
  {
  }

  /** The sort returns an ascending sequence. */
  lemma {:induction false} SortByIdSorted(s: seq<CurseFile>)
    ensures SortedAscById(SortById(s))
  {
    if |s| > 0 {
      SortByIdSorted(s[1..]);
      InsertByIdSorted(s[0], SortById(s[1..]));
    }
  }

  /** The sort returns a permutation of its input. */
  lemma {:induction false} SortByIdPermutation(s: seq<CurseFile>)
    ensures multiset(SortById(s)) == multiset(s)
    ensures |SortById(s)| == |s|
  {
    if |s| > 0 {
      SortByIdPermutation(s[1..]);
      InsertByIdMultiset(s[0], SortById(s[1..]));
      assert s == [s[0]] + s[1..];
    }
    assert |SortById(s)| == |multiset(SortById(s))|;
  }

  function Reverse(s: seq<CurseFile>): (r: seq<CurseFile>)
    ensures |r| == |s|
    ensures forall i :: 0 <= i < |s| ==> r[i] == s[|s| - 1 - i]
  {
    if |s| == 0 then [] else Reverse(s[1..]) + [s[0]]
  }

  lemma {:induction false} ReverseMultiset(s: seq<CurseFile>)
    ensures multiset(Reverse(s)) == multiset(s)
  {
    if |s| > 0 {
      ReverseMultiset(s[1..]);
      assert s == [s[0]] + s[1..];
    }
  }

  /** The files ordered newest (highest id) first: sort ascending, then reverse. */
  function OrderByIdDescending(s: seq<CurseFile>): (r: seq<CurseFile>)
    ensures SortedDescById(r)
    ensures multiset(r) == multiset(s)
    ensures |r| == |s|
  {
    var asc := SortById(s);
    SortByIdSorted(s);
    SortByIdPermutation(s);
    ReverseMultiset(asc);
    assert |asc| == |multiset(s)| == |s|;
    Reverse(asc)
  }

  /** The files of `s` whose id is `k`, in their order in `s`. */
  function WithId(s: seq<CurseFile>, k: int): (r: seq<CurseFile>)
  {
    if |s| == 0 then []
    else if s[0].id == k then [s[0]] + WithId(s[1..], k)
    else WithId(s[1..], k)
  }

  /** Selecting by id distributes over concatenation. */
  lemma {:induction false} WithIdAppend(a: seq<CurseFile>, b: seq<CurseFile>, k: int)
    ensures WithId(a + b, k) == WithId(a, k) + WithId(b, k)
    decreases |a|
  {
    if |a| > 0 {
      assert (a + b)[1..] == a[1..] + b;
      WithIdAppend(a[1..], b, k);
    } else {
      assert a + b == b;
    }
  }

  /** Inserting `x` puts it in front of every file that shares its id. */
  lemma {:induction false} InsertByIdTies(x: CurseFile, s: seq<CurseFile>, k: int)
    ensures WithId(InsertById(x, s), k) == WithId([x], k) + WithId(s, k)
    decreases |s|
  {
    if |s| == 0 || x.id <= s[0].id {
      WithIdAppend([x], s, k);
    } else {
      InsertByIdTies(x, s[1..], k);
      InsertByIdTiesStep(x, s, k);
    }
  }

  /** The step of `InsertByIdTies` where `x` goes past `s[0]`, whose id is smaller. */
  lemma InsertByIdTiesStep(x: CurseFile, s: seq<CurseFile>, k: int)
    requires |s| > 0 && s[0].id < x.id
    requires WithId(InsertById(x, s[1..]), k) == WithId([x], k) + WithId(s[1..], k)
    ensures WithId(InsertById(x, s), k) == WithId([x], k) + WithId(s, k)
  {
  }

  /** The sort is stable: the files sharing an id keep their input order. */
  lemma {:induction false} SortByIdStable(s: seq<CurseFile>, k: int)
    ensures WithId(SortById(s), k) == WithId(s, k)
  {
    if |s| > 0 {
      SortByIdStable(s[1..], k);
      InsertByIdTies(s[0], SortById(s[1..]), k);
      assert s == [s[0]] + s[1..];
      WithIdAppend([s[0]], s[1..], k);
    }
  }

  /** Reversing a list reverses the order of the files of each id. */
  lemma {:induction false} WithIdReverse(s: seq<CurseFile>, k: int)
    ensures WithId(Reverse(s), k) == Reverse(WithId(s, k))
  {
    if |s| > 0 {
      WithIdReverse(s[1..], k);
      assert Reverse(s) == Reverse(s[1..]) + [s[0]];
      WithIdAppend(Reverse(s[1..]), [s[0]], k);
      assert s == [s[0]] + s[1..];
      WithIdAppend([s[0]], s[1..], k);
      ReverseAppend(WithId([s[0]], k), WithId(s[1..], k));
    }
  }

  /** Reversing a concatenation reverses and swaps its parts. */
  lemma ReverseAppend(a: seq<CurseFile>, b: seq<CurseFile>)
    ensures Reverse(a + b) == Reverse(b) + Reverse(a)
  {
  }

  /**
   Files sharing an id come out in the reverse of their input order: the ascending
   sort keeps them in input order and the final reversal flips them.
   */
  lemma OrderByIdDescendingTies(s: seq<CurseFile>, k: int)
    ensures WithId(OrderByIdDescending(s), k) == Reverse(WithId(s, k))
  {
    SortByIdStable(s, k);
    WithIdReverse(SortById(s), k);
  }
}
