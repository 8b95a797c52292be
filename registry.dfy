/** The list operations of the scheduler, stated on values: the ready list kept
    in priority order, removal by position, the watcher's filter of finished
    work, and the projections (identifiers, handles) the invariants are about. */
module Registry {
  import opened Handle
  import opened Pojo

  // ---------------------------------------------------------------------------
  // Projections and duplicate-freedom
  // ---------------------------------------------------------------------------

  /** The identifiers of `s`, in list order. */
  function Uuids(s: seq<ThreadInfo>): (ids: seq<Id>)
    ensures |ids| == |s|
  {
    if s == [] then [] else [s[0].uuid] + Uuids(s[1..])
  }

  /** The thread handles of `s`, in list order. */
  function Handles(s: seq<ThreadInfo>): (hs: seq<Thread?>)
    ensures |hs| == |s|
  {
    if s == [] then [] else [s[0].thread] + Handles(s[1..])
  }

  /** Position `i` of the identifiers is the identifier of record `i`. */
  lemma {:induction false} UuidsIndex(s: seq<ThreadInfo>)
    ensures forall i :: 0 <= i < |s| ==> Uuids(s)[i] == s[i].uuid
  {
    if s != [] {
      UuidsIndex(s[1..]);
      assert forall i :: 1 <= i < |s| ==> Uuids(s)[i] == Uuids(s[1..])[i - 1];
    }
  }

  /** Position `i` of the handles is the handle of record `i`. */
  lemma {:induction false} HandlesIndex(s: seq<ThreadInfo>)
    ensures forall i :: 0 <= i < |s| ==> Handles(s)[i] == s[i].thread
  {
    if s != [] {
      HandlesIndex(s[1..]);
      assert forall i :: 1 <= i < |s| ==> Handles(s)[i] == Handles(s[1..])[i - 1];
    }
  }

  lemma {:induction false} UuidsConcat(a: seq<ThreadInfo>, b: seq<ThreadInfo>)
    ensures Uuids(a + b) == Uuids(a) + Uuids(b)
  {
    if a == [] {
      assert a + b == b;
    } else {
      assert (a + b)[1..] == a[1..] + b;
      UuidsConcat(a[1..], b);
    }
  }

  lemma {:induction false} HandlesConcat(a: seq<ThreadInfo>, b: seq<ThreadInfo>)
    ensures Handles(a + b) == Handles(a) + Handles(b)
  {
    if a == [] {
      assert a + b == b;
    } else {
      assert (a + b)[1..] == a[1..] + b;
      HandlesConcat(a[1..], b);
    }
  }

  /** No value occurs twice: the head is not in the tail, and so on down. */
  ghost predicate NoDup<T>(s: seq<T>)
  {
    s != [] ==> s[0] !in s[1..] && NoDup(s[1..])
  }

  /** Duplicate-freedom means every value occurs at most once. */
  lemma {:induction false} NoDupCounts<T>(s: seq<T>)
    ensures NoDup(s) <==> forall v :: v in multiset(s) ==> multiset(s)[v] <= 1
  {
    if s != [] {
      var t := s[1..];
      NoDupCounts(t);
      assert s == [s[0]] + t;
      assert multiset(s) == multiset{s[0]} + multiset(t);
      if NoDup(s) {
        forall v | v in multiset(s) ensures multiset(s)[v] <= 1 {
          if v != s[0] {
            assert v in multiset(t);
          }
        }
      }
      if forall v :: v in multiset(s) ==> multiset(s)[v] <= 1 {
        assert multiset(s)[s[0]] <= 1;
        forall v | v in multiset(t) ensures multiset(t)[v] <= 1 {
          assert v in multiset(s);
        }
      }
    }
  }

  /** Duplicate-freedom means what it says on positions. */
  lemma {:induction false} NoDupPositions<T>(s: seq<T>)
    ensures NoDup(s) <==> forall i, j :: 0 <= i < j < |s| ==> s[i] != s[j]
  {
    if s != [] {
      var t := s[1..];
      NoDupPositions(t);
      assert forall i :: 1 <= i < |s| ==> s[i] == t[i - 1];
      assert s[0] in t <==> exists j :: 1 <= j < |s| && s[0] == s[j] by {
        if s[0] in t {
          var k :| 0 <= k < |t| && t[k] == s[0];
          assert s[k + 1] == s[0];
        }
      }
      if forall i, j :: 0 <= i < j < |s| ==> s[i] != s[j] {
        forall i, j | 0 <= i < j < |t| ensures t[i] != t[j] {
          assert s[i + 1] != s[j + 1];
        }
      }
    }
  }

  /** Whether some record of `s` holds handle `t`. */
  ghost predicate Holds(s: seq<ThreadInfo>, t: Thread?)
  {
    exists i :: 0 <= i < |s| && s[i].thread == t
  }

  /** A handle no record holds is not among the handles. */
  lemma HandleAbsent(s: seq<ThreadInfo>, t: Thread?)
    requires !Holds(s, t)
    ensures t !in multiset(Handles(s))
  {
    HandlesIndex(s);
    assert forall i :: 0 <= i < |s| ==> Handles(s)[i] != t;
    assert t !in Handles(s);
  }

  /** An identifier above every record's is not among the identifiers. */
  lemma UuidAbsent(s: seq<ThreadInfo>, n: Id)
    requires forall i :: 0 <= i < |s| ==> s[i].uuid < n
    ensures n !in multiset(Uuids(s))
  {
    UuidsIndex(s);
    assert forall i :: 0 <= i < |s| ==> Uuids(s)[i] != n;
    assert n !in Uuids(s);
  }

  /** In a duplicate-free concatenation the two halves share no value: the
      ready and running lists never hold the same identifier or handle. */
  lemma NoDupConcatDisjoint<T>(a: seq<T>, b: seq<T>, v: T)
    requires NoDup(a + b)
    ensures v in multiset(a) ==> v !in multiset(b)
  {
    NoDupCounts(a + b);
    assert multiset(a + b)[v] == multiset(a)[v] + multiset(b)[v];
  }

  /** Adding one value that was absent keeps a list duplicate-free. */
  lemma NoDupGrow<T>(s: seq<T>, t: seq<T>, v: T)
    requires NoDup(s) && v !in multiset(s)
    requires multiset(t) == multiset(s) + multiset{v}
    ensures NoDup(t)
  {
    NoDupCounts(s);
    NoDupCounts(t);
    forall w | w in multiset(t) ensures multiset(t)[w] <= 1 {
      if w != v {
        assert w in multiset(s);
      }
    }
  }

  /** Adding one value absent from both parts to the left part of a
      duplicate-free concatenation keeps it duplicate-free. */
  lemma NoDupGrowLeft<T>(a: seq<T>, a': seq<T>, b: seq<T>, v: T)
    requires NoDup(a + b) && v !in multiset(a) && v !in multiset(b)
    requires multiset(a') == multiset(a) + multiset{v}
    ensures NoDup(a' + b)
  {
    assert multiset(a + b) == multiset(a) + multiset(b);
    assert multiset(a' + b) == multiset(a') + multiset(b);
    NoDupGrow(a + b, a' + b, v);
  }

  /** Dropping values from the left part of a duplicate-free concatenation
      keeps it duplicate-free. */
  lemma NoDupShrinkLeft<T>(a: seq<T>, a': seq<T>, b: seq<T>)
    requires NoDup(a + b) && multiset(a') <= multiset(a)
    ensures NoDup(a' + b)
  {
    assert multiset(a + b) == multiset(a) + multiset(b);
    assert multiset(a' + b) == multiset(a') + multiset(b);
    NoDupShrink(a + b, a' + b);
  }

  /** Dropping values from the right part of a duplicate-free concatenation
      keeps it duplicate-free. */
  lemma NoDupShrinkRight<T>(a: seq<T>, b: seq<T>, b': seq<T>)
    requires NoDup(a + b) && multiset(b') <= multiset(b)
    ensures NoDup(a + b')
  {
    assert multiset(a + b) == multiset(a) + multiset(b);
    assert multiset(a + b') == multiset(a) + multiset(b');
    NoDupShrink(a + b, a + b');
  }

  /** Moving the head of the left part of a duplicate-free concatenation to
      the end of the right part keeps it duplicate-free. */
  lemma NoDupMoveHead<T>(a: seq<T>, b: seq<T>)
    requires a != [] && NoDup(a + b)
    ensures NoDup(a[1..] + (b + [a[0]]))
  {
    assert a == [a[0]] + a[1..];
    assert multiset(a[1..] + (b + [a[0]])) == multiset(a + b);
    NoDupShrink(a + b, a[1..] + (b + [a[0]]));
  }

  /** Dropping values keeps a list duplicate-free. */
  lemma NoDupShrink<T>(s: seq<T>, t: seq<T>)
    requires NoDup(s)
    requires multiset(t) <= multiset(s)
    ensures NoDup(t)
  {
    NoDupCounts(s);
    NoDupCounts(t);
    forall w | w in multiset(t) ensures multiset(t)[w] <= 1 {
      assert w in multiset(s);
    }
  }

  // ---------------------------------------------------------------------------
  // The ready list: priority order and stable insertion
  // ---------------------------------------------------------------------------

  /** Non-increasing rank from head to tail: the head is dispatched first. */
  ghost predicate Sorted(s: seq<ThreadInfo>)
  {
    |s| >= 2 ==> s[0].rank >= s[1].rank && Sorted(s[1..])
  }

  /** Sortedness of neighbours is sortedness of every pair. */
  lemma {:induction false} SortedPairwise(s: seq<ThreadInfo>)
    ensures Sorted(s) <==> forall i, j :: 0 <= i < j < |s| ==> s[i].rank >= s[j].rank
  {
    if |s| >= 2 {
      var t := s[1..];
      SortedPairwise(t);
      assert forall i :: 1 <= i < |s| ==> s[i] == t[i - 1];
      if Sorted(s) {
        forall i, j | 0 <= i < j < |s| ensures s[i].rank >= s[j].rank {
          if i == 0 && j > 1 {
            assert t[0].rank >= t[j - 1].rank;
          } else if i > 0 {
            assert t[i - 1].rank >= t[j - 1].rank;
          }
        }
      }
      if forall i, j :: 0 <= i < j < |s| ==> s[i].rank >= s[j].rank {
        forall i, j | 0 <= i < j < |t| ensures t[i].rank >= t[j].rank {
          assert s[i + 1].rank >= s[j + 1].rank;
        }
      }
    }
  }

  /** The head of a sorted list has the highest rank. */
  lemma HeadIsMax(s: seq<ThreadInfo>)
    requires Sorted(s) && s != []
    ensures forall i :: 0 <= i < |s| ==> s[i].rank <= s[0].rank
  {
    SortedPairwise(s);
  }

  /** Where a record of priority `rank` goes: just after the LAST record whose
      rank is at least `rank`, or at the head when there is none. */
  function InsertIndex(s: seq<ThreadInfo>, rank: int): (p: nat)
    ensures p <= |s|
    ensures p > 0 ==> s[p - 1].rank >= rank
  {
    if s == [] then 0
    else if s[|s| - 1].rank >= rank then |s|
    else InsertIndex(s[..|s| - 1], rank)
  }

  /** Every record from the insertion point on has a smaller rank. */
  lemma {:induction false} InsertIndexAfter(s: seq<ThreadInfo>, rank: int)
    ensures forall j :: InsertIndex(s, rank) <= j < |s| ==> s[j].rank < rank
  {
    if s != [] && s[|s| - 1].rank < rank {
      var t := s[..|s| - 1];
      InsertIndexAfter(t, rank);
      assert forall j :: 0 <= j < |t| ==> s[j] == t[j];
    }
  }

  /** The two properties of InsertIndex determine it. */
  lemma {:induction false} InsertIndexUnique(s: seq<ThreadInfo>, rank: int, p: nat)
    requires p <= |s|
    requires p > 0 ==> s[p - 1].rank >= rank
    requires forall j :: p <= j < |s| ==> s[j].rank < rank
    ensures p == InsertIndex(s, rank)
  {
    if s != [] && s[|s| - 1].rank < rank {
      var t := s[..|s| - 1];
      assert p < |s|;
      InsertIndexUnique(t, rank, p);
    }
  }

  /** `s` with `x` inserted at its priority position. */
  function Inserted(s: seq<ThreadInfo>, x: ThreadInfo): seq<ThreadInfo>
  {
    var p := InsertIndex(s, x.rank);
    s[..p] + [x] + s[p..]
  }

  /** A list is its prefix up to `k` followed by the rest. */
  lemma SplitBefore<T>(s: seq<T>, k: nat)
    requires k <= |s|
    ensures s == s[..k] + s[k..]
  {
  }

  /** A list is its prefix, the element at `k`, and its suffix. */
  lemma SplitAt<T>(s: seq<T>, k: nat)
    requires k < |s|
    ensures s == s[..k] + [s[k]] + s[k + 1..]
  {
  }

  /** `s` without its element at position `k`. */
  function RemoveAt<T>(s: seq<T>, k: nat): seq<T>
    requires k < |s|
  {
    s[..k] + s[k + 1..]
  }

  /** The elements of `RemoveAt(s, k)` are those of `s`: the ones before `k`
      at the same position, the rest one position earlier. */
  lemma RemoveAtIndex<T>(s: seq<T>, k: nat)
    requires k < |s|
    ensures |RemoveAt(s, k)| == |s| - 1
    ensures forall i :: 0 <= i < k ==> RemoveAt(s, k)[i] == s[i]
    ensures forall i :: k <= i < |s| - 1 ==> RemoveAt(s, k)[i] == s[i + 1]
  {
  }

  /** Insertion grows the list by one, puts `x` at InsertIndex, and removing
      it again gives back the list unchanged: existing records keep their order. */
  lemma InsertedKeepsOrder(s: seq<ThreadInfo>, x: ThreadInfo)
    ensures |Inserted(s, x)| == |s| + 1
    ensures Inserted(s, x)[InsertIndex(s, x.rank)] == x
    ensures RemoveAt(Inserted(s, x), InsertIndex(s, x.rank)) == s
  {
    var p := InsertIndex(s, x.rank);
    var r := Inserted(s, x);
    assert r[..p] == s[..p];
    assert r[p + 1..] == s[p..];
  }

  /** Records before the insertion point keep their position, records after
      it move one position later. */
  lemma InsertedIndex(s: seq<ThreadInfo>, x: ThreadInfo)
    ensures |Inserted(s, x)| == |s| + 1
    ensures var p := InsertIndex(s, x.rank);
      && Inserted(s, x)[p] == x
      && (forall i :: 0 <= i < p ==> Inserted(s, x)[i] == s[i])
      && (forall i :: p < i <= |s| ==> Inserted(s, x)[i] == s[i - 1])
  {
  }

  /** On a sorted list the new record lands after every record of rank at
      least its own and before every record of smaller rank; it lands at the
      head exactly when no record has rank at least its own. */
  lemma InsertedPlacement(s: seq<ThreadInfo>, x: ThreadInfo)
    requires Sorted(s)
    ensures var p := InsertIndex(s, x.rank);
      && (forall j :: 0 <= j < p ==> Inserted(s, x)[j].rank >= x.rank)
      && (forall j :: p < j < |s| + 1 ==> Inserted(s, x)[j].rank < x.rank)
      && (p == 0 <==> forall j :: 0 <= j < |s| ==> s[j].rank < x.rank)
  {
    var p := InsertIndex(s, x.rank);
    var r := Inserted(s, x);
    InsertedIndex(s, x);
    InsertIndexAfter(s, x.rank);
    assert forall j :: 0 <= j < p ==> r[j].rank >= x.rank by {
      SortedPairwise(s);
      forall j | 0 <= j < p ensures r[j].rank >= x.rank {
        assert s[j].rank >= s[p - 1].rank;
      }
    }
  }

  /** Insertion keeps the ready list sorted. */
  lemma InsertedSorted(s: seq<ThreadInfo>, x: ThreadInfo)
    requires Sorted(s)
    ensures Sorted(Inserted(s, x))
  {
    var p := InsertIndex(s, x.rank);
    var r := Inserted(s, x);
    InsertedPlacement(s, x);
    InsertedIndex(s, x);
    SortedPairwise(s);
    forall i, j | 0 <= i < j < |r| ensures r[i].rank >= r[j].rank {
      if j < p {
        assert s[i].rank >= s[j].rank;
      } else if i > p {
        assert s[i - 1].rank >= s[j - 1].rank;
      }
    }
    SortedPairwise(r);
  }

  /** Records of equal rank keep their admission order: a record inserted
      after another of the same rank ends up behind it. */
  lemma InsertedStable(s: seq<ThreadInfo>, x: ThreadInfo, y: ThreadInfo)
    requires x.rank == y.rank
    ensures var t := Inserted(Inserted(s, x), y);
      var p := InsertIndex(s, x.rank);
      var q := InsertIndex(Inserted(s, x), y.rank);
      p < q && t[p] == x && t[q] == y
  {
    var p := InsertIndex(s, x.rank);
    var s1 := Inserted(s, x);
    InsertedKeepsOrder(s, x);
    var q := InsertIndex(s1, y.rank);
    InsertedKeepsOrder(s1, y);
    InsertIndexAfter(s1, y.rank);
    assert s1[p].rank >= y.rank;
    assert p < q;
    assert Inserted(s1, y)[p] == s1[p];
  }

  /** Admitting three records in increasing rank order into an empty ready
      list leaves them in decreasing rank order: the last admitted is first. */
  lemma AdmitIncreasingRanks(a: ThreadInfo, b: ThreadInfo, c: ThreadInfo)
    requires a.rank < b.rank < c.rank
    ensures Inserted(Inserted(Inserted([], a), b), c) == [c, b, a]
  {
    assert Inserted([], a) == [a];
    assert InsertIndex([a], b.rank) == 0;
    assert Inserted([a], b) == [b, a];
    assert InsertIndex([b, a], c.rank) == InsertIndex([b], c.rank) == 0 by {
      assert [b, a][..1] == [b];
      assert [b][..0] == [];
    }
  }

  /** Putting one record between two lists adds exactly its identifier... */
  lemma UuidsSplit(a: seq<ThreadInfo>, x: ThreadInfo, b: seq<ThreadInfo>)
    ensures multiset(Uuids(a + [x] + b)) == multiset(Uuids(a + b)) + multiset{x.uuid}
  {
    UuidsConcat(a + [x], b);
    UuidsConcat(a, [x]);
    UuidsConcat(a, b);
    assert Uuids([x]) == [x.uuid];
  }

  /** ... and exactly its handle. */
  lemma HandlesSplit(a: seq<ThreadInfo>, x: ThreadInfo, b: seq<ThreadInfo>)
    ensures multiset(Handles(a + [x] + b)) == multiset(Handles(a + b)) + multiset{x.thread}
  {
    HandlesConcat(a + [x], b);
    HandlesConcat(a, [x]);
    HandlesConcat(a, b);
    assert Handles([x]) == [x.thread];
  }

  /** What insertion does to the multisets of records, identifiers and handles. */
  lemma InsertedContents(s: seq<ThreadInfo>, x: ThreadInfo)
    ensures multiset(Inserted(s, x)) == multiset(s) + multiset{x}
    ensures multiset(Uuids(Inserted(s, x))) == multiset(Uuids(s)) + multiset{x.uuid}
    ensures multiset(Handles(Inserted(s, x))) == multiset(Handles(s)) + multiset{x.thread}
  {
    var p := InsertIndex(s, x.rank);
    assert multiset(Inserted(s, x)) == multiset(s) + multiset{x} by {
      SplitBefore(s, p);
    }
    assert multiset(Uuids(Inserted(s, x))) == multiset(Uuids(s)) + multiset{x.uuid} by {
      SplitBefore(s, p);
      UuidsSplit(s[..p], x, s[p..]);
    }
    assert multiset(Handles(Inserted(s, x))) == multiset(Handles(s)) + multiset{x.thread} by {
      SplitBefore(s, p);
      HandlesSplit(s[..p], x, s[p..]);
    }
  }

  /** What removal at `k` does to the multisets of records, identifiers and handles. */
  lemma RemoveAtContents(s: seq<ThreadInfo>, k: nat)
    requires k < |s|
    ensures multiset(RemoveAt(s, k)) + multiset{s[k]} == multiset(s)
    ensures multiset(Uuids(RemoveAt(s, k))) + multiset{s[k].uuid} == multiset(Uuids(s))
    ensures multiset(Handles(RemoveAt(s, k))) + multiset{s[k].thread} == multiset(Handles(s))
  {
    assert multiset(RemoveAt(s, k)) + multiset{s[k]} == multiset(s) by {
      SplitAt(s, k);
    }
    assert multiset(Uuids(RemoveAt(s, k))) + multiset{s[k].uuid} == multiset(Uuids(s)) by {
      SplitAt(s, k);
      UuidsSplit(s[..k], s[k], s[k + 1..]);
    }
    assert multiset(Handles(RemoveAt(s, k))) + multiset{s[k].thread} == multiset(Handles(s)) by {
      SplitAt(s, k);
      HandlesSplit(s[..k], s[k], s[k + 1..]);
    }
  }

  /** Removal leaves no identifier or handle that was not there before. */
  lemma RemoveAtShrinks(s: seq<ThreadInfo>, k: nat)
    requires k < |s|
    ensures multiset(Uuids(RemoveAt(s, k))) <= multiset(Uuids(s))
    ensures multiset(Handles(RemoveAt(s, k))) <= multiset(Handles(s))
  {
    RemoveAtContents(s, k);
    SubMultiset(multiset(Uuids(RemoveAt(s, k))), s[k].uuid, multiset(Uuids(s)));
    SubMultiset(multiset(Handles(RemoveAt(s, k))), s[k].thread, multiset(Handles(s)));
  }

  lemma SubMultiset<T>(a: multiset<T>, x: T, b: multiset<T>)
    requires a + multiset{x} == b
    ensures a <= b
  {
  }

  /** Removing a record keeps the ready list sorted. */
  lemma RemoveAtSorted(s: seq<ThreadInfo>, k: nat)
    requires k < |s| && Sorted(s)
    ensures Sorted(RemoveAt(s, k))
  {
    var r := RemoveAt(s, k);
    RemoveAtIndex(s, k);
    SortedPairwise(s);
    forall i, j | 0 <= i < j < |r| ensures r[i].rank >= r[j].rank {
      var i' := if i < k then i else i + 1;
      var j' := if j < k then j else j + 1;
      assert s[i'].rank >= s[j'].rank;
    }
    SortedPairwise(r);
  }

  // ---------------------------------------------------------------------------
  // Lookup by identifier
  // ---------------------------------------------------------------------------

  /** The first position whose record carries identifier `id`, if any. */
  function FindId(s: seq<ThreadInfo>, id: Id): (k: Option<nat>)
    ensures k.Some? ==> k.value < |s| && s[k.value].uuid == id
  {
    if s == [] then None
    else if s[0].uuid == id then Some(0)
    else match FindId(s[1..], id)
      case None => None
      case Some(k) => Some(k + 1)
  }

  /** FindId misses only when no record carries the identifier, and finds
      the first record that does. */
  lemma {:induction false} FindIdSpec(s: seq<ThreadInfo>, id: Id)
    ensures FindId(s, id).None? ==> forall j :: 0 <= j < |s| ==> s[j].uuid != id
    ensures FindId(s, id).Some? ==> forall j :: 0 <= j < FindId(s, id).value ==> s[j].uuid != id
  {
    if s != [] && s[0].uuid != id {
      FindIdSpec(s[1..], id);
      assert forall j :: 1 <= j < |s| ==> s[j] == s[1..][j - 1];
    }
  }

  /** Changing the rank of the record at `k`: take it out, give it the new
      rank, and insert it again at its priority position. */
  function Reranked(s: seq<ThreadInfo>, k: nat, newRank: int): seq<ThreadInfo>
    requires k < |s|
  {
    Inserted(RemoveAt(s, k), s[k].(rank := newRank))
  }

  /** A rank change keeps the list sorted, its length, its identifiers and
      its handles. */
  lemma RerankedSpec(s: seq<ThreadInfo>, k: nat, newRank: int)
    requires k < |s| && Sorted(s)
    ensures Sorted(Reranked(s, k, newRank))
    ensures |Reranked(s, k, newRank)| == |s|
    ensures multiset(Uuids(Reranked(s, k, newRank))) == multiset(Uuids(s))
    ensures multiset(Handles(Reranked(s, k, newRank))) == multiset(Handles(s))
  {
    var rest := RemoveAt(s, k);
    var x := s[k].(rank := newRank);
    assert Sorted(Reranked(s, k, newRank)) by {
      RemoveAtSorted(s, k);
      InsertedSorted(rest, x);
    }
    InsertedKeepsOrder(rest, x);
    RemoveAtContents(s, k);
    InsertedContents(rest, x);
  }

  /** The only record a rank change replaces is the re-ranked one. */
  lemma RerankedMembers(s: seq<ThreadInfo>, k: nat, newRank: int)
    requires k < |s|
    ensures multiset(Reranked(s, k, newRank)) + multiset{s[k]} == multiset(s) + multiset{s[k].(rank := newRank)}
  {
    var rest := RemoveAt(s, k);
    var x := s[k].(rank := newRank);
    var m := multiset(rest);
    assert m + multiset{s[k]} == multiset(s) by {
      RemoveAtContents(s, k);
    }
    assert multiset(Reranked(s, k, newRank)) == m + multiset{x} by {
      InsertedContents(rest, x);
    }
  }

  /** The re-ranked record sits after every record of rank at least the new
      one (so after its equal-rank peers, even when the rank is unchanged) and
      before every record of smaller rank. */
  lemma RerankedPlacement(s: seq<ThreadInfo>, k: nat, newRank: int)
    requires k < |s| && Sorted(s)
    ensures var t := Reranked(s, k, newRank);
      var p := InsertIndex(RemoveAt(s, k), newRank);
      && p < |t| && t[p] == s[k].(rank := newRank)
      && (forall j :: 0 <= j < p ==> t[j].rank >= newRank)
      && (forall j :: p < j < |t| ==> t[j].rank < newRank)
  {
    var rest := RemoveAt(s, k);
    var x := s[k].(rank := newRank);
    RemoveAtSorted(s, k);
    InsertedKeepsOrder(rest, x);
    InsertedPlacement(rest, x);
  }

  // ---------------------------------------------------------------------------
  // The watcher's filter
  // ---------------------------------------------------------------------------

  /** Records whose handle is in `finished` (reported not alive), in list order. */
  function Finished(s: seq<ThreadInfo>, finished: set<Thread>): (out: seq<ThreadInfo>)
    ensures |out| <= |s|
  {
    if s == [] then []
    else (if s[0].thread in finished then [s[0]] else []) + Finished(s[1..], finished)
  }

  /** Records whose handle is still alive, in list order. */
  function Survivors(s: seq<ThreadInfo>, finished: set<Thread>): (out: seq<ThreadInfo>)
    ensures |out| <= |s|
  {
    if s == [] then []
    else (if s[0].thread in finished then [] else [s[0]]) + Survivors(s[1..], finished)
  }

  /** Exactly the records of `s` whose handle is in `finished` are collected. */
  lemma {:induction false} FinishedMembers(s: seq<ThreadInfo>, finished: set<Thread>)
    ensures forall r :: r in Finished(s, finished) ==> r in s && r.thread in finished
    ensures forall r :: r in s ==> (r in Finished(s, finished) <==> r.thread in finished)
  {
    if s != [] {
      FinishedMembers(s[1..], finished);
      assert s == [s[0]] + s[1..];
    }
  }

  /** Exactly the records of `s` whose handle is not in `finished` survive. */
  lemma {:induction false} SurvivorsMembers(s: seq<ThreadInfo>, finished: set<Thread>)
    ensures forall r :: r in Survivors(s, finished) ==> r in s && r.thread !in finished
    ensures forall r :: r in s ==> (r in Survivors(s, finished) <==> r.thread !in finished)
  {
    if s != [] {
      SurvivorsMembers(s[1..], finished);
      assert s == [s[0]] + s[1..];
    }
  }

  /** `s` with every element equal to one of `xs` taken out. */
  function Without(s: seq<ThreadInfo>, xs: seq<ThreadInfo>): seq<ThreadInfo>
  {
    if s == [] then []
    else (if s[0] in xs then [] else [s[0]]) + Without(s[1..], xs)
  }

  /** The finished records of a concatenation are those of each part, in order. */
  lemma {:induction false} FinishedConcat(a: seq<ThreadInfo>, b: seq<ThreadInfo>, finished: set<Thread>)
    ensures Finished(a + b, finished) == Finished(a, finished) + Finished(b, finished)
  {
    if a == [] {
      assert a + b == b;
    } else {
      assert (a + b)[0] == a[0];
      assert (a + b)[1..] == a[1..] + b;
      FinishedConcat(a[1..], b, finished);
    }
  }

  /** The survivors of a concatenation are those of each part, in order:
      the watcher keeps the relative order of the records it keeps. */
  lemma {:induction false} SurvivorsConcat(a: seq<ThreadInfo>, b: seq<ThreadInfo>, finished: set<Thread>)
    ensures Survivors(a + b, finished) == Survivors(a, finished) + Survivors(b, finished)
  {
    if a == [] {
      assert a + b == b;
    } else {
      assert (a + b)[0] == a[0];
      assert (a + b)[1..] == a[1..] + b;
      SurvivorsConcat(a[1..], b, finished);
    }
  }

  /** Every record is either finished or a survivor. */
  lemma {:induction false} FilterPartition(s: seq<ThreadInfo>, finished: set<Thread>)
    ensures |Finished(s, finished)| + |Survivors(s, finished)| == |s|
  {
    if s != [] {
      FilterPartition(s[1..], finished);
    }
  }

  /** When nothing finished, everything survives. */
  lemma {:induction false} SurvivorsAll(s: seq<ThreadInfo>, finished: set<Thread>)
    requires Finished(s, finished) == []
    ensures Survivors(s, finished) == s
  {
    if s != [] {
      assert s[0] !in Finished(s, finished);
      assert Finished(s[1..], finished) == [];
      SurvivorsAll(s[1..], finished);
      assert s == [s[0]] + s[1..];
    }
  }

  /** The survivors carry no identifier and no handle beyond those of the list. */
  lemma {:induction false} SurvivorsProjections(s: seq<ThreadInfo>, finished: set<Thread>)
    ensures multiset(Uuids(Survivors(s, finished))) <= multiset(Uuids(s))
    ensures multiset(Handles(Survivors(s, finished))) <= multiset(Handles(s))
  {
    if s != [] {
      SurvivorsProjections(s[1..], finished);
      var head := if s[0].thread in finished then [] else [s[0]];
      assert Survivors(s, finished) == head + Survivors(s[1..], finished);
      assert s == [s[0]] + s[1..];
      assert multiset(Uuids(Survivors(s, finished))) <= multiset(Uuids(s)) by {
        UuidsConcat(head, Survivors(s[1..], finished));
        UuidsConcat([s[0]], s[1..]);
      }
      assert multiset(Handles(Survivors(s, finished))) <= multiset(Handles(s)) by {
        HandlesConcat(head, Survivors(s[1..], finished));
        HandlesConcat([s[0]], s[1..]);
      }
    }
  }

  /** Removing the collected records is filtering by the same test. */
  lemma {:induction false} WithoutCollected(s: seq<ThreadInfo>, xs: seq<ThreadInfo>, finished: set<Thread>)
    requires forall r :: r in s ==> (r in xs <==> r.thread in finished)
    ensures Without(s, xs) == Survivors(s, finished)
  {
    if s != [] {
      WithoutCollected(s[1..], xs, finished);
    }
  }

  // ---------------------------------------------------------------------------
  // Snapshots
  // ---------------------------------------------------------------------------

  /** `r` is the defensive copy of `s`: one handle-less copy per record, in order. */
  ghost predicate IsSnapshot(r: seq<ThreadInfo>, s: seq<ThreadInfo>)
  {
    |r| == |s| && forall i :: 0 <= i < |s| ==> r[i] == s[i].Copy()
  }

  /** A snapshot keeps the identifiers in order, holds no handle, is its own
      snapshot, and the snapshots of two lists concatenate. */
  lemma SnapshotSpec(r: seq<ThreadInfo>, s: seq<ThreadInfo>, r2: seq<ThreadInfo>, s2: seq<ThreadInfo>)
    requires IsSnapshot(r, s) && IsSnapshot(r2, s2)
    ensures Uuids(r) == Uuids(s)
    ensures forall x :: x in r ==> x.thread == null
    ensures IsSnapshot(r, r)
    ensures IsSnapshot(r + r2, s + s2)
  {
    forall i | 0 <= i < |r| ensures r[i].Copy() == r[i] {
      CopyIdempotent(s[i]);
    }
    UuidsIndex(r);
    UuidsIndex(s);
  }
}
