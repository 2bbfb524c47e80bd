/**
 * Pure operations on the ordered id lists that stand for the two
 * many-to-many relations (`user.roles`, `role.permissions`), and on the
 * accumulator of the permission resolver.
 */
module EdgeLists {
  import opened Entities

  predicate NoDup<T(==)>(s: seq<T>)
  {
    forall i, j :: 0 <= i < j < |s| ==> s[i] != s[j]
  }

  function Elems<T>(s: seq<T>): set<T>
  {
    set x | x in s
  }

  /** An edge list without repeats whose every id names an existing record. */
  predicate WellFormed(s: seq<Id>, keys: set<Id>)
  {
    NoDup(s) && forall x :: x in s ==> x in keys
  }

  // ---------------------------------------------------------------------
  // remove*: `list.filter(e => e.id !== x)`
  // ---------------------------------------------------------------------

  function Without(s: seq<Id>, x: Id): (r: seq<Id>)
    ensures forall y :: y in r <==> y in s && y != x
    ensures |r| <= |s|
  {
    if s == [] then []
    else if s[0] == x then Without(s[1..], x)
    else [s[0]] + Without(s[1..], x)
  }

  /** Filtering out an id that is not in the list changes nothing. */
  lemma {:induction false} WithoutNonMember(s: seq<Id>, x: Id)
    requires x !in s
    ensures Without(s, x) == s
  {
    if s != [] {
      WithoutNonMember(s[1..], x);
    }
  }

  /** Removing twice is removing once. */
  lemma {:induction false} WithoutIdempotent(s: seq<Id>, x: Id)
    ensures Without(Without(s, x), x) == Without(s, x)
  {
    WithoutNonMember(Without(s, x), x);
  }

  /** Filtering distributes over concatenation, so the kept entries stay in their relative order. */
  lemma {:induction false} WithoutAppend(a: seq<Id>, b: seq<Id>, x: Id)
    ensures Without(a + b, x) == Without(a, x) + Without(b, x)
  {
    if a == [] {
      assert a + b == b;
    } else {
      assert (a + b)[0] == a[0];
      assert (a + b)[1..] == a[1..] + b;
      WithoutAppend(a[1..], b, x);
    }
  }

  lemma {:induction false} WithoutKeepsNoDup(s: seq<Id>, x: Id)
    requires NoDup(s)
    ensures NoDup(Without(s, x))
  {
    if s != [] {
      WithoutKeepsNoDup(s[1..], x);
      if s[0] != x {
        var r := Without(s[1..], x);
        assert s[0] !in s[1..];
        assert [s[0]] + r == Without(s, x);
        forall i, j | 0 <= i < j < |[s[0]] + r| ensures ([s[0]] + r)[i] != ([s[0]] + r)[j] {
          if i == 0 {
            assert ([s[0]] + r)[j] == r[j - 1];
          }
        }
      }
    }
  }

  /** In a list without repeats, removing a member deletes exactly its one position. */
  lemma {:induction false} WithoutAt(s: seq<Id>, i: nat)
    requires NoDup(s) && i < |s|
    ensures Without(s, s[i]) == s[..i] + s[i + 1..]
  {
    if i == 0 {
      assert s[0] !in s[1..] by {
        forall k | 1 <= k < |s| ensures s[k] != s[0] { }
      }
      WithoutNonMember(s[1..], s[0]);
    } else {
      assert NoDup(s[1..]) by {
        forall a, b | 0 <= a < b < |s[1..]| ensures s[1..][a] != s[1..][b] {
          assert s[1..][a] == s[a + 1] && s[1..][b] == s[b + 1];
        }
      }
      assert s[1..][i - 1] == s[i];
      WithoutAt(s[1..], i - 1);
      assert s[0] != s[i];
      assert s[1..][..i - 1] == s[1..i];
      assert s[1..][i..] == s[i + 1..];
      assert s[..i] == [s[0]] + s[1..i];
    }
  }

  // ---------------------------------------------------------------------
  // The resolver's accumulator: push a value only if it is not yet there.
  // ---------------------------------------------------------------------

  /** First-seen deduplication, defined exactly as the accumulator grows: the last element is appended unless seen before. */
  function Dedup<T(==)>(s: seq<T>): seq<T>
  {
    if s == [] then []
    else if s[|s| - 1] in s[..|s| - 1] then Dedup(s[..|s| - 1])
    else Dedup(s[..|s| - 1]) + [s[|s| - 1]]
  }

  lemma {:induction false} DedupMembers<T>(s: seq<T>)
    ensures forall x :: x in Dedup(s) <==> x in s
  {
    if s != [] {
      var p := s[..|s| - 1];
      DedupMembers(p);
      assert s == p + [s[|s| - 1]];
    }
  }

  /** One step of the accumulator: `if (!acc.includes(x)) acc.push(x)`. */
  lemma DedupStep<T>(s: seq<T>, x: T)
    ensures Dedup(s + [x]) == if x in Dedup(s) then Dedup(s) else Dedup(s) + [x]
  {
    DedupMembers(s);
    assert (s + [x])[..|s|] == s;
  }

  lemma {:induction false} DedupNoDup<T>(s: seq<T>)
    ensures NoDup(Dedup(s))
  {
    if s != [] {
      var p := s[..|s| - 1];
      DedupNoDup(p);
      DedupMembers(p);
    }
  }

  /** A list that has no repeats is its own deduplication. */
  lemma {:induction false} DedupOfNoDup<T>(s: seq<T>)
    requires NoDup(s)
    ensures Dedup(s) == s
  {
    if s != [] {
      var p := s[..|s| - 1];
      assert s[|s| - 1] !in p by {
        forall k | 0 <= k < |p| ensures p[k] != s[|s| - 1] {
          assert p[k] == s[k];
        }
      }
      assert NoDup(p) by {
        forall a, b | 0 <= a < b < |p| ensures p[a] != p[b] {
          assert p[a] == s[a] && p[b] == s[b];
        }
      }
      DedupOfNoDup(p);
      assert s == p + [s[|s| - 1]];
    }
  }

  /** The position of the first occurrence of `x` in `s`. */
  function FirstIndex<T(==)>(s: seq<T>, x: T): (k: nat)
    requires x in s
    ensures k < |s| && s[k] == x && x !in s[..k]
  {
    if s[0] == x then 0
    else
      var k := FirstIndex(s[1..], x);
      assert s[..k + 1] == [s[0]] + s[1..][..k];
      k + 1
  }

  lemma {:induction false} FirstIndexAppend<T>(s: seq<T>, y: T, x: T)
    requires x in s
    ensures FirstIndex(s + [y], x) == FirstIndex(s, x)
  {
    var k := FirstIndex(s, x);
    assert (s + [y])[k] == x;
    assert (s + [y])[..k] == s[..k];
  }

  /** Pushing a value not seen before keeps the accumulator in first-seen order. */
  lemma {:induction false} FirstSeenPush<T>(p: seq<T>, y: T, d: seq<T>)
    requires y !in p
    requires forall x :: x in d ==> x in p
    requires forall i, j :: 0 <= i < j < |d| ==> FirstIndex(p, d[i]) < FirstIndex(p, d[j])
    ensures forall i, j :: 0 <= i < j < |d + [y]| ==> FirstIndex(p + [y], (d + [y])[i]) < FirstIndex(p + [y], (d + [y])[j])
  {
    var s, e := p + [y], d + [y];
    assert FirstIndex(s, y) == |p| by {
      var k := FirstIndex(s, y);
      assert k < |s| && s[k] == y;
    }
    forall i | 0 <= i < |d| ensures FirstIndex(s, e[i]) == FirstIndex(p, d[i]) < |p| {
      assert e[i] == d[i];
      FirstIndexAppend(p, y, d[i]);
    }
    forall i, j | 0 <= i < j < |e| ensures FirstIndex(s, e[i]) < FirstIndex(s, e[j]) {
      if j == |d| {
        assert e[j] == y;
      }
    }
  }

  /** Deduplication keeps values in the order of their first occurrence in the scanned list. */
  lemma {:induction false} DedupFirstSeen<T>(s: seq<T>)
    ensures forall x :: x in Dedup(s) ==> x in s
    ensures forall i, j :: 0 <= i < j < |Dedup(s)| ==> FirstIndex(s, Dedup(s)[i]) < FirstIndex(s, Dedup(s)[j])
  {
    DedupMembers(s);
    if s != [] {
      var p, y := s[..|s| - 1], s[|s| - 1];
      assert s == p + [y];
      DedupFirstSeen(p);
      var d := Dedup(p);
      if y !in p {
        assert Dedup(s) == d + [y];
        FirstSeenPush(p, y, d);
      } else {
        assert Dedup(s) == d;
        forall x | x in p ensures FirstIndex(s, x) == FirstIndex(p, x) {
          FirstIndexAppend(p, y, x);
        }
      }
    }
  }

  // ---------------------------------------------------------------------
  // assign*/create/update: `findBy({ id: In(ids) })` returns the distinct
  // existing rows among the listed ids.
  // ---------------------------------------------------------------------

  /** The ids in `ids` that name an existing record: the rows `findBy(In(ids))` returns. */
  function Found(ids: seq<Id>, keys: set<Id>): set<Id>
  {
    set x | x in ids && x in keys
  }

  lemma {:induction false} ElemsCount<T>(s: seq<T>)
    ensures |Elems(s)| <= |s|
    ensures |Elems(s)| == |s| <==> NoDup(s)
  {
    if s != [] {
      var t := s[1..];
      ElemsCount(t);
      assert Elems(s) == {s[0]} + Elems(t);
      if s[0] in t {
        assert Elems(s) == Elems(t);
        var k :| 0 <= k < |t| && t[k] == s[0];
        assert s[k + 1] == s[0];
      } else {
        assert |Elems(s)| == |Elems(t)| + 1;
        if NoDup(t) {
          forall i, j | 0 <= i < j < |s| ensures s[i] != s[j] {
            assert s[j] == t[j - 1];
            if i > 0 { assert s[i] == t[i - 1]; }
          }
        }
        if NoDup(s) {
          forall i, j | 0 <= i < j < |t| ensures t[i] != t[j] {
            assert t[i] == s[i + 1] && t[j] == s[j + 1];
          }
        }
      }
    }
  }

  /**
   * The found-count test of assign*: as many rows as listed ids are found
   * exactly when the list has no repeats and every listed id exists.
   */
  lemma FoundCountIff(ids: seq<Id>, keys: set<Id>)
    ensures |Found(ids, keys)| <= |ids|
    ensures |Found(ids, keys)| == |ids| <==> NoDup(ids) && forall x :: x in ids ==> x in keys
  {
    var f, e := Found(ids, keys), Elems(ids);
    ElemsCount(ids);
    assert f <= e;
    assert |e - f| == |e| - |f|;
    if |f| == |ids| {
      assert e - f == {};
      forall x | x in ids ensures x in keys {
        assert x in e;
      }
    }
    if NoDup(ids) && forall x :: x in ids ==> x in keys {
      assert f == e;
    }
  }

  /** The ids of `ids` that exist, each once, in first-listed order. */
  function Keep(ids: seq<Id>, keys: set<Id>): (r: seq<Id>)
    ensures forall x :: x in r <==> x in ids && x in keys
  {
    if ids == [] then []
    else if ids[0] in keys then [ids[0]] + Keep(ids[1..], keys)
    else Keep(ids[1..], keys)
  }

  lemma {:induction false} KeepAll(ids: seq<Id>, keys: set<Id>)
    requires forall x :: x in ids ==> x in keys
    ensures Keep(ids, keys) == ids
  {
    if ids != [] {
      KeepAll(ids[1..], keys);
    }
  }

  /**
   * The edge list that create/update store when they load `findBy(In(ids))`:
   * unknown ids are dropped silently and repeats collapse.
   */
  function Present(ids: seq<Id>, keys: set<Id>): (r: seq<Id>)
    ensures WellFormed(r, keys)
    ensures Elems(r) == Found(ids, keys)
  {
    var k := Keep(ids, keys);
    DedupMembers(k);
    DedupNoDup(k);
    Dedup(k)
  }

  /** When every id exists and none repeats, the loaded list is the requested one. */
  lemma PresentExact(ids: seq<Id>, keys: set<Id>)
    requires WellFormed(ids, keys)
    ensures Present(ids, keys) == ids
  {
    KeepAll(ids, keys);
    DedupOfNoDup(ids);
  }
}
