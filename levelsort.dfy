/**
 * The ordering of the `!levelcheck` report: `entries.sort_by(|a, b|
 * b.1.cmp(&a.1))`, a stable sort on descending level. `SortedByLevel` is a
 * reference definition (insertion of each entry, in input order, after every
 * entry of at least its level); the lemmas show that it has exactly the
 * properties a stable descending sort promises: the levels descend, the
 * entries are a permutation of the input, and entries of equal level keep
 * their input order.
 */
module LevelSort {

  /** One report entry before rendering: character name, level and "<race> <class>". */
  datatype Entry = Entry(name: string, level: nat, desc: string)

  /** Levels never increase from one entry to a later one. */
  predicate Descending(s: seq<Entry>) {
    forall i, j :: 0 <= i < j < |s| ==> s[i].level >= s[j].level
  }

  /** The entries of `s` whose level is `l`, in their order in `s`. */
  function AtLevel(s: seq<Entry>, l: nat): (r: seq<Entry>)
    ensures |r| <= |s|
    ensures forall k :: 0 <= k < |r| ==> r[k].level == l
  {
    if s == [] then []
    else AtLevel(s[..|s| - 1], l) + (if s[|s| - 1].level == l then [s[|s| - 1]] else [])
  }

  /** Places `e` after every entry whose level is at least its own. */
  function Insert(s: seq<Entry>, e: Entry): (r: seq<Entry>)
    ensures |r| == |s| + 1
    ensures multiset(r) == multiset(s) + multiset{e}
  {
    if s == [] || s[0].level < e.level then [e] + s
    else
      assert s == [s[0]] + s[1..];
      [s[0]] + Insert(s[1..], e)
  }

  /** The result of the stable sort on descending level. */
  function SortedByLevel(s: seq<Entry>): (r: seq<Entry>)
    ensures |r| == |s|
    ensures multiset(r) == multiset(s)
  {
    if s == [] then []
    else
      assert s == s[..|s| - 1] + [s[|s| - 1]];
      Insert(SortedByLevel(s[..|s| - 1]), s[|s| - 1])
  }

  lemma {:induction false} AtLevelConcat(a: seq<Entry>, b: seq<Entry>, l: nat)
    ensures AtLevel(a + b, l) == AtLevel(a, l) + AtLevel(b, l)
  {
    if b == [] {
      assert a + b == a;
    } else {
      var last := b[|b| - 1];
      assert (a + b)[..|a + b| - 1] == a + b[..|b| - 1];
      assert (a + b)[|a + b| - 1] == last;
      AtLevelConcat(a, b[..|b| - 1], l);
    }
  }

  /** No entry of a sequence whose levels all differ from `l` is at level `l`. */
  lemma {:induction false} AtLevelAbsent(s: seq<Entry>, l: nat)
    requires forall i :: 0 <= i < |s| ==> s[i].level != l
    ensures AtLevel(s, l) == []
  {
    if s != [] {
      AtLevelAbsent(s[..|s| - 1], l);
    }
  }

  lemma {:induction false} InsertDescending(s: seq<Entry>, e: Entry)
    requires Descending(s)
    ensures Descending(Insert(s, e))
  {
    if s != [] && s[0].level >= e.level {
      InsertDescending(s[1..], e);
      var rest := Insert(s[1..], e);
      forall x | x in rest ensures s[0].level >= x.level {
        assert x in multiset(rest);
        assert x in multiset(s[1..]) || x == e;
      }
    }
  }

  /** Inserting `e` adds it after every entry of its own level and changes no other level. */
  lemma {:induction false} InsertAtLevel(s: seq<Entry>, e: Entry, l: nat)
    requires Descending(s)
    ensures AtLevel(Insert(s, e), l) == AtLevel(s, l) + (if e.level == l then [e] else [])
  {
    if s == [] {
      assert Insert(s, e) == [e];
      assert [e][..0] == [];
    } else if s[0].level < e.level {
      AtLevelConcat([e], s, l);
      assert [e][..0] == [];
      if e.level == l {
        AtLevelAbsent(s, l);
      }
    } else {
      InsertAtLevel(s[1..], e, l);
      InsertAtLevelBehind(s, e, l);
    }
  }

  /** The step of `InsertAtLevel` where `e` goes behind the first entry. */
  lemma InsertAtLevelBehind(s: seq<Entry>, e: Entry, l: nat)
    requires s != [] && s[0].level >= e.level
    requires AtLevel(Insert(s[1..], e), l) == AtLevel(s[1..], l) + (if e.level == l then [e] else [])
    ensures AtLevel(Insert(s, e), l) == AtLevel(s, l) + (if e.level == l then [e] else [])
  {
    var rest, extra := Insert(s[1..], e), if e.level == l then [e] else [];
    var head := AtLevel([s[0]], l);
    assert Insert(s, e) == [s[0]] + rest;
    AtLevelConcat([s[0]], rest, l);
    ConcatAssoc(head, AtLevel(s[1..], l), extra);
    AtLevelConcat([s[0]], s[1..], l);
    assert [s[0]] + s[1..] == s;
  }

  lemma ConcatAssoc<T>(a: seq<T>, b: seq<T>, c: seq<T>)
    ensures (a + b) + c == a + (b + c)
  {
  }

  /**
   * The sort's result is descending by level, a permutation of its input,
   * and keeps the input order among entries of equal level.
   */
  lemma {:induction false} SortedByLevelIsStableSort(s: seq<Entry>)
    ensures Descending(SortedByLevel(s))
    ensures multiset(SortedByLevel(s)) == multiset(s)
    ensures forall l: nat :: AtLevel(SortedByLevel(s), l) == AtLevel(s, l)
  {
    if s != [] {
      var init := s[..|s| - 1];
      SortedByLevelIsStableSort(init);
      InsertDescending(SortedByLevel(init), s[|s| - 1]);
      forall l: nat ensures AtLevel(SortedByLevel(s), l) == AtLevel(s, l) {
        InsertAtLevel(SortedByLevel(init), s[|s| - 1], l);
      }
    }
  }

  /**
   * Two descending sequences that hold the same entries of every level, in
   * the same order, are equal: whatever algorithm the standard library's
   * stable sort runs, its result is `SortedByLevel`.
   */
  lemma {:induction false} StableSortIsUnique(r1: seq<Entry>, r2: seq<Entry>)
    requires Descending(r1) && Descending(r2)
    requires forall l: nat :: AtLevel(r1, l) == AtLevel(r2, l)
    ensures r1 == r2
    decreases |r1|
  {
    if r2 != [] {
      NonEmptyAgrees(r2, r1);
    }
    if r1 != [] {
      NonEmptyAgrees(r1, r2);
    }
    if r1 != [] && r2 != [] {
      var x, y := r1[|r1| - 1], r2[|r2| - 1];
      var init1, init2 := r1[..|r1| - 1], r2[..|r2| - 1];
      LastLevelBound(r1, r2);
      LastLevelBound(r2, r1);
      forall l: nat ensures AtLevel(init1, l) == AtLevel(init2, l) {
        DropLast(r1, r2, l);
      }
      assert x == AtLevel(r1, x.level)[|AtLevel(r1, x.level)| - 1];
      StableSortIsUnique(init1, init2);
      SplitLast(r1);
      SplitLast(r2);
    }
  }

  /** A non-empty sequence has entries at the level of its last entry, and so has any sequence agreeing with it. */
  lemma NonEmptyAgrees(r1: seq<Entry>, r2: seq<Entry>)
    requires r1 != []
    requires forall l: nat :: AtLevel(r1, l) == AtLevel(r2, l)
    ensures r2 != []
  {
    var x := r1[|r1| - 1];
    assert AtLevel(r1, x.level) != [];
    assert AtLevel(r2, x.level) != [];
  }

  /** The last entry of a descending sequence is at a level no higher than the last one of any sequence agreeing with it. */
  lemma LastLevelBound(r1: seq<Entry>, r2: seq<Entry>)
    requires Descending(r1) && r1 != [] && r2 != []
    requires forall l: nat :: AtLevel(r1, l) == AtLevel(r2, l)
    ensures r1[|r1| - 1].level <= r2[|r2| - 1].level
  {
    var y := r2[|r2| - 1];
    var l: nat := y.level;
    assert AtLevel(r2, l) == AtLevel(r2[..|r2| - 1], l) + [y];
    assert AtLevel(r1, l) == AtLevel(r2, l);
    AtLevelNotBelowLast(r1, l);
  }

  /** A descending sequence has no entries below the level of its last one. */
  lemma {:induction false} AtLevelNotBelowLast(s: seq<Entry>, l: nat)
    requires Descending(s) && s != [] && AtLevel(s, l) != []
    ensures s[|s| - 1].level <= l
  {
    var init, last := s[..|s| - 1], s[|s| - 1];
    if last.level != l {
      assert AtLevel(s, l) == AtLevel(init, l) + [];
      assert init != [];
      AtLevelNotBelowLast(init, l);
      assert init[|init| - 1] == s[|s| - 2];
    }
  }

  /** Dropping equal last entries from two sequences that agree at level `l` keeps them agreeing. */
  lemma DropLast(r1: seq<Entry>, r2: seq<Entry>, l: nat)
    requires r1 != [] && r2 != [] && r1[|r1| - 1].level == r2[|r2| - 1].level
    requires AtLevel(r1, l) == AtLevel(r2, l)
    ensures AtLevel(r1[..|r1| - 1], l) == AtLevel(r2[..|r2| - 1], l)
  {
    var x, y := r1[|r1| - 1], r2[|r2| - 1];
    var a1, a2 := AtLevel(r1[..|r1| - 1], l), AtLevel(r2[..|r2| - 1], l);
    if x.level == l {
      assert a1 + [x] == a2 + [y];
      SnocCancel(a1, a2, x, y);
    } else {
      assert AtLevel(r1, l) == a1 + [] && AtLevel(r2, l) == a2 + [];
      assert a1 + [] == a1 && a2 + [] == a2;
    }
  }

  lemma SplitLast<T>(r: seq<T>)
    requires r != []
    ensures r == r[..|r| - 1] + [r[|r| - 1]]
  {
  }

  lemma SnocCancel<T>(a: seq<T>, b: seq<T>, x: T, y: T)
    requires a + [x] == b + [y]
    ensures a == b && x == y
  {
    assert a == (a + [x])[..|a|];
    assert b == (b + [y])[..|b|];
  }

  /** Any stable descending sort of `s` yields exactly `SortedByLevel(s)`. */
  lemma SortedByLevelIsTheStableSort(s: seq<Entry>, r: seq<Entry>)
    requires Descending(r)
    requires forall l: nat :: AtLevel(r, l) == AtLevel(s, l)
    ensures r == SortedByLevel(s)
  {
    SortedByLevelIsStableSort(s);
    StableSortIsUnique(r, SortedByLevel(s));
  }

  /** Three entries whose levels are low, high and middle, in that order, are reported high, middle, low. */
  lemma SortThree(a: Entry, b: Entry, c: Entry)
    requires a.level < c.level < b.level
    ensures SortedByLevel([a, b, c]) == [b, c, a]
  {
    assert [a, b, c][..2] == [a, b] && [a, b][..1] == [a] && [a][..0] == [];
    assert SortedByLevel([a]) == Insert([], a) == [a];
    assert SortedByLevel([a, b]) == Insert([a], b) == [b, a];
    assert [b, a][1..] == [a];
    assert Insert([b, a], c) == [b] + Insert([a], c) == [b, c, a];
  }

  /** Three characters at levels 10, 40 and 25 are reported as 40, 25, 10. */
  lemma SortExample()
    ensures SortedByLevel([Entry("a", 10, ""), Entry("b", 40, ""), Entry("c", 25, "")])
         == [Entry("b", 40, ""), Entry("c", 25, ""), Entry("a", 10, "")]
  {
    SortThree(Entry("a", 10, ""), Entry("b", 40, ""), Entry("c", 25, ""));
  }

  /** Two characters of the same level keep their input order. */
  lemma TieExample()
    ensures SortedByLevel([Entry("a", 25, ""), Entry("b", 25, "")]) == [Entry("a", 25, ""), Entry("b", 25, "")]
  {
    var s := [Entry("a", 25, ""), Entry("b", 25, "")];
    assert s[..1] == [Entry("a", 25, "")];
  }
}
