/** The recency index of the session store: entries kept sorted by last-opened time, newest first. */
module SessionIndexes {
  import opened Sequences

  datatype IndexEntry = IndexEntry(name: string, lastOpened: nat)

  predicate DistinctNames(s: seq<IndexEntry>) {
    forall i, j | 0 <= i < j < |s| :: s[i].name != s[j].name
  }

  predicate NewestFirst(s: seq<IndexEntry>) {
    forall i, j | 0 <= i < j < |s| :: s[i].lastOpened >= s[j].lastOpened
  }

  predicate HasName(s: seq<IndexEntry>, name: string) {
    exists i | 0 <= i < |s| :: s[i].name == name
  }

  /** A stable descending sort. */
  function Insert(e: IndexEntry, s: seq<IndexEntry>): seq<IndexEntry> {
    if s == [] || e.lastOpened >= s[0].lastOpened then [e] + s else [s[0]] + Insert(e, s[1..])
  }

  function SortNewestFirst(s: seq<IndexEntry>): seq<IndexEntry> {
    if s == [] then [] else Insert(s[0], SortNewestFirst(s[1..]))
  }

  lemma {:induction false} InsertKeeps(e: IndexEntry, s: seq<IndexEntry>)
    ensures multiset(Insert(e, s)) == multiset(s) + multiset{e}
  {
    if s != [] {
      assert s == [s[0]] + s[1..];
      if e.lastOpened < s[0].lastOpened {
        InsertKeeps(e, s[1..]);
      }
    }
  }

  lemma {:induction false} InsertSorts(e: IndexEntry, s: seq<IndexEntry>)
    requires NewestFirst(s)
    ensures NewestFirst(Insert(e, s))
    ensures multiset(Insert(e, s)) == multiset(s) + multiset{e}
  {
    InsertKeeps(e, s);
    if s != [] && e.lastOpened < s[0].lastOpened {
      InsertSorts(e, s[1..]);
      NewestInFront(s[0], e, s[1..], Insert(e, s[1..]));
    }
  }

  lemma NewestInFront(first: IndexEntry, e: IndexEntry, rest: seq<IndexEntry>, r: seq<IndexEntry>)
    requires NewestFirst([first] + rest) && e.lastOpened < first.lastOpened
    requires NewestFirst(r) && multiset(r) == multiset(rest) + multiset{e}
    ensures NewestFirst([first] + r)
  {
    forall i | 0 <= i < |r|
      ensures r[i].lastOpened <= first.lastOpened
    {
      assert r[i] in multiset(r);
      if r[i] != e {
        assert r[i] in multiset(rest);
        var j :| 0 <= j < |rest| && rest[j] == r[i];
        assert ([first] + rest)[0] == first && ([first] + rest)[j + 1] == r[i];
      }
    }
  }

  lemma {:induction false} SortSorts(s: seq<IndexEntry>)
    ensures NewestFirst(SortNewestFirst(s))
    ensures multiset(SortNewestFirst(s)) == multiset(s)
  {
    if s != [] {
      SortSorts(s[1..]);
      InsertSorts(s[0], SortNewestFirst(s[1..]));
      assert s == [s[0]] + s[1..];
    }
  }

  /** The entries of one timestamp, in order. */
  function At(s: seq<IndexEntry>, t: nat): seq<IndexEntry> {
    if s == [] then [] else (if s[0].lastOpened == t then [s[0]] else []) + At(s[1..], t)
  }

  lemma {:induction false} InsertIsStable(e: IndexEntry, s: seq<IndexEntry>, t: nat)
    requires NewestFirst(s)
    ensures At(Insert(e, s), t) == At([e] + s, t)
  {
    if s != [] && e.lastOpened < s[0].lastOpened {
      InsertIsStable(e, s[1..], t);
      assert ([e] + s)[1..] == s && ([e] + s[1..])[1..] == s[1..];
      NothingAbove(s[1..], s[0].lastOpened, e, t);
    }
  }

  lemma NothingAbove(s: seq<IndexEntry>, top: nat, e: IndexEntry, t: nat)
    requires e.lastOpened < top
    ensures t == top ==> At([e] + s, t) == At(s, t)
  {
    assert ([e] + s)[1..] == s;
  }

  /** Sorting keeps entries with the same timestamp in their order. */
  lemma {:induction false} SortIsStable(s: seq<IndexEntry>, t: nat)
    ensures At(SortNewestFirst(s), t) == At(s, t)
  {
    if s != [] {
      SortIsStable(s[1..], t);
      SortSorts(s[1..]);
      InsertIsStable(s[0], SortNewestFirst(s[1..]), t);
      assert ([s[0]] + SortNewestFirst(s[1..]))[1..] == SortNewestFirst(s[1..]);
    }
  }

  lemma NamesSurvivePermutation(s: seq<IndexEntry>, r: seq<IndexEntry>)
    requires multiset(s) == multiset(r) && DistinctNames(s)
    ensures DistinctNames(r) && forall e :: e in r <==> e in s
  {
    assert forall e :: e in r <==> e in multiset(r);
    assert forall e :: e in s <==> e in multiset(s);
    forall i, j | 0 <= i < j < |r|
      ensures r[i].name != r[j].name
    {
      if r[i] == r[j] {
        TwiceInMultiset(r, i, j);
        OnceInMultiset(s, r[i]);
      }
      assert r[i] in s && r[j] in s;
    }
  }

  lemma TwiceInMultiset(r: seq<IndexEntry>, i: nat, j: nat)
    requires i < j < |r| && r[i] == r[j]
    ensures multiset(r)[r[i]] >= 2
  {
    assert r == r[..j] + ([r[j]] + r[j + 1..]);
    assert r[i] == r[..j][i] && r[i] in multiset(r[..j]);
  }

  lemma {:induction false} OnceInMultiset(s: seq<IndexEntry>, e: IndexEntry)
    requires DistinctNames(s)
    ensures multiset(s)[e] <= 1
  {
    if s != [] {
      assert s == [s[0]] + s[1..];
      OnceInMultiset(s[1..], e);
      assert forall k | 0 <= k < |s[1..]| :: s[1..][k] != s[0];
    }
  }

  function Position(s: seq<IndexEntry>, name: string): (i: nat)
    ensures i <= |s| && (i < |s| ==> s[i].name == name) && forall j | 0 <= j < i :: s[j].name != name
  {
    if s == [] || s[0].name == name then 0 else 1 + Position(s[1..], name)
  }

  function Put(s: seq<IndexEntry>, name: string, now: nat): seq<IndexEntry> {
    var i := Position(s, name);
    if i < |s| then s[i := IndexEntry(name, now)] else s + [IndexEntry(name, now)]
  }

  function Touched(s: seq<IndexEntry>, name: string, now: nat): seq<IndexEntry> {
    SortNewestFirst(Put(s, name, now))
  }

  function Without(s: seq<IndexEntry>, name: string): (r: seq<IndexEntry>)
    ensures forall e :: e in r <==> e in s && e.name != name
  {
    if s == [] then [] else (if s[0].name == name then [] else [s[0]]) + Without(s[1..], name)
  }

  function Renamed(s: seq<IndexEntry>, from: string, to: string): seq<IndexEntry> {
    var i := Position(s, from);
    if i < |s| then s[i := s[i].(name := to)] else s
  }

  /** Touching makes `name` current and leaves every other entry, one entry a name, newest first. */
  lemma TouchedEntries(s: seq<IndexEntry>, name: string, now: nat)
    requires DistinctNames(s)
    ensures var r := Touched(s, name, now);
      && DistinctNames(r) && NewestFirst(r)
      && forall e :: e in r <==> e == IndexEntry(name, now) || (e in s && e.name != name)
  {
    var p, i := Put(s, name, now), Position(s, name);
    SortSorts(p);
    NamesSurvivePermutation(p, SortNewestFirst(p));
    forall e
      ensures e in p <==> e == IndexEntry(name, now) || (e in s && e.name != name)
    {
      if e in s && e.name != name {
        var k :| 0 <= k < |s| && s[k] == e;
        assert p[k] == e;
      }
      if e == IndexEntry(name, now) {
        assert p[i] == e;
      }
    }
  }

  lemma {:induction false} WithoutKeepsNames(s: seq<IndexEntry>, name: string)
    requires DistinctNames(s)
    ensures DistinctNames(Without(s, name))
  {
    if s != [] {
      WithoutKeepsNames(s[1..], name);
      var r := Without(s[1..], name);
      forall i | 0 <= i < |r|
        ensures r[i].name != s[0].name
      {
        assert r[i] in s[1..];
      }
    }
  }

  lemma {:induction false} WithoutKeepsOrder(s: seq<IndexEntry>, name: string)
    requires NewestFirst(s)
    ensures NewestFirst(Without(s, name))
  {
    if s != [] {
      WithoutKeepsOrder(s[1..], name);
      var r := Without(s[1..], name);
      forall i | 0 <= i < |r|
        ensures r[i].lastOpened <= s[0].lastOpened
      {
        assert r[i] in s[1..];
      }
    }
  }

  lemma RenamedEntries(s: seq<IndexEntry>, from: string, to: string)
    requires DistinctNames(s) && !HasName(s, to)
    ensures var r := Renamed(s, from, to);
      && DistinctNames(r) && (NewestFirst(s) ==> NewestFirst(r))
      && forall e :: e in r <==> (e in s && e.name != from) || (e.name == to && IndexEntry(from, e.lastOpened) in s)
  {
    var r, i := Renamed(s, from, to), Position(s, from);
    forall e
      ensures e in r <==> (e in s && e.name != from) || (e.name == to && IndexEntry(from, e.lastOpened) in s)
    {
      if e in s && e.name != from {
        var k :| 0 <= k < |s| && s[k] == e;
        assert r[k] == e;
      }
      if e.name == to && IndexEntry(from, e.lastOpened) in s {
        var k :| 0 <= k < |s| && s[k] == IndexEntry(from, e.lastOpened);
        assert k == i && r[i] == e;
      }
      if e in r {
        var k :| 0 <= k < |r| && r[k] == e;
        assert k != i ==> s[k] == e;
      }
    }
  }

  /** Two indexes with the same entries, newest first, and no two equal timestamps are the same list. */
  lemma {:induction false} SameEntriesSameList(s: seq<IndexEntry>, r: seq<IndexEntry>)
    requires DistinctNames(s) && DistinctNames(r) && NewestFirst(s) && NewestFirst(r)
    requires forall e :: e in s <==> e in r
    requires forall a, b | a in s && b in s && a.lastOpened == b.lastOpened :: a == b
    ensures s == r
    decreases |s|
  {
    EmptyAlike(s, r);
    if s != [] {
      assert s[0] in r && r[0] in s;
      assert s[0] == r[0];
      assert s == [s[0]] + s[1..] && r == [r[0]] + r[1..];
      forall e
        ensures e in s[1..] <==> e in r[1..]
      {
        assert e in s[1..] <==> e in s && e != s[0];
        assert e in r[1..] <==> e in r && e != r[0];
      }
      SameEntriesSameList(s[1..], r[1..]);
    }
  }

  lemma EmptyAlike(s: seq<IndexEntry>, r: seq<IndexEntry>)
    requires forall e :: e in s <==> e in r
    ensures s == [] <==> r == []
  {
    if s != [] {
      assert s[0] in r;
    }
    if r != [] {
      assert r[0] in s;
    }
  }

  lemma {:induction false} WithoutAppend(s: seq<IndexEntry>, name: string, e: IndexEntry)
    ensures Without(s + [e], name) == Without(s, name) + if e.name != name then [e] else []
  {
    if s != [] {
      WithoutAppend(s[1..], name, e);
      assert (s + [e])[1..] == s[1..] + [e];
      Regroup(if s[0].name == name then [] else [s[0]], Without(s[1..], name), if e.name != name then [e] else []);
    }
  }

  lemma PositionUnique(s: seq<IndexEntry>, name: string, i: nat)
    requires i <= |s| && (i < |s| ==> s[i].name == name) && forall j | 0 <= j < i :: s[j].name != name
    ensures i == Position(s, name)
  {
  }

  class SessionIndex {
    var entries: seq<IndexEntry>

    constructor (entries: seq<IndexEntry>)
      ensures this.entries == entries
    {
      this.entries := entries;
    }

    method Find(name: string) returns (i: nat)
      ensures i == Position(entries, name)
    {
      i := 0;
      while i < |entries| && entries[i].name != name
        invariant i <= |entries| && forall j | 0 <= j < i :: entries[j].name != name
      {
        i := i + 1;
      }
      PositionUnique(entries, name, i);
    }

    method Touch(name: string, now: nat)
      modifies this
      ensures entries == Touched(old(entries), name, now)
    {
      var i := Find(name);
      if i < |entries| {
        entries := entries[i := entries[i].(lastOpened := now)];
      } else {
        entries := entries + [IndexEntry(name, now)];
      }
      entries := SortNewestFirst(entries);
    }

    method Remove(name: string)
      modifies this
      ensures entries == Without(old(entries), name)
    {
      var all, kept: seq<IndexEntry> := entries, [];
      for i := 0 to |all|
        invariant kept == Without(all[..i], name)
      {
        assert all[..i + 1] == all[..i] + [all[i]];
        WithoutAppend(all[..i], name, all[i]);
        if all[i].name != name {
          kept := kept + [all[i]];
        }
      }
      assert all[..|all|] == all;
      entries := kept;
    }

    method Rename(from: string, to: string)
      modifies this
      ensures entries == Renamed(old(entries), from, to)
    {
      var i := Find(from);
      if i < |entries| {
        entries := entries[i := entries[i].(name := to)];
      }
    }
  }
}
