/** The order the sub-tree queries sort their rows in, `OrderBy(Level).ThenBy(Title)`, and what
    the recursive closure functions of the database return, as far as the repositories rely on it.
    Titles are compared ordinally, character code by character code. */
module Hierarchy {
  import opened Common
  import opened Sequences
  import opened PositionModels

  /** Ordinal string order: a proper prefix comes first, otherwise the first differing character decides. */
  predicate TitleLe(a: string, b: string)
  {
    if a == [] then true
    else if b == [] then false
    else a[0] < b[0] || (a[0] == b[0] && TitleLe(a[1..], b[1..]))
  }

  lemma {:induction false} TitleLeTotal(a: string, b: string)
    ensures TitleLe(a, b) || TitleLe(b, a)
  {
    if a != [] && b != [] && a[0] == b[0] {
      TitleLeTotal(a[1..], b[1..]);
    }
  }

  lemma {:induction false} TitleLeTransitive(a: string, b: string, c: string)
    requires TitleLe(a, b) && TitleLe(b, c)
    ensures TitleLe(a, c)
  {
    if a != [] && b != [] && c != [] && a[0] == b[0] == c[0] {
      TitleLeTransitive(a[1..], b[1..], c[1..]);
    }
  }

  lemma {:induction false} TitleLeAntisymmetric(a: string, b: string)
    requires TitleLe(a, b) && TitleLe(b, a)
    ensures a == b
  {
    if a != [] && b != [] {
      TitleLeAntisymmetric(a[1..], b[1..]);
      assert a == [a[0]] + a[1..];
      assert b == [b[0]] + b[1..];
    }
  }

  /** Level first, then title. */
  predicate LevelTitleLe(level1: int, title1: string, level2: int, title2: string)
  {
    level1 < level2 || (level1 == level2 && TitleLe(title1, title2))
  }

  lemma LevelTitleLeIsTotalOrder(l1: int, t1: string, l2: int, t2: string, l3: int, t3: string)
    ensures LevelTitleLe(l1, t1, l2, t2) || LevelTitleLe(l2, t2, l1, t1)
    ensures LevelTitleLe(l1, t1, l2, t2) && LevelTitleLe(l2, t2, l3, t3) ==> LevelTitleLe(l1, t1, l3, t3)
    ensures LevelTitleLe(l1, t1, l2, t2) && LevelTitleLe(l2, t2, l1, t1) ==> l1 == l2 && t1 == t2
  {
    TitleLeTotal(t1, t2);
    if LevelTitleLe(l1, t1, l2, t2) && LevelTitleLe(l2, t2, l3, t3) && l1 == l2 == l3 {
      TitleLeTransitive(t1, t2, t3);
    }
    if LevelTitleLe(l1, t1, l2, t2) && LevelTitleLe(l2, t2, l1, t1) {
      TitleLeAntisymmetric(t1, t2);
    }
  }

  predicate HierarchyLe(x: PositionHierarchyDb, y: PositionHierarchyDb)
  {
    LevelTitleLe(x.level, x.title, y.level, y.title)
  }

  predicate HierarchyWithEmployeeLe(x: PositionHierarchyWithEmployeeIdDb, y: PositionHierarchyWithEmployeeIdDb)
  {
    LevelTitleLe(x.level, x.title, y.level, y.title)
  }

  lemma HierarchyLeIsTotalPreorder()
    ensures IsTotal(HierarchyLe) && IsTransitive(HierarchyLe)
  {
    forall x: PositionHierarchyDb, y: PositionHierarchyDb
      ensures HierarchyLe(x, y) || HierarchyLe(y, x)
    {
      LevelTitleLeIsTotalOrder(x.level, x.title, y.level, y.title, x.level, x.title);
    }
    forall x: PositionHierarchyDb, y: PositionHierarchyDb, z: PositionHierarchyDb
      | HierarchyLe(x, y) && HierarchyLe(y, z)
      ensures HierarchyLe(x, z)
    {
      LevelTitleLeIsTotalOrder(x.level, x.title, y.level, y.title, z.level, z.title);
    }
  }

  lemma HierarchyWithEmployeeLeIsTotalPreorder()
    ensures IsTotal(HierarchyWithEmployeeLe) && IsTransitive(HierarchyWithEmployeeLe)
  {
    forall x: PositionHierarchyWithEmployeeIdDb, y: PositionHierarchyWithEmployeeIdDb
      ensures HierarchyWithEmployeeLe(x, y) || HierarchyWithEmployeeLe(y, x)
    {
      LevelTitleLeIsTotalOrder(x.level, x.title, y.level, y.title, x.level, x.title);
    }
    forall x: PositionHierarchyWithEmployeeIdDb, y: PositionHierarchyWithEmployeeIdDb, z: PositionHierarchyWithEmployeeIdDb
      | HierarchyWithEmployeeLe(x, y) && HierarchyWithEmployeeLe(y, z)
      ensures HierarchyWithEmployeeLe(x, z)
    {
      LevelTitleLeIsTotalOrder(x.level, x.title, y.level, y.title, z.level, z.title);
    }
  }

  /** `OrderBy(x => x.Level).ThenBy(x => x.Title)` over sub-tree rows. */
  function OrderByLevelThenTitle(rows: seq<PositionHierarchyDb>): (r: seq<PositionHierarchyDb>)
    ensures multiset(r) == multiset(rows)
    ensures forall i, j :: 0 <= i < j < |r| ==> r[i].level <= r[j].level
    ensures forall i, j :: 0 <= i < j < |r| && r[i].level == r[j].level ==> TitleLe(r[i].title, r[j].title)
  {
    HierarchyLeIsTotalPreorder();
    var r := SortBy(rows, HierarchyLe);
    assert forall i, j :: 0 <= i < j < |r| ==> HierarchyLe(r[i], r[j]);
    r
  }

  /** The same order over current-subordinate rows, which also carry the holder's employee id. */
  function OrderWithEmployeeByLevelThenTitle(rows: seq<PositionHierarchyWithEmployeeIdDb>)
    : (r: seq<PositionHierarchyWithEmployeeIdDb>)
    ensures multiset(r) == multiset(rows)
    ensures forall i, j :: 0 <= i < j < |r| ==> r[i].level <= r[j].level
    ensures forall i, j :: 0 <= i < j < |r| && r[i].level == r[j].level ==> TitleLe(r[i].title, r[j].title)
  {
    HierarchyWithEmployeeLeIsTotalPreorder();
    var r := SortBy(rows, HierarchyWithEmployeeLe);
    assert forall i, j :: 0 <= i < j < |r| ==> HierarchyWithEmployeeLe(r[i], r[j]);
    r
  }

  /** `Select(x => x.EmployeeId)` over current-subordinate rows: the holders of the positions. */
  function HolderIds(rows: seq<PositionHierarchyWithEmployeeIdDb>): (r: seq<Guid>)
    ensures |r| == |rows|
    ensures forall e :: e in r <==> exists i :: 0 <= i < |rows| && rows[i].employeeId == e
  {
    Map(rows, (x: PositionHierarchyWithEmployeeIdDb) => x.employeeId)
  }

  /** No two rows share both level and title. */
  predicate DistinctLevelTitles(rows: seq<PositionHierarchyDb>)
  {
    forall i, j :: (0 <= i < |rows| && 0 <= j < |rows| && rows[i].level == rows[j].level
                    && rows[i].title == rows[j].title) ==> rows[i] == rows[j]
  }

  /** When no two rows share both level and title, the order is fully determined: any sequence
      with the same rows in level-then-title order is the query's output. */
  lemma {:induction false} OrderIsDetermined(rows: seq<PositionHierarchyDb>, expected: seq<PositionHierarchyDb>)
    requires DistinctLevelTitles(rows)
    requires multiset(expected) == multiset(rows)
    requires forall i, j :: 0 <= i < j < |expected| ==> HierarchyLe(expected[i], expected[j])
    ensures OrderByLevelThenTitle(rows) == expected
  {
    var r := OrderByLevelThenTitle(rows);
    forall x, y | x in r && y in r && HierarchyLe(x, y) && HierarchyLe(y, x)
      ensures x == y
    {
      assert x in multiset(rows) && y in multiset(rows);
      LevelTitleLeIsTotalOrder(x.level, x.title, y.level, y.title, x.level, x.title);
    }
    forall i, j | 0 <= i < j < |r| ensures HierarchyLe(r[i], r[j]) {
      if r[i].level == r[j].level {
        assert TitleLe(r[i].title, r[j].title);
      }
    }
    SortedUnique(r, expected, HierarchyLe);
  }

  /** What the tests fix about `GetSubordinatesById(head)`: the head is the one row at level 0,
      no level is negative, and every deeper row hangs under a row one level up. The recursion
      itself is not part of this model. */
  ghost predicate IsSubtreeOf(rows: seq<PositionHierarchyDb>, head: Guid)
  {
    (exists i :: 0 <= i < |rows| && rows[i].positionId == head && rows[i].level == 0)
    && (forall i :: 0 <= i < |rows| ==> rows[i].level >= 0)
    && (forall i :: 0 <= i < |rows| && rows[i].level == 0 ==> rows[i].positionId == head)
    && (forall i :: 0 <= i < |rows| && rows[i].level > 0 ==>
          exists j :: 0 <= j < |rows| && rows[j].level == rows[i].level - 1
                      && rows[i].parentId == Some(rows[j].positionId))
  }

  /** In a sub-tree the level-0 row sorts first. */
  lemma {:induction false} HeadSortsFirst(rows: seq<PositionHierarchyDb>, head: Guid)
    requires IsSubtreeOf(rows, head)
    ensures var r := OrderByLevelThenTitle(rows); |r| > 0 && r[0].positionId == head && r[0].level == 0
  {
    var r := OrderByLevelThenTitle(rows);
    var i :| 0 <= i < |rows| && rows[i].positionId == head && rows[i].level == 0;
    assert rows[i] in multiset(r);
    var k :| 0 <= k < |r| && r[k] == rows[i];
    assert r[0].level <= r[k].level;
    assert r[0] in multiset(rows);
    var m :| 0 <= m < |rows| && rows[m] == r[0];
  }

  /** The rows one level below the head are its direct children. */
  lemma ChildrenHangUnderHead(rows: seq<PositionHierarchyDb>, head: Guid, i: int)
    requires IsSubtreeOf(rows, head)
    requires 0 <= i < |rows| && rows[i].level == 1
    ensures rows[i].parentId == Some(head)
  {
  }
}
