/** The rows of the usage table with the rows below them: a user with the models used, a model with its
    users. */
module UsageViews {
  import opened Pricing
  import opened Retention

  function ParentOf(r: Row, byUser: bool): string { if byUser then r.user else r.model }
  function ChildOf(r: Row, byUser: bool): string { if byUser then r.model else r.user }

  /** The rows of one parent, as they come. */
  function RowsOf(rows: seq<Row>, byUser: bool, parent: string): seq<Row> {
    if rows == [] then []
    else
      var init, last := RowsOf(rows[..|rows| - 1], byUser, parent), rows[|rows| - 1];
      if ParentOf(last, byUser) == parent then init + [last] else init
  }

  // ---- the order of children ----

  predicate NameLess(a: string, b: string) {
    if b == [] then false else if a == [] then true
    else if a[0] != b[0] then a[0] < b[0] else NameLess(a[1..], b[1..])
  }

  lemma {:induction false} NamesAreOrdered(a: string, b: string, c: string)
    ensures NameLess(a, b) && NameLess(b, c) ==> NameLess(a, c)
    ensures a == b || NameLess(a, b) || NameLess(b, a)
    ensures !(NameLess(a, b) && NameLess(b, a))
  {
    if a == [] || b == [] || c == [] {
      if a != [] && b != [] {
        NamesAreOrdered(a[1..], b[1..], c);
        assert a == [a[0]] + a[1..] && b == [b[0]] + b[1..];
      }
    } else {
      NamesAreOrdered(a[1..], b[1..], c[1..]);
      assert a == [a[0]] + a[1..] && b == [b[0]] + b[1..];
    }
  }

  /** More tokens first; as many, by name. Tokens are input and output, without what came from the cache. */
  predicate Before(a: Row, b: Row, byUser: bool) {
    var x, y := a.used.input + a.used.output, b.used.input + b.used.output;
    x > y || (x == y && NameLess(ChildOf(a, byUser), ChildOf(b, byUser)))
  }

  ghost predicate Ranked(rows: seq<Row>, byUser: bool) {
    forall i, j | 0 <= i < j < |rows| :: !Before(rows[j], rows[i], byUser)
  }

  /** Names compare at the first character in which they differ; a name comes before its continuations. */
  lemma {:induction false} NamesCompareAtTheirDifference(start: string, a: string, b: string)
    ensures NameLess(start + a, start + b) <==> NameLess(a, b)
    ensures a != "" && b != "" && a[0] < b[0] ==> NameLess(start + a, start + b) && !NameLess(start + b, start + a)
    ensures b != "" ==> NameLess(start, start + b) && !NameLess(start + b, start)
  {
    if start == "" {
      assert start + a == a && start + b == b;
    } else {
      NamesCompareAtTheirDifference(start[1..], a, b);
      assert (start + a)[1..] == start[1..] + a && (start + b)[1..] == start[1..] + b;
      if b != "" { NamesCompareAtTheirDifference(start[1..], b, a); }
    }
  }

  /** In a ranking whoever has more input and output tokens comes first, and of equals the smaller name. */
  lemma RankedByTokensThenName(rows: seq<Row>, byUser: bool, i: nat, j: nat)
    requires Ranked(rows, byUser) && i < j < |rows|
    ensures var x, y := rows[i].used.input + rows[i].used.output, rows[j].used.input + rows[j].used.output;
            x > y || (x == y && !(if byUser then NameLess(rows[j].model, rows[i].model)
                                  else NameLess(rows[j].user, rows[i].user)))
  {
    hide NameLess;
  }

  function InsertRow(r: Row, rows: seq<Row>, byUser: bool): seq<Row> {
    if rows == [] then [r]
    else if Before(rows[0], r, byUser) then [rows[0]] + InsertRow(r, rows[1..], byUser)
    else [r] + rows
  }

  function SortRows(rows: seq<Row>, byUser: bool): seq<Row> {
    if rows == [] then [] else InsertRow(rows[0], SortRows(rows[1..], byUser), byUser)
  }

  lemma NotBeforeChains(a: Row, b: Row, c: Row, byUser: bool)
    requires !Before(b, a, byUser) && !Before(c, b, byUser)
    ensures !Before(c, a, byUser)
  {
    var x, y, z := ChildOf(a, byUser), ChildOf(b, byUser), ChildOf(c, byUser);
    NamesAreOrdered(z, x, y);
    NamesAreOrdered(x, y, z);
    NamesAreOrdered(y, z, x);
  }

  lemma BeforeIsOneWay(a: Row, b: Row, byUser: bool)
    requires Before(a, b, byUser)
    ensures !Before(b, a, byUser)
  {
    NamesAreOrdered(ChildOf(a, byUser), ChildOf(b, byUser), []);
  }

  lemma ConsRanked(head: Row, rest: seq<Row>, byUser: bool)
    requires Ranked(rest, byUser) && forall r | r in rest :: !Before(r, head, byUser)
    ensures Ranked([head] + rest, byUser)
  {
  }

  lemma TailFollows(head: Row, tail: seq<Row>, rest: seq<Row>, r: Row, byUser: bool)
    requires Ranked([head] + tail, byUser) && !Before(r, head, byUser) && multiset(rest) == multiset(tail) + multiset{r}
    ensures forall x | x in rest :: !Before(x, head, byUser)
  {
    hide Before;
    var all := [head] + tail;
    forall x | x in rest ensures !Before(x, head, byUser) {
      assert x in multiset(rest);
      assert x == r || x in tail;
      if x in tail {
        var i :| 0 <= i < |tail| && tail[i] == x;
        assert all[0] == head && all[i + 1] == x;
      }
    }
  }

  lemma {:induction false} InsertKeepsRank(r: Row, rows: seq<Row>, byUser: bool)
    requires Ranked(rows, byUser)
    ensures Ranked(InsertRow(r, rows, byUser), byUser)
    ensures multiset(InsertRow(r, rows, byUser)) == multiset(rows) + multiset{r}
  {
    hide Before;
    if rows == [] {
    } else {
      var head, tail := rows[0], rows[1..];
      assert rows == [head] + tail;
      if Before(head, r, byUser) {
        InsertKeepsRank(r, tail, byUser);
        BeforeIsOneWay(head, r, byUser);
        TailFollows(head, tail, InsertRow(r, tail, byUser), r, byUser);
        ConsRanked(head, InsertRow(r, tail, byUser), byUser);
      } else {
        forall x | x in rows ensures !Before(x, r, byUser) {
          if x != head { NotBeforeChains(r, head, x, byUser); }
        }
        ConsRanked(r, rows, byUser);
      }
    }
  }

  lemma {:induction false} SortedRows(rows: seq<Row>, byUser: bool)
    ensures Ranked(SortRows(rows, byUser), byUser) && multiset(SortRows(rows, byUser)) == multiset(rows)
  {
    hide Before;
    if rows == [] {
    } else {
      assert rows == [rows[0]] + rows[1..];
      SortedRows(rows[1..], byUser);
      InsertKeepsRank(rows[0], SortRows(rows[1..], byUser), byUser);
    }
  }

  // ---- grouping ----

  type Groups = map<string, seq<Row>>

  /** There is a group for a parent exactly if it has a row, and the group is exactly its rows, ranked. */
  ghost predicate IsGrouping(rows: seq<Row>, byUser: bool, groups: Groups) {
    && (forall parent :: parent in groups <==> exists r | r in rows :: ParentOf(r, byUser) == parent)
    && (forall parent | parent in groups ::
          multiset(groups[parent]) == multiset(RowsOf(rows, byUser, parent)) && Ranked(groups[parent], byUser))
  }

  lemma {:induction false} RowsOfFacts(rows: seq<Row>, byUser: bool, parent: string)
    ensures forall r :: r in RowsOf(rows, byUser, parent) <==> r in rows && ParentOf(r, byUser) == parent
  {
    if rows == [] {
    } else {
      RowsOfFacts(rows[..|rows| - 1], byUser, parent);
      assert rows == rows[..|rows| - 1] + [rows[|rows| - 1]];
    }
  }

  lemma RowsOfGrows(rows: seq<Row>, byUser: bool, r: Row)
    ensures forall parent ::
              RowsOf(rows + [r], byUser, parent)
              == if ParentOf(r, byUser) != parent then RowsOf(rows, byUser, parent)
                 else RowsOf(rows, byUser, parent) + [r]
  {
    assert (rows + [r])[..|rows|] == rows;
  }

  /** Every row goes under its parent, and under no other. */
  method GroupChildren(rows: seq<Row>, byUser: bool) returns (groups: Groups)
    ensures IsGrouping(rows, byUser, groups)
  {
    hide RowsOf, SortRows, Ranked, ParentOf;
    groups := map[];
    assert forall parent :: RowsOf(rows[..0], byUser, parent) == [] by { NoRows(byUser); }
    for i := 0 to |rows|
      invariant forall parent :: parent in groups <==> RowsOf(rows[..i], byUser, parent) != []
      invariant forall parent | parent in groups :: groups[parent] == RowsOf(rows[..i], byUser, parent)
    {
      assert rows[..i + 1] == rows[..i] + [rows[i]];
      RowsOfGrows(rows[..i], byUser, rows[i]);
      var parent := ParentOf(rows[i], byUser);
      var list := if parent in groups then groups[parent] else [];
      groups := groups[parent := list + [rows[i]]];
    }
    assert rows[..|rows|] == rows;
    groups := map parent | parent in groups :: SortRows(groups[parent], byUser);
    forall parent ensures parent in groups <==> exists r | r in rows :: ParentOf(r, byUser) == parent {
      HasRows(rows, byUser, parent);
    }
    forall parent | parent in groups { SortedRows(RowsOf(rows, byUser, parent), byUser); }
  }

  lemma NoRows(byUser: bool)
    ensures forall parent :: RowsOf([], byUser, parent) == []
  {
  }

  lemma HasRows(rows: seq<Row>, byUser: bool, parent: string)
    ensures RowsOf(rows, byUser, parent) != [] <==> exists r | r in rows :: ParentOf(r, byUser) == parent
  {
    RowsOfFacts(rows, byUser, parent);
    var own := RowsOf(rows, byUser, parent);
    assert own != [] ==> own[0] in own;
  }

  // ---- what the rows cost together ----

  /** The parents' costs: each is the exact sum of its priced children. */
  function GroupsCost(parents: seq<string>, groups: Groups, prices: Prices): real {
    if parents == [] then 0.0
    else GroupsCost(parents[1..], groups, prices)
         + if parents[0] in groups then TotalCost(groups[parents[0]], prices) else 0.0
  }

  function PartsCost(parents: seq<string>, rows: seq<Row>, byUser: bool, prices: Prices): real {
    if parents == [] then 0.0
    else PartsCost(parents[1..], rows, byUser, prices) + TotalCost(RowsOf(rows, byUser, parents[0]), prices)
  }

  lemma {:induction false} OneMoreRow(parents: seq<string>, rows: seq<Row>, r: Row, byUser: bool, prices: Prices)
    requires Distinct(parents)
    ensures PartsCost(parents, rows + [r], byUser, prices)
            == PartsCost(parents, rows, byUser, prices)
               + if ParentOf(r, byUser) in parents then TotalCost([r], prices) else 0.0
  {
    hide TotalCost, RowsOf, ParentOf;
    if parents == [] {
    } else {
      assert parents == [parents[0]] + parents[1..] && parents[0] !in parents[1..];
      RowsOfGrows(rows, byUser, r);
      OneMoreRow(parents[1..], rows, r, byUser, prices);
      CostSplits(RowsOf(rows, byUser, parents[0]), [r], prices);
    }
  }

  lemma {:induction false} PartsAddUp(parents: seq<string>, rows: seq<Row>, byUser: bool, prices: Prices)
    requires Distinct(parents) && forall r | r in rows :: ParentOf(r, byUser) in parents
    ensures PartsCost(parents, rows, byUser, prices) == TotalCost(rows, prices)
  {
    hide ParentOf;
    if rows == [] {
      NothingAddsUp(parents, byUser, prices);
    } else {
      hide TotalCost;
      var init, last := rows[..|rows| - 1], rows[|rows| - 1];
      assert rows == init + [last];
      PartsAddUp(parents, init, byUser, prices);
      OneMoreRow(parents, init, last, byUser, prices);
      CostSplits(init, [last], prices);
    }
  }

  lemma {:induction false} NothingAddsUp(parents: seq<string>, byUser: bool, prices: Prices)
    ensures PartsCost(parents, [], byUser, prices) == 0.0
  {
    if parents == [] {
    } else {
      NothingAddsUp(parents[1..], byUser, prices);
    }
  }

  lemma {:induction false} GroupsArePartsCost(
      parents: seq<string>, rows: seq<Row>, byUser: bool, groups: Groups, prices: Prices)
    requires IsGrouping(rows, byUser, groups)
    ensures GroupsCost(parents, groups, prices) == PartsCost(parents, rows, byUser, prices)
  {
    if parents == [] {
    } else {
      hide RowsOf, TotalCost, Ranked, ParentOf;
      GroupsArePartsCost(parents[1..], rows, byUser, groups, prices);
      var parent := parents[0];
      if parent in groups {
        OrderDoesNotMatter(groups[parent], RowsOf(rows, byUser, parent), prices);
      } else {
        HasRows(rows, byUser, parent);
        EmptyCost(prices);
      }
    }
  }

  lemma EmptyCost(prices: Prices)
    ensures TotalCost([], prices) == 0.0
  {
  }

  /** The parents' costs, over all parents once, add up exactly to the rows they are made of: no child is
      counted under two parents and none is lost. */
  lemma ParentsAddUp(parents: seq<string>, rows: seq<Row>, byUser: bool, groups: Groups, prices: Prices)
    requires IsGrouping(rows, byUser, groups)
    requires Distinct(parents) && forall parent :: parent in parents <==> parent in groups
    ensures GroupsCost(parents, groups, prices) == TotalCost(rows, prices)
  {
    hide TotalCost, Ranked, RowsOf, ParentOf;
    GroupsArePartsCost(parents, rows, byUser, groups, prices);
    PartsAddUp(parents, rows, byUser, prices);
  }

  /** The deployment's total, priced model by model, against the sum of the user rows, each of which is the sum
      of its priced models: they differ by at most half a millionth for each amount that was rounded. */
  lemma TotalAgainstUserRows(ledger: seq<Row>, prices: Prices, users: seq<string>, groups: Groups)
    requires IsGrouping(Grouped(ledger, true, true), true, groups)
    requires Distinct(users) && forall user :: user in users <==> user in groups
    ensures var cells, models := Grouped(ledger, true, true), Grouped(ledger, false, true);
            Abs(TotalCost(models, prices) - GroupsCost(users, groups, prices))
            <= (PricedCount(models, prices) + PricedCount(cells, prices)) as real * 0.0000005
  {
    hide TotalCost, PricedCount, IsGrouping, Grouped;
    TotalsAlmostAgree(ledger, prices);
    ParentsAddUp(users, Grouped(ledger, true, true), true, groups, prices);
  }
}
