/** Token counts and what they cost. Amounts are exact here: the rounding to a millionth is the program's,
    floating-point error is not modelled. */
module Pricing {
  import opened Wrappers

  datatype Bucket = Bucket(runs: nat, input: nat, output: nat, cacheRead: nat)

  /** Prices per million tokens. */
  datatype Price = Price(input: real, output: real, cacheRead: real)

  type Prices = map<string, Price>

  /** Usage of one model by one user. */
  datatype Row = Row(user: string, model: string, used: Bucket)

  const NOTHING := Bucket(0, 0, 0, 0)

  function Plus(a: Bucket, b: Bucket): Bucket {
    Bucket(a.runs + b.runs, a.input + b.input, a.output + b.output, a.cacheRead + b.cacheRead)
  }

  // ---- rounding ----

  /** To the nearest millionth, halves up. */
  function Round(amount: real): real { (amount * 1000000.0 + 0.5).Floor as real / 1000000.0 }

  predicate IsMicro(amount: real) { amount * 1000000.0 == (amount * 1000000.0).Floor as real }

  function Abs(x: real): real { if x < 0.0 then -x else x }

  /** Rounding moves an amount by at most half a millionth, and up from a half, yields whole millionths, and
      leaves those alone. */
  lemma RoundFacts(x: real)
    ensures Abs(Round(x) - x) <= 0.0000005 && Round(x) > x - 0.0000005 && IsMicro(Round(x))
    ensures IsMicro(x) ==> Round(x) == x
  {
    Millionths((x * 1000000.0 + 0.5).Floor, x);
  }

  lemma Millionths(n: int, x: real)
    requires n as real <= x * 1000000.0 + 0.5 < n as real + 1.0
    ensures Abs(n as real / 1000000.0 - x) <= 0.0000005 && n as real / 1000000.0 > x - 0.0000005
    ensures IsMicro(n as real / 1000000.0)
    ensures IsMicro(x) ==> n as real / 1000000.0 == x
  {
    var m := n as real / 1000000.0;
    assert m * 1000000.0 == n as real;
    if IsMicro(x) {
      var k := (x * 1000000.0).Floor;
      assert k as real == x * 1000000.0;
      assert k == n;
    }
  }

  /** Whole millionths add up to whole millionths. */
  lemma MicrosAddUp(x: real, y: real)
    requires IsMicro(x) && IsMicro(y)
    ensures IsMicro(x + y)
  {
    Scaled(x, y);
    assert (x + y) * 1000000.0 == ((x * 1000000.0).Floor + (y * 1000000.0).Floor) as real;
  }

  lemma Scaled(x: real, y: real)
    ensures (x + y) * 1000000.0 == x * 1000000.0 + y * 1000000.0
  {
  }

  // ---- the cost of a row ----

  function Raw(b: Bucket, p: Price): real {
    (b.input as real * p.input + b.output as real * p.output + b.cacheRead as real * p.cacheRead) / 1000000.0
  }

  function PriceOf(prices: Prices, model: string): Option<Price> {
    if model in prices then Some(prices[model]) else None
  }

  /** Nothing, not zero, for a model without a price. */
  function CostOf(b: Bucket, price: Option<Price>): Option<real> {
    if price.None? then None else Some(Round(Raw(b, price.value)))
  }

  function RowCost(r: Row, prices: Prices): Option<real> { CostOf(r.used, PriceOf(prices, r.model)) }

  predicate IsPriced(r: Row, prices: Prices) { r.model in prices }

  predicate HasTokens(b: Bucket) { b.input > 0 || b.output > 0 || b.cacheRead > 0 }

  // ---- sums ----

  function TotalUsed(rows: seq<Row>): Bucket {
    if rows == [] then NOTHING else Plus(TotalUsed(rows[..|rows| - 1]), rows[|rows| - 1].used)
  }

  /** The costs of the priced rows, added up. */
  function TotalCost(rows: seq<Row>, prices: Prices): real {
    if rows == [] then 0.0
    else
      var cost := RowCost(rows[|rows| - 1], prices);
      TotalCost(rows[..|rows| - 1], prices) + if cost.Some? then cost.value else 0.0
  }

  /** The same before any rounding. */
  function TotalRaw(rows: seq<Row>, prices: Prices): real {
    if rows == [] then 0.0
    else
      var r := rows[|rows| - 1];
      TotalRaw(rows[..|rows| - 1], prices) + if IsPriced(r, prices) then Raw(r.used, prices[r.model]) else 0.0
  }

  function PricedCount(rows: seq<Row>, prices: Prices): nat {
    if rows == [] then 0
    else PricedCount(rows[..|rows| - 1], prices) + if IsPriced(rows[|rows| - 1], prices) then 1 else 0
  }

  function Unpriced(rows: seq<Row>, prices: Prices): set<string> {
    set r | r in rows && !IsPriced(r, prices) && HasTokens(r.used) :: r.model
  }

  datatype Bill = Bill(cost: Option<real>, partial: bool, unpriced: set<string>)

  /** What a list of rows costs: the exact sum of its rounded rows; nothing exactly if no row is priced; and
      marked partial when a row with tokens had to be left out. */
  ghost predicate IsBill(rows: seq<Row>, prices: Prices, bill: Bill) {
    && (bill.cost.None? <==> forall r | r in rows :: !IsPriced(r, prices))
    && (bill.cost.Some? ==> bill.cost.value == TotalCost(rows, prices))
    && (forall m :: m in bill.unpriced <==> m !in prices && exists r | r in rows :: r.model == m && Tokens(r.used) > 0)
    && (bill.partial <==> bill.cost.Some? && bill.unpriced != {})
  }

  function Tokens(b: Bucket): nat { b.input + b.output + b.cacheRead }

  /** The numbers that `f` reads off the rows, added up. */
  function SumOf(rows: seq<Row>, f: Row -> nat): nat {
    if rows == [] then 0 else SumOf(rows[..|rows| - 1], f) + f(rows[|rows| - 1])
  }

  function Runs(): Row -> nat { (r: Row) => r.used.runs }
  function Input(): Row -> nat { (r: Row) => r.used.input }
  function Output(): Row -> nat { (r: Row) => r.used.output }
  function CacheRead(): Row -> nat { (r: Row) => r.used.cacheRead }

  lemma {:induction false} EachIsAddedUp(rows: seq<Row>)
    ensures TotalUsed(rows)
            == Bucket(SumOf(rows, Runs()), SumOf(rows, Input()), SumOf(rows, Output()), SumOf(rows, CacheRead()))
  {
    if rows == [] {
    } else {
      EachIsAddedUp(rows[..|rows| - 1]);
    }
  }

  method SumBuckets(rows: seq<Row>) returns (total: Bucket)
    ensures total == TotalUsed(rows)
  {
    var runs: nat, input: nat, output: nat, cacheRead: nat := 0, 0, 0, 0;
    for i := 0 to |rows|
      invariant Bucket(runs, input, output, cacheRead) == TotalUsed(rows[..i])
    {
      assert rows[..i + 1][..i] == rows[..i];
      runs := runs + rows[i].used.runs;
      input := input + rows[i].used.input;
      output := output + rows[i].used.output;
      cacheRead := cacheRead + rows[i].used.cacheRead;
    }
    assert rows[..|rows|] == rows;
    total := Bucket(runs, input, output, cacheRead);
  }

  method CostOfRows(rows: seq<Row>, prices: Prices) returns (bill: Bill)
    ensures IsBill(rows, prices, bill)
  {
    hide Round, Raw, IsMicro, HasTokens, Unpriced, TotalCost, PricedCount;
    NothingCosts(prices);
    var total, known := 0.0, 0;
    var unpriced: set<string> := {};
    ZeroIsMicro();
    NothingUnpriced(prices);
    for i := 0 to |rows|
      invariant total == TotalCost(rows[..i], prices) && IsMicro(total)
      invariant known == PricedCount(rows[..i], prices)
      invariant known == 0 <==> forall r | r in rows[..i] :: !IsPriced(r, prices)
      invariant unpriced == Unpriced(rows[..i], prices)
    {
      assert rows[..i + 1] == rows[..i] + [rows[i]];
      CostGrows(rows[..i], rows[i], prices);
      UnpricedGrows(rows[..i], rows[i], prices);
      var amount := RowCost(rows[i], prices);
      if amount.None? {
        if HasTokens(rows[i].used) { unpriced := unpriced + {rows[i].model}; }
      } else {
        RoundFacts(Raw(rows[i].used, prices[rows[i].model]));
        MicrosAddUp(total, amount.value);
        total, known := total + amount.value, known + 1;
      }
    }
    assert rows[..|rows|] == rows;
    RoundFacts(total);
    WithTokens(rows, prices);
    bill := Bill(if known > 0 then Some(Round(total)) else None, known > 0 && unpriced != {}, unpriced);
  }

  lemma WithTokens(rows: seq<Row>, prices: Prices)
    ensures forall m :: m in Unpriced(rows, prices) <==>
                        m !in prices && exists r | r in rows :: r.model == m && Tokens(r.used) > 0
  {
  }

  lemma NothingCosts(prices: Prices)
    ensures TotalCost([], prices) == 0.0 && PricedCount([], prices) == 0
  {
  }

  lemma CostGrows(rows: seq<Row>, r: Row, prices: Prices)
    ensures TotalCost(rows + [r], prices)
            == TotalCost(rows, prices) + (if RowCost(r, prices).Some? then RowCost(r, prices).value else 0.0)
    ensures PricedCount(rows + [r], prices) == PricedCount(rows, prices) + if IsPriced(r, prices) then 1 else 0
  {
    assert (rows + [r])[..|rows|] == rows;
  }

  lemma NothingUnpriced(prices: Prices)
    ensures Unpriced([], prices) == {}
  {
  }

  lemma UnpricedGrows(rows: seq<Row>, r: Row, prices: Prices)
    ensures Unpriced(rows + [r], prices)
            == Unpriced(rows, prices) + if !IsPriced(r, prices) && HasTokens(r.used) then {r.model} else {}
  {
  }

  lemma ZeroIsMicro()
    ensures IsMicro(0.0)
  {
  }

  // ---- the order of rows does not matter ----

  lemma {:induction false} CostSplits(a: seq<Row>, b: seq<Row>, prices: Prices)
    ensures TotalCost(a + b, prices) == TotalCost(a, prices) + TotalCost(b, prices)
    decreases |b|
  {
    hide RowCost;
    if b == [] {
      assert a + b == a;
    } else {
      assert (a + b)[..|a + b| - 1] == a + b[..|b| - 1];
      CostSplits(a, b[..|b| - 1], prices);
    }
  }

  lemma PlusAssociates(a: Bucket, b: Bucket, c: Bucket)
    ensures Plus(Plus(a, b), c) == Plus(a, Plus(b, c))
  {
  }

  lemma {:induction false} UsedSplits(a: seq<Row>, b: seq<Row>)
    ensures TotalUsed(a + b) == Plus(TotalUsed(a), TotalUsed(b))
    decreases |b|
  {
    hide Plus;
    if b == [] {
      assert a + b == a;
      PlusNothing(TotalUsed(a));
    } else {
      assert (a + b)[..|a + b| - 1] == a + b[..|b| - 1];
      UsedSplits(a, b[..|b| - 1]);
      PlusAssociates(TotalUsed(a), TotalUsed(b[..|b| - 1]), b[|b| - 1].used);
    }
  }

  lemma PlusNothing(a: Bucket)
    ensures Plus(a, NOTHING) == a == Plus(NOTHING, a)
  {
  }

  lemma TotalsSplit(a: seq<Row>, b: seq<Row>, prices: Prices)
    ensures TotalCost(a + b, prices) == TotalCost(a, prices) + TotalCost(b, prices)
    ensures TotalUsed(a + b) == Plus(TotalUsed(a), TotalUsed(b))
  {
    CostSplits(a, b, prices);
    UsedSplits(a, b);
  }

  /** The totals of a list do not depend on where one row stands. */
  lemma MoveToEnd(b: seq<Row>, i: nat, prices: Prices)
    requires i < |b|
    ensures var moved := b[..i] + b[i + 1..] + [b[i]];
            multiset(moved) == multiset(b) && TotalCost(moved, prices) == TotalCost(b, prices)
              && TotalUsed(moved) == TotalUsed(b)
  {
    hide TotalCost, TotalUsed;
    var front, row, back := b[..i], [b[i]], b[i + 1..];
    assert b == front + row + back;
    TotalsSplit(front + row, back, prices);
    TotalsSplit(front, row, prices);
    TotalsSplit(front + back, row, prices);
    TotalsSplit(front, back, prices);
  }

  lemma WithoutLast(a: seq<Row>, b: seq<Row>, last: Row)
    requires multiset(a + [last]) == multiset(b + [last])
    ensures multiset(a) == multiset(b)
  {
    assert multiset(a) == multiset(a + [last]) - multiset{last};
    assert multiset(b) == multiset(b + [last]) - multiset{last};
  }

  lemma SameUnpriced(a: seq<Row>, b: seq<Row>, prices: Prices)
    requires multiset(a) == multiset(b)
    ensures Unpriced(a, prices) == Unpriced(b, prices)
  {
    assert forall r :: (r in a <==> r in multiset(a)) && (r in b <==> r in multiset(b));
  }

  /** Totals and the list of unpriced models do not depend on the order of the rows. */
  lemma {:induction false} OrderDoesNotMatter(a: seq<Row>, b: seq<Row>, prices: Prices)
    requires multiset(a) == multiset(b)
    ensures TotalCost(a, prices) == TotalCost(b, prices) && TotalUsed(a) == TotalUsed(b)
    ensures Unpriced(a, prices) == Unpriced(b, prices)
    decreases |a|
  {
    hide TotalCost, TotalUsed, Unpriced, Plus;
    SameUnpriced(a, b, prices);
    assert forall r :: (r in a <==> r in multiset(a)) && (r in b <==> r in multiset(b));
    if a == [] {
      assert |b| == |multiset(b)| == 0;
    } else {
      var init, last := a[..|a| - 1], a[|a| - 1];
      assert last in b;
      var i :| 0 <= i < |b| && b[i] == last;
      var others := b[..i] + b[i + 1..];
      MoveToEnd(b, i, prices);
      assert a == init + [last];
      WithoutLast(init, others, last);
      OrderDoesNotMatter(init, others, prices);
      TotalsSplit(init, [last], prices);
      TotalsSplit(others, [last], prices);
    }
  }

  // ---- two views of one ledger ----

  /** Adds usage to the row with this user and model, at the end if there is none. */
  function AddTo(rows: seq<Row>, user: string, model: string, used: Bucket): seq<Row> {
    if rows == [] then [Row(user, model, used)]
    else if rows[0].user == user && rows[0].model == model then [Row(user, model, Plus(rows[0].used, used))] + rows[1..]
    else [rows[0]] + AddTo(rows[1..], user, model, used)
  }

  /** One row per user and model, per user (without a model), or per model (without a user). */
  function Grouped(ledger: seq<Row>, byUser: bool, byModel: bool): seq<Row> {
    if ledger == [] then []
    else
      var r := ledger[|ledger| - 1];
      var init := Grouped(ledger[..|ledger| - 1], byUser, byModel);
      AddTo(init, if byUser then r.user else "", if byModel then r.model else "", r.used)
  }

  lemma {:induction false} AddToKeepsTotals(rows: seq<Row>, user: string, model: string, used: Bucket, prices: Prices)
    ensures TotalUsed(AddTo(rows, user, model, used)) == Plus(TotalUsed(rows), used)
    ensures TotalRaw(AddTo(rows, user, model, used), prices)
            == TotalRaw(rows, prices) + if model in prices then Raw(used, prices[model]) else 0.0
  {
    hide Raw;
    if rows == [] {
      assert [Row(user, model, used)][..0] == [];
    } else {
      var head, tail := rows[0], rows[1..];
      assert rows == [head] + tail;
      FirstOfTotals(head, tail, prices);
      if head.user == user && head.model == model {
        FirstOfTotals(Row(user, model, Plus(head.used, used)), tail, prices);
        if model in prices { RawAdds(head.used, used, prices[model]); }
      } else {
        AddToKeepsTotals(tail, user, model, used, prices);
        FirstOfTotals(head, AddTo(tail, user, model, used), prices);
      }
    }
  }

  lemma RawAdds(a: Bucket, b: Bucket, p: Price)
    ensures Raw(Plus(a, b), p) == Raw(a, p) + Raw(b, p)
  {
    Distributes(a.input, b.input, p.input);
    Distributes(a.output, b.output, p.output);
    Distributes(a.cacheRead, b.cacheRead, p.cacheRead);
  }

  lemma Distributes(x: nat, y: nat, p: real)
    ensures (x + y) as real * p == x as real * p + y as real * p
  {
  }

  lemma {:induction false} FirstOfTotals(head: Row, tail: seq<Row>, prices: Prices)
    ensures TotalUsed([head] + tail) == Plus(head.used, TotalUsed(tail))
    ensures TotalRaw([head] + tail, prices)
            == TotalRaw(tail, prices) + if IsPriced(head, prices) then Raw(head.used, prices[head.model]) else 0.0
    decreases |tail|
  {
    hide Raw;
    if tail == [] {
      assert [head] + tail == [head] && [head][..0] == [];
    } else {
      assert ([head] + tail)[..|tail|] == [head] + tail[..|tail| - 1];
      FirstOfTotals(head, tail[..|tail| - 1], prices);
    }
  }

  /** Both views, like any other grouping, add up to the same token totals: those of the ledger. */
  lemma {:induction false} ViewsHaveOneTotal(ledger: seq<Row>, byUser: bool, byModel: bool)
    ensures TotalUsed(Grouped(ledger, byUser, byModel)) == TotalUsed(ledger)
  {
    hide TotalRaw;
    if ledger == [] {
    } else {
      var init, r := ledger[..|ledger| - 1], ledger[|ledger| - 1];
      ViewsHaveOneTotal(init, byUser, byModel);
      var user, model := if byUser then r.user else "", if byModel then r.model else "";
      AddToKeepsTotals(Grouped(init, byUser, byModel), user, model, r.used, map[]);
    }
  }

  predicate Falls(r: Row, byUser: bool, byModel: bool, user: string, model: string) {
    (if byUser then r.user else "") == user && (if byModel then r.model else "") == model
  }

  /** The rows of a ledger that go into the row of this user and model. */
  function Matching(ledger: seq<Row>, byUser: bool, byModel: bool, user: string, model: string): seq<Row> {
    if ledger == [] then []
    else
      var r := ledger[|ledger| - 1];
      Matching(ledger[..|ledger| - 1], byUser, byModel, user, model)
      + if Falls(r, byUser, byModel, user, model) then [r] else []
  }

  /** The usage under this user and model, nothing if there is none. */
  function UsedBy(rows: seq<Row>, user: string, model: string): Bucket {
    if rows == [] then NOTHING
    else if rows[0].user == user && rows[0].model == model then rows[0].used else UsedBy(rows[1..], user, model)
  }

  predicate HasRow(rows: seq<Row>, user: string, model: string) {
    rows != [] && ((rows[0].user == user && rows[0].model == model) || HasRow(rows[1..], user, model))
  }

  predicate OneRowEach(rows: seq<Row>) {
    rows == [] || (!HasRow(rows[1..], rows[0].user, rows[0].model) && OneRowEach(rows[1..]))
  }

  lemma FirstRow(head: Row, tail: seq<Row>, user: string, model: string)
    ensures HasRow([head] + tail, user, model) <==>
            (head.user == user && head.model == model) || HasRow(tail, user, model)
    ensures UsedBy([head] + tail, user, model)
            == if head.user == user && head.model == model then head.used else UsedBy(tail, user, model)
  {
    assert ([head] + tail)[1..] == tail;
  }

  lemma FirstIsApart(head: Row, tail: seq<Row>)
    ensures OneRowEach([head] + tail) <==> OneRowEach(tail) && !HasRow(tail, head.user, head.model)
  {
    assert ([head] + tail)[1..] == tail;
  }

  lemma {:induction false} AddToHasRow(
      rows: seq<Row>, user: string, model: string, used: Bucket, u: string, m: string)
    ensures HasRow(AddTo(rows, user, model, used), u, m) <==> HasRow(rows, u, m) || (u == user && m == model)
    ensures UsedBy(AddTo(rows, user, model, used), u, m)
            == if u == user && m == model then Plus(UsedBy(rows, u, m), used) else UsedBy(rows, u, m)
  {
    hide Plus, HasRow, UsedBy;
    if rows == [] {
      NoRows(u, m);
      PlusNothing(used);
      FirstRow(Row(user, model, used), [], u, m);
      assert [Row(user, model, used)] + [] == [Row(user, model, used)];
    } else {
      AddToHasRow(rows[1..], user, model, used, u, m);
      assert rows == [rows[0]] + rows[1..];
      FirstRow(rows[0], rows[1..], u, m);
      FirstRow(rows[0], AddTo(rows[1..], user, model, used), u, m);
      FirstRow(Row(user, model, Plus(rows[0].used, used)), rows[1..], u, m);
    }
  }

  lemma {:induction false} AddToKeepsApart(rows: seq<Row>, user: string, model: string, used: Bucket)
    requires OneRowEach(rows)
    ensures OneRowEach(AddTo(rows, user, model, used))
  {
    hide Plus, HasRow, UsedBy, OneRowEach;
    if rows == [] {
      NoRows(user, model);
      FirstIsApart(Row(user, model, used), []);
      assert [Row(user, model, used)] + [] == [Row(user, model, used)];
    } else {
      assert rows == [rows[0]] + rows[1..];
      FirstIsApart(rows[0], rows[1..]);
      AddToKeepsApart(rows[1..], user, model, used);
      AddToHasRow(rows[1..], user, model, used, rows[0].user, rows[0].model);
      FirstIsApart(rows[0], AddTo(rows[1..], user, model, used));
      FirstIsApart(Row(user, model, Plus(rows[0].used, used)), rows[1..]);
    }
  }

  /** A view has exactly one row for each user, model, or pair of them, that occurs, and its usage is that of all
      their ledger rows. */
  lemma {:induction false} ViewHasOneRowEach(ledger: seq<Row>, byUser: bool, byModel: bool, user: string, model: string)
    ensures var rows := Grouped(ledger, byUser, byModel);
            && OneRowEach(rows)
            && (HasRow(rows, user, model) <==> Matching(ledger, byUser, byModel, user, model) != [])
            && UsedBy(rows, user, model) == TotalUsed(Matching(ledger, byUser, byModel, user, model))
  {
    hide AddTo, OneRowEach, UsedBy, HasRow, Plus, TotalUsed;
    if ledger == [] {
      NoRows(user, model);
      NothingUsed();
    } else {
      var init, r := ledger[..|ledger| - 1], ledger[|ledger| - 1];
      ViewHasOneRowEach(init, byUser, byModel, user, model);
      var u, m := if byUser then r.user else "", if byModel then r.model else "";
      AddToHasRow(Grouped(init, byUser, byModel), u, m, r.used, user, model);
      AddToKeepsApart(Grouped(init, byUser, byModel), u, m, r.used);
      var before := Matching(init, byUser, byModel, user, model);
      UsedGrows(before, r);
      assert before + [] == before;
    }
  }

  lemma NothingUsed()
    ensures TotalUsed([]) == NOTHING
  {
  }

  lemma UsedGrows(rows: seq<Row>, r: Row)
    ensures TotalUsed(rows + [r]) == Plus(TotalUsed(rows), r.used)
  {
    assert (rows + [r])[..|rows|] == rows;
  }

  lemma {:induction false} MatchingFacts(ledger: seq<Row>, byUser: bool, byModel: bool, user: string, model: string)
    ensures forall r :: r in Matching(ledger, byUser, byModel, user, model) <==>
                        r in ledger && Falls(r, byUser, byModel, user, model)
  {
    hide Falls;
    if ledger == [] {
    } else {
      var init := ledger[..|ledger| - 1];
      assert ledger == init + [ledger[|ledger| - 1]];
      MatchingFacts(init, byUser, byModel, user, model);
    }
  }

  lemma NoRows(user: string, model: string)
    ensures OneRowEach([]) && UsedBy([], user, model) == NOTHING && !HasRow([], user, model)
  {
  }

  /** Before rounding, grouping keeps the money as long as it keeps the models apart. */
  lemma {:induction false} GroupingKeepsRaw(ledger: seq<Row>, byUser: bool, prices: Prices)
    ensures TotalRaw(Grouped(ledger, byUser, true), prices) == TotalRaw(ledger, prices)
  {
    hide Raw;
    if ledger == [] {
    } else {
      var init, r := ledger[..|ledger| - 1], ledger[|ledger| - 1];
      GroupingKeepsRaw(init, byUser, prices);
      AddToKeepsTotals(Grouped(init, byUser, true), if byUser then r.user else "", r.model, r.used, prices);
    }
  }

  /** Half a millionth for each rounded row. */
  lemma {:induction false} RoundingError(rows: seq<Row>, prices: Prices)
    ensures Abs(TotalCost(rows, prices) - TotalRaw(rows, prices)) <= PricedCount(rows, prices) as real * 0.0000005
  {
    hide Round, Raw;
    if rows == [] {
    } else {
      RoundingError(rows[..|rows| - 1], prices);
      var r := rows[|rows| - 1];
      if IsPriced(r, prices) { RoundFacts(Raw(r.used, prices[r.model])); }
    }
  }

  /** The deployment's total, priced model by model, differs from the total of the user-by-model rows by at
      most half a millionth for each row that was rounded. The same holds of one model's row and its
      children: take a ledger of that model alone. */
  lemma TotalsAlmostAgree(ledger: seq<Row>, prices: Prices)
    ensures var cells, models := Grouped(ledger, true, true), Grouped(ledger, false, true);
            Abs(TotalCost(models, prices) - TotalCost(cells, prices))
            <= (PricedCount(models, prices) + PricedCount(cells, prices)) as real * 0.0000005
  {
    hide TotalCost, TotalRaw, Grouped, PricedCount;
    GroupingKeepsRaw(ledger, true, prices);
    GroupingKeepsRaw(ledger, false, prices);
    RoundingError(Grouped(ledger, true, true), prices);
    RoundingError(Grouped(ledger, false, true), prices);
  }

  // ---- a model's row and its users ----

  lemma {:induction false} RawOfTotal(rows: seq<Row>, prices: Prices, model: string)
    requires model in prices && forall r | r in rows :: r.model == model
    ensures Raw(TotalUsed(rows), prices[model]) == TotalRaw(rows, prices)
  {
    hide Raw;
    if rows == [] {
      RawOfNothing(prices[model]);
    } else {
      assert rows[|rows| - 1] in rows;
      RawOfTotal(rows[..|rows| - 1], prices, model);
      RawAdds(TotalUsed(rows[..|rows| - 1]), rows[|rows| - 1].used, prices[model]);
    }
  }

  /** Each kind of token has its own price, per million. */
  lemma RawOfMillions(runs: nat, a: nat, b: nat, c: nat, p: Price)
    ensures Raw(Bucket(runs, 1000000 * a, 1000000 * b, 1000000 * c), p)
            == a as real * p.input + b as real * p.output + c as real * p.cacheRead
  {
    Million(a, p.input);
    Million(b, p.output);
    Million(c, p.cacheRead);
  }

  lemma Million(n: nat, p: real)
    ensures (1000000 * n) as real * p == 1000000.0 * (n as real * p)
  {
    assert (1000000 * n) as real == 1000000.0 * n as real;
  }

  lemma RawOfNothing(p: Price)
    ensures Raw(NOTHING, p) == 0.0
  {
  }

  /** A priced model's row, whose tokens are those of its users together, differs from the sum of its
      children by at most half a millionth for each child and one for itself. */
  lemma ModelRowAlmostAddsUp(children: seq<Row>, prices: Prices, model: string)
    requires model in prices && forall r | r in children :: r.model == model
    ensures var cost := CostOf(TotalUsed(children), PriceOf(prices, model));
            && cost.Some?
            && Abs(cost.value - TotalCost(children, prices)) <= (PricedCount(children, prices) + 1) as real * 0.0000005
  {
    hide Raw, Round, TotalCost, TotalRaw, PricedCount;
    RawOfTotal(children, prices, model);
    RoundFacts(Raw(TotalUsed(children), prices[model]));
    RoundingError(children, prices);
  }

  lemma {:induction false} TotalCostIsMicro(rows: seq<Row>, prices: Prices)
    ensures IsMicro(TotalCost(rows, prices))
  {
    hide Round, Raw, IsMicro;
    if rows == [] {
      ZeroIsMicro();
    } else {
      var r := rows[|rows| - 1];
      TotalCostIsMicro(rows[..|rows| - 1], prices);
      if IsPriced(r, prices) {
        RoundFacts(Raw(r.used, prices[r.model]));
        MicrosAddUp(TotalCost(rows[..|rows| - 1], prices), RowCost(r, prices).value);
      }
    }
  }

  /** An amount rounds to a given number of millionths exactly if it is less than half a millionth above it
      or at most half a millionth below. */
  lemma RoundsTo(x: real, m: real)
    requires IsMicro(m)
    ensures Round(x) == m <==> -0.0000005 <= x - m < 0.0000005
  {
    var k := (m * 1000000.0).Floor;
    assert m * 1000000.0 == k as real;
    assert Round(x) == m <==> (x * 1000000.0 + 0.5).Floor == k;
    assert (x * 1000000.0 + 0.5).Floor == k <==> k as real <= x * 1000000.0 + 0.5 < k as real + 1.0;
  }

  /** A priced model's row costs exactly what its children cost together if and only if the rounding of the
      children has not shifted their sum by half a millionth or more. */
  lemma ModelRowAddsUpExactly(children: seq<Row>, prices: Prices, model: string)
    requires model in prices && forall r | r in children :: r.model == model
    ensures CostOf(TotalUsed(children), PriceOf(prices, model)) == Some(TotalCost(children, prices))
            <==> -0.0000005 <= TotalRaw(children, prices) - TotalCost(children, prices) < 0.0000005
  {
    hide Raw, Round, IsMicro, TotalCost, TotalRaw, TotalUsed;
    RawOfTotal(children, prices, model);
    TotalCostIsMicro(children, prices);
    RoundsTo(TotalRaw(children, prices), TotalCost(children, prices));
  }

  lemma OneAndTwoTokens()
    ensures Round(Raw(Bucket(1, 1, 0, 0), Price(0.4, 0.0, 0.0))) == 0.0
    ensures Round(Raw(Bucket(2, 2, 0, 0), Price(0.4, 0.0, 0.0))) == 0.000001
  {
    assert Raw(Bucket(1, 1, 0, 0), Price(0.4, 0.0, 0.0)) == 0.0000004;
    assert (0.0000004 * 1000000.0 + 0.5).Floor == 0;
    assert Raw(Bucket(2, 2, 0, 0), Price(0.4, 0.0, 0.0)) == 0.0000008;
    assert (0.0000008 * 1000000.0 + 0.5).Floor == 1;
  }

  lemma TwoRows(first: Row, second: Row, prices: Prices)
    requires IsPriced(first, prices) && IsPriced(second, prices)
    ensures TotalUsed([first, second]) == Plus(first.used, second.used)
    ensures RowCost(first, prices).Some? && RowCost(second, prices).Some?
    ensures TotalCost([first, second], prices) == RowCost(first, prices).value + RowCost(second, prices).value
  {
    hide Round, Raw;
    assert [first, second][..1] == [first] && [first][..0] == [] && [second][..0] == [];
    UsedSplits([first], [second]);
    assert [first] + [second] == [first, second];
    assert TotalCost([first, second], prices) == TotalCost([first], prices) + RowCost(second, prices).value;
  }

  /** Two children of one token each at 0.4 per million cost nothing apiece, their row a millionth. */
  lemma ModelRowMayNotAddUp()
    ensures var prices := map["m" := Price(0.4, 0.0, 0.0)];
            var child := Bucket(1, 1, 0, 0);
            var children := [Row("a", "m", child), Row("b", "m", child)];
            && TotalCost(children, prices) == 0.0
            && CostOf(TotalUsed(children), PriceOf(prices, "m")) == Some(0.000001)
  {
    hide Raw, Round, TotalCost, TotalUsed;
    var prices := map["m" := Price(0.4, 0.0, 0.0)];
    var child := Bucket(1, 1, 0, 0);
    OneAndTwoTokens();
    TwoRows(Row("a", "m", child), Row("b", "m", child), prices);
    assert Plus(child, child) == Bucket(2, 2, 0, 0);
  }

  // ---- days ----

  datatype DayRow = DayRow(used: Bucket, cost: Option<real>, partial: bool)

  datatype Daily = Daily(day: string, row: Row)

  function OnDay(cells: seq<Daily>, day: string): seq<Row> {
    if cells == [] then []
    else OnDay(cells[..|cells| - 1], day) + if cells[|cells| - 1].day == day then [cells[|cells| - 1].row] else []
  }

  /** A day's tokens and the sum of its priced rows; no cost exactly if none is priced; partial exactly if a
      row with tokens is not. */
  ghost predicate IsDay(d: DayRow, rows: seq<Row>, prices: Prices) {
    && d.used == TotalUsed(rows)
    && (d.cost.None? <==> PricedCount(rows, prices) == 0)
    && (d.cost.Some? ==> d.cost.value == TotalCost(rows, prices) && IsMicro(d.cost.value))
    && (d.partial <==> Unpriced(rows, prices) != {})
  }

  lemma BlankDay(prices: Prices)
    ensures IsDay(DayRow(NOTHING, None, false), [], prices)
  {
    NothingUnpriced(prices);
  }

  /** One more row of a day: its cost is rounded in, which changes nothing. */
  lemma DayGrows(d: DayRow, rows: seq<Row>, r: Row, prices: Prices)
    requires IsDay(d, rows, prices)
    ensures IsDay(DayWith(d, r, prices), rows + [r], prices)
  {
    hide Round, Raw, Unpriced, HasTokens, IsMicro;
    assert (rows + [r])[..|rows|] == rows;
    UnpricedGrows(rows, r, prices);
    ZeroIsMicro();
    var amount := RowCost(r, prices);
    if amount.Some? {
      var before := if d.cost.Some? then d.cost.value else 0.0;
      RoundFacts(Raw(r.used, prices[r.model]));
      MicrosAddUp(before, amount.value);
      RoundFacts(before + amount.value);
      NothingPricedCostsNothing(rows, prices);
    }
  }

  lemma {:induction false} NothingPricedCostsNothing(rows: seq<Row>, prices: Prices)
    ensures PricedCount(rows, prices) == 0 ==> TotalCost(rows, prices) == 0.0
  {
    if rows == [] {
    } else {
      NothingPricedCostsNothing(rows[..|rows| - 1], prices);
    }
  }

  function DayWith(d: DayRow, r: Row, prices: Prices): DayRow {
    var used, amount := Plus(d.used, r.used), RowCost(r, prices);
    if amount.None? then DayRow(used, d.cost, d.partial || HasTokens(r.used))
    else DayRow(used, Some(Round((if d.cost.Some? then d.cost.value else 0.0) + amount.value)), d.partial)
  }

  lemma OnDayGrows(cells: seq<Daily>, c: Daily)
    ensures forall day :: OnDay(cells + [c], day)
                          == if c.day == day then OnDay(cells, day) + [c.row] else OnDay(cells, day)
  {
    assert (cells + [c])[..|cells|] == cells;
  }

  /** Folding a user's rows by day: one entry for each day that occurs, priced row by row before adding. */
  method FoldByDay(cells: seq<Daily>, prices: Prices) returns (days: map<string, DayRow>)
    ensures forall day :: day in days <==> OnDay(cells, day) != []
    ensures forall day | day in days :: IsDay(days[day], OnDay(cells, day), prices)
  {
    hide IsDay, DayWith, OnDay;
    days := map[];
    assert forall day :: OnDay(cells[..0], day) == [] by { NoDays(); }
    for i := 0 to |cells|
      invariant forall day :: day in days <==> OnDay(cells[..i], day) != []
      invariant forall day | day in days :: IsDay(days[day], OnDay(cells[..i], day), prices)
    {
      assert cells[..i + 1] == cells[..i] + [cells[i]];
      OnDayGrows(cells[..i], cells[i]);
      var Daily(day, row) := cells[i];
      BlankDay(prices);
      var current := if day in days then days[day] else DayRow(NOTHING, None, false);
      DayGrows(current, OnDay(cells[..i], day), row, prices);
      days := days[day := DayWith(current, row, prices)];
    }
    assert cells[..|cells|] == cells;
  }

  lemma NoDays()
    ensures forall day :: OnDay([], day) == []
  {
  }
}
