/** The admin's usage table, page by page: first the users the ledger knows, most tokens first, then the
    accounts it does not know, by name. Two tables, one list. Names are their ranks in the collation,
    counted from 1; 0 is the empty name. */
module UsagePaging {

  datatype Used = Used(name: nat, tokens: nat)

  /** An account row; `readable` is whether its payload parses. */
  datatype Account = Account(name: nat, readable: bool)

  datatype Row = Counted(name: nat, tokens: nat) | Zero(name: nat)

  /** Where the last page ended. */
  datatype Cursor = Start | AtUsed(tokens: nat, name: nat) | AtIdle(name: nat)

  const IDLE_PROBE_MAX := 10

  function Keep<T>(s: seq<T>, p: T -> bool): seq<T> {
    if s == [] then [] else if p(s[0]) then [s[0]] + Keep(s[1..], p) else Keep(s[1..], p)
  }

  lemma {:induction false} KeepIsSuffix<T>(s: seq<T>, p: T -> bool, i: nat)
    requires i <= |s| && (forall j | 0 <= j < i :: !p(s[j])) && (forall j | i <= j < |s| :: p(s[j]))
    ensures Keep(s, p) == s[i..]
  {
    if s == [] {
    } else {
      KeepIsSuffix(s[1..], p, if i == 0 then 0 else i - 1);
    }
  }

  predicate RanksBefore(tokens: nat, name: nat, u: Used) { u.tokens < tokens || (u.tokens == tokens && u.name > name) }

  function AfterUsed(tokens: nat, name: nat): Used -> bool { (u: Used) => RanksBefore(tokens, name, u) }
  function AfterName(name: nat): Account -> bool { (a: Account) => a.name > name }

  function TakeAtMost<T>(s: seq<T>, n: nat): (r: seq<T>)
    ensures r == s[..if |s| <= n then |s| else n]
  {
    if |s| <= n then s else s[..n]
  }

  function CountedRows(s: seq<Used>): seq<Row> { seq(|s|, i requires 0 <= i < |s| => Counted(s[i].name, s[i].tokens)) }

  /** The accounts without a ledger row, each with its row of zeros. */
  function ZeroRows(s: seq<Account>, known: set<nat>): seq<Row> {
    if s == [] then []
    else (if s[0].readable && s[0].name !in known then [Zero(s[0].name)] else []) + ZeroRows(s[1..], known)
  }

  /** One snapshot of the two tables. */
  datatype Tables = Tables(used: seq<Used>, accounts: seq<Account>) {
    ghost predicate Valid() {
      && (forall i, j | 0 <= i < j < |used| :: RanksBefore(used[i].tokens, used[i].name, used[j]))
      && (forall i, j | 0 <= i < j < |accounts| :: accounts[i].name < accounts[j].name)
      && (forall a | a in accounts :: a.name > 0)
    }

    function Known(): set<nat> { set u | u in used :: u.name }

    function UsedFrom(c: Cursor): seq<Used> {
      match c
      case Start => used
      case AtUsed(tokens, name) => Keep(used, AfterUsed(tokens, name))
      case AtIdle(_) => []
    }

    function AccountsFrom(c: Cursor): seq<Account> { if c.AtIdle? then Keep(accounts, AfterName(c.name)) else accounts }

    /** The rows still to come. */
    function Remaining(c: Cursor): seq<Row> { CountedRows(UsedFrom(c)) + ZeroRows(AccountsFrom(c), Known()) }

    function Size(c: Cursor): nat { |UsedFrom(c)| + |AccountsFrom(c)| }

    /** The plain list that the pages are pages of. */
    function Whole(): seq<Row> { CountedRows(used) + ZeroRows(accounts, Known()) }

    // ---- the queries ----

    /** Ranked rows after the cursor, one more than asked for if there is one. */
    function TopUsers(c: Cursor, limit: nat): seq<Used> { TakeAtMost(UsedFrom(c), limit + 1) }

    /** Accounts after a name: the rows of a page, and whether there are more. */
    function AccountPage(name: nat, limit: nat): (seq<Account>, bool) {
      var rows := TakeAtMost(Keep(accounts, AfterName(name)), limit + 1);
      (TakeAtMost(rows, limit), |rows| > limit)
    }

    /** Going on from the kth of the remaining ledger rows. */
    lemma UsedCursor(c: Cursor, k: nat)
      requires Valid() && !c.AtIdle? && k < |UsedFrom(c)|
      ensures var u := UsedFrom(c)[k]; UsedFrom(AtUsed(u.tokens, u.name)) == UsedFrom(c)[k + 1..]
    {
      hide Keep;
      var n := UsedSuffix(c);
      var u := used[n + k];
      KeepIsSuffix(used, AfterUsed(u.tokens, u.name), n + k + 1);
    }

    lemma UsedSuffix(c: Cursor) returns (n: nat)
      requires Valid() && !c.AtIdle?
      ensures n <= |used| && UsedFrom(c) == used[n..]
    {
      n := 0;
      if c.AtUsed? {
        while n < |used| && !RanksBefore(c.tokens, c.name, used[n])
          invariant n <= |used| && forall j | 0 <= j < n :: !RanksBefore(c.tokens, c.name, used[j])
        {
          n := n + 1;
        }
        KeepIsSuffix(used, AfterUsed(c.tokens, c.name), n);
      }
    }

    lemma AccountSuffix(name: nat) returns (n: nat)
      requires Valid()
      ensures n <= |accounts| && Keep(accounts, AfterName(name)) == accounts[n..]
    {
      n := 0;
      while n < |accounts| && accounts[n].name <= name
        invariant n <= |accounts| && forall j | 0 <= j < n :: accounts[j].name <= name
      {
        n := n + 1;
      }
      KeepIsSuffix(accounts, AfterName(name), n);
    }

    /** Going on from the kth of the remaining accounts. */
    lemma AccountCursor(name: nat, k: nat)
      requires Valid() && k < |Keep(accounts, AfterName(name))|
      ensures var rest := Keep(accounts, AfterName(name));
              rest[k].name > 0 && Keep(accounts, AfterName(rest[k].name)) == rest[k + 1..]
    {
      hide Keep;
      var n := AccountSuffix(name);
      KeepIsSuffix(accounts, AfterName(accounts[n + k].name), n + k + 1);
    }

    lemma FromTheFirstAccount()
      requires Valid()
      ensures AccountsFrom(AtIdle(0)) == accounts
    {
      KeepIsSuffix(accounts, AfterName(0), 0);
    }
  }

  // ---- one page ----

  /** A row with the cursor that continues after it. */
  datatype Entry = Entry(row: Row, cursor: Cursor)

  function RowsOf(out: seq<Entry>): seq<Row> { seq(|out|, i requires 0 <= i < |out| => out[i].row) }

  /** What has been gathered, followed by what is left, is what was to come; and every row's cursor goes on
      right after it. */
  ghost predicate Gathered(t: Tables, c: Cursor, out: seq<Entry>, left: seq<Row>) {
    && t.Remaining(c) == RowsOf(out) + left
    && forall k | 0 <= k < |out| ::
         t.Remaining(out[k].cursor) == RowsOf(out)[k + 1..] + left && t.Size(out[k].cursor) < t.Size(c)
  }

  lemma GatherOne(t: Tables, c: Cursor, out: seq<Entry>, left: seq<Row>, e: Entry)
    requires Gathered(t, c, out, left) && left != [] && e.row == left[0]
    requires t.Remaining(e.cursor) == left[1..] && t.Size(e.cursor) < t.Size(c)
    ensures Gathered(t, c, out + [e], left[1..])
  {
    hide Tables.Remaining, Tables.Size;
    var all := out + [e];
    assert RowsOf(all) == RowsOf(out) + [e.row];
    assert left == [e.row] + left[1..];
    forall k | 0 <= k < |all|
      ensures t.Remaining(all[k].cursor) == RowsOf(all)[k + 1..] + left[1..] && t.Size(all[k].cursor) < t.Size(c)
    {
      if k < |out| {
        assert RowsOf(all)[k + 1..] == RowsOf(out)[k + 1..] + [e.row];
      } else {
        assert RowsOf(all)[k + 1..] == [];
      }
    }
  }

  lemma UsedEntry(t: Tables, state: Cursor, k: nat)
    requires t.Valid() && !state.AtIdle? && k < |t.UsedFrom(state)|
    ensures var u := t.UsedFrom(state)[k];
            var left := CountedRows(t.UsedFrom(state)[k..]) + ZeroRows(t.accounts, t.Known());
            && left != [] && left[0] == Counted(u.name, u.tokens)
            && left[1..] == CountedRows(t.UsedFrom(state)[k + 1..]) + ZeroRows(t.accounts, t.Known())
            && t.Remaining(AtUsed(u.tokens, u.name)) == left[1..] && t.Size(AtUsed(u.tokens, u.name)) < t.Size(state)
  {
    hide Keep, ZeroRows, Tables.Known, Tables.Valid, Tables.UsedFrom;
    t.UsedCursor(state, k);
    var u, rest := t.UsedFrom(state)[k], t.UsedFrom(state);
    assert rest[k..][1..] == rest[k + 1..];
    assert CountedRows(rest[k..]) == [Counted(u.name, u.tokens)] + CountedRows(rest[k + 1..]);
  }

  method TakeUsed(t: Tables, ghost c: Cursor, state: Cursor, need: nat, before: seq<Entry>)
    returns (out: seq<Entry>, more: bool, ghost left: seq<Row>)
    requires t.Valid() && !state.AtIdle? && need > 0
    requires Gathered(t, c, before, t.Remaining(state)) && t.Size(state) <= t.Size(c)
    ensures Gathered(t, c, out, left)
    ensures |before| <= |out| <= |before| + need && (more ==> |out| == |before| + need)
    ensures !more ==> left == t.Remaining(AtIdle(0)) && t.Size(AtIdle(0)) <= t.Size(c)
  {
    hide Keep, Gathered, ZeroRows, Tables.Valid, Tables.Known;
    var rows := t.TopUsers(state, need);
    ghost var rest := t.UsedFrom(state);
    var got := TakeAtMost(rows, need);
    out := before;
    left := t.Remaining(state);
    assert rest[0..] == rest;
    for i := 0 to |got|
      invariant |got| <= |rest| && got == rest[..|got|] && |out| == |before| + i
      invariant left == CountedRows(rest[i..]) + ZeroRows(t.accounts, t.Known()) && Gathered(t, c, out, left)
    {
      UsedEntry(t, state, i);
      var e := Entry(Counted(got[i].name, got[i].tokens), AtUsed(got[i].tokens, got[i].name));
      GatherOne(t, c, out, left, e);
      out, left := out + [e], left[1..];
    }
    more := |rows| > need;
    t.FromTheFirstAccount();
    if !more { assert CountedRows(rest[|got|..]) == [] && CountedRows([]) == []; }
  }

  lemma IdleEntry(t: Tables, name: nat, k: nat)
    requires t.Valid() && k < |Keep(t.accounts, AfterName(name))|
    ensures var rest := Keep(t.accounts, AfterName(name));
            && t.Remaining(AtIdle(rest[k].name)) == ZeroRows(rest[k + 1..], t.Known())
            && t.Size(AtIdle(rest[k].name)) < t.Size(AtIdle(name))
            && ZeroRows(rest[k..], t.Known())
               == (if rest[k].readable && rest[k].name !in t.Known() then [Zero(rest[k].name)] else [])
                  + ZeroRows(rest[k + 1..], t.Known())
  {
    t.AccountCursor(name, k);
    var rest := Keep(t.accounts, AfterName(name));
    assert rest[k..][1..] == rest[k + 1..];
  }

  method TakeIdle(t: Tables, ghost c: Cursor, name: nat, need: nat, before: seq<Entry>)
    returns (out: seq<Entry>, more: bool, next: nat, ghost left: seq<Row>)
    requires t.Valid() && need > 0
    requires Gathered(t, c, before, t.Remaining(AtIdle(name))) && t.Size(AtIdle(name)) <= t.Size(c)
    ensures Gathered(t, c, out, left) && |before| <= |out| <= |before| + need
    ensures if more then left == t.Remaining(AtIdle(next)) && t.Size(AtIdle(next)) < t.Size(c) else left == []
    ensures more ==> |t.AccountsFrom(AtIdle(next))| + need == |t.AccountsFrom(AtIdle(name))|
  {
    hide Keep, Gathered, Tables.Valid, Tables.Known, Tables.Size, ZeroRows;
    ghost var rest := Keep(t.accounts, AfterName(name));
    var (items, hasMore) := t.AccountPage(name, need);
    out, more, next := before, hasMore, name;
    left := t.Remaining(AtIdle(name));
    assert rest[0..] == rest && left == ZeroRows(rest, t.Known());
    for i := 0 to |items|
      invariant |items| <= |rest| && items == rest[..|items|] && |before| <= |out| <= |before| + i
      invariant left == ZeroRows(rest[i..], t.Known()) && Gathered(t, c, out, left)
    {
      IdleEntry(t, name, i);
      if items[i].readable && items[i].name !in t.Known() {
        var e := Entry(Zero(items[i].name), AtIdle(items[i].name));
        GatherOne(t, c, out, left, e);
        out, left := out + [e], left[1..];
      }
    }
    if more {
      next := items[|items| - 1].name;
      IdleEntry(t, name, |items| - 1);
      t.AccountCursor(name, |items| - 1);
    } else {
      assert rest[|items|..] == [] && ZeroRows([], t.Known()) == [] by { NoZeroRows(t.Known()); }
    }
  }

  lemma NoZeroRows(known: set<nat>)
    ensures ZeroRows([], known) == []
  {
  }

  lemma Finished(t: Tables, c: Cursor, out: seq<Entry>, left: seq<Row>, limit: nat)
    requires Gathered(t, c, out, left) && 1 <= limit < |out|
    ensures t.Remaining(c) == RowsOf(out[..limit]) + t.Remaining(out[limit - 1].cursor)
    ensures t.Size(out[limit - 1].cursor) < t.Size(c)
  {
    assert RowsOf(out) == RowsOf(out[..limit]) + RowsOf(out)[limit..];
  }

  /** Another probe, of as many accounts as rows were missing. */
  lemma OneMoreProbe(probes: nat, missing: nat, still: nat, seen: nat)
    requires still <= missing && seen >= probes * missing
    ensures seen + missing >= (probes + 1) * still
  {
    assert (probes + 1) * missing == probes * missing + missing;
    assert (probes + 1) * still <= (probes + 1) * missing;
  }

  /** A page is at most `limit` rows, the first of those to come. When it says there are more, its cursor
      stands for exactly the rest and is strictly further on; when it says there are none, there are none. A
      page that is short, even empty, without being the last is one that gave up looking: it has been through
      ten batches of accounts, each as large as what was missing and one more. */
  method UserPage(t: Tables, c: Cursor, limit: nat) returns (page: seq<Row>, hasMore: bool, next: Cursor)
    requires t.Valid() && limit > 0
    ensures |page| <= limit
    ensures if hasMore then t.Remaining(c) == page + t.Remaining(next) && t.Size(next) < t.Size(c)
            else t.Remaining(c) == page
    ensures hasMore && |page| < limit ==>
              next.AtIdle? && |t.AccountsFrom(next)| + 10 * (limit + 1 - |page|) <= |t.AccountsFrom(c)|
  {
    hide Gathered, Tables.Remaining, Tables.Size, Tables.Valid, Keep;
    var target, probes := limit + 1, 0;
    var out: seq<Entry>, state: Cursor := [], c;
    ghost var left := t.Remaining(c);
    StartGathering(t, c);
    while |out| < target
      invariant |out| <= target && probes <= IDLE_PROBE_MAX
      invariant Gathered(t, c, out, left)
      invariant left == t.Remaining(state) && t.Size(state) <= t.Size(c)
      invariant (probes > 0 || c.AtIdle? ==> state.AtIdle?)
      invariant |t.AccountsFrom(state)| + probes * (target - |out|) <= |t.AccountsFrom(c)|
      decreases !state.AtIdle?, IDLE_PROBE_MAX - probes
    {
      var need := target - |out|;
      var more;
      if !state.AtIdle? {
        out, more, left := TakeUsed(t, c, state, need, out);
        if more { break; }
        t.FromTheFirstAccount();
        state := AtIdle(0);
        continue;
      }
      probes := probes + 1;
      var after;
      ghost var seen := |t.AccountsFrom(c)| - |t.AccountsFrom(state)|;
      out, more, after, left := TakeIdle(t, c, state.name, need, out);
      if !more { break; }
      OneMoreProbe(probes - 1, need, target - |out|, seen);
      state := AtIdle(after);
      if probes >= IDLE_PROBE_MAX {
        if |out| > limit {
          Finished(t, c, out, left, limit);
          return RowsOf(out[..limit]), true, out[limit - 1].cursor;
        }
        Unfinished(t, c, out, left);
        return RowsOf(out), true, state;
      }
    }
    hasMore := |out| > limit;
    if hasMore {
      Finished(t, c, out, left, limit);
      page, next := RowsOf(out[..limit]), out[limit - 1].cursor;
    } else {
      Unfinished(t, c, out, left);
      page, next := RowsOf(out), c;
    }
  }

  lemma StartGathering(t: Tables, c: Cursor)
    ensures Gathered(t, c, [], t.Remaining(c))
  {
  }

  lemma Unfinished(t: Tables, c: Cursor, out: seq<Entry>, left: seq<Row>)
    requires Gathered(t, c, out, left)
    ensures t.Remaining(c) == RowsOf(out) + left
  {
  }

  // ---- all pages ----

  function Flat(pages: seq<seq<Row>>): seq<Row> {
    if pages == [] then [] else Flat(pages[..|pages| - 1]) + pages[|pages| - 1]
  }

  lemma StartIsWhole(t: Tables)
    ensures t.Remaining(Start) == t.Whole()
  {
  }

  /** Following the cursors ends, and the pages put together are the whole list. */
  method Traverse(t: Tables, limit: nat) returns (pages: seq<seq<Row>>)
    requires t.Valid() && limit > 0
    ensures Flat(pages) == t.Whole()
    ensures forall p | p in pages :: |p| <= limit
  {
    hide Tables.Valid, Tables.Size, Tables.AccountsFrom, Tables.Remaining, CountedRows, ZeroRows, Keep;
    pages := [];
    var cursor := Start;
    StartIsWhole(t);
    while true
      invariant t.Whole() == Flat(pages) + t.Remaining(cursor)
      invariant forall p | p in pages :: |p| <= limit
      decreases t.Size(cursor)
    {
      var page, hasMore, next := UserPage(t, cursor, limit);
      assert (pages + [page])[..|pages|] == pages;
      pages := pages + [page];
      if !hasMore { return; }
      cursor := next;
    }
  }

  ghost predicate NamesOnce(rows: seq<Row>) { forall i, j | 0 <= i < j < |rows| :: rows[i].name != rows[j].name }

  /** The whole list has every ledger user, every readable account without a ledger row, and nobody twice. */
  lemma WholeHasEveryoneOnce(t: Tables)
    requires t.Valid()
    requires forall i, j | 0 <= i < j < |t.used| :: t.used[i].name != t.used[j].name
    ensures NamesOnce(t.Whole())
    ensures forall r :: r in t.Whole() <==>
              (exists u | u in t.used :: r == Counted(u.name, u.tokens))
              || (exists a | a in t.accounts :: a.readable && a.name !in t.Known() && r == Zero(a.name))
  {
    ZeroRowsFacts(t.accounts, t.Known());
    var front, back := CountedRows(t.used), ZeroRows(t.accounts, t.Known());
    forall i | 0 <= i < |front| ensures front[i].name in t.Known() { assert t.used[i] in t.used; }
    forall r ensures r in front <==> exists u | u in t.used :: r == Counted(u.name, u.tokens) {
      if u :| u in t.used && r == Counted(u.name, u.tokens) {
        var i :| 0 <= i < |t.used| && t.used[i] == u;
        assert front[i] == r;
      }
    }
  }

  predicate InOrder(x: Row, y: Row) {
    match (x, y)
    case (Counted(a, p), Counted(b, q)) => p > q || (p == q && a < b)
    case (Counted(_, _), Zero(_)) => true
    case (Zero(a), Zero(b)) => a < b
    case (Zero(_), Counted(_, _)) => false
  }

  /** The list is ranked: whoever has more tokens first, of equals the smaller name, and then by name those who
      have used nothing. */
  lemma WholeIsRanked(t: Tables, i: nat, j: nat)
    requires t.Valid() && i < j < |t.Whole()|
    ensures InOrder(t.Whole()[i], t.Whole()[j])
  {
    var front, back := CountedRows(t.used), ZeroRows(t.accounts, t.Known());
    ZeroRowsAscend(t.accounts, t.Known());
    assert |front| == |t.used| && t.Whole() == front + back;
    assert i >= |front| ==> t.Whole()[i] == back[i - |front|] && t.Whole()[j] == back[j - |front|];
  }

  lemma {:induction false} ZeroRowsAscend(s: seq<Account>, known: set<nat>)
    requires forall i, j | 0 <= i < j < |s| :: s[i].name < s[j].name
    ensures forall r | r in ZeroRows(s, known) :: r.Zero? && s != [] && r.name >= s[0].name
    ensures forall i, j | 0 <= i < j < |ZeroRows(s, known)| :: InOrder(ZeroRows(s, known)[i], ZeroRows(s, known)[j])
  {
    if s == [] {
    } else {
      ZeroRowsAscend(s[1..], known);
    }
  }

  lemma {:induction false} ZeroRowsFacts(s: seq<Account>, known: set<nat>)
    requires forall i, j | 0 <= i < j < |s| :: s[i].name < s[j].name
    ensures NamesOnce(ZeroRows(s, known))
    ensures forall r :: r in ZeroRows(s, known) <==>
                        exists a | a in s :: a.readable && a.name !in known && r == Zero(a.name)
    ensures forall r | r in ZeroRows(s, known) :: r.name !in known
  {
    if s == [] {
    } else {
      ZeroRowsFacts(s[1..], known);
      assert s == [s[0]] + s[1..];
      assert forall r | r in ZeroRows(s[1..], known) :: r.name > s[0].name;
    }
  }
}
