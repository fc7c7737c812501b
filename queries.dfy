/**
  The read-only endpoints of main.py: the statistics summary (`get_stats`), the
  distinct value lists (`get_categories`, `get_names`, `get_destinations`) and the
  two ordered listings (`get_all_tmc`, `get_all_writeoffs`), each a function of the
  tables in Ledger.
 */
module Queries {
  import opened Wrappers
  import opened Lex
  import opened Sorting
  import opened Ledger

  // ---------------------------------------------------------------------------
  // get_stats

  /** How `get_stats` echoes an absent or empty destination filter. */
  const AllDestinations := "Все направления"

  /** The JSON object `get_stats` returns. */
  datatype Stats = Stats(
    totalAmount: int,
    count: nat,
    startDate: string,
    endDate: string,
    destination: string)

  /** Python's truth value of the optional `destination` parameter. */
  predicate Given(destination: Option<string>)
  {
    destination.Some? && destination.value != ""
  }

  /** The filters of `get_stats`: the date in [start, end] as strings, and the destination when one is given. */
  predicate Selected(w: WriteOff, startDate: string, endDate: string, destination: Option<string>)
  {
    && LexLe(startDate, w.writeoffDate)
    && LexLe(w.writeoffDate, endDate)
    && (Given(destination) ==> w.destination == destination.value)
  }

  /** The write-offs the statistics query returns, in table order. */
  function Matching(ws: seq<WriteOff>, startDate: string, endDate: string, destination: Option<string>): (r: seq<WriteOff>)
    ensures |r| <= |ws|
  {
    if ws == [] then []
    else
      var last := ws[|ws| - 1];
      Matching(ws[..|ws| - 1], startDate, endDate, destination)
        + (if Selected(last, startDate, endDate, destination) then [last] else [])
  }

  /** The statistics query returns exactly the write-offs that pass the filters. */
  lemma {:induction false} MatchingSelects(ws: seq<WriteOff>, startDate: string, endDate: string, destination: Option<string>)
    ensures forall w :: w in Matching(ws, startDate, endDate, destination) <==> w in ws && Selected(w, startDate, endDate, destination)
  {
    if ws != [] {
      var init := ws[..|ws| - 1];
      MatchingSelects(init, startDate, endDate, destination);
      assert ws == init + [ws[|ws| - 1]];
    }
  }

  /** `sum(w.total_amount for w in ws)`. */
  function SumTotals(ws: seq<WriteOff>): int
  {
    if ws == [] then 0 else SumTotals(ws[..|ws| - 1]) + ws[|ws| - 1].totalAmount
  }

  /** `GET /stats`: count and total of the selected write-offs, with the inputs echoed. */
  function GetStats(ws: seq<WriteOff>, startDate: string, endDate: string, destination: Option<string>): (r: Stats)
    ensures r.startDate == startDate && r.endDate == endDate
    ensures r.destination == if Given(destination) then destination.value else AllDestinations
    ensures r.count <= |ws|
  {
    var selected := Matching(ws, startDate, endDate, destination);
    Stats(
      totalAmount := SumTotals(selected),
      count := |selected|,
      startDate := startDate,
      endDate := endDate,
      destination := if Given(destination) then destination.value else AllDestinations)
  }

  /** The positions of the selected write-offs. */
  ghost function SelectedPositions(ws: seq<WriteOff>, startDate: string, endDate: string, destination: Option<string>): set<nat>
  {
    set k: nat | k < |ws| && Selected(ws[k], startDate, endDate, destination)
  }

  /** `count` is the number of write-offs in the table that pass both filters. */
  lemma {:induction false} StatsCountsSelectedRows(ws: seq<WriteOff>, startDate: string, endDate: string, destination: Option<string>)
    ensures GetStats(ws, startDate, endDate, destination).count == |SelectedPositions(ws, startDate, endDate, destination)|
  {
    if ws != [] {
      var n := |ws| - 1;
      StatsCountsSelectedRows(ws[..n], startDate, endDate, destination);
      SelectedPositionsSnoc(ws, startDate, endDate, destination);
    }
  }

  /** The selected positions of a table are those of all but its last row, plus the last one if it is selected. */
  lemma SelectedPositionsSnoc(ws: seq<WriteOff>, startDate: string, endDate: string, destination: Option<string>)
    requires ws != []
    ensures var n := |ws| - 1;
      SelectedPositions(ws, startDate, endDate, destination)
      == SelectedPositions(ws[..n], startDate, endDate, destination)
         + (if Selected(ws[n], startDate, endDate, destination) then {n} else {})
  {
    var n := |ws| - 1;
    assert forall k :: 0 <= k < n ==> ws[..n][k] == ws[k];
  }

  /** Statistics over a table that is the concatenation of two add up. */
  lemma {:induction false} StatsAdditive(ws1: seq<WriteOff>, ws2: seq<WriteOff>, startDate: string, endDate: string, destination: Option<string>)
    ensures var s1, s2 := GetStats(ws1, startDate, endDate, destination), GetStats(ws2, startDate, endDate, destination);
      var s := GetStats(ws1 + ws2, startDate, endDate, destination);
      s.count == s1.count + s2.count && s.totalAmount == s1.totalAmount + s2.totalAmount
  {
    MatchingAppend(ws1, ws2, startDate, endDate, destination);
    SumTotalsAppend(Matching(ws1, startDate, endDate, destination), Matching(ws2, startDate, endDate, destination));
  }

  lemma {:induction false} MatchingAppend(ws1: seq<WriteOff>, ws2: seq<WriteOff>, startDate: string, endDate: string, destination: Option<string>)
    ensures Matching(ws1 + ws2, startDate, endDate, destination)
         == Matching(ws1, startDate, endDate, destination) + Matching(ws2, startDate, endDate, destination)
  {
    if ws2 == [] {
      assert ws1 + ws2 == ws1;
    } else {
      var n := |ws2| - 1;
      var last := ws2[n];
      MatchingAppend(ws1, ws2[..n], startDate, endDate, destination);
      assert (ws1 + ws2)[|ws1 + ws2| - 1] == last;
      assert (ws1 + ws2)[..|ws1 + ws2| - 1] == ws1 + ws2[..n];
      var tail := if Selected(last, startDate, endDate, destination) then [last] else [];
      assert Matching(ws1 + ws2, startDate, endDate, destination)
          == Matching(ws1 + ws2[..n], startDate, endDate, destination) + tail;
      assert Matching(ws2, startDate, endDate, destination)
          == Matching(ws2[..n], startDate, endDate, destination) + tail;
      AppendAssociative(Matching(ws1, startDate, endDate, destination),
                        Matching(ws2[..n], startDate, endDate, destination), tail);
    }
  }

  lemma AppendAssociative<T>(a: seq<T>, b: seq<T>, c: seq<T>)
    ensures (a + b) + c == a + (b + c)
  {
  }

  lemma {:induction false} SumTotalsAppend(ws1: seq<WriteOff>, ws2: seq<WriteOff>)
    ensures SumTotals(ws1 + ws2) == SumTotals(ws1) + SumTotals(ws2)
  {
    if ws2 == [] {
      assert ws1 + ws2 == ws1;
    } else {
      var n := |ws2| - 1;
      SumTotalsAppend(ws1, ws2[..n]);
      assert (ws1 + ws2)[..|ws1 + ws2| - 1] == ws1 + ws2[..n];
    }
  }

  /**
    Recording one write-off adds one to the count and its total to the sum exactly
    when it passes the filters; otherwise the statistics do not change.
   */
  lemma StatsAfterWriteoff(ws: seq<WriteOff>, w: WriteOff, startDate: string, endDate: string, destination: Option<string>)
    ensures var before, after := GetStats(ws, startDate, endDate, destination), GetStats(ws + [w], startDate, endDate, destination);
      if Selected(w, startDate, endDate, destination) then
        after.count == before.count + 1 && after.totalAmount == before.totalAmount + w.totalAmount
      else
        after.count == before.count && after.totalAmount == before.totalAmount
  {
    StatsAdditive(ws, [w], startDate, endDate, destination);
    assert Matching([w], startDate, endDate, destination)
        == if Selected(w, startDate, endDate, destination) then [w] else [] by {
      assert [w][..0] == [];
    }
  }

  /** A range whose start comes after its end (in string order) selects nothing. */
  lemma EmptyRange(ws: seq<WriteOff>, startDate: string, endDate: string, destination: Option<string>)
    requires !LexLe(startDate, endDate)
    ensures GetStats(ws, startDate, endDate, destination).count == 0
    ensures GetStats(ws, startDate, endDate, destination).totalAmount == 0
  {
    forall w | w in ws
      ensures !Selected(w, startDate, endDate, destination)
    {
      if LexLe(startDate, w.writeoffDate) && LexLe(w.writeoffDate, endDate) {
        LexLeTransitive(startDate, w.writeoffDate, endDate);
      }
    }
    MatchingNone(ws, startDate, endDate, destination);
  }

  lemma {:induction false} MatchingNone(ws: seq<WriteOff>, startDate: string, endDate: string, destination: Option<string>)
    requires forall w :: w in ws ==> !Selected(w, startDate, endDate, destination)
    ensures Matching(ws, startDate, endDate, destination) == []
  {
    if ws != [] {
      var init := ws[..|ws| - 1];
      assert forall w :: w in init ==> w in ws;
      MatchingNone(init, startDate, endDate, destination);
    }
  }

  /** Filtering by a destination can only narrow the selection. */
  lemma {:induction false} DestinationNarrows(ws: seq<WriteOff>, startDate: string, endDate: string, destination: string)
    ensures GetStats(ws, startDate, endDate, Some(destination)).count <= GetStats(ws, startDate, endDate, None).count
  {
    if ws != [] {
      DestinationNarrows(ws[..|ws| - 1], startDate, endDate, destination);
    }
  }

  // ---------------------------------------------------------------------------
  // get_categories, get_names, get_destinations

  ghost predicate NoDuplicates(s: seq<string>)
  {
    forall i, j :: 0 <= i < j < |s| ==> s[i] != s[j]
  }

  /** SQL `DISTINCT`: each value once. SQL fixes no order; this keeps first occurrences. */
  function Distinct(s: seq<string>): (r: seq<string>)
    ensures NoDuplicates(r)
    ensures forall x :: x in r <==> x in s
  {
    if s == [] then []
    else
      var init := s[..|s| - 1];
      var last := s[|s| - 1];
      assert s == init + [last];
      var d := Distinct(init);
      if last in d then d else d + [last]
  }

  /** The comprehension `[v for v in values if v]`: empty strings dropped, order kept. */
  function NonEmpty(s: seq<string>): (r: seq<string>)
    ensures forall x :: x in r <==> x in s && x != ""
    ensures NoDuplicates(s) ==> NoDuplicates(r)
  {
    if s == [] then []
    else
      var init := s[..|s| - 1];
      var last := s[|s| - 1];
      assert s == init + [last];
      var rest := NonEmpty(init);
      assert NoDuplicates(s) ==> NoDuplicates(init) && last !in init;
      if last == "" then rest else rest + [last]
  }

  function Categories(items: seq<TmcItem>): (r: seq<string>)
    ensures |r| == |items|
    ensures forall k :: 0 <= k < |items| ==> r[k] == items[k].category
  {
    if items == [] then [] else Categories(items[..|items| - 1]) + [items[|items| - 1].category]
  }

  function NamesIn(items: seq<TmcItem>, category: string): (r: seq<string>)
    ensures forall x :: x in r <==> exists k :: 0 <= k < |items| && items[k].category == category && items[k].name == x
  {
    if items == [] then []
    else
      var init := items[..|items| - 1];
      var last := items[|items| - 1];
      assert forall k :: 0 <= k < |init| ==> init[k] == items[k];
      NamesIn(init, category) + (if last.category == category then [last.name] else [])
  }

  function Destinations(ws: seq<WriteOff>): (r: seq<string>)
    ensures |r| == |ws|
    ensures forall k :: 0 <= k < |ws| ==> r[k] == ws[k].destination
  {
    if ws == [] then [] else Destinations(ws[..|ws| - 1]) + [ws[|ws| - 1].destination]
  }

  /** `GET /categories`: every non-empty category of the catalog, once. */
  function GetCategories(items: seq<TmcItem>): (r: seq<string>)
    ensures NoDuplicates(r)
    ensures forall c :: c in r <==> c != "" && exists k :: 0 <= k < |items| && items[k].category == c
  {
    var all := Categories(items);
    assert forall c :: c in all <==> exists k :: 0 <= k < |items| && items[k].category == c by {
      forall c | c in all ensures exists k :: 0 <= k < |items| && items[k].category == c {
        var k :| 0 <= k < |all| && all[k] == c;
        assert items[k].category == c;
      }
    }
    NonEmpty(Distinct(all))
  }

  /** `GET /names/{category}`: every non-empty name under that category in the catalog, once. */
  function GetNames(items: seq<TmcItem>, category: string): (r: seq<string>)
    ensures NoDuplicates(r)
    ensures forall n :: n in r <==>
              n != "" && exists k :: 0 <= k < |items| && items[k].category == category && items[k].name == n
  {
    NonEmpty(Distinct(NamesIn(items, category)))
  }

  /** `GET /destinations`: every non-empty destination among the write-offs, once. */
  function GetDestinations(ws: seq<WriteOff>): (r: seq<string>)
    ensures NoDuplicates(r)
    ensures forall d :: d in r <==> d != "" && exists k :: 0 <= k < |ws| && ws[k].destination == d
  {
    var all := Destinations(ws);
    assert forall d :: d in all <==> exists k :: 0 <= k < |ws| && ws[k].destination == d by {
      forall d | d in all ensures exists k :: 0 <= k < |ws| && ws[k].destination == d {
        var k :| 0 <= k < |all| && all[k] == d;
        assert ws[k].destination == d;
      }
    }
    NonEmpty(Distinct(all))
  }

  // ---------------------------------------------------------------------------
  // get_all_tmc, get_all_writeoffs

  /** `ORDER BY category, name`. */
  predicate ItemBefore(a: TmcItem, b: TmcItem)
  {
    LexLt(a.category, b.category) || (a.category == b.category && LexLe(a.name, b.name))
  }

  /** `ORDER BY writeoff_date DESC`. */
  predicate WriteoffBefore(a: WriteOff, b: WriteOff)
  {
    LexLe(b.writeoffDate, a.writeoffDate)
  }

  lemma ItemOrderIsTotalPreorder()
    ensures TotalPreorder(ItemBefore)
  {
    forall a: TmcItem, b: TmcItem
      ensures ItemBefore(a, b) || ItemBefore(b, a)
    {
      LexLeTotal(a.category, b.category);
      LexLeTotal(a.name, b.name);
    }
    forall a: TmcItem, b: TmcItem, c: TmcItem | ItemBefore(a, b) && ItemBefore(b, c)
      ensures ItemBefore(a, c)
    {
      if LexLt(a.category, b.category) && LexLt(b.category, c.category) {
        LexLeTransitive(a.category, b.category, c.category);
        if a.category == c.category {
          LexLeAntisymmetric(a.category, b.category);
        }
      } else if a.category == b.category && b.category == c.category {
        LexLeTransitive(a.name, b.name, c.name);
      }
    }
  }

  lemma WriteoffOrderIsTotalPreorder()
    ensures TotalPreorder(WriteoffBefore)
  {
    forall a: WriteOff, b: WriteOff
      ensures WriteoffBefore(a, b) || WriteoffBefore(b, a)
    {
      LexLeTotal(a.writeoffDate, b.writeoffDate);
    }
    forall a: WriteOff, b: WriteOff, c: WriteOff | WriteoffBefore(a, b) && WriteoffBefore(b, c)
      ensures WriteoffBefore(a, c)
    {
      LexLeTransitive(c.writeoffDate, b.writeoffDate, a.writeoffDate);
    }
  }

  /** `GET /tmc/all`: the whole catalog, ordered by category and then name. */
  function GetAllTmc(items: seq<TmcItem>): (r: seq<TmcItem>)
    ensures forall i, j :: 0 <= i < j < |r| ==>
              LexLt(r[i].category, r[j].category) || (r[i].category == r[j].category && LexLe(r[i].name, r[j].name))
    ensures multiset(r) == multiset(items)
  {
    ItemOrderIsTotalPreorder();
    SortBy(items, ItemBefore)
  }

  /** `GET /writeoffs/all`: every write-off, latest date first. */
  function GetAllWriteoffs(ws: seq<WriteOff>): (r: seq<WriteOff>)
    ensures forall i, j :: 0 <= i < j < |r| ==> LexLe(r[j].writeoffDate, r[i].writeoffDate)
    ensures multiset(r) == multiset(ws)
  {
    WriteoffOrderIsTotalPreorder();
    SortBy(ws, WriteoffBefore)
  }
}
