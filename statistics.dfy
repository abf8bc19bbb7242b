/**
 * The aggregation engine: four reductions over the full row sequence the store returns.
 * No reduction looks at a date window except `stats_today`; the per-slot ones scan every row.
 * Slots (column `heure`) are kept in order of first appearance, as Python dicts keep keys
 * in insertion order.
 */
module Statistics {
  import opened Database

  function Sum(s: seq<int>): int {
    if s == [] then 0 else Sum(s[..|s| - 1]) + s[|s| - 1]
  }

  lemma SumSnoc(s: seq<int>, x: int)
    ensures Sum(s + [x]) == Sum(s) + x
  {
    assert (s + [x])[..|s|] == s;
  }

  function SumTotals(rows: seq<Row>): int {
    if rows == [] then 0 else SumTotals(rows[..|rows| - 1]) + rows[|rows| - 1].total
  }

  lemma SumTotalsSnoc(rows: seq<Row>, r: Row)
    ensures SumTotals(rows + [r]) == SumTotals(rows) + r.total
  {
    assert (rows + [r])[..|rows|] == rows;
  }

  lemma {:induction false} SumTotalsNonNegative(rows: seq<Row>)
    requires forall i | 0 <= i < |rows| :: rows[i].total >= 0
    ensures SumTotals(rows) >= 0
  {
    if rows != [] {
      SumTotalsNonNegative(rows[..|rows| - 1]);
    }
  }

  predicate NoDuplicates(s: seq<string>) {
    forall i, j | 0 <= i < j < |s| :: s[i] != s[j]
  }

  // ---------------------------------------------------------------- stats_today

  /** `[row for row in data if row[7] == today]`. */
  function RowsOn(rows: seq<Row>, day: string): (r: seq<Row>)
    ensures forall x :: x in r <==> x in rows && x.date == day
    ensures |r| <= |rows|
  {
    if rows == [] then []
    else
      var p := rows[..|rows| - 1];
      var last := rows[|rows| - 1];
      assert rows == p + [last];
      RowsOn(p, day) + (if last.date == day then [last] else [])
  }

  lemma DayTotalNonNegative(rows: seq<Row>, today: string)
    ensures (forall i | 0 <= i < |rows| :: rows[i].total >= 0) ==> SumTotals(RowsOn(rows, today)) >= 0
  {
    var on := RowsOn(rows, today);
    if forall i | 0 <= i < |rows| :: rows[i].total >= 0 {
      forall i | 0 <= i < |on| ensures on[i].total >= 0 {
        assert on[i] in on;
      }
      SumTotalsNonNegative(on);
    }
  }

  /** `stats_today`, with today's date key passed in instead of read from the clock. */
  function StatsToday(rows: seq<Row>, today: string): (t: int)
    ensures (forall i | 0 <= i < |rows| :: rows[i].total >= 0) ==> t >= 0
  {
    var on := RowsOn(rows, today);
    DayTotalNonNegative(rows, today);
    SumTotals(on)
  }

  /** Appending one row changes today's total by that row's total if it is dated today, else not at all. */
  lemma StatsTodaySnoc(rows: seq<Row>, r: Row, today: string)
    ensures StatsToday(rows + [r], today) == StatsToday(rows, today) + (if r.date == today then r.total else 0)
  {
    assert (rows + [r])[..|rows|] == rows;
    if r.date == today {
      SumTotalsSnoc(RowsOn(rows, today), r);
    } else {
      assert RowsOn(rows + [r], today) == RowsOn(rows, today);
    }
  }

  /** Today's total over a concatenation is the sum of the parts' totals. */
  lemma {:induction false} StatsTodayConcat(a: seq<Row>, b: seq<Row>, today: string)
    ensures StatsToday(a + b, today) == StatsToday(a, today) + StatsToday(b, today)
    decreases |b|
  {
    if b == [] {
      assert a + b == a;
    } else {
      var p, last := b[..|b| - 1], b[|b| - 1];
      assert b == p + [last];
      assert a + b == (a + p) + [last];
      StatsTodayConcat(a, p, today);
      StatsTodaySnoc(a + p, last, today);
      StatsTodaySnoc(p, last, today);
    }
  }

  /** Today's total is 0 when no row carries today's date (in particular on empty data). */
  lemma {:induction false} StatsTodayNoMatch(rows: seq<Row>, today: string)
    requires forall i | 0 <= i < |rows| :: rows[i].date != today
    ensures StatsToday(rows, today) == 0
  {
    if rows != [] {
      var p, last := rows[..|rows| - 1], rows[|rows| - 1];
      assert rows == p + [last];
      StatsTodayNoMatch(p, today);
      StatsTodaySnoc(p, last, today);
    }
  }

  // ---------------------------------------------------------------- slots

  predicate HasSlot(rows: seq<Row>, h: string) {
    exists i | 0 <= i < |rows| :: rows[i].heure == h
  }

  lemma HasSlotSnoc(rows: seq<Row>, r: Row, h: string)
    ensures HasSlot(rows + [r], h) <==> HasSlot(rows, h) || r.heure == h
  {
    var s := rows + [r];
    if HasSlot(s, h) && r.heure != h {
      var i :| 0 <= i < |s| && s[i].heure == h;
      assert i < |rows| && rows[i].heure == h;
    }
    if HasSlot(rows, h) {
      var i :| 0 <= i < |rows| && rows[i].heure == h;
      assert s[i].heure == h;
    }
    if r.heure == h {
      assert s[|rows|].heure == h;
    }
  }

  /** The index of the first row of slot h, or |rows| when no row has that slot. */
  function FirstRow(rows: seq<Row>, h: string): (i: int)
    ensures 0 <= i <= |rows|
    ensures i < |rows| <==> HasSlot(rows, h)
    ensures i < |rows| ==> rows[i].heure == h
    ensures forall j | 0 <= j < i :: rows[j].heure != h
  {
    if rows == [] then 0
    else
      var p, last := rows[..|rows| - 1], rows[|rows| - 1];
      assert rows == p + [last];
      HasSlotSnoc(p, last, h);
      var fp := FirstRow(p, h);
      if fp < |p| then fp else if last.heure == h then |p| else |rows|
  }

  /** The distinct slots of the rows, in order of first appearance (the key order of the dicts). */
  function SlotOrder(rows: seq<Row>): (hs: seq<string>)
    ensures NoDuplicates(hs)
    ensures forall h :: h in hs <==> HasSlot(rows, h)
  {
    if rows == [] then []
    else
      var p, last := rows[..|rows| - 1], rows[|rows| - 1];
      assert rows == p + [last];
      var hp := SlotOrder(p);
      forall h ensures HasSlot(rows, h) <==> HasSlot(p, h) || last.heure == h {
        HasSlotSnoc(p, last, h);
      }
      if last.heure in hp then hp else hp + [last.heure]
  }

  /** Slots listed in order of the rows in which each first appears. */
  predicate InFirstAppearanceOrder(rows: seq<Row>, hs: seq<string>) {
    forall i, j | 0 <= i < j < |hs| :: FirstRow(rows, hs[i]) < FirstRow(rows, hs[j])
  }

  lemma FirstRowSnoc(rows: seq<Row>, r: Row, h: string)
    ensures HasSlot(rows, h) ==> FirstRow(rows + [r], h) == FirstRow(rows, h)
    ensures !HasSlot(rows, h) && r.heure == h ==> FirstRow(rows + [r], h) == |rows|
  {
    assert (rows + [r])[..|rows|] == rows;
  }

  /** SlotOrder lists the slots in the order in which their first rows appear. */
  lemma {:induction false} SlotOrderFirstAppearance(rows: seq<Row>)
    ensures InFirstAppearanceOrder(rows, SlotOrder(rows))
  {
    if rows != [] {
      var p, last := rows[..|rows| - 1], rows[|rows| - 1];
      assert rows == p + [last];
      SlotOrderFirstAppearance(p);
      var hp, hs := SlotOrder(p), SlotOrder(rows);
      forall h | h in hp ensures FirstRow(rows, h) == FirstRow(p, h) < |p| {
        FirstRowSnoc(p, last, h);
      }
      assert InFirstAppearanceOrder(rows, hp) by {
        forall i, j | 0 <= i < j < |hp| ensures FirstRow(rows, hp[i]) < FirstRow(rows, hp[j]) {
          assert hp[i] in hp && hp[j] in hp;
        }
      }
      if last.heure !in hp {
        assert hs == hp + [last.heure];
        FirstRowSnoc(p, last, last.heure);
        OrderSnoc(rows, hp, last.heure);
      } else {
        assert hs == hp;
      }
    }
  }

  /** `hours[h]` of `average_per_hour`: the totals of the rows of slot h, in row order. */
  function SlotTotals(rows: seq<Row>, h: string): (t: seq<int>)
    ensures |t| <= |rows|
    ensures t == [] <==> !HasSlot(rows, h)
  {
    if rows == [] then []
    else
      var p, last := rows[..|rows| - 1], rows[|rows| - 1];
      assert rows == p + [last];
      HasSlotSnoc(p, last, h);
      SlotTotals(p, h) + (if last.heure == h then [last.total] else [])
  }

  lemma SlotTotalsSnoc(rows: seq<Row>, r: Row, h: string)
    ensures SlotTotals(rows + [r], h) == SlotTotals(rows, h) + (if r.heure == h then [r.total] else [])
  {
    assert (rows + [r])[..|rows|] == rows;
  }

  /** Sum of the totals of slot h (`hours[h]` of `peak_hours`, built by `+=`). */
  function SlotSum(rows: seq<Row>, h: string): int {
    if rows == [] then 0
    else SlotSum(rows[..|rows| - 1], h) + (if rows[|rows| - 1].heure == h then rows[|rows| - 1].total else 0)
  }

  lemma SlotSumSnoc(rows: seq<Row>, r: Row, h: string)
    ensures SlotSum(rows + [r], h) == SlotSum(rows, h) + (if r.heure == h then r.total else 0)
  {
    assert (rows + [r])[..|rows|] == rows;
  }

  /** The list `average_per_hour` keeps for a slot sums to the slot's sum: both dicts agree. */
  lemma {:induction false} SlotTotalsSum(rows: seq<Row>, h: string)
    ensures Sum(SlotTotals(rows, h)) == SlotSum(rows, h)
  {
    if rows != [] {
      var p, last := rows[..|rows| - 1], rows[|rows| - 1];
      assert rows == p + [last];
      SlotTotalsSum(p, h);
      SlotTotalsSnoc(p, last, h);
      SlotSumSnoc(p, last, h);
      if last.heure == h {
        SumSnoc(SlotTotals(p, h), last.total);
      } else {
        assert SlotTotals(rows, h) == SlotTotals(p, h);
      }
    }
  }

  lemma {:induction false} SlotSumAbsent(rows: seq<Row>, h: string)
    requires !HasSlot(rows, h)
    ensures SlotSum(rows, h) == 0
  {
    SlotTotalsSum(rows, h);
  }

  /** Mean total of slot h; only defined for a slot that occurs, so never a division by zero. */
  function SlotAverage(rows: seq<Row>, h: string): real
    requires HasSlot(rows, h)
  {
    Sum(SlotTotals(rows, h)) as real / |SlotTotals(rows, h)| as real
  }

  /** Element bounds lo..hi bound a sum by count times lo and count times hi. */
  lemma {:induction false} SumBounds(s: seq<int>, lo: int, hi: int)
    requires forall k | 0 <= k < |s| :: lo <= s[k] <= hi
    ensures |s| * lo <= Sum(s) <= |s| * hi
  {
    if s != [] {
      var p := s[..|s| - 1];
      SumBounds(p, lo, hi);
      var n := |p|;
      assert (n + 1) * lo == n * lo + lo;
      assert (n + 1) * hi == n * hi + hi;
    }
  }

  /** Bounds on the totals of a slot's rows hold of every entry of that slot's list. */
  lemma {:induction false} SlotTotalsWithin(rows: seq<Row>, h: string, lo: int, hi: int)
    requires forall i | 0 <= i < |rows| && rows[i].heure == h :: lo <= rows[i].total <= hi
    ensures forall k | 0 <= k < |SlotTotals(rows, h)| :: lo <= SlotTotals(rows, h)[k] <= hi
  {
    if rows != [] {
      var p, last := rows[..|rows| - 1], rows[|rows| - 1];
      assert rows == p + [last];
      SlotTotalsWithin(p, h, lo, hi);
      SlotTotalsSnoc(p, last, h);
    }
  }

  lemma DivBetween(s: real, n: real, lo: real, hi: real)
    requires n > 0.0 && n * lo <= s <= n * hi
    ensures lo <= s / n <= hi
  {
  }

  /** A slot's average lies between any lower and upper bound of that slot's totals. */
  lemma SlotAverageBetween(rows: seq<Row>, h: string, lo: int, hi: int)
    requires HasSlot(rows, h)
    requires forall i | 0 <= i < |rows| && rows[i].heure == h :: lo <= rows[i].total <= hi
    ensures lo as real <= SlotAverage(rows, h) <= hi as real
  {
    var t := SlotTotals(rows, h);
    SlotTotalsWithin(rows, h, lo, hi);
    SumBounds(t, lo, hi);
    DivBetween(Sum(t) as real, |t| as real, lo as real, hi as real);
  }

  // ---------------------------------------------------------------- average_per_hour

  /** What the loop of `average_per_hour` keeps after the rows `done`: key order and collected totals. */
  ghost predicate TotalsAfter(done: seq<Row>, order: seq<string>, hours: map<string, seq<int>>) {
    && order == SlotOrder(done)
    && (forall h :: h in hours <==> HasSlot(done, h))
    && (forall h | h in hours :: hours[h] == SlotTotals(done, h))
  }

  /** One iteration, `hours[row[1]].append(row[6])` on the defaultdict, keeps TotalsAfter. */
  lemma TotalsAfterStep(done: seq<Row>, r: Row, order: seq<string>, hours: map<string, seq<int>>)
    requires TotalsAfter(done, order, hours)
    ensures r.heure in hours ==> TotalsAfter(done + [r], order, hours[r.heure := hours[r.heure] + [r.total]])
    ensures r.heure !in hours ==> TotalsAfter(done + [r], order + [r.heure], hours[r.heure := [r.total]])
  {
    var next := done + [r];
    assert next[..|done|] == done;
    forall h ensures SlotTotals(next, h) == SlotTotals(done, h) + (if r.heure == h then [r.total] else []) {
      SlotTotalsSnoc(done, r, h);
    }
    forall h ensures HasSlot(next, h) <==> HasSlot(done, h) || r.heure == h {
      HasSlotSnoc(done, r, h);
    }
  }

  /**
   * `average_per_hour`: the dict from slot to mean total, as its key order `slots` and
   * its contents `avg`. Exactly the slots that occur are keys; each maps to its mean.
   */
  method AveragePerHour(rows: seq<Row>) returns (slots: seq<string>, avg: map<string, real>)
    ensures slots == SlotOrder(rows)
    ensures forall h :: h in avg <==> HasSlot(rows, h)
    ensures forall h | h in avg :: HasSlot(rows, h) && avg[h] == SlotAverage(rows, h)
  {
    var order: seq<string> := [];
    var hours: map<string, seq<int>> := map[];
    var i := 0;
    while i < |rows|
      invariant 0 <= i <= |rows|
      invariant TotalsAfter(rows[..i], order, hours)
    {
      var r := rows[i];
      assert rows[..i + 1] == rows[..i] + [r];
      TotalsAfterStep(rows[..i], r, order, hours);
      if r.heure in hours {
        hours := hours[r.heure := hours[r.heure] + [r.total]];
      } else {
        order := order + [r.heure];
        hours := hours[r.heure := [r.total]];
      }
      i := i + 1;
    }
    assert rows[..i] == rows;
    avg := map h | h in hours :: Sum(hours[h]) as real / |hours[h]| as real;
    slots := order;
  }

  // ---------------------------------------------------------------- peak_hours

  /** The largest slot sum over the slots hs (`max(hours.values())`). */
  function MaxSlotSum(rows: seq<Row>, hs: seq<string>): (m: int)
    requires hs != []
    ensures forall k | 0 <= k < |hs| :: SlotSum(rows, hs[k]) <= m
    ensures exists k | 0 <= k < |hs| :: SlotSum(rows, hs[k]) == m
  {
    if |hs| == 1 then SlotSum(rows, hs[0])
    else
      var p := hs[..|hs| - 1];
      var m := MaxSlotSum(rows, p);
      var v := SlotSum(rows, hs[|hs| - 1]);
      assert forall k | 0 <= k < |p| :: p[k] == hs[k];
      if v > m then v else m
  }

  /** `[h for h, v in hours.items() if v == max_val]` over the slots hs in their order. */
  function SlotsWithSum(rows: seq<Row>, hs: seq<string>, m: int): (r: seq<string>)
    ensures forall h :: h in r <==> h in hs && SlotSum(rows, h) == m
    ensures NoDuplicates(hs) ==> NoDuplicates(r)
  {
    if hs == [] then []
    else
      var p, last := hs[..|hs| - 1], hs[|hs| - 1];
      assert hs == p + [last];
      var rp := SlotsWithSum(rows, p, m);
      assert NoDuplicates(hs) ==> NoDuplicates(p) && last !in p;
      rp + (if SlotSum(rows, last) == m then [last] else [])
  }

  /** What `peak_hours` returns: [] on empty data, else every slot whose sum is the maximum. */
  function Peaks(rows: seq<Row>): seq<string> {
    var hs := SlotOrder(rows);
    if hs == [] then [] else SlotsWithSum(rows, hs, MaxSlotSum(rows, hs))
  }

  lemma SlotSumStep(rows: seq<Row>, r: Row)
    ensures forall h :: SlotSum(rows + [r], h) == SlotSum(rows, h) + (if r.heure == h then r.total else 0)
  {
    forall h ensures SlotSum(rows + [r], h) == SlotSum(rows, h) + (if r.heure == h then r.total else 0) {
      SlotSumSnoc(rows, r, h);
    }
  }

  /** What the first loop of `peak_hours` keeps after the rows `done`: key order and slot sums. */
  ghost predicate SumsAfter(done: seq<Row>, order: seq<string>, hours: map<string, int>) {
    && order == SlotOrder(done)
    && (forall h :: h in hours <==> HasSlot(done, h))
    && (forall h | h in hours :: hours[h] == SlotSum(done, h))
  }

  /** One iteration, `hours[row[1]] += row[6]` on the defaultdict, keeps SumsAfter. */
  lemma SumsAfterStep(done: seq<Row>, r: Row, order: seq<string>, hours: map<string, int>)
    requires SumsAfter(done, order, hours)
    ensures r.heure in hours ==> SumsAfter(done + [r], order, hours[r.heure := hours[r.heure] + r.total])
    ensures r.heure !in hours ==> SumsAfter(done + [r], order + [r.heure], hours[r.heure := r.total])
  {
    var next := done + [r];
    assert next[..|done|] == done;
    SlotSumStep(done, r);
    forall h ensures HasSlot(next, h) <==> HasSlot(done, h) || r.heure == h {
      HasSlotSnoc(done, r, h);
    }
    if r.heure !in hours {
      SlotSumAbsent(done, r.heure);
    }
  }

  /** The first loop of `peak_hours`: the dict from slot to summed total, as key order and contents. */
  method SumPerHour(rows: seq<Row>) returns (order: seq<string>, hours: map<string, int>)
    ensures order == SlotOrder(rows)
    ensures forall h :: h in hours <==> HasSlot(rows, h)
    ensures forall h | h in hours :: hours[h] == SlotSum(rows, h)
  {
    order, hours := [], map[];
    var i := 0;
    while i < |rows|
      invariant 0 <= i <= |rows|
      invariant SumsAfter(rows[..i], order, hours)
    {
      var r := rows[i];
      assert rows[..i + 1] == rows[..i] + [r];
      SumsAfterStep(rows[..i], r, order, hours);
      if r.heure in hours {
        hours := hours[r.heure := hours[r.heure] + r.total];
      } else {
        order := order + [r.heure];
        hours := hours[r.heure := r.total];
      }
      i := i + 1;
    }
    assert rows[..i] == rows;
  }

  /** `max(hours.values())` for the non-empty dict of slot sums. */
  method MaxValue(rows: seq<Row>, order: seq<string>, hours: map<string, int>) returns (maxVal: int)
    requires order != []
    requires forall k | 0 <= k < |order| :: order[k] in hours && hours[order[k]] == SlotSum(rows, order[k])
    ensures maxVal == MaxSlotSum(rows, order)
  {
    maxVal := hours[order[0]];
    var k := 1;
    while k < |order|
      invariant 1 <= k <= |order|
      invariant maxVal == MaxSlotSum(rows, order[..k])
    {
      assert order[..k + 1][..k] == order[..k];
      if hours[order[k]] > maxVal {
        maxVal := hours[order[k]];
      }
      k := k + 1;
    }
    assert order[..k] == order;
  }

  /** `[h for h, v in hours.items() if v == max_val]`. */
  method KeysWithValue(rows: seq<Row>, order: seq<string>, hours: map<string, int>, maxVal: int)
    returns (peaks: seq<string>)
    requires forall k | 0 <= k < |order| :: order[k] in hours && hours[order[k]] == SlotSum(rows, order[k])
    ensures peaks == SlotsWithSum(rows, order, maxVal)
  {
    peaks := [];
    var k := 0;
    while k < |order|
      invariant 0 <= k <= |order|
      invariant peaks == SlotsWithSum(rows, order[..k], maxVal)
    {
      assert order[..k + 1][..k] == order[..k];
      if hours[order[k]] == maxVal {
        peaks := peaks + [order[k]];
      }
      k := k + 1;
    }
    assert order[..k] == order;
  }

  /** `peak_hours`. */
  method PeakHours(rows: seq<Row>) returns (peaks: seq<string>)
    ensures peaks == Peaks(rows)
  {
    var order, hours := SumPerHour(rows);
    assert order != [] ==> order[0] in hours;
    if |hours| == 0 {
      return [];
    }
    assert order != [] by {
      var h :| h in hours;
    }
    var maxVal := MaxValue(rows, order, hours);
    peaks := KeysWithValue(rows, order, hours, maxVal);
  }

  /** Empty data has no peak slot; any other data has at least one. */
  lemma PeaksEmpty(rows: seq<Row>)
    ensures Peaks(rows) == [] <==> rows == []
  {
    if rows != [] {
      assert HasSlot(rows, rows[0].heure);
      var hs := SlotOrder(rows);
      var m := MaxSlotSum(rows, hs);
      var k :| 0 <= k < |hs| && SlotSum(rows, hs[k]) == m;
      assert hs[k] in Peaks(rows);
    }
  }

  /** A slot is a peak exactly when it occurs and no slot of the data has a larger sum: all ties are kept. */
  lemma PeaksExactlyMaximal(rows: seq<Row>, h: string)
    ensures h in Peaks(rows) <==>
      HasSlot(rows, h) && forall i | 0 <= i < |rows| :: SlotSum(rows, rows[i].heure) <= SlotSum(rows, h)
  {
    var hs := SlotOrder(rows);
    if hs != [] {
      var m := MaxSlotSum(rows, hs);
      if h in Peaks(rows) {
        forall i | 0 <= i < |rows| ensures SlotSum(rows, rows[i].heure) <= SlotSum(rows, h) {
          assert HasSlot(rows, rows[i].heure);
          var k :| 0 <= k < |hs| && hs[k] == rows[i].heure;
        }
      }
      if HasSlot(rows, h) && forall i | 0 <= i < |rows| :: SlotSum(rows, rows[i].heure) <= SlotSum(rows, h) {
        var k :| 0 <= k < |hs| && SlotSum(rows, hs[k]) == m;
        assert HasSlot(rows, hs[k]);
        var i :| 0 <= i < |rows| && rows[i].heure == hs[k];
        var j :| 0 <= j < |hs| && hs[j] == h;
      }
    }
  }

  /** No slot is reported twice. */
  lemma PeaksNoDuplicates(rows: seq<Row>)
    ensures NoDuplicates(Peaks(rows))
  {
  }

  /** On a single row, the only peak is that row's slot. */
  lemma OrderPrefix(rows: seq<Row>, hs: seq<string>)
    requires hs != [] && InFirstAppearanceOrder(rows, hs)
    ensures InFirstAppearanceOrder(rows, hs[..|hs| - 1])
    ensures forall x | x in hs[..|hs| - 1] :: FirstRow(rows, x) < FirstRow(rows, hs[|hs| - 1])
  {
    var p := hs[..|hs| - 1];
    forall x | x in p ensures FirstRow(rows, x) < FirstRow(rows, hs[|hs| - 1]) {
      var k :| 0 <= k < |p| && p[k] == x;
      assert hs[k] == x;
    }
  }

  lemma OrderSnoc(rows: seq<Row>, a: seq<string>, x: string)
    requires InFirstAppearanceOrder(rows, a)
    requires forall y | y in a :: FirstRow(rows, y) < FirstRow(rows, x)
    ensures InFirstAppearanceOrder(rows, a + [x])
  {
    var s := a + [x];
    forall i, j | 0 <= i < j < |s| ensures FirstRow(rows, s[i]) < FirstRow(rows, s[j]) {
      assert s[i] == a[i] && a[i] in a;
      if j < |a| {
        assert s[j] == a[j];
      }
    }
  }

  /** Keeping only the slots with sum m keeps the order of the slots kept. */
  lemma {:induction false} SlotsWithSumKeepsOrder(rows: seq<Row>, hs: seq<string>, m: int)
    requires InFirstAppearanceOrder(rows, hs)
    ensures InFirstAppearanceOrder(rows, SlotsWithSum(rows, hs, m))
  {
    if hs != [] {
      var p, last := hs[..|hs| - 1], hs[|hs| - 1];
      OrderPrefix(rows, hs);
      SlotsWithSumKeepsOrder(rows, p, m);
      var rp := SlotsWithSum(rows, p, m);
      if SlotSum(rows, last) == m {
        assert SlotsWithSum(rows, hs, m) == rp + [last];
        OrderSnoc(rows, rp, last);
      } else {
        assert SlotsWithSum(rows, hs, m) == rp;
      }
    }
  }

  /** `peak_hours` lists the peak slots in the order in which they first appear in the rows. */
  lemma PeaksFirstAppearance(rows: seq<Row>)
    ensures InFirstAppearanceOrder(rows, Peaks(rows))
  {
    SlotOrderFirstAppearance(rows);
    var hs := SlotOrder(rows);
    if hs != [] {
      SlotsWithSumKeepsOrder(rows, hs, MaxSlotSum(rows, hs));
    }
  }

  lemma PeaksSingleRow(r: Row)
    ensures Peaks([r]) == [r.heure]
  {
    var rows := [r];
    assert rows[..0] == [];
    assert SlotOrder(rows) == [r.heure];
    assert [r.heure][..0] == [];
    assert MaxSlotSum(rows, [r.heure]) == SlotSum(rows, r.heure);
    assert SlotsWithSum(rows, [r.heure], SlotSum(rows, r.heure)) == [r.heure];
  }

  // ---------------------------------------------------------------- repartition_par_classe

  datatype Grade = Sixieme | Cinquieme | Quatrieme | Troisieme

  /** The key of a grade in the dict `repartition_par_classe` returns. */
  function GradeLabel(g: Grade): string {
    match g
    case Sixieme => "6ème"
    case Cinquieme => "5ème"
    case Quatrieme => "4ème"
    case Troisieme => "3ème"
  }

  function GradeCount(r: Row, g: Grade): int {
    match g
    case Sixieme => r.sixieme
    case Cinquieme => r.cinquieme
    case Quatrieme => r.quatrieme
    case Troisieme => r.troisieme
  }

  /** Sum of one grade's column over the rows. */
  function ColumnSum(rows: seq<Row>, g: Grade): int {
    if rows == [] then 0 else ColumnSum(rows[..|rows| - 1], g) + GradeCount(rows[|rows| - 1], g)
  }

  /** `repartition_par_classe`: exactly the four grade labels, each mapped to its column sum. */
  method RepartitionParClasse(rows: seq<Row>) returns (rep: map<string, int>)
    ensures rep.Keys == {"6ème", "5ème", "4ème", "3ème"}
    ensures forall g: Grade :: rep[GradeLabel(g)] == ColumnSum(rows, g)
  {
    rep := map["6ème" := 0, "5ème" := 0, "4ème" := 0, "3ème" := 0];
    var i := 0;
    while i < |rows|
      invariant 0 <= i <= |rows|
      invariant rep.Keys == {"6ème", "5ème", "4ème", "3ème"}
      invariant forall g: Grade :: rep[GradeLabel(g)] == ColumnSum(rows[..i], g)
    {
      var row := rows[i];
      assert rows[..i + 1][..i] == rows[..i];
      rep := rep["6ème" := rep["6ème"] + row.sixieme];
      rep := rep["5ème" := rep["5ème"] + row.cinquieme];
      rep := rep["4ème" := rep["4ème"] + row.quatrieme];
      rep := rep["3ème" := rep["3ème"] + row.troisieme];
      i := i + 1;
    }
    assert rows[..i] == rows;
  }

  /** Whether a row's stored total is the sum of its four grade counts. */
  predicate Consistent(r: Row) {
    r.total == r.sixieme + r.cinquieme + r.quatrieme + r.troisieme
  }

  /** When every row's total is its grade sum, the four column sums add up to the sum of totals. */
  lemma {:induction false} RepartitionAddsUpToTotals(rows: seq<Row>)
    requires forall i | 0 <= i < |rows| :: Consistent(rows[i])
    ensures ColumnSum(rows, Sixieme) + ColumnSum(rows, Cinquieme) + ColumnSum(rows, Quatrieme)
            + ColumnSum(rows, Troisieme) == SumTotals(rows)
  {
    if rows != [] {
      var p := rows[..|rows| - 1];
      assert forall i | 0 <= i < |p| :: p[i] == rows[i];
      RepartitionAddsUpToTotals(p);
      assert Consistent(rows[|rows| - 1]);
    }
  }

  /** Two entries in the 09:00 slot, on 2024-03-11 and 2024-03-12, totals 6 and 4. */
  function ExampleRows(): seq<Row> {
    [Row(1, "09:00", 2, 3, 1, 0, 6, "2024-03-11"), Row(2, "09:00", 0, 0, 0, 4, 4, "2024-03-12")]
  }

  /** The 09:00 slot of the example averages (6 + 4) / 2 = 5. */
  lemma ExampleAverage()
    ensures HasSlot(ExampleRows(), "09:00") && SlotAverage(ExampleRows(), "09:00") == 5.0
  {
    var rows := ExampleRows();
    var p := rows[..1];
    assert p == [rows[0]] && p[..0] == [];
    assert rows[0].heure == "09:00";
    assert |SlotTotals(p, "09:00")| == 1;
    assert |SlotTotals(rows, "09:00")| == 2;
    assert SlotSum(p, "09:00") == 6;
    assert SlotSum(rows, "09:00") == 10;
    SlotTotalsSum(rows, "09:00");
  }

  /** The grade columns of the example sum to 2, 3, 1 and 4. */
  lemma ExampleColumns()
    ensures ColumnSum(ExampleRows(), Sixieme) == 2 && ColumnSum(ExampleRows(), Cinquieme) == 3
    ensures ColumnSum(ExampleRows(), Quatrieme) == 1 && ColumnSum(ExampleRows(), Troisieme) == 4
  {
    var rows := ExampleRows();
    var p := rows[..1];
    assert p == [rows[0]] && p[..0] == [];
  }

  /** 09:00 is the only slot of the example, hence its only peak; 2024-03-11 totals 6. */
  lemma ExamplePeaksAndToday()
    ensures Peaks(ExampleRows()) == ["09:00"]
    ensures StatsToday(ExampleRows(), "2024-03-11") == 6
  {
    var rows := ExampleRows();
    var p := rows[..1];
    assert p == [rows[0]] && p[..0] == [];
    assert SlotOrder(p) == ["09:00"];
    assert SlotOrder(rows) == ["09:00"];
    assert RowsOn(p, "2024-03-11") == [rows[0]];
    assert RowsOn(rows, "2024-03-11") == [rows[0]];
    assert [rows[0]][..0] == [];
  }
}
