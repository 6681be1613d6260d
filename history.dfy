/** End-of-day settlement values and the rolling five-day history. */
module History {

  /** The summary of one day as the game stores it. Money in tenths of a
      dollar; `fulfillment` is a percentage. */
  datatype DayRecord = DayRecord(
    day: int,
    revenue: int,
    costs: int,
    profit: int,
    fulfillment: real,
    satisfaction: int,
    price: int)

  const HistoryLimit := 5

  /** served / (served + missed) * 100, with the denominator 1 when nobody
      arrived, so a day without customers reports 0. */
  function Fulfillment(served: nat, missed: nat): (f: real)
    ensures 0.0 <= f <= 100.0
    ensures served == 0 ==> f == 0.0
    ensures served > 0 && missed == 0 ==> f == 100.0
  {
    var total := if served + missed == 0 then 1 else served + missed;
    FractionAtMostOne(served as real, total as real);
    assert served > 0 && missed == 0 ==> (served as real) / (total as real) == 1.0;
    (served as real) / (total as real) * 100.0
  }

  /** The percentage is exactly the served share of everyone who arrived. */
  lemma FulfillmentShare(served: nat, missed: nat)
    ensures Fulfillment(served, missed) * ((served + missed) as real) == 100.0 * (served as real)
  {
  }

  lemma FractionAtMostOne(x: real, y: real)
    requires 0.0 <= x <= y && y > 0.0
    ensures 0.0 <= x / y <= 1.0
  {
  }

  /** Push the new record and, when that makes more than five, drop the
      oldest. */
  function AppendTrim(h: seq<DayRecord>, r: DayRecord): seq<DayRecord>
    requires |h| <= HistoryLimit
  {
    var pushed := h + [r];
    if |pushed| > HistoryLimit then pushed[1..] else pushed
  }

  /** The new record is the newest entry, and the result is the old history
      with it appended, less the oldest record when there were five. */
  lemma AppendTrimShape(h: seq<DayRecord>, r: DayRecord)
    requires |h| <= HistoryLimit
    ensures var h' := AppendTrim(h, r);
      |h'| == (if |h| < HistoryLimit then |h| + 1 else HistoryLimit) &&
      h' == (h + [r])[|h| + 1 - |h'|..] && h'[|h'| - 1] == r
  {
  }

  /** The last `n` elements of `s` (all of it when it is shorter). */
  function LastN<T>(s: seq<T>, n: nat): seq<T> {
    if |s| <= n then s else s[|s| - n..]
  }

  /** Settling the days of `rs` one after another. */
  function Replay(h: seq<DayRecord>, rs: seq<DayRecord>): seq<DayRecord>
    requires |h| <= HistoryLimit
    decreases |rs|
  {
    if rs == [] then h else Replay(AppendTrim(h, rs[0]), rs[1..])
  }

  /** However many days are settled, the history holds exactly the five
      most recent records, oldest first. */
  lemma {:induction false} ReplayKeepsLastFive(h: seq<DayRecord>, rs: seq<DayRecord>)
    requires |h| <= HistoryLimit
    ensures Replay(h, rs) == LastN(h + rs, HistoryLimit)
    decreases |rs|
  {
    if rs != [] {
      ReplayKeepsLastFive(AppendTrim(h, rs[0]), rs[1..]);
      LastNStep(h, rs);
    }
  }

  /** Settling the first of `rs` and keeping the last five of the rest is
      keeping the last five of everything. */
  lemma LastNStep(h: seq<DayRecord>, rs: seq<DayRecord>)
    requires |h| <= HistoryLimit && rs != []
    ensures LastN(AppendTrim(h, rs[0]) + rs[1..], HistoryLimit) == LastN(h + rs, HistoryLimit)
  {
    var pushed := h + [rs[0]];
    AppendTrimIsLastN(h, rs[0]);
    LastNOfLastN(pushed, rs[1..], HistoryLimit);
    assert rs == [rs[0]] + rs[1..];
    assert pushed + rs[1..] == h + rs;
  }

  lemma AppendTrimIsLastN(h: seq<DayRecord>, r: DayRecord)
    requires |h| <= HistoryLimit
    ensures AppendTrim(h, r) == LastN(h + [r], HistoryLimit)
  {
  }

  lemma LastNOfLastN<T>(s: seq<T>, t: seq<T>, n: nat)
    ensures LastN(LastN(s, n) + t, n) == LastN(s + t, n)
  {
    if |s| > n {
      var k := |s| - n;
      assert s == s[..k] + s[k..];
      assert s + t == s[..k] + (s[k..] + t);
    }
  }

  /** Six days settled from an empty history: day one's record is gone and
      the other five remain in order. */
  lemma SixDays(r1: DayRecord, r2: DayRecord, r3: DayRecord, r4: DayRecord, r5: DayRecord, r6: DayRecord)
    ensures Replay([], [r1, r2, r3, r4, r5, r6]) == [r2, r3, r4, r5, r6]
  {
    ReplayKeepsLastFive([], [r1, r2, r3, r4, r5, r6]);
  }

  /** At most five records, of consecutive days ending with day `last`. */
  predicate Chronological(h: seq<DayRecord>, last: int) {
    |h| <= HistoryLimit &&
    forall n :: 0 <= n < |h| ==> h[n].day == last - (|h| - 1 - n)
  }

  /** Settling the day after the newest record keeps the history
      chronological and at most five long. */
  lemma AppendTrimChronological(h: seq<DayRecord>, r: DayRecord)
    requires Chronological(h, r.day - 1)
    ensures Chronological(AppendTrim(h, r), r.day)
  {
    var h' := AppendTrim(h, r);
    var pushed := h + [r];
    assert forall n :: 0 <= n < |pushed| ==> pushed[n].day == r.day - (|pushed| - 1 - n);
    if |pushed| > HistoryLimit {
      assert forall n :: 0 <= n < |h'| ==> h'[n] == pushed[n + 1];
    }
  }
}
