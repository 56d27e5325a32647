/**
 * The fixed table of public holidays and the filter that keeps those that
 * fall, in the year of the period's start, inside the period.
 */
module Holidays {
  import opened Calendar

  /** A row of the fixed table: a month, a day and the holiday's name. */
  datatype Entry = Entry(month: int, day: int, name: string)

  /** A holiday re-anchored to a year. */
  datatype Holiday = Holiday(date: Date, name: string)

  /** The thirteen fixed holidays, in calendar order. */
  const Table: seq<Entry> := [
    Entry(1, 1, "Nouvel an"),
    Entry(1, 2, "Jour après le Nouvel an"),
    Entry(1, 4, "Martyrs de l'indépendance"),
    Entry(1, 16, "Mort de Lumumba"),
    Entry(1, 17, "Mort de Kabila père"),
    Entry(4, 10, "Lundi de Pâques"),
    Entry(5, 1, "Fête du Travail"),
    Entry(5, 17, "Anniversaire de la libération"),
    Entry(6, 30, "Anniversaire de l'indépendance"),
    Entry(8, 1, "Fête des Parents"),
    Entry(8, 15, "Fête de l'assomption"),
    Entry(11, 1, "Fête de la Toussaint"),
    Entry(12, 25, "Noël")
  ]

  /** The table entry as a holiday of year `year` (`datetime(start_date.year, month, day)`). */
  function Anchor(e: Entry, year: int): Holiday
  {
    Holiday(Date(year, e.month, e.day), e.name)
  }

  /** `start <= date <= end`, both bounds inclusive. */
  predicate InWindow(d: Date, start: Date, end: Date)
  {
    NotAfter(start, d) && NotAfter(d, end)
  }

  /** Entries in strictly increasing (month, day) order. */
  predicate Chronological(entries: seq<Entry>)
  {
    forall i, j :: 0 <= i < j < |entries| ==>
      Before(Date(0, entries[i].month, entries[i].day), Date(0, entries[j].month, entries[j].day))
  }

  /** The entries of `entries`, anchored to `year`, that lie in the window, in table order. */
  function Filter(entries: seq<Entry>, year: int, start: Date, end: Date): seq<Holiday>
  {
    if entries == [] then []
    else if InWindow(Anchor(entries[0], year).date, start, end) then [Anchor(entries[0], year)] + Filter(entries[1..], year, start, end)
    else Filter(entries[1..], year, start, end)
  }

  /** The filter keeps exactly the anchored entries inside the window, and keeps their order. */
  lemma FilterExact(entries: seq<Entry>, year: int, start: Date, end: Date)
    ensures var r := Filter(entries, year, start, end);
      (forall h :: h in r ==> exists e :: e in entries && h == Anchor(e, year) && InWindow(h.date, start, end))
      && (forall e :: e in entries && InWindow(Anchor(e, year).date, start, end) ==> Anchor(e, year) in r)
      && (Chronological(entries) ==> forall i, j :: 0 <= i < j < |r| ==> Before(r[i].date, r[j].date))
  {
    FilterMembers(entries, year, start, end);
    if Chronological(entries) {
      FilterOrdered(entries, year, start, end);
    }
  }

  /** An anchored entry is kept iff it lies in the window. */
  lemma {:induction false} FilterMembers(entries: seq<Entry>, year: int, start: Date, end: Date)
    ensures var r := Filter(entries, year, start, end);
      (forall h :: h in r ==> exists k :: 0 <= k < |entries| && h == Anchor(entries[k], year) && InWindow(h.date, start, end))
      && (forall e :: e in entries && InWindow(Anchor(e, year).date, start, end) ==> Anchor(e, year) in r)
  {
    if entries != [] {
      var rest := entries[1..];
      FilterMembers(rest, year, start, end);
      forall h | h in Filter(rest, year, start, end)
        ensures exists k :: 0 <= k < |entries| && h == Anchor(entries[k], year) && InWindow(h.date, start, end)
      {
        var k :| 0 <= k < |rest| && h == Anchor(rest[k], year) && InWindow(h.date, start, end);
        assert entries[k + 1] == rest[k];
      }
      forall e | e in entries && e != entries[0] ensures e in rest {
        var k :| 0 <= k < |entries| && entries[k] == e;
        assert rest[k - 1] == e;
      }
    }
  }

  /** On a chronological table the kept holidays are in strictly increasing date order. */
  lemma {:induction false} FilterOrdered(entries: seq<Entry>, year: int, start: Date, end: Date)
    requires Chronological(entries)
    ensures var r := Filter(entries, year, start, end);
      forall i, j :: 0 <= i < j < |r| ==> Before(r[i].date, r[j].date)
  {
    if entries != [] {
      var rest := entries[1..];
      assert Chronological(rest) by {
        forall i, j | 0 <= i < j < |rest|
          ensures Before(Date(0, rest[i].month, rest[i].day), Date(0, rest[j].month, rest[j].day))
        {
          assert rest[i] == entries[i + 1] && rest[j] == entries[j + 1];
        }
      }
      FilterOrdered(rest, year, start, end);
      FilterMembers(rest, year, start, end);
      forall h | h in Filter(rest, year, start, end) ensures Before(Anchor(entries[0], year).date, h.date) {
        var k :| 0 <= k < |rest| && h == Anchor(rest[k], year) && InWindow(h.date, start, end);
        assert rest[k] == entries[k + 1];
      }
    }
  }

  /**
   * The holidays of the period (`get_holidays`): every table entry anchored
   * to the start's year whose date lies in [start, end], and nothing else,
   * ordered by date.
   */
  function HolidaysIn(start: Date, end: Date): (r: seq<Holiday>)
    ensures forall h :: h in r ==> h.date.year == start.year && InWindow(h.date, start, end)
    ensures forall h :: h in r ==> exists e :: e in Table && h == Anchor(e, start.year)
    ensures forall e :: e in Table && InWindow(Anchor(e, start.year).date, start, end) ==> Anchor(e, start.year) in r
    ensures forall i, j :: 0 <= i < j < |r| ==> Before(r[i].date, r[j].date)
  {
    TableIsChronological();
    FilterExact(Table, start.year, start, end);
    Filter(Table, start.year, start, end)
  }

  lemma TableIsChronological()
    ensures Chronological(Table)
  {
    forall i | 0 <= i < |Table| - 1
      ensures Before(Date(0, Table[i].month, Table[i].day), Date(0, Table[i + 1].month, Table[i + 1].day))
    {
      assert i in {0, 1, 2, 3, 4, 5, 6, 7, 8, 9, 10, 11};
    }
    AdjacentOrderIsChronological(Table);
  }

  /** Order between neighbours is enough: `Before` is transitive. */
  lemma {:induction false} AdjacentOrderIsChronological(entries: seq<Entry>)
    requires forall i :: 0 <= i < |entries| - 1 ==>
      Before(Date(0, entries[i].month, entries[i].day), Date(0, entries[i + 1].month, entries[i + 1].day))
    ensures Chronological(entries)
    decreases |entries|
  {
    if |entries| > 1 {
      var rest := entries[1..];
      AdjacentOrderIsChronological(rest);
      forall i, j | 0 <= i < j < |entries|
        ensures Before(Date(0, entries[i].month, entries[i].day), Date(0, entries[j].month, entries[j].day))
      {
        if i > 0 {
          assert rest[i - 1] == entries[i] && rest[j - 1] == entries[j];
        } else if j > 1 {
          assert rest[0] == entries[1] && rest[j - 1] == entries[j];
        }
      }
    }
  }

  /** Every table entry is a real date in every year, so re-anchoring never raises. */
  lemma AnchoredDatesAreValid(year: int)
    requires MinYear <= year <= MaxYear
    ensures forall e :: e in Table ==> IsValidDate(Anchor(e, year).date)
  {
  }

  /** Entries ordered after the window's end contribute nothing. */
  lemma {:induction false} FilterAfterEnd(entries: seq<Entry>, year: int, start: Date, end: Date)
    requires forall i :: 0 <= i < |entries| ==> Before(end, Anchor(entries[i], year).date)
    ensures Filter(entries, year, start, end) == []
  {
    if entries != [] {
      FilterAfterEnd(entries[1..], year, start, end);
    }
  }

  /** The first half of January 2024 holds the first three entries; 16 January falls outside. */
  lemma HolidaysOfEarlyJanuary2024()
    ensures HolidaysIn(Date(2024, 1, 1), Date(2024, 1, 15)) ==
      [Holiday(Date(2024, 1, 1), "Nouvel an"),
       Holiday(Date(2024, 1, 2), "Jour après le Nouvel an"),
       Holiday(Date(2024, 1, 4), "Martyrs de l'indépendance")]
  {
    var start, end := Date(2024, 1, 1), Date(2024, 1, 15);
    forall i | 3 <= i < |Table| ensures Before(end, Anchor(Table[i], 2024).date) {
      assert i in {3, 4, 5, 6, 7, 8, 9, 10, 11, 12};
    }
    FilterKeepsFirstThree(Table, 2024, start, end);
  }

  /** Three entries in the window followed only by entries after its end: exactly those three are kept. */
  lemma FilterKeepsFirstThree(entries: seq<Entry>, year: int, start: Date, end: Date)
    requires |entries| >= 3
    requires forall i :: 0 <= i < 3 ==> InWindow(Anchor(entries[i], year).date, start, end)
    requires forall i :: 3 <= i < |entries| ==> Before(end, Anchor(entries[i], year).date)
    ensures Filter(entries, year, start, end) == [Anchor(entries[0], year), Anchor(entries[1], year), Anchor(entries[2], year)]
  {
    var later := entries[3..];
    forall i | 0 <= i < |later| ensures Before(end, Anchor(later[i], year).date) {
      assert later[i] == entries[i + 3];
    }
    FilterAfterEnd(later, year, start, end);
    assert entries[2..][0] == entries[2] && entries[2..][1..] == later;
    assert Filter(entries[2..], year, start, end) == [Anchor(entries[2], year)];
    assert entries[1..][0] == entries[1] && entries[1..][1..] == entries[2..];
    assert Filter(entries[1..], year, start, end) == [Anchor(entries[1], year), Anchor(entries[2], year)];
  }
}
