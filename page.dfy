/**
 * The menu page: for a chosen date, a header naming its month and three
 * sections — yesterday, today and tomorrow — each showing that day's menu
 * read from the file of that day's own month.
 */
module MenuPage {
  import opened Wrappers
  import opened Decimal
  import opened Calendar
  import opened MenuFile
  import opened MenuFormat

  /** What one day's section shows. */
  datatype Outcome =
    | NotFound(year: int, month: int)  // the month's file is missing or unreadable
    | NoDayData                        // the file has no menu for the day
    | Menu(markdown: string)           // the formatted menu

  /** One section of the page: its caption and date, and what it shows. */
  datatype Section = Section(caption: string, date: Date, outcome: Outcome)

  /** The page below the date picker: the month header, then the sections in order. */
  datatype Page = Page(headerYear: int, headerMonth: int, sections: seq<Section>)

  const Yesterday := "昨日"
  const Today := "今日"
  const Tomorrow := "明日"

  /** The outcome for one date, read from the file of that date's own month. */
  function DayOutcome(fs: FileSystem, d: Date): (r: Outcome)
    ensures r.NotFound? ==> r == NotFound(d.year, d.month)
  {
    match LoadMenuData(fs, d.year, d.month)
    case None => NotFound(d.year, d.month)
    case Some(table) =>
      match Lookup(table, d.day)
      case None => NoDayData
      case Some(cell) => Menu(Format(cell))
  }

  /** The three days shown for a chosen date, paired with their labels. */
  function Days(input: Date): (days: seq<(string, Date)>)
    requires Valid(input) && input != MinDate && input != MaxDate
    ensures |days| == 3
    ensures days[0].0 == Yesterday && days[1] == (Today, input) && days[2].0 == Tomorrow
    ensures forall i :: 0 <= i < 3 ==> Valid(days[i].1) && Ordinal(days[i].1) == Ordinal(input) - 1 + i
  {
    [(Yesterday, Pred(input)), (Today, input), (Tomorrow, Succ(input))]
  }

  /** The body of the page loop for one day: load the day's month, look the
      day up, and format its cell, stopping at the first step that fails. */
  method ShowDay(fs: FileSystem, d: Date) returns (outcome: Outcome)
    ensures outcome == DayOutcome(fs, d)
  {
    var table := LoadMenuData(fs, d.year, d.month);
    if table == None {
      return NotFound(d.year, d.month);
    }
    var cell := Lookup(table.value, d.day);
    if cell == None {
      return NoDayData;
    }
    outcome := Menu(Format(cell.value));
  }

  /** The page for `input` over the directory `fs`: a loop over the three
      days that shows each one from its own month's file. */
  method Render(fs: FileSystem, input: Date) returns (page: Page)
    requires Valid(input) && input != MinDate && input != MaxDate
    ensures page.headerYear == input.year && page.headerMonth == input.month
    ensures |page.sections| == 3
    ensures forall i :: 0 <= i < 3 ==>
      var (caption, d) := Days(input)[i];
      page.sections[i] == Section(caption, d, DayOutcome(fs, d))
  {
    var days := Days(input);
    var sections: seq<Section> := [];
    for i := 0 to |days|
      invariant |sections| == i
      invariant forall j :: 0 <= j < i ==>
        sections[j] == Section(days[j].0, days[j].1, DayOutcome(fs, days[j].1))
    {
      var (caption, d) := days[i];
      var outcome := ShowDay(fs, d);
      sections := sections + [Section(caption, d, outcome)];
    }
    page := Page(input.year, input.month, sections);
  }

  /** The three outcomes of a day, in terms of the directory: no readable
      file for the day's month, a file without that day's menu, or the
      day's menu cell formatted. */
  lemma DayOutcomeCases(fs: FileSystem, d: Date)
    ensures var path := FilePath(d.year, d.month);
      var readable := path in fs && fs[path].Readable?;
      && (DayOutcome(fs, d) == NotFound(d.year, d.month) <==> !readable)
      && (DayOutcome(fs, d) == NoDayData <==>
            readable && !(d.day in fs[path].table && MenuColumn in fs[path].table[d.day]))
      && (DayOutcome(fs, d).Menu? <==>
            readable && d.day in fs[path].table && MenuColumn in fs[path].table[d.day])
      && (DayOutcome(fs, d).Menu? ==>
            DayOutcome(fs, d).markdown == Format(fs[path].table[d.day][MenuColumn]))
  {
  }

  /** A day's section depends on its own month's file and on no other:
      two directories that agree on that one file give the same outcome. */
  lemma DayOutcomeLocal(fs1: FileSystem, fs2: FileSystem, d: Date)
    requires var path := FilePath(d.year, d.month);
      (path in fs1 <==> path in fs2) && (path in fs1 ==> fs1[path] == fs2[path])
    ensures DayOutcome(fs1, d) == DayOutcome(fs2, d)
  {
  }

  /** When yesterday or tomorrow falls in another month than the chosen
      date, replacing the chosen month's file does not change its section:
      a neighbour day is never read from the chosen date's month. */
  lemma NeighbourIgnoresChosenMonth(fs: FileSystem, input: Date, f: FileState, i: int)
    requires Valid(input) && input != MinDate && input != MaxDate
    requires 0 <= i < 3
    requires var d := Days(input)[i].1; (d.year, d.month) != (input.year, input.month)
    ensures var d := Days(input)[i].1;
      DayOutcome(fs[FilePath(input.year, input.month) := f], d) == DayOutcome(fs, d)
  {
    var d := Days(input)[i].1;
    LoadIgnoresOtherMonths(fs, d.year, d.month, input.year, input.month, f);
  }

  /** The scenario of a leap-year month start: chosen date 2024-03-01, only
      March 2024 on disk, with "A・B ・ C" for day 1. Yesterday (February 29)
      has no file, today shows three bullets, tomorrow has no row. */
  lemma MarchFirst2024(fs: FileSystem, dishes: string)
    requires dishes == "A・B ・ C"
    requires fs == map["202403.csv" := Readable(map[1 := map[MenuColumn := Some(dishes)]])]
    ensures var days := Days(Date(2024, 3, 1));
      && days[0].1 == Date(2024, 2, 29) && days[2].1 == Date(2024, 3, 2)
      && DayOutcome(fs, days[0].1) == NotFound(2024, 2)
      && DayOutcome(fs, days[1].1) == Menu("- A\n- B\n- C")
      && DayOutcome(fs, days[2].1) == NoDayData
  {
    var input := Date(2024, 3, 1);
    assert Valid(input) && IsLeap(2024);
    var table := map[1 := map[MenuColumn := Some(dishes)]];
    FilePathMarch2024();
    assert LoadMenuData(fs, 2024, 3) == Some(table);
    assert DayOutcome(fs, Date(2024, 2, 29)) == NotFound(2024, 2) by {
      FilePathInjective(2024, 2, 2024, 3);
      assert FilePath(2024, 2) !in fs;
    }
    assert DayOutcome(fs, input) == Menu("- A\n- B\n- C") by {
      assert Lookup(table, 1) == Some(Some(dishes));
      FormatThreeDishes(dishes);
    }
    assert DayOutcome(fs, Date(2024, 3, 2)) == NoDayData by {
      assert Lookup(table, 2) == None;
    }
    assert Days(input)[0].1 == Date(2024, 2, 29);
    assert Days(input)[2].1 == Date(2024, 3, 2);
  }
}
