/**
 * The month files behind the menu: the name of a month's CSV file, and
 * loading it from a snapshot of the working directory. The CSV reader is
 * not modelled; a file is either readable, giving its table, or unreadable.
 */
module MenuFile {
  import opened Wrappers
  import opened Decimal

  /** One cell of the table: `None` for an empty (NaN) cell. */
  type Cell = Option<string>

  /** One row: column name to cell (the index column is the key of the row). */
  type Row = map<string, Cell>

  /** A loaded month: day number (the file's first column) to its row. */
  type MenuTable = map<int, Row>

  /** The column the menu text is read from. */
  const MenuColumn := "menu"

  /** What a file in the working directory holds, as far as the loader can tell. */
  datatype FileState =
    | Readable(table: MenuTable)  // parsed as a table
    | Unreadable                  // exists, but the CSV reader raised an exception

  /** The working directory: file name to content; a name not in the map does not exist. */
  type FileSystem = map<string, FileState>

  /** `f"{year}{month:02d}.csv"`: the file that holds a month's menu. */
  function FilePath(year: int, month: int): (p: string)
    ensures |p| >= 7 && p[|p| - 4..] == ".csv"
  {
    IntToDecimal(year) + Pad2(month) + ".csv"
  }

  /** A month file's name is the year's digits, then the month as exactly two
      digits, then ".csv": year and month can be read back from the name. */
  lemma FilePathParts(year: int, month: int)
    requires year >= 0 && 1 <= month <= 12
    ensures var p := FilePath(year, month);
      && |p| >= 7
      && p[|p| - 4..] == ".csv"
      && p[..|p| - 6] == NatToDecimal(year)
      && AllDigits(p[..|p| - 4])
      && ParseDecimal(p[..|p| - 6]) == year
      && ParseDecimal(p[|p| - 6..|p| - 4]) == month
  {
    var y, m := NatToDecimal(year), Pad2(month);
    var p := FilePath(year, month);
    ThreeParts(y, m, ".csv");
    AllDigitsConcat(y, m);
    ParseNatToDecimal(year);
  }

  /** The three pieces of a concatenation with a two-character middle and a
      four-character end can be sliced back out of it. */
  lemma ThreeParts(a: string, b: string, c: string)
    requires |b| == 2 && |c| == 4
    ensures var p := a + b + c;
      && |p| == |a| + 6
      && p[|p| - 4..] == c
      && p[..|p| - 6] == a
      && p[|p| - 6..|p| - 4] == b
      && p[..|p| - 4] == a + b
  {
  }

  /** Distinct months never share a file. */
  lemma FilePathInjective(y1: int, m1: int, y2: int, m2: int)
    requires y1 >= 0 && 1 <= m1 <= 12
    requires y2 >= 0 && 1 <= m2 <= 12
    ensures FilePath(y1, m1) == FilePath(y2, m2) ==> y1 == y2 && m1 == m2
  {
    FilePathParts(y1, m1);
    FilePathParts(y2, m2);
  }

  /** The file for March 2024 is "202403.csv". */
  lemma FilePathMarch2024()
    ensures FilePath(2024, 3) == "202403.csv"
  {
    assert NatToDecimal(2024) == "2024" by {
      assert NatToDecimal(2) == "2";
      assert NatToDecimal(20) == "20";
      assert NatToDecimal(202) == "202";
    }
    assert Pad2(3) == "03";
  }

  /** `load_menu_data(year, month)`: the month's table, or `None` when the
      file does not exist or cannot be parsed. */
  function LoadMenuData(fs: FileSystem, year: int, month: int): (t: Option<MenuTable>)
    ensures t != None <==> FilePath(year, month) in fs && fs[FilePath(year, month)] != Unreadable
    ensures t != None ==> t.value == fs[FilePath(year, month)].table
  {
    var path := FilePath(year, month);
    if path !in fs then None
    else match fs[path]
      case Readable(table) => Some(table)
      case Unreadable => None
  }

  /** A month's load looks at that month's file only: changing any other
      month's file leaves it as it was. */
  lemma LoadIgnoresOtherMonths(fs: FileSystem, year: int, month: int, y: int, m: int, f: FileState)
    requires year >= 0 && 1 <= month <= 12
    requires y >= 0 && 1 <= m <= 12
    requires (y, m) != (year, month)
    ensures LoadMenuData(fs[FilePath(y, m) := f], year, month) == LoadMenuData(fs, year, month)
  {
    FilePathInjective(year, month, y, m);
  }

  /** `table.loc[day, "menu"]`: the cell, or `None` where pandas raises `KeyError`
      (the day is not a row key, or the row has no "menu" column). */
  function Lookup(table: MenuTable, day: int): (c: Option<Cell>)
    ensures c != None <==> day in table && MenuColumn in table[day]
    ensures c != None ==> c.value == table[day][MenuColumn]
  {
    if day in table && MenuColumn in table[day] then Some(table[day][MenuColumn]) else None
  }
}
