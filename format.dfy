/**
 * `format_menu_display`: turns the raw menu cell of one day into the
 * Markdown shown for it — a "no data" notice, the rest-day word, or one
 * bullet line per dish.
 */
module MenuFormat {
  import opened Wrappers
  import opened PyStr

  /** Shown for an empty or blank cell ("no data"). */
  const NoData := "データなし"

  /** The cell value meaning the kitchen is closed that day ("day off"); shown as it is. */
  const RestDay := "おやすみ"

  /** Separates the dishes of one menu (the middle dot U+30FB). */
  const ItemSeparator := '・'

  /** The Markdown bullet that starts each dish line. */
  const Bullet := "- "

  /** The bullet lines of a menu: one per piece of the split, each piece stripped. */
  function BulletLines(s: string): (lines: seq<string>)
    ensures |lines| == |Split(s, ItemSeparator)| == Count(s, ItemSeparator) + 1
    ensures forall i :: 0 <= i < |lines| ==> lines[i] == Bullet + Strip(Split(s, ItemSeparator)[i])
  {
    SplitCount(s, ItemSeparator);
    Bulleted(Split(s, ItemSeparator))
  }

  /** The generator `f"- {item.strip()}" for item in items`: one bullet line per item. */
  function Bulleted(items: seq<string>): (lines: seq<string>)
    ensures |lines| == |items|
    ensures forall i :: 0 <= i < |items| ==> lines[i] == Bullet + Strip(items[i])
  {
    seq(|items|, i requires 0 <= i < |items| => Bullet + Strip(items[i]))
  }

  /** `format_menu_display(cell)`. The blank test comes first, then the
      rest-day test, then the bullet list. */
  function Format(cell: Option<string>): (r: string)
    ensures r == NoData <==> cell == None || AllSpace(cell.value)
    ensures r == RestDay <==> cell != None && Strip(cell.value) == RestDay
  {
    StripBlank(if cell == None then [] else cell.value);
    if cell == None || Strip(cell.value) == [] then
      assert NoData[0] != RestDay[0];
      NoData
    else if Strip(cell.value) == RestDay then
      assert NoData[0] != RestDay[0];
      RestDay
    else
      var lines := BulletLines(cell.value);
      JoinStartsWith(lines, '\n');
      assert Join(lines, '\n')[0] == lines[0][0] == '-';
      assert NoData[0] != '-' && RestDay[0] != '-';
      Join(lines, '\n')
  }

  /** A join starts with its first part. */
  lemma {:induction false} JoinStartsWith(parts: seq<string>, sep: char)
    requires |parts| >= 1
    ensures |Join(parts, sep)| >= |parts[0]| && Join(parts, sep)[..|parts[0]|] == parts[0]
  {
    if |parts| > 1 {
      assert Join(parts, sep) == parts[0] + ([sep] + Join(parts[1..], sep));
    }
  }

  /** A join ends with the last character of its last part, when that part is not empty. */
  lemma {:induction false} JoinEndsWith(parts: seq<string>, sep: char)
    requires |parts| >= 1 && |parts[|parts| - 1]| >= 1
    ensures var j := Join(parts, sep);
      |j| >= 1 && j[|j| - 1] == parts[|parts| - 1][|parts[|parts| - 1]| - 1]
  {
    if |parts| > 1 {
      JoinEndsWith(parts[1..], sep);
    }
  }

  /** The text of a menu with dishes: the bullet lines joined by line feeds. */
  lemma FormatDishes(s: string)
    requires !AllSpace(s) && Strip(s) != RestDay
    ensures Format(Some(s)) == Join(BulletLines(s), '\n')
    ensures Join(Split(s, ItemSeparator), ItemSeparator) == s
  {
    JoinSplit(s, ItemSeparator);
  }

  /** A bullet line never ends with a line feed: it ends with the bullet's
      space or with the last, non-blank, character of its dish. */
  lemma BulletLineEnd(piece: string)
    ensures var line := Bullet + Strip(piece); line[|line| - 1] != '\n'
  {
    var p := Strip(piece);
    StripResult(piece);
    var line := Bullet + p;
    assert IsSpace('\n');
    if p != [] {
      assert line[|line| - 1] == p[|p| - 1];
    }
  }

  /** The bullet lines joined by line feeds start with a bullet and never
      end with a line feed. */
  lemma BulletTextShape(s: string)
    ensures var r := Join(BulletLines(s), '\n');
      |r| >= 2 && r[..2] == Bullet && r[|r| - 1] != '\n'
  {
    var lines := BulletLines(s);
    var last := lines[|lines| - 1];
    var r := Join(lines, '\n');
    JoinStartsWith(lines, '\n');
    assert r[..2] == lines[0][..2] == Bullet;
    BulletLineEnd(Split(s, ItemSeparator)[|lines| - 1]);
    assert last[|last| - 1] != '\n';
    JoinEndsWith(lines, '\n');
  }

  /** A menu with dishes starts with a bullet and never ends with a line feed. */
  lemma FormatDishesShape(s: string)
    requires !AllSpace(s) && Strip(s) != RestDay
    ensures var r := Format(Some(s));
      |r| >= 2 && r[..2] == Bullet && r[|r| - 1] != '\n'
  {
    FormatDishes(s);
    BulletTextShape(s);
  }

  /** When the cell has no line feed of its own, the output has exactly one
      line per dish, `Count(s, '・') + 1` of them, and splitting it at line
      feeds gives the bullet lines back. */
  lemma FormatLineCount(s: string)
    requires !AllSpace(s) && Strip(s) != RestDay
    requires '\n' !in s
    ensures Split(Format(Some(s)), '\n') == BulletLines(s)
    ensures |Split(Format(Some(s)), '\n')| == Count(s, ItemSeparator) + 1
    ensures Count(Format(Some(s)), '\n') == Count(s, ItemSeparator)
  {
    var lines := BulletLines(s);
    BulletLinesKeepOut(s, '\n');
    SplitJoin(lines, '\n');
    CountJoin(lines, '\n');
    FormatDishes(s);
  }

  /** A character other than the bullet's that the cell lacks appears in none of its lines. */
  lemma BulletLinesKeepOut(s: string, c: char)
    requires c !in s && c !in Bullet
    ensures forall i :: 0 <= i < |BulletLines(s)| ==> c !in BulletLines(s)[i]
  {
    var lines := BulletLines(s);
    SplitKeepsOut(s, ItemSeparator, c);
    forall i | 0 <= i < |lines| ensures c !in lines[i] {
      StripResult(Split(s, ItemSeparator)[i]);
      assert lines[i] == Bullet + Strip(Split(s, ItemSeparator)[i]);
    }
  }

  /** An empty or blank piece between separators still gets its line: a bare bullet. */
  lemma BlankPieceLine(s: string, i: int)
    requires 0 <= i < |Split(s, ItemSeparator)| && AllSpace(Split(s, ItemSeparator)[i])
    ensures BulletLines(s)[i] == Bullet
  {
    StripBlank(Split(s, ItemSeparator)[i]);
    assert Bullet + [] == Bullet;
  }

  /** The rest-day word, with any whitespace around it, is shown as the bare word. */
  lemma FormatRestDay(w1: string, w2: string)
    requires AllSpace(w1) && AllSpace(w2)
    ensures Format(Some(w1 + RestDay + w2)) == RestDay
  {
    StripPadded(w1, RestDay, w2);
  }

  // The worked example "A・B ・ C": it splits into three pieces, each piece
  // strips to one dish, and the dishes become three bullet lines.

  lemma ThreeDishSplit(s: string)
    requires s == "A・B ・ C"
    ensures Split(s, ItemSeparator) == ["A", "B ", " C"]
  {
    var parts := ["A", "B ", " C"];
    assert Join(parts, ItemSeparator) == "A・B ・ C";
    SplitJoin(parts, ItemSeparator);
  }

  lemma StripDishA(a: string)
    requires a == "A"
    ensures Strip(a) == "A"
  {
    StripPadded([], a, []);
    assert [] + a + [] == a;
  }

  lemma StripDishB(b: string)
    requires b == "B "
    ensures Strip(b) == "B"
  {
    var core, pad := "B", " ";
    StripPadded([], core, pad);
    assert [] + core + pad == b;
  }

  lemma StripDishC(c: string)
    requires c == " C"
    ensures Strip(c) == "C"
  {
    var pad, core := " ", "C";
    StripPadded(pad, core, []);
    assert pad + core + [] == c;
  }

  lemma ThreeDishBullets(items: seq<string>)
    requires items == ["A", "B ", " C"]
    ensures Bulleted(items) == ["- A", "- B", "- C"]
  {
    var lines := Bulleted(items);
    StripDishA(items[0]);
    StripDishB(items[1]);
    StripDishC(items[2]);
    assert Bullet + "A" == "- A" && Bullet + "B" == "- B" && Bullet + "C" == "- C";
    assert lines == [lines[0], lines[1], lines[2]];
  }

  lemma ThreeDishLines(s: string)
    requires s == "A・B ・ C"
    ensures BulletLines(s) == ["- A", "- B", "- C"]
  {
    ThreeDishSplit(s);
    ThreeDishBullets(Split(s, ItemSeparator));
  }

  lemma ThreeDishNotBlank(s: string)
    requires s == "A・B ・ C"
    ensures !AllSpace(s) && Strip(s) != RestDay
  {
    StripPadded([], s, []);
    assert [] + s + [] == s;
    assert s[0] != RestDay[0] && !IsSpace(s[0]);
  }

  lemma ThreeDishJoin()
    ensures Join(["- A", "- B", "- C"], '\n') == "- A\n- B\n- C"
  {
  }

  /** Dishes are stripped one by one: "A・B ・ C" becomes three bullet lines. */
  lemma FormatThreeDishes(s: string)
    requires s == "A・B ・ C"
    ensures Format(Some(s)) == "- A\n- B\n- C"
  {
    ThreeDishNotBlank(s);
    ThreeDishLines(s);
    ThreeDishJoin();
    FormatDishes(s);
  }
}
