/** The three availability levels the page colours car parks by: more than 50
    free lots, some free lots, and none (which also covers a negative count
    from the live feed). The map markers, the nearest list and the explore
    table use the same thresholds with their own colours and texts. */
module Availability {
  import opened Wrappers
  import opened JsStrings
  import opened JsNumbers

  /** Above this many free lots a car park counts as having plenty. */
  const PLENTY_THRESHOLD: int := 50

  datatype Level = Plenty | Limited | Full

  /** The `available > 50` / `available > 0` / otherwise branches. */
  function LevelOf(available: int): Level {
    if available > PLENTY_THRESHOLD then Plenty
    else if available > 0 then Limited
    else Full
  }

  /** How bad a level is: 0 for plenty, 2 for full. */
  function Severity(l: Level): nat {
    match l
    case Plenty => 0
    case Limited => 1
    case Full => 2
  }

  /** The marker icon colour of `createCarparkMarker`. */
  function MarkerColour(l: Level): string {
    match l
    case Plenty => "green"
    case Limited => "orange"
    case Full => "red"
  }

  /** The text colour class of a nearest-list entry. */
  function ListColour(l: Level): string {
    match l
    case Plenty => "text-green-600"
    case Limited => "text-orange-600"
    case Full => "text-red-600"
  }

  /** The lot-count colour class of an explore-table row. */
  function TableColour(l: Level): string {
    match l
    case Plenty => "text-green-600 font-bold"
    case Limited => "text-orange-500 font-bold"
    case Full => "text-red-600 font-bold"
  }

  /** The availability text of a nearest-list entry. */
  function ListText(available: int): string {
    if LevelOf(available) == Full then "Full (0 Lots)" else Decimal(available) + " Lots"
  }

  /** The lot-count text of an explore-table row, shown whatever the level. */
  function TableText(available: int): string {
    Decimal(available) + " Lots"
  }

  /** The levels are exactly the three ranges, and more free lots never make
      a car park look worse. */
  lemma LevelRanges(a: int, b: int)
    ensures LevelOf(a) == Plenty <==> a > PLENTY_THRESHOLD
    ensures LevelOf(a) == Limited <==> 0 < a <= PLENTY_THRESHOLD
    ensures LevelOf(a) == Full <==> a <= 0
    ensures a <= b ==> Severity(LevelOf(b)) <= Severity(LevelOf(a))
  {
  }

  /** The three colour schemes tell the levels apart. */
  lemma ColoursDistinguishLevels(l: Level, m: Level)
    ensures MarkerColour(l) == MarkerColour(m) <==> l == m
    ensures ListColour(l) == ListColour(m) <==> l == m
    ensures TableColour(l) == TableColour(m) <==> l == m
  {
  }

  /** The table text always reads back as the count with `parseInt`. */
  lemma TableTextReadsBack(available: int)
    ensures ParseInt(TableText(available)) == Some(available)
  {
    ParseIntOfDecimal(available, " Lots");
  }

  /** The list text reads back as the count unless the car park is full; a
      full one, whatever its count, shows the fixed text, which is no number. */
  lemma ListTextReadsBack(available: int)
    ensures LevelOf(available) != Full ==> ParseInt(ListText(available)) == Some(available)
    ensures LevelOf(available) == Full ==> ListText(available) == "Full (0 Lots)" && ParseInt(ListText(available)) == None
  {
    if LevelOf(available) != Full {
      ParseIntOfDecimal(available, " Lots");
    } else {
      var s := "Full (0 Lots)";
      assert TrimStart(s) == s by { assert !IsSpace(s[0]); }
      MagnitudeWithoutDigit(s);
    }
  }
}
