/**
  The colour-pair table generator: a fixed palette of five major and five
  minor colours, walked by two nested loops that hand each (number, major,
  minor) triple to an injected formatter, collect the formatted lines, and
  echo every line to an injected writer.

  The formatter is a function value; the writer is modelled as the sequence of
  lines it receives. The line the generator reads the minor colour on is the
  one place where the code as written and the evidently intended generator
  differ, so that choice is the `Pairing` parameter of the functional model.
 */
module Misaligned {
  import opened Wrappers
  import Decimal
  import Text

  const MajorColors: seq<string> := ["White", "Red", "Black", "Yellow", "Violet"]
  const MinorColors: seq<string> := ["Blue", "Orange", "Green", "Brown", "Slate"]

  /** The arguments of one formatter call: the entry number and its colour pair. */
  datatype Entry = Entry(number: int, major: string, minor: string)

  /** An injected `IColorMapFormatter`. */
  type Formatter = (int, string, string) -> string

  /** Which index selects the minor colour inside the nested loops. */
  datatype Pairing =
    | AsWritten   // minorColors[i], the outer index, as the code reads it
    | Corrected   // minorColors[j], the inner index

  function MinorIndex(p: Pairing, i: nat, j: nat): nat {
    match p
    case AsWritten => i
    case Corrected => j
  }

  predicate Distinct(s: seq<string>) {
    forall a, b :: 0 <= a < b < |s| ==> s[a] != s[b]
  }

  lemma PaletteDistinct()
    ensures Distinct(MajorColors) && Distinct(MinorColors)
  {
  }

  /**
    The formatter calls of one generation, in call order: call k is made in
    outer iteration k / 5 and inner iteration k % 5 with number k.
   */
  function Table(p: Pairing): (t: seq<Entry>) {
    seq(25, k requires 0 <= k < 25 =>
      Entry(k, MajorColors[k / 5], MinorColors[MinorIndex(p, k / 5, k % 5)]))
  }

  /** The lines a formatter makes of a sequence of calls. */
  function Render(t: seq<Entry>, format: Formatter): (lines: seq<string>)
    ensures |lines| == |t|
  {
    seq(|t|, k requires 0 <= k < |t| => format(t[k].number, t[k].major, t[k].minor))
  }

  /** `GetTotalEntries`: the palette sizes multiplied. */
  function TotalEntries(): (n: nat)
    ensures n == 25
    ensures n == |Table(AsWritten)| == |Table(Corrected)|
  {
    |MajorColors| * |MinorColors|
  }

  /**
    `GenerateColorMap` as written: two nested loops of five iterations, one
    formatter call per iteration with number i * 5 + j, major colour i and
    minor colour i. Returns the collected lines, the formatter calls in order,
    and the lines the writer received in order.
   */
  method GenerateColorMap(format: Formatter)
    returns (colorMap: seq<string>, calls: seq<Entry>, written: seq<string>)
    ensures |colorMap| == |calls| == TotalEntries()
    ensures forall k :: 0 <= k < |calls| ==>
      calls[k] == Entry(k, MajorColors[k / 5], MinorColors[k / 5])
    ensures forall k :: 0 <= k < |colorMap| ==>
      colorMap[k] == format(calls[k].number, calls[k].major, calls[k].minor)
    ensures written == colorMap
    ensures calls == Table(AsWritten) && colorMap == Render(Table(AsWritten), format)
  {
    colorMap, calls, written := [], [], [];
    var i := 0;
    while i < 5
      invariant 0 <= i <= 5
      invariant |calls| == |colorMap| == i * 5
      invariant forall k :: 0 <= k < |calls| ==>
        calls[k] == Entry(k, MajorColors[k / 5], MinorColors[k / 5])
      invariant forall k :: 0 <= k < |colorMap| ==>
        colorMap[k] == format(calls[k].number, calls[k].major, calls[k].minor)
      invariant written == colorMap
    {
      var j := 0;
      while j < 5
        invariant 0 <= j <= 5
        invariant |calls| == |colorMap| == i * 5 + j
        invariant forall k :: 0 <= k < |calls| ==>
          calls[k] == Entry(k, MajorColors[k / 5], MinorColors[k / 5])
        invariant forall k :: 0 <= k < |colorMap| ==>
          colorMap[k] == format(calls[k].number, calls[k].major, calls[k].minor)
        invariant written == colorMap
      {
        var call := Entry(i * 5 + j, MajorColors[i], MinorColors[i]);
        var formattedEntry := format(call.number, call.major, call.minor);
        calls := calls + [call];
        colorMap := colorMap + [formattedEntry];
        written := written + [formattedEntry];
        j := j + 1;
      }
      i := i + 1;
    }
    assert calls == Table(AsWritten);
  }

  /** `ColorMapFormatter.FormatColorEntry`: "{number} | {major} | {minor}". */
  function FormatColorEntry(number: int, major: string, minor: string): (line: string) {
    Decimal.IntToString(number) + " | " + major + " | " + minor
  }

  /**
    Reads a formatted line back: exactly three '|'-separated fields, the first
    a decimal number followed by a space, the second a colour between single
    spaces, the third a colour after a single space.
   */
  function ParseColorEntry(line: string): (e: Option<Entry>) {
    var fields := Text.Split(line, '|');
    if |fields| == 3
      && |fields[0]| >= 1 && fields[0][|fields[0]| - 1] == ' '
      && |fields[1]| >= 2 && fields[1][0] == ' ' && fields[1][|fields[1]| - 1] == ' '
      && |fields[2]| >= 1 && fields[2][0] == ' '
    then
      match Decimal.ParseInt(fields[0][..|fields[0]| - 1])
      case Some(n) => Some(Entry(n, fields[1][1..|fields[1]| - 1], fields[2][1..]))
      case None => None
    else None
  }

  /** A formatted line consists of the three fields around its two '|' separators. */
  lemma FormatFields(number: int, major: string, minor: string)
    requires '|' !in major && '|' !in minor
    ensures Text.Split(FormatColorEntry(number, major, minor), '|')
      == [Decimal.IntToString(number) + " ", " " + major + " ", " " + minor]
  {
    var f0 := Decimal.IntToString(number) + " ";
    var f1 := " " + major + " ";
    var f2 := " " + minor;
    assert FormatColorEntry(number, major, minor) == f0 + ['|'] + (f1 + ['|'] + f2);
    assert '|' !in f0;
    assert '|' !in f1;
    assert '|' !in f2;
    Text.SplitField(f0, f1 + ['|'] + f2, '|');
    Text.SplitField(f1, f2, '|');
    Text.SplitWhole(f2, '|');
  }

  /**
    Every formatted line splits into three '|' fields, whatever its number, so
    all entries have the same field count when the colour names contain no '|'.
   */
  lemma FormatFieldCount(number: int, major: string, minor: string)
    requires '|' !in major && '|' !in minor
    ensures |Text.Split(FormatColorEntry(number, major, minor), '|')| == 3
  {
    FormatFields(number, major, minor);
  }

  /** The formatted line determines the number and both colours. */
  lemma {:induction false} FormatParseRoundTrip(number: int, major: string, minor: string)
    requires '|' !in major && '|' !in minor
    ensures ParseColorEntry(FormatColorEntry(number, major, minor)) == Some(Entry(number, major, minor))
  {
    FormatFields(number, major, minor);
    var f0 := Decimal.IntToString(number) + " ";
    var f1 := " " + major + " ";
    assert f0[..|f0| - 1] == Decimal.IntToString(number);
    assert f1[1..|f1| - 1] == major;
    Decimal.ParseIntOfIntToString(number);
  }

  lemma FormatExamples()
    ensures FormatColorEntry(0, "White", "Blue") == "0 | White | Blue"
    ensures FormatColorEntry(24, "Violet", "Slate") == "24 | Violet | Slate"
  {
    assert Decimal.NatToString(2) == "2";
    assert Decimal.NatToString(24) == "24";
  }

  /** The distinct (major, minor) pairs that occur in a table. */
  function PairSet(t: seq<Entry>): set<(string, string)> {
    set k | 0 <= k < |t| :: (t[k].major, t[k].minor)
  }

  /** Every major colour paired with every minor colour. */
  function CartesianProduct(): set<(string, string)> {
    set a, b | a in MajorColors && b in MinorColors :: (a, b)
  }

  /** The positions of a table whose entry carries major colour `c`. */
  function WithMajor(t: seq<Entry>, c: string): set<nat> {
    set k: nat | k < |t| && t[k].major == c
  }

  /** The positions of a table whose entry carries minor colour `c`. */
  function WithMinor(t: seq<Entry>, c: string): set<nat> {
    set k: nat | k < |t| && t[k].minor == c
  }

  /**
    The lines made with the production formatter read back as the entry
    number and colour pair of their call, and the number is the line's
    position in the list, whichever pairing is used.
   */
  lemma RenderedLinesParse(p: Pairing)
    ensures forall k :: 0 <= k < 25 ==>
      ParseColorEntry(Render(Table(p), FormatColorEntry)[k]) == Some(Table(p)[k])
    ensures forall k :: 0 <= k < 25 ==> Table(p)[k].number == k
  {
    forall k | 0 <= k < 25
      ensures ParseColorEntry(Render(Table(p), FormatColorEntry)[k]) == Some(Table(p)[k])
    {
      var e := Table(p)[k];
      assert e.major in MajorColors && e.minor in MinorColors;
      FormatParseRoundTrip(e.number, e.major, e.minor);
    }
  }

  /**
    As written, every entry of outer row i pairs major colour i with minor
    colour i, so only five distinct pairs occur; in particular all five White
    entries read "White | Blue" and White is never paired with Orange.
   */
  lemma AsWrittenRowsRepeatMinor()
    ensures forall k :: 0 <= k < 25 ==>
      Table(AsWritten)[k] == Entry(k, MajorColors[k / 5], MinorColors[k / 5])
    ensures forall k :: 0 <= k < 5 ==>
      Table(AsWritten)[k].major == "White" && Table(AsWritten)[k].minor == "Blue"
    ensures PairSet(Table(AsWritten)) == set i | 0 <= i < 5 :: (MajorColors[i], MinorColors[i])
    ensures ("White", "Orange") in CartesianProduct() - PairSet(Table(AsWritten))
  {
    var t := Table(AsWritten);
    var diagonal := set i | 0 <= i < 5 :: (MajorColors[i], MinorColors[i]);
    forall x | x in PairSet(t)
      ensures x in diagonal
    {
      var k :| 0 <= k < 25 && x == (t[k].major, t[k].minor);
      assert x == (MajorColors[k / 5], MinorColors[k / 5]);
    }
    forall x | x in diagonal
      ensures x in PairSet(t)
    {
      var i :| 0 <= i < 5 && x == (MajorColors[i], MinorColors[i]);
      assert x == (t[i * 5].major, t[i * 5].minor);
    }
    assert ("White", "Orange") in CartesianProduct();
    forall i | 0 <= i < 5
      ensures (MajorColors[i], MinorColors[i]) != ("White", "Orange")
    {
      assert MajorColors[i] == "White" ==> i == 0;
    }
  }

  /** The second line of the as-written table, where the White/Orange entry belongs. */
  lemma AsWrittenSecondWhiteLine()
    ensures Render(Table(AsWritten), FormatColorEntry)[1] == "1 | White | Blue"
  {
    assert Table(AsWritten)[1] == Entry(1, "White", "Blue");
    assert Render(Table(AsWritten), FormatColorEntry)[1] == FormatColorEntry(1, "White", "Blue");
    assert Decimal.IntToString(1) == "1";
  }

  /**
    With minorColors[j], entry i * 5 + j pairs major colour i with minor
    colour j: the 25 pairs are exactly the Cartesian product of the two
    palettes, and no pair occurs twice.
   */
  lemma CorrectedIsCartesianProduct()
    ensures forall k :: 0 <= k < 25 ==>
      Table(Corrected)[k] == Entry(k, MajorColors[k / 5], MinorColors[k % 5])
    ensures PairSet(Table(Corrected)) == CartesianProduct()
    ensures forall k1, k2 :: 0 <= k1 < k2 < 25 ==>
      (Table(Corrected)[k1].major, Table(Corrected)[k1].minor)
      != (Table(Corrected)[k2].major, Table(Corrected)[k2].minor)
  {
    var t := Table(Corrected);
    PaletteDistinct();
    forall x | x in CartesianProduct()
      ensures x in PairSet(t)
    {
      var i :| 0 <= i < 5 && MajorColors[i] == x.0;
      var j :| 0 <= j < 5 && MinorColors[j] == x.1;
      assert (i * 5 + j) / 5 == i && (i * 5 + j) % 5 == j;
      assert x == (t[i * 5 + j].major, t[i * 5 + j].minor);
    }
    forall k1, k2 | 0 <= k1 < k2 < 25
      ensures (t[k1].major, t[k1].minor) != (t[k2].major, t[k2].minor)
    {
      if t[k1].major == t[k2].major && t[k1].minor == t[k2].minor {
        assert false;
      }
    }
  }

  /** The corrected second line pairs White with Orange, as the tests expect. */
  lemma CorrectedSecondWhiteLine()
    ensures Render(Table(Corrected), FormatColorEntry)[1] == "1 | White | Orange"
  {
    assert Table(Corrected)[1] == Entry(1, "White", "Orange");
    assert Render(Table(Corrected), FormatColorEntry)[1] == FormatColorEntry(1, "White", "Orange");
    assert Decimal.IntToString(1) == "1";
  }

  /** Major colour i sits at the five positions of outer iteration i. */
  lemma RowMajorPositions(p: Pairing, i: nat, c: string)
    requires i < 5 && MajorColors[i] == c
    ensures WithMajor(Table(p), c) == {i * 5, i * 5 + 1, i * 5 + 2, i * 5 + 3, i * 5 + 4}
  {
    PaletteDistinct();
    var t := Table(p);
    forall k: nat | k < 25
      ensures t[k].major == c <==> k / 5 == i
    {
      assert t[k].major == MajorColors[k / 5];
    }
  }

  /** Each major colour occurs in exactly five entries, as written and corrected. */
  lemma EachMajorInFiveEntries(p: Pairing)
    ensures forall c :: c in MajorColors ==> |WithMajor(Table(p), c)| == 5
  {
    forall c | c in MajorColors
      ensures |WithMajor(Table(p), c)| == 5
    {
      var i :| 0 <= i < 5 && MajorColors[i] == c;
      MajorInFiveEntries(p, i);
    }
  }

  /** Major colour i occurs in exactly five entries. */
  lemma MajorInFiveEntries(p: Pairing, i: nat)
    requires i < 5
    ensures |WithMajor(Table(p), MajorColors[i])| == 5
  {
    RowMajorPositions(p, i, MajorColors[i]);
    FiveElements(i * 5, i * 5 + 1, i * 5 + 2, i * 5 + 3, i * 5 + 4);
  }

  /** Each minor colour occurs in exactly five entries, as written and corrected. */
  lemma EachMinorInFiveEntries(p: Pairing)
    ensures forall c :: c in MinorColors ==> |WithMinor(Table(p), c)| == 5
  {
    forall c | c in MinorColors
      ensures |WithMinor(Table(p), c)| == 5
    {
      var j :| 0 <= j < 5 && MinorColors[j] == c;
      MinorInFiveEntries(p, j);
    }
  }

  /** Minor colour j occurs in exactly five entries: a whole row as written, a column corrected. */
  lemma MinorInFiveEntries(p: Pairing, j: nat)
    requires j < 5
    ensures |WithMinor(Table(p), MinorColors[j])| == 5
  {
    if p == AsWritten {
      RowMinorPositions(j, MinorColors[j]);
      FiveElements(j * 5, j * 5 + 1, j * 5 + 2, j * 5 + 3, j * 5 + 4);
    } else {
      ColumnPositions(j, MinorColors[j]);
      FiveElements(j, j + 5, j + 10, j + 15, j + 20);
    }
  }

  /** Corrected, minor colour j sits at positions j, j + 5, .., j + 20. */
  lemma ColumnPositions(j: nat, c: string)
    requires j < 5 && MinorColors[j] == c
    ensures WithMinor(Table(Corrected), c) == {j, j + 5, j + 10, j + 15, j + 20}
  {
    PaletteDistinct();
    var t := Table(Corrected);
    forall k: nat | k < 25
      ensures t[k].minor == c <==> k % 5 == j
    {
      assert t[k].minor == MinorColors[k % 5];
    }
  }

  /** As written, minor colour i sits at the five positions of outer iteration i. */
  lemma RowMinorPositions(i: nat, c: string)
    requires i < 5 && MinorColors[i] == c
    ensures WithMinor(Table(AsWritten), c) == {i * 5, i * 5 + 1, i * 5 + 2, i * 5 + 3, i * 5 + 4}
  {
    PaletteDistinct();
    var t := Table(AsWritten);
    forall k: nat | k < 25
      ensures t[k].minor == c <==> k / 5 == i
    {
      assert t[k].minor == MinorColors[k / 5];
    }
  }

  lemma FiveElements(a: nat, b: nat, c: nat, d: nat, e: nat)
    requires a < b < c < d < e
    ensures |{a, b, c, d, e}| == 5
  {
  }
}
