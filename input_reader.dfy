/** The readers of input_reader.py, applied to the text of a `TestInput`:
    the lines of the contents, the first line's integers or digits, wire
    directions, orbit pairs, asteroid positions, reaction specifications and
    the labyrinth's cells. Opening a named file is not modelled. */
module InputReader {
  import opened Wrappers
  import Text
  import Decimal
  import Ore

  /** The exceptions the readers let escape. */
  datatype ReaderError =
    | NoLines     // `next` on an empty line generator: `StopIteration`
    | BadNumber   // `int(...)` of text that is not an integer: `ValueError`
    | EmptyPiece  // `segment[0]` of an empty segment: `IndexError`
    | BadShape    // unpacking a token list of the wrong length: `ValueError`
    | NoMatch     // `m.group` on the `None` of a failed `regex.match`: `AttributeError`

  /** `read_lines(TestInput(contents))`: `contents.splitlines()`. */
  function ReadLines(contents: string): (lines: seq<string>)
    ensures lines == [] <==> contents == []
  {
    Text.SplitLines(contents)
  }

  /** On text whose lines end in '\n' alone, the lines joined with '\n' give
      the text back, save for one final newline. */
  lemma ReadLinesJoin(contents: string)
    requires Text.OnlyNewlineBoundaries(contents)
    ensures contents != [] && contents[|contents| - 1] == '\n' ==>
      Text.Join(ReadLines(contents), '\n') + "\n" == contents
    ensures contents == [] || contents[|contents| - 1] != '\n' ==>
      Text.Join(ReadLines(contents), '\n') == contents
  {
    Text.SplitLinesIsSplit(contents);
    var parts := Text.Split(contents, '\n');
    Text.JoinSplit(contents, '\n');
    if contents != [] && contents[|contents| - 1] == '\n' {
      var front := contents[..|contents| - 1];
      assert contents == front + ['\n'];
      Text.SplitSnocSep(front, '\n');
      JoinLastEmpty(parts, '\n');
    }
  }

  /** Joining pieces whose last one is empty ends in the separator. */
  lemma {:induction false} JoinLastEmpty(parts: seq<string>, sep: char)
    requires |parts| >= 2 && parts[|parts| - 1] == ""
    ensures Text.Join(parts, sep) == Text.Join(parts[..|parts| - 1], sep) + [sep]
  {
    if |parts| > 2 {
      JoinLastEmpty(parts[1..], sep);
      assert parts[1..][..|parts| - 2] == parts[..|parts| - 1][1..];
    }
  }

  /** `read_one_line`: the first line, or `StopIteration` when there is none. */
  function ReadOneLine(contents: string): (r: Result<string, ReaderError>)
    ensures r.Failure? <==> contents == []
    ensures r.Failure? ==> r.error == NoLines
    ensures r.Success? ==> r.value == ReadLines(contents)[0]
  {
    var lines := ReadLines(contents);
    if lines == [] then Failure(NoLines) else Success(lines[0])
  }

  /** `[parse(x) for x in xs]`: the first element `parse` refuses ends the
      list with its exception. */
  function ParseEach<A, B>(xs: seq<A>, parse: A -> Result<B, ReaderError>): (r: Result<seq<B>, ReaderError>)
    ensures r.Success? <==> forall i :: 0 <= i < |xs| ==> parse(xs[i]).Success?
    ensures r.Success? ==> |r.value| == |xs|
    ensures r.Success? ==> forall i :: 0 <= i < |xs| ==> parse(xs[i]) == Success(r.value[i])
    ensures r.Failure? ==> exists i :: 0 <= i < |xs| && parse(xs[i]) == Failure(r.error)
  {
    if xs == [] then Success([])
    else
      match parse(xs[0])
      case Failure(e) => Failure(e)
      case Success(v) =>
        var rest := ParseEach(xs[1..], parse);
        assert forall i :: 1 <= i < |xs| ==> xs[i] == xs[1..][i - 1];
        if rest.Failure? then Failure(rest.error) else Success([v] + rest.value)
  }

  lemma {:induction false} ParseEachAll<A, B>(xs: seq<A>, vs: seq<B>, parse: A -> Result<B, ReaderError>)
    requires |xs| == |vs|
    requires forall i :: 0 <= i < |xs| ==> parse(xs[i]) == Success(vs[i])
    ensures ParseEach(xs, parse) == Success(vs)
  {
    if xs != [] {
      ParseEachAll(xs[1..], vs[1..], parse);
      assert [vs[0]] + vs[1..] == vs;
    }
  }

  /** `int(x)`. */
  function ParseNumber(x: string): (r: Result<int, ReaderError>)
    ensures r.Failure? <==> Decimal.ParseInt(x).None?
    ensures r.Failure? ==> r.error == BadNumber
    ensures r.Success? ==> Decimal.ParseInt(x) == Some(r.value)
  {
    match Decimal.ParseInt(x)
    case None => Failure(BadNumber)
    case Some(v) => Success(v)
  }

  /** `read_comma_separated_integers`: the integers of the first line's
      comma-separated pieces, in order. */
  function ReadCommaSeparatedIntegers(contents: string): (r: Result<seq<int>, ReaderError>)
    ensures contents == [] ==> r == Failure(NoLines)
    ensures contents != [] && r.Failure? ==> r.error == BadNumber
    ensures r.Success? ==> contents != []
    ensures r.Success? ==>
      var pieces := Text.Split(ReadLines(contents)[0], ',');
      |r.value| == |pieces| && forall i :: 0 <= i < |pieces| ==> Decimal.ParseInt(pieces[i]) == Some(r.value[i])
  {
    var line := ReadOneLine(contents);
    if line.Failure? then Failure(line.error) else ParseEach(Text.Split(line.value, ','), ParseNumber)
  }

  /** `str(x)` of each integer, joined with ','. */
  function CommaSeparated(xs: seq<int>): (s: string)
    requires xs != []
  {
    Text.Join(seq(|xs|, i requires 0 <= i < |xs| => Decimal.IntToString(xs[i])), ',')
  }

  /** Reading back integers written with `','.join(map(str, xs))` gives them
      back. */
  lemma CommaSeparatedRoundTrip(xs: seq<int>)
    requires xs != []
    ensures ReadCommaSeparatedIntegers(CommaSeparated(xs)) == Success(xs)
  {
    var pieces := seq(|xs|, i requires 0 <= i < |xs| => Decimal.IntToString(xs[i]));
    var s := CommaSeparated(xs);
    IntegerPieces(xs, pieces);
    Text.SplitJoin(pieces, ',');
    JoinIntegerText(pieces, ',');
    NoBoundaryOneLine(s);
    ParseEachAll(pieces, xs, ParseNumber);
  }

  /** The `str` of each integer has no comma, is not empty, and reads back
      as the integer. */
  lemma IntegerPieces(xs: seq<int>, pieces: seq<string>)
    requires |pieces| == |xs| && forall i :: 0 <= i < |xs| ==> pieces[i] == Decimal.IntToString(xs[i])
    ensures forall i :: 0 <= i < |xs| ==>
      ',' !in pieces[i] && pieces[i] != [] && IntegerText(pieces[i]) && Decimal.ParseInt(pieces[i]) == Some(xs[i])
  {
    forall i | 0 <= i < |xs|
      ensures ',' !in pieces[i] && pieces[i] != [] && IntegerText(pieces[i])
      ensures Decimal.ParseInt(pieces[i]) == Some(xs[i])
    {
      Decimal.ParseIntToString(xs[i]);
    }
  }

  /** Characters of `str(n)`: digits and the minus sign. */
  predicate IntegerText(s: string) {
    forall i :: 0 <= i < |s| ==> s[i] == '-' || Decimal.IsDigit(s[i])
  }

  lemma {:induction false} JoinIntegerText(parts: seq<string>, sep: char)
    requires sep == ',' || sep == ' '
    requires parts != [] && parts[0] != []
    requires forall i :: 0 <= i < |parts| ==> IntegerText(parts[i])
    ensures Text.Join(parts, sep) != []
    ensures forall i :: 0 <= i < |Text.Join(parts, sep)| ==> !Text.IsLineBoundary(Text.Join(parts, sep)[i])
  {
    if |parts| > 1 {
      var rest := parts[1..];
      if rest[0] != [] {
        JoinIntegerText(rest, sep);
      } else {
        JoinIntegerTextAny(rest, sep);
      }
    }
  }

  lemma {:induction false} JoinIntegerTextAny(parts: seq<string>, sep: char)
    requires sep == ',' || sep == ' '
    requires forall i :: 0 <= i < |parts| ==> IntegerText(parts[i])
    ensures forall i :: 0 <= i < |Text.Join(parts, sep)| ==> !Text.IsLineBoundary(Text.Join(parts, sep)[i])
  {
    if |parts| > 1 {
      JoinIntegerTextAny(parts[1..], sep);
    }
  }

  /** Text without line boundaries is one line. */
  lemma NoBoundaryOneLine(s: string)
    requires s != []
    requires forall i :: 0 <= i < |s| ==> !Text.IsLineBoundary(s[i])
    ensures ReadLines(s) == [s]
    ensures ReadOneLine(s) == Success(s)
  {
    assert Text.FirstBoundary(s) == |s| by {
      FirstBoundaryNone(s);
    }
  }

  lemma {:induction false} FirstBoundaryNone(s: string)
    requires forall i :: 0 <= i < |s| ==> !Text.IsLineBoundary(s[i])
    ensures Text.FirstBoundary(s) == |s|
  {
    if s != [] {
      FirstBoundaryNone(s[1..]);
    }
  }

  /** `segment[0]` and `int(segment[1:])` of one "Dn" segment. */
  function ParseSegment(segment: string): (r: Result<(char, int), ReaderError>)
    ensures r.Failure? <==> segment == [] || Decimal.ParseInt(segment[1..]).None?
    ensures segment == [] ==> r == Failure(EmptyPiece)
    ensures r.Success? ==> r.value == (segment[0], Decimal.ParseInt(segment[1..]).value)
  {
    if segment == [] then Failure(EmptyPiece)
    else
      match Decimal.ParseInt(segment[1..])
      case None => Failure(BadNumber)
      case Some(n) => Success((segment[0], n))
  }

  /** `range(counter)`: no steps for a counter below one. */
  function Times(n: int): nat {
    if n < 0 then 0 else n
  }

  /** The sum of the counts, each as `range` sees it. */
  function TotalCount(moves: seq<(char, int)>): nat {
    if moves == [] then 0 else Times(moves[0].1) + TotalCount(moves[1..])
  }

  /** Each direction repeated as many times as its counter says. */
  function Expand(moves: seq<(char, int)>): (r: seq<char>)
    ensures |r| == TotalCount(moves)
    ensures forall i :: 0 <= i < |r| ==> exists k :: 0 <= k < |moves| && r[i] == moves[k].0
  {
    if moves == [] then []
    else
      var head := seq(Times(moves[0].1), _ => moves[0].0);
      var rest := Expand(moves[1..]);
      assert forall i :: 0 <= i < |rest| ==> exists k :: 1 <= k < |moves| && rest[i] == moves[k].0 by {
        forall i | 0 <= i < |rest|
          ensures exists k :: 1 <= k < |moves| && rest[i] == moves[k].0
        {
          var k :| 0 <= k < |moves[1..]| && rest[i] == moves[1..][k].0;
          assert rest[i] == moves[k + 1].0;
        }
      }
      head + rest
  }

  /** `list(_read_direction_line(line))`: every "Dn" segment between commas
      expanded into n copies of D, in order. */
  function ReadDirectionLine(line: string): (r: Result<seq<char>, ReaderError>)
    ensures r.Failure? <==> ParseEach(Text.Split(line, ','), ParseSegment).Failure?
    ensures r.Success? ==> |r.value| == TotalCount(ParseEach(Text.Split(line, ','), ParseSegment).value)
  {
    var moves := ParseEach(Text.Split(line, ','), ParseSegment);
    if moves.Failure? then Failure(moves.error) else Success(Expand(moves.value))
  }

  /** `read_directions_per_line`, consumed to the end: the directions of every line. */
  function ReadDirectionsPerLine(contents: string): (r: Result<seq<seq<char>>, ReaderError>)
    ensures r.Success? <==>
      forall i :: 0 <= i < |ReadLines(contents)| ==> ReadDirectionLine(ReadLines(contents)[i]).Success?
    ensures r.Success? ==> |r.value| == |ReadLines(contents)|
    ensures r.Success? ==>
      forall i :: 0 <= i < |r.value| ==> ReadDirectionLine(ReadLines(contents)[i]) == Success(r.value[i])
  {
    ParseEach(ReadLines(contents), ReadDirectionLine)
  }

  /** The segment "Dn" of a direction and a count. */
  function SegmentText(move: (char, int)): string
    requires move.1 >= 0
  {
    [move.0] + Decimal.NatToString(move.1)
  }

  /** Segments written as "Dn" and joined with ',' read back as the same
      moves, expanded; the line holds as many directions as the counts add up to. */
  lemma DirectionLineRoundTrip(moves: seq<(char, int)>)
    requires moves != []
    requires forall i :: 0 <= i < |moves| ==> moves[i].0 != ',' && moves[i].1 >= 0
    ensures var line := Text.Join(seq(|moves|, i requires 0 <= i < |moves| => SegmentText(moves[i])), ',');
      ReadDirectionLine(line) == Success(Expand(moves)) && |Expand(moves)| == TotalCount(moves)
  {
    var segments := seq(|moves|, i requires 0 <= i < |moves| => SegmentText(moves[i]));
    forall i | 0 <= i < |moves|
      ensures ',' !in segments[i]
      ensures ParseSegment(segments[i]) == Success(moves[i])
    {
      var digits := Decimal.NatToString(moves[i].1);
      assert segments[i][1..] == digits;
      Decimal.ParseIntToString(moves[i].1);
    }
    Text.SplitJoin(segments, ',');
    ParseEachAll(segments, moves, ParseSegment);
  }

  /** `read_orbits`: every line split on ')'. */
  function ReadOrbits(contents: string): (r: seq<seq<string>>)
    ensures |r| == |ReadLines(contents)|
    ensures forall i :: 0 <= i < |r| ==> |r[i]| == Text.Count(ReadLines(contents)[i], ')') + 1
  {
    var lines := ReadLines(contents);
    seq(|lines|, i requires 0 <= i < |lines| => Text.Split(lines[i], ')'))
  }

  /** Splitting loses nothing: the pieces joined with ')' are the line; a line
      with one ')' gives the pair of names on either side of it. */
  lemma ReadOrbitsLines(contents: string, i: nat)
    requires i < |ReadLines(contents)|
    ensures Text.Join(ReadOrbits(contents)[i], ')') == ReadLines(contents)[i]
    ensures Text.Count(ReadLines(contents)[i], ')') == 1 ==>
      var pair := ReadOrbits(contents)[i];
      |pair| == 2 && pair[0] + ")" + pair[1] == ReadLines(contents)[i]
  {
    Text.JoinSplit(ReadLines(contents)[i], ')');
  }

  /** The characters of `str(n)`, one `int` each. */
  lemma ParseIntChar(c: char)
    ensures Decimal.ParseInt([c]) == if Decimal.IsDigit(c) then Some(Decimal.DigitValue(c)) else None
  {
    var s := [c];
    StripOne(c);
    if Decimal.IsDigit(c) {
      assert s[..0] == [];
      assert Decimal.DigitsValue(s) == Decimal.DigitValue(c);
    } else {
      assert !Decimal.AllDigits(s);
    }
  }

  lemma StripOne(c: char)
    ensures Text.Strip([c]) == if Text.IsPyWhitespace(c) then [] else [c]
  {
    var s := [c];
    if Text.IsPyWhitespace(c) {
      assert Text.RStrip(s) == Text.RStrip(s[..0]);
    } else {
      assert Text.RStrip(s) == s;
      assert Text.LStrip(s) == s;
    }
  }

  /** `read_digits`: the first line's characters, each read by `int`. */
  function ReadDigits(contents: string): (r: Result<seq<int>, ReaderError>)
    ensures r.Failure? <==> contents == [] || !Decimal.AllDigits(ReadLines(contents)[0])
    ensures r.Success? ==>
      var line := ReadLines(contents)[0];
      |r.value| == |line| && forall i :: 0 <= i < |line| ==> r.value[i] == Decimal.DigitValue(line[i])
  {
    match ReadOneLine(contents)
    case Failure(e) => Failure(e)
    case Success(line) =>
      ParseDigits(line);
      ParseEach(line, ParseDigit)
  }

  lemma ParseDigits(line: string)
    ensures forall i :: 0 <= i < |line| ==>
      ParseDigit(line[i]) == if Decimal.IsDigit(line[i]) then Success(Decimal.DigitValue(line[i])) else Failure(BadNumber)
  {
    forall i | 0 <= i < |line| {
      ParseIntChar(line[i]);
    }
  }

  /** `int(x)` of one character. */
  function ParseDigit(c: char): Result<int, ReaderError> {
    ParseNumber([c])
  }

  lemma NatDigitValues(n: nat)
    ensures var s := Decimal.NatToString(n);
      forall k :: 0 <= k < |s| ==> Decimal.DigitValue(s[|s| - 1 - k]) == n / Decimal.Pow10(k) % 10
  {
    var s := Decimal.NatToString(n);
    forall k | 0 <= k < |s|
      ensures Decimal.DigitValue(s[|s| - 1 - k]) == n / Decimal.Pow10(k) % 10
    {
      Decimal.NatToStringDigit(n, k);
    }
  }

  /** Reading the decimal text of n gives its digits: the k-th from the right
      is `n // 10**k % 10`. */
  lemma ReadDigitsOfNumber(n: nat)
    ensures var s := Decimal.NatToString(n);
      var r := ReadDigits(s);
      r.Success? && |r.value| == |s| &&
      forall k :: 0 <= k < |s| ==> r.value[|s| - 1 - k] == n / Decimal.Pow10(k) % 10
  {
    var s := Decimal.NatToString(n);
    NatDigitValues(n);
    assert forall i :: 0 <= i < |s| ==> !Text.IsLineBoundary(s[i]) by {
      forall i | 0 <= i < |s| ensures !Text.IsLineBoundary(s[i]) {
        assert Decimal.IsDigit(s[i]);
      }
    }
    NoBoundaryOneLine(s);
    var r := ReadDigits(s);
    assert r.Success? && |r.value| == |s|;
  }

  /** `(x, y)` is listed before `(x', y')`: rows first, then columns. */
  predicate Before(p: (int, int), q: (int, int)) {
    p.1 < q.1 || (p.1 == q.1 && p.0 < q.0)
  }

  predicate Ordered(ps: seq<(int, int)>) {
    forall i, j :: 0 <= i < j < |ps| ==> Before(ps[i], ps[j])
  }

  /** The character at `(x, y)` is '#'. */
  predicate IsAsteroid(lines: seq<string>, p: (int, int)) {
    0 <= p.1 < |lines| && 0 <= p.0 < |lines[p.1]| && lines[p.1][p.0] == '#'
  }

  /** The asteroids of row `y` from column `x` on. */
  function RowAsteroids(line: string, y: int, x: nat): (r: seq<(int, int)>)
    requires x <= |line|
    ensures forall p :: p in r <==> p.1 == y && x <= p.0 < |line| && line[p.0] == '#'
    ensures Ordered(r)
    decreases |line| - x
  {
    if x == |line| then []
    else
      var rest := RowAsteroids(line, y, x + 1);
      if line[x] == '#' then [(x, y)] + rest else rest
  }

  /** The asteroids of rows `y` and below. */
  function MapAsteroids(lines: seq<string>, y: nat): (r: seq<(int, int)>)
    requires y <= |lines|
    ensures forall p :: p in r <==> y <= p.1 && IsAsteroid(lines, p)
    ensures Ordered(r)
    decreases |lines| - y
  {
    if y == |lines| then []
    else
      var row := RowAsteroids(lines[y], y, 0);
      var rest := MapAsteroids(lines, y + 1);
      assert forall i, j :: 0 <= i < |row| && 0 <= j < |rest| ==> Before(row[i], rest[j]) by {
        forall i, j | 0 <= i < |row| && 0 <= j < |rest| ensures Before(row[i], rest[j]) {
          assert row[i] in row && rest[j] in rest;
        }
      }
      row + rest
  }

  /** `read_asteroid_map`: the `(x, y)` of every '#', row by row and left to
      right within a row. */
  function ReadAsteroidMap(contents: string): (r: seq<(int, int)>)
    ensures forall p :: p in r <==> IsAsteroid(ReadLines(contents), p)
    ensures Ordered(r)
  {
    MapAsteroids(ReadLines(contents), 0)
  }

  /** The cells of rows `..y`, and of row `y` up to column `x`. */
  ghost predicate FilledUpTo(cells: map<(int, int), char>, rows: seq<string>, y: int, x: int) {
    (forall p :: p in cells <==> 0 <= p.1 < |rows| && 0 <= p.0 < |rows[p.1]| && (p.1 < y || (p.1 == y && p.0 < x))) &&
    forall p :: p in cells ==> cells[p] == rows[p.1][p.0]
  }

  /** `read_labyrinth`: every `(x, y)` of a line, with its trailing whitespace
      removed, mapped to its character. */
  method ReadLabyrinth(contents: string) returns (cells: map<(int, int), char>)
    ensures forall p :: p in cells <==>
      0 <= p.1 < |ReadLines(contents)| && 0 <= p.0 < |Text.RStrip(ReadLines(contents)[p.1])|
    ensures forall p :: p in cells ==> cells[p] == Text.RStrip(ReadLines(contents)[p.1])[p.0]
    ensures forall p :: p in cells && (p.0 + 1, p.1) !in cells ==> !Text.IsPyWhitespace(cells[p])
  {
    var lines := ReadLines(contents);
    ghost var rows := seq(|lines|, i requires 0 <= i < |lines| => Text.RStrip(lines[i]));
    cells := map[];
    for y := 0 to |lines|
      invariant FilledUpTo(cells, rows, y, 0)
    {
      var line := Text.RStrip(lines[y]);
      for x := 0 to |line|
        invariant FilledUpTo(cells, rows, y, x)
      {
        cells := cells[(x, y) := line[x]];
      }
    }
    forall p | p in cells && (p.0 + 1, p.1) !in cells
      ensures !Text.IsPyWhitespace(cells[p])
    {
      assert p.0 + 1 == |rows[p.1]|;
    }
  }

  /** `amount, name = tokens` and `int(amount)`. */
  function ParseChemical(tokens: seq<string>): (r: Result<(int, string), ReaderError>)
    ensures r.Failure? <==> |tokens| != 2 || Decimal.ParseInt(tokens[0]).None?
    ensures |tokens| != 2 ==> r == Failure(BadShape)
    ensures r.Success? ==> r.value == (Decimal.ParseInt(tokens[0]).value, tokens[1])
  {
    if |tokens| != 2 then Failure(BadShape)
    else
      match Decimal.ParseInt(tokens[0])
      case None => Failure(BadNumber)
      case Some(amount) => Success((amount, tokens[1]))
  }

  /** `line[:arrow]` and `line[arrow + 2:]` around the `line.find('=>')`; a
      missing arrow makes them `line[:-1]` and `line[1:]`. */
  function ArrowSides(line: string): (sides: (string, string)) {
    var arrow := Text.Find(line, "=>");
    if arrow >= 0 then (line[..arrow], line[arrow + 2..])
    else if line == [] then ("", "")
    else (line[..|line| - 1], line[1..])
  }

  /** The whitespace-separated tokens of each comma-separated piece. */
  function InputTokens(left: string): (tokens: seq<seq<string>>)
    ensures |tokens| == |Text.Split(left, ',')|
    ensures forall i :: 0 <= i < |tokens| ==> tokens[i] == Text.SplitWhitespace(Text.Split(left, ',')[i])
  {
    var pieces := Text.Split(left, ',');
    seq(|pieces|, i requires 0 <= i < |pieces| => Text.SplitWhitespace(pieces[i]))
  }

  /** The two sides of a reaction line read: the `(amount, name)` inputs of
      the left side and the `(amount, name)` output of the right. */
  function ReadSides(left: string, right: string): (r: Result<Ore.Spec, ReaderError>)
    ensures r.Success? ==> |r.value.0| == Text.Count(left, ',') + 1
    ensures r.Success? ==> Text.IsToken(r.value.1.1) && forall i :: 0 <= i < |r.value.0| ==> Text.IsToken(r.value.0[i].1)
  {
    var output := Text.SplitWhitespace(right);
    if |output| != 2 then Failure(BadShape)
    else
      match ParseEach(InputTokens(left), ParseChemical)
      case Failure(e) => Failure(e)
      case Success(ins) =>
        match ParseChemical(output)
        case Failure(e) => Failure(e)
        case Success(out) => Success((ins, out))
  }

  /** One line of `read_nanofactory_specs`: the sides of the arrow, read. */
  function ReadReaction(line: string): (r: Result<Ore.Spec, ReaderError>)
    ensures r.Success? ==> |r.value.0| == Text.Count(ArrowSides(line).0, ',') + 1
    ensures r.Success? ==> Text.IsToken(r.value.1.1) && forall i :: 0 <= i < |r.value.0| ==> Text.IsToken(r.value.0[i].1)
  {
    ReadSides(ArrowSides(line).0, ArrowSides(line).1)
  }

  /** `read_nanofactory_specs`, consumed to the end: one reaction per line. */
  function ReadNanofactorySpecs(contents: string): (r: Result<seq<Ore.Spec>, ReaderError>)
    ensures r.Success? <==> forall i :: 0 <= i < |ReadLines(contents)| ==> ReadReaction(ReadLines(contents)[i]).Success?
    ensures r.Success? ==> |r.value| == |ReadLines(contents)|
    ensures r.Success? ==> forall i :: 0 <= i < |r.value| ==> ReadReaction(ReadLines(contents)[i]) == Success(r.value[i])
  {
    ParseEach(ReadLines(contents), ReadReaction)
  }

  /** A chemical name the line format can carry: no whitespace, ',' or '='. */
  predicate IsName(name: string) {
    Text.IsToken(name) && ',' !in name && '=' !in name
  }

  /** A reaction written back: inputs with amounts, names and a known format. */
  predicate Writable(spec: Ore.Spec) {
    spec.0 != [] && spec.1.0 >= 0 && IsName(spec.1.1) &&
    forall i :: 0 <= i < |spec.0| ==> spec.0[i].0 >= 0 && IsName(spec.0[i].1)
  }

  /** "7 A": the amount, a space and the name. */
  function ChemicalText(c: (int, string)): string
    requires c.0 >= 0
  {
    Decimal.NatToString(c.0) + " " + c.1
  }

  /** The pieces between the commas: "7 A", " 1 D", ... */
  function InputPieces(spec: Ore.Spec): (pieces: seq<string>)
    requires Writable(spec)
  {
    seq(|spec.0|, i requires 0 <= i < |spec.0| => (if i == 0 then "" else " ") + ChemicalText(spec.0[i]))
  }

  /** "7 A, 1 D => 1 E". */
  function ReactionText(spec: Ore.Spec): string
    requires Writable(spec)
  {
    Text.Join(InputPieces(spec), ',') + " => " + ChemicalText(spec.1)
  }

  /** A reaction written in the puzzle's format reads back as itself. */
  lemma ReactionRoundTrip(spec: Ore.Spec)
    requires Writable(spec)
    ensures ReadReaction(ReactionText(spec)) == Success(spec)
  {
    ReactionSides(spec);
    SidesRead(spec);
  }

  /** The two sides of a written reaction read back as the reaction. */
  lemma SidesRead(spec: Ore.Spec)
    requires Writable(spec)
    ensures ReadSides(Text.Join(InputPieces(spec), ',') + " ", " " + ChemicalText(spec.1)) == Success(spec)
  {
    var left := Text.Join(InputPieces(spec), ',') + " ";
    InputsRead(spec);
    ParseEachAll(InputTokens(left), spec.0, ParseChemical);
    ChemicalTokens(" ", spec.1, "");
    assert " " + ChemicalText(spec.1) + "" == " " + ChemicalText(spec.1);
  }

  /** The arrow splits a written reaction into its inputs and its output. */
  lemma ReactionSides(spec: Ore.Spec)
    requires Writable(spec)
    ensures ArrowSides(ReactionText(spec)) == (Text.Join(InputPieces(spec), ',') + " ", " " + ChemicalText(spec.1))
  {
    var pieces := InputPieces(spec);
    var left := Text.Join(pieces, ',');
    var line := ReactionText(spec);
    forall i | 0 <= i < |pieces|
      ensures '=' !in pieces[i]
    {
      NumberText(spec.0[i].0);
    }
    NoEqualsJoin(pieces, ',');
    ArrowAt(left, " " + ChemicalText(spec.1));
    assert line == left + " " + "=>" + (" " + ChemicalText(spec.1));
    assert line[..|left| + 1] == left + " ";
    assert line[|left| + 3..] == " " + ChemicalText(spec.1);
  }

  /** Each comma-separated input of a written reaction reads back. */
  lemma InputsRead(spec: Ore.Spec)
    requires Writable(spec)
    ensures var split := Text.Split(Text.Join(InputPieces(spec), ',') + " ", ',');
      |split| == |spec.0| &&
      forall i :: 0 <= i < |split| ==> ParseChemical(Text.SplitWhitespace(split[i])) == Success(spec.0[i])
  {
    var pieces := InputPieces(spec);
    var left := Text.Join(pieces, ',');
    forall i | 0 <= i < |pieces|
      ensures ',' !in pieces[i]
    {
      NumberText(spec.0[i].0);
    }
    Text.SplitJoin(pieces, ',');
    Text.SplitSnoc(left, ' ', ',');
    var split := Text.Split(left + " ", ',');
    forall i | 0 <= i < |pieces|
      ensures ParseChemical(Text.SplitWhitespace(split[i])) == Success(spec.0[i])
    {
      InputRead(spec, split, i);
    }
  }

  lemma InputRead(spec: Ore.Spec, split: seq<string>, i: nat)
    requires Writable(spec) && i < |spec.0|
    requires split == InputPieces(spec)[..|spec.0| - 1] + [InputPieces(spec)[|spec.0| - 1] + " "]
    ensures ParseChemical(Text.SplitWhitespace(split[i])) == Success(spec.0[i])
  {
    var pieces := InputPieces(spec);
    var pre := if i == 0 then "" else " ";
    var post := if i == |pieces| - 1 then " " else "";
    assert pieces[i] == pre + ChemicalText(spec.0[i]);
    if i < |pieces| - 1 {
      assert split[i] == pieces[i];
      assert split[i] == pre + ChemicalText(spec.0[i]) + post;
    } else {
      assert split[i] == pieces[i] + " ";
    }
    ChemicalTokens(pre, spec.0[i], post);
  }

  /** The decimal text of a number holds no whitespace, ',' or '='. */
  lemma NumberText(n: nat)
    ensures Text.IsToken(Decimal.NatToString(n))
    ensures ',' !in Decimal.NatToString(n) && '=' !in Decimal.NatToString(n)
    ensures Decimal.ParseInt(Decimal.NatToString(n)) == Some(n)
  {
    var s := Decimal.NatToString(n);
    assert forall i :: 0 <= i < |s| ==> Decimal.IsDigit(s[i]);
    Decimal.ParseIntToString(n);
  }

  /** `split()` and `int` read "n name" back, whatever whitespace surrounds it. */
  lemma ChemicalTokens(pre: string, c: (int, string), post: string)
    requires c.0 >= 0 && IsName(c.1)
    requires Text.AllPyWhitespace(pre) && Text.AllPyWhitespace(post)
    ensures ParseChemical(Text.SplitWhitespace(pre + ChemicalText(c) + post)) == Success(c)
  {
    NumberText(c.0);
    SpacedTokens(pre, Decimal.NatToString(c.0), c.1, post);
  }

  /** Two tokens with one space between them split back into the two. */
  lemma SpacedTokens(pre: string, a: string, b: string, post: string)
    requires Text.AllPyWhitespace(pre) && Text.AllPyWhitespace(post)
    requires Text.IsToken(a) && Text.IsToken(b)
    ensures Text.SplitWhitespace(pre + (a + " " + b) + post) == [a, b]
  {
    assert pre + (a + " " + b) + post == pre + a + " " + b + post;
    Text.SplitWhitespaceTwo(pre, a, " ", b, post);
  }

  lemma {:induction false} NoEqualsJoin(parts: seq<string>, sep: char)
    requires sep != '='
    requires forall i :: 0 <= i < |parts| ==> '=' !in parts[i]
    ensures '=' !in Text.Join(parts, sep)
  {
    if |parts| > 1 {
      NoEqualsJoin(parts[1..], sep);
    }
  }

  /** The first "=>" of `left + " => " + right` is the one after `left`. */
  lemma ArrowAt(left: string, right: string)
    requires '=' !in left
    ensures Text.Find(left + " " + "=>" + right, "=>") == |left| + 1
  {
    var line := left + " " + "=>" + right;
    assert Text.OccursAt(line, "=>", |left| + 1) by {
      assert line[|left| + 1..|left| + 3] == "=>";
    }
    assert forall i :: 0 <= i <= |left| ==> line[i] != '=' by {
      assert forall i :: 0 <= i < |left| ==> line[i] == left[i];
    }
    var r := Text.Find(line, "=>");
    assert 0 <= r <= |left| + 1;
    assert Text.OccursAt(line, "=>", r);
    assert |"=>"| == 2;
    assert line[r..r + 2] == "=>";
    assert line[r] == line[r..r + 2][0] == '=';
  }

  /** The end of the run of decimal digits of `s` that starts at `p`. */
  function DigitsEnd(s: string, p: nat): (q: nat)
    requires p <= |s|
    ensures p <= q <= |s|
    decreases |s| - p
  {
    if p < |s| && Decimal.IsDigit(s[p]) then DigitsEnd(s, p + 1) else p
  }

  /** Everything the run skips over is a digit, and it stops at a non-digit. */
  lemma {:induction false} DigitsEndDigits(s: string, p: nat)
    requires p <= |s|
    ensures forall i :: p <= i < DigitsEnd(s, p) ==> Decimal.IsDigit(s[i])
    ensures DigitsEnd(s, p) < |s| ==> !Decimal.IsDigit(s[DigitsEnd(s, p)])
    decreases |s| - p
  {
    if p < |s| && Decimal.IsDigit(s[p]) {
      DigitsEndDigits(s, p + 1);
    }
  }

  /** The text `-?\d+` matches: an optional minus sign and at least one digit. */
  predicate IsIntegerMatch(t: string) {
    (|t| > 0 && Decimal.AllDigits(t)) || (|t| > 1 && t[0] == '-' && Decimal.AllDigits(t[1..]))
  }

  /** The greedy match of `-?\d+` at `p`: where it ends, or `None`. */
  function MatchInteger(s: string, p: nat): (r: Option<nat>)
    requires p <= |s|
    ensures r.Some? ==> p < r.value <= |s|
  {
    var start := if p < |s| && s[p] == '-' then p + 1 else p;
    var q := DigitsEnd(s, start);
    if q == start then None else Some(q)
  }

  /** What the greedy match takes is `-?\d+`, and no digit follows it. */
  lemma MatchIntegerIsMatch(s: string, p: nat, q: nat)
    requires p <= |s| && MatchInteger(s, p) == Some(q)
    ensures IsIntegerMatch(s[p..q])
    ensures q < |s| ==> !Decimal.IsDigit(s[q])
  {
    var start := if p < |s| && s[p] == '-' then p + 1 else p;
    DigitsEndDigits(s, start);
    assert forall i :: 0 <= i < q - start ==> s[start..q][i] == s[start + i];
    assert start == p + 1 ==> s[p..q][1..] == s[start..q];
  }

  /** The value of a matched integer. */
  function MatchedValue(t: string): int
    requires IsIntegerMatch(t)
  {
    var v: int := if t[0] == '-' then Decimal.DigitsValue(t[1..]) else Decimal.DigitsValue(t);
    if t[0] == '-' then -v else v
  }

  /** The value of a matched integer is what `int(m.group(...))` reads. */
  lemma MatchedValueIsInt(t: string)
    requires IsIntegerMatch(t)
    ensures Decimal.ParseInt(t) == Some(MatchedValue(t))
  {
    Decimal.NoWhitespaceStrip(t);
  }


  /** One piece `literal(-?\d+)` of the pattern matched at `p`: the integer
      `int` reads from the group and the position after it, or `None`. */
  function MatchField(line: string, p: nat, literal: string): (r: Option<(int, nat)>)
    requires p <= |line|
    ensures r.Some? ==> p + |literal| < r.value.1 <= |line|
  {
    if !Text.StartsWithAt(line, literal, p) then None
    else match MatchInteger(line, p + |literal|)
    case None => None
    case Some(q) =>
      MatchIntegerIsMatch(line, p + |literal|, q);
      Some((MatchedValue(line[p + |literal|..q]), q))
  }

  /** The integer of a matched field is `int` of the group's text. */
  lemma MatchFieldIsInt(line: string, p: nat, literal: string, n: int, q: nat)
    requires p <= |line| && MatchField(line, p, literal) == Some((n, q))
    ensures Text.StartsWithAt(line, literal, p) && IsIntegerMatch(line[p + |literal|..q])
    ensures Decimal.ParseInt(line[p + |literal|..q]) == Some(n)
  {
    MatchIntegerIsMatch(line, p + |literal|, q);
    MatchedValueIsInt(line[p + |literal|..q]);
  }

  /** The literals of the pattern that come before each of its three groups. */
  const MoonLiterals: seq<string> := ["<x=", ", y=", ", z="]

  /** The pieces `literals[i](-?\d+)` matched one after the other from `p`:
      the integers of the groups and the position after the last, or `None`. */
  function MatchFields(line: string, p: nat, literals: seq<string>): (r: Option<(seq<int>, nat)>)
    requires p <= |line|
    ensures r.Some? ==> |r.value.0| == |literals| && p <= r.value.1 <= |line|
    decreases |literals|
  {
    if literals == [] then Some(([], p))
    else match MatchField(line, p, literals[0])
    case None => None
    case Some((n, q)) =>
      match MatchFields(line, q, literals[1..])
      case None => None
      case Some((ns, e)) => Some(([n] + ns, e))
  }

  /** `regex.match(line)` for `<x=(-?\d+), y=(-?\d+), z=(-?\d+)>`, anchored at
      the start of the line, and the three groups read by `int`; a line that
      does not match raises `AttributeError` on `None.group`. */
  function ReadMoon(line: string): (r: Result<(int, int, int), ReaderError>)
    ensures r.Failure? ==> r.error == NoMatch
  {
    match MatchFields(line, 0, MoonLiterals)
    case None => Failure(NoMatch)
    case Some((ns, q)) =>
      if Text.StartsWithAt(line, ">", q) then Success((ns[0], ns[1], ns[2])) else Failure(NoMatch)
  }

  /** A moon written as the puzzle writes it, `<x=X, y=Y, z=Z>` with each
      coordinate in `str` form, reads back as its three coordinates. */
  lemma ReadMoonWritten(x: int, y: int, z: int)
    ensures ReadMoon("<x=" + Decimal.IntToString(x) + ", y=" + Decimal.IntToString(y) +
                     ", z=" + Decimal.IntToString(z) + ">") == Success((x, y, z))
  {
    IntToStringMatch(x);
    IntToStringMatch(y);
    IntToStringMatch(z);
    ReadMoonFields(Decimal.IntToString(x), Decimal.IntToString(y), Decimal.IntToString(z));
  }

  /** Three integer texts between the literals of the pattern match it. */
  lemma ReadMoonFields(tx: string, ty: string, tz: string)
    requires IsIntegerMatch(tx) && IsIntegerMatch(ty) && IsIntegerMatch(tz)
    ensures ReadMoon("<x=" + tx + ", y=" + ty + ", z=" + tz + ">") ==
      Success((MatchedValue(tx), MatchedValue(ty), MatchedValue(tz)))
  {
    var p1 := 3 + |tx|;
    var p2 := p1 + 4 + |ty|;
    MoonFieldX(tx, ty, tz);
    MoonFieldY(tx, ty, tz);
    MoonFieldZ(tx, ty, tz);
    MoonClose(tx, ty, tz);
    ReadMoonOf("<x=" + tx + ", y=" + ty + ", z=" + tz + ">", p1, p2, p2 + 4 + |tz|,
               MatchedValue(tx), MatchedValue(ty), MatchedValue(tz));
  }

  /** A line whose three fields match one after the other, followed by `>`,
      reads as their three integers. */
  lemma ReadMoonOf(line: string, p1: nat, p2: nat, p3: nat, vx: int, vy: int, vz: int)
    requires p1 <= p2 <= p3 <= |line|
    requires MatchField(line, 0, "<x=") == Some((vx, p1))
    requires MatchField(line, p1, ", y=") == Some((vy, p2))
    requires MatchField(line, p2, ", z=") == Some((vz, p3))
    requires Text.StartsWithAt(line, ">", p3)
    ensures ReadMoon(line) == Success((vx, vy, vz))
  {
    MatchFieldsCons(line, p2, ", z=", [], vz, p3, [], p3);
    assert [", z="] + [] == [", z="] && [vz] + [] == [vz];
    MatchFieldsCons(line, p1, ", y=", [", z="], vy, p2, [vz], p3);
    assert [", y="] + [", z="] == [", y=", ", z="] && [vy] + [vz] == [vy, vz];
    MatchFieldsCons(line, 0, "<x=", [", y=", ", z="], vx, p1, [vy, vz], p3);
    assert ["<x="] + [", y=", ", z="] == MoonLiterals && [vx] + [vy, vz] == [vx, vy, vz];
  }

  /** Matching one more field in front of the others. */
  lemma MatchFieldsCons(line: string, p: nat, literal: string, literals: seq<string>, n: int, q: nat,
                        ns: seq<int>, e: nat)
    requires p <= q <= |line|
    requires MatchField(line, p, literal) == Some((n, q)) && MatchFields(line, q, literals) == Some((ns, e))
    ensures MatchFields(line, p, [literal] + literals) == Some(([n] + ns, e))
  {
    assert ([literal] + literals)[0] == literal && ([literal] + literals)[1..] == literals;
  }

  /** The first field of a written moon line. */
  lemma MoonFieldX(tx: string, ty: string, tz: string)
    requires IsIntegerMatch(tx)
    ensures MatchField("<x=" + tx + ", y=" + ty + ", z=" + tz + ">", 0, "<x=") == Some((MatchedValue(tx), 3 + |tx|))
  {
    var line := "<x=" + tx + ", y=" + ty + ", z=" + tz + ">";
    var rest := ", y=" + ty + ", z=" + tz + ">";
    assert line == [] + "<x=" + tx + rest;
    FieldReadIn(line, [], "<x=", tx, rest);
  }

  /** The second field of a written moon line, matched where the first ends. */
  lemma MoonFieldY(tx: string, ty: string, tz: string)
    requires IsIntegerMatch(ty)
    ensures MatchField("<x=" + tx + ", y=" + ty + ", z=" + tz + ">", 3 + |tx|, ", y=") ==
      Some((MatchedValue(ty), 3 + |tx| + 4 + |ty|))
  {
    var line := "<x=" + tx + ", y=" + ty + ", z=" + tz + ">";
    var a := "<x=" + tx;
    var rest := ", z=" + tz + ">";
    assert line == a + ", y=" + ty + rest;
    FieldReadIn(line, a, ", y=", ty, rest);
  }

  /** The third field of a written moon line, matched where the second ends. */
  lemma MoonFieldZ(tx: string, ty: string, tz: string)
    requires IsIntegerMatch(tz)
    ensures MatchField("<x=" + tx + ", y=" + ty + ", z=" + tz + ">", 3 + |tx| + 4 + |ty|, ", z=") ==
      Some((MatchedValue(tz), 3 + |tx| + 4 + |ty| + 4 + |tz|))
  {
    var line := "<x=" + tx + ", y=" + ty + ", z=" + tz + ">";
    var a := "<x=" + tx + ", y=" + ty;
    assert line == a + ", z=" + tz + ">";
    FieldReadIn(line, a, ", z=", tz, ">");
  }

  /** The closing `>` of a written moon line. */
  lemma MoonClose(tx: string, ty: string, tz: string)
    ensures Text.StartsWithAt("<x=" + tx + ", y=" + ty + ", z=" + tz + ">", ">", 3 + |tx| + 4 + |ty| + 4 + |tz|)
  {
    SuffixAt("<x=" + tx + ", y=" + ty + ", z=" + tz, ">");
  }

  /** A field written after `a` and followed by a non-digit reads back as its integer. */
  lemma FieldReadIn(line: string, a: string, literal: string, t: string, rest: string)
    requires line == a + literal + t + rest
    requires IsIntegerMatch(t) && rest != [] && !Decimal.IsDigit(rest[0])
    ensures MatchField(line, |a|, literal) == Some((MatchedValue(t), |a| + |literal| + |t|))
  {
    assert line == a + (literal + t + rest);
    SuffixAt(a, literal + t + rest);
    FieldRead(line, |a|, literal, t, rest);
  }

  lemma SuffixAt(a: string, b: string)
    ensures (a + b)[|a|..] == b
  {
  }

  /** `read_moons`, consumed to the end: one position per line. */
  function ReadMoons(contents: string): (r: Result<seq<(int, int, int)>, ReaderError>)
    ensures r.Success? <==> forall i :: 0 <= i < |ReadLines(contents)| ==> ReadMoon(ReadLines(contents)[i]).Success?
    ensures r.Success? ==> |r.value| == |ReadLines(contents)|
    ensures r.Success? ==> forall i :: 0 <= i < |r.value| ==> ReadMoon(ReadLines(contents)[i]) == Success(r.value[i])
  {
    ParseEach(ReadLines(contents), ReadMoon)
  }

  /** `str(n)` is what `-?\d+` matches. */
  lemma IntToStringMatch(n: int)
    ensures IsIntegerMatch(Decimal.IntToString(n))
    ensures MatchedValue(Decimal.IntToString(n)) == n
  {
    var t := Decimal.IntToString(n);
    if n < 0 {
      assert t[1..] == Decimal.NatToString(-n);
    }
    Decimal.ParseIntToString(n);
    MatchedValueIsInt(t);
  }

  /** Every run of digits ends where the first non-digit stands. */
  lemma {:induction false} DigitsEndAt(s: string, p: nat, q: nat)
    requires p <= q < |s| && !Decimal.IsDigit(s[q])
    requires forall i :: p <= i < q ==> Decimal.IsDigit(s[i])
    ensures DigitsEnd(s, p) == q
    decreases q - p
  {
    if p < q {
      DigitsEndAt(s, p + 1, q);
    }
  }

  /** The characters of `s` from `a` to `e` are those of the digits `d`. */
  lemma DigitsAt(s: string, a: nat, e: nat, d: string)
    requires a <= e <= |s| && s[a..e] == d && Decimal.AllDigits(d)
    ensures forall i :: a <= i < e ==> Decimal.IsDigit(s[i])
  {
    forall i | a <= i < e ensures Decimal.IsDigit(s[i]) {
      assert s[i] == d[i - a];
    }
  }

  /** An integer's text written at `a` and followed by a non-digit is matched whole. */
  lemma IntegerMatchAt(s: string, a: nat, e: nat, t: string)
    requires a <= e < |s| && s[a..e] == t && IsIntegerMatch(t) && !Decimal.IsDigit(s[e])
    ensures MatchInteger(s, a) == Some(e)
  {
    assert s[a] == t[0];
    if t[0] == '-' {
      assert s[a + 1..e] == t[1..];
      DigitsAt(s, a + 1, e, t[1..]);
      DigitsEndAt(s, a + 1, e);
    } else {
      DigitsAt(s, a, e, t);
      DigitsEndAt(s, a, e);
    }
  }

  /** A field written at `p` and followed by a non-digit reads back as its integer. */
  lemma FieldRead(line: string, p: nat, literal: string, t: string, post: string)
    requires p <= |line| && line[p..] == literal + t + post
    requires IsIntegerMatch(t) && post != [] && !Decimal.IsDigit(post[0])
    ensures MatchField(line, p, literal) == Some((MatchedValue(t), p + |literal| + |t|))
  {
    var a := p + |literal|;
    var e := a + |t|;
    assert line[p..][..|literal|] == literal;
    assert line[a..e] == line[p..][|literal|..|literal| + |t|] == t;
    assert line[e] == line[p..][|literal| + |t|] == post[0];
    IntegerMatchAt(line, a, e, t);
  }
}
