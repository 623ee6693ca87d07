/** The readers of rust/src/input_reader.rs: the input text of an
    `InputSpec`, its lines, its numbers one per line and its comma-separated
    numbers. `T::from_str` is a parameter; `u64`'s is given for the masses of
    day 1. The file system is a map from paths to contents. */
module RustInputReader {
  import opened Wrappers
  import Text
  import Decimal
  import RustIntcode

  type U8 = x: int | 0 <= x < 256

  datatype InputSpec =
    | FilePath(path: string)
    | DayNumber(day: U8)
    | DirectInput(text: string)

  /** The `unwrap` calls that panic. */
  datatype Panic =
    | Unreadable   // `fs::read_to_string(..).unwrap()` on a missing file
    | Unparsable   // `parse::<T>().unwrap()` on text `T` refuses

  /** `get_day_path(day)`: "day{n}input.txt" in the data directory. */
  function DayPath(dataDir: string, day: U8): string {
    dataDir + "/day" + Decimal.NatToString(day) + "input.txt"
  }

  /** Different days read different files. */
  lemma DayPathInjective(dataDir: string, a: U8, b: U8)
    ensures DayPath(dataDir, a) == DayPath(dataDir, b) ==> a == b
  {
    var sa, sb := Decimal.NatToString(a), Decimal.NatToString(b);
    if DayPath(dataDir, a) == DayPath(dataDir, b) {
      var pa, pb := DayPath(dataDir, a), DayPath(dataDir, b);
      var n := |dataDir| + 4;
      assert |sa| == |sb|;
      assert sa == pa[n..n + |sa|];
      assert sb == pb[n..n + |sb|];
      Decimal.NatToStringValue(a);
      Decimal.NatToStringValue(b);
    }
  }

  /** `read_input(input)`. */
  function ReadInput(input: InputSpec, files: map<string, string>, dataDir: string): (r: Result<string, Panic>)
    ensures input.DirectInput? ==> r == Success(input.text)
    ensures input.FilePath? ==> (r.Success? <==> input.path in files)
    ensures input.FilePath? && r.Success? ==> r.value == files[input.path]
    ensures input.DayNumber? ==> (r.Success? <==> DayPath(dataDir, input.day) in files)
    ensures r.Failure? ==> r.error == Unreadable
  {
    var path := match input
      case FilePath(p) => p
      case DayNumber(n) => DayPath(dataDir, n)
      case DirectInput(_) => "";
    if input.DirectInput? then Success(input.text)
    else if path in files then Success(files[path])
    else Failure(Unreadable)
  }

  /** `read_lines(input)`: every piece between '\n's, the empty ones too. */
  method ReadLines(input: InputSpec, files: map<string, string>, dataDir: string) returns (r: Result<seq<string>, Panic>)
    ensures r.Failure? <==> ReadInput(input, files, dataDir).Failure?
    ensures r.Success? ==> r.value == Text.Split(ReadInput(input, files, dataDir).value, '\n')
  {
    var text := ReadInput(input, files, dataDir);
    if text.Failure? {
      return Failure(text.error);
    }
    var rtn := [];
    var segments := Text.Split(text.value, '\n');
    for k := 0 to |segments|
      invariant rtn == segments[..k]
    {
      rtn := rtn + [segments[k]];
    }
    assert segments[..|segments|] == segments;
    return Success(rtn);
  }

  /** The lines of `read_lines` are one more than the newlines, and joined
      with '\n' they are the text again. */
  lemma ReadLinesCount(text: string)
    ensures |Text.Split(text, '\n')| == Text.Count(text, '\n') + 1
    ensures Text.Join(Text.Split(text, '\n'), '\n') == text
  {
    Text.JoinSplit(text, '\n');
  }

  /** The pieces that are not empty, in order. */
  function NonEmpty(pieces: seq<string>): (r: seq<string>)
    ensures forall i :: 0 <= i < |r| ==> r[i] != [] && r[i] in pieces
    ensures forall p :: p in pieces && p != [] ==> p in r
  {
    if pieces == [] then []
    else if pieces[0] == [] then NonEmpty(pieces[1..])
    else [pieces[0]] + NonEmpty(pieces[1..])
  }

  /** Each piece parsed in order; the first that `parse` refuses panics. */
  function ParseAll<T>(pieces: seq<string>, parse: string -> Option<T>): (r: Result<seq<T>, Panic>)
    ensures r.Success? <==> forall i :: 0 <= i < |pieces| ==> parse(pieces[i]).Some?
    ensures r.Failure? ==> r.error == Unparsable
    ensures r.Success? ==>
      |r.value| == |pieces| && forall i :: 0 <= i < |pieces| ==> parse(pieces[i]) == Some(r.value[i])
  {
    if pieces == [] then Success([])
    else
      var rest := ParseAll(pieces[1..], parse);
      assert forall i :: 1 <= i < |pieces| ==> pieces[i] == pieces[1..][i - 1];
      match parse(pieces[0])
      case None => Failure(Unparsable)
      case Some(v) => if rest.Failure? then rest else Success([v] + rest.value)
  }

  /** `read_number_per_line::<T>` on the text: the non-empty lines, parsed. */
  function NumbersPerLine<T>(text: string, parse: string -> Option<T>): Result<seq<T>, Panic> {
    ParseAll(NonEmpty(Text.Split(text, '\n')), parse)
  }

  /** `read_number_per_line::<T>(input)`: empty lines are skipped, every
      other line is parsed, in order. */
  method ReadNumberPerLine<T>(input: InputSpec, files: map<string, string>, dataDir: string,
                              parse: string -> Option<T>) returns (r: Result<seq<T>, Panic>)
    ensures ReadInput(input, files, dataDir).Failure? ==> r == Failure(Unreadable)
    ensures ReadInput(input, files, dataDir).Success? ==> r == NumbersPerLine(ReadInput(input, files, dataDir).value, parse)
  {
    var text := ReadInput(input, files, dataDir);
    if text.Failure? {
      return Failure(text.error);
    }
    var rtn := [];
    var lines := Text.Split(text.value, '\n');
    for k := 0 to |lines|
      invariant ParseAll(NonEmpty(lines[..k]), parse) == Success(rtn)
    {
      var line := lines[k];
      ReadNumberStep(lines, k, rtn, parse);
      if |line| > 0 {
        var value := parse(line);
        if value.None? {
          return Failure(Unparsable);
        }
        rtn := rtn + [value.value];
      }
    }
    assert lines[..|lines|] == lines;
    return Success(rtn);
  }

  /** One more line read: an empty one changes nothing, a parsed one adds its
      value, and one that does not parse fails the whole text. */
  lemma ReadNumberStep<T>(lines: seq<string>, k: nat, rtn: seq<T>, parse: string -> Option<T>)
    requires k < |lines| && ParseAll(NonEmpty(lines[..k]), parse) == Success(rtn)
    ensures lines[k] == [] ==> ParseAll(NonEmpty(lines[..k + 1]), parse) == Success(rtn)
    ensures lines[k] != [] && parse(lines[k]).Some? ==>
      ParseAll(NonEmpty(lines[..k + 1]), parse) == Success(rtn + [parse(lines[k]).value])
    ensures lines[k] != [] && parse(lines[k]).None? ==> ParseAll(NonEmpty(lines), parse) == Failure(Unparsable)
  {
    var line := lines[k];
    PrefixSnoc(lines, k);
    NonEmptySnoc(lines[..k], line);
    if |line| > 0 {
      ParseAllSnoc(NonEmpty(lines[..k]), line, parse);
      if parse(line).None? {
        ParseAllFailure(NonEmpty(lines), NonEmpty(lines[..k + 1]), lines, k + 1, parse);
      }
    }
  }

  /** The first `k + 1` lines are the first `k` and then line `k`. */
  lemma PrefixSnoc(lines: seq<string>, k: nat)
    requires k < |lines|
    ensures lines[..k + 1] == lines[..k] + [lines[k]]
  {
    assert lines[..k + 1] == lines[..k] + [lines[k]];
  }

  lemma {:induction false} NonEmptySnoc(pieces: seq<string>, p: string)
    ensures NonEmpty(pieces + [p]) == if p == [] then NonEmpty(pieces) else NonEmpty(pieces) + [p]
  {
    if pieces == [] {
      assert [p][1..] == [];
    } else {
      assert (pieces + [p])[1..] == pieces[1..] + [p];
      NonEmptySnoc(pieces[1..], p);
    }
  }

  lemma {:induction false} ParseAllSnoc<T>(pieces: seq<string>, p: string, parse: string -> Option<T>)
    ensures ParseAll(pieces + [p], parse) ==
      match ParseAll(pieces, parse)
      case Failure(e) => Failure(e)
      case Success(vs) => if parse(p).None? then Failure(Unparsable) else Success(vs + [parse(p).value])
  {
    if pieces == [] {
      assert [p][1..] == [];
      assert pieces + [p] == [p];
      assert ParseAll([p][1..], parse) == Success([]);
      if parse(p).Some? {
        assert [parse(p).value] + [] == [] + [parse(p).value];
      }
    } else {
      assert (pieces + [p])[1..] == pieces[1..] + [p];
      assert (pieces + [p])[0] == pieces[0];
      ParseAllSnoc(pieces[1..], p, parse);
      var rest := ParseAll(pieces[1..], parse);
      if parse(pieces[0]).Some? && rest.Success? && parse(p).Some? {
        var v := parse(pieces[0]).value;
        assert [v] + (rest.value + [parse(p).value]) == [v] + rest.value + [parse(p).value];
      }
    }
  }

  /** A piece that fails to parse among the first lines fails the whole. */
  lemma ParseAllFailure<T>(all: seq<string>, front: seq<string>, lines: seq<string>, k: nat, parse: string -> Option<T>)
    requires k <= |lines| && all == NonEmpty(lines) && front == NonEmpty(lines[..k])
    requires ParseAll(front, parse).Failure?
    ensures ParseAll(all, parse).Failure?
  {
    var i :| 0 <= i < |front| && parse(front[i]).None?;
    NonEmptyPrefix(lines, k);
    assert front[i] in lines[..k];
    assert front[i] in lines;
    assert front[i] in all;
  }

  lemma NonEmptyPrefix(lines: seq<string>, k: nat)
    requires k <= |lines|
    ensures forall p :: p in NonEmpty(lines[..k]) ==> p in lines
  {
    forall p | p in NonEmpty(lines[..k]) ensures p in lines {
      assert p in lines[..k];
    }
  }

  /** `u64::from_str`: an optional '+', then decimal digits, below 2^64. */
  function ParseU64(s: string): (r: Option<RustIntcode.U64>)
    ensures r.Some? ==> s != [] && Decimal.IsDigit(s[|s| - 1])
    ensures r.Some? && s[0] == '+' ==> Decimal.AllDigits(s[1..]) && r.value == Decimal.DigitsValue(s[1..])
    ensures r.Some? && s[0] != '+' ==> Decimal.AllDigits(s) && r.value == Decimal.DigitsValue(s)
  {
    var digits := if s != [] && s[0] == '+' then s[1..] else s;
    if digits != [] && Decimal.AllDigits(digits) && Decimal.DigitsValue(digits) < RustIntcode.TWO_64 then
      Some(Decimal.DigitsValue(digits))
    else None
  }

  /** `n.to_string().parse::<u64>()` is n. */
  lemma ParseU64Text(n: RustIntcode.U64)
    ensures ParseU64(Decimal.NatToString(n)) == Some(n)
  {
    Decimal.NatToStringValue(n);
  }

  /** Masses written one per line, each line ending in '\n', read back as
      the same masses. */
  lemma NumbersPerLineRoundTrip(masses: seq<RustIntcode.U64>)
    ensures NumbersPerLine(LinesText(masses), ParseU64) == Success(masses)
  {
    var pieces := seq(|masses|, i requires 0 <= i < |masses| => Decimal.NatToString(masses[i]));
    LinesTextSplit(masses);
    assert Text.Split(LinesText(masses), '\n') == pieces + [""];
    NonEmptySnoc(pieces, "");
    NonEmptyAll(pieces);
    forall i | 0 <= i < |masses|
      ensures ParseU64(pieces[i]) == Some(masses[i])
    {
      ParseU64Text(masses[i]);
    }
    ParseAllSome(pieces, masses, ParseU64);
  }

  /** "m\n" for every mass m. */
  function LinesText(masses: seq<RustIntcode.U64>): string {
    if masses == [] then "" else Decimal.NatToString(masses[0]) + "\n" + LinesText(masses[1..])
  }

  lemma {:induction false} LinesTextSplit(masses: seq<RustIntcode.U64>)
    ensures Text.Split(LinesText(masses), '\n') ==
      seq(|masses|, i requires 0 <= i < |masses| => Decimal.NatToString(masses[i])) + [""]
  {
    if masses != [] {
      var s := Decimal.NatToString(masses[0]);
      assert '\n' !in s by {
        assert forall i :: 0 <= i < |s| ==> Decimal.IsDigit(s[i]);
      }
      LinesTextSplit(masses[1..]);
      Text.SplitPrefix(s, LinesText(masses[1..]), '\n');
      assert LinesText(masses) == s + ['\n'] + LinesText(masses[1..]);
    }
  }

  lemma {:induction false} NonEmptyAll(pieces: seq<string>)
    requires forall i :: 0 <= i < |pieces| ==> pieces[i] != []
    ensures NonEmpty(pieces) == pieces
  {
    if pieces != [] {
      NonEmptyAll(pieces[1..]);
    }
  }

  lemma {:induction false} ParseAllSome<T>(pieces: seq<string>, vs: seq<T>, parse: string -> Option<T>)
    requires |pieces| == |vs|
    requires forall i :: 0 <= i < |pieces| ==> parse(pieces[i]) == Some(vs[i])
    ensures ParseAll(pieces, parse) == Success(vs)
  {
    if pieces != [] {
      ParseAllSome(pieces[1..], vs[1..], parse);
      assert [vs[0]] + vs[1..] == vs;
    }
  }

  /** Every piece between commas, trimmed, the empty ones dropped. */
  function Tokens(pieces: seq<string>): (r: seq<string>)
    ensures forall i :: 0 <= i < |r| ==> r[i] != []
  {
    if pieces == [] then []
    else
      var value := Text.Trim(pieces[0]);
      if value == [] then Tokens(pieces[1..]) else [value] + Tokens(pieces[1..])
  }

  /** `read_numbers_comma_separated::<T>` on the text. */
  function NumbersCommaSeparated<T>(text: string, parse: string -> Option<T>): Result<seq<T>, Panic> {
    ParseAll(Tokens(Text.Split(text, ',')), parse)
  }

  /** `read_numbers_comma_separated::<T>(input)`: the text split on ',',
      each piece trimmed, empty pieces skipped, the rest parsed in order. */
  method ReadNumbersCommaSeparated<T>(input: InputSpec, files: map<string, string>, dataDir: string,
                                      parse: string -> Option<T>) returns (r: Result<seq<T>, Panic>)
    ensures ReadInput(input, files, dataDir).Failure? ==> r == Failure(Unreadable)
    ensures ReadInput(input, files, dataDir).Success? ==>
      r == NumbersCommaSeparated(ReadInput(input, files, dataDir).value, parse)
  {
    var text := ReadInput(input, files, dataDir);
    if text.Failure? {
      return Failure(text.error);
    }
    var rtn := [];
    var pieces := Text.Split(text.value, ',');
    for k := 0 to |pieces|
      invariant ParseAll(Tokens(pieces[..k]), parse) == Success(rtn)
    {
      var value := Text.Trim(pieces[k]);
      TokensSnoc(pieces[..k], pieces[k]);
      PrefixSnoc(pieces, k);
      if |value| > 0 {
        var parsed := parse(value);
        ParseAllSnoc(Tokens(pieces[..k]), value, parse);
        if parsed.None? {
          TokensFailure(pieces, k + 1, parse);
          return Failure(Unparsable);
        }
        rtn := rtn + [parsed.value];
      }
    }
    assert pieces[..|pieces|] == pieces;
    return Success(rtn);
  }

  lemma {:induction false} TokensSnoc(pieces: seq<string>, p: string)
    ensures Tokens(pieces + [p]) == if Text.Trim(p) == [] then Tokens(pieces) else Tokens(pieces) + [Text.Trim(p)]
  {
    if pieces == [] {
      assert [p][1..] == [];
    } else {
      assert (pieces + [p])[1..] == pieces[1..] + [p];
      TokensSnoc(pieces[1..], p);
    }
  }

  /** Tokens of the first pieces are the first tokens of all of them. */
  lemma {:induction false} TokensPrefix(pieces: seq<string>, k: nat)
    requires k <= |pieces|
    ensures Tokens(pieces[..k]) <= Tokens(pieces)
    decreases |pieces|
  {
    if k > 0 {
      TokensPrefix(pieces[1..], k - 1);
      assert pieces[..k][1..] == pieces[1..][..k - 1];
    }
  }

  lemma TokensFailure<T>(pieces: seq<string>, k: nat, parse: string -> Option<T>)
    requires k <= |pieces| && ParseAll(Tokens(pieces[..k]), parse).Failure?
    ensures ParseAll(Tokens(pieces), parse).Failure?
  {
    TokensPrefix(pieces, k);
    var front := Tokens(pieces[..k]);
    var i :| 0 <= i < |front| && parse(front[i]).None?;
    assert Tokens(pieces)[i] == front[i];
  }

  /** Trailing whitespace, such as a final newline, does not change a trim. */
  lemma {:induction false} TrimSnoc(s: string, c: char)
    requires Text.IsRustWhitespace(c)
    ensures Text.Trim(s + [c]) == Text.Trim(s)
  {
    if s == [] {
      assert Text.Trim([c]) == Text.Trim([c][1..]);
    } else if Text.IsRustWhitespace(s[0]) {
      assert (s + [c])[1..] == s[1..] + [c];
      TrimSnoc(s[1..], c);
    } else {
      assert (s + [c])[..|s|] == s;
    }
  }

  /** A final newline or a final comma adds no number. */
  lemma TrailingSeparators<T>(text: string, parse: string -> Option<T>)
    ensures NumbersCommaSeparated(text + "\n", parse) == NumbersCommaSeparated(text, parse)
    ensures NumbersCommaSeparated(text + ",", parse) == NumbersCommaSeparated(text, parse)
  {
    var pieces := Text.Split(text, ',');
    var n := |pieces|;
    Text.SplitSnoc(text, '\n', ',');
    TrimSnoc(pieces[n - 1], '\n');
    assert pieces == pieces[..n - 1] + [pieces[n - 1]];
    TokensSnoc(pieces[..n - 1], pieces[n - 1]);
    TokensSnoc(pieces[..n - 1], pieces[n - 1] + "\n");
    Text.SplitSnocSep(text, ',');
    TokensSnoc(pieces, "");
  }
}
