/**
  `parse_timedelta`: the `event-duration` field, a whitespace-separated list of
  chunks such as `2h 30m`, each a number followed by one of the multipliers of
  `TIME_MULTIPLIERS`, turned into a `timedelta` counted here in whole seconds.
 */
module Durations {
  import opened Results
  import opened Chars
  import opened Text
  import DateTimes

  /** The keyword arguments of `timedelta` the multipliers stand for. */
  datatype Unit = Weeks | Days | Hours | Minutes | Seconds

  /** The multiplier letter of each unit. */
  function Letter(u: Unit): char {
    match u
    case Weeks => 'w'
    case Days => 'd'
    case Hours => 'h'
    case Minutes => 'm'
    case Seconds => 's'
  }

  /** `TIME_MULTIPLIERS[c]`; None stands for the KeyError. */
  function UnitOf(c: char): (r: Option<Unit>)
    ensures r.Some? ==> Letter(r.value) == c
  {
    if c == 'w' then Some(Weeks)
    else if c == 'd' then Some(Days)
    else if c == 'h' then Some(Hours)
    else if c == 'm' then Some(Minutes)
    else if c == 's' then Some(Seconds)
    else None
  }

  /** The table knows exactly the five letters, one per unit. */
  lemma UnitOfLetter(c: char, u: Unit)
    ensures UnitOf(c) == Some(u) <==> Letter(u) == c
    ensures UnitOf(c).None? <==> c !in "wdhms"
  {
  }

  function SecondsPer(u: Unit): nat {
    match u
    case Weeks => 7 * 24 * 3600
    case Days => 24 * 3600
    case Hours => 3600
    case Minutes => 60
    case Seconds => 1
  }

  /**
    Why a duration is refused: the RuntimeError for a chunk ending in an unknown
    letter, the ValueError for a chunk whose number `int()` rejects, and the
    OverflowError of `timedelta` past 999999999 days.
   */
  datatype DurationError = UnknownMultiplier(chunk: string) | InvalidNumber(chunk: string) | Overflow

  /** The keyword arguments collected so far: the value last given for each unit. */
  type Args = map<Unit, int>

  /** One chunk: the multiplier is looked up first, then the number before it is parsed. */
  function ParseChunk(c: string): (r: Result<(Unit, int), DurationError>)
    requires c != []
    ensures r.Success? ==> c == c[..|c| - 1] + [Letter(r.value.0)]
    ensures r.Success? ==> ParseInt(c[..|c| - 1]) == Some(r.value.1)
    ensures r.Failure? ==> r.error == (if c[|c| - 1] !in "wdhms" then UnknownMultiplier(c) else InvalidNumber(c))
    ensures r.Failure? <==> c[|c| - 1] !in "wdhms" || ParseInt(c[..|c| - 1]).None?
  {
    UnitOfLetter(c[|c| - 1], Days);
    var u :- (match UnitOf(c[|c| - 1])
              case None => Failure(UnknownMultiplier(c))
              case Some(u) => Success(u));
    var v :- (match ParseInt(c[..|c| - 1])
              case None => Failure(InvalidNumber(c))
              case Some(v) => Success(v));
    Success((u, v))
  }

  /** A number in its `str()` spelling followed by a multiplier letter is read back as that number and unit. */
  lemma ParseChunkFormatted(v: int, u: Unit)
    ensures ParseChunk(FormatInt(v) + [Letter(u)]) == Success((u, v))
  {
    var c := FormatInt(v) + [Letter(u)];
    assert c[..|c| - 1] == FormatInt(v) && c[|c| - 1] == Letter(u);
    UnitOfLetter(Letter(u), u);
    ParseFormatInt(v);
  }

  predicate AllWords(chunks: seq<string>) {
    forall i :: 0 <= i < |chunks| ==> chunks[i] != []
  }

  /** The loop over the chunks, as a fold: stop at the first bad chunk, otherwise a later unit overrides. */
  function FillArgs(args: Args, chunks: seq<string>): Result<Args, DurationError>
    requires AllWords(chunks)
    decreases |chunks|
  {
    if chunks == [] then Success(args)
    else
      var p :- ParseChunk(chunks[0]);
      FillArgs(args[p.0 := p.1], chunks[1..])
  }

  /** A `timedelta` keyword argument that was not given counts as zero. */
  function Get(args: Args, u: Unit): int {
    if u in args then args[u] else 0
  }

  function TotalSeconds(args: Args): int {
    SecondsPer(Weeks) * Get(args, Weeks) + SecondsPer(Days) * Get(args, Days) + SecondsPer(Hours) * Get(args, Hours)
    + SecondsPer(Minutes) * Get(args, Minutes) + SecondsPer(Seconds) * Get(args, Seconds)
  }

  /** The largest magnitude of the normalised day count of a `timedelta`. */
  const MaxDays: int := 999999999

  /**
    `timedelta(**args)` in seconds. The day count is normalised by flooring, so a
    span is refused once the floor of its days exceeds `MaxDays` in magnitude.
   */
  function Timedelta(args: Args): (r: Result<int, DurationError>)
    ensures r.Success? <==> -MaxDays * DateTimes.SecondsPerDay <= TotalSeconds(args) < (MaxDays + 1) * DateTimes.SecondsPerDay
    ensures r.Success? ==> r.value == TotalSeconds(args)
    ensures r.Failure? ==> r.error == Overflow
  {
    var total := TotalSeconds(args);
    if -MaxDays <= total / DateTimes.SecondsPerDay <= MaxDays then Success(total) else Failure(Overflow)
  }

  /** `parse_timedelta` on the text of the `event-duration` field. */
  function DurationSeconds(text: string): (r: Result<int, DurationError>)
    ensures r.Success? ==> -MaxDays * DateTimes.SecondsPerDay <= r.value < (MaxDays + 1) * DateTimes.SecondsPerDay
    ensures r.Failure? ==> r.error.Overflow? || r.error.chunk in Split(text)
  {
    FillArgsOutcome(map[], Split(text));
    var args :- FillArgs(map[], Split(text));
    Timedelta(args)
  }

  /** The loop of `parse_timedelta`, updating one dictionary chunk by chunk. */
  method ParseDuration(text: string) returns (r: Result<int, DurationError>)
    ensures r == DurationSeconds(text)
  {
    var chunks := Split(text);
    var tdargs: Args := map[];
    for i := 0 to |chunks|
      invariant FillArgs(map[], chunks) == FillArgs(tdargs, chunks[i..])
    {
      var c := chunks[i];
      assert chunks[i..][0] == c && chunks[i..][1..] == chunks[i + 1..];
      var unit := UnitOf(c[|c| - 1]);
      if unit.None? {
        return Failure(UnknownMultiplier(c));
      }
      var val := ParseInt(c[..|c| - 1]);
      if val.None? {
        return Failure(InvalidNumber(c));
      }
      tdargs := tdargs[unit.value := val.value];
    }
    assert chunks[|chunks|..] == [];
    r := Timedelta(tdargs);
  }

  // ---------------------------------------------------------------------------
  // What the fold does
  // ---------------------------------------------------------------------------

  /** The fold never forgets a unit, and the error it stops with is about one of its chunks. */
  lemma {:induction false} FillArgsOutcome(args: Args, chunks: seq<string>)
    requires AllWords(chunks)
    ensures FillArgs(args, chunks).Success? ==> args.Keys <= FillArgs(args, chunks).value.Keys
    ensures FillArgs(args, chunks).Failure? ==> !FillArgs(args, chunks).error.Overflow? && FillArgs(args, chunks).error.chunk in chunks
    decreases |chunks|
  {
    if chunks != [] && ParseChunk(chunks[0]).Success? {
      var p := ParseChunk(chunks[0]).value;
      FillArgsOutcome(args[p.0 := p.1], chunks[1..]);
      if FillArgs(args, chunks).Failure? {
        assert FillArgs(args, chunks).error.chunk in chunks[1..];
      }
    }
  }

  /** The chunks are accepted exactly when each one is. */
  lemma {:induction false} FillArgsSucceeds(args: Args, chunks: seq<string>)
    requires AllWords(chunks)
    ensures FillArgs(args, chunks).Success? <==> forall i :: 0 <= i < |chunks| ==> ParseChunk(chunks[i]).Success?
    decreases |chunks|
  {
    if chunks != [] && ParseChunk(chunks[0]).Success? {
      var p := ParseChunk(chunks[0]).value;
      FillArgsSucceeds(args[p.0 := p.1], chunks[1..]);
      assert forall i :: 1 <= i < |chunks| ==> chunks[i] == chunks[1..][i - 1];
    }
  }

  /** The error is the one of the first bad chunk; later chunks are never looked at. */
  lemma {:induction false} FillArgsFirstError(args: Args, chunks: seq<string>, k: nat)
    requires AllWords(chunks) && k < |chunks|
    requires forall i :: 0 <= i < k ==> ParseChunk(chunks[i]).Success?
    requires ParseChunk(chunks[k]).Failure?
    ensures FillArgs(args, chunks) == Failure(ParseChunk(chunks[k]).error)
    decreases k
  {
    if k > 0 {
      var p := ParseChunk(chunks[0]).value;
      assert forall i :: 0 <= i < k - 1 ==> chunks[1..][i] == chunks[i + 1];
      FillArgsFirstError(args[p.0 := p.1], chunks[1..], k - 1);
    }
  }

  /** One more chunk at the end sets its unit on top of what the others collected: the last value wins. */
  lemma {:induction false} FillArgsAppend(args: Args, chunks: seq<string>, c: string)
    requires AllWords(chunks) && c != []
    ensures AllWords(chunks + [c])
    ensures FillArgs(args, chunks + [c])
            == (match FillArgs(args, chunks)
                case Failure(e) => Failure(e)
                case Success(a) =>
                  match ParseChunk(c)
                  case Failure(e) => Failure(e)
                  case Success(p) => Success(a[p.0 := p.1]))
    decreases |chunks|
  {
    if chunks == [] {
      assert [] + [c] == [c];
    } else {
      assert (chunks + [c])[1..] == chunks[1..] + [c];
      if ParseChunk(chunks[0]).Success? {
        var p := ParseChunk(chunks[0]).value;
        FillArgsAppend(args[p.0 := p.1], chunks[1..], c);
      }
    }
  }

  /** The loop over `xs + ys` is the loop over `ys` started from where the loop over `xs` left off. */
  lemma {:induction false} FillArgsConcat(args: Args, xs: seq<string>, ys: seq<string>)
    requires AllWords(xs) && AllWords(ys)
    ensures AllWords(xs + ys)
    ensures FillArgs(args, xs + ys)
            == (match FillArgs(args, xs)
                case Failure(e) => Failure(e)
                case Success(a) => FillArgs(a, ys))
    decreases |xs|
  {
    if xs == [] {
      assert [] + ys == ys;
    } else {
      assert (xs + ys)[1..] == xs[1..] + ys;
      if ParseChunk(xs[0]).Success? {
        var p := ParseChunk(xs[0]).value;
        FillArgsConcat(args[p.0 := p.1], xs[1..], ys);
      }
    }
  }

  /** Wherever a unit last appears, that chunk's value is the one the loop keeps. */
  lemma LastOccurrenceWins(args: Args, chunks: seq<string>, k: nat, u: Unit)
    requires AllWords(chunks) && k < |chunks|
    requires ParseChunk(chunks[k]).Success? && ParseChunk(chunks[k]).value.0 == u
    requires forall i :: k < i < |chunks| ==> ParseChunk(chunks[i]).Success? ==> ParseChunk(chunks[i]).value.0 != u
    ensures FillArgs(args, chunks).Success? ==>
              u in FillArgs(args, chunks).value && FillArgs(args, chunks).value[u] == ParseChunk(chunks[k]).value.1
  {
    var front, back := chunks[..k], chunks[k + 1..];
    assert chunks == (front + [chunks[k]]) + back;
    FillArgsAppend(args, front, chunks[k]);
    FillArgsConcat(args, front + [chunks[k]], back);
    if FillArgs(args, front + [chunks[k]]).Success? {
      var a := FillArgs(args, front + [chunks[k]]).value;
      assert forall i :: 0 <= i < |back| ==> back[i] == chunks[k + 1 + i];
      FillArgsUnnamed(a, back, u);
    }
  }

  /** Starting from no arguments, the loop sets exactly the units its chunks name. */
  lemma {:induction false} FillArgsKeys(args: Args, chunks: seq<string>, u: Unit)
    requires AllWords(chunks)
    ensures FillArgs(args, chunks).Success? ==>
              (u in FillArgs(args, chunks).value
               <==> u in args || exists i :: 0 <= i < |chunks| && ParseChunk(chunks[i]).Success? && ParseChunk(chunks[i]).value.0 == u)
    decreases |chunks|
  {
    if chunks != [] && ParseChunk(chunks[0]).Success? {
      var p := ParseChunk(chunks[0]).value;
      var rest := chunks[1..];
      FillArgsKeys(args[p.0 := p.1], rest, u);
      if exists i :: 0 <= i < |rest| && ParseChunk(rest[i]).Success? && ParseChunk(rest[i]).value.0 == u {
        var i :| 0 <= i < |rest| && ParseChunk(rest[i]).Success? && ParseChunk(rest[i]).value.0 == u;
        assert chunks[i + 1] == rest[i];
      }
      if exists i :: 0 <= i < |chunks| && ParseChunk(chunks[i]).Success? && ParseChunk(chunks[i]).value.0 == u {
        var i :| 0 <= i < |chunks| && ParseChunk(chunks[i]).Success? && ParseChunk(chunks[i]).value.0 == u;
        if i > 0 {
          assert rest[i - 1] == chunks[i];
        }
      }
    }
  }

  /** A unit no chunk names keeps the value it had before the loop. */
  lemma {:induction false} FillArgsUnnamed(args: Args, chunks: seq<string>, u: Unit)
    requires AllWords(chunks)
    requires forall i :: 0 <= i < |chunks| ==> ParseChunk(chunks[i]).Success? ==> ParseChunk(chunks[i]).value.0 != u
    ensures FillArgs(args, chunks).Success? ==>
              (u in FillArgs(args, chunks).value <==> u in args) && Get(FillArgs(args, chunks).value, u) == Get(args, u)
    decreases |chunks|
  {
    if chunks != [] && ParseChunk(chunks[0]).Success? {
      var p := ParseChunk(chunks[0]).value;
      assert forall i :: 0 <= i < |chunks| - 1 ==> chunks[1..][i] == chunks[i + 1];
      FillArgsUnnamed(args[p.0 := p.1], chunks[1..], u);
    }
  }

  /** Two neighbouring chunks for different units can be written in either order. */
  lemma {:induction false} FillArgsSwap(args: Args, front: seq<string>, a: string, b: string, back: seq<string>)
    requires AllWords(front) && AllWords(back) && a != [] && b != []
    requires ParseChunk(a).Success? && ParseChunk(b).Success? && ParseChunk(a).value.0 != ParseChunk(b).value.0
    ensures AllWords(front + [a, b] + back) && AllWords(front + [b, a] + back)
    ensures FillArgs(args, front + [a, b] + back) == FillArgs(args, front + [b, a] + back)
    decreases |front|
  {
    if front == [] {
      assert front + [a, b] + back == [a, b] + back;
      assert front + [b, a] + back == [b, a] + back;
      SwapInFront(args, a, b, back);
    } else {
      assert (front + [a, b] + back)[1..] == front[1..] + [a, b] + back;
      assert (front + [b, a] + back)[1..] == front[1..] + [b, a] + back;
      if ParseChunk(front[0]).Success? {
        var p := ParseChunk(front[0]).value;
        FillArgsSwap(args[p.0 := p.1], front[1..], a, b, back);
      }
    }
  }

  lemma SwapInFront(args: Args, a: string, b: string, back: seq<string>)
    requires AllWords(back) && a != [] && b != []
    requires ParseChunk(a).Success? && ParseChunk(b).Success? && ParseChunk(a).value.0 != ParseChunk(b).value.0
    ensures AllWords([a, b] + back) && AllWords([b, a] + back)
    ensures FillArgs(args, [a, b] + back) == FillArgs(args, [b, a] + back)
  {
    var pa, pb := ParseChunk(a).value, ParseChunk(b).value;
    assert ([a, b] + back)[1..] == [b] + back && ([b] + back)[1..] == back;
    assert ([b, a] + back)[1..] == [a] + back && ([a] + back)[1..] == back;
    assert FillArgs(args, [a, b] + back) == FillArgs(args[pa.0 := pa.1][pb.0 := pb.1], back);
    assert FillArgs(args, [b, a] + back) == FillArgs(args[pb.0 := pb.1][pa.0 := pa.1], back);
    assert args[pa.0 := pa.1][pb.0 := pb.1] == args[pb.0 := pb.1][pa.0 := pa.1];
  }

  /** Chunk order does matter once a unit repeats: whichever chunk comes last sets it. */
  lemma {:induction false} RepeatedUnitOrderMatters(args: Args, a: string, b: string)
    requires a != [] && b != [] && ParseChunk(a).Success? && ParseChunk(b).Success?
    requires ParseChunk(a).value.0 == ParseChunk(b).value.0 && ParseChunk(a).value.1 != ParseChunk(b).value.1
    ensures AllWords([a, b]) && AllWords([b, a])
    ensures FillArgs(args, [a, b]).Success? && FillArgs(args, [b, a]).Success?
    ensures Get(FillArgs(args, [a, b]).value, ParseChunk(a).value.0) == ParseChunk(b).value.1
    ensures FillArgs(args, [a, b]) != FillArgs(args, [b, a])
  {
    FillArgsAppend(args, [a], b);
    FillArgsAppend(args, [b], a);
    assert [a] + [b] == [a, b] && [b] + [a] == [b, a];
    assert FillArgs(args, [a]) == Success(args[ParseChunk(a).value.0 := ParseChunk(a).value.1]) by {
      FillArgsAppend(args, [], a);
      assert [] + [a] == [a];
    }
    assert FillArgs(args, [b]) == Success(args[ParseChunk(b).value.0 := ParseChunk(b).value.1]) by {
      FillArgsAppend(args, [], b);
      assert [] + [b] == [b];
    }
  }

  // ---------------------------------------------------------------------------
  // Examples
  // ---------------------------------------------------------------------------

  /** The two chunks of the docstring's example. */
  lemma DocstringChunks()
    ensures ParseChunk("2h") == Success((Hours, 2))
    ensures ParseChunk("30m") == Success((Minutes, 30))
  {
    assert "2h"[..1] == "2" && DigitsValue("2") == 2;
    assert "30m"[..2] == "30" && "30"[..1] == "3";
    assert DigitsValue("3") == 3 && DigitsValue("30") == 30;
  }

  /** The example of the docstring. */
  lemma TwoHoursThirtyMinutes()
    ensures DurationSeconds("2h 30m") == Success(9000)
  {
    SplitsIntoTwo("2h 30m", "2h", "30m");
    TwoHoursThenThirtyMinutes(["2h", "30m"]);
  }

  lemma TwoHoursThenThirtyMinutes(chunks: seq<string>)
    requires chunks == ["2h", "30m"]
    ensures AllWords(chunks) && FillArgs(map[], chunks) == Success(map[Hours := 2][Minutes := 30])
    ensures Timedelta(map[Hours := 2][Minutes := 30]) == Success(9000)
  {
    DocstringChunks();
    var rest := chunks[1..];
    assert rest == ["30m"] && rest[1..] == [];
    assert FillArgs(map[], chunks) == FillArgs(map[Hours := 2], rest);
    assert FillArgs(map[Hours := 2], rest) == FillArgs(map[Hours := 2][Minutes := 30], []);
  }

  /** A repeated unit is not added up: the later chunk overrides the earlier. */
  lemma LastValueWins()
    ensures DurationSeconds("1h 2h") == Success(7200)
  {
    SplitsIntoTwo("1h 2h", "1h", "2h");
    OneHourThenTwo(["1h", "2h"]);
  }

  lemma SplitsIntoTwo(s: string, a: string, b: string)
    requires IsWord(a) && IsWord(b) && s == a + " " + b
    ensures Split(s) == [a, b]
  {
    assert s == Join([a, b]);
    SplitJoin([a, b]);
  }

  lemma OneHourThenTwo(chunks: seq<string>)
    requires chunks == ["1h", "2h"]
    ensures AllWords(chunks) && FillArgs(map[], chunks) == Success(map[Hours := 2])
    ensures Timedelta(map[Hours := 2]) == Success(7200)
  {
    assert ParseChunk("1h") == Success((Hours, 1)) by {
      assert "1h"[..1] == "1" && DigitsValue("1") == 1;
    }
    assert ParseChunk("2h") == Success((Hours, 2)) by {
      assert "2h"[..1] == "2" && DigitsValue("2") == 2;
    }
    var rest := chunks[1..];
    assert rest == ["2h"] && rest[1..] == [];
    assert FillArgs(map[], chunks) == FillArgs(map[Hours := 1], rest);
    assert FillArgs(map[Hours := 1], rest) == FillArgs(map[Hours := 1][Hours := 2], []);
    assert map[Hours := 1][Hours := 2] == map[Hours := 2];
  }

  /** One chunk, one unit. */
  lemma TwoHours()
    ensures DurationSeconds("2h") == Success(7200)
  {
    SplitsIntoOne("2h");
    assert ParseChunk("2h") == Success((Hours, 2)) by {
      assert "2h"[..1] == "2" && DigitsValue("2") == 2;
    }
    assert FillArgs(map[], ["2h"]) == FillArgs(map[Hours := 2], []);
    assert TotalSeconds(map[Hours := 2]) == 7200;
  }

  /** A bare multiplier leaves `int('')` to fail. */
  lemma MissingNumber()
    ensures DurationSeconds("h") == Failure(InvalidNumber("h"))
  {
    SplitsIntoOne("h");
    assert ParseChunk("h") == Failure(InvalidNumber("h")) by {
      assert "h"[..0] == "";
    }
  }

  lemma SplitsIntoOne(s: string)
    requires IsWord(s)
    ensures Split(s) == [s]
  {
    assert s == Join([s]);
    SplitJoin([s]);
  }

  /** The first bad chunk decides, and its multiplier is looked up before its number. */
  lemma FirstBadChunk()
    ensures DurationSeconds("2h ay 5q") == Failure(UnknownMultiplier("ay"))
  {
    SplitsIntoThree("2h ay 5q");
    StopsAtSecondChunk(["2h", "ay", "5q"]);
  }

  lemma SplitsIntoThree(s: string)
    requires s == "2h ay 5q"
    ensures Split(s) == ["2h", "ay", "5q"]
  {
    var chunks := ["2h", "ay", "5q"];
    assert s == Join(chunks);
    SplitJoin(chunks);
  }

  lemma StopsAtSecondChunk(chunks: seq<string>)
    requires chunks == ["2h", "ay", "5q"]
    ensures AllWords(chunks) && FillArgs(map[], chunks) == Failure(UnknownMultiplier("ay"))
  {
    DocstringChunks();
    assert ParseChunk(chunks[1]) == Failure(UnknownMultiplier("ay")) by {
      assert chunks[1][|chunks[1]| - 1] == 'y';
    }
    FillArgsFirstError(map[], chunks, 1);
  }
}
