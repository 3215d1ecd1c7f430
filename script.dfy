/**
 * The loop of script.py: every line of the log is matched against the line
 * grammar, turned into an `Access`, looked up by address, and (unless the
 * address is a bogon) appended to a data frame as an `Event`; the frame is
 * written out as CSV once every line is done. Any exception ends the run
 * before the CSV is written.
 */
module Script {
  import opened Wrappers
  import opened Values
  import Patterns
  import Address
  import Model

  /** An exception that propagates out of the loop. */
  datatype Failure =
    | NoMatch                    // `search(...)` is None, so `.groups()` raises AttributeError
    | MissingKey(key: string)    // `details[key]` raises KeyError
    | Raised(error: Model.Error) // a record's constructor raises

  /** `handler.getDetails(ip).all`: the lookup's details of an address. */
  type Lookup = Address.IPv4 -> map<string, Value>

  /** `[field.name for field in fields(Event)]`. */
  const EventColumns: seq<string> := ["access", "city"]

  /** `details[key]`. */
  function Detail(details: map<string, Value>, key: string): (r: Result<Value, Failure>)
    ensures r.Ok? <==> key in details
    ensures r.Ok? ==> r.value == details[key]
    ensures r.Err? ==> r.error == MissingKey(key)
  {
    if key in details then Ok(details[key]) else Err(MissingKey(key))
  }

  function Lift<T>(r: Result<T, Model.Error>): (s: Result<T, Failure>)
    ensures s.Ok? <==> r.Ok?
    ensures s.Ok? ==> s.value == r.value
    ensures s.Err? ==> s.error == Raised(r.error)
  {
    match r
    case Ok(v) => Ok(v)
    case Err(e) => Err(Raised(e))
  }

  /** script.py:32-35: the position, continent, country and city of a lookup, in that order. */
  function CityOf(details: map<string, Value>, toFloat: string -> Option<Float>): (r: Result<Model.City, Failure>)
    ensures r.Ok? ==>
      && "city" in details && r.value.name == details["city"]
      && "region" in details && r.value.region == details["region"]
      && "country_name" in details && r.value.country.name == details["country_name"]
      && "country" in details && r.value.country.code == details["country"]
      && "continent" in details && Model.NewContinent(details["continent"]) == Ok(r.value.country.continent)
      && "loc" in details && Model.NewPosition(details["loc"], toFloat) == Ok(r.value.position)
  {
    var loc :- Detail(details, "loc");
    var position :- Lift(Model.NewPosition(loc, toFloat));
    var continentValue :- Detail(details, "continent");
    var continent :- Lift(Model.NewContinent(continentValue));
    var countryName :- Detail(details, "country_name");
    var countryCode :- Detail(details, "country");
    var cityName :- Detail(details, "city");
    var region :- Detail(details, "region");
    Ok(Model.City(cityName, region, Model.Country(countryName, countryCode, continent), position))
  }

  /** What one line contributes: an event dictionary, nothing (a bogon), or an exception. */
  datatype Outcome = Emit(event: Model.Event) | Skip | Fail(failure: Failure)

  /** The outcome of one line and the address looked up for it, if the lookup was reached. */
  datatype Step = Step(outcome: Outcome, looked: Option<Address.IPv4>)

  /** One pass of the loop body (script.py:27-37). */
  function StepOf(line: string, lookup: Lookup, libs: Model.Libraries): (r: Step)
    ensures r.outcome.Emit? ==> r.looked == Some(r.outcome.event.access.ip) && "bogon" !in lookup(r.outcome.event.access.ip)
    ensures r.outcome.Skip? ==> r.looked.Some? && "bogon" in lookup(r.looked.value)
    ensures r.looked.None? ==> r.outcome.Fail?
  {
    match Patterns.Search(line)
    case None => Step(Fail(NoMatch), None)
    case Some(m) =>
      match Model.NewAccess(Patterns.Tuple(m.groups), libs)
      case Err(e) => Step(Fail(Raised(e)), None)
      case Ok(access) =>
        var details := lookup(access.ip);
        if "bogon" in details then Step(Skip, Some(access.ip))
        else
          match CityOf(details, libs.toFloat)
          case Err(f) => Step(Fail(f), Some(access.ip))
          case Ok(city) => Step(Emit(Model.Event(access, city)), Some(access.ip))
  }

  /**
   * `df.loc[len(df)] = d`: the new row holds `d`'s value under each column,
   * and NaN under a column `d` lacks.
   */
  function Align(columns: seq<string>, entries: seq<(string, Value)>): (row: seq<Value>)
    ensures |row| == |columns|
    ensures forall i :: 0 <= i < |columns| ==>
      row[i] == match Get(entries, columns[i]) case Some(v) => v case None => Num(NaN)
  {
    if columns == [] then []
    else
      [match Get(entries, columns[0]) case Some(v) => v case None => Num(NaN)] + Align(columns[1..], entries)
  }

  /** The rows appended so far, the addresses looked up so far, and the exception that ended the run, if any. */
  datatype Run = Run(rows: seq<seq<Value>>, lookups: seq<Address.IPv4>, failure: Option<Failure>)

  /**
   * A run that has not failed, followed by one more step; `toRow` is the row
   * an event becomes.
   */
  function Then(run: Run, step: Step, toRow: Model.Event -> seq<Value>): Run {
    var lookups := run.lookups + step.looked.ToSeq();
    match step.outcome
    case Emit(event) => Run(run.rows + [toRow(event)], lookups, None)
    case Skip => Run(run.rows, lookups, None)
    case Fail(f) => Run(run.rows, lookups, Some(f))
  }

  /** The state of a loop whose body is `step`, after the given lines; an exception stops it. */
  function Loop(lines: seq<string>, step: string -> Step, toRow: Model.Event -> seq<Value>): Run {
    if lines == [] then Run([], [], None)
    else
      var prev := Loop(lines[..|lines| - 1], step, toRow);
      if prev.failure.Some? then prev else Then(prev, step(lines[|lines| - 1]), toRow)
  }

  /** The body of script.py's loop, for a given lookup and libraries. */
  function Body(lookup: Lookup, libs: Model.Libraries): (step: string -> Step)
    ensures forall line :: step(line) == StepOf(line, lookup, libs)
  {
    line => StepOf(line, lookup, libs)
  }

  /** The row `df.loc[len(df)] = event.__dict__()` adds for an event. */
  function RowOf(event: Model.Event): seq<Value> {
    Align(EventColumns, Model.EventDict(event).entries)
  }

  /** The state of script.py's loop after the given lines. */
  function Digest(lines: seq<string>, lookup: Lookup, libs: Model.Libraries): (r: Run)
    ensures |r.rows| <= |lines| && |r.lookups| <= |lines|
  {
    LoopBounded(lines, Body(lookup, libs), RowOf);
    Loop(lines, Body(lookup, libs), RowOf)
  }

  /** Each line adds at most one row and at most one lookup. */
  lemma {:induction false} LoopBounded(lines: seq<string>, step: string -> Step, toRow: Model.Event -> seq<Value>)
    ensures |Loop(lines, step, toRow).rows| <= |lines| && |Loop(lines, step, toRow).lookups| <= |lines|
  {
    if lines != [] {
      LoopBounded(lines[..|lines| - 1], step, toRow);
    }
  }

  /** `df.to_csv(...)` runs only when the loop finishes: the rows written, if any are. */
  function Written(run: Run): Option<seq<seq<Value>>> {
    if run.failure.None? then Some(run.rows) else None
  }

  // ---------------------------------------------------------------- the data frame

  /** The `DataFrame` the loop appends to. */
  class Frame {
    const columns: seq<string>
    var rows: seq<seq<Value>>

    constructor (columns: seq<string>)
      ensures this.columns == columns && rows == []
    {
      this.columns := columns;
      rows := [];
    }

    /** `df.loc[len(df)] = d`. */
    method AppendDict(entries: seq<(string, Value)>)
      modifies this
      ensures rows == old(rows) + [Align(columns, entries)]
    {
      rows := rows + [Align(columns, entries)];
    }
  }

  /**
   * script.py:24-38: the loop over the lines, then the CSV. Returns the frame,
   * the addresses looked up, the exception that ended the run (if any) and the
   * rows written to the CSV (none when an exception ended the run).
   */
  method Process(lines: seq<string>, lookup: Lookup, libs: Model.Libraries)
    returns (df: Frame, lookups: seq<Address.IPv4>, failure: Option<Failure>, csv: Option<seq<seq<Value>>>)
    ensures fresh(df) && df.columns == EventColumns
    ensures Run(df.rows, lookups, failure) == Digest(lines, lookup, libs)
    ensures csv == Written(Digest(lines, lookup, libs))
  {
    df := new Frame(EventColumns);
    lookups := [];
    failure := None;
    var i := 0;
    while i < |lines| && failure.None?
      invariant 0 <= i <= |lines| && df.columns == EventColumns
      invariant Run(df.rows, lookups, failure) == Digest(lines[..i], lookup, libs)
    {
      var step := StepOf(lines[i], lookup, libs);
      lookups, failure := Advance(df, lookups, step);
      LoopStep(lines, i, Body(lookup, libs), RowOf);
      i := i + 1;
    }
    LoopDone(lines, i, Body(lookup, libs), RowOf);
    csv := if failure.None? then Some(df.rows) else None;
  }

  /**
   * The state changes of one pass of the loop body: the address looked up is
   * recorded, an event's dictionary is appended to the frame, an exception is
   * kept.
   */
  method Advance(df: Frame, lookups: seq<Address.IPv4>, step: Step)
    returns (lookups': seq<Address.IPv4>, failure: Option<Failure>)
    requires df.columns == EventColumns
    modifies df
    ensures Run(df.rows, lookups', failure) == Then(Run(old(df.rows), lookups, None), step, RowOf)
  {
    lookups' := lookups + step.looked.ToSeq();
    if step.outcome.Emit? {
      df.AppendDict(Model.EventDict(step.outcome.event).entries);
    }
    failure := if step.outcome.Fail? then Some(step.outcome.failure) else None;
  }

  // ---------------------------------------------------------------- lemmas

  lemma LoopSnoc(lines: seq<string>, x: string, step: string -> Step, toRow: Model.Event -> seq<Value>)
    ensures Loop(lines + [x], step, toRow) ==
      var d := Loop(lines, step, toRow);
      if d.failure.Some? then d else Then(d, step(x), toRow)
  {
    assert (lines + [x])[..|lines + [x]| - 1] == lines;
  }

  lemma LoopStep(lines: seq<string>, i: nat, step: string -> Step, toRow: Model.Event -> seq<Value>)
    requires i < |lines| && Loop(lines[..i], step, toRow).failure.None?
    ensures Loop(lines[..i + 1], step, toRow) == Then(Loop(lines[..i], step, toRow), step(lines[i]), toRow)
  {
    assert lines[..i + 1] == lines[..i] + [lines[i]];
    LoopSnoc(lines[..i], lines[i], step, toRow);
  }

  /** Once a line raises, the lines after it change nothing. */
  lemma {:induction false} StopsAtFailure(lines: seq<string>, more: seq<string>, step: string -> Step, toRow: Model.Event -> seq<Value>)
    requires Loop(lines, step, toRow).failure.Some?
    ensures Loop(lines + more, step, toRow) == Loop(lines, step, toRow)
  {
    if more != [] {
      var init := more[..|more| - 1];
      StopsAtFailure(lines, init, step, toRow);
      assert lines + more == (lines + init) + [more[|more| - 1]];
      LoopSnoc(lines + init, more[|more| - 1], step, toRow);
    } else {
      assert lines + more == lines;
    }
  }

  /** The loop may stop early, at the first line that raises. */
  lemma LoopDone(lines: seq<string>, i: nat, step: string -> Step, toRow: Model.Event -> seq<Value>)
    requires i <= |lines| && (i == |lines| || Loop(lines[..i], step, toRow).failure.Some?)
    ensures Loop(lines[..i], step, toRow) == Loop(lines, step, toRow)
  {
    if i < |lines| {
      StopsAtFailure(lines[..i], lines[i..], step, toRow);
      assert lines[..i] + lines[i..] == lines;
    } else {
      assert lines[..i] == lines;
    }
  }

  /** The run of the lines read from the front: the first line's step, then the rest unless it raised. */
  function Front(lines: seq<string>, step: string -> Step, toRow: Model.Event -> seq<Value>): Run {
    if lines == [] then Run([], [], None)
    else
      var head := Then(Run([], [], None), step(lines[0]), toRow);
      if head.failure.Some? then head
      else
        var rest := Front(lines[1..], step, toRow);
        Run(head.rows + rest.rows, head.lookups + rest.lookups, rest.failure)
  }

  /** Appending a step to a joined run appends it to the second part. */
  lemma ThenJoined(head: Run, rest: Run, step: Step, toRow: Model.Event -> seq<Value>)
    ensures Then(Run(head.rows + rest.rows, head.lookups + rest.lookups, rest.failure), step, toRow)
      == Run(head.rows + Then(rest, step, toRow).rows, head.lookups + Then(rest, step, toRow).lookups, Then(rest, step, toRow).failure)
  {
    var looked := step.looked.ToSeq();
    assert head.lookups + rest.lookups + looked == head.lookups + (rest.lookups + looked);
    if step.outcome.Emit? {
      var row := [toRow(step.outcome.event)];
      assert head.rows + rest.rows + row == head.rows + (rest.rows + row);
    }
  }

  lemma {:induction false} FrontSnoc(lines: seq<string>, x: string, step: string -> Step, toRow: Model.Event -> seq<Value>)
    ensures Front(lines + [x], step, toRow) ==
      var f := Front(lines, step, toRow);
      if f.failure.Some? then f else Then(f, step(x), toRow)
  {
    if lines == [] {
      assert [] + [x] == [x];
      assert [x][1..] == [];
    } else {
      var rest := lines[1..];
      assert (lines + [x])[0] == lines[0];
      assert (lines + [x])[1..] == rest + [x];
      FrontSnoc(rest, x, step, toRow);
      ThenJoined(Then(Run([], [], None), step(lines[0]), toRow), Front(rest, step, toRow), step(x), toRow);
    }
  }

  /** The loop's state, built line by line, is the run read from the front. */
  lemma {:induction false} LoopIsFront(lines: seq<string>, step: string -> Step, toRow: Model.Event -> seq<Value>)
    ensures Loop(lines, step, toRow) == Front(lines, step, toRow)
  {
    if lines != [] {
      var init, x := lines[..|lines| - 1], lines[|lines| - 1];
      assert init + [x] == lines;
      LoopIsFront(init, step, toRow);
      FrontSnoc(init, x, step, toRow);
      LoopSnoc(init, x, step, toRow);
    }
  }

  /** Rows and lookups are only ever appended: the state after a prefix of the lines is a prefix of the final state. */
  lemma {:induction false} LoopGrows(lines: seq<string>, i: nat, step: string -> Step, toRow: Model.Event -> seq<Value>)
    requires i <= |lines|
    ensures Loop(lines[..i], step, toRow).rows <= Loop(lines, step, toRow).rows
    ensures Loop(lines[..i], step, toRow).lookups <= Loop(lines, step, toRow).lookups
    ensures Loop(lines[..i], step, toRow).failure.Some? ==> Loop(lines, step, toRow) == Loop(lines[..i], step, toRow)
  {
    if i < |lines| {
      var init := lines[..|lines| - 1];
      assert lines[..i] == init[..i];
      assert init + [lines[|lines| - 1]] == lines;
      LoopGrows(init, i, step, toRow);
      LoopSnoc(init, lines[|lines| - 1], step, toRow);
    } else {
      assert lines[..i] == lines;
    }
  }

  /** A line the grammar does not match raises, and no CSV is written, whatever follows it. */
  lemma NoMatchAborts(lines: seq<string>, line: string, more: seq<string>, lookup: Lookup, libs: Model.Libraries)
    requires Digest(lines, lookup, libs).failure.None? && Patterns.Search(line).None?
    ensures Digest(lines + [line] + more, lookup, libs).failure == Some(NoMatch)
    ensures Digest(lines + [line] + more, lookup, libs).rows == Digest(lines, lookup, libs).rows
    ensures Written(Digest(lines + [line] + more, lookup, libs)) == None
  {
    LoopSnoc(lines, line, Body(lookup, libs), RowOf);
    StopsAtFailure(lines + [line], more, Body(lookup, libs), RowOf);
  }

  /** In particular, a line without the closing `"-"` of the format aborts the run. */
  lemma MissingTrailerAborts(lines: seq<string>, line: string, lookup: Lookup, libs: Model.Libraries)
    requires Digest(lines, lookup, libs).failure.None?
    requires forall k :: 0 <= k <= |line| ==> !Patterns.OccursIn(Patterns.Trailer, line, k)
    ensures Written(Digest(lines + [line], lookup, libs)) == None
  {
    Patterns.NoTrailerNoMatch(line);
    NoMatchAborts(lines, line, [], lookup, libs);
    assert lines + [line] + [] == lines + [line];
  }

  /** The lookup is made exactly for lines that match and build an access, and for that access's address. */
  lemma LookupAfterAccess(line: string, lookup: Lookup, libs: Model.Libraries)
    ensures var step := StepOf(line, lookup, libs);
      && (step.looked.Some? <==>
            Patterns.Search(line).Some? && Model.NewAccess(Patterns.Tuple(Patterns.Search(line).value.groups), libs).Ok?)
      && (step.looked.Some? ==>
            step.looked.value == Model.NewAccess(Patterns.Tuple(Patterns.Search(line).value.groups), libs).value.ip)
  {
    match Patterns.Search(line) {
      case None =>
      case Some(m) =>
        match Model.NewAccess(Patterns.Tuple(m.groups), libs) {
          case Err(_) =>
          case Ok(access) =>
            assert StepOf(line, lookup, libs).looked == Some(access.ip);
        }
    }
  }

  /** A bogon address adds no row and raises nothing; only its lookup is recorded. */
  lemma BogonSkipped(lines: seq<string>, line: string, lookup: Lookup, libs: Model.Libraries)
    requires Digest(lines, lookup, libs).failure.None?
    requires Patterns.Search(line).Some?
    requires Model.NewAccess(Patterns.Tuple(Patterns.Search(line).value.groups), libs).Ok?
    requires "bogon" in lookup(Model.NewAccess(Patterns.Tuple(Patterns.Search(line).value.groups), libs).value.ip)
    ensures var before := Digest(lines, lookup, libs);
      var ip := Model.NewAccess(Patterns.Tuple(Patterns.Search(line).value.groups), libs).value.ip;
      Digest(lines + [line], lookup, libs) == Run(before.rows, before.lookups + [ip], None)
  {
    BogonStep(line, lookup, libs);
    SkipStep(lines, line, Body(lookup, libs), RowOf, StepOf(line, lookup, libs).looked.value);
  }

  lemma SkipStep(lines: seq<string>, x: string, step: string -> Step, toRow: Model.Event -> seq<Value>, ip: Address.IPv4)
    requires Loop(lines, step, toRow).failure.None? && step(x) == Step(Skip, Some(ip))
    ensures var before := Loop(lines, step, toRow);
      Loop(lines + [x], step, toRow) == Run(before.rows, before.lookups + [ip], None)
  {
    LoopSnoc(lines, x, step, toRow);
  }

  lemma BogonStep(line: string, lookup: Lookup, libs: Model.Libraries)
    requires Patterns.Search(line).Some?
    requires Model.NewAccess(Patterns.Tuple(Patterns.Search(line).value.groups), libs).Ok?
    requires "bogon" in lookup(Model.NewAccess(Patterns.Tuple(Patterns.Search(line).value.groups), libs).value.ip)
    ensures StepOf(line, lookup, libs)
      == Step(Skip, Some(Model.NewAccess(Patterns.Tuple(Patterns.Search(line).value.groups), libs).value.ip))
  {
    match Patterns.Search(line) {
      case Some(m) =>
        match Model.NewAccess(Patterns.Tuple(m.groups), libs) {
          case Ok(access) =>
        }
    }
  }

  /** The city is built exactly when the six keys are present and the location and continent are accepted. */
  lemma CityOfSucceeds(details: map<string, Value>, toFloat: string -> Option<Float>)
    ensures CityOf(details, toFloat).Ok? <==>
      && "loc" in details && "continent" in details && "country_name" in details
      && "country" in details && "city" in details && "region" in details
      && Model.NewPosition(details["loc"], toFloat).Ok? && Model.NewContinent(details["continent"]).Ok?
    ensures "loc" !in details ==> CityOf(details, toFloat) == Err(MissingKey("loc"))
  {
  }

  /** An event's row holds the access and the city under the frame's two columns. */
  lemma EventRow(e: Model.Event)
    ensures RowOf(e) == [Model.AccessDict(e.access), Model.CityDict(e.city)]
  {
    var d := Model.EventDict(e).entries;
    GetAt(d, 0, "access");
    GetAt(d, 1, "city");
  }

  /** An emitted event holds the line's access and a city built from the lookup of its address. */
  lemma EmittedEvent(line: string, lookup: Lookup, libs: Model.Libraries)
    requires StepOf(line, lookup, libs).outcome.Emit?
    ensures var e := StepOf(line, lookup, libs).outcome.event;
      && Patterns.Search(line).Some?
      && Model.NewAccess(Patterns.Tuple(Patterns.Search(line).value.groups), libs) == Ok(e.access)
      && "bogon" !in lookup(e.access.ip)
      && CityOf(lookup(e.access.ip), libs.toFloat) == Ok(e.city)
  {
    match Patterns.Search(line) {
      case Some(m) =>
        match Model.NewAccess(Patterns.Tuple(m.groups), libs) {
          case Ok(access) =>
            match CityOf(lookup(access.ip), libs.toFloat) {
              case Ok(city) =>
                assert StepOf(line, lookup, libs).outcome.event == Model.Event(access, city);
              case Err(_) =>
            }
          case Err(_) =>
        }
      case None =>
    }
  }
}
