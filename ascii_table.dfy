/**
 * The converter from a boxed ASCII table to Media/File/Size/Date records
 * (`utils/ascii2tsv.py`).
 *
 * Each record of the table spans two rows: a first row with the medium, the
 * file, the size and the date, and a continuation row whose first cell is
 * empty and which carries the size unit and the time of day. Border rows,
 * blank rows and the heading row are skipped. The script is one loop that
 * keeps the half-read record in `current` and appends finished records to
 * `records`; `ConvertTable` is that loop, `RunFrom` the same machine as a
 * function, and `Paired` an independent description of its output.
 */
module AsciiTable {
  import opened Wrappers
  import opened Text

  datatype Record = Record(media: string, file: string, size: string, date: string)

  /** The `IndexError` the script stops with when a row has fewer than four cells. */
  datatype ParseError = MissingCells(cells: seq<string>)

  /** The loop's variables: the half-read record and the finished ones. */
  datatype State = State(pending: Option<Record>, records: seq<Record>)

  const Start: State := State(None, [])

  /** What one input row is to the loop. */
  datatype Row = Skipped | Heading | Opening(cells: seq<string>) | Continuation(cells: seq<string>)

  /** A border line (`+...`), a rule under the heading (`|-...`) or a blank line. */
  predicate IsRule(line: string) {
    IsBlank(line) || StartsWith(line, "+") || StartsWith(line, "|-")
  }

  /** `[c.strip() for c in line.strip("|").split("|")]` */
  function Cells(line: string): (cells: seq<string>)
    ensures |cells| >= 1
    ensures forall k :: 0 <= k < |cells| ==> Stripped(cells[k], Whitespace) && '|' !in cells[k]
  {
    var parts := Split(Strip(line, {'|'}), '|');
    var cells := seq(|parts|, k requires 0 <= k < |parts| => Strip(parts[k], Whitespace));
    assert forall k :: 0 <= k < |cells| ==> '|' !in cells[k] by {
      forall k | 0 <= k < |cells| ensures '|' !in cells[k] {
        StripIsInfix(parts[k], Whitespace);
      }
    }
    cells
  }

  /** A stripped string is a slice of the original, so it holds no new characters. */
  lemma {:induction false} StripIsInfix(s: string, chars: set<char>)
    ensures forall c :: c in Strip(s, chars) ==> c in s
  {
    var l := LStrip(s, chars);
    var r := RStrip(l, chars);
    assert r == Strip(s, chars);
    forall c | c in r ensures c in s {
      var i :| 0 <= i < |r| && r[i] == c;
      assert r[i] == l[i] == s[|s| - |l| + i];
    }
  }

  function Classify(raw: string): (row: Row)
    ensures row.Opening? ==> |row.cells| >= 1 && row.cells[0] != ""
    ensures row.Continuation? ==> |row.cells| >= 1 && row.cells[0] == ""
  {
    var line := RStrip(raw, {'\n'});
    if IsRule(line) then Skipped
    else if StartsWith(line, "|Media") then Heading
    else
      var cells := Cells(line);
      if cells[0] == "" then Continuation(cells) else Opening(cells)
  }

  /** The record a first row starts: its four cells, leading `/`s dropped from the file. */
  function Opened(cells: seq<string>): (r: Record)
    requires |cells| >= 4
    ensures r.media == cells[0] && r.size == cells[2] && r.date == cells[3]
    ensures r.file == LStrip(cells[1], {'/'})
    ensures r.file == [] || r.file[0] != '/'
  {
    Record(cells[0], LStrip(cells[1], {'/'}), cells[2], cells[3])
  }

  /**
   * A record finished by a continuation row: the unit, when there is one,
   * joins the size with a blank, and the time always joins the date.
   */
  function Complete(r: Record, unit: string, time: string): (c: Record)
    ensures c.media == r.media && c.file == r.file
    ensures c.date == r.date + " " + time
    ensures unit == "" ==> c.size == r.size
    ensures unit != "" && Stripped(r.size, Whitespace) && Stripped(unit, Whitespace) ==>
      c.size == if r.size == "" then unit else r.size + " " + unit
  {
    JoinedSize(r.size, unit);
    var size := if unit != "" then Strip(r.size + " " + unit, Whitespace) else r.size;
    Record(r.media, r.file, size, r.date + " " + time)
  }

  lemma {:induction false} JoinedSize(size: string, unit: string)
    ensures unit != "" && Stripped(size, Whitespace) && Stripped(unit, Whitespace) ==>
      Strip(size + " " + unit, Whitespace) == if size == "" then unit else size + " " + unit
  {
    if unit != "" && Stripped(size, Whitespace) && Stripped(unit, Whitespace) {
      StripJoinedWithBlank(size, unit);
    }
  }

  /** One iteration of the loop, on a line already classified. */
  function Advance(s: State, row: Row): (r: Result<State, ParseError>)
    ensures r.Ok? ==> |s.records| <= |r.value.records| <= |s.records| + 1
    ensures r.Ok? ==> s.records <= r.value.records
  {
    match row
    case Skipped => Ok(s)
    case Heading => Ok(s)
    case Continuation(cells) =>
      if s.pending.None? then Ok(s)
      else if |cells| < 4 then Err(MissingCells(cells))
      else Ok(State(None, s.records + [Complete(s.pending.value, cells[2], cells[3])]))
    case Opening(cells) =>
      if |cells| < 4 then Err(MissingCells(cells))
      else Ok(State(Some(Opened(cells)), s.records))
  }

  /** One iteration of the loop. */
  function Step(s: State, raw: string): (r: Result<State, ParseError>)
    ensures Classify(raw).Skipped? || Classify(raw).Heading? ==> r == Ok(s)
    ensures r.Err? <==> (Classify(raw).Opening? || (Classify(raw).Continuation? && s.pending.Some?))
                        && |Classify(raw).cells| < 4
    ensures r.Ok? ==> s.records <= r.value.records
  {
    Advance(s, Classify(raw))
  }

  /** The loop over the remaining lines; the first error ends it. */
  function RunFrom(s: State, lines: seq<string>): (r: Result<State, ParseError>)
    ensures r.Ok? ==> s.records <= r.value.records && |r.value.records| <= |s.records| + |lines|
    decreases |lines|
  {
    if lines == [] then Ok(s)
    else
      match Step(s, lines[0])
      case Err(e) => Err(e)
      case Ok(t) => RunFrom(t, lines[1..])
  }

  /** The records the script writes for a whole file; a record still half-read at the end is lost. */
  function Convert(lines: seq<string>): (r: Result<seq<Record>, ParseError>)
    ensures r.Ok? ==> |r.value| <= |lines|
    ensures lines == [] ==> r == Ok([])
  {
    match RunFrom(Start, lines)
    case Err(e) => Err(e)
    case Ok(s) => Ok(s.records)
  }

  /** The line loop, with the script's own variables. */
  method ConvertTable(lines: seq<string>) returns (result: Result<seq<Record>, ParseError>)
    ensures result == Convert(lines)
  {
    var current: Option<Record> := None;
    var records: seq<Record> := [];
    var i := 0;
    while i < |lines|
      invariant 0 <= i <= |lines|
      invariant RunFrom(State(current, records), lines[i..]) == RunFrom(Start, lines)
    {
      RunFromFirst(State(current, records), lines, i);
      StepOnLine(State(current, records), lines[i]);
      var line := RStrip(lines[i], {'\n'});
      i := i + 1;
      if IsRule(line) {
        continue;
      }
      if StartsWith(line, "|Media") {
        continue;
      }
      var cells := Cells(line);
      if cells[0] == "" {
        if current.Some? {
          if |cells| < 4 {
            return Err(MissingCells(cells));
          }
          records := records + [Complete(current.value, cells[2], cells[3])];
          current := None;
        }
      } else {
        if |cells| < 4 {
          return Err(MissingCells(cells));
        }
        current := Some(Opened(cells));
      }
    }
    assert lines[i..] == [];
    return Ok(records);
  }

  // ------------------------------------------------------------ composition

  /** The loop's first step on the lines from `i` on. */
  lemma {:induction false} RunFromFirst(s: State, lines: seq<string>, i: nat)
    requires i < |lines|
    ensures RunFrom(s, lines[i..]) ==
      match Step(s, lines[i])
      case Err(e) => Err(e)
      case Ok(t) => RunFrom(t, lines[i + 1..])
  {
    assert lines[i..][0] == lines[i] && lines[i..][1..] == lines[i + 1..];
  }

  /** `Step` in the terms the loop tests one after the other. */
  lemma {:induction false} StepOnLine(s: State, raw: string)
    ensures var line := RStrip(raw, {'\n'});
      Step(s, raw) ==
        if IsRule(line) || StartsWith(line, "|Media") then Ok(s)
        else if Cells(line)[0] == "" then Advance(s, Continuation(Cells(line)))
        else Advance(s, Opening(Cells(line)))
  {
  }

  /** Running over `a + b` is running over `a`, then over `b` from where `a` left off. */
  lemma {:induction false} RunFromAppend(s: State, a: seq<string>, b: seq<string>)
    ensures RunFrom(s, a + b) ==
      match RunFrom(s, a)
      case Err(e) => Err(e)
      case Ok(t) => RunFrom(t, b)
    decreases |a|
  {
    if a == [] {
      assert a + b == b;
    } else {
      assert (a + b)[0] == a[0] && (a + b)[1..] == a[1..] + b;
      match Step(s, a[0])
      case Err(_) =>
      case Ok(t) => RunFromAppend(t, a[1..], b);
    }
  }

  /** Once a row has failed, nothing after it is read: an error is final. */
  lemma {:induction false} ErrorIsFinal(s: State, a: seq<string>, b: seq<string>)
    ensures RunFrom(s, a).Err? ==> RunFrom(s, a + b) == RunFrom(s, a)
  {
    RunFromAppend(s, a, b);
  }

  /** Inserting border, blank or heading lines anywhere changes nothing. */
  lemma {:induction false} SkippedLinesAreInvisible(a: seq<string>, line: string, b: seq<string>)
    requires Classify(line).Skipped? || Classify(line).Heading?
    ensures Convert(a + [line] + b) == Convert(a + b)
  {
    assert a + [line] + b == a + ([line] + b);
    RunFromAppend(Start, a, [line] + b);
    RunFromAppend(Start, a, b);
    if RunFrom(Start, a).Ok? {
      SkippedLineStep(RunFrom(Start, a).value, line, b);
    }
  }

  lemma {:induction false} SkippedLineStep(t: State, line: string, b: seq<string>)
    requires Classify(line).Skipped? || Classify(line).Heading?
    ensures RunFrom(t, [line] + b) == RunFrom(t, b)
  {
    var lines := [line] + b;
    assert lines[0] == line && lines[1..] == b;
    assert Step(t, line) == Ok(t);
  }

  // ------------------------------------------------------ reference output

  /** What a content row is to the output: a record start, a unit and a time, or a row
      with fewer than four cells (which the script either ignores or fails on). */
  datatype Part = Open(record: Record) | Close(unit: string, time: string) | Short(cells: seq<string>)

  /** A first or continuation row has at least four cells. */
  predicate RowComplete(row: Row) {
    match row
    case Opening(cells) => |cells| >= 4
    case Continuation(cells) => |cells| >= 4
    case _ => true
  }

  predicate WellFormedTable(lines: seq<string>) {
    forall i :: 0 <= i < |lines| ==> RowComplete(Classify(lines[i]))
  }

  /** What one row contributes to the content: nothing for a border or heading row. */
  function RowParts(row: Row): (ps: seq<Part>)
    ensures |ps| <= 1
    ensures (|ps| == 1 && ps[0].Short?) <==> !RowComplete(row)
  {
    match row
    case Opening(cells) => if |cells| < 4 then [Short(cells)] else [Open(Opened(cells))]
    case Continuation(cells) => if |cells| < 4 then [Short(cells)] else [Close(cells[2], cells[3])]
    case _ => []
  }

  /** The content rows of a table, border and heading rows left out. */
  function Parts(lines: seq<string>): (ps: seq<Part>)
    ensures |ps| <= |lines|
    decreases |lines|
  {
    if lines == [] then [] else RowParts(Classify(lines[0])) + Parts(lines[1..])
  }

  /** One record for each record start immediately followed by a continuation. */
  function Paired(ps: seq<Part>): seq<Record>
  {
    if |ps| < 2 then []
    else if ps[0].Open? && ps[1].Close? then
      [Complete(ps[0].record, ps[1].unit, ps[1].time)] + Paired(ps[2..])
    else Paired(ps[1..])
  }

  function PendingParts(p: Option<Record>): seq<Part> {
    if p.None? then [] else [Open(p.value)]
  }

  /** `records + Paired(pending + rest)`: what a state will have written once `rest` is read. */
  function Outcome(s: State, rest: seq<Part>): seq<Record> {
    s.records + Paired(PendingParts(s.pending) + rest)
  }

  /** A row that the loop gets past moves the state without changing its eventual
      outcome; a row with all its cells is always got past. */
  lemma {:induction false} AdvanceKeepsOutcome(s: State, row: Row, rest: seq<Part>)
    ensures RowComplete(row) ==> Advance(s, row).Ok?
    ensures Advance(s, row).Ok? ==>
              Outcome(Advance(s, row).value, rest) == Outcome(s, RowParts(row) + rest)
  {
    match row
    case Skipped =>
      assert RowParts(row) + rest == rest;
    case Heading =>
      assert RowParts(row) + rest == rest;
    case Opening(cells) =>
      OpeningKeepsOutcome(s, cells, rest);
    case Continuation(cells) =>
      ContinuationKeepsOutcome(s, cells, rest);
  }

  /** `AdvanceKeepsOutcome` for a record start. */
  lemma {:induction false} OpeningKeepsOutcome(s: State, cells: seq<string>, rest: seq<Part>)
    ensures |cells| >= 4 ==> Advance(s, Opening(cells)).Ok?
    ensures Advance(s, Opening(cells)).Ok? ==>
              Outcome(Advance(s, Opening(cells)).value, rest) == Outcome(s, RowParts(Opening(cells)) + rest)
  {
    if |cells| >= 4 {
      var o := Opened(cells);
      assert RowParts(Opening(cells)) == [Open(o)];
      assert Advance(s, Opening(cells)) == Ok(State(Some(o), s.records));
      OpenDropsPending(s.pending, o, rest);
    }
  }

  /** `AdvanceKeepsOutcome` for a continuation row. */
  lemma {:induction false} ContinuationKeepsOutcome(s: State, cells: seq<string>, rest: seq<Part>)
    ensures |cells| >= 4 ==> Advance(s, Continuation(cells)).Ok?
    ensures Advance(s, Continuation(cells)).Ok? ==>
              Outcome(Advance(s, Continuation(cells)).value, rest)
              == Outcome(s, RowParts(Continuation(cells)) + rest)
  {
    var row := Continuation(cells);
    if |cells| < 4 {
      if s.pending.None? {
        assert Advance(s, row) == Ok(s);
        assert RowParts(row) == [Short(cells)];
        OrphanCloseIsIgnored(Short(cells), rest);
      }
    } else if s.pending.Some? {
      var c := Close(cells[2], cells[3]);
      assert RowParts(row) == [c];
      var done := Complete(s.pending.value, c.unit, c.time);
      assert Advance(s, row) == Ok(State(None, s.records + [done]));
      CloseCompletesPending(s.records, s.pending.value, c, rest);
    } else {
      var c := Close(cells[2], cells[3]);
      assert RowParts(row) == [c];
      assert Advance(s, row) == Ok(s);
      OrphanCloseIsIgnored(c, rest);
    }
  }

  /** A new record start replaces the pending one without ever writing it. */
  lemma {:induction false} OpenDropsPending(p: Option<Record>, o: Record, rest: seq<Part>)
    ensures Paired(PendingParts(Some(o)) + rest) == Paired(PendingParts(p) + ([Open(o)] + rest))
  {
    if p.Some? {
      var ps := PendingParts(p) + ([Open(o)] + rest);
      assert ps[0] == Open(p.value) && ps[1] == Open(o);
      assert ps[1..] == [Open(o)] + rest;
    } else {
      assert PendingParts(p) + ([Open(o)] + rest) == [Open(o)] + rest;
    }
  }

  /** A continuation after a record start writes the completed record. */
  lemma {:induction false} CloseCompletesPending(records: seq<Record>, r: Record, c: Part, rest: seq<Part>)
    requires c.Close?
    ensures records + [Complete(r, c.unit, c.time)] + Paired(PendingParts(None) + rest)
         == records + Paired(PendingParts(Some(r)) + ([c] + rest))
  {
    var ps := PendingParts(Some(r)) + ([c] + rest);
    assert PendingParts(None) + rest == rest;
    assert ps == [Open(r), c] + rest;
    assert ps[2..] == rest;
    assert Paired(ps) == [Complete(r, c.unit, c.time)] + Paired(ps[2..]);
  }

  /** A continuation, of any width, with no record start before it writes nothing. */
  lemma {:induction false} OrphanCloseIsIgnored(c: Part, rest: seq<Part>)
    requires !c.Open?
    ensures Paired(PendingParts(None) + ([c] + rest)) == Paired(PendingParts(None) + rest)
  {
    var ps := [c] + rest;
    assert PendingParts(None) + ps == ps;
    assert PendingParts(None) + rest == rest;
    if |ps| >= 2 {
      assert ps[1..] == rest;
    } else {
      assert rest == [];
    }
  }

  /** A loop that reaches the end of the lines has written what the outcome of its
      start state predicts; on a well-formed table it always reaches the end. */
  lemma {:induction false} RunFromOutcome(s: State, lines: seq<string>)
    ensures WellFormedTable(lines) ==> RunFrom(s, lines).Ok?
    ensures RunFrom(s, lines).Ok? ==> RunFrom(s, lines).value.records == Outcome(s, Parts(lines))
    decreases |lines|
  {
    if lines == [] {
      assert PendingParts(s.pending) + [] == PendingParts(s.pending);
      PendingAloneWritesNothing(s.pending);
    } else {
      var rest := lines[1..];
      assert WellFormedTable(lines) ==> WellFormedTable(rest) by {
        forall i | 0 <= i < |rest| ensures rest[i] == lines[i + 1] { }
      }
      AdvanceKeepsOutcome(s, Classify(lines[0]), Parts(rest));
      match Step(s, lines[0])
      case Err(_) =>
      case Ok(t) => RunFromOutcome(t, rest);
    }
  }

  lemma {:induction false} PendingAloneWritesNothing(p: Option<Record>)
    ensures Paired(PendingParts(p)) == []
  {
  }

  /**
   * Whenever the script gets through a table, its records are, in order, the
   * record starts that a continuation row completes; a start followed by
   * another start, or by the end of the file, is dropped, and so is any
   * continuation with nothing pending. A well-formed table always converts.
   */
  lemma {:induction false} ConvertIsPaired(lines: seq<string>)
    ensures WellFormedTable(lines) ==> Convert(lines).Ok?
    ensures Convert(lines).Ok? ==> Convert(lines) == Ok(Paired(Parts(lines)))
  {
    RunFromOutcome(Start, lines);
    assert PendingParts(None) + Parts(lines) == Parts(lines);
    assert [] + Paired(Parts(lines)) == Paired(Parts(lines));
  }

  /** The converter fails only on a first or continuation row with fewer than four cells. */
  lemma {:induction false} ConvertFailsOnlyOnShortRows(lines: seq<string>)
    ensures Convert(lines).Err? ==> exists i :: 0 <= i < |lines| && !RowComplete(Classify(lines[i]))
  {
    ConvertIsPaired(lines);
  }

  /** Each record uses up two content rows. */
  lemma {:induction false} PairedUsesTwoParts(ps: seq<Part>)
    ensures 2 * |Paired(ps)| <= |ps|
    decreases |ps|
  {
    if |ps| >= 2 {
      if ps[0].Open? && ps[1].Close? {
        PairedUsesTwoParts(ps[2..]);
      } else {
        PairedUsesTwoParts(ps[1..]);
      }
    }
  }

  /** There are never more records than half the lines of the file. */
  lemma {:induction false} AtMostOneRecordPerTwoLines(lines: seq<string>)
    ensures Convert(lines).Ok? ==> 2 * |Convert(lines).value| <= |lines|
  {
    ConvertIsPaired(lines);
    PairedUsesTwoParts(Parts(lines));
  }

  /** A lone continuation row with no cells filled in is accepted and writes
      nothing, although it does not have four cells. */
  lemma {:induction false} ShortOrphanRowIsAccepted()
    ensures !WellFormedTable(["|"])
    ensures Convert(["|"]) == Ok([])
  {
    BarIsEmptyContinuation();
    ShortOrphanRowWritesNothing("|");
  }

  /** The same for any continuation row with fewer than four cells. */
  lemma {:induction false} ShortOrphanRowWritesNothing(line: string)
    requires Classify(line).Continuation? && |Classify(line).cells| < 4
    ensures !WellFormedTable([line])
    ensures Convert([line]) == Ok([])
  {
    var lines := [line];
    var row := Classify(line);
    assert lines[0] == line && lines[1..] == [];
    assert !RowComplete(Classify(lines[0]));
    assert Advance(Start, row) == Ok(Start);
    assert RunFrom(Start, lines) == RunFrom(Start, lines[1..]);
  }

  lemma {:induction false} BarIsEmptyContinuation()
    ensures Classify("|") == Continuation([""])
  {
    var line := "|";
    assert RStrip(line, {'\n'}) == line;
    assert !IsRule(line) by {
      assert line[0] !in Whitespace;
    }
    assert !StartsWith(line, "|Media");
    BarHasOneEmptyCell();
  }

  lemma {:induction false} BarHasOneEmptyCell()
    ensures Cells("|") == [""]
  {
    assert Strip("|", {'|'}) == "";
    assert Split("", '|') == [""];
    assert Strip("", Whitespace) == "";
  }
}
