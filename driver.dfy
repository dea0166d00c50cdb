/** The conversion loop of `src/__main__.py`: the header line first, then for
    every line of the station's data files (in sorted file order) either
    nothing, when the line mentions `NIL`, or the CSV row of the report it
    holds. Decoding a line (`create_metar`, a date parser and an external METAR
    decoder) is a parameter here: it yields `None` where the decoder raises,
    and an exception ends the run with the rows written so far. */
module Driver {
  import opened Options
  import opened CsvText
  import opened LineSplitter
  import opened RowFormatter

  /** The three characters of `l` from offset `i` spell `NIL`. */
  predicate NilAt(l: string, i: int)
  {
    0 <= i && i + 3 <= |l| && l[i..i + 3] == "NIL"
  }

  /** `"NIL" in line`: Python's substring test for the marker of a missing report. */
  function HasNil(l: string): (r: bool)
    ensures r <==> exists i :: NilAt(l, i)
  {
    if |l| < 3 then false
    else if l[..3] == "NIL" then
      assert NilAt(l, 0);
      true
    else
      var r := HasNil(l[1..]);
      assert forall i :: NilAt(l[1..], i) <==> NilAt(l, i + 1) by {
        forall i ensures NilAt(l[1..], i) <==> NilAt(l, i + 1) {
          if 0 <= i && i + 3 <= |l| - 1 {
            assert l[1..][i..i + 3] == l[i + 1..i + 4];
          }
        }
      }
      assert !NilAt(l, 0);
      assert forall i :: NilAt(l, i) ==> NilAt(l[1..], i - 1);
      r
  }

  /** The first line of the CSV file: the header names joined by commas. */
  function HeaderLine(): string
  {
    Join(Header) + "\n"
  }

  /** The header line splits back into the thirty names: twenty-nine separators. */
  lemma HeaderLineFields()
    ensures Split(Join(Header)) == Header
    ensures Commas(Join(Header)) == 29
  {
    HeaderPlain();
    JoinPlainFields(Header);
  }

  /** No header name holds a comma. */
  lemma HeaderPlain()
    ensures forall i :: 0 <= i < |Header| ==> NoComma(Header[i])
  {
    HeaderPlain0(); HeaderPlain1(); HeaderPlain2(); HeaderPlain3(); HeaderPlain4();
    HeaderPlain5(); HeaderPlain6(); HeaderPlain7(); HeaderPlain8(); HeaderPlain9();
  }

  lemma HeaderPlain0()
    ensures NoComma(Header[0]) && NoComma(Header[1]) && NoComma(Header[2])
  {
  }

  lemma HeaderPlain1()
    ensures NoComma(Header[3]) && NoComma(Header[4]) && NoComma(Header[5])
  {
  }

  lemma HeaderPlain2()
    ensures NoComma(Header[6]) && NoComma(Header[7]) && NoComma(Header[8])
  {
  }

  lemma HeaderPlain3()
    ensures NoComma(Header[9]) && NoComma(Header[10]) && NoComma(Header[11])
  {
  }

  lemma HeaderPlain4()
    ensures NoComma(Header[12]) && NoComma(Header[13]) && NoComma(Header[14])
  {
  }

  lemma HeaderPlain5()
    ensures NoComma(Header[15]) && NoComma(Header[16]) && NoComma(Header[17])
  {
  }

  lemma HeaderPlain6()
    ensures NoComma(Header[18]) && NoComma(Header[19]) && NoComma(Header[20])
  {
  }

  lemma HeaderPlain7()
    ensures NoComma(Header[21]) && NoComma(Header[22]) && NoComma(Header[23])
  {
  }

  lemma HeaderPlain8()
    ensures NoComma(Header[24]) && NoComma(Header[25]) && NoComma(Header[26])
  {
  }

  lemma HeaderPlain9()
    ensures NoComma(Header[27]) && NoComma(Header[28]) && NoComma(Header[29])
  {
  }

  /** The reports whose rows have been written, and whether every line was handled. */
  datatype Run = Run(reports: seq<Report>, completed: bool)

  /** The loop body for one line: a stopped run stays stopped, a `NIL` line is
      skipped, any other line is split and decoded and its report written, and a
      line the decoder rejects stops the run. */
  function Step(run: Run, l: string, decode: ((string, string)) -> Option<Report>): Run
  {
    if !run.completed || HasNil(l) then run
    else
      match decode(ParseLine(l))
      case None => Run(run.reports, false)
      case Some(m) => Run(run.reports + [m], true)
  }

  /** What the loop has done after the given lines. */
  function Process(lines: seq<string>, decode: ((string, string)) -> Option<Report>): Run
  {
    if lines == [] then Run([], true)
    else Step(Process(lines[..|lines| - 1], decode), lines[|lines| - 1], decode)
  }

  /** The rows of the given reports, each ended by a newline, in order. */
  function RowsText(ms: seq<Report>): string
  {
    if ms == [] then "" else RowsText(ms[..|ms| - 1]) + (RowBody(ms[|ms| - 1]) + "\n")
  }

  /** The lines that are not skipped, in their original order. */
  function Kept(lines: seq<string>): (r: seq<string>)
    ensures |r| <= |lines|
    ensures forall l :: l in r ==> l in lines && !HasNil(l)
  {
    if lines == [] then []
    else
      var l := lines[|lines| - 1];
      Kept(lines[..|lines| - 1]) + (if HasNil(l) then [] else [l])
  }

  /** `create_csv_file` for the lines of the station's files: writes the header
      line, then one row per accepted line, and stops at the first line the
      decoder rejects. */
  method WriteCsv(lines: seq<string>, decode: ((string, string)) -> Option<Report>)
    returns (out: string, completed: bool)
    ensures completed == Process(lines, decode).completed
    ensures out == HeaderLine() + RowsText(Process(lines, decode).reports)
  {
    out := HeaderLine();
    assert RowsText([]) == "";
    ghost var written: seq<Report> := [];
    completed := true;
    var i := 0;
    while i < |lines|
      invariant 0 <= i <= |lines|
      invariant Process(lines[..i], decode) == Run(written, true)
      invariant out == HeaderLine() + RowsText(written)
    {
      var line := lines[i];
      ProcessStep(lines, decode, i);
      if HasNil(line) {
        i := i + 1;
        continue;
      }
      var tup := ParseLine(line);
      var metar := decode(tup);
      if metar.None? {
        completed := false;
        ProcessStaysStopped(lines, decode, i + 1);
        return;
      }
      var row := MetarToCsv(metar.value);
      RowsTextSnoc(written, metar.value);
      AppendAssoc(HeaderLine(), RowsText(written), row);
      out := out + row;
      written := written + [metar.value];
      i := i + 1;
    }
    assert lines[..i] == lines;
  }

  /** One more line: skipped when it mentions `NIL`, otherwise decoded, and
      either written or the point where the run stops. */
  lemma ProcessStep(lines: seq<string>, decode: ((string, string)) -> Option<Report>, i: nat)
    requires i < |lines| && Process(lines[..i], decode).completed
    ensures var before := Process(lines[..i], decode);
      Process(lines[..i + 1], decode)
      == if HasNil(lines[i]) then before
         else match decode(ParseLine(lines[i]))
           case None => Run(before.reports, false)
           case Some(m) => Run(before.reports + [m], true)
  {
    assert lines[..i + 1][..i] == lines[..i];
  }

  /** Appending is associative; a separate step keeps the loop's proof small. */
  lemma AppendAssoc(a: string, b: string, c: string)
    ensures (a + b) + c == a + (b + c)
  {
  }

  lemma RowsTextSnoc(ms: seq<Report>, m: Report)
    ensures RowsText(ms + [m]) == RowsText(ms) + (RowBody(m) + "\n")
  {
    assert (ms + [m])[..|ms|] == ms;
  }

  /** Once the run has stopped, later lines change nothing. */
  lemma {:induction false} ProcessStaysStopped(lines: seq<string>, decode: ((string, string)) -> Option<Report>, k: nat)
    requires k <= |lines| && !Process(lines[..k], decode).completed
    ensures Process(lines, decode) == Process(lines[..k], decode)
  {
    if k < |lines| {
      assert lines[..|lines| - 1][..k] == lines[..k];
      ProcessStaysStopped(lines[..|lines| - 1], decode, k);
    } else {
      assert lines[..k] == lines;
    }
  }

  /** Skipping is all a `NIL` line does: the run over all lines is the run over
      the kept ones. */
  lemma {:induction false} ProcessKept(lines: seq<string>, decode: ((string, string)) -> Option<Report>)
    ensures Process(lines, decode) == Process(Kept(lines), decode)
  {
    if lines != [] {
      var init, l := lines[..|lines| - 1], lines[|lines| - 1];
      ProcessKept(init, decode);
      if HasNil(l) {
        assert Kept(lines) == Kept(init) + [] == Kept(init);
        assert Process(lines, decode) == Step(Process(init, decode), l, decode) == Process(init, decode);
      } else {
        var k := Kept(lines);
        assert k == Kept(init) + [l];
        assert k[..|k| - 1] == Kept(init) && k[|k| - 1] == l;
        assert Process(k, decode) == Step(Process(Kept(init), decode), l, decode);
        assert Process(lines, decode) == Step(Process(init, decode), l, decode);
      }
    }
  }

  /** The run handles every line exactly when the decoder accepts every line
      that does not mention `NIL`. */
  lemma {:induction false} ProcessCompletes(lines: seq<string>, decode: ((string, string)) -> Option<Report>)
    ensures Process(lines, decode).completed
        <==> forall i :: 0 <= i < |lines| && !HasNil(lines[i]) ==> decode(ParseLine(lines[i])).Some?
  {
    if lines != [] {
      var init := lines[..|lines| - 1];
      ProcessCompletes(init, decode);
      assert forall i :: 0 <= i < |init| ==> init[i] == lines[i];
    }
  }

  /** The reports written are those of the kept lines, in order, one per line,
      up to the first line the decoder rejects; a completed run writes them all. */
  lemma {:induction false} ProcessReports(lines: seq<string>, decode: ((string, string)) -> Option<Report>)
    ensures var run := Process(lines, decode); var kept := Kept(lines);
      && |run.reports| <= |kept|
      && (forall j :: 0 <= j < |run.reports| ==> decode(ParseLine(kept[j])) == Some(run.reports[j]))
      && (run.completed ==> |run.reports| == |kept|)
      && (!run.completed ==> |run.reports| < |kept| && decode(ParseLine(kept[|run.reports|])).None?)
  {
    if lines != [] {
      var init, l := lines[..|lines| - 1], lines[|lines| - 1];
      ProcessReports(init, decode);
      var kept := Kept(lines);
      assert forall j :: 0 <= j < |Kept(init)| ==> kept[j] == Kept(init)[j];
    }
  }
}
