/** The line splitter of `src/to_csv.py`: a raw record line is a 12-character
    `YYYYMMDDHHmm` timestamp, one separator character and the METAR report,
    usually closed by `=`. Every `=` is dropped, then the line is cut by
    Python slicing, which clamps its bounds to the length of the text. */
module LineSplitter {

  function Min(a: int, b: int): int
  {
    if a <= b then a else b
  }

  /** `l.replace("=", "")`. */
  function RemoveEquals(l: string): (r: string)
    ensures '=' !in r
    ensures |r| <= |l|
  {
    if l == [] then [] else (if l[0] == '=' then [] else [l[0]]) + RemoveEquals(l[1..])
  }

  /** Removal works piecewise: the text before and after any cut are cleaned apart. */
  lemma {:induction false} RemoveEqualsAppend(a: string, b: string)
    ensures RemoveEquals(a + b) == RemoveEquals(a) + RemoveEquals(b)
  {
    if a == [] {
      assert a + b == b;
    } else {
      assert (a + b)[0] == a[0] && (a + b)[1..] == a[1..] + b;
      RemoveEqualsAppend(a[1..], b);
    }
  }

  /** Text without `=` is left as it is; in particular removal is idempotent. */
  lemma {:induction false} RemoveEqualsKeeps(l: string)
    requires '=' !in l
    ensures RemoveEquals(l) == l
  {
    if l != [] {
      assert l[0] != '=';
      assert '=' !in l[1..] by {
        forall i | 0 <= i < |l[1..]| ensures l[1..][i] != '=' { assert l[1..][i] == l[i + 1]; }
      }
      RemoveEqualsKeeps(l[1..]);
      assert [l[0]] + l[1..] == l;
    }
  }

  /** Every character other than `=` survives, as many times as it occurred. */
  lemma {:induction false} RemoveEqualsCounts(l: string, c: char)
    requires c != '='
    ensures multiset(RemoveEquals(l))[c] == multiset(l)[c]
  {
    if l != [] {
      RemoveEqualsCounts(l[1..], c);
      assert l == [l[0]] + l[1..];
      assert multiset(l) == multiset{l[0]} + multiset(l[1..]);
    }
  }

  /** `parse_line`: the timestamp `l[0:12]` and the report `l[13:]` of the
      `=`-free line, the character at offset 12 dropped. */
  function ParseLine(l: string): (r: (string, string))
    ensures '=' !in r.0 && '=' !in r.1
  {
    var c := RemoveEquals(l);
    (c[..Min(12, |c|)], c[Min(13, |c|)..])
  }

  /** The two parts are the slices of the cleaned line, clamped as Python clamps them;
      the timestamp is 12 characters exactly when the cleaned line has 12 or more. */
  lemma ParseLineSlices(l: string)
    ensures var c := RemoveEquals(l);
      && ParseLine(l).0 == c[..Min(12, |c|)]
      && ParseLine(l).1 == c[Min(13, |c|)..]
      && (|ParseLine(l).0| == 12 <==> |c| >= 12)
      && (|c| <= 13 ==> ParseLine(l).1 == "")
  {
  }

  /** Nothing but the separator is lost: timestamp, separator and report
      put back together give the cleaned line. */
  lemma ParseLineReassembles(l: string)
    requires |RemoveEquals(l)| >= 13
    ensures var c := RemoveEquals(l);
      ParseLine(l).0 + [c[12]] + ParseLine(l).1 == c
  {
    var c := RemoveEquals(l);
    assert c[..12] + [c[12]] + c[13..] == c;
  }

  /** A well-formed record `timestamp + separator + report + "="` splits into its
      timestamp and its report (with any `=` inside the report removed). */
  lemma ParseLineOfRecord(stamp: string, sep: char, report: string)
    requires |stamp| == 12 && '=' !in stamp && sep != '='
    ensures ParseLine(stamp + [sep] + report + "=") == (stamp, RemoveEquals(report))
  {
    CleanRecord(stamp, sep, report);
    CutRecord(stamp, sep, RemoveEquals(report));
  }

  /** A record line as `readlines()` yields it, newline kept: the newline stays at
      the end of the report part. */
  lemma ParseLineOfReadLine(stamp: string, sep: char, report: string)
    requires |stamp| == 12 && '=' !in stamp && sep != '='
    ensures ParseLine(stamp + [sep] + report + "=\n") == (stamp, RemoveEquals(report) + "\n")
  {
    CleanReadLine(stamp, sep, report);
    CutRecord(stamp, sep, RemoveEquals(report) + "\n");
  }

  /** Cleaning a record line keeps timestamp, separator and newline and cleans the report. */
  lemma CleanReadLine(stamp: string, sep: char, report: string)
    requires '=' !in stamp && sep != '='
    ensures RemoveEquals(stamp + [sep] + report + "=\n") == stamp + [sep] + (RemoveEquals(report) + "\n")
  {
    var head := stamp + [sep];
    assert stamp + [sep] + report + "=\n" == head + (report + "=\n");
    HeadKept(stamp, sep);
    RemoveEqualsAppend(head, report + "=\n");
    RemoveEqualsAppend(report, "=\n");
    assert RemoveEquals("=\n") == "\n" by {
      assert "=\n"[1..] == "\n";
      RemoveEqualsKeeps("\n");
    }
  }

  /** Cleaning a record keeps timestamp and separator and cleans the report. */
  lemma CleanRecord(stamp: string, sep: char, report: string)
    requires '=' !in stamp && sep != '='
    ensures RemoveEquals(stamp + [sep] + report + "=") == stamp + [sep] + RemoveEquals(report)
  {
    var head := stamp + [sep];
    assert stamp + [sep] + report + "=" == head + (report + "=");
    HeadKept(stamp, sep);
    RemoveEqualsAppend(head, report + "=");
    RemoveEqualsAppend(report, "=");
    assert RemoveEquals("=") == [];
  }

  /** The cut at offsets 12 and 13 of a cleaned record. */
  lemma CutRecord(stamp: string, sep: char, rest: string)
    requires |stamp| == 12
    ensures var c := stamp + [sep] + rest;
      c[..Min(12, |c|)] == stamp && c[Min(13, |c|)..] == rest
  {
  }

  /** Timestamp and separator pass through the cleaning untouched. */
  lemma HeadKept(stamp: string, sep: char)
    requires '=' !in stamp && sep != '='
    ensures RemoveEquals(stamp + [sep]) == stamp + [sep]
  {
    var head := stamp + [sep];
    assert '=' !in head by {
      forall i | 0 <= i < |head| ensures head[i] != '=' {
        if i < |stamp| { assert head[i] == stamp[i]; }
      }
    }
    RemoveEqualsKeeps(head);
  }
}
