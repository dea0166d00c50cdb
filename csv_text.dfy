/** Comma-separated text: Python's `",".join(fields)`, the field list a CSV
    reader recovers with `line.split(",")`, and the number of separators. */
module CsvText {

  predicate NoComma(s: string)
  {
    ',' !in s
  }

  /** Number of `,` characters in `s`. */
  function Commas(s: string): nat
  {
    if s == [] then 0 else (if s[0] == ',' then 1 else 0) + Commas(s[1..])
  }

  lemma {:induction false} CommasAppend(a: string, b: string)
    ensures Commas(a + b) == Commas(a) + Commas(b)
  {
    if a == [] {
      assert a + b == b;
    } else {
      assert (a + b)[1..] == a[1..] + b;
      CommasAppend(a[1..], b);
    }
  }

  lemma {:induction false} CommasNone(s: string)
    requires NoComma(s)
    ensures Commas(s) == 0
  {
    if s != [] {
      assert s[0] != ',';
      assert NoComma(s[1..]) by {
        forall i | 0 <= i < |s[1..]| ensures s[1..][i] != ',' { assert s[1..][i] == s[i + 1]; }
      }
      CommasNone(s[1..]);
    }
  }

  /** `",".join(fs)` for a non-empty list of fields. */
  function Join(fs: seq<string>): string
    requires |fs| >= 1
  {
    if |fs| == 1 then fs[0] else Join(fs[..|fs| - 1]) + "," + fs[|fs| - 1]
  }

  /** `s.split(",")`: the fields between consecutive commas, always at least one. */
  function Split(s: string): (fs: seq<string>)
    ensures |fs| >= 1
  {
    if s == [] then [""]
    else if s[0] == ',' then [""] + Split(s[1..])
    else
      var rest := Split(s[1..]);
      [[s[0]] + rest[0]] + rest[1..]
  }

  /** The fields of all the given strings, one list after the other. */
  function SplitAll(fs: seq<string>): seq<string>
  {
    if fs == [] then [] else SplitAll(fs[..|fs| - 1]) + Split(fs[|fs| - 1])
  }

  /** A comma between two strings separates exactly their fields. */
  lemma {:induction false} SplitAppend(a: string, b: string)
    ensures Split(a + "," + b) == Split(a) + Split(b)
  {
    if a == [] {
      assert a + "," + b == [','] + b;
      assert ([','] + b)[1..] == b;
    } else {
      assert (a + "," + b)[0] == a[0];
      assert (a + "," + b)[1..] == a[1..] + "," + b;
      SplitAppend(a[1..], b);
    }
  }

  /** Text without a comma is one field. */
  lemma {:induction false} SplitNoComma(s: string)
    requires NoComma(s)
    ensures Split(s) == [s]
  {
    if s != [] {
      assert s[0] != ',';
      assert NoComma(s[1..]) by {
        forall i | 0 <= i < |s[1..]| ensures s[1..][i] != ',' { assert s[1..][i] == s[i + 1]; }
      }
      SplitNoComma(s[1..]);
      assert [s[0]] + s[1..] == s;
    }
  }

  /** A CSV reader sees one field more than there are commas. */
  lemma {:induction false} SplitLength(s: string)
    ensures |Split(s)| == Commas(s) + 1
  {
    if s != [] {
      SplitLength(s[1..]);
    }
  }

  /** Splitting a joined list yields the fields of every member in order. */
  lemma {:induction false} SplitJoin(fs: seq<string>)
    requires |fs| >= 1
    ensures Split(Join(fs)) == SplitAll(fs)
  {
    if |fs| == 1 {
      assert SplitAll(fs) == SplitAll([]) + Split(fs[0]);
    } else {
      SplitJoin(fs[..|fs| - 1]);
      SplitAppend(Join(fs[..|fs| - 1]), fs[|fs| - 1]);
    }
  }

  /** The joined list splits back into itself when no field holds a comma. */
  lemma {:induction false} SplitJoinRoundTrip(fs: seq<string>)
    requires |fs| >= 1
    requires forall i :: 0 <= i < |fs| ==> NoComma(fs[i])
    ensures Split(Join(fs)) == fs
  {
    SplitJoin(fs);
    SplitAllNoComma(fs);
  }

  lemma {:induction false} SplitAllNoComma(fs: seq<string>)
    requires forall i :: 0 <= i < |fs| ==> NoComma(fs[i])
    ensures SplitAll(fs) == fs
  {
    if fs != [] {
      SplitAllNoComma(fs[..|fs| - 1]);
      SplitNoComma(fs[|fs| - 1]);
    }
  }

  /** A joined list of n fields holds n - 1 separators plus those inside the fields. */
  lemma {:induction false} JoinCommas(fs: seq<string>)
    requires |fs| >= 1
    ensures Commas(Join(fs)) == |fs| - 1 + CommasAll(fs)
  {
    if |fs| > 1 {
      JoinCommas(fs[..|fs| - 1]);
      CommasAppend(Join(fs[..|fs| - 1]) + ",", fs[|fs| - 1]);
      CommasAppend(Join(fs[..|fs| - 1]), ",");
    }
  }

  function CommasAll(fs: seq<string>): nat
  {
    if fs == [] then 0 else CommasAll(fs[..|fs| - 1]) + Commas(fs[|fs| - 1])
  }

  lemma JoinSnoc(fs: seq<string>, x: string)
    requires |fs| >= 1
    ensures Join(fs + [x]) == Join(fs) + "," + x
  {
    assert (fs + [x])[..|fs|] == fs;
  }

  lemma JoinPrefix(r: seq<string>, k: nat)
    requires 1 <= k < |r|
    ensures Join(r[..k + 1]) == Join(r[..k]) + "," + r[k]
  {
    assert r[..k + 1][..k] == r[..k];
  }

  /** Three fields joined by commas, written out. */
  lemma JoinThree(a: string, b: string, c: string)
    ensures Join([a, b, c]) == a + "," + b + "," + c
  {
    var r := [a, b, c];
    assert r[..3] == r;
    JoinPrefix(r, 2);
    JoinPrefix(r, 1);
    assert r[..1] == [a];
  }

  /** Four fields joined by commas, written out. */
  lemma JoinFour(a: string, b: string, c: string, d: string)
    ensures Join([a, b, c, d]) == a + "," + b + "," + c + "," + d
  {
    var r := [a, b, c, d];
    assert r[..4] == r;
    JoinPrefix(r, 3);
    JoinPrefix(r, 2);
    JoinPrefix(r, 1);
    assert r[..1] == [a];
  }

  /** Sixteen fields joined by commas, written out. */
  lemma JoinSixteen(r: seq<string>)
    requires |r| == 16
    ensures Join(r) == r[0] + "," + r[1] + "," + r[2] + "," + r[3] + "," + r[4] + "," + r[5]
      + "," + r[6] + "," + r[7] + "," + r[8] + "," + r[9] + "," + r[10] + "," + r[11]
      + "," + r[12] + "," + r[13] + "," + r[14] + "," + r[15]
  {
    assert r[..16] == r;
    JoinPrefix(r, 15); JoinPrefix(r, 14); JoinPrefix(r, 13); JoinPrefix(r, 12); JoinPrefix(r, 11);
    JoinPrefix(r, 10); JoinPrefix(r, 9); JoinPrefix(r, 8); JoinPrefix(r, 7); JoinPrefix(r, 6);
    JoinPrefix(r, 5); JoinPrefix(r, 4); JoinPrefix(r, 3); JoinPrefix(r, 2); JoinPrefix(r, 1);
    assert r[..1] == [r[0]];
  }

  lemma {:induction false} SplitAllAppend(a: seq<string>, b: seq<string>)
    ensures SplitAll(a + b) == SplitAll(a) + SplitAll(b)
  {
    if b == [] {
      assert a + b == a;
    } else {
      assert (a + b)[..|a + b| - 1] == a + b[..|b| - 1];
      SplitAllAppend(a, b[..|b| - 1]);
    }
  }

  lemma SplitAllOne(x: string)
    ensures SplitAll([x]) == Split(x)
  {
    assert [x][..0] == [];
  }

  /** Splitting text built from comma-free leading and trailing fields around two
      blocks gives those fields around the fields of the two blocks. */
  lemma SplitAround(lead: seq<string>, x: string, y: string, tail: seq<string>)
    requires |lead| >= 1
    requires forall i :: 0 <= i < |lead| ==> NoComma(lead[i])
    requires forall i :: 0 <= i < |tail| ==> NoComma(tail[i])
    ensures Split(Join(lead + [x, y] + tail)) == lead + Split(x) + Split(y) + tail
  {
    var p := lead + [x, y] + tail;
    assert p == lead + [x] + [y] + tail;
    SplitJoin(p);
    SplitAllAppend(lead + [x] + [y], tail);
    SplitAllAppend(lead + [x], [y]);
    SplitAllAppend(lead, [x]);
    SplitAllOne(x);
    SplitAllOne(y);
    SplitAllNoComma(lead);
    SplitAllNoComma(tail);
  }

  /** Three comma-free fields joined by commas split back into themselves. */
  lemma ThreeFields(a: string, b: string, c: string)
    requires NoComma(a) && NoComma(b) && NoComma(c)
    ensures Split(a + "," + b + "," + c) == [a, b, c]
    ensures Commas(a + "," + b + "," + c) == 2
  {
    SplitAppend(a + "," + b, c);
    SplitAppend(a, b);
    SplitNoComma(a);
    SplitNoComma(b);
    SplitNoComma(c);
    SplitLength(a + "," + b + "," + c);
  }

  /** Two such triples written back to back, with no separator between them. */
  lemma FusedTriples(a: string, b: string, c: string)
    requires NoComma(a) && NoComma(b) && NoComma(c)
    ensures Split((a + "," + b + "," + c) + (a + "," + b + "," + c)) == [a, b, c + a, b, c]
  {
    var t := a + "," + b + "," + c;
    assert t + t == (a + "," + b) + "," + ((c + a) + "," + b + "," + c);
    SplitAppend(a + "," + b, (c + a) + "," + b + "," + c);
    SplitAppend(a, b);
    SplitAppend((c + a) + "," + b, c);
    SplitAppend(c + a, b);
    assert NoComma(c + a);
    SplitNoComma(a);
    SplitNoComma(b);
    SplitNoComma(c);
    SplitNoComma(c + a);
  }

  lemma {:induction false} CommasAllNone(fs: seq<string>)
    requires forall i :: 0 <= i < |fs| ==> NoComma(fs[i])
    ensures CommasAll(fs) == 0
  {
    if fs != [] {
      CommasAllNone(fs[..|fs| - 1]);
      CommasNone(fs[|fs| - 1]);
    }
  }

  /** Comma-free fields joined by commas: the reader gets them back, and the
      text holds one separator fewer than there are fields. */
  lemma JoinPlainFields(fs: seq<string>)
    requires |fs| >= 1
    requires forall i :: 0 <= i < |fs| ==> NoComma(fs[i])
    ensures Split(Join(fs)) == fs
    ensures Commas(Join(fs)) == |fs| - 1
  {
    SplitJoinRoundTrip(fs);
    JoinCommas(fs);
    CommasAllNone(fs);
  }
}
