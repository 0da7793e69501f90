/// The part of encoding/csv that the index file uses: records of fields
/// separated by commas, one record per line, lines ended by "\n", empty lines
/// skipped by the reader. Quoting is not modelled (see README).
module Csv {

  /// A white-space character in Go's `unicode.IsSpace` sense.
  predicate GoSpace(c: char) {
    || ('\t' <= c <= '\r') || c == ' ' || c == '\U{85}' || c == '\U{A0}' || c == '\U{1680}'
    || ('\U{2000}' <= c <= '\U{200A}')
    || c == '\U{2028}' || c == '\U{2029}' || c == '\U{202F}' || c == '\U{205F}' || c == '\U{3000}'
  }

  /// A field `encoding/csv` writes without quotes: no comma, quote, carriage
  /// return or newline inside, no white space at the front, and not the
  /// two-character field `\.`. Such a field is written verbatim and the
  /// reader gets it back verbatim.
  predicate PlainField(f: string) {
    && ',' !in f && '\n' !in f && '"' !in f && '\r' !in f
    && (f != "" ==> !GoSpace(f[0]))
    && f != "\\."
  }

  function IndexOf(s: string, c: char): (i: nat)
    requires c in s
    ensures i < |s| && s[i] == c && c !in s[..i]
  {
    if s[0] == c then 0 else 1 + IndexOf(s[1..], c)
  }

  /// The pieces of `s` between occurrences of `sep`; there is always at least one.
  function Split(s: string, sep: char): (pieces: seq<string>)
    ensures |pieces| >= 1
    ensures forall i :: 0 <= i < |pieces| ==> sep !in pieces[i]
    decreases |s|
  {
    if sep in s then
      var i := IndexOf(s, sep);
      [s[..i]] + Split(s[i + 1..], sep)
    else
      [s]
  }

  /// The fields of a record joined by `sep`.
  function Join(fields: seq<string>, sep: char): (r: string) {
    if fields == [] then ""
    else if |fields| == 1 then fields[0]
    else fields[0] + [sep] + Join(fields[1..], sep)
  }

  lemma SplitCons(a: string, sep: char, b: string)
    requires sep !in a
    ensures Split(a + [sep] + b, sep) == [a] + Split(b, sep)
  {
    var s := a + [sep] + b;
    var i := IndexOf(s, sep);
    assert s[..|a|] == a && s[|a|] == sep;
    assert s[..i] == a;
    assert s[i + 1..] == b;
  }

  /// Splitting undoes joining when no field contains the separator.
  lemma {:induction false} SplitJoin(fields: seq<string>, sep: char)
    requires |fields| >= 1
    requires forall i :: 0 <= i < |fields| ==> sep !in fields[i]
    ensures Split(Join(fields, sep), sep) == fields
  {
    if |fields| > 1 {
      SplitCons(fields[0], sep, Join(fields[1..], sep));
      SplitJoin(fields[1..], sep);
    }
  }

  lemma {:induction false} JoinAvoids(fields: seq<string>, sep: char, c: char)
    requires c != sep
    requires forall i :: 0 <= i < |fields| ==> c !in fields[i]
    ensures c !in Join(fields, sep)
  {
    if |fields| > 1 {
      JoinAvoids(fields[1..], sep, c);
    }
  }

  lemma JoinNonEmpty(fields: seq<string>, sep: char)
    requires |fields| >= 2
    ensures Join(fields, sep) != ""
  {
  }

  /// One record as csv.Writer.Write puts it out.
  function RenderRecord(rec: seq<string>): string {
    Join(rec, ',') + "\n"
  }

  /// Records written one after the other.
  function Render(recs: seq<seq<string>>): (r: string) {
    if recs == [] then "" else RenderRecord(recs[0]) + Render(recs[1..])
  }

  lemma {:induction false} RenderAppend(recs: seq<seq<string>>, r: seq<string>)
    ensures Render(recs + [r]) == Render(recs) + RenderRecord(r)
  {
    if recs != [] {
      assert (recs + [r])[1..] == recs[1..] + [r];
      RenderAppend(recs[1..], r);
    }
  }

  function NonEmpty(lines: seq<string>): (r: seq<string>)
    ensures forall i :: 0 <= i < |r| ==> r[i] != ""
  {
    if lines == [] then []
    else if lines[0] == "" then NonEmpty(lines[1..])
    else [lines[0]] + NonEmpty(lines[1..])
  }

  /// The lines csv.Reader reads: text between "\n"s, empty lines skipped, a
  /// last line without "\n" kept.
  function Lines(text: string): seq<string> {
    NonEmpty(Split(text, '\n'))
  }

  /// Each line cut into its comma-separated fields.
  function SplitEach(lines: seq<string>): (recs: seq<seq<string>>)
    ensures |recs| == |lines|
  {
    if lines == [] then [] else [Split(lines[0], ',')] + SplitEach(lines[1..])
  }

  /// The records csv.Reader.Read returns one by one, before its field-count check.
  function Records(text: string): seq<seq<string>> {
    SplitEach(Lines(text))
  }

  /// The line each record is written as.
  function JoinEach(recs: seq<seq<string>>): (lines: seq<string>)
    ensures |lines| == |recs|
  {
    if recs == [] then [] else [Join(recs[0], ',')] + JoinEach(recs[1..])
  }

  /// A record the writer and reader agree on: two or more plain fields.
  predicate Writable(rec: seq<string>) {
    |rec| >= 2 && forall i :: 0 <= i < |rec| ==> PlainField(rec[i])
  }

  lemma {:induction false} LinesOfRender(recs: seq<seq<string>>)
    requires forall i :: 0 <= i < |recs| ==> Writable(recs[i])
    ensures Lines(Render(recs)) == JoinEach(recs)
  {
    if recs != [] {
      var line := Join(recs[0], ',');
      JoinAvoids(recs[0], ',', '\n');
      JoinNonEmpty(recs[0], ',');
      SplitCons(line, '\n', Render(recs[1..]));
      assert Render(recs) == line + ['\n'] + Render(recs[1..]);
      LinesOfRender(recs[1..]);
    } else {
      assert Split("", '\n') == [""];
    }
  }

  lemma {:induction false} SplitEachJoinEach(recs: seq<seq<string>>)
    requires forall i :: 0 <= i < |recs| ==> Writable(recs[i])
    ensures SplitEach(JoinEach(recs)) == recs
  {
    if recs != [] {
      SplitJoin(recs[0], ',');
      SplitEachJoinEach(recs[1..]);
    }
  }

  /// What the writer puts out, the reader reads back record for record.
  lemma RecordsOfRender(recs: seq<seq<string>>)
    requires forall i :: 0 <= i < |recs| ==> Writable(recs[i])
    ensures Records(Render(recs)) == recs
  {
    LinesOfRender(recs);
    SplitEachJoinEach(recs);
  }
}
