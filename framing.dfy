/** How the shared output artifact is framed: the delimiter written before each
    record, and what a finished artifact (a bracketed, comma-separated array with
    one record per indented line) looks like. Records are already serialised. */
module Framing {

  /** The delimiter written before a record: the opening bracket when the record is
      the first one of a fresh run, a separator otherwise. */
  function Prefix(opening: bool): (r: string)
    ensures |r| == 3 && r[1..] == "\n\t"
    ensures r[0] == (if opening then '[' else ',')
  {
    if opening then "[\n\t" else ",\n\t"
  }

  /** The text that offering `records` one after the other appends to the artifact,
      starting in a state that writes the opening bracket exactly when `opening`. */
  function Frame(opening: bool, records: seq<string>): (r: string)
    ensures r == "" <==> records == []
    ensures r != "" ==> r[0] == (if opening then '[' else ',')
  {
    if records == [] then "" else Prefix(opening) + records[0] + Frame(false, records[1..])
  }

  /** `parts` separated by `sep`. */
  function Join(sep: string, parts: seq<string>): (r: string)
  {
    if |parts| == 0 then ""
    else if |parts| == 1 then parts[0]
    else parts[0] + sep + Join(sep, parts[1..])
  }

  /** Each record on a line of its own, indented by one tab. */
  function Indented(records: seq<string>): (r: seq<string>)
  {
    seq(|records|, i requires 0 <= i < |records| => "\n\t" + records[i])
  }

  /** An artifact that holds `records` and has not been closed yet. */
  function OpenArrayOf(records: seq<string>): (r: string)
  {
    "[" + Join(",", Indented(records))
  }

  /** A finished artifact holding exactly `records`, in order. */
  function ArrayOf(records: seq<string>): (r: string)
  {
    OpenArrayOf(records) + "\n]"
  }

  /** Offering one more record appends its delimiter and the record and nothing
      else; the bracket is written only for the first record of an opening run. */
  lemma {:induction false} FrameSnoc(opening: bool, records: seq<string>, r: string)
    ensures Frame(opening, records + [r]) == Frame(opening, records) + Prefix(opening && records == []) + r
  {
    if records == [] {
      assert records + [r] == [r];
    } else {
      assert (records + [r])[1..] == records[1..] + [r];
      FrameSnoc(false, records[1..], r);
    }
  }

  lemma {:induction false} JoinSnoc(sep: string, parts: seq<string>, x: string)
    requires |parts| >= 1
    ensures Join(sep, parts + [x]) == Join(sep, parts) + sep + x
  {
    if |parts| == 1 {
      assert (parts + [x])[1..] == [x];
    } else {
      assert (parts + [x])[1..] == parts[1..] + [x];
      JoinSnoc(sep, parts[1..], x);
    }
  }

  /** Records offered to a sink whose opening bracket is already out continue the
      same array: each one adds a separator and nothing else. */
  lemma {:induction false} ContinueArray(before: seq<string>, after: seq<string>)
    requires |before| >= 1
    ensures OpenArrayOf(before) + Frame(false, after) == OpenArrayOf(before + after)
    decreases |after|
  {
    if after != [] {
      var next := before + [after[0]];
      assert Indented(next) == Indented(before) + ["\n\t" + after[0]];
      JoinSnoc(",", Indented(before), "\n\t" + after[0]);
      assert "," + ("\n\t" + after[0]) == Prefix(false) + after[0];
      ContinueArray(next, after[1..]);
      assert next + after[1..] == before + after;
    } else {
      assert before + after == before;
    }
  }

  /** A fresh, non-restarted run that writes at least one record and is then
      finalised produces exactly the array of those records. */
  lemma FreshArtifact(records: seq<string>)
    requires |records| >= 1
    ensures Frame(true, records) + "\n]" == ArrayOf(records)
  {
    var first, rest := [records[0]], records[1..];
    OpenSingle(records[0]);
    assert first + rest == records;
    ContinueArray(first, rest);
  }

  /** The opening bracket followed by one record is the open array of that record. */
  lemma OpenSingle(x: string)
    ensures OpenArrayOf([x]) == Prefix(true) + x
  {
    assert Indented([x]) == ["\n\t" + x];
    assert Prefix(true) == "[" + "\n\t";
  }

  /** A restarted run appends to the open artifact of an earlier run that wrote at
      least one record; once finalised, the artifact is the array of the earlier
      records followed by the new ones, with no second opening bracket. */
  lemma ResumedArtifact(earlier: seq<string>, later: seq<string>)
    requires |earlier| >= 1
    ensures OpenArrayOf(earlier) + Frame(false, later) + "\n]" == ArrayOf(earlier + later)
  {
    ContinueArray(earlier, later);
  }

  /** A fresh run that writes no record leaves only the closing delimiter, which is
      not the (empty) array. */
  lemma EmptyRunIsNotAnArray()
    ensures Frame(true, []) + "\n]" == "\n]"
    ensures Frame(true, []) + "\n]" != ArrayOf([])
  {
    assert |ArrayOf([])| == 3;
  }

  /** A restarted run whose earlier run wrote no record opens its first record
      with a separator, so the finalised artifact begins with a comma and is no
      array at all. */
  lemma RestartAfterEmptyRunIsNotAnArray(later: seq<string>)
    requires |later| >= 1
    ensures (Frame(false, later) + "\n]")[0] == ','
    ensures forall records :: Frame(false, later) + "\n]" != ArrayOf(records)
  {
    forall records
      ensures Frame(false, later) + "\n]" != ArrayOf(records)
    {
      assert ArrayOf(records)[0] == '[';
    }
  }
}
