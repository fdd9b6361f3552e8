/**
 The normalisation pipeline: parse each line, run the compiled transforms
 over the record in order, render it back.
 */
module Normalize {
  import opened Errors
  import opened Text
  import opened Records
  import opened Rules

  /**
   The transforms applied left to right, the last one last; no sequence of
   transforms changes a record's kind or id.
   */
  function Fold(rec: Record, ts: seq<Transform>): (r: Record)
    ensures r.kind == rec.kind && r.recId == rec.recId
    decreases |ts|
  {
    if ts == [] then rec else Apply(ts[|ts| - 1], Fold(rec, ts[..|ts| - 1]))
  }

  /** With no transforms the record is unchanged. */
  lemma FoldEmpty(rec: Record)
    ensures Fold(rec, []) == rec
  {
  }

  /** Folding over two lists one after the other is folding over their concatenation. */
  lemma {:induction false} FoldAppend(rec: Record, ts1: seq<Transform>, ts2: seq<Transform>)
    ensures Fold(rec, ts1 + ts2) == Fold(Fold(rec, ts1), ts2)
    decreases |ts2|
  {
    if ts2 == [] {
      assert ts1 + ts2 == ts1;
    } else {
      var ts := ts1 + ts2;
      assert ts[..|ts| - 1] == ts1 + ts2[..|ts2| - 1];
      assert ts[|ts| - 1] == ts2[|ts2| - 1];
      FoldAppend(rec, ts1, ts2[..|ts2| - 1]);
    }
  }

  /** A record that every rule's guard turns away comes through unchanged. */
  lemma {:induction false} FoldSkipsOtherKinds(rec: Record, ts: seq<Transform>)
    requires forall i :: 0 <= i < |ts| ==> !Guard(ts[i].rule, rec)
    ensures Fold(rec, ts) == rec
    decreases |ts|
  {
    if ts != [] {
      FoldSkipsOtherKinds(rec, ts[..|ts| - 1]);
    }
  }

  /** `normalize_record`: apply the transforms in order. */
  method NormalizeRecord(rec: Record, transforms: seq<Transform>) returns (cur: Record)
    ensures cur == Fold(rec, transforms)
    ensures cur.kind == rec.kind && cur.recId == rec.recId
  {
    cur := rec;
    for i := 0 to |transforms|
      invariant cur == Fold(rec, transforms[..i])
    {
      assert transforms[..i + 1][..i] == transforms[..i];
      cur := Apply(transforms[i], cur);
    }
    assert transforms[..|transforms|] == transforms;
  }

  /**
   What the pipeline makes of one line: parse, fold, render. It fails exactly
   when the line does not parse, with the parser's error, and a line it
   produces starts with the input record's `kind|id|`.
   */
  function NormalizeLine(line: string, ts: seq<Transform>): (r: Result<string>)
    ensures r.Ok? <==> ParseLine(line).Ok?
    ensures r.Err? ==> r == Err(ParseLine(line).error)
    ensures r.Ok? ==> Header(ParseLine(line).value) <= r.value
  {
    match ParseLine(line)
    case Err(e) => Err(e)
    case Ok(rec) =>
      var out := Fold(rec, ts);
      assert Header(out) == Header(rec);
      assert Header(out) + out.payload == RenderRecord(out);
      Ok(RenderRecord(out))
  }

  /** With no transforms a line that parses comes out as itself without its trailing newlines. */
  lemma NoTransformsIdentity(line: string)
    requires ParseLine(line).Ok?
    ensures NormalizeLine(line, []) == Ok(RStripNewlines(line))
  {
  }

  /** The normalised line starts with the same `kind|id|` as the input line. */
  lemma KeepsHeader(line: string, ts: seq<Transform>)
    requires ParseLine(line).Ok?
    ensures NormalizeLine(line, ts).Ok?
    ensures var h := Header(ParseLine(line).value);
      h <= line && h <= NormalizeLine(line, ts).value
  {
    var rec := ParseLine(line).value;
    assert RenderRecord(rec) == Header(rec) + rec.payload;
  }

  /** Line by line: each output keeps its input's header, and with no transforms equals its input without trailing newlines. */
  lemma OutputFacts(lines: seq<string>, ts: seq<Transform>, out: seq<string>)
    requires |out| == |lines|
    requires forall k :: 0 <= k < |lines| ==> ParseLine(lines[k]).Ok? && NormalizeLine(lines[k], ts) == Ok(out[k])
    ensures forall i :: 0 <= i < |lines| ==>
      Header(ParseLine(lines[i]).value) <= lines[i] && Header(ParseLine(lines[i]).value) <= out[i]
  {
    forall i | 0 <= i < |lines|
      ensures Header(ParseLine(lines[i]).value) <= lines[i] && Header(ParseLine(lines[i]).value) <= out[i]
    {
      KeepsHeader(lines[i], ts);
    }
  }

  /** With no transforms, every output line is its input line without trailing newlines. */
  lemma NoTransformsOutput(lines: seq<string>, out: seq<string>)
    requires |out| == |lines|
    requires forall k :: 0 <= k < |lines| ==> ParseLine(lines[k]).Ok? && NormalizeLine(lines[k], []) == Ok(out[k])
    ensures forall i :: 0 <= i < |lines| ==> out[i] == RStripNewlines(lines[i])
  {
    forall i | 0 <= i < |lines| ensures out[i] == RStripNewlines(lines[i]) {
      NoTransformsIdentity(lines[i]);
    }
  }

  /**
   The loop of `normalize_lines` over already compiled transforms: each line
   is parsed, normalised and rendered in order, and the first malformed line
   ends the loop with its error.
   */
  method NormalizeEach(lines: seq<string>, transforms: seq<Transform>) returns (res: Result<seq<string>>)
    ensures res.Ok? <==> forall i :: 0 <= i < |lines| ==> ParseLine(lines[i]).Ok?
    ensures res.Ok? ==>
      (|res.value| == |lines| && forall i :: 0 <= i < |lines| ==> NormalizeLine(lines[i], transforms) == Ok(res.value[i]))
    ensures forall k ::
      (0 <= k < |lines| && ParseLine(lines[k]).Err? && forall j :: 0 <= j < k ==> ParseLine(lines[j]).Ok?)
      ==> res == Err(ParseLine(lines[k]).error)
    ensures res.Ok? && transforms == [] ==>
      forall i :: 0 <= i < |lines| ==> res.value[i] == RStripNewlines(lines[i])
    ensures res.Ok? ==> forall i :: 0 <= i < |lines| ==>
      ParseLine(lines[i]).Ok? && Header(ParseLine(lines[i]).value) <= lines[i]
      && Header(ParseLine(lines[i]).value) <= res.value[i]
  {
    var out: seq<string> := [];
    for i := 0 to |lines|
      invariant |out| == i
      invariant forall k :: 0 <= k < i ==> ParseLine(lines[k]).Ok? && NormalizeLine(lines[k], transforms) == Ok(out[k])
    {
      var rec := ParseLine(lines[i]);
      if rec.Err? {
        return Err(rec.error);
      }
      var norm := NormalizeRecord(rec.value, transforms);
      out := out + [RenderRecord(norm)];
    }
    OutputFacts(lines, transforms, out);
    if transforms == [] {
      NoTransformsOutput(lines, out);
    }
    return Ok(out);
  }

  /**
   `normalize_lines`: compile every rule first (so a bad op fails even with no
   lines), then parse, normalise and render each line in order; the first
   malformed line fails the whole call and no partial output is returned.
   */
  method NormalizeLines(lines: seq<string>, rules: seq<Rule>) returns (res: Result<seq<string>>)
    ensures CompileRules(rules).Err? ==> res == Err(CompileRules(rules).error)
    ensures CompileRules(rules).Ok? ==>
      (res.Ok? <==> forall i :: 0 <= i < |lines| ==> ParseLine(lines[i]).Ok?)
    ensures res.Ok? ==> (CompileRules(rules).Ok? && |res.value| == |lines|
      && forall i :: 0 <= i < |lines| ==> NormalizeLine(lines[i], CompileRules(rules).value) == Ok(res.value[i]))
    ensures CompileRules(rules).Ok? ==> forall k ::
      (0 <= k < |lines| && ParseLine(lines[k]).Err? && forall j :: 0 <= j < k ==> ParseLine(lines[j]).Ok?)
      ==> res == Err(ParseLine(lines[k]).error)
    ensures res.Ok? && rules == [] ==>
      forall i :: 0 <= i < |lines| ==> res.value[i] == RStripNewlines(lines[i])
    ensures res.Ok? ==> forall i :: 0 <= i < |lines| ==>
      ParseLine(lines[i]).Ok? && Header(ParseLine(lines[i]).value) <= lines[i]
      && Header(ParseLine(lines[i]).value) <= res.value[i]
  {
    var compiled := CompileRules(rules);
    if compiled.Err? {
      return Err(compiled.error);
    }
    assert rules == [] ==> compiled.value == [];
    res := NormalizeEach(lines, compiled.value);
  }
}
