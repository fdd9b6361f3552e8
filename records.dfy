/**
 Line-oriented records of the form `<kind>|<id>|<payload>`: the parser
 `parse_line` and the renderer `render_record`.
 */
module Records {
  import opened Errors
  import opened Text

  /** A parsed line; the library's frozen dataclass `Record`. */
  datatype Record = Record(kind: string, recId: string, payload: string)

  /** The field separator. */
  const Sep: char := '|'

  /**
   The records a line can carry: kind and id non-empty, no field holding the
   separator, and a payload that does not end in a newline (the parser would
   strip it).
   */
  predicate Representable(r: Record) {
    && r.kind != [] && r.recId != []
    && Sep !in r.kind && Sep !in r.recId && Sep !in r.payload
    && (r.payload == [] || r.payload[|r.payload| - 1] != '\n')
  }

  /** `f"{kind}|{rec_id}|{payload}"`: the three fields and two separators. */
  function RenderRecord(r: Record): (line: string)
    ensures |line| == |r.kind| + |r.recId| + |r.payload| + 2
  {
    r.kind + [Sep] + r.recId + [Sep] + r.payload
  }

  /**
   Each field sits at its place in the rendered line: the kind, a separator,
   the id, a separator, then the payload up to the end.
   */
  lemma RenderedFields(r: Record)
    ensures var line, k, n := RenderRecord(r), |r.kind|, |r.recId|;
      && line[..k] == r.kind && line[k] == Sep
      && line[k + 1..k + 1 + n] == r.recId && line[k + 1 + n] == Sep
      && line[k + 2 + n..] == r.payload
  {
  }

  /** The part of a rendered line that comes before the payload. */
  function Header(r: Record): (h: string)
    ensures h + r.payload == RenderRecord(r)
  {
    r.kind + [Sep] + r.recId + [Sep]
  }

  /**
   `parse_line`: strip every trailing newline, split on '|', demand exactly
   three fields and a non-empty kind and id. The payload may be empty: the
   source's `payload is None` test can never hold for a piece of a split.
   */
  function ParseLine(line: string): (r: Result<Record>)
    ensures r.Ok? ==> Representable(r.value) && RenderRecord(r.value) == RStripNewlines(line)
    ensures r.Err? ==> r.error.ParseError? && r.error.raw == RStripNewlines(line)
    ensures (r.Err? && r.error.reason.FieldCount?) <==> Count(RStripNewlines(line), Sep) != 2
    ensures r.Err? && r.error.reason.FieldCount? ==>
      r.error.reason.got == Count(RStripNewlines(line), Sep) + 1
  {
    var raw := RStripNewlines(line);
    var parts := Split(raw, Sep);
    if |parts| != 3 then
      Err(ParseError(FieldCount(|parts|), raw))
    else if parts[0] == [] || parts[1] == [] then
      Err(ParseError(EmptyField, raw))
    else
      var rec := Record(parts[0], parts[1], parts[2]);
      assert RenderRecord(rec) == raw by {
        SplitJoin(raw, Sep);
        assert parts[1..][1..] == [parts[2]];
        assert Join(parts[1..], Sep) == parts[1] + [Sep] + parts[2];
        assert Join(parts, Sep) == parts[0] + [Sep] + (parts[1] + [Sep] + parts[2]);
      }
      assert rec.payload == [] || rec.payload[|rec.payload| - 1] == raw[|raw| - 1];
      Ok(rec)
  }

  /** The three fields of a rendered record are exactly the record's fields. */
  lemma SplitRendered(r: Record)
    requires Sep !in r.kind && Sep !in r.recId && Sep !in r.payload
    ensures Split(RenderRecord(r), Sep) == [r.kind, r.recId, r.payload]
  {
    SplitAfter(r.kind, r.recId + [Sep] + r.payload, Sep);
    assert RenderRecord(r) == r.kind + [Sep] + (r.recId + [Sep] + r.payload);
    SplitAfter(r.recId, r.payload, Sep);
    SplitNone(r.payload, Sep);
  }

  /** Round trip from a record: rendering then parsing, with any trailing newlines, gives the record back. */
  lemma RenderThenParse(r: Record, n: nat)
    requires Representable(r)
    ensures ParseLine(RenderRecord(r) + Newlines(n)) == Ok(r)
  {
    var line := RenderRecord(r) + Newlines(n);
    assert RenderRecord(r) == [] || RenderRecord(r)[|RenderRecord(r)| - 1] != '\n';
    RStripNewlinesExact(RenderRecord(r), n);
    SplitRendered(r);
  }

  /** Round trip from text: a line that parses renders back as itself without its trailing newlines. */
  lemma ParseThenRender(line: string)
    requires ParseLine(line).Ok?
    ensures RenderRecord(ParseLine(line).value) == RStripNewlines(line)
  {
  }

  /**
   The exact acceptance condition: `line` parses to `r` if and only if,
   without its trailing newlines, it is `kind|id|payload` with a non-empty
   kind and id and no '|' inside any field.
   */
  lemma {:induction false} ParseLineAccepts(line: string, r: Record)
    ensures ParseLine(line) == Ok(r) <==>
      && RStripNewlines(line) == r.kind + "|" + r.recId + "|" + r.payload
      && r.kind != [] && r.recId != []
      && '|' !in r.kind && '|' !in r.recId && '|' !in r.payload
  {
    var raw := RStripNewlines(line);
    if raw == r.kind + "|" + r.recId + "|" + r.payload
       && r.kind != [] && r.recId != []
       && '|' !in r.kind && '|' !in r.recId && '|' !in r.payload
    {
      assert raw == RenderRecord(r);
      SplitRendered(r);
    }
  }

  /** Trailing newlines never matter, however many there are. */
  lemma IgnoresTrailingNewlines(line: string, n: nat)
    ensures ParseLine(line + Newlines(n)) == ParseLine(line)
  {
    RStripNewlinesAppend(line, n);
  }

  /** `rstrip("\n")` removes only newlines, so the separators of a line all survive it. */
  lemma CountAfterStrip(line: string)
    ensures Count(RStripNewlines(line), Sep) == Count(line, Sep)
  {
    var raw := RStripNewlines(line);
    var tail := line[|raw|..];
    assert line == raw + tail;
    CountAppend(raw, tail, Sep);
    CountZero(tail, Sep);
  }

  /**
   The split is naive: a '|' inside the payload always makes the line fail,
   with the field count it produced.
   */
  lemma {:induction false} PipeInPayloadRejected(kind: string, recId: string, payload: string)
    requires Sep !in kind && Sep !in recId && Sep in payload
    ensures var line := kind + [Sep] + recId + [Sep] + payload;
      ParseLine(line).Err?
      && ParseLine(line).error == ParseError(FieldCount(Count(payload, Sep) + 3), RStripNewlines(line))
  {
    var line := kind + [Sep] + recId + [Sep] + payload;
    CountAfterStrip(line);
    CountAppend(kind + [Sep] + recId + [Sep], payload, Sep);
    CountAppend(kind + [Sep] + recId, [Sep], Sep);
    CountAppend(kind + [Sep], recId, Sep);
    CountAppend(kind, [Sep], Sep);
    CountZero(kind, Sep);
    CountZero(recId, Sep);
    CountZero(payload, Sep);
  }

  /** An empty payload is accepted: `kind|id|` parses with payload `""`, newline or not. */
  lemma EmptyPayloadAccepted(kind: string, recId: string, n: nat)
    requires kind != [] && recId != [] && Sep !in kind && Sep !in recId
    ensures ParseLine(kind + "|" + recId + "|" + Newlines(n)) == Ok(Record(kind, recId, ""))
  {
    var rec := Record(kind, recId, "");
    RenderThenParse(rec, n);
    assert RenderRecord(rec) == kind + "|" + recId + "|";
  }
}
