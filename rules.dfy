/**
 Normalisation rules and their compilation into record transforms. A
 compiled transform is kept as data, the validated op plus the rule it came
 from, and `Apply` gives its meaning on a record.
 */
module Rules {
  import opened Wrappers
  import opened Errors
  import opened Text
  import opened Records
  import opened Comprehension

  /** A single rule; when `kind` is set the rule only touches records of that kind. */
  datatype Rule = Rule(name: string, op: string, arg: string, kind: Option<string>)

  /** The five supported operations on the payload. */
  datatype Op = LowerPayload | UpperPayload | StripPayload | PrefixPayload | SuffixPayload

  /** What `compile_rule` returns: the op it recognised and the rule its closure captures. */
  datatype Transform = Transform(op: Op, rule: Rule)

  /** The name under which each op is written in a rule. */
  function OpName(o: Op): string {
    match o
    case LowerPayload => "lower_payload"
    case UpperPayload => "upper_payload"
    case StripPayload => "strip_payload"
    case PrefixPayload => "prefix_payload"
    case SuffixPayload => "suffix_payload"
  }

  /** The op a name denotes, if any. */
  function OpOfName(name: string): (o: Option<Op>)
    ensures o.Some? ==> OpName(o.value) == name
  {
    if name == "lower_payload" then Some(LowerPayload)
    else if name == "upper_payload" then Some(UpperPayload)
    else if name == "strip_payload" then Some(StripPayload)
    else if name == "prefix_payload" then Some(PrefixPayload)
    else if name == "suffix_payload" then Some(SuffixPayload)
    else None
  }

  /** Names and ops correspond one to one. */
  lemma OpNameRoundTrip(o: Op)
    ensures OpOfName(OpName(o)) == Some(o)
  {
    match o
    case LowerPayload =>
    case UpperPayload => assert OpName(o)[0] == 'u';
    case StripPayload => assert OpName(o)[0] == 's';
    case PrefixPayload => assert OpName(o)[0] == 'p';
    case SuffixPayload => assert OpName(o)[0] == 's' && OpName(o)[1] == 'u';
  }

  /** Recognise an op name after `strip()`; `None` when it is none of the five. */
  function ParseOp(op: string): (o: Option<Op>)
    ensures o.Some? ==> OpName(o.value) == Strip(op)
    ensures o.None? ==> forall x: Op :: OpName(x) != Strip(op)
  {
    var name := Strip(op);
    var o := OpOfName(name);
    assert o.None? ==> forall x: Op :: OpName(x) != name by {
      forall x: Op ensures o.None? ==> OpName(x) != name {
        OpNameRoundTrip(x);
      }
    }
    o
  }

  /**
   `compile_rule`: succeeds exactly when the stripped op names one of the five
   operations; otherwise a `RuleError` carrying the op as written.
   */
  function CompileRule(rule: Rule): (r: Result<Transform>)
    ensures r.Ok? <==> exists o: Op :: OpName(o) == Strip(rule.op)
    ensures r.Ok? ==> r.value.rule == rule && OpName(r.value.op) == Strip(rule.op)
    ensures r.Err? ==> r.error == RuleError(rule.op)
  {
    match ParseOp(rule.op)
    case Some(o) => Ok(Transform(o, rule))
    case None => Err(RuleError(rule.op))
  }

  /**
   The kind guard `_guard`: a rule without a kind applies to every record,
   one with a kind only to the records of exactly that kind.
   */
  predicate Guard(rule: Rule, rec: Record): (b: bool)
    ensures rule.kind.None? ==> b
    ensures rule.kind.Some? ==> (b <==> rec.kind == rule.kind.value)
  {
    rule.kind.None? || rec.kind == rule.kind.value
  }

  /**
   The new payload each op computes: the case changes keep the length, strip
   leaves no whitespace at either end, prefix and suffix add `arg` on their
   side of the payload.
   */
  function Rewrite(op: Op, arg: string, payload: string): (p: string)
    ensures op.LowerPayload? || op.UpperPayload? ==> |p| == |payload|
    ensures op.StripPayload? ==> Unpadded(p)
    ensures op.PrefixPayload? || op.SuffixPayload? ==> |p| == |arg| + |payload|
    ensures op.PrefixPayload? ==> arg <= p
    ensures op.SuffixPayload? ==> payload <= p
  {
    match op
    case LowerPayload => Lower(payload)
    case UpperPayload => Upper(payload)
    case StripPayload => StripEdges(payload); Strip(payload)
    case PrefixPayload => arg + payload
    case SuffixPayload => payload + arg
  }

  /**
   Running a compiled transform on a record: kind and id never change, and a
   record the guard rejects comes back untouched.
   */
  function Apply(t: Transform, rec: Record): (r: Record)
    ensures r.kind == rec.kind && r.recId == rec.recId
    ensures !Guard(t.rule, rec) ==> r == rec
  {
    if !Guard(t.rule, rec) then rec
    else Record(rec.kind, rec.recId, Rewrite(t.op, t.rule.arg, rec.payload))
  }

  /** Prefix and suffix put `arg` on the chosen side of the payload. */
  lemma PrefixSuffixPayload(t: Transform, rec: Record)
    requires Guard(t.rule, rec)
    ensures t.op == PrefixPayload ==> Apply(t, rec).payload == t.rule.arg + rec.payload
    ensures t.op == SuffixPayload ==> Apply(t, rec).payload == rec.payload + t.rule.arg
  {
  }

  /** Lower, upper and strip ignore the rule's `arg`. */
  lemma ArgIgnored(o: Op, rule: Rule, arg: string, rec: Record)
    requires o == LowerPayload || o == UpperPayload || o == StripPayload
    ensures Apply(Transform(o, rule), rec) == Apply(Transform(o, rule.(arg := arg)), rec)
  {
  }

  /** Lower, upper and strip are idempotent (with the ASCII case map). */
  lemma TransformIdempotent(t: Transform, rec: Record)
    requires t.op == LowerPayload || t.op == UpperPayload || t.op == StripPayload
    ensures Apply(t, Apply(t, rec)) == Apply(t, rec)
  {
    match t.op
    case LowerPayload => LowerIdempotent(rec.payload);
    case UpperPayload => UpperIdempotent(rec.payload);
    case StripPayload => StripIdempotent(rec.payload);
  }

  /** Prefixing is not idempotent: a second application prepends `arg` again. */
  lemma PrefixNotIdempotent(t: Transform, rec: Record)
    requires t.op == PrefixPayload && Guard(t.rule, rec) && t.rule.arg != []
    ensures Apply(t, Apply(t, rec)).payload == t.rule.arg + t.rule.arg + rec.payload
    ensures Apply(t, Apply(t, rec)) != Apply(t, rec)
  {
    assert |Apply(t, Apply(t, rec)).payload| > |Apply(t, rec).payload|;
  }

  /** An op is recognised by its stripped text alone: whatever surrounds the name, only the name decides. */
  lemma CompileByStrippedName(rule: Rule, o: Op)
    requires Strip(rule.op) == OpName(o)
    ensures CompileRule(rule) == Ok(Transform(o, rule))
  {
    OpNameRoundTrip(o);
  }

  /** Every op name compiles, as written. */
  lemma ExactOpAccepted(rule: Rule, o: Op)
    requires rule.op == OpName(o)
    ensures CompileRule(rule) == Ok(Transform(o, rule))
  {
    var x := OpName(o);
    assert x != [] && !IsSpace(x[0]) && !IsSpace(x[|x| - 1]) by {
      match o {
        case LowerPayload => assert x[0] == 'l' && x[|x| - 1] == 'd';
        case UpperPayload => assert x[0] == 'u' && x[|x| - 1] == 'd';
        case StripPayload => assert x[0] == 's' && x[|x| - 1] == 'd';
        case PrefixPayload => assert x[0] == 'p' && x[|x| - 1] == 'd';
        case SuffixPayload => assert x[0] == 's' && x[|x| - 1] == 'd';
      }
    }
    StripUnpadded(x);
    CompileByStrippedName(rule, o);
  }

  /** Surrounding whitespace in the op is tolerated: `" lower_payload "` compiles like `"lower_payload"`. */
  lemma PaddedOpAccepted(rule: Rule, o: Op)
    requires rule.op == " " + OpName(o) + " "
    ensures CompileRule(rule) == Ok(Transform(o, rule))
  {
    var x := OpName(o);
    assert x != [] && !IsSpace(x[0]) && !IsSpace(x[|x| - 1]) by {
      match o {
        case LowerPayload => assert x[0] == 'l' && x[|x| - 1] == 'd';
        case UpperPayload => assert x[0] == 'u' && x[|x| - 1] == 'd';
        case StripPayload => assert x[0] == 's' && x[|x| - 1] == 'd';
        case PrefixPayload => assert x[0] == 'p' && x[|x| - 1] == 'd';
        case SuffixPayload => assert x[0] == 's' && x[|x| - 1] == 'd';
      }
    }
    StripPadded(x);
    CompileByStrippedName(rule, o);
  }

  /** Rules whose ops are all spelled exactly as one of two op names all compile. */
  lemma CompileExactOps(rules: seq<Rule>, o1: Op, o2: Op)
    requires forall i :: 0 <= i < |rules| ==> rules[i].op == OpName(o1) || rules[i].op == OpName(o2)
    ensures CompileRules(rules).Ok?
  {
    forall i | 0 <= i < |rules|
      ensures CompileRule(rules[i]).Ok?
    {
      if rules[i].op == OpName(o1) {
        ExactOpAccepted(rules[i], o1);
      } else {
        ExactOpAccepted(rules[i], o2);
      }
    }
  }

  /**
   `compile_rules`: one transform per rule, in order, or the error of the
   first rule that does not compile.
   */
  function CompileRules(rules: seq<Rule>): (r: Result<seq<Transform>>)
    ensures r.Ok? <==> forall i :: 0 <= i < |rules| ==> CompileRule(rules[i]).Ok?
    ensures r.Ok? ==>
      (|r.value| == |rules| && forall i :: 0 <= i < |rules| ==> CompileRule(rules[i]) == Ok(r.value[i]))
    ensures forall k ::
      (0 <= k < |rules| && CompileRule(rules[k]).Err? && forall j :: 0 <= j < k ==> CompileRule(rules[j]).Ok?)
      ==> r == Err(CompileRule(rules[k]).error)
  {
    MapResult(CompileRule, rules)
  }
}
