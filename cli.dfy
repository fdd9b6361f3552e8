/** The rule list the command line builds from its two flags. */
module Cli {
  import opened Wrappers
  import opened Errors
  import opened Text
  import opened Records
  import opened Rules

  const StripRule: Rule := Rule("strip", "strip_payload", "", None)
  const UpperNoteRule: Rule := Rule("upper_note", "upper_payload", "", Some("NOTE"))

  /**
   `--strip` adds the strip rule for every record, before the uppercase rule
   that `--upper-note` adds for NOTE records only.
   */
  function BuiltinRules(strip: bool, upperNote: bool): (rules: seq<Rule>)
    ensures |rules| == (if strip then 1 else 0) + (if upperNote then 1 else 0)
    ensures strip ==> rules[0] == StripRule
    ensures upperNote ==> rules[|rules| - 1] == UpperNoteRule
  {
    (if strip then [StripRule] else []) + (if upperNote then [UpperNoteRule] else [])
  }

  /** Any list made of the two built-in rules compiles. */
  lemma BuiltinOnlyCompile(rules: seq<Rule>)
    requires forall i :: 0 <= i < |rules| ==> rules[i] == StripRule || rules[i] == UpperNoteRule
    ensures CompileRules(rules).Ok?
  {
    CompileExactOps(rules, StripPayload, UpperPayload);
  }

  /** Whatever the flags, the built-in rules compile. */
  lemma BuiltinRulesCompile(strip: bool, upperNote: bool)
    ensures CompileRules(BuiltinRules(strip, upperNote)).Ok?
  {
    var rules := BuiltinRules(strip, upperNote);
    assert forall i :: 0 <= i < |rules| ==> rules[i] == StripRule || rules[i] == UpperNoteRule;
    BuiltinOnlyCompile(rules);
  }

  /** The uppercase rule leaves every record whose kind is not NOTE alone. */
  lemma UpperNoteOnlyNote(rec: Record)
    requires rec.kind != "NOTE"
    ensures Apply(Transform(UpperPayload, UpperNoteRule), rec) == rec
  {
  }
}
