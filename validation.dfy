/** What the service uses of go-playground/validator: a struct's fields are
    checked in declaration order against the rules of their `validate` tag,
    and each field whose value breaks a rule contributes one field error,
    naming the first rule it breaks. */
module Validation {
  import opened Common

  /** The tags the DTOs use: `required`, `min=n` and `max=n` on strings
      (lengths count characters, as the validator counts runes). */
  datatype Rule = Required | Min(bound: nat) | Max(bound: nat)

  /** One struct field: its Go name and the rules of its `validate` tag. */
  datatype FieldSpec = FieldSpec(name: string, rules: seq<Rule>)

  /** A `validator.FieldError` as the handlers read it: `Field()`, `Tag()`, `Param()`. */
  datatype FieldError = FieldError(field: string, tag: string, param: string)

  predicate Breaks(rule: Rule, value: string)
  {
    match rule
    case Required => value == ""
    case Min(n) => |value| < n
    case Max(n) => |value| > n
  }

  function TagName(rule: Rule): string
  {
    match rule
    case Required => "required"
    case Min(_) => "min"
    case Max(_) => "max"
  }

  /** Decimal text of a natural number, as it is written in a tag. */
  function DecimalText(n: nat): string
  {
    if n < 10 then [('0' as int + n) as char] else DecimalText(n / 10) + DecimalText(n % 10)
  }

  function ParamText(rule: Rule): string
  {
    match rule
    case Required => ""
    case Min(n) => DecimalText(n)
    case Max(n) => DecimalText(n)
  }

  /** The first rule of `rules` that `value` breaks, if any. */
  function FirstBroken(rules: seq<Rule>, value: string): Option<Rule>
  {
    if rules == [] then None
    else if Breaks(rules[0], value) then Some(rules[0])
    else FirstBroken(rules[1..], value)
  }

  /** `FirstBroken` finds nothing exactly when no rule is broken; otherwise
      it finds a broken rule that every earlier rule of the tag respects. */
  lemma {:induction false} FirstBrokenIsFirst(rules: seq<Rule>, value: string)
    ensures FirstBroken(rules, value).None? <==> forall k :: 0 <= k < |rules| ==> !Breaks(rules[k], value)
    ensures FirstBroken(rules, value).Some? ==>
              exists k :: 0 <= k < |rules| && rules[k] == FirstBroken(rules, value).value
                          && Breaks(rules[k], value)
                          && forall j :: 0 <= j < k ==> !Breaks(rules[j], value)
  {
    if rules != [] && !Breaks(rules[0], value) {
      FirstBrokenIsFirst(rules[1..], value);
      assert forall k :: 1 <= k < |rules| ==> rules[k] == rules[1..][k - 1];
      if FirstBroken(rules, value).Some? {
        var k :| 0 <= k < |rules[1..]| && rules[1..][k] == FirstBroken(rules, value).value
                 && Breaks(rules[1..][k], value)
                 && forall j :: 0 <= j < k ==> !Breaks(rules[1..][j], value);
        assert rules[k + 1] == rules[1..][k];
      }
    }
  }

  /** The errors one field contributes: none, or one for its first broken rule. */
  function FieldErrors(field: FieldSpec, value: string): (errs: seq<FieldError>)
    ensures |errs| <= 1
  {
    match FirstBroken(field.rules, value)
    case None => []
    case Some(rule) => [FieldError(field.name, TagName(rule), ParamText(rule))]
  }

  predicate Passes(field: FieldSpec, value: string)
  {
    FirstBroken(field.rules, value).None?
  }

  /** `validator.Struct`: the field errors of every field, in declaration order.
      It reports nothing exactly when every field passes, and never more
      errors than there are fields. */
  function Validate(fields: seq<FieldSpec>, values: seq<string>): (errs: seq<FieldError>)
    requires |fields| == |values|
    ensures |errs| <= |fields|
  {
    if fields == [] then []
    else FieldErrors(fields[0], values[0]) + Validate(fields[1..], values[1..])
  }

  /** Validation reports nothing exactly when every field passes its tag. */
  lemma {:induction false} ValidateEmptyIffAllPass(fields: seq<FieldSpec>, values: seq<string>)
    requires |fields| == |values|
    ensures Validate(fields, values) == [] <==> forall i :: 0 <= i < |fields| ==> Passes(fields[i], values[i])
  {
    if fields != [] {
      ValidateEmptyIffAllPass(fields[1..], values[1..]);
      assert forall i :: 1 <= i < |fields| ==> fields[i] == fields[1..][i - 1] && values[i] == values[1..][i - 1];
    }
  }

  /** The error a failing field reports: its name and its first broken rule. */
  function ErrorOf(field: FieldSpec, value: string): FieldError
    requires !Passes(field, value)
  {
    var rule := FirstBroken(field.rules, value).value;
    FieldError(field.name, TagName(rule), ParamText(rule))
  }

  function Shifted(positions: seq<nat>): (r: seq<nat>)
    ensures |r| == |positions| && forall k :: 0 <= k < |r| ==> r[k] == positions[k] + 1
  {
    seq(|positions|, k requires 0 <= k < |positions| => positions[k] + 1)
  }

  /** The positions of the fields that fail their tag. */
  function FailingPositions(fields: seq<FieldSpec>, values: seq<string>): seq<nat>
    requires |fields| == |values|
  {
    if fields == [] then []
    else (if Passes(fields[0], values[0]) then [] else [0]) + Shifted(FailingPositions(fields[1..], values[1..]))
  }

  /** Every failing position names a field that fails. */
  lemma {:induction false} FailingPositionsSound(fields: seq<FieldSpec>, values: seq<string>)
    requires |fields| == |values|
    ensures forall k :: 0 <= k < |FailingPositions(fields, values)| ==>
              FailingPositions(fields, values)[k] < |fields|
              && !Passes(fields[FailingPositions(fields, values)[k]], values[FailingPositions(fields, values)[k]])
  {
    if fields != [] {
      var tail := FailingPositions(fields[1..], values[1..]);
      FailingPositionsSound(fields[1..], values[1..]);
      var pos := FailingPositions(fields, values);
      var head: seq<nat> := if Passes(fields[0], values[0]) then [] else [0];
      assert pos == head + Shifted(tail);
      forall k | |head| <= k < |pos|
        ensures pos[k] < |fields| && !Passes(fields[pos[k]], values[pos[k]])
      {
        var j := k - |head|;
        assert pos[k] == tail[j] + 1;
        assert tail[j] < |fields[1..]| && !Passes(fields[1..][tail[j]], values[1..][tail[j]]);
        assert fields[pos[k]] == fields[1..][tail[j]] && values[pos[k]] == values[1..][tail[j]];
      }
    }
  }

  /** Every field that fails has its position among the failing ones. */
  lemma {:induction false} FailingPositionsComplete(fields: seq<FieldSpec>, values: seq<string>)
    requires |fields| == |values|
    ensures forall i :: 0 <= i < |fields| && !Passes(fields[i], values[i]) ==> i in FailingPositions(fields, values)
  {
    if fields != [] {
      var tail := FailingPositions(fields[1..], values[1..]);
      FailingPositionsComplete(fields[1..], values[1..]);
      var pos := FailingPositions(fields, values);
      var head: seq<nat> := if Passes(fields[0], values[0]) then [] else [0];
      assert pos == head + Shifted(tail);
      forall i | 0 <= i < |fields| && !Passes(fields[i], values[i])
        ensures i in pos
      {
        if i == 0 {
          assert pos[0] == 0;
        } else {
          assert fields[1..][i - 1] == fields[i] && values[1..][i - 1] == values[i];
          var j :| 0 <= j < |tail| && tail[j] == i - 1;
          assert pos[|head| + j] == i;
        }
      }
    }
  }

  /** The failing positions ascend, so each field is listed once, in order. */
  lemma {:induction false} FailingPositionsAscend(fields: seq<FieldSpec>, values: seq<string>)
    requires |fields| == |values|
    ensures forall a, b :: 0 <= a < b < |FailingPositions(fields, values)| ==>
              FailingPositions(fields, values)[a] < FailingPositions(fields, values)[b]
  {
    if fields != [] {
      var tail := FailingPositions(fields[1..], values[1..]);
      FailingPositionsAscend(fields[1..], values[1..]);
      var pos := FailingPositions(fields, values);
      var head: seq<nat> := if Passes(fields[0], values[0]) then [] else [0];
      assert pos == head + Shifted(tail);
      forall a, b | 0 <= a < b < |pos|
        ensures pos[a] < pos[b]
      {
        assert pos[b] == tail[b - |head|] + 1;
        if a >= |head| {
          assert pos[a] == tail[a - |head|] + 1;
          assert tail[a - |head|] < tail[b - |head|];
        }
      }
    }
  }

  /** Validation reports one error per failing field, in field order: the
      `k`-th error is the error of the `k`-th failing field. */
  lemma {:induction false} ValidateOnePerFailingField(fields: seq<FieldSpec>, values: seq<string>)
    requires |fields| == |values|
    ensures var errs, pos := Validate(fields, values), FailingPositions(fields, values);
            |errs| == |pos|
            && forall k :: 0 <= k < |errs| ==>
                 pos[k] < |fields| && !Passes(fields[pos[k]], values[pos[k]])
                 && errs[k] == ErrorOf(fields[pos[k]], values[pos[k]])
  {
    FailingPositionsSound(fields, values);
    if fields != [] {
      ValidateOnePerFailingField(fields[1..], values[1..]);
      var tail := FailingPositions(fields[1..], values[1..]);
      var rest := Validate(fields[1..], values[1..]);
      var errs, pos := Validate(fields, values), FailingPositions(fields, values);
      var own := FieldErrors(fields[0], values[0]);
      var head: seq<nat> := if Passes(fields[0], values[0]) then [] else [0];
      assert own == if Passes(fields[0], values[0]) then [] else [ErrorOf(fields[0], values[0])];
      assert errs == own + rest && pos == head + Shifted(tail);
      forall k | 0 <= k < |errs|
        ensures errs[k] == ErrorOf(fields[pos[k]], values[pos[k]])
      {
        if k >= |own| {
          var j := k - |own|;
          assert errs[k] == rest[j] && pos[k] == tail[j] + 1;
          assert fields[pos[k]] == fields[1..][tail[j]] && values[pos[k]] == values[1..][tail[j]];
        }
      }
    }
  }

  /** Validation of the fields from position `k` on: the errors of field `k`,
      then those of the fields after it. */
  lemma ValidateFrom(fields: seq<FieldSpec>, values: seq<string>, k: nat)
    requires |fields| == |values| && k < |fields|
    ensures Validate(fields[k..], values[k..])
            == FieldErrors(fields[k], values[k]) + Validate(fields[k + 1..], values[k + 1..])
  {
    assert fields[k..][1..] == fields[k + 1..];
    assert values[k..][1..] == values[k + 1..];
  }

  /** A field tagged only `required` fails exactly when empty. */
  lemma RequiredOnly(name: string, value: string)
    ensures FieldErrors(FieldSpec(name, [Required]), value)
            == if value == "" then [FieldError(name, "required", "")] else []
  {
    assert [Required][1..] == [];
    assert FirstBroken([Required], value) == if value == "" then Some(Required) else None;
    assert TagName(Required) == "required" && ParamText(Required) == "";
  }

  /** A field tagged `required,min=1,max=1`: empty fails `required`, longer
      than one character fails `max`, one character passes. */
  lemma RequiredOneChar(name: string, value: string)
    ensures FieldErrors(FieldSpec(name, [Required, Min(1), Max(1)]), value)
            == if value == "" then [FieldError(name, "required", "")]
               else if |value| > 1 then [FieldError(name, "max", "1")]
               else []
  {
    var rules := [Required, Min(1), Max(1)];
    assert rules[1..] == [Min(1), Max(1)];
    assert [Min(1), Max(1)][1..] == [Max(1)];
    assert [Max(1)][1..] == [];
    assert DecimalText(1) == "1";
    if value == "" {
      assert FirstBroken(rules, value) == Some(Required);
    } else {
      assert FirstBroken([Max(1)], value) == if |value| > 1 then Some(Max(1)) else None;
      assert FirstBroken([Min(1), Max(1)], value) == FirstBroken([Max(1)], value);
      assert FirstBroken(rules, value) == FirstBroken([Min(1), Max(1)], value);
    }
  }
}
